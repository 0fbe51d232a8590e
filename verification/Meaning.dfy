/** What a snapshot says about the tree it was made from. */
module Meaning {
  import opened Bytes
  import opened Sorting
  import opened TsmEntry
  import opened Indexer
  import opened Listing
  import opened Snapshot
  import C = Chunking
  import Tsc
  import TscFormat
  import TsmFormat
  import TsmWriter

  // ------------------------------------------------------ identity ignores ctimes

  lemma {:induction false} TimelessTable(es: seq<Entry>, indexMap: seq<u32>)
    ensures TsmWriter.Table(Map(Timeless, es), indexMap) == TsmWriter.Table(es, indexMap)
  {
    if es != [] {
      assert Map(Timeless, es)[1..] == Map(Timeless, es[1..]);
      TimelessTable(es[1..], indexMap);
    }
  }

  lemma {:induction false} TimelessPlaced(es: seq<Entry>, at: nat)
    ensures TsmWriter.Placed(Map(Timeless, es), at) == Map(Timeless, TsmWriter.Placed(es, at))
    decreases |es|
  {
    if es != [] {
      var n := if TsmWriter.HasRefs(es[0]) then |es[0].chunkRefs| else 0;
      assert Map(Timeless, es)[1..] == Map(Timeless, es[1..]);
      TimelessPlaced(es[1..], at + n);
      TimelessCons(TsmWriter.PlaceOne(es[0], at), TsmWriter.Placed(es[1..], at + n));
    }
  }

  lemma {:induction false} TimelessCons(e: Entry, es: seq<Entry>)
    ensures Map(Timeless, [e] + es) == [Timeless(e)] + Map(Timeless, es)
  {
  }

  lemma {:induction false} TimelessTotal(a: seq<Entry>, b: seq<Entry>)
    requires Map(Timeless, a) == Map(Timeless, b)
    ensures TsmWriter.FileTotal(a) == TsmWriter.FileTotal(b)
  {
    assert |a| == |Map(Timeless, a)| == |b|;
    if a != [] {
      var n := |a| - 1;
      assert Map(Timeless, a)[n] == Map(Timeless, b)[n];
      assert Map(Timeless, a[..n]) == Map(Timeless, a)[..n] == Map(Timeless, b[..n]);
      TimelessTotal(a[..n], b[..n]);
    }
  }

  lemma {:induction false} TimelessSorted(es: seq<Entry>)
    ensures Map(Timeless, SortBy(PathOf, es)) == SortBy(PathOf, Map(Timeless, es))
  {
    MapSort(PathOf, PathOf, Timeless, es);
  }

  lemma {:induction false} HashTimeless(header: Bytes, a: seq<Entry>, b: seq<Entry>, table: seq<u32>)
    requires Map(Timeless, a) == Map(Timeless, b)
    ensures TsmFormat.HashInput(header, a, table) == TsmFormat.HashInput(header, b, table)
  {
    assert |a| == |Map(Timeless, a)| == |b|;
    forall i | 0 <= i < |a| ensures EncodeForHash(a[i]) == EncodeForHash(b[i]) {
      assert Map(Timeless, a)[i] == Map(Timeless, b)[i];
    }
    assert Map(EncodeForHash, a) == Map(EncodeForHash, b);
  }

  /** States that agree but for ctimes publish the same chunk file and carry the
      same identity. */
  lemma {:induction false} SameFiles(sha256: Digest, a: State, b: State, creation: i64)
    requires Same(a, b)
    ensures TscFile(sha256, a) == TscFile(sha256, b)
    ensures SnapId(sha256, a, creation) == SnapId(sha256, b, creation)
  {
    hide SortBy, TsmWriter.Placed, TsmWriter.Table, TscFormat.File, TscFormat.Content, TsmFormat.HashInput, IndexMap;
    var x, y, m := SortedEntries(a), SortedEntries(b), IndexMap(a.chunks);
    assert |a.entries| == |Map(Timeless, a.entries)| == |b.entries|;
    TimelessTotal(a.entries, b.entries);
    TimelessSorted(a.entries);
    TimelessSorted(b.entries);
    TimelessTable(x, m);
    TimelessTable(y, m);
    TimelessPlaced(x, 0);
    TimelessPlaced(y, 0);
    HashTimeless(TsmFormat.HeaderBytes(ManifestHeader(sha256, a, creation)),
                 TsmWriter.Placed(x, 0), TsmWriter.Placed(y, 0), RefTable(a));
  }

  /** The incremental run publishes the chunk file and the identity of the full
      one, whenever the files it did not read are unchanged. */
  lemma {:induction false} IncrementalPublishesFull(sha256: Digest, inc: Config, fullStart: int, items: seq<Item>,
                                                    creation: i64)
    requires forall i :: 0 <= i < |items| ==> Unchanged(inc, items[i])
    ensures var a, b := Walk(inc, INITIAL, items), Walk(Config(inc.blob, None, fullStart), INITIAL, items);
            && (a.Some? <==> b.Some?)
            && (a.Some? ==> TscFile(sha256, a.value) == TscFile(sha256, b.value))
            && (a.Some? ==> SnapId(sha256, a.value, creation) == SnapId(sha256, b.value, creation))
  {
    var full := Config(inc.blob, None, fullStart);
    IncrementalIsFull(inc, full, INITIAL, INITIAL, items);
    var a, b := Walk(inc, INITIAL, items), Walk(full, INITIAL, items);
    if a.Some? { SameFiles(sha256, a.value, b.value, creation); }
  }

  // ---------------------------------------------- records agree where digests do

  ghost predicate CollisionFree(blob: Digest, s: set<Bytes>) {
    forall x, y :: x in s && y in s && blob(x) == blob(y) ==> x == y
  }

  /** What a chunk's record says of its bytes. The zero-block flag marks exactly the
      block of BLOB_MAX zeros. */
  lemma {:induction false} RecordSays(blob: Digest, s: set<Bytes>, c: Bytes)
    requires CollisionFree(blob, s) && c in s && Zeros(C.BLOB_MAX) in s && |c| <= C.BLOB_READ_SIZE
    ensures var e := EntryOf(blob, c);
            && e.sha == blob(c) && e.size == |c| && e.level == C.Level(c)
            && e.flags == if c == Zeros(32768) then 1 else 0
  {
  }

  /** The record was made from bytes of the set. */
  ghost predicate MadeFrom(blob: Digest, s: set<Bytes>, e: Tsc.Entry) {
    exists c :: c in s && |c| <= C.BLOB_READ_SIZE && e == EntryOf(blob, c)
  }

  ghost predicate Made(blob: Digest, s: set<Bytes>, es: seq<Tsc.Entry>) {
    forall i :: 0 <= i < |es| ==> MadeFrom(blob, s, es[i])
  }

  /** Level, size and flags follow from the bytes, so a digest determines its record. */
  lemma {:induction false} RecordsAgree(blob: Digest, s: set<Bytes>, a: Tsc.Entry, b: Tsc.Entry)
    requires CollisionFree(blob, s) && MadeFrom(blob, s, a) && MadeFrom(blob, s, b)
    ensures a.sha == b.sha <==> a == b
  {
    var c :| c in s && |c| <= C.BLOB_READ_SIZE && a == EntryOf(blob, c);
    var d :| d in s && |d| <= C.BLOB_READ_SIZE && b == EntryOf(blob, d);
    assert a.sha == blob(c) && b.sha == blob(d);
  }

  /** Deduplication by digest alone never keeps a record that disagrees with any
      occurrence: size, level and flags follow from the bytes. */
  lemma {:induction false} DedupAgrees(blob: Digest, s: set<Bytes>, chunks: seq<Tsc.Entry>, es: seq<Tsc.Entry>, k: nat)
    requires CollisionFree(blob, s) && Made(blob, s, chunks) && Made(blob, s, es) && k < |es|
    requires Tsc.Has(chunks, es[k].sha)
    ensures chunks[Tsc.Find(chunks, es[k].sha)] == es[k]
  {
    hide CollisionFree, MadeFrom;
    RecordsAgree(blob, s, chunks[Tsc.Find(chunks, es[k].sha)], es[k]);
  }

  lemma {:induction false} MadeFile(blob: Digest, s: set<Bytes>, content: Bytes)
    requires forall c :: c in C.Chunks(content) ==> c in s
    ensures Made(blob, s, FileEntries(blob, content))
  {
    C.ChunksSmall(content);
    var cs, es := C.Chunks(content), FileEntries(blob, content);
    forall i | 0 <= i < |es| ensures MadeFrom(blob, s, es[i]) {
      assert cs[i] in cs;
    }
  }

  lemma {:induction false} MadeAdded(blob: Digest, s: set<Bytes>, chunks: seq<Tsc.Entry>, es: seq<Tsc.Entry>)
    requires Made(blob, s, chunks) && Made(blob, s, es)
    ensures Made(blob, s, Tsc.AddedAll(chunks, es))
    decreases |es|
  {
    hide EntryOf, Tsc.Find;
    if es != [] {
      assert forall i :: 0 <= i < |es| - 1 ==> es[1..][i] == es[i + 1];
      MadeAdded(blob, s, Tsc.Added(chunks, es[0]), es[1..]);
    }
  }

  // ----------------------------------------------------- the walk tells the truth

  /** A name of a regular file: names with one inode key are names of one file. */
  datatype File = File(content: Bytes, ctime: i64, inode: u64)

  type Tree = map<Bytes, File>

  ghost predicate Coherent(tree: Tree) {
    forall p, q :: p in tree && q in tree && tree[p].inode == tree[q].inode ==> tree[p].content == tree[q].content
  }

  /** What the walk reports of a regular file is what the tree holds. */
  ghost predicate Describes(tree: Tree, it: Item) {
    it.Found? && it.kind.Regular? ==>
      && it.path in tree
      && it.stat.size == |tree[it.path].content|
      && (if it.path == [] then 0 else it.stat.ctime) == tree[it.path].ctime
      && it.kind.inode == tree[it.path].inode
      && (it.kind.reading.Readable? ==> it.kind.reading.content == tree[it.path].content)
  }

  ghost predicate Opens(it: Item) {
    it.Found? && it.kind.Regular? ==> it.kind.reading.Readable?
  }

  /** The walk of a captured tree: its paths in order, every regular file of the tree
      among them and there to be read. */
  ghost predicate WalksTree(tree: Tree, items: seq<Item>) {
    && (forall i :: 0 <= i < |items| ==> Describes(tree, items[i]) && Opens(items[i]))
    && (forall q :: q in tree ==> exists i :: 0 <= i < |items| && IsFileAt(items[i], q))
    && PathsOrdered(items) && |items| < U32
  }

  ghost predicate IsFileAt(it: Item, q: Bytes) { it.Found? && it.kind.Regular? && it.path == q }

  /** Every chunk of every file of the tree is in the set. */
  ghost predicate Covers(s: set<Bytes>, tree: Tree) {
    forall p, c :: p in tree && c in C.Chunks(tree[p].content) ==> c in s
  }

  /** e's references name, in chunks, the chunks of content. */
  ghost predicate Shows(blob: Digest, chunks: seq<Tsc.Entry>, e: Entry, content: Bytes) {
    var es := FileEntries(blob, content);
    && e.chunkRefs == RefsIn(chunks, es)
    && (forall k :: 0 <= k < |es| ==> Tsc.Has(chunks, es[k].sha))
  }

  ghost predicate EntryTrue(cfg: Config, chunks: seq<Tsc.Entry>, e: Entry, tree: Tree) {
    e.typ == FILE ==>
      && e.path in tree
      && e.size == |tree[e.path].content|
      && e.ctime == RacyAdjusted(tree[e.path].ctime, cfg.start)
      && e.chunkCount == Wrap32(|e.chunkRefs|)
      && Shows(cfg.blob, chunks, e, tree[e.path].content)
  }

  ghost predicate Truthful(cfg: Config, s: set<Bytes>, st: State, tree: Tree) {
    && DistinctKeys(Tsc.KeyOf, st.chunks)
    && Made(cfg.blob, s, st.chunks)
    && (forall i :: 0 <= i < |st.entries| ==> EntryTrue(cfg, st.chunks, st.entries[i], tree))
  }

  lemma {:induction false} RefsStable(a: seq<Tsc.Entry>, b: seq<Tsc.Entry>, es: seq<Tsc.Entry>)
    requires a <= b && forall k :: 0 <= k < |es| ==> Tsc.Has(a, es[k].sha)
    ensures RefsIn(a, es) == RefsIn(b, es)
    ensures forall k :: 0 <= k < |es| ==> Tsc.Has(b, es[k].sha)
  {
    hide Tsc.Find, Tsc.Has;
    forall k | 0 <= k < |es| ensures RefsIn(a, es)[k] == RefsIn(b, es)[k] && Tsc.Has(b, es[k].sha) {
      Tsc.PrefixHas(a, b, es[k].sha);
    }
  }

  lemma {:induction false} EntryTrueGrows(cfg: Config, a: seq<Tsc.Entry>, b: seq<Tsc.Entry>, e: Entry, tree: Tree)
    requires a <= b && EntryTrue(cfg, a, e, tree)
    ensures EntryTrue(cfg, b, e, tree)
  {
    hide FileEntries, RacyAdjusted, RefsIn;
    if e.typ == FILE { RefsStable(a, b, FileEntries(cfg.blob, tree[e.path].content)); }
  }

  lemma {:induction false} AppendTrue(cfg: Config, s: set<Bytes>, st: State, tree: Tree, e: Entry)
    requires Truthful(cfg, s, st, tree) && EntryTrue(cfg, st.chunks, e, tree)
    ensures Truthful(cfg, s, Append(st, e), tree)
  {
    hide EntryTrue, Made, DistinctKeys;
  }

  lemma {:induction false} ChunksTrue(cfg: Config, s: set<Bytes>, st: State, tree: Tree, es: seq<Tsc.Entry>,
                                      links: map<u64, u32>)
    requires Truthful(cfg, s, st, tree) && Made(cfg.blob, s, es)
    ensures Truthful(cfg, s, st.(chunks := Tsc.AddedAll(st.chunks, es), links := links), tree)
  {
    hide EntryTrue, Made, DistinctKeys, Tsc.AddedAll;
    var chunks := Tsc.AddedAll(st.chunks, es);
    Tsc.AddedAllKeeps(st.chunks, es);
    MadeAdded(cfg.blob, s, st.chunks, es);
    forall i | 0 <= i < |st.entries| ensures EntryTrue(cfg, chunks, st.entries[i], tree) {
      EntryTrueGrows(cfg, st.chunks, chunks, st.entries[i], tree);
    }
  }

  lemma {:induction false} WithChunksTrue(cfg: Config, s: set<Bytes>, st: State, tree: Tree, e: Entry,
                                          links: map<u64, u32>)
    requires Truthful(cfg, s, st, tree) && Covers(s, tree)
    requires e.typ == FILE && e.path in tree
    requires e.size == |tree[e.path].content| && e.ctime == tree[e.path].ctime
    ensures Truthful(cfg, s, WithChunks(st, e, FileEntries(cfg.blob, tree[e.path].content), links, cfg.start), tree)
  {
    hide Tsc.AddedAll, RefsIn, FileEntries, Truthful, RacyAdjusted, Wrap32;
    var content := tree[e.path].content;
    var es := FileEntries(cfg.blob, content);
    MadeFile(cfg.blob, s, content);
    ChunksTrue(cfg, s, st, tree, es, links);
    TruthfulDistinct(cfg, s, st, tree);
    Tsc.AddedAllKeeps(st.chunks, es);
    var chunks := Tsc.AddedAll(st.chunks, es);
    var refs := RefsIn(chunks, es);
    var f := e.(chunkRefs := refs, chunkCount := Wrap32(|refs|), ctime := RacyAdjusted(e.ctime, cfg.start));
    AppendTrue(cfg, s, st.(chunks := chunks, links := links), tree, f);
  }

  lemma {:induction false} TruthfulDistinct(cfg: Config, s: set<Bytes>, st: State, tree: Tree)
    requires Truthful(cfg, s, st, tree)
    ensures DistinctKeys(Tsc.KeyOf, st.chunks)
  {
  }

  lemma {:induction false} FileTrue(cfg: Config, s: set<Bytes>, st: State, tree: Tree, it: Item, links: map<u64, u32>)
    requires Truthful(cfg, s, st, tree) && Covers(s, tree)
    requires it.Found? && it.kind.Regular? && Describes(tree, it) && Unchanged(cfg, it)
    ensures var r := StepFile(cfg, st, BaseEntry(it.path, it.stat, FILE), links, it.kind.reading);
            r.Some? ==> Truthful(cfg, s, r.value, tree)
  {
    hide Tsc.AddedAll, FileEntries, Covers, WithChunks, Candidate;
    var e := BaseEntry(it.path, it.stat, FILE);
    WithChunksTrue(cfg, s, st, tree, e, links);
    NoChunks(cfg.blob, st.chunks);
    if Candidate(cfg.parent, e) == None {
      LinksTrue(cfg, s, st, tree, links);
    }
  }

  lemma {:induction false} NoChunks(blob: Digest, chunks: seq<Tsc.Entry>)
    ensures FileEntries(blob, []) == [] && Tsc.AddedAll(chunks, []) == chunks
  {
  }

  lemma {:induction false} LinksTrue(cfg: Config, s: set<Bytes>, st: State, tree: Tree, links: map<u64, u32>)
    requires Truthful(cfg, s, st, tree)
    ensures Truthful(cfg, s, st.(links := links), tree)
  {
  }

  lemma {:induction false} StepTrue(cfg: Config, s: set<Bytes>, st: State, tree: Tree, it: Item)
    requires Truthful(cfg, s, st, tree) && Covers(s, tree)
    requires Describes(tree, it) && Unchanged(cfg, it)
    ensures Step(cfg, st, it).Some? ==> Truthful(cfg, s, Step(cfg, st, it).value, tree)
  {
    hide Truthful, StepFile, Unchanged, Describes, Covers;
    var r := Step(cfg, st, it);
    if it.Found? && it.kind.Regular? && !(it.kind.nlink > 1 && it.kind.inode in st.links) {
      var k := it.kind;
      FileTrue(cfg, s, st, tree, it, if k.nlink > 1 then st.links[k.inode := st.count] else st.links);
    } else if r.Some? && r.value != st {
      var e := Last(cfg, st, it);
      AppendTrue(cfg, s, st, tree, e);
    }
  }

  /** Anything but a first regular file only appends an entry of another type. */
  lemma {:induction false} Last(cfg: Config, st: State, it: Item) returns (e: Entry)
    requires it.Found? && !(it.kind.Regular? && !(it.kind.nlink > 1 && it.kind.inode in st.links))
    requires Step(cfg, st, it).Some? && Step(cfg, st, it).value != st
    ensures e.typ != FILE && Step(cfg, st, it) == Some(Append(st, e))
  {
    var es := Step(cfg, st, it).value.entries;
    e := es[|es| - 1];
  }

  lemma {:induction false} WalkTrue(cfg: Config, s: set<Bytes>, st: State, tree: Tree, items: seq<Item>)
    requires Truthful(cfg, s, st, tree) && Covers(s, tree)
    requires forall i :: 0 <= i < |items| ==> Describes(tree, items[i]) && Unchanged(cfg, items[i])
    ensures Walk(cfg, st, items).Some? ==> Truthful(cfg, s, Walk(cfg, st, items).value, tree)
    decreases |items|
  {
    hide Truthful, Covers, Describes, Unchanged, Step;
    if items != [] {
      StepTrue(cfg, s, st, tree, items[0]);
      var next := Step(cfg, st, items[0]);
      if next.Some? { WalkTrue(cfg, s, next.value, tree, items[1..]); }
    }
  }

  /** The bytes of the files that have entries, one after another. */
  function FileBytes(es: seq<Entry>, tree: Tree): Bytes {
    if es == [] then []
    else
      var e := es[|es| - 1];
      FileBytes(es[..|es| - 1], tree) + if e.typ == FILE && e.path in tree then tree[e.path].content else []
  }

  /** The total in the manifest's header is the length of all its files together. */
  lemma {:induction false} TotalIsLength(cfg: Config, s: set<Bytes>, st: State, tree: Tree)
    requires Truthful(cfg, s, st, tree)
    ensures TsmWriter.FileTotal(st.entries) == |FileBytes(st.entries, tree)|
  {
    hide EntryTrue, Made, DistinctKeys;
    forall i | 0 <= i < |st.entries| && st.entries[i].typ == FILE
      ensures st.entries[i].path in tree && st.entries[i].size == |tree[st.entries[i].path].content|
    {
      assert EntryTrue(cfg, st.chunks, st.entries[i], tree);
      EntrySize(cfg, st.chunks, st.entries[i], tree);
    }
    TotalOf(st.entries, tree);
  }

  lemma {:induction false} EntrySize(cfg: Config, chunks: seq<Tsc.Entry>, e: Entry, tree: Tree)
    requires EntryTrue(cfg, chunks, e, tree) && e.typ == FILE
    ensures e.path in tree && e.size == |tree[e.path].content|
  {
  }

  lemma {:induction false} TotalOf(es: seq<Entry>, tree: Tree)
    requires forall i :: 0 <= i < |es| && es[i].typ == FILE ==>
               es[i].path in tree && es[i].size == |tree[es[i].path].content|
    ensures TsmWriter.FileTotal(es) == |FileBytes(es, tree)|
  {
    if es != [] { TotalOf(es[..|es| - 1], tree); }
  }

  /** The total in the chunk file's header is the length of all its chunks together. */
  lemma {:induction false} ChunkTotal(blob: Digest, es: seq<Tsc.Entry>, cs: seq<Bytes>)
    requires |es| == |cs| && forall i :: 0 <= i < |es| ==> |cs[i]| <= C.BLOB_READ_SIZE && es[i] == EntryOf(blob, cs[i])
    ensures Tsc.Total(es) == |Flatten(cs)|
  {
    hide EntryOf, Flatten;
    if es != [] {
      var n := |es| - 1;
      ChunkTotal(blob, es[..n], cs[..n]);
      TakeSnoc(cs, n);
      assert cs[..n + 1] == cs;
      FlattenSnoc(cs[..n], cs[n]);
      ChunkSize(blob, cs[n]);
    } else {
      FlattenNone();
    }
  }

  lemma {:induction false} ChunkSize(blob: Digest, c: Bytes)
    requires |c| <= C.BLOB_READ_SIZE
    ensures EntryOf(blob, c).size == |c|
  {
  }

  // ------------------------------------------------ nothing is left out or mislinked

  /** Entry i stands for the file with this inode. */
  ghost predicate LinkOk(es: seq<Entry>, tree: Tree, i: nat, inode: u64) {
    i < |es| && es[i].typ == FILE && es[i].path in tree && tree[es[i].path].inode == inode
  }

  /** Remembered inodes and hardlink entries lead to the entry of the same file. */
  ghost predicate Linked(st: State, tree: Tree) {
    && st.count == |st.entries|
    && (forall k :: k in st.links ==> LinkOk(st.entries, tree, st.links[k], k))
    && (forall j :: 0 <= j < |st.entries| && st.entries[j].typ == HARDLINK ==>
          && st.entries[j].path in tree
          && LinkOk(st.entries, tree, st.entries[j].linkIndex, tree[st.entries[j].path].inode))
  }

  /** The file is reused, empty, or there to be read. */
  ghost predicate IsGot(cfg: Config, it: Item)
    requires it.Found? && it.kind.Regular?
  {
    Reuse(cfg.parent, BaseEntry(it.path, it.stat, FILE)).1 || it.stat.size == 0 || it.kind.reading.Readable?
  }

  /** The file is opened to be read, and may not be. */
  ghost predicate IsRefused(cfg: Config, it: Item) {
    it.Found? && it.kind.Regular? && it.kind.reading.Denied? && !IsGot(cfg, it)
  }

  /** What a regular file adds that is read, reused or empty. */
  lemma {:induction false} FileAppended(cfg: Config, st: State, e: Entry, links: map<u64, u32>, reading: Reading)
    requires Reuse(cfg.parent, e).1 || e.size == 0 || reading.Readable?
    ensures var r := StepFile(cfg, st, e, links, reading);
            && r.Some? && |r.value.entries| == |st.entries| + 1 && r.value.entries[..|st.entries|] == st.entries
            && r.value.entries[|st.entries|].path == e.path && r.value.entries[|st.entries|].typ == e.typ
            && r.value.links == links && r.value.count == Wrap32(st.count + 1)
  {
    hide Reuse, FileEntries, RacyAdjusted, Tsc.AddedAll, RefsIn;
  }

  lemma {:induction false} LinksGrow(es: seq<Entry>, more: seq<Entry>, tree: Tree, i: nat, inode: u64)
    requires LinkOk(es, tree, i, inode) && |more| >= |es| && more[..|es|] == es
    ensures LinkOk(more, tree, i, inode)
  {
    assert more[i] == more[..|es|][i];
  }

  /** One more entry, and perhaps one more inode that it stands for. */
  lemma {:induction false} LinkedAppend(st: State, next: State, tree: Tree)
    requires Linked(st, tree) && |st.entries| + 1 < U32
    requires |next.entries| == |st.entries| + 1 && next.entries[..|st.entries|] == st.entries
    requires next.count == Wrap32(st.count + 1)
    requires forall k :: k in next.links ==>
               (k in st.links && next.links[k] == st.links[k]) || LinkOk(next.entries, tree, next.links[k], k)
    requires var e := next.entries[|st.entries|];
             e.typ == HARDLINK ==> e.path in tree && LinkOk(next.entries, tree, e.linkIndex, tree[e.path].inode)
    ensures Linked(next, tree)
  {
    hide LinkOk;
    forall k | k in next.links ensures LinkOk(next.entries, tree, next.links[k], k) {
      if k in st.links && next.links[k] == st.links[k] { LinksGrow(st.entries, next.entries, tree, st.links[k], k); }
    }
    forall j | 0 <= j < |next.entries| && next.entries[j].typ == HARDLINK
      ensures next.entries[j].path in tree
      ensures LinkOk(next.entries, tree, next.entries[j].linkIndex, tree[next.entries[j].path].inode)
    {
      if j < |st.entries| {
        assert next.entries[j] == next.entries[..|st.entries|][j] == st.entries[j];
        LinksGrow(st.entries, next.entries, tree, st.entries[j].linkIndex, tree[st.entries[j].path].inode);
      }
    }
  }

  lemma {:induction false} FileLinked(cfg: Config, st: State, tree: Tree, it: Item)
    requires Linked(st, tree) && |st.entries| + 1 < U32
    requires it.Found? && it.kind.Regular? && Describes(tree, it) && IsGot(cfg, it)
    requires !(it.kind.nlink > 1 && it.kind.inode in st.links)
    ensures Step(cfg, st, it).Some? && Linked(Step(cfg, st, it).value, tree)
  {
    hide StepFile, Linked;
    var e, k := BaseEntry(it.path, it.stat, FILE), it.kind;
    var links := if k.nlink > 1 then st.links[k.inode := st.count] else st.links;
    FileAppended(cfg, st, e, links, k.reading);
    var next := StepFile(cfg, st, e, links, k.reading).value;
    LinkedCount(st, tree);
    assert LinkOk(next.entries, tree, |st.entries|, k.inode);
    LinkedAppend(st, next, tree);
  }

  lemma {:induction false} LinkedCount(st: State, tree: Tree)
    requires Linked(st, tree)
    ensures st.count == |st.entries|
    ensures forall k :: k in st.links ==> LinkOk(st.entries, tree, st.links[k], k)
  {
  }

  /** A step that is not the first name of a file. */
  lemma {:induction false} LinkStep(cfg: Config, st: State, tree: Tree, it: Item)
    requires Linked(st, tree) && |st.entries| + 1 < U32 && Describes(tree, it) && Step(cfg, st, it).Some?
    requires it.Found? && it.kind.Regular? ==> it.kind.nlink > 1 && it.kind.inode in st.links
    ensures Linked(Step(cfg, st, it).value, tree)
  {
    hide Linked, LinkOk;
    if Step(cfg, st, it).value != st {
      LinkedCount(st, tree);
      var e := Last(cfg, st, it);
      var next := Append(st, e);
      if it.kind.Regular? { LinksGrow(st.entries, next.entries, tree, st.links[it.kind.inode], it.kind.inode); }
      LinkedAppend(st, next, tree);
    }
  }

  /** A refused file adds nothing, but the first of several names is remembered. */
  lemma {:induction false} RefusedStep(cfg: Config, st: State, it: Item)
    requires IsRefused(cfg, it) && !(it.kind.nlink > 1 && it.kind.inode in st.links)
    ensures var r := Step(cfg, st, it);
            && r.Some? && r.value.entries == st.entries && r.value.count == st.count
            && r.value.links == if it.kind.nlink > 1 then st.links[it.kind.inode := st.count] else st.links
  {
    hide Reuse, FileEntries, Tsc.AddedAll, RefsIn;
  }

  /** One step keeps every link leading to its file if and only if it does not meet, as
      the first name of a file with several, one that it may not read. */
  lemma {:induction false} StepLinkedIff(cfg: Config, st: State, tree: Tree, it: Item)
    requires Linked(st, tree) && |st.entries| + 1 < U32 && Describes(tree, it) && Step(cfg, st, it).Some?
    ensures Linked(Step(cfg, st, it).value, tree)
            <==> !(IsRefused(cfg, it) && it.kind.nlink > 1 && it.kind.inode !in st.links)
  {
    hide StepFile, Linked, LinkOk, IsGot, Describes;
    if !(it.Found? && it.kind.Regular? && !(it.kind.nlink > 1 && it.kind.inode in st.links)) {
      LinkStep(cfg, st, tree, it);
    } else if IsRefused(cfg, it) {
      RefusedLinked(cfg, st, tree, it);
    } else {
      BrokenStops(cfg, st, it);
      FileLinked(cfg, st, tree, it);
    }
  }

  lemma {:induction false} RefusedLinked(cfg: Config, st: State, tree: Tree, it: Item)
    requires Linked(st, tree) && IsRefused(cfg, it) && !(it.kind.nlink > 1 && it.kind.inode in st.links)
    ensures Step(cfg, st, it).Some? && (Linked(Step(cfg, st, it).value, tree) <==> it.kind.nlink <= 1)
  {
    hide IsGot, Step;
    RefusedStep(cfg, st, it);
    var next := Step(cfg, st, it).value;
    if it.kind.nlink > 1 {
      assert it.kind.inode in next.links && next.links[it.kind.inode] == st.count;
      assert !LinkOk(next.entries, tree, st.count, it.kind.inode);
    }
  }

  lemma {:induction false} BrokenStops(cfg: Config, st: State, it: Item)
    requires it.Found? && it.kind.Regular? && !(it.kind.nlink > 1 && it.kind.inode in st.links)
    requires Step(cfg, st, it).Some? && !IsRefused(cfg, it)
    ensures IsGot(cfg, it)
  {
    hide Reuse, FileEntries, Tsc.AddedAll, RefsIn;
  }

  lemma {:induction false} WalkOne(cfg: Config, st: State, it: Item)
    ensures Walk(cfg, st, [it]) == Step(cfg, st, it)
  {
    hide Step;
    assert [it][1..] == [];
  }

  /** After a refused first name, the next name met is listed as a hard link to itself. */
  lemma {:induction false} RefusedMislinks(cfg: Config, st: State, a: Item, b: Item)
    requires IsRefused(cfg, a) && a.kind.nlink > 1 && a.kind.inode !in st.links && st.count == |st.entries|
    requires b.Found? && b.kind.Regular? && b.kind.nlink > 1 && b.kind.inode == a.kind.inode
    ensures var r := Walk(cfg, st, [a, b]);
            && r.Some? && |r.value.entries| == |st.entries| + 1
            && var e := r.value.entries[|st.entries|];
               e.path == b.path && e.typ == HARDLINK && e.linkIndex == |st.entries|
  {
    hide IsGot, StepFile;
    RefusedStep(cfg, st, a);
    var next := Step(cfg, st, a).value;
    assert [a, b][1..] == [b] && [b][1..] == [];
    assert Walk(cfg, next, [b]) == Step(cfg, next, b) by { WalkOne(cfg, next, b); }
  }

  lemma {:induction false} StepLinked(cfg: Config, st: State, tree: Tree, it: Item)
    requires Linked(st, tree) && |st.entries| + 1 < U32
    requires Describes(tree, it) && Opens(it) && Step(cfg, st, it).Some?
    ensures Linked(Step(cfg, st, it).value, tree)
    ensures |Step(cfg, st, it).value.entries| <= |st.entries| + 1
  {
    hide Linked, Step, Describes;
    StepLists(cfg, st, it);
    StepLinkedIff(cfg, st, tree, it);
  }

  lemma {:induction false} WalkLinked(cfg: Config, st: State, tree: Tree, items: seq<Item>)
    requires Linked(st, tree) && |st.entries| + |items| < U32
    requires forall i :: 0 <= i < |items| ==> Describes(tree, items[i]) && Opens(items[i])
    ensures Walk(cfg, st, items).Some? ==> Linked(Walk(cfg, st, items).value, tree)
    decreases |items|
  {
    hide Linked, Describes, Opens, Step;
    if items != [] {
      var next := Step(cfg, st, items[0]);
      if next.Some? {
        StepLinked(cfg, st, tree, items[0]);
        assert forall i :: 0 <= i < |items| - 1 ==> items[1..][i] == items[i + 1];
        WalkLinked(cfg, next.value, tree, items[1..]);
      }
    }
  }

  ghost predicate IsNameEntry(e: Entry, q: Bytes) { e.path == q && (e.typ == FILE || e.typ == HARDLINK) }

  /** Every file of the tree has an entry; they are in path order and well linked. */
  ghost predicate Complete(st: State, tree: Tree) {
    && Strict(PathOf, st.entries) && SortedEntries(st) == st.entries
    && Linked(st, tree)
    && (forall q :: q in tree ==> exists j :: 0 <= j < |st.entries| && IsNameEntry(st.entries[j], q))
  }

  /** A walk of the whole tree leaves nothing out. */
  lemma {:induction false} WalkComplete(cfg: Config, tree: Tree, items: seq<Item>)
    requires WalksTree(tree, items) && Walk(cfg, INITIAL, items).Some?
    ensures Complete(Walk(cfg, INITIAL, items).value, tree)
  {
    hide Walk, Records, MustList, Linked, Describes, Opens, Strict, SortBy;
    var st := Walk(cfg, INITIAL, items).value;
    assert Linked(INITIAL, tree) by { NothingLinked(tree); }
    WalkLinked(cfg, INITIAL, tree, items);
    var from := WalkLists(cfg, INITIAL, items);
    assert st.entries[0..] == st.entries;
    ListedOrdered(cfg.start, st.entries, items, from);
    forall q | q in tree ensures exists j :: 0 <= j < |st.entries| && IsNameEntry(st.entries[j], q) {
      var i :| 0 <= i < |items| && IsFileAt(items[i], q);
      FileMustBeListed(tree, items[i], q);
      var j :| 0 <= j < |from| && from[j] == i;
      assert Records(cfg.start, st.entries[j], items[from[j]]);
      RecordedName(cfg.start, st.entries[j], items[i], q);
      assert IsNameEntry(st.entries[j], q);
    }
  }

  lemma {:induction false} NothingLinked(tree: Tree)
    ensures Linked(INITIAL, tree)
  {
  }

  lemma {:induction false} FileMustBeListed(tree: Tree, it: Item, q: Bytes)
    requires IsFileAt(it, q) && Opens(it)
    ensures MustList(it)
  {
  }

  lemma {:induction false} RecordedName(start: int, e: Entry, it: Item, q: Bytes)
    requires Records(start, e, it) && IsFileAt(it, q)
    ensures IsNameEntry(e, q)
  {
  }

  // -------------------------------------------------- the parsed files attest a tree

  /** A file entry is as the tree holds it, down to the chunks of its bytes. */
  ghost predicate EntryHolds(blob: Digest, p: Entry, es: seq<Tsc.Entry>, tree: Tree) {
    p.typ == FILE ==>
      && p.path in tree
      && p.size == |tree[p.path].content| && p.chunkCount == |p.chunkRefs|
      && |Resolve(p.chunkRefs, es)| == |p.chunkRefs|
      && Resolve(p.chunkRefs, es) == FileEntries(blob, tree[p.path].content)
  }

  ghost predicate EntryAttests(blob: Digest, start: int, p: Entry, es: seq<Tsc.Entry>, tree: Tree) {
    EntryHolds(blob, p, es, tree) && (p.typ == FILE ==> p.ctime == RacyAdjusted(tree[p.path].ctime, start))
  }

  /** Entry i of the manifest is a file with this content. */
  ghost predicate Names(tsm: TsmFormat.Reader, tree: Tree, i: nat, content: Bytes) {
    && i < |tsm.entries| && tsm.entries[i].typ == FILE
    && tsm.entries[i].path in tree && tree[tsm.entries[i].path].content == content
  }

  /** The path is in the manifest, as a file or as another name of a listed file with
      the same bytes. */
  ghost predicate Listed(tsm: TsmFormat.Reader, tree: Tree, q: Bytes)
    requires q in tree
  {
    var r := LookupPath(tsm, q);
    && r.Some?
    && (r.value.typ == FILE || (r.value.typ == HARDLINK && Names(tsm, tree, r.value.linkIndex, tree[q].content)))
  }

  /** The parsed snapshot is the tree: it lists no path twice, every file it lists is
      as the tree holds it, down to the chunks of its bytes, and every file of the
      tree is listed. */
  ghost predicate Attests(blob: Digest, start: int, snap: Parent, tree: Tree) {
    && Strict(PathOf, snap.tsm.entries)
    && (forall i :: 0 <= i < |snap.tsm.entries| ==>
          EntryAttests(blob, start, snap.tsm.entries[i], snap.tsc.entries, tree))
    && (forall q :: q in tree ==> Listed(snap.tsm, tree, q))
  }

  /** The same of a tree whose ctimes may be others. */
  ghost predicate Holds(blob: Digest, snap: Parent, tree: Tree) {
    && Strict(PathOf, snap.tsm.entries)
    && (forall i :: 0 <= i < |snap.tsm.entries| ==> EntryHolds(blob, snap.tsm.entries[i], snap.tsc.entries, tree))
    && (forall q :: q in tree ==> Listed(snap.tsm, tree, q))
  }

  lemma {:induction false} AttestsHolds(blob: Digest, start: int, snap: Parent, tree: Tree)
    requires Attests(blob, start, snap, tree)
    ensures Holds(blob, snap, tree)
  {
    hide EntryHolds, Listed, Strict;
    forall i | 0 <= i < |snap.tsm.entries| ensures EntryHolds(blob, snap.tsm.entries[i], snap.tsc.entries, tree) {
      assert EntryAttests(blob, start, snap.tsm.entries[i], snap.tsc.entries, tree);
    }
  }

  lemma {:induction false} ResolveAll(refs: seq<u32>, es: seq<Tsc.Entry>)
    requires forall k :: 0 <= k < |refs| ==> refs[k] < |es|
    ensures |Resolve(refs, es)| == |refs|
    ensures forall k :: 0 <= k < |refs| ==> Resolve(refs, es)[k] == es[refs[k]]
    decreases |refs|
  {
    if refs != [] { ResolveAll(refs[1..], es); }
  }

  lemma {:induction false} ShownRecord(blob: Digest, s: set<Bytes>, st: State, e: Entry, content: Bytes, k: nat)
    requires CollisionFree(blob, s) && Made(blob, s, st.chunks) && |st.chunks| <= U32
    requires Shows(blob, st.chunks, e, content) && Made(blob, s, FileEntries(blob, content))
    requires k < |e.chunkRefs|
    ensures k < |FileEntries(blob, content)| && e.chunkRefs[k] < |st.chunks|
    ensures st.chunks[e.chunkRefs[k]] == FileEntries(blob, content)[k]
  {
    hide FileEntries, Made, CollisionFree, Tsc.Find;
    var fe := FileEntries(blob, content);
    DedupAgrees(blob, s, st.chunks, fe, k);
    assert e.chunkRefs[k] == Wrap32(Tsc.Find(st.chunks, fe[k].sha));
  }

  lemma {:induction false} ReadsBackFile(blob: Digest, s: set<Bytes>, st: State, e: Entry, r: Entry,
                                         es: seq<Tsc.Entry>, content: Bytes)
    requires CollisionFree(blob, s) && Made(blob, s, st.chunks) && |st.chunks| <= U32
    requires Shows(blob, st.chunks, e, content) && forall c :: c in C.Chunks(content) ==> c in s
    requires ReadBack(st, e, r, es)
    ensures |Resolve(r.chunkRefs, es)| == |r.chunkRefs|
    ensures Resolve(r.chunkRefs, es) == FileEntries(blob, content)
  {
    hide FileEntries, Made, CollisionFree, Resolve;
    MadeFile(blob, s, content);
    ResolveAll(r.chunkRefs, es);
    forall k | 0 <= k < |e.chunkRefs|
      ensures k < |FileEntries(blob, content)| && Resolve(r.chunkRefs, es)[k] == FileEntries(blob, content)[k]
    {
      ShownRecord(blob, s, st, e, content, k);
    }
    ShownCount(blob, st.chunks, e, content);
  }

  lemma {:induction false} ShownCount(blob: Digest, chunks: seq<Tsc.Entry>, e: Entry, content: Bytes)
    requires Shows(blob, chunks, e, content)
    ensures |e.chunkRefs| == |FileEntries(blob, content)|
  {
  }

  lemma {:induction false} SortedTrue(cfg: Config, s: set<Bytes>, st: State, tree: Tree, i: nat)
    requires Truthful(cfg, s, st, tree) && i < |st.entries|
    ensures EntryTrue(cfg, st.chunks, SortedEntries(st)[i], tree)
  {
    hide EntryTrue;
    var x := SortedEntries(st);
    SortElements(PathOf, st.entries);
    assert x[i] in multiset(x);
    assert x[i] in st.entries;
  }

  /** Every entry of the run is found in the manifest under its path. */
  ghost predicate LooksUp(st: State, tsm: TsmFormat.Reader) {
    && |tsm.entries| == |SortedEntries(st)|
    && forall i :: 0 <= i < |tsm.entries| ==> FoundAt(tsm, SortedEntries(st)[i], i)
  }

  ghost predicate FoundAt(tsm: TsmFormat.Reader, e: Entry, i: nat) {
    i < |tsm.entries| && LookupPath(tsm, e.path) == Some(tsm.entries[i]) && tsm.entries[i].typ == e.typ
  }

  lemma {:induction false} ReadBackLooksUp(st: State, tsm: TsmFormat.Reader, es: seq<Tsc.Entry>)
    requires DistinctKeys(PathOf, st.entries) && |tsm.entries| == |st.entries|
    requires forall i :: 0 <= i < |tsm.entries| ==> ReadBack(st, SortedEntries(st)[i], tsm.entries[i], es)
    ensures LooksUp(st, tsm) && Strict(PathOf, tsm.entries)
  {
    hide SortBy, Lookup, DistinctKeys;
    SortStrict(PathOf, st.entries);
    forall i | 0 <= i < |tsm.entries|
      ensures SortedEntries(st)[i].path == tsm.entries[i].path && SortedEntries(st)[i].typ == tsm.entries[i].typ
    {
      assert ReadBack(st, SortedEntries(st)[i], tsm.entries[i], es);
    }
    SamePaths(SortedEntries(st), tsm.entries);
    forall i | 0 <= i < |tsm.entries| ensures FoundAt(tsm, SortedEntries(st)[i], i) {
      LookupStrict(PathOf, tsm.entries, i);
    }
  }

  lemma {:induction false} ReadBackAttests(cfg: Config, s: set<Bytes>, st: State, tree: Tree, i: nat, r: Entry,
                                           es: seq<Tsc.Entry>)
    requires Truthful(cfg, s, st, tree) && Covers(s, tree) && CollisionFree(cfg.blob, s) && |st.chunks| <= U32
    requires i < |st.entries| && ReadBack(st, SortedEntries(st)[i], r, es)
    requires SortedEntries(st)[i].chunkCount == |SortedEntries(st)[i].chunkRefs|
    ensures EntryAttests(cfg.blob, cfg.start, r, es, tree)
  {
    hide SortBy, FileEntries, Made, CollisionFree, Resolve, RacyAdjusted, Shows;
    var e := SortedEntries(st)[i];
    SortedTrue(cfg, s, st, tree, i);
    if r.typ == FILE {
      ReadsBackFile(cfg.blob, s, st, e, r, es, tree[e.path].content);
    }
  }

  /** Every file of the tree can be looked up, hardlinks leading to their file. */
  lemma {:induction false} ListsInManifest(st: State, tree: Tree, tsm: TsmFormat.Reader, es: seq<Tsc.Entry>, q: Bytes)
    requires Complete(st, tree) && Coherent(tree) && LooksUp(st, tsm) && q in tree
    requires |tsm.entries| == |st.entries|
    requires forall i :: 0 <= i < |tsm.entries| ==> ReadBack(st, st.entries[i], tsm.entries[i], es)
    ensures Listed(tsm, tree, q)
  {
    hide SortBy, Lookup, Strict, ReadBack;
    var j :| 0 <= j < |st.entries| && IsNameEntry(st.entries[j], q);
    assert FoundAt(tsm, SortedEntries(st)[j], j);
    var e, r := st.entries[j], tsm.entries[j];
    ReadBackKeeps(st, e, r, es);
    if e.typ == HARDLINK {
      assert LinkOk(st.entries, tree, e.linkIndex, tree[e.path].inode);
      ReadBackKeeps(st, st.entries[e.linkIndex], tsm.entries[e.linkIndex], es);
      assert Names(tsm, tree, r.linkIndex, tree[q].content);
    }
  }

  lemma {:induction false} ReadBackKeeps(st: State, e: Entry, r: Entry, es: seq<Tsc.Entry>)
    requires ReadBack(st, e, r, es)
    ensures r.path == e.path && r.typ == e.typ && (e.typ == HARDLINK ==> r.linkIndex == e.linkIndex)
  {
  }

  /** The manifest names its chunk file, by eight bytes of its digest. */
  ghost predicate Bound(snap: Parent) { snap.tsm.header.chunkFileRef == snap.tsc.sha[..8] }

  /** What a truthful and complete run publishes, parsed again, attests the tree; and
      every entry of the run can be looked up by its path. */
  lemma {:induction false} PublishedAttests(sha256: Digest, cfg: Config, s: set<Bytes>, st: State, tree: Tree,
                                            creation: i64) returns (snap: Parent)
    requires Truthful(cfg, s, st, tree) && Covers(s, tree) && CollisionFree(cfg.blob, s) && Writable(st)
    requires Complete(st, tree) && Coherent(tree)
    ensures TscFormat.Parse(sha256, TscFile(sha256, st)) == Ok(snap.tsc)
    ensures TsmFormat.Parse(sha256, TsmFile(sha256, st, creation)) == Ok(snap.tsm)
    ensures Attests(cfg.blob, cfg.start, snap, tree)
    ensures LooksUp(st, snap.tsm) && Bound(snap) && snap.tsm.sha == SnapId(sha256, st, creation)
  {
    hide TscFormat.Parse, TsmFormat.Parse, TscFile, TsmFile, ReadBack, Truthful, Covers, CollisionFree, EntryAttests,
         LooksUp, RefTable, Listed, WritableEntry, Coherent;
    var tsc, tsm := WriteParse(sha256, st, creation);
    snap := Parent(tsm, tsc);
    forall i | 0 <= i < |tsm.entries| ensures EntryAttests(cfg.blob, cfg.start, tsm.entries[i], tsc.entries, tree) {
      CountsRefs(st, i);
      ReadBackAttests(cfg, s, st, tree, i, tsm.entries[i], tsc.entries);
    }
    ReadBackLooksUp(st, tsm, tsc.entries);
    forall q | q in tree ensures Listed(tsm, tree, q) { ListsInManifest(st, tree, tsm, tsc.entries, q); }
  }

  lemma {:induction false} CountsRefs(st: State, i: nat)
    requires Writable(st) && i < |st.entries|
    ensures SortedEntries(st)[i].chunkCount == |SortedEntries(st)[i].chunkRefs|
  {
    hide SortBy, RefTable, Encodable;
    ElementsWritable(st, i);
  }
}
