/** Exactly when one incremental snapshot is right (tsm/indexer.go:219-295, 409-453):
    against any parent, whatever was done to the tree in between. */
module Incremental {
  import opened Bytes
  import opened Sorting
  import opened TsmEntry
  import opened Indexer
  import opened Snapshot
  import opened Meaning
  import C = Chunking
  import Capacity
  import Tsc
  import TscFormat
  import TsmFormat

  // ------------------------------------------------------------ which files are read

  predicate IsLinked(it: Item, inode: u64) {
    it.Found? && it.kind.Regular? && it.kind.nlink > 1 && it.kind.inode == inode
  }

  /** Item i is not another name of a file that the walk has seen before. */
  ghost predicate FirstName(links: set<u64>, items: seq<Item>, i: nat) {
    && i < |items| && items[i].Found? && items[i].kind.Regular?
    && var inode := items[i].kind.inode;
    IsLinked(items[i], inode) ==> inode !in links && forall k :: 0 <= k < i ==> !IsLinked(items[k], inode)
  }

  /** The walk meets a file first under this name. */
  ghost predicate MetFirst(links: set<u64>, items: seq<Item>, q: Bytes) {
    exists i: nat :: MetAt(links, items, i, q)
  }

  ghost predicate MetAt(links: set<u64>, items: seq<Item>, i: nat, q: Bytes) {
    FirstName(links, items, i) && items[i].path == q
  }

  ghost predicate IsFileEntry(e: Entry, q: Bytes) { e.path == q && e.typ == FILE }

  ghost predicate ListsFile(es: seq<Entry>, from: nat, q: Bytes) {
    exists j: nat :: from <= j < |es| && IsFileEntry(es[j], q)
  }

  lemma {:induction false} StepNames(cfg: Config, st: State, it: Item)
    requires Step(cfg, st, it).Some? && Opens(it)
    ensures var next := Step(cfg, st, it).value;
            && st.entries <= next.entries && |next.entries| <= |st.entries| + 1
            && (FirstName(st.links.Keys, [it], 0) ==>
                  |next.entries| > |st.entries| && IsFileEntry(next.entries[|st.entries|], it.path))
            && (|next.entries| > |st.entries| && next.entries[|st.entries|].typ == FILE ==>
                  FirstName(st.links.Keys, [it], 0) && next.entries[|st.entries|].path == it.path)
            && forall k :: k in next.links <==> k in st.links || IsLinked(it, k)
  {
    hide Reuse, FileEntries, RacyAdjusted, Tsc.AddedAll, RefsIn, StepFile;
    if it.Found? && it.kind.Regular? && !(it.kind.nlink > 1 && it.kind.inode in st.links) {
      var k := it.kind;
      var e := BaseEntry(it.path, it.stat, FILE);
      FileAppended(cfg, st, e, if k.nlink > 1 then st.links[k.inode := st.count] else st.links, k.reading);
    }
  }

  lemma {:induction false} FirstNameNext(links: set<u64>, more: set<u64>, items: seq<Item>, i: nat)
    requires 0 < i < |items| && forall k :: k in more <==> k in links || IsLinked(items[0], k)
    ensures FirstName(links, items, i) <==> FirstName(more, items[1..], i - 1)
  {
    hide IsLinked;
    assert items[1..][i - 1] == items[i];
    if FirstName(more, items[1..], i - 1) {
      var inode := items[i].kind.inode;
      if IsLinked(items[i], inode) {
        forall k | 0 <= k < i ensures !IsLinked(items[k], inode) {
          if k > 0 { assert items[1..][k - 1] == items[k]; }
        }
      }
    }
  }

  /** Exactly the names met first become file entries. */
  lemma {:induction false} FirstNames(cfg: Config, st: State, items: seq<Item>)
    requires Walk(cfg, st, items).Some? && forall i :: 0 <= i < |items| ==> Opens(items[i])
    ensures st.entries <= Walk(cfg, st, items).value.entries
    ensures forall q :: MetFirst(st.links.Keys, items, q)
                        <==> ListsFile(Walk(cfg, st, items).value.entries, |st.entries|, q)
    decreases |items|
  {
    hide Step, Opens, FirstName, MetFirst, ListsFile;
    var es, links := Walk(cfg, st, items).value.entries, st.links.Keys;
    if items == [] {
      forall q ensures MetFirst(links, items, q) <==> ListsFile(es, |st.entries|, q) { NoNames(links, es, q); }
    } else {
      StepNames(cfg, st, items[0]);
      var next := Step(cfg, st, items[0]).value;
      assert forall i :: 0 <= i < |items| - 1 ==> items[1..][i] == items[i + 1];
      FirstNames(cfg, next, items[1..]);
      if FirstName(links, [items[0]], 0) { NameInRange(links, [items[0]], 0); }
      forall q ensures MetFirst(links, items, q) <==> ListsFile(es, |st.entries|, q) {
        MetCons(links, next.links.Keys, items, q);
        ListsCons(next.entries, es, |st.entries|, q);
      }
    }
  }

  lemma {:induction false} NoNames(links: set<u64>, es: seq<Entry>, q: Bytes)
    ensures !MetFirst(links, [], q) && !ListsFile(es, |es|, q)
  {
  }

  lemma {:induction false} MetCons(links: set<u64>, more: set<u64>, items: seq<Item>, q: Bytes)
    requires items != [] && forall k :: k in more <==> k in links || IsLinked(items[0], k)
    ensures MetFirst(links, items, q)
            <==> (FirstName(links, [items[0]], 0) && items[0].Found? && items[0].path == q)
                 || MetFirst(more, items[1..], q)
  {
    hide IsLinked, FirstName;
    FirstHead(links, items);
    if i: nat :| MetAt(links, items, i, q) {
      NameInRange(links, items, i);
      if i > 0 {
        FirstNameNext(links, more, items, i);
        assert MetAt(more, items[1..], i - 1, q);
      }
    }
    if i: nat :| MetAt(more, items[1..], i, q) {
      NameInRange(more, items[1..], i);
      FirstNameNext(links, more, items, i + 1);
      assert MetAt(links, items, i + 1, q);
    }
    if FirstName(links, items, 0) {
      NameInRange(links, items, 0);
      if items[0].path == q { assert MetAt(links, items, 0, q); }
    }
  }

  /** Entries beyond from are the one at from, if there is one, and those of the rest. */
  lemma {:induction false} ListsCons(es: seq<Entry>, all: seq<Entry>, from: nat, q: Bytes)
    requires es <= all && from <= |es| <= from + 1
    ensures ListsFile(all, from, q)
            <==> (|es| > from && IsFileEntry(es[from], q)) || ListsFile(all, |es|, q)
  {
  }

  lemma {:induction false} NameInRange(links: set<u64>, items: seq<Item>, i: nat)
    requires FirstName(links, items, i)
    ensures i < |items| && items[i].Found? && items[i].kind.Regular?
  {
  }

  lemma {:induction false} FirstHead(links: set<u64>, items: seq<Item>)
    requires items != []
    ensures FirstName(links, items, 0) <==> FirstName(links, [items[0]], 0)
  {
  }

  // ---------------------------------------------------------- what the indexer believes

  /** The parent's entry for the path passes the change check. */
  ghost predicate Trusts(parent: Parent, q: Bytes, f: File) {
    var r := LookupPath(parent.tsm, q);
    r.Some? && r.value.typ == FILE && r.value.size == |f.content| && r.value.ctime == f.ctime
  }

  /** It does, but the file no longer holds what the parent's tree held there. */
  ghost predicate Mistaken(parent: Parent, before: Tree, q: Bytes, f: File) {
    Trusts(parent, q, f) && (q in before ==> before[q].content != f.content)
  }

  function ContentAt(before: Tree, q: Bytes): Bytes { if q in before then before[q].content else [] }

  /** The tree with the old bytes wherever the parent is trusted. */
  ghost function Believed(parent: Parent, before: Tree, tree: Tree): Tree {
    map q | q in tree ::
      if Trusts(parent, q, tree[q]) then tree[q].(content := ContentAt(before, q)) else tree[q]
  }

  function BelievedItem(t: Tree, it: Item): Item {
    if it.Found? && it.kind.Regular? && it.kind.reading.Readable? && it.path in t
    then it.(kind := it.kind.(reading := Readable(t[it.path].content, it.kind.reading.plan)))
    else it
  }

  function BelievedItems(t: Tree, items: seq<Item>): (r: seq<Item>)
    ensures |r| == |items| && forall i :: 0 <= i < |r| ==> r[i] == BelievedItem(t, items[i])
  {
    seq(|items|, i requires 0 <= i < |items| => BelievedItem(t, items[i]))
  }

  /** What a trusted entry of an attesting parent stands for. */
  lemma {:induction false} TrustedEntry(blob: Digest, since: int, parent: Parent, before: Tree, q: Bytes, f: File)
    requires Attests(blob, since, parent, before) && Trusts(parent, q, f)
    ensures q in before && |before[q].content| == |f.content|
    ensures var refs := LookupPath(parent.tsm, q).value.chunkRefs;
            var es := Resolve(refs, parent.tsc.entries);
            |es| == |refs| && es == FileEntries(blob, before[q].content)
  {
    hide Resolve, FileEntries, RacyAdjusted, Listed, Strict;
    var i := Lookup(PathOf, parent.tsm.entries, q).value;
    assert EntryAttests(blob, since, parent.tsm.entries[i], parent.tsc.entries, before);
  }

  /** The file as believed is stepped over as the file itself is. */
  lemma {:induction false} BelievedFile(cfg: Config, since: int, before: Tree, tree: Tree, it: Item)
    requires cfg.parent.Some? && Attests(cfg.blob, since, cfg.parent.value, before)
    requires it.Found? && it.kind.Regular? && Describes(tree, it) && Opens(it)
    ensures var t := Believed(cfg.parent.value, before, tree);
            var it' := BelievedItem(t, it);
            && Describes(t, it') && Unchanged(cfg, it')
            && (Candidate(cfg.parent, BaseEntry(it.path, it.stat, FILE)).None? ==> it' == it)
  {
    hide Attests, Resolve, FileEntries, Lookup;
    var f := tree[it.path];
    if Trusts(cfg.parent.value, it.path, f) { TrustedEntry(cfg.blob, since, cfg.parent.value, before, it.path, f); }
  }

  lemma {:induction false} BelievedStep(cfg: Config, since: int, before: Tree, tree: Tree, st: State, it: Item)
    requires cfg.parent.Some? && Attests(cfg.blob, since, cfg.parent.value, before)
    requires Describes(tree, it) && Opens(it)
    ensures var it' := BelievedItem(Believed(cfg.parent.value, before, tree), it);
            && Describes(Believed(cfg.parent.value, before, tree), it') && Unchanged(cfg, it')
            && Step(cfg, st, it') == Step(cfg, st, it)
  {
    hide Attests, Believed, Candidate, Resolve, FileEntries, WithChunks, Tsc.AddedAll;
    if it.Found? && it.kind.Regular? { BelievedFile(cfg, since, before, tree, it); }
  }

  lemma {:induction false} BelievedWalk(cfg: Config, since: int, before: Tree, tree: Tree, st: State, items: seq<Item>)
    requires cfg.parent.Some? && Attests(cfg.blob, since, cfg.parent.value, before)
    requires forall i :: 0 <= i < |items| ==> Describes(tree, items[i]) && Opens(items[i])
    ensures Walk(cfg, st, BelievedItems(Believed(cfg.parent.value, before, tree), items)) == Walk(cfg, st, items)
    decreases |items|
  {
    hide Attests, Believed, BelievedItem, Describes, Opens, Unchanged, Step;
    if items != [] {
      var t := Believed(cfg.parent.value, before, tree);
      BelievedStep(cfg, since, before, tree, st, items[0]);
      assert BelievedItems(t, items)[1..] == BelievedItems(t, items[1..]);
      var next := Step(cfg, st, items[0]);
      if next.Some? { BelievedWalk(cfg, since, before, tree, next.value, items[1..]); }
    }
  }

  lemma {:induction false} BelievedCovers(blob: Digest, since: int, s: set<Bytes>, parent: Parent, before: Tree,
                                          tree: Tree)
    requires Attests(blob, since, parent, before) && Covers(s, before) && Covers(s, tree)
    ensures Covers(s, Believed(parent, before, tree))
  {
    hide Attests, Trusts, C.Chunks;
    forall q | q in tree && Trusts(parent, q, tree[q]) ensures q in before {
      TrustedEntry(blob, since, parent, before, q, tree[q]);
    }
  }

  /** Whatever really is in the files, the run tells the truth about the believed tree. */
  lemma {:induction false} BelievesTrue(cfg: Config, since: int, s: set<Bytes>, before: Tree, tree: Tree,
                                        items: seq<Item>)
    requires cfg.parent.Some? && Attests(cfg.blob, since, cfg.parent.value, before)
    requires Covers(s, before) && Covers(s, tree)
    requires forall i :: 0 <= i < |items| ==> Describes(tree, items[i]) && Opens(items[i])
    ensures var t := Believed(cfg.parent.value, before, tree);
            Covers(s, t) &&
            (Walk(cfg, INITIAL, items).Some? ==> Truthful(cfg, s, Walk(cfg, INITIAL, items).value, t))
  {
    hide Attests, Believed, BelievedItem, Describes, Opens, Unchanged, Walk, Covers;
    var t := Believed(cfg.parent.value, before, tree);
    var items' := BelievedItems(t, items);
    BelievedWalk(cfg, since, before, tree, INITIAL, items);
    BelievedCovers(cfg.blob, since, s, cfg.parent.value, before, tree);
    forall i | 0 <= i < |items| ensures Describes(t, items'[i]) && Unchanged(cfg, items'[i]) {
      BelievedStep(cfg, since, before, tree, INITIAL, items[i]);
    }
    assert Truthful(cfg, s, INITIAL, t);
    WalkTrue(cfg, s, INITIAL, t, items');
  }

  // --------------------------------------------------------------- what is published

  /** Chunk records of different bytes are different, short of a collision. */
  lemma {:induction false} EntriesTell(blob: Digest, s: set<Bytes>, a: Bytes, b: Bytes)
    requires CollisionFree(blob, s) && FileEntries(blob, a) == FileEntries(blob, b)
    requires (forall c :: c in C.Chunks(a) ==> c in s) && (forall c :: c in C.Chunks(b) ==> c in s)
    ensures a == b
  {
    hide C.Chunks, Flatten, CollisionFree;
    var x, y := C.Chunks(a), C.Chunks(b);
    C.ChunksSmall(a);
    C.ChunksSmall(b);
    C.ChunksTile(a);
    C.ChunksTile(b);
    assert |x| == |FileEntries(blob, a)| == |y|;
    forall k | 0 <= k < |x| ensures x[k] == y[k] {
      assert FileEntries(blob, a)[k] == EntryOf(blob, x[k]) && FileEntries(blob, b)[k] == EntryOf(blob, y[k]);
      SameChunk(blob, s, x[k], y[k]);
    }
    assert x == y;
  }

  lemma {:induction false} SameChunk(blob: Digest, s: set<Bytes>, x: Bytes, y: Bytes)
    requires CollisionFree(blob, s) && x in s && y in s && |x| <= C.BLOB_READ_SIZE && |y| <= C.BLOB_READ_SIZE
    requires EntryOf(blob, x) == EntryOf(blob, y)
    ensures x == y
  {
  }

  /** What the published files say, in terms of the believed tree. */
  lemma {:induction false} PublishesBelieved(sha256: Digest, cfg: Config, s: set<Bytes>, st: State, believed: Tree,
                                             tree: Tree, creation: i64, snap: Parent)
    requires Truthful(cfg, s, st, believed) && Covers(s, believed) && CollisionFree(cfg.blob, s) && Writable(st)
    requires Complete(st, tree) && Coherent(tree)
    requires TscFormat.Parse(sha256, TscFile(sha256, st)) == Ok(snap.tsc)
    requires TsmFormat.Parse(sha256, TsmFile(sha256, st, creation)) == Ok(snap.tsm)
    ensures Strict(PathOf, snap.tsm.entries) && |snap.tsm.entries| == |st.entries|
    ensures forall q :: q in tree ==> Listed(snap.tsm, tree, q)
    ensures forall i :: 0 <= i < |st.entries| ==>
              var r := snap.tsm.entries[i];
              && r.path == st.entries[i].path && r.typ == st.entries[i].typ
              && EntryAttests(cfg.blob, cfg.start, r, snap.tsc.entries, believed)
  {
    hide TscFormat.Parse, TsmFormat.Parse, TscFile, TsmFile, ReadBack, Truthful, Covers, CollisionFree, EntryAttests,
         LooksUp, RefTable, Listed, WritableEntry, Coherent, Linked, Strict, SortBy;
    var tsc, tsm := WriteParse(sha256, st, creation);
    forall i | 0 <= i < |st.entries|
      ensures tsm.entries[i].path == st.entries[i].path && tsm.entries[i].typ == st.entries[i].typ
      ensures EntryAttests(cfg.blob, cfg.start, tsm.entries[i], tsc.entries, believed)
    {
      CountsRefs(st, i);
      ReadBackAttests(cfg, s, st, believed, i, tsm.entries[i], tsc.entries);
      ReadBackKeeps(st, st.entries[i], tsm.entries[i], tsc.entries);
    }
    ReadBackLooksUp(st, tsm, tsc.entries);
    forall q | q in tree ensures Listed(tsm, tree, q) { ListsInManifest(st, tree, tsm, tsc.entries, q); }
  }

  lemma {:induction false} BelievedAt(blob: Digest, since: int, parent: Parent, before: Tree, tree: Tree, q: Bytes)
    requires Attests(blob, since, parent, before) && q in tree
    ensures var b := Believed(parent, before, tree)[q];
            && b.ctime == tree[q].ctime && |b.content| == |tree[q].content|
            && (Mistaken(parent, before, q, tree[q]) <==> b.content != tree[q].content)
  {
    hide Attests, LookupPath;
    if Trusts(parent, q, tree[q]) { TrustedEntry(blob, since, parent, before, q, tree[q]); }
  }

  /** Between what is believed and what is: one entry. */
  lemma {:induction false} EntryTells(cfg: Config, s: set<Bytes>, since: int, before: Tree, tree: Tree, r: Entry,
                                      es: seq<Tsc.Entry>)
    requires cfg.parent.Some? && Attests(cfg.blob, since, cfg.parent.value, before) && CollisionFree(cfg.blob, s)
    requires Covers(s, tree) && Covers(s, Believed(cfg.parent.value, before, tree))
    requires EntryAttests(cfg.blob, cfg.start, r, es, Believed(cfg.parent.value, before, tree))
    ensures r.typ == FILE ==> r.path in tree
    ensures EntryAttests(cfg.blob, cfg.start, r, es, tree)
            <==> (r.typ == FILE ==> !Mistaken(cfg.parent.value, before, r.path, tree[r.path]))
  {
    hide Attests, Resolve, FileEntries, RacyAdjusted, Trusts, C.Chunks, CollisionFree, Mistaken;
    var t := Believed(cfg.parent.value, before, tree);
    if r.typ == FILE {
      BelievedAt(cfg.blob, since, cfg.parent.value, before, tree, r.path);
      if FileEntries(cfg.blob, t[r.path].content) == FileEntries(cfg.blob, tree[r.path].content) {
        EntriesTell(cfg.blob, s, t[r.path].content, tree[r.path].content);
      }
    }
  }

  /** Against any parent that attests some tree, and whatever became of the files since,
      the new snapshot attests the present tree if and only if no file that is looked
      up passes the change check with other bytes than the parent's tree held there. */
  lemma {:induction false} IncrementalExact(sha256: Digest, cfg: Config, s: set<Bytes>, since: int, before: Tree,
                                            tree: Tree, items: seq<Item>, creation: i64, snap: Parent)
    requires cfg.parent.Some? && Attests(cfg.blob, since, cfg.parent.value, before)
    requires Covers(s, before) && Covers(s, tree) && CollisionFree(cfg.blob, s)
    requires WalksTree(tree, items) && Coherent(tree)
    requires Walk(cfg, INITIAL, items).Some? && Writable(Walk(cfg, INITIAL, items).value)
    requires TscFormat.Parse(sha256, TscFile(sha256, Walk(cfg, INITIAL, items).value)) == Ok(snap.tsc)
    requires TsmFormat.Parse(sha256, TsmFile(sha256, Walk(cfg, INITIAL, items).value, creation)) == Ok(snap.tsm)
    ensures Attests(cfg.blob, cfg.start, snap, tree)
            <==> forall q :: q in tree && MetFirst({}, items, q) ==> !Mistaken(cfg.parent.value, before, q, tree[q])
  {
    hide TscFormat.Parse, TsmFormat.Parse, TscFile, TsmFile, Truthful, Covers, CollisionFree, EntryAttests, Listed,
         Writable, Coherent, Linked, Strict, Walk, Describes, Opens, Complete, Believed, Mistaken, MetFirst, ListsFile;
    var st, t := Walk(cfg, INITIAL, items).value, Believed(cfg.parent.value, before, tree);
    BelievesTrue(cfg, since, s, before, tree, items);
    WalkComplete(cfg, tree, items);
    PublishesBelieved(sha256, cfg, s, st, t, tree, creation, snap);
    FirstNames(cfg, INITIAL, items);
    assert INITIAL.links.Keys == {};
    MeetsMistakes(cfg, since, s, before, tree, items, st, snap);
  }

  /** The two readings of the manifest agree exactly where there is no mistake. */
  lemma {:induction false} MeetsMistakes(cfg: Config, since: int, s: set<Bytes>, before: Tree, tree: Tree,
                                         items: seq<Item>, st: State, snap: Parent)
    requires cfg.parent.Some? && Attests(cfg.blob, since, cfg.parent.value, before) && CollisionFree(cfg.blob, s)
    requires Covers(s, tree) && Covers(s, Believed(cfg.parent.value, before, tree))
    requires Strict(PathOf, snap.tsm.entries) && |snap.tsm.entries| == |st.entries|
    requires forall q :: q in tree ==> Listed(snap.tsm, tree, q)
    requires forall i :: 0 <= i < |st.entries| ==>
               var r := snap.tsm.entries[i];
               && r.path == st.entries[i].path && r.typ == st.entries[i].typ
               && EntryAttests(cfg.blob, cfg.start, r, snap.tsc.entries, Believed(cfg.parent.value, before, tree))
    requires forall q :: MetFirst({}, items, q) <==> ListsFile(st.entries, 0, q)
    ensures Attests(cfg.blob, cfg.start, snap, tree)
            <==> forall q :: q in tree && MetFirst({}, items, q) ==> !Mistaken(cfg.parent.value, before, q, tree[q])
  {
    hide Covers, CollisionFree, EntryAttests, Listed, Strict, Mistaken, MetFirst, Believed;
    var parent, es := cfg.parent.value, snap.tsm.entries;
    forall i | 0 <= i < |es|
      ensures es[i].typ == FILE ==> es[i].path in tree
      ensures EntryAttests(cfg.blob, cfg.start, es[i], snap.tsc.entries, tree)
              <==> (es[i].typ == FILE ==> !Mistaken(parent, before, es[i].path, tree[es[i].path]))
    {
      EntryTells(cfg, s, since, before, tree, es[i], snap.tsc.entries);
    }
    forall i | 0 <= i < |es| && es[i].typ == FILE ensures MetFirst({}, items, es[i].path) {
      assert IsFileEntry(st.entries[i], es[i].path);
      assert ListsFile(st.entries, 0, es[i].path);
    }
    forall q | q in tree && MetFirst({}, items, q) && Mistaken(parent, before, q, tree[q])
      ensures exists i :: 0 <= i < |es| && !EntryAttests(cfg.blob, cfg.start, es[i], snap.tsc.entries, tree)
    {
      assert ListsFile(st.entries, 0, q);
      var i: nat :| i < |st.entries| && IsFileEntry(st.entries[i], q);
      assert es[i].path == q && es[i].typ == FILE;
    }
  }

  // ------------------------------------------------------------------ it does come about

  lemma {:induction false} BelievedItemKeeps(t: Tree, it: Item)
    requires Opens(it)
    ensures var it' := BelievedItem(t, it);
            && Opens(it') && (Capacity.Fits(it) ==> Capacity.Fits(it'))
            && it'.Found? == it.Found? && (it.Found? ==> it'.path == it.path && it'.kind.Regular? == it.kind.Regular?)
  {
  }

  /** Nothing about a mistaken run shows: the files are written as ever, if the believed
      tree fits the format. */
  lemma {:induction false} IncrementalFits(cfg: Config, since: int, s: set<Bytes>, before: Tree, tree: Tree,
                                           items: seq<Item>)
    requires cfg.parent.Some? && Attests(cfg.blob, since, cfg.parent.value, before)
    requires Covers(s, before) && Covers(s, tree) && WalksTree(tree, items)
    requires Capacity.Sails(items) && forall i :: 0 <= i < |items| ==> Capacity.Fits(items[i])
    requires Capacity.Budget(BelievedItems(Believed(cfg.parent.value, before, tree), items)) < U32
    ensures Walk(cfg, INITIAL, items).Some? && Writable(Walk(cfg, INITIAL, items).value)
  {
    hide Attests, Believed, BelievedItem, Describes, Opens, Unchanged, Walk, Covers, Writable, Capacity.Fits,
         Capacity.Budget, Capacity.Sails;
    var t := Believed(cfg.parent.value, before, tree);
    var items' := BelievedItems(t, items);
    Capacity.WalkRuns(cfg, INITIAL, items);
    BelievedWalk(cfg, since, before, tree, INITIAL, items);
    BelievesTrue(cfg, since, s, before, tree, items);
    forall i | 0 <= i < |items|
      ensures Describes(t, items'[i]) && Unchanged(cfg, items'[i]) && Opens(items'[i]) && Capacity.Fits(items'[i])
    {
      BelievedStep(cfg, since, before, tree, INITIAL, items[i]);
      BelievedItemKeeps(t, items[i]);
    }
    BelievedWalks(cfg.parent.value, before, tree, items);
    Capacity.WalkFits(cfg, s, t, items');
  }

  lemma {:induction false} BelievedWalks(parent: Parent, before: Tree, tree: Tree, items: seq<Item>)
    requires WalksTree(tree, items)
    requires var t := Believed(parent, before, tree);
             forall i :: 0 <= i < |items| ==>
               Describes(t, BelievedItem(t, items[i])) && Opens(BelievedItem(t, items[i]))
    ensures WalksTree(Believed(parent, before, tree), BelievedItems(Believed(parent, before, tree), items))
  {
    hide Describes, Opens, BelievedItem, Trusts;
    var t := Believed(parent, before, tree);
    var items' := BelievedItems(t, items);
    forall i | 0 <= i < |items|
      ensures items'[i].Found? == items[i].Found?
      ensures items[i].Found? ==> items'[i].path == items[i].path && items'[i].kind.Regular? == items[i].kind.Regular?
    {
      BelievedItemKeeps(t, items[i]);
    }
    forall q | q in t ensures exists i :: 0 <= i < |items'| && IsFileAt(items'[i], q) {
      var i :| 0 <= i < |items| && IsFileAt(items[i], q);
      assert IsFileAt(items'[i], q);
    }
  }
}
