/** When the two files of a walk can be written without loss (tsm/tsm.go:81-174,
    190-290, tsm/tsc.go:33-48): what must fit the format's fields, in terms of the
    tree alone. */
module Capacity {
  import opened Bytes
  import opened Sorting
  import opened TsmEntry
  import opened Indexer
  import opened Listing
  import opened Meaning
  import opened Snapshot
  import C = Chunking
  import Tsc
  import TsmWriter

  function KindBytes(k: Kind): nat {
    match k
    case Symlink(Some(target)) => 2 + |target|
    case Regular(_, _, _) => 4
    case Device(_, _, _) => 8
    case _ => 0
  }

  /** The item's entry fits its uint16 length field. */
  predicate Fits(it: Item) { it.Found? ==> 58 + |it.path| + KindBytes(it.kind) < 0x1_0000 }

  function ChunksOf(it: Item): nat {
    if it.Found? && it.kind.Regular? && it.kind.reading.Readable? then |C.Chunks(it.kind.reading.content)| else 0
  }

  /** The chunks of all files, counted once for each file. */
  function Budget(items: seq<Item>): nat {
    if items == [] then 0 else ChunksOf(items[0]) + Budget(items[1..])
  }

  function RefCount(es: seq<Entry>): nat {
    if es == [] then 0 else RefCount(es[..|es| - 1]) + |es[|es| - 1].chunkRefs|
  }

  /** Nothing in the walk makes indexing give up. */
  ghost predicate Sails(items: seq<Item>) {
    forall i :: 0 <= i < |items| ==> !items[i].StatBroken? && (items[i].Found? ==> items[i].kind != Symlink(None))
  }

  // ---------------------------------------------------------- it runs to its end

  lemma {:induction false} StepRuns(cfg: Config, st: State, it: Item)
    requires !it.StatBroken? && (it.Found? ==> it.kind != Symlink(None)) && Opens(it)
    ensures Step(cfg, st, it).Some?
  {
    hide WithChunks, FileEntries, Reuse;
  }

  lemma {:induction false} WalkRuns(cfg: Config, st: State, items: seq<Item>)
    requires Sails(items) && forall i :: 0 <= i < |items| ==> Opens(items[i])
    ensures Walk(cfg, st, items).Some?
    decreases |items|
  {
    hide Step, Opens;
    if items != [] {
      StepRuns(cfg, st, items[0]);
      assert forall i :: 0 <= i < |items| - 1 ==> items[1..][i] == items[i + 1];
      WalkRuns(cfg, Step(cfg, st, items[0]).value, items[1..]);
    }
  }

  // --------------------------------------------------------------- counting chunks

  lemma {:induction false} AddedLength(chunks: seq<Tsc.Entry>, es: seq<Tsc.Entry>)
    ensures |Tsc.AddedAll(chunks, es)| <= |chunks| + |es|
    decreases |es|
  {
    if es != [] { AddedLength(Tsc.Added(chunks, es[0]), es[1..]); }
  }

  /** No more chunks are kept than references made. */
  ghost predicate Backed(st: State) { |st.chunks| <= RefCount(st.entries) }

  lemma {:induction false} CountSnoc(es: seq<Entry>, e: Entry)
    ensures RefCount(es + [e]) == RefCount(es) + |e.chunkRefs|
  {
    assert (es + [e])[..|es|] == es;
  }

  lemma {:induction false} WithChunksCounts(st: State, e: Entry, es: seq<Tsc.Entry>, links: map<u64, u32>, start: int)
    requires Backed(st)
    ensures var next := WithChunks(st, e, es, links, start);
            Backed(next) && RefCount(next.entries) == RefCount(st.entries) + |es|
  {
    hide RacyAdjusted, Tsc.AddedAll;
    var chunks := Tsc.AddedAll(st.chunks, es);
    AddedLength(st.chunks, es);
    var refs := RefsIn(chunks, es);
    CountSnoc(st.entries, e.(chunkRefs := refs, chunkCount := Wrap32(|refs|), ctime := RacyAdjusted(e.ctime, start)));
  }

  lemma {:induction false} FileCounts(cfg: Config, st: State, it: Item, links: map<u64, u32>)
    requires Backed(st) && it.Found? && it.kind.Regular? && Opens(it) && Unchanged(cfg, it)
    ensures var r := StepFile(cfg, st, BaseEntry(it.path, it.stat, FILE), links, it.kind.reading);
            r.Some? && Backed(r.value) && RefCount(r.value.entries) <= RefCount(st.entries) + ChunksOf(it)
  {
    hide WithChunks, FileEntries, Candidate, Backed, Resolve, C.Chunks;
    var e, es := BaseEntry(it.path, it.stat, FILE), FileEntries(cfg.blob, it.kind.reading.content);
    WithChunksCounts(st, e, es, links, cfg.start);
    WithChunksCounts(st, e, [], links, cfg.start);
    assert Tsc.AddedAll(st.chunks, []) == st.chunks;
  }

  lemma {:induction false} StepCounts(cfg: Config, st: State, it: Item)
    requires Backed(st) && Opens(it) && Unchanged(cfg, it) && Step(cfg, st, it).Some?
    ensures var next := Step(cfg, st, it).value;
            Backed(next) && RefCount(next.entries) <= RefCount(st.entries) + ChunksOf(it)
  {
    hide StepFile, Unchanged, C.Chunks;
    var r := Step(cfg, st, it);
    if it.Found? && it.kind.Regular? && !(it.kind.nlink > 1 && it.kind.inode in st.links) {
      var k := it.kind;
      FileCounts(cfg, st, it, if k.nlink > 1 then st.links[k.inode := st.count] else st.links);
    } else if r.value != st {
      var e := Last(cfg, st, it);
      CountSnoc(st.entries, e);
      StepLists(cfg, st, it);
    }
  }

  lemma {:induction false} WalkCounts(cfg: Config, st: State, items: seq<Item>)
    requires Backed(st) && Walk(cfg, st, items).Some?
    requires forall i :: 0 <= i < |items| ==> Opens(items[i]) && Unchanged(cfg, items[i])
    ensures var next := Walk(cfg, st, items).value;
            Backed(next) && RefCount(next.entries) <= RefCount(st.entries) + Budget(items)
    decreases |items|
  {
    hide Backed, Opens, Unchanged, Step, ChunksOf, RefCount;
    if items != [] {
      StepCounts(cfg, st, items[0]);
      assert forall i :: 0 <= i < |items| - 1 ==> items[1..][i] == items[i + 1];
      WalkCounts(cfg, Step(cfg, st, items[0]).value, items[1..]);
    }
  }

  lemma {:induction false} OneOfMany(es: seq<Entry>, i: nat)
    requires i < |es|
    ensures |es[i].chunkRefs| <= RefCount(es)
  {
    if i < |es| - 1 {
      OneOfMany(es[..|es| - 1], i);
      assert es[..|es| - 1][i] == es[i];
    }
  }

  lemma {:induction false} CountCons(es: seq<Entry>)
    requires es != []
    ensures RefCount(es) == |es[0].chunkRefs| + RefCount(es[1..])
  {
    if |es| > 1 {
      var n := |es| - 1;
      CountCons(es[..n]);
      assert es[..n][1..] == es[1..][..n - 1];
    } else {
      assert es[..0] == [] && es[1..] == [];
    }
  }

  lemma {:induction false} TableLength(es: seq<Entry>, indexMap: seq<u32>)
    ensures |TsmWriter.Table(es, indexMap)| <= RefCount(es)
  {
    hide TsmWriter.Remapped, RefCount;
    if es != [] {
      TableLength(es[1..], indexMap);
      CountCons(es);
    }
  }

  // ------------------------------------------------------------------ it all fits

  lemma {:induction false} RecordFits(start: int, e: Entry, it: Item)
    requires Records(start, e, it) && Fits(it)
    ensures Encodable(e) && (e.typ != FILE ==> e.chunkRefs == [] && e.chunkCount == 0)
  {
    hide BE;
  }

  lemma {:induction false} EntryFits(cfg: Config, s: set<Bytes>, st: State, tree: Tree, it: Item, i: nat)
    requires Truthful(cfg, s, st, tree) && Backed(st) && RefCount(st.entries) < U32
    requires i < |st.entries| && Records(cfg.start, st.entries[i], it) && Fits(it)
    ensures WritableEntry(st, st.entries[i])
  {
    hide FileEntries, RacyAdjusted, Made, Encodable, Records, Fits, Tsc.Find, DistinctKeys;
    var e := st.entries[i];
    RecordFits(cfg.start, e, it);
    OneOfMany(st.entries, i);
    assert EntryTrue(cfg, st.chunks, e, tree);
    if e.typ == FILE {
      var es := FileEntries(cfg.blob, tree[e.path].content);
      forall k | 0 <= k < |e.chunkRefs| ensures e.chunkRefs[k] < |st.chunks| { assert Tsc.Has(st.chunks, es[k].sha); }
    }
  }

  /** Whether a walk of the tree can be written without loss shows on the items: each
      entry fits its length field and all chunks together fit a uint32. */
  lemma {:induction false} WalkFits(cfg: Config, s: set<Bytes>, tree: Tree, items: seq<Item>)
    requires WalksTree(tree, items) && Covers(s, tree) && Walk(cfg, INITIAL, items).Some?
    requires forall i :: 0 <= i < |items| ==> Unchanged(cfg, items[i]) && Fits(items[i])
    requires Budget(items) < U32
    ensures Writable(Walk(cfg, INITIAL, items).value)
  {
    hide Walk, Truthful, Covers, Unchanged, Fits, Describes, Opens, Complete, Strict, SortBy, IndexMap, Records,
         MustList, RefCount, Budget, WritableEntry, TsmWriter.Table, DistinctKeys;
    var st := Walk(cfg, INITIAL, items).value;
    assert Truthful(cfg, s, INITIAL, tree) && Backed(INITIAL) by { NothingYet(cfg, s, tree); }
    WalkTrue(cfg, s, INITIAL, tree, items);
    WalkCounts(cfg, INITIAL, items);
    var from := WalkLists(cfg, INITIAL, items);
    assert st.entries[0..] == st.entries;
    ListedOrdered(cfg.start, st.entries, items, from);
    FewEntries(items, from);
    TruthfulDistinct(cfg, s, st, tree);
    TableLength(st.entries, IndexMap(st.chunks));
    assert RefCount(INITIAL.entries) == 0 by { NothingYet(cfg, s, tree); }
    forall i | 0 <= i < |st.entries| ensures WritableEntry(st, st.entries[i]) {
      EntryFits(cfg, s, st, tree, items[from[i]], i);
    }
  }

  lemma {:induction false} NothingYet(cfg: Config, s: set<Bytes>, tree: Tree)
    ensures Truthful(cfg, s, INITIAL, tree) && Backed(INITIAL) && RefCount(INITIAL.entries) == 0
  {
  }

  lemma {:induction false} FewEntries(items: seq<Item>, from: seq<nat>)
    requires Increasing(from) && forall j :: 0 <= j < |from| ==> from[j] < |items|
    ensures |from| <= |items|
  {
    if from != [] {
      var n := |from| - 1;
      LowerBound(from, n);
    }
  }

  lemma {:induction false} LowerBound(from: seq<nat>, n: nat)
    requires Increasing(from) && n < |from|
    ensures from[n] >= n
  {
    if n > 0 { LowerBound(from, n - 1); }
  }
}
