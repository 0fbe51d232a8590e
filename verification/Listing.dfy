/** Which entries a walk leaves (tsm/indexer.go:110-196, 219-341): the items it was
    given, in order and each once, less those that may be passed over. */
module Listing {
  import opened Bytes
  import opened Sorting
  import opened TsmEntry
  import opened Indexer
  import opened Snapshot
  import Tsc
  import TsmFormat

  /** What lstat reports, field by field; the root has no times. */
  ghost predicate Metadata(e: Entry, path: Bytes, stat: Stat) {
    && e.path == path && e.flags == 0 && e.mode == stat.mode && e.uid == stat.uid && e.gid == stat.gid
    && e.mtime == (if path == [] then 0 else stat.mtime) && e.atime == (if path == [] then 0 else stat.atime)
    && e.chunkStart == 0
  }

  ghost predicate NoChunksIn(e: Entry) { e.chunkRefs == [] && e.chunkCount == 0 }

  ghost predicate NoDevice(e: Entry) { e.devMajor == 0 && e.devMinor == 0 }

  /** e is the entry that a walk begun at start makes of it, up to its chunks and the
      index of a hard link. Types: file 0, directory 1, symbolic link 2, hard link 3,
      block device 4, character device 5, fifo 6. */
  ghost predicate Records(start: int, e: Entry, it: Item) {
    it.Found? && Metadata(e, it.path, it.stat) &&
    var ctime := if it.path == [] then 0 else it.stat.ctime;
    match it.kind
    case Dir =>
      e.typ == 1 && e.size == it.stat.size && e.ctime == ctime && e.linkTarget == [] && e.linkIndex == 0
      && NoChunksIn(e) && NoDevice(e)
    case Fifo =>
      e.typ == 6 && e.size == it.stat.size && e.ctime == ctime && e.linkTarget == [] && e.linkIndex == 0
      && NoChunksIn(e) && NoDevice(e)
    case Symlink(t) =>
      e.typ == 2 && t.Some? && e.linkTarget == t.value && e.size == |t.value| % U64 && e.ctime == ctime
      && e.linkIndex == 0 && NoChunksIn(e) && NoDevice(e)
    case Device(isChar, major, minor) =>
      e.typ == (if isChar then 5 else 4) && e.devMajor == major && e.devMinor == minor && e.size == it.stat.size
      && e.ctime == ctime && e.linkTarget == [] && e.linkIndex == 0 && NoChunksIn(e)
    case Regular(nlink, _, _) =>
      e.size == it.stat.size && e.linkTarget == [] && NoDevice(e)
      && ((e.typ == 0 && e.linkIndex == 0 && e.ctime == RacyAdjusted(ctime, start))
          || (e.typ == 3 && nlink > 1 && e.ctime == ctime && NoChunksIn(e)))
    case Other => false
  }

  /** What no walk may pass over. */
  ghost predicate MustList(it: Item) {
    it.Found? &&
    match it.kind
    case Regular(_, _, reading) => reading.Readable? || it.stat.size == 0
    case Symlink(t) => t.Some?
    case Other => false
    case _ => true
  }

  lemma {:induction false} FileLists(cfg: Config, st: State, it: Item, links: map<u64, u32>)
    requires it.Found? && it.kind.Regular?
    requires StepFile(cfg, st, BaseEntry(it.path, it.stat, FILE), links, it.kind.reading).Some?
    ensures var es := StepFile(cfg, st, BaseEntry(it.path, it.stat, FILE), links, it.kind.reading).value.entries;
            || (es == st.entries && !MustList(it))
            || (|es| == |st.entries| + 1 && es[..|st.entries|] == st.entries
                && Records(cfg.start, es[|st.entries|], it))
  {
    hide Reuse, FileEntries, RacyAdjusted, Tsc.AddedAll, RefsIn, Wrap32;
  }

  lemma {:induction false} StepLists(cfg: Config, st: State, it: Item)
    requires Step(cfg, st, it).Some?
    ensures var es := Step(cfg, st, it).value.entries;
            || (es == st.entries && !MustList(it))
            || (|es| == |st.entries| + 1 && es[..|st.entries|] == st.entries
                && Records(cfg.start, es[|st.entries|], it))
  {
    hide StepFile, Wrap32;
    if it.Found? && it.kind.Regular? && !(it.kind.nlink > 1 && it.kind.inode in st.links) {
      FileLists(cfg, st, it, if it.kind.nlink > 1 then st.links[it.kind.inode := st.count] else st.links);
    }
  }

  ghost predicate Increasing(from: seq<nat>) {
    forall a, b :: 0 <= a < b < |from| ==> from[a] < from[b]
  }

  /** Entry j of es is the entry of item from[j], items taken in order. */
  ghost predicate ListedFrom(start: int, es: seq<Entry>, items: seq<Item>, from: seq<nat>) {
    && |from| == |es| && Increasing(from)
    && (forall j :: 0 <= j < |from| ==> from[j] < |items| && Records(start, es[j], items[from[j]]))
    && (forall i :: 0 <= i < |items| && MustList(items[i]) ==> i in from)
  }

  /** Exactly what a walk lists. */
  lemma {:induction false} WalkLists(cfg: Config, st: State, items: seq<Item>) returns (from: seq<nat>)
    requires Walk(cfg, st, items).Some?
    ensures st.entries <= Walk(cfg, st, items).value.entries
    ensures ListedFrom(cfg.start, Walk(cfg, st, items).value.entries[|st.entries|..], items, from)
    decreases |items|
  {
    hide Step, Records, MustList;
    if items == [] {
      from := [];
    } else {
      StepLists(cfg, st, items[0]);
      var next := Step(cfg, st, items[0]).value;
      var tail := WalkLists(cfg, next, items[1..]);
      var es := Walk(cfg, st, items).value.entries;
      from := Prefixed(next.entries != st.entries, tail);
      ListedCons(cfg.start, es[|st.entries|..], es[|next.entries|..], items, tail, next.entries != st.entries);
    }
  }

  function Shifted(tail: seq<nat>): (s: seq<nat>)
    ensures |s| == |tail| && forall j :: 0 <= j < |s| ==> s[j] == tail[j] + 1
  {
    seq(|tail|, i requires 0 <= i < |tail| => tail[i] + 1)
  }

  function Prefixed(first: bool, tail: seq<nat>): seq<nat> {
    if first then [0] + Shifted(tail) else Shifted(tail)
  }

  lemma {:induction false} PrefixedAt(first: bool, tail: seq<nat>)
    ensures var k, from := (if first then 1 else 0), Prefixed(first, tail);
            && |from| == |tail| + k && (first ==> from[0] == 0)
            && (forall j :: 0 <= j < |tail| ==> from[j + k] == tail[j] + 1)
  {
    hide Shifted;
  }

  lemma {:induction false} PrefixedIncreasing(first: bool, tail: seq<nat>)
    requires Increasing(tail)
    ensures Increasing(Prefixed(first, tail))
  {
    hide Shifted;
    var s := Shifted(tail);
    forall a, b | 0 <= a < b < |s| ensures s[a] < s[b] { assert tail[a] < tail[b]; }
  }

  lemma {:induction false} PrefixedHits(items: seq<Item>, tail: seq<nat>, first: bool, i: nat)
    requires i < |items| && MustList(items[i]) && (first || !MustList(items[0]))
    requires forall m :: 0 <= m < |items[1..]| && MustList(items[1..][m]) ==> m in tail
    ensures i in Prefixed(first, tail)
  {
    hide MustList, Prefixed;
    PrefixedAt(first, tail);
    if i == 0 {
      assert Prefixed(first, tail)[0] == 0;
    } else {
      assert items[1..][i - 1] == items[i];
      var j :| 0 <= j < |tail| && tail[j] == i - 1;
      assert Prefixed(first, tail)[j + if first then 1 else 0] == i;
    }
  }

  lemma {:induction false} ListedCons(start: int, es: seq<Entry>, rest: seq<Entry>, items: seq<Item>,
                                      tail: seq<nat>, first: bool)
    requires items != [] && ListedFrom(start, rest, items[1..], tail)
    requires first ==> |es| == |rest| + 1 && es[1..] == rest && Records(start, es[0], items[0])
    requires !first ==> es == rest && !MustList(items[0])
    ensures ListedFrom(start, es, items, Prefixed(first, tail))
  {
    hide Records, MustList, Prefixed, Increasing;
    PrefixedAt(first, tail);
    PrefixedIncreasing(first, tail);
    var from, k := Prefixed(first, tail), if first then 1 else 0;
    forall j | 0 <= j < |from| ensures from[j] < |items| && Records(start, es[j], items[from[j]]) {
      if j >= k {
        assert from[j - k + k] == tail[j - k] + 1 && es[j] == rest[j - k];
        assert items[1..][tail[j - k]] == items[from[j]];
      }
    }
    forall i | 0 <= i < |items| && MustList(items[i]) ensures i in from { PrefixedHits(items, tail, first, i); }
  }

  // --------------------------------------------------------------- in path order

  /** The walk's paths are sorted before anything is processed, so an item that has
      been found has a greater path than those before it. */
  ghost predicate PathsOrdered(items: seq<Item>) {
    forall i, j :: 0 <= i < j < |items| && items[i].Found? && items[j].Found? ==> Less(items[i].path, items[j].path)
  }

  lemma {:induction false} ListedOrdered(start: int, es: seq<Entry>, items: seq<Item>, from: seq<nat>)
    requires ListedFrom(start, es, items, from) && PathsOrdered(items)
    ensures Strict(PathOf, es) && SortBy(PathOf, es) == es && DistinctKeys(PathOf, es)
  {
    forall i, j | 0 <= i < j < |es| ensures Less(PathOf(es[i]), PathOf(es[j])) && es[i].path != es[j].path {
      assert Records(start, es[i], items[from[i]]) && Records(start, es[j], items[from[j]]);
      LessTotal(es[i].path, es[j].path);
    }
    SortIs(PathOf, es, es);
  }

  // ------------------------------------------------------- through the manifest

  /** The entry read back from the manifest is the item's, but for its place in the table. */
  ghost predicate RecordsOnDisk(start: int, r: Entry, it: Item) { Records(start, r.(chunkStart := 0), it) }

  /** Whatever must be listed is found in the parsed manifest under its path, with
      its metadata. */
  lemma {:induction false} ManifestLists(cfg: Config, items: seq<Item>, tsm: TsmFormat.Reader, es: seq<Tsc.Entry>,
                                         i: nat)
    requires Walk(cfg, INITIAL, items).Some? && PathsOrdered(items)
    requires var st := Walk(cfg, INITIAL, items).value;
             |tsm.entries| == |st.entries| &&
             forall j :: 0 <= j < |tsm.entries| ==> ReadBack(st, SortedEntries(st)[j], tsm.entries[j], es)
    requires i < |items| && MustList(items[i])
    ensures var e := LookupPath(tsm, items[i].path);
            e.Some? && RecordsOnDisk(cfg.start, e.value, items[i])
  {
    hide Walk, Records, MustList, SortBy, Lookup, Strip;
    var st := Walk(cfg, INITIAL, items).value;
    var from := WalkLists(cfg, INITIAL, items);
    assert st.entries[0..] == st.entries;
    ListedOrdered(cfg.start, st.entries, items, from);
    var j :| 0 <= j < |from| && from[j] == i;
    forall k | 0 <= k < |tsm.entries| ensures tsm.entries[k].path == st.entries[k].path { KeepsPath(st, k, tsm, es); }
    SamePaths(st.entries, tsm.entries);
    LookupStrict(PathOf, tsm.entries, j);
    KeepsPath(st, j, tsm, es);
    assert Records(cfg.start, st.entries[j], items[i]);
    KeepsPath(st, j, tsm, es);
    KeptRecords(cfg.start, st.entries[j], tsm.entries[j], items[i]);
  }

  lemma {:induction false} KeptRecords(start: int, e: Entry, r: Entry, it: Item)
    requires Records(start, e, it) && r == Strip(e).(chunkStart := r.chunkStart, chunkRefs := r.chunkRefs)
    requires |r.chunkRefs| == |e.chunkRefs|
    ensures it.Found? && e.path == it.path && RecordsOnDisk(start, r, it)
  {
  }

  lemma {:induction false} KeepsPath(st: State, k: nat, tsm: TsmFormat.Reader, es: seq<Tsc.Entry>)
    requires k < |tsm.entries| == |st.entries| && SortedEntries(st) == st.entries
    requires ReadBack(st, SortedEntries(st)[k], tsm.entries[k], es)
    ensures var r := tsm.entries[k];
            && r.path == st.entries[k].path
            && r == Strip(st.entries[k]).(chunkStart := r.chunkStart, chunkRefs := r.chunkRefs)
            && |r.chunkRefs| == |st.entries[k].chunkRefs|
  {
  }

  lemma {:induction false} SamePaths(a: seq<Entry>, b: seq<Entry>)
    requires Strict(PathOf, a) && |a| == |b| && forall i :: 0 <= i < |a| ==> a[i].path == b[i].path
    ensures Strict(PathOf, b)
  {
    forall i, j | 0 <= i < j < |b| ensures Less(PathOf(b[i]), PathOf(b[j])) {
      assert Less(PathOf(a[i]), PathOf(a[j]));
    }
  }
}
