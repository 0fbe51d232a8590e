/** The local chunk index (tsm/chunkindex.go:57-449): a Bloom filter, a negative
    cache, most-recently-used order and two bounded caches around a plain scan. */
module ChunkIndex {
  import opened Bytes
  import opened Sorting
  import opened Indexer
  import opened Locate
  import Meaning
  import Snapshot
  import Bloom
  import Tsc
  import TscFormat

  /** snapIdx: a snapshot and what is loaded of it. A *snapIdx is reachable only
      through the list, so an update in place is an update of its list element. */
  datatype Lazy = Lazy(disk: Disk, tsc: Option<Bytes>, tscLoaded: bool, locs: Option<Locs>, locBuilt: bool)

  function Unloaded(d: Disk): Lazy { Lazy(d, None, false, None, false) }

  /** Whatever is held is what a fresh load would give, and a load that failed once
      would fail again. */
  ghost predicate Fresh(l: Lazy) {
    && (l.tscLoaded ==> l.tsc == ReadContent(l.disk.tscFile))
    && (!l.tscLoaded ==> l.tsc == None)
    && (l.locBuilt ==> l.locs == FreshLocs(l.disk))
    && (!l.locBuilt ==> l.locs == None)
  }

  function Disks(snaps: seq<Lazy>): (ds: seq<Disk>)
    ensures |ds| == |snaps| && forall i :: 0 <= i < |ds| ==> ds[i] == snaps[i].disk
  {
    Map((l: Lazy) => l.disk, snaps)
  }

  // ------------------------------------------------------------------- eviction

  /** The two caches differ only in what they hold. */
  datatype Which = Views | Maps

  predicate Held(l: Lazy, w: Which) {
    match w
    case Views => l.tscLoaded && l.tsc.Some?
    case Maps => l.locBuilt && l.locs.Some?
  }

  function Drop(l: Lazy, w: Which): Lazy {
    match w
    case Views => l.(tsc := None, tscLoaded := false)
    case Maps => l.(locs := None, locBuilt := false)
  }

  function HeldCount(snaps: seq<Lazy>, w: Which): (n: nat)
    ensures n <= |snaps|
  {
    if snaps == [] then 0
    else HeldCount(snaps[..|snaps| - 1], w) + (if Held(snaps[|snaps| - 1], w) then 1 else 0)
  }

  /** The last held snapshot below hi other than keep. */
  function Victim(snaps: seq<Lazy>, keep: nat, w: Which, hi: nat): (j: Option<nat>)
    requires hi <= |snaps|
    ensures j.Some? ==> j.value < hi && j.value != keep && Held(snaps[j.value], w)
    ensures forall i :: 0 <= i < hi && i != keep && Held(snaps[i], w) ==> j.Some? && i <= j.value
  {
    if hi == 0 then None
    else if hi - 1 != keep && Held(snaps[hi - 1], w) then Some(hi - 1)
    else Victim(snaps, keep, w, hi - 1)
  }

  lemma {:induction false} CountDrop(snaps: seq<Lazy>, w: Which, j: nat, v: Which)
    requires j < |snaps| && Held(snaps[j], w)
    ensures HeldCount(snaps[j := Drop(snaps[j], w)], v) == HeldCount(snaps, v) - (if v == w then 1 else 0)
  {
    var n := |snaps| - 1;
    var t := snaps[j := Drop(snaps[j], w)];
    if j == n {
      assert t[..n] == snaps[..n];
    } else {
      assert t[..n] == snaps[..n][j := Drop(snaps[j], w)];
      CountDrop(snaps[..n], w, j, v);
    }
  }

  lemma {:induction false} CountNone(snaps: seq<Lazy>, keep: nat, w: Which)
    requires forall i :: 0 <= i < |snaps| && i != keep ==> !Held(snaps[i], w)
    ensures HeldCount(snaps, w) <= if keep < |snaps| then 1 else 0
  {
    if snaps != [] { CountNone(snaps[..|snaps| - 1], keep, w); }
  }

  /** Drops victims from the tail until at most max are held. */
  function Evict(snaps: seq<Lazy>, keep: nat, w: Which, max: nat): seq<Lazy>
    decreases HeldCount(snaps, w)
  {
    var v := Victim(snaps, keep, w, |snaps|);
    if HeldCount(snaps, w) <= max || v == None then snaps
    else
      CountDrop(snaps, w, v.value, w);
      Evict(snaps[v.value := Drop(snaps[v.value], w)], keep, w, max)
  }

  /** What eviction may do: nothing but drop, never what is kept, and the less
      recently used before the more recently used. */
  ghost predicate Evicted(before: seq<Lazy>, after: seq<Lazy>, keep: nat, w: Which) {
    && |after| == |before|
    && (keep < |before| ==> after[keep] == before[keep])
    && (forall i :: 0 <= i < |before| ==>
          after[i] == before[i] || (after[i] == Drop(before[i], w) && Held(before[i], w)))
    && (forall i, j :: 0 <= i < j < |before| && j != keep && after[i] != before[i] && Held(before[j], w) ==>
          after[j] != before[j])
  }

  lemma {:induction false} EvictStep(snaps: seq<Lazy>, next: seq<Lazy>, last: seq<Lazy>, keep: nat, w: Which)
    requires Victim(snaps, keep, w, |snaps|).Some?
    requires var v := Victim(snaps, keep, w, |snaps|).value; next == snaps[v := Drop(snaps[v], w)]
    requires Evicted(next, last, keep, w)
    ensures Evicted(snaps, last, keep, w)
  {
    var v := Victim(snaps, keep, w, |snaps|).value;
    assert !Held(next[v], w);
    assert last[v] == next[v] != snaps[v];
    forall i, j | 0 <= i < j < |snaps| && j != keep && last[i] != snaps[i] && Held(snaps[j], w)
      ensures last[j] != snaps[j]
    {
      if j != v && i != v { assert next[i] == snaps[i] && next[j] == snaps[j]; }
    }
  }

  lemma {:induction false} EvictIs(snaps: seq<Lazy>, keep: nat, w: Which, max: nat)
    requires max >= 1
    ensures var r := Evict(snaps, keep, w, max);
            && Evicted(snaps, r, keep, w) && HeldCount(r, w) <= max
            && forall v :: v != w ==> HeldCount(r, v) == HeldCount(snaps, v)
    decreases HeldCount(snaps, w)
  {
    var v := Victim(snaps, keep, w, |snaps|);
    if HeldCount(snaps, w) > max {
      if v == None {
        CountNone(snaps, keep, w);
      } else {
        var next := snaps[v.value := Drop(snaps[v.value], w)];
        forall u: Which { CountDrop(snaps, w, v.value, u); }
        EvictIs(next, keep, w, max);
        EvictStep(snaps, next, Evict(next, keep, w, max), keep, w);
      }
    }
  }

  lemma {:induction false} EvictedFresh(a: seq<Lazy>, b: seq<Lazy>, keep: nat, w: Which)
    requires Evicted(a, b, keep, w) && forall i :: 0 <= i < |a| ==> Fresh(a[i])
    ensures forall i :: 0 <= i < |b| ==> Fresh(b[i])
    ensures Disks(b) == Disks(a)
  {
    hide ReadContent, FreshLocs;
    forall i | 0 <= i < |a| ensures Fresh(b[i]) && b[i].disk == a[i].disk {
      assert b[i] == a[i] || b[i] == Drop(a[i], w);
    }
  }

  // ----------------------------------------------------- the order of the snapshots

  /** The first snapshot in which the chunk can be found, or |ds|. */
  function FirstHit(ds: seq<Disk>, sha: Sha): (i: nat)
    ensures i <= |ds|
    ensures i < |ds| ==> Find(ds[i], sha).Some?
    ensures forall j :: 0 <= j < i ==> Find(ds[j], sha) == None
  {
    hide Find;
    if ds == [] || Find(ds[0], sha).Some? then 0 else 1 + FirstHit(ds[1..], sha)
  }

  function ToFront<T>(s: seq<T>, i: nat): seq<T>
    requires i < |s|
  {
    [s[i]] + s[..i] + s[i + 1..]
  }

  /** The plain answer: the location in the first snapshot that has one. */
  function Scan(ds: seq<Disk>, sha: Sha): Option<Location> {
    var i := FirstHit(ds, sha);
    if i < |ds| then Find(ds[i], sha) else None
  }

  function Reordered(ds: seq<Disk>, sha: Sha): seq<Disk> {
    var i := FirstHit(ds, sha);
    if i < |ds| then ToFront(ds, i) else ds
  }

  // ----------------------------------------------------------- filter and cache agree

  ghost predicate Covers(bloom: Bloom.Filter, d: Disk)
    reads bloom, bloom.bits
    requires bloom.Valid()
  {
    ReadContent(d.tscFile).Some? ==>
      IsView(ReadContent(d.tscFile).value) &&
      forall i :: 0 <= i < |ViewEntries(ReadContent(d.tscFile).value)| ==>
        bloom.MayHold(ViewEntries(ReadContent(d.tscFile).value)[i].sha)
  }

  /** No false negatives: what the filter rejects is in no snapshot. */
  lemma {:induction false} RejectedIsNowhere(bloom: Bloom.Filter, d: Disk, sha: Sha)
    requires bloom.Valid() && Covers(bloom, d) && !bloom.MayHold(sha)
    ensures Find(d, sha) == None
  {
    hide ReadContent, FreshLocs, ViewEntry, IsView, ViewEntries;
  }

  lemma {:induction false} NowhereIsNoHit(ds: seq<Disk>, sha: Sha)
    requires forall i :: 0 <= i < |ds| ==> Find(ds[i], sha) == None
    ensures FirstHit(ds, sha) == |ds| && Scan(ds, sha) == None
  {
    hide Find;
  }

  // -------------------------------------------------------------------- opening

  /** readTSCChunkCount: the first pass looks at the header and the file size. */
  predicate CountReadable(file: Bytes) {
    |file| >= Tsc.HEADER_SIZE && file[..4] == Tsc.MAGIC && CountOk(Get64(file[8..16]), |file| - Tsc.FOOTER_SIZE)
  }

  const TMP: Bytes := [0x2e, 0x74, 0x6d, 0x70]

  /** Snapshots still being indexed carry this suffix. */
  predicate InProgress(id: Bytes) { |id| >= |TMP| && id[|id| - |TMP|..] == TMP }

  /** What the first pass keeps. */
  predicate Considered(d: Disk) { !InProgress(d.id) && d.tsmThere && d.dirThere && CountReadable(d.tscFile) }

  function Kept(s: seq<Disk>): seq<Disk> {
    if s == [] then [] else (if Considered(s[0]) then [s[0]] else []) + Kept(s[1..])
  }

  function Validated(sha256: Digest, s: seq<Disk>): seq<Disk> {
    if s == [] then []
    else (if ReadValidated(sha256, s[0].tscFile).Some? then [s[0]] else []) + Validated(sha256, s[1..])
  }

  /** The snapshots an index holds, given those with a chunk file in the directory. */
  function Opened(sha256: Digest, found: seq<Disk>): seq<Disk> {
    Validated(sha256, SortBy(IdOf, Kept(found)))
  }

  lemma {:induction false} KeptIff(s: seq<Disk>, d: Disk)
    ensures d in Kept(s) <==> d in s && Considered(d)
    ensures multiset(Kept(s)) <= multiset(s)
  {
    hide Considered;
    if s != [] {
      KeptIff(s[1..], d);
      assert s == [s[0]] + s[1..];
      assert multiset(s) == multiset{s[0]} + multiset(s[1..]);
    }
  }

  lemma {:induction false} ValidatedIff(sha256: Digest, s: seq<Disk>, d: Disk)
    ensures d in Validated(sha256, s) <==> d in s && ReadValidated(sha256, d.tscFile).Some?
  {
    hide ReadValidated;
    if s != [] {
      ValidatedIff(sha256, s[1..], d);
      assert s == [s[0]] + s[1..];
    }
  }

  lemma {:induction false} ValidatedStrict(sha256: Digest, s: seq<Disk>)
    requires Strict(IdOf, s)
    ensures Strict(IdOf, Validated(sha256, s))
  {
    hide ReadValidated;
    if s != [] {
      var v := Validated(sha256, s[1..]);
      assert Strict(IdOf, s[1..]);
      ValidatedStrict(sha256, s[1..]);
      forall i | 0 <= i < |v| ensures Less(IdOf(s[0]), IdOf(v[i])) {
        ValidatedIff(sha256, s[1..], v[i]);
        assert v[i] in s[1..];
        var j :| 0 <= j < |s[1..]| && s[1..][j] == v[i];
        assert Less(IdOf(s[0]), IdOf(s[j + 1]));
      }
    }
  }

  /** A snapshot is opened exactly if it is complete, its name is final and its chunk
      file validates. */
  lemma {:induction false} OpenedIff(sha256: Digest, found: seq<Disk>, d: Disk)
    ensures d in Opened(sha256, found) <==>
            d in found && d.tsmThere && d.dirThere && Valid(sha256, d.tscFile)
            && !(|d.id| >= 4 && d.id[|d.id| - 4..] == [0x2e, 0x74, 0x6d, 0x70])
  {
    hide ReadValidated, CountReadable, Valid;
    var kept := Kept(found);
    ReadValidatedIs(sha256, d.tscFile);
    ValidatedIff(sha256, SortBy(IdOf, kept), d);
    SortElements(IdOf, kept);
    assert d in SortBy(IdOf, kept) <==> d in multiset(SortBy(IdOf, kept));
    assert d in kept <==> d in multiset(kept);
    KeptIff(found, d);
    ValidIsReadable(sha256, d.tscFile);
  }

  lemma {:induction false} ValidIsReadable(sha256: Digest, file: Bytes)
    ensures ReadValidated(sha256, file).Some? ==> CountReadable(file)
  {
  }

  /** Names in a directory are distinct: what is opened is in their order, no snapshot
      twice. */
  lemma {:induction false} OpenedOrder(sha256: Digest, found: seq<Disk>)
    requires DistinctKeys(IdOf, found)
    ensures Strict(IdOf, Opened(sha256, found)) && NoRepeats(Opened(sha256, found))
  {
    hide Validated;
    KeptDistinct(found);
    SortStrict(IdOf, Kept(found));
    ValidatedStrict(sha256, SortBy(IdOf, Kept(found)));
    StrictNoRepeats(Opened(sha256, found));
  }

  lemma {:induction false} KeptDistinct(s: seq<Disk>)
    requires DistinctKeys(IdOf, s)
    ensures DistinctKeys(IdOf, Kept(s))
  {
    hide Considered;
    if s != [] {
      assert DistinctKeys(IdOf, s[1..]);
      KeptDistinct(s[1..]);
      var k := Kept(s[1..]);
      forall i | 0 <= i < |k| ensures IdOf(k[i]) != IdOf(s[0]) {
        KeptIff(s[1..], k[i]);
        var j :| 0 <= j < |s[1..]| && s[1..][j] == k[i];
        assert IdOf(s[0]) != IdOf(s[j + 1]);
      }
    }
  }

  lemma {:induction false} StrictNoRepeats(s: seq<Disk>)
    requires Strict(IdOf, s)
    ensures NoRepeats(s)
  {
    if s != [] {
      assert Strict(IdOf, s[1..]);
      StrictNoRepeats(s[1..]);
      assert s == [s[0]] + s[1..];
      assert multiset(s) == multiset{s[0]} + multiset(s[1..]);
      if s[0] in s[1..] {
        var j :| 0 <= j < |s[1..]| && s[1..][j] == s[0];
        assert Less(IdOf(s[0]), IdOf(s[j + 1]));
        LessTotal(IdOf(s[0]), IdOf(s[0]));
      }
      assert multiset(s[1..])[s[0]] == 0;
    }
  }

  lemma {:induction false} SortedKept(found: seq<Disk>, i: nat)
    requires i < |SortBy(IdOf, Kept(found))|
    ensures var d := SortBy(IdOf, Kept(found))[i]; d in found && Considered(d)
  {
    hide Considered;
    var ds := SortBy(IdOf, Kept(found));
    SortElements(IdOf, Kept(found));
    assert ds[i] in multiset(ds);
    assert ds[i] in Kept(found);
    KeptIff(found, ds[i]);
  }

  lemma {:induction false} CountAgrees(file: Bytes)
    requires ReadContent(file).Some?
    ensures |ReadContent(file).value| >= Tsc.HEADER_SIZE && Count(ReadContent(file).value) == Get64(file[8..16])
  {
    assert file[..|file| - Tsc.FOOTER_SIZE][8..16] == file[8..16];
  }

  lemma {:induction false} NothingHeld(snaps: seq<Lazy>)
    requires forall i :: 0 <= i < |snaps| ==> snaps[i] == Unloaded(snaps[i].disk)
    ensures HeldCount(snaps, Views) == 0 && HeldCount(snaps, Maps) == 0
  {
    if snaps != [] { NothingHeld(snaps[..|snaps| - 1]); }
  }

  /** streamTSCSHAs into the filter. */
  method FillBloom(bloom: Bloom.Filter, content: Bytes)
    requires bloom.Valid() && IsView(content) && (bloom.bitsLen == 0 ==> Count(content) == 0)
    modifies bloom.bits
    ensures forall i :: 0 <= i < |ViewEntries(content)| ==> bloom.MayHold(ViewEntries(content)[i].sha)
    ensures forall s: Sha :: old(bloom.MayHold(s)) ==> bloom.MayHold(s)
  {
    hide TscFormat.DecodeEntry, Get64;
    var es := ViewEntries(content);
    for i := 0 to Count(content)
      invariant forall j :: 0 <= j < i ==> bloom.MayHold(es[j].sha)
      invariant forall s: Sha :: old(bloom.MayHold(s)) ==> bloom.MayHold(s)
    {
      RawKey(content, i);
      bloom.Add(content[EntryAt(i)..EntryAt(i) + 32]);
    }
  }

  /** The header counts of the first pass add up to nothing. */
  ghost predicate NoChunks(found: seq<Disk>) {
    forall i :: 0 <= i < |found| && Considered(found[i]) ==> Get64(found[i].tscFile[8..16]) == 0
  }

  /** The two passes over the directory. */
  method OpenSnaps(bloom: Bloom.Filter, sha256: Digest, found: seq<Disk>) returns (good: seq<Disk>)
    requires bloom.Valid()
    requires bloom.bitsLen == 0 ==> NoChunks(found)
    modifies bloom.bits
    ensures good == Opened(sha256, found)
    ensures forall i :: 0 <= i < |good| ==> Covers(bloom, good[i])
  {
    hide ReadContent, ViewEntry, ViewEntries, Get64, SortBy;
    var ds := SortBy(IdOf, Kept(found));
    good := [];
    assert ds[0..] == ds;
    for i := 0 to |ds|
      invariant good + Validated(sha256, ds[i..]) == Opened(sha256, found)
      invariant forall j :: 0 <= j < |good| ==> Covers(bloom, good[j])
    {
      var d := ds[i];
      assert ds[i..][0] == d && ds[i..][1..] == ds[i + 1..];
      var content := ReadValidated(sha256, d.tscFile);
      if content.Some? {
        ReadIsView(d.tscFile);
        assert bloom.bitsLen == 0 ==> Count(content.value) == 0 by {
          CountAgrees(d.tscFile);
          SortedKept(found, i);
          var j: nat :| j < |found| && found[j] == d;
          assert Considered(found[j]);
        }
        FillBloom(bloom, content.value);
        Assoc(good, [d], Validated(sha256, ds[i + 1..]));
        good := good + [d];
      }
    }
  }

  class Index {
    var snaps: seq<Lazy>
    var absent: set<Sha>
    const bloom: Bloom.Filter
    const maxOpen: nat
    const maxLocMaps: nat
    const maxAbsent: nat

    ghost predicate Valid()
      reads this, bloom, bloom.bits
    {
      && bloom.Valid() && maxOpen >= 1 && maxLocMaps >= 1
      && (forall i :: 0 <= i < |snaps| ==> Fresh(snaps[i]) && Covers(bloom, snaps[i].disk))
      && HeldCount(snaps, Views) <= maxOpen && HeldCount(snaps, Maps) <= maxLocMaps
      && (forall s, i :: s in absent && 0 <= i < |snaps| ==> Find(snaps[i].disk, s) == None)
    }

    /** OpenChunkIndexWith over the snapshots found in a directory. The filter's size
        is foreign; it has bits as soon as there is any chunk to hold. */
    constructor (sha256: Digest, found: seq<Disk>, words: nat, k: nat, maxOpenTSC: int, maxMaps: int)
      requires words > 0 ==> k >= 1
      requires words == 0 ==> NoChunks(found)
      ensures Valid() && fresh(bloom) && fresh(bloom.bits)
      ensures Disks(snaps) == Opened(sha256, found)
      ensures maxOpenTSC > 0 ==> maxOpen == maxOpenTSC
      ensures maxMaps > 0 ==> maxLocMaps == maxMaps
      ensures absent == {}
    {
      hide ReadContent, ViewEntry, ViewEntries, Get64, Opened, Covers, Considered, NoChunks;
      maxOpen := if maxOpenTSC <= 0 then 16 else maxOpenTSC;
      maxLocMaps := if maxMaps <= 0 then 8 else maxMaps;
      maxAbsent := 0x10_0000;
      absent, snaps := {}, [];
      bloom := new Bloom.Filter(words, k);
      new;
      var good := OpenSnaps(bloom, sha256, found);
      snaps := seq(|good|, i requires 0 <= i < |good| => Unloaded(good[i]));
      assert Disks(snaps) == good;
      NothingHeld(snaps);
    }

    /** evictLRUTSCLocked and evictLRULocMapLocked. */
    method EvictLRU(keep: nat, w: Which, max: nat)
      requires max >= 1
      modifies this`snaps
      ensures snaps == Evict(old(snaps), keep, w, max)
    {
      hide Held, Drop;
      var loaded := 0;
      for i := 0 to |snaps|
        invariant snaps == old(snaps) && loaded == HeldCount(snaps[..i], w)
      {
        TakeSnoc(snaps, i);
        assert snaps[..i + 1][..i] == snaps[..i];
        if Held(snaps[i], w) { loaded := loaded + 1; }
      }
      assert snaps[..|snaps|] == snaps;
      while loaded > max
        invariant loaded == HeldCount(snaps, w)
        invariant Evict(snaps, keep, w, max) == Evict(old(snaps), keep, w, max)
        decreases loaded
      {
        var victim := FindVictim(keep, w);
        if victim == None { break; }
        CountDrop(snaps, w, victim.value, w);
        snaps := snaps[victim.value := Drop(snaps[victim.value], w)];
        loaded := loaded - 1;
      }
    }

    method FindVictim(keep: nat, w: Which) returns (victim: Option<nat>)
      ensures victim == Victim(snaps, keep, w, |snaps|)
    {
      var j: nat := |snaps|;
      while j > 0
        invariant j <= |snaps| && Victim(snaps, keep, w, j) == Victim(snaps, keep, w, |snaps|)
      {
        j := j - 1;
        if j != keep && Held(snaps[j], w) { return Some(j); }
      }
      victim := None;
    }

    ghost predicate Sound()
      reads this
    {
      forall i :: 0 <= i < |snaps| ==> Fresh(snaps[i])
    }

    /** loadTSCLocked. */
    method LoadTSC(i: nat)
      requires i < |snaps| && Sound() && maxOpen >= 1 && !snaps[i].tscLoaded
      modifies this`snaps
      ensures Sound() && Disks(snaps) == old(Disks(snaps))
      ensures snaps[i].tscLoaded && snaps[i].locBuilt == old(snaps[i].locBuilt)
      ensures HeldCount(snaps, Views) <= maxOpen || HeldCount(snaps, Views) <= old(HeldCount(snaps, Views))
      ensures HeldCount(snaps, Maps) == old(HeldCount(snaps, Maps))
    {
      hide ReadContent, FreshLocs, HeldCount;
      var content := ReadContent(snaps[i].disk.tscFile);
      ghost var was := snaps;
      snaps := snaps[i := snaps[i].(tsc := content, tscLoaded := true)];
      CountLoad(was, snaps, i);
      assert Disks(snaps) == Disks(was);
      if content.Some? {
        EvictIs(snaps, i, Views, maxOpen);
        EvictedFresh(snaps, Evict(snaps, i, Views, maxOpen), i, Views);
        EvictLRU(i, Views, maxOpen);
      }
    }

    /** buildLocMapLocked, on a snapshot whose .tsc is loaded. */
    method BuildLocs(i: nat)
      requires i < |snaps| && Sound() && maxLocMaps >= 1
      requires snaps[i].tscLoaded && snaps[i].tsc.Some? && !snaps[i].locBuilt
      modifies this`snaps
      ensures Sound() && Disks(snaps) == old(Disks(snaps))
      ensures snaps[i].locBuilt && snaps[i].tsc == old(snaps[i].tsc)
      ensures HeldCount(snaps, Maps) <= maxLocMaps || HeldCount(snaps, Maps) <= old(HeldCount(snaps, Maps))
      ensures HeldCount(snaps, Views) == old(HeldCount(snaps, Views))
    {
      hide ReadContent, FreshLocs, HeldCount;
      var d := snaps[i].disk;
      ReadIsView(d.tscFile);
      var locs := BuildLocMap(d, snaps[i].tsc.value);
      ghost var was := snaps;
      snaps := snaps[i := snaps[i].(locs := locs, locBuilt := true)];
      CountBuild(was, snaps, i);
      assert Disks(snaps) == Disks(was);
      if locs.Some? {
        EvictIs(snaps, i, Maps, maxLocMaps);
        EvictedFresh(snaps, Evict(snaps, i, Maps, maxLocMaps), i, Maps);
        EvictLRU(i, Maps, maxLocMaps);
      }
    }

    /** The body of the search loop: what the snapshot at i has, whatever is cached. */
    method SearchSnap(i: nat, sha: Sha) returns (r: Option<Location>)
      requires Valid() && i < |snaps|
      modifies this`snaps
      ensures Valid() && Disks(snaps) == old(Disks(snaps))
      ensures r == Find(snaps[i].disk, sha)
    {
      hide ReadContent, FreshLocs, HeldCount, ViewEntries, Find, Covers;
      ghost var ds := Disks(snaps);
      if !snaps[i].tscLoaded {
        LoadTSC(i);
        StillValid(ds);
      }
      if snaps[i].tsc == None {
        FindWithout(snaps[i].disk, sha);
        return None;
      }
      ReadIsView(snaps[i].disk.tscFile);
      var size := LookupView(snaps[i].tsc.value, sha);
      FindWith(snaps[i].disk, sha);
      if size == None { return None; }
      if !snaps[i].locBuilt {
        BuildLocs(i);
        StillValid(ds);
      }
      var l := snaps[i];
      if l.locs == None || sha !in l.locs.value.m { return None; }
      var loc := l.locs.value.m[sha];
      LocInRange(l.disk, sha);
      r := Some(Location(sha, l.disk.id, l.locs.value.paths[loc.fileIdx], loc.offset, size.value));
    }

    /** The list changed but not what it is a list of. */
    lemma {:induction false} StillValid(ds: seq<Disk>)
      requires bloom.Valid() && maxOpen >= 1 && maxLocMaps >= 1 && Sound() && Disks(snaps) == ds
      requires HeldCount(snaps, Views) <= maxOpen && HeldCount(snaps, Maps) <= maxLocMaps
      requires forall i :: 0 <= i < |ds| ==> Covers(bloom, ds[i])
      requires forall s, i :: s in absent && 0 <= i < |ds| ==> Find(ds[i], s) == None
      ensures Valid()
    {
      hide Covers, Find, HeldCount, ReadContent, FreshLocs;
      forall i | 0 <= i < |snaps| ensures snaps[i].disk == ds[i] { }
    }

    /** moveToFrontLocked. */
    method MoveToFront(i: nat)
      requires i < |snaps|
      modifies this`snaps
      ensures snaps == ToFront(old(snaps), i)
    {
      if i == 0 { assert snaps == ToFront(snaps, 0); return; }
      snaps := [snaps[i]] + snaps[..i] + snaps[i + 1..];
    }

    /** The search loop: the first snapshot that has the chunk, moved to the front. */
    method ScanSnaps(sha: Sha) returns (r: Option<Location>)
      requires Valid()
      modifies this`snaps
      ensures Valid()
      ensures r == Scan(old(Disks(snaps)), sha)
      ensures Disks(snaps) == Reordered(old(Disks(snaps)), sha)
    {
      hide ReadContent, FreshLocs, HeldCount, ViewEntries, Find, Covers, FirstHit;
      ghost var ds := Disks(snaps);
      for i := 0 to |snaps|
        invariant Valid() && Disks(snaps) == ds
        invariant forall j :: 0 <= j < i ==> Find(ds[j], sha) == None
      {
        r := SearchSnap(i, sha);
        if r.Some? {
          HitIs(ds, sha, i);
          FrontIs(snaps, i);
          MoveToFront(i);
          StillValid(ToFront(ds, i));
          return;
        }
      }
      NowhereIsNoHit(ds, sha);
      r := None;
    }

    /** FindChunk: the answer is that of a plain scan in the present order, and a hit
        moves its snapshot to the front. Filter, negative cache and scan together find
        the chunk exactly if some snapshot has it. */
    method FindChunk(sha: Sha) returns (r: Option<Location>)
      requires Valid()
      modifies this
      ensures Valid()
      ensures r == Scan(old(Disks(snaps)), sha)
      ensures Disks(snaps) == Reordered(old(Disks(snaps)), sha)
      ensures (forall d :: d in old(Disks(snaps)) ==> SortedView(d)) ==>
                (r.Some? <==> exists d :: d in old(Disks(snaps)) && Present(d, sha))
                && (r.Some? ==> exists d :: d in old(Disks(snaps)) && PointsInto(d, r.value))
    {
      hide PointsInto, SortedView, Present, ReadContent, FreshLocs, HeldCount, ViewEntries, Find, Covers, FirstHit,
           Disks;
      ghost var ds := Disks(snaps);
      ScanIff(ds, sha);
      ScanPoints(ds, sha);
      var maybe := bloom.Test(sha);
      if !maybe {
        forall i | 0 <= i < |ds| ensures Find(ds[i], sha) == None { RejectedIsNowhere(bloom, ds[i], sha); }
        NowhereIsNoHit(ds, sha);
        return None;
      }
      if sha in absent {
        NowhereIsNoHit(ds, sha);
        return None;
      }
      r := ScanSnaps(sha);
      if r == None && |absent| < maxAbsent {
        NoneIsNowhere(ds, sha);
        absent := absent + {sha};
      }
    }
  }

  lemma {:induction false} NoneIsNowhere(ds: seq<Disk>, sha: Sha)
    requires Scan(ds, sha) == None
    ensures forall i :: 0 <= i < |ds| ==> Find(ds[i], sha) == None
    ensures Reordered(ds, sha) == ds
  {
    hide Find;
  }

  lemma {:induction false} FindWithout(d: Disk, sha: Sha)
    requires ReadContent(d.tscFile) == None
    ensures Find(d, sha) == None
  {
  }

  lemma {:induction false} FindWith(d: Disk, sha: Sha)
    requires ReadContent(d.tscFile).Some? && IsView(ReadContent(d.tscFile).value)
    ensures var size, l := SizeIn(ViewEntries(ReadContent(d.tscFile).value), sha), FreshLocs(d);
            if size == None || l == None || sha !in l.value.m then Find(d, sha) == None
            else
              && l.value.m[sha].fileIdx < |l.value.paths|
              && var loc := l.value.m[sha];
              Find(d, sha) == Some(Location(sha, d.id, l.value.paths[loc.fileIdx], loc.offset, size.value))
  {
    hide ReadContent, FreshLocs, ViewEntries;
    var l := FreshLocs(d);
    if l.Some? && sha in l.value.m { LocInRange(d, sha); }
  }

  lemma {:induction false} HitIs(ds: seq<Disk>, sha: Sha, i: nat)
    requires i < |ds| && Find(ds[i], sha).Some? && forall j :: 0 <= j < i ==> Find(ds[j], sha) == None
    ensures FirstHit(ds, sha) == i
  {
    hide Find;
  }

  lemma {:induction false} CountAppend(a: seq<Lazy>, b: seq<Lazy>, w: Which)
    ensures HeldCount(a + b, w) == HeldCount(a, w) + HeldCount(b, w)
  {
    if b == [] {
      assert a + b == a;
    } else {
      var n := |b| - 1;
      assert (a + b)[..|a + b| - 1] == a + b[..n];
      CountAppend(a, b[..n], w);
    }
  }

  /** Moving to the front keeps the counts and every element. */
  lemma {:induction false} FrontIs(s: seq<Lazy>, i: nat)
    requires i < |s|
    ensures Disks(ToFront(s, i)) == ToFront(Disks(s), i)
    ensures forall w :: HeldCount(ToFront(s, i), w) == HeldCount(s, w)
    ensures forall j :: 0 <= j < |s| ==> ToFront(s, i)[j] in s
  {
    hide Held;
    forall w: Which ensures HeldCount(ToFront(s, i), w) == HeldCount(s, w) {
      CountAppend([s[i]] + s[..i], s[i + 1..], w);
      CountAppend([s[i]], s[..i], w);
      CountAppend(s[..i], [s[i]], w);
      CountAppend(s[..i + 1], s[i + 1..], w);
      TakeSnoc(s, i);
      SplitAt(s, i + 1);
    }
  }

  /** Loading one snapshot touches neither the other cache nor, if it failed, this one. */
  lemma {:induction false} CountLoad(a: seq<Lazy>, b: seq<Lazy>, i: nat)
    requires i < |a| == |b| && b == a[i := b[i]]
    requires b[i] == a[i].(tsc := b[i].tsc, tscLoaded := true) && !a[i].tscLoaded
    ensures HeldCount(b, Maps) == HeldCount(a, Maps)
    ensures b[i].tsc == None ==> HeldCount(b, Views) == HeldCount(a, Views)
  {
    var n := |a| - 1;
    if i == n {
      assert b[..n] == a[..n];
    } else {
      assert b[..n] == a[..n][i := b[i]];
      CountLoad(a[..n], b[..n], i);
    }
  }

  lemma {:induction false} CountBuild(a: seq<Lazy>, b: seq<Lazy>, i: nat)
    requires i < |a| == |b| && b == a[i := b[i]]
    requires b[i] == a[i].(locs := b[i].locs, locBuilt := true) && !a[i].locBuilt
    ensures HeldCount(b, Views) == HeldCount(a, Views)
    ensures b[i].locs == None ==> HeldCount(b, Maps) == HeldCount(a, Maps)
  {
    var n := |a| - 1;
    if i == n {
      assert b[..n] == a[..n];
    } else {
      assert b[..n] == a[..n][i := b[i]];
      CountBuild(a[..n], b[..n], i);
    }
  }

  // -------------------------------------------------- whole sequences of lookups

  /** The order after some lookups. */
  function Order(ds: seq<Disk>, shas: seq<Sha>): seq<Disk> {
    if shas == [] then ds else Reordered(Order(ds, shas[..|shas| - 1]), shas[|shas| - 1])
  }

  /** The number of the last lookup that hit d, or 0. */
  function LastHit(ds: seq<Disk>, shas: seq<Sha>, d: Disk): nat {
    if shas == [] then 0
    else
      var before, sha := Order(ds, shas[..|shas| - 1]), shas[|shas| - 1];
      var i := FirstHit(before, sha);
      if i < |before| && before[i] == d then |shas| else LastHit(ds, shas[..|shas| - 1], d)
  }

  lemma {:induction false} FrontElements<T>(s: seq<T>, i: nat)
    requires i < |s|
    ensures |ToFront(s, i)| == |s| && multiset(ToFront(s, i)) == multiset(s)
  {
    SplitAt(s, i + 1);
    TakeSnoc(s, i);
    assert s == s[..i] + [s[i]] + s[i + 1..];
  }

  lemma {:induction false} OrderPermutes(ds: seq<Disk>, shas: seq<Sha>)
    ensures multiset(Order(ds, shas)) == multiset(ds)
  {
    hide FirstHit;
    if shas != [] {
      var before := Order(ds, shas[..|shas| - 1]);
      OrderPermutes(ds, shas[..|shas| - 1]);
      var i := FirstHit(before, shas[|shas| - 1]);
      if i < |before| { FrontElements(before, i); }
    }
  }

  ghost predicate StandsBefore(ds: seq<Disk>, x: Disk, y: Disk) {
    exists i, j :: 0 <= i < j < |ds| && ds[i] == x && ds[j] == y
  }

  /** x is ahead of y: hit later, or neither ever hit and ahead of it to begin with. */
  ghost predicate Ahead(ds: seq<Disk>, shas: seq<Sha>, x: Disk, y: Disk) {
    || LastHit(ds, shas, y) < LastHit(ds, shas, x)
    || (LastHit(ds, shas, x) == 0 && LastHit(ds, shas, y) == 0 && StandsBefore(ds, x, y))
  }

  /** Before anything happens and after every lookup, the list is in this order. */
  ghost predicate ByLastHit(ds: seq<Disk>, shas: seq<Sha>) {
    var o := Order(ds, shas);
    forall a, b :: 0 <= a < b < |o| ==> Ahead(ds, shas, o[a], o[b])
  }

  lemma {:induction false} LastHitBound(ds: seq<Disk>, shas: seq<Sha>, d: Disk)
    ensures LastHit(ds, shas, d) <= |shas|
  {
    if shas != [] { LastHitBound(ds, shas[..|shas| - 1], d); }
  }

  /** No snapshot is listed twice: their names are file names in one directory. */
  ghost predicate NoRepeats(ds: seq<Disk>) { forall d :: multiset(ds)[d] <= 1 }

  lemma {:induction false} Apart(s: seq<Disk>, a: nat, b: nat)
    requires NoRepeats(s) && a < b < |s|
    ensures s[a] != s[b]
  {
    assert s == s[..b] + s[b..];
    assert s[..b][a] == s[a] && s[b..][0] == s[b];
    assert s[a] in multiset(s[..b]) && s[b] in multiset(s[b..]);
    assert multiset(s) == multiset(s[..b]) + multiset(s[b..]);
    assert s[a] == s[b] ==> multiset(s)[s[a]] >= 2;
  }

  /** Most recently used first, after any lookups. */
  lemma {:induction false} OrderIsByLastHit(ds: seq<Disk>, shas: seq<Sha>)
    requires NoRepeats(ds)
    ensures ByLastHit(ds, shas)
  {
    hide FirstHit, Order, LastHit;
    if shas != [] {
      OrderIsByLastHit(ds, shas[..|shas| - 1]);
      var o := Order(ds, shas);
      forall a, b | 0 <= a < b < |o| ensures Ahead(ds, shas, o[a], o[b]) {
        PairByLastHit(ds, shas, a, b);
      }
    } else {
      NeverHit(ds);
      forall a, b | 0 <= a < b < |ds| ensures Ahead(ds, [], ds[a], ds[b]) { assert StandsBefore(ds, ds[a], ds[b]); }
    }
  }

  lemma {:induction false} NeverHit(ds: seq<Disk>)
    ensures forall d :: LastHit(ds, [], d) == 0
    ensures Order(ds, []) == ds
  {
  }

  lemma {:induction false} PairByLastHit(ds: seq<Disk>, shas: seq<Sha>, a: nat, b: nat)
    requires shas != [] && ByLastHit(ds, shas[..|shas| - 1]) && NoRepeats(ds) && a < b < |Order(ds, shas)|
    ensures Ahead(ds, shas, Order(ds, shas)[a], Order(ds, shas)[b])
  {
    hide FirstHit, Order, LastHit;
    var prev := shas[..|shas| - 1];
    var before, o := Order(ds, prev), Order(ds, shas);
    var i := FirstHit(before, shas[|shas| - 1]);
    LastStep(ds, shas, o[a]);
    LastStep(ds, shas, o[b]);
    if i < |before| {
      OrderPermutes(ds, prev);
      FrontElements(before, i);
      Apart(o, 0, b);
      FrontAt(before, i, a);
      FrontAt(before, i, b);
      LastHitBound(ds, prev, o[b]);
    }
  }

  /** One lookup: who moves, and whose last hit changes. */
  lemma {:induction false} LastStep(ds: seq<Disk>, shas: seq<Sha>, d: Disk)
    requires shas != []
    ensures var prev := shas[..|shas| - 1];
            var before := Order(ds, prev);
            var i := FirstHit(before, shas[|shas| - 1]);
            && Order(ds, shas) == (if i < |before| then ToFront(before, i) else before)
            && LastHit(ds, shas, d) == if i < |before| && before[i] == d then |shas| else LastHit(ds, prev, d)
  {
  }

  lemma {:induction false} FrontAt<T>(s: seq<T>, i: nat, a: nat)
    requires i < |s| && a < |s|
    ensures ToFront(s, i)[a] == if a == 0 then s[i] else if a <= i then s[a - 1] else s[a]
  {
  }

  /** A scan finds the chunk exactly if some snapshot has it. */
  lemma {:induction false} ScanIff(ds: seq<Disk>, sha: Sha)
    ensures (forall d :: d in ds ==> SortedView(d)) ==>
              (Scan(ds, sha).Some? <==> exists d :: d in ds && Present(d, sha))
  {
    hide Find, SortedView, Present;
    if forall d :: d in ds ==> SortedView(d) {
      forall d | d in ds ensures Find(d, sha).Some? <==> Present(d, sha) { FindIff(d, sha); }
      if Scan(ds, sha).Some? { assert ds[FirstHit(ds, sha)] in ds; }
    }
  }

  lemma {:induction false} ScanPoints(ds: seq<Disk>, sha: Sha)
    ensures (forall d :: d in ds ==> SortedView(d)) && Scan(ds, sha).Some? ==>
              exists d :: d in ds && PointsInto(d, Scan(ds, sha).value)
  {
    hide Find, SortedView, PointsInto;
    if (forall d :: d in ds ==> SortedView(d)) && Scan(ds, sha).Some? {
      var d := ds[FirstHit(ds, sha)];
      assert d in ds;
      FindPoints(d, sha);
    }
  }

  /** Presence does not depend on the order: a lookup finds the chunk iff some
      opened snapshot has it, after any lookups whatsoever. */
  lemma {:induction false} ScanIsOrderFree(ds: seq<Disk>, shas: seq<Sha>, sha: Sha)
    requires forall d :: d in ds ==> SortedView(d)
    ensures Scan(Order(ds, shas), sha).Some? <==> exists d :: d in ds && Present(d, sha)
  {
    hide SortedView, Present, Scan, Order;
    var o := Order(ds, shas);
    OrderPermutes(ds, shas);
    forall d ensures d in o <==> d in ds { assert (d in o <==> d in multiset(o)) && (d in ds <==> d in multiset(ds)); }
    ScanIff(o, sha);
  }

  /** Some tree is extracted beside the snapshot, and its files attest it. */
  ghost predicate IsIntact(blob: Digest, d: Disk, tree: Meaning.Tree) {
    exists start, tsc :: Intact(blob, start, d, tree, tsc)
  }

  // ------------------------------------------------------ an index of published snapshots

  /** How a snapshot came about. */
  datatype Origin = Origin(cfg: Config, st: State, tree: Meaning.Tree, creation: i64)

  /** The directory holds what indexing the whole tree published. */
  ghost predicate PublishedFrom(sha256: Digest, blob: Digest, s: set<Bytes>, d: Disk, o: Origin) {
    && o.cfg.blob == blob && Meaning.Truthful(o.cfg, s, o.st, o.tree) && Meaning.Covers(s, o.tree)
    && Meaning.Complete(o.st, o.tree) && Meaning.Coherent(o.tree) && Snapshot.Writable(o.st)
    && IsPublished(sha256, d, o.st, o.creation)
  }

  ghost predicate AllPublished(sha256: Digest, blob: Digest, s: set<Bytes>, found: seq<Disk>, os: seq<Origin>) {
    |os| == |found| && forall i :: 0 <= i < |found| ==> PublishedFrom(sha256, blob, s, found[i], os[i])
  }

  /** Some opened snapshot was taken of a tree that has the chunk in a listed file, and
      the file still exists. */
  ghost predicate HasChunk(sha256: Digest, blob: Digest, found: seq<Disk>, os: seq<Origin>, i: nat, q: Bytes, c: Bytes,
                           sha: Sha)
    requires |os| == |found|
  {
    && i < |found| && found[i] in Opened(sha256, found) && found[i].manifest.Some?
    && KeepsChunk(blob, found[i], os[i].tree, q, c, sha)
  }

  /** Over a directory of published snapshots, whichever of their files are gone, after
      any lookups, a chunk is found exactly if a listed file of an opened snapshot that
      still exists has it, whatever the filter and the caches hold; and what is found is
      that chunk. */
  lemma {:induction false} FindsExactly(sha256: Digest, blob: Digest, s: set<Bytes>, found: seq<Disk>, os: seq<Origin>,
                                        shas: seq<Sha>, sha: Sha)
    requires AllPublished(sha256, blob, s, found, os) && Meaning.CollisionFree(blob, s)
    ensures var r := Scan(Order(Opened(sha256, found), shas), sha);
            && (r.Some? <==> exists i: nat, q, c :: HasChunk(sha256, blob, found, os, i, q, c, sha))
            && (r.Some? ==> exists i :: 0 <= i < |found| && r.value.path in found[i].present
                                        && IsChunkIn(blob, os[i].tree, found[i].id, sha, r.value))
  {
    hide PublishedFrom, Meaning.CollisionFree, Opened, Scan, Order, SortedView, Present, KeepsChunk, IsChunkIn, Intact;
    var ds := Opened(sha256, found);
    forall d | d in ds ensures SortedView(d) && exists i :: 0 <= i < |found| && found[i] == d {
      var i := OriginOf(sha256, blob, s, found, os, d);
    }
    ScanIsOrderFree(ds, shas, sha);
    if d :| d in ds && Present(d, sha) {
      var i := OriginOf(sha256, blob, s, found, os, d);
      ChunkOfOrigin(sha256, blob, s, found[i], os[i], sha);
      var q, c :| KeepsChunk(blob, found[i], os[i].tree, q, c, sha);
      assert HasChunk(sha256, blob, found, os, i, q, c, sha);
    }
    if i: nat, q, c :| HasChunk(sha256, blob, found, os, i, q, c, sha) {
      ChunkOfOrigin(sha256, blob, s, found[i], os[i], sha);
    }
    if Scan(Order(ds, shas), sha).Some? { var i := FoundInOrigin(sha256, blob, s, found, os, shas, sha); }
  }

  lemma {:induction false} OriginOf(sha256: Digest, blob: Digest, s: set<Bytes>, found: seq<Disk>, os: seq<Origin>,
                                    d: Disk)
    returns (i: nat)
    requires AllPublished(sha256, blob, s, found, os) && Meaning.CollisionFree(blob, s) && d in Opened(sha256, found)
    ensures i < |found| == |os| && found[i] == d && SortedView(d) && IsIntact(blob, d, os[i].tree)
  {
    hide Opened, Meaning.CollisionFree, SortedView, Intact, IsPublished, Meaning.Truthful, Meaning.Covers,
         Meaning.Complete, Meaning.Coherent, ReadValidated;
    OpenedIff(sha256, found, d);
    i :| 0 <= i < |found| && found[i] == d;
    var o := os[i];
    assert PublishedFrom(sha256, blob, s, d, o);
    var tsc := PublishedIsIntact(sha256, o.cfg, s, d, o.st, o.tree, o.creation);
  }

  lemma {:induction false} IntactReads(blob: Digest, start: int, d: Disk, tree: Meaning.Tree, tsc: TscFormat.Reader)
    requires Intact(blob, start, d, tree, tsc)
    ensures d.manifest.Some?
  {
  }

  lemma {:induction false} ChunkOfOrigin(sha256: Digest, blob: Digest, s: set<Bytes>, d: Disk, o: Origin, sha: Sha)
    requires PublishedFrom(sha256, blob, s, d, o) && Meaning.CollisionFree(blob, s)
    ensures d.manifest.Some?
    ensures Present(d, sha) <==> exists q, c :: KeepsChunk(blob, d, o.tree, q, c, sha)
  {
    hide Meaning.CollisionFree, SortedView, Intact, IsPublished, Meaning.Truthful, Meaning.Covers, Meaning.Complete,
         Meaning.Coherent, ReadValidated, Present, KeepsChunk;
    var tsc := PublishedIsIntact(sha256, o.cfg, s, d, o.st, o.tree, o.creation);
    IntactReads(blob, o.cfg.start, d, o.tree, tsc);
    PresentIffChunk(blob, o.cfg.start, d, o.tree, tsc, sha);
  }

  lemma {:induction false} FoundInOrigin(sha256: Digest, blob: Digest, s: set<Bytes>, found: seq<Disk>, os: seq<Origin>,
                                         shas: seq<Sha>, sha: Sha) returns (i: nat)
    requires AllPublished(sha256, blob, s, found, os) && Meaning.CollisionFree(blob, s)
    requires Scan(Order(Opened(sha256, found), shas), sha).Some?
    ensures i < |found| == |os| && Scan(Order(Opened(sha256, found), shas), sha).value.path in found[i].present
    ensures IsChunkIn(blob, os[i].tree, found[i].id, sha, Scan(Order(Opened(sha256, found), shas), sha).value)
  {
    hide AllPublished, Meaning.CollisionFree, Opened, Find, Order, IsChunkIn, Intact;
    var ds := Opened(sha256, found);
    var o := Order(ds, shas);
    OrderPermutes(ds, shas);
    var d := o[FirstHit(o, sha)];
    assert d in multiset(o);
    assert d in ds;
    i := OriginOf(sha256, blob, s, found, os, d);
    var start, tsc :| Intact(blob, start, d, os[i].tree, tsc);
    FindPoints(d, sha);
    LocationIsChunk(blob, start, d, os[i].tree, tsc, sha);
  }

  /** A run of lookups on an index: every answer is a scan of the opened snapshots. */
  method FindAll(ci: Index, shas: seq<Sha>) returns (found: seq<Option<Location>>)
    requires ci.Valid()
    modifies ci
    ensures ci.Valid() && |found| == |shas|
    ensures Disks(ci.snaps) == Order(old(Disks(ci.snaps)), shas)
    ensures forall i :: 0 <= i < |shas| ==> found[i] == Scan(Order(old(Disks(ci.snaps)), shas[..i]), shas[i])
    ensures (forall d :: d in old(Disks(ci.snaps)) ==> SortedView(d)) ==>
              forall i :: 0 <= i < |shas| ==>
                (found[i].Some? <==> exists d :: d in old(Disks(ci.snaps)) && Present(d, shas[i]))
  {
    hide Scan, Reordered, SortedView, Present;
    found := [];
    for i := 0 to |shas|
      invariant ci.Valid() && |found| == i
      invariant Disks(ci.snaps) == Order(old(Disks(ci.snaps)), shas[..i])
      invariant forall j :: 0 <= j < i ==> found[j] == Scan(Order(old(Disks(ci.snaps)), shas[..j]), shas[j])
    {
      assert shas[..i + 1][..i] == shas[..i];
      var r := ci.FindChunk(shas[i]);
      found := found + [r];
    }
    assert shas[..|shas|] == shas;
    if forall d :: d in old(Disks(ci.snaps)) ==> SortedView(d) {
      forall i | 0 <= i < |shas|
        ensures found[i].Some? <==> exists d :: d in old(Disks(ci.snaps)) && Present(d, shas[i])
      {
        ScanIsOrderFree(old(Disks(ci.snaps)), shas[..i], shas[i]);
      }
    }
  }
}
