/** The chunk index file: TSCWriter, its sort and the .tsc format (tsm/tsc.go). */
module Tsc {
  import opened Bytes
  import opened Sorting

  datatype Entry = Entry(sha: Sha, size: u32, level: u16, flags: u16)

  const HEADER_SIZE := 64
  const FOOTER_SIZE := 32
  const ENTRY_SIZE := 40
  const MAGIC: Bytes := [0x54, 0x53, 0x43, 3]

  function KeyOf(e: Entry): Bytes { e.sha }

  // ------------------------------------------------------------ deduplication

  /** The position of a digest, or |chunks| when it is not there. */
  function Find(chunks: seq<Entry>, sha: Sha): (i: nat)
    ensures i <= |chunks|
    ensures i < |chunks| ==> chunks[i].sha == sha
    ensures forall j :: 0 <= j < i ==> chunks[j].sha != sha
  {
    if chunks == [] || chunks[0].sha == sha then 0
    else 1 + Find(chunks[1..], sha)
  }

  predicate Has(chunks: seq<Entry>, sha: Sha) { Find(chunks, sha) < |chunks| }

  /** AddChunk on the list: only the digest decides. */
  function Added(chunks: seq<Entry>, e: Entry): seq<Entry> {
    if Has(chunks, e.sha) then chunks else chunks + [e]
  }

  function AddedAll(chunks: seq<Entry>, es: seq<Entry>): seq<Entry>
    decreases |es|
  {
    if es == [] then chunks else AddedAll(Added(chunks, es[0]), es[1..])
  }

  function Total(chunks: seq<Entry>): nat {
    if chunks == [] then 0 else Total(chunks[..|chunks| - 1]) + chunks[|chunks| - 1].size
  }

  lemma {:induction false} TotalSnoc(chunks: seq<Entry>, e: Entry)
    ensures Wrap64(Total(chunks + [e])) == Wrap64(Wrap64(Total(chunks)) + e.size)
  {
    assert (chunks + [e])[..|chunks|] == chunks;
    Wrap64Add(Total(chunks), e.size);
  }

  lemma {:induction false} FindStable(chunks: seq<Entry>, more: seq<Entry>, sha: Sha)
    ensures Has(chunks, sha) ==> Find(chunks + more, sha) == Find(chunks, sha)
    ensures !Has(chunks, sha) && more != [] && more[0].sha == sha ==> Find(chunks + more, sha) == |chunks|
  {
    var i := Find(chunks + more, sha);
    assert forall j :: 0 <= j < |chunks| ==> (chunks + more)[j] == chunks[j];
    if Has(chunks, sha) {
      assert (chunks + more)[Find(chunks, sha)].sha == sha;
    } else if more != [] && more[0].sha == sha {
      assert (chunks + more)[|chunks|].sha == sha;
    }
  }

  lemma {:induction false} AddedKeeps(chunks: seq<Entry>, e: Entry)
    requires DistinctKeys(KeyOf, chunks)
    ensures chunks <= Added(chunks, e)
    ensures DistinctKeys(KeyOf, Added(chunks, e))
    ensures Has(Added(chunks, e), e.sha)
  {
    FindStable(chunks, [e], e.sha);
  }

  lemma {:induction false} PrefixHas(a: seq<Entry>, b: seq<Entry>, sha: Sha)
    requires a <= b && Has(a, sha)
    ensures Has(b, sha) && Find(b, sha) == Find(a, sha)
  {
    FindStable(a, b[|a|..], sha);
    assert a + b[|a|..] == b;
  }

  /** Adding never moves or changes what is there, and never repeats a digest. */
  lemma {:induction false} AddedAllKeeps(chunks: seq<Entry>, es: seq<Entry>)
    requires DistinctKeys(KeyOf, chunks)
    ensures chunks <= AddedAll(chunks, es)
    ensures DistinctKeys(KeyOf, AddedAll(chunks, es))
    ensures forall i :: 0 <= i < |es| ==> Has(AddedAll(chunks, es), es[i].sha)
    decreases |es|
  {
    if es != [] {
      var next := Added(chunks, es[0]);
      AddedKeeps(chunks, es[0]);
      AddedAllKeeps(next, es[1..]);
      var all := AddedAll(next, es[1..]);
      forall i | 0 <= i < |es| ensures Has(all, es[i].sha) {
        if i == 0 { PrefixHas(next, all, es[0].sha); } else { assert es[i] == es[1..][i - 1]; }
      }
    }
  }

  lemma {:induction false} AddedAllConcat(chunks: seq<Entry>, a: seq<Entry>, b: seq<Entry>)
    ensures AddedAll(chunks, a + b) == AddedAll(AddedAll(chunks, a), b)
    decreases |a|
  {
    if a == [] {
      assert a + b == b;
    } else {
      assert (a + b)[1..] == a[1..] + b;
      AddedAllConcat(Added(chunks, a[0]), a[1..], b);
    }
  }

  /** The map is the list read backwards; its uint32 positions wrap. */
  ghost predicate Indexed(chunks: seq<Entry>, m: map<Sha, u32>) {
    && (forall i :: 0 <= i < |chunks| ==> chunks[i].sha in m && m[chunks[i].sha] == Wrap32(i))
    && (forall s :: s in m ==> Has(chunks, s))
  }

  lemma {:induction false} IndexedNew(chunks: seq<Entry>, m: map<Sha, u32>, e: Entry)
    requires DistinctKeys(KeyOf, chunks) && Indexed(chunks, m) && e.sha !in m
    ensures Added(chunks, e) == chunks + [e]
    ensures Find(chunks + [e], e.sha) == |chunks|
    ensures DistinctKeys(KeyOf, chunks + [e])
  {
    assert !Has(chunks, e.sha);
    FindStable(chunks, [e], e.sha);
  }

  lemma {:induction false} IndexedAdd(chunks: seq<Entry>, m: map<Sha, u32>, e: Entry)
    requires Indexed(chunks, m) && e.sha !in m
    ensures Indexed(chunks + [e], m[e.sha := Wrap32(|chunks|)])
  {
    hide Find, Has, Wrap32;
    var next, m' := chunks + [e], m[e.sha := Wrap32(|chunks|)];
    forall i | 0 <= i < |next| ensures next[i].sha in m' && m'[next[i].sha] == Wrap32(i) {
      if i < |chunks| {
        assert next[i] == chunks[i] && chunks[i].sha in m;
      }
    }
    forall s | s in m' ensures Has(next, s) {
      if s in m { PrefixHas(chunks, next, s); } else { LastHas(chunks, e); }
    }
  }

  lemma {:induction false} LastHas(chunks: seq<Entry>, e: Entry)
    ensures Has(chunks + [e], e.sha)
  {
    assert (chunks + [e])[|chunks|] == e;
  }

  lemma {:induction false} IndexedHas(chunks: seq<Entry>, m: map<Sha, u32>, sha: Sha)
    requires DistinctKeys(KeyOf, chunks) && Indexed(chunks, m) && sha in m
    ensures Has(chunks, sha) && m[sha] == Wrap32(Find(chunks, sha))
  {
  }

  class Writer {
    var chunks: seq<Entry>
    var chunkMap: map<Sha, u32>
    var totalSize: u64

    ghost predicate Valid()
      reads this
    {
      && DistinctKeys(KeyOf, chunks)
      && Indexed(chunks, chunkMap)
      && totalSize == Wrap64(Total(chunks))
    }

    constructor ()
      ensures Valid() && chunks == []
    {
      chunks, chunkMap, totalSize := [], map[], 0;
    }

    method AddChunk(sha: Sha, size: u32, level: u16, flags: u16) returns (idx: u32)
      requires Valid()
      modifies this
      ensures Valid()
      ensures chunks == Added(old(chunks), Entry(sha, size, level, flags))
      ensures idx == Wrap32(Find(chunks, sha))
    {
      hide Find, Total, Wrap32, Wrap64;
      if sha in chunkMap {
        IndexedHas(chunks, chunkMap, sha);
        return chunkMap[sha];
      }
      var e := Entry(sha, size, level, flags);
      IndexedNew(chunks, chunkMap, e);
      IndexedAdd(chunks, chunkMap, e);
      TotalSnoc(chunks, e);
      idx := Wrap32(|chunks|);
      chunks := chunks + [e];
      chunkMap := chunkMap[sha := idx];
      totalSize := Wrap64(totalSize + size);
    }

    /** sortChunks: the ordered entries and where each chunk went. The slice sort
        orders positions by the digest they stand for. */
    method SortChunks() returns (entries: seq<Entry>, indexMap: seq<u32>)
      requires Valid()
      ensures entries == SortBy(KeyOf, chunks) && InOrder(KeyOf, entries)
      ensures |indexMap| == |chunks|
      ensures |chunks| <= U32 ==> Remaps(chunks, entries, indexMap)
    {
      var n, chunks := |chunks|, chunks;
      var indices := SortBy(i => Pick(chunks, i).sha, Ids(n));
      SortPermutes(i => Pick(chunks, i).sha, n);
      SortedPicks(chunks);
      entries, indexMap := Place(chunks, indices);
      assert entries == Map(i => Pick(chunks, i), indices);
      if n <= U32 { PlaceRemaps(chunks, indices, entries, indexMap); }
      SortOrder(KeyOf, chunks);
    }
  }

  /** The loop that fills both tables from the sorted positions. */
  method Place(chunks: seq<Entry>, indices: seq<nat>) returns (entries: seq<Entry>, indexMap: seq<u32>)
    requires Permutes(indices, |chunks|)
    ensures |entries| == |indexMap| == |chunks|
    ensures forall j :: 0 <= j < |indices| ==> entries[j] == chunks[indices[j]]
    ensures forall j :: 0 <= j < |indices| ==> indexMap[indices[j]] == Wrap32(j)
  {
    var n := |chunks|;
    var es, im := new Entry[n], new u32[n];
    for sortedIdx := 0 to n
      invariant forall j :: 0 <= j < sortedIdx ==> es[j] == chunks[indices[j]]
      invariant forall j :: 0 <= j < sortedIdx ==> im[indices[j]] == Wrap32(j)
    {
      var origIdx := indices[sortedIdx];
      es[sortedIdx] := chunks[origIdx];
      im[origIdx] := Wrap32(sortedIdx);
    }
    entries, indexMap := es[..], im[..];
  }

  lemma {:induction false} PlaceRemaps(chunks: seq<Entry>, indices: seq<nat>, entries: seq<Entry>, indexMap: seq<u32>)
    requires Permutes(indices, |chunks|) && |chunks| <= U32
    requires |entries| == |indexMap| == |chunks|
    requires forall j :: 0 <= j < |indices| ==> entries[j] == chunks[indices[j]]
    requires forall j :: 0 <= j < |indices| ==> indexMap[indices[j]] == Wrap32(j)
    ensures Remaps(chunks, entries, indexMap)
  {
    hide Permutes, Wrap32;
    forall i | 0 <= i < |chunks| ensures indexMap[i] < |entries| && entries[indexMap[i]] == chunks[i] {
      var j := PlaceOf(indices, |chunks|, i);
      NoWrap(j);
      assert indexMap[indices[j]] == Wrap32(j);
    }
  }

  lemma {:induction false} PlaceOf(indices: seq<nat>, n: nat, i: nat) returns (j: nat)
    requires Permutes(indices, n) && i < n
    ensures j < |indices| == n && indices[j] == i
  {
    assert i in indices;
    j :| 0 <= j < |indices| && indices[j] == i;
  }

  lemma {:induction false} NoWrap(j: nat)
    requires j < U32
    ensures Wrap32(j) == j
  {
  }

  function Pick(chunks: seq<Entry>, i: nat): Entry {
    if i < |chunks| then chunks[i] else Entry(Zeros(32), 0, 0, 0)
  }

  lemma {:induction false} SortedPicks(chunks: seq<Entry>)
    ensures Map(i => Pick(chunks, i), SortBy(i => Pick(chunks, i).sha, Ids(|chunks|))) == SortBy(KeyOf, chunks)
  {
    MapSort(i => Pick(chunks, i).sha, KeyOf, i => Pick(chunks, i), Ids(|chunks|));
    assert Map(i => Pick(chunks, i), Ids(|chunks|)) == chunks;
  }

  /** indexMap sends every chunk to its place in the sorted file. */
  ghost predicate Remaps(chunks: seq<Entry>, entries: seq<Entry>, indexMap: seq<u32>) {
    && |indexMap| == |chunks| == |entries|
    && (forall i :: 0 <= i < |chunks| ==> indexMap[i] < |entries| && entries[indexMap[i]] == chunks[i])
  }
}
