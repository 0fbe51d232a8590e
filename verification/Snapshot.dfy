/** The two files of a snapshot, what they mean, and that they mean it: writing
    and parsing lose nothing, and an incremental run writes what a full one does. */
module Snapshot {
  import opened Bytes
  import opened Sorting
  import opened TsmEntry
  import opened Indexer
  import Tsc
  import TscFormat
  import TsmFormat
  import TsmWriter
  import IndexerRun

  // ------------------------------------------------------- the files of a state

  function SortedChunks(st: State): seq<Tsc.Entry> { SortBy(Tsc.KeyOf, st.chunks) }

  function TscTotal(st: State): u64 { Wrap64(Tsc.Total(st.chunks)) }

  function TscFile(sha256: Digest, st: State): Bytes {
    TscFormat.File(sha256, SortedChunks(st), TscTotal(st))
  }

  function TscSha(sha256: Digest, st: State): Sha {
    sha256(TscFormat.Content(SortedChunks(st), TscTotal(st)))
  }

  /** Where every chunk went when the list was sorted. */
  function IndexMap(chunks: seq<Tsc.Entry>): (m: seq<u32>)
    ensures |m| == |chunks|
    ensures forall i :: 0 <= i < |chunks| ==> m[i] == Wrap32(Tsc.Find(SortBy(Tsc.KeyOf, chunks), chunks[i].sha))
  {
    Map((c: Tsc.Entry) => Wrap32(Tsc.Find(SortBy(Tsc.KeyOf, chunks), c.sha)), chunks)
  }

  function SortedEntries(st: State): seq<Entry> { SortBy(PathOf, st.entries) }

  function RefTable(st: State): seq<u32> { TsmWriter.Table(SortedEntries(st), IndexMap(st.chunks)) }

  function ManifestHeader(sha256: Digest, st: State, creation: i64): TsmFormat.Header {
    TsmFormat.Header(0, Wrap64(|st.entries|), Wrap64(TsmWriter.FileTotal(st.entries)),
                     TscSha(sha256, st)[..8], creation, Zeros(8))
  }

  function TsmFile(sha256: Digest, st: State, creation: i64): Bytes {
    TsmWriter.File(sha256, ManifestHeader(sha256, st, creation), TsmWriter.Placed(SortedEntries(st), 0),
                   RefTable(st), TscSha(sha256, st))
  }

  /** The snapshot's identity. */
  function SnapId(sha256: Digest, st: State, creation: i64): Sha {
    TsmWriter.Identity(sha256, ManifestHeader(sha256, st, creation), TsmWriter.Placed(SortedEntries(st), 0),
                       RefTable(st))
  }

  // ----------------------------------------------------------- the index map

  lemma {:induction false} SortedHas(chunks: seq<Tsc.Entry>, i: nat)
    requires DistinctKeys(Tsc.KeyOf, chunks) && i < |chunks|
    ensures var s, k := SortBy(Tsc.KeyOf, chunks), Tsc.Find(SortBy(Tsc.KeyOf, chunks), chunks[i].sha);
            k < |s| && s[k] == chunks[i]
  {
    var s := SortBy(Tsc.KeyOf, chunks);
    SortStrict(Tsc.KeyOf, chunks);
    SortElements(Tsc.KeyOf, chunks);
    assert chunks[i] in multiset(s);
    var k :| 0 <= k < |s| && s[k] == chunks[i];
    FindStrict(s, k);
  }

  lemma {:induction false} FindStrict(s: seq<Tsc.Entry>, k: nat)
    requires Strict(Tsc.KeyOf, s) && k < |s|
    ensures Tsc.Find(s, s[k].sha) == k
  {
    var j := Tsc.Find(s, s[k].sha);
    if j < k {
      assert Less(Tsc.KeyOf(s[j]), Tsc.KeyOf(s[k]));
      LessTotal(s[j].sha, s[k].sha);
    }
  }

  /** The map the writer returns is the only one that can be right. */
  lemma {:induction false} RemapsIsIndexMap(chunks: seq<Tsc.Entry>, m: seq<u32>)
    requires DistinctKeys(Tsc.KeyOf, chunks) && |chunks| <= U32
    requires Tsc.Remaps(chunks, SortBy(Tsc.KeyOf, chunks), m)
    ensures m == IndexMap(chunks)
  {
    hide Tsc.Find, SortBy, IndexMap, Strict, DistinctKeys;
    var s := SortBy(Tsc.KeyOf, chunks);
    SortStrict(Tsc.KeyOf, chunks);
    forall i | 0 <= i < |chunks| ensures m[i] == IndexMap(chunks)[i] {
      FindStrict(s, m[i]);
    }
  }

  /** Writing both files: the tail of Index. */
  method Publish(run: IndexerRun.Run, sha256: Digest) returns (tsc: Bytes, tsm: Bytes, id: Sha)
    requires run.Valid() && |run.tsc.chunks| <= U32
    requires run.tsm.flags == 0 && run.tsm.fsUUID == Zeros(8)
    modifies run.tsm
    ensures tsc == TscFile(sha256, old(run.View()))
    ensures tsm == TsmFile(sha256, old(run.View()), run.tsm.creationTime)
    ensures id == SnapId(sha256, old(run.View()), run.tsm.creationTime)
  {
    hide SortBy, TscFormat.File, TscFormat.Content, TsmWriter.File, TsmWriter.Identity, TsmWriter.Placed,
         TsmWriter.Table, Tsc.Remaps;
    var tscSha, indexMap;
    tsc, tscSha, indexMap := TscFormat.Write(run.tsc, sha256);
    RemapsIsIndexMap(run.tsc.chunks, indexMap);
    tsm, id := run.tsm.Write(sha256, tscSha, indexMap);
  }

  // ------------------------------------------------------- losing nothing on disk

  /** What the writers need of a state: distinct paths, entries that fit their
      length field, references into the chunk list, and counters that fit. */
  ghost predicate Writable(st: State) {
    && DistinctKeys(Tsc.KeyOf, st.chunks) && |st.chunks| <= U32
    && DistinctKeys(PathOf, st.entries) && |st.entries| < U64
    && |RefTable(st)| < U32
    && (forall i :: 0 <= i < |st.entries| ==> WritableEntry(st, st.entries[i]))
  }

  ghost predicate WritableEntry(st: State, e: Entry) {
    && Encodable(e)
    && e.chunkCount == |e.chunkRefs|
    && (forall k :: 0 <= k < |e.chunkRefs| ==> e.chunkRefs[k] < |st.chunks|)
  }

  /** The entry read back for e: all it keeps on disk, and references renamed so
      that they resolve to the very records e named. */
  ghost predicate ReadBack(st: State, e: Entry, r: Entry, es: seq<Tsc.Entry>) {
    && r == Strip(e).(chunkStart := r.chunkStart, chunkRefs := r.chunkRefs)
    && |r.chunkRefs| == |e.chunkRefs|
    && (forall k :: 0 <= k < |e.chunkRefs| ==>
          r.chunkRefs[k] < |es| && e.chunkRefs[k] < |st.chunks| && es[r.chunkRefs[k]] == st.chunks[e.chunkRefs[k]])
  }

  lemma {:induction false} ElementsWritable(st: State, i: nat)
    requires Writable(st) && i < |st.entries|
    ensures WritableEntry(st, SortedEntries(st)[i])
  {
    var s := SortedEntries(st);
    SortElements(PathOf, st.entries);
    assert s[i] in multiset(s);
    assert s[i] in st.entries;
  }

  lemma {:induction false} RemapResolves(st: State, e: Entry)
    requires Writable(st) && WritableEntry(st, e)
    ensures var refs, es := TsmWriter.Remapped(e, IndexMap(st.chunks)), SortedChunks(st);
            forall k :: 0 <= k < |e.chunkRefs| ==> refs[k] < |es| && es[refs[k]] == st.chunks[e.chunkRefs[k]]
  {
    hide Tsc.Find, SortBy, IndexMap, DistinctKeys, RefTable, Encodable;
    var refs, es := TsmWriter.Remapped(e, IndexMap(st.chunks)), SortedChunks(st);
    forall k | 0 <= k < |e.chunkRefs| ensures refs[k] < |es| && es[refs[k]] == st.chunks[e.chunkRefs[k]] {
      SortedHas(st.chunks, e.chunkRefs[k]);
    }
  }

  /** One entry through placing, writing, parsing and attaching. */
  lemma {:induction false} EntryReadsBack(st: State, i: nat)
    requires Writable(st) && i < |st.entries|
    ensures var e := TsmWriter.Placed(SortedEntries(st), 0)[i];
            && Encodable(e) && TsmFormat.RefsFit(e, RefTable(st))
            && ReadBack(st, SortedEntries(st)[i], TsmFormat.WithRefs(Strip(e), RefTable(st)), SortedChunks(st))
  {
    hide TsmWriter.Remapped, SortBy, TsmWriter.Table, TsmWriter.Placed, IndexMap;
    var es, t := SortedEntries(st), RefTable(st);
    forall j | 0 <= j < |es| ensures WritableEntry(st, es[j]) { ElementsWritable(st, j); }
    assert [] + t == t;
    TsmWriter.PlacedRefs(es, IndexMap(st.chunks), [], i);
    RemapResolves(st, es[i]);
    var e := TsmWriter.Placed(es, 0)[i];
    PlacedReads(e, es[i], IndexMap(st.chunks), t);
  }

  lemma {:induction false} PlacedReads(e: Entry, orig: Entry, indexMap: seq<u32>, t: seq<u32>)
    requires Encodable(orig) && orig.chunkCount == |orig.chunkRefs| && TsmWriter.Finds(e, orig, indexMap, t)
    ensures Encodable(e)
    ensures var r := TsmFormat.WithRefs(Strip(e), t);
            r == Strip(orig).(chunkStart := r.chunkStart, chunkRefs := r.chunkRefs)
            && r.chunkRefs == TsmWriter.Remapped(orig, indexMap)
  {
    hide TsmWriter.Remapped;
    if orig.chunkCount == 0 { RemappedNone(orig, indexMap); }
  }

  lemma {:induction false} RemappedNone(e: Entry, indexMap: seq<u32>)
    requires e.chunkRefs == []
    ensures TsmWriter.Remapped(e, indexMap) == []
  {
  }

  /** Both files parse, the manifest lists the entries in path order, and every
      file's references, resolved through the parsed chunk file, are its original
      records in order. */
  lemma {:induction false} WriteParse(sha256: Digest, st: State, creation: i64)
    returns (tsc: TscFormat.Reader, tsm: TsmFormat.Reader)
    requires Writable(st)
    ensures TscFormat.Parse(sha256, TscFile(sha256, st)) == Ok(tsc) && tsc.entries == SortedChunks(st)
    ensures TsmFormat.Parse(sha256, TsmFile(sha256, st, creation)) == Ok(tsm)
    ensures tsm.sha == SnapId(sha256, st, creation) && tsm.tscSha == tsc.sha
    ensures tsm.header.chunkFileRef == tsc.sha[..8]
    ensures Ascending(PathOf, tsm.entries) && Ascending(Tsc.KeyOf, tsc.entries)
    ensures |tsm.entries| == |st.entries|
    ensures forall i :: 0 <= i < |tsm.entries| ==> ReadBack(st, SortedEntries(st)[i], tsm.entries[i], tsc.entries)
  {
    hide SortBy, TscFormat.Parse, TscFormat.File, TscFormat.Content, TsmFormat.Parse, TsmWriter.File, TsmWriter.Placed,
         TsmWriter.Table, TsmFormat.RefsFit, TsmFormat.WithRefs, ReadBack, Encodable, Writable, RefTable, Tsc.Total;
    Bounds(st);
    TscFormat.WriteParse(sha256, SortedChunks(st), TscTotal(st));
    var es, t := TsmWriter.Placed(SortedEntries(st), 0), RefTable(st);
    forall i | 0 <= i < |es|
      ensures Encodable(es[i]) && TsmFormat.RefsFit(es[i], t)
      ensures ReadBack(st, SortedEntries(st)[i], TsmFormat.WithRefs(Strip(es[i]), t), SortedChunks(st))
    {
      EntryReadsBack(st, i);
    }
    TsmWriter.WriteParse(sha256, ManifestHeader(sha256, st, creation), es, t, TscSha(sha256, st));
    tsc := TscFormat.Parse(sha256, TscFile(sha256, st)).value;
    tsm := TsmFormat.Parse(sha256, TsmFile(sha256, st, creation)).value;
    ParsedOrder(st, tsc, tsm);
  }

  lemma {:induction false} ParsedOrder(st: State, tsc: TscFormat.Reader, tsm: TsmFormat.Reader)
    requires Writable(st)
    requires tsc.entries == SortedChunks(st) && |tsm.entries| == |st.entries|
    requires forall i :: 0 <= i < |tsm.entries| ==> ReadBack(st, SortedEntries(st)[i], tsm.entries[i], tsc.entries)
    ensures Ascending(PathOf, tsm.entries) && Ascending(Tsc.KeyOf, tsc.entries)
  {
    hide SortBy, Before, Strict, DistinctKeys, RefTable, WritableEntry;
    SortStrict(Tsc.KeyOf, st.chunks);
    SortStrict(PathOf, st.entries);
    StrictIs(Tsc.KeyOf, tsc.entries);
    StrictIs(PathOf, SortedEntries(st));
    forall i | 0 <= i < |tsm.entries| ensures tsm.entries[i].path == SortedEntries(st)[i].path {
      assert ReadBack(st, SortedEntries(st)[i], tsm.entries[i], tsc.entries);
    }
    forall i, j | 0 <= i < j < |tsm.entries| ensures Before(PathOf(tsm.entries[i]), PathOf(tsm.entries[j])) {
      assert Before(PathOf(SortedEntries(st)[i]), PathOf(SortedEntries(st)[j]));
    }
  }

  /** Whatever manifest lists its paths in lexicographic order, each is found at its entry. */
  lemma {:induction false} FindsPath(tsm: TsmFormat.Reader, i: nat)
    requires Ascending(PathOf, tsm.entries) && i < |tsm.entries|
    ensures LookupPath(tsm, tsm.entries[i].path) == Some(tsm.entries[i])
  {
    hide Lookup, Strict, Ascending;
    StrictIs(PathOf, tsm.entries);
    LookupStrict(PathOf, tsm.entries, i);
  }

  lemma {:induction false} Bounds(st: State)
    requires Writable(st)
    ensures |SortedChunks(st)| < U64 && |SortedEntries(st)| == |st.entries| < U64
    ensures Wrap64(|st.entries|) == |st.entries|
  {
    hide SortBy, RefTable, WritableEntry, DistinctKeys;
  }
}
