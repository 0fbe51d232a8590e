/** TSMWriter and the parser as loops (tsm/tsm.go:28-290, 312-411), and that
    parsing undoes writing. */
module TsmWriter {
  import opened Bytes
  import opened Sorting
  import opened TsmEntry
  import opened TsmFormat

  // ----------------------------------------------------- placing the references

  function Remap(indexMap: seq<u32>, r: u32): u32 {
    if r < |indexMap| then indexMap[r] else r
  }

  function Remapped(e: Entry, indexMap: seq<u32>): (refs: seq<u32>)
    ensures |refs| == |e.chunkRefs|
  {
    Map(r => Remap(indexMap, r), e.chunkRefs)
  }

  predicate HasRefs(e: Entry) { e.chunkCount > 0 && e.chunkRefs != [] }

  function TableOf(e: Entry, indexMap: seq<u32>): seq<u32> {
    if HasRefs(e) then Remapped(e, indexMap) else []
  }

  /** The chunk reference table: every file's references, one file after another. */
  function Table(es: seq<Entry>, indexMap: seq<u32>): seq<u32> {
    if es == [] then [] else TableOf(es[0], indexMap) + Table(es[1..], indexMap)
  }

  function PlaceOne(e: Entry, at: nat): Entry {
    if HasRefs(e) then e.(chunkStart := Wrap32(at), chunkCount := Wrap32(|e.chunkRefs|)) else e
  }

  /** The entries with their places in the table, which holds at references already. */
  function Placed(es: seq<Entry>, at: nat): (r: seq<Entry>)
    ensures |r| == |es|
  {
    if es == [] then []
    else [PlaceOne(es[0], at)] + Placed(es[1..], at + (if HasRefs(es[0]) then |es[0].chunkRefs| else 0))
  }

  // ------------------------------------------------------------- the file written

  function Body(es: seq<Entry>): Bytes { Flatten(Map(Encode, es)) }

  function Identity(sha256: Digest, h: Header, es: seq<Entry>, table: seq<u32>): Sha {
    sha256(HashInput(HeaderBytes(h), es, table))
  }

  function File(sha256: Digest, h: Header, es: seq<Entry>, table: seq<u32>, tscSha: Sha): Bytes {
    HeaderBytes(h) + Body(es) + RefBytes(table) + (Identity(sha256, h, es, table) + tscSha)
  }

  function FileTotal(es: seq<Entry>): nat {
    if es == [] then 0
    else FileTotal(es[..|es| - 1]) + (if es[|es| - 1].typ == FILE then es[|es| - 1].size else 0)
  }

  lemma {:induction false} NothingPlaced(indexMap: seq<u32>, at: nat)
    ensures Placed([], at) == [] && Table([], indexMap) == []
  {
  }

  lemma {:induction false} PlaceCons(es: seq<Entry>, at: nat, indexMap: seq<u32>)
    requires es != []
    ensures var t := TableOf(es[0], indexMap);
            && Placed(es, at) == [PlaceOne(es[0], at)] + Placed(es[1..], at + |t|)
            && Table(es, indexMap) == t + Table(es[1..], indexMap)
  {
    hide Wrap32, Remapped;
  }

  /** One entry moves from what is to be placed to what has been. */
  lemma {:induction false} PlaceNext(placed: seq<Entry>, table: seq<u32>, es: seq<Entry>, indexMap: seq<u32>)
    requires es != []
    ensures var t := TableOf(es[0], indexMap);
            && placed + Placed(es, |table|) == placed + [PlaceOne(es[0], |table|)] + Placed(es[1..], |table| + |t|)
            && table + Table(es, indexMap) == table + t + Table(es[1..], indexMap)
  {
    hide Placed, Table, PlaceOne, TableOf;
    var t := TableOf(es[0], indexMap);
    PlaceCons(es, |table|, indexMap);
    Assoc(placed, [PlaceOne(es[0], |table|)], Placed(es[1..], |table| + |t|));
    Assoc(table, t, Table(es[1..], indexMap));
  }

  /** Entry i comes after the references of the entries before it. */
  lemma {:induction false} PlaceAt(es: seq<Entry>, at: nat, indexMap: seq<u32>, i: nat)
    requires i < |es|
    ensures Placed(es, at)[i] == PlaceOne(es[i], at + |Table(es[..i], indexMap)|)
    decreases |es|
  {
    hide Remapped, PlaceOne, TableOf;
    PlaceCons(es, at, indexMap);
    if i > 0 {
      var t := TableOf(es[0], indexMap);
      PlaceAt(es[1..], at + |t|, indexMap, i - 1);
      assert es[..i][1..] == es[1..][..i - 1];
      PlaceCons(es[..i], at, indexMap);
    }
  }

  lemma {:induction false} TableAt(es: seq<Entry>, indexMap: seq<u32>, i: nat)
    requires i < |es|
    ensures exists more :: Table(es, indexMap) == Table(es[..i], indexMap) + (TableOf(es[i], indexMap) + more)
    decreases |es|
  {
    hide TableOf;
    var t, all := TableOf(es[0], indexMap), Table(es[1..], indexMap);
    if i == 0 {
      assert Table(es, indexMap) == Table([], indexMap) + (t + all);
    } else {
      TableAt(es[1..], indexMap, i - 1);
      assert es[..i][1..] == es[1..][..i - 1];
      var pre, own := Table(es[1..][..i - 1], indexMap), TableOf(es[i], indexMap);
      var more :| all == pre + (own + more);
      Assoc(t, pre, own + more);
      assert Table(es[..i], indexMap) == t + pre;
    }
  }

  /** An entry without chunks is written as it is; any other gets the place and the
      number of its references, which stand there in the table. */
  lemma {:induction false} PlaceIs(es: seq<Entry>, at: nat, indexMap: seq<u32>, i: nat)
    requires i < |es|
    ensures var e, p, pos, n := es[i], Placed(es, at)[i], |Table(es[..i], indexMap)|, |es[i].chunkRefs|;
            if e.chunkCount == 0 || e.chunkRefs == [] then p == e
            else && p == e.(chunkStart := Wrap32(at + pos), chunkCount := Wrap32(n))
                 && pos + n <= |Table(es, indexMap)| && Table(es, indexMap)[pos..pos + n] == Remapped(e, indexMap)
  {
    hide Remapped, Wrap32, Table, Placed;
    PlaceAt(es, at, indexMap, i);
    TableAt(es, indexMap, i);
    var pre, own := Table(es[..i], indexMap), TableOf(es[i], indexMap);
    var more :| Table(es, indexMap) == pre + (own + more);
    InMiddle(pre, own, more);
  }

  lemma {:induction false} PlacedPaths(es: seq<Entry>, at: nat)
    ensures forall i :: 0 <= i < |es| ==> Placed(es, at)[i].path == es[i].path
    decreases |es|
  {
    if es != [] { PlacedPaths(es[1..], at + (if HasRefs(es[0]) then |es[0].chunkRefs| else 0)); }
  }

  lemma {:induction false} SameOrder(a: seq<Entry>, b: seq<Entry>)
    requires InOrder(PathOf, a) && |a| == |b| && forall i :: 0 <= i < |a| ==> b[i].path == a[i].path
    ensures InOrder(PathOf, b)
  {
    hide Before;
    forall i, j | 0 <= i < j < |b| ensures !Before(PathOf(b[j]), PathOf(b[i])) {
      assert !Before(PathOf(a[j]), PathOf(a[i]));
    }
  }

  class Writer {
    var entries: seq<Entry>
    var fileCount: u64
    var totalSize: u64
    const flags: u32
    const creationTime: i64
    const fsUUID: Eight

    ghost predicate Valid()
      reads this
    {
      && fileCount == Wrap64(|entries|)
      && totalSize == Wrap64(FileTotal(entries))
    }

    constructor (creationTime: i64)
      ensures Valid() && entries == []
      ensures this.creationTime == creationTime && flags == 0 && fsUUID == Zeros(8)
    {
      entries, fileCount, totalSize := [], 0, 0;
      flags, this.creationTime, fsUUID := 0, creationTime, Zeros(8);
    }

    method AddEntry(e: Entry)
      requires Valid()
      modifies this
      ensures Valid() && entries == old(entries) + [e]
    {
      assert (entries + [e])[..|entries|] == entries;
      Wrap64Add(FileTotal(entries), e.size);
      Wrap64Add(|entries|, 1);
      entries := entries + [e];
      fileCount := Wrap64(fileCount + 1);
      if e.typ == FILE { totalSize := Wrap64(totalSize + e.size); }
    }

    ghost function HeaderFor(tscSha: Sha): Header
      reads this
    {
      Header(flags, fileCount, totalSize, tscSha[..8], creationTime, fsUUID)
    }

    /** The loop that assigns places and fills the table. */
    method PlaceRefs(indexMap: seq<u32>) returns (table: seq<u32>)
      modifies this`entries
      ensures entries == Placed(old(entries), 0)
      ensures table == Table(old(entries), indexMap)
    {
      hide Wrap32, Remapped, Placed, Table;
      var es := entries;
      var placed: seq<Entry> := [];
      table := [];
      assert es[0..] == es;
      NothingPlaced(indexMap, 0);
      for i := 0 to |es|
        invariant placed + Placed(es[i..], |table|) == Placed(es, 0)
        invariant table + Table(es[i..], indexMap) == Table(es, indexMap)
      {
        var e := es[i];
        assert es[i..][0] == e && es[i..][1..] == es[i + 1..];
        PlaceNext(placed, table, es[i..], indexMap);
        if HasRefs(e) {
          placed := placed + [e.(chunkStart := Wrap32(|table|), chunkCount := Wrap32(|e.chunkRefs|))];
          table := table + Remapped(e, indexMap);
        } else {
          placed := placed + [e];
          assert table + [] == table;
        }
      }
      assert es[|es|..] == [];
      NothingPlaced(indexMap, |table|);
      entries := placed;
    }

    /** Write: sorts the entries by path, then writes them with their references. */
    method Write(sha256: Digest, tscSha: Sha, indexMap: seq<u32>) returns (file: Bytes, id: Sha)
      requires Valid()
      modifies this`entries
      ensures var es := SortBy(PathOf, old(entries));
              && entries == Placed(es, 0)
              && id == Identity(sha256, HeaderFor(tscSha), entries, Table(es, indexMap))
              && file == File(sha256, HeaderFor(tscSha), entries, Table(es, indexMap), tscSha)
      ensures InOrder(PathOf, entries)
    {
      hide SortBy, Placed, Table, Encode, EncodeForHash, RefBytes, HeaderBytes;
      entries := SortBy(PathOf, entries);
      ghost var es := entries;
      var table := PlaceRefs(indexMap);
      var header := HeaderBytes(Header(flags, fileCount, totalSize, tscSha[..8], creationTime, fsUUID));
      var body, hashed := WriteEntries(entries);
      var refs := RefBytes(table);
      id := sha256(header + hashed + refs);
      file := header + body + refs + (id + tscSha);
      SortOrder(PathOf, old(entries));
      PlacedPaths(es, 0);
      SameOrder(es, entries);
    }
  }

  /** The entry loop of Write: full data to the file, hash data to the digest. */
  method WriteEntries(es: seq<Entry>) returns (body: Bytes, hashed: Bytes)
    ensures body == Body(es) && hashed == Flatten(Map(EncodeForHash, es))
  {
    hide Encode, EncodeForHash;
    body, hashed := [], [];
    for i := 0 to |es|
      invariant body == Body(es[..i]) && hashed == Flatten(Map(EncodeForHash, es[..i]))
    {
      FlattenMapSnoc(Encode, es, i);
      FlattenMapSnoc(EncodeForHash, es, i);
      var data := EncodeEntry(es[i]);
      body := body + data;
      hashed := hashed + EncodeForHash(es[i]);
    }
    assert es[..|es|] == es;
  }

  lemma {:induction false} FlattenMapSnoc(f: Entry -> Bytes, es: seq<Entry>, i: nat)
    requires i < |es|
    ensures Flatten(Map(f, es[..i + 1])) == Flatten(Map(f, es[..i])) + f(es[i])
  {
    assert Map(f, es[..i + 1]) == Map(f, es[..i]) + [f(es[i])];
    FlattenSnoc(Map(f, es[..i]), f(es[i]));
  }

  lemma {:induction false} FlattenMapCons(f: Entry -> Bytes, es: seq<Entry>)
    requires es != []
    ensures Flatten(Map(f, es)) == f(es[0]) + Flatten(Map(f, es[1..]))
  {
    assert Map(f, es)[1..] == Map(f, es[1..]);
  }

  // ----------------------------------------------------------- parsing it back

  lemma {:induction false} BodyParses(es: seq<Entry>, rest: Bytes)
    requires forall i :: 0 <= i < |es| ==> Encodable(es[i])
    ensures ParseEntries(Body(es) + rest, |es|) == Ok((Map(Strip, es), rest))
  {
    hide Encode, Decode, Get16, ParseEntries, Encodable, Strip, Body;
    if es == [] {
      BodyNone();
      assert Body(es) + rest == rest;
      ParseNone(rest);
    } else {
      var e, es1 := es[0], es[1..];
      RoundTrip(e);
      BodyCons(es);
      Assoc(Encode(e), Body(es1), rest);
      BodyParses(es1, rest);
      EncodeLength(e);
      ParseCons(Encode(e), Body(es1) + rest, |es|);
      MapCons(es);
    }
  }

  lemma {:induction false} MapCons(es: seq<Entry>)
    requires es != []
    ensures Map(Strip, es) == [Strip(es[0])] + Map(Strip, es[1..])
  {
    hide Strip;
  }

  lemma {:induction false} BodyNone()
    ensures Body([]) == []
  {
  }

  lemma {:induction false} BodyCons(es: seq<Entry>)
    requires es != []
    ensures Body(es) == Encode(es[0]) + Body(es[1..])
  {
    FlattenMapCons(Encode, es);
  }

  lemma {:induction false} EncodeLength(e: Entry)
    ensures |Encode(e)| == TotalSize(e) >= 58
  {
  }

  lemma {:induction false} HashInputStrip(header: Bytes, es: seq<Entry>, table: seq<u32>)
    ensures HashInput(header, Map(Strip, es), table) == HashInput(header, es, table)
  {
    forall i | 0 <= i < |es| ensures EncodeForHash(Strip(es[i])) == EncodeForHash(es[i]) {
      EncodeStrip(es[i]);
    }
    assert Map(EncodeForHash, Map(Strip, es)) == Map(EncodeForHash, es);
  }

  /** Parsing a written manifest gives back its header, entries and references. */
  lemma {:induction false} WriteParse(sha256: Digest, h: Header, es: seq<Entry>, table: seq<u32>, tscSha: Sha)
    requires h.fileCount == |es|
    requires forall i :: 0 <= i < |es| ==> Encodable(es[i]) && RefsFit(es[i], table)
    ensures Parse(sha256, File(sha256, h, es, table, tscSha))
         == Ok(Reader(h, AllWithRefs(Map(Strip, es), table), table, Identity(sha256, h, es, table), tscSha))
  {
    hide ParseEntries, RefBytes, RefsOf, DecodeHeader, HeaderBytes, Identity, HashInput, Encodable;
    var header, id := HeaderBytes(h), Identity(sha256, h, es, table);
    var data := File(sha256, h, es, table, tscSha);
    var end := |data| - FOOTER_SIZE;
    FileLayout(header, Body(es), RefBytes(table), id + tscSha);
    HeaderRoundTrip(h);
    HeaderPrefix(data, header);
    BodyParses(es, RefBytes(table));
    FinishWritten(sha256, h, es, table, tscSha);
  }

  lemma {:induction false} FileLayout(header: Bytes, body: Bytes, refs: Bytes, footer: Bytes)
    requires |header| == HEADER_SIZE && |footer| == FOOTER_SIZE
    ensures var data := header + body + refs + footer;
            && data[..4] == header[..4] && data[..HEADER_SIZE] == header == header[..HEADER_SIZE]
            && data[HEADER_SIZE..|data| - FOOTER_SIZE] == body + refs
            && data[|data| - FOOTER_SIZE..] == footer
  {
  }

  lemma {:induction false} FinishWritten(sha256: Digest, h: Header, es: seq<Entry>, table: seq<u32>, tscSha: Sha)
    requires forall i :: 0 <= i < |es| ==> RefsFit(es[i], table)
    ensures var id := Identity(sha256, h, es, table);
            Finish(sha256, HeaderBytes(h), Map(Strip, es), RefBytes(table), id + tscSha)
            == Ok(Reader(h, AllWithRefs(Map(Strip, es), table), table, id, tscSha))
  {
    hide RefBytes, RefsOf, DecodeHeader, HeaderBytes, HashInput;
    var id := Identity(sha256, h, es, table);
    RefsRoundTrip(table);
    HashInputStrip(HeaderBytes(h), es, table);
    HeaderRoundTrip(h);
    assert (id + tscSha)[..32] == id && (id + tscSha)[32..] == tscSha;
    assert forall i :: 0 <= i < |es| ==> RefsFit(Map(Strip, es)[i], table);
  }

  // ------------------------------------------------------ references find their way

  /** What the indexer hands over: the count is the number of references. */
  ghost predicate Counted(es: seq<Entry>) {
    forall i :: 0 <= i < |es| ==> es[i].chunkCount == |es[i].chunkRefs|
  }

  /** e was placed where its references are: reading the table there gives them back. */
  ghost predicate Finds(e: Entry, orig: Entry, indexMap: seq<u32>, table: seq<u32>) {
    && RefsFit(e, table)
    && e == orig.(chunkStart := e.chunkStart)
    && WithRefs(e, table).chunkRefs == Remapped(orig, indexMap)
  }

  lemma {:induction false} FindsOne(e: Entry, indexMap: seq<u32>, pre: seq<u32>, post: seq<u32>)
    requires e.chunkCount == |e.chunkRefs| && |pre| < U32
    ensures Finds(PlaceOne(e, |pre|), e, indexMap, pre + (TableOf(e, indexMap) + post))
  {
    InMiddle(pre, TableOf(e, indexMap), post);
    if !HasRefs(e) { assert Remapped(e, indexMap) == []; }
  }

  /** Every placed entry, looked up in the table, names its own remapped references. */
  lemma {:induction false} PlacedRefs(es: seq<Entry>, indexMap: seq<u32>, pre: seq<u32>, i: nat)
    requires Counted(es) && i < |es|
    requires |pre| + |Table(es, indexMap)| < U32
    ensures Finds(Placed(es, |pre|)[i], es[i], indexMap, pre + Table(es, indexMap))
    decreases |es|
  {
    hide Remapped, Finds, PlaceOne;
    var e, more := es[0], Table(es[1..], indexMap);
    var a := TableOf(e, indexMap);
    if i == 0 {
      FindsOne(e, indexMap, pre, more);
    } else {
      TableOfLength(e, indexMap);
      PlacedRefs(es[1..], indexMap, pre + a, i - 1);
      Assoc(pre, a, more);
      assert Placed(es, |pre|)[i] == Placed(es[1..], |pre + a|)[i - 1];
    }
  }

  lemma {:induction false} TableOfLength(e: Entry, indexMap: seq<u32>)
    ensures |TableOf(e, indexMap)| == if HasRefs(e) then |e.chunkRefs| else 0
  {
  }

  // ------------------------------------------------------------ ParseTSM, as loops

  function Prepend(done: seq<Entry>, r: Result<(seq<Entry>, Bytes)>): Result<(seq<Entry>, Bytes)> {
    match r case Err(why) => Err(why) case Ok((es, rest)) => Ok((done + es, rest))
  }

  method ParseEntryLoop(data: Bytes, end: nat, count: u64) returns (r: Result<(seq<Entry>, Bytes)>)
    requires HEADER_SIZE <= end <= |data|
    ensures r == ParseEntries(data[HEADER_SIZE..end], count)
  {
    hide Get16, Decode;
    var entries: seq<Entry> := [];
    var offset: nat := HEADER_SIZE;
    ghost var goal := ParseEntries(data[HEADER_SIZE..end], count);
    PrependNone(goal);
    while |entries| < count
      invariant |entries| <= count && HEADER_SIZE <= offset <= end
      invariant Prepend(entries, ParseEntries(data[offset..end], count - |entries|)) == goal
    {
      ghost var s := data[offset..end];
      if offset + 2 > end { return Err(Truncated); }
      var entryLen := Get16(data[offset..offset + 2]);
      SliceTake(data, offset, end, 2);
      if entryLen < 58 { return Err(BadLength); }
      if offset + entryLen > end { return Err(EntryPastEnd); }
      SliceTake(data, offset, end, entryLen);
      SliceDrop(data, offset, end, entryLen);
      var e := Decode(data[offset..offset + entryLen]);
      if e.Err? { return Err(e.reason); }
      PrependCons(entries, e.value, ParseEntries(data[offset + entryLen..end], count - |entries| - 1));
      entries := entries + [e.value];
      offset := offset + entryLen;
    }
    ParseNone(data[offset..end]);
    assert entries + [] == entries;
    r := Ok((entries, data[offset..end]));
  }

  lemma {:induction false} PrependNone(r: Result<(seq<Entry>, Bytes)>)
    ensures Prepend([], r) == r
  {
    match r case Err(_) => case Ok((es, rest)) => assert [] + es == es;
  }

  lemma {:induction false} PrependCons(done: seq<Entry>, e: Entry, r: Result<(seq<Entry>, Bytes)>)
    ensures Prepend(done, Prepend([e], r)) == Prepend(done + [e], r)
  {
    match r case Err(_) => case Ok((es, rest)) => Assoc(done, [e], es);
  }

  /** ParseTSM. */
  method ParseTsm(sha256: Digest, data: Bytes) returns (r: Result<Reader>)
    ensures r == Parse(sha256, data)
  {
    hide ParseEntries, DecodeHeader, HashInput, Decode;
    if |data| < HEADER_SIZE + FOOTER_SIZE { return Err(TooShort); }
    if data[..4] != MAGIC { return Err(BadMagic); }
    var end := |data| - FOOTER_SIZE;
    var footer := data[end..];
    HeaderPrefix(data, data[..HEADER_SIZE]);
    var header := DecodeHeader(data);
    var parsed := ParseEntryLoop(data, end, header.fileCount);
    if parsed.Err? { return Err(parsed.reason); }
    var (entries, rest) := parsed.value;
    if |rest| % 4 != 0 { return Err(RefTableSize); }
    var table := RefLoop(rest);
    var computed := sha256(HashInput(data[..HEADER_SIZE], entries, table));
    if computed != footer[..32] { return Err(Checksum); }
    var attached := AttachLoop(entries, table);
    if attached == None { return Err(RefRange); }
    r := Ok(Reader(header, attached.value, table, computed, footer[32..]));
  }

  method RefLoop(rest: Bytes) returns (table: seq<u32>)
    requires |rest| % 4 == 0
    ensures table == RefsOf(rest)
  {
    table := [];
    for i := 0 to |rest| / 4
      invariant |table| == i && forall j :: 0 <= j < i ==> table[j] == RefAt(rest, j)
    {
      table := table + [Get32(rest[4 * i..4 * i + 4])];
    }
  }

  method AttachLoop(entries: seq<Entry>, table: seq<u32>) returns (r: Option<seq<Entry>>)
    ensures r == if forall i :: 0 <= i < |entries| ==> RefsFit(entries[i], table)
                 then Some(AllWithRefs(entries, table)) else None
  {
    var out: seq<Entry> := [];
    for i := 0 to |entries|
      invariant |out| == i
      invariant forall j :: 0 <= j < i ==> RefsFit(entries[j], table) && out[j] == WithRefs(entries[j], table)
    {
      var e := entries[i];
      if e.chunkCount > 0 {
        var start, end := e.chunkStart, e.chunkStart + e.chunkCount;
        if end > |table| { return None; }
        out := out + [e.(chunkRefs := table[start..end])];
      } else {
        out := out + [e];
      }
    }
    assert out == AllWithRefs(entries, table);
    r := Some(out);
  }
}
