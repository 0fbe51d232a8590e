/** The .tsc file format: writing, parsing and searching (tsm/tsc.go:101-251). */
module TscFormat {
  import opened Bytes
  import opened Sorting
  import opened Tsc

  // -------------------------------------------------------------------- layout

  function EntryBytes(e: Entry): (b: Bytes)
    ensures |b| == ENTRY_SIZE
  {
    e.sha + BE(4, e.size) + BE(2, e.level) + BE(2, e.flags)
  }

  function DecodeEntry(b: Bytes): Entry
    requires |b| == ENTRY_SIZE
  {
    Entry(b[..32], Get32(b[32..36]), Get16(b[36..38]), Get16(b[38..40]))
  }

  lemma {:induction false} EntryRoundTrip(e: Entry)
    ensures DecodeEntry(EntryBytes(e)) == e
  {
    var b := EntryBytes(e);
    assert b[..32] == e.sha;
    assert b[32..36] == BE(4, e.size);
    assert b[36..38] == BE(2, e.level);
    assert b[38..40] == BE(2, e.flags);
    GetPut32(e.size);
    GetPut16(e.level);
    GetPut16(e.flags);
  }

  datatype Header = Header(flags: u32, chunkCount: u64, totalChunkSize: u64, slabCount: u32, slabTableOffset: u32)

  function HeaderBytes(h: Header): (b: Bytes)
    ensures |b| == HEADER_SIZE
  {
    MAGIC + BE(4, h.flags) + BE(8, h.chunkCount) + BE(8, h.totalChunkSize)
      + BE(4, h.slabCount) + BE(4, h.slabTableOffset) + Zeros(32)
  }

  function DecodeHeader(b: Bytes): Header
    requires |b| >= HEADER_SIZE
  {
    Header(Get32(b[4..8]), Get64(b[8..16]), Get64(b[16..24]), Get32(b[24..28]), Get32(b[28..32]))
  }

  lemma {:induction false} HeaderRoundTrip(h: Header)
    ensures HeaderBytes(h)[..4] == MAGIC
    ensures DecodeHeader(HeaderBytes(h)) == h
  {
    var b := HeaderBytes(h);
    assert b[4..8] == BE(4, h.flags);
    assert b[8..16] == BE(8, h.chunkCount);
    assert b[16..24] == BE(8, h.totalChunkSize);
    assert b[24..28] == BE(4, h.slabCount);
    assert b[28..32] == BE(4, h.slabTableOffset);
    GetPut32(h.flags);
    GetPut64(h.chunkCount);
    GetPut64(h.totalChunkSize);
    GetPut32(h.slabCount);
    GetPut32(h.slabTableOffset);
  }

  function HeaderFor(es: seq<Entry>, total: u64): Header {
    Header(0, Wrap64(|es|), total, 0, 0)
  }

  function Body(es: seq<Entry>): Bytes { Flatten(Map(EntryBytes, es)) }

  /** Everything the footer digest covers. */
  function Content(es: seq<Entry>, total: u64): Bytes {
    HeaderBytes(HeaderFor(es, total)) + Body(es)
  }

  function File(sha256: Digest, es: seq<Entry>, total: u64): Bytes {
    Content(es, total) + sha256(Content(es, total))
  }

  lemma {:induction false} BodySlices(es: seq<Entry>, i: nat)
    requires i < |es|
    ensures |Body(es)| == ENTRY_SIZE * |es|
    ensures Body(es)[ENTRY_SIZE * i..ENTRY_SIZE * i + ENTRY_SIZE] == EntryBytes(es[i])
  {
    BlocksLength(Map(EntryBytes, es), ENTRY_SIZE);
    BlockAt(Map(EntryBytes, es), ENTRY_SIZE, i);
  }

  /** Write: the file holds the chunks in digest order and ends in its own digest. */
  method Write(w: Writer, sha256: Digest) returns (file: Bytes, fileSha: Sha, indexMap: seq<u32>)
    requires w.Valid()
    ensures file == File(sha256, SortBy(KeyOf, w.chunks), w.totalSize)
    ensures fileSha == sha256(Content(SortBy(KeyOf, w.chunks), w.totalSize))
    ensures |indexMap| == |w.chunks|
    ensures |w.chunks| <= U32 ==> Remaps(w.chunks, SortBy(KeyOf, w.chunks), indexMap)
  {
    hide HeaderBytes, Body, EntryBytes, Remaps, SortBy;
    var entries;
    entries, indexMap := w.SortChunks();
    ghost var h := HeaderBytes(HeaderFor(entries, w.totalSize));
    file := HeaderBytes(Header(0, Wrap64(|entries|), w.totalSize, 0, 0));
    BodyEmpty();
    for i := 0 to |entries|
      invariant file == h + Body(entries[..i])
    {
      BodySnoc(entries, i);
      Assoc(h, Body(entries[..i]), EntryBytes(entries[i]));
      file := file + EntryBytes(entries[i]);
    }
    assert entries[..|entries|] == entries;
    fileSha := sha256(file);
    file := file + fileSha;
  }

  lemma {:induction false} BodyEmpty()
    ensures Body([]) == []
  {
  }

  lemma {:induction false} BodySnoc(es: seq<Entry>, i: nat)
    requires i < |es|
    ensures Body(es[..i + 1]) == Body(es[..i]) + EntryBytes(es[i])
  {
    TakeSnoc(es, i);
    assert Map(EntryBytes, es[..i + 1]) == Map(EntryBytes, es[..i]) + [EntryBytes(es[i])];
    FlattenSnoc(Map(EntryBytes, es[..i]), EntryBytes(es[i]));
  }

  // ------------------------------------------------------------------- parsing

  datatype Reader = Reader(header: Header, entries: seq<Entry>, sha: Sha)

  /** How many whole entries a file of this length has room for; bytes beyond the
      last whole entry are tolerated. */
  function Room(data: Bytes): nat
    requires |data| >= HEADER_SIZE + FOOTER_SIZE
  {
    (|data| - FOOTER_SIZE - HEADER_SIZE) / ENTRY_SIZE
  }

  function EntryAt(data: Bytes, i: nat): Entry
    requires |data| >= HEADER_SIZE + FOOTER_SIZE && i < Room(data)
  {
    var off := HEADER_SIZE + ENTRY_SIZE * i;
    DecodeEntry(data[off..off + ENTRY_SIZE])
  }

  function EntriesOf(data: Bytes): (es: seq<Entry>)
    requires |data| >= HEADER_SIZE + FOOTER_SIZE
    ensures |es| == Room(data) && forall i :: 0 <= i < |es| ==> es[i] == EntryAt(data, i)
  {
    seq(Room(data), i requires 0 <= i < Room(data) => EntryAt(data, i))
  }

  /** ParseTSC. */
  function Parse(sha256: Digest, data: Bytes): Result<Reader> {
    if |data| < HEADER_SIZE + FOOTER_SIZE then Err(TooShort)
    else if data[..4] != MAGIC then Err(BadMagic)
    else
      var content := data[..|data| - FOOTER_SIZE];
      if sha256(content) != data[|data| - FOOTER_SIZE..] then Err(Checksum)
      else if Room(data) != DecodeHeader(data).chunkCount then Err(CountMismatch)
      else Ok(Reader(DecodeHeader(data), EntriesOf(data), sha256(content)))
  }

  method ParseTsc(sha256: Digest, data: Bytes) returns (r: Result<Reader>)
    ensures r == Parse(sha256, data)
  {
    if |data| < HEADER_SIZE + FOOTER_SIZE { return Err(TooShort); }
    if data[..4] != MAGIC { return Err(BadMagic); }
    var footer := data[|data| - FOOTER_SIZE..];
    var content := data[..|data| - FOOTER_SIZE];
    var computed := sha256(content);
    if computed != footer { return Err(Checksum); }
    var header := DecodeHeader(data);
    if (|content| - HEADER_SIZE) / ENTRY_SIZE != header.chunkCount { return Err(CountMismatch); }
    var entries: seq<Entry> := [];
    var offset := HEADER_SIZE;
    while |entries| < header.chunkCount
      invariant |entries| <= Room(data) == header.chunkCount
      invariant offset == HEADER_SIZE + ENTRY_SIZE * |entries|
      invariant forall i :: 0 <= i < |entries| ==> entries[i] == EntryAt(data, i)
    {
      entries := entries + [EntryAt(data, |entries|)];
      offset := offset + ENTRY_SIZE;
    }
    assert entries == EntriesOf(data);
    r := Ok(Reader(header, entries, computed));
  }

  /** Parsing what was written gives back every entry, in file order. */
  lemma {:induction false} WriteParse(sha256: Digest, es: seq<Entry>, total: u64)
    requires |es| < U64
    ensures Parse(sha256, File(sha256, es, total))
         == Ok(Reader(HeaderFor(es, total), es, sha256(Content(es, total))))
  {
    hide HeaderBytes, Body, EntriesOf, DecodeHeader, Room;
    var h, content := HeaderBytes(HeaderFor(es, total)), Content(es, total);
    HeaderRoundTrip(HeaderFor(es, total));
    HeaderInFile(h, Body(es), sha256(content));
    RoomInFile(h, es, sha256(content));
    EntriesInFile(h, es, sha256(content));
    FooterInFile(content, sha256(content));
    StartsWithMagic(HeaderFor(es, total));
  }

  lemma {:induction false} StartsWithMagic(h: Header)
    ensures |HeaderBytes(h)| == HEADER_SIZE && HeaderBytes(h)[..4] == MAGIC
  {
    hide BE;
  }

  lemma {:induction false} EntriesInFile(h: Bytes, es: seq<Entry>, footer: Bytes)
    requires |h| == HEADER_SIZE && |footer| == FOOTER_SIZE
    ensures EntriesOf(h + Body(es) + footer) == es
  {
    var data := h + Body(es) + footer;
    RoomInFile(h, es, footer);
    forall i | 0 <= i < |es| ensures EntryAt(data, i) == es[i] {
      EntryInFile(h, es, footer, i);
    }
  }

  lemma {:induction false} RoomInFile(h: Bytes, es: seq<Entry>, footer: Bytes)
    requires |h| == HEADER_SIZE && |footer| == FOOTER_SIZE
    ensures |Body(es)| == ENTRY_SIZE * |es| && Room(h + Body(es) + footer) == |es|
  {
    BlocksLength(Map(EntryBytes, es), ENTRY_SIZE);
  }

  lemma {:induction false} EntryInFile(h: Bytes, es: seq<Entry>, footer: Bytes, i: nat)
    requires |h| == HEADER_SIZE && |footer| == FOOTER_SIZE && i < |es|
    requires Room(h + Body(es) + footer) == |es|
    ensures EntryAt(h + Body(es) + footer, i) == es[i]
  {
    hide DecodeEntry, EntryBytes, Body;
    BodySlices(es, i);
    SliceInFile(h, Body(es), footer, ENTRY_SIZE * i);
    EntryRoundTrip(es[i]);
  }

  lemma {:induction false} FooterInFile(content: Bytes, footer: Bytes)
    requires |footer| == FOOTER_SIZE
    ensures var data := content + footer;
            data[..|data| - FOOTER_SIZE] == content && data[|data| - FOOTER_SIZE..] == footer
  {
  }

  lemma {:induction false} HeaderInFile(h: Bytes, body: Bytes, footer: Bytes)
    requires |h| == HEADER_SIZE
    ensures (h + body + footer)[..4] == h[..4]
    ensures DecodeHeader(h + body + footer) == DecodeHeader(h)
  {
    var d := h + body + footer;
    assert forall a, b :: 0 <= a <= b <= HEADER_SIZE ==> d[a..b] == h[a..b];
  }

  lemma {:induction false} SliceInFile(h: Bytes, body: Bytes, footer: Bytes, at: nat)
    requires |h| == HEADER_SIZE && at + ENTRY_SIZE <= |body|
    ensures (h + body + footer)[HEADER_SIZE + at..HEADER_SIZE + at + ENTRY_SIZE] == body[at..at + ENTRY_SIZE]
  {
  }

  // ----------------------------------------------------------------- searching

  /** LookupChunk. In a sorted file it finds exactly the digests that are there. */
  method LookupChunk(es: seq<Entry>, sha: Sha) returns (e: Option<Entry>)
    ensures e.Some? ==> e.value in es && e.value.sha == sha
    ensures Strict(KeyOf, es) ==> e == if Has(es, sha) then Some(es[Find(es, sha)]) else None
  {
    if Strict(KeyOf, es) {
      LookupAbsent(KeyOf, es, sha);
      if Has(es, sha) { LookupStrict(KeyOf, es, Find(es, sha)); }
    }
    var i := Search(KeyOf, es, sha);
    e := if i.Some? then Some(es[i.value]) else None;
  }

  // ---------------------------------------------------------- field by field in the file

  /** Where the fields of entry i stand. */
  lemma {:induction false} EntryInFileAt(sha256: Digest, es: seq<Entry>, total: u64, i: nat)
    requires i < |es|
    ensures var f, off := File(sha256, es, total), 64 + 40 * i;
            && off + 40 <= |f|
            && f[off..off + 32] == es[i].sha && f[off + 32..off + 36] == BE(4, es[i].size)
            && f[off + 36..off + 38] == BE(2, es[i].level) && f[off + 38..off + 40] == BE(2, es[i].flags)
  {
    hide BE, HeaderBytes, Body;
    var h, body := HeaderBytes(HeaderFor(es, total)), Body(es);
    var f, off := File(sha256, es, total), 64 + 40 * i;
    BodySlices(es, i);
    assert f == h + body + sha256(Content(es, total));
    SliceInFile(h, body, sha256(Content(es, total)), 40 * i);
    var b := EntryBytes(es[i]);
    assert f[off..off + 40] == b;
    SubSlice(f, off, off + 40, 0, 32);
    SubSlice(f, off, off + 40, 32, 36);
    SubSlice(f, off, off + 40, 36, 38);
    SubSlice(f, off, off + 40, 38, 40);
  }

  /** The header and the footer: magic, no flags, the number of entries, the total, no
      slabs; and the digest of all before it. */
  lemma {:induction false} FrameOfFile(sha256: Digest, es: seq<Entry>, total: u64)
    ensures var f := File(sha256, es, total);
            && |f| == 96 + 40 * |es|
            && f[0..4] == [0x54, 0x53, 0x43, 3] && f[4..8] == BE(4, 0) && f[8..16] == BE(8, |es| % U64)
            && f[16..24] == BE(8, total) && f[24..32] == BE(8, 0) && f[32..64] == Zeros(32)
            && f[|f| - 32..] == sha256(f[..|f| - 32])
  {
    hide Body, BE;
    var h := HeaderBytes(HeaderFor(es, total));
    var f, content := File(sha256, es, total), Content(es, total);
    BodyLength(es);
    FooterInFile(content, sha256(content));
    ZeroWords();
    assert f[..64] == h;
    assert f[0..4] == h[0..4] && f[4..8] == h[4..8] && f[8..16] == h[8..16] && f[16..24] == h[16..24];
    assert f[24..32] == h[24..32] && f[32..64] == h[32..64];
    assert h[24..32] == BE(4, 0) + BE(4, 0);
  }

  lemma {:induction false} BodyLength(es: seq<Entry>)
    ensures |Body(es)| == ENTRY_SIZE * |es|
  {
    BlocksLength(Map(EntryBytes, es), ENTRY_SIZE);
  }

  lemma {:induction false} ZeroWords()
    ensures BE(8, 0) == BE(4, 0) + BE(4, 0)
  {
    BigEndian(0);
  }

  /** What is accepted, and what is made of it. */
  lemma {:induction false} ParseTells(sha256: Digest, data: Bytes)
    ensures Parse(sha256, data) == Err(TooShort) <==> |data| < 96
    ensures Parse(sha256, data) == Err(BadMagic) <==> |data| >= 96 && data[..4] != [0x54, 0x53, 0x43, 3]
    ensures Parse(sha256, data) == Err(Checksum)
            <==> |data| >= 96 && data[..4] == [0x54, 0x53, 0x43, 3]
                 && sha256(data[..|data| - 32]) != data[|data| - 32..]
    ensures Parse(sha256, data).Ok?
            <==> |data| >= 96 && data[..4] == [0x54, 0x53, 0x43, 3]
                 && sha256(data[..|data| - 32]) == data[|data| - 32..]
                 && (|data| - 96) / 40 == UnBE(data[8..16])
    ensures Parse(sha256, data).Ok? ==>
              var r := Parse(sha256, data).value;
              && r.sha == data[|data| - 32..] && |r.entries| == UnBE(data[8..16])
              && r.header.chunkCount == UnBE(data[8..16]) && r.header.totalChunkSize == UnBE(data[16..24])
              && forall i :: 0 <= i < |r.entries| ==> EntryReads(data, r.entries[i], 64 + 40 * i)
  {
    hide UnBE;
    if Parse(sha256, data).Ok? {
      var r := Parse(sha256, data).value;
      forall i | 0 <= i < |r.entries| ensures EntryReads(data, r.entries[i], 64 + 40 * i) { EntryReadsAt(data, i); }
    }
  }

  ghost predicate EntryReads(data: Bytes, e: Entry, off: nat) {
    && off + 40 <= |data|
    && e.sha == data[off..off + 32] && e.size == UnBE(data[off + 32..off + 36])
    && e.level == UnBE(data[off + 36..off + 38]) && e.flags == UnBE(data[off + 38..off + 40])
  }

  lemma {:induction false} EntryReadsAt(data: Bytes, i: nat)
    requires |data| >= HEADER_SIZE + FOOTER_SIZE && i < Room(data)
    ensures EntryReads(data, EntryAt(data, i), 64 + 40 * i)
  {
    hide UnBE;
    var off := 64 + 40 * i;
    SubSlice(data, off, off + 40, 0, 32);
    SubSlice(data, off, off + 40, 32, 36);
    SubSlice(data, off, off + 40, 36, 38);
    SubSlice(data, off, off + 40, 38, 40);
  }
}
