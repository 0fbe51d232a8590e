/** One manifest entry and its encoding (tsm/tsm.go:81-186, 415-504). */
module TsmEntry {
  import opened Bytes
  import opened Bits

  const FILE: byte := 0
  const DIR: byte := 1
  const SYMLINK: byte := 2
  const HARDLINK: byte := 3
  const BLOCKDEV: byte := 4
  const CHARDEV: byte := 5
  const FIFO: byte := 6

  datatype Entry = Entry(
    path: Bytes, typ: byte, flags: u16, mode: u32, uid: u32, gid: u32, size: u64,
    mtime: i64, ctime: i64, atime: i64, chunkStart: u32, chunkCount: u32, chunkRefs: seq<u32>,
    linkTarget: Bytes, linkIndex: u32, devMajor: u32, devMinor: u32)

  function PathOf(e: Entry): Bytes { e.path }

  // ------------------------------------------------------------------- encoding

  function TypeData(e: Entry): Bytes {
    if e.typ == SYMLINK then BE(2, |e.linkTarget| % 0x1_0000) + e.linkTarget
    else if e.typ == HARDLINK then BE(4, e.linkIndex)
    else if e.typ == BLOCKDEV || e.typ == CHARDEV then BE(4, e.devMajor) + BE(4, e.devMinor)
    else []
  }

  /** The 54 bytes between the path and the type-specific data. */
  function Fixed(e: Entry): (b: Bytes)
    ensures |b| == 54
  {
    BE(2, Or(e.typ, e.flags)) + BE(4, e.mode) + BE(4, e.uid) + BE(4, e.gid) + BE(8, e.size)
      + BE(8, ToU64(e.mtime)) + BE(8, ToU64(e.ctime)) + BE(8, ToU64(e.atime))
      + BE(4, e.chunkStart) + BE(4, e.chunkCount)
  }

  function TotalSize(e: Entry): nat { 58 + |e.path| + |TypeData(e)| }

  /** encodeEntry. The two length fields are uint16 and truncate. */
  function Encode(e: Entry): (b: Bytes)
    ensures |b| == TotalSize(e)
  {
    BE(2, TotalSize(e) % 0x1_0000) + BE(2, |e.path| % 0x1_0000) + e.path + Fixed(e) + TypeData(e)
  }

  /** encodeEntryForHash: what the identity digest sees of an entry. */
  function EncodeForHash(e: Entry): Bytes {
    Encode(e.(ctime := 0, atime := 0))
  }

  /** Writes data at off and moves off past it. */
  method Put(buf: array<byte>, off: nat, data: Bytes) returns (next: nat)
    requires off + |data| <= buf.Length
    modifies buf
    ensures next == off + |data|
    ensures buf[..next] == old(buf[..off]) + data
  {
    forall i | 0 <= i < |data| { buf[off + i] := data[i]; }
    next := off + |data|;
  }

  /** encodeEntry, filling a buffer at a running offset. */
  method EncodeEntry(e: Entry) returns (b: Bytes)
    ensures b == Encode(e)
  {
    hide Or, BE, TypeData;
    var buf := new byte[TotalSize(e)];
    assert buf[..0] == [];
    var off := Put(buf, 0, BE(2, TotalSize(e) % 0x1_0000));
    off := Put(buf, off, BE(2, |e.path| % 0x1_0000));
    off := Put(buf, off, e.path);
    ghost var head := buf[..off];
    off := PutFixed(buf, off, e);
    assert buf[..off] == head + Fixed(e);
    off := Put(buf, off, TypeData(e));
    b := buf[..];
    assert b == buf[..off];
  }

  /** Put, with what has been written since start kept in one piece. */
  method PutMore(buf: array<byte>, off: nat, ghost start: Bytes, ghost got: Bytes, data: Bytes)
    returns (next: nat, ghost all: Bytes)
    requires off + |data| <= buf.Length && buf[..off] == start + got
    modifies buf
    ensures next == off + |data| && all == got + data && buf[..next] == start + all
  {
    next := Put(buf, off, data);
    all := got + data;
    Assoc(start, got, data);
  }

  method PutFixed(buf: array<byte>, at: nat, e: Entry) returns (off: nat)
    requires at + 54 <= buf.Length
    modifies buf
    ensures off == at + 54
    ensures buf[..off] == old(buf[..at]) + Fixed(e)
  {
    hide Or, BE;
    ghost var start := buf[..at];
    ghost var got := BE(2, Or(e.typ, e.flags));
    off := Put(buf, at, BE(2, Or(e.typ, e.flags)));
    off, got := PutMore(buf, off, start, got, BE(4, e.mode));
    off, got := PutMore(buf, off, start, got, BE(4, e.uid));
    off, got := PutMore(buf, off, start, got, BE(4, e.gid));
    off, got := PutMore(buf, off, start, got, BE(8, e.size));
    off, got := PutMore(buf, off, start, got, BE(8, ToU64(e.mtime)));
    off, got := PutMore(buf, off, start, got, BE(8, ToU64(e.ctime)));
    off, got := PutMore(buf, off, start, got, BE(8, ToU64(e.atime)));
    off, got := PutMore(buf, off, start, got, BE(4, e.chunkStart));
    off, got := PutMore(buf, off, start, got, BE(4, e.chunkCount));
  }

  // ------------------------------------------------------------------- decoding

  /** The entry that fixed fields describe, its type-specific data still blank. */
  function DecodeFixed(path: Bytes, b: Bytes): Entry
    requires |b| == 54
  {
    var tf := Get16(b[..2]);
    Entry(path, tf % 16, tf - tf % 16, Get32(b[2..6]), Get32(b[6..10]), Get32(b[10..14]), Get64(b[14..22]),
          ToI64(Get64(b[22..30])), ToI64(Get64(b[30..38])), ToI64(Get64(b[38..46])),
          Get32(b[46..50]), Get32(b[50..54]), [], [], 0, 0, 0)
  }

  function WithTypeData(e: Entry, b: Bytes): Result<Entry> {
    if e.typ == SYMLINK then
      if |b| < 2 then Err(TypeDataPastEntry)
      else
        var n := Get16(b[..2]);
        if 2 + n > |b| then Err(TypeDataPastEntry) else Ok(e.(linkTarget := b[2..2 + n]))
    else if e.typ == HARDLINK then
      if |b| < 4 then Err(TypeDataPastEntry) else Ok(e.(linkIndex := Get32(b[..4])))
    else if e.typ == BLOCKDEV || e.typ == CHARDEV then
      if |b| < 8 then Err(TypeDataPastEntry)
      else Ok(e.(devMajor := Get32(b[..4]), devMinor := Get32(b[4..8])))
    else Ok(e)
  }

  /** decodeEntry on the bytes of one entry. */
  function Decode(b: Bytes): Result<Entry>
    requires |b| >= 58
  {
    var n := Get16(b[2..4]);
    if 4 + n > |b| then Err(PathPastEntry)
    else if 58 + n > |b| then Err(Overrun)
    else WithTypeData(DecodeFixed(b[4..4 + n], b[4 + n..58 + n]), b[58 + n..])
  }

  /** What an entry keeps of itself on disk; references live in their own table. */
  function Strip(e: Entry): Entry {
    e.(chunkRefs := [],
       linkTarget := if e.typ == SYMLINK then e.linkTarget else [],
       linkIndex := if e.typ == HARDLINK then e.linkIndex else 0,
       devMajor := if e.typ == BLOCKDEV || e.typ == CHARDEV then e.devMajor else 0,
       devMinor := if e.typ == BLOCKDEV || e.typ == CHARDEV then e.devMinor else 0)
  }

  /** What the writer needs of an entry: a type that fits its nibble, flags that
      leave it alone, and a size that fits its uint16. */
  ghost predicate Encodable(e: Entry) {
    e.typ < 16 && e.flags % 16 == 0 && TotalSize(e) < 0x1_0000
  }

  lemma {:induction false} FixedRoundTrip(e: Entry)
    requires e.typ < 16 && e.flags % 16 == 0
    ensures DecodeFixed(e.path, Fixed(e))
         == e.(chunkRefs := [], linkTarget := [], linkIndex := 0, devMajor := 0, devMinor := 0)
  {
    hide Or, BE, Fixed, Get16, Get32, Get64;
    FixedSlices(e);
    OrNibble(e.typ, e.flags);
    GetPut16(e.typ + e.flags);
    GetPut32(e.mode);
    GetPut32(e.uid);
    GetPut32(e.gid);
    GetPut64(e.size);
    GetPut64(ToU64(e.mtime));
    GetPut64(ToU64(e.ctime));
    GetPut64(ToU64(e.atime));
    GetPut32(e.chunkStart);
    GetPut32(e.chunkCount);
  }

  lemma {:induction false} FixedSlices(e: Entry)
    ensures var b := Fixed(e);
            && b[..2] == BE(2, Or(e.typ, e.flags)) && b[2..6] == BE(4, e.mode) && b[6..10] == BE(4, e.uid)
            && b[10..14] == BE(4, e.gid) && b[14..22] == BE(8, e.size) && b[22..30] == BE(8, ToU64(e.mtime))
            && b[30..38] == BE(8, ToU64(e.ctime)) && b[38..46] == BE(8, ToU64(e.atime))
            && b[46..50] == BE(4, e.chunkStart) && b[50..54] == BE(4, e.chunkCount)
  {
    hide Or, BE;
  }

  lemma {:induction false} TypeDataRoundTrip(e: Entry, blank: Entry)
    requires TotalSize(e) < 0x1_0000
    requires blank == e.(chunkRefs := [], linkTarget := [], linkIndex := 0, devMajor := 0, devMinor := 0)
    ensures WithTypeData(blank, TypeData(e)) == Ok(Strip(e))
  {
    hide Get16, Get32, BE;
    var b := TypeData(e);
    if e.typ == SYMLINK {
      GetPut16(|e.linkTarget|);
      assert b[..2] == BE(2, |e.linkTarget|) && b[2..2 + |e.linkTarget|] == e.linkTarget;
    } else if e.typ == HARDLINK {
      GetPut32(e.linkIndex);
      assert b[..4] == b;
    } else if e.typ == BLOCKDEV || e.typ == CHARDEV {
      GetPut32(e.devMajor);
      GetPut32(e.devMinor);
      assert b[..4] == BE(4, e.devMajor) && b[4..8] == BE(4, e.devMinor);
    }
  }

  lemma {:induction false} EncodeSlices(e: Entry)
    ensures var b, n := Encode(e), |e.path|;
            && b[..2] == BE(2, TotalSize(e) % 0x1_0000) && b[2..4] == BE(2, n % 0x1_0000)
            && b[4..4 + n] == e.path && b[4 + n..58 + n] == Fixed(e) && b[58 + n..] == TypeData(e)
  {
    hide BE, Fixed, TypeData;
  }

  /** Decoding an encoded entry gives back everything an entry keeps on disk. */
  lemma {:induction false} RoundTrip(e: Entry)
    requires Encodable(e)
    ensures Get16(Encode(e)[..2]) == TotalSize(e)
    ensures Decode(Encode(e)) == Ok(Strip(e))
  {
    hide BE, Fixed, TypeData, Get16, Encode, DecodeFixed, WithTypeData, Strip;
    EncodeSlices(e);
    GetPut16(TotalSize(e));
    GetPut16(|e.path|);
    DecodeSliced(Encode(e), |e.path|);
    FixedRoundTrip(e);
    TypeDataRoundTrip(e, DecodeFixed(e.path, Fixed(e)));
  }

  lemma {:induction false} DecodeSliced(b: Bytes, n: nat)
    requires |b| >= 58 + n && Get16(b[2..4]) == n
    ensures Decode(b) == WithTypeData(DecodeFixed(b[4..4 + n], b[4 + n..58 + n]), b[58 + n..])
  {
    hide Get16, DecodeFixed, WithTypeData;
  }

  /** What is not kept on disk does not reach the encoding. */
  lemma {:induction false} EncodeStrip(e: Entry)
    ensures Encode(Strip(e)) == Encode(e) && EncodeForHash(Strip(e)) == EncodeForHash(e)
  {
  }

  // ------------------------------------------------------------- field by field

  /** Where the fields of an encoded entry stand. */
  lemma {:induction false} Layout(e: Entry)
    requires e.typ < 16 && e.flags % 16 == 0
    ensures var b, n := Encode(e), |e.path|;
            && |b| == 58 + n + |b[58 + n..]|
            && b[0..2] == BE(2, |b| % 0x1_0000) && b[2..4] == BE(2, n % 0x1_0000) && b[4..4 + n] == e.path
            && b[4 + n..6 + n] == BE(2, e.typ + e.flags) && b[6 + n..10 + n] == BE(4, e.mode)
            && b[10 + n..14 + n] == BE(4, e.uid) && b[14 + n..18 + n] == BE(4, e.gid)
            && b[18 + n..26 + n] == BE(8, e.size)
            && b[26 + n..34 + n] == BE(8, if e.mtime < 0 then e.mtime + U64 else e.mtime)
            && b[34 + n..42 + n] == BE(8, if e.ctime < 0 then e.ctime + U64 else e.ctime)
            && b[42 + n..50 + n] == BE(8, if e.atime < 0 then e.atime + U64 else e.atime)
            && b[50 + n..54 + n] == BE(4, e.chunkStart) && b[54 + n..58 + n] == BE(4, e.chunkCount)
            && b[58 + n..] == match e.typ {
                 case 2 => BE(2, |e.linkTarget| % 0x1_0000) + e.linkTarget
                 case 3 => BE(4, e.linkIndex)
                 case 4 => BE(4, e.devMajor) + BE(4, e.devMinor)
                 case 5 => BE(4, e.devMajor) + BE(4, e.devMinor)
                 case _ => []
               }
  {
    hide BE, Or, Fixed, Encode;
    var b, n := Encode(e), |e.path|;
    EncodeSlices(e);
    FixedSlices(e);
    OrNibble(e.typ, e.flags);
    assert b[..2] == b[0..2];
    SubSlice(b, 4 + n, 58 + n, 0, 2);
    SubSlice(b, 4 + n, 58 + n, 2, 6);
    SubSlice(b, 4 + n, 58 + n, 6, 10);
    SubSlice(b, 4 + n, 58 + n, 10, 14);
    SubSlice(b, 4 + n, 58 + n, 14, 22);
    SubSlice(b, 4 + n, 58 + n, 22, 30);
    SubSlice(b, 4 + n, 58 + n, 30, 38);
    SubSlice(b, 4 + n, 58 + n, 38, 46);
    SubSlice(b, 4 + n, 58 + n, 46, 50);
    SubSlice(b, 4 + n, 58 + n, 50, 54);
  }

  /** Exactly which bytes decode: the path and the fixed fields fit, and so does what the
      type calls for; what follows is passed over. */
  lemma {:induction false} DecodesIff(b: Bytes)
    requires |b| >= 58
    ensures var n := UnBE(b[2..4]);
            Decode(b).Ok?
            <==> 58 + n <= |b| && var more := |b| - 58 - n;
                 match UnBE(b[4 + n..6 + n]) % 16
                 case 2 => more >= 2 && more >= 2 + UnBE(b[58 + n..60 + n])
                 case 3 => more >= 4
                 case 4 => more >= 8
                 case 5 => more >= 8
                 case _ => true
    ensures var n := UnBE(b[2..4]);
            (Decode(b) == Err(PathPastEntry) <==> |b| < 4 + n) && (Decode(b) == Err(Overrun) <==> 4 + n <= |b| < 58 + n)
  {
    hide UnBE, Get32, Get64;
    var n := UnBE(b[2..4]);
    if 58 + n <= |b| {
      SubSlice(b, 4 + n, 58 + n, 0, 2);
      if |b| >= 60 + n { assert b[58 + n..][..2] == b[58 + n..60 + n]; }
    }
  }
}
