/** The manifest file: writing, parsing and patching (tsm/tsm.go). */
module TsmFormat {
  import opened Bytes
  import opened Sorting
  import opened TsmEntry

  const HEADER_SIZE := 64
  const FOOTER_SIZE := 64
  const MAGIC: Bytes := [0x54, 0x53, 0x4d, 3]

  type Eight = b: Bytes | |b| == 8 witness Zeros(8)

  datatype Header = Header(
    flags: u32, fileCount: u64, totalSize: u64, chunkFileRef: Eight, creationTime: i64, fsUUID: Eight)

  function HeaderBytes(h: Header): (b: Bytes)
    ensures |b| == HEADER_SIZE
  {
    MAGIC + BE(4, h.flags) + BE(8, h.fileCount) + BE(8, h.totalSize) + h.chunkFileRef
      + BE(8, ToU64(h.creationTime)) + h.fsUUID + Zeros(16)
  }

  function DecodeHeader(b: Bytes): Header
    requires |b| >= HEADER_SIZE
  {
    Header(Get32(b[4..8]), Get64(b[8..16]), Get64(b[16..24]), b[24..32], ToI64(Get64(b[32..40])), b[40..48])
  }

  lemma {:induction false} HeaderRoundTrip(h: Header)
    ensures HeaderBytes(h)[..4] == MAGIC && DecodeHeader(HeaderBytes(h)) == h
  {
    hide BE, Get32, Get64;
    var b := HeaderBytes(h);
    assert b[4..8] == BE(4, h.flags) && b[8..16] == BE(8, h.fileCount) && b[16..24] == BE(8, h.totalSize);
    assert b[24..32] == h.chunkFileRef && b[32..40] == BE(8, ToU64(h.creationTime)) && b[40..48] == h.fsUUID;
    GetPut32(h.flags);
    GetPut64(h.fileCount);
    GetPut64(h.totalSize);
    GetPut64(ToU64(h.creationTime));
  }

  // -------------------------------------------------------- the reference table

  function RefBytes(refs: seq<u32>): Bytes { Flatten(Map(RefByte, refs)) }
  function RefByte(r: u32): (b: Bytes) ensures |b| == 4 { BE(4, r) }

  function RefAt(s: Bytes, i: nat): u32
    requires 4 * i + 4 <= |s|
  {
    Get32(s[4 * i..4 * i + 4])
  }

  function RefsOf(s: Bytes): (refs: seq<u32>)
    ensures |refs| == |s| / 4 && forall i :: 0 <= i < |refs| ==> refs[i] == RefAt(s, i)
  {
    seq(|s| / 4, i requires 0 <= i < |s| / 4 => RefAt(s, i))
  }

  lemma {:induction false} RefsRoundTrip(refs: seq<u32>)
    ensures |RefBytes(refs)| == 4 * |refs| && RefsOf(RefBytes(refs)) == refs
  {
    BlocksLength(Map(RefByte, refs), 4);
    forall i | 0 <= i < |refs| ensures RefAt(RefBytes(refs), i) == refs[i] {
      BlockAt(Map(RefByte, refs), 4, i);
      GetPut32(refs[i]);
    }
  }

  /** The parsed table encodes back to the bytes it came from. */
  lemma {:induction false} RefsBack(s: Bytes)
    requires |s| % 4 == 0
    ensures RefBytes(RefsOf(s)) == s
    decreases |s|
  {
    if s != [] {
      var t := s[4..];
      RefsBack(t);
      var refs := RefsOf(s);
      forall i | 0 <= i < |t| / 4 ensures refs[1..][i] == RefsOf(t)[i] {
        assert s[4 * (i + 1)..4 * (i + 1) + 4] == t[4 * i..4 * i + 4];
      }
      assert refs[1..] == RefsOf(t);
      assert Map(RefByte, refs)[1..] == Map(RefByte, refs[1..]);
      BEofUnBE(s[..4]);
      assert s == s[..4] + t;
    }
  }

  // ------------------------------------------------------------------- identity

  /** What the identity digest covers: no ctime and no atime. */
  function HashInput(header: Bytes, es: seq<Entry>, table: seq<u32>): Bytes {
    header + Flatten(Map(EncodeForHash, es)) + RefBytes(table)
  }

  // -------------------------------------------------------------------- parsing

  /** The entry loop of ParseTSM on the bytes from the first entry to the footer. */
  function ParseEntries(s: Bytes, n: nat): Result<(seq<Entry>, Bytes)>
    decreases n
  {
    if n == 0 then Ok(([], s))
    else if |s| < 2 then Err(Truncated)
    else
      var len := Get16(s[..2]);
      if len < 58 then Err(BadLength)
      else if len > |s| then Err(EntryPastEnd)
      else
        match Decode(s[..len])
        case Err(why) => Err(why)
        case Ok(e) =>
          match ParseEntries(s[len..], n - 1)
          case Err(why) => Err(why)
          case Ok((es, rest)) => Ok(([e] + es, rest))
  }

  /** Parsing one well-formed entry off the front. */
  lemma {:induction false} ParseCons(b: Bytes, t: Bytes, n: nat)
    requires n > 0 && |b| >= 58 && Get16(b[..2]) == |b| && Decode(b).Ok?
    ensures ParseEntries(b + t, n) ==
            match ParseEntries(t, n - 1) {
              case Ok((es, rest)) => Ok(([Decode(b).value] + es, rest))
              case Err(why) => Err(why)
            }
  {
    hide Get16, Decode;
    assert (b + t)[..2] == b[..2] && (b + t)[..|b|] == b && (b + t)[|b|..] == t;
  }

  lemma {:induction false} ParseUncons(s: Bytes, n: nat)
    requires n > 0 && ParseEntries(s, n).Ok?
    ensures |s| >= 2 && 58 <= Get16(s[..2]) <= |s|
    ensures var len := Get16(s[..2]);
            && Get16(s[..len][..2]) == len && Decode(s[..len]).Ok? && ParseEntries(s[len..], n - 1).Ok?
            && var (es, rest) := ParseEntries(s[len..], n - 1).value;
            ParseEntries(s, n) == Ok(([Decode(s[..len]).value] + es, rest))
  {
    hide Get16, Decode;
    var len := Get16(s[..2]);
    assert s[..len][..2] == s[..2];
  }

  predicate RefsFit(e: Entry, table: seq<u32>) {
    e.chunkCount > 0 ==> e.chunkStart + e.chunkCount <= |table|
  }

  function WithRefs(e: Entry, table: seq<u32>): Entry {
    if e.chunkCount > 0 && RefsFit(e, table) then e.(chunkRefs := table[e.chunkStart..e.chunkStart + e.chunkCount])
    else e
  }

  function AllWithRefs(es: seq<Entry>, table: seq<u32>): (r: seq<Entry>)
    ensures |r| == |es| && forall i :: 0 <= i < |es| ==> r[i] == WithRefs(es[i], table)
  {
    seq(|es|, i requires 0 <= i < |es| => WithRefs(es[i], table))
  }

  datatype Reader = Reader(header: Header, entries: seq<Entry>, table: seq<u32>, sha: Sha, tscSha: Sha)

  /** What ParseTSM does once the entries are decoded. */
  function Finish(sha256: Digest, header: Bytes, es: seq<Entry>, rest: Bytes, footer: Bytes): Result<Reader>
    requires |header| == HEADER_SIZE && |footer| == FOOTER_SIZE
  {
    if |rest| % 4 != 0 then Err(RefTableSize)
    else
      var table := RefsOf(rest);
      var computed := sha256(HashInput(header, es, table));
      if computed != footer[..32] then Err(Checksum)
      else if forall i :: 0 <= i < |es| ==> RefsFit(es[i], table)
      then Ok(Reader(DecodeHeader(header), AllWithRefs(es, table), table, computed, footer[32..]))
      else Err(RefRange)
  }

  /** ParseTSM. */
  function Parse(sha256: Digest, data: Bytes): Result<Reader> {
    if |data| < HEADER_SIZE + FOOTER_SIZE then Err(TooShort)
    else if data[..4] != MAGIC then Err(BadMagic)
    else
      var footer := data[|data| - FOOTER_SIZE..];
      match ParseEntries(data[HEADER_SIZE..|data| - FOOTER_SIZE], DecodeHeader(data).fileCount)
      case Err(why) => Err(why)
      case Ok((es, rest)) => Finish(sha256, data[..HEADER_SIZE], es, rest, footer)
  }

  // -------------------------------------------------------------------- patching

  function PatchedEntry(e: Entry, ctimes: map<Bytes, i64>): Entry {
    if e.path in ctimes then e.(ctime := ctimes[e.path]) else e
  }

  /** The entries a patch leaves: exactly the mapped paths carry the new ctime. */
  function PatchedEntries(es: seq<Entry>, ctimes: map<Bytes, i64>): (r: seq<Entry>)
    ensures |r| == |es| && forall i :: 0 <= i < |es| ==> r[i] == PatchedEntry(es[i], ctimes)
  {
    Map(e => PatchedEntry(e, ctimes), es)
  }

  /** One entry's bytes with its ctime replaced. */
  function PatchOne(b: Bytes, ctimes: map<Bytes, i64>): (r: Bytes)
    requires |b| >= 58 && 58 + Get16(b[2..4]) <= |b|
    ensures |r| == |b|
  {
    var n := Get16(b[2..4]);
    var path := b[4..4 + n];
    if path in ctimes then b[..34 + n] + BE(8, ToU64(ctimes[path])) + b[42 + n..] else b
  }

  lemma {:induction false} PatchHead(b: Bytes, ctimes: map<Bytes, i64>)
    requires |b| >= 58 && 58 + Get16(b[2..4]) <= |b|
    ensures var r, n := PatchOne(b, ctimes), Get16(b[2..4]);
            && r[..2] == b[..2] && r[2..4] == b[2..4] && r[4..4 + n] == b[4..4 + n]
            && r[58 + n..] == b[58 + n..]
  {
    hide Get16, BE;
  }

  lemma {:induction false} PatchFixed(path: Bytes, f: Bytes, c: i64)
    requires |f| == 54
    ensures DecodeFixed(path, f[..30] + BE(8, ToU64(c)) + f[38..]) == DecodeFixed(path, f).(ctime := c)
  {
    hide Get16, Get32, Get64, BE;
    var g := f[..30] + BE(8, ToU64(c)) + f[38..];
    assert g[..2] == f[..2] && g[2..6] == f[2..6] && g[6..10] == f[6..10] && g[10..14] == f[10..14];
    assert g[14..22] == f[14..22] && g[22..30] == f[22..30] && g[30..38] == BE(8, ToU64(c));
    assert g[38..46] == f[38..46] && g[46..50] == f[46..50] && g[50..54] == f[50..54];
    GetPut64(ToU64(c));
  }

  lemma {:induction false} TypeDataIgnoresCtime(e: Entry, b: Bytes, c: i64)
    ensures WithTypeData(e.(ctime := c), b) ==
            match WithTypeData(e, b) { case Ok(x) => Ok(x.(ctime := c)) case Err(why) => Err(why) }
    ensures match WithTypeData(e, b) { case Ok(x) => x.path == e.path case Err(_) => true }
  {
    hide Get16, Get32;
  }

  lemma {:induction false} PatchOneDecodes(b: Bytes, ctimes: map<Bytes, i64>)
    requires |b| >= 58 && Decode(b).Ok?
    ensures 58 + Get16(b[2..4]) <= |b|
    ensures Decode(PatchOne(b, ctimes)) == Ok(PatchedEntry(Decode(b).value, ctimes))
  {
    hide Get16, WithTypeData, DecodeFixed;
    var n := Get16(b[2..4]);
    PatchHead(b, ctimes);
    var path, f := b[4..4 + n], b[4 + n..58 + n];
    FixedPath(path, f);
    if path in ctimes {
      var c := ctimes[path];
      PatchFixed(path, f, c);
      assert PatchOne(b, ctimes)[4 + n..58 + n] == f[..30] + BE(8, ToU64(c)) + f[38..];
      TypeDataIgnoresCtime(DecodeFixed(path, f), b[58 + n..], c);
    } else {
      TypeDataIgnoresCtime(DecodeFixed(path, f), b[58 + n..], 0);
    }
  }

  lemma {:induction false} FixedPath(path: Bytes, f: Bytes)
    requires |f| == 54
    ensures DecodeFixed(path, f).path == path
  {
  }

  /** The patched bytes of n entries and whatever follows them. */
  function PatchEntries(s: Bytes, n: nat, ctimes: map<Bytes, i64>): (r: Bytes)
    requires ParseEntries(s, n).Ok?
    ensures |r| == |s|
    decreases n
  {
    if n == 0 then s
    else
      var len := Get16(s[..2]);
      PatchOneDecodes(s[..len], ctimes);
      PatchOne(s[..len], ctimes) + PatchEntries(s[len..], n - 1, ctimes)
  }

  lemma {:induction false} PatchEntriesParse(s: Bytes, n: nat, ctimes: map<Bytes, i64>)
    requires ParseEntries(s, n).Ok?
    ensures var (es, rest) := ParseEntries(s, n).value;
            ParseEntries(PatchEntries(s, n, ctimes), n) == Ok((PatchedEntries(es, ctimes), rest))
    decreases n
  {
    hide Get16, Decode, ParseEntries, PatchOne;
    if n == 0 {
      ParseNone(s);
      assert PatchedEntries([], ctimes) == [];
    } else {
      ParseUncons(s, n);
      var len := Get16(s[..2]);
      var b, t := s[..len], s[len..];
      PatchOneDecodes(b, ctimes);
      PatchHead(b, ctimes);
      PatchEntriesParse(t, n - 1, ctimes);
      ParseCons(PatchOne(b, ctimes), PatchEntries(t, n - 1, ctimes), n);
      PatchedCons(Decode(b).value, ParseEntries(t, n - 1).value.0, ctimes);
    }
  }

  lemma {:induction false} ParseNone(s: Bytes)
    ensures ParseEntries(s, 0) == Ok(([], s))
  {
  }

  lemma {:induction false} PatchedCons(e: Entry, es: seq<Entry>, ctimes: map<Bytes, i64>)
    ensures PatchedEntries([e] + es, ctimes) == [PatchedEntry(e, ctimes)] + PatchedEntries(es, ctimes)
  {
  }

  function Overwrite(s: Bytes, at: nat, d: Bytes): (r: Bytes)
    requires at + |d| <= |s|
    ensures |r| == |s|
  {
    s[..at] + d + s[at + |d|..]
  }

  /** One turn of the loop of PatchEntryCtimes: lengths and paths are read from
      data, a ctime is written to out. */
  function PatchTurn(data: Bytes, out: Bytes, off: nat, ctimes: map<Bytes, i64>): (r: Result<(Bytes, nat)>)
    requires |data| == |out| && |data| >= HEADER_SIZE + FOOTER_SIZE
    ensures r.Ok? ==> |r.value.0| == |out|
  {
    var contentLen := |data| - FOOTER_SIZE;
    if off + 4 > contentLen then Err(Truncated)
    else
      var len, pathLen := Get16(data[off..off + 2]), Get16(data[off + 2..off + 4]);
      if len < 58 then Err(BadLength)
      else if off + len > contentLen then Err(EntryPastEnd)
      else if off + 4 + pathLen > contentLen then Err(PathPastEntry)
      else
        var path := data[off + 4..off + 4 + pathLen];
        if path !in ctimes then Ok((out, off + len))
        else
          var at := off + 34 + pathLen;
          if at + 8 > contentLen then Err(CtimePastEnd)
          else Ok((Overwrite(out, at, BE(8, ToU64(ctimes[path]))), off + len))
  }

  function PatchLoop(data: Bytes, out: Bytes, off: nat, n: nat, ctimes: map<Bytes, i64>): Result<Bytes>
    requires |data| == |out| && |data| >= HEADER_SIZE + FOOTER_SIZE
    decreases n
  {
    if n == 0 then Ok(out)
    else
      match PatchTurn(data, out, off, ctimes)
      case Err(why) => Err(why)
      case Ok((out', off')) => PatchLoop(data, out', off', n - 1, ctimes)
  }

  /** PatchEntryCtimes. */
  function Patch(data: Bytes, ctimes: map<Bytes, i64>): Result<Bytes> {
    if |data| < HEADER_SIZE + FOOTER_SIZE then Err(TooShort)
    else PatchLoop(data, data, HEADER_SIZE, Get64(data[8..16]), ctimes)
  }

  method PatchEntryAt(data: Bytes, out: array<byte>, offset: nat, ctimes: map<Bytes, i64>) returns (r: Result<nat>)
    requires out.Length == |data| >= HEADER_SIZE + FOOTER_SIZE
    modifies out
    ensures PatchTurn(data, old(out[..]), offset, ctimes)
         == match r { case Ok(next) => Ok((out[..], next)) case Err(why) => Err(why) }
  {
    hide Get16, BE, Overwrite;
    var contentLen := |data| - FOOTER_SIZE;
    if offset + 4 > contentLen { return Err(Truncated); }
    var entryLen := Get16(data[offset..offset + 2]);
    if entryLen < 58 { return Err(BadLength); }
    if offset + entryLen > contentLen { return Err(EntryPastEnd); }
    var pathLen := Get16(data[offset + 2..offset + 4]);
    if offset + 4 + pathLen > contentLen { return Err(PathPastEntry); }
    var path := data[offset + 4..offset + 4 + pathLen];
    if path in ctimes {
      var at := offset + 34 + pathLen;
      if at + 8 > contentLen { return Err(CtimePastEnd); }
      PutAt(out, at, BE(8, ToU64(ctimes[path])));
    }
    r := Ok(offset + entryLen);
  }

  method PatchEntryCtimes(data: Bytes, ctimes: map<Bytes, i64>) returns (r: Result<Bytes>)
    ensures r == Patch(data, ctimes)
  {
    hide Get64, PatchTurn;
    if |data| < HEADER_SIZE + FOOTER_SIZE { return Err(TooShort); }
    var fileCount := Get64(data[8..16]);
    var out := new byte[|data|](i requires 0 <= i < |data| => data[i]);
    assert out[..] == data;
    var offset: nat := HEADER_SIZE;
    var seen := 0;
    while seen < fileCount
      invariant seen <= fileCount && out.Length == |data|
      invariant PatchLoop(data, out[..], offset, fileCount - seen, ctimes) == Patch(data, ctimes)
    {
      var next := PatchEntryAt(data, out, offset, ctimes);
      if next.Err? { return Err(next.reason); }
      offset := next.value;
      seen := seen + 1;
    }
    r := Ok(out[..]);
  }

  method PutAt(out: array<byte>, at: nat, d: Bytes)
    requires at + |d| <= out.Length
    modifies out
    ensures out[..] == Overwrite(old(out[..]), at, d)
  {
    forall i | 0 <= i < |d| { out[at + i] := d[i]; }
  }

  /** A turn on a whole entry goes through. */
  lemma {:induction false} TurnIs(data: Bytes, out: Bytes, off: nat, end: nat, len: nat, ctimes: map<Bytes, i64>)
    requires |data| == |out| && |data| >= HEADER_SIZE + FOOTER_SIZE
    requires off + len <= end == |data| - FOOTER_SIZE && len >= 58
    requires var b := data[off..end][..len]; Get16(b[..2]) == len && 58 + Get16(b[2..4]) <= len
    ensures PatchTurn(data, out, off, ctimes) == Ok((Turned(out, off, data[off..end][..len], ctimes), off + len))
  {
    hide Get16, BE, Overwrite;
    var s := data[off..end];
    EntrySlices(data, off, end, len, Get16(s[..len][2..4]));
    assert s[..len][..2] == s[..2];
  }

  lemma {:induction false} PatchLoopIs(data: Bytes, out: Bytes, off: nat, n: nat, ctimes: map<Bytes, i64>)
    requires |data| == |out| && |data| >= HEADER_SIZE + FOOTER_SIZE
    requires off <= |data| - FOOTER_SIZE && out[off..] == data[off..]
    requires ParseEntries(data[off..|data| - FOOTER_SIZE], n).Ok?
    ensures var end := |data| - FOOTER_SIZE;
            PatchLoop(data, out, off, n, ctimes)
            == Ok(out[..off] + PatchEntries(data[off..end], n, ctimes) + data[end..])
    decreases n
  {
    hide Get16, Decode, ParseEntries, BE, PatchTurn, Overwrite, PatchOne;
    var end := |data| - FOOTER_SIZE;
    var s := data[off..end];
    if n == 0 {
      SplitAt(out, off);
      SplitAt(data[off..], end - off);
      DropDrop(data, off, end - off);
      DropTake(data, off, end - off);
      ParseNone(s);
      Assoc(out[..off], s, data[end..]);
    } else {
      ParseUncons(s, n);
      var len := Get16(s[..2]);
      var b := s[..len];
      PatchOneDecodes(b, ctimes);
      SliceDrop(data, off, end, len);
      PatchStep(data, out, off, end, len, ctimes);
      var out' := Turned(out, off, b, ctimes);
      TurnIs(data, out, off, end, len, ctimes);
      PatchLoopIs(data, out', off + len, n - 1, ctimes);
      Assoc(out[..off], PatchOne(b, ctimes), PatchEntries(s[len..], n - 1, ctimes));
    }
  }

  lemma {:induction false} EntrySlices(data: Bytes, off: nat, end: nat, len: nat, n: nat)
    requires off + len <= end <= |data| && len >= 58 && 4 + n <= len
    ensures var s := data[off..end];
            && s[..2] == data[off..off + 2] && s[..len] == data[off..off + len]
            && s[..len][2..4] == data[off + 2..off + 4]
            && s[..len][4..4 + n] == data[off + 4..off + 4 + n]
            && s[len..] == data[off + len..end]
  {
    SliceTake(data, off, end, len);
    SliceTake(data, off, end, 2);
    SubSlice(data, off, off + len, 2, 4);
    SubSlice(data, off, off + len, 4, 4 + n);
  }

  lemma {:induction false} OverwriteWithin(s: Bytes, off: nat, b: Bytes, at: nat, d: Bytes)
    requires at + |d| <= |b| && off + |b| <= |s| && s[off..off + |b|] == b
    ensures var r := Overwrite(s, off + at, d);
            r[..off + |b|] == s[..off] + Overwrite(b, at, d) && r[off + |b|..] == s[off + |b|..]
  {
  }

  lemma {:induction false} SameBlock(data: Bytes, out: Bytes, off: nat, len: nat)
    requires |data| == |out| && off + len <= |data| && out[off..] == data[off..]
    ensures out[off..off + len] == data[off..off + len] && out[off + len..] == data[off + len..]
    ensures out[..off + len] == out[..off] + data[off..off + len]
  {
    DropTake(data, off, len);
    DropTake(out, off, len);
    DropDrop(data, off, len);
    DropDrop(out, off, len);
    TakeTake(out, off, len);
  }

  lemma {:induction false} TakeTake(s: Bytes, off: nat, len: nat)
    requires off + len <= |s|
    ensures s[..off + len] == s[..off] + s[off..off + len]
  {
  }

  /** What one turn makes of out, the entry's bytes being b. */
  function Turned(out: Bytes, off: nat, b: Bytes, ctimes: map<Bytes, i64>): Bytes
    requires |b| >= 58 && 58 + Get16(b[2..4]) <= |b| && off + |b| <= |out|
  {
    var n := Get16(b[2..4]);
    var path := b[4..4 + n];
    if path in ctimes then Overwrite(out, off + 34 + n, BE(8, ToU64(ctimes[path]))) else out
  }

  /** One turn of the loop, seen from the patched bytes. */
  lemma {:induction false} PatchStep(data: Bytes, out: Bytes, off: nat, end: nat, len: nat, ctimes: map<Bytes, i64>)
    requires |data| == |out| && off + len <= end <= |data| && len >= 58 && out[off..] == data[off..]
    requires 58 + Get16(data[off..end][..len][2..4]) <= len
    ensures var b := data[off..end][..len];
            var out' := Turned(out, off, b, ctimes);
            && |out'| == |out| && out'[off + len..] == data[off + len..]
            && out'[..off + len] == out[..off] + PatchOne(b, ctimes)
  {
    hide Get16, BE, Overwrite, PatchOne, Turned;
    var b := data[off..end][..len];
    SliceTake(data, off, end, len);
    SameBlock(data, out, off, len);
    TurnedIs(out, off, b, ctimes);
  }

  lemma {:induction false} TurnedIs(out: Bytes, off: nat, b: Bytes, ctimes: map<Bytes, i64>)
    requires |b| >= 58 && 58 + Get16(b[2..4]) <= |b| && off + |b| <= |out| && out[off..off + |b|] == b
    ensures var out' := Turned(out, off, b, ctimes);
            && |out'| == |out| && out'[off + |b|..] == out[off + |b|..]
            && out'[..off + |b|] == out[..off] + PatchOne(b, ctimes)
  {
    hide Get16, BE, Overwrite, PatchOne;
    var n: nat := Get16(b[2..4]);
    var path := b[4..4 + n];
    PatchOneIs(b, ctimes);
    if path in ctimes {
      OverwriteWithin(out, off, b, 34 + n, BE(8, ToU64(ctimes[path])));
    } else {
      TakeTake(out, off, |b|);
    }
  }

  lemma {:induction false} PatchOneIs(b: Bytes, ctimes: map<Bytes, i64>)
    requires |b| >= 58 && 58 + Get16(b[2..4]) <= |b|
    ensures var n := Get16(b[2..4]);
            var path := b[4..4 + n];
            PatchOne(b, ctimes)
            == if path in ctimes then Overwrite(b, 34 + n, BE(8, ToU64(ctimes[path]))) else b
  {
    hide Get16, BE;
  }

  /** Patching ctimes never changes what a manifest is: the result parses, with
      the same identity, the same references, and the same entries but for the
      ctimes of exactly the mapped paths. */
  lemma {:induction false} PatchKeepsIdentity(sha256: Digest, data: Bytes, ctimes: map<Bytes, i64>)
    requires Parse(sha256, data).Ok?
    ensures Patch(data, ctimes).Ok?
    ensures var r := Parse(sha256, data).value;
            Parse(sha256, Patch(data, ctimes).value) == Ok(r.(entries := PatchedEntries(r.entries, ctimes)))
  {
    hide Get16, Get64, Decode, ParseEntries, BE, Finish;
    var end := |data| - FOOTER_SIZE;
    var s, count := data[HEADER_SIZE..end], DecodeHeader(data).fileCount;
    PatchLoopIs(data, data, HEADER_SIZE, count, ctimes);
    var t := PatchEntries(s, count, ctimes);
    var out := data[..HEADER_SIZE] + t + data[end..];
    assert Patch(data, ctimes) == Ok(out);
    PatchEntriesParse(s, count, ctimes);
    assert out[..4] == data[..4] && out[..HEADER_SIZE] == data[..HEADER_SIZE];
    assert out[HEADER_SIZE..end] == t && out[end..] == data[end..];
    HeaderPrefix(out, data);
    var (es, rest) := ParseEntries(s, count).value;
    FinishPatched(sha256, data[..HEADER_SIZE], es, rest, data[end..], ctimes);
  }

  lemma {:induction false} HeaderPrefix(a: Bytes, b: Bytes)
    requires |a| >= HEADER_SIZE && |b| >= HEADER_SIZE && a[..HEADER_SIZE] == b[..HEADER_SIZE]
    ensures DecodeHeader(a) == DecodeHeader(b)
  {
    forall i, j | 0 <= i <= j <= HEADER_SIZE ensures a[i..j] == b[i..j] {
      SubSlice(a, 0, HEADER_SIZE, i, j);
      SubSlice(b, 0, HEADER_SIZE, i, j);
    }
  }

  lemma {:induction false} FinishPatched(sha256: Digest, header: Bytes, es: seq<Entry>, rest: Bytes, footer: Bytes,
                                         ctimes: map<Bytes, i64>)
    requires |header| == HEADER_SIZE && |footer| == FOOTER_SIZE
    requires Finish(sha256, header, es, rest, footer).Ok?
    ensures var r := Finish(sha256, header, es, rest, footer).value;
            Finish(sha256, header, PatchedEntries(es, ctimes), rest, footer)
            == Ok(r.(entries := PatchedEntries(r.entries, ctimes)))
  {
    hide RefsOf, EncodeForHash, DecodeHeader, PatchedEntries, RefsFit, AllWithRefs, Map;
    PatchedHashes(es, ctimes);
    PatchedRefs(es, RefsOf(rest), ctimes);
  }

  lemma {:induction false} PatchedHashes(es: seq<Entry>, ctimes: map<Bytes, i64>)
    ensures Map(EncodeForHash, PatchedEntries(es, ctimes)) == Map(EncodeForHash, es)
  {
    hide Encode, PatchedEntries;
  }

  lemma {:induction false} PatchedRefs(es: seq<Entry>, table: seq<u32>, ctimes: map<Bytes, i64>)
    ensures forall i :: 0 <= i < |es| ==> RefsFit(PatchedEntries(es, ctimes)[i], table) == RefsFit(es[i], table)
    ensures AllWithRefs(PatchedEntries(es, ctimes), table) == PatchedEntries(AllWithRefs(es, table), ctimes)
  {
    hide PatchedEntries, AllWithRefs;
  }

  // ---------------------------------------------------------- field by field in the file

  /** Where the fields of the header stand. */
  lemma {:induction false} HeaderFields(h: Header)
    ensures var b := HeaderBytes(h);
            && b[0..4] == [0x54, 0x53, 0x4d, 3] && b[4..8] == BE(4, h.flags) && b[8..16] == BE(8, h.fileCount)
            && b[16..24] == BE(8, h.totalSize) && b[24..32] == h.chunkFileRef
            && b[32..40] == BE(8, if h.creationTime < 0 then h.creationTime + U64 else h.creationTime)
            && b[40..48] == h.fsUUID && b[48..64] == Zeros(16)
  {
    hide BE;
    var b := HeaderBytes(h);
    assert b == b[..48] + Zeros(16);
    assert b[48..64] == Zeros(16);
  }

  /** What an accepted manifest has been checked for, and where its parts come from. */
  lemma {:induction false} ParseTells(sha256: Digest, data: Bytes)
    requires Parse(sha256, data).Ok?
    ensures var r, n := Parse(sha256, data).value, |data|;
            && n >= 128 && data[..4] == [0x54, 0x53, 0x4d, 3]
            && r.sha == data[n - 64..n - 32] && r.tscSha == data[n - 32..]
            && |r.entries| == r.header.fileCount == UnBE(data[8..16]) && r.header.totalSize == UnBE(data[16..24])
            && r.header.chunkFileRef == data[24..32]
            && forall i :: 0 <= i < |r.entries| ==>
                 var e := r.entries[i];
                 && (e.chunkCount == 0 ==> e.chunkRefs == [])
                 && (e.chunkCount > 0 ==>
                       e.chunkStart + e.chunkCount <= |r.table|
                       && e.chunkRefs == r.table[e.chunkStart..e.chunkStart + e.chunkCount])
  {
    hide ParseEntries, HashInput, RefsOf, UnBE;
    var n := |data|;
    var (es, rest) := ParseEntries(data[HEADER_SIZE..n - FOOTER_SIZE], DecodeHeader(data).fileCount).value;
    ParsedBlank(data[HEADER_SIZE..n - FOOTER_SIZE], DecodeHeader(data).fileCount);
    HeaderPrefix(data, data[..HEADER_SIZE]);
    assert data[n - FOOTER_SIZE..][..32] == data[n - 64..n - 32] && data[n - FOOTER_SIZE..][32..] == data[n - 32..];
  }

  lemma {:induction false} ParsedBlank(s: Bytes, n: nat)
    requires ParseEntries(s, n).Ok?
    ensures |ParseEntries(s, n).value.0| == n
    ensures forall i :: 0 <= i < n ==> ParseEntries(s, n).value.0[i].chunkRefs == []
    decreases n
  {
    hide Get16, Decode;
    if n > 0 {
      ParseUncons(s, n);
      var len := Get16(s[..2]);
      DecodedBlank(s[..len]);
      ParsedBlank(s[len..], n - 1);
    }
  }

  lemma {:induction false} DecodedBlank(b: Bytes)
    requires |b| >= 58 && Decode(b).Ok?
    ensures Decode(b).value.chunkRefs == []
  {
    hide Get16, Get32, Get64;
  }

  /** Where the entry loop of the parser stops before it decodes an entry. */
  lemma {:induction false} ParseStops(s: Bytes, n: nat)
    requires n > 0
    ensures var r := ParseEntries(s, n);
            if |s| < 2 then r == Err(Truncated)
            else (UnBE(s[..2]) < 58 ==> r == Err(BadLength))
                 && (58 <= UnBE(s[..2]) && |s| < UnBE(s[..2]) ==> r == Err(EntryPastEnd))
  {
    hide Decode, UnBE;
  }

  /** Where the patching loop stops, and why: it looks at no byte of the footer. */
  lemma {:induction false} TurnStops(data: Bytes, out: Bytes, off: nat, ctimes: map<Bytes, i64>)
    requires |data| == |out| >= 128
    ensures var r, end := PatchTurn(data, out, off, ctimes), |data| - 64;
            && (r == Err(Truncated) <==> end < off + 4)
            && (off + 4 <= end ==>
                  var len, n := UnBE(data[off..off + 2]), UnBE(data[off + 2..off + 4]);
                  && (r == Err(BadLength) <==> len < 58)
                  && (r == Err(EntryPastEnd) <==> 58 <= len && end < off + len)
                  && (r == Err(PathPastEntry) <==> 58 <= len && off + len <= end < off + 4 + n)
                  && (r == Err(CtimePastEnd)
                      <==> 58 <= len && off + len <= end && off + 4 + n <= end < off + 42 + n
                           && data[off + 4..off + 4 + n] in ctimes))
  {
    hide UnBE, BE, Overwrite;
  }

  /** Exactly which byte strings parse. */
  lemma {:induction false} ParsesIff(sha256: Digest, data: Bytes)
    ensures Parse(sha256, data).Ok?
            <==> |data| >= 128 && data[..4] == [0x54, 0x53, 0x4d, 3]
                 && var p := ParseEntries(data[64..|data| - 64], UnBE(data[8..16]));
                 && p.Ok? && |p.value.1| % 4 == 0
                 && var table := RefsOf(p.value.1);
                 && sha256(HashInput(data[..64], p.value.0, table)) == data[|data| - 64..|data| - 32]
                 && forall i :: 0 <= i < |p.value.0| ==>
                      p.value.0[i].chunkCount > 0 ==>
                        p.value.0[i].chunkStart + p.value.0[i].chunkCount <= |table|
  {
    hide ParseEntries, HashInput, RefsOf, UnBE;
    if |data| >= 128 {
      var n := |data|;
      HeaderPrefix(data, data[..HEADER_SIZE]);
      assert data[n - FOOTER_SIZE..][..32] == data[n - 64..n - 32];
    }
  }

  /** Why the others do not, the first reason counting. */
  lemma {:induction false} ParseFails(sha256: Digest, data: Bytes)
    ensures |data| < 128 ==> Parse(sha256, data) == Err(TooShort)
    ensures |data| >= 128 && data[..4] != [0x54, 0x53, 0x4d, 3] ==> Parse(sha256, data) == Err(BadMagic)
    ensures |data| >= 128 && data[..4] == [0x54, 0x53, 0x4d, 3] ==>
              var p, r := ParseEntries(data[64..|data| - 64], UnBE(data[8..16])), Parse(sha256, data);
              && (p.Err? ==> r == Err(p.reason))
              && (p.Ok? && |p.value.1| % 4 != 0 ==> r == Err(RefTableSize))
              && (p.Ok? && |p.value.1| % 4 == 0 && r.Err? ==>
                    var sha := sha256(HashInput(data[..64], p.value.0, RefsOf(p.value.1)));
                    r == Err(if sha != data[|data| - 64..|data| - 32] then Checksum else RefRange))
  {
    hide ParseEntries, HashInput, RefsOf, UnBE;
    if |data| >= 128 {
      var n := |data|;
      HeaderPrefix(data, data[..HEADER_SIZE]);
      assert data[n - FOOTER_SIZE..][..32] == data[n - 64..n - 32];
    }
  }
}
