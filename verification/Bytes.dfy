/** Byte strings, digests, big-endian integers and the byte-wise order that
    bytes.Compare and Go string comparison share. */
module Bytes {
  type byte = b: int | 0 <= b < 256
  type Bytes = seq<byte>

  type u16 = x: int | 0 <= x < 0x1_0000
  type u32 = x: int | 0 <= x < 0x1_0000_0000
  type u64 = x: int | 0 <= x < 0x1_0000_0000_0000_0000
  type i64 = x: int | -0x8000_0000_0000_0000 <= x < 0x8000_0000_0000_0000

  const U16 := 0x1_0000
  const U32 := 0x1_0000_0000
  const U64 := 0x1_0000_0000_0000_0000

  /** A SHA-256 digest. */
  type Sha = s: Bytes | |s| == 32 witness Zeros(32)

  /** A digest function. It is always a parameter: nothing is assumed of it. */
  type Digest = Bytes -> Sha

  datatype Option<T> = None | Some(value: T)

  /** Why a .tsc or .tsm file is refused. Overrun is not an error of the source:
      it marks an entry whose fixed fields do not fit its length, which the
      decoder does not check before slicing (tsm/tsm.go:428). */
  datatype Reason =
    | TooShort | BadMagic | Checksum | CountMismatch
    | Truncated | BadLength | EntryPastEnd | PathPastEntry | TypeDataPastEntry | Overrun
    | RefTableSize | RefRange | CtimePastEnd

  datatype Result<T> = Ok(value: T) | Err(reason: Reason)

  function Zeros(n: nat): (z: Bytes)
    ensures |z| == n && forall i :: 0 <= i < n ==> z[i] == 0
  {
    seq(n, _ => 0)
  }

  /** uint32(n) and uint64(n): truncation. */
  function Wrap32(n: nat): u32 { n % 0x1_0000_0000 }
  function Wrap64(n: nat): u64 { n % 0x1_0000_0000_0000_0000 }

  lemma {:induction false} Wrap64Add(a: nat, b: nat)
    ensures Wrap64(Wrap64(a) + b) == Wrap64(a + b)
  {
  }

  function Min(a: int, b: int): int { if a < b then a else b }

  function Max(a: nat, b: nat): nat { if a < b then b else a }

  // ---------------------------------------------- sequence steps, once and for all

  lemma {:induction false} TakeSnoc<T>(s: seq<T>, k: nat)
    requires k < |s|
    ensures s[..k] + [s[k]] == s[..k + 1]
  {
  }

  lemma {:induction false} DropDrop<T>(s: seq<T>, a: nat, b: nat)
    requires a + b <= |s|
    ensures s[a..][b..] == s[a + b..]
  {
  }

  lemma {:induction false} SubSlice<T>(s: seq<T>, a: nat, b: nat, c: nat, d: nat)
    requires c <= d && a + d <= b <= |s|
    ensures s[a..b][c..d] == s[a + c..a + d]
  {
    var t := s[a..b];
    assert forall i :: 0 <= i < d - c ==> t[c..d][i] == t[c + i] == s[a + c + i] == s[a + c..a + d][i];
  }

  lemma {:induction false} DropTake<T>(s: seq<T>, a: nat, n: nat)
    requires a + n <= |s|
    ensures s[a..][..n] == s[a..a + n]
  {
  }

  lemma {:induction false} SliceTake<T>(s: seq<T>, a: nat, b: nat, n: nat)
    requires a + n <= b <= |s|
    ensures s[a..b][..n] == s[a..a + n]
  {
  }

  lemma {:induction false} SliceDrop<T>(s: seq<T>, a: nat, b: nat, n: nat)
    requires a + n <= b <= |s|
    ensures s[a..b][n..] == s[a + n..b]
  {
  }

  lemma {:induction false} SplitAt<T>(s: seq<T>, k: nat)
    requires k <= |s|
    ensures s[..k] + s[k..] == s
  {
  }

  lemma {:induction false} CutConcat<T>(a: seq<T>, b: seq<T>, k: nat)
    requires k <= |a|
    ensures (a + b)[..k] == a[..k] && (a + b)[k..] == a[k..] + b
  {
  }

  lemma {:induction false} ConsSlices<T>(x: T, rest: seq<T>, k: nat)
    requires 1 <= k <= |rest| + 1
    ensures ([x] + rest)[..k] == [x] + rest[..k - 1] && ([x] + rest)[k..] == rest[k - 1..]
  {
  }

  lemma {:induction false} Assoc<T>(a: seq<T>, b: seq<T>, c: seq<T>)
    ensures a + b + c == a + (b + c)
  {
  }

  // ---------------------------------------------------------------- flattening

  function Flatten(ss: seq<Bytes>): Bytes {
    if ss == [] then [] else ss[0] + Flatten(ss[1..])
  }

  lemma {:induction false} FlattenNone()
    ensures Flatten([]) == []
  {
  }

  lemma {:induction false} FlattenOne(b: Bytes)
    ensures Flatten([b]) == b
  {
    var one := [b];
    assert one != [] && one[0] == b && one[1..] == [];
    FlattenNone();
    assert Flatten(one) == one[0] + Flatten(one[1..]);
  }

  lemma {:induction false} FlattenConcat(a: seq<Bytes>, b: seq<Bytes>)
    ensures Flatten(a + b) == Flatten(a) + Flatten(b)
  {
    if a == [] {
      assert a + b == b;
    } else {
      FlattenConcat(a[1..], b);
      CutConcat(a, b, 1);
      Assoc(a[0], Flatten(a[1..]), Flatten(b));
    }
  }

  lemma {:induction false} FlattenSnoc(a: seq<Bytes>, x: Bytes)
    ensures Flatten(a + [x]) == Flatten(a) + x
  {
    FlattenConcat(a, [x]);
    FlattenOne(x);
  }

  lemma {:induction false} OneMoreBlock(size: nat, n: nat)
    ensures size * (n + 1) == size + size * n
  {
  }

  lemma {:induction false} BlocksLength(ss: seq<Bytes>, size: nat)
    requires forall b :: b in ss ==> |b| == size
    ensures |Flatten(ss)| == size * |ss|
  {
    if ss != [] {
      assert |ss[0]| == size;
      BlocksLength(ss[1..], size);
      OneMoreBlock(size, |ss[1..]|);
    }
  }

  /** Blocks of one size lie where multiplication says. */
  lemma {:induction false} BlockAt(ss: seq<Bytes>, size: nat, i: nat)
    requires forall b :: b in ss ==> |b| == size
    requires i < |ss|
    ensures 0 <= size * i && size * i + size <= |Flatten(ss)|
    ensures Flatten(ss)[size * i..size * i + size] == ss[i]
  {
    BlocksLength(ss[..i], size);
    FlattenAround(ss, i);
    InMiddle(Flatten(ss[..i]), ss[i], Flatten(ss[i + 1..]));
  }

  lemma {:induction false} FlattenAround(ss: seq<Bytes>, i: nat)
    requires i < |ss|
    ensures Flatten(ss) == Flatten(ss[..i]) + (ss[i] + Flatten(ss[i + 1..]))
  {
    SplitAt(ss, i);
    FlattenConcat(ss[..i], ss[i..]);
    DropDrop(ss, i, 1);
  }

  lemma {:induction false} InMiddle<T>(a: seq<T>, b: seq<T>, c: seq<T>)
    ensures (a + (b + c))[|a|..|a| + |b|] == b
  {
  }

  // ---------------------------------------------------------- big-endian fields

  function Pow256(k: nat): (p: nat)
    ensures p > 0
  {
    if k == 0 then 1 else 256 * Pow256(k - 1)
  }

  /** The low k bytes of v, most significant first (binary.BigEndian.PutUintN). */
  function BE(k: nat, v: nat): (s: Bytes)
    ensures |s| == k
  {
    if k == 0 then [] else BE(k - 1, v / 256) + [v % 256]
  }

  /** The last four bytes. */
  lemma {:induction false} LastFour(k: nat, v: nat)
    ensures BE(k + 4, v) == BE(k, v / 0x1_0000_0000)
                            + [v / 0x100_0000 % 256, v / 0x1_0000 % 256, v / 0x100 % 256, v % 256]
  {
    assert BE(k + 4, v) == BE(k + 3, v / 256) + [v % 256];
    assert BE(k + 3, v / 256) == BE(k + 2, v / 256 / 256) + [v / 256 % 256];
    assert v / 256 / 256 == v / 0x1_0000 && v / 0x1_0000 / 256 == v / 0x100_0000;
    assert v / 0x100_0000 / 256 == v / 0x1_0000_0000;
    assert BE(k + 2, v / 0x1_0000) == BE(k + 1, v / 0x100_0000) + [v / 0x1_0000 % 256];
    assert BE(k + 1, v / 0x100_0000) == BE(k, v / 0x1_0000_0000) + [v / 0x100_0000 % 256];
  }

  /** Byte by byte, the most significant first. */
  lemma {:induction false} BigEndian(v: nat)
    ensures BE(2, v) == [v / 0x100 % 256, v % 256]
    ensures BE(4, v) == [v / 0x100_0000 % 256, v / 0x1_0000 % 256, v / 0x100 % 256, v % 256]
    ensures BE(8, v) == BE(4, v / 0x1_0000_0000) + BE(4, v)
  {
    assert BE(2, v) == BE(1, v / 256) + [v % 256] && BE(1, v / 256) == [v / 256 % 256];
    LastFour(0, v);
    LastFour(4, v);
    assert BE(0, v / 0x1_0000_0000) == [];
  }

  /** binary.BigEndian.UintN. */
  function UnBE(s: Bytes): nat {
    if s == [] then 0 else 256 * UnBE(s[..|s| - 1]) + s[|s| - 1]
  }

  lemma {:induction false} UnBEofBE(k: nat, v: nat)
    requires v < Pow256(k)
    ensures UnBE(BE(k, v)) == v
  {
    if k != 0 {
      UnBEofBE(k - 1, v / 256);
      assert BE(k, v)[..k - 1] == BE(k - 1, v / 256);
    }
  }

  lemma {:induction false} BEofUnBE(s: Bytes)
    ensures UnBE(s) < Pow256(|s|)
    ensures BE(|s|, UnBE(s)) == s
  {
    if s != [] {
      BEofUnBE(s[..|s| - 1]);
      assert s == s[..|s| - 1] + [s[|s| - 1]];
    }
  }

  lemma {:induction false} Widths()
    ensures Pow256(2) == U16 && Pow256(4) == U32 && Pow256(8) == U64
  {
    assert Pow256(1) == 256;
    assert Pow256(3) == 256 * Pow256(2);
    assert Pow256(5) == 256 * Pow256(4);
    assert Pow256(6) == 256 * Pow256(5);
    assert Pow256(7) == 256 * Pow256(6);
  }

  function Get16(s: Bytes): u16
    requires |s| == 2
  {
    Widths(); BEofUnBE(s); UnBE(s)
  }

  function Get32(s: Bytes): u32
    requires |s| == 4
  {
    Widths(); BEofUnBE(s); UnBE(s)
  }

  function Get64(s: Bytes): u64
    requires |s| == 8
  {
    Widths(); BEofUnBE(s); UnBE(s)
  }

  lemma {:induction false} GetPut16(v: u16)
    ensures Get16(BE(2, v)) == v
  {
    Widths(); UnBEofBE(2, v);
  }

  lemma {:induction false} GetPut32(v: u32)
    ensures Get32(BE(4, v)) == v
  {
    Widths(); UnBEofBE(4, v);
  }

  lemma {:induction false} GetPut64(v: u64)
    ensures Get64(BE(8, v)) == v
  {
    Widths(); UnBEofBE(8, v);
  }

  /** uint64(i) and int64(u): two's complement. */
  function ToU64(i: i64): u64 { if i < 0 then i + U64 else i }
  function ToI64(u: u64): i64 { if u < 0x8000_0000_0000_0000 then u else u - U64 }

  // ------------------------------------------------------------- byte-wise order

  /** bytes.Compare(a, b) < 0, and a < b on Go strings. */
  predicate Less(a: Bytes, b: Bytes) {
    b != [] && (a == [] || a[0] < b[0] || (a[0] == b[0] && Less(a[1..], b[1..])))
  }

  /** k is the first place where the two differ, and a has the smaller byte there. */
  ghost predicate DiffersAt(a: Bytes, b: Bytes, k: nat) {
    k < |a| && k < |b| && a[..k] == b[..k] && a[k] < b[k]
  }

  /** The lexicographic order: a proper prefix comes first, else the first difference
      decides. */
  ghost predicate Before(a: Bytes, b: Bytes) {
    (|a| < |b| && b[..|a|] == a) || exists k: nat :: DiffersAt(a, b, k)
  }

  lemma {:induction false} LessIs(a: Bytes, b: Bytes)
    ensures Less(a, b) <==> Before(a, b)
  {
    if a == [] || b == [] {
    } else if a[0] != b[0] {
      if a[0] < b[0] { assert DiffersAt(a, b, 0); }
      HeadsDiffer(a, b);
    } else {
      LessIs(a[1..], b[1..]);
      BeforeTail(a, b);
    }
  }

  lemma {:induction false} HeadsDiffer(a: Bytes, b: Bytes)
    requires a != [] && b != [] && a[0] != b[0]
    ensures forall k: nat :: 0 < k <= |a| && k <= |b| ==> a[..k] != b[..k]
  {
    forall k: nat | 0 < k <= |a| && k <= |b| ensures a[..k] != b[..k] {
      assert a[..k][0] == a[0] && b[..k][0] == b[0];
    }
  }

  lemma {:induction false} BeforeTail(a: Bytes, b: Bytes)
    requires a != [] && b != [] && a[0] == b[0]
    ensures Before(a, b) <==> Before(a[1..], b[1..])
  {
    assert a == [a[0]] + a[1..] && b == [b[0]] + b[1..];
    if |a| < |b| {
      assert b[..|a|] == [b[0]] + b[1..][..|a| - 1];
      assert b[..|a|][1..] == b[1..][..|a| - 1];
    }
    forall k: nat | DiffersAt(a, b, k) ensures k > 0 && DiffersAt(a[1..], b[1..], k - 1) {
      assert a[..k][1..] == a[1..][..k - 1] && b[..k][1..] == b[1..][..k - 1];
    }
    forall k: nat | DiffersAt(a[1..], b[1..], k) ensures DiffersAt(a, b, k + 1) {
      assert a[..k + 1] == [a[0]] + a[1..][..k] && b[..k + 1] == [b[0]] + b[1..][..k];
    }
  }

  lemma {:induction false} LessTotal(a: Bytes, b: Bytes)
    ensures a == b || Less(a, b) || Less(b, a)
    ensures !(Less(a, b) && Less(b, a))
    ensures a == b ==> !Less(a, b)
  {
    if a != [] && b != [] {
      LessTotal(a[1..], b[1..]);
      assert a == [a[0]] + a[1..] && b == [b[0]] + b[1..];
    }
  }

  lemma {:induction false} LessTransitive(a: Bytes, b: Bytes, c: Bytes)
    requires Less(a, b) && Less(b, c)
    ensures Less(a, c)
  {
    if a != [] && a[0] == b[0] && b[0] == c[0] {
      LessTransitive(a[1..], b[1..], c[1..]);
    }
  }
}
