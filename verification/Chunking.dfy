/** Content-defined chunking (tsm/chunking.go): one recursive cut function, and
    the streaming chunker that must agree with it however its reader behaves. */
module Chunking {
  import opened Bytes
  import opened Bits
  import R = Rollsum

  const BLOB_BITS := 13
  const BLOB_SIZE := 8192
  const BLOB_MAX := 32768
  const BLOB_READ_SIZE := 1048576
  const FANOUT_BITS := 4

  // ------------------------------------------------------------- split points

  /** A chunk may end after s: the low 13 bits of the second sum are all ones. */
  predicate SplitsAfter(s: Bytes) {
    R.S2(s) % BLOB_SIZE == BLOB_SIZE - 1
  }

  /** The shortest prefix of at least k bytes that ends in a split, or 0. */
  function SplitFrom(s: Bytes, k: nat): (p: nat)
    requires 1 <= k <= |s| + 1
    ensures p == 0 || k <= p <= |s|
    decreases |s| - k
  {
    if k == |s| + 1 then 0
    else if SplitsAfter(s[..k]) then k
    else SplitFrom(s, k + 1)
  }

  function FirstSplit(s: Bytes): (p: nat)
    ensures p <= |s|
  {
    SplitFrom(s, 1)
  }

  lemma {:induction false} SplitFromIs(s: Bytes, k: nat)
    requires 1 <= k <= |s| + 1
    ensures var p := SplitFrom(s, k);
            && (p != 0 ==> SplitsAfter(s[..p]))
            && (forall j :: k <= j <= |s| && (p == 0 || j < p) ==> !SplitsAfter(s[..j]))
    decreases |s| - k
  {
    if k <= |s| && !SplitsAfter(s[..k]) { SplitFromIs(s, k + 1); }
  }

  /** Trailing one-bits of n. */
  function Ones(n: nat): nat {
    if n % 2 == 1 then 1 + Ones(n / 2) else 0
  }

  /** The level of a chunk that ends in a split; bit 13 of the digest is skipped. */
  function SplitLevel(s: Bytes): nat {
    Ones(R.DigestOf(s) / 16384) / FANOUT_BITS
  }

  lemma {:induction false} OnesBound(n: nat)
    ensures n >= Pow2(Ones(n)) - 1
  {
    if n % 2 == 1 { OnesBound(n / 2); }
  }

  lemma {:induction false} Pow2Monotone(a: nat, b: nat)
    requires a <= b
    ensures Pow2(a) <= Pow2(b)
  {
    if a < b { Pow2Monotone(a, b - 1); }
  }

  /** The uint16(level) cast never truncates: levels stop at 4. */
  lemma {:induction false} LevelBound(s: Bytes)
    ensures SplitLevel(s) <= 4
  {
    R.Bounds(s);
    var n := R.DigestOf(s) / 16384;
    assert n <= 73219;
    OnesBound(n);
    assert Pow2(17) == 131072 by {
      assert Pow2(4) == 16 && Pow2(8) == 256 && Pow2(12) == 4096 && Pow2(16) == 65536;
    }
    if Ones(n) >= 17 { Pow2Monotone(17, Ones(n)); }
  }

  lemma {:induction false} OnesAre(n: nat)
    ensures (forall k :: 0 <= k < Ones(n) ==> Bit(n, k)) && !Bit(n, Ones(n))
  {
    if n % 2 == 1 {
      OnesAre(n / 2);
      forall k | 0 <= k < Ones(n) ensures Bit(n, k) { assert k > 0 ==> Bit(n / 2, k - 1); }
    }
  }

  lemma {:induction false} LowBits(v: nat, k: nat)
    requires k < 13
    ensures Bit(v, k) == Bit(v % 8192, k) && Bit(8191, k)
  {
    Literals();
    Concat(v / 8192, v % 8192, 13, k);
    AllOnes(13, k);
  }

  /** The low 13 bits are all ones. */
  ghost predicate LowOnes(v: nat) { forall k :: 0 <= k < 13 ==> Bit(v, k) }

  lemma {:induction false} LowOnesIff(v: nat)
    ensures LowOnes(v) <==> v % 8192 == 8191
  {
    hide Bit;
    Literals();
    forall k | 0 <= k < 13 ensures Bit(v, k) == Bit(v % 8192, k) && Bit(8191, k) { LowBits(v, k); }
    if LowOnes(v) { SameBits(v % 8192, 8191, 13); }
  }

  /** A split is where the low 13 bits of the second sum are all ones. */
  lemma {:induction false} SplitsIff(s: Bytes)
    ensures SplitsAfter(s) <==> LowOnes(R.S2(s))
  {
    hide R.S2, LowOnes;
    LowOnesIff(R.S2(s));
  }

  /** The digest is the first sum above the low 16 bits of the second. */
  lemma {:induction false} DigestBits(s: Bytes, k: nat)
    ensures Bit(R.DigestOf(s), k) == if k < 16 then Bit(R.S2(s), k) else Bit(R.S1(s), k - 16)
  {
    hide R.S1, R.S2, Bit;
    Literals();
    Concat(R.S1(s), R.S2(s) % 65536, 16, k);
    Concat(R.S2(s) / 65536, R.S2(s) % 65536, 16, k);
  }

  /** The level: of the bits from the 14th up, n are ones before the first zero, and each
      four of them are one level. */
  lemma {:induction false} LevelIs(s: Bytes, n: nat)
    requires (forall k :: 14 <= k < 14 + n ==> Bit(R.DigestOf(s), k)) && !Bit(R.DigestOf(s), 14 + n)
    ensures SplitLevel(s) == n / 4
  {
    hide R.DigestOf, Bit;
    Literals();
    var d := R.DigestOf(s);
    var h := d / 16384;
    OnesAre(h);
    forall k: nat ensures Bit(d, 14 + k) == Bit(h, k) { Concat(h, d % 16384, 14, 14 + k); }
    forall k | 0 <= k < n ensures Bit(h, k) { assert Bit(d, 14 + k); }
    SameRun(h, n, Ones(h));
  }

  lemma {:induction false} SameRun(v: nat, m: nat, n: nat)
    requires (forall k :: 0 <= k < m ==> Bit(v, k)) && !Bit(v, m)
    requires (forall k :: 0 <= k < n ==> Bit(v, k)) && !Bit(v, n)
    ensures m == n
  {
    hide Bit;
  }

  /** The inner loop of findSplitPoint: rsum has lost its low 13 bits already. */
  method CountBits(digest: nat) returns (bits: nat)
    ensures bits == BLOB_BITS + Ones(digest / 16384)
  {
    bits := BLOB_BITS;
    var rsum: nat := digest / BLOB_SIZE;
    while (rsum / 2) % 2 != 0
      invariant bits + Ones(rsum / 2) == BLOB_BITS + Ones(digest / 16384)
      decreases rsum
    {
      bits := bits + 1;
      rsum := rsum / 2;
    }
  }

  /** findSplitPoint. */
  method FindSplitPoint(buf: Bytes) returns (ofs: nat, bits: nat)
    ensures ofs == FirstSplit(buf)
    ensures ofs > 0 ==> bits == 13 + Ones(R.DigestOf(buf[..ofs]) / 16384)
    ensures ofs == 0 ==> bits == 0
  {
    var r := new R.Sum();
    var count := 0;
    assert buf[..0] == [];
    while count < |buf|
      invariant 0 <= count <= |buf|
      invariant fresh(r) && fresh(r.window) && r.Read(buf[..count])
      invariant SplitFrom(buf, 1) == SplitFrom(buf, count + 1)
    {
      r.Roll(buf[count], buf[..count]);
      TakeSnoc(buf, count);
      if r.s2 % BLOB_SIZE == BLOB_SIZE - 1 {
        var rsum := r.Value(buf[..count + 1]);
        bits := CountBits(rsum);
        return count + 1, bits;
      }
      count := count + 1;
    }
    return 0, 0;
  }

  // --------------------------------------------------------------- the cut rule

  /** How much of a non-empty stream its first chunk takes. */
  function Cut(s: Bytes): (n: nat)
    requires s != []
    ensures 1 <= n <= |s| && n <= BLOB_MAX
  {
    var p := FirstSplit(s);
    if 0 < p <= BLOB_MAX then p else Min(BLOB_MAX, |s|)
  }

  /** The chunks of a whole stream. */
  function Chunks(s: Bytes): (cs: seq<Bytes>)
    decreases |s|
  {
    if s == [] then [] else [s[..Cut(s)]] + Chunks(s[Cut(s)..])
  }

  /** The level of a chunk, as a function of its bytes alone. */
  function Level(c: Bytes): nat {
    if c != [] && FirstSplit(c) == |c| then SplitLevel(c) else 0
  }

  /** What the callback is given for a chunk. */
  datatype Record = Record(sha: Sha, size: u32, level: u16)

  function RecordOf(blob: Digest, c: Bytes): Record
    requires |c| <= BLOB_READ_SIZE
  {
    LevelBound(c);
    Record(blob(c), |c|, Level(c))
  }

  predicate Small(cs: seq<Bytes>) { forall c :: c in cs ==> |c| <= BLOB_READ_SIZE }

  function RecordsOf(blob: Digest, cs: seq<Bytes>): (rs: seq<Record>)
    requires Small(cs)
    ensures |rs| == |cs|
  {
    seq(|cs|, i requires 0 <= i < |cs| => RecordOf(blob, cs[i]))
  }

  /** Chunks lose nothing, are never empty and never exceed BLOB_MAX. */
  lemma {:induction false} ChunksTile(s: Bytes)
    ensures Flatten(Chunks(s)) == s
    ensures forall c :: c in Chunks(s) ==> 1 <= |c| <= BLOB_MAX
    decreases |s|
  {
    if s != [] {
      ChunksTile(s[Cut(s)..]);
      assert s == s[..Cut(s)] + s[Cut(s)..];
    }
  }

  lemma {:induction false} ChunksSmall(s: Bytes)
    ensures Small(Chunks(s))
  {
    ChunksTile(s);
  }

  lemma {:induction false} ChunksCons(s: Bytes) returns (n: nat, rest: seq<Bytes>)
    requires Chunks(s) != []
    ensures s != [] && n == Cut(s) && 1 <= n <= |s| && rest == Chunks(s[n..]) && Chunks(s) == [s[..n]] + rest
  {
    n, rest := Cut(s), Chunks(s[Cut(s)..]);
  }

  /** Restarting at any chunk boundary gives the remaining chunks. */
  lemma {:induction false} Restart(s: Bytes, k: nat)
    requires k <= |Chunks(s)|
    ensures var b := |Flatten(Chunks(s)[..k])|;
            b <= |s| && Chunks(s[b..]) == Chunks(s)[k..]
    decreases k
  {
    hide Chunks, Flatten;
    if k == 0 {
      FlattenNone();
      assert Chunks(s)[..0] == [] && s[0..] == s;
    } else {
      var n, rest := ChunksCons(s);
      ConsSlices(s[..n], rest, k);
      Restart(s[n..], k - 1);
      FlattenConcat([s[..n]], rest[..k - 1]);
      FlattenOne(s[..n]);
      DropDrop(s, n, |Flatten(rest[..k - 1])|);
    }
  }

  /** Two streams that reach a boundary with the same bytes left share every
      later chunk: the deduplication the format is for. */
  lemma {:induction false} SharedTail(s: Bytes, t: Bytes, i: nat, j: nat)
    requires i <= |Chunks(s)| && j <= |Chunks(t)|
    requires Flatten(Chunks(s)[i..]) == Flatten(Chunks(t)[j..])
    ensures Chunks(s)[i..] == Chunks(t)[j..]
  {
    var a, b := |Flatten(Chunks(s)[..i])|, |Flatten(Chunks(t)[..j])|;
    Restart(s, i);
    Restart(t, j);
    ChunksTile(s[a..]);
    ChunksTile(t[b..]);
  }

  // ------------------------------------------------ deciding on a partial buffer

  /** Scanning longer input finds the same first split, if there was one. */
  lemma {:induction false} SplitPrefix(d: Bytes, more: Bytes)
    ensures FirstSplit(d) > 0 ==> FirstSplit(d + more) == FirstSplit(d)
    ensures FirstSplit(d) == 0 ==> FirstSplit(d + more) == 0 || FirstSplit(d + more) > |d|
  {
    var s := d + more;
    assert forall j :: 0 <= j <= |d| ==> s[..j] == d[..j];
    var p, q := FirstSplit(d), FirstSplit(s);
    SplitFromIs(d, 1);
    SplitFromIs(s, 1);
    if q != 0 && q <= |d| {
      assert SplitsAfter(d[..q]);
    }
    if p != 0 {
      assert SplitsAfter(s[..p]);
    }
  }

  /** A buffer from which a chunk can be cut without seeing more input. */
  predicate Decided(d: Bytes) {
    d != [] && (FirstSplit(d) > 0 || |d| >= BLOB_MAX)
  }

  lemma {:induction false} DecidedCut(d: Bytes, more: Bytes)
    requires Decided(d)
    ensures Cut(d + more) == Cut(d)
    ensures (d + more)[..Cut(d)] == d[..Cut(d)]
    ensures (d + more)[Cut(d)..] == d[Cut(d)..] + more
  {
    SplitPrefix(d, more);
    var n := Cut(d);
    assert (d + more)[n..] == d[n..] + more;
  }

  /** The chunks cut from a buffer while more input may follow, and what stays. */
  function FullCuts(d: Bytes): seq<Bytes>
    decreases |d|
  {
    if Decided(d) then [d[..Cut(d)]] + FullCuts(d[Cut(d)..]) else []
  }

  function Residue(d: Bytes): (r: Bytes)
    ensures !Decided(r) && |r| < BLOB_MAX
    decreases |d|
  {
    if Decided(d) then Residue(d[Cut(d)..]) else d
  }

  lemma {:induction false} FullCutsAre(d: Bytes, more: Bytes)
    ensures Chunks(d + more) == FullCuts(d) + Chunks(Residue(d) + more)
    decreases |d|
  {
    if Decided(d) {
      DecidedCut(d, more);
      FullCutsAre(d[Cut(d)..], more);
    }
  }

  lemma {:induction false} FullCutsSmall(d: Bytes)
    ensures Small(FullCuts(d))
    decreases |d|
  {
    if Decided(d) { FullCutsSmall(d[Cut(d)..]); }
  }

  /** An undecided non-empty buffer, once the input ends, is one chunk. */
  lemma {:induction false} LastChunk(r: Bytes)
    requires !Decided(r)
    ensures Chunks(r) == if r == [] then [] else [r]
  {
    if r != [] {
      assert r[..|r|] == r && r[|r|..] == [];
    }
  }

  // ------------------------------------------------------------------ the reader

  /** How a reader ends: end of file or an error, on a read of its own or together
      with the last bytes. */
  datatype Ending = EofAlone | EofWithData | Fails | FailsWithData

  predicate Errs(ending: Ending) { ending == Fails || ending == FailsWithData }

  datatype Status = More | Eof | Failed

  /** How many bytes the next Read returns: plan[0], as far as buffer and stream allow. */
  function ReadLength(room: nat, rest: Bytes, plan: seq<nat>): nat {
    Min(Min(room, |rest|), if plan == [] then |rest| else plan[0])
  }

  function NextPlan(plan: seq<nat>): seq<nat> { if plan == [] then [] else plan[1..] }

  /** An io.Reader over a fixed stream. plan says how it fragments its answers
      (0 is an empty read without error): what a reader may do is a plan and an
      ending. */
  class Reader {
    var rest: Bytes
    var plan: seq<nat>
    const ending: Ending

    constructor (stream: Bytes, plan: seq<nat>, ending: Ending)
      ensures rest == stream && this.plan == plan && this.ending == ending
    {
      rest, this.plan, this.ending := stream, plan, ending;
    }

    method Read(room: nat) returns (got: Bytes, status: Status)
      modifies this
      ensures |got| == ReadLength(room, old(rest), old(plan))
      ensures got == old(rest)[..|got|] && rest == old(rest)[|got|..]
      ensures plan == NextPlan(old(plan))
      ensures status == StatusAfter(old(rest), rest, ending)
      ensures status != More <==>
                old(rest) == [] || (rest == [] && (ending == EofWithData || ending == FailsWithData))
      ensures status == Failed ==> ending == Fails || ending == FailsWithData
      ensures status == Eof ==> ending == EofAlone || ending == EofWithData
    {
      var n := ReadLength(room, rest, plan);
      got := rest[..n];
      status := StatusAfter(rest, rest[n..], ending);
      rest := rest[n..];
      plan := NextPlan(plan);
    }
  }

  function StatusAfter(before: Bytes, after: Bytes, ending: Ending): Status {
    if before == [] then (if Errs(ending) then Failed else Eof)
    else if after == [] && ending == EofWithData then Eof
    else if after == [] && ending == FailsWithData then Failed
    else More
  }

  // ---------------------------------------------------------- the stream, purely

  /** The branch that ends a buffer at end of file (tsm/chunking.go:160-163):
      without a split everything left is one chunk, whatever its size. */
  function LastCuts(d: Bytes): seq<Bytes>
    decreases |d|
  {
    if d == [] then []
    else if FirstSplit(d) == 0 then [d]
    else [d[..Cut(d)]] + LastCuts(d[Cut(d)..])
  }

  /** The chunks chunkStream emits: leftover is carried between reads. */
  function Run(leftover: Bytes, rest: Bytes, plan: seq<nat>, ending: Ending): seq<Bytes>
    requires |leftover| < BLOB_MAX
    decreases |rest| + |plan|
  {
    if rest == [] then Final(leftover, ending)
    else
      var n := ReadLength(BLOB_READ_SIZE - |leftover|, rest, plan);
      if n == 0 then Run(leftover, rest, NextPlan(plan), ending)
      else
        var d := leftover + rest[..n];
        if n == |rest| && ending == EofWithData then LastCuts(d)
        else FullCuts(d) + Run(Residue(d), rest[n..], NextPlan(plan), ending)
  }

  /** Read independence: end of file on its own gives the chunks of the stream,
      for every fragmentation. */
  lemma {:induction false} RunIsChunks(leftover: Bytes, rest: Bytes, plan: seq<nat>)
    requires !Decided(leftover) && |leftover| < BLOB_MAX
    ensures Run(leftover, rest, plan, EofAlone) == Chunks(leftover + rest)
    decreases |rest| + |plan|
  {
    if rest == [] {
      LastChunk(leftover);
      assert leftover + rest == leftover;
    } else {
      var n := ReadLength(BLOB_READ_SIZE - |leftover|, rest, plan);
      if n == 0 {
        RunIsChunks(leftover, rest, NextPlan(plan));
      } else {
        var d := leftover + rest[..n];
        assert d + rest[n..] == leftover + rest;
        FullCutsAre(d, rest[n..]);
        RunIsChunks(Residue(d), rest[n..], NextPlan(plan));
      }
    }
  }

  /** After a read error, what was emitted is a prefix of the chunks of every
      stream that begins with the bytes read. */
  lemma {:induction false} FailureIsPrefix(leftover: Bytes, rest: Bytes, plan: seq<nat>, ending: Ending, more: Bytes)
    requires !Decided(leftover) && |leftover| < BLOB_MAX && Errs(ending)
    ensures Run(leftover, rest, plan, ending) <= Chunks(leftover + rest + more)
    decreases |rest| + |plan|
  {
    if rest != [] {
      var n := ReadLength(BLOB_READ_SIZE - |leftover|, rest, plan);
      if n == 0 {
        FailureIsPrefix(leftover, rest, NextPlan(plan), ending, more);
      } else {
        var d := leftover + rest[..n];
        Rejoin(leftover, rest, n, more);
        FullCutsAre(d, rest[n..] + more);
        Assoc(Residue(d), rest[n..], more);
        FailureIsPrefix(Residue(d), rest[n..], NextPlan(plan), ending, more);
      }
    }
  }

  lemma {:induction false} Rejoin(leftover: Bytes, rest: Bytes, n: nat, more: Bytes)
    requires n <= |rest|
    ensures leftover + rest[..n] + (rest[n..] + more) == leftover + rest + more
  {
    SplitAt(rest, n);
    Assoc(leftover, rest[..n], rest[n..] + more);
    Assoc(rest[..n], rest[n..], more);
    Assoc(leftover, rest, more);
  }

  // ------------------------------------- end of file together with the last bytes

  /** Some chunk boundary leaves more than BLOB_MAX bytes, few enough for one
      read, in which no split point lies. */
  predicate Oversized(s: Bytes)
    decreases |s|
  {
    s != [] && ((FirstSplit(s) == 0 && BLOB_MAX < |s| <= BLOB_READ_SIZE) || Oversized(s[Cut(s)..]))
  }

  lemma {:induction false} LastCutsAgree(d: Bytes)
    requires !Oversized(d) && |d| <= BLOB_READ_SIZE
    ensures LastCuts(d) == Chunks(d)
    decreases |d|
  {
    if d != [] && FirstSplit(d) != 0 {
      LastCutsAgree(d[Cut(d)..]);
    } else if d != [] {
      assert d[..|d|] == d && d[|d|..] == [];
    }
  }

  lemma {:induction false} OversizedResidue(d: Bytes, more: Bytes)
    requires !Oversized(d + more)
    ensures !Oversized(Residue(d) + more)
    decreases |d|
  {
    if Decided(d) {
      DecidedCut(d, more);
      OversizedResidue(d[Cut(d)..], more);
    }
  }

  lemma {:induction false} EofWithDataAgrees(leftover: Bytes, rest: Bytes, plan: seq<nat>)
    requires !Decided(leftover) && |leftover| < BLOB_MAX
    requires !Oversized(leftover + rest)
    ensures Run(leftover, rest, plan, EofWithData) == Chunks(leftover + rest)
    decreases |rest| + |plan|
  {
    if rest == [] {
      LastChunk(leftover);
      assert leftover + rest == leftover;
    } else {
      var n := ReadLength(BLOB_READ_SIZE - |leftover|, rest, plan);
      if n == 0 {
        EofWithDataAgrees(leftover, rest, NextPlan(plan));
      } else {
        var d := leftover + rest[..n];
        assert d + rest[n..] == leftover + rest;
        if n == |rest| {
          assert d == leftover + rest;
          LastCutsAgree(d);
        } else {
          FullCutsAre(d, rest[n..]);
          OversizedResidue(d, rest[n..]);
          EofWithDataAgrees(Residue(d), rest[n..], NextPlan(plan));
        }
      }
    }
  }

  lemma {:induction false} FullCutsConcat(d: Bytes, more: Bytes)
    ensures FullCuts(d + more) == FullCuts(d) + FullCuts(Residue(d) + more)
    ensures Residue(d + more) == Residue(Residue(d) + more)
    decreases |d|
  {
    if Decided(d) {
      DecidedCut(d, more);
      SplitPrefix(d, more);
      FullCutsConcat(d[Cut(d)..], more);
    }
  }

  /** A reader that returns single bytes and then, with end of file, the rest. */
  function Dribble(n: nat, last: nat): seq<nat> {
    if n == 0 then [last] else [1] + Dribble(n - 1, last)
  }

  lemma {:induction false} DribbleRun(leftover: Bytes, x: Bytes, d: Bytes)
    requires !Decided(leftover) && |leftover| < BLOB_MAX
    requires Residue(leftover + x) == [] && 0 < |d| <= BLOB_READ_SIZE
    ensures Run(leftover, x + d, Dribble(|x|, |d|), EofWithData) == FullCuts(leftover + x) + LastCuts(d)
    decreases |x|
  {
    hide FullCuts, LastCuts, Residue, Decided;
    if x == [] {
      assert leftover + x == leftover;
      Undecided(leftover);
      DribbleLast(d);
      assert x + d == d;
      assert [] + LastCuts(d) == LastCuts(d);
    } else {
      var b := leftover + x[..1];
      var plan := Dribble(|x|, |d|);
      assert plan[0] == 1 && NextPlan(plan) == Dribble(|x| - 1, |d|);
      assert ReadLength(BLOB_READ_SIZE - |leftover|, x + d, plan) == 1 < |x + d|;
      assert (x + d)[..1] == x[..1] && (x + d)[1..] == x[1..] + d;
      assert leftover + x == b + x[1..];
      FullCutsConcat(b, x[1..]);
      DribbleRun(Residue(b), x[1..], d);
      Assoc(FullCuts(b), FullCuts(Residue(b) + x[1..]), LastCuts(d));
    }
  }

  lemma {:induction false} Undecided(d: Bytes)
    requires !Decided(d)
    ensures FullCuts(d) == [] && Residue(d) == d
  {
  }

  lemma {:induction false} DribbleLast(d: Bytes)
    requires 0 < |d| <= BLOB_READ_SIZE
    ensures Run([], d, Dribble(0, |d|), EofWithData) == LastCuts(d)
  {
    hide LastCuts;
    assert [] + d[..|d|] == d;
  }

  /** An oversized stream has a reader on which the chunker departs from Chunks. */
  lemma {:induction false} OversizedSplit(s: Bytes) returns (x: Bytes, d: Bytes)
    requires Oversized(s)
    ensures s == x + d && FirstSplit(d) == 0 && BLOB_MAX < |d| <= BLOB_READ_SIZE
    ensures Residue(x) == [] && Chunks(s) == FullCuts(x) + Chunks(d)
    decreases |s|
  {
    if FirstSplit(s) == 0 && BLOB_MAX < |s| <= BLOB_READ_SIZE {
      x, d := [], s;
    } else {
      var c := s[..Cut(s)];
      var y;
      y, d := OversizedSplit(s[Cut(s)..]);
      x := c + y;
      ChunkDecided(s);
      DecidedCut(c, y);
      SplitAt(s, Cut(s));
      Assoc(c, y, d);
      CutConcat(c, y, |c|);
      FirstOfMany(s, c, y, d);
    }
  }

  lemma {:induction false} FirstOfMany(s: Bytes, c: Bytes, y: Bytes, d: Bytes)
    requires s != [] && c == s[..Cut(s)] && Decided(c + y) && Cut(c + y) == |c| && (c + y)[|c|..] == y
    requires Residue(y) == [] && Chunks(s[Cut(s)..]) == FullCuts(y) + Chunks(d)
    ensures Residue(c + y) == [] && Chunks(s) == FullCuts(c + y) + Chunks(d)
  {
    hide Cut, Decided;
    CutConcat(c, y, |c|);
    assert FullCuts(c + y) == [c] + FullCuts(y) && Chunks(s) == [c] + Chunks(s[Cut(s)..]);
    Assoc([c], FullCuts(y), Chunks(d));
  }

  /** Every chunk that is not the last of its stream shows by itself where it ends. */
  lemma {:induction false} ChunkDecided(s: Bytes)
    requires s != [] && Cut(s) < |s|
    ensures Decided(s[..Cut(s)]) && Cut(s[..Cut(s)]) == Cut(s)
  {
    CutIsFinal(s);
  }

  lemma {:induction false} CutIsFinal(s: Bytes)
    requires s != []
    ensures var c := s[..Cut(s)];
            FirstSplit(c) == (if 0 < FirstSplit(s) <= BLOB_MAX then |c| else 0)
  {
    var c := s[..Cut(s)];
    assert s == c + s[Cut(s)..];
    SplitPrefix(c, s[Cut(s)..]);
  }

  // ------------------------------------------------------- falling back into step

  /** Whether a chunk may end is decided by the last WINDOW bytes alone. */
  lemma {:induction false} WindowDecides(s: Bytes)
    requires |s| >= R.WINDOW
    ensures SplitsAfter(s) <==> SplitsAfter(s[|s| - R.WINDOW..])
  {
    hide R.S2;
    var w := s[|s| - R.WINDOW..];
    R.Local(s[..|s| - R.WINDOW], w);
    SplitAt(s, |s| - R.WINDOW);
  }

  ghost function Boundary(s: Bytes, k: nat): nat
    requires k <= |Chunks(s)|
  {
    |Flatten(Chunks(s)[..k])|
  }

  lemma {:induction false} NextChunk(s: Bytes, k: nat)
    requires k < |Chunks(s)|
    ensures Boundary(s, k) < |s| && Boundary(s, k + 1) == Boundary(s, k) + Cut(s[Boundary(s, k)..])
  {
    hide Cut;
    var cs, b := Chunks(s), Boundary(s, k);
    Restart(s, k);
    assert cs[k..][0] == cs[k];
    assert cs[k] == s[b..][..Cut(s[b..])];
    TakeSnoc(cs, k);
    FlattenSnoc(cs[..k], cs[k]);
  }

  /** A window that splits ends a chunk, if it lies inside one. */
  lemma {:induction false} SplitIsBoundary(s: Bytes, k: nat, i: nat)
    requires k < |Chunks(s)| && Boundary(s, k) + R.WINDOW <= i <= Boundary(s, k + 1) && i <= |s|
    requires SplitsAfter(s[i - R.WINDOW..i])
    ensures i == Boundary(s, k + 1)
  {
    hide SplitsAfter, Chunks, Boundary;
    var b := Boundary(s, k);
    NextChunk(s, k);
    var d := s[b..];
    DropTake(s, b, i - b);
    SubSlice(s, b, i, i - b - R.WINDOW, i - b);
    WindowDecides(d[..i - b]);
    SplitFromIs(d, 1);
  }

  /** Two streams that share a splitting window and everything after it, the window
      lying in one chunk of each, have the same chunks from there on, whatever came
      before: the chunker falls back into step. */
  lemma {:induction false} Resync(s: Bytes, t: Bytes, k: nat, l: nat, i: nat, j: nat)
    requires k < |Chunks(s)| && Boundary(s, k) + R.WINDOW <= i <= Boundary(s, k + 1) && i <= |s|
    requires l < |Chunks(t)| && Boundary(t, l) + R.WINDOW <= j <= Boundary(t, l + 1) && j <= |t|
    requires s[i - R.WINDOW..i] == t[j - R.WINDOW..j] && SplitsAfter(s[i - R.WINDOW..i]) && s[i..] == t[j..]
    ensures Chunks(s)[k + 1..] == Chunks(t)[l + 1..]
  {
    hide SplitsAfter, Chunks;
    SplitIsBoundary(s, k, i);
    SplitIsBoundary(t, l, j);
    Restart(s, k + 1);
    Restart(t, l + 1);
  }

  /** An oversized stream has a reader that makes the chunker emit an oversized chunk. */
  lemma {:induction false} OversizedRun(s: Bytes) returns (plan: seq<nat>, c: Bytes)
    requires Oversized(s)
    ensures c in Run([], s, plan, EofWithData) && |c| > BLOB_MAX
  {
    hide Run, FullCuts, Cut, FirstSplit, Residue, Decided;
    var x, d := OversizedSplit(s);
    assert [] + x == x;
    assert !Decided([]) by { NoneDecided(); }
    DribbleRun([], x, d);
    plan, c := Dribble(|x|, |d|), d;
    assert LastCuts(d) == [d] by { LastIsWhole(d); }
    assert (FullCuts(x) + [d])[|FullCuts(x)|] == d;
  }

  lemma {:induction false} NoneDecided()
    ensures !Decided([])
  {
  }

  lemma {:induction false} LastIsWhole(d: Bytes)
    requires d != [] && FirstSplit(d) == 0
    ensures LastCuts(d) == [d]
  {
  }

  /** Exactly when end of file with the last bytes is harmless: iff no boundary
      leaves an unsplittable run longer than BLOB_MAX within one read. */
  lemma {:induction false} EofWithDataExact(s: Bytes)
    ensures (forall plan :: Run([], s, plan, EofWithData) == Chunks(s)) <==> !Oversized(s)
  {
    hide Run, Chunks;
    if !Oversized(s) {
      assert !Decided([]) by { NoneDecided(); }
      assert [] + s == s;
      forall plan ensures Run([], s, plan, EofWithData) == Chunks(s) {
        EofWithDataAgrees([], s, plan);
      }
    } else {
      var plan, c := OversizedRun(s);
      ChunksTile(s);
      assert Run([], s, plan, EofWithData) != Chunks(s);
    }
  }

  /** The same streams are the ones that keep chunks within BLOB_MAX. */
  lemma {:induction false} SizeBoundExact(s: Bytes)
    ensures (forall plan, c :: c in Run([], s, plan, EofWithData) ==> |c| <= BLOB_MAX) <==> !Oversized(s)
  {
    hide Run, Chunks;
    if !Oversized(s) {
      assert !Decided([]) by { NoneDecided(); }
      assert [] + s == s;
      forall plan, c | c in Run([], s, plan, EofWithData) ensures |c| <= BLOB_MAX {
        EofWithDataAgrees([], s, plan);
        ChunksTile(s);
      }
    } else {
      var plan, c := OversizedRun(s);
    }
  }

  /** The failing family is real: a long run of zero bytes never splits. */
  lemma {:induction false} ZerosNeverSplit(n: nat)
    ensures FirstSplit(Zeros(n)) == 0
    ensures BLOB_MAX < n <= BLOB_READ_SIZE ==> Oversized(Zeros(n))
  {
    SplitFromIs(Zeros(n), 1);
    forall j | 1 <= j <= n ensures !SplitsAfter(Zeros(n)[..j]) {
      assert R.Window(Zeros(n)[..j]) == Zeros(R.WINDOW);
      R.SumsOfZeros(R.WINDOW);
      R.WeightClosed(R.WINDOW);
    }
  }

  // ------------------------------------------------------------ the chunker itself

  lemma {:induction false} CutLevel(d: Bytes)
    requires d != []
    ensures var c := d[..Cut(d)];
            Level(c) == if 0 < FirstSplit(d) <= BLOB_MAX then SplitLevel(c) else 0
    ensures FirstSplit(d) == 0 ==> Level(d) == 0
  {
    CutIsFinal(d);
  }

  lemma {:induction false} Emit(blob: Digest, cs: seq<Bytes>, c: Bytes)
    requires Small(cs) && |c| <= BLOB_READ_SIZE
    ensures Small(cs + [c])
    ensures RecordsOf(blob, cs + [c]) == RecordsOf(blob, cs) + [RecordOf(blob, c)]
  {
  }

  lemma {:induction false} EmitAll(blob: Digest, a: seq<Bytes>, b: seq<Bytes>)
    requires Small(a) && Small(b)
    ensures Small(a + b)
    ensures RecordsOf(blob, a + b) == RecordsOf(blob, a) + RecordsOf(blob, b)
  {
  }

  /** The chunks of one buffer and what it leaves, after cs was cut already. */
  ghost function Outcome(eof: bool, cs: seq<Bytes>, d: Bytes): (seq<Bytes>, Bytes) {
    if eof then (cs + LastCuts(d), []) else (cs + FullCuts(d), Residue(d))
  }

  /** How much to take from a buffer; 0 when more input is needed or none is left. */
  function Take(eof: bool, d: Bytes): (n: nat)
    ensures n <= |d|
  {
    if d == [] || (!eof && !Decided(d)) then 0
    else if FirstSplit(d) == 0 && eof then |d|
    else Cut(d)
  }

  lemma {:induction false} OutcomeStep(eof: bool, cs: seq<Bytes>, d: Bytes, n: nat)
    requires Take(eof, d) == n > 0
    ensures Outcome(eof, cs + [d[..n]], d[n..]) == Outcome(eof, cs, d)
  {
    if eof {
      assert d[|d|..] == [] && d[..|d|] == d;
      assert LastCuts(d) == [d[..n]] + LastCuts(d[n..]);
      Assoc(cs, [d[..n]], LastCuts(d[n..]));
    } else {
      Assoc(cs, [d[..n]], FullCuts(d[n..]));
    }
  }

  lemma {:induction false} OutcomeEnd(eof: bool, cs: seq<Bytes>, d: Bytes)
    requires Take(eof, d) == 0
    ensures Outcome(eof, cs, d) == (cs, d)
  {
    assert cs + [] == cs;
  }

  /** The size and level of the next chunk (tsm/chunking.go:141-172). */
  method NextCut(d: Bytes, eof: bool) returns (chunkSize: nat, level: u16)
    ensures chunkSize == Take(eof, d)
    ensures chunkSize > 0 ==> level == Level(d[..chunkSize])
  {
    var ofs, bits := FindSplitPoint(d);
    if d != [] { CutLevel(d); }
    if ofs > 0 {
      chunkSize := ofs;
      if chunkSize > BLOB_MAX {
        chunkSize, level := BLOB_MAX, 0;
      } else {
        LevelBound(d[..ofs]);
        level := (bits - BLOB_BITS) / FANOUT_BITS;
      }
    } else if eof {
      assert d[..|d|] == d;
      chunkSize, level := |d|, 0;
    } else if |d| >= BLOB_MAX {
      chunkSize, level := BLOB_MAX, 0;
    } else {
      chunkSize, level := 0, 0;
    }
  }

  lemma {:induction false} NoRecords(blob: Digest)
    ensures RecordsOf(blob, []) == []
  {
  }

  /** The loop over one buffer. */
  method CutBuffer(data: Bytes, eof: bool, blob: Digest) returns (out: seq<Record>, offset: nat, ghost cs: seq<Bytes>)
    requires |data| <= BLOB_READ_SIZE
    ensures offset <= |data| && Small(cs) && out == RecordsOf(blob, cs)
    ensures (cs, data[offset..]) == Outcome(eof, [], data)
  {
    hide FullCuts, LastCuts, Residue, Outcome, Take, RecordsOf, Level;
    assert RecordsOf(blob, []) == [] by { NoRecords(blob); }
    offset, out, cs := 0, [], [];
    ghost var goal := Outcome(eof, [], data);
    assert data[0..] == data;
    var chunkSize, level := NextCut(data, eof);
    while chunkSize > 0
      invariant offset <= |data| && Outcome(eof, cs, data[offset..]) == goal
      invariant Small(cs) && out == RecordsOf(blob, cs)
      invariant chunkSize == Take(eof, data[offset..])
      invariant chunkSize > 0 ==> level == Level(data[offset..][..chunkSize])
      decreases |data| - offset
    {
      var c := data[offset..][..chunkSize];
      Emit(blob, cs, c);
      OutcomeStep(eof, cs, data[offset..], chunkSize);
      DropDrop(data, offset, chunkSize);
      out, cs, offset := out + [Record(blob(c), chunkSize, level)], cs + [c], offset + chunkSize;
      chunkSize, level := NextCut(data[offset..], eof);
    }
    OutcomeEnd(eof, cs, data[offset..]);
  }

  /** copy(buf[at:], src). */
  method Copy(buf: array<byte>, at: nat, src: Bytes)
    requires at + |src| <= buf.Length
    modifies buf
    ensures buf[..at + |src|] == old(buf[..at]) + src
  {
    forall i | 0 <= i < |src| { buf[at + i] := src[i]; }
  }

  /** The head of the read loop: leftover first, then what the reader gives. */
  method Refill(buf: array<byte>, leftover: Bytes, r: Reader) returns (n: nat, status: Status)
    requires buf.Length == BLOB_READ_SIZE && |leftover| < BLOB_MAX
    modifies buf, r
    ensures n == ReadLength(BLOB_READ_SIZE - |leftover|, old(r.rest), old(r.plan))
    ensures buf[..|leftover| + n] == leftover + old(r.rest)[..n]
    ensures r.rest == old(r.rest)[n..] && r.plan == NextPlan(old(r.plan))
    ensures status == StatusAfter(old(r.rest), r.rest, r.ending)
  {
    Copy(buf, 0, leftover);
    var got;
    got, status := r.Read(BLOB_READ_SIZE - |leftover|);
    n := |got|;
    Copy(buf, |leftover|, got);
  }

  /** What is still to be emitted once reading has stopped. */
  function Final(leftover: Bytes, ending: Ending): seq<Bytes> {
    if Errs(ending) || leftover == [] then [] else [leftover]
  }

  /** What is still to be emitted, before and after one read of n bytes. */
  ghost function ToCome(leftover: Bytes, rest: Bytes, plan: seq<nat>, ending: Ending, status: Status): seq<Bytes>
    requires |leftover| < BLOB_MAX
  {
    if status == More then Run(leftover, rest, plan, ending) else Final(leftover, ending)
  }

  /** What one read hands on: chunks to emit and the bytes kept back. */
  ghost function ReadOutcome(leftover: Bytes, rest: Bytes, n: nat, ending: Ending): (seq<Bytes>, Bytes)
    requires n <= |rest|
  {
    if n == 0 then ([], leftover)
    else Outcome(StatusAfter(rest, rest[n..], ending) == Eof, [], leftover + rest[..n])
  }

  lemma {:induction false} ReadKeepsLittle(leftover: Bytes, rest: Bytes, n: nat, ending: Ending)
    requires !Decided(leftover) && |leftover| < BLOB_MAX && n <= |rest|
    ensures var o := ReadOutcome(leftover, rest, n, ending); !Decided(o.1) && |o.1| < BLOB_MAX
  {
    hide FirstSplit, StatusAfter;
  }

  lemma {:induction false} RunStep(leftover: Bytes, rest: Bytes, plan: seq<nat>, ending: Ending)
    requires !Decided(leftover) && |leftover| < BLOB_MAX
    ensures var n := ReadLength(BLOB_READ_SIZE - |leftover|, rest, plan);
            var o := ReadOutcome(leftover, rest, n, ending);
            && |o.1| < BLOB_MAX
            && Run(leftover, rest, plan, ending)
               == o.0 + ToCome(o.1, rest[n..], NextPlan(plan), ending, StatusAfter(rest, rest[n..], ending))
  {
    hide FirstSplit, Decided, FullCuts, LastCuts, Residue;
    var n := ReadLength(BLOB_READ_SIZE - |leftover|, rest, plan);
    ReadKeepsLittle(leftover, rest, n, ending);
  }

  lemma {:induction false} ReadStep(cs: seq<Bytes>, leftover: Bytes, rest: Bytes, plan: seq<nat>, ending: Ending)
    requires !Decided(leftover) && |leftover| < BLOB_MAX
    ensures var n := ReadLength(BLOB_READ_SIZE - |leftover|, rest, plan);
            var status := StatusAfter(rest, rest[n..], ending);
            var o := ReadOutcome(leftover, rest, n, ending);
            && !Decided(o.1) && |o.1| < BLOB_MAX
            && cs + o.0 + ToCome(o.1, rest[n..], NextPlan(plan), ending, status)
               == cs + ToCome(leftover, rest, plan, ending, More)
  {
    hide FirstSplit, Decided, Run, ReadOutcome, StatusAfter, Final;
    var n := ReadLength(BLOB_READ_SIZE - |leftover|, rest, plan);
    var o := ReadOutcome(leftover, rest, n, ending);
    ReadKeepsLittle(leftover, rest, n, ending);
    RunStep(leftover, rest, plan, ending);
    Assoc(cs, o.0, ToCome(o.1, rest[n..], NextPlan(plan), ending, StatusAfter(rest, rest[n..], ending)));
  }

  lemma {:induction false} ReadShrinks(leftover: Bytes, rest: Bytes, plan: seq<nat>)
    requires |leftover| < BLOB_MAX
    ensures var n := ReadLength(BLOB_READ_SIZE - |leftover|, rest, plan);
            && n <= BLOB_READ_SIZE - |leftover| && n <= |rest|
            && (rest != [] ==> |rest[n..]| + |NextPlan(plan)| < |rest| + |plan|)
  {
  }

  /** chunkStream: what it emits, and that only a read error makes it fail. */
  method ChunkStream(r: Reader, blob: Digest) returns (out: seq<Record>, ok: bool, ghost cs: seq<Bytes>)
    modifies r
    ensures cs == Run([], old(r.rest), old(r.plan), r.ending)
    ensures Small(cs) && out == RecordsOf(blob, cs)
    ensures ok <==> r.ending != Fails && r.ending != FailsWithData
    ensures r.ending == EofAlone ==> cs == Chunks(old(r.rest))
  {
    hide Run, Outcome, FirstSplit, ReadLength;
    ghost var all := Run([], r.rest, r.plan, r.ending);
    assert [] + r.rest == r.rest;
    if r.ending == EofAlone { RunIsChunks([], r.rest, r.plan); }
    var buf := new byte[BLOB_READ_SIZE](_ => 0);
    var leftover: Bytes := [];
    var status := More;
    out, cs := [], [];
    while status == More
      invariant !Decided(leftover) && |leftover| < BLOB_MAX
      invariant Small(cs) && out == RecordsOf(blob, cs)
      invariant cs + ToCome(leftover, r.rest, r.plan, r.ending, status) == all
      invariant status != More ==> (status == Failed <==> Errs(r.ending))
      decreases status == More, |r.rest| + |r.plan|
    {
      ReadStep(cs, leftover, r.rest, r.plan, r.ending);
      ReadShrinks(leftover, r.rest, r.plan);
      var n;
      n, status := Refill(buf, leftover, r);
      if n > 0 {
        var data := buf[..|leftover| + n];
        var more, offset;
        ghost var piece;
        more, offset, piece := CutBuffer(data, status == Eof, blob);
        EmitAll(blob, cs, piece);
        out, cs, leftover := out + more, cs + piece, data[offset..];
      } else {
        assert cs + [] == cs;
      }
    }
    if status == Failed { return out, false, cs; }
    if |leftover| > 0 {
      LevelBound(leftover);
      Emit(blob, cs, leftover);
      out := out + [Record(blob(leftover), |leftover|, 0)];
      cs := cs + [leftover];
    }
    ok := true;
  }
}
