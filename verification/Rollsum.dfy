/** The bup rolling checksum (tsm/chunking.go:22-52) against its closed form. */
module Rollsum {
  import opened Bytes

  const WINDOW := 64
  const CHAR_OFFSET := 31

  /** What the second sum carries besides the weighted window. */
  const S2_BIAS := 60512

  /** The last WINDOW bytes of s, zero-padded on the left. */
  function Window(s: Bytes): (w: Bytes)
    ensures |w| == WINDOW
  {
    (Zeros(WINDOW) + s)[|s|..]
  }

  function Sum1(w: Bytes): nat {
    if w == [] then 0 else w[0] + CHAR_OFFSET + Sum1(w[1..])
  }

  /** The oldest byte weighs |w|, the newest weighs 1. */
  function Sum2(w: Bytes): nat {
    if w == [] then 0 else |w| * (w[0] + CHAR_OFFSET) + Sum2(w[1..])
  }

  /** The checksum state after s, in closed form. */
  function S1(s: Bytes): nat { Sum1(Window(s)) }
  function S2(s: Bytes): nat { Sum2(Window(s)) + S2_BIAS }

  lemma {:induction false} SumsSnoc(w: Bytes, c: byte)
    ensures Sum1(w + [c]) == Sum1(w) + c + CHAR_OFFSET
    ensures Sum2(w + [c]) == Sum2(w) + Sum1(w + [c])
  {
    if w == [] {
      assert w + [c] == [c] && [c][1..] == [];
    } else {
      SumsSnoc(w[1..], c);
      CutConcat(w, [c], 1);
    }
  }

  /** Sliding the window by one byte, in terms of what leaves and what enters. */
  lemma {:induction false} SumsSlide(w: Bytes, c: byte)
    requires w != []
    ensures Sum1(w[1..] + [c]) == Sum1(w) - w[0] + c
    ensures Sum2(w[1..] + [c]) == Sum2(w) + Sum1(w[1..] + [c]) - |w| * (w[0] + CHAR_OFFSET)
  {
    SumsSnoc(w[1..], c);
  }

  /** 1 + 2 + ... + n, the total weight of a window of n bytes. */
  function Weight(n: nat): nat { if n == 0 then 0 else n + Weight(n - 1) }

  lemma {:induction false} WeightClosed(n: nat)
    ensures 2 * Weight(n) == n * n + n
  {
    if n != 0 {
      WeightClosed(n - 1);
      assert n * n + n == (n - 1) * (n - 1) + (n - 1) + 2 * n;
    }
  }

  lemma {:induction false} Scale(n: nat, x: nat, k: nat)
    requires x <= k
    ensures n * x <= n * k
  {
  }

  lemma {:induction false} SumBounds(w: Bytes)
    ensures 31 * |w| <= Sum1(w) <= 286 * |w|
    ensures Sum2(w) <= 286 * Weight(|w|)
  {
    if w != [] {
      SumBounds(w[1..]);
      Scale(|w|, w[0] + CHAR_OFFSET, 286);
    }
  }

  lemma {:induction false} SumsOfZeros(n: nat)
    ensures Sum1(Zeros(n)) == 31 * n
    ensures Sum2(Zeros(n)) == 31 * Weight(n)
  {
    if n != 0 {
      SumsOfZeros(n - 1);
      assert Zeros(n)[1..] == Zeros(n - 1);
    }
  }

  /** Neither sum comes near the width of a uint32. */
  lemma {:induction false} Bounds(s: Bytes)
    ensures 1984 <= S1(s) <= 18304
    ensures S2_BIAS <= S2(s) <= 655392
  {
    SumBounds(Window(s));
    WeightClosed(WINDOW);
  }

  lemma {:induction false} WindowSnoc(s: Bytes, c: byte)
    ensures Window(s + [c]) == Window(s)[1..] + [c]
  {
    assert Zeros(WINDOW) + (s + [c]) == (Zeros(WINDOW) + s) + [c];
  }

  /** Once a full window has been read, what came before it is forgotten. */
  lemma {:induction false} Local(p: Bytes, s: Bytes)
    requires |s| >= WINDOW
    ensures Window(p + s) == s[|s| - WINDOW..] == Window(s)
    ensures S1(p + s) == S1(s) && S2(p + s) == S2(s)
  {
  }

  /** The wrapping update is the closed form of one more byte. */
  lemma {:induction false} AddIsExact(s: Bytes, c: byte)
    ensures var drop := Window(s)[0];
            && S1(s + [c]) == (S1(s) + (c - drop) % U32) % U32
            && S2(s + [c]) == (S2(s) + (S1(s + [c]) - WINDOW * (drop + CHAR_OFFSET)) % U32) % U32
  {
    hide Window, Sum1, Sum2;
    SumsSlide(Window(s), c);
    WindowSnoc(s, c);
    Bounds(s);
    Bounds(s + [c]);
  }

  /** type rollsum struct: a ring of WINDOW bytes and two uint32 sums. */
  class Sum {
    var s1: u32
    var s2: u32
    const window: array<byte>
    var wofs: nat

    /** The window, oldest byte first. */
    ghost function Ring(): Bytes
      reads this, window
      requires wofs <= window.Length
    {
      window[wofs..] + window[..wofs]
    }

    /** The state is the closed form of the bytes read so far. */
    ghost predicate Read(s: Bytes)
      reads this, window
    {
      && window.Length == WINDOW && wofs < WINDOW
      && Ring() == Window(s)
      && s1 == S1(s)
      && s2 == S2(s)
    }

    /** reset, on a new object. */
    constructor ()
      ensures Read([]) && fresh(window)
    {
      s1 := WINDOW * CHAR_OFFSET;
      s2 := WINDOW * (WINDOW - 1) * CHAR_OFFSET;
      wofs := 0;
      window := new byte[WINDOW](_ => 0);
      new;
      assert Ring() == Zeros(WINDOW) == Window([]);
      SumsOfZeros(WINDOW);
      WeightClosed(WINDOW);
    }

    /** add: every operation is on uint32 and wraps. */
    method Add(drop: byte, add: byte)
      modifies this`s1, this`s2
      ensures s1 == (old(s1) + (add - drop) % U32) % U32
      ensures s2 == (old(s2) + (s1 - WINDOW * (drop + CHAR_OFFSET)) % U32) % U32
    {
      s1 := (s1 + (add - drop) % U32) % U32;
      s2 := (s2 + (s1 - WINDOW * (drop + CHAR_OFFSET)) % U32) % U32;
    }

    /** The ring half of roll: the oldest byte makes room for ch. */
    method Advance(ch: byte)
      requires window.Length == WINDOW && wofs < WINDOW
      modifies window, this`wofs
      ensures wofs < WINDOW
      ensures Ring() == old(Ring())[1..] + [ch]
    {
      window[wofs] := ch;
      wofs := (wofs + 1) % WINDOW;
    }

    method Roll(ch: byte, ghost s: Bytes)
      requires Read(s)
      modifies this, window
      ensures Read(s + [ch])
    {
      AddIsExact(s, ch);
      WindowSnoc(s, ch);
      assert window[wofs] == Ring()[0];
      Add(window[wofs], ch);
      Advance(ch);
    }

    /** digest: (s1 << 16) | (s2 & 0xffff) on uint32. */
    method Value(ghost s: Bytes) returns (d: nat)
      requires Read(s)
      ensures d == DigestOf(s)
    {
      Bounds(s);
      d := (s1 * 65536) % U32 + s2 % 65536;
    }
  }

  /** The digest in closed form; the sum s1 always fits above the low 16 bits. */
  function DigestOf(s: Bytes): nat {
    S1(s) * 65536 + S2(s) % 65536
  }
}
