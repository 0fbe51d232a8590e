/** The Bloom filter over chunk digests (tsm/bloom.go). */
module Bloom {
  import opened Bytes
  import opened Bits

  /** bloomHashes: two words of the digest, the second never zero. */
  function Hashes(sha: Sha): (u64, u64) {
    var h2 := Get64(sha[8..16]);
    (Get64(sha[..8]), if h2 == 0 then 1 else h2)
  }

  /** The bit of probe i, in uint64 arithmetic. */
  function Probe(sha: Sha, i: nat, bitsLen: nat): (pos: nat)
    requires bitsLen > 0
    ensures pos < bitsLen
  {
    var (h1, h2) := Hashes(sha);
    Wrap64(h1 + Wrap64(Wrap64(i) * h2)) % bitsLen
  }

  /** Wrapping inside the product never shows: probe i is the sum of the first word and i
      times the second, cut to 64 bits and then to the filter. */
  lemma {:induction false} ProbeIs(sha: Sha, i: nat, bitsLen: nat)
    requires bitsLen > 0
    ensures var h1, w := UnBE(sha[0..8]), UnBE(sha[8..16]);
            Probe(sha, i, bitsLen) == (h1 + i * (if w == 0 then 1 else w)) % U64 % bitsLen
  {
    hide UnBE;
    var (h1, h2) := Hashes(sha);
    assert sha[..8] == sha[0..8];
    WrapMul(i, h2);
    WrapAdd(h1, i * h2);
    assert Wrap64(i) * h2 >= 0 && i * h2 >= 0;
  }

  lemma {:induction false} WrapMul(i: nat, h: nat)
    ensures Wrap64(i) * h >= 0 && i * h >= 0
    ensures Wrap64(Wrap64(i) * h) == Wrap64(i * h)
  {
    var q := i / U64;
    assert i == q * U64 + Wrap64(i);
    assert i * h == (q * h) * U64 + Wrap64(i) * h by {
      assert (q * U64 + Wrap64(i)) * h == (q * U64) * h + Wrap64(i) * h;
      assert (q * U64) * h == (q * h) * U64;
    }
    MultipleOff(Wrap64(i) * h, q * h);
  }

  lemma {:induction false} MultipleOff(x: nat, k: nat)
    ensures Wrap64(k * U64 + x) == Wrap64(x)
  {
  }

  lemma {:induction false} WrapAdd(a: nat, b: nat)
    ensures Wrap64(a + Wrap64(b)) == Wrap64(a + b)
  {
  }

  class Filter {
    const bits: array<nat>
    const bitsLen: nat
    const k: nat

    ghost predicate Valid()
      reads this
    {
      bitsLen == 64 * bits.Length && (bitsLen > 0 ==> k >= 1)
    }

    ghost predicate IsSet(pos: nat)
      reads this, bits
      requires Valid() && pos < bitsLen
    {
      Bit(bits[pos / 64], pos % 64)
    }

    /** Every probe of the digest hits a set bit. */
    ghost predicate MayHold(sha: Sha)
      reads this, bits
      requires Valid()
    {
      bitsLen > 0 && forall i :: 0 <= i < k ==> IsSet(Probe(sha, i, bitsLen))
    }

    constructor (words: nat, k: nat)
      requires words > 0 ==> k >= 1
      ensures Valid() && bitsLen == 64 * words && this.k == k && fresh(bits)
      ensures forall q :: 0 <= q < bitsLen ==> !IsSet(q)
    {
      bits := new nat[words](_ => 0);
      bitsLen, this.k := 64 * words, k;
      new;
      forall q | 0 <= q < bitsLen ensures !IsSet(q) { NoBits(q % 64); }
    }

    /** bits[pos/64] |= 1 << (pos % 64). */
    method SetOne(pos: nat)
      requires Valid() && pos < bitsLen
      modifies bits
      ensures forall q :: 0 <= q < bitsLen ==> IsSet(q) == (old(IsSet(q)) || q == pos)
    {
      hide Bit, Or, Pow2;
      var w, v := pos / 64, bits[pos / 64];
      bits[w] := Or(v, Pow2(pos % 64));
      forall q | 0 <= q < bitsLen ensures IsSet(q) == (old(IsSet(q)) || q == pos) {
        if q / 64 == w {
          OrBit(v, Pow2(pos % 64), q % 64);
          PowerBit(pos % 64, q % 64);
          assert q % 64 == pos % 64 <==> q == pos;
        }
      }
    }

    /** add: the digest is held from now on, and nothing held is lost. */
    method Add(sha: Sha)
      requires Valid()
      modifies bits
      ensures bitsLen > 0 ==> MayHold(sha)
      ensures forall s: Sha :: old(MayHold(s)) ==> MayHold(s)
      ensures forall q :: 0 <= q < bitsLen && IsSet(q) && !old(IsSet(q)) ==>
                exists i :: 0 <= i < k && q == Probe(sha, i, bitsLen)
    {
      hide IsSet, Probe;
      if bitsLen == 0 { return; }
      for i := 0 to k
        invariant forall q :: 0 <= q < bitsLen && IsSet(q) && !old(IsSet(q)) ==>
                    exists j :: 0 <= j < i && q == Probe(sha, j, bitsLen)
        invariant forall j :: 0 <= j < i ==> IsSet(Probe(sha, j, bitsLen))
        invariant forall q :: 0 <= q < bitsLen && old(IsSet(q)) ==> IsSet(q)
      {
        SetOne(Probe(sha, i, bitsLen));
      }
    }

    /** test: false is definitive. */
    method Test(sha: Sha) returns (maybe: bool)
      requires Valid()
      ensures maybe == MayHold(sha)
    {
      hide Probe;
      if bitsLen == 0 { return false; }
      for i := 0 to k
        invariant forall j :: 0 <= j < i ==> IsSet(Probe(sha, j, bitsLen))
      {
        var pos := Probe(sha, i, bitsLen);
        if !Bit(bits[pos / 64], pos % 64) { return false; }
      }
      maybe := true;
    }
  }
}
