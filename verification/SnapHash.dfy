/** Snapshot names: 256 bits behind one 0 bit, six to a character (snaphash/snaphash.go),
    in the base64url alphabet of section 5 of RFC 4648. */
module SnapHash {
  import opened Bytes
  import opened Bits

  const ENCODED_SIZE := 43
  const ALPHABET := "ABCDEFGHIJKLMNOP" + "QRSTUVWXYZabcdef" + "ghijklmnopqrstuv" + "wxyz0123456789-_"

  /** decodeChar. */
  function DecodeChar(c: char): (r: Option<nat>)
    ensures r.Some? ==> r.value < 64
  {
    if 'A' <= c <= 'Z' then Some(c as int - 'A' as int)
    else if 'a' <= c <= 'z' then Some(c as int - 'a' as int + 26)
    else if '0' <= c <= '9' then Some(c as int - '0' as int + 52)
    else if c == '-' then Some(62)
    else if c == '_' then Some(63)
    else None
  }

  /** The alphabet, letter by letter in order. */
  function Letter(v: nat): char
    requires v < 64
  {
    if v < 26 then ('A' as int + v) as char
    else if v < 52 then ('a' as int + v - 26) as char
    else if v < 62 then ('0' as int + v - 52) as char
    else if v == 62 then '-' else '_'
  }

  lemma {:induction false} Quarter0(v: nat)
    requires 0 <= v < 16
    ensures ALPHABET[v] == Letter(v)
  {
    assert v == 0 || v == 1 || v == 2 || v == 3 || v == 4 || v == 5 || v == 6 || v == 7 || v == 8 || v == 9
           || v == 10 || v == 11 || v == 12 || v == 13 || v == 14 || v == 15;
  }

  lemma {:induction false} Quarter1(v: nat)
    requires 16 <= v < 32
    ensures ALPHABET[v] == Letter(v)
  {
    assert v == 16 || v == 17 || v == 18 || v == 19 || v == 20 || v == 21 || v == 22 || v == 23 || v == 24
           || v == 25 || v == 26 || v == 27 || v == 28 || v == 29 || v == 30 || v == 31;
  }

  lemma {:induction false} Quarter2(v: nat)
    requires 32 <= v < 48
    ensures ALPHABET[v] == Letter(v)
  {
    assert v == 32 || v == 33 || v == 34 || v == 35 || v == 36 || v == 37 || v == 38 || v == 39 || v == 40
           || v == 41 || v == 42 || v == 43 || v == 44 || v == 45 || v == 46 || v == 47;
  }

  lemma {:induction false} Quarter3(v: nat)
    requires 48 <= v < 64
    ensures ALPHABET[v] == Letter(v)
  {
    assert v == 48 || v == 49 || v == 50 || v == 51 || v == 52 || v == 53 || v == 54 || v == 55 || v == 56
           || v == 57 || v == 58 || v == 59 || v == 60 || v == 61 || v == 62 || v == 63;
  }

  lemma {:induction false} AlphabetIs(v: nat)
    requires v < 64
    ensures ALPHABET[v] == Letter(v)
  {
    if v < 16 { Quarter0(v); } else if v < 32 { Quarter1(v); } else if v < 48 { Quarter2(v); } else { Quarter3(v); }
  }

  lemma {:induction false} AlphabetDecodes(v: nat)
    requires v < 64
    ensures DecodeChar(ALPHABET[v]) == Some(v)
  {
    AlphabetIs(v);
  }

  lemma {:induction false} DecodedIsInAlphabet(c: char)
    requires DecodeChar(c).Some?
    ensures ALPHABET[DecodeChar(c).value] == c
  {
    AlphabetIs(DecodeChar(c).value);
  }

  // --------------------------------------------------------------------- the bits

  /** getHashBit: bit 0 is the most significant of byte 0. */
  predicate HashBit(h: Sha, k: nat)
    requires k < 256
  {
    Bit(h[k / 8], 7 - k % 8)
  }

  /** encBitToHashBit. */
  function ToHashBit(e: nat): (k: Option<nat>)
    ensures k.Some? <==> 1 <= e <= 256
    ensures k.Some? ==> k.value < 256
  {
    if e == 0 || e >= 257 then None else Some(e - 1)
  }

  /** The encoded stream: 0, the hash, 0. */
  predicate StreamBit(h: Sha, e: nat) {
    ToHashBit(e).Some? && HashBit(h, ToHashBit(e).value)
  }

  function SextetBits(h: Sha, i: nat): (bits: seq<bool>)
    ensures |bits| == 6 && forall b :: 0 <= b < 6 ==> bits[b] == StreamBit(h, 6 * i + b)
  {
    seq(6, b requires 0 <= b < 6 => StreamBit(h, 6 * i + b))
  }

  function Sextet(h: Sha, i: nat): (v: nat)
    ensures v < 64
  {
    assert Pow2(6) == 64;
    Value(SextetBits(h, i))
  }

  lemma {:induction false} SextetBit(h: Sha, i: nat, b: nat)
    requires b < 6
    ensures Bit(Sextet(h, i), 5 - b) == StreamBit(h, 6 * i + b)
  {
    ValueBit(SextetBits(h, i), 5 - b);
  }

  /** What Encode is for: character i carries bits 6i to 6i+5 of the stream. */
  function Encoded(h: Sha): (s: string)
    ensures |s| == ENCODED_SIZE && forall i :: 0 <= i < |s| ==> s[i] == ALPHABET[Sextet(h, i)]
  {
    seq(ENCODED_SIZE, i requires 0 <= i < ENCODED_SIZE => ALPHABET[Sextet(h, i)])
  }

  method EncodeSextet(h: Sha, i: nat) returns (val: nat)
    requires i < ENCODED_SIZE
    ensures val == Sextet(h, i)
  {
    hide Bit, Or, StreamBit, Sextet;
    assert Pow2(6) == 64;
    val := 0;
    forall k | 0 <= k < 6 ensures !Bit(0, k) { NoBits(k); }
    for b := 0 to 6
      invariant val < Pow2(6)
      invariant forall k :: 0 <= k < 6 ==> Bit(val, k) == (5 - k < b && StreamBit(h, 6 * i + (5 - k)))
    {
      var hashBit := ToHashBit(6 * i + b);
      ghost var was := val;
      StreamIs(h, 6 * i + b);
      if hashBit.Some? && HashBit(h, hashBit.value) {
        val := Or(val, Pow2(5 - b));
      }
      SetBit(was, 5 - b, 6, 0);
      forall k | 0 <= k < 6 ensures Bit(val, k) == (5 - k < b + 1 && StreamBit(h, 6 * i + (5 - k))) {
        SetBit(was, 5 - b, 6, k);
        if k == 5 - b { assert 6 * i + (5 - k) == 6 * i + b; }
      }
    }
    forall k | 0 <= k < 6 ensures Bit(val, k) == Bit(Sextet(h, i), k) {
      SextetBit(h, i, 5 - k);
    }
    SameBits(val, Sextet(h, i), 6);
  }

  lemma {:induction false} StreamIs(h: Sha, e: nat)
    ensures StreamBit(h, e) == (ToHashBit(e).Some? && HashBit(h, ToHashBit(e).value))
  {
  }

  /** Encode. */
  method Encode(h: Sha) returns (s: string)
    ensures s == Encoded(h)
  {
    hide Sextet;
    s := "";
    for i := 0 to ENCODED_SIZE
      invariant |s| == i && forall j :: 0 <= j < i ==> s[j] == ALPHABET[Sextet(h, j)]
    {
      var val := EncodeSextet(h, i);
      s := s + [ALPHABET[val]];
    }
  }

  // ------------------------------------------------------------------- decoding

  datatype DecodeError = InvalidLength | InvalidEncoding | NonCanonical

  datatype Decoding = Hash(hash: Sha) | Refused(why: DecodeError)

  ghost predicate AllLetters(s: string) { forall i :: 0 <= i < |s| ==> DecodeChar(s[i]).Some? }

  /** encBitSet on the decoded characters. */
  predicate TextBit(vals: seq<nat>, e: nat)
    requires |vals| == ENCODED_SIZE && e < 258
  {
    Bit(vals[e / 6], 5 - e % 6)
  }

  function Values(s: string): (vals: seq<nat>)
    requires AllLetters(s)
    ensures |vals| == |s| && forall i :: 0 <= i < |s| ==> vals[i] == DecodeChar(s[i]).value < 64
  {
    seq(|s|, i requires 0 <= i < |s| => DecodeChar(s[i]).value)
  }

  function ByteBits(vals: seq<nat>, j: nat): (bits: seq<bool>)
    requires |vals| == ENCODED_SIZE && j < 32
    ensures |bits| == 8 && forall b :: 0 <= b < 8 ==> bits[b] == TextBit(vals, 8 * j + b + 1)
  {
    seq(8, b requires 0 <= b < 8 => TextBit(vals, 8 * j + b + 1))
  }

  function HashOf(vals: seq<nat>): (h: Sha)
    requires |vals| == ENCODED_SIZE
  {
    assert Pow2(8) == 256;
    seq(32, j requires 0 <= j < 32 => Value(ByteBits(vals, j)))
  }

  lemma {:induction false} HashOfBit(vals: seq<nat>, k: nat)
    requires |vals| == ENCODED_SIZE && k < 256
    ensures HashBit(HashOf(vals), k) == TextBit(vals, k + 1)
  {
    ValueBit(ByteBits(vals, k / 8), 7 - k % 8);
  }

  /** What Decode is for. */
  ghost function Decoded(s: string): Decoding {
    if |s| != ENCODED_SIZE then Refused(InvalidLength)
    else if !AllLetters(s) then Refused(InvalidEncoding)
    else if TextBit(Values(s), 0) || TextBit(Values(s), 257) then Refused(NonCanonical)
    else Hash(HashOf(Values(s)))
  }

  /** setHashBit on one byte of the hash. */
  lemma {:induction false} SetHashBit(h: Sha, k: nat)
    requires k < 256
    ensures Or(h[k / 8], Pow2(7 - k % 8)) < 256
    ensures var h' := h[k / 8 := Or(h[k / 8], Pow2(7 - k % 8))];
            forall m :: 0 <= m < 256 ==> HashBit(h', m) == (HashBit(h, m) || m == k)
  {
    hide Bit, Or;
    assert Pow2(8) == 256;
    var v := h[k / 8];
    SetBit(v, 7 - k % 8, 8, 0);
    var h' := h[k / 8 := Or(v, Pow2(7 - k % 8))];
    forall m | 0 <= m < 256 ensures HashBit(h', m) == (HashBit(h, m) || m == k) {
      if m / 8 == k / 8 {
        SetBit(v, 7 - k % 8, 8, 7 - m % 8);
        assert (7 - m % 8 == 7 - k % 8) <==> m == k;
      }
    }
  }

  lemma {:induction false} SameHash(a: Sha, b: Sha)
    requires forall k :: 0 <= k < 256 ==> HashBit(a, k) == HashBit(b, k)
    ensures a == b
  {
    hide Bit;
    assert Pow2(8) == 256;
    forall j | 0 <= j < 32 ensures a[j] == b[j] {
      forall k | 0 <= k < 8 ensures Bit(a[j], k) == Bit(b[j], k) {
        var m := 8 * j + (7 - k);
        assert m / 8 == j && 7 - m % 8 == k;
        assert HashBit(a, m) == HashBit(b, m);
      }
      SameBits(a[j], b[j], 8);
    }
  }

  /** Decode. */
  method Decode(s: string) returns (r: Decoding)
    ensures r == Decoded(s)
  {
    hide HashBit, HashOf, TextBit, Or;
    if |s| != ENCODED_SIZE { return Refused(InvalidLength); }
    var vals: seq<nat> := [];
    for i := 0 to ENCODED_SIZE
      invariant |vals| == i
      invariant forall j :: 0 <= j < i ==> DecodeChar(s[j]) == Some(vals[j])
    {
      var v := DecodeChar(s[i]);
      if v == None { return Refused(InvalidEncoding); }
      vals := vals + [v.value];
    }
    assert vals == Values(s);
    if TextBit(vals, 0) { return Refused(NonCanonical); }
    if TextBit(vals, 257) { return Refused(NonCanonical); }
    var h := SetBits(vals);
    r := Hash(h);
  }

  method SetBits(vals: seq<nat>) returns (h: Sha)
    requires |vals| == ENCODED_SIZE
    ensures h == HashOf(vals)
  {
    hide HashBit, HashOf, TextBit, Or, Bit;
    h := Zeros(32);
    NoHashBits();
    for e := 1 to 257
      invariant forall k :: 0 <= k < 256 ==> HashBit(h, k) == (k + 1 < e && TextBit(vals, k + 1))
    {
      if TextBit(vals, e) {
        var k := ToHashBit(e).value;
        SetHashBit(h, k);
        h := h[k / 8 := Or(h[k / 8], Pow2(7 - k % 8))];
      }
    }
    forall k | 0 <= k < 256 ensures HashBit(h, k) == HashBit(HashOf(vals), k) {
      HashOfBit(vals, k);
    }
    SameHash(h, HashOf(vals));
  }

  lemma {:induction false} NoHashBits()
    ensures forall k :: 0 <= k < 256 ==> !HashBit(Zeros(32), k)
  {
    forall k | 0 <= k < 256 ensures !HashBit(Zeros(32), k) { NoBits(7 - k % 8); }
  }

  // ------------------------------------------------------------- exact inverses

  lemma {:induction false} EncodedLetters(h: Sha)
    ensures AllLetters(Encoded(h))
    ensures forall i :: 0 <= i < ENCODED_SIZE ==> Values(Encoded(h))[i] == Sextet(h, i)
  {
    hide Sextet;
    forall i | 0 <= i < ENCODED_SIZE ensures DecodeChar(Encoded(h)[i]) == Some(Sextet(h, i)) {
      AlphabetDecodes(Sextet(h, i));
    }
  }

  lemma {:induction false} EncodedBit(h: Sha, e: nat)
    requires e < 258 && AllLetters(Encoded(h))
    ensures TextBit(Values(Encoded(h)), e) == StreamBit(h, e)
  {
    hide Bit, StreamBit, Sextet, Values, Encoded;
    EncodedLetters(h);
    SextetBit(h, e / 6, e % 6);
    assert 6 * (e / 6) + e % 6 == e;
  }

  /** Decoding an encoded hash gives the hash. */
  lemma {:induction false} DecodeEncode(h: Sha)
    ensures Decoded(Encoded(h)) == Hash(h)
  {
    hide TextBit, HashOf, HashBit, Encoded;
    EncodedLetters(h);
    var vals := Values(Encoded(h));
    EncodedBit(h, 0);
    EncodedBit(h, 257);
    forall k | 0 <= k < 256 ensures HashBit(HashOf(vals), k) == HashBit(h, k) {
      HashOfBit(vals, k);
      EncodedBit(h, k + 1);
    }
    SameHash(HashOf(vals), h);
  }

  /** Every accepted string is the encoding of what it decodes to. */
  lemma {:induction false} EncodeDecode(s: string)
    requires Decoded(s).Hash?
    ensures Encoded(Decoded(s).hash) == s
  {
    hide HashOf, HashBit, Values, AllLetters;
    var vals := Values(s);
    var h := HashOf(vals);
    forall i | 0 <= i < ENCODED_SIZE ensures Encoded(h)[i] == s[i] {
      SextetBack(s, i);
    }
  }

  lemma {:induction false} SextetBack(s: string, i: nat)
    requires |s| == ENCODED_SIZE && AllLetters(s) && i < ENCODED_SIZE
    requires !TextBit(Values(s), 0) && !TextBit(Values(s), 257)
    ensures ALPHABET[Sextet(HashOf(Values(s)), i)] == s[i]
  {
    hide HashOf, HashBit, Bit, Sextet;
    var vals := Values(s);
    var h := HashOf(vals);
    assert Pow2(6) == 64;
    forall k | 0 <= k < 6 ensures Bit(Sextet(h, i), k) == Bit(vals[i], k) {
      var e := 6 * i + (5 - k);
      SextetBit(h, i, 5 - k);
      assert e / 6 == i && 5 - e % 6 == k;
      if 1 <= e <= 256 { HashOfBit(vals, e - 1); }
    }
    SameBits(Sextet(h, i), vals[i], 6);
    DecodedIsInAlphabet(s[i]);
  }

  /** No two accepted strings name the same hash. */
  lemma {:induction false} DecodeInjective(s: string, t: string)
    requires Decoded(s).Hash? && Decoded(s) == Decoded(t)
    ensures s == t
  {
    EncodeDecode(s);
    EncodeDecode(t);
  }

  /** The first character is one of A-Z and a-f: never '-' or '_'. */
  lemma {:induction false} FirstCharacter(h: Sha)
    ensures Sextet(h, 0) < 32
    ensures Encoded(h)[0] != '-' && Encoded(h)[0] != '_'
  {
    hide StreamBit;
    var bits := SextetBits(h, 0);
    assert !bits[0] by { StreamIs(h, 0); }
    assert Pow2(5) == 32;
    TopBit(bits);
    AlphabetIs(Sextet(h, 0));
  }

  lemma {:induction false} TopBit(bits: seq<bool>)
    requires bits != [] && !bits[0]
    ensures Value(bits) < Pow2(|bits| - 1)
  {
    if |bits| > 1 { TopBit(bits[..|bits| - 1]); }
  }
}
