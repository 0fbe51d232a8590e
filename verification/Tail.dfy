/** The last n lines of a log: scanned in memory (tailLines) and read backwards in
    chunks (readTail), cmd/thundersnapd/mcp.go:405-498, against lines as such. */
module Tail {
  import opened Bytes

  const NL: byte := 10

  // ---------------------------------------------------------------- what lines are

  function FirstNewline(s: Bytes): (i: nat)
    ensures i <= |s|
    ensures i < |s| ==> s[i] == NL
    ensures forall j :: 0 <= j < i ==> s[j] != NL
  {
    if s == [] || s[0] == NL then 0 else 1 + FirstNewline(s[1..])
  }

  /** The lines of a text, each with its newline; the last may have none. */
  function Lines(s: Bytes): seq<Bytes>
    decreases |s|
  {
    if s == [] then []
    else
      var i := FirstNewline(s);
      if i == |s| then [s] else [s[..i + 1]] + Lines(s[i + 1..])
  }

  /** The bytes of the last n lines. */
  function LastLines(s: Bytes, n: nat): Bytes {
    var ls := Lines(s);
    if n >= |ls| then s else Flatten(ls[|ls| - n..])
  }

  // ------------------------------------------------------------- scanning backwards

  /** Where the search begins: a final newline ends the last line, it does not
      begin another. */
  function SearchEnd(s: Bytes): (e: nat)
    ensures e <= |s|
  {
    if s != [] && s[|s| - 1] == NL then |s| - 1 else |s|
  }

  /** Going down from hi, just after the need-th newline; 0 if there are fewer. */
  function Back(s: Bytes, hi: nat, need: nat): (p: nat)
    requires hi <= |s| && need >= 1
    ensures p <= hi
  {
    if hi == 0 then 0
    else if s[hi - 1] != NL then Back(s, hi - 1, need)
    else if need == 1 then hi
    else Back(s, hi - 1, need - 1)
  }

  /** The tail, as the source cuts it. */
  function TailOf(s: Bytes, n: int): Bytes {
    if n <= 0 || s == [] then [] else s[Back(s, SearchEnd(s), n)..]
  }

  lemma {:induction false} BackPrefix(s: Bytes, t: Bytes, hi: nat, need: nat)
    requires hi <= |s| && hi <= |t| && need >= 1 && s[..hi] == t[..hi]
    ensures Back(s, hi, need) == Back(t, hi, need)
    decreases hi
  {
    if hi > 0 {
      assert s[hi - 1] == s[..hi][hi - 1] && t[hi - 1] == t[..hi][hi - 1];
      SliceTake(s, 0, hi, hi - 1);
      SliceTake(t, 0, hi, hi - 1);
      assert s[..hi - 1] == s[..hi][..hi - 1] && t[..hi - 1] == t[..hi][..hi - 1];
      BackPrefix(s, t, hi - 1, need);
      if need > 1 { BackPrefix(s, t, hi - 1, need - 1); }
    }
  }

  /** The last line alone: nothing but its end may be a newline. */
  lemma {:induction false} BackOne(s: Bytes, hi: nat)
    requires hi <= |s|
    ensures var p := Back(s, hi, 1);
            && (p > 0 ==> s[p - 1] == NL)
            && (forall j :: p <= j < hi ==> s[j] != NL)
    decreases hi
  {
    if hi > 0 && s[hi - 1] != NL { BackOne(s, hi - 1); }
  }

  /** Skipping one line and then need more is skipping need + 1. */
  lemma {:induction false} BackMore(s: Bytes, hi: nat, need: nat)
    requires hi <= |s| && need >= 1
    ensures var p := Back(s, hi, 1);
            Back(s, hi, need + 1) == if p == 0 then 0 else Back(s, p - 1, need)
    decreases hi
  {
    if hi > 0 && s[hi - 1] != NL { BackMore(s, hi - 1, need); }
  }

  /** A last line put after whole lines is one more line. */
  lemma {:induction false} LinesSnoc(a: Bytes, b: Bytes)
    requires a == [] || a[|a| - 1] == NL
    requires b != [] && forall j :: 0 <= j < |b| - 1 ==> b[j] != NL
    ensures Lines(a + b) == Lines(a) + [b]
    decreases |a|
  {
    hide FirstNewline, Lines;
    if a == [] {
      LinesNone();
      assert a + b == b;
      LinesOne(b);
    } else {
      var i := FirstNewline(a);
      LinesCons(a, b);
      LinesSnoc(a[i + 1..], b);
      Assoc([a[..i + 1]], Lines(a[i + 1..]), [b]);
    }
  }

  lemma {:induction false} LinesOne(b: Bytes)
    requires b != [] && forall j :: 0 <= j < |b| - 1 ==> b[j] != NL
    ensures Lines(b) == [b]
  {
    if FirstNewline(b) < |b| { assert b[..|b|] == b && b[|b|..] == []; }
  }

  lemma {:induction false} LinesCons(a: Bytes, b: Bytes)
    requires a != [] && a[|a| - 1] == NL
    ensures var i := FirstNewline(a);
            && i < |a| && (a[i + 1..] == [] || a[i + 1..][|a| - i - 2] == NL)
            && Lines(a) == [a[..i + 1]] + Lines(a[i + 1..])
            && Lines(a + b) == [a[..i + 1]] + Lines(a[i + 1..] + b)
  {
    hide FirstNewline, Lines;
    NewlineStays(a, b);
    var i := FirstNewline(a);
    CutConcat(a, b, i + 1);
    LinesUnfold(a);
    LinesUnfold(a + b);
  }

  lemma {:induction false} LinesUnfold(s: Bytes)
    requires FirstNewline(s) < |s|
    ensures var i := FirstNewline(s); Lines(s) == [s[..i + 1]] + Lines(s[i + 1..])
  {
    hide FirstNewline;
  }

  lemma {:induction false} NewlineStays(a: Bytes, b: Bytes)
    requires a != [] && a[|a| - 1] == NL
    ensures FirstNewline(a) < |a| && FirstNewline(a + b) == FirstNewline(a)
  {
    var i := FirstNewline(a);
    assert (a + b)[i] == NL && forall j :: 0 <= j < i ==> (a + b)[j] == a[j];
  }

  /** The source's cut is the last n lines. */
  lemma {:induction false} TailIsLastLines(s: Bytes, n: nat)
    ensures TailOf(s, n) == LastLines(s, n)
    decreases n
  {
    if n == 0 {
      assert Lines(s)[|Lines(s)|..] == [];
    } else if s != [] {
      var p := Back(s, SearchEnd(s), 1);
      BackOne(s, SearchEnd(s));
      var a, b := s[..p], s[p..];
      SplitAt(s, p);
      LinesSnoc(a, b);
      if n > 1 { TailStep(s, p, n); }
      TailJoin(s, a, b, n);
    }
  }

  lemma {:induction false} TailStep(s: Bytes, p: nat, n: nat)
    requires s != [] && n > 1 && p == Back(s, SearchEnd(s), 1) && (p > 0 ==> s[p - 1] == NL)
    ensures Back(s, SearchEnd(s), n) == if p == 0 then 0 else Back(s[..p], SearchEnd(s[..p]), n - 1)
  {
    BackMore(s, SearchEnd(s), n - 1);
    if p > 0 {
      assert s[..p][p - 1] == NL;
      assert s[..p][..p - 1] == s[..p - 1];
      BackPrefix(s, s[..p], p - 1, n - 1);
    }
  }

  /** The induction step on both sides: one line less. */
  lemma {:induction false} TailJoin(s: Bytes, a: Bytes, b: Bytes, n: nat)
    requires s == a + b && s != [] && b != [] && n >= 1
    requires |a| == Back(s, SearchEnd(s), 1) && (a == [] || a[|a| - 1] == NL)
    requires Lines(s) == Lines(a) + [b]
    requires n > 1 ==> Back(s, SearchEnd(s), n) == if a == [] then 0 else Back(a, SearchEnd(a), n - 1)
    ensures TailOf(s, n) == LastLines(s, n)
    decreases n, 0
  {
    hide Lines, Back, SearchEnd, Flatten;
    if n == 1 { LastLineOnly(s, a, b); }
    else if a == [] { LinesNone(); }
    else {
      TailIsLastLines(a, n - 1);
      var q := Back(a, SearchEnd(a), n - 1);
      CutConcat(a, b, q);
      assert TailOf(s, n) == TailOf(a, n - 1) + b;
      LinesLater(s, a, b, n);
    }
  }

  lemma {:induction false} LastLineOnly(s: Bytes, a: Bytes, b: Bytes)
    requires s == a + b && b != [] && Lines(s) == Lines(a) + [b]
    ensures LastLines(s, 1) == s[|a|..]
  {
    hide Lines;
    var la := Lines(a);
    FlattenOne(b);
    assert s[|a|..] == b;
    if la == [] {
      LinesFlatten(a);
      assert a == [];
    } else {
      assert (la + [b])[|la|..] == [b];
    }
  }

  lemma {:induction false} LinesLater(s: Bytes, a: Bytes, b: Bytes, n: nat)
    requires n > 1 && s == a + b && Lines(s) == Lines(a) + [b]
    ensures LastLines(s, n) == LastLines(a, n - 1) + b
  {
    hide Lines, Flatten;
    var la := Lines(a);
    if n - 1 < |la| {
      CutConcat(la, [b], |la| - (n - 1));
      FlattenSnoc(la[|la| - (n - 1)..], b);
    }
  }

  lemma {:induction false} LinesNone()
    ensures Lines([]) == []
  {
  }

  lemma {:induction false} LinesFlatten(s: Bytes)
    ensures Flatten(Lines(s)) == s
    decreases |s|
  {
    hide FirstNewline;
    if s != [] {
      var i := FirstNewline(s);
      if i < |s| {
        LinesFlatten(s[i + 1..]);
        FlattenFirst(s[..i + 1], Lines(s[i + 1..]));
        SplitAt(s, i + 1);
        LinesUnfold(s);
      } else {
        FlattenOne(s);
      }
    }
  }

  /** A line has no line feed but for its last byte, and only the last line may have none. */
  ghost predicate IsLine(line: Bytes, last: bool) {
    line != [] && (forall j :: 0 <= j < |line| - 1 ==> line[j] != 10) && (last || line[|line| - 1] == 10)
  }

  lemma {:induction false} FirstIsLine(s: Bytes)
    requires s != []
    ensures var i := FirstNewline(s);
            if i < |s| then IsLine(s[..i + 1], true) && IsLine(s[..i + 1], false)
            else Lines(s) == [s] && IsLine(s, true)
  {
    hide FirstNewline;
  }

  /** What lines are: together they are the text. */
  lemma {:induction false} LinesAre(s: Bytes)
    ensures Flatten(Lines(s)) == s
    ensures forall k :: 0 <= k < |Lines(s)| ==> IsLine(Lines(s)[k], k == |Lines(s)| - 1)
    decreases |s|
  {
    hide Flatten, Lines, IsLine;
    LinesFlatten(s);
    if s == [] {
      LinesNone();
    } else {
      var i, ls := FirstNewline(s), Lines(s);
      FirstIsLine(s);
      if i < |s| {
        LinesUnfold(s);
        LinesAre(s[i + 1..]);
        var rest := Lines(s[i + 1..]);
        forall k | 0 <= k < |ls| ensures IsLine(ls[k], k == |ls| - 1) {
          if k > 0 { assert ls[k] == rest[k - 1]; }
        }
      }
    }
  }

  lemma {:induction false} FlattenFirst(b: Bytes, rest: seq<Bytes>)
    ensures Flatten([b] + rest) == b + Flatten(rest)
  {
    assert ([b] + rest)[1..] == rest;
  }

  // ------------------------------------------------------------------- the methods

  /** tailLines, before UTF-8 cleanup. */
  method TailLines(content: Bytes, n: int) returns (r: Bytes)
    ensures r == TailOf(content, n)
  {
    hide TailOf;
    TailStarts(content, n);
    if n <= 0 || |content| == 0 { return []; }
    var end := |content|;
    var searchEnd := end;
    if content[end - 1] == NL { searchEnd := searchEnd - 1; }
    ghost var tail := Back(content, SearchEnd(content), n);
    var start := 0;
    var i, seen := searchEnd - 1, 0;
    while i >= 0
      invariant -1 <= i < |content| && 0 <= seen < n
      invariant Back(content, i + 1, n - seen) == tail
    {
      if content[i] == NL {
        seen := seen + 1;
        if seen == n { start := i + 1; break; }
      }
      i := i - 1;
    }
    assert start == tail;
    assert content[start..end] == content[start..];
    r := content[start..end];
  }

  /** One chunk of readTail, scanned from its end: how many newlines were met, and
      where the tail begins if the last of them was found. */
  method ScanChunk(content: Bytes, pos: nat, hi: nat, need: nat) returns (met: nat, at: Option<nat>)
    requires pos <= hi <= |content| && need >= 1
    ensures at.Some? ==> pos <= at.value <= hi && at.value == Back(content, hi, need)
    ensures at == None ==> met < need && Back(content, hi, need) == Back(content, pos, need - met)
  {
    var i := hi;
    met := 0;
    while i > pos
      invariant pos <= i <= hi && met < need
      invariant Back(content, i, need - met) == Back(content, hi, need)
    {
      i := i - 1;
      if content[i] == NL {
        met := met + 1;
        if met == need { return met, Some(i + 1); }
      }
    }
    at := None;
  }

  /** Where one chunk of readTail is scanned from. */
  function ScanFrom(content: Bytes, was: nat): nat
    requires was <= |content|
  {
    if was == |content| then SearchEnd(content) else was
  }

  /** How far readTail has come: chunks holds everything from pos on, or is done. */
  ghost predicate Tailing(content: Bytes, n: nat, pos: nat, have: nat, chunks: seq<Bytes>, done: bool)
    requires n >= 1
  {
    var start := Back(content, SearchEnd(content), n);
    && pos <= |content| && (chunks == [] <==> pos == |content| && !done)
    && Flatten(chunks) == content[if done then start else pos..]
    && (!done ==> have < n && start == Back(content, ScanFrom(content, pos), n - have))
  }

  /** One turn of the loop of readTail. */
  method ReadBack(content: Bytes, n: nat, was: nat, haveNewlines: nat, chunk: nat, before: seq<Bytes>)
    returns (pos: nat, have: nat, chunks: seq<Bytes>, done: bool)
    requires n >= 1 && chunk >= 1 && was > 0 && Tailing(content, n, was, haveNewlines, before, false)
    ensures pos < was && Tailing(content, n, pos, have, chunks, done)
  {
    hide Back, Flatten;
    var read := if chunk > was then was else chunk;
    pos := was - read;
    var buf := content[pos..pos + read];
    var scanEnd := |buf|;
    if |before| == 0 && buf[scanEnd - 1] == NL { scanEnd := scanEnd - 1; }
    assert pos + read == was && pos + scanEnd == ScanFrom(content, was);
    var met, at := ScanChunk(content, pos, pos + scanEnd, n - haveNewlines);
    have := haveNewlines + met;
    done := at.Some?;
    chunks := Prepend(content, pos, was, if done then at.value else pos, buf, before);
  }

  /** readTail on a file with this content, before UTF-8 cleanup. */
  method ReadTail(content: Bytes, n: int, chunk: nat) returns (r: Bytes)
    requires chunk >= 1
    ensures r == TailOf(content, n)
  {
    hide TailOf, Tailing;
    TailStarts(content, n);
    if n <= 0 { return []; }
    var size := |content|;
    if size == 0 { return []; }
    var chunks: seq<Bytes> := [];
    var haveNewlines: nat := 0;
    var done := false;
    var pos: nat := size;
    Untouched(content, n);
    while pos > 0 && !done
      invariant pos <= size && Tailing(content, n, pos, haveNewlines, chunks, done)
      decreases pos
    {
      pos, haveNewlines, chunks, done := ReadBack(content, n, pos, haveNewlines, chunk, chunks);
    }
    Gathered(content, n, pos, haveNewlines, chunks, done);
    r := Flatten(chunks);
  }

  lemma {:induction false} Untouched(content: Bytes, n: nat)
    requires n >= 1
    ensures Tailing(content, n, |content|, 0, [], false)
  {
    hide Back, Flatten;
    NothingYet(content);
  }

  lemma {:induction false} Gathered(content: Bytes, n: nat, pos: nat, have: nat, chunks: seq<Bytes>, done: bool)
    requires n >= 1 && content != [] && Tailing(content, n, pos, have, chunks, done) && (pos == 0 || done)
    ensures Flatten(chunks) == content[Back(content, SearchEnd(content), n)..]
  {
    hide Back, Flatten;
    if !done { BackZero(content, n - have); }
  }

  lemma {:induction false} TailStarts(content: Bytes, n: int)
    ensures TailOf(content, n) ==
            if n <= 0 || content == [] then [] else content[Back(content, SearchEnd(content), n)..]
  {
  }

  lemma {:induction false} NothingYet(content: Bytes)
    ensures Flatten([]) == content[|content|..]
  {
  }

  /** The part of a chunk from at on goes in front of what is there. */
  method Prepend(ghost content: Bytes, pos: nat, ghost was: nat, at: nat, buf: Bytes, chunks: seq<Bytes>)
    returns (r: seq<Bytes>)
    requires pos <= at <= was <= |content| && buf == content[pos..was] && Flatten(chunks) == content[was..]
    ensures r != [] && Flatten(r) == content[at..]
  {
    SliceDrop(content, pos, was, at - pos);
    FlattenFirst(buf[at - pos..], chunks);
    SplitAt(content[at..], was - at);
    DropTake(content, at, was - at);
    DropDrop(content, at, was - at);
    r := [buf[at - pos..]] + chunks;
  }

  lemma {:induction false} BackZero(content: Bytes, need: nat)
    requires need >= 1
    ensures Back(content, 0, need) == 0
  {
  }
}
