/** What one poll of a job's log returns (cmd/thundersnapd/mcp_jobs.go:226-264): at
    most CAP bytes from the offset and, while the job runs, only up to the last line
    break among them. */
module Polling {
  import opened Bytes

  const CAP := 16000

  predicate Breaks(b: byte) { b == 10 || b == 13 }

  /** How much of a window ends in a line break. */
  function LastBreak(s: Bytes): (n: nat)
    ensures n <= |s|
    decreases |s|
  {
    if s == [] then 0 else if Breaks(s[|s| - 1]) then |s| else LastBreak(s[..|s| - 1])
  }

  /** The first byte past what a poll may look at. */
  function Horizon(size: nat, off: nat): nat { if size - off <= CAP then size else off + CAP }

  /** The offset handed back. */
  function Next(log: Bytes, size: nat, done: bool, off: nat): nat
    requires off <= size <= |log|
  {
    if done then Horizon(size, off) else off + LastBreak(log[off..Horizon(size, off)])
  }

  /** The log is read up to the published size, which may be short of its end. */
  method Poll(log: Bytes, size: nat, done: bool, off: nat) returns (slice: Bytes, next: nat)
    requires off <= size <= |log|
    ensures next == Next(log, size, done, off) && off <= next <= size
    ensures slice == log[off..next]
  {
    var limit := if size - off <= CAP then size - off else CAP;
    var data := log[off..off + limit];
    var end := |data|;
    if !done {
      end := 0;
      for i := 0 to |data|
        invariant end == LastBreak(data[..i]) && end <= i
      {
        assert data[..i + 1][..i] == data[..i];
        if Breaks(data[i]) { end := i + 1; }
      }
      assert data[..|data|] == data;
    }
    slice, next := data[..end], off + end;
    SliceTake(log, off, off + limit, end);
  }

  // ------------------------------------------------------------------- one poll

  lemma {:induction false} LastBreakIs(s: Bytes)
    ensures LastBreak(s) == 0 || Breaks(s[LastBreak(s) - 1])
    ensures forall i :: LastBreak(s) <= i < |s| ==> !Breaks(s[i])
    decreases |s|
  {
    if s != [] && !Breaks(s[|s| - 1]) { LastBreakIs(s[..|s| - 1]); }
  }

  /** A poll of a running job stops right after the last line break in sight, and
      one of a finished job at the horizon; nothing else fits this description. */
  lemma {:induction false} NextExactly(log: Bytes, size: nat, done: bool, off: nat, n: nat)
    requires off <= size <= |log| && off <= n <= Horizon(size, off)
    ensures n == Next(log, size, done, off) <==>
            if done then n == Horizon(size, off)
            else (n == off || Breaks(log[n - 1])) && forall i :: n <= i < Horizon(size, off) ==> !Breaks(log[i])
  {
    var h := Horizon(size, off);
    var data := log[off..h];
    LastBreakIs(data);
    var k := LastBreak(data);
    assert forall i :: off <= i < h ==> log[i] == data[i - off];
    if !done && n != off + k {
      assert off + k < n ==> log[n - 1] == data[n - 1 - off];
      assert n < off + k ==> log[off + k - 1] == data[k - 1];
    }
  }

  /** A poll moves on exactly when the job is over with bytes left, or the window of
      CAP bytes holds a line break. */
  lemma {:induction false} ProgressIff(log: Bytes, size: nat, done: bool, off: nat)
    requires off <= size <= |log|
    ensures off <= Next(log, size, done, off) <= Horizon(size, off)
    ensures Next(log, size, done, off) > off <==>
            (done && off < size) || (exists i :: off <= i < Horizon(size, off) && Breaks(log[i]))
  {
    NextExactly(log, size, done, off, Next(log, size, done, off));
    NextExactly(log, size, done, off, off);
  }

  /** What has not been published has no say. */
  lemma {:induction false} NextOfPrefix(a: Bytes, b: Bytes, size: nat, done: bool, off: nat)
    requires off <= size <= |a| && size <= |b| && a[..size] == b[..size]
    ensures Next(a, size, done, off) == Next(b, size, done, off)
    ensures a[off..Next(a, size, done, off)] == b[off..Next(a, size, done, off)]
  {
    var h := Horizon(size, off);
    SubSlice(a, 0, size, off, h);
    SubSlice(b, 0, size, off, h);
    var n := Next(a, size, done, off);
    SubSlice(a, 0, size, off, n);
    SubSlice(b, 0, size, off, n);
  }

  /** A running line of more than CAP bytes cannot be polled past, finished or not:
      the window never reaches its end. */
  lemma {:induction false} LongLineStalls(log: Bytes, size: nat, off: nat)
    requires off + CAP < size <= |log|
    requires forall i :: off <= i < off + CAP ==> !Breaks(log[i])
    ensures Next(log, size, false, off) == off
  {
    NextExactly(log, size, false, off, off);
  }

  // -------------------------------------------------------------- draining a log

  /** The offset after k polls of a finished job. */
  function After(log: Bytes, size: nat, off: nat, k: nat): (n: nat)
    requires off <= size <= |log|
    ensures off <= n <= size
    decreases k
  {
    if k == 0 then off else After(log, size, Next(log, size, true, off), k - 1)
  }

  function CeilDiv(n: nat, d: nat): nat
    requires d > 0
  {
    if n == 0 then 0 else (n - 1) / d + 1
  }

  lemma {:induction false} AfterIs(log: Bytes, size: nat, off: nat, k: nat)
    requires off <= size <= |log|
    ensures After(log, size, off, k) == Min(off + k * CAP, size)
    decreases k
  {
    if k > 0 { AfterIs(log, size, Next(log, size, true, off), k - 1); }
  }

  /** A finished log is read to its end by exactly the polls its rest needs. */
  lemma {:induction false} DrainsExactly(log: Bytes, size: nat, off: nat, k: nat)
    requires off <= size <= |log|
    ensures After(log, size, off, k) == size <==> k >= CeilDiv(size - off, CAP)
  {
    AfterIs(log, size, off, k);
  }
}
