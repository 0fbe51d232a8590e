/** Sorting by a byte-string key. sort.Slice is not stable and its algorithm is
    not part of any contract, so what matters is that for distinct keys the
    strictly ordered arrangement is unique: Arranged says what a sort must
    deliver and SortedIsUnique that any two sorts deliver the same. */
module Sorting {
  import opened Bytes

  ghost predicate Strict<T>(key: T -> Bytes, s: seq<T>) {
    forall i, j :: 0 <= i < j < |s| ==> Less(key(s[i]), key(s[j]))
  }

  ghost predicate DistinctKeys<T>(key: T -> Bytes, s: seq<T>) {
    forall i, j :: 0 <= i < j < |s| ==> key(s[i]) != key(s[j])
  }

  function Insert<T>(key: T -> Bytes, x: T, s: seq<T>): (r: seq<T>)
    ensures |r| == |s| + 1
  {
    if s == [] || !Less(key(s[0]), key(x)) then [x] + s
    else [s[0]] + Insert(key, x, s[1..])
  }

  /** A sort, one element at a time from the back. */
  function SortBy<T>(key: T -> Bytes, s: seq<T>): (r: seq<T>)
    ensures |r| == |s|
  {
    if s == [] then [] else Insert(key, s[0], SortBy(key, s[1..]))
  }

  lemma {:induction false} InsertElements<T>(key: T -> Bytes, x: T, s: seq<T>)
    ensures multiset(Insert(key, x, s)) == multiset(s) + multiset{x}
  {
    if s == [] || !Less(key(s[0]), key(x)) {
    } else {
      InsertElements(key, x, s[1..]);
      assert s == [s[0]] + s[1..];
    }
  }

  lemma {:induction false} SortElements<T>(key: T -> Bytes, s: seq<T>)
    ensures multiset(SortBy(key, s)) == multiset(s)
  {
    if s != [] {
      SortElements(key, s[1..]);
      InsertElements(key, s[0], SortBy(key, s[1..]));
      assert s == [s[0]] + s[1..];
    }
  }

  lemma {:induction false} InsertStrict<T>(key: T -> Bytes, x: T, s: seq<T>)
    requires Strict(key, s)
    requires forall y :: y in s ==> key(y) != key(x)
    ensures Strict(key, Insert(key, x, s))
  {
    if s == [] {
    } else if !Less(key(s[0]), key(x)) {
      LessTotal(key(s[0]), key(x));
      forall j | 0 <= j < |s| ensures Less(key(x), key(s[j])) {
        if j > 0 { LessTransitive(key(x), key(s[0]), key(s[j])); }
      }
    } else {
      InsertStrict(key, x, s[1..]);
      InsertElements(key, x, s[1..]);
      var r := Insert(key, x, s[1..]);
      forall j | 0 <= j < |r| ensures Less(key(s[0]), key(r[j])) {
        assert r[j] in multiset(r);
        assert r[j] == x || r[j] in s[1..];
      }
    }
  }

  lemma {:induction false} SortStrict<T>(key: T -> Bytes, s: seq<T>)
    requires DistinctKeys(key, s)
    ensures Strict(key, SortBy(key, s))
  {
    if s != [] {
      SortStrict(key, s[1..]);
      SortElements(key, s[1..]);
      var r := SortBy(key, s[1..]);
      forall y | y in r ensures key(y) != key(s[0]) {
        assert y in multiset(r);
        assert y in s[1..];
      }
      InsertStrict(key, s[0], r);
    }
  }

  /** Every element belongs before the later ones. */
  ghost predicate Ascending<T>(key: T -> Bytes, s: seq<T>) {
    forall i, j :: 0 <= i < j < |s| ==> Before(key(s[i]), key(s[j]))
  }

  /** Strict is strict lexicographic order. */
  lemma {:induction false} StrictIs<T>(key: T -> Bytes, s: seq<T>)
    ensures Strict(key, s) <==> Ascending(key, s)
  {
    hide Less, Before;
    forall i, j | 0 <= i < j < |s| ensures Less(key(s[i]), key(s[j])) <==> Before(key(s[i]), key(s[j])) {
      LessIs(key(s[i]), key(s[j]));
    }
  }

  /** No later element belongs before an earlier one, whether keys repeat or not. */
  ghost predicate InOrder<T>(key: T -> Bytes, s: seq<T>) {
    forall i, j :: 0 <= i < j < |s| ==> !Before(key(s[j]), key(s[i]))
  }

  lemma {:induction false} InsertOrder<T>(key: T -> Bytes, x: T, s: seq<T>)
    requires InOrder(key, s)
    ensures InOrder(key, Insert(key, x, s))
  {
    hide Less, Before;
    if s == [] {
    } else if !Less(key(s[0]), key(x)) {
      forall j | 0 <= j < |s| ensures !Before(key(s[j]), key(x)) {
        LessIs(key(s[0]), key(x));
        LessIs(key(s[j]), key(x));
        LessIs(key(s[j]), key(s[0]));
        LessTotal(key(s[0]), key(x));
        if j > 0 && Less(key(s[j]), key(x)) && Less(key(x), key(s[0])) {
          LessTransitive(key(s[j]), key(x), key(s[0]));
        }
      }
    } else {
      assert forall i, j :: 0 <= i < j < |s| - 1 ==> s[1..][i] == s[i + 1] && s[1..][j] == s[j + 1];
      InsertOrder(key, x, s[1..]);
      InsertElements(key, x, s[1..]);
      var r := Insert(key, x, s[1..]);
      forall j | 0 <= j < |r| ensures !Before(key(r[j]), key(s[0])) {
        assert r[j] in multiset(r);
        LessIs(key(x), key(s[0]));
        LessTotal(key(x), key(s[0]));
        if r[j] != x {
          assert r[j] in s[1..];
          var k :| 0 <= k < |s[1..]| && s[1..][k] == r[j];
          assert s[k + 1] == r[j];
        }
      }
    }
  }

  /** What a sort leaves is in lexicographic order. */
  lemma {:induction false} SortOrder<T>(key: T -> Bytes, s: seq<T>)
    ensures InOrder(key, SortBy(key, s))
  {
    hide Before;
    if s != [] {
      SortOrder(key, s[1..]);
      InsertOrder(key, s[0], SortBy(key, s[1..]));
    }
  }

  /** Two strictly ordered arrangements of the same elements are equal. */
  lemma {:induction false} SortedIsUnique<T>(key: T -> Bytes, a: seq<T>, b: seq<T>)
    requires Strict(key, a) && Strict(key, b)
    requires multiset(a) == multiset(b)
    ensures a == b
  {
    assert |a| == |multiset(a)| == |multiset(b)| == |b|;
    if a != [] {
      assert a[0] in multiset(a);
      assert a[0] in b;
      assert b[0] in multiset(b);
      assert b[0] in a;
      LeastIsFirst(key, a, b[0]);
      LeastIsFirst(key, b, a[0]);
      LessTotal(key(a[0]), key(b[0]));
      assert a[0] == b[0];
      TailElements(a);
      TailElements(b);
      SortedIsUnique(key, a[1..], b[1..]);
      assert a == [a[0]] + a[1..] && b == [b[0]] + b[1..];
    }
  }

  lemma {:induction false} LeastIsFirst<T>(key: T -> Bytes, s: seq<T>, x: T)
    requires Strict(key, s) && x in s
    ensures s[0] == x || Less(key(s[0]), key(x))
  {
    var i :| 0 <= i < |s| && s[i] == x;
  }

  lemma {:induction false} TailElements<T>(s: seq<T>)
    requires s != []
    ensures multiset(s[1..]) == multiset(s) - multiset{s[0]}
  {
    assert s == [s[0]] + s[1..];
  }

  /** Any strictly ordered arrangement of s is the one SortBy gives. */
  lemma {:induction false} SortIs<T>(key: T -> Bytes, s: seq<T>, r: seq<T>)
    requires DistinctKeys(key, s) && Strict(key, r) && multiset(r) == multiset(s)
    ensures r == SortBy(key, s)
  {
    SortStrict(key, s);
    SortElements(key, s);
    SortedIsUnique(key, r, SortBy(key, s));
  }

  function Map<T, U>(f: T -> U, s: seq<T>): (r: seq<U>)
    ensures |r| == |s| && forall i :: 0 <= i < |s| ==> r[i] == f(s[i])
  {
    seq(|s|, i requires 0 <= i < |s| => f(s[i]))
  }

  lemma {:induction false} MapInsert<T(!new), U>(k: T -> Bytes, key: U -> Bytes, f: T -> U, x: T, s: seq<T>)
    requires forall y :: key(f(y)) == k(y)
    ensures Map(f, Insert(k, x, s)) == Insert(key, f(x), Map(f, s))
  {
    if s == [] || !Less(k(s[0]), k(x)) {
      assert Map(f, [x] + s) == [f(x)] + Map(f, s);
    } else {
      MapInsert(k, key, f, x, s[1..]);
      assert Map(f, s)[1..] == Map(f, s[1..]);
      assert Map(f, [s[0]] + Insert(k, x, s[1..])) == [f(s[0])] + Map(f, Insert(k, x, s[1..]));
    }
  }

  /** Sorting handles by the keys of what they stand for sorts what they stand for. */
  lemma {:induction false} MapSort<T(!new), U>(k: T -> Bytes, key: U -> Bytes, f: T -> U, s: seq<T>)
    requires forall y :: key(f(y)) == k(y)
    ensures Map(f, SortBy(k, s)) == SortBy(key, Map(f, s))
  {
    if s != [] {
      MapSort(k, key, f, s[1..]);
      MapInsert(k, key, f, s[0], SortBy(k, s[1..]));
      assert Map(f, s)[1..] == Map(f, s[1..]);
    }
  }

  function Ids(n: nat): (ids: seq<nat>)
    ensures |ids| == n && forall i :: 0 <= i < n ==> ids[i] == i
  {
    seq(n, (i: nat) => i)
  }

  /** r lists every number below n exactly once. */
  ghost predicate Permutes(r: seq<nat>, n: nat) {
    && |r| == n
    && (forall j :: 0 <= j < n ==> r[j] < n)
    && (forall i, j :: 0 <= i < j < n ==> r[i] != r[j])
    && (forall i :: 0 <= i < n ==> i in r)
  }

  lemma {:induction false} SortPermutes(k: nat -> Bytes, n: nat)
    ensures Permutes(SortBy(k, Ids(n)), n)
  {
    var r := SortBy(k, Ids(n));
    SortElements(k, Ids(n));
    forall j | 0 <= j < n ensures r[j] < n {
      assert r[j] in multiset(r);
      assert r[j] in Ids(n);
    }
    forall i | 0 <= i < n ensures i in r {
      assert Ids(n)[i] in multiset(Ids(n));
      assert i in multiset(r);
    }
    forall i, j | 0 <= i < j < n ensures r[i] != r[j] {
      if r[i] == r[j] {
        Twice(r, i, j);
        CountOnce(n, r[i]);
      }
    }
  }

  lemma {:induction false} CountOnce(n: nat, x: nat)
    ensures multiset(Ids(n))[x] == if x < n then 1 else 0
  {
    if n > 0 {
      CountOnce(n - 1, x);
      assert Ids(n) == Ids(n - 1) + [n - 1];
    }
  }

  lemma {:induction false} Twice(r: seq<nat>, i: nat, j: nat)
    requires i < j < |r| && r[i] == r[j]
    ensures multiset(r)[r[i]] >= 2
  {
    assert r == r[..j] + r[j..];
    assert r[..j][i] == r[i] && r[j..][0] == r[i];
    assert r[i] in multiset(r[..j]) && r[i] in multiset(r[j..]);
    assert multiset(r) == multiset(r[..j]) + multiset(r[j..]);
  }

  // ------------------------------------------------------------- binary search

  /** sort.Search for the first element not below want, between i and j. It is
      defined for any sequence; only for a sorted one does it find what is there. */
  function SearchIn<T>(key: T -> Bytes, s: seq<T>, want: Bytes, i: nat, j: nat): (r: nat)
    requires i <= j <= |s|
    ensures i <= r <= j
    decreases j - i
  {
    if i == j then i
    else
      var h := (i + j) / 2;
      if Less(key(s[h]), want) then SearchIn(key, s, want, h + 1, j)
      else SearchIn(key, s, want, i, h)
  }

  function Lookup<T>(key: T -> Bytes, s: seq<T>, want: Bytes): (r: Option<nat>)
    ensures r.Some? ==> r.value < |s| && key(s[r.value]) == want
  {
    var i := SearchIn(key, s, want, 0, |s|);
    if i < |s| && key(s[i]) == want then Some(i) else None
  }

  lemma {:induction false} SearchStep<T>(key: T -> Bytes, s: seq<T>, want: Bytes, i: nat, j: nat)
    requires i <= j <= |s|
    ensures i == j ==> SearchIn(key, s, want, i, j) == i
    ensures i < j ==>
              var h := (i + j) / 2;
              SearchIn(key, s, want, i, j)
              == if Less(key(s[h]), want) then SearchIn(key, s, want, h + 1, j) else SearchIn(key, s, want, i, h)
  {
  }

  /** The search loop. */
  method Search<T>(key: T -> Bytes, s: seq<T>, want: Bytes) returns (r: Option<nat>)
    ensures r == Lookup(key, s, want)
  {
    var i, j := 0, |s|;
    while i < j
      invariant i <= j <= |s|
      invariant SearchIn(key, s, want, i, j) == SearchIn(key, s, want, 0, |s|)
    {
      var h := (i + j) / 2;
      if Less(key(s[h]), want) { i := h + 1; } else { j := h; }
    }
    r := if i < |s| && key(s[i]) == want then Some(i) else None;
  }

  /** In a sorted sequence the search ends exactly where the key is. */
  lemma {:induction false} SearchStrict<T>(key: T -> Bytes, s: seq<T>, k: nat, i: nat, j: nat)
    requires Strict(key, s) && i <= k < |s| && i <= j <= |s| && k <= j
    ensures SearchIn(key, s, key(s[k]), i, j) == k
    decreases j - i
  {
    if i < j {
      var h := (i + j) / 2;
      LessTotal(key(s[h]), key(s[k]));
      if Less(key(s[h]), key(s[k])) {
        SearchStrict(key, s, k, h + 1, j);
      } else {
        SearchStrict(key, s, k, i, h);
      }
    }
  }

  lemma {:induction false} LookupStrict<T>(key: T -> Bytes, s: seq<T>, k: nat)
    requires Strict(key, s) && k < |s|
    ensures Lookup(key, s, key(s[k])) == Some(k)
  {
    SearchStrict(key, s, k, 0, |s|);
  }

  lemma {:induction false} LookupAbsent<T>(key: T -> Bytes, s: seq<T>, want: Bytes)
    requires Strict(key, s)
    ensures Lookup(key, s, want) == None <==> forall k :: 0 <= k < |s| ==> key(s[k]) != want
  {
    forall k | 0 <= k < |s| && key(s[k]) == want ensures Lookup(key, s, want) == Some(k) {
      LookupStrict(key, s, k);
    }
  }
}
