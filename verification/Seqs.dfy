/** Sequences: flattening, counting and reordering. */
module Seqs {

  function Flat<T>(rows: seq<seq<T>>): seq<T> {
    if rows == [] then [] else Flat(rows[..|rows| - 1]) + rows[|rows| - 1]
  }

  /** How often `x` occurs in `s`. */
  ghost function Count<T>(s: seq<T>, x: T): nat {
    if s == [] then 0 else Count(s[..|s| - 1], x) + (if s[|s| - 1] == x then 1 else 0)
  }

  lemma {:induction false} CountConcat<T>(a: seq<T>, b: seq<T>, x: T)
    ensures Count(a + b, x) == Count(a, x) + Count(b, x)
    decreases |b|
  {
    if b == [] {
      assert a + b == a;
    } else {
      assert (a + b)[..|a + b| - 1] == a + b[..|b| - 1];
      CountConcat(a, b[..|b| - 1], x);
    }
  }

  lemma CountMore<T>(s: seq<T>, y: T, x: T)
    ensures Count(s + [y], x) == Count(s, x) + (if y == x then 1 else 0)
  {
    assert (s + [y])[..|s|] == s;
  }

  lemma {:induction false} CountSome<T>(s: seq<T>, x: T)
    ensures Count(s, x) > 0 <==> x in s
  {
    if s != [] {
      CountSome(s[..|s| - 1], x);
      assert s == s[..|s| - 1] + [s[|s| - 1]];
    }
  }

  lemma {:induction false} CountIsMultiset<T>(s: seq<T>, x: T)
    ensures multiset(s)[x] == Count(s, x)
  {
    if s != [] {
      CountIsMultiset(s[..|s| - 1], x);
      assert s == s[..|s| - 1] + [s[|s| - 1]];
    }
  }

  lemma SameCounts<T>(a: seq<T>, b: seq<T>, x: T)
    requires multiset(a) == multiset(b)
    ensures Count(a, x) == Count(b, x)
  {
    CountIsMultiset(a, x);
    CountIsMultiset(b, x);
  }

  lemma SameMultiset<T(!new)>(a: seq<T>, b: seq<T>)
    requires forall x :: Count(a, x) == Count(b, x)
    ensures multiset(a) == multiset(b)
  {
    forall x ensures multiset(a)[x] == multiset(b)[x] {
      CountIsMultiset(a, x);
      CountIsMultiset(b, x);
    }
  }

  lemma OnePlace<T>(s: seq<T>, i: nat, j: nat)
    requires i < j < |s| && s[i] == s[j]
    ensures Count(s, s[i]) >= 2
  {
    var x := s[i];
    assert s == s[..j] + s[j..];
    CountConcat(s[..j], s[j..], x);
    assert s[..j][i] == x && s[j..][0] == x;
    CountSome(s[..j], x);
    CountSome(s[j..], x);
  }

  lemma WithoutOne<T>(s: seq<T>, i: nat)
    requires i < |s|
    ensures s == (s[..i] + [s[i]]) + s[i + 1..]
    ensures multiset(s[..i] + s[i + 1..]) == multiset(s) - multiset{s[i]}
  {
    assert s == (s[..i] + [s[i]]) + s[i + 1..];
    assert multiset(s) == multiset((s[..i] + [s[i]]) + s[i + 1..]);
  }

  /** The last element of one order, found in another. */
  lemma FindLast<T>(a: seq<T>, b: seq<T>) returns (i: nat)
    requires a != [] && multiset(a) == multiset(b)
    ensures i < |b| && b[i] == a[|a| - 1] && b == (b[..i] + [b[i]]) + b[i + 1..]
    ensures multiset(a[..|a| - 1]) == multiset(b[..i] + b[i + 1..])
  {
    var front, x := a[..|a| - 1], a[|a| - 1];
    assert a == front + [x];
    assert x in multiset(b);
    i :| 0 <= i < |b| && b[i] == x;
    WithoutOne(b, i);
    assert multiset(front) == multiset(a) - multiset{x};
  }

  lemma WithoutLast<T>(s: seq<T>)
    requires s != []
    ensures multiset(s[..|s| - 1]) == multiset(s) - multiset{s[|s| - 1]}
  {
    assert s == s[..|s| - 1] + [s[|s| - 1]];
  }

  /** An element that occurs at one place only occurs once. */
  lemma CountUnique<T>(s: seq<T>, i: nat)
    requires i < |s| && forall j :: 0 <= j < |s| && s[j] == s[i] ==> j == i
    ensures Count(s, s[i]) == 1
  {
    var x := s[i];
    assert s == (s[..i] + [x]) + s[i + 1..];
    CountConcat(s[..i] + [x], s[i + 1..], x);
    CountMore(s[..i], x, x);
    CountSome(s[..i], x);
    CountSome(s[i + 1..], x);
  }

  // ------------------------------------------------------------------- choosing in order

  /** `at` lists the numbers below n that have the property, in increasing order. */
  ghost predicate Exactly(at: seq<nat>, n: nat, p: nat -> bool) {
    && (forall j :: 0 <= j < |at| ==> at[j] < n && p(at[j]))
    && (forall i, j :: 0 <= i < j < |at| ==> at[i] < at[j])
    && (forall i: nat :: i < n && p(i) ==> i in at)
  }

  lemma NothingExact(p: nat -> bool)
    ensures Exactly([], 0, p)
  {
  }

  lemma ExactlyMore(at: seq<nat>, n: nat, p: nat -> bool)
    requires Exactly(at, n, p)
    ensures Exactly(if p(n) then at + [n] else at, n + 1, p)
  {
    var at' := if p(n) then at + [n] else at;
    forall i: nat | i < n + 1 && p(i) ensures i in at' {
      if i < n {
        var j :| 0 <= j < |at| && at[j] == i;
        assert at'[j] == i;
      } else {
        assert at'[|at|] == n;
      }
    }
  }
}
