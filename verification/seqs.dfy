/** Order-keeping selection from a sequence: `Array.prototype.filter`, and the
    subsequence relation it establishes. */
module Seqs {
  /** `a` is `b` with some elements left out, the rest in their order. */
  predicate Subsequence<T(==)>(a: seq<T>, b: seq<T>)
    decreases |b|
  {
    if |a| == 0 then true
    else if |b| == 0 then false
    else if a[|a| - 1] == b[|b| - 1] then Subsequence(a[..|a| - 1], b[..|b| - 1])
    else Subsequence(a, b[..|b| - 1])
  }

  /** Leaving out the last element keeps a subsequence. */
  lemma {:induction false} SubsequenceDropLast<T>(a: seq<T>, b: seq<T>)
    requires |a| > 0 && Subsequence(a, b)
    ensures Subsequence(a[..|a| - 1], b)
    decreases |b|, 0
  {
    var a' := a[..|a| - 1];
    if |a'| > 0 {
      if a[|a| - 1] == b[|b| - 1] {
        SubsequenceExtend(a', b[..|b| - 1], b[|b| - 1]);
        assert b[..|b| - 1] + [b[|b| - 1]] == b;
      } else {
        SubsequenceDropLast(a, b[..|b| - 1]);
        SubsequenceExtend(a', b[..|b| - 1], b[|b| - 1]);
        assert b[..|b| - 1] + [b[|b| - 1]] == b;
      }
    }
  }

  /** An element appended to the longer sequence keeps a subsequence. */
  lemma {:induction false} SubsequenceExtend<T>(a: seq<T>, b: seq<T>, x: T)
    requires Subsequence(a, b)
    ensures Subsequence(a, b + [x])
    decreases |b|, 1
  {
    var b' := b + [x];
    assert b'[..|b'| - 1] == b;
    if |a| > 0 && a[|a| - 1] == x {
      SubsequenceDropLast(a, b);
    }
  }

  /** `xs` is strictly increasing. */
  predicate Increasing(xs: seq<int>) {
    forall i, j :: 0 <= i < j < |xs| ==> xs[i] < xs[j]
  }

  /** Two strictly increasing sequences that hold the same values are equal. */
  lemma {:induction false} IncreasingSame(a: seq<int>, b: seq<int>)
    requires Increasing(a) && Increasing(b)
    requires forall x :: x in a <==> x in b
    ensures a == b
    decreases |a|
  {
    if |a| == 0 {
      assert |b| == 0;
    } else {
      assert a[|a| - 1] in a && b[|b| - 1] in b;
      var m := a[|a| - 1];
      assert b[|b| - 1] == m;
      var a' := a[..|a| - 1];
      var b' := b[..|b| - 1];
      forall x
        ensures x in a' <==> x in b'
      {
        if x in a' { assert x < m && x in b; }
        if x in b' { assert x < m && x in a; }
      }
      IncreasingSame(a', b');
      assert a == a' + [m] && b == b' + [m];
    }
  }

  /** A slice is the concatenation of its two halves at any point between. */
  lemma SliceSplit<T>(s: seq<T>, i: nat, j: nat, k: nat)
    requires i <= j <= k <= |s|
    ensures s[i..k] == s[i..j] + s[j..k]
  {
  }

  /** `xs.filter(p)`. */
  function Filter<T>(xs: seq<T>, p: T -> bool): (ys: seq<T>)
    ensures |ys| <= |xs|
    ensures forall k :: 0 <= k < |ys| ==> p(ys[k])
  {
    if |xs| == 0 then []
    else
      var init := Filter(xs[..|xs| - 1], p);
      if p(xs[|xs| - 1]) then init + [xs[|xs| - 1]] else init
  }

  /** The filter keeps exactly the elements that pass. */
  lemma {:induction false} FilterMembers<T>(xs: seq<T>, p: T -> bool)
    ensures forall x :: x in Filter(xs, p) <==> x in xs && p(x)
  {
    if |xs| > 0 {
      var init := xs[..|xs| - 1];
      FilterMembers(init, p);
      assert xs == init + [xs[|xs| - 1]];
    }
  }

  /** The filter keeps every copy of a passing value and no copy of a failing one. */
  lemma {:induction false} FilterCount<T>(xs: seq<T>, p: T -> bool)
    ensures forall x :: multiset(Filter(xs, p))[x] == if p(x) then multiset(xs)[x] else 0
  {
    if |xs| > 0 {
      var init := xs[..|xs| - 1];
      var last := xs[|xs| - 1];
      FilterCount(init, p);
      assert xs == init + [last];
      assert multiset(xs) == multiset(init) + multiset{last};
      if p(last) {
        assert multiset(Filter(xs, p)) == multiset(Filter(init, p)) + multiset{last};
      }
    }
  }

  /** What the filter keeps is in its original order. */
  lemma {:induction false} FilterIsSubsequence<T>(xs: seq<T>, p: T -> bool)
    ensures Subsequence(Filter(xs, p), xs)
  {
    if |xs| > 0 {
      var init := xs[..|xs| - 1];
      FilterIsSubsequence(init, p);
      if p(xs[|xs| - 1]) {
        assert (Filter(init, p) + [xs[|xs| - 1]])[..|Filter(xs, p)| - 1] == Filter(init, p);
      } else {
        SubsequenceExtend(Filter(init, p), init, xs[|xs| - 1]);
        assert init + [xs[|xs| - 1]] == xs;
      }
    }
  }

  /** The filter keeps every element when all pass. */
  lemma {:induction false} FilterAll<T>(xs: seq<T>, p: T -> bool)
    requires forall k :: 0 <= k < |xs| ==> p(xs[k])
    ensures Filter(xs, p) == xs
  {
    if |xs| > 0 {
      FilterAll(xs[..|xs| - 1], p);
      assert xs[..|xs| - 1] + [xs[|xs| - 1]] == xs;
    }
  }

  /** Three filters whose tests pick out exactly one of them for every element split
      the sequence: their lengths add up to its length, and together they hold its
      elements with their multiplicities. */
  lemma {:induction false} FilterPartition<T>(xs: seq<T>, p: T -> bool, q: T -> bool, r: T -> bool)
    requires forall x :: x in xs ==> (p(x) && !q(x) && !r(x)) || (!p(x) && q(x) && !r(x)) || (!p(x) && !q(x) && r(x))
    ensures |Filter(xs, p)| + |Filter(xs, q)| + |Filter(xs, r)| == |xs|
    ensures multiset(Filter(xs, p)) + multiset(Filter(xs, q)) + multiset(Filter(xs, r)) == multiset(xs)
  {
    if |xs| > 0 {
      var init := xs[..|xs| - 1];
      var x := xs[|xs| - 1];
      assert xs == init + [x];
      assert forall y :: y in init ==> y in xs;
      FilterPartition(init, p, q, r);
      assert multiset(xs) == multiset(init) + multiset{x};
    }
  }

  /** Filtering a sequence with one more element in front. */
  lemma {:induction false} FilterCons<T>(x: T, xs: seq<T>, p: T -> bool)
    ensures Filter([x] + xs, p) == (if p(x) then [x] else []) + Filter(xs, p)
    decreases |xs|
  {
    if |xs| > 0 {
      var init := xs[..|xs| - 1];
      var last := xs[|xs| - 1];
      var ys := [x] + xs;
      assert ys[..|ys| - 1] == [x] + init;
      assert ys[|ys| - 1] == last;
      FilterCons(x, init, p);
      var front := if p(x) then [x] else [];
      var back := if p(last) then [last] else [];
      calc {
        Filter(ys, p);
        Filter([x] + init, p) + back;
        (front + Filter(init, p)) + back;
        front + (Filter(init, p) + back);
        front + Filter(xs, p);
      }
    }
  }

  /** Filtering an element in front of a sequence whose every element passes. */
  lemma FilterConsAll<T>(x: T, xs: seq<T>, p: T -> bool)
    requires forall k :: 0 <= k < |xs| ==> p(xs[k])
    ensures Filter([x] + xs, p) == (if p(x) then [x] + xs else xs)
  {
    FilterAll(xs, p);
    FilterCons(x, xs, p);
  }

  /** Where `b`, a permutation of `a + [x]`, holds `x`; leaving it out there
      leaves a permutation of `a`. */
  lemma RemoveOne<T>(a: seq<T>, x: T, b: seq<T>) returns (i: nat)
    requires multiset(a + [x]) == multiset(b)
    ensures i < |b| && b[i] == x
    ensures b == b[..i] + [x] + b[i + 1..]
    ensures multiset(a) == multiset(b[..i] + b[i + 1..])
  {
    assert x in multiset(b);
    i :| i < |b| && b[i] == x;
    assert b == b[..i] + [x] + b[i + 1..];
    assert multiset(a + [x]) == multiset(a) + multiset{x};
    var p := b[..i];
    var q := b[i + 1..];
    assert multiset(b) == multiset(p) + multiset{x} + multiset(q);
    assert multiset(p + q) == multiset(p) + multiset(q);
    assert multiset(a) == multiset(a + [x]) - multiset{x};
    assert multiset(p + q) == multiset(b) - multiset{x};
  }
}
