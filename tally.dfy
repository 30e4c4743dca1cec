/**
 * Sums and counts over sequences, the declarative counterpart of the source's
 * accumulating loops (`total += duration`, `matched += 1`), with the facts the
 * scorer's order-independence rests on.
 */
module Tally {

  /** Sum of `f` over `s`, accumulated from the front as a loop would. */
  function Sum<T>(s: seq<T>, f: T -> nat): nat {
    if |s| == 0 then 0 else Sum(s[..|s| - 1], f) + f(s[|s| - 1])
  }

  /** 1 where `p` holds, 0 elsewhere. */
  function Indicator<T>(p: T -> bool): T -> nat {
    x => if p(x) then 1 else 0
  }

  /** Number of elements of `s` satisfying `p`; each element counts at most once. */
  function Count<T>(s: seq<T>, p: T -> bool): (n: nat)
    ensures n <= |s|
    ensures n == |s| <==> forall k :: 0 <= k < |s| ==> p(s[k])
    ensures n == 0 <==> forall k :: 0 <= k < |s| ==> !p(s[k])
  {
    CountBounds(s, p);
    Sum(s, Indicator(p))
  }

  lemma {:induction false} CountBounds<T>(s: seq<T>, p: T -> bool)
    ensures Sum(s, Indicator(p)) <= |s|
    ensures Sum(s, Indicator(p)) == |s| <==> forall k :: 0 <= k < |s| ==> p(s[k])
    ensures Sum(s, Indicator(p)) == 0 <==> forall k :: 0 <= k < |s| ==> !p(s[k])
  {
    if |s| > 0 {
      var front := s[..|s| - 1];
      CountBounds(front, p);
      assert forall k :: 0 <= k < |front| ==> front[k] == s[k];
    }
  }

  lemma SumSnoc<T>(s: seq<T>, x: T, f: T -> nat)
    ensures Sum(s + [x], f) == Sum(s, f) + f(x)
  {
    assert (s + [x])[..|s|] == s;
  }

  lemma CountSnoc<T>(s: seq<T>, x: T, p: T -> bool)
    ensures Count(s + [x], p) == Count(s, p) + (if p(x) then 1 else 0)
  {
    SumSnoc(s, x, Indicator(p));
  }

  lemma {:induction false} SumAppend<T>(a: seq<T>, b: seq<T>, f: T -> nat)
    ensures Sum(a + b, f) == Sum(a, f) + Sum(b, f)
    decreases |b|
  {
    if |b| == 0 {
      assert a + b == a;
    } else {
      var front := b[..|b| - 1];
      assert a + b == (a + front) + [b[|b| - 1]];
      SumSnoc(a + front, b[|b| - 1], f);
      SumAppend(a, front, f);
    }
  }

  /** Taking one element out of the sum. */
  lemma SumRemove<T>(b: seq<T>, i: nat, f: T -> nat)
    requires i < |b|
    ensures Sum(b, f) == Sum(b[..i] + b[i + 1..], f) + f(b[i])
  {
    assert b == b[..i] + ([b[i]] + b[i + 1..]);
    SumAppend(b[..i], [b[i]] + b[i + 1..], f);
    SumAppend([b[i]], b[i + 1..], f);
    SumAppend(b[..i], b[i + 1..], f);
    assert [b[i]][..0] == [];
  }

  lemma MultisetRemove<T>(b: seq<T>, i: nat)
    requires i < |b|
    ensures multiset(b[..i] + b[i + 1..]) == multiset(b) - multiset{b[i]}
  {
    assert b == b[..i] + [b[i]] + b[i + 1..];
  }

  /** Summing is insensitive to the order of the elements. */
  lemma {:induction false} SumPermutation<T>(a: seq<T>, b: seq<T>, f: T -> nat)
    requires multiset(a) == multiset(b)
    ensures Sum(a, f) == Sum(b, f)
    decreases |a|
  {
    if |a| == 0 {
      assert |b| == |multiset(b)|;
    } else {
      var x := a[|a| - 1];
      var front := a[..|a| - 1];
      assert x in multiset(b);
      var i :| 0 <= i < |b| && b[i] == x;
      MultisetRemove(a, |a| - 1);
      MultisetRemove(b, i);
      assert a[..|a| - 1] + a[|a|..] == front;
      SumPermutation(front, b[..i] + b[i + 1..], f);
      SumRemove(b, i, f);
    }
  }

  lemma CountPermutation<T>(a: seq<T>, b: seq<T>, p: T -> bool)
    requires multiset(a) == multiset(b)
    ensures Count(a, p) == Count(b, p)
  {
    SumPermutation(a, b, Indicator(p));
  }

  /** A weaker test never counts more elements. */
  lemma {:induction false} CountMonotone<T>(s: seq<T>, p: T -> bool, q: T -> bool)
    requires forall k :: 0 <= k < |s| && p(s[k]) ==> q(s[k])
    ensures Count(s, p) <= Count(s, q)
  {
    if |s| > 0 {
      var front := s[..|s| - 1];
      assert s == front + [s[|s| - 1]];
      CountMonotone(front, p, q);
      CountSnoc(front, s[|s| - 1], p);
      CountSnoc(front, s[|s| - 1], q);
    }
  }

  function Larger(a: nat, b: nat): nat {
    if a > b then a else b
  }

  /** The largest element of `s`, or 0 when `s` is empty. */
  function Max(s: seq<nat>): (m: nat)
    ensures forall k :: 0 <= k < |s| ==> s[k] <= m
    ensures m == 0 || m in s
  {
    if |s| == 0 then 0
    else
      var front := s[..|s| - 1];
      assert forall k :: 0 <= k < |front| ==> front[k] == s[k];
      Larger(Max(front), s[|s| - 1])
  }
}
