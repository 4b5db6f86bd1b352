/**
 * Sequence operations the loader performs on JavaScript arrays:
 * `indexOf`, `filter`, and the "push unless already present" de-duplication,
 * with the properties they guarantee.
 */
module Seqs {

  /** `Array.prototype.indexOf`: the first index holding `x`, or -1. */
  function IndexOf<T(==)>(s: seq<T>, x: T): (r: int)
    ensures -1 <= r < |s|
    ensures r < 0 <==> x !in s
    ensures r >= 0 ==> s[r] == x && x !in s[..r]
  {
    if s == [] then -1
    else if s[0] == x then 0
    else
      var k := IndexOf(s[1..], x);
      assert s[1..][..if k < 0 then 0 else k] == s[1..if k < 0 then 1 else k + 1];
      if k < 0 then -1 else k + 1
  }

  lemma {:induction false} IndexOfAppendLeft<T>(a: seq<T>, b: seq<T>, x: T)
    requires x in a
    ensures IndexOf(a + b, x) == IndexOf(a, x)
  {
    if a[0] != x {
      assert (a + b)[1..] == a[1..] + b;
      IndexOfAppendLeft(a[1..], b, x);
    }
  }

  lemma {:induction false} IndexOfAppendRight<T>(a: seq<T>, b: seq<T>, x: T)
    requires x !in a && x in b
    ensures IndexOf(a + b, x) == |a| + IndexOf(b, x)
  {
    if a == [] {
      assert a + b == b;
    } else {
      assert (a + b)[1..] == a[1..] + b;
      IndexOfAppendRight(a[1..], b, x);
    }
  }

  predicate NoDup<T(==)>(s: seq<T>) {
    forall i, j :: 0 <= i < j < |s| ==> s[i] != s[j]
  }

  /**
   * `a` is an order-preserving subsequence of `b`, checked by matching the last
   * element of `a` against the last possible element of `b`.
   */
  predicate IsSubseq<T(==)>(a: seq<T>, b: seq<T>) {
    if a == [] then true
    else if b == [] then false
    else if a[|a| - 1] == b[|b| - 1] then IsSubseq(a[..|a| - 1], b[..|b| - 1])
    else IsSubseq(a, b[..|b| - 1])
  }

  /**
   * `Array.prototype.filter(p)`: the elements of `s` that satisfy `p`, in order;
   * every element that satisfies `p` is kept.
   */
  function Filter<T(==)>(s: seq<T>, p: T -> bool): (r: seq<T>)
    ensures forall i :: 0 <= i < |r| ==> p(r[i])
    ensures forall i :: 0 <= i < |s| && p(s[i]) ==> s[i] in r
  {
    if s == [] then []
    else
      var init, last := s[..|s| - 1], s[|s| - 1];
      Filter(init, p) + if p(last) then [last] else []
  }

  lemma {:induction false} FilterAppend<T>(s: seq<T>, x: T, p: T -> bool)
    ensures Filter(s + [x], p) == Filter(s, p) + (if p(x) then [x] else [])
  {
    assert (s + [x])[..|s|] == s;
  }

  /** The filter result is an order-preserving subsequence of its input. */
  lemma {:induction false} FilterIsSubseq<T>(s: seq<T>, p: T -> bool)
    ensures IsSubseq(Filter(s, p), s)
  {
    if s != [] {
      var init, last := s[..|s| - 1], s[|s| - 1];
      var f := Filter(init, p);
      FilterIsSubseq(init, p);
      if p(last) {
        assert (f + [last])[..|f|] == f;
      } else {
        assert f != [] ==> f[|f| - 1] != last;
        assert s == init + [last] && Filter(s, p) == f;
        SubseqOfLonger(f, init, last);
      }
    }
  }

  /** The filter keeps each element that satisfies `p` exactly as often as `s` holds it, and no other. */
  lemma {:induction false} FilterMultiset<T(!new)>(s: seq<T>, p: T -> bool)
    ensures forall x :: multiset(Filter(s, p))[x] == if p(x) then multiset(s)[x] else 0
  {
    if s != [] {
      var init, last := s[..|s| - 1], s[|s| - 1];
      assert s == init + [last];
      FilterMultiset(init, p);
      FilterAppend(init, last, p);
    }
  }

  /** An element is in the filter result exactly when it is in `s` and satisfies `p`. */
  lemma FilterMembership<T(!new)>(s: seq<T>, p: T -> bool)
    ensures forall x :: x in Filter(s, p) <==> x in s && p(x)
  {
    FilterMultiset(s, p);
    forall x ensures x in Filter(s, p) <==> x in s && p(x) {
      assert x in Filter(s, p) <==> multiset(Filter(s, p))[x] > 0;
      assert x in s <==> multiset(s)[x] > 0;
    }
  }

  /** Filtering a list without repeats gives a list without repeats. */
  lemma {:induction false} FilterNoDup<T(!new)>(s: seq<T>, p: T -> bool)
    requires NoDup(s)
    ensures NoDup(Filter(s, p))
  {
    if s != [] {
      var init, last := s[..|s| - 1], s[|s| - 1];
      assert NoDup(init);
      assert last !in init;
      FilterNoDup(init, p);
      FilterMembership(init, p);
    }
  }

  /** What the filter keeps of one element. */
  function Kept<T>(x: T, p: T -> bool): seq<T> {
    if p(x) then [x] else []
  }

  /** The filter of a three-element list, element by element. */
  lemma FilterThree<T>(a: T, b: T, c: T, p: T -> bool)
    ensures Filter([a, b, c], p) == Kept(a, p) + Kept(b, p) + Kept(c, p)
  {
    FilterAppend([a, b], c, p);
    FilterAppend([a], b, p);
    FilterAppend([], a, p);
    assert [a, b, c] == [a, b] + [c] && [a, b] == [a] + [b] && [a] == [] + [a];
  }

  /** The filter of a list that ends in two given elements. */
  lemma FilterMore<T>(s: seq<T>, d: T, e: T, p: T -> bool)
    ensures Filter(s + [d, e], p) == Filter(s, p) + Kept(d, p) + Kept(e, p)
  {
    FilterAppend(s + [d], e, p);
    FilterAppend(s, d, p);
    assert s + [d, e] == s + [d] + [e];
  }

  lemma {:induction false} SubseqOfLonger<T>(a: seq<T>, b: seq<T>, x: T)
    requires IsSubseq(a, b)
    requires a != [] ==> a[|a| - 1] != x
    ensures IsSubseq(a, b + [x])
  {
    assert (b + [x])[..|b|] == b;
  }

  /** Appending to the longer sequence keeps a subsequence a subsequence. */
  lemma {:induction false} SubseqExtend<T>(a: seq<T>, c: seq<T>, y: T)
    requires IsSubseq(a, c)
    ensures IsSubseq(a, c + [y])
    decreases |c|, 1
  {
    assert (c + [y])[..|c|] == c;
    if a != [] && a[|a| - 1] == y {
      SubseqDropLast(a, c);
    }
  }

  /** Dropping the last element of a subsequence keeps it a subsequence. */
  lemma {:induction false} SubseqDropLast<T>(a: seq<T>, c: seq<T>)
    requires a != [] && IsSubseq(a, c)
    ensures IsSubseq(a[..|a| - 1], c)
    decreases |c|, 0
  {
    var c', x := c[..|c| - 1], c[|c| - 1];
    assert c == c' + [x];
    if a[|a| - 1] == x {
      SubseqExtend(a[..|a| - 1], c', x);
    } else {
      SubseqDropLast(a, c');
      SubseqExtend(a[..|a| - 1], c', x);
    }
  }

  /** A subsequence of a subsequence of `c` is a subsequence of `c`. */
  lemma {:induction false} SubseqTransitive<T>(a: seq<T>, b: seq<T>, c: seq<T>)
    requires IsSubseq(a, b) && IsSubseq(b, c)
    ensures IsSubseq(a, c)
    decreases |b| + |c|
  {
    if a != [] {
      var a', b', c' := a[..|a| - 1], b[..|b| - 1], c[..|c| - 1];
      if b[|b| - 1] == c[|c| - 1] {
        if a[|a| - 1] == b[|b| - 1] {
          SubseqTransitive(a', b', c');
        } else {
          SubseqTransitive(a, b', c');
        }
      } else {
        SubseqTransitive(a, b, c');
        if a[|a| - 1] == c[|c| - 1] {
          SubseqDropLast(a, c');
        }
      }
    }
  }

  /**
   * Two filters with complementary predicates split a sequence: their lengths add
   * up to its length and together they hold each element as often as it does.
   */
  lemma {:induction false} FilterPartition<T(!new)>(s: seq<T>, p: T -> bool, q: T -> bool)
    requires forall x :: q(x) == !p(x)
    ensures |Filter(s, p)| + |Filter(s, q)| == |s|
    ensures multiset(Filter(s, p)) + multiset(Filter(s, q)) == multiset(s)
  {
    var a, b := Filter(s, p), Filter(s, q);
    FilterMultiset(s, p);
    FilterMultiset(s, q);
    forall x ensures (multiset(a) + multiset(b))[x] == multiset(s)[x] {
      assert multiset(a)[x] == if p(x) then multiset(s)[x] else 0;
    }
    assert multiset(a) + multiset(b) == multiset(s);
    assert |multiset(a) + multiset(b)| == |multiset(s)|;
  }

  /**
   * The elements of `s` kept in first-seen order with repeats dropped: `s[i]`
   * stays exactly when it does not already occur in `s[..i]`.
   */
  function FirstOccurrences<T(==)>(s: seq<T>): seq<T> {
    if s == [] then []
    else
      var init, last := s[..|s| - 1], s[|s| - 1];
      FirstOccurrences(init) + if last in init then [] else [last]
  }

  lemma {:induction false} FirstOccurrencesAppend<T>(s: seq<T>, x: T)
    ensures FirstOccurrences(s + [x]) == FirstOccurrences(s) + if x in s then [] else [x]
  {
    assert (s + [x])[..|s|] == s;
  }

  /** Nothing is lost: the kept elements are exactly the elements of `s`. */
  lemma {:induction false} FirstOccurrencesElements<T>(s: seq<T>)
    ensures forall x :: x in FirstOccurrences(s) <==> x in s
  {
    if s != [] {
      var init := s[..|s| - 1];
      assert s == init + [s[|s| - 1]];
      FirstOccurrencesElements(init);
    }
  }

  /** Every element is kept at most once. */
  lemma {:induction false} FirstOccurrencesNoDup<T>(s: seq<T>)
    ensures NoDup(FirstOccurrences(s))
  {
    if s != [] {
      var init := s[..|s| - 1];
      FirstOccurrencesNoDup(init);
      FirstOccurrencesElements(init);
    }
  }

  /**
   * The kept elements appear in the order of their first occurrence in `s`:
   * `x` comes before `y` in the result exactly when `x` is first seen before `y`.
   */
  lemma {:induction false} FirstOccurrencesOrder<T>(s: seq<T>, x: T, y: T)
    requires x in s && y in s
    ensures IndexOf(FirstOccurrences(s), x) < IndexOf(FirstOccurrences(s), y) <==> IndexOf(s, x) < IndexOf(s, y)
  {
    var init, last := s[..|s| - 1], s[|s| - 1];
    assert s == init + [last];
    var f := FirstOccurrences(init);
    FirstOccurrencesElements(init);
    if x in init {
      IndexOfAppendLeft(init, [last], x);
      IndexOfAppendLeft(f, if last in init then [] else [last], x);
    } else {
      IndexOfAppendRight(init, [last], x);
      IndexOfAppendRight(f, [last], x);
    }
    if y in init {
      IndexOfAppendLeft(init, [last], y);
      IndexOfAppendLeft(f, if last in init then [] else [last], y);
    } else {
      IndexOfAppendRight(init, [last], y);
      IndexOfAppendRight(f, [last], y);
    }
    if x in init && y in init {
      FirstOccurrencesOrder(init, x, y);
    }
  }
}
