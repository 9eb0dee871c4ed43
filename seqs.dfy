/** List comprehensions with a condition, and the order they keep. */
module Seqs {

  /** `a` is `b` with some elements left out and the others kept in order. */
  predicate Subsequence<T(==)>(a: seq<T>, b: seq<T>)
    decreases |b|
  {
    if a == [] then true
    else if b == [] then false
    else (a[0] == b[0] && Subsequence(a[1..], b[1..])) || Subsequence(a, b[1..])
  }

  /** `[x for x in xs if p(x)]`. */
  function Filter<T(==,!new)>(p: T -> bool, xs: seq<T>): (r: seq<T>)
    ensures forall n :: n in r <==> n in xs && p(n)
    ensures |r| <= |xs|
  {
    if xs == [] then [] else (if p(xs[0]) then [xs[0]] else []) + Filter(p, xs[1..])
  }

  /** A filter keeps every element that passes, as often as it occurs, in order. */
  lemma {:induction false} FilterKeeps<T(!new)>(p: T -> bool, xs: seq<T>)
    ensures forall n :: multiset(Filter(p, xs))[n] == if p(n) then multiset(xs)[n] else 0
    ensures Subsequence(Filter(p, xs), xs)
  {
    if xs != [] {
      FilterKeeps(p, xs[1..]);
      var r := Filter(p, xs[1..]);
      assert xs == [xs[0]] + xs[1..];
      assert multiset(xs) == multiset{xs[0]} + multiset(xs[1..]);
      if p(xs[0]) {
        assert Filter(p, xs) == [xs[0]] + r;
        assert ([xs[0]] + r)[1..] == r;
        assert multiset(Filter(p, xs)) == multiset{xs[0]} + multiset(r);
      } else {
        assert Filter(p, xs) == r;
      }
    }
  }

  /** Filtering a concatenation filters each part. */
  lemma {:induction false} FilterAppend<T(!new)>(p: T -> bool, a: seq<T>, b: seq<T>)
    ensures Filter(p, a + b) == Filter(p, a) + Filter(p, b)
  {
    if a != [] {
      var ab, x := a + b, if p(a[0]) then [a[0]] else [];
      FilterAppend(p, a[1..], b);
      assert ab[0] == a[0] && ab[1..] == a[1..] + b;
      assert Filter(p, ab) == x + Filter(p, a[1..] + b);
      Associative(x, Filter(p, a[1..]), Filter(p, b));
    } else {
      assert a + b == b;
    }
  }

  lemma Associative<T>(x: seq<T>, y: seq<T>, z: seq<T>)
    ensures x + (y + z) == (x + y) + z
  {
  }
}
