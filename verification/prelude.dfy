/** Small shared vocabulary: an optional value, an order-preserving filter
    over sequences, and the subsequence relation that filter establishes. */
module Prelude {

  datatype Option<+T> = None | Some(value: T)

  /** `xs` with the elements that fail `p` removed, the rest kept in order
      (a Python list comprehension `[x for x in xs if p(x)]`). */
  function Keep<T>(xs: seq<T>, p: T -> bool): (r: seq<T>)
    ensures |r| <= |xs|
    ensures forall i :: 0 <= i < |r| ==> r[i] in xs && p(r[i])
    ensures forall i :: 0 <= i < |xs| && p(xs[i]) ==> xs[i] in r
  {
    if xs == [] then []
    else if p(xs[0]) then [xs[0]] + Keep(xs[1..], p)
    else Keep(xs[1..], p)
  }

  /** `a` can be obtained from `b` by deleting elements (order kept). */
  ghost predicate Subseq<T>(a: seq<T>, b: seq<T>)
    decreases |b|
  {
    a == [] || (b != [] && ((a[0] == b[0] && Subseq(a[1..], b[1..])) || Subseq(a, b[1..])))
  }

  /** What `Keep` returns is a subsequence of its input. */
  lemma {:induction false} KeepSubseq<T>(xs: seq<T>, p: T -> bool)
    ensures Subseq(Keep(xs, p), xs)
  {
    if xs != [] {
      KeepSubseq(xs[1..], p);
      if p(xs[0]) {
        assert Keep(xs, p)[1..] == Keep(xs[1..], p);
      }
    }
  }

  /** Filtering by `p` and then by `q` is filtering once by the conjunction. */
  lemma {:induction false} KeepKeep<T>(xs: seq<T>, p: T -> bool, q: T -> bool, pq: T -> bool)
    requires forall x :: pq(x) == (p(x) && q(x))
    ensures Keep(Keep(xs, p), q) == Keep(xs, pq)
  {
    if xs != [] {
      KeepKeep(xs[1..], p, q, pq);
      if p(xs[0]) {
        assert Keep(xs, p) == [xs[0]] + Keep(xs[1..], p);
        assert Keep(xs, p)[1..] == Keep(xs[1..], p);
        assert pq(xs[0]) == q(xs[0]);
      } else {
        assert !pq(xs[0]);
      }
    }
  }

  /** A filter every element passes is the identity. */
  lemma {:induction false} KeepAll<T>(xs: seq<T>, p: T -> bool)
    requires forall i :: 0 <= i < |xs| ==> p(xs[i])
    ensures Keep(xs, p) == xs
  {
    if xs != [] {
      KeepAll(xs[1..], p);
    }
  }

  /** Filtering distributes over concatenation. */
  lemma {:induction false} KeepAppend<T>(a: seq<T>, b: seq<T>, p: T -> bool)
    ensures Keep(a + b, p) == Keep(a, p) + Keep(b, p)
  {
    if a == [] {
      assert a + b == b;
    } else {
      assert (a + b)[0] == a[0];
      assert (a + b)[1..] == a[1..] + b;
      KeepAppend(a[1..], b, p);
    }
  }

  /** Two disjoint filters together keep as many elements as their union. */
  lemma {:induction false} KeepSplitCount<T>(xs: seq<T>, p: T -> bool, q: T -> bool, pq: T -> bool)
    requires forall x :: !(p(x) && q(x))
    requires forall x :: pq(x) == (p(x) || q(x))
    ensures |Keep(xs, pq)| == |Keep(xs, p)| + |Keep(xs, q)|
  {
    if xs != [] {
      KeepSplitCount(xs[1..], p, q, pq);
      assert !(p(xs[0]) && q(xs[0]));
      assert pq(xs[0]) == (p(xs[0]) || q(xs[0]));
    }
  }

  /** Predicates that agree on every element keep the same elements. */
  lemma {:induction false} KeepExt<T>(xs: seq<T>, p: T -> bool, q: T -> bool)
    requires forall i :: 0 <= i < |xs| ==> p(xs[i]) == q(xs[i])
    ensures Keep(xs, p) == Keep(xs, q)
  {
    if xs != [] {
      KeepExt(xs[1..], p, q);
    }
  }

  /** A filter no element passes keeps nothing. */
  lemma {:induction false} KeepNone<T>(xs: seq<T>, p: T -> bool)
    requires forall i :: 0 <= i < |xs| ==> !p(xs[i])
    ensures Keep(xs, p) == []
  {
    if xs != [] {
      KeepNone(xs[1..], p);
    }
  }

  /** A filter and its complement split a sequence into two parts that
      together hold every element exactly as often. */
  lemma {:induction false} KeepPartition<T>(xs: seq<T>, p: T -> bool, q: T -> bool)
    requires forall x :: q(x) == !p(x)
    ensures multiset(Keep(xs, p)) + multiset(Keep(xs, q)) == multiset(xs)
  {
    if xs != [] {
      var x, rest := xs[0], xs[1..];
      KeepPartition(rest, p, q);
      assert xs == [x] + rest;
      assert multiset(xs) == multiset([x]) + multiset(rest);
      if p(x) {
        assert Keep(xs, p) == [x] + Keep(rest, p) && Keep(xs, q) == Keep(rest, q);
      } else {
        assert Keep(xs, p) == Keep(rest, p) && Keep(xs, q) == [x] + Keep(rest, q);
      }
    }
  }
}
