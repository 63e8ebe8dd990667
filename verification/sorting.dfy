/** Python's `sorted` as a stable insertion sort over a total preorder, and
    Python's ordering of `str` values (lexicographic by code point). */
module Sorting {
  import opened Prelude

  /** `le` is reflexive-total and transitive: what `sorted` needs of a key. */
  ghost predicate TotalPreorder<T(!new)>(le: (T, T) -> bool) {
    && (forall a, b :: le(a, b) || le(b, a))
    && (forall a, b, c :: le(a, b) && le(b, c) ==> le(a, c))
  }

  ghost predicate SortedBy<T>(xs: seq<T>, le: (T, T) -> bool) {
    forall i, j :: 0 <= i < j < |xs| ==> le(xs[i], xs[j])
  }

  ghost predicate Distinct<T>(xs: seq<T>) {
    forall i, j :: 0 <= i < j < |xs| ==> xs[i] != xs[j]
  }

  /** The elements ranked equal to `z` under `le`. */
  function SameRank<T>(le: (T, T) -> bool, z: T): T -> bool {
    y => le(y, z) && le(z, y)
  }

  /** Places `x` in front of the first element it may precede, so that `x`
      stays ahead of every later element of equal rank. */
  function Insert<T>(x: T, ys: seq<T>, le: (T, T) -> bool): (r: seq<T>)
    ensures multiset(r) == multiset(ys) + multiset{x}
  {
    if ys == [] || le(x, ys[0]) then [x] + ys
    else
      assert ys == [ys[0]] + ys[1..];
      [ys[0]] + Insert(x, ys[1..], le)
  }

  /** `sorted(xs, key=...)`: a stable sort with respect to `le`. */
  function SortBy<T>(xs: seq<T>, le: (T, T) -> bool): (r: seq<T>)
    ensures multiset(r) == multiset(xs)
  {
    if xs == [] then []
    else
      assert xs == [xs[0]] + xs[1..];
      Insert(xs[0], SortBy(xs[1..], le), le)
  }

  lemma {:induction false} InsertSorted<T(!new)>(x: T, ys: seq<T>, le: (T, T) -> bool)
    requires TotalPreorder(le)
    requires SortedBy(ys, le)
    ensures SortedBy(Insert(x, ys, le), le)
  {
    if ys == [] || le(x, ys[0]) {
      forall j | 0 <= j < |ys|
        ensures le(x, ys[j])
      {
        if j > 0 {
          assert le(ys[0], ys[j]);
        }
      }
    } else {
      assert le(ys[0], x);
      InsertSorted(x, ys[1..], le);
      var tail := Insert(x, ys[1..], le);
      forall j | 0 <= j < |tail|
        ensures le(ys[0], tail[j])
      {
        assert tail[j] in multiset(tail);
        assert tail[j] == x || tail[j] in ys[1..];
      }
    }
  }

  /** The sort's output is ordered by `le`. */
  lemma {:induction false} SortSorted<T(!new)>(xs: seq<T>, le: (T, T) -> bool)
    requires TotalPreorder(le)
    ensures SortedBy(SortBy(xs, le), le)
  {
    if xs != [] {
      SortSorted(xs[1..], le);
      InsertSorted(xs[0], SortBy(xs[1..], le), le);
    }
  }

  lemma {:induction false} InsertStable<T(!new)>(x: T, ys: seq<T>, le: (T, T) -> bool, z: T)
    requires TotalPreorder(le)
    requires SortedBy(ys, le)
    ensures Keep(Insert(x, ys, le), SameRank(le, z)) == Keep([x] + ys, SameRank(le, z))
  {
    var e := SameRank(le, z);
    if ys != [] && !le(x, ys[0]) {
      InsertStable(x, ys[1..], le, z);
      assert !(e(x) && e(ys[0]));
      assert ([x] + ys)[1..] == ys;
      assert ([x] + ys[1..])[1..] == ys[1..];
      assert Insert(x, ys, le)[1..] == Insert(x, ys[1..], le);
    }
  }

  /** Stability: among elements of equal rank the input order survives. */
  lemma {:induction false} SortStable<T(!new)>(xs: seq<T>, le: (T, T) -> bool, z: T)
    requires TotalPreorder(le)
    ensures Keep(SortBy(xs, le), SameRank(le, z)) == Keep(xs, SameRank(le, z))
  {
    if xs != [] {
      SortStable(xs[1..], le, z);
      SortSorted(xs[1..], le);
      InsertStable(xs[0], SortBy(xs[1..], le), le, z);
      assert ([xs[0]] + SortBy(xs[1..], le))[1..] == SortBy(xs[1..], le);
    }
  }

  lemma {:induction false} InsertDistinct<T>(x: T, ys: seq<T>, le: (T, T) -> bool)
    requires Distinct(ys) && x !in ys
    ensures Distinct(Insert(x, ys, le))
  {
    if ys != [] && !le(x, ys[0]) {
      InsertDistinct(x, ys[1..], le);
      var tail := Insert(x, ys[1..], le);
      forall j | 0 <= j < |tail|
        ensures tail[j] != ys[0]
      {
        assert tail[j] in multiset(tail);
      }
    }
  }

  /** Sorting a duplicate-free sequence keeps it duplicate-free. */
  lemma {:induction false} SortDistinct<T>(xs: seq<T>, le: (T, T) -> bool)
    requires Distinct(xs)
    ensures Distinct(SortBy(xs, le))
  {
    if xs != [] {
      SortDistinct(xs[1..], le);
      assert xs[0] !in multiset(SortBy(xs[1..], le));
      InsertDistinct(xs[0], SortBy(xs[1..], le), le);
    }
  }

  /** Python's `<=` on `str`: lexicographic by code point, a proper prefix
      coming first. */
  predicate StrLe(a: string, b: string)
    decreases |a|
  {
    a == [] || (b != [] && (a[0] < b[0] || (a[0] == b[0] && StrLe(a[1..], b[1..]))))
  }

  lemma {:induction false} StrLeTotal(a: string, b: string)
    ensures StrLe(a, b) || StrLe(b, a)
    decreases |a|
  {
    if a != [] && b != [] && a[0] == b[0] {
      StrLeTotal(a[1..], b[1..]);
    }
  }

  lemma {:induction false} StrLeTrans(a: string, b: string, c: string)
    requires StrLe(a, b) && StrLe(b, c)
    ensures StrLe(a, c)
    decreases |a|
  {
    if a != [] && a[0] == b[0] && b[0] == c[0] {
      StrLeTrans(a[1..], b[1..], c[1..]);
    }
  }

  lemma {:induction false} StrLeAntisym(a: string, b: string)
    requires StrLe(a, b) && StrLe(b, a)
    ensures a == b
    decreases |a|
  {
    if a != [] {
      StrLeAntisym(a[1..], b[1..]);
      assert a == [a[0]] + a[1..];
      assert b == [b[0]] + b[1..];
    }
  }

  lemma StrLePreorder()
    ensures TotalPreorder(StrLe)
  {
    forall a, b
      ensures StrLe(a, b) || StrLe(b, a)
    {
      StrLeTotal(a, b);
    }
    forall a, b, c | StrLe(a, b) && StrLe(b, c)
      ensures StrLe(a, c)
    {
      StrLeTrans(a, b, c);
    }
  }

  /** Strictly ascending under Python's string order: sorted, no repeats. */
  ghost predicate Ascending(xs: seq<string>) {
    forall i, j :: 0 <= i < j < |xs| ==> StrLe(xs[i], xs[j]) && xs[i] != xs[j]
  }

  /** `sorted` of a duplicate-free list of strings: the same strings,
      strictly ascending. */
  function SortStrings(xs: seq<string>): (r: seq<string>)
    requires Distinct(xs)
    ensures multiset(r) == multiset(xs)
    ensures forall c :: c in r <==> c in xs
    ensures Ascending(r)
  {
    StrLePreorder();
    assert forall c :: c in SortBy(xs, StrLe) <==> c in multiset(SortBy(xs, StrLe));
    SortSorted(xs, StrLe);
    SortDistinct(xs, StrLe);
    SortBy(xs, StrLe)
  }
}
