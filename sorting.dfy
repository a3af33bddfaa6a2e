/** A stable insertion sort under a total preorder, the model of `Array.prototype.sort`
    with a comparator (which is stable since ES2019). */
module Sorting {
  import opened Seqs

  /** `le` is total and transitive: what a consistent sort comparator induces. */
  ghost predicate TotalPreorder<T(!new)>(le: (T, T) -> bool) {
    && (forall a, b :: le(a, b) || le(b, a))
    && (forall a, b, c :: le(a, b) && le(b, c) ==> le(a, c))
  }

  predicate SortedBy<T>(s: seq<T>, le: (T, T) -> bool) {
    forall i, j :: 0 <= i < j < |s| ==> le(s[i], s[j])
  }

  /** Inserts `x` before the first element it does not follow. */
  function Insert<T>(x: T, t: seq<T>, le: (T, T) -> bool): (r: seq<T>)
    ensures multiset(r) == multiset(t) + multiset{x}
  {
    if t == [] || le(x, t[0]) then [x] + t
    else
      assert t == [t[0]] + t[1..];
      [t[0]] + Insert(x, t[1..], le)
  }

  function SortBy<T>(s: seq<T>, le: (T, T) -> bool): (r: seq<T>)
    ensures multiset(r) == multiset(s)
  {
    if s == [] then []
    else
      assert s == [s[0]] + s[1..];
      Insert(s[0], SortBy(s[1..], le), le)
  }

  /** Putting `h` in front of a sorted sequence whose elements all follow it keeps it
      sorted. */
  lemma ConsSorted<T>(h: T, s: seq<T>, le: (T, T) -> bool)
    requires SortedBy(s, le)
    requires forall k :: 0 <= k < |s| ==> le(h, s[k])
    ensures SortedBy([h] + s, le)
  {
    var r := [h] + s;
    forall i, j | 0 <= i < j < |r| ensures le(r[i], r[j]) {
      assert r[j] == s[j - 1];
      if i > 0 { assert r[i] == s[i - 1]; }
    }
  }

  /** What precedes the head of a sorted sequence precedes all of it. */
  lemma BelowHead<T(!new)>(h: T, s: seq<T>, le: (T, T) -> bool)
    requires TotalPreorder(le) && SortedBy(s, le)
    requires s != [] && le(h, s[0])
    ensures forall k :: 0 <= k < |s| ==> le(h, s[k])
  {
    forall k | 0 <= k < |s| ensures le(h, s[k]) {
      if k > 0 { assert le(s[0], s[k]); }
    }
  }

  lemma TailSorted<T>(s: seq<T>, le: (T, T) -> bool)
    requires s != [] && SortedBy(s, le)
    ensures SortedBy(s[1..], le)
    ensures forall k :: 0 <= k < |s[1..]| ==> le(s[0], s[1..][k])
  {
    forall i, j | 0 <= i < j < |s[1..]| ensures le(s[1..][i], s[1..][j]) {
      assert s[1..][i] == s[i + 1] && s[1..][j] == s[j + 1];
    }
    forall k | 0 <= k < |s[1..]| ensures le(s[0], s[1..][k]) {
      assert s[1..][k] == s[k + 1];
    }
  }

  /** A lower bound of `x` and of every element of `t` bounds every element of
      `Insert(x, t, le)`. */
  lemma {:induction false} InsertBounded<T>(x: T, t: seq<T>, le: (T, T) -> bool, h: T)
    requires le(h, x)
    requires forall k :: 0 <= k < |t| ==> le(h, t[k])
    ensures forall k :: 0 <= k < |Insert(x, t, le)| ==> le(h, Insert(x, t, le)[k])
  {
    var r := Insert(x, t, le);
    if t == [] || le(x, t[0]) {
      assert r == [x] + t;
      forall k | 0 <= k < |r| ensures le(h, r[k]) {
        if k > 0 { assert r[k] == t[k - 1]; }
      }
    } else {
      var rest := Insert(x, t[1..], le);
      assert r == [t[0]] + rest;
      forall k | 0 <= k < |t[1..]| ensures le(h, t[1..][k]) {
        assert t[1..][k] == t[k + 1];
      }
      InsertBounded(x, t[1..], le, h);
      forall k | 0 <= k < |r| ensures le(h, r[k]) {
        if k > 0 { assert r[k] == rest[k - 1]; }
      }
    }
  }

  lemma {:induction false} InsertSorted<T(!new)>(x: T, t: seq<T>, le: (T, T) -> bool)
    requires TotalPreorder(le) && SortedBy(t, le)
    ensures SortedBy(Insert(x, t, le), le)
  {
    if t == [] || le(x, t[0]) {
      if t != [] { BelowHead(x, t, le); }
      assert Insert(x, t, le) == [x] + t;
      ConsSorted(x, t, le);
    } else {
      var rest := Insert(x, t[1..], le);
      assert Insert(x, t, le) == [t[0]] + rest;
      TailSorted(t, le);
      InsertSorted(x, t[1..], le);
      assert le(t[0], x);
      InsertBounded(x, t[1..], le, t[0]);
      ConsSorted(t[0], rest, le);
    }
  }

  /** The result is ordered by `le` and is a permutation of the input. */
  lemma {:induction false} SortBySpec<T(!new)>(s: seq<T>, le: (T, T) -> bool)
    requires TotalPreorder(le)
    ensures SortedBy(SortBy(s, le), le)
    ensures multiset(SortBy(s, le)) == multiset(s)
  {
    if s != [] {
      SortBySpec(s[1..], le);
      InsertSorted(s[0], SortBy(s[1..], le), le);
    }
  }

  /** `a` and `b` are tied under `le`. */
  predicate Tied<T>(a: T, b: T, le: (T, T) -> bool) {
    le(a, b) && le(b, a)
  }

  /** The test "is tied with `p`", as a filter callback. */
  function TiedWith<T>(p: T, le: (T, T) -> bool): T -> bool {
    y => Tied(y, p, le)
  }

  lemma FilterOne<T>(x: T, keep: T -> bool)
    ensures Filter([x], keep) == if keep(x) then [x] else []
  {
    assert [x][..0] == [];
  }

  /** Two elements in strict order cannot both be tied with the same `p`. */
  lemma NotBothTied<T(!new)>(x: T, y: T, le: (T, T) -> bool, p: T)
    requires TotalPreorder(le) && !le(x, y)
    ensures !(Tied(x, p, le) && Tied(y, p, le))
  {
  }

  /** Moving `x` behind `y` does not change what a filter keeps when it keeps at most
      one of them. */
  lemma FilterPassOver<T>(x: T, y: T, rest: seq<T>, tail: seq<T>, keep: T -> bool)
    requires !(keep(x) && keep(y))
    requires Filter(rest, keep) == Filter([x], keep) + Filter(tail, keep)
    ensures Filter([y] + rest, keep) == Filter([x], keep) + Filter([y] + tail, keep)
  {
    FilterAppend([y], rest, keep);
    FilterAppend([y], tail, keep);
    FilterOne(x, keep);
    FilterOne(y, keep);
    SwapEmpty(Filter([x], keep), Filter([y], keep), Filter(tail, keep));
  }

  lemma SwapEmpty<T>(a: seq<T>, b: seq<T>, c: seq<T>)
    requires a == [] || b == []
    ensures b + (a + c) == a + (b + c)
  {
  }

  lemma {:induction false} InsertStable<T(!new)>(x: T, t: seq<T>, le: (T, T) -> bool, p: T)
    requires TotalPreorder(le)
    ensures Filter(Insert(x, t, le), TiedWith(p, le))
         == Filter([x], TiedWith(p, le)) + Filter(t, TiedWith(p, le))
  {
    var tied := TiedWith(p, le);
    if t == [] || le(x, t[0]) {
      assert Insert(x, t, le) == [x] + t;
      FilterAppend([x], t, tied);
    } else {
      var rest := Insert(x, t[1..], le);
      assert Insert(x, t, le) == [t[0]] + rest;
      InsertStable(x, t[1..], le, p);
      NotBothTied(x, t[0], le, p);
      FilterPassOver(x, t[0], rest, t[1..], tied);
      assert [t[0]] + t[1..] == t;
    }
  }

  /** Stability: the elements tied with any `p` keep their input order. */
  lemma {:induction false} SortByStable<T(!new)>(s: seq<T>, le: (T, T) -> bool, p: T)
    requires TotalPreorder(le)
    ensures Filter(SortBy(s, le), TiedWith(p, le)) == Filter(s, TiedWith(p, le))
  {
    if s != [] {
      SortByStable(s[1..], le, p);
      InsertStable(s[0], SortBy(s[1..], le), le, p);
      FilterAppend([s[0]], s[1..], TiedWith(p, le));
      assert [s[0]] + s[1..] == s;
    }
  }

  /** The head of a sorted sequence precedes each of its elements. */
  lemma HeadLeast<T(!new)>(a: seq<T>, le: (T, T) -> bool, y: T)
    requires TotalPreorder(le) && SortedBy(a, le) && y in a
    ensures le(a[0], y)
  {
    var i :| 0 <= i < |a| && a[i] == y;
    if i > 0 { assert le(a[0], a[i]); }
  }

  lemma MultisetTail<T>(a: seq<T>)
    requires a != []
    ensures multiset(a[1..]) == multiset(a) - multiset{a[0]}
  {
    assert a == [a[0]] + a[1..];
  }

  /** Two sorted permutations of each other start with tied elements, hence with the
      same one when ties are equalities; what follows is again such a pair. */
  lemma SortedUniqueStep<T(!new)>(a: seq<T>, b: seq<T>, le: (T, T) -> bool)
    requires TotalPreorder(le) && a != []
    requires SortedBy(a, le) && SortedBy(b, le) && multiset(a) == multiset(b)
    requires forall x, y :: x in a && y in a && Tied(x, y, le) ==> x == y
    ensures b != [] && a[0] == b[0]
    ensures SortedBy(a[1..], le) && SortedBy(b[1..], le) && multiset(a[1..]) == multiset(b[1..])
    ensures forall x, y :: x in a[1..] && y in a[1..] && Tied(x, y, le) ==> x == y
  {
    assert a[0] in multiset(b);
    assert b[0] in multiset(a);
    HeadLeast(a, le, b[0]);
    HeadLeast(b, le, a[0]);
    assert Tied(a[0], b[0], le) && b[0] in a;
    MultisetTail(a);
    MultisetTail(b);
    TailSorted(a, le);
    TailSorted(b, le);
    assert forall x :: x in a[1..] ==> x in a;
  }

  /** When tied elements are always equal, the ordering under `le` of a collection is
      unique: two sorted permutations of each other coincide. */
  lemma {:induction false} SortedUnique<T(!new)>(a: seq<T>, b: seq<T>, le: (T, T) -> bool)
    requires TotalPreorder(le)
    requires SortedBy(a, le) && SortedBy(b, le) && multiset(a) == multiset(b)
    requires forall x, y :: x in a && y in a && Tied(x, y, le) ==> x == y
    ensures a == b
  {
    if a != [] {
      SortedUniqueStep(a, b, le);
      SortedUnique(a[1..], b[1..], le);
      assert a == [a[0]] + a[1..] && b == [b[0]] + b[1..];
    }
  }
}
