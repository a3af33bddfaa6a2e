/** Generic facts about sequences used by the list handling of the components:
    `Array.prototype.filter`, the push-if-not-included loop and index-based removal. */
module Seqs {

  /** No value occurs twice. */
  predicate NoDup<T(==)>(s: seq<T>) {
    forall i, j :: 0 <= i < j < |s| ==> s[i] != s[j]
  }

  /** Position of the first occurrence of `x` in `s`. */
  function FirstIndex<T(==)>(s: seq<T>, x: T): (k: nat)
    requires x in s
    ensures k < |s| && s[k] == x && x !in s[..k]
  {
    if s[0] == x then 0
    else
      var k := FirstIndex(s[1..], x);
      assert s[..k + 1] == [s[0]] + s[1..][..k];
      k + 1
  }

  lemma FirstIndexAppend<T>(s: seq<T>, y: T, x: T)
    requires x in s + [y]
    ensures x in s ==> FirstIndex(s + [y], x) == FirstIndex(s, x)
    ensures x !in s ==> FirstIndex(s + [y], x) == |s|
  {
    var k := FirstIndex(s + [y], x);
    if x in s {
      var j := FirstIndex(s, x);
      assert (s + [y])[j] == x;
      assert (s + [y])[..k] == s[..k] by { assert k <= j; }
      assert s[..j] == (s + [y])[..j];
    } else {
      assert (s + [y])[..|s|] == s;
    }
  }

  /** `s.filter(keep)`: the elements that satisfy `keep`, in their original order. */
  function Filter<T>(s: seq<T>, keep: T -> bool): (r: seq<T>)
    ensures |r| <= |s|
  {
    if s == [] then []
    else Filter(s[..|s| - 1], keep) + (if keep(s[|s| - 1]) then [s[|s| - 1]] else [])
  }

  /** Filtering a sequence extended by one element. */
  lemma FilterSnoc<T>(s: seq<T>, x: T, keep: T -> bool)
    ensures Filter(s + [x], keep) == Filter(s, keep) + (if keep(x) then [x] else [])
  {
    assert (s + [x])[..|s|] == s;
  }

  /** Filtering keeps exactly the occurrences of the elements that satisfy `keep`. */
  lemma {:induction false} FilterCount<T>(s: seq<T>, keep: T -> bool, x: T)
    ensures multiset(Filter(s, keep))[x] == if keep(x) then multiset(s)[x] else 0
  {
    if s != [] {
      var init := s[..|s| - 1];
      FilterCount(init, keep, x);
      assert s == init + [s[|s| - 1]];
    }
  }

  lemma FilterMembers<T>(s: seq<T>, keep: T -> bool, x: T)
    ensures x in Filter(s, keep) <==> x in s && keep(x)
  {
    FilterCount(s, keep, x);
    assert x in Filter(s, keep) <==> multiset(Filter(s, keep))[x] > 0;
    assert x in s <==> multiset(s)[x] > 0;
  }

  /** Filtering commutes with appending an element. */
  lemma FilterAppend<T>(s: seq<T>, t: seq<T>, keep: T -> bool)
    ensures Filter(s + t, keep) == Filter(s, keep) + Filter(t, keep)
    decreases |t|
  {
    if t != [] {
      var tInit := t[..|t| - 1];
      assert (s + t)[..|s + t| - 1] == s + tInit;
      FilterAppend(s, tInit, keep);
    } else {
      assert s + t == s;
    }
  }

  /** Filtering with two callbacks that agree everywhere gives the same result. */
  lemma {:induction false} FilterExt<T>(s: seq<T>, p: T -> bool, q: T -> bool)
    requires forall x :: p(x) == q(x)
    ensures Filter(s, p) == Filter(s, q)
  {
    if s != [] {
      FilterExt(s[..|s| - 1], p, q);
    }
  }

  /** `s` read back to front. */
  function Reverse<T>(s: seq<T>): (r: seq<T>)
    ensures |r| == |s| && multiset(r) == multiset(s)
    ensures forall i :: 0 <= i < |s| ==> r[i] == s[|s| - 1 - i]
  {
    if s == [] then []
    else
      assert s == [s[0]] + s[1..];
      Reverse(s[1..]) + [s[0]]
  }

  /** A value occurs at most once in a list without duplicates. */
  lemma {:induction false} NoDupCount<T>(s: seq<T>, x: T)
    requires NoDup(s)
    ensures multiset(s)[x] <= 1
  {
    if s != [] {
      assert s == [s[0]] + s[1..];
      assert NoDup(s[1..]);
      NoDupCount(s[1..], x);
    }
  }

  /** An element found at two positions occurs at least twice. */
  lemma TwoOccurrences<T>(a: seq<T>, i: int, j: int)
    requires 0 <= i < j < |a| && a[i] == a[j]
    ensures multiset(a)[a[i]] >= 2
  {
    var x := a[i];
    assert a == a[..i] + [x] + a[i + 1..j] + [x] + a[j + 1..];
  }

  /** A permutation of a list without duplicates has none either. */
  lemma NoDupPermutation<T>(a: seq<T>, b: seq<T>)
    requires multiset(a) == multiset(b) && NoDup(b)
    ensures NoDup(a)
  {
    forall i, j | 0 <= i < j < |a| ensures a[i] != a[j] {
      if a[i] == a[j] {
        TwoOccurrences(a, i, j);
        NoDupCount(b, a[i]);
      }
    }
  }

  /** The push-if-not-included loop: appends, in order, each element of `xs` that is
      not yet in the list built so far. */
  function AppendNew<T(==)>(acc: seq<T>, xs: seq<T>): seq<T>
  {
    if xs == [] then acc
    else
      var prev := AppendNew(acc, xs[..|xs| - 1]);
      var x := xs[|xs| - 1];
      if x in prev then prev else prev + [x]
  }

  /** One more step of the loop: `x` is pushed unless it is already listed. */
  lemma AppendNewSnoc<T>(acc: seq<T>, xs: seq<T>, x: T)
    ensures AppendNew(acc, xs + [x])
         == if x in AppendNew(acc, xs) then AppendNew(acc, xs) else AppendNew(acc, xs) + [x]
  {
    assert (xs + [x])[..|xs|] == xs;
  }

  /** The starting list is kept as a prefix, the result holds each value of `acc` and
      `xs` and nothing else, no value twice when `acc` had none twice, and the appended
      part follows the order of first occurrences in `xs`. */
  lemma {:induction false} AppendNewSpec<T>(acc: seq<T>, xs: seq<T>)
    requires NoDup(acc)
    ensures var r := AppendNew(acc, xs);
      && |acc| <= |r| && r[..|acc|] == acc
      && NoDup(r)
      && (forall x :: x in r <==> x in acc || x in xs)
      && (forall i :: |acc| <= i < |r| ==> r[i] in xs && r[i] !in acc)
      && (forall i, j :: |acc| <= i < j < |r| ==> FirstIndex(xs, r[i]) < FirstIndex(xs, r[j]))
  {
    if xs != [] {
      var init := xs[..|xs| - 1];
      var x := xs[|xs| - 1];
      assert xs == init + [x];
      AppendNewSpec(acc, init);
      var prev := AppendNew(acc, init);
      var r := AppendNew(acc, xs);
      forall i | |acc| <= i < |prev|
        ensures FirstIndex(xs, prev[i]) == FirstIndex(init, prev[i])
      {
        FirstIndexAppend(init, x, prev[i]);
      }
      if x !in prev {
        assert r == prev + [x];
        FirstIndexAppend(init, x, x);
        assert FirstIndex(xs, x) == |init|;
        assert forall i :: |acc| <= i < |prev| ==> FirstIndex(init, prev[i]) < |init|;
      }
    }
  }

  /** Filtering keeps the relative order of first occurrences of the kept values. */
  lemma {:induction false} FilterFirstIndexOrder<T>(s: seq<T>, keep: T -> bool, x: T, y: T)
    requires x in s && y in s && keep(x) && keep(y)
    ensures x in Filter(s, keep) && y in Filter(s, keep)
    ensures FirstIndex(Filter(s, keep), x) < FirstIndex(Filter(s, keep), y)
        <==> FirstIndex(s, x) < FirstIndex(s, y)
  {
    FilterMembers(s, keep, x);
    FilterMembers(s, keep, y);
    var init := s[..|s| - 1];
    var z := s[|s| - 1];
    assert s == init + [z];
    var f := Filter(init, keep);
    var fs := Filter(s, keep);
    assert fs == f + (if keep(z) then [z] else []);
    FilterMembers(init, keep, x);
    FilterMembers(init, keep, y);
    FirstIndexAppend(init, z, x);
    FirstIndexAppend(init, z, y);
    if x in init && y in init {
      FilterFirstIndexOrder(init, keep, x, y);
      if keep(z) {
        FirstIndexAppend(f, z, x);
        FirstIndexAppend(f, z, y);
      } else {
        assert fs == f;
      }
    } else {
      assert keep(z);
      FirstIndexAppend(f, z, x);
      FirstIndexAppend(f, z, y);
    }
  }

  /** Values the list already holds are all skipped. */
  lemma {:induction false} AppendNewKnown<T>(acc: seq<T>, pre: seq<T>)
    requires forall x :: x in pre ==> x in acc
    ensures AppendNew(acc, pre) == acc
  {
    if pre != [] {
      AppendNewKnown(acc, pre[..|pre| - 1]);
    }
  }

  /** A leading run of values the list already holds changes nothing. */
  lemma {:induction false} AppendNewSkipsKnown<T>(acc: seq<T>, pre: seq<T>, xs: seq<T>)
    requires forall x :: x in pre ==> x in acc
    ensures AppendNew(acc, pre + xs) == AppendNew(acc, xs)
  {
    if xs == [] {
      assert pre + xs == pre;
      AppendNewKnown(acc, pre);
    } else {
      var init := xs[..|xs| - 1];
      assert (pre + xs)[..|pre + xs| - 1] == pre + init;
      assert (pre + xs)[|pre + xs| - 1] == xs[|xs| - 1];
      AppendNewSkipsKnown(acc, pre, init);
    }
  }

  /** Values that are new and distinct are all appended, in order. */
  lemma {:induction false} AppendNewDistinct<T>(acc: seq<T>, xs: seq<T>)
    requires NoDup(acc + xs)
    ensures AppendNew(acc, xs) == acc + xs
  {
    if xs != [] {
      var init := xs[..|xs| - 1];
      var x := xs[|xs| - 1];
      var all := acc + xs;
      assert all[..|all| - 1] == acc + init;
      assert NoDup(acc + init) by {
        forall i, j | 0 <= i < j < |acc + init| ensures (acc + init)[i] != (acc + init)[j] {
          assert (acc + init)[i] == all[i] && (acc + init)[j] == all[j];
        }
      }
      AppendNewDistinct(acc, init);
      assert x !in acc + init by {
        forall i | 0 <= i < |acc + init| ensures (acc + init)[i] != x {
          assert (acc + init)[i] == all[i] && x == all[|all| - 1];
        }
      }
      assert acc + xs == (acc + init) + [x];
    }
  }

  /** A filter that every element passes returns the sequence unchanged. */
  lemma {:induction false} FilterKeepsAll<T>(s: seq<T>, keep: T -> bool)
    requires forall i :: 0 <= i < |s| ==> keep(s[i])
    ensures Filter(s, keep) == s
  {
    if s != [] {
      FilterKeepsAll(s[..|s| - 1], keep);
    }
  }

  /** `s.filter((_, i) => i !== index)`: drops the element at `index`, walking the
      positions as the filter callback does. */
  function RemoveAt<T>(s: seq<T>, index: int): (r: seq<T>)
  {
    if s == [] then []
    else (if index == 0 then [] else [s[0]]) + RemoveAt(s[1..], index - 1)
  }

  /** An index inside the list deletes exactly that position and keeps the order of the
      rest; any other index leaves the list as it is. */
  lemma {:induction false} RemoveAtSpec<T>(s: seq<T>, index: int)
    ensures 0 <= index < |s| ==> RemoveAt(s, index) == s[..index] + s[index + 1..]
    ensures !(0 <= index < |s|) ==> RemoveAt(s, index) == s
  {
    if s != [] {
      var rest := RemoveAt(s[1..], index - 1);
      RemoveAtSpec(s[1..], index - 1);
      if index == 0 {
        assert RemoveAt(s, index) == rest == s[1..];
      } else {
        assert RemoveAt(s, index) == [s[0]] + rest;
        if 0 < index < |s| {
          assert rest == s[1..][..index - 1] + s[1..][index..];
          assert s[..index] == [s[0]] + s[1..][..index - 1];
          assert s[index + 1..] == s[1..][index..];
        } else {
          assert [s[0]] + s[1..] == s;
        }
      }
    }
  }

  /** Removing a position keeps a list free of duplicates and adds no value. */
  lemma RemoveAtKeepsDistinct<T>(s: seq<T>, index: int)
    requires NoDup(s)
    ensures NoDup(RemoveAt(s, index))
    ensures forall x :: x in RemoveAt(s, index) ==> x in s
  {
    RemoveAtSpec(s, index);
    if 0 <= index < |s| {
      var r := RemoveAt(s, index);
      forall k | 0 <= k < |r| ensures r[k] == s[if k < index then k else k + 1] {
      }
    }
  }
}
