/**
 * A stable sort by a comparison that is a total preorder, the guarantee `Array.prototype.sort`
 * gives since ECMAScript 2019. The engine's algorithm is not visible, so the model sorts by
 * insertion and proves that every sorted, stable rearrangement is this one.
 */
module StableSort {
  import opened Seqs

  /** `le(a, b)`: `a` may stand before `b`. Total and transitive. */
  ghost predicate TotalPreorder<T(!new)>(le: (T, T) -> bool)
  {
    && (forall a, b :: le(a, b) || le(b, a))
    && (forall a, b, c :: le(a, b) && le(b, c) ==> le(a, c))
  }

  ghost predicate Sorted<T>(s: seq<T>, le: (T, T) -> bool)
  {
    forall i, j :: 0 <= i < j < |s| ==> le(s[i], s[j])
  }

  /** The elements the comparison cannot tell apart from `k`. */
  function EquivalentTo<T>(le: (T, T) -> bool, k: T): T -> bool
  {
    x => le(x, k) && le(k, x)
  }

  /** The elements of `s` that compare equal to `k`, in their order in `s`. */
  function Equivalents<T>(s: seq<T>, le: (T, T) -> bool, k: T): seq<T>
  {
    Filter(s, EquivalentTo(le, k))
  }

  /** A sort is stable when every class of equal elements keeps its original order. */
  ghost predicate Stable<T(!new)>(r: seq<T>, s: seq<T>, le: (T, T) -> bool)
  {
    forall k :: Equivalents(r, le, k) == Equivalents(s, le, k)
  }

  /** Puts `x` before the first element of `r` it may precede. */
  function Insert<T>(x: T, r: seq<T>, le: (T, T) -> bool): (q: seq<T>)
    ensures |q| == |r| + 1
    ensures multiset(q) == multiset(r) + multiset{x}
  {
    if r == [] then [x]
    else if le(x, r[0]) then [x] + r
    else
      assert r == [r[0]] + r[1..];
      [r[0]] + Insert(x, r[1..], le)
  }

  /** Sorts the tail, then inserts the head in front of every element it may precede. */
  function SortBy<T>(s: seq<T>, le: (T, T) -> bool): (r: seq<T>)
    ensures |r| == |s|
    ensures multiset(r) == multiset(s)
  {
    if s == [] then []
    else
      assert s == [s[0]] + s[1..];
      Insert(s[0], SortBy(s[1..], le), le)
  }

  lemma {:induction false} InsertSorted<T(!new)>(x: T, r: seq<T>, le: (T, T) -> bool)
    requires TotalPreorder(le) && Sorted(r, le)
    ensures Sorted(Insert(x, r, le), le)
  {
    if r != [] && !le(x, r[0]) {
      InsertSorted(x, r[1..], le);
      var q := Insert(x, r[1..], le);
      assert le(r[0], x);
      forall y | y in q
        ensures le(r[0], y)
      {
        assert y in multiset(q);
        if y != x {
          assert y in multiset(r[1..]);
          var j :| 0 <= j < |r[1..]| && r[1..][j] == y;
          assert r[j + 1] == y;
        }
      }
    }
  }

  /** The result of SortBy is ordered by `le`. */
  lemma {:induction false} SortBySorted<T(!new)>(s: seq<T>, le: (T, T) -> bool)
    requires TotalPreorder(le)
    ensures Sorted(SortBy(s, le), le)
  {
    if s != [] {
      SortBySorted(s[1..], le);
      InsertSorted(s[0], SortBy(s[1..], le), le);
    }
  }

  /** Inserting into a sorted list keeps each class of equal elements as prepending would. */
  lemma {:induction false} InsertEquivalents<T(!new)>(x: T, r: seq<T>, le: (T, T) -> bool, k: T)
    requires TotalPreorder(le) && Sorted(r, le)
    ensures Equivalents(Insert(x, r, le), le, k) == Equivalents([x] + r, le, k)
  {
    if r != [] && !le(x, r[0]) {
      var p := EquivalentTo(le, k);
      var t := r[1..];
      assert Sorted(t, le);
      InsertEquivalents(x, t, le, k);
      assert !(p(x) && p(r[0]));
      assert Insert(x, r, le) == [r[0]] + Insert(x, t, le);
      FilterCons(r[0], Insert(x, t, le), p);
      FilterCons(x, t, p);
      assert r == [r[0]] + t;
      FilterCons(r[0], t, p);
      FilterCons(x, r, p);
    }
  }

  /** SortBy keeps each class of equal elements in its original order. */
  lemma {:induction false} SortByStable<T(!new)>(s: seq<T>, le: (T, T) -> bool)
    requires TotalPreorder(le)
    ensures Stable(SortBy(s, le), s, le)
  {
    if s != [] {
      var t := s[1..];
      SortByStable(t, le);
      SortBySorted(t, le);
      assert s == [s[0]] + t;
      forall k
        ensures Equivalents(SortBy(s, le), le, k) == Equivalents(s, le, k)
      {
        var p := EquivalentTo(le, k);
        var st := SortBy(t, le);
        assert SortBy(s, le) == Insert(s[0], st, le);
        InsertEquivalents(s[0], st, le, k);
        assert Equivalents(st, le, k) == Equivalents(t, le, k);
        FilterCons(s[0], st, p);
        FilterCons(s[0], t, p);
      }
    }
  }

  /** Every element of `s` is in its own class of equal elements. */
  lemma SelfEquivalent<T(!new)>(s: seq<T>, le: (T, T) -> bool, x: T)
    requires TotalPreorder(le) && x in s
    ensures x in Equivalents(s, le, x)
  {
    assert le(x, x);
    FilterMembers(s, EquivalentTo(le, x), x);
  }

  /** Two sorted sequences with the same classes of equal elements, in the same orders, are equal. */
  lemma {:induction false} SortedStableUnique<T(!new)>(r1: seq<T>, r2: seq<T>, le: (T, T) -> bool)
    requires TotalPreorder(le) && Sorted(r1, le) && Sorted(r2, le)
    requires Stable(r1, r2, le)
    ensures r1 == r2
    decreases |r1| + |r2|
  {
    if r1 == [] && r2 == [] {
    } else if r1 == [] {
      SelfEquivalent(r2, le, r2[0]);
      assert false;
    } else if r2 == [] {
      SelfEquivalent(r1, le, r1[0]);
      assert false;
    } else {
      var a, b := r1[0], r2[0];
      var t1, t2 := r1[1..], r2[1..];
      assert r1 == [a] + t1 && r2 == [b] + t2;
      assert le(a, a) && le(b, b);
      assert Equivalents(r1, le, b) == Equivalents(r2, le, b);
      FilterMembers(r2, EquivalentTo(le, b), b);
      FilterMembers(r1, EquivalentTo(le, b), b);
      assert b in r1;
      assert le(a, b);
      assert Equivalents(r1, le, a) == Equivalents(r2, le, a);
      FilterMembers(r1, EquivalentTo(le, a), a);
      FilterMembers(r2, EquivalentTo(le, a), a);
      assert a in r2;
      assert le(b, a);
      FilterCons(a, t1, EquivalentTo(le, a));
      FilterCons(b, t2, EquivalentTo(le, a));
      assert Equivalents(r1, le, a)[0] == a;
      assert Equivalents(r2, le, a)[0] == b;
      forall k
        ensures Equivalents(t1, le, k) == Equivalents(t2, le, k)
      {
        var p := EquivalentTo(le, k);
        var head: seq<T> := if p(a) then [a] else [];
        assert Equivalents(r1, le, k) == Equivalents(r2, le, k);
        FilterCons(a, t1, p);
        FilterCons(b, t2, p);
        assert (head + Filter(t1, p))[|head|..] == Filter(t1, p);
        assert (head + Filter(t2, p))[|head|..] == Filter(t2, p);
      }
      assert Sorted(t1, le) && Sorted(t2, le);
      SortedStableUnique(t1, t2, le);
    }
  }

  /** Any sorted, stable rearrangement of `s` is SortBy(s): a stable sort's result is determined. */
  lemma StableSortIsUnique<T(!new)>(s: seq<T>, r: seq<T>, le: (T, T) -> bool)
    requires TotalPreorder(le) && Sorted(r, le) && Stable(r, s, le)
    ensures r == SortBy(s, le)
  {
    SortBySorted(s, le);
    SortByStable(s, le);
    SortedStableUnique(r, SortBy(s, le), le);
  }
}
