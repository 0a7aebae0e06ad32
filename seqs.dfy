/** Order-preserving filtering and concatenation of sequences, with the facts the views rely on. */
module Seqs {

  /** `Array.prototype.filter`: the elements of `s` satisfying `p`, in their order in `s`. */
  function Filter<T>(s: seq<T>, p: T -> bool): (r: seq<T>)
    ensures |r| <= |s|
  {
    if s == [] then []
    else if p(s[0]) then [s[0]] + Filter(s[1..], p)
    else Filter(s[1..], p)
  }

  /** An element survives filtering exactly when it is in `s` and satisfies `p`. */
  lemma {:induction false} FilterMembers<T>(s: seq<T>, p: T -> bool, x: T)
    ensures x in Filter(s, p) <==> x in s && p(x)
  {
    if s != [] {
      FilterMembers(s[1..], p, x);
      assert s == [s[0]] + s[1..];
    }
  }

  /** FilterMembers for every element at once. */
  lemma FilterMembership<T>(s: seq<T>, p: T -> bool)
    ensures forall x | x in Filter(s, p) :: x in s && p(x)
    ensures forall x | x in s && p(x) :: x in Filter(s, p)
  {
    forall x | x in Filter(s, p) ensures x in s && p(x) { FilterMembers(s, p, x); }
    forall x | x in s && p(x) ensures x in Filter(s, p) { FilterMembers(s, p, x); }
  }

  /** Filtering a sequence that starts with `x`. */
  lemma FilterCons<T>(x: T, t: seq<T>, p: T -> bool)
    ensures Filter([x] + t, p) == (if p(x) then [x] else []) + Filter(t, p)
  {
    assert ([x] + t)[1..] == t;
  }

  /** The positions of `s` whose elements satisfy `p`, in increasing order. */
  function MatchIndices<T>(s: seq<T>, p: T -> bool): seq<nat>
  {
    if s == [] then []
    else MatchIndices(s[..|s| - 1], p) + (if p(s[|s| - 1]) then [|s| - 1] else [])
  }

  /** Filtering keeps exactly the positions whose elements satisfy `p`, and keeps them in order. */
  lemma FilterKeepsOrder<T>(s: seq<T>, p: T -> bool)
    ensures |Filter(s, p)| == |MatchIndices(s, p)|
    ensures forall i :: 0 <= i < |MatchIndices(s, p)| ==>
      MatchIndices(s, p)[i] < |s| && Filter(s, p)[i] == s[MatchIndices(s, p)[i]]
    ensures forall i, j :: 0 <= i < j < |MatchIndices(s, p)| ==> MatchIndices(s, p)[i] < MatchIndices(s, p)[j]
    ensures forall j :: 0 <= j < |s| ==> (j in MatchIndices(s, p) <==> p(s[j]))
  {
    IndicesIncreasing(s, p);
    IndicesExact(s, p);
    FilterAtIndices(s, p);
  }

  /** The last element of `s`, split off, for reasoning from the back. */
  lemma FilterSnoc<T>(s: seq<T>, p: T -> bool)
    requires s != []
    ensures Filter(s, p) == Filter(s[..|s| - 1], p) + Filter([s[|s| - 1]], p)
  {
    var init, last := s[..|s| - 1], s[|s| - 1];
    assert s == init + [last];
    FilterAppend(init, [last], p);
  }

  lemma {:induction false} IndicesIncreasing<T>(s: seq<T>, p: T -> bool)
    ensures forall i :: 0 <= i < |MatchIndices(s, p)| ==> MatchIndices(s, p)[i] < |s|
    ensures forall i, j :: 0 <= i < j < |MatchIndices(s, p)| ==> MatchIndices(s, p)[i] < MatchIndices(s, p)[j]
  {
    if s != [] {
      var n := |s| - 1;
      IndicesIncreasing(s[..n], p);
      var idx0 := MatchIndices(s[..n], p);
      var tail: seq<nat> := if p(s[n]) then [n] else [];
      var idx := MatchIndices(s, p);
      assert idx == idx0 + tail;
      assert forall i :: 0 <= i < |idx0| ==> idx0[i] < n;
      forall i | 0 <= i < |idx|
        ensures idx[i] < |s|
      {
        if i < |idx0| { assert idx[i] == idx0[i]; }
      }
      forall i, j | 0 <= i < j < |idx|
        ensures idx[i] < idx[j]
      {
        if j < |idx0| { assert idx[i] == idx0[i] && idx[j] == idx0[j]; }
        else { assert idx[i] == idx0[i]; }
      }
    }
  }

  lemma {:induction false} IndicesExact<T>(s: seq<T>, p: T -> bool)
    ensures forall j :: 0 <= j < |s| ==> (j in MatchIndices(s, p) <==> p(s[j]))
  {
    if s != [] {
      var n := |s| - 1;
      IndicesExact(s[..n], p);
      IndicesIncreasing(s[..n], p);
      var idx0 := MatchIndices(s[..n], p);
      var tail: seq<nat> := if p(s[n]) then [n] else [];
      assert MatchIndices(s, p) == idx0 + tail;
      assert n !in idx0;
      forall j | 0 <= j < n
        ensures s[..n][j] == s[j]
      {
      }
    }
  }

  lemma {:induction false} FilterAtIndices<T>(s: seq<T>, p: T -> bool)
    ensures |Filter(s, p)| == |MatchIndices(s, p)|
    ensures forall i :: 0 <= i < |MatchIndices(s, p)| ==>
      MatchIndices(s, p)[i] < |s| && Filter(s, p)[i] == s[MatchIndices(s, p)[i]]
  {
    IndicesIncreasing(s, p);
    if s != [] {
      var n := |s| - 1;
      FilterAtIndices(s[..n], p);
      FilterSnoc(s, p);
      IndicesIncreasing(s[..n], p);
      var idx0 := MatchIndices(s[..n], p);
      var tail: seq<nat> := if p(s[n]) then [n] else [];
      assert MatchIndices(s, p) == idx0 + tail;
      assert Filter([s[n]], p) == if p(s[n]) then [s[n]] else [];
    }
  }

  /** Filtering with a predicate every element satisfies changes nothing. */
  lemma {:induction false} FilterAll<T>(s: seq<T>, p: T -> bool)
    requires forall x :: x in s ==> p(x)
    ensures Filter(s, p) == s
  {
    if s != [] {
      FilterAll(s[1..], p);
    }
  }

  /** Two predicates that agree on `s` filter it alike. */
  lemma {:induction false} FilterCongruent<T>(s: seq<T>, p: T -> bool, q: T -> bool)
    requires forall x :: x in s ==> p(x) == q(x)
    ensures Filter(s, p) == Filter(s, q)
  {
    if s != [] {
      FilterCongruent(s[1..], p, q);
    }
  }

  /** A weaker predicate keeps at least as many elements. */
  lemma {:induction false} FilterWeakerKeepsMore<T>(s: seq<T>, p: T -> bool, q: T -> bool)
    requires forall x :: x in s && p(x) ==> q(x)
    ensures |Filter(s, p)| <= |Filter(s, q)|
  {
    if s != [] {
      FilterWeakerKeepsMore(s[1..], p, q);
    }
  }

  /** Filtering distributes over concatenation. */
  lemma {:induction false} FilterAppend<T>(a: seq<T>, b: seq<T>, p: T -> bool)
    ensures Filter(a + b, p) == Filter(a, p) + Filter(b, p)
  {
    if a != [] {
      assert (a + b)[1..] == a[1..] + b;
      FilterAppend(a[1..], b, p);
    } else {
      assert a + b == b;
    }
  }

  /** The concatenation of a sequence of sequences. */
  function Flatten<T>(rows: seq<seq<T>>): seq<T>
  {
    if rows == [] then [] else Flatten(rows[..|rows| - 1]) + rows[|rows| - 1]
  }

  function Min(a: int, b: int): int
  {
    if a <= b then a else b
  }
}
