/**
 * A data frame is modelled as the sequence of its rows. Whole-column updates
 * are per-row maps, boolean-mask selections are filters.
 */
module Frames {

  /** Applies `f` to every row, keeping the row count and order. */
  function Map<A, B>(f: A --> B, s: seq<A>): (r: seq<B>)
    requires forall x :: x in s ==> f.requires(x)
    ensures |r| == |s|
    ensures forall i :: 0 <= i < |s| ==> r[i] == f(s[i])
  {
    if s == [] then [] else [f(s[0])] + Map(f, s[1..])
  }

  /** Mapping distributes over a first row and the rest. */
  lemma MapCons<A, B>(f: A --> B, x: A, s: seq<A>)
    requires f.requires(x) && forall y :: y in s ==> f.requires(y)
    ensures Map(f, [x] + s) == [f(x)] + Map(f, s)
  {
  }

  /** Keeps the rows that satisfy `p`: a selection by a boolean mask. */
  function Filter<T(!new)>(p: T -> bool, s: seq<T>): (r: seq<T>)
    ensures |r| <= |s|
    ensures forall x :: x in r <==> x in s && p(x)
  {
    if s == [] then []
    else if p(s[0]) then [s[0]] + Filter(p, s[1..])
    else Filter(p, s[1..])
  }

  /** Filtering distributes over a first row and the rest. */
  lemma FilterCons<T(!new)>(p: T -> bool, x: T, s: seq<T>)
    ensures Filter(p, [x] + s) == if p(x) then [x] + Filter(p, s) else Filter(p, s)
  {
    assert ([x] + s)[1..] == s;
  }

  /** Every position moved one place to the right. */
  function Shift(xs: seq<int>): (r: seq<int>)
    ensures |r| == |xs| && forall k :: 0 <= k < |xs| ==> r[k] == xs[k] + 1
  {
    seq(|xs|, k requires 0 <= k < |xs| => xs[k] + 1)
  }

  /** A position is in the shifted sequence exactly when its predecessor was in the original. */
  lemma ShiftHas(xs: seq<int>, j: int)
    ensures j in Shift(xs) <==> j - 1 in xs
  {
    if j - 1 in xs {
      var k :| 0 <= k < |xs| && xs[k] == j - 1;
      assert Shift(xs)[k] == j;
    }
  }

  /** The positions in `s` of the rows that `Filter(p, s)` keeps. */
  function KeptIndices<T(!new)>(p: T -> bool, s: seq<T>): seq<int>
  {
    if s == [] then []
    else if p(s[0]) then [0] + Shift(KeptIndices(p, s[1..]))
    else Shift(KeptIndices(p, s[1..]))
  }

  /** `sub` is `s` read at the strictly increasing positions `idx`. */
  ghost predicate SubsequenceAt<T>(sub: seq<T>, s: seq<T>, idx: seq<int>)
  {
    && |idx| == |sub|
    && (forall k :: 0 <= k < |idx| ==> 0 <= idx[k] < |s| && sub[k] == s[idx[k]])
    && (forall k, l :: 0 <= k < l < |idx| ==> idx[k] < idx[l])
  }

  /** The positions of a filter line up with the rows it keeps. */
  lemma {:induction false} KeptIndicesAt<T(!new)>(p: T -> bool, s: seq<T>)
    ensures |KeptIndices(p, s)| == |Filter(p, s)|
    ensures forall k :: 0 <= k < |KeptIndices(p, s)| ==>
      0 <= KeptIndices(p, s)[k] < |s| && Filter(p, s)[k] == s[KeptIndices(p, s)[k]]
  {
    if s != [] {
      KeptIndicesAt(p, s[1..]);
      var rest := KeptIndices(p, s[1..]);
      assert forall k :: 0 <= k < |rest| ==> s[Shift(rest)[k]] == s[1..][rest[k]];
    }
  }

  /** The positions of a filter are strictly increasing. */
  lemma {:induction false} KeptIndicesIncrease<T(!new)>(p: T -> bool, s: seq<T>)
    ensures forall k :: 0 <= k < |KeptIndices(p, s)| ==> KeptIndices(p, s)[k] >= 0
    ensures forall k, l :: 0 <= k < l < |KeptIndices(p, s)| ==> KeptIndices(p, s)[k] < KeptIndices(p, s)[l]
  {
    if s != [] {
      KeptIndicesIncrease(p, s[1..]);
    }
  }

  /** A position is kept exactly when its row satisfies the predicate. */
  lemma {:induction false} KeptIndicesComplete<T(!new)>(p: T -> bool, s: seq<T>)
    ensures forall j :: 0 <= j < |s| ==> (p(s[j]) <==> j in KeptIndices(p, s))
  {
    if s != [] {
      KeptIndicesComplete(p, s[1..]);
      KeptIndicesIncrease(p, s[1..]);
      var rest := KeptIndices(p, s[1..]);
      forall j | 0 <= j < |s|
        ensures p(s[j]) <==> j in KeptIndices(p, s)
      {
        ShiftHas(rest, j);
        if j > 0 {
          assert s[j] == s[1..][j - 1];
        }
      }
    }
  }

  /**
   * A filter keeps the rows satisfying `p` in their original order and
   * drops exactly the others.
   */
  lemma FilterKeepsOrder<T(!new)>(p: T -> bool, s: seq<T>)
    ensures SubsequenceAt(Filter(p, s), s, KeptIndices(p, s))
    ensures forall j :: 0 <= j < |s| ==> (p(s[j]) <==> j in KeptIndices(p, s))
  {
    KeptIndicesAt(p, s);
    KeptIndicesIncrease(p, s);
    KeptIndicesComplete(p, s);
  }

  /** Mapping a filtered frame keeps the filter's positions. */
  lemma MapFilterAt<A(!new), B>(f: A --> B, p: A -> bool, s: seq<A>, k: int)
    requires forall x :: x in s && p(x) ==> f.requires(x)
    requires 0 <= k < |Filter(p, s)|
    ensures forall x :: x in Filter(p, s) ==> f.requires(x)
    ensures |KeptIndices(p, s)| == |Filter(p, s)|
    ensures 0 <= KeptIndices(p, s)[k] < |s|
    ensures s[KeptIndices(p, s)[k]] == Filter(p, s)[k] && f.requires(Filter(p, s)[k])
    ensures Map(f, Filter(p, s))[k] == f(s[KeptIndices(p, s)[k]])
  {
    KeptIndicesAt(p, s);
  }

  /**
   * Writes `f(row)` over every row of `a`, one row at a time: the model of
   * a whole-column assignment through a row mask, where `f`
   * changes the rows the mask selects and leaves the others as they are.
   */
  method UpdateEach<T>(a: array<T>, f: T -> T)
    modifies a
    ensures a[..] == Map(f, old(a[..]))
  {
    var i := 0;
    while i < a.Length
      invariant 0 <= i <= a.Length
      invariant forall k :: 0 <= k < i ==> a[k] == f(old(a[k]))
      invariant forall k :: i <= k < a.Length ==> a[k] == old(a[k])
    {
      a[i] := f(a[i]);
      i := i + 1;
    }
  }
}
