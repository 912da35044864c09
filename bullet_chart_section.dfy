/**
  The dashboard's bullet-chart section: `_targetRanges` turns an
  indicator's bounds into the names of its target ranges and the inner
  boundaries between them, and `_valueText` names the range a value falls in.
*/
module BulletChartSection {
  import opened Js
  import Sorting

  /** An entry of `indicator.bound_json`: its `bound_name`, `mn_val` and `mx_val`. */
  datatype Bound = Bound(boundName: Value, mnVal: Value, mxVal: Value)

  /** A bound that survived the filter: both ends are finite numbers. */
  datatype Target = Target(boundName: Value, mnVal: real, mxVal: real)

  /** The map step: a non-finite lower end becomes -Infinity and a non-finite upper end +Infinity. */
  function Widen(b: Bound): Bound {
    b.(mnVal := if IsFinite(b.mnVal) then b.mnVal else NegInfinity,
       mxVal := if IsFinite(b.mxVal) then b.mxVal else PosInfinity)
  }

  /** The filter step: both ends finite. */
  predicate Valid(b: Bound) {
    IsFinite(b.mnVal) && IsFinite(b.mxVal)
  }

  /** The map and filter steps together; the kept bounds are read as targets. */
  function Kept(bounds: seq<Bound>): seq<Target> {
    if |bounds| == 0 then []
    else
      var b := Widen(bounds[|bounds| - 1]);
      Kept(bounds[..|bounds| - 1]) + (if Valid(b) then [Target(b.boundName, b.mnVal.n, b.mxVal.n)] else [])
  }

  function MnVal(t: Target): real {
    t.mnVal
  }

  function RealLt(a: real, b: real): bool {
    a < b
  }

  /** `[mn_val, mx_val]` of each target, flattened. */
  function Endpoints(targets: seq<Target>): (r: seq<real>)
    ensures |r| == 2 * |targets|
  {
    if |targets| == 0 then []
    else Endpoints(targets[..|targets| - 1]) + [targets[|targets| - 1].mnVal, targets[|targets| - 1].mxVal]
  }

  /** `_.uniq`: the first occurrence of each value, in order. */
  function Uniq(s: seq<real>): seq<real> {
    if |s| == 0 then []
    else
      var u := Uniq(s[..|s| - 1]);
      if s[|s| - 1] in u then u else u + [s[|s| - 1]]
  }

  /** `.slice(1, -1)`: everything but the first and the last. */
  function Inner(s: seq<real>): (r: seq<real>)
    ensures |s| >= 2 ==> r == s[1..|s| - 1]
    ensures |s| < 2 ==> r == []
  {
    if |s| < 2 then [] else s[1..|s| - 1]
  }

  function Names(targets: seq<Target>): (r: seq<Value>)
    ensures |r| == |targets|
  {
    if |targets| == 0 then []
    else Names(targets[..|targets| - 1]) + [targets[|targets| - 1].boundName]
  }

  /** The kept bounds sorted by `mn_val`. */
  function SortedTargets(boundJson: Option<seq<Bound>>): seq<Target> {
    Sorting.SortBy(Kept(boundJson.GetOr([])), MnVal, RealLt)
  }

  /**
    `_targetRanges(indicator)`: the names of the kept bounds in ascending
    `mn_val` order, and their distinct endpoints without the first and last.
    `boundJson` is `None` when the indicator or its `bound_json` is missing.
  */
  function TargetRanges(boundJson: Option<seq<Bound>>): (r: (seq<Value>, seq<real>))
    ensures |r.0| == |SortedTargets(boundJson)|
  {
    var targets := SortedTargets(boundJson);
    (Names(targets), Inner(Uniq(Endpoints(targets))))
  }

  /** A kept target is exactly a bound with finite ends, read as reals. */
  lemma {:induction false} KeptSpec(bounds: seq<Bound>, t: Target)
    ensures t in Kept(bounds) <==>
      exists i :: 0 <= i < |bounds| && Valid(bounds[i]) &&
        t == Target(bounds[i].boundName, bounds[i].mnVal.n, bounds[i].mxVal.n)
  {
    if |bounds| > 0 {
      var q := bounds[..|bounds| - 1];
      KeptSpec(q, t);
      assert forall i :: 0 <= i < |q| ==> q[i] == bounds[i];
      var b := bounds[|bounds| - 1];
      assert Valid(Widen(b)) <==> Valid(b);
      assert Valid(b) ==> Widen(b) == b;
    }
  }

  lemma RealLtOrder()
    ensures Sorting.StrictTotalOrder(RealLt)
  {
  }

  /**
    The targets are the kept bounds, each once, in ascending `mn_val` order,
    bounds with equal `mn_val` in input order; the names follow them.
  */
  lemma TargetsOrdered(boundJson: Option<seq<Bound>>)
    ensures var targets := SortedTargets(boundJson);
      && multiset(targets) == multiset(Kept(boundJson.GetOr([])))
      && (forall a, b :: 0 <= a < b < |targets| ==> targets[a].mnVal <= targets[b].mnVal)
      && (forall m :: Sorting.WithKey(targets, MnVal, m) == Sorting.WithKey(Kept(boundJson.GetOr([])), MnVal, m))
      && (forall i :: 0 <= i < |targets| ==> TargetRanges(boundJson).0[i] == targets[i].boundName)
  {
    var kept := Kept(boundJson.GetOr([]));
    var targets := SortedTargets(boundJson);
    RealLtOrder();
    Sorting.SortByPermutes(kept, MnVal, RealLt);
    Sorting.SortBySorted(kept, MnVal, RealLt);
    forall m
      ensures Sorting.WithKey(targets, MnVal, m) == Sorting.WithKey(kept, MnVal, m)
    {
      Sorting.SortByStable(kept, MnVal, RealLt, m);
    }
    NamesAt(targets);
  }

  lemma {:induction false} NamesAt(targets: seq<Target>)
    ensures forall i :: 0 <= i < |targets| ==> Names(targets)[i] == targets[i].boundName
  {
    if |targets| > 0 {
      NamesAt(targets[..|targets| - 1]);
    }
  }

  /** Uniq keeps every value once and nothing else. */
  lemma {:induction false} UniqSpec(s: seq<real>)
    ensures forall x :: x in Uniq(s) <==> x in s
    ensures forall i, j :: 0 <= i < j < |Uniq(s)| ==> Uniq(s)[i] != Uniq(s)[j]
  {
    if |s| > 0 {
      UniqSpec(s[..|s| - 1]);
      assert s == s[..|s| - 1] + [s[|s| - 1]];
    }
  }

  /** The index of the first occurrence of x in s. */
  function FirstIndex(s: seq<real>, x: real): (i: nat)
    requires x in s
    ensures i < |s| && s[i] == x && x !in s[..i]
  {
    if s[0] == x then 0 else 1 + FirstIndex(s[1..], x)
  }

  /** Uniq lists the values in the order of their first occurrences. */
  lemma {:induction false} UniqFirstOccurrenceOrder(s: seq<real>)
    ensures forall x :: x in Uniq(s) ==> x in s
    ensures forall i, j :: 0 <= i < j < |Uniq(s)| ==> FirstIndex(s, Uniq(s)[i]) < FirstIndex(s, Uniq(s)[j])
  {
    UniqSpec(s);
    if |s| > 0 {
      var q := s[..|s| - 1];
      var u := Uniq(q);
      UniqFirstOccurrenceOrder(q);
      UniqSpec(q);
      forall x | x in q
        ensures FirstIndex(s, x) == FirstIndex(q, x)
      {
        FirstIndexPrefix(s, |s| - 1, x);
      }
      var last := s[|s| - 1];
      if last !in u {
        assert last !in q;
        assert FirstIndex(s, last) == |s| - 1 by {
          FirstIndexLast(s);
        }
      }
    }
  }

  lemma {:induction false} FirstIndexPrefix(s: seq<real>, n: nat, x: real)
    requires n <= |s| && x in s[..n]
    ensures FirstIndex(s, x) == FirstIndex(s[..n], x)
  {
    if s[0] != x {
      assert s[1..][..n - 1] == s[..n][1..];
      FirstIndexPrefix(s[1..], n - 1, x);
    }
  }

  lemma FirstIndexLast(s: seq<real>)
    requires |s| > 0 && s[|s| - 1] !in s[..|s| - 1]
    ensures FirstIndex(s, s[|s| - 1]) == |s| - 1
  {
  }

  /**
    The boundaries are distinct endpoints of the kept bounds, in first
    occurrence order, leaving out the first and the last distinct endpoint.
  */
  lemma BoundariesSpec(boundJson: Option<seq<Bound>>)
    ensures var ends := Endpoints(SortedTargets(boundJson));
      var u := Uniq(ends);
      var boundaries := TargetRanges(boundJson).1;
      && (forall x :: x in boundaries ==> x in ends)
      && (forall i, j :: 0 <= i < j < |boundaries| ==> boundaries[i] != boundaries[j])
      && (|u| >= 2 ==> boundaries == u[1..|u| - 1] && |boundaries| == |u| - 2)
      && (|u| < 2 ==> boundaries == [])
  {
    var ends := Endpoints(SortedTargets(boundJson));
    UniqSpec(ends);
  }

  /**
    Two adjoining ranges [lo, mid] and [mid, hi], in either order, have the
    single boundary mid, and their names come out in ascending order.
  */
  lemma AdjoiningRanges(first: Value, second: Value, lo: real, mid: real, hi: real)
    requires lo < mid < hi
    ensures var lower, upper := Bound(first, Num(lo), Num(mid)), Bound(second, Num(mid), Num(hi));
      && TargetRanges(Some([lower, upper])) == ([first, second], [mid])
      && TargetRanges(Some([upper, lower])) == ([first, second], [mid])
  {
    var lower, upper := Bound(first, Num(lo), Num(mid)), Bound(second, Num(mid), Num(hi));
    var t0, t1 := Target(first, lo, mid), Target(second, mid, hi);
    KeptPair(lower, upper);
    KeptPair(upper, lower);
    SortPair(t0, t1);
    SortPair(t1, t0);
    assert SortedTargets(Some([lower, upper])) == [t0, t1];
    assert SortedTargets(Some([upper, lower])) == [t0, t1];
    AdjoiningPair(t0, t1);
  }

  /** Names and boundaries of two sorted adjoining targets. */
  lemma AdjoiningPair(t0: Target, t1: Target)
    requires t0.mnVal < t0.mxVal == t1.mnVal < t1.mxVal
    ensures Names([t0, t1]) == [t0.boundName, t1.boundName]
    ensures Inner(Uniq(Endpoints([t0, t1]))) == [t0.mxVal]
  {
    assert [t0, t1][..1] == [t0];
    assert [t0][..0] == [];
    assert Endpoints([t0]) == [t0.mnVal, t0.mxVal];
    assert Endpoints([t0, t1]) == [t0.mnVal, t0.mxVal, t1.mnVal, t1.mxVal];
    UniqSharedEnd(t0.mnVal, t0.mxVal, t1.mxVal);
  }

  /** Two bounds with finite ends are both kept, in input order. */
  lemma KeptPair(b0: Bound, b1: Bound)
    requires Valid(b0) && Valid(b1)
    ensures Kept([b0, b1]) == [Target(b0.boundName, b0.mnVal.n, b0.mxVal.n), Target(b1.boundName, b1.mnVal.n, b1.mxVal.n)]
  {
    assert Widen(b0) == b0 && Widen(b1) == b1;
    assert [b0, b1][..1] == [b0];
    assert [b0][..0] == [];
    assert Kept([b0]) == [Target(b0.boundName, b0.mnVal.n, b0.mxVal.n)];
  }

  /** Two targets come out of the sort with the smaller `mn_val` first. */
  lemma SortPair(t0: Target, t1: Target)
    requires t0.mnVal != t1.mnVal
    ensures var pair := if t0.mnVal < t1.mnVal then [t0, t1] else [t1, t0];
      Sorting.SortBy([t0, t1], MnVal, RealLt) == pair
  {
    assert [t0][..0] == [];
    assert Sorting.SortBy([t0], MnVal, RealLt) == [t0];
    assert [t0, t1][..1] == [t0];
    assert [t0][1..] == [];
    if t0.mnVal < t1.mnVal {
      assert Sorting.Insert([t0], MnVal, RealLt, t1) == [t0] + [t1];
    }
  }

  /** The endpoint shared by two adjoining ranges is listed once. */
  lemma UniqSharedEnd(lo: real, mid: real, hi: real)
    requires lo < mid < hi
    ensures Uniq([lo, mid, mid, hi]) == [lo, mid, hi]
  {
    var e := [lo, mid, mid, hi];
    assert e[..1] == [lo] && e[..2] == [lo, mid] && e[..3] == [lo, mid, mid];
    assert [lo][..0] == [];
    assert Uniq([lo]) == [lo];
    assert [lo, mid][..1] == [lo];
    assert Uniq([lo, mid]) == [lo, mid];
    assert [lo, mid, mid][..2] == [lo, mid];
    assert Uniq([lo, mid, mid]) == [lo, mid];
  }

  /** The index `_valueText` reads from the names: 0 below the first threshold, 1 below the second, else 2. */
  function Rank(value: real, thresholds: seq<real>): (r: nat)
    ensures r <= 2
    ensures |thresholds| == 0 ==> r == 2
    ensures |thresholds| == 1 ==> r == (if value < thresholds[0] then 0 else 2)
    ensures |thresholds| >= 2 && thresholds[0] <= thresholds[1] ==>
      r == (if thresholds[0] <= value then 1 else 0) + (if thresholds[1] <= value then 1 else 0)
  {
    if |thresholds| > 0 && value < thresholds[0] then 0
    else if |thresholds| > 1 && value >= thresholds[0] && value < thresholds[1] then 1
    else 2
  }

  /** `names[k]`, undefined past the end. */
  function At(names: seq<Value>, k: nat): Value {
    if k < |names| then names[k] else Undefined
  }

  /** `_valueText(value, [names, thresholds])` */
  function ValueText(value: Value, names: seq<Value>, thresholds: seq<real>): (r: Value)
    ensures !IsFinite(value) ==> r == Str("")
  {
    if !value.Null? && IsFinite(value) then At(names, Rank(value.n, thresholds))
    else Str("")
  }

  /** The three ranges of `_valueText`, with both thresholds present. */
  lemma ValueTextRanges(v: real, names: seq<Value>, thresholds: seq<real>)
    requires |thresholds| >= 2 && |names| >= 3
    ensures v < thresholds[0] ==> ValueText(Num(v), names, thresholds) == names[0]
    ensures thresholds[0] <= v < thresholds[1] ==> ValueText(Num(v), names, thresholds) == names[1]
    ensures !(v < thresholds[0]) && !(thresholds[0] <= v < thresholds[1]) ==> ValueText(Num(v), names, thresholds) == names[2]
  {
  }

  /** With ordered thresholds a larger value never gets an earlier name. */
  lemma {:induction false} RankMonotone(x: real, y: real, thresholds: seq<real>)
    requires |thresholds| >= 2 ==> thresholds[0] <= thresholds[1]
    requires x <= y
    ensures Rank(x, thresholds) <= Rank(y, thresholds)
  {
  }

  /** Without thresholds every finite value gets the third name. */
  lemma NoThresholds(v: real, names: seq<Value>)
    ensures ValueText(Num(v), names, []) == At(names, 2)
  {
  }
}
