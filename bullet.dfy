/**
  The bullet chart component: the computed `value`, `marker`, `max`,
  `indicator` and `title` of its view model, and the `fill` colour rule its
  `draw` uses.  Datapoint values and range ends are numbers, read as exact
  reals.
*/
module Bullet {
  import opened Js

  /** A target range of the indicator: `start`, `end` and `name`. */
  datatype Range = Range(start: real, end: real, name: Value)

  /** The fields of an indicator the chart reads; `ranges` is `None` when falsy. */
  datatype Indicator = Indicator(shortName: Value, ranges: Option<seq<Range>>)

  const Good := "#2B8CBE"
  const Bad := "#AF373E"
  const Neutral := "#707677"

  /** `value`: null with no datapoints, otherwise the last datapoint's value. */
  function LastValue(values: seq<real>): (r: Option<real>)
    ensures r.None? <==> |values| == 0
    ensures r.Some? ==> r.value == values[|values| - 1]
  {
    if |values| < 1 then None else Some(values[|values| - 1])
  }

  /** The sum of a run of values. */
  function Sum(s: seq<real>): real {
    if |s| == 0 then 0.0 else s[0] + Sum(s[1..])
  }

  /** The mean of a non-empty run of values. */
  function Mean(s: seq<real>): real
    requires |s| > 0
  {
    Sum(s) / (|s| as real)
  }

  /**
    `marker`: null with fewer than two datapoints, otherwise the mean of
    every datapoint but the last, summed from the second-to-last back to the
    first.
  */
  method Marker(values: seq<real>) returns (r: Option<real>)
    ensures r.None? <==> |values| < 2
    ensures r.Some? ==> r.value == Mean(values[..|values| - 1])
  {
    var length := |values|;
    if length < 2 {
      return None;
    }
    var avg := SumBackward(values, length - 1);
    avg := avg / ((length - 1) as real);
    return Some(avg);
  }

  /** The loop of `marker`: adds up values[n - 1], ..., values[0]. */
  method SumBackward(values: seq<real>, n: nat) returns (avg: real)
    requires n <= |values|
    ensures avg == Sum(values[..n])
  {
    avg := 0.0;
    var i := n - 1;
    while i >= 0
      invariant -1 <= i < n
      invariant avg == Sum(values[i + 1..n])
    {
      SumStep(values, i, n);
      avg := avg + values[i];
      i := i - 1;
    }
    FromStart(values, n);
  }

  lemma FromStart(s: seq<real>, n: nat)
    requires n <= |s|
    ensures s[0..n] == s[..n]
  {
  }

  lemma SumStep(s: seq<real>, i: nat, j: nat)
    requires i < j <= |s|
    ensures Sum(s[i..j]) == s[i] + Sum(s[i + 1..j])
  {
    assert s[i..j][1..] == s[i + 1..j];
  }

  /** A mean lies between the smallest and the largest value averaged. */
  lemma {:induction false} SumBounds(s: seq<real>, lo: real, hi: real)
    requires forall k :: 0 <= k < |s| ==> lo <= s[k] <= hi
    ensures (|s| as real) * lo <= Sum(s) <= (|s| as real) * hi
  {
    if |s| > 0 {
      SumBounds(s[1..], lo, hi);
    }
  }

  lemma MeanBounds(s: seq<real>, lo: real, hi: real)
    requires |s| > 0
    requires forall k :: 0 <= k < |s| ==> lo <= s[k] <= hi
    ensures lo <= Mean(s) <= hi
  {
    SumBounds(s, lo, hi);
  }

  /** The largest of a non-empty run of values. */
  function MaxOf(s: seq<real>): (m: real)
    requires |s| > 0
    ensures forall k :: 0 <= k < |s| ==> s[k] <= m
    ensures exists k :: 0 <= k < |s| && s[k] == m
  {
    if |s| == 1 then s[0]
    else
      var rest := MaxOf(s[1..]);
      assert forall k :: 1 <= k < |s| ==> s[k] == s[1..][k - 1];
      if s[0] < rest then rest else s[0]
  }

  function Ends(ranges: seq<Range>): (r: seq<real>)
    ensures |r| == |ranges|
    ensures forall k :: 0 <= k < |ranges| ==> r[k] == ranges[k].end
  {
    if |ranges| == 0 then [] else [ranges[0].end] + Ends(ranges[1..])
  }

  /**
    `max`: 0 with no datapoints or no indicator; otherwise the larger of the
    largest range end and the largest datapoint value.  The indicator's
    ranges default to one range ending at 0 when falsy; an empty list of
    ranges has no largest end, and `Math.max` then gives NaN.
  */
  function Max(values: seq<real>, indicator: Option<Indicator>): (r: Value)
    ensures |values| < 1 || indicator.None? ==> r == Num(0.0)
  {
    if |values| < 1 || indicator.None? then Num(0.0)
    else
      var ranges := indicator.value.ranges.GetOr([Range(0.0, 0.0, Undefined)]);
      if |ranges| == 0 then NaN
      else
        var a, b := MaxOf(Ends(ranges)), MaxOf(values);
        Num(if a < b then b else a)
  }

  /** With datapoints and ranges, `max` bounds every value and every range end and is one of them. */
  lemma MaxBoundsAll(values: seq<real>, indicator: Indicator)
    requires |values| > 0
    requires indicator.ranges.None? || |indicator.ranges.value| > 0
    ensures var r := Max(values, Some(indicator));
      var ranges := indicator.ranges.GetOr([Range(0.0, 0.0, Undefined)]);
      && r.Num?
      && (forall k :: 0 <= k < |values| ==> values[k] <= r.n)
      && (forall k :: 0 <= k < |ranges| ==> ranges[k].end <= r.n)
      && ((exists k :: 0 <= k < |values| && values[k] == r.n) || (exists k :: 0 <= k < |ranges| && ranges[k].end == r.n))
  {
    var ranges := indicator.ranges.GetOr([Range(0.0, 0.0, Undefined)]);
    var e := Ends(ranges);
    var a, b := MaxOf(e), MaxOf(values);
    var ka :| 0 <= ka < |e| && e[ka] == a;
    assert ranges[ka].end == a;
  }

  /** Without ranges the default range ending at 0 keeps `max` at least 0. */
  lemma MaxDefaultRange(values: seq<real>, shortName: Value)
    requires |values| > 0
    ensures var r := Max(values, Some(Indicator(shortName, None)));
      r.Num? && r.n >= 0.0
  {
    assert Ends([Range(0.0, 0.0, Undefined)]) == [0.0];
  }

  /** An empty (truthy) list of ranges makes `max` NaN. */
  lemma MaxEmptyRanges(values: seq<real>, shortName: Value)
    requires |values| > 0
    ensures Max(values, Some(Indicator(shortName, Some([])))) == NaN
  {
  }

  /** `indicator`: the first indicator, or null when the list is missing or empty. */
  function FirstIndicator(indicators: Option<seq<Indicator>>): (r: Option<Indicator>)
    ensures r.None? <==> indicators.None? || |indicators.value| == 0
    ensures r.Some? ==> r.value == indicators.value[0]
  {
    if indicators.Some? && |indicators.value| > 0 then Some(indicators.value[0]) else None
  }

  /** `title`: '' without an indicator, otherwise its `short_name`, or '' when that is falsy. */
  function Title(indicator: Option<Indicator>): (r: Value)
    ensures indicator.None? ==> r == Str("")
    ensures indicator.Some? && Truthy(indicator.value.shortName) ==> r == indicator.value.shortName
    ensures indicator.Some? && Falsy(indicator.value.shortName) ==> r == Str("")
    ensures Truthy(r) || r == Str("")
  {
    if indicator.None? then Str("") else OrElse(indicator.value.shortName, Str(""))
  }

  /** A range named 'bad' that holds the value: start ≤ value < end. */
  predicate InBadRange(r: Range, value: real) {
    r.start <= value && r.end > value && r.name == Str("bad")
  }

  /**
    The `fill` colour rule: good when the value is more than 0.25 above the
    marker, bad when it is below the marker, otherwise bad exactly when some
    range named 'bad' holds the value.
  */
  function FillOf(value: real, marker: real, ranges: seq<Range>): string {
    if value - marker > 0.25 then Good
    else if value - marker < 0.0 then Bad
    else if exists k :: 0 <= k < |ranges| && InBadRange(ranges[k], value) then Bad
    else Neutral
  }

  /**
    `fill(value, marker, ranges)` as `draw` calls it: `value` and `marker`
    may be null, and the arithmetic and comparisons read null as 0.  The
    ranges are scanned from the last.
  */
  method Fill(value: Option<real>, marker: Option<real>, ranges: seq<Range>) returns (colour: string)
    ensures colour == FillOf(value.GetOr(0.0), marker.GetOr(0.0), ranges)
    ensures var v, m := value.GetOr(0.0), marker.GetOr(0.0);
      && (v - m > 0.25 ==> colour == Good)
      && (v - m < 0.0 ==> colour == Bad)
      && (0.0 <= v - m <= 0.25 ==> (colour == Bad <==> exists k :: 0 <= k < |ranges| && InBadRange(ranges[k], v)))
      && (0.0 <= v - m <= 0.25 ==> colour == Bad || colour == Neutral)
  {
    var v := if value.Some? then value.value else 0.0;
    var m := if marker.Some? then marker.value else 0.0;
    var delta := v - m;
    if delta > 0.25 {
      return Good;
    }
    if delta < 0.0 {
      return Bad;
    }
    var i := |ranges| - 1;
    while i >= 0
      invariant -1 <= i < |ranges|
      invariant forall k :: i < k < |ranges| ==> !InBadRange(ranges[k], v)
    {
      var range := ranges[i];
      if range.start <= v && range.end > v && range.name == Str("bad") {
        return Bad;
      }
      i := i - 1;
    }
    return Neutral;
  }

  /** A bullet with a single datapoint has a null marker, read as 0 by `fill`. */
  lemma SingleDatapointFill(x: real, ranges: seq<Range>)
    requires x > 0.25
    ensures FillOf(LastValue([x]).GetOr(0.0), None.GetOr(0.0), ranges) == Good
  {
  }

  /**
    The ranges `draw` hands to `fill`, as written:
    `(this.indicator && this.indicators.ranges) || []`.  `indicators` is the
    list of indicators, and a list has no `ranges` property, so the read is
    undefined and the ranges are always empty.
  */
  function DrawRangesAsWritten(indicators: Option<seq<Indicator>>): (r: seq<Range>)
    ensures |r| == 0
  {
    var indicator := FirstIndicator(indicators);
    if indicator.None? then []
    else
      var rangesOfList: Option<seq<Range>> := None;
      rangesOfList.GetOr([])
  }

  /** The ranges `draw` evidently means: those of the first indicator, `this.indicator.ranges || []`. */
  function DrawRanges(indicators: Option<seq<Indicator>>): (r: seq<Range>)
    ensures FirstIndicator(indicators).None? ==> r == []
    ensures FirstIndicator(indicators).Some? && FirstIndicator(indicators).value.ranges.Some? ==>
      r == FirstIndicator(indicators).value.ranges.value
    ensures FirstIndicator(indicators).Some? && FirstIndicator(indicators).value.ranges.None? ==> r == []
  {
    match FirstIndicator(indicators)
    case None => []
    case Some(indicator) => indicator.ranges.GetOr([])
  }

  /**
    As written, a value inside a 'bad' range of the indicator, close to the
    marker, is still drawn neutral: the 'bad' scan never sees a range.
  */
  lemma BadRangeNeverSeen(indicators: Option<seq<Indicator>>, value: real, marker: real)
    requires 0.0 <= value - marker <= 0.25
    ensures FillOf(value, marker, DrawRangesAsWritten(indicators)) == Neutral
  {
  }

  /** The input that shows it: one indicator with a 'bad' range [0, 10), value and marker 5. */
  lemma BadRangeExample()
    ensures var indicators := Some([Indicator(Str("x"), Some([Range(0.0, 10.0, Str("bad"))]))]);
      && FillOf(5.0, 5.0, DrawRangesAsWritten(indicators)) == Neutral
      && FillOf(5.0, 5.0, DrawRanges(indicators)) == Bad
  {
    var indicators := Some([Indicator(Str("x"), Some([Range(0.0, 10.0, Str("bad"))]))]);
    assert InBadRange(DrawRanges(indicators)[0], 5.0);
  }

  /**
    With the first indicator's ranges, a value close to the marker is drawn
    bad exactly when one of that indicator's 'bad' ranges holds it.
  */
  lemma DrawRangesReachFill(indicators: Option<seq<Indicator>>, value: real, marker: real)
    requires 0.0 <= value - marker <= 0.25
    requires FirstIndicator(indicators).Some? && FirstIndicator(indicators).value.ranges.Some?
    ensures var rs := FirstIndicator(indicators).value.ranges.value;
      FillOf(value, marker, DrawRanges(indicators)) == Bad <==>
        exists k :: 0 <= k < |rs| && InBadRange(rs[k], value)
  {
  }
}
