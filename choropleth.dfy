/**
  The choropleth map's geometry helpers: the bounding box of the features'
  points (`_calculateBounds`), its centre (`_calculateCenter`), the removal
  of border features before both, and the class and fill `update` gives each
  location.  Coordinates are exact reals; a missing bound (`d3.min` of no
  points) is `None`.
*/
module Choropleth {
  import opened Js

  /** A GeoJSON position `[lng, lat]`. */
  datatype Point = Point(lng: real, lat: real)

  /** A geometry: its `type` and, for polygons, its rings of positions. */
  datatype Geometry = Geometry(kind: string, rings: seq<seq<Point>>)

  /** A feature: `properties.isBorder`, its geometry and `properties.value`. */
  datatype Feature = Feature(isBorder: Value, geometry: Geometry, value: Value)

  /** `[[left, top], [right, bottom]]` */
  datatype Bounds = Bounds(left: Option<real>, top: Option<real>, right: Option<real>, bottom: Option<real>)

  /** `[lng, lat]`, `None` where the arithmetic met an undefined bound (NaN). */
  datatype Center = Center(lng: Option<real>, lat: Option<real>)

  predicate IsMultiPolygon(f: Feature) {
    f.geometry.kind == "MultiPolygon"
  }

  /** `_.flatten` of a list of rings: its positions, ring after ring. */
  function FlattenRings(rings: seq<seq<Point>>): seq<Point> {
    if |rings| == 0 then [] else FlattenRings(rings[..|rings| - 1]) + rings[|rings| - 1]
  }

  /** The positions the bounds are computed from: none from a MultiPolygon. */
  function Points(features: seq<Feature>): seq<Point> {
    if |features| == 0 then []
    else
      var f := features[|features| - 1];
      Points(features[..|features| - 1]) + (if IsMultiPolygon(f) then [] else FlattenRings(f.geometry.rings))
  }

  /** `d3.min`: the least value, or undefined for none. */
  function Min(xs: seq<real>): Option<real> {
    if |xs| == 0 then None
    else
      var m := Min(xs[..|xs| - 1]);
      var x := xs[|xs| - 1];
      if m.Some? && m.value <= x then m else Some(x)
  }

  /** `d3.max`: the greatest value, or undefined for none. */
  function Max(xs: seq<real>): Option<real> {
    if |xs| == 0 then None
    else
      var m := Max(xs[..|xs| - 1]);
      var x := xs[|xs| - 1];
      if m.Some? && m.value >= x then m else Some(x)
  }

  function Lngs(ps: seq<Point>): (r: seq<real>)
    ensures |r| == |ps|
    ensures forall k :: 0 <= k < |ps| ==> r[k] == ps[k].lng
  {
    if |ps| == 0 then [] else Lngs(ps[..|ps| - 1]) + [ps[|ps| - 1].lng]
  }

  function Lats(ps: seq<Point>): (r: seq<real>)
    ensures |r| == |ps|
    ensures forall k :: 0 <= k < |ps| ==> r[k] == ps[k].lat
  {
    if |ps| == 0 then [] else Lats(ps[..|ps| - 1]) + [ps[|ps| - 1].lat]
  }

  /** `_calculateBounds(features)` */
  function CalculateBounds(features: seq<Feature>): (b: Bounds)
    ensures |features| < 1 ==> b == Bounds(Some(0.0), Some(0.0), Some(0.0), Some(0.0))
  {
    if |features| < 1 then Bounds(Some(0.0), Some(0.0), Some(0.0), Some(0.0))
    else
      var ps := Points(features);
      Bounds(Min(Lngs(ps)), Max(Lats(ps)), Max(Lngs(ps)), Min(Lats(ps)))
  }

  /** `_calculateCenter(bounds)`: halfway between left and right, and between bottom and top. */
  function CalculateCenter(b: Bounds): (c: Center)
    ensures c.lat.Some? <==> b.bottom.Some? && b.top.Some?
    ensures c.lng.Some? <==> b.left.Some? && b.right.Some?
    ensures c.lat.Some? ==> c.lat.value - b.bottom.value == b.top.value - c.lat.value
    ensures c.lng.Some? ==> c.lng.value - b.left.value == b.right.value - c.lng.value
  {
    var lat := if b.bottom.Some? && b.top.Some? then Some(b.bottom.value + (b.top.value - b.bottom.value) / 2.0) else None;
    var lng := if b.left.Some? && b.right.Some? then Some(b.left.value + (b.right.value - b.left.value) / 2.0) else None;
    Center(lng, lat)
  }

  /** `_.reject(data, 'properties.isBorder')` */
  function WithoutBorders(data: seq<Feature>): (r: seq<Feature>)
    ensures |r| <= |data|
    ensures forall f :: f in r ==> f in data && Falsy(f.isBorder)
  {
    if |data| == 0 then []
    else
      var f := data[|data| - 1];
      WithoutBorders(data[..|data| - 1]) + (if Truthy(f.isBorder) then [] else [f])
  }

  /** The `class` attribute of a location. */
  function ClassName(v: Value): (r: string)
    ensures r == "location clickable" <==> IsFinite(v)
    ensures r == "location" <==> !IsFinite(v)
  {
    var classNames := ["location"] + (if IsFinite(v) then ["clickable"] else []);
    assert IsFinite(v) ==> classNames[1..] == ["clickable"] && Join(classNames) == "location" + " " + "clickable";
    assert !IsFinite(v) ==> classNames == ["location"] && Join(classNames) == "location";
    assert "location" + " " + "clickable" == "location clickable";
    assert "location" != "location clickable";
    Join(classNames)
  }

  /** `classNames.join(' ')` */
  function Join(names: seq<string>): string {
    if |names| == 0 then ""
    else if |names| == 1 then names[0]
    else names[0] + " " + Join(names[1..])
  }

  /** The `fill` style of a location; `colorScale` is the quantize scale. */
  function FillColour(v: Value, colorScale: real -> string): (r: string)
    ensures !IsFinite(v) ==> r == "#fff"
    ensures IsFinite(v) ==> r == colorScale(v.n)
  {
    if IsFinite(v) then colorScale(v.n) else "#fff"
  }

  /** A location is clickable exactly when it is coloured by the scale rather than white. */
  lemma ClickableIffScaled(v: Value, colorScale: real -> string)
    requires forall x :: colorScale(x) != "#fff"
    ensures ClassName(v) == "location clickable" <==> FillColour(v, colorScale) != "#fff"
  {
  }

  // ---- the least and greatest value

  lemma {:induction false} MinSpec(xs: seq<real>)
    ensures Min(xs).None? <==> |xs| == 0
    ensures Min(xs).Some? ==> (forall k :: 0 <= k < |xs| ==> Min(xs).value <= xs[k])
    ensures Min(xs).Some? ==> exists k :: 0 <= k < |xs| && xs[k] == Min(xs).value
  {
    if |xs| > 0 {
      var q := xs[..|xs| - 1];
      MinSpec(q);
      assert forall k :: 0 <= k < |q| ==> q[k] == xs[k];
    }
  }

  lemma {:induction false} MaxSpec(xs: seq<real>)
    ensures Max(xs).None? <==> |xs| == 0
    ensures Max(xs).Some? ==> (forall k :: 0 <= k < |xs| ==> xs[k] <= Max(xs).value)
    ensures Max(xs).Some? ==> exists k :: 0 <= k < |xs| && xs[k] == Max(xs).value
  {
    if |xs| > 0 {
      var q := xs[..|xs| - 1];
      MaxSpec(q);
      assert forall k :: 0 <= k < |q| ==> q[k] == xs[k];
    }
  }

  // ---- which points count

  lemma {:induction false} FlattenRingsSpec(rings: seq<seq<Point>>, p: Point)
    ensures p in FlattenRings(rings) <==> exists r :: 0 <= r < |rings| && p in rings[r]
  {
    if |rings| > 0 {
      var q := rings[..|rings| - 1];
      FlattenRingsSpec(q, p);
      assert forall r :: 0 <= r < |q| ==> q[r] == rings[r];
    }
  }

  /** The bounds' points are exactly the positions of the features that are not MultiPolygons. */
  lemma {:induction false} PointsSpec(features: seq<Feature>, p: Point)
    ensures p in Points(features) <==>
      exists i :: 0 <= i < |features| && Counted(features[i], p)
  {
    if p in Points(features) {
      PointsSound(features, p);
    }
    if exists i :: 0 <= i < |features| && Counted(features[i], p) {
      var i :| 0 <= i < |features| && Counted(features[i], p);
      PointsComplete(features, i, p);
    }
  }

  lemma {:induction false} PointsSound(features: seq<Feature>, p: Point)
    requires p in Points(features)
    ensures exists i :: 0 <= i < |features| && Counted(features[i], p)
  {
    var n := |features| - 1;
    var q := features[..n];
    if p in Points(q) {
      PointsSound(q, p);
      var i :| 0 <= i < |q| && Counted(q[i], p);
      assert features[i] == q[i];
    } else {
      assert Counted(features[n], p);
    }
  }

  lemma {:induction false} PointsComplete(features: seq<Feature>, i: nat, p: Point)
    requires i < |features| && Counted(features[i], p)
    ensures p in Points(features)
  {
    var n := |features| - 1;
    var q := features[..n];
    var last := if IsMultiPolygon(features[n]) then [] else FlattenRings(features[n].geometry.rings);
    assert Points(features) == Points(q) + last;
    if i < n {
      assert q[i] == features[i];
      PointsComplete(q, i, p);
    } else {
      assert p in last;
    }
  }

  /** Point p is one of feature f's positions and f is not a MultiPolygon. */
  predicate Counted(f: Feature, p: Point) {
    !IsMultiPolygon(f) && p in FlattenRings(f.geometry.rings)
  }

  /** A MultiPolygon feature adds no points, wherever it stands. */
  lemma MultiPolygonIgnored(features: seq<Feature>, f: Feature)
    requires IsMultiPolygon(f)
    ensures Points(features + [f]) == Points(features)
  {
    assert (features + [f])[..|features|] == features;
  }

  // ---- the bounds

  /**
    With features, every counted point lies inside the bounds and each side
    of the bounds is attained by a counted point; with no counted point
    (only MultiPolygons) every side is undefined.
  */
  lemma BoundsContainPoints(features: seq<Feature>)
    requires |features| > 0
    ensures var b := CalculateBounds(features);
      var ps := Points(features);
      && (b.left.None? <==> |ps| == 0)
      && (b.left.None? <==> b.top.None?)
      && (b.left.None? <==> b.right.None?)
      && (b.left.None? <==> b.bottom.None?)
      && (forall p :: p in ps ==>
            b.left.value <= p.lng <= b.right.value && b.bottom.value <= p.lat <= b.top.value)
  {
    var ps := Points(features);
    MinSpec(Lngs(ps));
    MaxSpec(Lngs(ps));
    MinSpec(Lats(ps));
    MaxSpec(Lats(ps));
    forall p | p in ps
      ensures CalculateBounds(features).left.value <= p.lng <= CalculateBounds(features).right.value
      ensures CalculateBounds(features).bottom.value <= p.lat <= CalculateBounds(features).top.value
    {
      var k :| 0 <= k < |ps| && ps[k] == p;
      assert Lngs(ps)[k] == p.lng && Lats(ps)[k] == p.lat;
    }
  }

  lemma BoundsAttained(features: seq<Feature>)
    requires |features| > 0 && |Points(features)| > 0
    ensures var b := CalculateBounds(features);
      var ps := Points(features);
      && (exists p :: p in ps && p.lng == b.left.value)
      && (exists p :: p in ps && p.lng == b.right.value)
      && (exists p :: p in ps && p.lat == b.bottom.value)
      && (exists p :: p in ps && p.lat == b.top.value)
  {
    var ps := Points(features);
    var b := CalculateBounds(features);
    MinSpec(Lngs(ps));
    MaxSpec(Lngs(ps));
    MinSpec(Lats(ps));
    MaxSpec(Lats(ps));
    var i :| 0 <= i < |ps| && Lngs(ps)[i] == b.left.value;
    assert ps[i] in ps;
    var j :| 0 <= j < |ps| && Lngs(ps)[j] == b.right.value;
    assert ps[j] in ps;
    var k :| 0 <= k < |ps| && Lats(ps)[k] == b.bottom.value;
    assert ps[k] in ps;
    var l :| 0 <= l < |ps| && Lats(ps)[l] == b.top.value;
    assert ps[l] in ps;
  }

  /** The centre is the midpoint of the bounds, so it lies inside them. */
  lemma CenterInside(b: Bounds)
    requires b.left.Some? && b.right.Some? && b.top.Some? && b.bottom.Some?
    requires b.left.value <= b.right.value && b.bottom.value <= b.top.value
    ensures var c := CalculateCenter(b);
      && c.lng == Some((b.left.value + b.right.value) / 2.0)
      && c.lat == Some((b.bottom.value + b.top.value) / 2.0)
      && b.left.value <= c.lng.value <= b.right.value
      && b.bottom.value <= c.lat.value <= b.top.value
  {
  }

  /** The centre of computed bounds is inside them, and undefined exactly when no point counted. */
  lemma CenterOfFeatures(features: seq<Feature>)
    requires |features| > 0
    ensures var b := CalculateBounds(features);
      var c := CalculateCenter(b);
      && (c.lng.None? <==> |Points(features)| == 0)
      && (c.lat.None? <==> |Points(features)| == 0)
      && (c.lng.Some? ==> b.left.value <= c.lng.value <= b.right.value)
      && (c.lat.Some? ==> b.bottom.value <= c.lat.value <= b.top.value)
  {
    BoundsContainPoints(features);
    var ps := Points(features);
    if |ps| > 0 {
      assert ps[0] in ps;
      CenterInside(CalculateBounds(features));
    }
  }

  // ---- border features

  /** The features kept are exactly those not flagged as borders, in their order. */
  lemma {:induction false} WithoutBordersSpec(data: seq<Feature>)
    ensures forall f :: f in WithoutBorders(data) <==> f in data && Falsy(f.isBorder)
    ensures |WithoutBorders(data)| <= |data|
  {
    if |data| > 0 {
      WithoutBordersSpec(data[..|data| - 1]);
      assert data == data[..|data| - 1] + [data[|data| - 1]];
    }
  }

  /** A border feature, wherever it is added, changes neither the features kept nor the bounds. */
  lemma BorderIgnored(data: seq<Feature>, f: Feature)
    requires Truthy(f.isBorder)
    ensures WithoutBorders(data + [f]) == WithoutBorders(data)
    ensures CalculateBounds(WithoutBorders(data + [f])) == CalculateBounds(WithoutBorders(data))
  {
    assert (data + [f])[..|data|] == data;
  }
}
