/**
 * Integer screen geometry of the glow: rectangles in output coordinates (wf::geometry_t),
 * damage regions as sets of integer points, the damage box a decoration reports, the quad
 * it draws, and the map from output coordinates to normalized device coordinates.
 * Float arithmetic of the source is modelled over the reals.
 */
module Geometry {
  import opened Wrappers

  /** An axis-aligned rectangle: origin (x, y), extent width x height. */
  datatype Rect = Rect(x: int, y: int, width: int, height: int)

  /** A pixel position; regions are sets of them. */
  type Point = (int, int)

  /** The rectangle whose every coordinate is 0: what a node of a gone view reports. */
  const EmptyBox := Rect(0, 0, 0, 0)

  /**
   * `n` is `v` rounded toward zero: it lies between 0 and `v` and less than one unit from `v`
   * (what a C++ float-to-int conversion produces).
   */
  predicate TowardZero(n: int, v: real) {
    if 0.0 <= v then 0 <= n && n as real <= v < n as real + 1.0
    else n <= 0 && n as real - 1.0 < v <= n as real
  }

  /** Rounding toward zero has one answer, so TowardZero pins an integer down. */
  lemma TowardZeroUnique(n: int, m: int, v: real)
    requires TowardZero(n, v) && TowardZero(m, v)
    ensures n == m
  {
  }

  /** C++ static_cast<int> of a floating value: truncation toward zero. */
  function Trunc(v: real): (n: int)
    ensures TowardZero(n, v)
  {
    if v >= 0.0 then v.Floor else -((-v).Floor)
  }

  predicate InRect(r: Rect, p: Point) {
    r.x <= p.0 < r.x + r.width && r.y <= p.1 < r.y + r.height
  }

  /** The region (wf::region_t) built from one rectangle: the pixels it covers. */
  function RectRegion(r: Rect): set<Point> {
    set x: int, y: int | r.x <= x < r.x + r.width && r.y <= y < r.y + r.height :: (x, y)
  }

  lemma InRegion(r: Rect, p: Point)
    ensures p in RectRegion(r) <==> InRect(r, p)
  {
    if InRect(r, p) {
      assert (p.0, p.1) in RectRegion(r);
    }
  }

  /** A rectangle covers no pixel exactly when one of its sides is not positive. */
  lemma RegionEmptyIff(r: Rect)
    ensures RectRegion(r) == {} <==> r.width <= 0 || r.height <= 0
  {
    if r.width > 0 && r.height > 0 {
      InRegion(r, (r.x, r.y));
    } else {
      forall p | p in RectRegion(r) ensures false {
        InRegion(r, p);
      }
    }
  }

  function Max(a: int, b: int): int { if a < b then b else a }
  function Min(a: int, b: int): int { if a < b then a else b }

  /** The overlap of two rectangles (its sides may come out non-positive). */
  function Intersect(a: Rect, b: Rect): (r: Rect) {
    var x0, y0 := Max(a.x, b.x), Max(a.y, b.y);
    Rect(x0, y0, Min(a.x + a.width, b.x + b.width) - x0, Min(a.y + a.height, b.y + b.height) - y0)
  }

  /**
   * Clipping a rectangular damage to a box keeps exactly the overlap rectangle, and the clip is
   * empty exactly when that rectangle has no positive width or height.
   */
  lemma ClipRectDamage(box: Rect, d: Rect)
    ensures RectRegion(box) * RectRegion(d) == RectRegion(Intersect(box, d))
    ensures RectRegion(box) * RectRegion(d) == {} <==>
      Intersect(box, d).width <= 0 || Intersect(box, d).height <= 0
  {
    IntersectRegion(box, d);
    RegionEmptyIff(Intersect(box, d));
  }

  /** Intersecting two rectangle regions is the region of the overlap rectangle. */
  lemma IntersectRegion(a: Rect, b: Rect)
    ensures RectRegion(Intersect(a, b)) == RectRegion(a) * RectRegion(b)
  {
    forall p ensures p in RectRegion(Intersect(a, b)) <==> p in RectRegion(a) * RectRegion(b) {
      InRegion(a, p);
      InRegion(b, p);
      InRegion(Intersect(a, b), p);
    }
  }

  /** Two rectangles that lie apart along x or along y share no pixel. */
  predicate Apart(a: Rect, b: Rect) {
    a.x + a.width <= b.x || b.x + b.width <= a.x || a.y + a.height <= b.y || b.y + b.height <= a.y
  }

  lemma ApartRegionsDisjoint(a: Rect, b: Rect)
    requires Apart(a, b)
    ensures RectRegion(a) * RectRegion(b) == {}
  {
    forall p | p in RectRegion(a) * RectRegion(b) ensures false {
      InRegion(a, p);
      InRegion(b, p);
    }
  }

  /**
   * The damage box of a decoration (glow_decoration_node_t::get_bounding_box): EmptyBox for a
   * null or unmapped view, else the view's box grown by e = int(glowRadius + borderWidth) on
   * every side.
   */
  function ExpandedBox(view: Option<Rect>, glowRadius: real, borderWidth: real): (r: Rect)
    ensures view.None? ==> r == EmptyBox
    ensures view.Some? ==>
      var b, e := view.value, Trunc(glowRadius + borderWidth);
      && b.x - r.x == e && (r.x + r.width) - (b.x + b.width) == e
      && b.y - r.y == e && (r.y + r.height) - (b.y + b.height) == e
  {
    match view
    case None => EmptyBox
    case Some(b) =>
      var expand := Trunc(glowRadius + borderWidth);
      Rect(b.x - expand, b.y - expand, b.width + 2 * expand, b.height + 2 * expand)
  }

  /** A gone view's decoration covers no pixel, so it can never meet any damage. */
  lemma GoneViewBoxEmpty(glowRadius: real, borderWidth: real)
    ensures RectRegion(ExpandedBox(None, glowRadius, borderWidth)) == {}
  {
    RegionEmptyIff(EmptyBox);
  }

  /** With a non-negative expansion the damage box covers every pixel of the view. */
  lemma ExpandedBoxCoversView(b: Rect, glowRadius: real, borderWidth: real)
    requires glowRadius + borderWidth >= 0.0
    ensures RectRegion(b) <= RectRegion(ExpandedBox(Some(b), glowRadius, borderWidth))
  {
    var r := ExpandedBox(Some(b), glowRadius, borderWidth);
    forall p | p in RectRegion(b) ensures p in RectRegion(r) {
      InRegion(b, p);
      InRegion(r, p);
    }
  }

  /**
   * The quad render() draws: each coordinate of the view box moved out by glowRadius in
   * floating point, then truncated back to int.
   */
  function DrawQuad(b: Rect, glowRadius: real): (r: Rect)
    ensures TowardZero(r.x, b.x as real - glowRadius) && TowardZero(r.y, b.y as real - glowRadius)
    ensures TowardZero(r.width, b.width as real + 2.0 * glowRadius)
    ensures TowardZero(r.height, b.height as real + 2.0 * glowRadius)
    ensures glowRadius == glowRadius.Floor as real ==>
      var k := glowRadius.Floor;
      r == Rect(b.x - k, b.y - k, b.width + 2 * k, b.height + 2 * k)
  {
    Rect(Trunc(b.x as real - glowRadius), Trunc(b.y as real - glowRadius),
         Trunc(b.width as real + 2.0 * glowRadius), Trunc(b.height as real + 2.0 * glowRadius))
  }

  /**
   * With a whole, non-negative radius and a non-negative border width, the drawn quad stays
   * inside the damage box.
   */
  lemma DrawQuadInsideDamageBox(b: Rect, glowRadius: real, borderWidth: real)
    requires glowRadius == glowRadius.Floor as real && glowRadius >= 0.0 && borderWidth >= 0.0
    ensures RectRegion(DrawQuad(b, glowRadius)) <= RectRegion(ExpandedBox(Some(b), glowRadius, borderWidth))
  {
    var q, d := DrawQuad(b, glowRadius), ExpandedBox(Some(b), glowRadius, borderWidth);
    assert Trunc(glowRadius + borderWidth) >= glowRadius.Floor;
    forall p | p in RectRegion(q) ensures p in RectRegion(d) {
      InRegion(q, p);
      InRegion(d, p);
    }
  }

  /**
   * The two expansions differ: with glow radius 20.5 and no border the quad starts one pixel
   * left of and above the damage box, so the quad is not contained in it.
   */
  lemma DrawQuadEscapesDamageBox()
    ensures !(RectRegion(DrawQuad(Rect(100, 100, 50, 50), 20.5)) <= RectRegion(ExpandedBox(Some(Rect(100, 100, 50, 50)), 20.5, 0.0)))
  {
    var q := DrawQuad(Rect(100, 100, 50, 50), 20.5);
    var d := ExpandedBox(Some(Rect(100, 100, 50, 50)), 20.5, 0.0);
    assert q == Rect(79, 79, 91, 91);
    assert d == Rect(80, 80, 90, 90);
    InRegion(q, (79, 79));
    InRegion(d, (79, 79));
  }

  /** One output coordinate in normalized device coordinates of a target axis: 2(v - origin)/size - 1. */
  function ToNdc(v: int, origin: int, size: int): real
    requires size != 0
  {
    ((v - origin) as real / size as real) * 2.0 - 1.0
  }

  /** The inverse map, from a device coordinate back to an output coordinate. */
  function FromNdc(n: real, origin: int, size: int): real {
    origin as real + (n + 1.0) / 2.0 * size as real
  }

  /** The NDC map is invertible over the reals, in both directions. */
  lemma NdcRoundTrip(v: int, n: real, origin: int, size: int)
    requires size != 0
    ensures FromNdc(ToNdc(v, origin, size), origin, size) == v as real
    ensures ToNdc(v, origin, size) == n <==> FromNdc(n, origin, size) == v as real
  {
    var s, d := size as real, (v - origin) as real;
    assert (d / s) * s == d;
    assert (d / s * 2.0 - 1.0 + 1.0) / 2.0 * s == d;
    if FromNdc(n, origin, size) == v as real {
      var m := (n + 1.0) / 2.0;
      assert m * s == d;
      assert m == m * s / s;
    }
  }

  /** Inside [origin, origin + size] of a positive size, the device coordinate lies in [-1, 1]. */
  lemma NdcInUnitRange(v: int, origin: int, size: int)
    requires size > 0 && origin <= v <= origin + size
    ensures -1.0 <= ToNdc(v, origin, size) <= 1.0
  {
    var s, d := size as real, (v - origin) as real;
    assert 0.0 <= d / s <= 1.0;
  }

  /** The four edges of the draw quad in normalized device coordinates (the vertices of render()). */
  datatype NdcQuad = NdcQuad(left: real, right: real, top: real, bottom: real)

  /**
   * The quad of a rectangle in a render target. None when the target has a zero width or
   * height: the source divides by it unguarded, which in float gives infinities or NaN.
   */
  function QuadToNdc(geom: Rect, target: Rect): (q: Option<NdcQuad>)
    ensures q.Some? <==> target.width != 0 && target.height != 0
    ensures q.Some? ==>
      && FromNdc(q.value.left, target.x, target.width) == geom.x as real
      && FromNdc(q.value.right, target.x, target.width) == (geom.x + geom.width) as real
      && FromNdc(q.value.top, target.y, target.height) == geom.y as real
      && FromNdc(q.value.bottom, target.y, target.height) == (geom.y + geom.height) as real
  {
    if target.width == 0 || target.height == 0 then None
    else
      NdcRoundTrip(geom.x, 0.0, target.x, target.width);
      NdcRoundTrip(geom.x + geom.width, 0.0, target.x, target.width);
      NdcRoundTrip(geom.y, 0.0, target.y, target.height);
      NdcRoundTrip(geom.y + geom.height, 0.0, target.y, target.height);
      Some(NdcQuad(ToNdc(geom.x, target.x, target.width),
                   ToNdc(geom.x + geom.width, target.x, target.width),
                   ToNdc(geom.y, target.y, target.height),
                   ToNdc(geom.y + geom.height, target.y, target.height)))
  }

  /** A quad of non-negative size lying inside the target maps into the unit square [-1, 1]². */
  lemma QuadInsideTargetInUnitSquare(geom: Rect, target: Rect)
    requires target.width > 0 && target.height > 0 && geom.width >= 0 && geom.height >= 0
    requires target.x <= geom.x && geom.x + geom.width <= target.x + target.width
    requires target.y <= geom.y && geom.y + geom.height <= target.y + target.height
    ensures var q := QuadToNdc(geom, target).value;
      && -1.0 <= q.left <= 1.0 && -1.0 <= q.right <= 1.0
      && -1.0 <= q.top <= 1.0 && -1.0 <= q.bottom <= 1.0
  {
    NdcInUnitRange(geom.x, target.x, target.width);
    NdcInUnitRange(geom.x + geom.width, target.x, target.width);
    NdcInUnitRange(geom.y, target.y, target.height);
    NdcInUnitRange(geom.y + geom.height, target.y, target.height);
  }
}
