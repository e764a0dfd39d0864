/** The outward walk of a lattice. */
module Lattice {
  // The bounded screen-space lattice and the search for its first clear point
  // (`walkLattice`, `nearestClear`).

  import opened Options
  import opened Geometry

  datatype Offset = Offset(dx: int, dy: int)

  /** One search: the card, its clamped ideal centre, and the lattice around it. */
  datatype Search = Search(card: Extent, ideal: Point, range: Range, stepX: real, stepY: real, maxRadius: nat)

  function Magnitude(n: int): nat {
    if n < 0 then -n else n
  }

  /** The index of the square ring an offset lies on. */
  function RingOf(o: Offset): nat {
    if Magnitude(o.dx) >= Magnitude(o.dy) then Magnitude(o.dx) else Magnitude(o.dy)
  }

  /** The clamped screen point an offset stands for. */
  function PointAt(s: Search, o: Offset): Point {
    ClampPoint(Point(s.ideal.x + o.dx as real * s.stepX, s.ideal.y + o.dy as real * s.stepY), s.range)
  }

  // ----- the order of the walk

  /** The columns `dx .. r` of ring `r`: its upper and lower edge, interleaved. */
  function Columns(r: int, dx: int): seq<Offset>
    decreases r + 1 - dx
  {
    if dx > r then [] else [Offset(dx, -r), Offset(dx, r)] + Columns(r, dx + 1)
  }

  /** The rows `dy .. r - 1` of ring `r`: its left and right edge, interleaved. */
  function Rows(r: int, dy: int): seq<Offset>
    decreases r - dy
  {
    if dy >= r then [] else [Offset(-r, dy), Offset(r, dy)] + Rows(r, dy + 1)
  }

  function Ring(r: int): seq<Offset> {
    if r == 0 then [Offset(0, 0)] else Columns(r, -r) + Rows(r, -r + 1)
  }

  /** The rings `r .. last`, innermost first. */
  function Rings(r: int, last: int): seq<Offset>
    decreases last + 1 - r
  {
    if r > last then [] else Ring(r) + Rings(r + 1, last)
  }

  ghost predicate Distinct(s: seq<Offset>) {
    forall i, j | 0 <= i < j < |s| :: s[i] != s[j]
  }

  lemma DistinctConcat(a: seq<Offset>, b: seq<Offset>)
    requires Distinct(a) && Distinct(b)
    requires forall o | o in a :: o !in b
    ensures Distinct(a + b)
  {
    forall i, j | 0 <= i < j < |a + b| ensures (a + b)[i] != (a + b)[j] {
      if i < |a| <= j {
        assert a[i] in a && b[j - |a|] in b;
      }
    }
  }

  lemma {:induction false} ColumnsSpec(r: int, dx: int)
    requires r > 0
    ensures Distinct(Columns(r, dx))
    ensures forall o :: o in Columns(r, dx) <==> dx <= o.dx <= r && (o.dy == r || o.dy == -r)
    decreases r + 1 - dx
  {
    if dx <= r {
      ColumnsSpec(r, dx + 1);
      DistinctConcat([Offset(dx, -r), Offset(dx, r)], Columns(r, dx + 1));
    }
  }

  lemma {:induction false} RowsSpec(r: int, dy: int)
    requires r > 0
    ensures Distinct(Rows(r, dy))
    ensures forall o :: o in Rows(r, dy) <==> dy <= o.dy < r && (o.dx == r || o.dx == -r)
    decreases r - dy
  {
    if dy < r {
      RowsSpec(r, dy + 1);
      DistinctConcat([Offset(-r, dy), Offset(r, dy)], Rows(r, dy + 1));
    }
  }

  lemma RingSpec(r: nat)
    ensures Distinct(Ring(r))
    ensures forall o :: o in Ring(r) <==> RingOf(o) == r
  {
    if r > 0 {
      ColumnsSpec(r, -(r as int));
      RowsSpec(r, -(r as int) + 1);
      DistinctConcat(Columns(r, -(r as int)), Rows(r, -(r as int) + 1));
    }
  }

  ghost predicate Outward(s: seq<Offset>) {
    forall i, j | 0 <= i < j < |s| :: RingOf(s[i]) <= RingOf(s[j])
  }

  lemma OutwardConcat(a: seq<Offset>, b: seq<Offset>, r: nat)
    requires Outward(b) && (forall o | o in a :: RingOf(o) == r) && forall o | o in b :: RingOf(o) > r
    ensures Outward(a + b)
  {
    hide RingOf;
    var c := a + b;
    forall i, j | 0 <= i < j < |c| ensures RingOf(c[i]) <= RingOf(c[j]) {
      if i < |a| {
        assert c[i] in a && (c[j] in a || c[j] in b);
      } else {
        assert c[i] == b[i - |a|] && c[j] == b[j - |a|];
      }
    }
  }

  /** The walk offers every offset of the rings `r .. last` exactly once, in
      nondecreasing ring order. */
  lemma {:induction false} RingsSpec(r: nat, last: int)
    ensures Distinct(Rings(r, last)) && Outward(Rings(r, last))
    ensures forall o :: o in Rings(r, last) <==> r <= RingOf(o) <= last
    decreases last + 1 - r
  {
    if r <= last {
      RingSpec(r);
      RingsSpec(r + 1, last);
      hide RingOf, Ring, Distinct, Outward;
      DistinctConcat(Ring(r), Rings(r + 1, last));
      OutwardConcat(Ring(r), Rings(r + 1, last), r);
    }
  }

  // ----- the first clear point

  predicate ClearAt(s: Search, o: Offset, obstacles: seq<Rect>) {
    Clear(s.card, PointAt(s, o), obstacles, MARGIN)
  }

  /** The reference answer: walk every offset, without skipping repeats. */
  function FirstClear(s: Search, offsets: seq<Offset>, obstacles: seq<Rect>): Option<Point> {
    if offsets == [] then None
    else if ClearAt(s, offsets[0], obstacles) then Some(PointAt(s, offsets[0]))
    else FirstClear(s, offsets[1..], obstacles)
  }

  ghost predicate AllBlocked(s: Search, offsets: seq<Offset>, obstacles: seq<Rect>) {
    forall o | o in offsets :: !ClearAt(s, o, obstacles)
  }

  lemma {:induction false} FirstClearOfConcat(s: Search, a: seq<Offset>, b: seq<Offset>, obstacles: seq<Rect>)
    ensures FirstClear(s, a + b, obstacles)
         == if FirstClear(s, a, obstacles).Some? then FirstClear(s, a, obstacles) else FirstClear(s, b, obstacles)
  {
    if a == [] {
      assert a + b == b;
    } else {
      assert (a + b)[1..] == a[1..] + b;
      FirstClearOfConcat(s, a[1..], b, obstacles);
    }
  }

  /** What the search returns: a clear point of the innermost ring that has
      one, or `None` exactly when every lattice point is blocked. */
  lemma NearestClearIsInnermost(s: Search, obstacles: seq<Rect>)
    ensures match FirstClear(s, Rings(0, s.maxRadius), obstacles)
            case None => forall o | RingOf(o) <= s.maxRadius :: !ClearAt(s, o, obstacles)
            case Some(p) =>
              exists o :: && RingOf(o) <= s.maxRadius && PointAt(s, o) == p && ClearAt(s, o, obstacles)
                          && forall q | RingOf(q) < RingOf(o) :: !ClearAt(s, q, obstacles)
  {
    hide Rings, PointAt, ClearAt;
    var all := Rings(0, s.maxRadius);
    RingsSpec(0, s.maxRadius);
    var k := FirstClearIndex(s, all, obstacles);
    if k < |all| {
      var o := all[k];
      assert o in all;
      forall q | RingOf(q) < RingOf(o)
        ensures !ClearAt(s, q, obstacles)
      {
        assert q in all;
        var j :| 0 <= j < |all| && all[j] == q;
        assert j < k;
        assert all[j] == all[..k][j];
      }
    }
  }

  lemma {:induction false} FirstClearIndex(s: Search, offsets: seq<Offset>, obstacles: seq<Rect>) returns (k: nat)
    ensures k <= |offsets| && AllBlocked(s, offsets[..k], obstacles)
    ensures k == |offsets| ==> FirstClear(s, offsets, obstacles) == None && AllBlocked(s, offsets, obstacles)
    ensures k < |offsets| ==>
              ClearAt(s, offsets[k], obstacles) && FirstClear(s, offsets, obstacles) == Some(PointAt(s, offsets[k]))
  {
    if offsets == [] || ClearAt(s, offsets[0], obstacles) {
      k := 0;
    } else {
      var rest := FirstClearIndex(s, offsets[1..], obstacles);
      k := rest + 1;
      assert offsets == [offsets[0]] + offsets[1..];
      assert offsets[..k] == [offsets[0]] + offsets[1..][..rest];
    }
  }

  /** Every point offered so far was blocked. */
  ghost predicate SeenBlocked(s: Search, seen: set<Point>, obstacles: seq<Rect>) {
    forall p | p in seen :: !Clear(s.card, p, obstacles, MARGIN)
  }

  /** Offer one offset: points already offered are skipped, and the visitor
      claims a point that is clear of every obstacle. */
  method Offer(s: Search, o: Offset, obstacles: seq<Rect>, seen: set<Point>)
    returns (claim: Option<Point>, next: set<Point>)
    requires SeenBlocked(s, seen, obstacles)
    ensures claim == if ClearAt(s, o, obstacles) then Some(PointAt(s, o)) else None
    ensures claim.None? ==> next == seen + {PointAt(s, o)} && SeenBlocked(s, next, obstacles)
  {
    var p := PointAt(s, o);
    if p in seen {
      return None, seen;
    }
    next := seen + {p};
    claim := if Clear(s.card, p, obstacles, MARGIN) then Some(p) else None;
  }

  /** The walk over one ring. */
  method WalkRing(s: Search, radius: nat, obstacles: seq<Rect>, seen: set<Point>)
    returns (best: Option<Point>, next: set<Point>)
    requires SeenBlocked(s, seen, obstacles)
    ensures best == FirstClear(s, Ring(radius), obstacles)
    ensures best.None? ==> SeenBlocked(s, next, obstacles)
  {
    hide PointAt, ClearAt, SeenBlocked, Clear;
    var r: int := radius;
    if r == 0 {
      best, next := Offer(s, Offset(0, 0), obstacles, seen);
      return;
    }
    next := seen;
    FirstClearOfConcat(s, Columns(r, -r), Rows(r, -r + 1), obstacles);
    for dx := -r to r + 1
      invariant SeenBlocked(s, next, obstacles)
      invariant FirstClear(s, Columns(r, -r), obstacles) == FirstClear(s, Columns(r, dx), obstacles)
    {
      FirstClearOfConcat(s, [Offset(dx, -r), Offset(dx, r)], Columns(r, dx + 1), obstacles);
      FirstClearOfConcat(s, [Offset(dx, -r)], [Offset(dx, r)], obstacles);
      assert [Offset(dx, -r)] + [Offset(dx, r)] == [Offset(dx, -r), Offset(dx, r)];
      best, next := Offer(s, Offset(dx, -r), obstacles, next);
      if best.Some? {
        return;
      }
      best, next := Offer(s, Offset(dx, r), obstacles, next);
      if best.Some? {
        return;
      }
    }
    for dy := -r + 1 to r
      invariant SeenBlocked(s, next, obstacles)
      invariant FirstClear(s, Ring(radius), obstacles) == FirstClear(s, Rows(r, dy), obstacles)
    {
      FirstClearOfConcat(s, [Offset(-r, dy), Offset(r, dy)], Rows(r, dy + 1), obstacles);
      FirstClearOfConcat(s, [Offset(-r, dy)], [Offset(r, dy)], obstacles);
      assert [Offset(-r, dy)] + [Offset(r, dy)] == [Offset(-r, dy), Offset(r, dy)];
      best, next := Offer(s, Offset(-r, dy), obstacles, next);
      if best.Some? {
        return;
      }
      best, next := Offer(s, Offset(r, dy), obstacles, next);
      if best.Some? {
        return;
      }
    }
    best := None;
  }

  lemma FirstClearByRing(s: Search, r: nat, obstacles: seq<Rect>)
    requires r <= s.maxRadius
    ensures FirstClear(s, Rings(r, s.maxRadius), obstacles)
         == if FirstClear(s, Ring(r), obstacles).Some? then FirstClear(s, Ring(r), obstacles)
            else FirstClear(s, Rings(r + 1, s.maxRadius), obstacles)
  {
    FirstClearOfConcat(s, Ring(r), Rings(r + 1, s.maxRadius), obstacles);
  }

  /** The walk with its `seen` set and early exit gives the reference answer:
      skipping points that were already offered never changes it. */
  method NearestClear(s: Search, obstacles: seq<Rect>) returns (best: Option<Point>)
    ensures best == FirstClear(s, Rings(0, s.maxRadius), obstacles)
  {
    hide PointAt, ClearAt, Clear, Ring;
    var seen: set<Point> := {};
    for radius := 0 to s.maxRadius + 1
      invariant SeenBlocked(s, seen, obstacles)
      invariant FirstClear(s, Rings(0, s.maxRadius), obstacles) == FirstClear(s, Rings(radius, s.maxRadius), obstacles)
    {
      FirstClearByRing(s, radius, obstacles);
      best, seen := WalkRing(s, radius, obstacles, seen);
      if best.Some? {
        return;
      }
    }
    assert Rings(s.maxRadius + 1, s.maxRadius) == [];
    best := None;
  }

  // ----- the size of the lattice

  function Ceil(r: real): int {
    -((-r).Floor)
  }

  function MaxRadius(width: real, height: real, stepX: real, stepY: real): nat
    requires stepX > 0.0 && stepY > 0.0
  {
    var n := Ceil(Max(width / stepX, height / stepY)) + 1;
    if n >= 1 then n else 1
  }

  lemma MaxRadiusSpans(width: real, height: real, stepX: real, stepY: real)
    requires stepX > 0.0 && stepY > 0.0
    ensures MaxRadius(width, height, stepX, stepY) as real * stepX >= width
    ensures MaxRadius(width, height, stepX, stepY) as real * stepY >= height
  {
    var n := MaxRadius(width, height, stepX, stepY);
    assert n as real >= width / stepX && n as real >= height / stepY;
    assert n as real * stepX >= width / stepX * stepX;
    assert n as real * stepY >= height / stepY * stepY;
  }

  /** The radius is the least that spans both extents with a step to spare. */
  lemma RadiusSpansOneMore(width: real, height: real, stepX: real, stepY: real)
    requires stepX > 0.0 && stepY > 0.0 && width >= 0.0 && height >= 0.0
    ensures var n := MaxRadius(width, height, stepX, stepY);
      && n >= 1 && (n - 1) as real * stepX >= width && (n - 1) as real * stepY >= height
      && (n > 1 ==> (n - 2) as real * stepX < width || (n - 2) as real * stepY < height)
  {
    var n := MaxRadius(width, height, stepX, stepY);
    var steps := Max(width / stepX, height / stepY);
    QuotientIsZero(width, stepX);
    QuotientIsZero(height, stepY);
    assert n - 1 == Ceil(steps);
    CeilIs(steps);
    TimesStep(width, stepX, (n - 1) as real);
    TimesStep(height, stepY, (n - 1) as real);
    if n > 1 {
      TimesStep(width, stepX, (n - 2) as real);
      TimesStep(height, stepY, (n - 2) as real);
    }
  }

  lemma QuotientIsZero(a: real, step: real)
    requires step > 0.0 && a >= 0.0
    ensures a / step >= 0.0
  {
  }

  lemma CeilIs(r: real)
    ensures (Ceil(r) - 1) as real < r <= Ceil(r) as real
  {
  }

  lemma TimesStep(a: real, step: real, n: real)
    requires step > 0.0
    ensures n >= a / step <==> n * step >= a
  {
    assert a / step * step == a;
  }

  /** `n` steps that together span the range reach both of its ends. */
  lemma StepsReachEnd(ideal: real, min: real, max: real, step: real, n: nat, end: real) returns (k: int)
    requires min <= ideal <= max && (end == min || end == max)
    requires max - min <= n as real * step
    ensures Magnitude(k) == n && Clamp(ideal + k as real * step, min, max) == end
  {
    var m: int := n;
    k := if end == max then m else -m;
    assert (-m) as real * step == -(m as real * step);
  }

  lemma SpanningWalkReachesCorners(s: Search, corner: Point)
    requires s.range.minX <= s.ideal.x <= s.range.maxX
    requires s.range.minY <= s.ideal.y <= s.range.maxY
    requires s.range.maxX - s.range.minX <= s.maxRadius as real * s.stepX
    requires s.range.maxY - s.range.minY <= s.maxRadius as real * s.stepY
    requires corner.x == s.range.minX || corner.x == s.range.maxX
    requires corner.y == s.range.minY || corner.y == s.range.maxY
    ensures exists o :: RingOf(o) <= s.maxRadius && PointAt(s, o) == corner
  {
    var dx := StepsReachEnd(s.ideal.x, s.range.minX, s.range.maxX, s.stepX, s.maxRadius, corner.x);
    var dy := StepsReachEnd(s.ideal.y, s.range.minY, s.range.maxY, s.stepY, s.maxRadius, corner.y);
    hide Clamp, Magnitude;
    OffsetReaches(s, dx, dy, corner);
  }

  lemma OffsetReaches(s: Search, dx: int, dy: int, corner: Point)
    requires Magnitude(dx) == s.maxRadius && Magnitude(dy) == s.maxRadius
    requires Clamp(s.ideal.x + dx as real * s.stepX, s.range.minX, s.range.maxX) == corner.x
    requires Clamp(s.ideal.y + dy as real * s.stepY, s.range.minY, s.range.maxY) == corner.y
    ensures exists o :: RingOf(o) <= s.maxRadius && PointAt(s, o) == corner
  {
    hide Clamp, Magnitude;
    var o := Offset(dx, dy);
    assert PointAt(s, o) == corner;
    assert RingOf(o) == s.maxRadius;
  }

  /** `maxRadius` steps span the viewport on both axes, so the walk reaches
      every corner of an admissible range inside it. */
  lemma LatticeReachesCorners(s: Search, width: real, height: real, corner: Point)
    requires s.stepX > 0.0 && s.stepY > 0.0
    requires s.maxRadius == MaxRadius(width, height, s.stepX, s.stepY)
    requires s.range.minX <= s.ideal.x <= s.range.maxX && s.range.maxX - s.range.minX <= width
    requires s.range.minY <= s.ideal.y <= s.range.maxY && s.range.maxY - s.range.minY <= height
    requires corner.x == s.range.minX || corner.x == s.range.maxX
    requires corner.y == s.range.minY || corner.y == s.range.maxY
    ensures exists o :: RingOf(o) <= s.maxRadius && PointAt(s, o) == corner
  {
    MaxRadiusSpans(width, height, s.stepX, s.stepY);
    SpanningWalkReachesCorners(s, corner);
  }
}
