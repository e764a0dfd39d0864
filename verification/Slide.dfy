/** The exact one-axis slide. */
module Slide {
  // The one-dimensional "nearest free coordinate" search and the single-axis slide
  // built on it (`nearestFree`, `forbidden`, `slideClear`).

  import opened Options
  import opened Geometry

  /** An open interval of coordinates an obstacle forbids. */
  datatype Interval = Interval(low: real, high: real)

  predicate Free(value: real, intervals: seq<Interval>) {
    forall i | 0 <= i < |intervals| :: value <= intervals[i].low || value >= intervals[i].high
  }

  /** `best` is a value of [min, max] outside every interval that is closest to
      `centre`, or `None` when no such value exists. */
  ghost predicate IsNearestFree(best: Option<real>, centre: real, min: real, max: real, intervals: seq<Interval>) {
    match best
    case None => forall v | Free(v, intervals) :: !(min <= v <= max)
    case Some(b) =>
      && min <= b <= max
      && Free(b, intervals)
      && forall v | Free(v, intervals) && min <= v <= max :: Abs(b - centre) <= Abs(v - centre)
  }

  /** `best` is at least as good as the clamped candidate `value`. */
  predicate Covers(best: Option<real>, value: real, centre: real, min: real, max: real, intervals: seq<Interval>) {
    Free(Clamp(value, min, max), intervals) ==>
      best.Some? && Abs(best.value - centre) <= Abs(Clamp(value, min, max) - centre)
  }

  predicate CoversEdges(best: Option<real>, interval: Interval, centre: real, min: real, max: real, intervals: seq<Interval>) {
    && Covers(best, interval.low, centre, min, max, intervals)
    && Covers(best, interval.high, centre, min, max, intervals)
  }

  method Consider(best: Option<real>, value: real, centre: real, min: real, max: real, intervals: seq<Interval>)
    returns (next: Option<real>)
    requires min <= max
    ensures next == best || (next == Some(Clamp(value, min, max)) && Free(Clamp(value, min, max), intervals))
    ensures Covers(next, value, centre, min, max, intervals)
    ensures forall w | Covers(best, w, centre, min, max, intervals) :: Covers(next, w, centre, min, max, intervals)
  {
    var candidate := Clamp(value, min, max);
    if !Free(candidate, intervals) {
      return best;
    }
    if best.None? || Abs(candidate - centre) < Abs(best.value - centre) {
      return Some(candidate);
    }
    return best;
  }

  method ConsiderEdges(best: Option<real>, interval: Interval, centre: real, min: real, max: real, intervals: seq<Interval>)
    returns (next: Option<real>)
    requires min <= max
    requires best.Some? ==> min <= best.value <= max && Free(best.value, intervals)
    ensures next.Some? ==> min <= next.value <= max && Free(next.value, intervals)
    ensures CoversEdges(next, interval, centre, min, max, intervals)
    ensures Covers(best, centre, centre, min, max, intervals) ==> Covers(next, centre, centre, min, max, intervals)
    ensures forall other | CoversEdges(best, other, centre, min, max, intervals) ::
              CoversEdges(next, other, centre, min, max, intervals)
  {
    var first := Consider(best, interval.low, centre, min, max, intervals);
    next := Consider(first, interval.high, centre, min, max, intervals);
  }

  method NearestFree(centre: real, min: real, max: real, intervals: seq<Interval>) returns (best: Option<real>)
    ensures IsNearestFree(best, centre, min, max, intervals)
  {
    if min > max {
      return None;
    }
    best := None;
    best := Consider(best, centre, centre, min, max, intervals);
    for i := 0 to |intervals|
      invariant best.Some? ==> min <= best.value <= max && Free(best.value, intervals)
      invariant Covers(best, centre, centre, min, max, intervals)
      invariant forall j {:trigger CoversEdges(best, intervals[j], centre, min, max, intervals)} | 0 <= j < i ::
          CoversEdges(best, intervals[j], centre, min, max, intervals)
    {
      best := ConsiderEdges(best, intervals[i], centre, min, max, intervals);
    }
    CoveringIsNearest(best, centre, min, max, intervals);
  }

  /** Being at least as good as every candidate is being nearest outright. */
  lemma CoveringIsNearest(best: Option<real>, centre: real, min: real, max: real, intervals: seq<Interval>)
    requires min <= max
    requires best.Some? ==> min <= best.value <= max && Free(best.value, intervals)
    requires Covers(best, centre, centre, min, max, intervals)
    requires forall j {:trigger CoversEdges(best, intervals[j], centre, min, max, intervals)} | 0 <= j < |intervals| ::
        CoversEdges(best, intervals[j], centre, min, max, intervals)
    ensures IsNearestFree(best, centre, min, max, intervals)
  {
    forall v | Free(v, intervals) && min <= v <= max
      ensures best.Some? && Abs(best.value - centre) <= Abs(v - centre)
    {
      var w := CandidatesSuffice(centre, min, max, intervals, v);
      if w != centre {
        var i :| 0 <= i < |intervals| && (w == intervals[i].low || w == intervals[i].high);
        assert CoversEdges(best, intervals[i], centre, min, max, intervals);
      }
      assert Covers(best, w, centre, min, max, intervals);
    }
  }

  /** Every admissible value is matched by a candidate no farther from the
      centre: the clamped centre itself, or an edge of some interval. */
  lemma CandidatesSuffice(centre: real, min: real, max: real, intervals: seq<Interval>, v: real) returns (w: real)
    requires min <= v <= max && Free(v, intervals)
    ensures || w == centre
            || exists i | 0 <= i < |intervals| :: w == intervals[i].low || w == intervals[i].high
    ensures Free(Clamp(w, min, max), intervals)
    ensures Abs(Clamp(w, min, max) - centre) <= Abs(v - centre)
  {
    var start := Clamp(centre, min, max);
    var e;
    if start <= v {
      e := Ascend(start, v, intervals);
    } else {
      e := Descend(start, v, intervals);
    }
    ClampIsNearest(centre, min, max, e, v);
    w := if e == start then centre else e;
  }

  /** Climb from `w` towards the free value `v`, one upper edge at a time. */
  lemma Ascend(w: real, v: real, intervals: seq<Interval>) returns (e: real)
    requires w <= v && Free(v, intervals)
    ensures w <= e <= v && Free(e, intervals)
    ensures e == w || exists i | 0 <= i < |intervals| :: e == intervals[i].high
    decreases set i | 0 <= i < |intervals| && intervals[i].high > w
  {
    if Free(w, intervals) {
      e := w;
    } else {
      var i :| 0 <= i < |intervals| && intervals[i].low < w < intervals[i].high;
      var above := set j | 0 <= j < |intervals| && intervals[j].high > intervals[i].high;
      assert i in (set j | 0 <= j < |intervals| && intervals[j].high > w) && i !in above;
      e := Ascend(intervals[i].high, v, intervals);
    }
  }

  /** The mirror image of `Ascend`, over lower edges. */
  lemma Descend(w: real, v: real, intervals: seq<Interval>) returns (e: real)
    requires v <= w && Free(v, intervals)
    ensures v <= e <= w && Free(e, intervals)
    ensures e == w || exists i | 0 <= i < |intervals| :: e == intervals[i].low
    decreases set i | 0 <= i < |intervals| && intervals[i].low < w
  {
    if Free(w, intervals) {
      e := w;
    } else {
      var i :| 0 <= i < |intervals| && intervals[i].low < w < intervals[i].high;
      var below := set j | 0 <= j < |intervals| && intervals[j].low < intervals[i].low;
      assert i in (set j | 0 <= j < |intervals| && intervals[j].low < w) && i !in below;
      e := Descend(intervals[i].low, v, intervals);
    }
  }

  // ----- the slide over both axes

  datatype Axis = Horizontal | Vertical

  /** The point reached by sliding along one axis to coordinate `v`. */
  function Slid(ideal: Point, axis: Axis, v: real): Point {
    match axis
    case Horizontal => Point(v, ideal.y)
    case Vertical => Point(ideal.x, v)
  }

  /** Project the obstacles standing in the way of a slide along `axis`: the
      free coordinates are exactly those at which the card is clear of them. */
  method Forbidden(axis: Axis, card: Extent, ideal: Point, rects: seq<Rect>, pad: real)
    returns (intervals: seq<Interval>)
    ensures forall v :: Free(v, intervals) <==> Clear(card, Slid(ideal, axis, v), rects, pad)
  {
    intervals := [];
    var half := if axis.Horizontal? then card.halfWidth else card.halfHeight;
    var otherHalf := if axis.Horizontal? then card.halfHeight else card.halfWidth;
    var otherCentre := if axis.Horizontal? then ideal.y else ideal.x;
    for i := 0 to |rects|
      invariant forall v :: Free(v, intervals) <==> Clear(card, Slid(ideal, axis, v), rects[..i], pad)
    {
      var rect := rects[i];
      var otherLow := if axis.Horizontal? then rect.top else rect.left;
      var otherHigh := if axis.Horizontal? then rect.bottom else rect.right;
      ghost var before := intervals;
      if !(otherCentre + otherHalf + pad <= otherLow) && !(otherCentre - otherHalf - pad >= otherHigh) {
        var low := if axis.Horizontal? then rect.left else rect.top;
        var high := if axis.Horizontal? then rect.right else rect.bottom;
        intervals := intervals + [Interval(low - half - pad, high + half + pad)];
      }
      forall v
        ensures Free(v, intervals) <==> Clear(card, Slid(ideal, axis, v), rects[..i + 1], pad)
      {
        assert rects[..i + 1] == rects[..i] + [rect];
        ClearOfConcat(card, Slid(ideal, axis, v), rects[..i], [rect], pad);
        assert Clear(card, Slid(ideal, axis, v), [rect], pad) <==> !Intersects(card, Slid(ideal, axis, v), rect, pad)
          by { assert [rect][0] == rect; }
        if intervals != before {
          FreeOfConcat(v, before, [intervals[|before|]]);
          assert Free(v, [intervals[|before|]]) <==> !Intersects(card, Slid(ideal, axis, v), rect, pad)
            by { assert [intervals[|before|]][0] == intervals[|before|]; }
        }
      }
    }
    assert rects[..|rects|] == rects;
  }

  lemma FreeOfConcat(v: real, a: seq<Interval>, b: seq<Interval>)
    ensures Free(v, a + b) <==> Free(v, a) && Free(v, b)
  {
    if Free(v, a + b) {
      assert forall i | 0 <= i < |a| :: (a + b)[i] == a[i];
      forall i | 0 <= i < |b| ensures v <= b[i].low || v >= b[i].high {
        assert (a + b)[|a| + i] == b[i];
      }
    }
  }

  /** Covers nothing of `covered` and keeps the ordinary margin from `spaced`. */
  predicate Unblocked(card: Extent, p: Point, covered: seq<Rect>, spaced: seq<Rect>) {
    Clear(card, p, covered, 0.0) && Clear(card, p, spaced, MARGIN)
  }

  /** `p` is reached from the ideal by moving along one axis within the range. */
  predicate OnSlide(p: Point, ideal: Point, range: Range) {
    || (p.x == ideal.x && range.minY <= p.y <= range.maxY)
    || (p.y == ideal.y && range.minX <= p.x <= range.maxX)
  }

  /** The length of a single-axis move, where the Euclidean distance is the
      absolute difference on the axis that moved. */
  function Distance(p: Point, q: Point): real {
    Abs(p.x - q.x) + Abs(p.y - q.y)
  }

  /** `best` is a shortest unblocked single-axis move, or `None` when every
      single-axis move is blocked. */
  ghost predicate IsShortestSlide(best: Option<Point>, card: Extent, ideal: Point, range: Range,
                                  covered: seq<Rect>, spaced: seq<Rect>) {
    match best
    case None => forall q | OnSlide(q, ideal, range) :: !Unblocked(card, q, covered, spaced)
    case Some(p) =>
      && OnSlide(p, ideal, range)
      && Unblocked(card, p, covered, spaced)
      && forall q | OnSlide(q, ideal, range) && Unblocked(card, q, covered, spaced) ::
           Distance(p, ideal) <= Distance(q, ideal)
  }

  /** The slide along one axis, as the nearest free coordinate on it. */
  method SlideAlong(axis: Axis, card: Extent, ideal: Point, min: real, max: real,
                    covered: seq<Rect>, spaced: seq<Rect>) returns (best: Option<real>)
    ensures match best
            case None => forall v | min <= v <= max :: !Unblocked(card, Slid(ideal, axis, v), covered, spaced)
            case Some(b) =>
              && min <= b <= max
              && Unblocked(card, Slid(ideal, axis, b), covered, spaced)
              && forall v | min <= v <= max && Unblocked(card, Slid(ideal, axis, v), covered, spaced) ::
                   Distance(Slid(ideal, axis, b), ideal) <= Distance(Slid(ideal, axis, v), ideal)
  {
    var hard := Forbidden(axis, card, ideal, covered, 0.0);
    var soft := Forbidden(axis, card, ideal, spaced, MARGIN);
    var centre := if axis.Horizontal? then ideal.x else ideal.y;
    best := NearestFree(centre, min, max, hard + soft);
    forall v
      ensures Free(v, hard + soft) <==> Unblocked(card, Slid(ideal, axis, v), covered, spaced)
    {
      FreeOfConcat(v, hard, soft);
    }
  }

  /** A shortest single-axis move clearing every obstacle; the vertical move
      wins a tie. The re-check of each candidate against the obstacles never
      rejects one. */
  method SlideClear(card: Extent, ideal: Point, range: Range, covered: seq<Rect>, spaced: seq<Rect>)
    returns (best: Option<Point>)
    ensures IsShortestSlide(best, card, ideal, range, covered, spaced)
    ensures best.Some? && best.value.x != ideal.x ==>
              forall v | range.minY <= v <= range.maxY && Unblocked(card, Slid(ideal, Vertical, v), covered, spaced) ::
                Distance(best.value, ideal) < Distance(Slid(ideal, Vertical, v), ideal)
  {
    var x := SlideAlong(Horizontal, card, ideal, range.minX, range.maxX, covered, spaced);
    var y := SlideAlong(Vertical, card, ideal, range.minY, range.maxY, covered, spaced);
    var proposed := [
      if y.None? then None else Some(Point(ideal.x, y.value)),
      if x.None? then None else Some(Point(x.value, ideal.y))];
    assert forall i | 0 <= i < 2 && proposed[i].Some? :: Unblocked(card, proposed[i].value, covered, spaced);
    best := None;
    for i := 0 to |proposed|
      invariant i == 0 ==> best == None
      invariant i == 1 ==> best == proposed[0]
      invariant i == 2 ==>
        best == if y.Some? && (x.None? || Distance(proposed[0].value, ideal) <= Distance(proposed[1].value, ideal))
                then proposed[0] else proposed[1]
    {
      if proposed[i].Some? && Unblocked(card, proposed[i].value, covered, spaced) {
        if best.None? || Distance(proposed[i].value, ideal) < Distance(best.value, ideal) {
          best := proposed[i];
        }
      }
    }
    forall q | OnSlide(q, ideal, range) && Unblocked(card, q, covered, spaced)
      ensures best.Some? && Distance(best.value, ideal) <= Distance(q, ideal)
    {
      if q.x == ideal.x && range.minY <= q.y <= range.maxY {
        assert q == Slid(ideal, Vertical, q.y);
      } else {
        assert q == Slid(ideal, Horizontal, q.x);
      }
    }
  }
}
