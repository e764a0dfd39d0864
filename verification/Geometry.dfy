/** Screen geometry. */
module Geometry {
  // What the macro-card placement modules share: points, boxes, the three-argument
  // clamp, and the open-rectangle overlap test. Coordinates are exact reals.

  datatype Point = Point(x: real, y: real)

  datatype Rect = Rect(left: real, right: real, top: real, bottom: real)

  /** Half of the extent a card claims on each axis. */
  datatype Extent = Extent(halfWidth: real, halfHeight: real)

  /** The range a card centre may take on each axis; it may be inverted when
      the card is larger than the viewport. */
  datatype Range = Range(minX: real, maxX: real, minY: real, maxY: real)

  const MARGIN := 12.0

  function Abs(a: real): real {
    if a < 0.0 then -a else a
  }

  function Min(a: real, b: real): real {
    if a <= b then a else b
  }

  function Max(a: real, b: real): real {
    if a >= b then a else b
  }

  /** The clamp of the placement code, which also tolerates `min > max`. */
  function Clamp(value: real, min: real, max: real): (r: real)
    ensures min <= max ==> min <= r <= max
    ensures min <= value <= max ==> r == value
    ensures max < min ==> r == min
  {
    Min(Max(min, Min(max, value)), Max(min, max))
  }

  /** Inside a proper range, moving from the clamped value towards an
      admissible one never gets farther from the original value than that one;
      when the bounds cross, the lower one wins. */
  lemma ClampIsNearest(value: real, min: real, max: real, between: real, other: real)
    ensures min <= other <= max && (Clamp(value, min, max) <= between <= other || other <= between <= Clamp(value, min, max)) ==>
      Abs(between - value) <= Abs(other - value)
    ensures max < min ==> Clamp(value, min, max) == min
  {
  }

  function ClampPoint(p: Point, range: Range): Point {
    Point(Clamp(p.x, range.minX, range.maxX), Clamp(p.y, range.minY, range.maxY))
  }

  /** Does a card centred at `p`, grown by `pad`, overlap the open rectangle? */
  predicate Intersects(card: Extent, p: Point, rect: Rect, pad: real) {
    && p.x + card.halfWidth + pad > rect.left
    && p.x - card.halfWidth - pad < rect.right
    && p.y + card.halfHeight + pad > rect.top
    && p.y - card.halfHeight - pad < rect.bottom
  }

  predicate Clear(card: Extent, p: Point, rects: seq<Rect>, pad: real) {
    forall i | 0 <= i < |rects| :: !Intersects(card, p, rects[i], pad)
  }

  lemma ClearOfConcat(card: Extent, p: Point, a: seq<Rect>, b: seq<Rect>, pad: real)
    ensures Clear(card, p, a + b, pad) <==> Clear(card, p, a, pad) && Clear(card, p, b, pad)
  {
    if Clear(card, p, a + b, pad) {
      assert forall i | 0 <= i < |a| :: (a + b)[i] == a[i];
      forall i | 0 <= i < |b| ensures !Intersects(card, p, b[i], pad) {
        assert (a + b)[|a| + i] == b[i];
      }
    }
  }

  /** Two rectangles at least `gap` apart on one of the axes. */
  predicate Apart(a: Rect, b: Rect, gap: real) {
    || a.right + gap <= b.left
    || b.right + gap <= a.left
    || a.bottom + gap <= b.top
    || b.bottom + gap <= a.top
  }

  predicate Holds(r: Rect, p: Point) {
    r.left <= p.x <= r.right && r.top <= p.y <= r.bottom
  }

  /** Nearer than `gap` on both axes. */
  predicate Near(p: Point, q: Point, gap: real) {
    Abs(p.x - q.x) < gap && Abs(p.y - q.y) < gap
  }

  /** Rectangles are apart exactly when no point of one is near a point of the
      other, and a card is clear of a rectangle exactly when its claim is apart
      from it. */
  lemma ApartIff(a: Rect, b: Rect, gap: real)
    requires a.left <= a.right && a.top <= a.bottom && b.left <= b.right && b.top <= b.bottom && gap > 0.0
    ensures Apart(a, b, gap) <==> forall p, q | Holds(a, p) && Holds(b, q) :: !Near(p, q, gap)
  {
    if !Apart(a, b, gap) {
      var px, qx := NearOnLine(a.left, a.right, b.left, b.right, gap);
      var py, qy := NearOnLine(a.top, a.bottom, b.top, b.bottom, gap);
      assert Holds(a, Point(px, py)) && Holds(b, Point(qx, qy)) && Near(Point(px, py), Point(qx, qy), gap);
    }
  }

  lemma NearOnLine(a: real, b: real, c: real, d: real, gap: real) returns (u: real, v: real)
    requires a <= b && c <= d && gap > 0.0 && b + gap > c && d + gap > a
    ensures a <= u <= b && c <= v <= d && Abs(u - v) < gap
  {
    if b < c {
      u, v := b, c;
    } else if d < a {
      u, v := a, d;
    } else {
      u, v := Max(a, c), Max(a, c);
    }
  }

  lemma ClearIff(card: Extent, p: Point, rects: seq<Rect>, pad: real)
    ensures Clear(card, p, rects, pad) <==> forall i | 0 <= i < |rects| ::
      Apart(Rect(p.x - card.halfWidth, p.x + card.halfWidth, p.y - card.halfHeight, p.y + card.halfHeight), rects[i], pad)
  {
    assert forall i | 0 <= i < |rects| :: Intersects(card, p, rects[i], pad) <==>
      !Apart(Rect(p.x - card.halfWidth, p.x + card.halfWidth, p.y - card.halfHeight, p.y + card.halfHeight), rects[i], pad);
  }
}
