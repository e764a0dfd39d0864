/** Macro-card placement. */
module Placement {
  // The ladder of weaker and weaker obstacle sets for one card, and the layout
  // pass that fills the canvas, then the overflow bank.

  import opened Options
  import opened Geometry
  import opened Lattice
  import opened Slide

  /** A pan-and-zoom camera over the canvas world. */
  datatype Camera = Camera(zoom: real, panX: real, panY: real)

  predicate ValidCamera(c: Camera) {
    c.zoom > 0.0
  }

  function ToScreen(c: Camera, p: Point): Point {
    Point(p.x * c.zoom + c.panX, p.y * c.zoom + c.panY)
  }

  function ToWorld(c: Camera, p: Point): Point
    requires ValidCamera(c)
  {
    Point((p.x - c.panX) / c.zoom, (p.y - c.panY) / c.zoom)
  }

  lemma Undivided(a: real, b: real)
    requires b != 0.0
    ensures a / b * b == a
  {
  }

  lemma CameraRoundTrip(c: Camera, p: Point)
    requires ValidCamera(c)
    ensures ToScreen(c, ToWorld(c, p)) == p
  {
    Undivided(p.x - c.panX, c.zoom);
    Undivided(p.y - c.panY, c.zoom);
  }

  datatype Size = Size(width: real, height: real)

  /** What one layout pass measures once: the camera, the viewport, the widget
      boxes, the navigator when it is shown, and the live endpoints. */
  datatype Scene = Scene(camera: Camera, viewport: Rect, widgets: seq<Rect>,
                         navigator: Option<Rect>, endpoints: seq<Rect>)

  datatype Mode = Automatic | Manual

  function ExtentOf(size: Size): Extent {
    Extent(Max(60.0, size.width / 2.0), Max(36.0, size.height / 2.0))
  }

  function RangeFor(viewport: Rect, card: Extent): Range {
    Range(viewport.left + MARGIN + card.halfWidth, viewport.right - MARGIN - card.halfWidth,
          viewport.top + MARGIN + card.halfHeight, viewport.bottom - MARGIN - card.halfHeight)
  }

  /** The search for a place near a wanted screen point. */
  function SearchFor(scene: Scene, size: Size, wanted: Point): (s: Search)
    ensures s.stepX > 0.0 && s.stepY > 0.0
  {
    var card := ExtentOf(size);
    var range := RangeFor(scene.viewport, card);
    var stepX := Max(48.0, card.halfWidth * 2.0 + MARGIN * 2.0);
    var stepY := Max(40.0, card.halfHeight * 2.0 + MARGIN * 2.0);
    Search(card, ClampPoint(wanted, range), range, stepX, stepY,
           MaxRadius(scene.viewport.right - scene.viewport.left,
                     scene.viewport.bottom - scene.viewport.top, stepX, stepY))
  }

  function NavigatorRects(scene: Scene): seq<Rect> {
    if scene.navigator.Some? then [scene.navigator.value] else []
  }

  function NearestPoint(s: Search, obstacles: seq<Rect>): Option<Point> {
    FirstClear(s, Rings(0, s.maxRadius), obstacles)
  }

  /** Some single-axis move from the ideal covers none of `covered` and keeps
      the margin from `spaced`. */
  ghost predicate CanSlide(s: Search, covered: seq<Rect>, spaced: seq<Rect>) {
    exists q | OnSlide(q, s.ideal, s.range) :: Unblocked(s.card, q, covered, spaced)
  }

  /** The endpoints a card must not cover; a hand-placed card ignores them. */
  function Live(scene: Scene, mode: Mode): seq<Rect> {
    if mode.Automatic? then scene.endpoints else []
  }

  /** The answer of the ladder: the first rung that has one decides. */
  ghost predicate LadderAnswer(answer: Option<Point>, scene: Scene, s: Search, placed: seq<Rect>, mode: Mode) {
    var hard := scene.widgets + placed;
    var spare := placed + NavigatorRects(scene);
    var live := Live(scene, mode);
    if NearestPoint(s, hard + NavigatorRects(scene)).Some? then answer == NearestPoint(s, hard + NavigatorRects(scene))
    else if NearestPoint(s, hard).Some? then answer == NearestPoint(s, hard)
    else if live != [] && CanSlide(s, live, spare) then
      IsShortestSlide(answer, s.card, s.ideal, s.range, live, spare)
    else if live != [] && CanSlide(s, live, placed) then
      IsShortestSlide(answer, s.card, s.ideal, s.range, live, placed)
    else if NearestPoint(s, spare).Some? then answer == NearestPoint(s, spare)
    else answer == NearestPoint(s, placed)
  }

  method Adjust(scene: Scene, s: Search, placed: seq<Rect>, mode: Mode) returns (answer: Option<Point>)
    ensures LadderAnswer(answer, scene, s, placed, mode)
  {
    var hard := scene.widgets + placed;
    answer := NearestClear(s, hard + NavigatorRects(scene));
    if answer.Some? {
      return;
    }
    answer := NearestClear(s, hard);
    if answer.Some? {
      return;
    }
    var spare := placed + NavigatorRects(scene);
    var live := Live(scene, mode);
    if |live| > 0 {
      answer := SlideClear(s.card, s.ideal, s.range, live, spare);
      if answer.Some? {
        return;
      }
      answer := SlideClear(s.card, s.ideal, s.range, live, placed);
      if answer.Some? {
        return;
      }
    }
    answer := NearestClear(s, spare);
    if answer.Some? {
      return;
    }
    answer := NearestClear(s, placed);
  }

  // ----- what every rung keeps

  lemma LatticeAnswerIsClear(s: Search, obstacles: seq<Rect>)
    ensures NearestPoint(s, obstacles).Some? ==> Clear(s.card, NearestPoint(s, obstacles).value, obstacles, MARGIN)
    ensures NearestPoint(s, []).Some?
  {
    NearestClearIsInnermost(s, obstacles);
    NearestClearIsInnermost(s, []);
    assert ClearAt(s, Offset(0, 0), []);
  }

  /** Whatever rung answers, the card keeps its margin from every placed card,
      and a ladder with nothing placed always answers. */
  lemma LadderKeepsPlaced(answer: Option<Point>, scene: Scene, s: Search, placed: seq<Rect>, mode: Mode)
    requires LadderAnswer(answer, scene, s, placed, mode)
    ensures answer.Some? ==> Clear(s.card, answer.value, placed, MARGIN)
    ensures placed == [] ==> answer.Some?
  {
    var hard := scene.widgets + placed;
    var nav := NavigatorRects(scene);
    LatticeAnswerIsClear(s, hard + nav);
    LatticeAnswerIsClear(s, hard);
    LatticeAnswerIsClear(s, placed + nav);
    LatticeAnswerIsClear(s, placed);
    if answer.Some? {
      ClearOfConcat(s.card, answer.value, hard, nav, MARGIN);
      ClearOfConcat(s.card, answer.value, scene.widgets, placed, MARGIN);
      ClearOfConcat(s.card, answer.value, placed, nav, MARGIN);
    }
  }

  /** A refused card: every lattice point is within the margin of a card that
      is already placed, and no slide helps. */
  lemma LadderRefuses(scene: Scene, s: Search, placed: seq<Rect>, mode: Mode)
    ensures LadderAnswer(None, scene, s, placed, mode) <==>
            && (forall o | RingOf(o) <= s.maxRadius :: !ClearAt(s, o, placed))
            && (Live(scene, mode) == [] || !CanSlide(s, Live(scene, mode), placed))
  {
    hide FirstClear, Rings, Clear, Clamp;
    var live, nav := Live(scene, mode), NavigatorRects(scene);
    NearestClearIsInnermost(s, placed);
    if NearestPoint(s, placed).None? {
      MoreObstacles(s, scene.widgets, placed, nav);
    }
    if CanSlide(s, live, placed + nav) {
      var q :| OnSlide(q, s.ideal, s.range) && Unblocked(s.card, q, live, placed + nav);
      ClearOfConcat(s.card, q, placed, nav, MARGIN);
      assert Unblocked(s.card, q, live, placed);
    }
  }

  /** Adding obstacles never opens a lattice point. */
  lemma MoreObstacles(s: Search, widgets: seq<Rect>, placed: seq<Rect>, nav: seq<Rect>)
    requires NearestPoint(s, placed).None?
    ensures NearestPoint(s, widgets + placed + nav).None?
    ensures NearestPoint(s, widgets + placed).None? && NearestPoint(s, placed + nav).None?
  {
    NearestClearIsInnermost(s, placed);
    NearestClearIsInnermost(s, widgets + placed + nav);
    NearestClearIsInnermost(s, widgets + placed);
    NearestClearIsInnermost(s, placed + nav);
    forall o | RingOf(o) <= s.maxRadius
      ensures !ClearAt(s, o, widgets + placed + nav) && !ClearAt(s, o, widgets + placed) && !ClearAt(s, o, placed + nav)
    {
      assert !ClearAt(s, o, placed);
      ClearOfConcat(s.card, PointAt(s, o), widgets + placed, nav, MARGIN);
      ClearOfConcat(s.card, PointAt(s, o), widgets, placed, MARGIN);
      ClearOfConcat(s.card, PointAt(s, o), placed, nav, MARGIN);
    }
  }

  /** Every lattice point within the radius is too near an obstacle. */
  ghost predicate Crowded(s: Search, obstacles: seq<Rect>) {
    forall o | RingOf(o) <= s.maxRadius :: !ClearAt(s, o, obstacles)
  }

  /** A lattice point, clear of the obstacles, on the innermost ring that has one. */
  ghost predicate IsInnermostClear(answer: Option<Point>, s: Search, obstacles: seq<Rect>) {
    && answer.Some? && Clear(s.card, answer.value, obstacles, MARGIN)
    && exists o :: RingOf(o) <= s.maxRadius && PointAt(s, o) == answer.value && forall q | RingOf(q) < RingOf(o) :: !ClearAt(s, q, obstacles)
  }

  lemma NearestIsInnermost(s: Search, obstacles: seq<Rect>)
    ensures Crowded(s, obstacles) <==> NearestPoint(s, obstacles).None?
    ensures !Crowded(s, obstacles) ==> IsInnermostClear(NearestPoint(s, obstacles), s, obstacles)
  {
    hide FirstClear, Rings, PointAt, Clear, RingOf;
    NearestClearIsInnermost(s, obstacles);
  }

  /** What the ladder does about a navigator: it stays out from under the card
      on the first rung, in the slide and in the last walk, wherever that rung
      has an answer that spares it; the slide is for automatic cards with live
      endpoints, and only when the widgets leave no lattice point. */
  lemma LadderSparesNavigator(answer: Option<Point>, scene: Scene, s: Search, placed: seq<Rect>, mode: Mode, n: Rect)
    requires LadderAnswer(answer, scene, s, placed, mode) && scene.navigator == Some(n)
    ensures !Crowded(s, scene.widgets + placed + [n]) ==> IsInnermostClear(answer, s, scene.widgets + placed + [n])
    ensures Crowded(s, scene.widgets + placed + [n]) && !Crowded(s, scene.widgets + placed) ==>
      IsInnermostClear(answer, s, scene.widgets + placed)
    ensures mode == Automatic && scene.endpoints != [] && Crowded(s, scene.widgets + placed) ==>
      && (CanSlide(s, scene.endpoints, placed + [n]) ==> IsShortestSlide(answer, s.card, s.ideal, s.range, scene.endpoints, placed + [n]))
      && (!CanSlide(s, scene.endpoints, placed + [n]) && CanSlide(s, scene.endpoints, placed) ==>
            IsShortestSlide(answer, s.card, s.ideal, s.range, scene.endpoints, placed))
    ensures (mode == Manual || scene.endpoints == [] || !CanSlide(s, scene.endpoints, placed)) && Crowded(s, scene.widgets + placed) ==>
      && (!Crowded(s, placed + [n]) ==> IsInnermostClear(answer, s, placed + [n]))
      && (Crowded(s, placed + [n]) && !Crowded(s, placed) ==> IsInnermostClear(answer, s, placed))
      && (Crowded(s, placed) ==> answer == None)
  {
    hide Crowded, IsInnermostClear, NearestPoint, IsShortestSlide, CanSlide;
    var hard := scene.widgets + placed;
    NearestIsInnermost(s, hard + [n]);
    NearestIsInnermost(s, hard);
    NearestIsInnermost(s, placed + [n]);
    NearestIsInnermost(s, placed);
    CrowdedWithout(s, hard, n);
    CrowdedWithout(s, placed, n);
    SlideWithout(s, scene.endpoints, placed, n);
  }

  lemma CrowdedWithout(s: Search, obstacles: seq<Rect>, n: Rect)
    ensures Crowded(s, obstacles) ==> Crowded(s, obstacles + [n])
  {
    hide PointAt, Intersects, RingOf;
    forall o | RingOf(o) <= s.maxRadius && Crowded(s, obstacles) ensures !ClearAt(s, o, obstacles + [n]) {
      ClearOfConcat(s.card, PointAt(s, o), obstacles, [n], MARGIN);
      assert !ClearAt(s, o, obstacles);
    }
  }

  lemma SlideWithout(s: Search, covered: seq<Rect>, spaced: seq<Rect>, n: Rect)
    ensures CanSlide(s, covered, spaced + [n]) ==> CanSlide(s, covered, spaced)
  {
    hide OnSlide, Intersects;
    if CanSlide(s, covered, spaced + [n]) {
      var q :| OnSlide(q, s.ideal, s.range) && Unblocked(s.card, q, covered, spaced + [n]);
      ClearOfConcat(s.card, q, spaced, [n], MARGIN);
      assert Unblocked(s.card, q, covered, spaced);
    }
  }

  /** A shortest slide that spares the navigator keeps the margin from it. */
  lemma SlideSparesNavigator(answer: Option<Point>, s: Search, covered: seq<Rect>, placed: seq<Rect>, n: Rect)
    requires IsShortestSlide(answer, s.card, s.ideal, s.range, covered, placed + [n]) && answer.Some?
    ensures Clear(s.card, answer.value, [n], MARGIN) && Clear(s.card, answer.value, covered, 0.0)
  {
    ClearOfConcat(s.card, answer.value, placed, [n], MARGIN);
  }

  /** Without a navigator the ladder has one rung less at either end. */
  lemma LadderWithoutNavigator(answer: Option<Point>, scene: Scene, s: Search, placed: seq<Rect>, mode: Mode)
    requires LadderAnswer(answer, scene, s, placed, mode) && scene.navigator == None
    ensures !Crowded(s, scene.widgets + placed) ==> IsInnermostClear(answer, s, scene.widgets + placed)
    ensures mode == Automatic && scene.endpoints != [] && Crowded(s, scene.widgets + placed) && CanSlide(s, scene.endpoints, placed) ==>
      IsShortestSlide(answer, s.card, s.ideal, s.range, scene.endpoints, placed)
    ensures (mode == Manual || scene.endpoints == [] || !CanSlide(s, scene.endpoints, placed)) && Crowded(s, scene.widgets + placed) ==>
      if Crowded(s, placed) then answer == None else IsInnermostClear(answer, s, placed)
  {
    hide Crowded, IsInnermostClear, NearestPoint, IsShortestSlide, CanSlide;
    var hard := scene.widgets + placed;
    assert hard + [] == hard && placed + [] == placed;
    NearestIsInnermost(s, hard);
    NearestIsInnermost(s, placed);
  }

  /** A hand-placed card is never slid: it takes a lattice point. */
  lemma ManualTakesLatticePoint(answer: Option<Point>, scene: Scene, s: Search, placed: seq<Rect>)
    requires LadderAnswer(answer, scene, s, placed, Manual) && answer.Some?
    ensures exists o :: RingOf(o) <= s.maxRadius && PointAt(s, o) == answer.value
  {
    hide Crowded, NearestPoint, IsShortestSlide, CanSlide, PointAt, RingOf, Clear;
    match scene.navigator
    case Some(n) => LadderSparesNavigator(answer, scene, s, placed, Manual, n);
    case None => LadderWithoutNavigator(answer, scene, s, placed, Manual);
  }

  /** The rectangle lies within some widget grown by the margin. */
  predicate AtWidget(r: Rect, widgets: seq<Rect>) {
    exists j | 0 <= j < |widgets| ::
      && widgets[j].left - MARGIN <= r.left && r.right <= widgets[j].right + MARGIN
      && widgets[j].top - MARGIN <= r.top && r.bottom <= widgets[j].bottom + MARGIN
  }

  /** An automatic card covers a live endpoint only when there was no fully
      clear lattice point and no slide that spares every endpoint; or, when
      there was such a point, an endpoint that lies at no widget. */
  lemma AutomaticCardSparesEndpoints(answer: Option<Point>, scene: Scene, s: Search, placed: seq<Rect>, i: nat)
    requires LadderAnswer(answer, scene, s, placed, Automatic) && answer.Some?
    requires i < |scene.endpoints| && Intersects(s.card, answer.value, scene.endpoints[i], 0.0)
    ensures NearestPoint(s, scene.widgets + placed).Some? ==> !AtWidget(scene.endpoints[i], scene.widgets)
    ensures NearestPoint(s, scene.widgets + placed).None? ==> !CanSlide(s, scene.endpoints, placed)
  {
    var hard := scene.widgets + placed;
    var nav := NavigatorRects(scene);
    LatticeAnswerIsClear(s, hard + nav);
    LatticeAnswerIsClear(s, hard);
    ClearOfConcat(s.card, answer.value, hard, nav, MARGIN);
    ClearOfConcat(s.card, answer.value, scene.widgets, placed, MARGIN);
    if AtWidget(scene.endpoints[i], scene.widgets) {
      var j :| 0 <= j < |scene.widgets|
            && scene.widgets[j].left - MARGIN <= scene.endpoints[i].left && scene.endpoints[i].right <= scene.widgets[j].right + MARGIN
            && scene.widgets[j].top - MARGIN <= scene.endpoints[i].top && scene.endpoints[i].bottom <= scene.widgets[j].bottom + MARGIN;
      assert Intersects(s.card, answer.value, scene.widgets[j], MARGIN);
      assert !Clear(s.card, answer.value, scene.widgets, MARGIN);
    }
    CoveredIsNotClear(answer.value, scene, s, i);
    if NearestPoint(s, hard).None? {
      NoMoreWithNavigator(s, hard, nav);
    }
  }

  lemma CoveredIsNotClear(p: Point, scene: Scene, s: Search, i: nat)
    requires i < |scene.endpoints| && Intersects(s.card, p, scene.endpoints[i], 0.0)
    ensures !Clear(s.card, p, scene.endpoints, 0.0)
  {
  }

  lemma NoMoreWithNavigator(s: Search, hard: seq<Rect>, nav: seq<Rect>)
    requires NearestPoint(s, hard).None?
    ensures NearestPoint(s, hard + nav).None?
  {
    MoreObstacles(s, [], hard, nav);
    assert [] + hard + nav == hard + nav;
  }

  // ----- the layout pass

  /** One macro processor: the world point its card would like to take, if its
      endpoints give one, the measured size of the card, and whether a person
      placed it. */
  datatype Processor = Processor(wanted: Option<Point>, size: Size, mode: Mode)

  /** A visible card: the processor it shows and its rectangle on screen. */
  datatype Card = Card(index: nat, centre: Point, rect: Rect)

  function RectAround(p: Point, size: Size): Rect {
    Rect(p.x - size.width / 2.0, p.x + size.width / 2.0, p.y - size.height / 2.0, p.y + size.height / 2.0)
  }

  function Rects(cards: seq<Card>): (r: seq<Rect>)
    ensures |r| == |cards| && forall i | 0 <= i < |r| :: r[i] == cards[i].rect
  {
    seq(|cards|, i requires 0 <= i < |cards| => cards[i].rect)
  }

  function Indices(cards: seq<Card>): (r: seq<nat>)
    ensures |r| == |cards| && forall i | 0 <= i < |r| :: r[i] == cards[i].index
  {
    seq(|cards|, i requires 0 <= i < |cards| => cards[i].index)
  }

  // ----- what the search admits

  /** What a card claims: its measured size, but at least 120 by 72. */
  function Claim(size: Size): Size {
    Size(Max(120.0, size.width), Max(72.0, size.height))
  }

  predicate Within(inner: Rect, outer: Rect, margin: real) {
    && outer.left + margin <= inner.left && inner.right <= outer.right - margin
    && outer.top + margin <= inner.top && inner.bottom <= outer.bottom - margin
  }

  predicate Admits(s: Search, p: Point) {
    s.range.minX <= p.x <= s.range.maxX && s.range.minY <= p.y <= s.range.maxY
  }

  /** The rectangle of a card has its size and its centre. */
  lemma RectIsCentred(p: Point, size: Size)
    ensures var r := RectAround(p, size);
      && r.right - r.left == size.width && r.bottom - r.top == size.height
      && p.x - r.left == r.right - p.x && p.y - r.top == r.bottom - p.y
  {
  }

  /** A centre is admissible exactly when the card's claim stays 12 px inside
      the viewport; an admissible wish is the ideal, and any other is moved to
      the edge on the axes it breaks. */
  lemma AdmitsIff(scene: Scene, size: Size, wanted: Point, p: Point)
    ensures Admits(SearchFor(scene, size, wanted), p) <==> Within(RectAround(p, Claim(size)), scene.viewport, 12.0)
    ensures var s := SearchFor(scene, size, wanted);
      && (s.range.minX <= wanted.x <= s.range.maxX ==> s.ideal.x == wanted.x)
      && (s.range.minY <= wanted.y <= s.range.maxY ==> s.ideal.y == wanted.y)
      && (wanted.x < s.range.minX <= s.range.maxX ==> s.ideal.x == s.range.minX)
      && (wanted.x > s.range.maxX >= s.range.minX ==> s.ideal.x == s.range.maxX)
      && (wanted.y < s.range.minY <= s.range.maxY ==> s.ideal.y == s.range.minY)
      && (wanted.y > s.range.maxY >= s.range.minY ==> s.ideal.y == s.range.maxY)
  {
    hide MaxRadius;
  }

  /** Neighbouring lattice points are a claim and two margins apart; the walk
      spans the viewport with one step to spare on both axes, and would not
      with one step less. */
  lemma LatticeIsSpaced(scene: Scene, size: Size, wanted: Point)
    requires scene.viewport.left <= scene.viewport.right && scene.viewport.top <= scene.viewport.bottom
    ensures var s, width, height := SearchFor(scene, size, wanted), scene.viewport.right - scene.viewport.left,
                                    scene.viewport.bottom - scene.viewport.top;
      && s.stepX == Claim(size).width + 24.0 && s.stepY == Claim(size).height + 24.0 && s.maxRadius >= 1
      && (s.maxRadius - 1) as real * s.stepX >= width && (s.maxRadius - 1) as real * s.stepY >= height
      && (s.maxRadius > 1 ==> (s.maxRadius - 2) as real * s.stepX < width || (s.maxRadius - 2) as real * s.stepY < height)
  {
    hide MaxRadius, ClampPoint, RangeFor;
    var s, width, height := SearchFor(scene, size, wanted), scene.viewport.right - scene.viewport.left,
                            scene.viewport.bottom - scene.viewport.top;
    assert s.maxRadius == MaxRadius(width, height, s.stepX, s.stepY);
    RadiusSpansOneMore(width, height, s.stepX, s.stepY);
  }

  /** Every lattice point, and every answer of a slide from an admissible ideal,
      is admissible when any centre is. */
  lemma AnswerIsAdmitted(answer: Option<Point>, scene: Scene, size: Size, wanted: Point, placed: seq<Rect>, mode: Mode, any: Point)
    requires var s := SearchFor(scene, size, wanted); LadderAnswer(answer, scene, s, placed, mode) && Admits(s, any)
    requires answer.Some?
    ensures Within(RectAround(answer.value, Claim(size)), scene.viewport, 12.0)
  {
    var s := SearchFor(scene, size, wanted);
    AdmitsIff(scene, size, wanted, answer.value);
    assert Admits(s, s.ideal) by {
      hide MaxRadius;
    }
    hide SearchFor, Claim, RectAround, MaxRadius, NearestPoint, LadderAnswer, Within;
    if OnSlide(answer.value, s.ideal, s.range) {
    } else {
      LatticeOrSlide(answer, scene, s, placed, mode);
    }
  }

  lemma LatticeOrSlide(answer: Option<Point>, scene: Scene, s: Search, placed: seq<Rect>, mode: Mode)
    requires LadderAnswer(answer, scene, s, placed, mode) && answer.Some?
    ensures OnSlide(answer.value, s.ideal, s.range) || exists o :: RingOf(o) <= s.maxRadius && PointAt(s, o) == answer.value
  {
    hide OnSlide, RingOf, PointAt, Clear, FirstClear, Rings, CanSlide;
    var nav := NavigatorRects(scene);
    NearestClearIsInnermost(s, scene.widgets + placed + nav);
    NearestClearIsInnermost(s, scene.widgets + placed);
    NearestClearIsInnermost(s, placed + nav);
    NearestClearIsInnermost(s, placed);
  }

  /** An admissible wish that is clear of widgets, cards and navigator is
      granted. */
  lemma WishIsGranted(answer: Option<Point>, scene: Scene, size: Size, wanted: Point, placed: seq<Rect>, mode: Mode)
    requires LadderAnswer(answer, scene, SearchFor(scene, size, wanted), placed, mode)
    requires Within(RectAround(wanted, Claim(size)), scene.viewport, 12.0)
    requires Clear(ExtentOf(size), wanted, scene.widgets + placed + NavigatorRects(scene), MARGIN)
    ensures answer == Some(wanted)
  {
    var s := SearchFor(scene, size, wanted);
    var all := scene.widgets + placed + NavigatorRects(scene);
    AdmitsIff(scene, size, wanted, wanted);
    assert s.ideal == wanted && s.card == ExtentOf(size);
    assert PointAt(s, Offset(0, 0)) == wanted;
    NearestIsInnermost(s, all);
    hide SearchFor, Claim, RectAround, MaxRadius, NearestPoint, Within, ExtentOf, Clear;
    assert RingOf(Offset(0, 0)) == 0 && ClearAt(s, Offset(0, 0), all);
    assert !Crowded(s, all);
    var o :| RingOf(o) <= s.maxRadius && PointAt(s, o) == NearestPoint(s, all).value
          && forall q | RingOf(q) < RingOf(o) :: !ClearAt(s, q, all);
    assert RingOf(o) == 0;
    OnlyCentre(o);
  }

  lemma OnlyCentre(o: Offset)
    requires RingOf(o) == 0
    ensures o == Offset(0, 0)
  {
  }

  /** How many processors may be shown as cards. */
  function VisibleLimit(viewport: Rect, count: nat): nat {
    var width := viewport.right - viewport.left;
    var capacity := if width <= 600.0 then 2 else if width <= 900.0 then 3 else 5;
    if count > capacity then capacity - 1 else count
  }

  /** Cards and bank together are at most 2, 3 or 5, and nothing is held back
      while all fit. */
  lemma LimitIs(viewport: Rect, count: nat)
    ensures var width, limit := viewport.right - viewport.left, VisibleLimit(viewport, count);
      var capacity := if width <= 600.0 then 2 else if width <= 900.0 then 3 else 5;
      && (limit < count <==> count > capacity) && (limit < count ==> limit + 1 == capacity) && limit <= count
  {
  }

  function Upto(n: nat): seq<nat> {
    if n == 0 then [] else Upto(n - 1) + [n - 1]
  }

  function CardSearch(scene: Scene, p: Processor): Search
    requires p.wanted.Some?
  {
    SearchFor(scene, p.size, ToScreen(scene.camera, p.wanted.value))
  }

  /** Every card stands where the ladder put it, given the cards before it. */
  ghost predicate CardsAnswerLadder(scene: Scene, processors: seq<Processor>, cards: seq<Card>) {
    forall j {:trigger cards[j]} | 0 <= j < |cards| ::
      && cards[j].index < |processors|
      && var p := processors[cards[j].index];
      && p.wanted.Some?
      && cards[j].rect == RectAround(cards[j].centre, p.size)
      && LadderAnswer(Some(cards[j].centre), scene, CardSearch(scene, p), Rects(cards[..j]), p.mode)
  }

  /** Why a processor is not shown: it is past the limit, it has no endpoint on
      the canvas, or the ladder refused it after the cards shown before it. */
  ghost predicate HiddenForCause(scene: Scene, processors: seq<Processor>, cards: seq<Card>, h: nat)
    requires h < |processors|
  {
    || h >= VisibleLimit(scene.viewport, |processors|)
    || processors[h].wanted.None?
    || exists m ::
         && 0 <= m <= |cards|
         && (forall j | 0 <= j < |cards| :: cards[j].index < h <==> j < m)
         && LadderAnswer(None, scene, CardSearch(scene, processors[h]), Rects(cards[..m]), processors[h].mode)
  }

  ghost predicate PairwiseApart(cards: seq<Card>) {
    forall i, j | 0 <= i < j < |cards| :: Apart(cards[i].rect, cards[j].rect, MARGIN)
  }

  /** A card clear of `rects` by the margin, drawn at its measured size, is at
      least the margin away from each of them on some axis. */
  lemma ClearMeansApart(size: Size, p: Point, rects: seq<Rect>)
    requires Clear(ExtentOf(size), p, rects, MARGIN)
    ensures forall i | 0 <= i < |rects| :: Apart(rects[i], RectAround(p, size), MARGIN)
  {
    forall i | 0 <= i < |rects| ensures Apart(rects[i], RectAround(p, size), MARGIN) {
      assert !Intersects(ExtentOf(size), p, rects[i], MARGIN);
    }
  }

  /** In processor order. */
  ghost predicate Ascending(indices: seq<nat>) {
    forall i, j | 0 <= i < j < |indices| :: indices[i] < indices[j]
  }

  lemma AscendingAppend(indices: seq<nat>, n: nat)
    requires Ascending(indices) && forall k | 0 <= k < |indices| :: indices[k] < n
    ensures Ascending(indices + [n])
  {
  }

  /** The state of the first pass after the processors `0 .. n - 1`. */
  ghost predicate PlacedSoFar(scene: Scene, processors: seq<Processor>, n: nat, cards: seq<Card>, hidden: seq<nat>)
    requires n <= |processors|
  {
    && |cards| <= n && |cards| <= VisibleLimit(scene.viewport, |processors|)
    && CardsAnswerLadder(scene, processors, cards)
    && PairwiseApart(cards)
    && (forall j | 0 <= j < |cards| :: cards[j].index < n && cards[j].index < VisibleLimit(scene.viewport, |processors|))
    && (forall h | h in hidden :: h < n && HiddenForCause(scene, processors, cards, h))
    && multiset(Indices(cards)) + multiset(hidden) == multiset(Upto(n))
    && Ascending(Indices(cards)) && Ascending(hidden)
  }

  lemma NothingPlaced(scene: Scene, processors: seq<Processor>)
    ensures PlacedSoFar(scene, processors, 0, [], [])
  {
  }

  lemma HideNext(scene: Scene, processors: seq<Processor>, n: nat, cards: seq<Card>, hidden: seq<nat>)
    requires n < |processors| && PlacedSoFar(scene, processors, n, cards, hidden)
    requires HiddenForCause(scene, processors, cards, n)
    ensures PlacedSoFar(scene, processors, n + 1, cards, hidden + [n])
  {
    assert forall k | 0 <= k < |hidden| :: hidden[k] in hidden;
    AscendingAppend(hidden, n);
    forall h | h in hidden + [n] ensures h < n + 1 && HiddenForCause(scene, processors, cards, h) {
      assert h in hidden || h == n;
    }
  }

  lemma ShowNext(scene: Scene, processors: seq<Processor>, n: nat, cards: seq<Card>, hidden: seq<nat>, p: Point)
    requires n < |processors| && PlacedSoFar(scene, processors, n, cards, hidden)
    requires n < VisibleLimit(scene.viewport, |processors|) && processors[n].wanted.Some?
    requires LadderAnswer(Some(p), scene, CardSearch(scene, processors[n]), Rects(cards), processors[n].mode)
    ensures PlacedSoFar(scene, processors, n + 1, cards + [Card(n, p, RectAround(p, processors[n].size))], hidden)
  {
    hide LadderAnswer, HiddenForCause, CardsAnswerLadder, Clear, RectAround, Ascending, PairwiseApart, CardSearch, VisibleLimit, Upto, Rects;
    var c := Card(n, p, RectAround(p, processors[n].size));
    AppendedCard(scene, processors, cards, hidden, c);
    AscendingAppend(Indices(cards), n);
    CountAppended(Indices(cards), hidden, n);
    LadderKeepsPlaced(Some(p), scene, CardSearch(scene, processors[n]), Rects(cards), processors[n].mode);
    CardSearchExtent(scene, processors[n]);
    ClearMeansApart(processors[n].size, p, Rects(cards));
    AppendedIsApart(cards, c);
    LimitNeedsRoom(scene, processors, cards, n);
  }

  lemma CardSearchExtent(scene: Scene, p: Processor)
    requires p.wanted.Some?
    ensures CardSearch(scene, p).card == ExtentOf(p.size)
  {
  }

  lemma CountAppended(a: seq<nat>, b: seq<nat>, n: nat)
    requires multiset(a) + multiset(b) == multiset(Upto(n))
    ensures multiset(a + [n]) + multiset(b) == multiset(Upto(n + 1))
  {
  }

  /** Cards in order below the limit are fewer than it. */
  lemma LimitNeedsRoom(scene: Scene, processors: seq<Processor>, cards: seq<Card>, n: nat)
    requires |cards| <= n < VisibleLimit(scene.viewport, |processors|)
    ensures |cards| + 1 <= VisibleLimit(scene.viewport, |processors|)
  {
  }

  lemma AppendedIsApart(cards: seq<Card>, c: Card)
    requires PairwiseApart(cards)
    requires forall i | 0 <= i < |cards| :: Apart(Rects(cards)[i], c.rect, MARGIN)
    ensures PairwiseApart(cards + [c])
  {
    forall i, j | 0 <= i < j < |cards + [c]|
      ensures Apart((cards + [c])[i].rect, (cards + [c])[j].rect, MARGIN)
    {
      if j == |cards| {
        assert cards[i].rect == Rects(cards)[i];
      }
    }
  }

  lemma AppendedCard(scene: Scene, processors: seq<Processor>, cards: seq<Card>, hidden: seq<nat>, c: Card)
    requires c.index < |processors| && processors[c.index].wanted.Some?
    requires c.rect == RectAround(c.centre, processors[c.index].size)
    requires LadderAnswer(Some(c.centre), scene, CardSearch(scene, processors[c.index]), Rects(cards), processors[c.index].mode)
    requires CardsAnswerLadder(scene, processors, cards)
    requires forall h | h in hidden :: h < c.index && HiddenForCause(scene, processors, cards, h)
    ensures CardsAnswerLadder(scene, processors, cards + [c])
    ensures forall h | h in hidden :: HiddenForCause(scene, processors, cards + [c], h)
    ensures Indices(cards + [c]) == Indices(cards) + [c.index]
  {
    hide LadderAnswer, CardSearch, RectAround, VisibleLimit;
    var more := cards + [c];
    assert more[..|cards|] == cards;
    forall j | 0 <= j < |cards| ensures more[..j] == cards[..j] && more[j] == cards[j] {
    }
    forall h | h in hidden
      ensures HiddenForCause(scene, processors, more, h)
    {
      if h < VisibleLimit(scene.viewport, |processors|) && processors[h].wanted.Some? {
        var m :| && 0 <= m <= |cards|
                 && (forall j | 0 <= j < |cards| :: cards[j].index < h <==> j < m)
                 && LadderAnswer(None, scene, CardSearch(scene, processors[h]), Rects(cards[..m]), processors[h].mode);
        assert more[..m] == cards[..m];
        assert forall j | 0 <= j < |more| :: more[j].index < h <==> j < m;
      }
    }
  }

  /** Show or hide one processor. The card is drawn at a world point and
      measured back on screen. */
  method PlaceNext(scene: Scene, processors: seq<Processor>, n: nat, cards: seq<Card>, ghost hidden: seq<nat>)
    returns (next: Option<Card>)
    requires ValidCamera(scene.camera)
    requires n < |processors| && PlacedSoFar(scene, processors, n, cards, hidden)
    ensures next.None? ==> PlacedSoFar(scene, processors, n + 1, cards, hidden + [n])
    ensures next.Some? ==> PlacedSoFar(scene, processors, n + 1, cards + [next.value], hidden)
  {
    if n >= VisibleLimit(scene.viewport, |processors|) || processors[n].wanted.None? {
      HideNext(scene, processors, n, cards, hidden);
      return None;
    }
    var answer := Adjust(scene, CardSearch(scene, processors[n]), Rects(cards), processors[n].mode);
    if answer.None? {
      assert cards[..|cards|] == cards;
      assert HiddenForCause(scene, processors, cards, n) by {
        assert forall j | 0 <= j < |cards| :: cards[j].index < n <==> j < |cards|;
      }
      HideNext(scene, processors, n, cards, hidden);
      return None;
    }
    var world := ToWorld(scene.camera, answer.value);
    CameraRoundTrip(scene.camera, answer.value);
    var screen := ToScreen(scene.camera, world);
    ShowNext(scene, processors, n, cards, hidden, screen);
    next := Some(Card(n, screen, RectAround(screen, processors[n].size)));
  }

  /** The first pass: place the processors in order, each against the cards
      placed before it. */
  method PlaceCards(scene: Scene, processors: seq<Processor>) returns (cards: seq<Card>, hidden: seq<nat>)
    requires ValidCamera(scene.camera)
    ensures PlacedSoFar(scene, processors, |processors|, cards, hidden)
  {
    hide *;
    cards, hidden := [], [];
    NothingPlaced(scene, processors);
    for i := 0 to |processors|
      invariant PlacedSoFar(scene, processors, i, cards, hidden)
    {
      var next := PlaceNext(scene, processors, i, cards, hidden);
      if next.Some? {
        cards := cards + [next.value];
      } else {
        hidden := hidden + [i];
      }
    }
  }

  /** Where the bank would like to be: top centre of the viewport. */
  function BankWanted(scene: Scene, size: Size): Point {
    Point(scene.viewport.left + (scene.viewport.right - scene.viewport.left) / 2.0,
          scene.viewport.top + 12.0 + Max(36.0, size.height / 2.0))
  }

  /** The bank would like to stand in the middle of the upper edge, its claim
      12 px below it. */
  lemma BankIsTopCentre(scene: Scene, size: Size)
    ensures var r := RectAround(BankWanted(scene, size), Claim(size));
      r.top == scene.viewport.top + 12.0 && r.left - scene.viewport.left == scene.viewport.right - r.right
  {
  }

  /** The search for the bank once it lists `overflow`; its wanted point keeps
      the size it had when it listed `first`. */
  function BankSearch(scene: Scene, bankSize: seq<nat> -> Size, first: seq<nat>, overflow: seq<nat>): Search {
    SearchFor(scene, bankSize(overflow), BankWanted(scene, bankSize(first)))
  }

  datatype Layout = Layout(cards: seq<Card>, overflow: seq<nat>, bank: Option<Rect>)

  /** The ladder's answer for the bank while the first `k` cards are shown. */
  ghost predicate BankAnswer(answer: Option<Point>, scene: Scene, bankSize: seq<nat> -> Size,
                             laidOut: seq<Card>, hidden: seq<nat>, k: nat)
    requires k <= |laidOut|
  {
    LadderAnswer(answer, scene, BankSearch(scene, bankSize, hidden, Indices(laidOut[k..]) + hidden),
                 Rects(laidOut[..k]), Automatic)
  }

  /** The bank keeps the first `k` laid-out cards and folds the others: with any
      more of them shown, it had nowhere to go. */
  ghost predicate FoldsAsFewAsItCan(layout: Layout, scene: Scene, bankSize: seq<nat> -> Size,
                                    laidOut: seq<Card>, hidden: seq<nat>)
  {
    && |layout.cards| <= |laidOut| && layout.cards == laidOut[..|layout.cards|]
    && layout.overflow == Indices(laidOut[|layout.cards|..]) + hidden
    && (forall k | |layout.cards| < k <= |laidOut| :: BankAnswer(None, scene, bankSize, laidOut, hidden, k))
    && (layout.bank.Some? ==>
          exists p ::
            && layout.bank.value == RectAround(p, bankSize(layout.overflow))
            && BankAnswer(Some(p), scene, bankSize, laidOut, hidden, |layout.cards|))
  }

  /** The whole pass. Visible cards and the bank are pairwise the margin apart;
      every processor is in exactly one of cards and bank; the bank folds as
      few of the last cards as it can; and a nonempty overflow always ends with
      a bank on screen. */
  method LayoutProcessors(scene: Scene, processors: seq<Processor>, bankSize: seq<nat> -> Size)
    returns (layout: Layout, ghost laidOut: seq<Card>, ghost hidden: seq<nat>)
    requires ValidCamera(scene.camera)
    ensures PlacedSoFar(scene, processors, |processors|, laidOut, hidden)
    ensures hidden == [] ==> layout == Layout(laidOut, [], None)
    ensures hidden != [] ==> layout.bank.Some? && FoldsAsFewAsItCan(layout, scene, bankSize, laidOut, hidden)
    ensures multiset(Indices(layout.cards)) + multiset(layout.overflow) == multiset(Upto(|processors|))
    ensures PairwiseApart(layout.cards)
    ensures layout.bank.Some? ==>
              forall i | 0 <= i < |layout.cards| :: Apart(layout.cards[i].rect, layout.bank.value, MARGIN)
  {
    hide *;
    var cards, overflow := PlaceCards(scene, processors);
    laidOut, hidden := cards, overflow;
    AllShown(scene, processors, laidOut, hidden);
    if overflow == [] {
      return Layout(cards, [], None), laidOut, hidden;
    }
    var first := bankSize(overflow);
    var bank := PlaceBank(scene, bankSize, first, laidOut, hidden, cards, overflow);
    while bank.None? && |cards| > 0
      invariant |cards| <= |laidOut| && cards == laidOut[..|cards|]
      invariant overflow != [] && overflow == Indices(laidOut[|cards|..]) + hidden
      invariant multiset(Indices(cards)) + multiset(overflow) == multiset(Upto(|processors|))
      invariant BankAnswer(bank, scene, bankSize, laidOut, hidden, |cards|)
      invariant forall k | |cards| < k <= |laidOut| :: BankAnswer(None, scene, bankSize, laidOut, hidden, k)
      decreases |cards|
    {
      var folded := cards[|cards| - 1];
      FoldedCard(laidOut, hidden, cards, overflow);
      cards := cards[..|cards| - 1];
      overflow := [folded.index] + overflow;
      bank := PlaceBank(scene, bankSize, first, laidOut, hidden, cards, overflow);
    }
    BankIsPlaced(bank, scene, bankSize, laidOut, hidden, cards, overflow);
    layout := Layout(cards, overflow, Some(RectAround(bank.value, bankSize(overflow))));
    LayoutIsFolded(layout, scene, bankSize, laidOut, hidden, bank.value);
  }

  lemma AllShown(scene: Scene, processors: seq<Processor>, cards: seq<Card>, hidden: seq<nat>)
    requires PlacedSoFar(scene, processors, |processors|, cards, hidden)
    ensures multiset(Indices(cards)) + multiset(hidden) == multiset(Upto(|processors|))
    ensures PairwiseApart(cards)
    ensures cards[..|cards|] == cards && Indices(cards[|cards|..]) + hidden == hidden
    ensures hidden == [] ==> multiset(Indices(cards)) + multiset([]) == multiset(Upto(|processors|))
  {
  }

  /** Ask the ladder for the bank, its wanted point taken from its first size. */
  method PlaceBank(scene: Scene, bankSize: seq<nat> -> Size, first: Size, ghost laidOut: seq<Card>,
                   ghost hidden: seq<nat>, cards: seq<Card>, overflow: seq<nat>)
    returns (bank: Option<Point>)
    requires ValidCamera(scene.camera)
    requires first == bankSize(hidden)
    requires |cards| <= |laidOut| && cards == laidOut[..|cards|]
    requires overflow == Indices(laidOut[|cards|..]) + hidden
    ensures BankAnswer(bank, scene, bankSize, laidOut, hidden, |cards|)
  {
    hide LadderAnswer, ExtentOf, RangeFor, ClampPoint, MaxRadius, Rects;
    var wanted := ToWorld(scene.camera, BankWanted(scene, first));
    CameraRoundTrip(scene.camera, BankWanted(scene, first));
    bank := Adjust(scene, SearchFor(scene, bankSize(overflow), ToScreen(scene.camera, wanted)), Rects(cards), Automatic);
  }

  lemma LayoutIsFolded(layout: Layout, scene: Scene, bankSize: seq<nat> -> Size,
                       laidOut: seq<Card>, hidden: seq<nat>, p: Point)
    requires |layout.cards| <= |laidOut| && layout.cards == laidOut[..|layout.cards|]
    requires layout.overflow == Indices(laidOut[|layout.cards|..]) + hidden
    requires forall k | |layout.cards| < k <= |laidOut| :: BankAnswer(None, scene, bankSize, laidOut, hidden, k)
    requires BankAnswer(Some(p), scene, bankSize, laidOut, hidden, |layout.cards|)
    requires layout.bank == Some(RectAround(p, bankSize(layout.overflow)))
    ensures FoldsAsFewAsItCan(layout, scene, bankSize, laidOut, hidden)
  {
    hide BankAnswer, RectAround, Indices;
  }

  /** Once the fold loop stops, the bank has a place, clear of what is shown. */
  lemma BankIsPlaced(bank: Option<Point>, scene: Scene, bankSize: seq<nat> -> Size, laidOut: seq<Card>,
                     hidden: seq<nat>, cards: seq<Card>, overflow: seq<nat>)
    requires |cards| <= |laidOut| && cards == laidOut[..|cards|]
    requires overflow == Indices(laidOut[|cards|..]) + hidden
    requires BankAnswer(bank, scene, bankSize, laidOut, hidden, |cards|)
    requires bank.Some? || |cards| == 0
    requires PairwiseApart(laidOut)
    ensures bank.Some? && PairwiseApart(cards)
    ensures forall i | 0 <= i < |cards| :: Apart(cards[i].rect, RectAround(bank.value, bankSize(overflow)), MARGIN)
  {
    LadderKeepsPlaced(bank, scene, BankSearch(scene, bankSize, hidden, overflow), Rects(cards), Automatic);
    ClearMeansApart(bankSize(overflow), bank.value, Rects(cards));
    forall i | 0 <= i < |cards|
      ensures Apart(cards[i].rect, RectAround(bank.value, bankSize(overflow)), MARGIN)
    {
      assert Rects(cards)[i] == cards[i].rect;
    }
    assert forall i | 0 <= i < |cards| :: cards[i] == laidOut[i];
  }

  lemma FoldedCard(laidOut: seq<Card>, hidden: seq<nat>, cards: seq<Card>, overflow: seq<nat>)
    requires 0 < |cards| <= |laidOut| && cards == laidOut[..|cards|]
    requires overflow == Indices(laidOut[|cards|..]) + hidden
    ensures cards[..|cards| - 1] == laidOut[..|cards| - 1]
    ensures [cards[|cards| - 1].index] + overflow == Indices(laidOut[|cards| - 1..]) + hidden
    ensures multiset(Indices(cards[..|cards| - 1])) + multiset([cards[|cards| - 1].index] + overflow)
         == multiset(Indices(cards)) + multiset(overflow)
  {
    var n := |cards| - 1;
    assert laidOut[n..] == [cards[n]] + laidOut[n + 1..];
    assert Indices(laidOut[n..]) == [cards[n].index] + Indices(laidOut[n + 1..]);
    assert Indices(cards) == Indices(cards[..n]) + [cards[n].index];
  }
}
