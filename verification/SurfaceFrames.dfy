/** Frames of controls: which ones cleaning leaves alone, and how soon cleaning
    settles them. */
module SurfaceFrames {
  import opened Surface

  predicate WholeNumber(v: real) {
    v.Floor as real == v
  }

  lemma RoundWhole(v: real)
    ensures WholeNumber(RoundReal(v)) && (WholeNumber(v) ==> RoundReal(v) == v)
  {
    IntegersAreWhole((v + 0.5).Floor);
    if WholeNumber(v) {
      IntegerPart(v.Floor, v + 0.5);
    }
  }

  lemma IntegersAreWhole(n: int)
    ensures WholeNumber(n as real)
  {
  }

  lemma IntegerPart(n: int, v: real)
    requires n as real <= v < n as real + 1.0
    ensures v.Floor == n
  {
  }

  lemma RoundBetween(v: real, low: real, high: real)
    requires WholeNumber(low) && WholeNumber(high) && low <= v <= high
    ensures low <= RoundReal(v) <= high
  {
    var l, h, n := low.Floor, high.Floor, (v + 0.5).Floor;
    assert l < n + 1 && n < h + 1;
  }

  /** Whole numbers within the bounds. */
  predicate SettledFrame(f: Frame) {
    && WholeNumber(f.x) && WholeNumber(f.y) && WholeNumber(f.width) && WholeNumber(f.height)
    && 36000.0 <= f.width <= 280000.0 && 36000.0 <= f.height <= 280000.0
    && 0.0 <= f.x <= BOARD_WIDTH - f.width && 0.0 <= f.y <= BOARD_HEIGHT - f.height
  }

  lemma RoundedClamp(v: real, high: real)
    requires WholeNumber(high) && high >= 0.0
    ensures WholeNumber(RoundReal(Clamp(v, 0.0, high))) && 0.0 <= RoundReal(Clamp(v, 0.0, high)) <= high
  {
    RoundWhole(Clamp(v, 0.0, high));
    RoundBetween(Clamp(v, 0.0, high), 0.0, high);
  }

  lemma WholeDifference(a: real, b: real)
    requires WholeNumber(a) && WholeNumber(b)
    ensures WholeNumber(a - b)
  {
    assert a - b == (a.Floor - b.Floor) as real;
  }

  /** A frame is left alone exactly when it is settled. */
  lemma FrameKeptIff(f: Frame)
    ensures SettledFrame(f) <==> CleanFrame(f) == f
  {
    hide RoundReal;
    if SettledFrame(f) {
      RoundWhole(f.x);
      RoundWhole(f.y);
      RoundWhole(f.width);
      RoundWhole(f.height);
    }
    if CleanFrame(f) == f {
      var width, height := Clamp(f.width, 36000.0, 280000.0), Clamp(f.height, 36000.0, 280000.0);
      RoundWhole(width);
      RoundWhole(height);
      RoundBetween(width, 36000.0, 280000.0);
      RoundBetween(height, 36000.0, 280000.0);
      RoundWhole(f.width);
      RoundWhole(f.height);
      SizeSettles(f.width, width);
      SizeSettles(f.height, height);
      WholeDifference(BOARD_WIDTH, f.width);
      WholeDifference(BOARD_HEIGHT, f.height);
      RoundedClamp(f.x, BOARD_WIDTH - f.width);
      RoundedClamp(f.y, BOARD_HEIGHT - f.height);
    }
  }

  lemma SizeSettles(size: real, clamped: real)
    requires clamped == Clamp(size, 36000.0, 280000.0) && size == RoundReal(clamped)
    ensures size == clamped
  {
    RoundBetween(clamped, 36000.0, 280000.0);
  }

  /** Whole sizes settle in one cleaning. */
  lemma WholeSizesSettle(f: Frame)
    requires WholeNumber(f.width) && WholeNumber(f.height)
    ensures CleanFrame(CleanFrame(f)) == CleanFrame(f)
  {
    hide RoundReal, WholeNumber;
    var width, height := Clamp(f.width, 36000.0, 280000.0), Clamp(f.height, 36000.0, 280000.0);
    WholeBounds();
    RoundWhole(width);
    RoundWhole(height);
    WholeDifference(BOARD_WIDTH, width);
    WholeDifference(BOARD_HEIGHT, height);
    RoundedClamp(f.x, BOARD_WIDTH - width);
    RoundedClamp(f.y, BOARD_HEIGHT - height);
    FrameKeptIff(CleanFrame(f));
  }

  lemma WholeBounds()
    ensures WholeNumber(36000.0) && WholeNumber(280000.0) && WholeNumber(BOARD_WIDTH) && WholeNumber(BOARD_HEIGHT)
  {
  }

  /** Cleaning a frame twice settles it. */
  lemma FrameSettlesInTwo(f: Frame)
    ensures SettledFrame(CleanFrame(CleanFrame(f)))
  {
    RoundWhole(Clamp(f.width, 36000.0, 280000.0));
    RoundWhole(Clamp(f.height, 36000.0, 280000.0));
    WholeSizesSettle(CleanFrame(f));
    FrameKeptIff(CleanFrame(CleanFrame(f)));
  }

  /** On one axis: the size is an exact half and the position reaches its bound. */
  predicate RoundsOut(position: real, size: real, board: real) {
    var clamped := Clamp(size, 36000.0, 280000.0);
    clamped - clamped.Floor as real == 0.5 && position >= board - clamped
  }

  /** What rounding makes of a real number. */
  lemma RoundSpec(v: real)
    ensures RoundReal(v) == (v + 0.5).Floor as real
    ensures RoundReal(v) <= v + 0.5 < RoundReal(v) + 1.0
  {
  }

  lemma ClampReaches(value: real, min: real, max: real)
    requires min <= max
    ensures min <= Clamp(value, min, max) <= max
    ensures Clamp(value, min, max) == max <==> min == max || value >= max
  {
  }

  /** The rounded position stays within the bound of the rounded size exactly
      when the size is no half or the position stays short of its bound. */
  lemma AxisSettlesIff(position: real, size: real, board: real)
    requires board == BOARD_WIDTH || board == BOARD_HEIGHT
    ensures var clamped := Clamp(size, 36000.0, 280000.0);
      RoundReal(Clamp(position, 0.0, board - clamped)) <= board - RoundReal(clamped) <==> !RoundsOut(position, size, board)
  {
    var clamped := Clamp(size, 36000.0, 280000.0);
    var place := Clamp(position, 0.0, board - clamped);
    ClampReaches(size, 36000.0, 280000.0);
    ClampReaches(position, 0.0, board - clamped);
    hide Clamp, RoundReal;
    RoundSpec(clamped);
    RoundSpec(place);
    WholeBoard(board);
    HalvesDecide(clamped.Floor, (clamped + 0.5).Floor, (place + 0.5).Floor, board.Floor, clamped, place);
    RealsCompare((place + 0.5).Floor, board.Floor, (clamped + 0.5).Floor);
  }

  lemma WholeBoard(board: real)
    requires board == BOARD_WIDTH || board == BOARD_HEIGHT
    ensures board.Floor as real == board
  {
  }

  lemma RealsCompare(x: int, board: int, size: int)
    ensures x as real <= board as real - size as real <==> x <= board - size
  {
  }

  lemma HalvesDecide(whole: int, rounded: int, x: int, board: int, size: real, place: real)
    requires whole as real <= size < whole as real + 1.0
    requires rounded as real <= size + 0.5 < rounded as real + 1.0
    requires x as real <= place + 0.5 < x as real + 1.0
    requires place <= board as real - size
    ensures x <= board - rounded <==> !(size - whole as real == 0.5 && place == board as real - size)
  {
    var part := size - whole as real;
    assert size == whole as real + part;
    if part < 0.5 {
      assert rounded == whole;
    } else {
      assert rounded == whole + 1;
    }
  }

  /** Cleaning a frame once settles it exactly when on neither axis rounding
      the size puts the position out of bounds. */
  lemma FrameSettlesInOneIff(f: Frame)
    ensures CleanFrame(CleanFrame(f)) == CleanFrame(f)
       <==> !RoundsOut(f.x, f.width, BOARD_WIDTH) && !RoundsOut(f.y, f.height, BOARD_HEIGHT)
  {
    hide RoundReal, RoundsOut, WholeNumber;
    var width, height := Clamp(f.width, 36000.0, 280000.0), Clamp(f.height, 36000.0, 280000.0);
    var x, y := Clamp(f.x, 0.0, BOARD_WIDTH - width), Clamp(f.y, 0.0, BOARD_HEIGHT - height);
    WholeBounds();
    RoundWhole(width);
    RoundWhole(height);
    RoundWhole(x);
    RoundWhole(y);
    RoundBetween(width, 36000.0, 280000.0);
    RoundBetween(height, 36000.0, 280000.0);
    RoundNonNegative(x);
    RoundNonNegative(y);
    AxisSettlesIff(f.x, f.width, BOARD_WIDTH);
    AxisSettlesIff(f.y, f.height, BOARD_HEIGHT);
    FrameKeptIff(CleanFrame(f));
  }

  lemma RoundNonNegative(v: real)
    requires v >= 0.0
    ensures RoundReal(v) >= 0.0
  {
  }

  /** ... but not once: rounding the size can leave the position out of bounds. */
  lemma FrameNeedsTwo()
    ensures var f := Frame(1200000.0, 0.0, 36000.5, 36000.0);
      CleanFrame(f).x == 1164000.0 && CleanFrame(CleanFrame(f)).x == 1163999.0
  {
  }
}
