/** The adaptive grid each player's generated controls are laid out on
    (`compactFourPlayerGrid`). */
module PlayerGrid {
  import opened Surface
  import opened SurfaceFrames

  datatype Quadrant = Quadrant(x: real, y: real, width: real, height: real)

  function QuadrantOf(slot: int): Quadrant
    requires 1 <= slot <= 4
  {
    Quadrant(28000.0 + (if slot % 2 == 0 then 590000.0 else 0.0),
             30000.0 + (if slot > 2 then 342000.0 else 0.0), 548000.0, 314000.0)
  }

  /** The least c, from `c` on, whose square reaches 1.25 times the count: the
      ceiling of the square root. */
  function CeilRoot(count: nat, c: nat): (r: nat)
    requires c > 0
    ensures r >= c && 4 * (r * r) >= 5 * count
    ensures r == c || 4 * ((r - 1) * (r - 1)) < 5 * count
    decreases 5 * count - c
  {
    if 4 * (c * c) >= 5 * count then c
    else
      assert c <= c * c;
      CeilRoot(count, c + 1)
  }

  function Columns(count: nat): (r: nat)
    ensures 1 <= r <= 5
  {
    if CeilRoot(count, 1) <= 5 then CeilRoot(count, 1) else 5
  }

  function Rows(count: nat): nat {
    (count + Columns(count) - 1) / Columns(count)
  }

  function GridKind(count: nat): Kind {
    if count <= 12 then Button30 else Button24
  }

  function Size(count: nat): real {
    SizeOf(GridKind(count)).0
  }

  function Smaller(a: real, b: real): real {
    if a <= b then a else b
  }

  /** The pitch of `n` cells along an extent, at most `most`. */
  function Pitch(extent: real, size: real, n: nat, most: real): real {
    if n <= 1 then 0.0 else Smaller(most, (extent - size) / (n - 1) as real)
  }

  function PitchX(count: nat, slot: int): real
    requires 1 <= slot <= 4
  {
    Pitch(QuadrantOf(slot).width, Size(count), Columns(count), 104000.0)
  }

  function PitchY(count: nat, slot: int): real
    requires 1 <= slot <= 4
  {
    Pitch(QuadrantOf(slot).height, Size(count), Rows(count), 106000.0)
  }

  /** The start of `n` cells centred on an extent. */
  function StartAt(origin: real, extent: real, size: real, n: nat, pitch: real): real {
    origin + (extent - (size + pitch * (n as real - 1.0))) / 2.0
  }

  /** The start of the `k`th of them. */
  function StopAt(origin: real, extent: real, size: real, n: nat, pitch: real, k: nat): real {
    StartAt(origin, extent, size, n, pitch) + k as real * pitch
  }

  datatype Spot = Spot(x: real, y: real)

  function CellX(count: nat, slot: int, column: nat): real
    requires 1 <= slot <= 4
  {
    var q := QuadrantOf(slot);
    RoundReal(StopAt(q.x, q.width, Size(count), Columns(count), PitchX(count, slot), column))
  }

  function CellY(count: nat, slot: int, row: nat): real
    requires 1 <= slot <= 4
  {
    var q := QuadrantOf(slot);
    RoundReal(StopAt(q.y, q.height, Size(count), Rows(count), PitchY(count, slot), row))
  }

  function Cell(count: nat, slot: int, index: nat): Spot
    requires 1 <= slot <= 4 && index < count
  {
    Spot(CellX(count, slot, index % Columns(count)), CellY(count, slot, index / Columns(count)))
  }

  // ----- the grid told by its numbers

  /** The columns: the least number whose square reaches 1.25 times the count,
      up to five; and as few rows as take the count. */
  lemma ColumnsLaw(count: nat)
    requires count > 0
    ensures forall c: nat | 0 < c < Columns(count) :: 4 * (c * c) < 5 * count
    ensures Columns(count) == 5 || 4 * (Columns(count) * Columns(count)) >= 5 * count
    ensures Columns(count) * (Rows(count) - 1) < count <= Columns(count) * Rows(count)
  {
    forall c: nat | 0 < c < Columns(count) ensures 4 * (c * c) < 5 * count {
      FewerColumnsFallShort(count, c);
    }
    RowsTake(count, Columns(count));
    hide CeilRoot;
  }

  lemma FewerColumnsFallShort(count: nat, c: nat)
    requires 0 < c < Columns(count)
    ensures 4 * (c * c) < 5 * count
  {
    var root := CeilRoot(count, 1);
    hide CeilRoot;
    SquaresGrow(c, root - 1);
  }

  lemma RowsTake(count: nat, columns: nat)
    requires count > 0 && columns > 0
    ensures columns * ((count + columns - 1) / columns - 1) < count <= columns * ((count + columns - 1) / columns)
  {
    DivisionBounds(count + columns - 1, columns);
  }

  lemma SquaresGrow(a: nat, b: nat)
    requires a <= b
    ensures a * a <= b * b
  {
  }

  /** The width of a column or the height of a row: the room left by one control
      divided evenly, up to a largest pitch. */
  predicate IsPitch(pitch: real, n: nat, extent: real, size: real, most: real) {
    if n <= 1 then pitch == 0.0
    else pitch <= most && pitch * (n - 1) as real <= extent - size
         && (pitch == most || pitch * (n - 1) as real == extent - size)
  }

  /** The place of a control in a row or column of `n`: as much is left before
      the first as after the last. */
  predicate IsCentred(at: real, k: nat, n: nat, origin: real, extent: real, size: real, pitch: real) {
    at - k as real * pitch - origin == origin + extent - (at - k as real * pitch + (n as real - 1.0) * pitch + size)
  }

  /** Cells go row by row, each row and column centred in the player's quadrant of
      548 by 314, and each cell to the nearest thousandth. */
  lemma CellLaw(count: nat, slot: int, index: nat) returns (x: real, y: real, pitchX: real, pitchY: real)
    requires slot in {1, 2, 3, 4} && index < count
    ensures var left, top := if slot in {1, 3} then 28000.0 else 618000.0, if slot in {1, 2} then 30000.0 else 372000.0;
      var size := if count <= 12 then SizeOf(Button30).0 else SizeOf(Button24).0;
      && IsPitch(pitchX, Columns(count), 548000.0, size, 104000.0) && IsPitch(pitchY, Rows(count), 314000.0, size, 106000.0)
      && IsCentred(x, index % Columns(count), Columns(count), left, 548000.0, size, pitchX)
      && IsCentred(y, index / Columns(count), Rows(count), top, 314000.0, size, pitchY)
    ensures IsNearest(x, Cell(count, slot, index).x) && IsNearest(y, Cell(count, slot, index).y)
  {
    hide Columns, Rows, PitchX, PitchY, CellX, CellY, IsPitch, IsCentred, IsNearest;
    pitchX, pitchY := PitchX(count, slot), PitchY(count, slot);
    x := ColumnLaw(count, slot, index % Columns(count));
    y := RowLaw(count, slot, index / Columns(count));
  }

  lemma ColumnLaw(count: nat, slot: int, column: nat) returns (x: real)
    requires 1 <= slot <= 4
    ensures var q, pitch := QuadrantOf(slot), PitchX(count, slot);
      && IsPitch(pitch, Columns(count), q.width, Size(count), 104000.0)
      && IsCentred(x, column, Columns(count), q.x, q.width, Size(count), pitch) && IsNearest(x, CellX(count, slot, column))
  {
    hide Columns, RoundReal, StopAt, Pitch, IsPitch, IsCentred, IsNearest, QuadrantOf;
    var q := QuadrantOf(slot);
    x := AxisLaw(q.x, q.width, Size(count), Columns(count), 104000.0, column);
  }

  lemma RowLaw(count: nat, slot: int, row: nat) returns (y: real)
    requires 1 <= slot <= 4
    ensures var q, pitch := QuadrantOf(slot), PitchY(count, slot);
      && IsPitch(pitch, Rows(count), q.height, Size(count), 106000.0)
      && IsCentred(y, row, Rows(count), q.y, q.height, Size(count), pitch) && IsNearest(y, CellY(count, slot, row))
  {
    hide Rows, RoundReal, StopAt, Pitch, IsPitch, IsCentred, IsNearest, QuadrantOf;
    var q := QuadrantOf(slot);
    y := AxisLaw(q.y, q.height, Size(count), Rows(count), 106000.0, row);
  }

  predicate IsNearest(value: real, r: real) {
    r.Floor as real == r && value - 0.5 < r <= value + 0.5
  }

  lemma AxisLaw(origin: real, extent: real, size: real, n: nat, most: real, k: nat) returns (at: real)
    ensures var pitch := Pitch(extent, size, n, most);
      && IsPitch(pitch, n, extent, size, most) && IsCentred(at, k, n, origin, extent, size, pitch)
      && IsNearest(at, RoundReal(StopAt(origin, extent, size, n, pitch, k)))
  {
    var pitch := Pitch(extent, size, n, most);
    at := StopAt(origin, extent, size, n, pitch, k);
    PitchLaw(extent, size, n, most);
    CentredLaw(origin, extent, size, n, pitch, k);
    NearestLaw(at);
    hide Pitch, StopAt, IsPitch, IsCentred, IsNearest, RoundReal;
  }

  lemma NearestLaw(value: real)
    ensures IsNearest(value, RoundReal(value))
  {
    RoundSpec(value);
    RoundWhole(value);
    hide RoundReal;
  }

  lemma PitchLaw(extent: real, size: real, n: nat, most: real)
    ensures IsPitch(Pitch(extent, size, n, most), n, extent, size, most)
  {
    if n > 1 {
      var steps := (n - 1) as real;
      assert (extent - size) / steps * steps == extent - size;
      PitchFits(extent - size, steps, Pitch(extent, size, n, most));
    }
  }

  lemma CentredLaw(origin: real, extent: real, size: real, n: nat, pitch: real, k: nat)
    ensures IsCentred(StopAt(origin, extent, size, n, pitch, k), k, n, origin, extent, size, pitch)
  {
  }

  // ----- containment

  lemma DivisionBounds(a: nat, c: nat)
    requires c > 0
    ensures c * (a / c) <= a < c * (a / c) + c
  {
  }

  lemma RowInRange(index: nat, count: nat, columns: nat)
    requires index < count && columns > 0
    ensures index / columns < (count + columns - 1) / columns
  {
    DivisionBounds(index, columns);
    DivisionBounds(count + columns - 1, columns);
    LargerQuotient(index / columns, (count + columns - 1) / columns, columns);
  }

  lemma LargerQuotient(a: nat, b: nat, c: nat)
    requires c * a < c * b
    ensures a < b
  {
  }

  /** Any cell of a centred row of cells stays within its extent. */
  lemma CellInExtent(origin: real, extent: real, size: real, n: nat, most: real, k: nat)
    requires n >= 1 && k < n && 0.0 < size <= extent && most > 0.0
    ensures var pitch := Pitch(extent, size, n, most);
      origin <= StartAt(origin, extent, size, n, pitch) + k as real * pitch
      && StartAt(origin, extent, size, n, pitch) + k as real * pitch + size <= origin + extent
  {
    var pitch := Pitch(extent, size, n, most);
    var steps, along := n as real - 1.0, k as real;
    PitchIsPositive(extent, size, n, most);
    if n > 1 {
      PitchFits(extent - size, steps, pitch);
    }
    hide Pitch, Smaller;
    var span, offset := pitch * steps, along * pitch;
    assert 0.0 <= offset <= span <= extent - size by {
      if n > 1 {
        Monotone(along, steps, pitch);
      } else {
        assert along == 0.0 && steps == 0.0;
      }
    }
    CentredFits(origin, extent, size, span, offset);
  }

  lemma CentredFits(origin: real, extent: real, size: real, span: real, offset: real)
    requires 0.0 <= offset <= span <= extent - size
    ensures var start := origin + (extent - (size + span)) / 2.0;
      origin <= start + offset && start + offset + size <= origin + extent
  {
  }

  lemma PitchFits(room: real, steps: real, pitch: real)
    requires steps > 0.0 && pitch <= room / steps
    ensures pitch * steps <= room
  {
    assert pitch * steps <= room / steps * steps;
  }

  lemma Monotone(a: real, b: real, c: real)
    requires 0.0 <= a <= b && c >= 0.0
    ensures 0.0 <= a * c <= b * c
  {
  }

  lemma PitchIsPositive(extent: real, size: real, n: nat, most: real)
    requires size <= extent && most > 0.0
    ensures Pitch(extent, size, n, most) >= 0.0
  {
  }

  /** For every count, every control lies inside its player's quadrant. */
  lemma GridStaysInQuadrant(count: nat, slot: int, index: nat)
    requires 1 <= slot <= 4 && index < count
    ensures var q, spot := QuadrantOf(slot), Cell(count, slot, index);
      && q.x <= spot.x && spot.x + Size(count) <= q.x + q.width
      && q.y <= spot.y && spot.y + Size(count) <= q.y + q.height
  {
    RowInRange(index, count, Columns(count));
    ColumnStays(count, slot, index % Columns(count));
    RowStays(count, slot, index / Columns(count));
    hide CellX, CellY, QuadrantOf, Size, Columns;
  }

  lemma ColumnStays(count: nat, slot: int, column: nat)
    requires 1 <= slot <= 4 && column < Columns(count)
    ensures QuadrantOf(slot).x <= CellX(count, slot, column)
    ensures CellX(count, slot, column) + Size(count) <= QuadrantOf(slot).x + QuadrantOf(slot).width
  {
    hide Columns, StartAt, Pitch, RoundReal;
    var q := QuadrantOf(slot);
    CellInExtent(q.x, q.width, Size(count), Columns(count), 104000.0, column);
    RoundBetween(StartAt(q.x, q.width, Size(count), Columns(count), PitchX(count, slot)) + column as real * PitchX(count, slot),
               q.x, q.x + q.width - Size(count));
  }

  lemma RowStays(count: nat, slot: int, row: nat)
    requires 1 <= slot <= 4 && row < Rows(count)
    ensures QuadrantOf(slot).y <= CellY(count, slot, row)
    ensures CellY(count, slot, row) + Size(count) <= QuadrantOf(slot).y + QuadrantOf(slot).height
  {
    hide Rows, StartAt, Pitch, RoundReal;
    var q := QuadrantOf(slot);
    CellInExtent(q.y, q.height, Size(count), Rows(count), 106000.0, row);
    RoundBetween(StartAt(q.y, q.height, Size(count), Rows(count), PitchY(count, slot)) + row as real * PitchY(count, slot),
               q.y, q.y + q.height - Size(count));
  }

  /** The four quadrants are pairwise disjoint and on the board. */
  lemma QuadrantsAreDisjoint(a: int, b: int)
    requires 1 <= a < b <= 4
    ensures var p, q := QuadrantOf(a), QuadrantOf(b);
      || p.x + p.width < q.x || q.x + q.width < p.x
      || p.y + p.height < q.y || q.y + q.height < p.y
    ensures forall q | q == QuadrantOf(a) || q == QuadrantOf(b) ::
      0.0 < q.x && q.x + q.width < BOARD_WIDTH && 0.0 < q.y && q.y + q.height < BOARD_HEIGHT
  {
  }

  // ----- overlap

  predicate Overlap(a: Spot, b: Spot, size: real) {
    && a.x < b.x + size && b.x < a.x + size
    && a.y < b.y + size && b.y < a.y + size
  }

  ghost predicate OverlapFree(count: nat, slot: int)
    requires 1 <= slot <= 4
  {
    forall i, j | 0 <= i < j < count :: !Overlap(Cell(count, slot, i), Cell(count, slot, j), Size(count))
  }

  lemma ColumnTable(count: nat)
    ensures 1 <= count <= 3 ==> Columns(count) == 2
    ensures 4 <= count <= 7 ==> Columns(count) == 3
    ensures 8 <= count <= 12 ==> Columns(count) == 4
    ensures 13 <= count ==> Columns(count) == 5
  {
    var r := CeilRoot(count, 1);
    Squares(r);
    if r > 1 {
      Squares(r - 1);
    }
  }

  lemma Squares(r: nat)
    ensures r <= 1 ==> r * r <= 1
    ensures r <= 2 ==> r * r <= 4
    ensures r <= 3 ==> r * r <= 9
    ensures r <= 4 ==> r * r <= 16
    ensures r >= 2 ==> r * r >= 4
    ensures r >= 3 ==> r * r >= 9
    ensures r >= 4 ==> r * r >= 16
    ensures r >= 5 ==> r * r >= 25
  {
  }

  lemma RowTable(count: nat)
    ensures 1 <= count <= 12 ==> Rows(count) <= 3
    ensures 13 <= count <= 25 ==> Rows(count) <= 5
    ensures count > 25 ==> Rows(count) >= 6
  {
    ColumnTable(count);
    hide Columns;
    var c := Columns(count);
    if 1 <= count <= 3 {
      assert (count + 1) / 2 <= 3;
    } else if count <= 7 {
      assert count >= 1 ==> (count + 2) / 3 <= 3;
    } else if count <= 12 {
      assert (count + 3) / 4 <= 3;
    } else {
      assert (count + 4) / 5 == Rows(count);
    }
  }

  lemma RoundedStep(start: real, pitch: real, a: real, b: real, size: real)
    requires 0.0 <= a && a + 1.0 <= b && pitch >= size + 1.0 && size > 0.0
    ensures RoundReal(start + b * pitch) >= RoundReal(start + a * pitch) + size
  {
    var p, q := a * pitch, b * pitch;
    StepAtLeast(a, b, pitch, p, q);
    RoundedGap(start + p, start + q, size);
  }

  lemma RoundedGap(a: real, b: real, size: real)
    requires b >= a + size + 1.0
    ensures RoundReal(b) >= RoundReal(a) + size
  {
  }

  lemma StepAtLeast(a: real, b: real, pitch: real, p: real, q: real)
    requires 0.0 <= a && a + 1.0 <= b && pitch >= 0.0 && p == a * pitch && q == b * pitch
    ensures q >= p + pitch
  {
    Monotone(a + 1.0, b, pitch);
  }

  lemma PitchesAreWide(count: nat, slot: int)
    requires 1 <= slot <= 4 && 1 <= count <= 25
    ensures Columns(count) > 1 && PitchX(count, slot) >= Size(count) + 1.0
    ensures Rows(count) > 1 ==> PitchY(count, slot) >= Size(count) + 1.0
  {
    ColumnTable(count);
    RowTable(count);
    hide Columns, Rows;
    WidePitch(548000.0, Size(count), Columns(count), 104000.0, if count <= 12 then 4 else 5);
    WidePitch(314000.0, Size(count), Rows(count), 106000.0, if count <= 12 then 3 else 5);
  }

  lemma WidePitch(extent: real, size: real, n: nat, most: real, atMost: nat)
    requires n <= atMost && 0.0 < size <= extent && most >= size + 1.0
    requires (size + 1.0) * (atMost as real - 1.0) <= extent - size
    ensures n > 1 ==> Pitch(extent, size, n, most) >= size + 1.0
  {
    if n > 1 {
      var steps := (n - 1) as real;
      Monotone(steps, atMost as real - 1.0, size + 1.0);
      QuotientAtLeast(size + 1.0, extent - size, steps);
    }
  }

  lemma QuotientAtLeast(a: real, b: real, c: real)
    requires c > 0.0 && a * c <= b
    ensures a <= b / c
  {
  }

  /** A quadrant of up to 25 controls has no overlap, and one of more has. */
  lemma GridIsOverlapFreeIff(count: nat, slot: int)
    requires 1 <= slot <= 4
    ensures OverlapFree(count, slot) <==> count <= 25
  {
    if 1 <= count <= 25 {
      forall i, j | 0 <= i < j < count ensures !Overlap(Cell(count, slot, i), Cell(count, slot, j), Size(count)) {
        CellsApart(count, slot, i, j);
      }
    } else if count > 25 {
      FirstColumnOverlaps(count, slot);
    }
  }

  lemma CellsApart(count: nat, slot: int, i: nat, j: nat)
    requires 1 <= slot <= 4 && 1 <= count <= 25 && i < j < count
    ensures !Overlap(Cell(count, slot, i), Cell(count, slot, j), Size(count))
  {
    hide CellX, CellY, PitchX, PitchY, CeilRoot, Size;
    PitchesAreWide(count, slot);
    RowInRange(j, count, Columns(count));
    var c, size := Columns(count), Size(count);
    DivisionBounds(i, c);
    DivisionBounds(j, c);
    if i / c < j / c {
      RowsApart(count, slot, i / c, j / c);
    } else {
      SameRow(i, j, c);
      ColumnsApart(count, slot, i % c, j % c);
    }
  }

  lemma SameRow(i: nat, j: nat, c: nat)
    requires i < j && c > 0 && i / c >= j / c
    ensures i / c == j / c && i % c < j % c
  {
    DivisionBounds(i, c);
    DivisionBounds(j, c);
    QuotientsOrdered(i / c, j / c, c, i, j);
  }

  lemma QuotientsOrdered(p: nat, q: nat, c: nat, i: nat, j: nat)
    requires c > 0 && i < j && c * p <= i && j < c * q + c && p >= q
    ensures p == q
  {
    assert c * p < c * (q + 1);
    LargerQuotient(p, q + 1, c);
  }

  lemma RowsApart(count: nat, slot: int, a: nat, b: nat)
    requires 1 <= slot <= 4 && a < b && PitchY(count, slot) >= Size(count) + 1.0
    ensures CellY(count, slot, b) >= CellY(count, slot, a) + Size(count)
  {
    hide PitchY, RoundReal, StartAt, Rows;
    var q := QuadrantOf(slot);
    RoundedStep(StartAt(q.y, q.height, Size(count), Rows(count), PitchY(count, slot)), PitchY(count, slot), a as real, b as real, Size(count));
  }

  lemma ColumnsApart(count: nat, slot: int, a: nat, b: nat)
    requires 1 <= slot <= 4 && a < b && PitchX(count, slot) >= Size(count) + 1.0
    ensures CellX(count, slot, b) >= CellX(count, slot, a) + Size(count)
  {
    hide PitchX, RoundReal, StartAt, Columns;
    var q := QuadrantOf(slot);
    RoundedStep(StartAt(q.x, q.width, Size(count), Columns(count), PitchX(count, slot)), PitchX(count, slot), a as real, b as real, Size(count));
  }

  lemma FirstColumnOverlaps(count: nat, slot: int)
    requires 1 <= slot <= 4 && count > 25
    ensures Overlap(Cell(count, slot, 0), Cell(count, slot, 5), Size(count))
  {
    ColumnTable(count);
    RowTable(count);
    hide Columns, Rows;
    var pitch := PitchY(count, slot);
    var steps := (Rows(count) - 1) as real;
    TightPitch(256000.0, steps, pitch);
  }

  lemma TightPitch(room: real, steps: real, pitch: real)
    requires steps >= 5.0 && room == 256000.0 && pitch <= room / steps
    ensures pitch <= 51200.0
  {
    assert room / steps <= room / 5.0;
  }
}
