/** Keyboard packing. */
module Packing {
  // Greedy row breaking at one scale and the ladder of shrinking scales
  // (`packAtScale`, `compactLayout`). Scales are twentieths; lengths are
  // thousandths of a unit, the precision the layout rounds to.

  datatype RenderMode = Keycap | Arcade

  /** A key to place; `units` is its cap width, between 1 and 3.25. */
  datatype Key = Key(id: string, units: real)

  predicate ValidKey(key: Key) {
    1.0 <= key.units <= 3.25
  }

  predicate ValidKeys(keys: seq<Key>) {
    forall i | 0 <= i < |keys| :: ValidKey(keys[i])
  }

  datatype Sized = Sized(key: Key, width: int, height: int)

  datatype Packed = Packed(key: Key, width: int, height: int, x: int, y: int)

  datatype Region = Region(x: int, y: int, width: int, height: int)

  function Max(a: int, b: int): int {
    if a >= b then a else b
  }

  /** Nearest thousandth, halves upwards. */
  function Round(thousandths: real): int {
    (thousandths + 0.5).Floor
  }

  /** The same rounding for a count of half thousandths. */
  function RoundHalf(halves: int): int {
    (halves + 1) / 2
  }

  function BaseWidth(key: Key, mode: RenderMode): real {
    if mode.Arcade? then 60.0 else 58.0 + (key.units - 1.0) * 42.0
  }

  function BaseHeight(mode: RenderMode): real {
    if mode.Arcade? then 60.0 else 58.0
  }

  /** A length of `units` at `scale` twentieths, in thousandths. */
  function Scaled(units: real, scale: nat): int {
    Round(units * (50 * scale) as real)
  }

  function GapAt(scale: nat): int {
    Scaled(12.0, scale)
  }

  function SizeKey(key: Key, mode: RenderMode, scale: nat): Sized {
    Sized(key, Scaled(BaseWidth(key, mode), scale), Scaled(BaseHeight(mode), scale))
  }

  function SizeKeys(keys: seq<Key>, mode: RenderMode, scale: nat): (r: seq<Sized>)
    ensures |r| == |keys| && forall i | 0 <= i < |r| :: r[i] == SizeKey(keys[i], mode, scale)
  {
    seq(|keys|, i requires 0 <= i < |keys| => SizeKey(keys[i], mode, scale))
  }

  predicate Nearest(thousandths: real, r: int) {
    thousandths - 0.5 < r as real <= thousandths + 0.5
  }

  /** The size of a cap: at full scale an arcade button is 60 by 60, and a cap
      58 high and 42 wider for every unit beyond the first; other scales shrink
      both, and the gap of 12, in proportion, to the nearest thousandth. */
  lemma SizesAre(key: Key, mode: RenderMode, scale: nat)
    ensures var s := SizeKey(key, mode, scale);
      && s.key == key
      && Nearest((if mode == Arcade then 60000.0 else 58000.0 + (key.units - 1.0) * 42000.0) * scale as real / 20.0, s.width)
      && Nearest((if mode == Arcade then 60000.0 else 58000.0) * scale as real / 20.0, s.height)
    ensures Nearest(12000.0 * scale as real / 20.0, GapAt(scale))
  {
    Shrunk(BaseWidth(key, mode), if mode == Arcade then 60000.0 else 58000.0 + (key.units - 1.0) * 42000.0, scale);
    Shrunk(BaseHeight(mode), if mode == Arcade then 60000.0 else 58000.0, scale);
    Shrunk(12.0, 12000.0, scale);
    hide Scaled, Nearest;
  }

  lemma Shrunk(units: real, thousandths: real, scale: nat)
    requires thousandths == units * 1000.0
    ensures Nearest(thousandths * scale as real / 20.0, Scaled(units, scale))
  {
    RoundIsNearest(units * (50 * scale) as real);
    Proportional(units, scale);
    hide Round, Nearest;
  }

  lemma RoundIsNearest(v: real)
    ensures Nearest(v, Round(v))
  {
  }

  lemma Proportional(units: real, scale: nat)
    ensures units * (50 * scale) as real == units * 1000.0 * scale as real / 20.0
  {
    assert (50 * scale) as real == 50.0 * scale as real;
  }

  // ----- rows

  type Row = seq<Sized>

  /** The width of a row: its keys with the gap between neighbours. */
  function RowWidth(row: Row, gap: int): int {
    if row == [] then 0
    else if |row| == 1 then row[0].width
    else RowWidth(row[..|row| - 1], gap) + gap + row[|row| - 1].width
  }

  function Flatten<T>(rows: seq<seq<T>>): seq<T> {
    if rows == [] then [] else rows[0] + Flatten(rows[1..])
  }

  /** An order-preserving split of the items into nonempty rows. */
  ghost predicate IsSplit(rows: seq<Row>, items: seq<Sized>) {
    Flatten(rows) == items && forall i | 0 <= i < |rows| :: rows[i] != []
  }

  /** No row is wider than the region unless a single key is, and no row could
      have taken the first key of the next one. */
  ghost predicate IsGreedy(rows: seq<Row>, gap: int, width: int) {
    && (forall i | 0 <= i < |rows| :: rows[i] != [] && (|rows[i]| == 1 || RowWidth(rows[i], gap) <= width))
    && (forall i | 0 <= i < |rows| - 1 :: RowWidth(rows[i] + [rows[i + 1][0]], gap) > width)
  }

  function ContentHeight(rows: nat, rowHeight: int, gap: int): int {
    rows * rowHeight + Max(0, rows - 1) * gap
  }

  /** Every row fits the width, and all of them together the height. */
  ghost predicate RowsFit(rows: seq<Row>, gap: int, rowHeight: int, region: Region) {
    && (forall i | 0 <= i < |rows| :: RowWidth(rows[i], gap) <= region.width)
    && ContentHeight(|rows|, rowHeight, gap) <= region.height
  }

  /** The keys can be packed at this scale: some order-preserving split fits. */
  ghost predicate CanPack(keys: seq<Key>, mode: RenderMode, scale: nat, region: Region) {
    exists rows :: && IsSplit(rows, SizeKeys(keys, mode, scale))
                   && RowsFit(rows, GapAt(scale), Scaled(BaseHeight(mode), scale), region)
  }

  // ----- placement

  /** One row, its first key at `x`: neighbours are exactly the gap apart. */
  function PlaceRow(row: Row, x: int, y: int, gap: int): (r: seq<Packed>)
    ensures |r| == |row|
  {
    if row == [] then []
    else [Packed(row[0].key, row[0].width, row[0].height, x, y)] + PlaceRow(row[1..], x + row[0].width + gap, y, gap)
  }

  /** Twice the left end of a row centred in the region. */
  function RowStart(row: Row, gap: int, region: Region): int {
    2 * region.x + Max(0, region.width - RowWidth(row, gap))
  }

  /** The rows below one another from `y`, each centred and rounded once. */
  function PlaceRows(rows: seq<Row>, y: int, rowHeight: int, gap: int, region: Region): seq<Packed> {
    if rows == [] then []
    else
      PlaceRow(rows[0], RoundHalf(RowStart(rows[0], gap, region)), y, gap)
      + PlaceRows(rows[1..], y + rowHeight + gap, rowHeight, gap, region)
  }

  /** Twice the top of the packed rows. */
  function ContentTop(rows: nat, rowHeight: int, gap: int, region: Region): int {
    2 * region.y + Max(0, region.height - ContentHeight(rows, rowHeight, gap))
  }

  /** The packing of the keys at one scale. */
  ghost predicate IsPacking(packed: seq<Packed>, rows: seq<Row>, keys: seq<Key>, mode: RenderMode, scale: nat, region: Region) {
    var gap, rowHeight := GapAt(scale), if keys == [] then 0 else Scaled(BaseHeight(mode), scale);
    && IsSplit(rows, SizeKeys(keys, mode, scale))
    && IsGreedy(rows, gap, region.width)
    && packed == PlaceRows(rows, RoundHalf(ContentTop(|rows|, rowHeight, gap, region)), rowHeight, gap, region)
  }

  // ----- the packing method

  lemma {:induction false} FlattenConcat<T>(a: seq<seq<T>>, b: seq<seq<T>>)
    ensures Flatten(a + b) == Flatten(a) + Flatten(b)
  {
    if a == [] {
      assert a + b == b;
    } else {
      assert (a + b)[1..] == a[1..] + b;
      FlattenConcat(a[1..], b);
    }
  }

  lemma RowExtended(row: Row, key: Sized, gap: int)
    ensures RowWidth(row + [key], gap) == if row == [] then key.width else RowWidth(row, gap) + gap + key.width
  {
    assert (row + [key])[..|row|] == row;
  }

  /** Break the keys into rows, left to right. */
  method BreakRows(sized: seq<Sized>, gap: int, width: int) returns (rows: seq<Row>)
    ensures IsSplit(rows, sized) && IsGreedy(rows, gap, width)
  {
    hide RowWidth, IsGreedy, Flatten;
    NoRows(gap, width);
    rows := [];
    var row: Row := [];
    var rowWidth := 0;
    for i := 0 to |sized|
      invariant row == [] <==> i == 0
      invariant i == 0 ==> rows == []
      invariant rowWidth == RowWidth(row, gap)
      invariant Flatten(rows) + row == sized[..i]
      invariant IsGreedy(if i == 0 then [] else rows + [row], gap, width)
    {
      var key := sized[i];
      assert sized[..i + 1] == sized[..i] + [key];
      RowExtended(row, key, gap);
      var nextWidth := if |row| == 0 then key.width else rowWidth + gap + key.width;
      if |row| > 0 && nextWidth > width {
        RowClosed(rows, row, key, gap, width);
        rows := rows + [row];
        row := [key];
        rowWidth := key.width;
      } else {
        RowGrown(rows, row, key, gap, width);
        row := row + [key];
        rowWidth := nextWidth;
      }
    }
    assert sized[..|sized|] == sized;
    if |row| > 0 {
      FlattenAppend(rows, row);
      rows := rows + [row];
    }
    GreedyIsSplit(rows, sized, gap, width);
  }

  lemma NoRows(gap: int, width: int)
    ensures IsGreedy([], gap, width) && Flatten<Sized>([]) == [] && RowWidth([], gap) == 0
    ensures forall key: Sized :: RowWidth([key], gap) == key.width
  {
  }

  lemma FlattenAppend(rows: seq<Row>, row: Row)
    ensures Flatten(rows + [row]) == Flatten(rows) + row
  {
    FlattenConcat(rows, [row]);
    assert Flatten([row]) == row;
  }

  lemma GreedyIsSplit(rows: seq<Row>, items: seq<Sized>, gap: int, width: int)
    requires IsGreedy(rows, gap, width) && Flatten(rows) == items
    ensures IsSplit(rows, items)
  {
  }

  lemma RowClosed(rows: seq<Row>, row: Row, key: Sized, gap: int, width: int)
    requires row != [] && IsGreedy(rows + [row], gap, width)
    requires RowWidth(row + [key], gap) > width
    ensures IsGreedy(rows + [row] + [[key]], gap, width)
    ensures Flatten(rows + [row]) == Flatten(rows) + row
  {
    hide RowWidth;
    FlattenAppend(rows, row);
    var all := rows + [row] + [[key]];
    assert forall i | 0 <= i <= |rows| :: all[i] == (rows + [row])[i];
    assert all[|rows|] == row && all[|rows| + 1] == [key];
  }

  lemma RowGrown(rows: seq<Row>, row: Row, key: Sized, gap: int, width: int)
    requires row == [] ==> rows == []
    requires row != [] ==> IsGreedy(rows + [row], gap, width) && RowWidth(row + [key], gap) <= width
    ensures IsGreedy(rows + [row + [key]], gap, width)
  {
    hide RowWidth;
    if row != [] {
      var before, after := rows + [row], rows + [row + [key]];
      forall i | 0 <= i < |after|
        ensures after[i] != [] && (|after[i]| == 1 || RowWidth(after[i], gap) <= width)
      {
        assert i < |rows| ==> after[i] == before[i];
      }
      forall i | 0 <= i < |after| - 1
        ensures RowWidth(after[i] + [after[i + 1][0]], gap) > width
      {
        assert after[i] == before[i] && after[i + 1][0] == before[i + 1][0];
      }
    }
  }

  /** Write out one row from its running left end, counted in half thousandths
      and rounded for every key. */
  method EmitRow(row: Row, start: int, top: int, gap: int, keys: seq<Packed>) returns (next: seq<Packed>)
    ensures next == keys + PlaceRow(row, RoundHalf(start), RoundHalf(top), gap)
  {
    next := keys;
    var x := start;
    for i := 0 to |row|
      invariant next + PlaceRow(row[i..], RoundHalf(x), RoundHalf(top), gap)
             == keys + PlaceRow(row, RoundHalf(start), RoundHalf(top), gap)
    {
      assert row[i..][0] == row[i] && row[i..][1..] == row[i + 1..];
      next := next + [Packed(row[i].key, row[i].width, row[i].height, RoundHalf(x), RoundHalf(top))];
      x := x + 2 * (row[i].width + gap);
    }
  }

  /** Write out all rows. */
  method EmitRows(rows: seq<Row>, top: int, rowHeight: int, gap: int, region: Region) returns (keys: seq<Packed>)
    ensures keys == PlaceRows(rows, RoundHalf(top), rowHeight, gap, region)
  {
    hide PlaceRow, RoundHalf, RowStart;
    keys := [];
    var y := top;
    assert rows[0..] == rows;
    for r := 0 to |rows|
      invariant keys + PlaceRows(rows[r..], RoundHalf(y), rowHeight, gap, region)
             == PlaceRows(rows, RoundHalf(top), rowHeight, gap, region)
    {
      assert rows[r..][0] == rows[r] && rows[r..][1..] == rows[r + 1..];
      keys := EmitRow(rows[r], RowStart(rows[r], gap, region), y, gap, keys);
      HalvesAdd(y, rowHeight + gap);
      y := y + 2 * (rowHeight + gap);
    }
  }

  lemma HalvesAdd(halves: int, whole: int)
    ensures RoundHalf(halves + 2 * whole) == RoundHalf(halves) + whole
  {
  }

  function Tallest(sized: seq<Sized>): int {
    if sized == [] then 0 else Max(Tallest(sized[..|sized| - 1]), sized[|sized| - 1].height)
  }

  function Widest(sized: seq<Sized>): int {
    if sized == [] then 0 else Max(Widest(sized[..|sized| - 1]), sized[|sized| - 1].width)
  }

  lemma {:induction false} WidestSpec(sized: seq<Sized>, width: int)
    requires width >= 0
    ensures Widest(sized) <= width <==> forall i | 0 <= i < |sized| :: sized[i].width <= width
  {
    if sized != [] {
      WidestSpec(sized[..|sized| - 1], width);
    }
  }

  lemma {:induction false} TallestOfEqual(sized: seq<Sized>, height: int)
    requires height >= 0 && forall i | 0 <= i < |sized| :: sized[i].height == height
    ensures Tallest(sized) == if sized == [] then 0 else height
  {
    if |sized| > 1 {
      TallestOfEqual(sized[..|sized| - 1], height);
    }
  }

  /** Pack at one scale. `fits` holds exactly when some order-preserving split
      of the keys fits the region at this scale. */
  method PackAtScale(keys: seq<Key>, mode: RenderMode, scale: nat, region: Region)
    returns (packed: seq<Packed>, fits: bool, ghost rows: seq<Row>)
    requires ValidKeys(keys) && region.width >= 0
    ensures IsPacking(packed, rows, keys, mode, scale, region)
    ensures fits <==> CanPack(keys, mode, scale, region)
  {
    var gap := GapAt(scale);
    var sized := SizeKeys(keys, mode, scale);
    var broken := BreakRows(sized, gap, region.width);
    rows := broken;
    var rowHeight := Tallest(sized);
    SizesAreSound(keys, mode, scale);
    TallestOfEqual(sized, Scaled(BaseHeight(mode), scale));
    var contentHeight := ContentHeight(|broken|, rowHeight, gap);
    packed := EmitRows(broken, ContentTop(|broken|, rowHeight, gap, region), rowHeight, gap, region);
    fits := Widest(sized) <= region.width && contentHeight <= region.height;
    GreedyDecides(keys, mode, scale, region, rows);
  }

  lemma SizesAreSound(keys: seq<Key>, mode: RenderMode, scale: nat)
    requires ValidKeys(keys)
    ensures GapAt(scale) >= 0 && Scaled(BaseHeight(mode), scale) >= 0
    ensures forall i | 0 <= i < |keys| :: SizeKeys(keys, mode, scale)[i].width >= 0
  {
    forall i | 0 <= i < |keys| ensures SizeKeys(keys, mode, scale)[i].width >= 0 {
      var w := BaseWidth(keys[i], mode);
      assert ValidKey(keys[i]) && w >= 0.0;
      ScaledIsMonotone(0.0, w, scale);
    }
    ScaledIsMonotone(0.0, 12.0, scale);
    ScaledIsMonotone(0.0, BaseHeight(mode), scale);
  }

  lemma ScaledIsMonotone(a: real, b: real, scale: nat)
    requires a <= b
    ensures Scaled(a, scale) <= Scaled(b, scale)
    ensures Scaled(0.0, scale) == 0
  {
    var k := (50 * scale) as real;
    assert a * k <= b * k;
  }

  // ----- greedy row breaking is optimal

  ghost predicate Wide(items: seq<Sized>) {
    forall i | 0 <= i < |items| :: items[i].width >= 0
  }

  lemma WideFront(row: Row)
    requires Wide(row) && row != []
    ensures Wide(row[..|row| - 1])
  {
  }

  lemma {:induction false} RowWidthNonNegative(row: Row, gap: int)
    requires gap >= 0 && Wide(row)
    ensures RowWidth(row, gap) >= 0
  {
    if |row| > 1 {
      WideFront(row);
      RowWidthNonNegative(row[..|row| - 1], gap);
    }
  }

  /** A row is at least as wide as any run of neighbours inside it. */
  lemma {:induction false} RunIsNarrower(row: Row, i: nat, j: nat, gap: int)
    requires i < j <= |row| && gap >= 0 && Wide(row)
    ensures RowWidth(row[i..j], gap) <= RowWidth(row, gap)
    decreases |row|
  {
    var front := row[..|row| - 1];
    WideFront(row);
    if j < |row| {
      assert front[i..j] == row[i..j];
      RunIsNarrower(front, i, j, gap);
    } else if i > 0 {
      var run := row[i..];
      assert row[i..j] == run;
      if |run| == 1 {
        RowWidthNonNegative(front, gap);
        assert run[0] == row[|row| - 1];
      } else {
        assert run[..|run| - 1] == front[i..|front|];
        RunIsNarrower(front, i, |front|, gap);
      }
    } else {
      assert row[i..j] == row;
    }
  }

  /** No first row of another split reaches past the end of the greedy one. */
  lemma FirstRowReaches(greedy: seq<Row>, other: seq<Row>, items: seq<Sized>, from: nat, gap: int, width: int)
    requires from <= |items| && gap >= 0 && Wide(items)
    requires IsSplit(greedy, items[from..]) && IsGreedy(greedy, gap, width) && greedy != []
    requires IsSplit(other, items) && other != [] && RowWidth(other[0], gap) <= width
    ensures |other[0]| <= from + |greedy[0]|
  {
    var r, s := greedy[0], other[0];
    assert items[from..] == r + Flatten(greedy[1..]) && items == s + Flatten(other[1..]);
    if |s| > from + |r| {
      assert |Flatten(greedy[1..])| == |items| - from - |r| > 0;
      var next := greedy[1][0];
      assert Flatten(greedy[1..]) == greedy[1] + Flatten(greedy[2..]) by {
        assert greedy[1..][1..] == greedy[2..];
      }
      assert items[from..][|r|] == next;
      assert s[from..from + |r| + 1] == r + [next] by {
        assert s[from..from + |r|] == items[from..][..|r|] == r;
        assert s[from + |r|] == items[from..][|r|];
      }
      assert forall i | 0 <= i < |s| :: s[i] == items[i];
      RunIsNarrower(s, from, from + |r| + 1, gap);
      assert false;
    }
  }

  /** Greedy stays ahead: packing a suffix greedily never takes more rows than
      packing the whole any other way. */
  lemma {:induction false} GreedyStaysAhead(greedy: seq<Row>, other: seq<Row>, items: seq<Sized>, from: nat, gap: int, width: int)
    requires from <= |items| && gap >= 0 && Wide(items)
    requires IsSplit(greedy, items[from..]) && IsGreedy(greedy, gap, width)
    requires IsSplit(other, items) && forall i | 0 <= i < |other| :: RowWidth(other[i], gap) <= width
    ensures |greedy| <= |other|
    decreases |greedy|
  {
    hide RowWidth;
    if greedy != [] {
      FirstRowReaches(greedy, other, items, from, gap, width);
      var r, s := greedy[0], other[0];
      assert items[from..] == r + Flatten(greedy[1..]) && items == s + Flatten(other[1..]);
      var rest := items[|s|..];
      assert rest == Flatten(other[1..]);
      assert rest[from + |r| - |s|..] == items[from + |r|..] == Flatten(greedy[1..]);
      GreedyStaysAhead(greedy[1..], other[1..], rest, from + |r| - |s|, gap, width);
    }
  }

  lemma ContentHeightIsMonotone(a: nat, b: nat, rowHeight: int, gap: int)
    requires a <= b && rowHeight >= 0 && gap >= 0
    ensures ContentHeight(a, rowHeight, gap) <= ContentHeight(b, rowHeight, gap)
  {
    assert a * rowHeight <= b * rowHeight;
    assert Max(0, a - 1) * gap <= Max(0, b - 1) * gap;
  }

  /** The member of a split row is no wider than the row. */
  lemma {:induction false} MembersAreNarrower(rows: seq<Row>, items: seq<Sized>, gap: int, width: int)
    requires gap >= 0 && Wide(items) && IsSplit(rows, items)
    requires forall i | 0 <= i < |rows| :: RowWidth(rows[i], gap) <= width
    ensures forall i | 0 <= i < |items| :: items[i].width <= width
  {
    if rows != [] {
      var row, rest := rows[0], Flatten(rows[1..]);
      assert items == row + rest;
      assert forall i | 0 <= i < |row| :: row[i] == items[i];
      assert forall i | 0 <= i < |rest| :: rest[i] == items[|row| + i];
      assert forall i | 0 <= i < |rows[1..]| :: rows[1..][i] == rows[i + 1];
      MembersAreNarrower(rows[1..], rest, gap, width);
      forall i | 0 <= i < |items| ensures items[i].width <= width {
        if i < |row| {
          assert row[i..i + 1] == [items[i]];
          RunIsNarrower(row, i, i + 1, gap);
        } else {
          assert items[i] == rest[i - |row|];
        }
      }
    }
  }

  /** Conversely, greedy rows of narrow keys all fit the width. */
  lemma {:induction false} GreedyRowsFit(rows: seq<Row>, items: seq<Sized>, gap: int, width: int)
    requires IsSplit(rows, items) && IsGreedy(rows, gap, width)
    requires forall i | 0 <= i < |items| :: items[i].width <= width
    ensures forall i | 0 <= i < |rows| :: RowWidth(rows[i], gap) <= width
  {
    if rows != [] {
      var row, rest := rows[0], Flatten(rows[1..]);
      assert items == row + rest;
      assert forall i | 0 <= i < |rest| :: rest[i] == items[|row| + i];
      GreedyRowsFit(rows[1..], rest, gap, width);
      assert items[0] == row[0];
      forall i | 0 <= i < |rows| ensures RowWidth(rows[i], gap) <= width {
        assert i > 0 ==> rows[i] == rows[1..][i - 1];
      }
    }
  }

  /** The two tests on greedy rows decide whether any split fits. */
  lemma GreedyDecides(keys: seq<Key>, mode: RenderMode, scale: nat, region: Region, rows: seq<Row>)
    requires ValidKeys(keys) && region.width >= 0
    requires IsSplit(rows, SizeKeys(keys, mode, scale)) && IsGreedy(rows, GapAt(scale), region.width)
    ensures CanPack(keys, mode, scale, region) <==>
            && Widest(SizeKeys(keys, mode, scale)) <= region.width
            && ContentHeight(|rows|, Tallest(SizeKeys(keys, mode, scale)), GapAt(scale)) <= region.height
  {
    var sized, gap, height := SizeKeys(keys, mode, scale), GapAt(scale), Scaled(BaseHeight(mode), scale);
    SizesAreSound(keys, mode, scale);
    TallestOfEqual(sized, height);
    WidestSpec(sized, region.width);
    assert rows == [] <==> sized == [];
    assert ContentHeight(0, Tallest(sized), gap) == ContentHeight(0, height, gap) == 0;
    if CanPack(keys, mode, scale, region) {
      var other :| IsSplit(other, sized) && RowsFit(other, gap, height, region);
      MembersAreNarrower(other, sized, gap, region.width);
      assert sized[0..] == sized;
      GreedyStaysAhead(rows, other, sized, 0, gap, region.width);
      ContentHeightIsMonotone(|rows|, |other|, height, gap);
    }
    if Widest(sized) <= region.width && ContentHeight(|rows|, Tallest(sized), gap) <= region.height {
      GreedyRowsFit(rows, sized, gap, region.width);
      assert RowsFit(rows, gap, height, region);
    }
  }

  // ----- the ladder of scales

  /** The largest scale from `from` down that some split fits, or 10. */
  ghost function LadderScale(keys: seq<Key>, mode: RenderMode, region: Region, from: nat): (r: nat)
    requires from >= 10
    ensures 10 <= r <= from
    ensures forall larger: nat | r < larger <= from :: !CanPack(keys, mode, larger, region)
    ensures r > 10 ==> CanPack(keys, mode, r, region)
  {
    if from == 10 || CanPack(keys, mode, from, region) then from else LadderScale(keys, mode, region, from - 1)
  }

  lemma {:induction false} ScaleIsLadder(keys: seq<Key>, mode: RenderMode, region: Region, scale: nat, from: nat)
    requires 10 <= scale <= from
    requires forall larger: nat | scale < larger <= from :: !CanPack(keys, mode, larger, region)
    requires scale > 10 ==> CanPack(keys, mode, scale, region)
    ensures LadderScale(keys, mode, region, from) == scale
  {
    hide CanPack;
    if scale < from {
      ScaleIsLadder(keys, mode, region, scale, from - 1);
    }
  }

  /** Try 20/20, then 19/20 down to 10/20, and stop at the first scale that
      fits: the largest one that does, or the smallest of all. */
  method CompactLayout(keys: seq<Key>, mode: RenderMode, region: Region) returns (packed: seq<Packed>)
    requires ValidKeys(keys) && region.width >= 0
    ensures exists rows :: IsPacking(packed, rows, keys, mode, LadderScale(keys, mode, region, 20), region)
  {
    hide *;
    var fits: bool;
    ghost var rows;
    packed, fits, rows := PackAtScale(keys, mode, 20, region);
    var next: nat := 19;
    while !fits && next >= 10
      invariant 9 <= next <= 19
      invariant IsPacking(packed, rows, keys, mode, next + 1, region)
      invariant fits <==> CanPack(keys, mode, next + 1, region)
      invariant forall larger: nat | next + 1 < larger <= 20 :: !CanPack(keys, mode, larger, region)
      decreases next
    {
      packed, fits, rows := PackAtScale(keys, mode, next, region);
      next := next - 1;
    }
    ScaleIsLadder(keys, mode, region, next + 1, 20);
  }
}
