/** What a packing is worth. */
module PackingLayout {
  // Order, spacing and containment of every packing; the scale that is always
  // reached for 128 keys; and the board layouts built on it (`compactLayout`,
  // `leverlessLayout`, `clampPlacedKey`).

  import opened Packing

  // ----- order and spacing

  function KeysOf(packed: seq<Packed>): (r: seq<Key>)
    ensures |r| == |packed| && forall i | 0 <= i < |r| :: r[i] == packed[i].key
  {
    seq(|packed|, i requires 0 <= i < |packed| => packed[i].key)
  }

  /** `b` comes after `a`: beside it or below it, at least the gap away. */
  predicate After(a: Packed, b: Packed, gap: int) {
    a.x + a.width + gap <= b.x || a.y + a.height + gap <= b.y
  }

  ghost predicate Spaced(packed: seq<Packed>, gap: int) {
    forall i, j | 0 <= i < j < |packed| :: After(packed[i], packed[j], gap)
  }

  predicate Inside(p: Packed, region: Region) {
    && region.x <= p.x && p.x + p.width <= region.x + region.width
    && region.y <= p.y && p.y + p.height <= region.y + region.height
  }

  ghost predicate AllInside(packed: seq<Packed>, region: Region) {
    forall i | 0 <= i < |packed| :: Inside(packed[i], region)
  }

  lemma SpacedConcat(a: seq<Packed>, b: seq<Packed>, gap: int)
    requires Spaced(a, gap) && Spaced(b, gap)
    requires forall p, q | p in a && q in b :: After(p, q, gap)
    ensures Spaced(a + b, gap)
  {
    forall i, j | 0 <= i < j < |a + b| ensures After((a + b)[i], (a + b)[j], gap) {
      if i < |a| <= j {
        assert a[i] in a && b[j - |a|] in b;
      }
    }
  }

  /** The keys of a row on one line, from `x` exactly as far as the row is
      wide, neighbours exactly the gap apart. */
  ghost predicate Lined(r: seq<Packed>, row: Row, x: int, y: int, gap: int) {
    && |r| == |row|
    && (forall i | 0 <= i < |r| ::
          && r[i].key == row[i].key && r[i].width == row[i].width && r[i].height == row[i].height
          && r[i].y == y && x <= r[i].x && r[i].x + r[i].width <= x + RowWidth(row, gap))
    && (forall i | 0 <= i < |r| - 1 :: r[i + 1].x == r[i].x + r[i].width + gap)
  }

  lemma LinedFirst(first: Packed, tail: seq<Packed>, row: Row, x: int, y: int, gap: int)
    requires gap >= 0 && Wide(row) && row != []
    requires first.key == row[0].key && first.width == row[0].width && first.height == row[0].height && first.x == x && first.y == y
    requires Lined(tail, row[1..], x + row[0].width + gap, y, gap) && (tail != [] ==> tail[0].x == x + row[0].width + gap)
    ensures Lined([first] + tail, row, x, y, gap)
  {
    FirstOfRow(row, gap);
    hide RowWidth;
    var r, rest := [first] + tail, row[1..];
    assert forall i | 1 <= i < |r| :: r[i] == tail[i - 1] && row[i] == rest[i - 1];
  }

  lemma {:induction false} PlacedRow(row: Row, x: int, y: int, gap: int)
    requires gap >= 0 && Wide(row)
    ensures Lined(PlaceRow(row, x, y, gap), row, x, y, gap) && Spaced(PlaceRow(row, x, y, gap), gap)
    ensures row != [] ==> PlaceRow(row, x, y, gap)[0].x == x
  {
    if row != [] {
      var rest, next := row[1..], x + row[0].width + gap;
      var r, tail := PlaceRow(row, x, y, gap), PlaceRow(rest, next, y, gap);
      PlacedRow(rest, next, y, gap);
      assert r == [r[0]] + tail;
      LinedFirst(r[0], tail, row, x, y, gap);
      hide Spaced, PlaceRow, RowWidth;
      assert forall q | q in tail :: After(r[0], q, gap);
      OneIsSpaced(r[0], gap);
      SpacedConcat([r[0]], tail, gap);
    }
  }

  lemma OneIsSpaced(p: Packed, gap: int)
    ensures Spaced([p], gap)
  {
  }

  lemma {:induction false} FirstOfRow(row: Row, gap: int)
    requires row != [] && gap >= 0 && Wide(row)
    ensures RowWidth(row, gap) == if |row| == 1 then row[0].width else row[0].width + gap + RowWidth(row[1..], gap)
    ensures RowWidth(row, gap) >= row[0].width
  {
    RowWidthNonNegative(row[1..], gap);
    if |row| > 1 {
      var front := row[..|row| - 1];
      FirstOfRow(front, gap);
      assert row[1..][..|row[1..]| - 1] == front[1..];
    }
  }

  /** `r` shows the items in order, between the heights `top` and `bottom`. */
  ghost predicate Shows(r: seq<Packed>, items: seq<Sized>, height: int, top: int, bottom: int) {
    && |r| == |items|
    && forall i | 0 <= i < |r| ::
         && r[i].key == items[i].key && r[i].width == items[i].width && r[i].height == items[i].height == height
         && top <= r[i].y && r[i].y + height <= bottom
  }

  lemma ShowsConcat(a: seq<Packed>, b: seq<Packed>, x: seq<Sized>, y: seq<Sized>, height: int, top: int, middle: int, bottom: int, gap: int)
    requires Shows(a, x, height, top, middle) && Shows(b, y, height, middle + gap, bottom)
    requires gap >= 0 && top <= middle && height >= 0 && middle <= bottom
    requires Spaced(a, gap) && Spaced(b, gap)
    ensures Shows(a + b, x + y, height, top, bottom) && Spaced(a + b, gap)
  {
    forall p, q | p in a && q in b ensures After(p, q, gap) {
      var i :| 0 <= i < |a| && a[i] == p;
      var j :| 0 <= j < |b| && b[j] == q;
    }
    SpacedConcat(a, b, gap);
  }

  lemma RowShows(row: Row, x: int, y: int, height: int, gap: int)
    requires gap >= 0 && Wide(row) && forall i | 0 <= i < |row| :: row[i].height == height
    ensures Shows(PlaceRow(row, x, y, gap), row, height, y, y + height) && Spaced(PlaceRow(row, x, y, gap), gap)
  {
    hide PlaceRow, Spaced, RowWidth;
    PlacedRow(row, x, y, gap);
    PlaceRowLength(row, x, y, gap);
  }

  lemma PlaceRowLength(row: Row, x: int, y: int, gap: int)
    ensures |PlaceRow(row, x, y, gap)| == |row|
  {
  }

  lemma NothingIsSpaced(gap: int)
    ensures Spaced([], gap)
  {
  }

  /** The rows below one another: in order, spaced, and no lower than the
      content is high. */
  lemma {:induction false} PlacedRows(rows: seq<Row>, items: seq<Sized>, y: int, height: int, gap: int, region: Region)
    requires gap >= 0 && height >= 0 && Wide(items) && IsSplit(rows, items)
    requires forall i | 0 <= i < |items| :: items[i].height == height
    ensures Shows(PlaceRows(rows, y, height, gap, region), items, height, y, y + ContentHeight(|rows|, height, gap))
    ensures Spaced(PlaceRows(rows, y, height, gap, region), gap)
  {
    hide RowWidth, RowStart, RoundHalf, After, Spaced, PlaceRow;
    if rows == [] {
      NothingIsSpaced(gap);
    } else {
      var row, rest := rows[0], Flatten(rows[1..]);
      SplitTail(rows, items);
      var x := RoundHalf(RowStart(row, gap, region));
      var head, tail := PlaceRow(row, x, y, gap), PlaceRows(rows[1..], y + height + gap, height, gap, region);
      RowShows(row, x, y, height, gap);
      PlacedRows(rows[1..], rest, y + height + gap, height, gap, region);
      ContentHeightStep(|rows|, height, gap);
      hide ContentHeight, Shows;
      if |rows| == 1 {
        assert tail == [] && rest == [] && head + tail == head && row + rest == row;
      } else {
        ContentHeightStep(|rows| - 1, height, gap);
        ShowsConcat(head, tail, row, rest, height, y, y + height, y + ContentHeight(|rows|, height, gap), gap);
      }
    }
  }

  lemma SplitTail(rows: seq<Row>, items: seq<Sized>)
    requires rows != [] && IsSplit(rows, items)
    ensures items == rows[0] + Flatten(rows[1..]) && IsSplit(rows[1..], Flatten(rows[1..]))
    ensures forall i | 0 <= i < |rows[0]| :: rows[0][i] == items[i]
    ensures forall i | 0 <= i < |Flatten(rows[1..])| :: Flatten(rows[1..])[i] == items[|rows[0]| + i]
  {
  }

  /** Rows no wider than the region are placed inside it. */
  lemma {:induction false} PlacedRowsAreInside(rows: seq<Row>, items: seq<Sized>, y: int, height: int, gap: int, region: Region)
    requires gap >= 0 && Wide(items) && IsSplit(rows, items)
    requires forall i | 0 <= i < |rows| :: RowWidth(rows[i], gap) <= region.width
    ensures forall p | p in PlaceRows(rows, y, height, gap, region) ::
              region.x <= p.x && p.x + p.width <= region.x + region.width
  {
    hide RowWidth;
    if rows != [] {
      SplitTail(rows, items);
      var row, rest := rows[0], Flatten(rows[1..]);
      var x := RoundHalf(RowStart(row, gap, region));
      PlacedRow(row, x, y, gap);
      assert forall i | 0 <= i < |rows[1..]| :: rows[1..][i] == rows[i + 1];
      PlacedRowsAreInside(rows[1..], rest, y + height + gap, height, gap, region);
      assert region.x <= x && x + RowWidth(row, gap) <= region.x + region.width;
      assert Wide(row);
    }
  }

  lemma ContentHeightStep(rows: nat, height: int, gap: int)
    requires rows > 0 && height >= 0 && gap >= 0
    ensures ContentHeight(rows, height, gap) == height + if rows == 1 then 0 else gap + ContentHeight(rows - 1, height, gap)
    ensures ContentHeight(rows, height, gap) >= 0
  {
    if rows > 1 {
      assert rows * height == height + (rows - 1) * height;
      assert (rows - 1) * gap == gap + (rows - 2) * gap;
    }
  }

  /** Every packing keeps every key exactly once and in order, and never lets
      two keys come nearer than the gap; when the keys fit, all of them lie
      inside the region. */
  lemma PackingIsSound(packed: seq<Packed>, rows: seq<Row>, keys: seq<Key>, mode: RenderMode, scale: nat, region: Region)
    requires ValidKeys(keys) && region.width >= 0
    requires IsPacking(packed, rows, keys, mode, scale, region)
    ensures KeysOf(packed) == keys
    ensures forall i | 0 <= i < |keys| :: packed[i].width == SizeKey(keys[i], mode, scale).width
                                       && packed[i].height == SizeKey(keys[i], mode, scale).height
    ensures Spaced(packed, GapAt(scale)) && GapAt(scale) >= 0
    ensures CanPack(keys, mode, scale, region) ==> AllInside(packed, region)
  {
    var sized, gap := SizeKeys(keys, mode, scale), GapAt(scale);
    var height := if keys == [] then 0 else Scaled(BaseHeight(mode), scale);
    var y := RoundHalf(ContentTop(|rows|, height, gap, region));
    SizesAreSound(keys, mode, scale);
    PlacedRows(rows, sized, y, height, gap, region);
    hide PlaceRows, RowWidth, Flatten;
    if CanPack(keys, mode, scale, region) {
      GreedyDecides(keys, mode, scale, region, rows);
      WidestSpec(sized, region.width);
      GreedyRowsFit(rows, sized, gap, region.width);
      TallestOfEqual(sized, height);
      PlacedRowsAreInside(rows, sized, y, height, gap, region);
      forall i | 0 <= i < |packed| ensures Inside(packed[i], region) {
        assert packed[i] in packed;
      }
    }
  }

  // ----- what always fits

  /** Rows of `perRow` keys each. */
  function Chunks(items: seq<Sized>, perRow: nat): seq<Row>
    requires perRow > 0
  {
    if items == [] then []
    else if |items| <= perRow then [items]
    else [items[..perRow]] + Chunks(items[perRow..], perRow)
  }

  lemma {:induction false} ChunksSpec(items: seq<Sized>, perRow: nat, rows: nat)
    requires perRow > 0 && |items| <= perRow * rows
    ensures IsSplit(Chunks(items, perRow), items) && |Chunks(items, perRow)| <= rows
    ensures forall i | 0 <= i < |Chunks(items, perRow)| ::
              |Chunks(items, perRow)[i]| <= perRow && forall k | k in Chunks(items, perRow)[i] :: k in items
  {
    if items == [] {
    } else if |items| <= perRow {
      assert Flatten([items]) == items + Flatten<Sized>([]) == items;
      assert rows > 0;
    } else {
      var rest := items[perRow..];
      assert perRow * (rows - 1) == perRow * rows - perRow;
      ChunksSpec(rest, perRow, rows - 1);
      assert items == items[..perRow] + rest;
      var all, tail := Chunks(items, perRow), Chunks(rest, perRow);
      assert all[1..] == tail;
      forall i | 0 <= i < |all| ensures |all[i]| <= perRow && all[i] != [] && forall k | k in all[i] :: k in items {
        assert i > 0 ==> all[i] == tail[i - 1];
      }
    }
  }

  lemma {:induction false} RowWidthBound(row: Row, width: int, gap: int)
    requires gap >= 0 && width >= 0 && forall k | k in row :: k.width <= width
    ensures RowWidth(row, gap) + gap <= |row| * (width + gap) || row == []
  {
    if |row| > 1 {
      var front := row[..|row| - 1];
      RowWidthBound(front, width, gap);
      assert row[|row| - 1] in row;
      assert |row| * (width + gap) == |front| * (width + gap) + (width + gap);
    } else if |row| == 1 {
      assert row[0] in row;
    }
  }

  /** A region with room for `rows` rows of `perRow` keys of the widest cap
      takes every selection of up to `perRow * rows` keys. */
  lemma RoomForAll(keys: seq<Key>, mode: RenderMode, scale: nat, region: Region, perRow: nat, rows: nat)
    requires ValidKeys(keys) && perRow > 0 && rows > 0 && |keys| <= perRow * rows
    requires perRow * (WidestCap(mode, scale) + GapAt(scale)) <= region.width + GapAt(scale)
    requires rows * (Scaled(BaseHeight(mode), scale) + GapAt(scale)) <= region.height + GapAt(scale)
    requires region.width >= 0 && region.height >= 0
    ensures CanPack(keys, mode, scale, region)
  {
    var sized, gap, height := SizeKeys(keys, mode, scale), GapAt(scale), Scaled(BaseHeight(mode), scale);
    CapsAreBounded(keys, mode, scale);
    hide Scaled, RowWidth, Chunks, Flatten, GapAt, WidestCap, SizeKeys, ValidKeys, BaseHeight, ContentHeight;
    ChunksSpec(sized, perRow, rows);
    var split := Chunks(sized, perRow);
    forall i | 0 <= i < |split| ensures RowWidth(split[i], gap) <= region.width {
      RowWidthBound(split[i], WidestCap(mode, scale), gap);
      Product(|split[i]|, perRow, WidestCap(mode, scale) + gap);
    }
    RowsAreLowEnough(|split|, rows, height, gap, region.height);
    assert RowsFit(split, gap, height, region);
  }

  function WidestCap(mode: RenderMode, scale: nat): int {
    Scaled(if mode.Arcade? then 60.0 else 152.5, scale)
  }

  lemma Product(a: nat, b: nat, c: nat)
    requires a <= b
    ensures a * c <= b * c
  {
  }

  lemma CapsAreBounded(keys: seq<Key>, mode: RenderMode, scale: nat)
    requires ValidKeys(keys)
    ensures GapAt(scale) >= 0 && Scaled(BaseHeight(mode), scale) >= 0 && WidestCap(mode, scale) >= 0
    ensures forall k | k in SizeKeys(keys, mode, scale) :: k.width <= WidestCap(mode, scale)
  {
    hide Scaled;
    SizesAreSound(keys, mode, scale);
    ScaledIsMonotone(0.0, if mode.Arcade? then 60.0 else 152.5, scale);
    forall k | k in SizeKeys(keys, mode, scale) ensures k.width <= WidestCap(mode, scale) {
      var i :| 0 <= i < |keys| && SizeKeys(keys, mode, scale)[i] == k;
      assert ValidKey(keys[i]);
      ScaledIsMonotone(BaseWidth(keys[i], mode), if mode.Arcade? then 60.0 else 152.5, scale);
    }
  }

  lemma RowsAreLowEnough(used: nat, rows: nat, height: int, gap: int, room: int)
    requires used <= rows && rows > 0 && height >= 0 && gap >= 0 && room >= 0
    requires rows * (height + gap) <= room + gap
    ensures ContentHeight(used, height, gap) <= room
  {
    ContentHeightIsMonotone(used, rows, height, gap);
    assert rows * (height + gap) == rows * height + (rows - 1) * gap + gap;
  }

  // ----- the board

  const BOARD := Region(0, 0, 1200000, 720000)
  const COMPACT_REGION := Region(18000, 18000, 1164000, 684000)
  const ACTION_REGION := Region(440000, 48000, 742000, 624000)

  function ClampTo(value: int, low: int, high: int): int {
    var raised := Max(low, value);
    if raised <= high then raised else high
  }

  /** The final clamp of a placed key to the board. */
  function ClampPlaced(p: Packed): Packed {
    p.(x := ClampTo(p.x, 0, BOARD.width - p.width), y := ClampTo(p.y, 0, BOARD.height - p.height))
  }

  /** The clamp moves a key no farther than to the edge of the board it is
      beyond, and leaves its size. */
  lemma ClampIs(p: Packed)
    requires p.width <= 1200000 && p.height <= 720000
    ensures var r := ClampPlaced(p);
      && r.key == p.key && r.width == p.width && r.height == p.height
      && r.x == (if p.x < 0 then 0 else if p.x + p.width > 1200000 then 1200000 - p.width else p.x)
      && r.y == (if p.y < 0 then 0 else if p.y + p.height > 720000 then 720000 - p.height else p.y)
  {
  }

  lemma ClampKeepsInside(p: Packed, region: Region)
    requires Inside(p, region) && 0 <= region.x && region.x + region.width <= BOARD.width
    requires 0 <= region.y && region.y + region.height <= BOARD.height
    ensures ClampPlaced(p) == p
  {
  }

  lemma SmallerScaleTaken(keys: seq<Key>, mode: RenderMode, region: Region, scale: nat, guaranteed: nat)
    requires 10 <= guaranteed <= 20
    requires forall larger: nat | scale < larger <= 20 :: !CanPack(keys, mode, larger, region)
    requires CanPack(keys, mode, guaranteed, region)
    ensures scale >= guaranteed
  {
    hide CanPack;
    assert guaranteed <= scale || !CanPack(keys, mode, guaranteed, region);
  }

  function ClampAll(packed: seq<Packed>): (r: seq<Packed>)
    ensures |r| == |packed| && forall i | 0 <= i < |r| :: r[i] == ClampPlaced(packed[i])
  {
    seq(|packed|, i requires 0 <= i < |packed| => ClampPlaced(packed[i]))
  }

  /** Compact mode. Whenever the keys fit, the board is the packing itself:
      inside the margin, the gap apart, and unchanged by the final clamp. Up to
      128 keys of any cap width always fit, at 0.7 or more. */
  method CompactBoard(keys: seq<Key>, mode: RenderMode) returns (placed: seq<Packed>)
    requires ValidKeys(keys)
    ensures KeysOf(placed) == keys
    ensures var scale := LadderScale(keys, mode, COMPACT_REGION, 20);
      CanPack(keys, mode, scale, COMPACT_REGION) ==>
        && AllInside(placed, COMPACT_REGION) && Spaced(placed, GapAt(scale)) && GapAt(scale) >= 0
        && exists rows :: IsPacking(placed, rows, keys, mode, scale, COMPACT_REGION)
    ensures |keys| <= 128 ==>
      LadderScale(keys, mode, COMPACT_REGION, 20) >= 14
      && CanPack(keys, mode, LadderScale(keys, mode, COMPACT_REGION, 20), COMPACT_REGION)
  {
    hide CanPack, IsPacking, GapAt, Spaced, LadderScale;
    var packed := CompactLayout(keys, mode, COMPACT_REGION);
    ghost var scale := LadderScale(keys, mode, COMPACT_REGION, 20);
    ghost var rows :| IsPacking(packed, rows, keys, mode, scale, COMPACT_REGION);
    PackingIsSound(packed, rows, keys, mode, scale, COMPACT_REGION);
    placed := ClampAll(packed);
    assert KeysOf(placed) == KeysOf(packed);
    if |keys| <= 128 {
      CompactAlwaysFits(keys, mode);
      SmallerScaleTaken(keys, mode, COMPACT_REGION, scale, 14);
    }
    if CanPack(keys, mode, scale, COMPACT_REGION) {
      forall i | 0 <= i < |placed| ensures placed[i] == packed[i] {
        ClampKeepsInside(packed[i], COMPACT_REGION);
      }
      assert placed == packed;
    }
  }

  /** 128 keys of the widest cap take 13 rows of 10 at seven tenths. */
  lemma CompactAlwaysFits(keys: seq<Key>, mode: RenderMode)
    requires ValidKeys(keys) && |keys| <= 128
    ensures CanPack(keys, mode, 14, COMPACT_REGION)
  {
    RoomForAll(keys, mode, 14, COMPACT_REGION, 10, 13);
  }

  /** The action bank of the leverless layout takes 128 keys at 0.55. */
  lemma ActionsAlwaysFit(keys: seq<Key>, mode: RenderMode)
    requires ValidKeys(keys) && |keys| <= 128
    ensures CanPack(keys, mode, 11, ACTION_REGION)
  {
    if mode.Arcade? {
      RoomForAll(keys, mode, 11, ACTION_REGION, 16, 8);
    } else {
      RoomForAll(keys, mode, 11, ACTION_REGION, 8, 16);
    }
  }
}
