/** Where the templates put their controls: on the board always, and apart
    from one another unless a mapping has too many keys. */
module SurfaceLayouts {
  import opened Strings
  import opened Surface
  import opened SurfaceEdits
  import opened SurfaceFrames
  import opened SurfaceInvariant
  import opened SurfaceBuilt
  import opened SurfaceStarts
  import opened SurfaceMapping

  predicate Overlapping(a: Frame, b: Frame) {
    && a.x < b.x + b.width && b.x < a.x + a.width
    && a.y < b.y + b.height && b.y < a.y + a.height
  }

  predicate OnBoard(f: Frame) {
    0.0 <= f.x && f.x + f.width <= BOARD_WIDTH && 0.0 <= f.y && f.y + f.height <= BOARD_HEIGHT
  }

  ghost predicate Separate(frames: seq<Frame>) {
    forall i, j | 0 <= i < j < |frames| :: !Overlapping(frames[i], frames[j])
  }

  function Frames(controls: seq<Control>): (r: seq<Frame>)
    ensures |r| == |controls| && forall i | 0 <= i < |r| :: r[i] == controls[i].frame
  {
    seq(|controls|, i requires 0 <= i < |controls| => controls[i].frame)
  }

  // ----- from specifications to frames

  /** The frame a specification asks for. */
  function Asked(s: Spec): Frame {
    Frame(s.x, s.y, s.width, s.height)
  }

  /** The frame it gets. */
  function Given(s: Spec): Frame {
    CleanFrame(CleanFrame(Asked(s)))
  }

  function AllGiven(specs: seq<Spec>): (r: seq<Frame>)
    ensures |r| == |specs| && forall i | 0 <= i < |r| :: r[i] == Given(specs[i])
  {
    seq(|specs|, i requires 0 <= i < |specs| => Given(specs[i]))
  }

  lemma SettledIsGiven(s: Spec)
    requires SettledFrame(Asked(s))
    ensures Given(s) == Asked(s)
  {
    hide SettledFrame, CleanFrame;
    FrameKeptIff(Asked(s));
  }

  lemma GivenIsOnBoard(s: Spec)
    ensures OnBoard(Given(s))
  {
    hide CleanFrame, WholeNumber;
    FrameSettlesInTwo(Asked(s));
  }

  lemma FinalFrame(s: Spec, n: nat)
    requires GoodSpec(s) && n <= MAX_SAFE_INTEGER
    ensures Final(s, n).frame == Given(s)
  {
    hide GoodSpec, Final, GeneratedId, CleanFrame, FinalChannels, FinalCaption, Built;
    BuiltShape(s, n);
  }

  lemma ReconciledFrame(all: seq<Control>, c: Control)
    ensures Reconciled(all, c).frame == c.frame
  {
    hide HasPeer;
  }

  /** A template's controls stand where its specifications say, on the board. */
  lemma TemplateFrames(d: Document, template: StartTemplate, records: seq<Record>, selectedSlot: int, device: string, collate: Collation)
    requires !Refused(template, records, selectedSlot)
    ensures Frames(ApplyTemplate(d, template, records, selectedSlot, device, collate).controls)
         == AllGiven(TemplateSpecs(template, records, selectedSlot, device, collate))
    ensures forall f | f in AllGiven(TemplateSpecs(template, records, selectedSlot, device, collate)) :: OnBoard(f)
  {
    var specs := TemplateSpecs(template, records, selectedSlot, device, collate);
    hide ApplyTemplate, TemplateSpecs, Refused, Finals, Reconciled, Given, OnBoard, OwnSpecs, GoodSpecs, Inv, Final, Body;
    TemplateStarts(d, template, records, selectedSlot, device, collate);
    TemplateSpecsAreOwn(template, records, selectedSlot, device, collate);
    OwnSpecsAreBody(specs);
    FinalsSpec(specs);
    forall i | 0 <= i < |specs|
      ensures Reconciled(Finals(specs), Finals(specs)[i]).frame == Given(specs[i]) && OnBoard(Given(specs[i]))
    {
      GoodAt(specs, i);
      FinalFrame(specs[i], 1 + i);
      ReconciledFrame(Finals(specs), Finals(specs)[i]);
      GivenIsOnBoard(specs[i]);
    }
  }

  // ----- four quadrants

  /** The frame lies in the player's quadrant. */
  predicate InQuadrant(f: Frame, slot: int)
    requires 1 <= slot <= 4
  {
    var q := PlayerGrid.QuadrantOf(slot);
    q.x <= f.x && f.x + f.width <= q.x + q.width && q.y <= f.y && f.y + f.height <= q.y + q.height
  }

  ghost predicate AllInQuadrant(frames: seq<Frame>, slot: int)
    requires 1 <= slot <= 4
  {
    forall f | f in frames :: InQuadrant(f, slot)
  }

  lemma QuadrantsSeparate(f: Frame, g: Frame, a: int, b: int)
    requires 1 <= a < b <= 4 && InQuadrant(f, a) && InQuadrant(g, b)
    ensures !Overlapping(f, g)
  {
    PlayerGrid.QuadrantsAreDisjoint(a, b);
  }

  lemma SeparateConcat(a: seq<Frame>, b: seq<Frame>)
    requires forall i, j | 0 <= i < |a| && 0 <= j < |b| :: !Overlapping(a[i], b[j])
    ensures Separate(a + b) <==> Separate(a) && Separate(b)
  {
    hide Overlapping;
    var c := a + b;
    assert forall i | 0 <= i < |a| :: c[i] == a[i];
    assert forall j | 0 <= j < |b| :: c[|a| + j] == b[j];
    if Separate(c) {
      forall i, j | 0 <= i < j < |b| ensures !Overlapping(b[i], b[j]) {
        assert !Overlapping(c[|a| + i], c[|a| + j]);
      }
    }
  }

  /** Frames that keep to their quadrants are separate player by player. */
  lemma QuadrantByQuadrant(a: seq<Frame>, b: seq<Frame>, c: seq<Frame>, d: seq<Frame>)
    requires AllInQuadrant(a, 1) && AllInQuadrant(b, 2) && AllInQuadrant(c, 3) && AllInQuadrant(d, 4)
    ensures Separate(a + b + c + d) <==> Separate(a) && Separate(b) && Separate(c) && Separate(d)
  {
    hide Overlapping, InQuadrant;
    Beside(a, b, 1, 2);
    Beside(a, c, 1, 3);
    Beside(a, d, 1, 4);
    Beside(b, c, 2, 3);
    Beside(b, d, 2, 4);
    Beside(c, d, 3, 4);
    SeparateConcat(a, b);
    SeparateConcat(a + b, c);
    SeparateConcat(a + b + c, d);
  }

  lemma Beside(a: seq<Frame>, b: seq<Frame>, s: int, t: int)
    requires 1 <= s < t <= 4 && AllInQuadrant(a, s) && AllInQuadrant(b, t)
    ensures forall i, j | 0 <= i < |a| && 0 <= j < |b| :: !Overlapping(a[i], b[j])
  {
    hide Overlapping, InQuadrant;
    forall i, j | 0 <= i < |a| && 0 <= j < |b| ensures !Overlapping(a[i], b[j]) {
      QuadrantsSeparate(a[i], b[j], s, t);
    }
  }

  lemma GivenConcat(a: seq<Spec>, b: seq<Spec>)
    ensures AllGiven(a + b) == AllGiven(a) + AllGiven(b)
  {
    hide Given;
  }

  // ----- the fixed templates

  /** Positions and sizes in whole thousandths. */
  predicate WholeFrame(f: Frame, x: int, y: int, size: int) {
    f == Frame(x as real, y as real, size as real, size as real)
  }

  lemma WholeIsSettled(s: Spec, x: int, y: int, size: int)
    requires WholeFrame(Asked(s), x, y, size)
    requires 36000 <= size <= 280000 && 0 <= x && x + size <= 1200000 && 0 <= y && y + size <= 720000
    ensures Given(s) == Asked(s)
  {
    IntegersAreWhole(x);
    IntegersAreWhole(y);
    IntegersAreWhole(size);
    hide WholeNumber;
    SettledIsGiven(s);
  }

  lemma ArcadeStickGiven(i: nat)
    requires i < 11
    ensures Given(ArcadeStickSpec(i)) == Asked(ArcadeStickSpec(i))
  {
    hide Given;
    var s := ArcadeStickSpec(i);
    WholeIsSettled(s, s.x.Floor, s.y.Floor, s.width.Floor);
  }

  lemma LeverlessGiven(i: nat)
    requires i < 14
    ensures Given(LeverlessSpec(i)) == Asked(LeverlessSpec(i))
  {
    hide Given;
    var s := LeverlessSpec(i);
    WholeIsSettled(s, s.x.Floor, s.y.Floor, s.width.Floor);
  }

  /** Where a panel's controls stand, as whole thousandths. */
  lemma PanelBounds(slot: int, i: nat)
    requires 1 <= slot <= 4 && i < 9
    ensures var f := Asked(PanelSpec(slot, i));
      && WholeFrame(f, f.x.Floor, f.y.Floor, f.width.Floor) && InQuadrant(f, slot) && 58000 <= f.width.Floor <= 168000
  {
    hide Print;
  }

  lemma PanelGiven(slot: int, i: nat)
    requires 1 <= slot <= 4 && i < 9
    ensures Given(PanelSpec(slot, i)) == Asked(PanelSpec(slot, i)) && InQuadrant(Given(PanelSpec(slot, i)), slot)
  {
    hide Given, PanelSpec;
    var s := PanelSpec(slot, i);
    PanelBounds(slot, i);
    WholeIsSettled(s, s.x.Floor, s.y.Floor, s.width.Floor);
  }

  lemma ArcadeStickApart(i: nat, j: nat)
    requires i < j < 11
    ensures !Overlapping(Asked(ArcadeStickSpec(i)), Asked(ArcadeStickSpec(j)))
  {
  }

  lemma LeverlessApart(i: nat, j: nat)
    requires i < j < 14
    ensures !Overlapping(Asked(LeverlessSpec(i)), Asked(LeverlessSpec(j)))
  {
  }

  lemma PanelApart(slot: int, i: nat, j: nat)
    requires 1 <= slot <= 4 && i < j < 9
    ensures !Overlapping(Asked(PanelSpec(slot, i)), Asked(PanelSpec(slot, j)))
  {
    hide Print;
  }

  lemma FourPlayersSeparate()
    ensures Separate(AllGiven(FourPlayerSpecs()))
  {
    hide PanelSpecs, Separate, AllInQuadrant, AllGiven;
    PanelSeparate(1);
    PanelSeparate(2);
    PanelSeparate(3);
    PanelSeparate(4);
    QuadrantByQuadrant(AllGiven(PanelSpecs(1)), AllGiven(PanelSpecs(2)), AllGiven(PanelSpecs(3)), AllGiven(PanelSpecs(4)));
    GivenConcat(PanelSpecs(1), PanelSpecs(2));
    GivenConcat(PanelSpecs(1) + PanelSpecs(2), PanelSpecs(3));
    GivenConcat(PanelSpecs(1) + PanelSpecs(2) + PanelSpecs(3), PanelSpecs(4));
  }

  lemma PanelSeparate(slot: int)
    requires 1 <= slot <= 4
    ensures Separate(AllGiven(PanelSpecs(slot))) && AllInQuadrant(AllGiven(PanelSpecs(slot)), slot)
  {
    hide Given, Asked, Overlapping, InQuadrant, PanelSpec;
    var frames := AllGiven(PanelSpecs(slot));
    forall i | 0 <= i < 9 ensures frames[i] == Asked(PanelSpec(slot, i)) && InQuadrant(frames[i], slot) {
      PanelGiven(slot, i);
    }
    forall i, j | 0 <= i < j < 9 ensures !Overlapping(frames[i], frames[j]) {
      PanelApart(slot, i, j);
    }
  }

  lemma PlainTemplatesSeparate()
    ensures Separate(AllGiven(ArcadeStickSpecs())) && Separate(AllGiven(LeverlessSpecs()))
  {
    hide Given, Asked, Overlapping, ArcadeStickSpec, LeverlessSpec;
    var arcade, leverless := AllGiven(ArcadeStickSpecs()), AllGiven(LeverlessSpecs());
    forall i, j | 0 <= i < j < 11 ensures !Overlapping(arcade[i], arcade[j]) {
      ArcadeStickGiven(i);
      ArcadeStickGiven(j);
      ArcadeStickApart(i, j);
    }
    forall i, j | 0 <= i < j < 14 ensures !Overlapping(leverless[i], leverless[j]) {
      LeverlessGiven(i);
      LeverlessGiven(j);
      LeverlessApart(i, j);
    }
  }

  predicate FixedTemplate(template: StartTemplate) {
    !template.MappingSelected? && !template.MappingFour?
  }

  /** The controls of every fixed template lie on the board, and no two overlap. */
  lemma FixedTemplatesAreLaidOut(d: Document, template: StartTemplate, records: seq<Record>, selectedSlot: int, device: string,
                                 collate: Collation)
    requires FixedTemplate(template)
    ensures var frames := Frames(ApplyTemplate(d, template, records, selectedSlot, device, collate).controls);
      Separate(frames) && forall f | f in frames :: OnBoard(f)
  {
    hide ApplyTemplate, ArcadeStickSpecs, LeverlessSpecs, FourPlayerSpecs, AllGiven, OnBoard, Separate;
    TemplateFrames(d, template, records, selectedSlot, device, collate);
    PlainTemplatesSeparate();
    FourPlayersSeparate();
    NothingOverlaps();
  }

  lemma NothingOverlaps()
    ensures Separate(AllGiven([]))
  {
  }

  // ----- one player's mapping

  /** Eight to a row; a row below the board is pulled up to its edge. */
  function RowFrame(i: nat): Frame {
    Frame((70000 + i % 8 * 128000) as real, (if i < 40 then 145000 + i / 8 * 112000 else 646000) as real, 74000.0, 74000.0)
  }

  lemma SelectedGiven(records: seq<Record>, groups: seq<Place>, place: Place, device: string, i: nat, count: nat)
    requires i < count
    ensures Given(MappingSpec(records, groups, place, false, device, i, count)) == RowFrame(i)
  {
    hide GroupCaption, Appearances;
    var s := MappingSpec(records, groups, place, false, device, i, count);
    var x, y := 70000 + i % 8 * 128000, 145000 + i / 8 * 112000;
    PulledUp(x, y);
    FrameKeptIff(RowFrame(i));
  }

  lemma PulledUp(x: int, y: int)
    requires 0 <= x <= 1126000 && 0 <= y
    ensures var r := Frame(x as real, (if y <= 646000 then y else 646000) as real, 74000.0, 74000.0);
      CleanFrame(Frame(x as real, y as real, 74000.0, 74000.0)) == r && SettledFrame(r)
  {
    var top := if y <= 646000 then y else 646000;
    IntegersAreWhole(x);
    IntegersAreWhole(top);
    IntegersAreWhole(74000);
    hide WholeNumber, RoundReal;
    RoundWhole(x as real);
    RoundWhole(top as real);
    RoundWhole(74000.0);
  }

  lemma RowsSeparate(i: nat, j: nat)
    requires i < j < 40
    ensures !Overlapping(RowFrame(i), RowFrame(j))
  {
  }

  /** One player's generated controls are apart exactly when there are at most 40. */
  lemma SelectedIsSeparateIff(d: Document, records: seq<Record>, selectedSlot: int, device: string, collate: Collation)
    requires !Refused(MappingSelected, records, selectedSlot)
    ensures Separate(Frames(ApplyTemplate(d, MappingSelected, records, selectedSlot, device, collate).controls))
       <==> GeneratedCount(records, selectedSlot, false) <= 40
  {
    var groups := Groups(records, selectedSlot, false, collate);
    var specs := MappingSpecs(records, groups, selectedSlot, false, device);
    hide ApplyTemplate, Groups, Refused, Given, GeneratedCount, Overlapping, RowFrame, MappingSpec, OnBoard, OfSlot;
    TemplateFrames(d, MappingSelected, records, selectedSlot, device, collate);
    MappingSpecsCount(records, selectedSlot, false, device, collate);
    var frames := AllGiven(specs);
    forall i | 0 <= i < |specs| ensures frames[i] == RowFrame(i) {
      SelectedGiven(records, groups, OfSlot(groups, selectedSlot)[i], device, i, |specs|);
    }
    if |specs| <= 40 {
      forall i, j | 0 <= i < j < |specs| ensures !Overlapping(frames[i], frames[j]) {
        RowsSeparate(i, j);
      }
    } else {
      SixthRowOverlaps();
      assert Overlapping(frames[32], frames[40]);
    }
  }

  lemma SixthRowOverlaps()
    ensures Overlapping(RowFrame(32), RowFrame(40))
  {
  }

  // ----- four players' mapping

  lemma GridGiven(records: seq<Record>, groups: seq<Place>, place: Place, device: string, i: nat, count: nat)
    requires i < count && 1 <= place.slot <= 4
    ensures var spot, size := PlayerGrid.Cell(count, place.slot, i), PlayerGrid.Size(count);
      && Given(MappingSpec(records, groups, place, true, device, i, count)) == Frame(spot.x, spot.y, size, size)
      && InQuadrant(Frame(spot.x, spot.y, size, size), place.slot)
  {
    var s := MappingSpec(records, groups, place, true, device, i, count);
    var spot := PlayerGrid.Cell(count, place.slot, i);
    PlayerGrid.GridStaysInQuadrant(count, place.slot, i);
    CellIsWhole(count, place.slot, i);
    hide PlayerGrid.Cell, GroupCaption, Appearances, WholeNumber, Given, PlayerGrid.GridKind;
    SizesAreWhole(PlayerGrid.GridKind(count));
    SettledIsGiven(s);
  }

  lemma SizesAreWhole(kind: Kind)
    ensures WholeNumber(SizeOf(kind).0) && WholeNumber(SizeOf(kind).1)
    ensures kind.Button30? || kind.Button24? ==> 58000.0 <= SizeOf(kind).0 == SizeOf(kind).1 <= 74000.0
  {
  }

  lemma CellIsWhole(count: nat, slot: int, i: nat)
    requires 1 <= slot <= 4 && i < count
    ensures WholeNumber(PlayerGrid.Cell(count, slot, i).x) && WholeNumber(PlayerGrid.Cell(count, slot, i).y)
    ensures PlayerGrid.GridKind(count).Button30? || PlayerGrid.GridKind(count).Button24?
  {
    hide RoundReal, WholeNumber, PlayerGrid.StartAt, PlayerGrid.Pitch, PlayerGrid.Columns;
    var q := PlayerGrid.QuadrantOf(slot);
    forall v: real ensures WholeNumber(RoundReal(v)) {
      RoundWhole(v);
    }
  }

  /** One player's generated controls keep to the quadrant, and are apart
      exactly when there are at most 25. */
  lemma SlotSeparateIff(records: seq<Record>, groups: seq<Place>, slot: int, device: string)
    requires 1 <= slot <= 4
    ensures var frames := AllGiven(SlotSpecs(records, groups, slot, true, device));
      AllInQuadrant(frames, slot) && (Separate(frames) <==> |OfSlot(groups, slot)| <= 25)
  {
    hide Given, PlayerGrid.Cell, PlayerGrid.Size, MappingSpec, InQuadrant, OfSlot;
    var own, frames := OfSlot(groups, slot), AllGiven(SlotSpecs(records, groups, slot, true, device));
    var count, size := |own|, PlayerGrid.Size(|own|);
    forall i | 0 <= i < count
      ensures frames[i] == Frame(PlayerGrid.Cell(count, slot, i).x, PlayerGrid.Cell(count, slot, i).y, size, size) && InQuadrant(frames[i], slot)
    {
      GridGiven(records, groups, own[i], device, i, count);
    }
    assert forall i, j | 0 <= i < j < count ::
      Overlapping(frames[i], frames[j]) <==> PlayerGrid.Overlap(PlayerGrid.Cell(count, slot, i), PlayerGrid.Cell(count, slot, j), size);
    PlayerGrid.GridIsOverlapFreeIff(count, slot);
  }

  /** A player's groups are the player's distinct keys. */
  lemma SlotCount(records: seq<Record>, selectedSlot: int, collate: Collation, slot: int)
    requires 1 <= slot <= 4
    ensures |OfSlot(Groups(records, selectedSlot, true, collate), slot)| == GeneratedCount(records, slot, false)
  {
    var groups := Groups(records, selectedSlot, true, collate);
    var places := set p | p in Places(records, slot, false);
    PlacesSpec(records, selectedSlot, true);
    PlacesSpec(records, slot, false);
    hide Groups, Places, OfSlot;
    forall p ensures multiset(OfSlot(groups, slot))[p] == multiset(places)[p] {
      OneSlot(groups, slot, p);
      GroupsOnce(records, selectedSlot, true, collate, p);
      assert p in places <==> p.slot == slot && IsPlaceOf(p, records, selectedSlot, true);
    }
    assert multiset(OfSlot(groups, slot)) == multiset(places);
    assert |multiset(OfSlot(groups, slot))| == |OfSlot(groups, slot)|;
  }

  /** Four players' generated controls are apart exactly when each has at most 25. */
  lemma FourIsSeparateIff(d: Document, records: seq<Record>, selectedSlot: int, device: string, collate: Collation)
    requires !Refused(MappingFour, records, selectedSlot)
    ensures Separate(Frames(ApplyTemplate(d, MappingFour, records, selectedSlot, device, collate).controls))
       <==> forall slot | 1 <= slot <= 4 :: GeneratedCount(records, slot, false) <= 25
  {
    var groups := Groups(records, selectedSlot, true, collate);
    hide ApplyTemplate, Groups, Refused, Given, GeneratedCount, OnBoard, OfSlot, SlotSpecs, AllGiven, Separate, AllInQuadrant;
    TemplateFrames(d, MappingFour, records, selectedSlot, device, collate);
    var a, b := SlotSpecs(records, groups, 1, true, device), SlotSpecs(records, groups, 2, true, device);
    var c, e := SlotSpecs(records, groups, 3, true, device), SlotSpecs(records, groups, 4, true, device);
    forall slot | 1 <= slot <= 4
      ensures AllInQuadrant(AllGiven(SlotSpecs(records, groups, slot, true, device)), slot)
      ensures Separate(AllGiven(SlotSpecs(records, groups, slot, true, device))) <==> GeneratedCount(records, slot, false) <= 25
    {
      SlotSeparateIff(records, groups, slot, device);
      SlotCount(records, selectedSlot, collate, slot);
    }
    QuadrantByQuadrant(AllGiven(a), AllGiven(b), AllGiven(c), AllGiven(e));
    GivenConcat(a, b);
    GivenConcat(a + b, c);
    GivenConcat(a + b + c, e);
  }
}
