/** What templates and migrations build: the fixed panels as tables, and every
    document and control they start field by field, with what is refused. */
module SurfaceTables {
  import opened Options
  import opened Strings
  import opened SurfaceText
  import opened Surface
  import opened SurfaceEdits
  import opened SurfaceStable
  import opened SurfaceInvariant
  import opened SurfaceBuilt
  import opened SurfaceStarts
  import opened SurfaceLaws

  // ----- the fixed panels

  /** A control of a fixed panel: kind, caption and upper left corner in units. */
  datatype Part = Part(kind: Kind, caption: string, x: int, y: int)

  const ARCADE_STICK: seq<Part> := [
    Part(Joystick, "Player stick", 110, 230),
    Part(Button30, "B1", 565, 190), Part(Button30, "B2", 677, 198), Part(Button30, "B3", 789, 206), Part(Button30, "B4", 901, 214),
    Part(Button30, "B5", 565, 294), Part(Button30, "B6", 677, 302), Part(Button30, "B7", 789, 310), Part(Button30, "B8", 901, 318),
    Part(Button24, "Coin", 405, 565), Part(Button24, "Start", 492, 565)]

  const LEVERLESS: seq<Part> := [
    Part(Button30, "Left", 105, 330), Part(Button30, "Down", 200, 350), Part(Button30, "Right", 295, 330), Part(Button30, "Up", 235, 470),
    Part(Button30, "B1", 570, 250), Part(Button30, "B2", 680, 257), Part(Button30, "B3", 790, 264), Part(Button30, "B4", 900, 271),
    Part(Button30, "B5", 570, 352), Part(Button30, "B6", 680, 359), Part(Button30, "B7", 790, 366), Part(Button30, "B8", 900, 373),
    Part(Button24, "Select", 448, 580), Part(Button24, "Start", 530, 580)]

  /** One player's panel, from its own corner. */
  const PANEL: seq<Part> := [
    Part(Joystick, " stick", 34, 72),
    Part(Button30, " B1", 292, 74), Part(Button30, " B2", 374, 79), Part(Button30, " B3", 456, 84),
    Part(Button30, " B4", 292, 156), Part(Button30, " B5", 374, 161), Part(Button30, " B6", 456, 166),
    Part(Button24, " Start", 246, 254), Part(Button24, " Coin", 318, 254)]

  /** The corners of the four panels. */
  const CORNERS: seq<(int, int)> := [(26, 28), (616, 28), (26, 370), (616, 370)]

  predicate IsPart(s: Spec, p: Part, prefix: string, x: int, y: int, slot: Option<int>) {
    s == Spec(p.kind, prefix + p.caption, ((x + p.x) * 1000) as real, ((y + p.y) * 1000) as real, slot, FromTemplate, None, Confirmed,
              SizeOf(p.kind).0, SizeOf(p.kind).1, "", "")
  }

  lemma ArcadeStickTable(i: nat)
    requires i < 11
    ensures |ARCADE_STICK| == |ArcadeStickSpecs()| && IsPart(ArcadeStickSpecs()[i], ARCADE_STICK[i], "", 0, 0, None)
  {
  }

  lemma LeverlessTable(i: nat)
    requires i < 14
    ensures |LEVERLESS| == |LeverlessSpecs()| && IsPart(LeverlessSpecs()[i], LEVERLESS[i], "", 0, 0, None)
  {
  }

  lemma SmallNumbers(n: nat)
    requires n < 10
    ensures Print(n) == ["0123456789"[n]]
  {
  }

  lemma ButtonCaption(slot: int, i: nat)
    requires slot in {1, 2, 3, 4} && 1 <= i <= 6
    ensures PanelSpec(slot, i).caption == "P" + Print(slot) + " B" + Print(i)
    ensures PANEL[i].caption == " B" + ["0123456789"[i]]
  {
    hide Print;
  }

  lemma OtherCaption(slot: int, i: nat)
    requires slot in {1, 2, 3, 4} && i in {0, 7, 8}
    ensures PanelSpec(slot, i).caption == "P" + Print(slot) + PANEL[i].caption
  {
    hide Print;
  }

  lemma PanelCaptions(slot: int, i: nat)
    requires slot in {1, 2, 3, 4} && i < 9
    ensures PanelSpec(slot, i).caption == ["P1", "P2", "P3", "P4"][slot - 1] + PANEL[i].caption
  {
    SmallNumbers(slot);
    assert "P" + Print(slot) == ["P1", "P2", "P3", "P4"][slot - 1];
    hide Print, PanelSpec;
    if 1 <= i <= 6 {
      SmallNumbers(i);
      ButtonCaption(slot, i);
      assert "P" + Print(slot) + " B" + Print(i) == "P" + Print(slot) + (" B" + Print(i));
    } else {
      OtherCaption(slot, i);
    }
  }

  lemma PanelPlaces(slot: int, i: nat)
    requires slot in {1, 2, 3, 4} && i < 9
    ensures var s, p, corner := PanelSpec(slot, i), PANEL[i], CORNERS[slot - 1];
      s == Spec(p.kind, s.caption, ((corner.0 + p.x) * 1000) as real, ((corner.1 + p.y) * 1000) as real, Some(slot), FromTemplate, None,
                Confirmed, SizeOf(p.kind).0, SizeOf(p.kind).1, "", "")
  {
    hide Print, SizeOf;
    PanelNumbers(slot, i);
  }

  /** Kinds and corners of a panel's parts, by its formula. */
  lemma PanelNumbers(slot: int, i: nat)
    requires slot in {1, 2, 3, 4} && i < 9
    ensures var x, y := 26000 + (slot - 1) % 2 * 590000, 28000 + (slot - 1) / 2 * 342000;
      && x == CORNERS[slot - 1].0 * 1000 && y == CORNERS[slot - 1].1 * 1000
    ensures 1 <= i <= 6 ==>
      && 292000 + (i - 1) % 3 * 82000 == PANEL[i].x * 1000
      && 74000 + (i - 1) / 3 * 82000 + (i - 1) % 3 * 5000 == PANEL[i].y * 1000
  {
  }

  lemma PanelTable(slot: int, i: nat)
    requires slot in {1, 2, 3, 4} && i < 9
    ensures |PANEL| == |PanelSpecs(slot)|
    ensures IsPart(PanelSpecs(slot)[i], PANEL[i], ["P1", "P2", "P3", "P4"][slot - 1], CORNERS[slot - 1].0, CORNERS[slot - 1].1, Some(slot))
  {
    PanelCaptions(slot, i);
    PanelPlaces(slot, i);
    hide PanelSpec, SizeOf;
  }

  lemma PanelCount(slot: int)
    requires 1 <= slot <= 4
    ensures |PanelSpecs(slot)| == 9
  {
    hide PanelSpec;
  }

  lemma FourPlayerTable(i: nat)
    requires i < 36
    ensures FourPlayerSpecs()[i] == PanelSpecs(1 + i / 9)[i % 9]
  {
    hide PanelSpecs;
    var a, b, c, e := PanelSpecs(1), PanelSpecs(2), PanelSpecs(3), PanelSpecs(4);
    PanelCount(1);
    PanelCount(2);
    PanelCount(3);
    PanelCount(4);
    InFourths(a, b, c, e, i);
    if i < 9 {
      assert i / 9 == 0;
    } else if i < 18 {
      assert i / 9 == 1;
    } else if i < 27 {
      assert i / 9 == 2;
    } else {
      assert i / 9 == 3;
    }
  }

  lemma InFourths(a: seq<Spec>, b: seq<Spec>, c: seq<Spec>, e: seq<Spec>, i: nat)
    requires |a| == |b| == |c| == |e| == 9 && i < 36
    ensures (a + b + c + e)[i] == (if i < 9 then a else if i < 18 then b else if i < 27 then c else e)[i % 9]
  {
  }

  // ----- the controls

  /** A caption cleaned twice, or the label of the kind when nothing is left. */
  lemma CaptionIs(caption: string, kind: Kind)
    ensures FinalCaption(caption, DefaultLabel(kind))
         == if CleanString(caption, 64) == "" then DefaultLabel(kind) else CleanString(CleanString(caption, 64), 64)
  {
    CleanTwiceSettles(caption, 64);
    DefaultLabelIsSettled(kind);
    SettledMeans(DefaultLabel(kind), 64);
    hide CleanString, Settled, DefaultLabel;
  }

  /** What the first channel of a built control claims. */
  function Claimed(key: string, device: string): Input {
    if CleanString(key, 96) == "" then Unassigned
    else Keyboard(CleanString(CleanString(key, 96), 96), CleanString(CleanString(device, 240), 240))
  }

  lemma ClaimedIs(key: string, device: string)
    ensures FinalInput(key, device) == Claimed(key, device) && Claimed("", device) == Unassigned
  {
    CleanTwiceSettles(key, 96);
    NothingStaysNothing();
    hide CleanString, Settled;
  }

  /** A built control, once stored: its number, its own switch or the cleaned
      one asked for, the cleaned caption, and the claim on its first channel. */
  lemma FinalLaw(s: Spec, n: nat)
    requires GoodSpec(s) && 1 <= n <= MAX_SAFE_INTEGER
    ensures var standard := ChannelsFor(s.kind);
      && standard != []
      && Final(s, n) == Control("c" + Print(n),
           if s.physicalId.Some? then CleanString(CleanString(s.physicalId.value, 128), 128) else "physical:c" + Print(n),
           s.resolution, s.kind,
           if CleanString(s.caption, 64) == "" then DefaultLabel(s.kind) else CleanString(CleanString(s.caption, 64), 64),
           if s.playerSlot.Some? && s.playerSlot.value in {1, 2, 3, 4} then s.playerSlot else None,
           s.origin, CleanFrame(CleanFrame(Frame(s.x, s.y, s.width, s.height))),
           standard[0 := standard[0].(input := Claimed(s.inputKey, s.device))])
  {
    hide CleanString, CleanFrame, Print, FinalCaption, Final, DefaultLabel, FinalInput, ChannelsFor, Claimed, FinalChannels, GoodSpec, Named, Built;
    BuiltShape(s, n);
    CaptionIs(s.caption, s.kind);
    FinalChannelsAre(s);
    assert "physical:" + ("c" + Print(n)) == "physical:c" + Print(n);
  }

  lemma FinalChannelsAre(s: Spec)
    ensures ChannelsFor(s.kind) != []
    ensures FinalChannels(s) == ChannelsFor(s.kind)[0 := ChannelsFor(s.kind)[0].(input := Claimed(s.inputKey, s.device))]
  {
    ClaimedIs(s.inputKey, s.device);
    FirstOfKind(s.kind);
    FirstIsUnassigned(s.kind);
    hide ChannelsFor, FinalInput, Claimed;
    if s.inputKey == "" {
      assert ChannelsFor(s.kind)[0 := ChannelsFor(s.kind)[0].(input := Unassigned)] == ChannelsFor(s.kind);
    }
  }

  lemma FirstIsUnassigned(kind: Kind)
    ensures ChannelsFor(kind) != [] && ChannelsFor(kind)[0].input == Unassigned
  {
  }

  // ----- the documents

  /** A started document of built controls selects the first of them. */
  lemma StartedLaw(d: Document, template: Template, layout: PanelLayout, stage: Stage, specs: seq<Spec>)
    requires GoodSpecs(specs) && Body(Finals(specs), |specs| + 1)
    ensures var controls := Finals(specs);
      && (controls != [] ==> controls[0].channels != [])
      && Sanitize(Started(d, template, layout, stage, BuildAll(specs, 1)))
         == Document(true, template, layout, stage, Reconcile(controls), if controls == [] then "" else controls[0].id,
                     if controls == [] then "" else controls[0].channels[0].id, |specs| + 1)
  {
    hide Body, BuildAll, Finals, AllNamed, AllCleaned, Reconcile, Sanitize, GoodSpecs, SelectionHolds, Started, GoodSpec, Final, Built;
    SpecsAreFew(specs);
    BuildsAreNamed(specs);
    CleaningBuilds(specs);
    BuildAllSpec(specs, 1);
    var built, controls := BuildAll(specs, 1), Finals(specs);
    assert |built| == |controls| == |specs|;
    FirstIsSelected(controls, |specs| + 1);
    if specs != [] {
      FirstBuilt(specs);
    }
    StartedDocument(d, template, layout, stage, built, controls);
  }

  lemma StartedDocument(d: Document, template: Template, layout: PanelLayout, stage: Stage, built: seq<Control>, controls: seq<Control>)
    requires |built| == |controls| <= MAX_CONTROLS && AllNamed(built) && AllCleaned(built) == controls && Body(controls, |built| + 1)
    requires built == [] ==> SelectionHolds(controls, "", "")
    requires built != [] ==> built[0].channels != [] && SelectionHolds(controls, built[0].id, built[0].channels[0].id)
    ensures Sanitize(Started(d, template, layout, stage, built))
         == Document(true, template, layout, stage, Reconcile(controls), if built == [] then "" else built[0].id,
                     if built == [] then "" else built[0].channels[0].id, |built| + 1)
  {
    hide Body, AllNamed, AllCleaned, Reconcile, Sanitize, SelectionHolds;
    SanitizedIs(Started(d, template, layout, stage, built));
  }

  lemma FirstBuilt(specs: seq<Spec>)
    requires GoodSpecs(specs) && specs != []
    ensures BuildAll(specs, 1)[0].id == Finals(specs)[0].id
    ensures BuildAll(specs, 1)[0].channels != [] && Finals(specs)[0].channels != []
    ensures BuildAll(specs, 1)[0].channels[0].id == Finals(specs)[0].channels[0].id
  {
    GoodAt(specs, 0);
    BuildAllSpec(specs, 1);
    FinalsSpec(specs);
    BuiltIsMember(specs[0], 1);
    FinalChannelsAre(specs[0]);
    hide Final, Built, BuildAll, Finals, GeneratedId, GoodSpec, Member, Claimed, FinalChannels;
    BuiltFirstChannel(specs[0], 1);
  }

  lemma BuiltFirstChannel(s: Spec, n: nat)
    requires GoodSpec(s) && n <= MAX_SAFE_INTEGER
    ensures Built(s, n).channels != [] && ChannelsFor(s.kind) != [] && Built(s, n).channels[0].id == ChannelsFor(s.kind)[0].id
  {
    SpecIdsAreClean(s, n);
    SpecChannelsOnce(s);
    CleanedShape(RawControl(s, n));
    NamedChannelsAreCleaned(SpecChannels(s), s.kind);
    FirstOfKind(s.kind);
    hide CleanString, CleanFrame, CleanChannels, DefaultLabel, Named, GeneratedId, NamedChannels, CleanedChannels, ChannelsFor, GoodSpec, CleanInput;
  }

  /** A template that is not refused starts its document: four panels for the
      four-player ones, ready to route for a mapping. */
  lemma TemplateLaw(d: Document, template: StartTemplate, records: seq<Record>, selectedSlot: int, device: string, collate: Collation)
    requires !Refused(template, records, selectedSlot)
    ensures var controls := Finals(TemplateSpecs(template, records, selectedSlot, device, collate));
      && (controls != [] ==> controls[0].channels != [])
      && ApplyTemplate(d, template, records, selectedSlot, device, collate)
         == Document(true, Start(template), if template in {FourPlayer, MappingFour} then FourPanels else SinglePanel,
                     if template in {MappingSelected, MappingFour} then Route else Design, Reconcile(controls),
                     if controls == [] then "" else controls[0].id, if controls == [] then "" else controls[0].channels[0].id, |controls| + 1)
  {
    hide ApplyTemplate, TemplateSpecs, OwnSpecs, GoodSpecs, Body, Finals, Reconcile, Sanitize, Started, BuildAll, Refused;
    SpecsFit(template, records, selectedSlot, device, collate);
    TemplateSpecsAreOwn(template, records, selectedSlot, device, collate);
    var specs := TemplateSpecs(template, records, selectedSlot, device, collate);
    OwnSpecsAreBody(specs);
    StartedLaw(d, Start(template), TemplateLayout(template), TemplateStage(template), specs);
    TemplateIs(d, template, records, selectedSlot, device, collate);
    FinalsSpec(specs);
  }

  /** What each template builds from. */
  lemma TemplateTable(records: seq<Record>, selectedSlot: int, device: string, collate: Collation)
    ensures TemplateSpecs(Blank, records, selectedSlot, device, collate) == []
    ensures TemplateSpecs(ArcadeStick, records, selectedSlot, device, collate) == ArcadeStickSpecs()
    ensures TemplateSpecs(LeverlessPanel, records, selectedSlot, device, collate) == LeverlessSpecs()
    ensures TemplateSpecs(FourPlayer, records, selectedSlot, device, collate) == FourPlayerSpecs()
  {
    hide MappingSpecs, Groups;
  }

  /** A mapping of more than 512 distinct (player, key) pairs is refused: the
      document is only sanitized. */
  lemma RefusedIff(d: Document, template: StartTemplate, records: seq<Record>, selectedSlot: int, device: string, collate: Collation)
    ensures Refused(template, records, selectedSlot) <==>
      (template == MappingSelected && |Mapped(records, selectedSlot, false)| > 512)
      || (template == MappingFour && |Mapped(records, selectedSlot, true)| > 512)
    ensures Refused(template, records, selectedSlot) ==> ApplyTemplate(d, template, records, selectedSlot, device, collate) == Sanitize(d)
  {
    PlacesSpec(records, selectedSlot, false);
    PlacesSpec(records, selectedSlot, true);
    MappedIs(records, selectedSlot, false);
    MappedIs(records, selectedSlot, true);
    hide Sanitize, BuildAll, TemplateSpecs, Started, Mapped;
  }

  /** The (player, key) pairs a mapping names. */
  function Mapped(records: seq<Record>, selectedSlot: int, four: bool): set<Place> {
    set i | 0 <= i < |records| && (if four then records[i].slot in {1, 2, 3, 4} else records[i].slot == selectedSlot) ::
      Place(records[i].slot, records[i].key)
  }

  lemma MappedIs(records: seq<Record>, selectedSlot: int, four: bool)
    ensures GeneratedCount(records, selectedSlot, four) == |Mapped(records, selectedSlot, four)|
  {
    PlacesSpec(records, selectedSlot, four);
    var places := set p | p in Places(records, selectedSlot, four);
    forall p ensures p in places <==> p in Mapped(records, selectedSlot, four) {
      if IsPlaceOf(p, records, selectedSlot, four) {
        var r :| r in records && EligibleRecord(r, selectedSlot, four) && p == Place(r.slot, r.key);
        var i :| 0 <= i < |records| && records[i] == r;
      }
    }
    assert places == Mapped(records, selectedSlot, four);
  }

  // ----- a mapping's controls

  /** The caption of a mapped key: the names of its functions, each once, in the
      order they appear, or the key itself when there is none. */
  lemma MappedCaption(records: seq<Record>, place: Place) returns (names: seq<string>)
    ensures GroupCaption(records, place) == if Join(names, " \U{00B7} ") == "" then place.key else Join(names, " \U{00B7} ")
    ensures forall i, j | 0 <= i < j < |names| :: names[i] != names[j]
    ensures forall name :: name in names <==> exists r :: r in records && r.slot == place.slot && r.key == place.key
                                               && name == (if r.controlCaption == "" then r.functionName else r.controlCaption)
  {
    names := Distinct(NamesOf(GroupOf(records, place)));
    var group := GroupOf(records, place);
    GroupOfSpec(records, place);
    forall name ensures name in names <==> exists r :: r in records && r.slot == place.slot && r.key == place.key
                                              && name == (if r.controlCaption == "" then r.functionName else r.controlCaption)
    {
      if name in names {
        var i :| 0 <= i < |group| && NamesOf(group)[i] == name;
        assert group[i] in group;
      }
      if r :| r in records && r.slot == place.slot && r.key == place.key
              && name == (if r.controlCaption == "" then r.functionName else r.controlCaption) {
        var i :| 0 <= i < |group| && group[i] == r;
        assert NamesOf(group)[i] == name;
      }
    }
    hide Join, Distinct, NamesOf, GroupOf;
  }

  lemma {:induction false} GroupOfSpec(records: seq<Record>, place: Place)
    ensures forall r :: r in GroupOf(records, place) <==> r in records && r.slot == place.slot && r.key == place.key
  {
    if records != [] {
      GroupOfSpec(records[..|records| - 1], place);
      assert records == records[..|records| - 1] + [records[|records| - 1]];
    }
  }

  /** A mapped key's specification. */
  lemma MappedSpec(records: seq<Record>, groups: seq<Place>, place: Place, four: bool, device: string, index: nat, count: nat)
    requires index < count && (four ==> place.slot in {1, 2, 3, 4})
    ensures var s := MappingSpec(records, groups, place, four, device, index, count);
      && s.kind == (if four && count > 12 then Button24 else Button30) && (s.width, s.height) == SizeOf(s.kind)
      && s.caption == GroupCaption(records, place) && s.playerSlot == (if four then Some(place.slot) else None)
      && s.origin == FromMapping && s.physicalId == None && s.inputKey == place.key && s.device == device
      && (four ==> s.x == PlayerGrid.Cell(count, place.slot, index).x && s.y == PlayerGrid.Cell(count, place.slot, index).y)
      && (!four ==> s.x == (70000 + index % 8 * 128000) as real && s.y == (145000 + index / 8 * 112000) as real)
  {
    hide GroupCaption, Appearances, PlayerGrid.Cell;
  }

  // ----- the Workbench migration

  lemma MigratedIs(p: Placed, arcade: bool, device: string)
    ensures MigratedSpec(p, arcade, device)
         == Spec(if arcade then Button30 else KeycapKind,
                 if p.controlCaption != "" then p.controlCaption else if p.cap != "" then p.cap else p.key,
                 p.frame.x, p.frame.y, p.playerSlot, FromWorkbench, Some("key:" + p.key), Confirmed, p.frame.width, p.frame.height, p.key, device)
  {
  }

  /** The players of the placed keys. */
  function Players(placed: seq<Placed>): set<int> {
    set i | 0 <= i < |placed| && placed[i].playerSlot.Some? && placed[i].playerSlot.value in {1, 2, 3, 4} :: placed[i].playerSlot.value
  }

  lemma BuiltSlot(s: Spec, n: nat)
    requires GoodSpec(s) && n <= MAX_SAFE_INTEGER
    ensures Built(s, n).playerSlot == if s.playerSlot.Some? && s.playerSlot.value in {1, 2, 3, 4} then s.playerSlot else None
  {
    SpecIdsAreClean(s, n);
    CleanedShape(RawControl(s, n));
    hide CleanString, CleanFrame, CleanChannels, DefaultLabel, Named, GeneratedId, GoodSpec, SpecChannels;
  }

  /** Migrating an unstarted document: one confirmed control for each placed key,
      in order, four panels when the keys belong to more than one player. */
  lemma MigrateLaw(d: Document, placed: seq<Placed>, arcade: bool, device: string)
    requires !d.started && 1 <= |placed| <= 512
    ensures var controls := Finals(MigratedSpecs(placed, arcade, device));
      && |controls| == |placed| && controls[0].channels != []
      && Migrate(d, placed, arcade, device)
         == Document(true, WorkbenchMigration, if |Players(placed)| > 1 then FourPanels else SinglePanel, Route, controls,
                     controls[0].id, controls[0].channels[0].id, |placed| + 1)
  {
    var specs := MigratedSpecs(placed, arcade, device);
    hide Final, Finals, Body, Sanitize, BuildAll, Started, MigratedSpec, GoodSpecs, Slots, HasPeer, Players, Reconcile;
    MigratedSpecsAreBody(placed, arcade, device);
    FinalsSpec(specs);
    PlayersAre(placed, arcade, device);
    StartedLaw(d, WorkbenchMigration, if |Slots(BuildAll(specs, 1))| > 1 then FourPanels else SinglePanel, Route, specs);
    forall i | 0 <= i < |placed| ensures Finals(specs)[i].resolution == Confirmed {
      MigratedFinal(placed[i], arcade, device, 1 + i);
    }
    ConfirmedStays(Finals(specs));
  }

  lemma ConfirmedStays(controls: seq<Control>)
    requires forall i | 0 <= i < |controls| :: controls[i].resolution == Confirmed
    ensures Reconcile(controls) == controls
  {
    hide HasPeer;
    assert forall i | 0 <= i < |controls| :: Reconciled(controls, controls[i]) == controls[i];
  }

  lemma MigratedSlots(placed: seq<Placed>, arcade: bool, device: string)
    ensures forall i | 0 <= i < |placed| :: MigratedSpecs(placed, arcade, device)[i].playerSlot == placed[i].playerSlot
  {
  }

  lemma PlayersAre(placed: seq<Placed>, arcade: bool, device: string)
    requires |placed| <= 512
    ensures Slots(BuildAll(MigratedSpecs(placed, arcade, device), 1)) == Players(placed)
  {
    var specs := MigratedSpecs(placed, arcade, device);
    hide Built, BuildAll, GoodSpec, MigratedSpec;
    BuildAllSpec(specs, 1);
    MigratedSlots(placed, arcade, device);
    var built := BuildAll(specs, 1);
    forall i | 0 <= i < |placed|
      ensures built[i].playerSlot
           == if placed[i].playerSlot.Some? && placed[i].playerSlot.value in {1, 2, 3, 4} then placed[i].playerSlot else None
    {
      MigratedSpecIsGood(placed[i], arcade, device);
      BuiltSlot(specs[i], 1 + i);
    }
    forall slot ensures slot in Slots(built) <==> slot in Players(placed) {
      if slot in Slots(built) {
        var i :| 0 <= i < |built| && built[i].playerSlot.Some? && built[i].playerSlot.value == slot;
        assert placed[i].playerSlot == built[i].playerSlot;
      }
      if slot in Players(placed) {
        var i :| 0 <= i < |placed| && placed[i].playerSlot.Some? && placed[i].playerSlot.value in {1, 2, 3, 4} && placed[i].playerSlot.value == slot;
        assert built[i].playerSlot == Some(slot);
      }
    }
  }

  /** A started document, no key, or too many: the document is only sanitized. */
  lemma MigrationRefused(d: Document, placed: seq<Placed>, arcade: bool, device: string)
    requires d.started || placed == [] || |placed| > 512
    ensures Migrate(d, placed, arcade, device) == Sanitize(d)
  {
    hide Sanitize, BuildAll;
  }
}
