/** The edits of a document. */
module SurfaceEdits {
  // Templates, add, select, rename, move, remove, copy, resolve, teach, the
  // device-authority sweep and the Workbench migration.

  import opened Options
  import opened Strings
  import opened SurfaceText
  import opened Surface
  import PlayerGrid

  // ----- building controls

  /** What a template or an edit asks for; `inputKey` is "" for no key. */
  datatype Spec = Spec(kind: Kind, caption: string, x: real, y: real, playerSlot: Option<int>, origin: Origin,
                       physicalId: Option<string>, resolution: Resolution, width: real, height: real,
                       inputKey: string, device: string)

  function Plainly(kind: Kind, caption: string, x: real, y: real, playerSlot: Option<int>): Spec {
    Spec(kind, caption, x, y, playerSlot, FromTemplate, None, Confirmed, SizeOf(kind).0, SizeOf(kind).1, "", "")
  }

  function GeneratedId(n: nat): string {
    "c" + Print(n)
  }

  function PhysicalIdOf(id: string): string {
    "physical:" + id
  }

  /** Replace what a channel claims to receive, together with its mark. */
  function WithChannelInput(c: Channel, input: Input, unverified: bool): Channel {
    Channel(c.id, c.caption, input, c.encoder, unverified && input.Keyboard?)
  }

  function SpecChannels(s: Spec): seq<Channel> {
    var channels := ChannelsFor(s.kind);
    if s.inputKey == "" then channels
    else channels[0 := WithChannelInput(channels[0], Keyboard(s.inputKey, s.device), false)]
  }

  function RawControl(s: Spec, n: nat): Control {
    Control(GeneratedId(n), if s.physicalId.Some? then s.physicalId.value else PhysicalIdOf(GeneratedId(n)),
            s.resolution, s.kind, s.caption, s.playerSlot, s.origin, Frame(s.x, s.y, s.width, s.height), SpecChannels(s))
  }

  lemma SafeNumbersAreShort(n: nat)
    requires n <= MAX_SAFE_INTEGER
    ensures |Print(n)| <= 16
  {
    hide Print;
    assert n < Pow10(16) by {
      assert Pow10(4) == 10000;
      assert Pow10(8) == 100000000;
      assert Pow10(12) == 1000000000000;
    }
    PrintLength(n, 16);
  }

  lemma PrefixesAreTidy()
    ensures Tidy("c") && Tidy("physical:") && Tidy("key:")
  {
  }

  lemma GeneratedIdIsTidy(n: nat)
    ensures Tidy(GeneratedId(n)) && Tidy(PhysicalIdOf(GeneratedId(n)))
  {
    PrefixesAreTidy();
    hide Tidy, Print;
    DigitsAreTidy(n);
    PrefixedIsTidy("c", Print(n));
    PrefixedIsTidy("physical:", GeneratedId(n));
  }

  lemma GeneratedIdIsSafe(n: nat)
    ensures |GeneratedId(n)| == 1 + |Print(n)| && |PhysicalIdOf(GeneratedId(n))| == 10 + |Print(n)|
    ensures GeneratedId(n)[0] == 'c' && IsDigit(GeneratedId(n)[1])
  {
    assert GeneratedId(n)[1] == Print(n)[0];
  }

  lemma NoDigitIsForbidden(id: string)
    requires |id| > 1 && IsDigit(id[1])
    ensures !Forbidden(id)
  {
  }

  lemma GeneratedIdIsClean(n: nat)
    requires n <= MAX_SAFE_INTEGER
    ensures Settled(GeneratedId(n), 128) && Settled(PhysicalIdOf(GeneratedId(n)), 128) && !Forbidden(GeneratedId(n))
    ensures |GeneratedId(n)| <= 17 && GeneratedId(n)[0] == 'c'
  {
    hide Tidy, Print, Forbidden, GeneratedId, PhysicalIdOf;
    SafeNumbersAreShort(n);
    GeneratedIdIsTidy(n);
    GeneratedIdIsSafe(n);
    NoDigitIsForbidden(GeneratedId(n));
  }

  /** The control a specification becomes under the number `n`. */
  function Built(s: Spec, n: nat): Control {
    Cleaned(RawControl(s, n))
  }

  function BuildAll(specs: seq<Spec>, first: nat): seq<Control> {
    seq(|specs|, i requires 0 <= i < |specs| => Built(specs[i], first + i))
  }

  lemma BuildAllSpec(specs: seq<Spec>, first: nat)
    ensures |BuildAll(specs, first)| == |specs|
    ensures forall i | 0 <= i < |specs| :: BuildAll(specs, first)[i] == Built(specs[i], first + i)
  {
    hide Built;
  }

  lemma BuildAllAppend(specs: seq<Spec>, more: seq<Spec>, first: nat)
    ensures BuildAll(specs + more, first) == BuildAll(specs, first) + BuildAll(more, first + |specs|)
  {
    hide Built;
  }

  // ----- the fixed templates

  const EIGHT: seq<string> := ["B1", "B2", "B3", "B4", "B5", "B6", "B7", "B8"]

  function ArcadeStickSpec(i: nat): Spec
    requires i < 11
  {
    if i == 0 then Plainly(Joystick, "Player stick", 110000.0, 230000.0, None)
    else if i == 9 then Plainly(Button24, "Coin", 405000.0, 565000.0, None)
    else if i == 10 then Plainly(Button24, "Start", 492000.0, 565000.0, None)
    else
      Plainly(Button30, EIGHT[i - 1], (565000 + (i - 1) % 4 * 112000) as real,
              (190000 + (i - 1) / 4 * 104000 + (i - 1) % 4 * 8000) as real, None)
  }

  function ArcadeStickSpecs(): (r: seq<Spec>)
    ensures |r| == 11 && forall i | 0 <= i < 11 :: r[i] == ArcadeStickSpec(i)
  {
    seq(11, i requires 0 <= i < 11 => ArcadeStickSpec(i))
  }

  const DIRECTIONS: seq<(string, real, real)> :=
    [("Left", 105000.0, 330000.0), ("Down", 200000.0, 350000.0), ("Right", 295000.0, 330000.0), ("Up", 235000.0, 470000.0)]

  function LeverlessSpec(i: nat): Spec
    requires i < 14
  {
    if i < 4 then Plainly(Button30, DIRECTIONS[i].0, DIRECTIONS[i].1, DIRECTIONS[i].2, None)
    else if i == 12 then Plainly(Button24, "Select", 448000.0, 580000.0, None)
    else if i == 13 then Plainly(Button24, "Start", 530000.0, 580000.0, None)
    else
      Plainly(Button30, EIGHT[i - 4], (570000 + (i - 4) % 4 * 110000) as real,
              (250000 + (i - 4) / 4 * 102000 + (i - 4) % 4 * 7000) as real, None)
  }

  function LeverlessSpecs(): (r: seq<Spec>)
    ensures |r| == 14 && forall i | 0 <= i < 14 :: r[i] == LeverlessSpec(i)
  {
    seq(14, i requires 0 <= i < 14 => LeverlessSpec(i))
  }

  function PanelSpec(slot: int, i: nat): Spec
    requires 1 <= slot <= 4 && i < 9
  {
    var p := "P" + Print(slot);
    var originX, originY := 26000 + (slot - 1) % 2 * 590000, 28000 + (slot - 1) / 2 * 342000;
    if i == 0 then Plainly(Joystick, p + " stick", (originX + 34000) as real, (originY + 72000) as real, Some(slot))
    else if i == 7 then Plainly(Button24, p + " Start", (originX + 246000) as real, (originY + 254000) as real, Some(slot))
    else if i == 8 then Plainly(Button24, p + " Coin", (originX + 318000) as real, (originY + 254000) as real, Some(slot))
    else
      Plainly(Button30, p + " B" + Print(i), (originX + 292000 + (i - 1) % 3 * 82000) as real,
              (originY + 74000 + (i - 1) / 3 * 82000 + (i - 1) % 3 * 5000) as real, Some(slot))
  }

  function PanelSpecs(slot: int): (r: seq<Spec>)
    requires 1 <= slot <= 4
    ensures |r| == 9 && forall i | 0 <= i < 9 :: r[i] == PanelSpec(slot, i)
  {
    seq(9, i requires 0 <= i < 9 => PanelSpec(slot, i))
  }

  function FourPlayerSpecs(): (r: seq<Spec>)
    ensures |r| == 36
  {
    PanelSpecs(1) + PanelSpecs(2) + PanelSpecs(3) + PanelSpecs(4)
  }

  // ----- the mapping templates

  datatype Record = Record(key: string, slot: int, functionName: string, controlCaption: string)

  /** A generated control stands for one key of one player. */
  datatype Place = Place(slot: int, key: string)

  predicate EligibleRecord(r: Record, selectedSlot: int, four: bool) {
    if four then 1 <= r.slot <= 4 else r.slot == selectedSlot
  }

  function Places(records: seq<Record>, selectedSlot: int, four: bool): seq<Place> {
    if records == [] then []
    else
      var front, last := Places(records[..|records| - 1], selectedSlot, four), records[|records| - 1];
      if EligibleRecord(last, selectedSlot, four) then front + [Place(last.slot, last.key)] else front
  }

  /** How many controls the template would generate. */
  function GeneratedCount(records: seq<Record>, selectedSlot: int, four: bool): nat {
    |set p | p in Places(records, selectedSlot, four)|
  }

  function PlaceOrder(collate: Collation): (Place, Place) -> bool {
    (a: Place, b: Place) => a.slot < b.slot || (a.slot == b.slot && collate(a.key, b.key))
  }

  /** The distinct places, by player and then by key. */
  function Groups(records: seq<Record>, selectedSlot: int, four: bool, collate: Collation): seq<Place> {
    SortBy(Distinct(Places(records, selectedSlot, four)), PlaceOrder(collate))
  }

  function Appearances(groups: seq<Place>, key: string): nat {
    if groups == [] then 0
    else Appearances(groups[..|groups| - 1], key) + (if groups[|groups| - 1].key == key then 1 else 0)
  }

  function OfSlot(groups: seq<Place>, slot: int): (r: seq<Place>)
    ensures forall p | p in r :: p.slot == slot
  {
    if groups == [] then []
    else
      var front, last := OfSlot(groups[..|groups| - 1], slot), groups[|groups| - 1];
      if last.slot == slot then front + [last] else front
  }

  predicate IsOfPlace(r: Record, place: Place) {
    r.slot == place.slot && r.key == place.key
  }

  /** The records of one place, in order. */
  function GroupOf(records: seq<Record>, place: Place): seq<Record> {
    if records == [] then []
    else
      var front, last := GroupOf(records[..|records| - 1], place), records[|records| - 1];
      if IsOfPlace(last, place) then front + [last] else front
  }

  function NamesOf(group: seq<Record>): (r: seq<string>)
    ensures |r| == |group| && forall i | 0 <= i < |r| :: r[i] == OrElse(group[i].controlCaption, group[i].functionName)
  {
    seq(|group|, i requires 0 <= i < |group| => OrElse(group[i].controlCaption, group[i].functionName))
  }

  function GroupCaption(records: seq<Record>, place: Place): string {
    OrElse(Join(Distinct(NamesOf(GroupOf(records, place))), " \U{00B7} "), place.key)
  }

  function MappingSpec(records: seq<Record>, groups: seq<Place>, place: Place, four: bool, device: string,
                       index: nat, count: nat): Spec
    requires index < count && (four ==> 1 <= place.slot <= 4)
  {
    var kind := if four then PlayerGrid.GridKind(count) else Button30;
    var x := if four then PlayerGrid.Cell(count, place.slot, index).x else (70000 + index % 8 * 128000) as real;
    var y := if four then PlayerGrid.Cell(count, place.slot, index).y else (145000 + index / 8 * 112000) as real;
    Spec(kind, GroupCaption(records, place), x, y, if four then Some(place.slot) else None, FromMapping, None,
         if Appearances(groups, place.key) > 1 then Unresolved else Confirmed,
         SizeOf(kind).0, SizeOf(kind).1, place.key, device)
  }

  function SlotSpecs(records: seq<Record>, groups: seq<Place>, slot: int, four: bool, device: string): (r: seq<Spec>)
    requires four ==> 1 <= slot <= 4
    ensures |r| == |OfSlot(groups, slot)|
  {
    var own := OfSlot(groups, slot);
    seq(|own|, i requires 0 <= i < |own| => MappingSpec(records, groups, own[i], four, device, i, |own|))
  }

  function MappingSpecs(records: seq<Record>, groups: seq<Place>, selectedSlot: int, four: bool, device: string): seq<Spec> {
    if four then
      SlotSpecs(records, groups, 1, true, device) + SlotSpecs(records, groups, 2, true, device)
      + SlotSpecs(records, groups, 3, true, device) + SlotSpecs(records, groups, 4, true, device)
    else SlotSpecs(records, groups, selectedSlot, false, device)
  }

  function TemplateSpecs(template: StartTemplate, records: seq<Record>, selectedSlot: int, device: string,
                         collate: Collation): seq<Spec> {
    match template
    case Blank => []
    case ArcadeStick => ArcadeStickSpecs()
    case LeverlessPanel => LeverlessSpecs()
    case FourPlayer => FourPlayerSpecs()
    case MappingSelected => MappingSpecs(records, Groups(records, selectedSlot, false, collate), selectedSlot, false, device)
    case MappingFour => MappingSpecs(records, Groups(records, selectedSlot, true, collate), selectedSlot, true, device)
  }

  predicate Refused(template: StartTemplate, records: seq<Record>, selectedSlot: int) {
    || (template.MappingSelected? && GeneratedCount(records, selectedSlot, false) > MAX_CONTROLS)
    || (template.MappingFour? && GeneratedCount(records, selectedSlot, true) > MAX_CONTROLS)
  }

  lemma {:induction false} SlotsPartition(groups: seq<Place>)
    ensures |OfSlot(groups, 1)| + |OfSlot(groups, 2)| + |OfSlot(groups, 3)| + |OfSlot(groups, 4)| <= |groups|
    ensures (forall p | p in groups :: 1 <= p.slot <= 4) ==>
              |OfSlot(groups, 1)| + |OfSlot(groups, 2)| + |OfSlot(groups, 3)| + |OfSlot(groups, 4)| == |groups|
  {
    if groups != [] {
      SlotsPartition(groups[..|groups| - 1]);
    }
  }

  lemma {:induction false} WholeSlot(groups: seq<Place>, slot: int)
    requires forall p | p in groups :: p.slot == slot
    ensures OfSlot(groups, slot) == groups
  {
    if groups != [] {
      WholeSlot(groups[..|groups| - 1], slot);
      assert groups == groups[..|groups| - 1] + [groups[|groups| - 1]];
    }
  }

  predicate IsPlaceOf(p: Place, records: seq<Record>, selectedSlot: int, four: bool) {
    exists r | r in records :: EligibleRecord(r, selectedSlot, four) && p == Place(r.slot, r.key)
  }

  lemma {:induction false} PlacesSpec(records: seq<Record>, selectedSlot: int, four: bool)
    ensures forall p | p in Places(records, selectedSlot, four) :: if four then 1 <= p.slot <= 4 else p.slot == selectedSlot
    ensures forall p :: (p in Places(records, selectedSlot, four) <==> IsPlaceOf(p, records, selectedSlot, four))
  {
    if records != [] {
      PlacesSpec(records[..|records| - 1], selectedSlot, four);
      assert records == records[..|records| - 1] + [records[|records| - 1]];
    }
  }

  /** One group for each distinct (player, key): the count the guard computes. */
  lemma GroupsCount(records: seq<Record>, selectedSlot: int, four: bool, collate: Collation)
    ensures |Groups(records, selectedSlot, four, collate)| == GeneratedCount(records, selectedSlot, four)
  {
    var places := Places(records, selectedSlot, four);
    var distinct := Distinct(places);
    DistinctCount(distinct);
    assert (set p | p in distinct) == (set p | p in places);
    var groups := Groups(records, selectedSlot, four, collate);
    assert |multiset(groups)| == |multiset(distinct)|;
  }

  lemma MappingSpecsCount(records: seq<Record>, selectedSlot: int, four: bool, device: string, collate: Collation)
    ensures |MappingSpecs(records, Groups(records, selectedSlot, four, collate), selectedSlot, four, device)|
         == GeneratedCount(records, selectedSlot, four)
  {
    var groups := Groups(records, selectedSlot, four, collate);
    GroupsCount(records, selectedSlot, four, collate);
    PlacesSpec(records, selectedSlot, four);
    assert forall p | p in groups :: p in Places(records, selectedSlot, four);
    hide Groups, GeneratedCount, Places;
    if four {
      SlotsPartition(groups);
    } else {
      WholeSlot(groups, selectedSlot);
    }
  }

  lemma SpecsFit(template: StartTemplate, records: seq<Record>, selectedSlot: int, device: string, collate: Collation)
    requires !Refused(template, records, selectedSlot)
    ensures |TemplateSpecs(template, records, selectedSlot, device, collate)| <= MAX_CONTROLS
  {
    MappingSpecsCount(records, selectedSlot, false, device, collate);
    MappingSpecsCount(records, selectedSlot, true, device, collate);
    hide MappingSpecs, Groups, GeneratedCount;
  }

  /** Put freshly built controls in place of the document's, and start on the first. */
  function Started(d: Document, template: Template, layout: PanelLayout, stage: Stage, controls: seq<Control>): Document {
    Document(true, template, layout, stage, controls, if controls == [] then "" else controls[0].id,
             if controls == [] then "" else FirstChannelId(controls[0]), |controls| + 1)
  }

  function TemplateLayout(template: StartTemplate): PanelLayout {
    if template.FourPlayer? || template.MappingFour? then FourPanels else SinglePanel
  }

  function TemplateStage(template: StartTemplate): Stage {
    if template.MappingSelected? || template.MappingFour? then Route else Design
  }

  function ApplyTemplate(d: Document, template: StartTemplate, records: seq<Record>, selectedSlot: int, device: string,
                         collate: Collation): Document {
    if Refused(template, records, selectedSlot) then Sanitize(d)
    else
      var controls := BuildAll(TemplateSpecs(template, records, selectedSlot, device, collate), 1);
      Sanitize(Started(d, Start(template), TemplateLayout(template), TemplateStage(template), controls))
  }

  // ----- the edits

  function MaxReal(a: real, b: real): real {
    if a >= b then a else b
  }

  function CountOfSlot(controls: seq<Control>, slot: int): nat {
    if controls == [] then 0
    else CountOfSlot(controls[..|controls| - 1], slot)
         + (if controls[|controls| - 1].playerSlot == Some(slot) then 1 else 0)
  }

  function AddedSpec(controls: seq<Control>, kind: Kind, slot: Option<int>): Spec {
    var owned := CleanSlot(slot);
    var index := if owned.None? then |controls| else CountOfSlot(controls, owned.value);
    var quadrantX := if owned.Some? && owned.value % 2 == 0 then 600000 else 0;
    var quadrantY := if owned.Some? && owned.value > 2 then 360000 else 0;
    var cellWidth, cellHeight := if owned.None? then 112000 else 108000, if owned.None? then 112000 else 104000;
    var columns := if owned.None? then 8 else 5;
    var originX, originY := if owned.None? then 72000 else quadrantX + 24000, if owned.None? then 96000 else quadrantY + 22000;
    var size := SizeOf(kind);
    Spec(kind, DefaultLabel(kind),
         (originX + index % columns * cellWidth) as real + MaxReal(0.0, (cellWidth as real - size.0) / 2.0),
         (originY + index / columns % 3 * cellHeight) as real + MaxReal(0.0, (cellHeight as real - size.1) / 2.0),
         slot, ByHand, None, Confirmed, size.0, size.1, "", "")
  }

  function Add(d: Document, kind: Kind, slot: Option<int>): Document {
    var safe := Sanitize(d);
    if |safe.controls| >= MAX_CONTROLS then safe
    else
      var control := Built(AddedSpec(safe.controls, kind, slot), safe.nextId);
      Sanitize(safe.(started := true, template := Custom, stage := Design, controls := safe.controls + [control],
                     selectedControl := control.id, selectedChannel := FirstChannelId(control), nextId := safe.nextId + 1))
  }

  function Select(d: Document, id: string, channel: string): Document {
    var safe := Sanitize(d);
    match FindControl(safe.controls, id)
    case None => safe.(selectedControl := "", selectedChannel := "")
    case Some(control) =>
      safe.(selectedControl := control.id,
            selectedChannel := if HasChannel(control.channels, channel) then channel else FirstChannelId(control))
  }

  /** An edit makes a document custom, but a migration stays a migration. */
  function Edited(template: Template): Template {
    if template.WorkbenchMigration? then template else Custom
  }

  function Each(controls: seq<Control>, f: Control -> Control): (r: seq<Control>)
    ensures |r| == |controls| && forall i | 0 <= i < |r| :: r[i] == f(controls[i])
  {
    seq(|controls|, i requires 0 <= i < |controls| => f(controls[i]))
  }

  function Renamed(c: Control, id: string, caption: string): Control {
    if c.id == id then c.(caption := caption) else c
  }

  function Rename(d: Document, id: string, caption: string): Document {
    var safe, cleaned := Sanitize(d), CleanString(caption, 64);
    if cleaned == "" || !HasControl(safe.controls, id) then safe
    else
      Sanitize(safe.(template := Edited(safe.template),
                     controls := Each(safe.controls, c => Renamed(c, id, cleaned))))
  }

  function Reassigned(c: Control, id: string, slot: Option<int>): Control {
    if c.id == id then c.(playerSlot := CleanSlot(slot)) else c
  }

  function SetSlot(d: Document, id: string, slot: Option<int>): Document {
    var safe := Sanitize(d);
    if !HasControl(safe.controls, id) then safe
    else
      Sanitize(safe.(template := Edited(safe.template),
                     controls := Each(safe.controls, c => Reassigned(c, id, slot))))
  }

  function SetLayout(d: Document, layout: PanelLayout): Document {
    Sanitize(d).(template := Custom, panelLayout := layout)
  }

  function SetStage(d: Document, stage: Stage): Document {
    Sanitize(d).(stage := stage)
  }

  function MovedFrame(f: Frame, x: real, y: real): Frame {
    Frame(RoundReal(Clamp(x, 0.0, BOARD_WIDTH - f.width)), RoundReal(Clamp(y, 0.0, BOARD_HEIGHT - f.height)),
          f.width, f.height)
  }

  function Moved(c: Control, id: string, x: real, y: real): Control {
    if c.id == id then c.(frame := MovedFrame(c.frame, x, y)) else c
  }

  function Move(d: Document, id: string, x: real, y: real): Document {
    var safe := Sanitize(d);
    safe.(template := Edited(safe.template),
          controls := Each(safe.controls, c => Moved(c, id, x, y)))
  }

  function Without(controls: seq<Control>, id: string): (r: seq<Control>)
    ensures forall c :: c in r <==> c in controls && c.id != id
    ensures |r| <= |controls|
  {
    if controls == [] then []
    else
      var front, last := Without(controls[..|controls| - 1], id), controls[|controls| - 1];
      assert controls == controls[..|controls| - 1] + [last];
      if last.id == id then front else front + [last]
  }

  function Remove(d: Document, id: string): Document {
    var safe := Sanitize(d);
    var left := Without(safe.controls, id);
    Sanitize(safe.(template := Custom, controls := left, selectedControl := if left == [] then "" else left[0].id,
                   selectedChannel := if left == [] then "" else FirstChannelId(left[0])))
  }

  datatype Mode = Duplicate | Mirror

  function CopyOf(source: Control, mode: Mode, n: nat): Control {
    source.(id := GeneratedId(n),
            physicalId := if mode.Mirror? then source.physicalId else PhysicalIdOf(GeneratedId(n)),
            resolution := Confirmed, origin := ByHand,
            frame := Frame(Clamp(source.frame.x + 28000.0, 0.0, BOARD_WIDTH - source.frame.width),
                           Clamp(source.frame.y + 28000.0, 0.0, BOARD_HEIGHT - source.frame.height),
                           source.frame.width, source.frame.height))
  }

  /** Mirroring a control answers the question for every view of its switch. */
  function Answered(c: Control, source: Control, mode: Mode): Control {
    if mode.Mirror? && c.physicalId == source.physicalId then c.(resolution := Confirmed) else c
  }

  function Copy(d: Document, id: string, mode: Mode): Document {
    var safe := Sanitize(d);
    var found := FindControl(safe.controls, id);
    if found.None? || found.value.resolution.Unresolved? || |safe.controls| >= MAX_CONTROLS then safe
    else
      var source, control := found.value, CopyOf(found.value, mode, safe.nextId);
      Sanitize(safe.(template := Custom,
                     controls := Each(safe.controls, c => Answered(c, source, mode)) + [control],
                     selectedControl := control.id, selectedChannel := FirstChannelId(control),
                     nextId := safe.nextId + 1))
  }

  predicate Carries(c: Control, key: string) {
    exists i | 0 <= i < |c.channels| :: c.channels[i].input.Keyboard? && c.channels[i].input.key == key
  }

  predicate Flagged(c: Control, key: string) {
    c.resolution.Unresolved? && Carries(c, key)
  }

  function CountFlagged(controls: seq<Control>, key: string): nat {
    if controls == [] then 0
    else CountFlagged(controls[..|controls| - 1], key) + (if Flagged(controls[|controls| - 1], key) then 1 else 0)
  }

  /** The chosen channel, or else the first. */
  function ChosenChannel(c: Control, channel: string): Option<Channel> {
    match FindChannel(c.channels, channel)
    case Some(found) => Some(found)
    case None => if c.channels == [] then None else Some(c.channels[0])
  }

  function ClaimLike(c: Channel, chosen: Channel, key: string): Channel {
    if c.input.Keyboard? && c.input.key == key then WithChannelInput(c, chosen.input, chosen.deviceUnverified) else c
  }

  function EachChannel(channels: seq<Channel>, f: Channel -> Channel): (r: seq<Channel>)
    ensures |r| == |channels| && forall i | 0 <= i < |r| :: r[i] == f(channels[i])
  {
    seq(|channels|, i requires 0 <= i < |channels| => f(channels[i]))
  }

  function ResolvedControl(c: Control, selected: Control, chosen: Channel, key: string, mode: Mode): Control {
    if !Flagged(c, key) then c
    else if mode.Mirror? then
      c.(physicalId := selected.physicalId, resolution := Confirmed,
         channels := EachChannel(c.channels, ch => ClaimLike(ch, chosen, key)))
    else c.(physicalId := PhysicalIdOf(c.id), resolution := Confirmed)
  }

  function Resolve(d: Document, id: string, channel: string, mode: Mode): Document {
    var safe := Sanitize(d);
    match FindControl(safe.controls, id)
    case None => safe
    case Some(selected) =>
      match ChosenChannel(selected, channel)
      case None => safe
      case Some(chosen) =>
        if chosen.input.Unassigned? || CountFlagged(safe.controls, chosen.input.key) < 2 then safe
        else
          Sanitize(safe.(template := Custom,
                         controls := Each(safe.controls, c => ResolvedControl(c, selected, chosen, chosen.input.key, mode))))
  }

  function TaughtChannel(c: Channel, channel: string, key: string, device: string): Channel {
    if c.id == channel then WithChannelInput(c, Keyboard(key, device), false) else c
  }

  function Taught(c: Control, physicalId: string, channel: string, key: string, device: string): Control {
    if c.physicalId == physicalId
    then c.(channels := EachChannel(c.channels, ch => TaughtChannel(ch, channel, key, device))) else c
  }

  function Teach(d: Document, id: string, channel: string, key: string, device: string): Document {
    var safe, cleanKey, cleanDevice := Sanitize(d), CleanString(key, 96), CleanString(device, 240);
    if cleanKey == "" then safe
    else
      match FindControl(safe.controls, id)
      case None => safe
      case Some(selected) =>
        if !HasChannel(selected.channels, channel) then safe
        else
          Sanitize(safe.(controls := Each(safe.controls, c => Taught(c, selected.physicalId, channel, cleanKey, cleanDevice)),
                         selectedControl := id, selectedChannel := channel))
  }

  datatype DeviceKind = KeyboardDevice | PanelEncoder | UnknownDevice

  /** The device-authority rule for one channel. */
  function Swept(c: Channel, kindOf: string -> DeviceKind): Channel {
    if c.input.Unassigned? || c.input.device == "" then c
    else
      match kindOf(c.input.device)
      case PanelEncoder =>
        if c.encoder.Some? then c.(encoder := Some(c.encoder.value.(verification := Unverified)), deviceUnverified := false)
        else c.(input := Unassigned, deviceUnverified := false)
      case UnknownDevice => c.(deviceUnverified := true)
      case KeyboardDevice => c.(deviceUnverified := false)
  }

  function SweptControl(c: Control, kindOf: string -> DeviceKind): Control {
    c.(channels := EachChannel(c.channels, ch => Swept(ch, kindOf)))
  }

  function Retire(d: Document, kindOf: string -> DeviceKind): Document {
    var safe := Sanitize(d);
    Sanitize(safe.(controls := Each(safe.controls, c => SweptControl(c, kindOf))))
  }

  // ----- the Workbench migration

  /** A key of the Workbench as it was placed. */
  datatype Placed = Placed(key: string, cap: string, controlCaption: string, playerSlot: Option<int>, frame: Frame)

  function MigratedSpec(p: Placed, arcade: bool, device: string): Spec {
    Spec(if arcade then Button30 else KeycapKind, OrElse(p.controlCaption, OrElse(p.cap, p.key)), p.frame.x, p.frame.y,
         p.playerSlot, FromWorkbench, Some("key:" + p.key), Confirmed, p.frame.width, p.frame.height, p.key, device)
  }

  function MigratedSpecs(placed: seq<Placed>, arcade: bool, device: string): (r: seq<Spec>)
    ensures |r| == |placed| && forall i | 0 <= i < |r| :: r[i] == MigratedSpec(placed[i], arcade, device)
  {
    seq(|placed|, i requires 0 <= i < |placed| => MigratedSpec(placed[i], arcade, device))
  }

  function Slots(controls: seq<Control>): set<int> {
    set i | 0 <= i < |controls| && controls[i].playerSlot.Some? :: controls[i].playerSlot.value
  }

  function Migrate(d: Document, placed: seq<Placed>, arcade: bool, device: string): Document {
    if d.started || placed == [] || |placed| > MAX_CONTROLS then Sanitize(d)
    else
      var controls := BuildAll(MigratedSpecs(placed, arcade, device), 1);
      Sanitize(Started(d, WorkbenchMigration, if |Slots(controls)| > 1 then FourPanels else SinglePanel, Route, controls))
  }
}
