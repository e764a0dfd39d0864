/** What every edit of a document of a run returns, field by field: selecting,
    setting its looks, moving, reassigning, renaming, removing, adding, copying,
    resolving and teaching. */
module SurfaceLaws {
  import opened Options
  import opened Strings
  import opened SurfaceText
  import opened Surface
  import opened SurfaceEdits
  import opened SurfaceFrames
  import opened SurfaceStable
  import opened SurfaceInvariant
  import opened SurfaceBuilt
  import opened SurfaceStarts
  import opened SurfaceRuns

  // ----- what the last sanitizing does

  lemma SelectionIsKept(x: Document, cs: seq<Control>)
    requires KeepControls(x.controls, []) == cs && Body(cs, x.nextId) && SelectionHolds(cs, x.selectedControl, x.selectedChannel)
    ensures Sanitize(x).selectedControl == x.selectedControl && Sanitize(x).selectedChannel == x.selectedChannel
  {
    hide CleanString, KeepControls, Highest, Reconcile, HasChannel, FirstChannelId, MaxInt, MinInt, Member, PairsHold, Kept;
    var found := FindControl(cs, x.selectedControl);
    if found.Some? {
      var i := FoundIsOne(cs, x.selectedControl);
      MemberAt(cs, x.nextId, i);
      MemberIsKept(cs[i], x.nextId);
      KeptIsNamed(cs[i]);
      SelectedChannelIsOne(cs[i], x.selectedChannel);
    } else {
      NothingIsSettled();
    }
  }

  lemma SelectedChannelIsOne(c: Control, channel: string)
    requires HasChannel(c.channels, channel) && forall ch | ch in c.channels :: CleanString(ch.id, 32) == ch.id
    ensures CleanString(channel, 32) == channel
  {
    hide CleanString;
    var i :| 0 <= i < |c.channels| && c.channels[i].id == channel;
    assert c.channels[i] in c.channels;
  }

  /** Sanitizing controls that clean to a sound body, with a sound selection,
      cleans and reconciles them and changes nothing else. */
  lemma SanitizedIs(x: Document)
    requires 1 <= x.nextId <= MAX_SAFE_INTEGER && AllNamed(x.controls) && Body(AllCleaned(x.controls), x.nextId)
    requires SelectionHolds(AllCleaned(x.controls), x.selectedControl, x.selectedChannel)
    ensures Sanitize(x) == x.(controls := Reconcile(AllCleaned(x.controls)))
  {
    hide Sanitize, Body, Reconcile, AllNamed, AllCleaned, SelectionHolds, KeepControls;
    SanitizeBody(x);
    NamedAreCleaned(x.controls);
    SelectionIsKept(x, AllCleaned(x.controls));
  }

  lemma CleanSanitizedIs(x: Document)
    requires 1 <= x.nextId <= MAX_SAFE_INTEGER && Body(x.controls, x.nextId)
    requires SelectionHolds(x.controls, x.selectedControl, x.selectedChannel)
    ensures Sanitize(x) == x.(controls := Reconcile(x.controls))
  {
    hide Sanitize, Body, Reconcile, AllNamed, AllCleaned, SelectionHolds;
    BodyIsStable(x.controls, x.nextId);
    SanitizedIs(x);
  }

  // ----- selecting and looks

  /** Selecting a control selects the channel asked for, or else its first. */
  lemma SelectLaw(d: Document, k: nat, channel: string)
    requires Inv(d) && k < |d.controls|
    ensures var c, r := d.controls[k], Select(d, d.controls[k].id, channel);
      && c.channels != []
      && r == d.(selectedControl := c.id,
                 selectedChannel := if exists m | 0 <= m < |c.channels| :: c.channels[m].id == channel then channel else c.channels[0].id)
  {
    hide Inv, Body, Sanitize;
    InvParts(d);
    BodyIsDistinct(d.controls, d.nextId);
    FindOnly(d.controls, k);
    MembersAreNamed(d.controls, d.nextId);
  }

  predicate Unknown(d: Document, id: string) {
    forall k | 0 <= k < |d.controls| :: d.controls[k].id != id
  }

  lemma UnknownIsNotFound(d: Document, id: string)
    requires Unknown(d, id)
    ensures FindControl(d.controls, id) == None && !HasControl(d.controls, id)
  {
  }

  lemma SelectUnknownLaw(d: Document, id: string, channel: string)
    requires Inv(d) && Unknown(d, id)
    ensures Select(d, id, channel) == d.(selectedControl := "", selectedChannel := "")
  {
    hide Inv, Sanitize;
    InvParts(d);
    UnknownIsNotFound(d, id);
  }

  lemma LooksLaw(d: Document, layout: PanelLayout, stage: Stage)
    requires Inv(d)
    ensures SetLayout(d, layout) == d.(template := Custom, panelLayout := layout) && SetStage(d, stage) == d.(stage := stage)
  {
    hide Inv, Sanitize;
    InvParts(d);
  }

  // ----- one control: position, player, caption

  /** The whole number nearest to a value within bounds, halves going up. */
  predicate Lands(value: real, bound: real, r: real) {
    && r.Floor as real == r && 0.0 <= r <= bound
    && (value <= 0.0 ==> r == 0.0) && (value >= bound ==> r == bound)
    && (0.0 <= value <= bound ==> value - 0.5 < r <= value + 0.5)
  }

  lemma RoundedLands(value: real, bound: real)
    requires bound >= 0.0 && WholeNumber(bound)
    ensures Lands(value, bound, RoundReal(Clamp(value, 0.0, bound)))
  {
    RoundedClamp(value, bound);
    RoundWhole(bound);
    RoundSpec(Clamp(value, 0.0, bound));
    hide RoundReal;
    RoundWhole(0.0);
  }

  lemma MovedFrameLands(f: Frame, x: real, y: real)
    requires SettledFrame(f)
    ensures var r := MovedFrame(f, x, y);
      && Lands(x, 1200000.0 - f.width, r.x) && Lands(y, 720000.0 - f.height, r.y) && r.width == f.width && r.height == f.height
  {
    hide RoundReal, Clamp, WholeNumber, Lands;
    WholeBounds();
    WholeDifference(BOARD_WIDTH, f.width);
    WholeDifference(BOARD_HEIGHT, f.height);
    RoundedLands(x, BOARD_WIDTH - f.width);
    RoundedLands(y, BOARD_HEIGHT - f.height);
  }

  /** An edit makes a document custom, unless it came from the Workbench. */
  predicate BecomesCustom(before: Template, after: Template) {
    after == if before == WorkbenchMigration then WorkbenchMigration else Custom
  }

  /** Moving puts the control on the whole thousandth nearest to the wish that
      keeps it on the board. */
  lemma MoveLaw(d: Document, k: nat, x: real, y: real)
    requires Inv(d) && k < |d.controls|
    ensures var c, r := d.controls[k], Move(d, d.controls[k].id, x, y);
      && |r.controls| == |d.controls| && BecomesCustom(d.template, r.template)
      && r == d.(template := r.template, controls := d.controls[k := c.(frame := r.controls[k].frame)])
      && r.controls[k].frame.width == c.frame.width && r.controls[k].frame.height == c.frame.height
      && Lands(x, 1200000.0 - c.frame.width, r.controls[k].frame.x) && Lands(y, 720000.0 - c.frame.height, r.controls[k].frame.y)
  {
    hide Inv, Body, Sanitize, MovedFrame, Lands, Member, SettledFrame;
    InvParts(d);
    BodyIsDistinct(d.controls, d.nextId);
    MemberAt(d.controls, d.nextId, k);
    KeptCaption(d.controls[k], d.nextId);
    MovedFrameLands(d.controls[k].frame, x, y);
    var r := Move(d, d.controls[k].id, x, y);
    forall i | 0 <= i < |d.controls| && i != k ensures r.controls[i] == d.controls[i] {
      IdsDiffer(d.controls, i, k);
    }
    assert r.controls == d.controls[k := r.controls[k]];
  }

  lemma IdsDiffer(controls: seq<Control>, i: nat, k: nat)
    requires DistinctIds(controls) && i < |controls| && k < |controls| && i != k
    ensures controls[i].id != controls[k].id
  {
  }

  /** Reassigning changes the control's player, to none when the number is not 1 to 4. */
  lemma SetSlotLaw(d: Document, k: nat, slot: Option<int>)
    requires Inv(d) && k < |d.controls|
    ensures var c, r := d.controls[k], SetSlot(d, d.controls[k].id, slot);
      && BecomesCustom(d.template, r.template)
      && r == d.(template := r.template,
                 controls := d.controls[k := c.(playerSlot := if slot.Some? && slot.value in {1, 2, 3, 4} then slot else None)])
  {
    hide Inv, Body, Sanitize, Member, Reconcile, SelectionHolds, Reassigned;
    InvParts(d);
    BodyIsDistinct(d.controls, d.nextId);
    var id := d.controls[k].id;
    var controls := Each(d.controls, c => Reassigned(c, id, slot));
    forall i | 0 <= i < |controls|
      ensures Member(controls[i], d.nextId) && SameRole(d.controls[i], controls[i])
      ensures controls[i] == if i == k then Reassigned(d.controls[k], id, slot) else d.controls[i]
    {
      MemberAt(d.controls, d.nextId, i);
      ReassignedIsMember(d.controls[i], id, slot, d.nextId);
      if i != k {
        IdsDiffer(d.controls, i, k);
      }
      ReassignedIs(d.controls[i], id, slot);
    }
    assert controls == d.controls[k := Reassigned(d.controls[k], id, slot)];
    SameRolesKeepBody(d.controls, controls, d.nextId);
    SameRolesReconcile(d.controls, controls);
    SameRolesFind(d.controls, controls, d.selectedControl, d.selectedChannel);
    ReassignedIs(d.controls[k], id, slot);
    CleanSanitizedIs(d.(template := Edited(d.template), controls := controls));
    assert HasControl(d.controls, id);
  }

  lemma ReassignedIs(c: Control, id: string, slot: Option<int>)
    ensures Reassigned(c, id, slot)
         == if c.id == id then c.(playerSlot := if slot.Some? && slot.value in {1, 2, 3, 4} then slot else None) else c
  {
  }

  /** Renaming changes the control's caption, to text cleaned twice; a blank
      caption changes nothing. */
  lemma RenameLaw(d: Document, k: nat, caption: string)
    requires Inv(d) && k < |d.controls|
    ensures var c, r := d.controls[k], Rename(d, d.controls[k].id, caption);
      if CleanString(caption, 64) == "" then r == d
      else
        && BecomesCustom(d.template, r.template)
        && r == d.(template := r.template, controls := d.controls[k := c.(caption := CleanString(CleanString(caption, 64), 64))])
  {
    hide Inv, Body, Sanitize, Member, Reconcile, SelectionHolds, CleanString, Cleaned, Named, SameRole, AllNamed, AllCleaned;
    InvParts(d);
    BodyIsDistinct(d.controls, d.nextId);
    var id, once := d.controls[k].id, CleanString(caption, 64);
    assert HasControl(d.controls, id);
    if once != "" {
      var raw, controls := Each(d.controls, c => Renamed(c, id, once)), Each(d.controls, c => Renamed(c, id, CleanString(once, 64)));
      RenamedAll(d, id, caption, raw, controls);
      forall i | 0 <= i < |controls| && i != k ensures controls[i] == d.controls[i] {
        IdsDiffer(d.controls, i, k);
      }
      assert controls == d.controls[k := d.controls[k].(caption := CleanString(once, 64))];
      SameRolesKeepBody(d.controls, controls, d.nextId);
      SameRolesReconcile(d.controls, controls);
      SameRolesFind(d.controls, controls, d.selectedControl, d.selectedChannel);
      SanitizedIs(d.(template := Edited(d.template), controls := raw));
    }
  }

  lemma RenamedAll(d: Document, id: string, caption: string, raw: seq<Control>, controls: seq<Control>)
    requires Inv(d) && CleanString(caption, 64) != ""
    requires raw == Each(d.controls, c => Renamed(c, id, CleanString(caption, 64)))
    requires controls == Each(d.controls, c => Renamed(c, id, CleanString(CleanString(caption, 64), 64)))
    ensures AllNamed(raw) && AllCleaned(raw) == controls && SameRoles(d.controls, controls)
    ensures forall i | 0 <= i < |controls| :: Member(controls[i], d.nextId)
  {
    hide Inv, Body, Sanitize, Member, CleanString, Cleaned, Named, SameRole, Renamed, Reconcile, SelectionHolds;
    InvParts(d);
    BodyIsDistinct(d.controls, d.nextId);
    BodySize(d.controls, d.nextId);
    forall i | 0 <= i < |controls|
      ensures Member(controls[i], d.nextId) && SameRole(d.controls[i], controls[i])
      ensures Named(raw[i]) && raw[i].id == d.controls[i].id && Cleaned(raw[i]) == controls[i]
    {
      MemberAt(d.controls, d.nextId, i);
      RenamedIsMember(d.controls[i], id, caption, d.nextId);
    }
    assert AllCleaned(raw) == controls;
  }

  /** No control of that identity: a move still makes the document custom, and
      the other edits of one control change nothing. */
  lemma UnknownLaw(d: Document, id: string, caption: string, slot: Option<int>, x: real, y: real, mode: Mode)
    requires Inv(d) && Unknown(d, id)
    ensures Rename(d, id, caption) == d && SetSlot(d, id, slot) == d && Copy(d, id, mode) == d
    ensures var r := Move(d, id, x, y); BecomesCustom(d.template, r.template) && r == d.(template := r.template)
  {
    hide Inv, Sanitize, CleanString, Reassigned, Renamed, CopyOf, MovedFrame;
    InvParts(d);
    UnknownIsNotFound(d, id);
    assert Each(d.controls, c => Moved(c, id, x, y)) == d.controls;
  }

  // ----- removing, adding, copying

  lemma FrontIsDistinct(controls: seq<Control>)
    requires controls != [] && DistinctIds(controls)
    ensures DistinctIds(controls[..|controls| - 1])
  {
  }

  lemma LastIsAlone(controls: seq<Control>)
    requires controls != [] && DistinctIds(controls)
    ensures forall i | 0 <= i < |controls| - 1 :: controls[i].id != controls[|controls| - 1].id
  {
  }

  lemma WithoutLast(controls: seq<Control>, id: string)
    requires controls != []
    ensures var front, last := controls[..|controls| - 1], controls[|controls| - 1];
      Without(controls, id) == if last.id == id then Without(front, id) else Without(front, id) + [last]
  {
  }

  lemma {:induction false} WithoutIs(controls: seq<Control>, k: nat)
    requires DistinctIds(controls) && k < |controls|
    ensures Without(controls, controls[k].id) == controls[..k] + controls[k + 1..]
  {
    hide Without;
    var n := |controls| - 1;
    var front := controls[..n];
    WithoutLast(controls, controls[k].id);
    FrontIsDistinct(controls);
    hide DistinctIds;
    if k == n {
      LastIsAlone(controls);
      WithoutNone(front, controls[n].id);
      assert controls[n + 1..] == [];
    } else {
      IdsDiffer(controls, n, k);
      WithoutIs(front, k);
      assert controls[k + 1..] == front[k + 1..] + [controls[n]];
      assert front[..k] == controls[..k];
    }
  }

  lemma {:induction false} WithoutNone(controls: seq<Control>, id: string)
    requires forall i | 0 <= i < |controls| :: controls[i].id != id
    ensures Without(controls, id) == controls
  {
    if controls != [] {
      WithoutNone(controls[..|controls| - 1], id);
    }
  }

  lemma FirstIsSelected(controls: seq<Control>, next: int)
    requires Body(controls, next)
    ensures controls != [] ==> controls[0].channels != [] && SelectionHolds(controls, controls[0].id, controls[0].channels[0].id)
    ensures controls == [] ==> SelectionHolds(controls, "", "")
  {
    MembersAreNamed(controls, next);
    BodyIsDistinct(controls, next);
    hide Member, PairsHold;
    if controls != [] {
      FindOnly(controls, 0);
      FirstChannelIsOne(controls[0]);
    }
  }

  /** What is left after a removal: the first control is selected, and questions
      the removal answers are closed. */
  predicate LeftSelected(left: seq<Control>, r: Document) {
    if left == [] then r.selectedControl == "" && r.selectedChannel == ""
    else left[0].channels != [] && r.selectedControl == left[0].id && r.selectedChannel == left[0].channels[0].id
  }

  lemma RemovedIs(d: Document, id: string, left: seq<Control>)
    requires Inv(d) && left == Without(d.controls, id)
    ensures var r := Remove(d, id);
      r == d.(template := Custom, controls := Reconcile(left), selectedControl := r.selectedControl, selectedChannel := r.selectedChannel)
      && LeftSelected(left, r)
  {
    hide Inv, Body, Sanitize, Reconcile, SelectionHolds, Without;
    InvParts(d);
    WithoutKeepsBody(d.controls, id, d.nextId);
    FirstIsSelected(left, d.nextId);
    CleanSanitizedIs(d.(template := Custom, controls := left, selectedControl := if left == [] then "" else left[0].id,
                        selectedChannel := if left == [] then "" else FirstChannelId(left[0])));
  }

  /** Removing takes that control out, selects the first that is left, and
      closes the questions it answers. */
  lemma RemoveLaw(d: Document, k: nat)
    requires Inv(d) && k < |d.controls|
    ensures var left, r := d.controls[..k] + d.controls[k + 1..], Remove(d, d.controls[k].id);
      r == d.(template := Custom, controls := Reconcile(left), selectedControl := r.selectedControl, selectedChannel := r.selectedChannel)
      && LeftSelected(left, r)
  {
    hide Inv, Remove, Reconcile, LeftSelected, Body;
    InvParts(d);
    BodyIsDistinct(d.controls, d.nextId);
    WithoutIs(d.controls, k);
    RemovedIs(d, d.controls[k].id, d.controls[..k] + d.controls[k + 1..]);
  }

  lemma RemoveUnknownLaw(d: Document, id: string)
    requires Inv(d) && Unknown(d, id)
    ensures var r := Remove(d, id);
      r == d.(template := Custom, selectedControl := r.selectedControl, selectedChannel := r.selectedChannel) && LeftSelected(d.controls, r)
  {
    hide Inv, Remove, Reconcile, LeftSelected;
    InvParts(d);
    WithoutNone(d.controls, id);
    RemovedIs(d, id, d.controls);
  }

  /** The label, size and channels of a new control of each kind. */
  lemma KindTable(kind: Kind)
    ensures DefaultLabel(kind) == match kind
      case Button24 => "Aux"
      case Button30 => "Button"
      case Joystick => "Stick"
      case KeycapKind => "Key"
    ensures SizeOf(kind) == match kind
      case Button24 => (58000.0, 58000.0)
      case Button30 => (74000.0, 74000.0)
      case Joystick => (168000.0, 168000.0)
      case KeycapKind => (88000.0, 64000.0)
    ensures ChannelsFor(kind) == match kind
      case Joystick => [Channel("up", "Up", Unassigned, None, false), Channel("right", "Right", Unassigned, None, false),
                        Channel("down", "Down", Unassigned, None, false), Channel("left", "Left", Unassigned, None, false)]
      case _ => [Channel("press", "Press", Unassigned, None, false)]
  {
  }

  /** How many controls a player owns. */
  function Owned(controls: seq<Control>, slot: int): set<nat> {
    set i: nat | i < |controls| && controls[i].playerSlot == Some(slot)
  }

  lemma {:induction false} CountOfSlotIs(controls: seq<Control>, slot: int)
    ensures CountOfSlot(controls, slot) == |Owned(controls, slot)|
  {
    if controls != [] {
      var n := |controls| - 1;
      CountOfSlotIs(controls[..n], slot);
      assert Owned(controls, slot) == Owned(controls[..n], slot) + (if controls[n].playerSlot == Some(slot) then {n} else {});
    }
  }

  /** Where a new control goes: the next cell of the board's 8 by 3 cells, or of
      the player's 5 by 3, centred when it fits the cell. */
  lemma AddedCell(controls: seq<Control>, kind: Kind, slot: Option<int>)
    ensures var s := AddedSpec(controls, kind, slot);
      && s.kind == kind && s.caption == DefaultLabel(kind) && s.playerSlot == slot && s.origin == ByHand && s.inputKey == "" && s.device == ""
      && s.physicalId == None && s.resolution == Confirmed && (s.width, s.height) == SizeOf(kind)
    ensures slot.None? || slot.value !in {1, 2, 3, 4} ==>
      var s, n := AddedSpec(controls, kind, slot), |controls|;
      && InCell(s.x, s.width, 72000 + n % 8 * 112000, 112000) && InCell(s.y, s.height, 96000 + n / 8 % 3 * 112000, 112000)
    ensures slot.Some? && slot.value in {1, 2, 3, 4} ==>
      var s, n := AddedSpec(controls, kind, slot), |Owned(controls, slot.value)|;
      var left, top := if slot.value in {2, 4} then 600000 else 0, if slot.value in {3, 4} then 360000 else 0;
      && InCell(s.x, s.width, left + 24000 + n % 5 * 108000, 108000) && InCell(s.y, s.height, top + 22000 + n / 5 % 3 * 104000, 104000)
  {
    if slot.Some? {
      CountOfSlotIs(controls, slot.value);
    }
    hide CountOfSlot, DefaultLabel, Owned;
  }

  /** Centred in the cell, or at its start when too large for it. */
  predicate InCell(at: real, size: real, start: int, cell: int) {
    if size <= cell as real then at - start as real == (start + cell) as real - (at + size) else at == start as real
  }

  lemma SettledCaption(caption: string, fallback: string)
    requires Settled(caption, 64) && caption != ""
    ensures FinalCaption(caption, fallback) == caption
  {
    SettledMeans(caption, 64);
    hide CleanString, Settled;
  }

  lemma AddedIs(controls: seq<Control>, kind: Kind, slot: Option<int>, n: nat)
    requires 1 <= n <= MAX_SAFE_INTEGER
    ensures var s := AddedSpec(controls, kind, slot);
      && Final(s, n) == Control("c" + Print(n), "physical:c" + Print(n), Confirmed, kind, DefaultLabel(kind), CleanSlot(slot), ByHand,
                                CleanFrame(CleanFrame(Frame(s.x, s.y, s.width, s.height))), ChannelsFor(kind))
      && Built(s, n).channels == ChannelsFor(kind) && Named(Built(s, n)) && Built(s, n).id == GeneratedId(n)
  {
    hide AddedSpec, CleanFrame, Print, ChannelsFor, DefaultLabel, Final, FinalCaption, InCell, CleanSlot, Settled, Owned, Built, GoodSpec;
    var s := AddedSpec(controls, kind, slot);
    AddedCell(controls, kind, slot);
    AddedSpecIsGood(controls, kind, slot);
    BuiltShape(s, n);
    DefaultLabelIsSettled(kind);
    SettledCaption(DefaultLabel(kind), DefaultLabel(kind));
    BuiltChannels(s, n);
    assert "physical:" + ("c" + Print(n)) == "physical:c" + Print(n);
  }

  lemma BuiltChannels(s: Spec, n: nat)
    requires s.inputKey == "" && GoodSpec(s) && n <= MAX_SAFE_INTEGER
    ensures Built(s, n).channels == ChannelsFor(s.kind)
  {
    SpecIdsAreClean(s, n);
    SpecChannelsOnce(s);
    CleanedShape(RawControl(s, n));
    NamedChannelsAreCleaned(SpecChannels(s), s.kind);
    hide CleanString, CleanFrame, CleanChannels, DefaultLabel, Named, GeneratedId, NamedChannels, CleanedChannels, ChannelsFor, GoodSpec;
  }

  lemma AddedSelection(d: Document, raw: Control, added: Control)
    requires AllCleaned(d.controls + [raw]) == d.controls + [added] && DistinctIds(d.controls + [added]) && added.id == raw.id
    requires added.channels == raw.channels && raw.channels != []
    ensures SelectionHolds(AllCleaned(d.controls + [raw]), raw.id, FirstChannelId(raw))
  {
    hide AllCleaned;
    FindOnly(d.controls + [added], |d.controls|);
    FirstChannelIsOne(added);
  }

  lemma FirstOfKind(kind: Kind)
    ensures ChannelsFor(kind) != [] && ChannelsFor(kind)[0].id == if kind == Joystick then "up" else "press"
  {
  }

  /** Below the cap a new control of its kind, unassigned, on a switch of its
      own, is appended and selected. */
  lemma AddLaw(d: Document, kind: Kind, slot: Option<int>)
    requires Inv(d) && d.nextId < MAX_SAFE_INTEGER && |d.controls| < 512
    ensures var r, s := Add(d, kind, slot), AddedSpec(d.controls, kind, slot);
      && |r.controls| == |d.controls| + 1
      && var c := r.controls[|d.controls|];
      && c == Control("c" + Print(d.nextId), "physical:c" + Print(d.nextId), Confirmed, kind, DefaultLabel(kind), CleanSlot(slot), ByHand,
                      CleanFrame(CleanFrame(Frame(s.x, s.y, s.width, s.height))), ChannelsFor(kind))
      && r == d.(started := true, template := Custom, stage := Design, controls := d.controls + [c], selectedControl := c.id,
                 selectedChannel := if kind == Joystick then "up" else "press", nextId := d.nextId + 1)
  {
    hide Inv, Body, Sanitize, Add, Reconcile, AddedSpec, Built, Cleaned, Named, GeneratedId, Print, CleanFrame, Final, WithAdded, Member,
      AllNamed, AllCleaned, SelectionHolds;
    InvParts(d);
    var spec := AddedSpec(d.controls, kind, slot);
    var raw, added := Built(spec, d.nextId), Final(spec, d.nextId);
    AddIs(d, kind, slot);
    AddedSpecIsGood(d.controls, kind, slot);
    AddedIs(d.controls, kind, slot, d.nextId);
    BuiltIsMember(spec, d.nextId);
    FinalIs(spec, d.nextId);
    OwnFinal(spec, d.nextId);
    FreshAppend(d.controls, added, d.nextId);
    CleanWithOneMore(d.controls, raw, added, d.nextId);
    ReconcileAppend(d.controls, added);
    BodyIsDistinct(d.controls + [added], d.nextId + 1);
    FirstOfKind(kind);
    AddedSelection(d, raw, added);
    AddedDocument(d, raw, added);
  }

  lemma AddedDocument(d: Document, raw: Control, added: Control)
    requires 1 <= d.nextId < MAX_SAFE_INTEGER && AllNamed(d.controls + [raw]) && AllCleaned(d.controls + [raw]) == d.controls + [added]
    requires Body(d.controls + [added], d.nextId + 1) && Reconcile(d.controls + [added]) == d.controls + [added]
    requires SelectionHolds(AllCleaned(d.controls + [raw]), raw.id, FirstChannelId(raw)) && raw.channels != []
    ensures Sanitize(WithAdded(d, raw))
         == d.(started := true, template := Custom, stage := Design, controls := d.controls + [added], selectedControl := raw.id,
               selectedChannel := raw.channels[0].id, nextId := d.nextId + 1)
  {
    hide Sanitize, Body, Reconcile, AllNamed, AllCleaned, SelectionHolds;
    SanitizedIs(WithAdded(d, raw));
  }

  /** At the cap nothing is added or copied. */
  lemma FullLaw(d: Document, kind: Kind, slot: Option<int>, id: string, mode: Mode)
    requires Inv(d) && |d.controls| == 512
    ensures Add(d, kind, slot) == d && Copy(d, id, mode) == d
  {
    hide Inv, Sanitize, CopyOf, AddedSpec, Built;
    InvParts(d);
  }

  predicate Moved28(at: real, bound: real, r: real) {
    r == if at + 28000.0 <= bound then at + 28000.0 else bound
  }

  /** Below the cap a resolved control is copied: the copy has a fresh identity,
      stands 28 further on both axes as far as the board goes, and is on a
      switch of its own, or as a mirror on the same. */
  lemma CopyLaw(d: Document, k: nat, mode: Mode)
    requires Inv(d) && d.nextId < MAX_SAFE_INTEGER && k < |d.controls| < 512 && d.controls[k].resolution == Confirmed
    ensures var s, r := d.controls[k], Copy(d, d.controls[k].id, mode);
      && |r.controls| == |d.controls| + 1 && s.channels != []
      && var c := r.controls[|d.controls|];
      && c == s.(id := "c" + Print(d.nextId), physicalId := if mode == Mirror then s.physicalId else "physical:c" + Print(d.nextId),
                 origin := ByHand, frame := c.frame)
      && Moved28(s.frame.x, 1200000.0 - s.frame.width, c.frame.x) && Moved28(s.frame.y, 720000.0 - s.frame.height, c.frame.y)
      && c.frame.width == s.frame.width && c.frame.height == s.frame.height
      && r == d.(template := Custom, controls := d.controls + [c], selectedControl := c.id, selectedChannel := s.channels[0].id,
                 nextId := d.nextId + 1)
  {
    hide Inv, Body, Sanitize, Copy, Reconcile, GeneratedId, Print, WithCopied, Member, SelectionHolds, CopyOf, Moved28;
    InvParts(d);
    BodyIsDistinct(d.controls, d.nextId);
    FindOnly(d.controls, k);
    CopyIs(d, d.controls[k].id, mode);
    MembersAreNamed(d.controls, d.nextId);
    var copy := CopyOf(d.controls[k], mode, d.nextId);
    MemberAt(d.controls, d.nextId, k);
    KeptCaption(d.controls[k], d.nextId);
    CopyFields(d.controls[k], mode, d.nextId);
    CopyAppend(d.controls, k, mode, d.nextId);
    NothingToAnswer(d.controls, k, mode, d.nextId);
    ReconcileAppend(d.controls, copy);
    BodyIsDistinct(d.controls + [copy], d.nextId + 1);
    CopiedDocument(d, k, mode, copy);
  }

  lemma CopyFields(s: Control, mode: Mode, n: nat)
    requires SettledFrame(s.frame) && s.resolution == Confirmed
    ensures var c := CopyOf(s, mode, n);
      && c == s.(id := "c" + Print(n), physicalId := if mode == Mirror then s.physicalId else "physical:c" + Print(n), origin := ByHand,
                 frame := c.frame)
      && Moved28(s.frame.x, 1200000.0 - s.frame.width, c.frame.x) && Moved28(s.frame.y, 720000.0 - s.frame.height, c.frame.y)
      && c.frame.width == s.frame.width && c.frame.height == s.frame.height
  {
    assert "physical:" + ("c" + Print(n)) == "physical:c" + Print(n);
    hide Print, WholeNumber;
  }

  lemma CopiedDocument(d: Document, k: nat, mode: Mode, copy: Control)
    requires 1 <= d.nextId < MAX_SAFE_INTEGER && k < |d.controls| && Each(d.controls, c => Answered(c, d.controls[k], mode)) == d.controls
    requires Body(d.controls + [copy], d.nextId + 1) && Reconcile(d.controls + [copy]) == d.controls + [copy] && copy.channels != []
    requires DistinctIds(d.controls + [copy])
    ensures Sanitize(WithCopied(d, d.controls[k], mode, copy))
         == d.(template := Custom, controls := d.controls + [copy], selectedControl := copy.id, selectedChannel := copy.channels[0].id,
               nextId := d.nextId + 1)
  {
    hide Sanitize, Body, Reconcile, Answered;
    FindOnly(d.controls + [copy], |d.controls|);
    FirstChannelIsOne(copy);
    CleanSanitizedIs(WithCopied(d, d.controls[k], mode, copy));
  }

  /** An open question is not copied. */
  lemma CopyOpenLaw(d: Document, k: nat, mode: Mode)
    requires Inv(d) && k < |d.controls| && d.controls[k].resolution == Unresolved
    ensures Copy(d, d.controls[k].id, mode) == d
  {
    hide Inv, Sanitize, Body, CopyOf;
    InvParts(d);
    BodyIsDistinct(d.controls, d.nextId);
    FindOnly(d.controls, k);
  }

  // ----- resolving and teaching

  /** The open questions about a key. */
  function OpenAbout(controls: seq<Control>, key: string): set<nat> {
    set i: nat | i < |controls| && controls[i].resolution == Unresolved && key in KeyboardKeys(controls[i])
  }

  lemma FlaggedIs(c: Control, key: string)
    ensures Flagged(c, key) <==> c.resolution == Unresolved && key in KeyboardKeys(c)
  {
  }

  lemma {:induction false} CountFlaggedIs(controls: seq<Control>, key: string)
    ensures CountFlagged(controls, key) == |OpenAbout(controls, key)|
  {
    hide KeyboardKeys, Flagged;
    if controls != [] {
      var n := |controls| - 1;
      CountFlaggedIs(controls[..n], key);
      FlaggedIs(controls[n], key);
      assert OpenAbout(controls, key) == OpenAbout(controls[..n], key)
                                       + (if controls[n].resolution == Unresolved && key in KeyboardKeys(controls[n]) then {n} else {});
    }
  }

  /** The channel asked for, or the first when there is none of that identity. */
  predicate Asks(c: Control, channel: string, m: nat) {
    m < |c.channels| && (c.channels[m].id == channel || (m == 0 && forall n | 0 <= n < |c.channels| :: c.channels[n].id != channel))
  }

  lemma ChosenIs(c: Control, channel: string, m: nat)
    requires KeptChannels(c.channels) && Asks(c, channel, m)
    ensures ChosenChannel(c, channel) == Some(c.channels[m])
  {
    hide KeptChannel;
    FirstOfChannels(c.channels, channel, m);
  }

  lemma {:induction false} FirstOfChannels(channels: seq<Channel>, id: string, m: nat)
    requires DistinctChannels(channels) && m < |channels|
    ensures channels[m].id == id ==> FindChannel(channels, id) == Some(channels[m])
    ensures (forall n | 0 <= n < |channels| :: channels[n].id != id) ==> FindChannel(channels, id) == None
  {
    if channels[0].id == id {
      assert m > 0 ==> channels[0].id != channels[m].id;
    } else if m > 0 {
      assert forall n | 1 <= n < |channels| :: channels[1..][n - 1] == channels[n];
      FirstOfChannels(channels[1..], id, m - 1);
    } else if |channels| > 1 {
      assert forall n | 1 <= n < |channels| :: channels[1..][n - 1] == channels[n];
      FirstOfChannels(channels[1..], id, 0);
    }
  }

  /** What the answer does to one control: an open question about the key is
      closed; declared separate, it gets a switch of its own, and declared a
      mirror, the selected switch and the chosen claim. */
  predicate Answers(c: Control, selected: Control, chosen: Channel, mode: Mode, r: Control)
    requires chosen.input.Keyboard?
  {
    if c.resolution == Unresolved && chosen.input.key in KeyboardKeys(c) then
      && r == c.(physicalId := if mode == Mirror then selected.physicalId else "physical:" + c.id, resolution := Confirmed, channels := r.channels)
      && (mode == Duplicate ==> r.channels == c.channels)
      && |r.channels| == |c.channels|
      && forall n | 0 <= n < |c.channels| && mode == Mirror ::
           r.channels[n] == if c.channels[n].input.Keyboard? && c.channels[n].input.key == chosen.input.key
                            then c.channels[n].(input := chosen.input, deviceUnverified := chosen.deviceUnverified) else c.channels[n]
    else r == c
  }

  lemma ResolvedAnswers(c: Control, selected: Control, chosen: Channel, mode: Mode)
    requires chosen.input.Keyboard?
    ensures Answers(c, selected, chosen, mode, ResolvedControl(c, selected, chosen, chosen.input.key, mode))
  {
    FlaggedIs(c, chosen.input.key);
    hide KeyboardKeys, Flagged;
  }

  /** Nothing is resolved unless the chosen channel has a key and at least two
      open questions are about it. */
  lemma NothingToResolveLaw(d: Document, k: nat, channel: string, m: nat, mode: Mode)
    requires Inv(d) && k < |d.controls| && Asks(d.controls[k], channel, m)
    requires var input := d.controls[k].channels[m].input; input == Unassigned || |OpenAbout(d.controls, input.key)| < 2
    ensures Resolve(d, d.controls[k].id, channel, mode) == d
  {
    hide Inv, Body, Sanitize, Member, KeptChannels, Asks, OpenAbout, ResolvedControl;
    InvParts(d);
    BodyIsDistinct(d.controls, d.nextId);
    FindOnly(d.controls, k);
    MemberAt(d.controls, d.nextId, k);
    MemberParts(d.controls[k], d.nextId);
    ChosenIs(d.controls[k], channel, m);
    AskedExists(d.controls[k], channel, m);
    if d.controls[k].channels[m].input != Unassigned {
      CountFlaggedIs(d.controls, d.controls[k].channels[m].input.key);
    }
  }

  lemma AskedExists(c: Control, channel: string, m: nat)
    requires Asks(c, channel, m)
    ensures m < |c.channels|
  {
  }

  /** Resolving answers every open question about the chosen key, and closes
      what that settles; nothing else changes. */
  lemma ResolveLaw(d: Document, k: nat, channel: string, m: nat, mode: Mode) returns (answered: seq<Control>)
    requires Inv(d) && k < |d.controls| && Asks(d.controls[k], channel, m)
    requires var input := d.controls[k].channels[m].input; input.Keyboard? && |OpenAbout(d.controls, input.key)| >= 2
    ensures |answered| == |d.controls|
    ensures forall i | 0 <= i < |answered| :: Answers(d.controls[i], d.controls[k], d.controls[k].channels[m], mode, answered[i])
    ensures Resolve(d, d.controls[k].id, channel, mode).controls == Reconcile(answered)
    ensures MirrorAllowed(d, d.controls[k].id, channel, mode) ==>
      Resolve(d, d.controls[k].id, channel, mode) == d.(template := Custom, controls := Reconcile(answered))
  {
    hide Inv, Body, Sanitize, Member, KeptChannels, Asks, OpenAbout, ResolvedControl, Reconcile, Resolve, MirrorAllowed, Answers, KeptChannel,
      SelectionHolds;
    InvParts(d);
    BodyIsDistinct(d.controls, d.nextId);
    FindOnly(d.controls, k);
    MemberAt(d.controls, d.nextId, k);
    MemberParts(d.controls[k], d.nextId);
    ChosenIs(d.controls[k], channel, m);
    AskedExists(d.controls[k], channel, m);
    var selected, chosen, id := d.controls[k], d.controls[k].channels[m], d.controls[k].id;
    CountFlaggedIs(d.controls, chosen.input.key);
    assert Question(d, id, channel) == Some(chosen);
    answered := AllResolved(d.controls, selected, chosen, mode);
    forall i | 0 <= i < |answered| ensures Answers(d.controls[i], selected, chosen, mode, answered[i]) {
      ResolvedAnswers(d.controls[i], selected, chosen, mode);
    }
    if MirrorAllowed(d, id, channel, mode) {
      ResolveKeeps(d, id, channel, mode);
      ResolvedDocument(d, k, channel, mode, chosen);
    } else {
      MirrorOnly(d, id, channel, mode);
      MirrorReturns(d, id, channel, k);
    }
  }

  lemma MirrorOnly(d: Document, id: string, channel: string, mode: Mode)
    ensures mode == Duplicate ==> MirrorAllowed(d, id, channel, mode)
  {
    hide Question, Uncontradicted;
  }

  lemma ResolvedDocument(d: Document, k: nat, channel: string, mode: Mode, chosen: Channel)
    requires Inv(d) && k < |d.controls| && FindControl(d.controls, d.controls[k].id) == Some(d.controls[k])
    requires Question(d, d.controls[k].id, channel) == Some(chosen) && chosen in d.controls[k].channels && chosen.input.Keyboard?
    requires MirrorAllowed(d, d.controls[k].id, channel, mode)
    ensures Resolve(d, d.controls[k].id, channel, mode)
         == d.(template := Custom, controls := Reconcile(AllResolved(d.controls, d.controls[k], chosen, mode)))
  {
    hide Sanitize, Reconcile, Inv, Body, AllResolved, Resolve, Question, Member, KeptChannel, Carries, Uncontradicted, SelectionHolds;
    InvParts(d);
    ResolveIs(d, d.controls[k].id, channel, mode);
    MemberAt(d.controls, d.nextId, k);
    ChannelIsKept(d.controls[k], d.nextId, chosen);
    AllResolvedIsBody(d.controls, k, chosen, mode, d.nextId);
    ResolvedSelection(d, d.controls[k], chosen, mode);
    CleanSanitizedIs(d.(template := Custom, controls := AllResolved(d.controls, d.controls[k], chosen, mode)));
  }

  /** Same identity, and channels of the same identities. */
  predicate SameNames(a: Control, b: Control) {
    a.id == b.id && |a.channels| == |b.channels| && forall i | 0 <= i < |a.channels| :: a.channels[i].id == b.channels[i].id
  }

  lemma {:induction false} FindNamed(a: seq<Control>, b: seq<Control>, id: string)
    requires |a| == |b| && forall i | 0 <= i < |a| :: SameNames(a[i], b[i])
    ensures FindControl(a, id).Some? <==> FindControl(b, id).Some?
    ensures FindControl(a, id).Some? ==> SameNames(FindControl(a, id).value, FindControl(b, id).value)
  {
    hide SameNames;
    if a != [] {
      SameNamesId(a[0], b[0]);
      assert forall i | 0 <= i < |a| - 1 :: a[1..][i] == a[i + 1] && b[1..][i] == b[i + 1] && SameNames(a[i + 1], b[i + 1]);
      FindNamed(a[1..], b[1..], id);
    }
  }

  lemma SameNamesId(a: Control, b: Control)
    requires SameNames(a, b)
    ensures a.id == b.id && forall id :: HasChannel(a.channels, id) <==> HasChannel(b.channels, id)
  {
  }

  lemma NamesSelect(a: seq<Control>, b: seq<Control>, control: string, channel: string)
    requires |a| == |b| && forall i | 0 <= i < |a| :: SameNames(a[i], b[i])
    requires SelectionHolds(a, control, channel)
    ensures SelectionHolds(b, control, channel)
  {
    hide SameNames, HasChannel;
    FindNamed(a, b, control);
    if FindControl(a, control).Some? {
      SameNamesId(FindControl(a, control).value, FindControl(b, control).value);
    }
  }

  lemma ResolvedSelection(d: Document, selected: Control, chosen: Channel, mode: Mode)
    requires SelectionHolds(d.controls, d.selectedControl, d.selectedChannel) && chosen.input.Keyboard?
    ensures SelectionHolds(AllResolved(d.controls, selected, chosen, mode), d.selectedControl, d.selectedChannel)
  {
    hide SelectionHolds, KeyboardKeys;
    var r := AllResolved(d.controls, selected, chosen, mode);
    forall i | 0 <= i < |r| ensures SameNames(d.controls[i], r[i]) {
      ResolvedAnswers(d.controls[i], selected, chosen, mode);
    }
    NamesSelect(d.controls, r, d.selectedControl, d.selectedChannel);
  }

  /** Teaching changes the controls, and selects what was taught. */
  lemma TeachSelects(d: Document, k: nat, m: nat, key: string, device: string)
    requires Inv(d) && k < |d.controls| && m < |d.controls[k].channels| && CleanString(key, 96) != ""
    ensures var c, r := d.controls[k], Teach(d, d.controls[k].id, d.controls[k].channels[m].id, key, device);
      r == d.(controls := r.controls, selectedControl := c.id, selectedChannel := c.channels[m].id)
  {
    hide Sanitize, Reconcile, Inv, Body, CleanString, Settled, Teach, AllNamed, AllCleaned, SelectionHolds, AllTaught;
    InvParts(d);
    BodyIsDistinct(d.controls, d.nextId);
    FindOnly(d.controls, k);
    var c, channel := d.controls[k], d.controls[k].channels[m].id;
    assert HasChannel(c.channels, channel);
    var once, device1 := CleanString(key, 96), CleanString(device, 240);
    TeachIs(d, c.id, channel, key, device);
    OnceIsTeachable(d, c.id, channel, key, device);
    AllTaughtIsBody(d.controls, c.physicalId, channel, once, device1, d.nextId);
    TaughtSelection(d, k, channel, CleanString(once, 96), CleanString(device1, 240));
    SanitizedIs(d.(controls := AllTaught(d.controls, c.physicalId, channel, once, device1), selectedControl := c.id, selectedChannel := channel));
  }

  lemma TaughtSelection(d: Document, k: nat, channel: string, key: string, device: string)
    requires k < |d.controls| && DistinctIds(d.controls) && HasChannel(d.controls[k].channels, channel)
    ensures SelectionHolds(AllTaught(d.controls, d.controls[k].physicalId, channel, key, device), d.controls[k].id, channel)
  {
    hide SelectionHolds;
    var r := AllTaught(d.controls, d.controls[k].physicalId, channel, key, device);
    forall i | 0 <= i < |r| ensures SameNames(d.controls[i], r[i]) {
      TaughtFields(d.controls[i], d.controls[k].physicalId, channel, key, device);
    }
    KnownSelection(d.controls, k, channel);
    NamesSelect(d.controls, r, d.controls[k].id, channel);
  }

  lemma KnownSelection(controls: seq<Control>, k: nat, channel: string)
    requires k < |controls| && DistinctIds(controls) && HasChannel(controls[k].channels, channel)
    ensures SelectionHolds(controls, controls[k].id, channel)
  {
    FindOnly(controls, k);
  }
}
