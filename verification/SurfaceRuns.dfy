/** Every edit keeps the invariant, and so does every run of edits. */
module SurfaceRuns {
  import opened Options
  import opened SurfaceText
  import opened Surface
  import opened SurfaceEdits
  import opened SurfaceFrames
  import opened SurfaceStable
  import opened SurfaceInvariant
  import opened SurfaceBuilt
  import opened SurfaceStarts

  // ----- shared steps

  /** Sanitizing a body that is already clean. */
  lemma SanitizeCleanBody(d: Document)
    requires 1 <= d.nextId <= MAX_SAFE_INTEGER && Body(d.controls, d.nextId)
    ensures Inv(Sanitize(d))
    ensures Sanitize(d) == d.(controls := Reconcile(d.controls), selectedControl := Sanitize(d).selectedControl,
                              selectedChannel := Sanitize(d).selectedChannel)
  {
    hide Sanitize, Body, AllNamed, AllCleaned, Reconcile, Inv;
    BodyIsStable(d.controls, d.nextId);
    SanitizeBody(d);
  }

  lemma InvParts(d: Document)
    requires Inv(d)
    ensures 1 <= d.nextId <= MAX_SAFE_INTEGER && Body(d.controls, d.nextId) && Reconcile(d.controls) == d.controls
    ensures Sanitize(d) == d
    ensures SelectionHolds(d.controls, d.selectedControl, d.selectedChannel)
  {
    hide Sanitize, Body, Reconcile, SelectionHolds;
    SanitizeKeeps(d);
  }

  lemma InvFrom(d: Document)
    requires 1 <= d.nextId <= MAX_SAFE_INTEGER && Body(d.controls, d.nextId) && Reconcile(d.controls) == d.controls
    requires SelectionHolds(d.controls, d.selectedControl, d.selectedChannel)
    ensures Inv(d)
  {
  }

  lemma MemberAt(controls: seq<Control>, next: int, i: nat)
    requires Body(controls, next) && i < |controls|
    ensures Member(controls[i], next)
  {
    hide Member, PairsHold, DistinctIds;
  }

  lemma PairAt(controls: seq<Control>, next: int, i: nat, j: nat)
    requires Body(controls, next) && i < |controls| && j < |controls|
    ensures PairHolds(controls[i], controls[j])
    ensures i != j ==> controls[i].id != controls[j].id
  {
    hide Member, PairHolds;
    assert i < j ==> controls[i].id != controls[j].id;
    assert j < i ==> controls[j].id != controls[i].id;
  }

  /** Select, stage and layout touch no control. */
  lemma SelectKeeps(d: Document, id: string, channel: string)
    requires Inv(d)
    ensures Inv(Select(d, id, channel)) && Select(d, id, channel).controls == d.controls
    ensures Select(d, id, channel).nextId == d.nextId
  {
    hide Sanitize, Body, Reconcile, HasChannel, FirstChannelId, Inv;
    InvParts(d);
    var r := Select(d, id, channel);
    var found := FindControl(d.controls, id);
    MembersAreNamed(d.controls, d.nextId);
    if found.Some? {
      FirstChannelIsOne(found.value);
    } else {
      NothingHasNoName(d.controls);
    }
    InvFrom(r);
  }

  lemma LooksKeep(d: Document, layout: PanelLayout, stage: Stage)
    requires Inv(d)
    ensures Inv(SetLayout(d, layout)) && Inv(SetStage(d, stage))
    ensures SetLayout(d, layout).controls == d.controls && SetStage(d, stage).controls == d.controls
    ensures SetLayout(d, layout).nextId == d.nextId && SetStage(d, stage).nextId == d.nextId
  {
    hide Sanitize, Body, Reconcile, SelectionHolds, Inv;
    InvParts(d);
    InvFrom(SetLayout(d, layout));
    InvFrom(SetStage(d, stage));
  }

  // ----- changes of looks: caption, slot, position

  /** Same identity, switch, resolution and channels. */
  predicate SameRole(a: Control, b: Control) {
    a.id == b.id && a.physicalId == b.physicalId && a.resolution == b.resolution && a.channels == b.channels
  }

  ghost predicate SameRoles(a: seq<Control>, b: seq<Control>) {
    |a| == |b| && forall i | 0 <= i < |a| :: SameRole(a[i], b[i])
  }

  lemma SameRoleIsMember(a: Control, b: Control, next: int)
    requires Member(a, next) && SameRole(a, b)
    requires b.caption != "" && Settled(b.caption, 64) && CleanSlot(b.playerSlot) == b.playerSlot && SettledFrame(b.frame)
    ensures Member(b, next)
  {
    hide Settled, SettledFrame, KeptChannels, Unlinked, GeneratedNumber, PhysicalNumbered, Forbidden;
  }

  lemma SameRolePair(a: Control, b: Control, c: Control, d: Control)
    requires SameRole(a, b) && SameRole(c, d) && PairHolds(a, c)
    ensures PairHolds(b, d)
  {
    hide Agree;
  }

  lemma SameRolesKeepBody(a: seq<Control>, b: seq<Control>, next: int)
    requires Body(a, next) && SameRoles(a, b) && forall i | 0 <= i < |b| :: Member(b[i], next)
    ensures Body(b, next)
  {
    hide Member, PairHolds;
    forall i, j | 0 <= i < |b| && 0 <= j < |b| ensures PairHolds(b[i], b[j]) {
      assert PairHolds(a[i], a[j]) && SameRole(a[i], b[i]) && SameRole(a[j], b[j]);
      SameRolePair(a[i], b[i], a[j], b[j]);
    }
    forall i, j | 0 <= i < j < |b| ensures b[i].id != b[j].id {
      assert SameRole(a[i], b[i]) && SameRole(a[j], b[j]);
    }
  }

  lemma SameRolesReconcile(a: seq<Control>, b: seq<Control>)
    requires SameRoles(a, b) && Reconcile(a) == a
    ensures Reconcile(b) == b
  {
    hide KeyboardKeys;
    forall i | 0 <= i < |b| ensures Reconciled(b, b[i]) == b[i] {
      assert SameRole(a[i], b[i]);
      assert Reconcile(a)[i] == a[i];
      if b[i].resolution.Unresolved? {
        PeerAmongSame(a, b, i);
      }
    }
    assert Reconcile(b) == b;
  }

  lemma SameKeys(a: Control, b: Control)
    requires a.channels == b.channels
    ensures KeyboardKeys(a) == KeyboardKeys(b)
  {
  }

  lemma PeerAmongSame(a: seq<Control>, b: seq<Control>, i: nat)
    requires SameRoles(a, b) && i < |a| && HasPeer(a, a[i])
    ensures HasPeer(b, b[i])
  {
    hide KeyboardKeys;
    var j :| && 0 <= j < |a| && a[j].resolution.Unresolved? && a[j].id != a[i].id
             && KeyboardKeys(a[j]) * KeyboardKeys(a[i]) != {};
    assert SameRole(a[i], b[i]) && SameRole(a[j], b[j]);
    SameKeys(a[i], b[i]);
    SameKeys(a[j], b[j]);
    assert KeyboardKeys(b[j]) * KeyboardKeys(b[i]) != {};
  }

  lemma SameRolesFind(a: seq<Control>, b: seq<Control>, control: string, channel: string)
    requires SameRoles(a, b) && SelectionHolds(a, control, channel)
    ensures SelectionHolds(b, control, channel)
  {
    hide HasChannel;
    FindSame(a, b, control);
  }

  lemma {:induction false} FindSame(a: seq<Control>, b: seq<Control>, id: string)
    requires SameRoles(a, b)
    ensures FindControl(a, id).Some? <==> FindControl(b, id).Some?
    ensures FindControl(a, id).Some? ==> SameRole(FindControl(a, id).value, FindControl(b, id).value)
  {
    if a != [] {
      assert SameRole(a[0], b[0]);
      assert forall i | 0 <= i < |a| - 1 :: a[1..][i] == a[i + 1] && b[1..][i] == b[i + 1] && SameRole(a[i + 1], b[i + 1]);
      FindSame(a[1..], b[1..], id);
    }
  }

  lemma MovedFrameIsSettled(f: Frame, x: real, y: real)
    requires SettledFrame(f)
    ensures SettledFrame(MovedFrame(f, x, y))
  {
    hide RoundReal, Clamp, WholeNumber;
    WholeBounds();
    WholeDifference(BOARD_WIDTH, f.width);
    WholeDifference(BOARD_HEIGHT, f.height);
    RoundedClamp(x, BOARD_WIDTH - f.width);
    RoundedClamp(y, BOARD_HEIGHT - f.height);
  }

  lemma MovedIsMember(c: Control, id: string, x: real, y: real, next: int)
    requires Member(c, next)
    ensures Member(Moved(c, id, x, y), next) && SameRole(c, Moved(c, id, x, y))
  {
    hide Member, SettledFrame, MovedFrame, Settled;
    if c.id == id {
      KeptCaption(c, next);
      MovedFrameIsSettled(c.frame, x, y);
      SameRoleIsMember(c, Moved(c, id, x, y), next);
    }
  }

  lemma KeptCaption(c: Control, next: int)
    requires Member(c, next)
    ensures c.caption != "" && Settled(c.caption, 64) && CleanSlot(c.playerSlot) == c.playerSlot && SettledFrame(c.frame)
  {
    hide Settled, KeptChannels, Unlinked, Numbered, OpenQuestion, SettledFrame, CleanSlot, Forbidden;
  }

  /** Moving a control changes nothing but that control's position, which stays
      on the board. */
  lemma MoveKeeps(d: Document, id: string, x: real, y: real)
    requires Inv(d)
    ensures Inv(Move(d, id, x, y)) && Move(d, id, x, y).nextId == d.nextId
    ensures Move(d, id, x, y).controls == Each(d.controls, c => Moved(c, id, x, y))
  {
    var r := Move(d, id, x, y);
    hide Sanitize, Reconcile, SelectionHolds, Inv, Moved, Member, SameRole;
    InvParts(d);
    forall i | 0 <= i < |d.controls| ensures Member(r.controls[i], d.nextId) && SameRole(d.controls[i], r.controls[i]) {
      MemberAt(d.controls, d.nextId, i);
      MovedIsMember(d.controls[i], id, x, y, d.nextId);
    }
    hide Body;
    SameRolesKeepBody(d.controls, r.controls, d.nextId);
    SameRolesReconcile(d.controls, r.controls);
    SameRolesFind(d.controls, r.controls, d.selectedControl, d.selectedChannel);
    InvFrom(r);
  }

  lemma ReassignedIsMember(c: Control, id: string, slot: Option<int>, next: int)
    requires Member(c, next)
    ensures Member(Reassigned(c, id, slot), next) && SameRole(c, Reassigned(c, id, slot))
  {
    hide Member, SettledFrame, Settled;
    SlotOnce(slot);
    if c.id == id {
      KeptCaption(c, next);
      SameRoleIsMember(c, Reassigned(c, id, slot), next);
    }
  }

  lemma SetSlotKeeps(d: Document, id: string, slot: Option<int>)
    requires Inv(d)
    ensures Inv(SetSlot(d, id, slot)) && SetSlot(d, id, slot).nextId == d.nextId
    ensures SetSlot(d, id, slot).controls
         == if HasControl(d.controls, id) then Each(d.controls, c => Reassigned(c, id, slot)) else d.controls
  {
    hide Sanitize, Reconcile, SelectionHolds, Inv, Reassigned, Member, SameRole, HasControl;
    InvParts(d);
    if HasControl(d.controls, id) {
      var controls := Each(d.controls, c => Reassigned(c, id, slot));
      forall i | 0 <= i < |controls| ensures Member(controls[i], d.nextId) && SameRole(d.controls[i], controls[i]) {
        MemberAt(d.controls, d.nextId, i);
        ReassignedIsMember(d.controls[i], id, slot, d.nextId);
      }
      hide Body;
      SameRolesKeepBody(d.controls, controls, d.nextId);
      SameRolesReconcile(d.controls, controls);
      SanitizeCleanBody(d.(template := Edited(d.template), controls := controls));
    }
  }

  /** The caption a renamed control ends up with. */
  lemma RenamedIsMember(c: Control, id: string, caption: string, next: int)
    requires Member(c, next) && CleanString(caption, 64) != ""
    ensures Named(Renamed(c, id, CleanString(caption, 64))) && Renamed(c, id, CleanString(caption, 64)).id == c.id
    ensures Cleaned(Renamed(c, id, CleanString(caption, 64))) == Renamed(c, id, CleanString(CleanString(caption, 64), 64))
    ensures Member(Renamed(c, id, CleanString(CleanString(caption, 64), 64)), next)
    ensures SameRole(c, Renamed(c, id, CleanString(CleanString(caption, 64), 64)))
  {
    CleanTwiceSettles(caption, 64);
    MemberIsKept(c, next);
    KeptIsCleaned(c);
    KeptCaption(c, next);
    KeptShape(c);
    hide CleanString, Settled, SettledFrame, Member, Kept, CleanChannels, DefaultLabel, CleanSlot;
    if c.id == id {
      NamedAgain(c, Renamed(c, id, CleanString(caption, 64)));
      CleanedShape(c);
      CleanedShape(Renamed(c, id, CleanString(caption, 64)));
      SameRoleIsMember(c, Renamed(c, id, CleanString(CleanString(caption, 64), 64)), next);
    }
  }

  lemma MemberIsKept(c: Control, next: int)
    requires Member(c, next)
    ensures Kept(c)
  {
    hide Kept, Numbered, Unlinked, OpenQuestion;
  }

  lemma KeptShape(c: Control)
    requires Kept(c)
    ensures Named(c) && c.physicalId != "" && Settled(c.physicalId, 128) && KeptChannels(c.channels)
  {
    hide Settled, KeptChannels, SettledFrame, CleanSlot, Named;
  }

  lemma RenameKeeps(d: Document, id: string, caption: string)
    requires Inv(d)
    ensures Inv(Rename(d, id, caption)) && Rename(d, id, caption).nextId == d.nextId
    ensures Rename(d, id, caption).controls
         == if CleanString(caption, 64) != "" && HasControl(d.controls, id)
            then Each(d.controls, c => Renamed(c, id, CleanString(CleanString(caption, 64), 64))) else d.controls
  {
    hide Sanitize, Reconcile, SelectionHolds, Inv, Renamed, Member, SameRole, HasControl, CleanString, Cleaned, Named;
    InvParts(d);
    var once := CleanString(caption, 64);
    if once != "" && HasControl(d.controls, id) {
      var raw, controls := Each(d.controls, c => Renamed(c, id, once)), Each(d.controls, c => Renamed(c, id, CleanString(once, 64)));
      forall i | 0 <= i < |controls|
        ensures Member(controls[i], d.nextId) && SameRole(d.controls[i], controls[i])
        ensures Named(raw[i]) && raw[i].id == d.controls[i].id && Cleaned(raw[i]) == controls[i]
      {
        MemberAt(d.controls, d.nextId, i);
        RenamedIsMember(d.controls[i], id, caption, d.nextId);
      }
      assert AllNamed(raw) && AllCleaned(raw) == controls;
      hide Body, AllCleaned, AllNamed;
      SameRolesKeepBody(d.controls, controls, d.nextId);
      SameRolesReconcile(d.controls, controls);
      SanitizeBody(d.(template := Edited(d.template), controls := raw));
    }
  }

  // ----- removal

  lemma {:induction false} WithoutKeepsBody(controls: seq<Control>, id: string, next: int)
    requires Body(controls, next)
    ensures Body(Without(controls, id), next)
  {
    hide Member, PairHolds;
    if controls != [] {
      var front, last := controls[..|controls| - 1], controls[|controls| - 1];
      WithoutKeepsBody(front, id, next);
      var left := Without(front, id);
      if last.id != id {
        forall i | 0 <= i < |left| ensures left[i].id != last.id && PairHolds(left[i], last) && PairHolds(last, left[i]) {
          assert left[i] in front;
          var k :| 0 <= k < |front| && front[k] == left[i];
          assert controls[k] == left[i];
        }
        assert PairHolds(controls[|front|], controls[|front|]);
        AppendToBody(left, last, next, controls);
      }
    }
  }

  lemma AppendToBody(left: seq<Control>, last: Control, next: int, all: seq<Control>)
    requires Body(left, next) && Member(last, next) && PairHolds(last, last) && |left| < |all| <= MAX_CONTROLS
    requires forall i | 0 <= i < |left| :: left[i].id != last.id && PairHolds(left[i], last) && PairHolds(last, left[i])
    ensures Body(left + [last], next)
  {
    hide Member, PairHolds;
    var more := left + [last];
    assert forall i, j | 0 <= i < |more| && 0 <= j < |more| :: PairHolds(more[i], more[j]);
  }

  /** Removing a control keeps every other one; only answered questions change. */
  lemma RemoveKeeps(d: Document, id: string)
    requires Inv(d)
    ensures Inv(Remove(d, id)) && Remove(d, id).nextId == d.nextId
    ensures Remove(d, id).controls == Reconcile(Without(d.controls, id))
  {
    hide Sanitize, Reconcile, SelectionHolds, Inv, Body, Without, FirstChannelId;
    InvParts(d);
    var left := Without(d.controls, id);
    WithoutKeepsBody(d.controls, id, d.nextId);
    SanitizeCleanBody(d.(template := Custom, controls := left, selectedControl := if left == [] then "" else left[0].id,
                         selectedChannel := if left == [] then "" else FirstChannelId(left[0])));
  }

  // ----- addition

  /** What the sanitizer selects when the document asks for a kept control. */
  lemma SanitizeSelects(d: Document, i: nat)
    requires AllNamed(d.controls) && i < |d.controls| && d.controls[i].id == d.selectedControl
    requires AllCleaned(d.controls)[i].channels != [] && DistinctIds(AllCleaned(d.controls))
    ensures Sanitize(d).selectedControl == d.selectedControl
    ensures var channels := AllCleaned(d.controls)[i].channels;
      HasChannel(channels, CleanString(d.selectedChannel, 32)) ==> Sanitize(d).selectedChannel == CleanString(d.selectedChannel, 32)
  {
    var cs := AllCleaned(d.controls);
    NamedAreCleaned(d.controls);
    NamedIsCleaned(d.controls[i], 0);
    NamedMeans(d.controls[i]);
    FindOnly(cs, i);
    hide CleanString, KeepControls, Highest, Reconcile, HasChannel, FirstChannelId, MaxInt, MinInt, AllCleaned, AllNamed, Cleaned, Named;
  }

  lemma NamedMeans(c: Control)
    requires Named(c)
    ensures CleanString(c.id, 128) == c.id
  {
    hide CleanString, Settled;
    SettledMeans(c.id, 128);
  }

  lemma AddedSpecIsGood(controls: seq<Control>, kind: Kind, slot: Option<int>)
    ensures GoodSpec(AddedSpec(controls, kind, slot)) && AddedSpec(controls, kind, slot).physicalId.None?
    ensures AddedSpec(controls, kind, slot).resolution.Confirmed?
  {
    hide CountOfSlot;
  }

  /** A fresh control conflicts with nobody. */
  lemma FreshPair(c: Control, added: Control, next: int)
    requires next >= 1 && Member(c, next) && added.physicalId == PhysicalIdOf(GeneratedId(next))
    ensures PairHolds(c, added) && PairHolds(added, c)
  {
    hide Kept, Unlinked, OpenQuestion, GeneratedNumber, GeneratedId, Agree;
    NextIsFresh(c, next);
  }

  lemma FreshAppend(controls: seq<Control>, added: Control, next: int)
    requires next >= 1 && Body(controls, next) && |controls| < MAX_CONTROLS && Member(added, next + 1)
    requires added.id == GeneratedId(next) && added.physicalId == PhysicalIdOf(GeneratedId(next)) && added.resolution.Confirmed?
    ensures Body(controls + [added], next + 1)
  {
    hide Member, PairHolds, GeneratedId, Body, Agree;
    forall i | 0 <= i < |controls| ensures PairHolds(controls[i], added) && PairHolds(added, controls[i]) {
      MemberAt(controls, next, i);
      FreshPair(controls[i], added, next);
    }
    MemberIsKept(added, next + 1);
    KeptAgrees(added);
    BodyAppend(controls, added, next);
  }

  /** Cleaning a body with one more raw control at the end. */
  lemma CleanWithOneMore(controls: seq<Control>, raw: Control, added: Control, next: int)
    requires next >= 1 && Body(controls, next) && |controls| < MAX_CONTROLS && Named(raw) && raw.id == GeneratedId(next)
    requires Cleaned(raw) == added
    ensures AllNamed(controls + [raw]) && AllCleaned(controls + [raw]) == controls + [added]
  {
    hide Named, Cleaned, Member, Stable, Body, GeneratedId, PairsHold;
    BodyIsStable(controls, next);
    var more := controls + [raw];
    forall i | 0 <= i < |controls| ensures more[i] == controls[i] && more[i].id != raw.id {
      MemberAt(controls, next, i);
      MemberIsNotNext(controls[i], next);
    }
    assert AllCleaned(more) == AllCleaned(controls) + [added];
  }

  lemma MemberIsNotNext(c: Control, next: int)
    requires next >= 1 && Member(c, next)
    ensures c.id != GeneratedId(next)
  {
    hide Kept, Unlinked, OpenQuestion, GeneratedNumber, GeneratedId;
    NextIsFresh(c, next);
  }

  function WithAdded(d: Document, control: Control): Document {
    d.(started := true, template := Custom, stage := Design, controls := d.controls + [control],
       selectedControl := control.id, selectedChannel := FirstChannelId(control), nextId := d.nextId + 1)
  }

  lemma AddIs(d: Document, kind: Kind, slot: Option<int>)
    requires Sanitize(d) == d
    ensures Add(d, kind, slot) == if |d.controls| >= MAX_CONTROLS then d
                                  else Sanitize(WithAdded(d, Built(AddedSpec(d.controls, kind, slot), d.nextId)))
  {
    hide Sanitize, AddedSpec, Built, FirstChannelId;
  }

  lemma WithAddedKeeps(d: Document, raw: Control, added: Control)
    requires Inv(d) && d.nextId < MAX_SAFE_INTEGER && |d.controls| < MAX_CONTROLS
    requires Named(raw) && raw.id == GeneratedId(d.nextId) && Cleaned(raw) == added
    requires Body(d.controls + [added], d.nextId + 1) && added.resolution.Confirmed?
    ensures var r := Sanitize(WithAdded(d, raw));
      Inv(r) && r.controls == d.controls + [added] && r.nextId == d.nextId + 1 && r.selectedControl == raw.id
  {
    hide Sanitize, Reconcile, Inv, Body, FirstChannelId, AllNamed, AllCleaned, SelectionHolds, GeneratedId, Named, Cleaned, DistinctIds,
      CleanString, HasChannel;
    InvParts(d);
    CleanWithOneMore(d.controls, raw, added, d.nextId);
    ReconcileAppend(d.controls, added);
    SanitizeBody(WithAdded(d, raw));
    MembersAreNamed(d.controls + [added], d.nextId + 1);
    BodyIsDistinct(d.controls + [added], d.nextId + 1);
    SanitizeSelects(WithAdded(d, raw), |d.controls|);
  }

  /** Below the cap, adding grows the document by exactly one control, drops
      none, and selects the new one. */
  lemma AddKeeps(d: Document, kind: Kind, slot: Option<int>)
    requires Inv(d) && d.nextId < MAX_SAFE_INTEGER
    ensures Inv(Add(d, kind, slot))
    ensures |d.controls| >= MAX_CONTROLS ==> Add(d, kind, slot) == d
    ensures |d.controls| < MAX_CONTROLS ==>
      var r, added := Add(d, kind, slot), Final(AddedSpec(d.controls, kind, slot), d.nextId);
      && r.controls == d.controls + [added] && r.nextId == d.nextId + 1 && r.selectedControl == added.id
      && added.id == GeneratedId(d.nextId) && added.physicalId == PhysicalIdOf(added.id)
  {
    hide Sanitize, Add, Reconcile, Inv, Body, AddedSpec, Built, Final, GoodSpec, Member, GeneratedId, FinalChannels, Named, CleanSlot, WithAdded,
      Cleaned;
    InvParts(d);
    AddIs(d, kind, slot);
    if |d.controls| < MAX_CONTROLS {
      var spec := AddedSpec(d.controls, kind, slot);
      var raw, added := Built(spec, d.nextId), Final(spec, d.nextId);
      AddedSpecIsGood(d.controls, kind, slot);
      OwnFinal(spec, d.nextId);
      BuiltIsMember(spec, d.nextId);
      FreshAppend(d.controls, added, d.nextId);
      FinalIs(spec, d.nextId);
      WithAddedKeeps(d, raw, added);
    }
  }

  lemma BodyIsDistinct(controls: seq<Control>, next: int)
    requires Body(controls, next)
    ensures DistinctIds(controls)
  {
    hide Member, PairHolds;
  }

  lemma FinalIs(s: Spec, n: nat)
    ensures Final(s, n) == Cleaned(Built(s, n))
  {
    hide Cleaned, Built;
  }

  // ----- copying

  lemma ClampStays(v: real, high: real)
    requires WholeNumber(v) && WholeNumber(high) && 0.0 <= high
    ensures WholeNumber(Clamp(v, 0.0, high)) && 0.0 <= Clamp(v, 0.0, high) <= high
  {
    IntegersAreWhole(0);
  }

  lemma WholeSum(a: real, b: real)
    requires WholeNumber(a) && WholeNumber(b)
    ensures WholeNumber(a + b)
  {
    assert a + b == (a.Floor + b.Floor) as real;
  }

  lemma CopyFrameIsKept(f: Frame)
    requires SettledFrame(f)
    ensures SettledFrame(Frame(Clamp(f.x + 28000.0, 0.0, BOARD_WIDTH - f.width),
                               Clamp(f.y + 28000.0, 0.0, BOARD_HEIGHT - f.height), f.width, f.height))
  {
    WholeBounds();
    IntegersAreWhole(28000);
    hide Clamp, WholeNumber;
    WholeSum(f.x, 28000.0);
    WholeSum(f.y, 28000.0);
    WholeDifference(BOARD_WIDTH, f.width);
    WholeDifference(BOARD_HEIGHT, f.height);
    ClampStays(f.x + 28000.0, BOARD_WIDTH - f.width);
    ClampStays(f.y + 28000.0, BOARD_HEIGHT - f.height);
  }

  lemma PhysicalNumberedLater(physicalId: string, next: int, later: int)
    requires PhysicalNumbered(physicalId, next) && next <= later
    ensures PhysicalNumbered(physicalId, later)
  {
    hide GeneratedNumber;
  }

  lemma MemberParts(c: Control, next: int)
    requires Member(c, next)
    ensures Named(c) && c.physicalId != "" && Settled(c.physicalId, 128) && c.caption != "" && Settled(c.caption, 64)
    ensures CleanSlot(c.playerSlot) == c.playerSlot && SettledFrame(c.frame) && KeptChannels(c.channels)
    ensures PhysicalNumbered(c.physicalId, next) && Unlinked(c.channels)
    ensures GeneratedNumber(c.id).Some? && GeneratedNumber(c.id).value < next
  {
    hide Named, Settled, CleanSlot, SettledFrame, KeptChannels, PhysicalNumbered, Unlinked, GeneratedNumber;
  }

  lemma MemberFromParts(c: Control, next: int)
    requires Named(c) && c.physicalId != "" && Settled(c.physicalId, 128) && c.caption != "" && Settled(c.caption, 64)
    requires CleanSlot(c.playerSlot) == c.playerSlot && SettledFrame(c.frame) && KeptChannels(c.channels)
    requires PhysicalNumbered(c.physicalId, next) && Unlinked(c.channels) && c.resolution.Confirmed?
    requires GeneratedNumber(c.id).Some? && GeneratedNumber(c.id).value < next
    ensures Member(c, next)
  {
    hide Named, Settled, CleanSlot, SettledFrame, KeptChannels, PhysicalNumbered, Unlinked, GeneratedNumber;
  }

  lemma GeneratedIsNumbered(n: nat)
    requires 1 <= n < MAX_SAFE_INTEGER
    ensures GeneratedNumber(GeneratedId(n)) == Some(n) && PhysicalNumbered(PhysicalIdOf(GeneratedId(n)), n + 1)
    ensures PhysicalIdOf(GeneratedId(n)) != "" && Settled(PhysicalIdOf(GeneratedId(n)), 128)
    ensures forall c: Control | c.id == GeneratedId(n) :: Named(c)
  {
    assert |GeneratedId(n)| > 0;
    hide Settled, GeneratedNumber, GeneratedId, Forbidden;
    GeneratedIdIsClean(n);
    GeneratedNumberOf(n);
    assert |PhysicalIdOf(GeneratedId(n))| > 0;
  }

  lemma CopyIsMember(source: Control, mode: Mode, next: int)
    requires Member(source, next) && source.resolution.Confirmed? && 1 <= next < MAX_SAFE_INTEGER
    ensures Member(CopyOf(source, mode, next), next + 1)
  {
    hide Member, Settled, SettledFrame, KeptChannels, Unlinked, GeneratedNumber, GeneratedId, PhysicalIdOf, PhysicalNumbered, Clamp, Named, CleanSlot;
    MemberParts(source, next);
    CopyFrameIsKept(source.frame);
    GeneratedIsNumbered(next);
    PhysicalNumberedLater(source.physicalId, next, next + 1);
    MemberFromParts(CopyOf(source, mode, next), next + 1);
  }

  /** A mirror of a control conflicts with nobody its source did not. */
  lemma MirrorPair(controls: seq<Control>, i: nat, k: nat, copy: Control, next: int)
    requires Body(controls, next) && i < |controls| && k < |controls| && controls[k].resolution.Confirmed?
    requires copy.physicalId == controls[k].physicalId && copy.channels == controls[k].channels && copy.resolution.Confirmed?
    ensures PairHolds(controls[i], copy) && PairHolds(copy, controls[i])
    ensures controls[i].physicalId == controls[k].physicalId ==> controls[i].resolution.Confirmed?
  {
    PairAt(controls, next, i, k);
    PairAt(controls, next, k, i);
    hide Body, Agree;
  }

  lemma MirrorAppend(controls: seq<Control>, k: nat, copy: Control, next: int)
    requires 1 <= next < MAX_SAFE_INTEGER && Body(controls, next) && |controls| < MAX_CONTROLS
    requires k < |controls| && controls[k].resolution.Confirmed? && Member(copy, next + 1) && copy.id == GeneratedId(next)
    requires copy.physicalId == controls[k].physicalId && copy.channels == controls[k].channels && copy.resolution.Confirmed?
    ensures Body(controls + [copy], next + 1)
  {
    hide Member, PairHolds, GeneratedId, Body, Agree;
    forall i | 0 <= i < |controls| ensures PairHolds(controls[i], copy) && PairHolds(copy, controls[i]) {
      MirrorPair(controls, i, k, copy, next);
    }
    MemberIsKept(copy, next + 1);
    KeptAgrees(copy);
    BodyAppend(controls, copy, next);
  }

  lemma CopyIds(source: Control, mode: Mode, n: nat)
    ensures var copy := CopyOf(source, mode, n);
      copy.id == GeneratedId(n) && copy.resolution.Confirmed? && copy.channels == source.channels
      && copy.physicalId == if mode.Mirror? then source.physicalId else PhysicalIdOf(GeneratedId(n))
  {
    hide GeneratedId, Clamp;
  }

  lemma CopyAppend(controls: seq<Control>, k: nat, mode: Mode, next: int)
    requires 1 <= next < MAX_SAFE_INTEGER && Body(controls, next) && |controls| < MAX_CONTROLS
    requires k < |controls| && controls[k].resolution.Confirmed?
    ensures Body(controls + [CopyOf(controls[k], mode, next)], next + 1)
    ensures Member(CopyOf(controls[k], mode, next), next + 1)
  {
    var copy := CopyOf(controls[k], mode, next);
    hide Member, GeneratedId, PhysicalIdOf, Body, CopyOf;
    MemberAt(controls, next, k);
    CopyIsMember(controls[k], mode, next);
    CopyIds(controls[k], mode, next);
    if mode.Duplicate? {
      FreshAppend(controls, copy, next);
    } else {
      MirrorAppend(controls, k, copy, next);
    }
  }

  /** Every view of a confirmed control's switch is confirmed already. */
  lemma NothingToAnswer(controls: seq<Control>, k: nat, mode: Mode, next: int)
    requires Body(controls, next) && k < |controls| && controls[k].resolution.Confirmed?
    ensures Each(controls, c => Answered(c, controls[k], mode)) == controls
  {
    hide Member, Body, PairHolds;
    forall i | 0 <= i < |controls| ensures Answered(controls[i], controls[k], mode) == controls[i] {
      MirrorPair(controls, i, k, controls[k], next);
    }
  }

  function WithCopied(d: Document, source: Control, mode: Mode, control: Control): Document {
    d.(template := Custom, controls := Each(d.controls, c => Answered(c, source, mode)) + [control],
       selectedControl := control.id, selectedChannel := FirstChannelId(control), nextId := d.nextId + 1)
  }

  predicate Copies(d: Document, id: string) {
    FindControl(d.controls, id).Some? && FindControl(d.controls, id).value.resolution.Confirmed? && |d.controls| < MAX_CONTROLS
  }

  lemma CopyIs(d: Document, id: string, mode: Mode)
    requires Sanitize(d) == d
    ensures Copy(d, id, mode) == if !Copies(d, id) then d else
      var source := FindControl(d.controls, id).value;
      Sanitize(WithCopied(d, source, mode, CopyOf(source, mode, d.nextId)))
  {
    hide Sanitize, CopyOf, FirstChannelId, Answered;
  }

  lemma WithCopiedKeeps(d: Document, k: nat, mode: Mode, copy: Control)
    requires Inv(d) && d.nextId < MAX_SAFE_INTEGER && k < |d.controls| < MAX_CONTROLS && d.controls[k].resolution.Confirmed?
    requires Body(d.controls + [copy], d.nextId + 1) && copy.resolution.Confirmed?
    ensures var r := Sanitize(WithCopied(d, d.controls[k], mode, copy));
      Inv(r) && r.controls == d.controls + [copy] && r.nextId == d.nextId + 1 && r.selectedControl == copy.id
  {
    hide Sanitize, Reconcile, Inv, Body, FirstChannelId, AllNamed, AllCleaned, SelectionHolds, Answered, DistinctIds, CleanString, HasChannel,
      Stable;
    InvParts(d);
    var more := d.controls + [copy];
    NothingToAnswer(d.controls, k, mode, d.nextId);
    ReconcileAppend(d.controls, copy);
    var next := WithCopied(d, d.controls[k], mode, copy);
    SanitizeCleanBody(next);
    BodyIsStable(more, next.nextId);
    MembersAreNamed(more, next.nextId);
    BodyIsDistinct(more, next.nextId);
    SanitizeSelects(next, |d.controls|);
  }

  /** Below the cap, copying a resolved control grows the document by exactly
      that copy, changes no other control, and selects the copy. */
  lemma CopyKeeps(d: Document, id: string, mode: Mode)
    requires Inv(d) && d.nextId < MAX_SAFE_INTEGER
    ensures Inv(Copy(d, id, mode))
    ensures var r, found := Copy(d, id, mode), FindControl(d.controls, id);
      if Copies(d, id)
      then r.controls == d.controls + [CopyOf(found.value, mode, d.nextId)] && r.nextId == d.nextId + 1
           && r.selectedControl == GeneratedId(d.nextId)
      else r == d
  {
    hide Sanitize, Reconcile, Inv, Body, CopyOf, GeneratedId, Copy, WithCopied, Member;
    InvParts(d);
    CopyIs(d, id, mode);
    if Copies(d, id) {
      var k := FoundIsOne(d.controls, id);
      CopyAppend(d.controls, k, mode, d.nextId);
      CopyIds(d.controls[k], mode, d.nextId);
      WithCopiedKeeps(d, k, mode, CopyOf(d.controls[k], mode, d.nextId));
    }
  }

  // ----- teaching

  /** Once taught, a control of the switch claims the key on the channel. */
  lemma TaughtChannelIsClean(c: Channel, channel: string, key: string, device: string)
    requires KeptChannel(c) && c.encoder.None? && CleanString(key, 96) != ""
    ensures NamedChannel(TaughtChannel(c, channel, key, device)) && TaughtChannel(c, channel, key, device).id == c.id
    ensures CleanedChannel(TaughtChannel(c, channel, key, device))
         == TaughtChannel(c, channel, CleanString(key, 96), CleanString(device, 240))
    ensures Settled(key, 96) && Settled(device, 240) ==> KeptChannel(TaughtChannel(c, channel, key, device))
    ensures TaughtChannel(c, channel, key, device).encoder.None?
  {
    hide CleanString, Forbidden, Settled;
    SettledMeans(c.id, 32);
    SettledMeans(key, 96);
    SettledMeans(device, 240);
  }

  /** Teaching with text that settles when cleaned once more. */
  predicate Teachable(key: string, device: string) {
    && CleanString(key, 96) != "" && Settled(CleanString(key, 96), 96) && Settled(CleanString(device, 240), 240)
  }

  function TaughtChannels(channels: seq<Channel>, channel: string, key: string, device: string): seq<Channel> {
    EachChannel(channels, ch => TaughtChannel(ch, channel, key, device))
  }

  lemma TaughtChannelsAreClean(channels: seq<Channel>, channel: string, key: string, device: string)
    requires KeptChannels(channels) && Unlinked(channels) && Teachable(key, device)
    ensures var taught, final := TaughtChannels(channels, channel, key, device),
                                 TaughtChannels(channels, channel, CleanString(key, 96), CleanString(device, 240));
      NamedChannels(taught) && CleanedChannels(taught) == final && KeptChannels(final) && Unlinked(final)
  {
    hide KeptChannel, NamedChannel, CleanedChannel, TaughtChannel, CleanString, Settled;
    var k, v := CleanString(key, 96), CleanString(device, 240);
    var taught, final := TaughtChannels(channels, channel, key, device), TaughtChannels(channels, channel, k, v);
    SettledMeans(k, 96);
    forall i | 0 <= i < |channels|
      ensures NamedChannel(taught[i]) && CleanedChannel(taught[i]) == final[i] && KeptChannel(final[i])
      ensures taught[i].id == channels[i].id && final[i].id == channels[i].id && final[i].encoder.None?
    {
      TaughtChannelIsClean(channels[i], channel, key, device);
      TaughtChannelIsClean(channels[i], channel, k, v);
    }
  }

  lemma TaughtIsClean(c: Control, physicalId: string, channel: string, key: string, device: string, next: int)
    requires Member(c, next) && Teachable(key, device)
    ensures var taught, final := Taught(c, physicalId, channel, key, device),
                                 Taught(c, physicalId, channel, CleanString(key, 96), CleanString(device, 240));
      Named(taught) && taught.id == c.id && Cleaned(taught) == final && Member(final, next)
  {
    hide Member, KeptChannels, Unlinked, CleanString, Settled, SettledFrame, Named, Cleaned, Teachable, CleanSlot, TaughtChannels, NamedChannels,
      CleanedChannels, CleanChannels;
    MemberParts(c, next);
    MemberIsKept(c, next);
    KeptIsCleaned(c);
    if c.physicalId == physicalId {
      var k, v := CleanString(key, 96), CleanString(device, 240);
      TaughtChannelsAreClean(c.channels, channel, key, device);
      TaughtUnfolds(c, physicalId, channel, key, device);
      TaughtUnfolds(c, physicalId, channel, k, v);
      var taught, final := Taught(c, physicalId, channel, key, device), Taught(c, physicalId, channel, k, v);
      NamedAgain(c, taught);
      CleanedShape(c);
      CleanedShape(taught);
      NamedChannelsAreCleaned(taught.channels, c.kind);
      OtherChannelsMember(c, final, next);
    }
  }

  lemma TaughtUnfolds(c: Control, physicalId: string, channel: string, key: string, device: string)
    ensures Taught(c, physicalId, channel, key, device)
         == if c.physicalId == physicalId then c.(channels := TaughtChannels(c.channels, channel, key, device)) else c
  {
    hide TaughtChannel;
  }

  /** Replacing the channels of a member, one for one. */
  lemma OtherChannelsMember(c: Control, d: Control, next: int)
    requires Member(c, next) && d == c.(channels := d.channels) && |d.channels| == |c.channels|
    requires KeptChannels(d.channels) && Unlinked(d.channels)
    ensures Member(d, next)
  {
    hide KeptChannels, Unlinked, Settled, SettledFrame, GeneratedNumber, PhysicalNumbered, Forbidden;
  }

  lemma SameClaimTaught(a: Channel, b: Channel, channel: string, key: string, device: string)
    requires SameClaim(a, b)
    ensures SameClaim(TaughtChannel(a, channel, key, device), TaughtChannel(b, channel, key, device))
  {
  }

  /** Teaching a switch keeps its views in agreement and leaves other pairs. */
  lemma TaughtPair(a: Control, b: Control, physicalId: string, channel: string, key: string, device: string)
    requires PairHolds(a, b)
    ensures PairHolds(Taught(a, physicalId, channel, key, device), Taught(b, physicalId, channel, key, device))
  {
    hide SameClaim, TaughtChannel;
    var s, t := Taught(a, physicalId, channel, key, device), Taught(b, physicalId, channel, key, device);
    if s.physicalId == t.physicalId {
      forall i, j | 0 <= i < |s.channels| && 0 <= j < |t.channels| ensures SameClaim(s.channels[i], t.channels[j]) {
        assert SameClaim(a.channels[i], b.channels[j]);
        SameClaimTaught(a.channels[i], b.channels[j], channel, key, device);
      }
    }
  }

  predicate Teaches(d: Document, id: string, channel: string, key: string) {
    && CleanString(key, 96) != "" && FindControl(d.controls, id).Some?
    && HasChannel(FindControl(d.controls, id).value.channels, channel)
  }

  /** The controls after teaching, before the text is cleaned a last time. */
  function AllTaught(controls: seq<Control>, physicalId: string, channel: string, key: string, device: string): (r: seq<Control>)
    ensures |r| == |controls|
    ensures forall i | 0 <= i < |r| :: r[i] == Taught(controls[i], physicalId, channel, key, device)
  {
    Each(controls, c => Taught(c, physicalId, channel, key, device))
  }

  lemma TeachIs(d: Document, id: string, channel: string, key: string, device: string)
    requires Sanitize(d) == d
    ensures Teach(d, id, channel, key, device) == if !Teaches(d, id, channel, key) then d else
      Sanitize(d.(controls := AllTaught(d.controls, FindControl(d.controls, id).value.physicalId, channel,
                                        CleanString(key, 96), CleanString(device, 240)),
                  selectedControl := id, selectedChannel := channel))
  {
    hide Sanitize, CleanString, HasChannel, Taught;
  }

  lemma AllTaughtIsBody(controls: seq<Control>, physicalId: string, channel: string, key: string, device: string, next: int)
    requires Body(controls, next) && Teachable(key, device)
    ensures var taught, final := AllTaught(controls, physicalId, channel, key, device),
                                 AllTaught(controls, physicalId, channel, CleanString(key, 96), CleanString(device, 240));
      AllNamed(taught) && AllCleaned(taught) == final && Body(final, next)
  {
    hide Taught, Member, PairHolds, Named, Cleaned, CleanString, Teachable, AllTaught;
    var k, v := CleanString(key, 96), CleanString(device, 240);
    var taught, final := AllTaught(controls, physicalId, channel, key, device), AllTaught(controls, physicalId, channel, k, v);
    forall i | 0 <= i < |controls|
      ensures Named(taught[i]) && taught[i].id == controls[i].id && Cleaned(taught[i]) == final[i] && Member(final[i], next)
      ensures final[i].id == controls[i].id
    {
      TaughtIsClean(controls[i], physicalId, channel, key, device, next);
      TaughtKeepsId(controls[i], physicalId, channel, k, v);
    }
    forall i, j | 0 <= i < |controls| && 0 <= j < |controls| ensures PairHolds(final[i], final[j]) {
      TaughtPair(controls[i], controls[j], physicalId, channel, k, v);
    }
    assert AllCleaned(taught) == final;
  }

  lemma TaughtKeepsId(c: Control, physicalId: string, channel: string, key: string, device: string)
    ensures Taught(c, physicalId, channel, key, device).id == c.id
  {
  }

  /** Teaching one switch writes the key to that channel of every view of the
      switch and touches no other control, except that a question it answers
      is closed. */
  lemma TeachKeeps(d: Document, id: string, channel: string, key: string, device: string)
    requires Inv(d)
    ensures Inv(Teach(d, id, channel, key, device)) && Teach(d, id, channel, key, device).nextId == d.nextId
    ensures Teach(d, id, channel, key, device).controls
         == if !Teaches(d, id, channel, key) then d.controls else
            Reconcile(AllTaught(d.controls, FindControl(d.controls, id).value.physicalId, channel,
                                CleanString(CleanString(key, 96), 96), CleanString(CleanString(device, 240), 240)))
  {
    hide Sanitize, Reconcile, Inv, Body, CleanString, Settled, AllTaught, Teach, AllNamed, AllCleaned, HasChannel;
    InvParts(d);
    TeachIs(d, id, channel, key, device);
    if Teaches(d, id, channel, key) {
      var physicalId, once, device1 := FindControl(d.controls, id).value.physicalId, CleanString(key, 96), CleanString(device, 240);
      OnceIsTeachable(d, id, channel, key, device);
      AllTaughtIsBody(d.controls, physicalId, channel, once, device1, d.nextId);
      SanitizeBody(d.(controls := AllTaught(d.controls, physicalId, channel, once, device1),
                      selectedControl := id, selectedChannel := channel));
    }
  }

  lemma TaughtFields(c: Control, physicalId: string, channel: string, key: string, device: string)
    ensures var r := Taught(c, physicalId, channel, key, device);
      && |r.channels| == |c.channels| && r == c.(channels := r.channels)
      && forall m | 0 <= m < |c.channels| ::
           r.channels[m] == if c.physicalId == physicalId && c.channels[m].id == channel
                            then c.channels[m].(input := Keyboard(key, device), deviceUnverified := false) else c.channels[m]
  {
  }

  /** What teaching writes: on every view of the selected control's switch, the
      channel of that identity claims the cleaned key from the cleaned device,
      unmarked; all other channels of all controls stay as they are, and so do
      all other parts but answered questions. */
  lemma TeachWrites(d: Document, k: nat, m: nat, key: string, device: string, i: nat)
    requires Inv(d) && k < |d.controls| && m < |d.controls[k].channels| && CleanString(key, 96) != "" && i < |d.controls|
    ensures var selected, c := d.controls[k], d.controls[i];
      var channel := selected.channels[m].id;
      var r := Teach(d, selected.id, channel, key, device);
      && |r.controls| == |d.controls| && |r.controls[i].channels| == |c.channels|
      && r.controls[i] == c.(channels := r.controls[i].channels, resolution := r.controls[i].resolution)
      && (r.controls[i].resolution == c.resolution || r.controls[i].resolution == Confirmed)
      && forall n | 0 <= n < |c.channels| ::
           r.controls[i].channels[n] ==
             if c.physicalId == selected.physicalId && c.channels[n].id == channel
             then c.channels[n].(input := Keyboard(CleanString(CleanString(key, 96), 96), CleanString(CleanString(device, 240), 240)),
                                 deviceUnverified := false)
             else c.channels[n]
  {
    hide Inv, Teach, CleanString, Taught, KeyboardKeys, Body;
    InvParts(d);
    BodyIsDistinct(d.controls, d.nextId);
    FindOnly(d.controls, k);
    var selected := d.controls[k];
    var channel := selected.channels[m].id;
    assert HasChannel(selected.channels, channel);
    TeachKeeps(d, selected.id, channel, key, device);
    TaughtFields(d.controls[i], selected.physicalId, channel, CleanString(CleanString(key, 96), 96), CleanString(CleanString(device, 240), 240));
  }

  /** Blank keys, unknown controls and unknown channels teach nothing. */
  lemma TeachRefuses(d: Document, id: string, channel: string, key: string, device: string)
    requires Inv(d)
    requires CleanString(key, 96) == "" || forall k, m | 0 <= k < |d.controls| && 0 <= m < |d.controls[k].channels| ::
      d.controls[k].id != id || d.controls[k].channels[m].id != channel
    ensures Teach(d, id, channel, key, device) == d
  {
    hide Inv, Teach, CleanString, Body, Sanitize, AllTaught;
    InvParts(d);
    TeachIs(d, id, channel, key, device);
    if FindControl(d.controls, id).Some? {
      var k := FoundIsOne(d.controls, id);
    }
  }

  /** Control `i` shares its signal with open question `k` alone, and the new
      key is none of its own. */
  ghost predicate LosesLastPeer(controls: seq<Control>, i: nat, k: nat, key: string)
    requires i < |controls| && k < |controls|
  {
    && controls[i].resolution.Unresolved? && controls[k].resolution.Unresolved?
    && key !in KeyboardKeys(controls[i])
    && forall j | 0 <= j < |controls| && IsPeer(controls[j], controls[i]) :: j == k
  }

  /** A taught open question carries the new key and nothing else. */
  lemma TaughtQuestion(c: Control, channel: string, key: string, device: string, next: int)
    requires Member(c, next) && c.resolution.Unresolved? && HasChannel(c.channels, channel)
    ensures KeyboardKeys(Taught(c, c.physicalId, channel, key, device)) == {key}
  {
    MemberIsOpen(c, next);
    hide Member;
    OneKey(Taught(c, c.physicalId, channel, key, device), key);
  }

  /** The peers a control of another switch has after the teaching. */
  lemma PeersAfterTeaching(controls: seq<Control>, next: int, i: nat, k: nat, channel: string, key: string, device: string)
    requires Body(controls, next) && i < |controls| && k < |controls|
    requires controls[i].physicalId != controls[k].physicalId && HasChannel(controls[k].channels, channel)
    ensures HasPeer(AllTaught(controls, controls[k].physicalId, channel, key, device), controls[i])
       <==> (exists j | 0 <= j < |controls| :: j != k && IsPeer(controls[j], controls[i]))
            || (controls[k].resolution.Unresolved? && key in KeyboardKeys(controls[i]))
  {
    hide Member, Body, KeyboardKeys, Taught, HasChannel;
    var taught := AllTaught(controls, controls[k].physicalId, channel, key, device);
    forall j | 0 <= j < |controls|
      ensures IsPeer(taught[j], controls[i]) <==>
        if j == k then controls[k].resolution.Unresolved? && key in KeyboardKeys(controls[i]) else IsPeer(controls[j], controls[i])
    {
      PeerAfterTeaching(controls, next, i, k, channel, key, device, j);
    }
  }

  lemma PeerAfterTeaching(controls: seq<Control>, next: int, i: nat, k: nat, channel: string, key: string, device: string, j: nat)
    requires Body(controls, next) && i < |controls| && k < |controls| && j < |controls|
    requires controls[i].physicalId != controls[k].physicalId && HasChannel(controls[k].channels, channel)
    ensures IsPeer(Taught(controls[j], controls[k].physicalId, channel, key, device), controls[i]) <==>
      if j == k then controls[k].resolution.Unresolved? && key in KeyboardKeys(controls[i]) else IsPeer(controls[j], controls[i])
  {
    hide Member, Body, KeyboardKeys, HasChannel, TaughtChannel;
    if j == k {
      PairAt(controls, next, k, i);
      if controls[k].resolution.Unresolved? {
        MemberAt(controls, next, k);
        TaughtQuestion(controls[k], channel, key, device, next);
        assert {key} * KeyboardKeys(controls[i]) == if key in KeyboardKeys(controls[i]) then {key} else {};
        TaughtKeepsId(controls[k], controls[k].physicalId, channel, key, device);
      }
    } else if controls[j].physicalId == controls[k].physicalId && controls[j].resolution.Unresolved? {
      AloneOnSwitch(controls, j, k, next);
    }
  }

  /** Teaching one switch leaves every control of another switch as it is, but
      that it confirms an open question whose last peer it takes away. */
  lemma TeachTouchesOneSwitchIff(d: Document, id: string, channel: string, key: string, device: string, k: nat, i: nat)
    requires Inv(d) && Teaches(d, id, channel, key) && k < |d.controls| && d.controls[k] == FindControl(d.controls, id).value
    requires i < |d.controls| && d.controls[i].physicalId != d.controls[k].physicalId
    ensures var r, c := Teach(d, id, channel, key, device).controls, d.controls[i];
      && |r| == |d.controls|
      && r[i] == (if LosesLastPeer(d.controls, i, k, CleanString(CleanString(key, 96), 96)) then c.(resolution := Confirmed) else c)
      && (r[i] != c <==> LosesLastPeer(d.controls, i, k, CleanString(CleanString(key, 96), 96)))
  {
    hide Inv, Teach, CleanString, HasChannel, TaughtChannel, KeyboardKeys, Body;
    TeachKeeps(d, id, channel, key, device);
    InvParts(d);
    var k2, v2 := CleanString(CleanString(key, 96), 96), CleanString(CleanString(device, 240), 240);
    PeersAfterTeaching(d.controls, d.nextId, i, k, channel, k2, v2);
    assert Reconcile(d.controls)[i] == d.controls[i];
  }

  lemma OnceIsTeachable(d: Document, id: string, channel: string, key: string, device: string)
    requires Teaches(d, id, channel, key)
    ensures Teachable(CleanString(key, 96), CleanString(device, 240))
  {
    hide CleanString, Settled, HasChannel;
    CleanTwiceSettles(key, 96);
    CleanTwiceSettles(device, 240);
  }

  // ----- resolving a shared signal

  lemma ClaimLikeIsKept(c: Channel, chosen: Channel, key: string)
    requires KeptChannel(c) && c.encoder.None? && KeptChannel(chosen)
    ensures KeptChannel(ClaimLike(c, chosen, key)) && ClaimLike(c, chosen, key).id == c.id && ClaimLike(c, chosen, key).encoder.None?
  {
    hide CleanString;
  }

  lemma ClaimsLikeAreKept(channels: seq<Channel>, chosen: Channel, key: string)
    requires KeptChannels(channels) && Unlinked(channels) && KeptChannel(chosen)
    ensures var r := EachChannel(channels, ch => ClaimLike(ch, chosen, key)); KeptChannels(r) && Unlinked(r)
  {
    hide KeptChannel, ClaimLike;
    forall i | 0 <= i < |channels|
      ensures var c := ClaimLike(channels[i], chosen, key); KeptChannel(c) && c.id == channels[i].id && c.encoder.None?
    {
      ClaimLikeIsKept(channels[i], chosen, key);
    }
  }

  /** An open question that is answered becomes a confirmed view: of its own
      switch, or of the selected control's. */
  lemma ResolvedIsMember(c: Control, selected: Control, chosen: Channel, key: string, mode: Mode, next: int)
    requires Member(c, next) && Member(selected, next) && KeptChannel(chosen)
    ensures Member(ResolvedControl(c, selected, chosen, key, mode), next)
    ensures ResolvedControl(c, selected, chosen, key, mode).id == c.id
    ensures mode.Duplicate? ==> ResolvedControl(c, selected, chosen, key, mode) == if Flagged(c, key) then c.(resolution := Confirmed) else c
  {
    hide Member, Settled, SettledFrame, KeptChannels, Unlinked, GeneratedNumber, PhysicalNumbered, Named, CleanSlot, Carries, KeptChannel, ClaimLike;
    MemberParts(c, next);
    MemberParts(selected, next);
    MemberIsOpen(c, next);
    if Flagged(c, key) {
      ClaimsLikeAreKept(c.channels, chosen, key);
      var r := ResolvedControl(c, selected, chosen, key, mode);
      NamedAgain(c, r);
      MemberFromParts(r, next);
    }
  }

  lemma MemberIsOpen(c: Control, next: int)
    requires Member(c, next)
    ensures OpenQuestion(c)
  {
    hide Kept, Numbered, Unlinked, OpenQuestion;
  }

  /** Answers of "separate switches" keep every pair. */
  lemma DuplicatePair(a: Control, b: Control, c: Control, d: Control)
    requires PairHolds(a, b) && (c == a || c == a.(resolution := Confirmed)) && (d == b || d == b.(resolution := Confirmed))
    ensures PairHolds(c, d)
  {
    hide Agree;
  }

  /** A flagged control of one channel, answered as a mirror, claims what was
      chosen and nothing else. */
  lemma MirroredChannels(c: Control, chosen: Channel, key: string)
    requires Carries(c, key) && |c.channels| == 1 && chosen.input.Keyboard? && KeptChannel(chosen)
    ensures var r := EachChannel(c.channels, ch => ClaimLike(ch, chosen, key));
      |r| == 1 && r[0].input == chosen.input && r[0].deviceUnverified == chosen.deviceUnverified
  {
    hide KeptChannel;
  }

  lemma MirroredAgree(a: Control, b: Control, chosen: Channel, key: string)
    requires Carries(a, key) && |a.channels| == 1 && Carries(b, key) && |b.channels| == 1
    requires chosen.input.Keyboard? && KeptChannel(chosen)
    ensures Agree(EachChannel(a.channels, ch => ClaimLike(ch, chosen, key)), EachChannel(b.channels, ch => ClaimLike(ch, chosen, key)))
  {
    hide KeptChannel, Carries, ClaimLike;
    MirroredChannels(a, chosen, key);
    MirroredChannels(b, chosen, key);
  }

  /** The controls after resolving, before reconciling. */
  function AllResolved(controls: seq<Control>, selected: Control, chosen: Channel, mode: Mode): (r: seq<Control>)
    requires chosen.input.Keyboard?
    ensures |r| == |controls|
    ensures forall i | 0 <= i < |r| :: r[i] == ResolvedControl(controls[i], selected, chosen, chosen.input.key, mode)
  {
    Each(controls, c => ResolvedControl(c, selected, chosen, chosen.input.key, mode))
  }

  /** The channel a resolution speaks about, when there is something to resolve. */
  function Question(d: Document, id: string, channel: string): Option<Channel> {
    match FindControl(d.controls, id)
    case None => None
    case Some(selected) =>
      match ChosenChannel(selected, channel)
      case None => None
      case Some(chosen) =>
        if chosen.input.Unassigned? || CountFlagged(d.controls, chosen.input.key) < 2 then None else Some(chosen)
  }

  lemma QuestionSpec(d: Document, id: string, channel: string) returns (k: nat)
    requires Question(d, id, channel).Some?
    ensures FindControl(d.controls, id).Some? && k < |d.controls| && d.controls[k] == FindControl(d.controls, id).value
    ensures Question(d, id, channel).value in d.controls[k].channels && Question(d, id, channel).value.input.Keyboard?
    ensures Carries(d.controls[k], Question(d, id, channel).value.input.key)
  {
    k := FoundIsOne(d.controls, id);
    var chosen := Question(d, id, channel).value;
    var i :| 0 <= i < |d.controls[k].channels| && d.controls[k].channels[i] == chosen;
    hide CountFlagged;
  }

  lemma ResolveIs(d: Document, id: string, channel: string, mode: Mode)
    requires Sanitize(d) == d
    ensures Resolve(d, id, channel, mode) == if Question(d, id, channel).None? then d else
      Sanitize(d.(template := Custom,
                  controls := AllResolved(d.controls, FindControl(d.controls, id).value, Question(d, id, channel).value, mode)))
  {
    hide Sanitize, CountFlagged, ResolvedControl;
  }

  /** Nobody but a selected open question is on its switch. */
  lemma AloneOnSwitch(controls: seq<Control>, k: nat, i: nat, next: int)
    requires Body(controls, next) && k < |controls| && i < |controls| && controls[k].resolution.Unresolved?
    requires controls[i].physicalId == controls[k].physicalId
    ensures i == k
  {
    PairAt(controls, next, k, i);
    hide Body, Agree;
  }

  lemma ResolvedUnfolds(c: Control, selected: Control, chosen: Channel, key: string)
    requires Flagged(c, key)
    ensures ResolvedControl(c, selected, chosen, key, Mirror)
         == c.(physicalId := selected.physicalId, resolution := Confirmed,
               channels := EachChannel(c.channels, ch => ClaimLike(ch, chosen, key)))
  {
    hide ClaimLike, Carries;
  }

  lemma FlaggedHasOneChannel(c: Control, key: string, next: int)
    requires Member(c, next) && Flagged(c, key)
    ensures |c.channels| == 1 && Carries(c, key)
  {
    MemberIsOpen(c, next);
    hide Member, Carries;
  }

  /** Two answered mirrors agree. */
  lemma MirroredPair(a: Control, b: Control, selected: Control, chosen: Channel, next: int)
    requires Member(a, next) && Member(b, next) && chosen.input.Keyboard? && KeptChannel(chosen)
    requires Flagged(a, chosen.input.key) && Flagged(b, chosen.input.key)
    ensures PairHolds(ResolvedControl(a, selected, chosen, chosen.input.key, Mirror),
                      ResolvedControl(b, selected, chosen, chosen.input.key, Mirror))
  {
    hide Member, KeptChannel, Flagged, Carries, Agree, ClaimLike, ResolvedControl;
    var key := chosen.input.key;
    FlaggedHasOneChannel(a, key, next);
    FlaggedHasOneChannel(b, key, next);
    ResolvedUnfolds(a, selected, chosen, key);
    ResolvedUnfolds(b, selected, chosen, key);
    MirroredAgree(a, b, chosen, key);
  }

  /** What the chosen channel must not contradict: the claim of a channel that
      a mirrored peer has too. */
  ghost predicate Compatible(peer: Control, b: Control, chosen: Channel) {
    forall i, j | 0 <= i < |peer.channels| && 0 <= j < |b.channels| && peer.channels[i].id == b.channels[j].id ::
      b.channels[j].input == chosen.input && b.channels[j].deviceUnverified == chosen.deviceUnverified
  }

  lemma MirroredAgainst(peer: Control, b: Control, chosen: Channel, key: string)
    requires Carries(peer, key) && |peer.channels| == 1 && chosen.input.Keyboard? && KeptChannel(chosen)
    ensures var r := EachChannel(peer.channels, ch => ClaimLike(ch, chosen, key));
      && (Agree(r, b.channels) <==> Compatible(peer, b, chosen))
      && (Agree(b.channels, r) <==> Compatible(peer, b, chosen))
  {
    hide KeptChannel;
    MirroredChannels(peer, chosen, key);
    var r := EachChannel(peer.channels, ch => ClaimLike(ch, chosen, key));
    assert r[0].id == peer.channels[0].id;
    if Agree(r, b.channels) {
      forall j | 0 <= j < |b.channels| && peer.channels[0].id == b.channels[j].id
        ensures b.channels[j].input == chosen.input && b.channels[j].deviceUnverified == chosen.deviceUnverified
      {
        assert SameClaim(r[0], b.channels[j]);
      }
    }
    if Agree(b.channels, r) {
      forall j | 0 <= j < |b.channels| && peer.channels[0].id == b.channels[j].id
        ensures b.channels[j].input == chosen.input && b.channels[j].deviceUnverified == chosen.deviceUnverified
      {
        assert SameClaim(b.channels[j], r[0]);
      }
    }
  }

  /** A mirrored peer against a control left as it is. */
  lemma MirroredBeside(peer: Control, b: Control, selected: Control, chosen: Channel, next: int)
    requires Member(peer, next) && chosen.input.Keyboard? && KeptChannel(chosen)
    requires Flagged(peer, chosen.input.key)
    ensures var r := ResolvedControl(peer, selected, chosen, chosen.input.key, Mirror);
      && (PairHolds(r, b) <==> (b.physicalId == selected.physicalId ==> Compatible(peer, b, chosen)))
      && (PairHolds(b, r) <==> (b.physicalId == selected.physicalId ==>
            Compatible(peer, b, chosen) && (b.id != peer.id ==> b.resolution.Confirmed?)))
  {
    hide Member, KeptChannel, Flagged, Carries, Agree, ClaimLike, ResolvedControl, Compatible;
    FlaggedHasOneChannel(peer, chosen.input.key, next);
    ResolvedUnfolds(peer, selected, chosen, chosen.input.key);
    MirroredAgainst(peer, b, chosen, chosen.input.key);
  }

  /** The pairs after a mirror resolution whose selected control is flagged. */
  lemma MirrorKeepsPair(controls: seq<Control>, k: nat, chosen: Channel, next: int, i: nat, j: nat)
    requires Body(controls, next) && k < |controls| && chosen.input.Keyboard? && KeptChannel(chosen)
    requires Flagged(controls[k], chosen.input.key) && i < |controls| && j < |controls|
    ensures PairHolds(ResolvedControl(controls[i], controls[k], chosen, chosen.input.key, Mirror),
                      ResolvedControl(controls[j], controls[k], chosen, chosen.input.key, Mirror))
  {
    hide Body, Member, PairHolds, KeptChannel, Carries, Compatible;
    var key, selected := chosen.input.key, controls[k];
    MemberAt(controls, next, i);
    MemberAt(controls, next, j);
    if Flagged(controls[i], key) && Flagged(controls[j], key) {
      MirroredPair(controls[i], controls[j], selected, chosen, next);
    } else if Flagged(controls[i], key) {
      MirroredBeside(controls[i], controls[j], selected, chosen, next);
      if controls[j].physicalId == selected.physicalId {
        AloneOnSwitch(controls, k, j, next);
      }
    } else if Flagged(controls[j], key) {
      MirroredBeside(controls[j], controls[i], selected, chosen, next);
      if controls[i].physicalId == selected.physicalId {
        AloneOnSwitch(controls, k, i, next);
      }
    } else {
      PairAt(controls, next, i, j);
    }
  }

  /** Views of a settled switch are settled. */
  lemma SettledSwitch(controls: seq<Control>, k: nat, i: nat, next: int, key: string)
    requires Body(controls, next) && k < |controls| && i < |controls| && controls[k].resolution.Confirmed?
    requires controls[i].physicalId == controls[k].physicalId
    ensures controls[i].resolution.Confirmed? && !Flagged(controls[i], key)
  {
    PairAt(controls, next, i, k);
    hide Body, Agree, Carries;
  }

  lemma UnflaggedStays(c: Control, selected: Control, chosen: Channel, key: string, mode: Mode)
    requires !Flagged(c, key)
    ensures ResolvedControl(c, selected, chosen, key, mode) == c
  {
    hide Flagged;
  }

  lemma SettledPair(controls: seq<Control>, k: nat, chosen: Channel, next: int, i: nat, j: nat)
    requires Body(controls, next) && k < |controls| && chosen in controls[k].channels && chosen.input.Keyboard? && KeptChannel(chosen)
    requires controls[k].resolution.Confirmed? && i < |controls| && j < |controls|
    ensures var key, selected := chosen.input.key, controls[k];
      PairHolds(ResolvedControl(controls[i], selected, chosen, key, Mirror), ResolvedControl(controls[j], selected, chosen, key, Mirror))
      <==> ((Flagged(controls[i], key) && controls[j].physicalId == selected.physicalId ==> Compatible(controls[i], controls[j], chosen))
            && (Flagged(controls[j], key) && controls[i].physicalId == selected.physicalId ==> Compatible(controls[j], controls[i], chosen)))
  {
    hide Body, Member, PairHolds, KeptChannel, Flagged, Carries, Compatible, ResolvedControl;
    var key, selected := chosen.input.key, controls[k];
    MemberAt(controls, next, i);
    MemberAt(controls, next, j);
    if controls[i].physicalId == selected.physicalId {
      SettledSwitch(controls, k, i, next, key);
    }
    if controls[j].physicalId == selected.physicalId {
      SettledSwitch(controls, k, j, next, key);
    }
    if Flagged(controls[i], key) && Flagged(controls[j], key) {
      MirroredPair(controls[i], controls[j], selected, chosen, next);
    } else if Flagged(controls[i], key) {
      UnflaggedStays(controls[j], selected, chosen, key, Mirror);
      MirroredBeside(controls[i], controls[j], selected, chosen, next);
    } else if Flagged(controls[j], key) {
      UnflaggedStays(controls[i], selected, chosen, key, Mirror);
      MirroredBeside(controls[j], controls[i], selected, chosen, next);
    } else {
      UnflaggedStays(controls[i], selected, chosen, key, Mirror);
      UnflaggedStays(controls[j], selected, chosen, key, Mirror);
      PairAt(controls, next, i, j);
    }
  }

  /** No view of the switch contradicts the chosen channel on a channel that a
      flagged control has too. */
  ghost predicate Uncontradicted(controls: seq<Control>, physicalId: string, chosen: Channel)
    requires chosen.input.Keyboard?
  {
    forall i, j | 0 <= i < |controls| && 0 <= j < |controls| ::
      Flagged(controls[i], chosen.input.key) && controls[j].physicalId == physicalId ==> Compatible(controls[i], controls[j], chosen)
  }

  lemma OnlyChannel(c: Control, chosen: Channel, peer: Control)
    requires |c.channels| == 1 && chosen in c.channels
    ensures Compatible(peer, c, chosen)
  {
  }

  /** An open question has its switch to itself, so its own channel is never
      contradicted. */
  lemma OpenIsUncontradicted(controls: seq<Control>, k: nat, chosen: Channel, next: int)
    requires Body(controls, next) && k < |controls| && chosen in controls[k].channels && chosen.input.Keyboard?
    requires controls[k].resolution.Unresolved?
    ensures Uncontradicted(controls, controls[k].physicalId, chosen)
  {
    hide Body, Member, Flagged, Compatible;
    MemberAt(controls, next, k);
    MemberIsOpen(controls[k], next);
    forall i, j | 0 <= i < |controls| && 0 <= j < |controls| && controls[j].physicalId == controls[k].physicalId
      ensures Compatible(controls[i], controls[j], chosen)
    {
      AloneOnSwitch(controls, k, j, next);
      OnlyChannel(controls[k], chosen, controls[i]);
    }
  }

  lemma CarriesIts(c: Control, chosen: Channel)
    requires chosen in c.channels && chosen.input.Keyboard?
    ensures Carries(c, chosen.input.key)
  {
    var i :| 0 <= i < |c.channels| && c.channels[i] == chosen;
  }

  lemma MirrorKeepsPairs(controls: seq<Control>, k: nat, chosen: Channel, next: int, i: nat, j: nat)
    requires Body(controls, next) && k < |controls| && chosen in controls[k].channels && chosen.input.Keyboard? && KeptChannel(chosen)
    requires Uncontradicted(controls, controls[k].physicalId, chosen) && i < |controls| && j < |controls|
    ensures PairHolds(ResolvedControl(controls[i], controls[k], chosen, chosen.input.key, Mirror),
                      ResolvedControl(controls[j], controls[k], chosen, chosen.input.key, Mirror))
  {
    hide Body, Member, PairHolds, KeptChannel, Carries, Compatible, ResolvedControl;
    if controls[k].resolution.Unresolved? {
      CarriesIts(controls[k], chosen);
      MirrorKeepsPair(controls, k, chosen, next, i, j);
    } else {
      SettledPair(controls, k, chosen, next, i, j);
    }
  }

  lemma AllResolvedIsBody(controls: seq<Control>, k: nat, chosen: Channel, mode: Mode, next: int)
    requires Body(controls, next) && k < |controls| && chosen in controls[k].channels && chosen.input.Keyboard? && KeptChannel(chosen)
    requires mode.Mirror? ==> Uncontradicted(controls, controls[k].physicalId, chosen)
    ensures Body(AllResolved(controls, controls[k], chosen, mode), next)
  {
    hide Body, Member, PairHolds, KeptChannel, Flagged, ResolvedControl, Uncontradicted;
    var r, key := AllResolved(controls, controls[k], chosen, mode), chosen.input.key;
    MemberAt(controls, next, k);
    forall i | 0 <= i < |controls| ensures Member(r[i], next) && r[i].id == controls[i].id {
      MemberAt(controls, next, i);
      ResolvedIsMember(controls[i], controls[k], chosen, key, mode, next);
    }
    forall i, j | 0 <= i < |r| && 0 <= j < |r| ensures PairHolds(r[i], r[j]) {
      if mode.Mirror? {
        MirrorKeepsPairs(controls, k, chosen, next, i, j);
      } else {
        MemberAt(controls, next, i);
        MemberAt(controls, next, j);
        ResolvedIsMember(controls[i], controls[k], chosen, key, mode, next);
        ResolvedIsMember(controls[j], controls[k], chosen, key, mode, next);
        PairAt(controls, next, i, j);
        DuplicatePair(controls[i], controls[j], r[i], r[j]);
      }
    }
    BodyIsDistinct(controls, next);
    BodySize(controls, next);
    MakeBody(r, next);
  }

  lemma BodySize(controls: seq<Control>, next: int)
    requires Body(controls, next)
    ensures |controls| <= MAX_CONTROLS
  {
    hide Member, PairsHold, DistinctIds;
  }

  lemma MakeBody(controls: seq<Control>, next: int)
    requires |controls| <= MAX_CONTROLS && DistinctIds(controls)
    requires forall i | 0 <= i < |controls| :: Member(controls[i], next)
    requires forall i, j | 0 <= i < |controls| && 0 <= j < |controls| :: PairHolds(controls[i], controls[j])
    ensures Body(controls, next)
  {
    hide Member, PairHolds;
  }

  lemma ChannelIsKept(c: Control, next: int, channel: Channel)
    requires Member(c, next) && channel in c.channels
    ensures KeptChannel(channel)
  {
    MemberIsKept(c, next);
    KeptShape(c);
    hide Member, KeptChannel, Kept;
  }

  /** No mirror is declared, there is nothing to resolve, or no view of the
      selected switch contradicts the chosen channel. */
  ghost predicate MirrorAllowed(d: Document, id: string, channel: string, mode: Mode) {
    mode.Mirror? && Question(d, id, channel).Some? && FindControl(d.controls, id).Some?
      && Question(d, id, channel).value.input.Keyboard? ==>
      Uncontradicted(d.controls, FindControl(d.controls, id).value.physicalId, Question(d, id, channel).value)
  }

  /** A mirror declared on an open question is always allowed. */
  lemma OpenMirrorIsAllowed(d: Document, id: string, channel: string)
    requires Inv(d) && FindControl(d.controls, id).Some? && FindControl(d.controls, id).value.resolution.Unresolved?
    ensures MirrorAllowed(d, id, channel, Mirror)
  {
    hide Inv, Body, Question, Uncontradicted, Carries;
    InvParts(d);
    if Question(d, id, channel).Some? {
      var k := QuestionSpec(d, id, channel);
      OpenIsUncontradicted(d.controls, k, Question(d, id, channel).value, d.nextId);
    }
  }

  /** Resolving a shared signal keeps the invariant, when a declared mirror is
      not contradicted. */
  lemma ResolveKeeps(d: Document, id: string, channel: string, mode: Mode)
    requires Inv(d) && MirrorAllowed(d, id, channel, mode)
    ensures Inv(Resolve(d, id, channel, mode)) && Resolve(d, id, channel, mode).nextId == d.nextId
    ensures Resolve(d, id, channel, mode).controls
         == if Question(d, id, channel).None? then d.controls else
            Reconcile(AllResolved(d.controls, FindControl(d.controls, id).value, Question(d, id, channel).value, mode))
  {
    hide Sanitize, Reconcile, Inv, Body, AllResolved, Resolve, Question, Member, KeptChannel, Carries, Uncontradicted;
    InvParts(d);
    ResolveIs(d, id, channel, mode);
    if Question(d, id, channel).Some? {
      var k := QuestionSpec(d, id, channel);
      var chosen := Question(d, id, channel).value;
      MemberAt(d.controls, d.nextId, k);
      ChannelIsKept(d.controls[k], d.nextId, chosen);
      AllResolvedIsBody(d.controls, k, chosen, mode, d.nextId);
      SanitizeCleanBody(d.(template := Custom, controls := AllResolved(d.controls, d.controls[k], chosen, mode)));
    }
  }

  // ----- exactly when a mirror keeps its switch in agreement

  lemma AllResolvedIsStable(controls: seq<Control>, k: nat, chosen: Channel, mode: Mode, next: int)
    requires Body(controls, next) && k < |controls| && chosen.input.Keyboard? && KeptChannel(chosen)
    ensures Stable(AllResolved(controls, controls[k], chosen, mode))
  {
    hide Body, Member, Kept, KeptChannel, Flagged, ResolvedControl;
    var r, key := AllResolved(controls, controls[k], chosen, mode), chosen.input.key;
    MemberAt(controls, next, k);
    forall i | 0 <= i < |controls| ensures Kept(r[i]) && r[i].id == controls[i].id {
      MemberAt(controls, next, i);
      ResolvedIsMember(controls[i], controls[k], chosen, key, mode, next);
      MemberIsKept(r[i], next);
    }
    BodyIsDistinct(controls, next);
    BodySize(controls, next);
  }

  /** What any mirror resolution returns. */
  lemma MirrorReturns(d: Document, id: string, channel: string, k: nat)
    requires Inv(d) && Question(d, id, channel).Some? && Question(d, id, channel).value.input.Keyboard?
    requires k < |d.controls| && FindControl(d.controls, id) == Some(d.controls[k])
    requires Question(d, id, channel).value in d.controls[k].channels
    ensures Resolve(d, id, channel, Mirror).controls
         == Reconcile(AllResolved(d.controls, d.controls[k], Question(d, id, channel).value, Mirror))
  {
    hide Sanitize, Reconcile, Inv, Body, AllResolved, Resolve, Question, Member, KeptChannel, Stable;
    InvParts(d);
    ResolveIs(d, id, channel, Mirror);
    var chosen := Question(d, id, channel).value;
    MemberAt(d.controls, d.nextId, k);
    ChannelIsKept(d.controls[k], d.nextId, chosen);
    AllResolvedIsStable(d.controls, k, chosen, Mirror, d.nextId);
    StableSanitized(d.(template := Custom, controls := AllResolved(d.controls, d.controls[k], chosen, Mirror)));
  }

  /** A contradicted view of the switch disagrees with a mirrored one. */
  lemma ContradictionShows(controls: seq<Control>, k: nat, chosen: Channel, next: int, i: nat, j: nat)
    requires Body(controls, next) && k < |controls| && chosen in controls[k].channels && chosen.input.Keyboard? && KeptChannel(chosen)
    requires controls[k].resolution.Confirmed? && i < |controls| && j < |controls|
    requires Flagged(controls[i], chosen.input.key) && controls[j].physicalId == controls[k].physicalId
    requires !Compatible(controls[i], controls[j], chosen)
    ensures var a, b := ResolvedControl(controls[i], controls[k], chosen, chosen.input.key, Mirror),
                        ResolvedControl(controls[j], controls[k], chosen, chosen.input.key, Mirror);
      a.physicalId == b.physicalId && !Agree(a.channels, b.channels)
  {
    hide Body, Member, KeptChannel, Flagged, Carries, Compatible, ResolvedControl, Agree, ClaimLike;
    var key := chosen.input.key;
    MemberAt(controls, next, i);
    SettledSwitch(controls, k, j, next, key);
    UnflaggedStays(controls[j], controls[k], chosen, key, Mirror);
    FlaggedHasOneChannel(controls[i], key, next);
    ResolvedUnfolds(controls[i], controls[k], chosen, key);
    MirroredAgainst(controls[i], controls[j], chosen, key);
  }

  /** In the document a mirror resolution returns, views of one switch agree
      exactly when no view of the selected switch contradicted the chosen
      channel. */
  lemma MirrorKeepsSwitchesIff(d: Document, id: string, channel: string)
    requires Inv(d) && Question(d, id, channel).Some?
    ensures SwitchesHold(Resolve(d, id, channel, Mirror)) <==> MirrorAllowed(d, id, channel, Mirror)
  {
    hide Sanitize, Reconciled, Inv, Body, AllResolved, Resolve, Question, Member, KeptChannel, Carries, Flagged, Compatible, Agree, ResolvedControl;
    InvParts(d);
    var k := QuestionSpec(d, id, channel);
    var chosen := Question(d, id, channel).value;
    var r := Resolve(d, id, channel, Mirror);
    if MirrorAllowed(d, id, channel, Mirror) {
      ResolveKeeps(d, id, channel, Mirror);
      InvParts(r);
      SwitchesOfBody(r, r.nextId);
    } else {
      var i, j :| 0 <= i < |d.controls| && 0 <= j < |d.controls| && Flagged(d.controls[i], chosen.input.key)
               && d.controls[j].physicalId == d.controls[k].physicalId && !Compatible(d.controls[i], d.controls[j], chosen);
      if d.controls[k].resolution.Unresolved? {
        OpenMirrorIsAllowed(d, id, channel);
      }
      MemberAt(d.controls, d.nextId, k);
      ChannelIsKept(d.controls[k], d.nextId, chosen);
      ContradictionShows(d.controls, k, chosen, d.nextId, i, j);
      MirrorReturns(d, id, channel, k);
      var resolved := AllResolved(d.controls, d.controls[k], chosen, Mirror);
      ReconciledRole(resolved, resolved[i]);
      ReconciledRole(resolved, resolved[j]);
      assert r.controls[i].physicalId == r.controls[j].physicalId && !Agree(r.controls[i].channels, r.controls[j].channels);
    }
  }

  lemma ReconciledRole(all: seq<Control>, c: Control)
    ensures Reconciled(all, c).physicalId == c.physicalId && Reconciled(all, c).channels == c.channels
  {
  }
}
