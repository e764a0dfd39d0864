/** Whole runs of edits of a control-surface document. */
module SurfaceHistory {
  import opened Options
  import opened Strings
  import opened SurfaceText
  import opened Surface
  import opened SurfaceEdits
  import opened SurfaceStable
  import opened SurfaceInvariant
  import opened SurfaceBuilt
  import opened SurfaceStarts
  import opened SurfaceRuns
  import opened SurfaceSweep

  datatype Edit =
    | TemplateEdit(template: StartTemplate, records: seq<Record>, selectedSlot: int, device: string)
    | MigrateEdit(placed: seq<Placed>, arcade: bool, device: string)
    | AddEdit(kind: Kind, slot: Option<int>)
    | SelectEdit(id: string, channel: string)
    | RenameEdit(id: string, caption: string)
    | SlotEdit(id: string, slot: Option<int>)
    | LayoutEdit(layout: PanelLayout)
    | StageEdit(stage: Stage)
    | MoveEdit(id: string, x: real, y: real)
    | RemoveEdit(id: string)
    | CopyEdit(id: string, mode: Mode)
    | ResolveEdit(id: string, channel: string, mode: Mode)
    | TeachEdit(id: string, channel: string, key: string, device: string)
    | RetireEdit(kindOf: Roster)

  function Apply(d: Document, e: Edit, collate: Collation): Document {
    match e
    case TemplateEdit(template, records, selectedSlot, device) => ApplyTemplate(d, template, records, selectedSlot, device, collate)
    case MigrateEdit(placed, arcade, device) => Migrate(d, placed, arcade, device)
    case AddEdit(kind, slot) => Add(d, kind, slot)
    case SelectEdit(id, channel) => Select(d, id, channel)
    case RenameEdit(id, caption) => Rename(d, id, caption)
    case SlotEdit(id, slot) => SetSlot(d, id, slot)
    case LayoutEdit(layout) => SetLayout(d, layout)
    case StageEdit(stage) => SetStage(d, stage)
    case MoveEdit(id, x, y) => Move(d, id, x, y)
    case RemoveEdit(id) => Remove(d, id)
    case CopyEdit(id, mode) => Copy(d, id, mode)
    case ResolveEdit(id, channel, mode) => Resolve(d, id, channel, mode)
    case TeachEdit(id, channel, key, device) => Teach(d, id, channel, key, device)
    case RetireEdit(kindOf) => Retire(d, kindOf)
  }

  /** A declared mirror is not contradicted. */
  ghost predicate Sound(d: Document, e: Edit) {
    match e
    case ResolveEdit(id, channel, mode) => MirrorAllowed(d, id, channel, mode)
    case _ => true
  }

  function Run(d: Document, edits: seq<Edit>, collate: Collation): Document
    decreases |edits|
  {
    if edits == [] then d else Run(Apply(d, edits[0], collate), edits[1..], collate)
  }

  ghost predicate SoundRun(d: Document, edits: seq<Edit>, collate: Collation)
    decreases |edits|
  {
    edits == [] || (Sound(d, edits[0]) && SoundRun(Apply(d, edits[0], collate), edits[1..], collate))
  }

  lemma TemplateKeeps(d: Document, e: Edit, collate: Collation)
    requires Inv(d) && e.TemplateEdit?
    ensures Inv(Apply(d, e, collate)) && Apply(d, e, collate).nextId <= MaxInt(d.nextId, MAX_CONTROLS + 1)
  {
    hide Inv, ApplyTemplate, Sanitize, Finals, Reconcile, Refused, TemplateSpecs;
    if Refused(e.template, e.records, e.selectedSlot) {
      InvParts(d);
      RefusedChangesNothing(d, e.template, e.records, e.selectedSlot, e.device, collate);
    } else {
      TemplateStarts(d, e.template, e.records, e.selectedSlot, e.device, collate);
    }
  }

  lemma RefusedChangesNothing(d: Document, template: StartTemplate, records: seq<Record>, selectedSlot: int, device: string,
                              collate: Collation)
    requires Refused(template, records, selectedSlot)
    ensures ApplyTemplate(d, template, records, selectedSlot, device, collate) == Sanitize(d)
  {
    hide Refused, Sanitize;
  }

  lemma MigrateKeeps(d: Document, e: Edit, collate: Collation)
    requires Inv(d) && e.MigrateEdit?
    ensures Inv(Apply(d, e, collate)) && Apply(d, e, collate).nextId <= MaxInt(d.nextId, MAX_CONTROLS + 1)
  {
    hide Inv, Sanitize, BuildAll, Slots, Started;
    if d.started || e.placed == [] || |e.placed| > MAX_CONTROLS {
      InvParts(d);
    } else {
      MigrationStarts(d, e.placed, e.arcade, e.device);
    }
  }

  /** Every edit keeps the invariant, and the next number grows by one at most
      (or restarts with a template). */
  lemma EditKeeps(d: Document, e: Edit, collate: Collation)
    requires Inv(d) && Sound(d, e) && d.nextId < MAX_SAFE_INTEGER
    ensures Inv(Apply(d, e, collate)) && Apply(d, e, collate).nextId <= MaxInt(d.nextId + 1, MAX_CONTROLS + 1)
  {
    hide Inv, ApplyTemplate, Migrate, Add, Select, Rename, SetSlot, SetLayout, SetStage, Move, Remove, Copy, Resolve, Teach, Retire, Reconcile,
      MirrorAllowed, Question, Teaches, Copies, HasControl, Final, AddedSpec, CopyOf;
    match e
    case TemplateEdit(_, _, _, _) => TemplateKeeps(d, e, collate);
    case MigrateEdit(_, _, _) => MigrateKeeps(d, e, collate);
    case AddEdit(kind, slot) => AddKeeps(d, kind, slot);
    case SelectEdit(id, channel) => SelectKeeps(d, id, channel);
    case RenameEdit(id, caption) => RenameKeeps(d, id, caption);
    case SlotEdit(id, slot) => SetSlotKeeps(d, id, slot);
    case LayoutEdit(layout) => LooksKeep(d, layout, d.stage);
    case StageEdit(stage) => LooksKeep(d, d.panelLayout, stage);
    case MoveEdit(id, x, y) => MoveKeeps(d, id, x, y);
    case RemoveEdit(id) => RemoveKeeps(d, id);
    case CopyEdit(id, mode) => CopyKeeps(d, id, mode);
    case ResolveEdit(id, channel, mode) => ResolveKeeps(d, id, channel, mode);
    case TeachEdit(id, channel, key, device) => TeachKeeps(d, id, channel, key, device);
    case RetireEdit(kindOf) => RetireKeeps(d, kindOf);
  }

  /** Every run keeps the invariant while numbers last. */
  lemma {:induction false} RunKeeps(d: Document, edits: seq<Edit>, collate: Collation)
    requires Inv(d) && SoundRun(d, edits, collate) && MaxInt(d.nextId, MAX_CONTROLS + 1) + |edits| <= MAX_SAFE_INTEGER
    ensures Inv(Run(d, edits, collate))
    decreases |edits|
  {
    hide Inv, Apply, Sound;
    if edits != [] {
      EditKeeps(d, edits[0], collate);
      RunKeeps(Apply(d, edits[0], collate), edits[1..], collate);
    }
  }

  /** A document that has never been edited. */
  const PRISTINE := Document(false, Start(Blank), SinglePanel, Design, [], "", "", 1)

  lemma PristineHolds(next: int)
    requires 1 <= next <= MAX_SAFE_INTEGER
    ensures Inv(PRISTINE.(nextId := next))
  {
  }

  /** A template that is not refused, or the migration of an unstarted document. */
  predicate Starts(before: Document, first: Edit) {
    match first
    case TemplateEdit(template, records, selectedSlot, _) => !Refused(template, records, selectedSlot)
    case MigrateEdit(placed, _, _) => !before.started && 1 <= |placed| <= MAX_CONTROLS
    case _ => false
  }

  lemma StartHolds(before: Document, first: Edit, collate: Collation)
    requires Starts(before, first)
    ensures Inv(Apply(before, first, collate)) && Apply(before, first, collate).nextId <= MAX_CONTROLS + 1
  {
    hide Inv, ApplyTemplate, Migrate, Refused, TemplateSpecs, Finals, Reconcile;
    if first.TemplateEdit? {
      TemplateStarts(before, first.template, first.records, first.selectedSlot, first.device, collate);
    } else {
      MigrationStarts(before, first.placed, first.arcade, first.device);
    }
  }

  /** What a run promises of its document: controls of one switch agree, an
      unresolved control has its switch to itself, the selection names a channel
      of a control, the next number is unused, and saving and loading changes
      nothing. */
  ghost predicate Safe(d: Document) {
    && SwitchesHold(d)
    && SelectionHolds(d.controls, d.selectedControl, d.selectedChannel)
    && d.nextId >= 1 && !HasControl(d.controls, GeneratedId(d.nextId))
    && Sanitize(d) == d
  }

  /** Whatever was stored before, a template or a migration followed by any
      sound run of edits gives a safe document. */
  lemma RunsAreSafe(before: Document, first: Edit, edits: seq<Edit>, collate: Collation)
    requires Starts(before, first) && SoundRun(Apply(before, first, collate), edits, collate)
    requires |edits| <= MAX_SAFE_INTEGER - MAX_CONTROLS - 1
    ensures Safe(Run(Apply(before, first, collate), edits, collate))
  {
    hide SoundRun, Run, Inv, Apply, Starts, Sound, Safe;
    StartHolds(before, first, collate);
    RunKeeps(Apply(before, first, collate), edits, collate);
    InvMeans(Run(Apply(before, first, collate), edits, collate));
  }

  /** Every document of the run is safe. */
  ghost predicate SafeThroughout(d: Document, edits: seq<Edit>, collate: Collation)
    decreases |edits|
  {
    Safe(d) && (edits == [] || SafeThroughout(Apply(d, edits[0], collate), edits[1..], collate))
  }

  /** An edit that is not sound leaves two views of a switch in disagreement. */
  lemma UnsoundIsUnsafe(d: Document, e: Edit, collate: Collation)
    requires Inv(d) && !Sound(d, e)
    ensures !Safe(Apply(d, e, collate))
  {
    hide Inv, Resolve, Question, Uncontradicted, SwitchesHold, SelectionHolds, HasControl, Sanitize;
    MirrorKeepsSwitchesIff(d, e.id, e.channel);
  }

  lemma {:induction false} SafeThroughoutIff(d: Document, edits: seq<Edit>, collate: Collation)
    requires Inv(d) && MaxInt(d.nextId, MAX_CONTROLS + 1) + |edits| <= MAX_SAFE_INTEGER
    ensures SafeThroughout(d, edits, collate) <==> SoundRun(d, edits, collate)
    decreases |edits|
  {
    hide Inv, Apply, Sound, Safe;
    InvMeans(d);
    if edits != [] {
      var next := Apply(d, edits[0], collate);
      if Sound(d, edits[0]) {
        EditKeeps(d, edits[0], collate);
        SafeThroughoutIff(next, edits[1..], collate);
      } else {
        UnsoundIsUnsafe(d, edits[0], collate);
        assert !SafeThroughout(next, edits[1..], collate);
      }
    }
  }

  /** All documents of a run are safe exactly when no mirror is declared that a
      view of its switch contradicts. */
  lemma RunsAreSafeIff(before: Document, first: Edit, edits: seq<Edit>, collate: Collation)
    requires Starts(before, first) && |edits| <= MAX_SAFE_INTEGER - MAX_CONTROLS - 1
    ensures SafeThroughout(Apply(before, first, collate), edits, collate) <==> SoundRun(Apply(before, first, collate), edits, collate)
  {
    hide SoundRun, SafeThroughout, Inv, Apply, Starts;
    StartHolds(before, first, collate);
    SafeThroughoutIff(Apply(before, first, collate), edits, collate);
  }

  lemma InvMeans(d: Document)
    requires Inv(d)
    ensures Safe(d)
  {
    hide Inv, Sanitize, Agree, Body, Member, GeneratedId, Reconcile, SelectionHolds;
    InvParts(d);
    forall i | 0 <= i < |d.controls| ensures d.controls[i].id != GeneratedId(d.nextId) {
      MemberAt(d.controls, d.nextId, i);
      MemberIsNotNext(d.controls[i], d.nextId);
    }
    forall i, j | 0 <= i < |d.controls| && 0 <= j < |d.controls| && d.controls[i].physicalId == d.controls[j].physicalId
      ensures Agree(d.controls[i].channels, d.controls[j].channels)
      ensures d.controls[i].resolution.Unresolved? ==> i == j
    {
      PairAt(d.controls, d.nextId, i, j);
    }
  }

  /** Below the cap, the number after an addition is unused exactly when the
      numbers have not run out. */
  lemma NextIsUnusedIff(d: Document, kind: Kind, slot: Option<int>)
    requires Inv(d) && |d.controls| < MAX_CONTROLS
    ensures HasControl(Add(d, kind, slot).controls, GeneratedId(Add(d, kind, slot).nextId)) <==> d.nextId == MAX_SAFE_INTEGER
  {
    hide Inv, Add, HasControl, GeneratedId, Sanitize, Body, AddedSpec, Reconcile, Final;
    if d.nextId < MAX_SAFE_INTEGER {
      AddKeeps(d, kind, slot);
      InvMeans(Add(d, kind, slot));
    } else {
      InvParts(d);
      AddAtLimit(d, kind, slot);
    }
  }

  /** Copying a resolved control below the cap does so too. */
  lemma NextIsUnusedAfterCopyIff(d: Document, id: string, mode: Mode)
    requires Inv(d) && Copies(d, id)
    ensures HasControl(Copy(d, id, mode).controls, GeneratedId(Copy(d, id, mode).nextId)) <==> d.nextId == MAX_SAFE_INTEGER
  {
    hide Inv, Copy, HasControl, GeneratedId, Sanitize, Body, Reconcile, CopyOf, WithCopied, FindControl;
    InvParts(d);
    if d.nextId < MAX_SAFE_INTEGER {
      CopyKeepsBelow(d, id, mode);
    } else {
      CopyAtLimit(d, id, mode);
    }
  }

  lemma CopyKeepsBelow(d: Document, id: string, mode: Mode)
    requires Inv(d) && Copies(d, id) && d.nextId < MAX_SAFE_INTEGER
    ensures !HasControl(Copy(d, id, mode).controls, GeneratedId(Copy(d, id, mode).nextId))
  {
    hide Inv, Copy, HasControl, GeneratedId, Sanitize, CopyOf, FindControl;
    CopyKeeps(d, id, mode);
    InvMeans(Copy(d, id, mode));
  }

  /** With one more control under the last safe integer, the next number is
      that control's. */
  lemma GrownAtLimit(d: Document, raw: Control, grown: Document)
    requires Inv(d) && |d.controls| < MAX_CONTROLS && d.nextId == MAX_SAFE_INTEGER
    requires Named(raw) && raw.id == GeneratedId(d.nextId)
    requires grown.controls == d.controls + [raw] && grown.nextId == d.nextId + 1
    ensures HasControl(Sanitize(grown).controls, GeneratedId(Sanitize(grown).nextId))
  {
    NamedIsCleaned(raw, 0);
    hide Inv, GeneratedId, Sanitize, Body, Cleaned, Named, AllNamed, AllCleaned, Reconciled;
    InvParts(d);
    CleanWithOneMore(d.controls, raw, Cleaned(raw), d.nextId);
    NamedAreCleaned(grown.controls);
    SanitizedControls(grown);
    NumbersRunOut(grown);
    var r := Sanitize(grown);
    assert r.controls[|d.controls|] == Reconciled(d.controls + [Cleaned(raw)], Cleaned(raw));
    ReconciledChannels(d.controls + [Cleaned(raw)], Cleaned(raw));
  }

  lemma AddAtLimit(d: Document, kind: Kind, slot: Option<int>)
    requires Inv(d) && |d.controls| < MAX_CONTROLS && d.nextId == MAX_SAFE_INTEGER
    ensures HasControl(Add(d, kind, slot).controls, GeneratedId(Add(d, kind, slot).nextId))
  {
    var spec := AddedSpec(d.controls, kind, slot);
    AddedSpecIsGood(d.controls, kind, slot);
    BuiltIsMember(spec, d.nextId);
    hide Inv, GeneratedId, Sanitize, Body, AddedSpec, Built, Named, Add, Member, Final, FinalChannels, SpecPhysicalId, FirstChannelId, HasControl;
    InvParts(d);
    AddIs(d, kind, slot);
    GrownAtLimit(d, Built(spec, d.nextId), WithAdded(d, Built(spec, d.nextId)));
  }

  lemma CopyAtLimit(d: Document, id: string, mode: Mode)
    requires Inv(d) && Copies(d, id) && d.nextId == MAX_SAFE_INTEGER
    ensures HasControl(Copy(d, id, mode).controls, GeneratedId(Copy(d, id, mode).nextId))
  {
    hide Inv, GeneratedId, Sanitize, Body, Named, Copy, CopyOf, FirstChannelId, HasControl, Answered, Settled, PhysicalIdOf, FindControl, Forbidden;
    InvParts(d);
    CopyIs(d, id, mode);
    var k := FoundIsOne(d.controls, id);
    CopyIds(d.controls[k], mode, d.nextId);
    GeneratedIdIsClean(d.nextId);
    GeneratedIsNamed(CopyOf(d.controls[k], mode, d.nextId), d.nextId);
    NothingToAnswer(d.controls, k, mode, d.nextId);
    GrownAtLimit(d, CopyOf(d.controls[k], mode, d.nextId), WithCopied(d, d.controls[k], mode, CopyOf(d.controls[k], mode, d.nextId)));
  }

  lemma GeneratedIsNamed(c: Control, n: nat)
    requires n <= MAX_SAFE_INTEGER && c.id == GeneratedId(n)
    ensures Named(c)
  {
    assert |GeneratedId(n)| > 0;
    hide Settled, GeneratedId, Forbidden;
    GeneratedIdIsClean(n);
  }

  /** On an empty document that has reached the last safe integer, the control
      an addition draws carries the number the document hands out next. */
  lemma NumbersCanRunOut(kind: Kind, slot: Option<int>)
    ensures var d := PRISTINE.(nextId := MAX_SAFE_INTEGER);
      Inv(d) && HasControl(Add(d, kind, slot).controls, GeneratedId(Add(d, kind, slot).nextId))
  {
    hide Inv, Add, HasControl, GeneratedId;
    PristineHolds(MAX_SAFE_INTEGER);
    NextIsUnusedIff(PRISTINE.(nextId := MAX_SAFE_INTEGER), kind, slot);
  }

  lemma NumbersRunOut(d: Document)
    requires d.nextId > MAX_SAFE_INTEGER
    ensures Sanitize(d).nextId == MAX_SAFE_INTEGER
  {
    hide KeepControls, Reconcile, Highest, CleanString;
  }

  /** The same identities in the same places, and at most one more. */
  ghost predicate KeepsIds(a: seq<Control>, b: seq<Control>) {
    |a| <= |b| <= |a| + 1 && forall i | 0 <= i < |a| :: b[i].id == a[i].id
  }

  lemma LooksKeepIds(controls: seq<Control>, id: string, caption: string, slot: Option<int>, x: real, y: real)
    ensures KeepsIds(controls, Each(controls, c => Renamed(c, id, caption)))
    ensures KeepsIds(controls, Each(controls, c => Reassigned(c, id, slot)))
    ensures KeepsIds(controls, Each(controls, c => Moved(c, id, x, y)))
  {
    hide MovedFrame, CleanSlot;
  }

  lemma ReconcileKeepsIds(controls: seq<Control>, changed: seq<Control>)
    requires KeepsIds(controls, changed)
    ensures KeepsIds(controls, Reconcile(changed))
  {
    hide HasPeer;
  }

  lemma TaughtKeepIds(controls: seq<Control>, physicalId: string, channel: string, key: string, device: string)
    ensures KeepsIds(controls, AllTaught(controls, physicalId, channel, key, device))
  {
    hide TaughtChannel;
  }

  lemma ResolvedKeepIds(controls: seq<Control>, selected: Control, chosen: Channel, mode: Mode)
    requires chosen.input.Keyboard?
    ensures KeepsIds(controls, AllResolved(controls, selected, chosen, mode))
  {
    hide ClaimLike, Flagged;
  }

  lemma SweptKeepIds(controls: seq<Control>, kindOf: Roster)
    ensures KeepsIds(controls, AllSwept(controls, kindOf))
  {
    hide Swept;
  }

  lemma TeachDropsNothing(d: Document, id: string, channel: string, key: string, device: string)
    requires Inv(d)
    ensures KeepsIds(d.controls, Teach(d, id, channel, key, device).controls)
  {
    hide Inv, Teach, CleanString, HasChannel, AllTaught, Reconcile;
    TeachKeeps(d, id, channel, key, device);
    if Teaches(d, id, channel, key) {
      var physicalId, k, v := FindControl(d.controls, id).value.physicalId, CleanString(CleanString(key, 96), 96),
                              CleanString(CleanString(device, 240), 240);
      TaughtKeepIds(d.controls, physicalId, channel, k, v);
      ReconcileKeepsIds(d.controls, AllTaught(d.controls, physicalId, channel, k, v));
    }
  }

  lemma ResolveDropsNothing(d: Document, id: string, channel: string, mode: Mode)
    requires Inv(d) && MirrorAllowed(d, id, channel, mode)
    ensures KeepsIds(d.controls, Resolve(d, id, channel, mode).controls)
  {
    hide Inv, Resolve, Question, AllResolved, Reconcile, MirrorAllowed;
    ResolveKeeps(d, id, channel, mode);
    if Question(d, id, channel).Some? {
      var k := QuestionSpec(d, id, channel);
      var chosen := Question(d, id, channel).value;
      ResolvedKeepIds(d.controls, d.controls[k], chosen, mode);
      ReconcileKeepsIds(d.controls, AllResolved(d.controls, d.controls[k], chosen, mode));
    }
  }

  /** Only templates, migrations and removals drop controls: every other edit
      keeps all identities, in place. */
  lemma EditsDropNothing(d: Document, e: Edit, collate: Collation)
    requires Inv(d) && Sound(d, e) && d.nextId < MAX_SAFE_INTEGER
    requires !e.TemplateEdit? && !e.MigrateEdit? && !e.RemoveEdit?
    ensures KeepsIds(d.controls, Apply(d, e, collate).controls)
  {
    hide Inv, Add, Select, Rename, SetSlot, SetLayout, SetStage, Move, Copy, Resolve, Teach, Retire, Reconcile, MirrorAllowed,
      Copies, HasControl, Final, AddedSpec, CopyOf, AllSwept, Renamed, Moved, Reassigned, CleanString, GeneratedId, PhysicalIdOf;
    match e
    case AddEdit(kind, slot) => AddKeeps(d, kind, slot);
    case SelectEdit(id, channel) => SelectKeeps(d, id, channel);
    case RenameEdit(id, caption) =>
      RenameKeeps(d, id, caption);
      LooksKeepIds(d.controls, id, CleanString(CleanString(caption, 64), 64), None, 0.0, 0.0);
    case SlotEdit(id, slot) =>
      SetSlotKeeps(d, id, slot);
      LooksKeepIds(d.controls, id, "", slot, 0.0, 0.0);
    case LayoutEdit(layout) => LooksKeep(d, layout, d.stage);
    case StageEdit(stage) => LooksKeep(d, d.panelLayout, stage);
    case MoveEdit(id, x, y) =>
      MoveKeeps(d, id, x, y);
      LooksKeepIds(d.controls, id, "", None, x, y);
    case CopyEdit(id, mode) => CopyKeeps(d, id, mode);
    case ResolveEdit(id, channel, mode) => ResolveDropsNothing(d, id, channel, mode);
    case TeachEdit(id, channel, key, device) => TeachDropsNothing(d, id, channel, key, device);
    case RetireEdit(kindOf) =>
      RetireKeeps(d, kindOf);
      SweptKeepIds(d.controls, kindOf);
      ReconcileKeepsIds(d.controls, AllSwept(d.controls, kindOf));
  }
}
