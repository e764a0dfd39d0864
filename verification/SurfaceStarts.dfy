/** Documents started from a template or a Workbench migration, and the
    template's promise about generated controls. */
module SurfaceStarts {
  import opened Options
  import opened Strings
  import opened SurfaceText
  import opened SurfaceKeys
  import opened Surface
  import opened SurfaceEdits
  import opened SurfaceStable
  import opened SurfaceInvariant
  import opened SurfaceBuilt

  function Finals(specs: seq<Spec>): seq<Control> {
    seq(|specs|, i requires 0 <= i < |specs| => Final(specs[i], 1 + i))
  }

  ghost predicate GoodSpecs(specs: seq<Spec>) {
    |specs| <= MAX_CONTROLS && forall i | 0 <= i < |specs| :: GoodSpec(specs[i])
  }

  lemma FinalsSpec(specs: seq<Spec>)
    ensures |Finals(specs)| == |specs|
    ensures forall i | 0 <= i < |specs| :: Finals(specs)[i] == Final(specs[i], 1 + i)
  {
    hide Final;
  }

  lemma CleaningBuilds(specs: seq<Spec>)
    ensures AllCleaned(BuildAll(specs, 1)) == Finals(specs)
  {
    BuildAllSpec(specs, 1);
    FinalsSpec(specs);
    hide Cleaned, Built, BuildAll, Finals;
  }

  lemma IdsApart(i: nat, j: nat)
    requires 1 <= i && 1 <= j && i != j
    ensures GeneratedId(i) != GeneratedId(j) && PhysicalIdOf(GeneratedId(i)) != PhysicalIdOf(GeneratedId(j))
  {
    GeneratedNumberOf(i);
    GeneratedNumberOf(j);
    hide GeneratedNumber, GeneratedId;
  }

  lemma SpecsAreFew(specs: seq<Spec>)
    requires GoodSpecs(specs)
    ensures |specs| <= MAX_CONTROLS
  {
    hide GoodSpec;
  }

  lemma BuildsAreNamed(specs: seq<Spec>)
    requires GoodSpecs(specs)
    ensures AllNamed(BuildAll(specs, 1))
  {
    hide Named, BuildAll, GoodSpec, GoodSpecs, GeneratedId, Built, Final, Member, FinalChannels, CleanSlot, SpecPhysicalId;
    BuildAllSpec(specs, 1);
    var built := BuildAll(specs, 1);
    assert |specs| <= MAX_CONTROLS by {
      SpecsAreFew(specs);
    }
    forall i | 0 <= i < |specs| ensures Named(built[i]) && built[i].id == GeneratedId(1 + i) {
      GoodAt(specs, i);
      BuiltIsMember(specs[i], 1 + i);
    }
    forall i, j | 0 <= i < j < |built| ensures built[i].id != built[j].id {
      IdsApart(1 + i, 1 + j);
    }
  }

  /** What two specifications of one run of numbers become. */
  ghost predicate SpecPair(specs: seq<Spec>, i: nat, j: nat)
    requires i < |specs| && j < |specs|
  {
    PairHolds(Final(specs[i], 1 + i), Final(specs[j], 1 + j))
  }

  lemma FinalsAreMembers(specs: seq<Spec>, next: int)
    requires GoodSpecs(specs) && next == |specs| + 1
    ensures forall i | 0 <= i < |specs| :: Member(Finals(specs)[i], next) && Finals(specs)[i].id == GeneratedId(1 + i)
  {
    hide Final, Finals, GoodSpec, GoodSpecs, Member, GeneratedId, Built;
    FinalsSpec(specs);
    forall i | 0 <= i < |specs| ensures Member(Finals(specs)[i], next) && Finals(specs)[i].id == GeneratedId(1 + i) {
      GoodAt(specs, i);
      BuiltIsMember(specs[i], 1 + i);
      NumberedLater(Final(specs[i], 1 + i), i + 2, next);
    }
  }

  lemma GoodAt(specs: seq<Spec>, i: nat)
    requires GoodSpecs(specs) && i < |specs|
    ensures GoodSpec(specs[i]) && |specs| <= MAX_CONTROLS
  {
  }

  /** Built controls form a body when specifications of one switch match. */
  lemma FinalsAreBody(specs: seq<Spec>)
    requires GoodSpecs(specs)
    requires forall i, j | 0 <= i < |specs| && 0 <= j < |specs| :: SpecPair(specs, i, j)
    ensures Body(Finals(specs), |specs| + 1)
  {
    hide Finals, Final, GoodSpec, GeneratedId, Member, PairHolds, SpecPair;
    var r := Finals(specs);
    FinalsSpec(specs);
    FinalsAreMembers(specs, |specs| + 1);
    forall i, j | 0 <= i < j < |r| ensures r[i].id != r[j].id {
      IdsApart(1 + i, 1 + j);
    }
    forall i, j | 0 <= i < |r| && 0 <= j < |r| ensures PairHolds(r[i], r[j]) {
      assert SpecPair(specs, i, j);
      SpecPairMeans(specs, i, j);
    }
  }

  lemma SpecPairMeans(specs: seq<Spec>, i: nat, j: nat)
    requires i < |specs| && j < |specs|
    ensures SpecPair(specs, i, j) <==> PairHolds(Final(specs[i], 1 + i), Final(specs[j], 1 + j))
  {
    hide PairHolds, Final;
  }

  lemma ApartHolds(a: Control, b: Control)
    requires a.physicalId != b.physicalId
    ensures PairHolds(a, b)
  {
  }

  lemma OwnFinal(s: Spec, n: nat)
    requires GoodSpec(s) && s.physicalId.None? && 1 <= n <= MAX_SAFE_INTEGER
    ensures Member(Final(s, n), n + 1) && Final(s, n).physicalId == PhysicalIdOf(GeneratedId(n))
  {
    hide Final, GeneratedId, Member, FinalChannels, PhysicalIdOf, CleanSlot, GoodSpec, Named, Built;
    BuiltIsMember(s, n);
  }

  /** Switches of their own never conflict. */
  lemma OwnSwitches(specs: seq<Spec>, i: nat, j: nat)
    requires GoodSpecs(specs) && i < |specs| && j < |specs| && specs[i].physicalId.None? && specs[j].physicalId.None?
    ensures SpecPair(specs, i, j)
  {
    hide GoodSpec, GoodSpecs, Final, GeneratedId, Member, PairHolds, SpecPair, PhysicalIdOf;
    GoodAt(specs, i);
    GoodAt(specs, j);
    SpecPairMeans(specs, i, j);
    OwnPair(specs[i], specs[j], i, j);
  }

  lemma OwnPair(s: Spec, t: Spec, i: nat, j: nat)
    requires GoodSpec(s) && GoodSpec(t) && s.physicalId.None? && t.physicalId.None?
    requires i < MAX_CONTROLS && j < MAX_CONTROLS && (i == j ==> s == t)
    ensures PairHolds(Final(s, 1 + i), Final(t, 1 + j))
  {
    hide GoodSpec, Final, GeneratedId, Member, PairHolds, PhysicalIdOf;
    OwnFinal(s, 1 + i);
    OwnFinal(t, 1 + j);
    if i == j {
      MemberPairsWithItself(Final(s, 1 + i), i + 2);
    } else {
      IdsApart(1 + i, 1 + j);
      ApartHolds(Final(s, 1 + i), Final(t, 1 + j));
    }
  }

  lemma MemberPairsWithItself(c: Control, next: int)
    requires Member(c, next)
    ensures PairHolds(c, c)
  {
    hide Kept, Numbered, Unlinked, OpenQuestion, Agree;
    KeptAgrees(c);
  }

  /** A fresh document of built controls satisfies the invariant. */
  lemma StartedKeeps(d: Document, template: Template, layout: PanelLayout, stage: Stage, specs: seq<Spec>)
    requires GoodSpecs(specs) && Body(Finals(specs), |specs| + 1)
    ensures var r := Sanitize(Started(d, template, layout, stage, BuildAll(specs, 1)));
      Inv(r) && r.controls == Reconcile(Finals(specs)) && r.nextId == |specs| + 1
      && r.started && r.template == template && r.panelLayout == layout && r.stage == stage
  {
    BuildsAreNamed(specs);
    CleaningBuilds(specs);
    BuildAllSpec(specs, 1);
    hide Body, BuildAll, Finals, AllNamed, AllCleaned, Reconcile, Sanitize, FirstChannelId;
    SanitizeBody(Started(d, template, layout, stage, BuildAll(specs, 1)));
  }

  // ----- templates

  ghost predicate OwnSpecs(specs: seq<Spec>) {
    forall i | 0 <= i < |specs| :: specs[i].physicalId.None? && (specs[i].resolution.Unresolved? ==> !specs[i].kind.Joystick?)
  }

  lemma SlotSpecsAreOwn(records: seq<Record>, groups: seq<Place>, slot: int, four: bool, device: string)
    requires four ==> 1 <= slot <= 4
    ensures OwnSpecs(SlotSpecs(records, groups, slot, four, device))
  {
    hide PlayerGrid.Cell, GroupCaption, Appearances;
  }

  lemma PlainSpecsAreOwn()
    ensures OwnSpecs(ArcadeStickSpecs()) && OwnSpecs(LeverlessSpecs())
  {
    hide ArcadeStickSpecs, LeverlessSpecs;
  }

  lemma PanelSpecsAreOwn(slot: int)
    requires 1 <= slot <= 4
    ensures OwnSpecs(PanelSpecs(slot))
  {
    hide Print, PanelSpecs;
  }

  lemma OwnConcat(a: seq<Spec>, b: seq<Spec>)
    requires OwnSpecs(a) && OwnSpecs(b)
    ensures OwnSpecs(a + b)
  {
  }

  lemma MappingSpecsAreOwn(records: seq<Record>, groups: seq<Place>, selectedSlot: int, four: bool, device: string)
    ensures OwnSpecs(MappingSpecs(records, groups, selectedSlot, four, device))
  {
    hide SlotSpecs, OwnSpecs;
    if four {
      var a, b := SlotSpecs(records, groups, 1, true, device), SlotSpecs(records, groups, 2, true, device);
      var c, d := SlotSpecs(records, groups, 3, true, device), SlotSpecs(records, groups, 4, true, device);
      SlotSpecsAreOwn(records, groups, 1, true, device);
      SlotSpecsAreOwn(records, groups, 2, true, device);
      SlotSpecsAreOwn(records, groups, 3, true, device);
      SlotSpecsAreOwn(records, groups, 4, true, device);
      OwnConcat(a, b);
      OwnConcat(a + b, c);
      OwnConcat(a + b + c, d);
    } else {
      SlotSpecsAreOwn(records, groups, selectedSlot, false, device);
    }
  }

  lemma TemplateSpecsAreOwn(template: StartTemplate, records: seq<Record>, selectedSlot: int, device: string, collate: Collation)
    ensures OwnSpecs(TemplateSpecs(template, records, selectedSlot, device, collate))
  {
    hide MappingSpecs, Groups, PanelSpecs, ArcadeStickSpecs, LeverlessSpecs, OwnSpecs;
    PlainSpecsAreOwn();
    NoSpecsAreOwn();
    PanelSpecsAreOwn(1);
    PanelSpecsAreOwn(2);
    PanelSpecsAreOwn(3);
    PanelSpecsAreOwn(4);
    OwnConcat(PanelSpecs(1), PanelSpecs(2));
    OwnConcat(PanelSpecs(1) + PanelSpecs(2), PanelSpecs(3));
    OwnConcat(PanelSpecs(1) + PanelSpecs(2) + PanelSpecs(3), PanelSpecs(4));
    MappingSpecsAreOwn(records, Groups(records, selectedSlot, false, collate), selectedSlot, false, device);
    MappingSpecsAreOwn(records, Groups(records, selectedSlot, true, collate), selectedSlot, true, device);
  }

  lemma NoSpecsAreOwn()
    ensures OwnSpecs([])
  {
  }

  lemma OwnSpecsAreBody(specs: seq<Spec>)
    requires OwnSpecs(specs) && |specs| <= MAX_CONTROLS
    ensures GoodSpecs(specs) && Body(Finals(specs), |specs| + 1)
  {
    hide Final, Finals, SpecPair, Body;
    forall i, j | 0 <= i < |specs| && 0 <= j < |specs| ensures SpecPair(specs, i, j) {
      OwnSwitches(specs, i, j);
    }
    FinalsAreBody(specs);
  }

  /** Every template starts a document that satisfies the invariant, whatever
      the document before it was. */
  lemma TemplateStarts(d: Document, template: StartTemplate, records: seq<Record>, selectedSlot: int, device: string,
                       collate: Collation)
    requires !Refused(template, records, selectedSlot)
    ensures var r, specs := ApplyTemplate(d, template, records, selectedSlot, device, collate),
                            TemplateSpecs(template, records, selectedSlot, device, collate);
      Inv(r) && r.controls == Reconcile(Finals(specs)) && r.nextId == |specs| + 1 && |specs| <= MAX_CONTROLS
  {
    hide ApplyTemplate, TemplateSpecs, OwnSpecs, GoodSpecs, Body, Finals, Reconcile, Sanitize, Started, BuildAll, Refused, Inv,
      TemplateLayout, TemplateStage;
    SpecsFit(template, records, selectedSlot, device, collate);
    TemplateSpecsAreOwn(template, records, selectedSlot, device, collate);
    var specs := TemplateSpecs(template, records, selectedSlot, device, collate);
    OwnSpecsAreBody(specs);
    StartedKeeps(d, Start(template), TemplateLayout(template), TemplateStage(template), specs);
    TemplateIs(d, template, records, selectedSlot, device, collate);
  }

  lemma TemplateIs(d: Document, template: StartTemplate, records: seq<Record>, selectedSlot: int, device: string, collate: Collation)
    requires !Refused(template, records, selectedSlot)
    ensures ApplyTemplate(d, template, records, selectedSlot, device, collate)
         == Sanitize(Started(d, Start(template), TemplateLayout(template), TemplateStage(template),
                             BuildAll(TemplateSpecs(template, records, selectedSlot, device, collate), 1)))
  {
    hide TemplateSpecs, Sanitize, Started, BuildAll, Refused;
  }

  // ----- the Workbench migration

  lemma MigratedSpecIsGood(p: Placed, arcade: bool, device: string)
    ensures GoodSpec(MigratedSpec(p, arcade, device))
  {
  }

  /** Views of one switch have the same channels. */
  lemma MigratedChannels(p: Placed, q: Placed, arcade: bool, device: string)
    requires CleanString(p.key, 96) == CleanString(q.key, 96)
    ensures FinalChannels(MigratedSpec(p, arcade, device)) == FinalChannels(MigratedSpec(q, arcade, device))
  {
    MigratedInput(p, arcade, device);
    MigratedInput(q, arcade, device);
    hide MigratedSpec, FinalChannels, CleanString;
  }

  /** An empty key and one that cleaning empties leave the channel unassigned. */
  lemma MigratedInput(p: Placed, arcade: bool, device: string)
    ensures FinalChannels(MigratedSpec(p, arcade, device)) ==
      [Channel("press", "Press", CleanInput(if CleanString(p.key, 96) == "" then Unassigned else
                                            Keyboard(CleanString(p.key, 96), CleanString(device, 240))), None, false)]
  {
    NothingStaysNothing();
    hide CleanString;
  }

  lemma ConfirmedPair(a: Control, b: Control)
    requires a.resolution.Confirmed? && a.channels == b.channels && Agree(a.channels, a.channels)
    ensures PairHolds(a, b)
  {
  }

  lemma MigratedPair(placed: seq<Placed>, arcade: bool, device: string, i: nat, j: nat)
    requires |placed| <= MAX_CONTROLS && i < |placed| && j < |placed|
    ensures SpecPair(MigratedSpecs(placed, arcade, device), i, j)
  {
    hide MigratedSpec, Final, GeneratedId, Member, PairHolds, SpecPair, FinalChannels, Agree, Settled, SwitchOf, CleanString, KeyOf;
    var specs := MigratedSpecs(placed, arcade, device);
    SpecPairMeans(specs, i, j);
    MigratedFinal(placed[i], arcade, device, 1 + i);
    MigratedFinal(placed[j], arcade, device, 1 + j);
    var a, b := Final(specs[i], 1 + i), Final(specs[j], 1 + j);
    if SwitchOf(placed[i].key) == SwitchOf(placed[j].key) {
      SwitchTellsKey(placed[i].key);
      SwitchTellsKey(placed[j].key);
      MigratedChannels(placed[i], placed[j], arcade, device);
      ConfirmedPair(a, b);
    } else {
      ApartHolds(a, b);
    }
  }

  lemma MigratedFinal(p: Placed, arcade: bool, device: string, n: nat)
    requires 1 <= n <= MAX_SAFE_INTEGER
    ensures var s := MigratedSpec(p, arcade, device);
      && Final(s, n).physicalId == SwitchOf(p.key) && Final(s, n).resolution.Confirmed?
      && Final(s, n).channels == FinalChannels(s) && Agree(Final(s, n).channels, Final(s, n).channels)
  {
    var s := MigratedSpec(p, arcade, device);
    hide Settled, Final, GeneratedId, FinalChannels, Kept, Agree, Numbered, Unlinked, OpenQuestion, CleanString;
    MigratedSpecIsGood(p, arcade, device);
    BuiltIsMember(s, n);
    KeptAgrees(Final(s, n));
  }

  lemma MigratedSpecsAreBody(placed: seq<Placed>, arcade: bool, device: string)
    requires |placed| <= MAX_CONTROLS
    ensures GoodSpecs(MigratedSpecs(placed, arcade, device))
    ensures Body(Finals(MigratedSpecs(placed, arcade, device)), |placed| + 1)
  {
    var specs := MigratedSpecs(placed, arcade, device);
    hide MigratedSpec, SpecPair, Body, Finals, GoodSpec;
    forall i, j | 0 <= i < |specs| && 0 <= j < |specs| ensures SpecPair(specs, i, j) {
      MigratedPair(placed, arcade, device, i, j);
    }
    forall i | 0 <= i < |specs| ensures GoodSpec(specs[i]) {
      MigratedSpecIsGood(placed[i], arcade, device);
    }
    FinalsAreBody(specs);
  }

  /** Every migration of an unstarted document does so too, whatever the text
      of its keys: each control's switch is its key's, and controls that share a
      switch had keys that clean alike. */
  lemma MigrationStarts(d: Document, placed: seq<Placed>, arcade: bool, device: string)
    requires !d.started && 1 <= |placed| <= MAX_CONTROLS
    ensures var r := Migrate(d, placed, arcade, device);
      && Inv(r) && r.started && |r.controls| == |placed| && r.nextId == |placed| + 1
      && (forall i | 0 <= i < |placed| :: r.controls[i].physicalId == SwitchOf(placed[i].key) && r.controls[i].resolution.Confirmed?)
      && forall i, j | 0 <= i < |placed| && 0 <= j < |placed| && r.controls[i].physicalId == r.controls[j].physicalId ::
           CleanString(placed[i].key, 96) == CleanString(placed[j].key, 96)
  {
    var specs := MigratedSpecs(placed, arcade, device);
    hide Final, Finals, Body, Sanitize, BuildAll, Started, MigratedSpec, GoodSpecs, Inv, Slots, HasPeer, SwitchOf, CleanString, KeyOf, Settled;
    MigratedSpecsAreBody(placed, arcade, device);
    FinalsSpec(specs);
    StartedKeeps(d, WorkbenchMigration, if |Slots(BuildAll(specs, 1))| > 1 then FourPanels else SinglePanel, Route, specs);
    forall i | 0 <= i < |placed|
      ensures Finals(specs)[i].physicalId == SwitchOf(placed[i].key) && Finals(specs)[i].resolution.Confirmed?
      ensures KeyOf(SwitchOf(placed[i].key)) == CleanString(placed[i].key, 96)
    {
      MigratedFinal(placed[i], arcade, device, 1 + i);
      SwitchTellsKey(placed[i].key);
    }
  }
}
