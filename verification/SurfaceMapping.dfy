/** What the mapping templates promise: one control for each distinct (player,
    key), and when it is flagged unresolved. */
module SurfaceMapping {
  import opened Options
  import opened Strings
  import opened SurfaceText
  import opened Surface
  import opened SurfaceEdits
  import opened SurfaceStable
  import opened SurfaceInvariant
  import opened SurfaceBuilt
  import opened SurfaceStarts

  /** The places in the order their controls are drawn. */
  function Drawn(groups: seq<Place>, selectedSlot: int, four: bool): seq<Place> {
    if four then OfSlot(groups, 1) + OfSlot(groups, 2) + OfSlot(groups, 3) + OfSlot(groups, 4)
    else OfSlot(groups, selectedSlot)
  }

  // ----- drawing permutes the groups

  lemma {:induction false} SlotsOnce(groups: seq<Place>, p: Place)
    requires forall q | q in groups :: 1 <= q.slot <= 4
    ensures multiset(Drawn(groups, 0, true))[p] == multiset(groups)[p]
  {
    var a, b, c, d := OfSlot(groups, 1), OfSlot(groups, 2), OfSlot(groups, 3), OfSlot(groups, 4);
    OneSlot(groups, 1, p);
    OneSlot(groups, 2, p);
    OneSlot(groups, 3, p);
    OneSlot(groups, 4, p);
    hide OfSlot;
    assert multiset(a + b + c + d) == multiset(a) + multiset(b) + multiset(c) + multiset(d);
    if p !in groups {
      assert multiset(groups)[p] == 0;
    }
  }

  lemma {:induction false} OneSlot(groups: seq<Place>, slot: int, p: Place)
    ensures multiset(OfSlot(groups, slot))[p] == if p.slot == slot then multiset(groups)[p] else 0
  {
    if groups != [] {
      var front, last := groups[..|groups| - 1], groups[|groups| - 1];
      OneSlot(front, slot, p);
      assert groups == front + [last];
    }
  }

  lemma {:induction false} DistinctOnce(places: seq<Place>, p: Place)
    requires forall i, j | 0 <= i < j < |places| :: places[i] != places[j]
    ensures multiset(places)[p] == if p in places then 1 else 0
  {
    if places != [] {
      var front, last := places[..|places| - 1], places[|places| - 1];
      DistinctOnce(front, p);
      assert places == front + [last];
      assert last !in front;
    }
  }

  lemma GroupsOnce(records: seq<Record>, selectedSlot: int, four: bool, collate: Collation, p: Place)
    ensures multiset(Groups(records, selectedSlot, four, collate))[p] == if IsPlaceOf(p, records, selectedSlot, four) then 1 else 0
  {
    var places := Places(records, selectedSlot, four);
    PlacesSpec(records, selectedSlot, four);
    DistinctOnce(Distinct(places), p);
    hide Places, Distinct, IsPlaceOf;
  }

  /** Every eligible place is drawn exactly once, and no other is drawn. */
  lemma DrawnOnce(records: seq<Record>, selectedSlot: int, four: bool, collate: Collation, p: Place)
    ensures multiset(Drawn(Groups(records, selectedSlot, four, collate), selectedSlot, four))[p]
         == if IsPlaceOf(p, records, selectedSlot, four) then 1 else 0
  {
    var groups := Groups(records, selectedSlot, four, collate);
    PlacesSpec(records, selectedSlot, four);
    assert forall q | q in groups :: q in Places(records, selectedSlot, four);
    GroupsOnce(records, selectedSlot, four, collate, p);
    hide Groups, Places, Distinct, IsPlaceOf;
    if four {
      SlotsOnce(groups, p);
    } else {
      WholeSlot(groups, selectedSlot);
    }
  }

  // ----- by player, and then by key

  /** By player, and by key for one player. */
  predicate DrawnBefore(p: Place, q: Place, collate: Collation) {
    p.slot < q.slot || (p.slot == q.slot && collate(p.key, q.key))
  }

  ghost predicate OrdersKeys(collate: Collation) {
    (forall a, b :: collate(a, b) || collate(b, a)) && forall a, b, c :: collate(a, b) && collate(b, c) ==> collate(a, c)
  }

  ghost predicate InDrawingOrder(places: seq<Place>, collate: Collation) {
    forall i, j | 0 <= i < j < |places| :: DrawnBefore(places[i], places[j], collate)
  }

  lemma GroupsInOrder(records: seq<Record>, selectedSlot: int, four: bool, collate: Collation)
    requires OrdersKeys(collate)
    ensures InDrawingOrder(Groups(records, selectedSlot, four, collate), collate)
  {
    var before := PlaceOrder(collate);
    forall p, q ensures before(p, q) || before(q, p) {
      assert collate(p.key, q.key) || collate(q.key, p.key);
    }
    forall p, q, r | before(p, q) && before(q, r) ensures before(p, r) {
      assert collate(p.key, q.key) && collate(q.key, r.key) ==> collate(p.key, r.key);
    }
    SortIsInOrder(Distinct(Places(records, selectedSlot, four)), before);
  }

  lemma {:induction false} SlotKeepsOrder(groups: seq<Place>, slot: int, collate: Collation)
    requires InDrawingOrder(groups, collate)
    ensures InDrawingOrder(OfSlot(groups, slot), collate)
    ensures forall p | p in OfSlot(groups, slot) :: p in groups
  {
    if groups != [] {
      var front, last := groups[..|groups| - 1], groups[|groups| - 1];
      SlotKeepsOrder(front, slot, collate);
      assert groups == front + [last];
      var own := OfSlot(front, slot);
      forall i | 0 <= i < |own| ensures DrawnBefore(own[i], last, collate) {
        assert own[i] in own;
        var k :| 0 <= k < |front| && front[k] == own[i];
        assert groups[k] == front[k];
      }
    }
  }

  /** The controls of a mapping template come by player, and by key for one player. */
  lemma DrawnInOrder(records: seq<Record>, selectedSlot: int, four: bool, collate: Collation)
    requires OrdersKeys(collate)
    ensures InDrawingOrder(Drawn(Groups(records, selectedSlot, four, collate), selectedSlot, four), collate)
  {
    var groups := Groups(records, selectedSlot, four, collate);
    GroupsInOrder(records, selectedSlot, four, collate);
    hide Groups, OfSlot;
    if four {
      SlotKeepsOrder(groups, 1, collate);
      SlotKeepsOrder(groups, 2, collate);
      SlotKeepsOrder(groups, 3, collate);
      SlotKeepsOrder(groups, 4, collate);
    } else {
      SlotKeepsOrder(groups, selectedSlot, collate);
    }
  }

  // ----- counting appearances

  lemma {:induction false} AppearancesConcat(a: seq<Place>, b: seq<Place>, key: string)
    ensures Appearances(a + b, key) == Appearances(a, key) + Appearances(b, key)
  {
    if b == [] {
      assert a + b == a;
    } else {
      AppearancesConcat(a, b[..|b| - 1], key);
      assert (a + b)[..|a + b| - 1] == a + b[..|b| - 1];
    }
  }

  lemma {:induction false} AppearancesBySlot(groups: seq<Place>, key: string)
    requires forall p | p in groups :: 1 <= p.slot <= 4
    ensures Appearances(OfSlot(groups, 1), key) + Appearances(OfSlot(groups, 2), key)
          + Appearances(OfSlot(groups, 3), key) + Appearances(OfSlot(groups, 4), key) == Appearances(groups, key)
  {
    if groups != [] {
      var front, last := groups[..|groups| - 1], groups[|groups| - 1];
      AppearancesBySlot(front, key);
      AppearancesOfSlot(groups, 1, key);
      AppearancesOfSlot(groups, 2, key);
      AppearancesOfSlot(groups, 3, key);
      AppearancesOfSlot(groups, 4, key);
    }
  }

  lemma AppearancesOfSlot(groups: seq<Place>, slot: int, key: string)
    requires groups != []
    ensures var front, last := groups[..|groups| - 1], groups[|groups| - 1];
      Appearances(OfSlot(groups, slot), key)
      == Appearances(OfSlot(front, slot), key) + (if last.slot == slot && last.key == key then 1 else 0)
  {
    var front, last := OfSlot(groups[..|groups| - 1], slot), groups[|groups| - 1];
    assert (front + [last])[..|front|] == front;
  }

  lemma AppearancesAsDrawn(records: seq<Record>, selectedSlot: int, four: bool, collate: Collation, key: string)
    ensures var groups := Groups(records, selectedSlot, four, collate);
      Appearances(Drawn(groups, selectedSlot, four), key) == Appearances(groups, key)
  {
    var groups := Groups(records, selectedSlot, four, collate);
    PlacesSpec(records, selectedSlot, four);
    assert forall p | p in groups :: p in Places(records, selectedSlot, four);
    hide Groups, Places, IsPlaceOf, Appearances;
    if four {
      AppearancesBySlot(groups, key);
      AppearancesConcat(OfSlot(groups, 1), OfSlot(groups, 2), key);
      AppearancesConcat(OfSlot(groups, 1) + OfSlot(groups, 2), OfSlot(groups, 3), key);
      AppearancesConcat(OfSlot(groups, 1) + OfSlot(groups, 2) + OfSlot(groups, 3), OfSlot(groups, 4), key);
    } else {
      WholeSlot(groups, selectedSlot);
    }
  }

  /** Another position carries the key. */
  ghost predicate Elsewhere(places: seq<Place>, i: nat, key: string) {
    exists j | 0 <= j < |places| :: j != i && places[j].key == key
  }

  lemma {:induction false} NoAppearance(places: seq<Place>, key: string)
    ensures Appearances(places, key) == 0 <==> forall j | 0 <= j < |places| :: places[j].key != key
  {
    if places != [] {
      NoAppearance(places[..|places| - 1], key);
    }
  }

  lemma {:induction false} MoreThanOne(places: seq<Place>, i: nat, key: string)
    requires i < |places| && places[i].key == key
    ensures Appearances(places, key) > 1 <==> Elsewhere(places, i, key)
  {
    var front := places[..|places| - 1];
    if i == |front| {
      NoAppearance(front, key);
      if Appearances(places, key) > 1 {
        var j :| 0 <= j < |front| && front[j].key == key;
        assert places[j].key == key;
      }
      if Elsewhere(places, i, key) {
        var j :| 0 <= j < |places| && j != i && places[j].key == key;
        assert front[j].key == key;
      }
    } else {
      MoreThanOne(front, i, key);
      NoAppearance(front, key);
      assert front[i].key == key;
      if Elsewhere(places, i, key) {
        var j :| 0 <= j < |places| && j != i && places[j].key == key;
        assert j < |front| ==> front[j].key == key;
      }
      if places[|front|].key == key {
        assert Elsewhere(places, i, key);
      }
    }
  }

  // ----- the specifications, drawn place by drawn place

  predicate DrawnAs(s: Spec, p: Place, groups: seq<Place>, four: bool, device: string) {
    && s.inputKey == p.key && s.device == device && s.physicalId.None? && !s.kind.Joystick?
    && s.playerSlot == (if four then Some(p.slot) else None)
    && s.resolution == (if Appearances(groups, p.key) > 1 then Unresolved else Confirmed)
  }

  ghost predicate AllDrawnAs(specs: seq<Spec>, places: seq<Place>, groups: seq<Place>, four: bool, device: string) {
    |specs| == |places| && forall i | 0 <= i < |specs| :: DrawnAs(specs[i], places[i], groups, four, device)
  }

  lemma SlotIsDrawn(records: seq<Record>, groups: seq<Place>, slot: int, four: bool, device: string)
    requires four ==> 1 <= slot <= 4
    ensures AllDrawnAs(SlotSpecs(records, groups, slot, four, device), OfSlot(groups, slot), groups, four, device)
  {
    hide PlayerGrid.Cell, GroupCaption, Appearances;
  }

  lemma DrawnConcat(s: seq<Spec>, t: seq<Spec>, p: seq<Place>, q: seq<Place>, groups: seq<Place>, four: bool, device: string)
    requires AllDrawnAs(s, p, groups, four, device) && AllDrawnAs(t, q, groups, four, device)
    ensures AllDrawnAs(s + t, p + q, groups, four, device)
  {
    hide DrawnAs;
  }

  lemma SpecsAreDrawn(records: seq<Record>, groups: seq<Place>, selectedSlot: int, four: bool, device: string)
    ensures AllDrawnAs(MappingSpecs(records, groups, selectedSlot, four, device), Drawn(groups, selectedSlot, four), groups, four, device)
  {
    hide SlotSpecs, OfSlot, AllDrawnAs;
    if four {
      var a, b := SlotSpecs(records, groups, 1, true, device), SlotSpecs(records, groups, 2, true, device);
      var c, d := SlotSpecs(records, groups, 3, true, device), SlotSpecs(records, groups, 4, true, device);
      SlotIsDrawn(records, groups, 1, true, device);
      SlotIsDrawn(records, groups, 2, true, device);
      SlotIsDrawn(records, groups, 3, true, device);
      SlotIsDrawn(records, groups, 4, true, device);
      DrawnConcat(a, b, OfSlot(groups, 1), OfSlot(groups, 2), groups, true, device);
      DrawnConcat(a + b, c, OfSlot(groups, 1) + OfSlot(groups, 2), OfSlot(groups, 3), groups, true, device);
      DrawnConcat(a + b + c, d, OfSlot(groups, 1) + OfSlot(groups, 2) + OfSlot(groups, 3), OfSlot(groups, 4), groups, true, device);
    } else {
      SlotIsDrawn(records, groups, selectedSlot, false, device);
    }
  }

  // ----- the theorem

  /** The keys a control drawn for a key carries: the key cleaned twice, if
      cleaning leaves anything. */
  function DrawnKeys(key: string): set<string> {
    if CleanString(key, 96) == "" then {} else {CleanString(CleanString(key, 96), 96)}
  }

  /** What one generated control is. */
  predicate GeneratedFor(c: Control, p: Place, n: nat, four: bool) {
    && c.id == GeneratedId(n) && c.physicalId == PhysicalIdOf(GeneratedId(n)) && KeyboardKeys(c) == DrawnKeys(p.key)
    && (four && 1 <= p.slot <= 4 ==> c.playerSlot == Some(p.slot))
  }

  lemma FinalInputIs(key: string, device: string)
    ensures FinalInput(key, device) == if CleanString(key, 96) == "" then Unassigned else
      Keyboard(CleanString(CleanString(key, 96), 96), CleanString(CleanString(device, 240), 240))
  {
    CleanTwiceSettles(key, 96);
    hide CleanString;
  }

  lemma OneChannel(s: Spec)
    requires !s.kind.Joystick?
    ensures |FinalChannels(s)| == 1
    ensures FinalChannels(s)[0].input.Keyboard? <==> CleanString(s.inputKey, 96) != ""
    ensures CleanString(s.inputKey, 96) != "" ==> FinalChannels(s)[0].input.key == CleanString(CleanString(s.inputKey, 96), 96)
  {
    FinalInputIs(s.inputKey, s.device);
    NothingStaysNothing();
    hide FinalInput, CleanString;
  }

  lemma NoKey(c: Control)
    requires |c.channels| == 1 && c.channels[0].input.Unassigned?
    ensures KeyboardKeys(c) == {}
  {
  }

  lemma FinalIsGenerated(s: Spec, p: Place, groups: seq<Place>, four: bool, device: string, n: nat)
    requires DrawnAs(s, p, groups, four, device) && 1 <= n <= MAX_SAFE_INTEGER
    ensures GeneratedFor(Final(s, n), p, n, four) && Final(s, n).resolution == s.resolution
  {
    hide Final, GeneratedId, Member, Built, Appearances, FinalChannels, KeyboardKeys, PhysicalIdOf, Named, CleanString;
    BuiltIsMember(s, n);
    OneChannel(s);
    if CleanString(p.key, 96) == "" {
      NoKey(Final(s, n));
    } else {
      OneKey(Final(s, n), CleanString(CleanString(p.key, 96), 96));
    }
  }

  /** The controls a mapping template generates, before any is reconciled. */
  lemma GeneratedControls(records: seq<Record>, selectedSlot: int, four: bool, device: string, collate: Collation, i: nat)
    requires var groups := Groups(records, selectedSlot, four, collate);
      i < |MappingSpecs(records, groups, selectedSlot, four, device)| <= MAX_CONTROLS
    ensures var groups := Groups(records, selectedSlot, four, collate);
      var drawn, specs := Drawn(groups, selectedSlot, four), MappingSpecs(records, groups, selectedSlot, four, device);
      && |drawn| == |specs| && GeneratedFor(Finals(specs)[i], drawn[i], 1 + i, four)
      && (Finals(specs)[i].resolution.Unresolved? <==> Elsewhere(drawn, i, drawn[i].key))
  {
    var groups := Groups(records, selectedSlot, four, collate);
    var drawn, specs := Drawn(groups, selectedSlot, four), MappingSpecs(records, groups, selectedSlot, four, device);
    hide Groups, MappingSpecs, Drawn, Final, GeneratedFor, Elsewhere, Appearances;
    SpecsAreDrawn(records, groups, selectedSlot, four, device);
    FinalIsGenerated(specs[i], drawn[i], groups, four, device, 1 + i);
    AppearancesAsDrawn(records, selectedSlot, four, collate, drawn[i].key);
    MoreThanOne(drawn, i, drawn[i].key);
    FinalsSpec(specs);
  }

  ghost predicate AllGenerated(controls: seq<Control>, drawn: seq<Place>, four: bool) {
    && |controls| == |drawn|
    && (forall i | 0 <= i < |controls| :: GeneratedFor(controls[i], drawn[i], 1 + i, four))
  }

  /** The flag is raised for a repeated key, as it is written. */
  ghost predicate FlaggedAsDrawn(controls: seq<Control>, drawn: seq<Place>) {
    |controls| == |drawn| && forall i | 0 <= i < |controls| :: controls[i].resolution.Unresolved? <==> Elsewhere(drawn, i, drawn[i].key)
  }

  lemma SameKeyIsPeer(controls: seq<Control>, i: nat, j: nat, p: Place, q: Place, four: bool)
    requires i < |controls| && j < |controls| && i != j && p.key == q.key && DrawnKeys(p.key) != {} && controls[j].resolution.Unresolved?
    requires GeneratedFor(controls[i], p, 1 + i, four) && GeneratedFor(controls[j], q, 1 + j, four)
    ensures HasPeer(controls, controls[i])
  {
    hide KeyboardKeys, GeneratedId, PhysicalIdOf, CleanString;
    IdsApart(1 + i, 1 + j);
    assert IsPeer(controls[j], controls[i]);
  }

  /** Reconciling keeps the flag of every key that cleaning does not empty, and
      of no other. */
  lemma FlagsSurvive(controls: seq<Control>, drawn: seq<Place>, four: bool, i: nat)
    requires AllGenerated(controls, drawn, four) && FlaggedAsDrawn(controls, drawn) && i < |controls|
    ensures Reconcile(controls)[i].resolution.Unresolved? <==> Elsewhere(drawn, i, drawn[i].key) && DrawnKeys(drawn[i].key) != {}
    ensures GeneratedFor(Reconcile(controls)[i], drawn[i], 1 + i, four)
  {
    hide KeyboardKeys, GeneratedId, PhysicalIdOf, DrawnKeys;
    if Elsewhere(drawn, i, drawn[i].key) {
      var j :| 0 <= j < |drawn| && j != i && drawn[j].key == drawn[i].key;
      assert Elsewhere(drawn, j, drawn[j].key);
      if DrawnKeys(drawn[i].key) != {} {
        SameKeyIsPeer(controls, i, j, drawn[i], drawn[j], four);
      }
    }
    SameKeysOfResolution(controls[i], Reconcile(controls)[i]);
  }

  lemma SameKeysOfResolution(c: Control, r: Control)
    requires r.channels == c.channels
    ensures KeyboardKeys(r) == KeyboardKeys(c)
  {
  }

  /** The flag is raised for a repeated key that cleaning does not empty. */
  ghost predicate FlaggedExactly(controls: seq<Control>, drawn: seq<Place>) {
    && |controls| == |drawn|
    && forall i | 0 <= i < |controls| ::
         controls[i].resolution.Unresolved? <==> Elsewhere(drawn, i, drawn[i].key) && DrawnKeys(drawn[i].key) != {}
  }

  lemma AllFlagsSurvive(controls: seq<Control>, drawn: seq<Place>, four: bool)
    requires AllGenerated(controls, drawn, four) && FlaggedAsDrawn(controls, drawn)
    ensures AllGenerated(Reconcile(controls), drawn, four) && FlaggedExactly(Reconcile(controls), drawn)
  {
    hide GeneratedFor, Elsewhere, DrawnKeys, Reconciled, FlaggedAsDrawn;
    forall i | 0 <= i < |controls|
      ensures GeneratedFor(Reconcile(controls)[i], drawn[i], 1 + i, four)
      ensures Reconcile(controls)[i].resolution.Unresolved? <==> Elsewhere(drawn, i, drawn[i].key) && DrawnKeys(drawn[i].key) != {}
    {
      FlagsSurvive(controls, drawn, four, i);
    }
  }

  lemma AllAreGenerated(records: seq<Record>, selectedSlot: int, four: bool, device: string, collate: Collation)
    requires |MappingSpecs(records, Groups(records, selectedSlot, four, collate), selectedSlot, four, device)| <= MAX_CONTROLS
    ensures var groups := Groups(records, selectedSlot, four, collate);
      var controls, drawn := Finals(MappingSpecs(records, groups, selectedSlot, four, device)), Drawn(groups, selectedSlot, four);
      AllGenerated(controls, drawn, four) && FlaggedAsDrawn(controls, drawn)
  {
    var groups := Groups(records, selectedSlot, four, collate);
    var drawn, specs := Drawn(groups, selectedSlot, four), MappingSpecs(records, groups, selectedSlot, four, device);
    hide Groups, MappingSpecs, Drawn, Finals, GeneratedFor, Elsewhere, DrawnAs;
    SpecsAreDrawn(records, groups, selectedSlot, four, device);
    FinalsSpec(specs);
    forall i | 0 <= i < |specs|
      ensures GeneratedFor(Finals(specs)[i], drawn[i], 1 + i, four)
      ensures Finals(specs)[i].resolution.Unresolved? <==> Elsewhere(drawn, i, drawn[i].key)
    {
      GeneratedControls(records, selectedSlot, four, device, collate, i);
    }
  }

  /** Another control carries one of the control's keys. */
  ghost predicate SharesKey(controls: seq<Control>, i: nat)
    requires i < |controls|
  {
    exists j | 0 <= j < |controls| :: j != i && KeyboardKeys(controls[j]) * KeyboardKeys(controls[i]) != {}
  }

  /** Another position has a key that cleans to the same, and to something. */
  ghost predicate CleansAlikeElsewhere(places: seq<Place>, i: nat)
    requires i < |places|
  {
    exists j | 0 <= j < |places| :: j != i && DrawnKeys(places[j].key) == DrawnKeys(places[i].key) != {}
  }

  lemma SharingIsCleaningAlike(controls: seq<Control>, drawn: seq<Place>, four: bool, i: nat)
    requires AllGenerated(controls, drawn, four) && i < |controls|
    ensures SharesKey(controls, i) <==> CleansAlikeElsewhere(drawn, i)
  {
    hide KeyboardKeys, GeneratedId, CleanString;
    if SharesKey(controls, i) {
      var j :| 0 <= j < |controls| && j != i && KeyboardKeys(controls[j]) * KeyboardKeys(controls[i]) != {};
      assert GeneratedFor(controls[j], drawn[j], 1 + j, four);
      assert DrawnKeys(drawn[j].key) == DrawnKeys(drawn[i].key) != {};
    }
    if CleansAlikeElsewhere(drawn, i) {
      var j :| 0 <= j < |drawn| && j != i && DrawnKeys(drawn[j].key) == DrawnKeys(drawn[i].key) != {};
      assert GeneratedFor(controls[j], drawn[j], 1 + j, four);
      assert KeyboardKeys(controls[j]) * KeyboardKeys(controls[i]) != {};
    }
  }

  /** A mapping template draws one control for each distinct (player, key), as
      many as its guard counts, and flags one exactly when its key, as it is
      written, is drawn again and cleaning leaves something of it. */
  lemma MappingTemplateIsExact(d: Document, template: StartTemplate, records: seq<Record>, selectedSlot: int, device: string,
                               collate: Collation)
    requires template.MappingSelected? || template.MappingFour?
    requires !Refused(template, records, selectedSlot)
    ensures var four := template.MappingFour?;
      var r := ApplyTemplate(d, template, records, selectedSlot, device, collate);
      var drawn := Drawn(Groups(records, selectedSlot, four, collate), selectedSlot, four);
      && |r.controls| == |drawn| == GeneratedCount(records, selectedSlot, four)
      && (forall p :: multiset(drawn)[p] == if IsPlaceOf(p, records, selectedSlot, four) then 1 else 0)
      && AllGenerated(r.controls, drawn, four) && FlaggedExactly(r.controls, drawn)
  {
    var four := template.MappingFour?;
    var groups := Groups(records, selectedSlot, four, collate);
    var drawn, specs := Drawn(groups, selectedSlot, four), MappingSpecs(records, groups, selectedSlot, four, device);
    hide Groups, MappingSpecs, Drawn, Finals, IsPlaceOf, GeneratedCount, ApplyTemplate, Reconcile, Inv, AllGenerated, FlaggedAsDrawn,
      FlaggedExactly;
    assert specs == TemplateSpecs(template, records, selectedSlot, device, collate);
    TemplateStarts(d, template, records, selectedSlot, device, collate);
    MappingSpecsCount(records, selectedSlot, four, device, collate);
    AllAreGenerated(records, selectedSlot, four, device, collate);
    AllFlagsSurvive(Finals(specs), drawn, four);
    GeneratedLengths(Finals(specs), drawn, four);
    FinalsSpec(specs);
    forall p ensures multiset(drawn)[p] == if IsPlaceOf(p, records, selectedSlot, four) then 1 else 0 {
      DrawnOnce(records, selectedSlot, four, collate, p);
    }
  }

  lemma GeneratedLengths(controls: seq<Control>, drawn: seq<Place>, four: bool)
    requires AllGenerated(controls, drawn, four)
    ensures |controls| == |drawn|
  {
    hide GeneratedFor;
  }

  /** A generated control is flagged exactly when another carries its key, but
      for keys that only clean alike: for each control, the flag says so exactly
      when a key that cleans alike elsewhere comes with one written alike. */
  lemma FlagsMeanSharingIff(d: Document, template: StartTemplate, records: seq<Record>, selectedSlot: int, device: string,
                            collate: Collation, i: nat)
    requires template.MappingSelected? || template.MappingFour?
    requires !Refused(template, records, selectedSlot)
    requires i < |Drawn(Groups(records, selectedSlot, template.MappingFour?, collate), selectedSlot, template.MappingFour?)|
    ensures var four := template.MappingFour?;
      var r := ApplyTemplate(d, template, records, selectedSlot, device, collate);
      var drawn := Drawn(Groups(records, selectedSlot, four, collate), selectedSlot, four);
      && |r.controls| == |drawn|
      && (r.controls[i].resolution.Unresolved? ==> SharesKey(r.controls, i))
      && ((r.controls[i].resolution.Unresolved? <==> SharesKey(r.controls, i))
          <==> (CleansAlikeElsewhere(drawn, i) ==> Elsewhere(drawn, i, drawn[i].key)))
  {
    var four := template.MappingFour?;
    var r := ApplyTemplate(d, template, records, selectedSlot, device, collate);
    var drawn := Drawn(Groups(records, selectedSlot, four, collate), selectedSlot, four);
    hide Groups, Drawn, GeneratedFor, IsPlaceOf, GeneratedCount, ApplyTemplate, SharesKey, AllGenerated, DrawnKeys, Refused;
    MappingTemplateIsExact(d, template, records, selectedSlot, device, collate);
    assert |r.controls| == |drawn|;
    assert AllGenerated(r.controls, drawn, four);
    SharingIsCleaningAlike(r.controls, drawn, four, i);
    if Elsewhere(drawn, i, drawn[i].key) && DrawnKeys(drawn[i].key) != {} {
      var j :| 0 <= j < |drawn| && j != i && drawn[j].key == drawn[i].key;
      assert DrawnKeys(drawn[j].key) == DrawnKeys(drawn[i].key) != {};
      assert CleansAlikeElsewhere(drawn, i);
    }
  }

  /** Two keys of one player that differ but clean alike are drawn as two
      controls that carry one key, and neither is flagged. */
  lemma KeysThatCleanAlike(d: Document, key: string, other: string, slot: int, fn: string, device: string, collate: Collation)
    requires key != other && DrawnKeys(key) == DrawnKeys(other) != {}
    ensures var records := [Record(key, slot, fn, ""), Record(other, slot, fn, "")];
      var r := ApplyTemplate(d, MappingSelected, records, slot, device, collate);
      && !Refused(MappingSelected, records, slot) && |r.controls| == 2
      && forall i | 0 <= i < 2 :: r.controls[i].resolution.Confirmed? && SharesKey(r.controls, i)
  {
    var records := [Record(key, slot, fn, ""), Record(other, slot, fn, "")];
    TwoPlaces(key, other, slot, fn);
    var drawn := Drawn(Groups(records, slot, false, collate), slot, false);
    hide Groups, Drawn, IsPlaceOf, GeneratedCount, ApplyTemplate, SharesKey, AllGenerated, DrawnKeys, CleansAlikeElsewhere;
    var r := ApplyTemplate(d, MappingSelected, records, slot, device, collate);
    MappingTemplateIsExact(d, MappingSelected, records, slot, device, collate);
    TwoDrawn(drawn, Place(slot, key), Place(slot, other));
    forall i | 0 <= i < 2 ensures r.controls[i].resolution.Confirmed? && SharesKey(r.controls, i) {
      SharingIsCleaningAlike(r.controls, drawn, false, i);
    }
  }

  lemma TwoDrawn(drawn: seq<Place>, p: Place, q: Place)
    requires |drawn| == 2 && multiset(drawn)[p] == 1 && multiset(drawn)[q] == 1 && p.key != q.key
    requires DrawnKeys(p.key) == DrawnKeys(q.key) != {}
    ensures forall i | 0 <= i < 2 :: CleansAlikeElsewhere(drawn, i) && !Elsewhere(drawn, i, drawn[i].key)
  {
    hide DrawnKeys;
    assert p in drawn && q in drawn;
    assert drawn == [drawn[0], drawn[1]];
    forall i | 0 <= i < 2 ensures CleansAlikeElsewhere(drawn, i) {
      assert DrawnKeys(drawn[1 - i].key) == DrawnKeys(drawn[i].key);
    }
  }

  lemma TwoPlaces(key: string, other: string, slot: int, fn: string)
    requires key != other
    ensures var records := [Record(key, slot, fn, ""), Record(other, slot, fn, "")];
      && GeneratedCount(records, slot, false) == 2
      && IsPlaceOf(Place(slot, key), records, slot, false) && IsPlaceOf(Place(slot, other), records, slot, false)
  {
    var records := [Record(key, slot, fn, ""), Record(other, slot, fn, "")];
    assert records[..1] == [Record(key, slot, fn, "")];
    assert Places(records[..1], slot, false) == [Place(slot, key)];
    assert Places(records, slot, false) == [Place(slot, key), Place(slot, other)];
    assert (set p | p in Places(records, slot, false)) == {Place(slot, key), Place(slot, other)};
    assert records[0] in records && records[1] in records;
  }

  lemma SpacedKeyCleans()
    ensures DrawnKeys("A") == DrawnKeys("A ") == {"A"}
  {
    assert Smooth("A ");
    WordIsTidy("A");
    hide CleanString, Smooth;
    SettledMeans("A", 96);
    SpaceIsDropped("A ", 96);
    assert "A "[..1] == "A";
  }

  /** "A" and "A " are such keys. */
  lemma CleanedKeysCanMerge(d: Document, slot: int, fn: string, device: string, collate: Collation)
    ensures var records := [Record("A", slot, fn, ""), Record("A ", slot, fn, "")];
      var r := ApplyTemplate(d, MappingSelected, records, slot, device, collate);
      && !Refused(MappingSelected, records, slot) && |r.controls| == 2
      && forall i | 0 <= i < 2 :: r.controls[i].resolution.Confirmed? && KeyboardKeys(r.controls[i]) == {"A"}
  {
    hide DrawnKeys, ApplyTemplate, Refused, SharesKey, KeyboardKeys;
    SpacedKeyCleans();
    KeysThatCleanAlike(d, "A", "A ", slot, fn, device, collate);
    TwoCarry(d, slot, fn, device, collate);
  }

  lemma TwoCarry(d: Document, slot: int, fn: string, device: string, collate: Collation)
    ensures var records := [Record("A", slot, fn, ""), Record("A ", slot, fn, "")];
      var r := ApplyTemplate(d, MappingSelected, records, slot, device, collate);
      !Refused(MappingSelected, records, slot) ==> forall c | c in r.controls :: KeyboardKeys(c) == {"A"}
  {
    var records := [Record("A", slot, fn, ""), Record("A ", slot, fn, "")];
    var drawn := Drawn(Groups(records, slot, false, collate), slot, false);
    var r := ApplyTemplate(d, MappingSelected, records, slot, device, collate);
    hide Groups, Drawn, GeneratedCount, ApplyTemplate, DrawnKeys, KeyboardKeys, Refused, GeneratedId, PhysicalIdOf;
    if !Refused(MappingSelected, records, slot) {
      MappingTemplateIsExact(d, MappingSelected, records, slot, device, collate);
      SpacedKeyCleans();
      forall i | 0 <= i < |r.controls| ensures KeyboardKeys(r.controls[i]) == {"A"} {
        assert GeneratedFor(r.controls[i], drawn[i], 1 + i, false);
        assert multiset(drawn)[drawn[i]] > 0;
        assert IsPlaceOf(drawn[i], records, slot, false);
      }
    }
  }
}
