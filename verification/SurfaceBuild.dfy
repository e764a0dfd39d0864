/** The templates as they run: a build context that numbers and collects
    controls, and the loops that fill it. */
module SurfaceBuild {
  import opened Options
  import opened Strings
  import opened Surface
  import opened SurfaceEdits

  class BuildContext {
    var controls: seq<Control>
    var nextId: nat

    constructor ()
      ensures controls == [] && nextId == 1
    {
      controls := [];
      nextId := 1;
    }

    /** What the context holds after building `specs` from `before`. */
    ghost predicate Grown(before: seq<Control>, first: nat, specs: seq<Spec>)
      reads this
    {
      controls == before + BuildAll(specs, first) && nextId == first + |specs|
    }

    method Append(s: Spec)
      modifies this
      ensures Grown(old(controls), old(nextId), [s])
    {
      hide Built;
      ghost var before, first := controls, nextId;
      controls := controls + [Built(s, nextId)];
      nextId := nextId + 1;
      BuildAllSpec([s], first);
      assert BuildAll([s], first) == [Built(s, first)];
    }

    /** Building one more specification. */
    method AppendTo(s: Spec, ghost before: seq<Control>, ghost first: nat, ghost specs: seq<Spec>)
      requires Grown(before, first, specs)
      modifies this
      ensures Grown(before, first, specs + [s])
    {
      hide BuildAll;
      Append(s);
      BuildAllAppend(specs, [s], first);
    }

    method Player(slot: int)
      requires 1 <= slot <= 4
      modifies this
      ensures Grown(old(controls), old(nextId), PanelSpecs(slot))
    {
      hide BuildAll, Print, Plainly, PanelSpecs, Grown;
      ghost var before, first := controls, nextId;
      ghost var all := PanelSpecs(slot);
      NothingGrown(before, first);
      var p := "P" + Print(slot);
      var originX, originY := 26000 + (slot - 1) % 2 * 590000, 28000 + (slot - 1) / 2 * 342000;
      AppendTo(Plainly(Joystick, p + " stick", (originX + 34000) as real, (originY + 72000) as real, Some(slot)), before, first, []);
      assert [] + [all[0]] == all[..1];
      for button := 0 to 6
        invariant Grown(before, first, all[..button + 1])
      {
        AppendTo(Plainly(Button30, p + " B" + Print(button + 1), (originX + 292000 + button % 3 * 82000) as real,
                         (originY + 74000 + button / 3 * 82000 + button % 3 * 5000) as real, Some(slot)),
                 before, first, all[..button + 1]);
        assert all[..button + 1] + [all[button + 1]] == all[..button + 2];
      }
      AppendTo(Plainly(Button24, p + " Start", (originX + 246000) as real, (originY + 254000) as real, Some(slot)), before, first, all[..7]);
      assert all[..7] + [all[7]] == all[..8];
      AppendTo(Plainly(Button24, p + " Coin", (originX + 318000) as real, (originY + 254000) as real, Some(slot)), before, first, all[..8]);
      assert all[..8] + [all[8]] == all;
    }

    lemma NothingGrown(before: seq<Control>, first: nat)
      requires controls == before && nextId == first
      ensures Grown(before, first, [])
    {
      BuildAllSpec([], first);
    }

    method ArcadeStick()
      modifies this
      ensures Grown(old(controls), old(nextId), ArcadeStickSpecs())
    {
      hide BuildAll, Plainly, ArcadeStickSpecs, Grown;
      ghost var before, first := controls, nextId;
      ghost var all := ArcadeStickSpecs();
      NothingGrown(before, first);
      AppendTo(Plainly(Joystick, "Player stick", 110000.0, 230000.0, None), before, first, []);
      assert [] + [all[0]] == all[..1];
      for index := 0 to 8
        invariant Grown(before, first, all[..index + 1])
      {
        var row, column := index / 4, index % 4;
        AppendTo(Plainly(Button30, EIGHT[index], (565000 + column * 112000) as real,
                         (190000 + row * 104000 + column * 8000) as real, None), before, first, all[..index + 1]);
        assert all[..index + 1] + [all[index + 1]] == all[..index + 2];
      }
      AppendTo(Plainly(Button24, "Coin", 405000.0, 565000.0, None), before, first, all[..9]);
      assert all[..9] + [all[9]] == all[..10];
      AppendTo(Plainly(Button24, "Start", 492000.0, 565000.0, None), before, first, all[..10]);
      assert all[..10] + [all[10]] == all;
    }

    method Leverless()
      modifies this
      ensures Grown(old(controls), old(nextId), LeverlessSpecs())
    {
      hide BuildAll, Plainly, LeverlessSpecs, Grown;
      ghost var before, first := controls, nextId;
      ghost var all := LeverlessSpecs();
      NothingGrown(before, first);
      for index := 0 to 4
        invariant Grown(before, first, all[..index])
      {
        AppendTo(Plainly(Button30, DIRECTIONS[index].0, DIRECTIONS[index].1, DIRECTIONS[index].2, None), before, first, all[..index]);
        assert all[..index] + [all[index]] == all[..index + 1];
      }
      for index := 0 to 8
        invariant Grown(before, first, all[..index + 4])
      {
        var row, column := index / 4, index % 4;
        AppendTo(Plainly(Button30, EIGHT[index], (570000 + column * 110000) as real,
                         (250000 + row * 102000 + column * 7000) as real, None), before, first, all[..index + 4]);
        assert all[..index + 4] + [all[index + 4]] == all[..index + 5];
      }
      AppendTo(Plainly(Button24, "Select", 448000.0, 580000.0, None), before, first, all[..12]);
      assert all[..12] + [all[12]] == all[..13];
      AppendTo(Plainly(Button24, "Start", 530000.0, 580000.0, None), before, first, all[..13]);
      assert all[..13] + [all[13]] == all;
    }

    method FourPlayers()
      modifies this
      ensures Grown(old(controls), old(nextId), FourPlayerSpecs())
    {
      hide BuildAll, PanelSpecs;
      ghost var before, first := controls, nextId;
      NothingGrown(before, first);
      Player(1);
      BuildAllAppend(PanelSpecs(1), PanelSpecs(2), first);
      Player(2);
      BuildAllAppend(PanelSpecs(1) + PanelSpecs(2), PanelSpecs(3), first);
      Player(3);
      BuildAllAppend(PanelSpecs(1) + PanelSpecs(2) + PanelSpecs(3), PanelSpecs(4), first);
      Player(4);
    }

    /** The controls of one player's groups. */
    method DrawSlot(records: seq<Record>, groups: seq<Place>, grouped: map<Place, seq<Record>>, appearances: map<string, nat>,
                    slot: int, four: bool, device: string)
      requires four ==> 1 <= slot <= 4
      requires forall p | p in groups :: p in grouped && grouped[p] == GroupOf(records, p)
      requires forall p | p in groups :: p.key in appearances && appearances[p.key] == Appearances(groups, p.key)
      modifies this
      ensures Grown(old(controls), old(nextId), SlotSpecs(records, groups, slot, four, device))
    {
      hide BuildAll, GroupOf, Appearances, PlayerGrid.Cell, PlayerGrid.GridKind, NamesOf;
      ghost var before, first := controls, nextId;
      ghost var all := SlotSpecs(records, groups, slot, four, device);
      NothingGrown(before, first);
      var slotGroups := FilterSlot(groups, slot);
      for index := 0 to |slotGroups|
        invariant Grown(before, first, all[..index])
      {
        var place := slotGroups[index];
        assert place in groups by {
          OfSlotIsWithin(groups, slot);
        }
        var caption := OrElse(Join(Distinct(NamesOf(grouped[place])), " \U{00B7} "), place.key);
        var kind := if four then PlayerGrid.GridKind(|slotGroups|) else Button30;
        var x, y := (70000 + index % 8 * 128000) as real, (145000 + index / 8 * 112000) as real;
        if four {
          var cell := PlayerGrid.Cell(|slotGroups|, slot, index);
          x, y := cell.x, cell.y;
        }
        AppendTo(Spec(kind, caption, x, y, if four then Some(place.slot) else None, FromMapping, None,
                      if appearances[place.key] > 1 then Unresolved else Confirmed, SizeOf(kind).0, SizeOf(kind).1, place.key, device),
                 before, first, all[..index]);
        assert all[..index] + [all[index]] == all[..index + 1];
      }
      assert all[..|slotGroups|] == all;
    }

    /** One control for each distinct (player, key) of the mapping. */
    method Mapping(records: seq<Record>, selectedSlot: int, four: bool, device: string, collate: Collation)
      modifies this
      ensures Grown(old(controls), old(nextId), MappingSpecs(records, Groups(records, selectedSlot, four, collate), selectedSlot, four, device))
    {
      hide BuildAll, SlotSpecs, GroupOf, Appearances, Places, Distinct, SortBy;
      ghost var before, first := controls, nextId;
      var order, grouped := Grouping(records, selectedSlot, four);
      var groups := SortBy(order, PlaceOrder(collate));
      assert groups == Groups(records, selectedSlot, four, collate);
      hide Groups, PlaceOrder, Places, Distinct, SortBy;
      var appearances := CountAppearances(groups);
      if four {
        DrawSlot(records, groups, grouped, appearances, 1, true, device);
        var a, b, c, d := SlotSpecs(records, groups, 1, true, device), SlotSpecs(records, groups, 2, true, device),
                          SlotSpecs(records, groups, 3, true, device), SlotSpecs(records, groups, 4, true, device);
        BuildAllAppend(a, b, first);
        DrawSlot(records, groups, grouped, appearances, 2, true, device);
        BuildAllAppend(a + b, c, first);
        DrawSlot(records, groups, grouped, appearances, 3, true, device);
        BuildAllAppend(a + b + c, d, first);
        DrawSlot(records, groups, grouped, appearances, 4, true, device);
      } else {
        DrawSlot(records, groups, grouped, appearances, selectedSlot, false, device);
      }
    }
  }

  lemma {:induction false} OfSlotIsWithin(groups: seq<Place>, slot: int)
    ensures forall p | p in OfSlot(groups, slot) :: p in groups
  {
    if groups != [] {
      OfSlotIsWithin(groups[..|groups| - 1], slot);
      assert groups == groups[..|groups| - 1] + [groups[|groups| - 1]];
    }
  }

  method FilterSlot(groups: seq<Place>, slot: int) returns (own: seq<Place>)
    ensures own == OfSlot(groups, slot)
  {
    own := [];
    for i := 0 to |groups|
      invariant own == OfSlot(groups[..i], slot)
    {
      assert groups[..i + 1][..i] == groups[..i];
      if groups[i].slot == slot {
        own := own + [groups[i]];
      }
    }
    assert groups[..|groups|] == groups;
  }

  lemma GroupAppend(records: seq<Record>, r: Record, p: Place)
    ensures GroupOf(records + [r], p) == if IsOfPlace(r, p) then GroupOf(records, p) + [r] else GroupOf(records, p)
  {
    assert (records + [r])[..|records|] == records;
  }

  lemma PlacesAppend(records: seq<Record>, r: Record, selectedSlot: int, four: bool)
    ensures Places(records + [r], selectedSlot, four)
         == if EligibleRecord(r, selectedSlot, four) then Places(records, selectedSlot, four) + [Place(r.slot, r.key)]
            else Places(records, selectedSlot, four)
  {
    assert (records + [r])[..|records|] == records;
  }

  lemma DistinctAppend(places: seq<Place>, p: Place)
    ensures Distinct(places + [p]) == if p in places then Distinct(places) else Distinct(places) + [p]
  {
    assert (places + [p])[..|places|] == places;
  }

  /** A place not seen yet has no records yet. */
  lemma {:induction false} FirstOfItsPlace(records: seq<Record>, selectedSlot: int, four: bool, place: Place)
    requires place !in Places(records, selectedSlot, four) && (if four then 1 <= place.slot <= 4 else place.slot == selectedSlot)
    ensures GroupOf(records, place) == []
  {
    if records != [] {
      var front, last := records[..|records| - 1], records[|records| - 1];
      assert forall p | p in Places(front, selectedSlot, four) :: p in Places(records, selectedSlot, four);
      PlacesAppend(front, last, selectedSlot, four);
      assert records == front + [last];
      assert Place(last.slot, last.key) in Places(front, selectedSlot, four) + [Place(last.slot, last.key)];
      FirstOfItsPlace(front, selectedSlot, four, place);
    }
  }

  /** What the table of groups holds after the first records. */
  ghost predicate Collected(records: seq<Record>, selectedSlot: int, four: bool, order: seq<Place>, grouped: map<Place, seq<Record>>) {
    && order == Distinct(Places(records, selectedSlot, four))
    && (forall p :: p in order <==> p in grouped)
    && (forall p | p in grouped :: grouped[p] == GroupOf(records, p))
  }

  lemma CollectedNew(records: seq<Record>, r: Record, selectedSlot: int, four: bool, order: seq<Place>,
                     grouped: map<Place, seq<Record>>)
    requires Collected(records, selectedSlot, four, order, grouped) && EligibleRecord(r, selectedSlot, four)
    requires Place(r.slot, r.key) !in grouped
    ensures Collected(records + [r], selectedSlot, four, order + [Place(r.slot, r.key)], grouped[Place(r.slot, r.key) := [r]])
  {
    hide GroupOf, Places, Distinct;
    var place := Place(r.slot, r.key);
    PlacesAppend(records, r, selectedSlot, four);
    DistinctAppend(Places(records, selectedSlot, four), place);
    assert place !in order;
    FirstOfItsPlace(records, selectedSlot, four, place);
    hide EligibleRecord;
    forall p | p in grouped[place := [r]] ensures grouped[place := [r]][p] == GroupOf(records + [r], p) {
      GroupAppend(records, r, p);
    }
  }

  lemma CollectedMore(records: seq<Record>, r: Record, selectedSlot: int, four: bool, order: seq<Place>,
                      grouped: map<Place, seq<Record>>)
    requires Collected(records, selectedSlot, four, order, grouped) && EligibleRecord(r, selectedSlot, four)
    requires Place(r.slot, r.key) in grouped
    ensures var place := Place(r.slot, r.key);
      Collected(records + [r], selectedSlot, four, order, grouped[place := grouped[place] + [r]])
  {
    hide GroupOf, Places, Distinct;
    var place := Place(r.slot, r.key);
    PlacesAppend(records, r, selectedSlot, four);
    DistinctAppend(Places(records, selectedSlot, four), place);
    assert place in order;
    hide EligibleRecord;
    forall p | p in grouped ensures grouped[place := grouped[place] + [r]][p] == GroupOf(records + [r], p) {
      GroupAppend(records, r, p);
    }
  }

  lemma CollectedNone(records: seq<Record>, r: Record, selectedSlot: int, four: bool, order: seq<Place>,
                      grouped: map<Place, seq<Record>>)
    requires Collected(records, selectedSlot, four, order, grouped) && !EligibleRecord(r, selectedSlot, four)
    ensures Collected(records + [r], selectedSlot, four, order, grouped)
  {
    hide GroupOf, Places, IsPlaceOf, Distinct;
    PlacesAppend(records, r, selectedSlot, four);
    PlacesSpec(records, selectedSlot, four);
    forall p | p in grouped ensures grouped[p] == GroupOf(records + [r], p) {
      assert p in order;
      GroupAppend(records, r, p);
    }
  }

  /** Collect the eligible records by place, in order of first appearance. */
  method Grouping(records: seq<Record>, selectedSlot: int, four: bool) returns (order: seq<Place>, grouped: map<Place, seq<Record>>)
    ensures order == Distinct(Places(records, selectedSlot, four))
    ensures forall p | p in order :: p in grouped && grouped[p] == GroupOf(records, p)
  {
    order, grouped := [], map[];
    for i := 0 to |records|
      invariant Collected(records[..i], selectedSlot, four, order, grouped)
    {
      hide Collected;
      var record := records[i];
      assert records[..i] + [record] == records[..i + 1];
      if EligibleRecord(record, selectedSlot, four) {
        var place := Place(record.slot, record.key);
        if place !in grouped {
          CollectedNew(records[..i], record, selectedSlot, four, order, grouped);
          order := order + [place];
          grouped := grouped[place := [record]];
        } else {
          CollectedMore(records[..i], record, selectedSlot, four, order, grouped);
          grouped := grouped[place := grouped[place] + [record]];
        }
      } else {
        CollectedNone(records[..i], record, selectedSlot, four, order, grouped);
      }
    }
    assert records[..|records|] == records;
  }

  method CountAppearances(groups: seq<Place>) returns (appearances: map<string, nat>)
    ensures forall p | p in groups :: p.key in appearances && appearances[p.key] == Appearances(groups, p.key)
  {
    appearances := map[];
    for i := 0 to |groups|
      invariant forall p | p in groups[..i] :: p.key in appearances
      invariant forall key :: (if key in appearances then appearances[key] else 0) == Appearances(groups[..i], key)
    {
      var key := groups[i].key;
      assert groups[..i + 1][..i] == groups[..i];
      appearances := appearances[key := (if key in appearances then appearances[key] else 0) + 1];
    }
    assert groups[..|groups|] == groups;
  }

  method FillTemplate(context: BuildContext, template: StartTemplate, records: seq<Record>, selectedSlot: int, device: string,
                      collate: Collation)
    modifies context
    ensures context.Grown(old(context.controls), old(context.nextId), TemplateSpecs(template, records, selectedSlot, device, collate))
  {
    hide BuildAll, ArcadeStickSpecs, LeverlessSpecs, FourPlayerSpecs, MappingSpecs, Groups;
    match template {
      case Blank => context.NothingGrown(context.controls, context.nextId);
      case ArcadeStick => context.ArcadeStick();
      case LeverlessPanel => context.Leverless();
      case FourPlayer => context.FourPlayers();
      case MappingSelected => context.Mapping(records, selectedSlot, false, device, collate);
      case MappingFour => context.Mapping(records, selectedSlot, true, device, collate);
    }
  }

  /** Applying a template, as it runs. */
  method RunTemplate(d: Document, template: StartTemplate, records: seq<Record>, selectedSlot: int, device: string, collate: Collation)
      returns (r: Document)
    ensures r == ApplyTemplate(d, template, records, selectedSlot, device, collate)
  {
    hide Sanitize, BuildAll, TemplateSpecs, Refused, FirstChannelId;
    if Refused(template, records, selectedSlot) {
      return Sanitize(d);
    }
    var context := new BuildContext();
    FillTemplate(context, template, records, selectedSlot, device, collate);
    BuildAllSpec(TemplateSpecs(template, records, selectedSlot, device, collate), 1);
    var controls := context.controls;
    assert controls == BuildAll(TemplateSpecs(template, records, selectedSlot, device, collate), 1);
    r := Sanitize(Document(true, Start(template), if template.FourPlayer? || template.MappingFour? then FourPanels else SinglePanel,
                           if template.MappingSelected? || template.MappingFour? then Route else Design, controls,
                           if controls == [] then "" else controls[0].id,
                           if controls == [] then "" else FirstChannelId(controls[0]), context.nextId));
  }
}
