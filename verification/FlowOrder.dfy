/** The order of the mapping graph. */
module FlowOrder {
  // Pads by slot, macros by name, controls by zone, steps by number, and repeats
  // where they appear first.

  import opened Strings
  import opened RouteIds
  import opened FlowGraph
  import opened FlowMeaning

  /** A locale that puts any two names in some order. */
  ghost predicate Orders(collate: Collation) {
    (forall a, b :: collate(a, b) || collate(b, a)) && forall a, b, c :: collate(a, b) && collate(b, c) ==> collate(a, c)
  }

  // ----- steps

  lemma {:induction false} PositiveSpec(steps: seq<int>, n: int)
    ensures n in Positive(steps) <==> n in steps && n > 0
  {
    if steps != [] {
      PositiveSpec(steps[1..], n);
      assert steps == [steps[0]] + steps[1..];
    }
  }

  lemma {:induction false} OnceEach<T(!new)>(xs: seq<T>, x: T)
    requires forall i, j | 0 <= i < j < |xs| :: xs[i] != xs[j]
    ensures multiset(xs)[x] <= 1
  {
    if xs != [] {
      OnceEach(xs[1..], x);
      assert xs == [xs[0]] + xs[1..];
      assert xs[0] !in xs[1..];
    }
  }

  lemma TwiceCounts<T(!new)>(xs: seq<T>, i: nat, j: nat)
    requires i < j < |xs| && xs[i] == xs[j]
    ensures multiset(xs)[xs[i]] >= 2
  {
    assert xs == xs[..j] + xs[j..];
    assert xs[i] in xs[..j] && xs[j] in xs[j..];
  }

  /** The steps of an output are its positive steps, each once, ascending. */
  lemma StepsAscend(steps: seq<int>)
    ensures forall i, j | 0 <= i < j < |CleanSteps(steps)| :: CleanSteps(steps)[i] < CleanSteps(steps)[j]
    ensures forall n :: n in CleanSteps(steps) <==> n in steps && n > 0
  {
    var r, distinct := CleanSteps(steps), Distinct(Positive(steps));
    SortIsInOrder(distinct, (a: int, b: int) => a <= b);
    forall n ensures n in r <==> n in steps && n > 0 {
      PositiveSpec(steps, n);
    }
    forall i, j | 0 <= i < j < |r| ensures r[i] < r[j] {
      assert r[i] <= r[j];
      if r[i] == r[j] {
        TwiceCounts(r, i, j);
        OnceEach(distinct, r[i]);
      }
    }
  }

  // ----- pads by slot, macros by name

  ghost predicate SlotsAscend(pads: seq<Pad>) {
    forall i, j | 0 <= i < j < |pads| :: pads[i].slot <= pads[j].slot
  }

  lemma PadsBySlot(pads: seq<Pad>)
    ensures SlotsAscend(BySlot(pads))
  {
    SortIsInOrder(pads, (a: Pad, b: Pad) => a.slot <= b.slot);
  }

  lemma MacrosByName(macros: seq<Macro>, collate: Collation)
    requires Orders(collate)
    ensures forall i, j | 0 <= i < j < |ByName(macros, collate)| ::
      collate(ByName(macros, collate)[i].name, ByName(macros, collate)[j].name)
  {
    var before := (a: Macro, b: Macro) => collate(a.name, b.name);
    forall x, y ensures before(x, y) || before(y, x) {
      assert collate(x.name, y.name) || collate(y.name, x.name);
    }
    forall x, y, z | before(x, y) && before(y, z) ensures before(x, z) {
      assert collate(x.name, y.name) && collate(y.name, z.name);
    }
    SortIsInOrder(macros, before);
  }

  /** By slot, and by name within a slot. */
  predicate NodeBefore(m: Node, n: Node, collate: Collation) {
    m.pad.slot < n.pad.slot || (m.pad.slot == n.pad.slot && collate(m.macro.name, n.macro.name))
  }

  ghost predicate DifferentSlots(pads: seq<Pad>) {
    forall i, j | 0 <= i < j < |pads| :: pads[i].slot != pads[j].slot
  }

  lemma {:induction false} NodesInOrder(pads: seq<Pad>, collate: Collation)
    requires SlotsAscend(pads)
    ensures forall i, j | 0 <= i < j < |NodesOf(pads, collate)| ::
      NodesOf(pads, collate)[i].pad.slot <= NodesOf(pads, collate)[j].pad.slot
    ensures Orders(collate) && DifferentSlots(pads) ==> forall i, j | 0 <= i < j < |NodesOf(pads, collate)| ::
      NodeBefore(NodesOf(pads, collate)[i], NodesOf(pads, collate)[j], collate)
    ensures forall n | n in NodesOf(pads, collate) :: n.pad in pads
  {
    hide ByName;
    if pads != [] {
      var front, last := pads[..|pads| - 1], pads[|pads| - 1];
      NodesInOrder(front, collate);
      assert pads == front + [last];
      var nodes, own := NodesOf(front, collate), PadNodes(last, ByName(last.macros, collate));
      forall i | 0 <= i < |nodes| ensures nodes[i].pad.slot <= last.slot && (DifferentSlots(pads) ==> nodes[i].pad.slot < last.slot) {
        assert nodes[i] in nodes;
        var k :| 0 <= k < |front| && front[k] == nodes[i].pad;
        assert pads[k] == front[k];
      }
      if Orders(collate) {
        MacrosByName(last.macros, collate);
      }
    }
  }

  lemma SortedPadsDiffer(pads: seq<Pad>)
    requires DifferentSlots(pads)
    ensures DifferentSlots(BySlot(pads))
  {
    var r := BySlot(pads);
    assert multiset(r) == multiset(pads);
    hide BySlot;
    forall i, j | 0 <= i < j < |r| ensures r[i].slot != r[j].slot {
      assert r[i] in multiset(r) && r[j] in multiset(r);
      var k :| 0 <= k < |pads| && pads[k] == r[i];
      var l :| 0 <= l < |pads| && pads[l] == r[j];
      if r[i] == r[j] {
        TwiceCounts(r, i, j);
        OnceEach(pads, r[i]);
      }
    }
  }

  /** The processors stand by slot; those of one pad by name. */
  lemma ProcessorsInOrder(pads: seq<Pad>, collate: Collation)
    ensures var ps := NodeProcessors(Nodes(pads, collate));
      && (forall i, j | 0 <= i < j < |ps| :: ps[i].slot <= ps[j].slot)
      && (Orders(collate) && DifferentSlots(pads) ==> forall i, j | 0 <= i < j < |ps| ::
            ps[i].slot < ps[j].slot || (ps[i].slot == ps[j].slot && collate(ps[i].name, ps[j].name)))
  {
    PadsBySlot(pads);
    NodesInOrder(BySlot(pads), collate);
    if DifferentSlots(pads) {
      SortedPadsDiffer(pads);
    }
    hide BySlot, NodesOf, TriggerKeys, Touches, ProcessorId;
  }

  // ----- missing projections

  lemma {:induction false} MissingSpec(pads: seq<Pad>, what: Missing)
    ensures forall slot :: slot in SlotsMissing(pads, what) <==> exists pad :: pad in pads && pad.slot == slot && Misses(pad, what)
  {
    hide Misses;
    if pads != [] {
      MissingSpec(pads[..|pads| - 1], what);
      assert pads == pads[..|pads| - 1] + [pads[|pads| - 1]];
    }
  }

  lemma {:induction false} MissingAscend(pads: seq<Pad>, what: Missing)
    requires SlotsAscend(pads)
    ensures forall i, j | 0 <= i < j < |SlotsMissing(pads, what)| :: SlotsMissing(pads, what)[i] <= SlotsMissing(pads, what)[j]
  {
    hide Misses;
    if pads != [] {
      var front, last := pads[..|pads| - 1], pads[|pads| - 1];
      MissingAscend(front, what);
      MissingSpec(front, what);
      forall slot | slot in SlotsMissing(front, what) ensures slot <= last.slot {
        var pad :| pad in front && pad.slot == slot && Misses(pad, what);
        var k :| 0 <= k < |front| && front[k] == pad;
        assert pads[k].slot <= pads[|front|].slot;
      }
      forall i | 0 <= i < |SlotsMissing(front, what)| ensures SlotsMissing(front, what)[i] <= last.slot {
        assert SlotsMissing(front, what)[i] in SlotsMissing(front, what);
      }
    }
  }

  /** The reported slots are those of pads without a mapping, or without
      macros, ascending. */
  lemma MissingInOrder(pads: seq<Pad>, slot: nat)
    ensures slot in SlotsMissing(BySlot(pads), NoMapping) <==> exists pad :: pad in pads && pad.slot == slot && !pad.mappingAvailable
    ensures slot in SlotsMissing(BySlot(pads), NoMacros) <==> exists pad :: pad in pads && pad.slot == slot && !pad.macroAvailable
    ensures forall what, i, j | 0 <= i < j < |SlotsMissing(BySlot(pads), what)| ::
      SlotsMissing(BySlot(pads), what)[i] <= SlotsMissing(BySlot(pads), what)[j]
  {
    PadsBySlot(pads);
    MissingSpec(BySlot(pads), NoMapping);
    MissingSpec(BySlot(pads), NoMacros);
    MissingAscend(BySlot(pads), NoMapping);
    MissingAscend(BySlot(pads), NoMacros);
    assert forall pad :: pad in BySlot(pads) <==> pad in pads;
    hide BySlot, SlotsMissing;
    forall what, i, j | 0 <= i < j < |SlotsMissing(BySlot(pads), what)|
      ensures SlotsMissing(BySlot(pads), what)[i] <= SlotsMissing(BySlot(pads), what)[j]
    {
      match what
      case NoMapping =>
      case NoMacros =>
    }
  }

  // ----- direct bindings

  /** The position of a binding: the first candidate of its signature. */
  ghost predicate IsFirst(cs: seq<Candidate>, n: nat) {
    n < |cs| && SignatureOf(cs[n]) !in Signatures(cs[..n])
  }

  /** The bindings stand where their signatures appear first. */
  lemma {:induction false} BindingsKeepFirst(cs: seq<Candidate>) returns (at: seq<nat>)
    ensures |at| == |FirstBindings(cs)| && forall i, j | 0 <= i < j < |at| :: at[i] < at[j]
    ensures forall i | 0 <= i < |at| :: IsFirst(cs, at[i]) && FirstBindings(cs)[i] == BindingFor(cs[at[i]])
  {
    hide BindingFor, SignatureOf, Signatures;
    if cs == [] {
      at := [];
    } else {
      var n := |cs| - 1;
      at := BindingsKeepFirst(cs[..n]);
      forall i | 0 <= i < |at| ensures IsFirst(cs, at[i]) && cs[..n][at[i]] == cs[at[i]] {
        assert cs[..n][..at[i]] == cs[..at[i]];
      }
      if SignatureOf(cs[n]) !in Signatures(cs[..n]) {
        at := at + [n];
      }
    }
  }

  lemma {:induction false} CandidatesOfSlot(pad: Pad, entries: seq<Entry>)
    ensures forall c | c in EntryCandidates(pad, entries) :: c.slot == pad.slot && c.preset == pad.preset
  {
    forall c | c in EntryCandidates(pad, entries) ensures c.slot == pad.slot && c.preset == pad.preset {
      EntryCandidatesSpec(pad, entries, c);
    }
  }

  lemma {:induction false} CandidatesAscend(pads: seq<Pad>, collate: Collation)
    requires SlotsAscend(pads)
    ensures forall i, j | 0 <= i < j < |PadCandidates(pads, collate)| ::
      PadCandidates(pads, collate)[i].slot <= PadCandidates(pads, collate)[j].slot
    ensures forall c | c in PadCandidates(pads, collate) :: exists k :: 0 <= k < |pads| && pads[k].slot == c.slot
  {
    hide Entries, EntryCandidates;
    if pads != [] {
      var front, last := pads[..|pads| - 1], pads[|pads| - 1];
      CandidatesAscend(front, collate);
      CandidatesOfSlot(last, Entries(last, collate));
      var a, b := PadCandidates(front, collate), EntryCandidates(last, Entries(last, collate));
      forall c | c in a ensures c.slot <= last.slot && exists k :: 0 <= k < |pads| && pads[k].slot == c.slot {
        var k :| 0 <= k < |front| && front[k].slot == c.slot;
        assert pads[k].slot == c.slot;
      }
      forall i, j | 0 <= i < j < |a + b| ensures (a + b)[i].slot <= (a + b)[j].slot {
        assert (a + b)[j] in a || (a + b)[j] in b;
        assert (a + b)[i] in a || (a + b)[i] in b;
      }
    }
  }

  /** The direct bindings stand by slot. */
  lemma DirectRoutesInOrder(pads: seq<Pad>, collate: Collation)
    ensures forall i, j | 0 <= i < j < |DirectRoutes(pads, collate)| ::
      DirectRoutes(pads, collate)[i].slot <= DirectRoutes(pads, collate)[j].slot
  {
    hide BySlot, PadCandidates, FirstBindings, RouteId;
    PadsBySlot(pads);
    CandidatesAscend(BySlot(pads), collate);
    var at := BindingsKeepFirst(PadCandidates(BySlot(pads), collate));
  }

  /** The order of projected controls: by zone, then by normalized name. */
  predicate ControlBefore(a: PadControl, b: PadControl, collate: Collation) {
    a.order < b.order || (a.order == b.order && collate(Normalized(a.functionName), Normalized(b.functionName)))
  }

  /** A pad's entries: its projected controls by zone and name, each with its
      keys, then the entries they do not cover by name. */
  lemma EntriesInOrder(pad: Pad, collate: Collation) returns (controls: seq<PadControl>)
    requires Orders(collate)
    ensures multiset(controls) == multiset(ProjectedControls(pad)) && |controls| <= |Entries(pad, collate)|
    ensures forall i, j | 0 <= i < j < |controls| :: ControlBefore(controls[i], controls[j], collate)
    ensures forall i | 0 <= i < |controls| :: Entries(pad, collate)[i] == Entry(controls[i].functionName, controls[i].keys)
    ensures forall i, j | |controls| <= i < j < |Entries(pad, collate)| ::
      collate(Normalized(Entries(pad, collate)[i].functionName), Normalized(Entries(pad, collate)[j].functionName))
    ensures forall i | |controls| <= i < |Entries(pad, collate)| :: !Projected(pad, Entries(pad, collate)[i].functionName)
  {
    hide Normalized, ProjectedControls, Projected;
    var before := (a: PadControl, b: PadControl) =>
      a.order < b.order || (a.order == b.order && collate(Normalized(a.functionName), Normalized(b.functionName)));
    var level := (a: Entry, b: Entry) => collate(Normalized(a.functionName), Normalized(b.functionName));
    forall x, y ensures before(x, y) || before(y, x) {
      assert collate(Normalized(x.functionName), Normalized(y.functionName)) || collate(Normalized(y.functionName), Normalized(x.functionName));
    }
    forall x, y, z | before(x, y) && before(y, z) ensures before(x, z) {
      if x.order == y.order == z.order {
        assert collate(Normalized(x.functionName), Normalized(y.functionName)) && collate(Normalized(y.functionName), Normalized(z.functionName));
      }
    }
    forall x, y ensures level(x, y) || level(y, x) {
      assert collate(Normalized(x.functionName), Normalized(y.functionName)) || collate(Normalized(y.functionName), Normalized(x.functionName));
    }
    forall x, y, z | level(x, y) && level(y, z) ensures level(x, z) {
      assert collate(Normalized(x.functionName), Normalized(y.functionName)) && collate(Normalized(y.functionName), Normalized(z.functionName));
    }
    controls := SortBy(ProjectedControls(pad), before);
    SortIsInOrder(ProjectedControls(pad), before);
    var legacy := SortBy(LegacyEntries(pad, pad.fnKeys), level);
    SortIsInOrder(LegacyEntries(pad, pad.fnKeys), level);
    assert Entries(pad, collate) == ControlEntries(controls) + legacy;
    forall i | 0 <= i < |legacy| ensures !Projected(pad, legacy[i].functionName) {
      assert legacy[i] in LegacyEntries(pad, pad.fnKeys);
      LegacyEntriesSpec(pad, pad.fnKeys, legacy[i]);
    }
  }
}
