/** The mapping graph. */
module FlowGraph {
  // Direct key-to-control bindings, and timed macros as trigger and output
  // segments around one processor node (`deriveDirectMappingFlow`,
  // `deriveMappingFlow`).

  import opened Strings
  import opened Options
  import opened RouteIds

  datatype PadControl = PadControl(functionName: string, order: int, keys: seq<string>)

  datatype MacroOutput = MacroOutput(functionName: string, steps: seq<int>)

  datatype Macro = Macro(name: string, triggers: seq<string>, outputs: seq<MacroOutput>)

  /** `fnKeys` is the compatibility map, one joined key string per function;
      `controls` is the ordered projection when the payload carries one. */
  datatype Pad = Pad(slot: nat, preset: string, fnKeys: seq<(string, string)>, controls: Option<seq<PadControl>>,
                     mappingAvailable: bool, macros: seq<Macro>, macroAvailable: bool)

  datatype Segment =
    | Binding(id: string, slot: nat, key: string, functionName: string)
    | Trigger(id: string, slot: nat, processorId: string, key: string)
    | Output(id: string, slot: nat, processorId: string, functionName: string, steps: seq<int>)

  /** A function a macro touches, and the steps at which it does. */
  datatype Touch = Touch(functionName: string, steps: seq<int>)

  datatype Processor = Processor(id: string, slot: nat, preset: string, name: string,
                                 triggers: seq<string>, outputs: seq<Touch>)

  function Normalized(s: string): string {
    Lower(Trim(s))
  }

  // ----- direct bindings

  /** One key-to-function pair offered by a pad, before repeats are dropped. */
  datatype Candidate = Candidate(slot: nat, preset: string, key: string, functionName: string)

  type Signature = (nat, string, string)

  function SignatureOf(c: Candidate): Signature {
    (c.slot, c.key, c.functionName)
  }

  /** A function and the keys that may drive it, as one entry of a pad. */
  datatype Entry = Entry(functionName: string, keys: seq<string>)

  function ProjectedControls(pad: Pad): seq<PadControl> {
    if pad.controls.Some? then pad.controls.value else []
  }

  predicate Projected(pad: Pad, fn: string) {
    exists i | 0 <= i < |ProjectedControls(pad)| :: Normalized(ProjectedControls(pad)[i].functionName) == Normalized(fn)
  }

  function ControlEntries(controls: seq<PadControl>): (r: seq<Entry>)
    ensures |r| == |controls|
  {
    seq(|controls|, i requires 0 <= i < |controls| => Entry(controls[i].functionName, controls[i].keys))
  }

  function LegacyEntries(pad: Pad, fnKeys: seq<(string, string)>): seq<Entry> {
    if fnKeys == [] then []
    else
      var rest := LegacyEntries(pad, fnKeys[1..]);
      if Projected(pad, fnKeys[0].0) then rest else [Entry(fnKeys[0].0, Split(fnKeys[0].1, '\U{00B7}'))] + rest
  }

  /** The entries of one pad: projected controls in zone order, then the
      compatibility entries they do not already cover. */
  function Entries(pad: Pad, collate: Collation): seq<Entry> {
    ControlEntries(SortBy(ProjectedControls(pad), (a: PadControl, b: PadControl) =>
      a.order < b.order || (a.order == b.order && collate(Normalized(a.functionName), Normalized(b.functionName)))))
    + SortBy(LegacyEntries(pad, pad.fnKeys), (a: Entry, b: Entry) =>
      collate(Normalized(a.functionName), Normalized(b.functionName)))
  }

  function KeyCandidates(pad: Pad, fn: string, keys: seq<string>): seq<Candidate> {
    if keys == [] then []
    else
      var front := KeyCandidates(pad, fn, keys[..|keys| - 1]);
      var key := Trim(keys[|keys| - 1]);
      if key == "" then front else front + [Candidate(pad.slot, pad.preset, key, fn)]
  }

  function EntryCandidates(pad: Pad, entries: seq<Entry>): seq<Candidate> {
    if entries == [] then []
    else
      var front := EntryCandidates(pad, entries[..|entries| - 1]);
      var last := entries[|entries| - 1];
      if Normalized(last.functionName) == "" then front
      else front + KeyCandidates(pad, Normalized(last.functionName), last.keys)
  }

  function PadCandidates(pads: seq<Pad>, collate: Collation): seq<Candidate> {
    if pads == [] then []
    else
      PadCandidates(pads[..|pads| - 1], collate)
      + EntryCandidates(pads[|pads| - 1], Entries(pads[|pads| - 1], collate))
  }

  function Signatures(candidates: seq<Candidate>): set<Signature> {
    set c | c in candidates :: SignatureOf(c)
  }

  function BindingFor(c: Candidate): Segment {
    Binding(RouteId(BindingOf(c.slot, c.preset, c.key, c.functionName)), c.slot, c.key, c.functionName)
  }

  /** The first binding of each (slot, key, function). */
  function FirstBindings(candidates: seq<Candidate>): seq<Segment> {
    if candidates == [] then []
    else
      var front, last := candidates[..|candidates| - 1], candidates[|candidates| - 1];
      if SignatureOf(last) in Signatures(front) then FirstBindings(front)
      else FirstBindings(front) + [BindingFor(last)]
  }

  function BySlot(pads: seq<Pad>): seq<Pad> {
    SortBy(pads, (a: Pad, b: Pad) => a.slot <= b.slot)
  }

  function DirectRoutes(pads: seq<Pad>, collate: Collation): seq<Segment> {
    FirstBindings(PadCandidates(BySlot(pads), collate))
  }

  lemma FirstBindingsOfAppend(done: seq<Candidate>, c: Candidate)
    ensures FirstBindings(done + [c])
         == if SignatureOf(c) in Signatures(done) then FirstBindings(done) else FirstBindings(done) + [BindingFor(c)]
    ensures Signatures(done + [c]) == Signatures(done) + {SignatureOf(c)}
  {
    assert (done + [c])[..|done|] == done;
  }

  method DeriveDirectMappingFlow(pads: seq<Pad>, collate: Collation) returns (routes: seq<Segment>)
    ensures routes == DirectRoutes(pads, collate)
  {
    hide Entries, BindingFor, SignatureOf, Signatures, FirstBindings, SortBy, Normalized, Trim;
    routes := [];
    var seen: set<Signature> := {};
    ghost var done: seq<Candidate> := [];
    NothingSeen();
    var ordered := BySlot(pads);
    for p := 0 to |ordered|
      invariant done == PadCandidates(ordered[..p], collate)
      invariant seen == Signatures(done) && routes == FirstBindings(done)
    {
      var pad := ordered[p];
      var entries := Entries(pad, collate);
      ghost var padStart := done;
      for e := 0 to |entries|
        invariant done == padStart + EntryCandidates(pad, entries[..e])
        invariant seen == Signatures(done) && routes == FirstBindings(done)
      {
        assert entries[..e + 1][..e] == entries[..e];
        var functionName := Normalized(entries[e].functionName);
        if functionName == "" {
          continue;
        }
        var keys := entries[e].keys;
        ghost var entryStart := done;
        for k := 0 to |keys|
          invariant done == entryStart + KeyCandidates(pad, functionName, keys[..k])
          invariant seen == Signatures(done) && routes == FirstBindings(done)
        {
          assert keys[..k + 1][..k] == keys[..k];
          var key := Trim(keys[k]);
          if key == "" {
            continue;
          }
          var candidate := Candidate(pad.slot, pad.preset, key, functionName);
          FirstBindingsOfAppend(done, candidate);
          done := done + [candidate];
          if SignatureOf(candidate) in seen {
            SameSignatures(seen, SignatureOf(candidate));
            continue;
          }
          seen := seen + {SignatureOf(candidate)};
          routes := routes + [BindingFor(candidate)];
        }
        assert keys[..|keys|] == keys;
      }
      assert entries[..|entries|] == entries;
      assert ordered[..p + 1][..p] == ordered[..p];
    }
    assert ordered[..|ordered|] == ordered;
  }

  lemma NothingSeen()
    ensures Signatures([]) == {} && FirstBindings([]) == []
  {
  }

  lemma SameSignatures(seen: set<Signature>, s: Signature)
    requires s in seen
    ensures seen + {s} == seen
  {
  }

  // ----- macros

  function Positive(steps: seq<int>): seq<int> {
    if steps == [] then [] else (if steps[0] > 0 then [steps[0]] else []) + Positive(steps[1..])
  }

  function CleanSteps(steps: seq<int>): seq<int> {
    SortBy(Distinct(Positive(steps)), (a: int, b: int) => a <= b)
  }

  function NonEmptyTrimmed(keys: seq<string>): seq<string> {
    if keys == [] then []
    else
      var front := NonEmptyTrimmed(keys[..|keys| - 1]);
      var key := Trim(keys[|keys| - 1]);
      if key == "" then front else front + [key]
  }

  lemma {:induction false} NonEmptyTrimmedSpec(keys: seq<string>, key: string)
    ensures key in NonEmptyTrimmed(keys) <==> key != "" && exists i | 0 <= i < |keys| :: Trim(keys[i]) == key
  {
    hide Trim;
    if keys != [] {
      var front, last := keys[..|keys| - 1], keys[|keys| - 1];
      NonEmptyTrimmedSpec(front, key);
      if i :| 0 <= i < |keys| && Trim(keys[i]) == key {
        assert i < |front| ==> front[i] == keys[i];
      }
      if i :| 0 <= i < |front| && Trim(front[i]) == key {
        assert keys[i] == front[i];
      }
    }
  }

  function TriggerKeys(macro: Macro): seq<string> {
    Distinct(NonEmptyTrimmed(macro.triggers))
  }

  function Names(touches: seq<Touch>): (r: seq<string>)
    ensures |r| == |touches| && forall i | 0 <= i < |r| :: r[i] == touches[i].functionName
  {
    seq(|touches|, i requires 0 <= i < |touches| => touches[i].functionName)
  }

  /** The first mention of each output function, with its cleaned steps. */
  function Touches(outputs: seq<MacroOutput>): seq<Touch> {
    if outputs == [] then []
    else
      var front := Touches(outputs[..|outputs| - 1]);
      var last := outputs[|outputs| - 1];
      var fn := Normalized(last.functionName);
      if fn == "" || fn in Names(front) then front else front + [Touch(fn, CleanSteps(last.steps))]
  }

  function OutputNames(outputs: seq<MacroOutput>): seq<string> {
    if outputs == [] then []
    else
      var front := OutputNames(outputs[..|outputs| - 1]);
      var fn := Normalized(outputs[|outputs| - 1].functionName);
      if fn == "" then front else front + [fn]
  }

  lemma {:induction false} TouchesAreDistinct(outputs: seq<MacroOutput>)
    ensures Names(Touches(outputs)) == Distinct(OutputNames(outputs))
  {
    hide Normalized, CleanSteps;
    if outputs != [] {
      var front := outputs[..|outputs| - 1];
      TouchesAreDistinct(front);
      var fn := Normalized(outputs[|outputs| - 1].functionName);
      var names := OutputNames(front);
      assert (names + [fn])[..|names|] == names;
    }
  }

  lemma {:induction false} OutputNamesSpec(outputs: seq<MacroOutput>, fn: string)
    ensures fn in OutputNames(outputs) <==>
            fn != "" && exists i | 0 <= i < |outputs| :: Normalized(outputs[i].functionName) == fn
  {
    hide Normalized;
    if outputs != [] {
      var front, last := outputs[..|outputs| - 1], outputs[|outputs| - 1];
      OutputNamesSpec(front, fn);
      if i :| 0 <= i < |outputs| && Normalized(outputs[i].functionName) == fn {
        assert i < |front| ==> front[i] == outputs[i];
      }
      if i :| 0 <= i < |front| && Normalized(front[i].functionName) == fn {
        assert outputs[i] == front[i];
      }
    }
  }

  function ProcessorId(pad: Pad, macro: Macro): string {
    RouteId(MacroOf(pad.slot, pad.preset, macro.name))
  }

  function TriggerFor(pad: Pad, macro: Macro, key: string): Segment {
    Trigger(RouteId(TriggerOf(pad.slot, pad.preset, macro.name, key)), pad.slot, ProcessorId(pad, macro), key)
  }

  function OutputFor(pad: Pad, macro: Macro, touch: Touch): Segment {
    Output(RouteId(OutputOf(pad.slot, pad.preset, macro.name, touch.functionName)), pad.slot,
           ProcessorId(pad, macro), touch.functionName, touch.steps)
  }

  function ProcessorFor(pad: Pad, macro: Macro): Processor {
    Processor(ProcessorId(pad, macro), pad.slot, pad.preset, macro.name, TriggerKeys(macro), Touches(macro.outputs))
  }

  function TriggerSegments(pad: Pad, macro: Macro, keys: seq<string>): (r: seq<Segment>)
    ensures |r| == |keys| && forall i | 0 <= i < |keys| :: r[i] == TriggerFor(pad, macro, keys[i])
  {
    seq(|keys|, i requires 0 <= i < |keys| => TriggerFor(pad, macro, keys[i]))
  }

  function OutputSegments(pad: Pad, macro: Macro, touches: seq<Touch>): (r: seq<Segment>)
    ensures |r| == |touches| && forall i | 0 <= i < |touches| :: r[i] == OutputFor(pad, macro, touches[i])
  {
    seq(|touches|, i requires 0 <= i < |touches| => OutputFor(pad, macro, touches[i]))
  }

  function MacroSegments(pad: Pad, macro: Macro): seq<Segment> {
    TriggerSegments(pad, macro, TriggerKeys(macro)) + OutputSegments(pad, macro, Touches(macro.outputs))
  }

  /** One macro of one pad, in drawing order. */
  datatype Node = Node(pad: Pad, macro: Macro)

  function PadNodes(pad: Pad, macros: seq<Macro>): (r: seq<Node>)
    ensures |r| == |macros| && forall i | 0 <= i < |r| :: r[i] == Node(pad, macros[i])
  {
    seq(|macros|, i requires 0 <= i < |macros| => Node(pad, macros[i]))
  }

  function ByName(macros: seq<Macro>, collate: Collation): seq<Macro> {
    SortBy(macros, (a: Macro, b: Macro) => collate(a.name, b.name))
  }

  function NodesOf(pads: seq<Pad>, collate: Collation): seq<Node> {
    if pads == [] then []
    else
      var last := pads[|pads| - 1];
      NodesOf(pads[..|pads| - 1], collate)
      + (if last.macroAvailable then PadNodes(last, ByName(last.macros, collate)) else [])
  }

  /** Every available macro, in drawing order. */
  function Nodes(pads: seq<Pad>, collate: Collation): seq<Node> {
    NodesOf(BySlot(pads), collate)
  }

  function NodeSegments(nodes: seq<Node>): seq<Segment> {
    if nodes == [] then []
    else
      NodeSegments(nodes[..|nodes| - 1]) + MacroSegments(nodes[|nodes| - 1].pad, nodes[|nodes| - 1].macro)
  }

  function NodeProcessors(nodes: seq<Node>): (r: seq<Processor>)
    ensures |r| == |nodes| && forall i | 0 <= i < |r| :: r[i] == ProcessorFor(nodes[i].pad, nodes[i].macro)
  {
    seq(|nodes|, i requires 0 <= i < |nodes| => ProcessorFor(nodes[i].pad, nodes[i].macro))
  }

  function WithMapping(pads: seq<Pad>): (r: seq<Pad>)
    ensures forall p :: p in r <==> p in pads && p.mappingAvailable
  {
    if pads == [] then []
    else
      assert pads == [pads[0]] + pads[1..];
      (if pads[0].mappingAvailable then [pads[0]] else []) + WithMapping(pads[1..])
  }

  datatype Graph = Graph(routes: seq<Segment>, processors: seq<Processor>,
                         unavailableMappings: seq<nat>, unavailableMacros: seq<nat>)

  function FlowRoutes(pads: seq<Pad>, collate: Collation): seq<Segment> {
    DirectRoutes(WithMapping(pads), collate) + NodeSegments(Nodes(pads, collate))
  }

  datatype Missing = NoMapping | NoMacros

  predicate Misses(pad: Pad, what: Missing) {
    match what
    case NoMapping => !pad.mappingAvailable
    case NoMacros => !pad.macroAvailable
  }

  function SlotsMissing(pads: seq<Pad>, what: Missing): seq<nat> {
    if pads == [] then []
    else
      var last := pads[|pads| - 1];
      SlotsMissing(pads[..|pads| - 1], what) + (if Misses(last, what) then [last.slot] else [])
  }

  /** The distinct outputs of one macro, in first-mention order. */
  method DistinctOutputs(outputs: seq<MacroOutput>) returns (touches: seq<Touch>)
    ensures touches == Touches(outputs)
  {
    hide Normalized, CleanSteps;
    touches := [];
    var seen: set<string> := {};
    for i := 0 to |outputs|
      invariant touches == Touches(outputs[..i])
      invariant forall fn :: fn in seen <==> fn in Names(touches)
    {
      assert outputs[..i + 1][..i] == outputs[..i];
      var fn := Normalized(outputs[i].functionName);
      if fn == "" || fn in seen {
        continue;
      }
      seen := seen + {fn};
      assert Names(touches + [Touch(fn, CleanSteps(outputs[i].steps))]) == Names(touches) + [fn];
      touches := touches + [Touch(fn, CleanSteps(outputs[i].steps))];
    }
    assert outputs[..|outputs|] == outputs;
  }

  /** One macro: its processor node, then its trigger and output segments. */
  method AddMacro(pad: Pad, macro: Macro, routes: seq<Segment>) returns (processor: Processor, next: seq<Segment>)
    ensures processor == ProcessorFor(pad, macro)
    ensures next == routes + MacroSegments(pad, macro)
  {
    hide TriggerKeys, Touches, TriggerFor, OutputFor, RouteId;
    var triggers := TriggerKeys(macro);
    var outputs := DistinctOutputs(macro.outputs);
    processor := Processor(ProcessorId(pad, macro), pad.slot, pad.preset, macro.name, triggers, outputs);
    next := routes;
    for i := 0 to |triggers|
      invariant next == routes + TriggerSegments(pad, macro, triggers[..i])
    {
      next := next + [TriggerFor(pad, macro, triggers[i])];
    }
    ghost var half := next;
    for i := 0 to |outputs|
      invariant next == half + OutputSegments(pad, macro, outputs[..i])
    {
      next := next + [OutputFor(pad, macro, outputs[i])];
    }
    assert triggers[..|triggers|] == triggers && outputs[..|outputs|] == outputs;
  }

  lemma NodeAppended(nodes: seq<Node>, pad: Pad, macro: Macro)
    ensures NodeSegments(nodes + [Node(pad, macro)]) == NodeSegments(nodes) + MacroSegments(pad, macro)
    ensures NodeProcessors(nodes + [Node(pad, macro)]) == NodeProcessors(nodes) + [ProcessorFor(pad, macro)]
  {
    assert (nodes + [Node(pad, macro)])[..|nodes|] == nodes;
  }

  lemma PadAppended(pads: seq<Pad>, n: nat, collate: Collation)
    requires n < |pads|
    ensures NodesOf(pads[..n + 1], collate)
         == if pads[n].macroAvailable then NodesOf(pads[..n], collate) + PadNodes(pads[n], ByName(pads[n].macros, collate))
            else NodesOf(pads[..n], collate)
  {
    assert pads[..n + 1][..n] == pads[..n];
  }

  lemma SlotAppended(pads: seq<Pad>, n: nat, what: Missing)
    requires n < |pads|
    ensures SlotsMissing(pads[..n + 1], what)
         == SlotsMissing(pads[..n], what) + (if Misses(pads[n], what) then [pads[n].slot] else [])
  {
    assert pads[..n + 1][..n] == pads[..n];
  }

  /** The macros of one pad, in name order. */
  method AddPad(pad: Pad, collate: Collation, routes: seq<Segment>, processors: seq<Processor>,
                ghost direct: seq<Segment>, ghost done: seq<Node>)
    returns (nextRoutes: seq<Segment>, nextProcessors: seq<Processor>)
    requires routes == direct + NodeSegments(done) && processors == NodeProcessors(done)
    ensures nextRoutes == direct + NodeSegments(done + PadNodes(pad, ByName(pad.macros, collate)))
    ensures nextProcessors == NodeProcessors(done + PadNodes(pad, ByName(pad.macros, collate)))
  {
    hide MacroSegments, ProcessorFor, NodeSegments, NodeProcessors, SortBy;
    nextRoutes, nextProcessors := routes, processors;
    var macros := ByName(pad.macros, collate);
    assert done + PadNodes(pad, macros[..0]) == done;
    for m := 0 to |macros|
      invariant nextRoutes == direct + NodeSegments(done + PadNodes(pad, macros[..m]))
      invariant nextProcessors == NodeProcessors(done + PadNodes(pad, macros[..m]))
    {
      var processor;
      NodeAppended(done + PadNodes(pad, macros[..m]), pad, macros[m]);
      assert done + PadNodes(pad, macros[..m + 1]) == done + PadNodes(pad, macros[..m]) + [Node(pad, macros[m])];
      processor, nextRoutes := AddMacro(pad, macros[m], nextRoutes);
      nextProcessors := nextProcessors + [processor];
    }
    assert macros[..|macros|] == macros;
  }

  method DeriveMappingFlow(pads: seq<Pad>, collate: Collation) returns (graph: Graph)
    ensures graph.routes == FlowRoutes(pads, collate)
    ensures graph.processors == NodeProcessors(Nodes(pads, collate))
    ensures graph.unavailableMappings == SlotsMissing(BySlot(pads), NoMapping)
    ensures graph.unavailableMacros == SlotsMissing(BySlot(pads), NoMacros)
  {
    hide DirectRoutes, BySlot, MacroSegments, ProcessorFor, ByName, PadNodes, ProcessorId;
    var direct := DeriveDirectMappingFlow(WithMapping(pads), collate);
    var routes, processors := direct, [];
    var unavailableMappings, unavailableMacros := [], [];
    var ordered := BySlot(pads);
    for p := 0 to |ordered|
      invariant routes == direct + NodeSegments(NodesOf(ordered[..p], collate))
      invariant processors == NodeProcessors(NodesOf(ordered[..p], collate))
      invariant unavailableMappings == SlotsMissing(ordered[..p], NoMapping)
      invariant unavailableMacros == SlotsMissing(ordered[..p], NoMacros)
    {
      PadAppended(ordered, p, collate);
      SlotAppended(ordered, p, NoMapping);
      SlotAppended(ordered, p, NoMacros);
      var pad := ordered[p];
      if !pad.mappingAvailable {
        unavailableMappings := unavailableMappings + [pad.slot];
      }
      if !pad.macroAvailable {
        unavailableMacros := unavailableMacros + [pad.slot];
        continue;
      }
      routes, processors := AddPad(pad, collate, routes, processors, direct, NodesOf(ordered[..p], collate));
    }
    assert ordered[..|ordered|] == ordered;
    graph := Graph(routes, processors, unavailableMappings, unavailableMacros);
  }
}
