/** What the mapping graph means. */
module FlowMeaning {
  // It reaches exactly the controls the bindings and macros drive, with one
  // segment per distinct trigger and output and a distinct identity for each.

  import opened Strings
  import opened Options
  import opened RouteIds
  import opened FlowGraph

  // ----- the meaning of the payload, without any graph

  /** A projected control names the function. */
  ghost predicate Projects(pad: Pad, fn: string) {
    pad.controls.Some? && exists c :: c in pad.controls.value && Normalized(c.functionName) == fn
  }

  /** A projected control names the function and lists the key, or no projected
      control names it and a compatibility entry does. */
  ghost predicate BindsDirectly(pad: Pad, key: string, fn: string) {
    && key != "" && fn != ""
    && (|| (pad.controls.Some?
            && exists c, k :: c in pad.controls.value && k in c.keys && Normalized(c.functionName) == fn && Trim(k) == key)
        || (!Projects(pad, fn)
            && exists e, k :: e in pad.fnKeys && k in Split(e.1, '\U{00B7}') && Normalized(e.0) == fn && Trim(k) == key))
  }

  lemma ProjectedIs(pad: Pad, fn: string)
    ensures Projected(pad, fn) <==> Projects(pad, Normalized(fn))
  {
    hide Normalized;
    if Projects(pad, Normalized(fn)) {
      var c :| c in pad.controls.value && Normalized(c.functionName) == Normalized(fn);
      var i :| 0 <= i < |pad.controls.value| && pad.controls.value[i] == c;
      assert ProjectedControls(pad)[i] == c;
    }
  }

  ghost predicate Triggers(macro: Macro, key: string) {
    key != "" && exists k :: k in macro.triggers && Trim(k) == key
  }

  ghost predicate Outputs(macro: Macro, fn: string) {
    fn != "" && exists o :: o in macro.outputs && Normalized(o.functionName) == fn
  }

  ghost predicate DrivenDirectly(pads: seq<Pad>, key: string, slot: nat, fn: string) {
    exists pad :: pad in pads && pad.mappingAvailable && pad.slot == slot && BindsDirectly(pad, key, fn)
  }

  ghost predicate DrivenByMacro(pads: seq<Pad>, key: string, slot: nat, fn: string) {
    exists pad, macro ::
      && pad in pads && pad.macroAvailable && pad.slot == slot && macro in pad.macros
      && Triggers(macro, key) && Outputs(macro, fn)
  }

  // ----- the meaning of the graph

  /** A binding segment, or a trigger and an output through one processor. */
  ghost predicate Reaches(routes: seq<Segment>, key: string, slot: nat, fn: string) {
    || (exists r :: r in routes && r.Binding? && r.key == key && r.slot == slot && r.functionName == fn)
    || (exists t, o ::
          && t in routes && t.Trigger? && t.key == key
          && o in routes && o.Output? && o.slot == slot && o.functionName == fn
          && t.processorId == o.processorId)
  }

  /** Available macros are told apart by slot, preset and name. */
  ghost predicate MacrosNamedApart(pads: seq<Pad>) {
    forall p, q, m, n ::
      && p in pads && p.macroAvailable && m in p.macros
      && q in pads && q.macroAvailable && n in q.macros
      && p.slot == q.slot && p.preset == q.preset && m.name == n.name
      ==> p == q && m == n
  }

  // ----- direct bindings

  lemma {:induction false} KeyCandidatesSpec(pad: Pad, fn: string, keys: seq<string>, c: Candidate)
    ensures c in KeyCandidates(pad, fn, keys) <==>
            && c == Candidate(pad.slot, pad.preset, c.key, fn) && c.key != ""
            && exists k :: k in keys && Trim(k) == c.key
  {
    hide Trim;
    if keys != [] {
      var front, last := keys[..|keys| - 1], keys[|keys| - 1];
      KeyCandidatesSpec(pad, fn, front, c);
      assert forall k :: k in keys <==> k in front || k == last by {
        assert keys == front + [last];
      }
    }
  }

  lemma {:induction false} EntryCandidatesSpec(pad: Pad, entries: seq<Entry>, c: Candidate)
    ensures c in EntryCandidates(pad, entries) <==>
            && c.slot == pad.slot && c.preset == pad.preset && c.key != "" && c.functionName != ""
            && exists e, k :: e in entries && k in e.keys && Normalized(e.functionName) == c.functionName && Trim(k) == c.key
  {
    hide Trim, Normalized, KeyCandidates;
    if entries != [] {
      var front, last := entries[..|entries| - 1], entries[|entries| - 1];
      EntryCandidatesSpec(pad, front, c);
      KeyCandidatesSpec(pad, Normalized(last.functionName), last.keys, c);
      assert forall e :: e in entries <==> e in front || e == last by {
        assert entries == front + [last];
      }
    }
  }

  lemma {:induction false} LegacyEntriesSpec(pad: Pad, fnKeys: seq<(string, string)>, e: Entry)
    ensures e in LegacyEntries(pad, fnKeys) <==>
            exists f :: f in fnKeys && !Projected(pad, f.0) && e == Entry(f.0, Split(f.1, '\U{00B7}'))
  {
    hide Projected, Split;
    if fnKeys != [] {
      LegacyEntriesSpec(pad, fnKeys[1..], e);
      assert forall f :: f in fnKeys <==> f == fnKeys[0] || f in fnKeys[1..] by {
        assert fnKeys == [fnKeys[0]] + fnKeys[1..];
      }
    }
  }

  lemma ControlEntriesSpec(controls: seq<PadControl>, e: Entry)
    ensures e in ControlEntries(controls) <==> exists c :: c in controls && e == Entry(c.functionName, c.keys)
  {
    if e in ControlEntries(controls) {
      var i :| 0 <= i < |controls| && ControlEntries(controls)[i] == e;
      assert controls[i] in controls;
    }
    if c :| c in controls && e == Entry(c.functionName, c.keys) {
      var i :| 0 <= i < |controls| && controls[i] == c;
      assert ControlEntries(controls)[i] == e;
    }
  }

  lemma EntriesSpec(pad: Pad, collate: Collation, e: Entry)
    ensures e in Entries(pad, collate) <==>
            || (exists c :: c in ProjectedControls(pad) && e == Entry(c.functionName, c.keys))
            || (exists f :: f in pad.fnKeys && !Projected(pad, f.0) && e == Entry(f.0, Split(f.1, '\U{00B7}')))
  {
    hide Projected, Split, ProjectedControls, Normalized, ControlEntries, LegacyEntries;
    var order := (a: PadControl, b: PadControl) =>
      a.order < b.order || (a.order == b.order && collate(Normalized(a.functionName), Normalized(b.functionName)));
    ControlEntriesSpec(SortBy(ProjectedControls(pad), order), e);
    LegacyEntriesSpec(pad, pad.fnKeys, e);
  }

  lemma ControlsOf(pad: Pad)
    ensures forall c :: c in ProjectedControls(pad) <==> pad.controls.Some? && c in pad.controls.value
  {
  }

  /** Some entry of the pad names the function and lists the key. */
  ghost predicate HasEntry(pad: Pad, collate: Collation, key: string, fn: string) {
    exists e, k :: e in Entries(pad, collate) && k in e.keys && Normalized(e.functionName) == fn && Trim(k) == key
  }

  lemma EntryMeansBinding(pad: Pad, collate: Collation, key: string, fn: string)
    requires key != "" && fn != ""
    ensures HasEntry(pad, collate, key, fn) <==> BindsDirectly(pad, key, fn)
  {
    ControlsOf(pad);
    hide Projected, Projects, Split, ProjectedControls, Normalized, Entries, Trim;
    if HasEntry(pad, collate, key, fn) {
      var e, k :| e in Entries(pad, collate) && k in e.keys && Normalized(e.functionName) == fn && Trim(k) == key;
      EntriesSpec(pad, collate, e);
      ProjectedIs(pad, e.functionName);
    }
    if BindsDirectly(pad, key, fn) {
      if pad.controls.Some? && exists c, k :: c in pad.controls.value && k in c.keys && Normalized(c.functionName) == fn && Trim(k) == key {
        var c, k :| c in pad.controls.value && k in c.keys && Normalized(c.functionName) == fn && Trim(k) == key;
        EntriesSpec(pad, collate, Entry(c.functionName, c.keys));
      } else {
        var f, k :| f in pad.fnKeys && k in Split(f.1, '\U{00B7}') && Normalized(f.0) == fn && Trim(k) == key;
        ProjectedIs(pad, f.0);
        EntriesSpec(pad, collate, Entry(f.0, Split(f.1, '\U{00B7}')));
      }
    }
  }

  lemma PadCandidateMeansBinding(pad: Pad, collate: Collation, c: Candidate)
    ensures c in EntryCandidates(pad, Entries(pad, collate)) <==>
            c.slot == pad.slot && c.preset == pad.preset && BindsDirectly(pad, c.key, c.functionName)
  {
    EntryCandidatesSpec(pad, Entries(pad, collate), c);
    BindingHasNames(pad, c.key, c.functionName);
    hide BindsDirectly, Normalized, Entries, Trim, EntryCandidates;
    if c.key != "" && c.functionName != "" {
      EntryMeansBinding(pad, collate, c.key, c.functionName);
    }
  }

  lemma BindingHasNames(pad: Pad, key: string, fn: string)
    ensures BindsDirectly(pad, key, fn) ==> key != "" && fn != ""
  {
    hide Projects, Normalized, Trim, Split;
  }

  lemma {:induction false} PadCandidatesSpec(pads: seq<Pad>, collate: Collation, c: Candidate)
    ensures c in PadCandidates(pads, collate) <==>
            exists pad :: pad in pads && c.slot == pad.slot && c.preset == pad.preset && BindsDirectly(pad, c.key, c.functionName)
  {
    hide BindsDirectly, EntryCandidates, Entries;
    if pads != [] {
      var front, last := pads[..|pads| - 1], pads[|pads| - 1];
      PadCandidatesSpec(front, collate, c);
      PadCandidateMeansBinding(last, collate, c);
      assert forall p :: p in pads <==> p in front || p == last by {
        assert pads == front + [last];
      }
    }
  }

  ghost predicate ComesFrom(r: Segment, cs: seq<Candidate>) {
    r.Binding? && exists c :: c in cs && r == BindingFor(c)
  }

  /** A binding segment comes from some candidate. */
  lemma {:induction false} BindingsComeFrom(cs: seq<Candidate>, r: Segment)
    requires r in FirstBindings(cs)
    ensures ComesFrom(r, cs)
  {
    hide BindingFor, Signatures, SignatureOf;
    var front, last := cs[..|cs| - 1], cs[|cs| - 1];
    assert cs == front + [last];
    if r in FirstBindings(front) {
      BindingsComeFrom(front, r);
      var c :| c in front && r == BindingFor(c);
      assert c in cs;
    } else {
      assert r == BindingFor(last) && last in cs;
      BindingForIsBinding(last);
    }
  }

  lemma BindingForIsBinding(c: Candidate)
    ensures BindingFor(c).Binding?
    ensures (BindingFor(c).slot, BindingFor(c).key, BindingFor(c).functionName) == SignatureOf(c)
  {
  }

  /** Every candidate is covered by a binding segment of its signature. */
  lemma {:induction false} BindingsCover(cs: seq<Candidate>, c: Candidate) returns (r: Segment)
    requires c in cs
    ensures r in FirstBindings(cs) && r.Binding?
    ensures (r.slot, r.key, r.functionName) == SignatureOf(c)
  {
    hide BindingFor, SignatureOf;
    var front, last := cs[..|cs| - 1], cs[|cs| - 1];
    assert cs == front + [last];
    if c in front {
      r := BindingsCover(front, c);
    } else if SignatureOf(last) in Signatures(front) {
      var d :| d in front && SignatureOf(d) == SignatureOf(last);
      r := BindingsCover(front, d);
    } else {
      BindingForIsBinding(last);
      r := BindingFor(last);
    }
  }

  /** The binding segments reach exactly what available pads bind directly. */
  lemma DirectRoutesMeanBindings(pads: seq<Pad>, collate: Collation, key: string, slot: nat, fn: string)
    ensures (exists r :: r in DirectRoutes(WithMapping(pads), collate) && r.Binding?
                         && r.key == key && r.slot == slot && r.functionName == fn)
       <==> DrivenDirectly(pads, key, slot, fn)
  {
    hide BindsDirectly, SortBy, RouteId, PadCandidates, FirstBindings, BindingFor;
    var ordered := BySlot(WithMapping(pads));
    var cs := PadCandidates(ordered, collate);
    var routes := DirectRoutes(WithMapping(pads), collate);
    if r :| r in routes && r.Binding? && r.key == key && r.slot == slot && r.functionName == fn {
      BindingsComeFrom(cs, r);
      var c :| c in cs && r == BindingFor(c);
      BindingForIsBinding(c);
      PadCandidatesSpec(ordered, collate, c);
    }
    if DrivenDirectly(pads, key, slot, fn) {
      var pad :| pad in pads && pad.mappingAvailable && pad.slot == slot && BindsDirectly(pad, key, fn);
      var c := Candidate(slot, pad.preset, key, fn);
      PadCandidatesSpec(ordered, collate, c);
      assert pad in ordered;
      var r := BindingsCover(cs, c);
    }
  }

  // ----- macros

  lemma {:induction false} NodesOfSpec(pads: seq<Pad>, collate: Collation, n: Node)
    ensures n in NodesOf(pads, collate) <==> n.pad in pads && n.pad.macroAvailable && n.macro in n.pad.macros
  {
    hide SortBy;
    if pads != [] {
      var front, last := pads[..|pads| - 1], pads[|pads| - 1];
      NodesOfSpec(front, collate, n);
      assert n.pad in pads <==> n.pad in front || n.pad == last by {
        assert pads == front + [last];
      }
      var macros := ByName(last.macros, collate);
      assert n in PadNodes(last, macros) <==> n.pad == last && n.macro in macros by {
        if n.pad == last && n.macro in macros {
          var i :| 0 <= i < |macros| && macros[i] == n.macro;
          assert PadNodes(last, macros)[i] == n;
        }
      }
    }
  }

  lemma NodesSpec(pads: seq<Pad>, collate: Collation, n: Node)
    ensures n in Nodes(pads, collate) <==> n.pad in pads && n.pad.macroAvailable && n.macro in n.pad.macros
  {
    NodesOfSpec(BySlot(pads), collate, n);
  }

  lemma {:induction false} NodeSegmentsSpec(nodes: seq<Node>, s: Segment)
    ensures s in NodeSegments(nodes) <==> exists n :: n in nodes && s in MacroSegments(n.pad, n.macro)
  {
    hide MacroSegments;
    if nodes != [] {
      var front, last := nodes[..|nodes| - 1], nodes[|nodes| - 1];
      NodeSegmentsSpec(front, s);
      assert forall n :: n in nodes <==> n in front || n == last by {
        assert nodes == front + [last];
      }
    }
  }

  lemma TriggerKeysSpec(macro: Macro, key: string)
    ensures key in TriggerKeys(macro) <==> Triggers(macro, key)
  {
    hide Trim;
    NonEmptyTrimmedSpec(macro.triggers, key);
    if k :| k in macro.triggers && Trim(k) == key {
      var i :| 0 <= i < |macro.triggers| && macro.triggers[i] == k;
    }
  }

  lemma TouchNamesSpec(macro: Macro, fn: string)
    ensures fn in Names(Touches(macro.outputs)) <==> Outputs(macro, fn)
  {
    hide Normalized;
    TouchesAreDistinct(macro.outputs);
    OutputNamesSpec(macro.outputs, fn);
    if o :| o in macro.outputs && Normalized(o.functionName) == fn {
      var i :| 0 <= i < |macro.outputs| && macro.outputs[i] == o;
    }
  }

  /** A trigger of the macro, or one of its outputs. */
  ghost predicate BelongsTo(s: Segment, pad: Pad, macro: Macro) {
    match s
    case Binding(_, _, _, _) => false
    case Trigger(_, _, _, key) => Triggers(macro, key) && s == TriggerFor(pad, macro, key)
    case Output(id, slot, processorId, fn, _) =>
      && Outputs(macro, fn) && slot == pad.slot && processorId == ProcessorId(pad, macro)
      && id == RouteId(OutputOf(pad.slot, pad.preset, macro.name, fn))
  }

  /** The segments of one macro: a trigger for each trigger key and an output
      for each function it touches. */
  lemma MacroSegmentsSpec(pad: Pad, macro: Macro)
    ensures forall s | s in MacroSegments(pad, macro) :: BelongsTo(s, pad, macro)
    ensures forall key | Triggers(macro, key) :: TriggerFor(pad, macro, key) in MacroSegments(pad, macro)
    ensures forall fn | Outputs(macro, fn) ::
              exists o :: && o in MacroSegments(pad, macro) && o.Output? && o.functionName == fn
                          && o.slot == pad.slot && o.processorId == ProcessorId(pad, macro)
  {
    hide RouteId, TriggerKeys, Touches, Triggers, Outputs;
    var keys, touches := TriggerKeys(macro), Touches(macro.outputs);
    var ts, os := TriggerSegments(pad, macro, keys), OutputSegments(pad, macro, touches);
    forall s: Segment | s in ts + os
      ensures BelongsTo(s, pad, macro)
    {
      if s in ts {
        var i :| 0 <= i < |ts| && ts[i] == s;
        TriggerKeysSpec(macro, keys[i]);
      } else {
        var i :| 0 <= i < |os| && os[i] == s;
        assert touches[i].functionName == Names(touches)[i];
        TouchNamesSpec(macro, touches[i].functionName);
      }
    }
    forall key | Triggers(macro, key) ensures TriggerFor(pad, macro, key) in MacroSegments(pad, macro) {
      TriggerKeysSpec(macro, key);
      var i :| 0 <= i < |keys| && keys[i] == key;
      assert ts[i] == TriggerFor(pad, macro, key);
    }
    forall fn | Outputs(macro, fn)
      ensures exists o :: && o in MacroSegments(pad, macro) && o.Output? && o.functionName == fn
                          && o.slot == pad.slot && o.processorId == ProcessorId(pad, macro)
    {
      TouchNamesSpec(macro, fn);
      var i :| 0 <= i < |touches| && Names(touches)[i] == fn;
      assert os[i] in ts + os;
    }
  }

  /** Two available macros of one slot, preset and name, the first triggered by
      the key and the second putting out the function. */
  ghost predicate Namesakes(pads: seq<Pad>, m: Node, n: Node, key: string, slot: nat, fn: string) {
    && m.pad in pads && m.pad.macroAvailable && m.macro in m.pad.macros
    && n.pad in pads && n.pad.macroAvailable && n.macro in n.pad.macros
    && m.pad.slot == n.pad.slot == slot && m.pad.preset == n.pad.preset && m.macro.name == n.macro.name
    && Triggers(m.macro, key) && Outputs(n.macro, fn)
  }

  ghost predicate DrivenByNamesakes(pads: seq<Pad>, key: string, slot: nat, fn: string) {
    exists m, n :: Namesakes(pads, m, n, key, slot, fn)
  }

  /** Through processors, the graph reaches exactly what namesake macros drive:
      a trigger and an output share a processor identity only when their macros
      share slot, preset and name. */
  lemma MacroSegmentsMeanNamesakes(pads: seq<Pad>, collate: Collation, key: string, slot: nat, fn: string)
    ensures (exists t, o ::
               && t in NodeSegments(Nodes(pads, collate)) && t.Trigger? && t.key == key
               && o in NodeSegments(Nodes(pads, collate)) && o.Output? && o.slot == slot && o.functionName == fn
               && t.processorId == o.processorId)
       <==> DrivenByNamesakes(pads, key, slot, fn)
  {
    hide NodeSegments, Nodes, MacroSegments, Triggers, Outputs, RouteId;
    var nodes := Nodes(pads, collate);
    var segments := NodeSegments(nodes);
    if t, o :| && t in segments && t.Trigger? && t.key == key
               && o in segments && o.Output? && o.slot == slot && o.functionName == fn
               && t.processorId == o.processorId {
      NodeSegmentsSpec(nodes, t);
      NodeSegmentsSpec(nodes, o);
      var m :| m in nodes && t in MacroSegments(m.pad, m.macro);
      var n :| n in nodes && o in MacroSegments(n.pad, n.macro);
      NodesSpec(pads, collate, m);
      NodesSpec(pads, collate, n);
      MacroSegmentsSpec(m.pad, m.macro);
      MacroSegmentsSpec(n.pad, n.macro);
      RouteIdIsInjective(MacroOf(m.pad.slot, m.pad.preset, m.macro.name), MacroOf(n.pad.slot, n.pad.preset, n.macro.name));
      assert Namesakes(pads, m, n, key, slot, fn);
    }
    if DrivenByNamesakes(pads, key, slot, fn) {
      var m, n :| Namesakes(pads, m, n, key, slot, fn);
      NodesSpec(pads, collate, m);
      NodesSpec(pads, collate, n);
      MacroSegmentsSpec(m.pad, m.macro);
      MacroSegmentsSpec(n.pad, n.macro);
      var o :| && o in MacroSegments(n.pad, n.macro) && o.Output? && o.functionName == fn
               && o.slot == n.pad.slot && o.processorId == ProcessorId(n.pad, n.macro);
      NodeSegmentsSpec(nodes, TriggerFor(m.pad, m.macro, key));
      NodeSegmentsSpec(nodes, o);
    }
  }

  /** What the graph reaches, for every payload. */
  lemma FlowReachesExactly(pads: seq<Pad>, collate: Collation, key: string, slot: nat, fn: string)
    ensures Reaches(FlowRoutes(pads, collate), key, slot, fn)
       <==> DrivenDirectly(pads, key, slot, fn) || DrivenByNamesakes(pads, key, slot, fn)
  {
    hide DrivenDirectly, DrivenByNamesakes, Nodes, BySlot, PadCandidates, NodeSegments, DirectRoutes;
    DirectRoutesMeanBindings(pads, collate, key, slot, fn);
    MacroSegmentsMeanNamesakes(pads, collate, key, slot, fn);
    var direct, macros := DirectRoutes(WithMapping(pads), collate), NodeSegments(Nodes(pads, collate));
    forall s | s in macros ensures !s.Binding? {
      MacrosDrawNoBinding(Nodes(pads, collate), s);
    }
    forall s | s in direct ensures s.Binding? {
      DirectDrawsBindings(WithMapping(pads), collate, s);
    }
    assert forall s :: s in FlowRoutes(pads, collate) <==> s in direct || s in macros;
  }

  /** The graph preserves meaning: with macros told apart by slot, preset and
      name, a key reaches a control exactly when an available pad binds it
      directly, or an available macro it triggers outputs that control. */
  lemma FlowPreservesMeaning(pads: seq<Pad>, collate: Collation, key: string, slot: nat, fn: string)
    requires MacrosNamedApart(pads)
    ensures Reaches(FlowRoutes(pads, collate), key, slot, fn)
       <==> DrivenDirectly(pads, key, slot, fn) || DrivenByMacro(pads, key, slot, fn)
  {
    hide DrivenDirectly, Reaches, FlowRoutes, Triggers, Outputs;
    FlowReachesExactly(pads, collate, key, slot, fn);
    if DrivenByMacro(pads, key, slot, fn) {
      var pad, macro :| && pad in pads && pad.macroAvailable && pad.slot == slot && macro in pad.macros
                        && Triggers(macro, key) && Outputs(macro, fn);
      assert Namesakes(pads, Node(pad, macro), Node(pad, macro), key, slot, fn);
    }
    if DrivenByNamesakes(pads, key, slot, fn) {
      var m, n :| Namesakes(pads, m, n, key, slot, fn);
      assert m.pad == n.pad && m.macro == n.macro;
    }
  }

  /** A pad whose first macro is only triggered, and whose second, of the same
      name, only puts out. */
  function Crossing(slot: nat, preset: string, name: string, key: string, fn: string): Pad {
    Pad(slot, preset, [], None, true, [Macro(name, [key], []), Macro(name, [], [MacroOutput(fn, [])])], true)
  }

  /** On such a pad the key reaches the control, though nothing binds it and no
      macro it triggers puts the control out. */
  lemma NamesakesCross(slot: nat, preset: string, name: string, key: string, fn: string, collate: Collation)
    requires Trim(key) == key != "" && Normalized(fn) == fn != ""
    ensures var pads := [Crossing(slot, preset, name, key, fn)];
      && Reaches(FlowRoutes(pads, collate), key, slot, fn)
      && !DrivenDirectly(pads, key, slot, fn) && !DrivenByMacro(pads, key, slot, fn)
  {
    hide Reaches, FlowRoutes, Trim, Normalized;
    var pad := Crossing(slot, preset, name, key, fn);
    var m, n := Node(pad, pad.macros[0]), Node(pad, pad.macros[1]);
    FlowReachesExactly([pad], collate, key, slot, fn);
    assert Triggers(m.macro, key) by {
      assert key in m.macro.triggers;
    }
    assert Outputs(n.macro, fn) by {
      assert MacroOutput(fn, []) in n.macro.outputs;
    }
    assert Namesakes([pad], m, n, key, slot, fn);
  }

  lemma MacrosDrawNoBinding(nodes: seq<Node>, s: Segment)
    requires s in NodeSegments(nodes)
    ensures !s.Binding?
  {
    hide MacroSegments;
    NodeSegmentsSpec(nodes, s);
    var n :| n in nodes && s in MacroSegments(n.pad, n.macro);
    MacroSegmentsSpec(n.pad, n.macro);
  }

  lemma DirectDrawsBindings(pads: seq<Pad>, collate: Collation, s: Segment)
    requires s in DirectRoutes(pads, collate)
    ensures s.Binding?
  {
    BindingsComeFrom(PadCandidates(BySlot(pads), collate), s);
  }

  // ----- how many segments, and their identities

  function TotalOf(nodes: seq<Node>): nat {
    if nodes == [] then 0
    else
      var last := nodes[|nodes| - 1].macro;
      TotalOf(nodes[..|nodes| - 1])
      + |set k | k in NonEmptyTrimmed(last.triggers)| + |set f | f in OutputNames(last.outputs)|
  }

  lemma MacroSegmentCount(pad: Pad, macro: Macro)
    ensures |MacroSegments(pad, macro)|
         == |set k | k in NonEmptyTrimmed(macro.triggers)| + |set f | f in OutputNames(macro.outputs)|
  {
    hide NonEmptyTrimmed, OutputNames, Touches;
    var keys, names := NonEmptyTrimmed(macro.triggers), OutputNames(macro.outputs);
    DistinctCount(Distinct(keys));
    assert (set k | k in Distinct(keys)) == set k | k in keys;
    TouchesAreDistinct(macro.outputs);
    DistinctCount(Distinct(names));
    assert (set f | f in Distinct(names)) == set f | f in names;
  }

  /** Every macro adds exactly its distinct triggers plus its distinct outputs. */
  lemma {:induction false} SegmentCount(nodes: seq<Node>)
    ensures |NodeSegments(nodes)| == TotalOf(nodes)
  {
    hide MacroSegments;
    if nodes != [] {
      SegmentCount(nodes[..|nodes| - 1]);
      MacroSegmentCount(nodes[|nodes| - 1].pad, nodes[|nodes| - 1].macro);
    }
  }

  ghost predicate DistinctIds(segments: seq<Segment>) {
    forall i, j | 0 <= i < j < |segments| :: segments[i].id != segments[j].id
  }

  ghost predicate NoCommonId(a: seq<Segment>, b: seq<Segment>) {
    forall s: Segment, t: Segment | s in a && t in b :: s.id != t.id
  }

  lemma DistinctIdsConcat(a: seq<Segment>, b: seq<Segment>)
    ensures DistinctIds(a + b) <==> DistinctIds(a) && DistinctIds(b) && NoCommonId(a, b)
  {
    var c := a + b;
    if DistinctIds(a) && DistinctIds(b) && NoCommonId(a, b) {
      forall i, j | 0 <= i < j < |c| ensures c[i].id != c[j].id {
        if i < |a| <= j {
          assert a[i] in a && b[j - |a|] in b;
        }
      }
    }
    if DistinctIds(c) {
      assert forall i | 0 <= i < |a| :: c[i] == a[i];
      assert forall j | 0 <= j < |b| :: c[|a| + j] == b[j];
      forall i, j | 0 <= i < j < |b| ensures b[i].id != b[j].id {
        assert c[|a| + i].id != c[|a| + j].id;
      }
      forall s: Segment, t: Segment | s in a && t in b ensures s.id != t.id {
        var i :| 0 <= i < |a| && a[i] == s;
        var j :| 0 <= j < |b| && b[j] == t;
        assert c[i].id != c[|a| + j].id;
      }
    }
  }

  /** The identity of a segment names the node it belongs to. */
  ghost predicate IdNames(s: Segment, n: Node) {
    || (s.Trigger? && s.id == RouteId(TriggerOf(n.pad.slot, n.pad.preset, n.macro.name, s.key)))
    || (s.Output? && s.id == RouteId(OutputOf(n.pad.slot, n.pad.preset, n.macro.name, s.functionName)))
  }

  lemma MacroIdsAreDistinct(n: Node)
    ensures DistinctIds(MacroSegments(n.pad, n.macro))
    ensures forall s | s in MacroSegments(n.pad, n.macro) :: IdNames(s, n)
  {
    hide RouteId, TriggerKeys, Touches, ProcessorId, Distinct;
    MacroSegmentsSpec(n.pad, n.macro);
    var keys, touches := TriggerKeys(n.macro), Touches(n.macro.outputs);
    var ts, os := TriggerSegments(n.pad, n.macro, keys), OutputSegments(n.pad, n.macro, touches);
    KeysAndNamesAreDistinct(n.macro);
    forall i, j | 0 <= i < j < |ts| ensures ts[i].id != ts[j].id {
      if ts[i].id == ts[j].id {
        RouteIdIsInjective(TriggerOf(n.pad.slot, n.pad.preset, n.macro.name, keys[i]),
                           TriggerOf(n.pad.slot, n.pad.preset, n.macro.name, keys[j]));
      }
    }
    forall i, j | 0 <= i < j < |os| ensures os[i].id != os[j].id {
      if os[i].id == os[j].id {
        RouteIdIsInjective(OutputOf(n.pad.slot, n.pad.preset, n.macro.name, touches[i].functionName),
                           OutputOf(n.pad.slot, n.pad.preset, n.macro.name, touches[j].functionName));
      }
    }
    forall s: Segment, t: Segment | s in ts && t in os ensures s.id != t.id {
      if s.id == t.id {
        RouteIdIsInjective(TriggerOf(n.pad.slot, n.pad.preset, n.macro.name, s.key),
                           OutputOf(n.pad.slot, n.pad.preset, n.macro.name, t.functionName));
      }
    }
    DistinctIdsConcat(ts, os);
  }

  lemma KeysAndNamesAreDistinct(macro: Macro)
    ensures forall i, j | 0 <= i < j < |TriggerKeys(macro)| :: TriggerKeys(macro)[i] != TriggerKeys(macro)[j]
    ensures forall i, j | 0 <= i < j < |Touches(macro.outputs)| ::
              Touches(macro.outputs)[i].functionName != Touches(macro.outputs)[j].functionName
  {
    TouchesAreDistinct(macro.outputs);
    var touches := Touches(macro.outputs);
    forall i, j | 0 <= i < j < |touches| ensures touches[i].functionName != touches[j].functionName {
      assert Names(touches)[i] != Names(touches)[j];
    }
  }

  /** Two macros of one slot, preset and name that share a trigger key or an
      output function. */
  ghost predicate Clash(m: Node, n: Node) {
    && m.pad.slot == n.pad.slot && m.pad.preset == n.pad.preset && m.macro.name == n.macro.name
    && ((exists key :: Triggers(m.macro, key) && Triggers(n.macro, key))
        || (exists fn :: Outputs(m.macro, fn) && Outputs(n.macro, fn)))
  }

  ghost predicate NodesApart(nodes: seq<Node>) {
    forall i, j | 0 <= i < j < |nodes| :: !Clash(nodes[i], nodes[j])
  }

  /** Segments of two macros share an identity exactly when the macros clash. */
  lemma CommonIdIsClash(m: Node, n: Node)
    ensures NoCommonId(MacroSegments(m.pad, m.macro), MacroSegments(n.pad, n.macro)) <==> !Clash(m, n)
  {
    hide RouteId, MacroSegments, Triggers, Outputs, ProcessorId;
    MacroSegmentsSpec(m.pad, m.macro);
    MacroSegmentsSpec(n.pad, n.macro);
    MacroIdsAreDistinct(m);
    MacroIdsAreDistinct(n);
    var a, b := MacroSegments(m.pad, m.macro), MacroSegments(n.pad, n.macro);
    forall s: Segment, t: Segment | s in a && t in b && s.id == t.id ensures Clash(m, n) {
      IdNamesOneNode(s, m, t, n);
      assert BelongsTo(s, m.pad, m.macro) && BelongsTo(t, n.pad, n.macro);
    }
    if Clash(m, n) {
      if key :| Triggers(m.macro, key) && Triggers(n.macro, key) {
        assert TriggerFor(m.pad, m.macro, key) in a && TriggerFor(n.pad, n.macro, key) in b;
      } else {
        var fn :| Outputs(m.macro, fn) && Outputs(n.macro, fn);
        var s :| s in a && s.Output? && s.functionName == fn;
        var t :| t in b && t.Output? && t.functionName == fn;
        assert IdNames(s, m) && IdNames(t, n);
      }
    }
  }

  lemma {:induction false} NoCommonIdWith(nodes: seq<Node>, n: Node)
    ensures NoCommonId(NodeSegments(nodes), MacroSegments(n.pad, n.macro)) <==> forall i | 0 <= i < |nodes| :: !Clash(nodes[i], n)
  {
    hide MacroSegments, Clash;
    if nodes != [] {
      NoCommonIdWith(nodes[..|nodes| - 1], n);
      CommonIdIsClash(nodes[|nodes| - 1], n);
    }
  }

  lemma {:induction false} NodeIdsAreDistinctIff(nodes: seq<Node>)
    ensures DistinctIds(NodeSegments(nodes)) <==> NodesApart(nodes)
  {
    hide MacroSegments, Clash, DistinctIds, NoCommonId, IdNames;
    if nodes == [] {
      NothingRepeats();
    } else {
      var front, last := nodes[..|nodes| - 1], nodes[|nodes| - 1];
      NodeIdsAreDistinctIff(front);
      MacroIdsAreDistinct(last);
      NoCommonIdWith(front, last);
      DistinctIdsConcat(NodeSegments(front), MacroSegments(last.pad, last.macro));
    }
  }

  lemma NothingRepeats()
    ensures DistinctIds([])
  {
  }

  lemma IdNamesOneNode(s: Segment, m: Node, t: Segment, n: Node)
    requires IdNames(s, m) && IdNames(t, n) && s.id == t.id
    ensures m.pad.slot == n.pad.slot && m.pad.preset == n.pad.preset && m.macro.name == n.macro.name
    ensures (s.Trigger? && t.Trigger? && s.key == t.key) || (s.Output? && t.Output? && s.functionName == t.functionName)
  {
    hide RouteId;
    var a := if s.Trigger? then TriggerOf(m.pad.slot, m.pad.preset, m.macro.name, s.key)
             else OutputOf(m.pad.slot, m.pad.preset, m.macro.name, s.functionName);
    var b := if t.Trigger? then TriggerOf(n.pad.slot, n.pad.preset, n.macro.name, t.key)
             else OutputOf(n.pad.slot, n.pad.preset, n.macro.name, t.functionName);
    RouteIdIsInjective(a, b);
  }

  lemma {:induction false} NodeIdsNameNodes(nodes: seq<Node>)
    ensures forall s | s in NodeSegments(nodes) :: exists n :: n in nodes && IdNames(s, n)
  {
    hide MacroSegments, IdNames, DistinctIds;
    if nodes != [] {
      var front, last := nodes[..|nodes| - 1], nodes[|nodes| - 1];
      NodeIdsNameNodes(front);
      MacroIdsAreDistinct(last);
      assert nodes == front + [last];
    }
  }

  lemma {:induction false} BindingIdsAreDistinct(cs: seq<Candidate>)
    ensures DistinctIds(FirstBindings(cs))
  {
    hide RouteId;
    if cs != [] {
      var front, last := cs[..|cs| - 1], cs[|cs| - 1];
      BindingIdsAreDistinct(front);
      if SignatureOf(last) !in Signatures(front) {
        forall s: Segment, t: Segment | s in FirstBindings(front) && t in [BindingFor(last)] ensures s.id != t.id {
          BindingsComeFrom(front, s);
          var c :| c in front && s == BindingFor(c);
          assert SignatureOf(c) in Signatures(front);
          if s.id == t.id {
            RouteIdIsInjective(BindingOf(c.slot, c.preset, c.key, c.functionName),
                               BindingOf(last.slot, last.preset, last.key, last.functionName));
          }
        }
        DistinctIdsConcat(FirstBindings(front), [BindingFor(last)]);
      }
    }
  }

  /** The identities of all segments of the graph, of whatever kinds, are
      distinct exactly when no two available macros clash. */
  lemma FlowIdsAreDistinctIff(pads: seq<Pad>, collate: Collation)
    ensures DistinctIds(FlowRoutes(pads, collate)) <==> NodesApart(Nodes(pads, collate))
  {
    hide RouteId, Nodes, BySlot, FirstBindings, PadCandidates, NodeSegments, DistinctIds, NodesApart;
    var nodes, cs := Nodes(pads, collate), PadCandidates(BySlot(WithMapping(pads)), collate);
    BindingIdsAreDistinct(cs);
    NodeIdsAreDistinctIff(nodes);
    NodeIdsNameNodes(nodes);
    forall s: Segment, t: Segment | s in FirstBindings(cs) && t in NodeSegments(nodes) ensures s.id != t.id {
      BindingsComeFrom(cs, s);
      var c :| c in cs && s == BindingFor(c);
      var n :| n in nodes && IdNames(t, n);
      if s.id == t.id {
        RouteIdIsInjective(BindingOf(c.slot, c.preset, c.key, c.functionName),
          if t.Trigger? then TriggerOf(n.pad.slot, n.pad.preset, n.macro.name, t.key)
          else OutputOf(n.pad.slot, n.pad.preset, n.macro.name, t.functionName));
      }
    }
    DistinctIdsConcat(FirstBindings(cs), NodeSegments(nodes));
  }

  /** A pad with two macros of one name that one key triggers. */
  function Twice(slot: nat, preset: string, name: string, key: string): Pad {
    Pad(slot, preset, [], None, true, [Macro(name, [key], []), Macro(name, [key], [])], true)
  }

  /** On such a pad two segments share an identity. */
  lemma NamesakesShareIds(slot: nat, preset: string, name: string, key: string, collate: Collation)
    requires Trim(key) == key != ""
    ensures !DistinctIds(FlowRoutes([Twice(slot, preset, name, key)], collate))
  {
    hide Trim, SortBy, DistinctIds, FlowRoutes;
    var pad := Twice(slot, preset, name, key);
    var nodes := Nodes([pad], collate);
    TwoNodes(pad, collate);
    forall i | 0 <= i < 2 ensures Triggers(nodes[i].macro, key) {
      assert nodes[i] in nodes;
      NodesSpec([pad], collate, nodes[i]);
      assert key in nodes[i].macro.triggers;
    }
    assert Clash(nodes[0], nodes[1]);
    FlowIdsAreDistinctIff([pad], collate);
  }

  lemma TwoNodes(pad: Pad, collate: Collation)
    requires pad.macroAvailable && |pad.macros| == 2
    ensures |Nodes([pad], collate)| == 2 && forall n | n in Nodes([pad], collate) :: n.pad == pad && n.macro in pad.macros
  {
    hide SortBy;
    var ordered := BySlot([pad]);
    assert multiset(ordered) == multiset{pad};
    assert ordered[0] in multiset(ordered);
    assert ordered == [pad];
    var macros := ByName(pad.macros, collate);
    assert |multiset(macros)| == |multiset(pad.macros)|;
    assert NodesOf([pad][..0], collate) == [];
    assert Nodes([pad], collate) == PadNodes(pad, macros);
  }
}
