/** The canvas poller (`poll`). */
module Poll {
  // Requests supersede each other across awaits. A request waits for its headers,
  // then for its body; answers and failures of any request arrive in any order.

  import opened Options
  import Strings

  datatype Origin = Background | Interaction | Mutation

  /** The module's `activePoll`. */
  datatype Active = Active(generation: nat, selection: string, priority: int, freshRead: bool)

  /** What a request in flight waits for; `etag` is the condition it sent. */
  datatype Request = AwaitsHeaders(etag: string) | AwaitsBody(body: string)

  datatype Answer = NotModified | Bad | Ok(etag: string, body: string)

  /** What reaches the page. */
  datatype Paint = Applied(generation: nat, body: string) | Unreachable(generation: nat)

  /** `named` records the body whose headers set `lastEtag` last. */
  datatype State = State(active: Option<Active>, generation: nat, lastBody: string, lastEtag: string,
                         pending: map<nat, Request>, paints: seq<Paint>, named: string)

  datatype Event =
    | Begin(hidden: bool, freshRead: bool, origin: Origin, slot: string, macro: string)
    | Headers(generation: nat, answer: Answer)
    | Body(generation: nat, parses: bool)
    | Failure(generation: nat)

  const INITIAL := State(None, 0, "", "", map[], [], "")

  // ----- one event

  function Selection(slot: string, macro: string): string {
    slot + ['\0'] + macro
  }

  function Wanted(freshRead: bool, origin: Origin): int {
    if origin.Mutation? then 3 else if freshRead || origin.Interaction? then 2 else 1
  }

  function Max(a: int, b: int): int {
    if a >= b then a else b
  }

  /** The priority and freshness of the request to issue, if any. */
  function Decide(active: Option<Active>, hidden: bool, freshRead: bool, origin: Origin, selection: string): Option<(int, bool)> {
    var priority := Wanted(freshRead, origin);
    if hidden && origin.Background? then None
    else if active.None? || active.value.selection != selection then Some((priority, freshRead))
    else if origin.Background? then None
    else if active.value.freshRead then
      if priority <= active.value.priority && !origin.Mutation? then None else Some((priority, true))
    else if freshRead then Some((Max(priority, active.value.priority), true))
    else if active.value.priority > priority && !origin.Mutation? then None
    else Some((priority, false))
  }

  predicate Enabled(s: State, e: Event) {
    match e
    case Begin(_, _, _, _, _) => true
    case Headers(generation, _) => generation in s.pending && s.pending[generation].AwaitsHeaders?
    case Body(generation, _) => generation in s.pending && s.pending[generation].AwaitsBody?
    case Failure(generation) => generation in s.pending
  }

  /** The request is over: its own `activePoll` goes, a newer one stays. */
  function Finished(s: State, generation: nat): State {
    s.(pending := s.pending - {generation},
       active := if s.active.Some? && s.active.value.generation == generation then None else s.active)
  }

  function Failed(s: State, generation: nat): State {
    if generation != s.generation then Finished(s, generation)
    else Finished(s.(lastBody := "", lastEtag := "", paints := s.paints + [Unreachable(generation)]), generation)
  }

  function Issued(s: State, selection: string, priority: int, freshRead: bool): State {
    var generation := s.generation + 1;
    s.(generation := generation, active := Some(Active(generation, selection, priority, freshRead)),
       pending := s.pending[generation := AwaitsHeaders(if freshRead then "" else s.lastEtag)])
  }

  function Step(s: State, e: Event): State
    requires Enabled(s, e)
  {
    match e
    case Begin(hidden, freshRead, origin, slot, macro) =>
      (match Decide(s.active, hidden, freshRead, origin, Selection(slot, macro))
       case None => s
       case Some((priority, requestFresh)) => Issued(s, Selection(slot, macro), priority, requestFresh))
    case Headers(generation, answer) =>
      if generation != s.generation || answer.NotModified? then Finished(s, generation)
      else if answer.Bad? then Failed(s, generation)
      else s.(lastEtag := answer.etag, named := answer.body, pending := s.pending[generation := AwaitsBody(answer.body)])
    case Body(generation, parses) =>
      var body := s.pending[generation].body;
      if generation != s.generation || body == s.lastBody then Finished(s, generation)
      else if !parses || body == "" then Failed(s.(lastBody := body), generation)
      else Finished(s.(lastBody := body, paints := s.paints + [Applied(generation, body)]), generation)
    case Failure(generation) => Failed(s, generation)
  }

  // ----- the module's variables

  class Poller {
    var active: Option<Active>
    var generation: nat
    var lastBody: string
    var lastEtag: string
    var pending: map<nat, Request>
    var paints: seq<Paint>
    ghost var named: string

    constructor ()
      ensures Model() == INITIAL
    {
      active, generation, lastBody, lastEtag := None, 0, "", "";
      pending, paints, named := map[], [], "";
    }

    ghost function Model(): State
      reads this
    {
      State(active, generation, lastBody, lastEtag, pending, paints, named)
    }

    method Begin(hidden: bool, freshRead: bool, origin: Origin, slot: string, macro: string)
      modifies this
      ensures Model() == Step(old(Model()), Event.Begin(hidden, freshRead, origin, slot, macro))
    {
      if hidden && origin.Background? {
        return;
      }
      var selection := slot + ['\0'] + macro;
      var requestFresh := freshRead;
      var priority := if origin.Mutation? then 3 else if freshRead || origin.Interaction? then 2 else 1;
      if active.Some? && active.value.selection == selection {
        if origin.Background? {
          return;
        }
        if active.value.freshRead {
          if priority <= active.value.priority && !origin.Mutation? {
            return;
          }
          requestFresh := true;
        } else if freshRead {
          if active.value.priority > priority {
            priority := active.value.priority;
          }
        } else if active.value.priority > priority && !origin.Mutation? {
          return;
        }
      }
      generation := generation + 1;
      active := Some(Active(generation, selection, priority, requestFresh));
      var etag := "";
      if lastEtag != "" && !requestFresh {
        etag := lastEtag;
      }
      pending := pending[generation := AwaitsHeaders(etag)];
    }

    method Finish(own: nat)
      modifies this
      ensures Model() == Finished(old(Model()), own)
    {
      pending := pending - {own};
      if active.Some? && active.value.generation == own {
        active := None;
      }
    }

    method Fail(own: nat)
      modifies this
      ensures Model() == Failed(old(Model()), own)
    {
      if own == generation {
        lastBody := "";
        lastEtag := "";
        paints := paints + [Unreachable(own)];
      }
      Finish(own);
    }

    method OnHeaders(own: nat, answer: Answer)
      requires Enabled(Model(), Headers(own, answer))
      modifies this
      ensures Model() == Step(old(Model()), Headers(own, answer))
    {
      if own != generation || answer.NotModified? {
        Finish(own);
      } else if answer.Bad? {
        Fail(own);
      } else {
        lastEtag := answer.etag;
        named := answer.body;
        pending := pending[own := AwaitsBody(answer.body)];
      }
    }

    method OnBody(own: nat, parses: bool)
      requires Enabled(Model(), Body(own, parses))
      modifies this
      ensures Model() == Step(old(Model()), Body(own, parses))
    {
      var body := pending[own].body;
      if own != generation || body == lastBody {
        Finish(own);
        return;
      }
      lastBody := body;
      if !parses || body == "" {
        Fail(own);
        return;
      }
      paints := paints + [Applied(own, body)];
      Finish(own);
    }

    method OnFailure(own: nat)
      requires Enabled(Model(), Failure(own))
      modifies this
      ensures Model() == Step(old(Model()), Failure(own))
    {
      Fail(own);
    }
  }

  // ----- superseding

  /** Selections are told apart when their slots hold no NUL. */
  lemma SelectionIsInjective(slot: string, macro: string, otherSlot: string, otherMacro: string)
    requires Strings.Lacks(slot, '\0') && Strings.Lacks(otherSlot, '\0')
    requires Selection(slot, macro) == Selection(otherSlot, otherMacro)
    ensures slot == otherSlot && macro == otherMacro
  {
    Strings.FirstPartIsDetermined(slot, macro, otherSlot, otherMacro, '\0');
  }

  /** A mutation always issues a request, whatever is in flight. */
  lemma MutationIssues(s: State, hidden: bool, freshRead: bool, slot: string, macro: string)
    ensures var t := Step(s, Begin(hidden, freshRead, Mutation, slot, macro));
      t.generation == s.generation + 1 && t.generation in t.pending && t.active.Some? && t.active.value.priority >= 3
  {
  }

  /** Nothing to supersede, or another selection: a poll is issued at once,
      unless a timer asks for a hidden page. */
  lemma OtherSelectionIssues(s: State, hidden: bool, freshRead: bool, origin: Origin, slot: string, macro: string)
    requires !hidden || !origin.Background?
    requires s.active.None? || s.active.value.selection != slot + ['\0'] + macro
    ensures var t := Step(s, Begin(hidden, freshRead, origin, slot, macro));
      && t.generation == s.generation + 1
      && t.active == Some(Active(t.generation, slot + ['\0'] + macro,
                                 if origin == Mutation then 3 else if freshRead || origin == Interaction then 2 else 1, freshRead))
      && t.pending == s.pending[t.generation := AwaitsHeaders(if freshRead then "" else s.lastEtag)]
      && t == s.(generation := t.generation, active := t.active, pending := t.pending)
  {
  }

  /** When a poll is declined, and what a replacement of the same selection
      takes over. */
  lemma SameSelectionIssuesIff(s: State, hidden: bool, freshRead: bool, origin: Origin, slot: string, macro: string)
    requires s.active.Some? && s.active.value.selection == slot + ['\0'] + macro && s.active.value.priority <= 3
    ensures var t, a := Step(s, Begin(hidden, freshRead, origin, slot, macro)), s.active.value;
      if origin == Background
         || (origin == Interaction && a.freshRead && a.priority >= 2)
         || (origin == Interaction && !freshRead && a.priority == 3)
      then t == s
      else
        && t.generation == s.generation + 1
        && t.active == Some(Active(t.generation, a.selection,
                                   if origin == Mutation || (freshRead && !a.freshRead && a.priority == 3) then 3 else 2,
                                   freshRead || a.freshRead))
        && t.pending == s.pending[t.generation := AwaitsHeaders(if freshRead || a.freshRead then "" else s.lastEtag)]
        && t == s.(generation := t.generation, active := t.active, pending := t.pending)
  {
  }

  /** A timer never asks for a hidden page. */
  lemma HiddenTimerIsDeclined(s: State, freshRead: bool, slot: string, macro: string)
    ensures Step(s, Begin(true, freshRead, Background, slot, macro)) == s
  {
  }

  /** For an unchanged selection a replacement keeps the priority and the fresh
      promise of what it replaces; what it declines is covered already. */
  lemma ReplacementKeepsPromise(s: State, hidden: bool, freshRead: bool, origin: Origin, slot: string, macro: string)
    requires s.active.Some? && s.active.value.selection == Selection(slot, macro) && s.active.value.priority <= 3
    ensures var t, a := Step(s, Begin(hidden, freshRead, origin, slot, macro)), s.active.value;
      && t.active.Some?
      && t.active.value.priority >= a.priority && (a.freshRead ==> t.active.value.freshRead)
      && (freshRead && !origin.Background? ==> t.active.value.freshRead)
      && (!origin.Background? ==> t.active.value.priority >= Wanted(freshRead, origin))
      && t.active.value.selection == a.selection
  {
  }

  // ----- the invariant

  /** The generation of a paint. */
  function By(p: Paint): nat {
    p.generation
  }

  ghost predicate Increasing(paints: seq<Paint>) {
    forall i, j | 0 <= i < j < |paints| :: By(paints[i]) < By(paints[j])
  }

  /** What the page shows is `lastBody`, or nothing readable. */
  predicate ShowsLast(s: State) {
    if s.lastBody == "" then s.paints == [] || s.paints[|s.paints| - 1].Unreachable?
    else s.paints != [] && s.paints[|s.paints| - 1].Applied? && s.paints[|s.paints| - 1].body == s.lastBody
  }

  ghost predicate Inv(s: State) {
    && (forall g | g in s.pending :: 1 <= g <= s.generation)
    && (s.active.Some? <==> s.generation in s.pending)
    && (s.active.Some? ==> s.active.value.generation == s.generation && 1 <= s.active.value.priority <= 3)
    && Increasing(s.paints)
    && (forall i | 0 <= i < |s.paints| :: By(s.paints[i]) <= s.generation && By(s.paints[i]) !in s.pending)
    && ShowsLast(s)
  }

  lemma FinishedKeeps(s: State, generation: nat)
    requires Inv(s) && generation in s.pending
    ensures Inv(Finished(s, generation))
  {
  }

  /** A request paints once, when it is the newest, and is over. */
  lemma PaintedKeeps(s: State, p: Paint, lastBody: string, lastEtag: string)
    requires Inv(s) && s.generation in s.pending && By(p) == s.generation
    requires if p.Applied? then lastBody == p.body && p.body != "" else lastBody == ""
    ensures Inv(Finished(s.(lastBody := lastBody, lastEtag := lastEtag, paints := s.paints + [p]), s.generation))
  {
    var paints := s.paints + [p];
    assert forall i | 0 <= i < |s.paints| :: By(s.paints[i]) <= s.generation && By(s.paints[i]) !in s.pending;
    forall i, j | 0 <= i < j < |paints| ensures By(paints[i]) < By(paints[j]) {
      assert By(s.paints[i]) != s.generation;
    }
  }

  lemma FailedKeeps(s: State, generation: nat)
    requires Inv(s) && generation in s.pending
    ensures Inv(Failed(s, generation))
  {
    FinishedKeeps(s, generation);
    if generation == s.generation {
      PaintedKeeps(s, Unreachable(generation), "", "");
    }
  }

  lemma StepKeeps(s: State, e: Event)
    requires Inv(s) && Enabled(s, e)
    ensures Inv(Step(s, e))
  {
    match e
    case Begin(_, _, _, _, _) =>
    case Headers(generation, _) =>
      FinishedKeeps(s, generation);
      FailedKeeps(s, generation);
    case Body(generation, parses) =>
      var body := s.pending[generation].body;
      FinishedKeeps(s, generation);
      if generation == s.generation && body != s.lastBody {
        if !parses || body == "" {
          PaintedKeeps(s, Unreachable(generation), "", "");
        } else {
          PaintedKeeps(s, Applied(generation, body), body, s.lastEtag);
        }
      }
    case Failure(generation) => FailedKeeps(s, generation);
  }

  // ----- whole runs

  ghost predicate Reaches(s: State, events: seq<Event>, t: State)
    decreases |events|
  {
    if events == [] then s == t
    else Enabled(s, events[0]) && Reaches(Step(s, events[0]), events[1..], t)
  }

  lemma {:induction false} RunKeeps(s: State, events: seq<Event>, t: State)
    requires Inv(s) && Reaches(s, events, t)
    ensures Inv(t)
    decreases |events|
  {
    hide Inv, Enabled, Step;
    if events != [] {
      StepKeeps(s, events[0]);
      RunKeeps(Step(s, events[0]), events[1..], t);
    }
  }

  /** In every interleaving: paints carry strictly increasing generations, so
      an older request never repaints over a newer one; the request in charge
      is the newest and is in flight; and what the page shows is `lastBody`. */
  lemma RunsAreSafe(events: seq<Event>, t: State)
    requires Reaches(INITIAL, events, t)
    ensures Increasing(t.paints)
    ensures t.active.Some? <==> t.generation in t.pending
    ensures t.active.Some? ==> t.active.value.generation == t.generation
    ensures ShowsLast(t)
  {
    RunKeeps(INITIAL, events, t);
  }

  /** An event of an older request changes nothing but that request: it paints
      nothing, leaves the newer `activePoll` and both caches. */
  lemma OlderChangesNothing(s: State, e: Event)
    requires Inv(s) && Enabled(s, e) && !e.Begin? && e.generation != s.generation
    ensures Step(s, e) == s.(pending := s.pending - {e.generation})
  {
  }

  /** Skipping an unchanged body is sound: the page shows it already, or it is
      empty and the page shows nothing readable. */
  lemma SkipIsSound(s: State, generation: nat, parses: bool)
    requires Inv(s) && Enabled(s, Body(generation, parses)) && generation == s.generation && s.pending[generation].body == s.lastBody
    ensures Step(s, Body(generation, parses)).paints == s.paints
    ensures s.lastBody != "" ==> s.paints != [] && s.paints[|s.paints| - 1].Applied? && s.paints[|s.paints| - 1].body == s.pending[generation].body
  {
  }

  // ----- the validator

  /** `lastEtag` names the shown body, or one the newest request is reading. */
  predicate Coherent(s: State) {
    s.lastEtag != "" ==>
      s.named == s.lastBody
      || (s.generation in s.pending && s.pending[s.generation].AwaitsBody? && s.pending[s.generation].body == s.named)
  }

  /** The newest request has its headers, but not its body, and would paint. */
  predicate MidRead(s: State) {
    && s.generation in s.pending && s.pending[s.generation].AwaitsBody?
    && s.lastEtag != "" && s.pending[s.generation].body != s.lastBody
  }

  /** What a request that reads its body is about to name. */
  ghost predicate Reads(s: State) {
    s.generation in s.pending && s.pending[s.generation].AwaitsBody? ==> s.pending[s.generation].body == s.named
  }

  lemma ReadsKept(s: State, e: Event)
    requires Inv(s) && Reads(s) && Enabled(s, e)
    ensures Reads(Step(s, e))
  {
  }

  /** A poll that the skip rules let through. */
  predicate Issues(s: State, e: Event) {
    e.Begin? && Decide(s.active, e.hidden, e.freshRead, e.origin, Selection(e.slot, e.macro)).Some?
  }

  /** The one event that separates the validator from the page: a poll issued
      while the newest request is between its headers and its body. */
  lemma CoherenceBreaksIff(s: State, e: Event)
    requires Inv(s) && Reads(s) && Coherent(s) && Enabled(s, e)
    ensures !Coherent(Step(s, e)) <==> MidRead(s) && Issues(s, e)
  {
  }

  /** Every event is enabled when it comes. */
  ghost predicate Possible(s: State, events: seq<Event>)
    decreases |events|
  {
    events == [] || (Enabled(s, events[0]) && Possible(Step(s, events[0]), events[1..]))
  }

  ghost predicate CoherentThroughout(s: State, events: seq<Event>)
    requires Possible(s, events)
    decreases |events|
  {
    Coherent(s) && (events == [] || CoherentThroughout(Step(s, events[0]), events[1..]))
  }

  /** Somewhere in the run a poll is issued between headers and body. */
  ghost predicate SomeIssueMidRead(s: State, events: seq<Event>)
    requires Possible(s, events)
    decreases |events|
  {
    events != [] && ((MidRead(s) && Issues(s, events[0])) || SomeIssueMidRead(Step(s, events[0]), events[1..]))
  }

  lemma {:induction false} CoherentFromIff(s: State, events: seq<Event>)
    requires Inv(s) && Reads(s) && Coherent(s) && Possible(s, events)
    ensures CoherentThroughout(s, events) <==> !SomeIssueMidRead(s, events)
    decreases |events|
  {
    hide Inv, Enabled, Step, Coherent, MidRead, Reads, Issues;
    if events != [] {
      StepKeeps(s, events[0]);
      ReadsKept(s, events[0]);
      CoherenceBreaksIff(s, events[0]);
      if Coherent(Step(s, events[0])) {
        CoherentFromIff(Step(s, events[0]), events[1..]);
      }
    }
  }

  /** In every interleaving: the validator names the shown body, or one being
      read, all along exactly when no poll is issued between headers and body
      of the newest request. */
  lemma CoherentRunIff(events: seq<Event>)
    requires Possible(INITIAL, events)
    ensures CoherentThroughout(INITIAL, events) <==> !SomeIssueMidRead(INITIAL, events)
  {
    CoherentFromIff(INITIAL, events);
  }

  lemma Prepend(s: State, e: Event, events: seq<Event>, t: State)
    requires Enabled(s, e) && Reaches(Step(s, e), events, t)
    ensures Reaches(s, [e] + events, t)
  {
    hide Enabled, Step;
    assert ([e] + events)[1..] == events;
  }

  const ASK := Begin(false, false, Mutation, "", "")
  const OLD_SHOWN := State(None, 1, "old", "1", map[], [Applied(1, "old")], "old")
  const OUTRUN := State(None, 3, "old", "2", map[], [Applied(1, "old")], "new")

  lemma FirstPaint(events: seq<Event>, t: State) returns (all: seq<Event>)
    requires Reaches(OLD_SHOWN, events, t)
    ensures Reaches(INITIAL, all, t)
  {
    var s1 := Step(INITIAL, ASK);
    var s2 := Step(s1, Headers(1, Ok("1", "old")));
    assert Step(s2, Body(1, true)) == OLD_SHOWN;
    hide Reaches;
    Prepend(s2, Body(1, true), events, t);
    Prepend(s1, Headers(1, Ok("1", "old")), [Body(1, true)] + events, t);
    all := [ASK] + ([Headers(1, Ok("1", "old"))] + ([Body(1, true)] + events));
    Prepend(INITIAL, ASK, [Headers(1, Ok("1", "old"))] + ([Body(1, true)] + events), t);
  }

  lemma Outrun() returns (events: seq<Event>)
    ensures Reaches(OLD_SHOWN, events, OUTRUN)
  {
    var s4 := Step(OLD_SHOWN, ASK);
    var s5 := Step(s4, Headers(2, Ok("2", "new")));
    var s6 := Step(s5, ASK);
    var s7 := Step(s6, Body(2, true));
    assert Step(s7, Headers(3, NotModified)) == OUTRUN;
    assert Reaches(OUTRUN, [], OUTRUN);
    hide Reaches;
    Prepend(s7, Headers(3, NotModified), [], OUTRUN);
    var last := [Headers(3, NotModified)] + [];
    Prepend(s6, Body(2, true), last, OUTRUN);
    Prepend(s5, ASK, [Body(2, true)] + last, OUTRUN);
    Prepend(s4, Headers(2, Ok("2", "new")), [ASK] + ([Body(2, true)] + last), OUTRUN);
    events := [ASK] + ([Headers(2, Ok("2", "new"))] + ([ASK] + ([Body(2, true)] + last)));
    Prepend(OLD_SHOWN, ASK, [Headers(2, Ok("2", "new"))] + ([ASK] + ([Body(2, true)] + last)), OUTRUN);
  }

  /** With the validator of a body that never reached the page, an unmodified
      answer leaves the older body on show and nothing in flight. */
  lemma ValidatorCanOutrunPage()
    ensures OUTRUN.pending == map[] && OUTRUN.lastEtag == "2" && OUTRUN.named == "new" && OUTRUN.lastBody == "old"
    ensures !Coherent(OUTRUN) && exists events :: Reaches(INITIAL, events, OUTRUN)
  {
    hide Reaches;
    var events := Outrun();
    var all := FirstPaint(events, OUTRUN);
  }
}
