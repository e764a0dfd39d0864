/** The invariant of edited control-surface documents. */
module SurfaceInvariant {
  import opened Options
  import opened Strings
  import opened SurfaceText
  import opened Surface
  import opened SurfaceEdits
  import opened SurfaceFrames
  import opened SurfaceStable

  // ----- what mirrors agree on

  /** Two channels of one identity claim the same, with the same mark. */
  predicate SameClaim(a: Channel, b: Channel) {
    a.id == b.id ==> a.input == b.input && a.deviceUnverified == b.deviceUnverified
  }

  ghost predicate Agree(a: seq<Channel>, b: seq<Channel>) {
    forall i, j | 0 <= i < |a| && 0 <= j < |b| :: SameClaim(a[i], b[j])
  }

  /** Controls of one physical switch agree, and an unresolved control has its
      switch to itself. */
  ghost predicate PairHolds(a: Control, b: Control) {
    a.physicalId == b.physicalId ==> Agree(a.channels, b.channels) && (a.id != b.id ==> a.resolution.Confirmed?)
  }

  ghost predicate PairsHold(controls: seq<Control>) {
    forall i, j | 0 <= i < |controls| && 0 <= j < |controls| :: PairHolds(controls[i], controls[j])
  }

  // ----- identities

  predicate PhysicalNumbered(physicalId: string, next: int) {
    "physical:" <= physicalId ==>
      GeneratedNumber(physicalId[9..]).Some? && GeneratedNumber(physicalId[9..]).value < next
  }

  predicate Numbered(c: Control, next: int) {
    GeneratedNumber(c.id).Some? && GeneratedNumber(c.id).value < next && PhysicalNumbered(c.physicalId, next)
  }

  predicate Unlinked(channels: seq<Channel>) {
    forall i | 0 <= i < |channels| :: channels[i].encoder.None?
  }

  /** A shared signal is open only between one-channel controls on switches of
      their own. */
  predicate OpenQuestion(c: Control) {
    c.resolution.Unresolved? ==> c.physicalId == PhysicalIdOf(c.id) && |c.channels| == 1
  }

  ghost predicate Member(c: Control, next: int) {
    Kept(c) && Numbered(c, next) && Unlinked(c.channels) && OpenQuestion(c)
  }

  ghost predicate Body(controls: seq<Control>, next: int) {
    && |controls| <= MAX_CONTROLS && DistinctIds(controls) && PairsHold(controls)
    && forall i | 0 <= i < |controls| :: Member(controls[i], next)
  }

  /** What every document of a run satisfies. */
  ghost predicate Inv(d: Document) {
    && 1 <= d.nextId <= MAX_SAFE_INTEGER
    && Body(d.controls, d.nextId)
    && Reconcile(d.controls) == d.controls
    && SelectionHolds(d.controls, d.selectedControl, d.selectedChannel)
  }

  /** Views of one switch agree, and an open question has its switch to itself. */
  ghost predicate SwitchesHold(d: Document) {
    forall i, j | 0 <= i < |d.controls| && 0 <= j < |d.controls| && d.controls[i].physicalId == d.controls[j].physicalId ::
      && Agree(d.controls[i].channels, d.controls[j].channels)
      && (d.controls[i].resolution.Unresolved? ==> i == j)
  }

  lemma SwitchesOfBody(d: Document, next: int)
    requires Body(d.controls, next)
    ensures SwitchesHold(d)
  {
    hide Member, Agree;
    forall i, j | 0 <= i < |d.controls| && 0 <= j < |d.controls| && d.controls[i].physicalId == d.controls[j].physicalId
      ensures Agree(d.controls[i].channels, d.controls[j].channels)
      ensures d.controls[i].resolution.Unresolved? ==> i == j
    {
      assert PairHolds(d.controls[i], d.controls[j]);
      assert i < j ==> d.controls[i].id != d.controls[j].id;
      assert j < i ==> d.controls[j].id != d.controls[i].id;
    }
  }

  // ----- sanitizing

  lemma {:induction false} HighestIsBelow(controls: seq<Control>, next: int)
    requires next >= 1 && forall i | 0 <= i < |controls| :: Member(controls[i], next)
    ensures Highest(controls) < next
  {
    hide Kept, Unlinked, OpenQuestion, GeneratedNumber, PhysicalNumbered;
    if controls != [] {
      HighestIsBelow(controls[..|controls| - 1], next);
    }
  }

  lemma ReconciledIsMember(all: seq<Control>, c: Control, next: int)
    requires Member(c, next)
    ensures Member(Reconciled(all, c), next)
  {
    hide HasPeer, Settled, SettledFrame, KeptChannels, GeneratedNumber, PhysicalNumbered, Unlinked, Forbidden;
  }

  lemma ReconciledBody(controls: seq<Control>, next: int)
    requires Body(controls, next)
    ensures Body(Reconcile(controls), next)
  {
    hide HasPeer, Member, Agree;
    var r := Reconcile(controls);
    forall i | 0 <= i < |r| ensures Member(r[i], next) {
      ReconciledIsMember(controls, controls[i], next);
    }
    forall i, j | 0 <= i < |r| && 0 <= j < |r| ensures PairHolds(r[i], r[j]) {
      assert PairHolds(controls[i], controls[j]);
    }
  }

  lemma BodyIsStable(controls: seq<Control>, next: int)
    requires Body(controls, next)
    ensures Stable(controls) && AllNamed(controls) && AllCleaned(controls) == controls
  {
    hide Kept, Numbered, Unlinked, OpenQuestion, PairsHold, AllCleaned, AllNamed;
    assert forall i | 0 <= i < |controls| :: Member(controls[i], next);
    StableIsCleaned(controls);
  }

  lemma FirstChannelIsOne(c: Control)
    requires c.channels != []
    ensures HasChannel(c.channels, FirstChannelId(c))
  {
  }

  lemma NothingHasNoName(controls: seq<Control>)
    requires forall i | 0 <= i < |controls| :: controls[i].id != ""
    ensures FindControl(controls, "").None?
  {
  }

  lemma MembersAreNamed(controls: seq<Control>, next: int)
    requires Body(controls, next)
    ensures forall i | 0 <= i < |controls| :: controls[i].id != "" && controls[i].channels != []
  {
    hide Settled, SettledFrame, Numbered, Unlinked, OpenQuestion, PairsHold, Forbidden;
    forall i | 0 <= i < |controls| ensures controls[i].id != "" && controls[i].channels != [] {
      assert Member(controls[i], next);
    }
  }

  /** Sanitizing a document whose cleaned controls form a body. */
  lemma SanitizeBody(d: Document)
    requires 1 <= d.nextId <= MAX_SAFE_INTEGER && AllNamed(d.controls) && Body(AllCleaned(d.controls), d.nextId)
    ensures Inv(Sanitize(d))
    ensures Sanitize(d) == d.(controls := Reconcile(AllCleaned(d.controls)),
                              selectedControl := Sanitize(d).selectedControl, selectedChannel := Sanitize(d).selectedChannel)
  {
    hide HasPeer, Member, PairsHold, DistinctIds, CleanString, KeepControls, AllNamed, AllCleaned, Highest, HasChannel, Reconcile;
    var cs := AllCleaned(d.controls);
    NamedAreCleaned(d.controls);
    HighestIsBelow(cs, d.nextId);
    ReconciledBody(cs, d.nextId);
    ReconcileOnce(cs);
    var r := Sanitize(d);
    MembersAreNamed(cs, d.nextId);
    SelectionAfter(cs, d, r);
  }

  lemma SelectionAfter(cs: seq<Control>, d: Document, r: Document)
    requires forall i | 0 <= i < |cs| :: cs[i].id != "" && cs[i].channels != []
    requires KeepControls(d.controls, []) == cs && r == Sanitize(d)
    ensures SelectionHolds(r.controls, r.selectedControl, r.selectedChannel)
  {
    hide HasPeer, CleanString, KeepControls, Highest, HasChannel, Reconciled, FirstChannelId;
    var id := CleanString(d.selectedControl, 128);
    var found := FindControl(cs, id);
    if found.Some? {
      FirstChannelIsOne(found.value);
      FindInReconciled(cs, cs, r.controls, id);
      ReconciledChannels(cs, found.value);
    } else {
      FindInReconciled(cs, cs, r.controls, "");
      NothingHasNoName(cs);
    }
  }

  lemma ReconciledChannels(all: seq<Control>, c: Control)
    ensures Reconciled(all, c).channels == c.channels && Reconciled(all, c).id == c.id
  {
  }

  lemma KeptIsNamed(c: Control)
    requires Kept(c)
    ensures CleanString(c.id, 128) == c.id
    ensures forall ch | ch in c.channels :: CleanString(ch.id, 32) == ch.id
  {
    hide SettledFrame, CleanString, CleanChannel, CleanedChannels, Settled;
    KeptChannelsAreNamed(c.channels);
    SettledMeans(c.id, 128);
    forall ch | ch in c.channels ensures CleanString(ch.id, 32) == ch.id {
      SettledMeans(ch.id, 32);
    }
  }

  lemma NothingIsSettled()
    ensures CleanString("", 128) == "" && CleanString("", 32) == ""
  {
  }

  lemma SelectionIsClean(d: Document)
    requires Inv(d)
    ensures CleanString(d.selectedControl, 128) == d.selectedControl && CleanString(d.selectedChannel, 32) == d.selectedChannel
  {
    hide CleanString, PairsHold, Reconcile, Numbered, Unlinked, OpenQuestion, DistinctIds, Kept;
    var found := FindControl(d.controls, d.selectedControl);
    if found.Some? {
      var i := FoundIsOne(d.controls, d.selectedControl);
      assert Member(d.controls[i], d.nextId);
      KeptIsNamed(d.controls[i]);
    } else {
      NothingIsSettled();
    }
  }

  lemma SelectionKept(d: Document)
    requires KeepControls(d.controls, []) == d.controls
    requires CleanString(d.selectedControl, 128) == d.selectedControl && CleanString(d.selectedChannel, 32) == d.selectedChannel
    requires SelectionHolds(d.controls, d.selectedControl, d.selectedChannel)
    ensures Sanitize(d).selectedControl == d.selectedControl && Sanitize(d).selectedChannel == d.selectedChannel
  {
    hide CleanString, KeepControls, Highest, Reconcile, HasChannel, FirstChannelId, MaxInt, MinInt;
  }

  /** Saving and loading a document of a run gives it back. */
  lemma SanitizeKeeps(d: Document)
    requires Inv(d)
    ensures Sanitize(d) == d
  {
    hide Sanitize, SelectionHolds, CleanString, KeepControls, AllNamed, AllCleaned, Reconcile, Body;
    BodyIsStable(d.controls, d.nextId);
    SelectionIsClean(d);
    SanitizeBody(d);
    NamedAreCleaned(d.controls);
    SelectionKept(d);
  }

  // ----- fresh identities

  lemma GeneratedNumberOf(n: nat)
    requires n >= 1
    ensures GeneratedNumber(GeneratedId(n)) == Some(n)
    ensures PhysicalIdOf(GeneratedId(n))[9..] == GeneratedId(n) && "physical:" <= PhysicalIdOf(GeneratedId(n))
  {
    ParsePrint(n);
    var s, id := Print(n), GeneratedId(n);
    hide Print, Parse;
    assert id[1..] == s && id[1] == s[0];
    assert forall i | 1 <= i < |id| :: id[i] == s[i - 1];
  }

  /** The next number names no control and no switch yet. */
  lemma NextIsFresh(c: Control, next: int)
    requires next >= 1 && Numbered(c, next)
    ensures c.id != GeneratedId(next) && c.physicalId != PhysicalIdOf(GeneratedId(next))
  {
    GeneratedNumberOf(next);
    hide GeneratedNumber, GeneratedId;
  }

  lemma NumberedLater(c: Control, next: int, later: int)
    requires Member(c, next) && next <= later
    ensures Member(c, later)
  {
    hide Kept, GeneratedNumber, Unlinked, OpenQuestion;
  }

  /** Putting a confirmed control at the end of a body. */
  lemma BodyAppend(controls: seq<Control>, c: Control, next: int)
    requires next >= 1 && Body(controls, next) && |controls| < MAX_CONTROLS
    requires Member(c, next + 1) && c.id == GeneratedId(next) && c.resolution.Confirmed? && Agree(c.channels, c.channels)
    requires forall i | 0 <= i < |controls| :: PairHolds(controls[i], c) && PairHolds(c, controls[i])
    ensures Body(controls + [c], next + 1)
  {
    var more := controls + [c];
    hide Kept, PairHolds, GeneratedId, GeneratedNumber, Unlinked, OpenQuestion;
    forall i | 0 <= i < |controls| ensures controls[i].id != c.id && Member(controls[i], next + 1) {
      assert Member(controls[i], next);
      NextIsFresh(controls[i], next);
      NumberedLater(controls[i], next, next + 1);
    }
    forall i, j | 0 <= i < |more| && 0 <= j < |more| ensures PairHolds(more[i], more[j]) {
      if i == |controls| && j == |controls| {
        SelfPair(c);
      }
    }
    assert forall i | 0 <= i < |more| :: Member(more[i], next + 1);
  }

  lemma SelfPair(c: Control)
    requires Agree(c.channels, c.channels)
    ensures PairHolds(c, c)
  {
  }

  /** Distinct channel identities agree with themselves. */
  lemma KeptAgrees(c: Control)
    requires Kept(c)
    ensures Agree(c.channels, c.channels)
  {
    hide KeptChannel, SettledFrame, Settled;
    var s := c.channels;
    forall i, j | 0 <= i < |s| && 0 <= j < |s| ensures SameClaim(s[i], s[j]) {
      assert i < j ==> s[i].id != s[j].id;
      assert j < i ==> s[j].id != s[i].id;
    }
  }

  /** A confirmed control at the end answers and raises no question. */
  lemma ReconcileAppend(controls: seq<Control>, c: Control)
    requires Reconcile(controls) == controls && c.resolution.Confirmed?
    ensures Reconcile(controls + [c]) == controls + [c]
  {
    var more := controls + [c];
    hide KeyboardKeys;
    forall i | 0 <= i < |controls| ensures Reconciled(more, more[i]) == more[i] {
      assert Reconcile(controls)[i] == controls[i];
      if controls[i].resolution.Unresolved? {
        assert HasPeer(controls, controls[i]);
        var j :| 0 <= j < |controls| && IsPeer(controls[j], controls[i]);
        assert IsPeer(more[j], more[i]);
        assert HasPeer(more, more[i]);
      }
    }
    assert Reconcile(more) == more;
  }
}
