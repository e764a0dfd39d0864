/** A mirror declared on a settled joystick can leave one switch with two
    claims. */
module SurfaceMirror {
  import opened Options
  import opened SurfaceText
  import opened Surface
  import opened SurfaceEdits
  import opened SurfaceFrames
  import opened SurfaceStable
  import opened SurfaceInvariant
  import opened SurfaceBuilt
  import opened SurfaceStarts
  import opened SurfaceRuns

  function Press(key: string, resolution: Resolution): Spec {
    Spec(Button30, "B", 0.0, 0.0, None, FromMapping, None, resolution, 74000.0, 74000.0, key, "")
  }

  function StickSpec(): Spec {
    Plainly(Joystick, "S", 0.0, 0.0, None)
  }

  function Claim(channels: seq<Channel>, k: nat, key: string): seq<Channel>
    requires k < |channels|
  {
    channels[k := WithChannelInput(channels[k], Keyboard(key, ""), false)]
  }

  function StickChannels(): seq<Channel> {
    Claim(Claim(ChannelsFor(Joystick), 0, "A"), 1, "B")
  }

  /** A stick whose directions claim A and B, a button already on its switch
      that claims A, and two open questions about B. */
  function Panel(): seq<Control> {
    [Final(StickSpec(), 1).(channels := StickChannels()),
     Final(Press("A", Confirmed), 2).(physicalId := PhysicalIdOf(GeneratedId(1))),
     Final(Press("B", Unresolved), 3), Final(Press("B", Unresolved), 4)]
  }

  lemma KeysAreSettled()
    ensures Settled("A", 96) && Settled("B", 96) && Settled("", 240)
  {
    hide Settled;
    WordIsSettled("A", 96);
    WordIsSettled("B", 96);
    WordIsSettled("", 240);
  }

  lemma KeysAreClean(key: string)
    requires key == "A" || key == "B"
    ensures CleanInput(Keyboard(key, "")) == Keyboard(key, "") && FinalInput(key, "") == Keyboard(key, "")
  {
    KeysAreSettled();
    SettledMeans(key, 96);
    SettledMeans("", 240);
    hide Settled, CleanString;
  }

  lemma ClaimIsKept(channels: seq<Channel>, k: nat, key: string)
    requires KeptChannels(channels) && Unlinked(channels) && k < |channels| && (key == "A" || key == "B")
    ensures KeptChannels(Claim(channels, k, key)) && Unlinked(Claim(channels, k, key))
  {
    hide KeptChannels, NamedChannels, CleanInput, CleanedChannels, CleanedChannel;
    KeysAreClean(key);
    ClaimInList(channels, k, Keyboard(key, ""));
  }

  lemma StickIsKept()
    ensures KeptChannels(StickChannels()) && Unlinked(StickChannels()) && |StickChannels()| == 4
    ensures forall i | 0 <= i < 4 :: StickChannels()[i].id != "press"
    ensures StickChannels()[1] == Channel("right", "Right", Keyboard("B", ""), None, false)
    ensures StickChannels()[0].id == "up"
  {
    hide KeptChannels;
    StandardChannelsAreKept(Joystick);
    StandardIsUnlinked(Joystick);
    ClaimIsKept(ChannelsFor(Joystick), 0, "A");
    ClaimIsKept(Claim(ChannelsFor(Joystick), 0, "A"), 1, "B");
  }

  function PressChannels(key: string): seq<Channel> {
    [Channel("press", "Press", Keyboard(key, ""), None, false)]
  }

  lemma PressSpecChannels(key: string, resolution: Resolution)
    requires key == "A" || key == "B"
    ensures FinalChannels(Press(key, resolution)) == PressChannels(key)
  {
    KeysAreClean(key);
    hide FinalInput;
  }

  lemma PressIs(key: string, resolution: Resolution, n: nat)
    requires (key == "A" || key == "B") && 1 <= n <= 4
    ensures var c := Final(Press(key, resolution), n);
      && Member(c, n + 1) && c.id == GeneratedId(n) && c.physicalId == PhysicalIdOf(GeneratedId(n)) && c.resolution == resolution
      && c.channels == PressChannels(key)
  {
    hide Final, GeneratedId, Member, Built, PhysicalIdOf, CleanSlot, FinalChannels, Named;
    PressSpecChannels(key, resolution);
    BuiltIsMember(Press(key, resolution), n);
  }

  lemma StickIs()
    ensures var c := Panel()[0];
      && Member(c, 5) && c.id == GeneratedId(1) && c.physicalId == PhysicalIdOf(GeneratedId(1)) && c.resolution.Confirmed?
      && c.channels == StickChannels()
  {
    hide Final, GeneratedId, Member, Built, PhysicalIdOf, CleanSlot, FinalChannels, KeptChannels, Unlinked, Named;
    BuiltIsMember(StickSpec(), 1);
    NumberedLater(Final(StickSpec(), 1), 2, 5);
    StickIsKept();
    FourChannels();
    OtherChannelsMember(Final(StickSpec(), 1), Panel()[0], 5);
  }

  lemma FourChannels()
    ensures |FinalChannels(StickSpec())| == 4
  {
  }

  lemma ButtonIs()
    ensures var c := Panel()[1];
      && Member(c, 5) && c.id == GeneratedId(2) && c.physicalId == PhysicalIdOf(GeneratedId(1)) && c.resolution.Confirmed?
      && c.channels == PressChannels("A")
  {
    hide Final, GeneratedId, Member, PhysicalIdOf, PressChannels, KeptChannels, Unlinked, Named, Settled, PhysicalNumbered, GeneratedNumber,
      CleanSlot, SettledFrame;
    PressIs("A", Confirmed, 2);
    var c := Final(Press("A", Confirmed), 2);
    NumberedLater(c, 3, 5);
    MemberParts(c, 5);
    GeneratedIsNumbered(1);
    PhysicalNumberedLater(PhysicalIdOf(GeneratedId(1)), 2, 5);
    NamedAgain(c, Panel()[1]);
    MemberFromParts(Panel()[1], 5);
  }

  /** The switch and the channels of each control of the panel. */
  ghost predicate PanelFact(c: Control, i: nat) {
    && Member(c, 5) && c.id == GeneratedId(1 + i)
    && c.physicalId == PhysicalIdOf(GeneratedId(if i < 2 then 1 else 1 + i))
    && c.resolution == (if i < 2 then Confirmed else Unresolved)
    && c.channels == if i == 0 then StickChannels() else PressChannels(if i == 1 then "A" else "B")
  }

  lemma PanelAt(i: nat)
    requires i < 4
    ensures |Panel()| == 4 && PanelFact(Panel()[i], i)
  {
    hide Final, GeneratedId, Member, PhysicalIdOf, StickChannels, PressChannels;
    if i == 0 {
      StickIs();
    } else if i == 1 {
      ButtonIs();
    } else {
      PressIs("B", Unresolved, 1 + i);
      NumberedLater(Panel()[i], 2 + i, 5);
    }
  }

  lemma SeparateChannels(a: seq<Channel>, b: seq<Channel>)
    requires forall i, j | 0 <= i < |a| && 0 <= j < |b| :: a[i].id != b[j].id
    ensures Agree(a, b) && Agree(b, a)
  {
  }

  lemma StickBesidePress(key: string)
    ensures Agree(StickChannels(), PressChannels(key)) && Agree(PressChannels(key), StickChannels())
  {
    hide StickChannels, KeptChannels, Agree, Unlinked;
    StickIsKept();
    SeparateChannels(StickChannels(), PressChannels(key));
  }

  lemma PanelPairs(i: nat, j: nat)
    requires i < 4 && j < 4
    ensures |Panel()| == 4 && PairHolds(Panel()[i], Panel()[j])
  {
    hide Panel, Member, GeneratedId, PhysicalIdOf, PairHolds, StickChannels, PressChannels, Agree;
    PanelAt(i);
    PanelAt(j);
    if i == j {
      MemberPairsWithItself(Panel()[i], 5);
    } else if i < 2 && j < 2 {
      StickBesidePress("A");
      PairFrom(Panel()[i], Panel()[j]);
    } else {
      IdsApart(if i < 2 then 1 else 1 + i, if j < 2 then 1 else 1 + j);
      ApartHolds(Panel()[i], Panel()[j]);
    }
  }

  lemma PairFrom(a: Control, b: Control)
    requires Agree(a.channels, b.channels) && a.resolution.Confirmed?
    ensures PairHolds(a, b)
  {
  }

  lemma PanelIsBody()
    ensures Body(Panel(), 5)
  {
    hide Panel, PanelFact, Member, PairHolds, GeneratedId;
    var p := Panel();
    PanelAt(0);
    forall i, j | 0 <= i < 4 && 0 <= j < 4 ensures PairHolds(p[i], p[j]) {
      PanelPairs(i, j);
    }
    forall i | 0 <= i < 4 ensures Member(p[i], 5) && p[i].id == GeneratedId(1 + i) {
      PanelAt(i);
      PanelFactMeans(p[i], i);
    }
    forall i, j | 0 <= i < j < 4 ensures p[i].id != p[j].id {
      IdsApart(1 + i, 1 + j);
    }
    MakeBody(p, 5);
  }

  lemma PanelFactMeans(c: Control, i: nat)
    requires PanelFact(c, i)
    ensures Member(c, 5) && c.id == GeneratedId(1 + i)
    ensures c.resolution == if i < 2 then Confirmed else Unresolved
    ensures i >= 2 ==> c.channels == PressChannels("B")
  {
    hide Member, GeneratedId, PhysicalIdOf, StickChannels, PressChannels;
  }

  lemma CarriesB(c: Control)
    requires c.channels == PressChannels("B")
    ensures KeyboardKeys(c) == {"B"} && Carries(c, "B")
  {
    assert c.channels[0].input.key == "B";
    assert "B" in KeyboardKeys(c);
  }

  /** Two open questions about one key are each other's peers. */
  lemma OpenPair(controls: seq<Control>, i: nat, j: nat)
    requires i < |controls| && j < |controls| && controls[i].id != controls[j].id
    requires controls[j].resolution.Unresolved? && KeyboardKeys(controls[i]) == {"B"} && KeyboardKeys(controls[j]) == {"B"}
    ensures HasPeer(controls, controls[i])
  {
    hide KeyboardKeys;
    assert "B" in KeyboardKeys(controls[j]) * KeyboardKeys(controls[i]);
  }

  lemma OpenQuestions()
    ensures |Panel()| == 4
    ensures forall i | 2 <= i < 4 :: KeyboardKeys(Panel()[i]) == {"B"} && Flagged(Panel()[i], "B") && Panel()[i].channels == PressChannels("B")
    ensures forall i | 0 <= i < 4 :: Panel()[i].resolution == if i < 2 then Confirmed else Unresolved
    ensures Panel()[2].id != Panel()[3].id
  {
    hide Panel, PanelFact, Member, GeneratedId, KeyboardKeys, Carries, PressChannels;
    PanelAt(0);
    forall i | 0 <= i < 4 ensures Panel()[i].id == GeneratedId(1 + i) && Panel()[i].resolution == (if i < 2 then Confirmed else Unresolved)
      && (i >= 2 ==> Panel()[i].channels == PressChannels("B"))
    {
      PanelAt(i);
      PanelFactMeans(Panel()[i], i);
    }
    IdsApart(3, 4);
    CarriesB(Panel()[2]);
    CarriesB(Panel()[3]);
  }

  lemma PanelIsReconciled()
    ensures Reconcile(Panel()) == Panel()
  {
    hide Panel, Flagged, HasPeer, KeyboardKeys, PressChannels;
    OpenQuestions();
    OpenPair(Panel(), 2, 3);
    OpenPair(Panel(), 3, 2);
    assert forall i | 0 <= i < 4 :: Reconciled(Panel(), Panel()[i]) == Panel()[i];
    assert Reconcile(Panel()) == Panel();
  }

  function Sheet(): Document {
    Document(true, Custom, SinglePanel, Route, Panel(), "", "", 5)
  }

  lemma SheetHolds()
    ensures Inv(Sheet())
  {
    hide Panel, Body, Reconcile;
    PanelIsBody();
    PanelIsReconciled();
    MembersAreNamed(Panel(), 5);
    NothingHasNoName(Panel());
  }

  lemma TwoFlagged(controls: seq<Control>, key: string)
    requires |controls| == 4 && Flagged(controls[2], key) && Flagged(controls[3], key)
    ensures CountFlagged(controls, key) >= 2
  {
    hide Flagged;
    var front := controls[..3];
    assert front[2] == controls[2];
    assert CountFlagged(front, key) >= 1;
  }

  lemma FindRight(channels: seq<Channel>)
    requires |channels| == 4 && channels[0].id == "up" && channels[1].id == "right"
    ensures FindChannel(channels, "right") == Some(channels[1])
  {
    assert channels[1..][0] == channels[1];
  }

  const RIGHT := Channel("right", "Right", Keyboard("B", ""), None, false)

  lemma SheetAsks()
    ensures FindControl(Panel(), GeneratedId(1)) == Some(Panel()[0]) && RIGHT in Panel()[0].channels
    ensures Panel()[0].resolution.Confirmed? && Panel()[0].physicalId == PhysicalIdOf(GeneratedId(1))
    ensures Question(Sheet(), GeneratedId(1), "right") == Some(RIGHT)
  {
    hide Panel, Member, GeneratedId, PhysicalIdOf, StickChannels, PressChannels, CountFlagged, KeyboardKeys, Body, Flagged;
    PanelAt(0);
    OpenQuestions();
    PanelIsBody();
    BodyIsDistinct(Panel(), 5);
    FindOnly(Panel(), 0);
    StickIsKept();
    FindRight(StickChannels());
    TwoFlagged(Panel(), "B");
    assert Panel()[0].channels[1] == RIGHT;
  }

  lemma PressConflicts(peer: Control, b: Control)
    requires peer.channels == PressChannels("B") && b.channels == PressChannels("A")
    ensures !Compatible(peer, b, RIGHT)
  {
    assert peer.channels[0].id == b.channels[0].id;
    assert b.channels[0].input.key != RIGHT.input.key;
  }

  lemma ButtonConflicts()
    ensures |Panel()| == 4 && Panel()[1].physicalId == PhysicalIdOf(GeneratedId(1))
    ensures !Compatible(Panel()[2], Panel()[1], RIGHT)
  {
    hide Panel, Member, GeneratedId, PhysicalIdOf, StickChannels, PressChannels, Compatible;
    PanelAt(1);
    PanelAt(2);
    PressConflicts(Panel()[2], Panel()[1]);
  }

  /** On this document, whose invariant holds, declaring a mirror on the
      stick's right direction returns a document in which two views of one
      switch disagree. */
  lemma MirrorOnStickCanDisagree()
    ensures Inv(Sheet()) && !SwitchesHold(Resolve(Sheet(), GeneratedId(1), "right", Mirror))
  {
    hide Panel, GeneratedId, PhysicalIdOf, Question, Body, Compatible, Inv, AllResolved, PairsHold, Flagged, PressChannels, KeyboardKeys,
      SwitchesHold, Resolve;
    SheetHolds();
    SheetAsks();
    OpenQuestions();
    ButtonConflicts();
    assert !MirrorAllowed(Sheet(), GeneratedId(1), "right", Mirror);
    MirrorKeepsSwitchesIff(Sheet(), GeneratedId(1), "right");
  }
}
