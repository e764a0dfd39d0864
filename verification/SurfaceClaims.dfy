/** Documents on which a sweep goes wrong: a claim judged under a name that the
    last cleaning changes, and a switch of which one view is linked. */
module SurfaceClaims {
  import opened Options
  import opened SurfaceText
  import opened Surface
  import opened SurfaceEdits
  import opened SurfaceFrames
  import opened SurfaceStable
  import opened SurfaceSurvivors
  import opened SurfaceInvariant
  import opened SurfaceBuilt
  import opened SurfaceSettling
  import opened SurfaceSweep

  function Press(device: string, encoder: Option<Encoder>): Channel {
    Channel("press", "Press", Keyboard("K", device), encoder, false)
  }

  function View(id: string, c: Channel): Control {
    Control(id, "P", Confirmed, Button30, "B", None, ByHand, Frame(0.0, 0.0, 74000.0, 74000.0), [c])
  }

  lemma PartsAreSettled()
    ensures Settled("press", 32) && Settled("Press", 40) && Settled("K", 96) && Settled("P", 128) && Settled("B", 64)
    ensures Settled("x", 128) && Settled("y", 128) && Settled("D", 240) && Settled("", 64) && Settled("", 160) && Settled("", 40)
    ensures Settled("", 96) && Settled("T", 32)
  {
    hide Settled;
    WordIsSettled("press", 32);
    WordIsSettled("Press", 40);
    WordIsSettled("K", 96);
    WordIsSettled("P", 128);
    WordIsSettled("B", 64);
    WordIsSettled("x", 128);
    WordIsSettled("y", 128);
    WordIsSettled("D", 240);
    WordIsSettled("T", 32);
    WordIsSettled("", 64);
    WordIsSettled("", 160);
    WordIsSettled("", 40);
    WordIsSettled("", 96);
  }

  lemma ViewIsNamed(id: string, c: Channel)
    requires id == "x" || id == "y"
    ensures Named(View(id, c))
  {
    PartsAreSettled();
    hide Settled;
  }

  lemma PlaceIsSettled()
    ensures SettledFrame(Frame(0.0, 0.0, 74000.0, 74000.0))
  {
  }

  lemma ViewIsKept(id: string, c: Channel)
    requires (id == "x" || id == "y") && KeptChannel(c)
    ensures Kept(View(id, c))
  {
    PartsAreSettled();
    PlaceIsSettled();
    hide Settled, SettledFrame, KeptChannel;
    ViewIsNamed(id, c);
  }

  // ----- a name that cleaning changes

  /** A device name that cleaning cuts behind a space; cut, it ends in one. */
  function WholeName(): string {
    Spaced(240)
  }

  function CutName(): string {
    Letters(239) + " "
  }

  /** A roster that knows the settled name as a panel encoder, and no other. */
  function OnlySettled(): Roster {
    (device: string) => if device == Letters(239) then PanelEncoder else UnknownDevice
  }

  lemma KindsDiffer()
    ensures OnlySettled()(CutName()).UnknownDevice? && OnlySettled()(Letters(239)).PanelEncoder?
    ensures CleanString(WholeName(), 240) == CutName() && CleanString(CutName(), 240) == Letters(239)
  {
    hide CleanString, Letters;
    CleanIsNotIdempotent(240);
    assert |CutName()| == 240;
  }

  /** A button that claims a key of the device, by its whole name. */
  function Claiming(d: Document): Document {
    d.(controls := [View("x", Press(WholeName(), None))])
  }

  lemma PressIsCleaned()
    ensures CleanChannel(Press(WholeName(), None)) == Some(Press(CutName(), None))
    ensures NamedChannel(Press(CutName(), None)) && NamedChannel(Press(WholeName(), None))
  {
    PartsAreSettled();
    KindsDiffer();
    hide CleanString, Settled, WholeName, CutName, Letters;
    SettledMeans("press", 32);
    SettledMeans("Press", 40);
    SettledMeans("K", 96);
  }

  lemma ClaimingIsSanitized(d: Document)
    ensures |Sanitize(Claiming(d)).controls| == 1
    ensures var c := Sanitize(Claiming(d)).controls[0]; Named(c) && c.channels == [Press(CutName(), None)]
  {
    var raw := View("x", Press(WholeName(), None));
    hide Sanitize, KeepControls, Reconciled, CleanString, CleanChannel, WholeName, CutName, Named, NamedChannel, CleanControl, CleanChannels;
    ViewIsNamed("x", Press(WholeName(), None));
    NamedAreCleaned([raw]);
    SanitizedControls(Claiming(d));
    PressIsCleaned();
    NamedChannelsAreCleaned(raw.channels, raw.kind);
    assert CleanedChannels(raw.channels) == [Press(CutName(), None)];
    NamedIsCleaned(raw, 0);
    CleanControlChannels(raw, 0);
    ReconciledRest(AllCleaned([raw]), Cleaned(raw));
    NamedAgain(raw, Sanitize(Claiming(d)).controls[0]);
  }

  lemma ClaimIsAbandoned(d: Document)
    ensures !SurvivorsStayHonest(Sanitize(Claiming(d)).controls, OnlySettled())
  {
    hide Sanitize, CleanString, WholeName, CutName, Named, NamedChannel, SurvivorsFrom, SurvivingFrom, OnlySettled, Letters;
    ClaimingIsSanitized(d);
    PressIsCleaned();
    KindsDiffer();
    var safe := Sanitize(Claiming(d)).controls;
    NamedSurvive(safe);
    NamedChannelsSurvive(safe[0].channels);
    assert Press(CutName(), None) in safe[0].channels;
    assert !StaysHonest(Press(CutName(), None), OnlySettled()) by {
      CutIsSomething();
    }
    assert safe[0] in Survivors(safe);
  }

  lemma CutIsSomething()
    ensures CutName() != ""
  {
    hide Letters;
  }

  /** On this document the sweep leaves a channel dishonest, and a second sweep
      changes the controls again. */
  lemma SweepCanLeaveDishonest(d: Document)
    ensures !DocumentHonest(Retire(Claiming(d), OnlySettled()), OnlySettled())
    ensures Retire(Retire(Claiming(d), OnlySettled()), OnlySettled()).controls != Retire(Claiming(d), OnlySettled()).controls
  {
    hide Sanitize, Retire, Claiming, OnlySettled, DocumentHonest, SurvivorsStayHonest;
    ClaimIsAbandoned(d);
    SweepIsHonestIff(Claiming(d), OnlySettled());
    SweepTwiceIff(Claiming(d), OnlySettled());
  }

  // ----- a switch of which one view is linked

  const LINK := Encoder("", "", "T", "", "", Unverified)

  function AllPanels(): Roster {
    (device: string) => PanelEncoder
  }

  /** Two views of one switch that claim one key of a panel, one linked. */
  function Linked(d: Document): Document {
    d.(controls := [View("x", Press("D", Some(LINK))), View("y", Press("D", None))])
  }

  lemma PressIsKept(encoder: Option<Encoder>)
    requires encoder == None || encoder == Some(LINK)
    ensures KeptChannel(Press("D", encoder))
  {
    PartsAreSettled();
    hide CleanString, Settled;
    SettledMeans("press", 32);
    SettledMeans("Press", 40);
    SettledMeans("K", 96);
    SettledMeans("D", 240);
    SettledMeans("T", 32);
    SettledMeans("", 64);
    SettledMeans("", 160);
    SettledMeans("", 40);
    SettledMeans("", 96);
  }

  lemma LinkedIsStable(d: Document)
    ensures Sanitize(Linked(d)).controls == Linked(d).controls && Stable(Linked(d).controls)
  {
    hide Sanitize, Kept, KeptChannel, HasPeer;
    PressIsKept(Some(LINK));
    PressIsKept(None);
    ViewIsKept("x", Press("D", Some(LINK)));
    ViewIsKept("y", Press("D", None));
    StableSanitized(Linked(d));
    assert Reconcile(Linked(d).controls) == Linked(d).controls;
  }

  lemma LinkedTwice(d: Document)
    ensures Sanitize(Sanitize(Linked(d))).controls == Linked(d).controls
  {
    hide Sanitize, Stable, Linked;
    LinkedIsStable(d);
    StableIsFixed(Linked(d));
  }

  lemma LinkedAgrees(d: Document)
    ensures SwitchesHold(Linked(d)) && SwitchesHold(Sanitize(Sanitize(Linked(d))))
  {
    LinkedTwice(d);
    hide Sanitize;
  }

  lemma FatesDiffer(d: Document)
    ensures !SwitchesShareFate(Linked(d), AllPanels())
  {
    hide Sanitize, SurvivorsFrom, SurvivingFrom, Named, NamedChannel, CleanString;
    LinkedTwice(d);
    LinkedIsStable(d);
    var a, b := View("x", Press("D", Some(LINK))), View("y", Press("D", None));
    StableIsCleaned([a, b]);
    NamedSurvive([a, b]);
    PressIsKept(Some(LINK));
    PressIsKept(None);
    KeptChannelIsNamed(Press("D", Some(LINK)));
    KeptChannelIsNamed(Press("D", None));
    NamedChannelsSurvive(a.channels);
    NamedChannelsSurvive(b.channels);
    assert a.channels[0] in a.channels && b.channels[0] in b.channels;
    assert !SameFates(a, b, AllPanels()) by {
      assert SameFinalId(a.channels[0], b.channels[0]);
      assert FateOf(a.channels[0], AllPanels()) != FateOf(b.channels[0], AllPanels());
    }
    assert Survivors(Sanitize(Linked(d)).controls) == [a, b];
    var s := Sanitize(Sanitize(Linked(d))).controls;
    assert s[0] == a && s[1] == b;
    assert s[0].physicalId == s[1].physicalId;
  }

  /** On this document, whose views agree, the sweep leaves two views of one
      switch in disagreement. */
  lemma SweepCanSplitSwitch(d: Document)
    ensures SwitchesHold(Linked(d)) && !SwitchesHold(Retire(Linked(d), AllPanels()))
  {
    hide Sanitize, Retire, Linked, Stable, SwitchesShareFate, SwitchesHold;
    LinkedAgrees(d);
    FatesDiffer(d);
    SweepKeepsSwitchesIff(Linked(d), AllPanels());
  }
}
