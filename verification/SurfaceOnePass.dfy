/** When one pass of the sanitizer settles a stored document, when two do, and
    a document that needs three. */
module SurfaceOnePass {
  import opened Options
  import opened Strings
  import opened SurfaceText
  import opened SurfaceFrames
  import opened Surface
  import opened SurfaceEdits
  import opened SurfaceStable
  import opened SurfaceSurvivors
  import opened SurfaceBuilt
  import opened SurfaceSettling

  // ----- channels

  predicate InputSettles(input: Input) {
    input.Keyboard? && CleanString(input.key, 96) != "" ==> TextSettles(input.key, 96) && TextSettles(input.device, 240)
  }

  predicate EncoderSettles(encoder: Option<Encoder>) {
    encoder.Some? && CleanString(encoder.value.terminalId, 32) != "" ==>
      var e := encoder.value;
      && TextSettles(e.driver, 64) && TextSettles(e.board, 160) && TextSettles(e.terminalId, 32)
      && TextSettles(e.terminalCaption, 40) && TextSettles(e.expectedKey, 96)
  }

  /** A stored channel none of whose texts is cut behind a space. */
  predicate ChannelSettles(c: Channel) {
    TextSettles(c.id, 32) && TextSettles(c.caption, 40) && InputSettles(c.input) && EncoderSettles(c.encoder)
  }

  lemma InputSettlesIff(input: Input)
    ensures CleanInput(CleanInput(input)) == CleanInput(input) <==> InputSettles(input)
  {
    hide CleanString, TextSettles, Settled;
    if input.Keyboard? {
      CleanTwiceSettles(input.key, 96);
      CleanIsIdempotentIff(input.key, 96);
      CleanIsIdempotentIff(input.device, 240);
    }
  }

  lemma EncoderSettlesIff(encoder: Option<Encoder>)
    ensures CleanEncoder(CleanEncoder(encoder)) == CleanEncoder(encoder) <==> EncoderSettles(encoder)
  {
    hide CleanString, TextSettles, Settled;
    if encoder.Some? {
      var e := encoder.value;
      CleanTwiceSettles(e.terminalId, 32);
      CleanIsIdempotentIff(e.driver, 64);
      CleanIsIdempotentIff(e.board, 160);
      CleanIsIdempotentIff(e.terminalId, 32);
      CleanIsIdempotentIff(e.terminalCaption, 40);
      CleanIsIdempotentIff(e.expectedKey, 96);
    }
  }

  /** Text that cleans to nothing is not cut. */
  lemma NothingSettles(s: string, max: nat)
    requires max > 0 && CleanString(s, max) == ""
    ensures TextSettles(s, max)
  {
    hide Normal;
  }

  /** Text with a settled fallback. */
  lemma FallbackSettlesIff(s: string, max: nat, fallback: string, later: string)
    requires max > 0 && fallback != "" && Settled(fallback, max)
    ensures var once := OrElse(CleanString(s, max), fallback);
      OrElse(CleanString(once, max), later) == once <==> TextSettles(s, max)
  {
    hide CleanString, TextSettles, Settled;
    CleanTwiceSettles(s, max);
    CleanIsIdempotentIff(s, max);
    SettledMeans(fallback, max);
    if CleanString(s, max) == "" {
      NothingSettles(s, max);
    }
  }

  lemma CleanChannelAgain(c: Channel)
    requires SeenChannel(c)
    ensures CleanChannel(c) == Some(Channel(CleanString(c.id, 32), OrElse(CleanString(c.caption, 40), CleanString(c.id, 32)),
                                            CleanInput(c.input), CleanEncoder(c.encoder), c.deviceUnverified))
  {
    hide CleanString, Settled, Forbidden, CleanEncoder, NearlyEncoder;
  }

  lemma CleanChannelIs(x: Channel, c: Channel)
    requires CleanChannel(x) == Some(c)
    ensures c.id == CleanString(x.id, 32) != "" && c.caption == OrElse(CleanString(x.caption, 40), c.id)
    ensures c.input == CleanInput(x.input) && c.encoder == CleanEncoder(x.encoder)
  {
    hide CleanString, CleanInput, CleanEncoder, Forbidden;
  }

  /** One cleaning settles a channel exactly when none of its texts is cut
      behind a space. */
  lemma ChannelSettlesIff(x: Channel, c: Channel)
    requires CleanChannel(x) == Some(c)
    ensures KeptChannel(c) <==> ChannelSettles(x)
  {
    hide CleanString, TextSettles, CleanInput, CleanEncoder, CleanChannel, InputSettles, EncoderSettles, SeenChannel, OrElse, Settled;
    CleanedIsSeen(x, c);
    CleanChannelIs(x, c);
    CleanChannelAgain(c);
    InputSettlesIff(x.input);
    EncoderSettlesIff(x.encoder);
    CleanIsIdempotentIff(x.id, 32);
    if TextSettles(x.id, 32) {
      SettledMeans(c.id, 32);
      LongerIsSettled(c.id, 32, 40);
      FallbackSettlesIff(x.caption, 40, c.id, c.id);
    }
  }

  lemma LongerIsSettled(s: string, max: nat, more: nat)
    requires Settled(s, max) && max <= more
    ensures Settled(s, more)
  {
    hide Tidy;
  }

  // ----- controls

  /** The identity a control is kept under at a position. */
  function IdentityOf(c: Control, position: nat): string {
    OrElse(CleanString(c.id, 128), "c" + Print(position + 1))
  }

  /** A stored switch is not cut behind a space; one named after its control is
      not cut at all. */
  predicate SwitchSettles(c: Control) {
    if CleanString(c.physicalId, 128) == "" then |CleanString(c.id, 128)| <= 119 else TextSettles(c.physicalId, 128)
  }

  predicate ControlSettles(c: Control) {
    && TextSettles(c.id, 128) && SwitchSettles(c) && TextSettles(c.caption, 64)
    && !RoundsOut(c.frame.x, c.frame.width, BOARD_WIDTH) && !RoundsOut(c.frame.y, c.frame.height, BOARD_HEIGHT)
    && forall x | x in SurvivingChannels(c.channels) :: ChannelSettles(x)
  }

  lemma NumberedIsSettled(n: nat)
    requires n <= MAX_CONTROLS
    ensures var id := "c" + Print(n); id != "" && Settled(id, 128) && |id| <= 119
  {
    hide Settled, Print, Forbidden;
    assert "c" + Print(n) == GeneratedId(n);
    GeneratedIdIsClean(n);
  }

  lemma IdentitySettlesIff(c: Control, position: nat)
    requires position < MAX_CONTROLS
    ensures var id := IdentityOf(c, position); id != "" && (Settled(id, 128) <==> TextSettles(c.id, 128))
    ensures |IdentityOf(c, position)| <= 119 <==> |CleanString(c.id, 128)| <= 119
  {
    hide CleanString, TextSettles, Settled, Print;
    NumberedIsSettled(position + 1);
    var once := CleanString(c.id, 128);
    SettledMeans(once, 128);
    CleanIsIdempotentIff(c.id, 128);
    if once == "" {
      NothingSettles(c.id, 128);
    }
  }

  lemma NamedSwitchIsSettled(id: string)
    requires Settled(id, 128)
    ensures Settled("physical:" + id, 128) <==> |id| <= 119
  {
    PrefixesAreTidy();
    hide Tidy;
    PrefixedIsTidy("physical:", id);
  }

  lemma SwitchSettlesIff(c: Control, id: string)
    requires Settled(id, 128) && (|id| <= 119 <==> |CleanString(c.id, 128)| <= 119)
    ensures var switch := OrElse(CleanString(c.physicalId, 128), "physical:" + id);
      switch != "" && (Settled(switch, 128) <==> SwitchSettles(c))
  {
    hide CleanString, TextSettles, Settled;
    NamedSwitchIsSettled(id);
    SettledMeans(CleanString(c.physicalId, 128), 128);
    CleanIsIdempotentIff(c.physicalId, 128);
  }

  lemma CaptionSettlesIff(caption: string, kind: Kind)
    ensures var once := OrElse(CleanString(caption, 64), DefaultLabel(kind)); once != "" && (Settled(once, 64) <==> TextSettles(caption, 64))
  {
    hide CleanString, TextSettles, Settled, DefaultLabel;
    DefaultLabelIsSettled(kind);
    var once := CleanString(caption, 64);
    SettledMeans(once, 64);
    CleanIsIdempotentIff(caption, 64);
    if once == "" {
      NothingSettles(caption, 64);
    }
  }

  lemma ChannelsSettleIff(raw: seq<Channel>, kind: Kind)
    ensures KeptChannels(CleanChannels(raw, kind)) <==> forall x | x in SurvivingChannels(raw) :: ChannelSettles(x)
  {
    hide CleanChannel, CleanedChannel, KeptChannel, KeptChannels, ChannelSettles, CleanChannels;
    KeptWhenSurvivorsAre(raw, kind);
    KeptAreSurvivors(raw, kind);
    forall x | x in SurvivingChannels(raw) ensures KeptChannel(CleanedChannel(x)) <==> ChannelSettles(x) {
      ChannelSettlesIff(x, CleanedChannel(x));
    }
  }

  /** One cleaning settles a control exactly when nothing of it is cut behind a
      space, its switch is not cut short, and rounding keeps its frame on the
      board. */
  lemma ControlSettlesIff(x: Control, position: nat, c: Control)
    requires position < MAX_CONTROLS && CleanControl(x, position) == Some(c)
    ensures Kept(c) <==> ControlSettles(x)
  {
    CleanControlIs(x, position);
    hide CleanString, TextSettles, CleanControl, CleanFrame, CleanChannels, KeptChannels, SettledFrame, RoundsOut, Settled, OrElse, SwitchSettles,
      ChannelSettles, Forbidden, DefaultLabel, Print, SurvivingChannels;
    IdentitySettlesIff(x, position);
    assert c.id == IdentityOf(x, position);
    if TextSettles(x.id, 128) {
      SwitchSettlesIff(x, c.id);
    }
    CaptionSettlesIff(x.caption, x.kind);
    FrameSettlesInOneIff(x.frame);
    FrameKeptIff(c.frame);
    ChannelsSettleIff(x.channels, x.kind);
    SlotOnce(x.playerSlot);
  }

  // ----- documents

  ghost predicate DocumentSettles(controls: seq<Control>) {
    forall c | c in Survivors(controls) :: ControlSettles(c)
  }

  lemma StableWhenSurvivorsSettle(d: Document)
    ensures Stable(Sanitize(d).controls) <==> DocumentSettles(d.controls)
  {
    hide Sanitize, KeepControls, Reconciled, CleanControl, Kept, ControlSettles;
    SanitizedControls(d);
    var kept, survivors := KeepControls(d.controls, []), Survivors(d.controls);
    SurvivorsAreKept(d.controls);
    KeptIdsAreDistinct(d.controls, []);
    forall i | 0 <= i < |kept|
      ensures Reconciled(kept, kept[i]).id == kept[i].id && (Kept(Reconciled(kept, kept[i])) <==> ControlSettles(survivors[i]))
    {
      ControlSettlesIff(survivors[i], i, kept[i]);
      KeptWhenReconciled(kept, kept[i]);
    }
    assert forall i | 0 <= i < |survivors| :: survivors[i] in survivors;
    if Stable(Sanitize(d).controls) {
      forall c | c in survivors ensures ControlSettles(c) {
        var i :| 0 <= i < |survivors| && survivors[i] == c;
        assert Kept(Sanitize(d).controls[i]);
      }
    }
  }

  lemma KeptWhenReconciled(all: seq<Control>, c: Control)
    ensures Kept(Reconciled(all, c)) <==> Kept(c)
    ensures Reconciled(all, c).id == c.id
  {
    hide HasPeer, KeptChannels, Settled, SettledFrame, CleanSlot, Forbidden;
  }

  /** A second pass changes nothing exactly when every stored control that is
      kept settles in one cleaning: no text of it is cut behind a space, a
      switch named after it is not cut, and rounding keeps its frame on the
      board. */
  lemma SanitizeAgainIff(d: Document)
    ensures Sanitize(Sanitize(d)) == Sanitize(d) <==> DocumentSettles(d.controls)
  {
    hide Sanitize, Stable, DocumentSettles;
    StableWhenSurvivorsSettle(d);
    SanitizeSettlesInThree(d);
    if Stable(Sanitize(d).controls) {
      StableIsFixed(d);
    }
  }

  // ----- two passes

  lemma SeenTextSettles(s: string, max: nat)
    requires Settled(CleanString(s, max), max)
    ensures TextSettles(s, max)
  {
    hide CleanString, TextSettles, Settled;
    SettledMeans(CleanString(s, max), max);
    CleanIsIdempotentIff(s, max);
  }

  lemma SeenChannelSettles(x: Channel)
    requires SeenChannel(x) && CleanChannel(x) == Some(CleanedChannel(x))
    ensures ChannelSettles(x)
  {
    hide CleanChannel, CleanedChannel, SeenChannel, ChannelSettles, KeptChannel;
    SeenIsKept(x, CleanedChannel(x));
    ChannelSettlesIff(x, CleanedChannel(x));
  }

  /** All that a second pass can change of a control is its switch. */
  lemma SeenControlSettlesIff(c: Control)
    requires SeenOnce(c)
    ensures ControlSettles(c) <==> TextSettles(c.physicalId, 128)
  {
    hide CleanString, TextSettles, Settled, CleanFrame, SettledFrame, RoundsOut, ChannelSettles, SeenChannel, SurvivingFrom, Forbidden, CleanSlot,
      CleanChannel, CleanedChannel;
    SeenTextSettles(c.id, 128);
    SeenTextSettles(c.caption, 64);
    FrameKeptIff(CleanFrame(c.frame));
    FrameSettlesInOneIff(c.frame);
    SurvivingAmong(c.channels, []);
    KeptAreSurvivors(c.channels, c.kind);
    forall x | x in SurvivingChannels(c.channels) ensures ChannelSettles(x) {
      SeenChannelSettles(x);
    }
  }

  /** An earlier control has the same identity after one more cleaning. */
  ghost predicate Repeats(controls: seq<Control>, i: nat)
    requires i < |controls|
  {
    exists j | 0 <= j < i :: CleanString(controls[j].id, 128) == CleanString(controls[i].id, 128)
  }

  lemma SeenIsUsable(c: Control, position: nat)
    requires SeenOnce(c)
    ensures CleanControl(c, position).Some? && CleanControl(c, position).value.id == CleanString(c.id, 128)
  {
    CleanControlIs(c, position);
    hide CleanString, CleanFrame, CleanChannels, CleanControl, Forbidden, DefaultLabel, Print, SettledFrame, SeenChannel, Settled;
  }

  lemma NextSurvivor(controls: seq<Control>, k: nat, kept: seq<Control>)
    requires k < |controls| && |kept| < MAX_CONTROLS && SeenOnce(controls[k])
    ensures var id, rest := CleanString(controls[k].id, 128), controls[k + 1..];
      SurvivorsFrom(controls[k..], kept) ==
        if HasControl(kept, id) then SurvivorsFrom(rest, kept)
        else [controls[k]] + SurvivorsFrom(rest, kept + [CleanControl(controls[k], |kept|).value])
    ensures CleanControl(controls[k], |kept|).Some? && CleanControl(controls[k], |kept|).value.id == CleanString(controls[k].id, 128)
  {
    hide CleanControl, CleanString, SeenOnce, HasControl;
    SeenIsUsable(controls[k], |kept|);
    assert controls[k..][0] == controls[k] && controls[k..][1..] == controls[k + 1..];
  }

  /** The identities of the controls before a position. */
  ghost predicate AreTaken(controls: seq<Control>, k: nat, kept: seq<Control>)
    requires k <= |controls|
  {
    forall id :: HasControl(kept, id) <==> exists j | 0 <= j < k :: CleanString(controls[j].id, 128) == id
  }

  lemma TakenLater(controls: seq<Control>, k: nat, kept: seq<Control>, c: Control)
    requires k < |controls| && AreTaken(controls, k, kept) && c.id == CleanString(controls[k].id, 128)
    ensures HasControl(kept, c.id) <==> Repeats(controls, k)
    ensures HasControl(kept, c.id) ==> AreTaken(controls, k + 1, kept)
    ensures AreTaken(controls, k + 1, kept + [c])
  {
    hide CleanString, HasControl;
    HasControlAppend(kept, c);
  }

  ghost predicate SwitchesSettle(controls: seq<Control>) {
    forall c | c in controls :: TextSettles(c.physicalId, 128)
  }

  /** From a position on, every first control of an identity has a settled switch. */
  ghost predicate FirstsSettle(controls: seq<Control>, k: nat) {
    forall i | k <= i < |controls| :: Repeats(controls, i) || TextSettles(controls[i].physicalId, 128)
  }

  lemma FirstsSettleStep(controls: seq<Control>, k: nat, rest: seq<Control>)
    requires k < |controls|
    ensures FirstsSettle(controls, k) <==> (Repeats(controls, k) || TextSettles(controls[k].physicalId, 128)) && FirstsSettle(controls, k + 1)
    ensures SwitchesSettle([controls[k]] + rest) <==> TextSettles(controls[k].physicalId, 128) && SwitchesSettle(rest)
  {
    hide TextSettles, Repeats;
  }

  lemma NoneSettle(controls: seq<Control>, kept: seq<Control>)
    ensures SwitchesSettle(SurvivorsFrom(controls[|controls|..], kept)) && FirstsSettle(controls, |controls|)
  {
    hide CleanControl, TextSettles;
  }

  /** Of controls the sanitizer has seen, the first of each identity survive. */
  lemma {:induction false} FirstsSurvive(controls: seq<Control>, k: nat, kept: seq<Control>)
    requires AllSeenOnce(controls) && |kept| <= k <= |controls| <= MAX_CONTROLS && AreTaken(controls, k, kept)
    ensures SwitchesSettle(SurvivorsFrom(controls[k..], kept)) <==> FirstsSettle(controls, k)
    decreases |controls| - k
  {
    hide CleanControl, CleanString, TextSettles, SeenOnce, HasControl, AreTaken, Repeats, SurvivorsFrom, SwitchesSettle, FirstsSettle;
    if k == |controls| {
      NoneSettle(controls, kept);
    } else {
      NextSurvivor(controls, k, kept);
      var c := CleanControl(controls[k], |kept|).value;
      TakenLater(controls, k, kept, c);
      if HasControl(kept, c.id) {
        FirstsSurvive(controls, k + 1, kept);
        FirstsSettleStep(controls, k, []);
      } else {
        FirstsSurvive(controls, k + 1, kept + [c]);
        FirstsSettleStep(controls, k, SurvivorsFrom(controls[k + 1..], kept + [c]));
      }
    }
  }

  /** Every switch of the surviving controls lasts: the control's identity is
      an earlier one's after one more cleaning, or the switch has a name, or
      the name it gets is not cut behind a space. */
  ghost predicate SwitchesLast(survivors: seq<Control>) {
    forall i | 0 <= i < |survivors| ::
      || (exists j | 0 <= j < i :: CleanString(IdentityOf(survivors[j], j), 128) == CleanString(IdentityOf(survivors[i], i), 128))
      || CleanString(survivors[i].physicalId, 128) != ""
      || TextSettles("physical:" + IdentityOf(survivors[i], i), 128)
  }

  lemma SafeControl(d: Document, i: nat)
    requires i < |Survivors(d.controls)|
    ensures |Sanitize(d).controls| == |Survivors(d.controls)|
    ensures var r, c := Sanitize(d).controls[i], Survivors(d.controls)[i];
      r.id == IdentityOf(c, i) && r.physicalId == OrElse(CleanString(c.physicalId, 128), "physical:" + IdentityOf(c, i))
  {
    var c := Survivors(d.controls)[i];
    CleanControlIs(c, i);
    hide Sanitize, KeepControls, CleanControl, CleanString, CleanFrame, CleanChannels, Forbidden, DefaultLabel, Print, OrElse, Survivors, Reconciled;
    SanitizedControls(d);
    SurvivorsAreKept(d.controls);
    var kept := KeepControls(d.controls, []);
    ReconciledSwitch(kept, kept[i]);
  }

  lemma ReconciledSwitch(all: seq<Control>, c: Control)
    ensures Reconciled(all, c).physicalId == c.physicalId && Reconciled(all, c).id == c.id
  {
    hide HasPeer;
  }

  lemma SwitchLasts(physicalId: string, named: string)
    ensures TextSettles(OrElse(CleanString(physicalId, 128), named), 128) <==> CleanString(physicalId, 128) != "" || TextSettles(named, 128)
  {
    hide CleanString, TextSettles, Settled;
    CleanTwiceSettles(physicalId, 128);
    SeenTextSettles(CleanString(physicalId, 128), 128);
  }

  /** Two passes settle a stored document exactly when every switch of its
      surviving controls lasts. */
  lemma TwoPassesSufficeIff(d: Document)
    ensures Sanitize(Sanitize(Sanitize(d))) == Sanitize(Sanitize(d)) <==> SwitchesLast(Survivors(d.controls))
  {
    hide Sanitize, SeenOnce, ControlSettles, TextSettles, CleanString, IdentityOf, OrElse, SurvivorsFrom;
    var safe, survivors := Sanitize(d).controls, Survivors(d.controls);
    SanitizeAgainIff(Sanitize(d));
    SanitizedAreSeenOnce(d);
    SurvivorsAmong(safe, []);
    forall c | c in Survivors(safe) ensures ControlSettles(c) <==> TextSettles(c.physicalId, 128) {
      SeenControlSettlesIff(c);
    }
    SurvivorsAreKept(d.controls);
    SanitizedControls(d);
    forall i | 0 <= i < |survivors|
      ensures safe[i].id == IdentityOf(survivors[i], i)
      ensures TextSettles(safe[i].physicalId, 128)
         <==> CleanString(survivors[i].physicalId, 128) != "" || TextSettles("physical:" + IdentityOf(survivors[i], i), 128)
    {
      SafeControl(d, i);
      SwitchLasts(survivors[i].physicalId, "physical:" + IdentityOf(survivors[i], i));
    }
    assert safe[0..] == safe;
    FirstsSurvive(safe, 0, []);
  }

  // ----- three passes

  /** A button with an identity of two words, on a switch of no name. */
  function Button(): Control {
    Control(Letters(118) + " " + Letters(9), "", Confirmed, Button30, "Button", None, ByHand, Frame(0.0, 0.0, 74000.0, 74000.0),
            ChannelsFor(Button30))
  }

  lemma ButtonIsNamed()
    ensures Named(Button()) && Settled(Button().id, 128) && IdentityOf(Button(), 0) == Button().id
  {
    SpacedIsTidy(Letters(118), Letters(9));
    hide Tidy, CleanString, Letters, Print, Word;
    assert |Button().id| == 128;
    SettledMeans(Button().id, 128);
  }

  lemma SwitchIsCut()
    ensures !TextSettles("physical:" + Button().id, 128)
  {
    ButtonIsNamed();
    PrefixesAreTidy();
    hide Smooth, Normal, Letters, Word, Print, CleanString, Named, IdentityOf;
    PrefixedIsTidy("physical:", Button().id);
    var s := "physical:" + (Letters(118) + " " + Letters(9));
    NormalOfSmooth(s);
    assert |s| == 137 && s[127] == ' ';
  }

  lemma NoSwitch()
    ensures CleanString(Button().physicalId, 128) == ""
  {
  }

  /** A document of this button needs a third pass: its switch, named after it,
      is cut behind a space and loses that space next. */
  lemma TwoPassesAreTooFew(d: Document)
    ensures var e := d.(controls := [Button()]); Sanitize(Sanitize(Sanitize(e))) != Sanitize(Sanitize(e))
  {
    hide Sanitize, CleanString, TextSettles, Named, Button, IdentityOf, Settled, Survivors;
    var e := d.(controls := [Button()]);
    ButtonIsNamed();
    NoSwitch();
    SwitchIsCut();
    NamedSurvive([Button()]);
    assert !SwitchesLast([Button()]) by {
      assert [Button()][0] == Button();
    }
    TwoPassesSufficeIff(e);
  }
}
