/** The documents templates and migrations start from satisfy the invariant. */
module SurfaceBuilt {
  import opened Options
  import opened SurfaceText
  import opened SurfaceKeys
  import opened Surface
  import opened SurfaceEdits
  import opened SurfaceStable
  import opened SurfaceFrames
  import opened SurfaceInvariant

  // ----- built channels

  lemma WordIsSettled(s: string, max: nat)
    requires |s| <= max && Word(s)
    ensures Settled(s, max)
  {
    WordIsTidy(s);
    hide Tidy, Word;
  }

  lemma LabelsAreSettled()
    ensures Settled("press", 32) && Settled("up", 32) && Settled("right", 32) && Settled("down", 32) && Settled("left", 32)
    ensures Settled("Press", 40) && Settled("Up", 40) && Settled("Right", 40) && Settled("Down", 40) && Settled("Left", 40)
  {
    hide Settled;
    WordIsSettled("press", 32);
    WordIsSettled("up", 32);
    WordIsSettled("right", 32);
    WordIsSettled("down", 32);
    WordIsSettled("left", 32);
    WordIsSettled("Press", 40);
    WordIsSettled("Up", 40);
    WordIsSettled("Right", 40);
    WordIsSettled("Down", 40);
    WordIsSettled("Left", 40);
  }

  lemma DefaultLabelIsSettled(kind: Kind)
    ensures Settled(DefaultLabel(kind), 64) && DefaultLabel(kind) != ""
  {
    hide Settled;
    WordIsSettled(DefaultLabel(kind), 64);
  }

  lemma FreshChannelIsNamed(id: string, caption: string)
    requires Settled(id, 32) && Settled(caption, 40) && id != "" && caption != "" && !Forbidden(id)
    ensures KeptChannel(FreshChannel(id, caption)) && NamedChannel(FreshChannel(id, caption))
  {
    hide CleanString, Settled;
    SettledMeans(id, 32);
    SettledMeans(caption, 40);
  }

  lemma StandardChannelsAreKept(kind: Kind)
    ensures KeptChannels(ChannelsFor(kind))
  {
    LabelsAreSettled();
    hide Settled, KeptChannel;
    FreshChannelIsNamed("press", "Press");
    FreshChannelIsNamed("up", "Up");
    FreshChannelIsNamed("right", "Right");
    FreshChannelIsNamed("down", "Down");
    FreshChannelIsNamed("left", "Left");
  }

  /** The input a built channel ends up with. */
  function FinalInput(key: string, device: string): Input {
    CleanInput(CleanInput(Keyboard(key, device)))
  }

  lemma FinalInputIsKept(key: string, device: string)
    ensures CleanInput(FinalInput(key, device)) == FinalInput(key, device)
  {
    hide CleanString, Settled;
    CleanTwiceSettles(key, 96);
    CleanTwiceSettles(device, 240);
    var k, v := CleanString(key, 96), CleanString(device, 240);
    SettledMeans(CleanString(k, 96), 96);
    SettledMeans(CleanString(v, 240), 240);
    NothingStaysNothing();
    if k == "" {
      assert FinalInput(key, device) == Unassigned;
    } else {
      assert FinalInput(key, device) == Keyboard(CleanString(k, 96), CleanString(v, 240));
    }
  }

  lemma NothingStaysNothing()
    ensures CleanString("", 96) == ""
  {
  }

  function FinalChannels(s: Spec): seq<Channel> {
    var channels := ChannelsFor(s.kind);
    if s.inputKey == "" then channels else channels[0 := channels[0].(input := FinalInput(s.inputKey, s.device))]
  }

  /** A kept channel with another unmarked input. */
  lemma ClaimIsCleaned(c: Channel, input: Input)
    requires KeptChannel(c) && c.encoder.None?
    ensures NamedChannel(WithChannelInput(c, input, false))
    ensures CleanedChannel(WithChannelInput(c, input, false)) == c.(input := CleanInput(input), deviceUnverified := false)
    ensures CleanInput(input) == input ==> KeptChannel(WithChannelInput(c, input, false))
  {
    hide CleanString, CleanInput, Settled;
    SettledMeans(c.id, 32);
  }

  /** Replacing the claim of one channel of a kept list. */
  lemma ClaimInList(channels: seq<Channel>, k: nat, input: Input)
    requires KeptChannels(channels) && Unlinked(channels) && k < |channels|
    ensures var changed := channels[k := WithChannelInput(channels[k], input, false)];
      && NamedChannels(changed)
      && CleanedChannels(changed) == channels[k := channels[k].(input := CleanInput(input), deviceUnverified := false)]
      && (CleanInput(input) == input ==> KeptChannels(changed))
  {
    hide KeptChannel, NamedChannel, CleanInput, CleanedChannel;
    var changed := channels[k := WithChannelInput(channels[k], input, false)];
    ClaimIsCleaned(channels[k], input);
    forall i | 0 <= i < |channels| ensures NamedChannel(channels[i]) && CleanedChannel(channels[i]) == channels[i] {
      KeptChannelIsNamed(channels[i]);
    }
    assert forall i | 0 <= i < |channels| :: changed[i].id == channels[i].id;
  }

  lemma StandardIsUnlinked(kind: Kind)
    ensures Unlinked(ChannelsFor(kind)) && forall i | 0 <= i < |ChannelsFor(kind)| :: !ChannelsFor(kind)[i].deviceUnverified
  {
  }

  lemma SpecChannelsOnce(s: Spec)
    ensures NamedChannels(SpecChannels(s))
    ensures CleanedChannels(SpecChannels(s))
         == if s.inputKey == "" then ChannelsFor(s.kind)
            else ChannelsFor(s.kind)[0 := ChannelsFor(s.kind)[0].(input := CleanInput(Keyboard(s.inputKey, s.device)))]
  {
    StandardChannelsAreKept(s.kind);
    StandardIsUnlinked(s.kind);
    StandardLengths(s.kind);
    hide ChannelsFor, KeptChannels, NamedChannels, CleanedChannels, CleanInput, Unlinked;
    if s.inputKey == "" {
      KeptChannelsAreNamed(ChannelsFor(s.kind));
    } else {
      assert s.inputKey != "" && |ChannelsFor(s.kind)| > 0;
      ClaimInList(ChannelsFor(s.kind), 0, Keyboard(s.inputKey, s.device));
    }
  }

  /** Cleaning a specification's channels twice. */
  lemma SpecChannelsTwice(s: Spec)
    ensures CleanChannels(CleanChannels(SpecChannels(s), s.kind), s.kind) == FinalChannels(s)
    ensures KeptChannels(FinalChannels(s)) && Unlinked(FinalChannels(s)) && (!s.kind.Joystick? ==> |FinalChannels(s)| == 1)
  {
    var base, input := ChannelsFor(s.kind), CleanInput(Keyboard(s.inputKey, s.device));
    SpecChannelsOnce(s);
    NamedChannelsAreCleaned(SpecChannels(s), s.kind);
    StandardChannelsAreKept(s.kind);
    StandardIsUnlinked(s.kind);
    FinalInputIsKept(s.inputKey, s.device);
    KeptChannelsAreNamed(base);
    if s.inputKey == "" {
      hide ChannelsFor, KeptChannels, NamedChannels, CleanedChannels, CleanInput, Unlinked, CleanChannels, SpecChannels;
      NamedChannelsAreCleaned(base, s.kind);
    } else {
      hide ChannelsFor, KeptChannels, NamedChannels, CleanedChannels, CleanInput, CleanChannels, SpecChannels, Unlinked;
      ClaimInList(base, 0, input);
      assert base[0 := WithChannelInput(base[0], input, false)] == base[0 := base[0].(input := input)];
      NamedChannelsAreCleaned(base[0 := base[0].(input := input)], s.kind);
      ClaimInList(base, 0, CleanInput(input));
      assert base[0 := WithChannelInput(base[0], CleanInput(input), false)] == FinalChannels(s);
      FinalIsUnlinked(s);
    }
    StandardLengths(s.kind);
  }

  lemma StandardLengths(kind: Kind)
    ensures |ChannelsFor(kind)| == if kind.Joystick? then 4 else 1
  {
  }

  lemma FinalIsUnlinked(s: Spec)
    ensures Unlinked(FinalChannels(s))
  {
    StandardIsUnlinked(s.kind);
  }

  // ----- built controls

  /** The specifications templates, additions and migrations use. */
  predicate GoodSpec(s: Spec) {
    && (s.physicalId.Some? ==> PREFIX <= s.physicalId.value)
    && (s.resolution.Unresolved? ==> s.physicalId.None? && !s.kind.Joystick?)
  }

  function SpecPhysicalId(s: Spec, n: nat): string {
    if s.physicalId.Some? then CleanString(CleanString(s.physicalId.value, 128), 128) else PhysicalIdOf(GeneratedId(n))
  }

  /** A built control once the sanitizer has seen it. */
  function Final(s: Spec, n: nat): Control {
    Cleaned(Built(s, n))
  }

  /** A caption cleaned twice, with its fallback. */
  function FinalCaption(s: string, fallback: string): string {
    OrElse(CleanString(OrElse(CleanString(s, 64), fallback), 64), fallback)
  }

  lemma CaptionSettles(s: string, fallback: string)
    requires Settled(fallback, 64) && fallback != ""
    ensures FinalCaption(s, fallback) != "" && Settled(FinalCaption(s, fallback), 64)
  {
    hide *;
    var once := CleanString(s, 64);
    var twice := CleanString(OrElse(once, fallback), 64);
    CleanTwiceSettles(s, 64);
    SettledMeans(fallback, 64);
    OrElseIs(once, fallback);
    OrElseIs(twice, fallback);
    FinalCaptionIs(s, fallback);
  }

  lemma OrElseIs(s: string, fallback: string)
    ensures OrElse(s, fallback) == if s == "" then fallback else s
  {
  }

  lemma FinalCaptionIs(s: string, fallback: string)
    ensures FinalCaption(s, fallback) == OrElse(CleanString(OrElse(CleanString(s, 64), fallback), 64), fallback)
  {
    hide CleanString, OrElse;
  }

  lemma CleanedShape(c: Control)
    requires Named(c)
    ensures Cleaned(c) == Control(c.id, OrElse(CleanString(c.physicalId, 128), "physical:" + c.id), c.resolution, c.kind,
                                  OrElse(CleanString(c.caption, 64), DefaultLabel(c.kind)),
                                  CleanSlot(c.playerSlot), c.origin, CleanFrame(c.frame), CleanChannels(c.channels, c.kind))
  {
    hide CleanString, CleanFrame, CleanChannels, CleanSlot, DefaultLabel, Forbidden, Settled;
    SettledMeans(c.id, 128);
  }

  lemma SpecIdsAreClean(s: Spec, n: nat)
    requires n <= MAX_SAFE_INTEGER && GoodSpec(s)
    ensures Named(RawControl(s, n))
    ensures var once := CleanString(RawControl(s, n).physicalId, 128); once != "" && CleanString(once, 128) == SpecPhysicalId(s, n)
    ensures SpecPhysicalId(s, n) != "" && Settled(SpecPhysicalId(s, n), 128)
  {
    assert |GeneratedId(n)| > 0;
    hide Settled, SpecChannels, Forbidden, CleanString, GeneratedId;
    GeneratedIdIsClean(n);
    var raw := RawControl(s, n).physicalId;
    CleanTwiceSettles(raw, 128);
    if s.physicalId.Some? {
      SwitchOfPrefixed(raw);
    } else {
      SettledMeans(raw, 128);
      assert |raw| > 0;
    }
  }

  /** A specification's switch, when it names one, starts with the prefix. */
  lemma SwitchOfPrefixed(physicalId: string)
    requires PREFIX <= physicalId
    ensures var twice := CleanString(CleanString(physicalId, 128), 128); PREFIX <= twice && twice != "" && !("physical:" <= twice)
  {
    hide Settled, CleanString;
    var key := physicalId[4..];
    assert physicalId == PREFIX + key;
    SwitchTellsKey(key);
    var twice := SwitchOf(key);
    assert twice[0] == 'k';
  }

  lemma BuiltShape(s: Spec, n: nat)
    requires n <= MAX_SAFE_INTEGER && GoodSpec(s)
    ensures Named(Built(s, n)) && Built(s, n).id == GeneratedId(n)
    ensures Final(s, n) == Control(GeneratedId(n), SpecPhysicalId(s, n), s.resolution, s.kind,
        FinalCaption(s.caption, DefaultLabel(s.kind)), CleanSlot(s.playerSlot), s.origin,
        CleanFrame(CleanFrame(Frame(s.x, s.y, s.width, s.height))), FinalChannels(s))
  {
    SpecIdsAreClean(s, n);
    SpecChannelsTwice(s);
    CleanedShape(RawControl(s, n));
    NamedAgain(RawControl(s, n), Built(s, n));
    CleanedShape(Built(s, n));
    hide Settled, GeneratedId, CleanString, CleanFrame, SettledFrame, CleanChannels, SpecChannels, FinalChannels, KeptChannels, Cleaned,
      SpecPhysicalId, Forbidden, DefaultLabel, Named, Unlinked, GoodSpec;
    SlotOnce(s.playerSlot);
  }

  lemma NamedAgain(c: Control, d: Control)
    requires Named(c) && d.id == c.id
    ensures Named(d)
  {
  }

  lemma SlotOnce(slot: Option<int>)
    ensures CleanSlot(CleanSlot(slot)) == CleanSlot(slot)
  {
  }

  lemma SpecIsNumbered(s: Spec, n: nat)
    requires n >= 1 && GoodSpec(s)
    ensures GeneratedNumber(GeneratedId(n)) == Some(n) && PhysicalNumbered(SpecPhysicalId(s, n), n + 1)
  {
    GeneratedNumberOf(n);
    hide GeneratedNumber, GeneratedId, Settled, CleanString;
    if s.physicalId.Some? {
      SwitchOfPrefixed(s.physicalId.value);
    }
  }

  lemma BuiltIsMember(s: Spec, n: nat)
    requires 1 <= n <= MAX_SAFE_INTEGER && GoodSpec(s)
    ensures Member(Final(s, n), n + 1)
    ensures Named(Built(s, n)) && Built(s, n).id == GeneratedId(n)
    ensures Final(s, n).id == GeneratedId(n) && Final(s, n).physicalId == SpecPhysicalId(s, n)
    ensures Final(s, n).resolution == s.resolution && Final(s, n).channels == FinalChannels(s)
    ensures Final(s, n).playerSlot == CleanSlot(s.playerSlot)
  {
    hide Settled, GeneratedId, CleanString, CleanFrame, SettledFrame, FinalChannels, KeptChannels, Built, GeneratedNumber, PhysicalNumbered,
      Unlinked, Final, FinalCaption, CleanSlot, OpenQuestion, Named, SpecPhysicalId, RawControl, DefaultLabel, GoodSpec;
    BuiltShape(s, n);
    SpecIdsAreClean(s, n);
    NamedAgain(Built(s, n), Final(s, n));
    SpecIsNumbered(s, n);
    SpecChannelsTwice(s);
    DefaultLabelIsSettled(s.kind);
    CaptionSettles(s.caption, DefaultLabel(s.kind));
    FrameSettlesInTwo(Frame(s.x, s.y, s.width, s.height));
    SlotOnce(s.playerSlot);
    OpenSpec(s, n);
  }

  lemma OpenSpec(s: Spec, n: nat)
    requires n <= MAX_SAFE_INTEGER && GoodSpec(s)
    ensures OpenQuestion(Final(s, n))
  {
    BuiltShape(s, n);
    SpecChannelsTwice(s);
    hide Settled, GeneratedId, CleanFrame, SettledFrame, FinalChannels, Built, Final, FinalCaption, CleanSlot, DefaultLabel, Unlinked, KeptChannels;
  }
}
