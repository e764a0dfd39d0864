/** How often a document must be sanitized before sanitizing changes nothing
    more: three times is always enough, and twice is not. */
module SurfaceSettling {
  import opened Options
  import opened Strings
  import opened SurfaceText
  import opened SurfaceKeys
  import opened Surface
  import opened SurfaceEdits
  import opened SurfaceFrames
  import opened SurfaceStable
  import opened SurfaceSurvivors
  import opened SurfaceInvariant
  import opened SurfaceBuilt

  // ----- text

  /** Cleaning leaves something of the text, and settles it. */
  predicate Nearly(s: string, max: nat) {
    CleanString(s, max) != "" && Settled(CleanString(s, max), max)
  }

  predicate NearlyOrEmpty(s: string, max: nat) {
    Settled(CleanString(s, max), max)
  }

  lemma CleanedIsNearly(s: string, max: nat)
    ensures NearlyOrEmpty(CleanString(s, max), max)
    ensures CleanString(s, max) != "" ==> Nearly(CleanString(s, max), max)
  {
    CleanTwiceSettles(s, max);
    hide CleanString, Settled;
  }

  lemma SettledIsNearly(s: string, max: nat)
    requires s != "" && Settled(s, max)
    ensures Nearly(s, max)
  {
    SettledMeans(s, max);
    hide CleanString, Settled;
  }

  /** Cleaned text that is shorter than another limit is nearly settled there. */
  lemma ShorterIsNearly(s: string, max: nat, more: nat)
    requires max <= more && CleanString(s, max) != ""
    ensures Nearly(CleanString(s, max), more)
  {
    var once := CleanString(s, max);
    CleanIsSmooth(s, max);
    NormalIsTidy(once);
    CleanTwiceSettles(s, max);
    hide Smooth;
    NormalOfSmooth(once);
  }

  /** A name cleaning kept is not cut down to a forbidden one. */
  lemma NotForbiddenLater(s: string, max: nat)
    requires max >= 32 && !Forbidden(CleanString(s, max))
    ensures !Forbidden(CleanString(CleanString(s, max), max))
  {
    CleanTwiceIs(s, max);
    hide Normal;
  }

  // ----- channels

  predicate NearlyInput(input: Input) {
    input.Keyboard? ==> Nearly(input.key, 96) && (input.device == "" || Nearly(input.device, 240))
  }

  predicate NearlyEncoder(encoder: Option<Encoder>) {
    encoder.Some? ==>
      && Nearly(encoder.value.terminalId, 32) && NearlyOrEmpty(encoder.value.driver, 64) && NearlyOrEmpty(encoder.value.board, 160)
      && NearlyOrEmpty(encoder.value.terminalCaption, 40) && NearlyOrEmpty(encoder.value.expectedKey, 96)
  }

  /** A channel the sanitizer has seen. */
  predicate SeenChannel(c: Channel) {
    && Nearly(c.id, 32) && !Forbidden(CleanString(c.id, 32)) && Nearly(c.caption, 40)
    && NearlyInput(c.input) && NearlyEncoder(c.encoder) && (c.deviceUnverified ==> c.input.Keyboard?)
  }

  lemma CleanedInput(input: Input)
    ensures NearlyInput(CleanInput(input))
    ensures NearlyInput(input) ==> CleanInput(CleanInput(input)) == CleanInput(input)
  {
    hide CleanString, Settled;
    if input.Keyboard? {
      CleanedIsNearly(input.key, 96);
      CleanedIsNearly(input.device, 240);
      SettledMeans(CleanString(input.key, 96), 96);
      SettledMeans(CleanString(input.device, 240), 240);
      EmptyStaysEmpty(240);
    }
  }

  lemma EmptyStaysEmpty(max: nat)
    ensures CleanString("", max) == ""
  {
  }

  lemma CleanedEncoder(encoder: Option<Encoder>)
    ensures NearlyEncoder(CleanEncoder(encoder))
    ensures NearlyEncoder(encoder) ==> CleanEncoder(CleanEncoder(encoder)) == CleanEncoder(encoder)
  {
    hide CleanString, Settled;
    if encoder.Some? {
      var e := encoder.value;
      CleanedIsNearly(e.terminalId, 32);
      CleanedIsNearly(e.driver, 64);
      CleanedIsNearly(e.board, 160);
      CleanedIsNearly(e.terminalCaption, 40);
      CleanedIsNearly(e.expectedKey, 96);
      SettledMeans(CleanString(e.terminalId, 32), 32);
      SettledMeans(CleanString(e.driver, 64), 64);
      SettledMeans(CleanString(e.board, 160), 160);
      SettledMeans(CleanString(e.terminalCaption, 40), 40);
      SettledMeans(CleanString(e.expectedKey, 96), 96);
    }
  }

  lemma CleanedIsSeen(x: Channel, c: Channel)
    requires CleanChannel(x) == Some(c)
    ensures SeenChannel(c)
  {
    hide CleanString, Settled, CleanInput, CleanEncoder, Nearly, NearlyInput, NearlyEncoder, Forbidden;
    CleanedIsNearly(x.id, 32);
    NotForbiddenLater(x.id, 32);
    CleanedIsNearly(x.caption, 40);
    ShorterIsNearly(x.id, 32, 40);
    CleanedInput(x.input);
    CleanedEncoder(x.encoder);
  }

  lemma SeenIsKept(c: Channel, r: Channel)
    requires SeenChannel(c) && CleanChannel(c) == Some(r)
    ensures KeptChannel(r)
  {
    hide CleanString, Settled, CleanInput, CleanEncoder, NearlyInput, NearlyEncoder, Forbidden;
    SettledMeans(CleanString(c.id, 32), 32);
    SettledMeans(CleanString(c.caption, 40), 40);
    CleanedInput(c.input);
    CleanedEncoder(c.encoder);
    KeepsKeyboard(c.input);
  }

  lemma KeepsKeyboard(input: Input)
    ensures NearlyInput(input) ==> (CleanInput(input).Keyboard? <==> input.Keyboard?)
  {
    hide CleanString, Settled;
  }

  // ----- lists of channels

  lemma {:induction false} KeptAreDistinct(raw: seq<Channel>, kept: seq<Channel>)
    requires |kept| <= MAX_CHANNELS && DistinctChannels(kept)
    ensures |KeepChannels(raw, kept)| <= MAX_CHANNELS && DistinctChannels(KeepChannels(raw, kept))
  {
    hide CleanChannel;
    if raw != [] && |kept| < MAX_CHANNELS {
      KeptAreDistinct(raw[1..], match CleanChannel(raw[0])
        case None => kept
        case Some(first) => if HasChannel(kept, first.id) then kept else kept + [first]);
    }
  }

  lemma StandardIsSeen(kind: Kind, c: Channel)
    requires c in ChannelsFor(kind)
    ensures SeenChannel(c)
  {
    StandardChannelsAreKept(kind);
    StandardIsCleaned(kind, c);
    hide SeenChannel, ChannelsFor, CleanChannel;
    CleanedIsSeen(c, c);
  }

  lemma StandardIsCleaned(kind: Kind, c: Channel)
    requires c in ChannelsFor(kind) && KeptChannels(ChannelsFor(kind))
    ensures CleanChannel(c) == Some(c)
  {
    hide ChannelsFor, CleanChannel;
  }

  lemma CleanedChannelsAreSeen(raw: seq<Channel>, kind: Kind, c: Channel)
    requires c in CleanChannels(raw, kind)
    ensures SeenChannel(c)
  {
    hide SeenChannel, CleanChannel, ChannelsFor;
    KeptAreSurvivors(raw, kind);
    var survivors := SurvivingChannels(raw);
    if survivors == [] {
      StandardIsSeen(kind, c);
    } else {
      var k :| 0 <= k < |survivors| && CleanedChannels(survivors)[k] == c;
      assert survivors[k] in survivors;
      CleanedIsSeen(survivors[k], c);
    }
  }

  /** Channels the sanitizer has seen are kept from the next cleaning on. */
  lemma SeenChannelsAreKept(raw: seq<Channel>, kind: Kind)
    requires forall k | 0 <= k < |raw| :: SeenChannel(raw[k])
    ensures KeptChannels(CleanChannels(raw, kind))
  {
    hide SeenChannel, CleanChannel, ChannelsFor, KeptChannel;
    var survivors := SurvivingChannels(raw);
    SurvivingAmong(raw, []);
    KeptAreSurvivors(raw, kind);
    forall x | x in survivors ensures KeptChannel(CleanedChannel(x)) {
      SeenIsKept(x, CleanedChannel(x));
    }
    KeptWhenSurvivorsAre(raw, kind);
  }

  /** The channels kept are kept for good exactly when each survivor is. */
  lemma KeptWhenSurvivorsAre(raw: seq<Channel>, kind: Kind)
    ensures KeptChannels(CleanChannels(raw, kind)) <==> forall x | x in SurvivingChannels(raw) :: KeptChannel(CleanedChannel(x))
  {
    hide CleanChannel, CleanedChannel, ChannelsFor, KeptChannel;
    var survivors := SurvivingChannels(raw);
    KeptAreSurvivors(raw, kind);
    if survivors == [] {
      StandardChannelsAreKept(kind);
    } else {
      KeptAreDistinct(raw, []);
      var r := CleanedChannels(survivors);
      assert r == CleanChannels(raw, kind) == KeepChannels(raw, []);
      assert forall k | 0 <= k < |survivors| :: survivors[k] in survivors;
      if forall x | x in survivors :: KeptChannel(CleanedChannel(x)) {
        assert forall k | 0 <= k < |r| :: KeptChannel(r[k]);
      }
      if KeptChannels(r) {
        forall x | x in survivors ensures KeptChannel(CleanedChannel(x)) {
          var k :| 0 <= k < |survivors| && survivors[k] == x;
          assert r[k] == CleanedChannel(x);
        }
      }
    }
  }

  // ----- controls

  ghost predicate AllSeen(channels: seq<Channel>) {
    forall k | 0 <= k < |channels| :: SeenChannel(channels[k])
  }

  /** A control the sanitizer has seen once. */
  ghost predicate SeenOnce(c: Control) {
    && Nearly(c.id, 128) && !Forbidden(CleanString(c.id, 128)) && CleanString(c.physicalId, 128) != "" && Nearly(c.caption, 64)
    && CleanSlot(c.playerSlot) == c.playerSlot && SettledFrame(CleanFrame(c.frame)) && AllSeen(c.channels)
  }

  /** ... and twice: all is settled but the identity of the switch. */
  ghost predicate SeenTwice(c: Control) {
    && Named(c) && Nearly(c.physicalId, 128) && c.caption != "" && Settled(c.caption, 64)
    && CleanSlot(c.playerSlot) == c.playerSlot && SettledFrame(c.frame) && KeptChannels(c.channels)
  }

  lemma CleanControlChannels(c: Control, index: nat)
    requires CleanControl(c, index).Some?
    ensures CleanControl(c, index).value.channels == CleanChannels(c.channels, c.kind) && CleanControl(c, index).value.kind == c.kind
  {
    hide CleanString, CleanFrame, CleanChannels, CleanSlot, Forbidden;
  }

  /** The identity of a control before and after cleaning. */
  lemma IdIsSeen(id: string, index: nat)
    requires index < MAX_CONTROLS && !Forbidden(OrElse(CleanString(id, 128), "c" + Print(index + 1)))
    ensures var r := OrElse(CleanString(id, 128), "c" + Print(index + 1)); Nearly(r, 128) && !Forbidden(CleanString(r, 128))
  {
    hide CleanString, Nearly, Settled, Print, Forbidden, GeneratedId;
    if CleanString(id, 128) == "" {
      NumberedId(index + 1);
    } else {
      CleanedIsNearly(id, 128);
      NotForbiddenLater(id, 128);
    }
  }

  lemma NumberedId(n: nat)
    requires n <= MAX_SAFE_INTEGER
    ensures GeneratedId(n) == "c" + Print(n) && Nearly(GeneratedId(n), 128) && !Forbidden(CleanString(GeneratedId(n), 128))
  {
    hide Nearly, Settled, Print, Forbidden, CleanString;
    GeneratedIdIsClean(n);
    SettledIsNearly(GeneratedId(n), 128);
    SettledMeans(GeneratedId(n), 128);
  }

  lemma PhysicalIsWord()
    ensures NoControls("physical:") && forall i | 0 <= i < 9 :: !IsSpace("physical:"[i])
  {
  }

  /** A switch named after its control never cleans to nothing. */
  lemma PhysicalIsSeen(physicalId: string, id: string)
    ensures CleanString(OrElse(CleanString(physicalId, 128), "physical:" + id), 128) != ""
  {
    hide CleanString, Settled;
    CleanTwiceSettles(physicalId, 128);
    NamedSwitchIsSeen(id);
  }

  lemma NamedSwitchIsSeen(id: string)
    ensures CleanString("physical:" + id, 128) != ""
  {
    hide Normal, NoControls, IsSpace, Lead;
    PhysicalIsWord();
    NormalOfPrefixed("physical:", id);
    assert |Normal("physical:" + id)| >= 9;
  }

  lemma CaptionIsSeen(caption: string, kind: Kind)
    ensures Nearly(OrElse(CleanString(caption, 64), DefaultLabel(kind)), 64)
  {
    hide CleanString, Nearly, Settled, DefaultLabel;
    CleanedIsNearly(caption, 64);
    DefaultLabelIsSettled(kind);
    SettledIsNearly(DefaultLabel(kind), 64);
  }

  lemma CleanControlIs(c: Control, index: nat)
    ensures var id := OrElse(CleanString(c.id, 128), "c" + Print(index + 1));
      CleanControl(c, index) == if Forbidden(id) then None else
        Some(Control(id, OrElse(CleanString(c.physicalId, 128), "physical:" + id), c.resolution, c.kind,
                     OrElse(CleanString(c.caption, 64), DefaultLabel(c.kind)), CleanSlot(c.playerSlot), c.origin,
                     CleanFrame(c.frame), CleanChannels(c.channels, c.kind)))
  {
    hide CleanString, CleanFrame, CleanChannels, CleanSlot, Forbidden, DefaultLabel, Print, OrElse;
  }

  lemma CleanedControlIsSeen(x: Control, index: nat, c: Control)
    requires index < MAX_CONTROLS && CleanControl(x, index) == Some(c)
    ensures SeenOnce(c)
  {
    CleanControlIs(x, index);
    hide CleanString, CleanFrame, CleanChannels, CleanControl, Forbidden, DefaultLabel, Print, OrElse, Nearly, SettledFrame, SeenChannel;
    IdIsSeen(x.id, index);
    PhysicalIsSeen(x.physicalId, c.id);
    CaptionIsSeen(x.caption, x.kind);
    FrameSettlesInTwo(x.frame);
    forall k | 0 <= k < |c.channels| ensures SeenChannel(c.channels[k]) {
      CleanedChannelsAreSeen(x.channels, x.kind, c.channels[k]);
    }
  }

  lemma CleanStaysSettled(s: string, max: nat)
    requires Settled(s, max)
    ensures CleanString(s, max) == s
  {
    SettledMeans(s, max);
  }

  lemma SeenOnceSettles(x: Control, index: nat, c: Control)
    requires SeenOnce(x) && CleanControl(x, index) == Some(c)
    ensures SeenTwice(c)
  {
    CleanControlIs(x, index);
    hide CleanString, CleanFrame, CleanChannels, CleanControl, Forbidden, DefaultLabel, Print, SettledFrame, SeenChannel, KeptChannels, Settled;
    CleanedIsNearly(x.physicalId, 128);
    SeenChannelsAreKept(x.channels, x.kind);
  }

  lemma SeenTwiceIsKept(x: Control, index: nat, c: Control)
    requires SeenTwice(x) && CleanControl(x, index) == Some(c)
    ensures Kept(c)
  {
    CleanControlIs(x, index);
    hide CleanString, CleanFrame, CleanChannels, CleanControl, Forbidden, DefaultLabel, Print, SettledFrame, KeptChannels, Settled, NamedChannels,
      CleanedChannels;
    CleanStaysSettled(x.id, 128);
    CleanStaysSettled(x.caption, 64);
    FrameKeptIff(x.frame);
    KeptChannelsAreNamed(x.channels);
    NamedChannelsAreCleaned(x.channels, x.kind);
  }

  // ----- documents

  lemma {:induction false} KeptIdsAreDistinct(raw: seq<Control>, kept: seq<Control>)
    requires DistinctIds(kept)
    ensures DistinctIds(KeepControls(raw, kept))
  {
    hide CleanControl;
    if raw != [] && |kept| < MAX_CONTROLS {
      KeptIdsAreDistinct(raw[1..], match CleanControl(raw[0], |kept|)
        case None => kept
        case Some(first) => if HasControl(kept, first.id) then kept else kept + [first]);
    }
  }

  ghost predicate AllSeenOnce(controls: seq<Control>) {
    forall i | 0 <= i < |controls| :: SeenOnce(controls[i])
  }

  ghost predicate AllSeenTwice(controls: seq<Control>) {
    forall i | 0 <= i < |controls| :: SeenTwice(controls[i])
  }

  lemma ReconciledIsSeen(all: seq<Control>, c: Control)
    ensures SeenOnce(c) ==> SeenOnce(Reconciled(all, c))
    ensures SeenTwice(c) ==> SeenTwice(Reconciled(all, c))
  {
    hide HasPeer, Nearly, Forbidden, CleanString, CleanFrame, SettledFrame, KeptChannels, CleanSlot, Settled, AllSeen;
  }

  lemma SanitizedAreSeenOnce(d: Document)
    ensures AllSeenOnce(Sanitize(d).controls)
  {
    hide Sanitize, KeepControls, SeenOnce, Reconciled, CleanControl;
    SanitizedControls(d);
    var kept, survivors := KeepControls(d.controls, []), Survivors(d.controls);
    SurvivorsAreKept(d.controls);
    forall i | 0 <= i < |kept| ensures SeenOnce(Reconciled(kept, kept[i])) {
      CleanedControlIsSeen(survivors[i], i, kept[i]);
      ReconciledIsSeen(kept, kept[i]);
    }
  }

  lemma SeenOnceAreSeenTwice(d: Document)
    requires AllSeenOnce(d.controls)
    ensures AllSeenTwice(Sanitize(d).controls)
  {
    hide Sanitize, KeepControls, SeenOnce, SeenTwice, Reconciled, CleanControl;
    SanitizedControls(d);
    var kept, survivors := KeepControls(d.controls, []), Survivors(d.controls);
    SurvivorsAreKept(d.controls);
    SurvivorsAmong(d.controls, []);
    forall i | 0 <= i < |kept| ensures SeenTwice(Reconciled(kept, kept[i])) {
      assert survivors[i] in survivors;
      SeenOnceSettles(survivors[i], i, kept[i]);
      ReconciledIsSeen(kept, kept[i]);
    }
  }

  lemma SeenTwiceAreStable(d: Document)
    requires AllSeenTwice(d.controls)
    ensures Stable(Sanitize(d).controls)
  {
    hide Sanitize, KeepControls, SeenTwice, Reconciled, CleanControl, Kept;
    SanitizedControls(d);
    var kept, survivors := KeepControls(d.controls, []), Survivors(d.controls);
    SurvivorsAreKept(d.controls);
    SurvivorsAmong(d.controls, []);
    KeptIdsAreDistinct(d.controls, []);
    forall i | 0 <= i < |kept| ensures Kept(kept[i]) && Kept(Reconciled(kept, kept[i])) && Reconciled(kept, kept[i]).id == kept[i].id {
      assert survivors[i] in survivors;
      SeenTwiceIsKept(survivors[i], i, kept[i]);
      ReconciledIsKept(kept, kept[i]);
    }
  }

  lemma {:induction false} HighestOfReconciled(all: seq<Control>, controls: seq<Control>, r: seq<Control>)
    requires |r| == |controls| && forall i | 0 <= i < |r| :: r[i] == Reconciled(all, controls[i])
    ensures Highest(r) == Highest(controls)
  {
    hide HasPeer, GeneratedNumber;
    if controls != [] {
      HighestOfReconciled(all, controls[..|controls| - 1], r[..|r| - 1]);
    }
  }

  lemma StableSelection(d: Document)
    requires Stable(Sanitize(d).controls)
    ensures var r := Sanitize(d); SelectionHolds(r.controls, r.selectedControl, r.selectedChannel)
    ensures var r := Sanitize(d); CleanString(r.selectedControl, 128) == r.selectedControl && CleanString(r.selectedChannel, 32) == r.selectedChannel
  {
    hide Sanitize, CleanString, KeepControls, Reconciled, Kept;
    SanitizedControls(d);
    var r, kept := Sanitize(d), KeepControls(d.controls, []);
    forall i | 0 <= i < |kept| ensures kept[i].id != "" && kept[i].channels != [] {
      ReconciledChannels(kept, kept[i]);
      assert Kept(r.controls[i]);
      KeptIsSomething(r.controls[i]);
    }
    SelectionAfter(kept, d, r);
    var found := FindControl(r.controls, r.selectedControl);
    if found.Some? {
      var i := FoundIsOne(r.controls, r.selectedControl);
      KeptIsNamed(r.controls[i]);
    } else {
      NothingIsSettled();
    }
  }

  lemma KeptIsSomething(c: Control)
    requires Kept(c)
    ensures c.id != "" && c.channels != []
  {
    hide Settled, SettledFrame, KeptChannel, Forbidden;
  }

  lemma NextAgain(d: Document, high: int)
    requires high == Highest(KeepControls(d.controls, [])) == Highest(KeepControls(Sanitize(d).controls, []))
    ensures Sanitize(Sanitize(d)).nextId == Sanitize(d).nextId
  {
    hide KeepControls, Highest, Reconcile, CleanString;
  }

  lemma OnlyThese(d: Document)
    ensures Sanitize(d) == d.(controls := Sanitize(d).controls, selectedControl := Sanitize(d).selectedControl,
                              selectedChannel := Sanitize(d).selectedChannel, nextId := Sanitize(d).nextId)
  {
    hide KeepControls, Highest, Reconcile, CleanString, HasChannel;
  }

  /** A document whose controls have settled is given back whole. */
  lemma StableIsFixed(d: Document)
    requires Stable(Sanitize(d).controls)
    ensures Sanitize(Sanitize(d)) == Sanitize(d)
  {
    hide Sanitize, KeepControls, Reconcile, Stable, CleanString, Highest, SelectionHolds, AllNamed, AllCleaned;
    var r, kept := Sanitize(d), KeepControls(d.controls, []);
    SanitizedControls(d);
    StableIsCleaned(r.controls);
    NamedAreCleaned(r.controls);
    ReconcileOnce(kept);
    SanitizedControls(r);
    HighestOfReconciled(kept, kept, r.controls);
    NextAgain(d, Highest(kept));
    StableSelection(d);
    SelectionKept(r);
    OnlyThese(r);
  }

  /** Whatever was stored, a document sanitized three times is given back as it
      is by every further pass. */
  lemma SanitizeSettlesInThree(d: Document)
    ensures var thrice := Sanitize(Sanitize(Sanitize(d))); Stable(thrice.controls) && Sanitize(thrice) == thrice
  {
    hide Sanitize, Stable, SeenOnce, SeenTwice;
    SanitizedAreSeenOnce(d);
    SeenOnceAreSeenTwice(Sanitize(d));
    SeenTwiceAreStable(Sanitize(Sanitize(d)));
    StableIsFixed(Sanitize(Sanitize(d)));
  }
}
