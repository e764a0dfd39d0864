/** The device-authority sweep (`retireControlSurfaceDeviceClaims`). */
module SurfaceSweep {
  import opened Options
  import opened SurfaceText
  import opened Surface
  import opened SurfaceEdits
  import opened SurfaceFrames
  import opened SurfaceStable
  import opened SurfaceSurvivors
  import opened SurfaceInvariant
  import opened SurfaceRuns
  import opened SurfaceSettling
  import opened SurfaceOnePass

  type Roster = string -> DeviceKind

  /** What the sweep leaves behind on one channel: the rule for each kind of device. */
  predicate Honest(c: Channel, kindOf: Roster) {
    c.input.Keyboard? && c.input.device != "" ==>
      match kindOf(c.input.device)
      case PanelEncoder => c.encoder.Some? && c.encoder.value.verification.Unverified? && !c.deviceUnverified
      case UnknownDevice => c.deviceUnverified
      case KeyboardDevice => !c.deviceUnverified
  }

  /** All but claims: identity, caption, and the terminal a link names. */
  predicate SameTerminal(a: Option<Encoder>, b: Option<Encoder>) {
    match a
    case None => b.None?
    case Some(e) => b.Some? && b.value == e.(verification := b.value.verification)
  }

  /** The sweep changes a channel's claim, its mark and its verification only,
      and never invents a claim. */
  predicate OnlyClaims(a: Channel, b: Channel) {
    && a.id == b.id && a.caption == b.caption && SameTerminal(a.encoder, b.encoder)
    && (b.input == a.input || b.input == Unassigned)
  }

  /** A claim is dropped exactly when it stands on a panel encoder and no
      terminal link keeps it. */
  lemma SweptChannel(c: Channel, kindOf: Roster)
    ensures Honest(Swept(c, kindOf), kindOf) && OnlyClaims(c, Swept(c, kindOf))
    ensures Swept(c, kindOf).input != c.input <==>
              c.input.Keyboard? && c.input.device != "" && kindOf(c.input.device).PanelEncoder? && c.encoder.None?
    ensures Honest(c, kindOf) <==> Swept(c, kindOf) == c
  {
  }

  lemma SweptIsKept(c: Channel, kindOf: Roster)
    requires KeptChannel(c)
    ensures KeptChannel(Swept(c, kindOf))
  {
    hide CleanString, Forbidden;
  }

  lemma SweptControlIsKept(c: Control, kindOf: Roster)
    requires Kept(c)
    ensures Kept(SweptControl(c, kindOf)) && SweptControl(c, kindOf).id == c.id
  {
    hide KeptChannel, Settled, SettledFrame, CleanSlot, Forbidden, Swept;
    forall i | 0 <= i < |c.channels| ensures KeptChannel(Swept(c.channels[i], kindOf)) && Swept(c.channels[i], kindOf).id == c.channels[i].id {
      SweptIsKept(c.channels[i], kindOf);
      SweptChannel(c.channels[i], kindOf);
    }
  }

  /** The controls after the sweep, before reconciling. */
  function AllSwept(controls: seq<Control>, kindOf: Roster): (r: seq<Control>)
    ensures |r| == |controls| && forall i | 0 <= i < |r| :: r[i] == SweptControl(controls[i], kindOf)
  {
    Each(controls, c => SweptControl(c, kindOf))
  }

  lemma SweptIsStable(controls: seq<Control>, kindOf: Roster)
    requires Stable(controls)
    ensures Stable(AllSwept(controls, kindOf))
  {
    hide Kept, SweptControl;
    forall i | 0 <= i < |controls| ensures Kept(SweptControl(controls[i], kindOf)) && SweptControl(controls[i], kindOf).id == controls[i].id {
      SweptControlIsKept(controls[i], kindOf);
    }
  }

  lemma RetireIs(d: Document, kindOf: Roster)
    requires Stable(Sanitize(d).controls)
    ensures Retire(d, kindOf).controls == Reconcile(AllSwept(Sanitize(d).controls, kindOf))
    ensures Stable(Retire(d, kindOf).controls)
  {
    hide Reconcile, Stable, Sanitize, SweptControl;
    var safe := Sanitize(d);
    SweptIsStable(safe.controls, kindOf);
    StableSanitized(safe.(controls := AllSwept(safe.controls, kindOf)));
  }

  /** Same identity, switch, kind, caption, owner, origin and place. */
  predicate SameButClaims(a: Control, b: Control) {
    && b == a.(resolution := b.resolution, channels := b.channels)
    && |a.channels| == |b.channels| && forall i | 0 <= i < |a.channels| :: OnlyClaims(a.channels[i], b.channels[i])
  }

  ghost predicate AllHonest(c: Control, kindOf: Roster) {
    forall i | 0 <= i < |c.channels| :: Honest(c.channels[i], kindOf)
  }

  // ----- what the sweep promises

  /** Sweeping the channel and cleaning its device name once more agree: the
      roster reads both names alike, or a claim on a panel was dropped or has
      a keyboard's name now, or an unverified link has a panel's. */
  predicate StaysHonest(c: Channel, kindOf: Roster) {
    c.input.Keyboard? && c.input.device != "" ==>
      var before, after := kindOf(c.input.device), kindOf(CleanString(c.input.device, 240));
      || before == after
      || (before.PanelEncoder? && (c.encoder.None? || after.KeyboardDevice?))
      || (before.KeyboardDevice? && after.PanelEncoder? && c.encoder.Some? && c.encoder.value.verification.Unverified?)
  }

  lemma CleanedStaysHonest(c: Channel, r: Channel, kindOf: Roster)
    requires SeenChannel(c) && CleanChannel(Swept(c, kindOf)) == Some(r) && StaysHonest(c, kindOf)
    ensures Honest(r, kindOf)
  {
    NoDevice();
    hide CleanString, Forbidden, Settled;
  }

  lemma NoDevice()
    ensures CleanString("", 240) == ""
  {
  }

  /** A channel the sanitizer has seen, swept, and cleaned again with its
      document is honest exactly when it stays honest. */
  lemma SweptAndCleanedIff(c: Channel, r: Channel, kindOf: Roster)
    requires SeenChannel(c) && CleanChannel(Swept(c, kindOf)) == Some(r)
    ensures Honest(r, kindOf) <==> StaysHonest(c, kindOf)
  {
    hide CleanString, Forbidden, SeenChannel, OrElse;
    if StaysHonest(c, kindOf) {
      CleanedStaysHonest(c, r, kindOf);
    } else {
      LinkStays(c);
      DishonestShows(c, r, kindOf);
    }
  }

  lemma LinkStays(c: Channel)
    requires SeenChannel(c)
    ensures CleanEncoder(c.encoder).Some? == c.encoder.Some?
    ensures c.input.Keyboard? && c.input.device != "" ==> CleanString(c.input.key, 96) != "" && CleanString(c.input.device, 240) != ""
  {
    hide CleanString, Forbidden, Settled;
  }

  lemma DishonestShows(c: Channel, r: Channel, kindOf: Roster)
    requires CleanChannel(Swept(c, kindOf)) == Some(r) && !StaysHonest(c, kindOf) && CleanEncoder(c.encoder).Some? == c.encoder.Some?
    requires CleanString(c.input.key, 96) != "" && CleanString(c.input.device, 240) != ""
    ensures !Honest(r, kindOf)
  {
    hide CleanString, Forbidden, OrElse;
  }

  // ----- sweeping drops nothing

  function AllSweptChannels(channels: seq<Channel>, kindOf: Roster): (r: seq<Channel>)
    ensures |r| == |channels| && forall i | 0 <= i < |r| :: r[i] == Swept(channels[i], kindOf)
  {
    EachChannel(channels, ch => Swept(ch, kindOf))
  }

  lemma SweptIs(c: Control, kindOf: Roster)
    ensures SweptControl(c, kindOf) == c.(channels := AllSweptChannels(c.channels, kindOf))
  {
    hide Swept;
  }

  lemma SweptIsUsable(c: Channel, kindOf: Roster)
    ensures CleanChannel(Swept(c, kindOf)).Some? <==> CleanChannel(c).Some?
    ensures CleanChannel(c).Some? ==> CleanChannel(Swept(c, kindOf)).value.id == CleanChannel(c).value.id
  {
    hide CleanString, CleanInput, CleanEncoder, Forbidden;
  }

  lemma {:induction false} SweptChannelsSurvive(raw: seq<Channel>, kindOf: Roster, kept: seq<Channel>, also: seq<Channel>)
    requires |kept| == |also| && forall i | 0 <= i < |kept| :: kept[i].id == also[i].id
    ensures SurvivingFrom(AllSweptChannels(raw, kindOf), also) == AllSweptChannels(SurvivingFrom(raw, kept), kindOf)
  {
    hide CleanChannel, Swept;
    if raw != [] && |kept| < MAX_CHANNELS {
      var swept := AllSweptChannels(raw, kindOf);
      SweptIsUsable(raw[0], kindOf);
      assert swept[1..] == AllSweptChannels(raw[1..], kindOf);
      if CleanChannel(raw[0]).None? {
        SweptChannelsSurvive(raw[1..], kindOf, kept, also);
      } else {
        var c, d := CleanChannel(raw[0]).value, CleanChannel(swept[0]).value;
        SameIds(kept, also, c.id);
        if HasChannel(kept, c.id) {
          SweptChannelsSurvive(raw[1..], kindOf, kept, also);
        } else {
          SweptChannelsSurvive(raw[1..], kindOf, kept + [c], also + [d]);
        }
      }
    }
  }

  lemma SameIds(a: seq<Channel>, b: seq<Channel>, id: string)
    requires |a| == |b| && forall i | 0 <= i < |a| :: a[i].id == b[i].id
    ensures HasChannel(a, id) <==> HasChannel(b, id)
  {
  }

  lemma SweptControlIsUsable(c: Control, position: nat, kindOf: Roster)
    ensures CleanControl(SweptControl(c, kindOf), position) ==
      match CleanControl(c, position)
      case None => None
      case Some(r) => Some(r.(channels := CleanChannels(AllSweptChannels(c.channels, kindOf), c.kind)))
  {
    SweptIs(c, kindOf);
    CleanControlIs(c, position);
    CleanControlIs(SweptControl(c, kindOf), position);
    hide CleanControl, CleanString, CleanFrame, CleanChannels, CleanSlot, Forbidden, DefaultLabel, OrElse, SweptControl;
  }

  lemma {:induction false} SweptControlsSurvive(raw: seq<Control>, kindOf: Roster, kept: seq<Control>, also: seq<Control>)
    requires |kept| == |also| && forall i | 0 <= i < |kept| :: kept[i].id == also[i].id
    ensures SurvivorsFrom(AllSwept(raw, kindOf), also) == AllSwept(SurvivorsFrom(raw, kept), kindOf)
  {
    hide CleanControl, SweptControl, CleanChannels;
    if raw != [] && |kept| < MAX_CONTROLS {
      var swept := AllSwept(raw, kindOf);
      SweptControlIsUsable(raw[0], |kept|, kindOf);
      assert swept[1..] == AllSwept(raw[1..], kindOf);
      if CleanControl(raw[0], |kept|).None? {
        SweptControlsSurvive(raw[1..], kindOf, kept, also);
      } else {
        var c, d := CleanControl(raw[0], |kept|).value, CleanControl(swept[0], |kept|).value;
        SameControlIds(kept, also, c.id);
        if HasControl(kept, c.id) {
          SweptControlsSurvive(raw[1..], kindOf, kept, also);
        } else {
          SweptControlsSurvive(raw[1..], kindOf, kept + [c], also + [d]);
        }
      }
    }
  }

  lemma SameControlIds(a: seq<Control>, b: seq<Control>, id: string)
    requires |a| == |b| && forall i | 0 <= i < |a| :: a[i].id == b[i].id
    ensures HasControl(a, id) <==> HasControl(b, id)
  {
  }

  /** The channels of a swept control once they are cleaned. */
  lemma RetiredChannels(raw: seq<Channel>, kind: Kind, kindOf: Roster)
    ensures var v, r := SurvivingChannels(raw), CleanChannels(AllSweptChannels(raw, kindOf), kind);
      if v == [] then r == ChannelsFor(kind) == CleanChannels(raw, kind)
      else
        && |r| == |v| == |CleanChannels(raw, kind)|
        && forall k | 0 <= k < |v| ::
             CleanChannel(Swept(v[k], kindOf)) == Some(r[k]) && CleanChannel(v[k]) == Some(CleanChannels(raw, kind)[k])
  {
    hide CleanChannel, CleanedChannel, Swept, ChannelsFor;
    var swept := AllSweptChannels(raw, kindOf);
    SweptChannelsSurvive(raw, kindOf, [], []);
    KeptAreSurvivors(raw, kind);
    KeptAreSurvivors(swept, kind);
    var v, w := SurvivingChannels(raw), SurvivingChannels(swept);
    forall k | 0 <= k < |v| ensures v[k] in v && w[k] in w && w[k] == Swept(v[k], kindOf) {
    }
  }

  /** Each control the sweep returns, beside what sanitizing twice returns. */
  lemma RetiredControl(d: Document, kindOf: Roster, i: nat)
    requires i < |Survivors(Sanitize(d).controls)|
    ensures |Retire(d, kindOf).controls| == |Survivors(Sanitize(d).controls)| == |Sanitize(Sanitize(d)).controls|
    ensures var c, r, s := Survivors(Sanitize(d).controls)[i], Retire(d, kindOf).controls[i], Sanitize(Sanitize(d)).controls[i];
      && r == s.(resolution := r.resolution, channels := CleanChannels(AllSweptChannels(c.channels, kindOf), c.kind))
      && s.channels == CleanChannels(c.channels, c.kind) && s.kind == c.kind
  {
    RetiredCount(d, kindOf);
    hide Sanitize, CleanControl, SweptControl, KeepControls, Reconciled, CleanChannels, SurvivorsFrom;
    var safe := Sanitize(d);
    var next := safe.(controls := AllSwept(safe.controls, kindOf));
    SweptControlsSurvive(safe.controls, kindOf, [], []);
    SurvivorsAreKept(safe.controls);
    SurvivorsAreKept(next.controls);
    SanitizedControls(safe);
    SanitizedControls(next);
    assert Retire(d, kindOf) == Sanitize(next);
    var c := Survivors(safe.controls)[i];
    assert Survivors(next.controls)[i] == SweptControl(c, kindOf);
    SweptControlIsUsable(c, i, kindOf);
    CleanControlChannels(c, i);
    var kept, also := KeepControls(safe.controls, []), KeepControls(next.controls, []);
    ReconciledRest(kept, kept[i]);
    ReconciledRest(also, also[i]);
  }

  lemma RetiredCount(d: Document, kindOf: Roster)
    ensures |Retire(d, kindOf).controls| == |Survivors(Sanitize(d).controls)| == |Sanitize(Sanitize(d)).controls|
  {
    hide Sanitize, SweptControl, KeepControls, Reconciled, SurvivorsFrom;
    var safe := Sanitize(d);
    var next := safe.(controls := AllSwept(safe.controls, kindOf));
    SweptControlsSurvive(safe.controls, kindOf, [], []);
    SurvivorsAreKept(safe.controls);
    SurvivorsAreKept(next.controls);
    SanitizedControls(safe);
    SanitizedControls(next);
    assert Retire(d, kindOf) == Sanitize(next);
  }

  lemma ReconciledRest(all: seq<Control>, c: Control)
    ensures Reconciled(all, c) == c.(resolution := Reconciled(all, c).resolution)
  {
    hide HasPeer;
  }

  // ----- what the sweep changes

  lemma CleanedClaims(c: Channel, a: Channel, b: Channel, kindOf: Roster)
    requires CleanChannel(c) == Some(a) && CleanChannel(Swept(c, kindOf)) == Some(b)
    ensures OnlyClaims(a, b)
  {
    hide CleanString, Forbidden, OrElse;
  }

  lemma SameClaims(c: Channel)
    ensures OnlyClaims(c, c)
  {
  }

  /** Whatever the document, the sweep touches claims, marks and verifications
      only: all else is as sanitizing twice leaves it. */
  lemma SweepTouchesClaims(d: Document, kindOf: Roster)
    ensures var r, s := Retire(d, kindOf).controls, Sanitize(Sanitize(d)).controls;
      |r| == |s| && forall i | 0 <= i < |r| :: SameButClaims(s[i], r[i])
  {
    hide Sanitize, Retire, CleanChannel, OnlyClaims, Swept, CleanChannels, Survivors, SurvivingChannels;
    RetiredCount(d, kindOf);
    var r, s := Retire(d, kindOf).controls, Sanitize(Sanitize(d)).controls;
    forall i | 0 <= i < |r| ensures SameButClaims(s[i], r[i]) {
      RetiredControl(d, kindOf, i);
      var c := Survivors(Sanitize(d).controls)[i];
      var v := SurvivingChannels(c.channels);
      RetiredChannels(c.channels, c.kind, kindOf);
      forall k | 0 <= k < |r[i].channels| ensures |r[i].channels| == |s[i].channels| && OnlyClaims(s[i].channels[k], r[i].channels[k]) {
        if v == [] {
          SameClaims(s[i].channels[k]);
        } else {
          CleanedClaims(v[k], s[i].channels[k], r[i].channels[k], kindOf);
        }
      }
    }
  }

  // ----- when the sweep leaves every channel honest

  lemma StandardClaimsNothing(kind: Kind, c: Channel)
    requires c in ChannelsFor(kind)
    ensures c.input.Unassigned?
  {
  }

  /** The surviving channels of a control stay honest. */
  ghost predicate StayHonest(c: Control, kindOf: Roster) {
    forall x | x in SurvivingChannels(c.channels) :: StaysHonest(x, kindOf)
  }

  ghost predicate SurvivorsStayHonest(controls: seq<Control>, kindOf: Roster) {
    forall c | c in Survivors(controls) :: StayHonest(c, kindOf)
  }

  lemma SurvivorIsSeen(d: Document, c: Control)
    requires c in Survivors(Sanitize(d).controls)
    ensures SeenOnce(c) && AllSeen(c.channels)
  {
    hide Sanitize, SeenChannel, Nearly, Settled, CleanString, Forbidden, CleanSlot, CleanFrame, SettledFrame, SurvivorsFrom;
    SanitizedAreSeenOnce(d);
    SurvivorsAmong(Sanitize(d).controls, []);
    assert c in Sanitize(d).controls;
  }

  lemma RetiredIsHonestIff(c: Control, kindOf: Roster, channels: seq<Channel>)
    requires AllSeen(c.channels) && channels == CleanChannels(AllSweptChannels(c.channels, kindOf), c.kind)
    ensures (forall k | 0 <= k < |channels| :: Honest(channels[k], kindOf)) <==> StayHonest(c, kindOf)
  {
    hide CleanChannel, SeenChannel, Swept, StaysHonest, ChannelsFor, CleanChannels, SurvivingFrom, Honest;
    var v := SurvivingChannels(c.channels);
    SurvivingAmong(c.channels, []);
    RetiredChannels(c.channels, c.kind, kindOf);
    if v == [] {
      forall k | 0 <= k < |channels| ensures Honest(channels[k], kindOf) {
        StandardClaimsNothing(c.kind, channels[k]);
        NoClaimIsHonest(channels[k], kindOf);
      }
    } else {
      forall k | 0 <= k < |v| ensures v[k] in v && (Honest(channels[k], kindOf) <==> StaysHonest(v[k], kindOf)) {
        assert v[k] in v;
        SweptAndCleanedIff(v[k], channels[k], kindOf);
      }
      if forall k | 0 <= k < |channels| :: Honest(channels[k], kindOf) {
        forall x | x in v ensures StaysHonest(x, kindOf) {
          var k :| 0 <= k < |v| && v[k] == x;
        }
      }
    }
  }

  lemma NoClaimIsHonest(c: Channel, kindOf: Roster)
    requires c.input.Unassigned?
    ensures Honest(c, kindOf)
  {
  }

  ghost predicate DocumentHonest(d: Document, kindOf: Roster) {
    forall i | 0 <= i < |d.controls| :: AllHonest(d.controls[i], kindOf)
  }

  /** The sweep leaves every channel honest about its device exactly when every
      channel that survives its last cleaning stays honest. */
  lemma SweepIsHonestIff(d: Document, kindOf: Roster)
    ensures DocumentHonest(Retire(d, kindOf), kindOf) <==> SurvivorsStayHonest(Sanitize(d).controls, kindOf)
  {
    hide Sanitize, Retire, CleanChannels, Honest, StayHonest, AllSeen, SeenOnce, Survivors;
    RetiredCount(d, kindOf);
    var r, survivors := Retire(d, kindOf).controls, Survivors(Sanitize(d).controls);
    forall i | 0 <= i < |r| ensures survivors[i] in survivors && (AllHonest(r[i], kindOf) <==> StayHonest(survivors[i], kindOf)) {
      var c := survivors[i];
      assert c in survivors;
      RetiredControl(d, kindOf, i);
      SurvivorIsSeen(d, c);
      RetiredIsHonestIff(c, kindOf, r[i].channels);
    }
    if DocumentHonest(Retire(d, kindOf), kindOf) {
      forall c | c in survivors ensures StayHonest(c, kindOf) {
        var i :| 0 <= i < |survivors| && survivors[i] == c;
        assert AllHonest(r[i], kindOf);
      }
    }
  }

  lemma SeenTwiceKeeps(c: Control, k: nat)
    requires SeenTwice(c) && k < |c.channels|
    ensures KeptChannel(c.channels[k])
  {
    hide KeptChannel, Nearly, Settled, SettledFrame, CleanSlot, Named;
  }

  lemma KeptStaysHonest(c: Channel, kindOf: Roster)
    requires KeptChannel(c)
    ensures StaysHonest(c, kindOf)
  {
    hide CleanString, Forbidden, CleanEncoder;
  }

  lemma SeenTwiceStaysHonest(c: Control, kindOf: Roster)
    requires SeenTwice(c)
    ensures StayHonest(c, kindOf)
  {
    hide SeenTwice, KeptChannel, StaysHonest, SurvivingFrom;
    SurvivingAmong(c.channels, []);
    forall x | x in SurvivingChannels(c.channels) ensures StaysHonest(x, kindOf) {
      var k :| 0 <= k < |c.channels| && c.channels[k] == x;
      SeenTwiceKeeps(c, k);
      KeptStaysHonest(x, kindOf);
    }
  }

  /** Of a document that the sanitizer has seen before, any roster reads the
      names alike, and the sweep leaves it honest. */
  lemma SeenIsSweptHonest(d: Document, kindOf: Roster)
    requires AllSeenOnce(d.controls)
    ensures DocumentHonest(Retire(d, kindOf), kindOf)
  {
    hide Sanitize, Retire, SeenOnce, SeenTwice, StayHonest, SurvivorsFrom, DocumentHonest;
    SeenOnceAreSeenTwice(d);
    SurvivorsAmong(Sanitize(d).controls, []);
    forall c | c in Survivors(Sanitize(d).controls) ensures StayHonest(c, kindOf) {
      assert c in Sanitize(d).controls;
      SeenTwiceStaysHonest(c, kindOf);
    }
    SweepIsHonestIff(d, kindOf);
  }

  lemma SweptIsSeen(c: Channel, kindOf: Roster)
    requires SeenChannel(c)
    ensures SeenChannel(Swept(c, kindOf))
  {
    hide Nearly, NearlyOrEmpty, Forbidden, CleanString;
  }

  lemma SweptControlIsSeen(c: Control, kindOf: Roster)
    requires SeenOnce(c)
    ensures SeenOnce(SweptControl(c, kindOf))
  {
    hide SeenChannel, Swept, Nearly, Forbidden, CleanString, CleanFrame, SettledFrame, CleanSlot;
    forall k | 0 <= k < |c.channels| ensures SeenChannel(Swept(c.channels[k], kindOf)) {
      SweptIsSeen(c.channels[k], kindOf);
    }
  }

  lemma SweptControlIsSeenTwice(c: Control, kindOf: Roster)
    requires SeenTwice(c)
    ensures SeenTwice(SweptControl(c, kindOf))
  {
    hide KeptChannel, Nearly, Settled, SettledFrame, CleanSlot, Forbidden, Swept;
    forall k | 0 <= k < |c.channels| ensures KeptChannel(Swept(c.channels[k], kindOf)) && Swept(c.channels[k], kindOf).id == c.channels[k].id {
      SweptIsKept(c.channels[k], kindOf);
      SweptChannel(c.channels[k], kindOf);
    }
  }

  /** Whatever the document, two sweeps leave every channel honest. */
  lemma TwoSweepsAreHonest(d: Document, kindOf: Roster)
    ensures DocumentHonest(Retire(Retire(d, kindOf), kindOf), kindOf)
  {
    hide Sanitize, SeenOnce, DocumentHonest;
    RetiredIsSanitized(d, kindOf);
    var next := Sanitize(d).(controls := AllSwept(Sanitize(d).controls, kindOf));
    SanitizedAreSeenOnce(next);
    SeenIsSweptHonest(Retire(d, kindOf), kindOf);
  }

  lemma RetiredIsSanitized(d: Document, kindOf: Roster)
    ensures Retire(d, kindOf) == Sanitize(Sanitize(d).(controls := AllSwept(Sanitize(d).controls, kindOf)))
  {
    hide Sanitize, SweptControl;
    assert Each(Sanitize(d).controls, c => SweptControl(c, kindOf)) == AllSwept(Sanitize(d).controls, kindOf);
  }

  // ----- when a second sweep changes nothing

  lemma HonestIsSwept(c: Control, kindOf: Roster)
    requires AllHonest(c, kindOf)
    ensures SweptControl(c, kindOf) == c
  {
    hide Swept, Honest;
    forall i | 0 <= i < |c.channels| ensures Swept(c.channels[i], kindOf) == c.channels[i] {
      assert Honest(c.channels[i], kindOf);
      SweptChannel(c.channels[i], kindOf);
    }
    assert SweptControl(c, kindOf).channels == c.channels;
  }

  /** Settled, reconciled and honest controls stay as they are. */
  lemma HonestStays(r: Document, kindOf: Roster)
    requires Stable(r.controls) && Reconcile(r.controls) == r.controls && DocumentHonest(r, kindOf)
    ensures Retire(r, kindOf).controls == r.controls
  {
    hide HasPeer, Stable, SweptControl, Retire, AllHonest, Reconciled, Sanitize;
    StableSanitized(r);
    RetireIs(r, kindOf);
    forall i | 0 <= i < |r.controls| ensures SweptControl(r.controls[i], kindOf) == r.controls[i] {
      HonestIsSwept(r.controls[i], kindOf);
    }
    assert AllSwept(r.controls, kindOf) == r.controls;
  }

  lemma SanitizedIsReconciled(d: Document)
    ensures Reconcile(Sanitize(d).controls) == Sanitize(d).controls
  {
    hide Sanitize, KeepControls, Reconcile;
    SanitizedControls(d);
    ReconcileOnce(KeepControls(d.controls, []));
  }

  /** Two sweeps settle and reconcile the controls of any document. */
  lemma TwoSweepsSettle(d: Document, kindOf: Roster)
    ensures var twice := Retire(Retire(d, kindOf), kindOf).controls; Stable(twice) && Reconcile(twice) == twice
  {
    hide Sanitize, SeenOnce, SeenTwice, Stable, SweptControl, Reconcile;
    var next := Sanitize(d).(controls := AllSwept(Sanitize(d).controls, kindOf));
    RetiredIsSanitized(d, kindOf);
    SanitizedAreSeenOnce(next);
    var safe := Sanitize(Sanitize(next));
    var last := safe.(controls := AllSwept(safe.controls, kindOf));
    SeenOnceAreSeenTwice(Sanitize(next));
    RetiredIsSanitized(Sanitize(next), kindOf);
    forall i | 0 <= i < |safe.controls| ensures SeenTwice(SweptControl(safe.controls[i], kindOf)) {
      SweptControlIsSeenTwice(safe.controls[i], kindOf);
    }
    SeenTwiceAreStable(last);
    SanitizedIsReconciled(last);
  }

  /** Whatever the document, a third sweep changes no control. */
  lemma SweepSettles(d: Document, kindOf: Roster)
    ensures var twice := Retire(Retire(d, kindOf), kindOf); Retire(twice, kindOf).controls == twice.controls
  {
    hide Retire, Stable, Reconcile, DocumentHonest;
    TwoSweepsSettle(d, kindOf);
    TwoSweepsAreHonest(d, kindOf);
    HonestStays(Retire(Retire(d, kindOf), kindOf), kindOf);
  }

  lemma RetiredIsStableIff(d: Document, kindOf: Roster)
    ensures Stable(Retire(d, kindOf).controls) <==> SwitchesSettle(Survivors(Sanitize(d).controls))
  {
    hide Sanitize, SeenOnce, Stable, SweptControl, TextSettles, ControlSettles, SurvivorsFrom;
    var safe := Sanitize(d).controls;
    var next := Sanitize(d).(controls := AllSwept(safe, kindOf));
    RetiredIsSanitized(d, kindOf);
    StableWhenSurvivorsSettle(next);
    SweptControlsSurvive(safe, kindOf, [], []);
    var survivors, also := Survivors(safe), Survivors(next.controls);
    forall i | 0 <= i < |survivors|
      ensures survivors[i] in survivors && also[i] in also && (ControlSettles(also[i]) <==> TextSettles(survivors[i].physicalId, 128))
    {
      assert survivors[i] in survivors && also[i] in also;
      SurvivorIsSeen(d, survivors[i]);
      SweptControlIsSeen(survivors[i], kindOf);
      SweptIs(survivors[i], kindOf);
      SeenControlSettlesIff(also[i]);
    }
    if SwitchesSettle(survivors) {
      forall c | c in also ensures ControlSettles(c) {
        var i :| 0 <= i < |also| && also[i] == c;
      }
    }
    if DocumentSettles(next.controls) {
      forall c | c in survivors ensures TextSettles(c.physicalId, 128) {
        var i :| 0 <= i < |survivors| && survivors[i] == c;
      }
    }
  }

  /** A second sweep changes no control exactly when of every control that
      survives the first, the switch is not cut behind a space and the channels
      stay honest. */
  lemma SweepTwiceIff(d: Document, kindOf: Roster)
    ensures Retire(Retire(d, kindOf), kindOf).controls == Retire(d, kindOf).controls
       <==> SwitchesSettle(Survivors(Sanitize(d).controls)) && SurvivorsStayHonest(Sanitize(d).controls, kindOf)
  {
    hide Retire, Sanitize, Stable, Reconcile, SwitchesSettle, SurvivorsStayHonest, AllHonest;
    var r := Retire(d, kindOf);
    RetiredIsStableIff(d, kindOf);
    SweepIsHonestIff(d, kindOf);
    RetiredIsSanitized(d, kindOf);
    SanitizedIsReconciled(Sanitize(d).(controls := AllSwept(Sanitize(d).controls, kindOf)));
    TwoSweepsSettle(d, kindOf);
    TwoSweepsAreHonest(d, kindOf);
    if Stable(r.controls) && DocumentHonest(r, kindOf) {
      HonestStays(r, kindOf);
    }
  }

  // ----- when the sweep keeps the switches in agreement

  /** What the sweep does with a claim. */
  datatype Fate = Untouched | Dropped | Marked | Vouched

  function FateOf(c: Channel, kindOf: Roster): Fate {
    if c.input.Unassigned? || c.input.device == "" then Untouched
    else
      match kindOf(c.input.device)
      case PanelEncoder => if c.encoder.Some? then Vouched else Dropped
      case UnknownDevice => Marked
      case KeyboardDevice => Vouched
  }

  /** Channels of two controls that end up with one identity share one fate. */
  ghost predicate SameFates(a: Control, b: Control, kindOf: Roster) {
    forall x, y | x in SurvivingChannels(a.channels) && y in SurvivingChannels(b.channels) && SameFinalId(x, y) ::
      FateOf(x, kindOf) == FateOf(y, kindOf)
  }

  predicate SameFinalId(x: Channel, y: Channel) {
    CleanString(x.id, 32) == CleanString(y.id, 32)
  }

  lemma SweptByFate(x: Channel, kindOf: Roster)
    ensures var y := Swept(x, kindOf);
      && y.id == x.id
      && match FateOf(x, kindOf)
         case Untouched => y == x
         case Dropped => y.input == Unassigned && !y.deviceUnverified
         case Marked => y.input == x.input && y.deviceUnverified
         case Vouched => y.input == x.input && !y.deviceUnverified
  {
  }

  lemma CleanedClaim(x: Channel, p: Channel)
    requires CleanChannel(x) == Some(p)
    ensures p.id == CleanString(x.id, 32) && p.input == CleanInput(x.input)
    ensures p.deviceUnverified == (x.deviceUnverified && p.input.Keyboard?)
  {
    hide CleanString, CleanInput, CleanEncoder, Forbidden, OrElse;
  }

  lemma SeenInput(x: Channel)
    requires SeenChannel(x)
    ensures x.input.Unassigned? <==> CleanInput(x.input).Unassigned?
    ensures x.input.Keyboard? ==> (x.input.device == "" <==> CleanInput(x.input).device == "")
  {
    NoDevice();
    hide CleanString, CleanEncoder, Forbidden, Settled;
  }

  lemma FateDecides(x: Channel, p: Channel, r: Channel, kindOf: Roster)
    requires SeenChannel(x) && CleanChannel(x) == Some(p) && CleanChannel(Swept(x, kindOf)) == Some(r)
    ensures p.id == r.id == CleanString(x.id, 32)
    ensures FateOf(x, kindOf).Untouched? <==> p.input.Unassigned? || p.input.device == ""
    ensures match FateOf(x, kindOf)
            case Untouched => r.input == p.input && r.deviceUnverified == p.deviceUnverified
            case Dropped => r.input == Unassigned && !r.deviceUnverified
            case Marked => r.input == p.input && r.deviceUnverified
            case Vouched => r.input == p.input && !r.deviceUnverified
  {
    SeenInput(x);
    SweptByFate(x, kindOf);
    CleanedClaim(x, p);
    CleanedClaim(Swept(x, kindOf), r);
    hide CleanString, CleanChannel, SeenChannel, Swept;
  }

  lemma SameFateSameClaim(x: Channel, y: Channel, p: Channel, q: Channel, r: Channel, t: Channel, kindOf: Roster)
    requires SeenChannel(x) && CleanChannel(x) == Some(p) && CleanChannel(Swept(x, kindOf)) == Some(r)
    requires SeenChannel(y) && CleanChannel(y) == Some(q) && CleanChannel(Swept(y, kindOf)) == Some(t)
    requires SameClaim(p, q)
    ensures SameClaim(r, t) <==> (SameFinalId(x, y) ==> FateOf(x, kindOf) == FateOf(y, kindOf))
  {
    hide CleanChannel, Swept, CleanString, FateOf, SeenChannel;
    FateDecides(x, p, r, kindOf);
    FateDecides(y, q, t, kindOf);
  }

  /** The channels of one control: as they are stored, as sanitizing leaves
      them, and as the sweep does. */
  ghost predicate Stages(c: Control, s: seq<Channel>, r: seq<Channel>, kindOf: Roster) {
    AllSeen(c.channels) && s == CleanChannels(c.channels, c.kind) && r == CleanChannels(AllSweptChannels(c.channels, kindOf), c.kind)
  }

  lemma StagesAt(c: Control, s: seq<Channel>, r: seq<Channel>, kindOf: Roster)
    requires Stages(c, s, r, kindOf)
    ensures var v := SurvivingChannels(c.channels);
      && |r| == |s|
      && (v == [] ==> r == s && forall k | 0 <= k < |s| :: s[k].input.Unassigned?)
      && (v != [] ==> |v| == |s| && forall k | 0 <= k < |v| ::
            v[k] in v && SeenChannel(v[k]) && CleanChannel(v[k]) == Some(s[k]) && CleanChannel(Swept(v[k], kindOf)) == Some(r[k]))
  {
    hide CleanChannel, Swept, SeenChannel, ChannelsFor, CleanChannels, SurvivingFrom;
    RetiredChannels(c.channels, c.kind, kindOf);
    SurvivingAmong(c.channels, []);
    var v := SurvivingChannels(c.channels);
    if v == [] {
      forall k | 0 <= k < |s| ensures s[k].input.Unassigned? {
        StandardClaimsNothing(c.kind, s[k]);
      }
    } else {
      forall k | 0 <= k < |v| ensures v[k] in v && SeenChannel(v[k]) {
        assert v[k] in v;
      }
    }
  }

  /** A channel that claims nothing is passed over, and so is one that must
      agree with it. */
  lemma UnclaimedAgrees(x: Channel, q: Channel, t: Channel, s: Channel, kindOf: Roster)
    requires SeenChannel(x) && CleanChannel(x) == Some(q) && CleanChannel(Swept(x, kindOf)) == Some(t)
    requires s.input.Unassigned? && SameClaim(s, q)
    ensures SameClaim(s, t) && SameClaim(t, s)
  {
    hide CleanChannel, Swept, CleanString, FateOf, SeenChannel;
    FateDecides(x, q, t, kindOf);
  }

  lemma SweptAgreeIff(a: Control, b: Control, sa: seq<Channel>, sb: seq<Channel>, ra: seq<Channel>, rb: seq<Channel>, kindOf: Roster)
    requires Stages(a, sa, ra, kindOf) && Stages(b, sb, rb, kindOf) && Agree(sa, sb)
    ensures Agree(ra, rb) <==> SameFates(a, b, kindOf)
  {
    hide CleanChannel, Swept, SeenChannel, SurvivingChannels, Stages, SameClaim, SameFinalId, FateOf;
    StagesAt(a, sa, ra, kindOf);
    StagesAt(b, sb, rb, kindOf);
    var v, w := SurvivingChannels(a.channels), SurvivingChannels(b.channels);
    forall k, l | 0 <= k < |ra| && 0 <= l < |rb|
      ensures SameClaim(ra[k], rb[l]) <==>
        (v != [] && w != [] && SameFinalId(v[k], w[l]) ==> FateOf(v[k], kindOf) == FateOf(w[l], kindOf))
    {
      assert SameClaim(sa[k], sb[l]);
      if v != [] && w != [] {
        SameFateSameClaim(v[k], w[l], sa[k], sb[l], ra[k], rb[l], kindOf);
      } else if v == [] && w != [] {
        UnclaimedAgrees(w[l], sb[l], rb[l], sa[k], kindOf);
      } else if w == [] && v != [] {
        SameClaimBack(sa[k], sb[l]);
        UnclaimedAgrees(v[k], sa[k], ra[k], sb[l], kindOf);
      }
    }
    if Agree(ra, rb) {
      forall x, y | x in v && y in w && SameFinalId(x, y) ensures FateOf(x, kindOf) == FateOf(y, kindOf) {
        var k :| 0 <= k < |v| && v[k] == x;
        var l :| 0 <= l < |w| && w[l] == y;
        assert SameClaim(ra[k], rb[l]);
      }
    }
  }

  lemma SameClaimBack(a: Channel, b: Channel)
    requires SameClaim(a, b)
    ensures SameClaim(b, a)
  {
  }

  /** Survivors on one switch share their fates. */
  ghost predicate SwitchesShareFate(d: Document, kindOf: Roster) {
    var survivors, s := Survivors(Sanitize(d).controls), Sanitize(Sanitize(d)).controls;
    |s| == |survivors| && forall i, j | 0 <= i < |s| && 0 <= j < |s| && s[i].physicalId == s[j].physicalId ::
      SameFates(survivors[i], survivors[j], kindOf)
  }

  lemma RetiredStages(d: Document, kindOf: Roster, i: nat)
    requires i < |Survivors(Sanitize(d).controls)|
    ensures |Retire(d, kindOf).controls| == |Survivors(Sanitize(d).controls)| == |Sanitize(Sanitize(d)).controls|
    ensures var c, r, s := Survivors(Sanitize(d).controls)[i], Retire(d, kindOf).controls[i], Sanitize(Sanitize(d)).controls[i];
      Stages(c, s.channels, r.channels, kindOf) && r.physicalId == s.physicalId
  {
    hide Sanitize, Retire, CleanChannels, AllSeen, SeenOnce, SurvivorsFrom;
    RetiredControl(d, kindOf, i);
    SurvivorIsSeen(d, Survivors(Sanitize(d).controls)[i]);
  }

  lemma SurvivorIsOpen(d: Document, kindOf: Roster, i: nat)
    requires i < |Retire(d, kindOf).controls| && Retire(d, kindOf).controls[i].resolution.Unresolved?
    ensures |Survivors(Sanitize(d).controls)| == |Retire(d, kindOf).controls| && Survivors(Sanitize(d).controls)[i].resolution.Unresolved?
  {
    hide Sanitize, SweptControl, KeepControls, Reconciled, SurvivorsFrom, CleanControl;
    RetiredCount(d, kindOf);
    RetiredIsSanitized(d, kindOf);
    var safe := Sanitize(d).controls;
    var next := Sanitize(d).(controls := AllSwept(safe, kindOf));
    SweptControlsSurvive(safe, kindOf, [], []);
    SurvivorsAreKept(next.controls);
    SanitizedControls(next);
    var kept := KeepControls(next.controls, []);
    OnlyCloses(kept, kept[i]);
    CleaningKeepsOpen(Survivors(next.controls)[i], i);
    SweptIs(Survivors(safe)[i], kindOf);
  }

  lemma OnlyCloses(all: seq<Control>, c: Control)
    ensures Reconciled(all, c).resolution.Unresolved? ==> c.resolution.Unresolved?
  {
    hide HasPeer;
  }

  lemma CleaningKeepsOpen(c: Control, position: nat)
    requires CleanControl(c, position).Some?
    ensures CleanControl(c, position).value.resolution == c.resolution
  {
    hide CleanString, CleanFrame, CleanChannels, CleanSlot, Forbidden;
  }

  lemma FewerKeys(a: Control, b: Control)
    requires SameButClaims(a, b)
    ensures KeyboardKeys(b) <= KeyboardKeys(a)
  {
    forall key | key in KeyboardKeys(b) ensures key in KeyboardKeys(a) {
      var i :| 0 <= i < |b.channels| && b.channels[i].input.Keyboard? && b.channels[i].input.key == key;
      assert OnlyClaims(a.channels[i], b.channels[i]);
    }
  }

  lemma PeerBefore(kept: seq<Control>, s: seq<Control>, i: nat, j: nat, a: Control, b: Control)
    requires s == Reconcile(kept) && i < |s| && j < |s| && kept[i].resolution.Unresolved? && kept[j].resolution.Unresolved?
    requires SameButClaims(s[i], a) && SameButClaims(s[j], b) && IsPeer(b, a)
    ensures s[i].resolution.Unresolved?
  {
    FewerKeys(s[i], a);
    FewerKeys(s[j], b);
    SameKeysLater(kept, i);
    SameKeysLater(kept, j);
    hide KeyboardKeys, OnlyClaims;
    assert KeyboardKeys(b) * KeyboardKeys(a) <= KeyboardKeys(kept[j]) * KeyboardKeys(kept[i]);
    assert IsPeer(kept[j], kept[i]);
  }

  lemma SameKeysLater(kept: seq<Control>, i: nat)
    requires i < |kept|
    ensures KeyboardKeys(Reconcile(kept)[i]) == KeyboardKeys(kept[i]) && Reconcile(kept)[i].id == kept[i].id
  {
    hide HasPeer;
  }

  /** A question that is open after the sweep was open without it. */
  lemma SweptStaysOpen(d: Document, kindOf: Roster, i: nat)
    requires i < |Retire(d, kindOf).controls| && Retire(d, kindOf).controls[i].resolution.Unresolved?
    ensures i < |Sanitize(Sanitize(d)).controls| && Sanitize(Sanitize(d)).controls[i].resolution.Unresolved?
  {
    hide Sanitize, Retire, SameButClaims, Survivors, KeepControls, CleanControl, IsPeer;
    var r, s, safe := Retire(d, kindOf).controls, Sanitize(Sanitize(d)).controls, Sanitize(d).controls;
    SweepTouchesClaims(d, kindOf);
    RetiredIsSanitized(d, kindOf);
    SanitizedIsReconciled(Sanitize(d).(controls := AllSwept(safe, kindOf)));
    assert Reconcile(r)[i] == r[i] && HasPeer(r, r[i]);
    var j :| 0 <= j < |r| && IsPeer(r[j], r[i]);
    assert r[j].resolution.Unresolved? by {
      PeerIsOpen(r[j], r[i]);
    }
    SurvivorIsOpen(d, kindOf, i);
    SurvivorIsOpen(d, kindOf, j);
    SurvivorsAreKept(safe);
    SanitizedControls(Sanitize(d));
    CleaningKeepsOpen(Survivors(safe)[i], i);
    CleaningKeepsOpen(Survivors(safe)[j], j);
    PeerBefore(KeepControls(safe, []), s, i, j, r[i], r[j]);
  }

  lemma PeerIsOpen(peer: Control, c: Control)
    requires IsPeer(peer, c)
    ensures peer.resolution.Unresolved?
  {
  }

  /** When the views of each switch agree without the sweep, they do after it
      exactly when their surviving channels share their fates: both views' claims
      are dropped, or marked, or vouched for, or neither's is touched. */
  lemma SweepKeepsSwitchesIff(d: Document, kindOf: Roster)
    requires SwitchesHold(Sanitize(Sanitize(d)))
    ensures SwitchesHold(Retire(d, kindOf)) <==> SwitchesShareFate(d, kindOf)
  {
    hide Sanitize, Retire, Survivors, Stages, SameFates, Agree;
    RetiredCount(d, kindOf);
    var survivors, r, s := Survivors(Sanitize(d).controls), Retire(d, kindOf).controls, Sanitize(Sanitize(d)).controls;
    forall i | 0 <= i < |r|
      ensures Stages(survivors[i], s[i].channels, r[i].channels, kindOf) && r[i].physicalId == s[i].physicalId
      ensures r[i].resolution.Unresolved? ==> s[i].resolution.Unresolved?
    {
      RetiredStages(d, kindOf, i);
      if r[i].resolution.Unresolved? {
        SweptStaysOpen(d, kindOf, i);
      }
    }
    forall i, j | 0 <= i < |s| && 0 <= j < |s| && s[i].physicalId == s[j].physicalId
      ensures Agree(r[i].channels, r[j].channels) <==> SameFates(survivors[i], survivors[j], kindOf)
    {
      SweptAgreeIff(survivors[i], survivors[j], s[i].channels, s[j].channels, r[i].channels, r[j].channels, kindOf);
    }
    if SwitchesHold(Retire(d, kindOf)) {
      forall i, j | 0 <= i < |s| && 0 <= j < |s| && s[i].physicalId == s[j].physicalId
        ensures SameFates(survivors[i], survivors[j], kindOf)
      {
        assert Agree(r[i].channels, r[j].channels);
      }
    }
  }

  // ----- the store

  const MAX_DEVICES := 64

  /** A stored document under the device it belongs to. */
  datatype Stored = Stored(identity: string, document: Document)

  function CanonicalDevice(identity: string): string {
    var device := CleanString(identity, 240);
    if device == "" || Forbidden(device) then "keyboard:default" else device
  }

  predicate Holds(kept: seq<Stored>, identity: string) {
    exists i | 0 <= i < |kept| :: kept[i].identity == identity
  }

  /** The first document of each device, sanitized, up to the cap. */
  function KeepDevices(raw: seq<Stored>, kept: seq<Stored>): seq<Stored> {
    if raw == [] || |kept| >= MAX_DEVICES then kept
    else
      var identity := CanonicalDevice(raw[0].identity);
      KeepDevices(raw[1..], if Holds(kept, identity) then kept else kept + [Stored(identity, Sanitize(raw[0].document))])
  }

  function RetireStore(raw: seq<Stored>, kindOf: Roster): (r: seq<Stored>)
    ensures |r| == |KeepDevices(raw, [])|
  {
    var safe := KeepDevices(raw, []);
    seq(|safe|, i requires 0 <= i < |safe| => safe[i].(document := Retire(safe[i].document, kindOf)))
  }

  /** A stored identity as it is kept: cleaned text, or the default keyboard's. */
  lemma CanonicalIs(identity: string)
    requires Settled(identity, 240)
    ensures CanonicalDevice(identity)
         == if identity in {"", "__proto__", "constructor", "prototype"} then "keyboard:default" else identity
  {
    SettledMeans(identity, 240);
    hide CleanString, Settled;
  }

  /** The first entry of its device. */
  ghost predicate IsFirstOf(raw: seq<Stored>, n: nat) {
    n < |raw| && forall k | 0 <= k < n :: CanonicalDevice(raw[k].identity) != CanonicalDevice(raw[n].identity)
  }

  /** What the store holds after its first `n` entries. */
  ghost predicate KeptAt(raw: seq<Stored>, n: nat, kept: seq<Stored>, at: seq<nat>)
    requires n <= |raw|
  {
    && |at| == |kept| <= MAX_DEVICES
    && (forall i, j | 0 <= i < j < |at| :: at[i] < at[j])
    && (forall i | 0 <= i < |at| ::
          && at[i] < n && IsFirstOf(raw, at[i])
          && kept[i] == Stored(CanonicalDevice(raw[at[i]].identity), Sanitize(raw[at[i]].document)))
    && (forall k | 0 <= k < n && IsFirstOf(raw, k) :: k in at)
  }

  lemma HeldIsEarlier(raw: seq<Stored>, n: nat, kept: seq<Stored>, at: seq<nat>)
    requires n < |raw| && KeptAt(raw, n, kept, at)
    ensures Holds(kept, CanonicalDevice(raw[n].identity)) <==> !IsFirstOf(raw, n)
  {
    hide CanonicalDevice, Sanitize;
    if !IsFirstOf(raw, n) {
      var k := FirstOf(raw, n);
      assert k in at;
      var i :| 0 <= i < |at| && at[i] == k;
      assert kept[i].identity == CanonicalDevice(raw[n].identity);
    }
  }

  lemma {:induction false} FirstOf(raw: seq<Stored>, n: nat) returns (k: nat)
    requires n < |raw|
    ensures k <= n && IsFirstOf(raw, k) && CanonicalDevice(raw[k].identity) == CanonicalDevice(raw[n].identity)
    ensures !IsFirstOf(raw, n) ==> k < n
  {
    hide CanonicalDevice;
    if IsFirstOf(raw, n) {
      k := n;
    } else {
      var j :| 0 <= j < n && CanonicalDevice(raw[j].identity) == CanonicalDevice(raw[n].identity);
      k := FirstOf(raw, j);
    }
  }

  lemma {:induction false} KeepsFirstDevices(raw: seq<Stored>, n: nat, kept: seq<Stored>, at: seq<nat>) returns (all: seq<nat>, m: nat)
    requires n <= |raw| && KeptAt(raw, n, kept, at)
    ensures m <= |raw| && KeptAt(raw, m, KeepDevices(raw[n..], kept), all) && (m == |raw| || |all| == MAX_DEVICES)
    decreases |raw| - n
  {
    hide CanonicalDevice, Sanitize, Holds;
    if n == |raw| || |kept| >= MAX_DEVICES {
      all, m := at, n;
    } else {
      assert raw[n..][0] == raw[n] && raw[n..][1..] == raw[n + 1..];
      HeldIsEarlier(raw, n, kept, at);
      if Holds(kept, CanonicalDevice(raw[n].identity)) {
        all, m := KeepsFirstDevices(raw, n + 1, kept, at);
      } else {
        var more := kept + [Stored(CanonicalDevice(raw[n].identity), Sanitize(raw[n].document))];
        assert KeptAt(raw, n + 1, more, at + [n]);
        all, m := KeepsFirstDevices(raw, n + 1, more, at + [n]);
      }
    }
  }

  /** The store's sweep keeps the first entry of every device, in order, each
      swept under its kept identity; past the cap of 64 devices later ones are
      dropped. */
  lemma StoreKeepsDevices(raw: seq<Stored>, kindOf: Roster) returns (at: seq<nat>)
    ensures |at| == |RetireStore(raw, kindOf)| <= 64 && forall i, j | 0 <= i < j < |at| :: at[i] < at[j]
    ensures forall i | 0 <= i < |at| ::
      && IsFirstOf(raw, at[i])
      && RetireStore(raw, kindOf)[i] == Stored(CanonicalDevice(raw[at[i]].identity), Retire(Sanitize(raw[at[i]].document), kindOf))
    ensures forall k | IsFirstOf(raw, k) :: k in at || (|at| == 64 && at[63] < k)
    ensures forall i, j | 0 <= i < j < |at| :: RetireStore(raw, kindOf)[i].identity != RetireStore(raw, kindOf)[j].identity
  {
    hide CanonicalDevice, Sanitize, Retire, Holds, KeepDevices;
    var m;
    assert raw[0..] == raw;
    at, m := KeepsFirstDevices(raw, 0, [], []);
    forall k | IsFirstOf(raw, k) && k !in at ensures |at| == 64 && at[63] < k {
      assert k >= m;
    }
  }

  function Identities(store: seq<Stored>): set<string> {
    set i | 0 <= i < |store| :: store[i].identity
  }

  function CanonicalIdentities(raw: seq<Stored>): set<string> {
    set i | 0 <= i < |raw| :: CanonicalDevice(raw[i].identity)
  }

  /** A store of at most 64 devices keeps them all; a larger one keeps 64. */
  lemma StoreLosesNoDevice(raw: seq<Stored>, kindOf: Roster)
    ensures var r := RetireStore(raw, kindOf);
      && |Identities(r)| == |r| && Identities(r) <= CanonicalIdentities(raw)
      && (|CanonicalIdentities(raw)| <= 64 ==> Identities(r) == CanonicalIdentities(raw))
      && (|CanonicalIdentities(raw)| > 64 ==> |r| == 64)
  {
    hide CanonicalDevice, Sanitize, Retire, KeepDevices, RetireStore;
    var r := RetireStore(raw, kindOf);
    var at := StoreKeepsDevices(raw, kindOf);
    CountIdentities(r);
    forall i | 0 <= i < |r| ensures r[i].identity in CanonicalIdentities(raw) {
      assert r[i].identity == CanonicalDevice(raw[at[i]].identity);
    }
    SubsetCount(Identities(r), CanonicalIdentities(raw));
    if |r| < 64 {
      forall id | id in CanonicalIdentities(raw) ensures id in Identities(r) {
        var n :| 0 <= n < |raw| && CanonicalDevice(raw[n].identity) == id;
        var k := FirstOf(raw, n);
        assert k in at;
        var i :| 0 <= i < |at| && at[i] == k;
        assert r[i].identity == id;
      }
      assert Identities(r) == CanonicalIdentities(raw);
    }
  }

  lemma SubsetCount(a: set<string>, b: set<string>)
    requires a <= b
    ensures |a| <= |b| && (|a| == |b| ==> a == b)
  {
    assert b == a + (b - a);
    assert |b| == |a| + |b - a|;
  }

  lemma {:induction false} CountIdentities(store: seq<Stored>)
    requires forall i, j | 0 <= i < j < |store| :: store[i].identity != store[j].identity
    ensures |Identities(store)| == |store|
  {
    if store != [] {
      var front, last := store[..|store| - 1], store[|store| - 1];
      CountIdentities(front);
      assert Identities(store) == Identities(front) + {last.identity};
      assert last.identity !in Identities(front);
    }
  }

  /** Every document is one the sanitizer has seen. */
  ghost predicate AllSanitized(store: seq<Stored>) {
    forall i | 0 <= i < |store| :: AllSeenOnce(store[i].document.controls)
  }

  lemma {:induction false} KeptDevicesAreSanitized(raw: seq<Stored>, kept: seq<Stored>)
    requires AllSanitized(kept)
    ensures AllSanitized(KeepDevices(raw, kept))
  {
    hide Sanitize, CanonicalDevice, Holds, AllSeenOnce;
    if raw != [] && |kept| < MAX_DEVICES {
      var identity := CanonicalDevice(raw[0].identity);
      SanitizedAreSeenOnce(raw[0].document);
      KeptDevicesAreSanitized(raw[1..], if Holds(kept, identity) then kept else kept + [Stored(identity, Sanitize(raw[0].document))]);
    }
  }

  /** Whatever was stored, the store's sweep leaves no document of any device
      unswept. */
  lemma StoreIsHonest(raw: seq<Stored>, kindOf: Roster)
    ensures forall i, k | 0 <= i < |RetireStore(raw, kindOf)| && 0 <= k < |RetireStore(raw, kindOf)[i].document.controls| ::
      AllHonest(RetireStore(raw, kindOf)[i].document.controls[k], kindOf)
  {
    hide Retire, AllHonest, KeepDevices, AllSeenOnce;
    KeptDevicesAreSanitized(raw, []);
    var safe := KeepDevices(raw, []);
    forall i | 0 <= i < |safe|
      ensures forall k | 0 <= k < |Retire(safe[i].document, kindOf).controls| :: AllHonest(Retire(safe[i].document, kindOf).controls[k], kindOf)
    {
      SeenIsSweptHonest(safe[i].document, kindOf);
    }
  }

  // ----- the memo table

  /** Every remembered kind is what the roster says. */
  ghost predicate Agrees(kinds: map<string, DeviceKind>, kindOf: Roster) {
    forall device | device in kinds :: kinds[device] == kindOf(device)
  }

  /** The sweep's memo table, asked once for each device. */
  class Kinds {
    var known: map<string, DeviceKind>

    constructor ()
      ensures known == map[]
    {
      known := map[];
    }

    method KindFor(device: string, kindOf: Roster) returns (kind: DeviceKind)
      requires Agrees(known, kindOf)
      modifies this
      ensures kind == kindOf(device) && Agrees(known, kindOf) && known.Keys == old(known.Keys) + {device}
    {
      if device in known {
        kind := known[device];
        return;
      }
      kind := kindOf(device);
      known := known[device := kind];
    }
  }

  method SweepChannels(channels: seq<Channel>, kinds: Kinds, kindOf: Roster) returns (swept: seq<Channel>)
    requires Agrees(kinds.known, kindOf)
    modifies kinds
    ensures Agrees(kinds.known, kindOf) && swept == EachChannel(channels, ch => Swept(ch, kindOf))
  {
    swept := [];
    for i := 0 to |channels|
      invariant Agrees(kinds.known, kindOf)
      invariant |swept| == i && forall k | 0 <= k < i :: swept[k] == Swept(channels[k], kindOf)
    {
      var c := channels[i];
      if c.input.Unassigned? || c.input.device == "" {
        swept := swept + [c];
        continue;
      }
      var kind := kinds.KindFor(c.input.device, kindOf);
      if kind.PanelEncoder? {
        swept := swept + [if c.encoder.Some?
                          then c.(encoder := Some(c.encoder.value.(verification := Unverified)), deviceUnverified := false)
                          else c.(input := Unassigned, deviceUnverified := false)];
      } else {
        swept := swept + [c.(deviceUnverified := kind.UnknownDevice?)];
      }
    }
  }

  /** The sweep as it runs, with one memo table for the whole document. */
  method SweepDocument(d: Document, kindOf: Roster) returns (r: Document)
    ensures r == Retire(d, kindOf)
  {
    hide Sanitize, Swept;
    var safe := Sanitize(d);
    var kinds := new Kinds();
    var controls := [];
    for i := 0 to |safe.controls|
      invariant Agrees(kinds.known, kindOf) && fresh(kinds)
      invariant |controls| == i && forall k | 0 <= k < i :: controls[k] == SweptControl(safe.controls[k], kindOf)
    {
      var channels := SweepChannels(safe.controls[i].channels, kinds, kindOf);
      controls := controls + [safe.controls[i].(channels := channels)];
    }
    assert controls == AllSwept(safe.controls, kindOf);
    r := Sanitize(safe.(controls := controls));
  }

  // ----- within a run

  lemma SweptSameClaim(a: Channel, b: Channel, kindOf: Roster)
    requires SameClaim(a, b) && a.encoder.None? && b.encoder.None?
    ensures SameClaim(Swept(a, kindOf), Swept(b, kindOf))
  {
  }

  lemma SweptPair(a: Control, b: Control, kindOf: Roster)
    requires PairHolds(a, b) && Unlinked(a.channels) && Unlinked(b.channels)
    ensures PairHolds(SweptControl(a, kindOf), SweptControl(b, kindOf))
  {
    hide SameClaim, Swept;
    var s, t := SweptControl(a, kindOf), SweptControl(b, kindOf);
    if a.physicalId == b.physicalId {
      forall i, j | 0 <= i < |s.channels| && 0 <= j < |t.channels| ensures SameClaim(s.channels[i], t.channels[j]) {
        assert SameClaim(a.channels[i], b.channels[j]);
        SweptSameClaim(a.channels[i], b.channels[j], kindOf);
      }
    }
  }

  lemma SweptUnlinked(c: Channel, kindOf: Roster)
    ensures c.encoder.None? ==> Swept(c, kindOf).encoder.None?
  {
  }

  lemma SweptIsMember(c: Control, kindOf: Roster, next: int)
    requires Member(c, next)
    ensures Member(SweptControl(c, kindOf), next) && SweptControl(c, kindOf).id == c.id
  {
    hide Member, Kept, KeptChannels, Swept;
    MemberParts(c, next);
    MemberIsKept(c, next);
    SweptControlIsKept(c, kindOf);
    KeptShape(SweptControl(c, kindOf));
    forall i | 0 <= i < |c.channels| ensures Swept(c.channels[i], kindOf).encoder.None? {
      SweptUnlinked(c.channels[i], kindOf);
    }
    OtherChannelsMember(c, SweptControl(c, kindOf), next);
  }

  /** The sweep keeps the invariant of unlinked documents. */
  lemma RetireKeeps(d: Document, kindOf: Roster)
    requires Inv(d)
    ensures Inv(Retire(d, kindOf)) && Retire(d, kindOf).nextId == d.nextId
    ensures Retire(d, kindOf).controls == Reconcile(AllSwept(d.controls, kindOf))
  {
    hide Sanitize, Reconcile, Inv, Body, SweptControl, Member, PairHolds, Unlinked;
    InvParts(d);
    var controls := AllSwept(d.controls, kindOf);
    forall i | 0 <= i < |controls| ensures Member(controls[i], d.nextId) && controls[i].id == d.controls[i].id {
      MemberAt(d.controls, d.nextId, i);
      SweptIsMember(d.controls[i], kindOf, d.nextId);
    }
    forall i, j | 0 <= i < |controls| && 0 <= j < |controls| ensures PairHolds(controls[i], controls[j]) {
      PairAt(d.controls, d.nextId, i, j);
      MemberAt(d.controls, d.nextId, i);
      MemberAt(d.controls, d.nextId, j);
      MemberParts(d.controls[i], d.nextId);
      MemberParts(d.controls[j], d.nextId);
      SweptPair(d.controls[i], d.controls[j], kindOf);
    }
    BodyIsDistinct(d.controls, d.nextId);
    BodySize(d.controls, d.nextId);
    MakeBody(controls, d.nextId);
    SanitizeCleanBody(d.(controls := controls));
  }
}
