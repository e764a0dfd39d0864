/** The stored controls and channels that the sanitizer keeps, as they are
    stored, and what it makes of each. */
module SurfaceSurvivors {
  import opened Options
  import opened Surface
  import opened SurfaceStable

  // ----- channels

  /** The usable channels of new identities, up to the cap. */
  function SurvivingFrom(raw: seq<Channel>, kept: seq<Channel>): seq<Channel> {
    if raw == [] || |kept| >= MAX_CHANNELS then []
    else
      match CleanChannel(raw[0])
      case None => SurvivingFrom(raw[1..], kept)
      case Some(c) =>
        if HasChannel(kept, c.id) then SurvivingFrom(raw[1..], kept) else [raw[0]] + SurvivingFrom(raw[1..], kept + [c])
  }

  function SurvivingChannels(raw: seq<Channel>): seq<Channel> {
    SurvivingFrom(raw, [])
  }

  lemma CleanedChannelIs(c: Channel)
    requires CleanChannel(c).Some?
    ensures CleanChannel(c) == Some(CleanedChannel(c))
  {
    hide CleanChannel;
  }

  lemma {:induction false} KeptFromSurvivors(raw: seq<Channel>, kept: seq<Channel>)
    ensures KeepChannels(raw, kept) == kept + CleanedChannels(SurvivingFrom(raw, kept))
    ensures forall x | x in SurvivingFrom(raw, kept) :: CleanChannel(x) == Some(CleanedChannel(x))
  {
    hide CleanChannel, CleanedChannel;
    if raw != [] && |kept| < MAX_CHANNELS {
      match CleanChannel(raw[0])
      case None => KeptFromSurvivors(raw[1..], kept);
      case Some(c) =>
        CleanedChannelIs(raw[0]);
        if HasChannel(kept, c.id) {
          KeptFromSurvivors(raw[1..], kept);
        } else {
          KeptFromSurvivors(raw[1..], kept + [c]);
          var rest := SurvivingFrom(raw[1..], kept + [c]);
          assert CleanedChannels([raw[0]] + rest) == [c] + CleanedChannels(rest);
        }
    }
  }

  /** The sanitizer keeps the surviving channels, each cleaned; with none it
      falls back to the standard ones. */
  lemma KeptAreSurvivors(raw: seq<Channel>, kind: Kind)
    ensures KeepChannels(raw, []) == CleanedChannels(SurvivingChannels(raw))
    ensures CleanChannels(raw, kind)
         == if SurvivingChannels(raw) == [] then ChannelsFor(kind) else CleanedChannels(SurvivingChannels(raw))
    ensures forall x | x in SurvivingChannels(raw) :: CleanChannel(x) == Some(CleanedChannel(x))
  {
    hide CleanChannel, CleanedChannel, ChannelsFor;
    KeptFromSurvivors(raw, []);
    assert [] + CleanedChannels(SurvivingChannels(raw)) == CleanedChannels(SurvivingChannels(raw));
    assert SurvivingChannels(raw) == [] <==> CleanedChannels(SurvivingChannels(raw)) == [];
  }

  lemma {:induction false} SurvivingAmong(raw: seq<Channel>, kept: seq<Channel>)
    ensures forall x | x in SurvivingFrom(raw, kept) :: x in raw
  {
    hide CleanChannel;
    if raw != [] && |kept| < MAX_CHANNELS {
      SurvivingAmong(raw[1..], kept);
      if CleanChannel(raw[0]).Some? {
        SurvivingAmong(raw[1..], kept + [CleanChannel(raw[0]).value]);
      }
    }
  }

  lemma {:induction false} NamedSurviveFrom(raw: seq<Channel>, k: nat)
    requires NamedChannels(raw) && k <= |raw|
    ensures SurvivingFrom(raw[k..], CleanedChannels(raw[..k])) == raw[k..]
    decreases |raw| - k
  {
    hide CleanChannel, NamedChannel, CleanedChannel;
    if k < |raw| {
      var kept := CleanedChannels(raw[..k]);
      forall i | 0 <= i <= k ensures CleanedChannel(raw[i]).id == raw[i].id {
        NamedChannelIsCleaned(raw[i]);
      }
      NamedChannelIsCleaned(raw[k]);
      assert !HasChannel(kept, raw[k].id);
      assert raw[k..] == [raw[k]] + raw[k + 1..];
      assert CleanedChannels(raw[..k + 1]) == kept + [CleanedChannel(raw[k])];
      NamedSurviveFrom(raw, k + 1);
    }
  }

  /** Channels with usable identities of their own all survive. */
  lemma NamedChannelsSurvive(raw: seq<Channel>)
    requires NamedChannels(raw)
    ensures SurvivingChannels(raw) == raw
  {
    hide NamedChannel, CleanedChannel, CleanChannel;
    NamedSurviveFrom(raw, 0);
    assert raw[0..] == raw && CleanedChannels(raw[..0]) == [];
  }

  // ----- controls

  /** The usable controls of new identities, up to the cap. */
  function SurvivorsFrom(raw: seq<Control>, kept: seq<Control>): seq<Control> {
    if raw == [] || |kept| >= MAX_CONTROLS then []
    else
      match CleanControl(raw[0], |kept|)
      case None => SurvivorsFrom(raw[1..], kept)
      case Some(c) =>
        if HasControl(kept, c.id) then SurvivorsFrom(raw[1..], kept) else [raw[0]] + SurvivorsFrom(raw[1..], kept + [c])
  }

  function Survivors(raw: seq<Control>): seq<Control> {
    SurvivorsFrom(raw, [])
  }

  lemma {:induction false} KeptControlsFromSurvivors(raw: seq<Control>, kept: seq<Control>)
    requires |kept| <= MAX_CONTROLS
    ensures var s, r := SurvivorsFrom(raw, kept), KeepControls(raw, kept);
      && |r| == |kept| + |s| && r[..|kept|] == kept
      && forall i | 0 <= i < |s| :: CleanControl(s[i], |kept| + i) == Some(r[|kept| + i])
  {
    hide CleanControl;
    if raw != [] && |kept| < MAX_CONTROLS {
      match CleanControl(raw[0], |kept|)
      case None => KeptControlsFromSurvivors(raw[1..], kept);
      case Some(c) =>
        if HasControl(kept, c.id) {
          KeptControlsFromSurvivors(raw[1..], kept);
        } else {
          KeptControlsFromSurvivors(raw[1..], kept + [c]);
          var s, r := SurvivorsFrom(raw, kept), KeepControls(raw, kept);
          var rest := SurvivorsFrom(raw[1..], kept + [c]);
          assert r[..|kept| + 1] == kept + [c];
          assert r[|kept|] == c;
          assert r[..|kept|] == kept;
          assert forall i | 1 <= i < |s| :: s[i] == rest[i - 1];
        }
    }
  }

  /** The sanitizer keeps the survivors, each cleaned under its position. */
  lemma SurvivorsAreKept(raw: seq<Control>)
    ensures |KeepControls(raw, [])| == |Survivors(raw)| <= MAX_CONTROLS
    ensures forall i | 0 <= i < |Survivors(raw)| :: CleanControl(Survivors(raw)[i], i) == Some(KeepControls(raw, [])[i])
  {
    hide CleanControl;
    KeptControlsFromSurvivors(raw, []);
  }

  lemma {:induction false} SurvivorsAmong(raw: seq<Control>, kept: seq<Control>)
    ensures forall c | c in SurvivorsFrom(raw, kept) :: c in raw
  {
    hide CleanControl;
    if raw != [] && |kept| < MAX_CONTROLS {
      SurvivorsAmong(raw[1..], kept);
      var c := CleanControl(raw[0], |kept|);
      if c.Some? {
        SurvivorsAmong(raw[1..], kept + [c.value]);
      }
    }
  }

  lemma {:induction false} NamedControlsSurviveFrom(raw: seq<Control>, k: nat)
    requires AllNamed(raw) && k <= |raw|
    ensures SurvivorsFrom(raw[k..], AllCleaned(raw[..k])) == raw[k..]
    decreases |raw| - k
  {
    hide CleanControl, Named, Cleaned;
    if k < |raw| {
      var kept := AllCleaned(raw[..k]);
      forall i | 0 <= i <= k ensures Cleaned(raw[i]).id == raw[i].id {
        NamedIsCleaned(raw[i], 0);
      }
      NamedIsCleaned(raw[k], k);
      assert !HasControl(kept, raw[k].id);
      assert raw[k..] == [raw[k]] + raw[k + 1..];
      assert AllCleaned(raw[..k + 1]) == kept + [Cleaned(raw[k])];
      NamedControlsSurviveFrom(raw, k + 1);
    }
  }

  /** Controls with usable identities of their own all survive. */
  lemma NamedSurvive(raw: seq<Control>)
    requires AllNamed(raw)
    ensures Survivors(raw) == raw
  {
    hide Named, Cleaned, CleanControl;
    NamedControlsSurviveFrom(raw, 0);
    assert raw[0..] == raw && AllCleaned(raw[..0]) == [];
  }
}
