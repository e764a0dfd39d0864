/** Documents that sanitizing leaves alone, and what sanitizing does to the
    documents the edits hand it. */
module SurfaceStable {
  import opened Options
  import opened SurfaceText
  import opened Surface
  import opened SurfaceFrames

  // ----- what is kept as it is

  predicate KeptChannel(c: Channel) {
    CleanChannel(c) == Some(c)
  }

  /** A channel whose identity is kept, whatever it claims. */
  predicate NamedChannel(c: Channel) {
    c.id != "" && Settled(c.id, 32) && !Forbidden(c.id)
  }

  ghost predicate DistinctChannels(channels: seq<Channel>) {
    forall i, j | 0 <= i < j < |channels| :: channels[i].id != channels[j].id
  }

  ghost predicate KeptChannels(channels: seq<Channel>) {
    && 1 <= |channels| <= MAX_CHANNELS
    && (forall i | 0 <= i < |channels| :: KeptChannel(channels[i]))
    && DistinctChannels(channels)
  }

  ghost predicate NamedChannels(channels: seq<Channel>) {
    && 1 <= |channels| <= MAX_CHANNELS
    && (forall i | 0 <= i < |channels| :: NamedChannel(channels[i]))
    && DistinctChannels(channels)
  }

  predicate Named(c: Control) {
    c.id != "" && Settled(c.id, 128) && !Forbidden(c.id)
  }

  ghost predicate Kept(c: Control) {
    && Named(c)
    && c.physicalId != "" && Settled(c.physicalId, 128)
    && c.caption != "" && Settled(c.caption, 64)
    && CleanSlot(c.playerSlot) == c.playerSlot
    && SettledFrame(c.frame)
    && KeptChannels(c.channels)
  }

  ghost predicate DistinctIds(controls: seq<Control>) {
    forall i, j | 0 <= i < j < |controls| :: controls[i].id != controls[j].id
  }

  ghost predicate AllNamed(controls: seq<Control>) {
    |controls| <= MAX_CONTROLS && (forall i | 0 <= i < |controls| :: Named(controls[i])) && DistinctIds(controls)
  }

  ghost predicate Stable(controls: seq<Control>) {
    |controls| <= MAX_CONTROLS && (forall i | 0 <= i < |controls| :: Kept(controls[i])) && DistinctIds(controls)
  }

  // ----- channels

  function CleanedChannel(c: Channel): Channel {
    match CleanChannel(c)
    case Some(kept) => kept
    case None => c
  }

  function CleanedChannels(channels: seq<Channel>): (r: seq<Channel>)
    ensures |r| == |channels| && forall i | 0 <= i < |r| :: r[i] == CleanedChannel(channels[i])
  {
    seq(|channels|, i requires 0 <= i < |channels| => CleanedChannel(channels[i]))
  }

  lemma NamedChannelIsCleaned(c: Channel)
    requires NamedChannel(c)
    ensures CleanChannel(c) == Some(CleanedChannel(c)) && CleanedChannel(c).id == c.id
  {
    hide CleanString, CleanInput, CleanEncoder, Settled;
    SettledMeans(c.id, 32);
  }

  lemma KeptChannelIsNamed(c: Channel)
    requires KeptChannel(c)
    ensures NamedChannel(c) && CleanedChannel(c) == c
  {
    hide CleanString, CleanInput, CleanEncoder, Settled;
    SettledMeans(c.id, 32);
  }

  lemma {:induction false} KeepNamedChannels(channels: seq<Channel>, k: nat)
    requires NamedChannels(channels) && k <= |channels|
    ensures KeepChannels(channels[k..], CleanedChannels(channels[..k])) == CleanedChannels(channels)
    decreases |channels| - k
  {
    hide CleanChannel, Settled, Forbidden, CleanedChannel;
    if k == |channels| {
      assert channels[..k] == channels;
    } else {
      var kept := CleanedChannels(channels[..k]);
      forall i | 0 <= i <= k ensures NamedChannel(channels[i]) && CleanedChannel(channels[i]).id == channels[i].id {
        NamedChannelIsCleaned(channels[i]);
      }
      NamedChannelIsCleaned(channels[k]);
      assert !HasChannel(kept, channels[k].id);
      assert channels[k..][0] == channels[k] && channels[k..][1..] == channels[k + 1..];
      assert CleanedChannels(channels[..k + 1]) == kept + [CleanedChannel(channels[k])];
      KeepNamedChannels(channels, k + 1);
    }
  }

  lemma NamedChannelsAreCleaned(channels: seq<Channel>, kind: Kind)
    requires NamedChannels(channels)
    ensures CleanChannels(channels, kind) == CleanedChannels(channels)
  {
    hide CleanedChannel, NamedChannel;
    KeepNamedChannels(channels, 0);
    assert channels[0..] == channels;
    assert CleanedChannels(channels[..0]) == [];
    assert |CleanedChannels(channels)| > 0;
  }

  lemma KeptChannelsAreNamed(channels: seq<Channel>)
    requires KeptChannels(channels)
    ensures NamedChannels(channels) && CleanedChannels(channels) == channels
  {
    hide NamedChannel, KeptChannel, CleanedChannel;
    forall i | 0 <= i < |channels| ensures NamedChannel(channels[i]) && CleanedChannel(channels[i]) == channels[i] {
      KeptChannelIsNamed(channels[i]);
    }
  }

  // ----- controls

  lemma NamedIsCleaned(c: Control, index: nat)
    requires Named(c)
    ensures CleanControl(c, index) == Some(Cleaned(c)) && Cleaned(c).id == c.id
  {
    hide CleanString, CleanFrame, CleanChannels, CleanSlot, Forbidden, Settled;
    SettledMeans(c.id, 128);
  }

  lemma KeptIsCleaned(c: Control)
    requires Kept(c)
    ensures Cleaned(c) == c
  {
    hide CleanString, CleanFrame, CleanChannels, CleanSlot, Forbidden, KeptChannels, CleanedChannels, NamedChannels, SettledFrame,
      Settled;
    SettledMeans(c.id, 128);
    SettledMeans(c.physicalId, 128);
    SettledMeans(c.caption, 64);
    FrameKeptIff(c.frame);
    KeptChannelsAreNamed(c.channels);
    NamedChannelsAreCleaned(c.channels, c.kind);
  }

  function AllCleaned(controls: seq<Control>): (r: seq<Control>)
    ensures |r| == |controls| && forall i | 0 <= i < |r| :: r[i] == Cleaned(controls[i])
  {
    hide Cleaned;
    seq(|controls|, i requires 0 <= i < |controls| => Cleaned(controls[i]))
  }

  lemma {:induction false} KeepNamed(controls: seq<Control>, k: nat)
    requires AllNamed(controls) && k <= |controls|
    ensures KeepControls(controls[k..], AllCleaned(controls[..k])) == AllCleaned(controls)
    decreases |controls| - k
  {
    hide CleanControl, Named, Cleaned;
    if k == |controls| {
      assert controls[..k] == controls;
    } else {
      var kept := AllCleaned(controls[..k]);
      forall i | 0 <= i <= k ensures Cleaned(controls[i]).id == controls[i].id {
        NamedIsCleaned(controls[i], 0);
      }
      NamedIsCleaned(controls[k], k);
      assert !HasControl(kept, controls[k].id);
      assert controls[k..][0] == controls[k] && controls[k..][1..] == controls[k + 1..];
      assert AllCleaned(controls[..k + 1]) == kept + [Cleaned(controls[k])];
      KeepNamed(controls, k + 1);
    }
  }

  lemma NamedAreCleaned(controls: seq<Control>)
    requires AllNamed(controls)
    ensures KeepControls(controls, []) == AllCleaned(controls)
  {
    hide CleanControl, Named, Cleaned;
    KeepNamed(controls, 0);
    assert controls[0..] == controls;
    assert AllCleaned(controls[..0]) == [];
  }

  lemma StableIsCleaned(controls: seq<Control>)
    requires Stable(controls)
    ensures AllNamed(controls) && AllCleaned(controls) == controls
  {
    hide Named, Cleaned;
    forall i | 0 <= i < |controls| ensures Named(controls[i]) && Cleaned(controls[i]) == controls[i] {
      KeptIsCleaned(controls[i]);
    }
  }

  lemma SanitizedControls(d: Document)
    ensures Sanitize(d).controls == Reconcile(KeepControls(d.controls, []))
  {
    hide KeepControls, Reconcile, Highest, CleanString;
  }

  lemma StableSanitized(d: Document)
    requires Stable(d.controls)
    ensures Sanitize(d).controls == Reconcile(d.controls) && Stable(Reconcile(d.controls))
  {
    hide Sanitize, KeepControls, Kept, Reconciled, AllCleaned, AllNamed;
    StableIsCleaned(d.controls);
    NamedAreCleaned(d.controls);
    SanitizedControls(d);
    var r := Reconcile(d.controls);
    forall i | 0 <= i < |r| ensures Kept(r[i]) && r[i].id == d.controls[i].id {
      ReconciledIsKept(d.controls, d.controls[i]);
    }
  }

  lemma ReconciledIsKept(all: seq<Control>, c: Control)
    requires Kept(c)
    ensures Kept(Reconciled(all, c)) && Reconciled(all, c).id == c.id
  {
    hide HasPeer, KeptChannels, Settled, SettledFrame, CleanSlot, Forbidden;
  }

  // ----- selection

  /** The selection names a channel of a control, or nothing. */
  predicate SelectionHolds(controls: seq<Control>, control: string, channel: string) {
    match FindControl(controls, control)
    case Some(c) => HasChannel(c.channels, channel)
    case None => control == "" && channel == ""
  }

  lemma {:induction false} FindOnly(controls: seq<Control>, i: nat)
    requires i < |controls| && DistinctIds(controls)
    ensures FindControl(controls, controls[i].id) == Some(controls[i])
  {
    var r := FindControl(controls, controls[i].id);
    assert controls[i] in controls;
    var j :| 0 <= j < |controls| && controls[j] == r.value;
    assert i < j ==> controls[i].id != controls[j].id;
    assert j < i ==> controls[j].id != controls[i].id;
  }

  lemma FoundIsOne(controls: seq<Control>, id: string) returns (i: nat)
    requires FindControl(controls, id).Some?
    ensures i < |controls| && controls[i] == FindControl(controls, id).value
  {
    i :| 0 <= i < |controls| && controls[i] == FindControl(controls, id).value;
  }

  /** Changing only resolutions moves no selection. */
  lemma {:induction false} FindInReconciled(all: seq<Control>, controls: seq<Control>, r: seq<Control>, id: string)
    requires |r| == |controls| && forall i | 0 <= i < |r| :: r[i] == Reconciled(all, controls[i])
    ensures FindControl(controls, id).None? <==> FindControl(r, id).None?
    ensures FindControl(controls, id).Some? ==> FindControl(r, id) == Some(Reconciled(all, FindControl(controls, id).value))
  {
    hide HasPeer;
    if controls != [] {
      assert forall i | 0 <= i < |r| - 1 :: r[1..][i] == r[i + 1] && controls[1..][i] == controls[i + 1];
      FindInReconciled(all, controls[1..], r[1..], id);
    }
  }
}
