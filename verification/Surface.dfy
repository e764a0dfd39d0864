/** Documents and their sanitizer. */
module Surface {
  // Control-surface documents (`sanitizeControlSurfaceState`,
  // `reconcileUnresolvedSignals`). Lengths are thousandths of a board unit.

  import opened Strings
  import opened Options
  import opened SurfaceText

  // ----- the document

  datatype Kind = Button30 | Button24 | KeycapKind | Joystick

  datatype Resolution = Confirmed | Unresolved

  datatype Origin = FromTemplate | ByHand | FromMapping | FromWorkbench

  /** What a channel claims to receive: nothing, or a key from a device. */
  datatype Input = Unassigned | Keyboard(key: string, device: string)

  datatype Verification = Unverified | Expected | Configured | Planned | Matched | Mismatch

  datatype Encoder = Encoder(driver: string, board: string, terminalId: string, terminalCaption: string,
                             expectedKey: string, verification: Verification)

  /** `deviceUnverified` says that nothing vouches for the input's device. */
  datatype Channel = Channel(id: string, caption: string, input: Input, encoder: Option<Encoder>, deviceUnverified: bool)

  datatype Frame = Frame(x: real, y: real, width: real, height: real)

  datatype Control = Control(id: string, physicalId: string, resolution: Resolution, kind: Kind, caption: string,
                             playerSlot: Option<int>, origin: Origin, frame: Frame, channels: seq<Channel>)

  datatype StartTemplate = Blank | ArcadeStick | LeverlessPanel | FourPlayer | MappingSelected | MappingFour

  datatype Template = Start(start: StartTemplate) | Custom | WorkbenchMigration

  datatype PanelLayout = SinglePanel | FourPanels

  datatype Stage = Design | Teaching | Route

  datatype Document = Document(started: bool, template: Template, panelLayout: PanelLayout, stage: Stage,
                               controls: seq<Control>, selectedControl: string, selectedChannel: string, nextId: int)

  const MAX_CONTROLS := 512
  const MAX_CHANNELS := 8
  const MAX_SAFE_INTEGER := 9007199254740991
  const BOARD_WIDTH := 1200000.0
  const BOARD_HEIGHT := 720000.0

  // ----- the parts of a control

  predicate Forbidden(id: string) {
    id == "__proto__" || id == "constructor" || id == "prototype"
  }

  function Clamp(value: real, min: real, max: real): real {
    var raised := if value >= min then value else min;
    if raised <= max then raised else max
  }

  function RoundReal(value: real): real {
    (value + 0.5).Floor as real
  }

  function CleanFrame(f: Frame): Frame {
    var width, height := Clamp(f.width, 36000.0, 280000.0), Clamp(f.height, 36000.0, 280000.0);
    Frame(RoundReal(Clamp(f.x, 0.0, BOARD_WIDTH - width)), RoundReal(Clamp(f.y, 0.0, BOARD_HEIGHT - height)),
          RoundReal(width), RoundReal(height))
  }

  function SizeOf(kind: Kind): (real, real) {
    match kind
    case Button24 => (58000.0, 58000.0)
    case Button30 => (74000.0, 74000.0)
    case Joystick => (168000.0, 168000.0)
    case KeycapKind => (88000.0, 64000.0)
  }

  function DefaultLabel(kind: Kind): string {
    match kind
    case Button24 => "Aux"
    case Button30 => "Button"
    case Joystick => "Stick"
    case KeycapKind => "Key"
  }

  function FreshChannel(id: string, caption: string): Channel {
    Channel(id, caption, Unassigned, None, false)
  }

  function ChannelsFor(kind: Kind): seq<Channel> {
    if kind.Joystick? then
      [FreshChannel("up", "Up"), FreshChannel("right", "Right"), FreshChannel("down", "Down"), FreshChannel("left", "Left")]
    else [FreshChannel("press", "Press")]
  }

  function CleanInput(input: Input): Input {
    match input
    case Unassigned => Unassigned
    case Keyboard(key, device) =>
      if CleanString(key, 96) == "" then Unassigned else Keyboard(CleanString(key, 96), CleanString(device, 240))
  }

  function CleanEncoder(encoder: Option<Encoder>): Option<Encoder> {
    match encoder
    case None => None
    case Some(e) =>
      if CleanString(e.terminalId, 32) == "" then None
      else Some(Encoder(CleanString(e.driver, 64), CleanString(e.board, 160), CleanString(e.terminalId, 32),
                        CleanString(e.terminalCaption, 40), CleanString(e.expectedKey, 96), e.verification))
  }

  function OrElse(s: string, fallback: string): string {
    if s == "" then fallback else s
  }

  /** A channel as it is kept, or `None` when its identity is unusable. */
  function CleanChannel(c: Channel): Option<Channel> {
    var id := CleanString(c.id, 32);
    if id == "" || Forbidden(id) then None
    else Some(Channel(id, OrElse(CleanString(c.caption, 40), id), CleanInput(c.input), CleanEncoder(c.encoder),
                      c.deviceUnverified && CleanInput(c.input).Keyboard?))
  }

  predicate HasChannel(channels: seq<Channel>, id: string) {
    exists i | 0 <= i < |channels| :: channels[i].id == id
  }

  /** Keep usable channels with new identities, up to the cap. */
  function KeepChannels(raw: seq<Channel>, kept: seq<Channel>): seq<Channel> {
    if raw == [] || |kept| >= MAX_CHANNELS then kept
    else
      match CleanChannel(raw[0])
      case None => KeepChannels(raw[1..], kept)
      case Some(c) => KeepChannels(raw[1..], if HasChannel(kept, c.id) then kept else kept + [c])
  }

  function CleanChannels(raw: seq<Channel>, kind: Kind): seq<Channel> {
    var kept := KeepChannels(raw, []);
    if kept == [] then ChannelsFor(kind) else kept
  }

  function CleanSlot(slot: Option<int>): Option<int> {
    if slot.Some? && 1 <= slot.value <= 4 then slot else None
  }

  /** A control as it is kept; `index` numbers a control without an identity. */
  function CleanControl(c: Control, index: nat): Option<Control> {
    var id := OrElse(CleanString(c.id, 128), "c" + Print(index + 1));
    if Forbidden(id) then None
    else
      Some(Control(id, OrElse(CleanString(c.physicalId, 128), "physical:" + id), c.resolution, c.kind,
                   OrElse(CleanString(c.caption, 64), DefaultLabel(c.kind)), CleanSlot(c.playerSlot), c.origin,
                   CleanFrame(c.frame), CleanChannels(c.channels, c.kind)))
  }

  /** The control as it is kept, when it is kept. */
  function Cleaned(c: Control): Control {
    match CleanControl(c, 0)
    case Some(kept) => kept
    case None => c
  }

  predicate HasControl(controls: seq<Control>, id: string) {
    exists i | 0 <= i < |controls| :: controls[i].id == id
  }

  /** Keep usable controls with new identities, up to the cap. */
  function KeepControls(raw: seq<Control>, kept: seq<Control>): (r: seq<Control>)
    ensures |kept| <= MAX_CONTROLS ==> |r| <= MAX_CONTROLS
  {
    if raw == [] || |kept| >= MAX_CONTROLS then kept
    else
      match CleanControl(raw[0], |kept|)
      case None => KeepControls(raw[1..], kept)
      case Some(c) => KeepControls(raw[1..], if HasControl(kept, c.id) then kept else kept + [c])
  }

  /** The sanitizer's loop, with its set of identities and its early exit. */
  method SanitizeControls(raw: seq<Control>) returns (controls: seq<Control>)
    ensures controls == KeepControls(raw, [])
  {
    hide CleanControl;
    controls := [];
    var ids: set<string> := {};
    for i := 0 to |raw|
      invariant KeepControls(raw, []) == KeepControls(raw[i..], controls)
      invariant |controls| < MAX_CONTROLS
      invariant forall id :: id in ids <==> HasControl(controls, id)
    {
      assert raw[i..][0] == raw[i] && raw[i..][1..] == raw[i + 1..];
      var control := CleanControl(raw[i], |controls|);
      if control.None? || control.value.id in ids {
        continue;
      }
      ids := ids + {control.value.id};
      HasControlAppend(controls, control.value);
      controls := controls + [control.value];
      if |controls| >= MAX_CONTROLS {
        return;
      }
    }
  }

  lemma HasControlAppend(controls: seq<Control>, c: Control)
    ensures forall id :: HasControl(controls + [c], id) <==> HasControl(controls, id) || id == c.id
  {
    var more := controls + [c];
    assert more[|controls|] == c && forall i | 0 <= i < |controls| :: more[i] == controls[i];
  }

  // ----- unresolved shared signals

  function KeyboardKeys(c: Control): set<string> {
    set i | 0 <= i < |c.channels| && c.channels[i].input.Keyboard? :: c.channels[i].input.key
  }

  lemma OneKey(c: Control, key: string)
    requires |c.channels| == 1 && c.channels[0].input.Keyboard? && c.channels[0].input.key == key
    ensures KeyboardKeys(c) == {key}
  {
    assert key in KeyboardKeys(c);
  }

  /** An unresolved control that carries one of this control's keys. */
  predicate IsPeer(peer: Control, c: Control) {
    peer.resolution.Unresolved? && peer.id != c.id && KeyboardKeys(peer) * KeyboardKeys(c) != {}
  }

  predicate HasPeer(controls: seq<Control>, c: Control) {
    exists i | 0 <= i < |controls| :: IsPeer(controls[i], c)
  }

  function Reconciled(controls: seq<Control>, c: Control): Control {
    if c.resolution.Unresolved? && !HasPeer(controls, c) then c.(resolution := Confirmed) else c
  }

  /** Drop the unresolved mark of every control whose question is answered. */
  function Reconcile(controls: seq<Control>): (r: seq<Control>)
    ensures |r| == |controls| && forall i | 0 <= i < |r| :: r[i] == Reconciled(controls, controls[i])
  {
    seq(|controls|, i requires 0 <= i < |controls| => Reconciled(controls, controls[i]))
  }

  /** One pass reaches the fixpoint, on any list of controls. */
  lemma ReconcileOnce(controls: seq<Control>)
    ensures Reconcile(Reconcile(controls)) == Reconcile(controls)
  {
    hide KeyboardKeys;
    var r := Reconcile(controls);
    forall i | 0 <= i < |r| ensures Reconciled(r, r[i]) == r[i] {
      if r[i].resolution.Unresolved? {
        var j :| 0 <= j < |controls| && IsPeer(controls[j], controls[i]);
        assert IsPeer(controls[i], controls[j]);
        assert HasPeer(controls, controls[j]);
        assert r[j] == controls[j] && r[i] == controls[i];
        assert IsPeer(r[j], r[i]);
      }
    }
  }

  // ----- selection and the next identity

  function FindControl(controls: seq<Control>, id: string): (r: Option<Control>)
    ensures r.Some? ==> r.value in controls && r.value.id == id
    ensures r.None? ==> forall c | c in controls :: c.id != id
  {
    if controls == [] then None
    else
      assert controls == [controls[0]] + controls[1..];
      if controls[0].id == id then Some(controls[0]) else FindControl(controls[1..], id)
  }

  function FindChannel(channels: seq<Channel>, id: string): (r: Option<Channel>)
    ensures r.Some? ==> r.value in channels && r.value.id == id
    ensures r.None? ==> !HasChannel(channels, id)
  {
    if channels == [] then None
    else if channels[0].id == id then Some(channels[0])
    else
      assert forall i | 1 <= i < |channels| :: channels[i] == channels[1..][i - 1];
      FindChannel(channels[1..], id)
  }

  function FirstChannelId(c: Control): string {
    if c.channels == [] then "" else c.channels[0].id
  }

  /** The number n of an identity `c<n>` without a leading zero. */
  function GeneratedNumber(id: string): Option<nat> {
    if |id| > 1 && id[0] == 'c' && id[1] != '0' && forall i | 1 <= i < |id| :: IsDigit(id[i])
    then
      assert forall i | 0 <= i < |id[1..]| :: id[1..][i] == id[i + 1];
      Some(Parse(id[1..]))
    else None
  }

  /** The highest number of the generated identities, unsafe integers aside. */
  function Highest(controls: seq<Control>): int {
    if controls == [] then 0
    else
      var front := Highest(controls[..|controls| - 1]);
      match GeneratedNumber(controls[|controls| - 1].id)
      case Some(n) => if n <= MAX_SAFE_INTEGER && n > front then n else front
      case None => front
  }

  function MaxInt(a: int, b: int): int {
    if a >= b then a else b
  }

  function MinInt(a: int, b: int): int {
    if a <= b then a else b
  }

  function Sanitize(d: Document): (r: Document)
    ensures 1 <= r.nextId <= MAX_SAFE_INTEGER && |r.controls| <= MAX_CONTROLS
  {
    var kept := KeepControls(d.controls, []);
    var selected := FindControl(kept, CleanString(d.selectedControl, 128));
    var channelId := CleanString(d.selectedChannel, 32);
    d.(controls := Reconcile(kept),
       selectedControl := if selected.Some? then selected.value.id else "",
       selectedChannel := if selected.None? then ""
                          else if HasChannel(selected.value.channels, channelId) then channelId
                          else FirstChannelId(selected.value),
       nextId := MaxInt(1, MinInt(MAX_SAFE_INTEGER, MaxInt(d.nextId, Highest(kept) + 1))))
  }
}
