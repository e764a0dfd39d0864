/** What the sanitizer makes of any stored document, field by field: its frames,
    channels, controls, selection and next number, and what copying does to any
    document. */
module SurfaceStored {
  import opened Options
  import opened Strings
  import opened SurfaceText
  import opened Surface
  import opened SurfaceEdits
  import opened SurfaceFrames
  import opened SurfaceStable
  import opened SurfaceSurvivors
  import opened SurfaceInvariant
  import opened SurfaceSettling

  predicate Rounded(value: real, r: real) {
    r.Floor as real == r && value - 0.5 < r <= value + 0.5
  }

  /** The nearest value within bounds that do not cross, the upper bound winning. */
  predicate Bounded(value: real, low: real, high: real, r: real) {
    r == if value < low then low else if value > high then high else value
  }

  /** A stored frame: the size within 36 and 280, the position within the board
      for that size, each to the nearest thousandth. */
  lemma FrameLaw(f: Frame) returns (x: real, y: real, width: real, height: real)
    ensures Bounded(f.width, 36000.0, 280000.0, width) && Bounded(f.height, 36000.0, 280000.0, height)
    ensures Bounded(f.x, 0.0, 1200000.0 - width, x) && Bounded(f.y, 0.0, 720000.0 - height, y)
    ensures var r := CleanFrame(f); Rounded(x, r.x) && Rounded(y, r.y) && Rounded(width, r.width) && Rounded(height, r.height)
  {
    width, height := Clamp(f.width, 36000.0, 280000.0), Clamp(f.height, 36000.0, 280000.0);
    x, y := Clamp(f.x, 0.0, BOARD_WIDTH - width), Clamp(f.y, 0.0, BOARD_HEIGHT - height);
    RealIsRounded(x);
    RealIsRounded(y);
    RealIsRounded(width);
    RealIsRounded(height);
    hide RoundReal, Rounded;
  }

  lemma RealIsRounded(value: real)
    ensures Rounded(value, RoundReal(value))
  {
    RoundSpec(value);
    RoundWhole(value);
    hide RoundReal;
  }

  /** A stored channel: its cleaned identity, its cleaned caption or else the
      identity, its claim and link as long as key and terminal are left, and its
      mark as long as a claim is. */
  lemma ChannelLaw(c: Channel)
    ensures var id := CleanString(c.id, 32);
      var key := if c.input.Keyboard? then CleanString(c.input.key, 96) else "";
      var terminal := if c.encoder.Some? then CleanString(c.encoder.value.terminalId, 32) else "";
      CleanChannel(c) == if id in {"", "__proto__", "constructor", "prototype"} then None else
        Some(Channel(id, if CleanString(c.caption, 40) == "" then id else CleanString(c.caption, 40),
          if key == "" then Unassigned else Keyboard(key, CleanString(c.input.device, 240)),
          if terminal == "" then None else
            Some(Encoder(CleanString(c.encoder.value.driver, 64), CleanString(c.encoder.value.board, 160), terminal,
                         CleanString(c.encoder.value.terminalCaption, 40), CleanString(c.encoder.value.expectedKey, 96),
                         c.encoder.value.verification)),
          c.deviceUnverified && key != ""))
  {
    hide CleanString;
  }

  /** The identity a stored control is kept under at a position. */
  function StoredId(c: Control, position: nat): string {
    if CleanString(c.id, 128) == "" then "c" + Print(position + 1) else CleanString(c.id, 128)
  }

  /** A stored control, kept at a position. */
  lemma ControlLaw(c: Control, position: nat)
    ensures var id := StoredId(c, position);
      CleanControl(c, position) == if id in {"__proto__", "constructor", "prototype"} then None else
        Some(Control(id, if CleanString(c.physicalId, 128) == "" then "physical:" + id else CleanString(c.physicalId, 128),
          c.resolution, c.kind, if CleanString(c.caption, 64) == "" then DefaultLabel(c.kind) else CleanString(c.caption, 64),
          if c.playerSlot.Some? && c.playerSlot.value in {1, 2, 3, 4} then c.playerSlot else None, c.origin, CleanFrame(c.frame),
          if SurvivingChannels(c.channels) == [] then ChannelsFor(c.kind) else CleanedChannels(SurvivingChannels(c.channels))))
  {
    CleanControlIs(c, position);
    KeptAreSurvivors(c.channels, c.kind);
    SlotIs(c.playerSlot);
    hide CleanString, CleanFrame, CleanChannels, CleanControl, DefaultLabel, Print, SurvivingChannels, CleanedChannels, CleanSlot;
  }

  lemma SlotIs(slot: Option<int>)
    ensures CleanSlot(slot) == if slot.Some? && slot.value in {1, 2, 3, 4} then slot else None
  {
  }

  /** The sanitized document: the survivors cleaned and reconciled, the
      selection as far as it still exists, and a next number beyond all. */
  lemma StoredLaw(d: Document, i: nat)
    requires i < |Survivors(d.controls)|
    ensures var r, c := Sanitize(d), Survivors(d.controls)[i];
      && |r.controls| == |Survivors(d.controls)| <= 512 && CleanControl(c, i).Some?
      && r.controls[i] == CleanControl(c, i).value.(resolution := r.controls[i].resolution)
      && (r.controls[i].resolution == c.resolution || r.controls[i].resolution == Confirmed)
      && (c.resolution == Unresolved ==> (r.controls[i].resolution == Unresolved <==> SharesOpenKey(d, i)))
  {
    hide Sanitize, KeepControls, CleanControl, Survivors, HasPeer;
    SanitizedControls(d);
    SurvivorsAreKept(d.controls);
    var kept, survivors := KeepControls(d.controls, []), Survivors(d.controls);
    forall j | 0 <= j < |kept| ensures kept[j].resolution == survivors[j].resolution {
      ResolutionIs(survivors[j], j);
    }
    assert kept[i] == CleanControl(survivors[i], i).value;
    if survivors[i].resolution == Unresolved {
      PeersAre(d, i);
    }
  }

  lemma ResolutionIs(c: Control, position: nat)
    requires CleanControl(c, position).Some?
    ensures CleanControl(c, position).value.resolution == c.resolution
  {
    hide CleanString, CleanFrame, CleanChannels, CleanSlot;
  }

  /** Another surviving open question shares one of its keys. */
  ghost predicate SharesOpenKey(d: Document, i: nat)
    requires i < |Survivors(d.controls)| == |Sanitize(d).controls|
  {
    var r, survivors := Sanitize(d).controls, Survivors(d.controls);
    exists j | 0 <= j < |survivors| :: survivors[j].resolution == Unresolved && r[j].id != r[i].id && KeyboardKeys(r[j]) * KeyboardKeys(r[i]) != {}
  }

  lemma PeersAre(d: Document, i: nat)
    requires i < |Survivors(d.controls)| == |KeepControls(d.controls, [])| == |Sanitize(d).controls|
    requires Sanitize(d).controls == Reconcile(KeepControls(d.controls, []))
    requires forall j | 0 <= j < |Survivors(d.controls)| :: KeepControls(d.controls, [])[j].resolution == Survivors(d.controls)[j].resolution
    ensures HasPeer(KeepControls(d.controls, []), KeepControls(d.controls, [])[i]) <==> SharesOpenKey(d, i)
  {
    hide Sanitize, KeepControls, Survivors, KeyboardKeys;
    var kept, r, survivors := KeepControls(d.controls, []), Sanitize(d).controls, Survivors(d.controls);
    forall j | 0 <= j < |kept| ensures KeyboardKeys(r[j]) == KeyboardKeys(kept[j]) && r[j].id == kept[j].id {
      KeysStay(kept, kept[j]);
    }
    if HasPeer(kept, kept[i]) {
      var j :| 0 <= j < |kept| && IsPeer(kept[j], kept[i]);
      assert survivors[j].resolution == Unresolved;
    }
    if SharesOpenKey(d, i) {
      var j :| 0 <= j < |survivors| && survivors[j].resolution == Unresolved && r[j].id != r[i].id && KeyboardKeys(r[j]) * KeyboardKeys(r[i]) != {};
      assert IsPeer(kept[j], kept[i]);
    }
  }

  lemma KeysStay(all: seq<Control>, c: Control)
    ensures KeyboardKeys(Reconciled(all, c)) == KeyboardKeys(c) && Reconciled(all, c).id == c.id
  {
    hide HasPeer;
  }

  /** The next number: at least the stored one and beyond every generated number
      that is safe, no more than that takes, and safe itself. */
  lemma NextLaw(d: Document)
    ensures var r := Sanitize(d);
      && 1 <= r.nextId <= 9007199254740991
      && (r.nextId < 9007199254740991 ==> r.nextId >= d.nextId)
      && (forall c, n | c in r.controls && GeneratedNumber(c.id) == Some(n) && n < 9007199254740991 :: n < r.nextId)
      && (r.nextId == 1 || r.nextId == d.nextId || (r.nextId == 9007199254740991 && d.nextId > r.nextId)
          || exists c :: c in r.controls && (GeneratedNumber(c.id) == Some(r.nextId - 1)
                                             || (r.nextId == 9007199254740991 && GeneratedNumber(c.id) == Some(r.nextId))))
  {
    hide KeepControls, GeneratedNumber, Reconciled, CleanString;
    SanitizedControls(d);
    var kept := KeepControls(d.controls, []);
    HighestIs(kept);
    HighestOfReconciled(kept, kept, Sanitize(d).controls);
    HighestIs(Sanitize(d).controls);
  }

  lemma {:induction false} HighestIs(controls: seq<Control>)
    ensures 0 <= Highest(controls) <= MAX_SAFE_INTEGER
    ensures forall c, n | c in controls && GeneratedNumber(c.id) == Some(n) && n <= MAX_SAFE_INTEGER :: n <= Highest(controls)
    ensures Highest(controls) == 0 || exists c :: c in controls && GeneratedNumber(c.id) == Some(Highest(controls))
  {
    hide GeneratedNumber;
    if controls != [] {
      var front, last := controls[..|controls| - 1], controls[|controls| - 1];
      HighestIs(front);
      assert controls == front + [last];
    }
  }

  /** Exactly the identities c1, c2, ... are generated. */
  lemma GeneratedIff(id: string, n: nat)
    requires n >= 1
    ensures GeneratedNumber(id) == Some(n) <==> id == "c" + Print(n)
  {
    GeneratedNumberOf(n);
    if GeneratedNumber(id) == Some(n) {
      var digits := id[1..];
      assert forall i | 0 <= i < |digits| :: digits[i] == id[i + 1];
      PrintParse(digits);
      assert id == "c" + digits;
    }
  }

  /** Printing a parsed number without a leading zero gives its digits back. */
  lemma {:induction false} PrintParse(s: string)
    requires s != [] && s[0] != '0' && forall i | 0 <= i < |s| :: IsDigit(s[i])
    ensures Parse(s) > 0 && Print(Parse(s)) == s
  {
    var front, last := s[..|s| - 1], s[|s| - 1] as int - '0' as int;
    assert Parse(s) == 10 * Parse(front) + last;
    assert Digit(last) == s[|s| - 1];
    if front != [] {
      PrintParse(front);
      assert Parse(s) / 10 == Parse(front) && Parse(s) % 10 == last;
    }
  }

  /** The selection of the sanitized document. */
  lemma SelectionLaw(d: Document)
    ensures var r, id, channel := Sanitize(d), CleanString(d.selectedControl, 128), CleanString(d.selectedChannel, 32);
      match FindControl(r.controls, id)
      case None => r.selectedControl == "" && r.selectedChannel == ""
      case Some(c) =>
        && r.selectedControl == id
        && r.selectedChannel == if exists m | 0 <= m < |c.channels| :: c.channels[m].id == channel then channel
                                else if c.channels == [] then "" else c.channels[0].id
  {
    hide CleanString, KeepControls, Highest, HasPeer, MaxInt, MinInt;
    var kept := KeepControls(d.controls, []);
    SanitizedControls(d);
    FindInReconciled(kept, kept, Sanitize(d).controls, CleanString(d.selectedControl, 128));
  }

  /** The sanitizer leaves all else of a document alone. */
  lemma RestLaw(d: Document)
    ensures var r := Sanitize(d);
      r.started == d.started && r.template == d.template && r.panelLayout == d.panelLayout && r.stage == d.stage
  {
    hide CleanString, KeepControls, Highest, Reconcile, MaxInt, MinInt;
  }

  // ----- copies in any document

  lemma OpenCameOpen(raw: seq<Control>, c: Control)
    requires c in Reconcile(KeepControls(raw, [])) && c.resolution.Unresolved?
    ensures exists s, n: nat :: s in raw && s.resolution.Unresolved? && CleanControl(s, n) == Some(c)
  {
    hide KeepControls, CleanControl, SurvivorsFrom, HasPeer;
    var kept, survivors := KeepControls(raw, []), Survivors(raw);
    SurvivorsAreKept(raw);
    SurvivorsAmong(raw, []);
    var i :| 0 <= i < |kept| && Reconcile(kept)[i] == c;
    assert c == kept[i] && CleanControl(survivors[i], i) == Some(c);
    ResolutionIs(survivors[i], i);
    assert survivors[i] in raw;
  }

  /** In any document, what stays open after mirroring a resolved control was an
      open question about another switch; and duplicating answers nothing that
      adding a control under the next number would not. */
  lemma CopyAnswers(d: Document, id: string, mode: Mode) returns (copy: Control)
    requires var safe := Sanitize(d);
      |safe.controls| < 512 && FindControl(safe.controls, id).Some? && FindControl(safe.controls, id).value.resolution == Confirmed
    ensures var safe, source := Sanitize(d), FindControl(Sanitize(d).controls, id).value;
      && (mode == Mirror ==> forall c | c in Copy(d, id, mode).controls && c.resolution == Unresolved ::
            exists s, n: nat :: s in safe.controls && s.physicalId != source.physicalId && s.resolution == Unresolved
                                && CleanControl(s, n) == Some(c))
      && (mode == Duplicate ==>
            copy.resolution == Confirmed && copy.id == "c" + Print(safe.nextId)
            && Copy(d, id, mode).controls == Sanitize(safe.(controls := safe.controls + [copy])).controls)
  {
    hide Sanitize, KeepControls, CleanControl, Reconcile, Copy, CopyOf, Print;
    var safe, source := Sanitize(d), FindControl(Sanitize(d).controls, id).value;
    copy := CopyOf(source, mode, safe.nextId);
    var r := safe.(controls := Each(safe.controls, c => Answered(c, source, mode)) + [copy]);
    CopyIsSanitized(d, id, mode);
    CopyIsConfirmed(source, mode, safe.nextId);
    SanitizedControls(r);
    if mode == Mirror {
      forall c | c in Sanitize(r).controls && c.resolution == Unresolved
        ensures exists s, n: nat :: s in safe.controls && s.physicalId != source.physicalId && s.resolution == Unresolved
                                    && CleanControl(s, n) == Some(c)
      {
        OpenCameOpen(r.controls, c);
        var s, n: nat :| s in r.controls && s.resolution.Unresolved? && CleanControl(s, n) == Some(c);
        assert s in safe.controls && s.physicalId != source.physicalId;
      }
    } else {
      assert r.controls == safe.controls + [copy];
    }
  }

  lemma CopyIsConfirmed(source: Control, mode: Mode, n: nat)
    ensures CopyOf(source, mode, n).resolution == Confirmed && CopyOf(source, mode, n).id == "c" + Print(n)
  {
    hide Print, Clamp;
  }

  lemma CopyIsSanitized(d: Document, id: string, mode: Mode)
    requires var safe := Sanitize(d);
      |safe.controls| < 512 && FindControl(safe.controls, id).Some? && FindControl(safe.controls, id).value.resolution == Confirmed
    ensures var safe, source := Sanitize(d), FindControl(Sanitize(d).controls, id).value;
      Copy(d, id, mode).controls
      == Sanitize(safe.(controls := Each(safe.controls, c => Answered(c, source, mode)) + [CopyOf(source, mode, safe.nextId)])).controls
  {
    hide Sanitize, CopyOf, Answered, FirstChannelId, Reconcile, KeepControls;
    var safe, source := Sanitize(d), FindControl(Sanitize(d).controls, id).value;
    var copy := CopyOf(source, mode, safe.nextId);
    var controls := Each(safe.controls, c => Answered(c, source, mode)) + [copy];
    SanitizedControls(safe.(controls := controls));
    SanitizedControls(safe.(template := Custom, controls := controls, selectedControl := copy.id,
                            selectedChannel := FirstChannelId(copy), nextId := safe.nextId + 1));
  }
}
