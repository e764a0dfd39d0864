/** The switch a migrated key belongs to: what cleaning makes of "key:" and
    the key, and that it still tells the cleaned key. */
module SurfaceKeys {
  import opened Strings
  import opened SurfaceText

  /** The space that separates the prefix from a key written with white space
      in front, when there is anything else to it. */
  function Lead(s: string): string {
    if s != [] && IsSpace(s[0]) && Trim(s) != [] then [' '] else []
  }

  lemma TrimEndOfCons(c: char, s: string)
    ensures TrimEnd([c] + s) == if TrimEnd(s) == [] && IsSpace(c) then [] else [c] + TrimEnd(s)
    decreases |s|
  {
    var r := [c] + s;
    if s != [] && IsSpace(s[|s| - 1]) {
      assert r[..|r| - 1] == [c] + s[..|s| - 1];
      TrimEndOfCons(c, s[..|s| - 1]);
    } else if s == [] {
      assert r[..0] == [];
    }
  }

  lemma TrimSkipsSpace(s: string)
    requires s != [] && IsSpace(s[0])
    ensures Trim(s) == Trim(s[1..])
    ensures TrimEnd(s) == if TrimEnd(s[1..]) == [] then [] else [s[0]] + TrimEnd(s[1..])
  {
    assert s == [s[0]] + s[1..];
    TrimEndOfCons(s[0], s[1..]);
  }

  lemma TrimOfStarted(s: string)
    requires s != [] && !IsSpace(s[0])
    ensures Trim(s) == TrimEnd(s) != []
  {
    assert s == [s[0]] + s[1..];
    TrimEndOfCons(s[0], s[1..]);
  }

  lemma CollapseSkipsSpace(c: char, s: string)
    requires s != [] && IsSpace(c)
    ensures Collapse([c] + s) == if IsSpace(s[0]) then Collapse(s) else [' '] + Collapse(s)
  {
    assert ([c] + s)[1..] == s;
  }

  lemma NothingToTrim()
    ensures Trim([]) == [] && Collapse([]) == []
  {
  }

  lemma CollapseIsEmpty(s: string)
    ensures Collapse(s) == [] <==> s == []
  {
  }

  /** Leading white space survives as one space when only the end is trimmed. */
  lemma {:induction false} TrimmedLead(s: string)
    ensures Collapse(TrimEnd(s)) == Lead(s) + Collapse(Trim(s))
    ensures TrimEnd(s) == [] <==> Trim(s) == []
  {
    hide IsSpace, Trim, Collapse;
    if s == [] {
      NothingToTrim();
    } else if !IsSpace(s[0]) {
      TrimOfStarted(s);
    } else {
      TrimmedLead(s[1..]);
      TrimSkipsSpace(s);
      var rest := TrimEnd(s[1..]);
      TrimEndSpec(s[1..]);
      CollapseIsEmpty(rest);
      if rest != [] {
        CollapseSkipsSpace(s[0], rest);
        assert rest[0] == s[1];
      }
    }
  }

  lemma {:induction false} StripOfConcat(p: string, s: string)
    requires NoControls(p)
    ensures StripControls(p + s) == p + StripControls(s)
  {
    hide IsControl;
    if p == [] {
      assert p + s == s;
    } else {
      assert (p + s)[1..] == p[1..] + s;
      StripOfConcat(p[1..], s);
    }
  }

  lemma TrimOfWord(p: string, s: string)
    requires p != [] && forall i | 0 <= i < |p| :: !IsSpace(p[i])
    ensures Trim(p + s) == p + TrimEnd(s)
  {
    assert TrimStart(p + s) == p + s;
    TrimEndOfWord(p, s);
  }

  lemma {:induction false} TrimEndOfWord(p: string, s: string)
    requires forall i | 0 <= i < |p| :: !IsSpace(p[i])
    ensures TrimEnd(p + s) == p + TrimEnd(s)
  {
    hide IsSpace, TrimEnd;
    if p == [] {
      assert p + s == s;
    } else {
      var rest := p[1..];
      assert p + s == [p[0]] + (rest + s);
      TrimEndOfCons(p[0], rest + s);
      TrimEndOfWord(rest, s);
      assert [p[0]] + (rest + TrimEnd(s)) == p + TrimEnd(s);
    }
  }

  lemma {:induction false} CollapseOfWord(p: string, s: string)
    requires forall i | 0 <= i < |p| :: !IsSpace(p[i])
    ensures Collapse(p + s) == p + Collapse(s)
  {
    hide IsSpace;
    if p == [] {
      assert p + s == s;
    } else {
      assert (p + s)[1..] == p[1..] + s;
      CollapseOfWord(p[1..], s);
    }
  }

  const PREFIX := "key:"

  lemma PrefixIsWord()
    ensures NoControls(PREFIX) && forall i | 0 <= i < 4 :: !IsSpace(PREFIX[i])
  {
  }

  /** What cleaning makes of prefixed text before it is cut. */
  lemma NormalOfPrefixed(word: string, text: string)
    requires word != [] && NoControls(word) && forall i | 0 <= i < |word| :: !IsSpace(word[i])
    ensures Normal(word + text) == word + Lead(StripControls(text)) + Normal(text)
  {
    hide IsSpace, IsControl, NoControls, StripControls, Trim, TrimEnd, Collapse, Lead;
    var s := StripControls(text);
    StripOfConcat(word, text);
    TrimOfWord(word, s);
    CollapseOfWord(word, TrimEnd(s));
    TrimmedLead(s);
    assert Normal(word + text) == word + (Lead(s) + Collapse(Trim(s)));
  }

  /** The switch of a migrated key, once the document is stored. */
  function SwitchOf(key: string): string {
    CleanString(CleanString(PREFIX + key, 128), 128)
  }

  /** The key a switch stands for. */
  function KeyOf(switch: string): string {
    if |switch| <= 4 then "" else Cut(if switch[4] == ' ' then switch[5..] else switch[4..], 96)
  }

  /** Cleaning twice yields the normal text, or a prefix of it that is short of
      `max` characters by one at most. */
  lemma CleanTwiceIs(s: string, max: nat)
    requires max > 0
    ensures var r := CleanString(CleanString(s, max), max);
      r <= Normal(s) && (|r| < max - 1 ==> r == Normal(s)) && |r| <= max
  {
    NormalIsTidy(s);
    CleanIsSmooth(s, max);
    hide IsSpace, IsControl, Normal, Smooth;
    NormalOfSmooth(CleanString(s, max));
  }

  /** The switch starts with the prefix and still tells the cleaned key: keys
      that share a switch are cleaned alike. */
  lemma SwitchTellsKey(key: string)
    ensures PREFIX <= SwitchOf(key) && Settled(SwitchOf(key), 128)
    ensures KeyOf(SwitchOf(key)) == CleanString(key, 96)
  {
    hide Normal, CleanString, Lead, Settled, NoControls, IsSpace;
    var switch, text := SwitchOf(key), Normal(key);
    CleanTwiceSettles(PREFIX + key, 128);
    CleanTwiceIs(PREFIX + key, 128);
    PrefixIsWord();
    NormalOfPrefixed(PREFIX, key);
    LeadIsSpace(key);
    CutOfNormal(key);
    var lead := Lead(StripControls(key));
    assert Normal(PREFIX + key) == PREFIX + lead + text;
    PrefixIsShared(switch, lead, text);
    SameCut(switch, lead, text);
  }

  lemma CutOfNormal(key: string)
    ensures CleanString(key, 96) == Cut(Normal(key), 96)
  {
    hide Normal;
  }

  lemma LeadIsSpace(key: string)
    ensures var lead := Lead(StripControls(key));
      (lead == [] || (lead == [' '] && Normal(key) != [])) && (Normal(key) != [] ==> Normal(key)[0] != ' ')
  {
    NormalIsTidy(key);
    CollapseIsEmpty(Trim(StripControls(key)));
    assert IsSpace(' ');
    hide IsSpace, IsControl, NoSpacePair, Trim, StripControls, Collapse;
  }

  lemma PrefixIsShared(switch: string, lead: string, text: string)
    requires switch <= PREFIX + lead + text && (|switch| < 127 ==> switch == PREFIX + lead + text)
    ensures PREFIX <= switch
  {
    assert forall i | 0 <= i < 4 :: (PREFIX + lead + text)[i] == PREFIX[i];
  }

  lemma SameCut(switch: string, lead: string, text: string)
    requires switch <= PREFIX + lead + text && (|switch| < 127 ==> switch == PREFIX + lead + text)
    requires (lead == [] || (lead == [' '] && text != [])) && (text != [] ==> text[0] != ' ')
    ensures KeyOf(switch) == Cut(text, 96)
  {
    var all := PREFIX + lead + text;
    var k := 4 + |lead|;
    assert all[k..] == text;
    if |switch| > 4 {
      assert switch[4] == all[4] == if lead == [] then text[0] else ' ';
      assert switch[k..] <= text by {
        assert switch == all[..|switch|];
        assert switch[k..] == all[k..][..|switch| - k];
      }
      if |switch| < 127 {
        assert switch[k..] == text;
      } else {
        assert switch[k..][..96] == text[..96];
      }
    }
  }
}
