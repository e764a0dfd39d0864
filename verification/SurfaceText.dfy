/** String cleaning (`cleanString`). */
module SurfaceText {
  // For text whose compatibility normalization is itself: what cleaning yields,
  // when cleaning again changes nothing, and that cleaning twice always settles.

  import opened Strings

  predicate IsControl(c: char) {
    c as int <= 0x1F || c as int == 0x7F
  }

  function StripControls(s: string): string {
    if s == [] then []
    else (if IsControl(s[0]) then [] else [s[0]]) + StripControls(s[1..])
  }

  /** Every run of white space becomes one space. */
  function Collapse(s: string): string {
    if s == [] then []
    else if !IsSpace(s[0]) then [s[0]] + Collapse(s[1..])
    else if |s| > 1 && IsSpace(s[1]) then Collapse(s[1..])
    else [' '] + Collapse(s[1..])
  }

  function Normal(s: string): string {
    Collapse(Trim(StripControls(s)))
  }

  function Cut(s: string, max: nat): string {
    if |s| <= max then s else s[..max]
  }

  function CleanString(s: string, max: nat): string {
    Cut(Normal(s), max)
  }

  /** Two neighbouring white-space characters start at `i`. */
  predicate SpacePair(s: string, i: nat)
    requires i + 1 < |s|
  {
    IsSpace(s[i]) && IsSpace(s[i + 1])
  }

  predicate NoSpacePair(s: string) {
    forall i | 0 <= i < |s| - 1 :: !SpacePair(s, i)
  }

  /** No control characters, no white space but single spaces, and none in
      front: a prefix of a tidy string. */
  predicate Smooth(s: string) {
    && (forall i | 0 <= i < |s| :: !IsControl(s[i]) && (IsSpace(s[i]) ==> s[i] == ' '))
    && NoSpacePair(s)
    && (s != [] ==> !IsSpace(s[0]))
  }

  predicate Tidy(s: string) {
    Smooth(s) && (s != [] ==> !IsSpace(s[|s| - 1]))
  }

  /** What cleaning leaves as it is (see `SettledMeans`). */
  predicate Settled(s: string, max: nat) {
    Tidy(s) && |s| <= max
  }

  lemma {:induction false} StripSpec(s: string)
    ensures forall i | 0 <= i < |StripControls(s)| :: !IsControl(StripControls(s)[i])
    ensures (forall i | 0 <= i < |s| :: !IsControl(s[i])) ==> StripControls(s) == s
  {
    if s != [] {
      StripSpec(s[1..]);
      assert s == [s[0]] + s[1..];
    }
  }

  /** Collapsing text without control characters. */
  lemma {:induction false} CollapseSpec(s: string)
    requires forall i | 0 <= i < |s| :: !IsControl(s[i])
    ensures var r := Collapse(s);
      && (r == [] <==> s == [])
      && (s != [] ==> (IsSpace(r[0]) <==> IsSpace(s[0])) && (IsSpace(r[|r| - 1]) <==> IsSpace(s[|s| - 1])))
      && (forall i | 0 <= i < |r| :: !IsControl(r[i]) && (IsSpace(r[i]) ==> r[i] == ' '))
      && NoSpacePair(r)
  {
    assert IsSpace(' ') && !IsControl(' ');
    hide IsSpace, IsControl;
    if s != [] {
      var r, rest := Collapse(s), Collapse(s[1..]);
      CollapseSpec(s[1..]);
      forall i | 0 <= i < |r| - 1 ensures !SpacePair(r, i) {
        if r != rest && i > 0 {
          assert !SpacePair(rest, i - 1);
        } else if r == rest {
          assert !SpacePair(rest, i);
        }
      }
    }
  }

  lemma {:induction false} CollapseOfSpaced(s: string)
    requires forall i | 0 <= i < |s| :: IsSpace(s[i]) ==> s[i] == ' '
    requires NoSpacePair(s)
    ensures Collapse(s) == s
  {
    hide IsSpace;
    if s != [] {
      SuffixHasNoPair(s, 1);
      if |s| > 1 {
        assert !SpacePair(s, 0);
      }
      CollapseOfSpaced(s[1..]);
      assert s == [s[0]] + s[1..];
    }
  }

  lemma SuffixHasNoPair(s: string, k: nat)
    requires NoSpacePair(s) && k <= |s|
    ensures NoSpacePair(s[k..]) && NoSpacePair(s[..k])
  {
    hide IsSpace;
    forall i | 0 <= i < |s[k..]| - 1 ensures !SpacePair(s[k..], i) {
      assert !SpacePair(s, k + i);
    }
    forall i | 0 <= i < |s[..k]| - 1 ensures !SpacePair(s[..k], i) {
      assert !SpacePair(s, i);
    }
  }

  /** A prefix of smooth text is smooth. */
  lemma SmoothPrefix(s: string, k: nat)
    requires Smooth(s) && k <= |s|
    ensures Smooth(s[..k])
  {
    hide IsSpace, IsControl, NoSpacePair;
    SuffixHasNoPair(s, k);
  }

  lemma TrimOfSmooth(s: string)
    requires Smooth(s)
    ensures Trim(s) == if s != [] && IsSpace(s[|s| - 1]) then s[..|s| - 1] else s
  {
    hide IsSpace, IsControl, NoSpacePair;
    assert TrimStart(s) == s;
    if |s| > 1 && IsSpace(s[|s| - 1]) {
      NoPairAtEnd(s);
      var front := s[..|s| - 1];
      assert front[|front| - 1] == s[|s| - 2];
      assert TrimEnd(front) == front;
    }
  }

  lemma NoPairAtEnd(s: string)
    requires NoSpacePair(s) && |s| > 1 && IsSpace(s[|s| - 1])
    ensures !IsSpace(s[|s| - 2])
  {
    hide IsSpace;
    assert !SpacePair(s, |s| - 2);
  }

  /** Normal text is tidy. */
  lemma NormalIsTidy(s: string)
    ensures Tidy(Normal(s))
  {
    hide IsControl, IsSpace, Collapse, StripControls, Trim, NoSpacePair;
    StripSpec(s);
    TrimSpec(StripControls(s));
    CollapseSpec(Trim(StripControls(s)));
  }

  predicate NoControls(s: string) {
    forall i | 0 <= i < |s| :: !IsControl(s[i])
  }

  lemma SliceHasNoControls(s: string, k: nat)
    requires NoControls(s) && k <= |s|
    ensures NoControls(s[k..]) && NoControls(s[..k])
  {
    hide IsControl;
  }

  /** Trimming leaves no white space at either end and adds nothing. */
  lemma TrimSpec(s: string)
    requires NoControls(s)
    ensures NoControls(Trim(s))
    ensures Trim(s) != [] ==> !IsSpace(Trim(s)[0]) && !IsSpace(Trim(s)[|Trim(s)| - 1])
  {
    hide IsControl, IsSpace, NoControls, TrimStart, TrimEnd;
    var started := TrimStart(s);
    var r := TrimEnd(started);
    TrimStartSpec(s);
    TrimEndSpec(started);
    SliceHasNoControls(s, |s| - |started|);
    assert NoControls(started);
    SliceHasNoControls(started, |r|);
    assert r == started[..|r|];
    assert Trim(s) == r;
    if r != [] {
      assert r[0] == started[0];
    }
  }

  /** Cleaning smooth text only drops a trailing space. */
  lemma NormalOfSmooth(s: string)
    requires Smooth(s)
    ensures Normal(s) == if s != [] && IsSpace(s[|s| - 1]) then s[..|s| - 1] else s
  {
    hide IsControl, IsSpace, Collapse, StripControls, NoSpacePair, Trim;
    StripSpec(s);
    TrimOfSmooth(s);
    var trimmed := Trim(s);
    SmoothPrefix(s, |trimmed|);
    assert trimmed == s[..|trimmed|];
    CollapseOfSpaced(trimmed);
  }

  lemma CleanIsSmooth(s: string, max: nat)
    ensures Smooth(CleanString(s, max)) && |CleanString(s, max)| <= max
  {
    hide IsSpace, IsControl;
    NormalIsTidy(s);
    hide Normal, Smooth;
    var n := Normal(s);
    SmoothPrefix(n, if |n| <= max then |n| else max);
    assert n[..|n|] == n;
  }

  /** A string is settled exactly when cleaning leaves it as it is. */
  lemma SettledMeans(s: string, max: nat)
    ensures Settled(s, max) <==> CleanString(s, max) == s
  {
    hide IsSpace, IsControl, Normal;
    if CleanString(s, max) == s {
      CleanIsSmooth(s, max);
      NormalOfSmooth(s);
    }
    if Settled(s, max) {
      NormalOfSmooth(s);
    }
  }

  /** Cleaning twice always settles, and never empties what cleaning once kept. */
  lemma CleanTwiceSettles(s: string, max: nat)
    ensures Settled(CleanString(CleanString(s, max), max), max)
    ensures CleanString(CleanString(s, max), max) == "" <==> CleanString(s, max) == ""
  {
    hide IsSpace, IsControl, Normal;
    CleanIsSmooth(s, max);
    NormalOfSmooth(CleanString(s, max));
    NormalIsTidy(CleanString(s, max));
  }

  /** The cut does not fall behind a space. */
  predicate TextSettles(s: string, max: nat) {
    |Normal(s)| <= max || max == 0 || Normal(s)[max - 1] != ' '
  }

  /** Cleaning is idempotent exactly when the cut does not fall behind a space. */
  lemma CleanIsIdempotentIff(s: string, max: nat)
    ensures CleanString(CleanString(s, max), max) == CleanString(s, max) <==> TextSettles(s, max)
  {
    NormalIsTidy(s);
    hide IsControl, Normal;
    CleanIsSmooth(s, max);
    NormalOfSmooth(CleanString(s, max));
  }

  predicate IsLetter(c: char) {
    'A' <= c <= 'Z' || 'a' <= c <= 'z'
  }

  predicate Word(s: string) {
    forall i | 0 <= i < |s| :: IsLetter(s[i])
  }

  lemma WordIsTidy(s: string)
    requires Word(s)
    ensures Tidy(s)
  {
    assert forall i | 0 <= i < |s| :: IsLetter(s[i]) ==> !IsSpace(s[i]) && !IsControl(s[i]);
  }

  lemma SpacedIsTidy(first: string, second: string)
    requires Word(first) && Word(second) && first != [] && second != []
    ensures Tidy(first + " " + second)
  {
    WordIsTidy(first);
    WordIsTidy(second);
    var r := first + " " + second;
    assert forall i | 0 <= i < |first| :: r[i] == first[i];
    assert r[|first|] == ' ';
    assert forall i | 0 <= i < |second| :: r[|first| + 1 + i] == second[i];
    forall i | 0 <= i < |r| - 1 ensures !SpacePair(r, i) {
      assert i < |first| ==> !IsSpace(first[i]);
      assert i == |first| ==> !IsSpace(second[0]);
      assert i > |first| ==> !IsSpace(second[i - |first| - 1]);
    }
    assert forall i | 0 <= i < |r| :: !IsControl(r[i]) && (IsSpace(r[i]) ==> r[i] == ' ');
  }

  lemma TidyIsCut(s: string, max: nat)
    requires Tidy(s) && |s| > max
    ensures CleanString(s, max) == s[..max]
  {
    hide Smooth, Normal;
    NormalOfSmooth(s);
  }

  lemma SpaceIsDropped(s: string, max: nat)
    requires Smooth(s) && 0 < |s| <= max && s[|s| - 1] == ' '
    ensures CleanString(s, max) == s[..|s| - 1]
  {
    SpaceIsSpace();
    hide Smooth, Normal, IsSpace;
    NormalOfSmooth(s);
  }

  lemma SpaceIsSpace()
    ensures IsSpace(' ')
  {
  }

  function Letters(n: nat): (r: string)
    ensures |r| == n && Word(r)
  {
    seq(n, _ => 'a')
  }

  /** A word that leaves room for one character, a space and a letter more. */
  function Spaced(max: nat): string
    requires max >= 1
  {
    Letters(max - 1) + " " + Letters(1)
  }

  /** At every limit there is text that cleaning does not settle at once: the
      cut leaves a space at the end, which the next cleaning drops. */
  lemma CleanIsNotIdempotent(max: nat)
    requires max >= 2
    ensures CleanString(Spaced(max), max) == Letters(max - 1) + " "
    ensures CleanString(Letters(max - 1) + " ", max) == Letters(max - 1)
    ensures CleanString(Letters(max - 1), max) == Letters(max - 1)
  {
    var first, cut := Letters(max - 1), Letters(max - 1) + " ";
    SpacedIsTidy(first, Letters(1));
    WordIsTidy(first);
    hide Tidy, CleanString, Smooth, Letters, Word;
    assert Spaced(max)[..max] == cut && cut[..max - 1] == first;
    TidyIsCut(Spaced(max), max);
    CleanIsSmooth(Spaced(max), max);
    SpaceIsDropped(cut, max);
    SettledMeans(first, max);
  }

  /** Prefixing tidy text with a word ending in a colon keeps it tidy. */
  lemma PrefixedIsTidy(prefix: string, s: string)
    requires Tidy(prefix) && Tidy(s) && prefix != []
    ensures Tidy(prefix + s)
  {
    hide IsSpace, IsControl;
    var r := prefix + s;
    assert forall i | 0 <= i < |prefix| :: r[i] == prefix[i];
    assert forall i | 0 <= i < |s| :: r[|prefix| + i] == s[i];
    forall i | 0 <= i < |r| - 1 ensures !SpacePair(r, i) {
      if i + 1 < |prefix| {
        assert !SpacePair(prefix, i);
      } else if i >= |prefix| {
        assert !SpacePair(s, i - |prefix|);
      }
    }
  }

  lemma DigitsAreTidy(n: nat)
    ensures Tidy(Print(n))
  {
  }

  function Pow10(k: nat): nat {
    if k == 0 then 1 else 10 * Pow10(k - 1)
  }

  lemma {:induction false} PrintLength(n: nat, k: nat)
    requires k > 0 && n < Pow10(k)
    ensures |Print(n)| <= k
  {
    if k == 1 {
      assert Pow10(1) == 10 * Pow10(0);
    } else if n >= 10 {
      PrintLength(n / 10, k - 1);
    }
  }
}
