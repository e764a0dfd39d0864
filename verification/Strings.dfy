/** String operations. */
module Strings {
  // What the Studio's pure modules share: trimming, lower casing, splitting,
  // decimal printing and parsing, first-occurrence lists and stable sorting.
  // Characters are Unicode scalar values.

  /** The white space and line terminators JavaScript trims. */
  predicate IsSpace(c: char) {
    var n := c as int;
    || 0x09 <= n <= 0x0D || n == 0x20 || n == 0xA0 || n == 0x1680
    || 0x2000 <= n <= 0x200A || n == 0x2028 || n == 0x2029
    || n == 0x202F || n == 0x205F || n == 0x3000 || n == 0xFEFF
  }

  function TrimStart(s: string): string {
    if s != [] && IsSpace(s[0]) then TrimStart(s[1..]) else s
  }

  function TrimEnd(s: string): string {
    if s != [] && IsSpace(s[|s| - 1]) then TrimEnd(s[..|s| - 1]) else s
  }

  function Trim(s: string): string {
    TrimEnd(TrimStart(s))
  }

  lemma {:induction false} TrimStartSpec(s: string)
    ensures var r := TrimStart(s); (r == [] || !IsSpace(r[0])) && |r| <= |s| && r == s[|s| - |r|..]
  {
    hide IsSpace;
    if s != [] && IsSpace(s[0]) {
      TrimStartSpec(s[1..]);
    }
  }

  lemma {:induction false} TrimEndSpec(s: string)
    ensures var r := TrimEnd(s); (r == [] || !IsSpace(r[|r| - 1])) && r <= s
  {
    hide IsSpace;
    if s != [] && IsSpace(s[|s| - 1]) {
      TrimEndSpec(s[..|s| - 1]);
    }
  }

  /** Lower casing of the basic Latin letters. */
  function Lower(s: string): (r: string)
    ensures |r| == |s|
  {
    if s == [] then []
    else [if 'A' <= s[0] <= 'Z' then (s[0] as int + 32) as char else s[0]] + Lower(s[1..])
  }

  /** The maximal pieces of `s` between occurrences of `separator`. */
  function Split(s: string, separator: char): (pieces: seq<string>)
    ensures |pieces| > 0
  {
    if s == [] then [[]]
    else
      var rest := Split(s[1..], separator);
      if s[0] == separator then [[]] + rest else [[s[0]] + rest[0]] + rest[1..]
  }

  /** The parts of `parts` with `separator` between them. */
  function Join(parts: seq<string>, separator: string): string {
    if parts == [] then [] else if |parts| == 1 then parts[0]
    else parts[0] + separator + Join(parts[1..], separator)
  }

  ghost predicate Lacks(s: string, c: char) {
    forall i | 0 <= i < |s| :: s[i] != c
  }

  ghost predicate AllLack(parts: seq<string>, c: char) {
    forall i | 0 <= i < |parts| :: Lacks(parts[i], c)
  }

  lemma LacksConcat(a: string, b: string, c: char)
    ensures Lacks(a + b, c) <==> Lacks(a, c) && Lacks(b, c)
  {
    if Lacks(a + b, c) {
      assert forall i | 0 <= i < |a| :: (a + b)[i] == a[i];
      assert forall i | 0 <= i < |b| :: (a + b)[|a| + i] == b[i];
    }
  }

  lemma {:induction false} FirstPartIsDetermined(a: string, x: string, b: string, y: string, c: char)
    requires Lacks(a, c) && Lacks(b, c)
    requires a + [c] + x == b + [c] + y
    ensures a == b && x == y
  {
    var l, r := a + [c] + x, b + [c] + y;
    assert a == [] ==> l[0] == c;
    assert b == [] ==> r[0] == c;
    assert a != [] ==> l[0] == a[0];
    assert b != [] ==> r[0] == b[0];
    if a == [] {
      assert l[1..] == x && r[1..] == y;
    } else {
      assert l[1..] == a[1..] + [c] + x && r[1..] == b[1..] + [c] + y;
      FirstPartIsDetermined(a[1..], x, b[1..], y, c);
      assert a == [a[0]] + a[1..] && b == [b[0]] + b[1..];
    }
  }

  lemma SeparatorMeansMore(a: seq<string>, c: char)
    requires a != [] && AllLack(a, c)
    ensures Lacks(Join(a, [c]), c) <==> |a| == 1
  {
    if |a| > 1 {
      assert Join(a, [c])[|a[0]|] == c;
    }
  }

  /** Joining separator-free parts with a one-character separator loses nothing. */
  lemma {:induction false} JoinIsInjective(a: seq<string>, b: seq<string>, c: char)
    requires a != [] && b != []
    requires AllLack(a, c) && AllLack(b, c)
    requires Join(a, [c]) == Join(b, [c])
    ensures a == b
  {
    SeparatorMeansMore(a, c);
    SeparatorMeansMore(b, c);
    if |a| > 1 {
      FirstPartIsDetermined(a[0], Join(a[1..], [c]), b[0], Join(b[1..], [c]), c);
      JoinIsInjective(a[1..], b[1..], c);
      assert a == [a[0]] + a[1..] && b == [b[0]] + b[1..];
    }
  }

  // ----- decimal numerals

  function Digit(d: nat): (c: char)
    requires d < 10
    ensures '0' <= c <= '9' && c as int - '0' as int == d
  {
    ('0' as int + d) as char
  }

  predicate IsDigit(c: char) {
    '0' <= c <= '9'
  }

  /** The decimal numeral of `n`, without leading zeros. */
  function Print(n: nat): (s: string)
    ensures |s| > 0 && forall i | 0 <= i < |s| :: IsDigit(s[i])
    ensures s[0] == '0' ==> n == 0
  {
    if n < 10 then [Digit(n)] else Print(n / 10) + [Digit(n % 10)]
  }

  /** The number a string of digits denotes. */
  function Parse(s: string): nat
    requires forall i | 0 <= i < |s| :: IsDigit(s[i])
  {
    if s == [] then 0
    else
      assert IsDigit(s[|s| - 1]);
      10 * Parse(s[..|s| - 1]) + (s[|s| - 1] as int - '0' as int)
  }

  lemma {:induction false} ParsePrint(n: nat)
    ensures Parse(Print(n)) == n
  {
    if n >= 10 {
      var s := Print(n);
      assert s[..|s| - 1] == Print(n / 10);
      ParsePrint(n / 10);
    }
  }

  // ----- first occurrences

  /** The first occurrence of each element, in order. */
  function Distinct<T(==,!new)>(xs: seq<T>): (r: seq<T>)
    ensures forall x :: x in r <==> x in xs
    ensures forall i, j | 0 <= i < j < |r| :: r[i] != r[j]
  {
    if xs == [] then []
    else
      var front := Distinct(xs[..|xs| - 1]);
      var last := xs[|xs| - 1];
      assert forall x :: x in xs <==> x in xs[..|xs| - 1] || x == last by {
        assert xs == xs[..|xs| - 1] + [last];
      }
      if last in front then front else front + [last]
  }

  /** Each element stands where it appears first. */
  lemma {:induction false} DistinctKeepsFirst<T(!new)>(xs: seq<T>) returns (at: seq<nat>)
    ensures |at| == |Distinct(xs)| && forall i, j | 0 <= i < j < |at| :: at[i] < at[j]
    ensures forall i | 0 <= i < |at| :: at[i] < |xs| && Distinct(xs)[i] == xs[at[i]] && xs[at[i]] !in xs[..at[i]]
  {
    if xs == [] {
      at := [];
    } else {
      var n := |xs| - 1;
      at := DistinctKeepsFirst(xs[..n]);
      assert forall i | 0 <= i < |at| :: xs[..n][..at[i]] == xs[..at[i]];
      if xs[n] !in Distinct(xs[..n]) {
        at := at + [n];
      }
    }
  }

  /** A list without repeats has as many elements as their set. */
  lemma {:induction false} DistinctCount<T(!new)>(xs: seq<T>)
    requires forall i, j | 0 <= i < j < |xs| :: xs[i] != xs[j]
    ensures |set x | x in xs| == |xs|
  {
    if xs != [] {
      var front, last := xs[..|xs| - 1], xs[|xs| - 1];
      DistinctCount(front);
      assert (set x | x in xs) == (set x | x in front) + {last} by {
        assert xs == front + [last];
      }
      assert last !in front;
    }
  }

  // ----- stable sorting by a comparison

  /** `collate(a, b)`: the locale puts `a` before `b`, or level with it. */
  type Collation = (string, string) -> bool

  function Insert<T(!new)>(x: T, xs: seq<T>, before: (T, T) -> bool): (r: seq<T>)
    ensures multiset(r) == multiset(xs) + multiset{x}
  {
    if xs == [] then [x]
    else
      assert xs == [xs[0]] + xs[1..];
      if before(x, xs[0]) then [x] + xs else [xs[0]] + Insert(x, xs[1..], before)
  }

  /** A stable sort: `before(x, y)` says that `x` may stay in front of `y`. */
  function SortBy<T(!new)>(xs: seq<T>, before: (T, T) -> bool): (r: seq<T>)
    ensures multiset(r) == multiset(xs)
    ensures forall x :: x in r <==> x in xs
  {
    if xs == [] then []
    else
      assert xs == [xs[0]] + xs[1..];
      var r := Insert(xs[0], SortBy(xs[1..], before), before);
      assert forall x :: (x in r <==> x in multiset(r)) && (x in xs <==> x in multiset(xs));
      r
  }

  ghost predicate Total<T(!new)>(before: (T, T) -> bool) {
    forall x, y :: before(x, y) || before(y, x)
  }

  ghost predicate Transitive<T(!new)>(before: (T, T) -> bool) {
    forall x, y, z :: before(x, y) && before(y, z) ==> before(x, z)
  }

  ghost predicate InOrder<T(!new)>(xs: seq<T>, before: (T, T) -> bool) {
    forall i, j | 0 <= i < j < |xs| :: before(xs[i], xs[j])
  }

  lemma {:induction false} InsertKeepsOrder<T(!new)>(x: T, xs: seq<T>, before: (T, T) -> bool)
    requires Total(before) && Transitive(before) && InOrder(xs, before)
    ensures InOrder(Insert(x, xs, before), before)
  {
    if xs != [] && !before(x, xs[0]) {
      InsertKeepsOrder(x, xs[1..], before);
      var rest := Insert(x, xs[1..], before);
      forall i | 0 <= i < |rest| ensures before(xs[0], rest[i]) {
        assert rest[i] in multiset(rest);
        assert rest[i] == x || rest[i] in xs[1..];
      }
    }
  }

  /** The sort sorts. */
  lemma {:induction false} SortIsInOrder<T(!new)>(xs: seq<T>, before: (T, T) -> bool)
    requires Total(before) && Transitive(before)
    ensures InOrder(SortBy(xs, before), before)
  {
    if xs != [] {
      SortIsInOrder(xs[1..], before);
      InsertKeepsOrder(xs[0], SortBy(xs[1..], before), before);
    }
  }

  /** The elements level with `x`, in order. */
  function LevelWith<T(!new)>(xs: seq<T>, x: T, before: (T, T) -> bool): seq<T> {
    if xs == [] then []
    else (if before(x, xs[0]) && before(xs[0], x) then [xs[0]] else []) + LevelWith(xs[1..], x, before)
  }

  lemma LevelOfCons<T(!new)>(y: T, xs: seq<T>, x: T, before: (T, T) -> bool)
    ensures LevelWith([y] + xs, x, before) == (if before(x, y) && before(y, x) then [y] else []) + LevelWith(xs, x, before)
  {
    assert ([y] + xs)[1..] == xs;
  }

  lemma OneIsLevel<T(!new)>(x: T, y: T, z: T, before: (T, T) -> bool)
    requires Total(before) && Transitive(before) && !before(y, z)
    ensures !(before(x, y) && before(y, x)) || !(before(x, z) && before(z, x))
  {
  }

  lemma InsertCases<T(!new)>(y: T, xs: seq<T>, before: (T, T) -> bool)
    ensures xs == [] || before(y, xs[0]) ==> Insert(y, xs, before) == [y] + xs
    ensures xs != [] && !before(y, xs[0]) ==> Insert(y, xs, before) == [xs[0]] + Insert(y, xs[1..], before)
  {
  }

  lemma {:induction false} InsertIsStable<T(!new)>(y: T, xs: seq<T>, x: T, before: (T, T) -> bool)
    requires Total(before) && Transitive(before)
    ensures LevelWith(Insert(y, xs, before), x, before)
         == (if before(x, y) && before(y, x) then [y] else []) + LevelWith(xs, x, before)
  {
    hide LevelWith, Insert, Total, Transitive;
    InsertCases(y, xs, before);
    if xs == [] || before(y, xs[0]) {
      LevelOfCons(y, xs, x, before);
    } else {
      OneIsLevel(x, y, xs[0], before);
      InsertIsStable(y, xs[1..], x, before);
      assert xs == [xs[0]] + xs[1..];
      LevelOfCons(xs[0], Insert(y, xs[1..], before), x, before);
      LevelOfCons(xs[0], xs[1..], x, before);
    }
  }

  /** Level elements keep their order. */
  lemma {:induction false} SortIsStable<T(!new)>(xs: seq<T>, x: T, before: (T, T) -> bool)
    requires Total(before) && Transitive(before)
    ensures LevelWith(SortBy(xs, before), x, before) == LevelWith(xs, x, before)
  {
    if xs != [] {
      var rest := SortBy(xs[1..], before);
      SortIsStable(xs[1..], x, before);
      InsertIsStable(xs[0], rest, x, before);
    }
  }
}
