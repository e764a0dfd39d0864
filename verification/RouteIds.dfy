/** Route identities. */
module RouteIds {
  // Percent-encoded parts joined with colons (`routePart` and the id templates of
  // the graph builders).

  import opened Options
  import opened Strings

  // ----- percent-encoding (section 2.1 of RFC 3986), as encodeURIComponent does it

  predicate Unescaped(c: char) {
    || 'A' <= c <= 'Z' || 'a' <= c <= 'z' || '0' <= c <= '9'
    || c in "-_.!~*'()"
  }

  function Hex(d: nat): (c: char)
    requires d < 16
  {
    if d < 10 then ('0' as int + d) as char else ('A' as int + d - 10) as char
  }

  function UnHex(c: char): Option<nat> {
    if '0' <= c <= '9' then Some(c as int - '0' as int)
    else if 'A' <= c <= 'F' then Some(c as int - 'A' as int + 10)
    else None
  }

  type Byte = b: nat | b < 256

  function PercentByte(b: Byte): string {
    ['%', Hex(b / 16), Hex(b % 16)]
  }

  function PercentBytes(bytes: seq<Byte>): string {
    if bytes == [] then [] else PercentByte(bytes[0]) + PercentBytes(bytes[1..])
  }

  /** The UTF-8 form of one scalar value. */
  function Utf8(c: char): seq<Byte> {
    var n := c as int;
    if n < 0x80 then [n]
    else if n < 0x800 then [0xC0 + n / 0x40, 0x80 + n % 0x40]
    else if n < 0x10000 then [0xE0 + n / 0x1000, 0x80 + n / 0x40 % 0x40, 0x80 + n % 0x40]
    else [0xF0 + n / 0x40000, 0x80 + n / 0x1000 % 0x40, 0x80 + n / 0x40 % 0x40, 0x80 + n % 0x40]
  }

  function EncodeChar(c: char): string {
    if Unescaped(c) then [c] else PercentBytes(Utf8(c))
  }

  function Encode(s: string): string {
    if s == [] then [] else EncodeChar(s[0]) + Encode(s[1..])
  }

  // ----- the decoder

  datatype Read<+T> = Read(item: T, rest: string)

  function ReadByte(s: string): Option<Read<Byte>> {
    if |s| < 3 || s[0] != '%' then None
    else
      match (UnHex(s[1]), UnHex(s[2]))
      case (Some(h), Some(l)) => if h < 16 && l < 16 then Some(Read(16 * h + l, s[3..])) else None
      case _ => None
  }

  /** Fold `count` continuation bytes into the leading bits. */
  function ReadTail(bits: nat, count: nat, s: string): Option<Read<nat>>
    decreases count
  {
    if count == 0 then Some(Read(bits, s))
    else
      match ReadByte(s)
      case None => None
      case Some(r) =>
        if 0x80 <= r.item < 0xC0 then ReadTail(0x40 * bits + r.item - 0x80, count - 1, r.rest) else None
  }

  function ReadScalar(s: string): Option<Read<nat>> {
    match ReadByte(s)
    case None => None
    case Some(r) =>
      if r.item < 0x80 then Some(Read(r.item as nat, r.rest))
      else if 0xC0 <= r.item < 0xE0 then ReadTail(r.item - 0xC0, 1, r.rest)
      else if 0xE0 <= r.item < 0xF0 then ReadTail(r.item - 0xE0, 2, r.rest)
      else if 0xF0 <= r.item < 0xF8 then ReadTail(r.item - 0xF0, 3, r.rest)
      else None
  }

  function ReadChar(s: string): Option<Read<char>>
    requires s != []
  {
    if s[0] != '%' then Some(Read(s[0], s[1..]))
    else
      match ReadScalar(s)
      case None => None
      case Some(r) =>
        if r.item < 0xD800 || 0xE000 <= r.item < 0x110000 then Some(Read(r.item as char, r.rest)) else None
  }

  function Decode(s: string): Option<string>
    decreases |s|
  {
    if s == [] then Some([])
    else
      match ReadChar(s)
      case None => None
      case Some(r) =>
        if |r.rest| < |s| then
          match Decode(r.rest)
          case None => None
          case Some(t) => Some([r.item] + t)
        else None
  }

  // ----- round trip

  lemma ReadEncodedByte(b: Byte, rest: string)
    ensures ReadByte(PercentByte(b) + rest) == Some(Read(b, rest))
  {
    var s := PercentByte(b) + rest;
    assert s[3..] == rest;
    assert UnHex(s[1]) == Some(b / 16) && UnHex(s[2]) == Some(b % 16);
  }

  lemma ReadEncodedTail(bits: nat, d: nat, count: nat, rest: string)
    requires d < 0x40
    ensures ReadTail(bits, count + 1, PercentByte(0x80 + d) + rest) == ReadTail(0x40 * bits + d, count, rest)
  {
    ReadEncodedByte(0x80 + d, rest);
  }

  lemma ReadTail1(bits: nat, d: nat, rest: string)
    requires d < 0x40
    ensures ReadTail(bits, 1, PercentBytes([0x80 + d]) + rest) == Some(Read(0x40 * bits + d, rest))
  {
    PercentBytesUnfold([0x80 + d], rest);
    assert PercentBytes([]) + rest == rest;
    ReadEncodedTail(bits, d, 0, rest);
  }

  lemma ReadTail2(bits: nat, d: nat, e: nat, rest: string)
    requires d < 0x40 && e < 0x40
    ensures ReadTail(bits, 2, PercentBytes([0x80 + d, 0x80 + e]) + rest)
         == Some(Read(0x40 * (0x40 * bits + d) + e, rest))
  {
    PercentBytesUnfold([0x80 + d, 0x80 + e], rest);
    assert [0x80 + d, 0x80 + e][1..] == [0x80 + e];
    ReadEncodedTail(bits, d, 1, PercentBytes([0x80 + e]) + rest);
    ReadTail1(0x40 * bits + d, e, rest);
  }

  lemma ReadTail3(bits: nat, d: nat, e: nat, f: nat, rest: string)
    requires d < 0x40 && e < 0x40 && f < 0x40
    ensures ReadTail(bits, 3, PercentBytes([0x80 + d, 0x80 + e, 0x80 + f]) + rest)
         == Some(Read(0x40 * (0x40 * (0x40 * bits + d) + e) + f, rest))
  {
    hide ReadTail, PercentBytes, PercentByte;
    PercentBytesUnfold([0x80 + d, 0x80 + e, 0x80 + f], rest);
    assert [0x80 + d, 0x80 + e, 0x80 + f][1..] == [0x80 + e, 0x80 + f];
    ReadEncodedTail(bits, d, 2, PercentBytes([0x80 + e, 0x80 + f]) + rest);
    ReadTail2(0x40 * bits + d, e, f, rest);
  }

  lemma SixBitDigits(n: nat)
    ensures 0x40 * (n / 0x40) + n % 0x40 == n
    ensures 0x40 * (0x40 * (n / 0x1000) + n / 0x40 % 0x40) + n % 0x40 == n
    ensures 0x40 * (0x40 * (0x40 * (n / 0x40000) + n / 0x1000 % 0x40) + n / 0x40 % 0x40) + n % 0x40 == n
  {
    assert n / 0x1000 == n / 0x40 / 0x40 && n / 0x40000 == n / 0x1000 / 0x40;
  }

  lemma ReadEncodedScalar(c: char, rest: string)
    ensures ReadScalar(PercentBytes(Utf8(c)) + rest) == Some(Read(c as nat, rest))
  {
    hide ReadTail, PercentBytes, PercentByte, ReadByte;
    var n := c as int;
    var bytes := Utf8(c);
    PercentBytesUnfold(bytes, rest);
    ReadEncodedByte(bytes[0], PercentBytes(bytes[1..]) + rest);
    SixBitDigits(n);
    if n < 0x80 {
      PercentBytesEmpty(rest);
      assert bytes[1..] == [];
    } else if n < 0x800 {
      assert bytes[1..] == [0x80 + n % 0x40];
      ReadTail1(n / 0x40, n % 0x40, rest);
    } else if n < 0x10000 {
      assert bytes[1..] == [0x80 + n / 0x40 % 0x40, 0x80 + n % 0x40];
      ReadTail2(n / 0x1000, n / 0x40 % 0x40, n % 0x40, rest);
    } else {
      assert bytes[1..] == [0x80 + n / 0x1000 % 0x40, 0x80 + n / 0x40 % 0x40, 0x80 + n % 0x40];
      ReadTail3(n / 0x40000, n / 0x1000 % 0x40, n / 0x40 % 0x40, n % 0x40, rest);
    }
  }

  lemma PercentBytesEmpty(rest: string)
    ensures PercentBytes([]) + rest == rest
  {
  }

  lemma PercentBytesUnfold(bytes: seq<Byte>, rest: string)
    requires bytes != []
    ensures PercentBytes(bytes) + rest == PercentByte(bytes[0]) + (PercentBytes(bytes[1..]) + rest)
  {
  }

  lemma ReadEncodedChar(c: char, rest: string)
    ensures EncodeChar(c) != []
    ensures ReadChar(EncodeChar(c) + rest) == Some(Read(c, rest))
  {
    var s := EncodeChar(c) + rest;
    if Unescaped(c) {
      assert s[1..] == rest;
    } else {
      ReadEncodedScalar(c, rest);
      assert s[0] == '%';
    }
  }

  /** Decoding undoes percent-encoding. */
  lemma {:induction false} DecodeEncode(s: string)
    ensures Decode(Encode(s)) == Some(s)
  {
    if s != [] {
      hide EncodeChar, ReadChar, Decode;
      ReadEncodedChar(s[0], Encode(s[1..]));
      DecodeEncode(s[1..]);
      DecodeStep(Encode(s), s[0], Encode(s[1..]), s[1..]);
      assert s == [s[0]] + s[1..];
    } else {
      DecodeNothing();
    }
  }

  lemma DecodeNothing()
    ensures Decode([]) == Some([])
  {
  }

  lemma DecodeStep(s: string, c: char, rest: string, t: string)
    requires s != [] && ReadChar(s) == Some(Read(c, rest)) && |rest| < |s| && Decode(rest) == Some(t)
    ensures Decode(s) == Some([c] + t)
  {
    hide ReadChar;
  }

  lemma {:induction false} PercentBytesAvoidColon(bytes: seq<Byte>)
    ensures Lacks(PercentBytes(bytes), ':')
  {
    if bytes != [] {
      PercentBytesAvoidColon(bytes[1..]);
    }
  }

  /** An encoded part never contains the separator. */
  lemma {:induction false} EncodeAvoidsColon(s: string)
    ensures Lacks(Encode(s), ':')
  {
    if s != [] {
      EncodeAvoidsColon(s[1..]);
      PercentBytesAvoidColon(Utf8(s[0]));
      assert Lacks(EncodeChar(s[0]), ':');
      LacksConcat(EncodeChar(s[0]), Encode(s[1..]), ':');
    }
  }

  // ----- the identities

  /** What an identity in the graph stands for. */
  datatype Subject =
    | BindingOf(slot: nat, preset: string, key: string, functionName: string)
    | MacroOf(slot: nat, preset: string, name: string)
    | TriggerOf(slot: nat, preset: string, name: string, key: string)
    | OutputOf(slot: nat, preset: string, name: string, functionName: string)

  function Parts(s: Subject): seq<string> {
    match s
    case BindingOf(slot, preset, key, fn) => ["binding", Print(slot), Encode(preset), Encode(key), Encode(fn)]
    case MacroOf(slot, preset, name) => ["macro", Print(slot), Encode(preset), Encode(name)]
    case TriggerOf(slot, preset, name, key) =>
      ["macro", Print(slot), Encode(preset), Encode(name), "trigger", Encode(key)]
    case OutputOf(slot, preset, name, fn) =>
      ["macro", Print(slot), Encode(preset), Encode(name), "output", Encode(fn)]
  }

  function RouteId(s: Subject): string {
    Join(Parts(s), ":")
  }

  lemma PartsAvoidColon(s: Subject)
    ensures Parts(s) != [] && AllLack(Parts(s), ':')
  {
    hide Encode, Print;
    assert Lacks("binding", ':') && Lacks("macro", ':') && Lacks("trigger", ':') && Lacks("output", ':');
    EncodeAvoidsColon(s.preset);
    PrintAvoidsColon(s.slot);
    match s
    case BindingOf(_, _, key, fn) => EncodeAvoidsColon(key); EncodeAvoidsColon(fn);
    case MacroOf(_, _, name) => EncodeAvoidsColon(name);
    case TriggerOf(_, _, name, key) => EncodeAvoidsColon(name); EncodeAvoidsColon(key);
    case OutputOf(_, _, name, fn) => EncodeAvoidsColon(name); EncodeAvoidsColon(fn);
  }

  lemma PrintAvoidsColon(n: nat)
    ensures Lacks(Print(n), ':')
  {
  }

  function Text(part: string): string {
    match Decode(part)
    case Some(s) => s
    case None => ""
  }

  function Number(part: string): nat {
    if forall i | 0 <= i < |part| :: IsDigit(part[i]) then Parse(part) else 0
  }

  /** Read a subject back from its parts. */
  function Recover(parts: seq<string>): Subject
    requires |parts| >= 4
  {
    if |parts| == 5 then BindingOf(Number(parts[1]), Text(parts[2]), Text(parts[3]), Text(parts[4]))
    else if |parts| == 6 && parts[4] == "trigger" then
      TriggerOf(Number(parts[1]), Text(parts[2]), Text(parts[3]), Text(parts[5]))
    else if |parts| == 6 then OutputOf(Number(parts[1]), Text(parts[2]), Text(parts[3]), Text(parts[5]))
    else MacroOf(Number(parts[1]), Text(parts[2]), Text(parts[3]))
  }

  lemma RecoverParts(s: Subject)
    ensures Recover(Parts(s)) == s
  {
    hide Encode, Decode, Print;
    ParsePrint(s.slot);
    NumberOfPrint(s.slot);
    DecodeEncode(s.preset);
    match s
    case BindingOf(_, _, key, fn) => DecodeEncode(key); DecodeEncode(fn);
    case MacroOf(_, _, name) => DecodeEncode(name);
    case TriggerOf(_, _, name, key) => DecodeEncode(name); DecodeEncode(key);
    case OutputOf(_, _, name, fn) => DecodeEncode(name); DecodeEncode(fn);
  }

  lemma NumberOfPrint(n: nat)
    ensures Number(Print(n)) == n
  {
    ParsePrint(n);
  }

  /** Route identities are injective, across all four kinds at once. */
  lemma RouteIdIsInjective(a: Subject, b: Subject)
    requires RouteId(a) == RouteId(b)
    ensures a == b
  {
    hide Parts, Recover;
    PartsAvoidColon(a);
    PartsAvoidColon(b);
    JoinIsInjective(Parts(a), Parts(b), ':');
    RecoverParts(a);
    RecoverParts(b);
    PartsAreFour(a);
  }

  lemma PartsAreFour(s: Subject)
    ensures |Parts(s)| >= 4
  {
  }
}
