/**
 The normal form that `canonicalJson` gives a finite JSON value, and the reader that
 inverts it.  An object is a map: its members have no order of their own.
 */
module JsonText {
  import opened Wrappers
  import opened Utf16
  import opened Sorting

  /** The text a finite number prints as; -0 prints as 0, so equal tokens mean equal numbers. */
  type NumberToken = t: Text | IsNumberToken(t) witness [0x30]

  datatype Json =
    | JsonNull
    | JsonBool(value: bool)
    | JsonNumber(token: NumberToken)
    | JsonString(text: Text)
    | JsonArray(items: seq<Json>)
    | JsonObject(members: map<Text, Json>)

  const NULL_TEXT: Text := [0x6E, 0x75, 0x6C, 0x6C]
  const TRUE_TEXT: Text := [0x74, 0x72, 0x75, 0x65]
  const FALSE_TEXT: Text := [0x66, 0x61, 0x6C, 0x73, 0x65]

  predicate IsNumberUnit(c: CodeUnit) {
    IsDigit(c) || c == MINUS || c == PLUS || c == DOT || c == 0x65
  }

  predicate IsNumberToken(t: Text) {
    t != [] && (IsDigit(t[0]) || t[0] == MINUS) && forall c :: c in t ==> IsNumberUnit(c)
  }

  predicate IsHighSurrogate(c: CodeUnit) {
    0xD800 <= c < 0xDC00
  }

  predicate IsLowSurrogate(c: CodeUnit) {
    0xDC00 <= c < 0xE000
  }

  // Printing

  function HexDigit(d: nat): CodeUnit
    requires d < 16
  {
    if d < 10 then 0x30 + d else 0x57 + d
  }

  function Hex4(c: CodeUnit): Text {
    var high := c / 16;
    var higher := high / 16;
    [HexDigit(higher / 16), HexDigit(higher % 16), HexDigit(high % 16), HexDigit(c % 16)]
  }

  /** One code unit of a string that is not half of a surrogate pair. */
  function EscapeUnit(c: CodeUnit): Text {
    if c == QUOTE || c == BACKSLASH then [BACKSLASH, c]
    else if c == 0x08 then [BACKSLASH, 0x62]
    else if c == TAB then [BACKSLASH, 0x74]
    else if c == LF then [BACKSLASH, 0x6E]
    else if c == FF then [BACKSLASH, 0x66]
    else if c == CR then [BACKSLASH, 0x72]
    else if c < SPACE || IsHighSurrogate(c) || IsLowSurrogate(c) then [BACKSLASH, 0x75] + Hex4(c)
    else [c]
  }

  function EscapeAll(s: Text): Text {
    if s == [] then []
    else if IsHighSurrogate(s[0]) && |s| > 1 && IsLowSurrogate(s[1]) then [s[0], s[1]] + EscapeAll(s[2..])
    else EscapeUnit(s[0]) + EscapeAll(s[1..])
  }

  function Quoted(s: Text): Text {
    [QUOTE] + EscapeAll(s) + [QUOTE]
  }

  function Join(parts: seq<Text>): Text {
    if parts == [] then []
    else if |parts| == 1 then parts[0]
    else parts[0] + [COMMA] + Join(parts[1..])
  }

  function Bracketed(parts: seq<Text>): Text {
    [OPEN_BRACKET] + Join(parts) + [CLOSE_BRACKET]
  }

  function Braced(parts: seq<Text>): Text {
    [OPEN_BRACE] + Join(parts) + [CLOSE_BRACE]
  }

  function Print(j: Json): Text
    decreases j, 1, 0
  {
    match j
    case JsonNull => NULL_TEXT
    case JsonBool(b) => if b then TRUE_TEXT else FALSE_TEXT
    case JsonNumber(token) => token
    case JsonString(s) => Quoted(s)
    case JsonArray(items) => Bracketed(PrintItems(items))
    case JsonObject(members) => Braced(PrintMembers(j, SortedTexts(members.Keys)))
  }

  function PrintItems(items: seq<Json>): (r: seq<Text>)
    ensures |r| == |items|
  {
    if items == [] then [] else [Print(items[0])] + PrintItems(items[1..])
  }

  function PrintMembers(j: Json, keys: seq<Text>): (r: seq<Text>)
    requires j.JsonObject? && forall k :: k in keys ==> k in j.members
    ensures |r| == |keys|
    decreases j, 0, |keys|
  {
    if keys == [] then []
    else [Quoted(keys[0]) + [COLON] + Print(j.members[keys[0]])] + PrintMembers(j, keys[1..])
  }

  // As `JSON.stringify` spells it

  /** Scalars print their own literals. */
  lemma ScalarsSpelled(token: NumberToken, s: Text)
    ensures Print(JsonNull) == Chars("null")
    ensures Print(JsonBool(true)) == Chars("true") && Print(JsonBool(false)) == Chars("false")
    ensures Print(JsonNumber(token)) == token
    ensures Print(JsonString(s)) == Chars("\"") + EscapeAll(s) + Chars("\"")
  {
  }

  /** No escape is written where none is needed, and none is longer than it must be. */
  lemma EscapesSpelled(c: CodeUnit)
    ensures EscapeAll([0x22]) == Chars("\\\"") && EscapeAll([0x5C]) == Chars("\\\\")
    ensures EscapeAll([0x08]) == Chars("\\b") && EscapeAll([0x09]) == Chars("\\t")
    ensures EscapeAll([0x0A]) == Chars("\\n") && EscapeAll([0x0C]) == Chars("\\f")
    ensures EscapeAll([0x0D]) == Chars("\\r")
    ensures 0x20 <= c && c != 0x22 && c != 0x5C && !(0xD800 <= c < 0xE000) ==> EscapeAll([c]) == [c]
    ensures c < 0x08 || c == 0x0B || 0x0E <= c < 0x20 || 0xD800 <= c < 0xE000 ==>
      |EscapeAll([c])| == 6 && EscapeAll([c])[..2] == Chars("\\u")
  {
    assert [c][1..] == [] && EscapeAll([c]) == EscapeUnit(c) + EscapeAll([]);
    EscapeOne(0x22);
    EscapeOne(0x5C);
    EscapeOne(0x08);
    EscapeOne(0x09);
    EscapeOne(0x0A);
    EscapeOne(0x0C);
    EscapeOne(0x0D);
  }

  /** A surrogate pair is written as it is; two code units that are none, one by one. */
  lemma PairsSpelled(c: CodeUnit, d: CodeUnit)
    ensures 0xD800 <= c < 0xDC00 && 0xDC00 <= d < 0xE000 ==> EscapeAll([c, d]) == [c, d]
    ensures !(0xD800 <= c < 0xDC00 && 0xDC00 <= d < 0xE000) ==> EscapeAll([c, d]) == EscapeAll([c]) + EscapeAll([d])
  {
    EscapeOne(c);
    assert [c, d][1..] == [d] && [c, d][2..] == [];
  }

  /** Signs, fractions and exponents are written with characters a number may have. */
  lemma NumbersSpelled()
    ensures IsNumberToken(Chars("-1.5e-7")) && IsNumberToken(Chars("1e+21")) && !IsNumberToken(Chars("+1"))
  {
    assert Chars("+1")[0] == PLUS;
  }

  lemma EscapeOne(c: CodeUnit)
    ensures EscapeAll([c]) == EscapeUnit(c)
  {
    assert [c][1..] == [] && EscapeAll([c]) == EscapeUnit(c) + EscapeAll([]);
  }

  lemma JoinTwo(a: Text, b: Text)
    ensures Join([a, b]) == a + [COMMA] + b
  {
    assert [a, b][1..] == [b];
  }

  lemma EmptySpelled()
    ensures Print(JsonArray([])) == Chars("[]") && Print(JsonObject(map[])) == Chars("{}")
  {
    assert PrintItems([]) == [];
    var j := JsonObject(map[]);
    assert SortedTexts(j.members.Keys) == [];
    assert PrintMembers(j, []) == [];
  }

  /** An array's items in their order, between brackets and with a comma between. */
  lemma ItemsSpelled(a: Json, b: Json)
    ensures Print(JsonArray([a, b])) == Chars("[") + Print(a) + Chars(",") + Print(b) + Chars("]")
  {
    TwoItems(a, b);
    BracketedTwo(Print(a), Print(b));
    assert Print(JsonArray([a, b])) == Bracketed([Print(a), Print(b)]);
  }

  lemma PunctuationSpelled()
    ensures Chars("[") == [OPEN_BRACKET] && Chars(",") == [COMMA] && Chars("]") == [CLOSE_BRACKET]
    ensures Chars(":") == [COLON] && Chars("{") == [OPEN_BRACE] && Chars("}") == [CLOSE_BRACE]
  {
  }

  lemma BracketedTwo(a: Text, b: Text)
    ensures Bracketed([a, b]) == Chars("[") + a + Chars(",") + b + Chars("]")
  {
    PunctuationSpelled();
    JoinTwo(a, b);
  }

  lemma BracedTwo(a: Text, b: Text)
    ensures Braced([a, b]) == Chars("{") + a + Chars(",") + b + Chars("}")
  {
    PunctuationSpelled();
    JoinTwo(a, b);
  }

  lemma TwoItems(a: Json, b: Json)
    ensures PrintItems([a, b]) == [Print(a), Print(b)]
  {
    assert [a, b][1..] == [b] && [b][1..] == [];
    assert PrintItems([b]) == [Print(b)] + PrintItems([]);
  }

  /** An object's members in the order of their keys, between braces and with a comma between. */
  lemma MembersSpelled(j: Json, k: Text, l: Text)
    requires j.JsonObject? && j.members.Keys == {k, l} && Before(k, l)
    ensures Print(j) == Chars("{") + MemberSpelled(j, k) + Chars(",") + MemberSpelled(j, l) + Chars("}")
  {
    TwoKeys(j.members, k, l);
    TwoMembers(j, k, l);
    PunctuationSpelled();
    BracedTwo(MemberSpelled(j, k), MemberSpelled(j, l));
    assert Print(j) == Braced([MemberSpelled(j, k), MemberSpelled(j, l)]);
  }

  /** A member: its key in quotes, a colon, its value. */
  ghost function MemberSpelled(j: Json, k: Text): Text
    requires j.JsonObject? && k in j.members
  {
    Quoted(k) + Chars(":") + Print(j.members[k])
  }

  lemma TwoKeys(members: map<Text, Json>, k: Text, l: Text)
    requires members.Keys == {k, l} && Before(k, l)
    ensures k != l && SortedTexts(members.Keys) == [k, l]
  {
    BeforeAsymmetric(k, l);
    assert members.Keys == set x | x in [k, l];
    SortedTextsUnique([k, l]);
  }

  lemma TwoMembers(j: Json, k: Text, l: Text)
    requires j.JsonObject? && k in j.members && l in j.members
    ensures PrintMembers(j, [k, l]) ==
      [Quoted(k) + [COLON] + Print(j.members[k]), Quoted(l) + [COLON] + Print(j.members[l])]
  {
    assert [k, l][1..] == [l] && [l][1..] == [];
    assert PrintMembers(j, [l]) == [Quoted(l) + [COLON] + Print(j.members[l])] + PrintMembers(j, []);
  }

  // Reading

  function HexValue(c: CodeUnit): Option<nat> {
    if IsDigit(c) then Some(c - 0x30)
    else if 0x61 <= c <= 0x66 then Some(c - 0x57)
    else None
  }

  function ReadHex4(t: Text): (r: Option<CodeUnit>)
    requires |t| >= 4
  {
    var a, b, c, d := HexValue(t[0]), HexValue(t[1]), HexValue(t[2]), HexValue(t[3]);
    if a.Some? && b.Some? && c.Some? && d.Some? then
      var v := ((a.value * 16 + b.value) * 16 + c.value) * 16 + d.value;
      if v < 0x1_0000 then Some(v) else None
    else None
  }

  function SimpleEscape(c: CodeUnit): Option<CodeUnit> {
    if c == QUOTE || c == BACKSLASH then Some(c)
    else if c == 0x62 then Some(0x08)
    else if c == 0x74 then Some(TAB)
    else if c == 0x6E then Some(LF)
    else if c == 0x66 then Some(FF)
    else if c == 0x72 then Some(CR)
    else None
  }

  function Prefixed<T>(head: T, tail: Option<(seq<T>, Text)>): Option<(seq<T>, Text)> {
    if tail.None? then None else Some(([head] + tail.value.0, tail.value.1))
  }

  /** Reads a string after its opening quote; returns its text and what follows it. */
  function ReadString(t: Text): (r: Option<(Text, Text)>)
    ensures r.Some? ==> |r.value.1| < |t|
  {
    if t == [] then None
    else if t[0] == QUOTE then Some(([], t[1..]))
    else if t[0] != BACKSLASH then Prefixed(t[0], ReadString(t[1..]))
    else if |t| < 2 then None
    else if t[1] == 0x75 then
      if |t| < 6 then None
      else
        var unit := ReadHex4(t[2..6]);
        if unit.None? then None else Prefixed(unit.value, ReadString(t[6..]))
    else
      var unit := SimpleEscape(t[1]);
      if unit.None? then None else Prefixed(unit.value, ReadString(t[2..]))
  }

  function ReadNumber(t: Text): (r: Option<(Json, Text)>)
    ensures r.Some? ==> |r.value.1| < |t|
  {
    var n := Span(IsNumberUnit, t);
    if IsNumberToken(t[..n]) then Some((JsonNumber(t[..n]), t[n..])) else None
  }

  function ReadValue(t: Text): (r: Option<(Json, Text)>)
    ensures r.Some? ==> |r.value.1| < |t|
    decreases |t|, 0
  {
    if NULL_TEXT <= t then Some((JsonNull, t[4..]))
    else if TRUE_TEXT <= t then Some((JsonBool(true), t[4..]))
    else if FALSE_TEXT <= t then Some((JsonBool(false), t[5..]))
    else if t == [] then None
    else if t[0] == QUOTE then
      var s := ReadString(t[1..]);
      if s.None? then None else Some((JsonString(s.value.0), s.value.1))
    else if t[0] == OPEN_BRACKET then
      if |t| > 1 && t[1] == CLOSE_BRACKET then Some((JsonArray([]), t[2..]))
      else
        var items := ReadItems(t[1..]);
        if items.None? then None else Some((JsonArray(items.value.0), items.value.1))
    else if t[0] == OPEN_BRACE then
      if |t| > 1 && t[1] == CLOSE_BRACE then Some((JsonObject(map[]), t[2..]))
      else
        var members := ReadMembers(t[1..]);
        if members.None? then None else Some((JsonObject(members.value.0), members.value.1))
    else ReadNumber(t)
  }

  /** One or more array items up to and including the closing bracket. */
  function ReadItems(t: Text): (r: Option<(seq<Json>, Text)>)
    ensures r.Some? ==> |r.value.1| < |t|
    decreases |t|, 1
  {
    var item := ReadValue(t);
    if item.None? || item.value.1 == [] then None
    else
      var (value, rest) := item.value;
      if rest[0] == CLOSE_BRACKET then Some(([value], rest[1..]))
      else if rest[0] == COMMA then Prefixed(value, ReadItems(rest[1..]))
      else None
  }

  function ReadMember(t: Text): (r: Option<(Text, Json, Text)>)
    ensures r.Some? ==> |r.value.2| < |t|
    decreases |t|, 1
  {
    if t == [] || t[0] != QUOTE then None
    else
      var key := ReadString(t[1..]);
      if key.None? || key.value.1 == [] || key.value.1[0] != COLON then None
      else
        var value := ReadValue(key.value.1[1..]);
        if value.None? then None else Some((key.value.0, value.value.0, value.value.1))
  }

  /** One or more members up to and including the closing brace; a repeated key keeps its last value. */
  function ReadMembers(t: Text): (r: Option<(map<Text, Json>, Text)>)
    ensures r.Some? ==> |r.value.1| < |t|
    decreases |t|, 2
  {
    var member := ReadMember(t);
    if member.None? || member.value.2 == [] then None
    else
      var (key, value, rest) := member.value;
      if rest[0] == CLOSE_BRACE then Some((map[key := value], rest[1..]))
      else if rest[0] == COMMA then
        var more := ReadMembers(rest[1..]);
        if more.None? then None else Some((map[key := value] + more.value.0, more.value.1))
      else None
  }

  // The reader inverts the printer

  lemma HexRoundTrip(c: CodeUnit)
    ensures ReadHex4(Hex4(c)) == Some(c)
  {
    assert forall d: nat :: d < 16 ==> HexValue(HexDigit(d)) == Some(d);
  }

  lemma ReadHexEscape(unit: CodeUnit, hex: Text, rest: Text)
    requires |hex| == 4 && ReadHex4(hex) == Some(unit)
    ensures ReadString([BACKSLASH, 0x75] + hex + rest) == Prefixed(unit, ReadString(rest))
  {
    var t := [BACKSLASH, 0x75] + hex + rest;
    assert t[2..6] == hex && t[6..] == rest;
  }

  lemma ReadSimpleEscape(c: CodeUnit, rest: Text)
    requires c != 0x75 && SimpleEscape(c).Some?
    ensures ReadString([BACKSLASH, c] + rest) == Prefixed(SimpleEscape(c).value, ReadString(rest))
  {
    var t := [BACKSLASH, c] + rest;
    assert t[2..] == rest;
  }

  lemma ReadPlainUnit(c: CodeUnit, rest: Text)
    requires c != QUOTE && c != BACKSLASH
    ensures ReadString([c] + rest) == Prefixed(c, ReadString(rest))
  {
    assert ([c] + rest)[1..] == rest;
  }

  lemma ReadPrintedUnit(c: CodeUnit, rest: Text)
    ensures ReadString(EscapeUnit(c) + rest) == Prefixed(c, ReadString(rest))
  {
    var e := EscapeUnit(c);
    if |e| == 6 {
      HexRoundTrip(c);
      ReadHexEscape(c, Hex4(c), rest);
    } else if |e| == 2 {
      ReadSimpleEscape(e[1], rest);
    } else {
      ReadPlainUnit(c, rest);
    }
  }

  lemma ReadClosingQuote(rest: Text)
    ensures ReadString([QUOTE] + rest) == Some(([], rest))
  {
    assert ([QUOTE] + rest)[1..] == rest;
  }

  lemma Regroup(a: Text, b: Text, c: Text)
    ensures a + b + c == a + (b + c)
  {
  }

  lemma PairSplits(a: CodeUnit, b: CodeUnit, t: Text)
    ensures [a, b] + t == [a] + ([b] + t)
  {
  }

  lemma ReadPlainPair(a: CodeUnit, b: CodeUnit, t: Text, s: Text, rest: Text)
    requires IsHighSurrogate(a) && IsLowSurrogate(b) && ReadString(t) == Some((s, rest))
    ensures ReadString([a, b] + t) == Some(([a, b] + s, rest))
  {
    ReadPlainUnit(b, t);
    ReadPlainUnit(a, [b] + t);
    PairSplits(a, b, t);
    PairSplits(a, b, s);
  }

  lemma ReadOneUnit(c: CodeUnit, t: Text, s: Text, rest: Text)
    requires ReadString(t) == Some((s, rest))
    ensures ReadString(EscapeUnit(c) + t) == Some(([c] + s, rest))
  {
    ReadPrintedUnit(c, t);
  }

  lemma {:induction false} ReadEscaped(s: Text, rest: Text)
    ensures ReadString(EscapeAll(s) + ([QUOTE] + rest)) == Some((s, rest))
    decreases |s|
  {
    var tail := [QUOTE] + rest;
    if s == [] {
      ReadClosingQuote(rest);
      assert EscapeAll(s) + tail == tail;
    } else if IsHighSurrogate(s[0]) && |s| > 1 && IsLowSurrogate(s[1]) {
      ReadEscaped(s[2..], rest);
      ReadPlainPair(s[0], s[1], EscapeAll(s[2..]) + tail, s[2..], rest);
      Regroup([s[0], s[1]], EscapeAll(s[2..]), tail);
      assert s == [s[0], s[1]] + s[2..];
    } else {
      ReadEscaped(s[1..], rest);
      ReadOneUnit(s[0], EscapeAll(s[1..]) + tail, s[1..], rest);
      Regroup(EscapeUnit(s[0]), EscapeAll(s[1..]), tail);
      assert s == [s[0]] + s[1..];
    }
  }

  /** A printed string is read back, lone surrogates included. */
  lemma ReadPrintedString(s: Text, rest: Text)
    ensures ReadString(EscapeAll(s) + [QUOTE] + rest) == Some((s, rest))
  {
    ReadEscaped(s, rest);
    Regroup(EscapeAll(s), [QUOTE], rest);
  }

  /** What may follow a value without running into it. */
  predicate Delimited(rest: Text) {
    rest == [] || !IsNumberUnit(rest[0])
  }

  lemma ReadPrintedNumber(token: NumberToken, rest: Text)
    requires Delimited(rest)
    ensures ReadValue(token + rest) == Some((JsonNumber(token), rest))
  {
    var t := token + rest;
    SpanExact(IsNumberUnit, token, rest);
    assert t[..|token|] == token && t[|token|..] == rest;
    assert t[0] == token[0];
  }

  lemma ReadKeyword(rest: Text)
    ensures ReadValue(NULL_TEXT + rest) == Some((JsonNull, rest))
    ensures ReadValue(TRUE_TEXT + rest) == Some((JsonBool(true), rest))
  {
    assert (NULL_TEXT + rest)[4..] == rest;
    assert (TRUE_TEXT + rest)[0] == 0x74 && (TRUE_TEXT + rest)[4..] == rest;
  }

  lemma ReadFalse(rest: Text)
    ensures ReadValue(FALSE_TEXT + rest) == Some((JsonBool(false), rest))
  {
    var t := FALSE_TEXT + rest;
    assert t[0] == 0x66 && t[5..] == rest;
  }

  lemma ReadPrintedText(s: Text, rest: Text)
    ensures ReadValue(Quoted(s) + rest) == Some((JsonString(s), rest))
  {
    var t := Quoted(s) + rest;
    ReadPrintedString(s, rest);
    QuotedParts(s, rest);
  }

  lemma QuotedParts(s: Text, rest: Text)
    ensures var t := Quoted(s) + rest; t[0] == QUOTE && t[1..] == EscapeAll(s) + [QUOTE] + rest
  {
  }

  lemma ReadPrintedScalar(j: Json, rest: Text)
    requires !j.JsonArray? && !j.JsonObject? && Delimited(rest)
    ensures ReadValue(Print(j) + rest) == Some((j, rest))
  {
    match j
    case JsonNull => ReadKeyword(rest);
    case JsonBool(b) =>
      ReadKeyword(rest);
      ReadFalse(rest);
    case JsonNumber(token) => ReadPrintedNumber(token, rest);
    case JsonString(s) => ReadPrintedText(s, rest);
  }

  /** The reader inverts the printer, whatever text follows. */
  lemma {:induction false} ReadPrinted(j: Json, rest: Text)
    requires Delimited(rest)
    ensures ReadValue(Print(j) + rest) == Some((j, rest))
    decreases j, 1, 0
  {
    match j
    case JsonArray(items) =>
      if items != [] {
        ReadPrintedItems(items, rest);
        PrintedItemsHead(items);
      }
      ReadBracketed(PrintItems(items), items, rest);
    case JsonObject(members) =>
      var keys := SortedTexts(members.Keys);
      if keys != [] {
        ReadPrintedMembers(j, keys, rest);
      }
      assert Restricted(members, keys) == members;
      ReadBraced(PrintMembers(j, keys), members, rest);
    case _ =>
      ReadPrintedScalar(j, rest);
  }

  lemma ReadBracketed(parts: seq<Text>, items: seq<Json>, rest: Text)
    requires parts == [] <==> items == []
    requires parts != [] ==>
      && Join(parts) != [] && Join(parts)[0] != CLOSE_BRACKET
      && ReadItems(Join(parts) + [CLOSE_BRACKET] + rest) == Some((items, rest))
    ensures ReadValue(Bracketed(parts) + rest) == Some((JsonArray(items), rest))
  {
    if parts == [] {
      ReadEmptyBrackets(rest);
    } else {
      BracketedSplits(Join(parts), rest);
    }
  }

  lemma ReadEmptyBrackets(rest: Text)
    ensures ReadValue(Bracketed([]) + rest) == Some((JsonArray([]), rest))
  {
    var t := Bracketed([]) + rest;
    assert t[0] == OPEN_BRACKET && t[1] == CLOSE_BRACKET && t[2..] == rest;
  }

  lemma BracketedSplits(inner: Text, rest: Text)
    ensures var t := [OPEN_BRACKET] + inner + [CLOSE_BRACKET] + rest;
      t[0] == OPEN_BRACKET && t[1..] == inner + [CLOSE_BRACKET] + rest
    ensures inner != [] ==> ([OPEN_BRACKET] + inner + [CLOSE_BRACKET] + rest)[1] == inner[0]
  {
  }

  lemma ReadBraced(parts: seq<Text>, members: map<Text, Json>, rest: Text)
    requires parts == [] ==> members == map[]
    requires parts != [] ==>
      && Join(parts) != [] && Join(parts)[0] == QUOTE
      && ReadMembers(Join(parts) + [CLOSE_BRACE] + rest) == Some((members, rest))
    ensures ReadValue(Braced(parts) + rest) == Some((JsonObject(members), rest))
  {
    var t := Braced(parts) + rest;
    assert t[0] == OPEN_BRACE;
    if parts == [] {
      assert t == [OPEN_BRACE, CLOSE_BRACE] + rest;
      assert t[2..] == rest;
    } else {
      assert t[1..] == Join(parts) + [CLOSE_BRACE] + rest;
    }
  }

  /** A printed value never starts with a closing bracket. */
  lemma PrintedHead(j: Json)
    ensures Print(j) != [] && Print(j)[0] != CLOSE_BRACKET
  {
  }

  lemma PrintedItemsHead(items: seq<Json>)
    requires items != []
    ensures Join(PrintItems(items)) != [] && Join(PrintItems(items))[0] != CLOSE_BRACKET
  {
    PrintedHead(items[0]);
  }

  lemma {:induction false} ReadPrintedItems(items: seq<Json>, rest: Text)
    requires items != []
    ensures ReadItems(Join(PrintItems(items)) + [CLOSE_BRACKET] + rest) == Some((items, rest))
    decreases items, 0, |items|
  {
    var text := Join(PrintItems(items)) + [CLOSE_BRACKET] + rest;
    if |items| == 1 {
      var after := [CLOSE_BRACKET] + rest;
      assert text == Print(items[0]) + after;
      ReadPrinted(items[0], after);
      assert after[1..] == rest && items == [items[0]];
    } else {
      var tail := Join(PrintItems(items[1..])) + [CLOSE_BRACKET] + rest;
      var after := [COMMA] + tail;
      assert PrintItems(items)[1..] == PrintItems(items[1..]);
      assert text == Print(items[0]) + after;
      ReadPrinted(items[0], after);
      assert after[1..] == tail;
      ReadPrintedItems(items[1..], rest);
      assert items == [items[0]] + items[1..];
    }
  }

  lemma ReadPrintedMember(j: Json, key: Text, rest: Text)
    requires j.JsonObject? && key in j.members && Delimited(rest)
    ensures ReadMember(Quoted(key) + [COLON] + Print(j.members[key]) + rest) == Some((key, j.members[key], rest))
    decreases j, 0, 0
  {
    var text := Quoted(key) + [COLON] + Print(j.members[key]) + rest;
    var after := [COLON] + (Print(j.members[key]) + rest);
    assert text[0] == QUOTE && text[1..] == EscapeAll(key) + [QUOTE] + after;
    ReadPrintedString(key, after);
    ReadPrinted(j.members[key], rest);
    assert after[1..] == Print(j.members[key]) + rest;
  }

  function Restricted(members: map<Text, Json>, keys: seq<Text>): map<Text, Json> {
    map k | k in keys && k in members :: members[k]
  }

  lemma RestrictedStep(members: map<Text, Json>, keys: seq<Text>)
    requires keys != [] && keys[0] in members && Ascending(Before, keys)
    ensures map[keys[0] := members[keys[0]]] + Restricted(members, keys[1..]) == Restricted(members, keys)
  {
    BeforeIsStrict();
    TailMembers(Before, keys, keys[0]);
    assert keys == [keys[0]] + keys[1..];
  }

  lemma JoinStep(first: Text, parts: seq<Text>, close: Text, rest: Text)
    requires parts != []
    ensures Join([first] + parts) + close + rest == first + ([COMMA] + (Join(parts) + close + rest))
  {
    assert ([first] + parts)[1..] == parts;
  }

  lemma ReadLastMember(first: Text, key: Text, value: Json, rest: Text)
    requires ReadMember(first + ([CLOSE_BRACE] + rest)) == Some((key, value, [CLOSE_BRACE] + rest))
    ensures ReadMembers(first + [CLOSE_BRACE] + rest) == Some((map[key := value], rest))
  {
    assert first + [CLOSE_BRACE] + rest == first + ([CLOSE_BRACE] + rest);
    assert ([CLOSE_BRACE] + rest)[1..] == rest;
  }

  lemma ReadMemberThenMore(first: Text, key: Text, value: Json, tail: Text, more: map<Text, Json>, rest: Text)
    requires ReadMember(first + ([COMMA] + tail)) == Some((key, value, [COMMA] + tail))
    requires ReadMembers(tail) == Some((more, rest))
    ensures ReadMembers(first + ([COMMA] + tail)) == Some((map[key := value] + more, rest))
  {
    assert ([COMMA] + tail)[1..] == tail;
  }

  lemma {:induction false} ReadPrintedMembers(j: Json, keys: seq<Text>, rest: Text)
    requires j.JsonObject? && keys != [] && (forall k :: k in keys ==> k in j.members)
    requires Ascending(Before, keys)
    ensures ReadMembers(Join(PrintMembers(j, keys)) + [CLOSE_BRACE] + rest)
         == Some((Restricted(j.members, keys), rest))
    decreases j, 0, |keys|
  {
    var key := keys[0];
    var first := Quoted(key) + [COLON] + Print(j.members[key]);
    if |keys| == 1 {
      ReadPrintedMember(j, key, [CLOSE_BRACE] + rest);
      ReadLastMember(first, key, j.members[key], rest);
      assert Join(PrintMembers(j, keys)) == first;
      assert Restricted(j.members, keys) == map[key := j.members[key]];
    } else {
      var tail := Join(PrintMembers(j, keys[1..])) + [CLOSE_BRACE] + rest;
      ReadPrintedMember(j, key, [COMMA] + tail);
      ReadPrintedMembers(j, keys[1..], rest);
      RestrictedStep(j.members, keys);
      ReadMemberThenMore(first, key, j.members[key], tail, Restricted(j.members, keys[1..]), rest);
      JoinStep(first, PrintMembers(j, keys[1..]), [CLOSE_BRACE], rest);
    }
  }

  /** Two finite JSON values print the same text exactly when they are the same value. */
  lemma PrintInjective(a: Json, b: Json)
    ensures Print(a) == Print(b) <==> a == b
  {
    ReadPrinted(a, []);
    ReadPrinted(b, []);
    assert Print(a) + [] == Print(a) && Print(b) + [] == Print(b);
  }

  /** No printed value can be cut short and read as another one. */
  lemma PrintSelfDelimiting(a: Json, afterA: Text, b: Json, afterB: Text)
    requires Delimited(afterA) && Delimited(afterB)
    requires Print(a) + afterA == Print(b) + afterB
    ensures a == b && afterA == afterB
  {
    ReadPrinted(a, afterA);
    ReadPrinted(b, afterB);
  }
}
