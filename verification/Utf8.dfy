/** UTF-8 of well-formed UTF-16 text: `Buffer.from(text, "utf8")` and `toString("utf8")` undo each other on it. */
module Utf8 {
  import opened EvidenceFiles
  import opened JsonText
  import opened Sorting
  import opened Utf16
  import opened Wrappers

  /** Every surrogate is half of a pair. */
  predicate WellFormedText(t: Text) {
    if t == [] then true
    else if IsHighSurrogate(t[0]) then |t| > 1 && IsLowSurrogate(t[1]) && WellFormedText(t[2..])
    else !IsLowSurrogate(t[0]) && WellFormedText(t[1..])
  }

  function TwoBytes(c: nat): Bytes
    requires 0x80 <= c < 0x800
  {
    [0xC0 + c / 0x40, 0x80 + c % 0x40]
  }

  function ThreeBytes(c: nat): Bytes
    requires 0x800 <= c < 0x1_0000
  {
    [0xE0 + c / 0x1000, 0x80 + c / 0x40 % 0x40, 0x80 + c % 0x40]
  }

  /** The code point of a pair. */
  function PairValue(high: CodeUnit, low: CodeUnit): nat
    requires IsHighSurrogate(high) && IsLowSurrogate(low)
  {
    0x1_0000 + (high - 0xD800) * 0x400 + (low - 0xDC00)
  }

  function FourBytes(c: nat): Bytes
    requires 0x1_0000 <= c < 0x11_0000
  {
    [0xF0 + c / 0x4_0000, 0x80 + c / 0x1000 % 0x40, 0x80 + c / 0x40 % 0x40, 0x80 + c % 0x40]
  }

  /** Lone surrogates become the replacement character. */
  function UnitBytes(c: CodeUnit): Bytes {
    if c < 0x80 then [c]
    else if c < 0x800 then TwoBytes(c)
    else if IsHighSurrogate(c) || IsLowSurrogate(c) then ThreeBytes(0xFFFD)
    else ThreeBytes(c)
  }

  function Encode(t: Text): Bytes {
    if t == [] then []
    else if IsHighSurrogate(t[0]) && |t| > 1 && IsLowSurrogate(t[1]) then
      FourBytes(PairValue(t[0], t[1])) + Encode(t[2..])
    else UnitBytes(t[0]) + Encode(t[1..])
  }

  predicate Continues(b: Byte) {
    0x80 <= b < 0xC0
  }

  /** The first character of some bytes, and how many bytes it takes; nothing stands for malformed bytes. */
  function FirstCharacter(b: Bytes): (r: Option<(Text, nat)>)
    ensures r.Some? ==> 1 <= r.value.1 <= |b|
  {
    if b == [] then None
    else if b[0] < 0x80 then Some(([b[0] as int], 1))
    else if 0xC2 <= b[0] < 0xE0 && |b| > 1 && Continues(b[1]) then
      Some(([(b[0] as int - 0xC0) * 0x40 + (b[1] as int - 0x80)], 2))
    else if 0xE0 <= b[0] < 0xF0 && |b| > 2 && Continues(b[1]) && Continues(b[2]) then
      var c := (b[0] as int - 0xE0) * 0x1000 + (b[1] as int - 0x80) * 0x40 + (b[2] as int - 0x80);
      if c >= 0x800 && !IsHighSurrogate(c) && !IsLowSurrogate(c) then Some(([c], 3)) else None
    else if 0xF0 <= b[0] < 0xF5 && |b| > 3 && Continues(b[1]) && Continues(b[2]) && Continues(b[3]) then
      var c := (b[0] as int - 0xF0) * 0x4_0000 + (b[1] as int - 0x80) * 0x1000 + (b[2] as int - 0x80) * 0x40 +
        (b[3] as int - 0x80);
      if 0x1_0000 <= c < 0x11_0000 then
        Some(([0xD800 + (c - 0x1_0000) / 0x400, 0xDC00 + (c - 0x1_0000) % 0x400], 4))
      else None
    else None
  }

  /** Strict decoding. */
  function Decode(b: Bytes): Option<Text>
    decreases |b|
  {
    if b == [] then Some([])
    else
      var first := FirstCharacter(b);
      if first.None? then None
      else
        var rest := Decode(b[first.value.1..]);
        if rest.None? then None else Some(first.value.0 + rest.value)
  }

  lemma FirstUnit(c: CodeUnit, rest: Bytes)
    requires !IsHighSurrogate(c) && !IsLowSurrogate(c)
    ensures FirstCharacter(UnitBytes(c) + rest) == Some(([c], |UnitBytes(c)|))
  {
    var b := UnitBytes(c) + rest;
    if c < 0x80 {
      assert b[0] == c;
    } else if c < 0x800 {
      assert b[0] == 0xC0 + c / 0x40 && b[1] == 0x80 + c % 0x40;
    } else {
      assert b[0] == 0xE0 + c / 0x1000 && b[1] == 0x80 + c / 0x40 % 0x40 && b[2] == 0x80 + c % 0x40;
      ThreeParts(c);
    }
  }

  lemma ThreeParts(c: nat)
    ensures c == c / 0x1000 * 0x1000 + c / 0x40 % 0x40 * 0x40 + c % 0x40
  {
    assert c / 0x40 / 0x40 == c / 0x1000;
  }

  lemma FourParts(c: nat)
    ensures c == c / 0x4_0000 * 0x4_0000 + c / 0x1000 % 0x40 * 0x1000 + c / 0x40 % 0x40 * 0x40 + c % 0x40
  {
    ThreeParts(c);
    assert c / 0x1000 / 0x40 == c / 0x4_0000;
  }

  lemma FirstPair(high: CodeUnit, low: CodeUnit, rest: Bytes)
    requires IsHighSurrogate(high) && IsLowSurrogate(low)
    ensures FirstCharacter(FourBytes(PairValue(high, low)) + rest) == Some(([high, low], 4))
  {
    var c := PairValue(high, low);
    var b := FourBytes(c) + rest;
    assert b[0] == 0xF0 + c / 0x4_0000 && b[1] == 0x80 + c / 0x1000 % 0x40;
    assert b[2] == 0x80 + c / 0x40 % 0x40 && b[3] == 0x80 + c % 0x40;
    FourParts(c);
  }

  lemma DecodeFirst(head: Text, bytes: Bytes, rest: Bytes)
    requires bytes != [] && FirstCharacter(bytes + rest) == Some((head, |bytes|)) && Decode(rest).Some?
    ensures Decode(bytes + rest) == Some(head + Decode(rest).value)
  {
    assert (bytes + rest)[|bytes|..] == rest;
  }

  /** Well-formed text is read back from its bytes. */
  lemma {:induction false} DecodeEncoded(t: Text)
    requires WellFormedText(t)
    ensures Decode(Encode(t)) == Some(t)
  {
    if t != [] {
      if IsHighSurrogate(t[0]) {
        DecodeEncoded(t[2..]);
        FirstPair(t[0], t[1], Encode(t[2..]));
        DecodeFirst([t[0], t[1]], FourBytes(PairValue(t[0], t[1])), Encode(t[2..]));
        assert t == [t[0], t[1]] + t[2..];
      } else {
        DecodeEncoded(t[1..]);
        FirstUnit(t[0], Encode(t[1..]));
        DecodeFirst([t[0]], UnitBytes(t[0]), Encode(t[1..]));
        assert t == [t[0]] + t[1..];
      }
    }
  }

  /** A lone surrogate is written as U+FFFD. */
  lemma LoneReplaced(c: CodeUnit)
    requires 0xD800 <= c < 0xE000
    ensures Encode([c]) == [0xEF, 0xBF, 0xBD]
  {
    assert [c][1..] == [] && Encode([c]) == UnitBytes(c) + Encode([]);
  }

  // Printed JSON is well-formed

  lemma {:induction false} WellFormedConcat(a: Text, b: Text)
    requires WellFormedText(a) && WellFormedText(b)
    ensures WellFormedText(a + b)
  {
    if a == [] {
      assert a + b == b;
    } else if IsHighSurrogate(a[0]) {
      WellFormedConcat(a[2..], b);
      assert (a + b)[2..] == a[2..] + b;
    } else {
      WellFormedConcat(a[1..], b);
      assert (a + b)[1..] == a[1..] + b;
    }
  }

  predicate Plain(c: CodeUnit) {
    !IsHighSurrogate(c) && !IsLowSurrogate(c)
  }

  lemma {:induction false} PlainWellFormed(t: Text)
    requires forall i :: 0 <= i < |t| ==> Plain(t[i])
    ensures WellFormedText(t)
  {
    if t != [] {
      PlainWellFormed(t[1..]);
      assert Plain(t[0]);
    }
  }

  lemma {:induction false} EscapedWellFormed(s: Text)
    ensures WellFormedText(EscapeAll(s))
  {
    if s != [] {
      if IsHighSurrogate(s[0]) && |s| > 1 && IsLowSurrogate(s[1]) {
        EscapedWellFormed(s[2..]);
        var t := EscapeAll(s);
        assert t[0] == s[0] && t[1] == s[1] && t[2..] == EscapeAll(s[2..]);
      } else {
        EscapedWellFormed(s[1..]);
        var unit := EscapeUnit(s[0]);
        forall i | 0 <= i < |unit| ensures Plain(unit[i]) { }
        PlainWellFormed(unit);
        WellFormedConcat(unit, EscapeAll(s[1..]));
      }
    }
  }

  lemma QuotedWellFormed(s: Text)
    ensures WellFormedText(Quoted(s))
  {
    EscapedWellFormed(s);
    PlainWellFormed([QUOTE]);
    WellFormedConcat([QUOTE], EscapeAll(s));
    WellFormedConcat([QUOTE] + EscapeAll(s), [QUOTE]);
  }

  lemma {:induction false} JoinWellFormed(parts: seq<Text>)
    requires forall i :: 0 <= i < |parts| ==> WellFormedText(parts[i])
    ensures WellFormedText(Join(parts))
  {
    if |parts| > 1 {
      JoinWellFormed(parts[1..]);
      PlainWellFormed([COMMA]);
      WellFormedConcat(parts[0], [COMMA]);
      WellFormedConcat(parts[0] + [COMMA], Join(parts[1..]));
    }
  }

  lemma WrappedWellFormed(open: CodeUnit, parts: seq<Text>, close: CodeUnit)
    requires Plain(open) && Plain(close) && forall i :: 0 <= i < |parts| ==> WellFormedText(parts[i])
    ensures WellFormedText([open] + Join(parts) + [close])
  {
    JoinWellFormed(parts);
    PlainWellFormed([open]);
    PlainWellFormed([close]);
    WellFormedConcat([open], Join(parts));
    WellFormedConcat([open] + Join(parts), [close]);
  }

  /** What is printed holds no lone surrogate, whatever the strings in it hold. */
  lemma {:induction false} PrintedWellFormed(j: Json)
    ensures WellFormedText(Print(j))
    decreases j, 1, 0
  {
    match j
    case JsonNull => PlainWellFormed(NULL_TEXT);
    case JsonBool(b) =>
      PlainWellFormed(TRUE_TEXT);
      PlainWellFormed(FALSE_TEXT);
    case JsonNumber(token) =>
      forall i | 0 <= i < |token| ensures Plain(token[i]) {
        assert token[i] in token && IsNumberUnit(token[i]);
      }
      PlainWellFormed(token);
    case JsonString(s) => QuotedWellFormed(s);
    case JsonArray(items) =>
      ItemsWellFormed(items);
      WrappedWellFormed(OPEN_BRACKET, PrintItems(items), CLOSE_BRACKET);
    case JsonObject(members) =>
      MembersWellFormed(j, SortedTexts(members.Keys));
      WrappedWellFormed(OPEN_BRACE, PrintMembers(j, SortedTexts(members.Keys)), CLOSE_BRACE);
  }

  lemma {:induction false} ItemsWellFormed(items: seq<Json>)
    ensures forall i :: 0 <= i < |items| ==> WellFormedText(PrintItems(items)[i])
  {
    if items != [] {
      PrintedWellFormed(items[0]);
      ItemsWellFormed(items[1..]);
    }
  }

  lemma {:induction false} MembersWellFormed(j: Json, keys: seq<Text>)
    requires j.JsonObject? && forall k :: k in keys ==> k in j.members
    ensures forall i :: 0 <= i < |keys| ==> WellFormedText(PrintMembers(j, keys)[i])
    decreases j, 0, |keys|
  {
    if keys != [] {
      QuotedWellFormed(keys[0]);
      PrintedWellFormed(j.members[keys[0]]);
      PlainWellFormed([COLON]);
      WellFormedConcat(Quoted(keys[0]), [COLON]);
      WellFormedConcat(Quoted(keys[0]) + [COLON], Print(j.members[keys[0]]));
      MembersWellFormed(j, keys[1..]);
    }
  }

  // JSON files

  /** The bytes of a canonical JSON file. */
  function FileBytes(j: Json): Bytes {
    Encode(Print(j) + [LF])
  }

  /** The value of a canonical JSON file; nothing stands for bytes that are none. */
  function FileValue(b: Bytes): (r: Option<Json>)
    ensures r.Some? ==> b == FileBytes(r.value)
  {
    var t := Decode(b);
    if t.None? then None
    else
      var v := ReadValue(t.value);
      if v.Some? && FileBytes(v.value.0) == b then Some(v.value.0) else None
  }

  lemma FileNotEmpty(j: Json)
    ensures FileBytes(j) != []
  {
    assert Encode([]) == [];
    ReadFile(j);
  }

  /** Every value is read back from its file. */
  lemma ReadFile(j: Json)
    ensures FileValue(FileBytes(j)) == Some(j)
  {
    PrintedWellFormed(j);
    PlainWellFormed([LF]);
    WellFormedConcat(Print(j), [LF]);
    DecodeEncoded(Print(j) + [LF]);
    ReadPrinted(j, [LF]);
  }
}
