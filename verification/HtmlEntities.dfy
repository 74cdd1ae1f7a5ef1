/** `escapeHtml` and `decodeHtmlEntities`: each undoes the other's damage. */
module HtmlEntities {
  import opened Decimal
  import opened Wrappers
  import opened Utf16

  const AMP_ENTITY: Text := [AMP, 0x61, 0x6D, 0x70, SEMICOLON]
  const LT_ENTITY: Text := [AMP, 0x6C, 0x74, SEMICOLON]
  const GT_ENTITY: Text := [AMP, 0x67, 0x74, SEMICOLON]
  const QUOT_ENTITY: Text := [AMP, 0x71, 0x75, 0x6F, 0x74, SEMICOLON]
  const APOS_ENTITY: Text := [AMP, HASH, 0x33, 0x39, SEMICOLON]

  // Escaping

  /** `replaceAll` of one code unit. */
  function ReplaceAll(t: Text, c: CodeUnit, with: Text): Text {
    if t == [] then [] else (if t[0] == c then with else [t[0]]) + ReplaceAll(t[1..], c, with)
  }

  function EscapeHtml(t: Text): Text {
    var ampersands := ReplaceAll(t, AMP, AMP_ENTITY);
    var less := ReplaceAll(ampersands, LT, LT_ENTITY);
    var greater := ReplaceAll(less, GT, GT_ENTITY);
    var quotes := ReplaceAll(greater, QUOTE, QUOT_ENTITY);
    ReplaceAll(quotes, APOSTROPHE, APOS_ENTITY)
  }

  function EntityOf(c: CodeUnit): Text {
    if c == AMP then AMP_ENTITY
    else if c == LT then LT_ENTITY
    else if c == GT then GT_ENTITY
    else if c == QUOTE then QUOT_ENTITY
    else if c == APOSTROPHE then APOS_ENTITY
    else [c]
  }

  function EscapeOnce(t: Text): Text {
    if t == [] then [] else EntityOf(t[0]) + EscapeOnce(t[1..])
  }

  lemma {:induction false} ReplaceAllConcat(a: Text, b: Text, c: CodeUnit, with: Text)
    ensures ReplaceAll(a + b, c, with) == ReplaceAll(a, c, with) + ReplaceAll(b, c, with)
  {
    if a == [] {
      assert a + b == b;
    } else {
      assert (a + b)[1..] == a[1..] + b;
      ReplaceAllConcat(a[1..], b, c, with);
    }
  }

  lemma {:induction false} ReplaceAllAbsent(t: Text, c: CodeUnit, with: Text)
    requires c !in t
    ensures ReplaceAll(t, c, with) == t
  {
    if t != [] {
      ReplaceAllAbsent(t[1..], c, with);
      assert t == [t[0]] + t[1..];
    }
  }

  lemma ReplaceAllUnit(x: CodeUnit, c: CodeUnit, with: Text)
    ensures ReplaceAll([x], c, with) == if x == c then with else [x]
  {
    assert [x][1..] == [];
  }

  /** The later replacements leave the entities of the earlier ones alone. */
  lemma EscapeUnit(c: CodeUnit)
    ensures EscapeHtml([c]) == EntityOf(c)
  {
    ReplaceAllUnit(c, AMP, AMP_ENTITY);
    var t1 := ReplaceAll([c], AMP, AMP_ENTITY);
    if c == LT { ReplaceAllUnit(c, LT, LT_ENTITY); } else { ReplaceAllAbsent(t1, LT, LT_ENTITY); }
    var t2 := ReplaceAll(t1, LT, LT_ENTITY);
    if c == GT { ReplaceAllUnit(c, GT, GT_ENTITY); } else { ReplaceAllAbsent(t2, GT, GT_ENTITY); }
    var t3 := ReplaceAll(t2, GT, GT_ENTITY);
    if c == QUOTE { ReplaceAllUnit(c, QUOTE, QUOT_ENTITY); } else { ReplaceAllAbsent(t3, QUOTE, QUOT_ENTITY); }
    var t4 := ReplaceAll(t3, QUOTE, QUOT_ENTITY);
    if c == APOSTROPHE {
      ReplaceAllUnit(c, APOSTROPHE, APOS_ENTITY);
    } else {
      ReplaceAllAbsent(t4, APOSTROPHE, APOS_ENTITY);
    }
  }

  lemma EscapeConcat(a: Text, b: Text)
    ensures EscapeHtml(a + b) == EscapeHtml(a) + EscapeHtml(b)
  {
    ReplaceAllConcat(a, b, AMP, AMP_ENTITY);
    var a1, b1 := ReplaceAll(a, AMP, AMP_ENTITY), ReplaceAll(b, AMP, AMP_ENTITY);
    ReplaceAllConcat(a1, b1, LT, LT_ENTITY);
    var a2, b2 := ReplaceAll(a1, LT, LT_ENTITY), ReplaceAll(b1, LT, LT_ENTITY);
    ReplaceAllConcat(a2, b2, GT, GT_ENTITY);
    var a3, b3 := ReplaceAll(a2, GT, GT_ENTITY), ReplaceAll(b2, GT, GT_ENTITY);
    ReplaceAllConcat(a3, b3, QUOTE, QUOT_ENTITY);
    ReplaceAllConcat(ReplaceAll(a3, QUOTE, QUOT_ENTITY), ReplaceAll(b3, QUOTE, QUOT_ENTITY), APOSTROPHE, APOS_ENTITY);
  }

  /** The five sequential replacements are one pass over the characters. */
  lemma {:induction false} EscapesInOnePass(t: Text)
    ensures EscapeHtml(t) == EscapeOnce(t)
  {
    if t != [] {
      EscapeUnit(t[0]);
      EscapeConcat([t[0]], t[1..]);
      EscapesInOnePass(t[1..]);
      assert t == [t[0]] + t[1..];
    }
  }

  predicate Inert(c: CodeUnit) {
    c != LT && c != GT && c != QUOTE && c != APOSTROPHE
  }

  lemma {:induction false} EscapedOnceIsInert(t: Text)
    ensures forall c :: c in EscapeOnce(t) ==> Inert(c)
  {
    if t != [] {
      EscapedOnceIsInert(t[1..]);
      assert forall c :: c in EntityOf(t[0]) ==> Inert(c);
    }
  }

  /** Escaped text holds no angle bracket and no quote. */
  lemma EscapedIsInert(t: Text)
    ensures forall c :: c in EscapeHtml(t) ==> Inert(c)
  {
    EscapesInOnePass(t);
    EscapedOnceIsInert(t);
  }

  // Decoding

  const NBSP: CodeUnit := 0xA0

  /** The table is a plain object, so `&constructor;` finds the inherited `Object` function and prints it. */
  const CONSTRUCTOR_NAME: Text :=
    [0x63, 0x6F, 0x6E, 0x73, 0x74, 0x72, 0x75, 0x63, 0x74, 0x6F, 0x72]
  const CONSTRUCTOR_TEXT: Text :=
    [0x66, 0x75, 0x6E, 0x63, 0x74, 0x69, 0x6F, 0x6E, SPACE, 0x4F, 0x62, 0x6A, 0x65, 0x63, 0x74, 0x28, 0x29, SPACE,
     OPEN_BRACE, SPACE, OPEN_BRACKET, 0x6E, 0x61, 0x74, 0x69, 0x76, 0x65, SPACE, 0x63, 0x6F, 0x64, 0x65,
     CLOSE_BRACKET, SPACE, CLOSE_BRACE]

  /** The six names in the table. */
  function TableValue(name: Text): Option<Text> {
    if name == [0x61, 0x6D, 0x70] then Some([AMP])
    else if name == [0x61, 0x70, 0x6F, 0x73] then Some([APOSTROPHE])
    else if name == [0x67, 0x74] then Some([GT])
    else if name == [0x6C, 0x74] then Some([LT])
    else if name == [0x6E, 0x62, 0x73, 0x70] then Some([NBSP])
    else if name == [0x71, 0x75, 0x6F, 0x74] then Some([QUOTE])
    else None
  }

  function NamedValue(name: Text): Option<Text> {
    if TableValue(name).Some? then TableValue(name)
    else if name == CONSTRUCTOR_NAME then Some(CONSTRUCTOR_TEXT)
    else None
  }

  predicate IsHexDigit(c: CodeUnit) {
    IsDigit(c) || 0x41 <= c <= 0x46 || 0x61 <= c <= 0x66
  }

  predicate IsAlphanumeric(c: CodeUnit) {
    IsAsciiLetter(c) || IsDigit(c)
  }

  /** Length of the token after an ampersand, when a semicolon closes it. */
  function TokenLength(t: Text): (r: Option<nat>)
    ensures r.Some? ==> 1 <= r.value < |t| && t[r.value] == SEMICOLON
  {
    if t == [] then None
    else
      var n :=
        if t[0] == HASH && |t| > 1 && FoldAscii(t[1]) == 0x78 && Span(IsHexDigit, t[2..]) > 0 then
          2 + Span(IsHexDigit, t[2..])
        else if t[0] == HASH && Span(IsDigit, t[1..]) > 0 then 1 + Span(IsDigit, t[1..])
        else if IsAsciiLetter(t[0]) && Span(IsAlphanumeric, t[1..]) > 0 then 1 + Span(IsAlphanumeric, t[1..])
        else 0;
      if n > 0 && n < |t| && t[n] == SEMICOLON then Some(n) else None
  }

  function DigitValue(c: CodeUnit): nat {
    if IsDigit(c) then c - 0x30 else if 0x61 <= c <= 0x66 then c - 0x57 else 0
  }

  function Numeral(t: Text, radix: nat): nat {
    if t == [] then 0 else Numeral(t[..|t| - 1], radix) * radix + DigitValue(t[|t| - 1])
  }

  /** `String.fromCodePoint`; nothing stands for its range error. */
  function FromCodePoint(n: nat): Option<Text> {
    if n < 0x1_0000 then Some([n])
    else if n <= 0x10_FFFF then Some([0xD800 + (n - 0x1_0000) / 0x400, 0xDC00 + (n - 0x1_0000) % 0x400])
    else None
  }

  function DecodedToken(token: Text): Option<Text>
    requires token != []
  {
    var normalized := FoldText(token);
    if normalized[0] == HASH && |normalized| > 1 && normalized[1] == 0x78 then
      FromCodePoint(Numeral(normalized[2..], 16))
    else if normalized[0] == HASH then FromCodePoint(Numeral(normalized[1..], 10))
    else NamedValue(normalized)
  }

  /** One left-to-right pass: every recognised reference is replaced, everything else is kept. */
  function DecodeEntities(t: Text): Text
    decreases |t|
  {
    if t == [] then []
    else if t[0] == AMP && TokenLength(t[1..]).Some? then
      var n := TokenLength(t[1..]).value;
      var decoded := DecodedToken(t[1..n + 1]);
      (if decoded.Some? then decoded.value else t[..n + 2]) + DecodeEntities(t[n + 2..])
    else [t[0]] + DecodeEntities(t[1..])
  }

  /** What the pattern takes for the name of an entity: a letter and at least one more letter or digit. */
  predicate IsName(name: Text) {
    |name| > 1 && IsAsciiLetter(name[0]) && forall i :: 0 <= i < |name| ==> IsAlphanumeric(name[i])
  }

  lemma TokenOfName(name: Text, rest: Text)
    requires IsName(name)
    ensures TokenLength(name + ([SEMICOLON] + rest)) == Some(|name|)
  {
    var t := name + ([SEMICOLON] + rest);
    assert t[1..] == name[1..] + ([SEMICOLON] + rest);
    forall i | 0 <= i < |name[1..]| ensures IsAlphanumeric(name[1..][i]) {
      assert name[1..][i] == name[i + 1];
    }
    SpanExact(IsAlphanumeric, name[1..], [SEMICOLON] + rest);
    assert t[|name|] == SEMICOLON;
  }

  lemma TokenSlices(token: Text, rest: Text)
    ensures var t := [AMP] + token + [SEMICOLON] + rest;
      t[0] == AMP && t[1..] == token + ([SEMICOLON] + rest) && t[1..|token| + 1] == token && t[|token| + 2..] == rest
  {
  }

  lemma DecodeReference(t: Text, n: nat)
    requires t != [] && t[0] == AMP && TokenLength(t[1..]) == Some(n)
    ensures var decoded := DecodedToken(t[1..n + 1]);
      DecodeEntities(t) == (if decoded.Some? then decoded.value else t[..n + 2]) + DecodeEntities(t[n + 2..])
  {
  }

  lemma DecodeStep(t: Text, n: nat, rest: Text)
    requires t != [] && t[0] == AMP
    requires TokenLength(t[1..]) == Some(n) && DecodedToken(t[1..n + 1]).Some? && rest == t[n + 2..]
    ensures DecodeEntities(t) == DecodedToken(t[1..n + 1]).value + DecodeEntities(rest)
  {
    DecodeReference(t, n);
  }

  lemma DecodeToken(token: Text, rest: Text)
    requires token != [] && TokenLength(token + ([SEMICOLON] + rest)) == Some(|token|) && DecodedToken(token).Some?
    ensures DecodeEntities([AMP] + token + [SEMICOLON] + rest) == DecodedToken(token).value + DecodeEntities(rest)
  {
    TokenSlices(token, rest);
    DecodeStep([AMP] + token + [SEMICOLON] + rest, |token|, rest);
  }

  lemma DecodeNamed(name: Text, rest: Text)
    requires |name| > 1 && (forall c :: c in name ==> 0x61 <= c <= 0x7A) && NamedValue(name).Some?
    ensures DecodeEntities([AMP] + name + [SEMICOLON] + rest) == NamedValue(name).value + DecodeEntities(rest)
  {
    assert FoldText(name) == name && name[0] in name;
    assert IsName(name);
    TokenOfName(name, rest);
    DecodeToken(name, rest);
  }

  /** A name's token is decoded by name, whatever follows it. */
  lemma NameToken(name: Text)
    requires IsName(name)
    ensures DecodedToken(name) == NamedValue(FoldText(name))
  {
    assert FoldText(name)[0] != HASH;
  }

  lemma KeptStep(t: Text, n: nat, rest: Text)
    requires t != [] && t[0] == AMP
    requires TokenLength(t[1..]) == Some(n) && DecodedToken(t[1..n + 1]).None? && rest == t[n + 2..]
    ensures DecodeEntities(t) == t[..n + 2] + DecodeEntities(rest)
  {
    DecodeReference(t, n);
  }

  /** A reference to a name that nothing knows stays as it is. */
  lemma UnknownKept(name: Text, rest: Text)
    requires IsName(name) && NamedValue(FoldText(name)).None?
    ensures DecodeEntities([AMP] + name + [SEMICOLON] + rest) == [AMP] + name + [SEMICOLON] + DecodeEntities(rest)
  {
    var t := [AMP] + name + [SEMICOLON] + rest;
    NameToken(name);
    TokenOfName(name, rest);
    TokenSlices(name, rest);
    KeptStep(t, |name|, rest);
    assert t[..|name| + 2] == [AMP] + name + [SEMICOLON];
  }

  /** A reference to `constructor`, in any case, becomes the text of that function. */
  lemma ConstructorDecoded(name: Text, rest: Text)
    requires IsName(name) && FoldText(name) == CONSTRUCTOR_NAME
    ensures DecodeEntities([AMP] + name + [SEMICOLON] + rest) == CONSTRUCTOR_TEXT + DecodeEntities(rest)
  {
    assert CONSTRUCTOR_NAME[0] == 0x63;
    NameToken(name);
    TokenOfName(name, rest);
    DecodeToken(name, rest);
  }

  /** Names that the table does not hold are left alone, except for the one that every object inherits. */
  lemma UnlistedKeptIff(name: Text, rest: Text)
    requires IsName(name) && TableValue(FoldText(name)).None?
    ensures DecodeEntities([AMP] + name + [SEMICOLON] + rest) == [AMP] + name + [SEMICOLON] + DecodeEntities(rest)
      <==> FoldText(name) != CONSTRUCTOR_NAME
  {
    if FoldText(name) == CONSTRUCTOR_NAME {
      ConstructorDecoded(name, rest);
      assert (CONSTRUCTOR_TEXT + DecodeEntities(rest))[0] == 0x66;
      assert ([AMP] + name + [SEMICOLON] + DecodeEntities(rest))[0] == AMP;
    } else {
      UnknownKept(name, rest);
    }
  }

  /** `&constructor;` on its own. */
  lemma ConstructorWitness()
    ensures DecodeEntities(Chars("&constructor;")) == Chars("function Object() { [native code] }")
  {
    assert CONSTRUCTOR_TEXT == Chars("function Object() { [native code] }");
    assert [AMP] + CONSTRUCTOR_NAME + [SEMICOLON] == Chars("&constructor;");
    var name := CONSTRUCTOR_NAME;
    assert FoldText(name) == name;
    ConstructorDecoded(name, []);
    assert [AMP] + name + [SEMICOLON] + [] == [AMP] + name + [SEMICOLON];
  }

  // What each reference stands for

  /** The UTF-16 text of one code point: itself, or a high and a low surrogate that make it up. */
  ghost predicate IsCodePoint(t: Text, n: nat) {
    if n < 0x1_0000 then t == [n]
    else
      && |t| == 2 && 0xD800 <= t[0] < 0xDC00 <= t[1] < 0xE000
      && n == 0x1_0000 + (t[0] as int - 0xD800) * 0x400 + (t[1] as int - 0xDC00)
  }

  /** The hexadecimal numeral of a number, in lower case. */
  function HexNumeral(n: nat): (r: Text)
    ensures r != [] && forall c :: c in r ==> c in Chars("0123456789abcdef")
  {
    if n < 16 then [Chars("0123456789abcdef")[n]]
    else HexNumeral(n / 16) + [Chars("0123456789abcdef")[n % 16]]
  }

  lemma HexSpelled(n: nat)
    requires n < 16
    ensures var c := Chars("0123456789abcdef")[n]; DigitValue(c) == n && IsHexDigit(c) && FoldAscii(c) == c
  {
    assert Chars("0123456789abcdef") ==
      [0x30, 0x31, 0x32, 0x33, 0x34, 0x35, 0x36, 0x37, 0x38, 0x39, 0x61, 0x62, 0x63, 0x64, 0x65, 0x66];
  }

  lemma {:induction false} HexNumeralValue(n: nat)
    ensures Numeral(HexNumeral(n), 16) == n
    ensures forall c :: c in HexNumeral(n) ==> IsHexDigit(c)
  {
    HexSpelled(n % 16);
    var t := HexNumeral(n);
    if n >= 16 {
      HexNumeralValue(n / 16);
      assert t[..|t| - 1] == HexNumeral(n / 16);
    } else {
      assert t[..0] == [];
    }
  }

  lemma {:induction false} DecimalNumeral(t: Text)
    requires forall c :: c in t ==> IsDigit(c)
    ensures Numeral(t, 10) == ValueOf(t)
  {
    if t != [] {
      assert t[|t| - 1] in t;
      forall c | c in t[..|t| - 1] ensures c in t { }
      DecimalNumeral(t[..|t| - 1]);
    }
  }

  lemma FoldedHex(t: Text, n: nat)
    requires FoldText(t) == HexNumeral(n)
    ensures t != [] && forall i :: 0 <= i < |t| ==> IsHexDigit(t[i])
  {
    HexNumeralValue(n);
    forall i | 0 <= i < |t| ensures IsHexDigit(t[i]) {
      assert FoldText(t)[i] in HexNumeral(n) && FoldText(t)[i] == FoldAscii(t[i]);
    }
  }

  lemma FoldedDigits(t: Text)
    requires forall c :: c in t ==> IsDigit(c)
    ensures FoldText(t) == t
  {
    forall i | 0 <= i < |t| ensures FoldText(t)[i] == t[i] {
      assert t[i] in t;
    }
  }

  lemma CodePointText(n: nat)
    ensures n <= 0x10_FFFF ==> FromCodePoint(n).Some? && IsCodePoint(FromCodePoint(n).value, n)
    ensures n > 0x10_FFFF ==> FromCodePoint(n).None?
  {
  }

  lemma HexLength(x: CodeUnit, t: Text, rest: Text)
    requires (x == 'x' as int || x == 'X' as int) && t != [] && forall i :: 0 <= i < |t| ==> IsHexDigit(t[i])
    ensures TokenLength([HASH, x] + t + ([SEMICOLON] + rest)) == Some(|t| + 2)
  {
    var u := [HASH, x] + t + ([SEMICOLON] + rest);
    assert u[2..] == t + ([SEMICOLON] + rest);
    SpanExact(IsHexDigit, t, [SEMICOLON] + rest);
  }

  lemma HexToken(x: CodeUnit, t: Text, n: nat)
    requires (x == 'x' as int || x == 'X' as int) && FoldText(t) == HexNumeral(n)
    ensures DecodedToken([HASH, x] + t) == FromCodePoint(n)
  {
    HexNumeralValue(n);
    FoldedHexToken(x, t);
  }

  lemma FoldedHexToken(x: CodeUnit, t: Text)
    requires x == 'x' as int || x == 'X' as int
    ensures var folded := FoldText([HASH, x] + t); folded[0] == HASH && folded[1] == 0x78 && folded[2..] == FoldText(t)
  {
  }

  lemma DecimalLength(t: Text, rest: Text)
    requires t != [] && forall c :: c in t ==> IsDigit(c)
    ensures TokenLength([HASH] + t + ([SEMICOLON] + rest)) == Some(|t| + 1)
  {
    var u := [HASH] + t + ([SEMICOLON] + rest);
    assert u[1..] == t + ([SEMICOLON] + rest) && t[0] in t && u[1] == t[0];
    SpanExact(IsDigit, t, [SEMICOLON] + rest);
  }

  lemma DecimalToken(t: Text)
    requires t != [] && forall c :: c in t ==> IsDigit(c)
    ensures DecodedToken([HASH] + t) == FromCodePoint(ValueOf(t))
  {
    FoldedDigits(t);
    DecimalNumeral(t);
    var token := [HASH] + t;
    assert t[0] in t && token[1] == t[0];
    assert FoldText(token)[1..] == FoldText(t);
  }

  lemma TokenRead(token: Text, rest: Text)
    requires token != [] && TokenLength(token + ([SEMICOLON] + rest)) == Some(|token|)
    ensures DecodeEntities([AMP] + token + [SEMICOLON] + rest) ==
      (if DecodedToken(token).Some? then DecodedToken(token).value else [AMP] + token + [SEMICOLON])
      + DecodeEntities(rest)
  {
    TokenSlices(token, rest);
    TokenWhole(token, rest);
    DecodeReference([AMP] + token + [SEMICOLON] + rest, |token|);
  }

  lemma TokenWhole(token: Text, rest: Text)
    ensures ([AMP] + token + [SEMICOLON] + rest)[..|token| + 2] == [AMP] + token + [SEMICOLON]
  {
  }

  /** A decimal reference, leading zeros or not, is its code point; beyond the last one it stays. */
  lemma DecimalDecoded(t: Text, rest: Text)
    requires t != [] && forall c :: c in t ==> IsDigit(c)
    ensures var n, reference := ValueOf(t), Chars("&#") + t + Chars(";");
      if n <= 0x10_FFFF then
        exists point :: IsCodePoint(point, n) && DecodeEntities(reference + rest) == point + DecodeEntities(rest)
      else DecodeEntities(reference + rest) == reference + DecodeEntities(rest)
  {
    var token := [HASH] + t;
    assert Chars("&#") + t + Chars(";") == [AMP] + token + [SEMICOLON];
    DecimalLength(t, rest);
    DecimalToken(t);
    TokenRead(token, rest);
    CodePointText(ValueOf(t));
  }

  /** So is a hexadecimal one, with `x` and digits in either case. */
  lemma HexDecoded(x: CodeUnit, t: Text, n: nat, rest: Text)
    requires (x == 'x' as int || x == 'X' as int) && FoldText(t) == HexNumeral(n)
    ensures var reference := Chars("&#") + [x] + t + Chars(";");
      if n <= 0x10_FFFF then
        exists point :: IsCodePoint(point, n) && DecodeEntities(reference + rest) == point + DecodeEntities(rest)
      else DecodeEntities(reference + rest) == reference + DecodeEntities(rest)
  {
    var token := [HASH, x] + t;
    assert Chars("&#") + [x] + t + Chars(";") == [AMP] + token + [SEMICOLON];
    FoldedHex(t, n);
    HexLength(x, t, rest);
    HexToken(x, t, n);
    TokenRead(token, rest);
    CodePointText(n);
  }

  /** The six names and their characters. */
  ghost predicate Names(name: Text, c: CodeUnit) {
    || (name == Chars("amp") && c == '&' as int)
    || (name == Chars("apos") && c == '\'' as int)
    || (name == Chars("gt") && c == '>' as int)
    || (name == Chars("lt") && c == '<' as int)
    || (name == Chars("nbsp") && c == 0xA0)
    || (name == Chars("quot") && c == '"' as int)
  }

  lemma TableSpelled(name: Text, c: CodeUnit)
    ensures TableValue(name) == Some([c]) <==> Names(name, c)
  {
    assert Chars("amp") == [0x61, 0x6D, 0x70] && Chars("apos") == [0x61, 0x70, 0x6F, 0x73];
    assert Chars("gt") == [0x67, 0x74] && Chars("lt") == [0x6C, 0x74];
    assert Chars("nbsp") == [0x6E, 0x62, 0x73, 0x70] && Chars("quot") == [0x71, 0x75, 0x6F, 0x74];
  }

  lemma NameOfLetters(name: Text, c: CodeUnit)
    requires Names(FoldText(name), c)
    ensures IsName(name)
  {
    var folded := FoldText(name);
    assert |folded| > 1 && forall x :: x in folded ==> IsAsciiLetter(x);
    forall i | 0 <= i < |name| ensures IsAsciiLetter(name[i]) {
      assert folded[i] in folded && folded[i] == FoldAscii(name[i]);
    }
  }

  /** A name of the table, in any case, is its character. */
  lemma NameDecoded(name: Text, c: CodeUnit, rest: Text)
    requires Names(FoldText(name), c)
    ensures DecodeEntities(Chars("&") + name + Chars(";") + rest) == [c] + DecodeEntities(rest)
  {
    TableSpelled(FoldText(name), c);
    NameOfLetters(name, c);
    NameToken(name);
    TokenOfName(name, rest);
    TokenRead(name, rest);
    assert Chars("&") + name + Chars(";") == [AMP] + name + [SEMICOLON];
  }

  /** Text without an ampersand is text as it stands. */
  lemma {:induction false} PlainKept(t: Text)
    requires '&' as int !in t
    ensures DecodeEntities(t) == t
  {
    if t != [] {
      assert t[0] in t;
      forall c | c in t[1..] ensures c in t { }
      PlainKept(t[1..]);
      assert t == [t[0]] + t[1..];
    }
  }

  /** The five characters that are escaped, and how. */
  lemma EscapesSpelled(c: CodeUnit)
    ensures EscapeHtml(Chars("&")) == Chars("&amp;") && EscapeHtml(Chars("<")) == Chars("&lt;")
    ensures EscapeHtml(Chars(">")) == Chars("&gt;") && EscapeHtml(Chars("\"")) == Chars("&quot;")
    ensures EscapeHtml(Chars("'")) == Chars("&#39;")
    ensures c !in Chars("&<>\"'") ==> EscapeHtml([c]) == [c]
  {
    EscapeOne(AMP);
    EscapeOne(LT);
    EscapeOne(GT);
    EscapeOne(QUOTE);
    EscapeOne(APOSTROPHE);
    EscapeOne(c);
    EntitiesSpelled();
    assert Chars("&<>\"'") == [AMP, LT, GT, QUOTE, APOSTROPHE];
  }

  lemma EntitiesSpelled()
    ensures AMP_ENTITY == Chars("&amp;") && LT_ENTITY == Chars("&lt;") && GT_ENTITY == Chars("&gt;")
    ensures QUOT_ENTITY == Chars("&quot;") && APOS_ENTITY == Chars("&#39;")
    ensures Chars("&") == [AMP] && Chars("<") == [LT] && Chars(">") == [GT]
    ensures Chars("\"") == [QUOTE] && Chars("'") == [APOSTROPHE]
  {
  }

  lemma EscapeOne(c: CodeUnit)
    ensures EscapeHtml([c]) == EntityOf(c)
  {
    EscapesInOnePass([c]);
    assert EscapeOnce([c]) == EntityOf(c) + EscapeOnce([]);
  }

  /** The name between the ampersand and the semicolon. */
  function EntityName(c: CodeUnit): Text
    requires c == AMP || c == LT || c == GT || c == QUOTE
  {
    if c == AMP then [0x61, 0x6D, 0x70]
    else if c == LT then [0x6C, 0x74]
    else if c == GT then [0x67, 0x74]
    else [0x71, 0x75, 0x6F, 0x74]
  }

  lemma NamedEntity(c: CodeUnit)
    requires c == AMP || c == LT || c == GT || c == QUOTE
    ensures EntityOf(c) == [AMP] + EntityName(c) + [SEMICOLON]
    ensures NamedValue(EntityName(c)) == Some([c])
    ensures forall x :: x in EntityName(c) ==> 0x61 <= x <= 0x7A
  {
    var name := EntityName(c);
    if c == AMP {
      assert name[0] == 0x61 && name[1] == 0x6D;
    } else if c == LT {
      assert name[0] == 0x6C;
    } else if c == GT {
      assert name[0] == 0x67;
    } else {
      assert name[0] == 0x71;
    }
  }

  lemma DecodeApostrophe(rest: Text)
    ensures DecodeEntities(APOS_ENTITY + rest) == [APOSTROPHE] + DecodeEntities(rest)
  {
    var digits: Text := [0x33, 0x39];
    var t := APOS_ENTITY + rest;
    assert t[1..][1..] == digits + ([SEMICOLON] + rest);
    SpanExact(IsDigit, digits, [SEMICOLON] + rest);
    assert t[1..][0] == HASH && t[1..][1] == 0x33;
    assert TokenLength(t[1..]) == Some(3);
    var token := t[1..4];
    assert token == [HASH, 0x33, 0x39] && FoldText(token) == token && token[1..] == digits;
    assert digits[..1] == [0x33] && [0x33][..0] == [];
    assert Numeral([0x33], 10) == 3 && Numeral(digits, 10) == 39;
    assert t[5..] == rest;
  }

  lemma DecodeEntityOf(c: CodeUnit, rest: Text)
    ensures DecodeEntities(EntityOf(c) + rest) == [c] + DecodeEntities(rest)
  {
    if c == APOSTROPHE {
      DecodeApostrophe(rest);
    } else if c == AMP || c == LT || c == GT || c == QUOTE {
      NamedEntity(c);
      DecodeNamed(EntityName(c), rest);
    } else {
      assert ([c] + rest)[1..] == rest;
    }
  }

  lemma {:induction false} DecodeEscapedOnce(t: Text)
    ensures DecodeEntities(EscapeOnce(t)) == t
  {
    if t != [] {
      DecodeEntityOf(t[0], EscapeOnce(t[1..]));
      DecodeEscapedOnce(t[1..]);
      assert t == [t[0]] + t[1..];
    }
  }

  /** Decoding an escaped text gives the text back, whatever it contains. */
  lemma DecodeEscaped(t: Text)
    ensures DecodeEntities(EscapeHtml(t)) == t
  {
    EscapesInOnePass(t);
    DecodeEscapedOnce(t);
  }

  /** Escaping loses nothing. */
  lemma EscapeInjective(a: Text, b: Text)
    requires EscapeHtml(a) == EscapeHtml(b)
    ensures a == b
  {
    DecodeEscaped(a);
    DecodeEscaped(b);
  }
}
