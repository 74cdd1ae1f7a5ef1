/**
 What the data-build normalizer makes of documents written out: which values it replaces, in
 which attribute, and where it leaves everything as it is.
 */
module HtmlDocuments {
  import opened Wrappers
  import opened Utf16
  import opened HtmlScanner
  import opened HtmlTags
  import opened HtmlNormalForm

  // Texts spelled out

  ghost predicate AnyCase(t: Text, lower: Text, upper: Text) {
    |t| == |lower| == |upper| && forall i :: 0 <= i < |t| ==> t[i] == lower[i] || t[i] == upper[i]
  }

  ghost predicate SpellsDataBuild(t: Text) {
    AnyCase(t, Chars("data-build"), Chars("DATA-BUILD"))
  }

  ghost predicate SpellsRawElement(t: Text) {
    || AnyCase(t, Chars("script"), Chars("SCRIPT"))
    || AnyCase(t, Chars("style"), Chars("STYLE"))
    || AnyCase(t, Chars("textarea"), Chars("TEXTAREA"))
    || AnyCase(t, Chars("title"), Chars("TITLE"))
  }

  predicate Decimals(t: Text) {
    forall i :: 0 <= i < |t| ==> '0' as int <= t[i] <= '9' as int
  }

  /** `Z`, `+hhmm` or `-hhmm`, `+hh:mm` or `-hh:mm`. */
  ghost predicate ZoneSpelled(t: Text) {
    || t == Chars("Z")
    || (exists sign, h, m :: Offset(sign, h, m) && t == sign + h + m)
    || (exists sign, h, m :: Offset(sign, h, m) && t == sign + h + Chars(":") + m)
  }

  ghost predicate Offset(sign: Text, h: Text, m: Text) {
    (sign == Chars("+") || sign == Chars("-")) && |h| == 2 && |m| == 2 && Decimals(h) && Decimals(m)
  }

  /** Year, month, day, hour, minute and second, in decimal digits. */
  datatype Moment = Moment(year: Text, month: Text, day: Text, hour: Text, minute: Text, second: Text)

  predicate ValidMoment(d: Moment) {
    && |d.year| == 4 && |d.month| == 2 && |d.day| == 2 && |d.hour| == 2 && |d.minute| == 2 && |d.second| == 2
    && Decimals(d.year) && Decimals(d.month) && Decimals(d.day)
    && Decimals(d.hour) && Decimals(d.minute) && Decimals(d.second)
  }

  function MomentText(d: Moment): Text {
    d.year + Chars("-") + d.month + Chars("-") + d.day + Chars("T")
    + d.hour + Chars(":") + d.minute + Chars(":") + d.second
  }

  /** Nothing, or a point and one to nine digits. */
  ghost predicate FractionSpelled(t: Text) {
    t == [] || (2 <= |t| <= 10 && t[0] == '.' as int && Decimals(t[1..]))
  }

  /** A date and a time of day, perhaps a fraction of a second, and a zone. */
  ghost predicate StampSpelled(t: Text) {
    exists d, fraction, zone :: IsStamp(t, d, fraction, zone)
  }

  ghost predicate IsStamp(t: Text, d: Moment, fraction: Text, zone: Text) {
    ValidMoment(d) && FractionSpelled(fraction) && ZoneSpelled(zone) && t == MomentText(d) + fraction + zone
  }

  const TIMESTAMP: Text := Chars("__TIMESTAMP__")

  // They are what the scanner looks for

  lemma TextsSpelled()
    ensures MARKER == TIMESTAMP && DATA_BUILD == Chars("data-build")
    ensures SCRIPT == Chars("script") && STYLE == Chars("style")
    ensures TEXTAREA == Chars("textarea") && TITLE == Chars("title")
    ensures COMMENT_OPEN == Chars("<!--") && COMMENT_CLOSE == Chars("-->")
  {
  }

  lemma FoldsTo(t: Text, lower: Text, upper: Text)
    requires |lower| == |upper|
    requires forall i :: 0 <= i < |lower| ==>
      (0x61 <= lower[i] <= 0x7A && upper[i] == lower[i] - 0x20) || (lower[i] == MINUS == upper[i])
    ensures AnyCase(t, lower, upper) <==> FoldText(t) == lower
  {
    if AnyCase(t, lower, upper) {
      assert forall i :: 0 <= i < |t| ==> FoldAscii(t[i]) == lower[i];
    }
    if FoldText(t) == lower {
      forall i | 0 <= i < |t| ensures t[i] == lower[i] || t[i] == upper[i] {
        assert FoldText(t)[i] == FoldAscii(t[i]);
      }
    }
  }

  lemma DataBuildFolds(t: Text)
    ensures SpellsDataBuild(t) <==> FoldText(t) == DATA_BUILD
  {
    TextsSpelled();
    FoldsTo(t, Chars("data-build"), Chars("DATA-BUILD"));
  }

  lemma RawElementFolds(t: Text)
    ensures SpellsRawElement(t) <==> IsRawTextElement(FoldText(t))
  {
    TextsSpelled();
    FoldsTo(t, Chars("script"), Chars("SCRIPT"));
    FoldsTo(t, Chars("style"), Chars("STYLE"));
    FoldsTo(t, Chars("textarea"), Chars("TEXTAREA"));
    FoldsTo(t, Chars("title"), Chars("TITLE"));
  }

  lemma ZoneIs(t: Text)
    ensures ZoneSpelled(t) <==> IsZone(t)
  {
    if IsZone(t) {
      ZoneFound(t);
    }
    if ZoneSpelled(t) {
      ZoneRead(t);
    }
  }

  lemma ZoneFound(t: Text)
    requires IsZone(t)
    ensures ZoneSpelled(t)
  {
    if |t| == 1 {
      assert t == Chars("Z");
    } else {
      var sign, h, m := t[..1], t[1..3], t[|t| - 2..];
      assert sign == [t[0]] && Offset(sign, h, m);
      if |t| == 5 {
        assert t == sign + h + m;
      } else {
        assert Chars(":") == [t[3]] && t == sign + h + Chars(":") + m;
      }
    }
  }

  lemma ZoneRead(t: Text)
    requires ZoneSpelled(t)
    ensures IsZone(t)
  {
    if sign, h, m :| Offset(sign, h, m) && t == sign + h + m {
      assert t[1] == h[0] && t[2] == h[1] && t[3] == m[0] && t[4] == m[1];
    } else if sign, h, m :| Offset(sign, h, m) && t == sign + h + Chars(":") + m {
      assert t[1] == h[0] && t[2] == h[1] && t[4] == m[0] && t[5] == m[1];
    } else {
      assert t == [0x5A];
    }
  }

  lemma MomentRead(t: Text, d: Moment, rest: Text)
    requires ValidMoment(d) && t == MomentText(d) + rest
    ensures |t| == 19 + |rest| && t[19..] == rest
    ensures DigitsAt(t, 0, 4) && t[4] == MINUS && DigitsAt(t, 5, 2) && t[7] == MINUS && DigitsAt(t, 8, 2)
    ensures t[10] == 0x54
    ensures DigitsAt(t, 11, 2) && t[13] == COLON && DigitsAt(t, 14, 2) && t[16] == COLON && DigitsAt(t, 17, 2)
  {
    var m := MomentText(d);
    assert m[0..4] == d.year && m[5..7] == d.month && m[8..10] == d.day;
    assert m[11..13] == d.hour && m[14..16] == d.minute && m[17..19] == d.second;
    assert forall i :: 0 <= i < 4 ==> t[i] == d.year[i];
    assert forall i :: 5 <= i < 7 ==> t[i] == d.month[i - 5];
    assert forall i :: 8 <= i < 10 ==> t[i] == d.day[i - 8];
    assert forall i :: 11 <= i < 13 ==> t[i] == d.hour[i - 11];
    assert forall i :: 14 <= i < 16 ==> t[i] == d.minute[i - 14];
    assert forall i :: 17 <= i < 19 ==> t[i] == d.second[i - 17];
  }

  lemma MomentFound(t: Text) returns (d: Moment)
    requires IsTimestamp(t)
    ensures ValidMoment(d) && t == MomentText(d) + t[19..]
  {
    d := Moment(t[0..4], t[5..7], t[8..10], t[11..13], t[14..16], t[17..19]);
    var m := MomentText(d);
    assert |m| == 19;
    assert m[0..4] == d.year && m[5..7] == d.month && m[8..10] == d.day;
    assert m[11..13] == d.hour && m[14..16] == d.minute && m[17..19] == d.second;
    assert m == t[..19];
  }

  lemma ZoneStarts(t: Text)
    requires IsZone(t)
    ensures t != [] && !IsDigit(t[0]) && t[0] != DOT
  {
  }

  /** The regular expression accepts exactly the timestamps as spelled out. */
  lemma StampIs(t: Text)
    ensures StampSpelled(t) <==> IsTimestamp(t)
  {
    if StampSpelled(t) {
      var d, fraction, zone :| IsStamp(t, d, fraction, zone);
      StampRead(t, d, fraction, zone);
    }
    if IsTimestamp(t) {
      StampFound(t);
    }
  }

  lemma StampRead(t: Text, d: Moment, fraction: Text, zone: Text)
    requires IsStamp(t, d, fraction, zone)
    ensures IsTimestamp(t)
  {
    ZoneIs(zone);
    assert t == MomentText(d) + (fraction + zone);
    MomentRead(t, d, fraction + zone);
    TailRead(fraction, zone);
    TailMoves(t, fraction + zone);
  }

  /** What follows the seconds of a timestamp. */
  predicate IsTail(tail: Text) {
    && tail != []
    && if tail[0] == DOT then
         var n := Span(IsDigit, tail[1..]);
         1 <= n <= 9 && IsZone(tail[1..][n..])
       else IsZone(tail)
  }

  lemma TailMoves(t: Text, tail: Text)
    requires |t| >= 19 && t[19..] == tail && IsTail(tail)
    ensures |t| > 19
    ensures if t[19] == DOT then var n := Span(IsDigit, t[20..]); 1 <= n <= 9 && IsZone(t[20 + n..])
      else IsZone(t[19..])
  {
    assert t[19] == tail[0] && t[20..] == tail[1..];
    if tail[0] == DOT {
      var n := Span(IsDigit, tail[1..]);
      assert t[20 + n..] == tail[1..][n..];
    }
  }

  lemma TailRead(fraction: Text, zone: Text)
    requires FractionSpelled(fraction) && IsZone(zone)
    ensures IsTail(fraction + zone)
  {
    ZoneStarts(zone);
    if fraction == [] {
      assert fraction + zone == zone;
    } else {
      FractionRead(fraction, zone);
    }
  }

  lemma FractionRead(fraction: Text, zone: Text)
    requires FractionSpelled(fraction) && fraction != [] && zone != [] && !IsDigit(zone[0])
    ensures var rest := (fraction + zone)[1..];
      Span(IsDigit, rest) == |fraction| - 1 && rest[|fraction| - 1..] == zone
    ensures (fraction + zone)[0] == DOT
  {
    assert (fraction + zone)[1..] == fraction[1..] + zone;
    SpanExact(IsDigit, fraction[1..], zone);
  }

  lemma StampFound(t: Text)
    requires IsTimestamp(t)
    ensures StampSpelled(t)
  {
    var d := MomentFound(t);
    var fraction, zone := [], t[19..];
    if t[19] == DOT {
      var n := Span(IsDigit, t[20..]);
      fraction, zone := t[19..20 + n], t[20 + n..];
      assert fraction[1..] == t[20..][..n];
    }
    ZoneIs(zone);
    assert t[19..] == fraction + zone;
    assert t == MomentText(d) + fraction + zone;
    assert IsStamp(t, d, fraction, zone);
  }

  // One attribute in one tag

  ghost predicate Letter(c: CodeUnit) {
    'a' as int <= c <= 'z' as int || 'A' as int <= c <= 'Z' as int
  }

  ghost predicate LetterOrDigit(c: CodeUnit) {
    Letter(c) || '0' as int <= c <= '9' as int
  }

  /** A letter and then letters, digits and `:`, `.`, `_`, `-`. */
  ghost predicate TagNameSpelled(t: Text) {
    t != [] && Letter(t[0]) && forall i :: 0 <= i < |t| ==> LetterOrDigit(t[i]) || t[i] in Chars(":._-")
  }

  /** Something without white space, `=`, `/`, `>` and quotes. */
  ghost predicate AttributeNameSpelled(t: Text) {
    t != [] && forall i :: 0 <= i < |t| ==> t[i] !in Chars(" \n\r\t=/>\"'") && t[i] != 0x0C
  }

  /** Quotes of either kind around a value that does not hold them, or none around letters, digits and `-+:._`. */
  ghost predicate QuotesFit(value: Text, quotes: Text) {
    || (quotes == Chars("\"") && '"' as int !in value)
    || (quotes == Chars("'") && '\'' as int !in value)
    || (quotes == [] && value != []
        && forall i :: 0 <= i < |value| ==> LetterOrDigit(value[i]) || value[i] in Chars("-+:._"))
  }

  lemma NamesFit(name: Text, attribute: Text, quotes: Text, value: Text)
    requires TagNameSpelled(name) && AttributeNameSpelled(attribute) && QuotesFit(value, quotes)
    ensures TagName(name) && AttributeName(attribute) && FitsQuotes(value, quotes)
  {
    PunctuationSpelled();
    forall i | 0 <= i < |attribute| ensures IsAttributeNameCharacter(attribute[i]) {
      assert attribute[i] !in Chars(" \n\r\t=/>\"'");
    }
  }

  lemma PunctuationSpelled()
    ensures Chars(":._-") == [COLON, DOT, UNDERSCORE, MINUS] && Chars("-+:._") == [MINUS, PLUS, COLON, DOT, UNDERSCORE]
    ensures Chars(" \n\r\t=/>\"'") == [SPACE, LF, CR, TAB, EQUALS, SLASH, GT, QUOTE, APOSTROPHE]
  {
  }

  /** The scanner's classes of characters, one by one. */
  lemma CharactersSpelled(c: CodeUnit)
    ensures IsHtmlWhitespace(c) <==> c in Chars(" \n\r\t") || c == 0x0C
    ensures IsTagNameCharacter(c) <==> LetterOrDigit(c) || c in Chars(":._-")
    ensures IsAttributeNameCharacter(c) <==> c !in Chars(" \n\r\t=/>\"'") && c != 0x0C
  {
    PunctuationSpelled();
    assert Chars(" \n\r\t") == [SPACE, LF, CR, TAB];
  }

  predicate TagName(t: Text) {
    t != [] && IsAsciiLetter(t[0]) && forall i :: 0 <= i < |t| ==> IsTagNameCharacter(t[i])
  }

  predicate AttributeName(t: Text) {
    t != [] && forall i :: 0 <= i < |t| ==> IsAttributeNameCharacter(t[i])
  }

  predicate FitsQuotes(value: Text, quotes: Text) {
    || (quotes == Chars("\"") && '"' as int !in value)
    || (quotes == Chars("'") && '\'' as int !in value)
    || (quotes == [] && value != [] && forall i :: 0 <= i < |value| ==> Inert(value[i]))
  }

  /** `<name attribute="value">` with these quotes. */
  function Tag(name: Text, attribute: Text, quotes: Text, value: Text): Text {
    Chars("<") + name + TagRest(attribute, quotes, value)
  }

  function TagRest(attribute: Text, quotes: Text, value: Text): Text {
    Chars(" ") + attribute + Chars("=") + quotes + value + quotes + Chars(">")
  }

  lemma SpacedTag()
    ensures Chars("<") == [LT] && Chars(" ") == [SPACE] && Chars("=") == [EQUALS] && Chars(">") == [GT]
    ensures Chars("\"") == [QUOTE] && Chars("'") == [APOSTROPHE]
  {
  }

  lemma ValueRead(build: bool, quotes: Text, value: Text)
    requires FitsQuotes(value, quotes)
    ensures ValueChunk(build, quotes + value + quotes + [GT]) == Chunk(quotes, build, value, quotes, [GT])
    ensures var t := quotes + value + quotes + [GT]; !IsHtmlWhitespace(t[0])
  {
    SpacedTag();
    if quotes == [] {
      UnquotedInert(value, [GT]);
      UnquotedReads(build, value, [GT]);
      assert quotes + value + quotes + [GT] == value + [GT];
    } else {
      QuotedRead(build, quotes[0], value);
      assert quotes == [quotes[0]];
    }
  }

  lemma QuotedRead(build: bool, quote: CodeUnit, value: Text)
    requires (quote == QUOTE || quote == APOSTROPHE) && quote !in value
    ensures ValueChunk(build, [quote] + value + [quote] + [GT]) == Chunk([quote], build, value, [quote], [GT])
  {
    forall i | 0 <= i < |value| ensures value[i] != quote {
      assert value[i] in value;
    }
    QuotedReads(build, quote, value, [quote] + [GT]);
    assert [quote] + value + [quote] + [GT] == [quote] + (value + ([quote] + [GT]));
    assert ([quote] + [GT])[1..] == [GT];
  }

  lemma NamedValueRead(build: bool, quotes: Text, value: Text)
    requires FitsQuotes(value, quotes)
    ensures AfterName(build, [EQUALS] + (quotes + value + quotes + [GT])) ==
      Chunk([EQUALS] + quotes, build, value, quotes, [GT])
  {
    ValueRead(build, quotes, value);
    var body := quotes + value + quotes + [GT];
    SpacedValue(build, [], body);
    assert [] + body == body;
    NameWithValueStable(build, [], body);
    assert [] + [EQUALS] + body == [EQUALS] + body;
    assert [] + quotes == quotes && [] + [EQUALS] + ([] + quotes) == [EQUALS] + quotes;
  }

  lemma AttributeRead(attribute: Text, quotes: Text, value: Text)
    requires AttributeName(attribute) && FitsQuotes(value, quotes)
    ensures NextChunk(TagRest(attribute, quotes, value)) ==
      Chunk([SPACE] + (attribute + ([EQUALS] + quotes)), SpellsDataBuild(attribute), value, quotes, [GT])
  {
    DataBuildFolds(attribute);
    var body := [EQUALS] + (quotes + value + quotes + [GT]);
    NameRead(attribute, body);
    NamedValueRead(SpellsDataBuild(attribute), quotes, value);
    RestParts(attribute, quotes, value);
    var named := attribute + body;
    var t := [SPACE] + named;
    assert named[0] == attribute[0];
    SpanExact(IsHtmlWhitespace, [SPACE], named);
    assert t[1..] == named && t[..1] == [SPACE];
  }

  lemma NameRead(attribute: Text, body: Text)
    requires AttributeName(attribute) && body != [] && body[0] == EQUALS
    ensures AtName(attribute + body) == Prepend(attribute, AfterName(FoldText(attribute) == DATA_BUILD, body))
  {
    var named := attribute + body;
    SpanExact(IsAttributeNameCharacter, attribute, body);
    assert named[..|attribute|] == attribute && named[|attribute|..] == body;
  }

  lemma RestParts(attribute: Text, quotes: Text, value: Text)
    ensures TagRest(attribute, quotes, value) ==
      [SPACE] + (attribute + ([EQUALS] + (quotes + value + quotes + [GT])))
  {
    SpacedTag();
  }

  /** What a value becomes: a timestamp in `data-build` its marker, anything else itself. */
  ghost function Shown(attribute: Text, value: Text): Text {
    if SpellsDataBuild(attribute) && StampSpelled(value) then TIMESTAMP else value
  }

  lemma ValueShown(attribute: Text, value: Text)
    ensures Flat(Marked(ValuePieces(SpellsDataBuild(attribute), value))) == Shown(attribute, value)
  {
    TextsSpelled();
    StampIs(value);
    if SpellsDataBuild(attribute) && IsSlotValue(value) {
      assert Marked([Slot(value)]) == [Slot(MARKER)];
      assert Flat([Slot(MARKER)]) == MARKER + Flat([]);
    } else {
      MarkedUnits(value);
      FlatUnits(value);
    }
  }

  lemma ChunkShown(head: Text, attribute: Text, value: Text, close: Text, rest: Text)
    ensures Flat(Marked(ChunkPieces(Chunk(head, SpellsDataBuild(attribute), value, close, rest)))) ==
      head + Shown(attribute, value) + close
  {
    var middle := ValuePieces(SpellsDataBuild(attribute), value);
    MarkedConcat(Units(head) + middle, Units(close));
    MarkedConcat(Units(head), middle);
    FlatConcat(Marked(Units(head) + middle), Marked(Units(close)));
    FlatConcat(Marked(Units(head)), Marked(middle));
    MarkedUnits(head);
    MarkedUnits(close);
    FlatUnits(head);
    FlatUnits(close);
    ValueShown(attribute, value);
  }

  lemma RestShown(attribute: Text, quotes: Text, value: Text)
    requires AttributeName(attribute) && FitsQuotes(value, quotes)
    ensures Flat(Marked(AttributePieces(TagRest(attribute, quotes, value)))) ==
      TagRest(attribute, quotes, Shown(attribute, value))
  {
    SpacedTag();
    AttributeRead(attribute, quotes, value);
    var t := TagRest(attribute, quotes, value);
    var k := NextChunk(t);
    AttributesHead([GT]);
    MarkedConcat(ChunkPieces(k), Units([GT]));
    FlatConcat(Marked(ChunkPieces(k)), Marked(Units([GT])));
    MarkedUnits([GT]);
    FlatUnits([GT]);
    ChunkShown(k.head, attribute, value, quotes, [GT]);
    RestParts(attribute, quotes, Shown(attribute, value));
    HeadParts(attribute, quotes, Shown(attribute, value));
    assert AttributePieces(t) == ChunkPieces(k) + Units([GT]);
  }

  lemma HeadParts(attribute: Text, quotes: Text, shown: Text)
    ensures [SPACE] + (attribute + ([EQUALS] + (quotes + shown + quotes + [GT]))) ==
      [SPACE] + (attribute + ([EQUALS] + quotes)) + shown + quotes + [GT]
  {
  }

  lemma TagShown(name: Text, attribute: Text, quotes: Text, value: Text)
    requires TagName(name) && AttributeName(attribute) && FitsQuotes(value, quotes)
    ensures Flat(Marked(TagPieces(Tag(name, attribute, quotes, value)))) ==
      Tag(name, attribute, quotes, Shown(attribute, value))
  {
    SpacedTag();
    var head, rest := [LT] + name, TagRest(attribute, quotes, value);
    assert forall i :: 1 <= i < |head| ==> head[i] == name[i - 1];
    assert rest[0] == SPACE;
    TagPiecesIntro(head, rest);
    MarkedConcat(Units(head), AttributePieces(rest));
    FlatConcat(Marked(Units(head)), Marked(AttributePieces(rest)));
    MarkedUnits(head);
    FlatUnits(head);
    RestShown(attribute, quotes, value);
  }

  // Where that tag ends

  lemma {:induction false} QuietRun(q: QuoteState, t: Text)
    requires q != Closed && forall i :: 0 <= i < |t| ==> Advance(q, t[i]) == q
    ensures Run(q, t) == q
  {
    if t != [] {
      QuietRun(q, t[1..]);
    }
  }

  lemma ValueRun(quotes: Text, value: Text)
    requires FitsQuotes(value, quotes)
    ensures Run(Outside, quotes + value + quotes) == Outside
  {
    SpacedTag();
    if quotes == [] {
      InertRun(Outside, value);
      assert quotes + value + quotes == value;
    } else {
      var inside := Advance(Outside, quotes[0]);
      forall i | 0 <= i < |value| ensures Advance(inside, value[i]) == inside {
        assert value[i] in value;
      }
      QuietRun(inside, value);
      RunConcat(Outside, quotes + value, quotes);
      RunConcat(Outside, quotes, value);
      assert quotes[1..] == [];
      assert Run(Outside, quotes) == Run(inside, []);
      assert Run(inside, quotes) == Run(Outside, []);
    }
  }

  lemma RestEnds(attribute: Text, quotes: Text, value: Text, after: Text)
    requires AttributeName(attribute) && FitsQuotes(value, quotes)
    ensures var rest := TagRest(attribute, quotes, value); TagEnd(rest + after, Outside) == Some(|rest|)
  {
    SpacedTag();
    var front := [SPACE] + attribute + [EQUALS];
    forall i | 0 <= i < |front| ensures Advance(Outside, front[i]) == Outside {
      assert 1 <= i <= |attribute| ==> front[i] == attribute[i - 1];
    }
    QuietRun(Outside, front);
    ValueRun(quotes, value);
    RunConcat(Outside, front, quotes + value + quotes);
    var inner := front + (quotes + value + quotes);
    TagEndIntro(inner, after, Outside);
    assert TagRest(attribute, quotes, value) == inner + [GT];
  }

  lemma TagReads(name: Text, attribute: Text, quotes: Text, value: Text, after: Text)
    requires TagName(name) && AttributeName(attribute) && FitsQuotes(value, quotes)
    ensures var tag := Tag(name, attribute, quotes, value);
      ReadStartTag(tag + after) == Some(StartTag(|tag|, FoldText(name)))
  {
    SpacedTag();
    RestEnds(attribute, quotes, value, after);
    var head, rest := [LT] + name, TagRest(attribute, quotes, value);
    assert head[1..] == name;
    assert forall i :: 1 <= i < |head| ==> head[i] == name[i - 1];
    assert rest[0] == SPACE;
    StartTagRebuilt(head, rest, after);
  }

  // Documents

  lemma PlainBefore(before: Text, t: Text)
    requires '<' as int !in before
    ensures NormalForm(before + t) == before + NormalForm(t)
  {
    var u := before + t;
    forall i | 0 <= i < |before| ensures u[i] != LT {
      assert u[i] == before[i] && before[i] in before;
    }
    PlainPrefix(u, |before|);
    assert u[..|before|] == before && u[|before|..] == t;
    UnitsShown(before, DocumentPieces(t, None));
  }

  lemma UnitsShown(t: Text, ps: seq<Piece>)
    ensures Flat(Marked(Units(t) + ps)) == t + Flat(Marked(ps))
  {
    MarkedConcat(Units(t), ps);
    FlatConcat(Marked(Units(t)), Marked(ps));
    MarkedUnits(t);
    FlatUnits(t);
  }

  /** What a part of a document becomes, it becomes behind plain text as well. */
  lemma BehindPlain(before: Text, part: Text, shown: Text, after: Text)
    requires '<' as int !in before && NormalForm(part + after) == shown + NormalForm(after)
    ensures NormalForm(before + part + after) == before + shown + NormalForm(after)
  {
    PlainBefore(before, part + after);
    Regroup(before, part, after);
    Regroup(before, shown, NormalForm(after));
  }

  lemma Regroup(a: Text, b: Text, c: Text)
    ensures a + b + c == a + (b + c)
  {
  }

  lemma TagAlone(name: Text, attribute: Text, quotes: Text, value: Text, after: Text)
    requires TagName(name) && !SpellsRawElement(name) && AttributeName(attribute) && FitsQuotes(value, quotes)
    ensures NormalForm(Tag(name, attribute, quotes, value) + after) ==
      Tag(name, attribute, quotes, Shown(attribute, value)) + NormalForm(after)
  {
    var tag := Tag(name, attribute, quotes, value);
    var u := tag + after;
    RawElementFolds(name);
    TagReads(name, attribute, quotes, value, after);
    TagStarts(name, attribute, quotes, value);
    assert u[0] == tag[0] && u[1] == tag[1];
    TagStep(u, StartTag(|tag|, FoldText(name)), None);
    assert u[..|tag|] == tag && u[|tag|..] == after;
    MarkedConcat(TagPieces(tag), DocumentPieces(after, None));
    FlatConcat(Marked(TagPieces(tag)), Marked(DocumentPieces(after, None)));
    TagShown(name, attribute, quotes, value);
  }

  lemma TagStarts(name: Text, attribute: Text, quotes: Text, value: Text)
    requires name != []
    ensures var tag := Tag(name, attribute, quotes, value); |tag| > 1 && tag[0] == LT && tag[1] == name[0]
  {
    SpacedTag();
  }

  /**
   A tag with one attribute, anywhere in a document's text: a `data-build` in any case, quoted
   either way or not, has its value replaced exactly when that is a timestamp; any other attribute
   keeps its value, and so does the rest of the tag.
   */
  lemma TagNormal(before: Text, name: Text, attribute: Text, quotes: Text, value: Text, after: Text)
    requires '<' as int !in before && TagNameSpelled(name) && !SpellsRawElement(name)
    requires AttributeNameSpelled(attribute) && QuotesFit(value, quotes)
    ensures NormalForm(before + Tag(name, attribute, quotes, value) + after) ==
      before + Tag(name, attribute, quotes, Shown(attribute, value)) + NormalForm(after)
  {
    NamesFit(name, attribute, quotes, value);
    TagAlone(name, attribute, quotes, value, after);
    BehindPlain(before, Tag(name, attribute, quotes, value), Tag(name, attribute, quotes, Shown(attribute, value)),
      after);
  }

  /** The comment ends at its first terminator. */
  ghost predicate CommentText(body: Text) {
    forall i :: 0 <= i < |body| ==> !(Chars("-->") <= (body + Chars("-->"))[i..])
  }

  function Comment(body: Text): Text {
    Chars("<!--") + body + Chars("-->")
  }

  /** Nothing inside a comment is touched, a tag with a timestamp no more than the rest. */
  lemma CommentNormal(before: Text, body: Text, after: Text)
    requires '<' as int !in before && CommentText(body)
    ensures NormalForm(before + Comment(body) + after) == before + Comment(body) + NormalForm(after)
  {
    CommentAlone(body, after);
    BehindPlain(before, Comment(body), Comment(body), after);
  }

  lemma CommentAlone(body: Text, after: Text)
    requires CommentText(body)
    ensures NormalForm(Comment(body) + after) == Comment(body) + NormalForm(after)
  {
    CommentRead(body, after);
    UnitsShown(Comment(body), DocumentPieces(after, None));
  }

  lemma CommentRead(body: Text, after: Text)
    requires CommentText(body)
    ensures DocumentPieces(Comment(body) + after, None) == Units(Comment(body)) + DocumentPieces(after, None)
  {
    var comment := Comment(body);
    var u := comment + after;
    CommentEnds(body, after);
    CommentStep(u, |comment|);
    assert u[..|comment|] == comment && u[|comment|..] == after;
  }

  lemma CommentEnds(body: Text, after: Text)
    requires CommentText(body)
    ensures COMMENT_OPEN <= Comment(body) + after && CommentLength(Comment(body) + after) == |Comment(body)|
  {
    TerminatorStays(body, after);
    CommentParts(body, after);
  }

  lemma TerminatorStays(body: Text, after: Text)
    requires CommentText(body)
    ensures IndexOf(body + COMMENT_CLOSE + after, COMMENT_CLOSE) == Some(|body|)
  {
    var inner := body + COMMENT_CLOSE;
    TerminatorAt(body);
    assert inner[..|inner|] == inner;
    IndexOfPrefix(inner, COMMENT_CLOSE, after);
  }

  lemma CommentParts(body: Text, after: Text)
    ensures var u := Comment(body) + after;
      COMMENT_OPEN <= u && u[4..] == body + COMMENT_CLOSE + after && |Comment(body)| == |body| + 7
  {
    TextsSpelled();
    var u := COMMENT_OPEN + (body + COMMENT_CLOSE + after);
    assert Comment(body) + after == u && u[..4] == COMMENT_OPEN;
  }

  lemma TerminatorAt(body: Text)
    requires CommentText(body)
    ensures IndexOf(body + COMMENT_CLOSE, COMMENT_CLOSE) == Some(|body|)
  {
    TextsSpelled();
    var inner := body + COMMENT_CLOSE;
    IndexOfIsFirst(inner, COMMENT_CLOSE);
    assert inner[|body|..] == COMMENT_CLOSE;
    assert forall i :: 0 <= i < |body| ==> !(COMMENT_CLOSE <= inner[i..]);
  }

  /** A body without `</` that does not end in `<`. */
  predicate RawBody(body: Text) {
    && (forall i :: 0 <= i < |body| - 1 ==> !(body[i] == '<' as int && body[i + 1] == '/' as int))
    && (body != [] ==> body[|body| - 1] != '<' as int)
  }

  /** A raw-text element, its two tags in any case. */
  function RawElement(open: Text, body: Text, close: Text): Text {
    Chars("<") + open + Chars(">") + body + Chars("</") + close + Chars(">")
  }

  /** Nothing in the body of a raw-text element is touched, nor are its tags. */
  lemma RawElementNormal(before: Text, open: Text, body: Text, close: Text, after: Text)
    requires '<' as int !in before && SpellsRawElement(open) && FoldText(close) == FoldText(open) && RawBody(body)
    ensures NormalForm(before + RawElement(open, body, close) + after) ==
      before + RawElement(open, body, close) + NormalForm(after)
  {
    RawElementFolds(open);
    RawElementPieces(open, body, close, after);
    var element := RawElement(open, body, close);
    UnitsShown(element, DocumentPieces(after, None));
    BehindPlain(before, element, element, after);
  }

  function Opening(open: Text): Text {
    [LT] + open + [GT]
  }

  function Closing(close: Text): Text {
    [LT, SLASH] + close + [GT]
  }

  lemma ElementParts(open: Text, body: Text, close: Text, after: Text)
    ensures RawElement(open, body, close) == Opening(open) + (body + Closing(close))
    ensures RawElement(open, body, close) + after == Opening(open) + (body + (Closing(close) + after))
  {
    SpacedTag();
    assert Chars("</") == [LT, SLASH];
  }

  lemma UnitsConcat(a: Text, b: Text)
    ensures Units(a + b) == Units(a) + Units(b)
  {
  }

  lemma ThreePieces(a: seq<Piece>, b: seq<Piece>, c: seq<Piece>, d: seq<Piece>)
    ensures a + (b + (c + d)) == a + (b + c) + d
  {
  }

  lemma RawElementPieces(open: Text, body: Text, close: Text, after: Text)
    requires IsRawTextElement(FoldText(open)) && FoldText(close) == FoldText(open) && RawBody(body)
    ensures DocumentPieces(RawElement(open, body, close) + after, None) ==
      Units(RawElement(open, body, close)) + DocumentPieces(after, None)
  {
    var end := Closing(close);
    ElementParts(open, body, close, after);
    OpensRaw(open, body + (end + after));
    BodyEnds(open, body, close, after);
    ClosePieces(close, after);
    ThreePieces(Units(Opening(open)), Units(body), Units(end), DocumentPieces(after, None));
    ElementUnits(open, body, close);
  }

  lemma ElementUnits(open: Text, body: Text, close: Text)
    ensures Units(RawElement(open, body, close)) ==
      Units(Opening(open)) + (Units(body) + Units(Closing(close)))
  {
    ElementParts(open, body, close, []);
    UnitsConcat(body, Closing(close));
    UnitsConcat(Opening(open), body + Closing(close));
  }

  lemma RawNameLetters(name: Text)
    requires IsRawTextElement(FoldText(name))
    ensures TagName(name)
  {
    forall i | 0 <= i < |name| ensures IsAsciiLetter(name[i]) {
      assert FoldText(name)[i] == FoldAscii(name[i]);
    }
  }

  lemma OpensRaw(open: Text, rest: Text)
    requires IsRawTextElement(FoldText(open))
    ensures DocumentPieces(Opening(open) + rest, None) ==
      Units(Opening(open)) + DocumentPieces(rest, Some(FoldText(open)))
  {
    var tag := Opening(open);
    var u := tag + rest;
    OpeningReads(open, rest);
    TagStep(u, StartTag(|tag|, FoldText(open)), Some(FoldText(open)));
    assert u[..|tag|] == tag && u[|tag|..] == rest;
    OpeningPieces(open);
  }

  lemma OpeningReads(open: Text, rest: Text)
    requires IsRawTextElement(FoldText(open))
    ensures var u := Opening(open) + rest;
      |u| > 1 && u[0] == LT && IsAsciiLetter(u[1])
      && ReadStartTag(u) == Some(StartTag(|Opening(open)|, FoldText(open)))
  {
    RawNameLetters(open);
    var head := [LT] + open;
    assert forall i :: 1 <= i < |head| ==> head[i] == open[i - 1];
    assert head[1..] == open;
    TagEndIntro([], rest, Outside);
    assert [] + [GT] + rest == [GT] + rest;
    StartTagRebuilt(head, [GT], rest);
  }

  lemma OpeningPieces(open: Text)
    requires IsRawTextElement(FoldText(open))
    ensures TagPieces(Opening(open)) == Units(Opening(open))
  {
    RawNameLetters(open);
    var head := [LT] + open;
    assert forall i :: 1 <= i < |head| ==> head[i] == open[i - 1];
    TagPiecesIntro(head, [GT]);
    AttributesHead([GT]);
    UnitsConcat(head, [GT]);
  }

  lemma CloseCloses(open: Text, close: Text, after: Text)
    requires FoldText(close) == FoldText(open)
    ensures Closes(Closing(close) + after, FoldText(open))
  {
    var p := ClosingPrefix(FoldText(open));
    var u := Closing(close) + after;
    assert |p| == 2 + |close|;
    forall i | 0 <= i < |p| ensures FoldAscii(u[i]) == p[i] {
      if i >= 2 {
        assert u[i] == close[i - 2] && p[i] == FoldText(close)[i - 2];
      }
    }
    assert u[|p|..] == [GT] + after;
    SpanExact(IsHtmlWhitespace, [], [GT] + after);
    assert [] + ([GT] + after) == [GT] + after;
  }

  lemma {:induction false} BodyRuns(name: Text, body: Text, rest: Text)
    requires RawBody(body) && rest != [] && rest[0] == LT && Closes(rest, name)
    ensures RawClosing(body + rest, name) == Some(|body|)
    decreases |body|
  {
    if body == [] {
      assert body + rest == rest;
    } else {
      var u := body + rest;
      assert u[1..] == body[1..] + rest;
      BodyRuns(name, body[1..], rest);
      BodyHolds(name, body, rest);
      RawClosingStep(u, name, |body| - 1);
    }
  }

  /** No closing tag starts where the body does. */
  lemma BodyHolds(name: Text, body: Text, rest: Text)
    requires RawBody(body) && body != [] && rest != [] && rest[0] == LT
    ensures var u := body + rest; !(u[0] == LT && Closes(u, name))
  {
    var u := body + rest;
    assert ClosingPrefix(name)[1] == SLASH;
    assert u[1] == if |body| > 1 then body[1] else rest[0];
    assert Closes(u, name) ==> FoldAscii(u[1]) == SLASH;
  }

  lemma BodyEnds(open: Text, body: Text, close: Text, after: Text)
    requires IsRawTextElement(FoldText(open)) && FoldText(close) == FoldText(open) && RawBody(body)
    ensures DocumentPieces(body + (Closing(close) + after), Some(FoldText(open))) ==
      Units(body) + DocumentPieces(Closing(close) + after, None)
  {
    var rest := Closing(close) + after;
    CloseCloses(open, close, after);
    BodyRuns(FoldText(open), body, rest);
    var u := body + rest;
    assert u[..|body|] == body && u[|body|..] == rest;
  }

  lemma ClosePieces(close: Text, after: Text)
    requires IsRawTextElement(FoldText(close))
    ensures DocumentPieces(Closing(close) + after, None) == Units(Closing(close)) + DocumentPieces(after, None)
  {
    RawNameLetters(close);
    var end := Closing(close);
    var u := end + after;
    forall i | 1 <= i < |end| ensures u[i] != LT {
      if 2 <= i < |end| - 1 {
        assert u[i] == close[i - 2];
      }
    }
    ClosingTagCopied(u, |end|);
    assert u[..|end|] == end && u[|end|..] == after;
  }
}
