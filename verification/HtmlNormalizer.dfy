/**
 The cursor loops of `normalizeDataBuildAttributes`, proved to compute the normal form.
 */
module HtmlNormalizer {
  import opened Wrappers
  import opened Utf16
  import opened HtmlScanner
  import opened HtmlTags

  /** `while (p(text[cursor])) cursor += 1`. */
  method SkipWhile(p: CodeUnit -> bool, text: Text, start: nat) returns (end: nat)
    requires start <= |text|
    ensures end == start + Span(p, text[start..])
  {
    end := start;
    while end < |text| && p(text[end])
      invariant start <= end <= |text|
      invariant Span(p, text[start..]) == end - start + Span(p, text[end..])
    {
      assert text[end..][1..] == text[end + 1..];
      end := end + 1;
    }
  }

  function StateOf(quote: Option<CodeUnit>): QuoteState {
    match quote
    case None => Outside
    case Some(c) => if c == QUOTE then InDouble else InSingle
  }

  function Shifted(r: Option<nat>, offset: nat): Option<nat> {
    if r.None? then None else Some(r.value + offset)
  }

  /** `TagEnd` as a position in the whole text. */
  function TagEndFrom(html: Text, i: nat, q: QuoteState): Option<nat>
    requires i <= |html|
  {
    Shifted(TagEnd(html[i..], q), i)
  }

  lemma {:induction false} TagEndStep(html: Text, i: nat, q: QuoteState)
    requires i < |html|
    ensures TagEndFrom(html, i, q) ==
      if Advance(q, html[i]) == Closed then Some(i + 1) else TagEndFrom(html, i + 1, Advance(q, html[i]))
  {
    assert html[i..][1..] == html[i + 1..];
  }

  /** The quote loop: the end of the tag whose name ends at `start`. */
  method FindTagEnd(html: Text, start: nat) returns (r: Option<nat>)
    requires start <= |html|
    ensures r == TagEndFrom(html, start, Outside)
  {
    var quote: Option<CodeUnit> := None;
    var cursor := start;
    while cursor < |html|
      invariant start <= cursor <= |html|
      invariant quote.Some? ==> quote.value == QUOTE || quote.value == APOSTROPHE
      invariant TagEndFrom(html, start, Outside) == TagEndFrom(html, cursor, StateOf(quote))
    {
      var character := html[cursor];
      TagEndStep(html, cursor, StateOf(quote));
      if quote.Some? {
        if character == quote.value {
          quote := None;
        }
        cursor := cursor + 1;
        continue;
      }
      if character == QUOTE || character == APOSTROPHE {
        quote := Some(character);
        cursor := cursor + 1;
        continue;
      }
      if character == GT {
        return Some(cursor + 1);
      }
      cursor := cursor + 1;
    }
    return None;
  }

  /** `ReadStartTag` as a position in the whole text. */
  function StartTagFrom(html: Text, i: nat): Option<StartTag>
    requires i < |html|
  {
    var r := ReadStartTag(html[i..]);
    if r.None? then None else Some(StartTag(r.value.end + i, r.value.name))
  }

  lemma {:induction false} StartTagNamed(html: Text, i: nat, nameEnd: nat)
    requires i + 1 < |html| && IsAsciiLetter(html[i + 1])
    requires nameEnd == i + 1 + Span(IsTagNameCharacter, html[i + 1..])
    ensures StartTagFrom(html, i) ==
      match TagEndFrom(html, nameEnd, Outside)
      case None => None
      case Some(end) => Some(StartTag(end, FoldText(html[i + 1..nameEnd])))
  {
    var t := html[i..];
    var n := nameEnd - i;
    assert t[1] == html[i + 1] && t[1..] == html[i + 1..];
    assert t[n..] == html[nameEnd..] && t[1..n] == html[i + 1..nameEnd];
  }

  method ReadHtmlStartTag(html: Text, start: nat) returns (r: Option<StartTag>)
    requires start < |html|
    ensures r == StartTagFrom(html, start)
    ensures r.Some? ==> start + 1 < r.value.end <= |html|
  {
    if start + 1 >= |html| || !IsAsciiLetter(html[start + 1]) {
      return None;
    }
    var nameEnd := SkipWhile(IsTagNameCharacter, html, start + 1);
    StartTagNamed(html, start, nameEnd);
    var name := FoldText(html[start + 1..nameEnd]);
    var end := FindTagEnd(html, nameEnd);
    if end.None? {
      return None;
    }
    return Some(StartTag(end.value, name));
  }

  method MatchesAsciiCaseInsensitiveAt(value: Text, start: nat, expected: Text) returns (r: bool)
    requires start <= |value|
    ensures r == MatchesFolded(value[start..], expected)
  {
    if start + |expected| > |value| {
      return false;
    }
    var offset := 0;
    while offset < |expected|
      invariant 0 <= offset <= |expected|
      invariant forall i :: 0 <= i < offset ==> FoldAscii(value[start..][i]) == expected[i]
    {
      assert value[start..][offset] == value[start + offset];
      if FoldAscii(value[start + offset]) != expected[offset] {
        return false;
      }
      offset := offset + 1;
    }
    return true;
  }

  /** `indexOf("<", start)`. */
  method IndexOfTag(html: Text, start: nat) returns (r: Option<nat>)
    requires start <= |html|
    ensures r.Some? ==>
      start <= r.value < |html| && html[r.value] == LT && forall i :: start <= i < r.value ==> html[i] != LT
    ensures r.None? ==> forall i :: start <= i < |html| ==> html[i] != LT
  {
    var i := start;
    while i < |html|
      invariant start <= i <= |html|
      invariant forall j :: start <= j < i ==> html[j] != LT
    {
      if html[i] == LT {
        return Some(i);
      }
      i := i + 1;
    }
    return None;
  }

  /** `RawClosing` as a position in the whole text. */
  function RawFrom(html: Text, i: nat, name: Text): Option<nat>
    requires i <= |html|
  {
    Shifted(RawClosing(html[i..], name), i)
  }

  lemma {:induction false} RawStep(html: Text, i: nat, name: Text)
    requires i < |html|
    ensures RawFrom(html, i, name) ==
      if html[i] == LT && Closes(html[i..], name) then Some(i) else RawFrom(html, i + 1, name)
  {
    assert html[i..][1..] == html[i + 1..];
  }

  lemma {:induction false} RawSkips(html: Text, i: nat, j: nat, name: Text)
    requires i <= j <= |html| && forall k :: i <= k < j ==> html[k] != LT
    ensures RawFrom(html, i, name) == RawFrom(html, j, name)
    decreases j - i
  {
    if i < j {
      RawStep(html, i, name);
      RawSkips(html, i + 1, j, name);
    }
  }

  /** Whether the closing tag of an element starts at `c`, which holds a `<`. */
  method ClosesAt(html: Text, c: nat, name: Text) returns (r: bool)
    requires c < |html|
    ensures r == Closes(html[c..], name)
  {
    var prefix := ClosingPrefix(name);
    var matched := MatchesAsciiCaseInsensitiveAt(html, c, prefix);
    if !matched {
      return false;
    }
    var cursor := SkipWhile(IsHtmlWhitespace, html, c + |prefix|);
    assert html[c..][|prefix|..] == html[c + |prefix|..];
    return cursor < |html| && html[cursor] == GT;
  }

  method RawTextClosingTagStart(html: Text, start: nat, rawTextElement: Text) returns (r: Option<nat>)
    requires start <= |html|
    ensures r == RawFrom(html, start, rawTextElement)
  {
    ghost var from := start;
    var candidate := IndexOfTag(html, start);
    while candidate.Some?
      invariant start <= from <= |html|
      invariant candidate.Some? ==> from <= candidate.value < |html| && html[candidate.value] == LT
      invariant candidate.Some? ==> forall i :: from <= i < candidate.value ==> html[i] != LT
      invariant candidate.None? ==> forall i :: from <= i < |html| ==> html[i] != LT
      invariant RawFrom(html, start, rawTextElement) == RawFrom(html, from, rawTextElement)
      decreases |html| - from
    {
      var c := candidate.value;
      RawSkips(html, from, c, rawTextElement);
      RawStep(html, c, rawTextElement);
      var closes := ClosesAt(html, c, rawTextElement);
      if closes {
        return Some(c);
      }
      from := c + 1;
      candidate := IndexOfTag(html, c + 1);
    }
    RawSkips(html, from, |html|, rawTextElement);
    return None;
  }

  // Attributes

  /** The text the pieces stand for once their slots are marked. */
  function Normal(ps: seq<Piece>): Text {
    Flat(Marked(ps))
  }

  lemma {:induction false} NormalConcat(a: seq<Piece>, b: seq<Piece>)
    ensures Normal(a + b) == Normal(a) + Normal(b)
  {
    MarkedConcat(a, b);
    FlatConcat(Marked(a), Marked(b));
  }

  lemma {:induction false} NormalUnits(t: Text)
    ensures Normal(Units(t)) == t
  {
    MarkedUnits(t);
    FlatUnits(t);
  }

  function NormalValue(build: bool, value: Text): Text {
    if build && IsTimestamp(value) then MARKER else value
  }

  lemma {:induction false} NormalChunk(k: Chunk)
    ensures Normal(ChunkPieces(k)) == k.head + NormalValue(k.build, k.value) + k.close
  {
    NormalConcat(Units(k.head) + ValuePieces(k.build, k.value), Units(k.close));
    NormalConcat(Units(k.head), ValuePieces(k.build, k.value));
    NormalUnits(k.head);
    NormalUnits(k.value);
    NormalUnits(k.close);
    if k.build && IsSlotValue(k.value) {
      assert Marked([Slot(k.value)]) == [Slot(MARKER)];
      assert Flat([Slot(MARKER)]) == MARKER + Flat([]);
    }
  }

  /** What copying one chunk produces and where it stops. */
  ghost predicate Copied(tag: Text, k: Chunk, text: Text, next: nat) {
    next <= |tag| && tag[next..] == k.rest && text == k.head + NormalValue(k.build, k.value) + k.close
  }

  lemma {:induction false} CopiedPrepend(tag: Text, p: Text, k: Chunk, text: Text, next: nat)
    requires Copied(tag, k, text, next)
    ensures Copied(tag, Prepend(p, k), p + text, next)
  {
  }

  lemma {:induction false} CopiedQuoted(tag: Text, cursor: nat, build: bool, q: nat)
    requires cursor < |tag| && (tag[cursor] == QUOTE || tag[cursor] == APOSTROPHE)
    requires q == cursor + 1 + Span(Until(tag[cursor]), tag[cursor + 1..])
    ensures var value := NormalValue(build, tag[cursor + 1..q]);
      if q < |tag| then Copied(tag, ValueChunk(build, tag[cursor..]), [tag[cursor]] + value + [tag[q]], q + 1)
      else Copied(tag, ValueChunk(build, tag[cursor..]), [tag[cursor]] + value, |tag|)
  {
    var t := tag[cursor..];
    assert t[1..] == tag[cursor + 1..];
    assert t[1..q - cursor] == tag[cursor + 1..q];
    if q < |tag| {
      assert t[q - cursor] == tag[q] && t[q - cursor + 1..] == tag[q + 1..];
    } else {
      assert tag[cursor + 1..q] == t[1..];
    }
  }

  lemma {:induction false} CopiedUnquoted(tag: Text, cursor: nat, build: bool, q: nat)
    requires cursor <= |tag| && (cursor == |tag| || (tag[cursor] != QUOTE && tag[cursor] != APOSTROPHE))
    requires q == cursor + UnquotedSpan(tag[cursor..])
    ensures Copied(tag, ValueChunk(build, tag[cursor..]), NormalValue(build, tag[cursor..q]), q)
  {
    var t := tag[cursor..];
    assert t[..q - cursor] == tag[cursor..q] && t[q - cursor..] == tag[q..];
  }

  method SkipUnquoted(tag: Text, cursor: nat) returns (next: nat)
    requires cursor <= |tag|
    ensures next == cursor + UnquotedSpan(tag[cursor..])
  {
    next := cursor;
    while next < |tag| && !IsHtmlWhitespace(tag[next]) && tag[next] != GT
      && !(tag[next] == SLASH && next + 1 < |tag| && tag[next + 1] == GT)
      invariant cursor <= next <= |tag|
      invariant UnquotedSpan(tag[cursor..]) == next - cursor + UnquotedSpan(tag[next..])
    {
      assert tag[next..][1..] == tag[next + 1..];
      next := next + 1;
    }
  }

  method CopyValue(tag: Text, cursor: nat, build: bool) returns (text: Text, next: nat)
    requires cursor <= |tag|
    ensures cursor <= next && Copied(tag, ValueChunk(build, tag[cursor..]), text, next)
  {
    if cursor < |tag| && (tag[cursor] == QUOTE || tag[cursor] == APOSTROPHE) {
      var quote := tag[cursor];
      next := SkipWhile(Until(quote), tag, cursor + 1);
      CopiedQuoted(tag, cursor, build, next);
      text := [quote] + NormalValue(build, tag[cursor + 1..next]);
      if next < |tag| {
        text := text + [tag[next]];
        next := next + 1;
      }
      return;
    }
    next := SkipUnquoted(tag, cursor);
    CopiedUnquoted(tag, cursor, build, next);
    text := NormalValue(build, tag[cursor..next]);
  }

  /** A slice of a tail is a slice of the whole. */
  lemma {:induction false} TailSlices(tag: Text, from: nat, to: nat)
    requires from <= to <= |tag|
    ensures tag[from..][..to - from] == tag[from..to] && tag[from..][to - from..] == tag[to..]
  {
  }

  lemma {:induction false} SpacedValueChunk(t: Text, build: bool, head: Text, rest: Text)
    requires var g := Span(IsHtmlWhitespace, t); head == t[..g] && rest == t[g..]
    ensures AfterEquals(build, t) == Prepend(head, ValueChunk(build, rest))
  {
  }

  lemma {:induction false} SpacedNameChunk(t: Text, head: Text, rest: Text)
    requires t != []
    requires var w := Span(IsHtmlWhitespace, t); head == t[..w] && rest == t[w..] && !AtTagClose(rest)
    ensures NextChunk(t) == Prepend(head, AtName(rest))
  {
  }

  lemma {:induction false} CopiedBare(tag: Text, cursor: nat, build: bool, gap: nat)
    requires cursor <= |tag| && gap == cursor + Span(IsHtmlWhitespace, tag[cursor..])
    requires gap == |tag| || tag[gap] != EQUALS
    ensures Copied(tag, AfterName(build, tag[cursor..]), tag[cursor..gap], gap)
  {
    var t := tag[cursor..];
    assert t[..gap - cursor] == tag[cursor..gap] && t[gap - cursor..] == tag[gap..];
  }

  lemma {:induction false} CopiedAfterEquals(tag: Text, cursor: nat, build: bool, start: nat, text: Text, next: nat)
    requires cursor <= |tag| && start == cursor + Span(IsHtmlWhitespace, tag[cursor..])
    requires Copied(tag, ValueChunk(build, tag[start..]), text, next)
    ensures Copied(tag, AfterEquals(build, tag[cursor..]), tag[cursor..start] + text, next)
  {
    TailSlices(tag, cursor, start);
    SpacedValueChunk(tag[cursor..], build, tag[cursor..start], tag[start..]);
    CopiedPrepend(tag, tag[cursor..start], ValueChunk(build, tag[start..]), text, next);
  }

  lemma {:induction false} AssignedChunk(t: Text, build: bool, head: Text, rest: Text)
    requires var e := Span(IsHtmlWhitespace, t); e < |t| && t[e] == EQUALS && head == t[..e + 1] && rest == t[e + 1..]
    ensures AfterName(build, t) == Prepend(head, AfterEquals(build, rest))
  {
  }

  lemma {:induction false} CopiedAssigned(tag: Text, cursor: nat, build: bool, gap: nat, text: Text, next: nat)
    requires cursor <= |tag| && gap == cursor + Span(IsHtmlWhitespace, tag[cursor..])
    requires gap < |tag| && tag[gap] == EQUALS
    requires Copied(tag, AfterEquals(build, tag[gap + 1..]), text, next)
    ensures Copied(tag, AfterName(build, tag[cursor..]), tag[cursor..gap + 1] + text, next)
  {
    TailSlices(tag, cursor, gap + 1);
    AssignedChunk(tag[cursor..], build, tag[cursor..gap + 1], tag[gap + 1..]);
    CopiedPrepend(tag, tag[cursor..gap + 1], AfterEquals(build, tag[gap + 1..]), text, next);
  }

  /** From just after an attribute name. */
  method CopyAfterName(tag: Text, cursor: nat, build: bool) returns (text: Text, next: nat)
    requires cursor <= |tag|
    ensures cursor <= next && Copied(tag, AfterName(build, tag[cursor..]), text, next)
  {
    var gap := SkipWhile(IsHtmlWhitespace, tag, cursor);
    if gap == |tag| || tag[gap] != EQUALS {
      CopiedBare(tag, cursor, build, gap);
      return tag[cursor..gap], gap;
    }
    var start := SkipWhile(IsHtmlWhitespace, tag, gap + 1);
    text, next := CopyValue(tag, start, build);
    CopiedAfterEquals(tag, gap + 1, build, start, text, next);
    text := tag[gap + 1..start] + text;
    CopiedAssigned(tag, cursor, build, gap, text, next);
    text := tag[cursor..gap + 1] + text;
  }

  lemma {:induction false} NamedChunk(t: Text, head: Text, rest: Text)
    requires t != []
    requires var n := Span(IsAttributeNameCharacter, t); n > 0 && head == t[..n] && rest == t[n..]
    ensures AtName(t) == Prepend(head, AfterName(FoldText(head) == DATA_BUILD, rest))
  {
  }

  lemma {:induction false} CopiedNamed(tag: Text, start: nat, nameEnd: nat, text: Text, next: nat)
    requires start < |tag| && nameEnd == start + Span(IsAttributeNameCharacter, tag[start..]) && nameEnd > start
    requires Copied(tag, AfterName(FoldText(tag[start..nameEnd]) == DATA_BUILD, tag[nameEnd..]), text, next)
    ensures Copied(tag, AtName(tag[start..]), tag[start..nameEnd] + text, next)
  {
    TailSlices(tag, start, nameEnd);
    NamedChunk(tag[start..], tag[start..nameEnd], tag[nameEnd..]);
    CopiedPrepend(tag, tag[start..nameEnd], AfterName(FoldText(tag[start..nameEnd]) == DATA_BUILD, tag[nameEnd..]),
        text, next);
  }

  /** An attribute, or the single character that starts none. */
  method CopyAtName(tag: Text, start: nat) returns (text: Text, next: nat)
    requires start < |tag|
    ensures start < next && Copied(tag, AtName(tag[start..]), text, next)
  {
    var nameEnd := SkipWhile(IsAttributeNameCharacter, tag, start);
    if nameEnd == start {
      assert tag[start..][1..] == tag[start + 1..];
      return [tag[start]], start + 1;
    }
    text, next := CopyAfterName(tag, nameEnd, FoldText(tag[start..nameEnd]) == DATA_BUILD);
    CopiedNamed(tag, start, nameEnd, text, next);
    text := tag[start..nameEnd] + text;
  }

  lemma {:induction false} CopiedToClose(tag: Text, cursor: nat, start: nat)
    requires cursor < |tag| && start == cursor + Span(IsHtmlWhitespace, tag[cursor..]) && AtTagClose(tag[start..])
    ensures Copied(tag, NextChunk(tag[cursor..]), tag[cursor..], |tag|)
  {
    assert tag[cursor..][start - cursor..] == tag[start..];
  }

  lemma {:induction false} CopiedSpaced(tag: Text, cursor: nat, start: nat, text: Text, next: nat)
    requires cursor < |tag| && start == cursor + Span(IsHtmlWhitespace, tag[cursor..]) && !AtTagClose(tag[start..])
    requires Copied(tag, AtName(tag[start..]), text, next)
    ensures Copied(tag, NextChunk(tag[cursor..]), tag[cursor..start] + text, next)
  {
    TailSlices(tag, cursor, start);
    SpacedNameChunk(tag[cursor..], tag[cursor..start], tag[start..]);
    CopiedPrepend(tag, tag[cursor..start], AtName(tag[start..]), text, next);
  }

  /** One round of the attribute loop. */
  method CopyChunk(tag: Text, cursor: nat) returns (text: Text, next: nat)
    requires cursor < |tag|
    ensures cursor < next && Copied(tag, NextChunk(tag[cursor..]), text, next)
  {
    var start := SkipWhile(IsHtmlWhitespace, tag, cursor);
    if start >= |tag| || tag[start] == GT || (tag[start] == SLASH && start + 1 < |tag| && tag[start + 1] == GT) {
      CopiedToClose(tag, cursor, start);
      return tag[cursor..], |tag|;
    }
    text, next := CopyAtName(tag, start);
    CopiedSpaced(tag, cursor, start, text, next);
    text := tag[cursor..start] + text;
  }

  lemma {:induction false} ChunkStep(tag: Text, cursor: nat, done: Text, text: Text, next: nat)
    requires cursor < |tag| && Copied(tag, NextChunk(tag[cursor..]), text, next)
    ensures done + Normal(AttributePieces(tag[cursor..])) == done + text + Normal(AttributePieces(tag[next..]))
  {
    var k := NextChunk(tag[cursor..]);
    NormalConcat(ChunkPieces(k), AttributePieces(k.rest));
    NormalChunk(k);
  }

  method NormalizeDataBuildInStartTag(tag: Text) returns (normalized: Text)
    requires tag != []
    ensures normalized == Normal(TagPieces(tag))
  {
    var cursor := SkipWhile(IsTagNameCharacter, tag, 1);
    normalized := tag[..cursor];
    NormalConcat(Units(tag[..cursor]), AttributePieces(tag[cursor..]));
    NormalUnits(tag[..cursor]);
    while cursor < |tag|
      invariant cursor <= |tag|
      invariant normalized + Normal(AttributePieces(tag[cursor..])) == Normal(TagPieces(tag))
      decreases |tag| - cursor
    {
      var text, next := CopyChunk(tag, cursor);
      ChunkStep(tag, cursor, normalized, text, next);
      normalized := normalized + text;
      cursor := next;
    }
    assert tag[cursor..] == [] && Normal(AttributePieces([])) == [];
  }

  /** What is left to add to the normal form when the cursor stands at `i`. */
  function Left(html: Text, i: nat, raw: Option<Text>): Text
    requires i <= |html|
  {
    Normal(DocumentPieces(html[i..], raw))
  }

  lemma {:induction false} RawLeft(html: Text, i: nat, name: Text)
    requires i < |html|
    ensures RawFrom(html, i, name).None? ==> Left(html, i, Some(name)) == html[i..]
    ensures RawFrom(html, i, name).Some? ==>
      var c := RawFrom(html, i, name).value;
      i <= c < |html| && Left(html, i, Some(name)) == html[i..c] + Left(html, c, None)
  {
    NormalUnits(html[i..]);
    if RawFrom(html, i, name).Some? {
      CopyUnits(html, i, RawFrom(html, i, name).value, None);
    }
  }

  lemma {:induction false} CommentLeft(html: Text, i: nat, end: nat)
    requires i < |html| && COMMENT_OPEN <= html[i..] && end == i + CommentLength(html[i..])
    ensures i < end <= |html| && Left(html, i, None) == html[i..end] + Left(html, end, None)
  {
    var n := end - i;
    CopyUnits(html, i, i + n, None);
    CommentPieces(html[i..], html[i..i + n], html[i + n..]);
  }

  lemma {:induction false} CommentPieces(t: Text, head: Text, rest: Text)
    requires COMMENT_OPEN <= t && head == t[..CommentLength(t)] && rest == t[CommentLength(t)..]
    ensures DocumentPieces(t, None) == Units(head) + DocumentPieces(rest, None)
  {
  }

  lemma {:induction false} PlainLeft(html: Text, i: nat)
    requires i < |html| && !(COMMENT_OPEN <= html[i..]) && (html[i] != LT || StartTagFrom(html, i).None?)
    ensures Left(html, i, None) == [html[i]] + Left(html, i + 1, None)
  {
    CopyUnits(html, i, i + 1, None);
    assert html[i..i + 1] == [html[i]] && Units([html[i]]) == [Unit(html[i])];
  }

  lemma {:induction false} TaggedPieces(t: Text, end: nat, name: Text, head: Text, rest: Text)
    requires t != [] && t[0] == LT && !(COMMENT_OPEN <= t) && ReadStartTag(t) == Some(StartTag(end, name))
    requires head == t[..end] && rest == t[end..]
    ensures DocumentPieces(t, None)
         == TagPieces(head) + DocumentPieces(rest, if IsRawTextElement(name) then Some(name) else None)
  {
  }

  lemma {:induction false} TagThenRest(html: Text, i: nat, tag: StartTag)
    requires i < |html| && html[i] == LT && !(COMMENT_OPEN <= html[i..]) && StartTagFrom(html, i) == Some(tag)
    requires i < tag.end <= |html|
    ensures DocumentPieces(html[i..], None) == TagPieces(html[i..tag.end])
      + DocumentPieces(html[tag.end..], if IsRawTextElement(tag.name) then Some(tag.name) else None)
  {
    var t := html[i..];
    assert t[..tag.end - i] == html[i..tag.end] && t[tag.end - i..] == html[tag.end..];
    TaggedPieces(t, tag.end - i, tag.name, html[i..tag.end], html[tag.end..]);
  }

  lemma {:induction false} TagLeft(html: Text, i: nat, tag: StartTag, raw: Option<Text>)
    requires i < |html| && html[i] == LT && !(COMMENT_OPEN <= html[i..]) && StartTagFrom(html, i) == Some(tag)
    requires i < tag.end <= |html| && raw == if IsRawTextElement(tag.name) then Some(tag.name) else None
    ensures Left(html, i, None) == Normal(TagPieces(html[i..tag.end])) + Left(html, tag.end, raw)
  {
    TagThenRest(html, i, tag);
    NormalConcat(TagPieces(html[i..tag.end]), DocumentPieces(html[tag.end..], raw));
  }

  /** A comment ends here: just after the first terminator behind its opening, or with the text when there is none. */
  ghost predicate CommentEndsAt(html: Text, i: nat, end: nat) {
    && i + 4 <= end <= |html|
    && (forall j :: i + 4 <= j && j + 3 < end ==> !(COMMENT_CLOSE <= html[j..]))
    && (|| (i + 7 <= end && COMMENT_CLOSE <= html[end - 3..])
        || (end == |html| && forall j :: i + 4 <= j <= |html| ==> !(COMMENT_CLOSE <= html[j..])))
  }

  lemma CommentEnds(html: Text, i: nat)
    requires i <= |html| && COMMENT_OPEN <= html[i..]
    ensures CommentEndsAt(html, i, i + CommentLength(html[i..]))
  {
    var rest := html[i..][4..];
    IndexOfIsFirst(rest, COMMENT_CLOSE);
    forall j | i + 4 <= j <= |html| ensures html[j..] == rest[j - i - 4..] { }
  }

  /** `startsWith("<!--", i)`, then the position after `-->` or the end of the text. */
  method CommentEnd(html: Text, i: nat) returns (r: Option<nat>)
    requires i <= |html|
    ensures r.Some? <==> COMMENT_OPEN <= html[i..]
    ensures r.Some? ==> CommentEndsAt(html, i, r.value)
    ensures r.Some? ==> r.value == i + CommentLength(html[i..])
  {
    if !(COMMENT_OPEN <= html[i..]) {
      return None;
    }
    CommentEnds(html, i);
    var close := IndexOf(html[i..][4..], COMMENT_CLOSE);
    return Some(if close.None? then |html| else i + 4 + close.value + 3);
  }

  lemma {:induction false} CopyUnits(html: Text, from: nat, to: nat, raw: Option<Text>)
    requires from <= to <= |html|
    ensures html[from..][..to - from] == html[from..to] && html[from..][to - from..] == html[to..]
    ensures Normal(Units(html[from..to]) + DocumentPieces(html[to..], raw)) == html[from..to] + Left(html, to, raw)
  {
    NormalConcat(Units(html[from..to]), DocumentPieces(html[to..], raw));
    NormalUnits(html[from..to]);
  }

  /** Outside raw text: a comment, a start tag, or one character. */
  method CopyMarkup(html: Text, cursor: nat) returns (text: Text, next: nat, raw: Option<Text>)
    requires cursor < |html|
    ensures cursor < next <= |html| && Left(html, cursor, None) == text + Left(html, next, raw)
  {
    var commentEnd := CommentEnd(html, cursor);
    if commentEnd.Some? {
      CommentLeft(html, cursor, commentEnd.value);
      return html[cursor..commentEnd.value], commentEnd.value, None;
    }
    text, next, raw := CopyTagOrUnit(html, cursor);
  }

  method CopyTagOrUnit(html: Text, cursor: nat) returns (text: Text, next: nat, raw: Option<Text>)
    requires cursor < |html| && !(COMMENT_OPEN <= html[cursor..])
    ensures cursor < next <= |html| && Left(html, cursor, None) == text + Left(html, next, raw)
  {
    var startTag: Option<StartTag> := None;
    if html[cursor] == LT {
      startTag := ReadHtmlStartTag(html, cursor);
    }
    if startTag.None? {
      PlainLeft(html, cursor);
      return [html[cursor]], cursor + 1, None;
    }
    var tag := startTag.value;
    raw := if IsRawTextElement(tag.name) then Some(tag.name) else None;
    TagLeft(html, cursor, tag, raw);
    text := NormalizeDataBuildInStartTag(html[cursor..tag.end]);
    next := tag.end;
  }

  lemma {:induction false} LeftBounds(html: Text)
    ensures Left(html, 0, None) == NormalForm(html)
    ensures forall raw :: Left(html, |html|, raw) == []
  {
    assert html[0..] == html && html[|html|..] == [];
  }

  /** Inside raw text: everything up to the closing tag, which may start right here. */
  method CopyRawText(html: Text, cursor: nat, name: Text) returns (text: Text, next: nat)
    requires cursor < |html|
    ensures cursor <= next <= |html| && Left(html, cursor, Some(name)) == text + Left(html, next, None)
  {
    var closing := RawTextClosingTagStart(html, cursor, name);
    RawLeft(html, cursor, name);
    LeftBounds(html);
    if closing.None? {
      return html[cursor..], |html|;
    }
    return html[cursor..closing.value], closing.value;
  }

  lemma {:induction false} CopyStep(done: Text, text: Text, before: Text, after: Text, all: Text)
    requires done + before == all && before == text + after
    ensures done + text + after == all
  {
    assert done + (text + after) == done + text + after;
  }

  /** The document loop.  The raw-text step may leave the cursor where it is, but only once. */
  method NormalizeDataBuildAttributes(html: Text) returns (normalized: Text)
    ensures normalized == NormalForm(html)
  {
    var cursor := 0;
    normalized := [];
    var rawTextElement: Option<Text> := None;
    LeftBounds(html);
    while cursor < |html|
      invariant cursor <= |html|
      invariant normalized + Left(html, cursor, rawTextElement) == NormalForm(html)
      decreases |html| - cursor, if rawTextElement.Some? then 1 else 0
    {
      var text, next;
      var raw: Option<Text> := None;
      if rawTextElement.Some? {
        text, next := CopyRawText(html, cursor, rawTextElement.value);
      } else {
        text, next, raw := CopyMarkup(html, cursor);
      }
      CopyStep(normalized, text, Left(html, cursor, rawTextElement), Left(html, next, raw), NormalForm(html));
      normalized := normalized + text;
      cursor := next;
      rawTextElement := raw;
    }
  }
}
