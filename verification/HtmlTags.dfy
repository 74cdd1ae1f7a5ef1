/**
 Inside a start tag: swapping slot values changes neither where attributes and the tag end
 nor which values are slots.
 */
module HtmlTags {
  import opened Wrappers
  import opened Utf16
  import opened HtmlScanner

  /** The same pieces, except that slots may hold other slot values. */
  predicate Similar(ps: seq<Piece>, qs: seq<Piece>) {
    && |ps| == |qs|
    && forall i :: 0 <= i < |ps| ==>
         match ps[i]
         case Unit(c) => qs[i] == Unit(c)
         case Slot(v) => IsSlotValue(v) && qs[i].Slot? && IsSlotValue(qs[i].value)
  }

  // Slot values are inert

  /** No white space, quote, angle bracket, slash or equals sign. */
  predicate Inert(c: CodeUnit) {
    IsDigit(c) || IsAsciiLetter(c) || c == MINUS || c == PLUS || c == COLON || c == DOT || c == UNDERSCORE
  }

  lemma {:induction false} ZoneInert(t: Text)
    requires IsZone(t)
    ensures forall i :: 0 <= i < |t| ==> Inert(t[i])
  {
  }

  lemma {:induction false} TimestampInert(t: Text)
    requires IsTimestamp(t)
    ensures forall i :: 0 <= i < |t| ==> Inert(t[i])
  {
    var tail := t[19..];
    forall i | 19 <= i < |t| ensures Inert(t[i]) {
      assert t[i] == tail[i - 19];
      if t[19] == DOT {
        var n := Span(IsDigit, t[20..]);
        ZoneInert(t[20 + n..]);
        if i >= 20 + n {
          assert t[i] == t[20 + n..][i - 20 - n];
        } else if i >= 20 {
          assert t[i] == t[20..][i - 20];
        }
      } else {
        ZoneInert(tail);
      }
    }
  }

  lemma {:induction false} SlotInert(t: Text)
    requires IsSlotValue(t)
    ensures t != [] && forall i :: 0 <= i < |t| ==> Inert(t[i])
  {
    if IsTimestamp(t) {
      TimestampInert(t);
    }
  }

  // Pieces side by side

  lemma {:induction false} SimilarSplit(a: seq<Piece>, b: seq<Piece>, qs: seq<Piece>)
    requires Similar(a + b, qs)
    ensures Similar(a, qs[..|a|]) && Similar(b, qs[|a|..]) && qs == qs[..|a|] + qs[|a|..]
    ensures Flat(qs) == Flat(qs[..|a|]) + Flat(qs[|a|..])
  {
    forall i | 0 <= i < |a| ensures a[i] == (a + b)[i] { }
    forall i | 0 <= i < |b| ensures b[i] == (a + b)[|a| + i] && qs[|a|..][i] == qs[|a| + i] { }
    assert qs == qs[..|a|] + qs[|a|..];
    FlatConcat(qs[..|a|], qs[|a|..]);
  }

  lemma {:induction false} SimilarUnits(t: Text, qs: seq<Piece>)
    requires Similar(Units(t), qs)
    ensures qs == Units(t) && Flat(qs) == t
  {
    FlatUnits(t);
  }

  lemma {:induction false} InertRun(q: QuoteState, v: Text)
    requires forall i :: 0 <= i < |v| ==> Inert(v[i])
    ensures Run(q, v) == q
  {
    if v != [] {
      InertRun(q, v[1..]);
    }
  }

  function Run(q: QuoteState, t: Text): QuoteState
    decreases |t|
  {
    if t == [] then q else Run(Advance(q, t[0]), t[1..])
  }

  lemma {:induction false} RunConcat(q: QuoteState, a: Text, b: Text)
    ensures Run(q, a + b) == Run(Run(q, a), b)
    decreases |a|
  {
    if a == [] {
      assert a + b == b;
    } else {
      assert (a + b)[1..] == a[1..] + b;
      RunConcat(Advance(q, a[0]), a[1..], b);
    }
  }

  /** Slots never change the quote state, so similar pieces move it alike. */
  lemma {:induction false} SimilarRun(q: QuoteState, ps: seq<Piece>, qs: seq<Piece>)
    requires Similar(ps, qs)
    ensures Run(q, Flat(ps)) == Run(q, Flat(qs))
    decreases |ps|
  {
    if ps != [] {
      var a := match ps[0] case Unit(c) => [c] case Slot(v) => v;
      var b := match qs[0] case Unit(c) => [c] case Slot(v) => v;
      RunConcat(q, a, Flat(ps[1..]));
      RunConcat(q, b, Flat(qs[1..]));
      if ps[0].Slot? {
        SlotInert(a);
        SlotInert(b);
        InertRun(q, a);
        InertRun(q, b);
      }
      SimilarRun(Run(q, a), ps[1..], qs[1..]);
    }
  }

  // Attributes

  lemma {:induction false} UnquotedSpanPrefix(t: Text)
    ensures UnquotedStop(t[UnquotedSpan(t)..])
    ensures forall i :: 0 <= i < UnquotedSpan(t) ==> !UnquotedStop(t[i..])
  {
    if !UnquotedStop(t) {
      UnquotedSpanPrefix(t[1..]);
      assert t[UnquotedSpan(t)..] == t[1..][UnquotedSpan(t[1..])..];
      forall i | 1 <= i < UnquotedSpan(t) ensures !UnquotedStop(t[i..]) {
        assert t[i..] == t[1..][i - 1..];
      }
    } else {
      assert t[0..] == t;
    }
  }

  /** The end of an unquoted value depends on what follows only through its first character. */
  lemma {:induction false} UnquotedSwap(a: Text, b: Text, c: Text)
    requires UnquotedSpan(a + b) == |a| && UnquotedStop(c)
    requires (b == [] <==> c == []) && (b != [] ==> b[0] == c[0])
    ensures UnquotedSpan(a + c) == |a|
  {
    if a == [] {
      assert a + c == c;
    } else {
      assert (a + b)[1..] == a[1..] + b && (a + c)[1..] == a[1..] + c;
      UnquotedSwap(a[1..], b, c);
    }
  }

  lemma {:induction false} UnquotedInert(v: Text, c: Text)
    requires (forall i :: 0 <= i < |v| ==> Inert(v[i])) && UnquotedStop(c)
    ensures UnquotedSpan(v + c) == |v|
  {
    if v == [] {
      assert v + c == c;
    } else {
      assert (v + c)[1..] == v[1..] + c;
      UnquotedInert(v[1..], c);
    }
  }

  /** Text that follows a chunk and may replace another such text. */
  ghost predicate Continues(rest: Text, other: Text) {
    && (rest == [] <==> other == [])
    && (rest != [] ==> rest[0] == other[0])
    && (AtTagClose(rest) ==> other == rest)
    && (AtTagClose(other) ==> other == rest)
  }

  ghost predicate Interchangeable(build: bool, value: Text, other: Text) {
    other == value || (build && IsSlotValue(value) && IsSlotValue(other))
  }

  /** The chunk's text with another value and other text after it. */
  function Rebuilt(k: Chunk, value: Text, rest: Text): Text {
    k.head + value + k.close + rest
  }

  ghost predicate Swaps(k: Chunk, value: Text, rest: Text) {
    Interchangeable(k.build, k.value, value) && Continues(k.rest, rest)
  }

  function Swapped(k: Chunk, value: Text, rest: Text): Chunk {
    k.(value := value, rest := rest)
  }

  lemma {:induction false} RebuiltPrepend(p: Text, k: Chunk, value: Text, rest: Text)
    ensures Rebuilt(Prepend(p, k), value, rest) == p + Rebuilt(k, value, rest)
  {
  }

  /** How a quoted value reads, given that its quote does not occur in it. */
  lemma {:induction false} QuotedReads(build: bool, quote: CodeUnit, value: Text, after: Text)
    requires quote == QUOTE || quote == APOSTROPHE
    requires forall i :: 0 <= i < |value| ==> value[i] != quote
    requires after != [] ==> after[0] == quote
    ensures ValueChunk(build, [quote] + (value + after))
         == if after == [] then Chunk([quote], build, value, [], [])
           else Chunk([quote], build, value, [quote], after[1..])
  {
    var u := [quote] + (value + after);
    assert u[1..] == value + after;
    SpanExact(Until(quote), value, after);
    assert u[1..1 + |value|] == value;
    if after != [] {
      assert u[2 + |value|..] == after[1..];
    }
  }

  /** A quoted value holds no quote of its own kind, and a quote or nothing follows it. */
  lemma {:induction false} QuotedShape(build: bool, t: Text)
    requires t != [] && (t[0] == QUOTE || t[0] == APOSTROPHE)
    ensures var k := ValueChunk(build, t);
      && k.build == build && k.head == [t[0]]
      && (forall i :: 0 <= i < |k.value| ==> k.value[i] != t[0])
      && ((k.close == [] && k.rest == []) || k.close == [t[0]])
  {
    var q := 1 + Span(Until(t[0]), t[1..]);
    forall i | 1 <= i < q ensures t[i] != t[0] {
      assert t[i] == t[1..][i - 1] && Until(t[0])(t[1..][i - 1]);
    }
    if q < |t| {
      assert t[q] == t[1..][q - 1] && !Until(t[0])(t[1..][q - 1]);
    }
  }

  lemma {:induction false} QuotedValueStable(build: bool, t: Text, value: Text, rest: Text)
    requires t != [] && (t[0] == QUOTE || t[0] == APOSTROPHE)
    requires Swaps(ValueChunk(build, t), value, rest)
    ensures ValueChunk(build, Rebuilt(ValueChunk(build, t), value, rest)) == Swapped(ValueChunk(build, t), value, rest)
  {
    QuotedShape(build, t);
    var k := ValueChunk(build, t);
    var after := k.close + rest;
    if value != k.value {
      SlotInert(value);
    }
    QuotedReads(build, t[0], value, after);
    RebuiltQuoted(k, t[0], value, rest);
  }

  lemma {:induction false} RebuiltQuoted(k: Chunk, quote: CodeUnit, value: Text, rest: Text)
    requires k.head == [quote]
    ensures Rebuilt(k, value, rest) == [quote] + (value + (k.close + rest))
    ensures k.close == [quote] ==> (k.close + rest)[1..] == rest
  {
  }

  lemma {:induction false} UnquotedReads(build: bool, value: Text, rest: Text)
    requires UnquotedSpan(value + rest) == |value|
    requires value + rest == [] || ((value + rest)[0] != QUOTE && (value + rest)[0] != APOSTROPHE)
    ensures ValueChunk(build, value + rest) == Chunk([], build, value, [], rest)
  {
    assert (value + rest)[..|value|] == value && (value + rest)[|value|..] == rest;
  }

  lemma {:induction false} UnquotedShape(build: bool, t: Text)
    requires t == [] || (t[0] != QUOTE && t[0] != APOSTROPHE)
    ensures var k := ValueChunk(build, t);
      k.head == [] && k.close == [] && k.build == build && t == k.value + k.rest && |k.value| == UnquotedSpan(t)
  {
  }

  lemma {:induction false} RebuiltBare(k: Chunk, value: Text, rest: Text)
    requires k.head == [] && k.close == []
    ensures Rebuilt(k, value, rest) == value + rest
  {
  }

  lemma {:induction false} UnquotedValueStable(build: bool, t: Text, value: Text, rest: Text)
    requires t == [] || (t[0] != QUOTE && t[0] != APOSTROPHE)
    requires Swaps(ValueChunk(build, t), value, rest)
    ensures ValueChunk(build, Rebuilt(ValueChunk(build, t), value, rest)) == Swapped(ValueChunk(build, t), value, rest)
  {
    var k := ValueChunk(build, t);
    UnquotedShape(build, t);
    RebuiltBare(k, value, rest);
    UnquotedSpanPrefix(t);
    UnquotedStillStops(k.rest, rest);
    if value == k.value {
      UnquotedSwap(value, k.rest, rest);
    } else {
      SlotInert(value);
      UnquotedInert(value, rest);
    }
    UnquotedReads(build, value, rest);
  }

  lemma {:induction false} UnquotedStillStops(rest: Text, other: Text)
    requires UnquotedStop(rest) && Continues(rest, other)
    ensures UnquotedStop(other)
  {
  }

  lemma {:induction false} ValueStable(build: bool, t: Text, value: Text, rest: Text)
    requires Swaps(ValueChunk(build, t), value, rest)
    ensures ValueChunk(build, Rebuilt(ValueChunk(build, t), value, rest)) == Swapped(ValueChunk(build, t), value, rest)
  {
    if t != [] && (t[0] == QUOTE || t[0] == APOSTROPHE) {
      QuotedValueStable(build, t, value, rest);
    } else {
      UnquotedValueStable(build, t, value, rest);
    }
  }

  /** A value that does not start with white space still does not after swapping. */
  lemma {:induction false} ValueHead(build: bool, t: Text, value: Text, rest: Text)
    requires Swaps(ValueChunk(build, t), value, rest) && (t == [] || !IsHtmlWhitespace(t[0]))
    ensures var u := Rebuilt(ValueChunk(build, t), value, rest); u == [] || !IsHtmlWhitespace(u[0])
  {
    var k := ValueChunk(build, t);
    if value != k.value {
      SlotInert(value);
    }
  }

  lemma {:induction false} SpacedValue(build: bool, gap: Text, body: Text)
    requires forall i :: 0 <= i < |gap| ==> IsHtmlWhitespace(gap[i])
    requires body == [] || !IsHtmlWhitespace(body[0])
    ensures AfterEquals(build, gap + body) == Prepend(gap, ValueChunk(build, body))
  {
    SpanExact(IsHtmlWhitespace, gap, body);
    assert (gap + body)[..|gap|] == gap && (gap + body)[|gap|..] == body;
  }

  lemma {:induction false} AfterEqualsStable(build: bool, t: Text, value: Text, rest: Text)
    requires Swaps(AfterEquals(build, t), value, rest)
    ensures AfterEquals(build, Rebuilt(AfterEquals(build, t), value, rest)) ==
      Swapped(AfterEquals(build, t), value, rest)
  {
    var g := Span(IsHtmlWhitespace, t);
    var k := ValueChunk(build, t[g..]);
    ValueStable(build, t[g..], value, rest);
    ValueHead(build, t[g..], value, rest);
    RebuiltPrepend(t[..g], k, value, rest);
    SpacedValue(build, t[..g], Rebuilt(k, value, rest));
  }

  lemma {:induction false} BareNameStable(build: bool, t: Text, rest: Text)
    requires var e := Span(IsHtmlWhitespace, t); e == |t| || t[e] != EQUALS
    requires Continues(t[Span(IsHtmlWhitespace, t)..], rest)
    ensures AfterName(build, t[..Span(IsHtmlWhitespace, t)] + rest) == AfterName(build, t).(rest := rest)
  {
    var e := Span(IsHtmlWhitespace, t);
    var u := t[..e] + rest;
    SpanExact(IsHtmlWhitespace, t[..e], rest);
    assert u[..e] == t[..e] && u[e..] == rest;
  }

  lemma {:induction false} NameWithValueStable(build: bool, gap: Text, body: Text)
    requires forall i :: 0 <= i < |gap| ==> IsHtmlWhitespace(gap[i])
    ensures AfterName(build, gap + [EQUALS] + body) == Prepend(gap + [EQUALS], AfterEquals(build, body))
  {
    var u := gap + [EQUALS] + body;
    assert u == gap + ([EQUALS] + body);
    SpanExact(IsHtmlWhitespace, gap, [EQUALS] + body);
    assert u[..|gap| + 1] == gap + [EQUALS] && u[|gap| + 1..] == body;
  }

  lemma {:induction false} ValuedNameStable(build: bool, gap: Text, tail: Text, value: Text, rest: Text)
    requires forall i :: 0 <= i < |gap| ==> IsHtmlWhitespace(gap[i])
    requires Swaps(AfterEquals(build, tail), value, rest)
    ensures AfterName(build, gap + [EQUALS] + Rebuilt(AfterEquals(build, tail), value, rest))
         == Prepend(gap + [EQUALS], Swapped(AfterEquals(build, tail), value, rest))
  {
    AfterEqualsStable(build, tail, value, rest);
    NameWithValueStable(build, gap, Rebuilt(AfterEquals(build, tail), value, rest));
  }

  lemma {:induction false} SplitAtEquals(build: bool, t: Text)
    requires var e := Span(IsHtmlWhitespace, t); e < |t| && t[e] == EQUALS
    ensures var e := Span(IsHtmlWhitespace, t);
      AfterName(build, t) == Prepend(t[..e] + [EQUALS], AfterEquals(build, t[e + 1..]))
  {
    var e := Span(IsHtmlWhitespace, t);
    assert t[..e + 1] == t[..e] + [EQUALS];
  }

  lemma {:induction false} AfterNameStable(build: bool, t: Text, value: Text, rest: Text)
    requires Swaps(AfterName(build, t), value, rest)
    ensures AfterName(build, Rebuilt(AfterName(build, t), value, rest)) == Swapped(AfterName(build, t), value, rest)
  {
    var e := Span(IsHtmlWhitespace, t);
    if e == |t| || t[e] != EQUALS {
      BareNameStable(build, t, rest);
      assert Rebuilt(AfterName(build, t), value, rest) == t[..e] + rest;
    } else {
      SplitAtEquals(build, t);
      var k := AfterEquals(build, t[e + 1..]);
      ValuedNameStable(build, t[..e], t[e + 1..], value, rest);
      RebuiltPrepend(t[..e] + [EQUALS], k, value, rest);
    }
  }

  lemma {:induction false} AfterNameHead(build: bool, t: Text, value: Text, rest: Text)
    requires Swaps(AfterName(build, t), value, rest)
    ensures var u := Rebuilt(AfterName(build, t), value, rest); (u == [] <==> t == []) && (t != [] ==> u[0] == t[0])
  {
  }

  lemma {:induction false} AtNameStable(t: Text, value: Text, rest: Text)
    requires t != [] && Swaps(AtName(t), value, rest)
    ensures var u := Rebuilt(AtName(t), value, rest);
      u != [] && u[0] == t[0] && AtName(u) == Swapped(AtName(t), value, rest)
  {
    var n := Span(IsAttributeNameCharacter, t);
    if n == 0 {
      assert Rebuilt(AtName(t), value, rest) == [t[0]] + rest;
    } else {
      var build := FoldText(t[..n]) == DATA_BUILD;
      var k := AfterName(build, t[n..]);
      var body := Rebuilt(k, value, rest);
      AfterNameStable(build, t[n..], value, rest);
      AfterNameHead(build, t[n..], value, rest);
      RebuiltPrepend(t[..n], k, value, rest);
      var u := t[..n] + body;
      SpanExact(IsAttributeNameCharacter, t[..n], body);
      assert u[..n] == t[..n] && u[n..] == body;
    }
  }

  /** Swapping a slot value and what follows leaves the rest of the chunk as it was. */
  lemma {:induction false} NextChunkStable(t: Text, value: Text, rest: Text)
    requires t != [] && Swaps(NextChunk(t), value, rest)
    ensures var u := Rebuilt(NextChunk(t), value, rest);
      u != [] && NextChunk(u) == Swapped(NextChunk(t), value, rest)
  {
    var w := Span(IsHtmlWhitespace, t);
    if AtTagClose(t[w..]) {
      assert Rebuilt(NextChunk(t), value, rest) == t;
    } else {
      var k := AtName(t[w..]);
      var body := Rebuilt(k, value, rest);
      AtNameStable(t[w..], value, rest);
      RebuiltPrepend(t[..w], k, value, rest);
      var u := t[..w] + body;
      SpanExact(IsHtmlWhitespace, t[..w], body);
      assert u[..w] == t[..w] && u[w..] == body;
      NotAtTagClose(t[w..], value, rest);
    }
  }

  /** A slash that does not close the tag still does not after swapping. */
  lemma {:induction false} NotAtTagClose(t: Text, value: Text, rest: Text)
    requires t != [] && !AtTagClose(t) && Swaps(AtName(t), value, rest)
    ensures !AtTagClose(Rebuilt(AtName(t), value, rest))
  {
    AtNameStable(t, value, rest);
    if t[0] == SLASH {
      assert Rebuilt(AtName(t), value, rest) == [SLASH] + rest;
    }
  }

  // Tags

  ghost predicate Whole(k: Chunk, t: Text) {
    Rebuilt(k, k.value, k.rest) == t
  }

  lemma {:induction false} PrependWhole(k: Chunk, t: Text, n: nat)
    requires n <= |t| && Whole(k, t[n..])
    ensures Whole(Prepend(t[..n], k), t)
  {
    RebuiltPrepend(t[..n], k, k.value, k.rest);
    assert t == t[..n] + t[n..];
  }

  lemma {:induction false} ValueWhole(build: bool, t: Text)
    ensures Whole(ValueChunk(build, t), t)
  {
  }

  lemma {:induction false} AfterNameWhole(build: bool, t: Text)
    ensures Whole(AfterName(build, t), t)
  {
    var e := Span(IsHtmlWhitespace, t);
    if e < |t| && t[e] == EQUALS {
      var after := t[e + 1..];
      var g := Span(IsHtmlWhitespace, after);
      ValueWhole(build, after[g..]);
      PrependWhole(ValueChunk(build, after[g..]), after, g);
      PrependWhole(AfterEquals(build, after), t, e + 1);
    }
  }

  lemma {:induction false} AtNameWhole(t: Text)
    requires t != []
    ensures Whole(AtName(t), t)
  {
    var n := Span(IsAttributeNameCharacter, t);
    if n > 0 {
      var build := FoldText(t[..n]) == DATA_BUILD;
      AfterNameWhole(build, t[n..]);
      PrependWhole(AfterName(build, t[n..]), t, n);
    }
  }

  /** A chunk accounts for every character of the text it was taken from. */
  lemma {:induction false} ChunkWhole(t: Text)
    requires t != []
    ensures Whole(NextChunk(t), t)
  {
    var w := Span(IsHtmlWhitespace, t);
    if !AtTagClose(t[w..]) {
      AtNameWhole(t[w..]);
      PrependWhole(AtName(t[w..]), t, w);
    }
  }

  lemma {:induction false} ChunkFlat(k: Chunk)
    ensures Flat(ChunkPieces(k)) == k.head + k.value + k.close
  {
    FlatConcat(Units(k.head) + ValuePieces(k.build, k.value), Units(k.close));
    FlatConcat(Units(k.head), ValuePieces(k.build, k.value));
    FlatUnits(k.head);
    FlatUnits(k.value);
    FlatUnits(k.close);
    if k.build && IsSlotValue(k.value) {
      assert Flat([Slot(k.value)]) == k.value + Flat([]);
    }
  }

  lemma {:induction false} AttributesWhole(t: Text)
    ensures Flat(AttributePieces(t)) == t
    decreases |t|
  {
    if t != [] {
      var k := NextChunk(t);
      FlatConcat(ChunkPieces(k), AttributePieces(k.rest));
      ChunkFlat(k);
      AttributesWhole(k.rest);
      ChunkWhole(t);
    }
  }

  /** The first character of the attributes is always copied. */
  lemma {:induction false} AttributesHead(t: Text)
    requires t != []
    ensures AttributePieces(t) != [] && AttributePieces(t)[0] == Unit(t[0])
    ensures AtTagClose(t) ==> AttributePieces(t) == Units(t)
  {
    var k := NextChunk(t);
    ChunkWhole(t);
    ChunkHead(t);
    assert ChunkPieces(k)[0] == Unit(k.head[0]);
    if AtTagClose(t) {
      assert t[Span(IsHtmlWhitespace, t)..] == t;
      assert ChunkPieces(k) == Units(t);
    }
  }

  lemma {:induction false} ChunkHead(t: Text)
    requires t != []
    ensures NextChunk(t).head != [] && NextChunk(t).head[0] == t[0]
  {
    var w := Span(IsHtmlWhitespace, t);
    if !AtTagClose(t[w..]) {
      NameHead(t[w..]);
      assert w > 0 ==> (t[..w] + AtName(t[w..]).head)[0] == t[0];
    }
  }

  lemma {:induction false} NameHead(t: Text)
    requires t != []
    ensures AtName(t).head != [] && AtName(t).head[0] == t[0]
  {
    var n := Span(IsAttributeNameCharacter, t);
    if n > 0 {
      var k := AfterName(FoldText(t[..n]) == DATA_BUILD, t[n..]);
      assert (t[..n] + k.head)[0] == t[0];
    }
  }

  /** Reading similar pieces back gives those pieces. */
  lemma {:induction false} AttributesStable(t: Text, qs: seq<Piece>)
    requires Similar(AttributePieces(t), qs)
    ensures AttributePieces(Flat(qs)) == qs
    decreases |t|
  {
    if t != [] {
      var k := NextChunk(t);
      SimilarSplit(ChunkPieces(k), AttributePieces(k.rest), qs);
      var tail := qs[|ChunkPieces(k)|..];
      var value := SimilarChunk(k, qs[..|ChunkPieces(k)|]);
      AttributesStable(k.rest, tail);
      ContinuesSimilar(k.rest, tail);
      NextChunkStable(t, value, Flat(tail));
      ChunkFlat(Swapped(k, value, Flat(tail)));
      assert Rebuilt(k, value, Flat(tail)) == Flat(qs);
    }
  }

  /** The pieces similar to a chunk are those of the chunk with another value. */
  lemma {:induction false} SimilarChunk(k: Chunk, qs: seq<Piece>) returns (value: Text)
    requires Similar(ChunkPieces(k), qs)
    ensures Interchangeable(k.build, k.value, value) && ChunkPieces(k.(value := value)) == qs
  {
    SimilarSplit(Units(k.head) + ValuePieces(k.build, k.value), Units(k.close), qs);
    var front := qs[..|k.head| + |ValuePieces(k.build, k.value)|];
    SimilarSplit(Units(k.head), ValuePieces(k.build, k.value), front);
    SimilarUnits(k.head, front[..|k.head|]);
    SimilarUnits(k.close, qs[|front|..]);
    if k.build && IsSlotValue(k.value) {
      value := front[|k.head|].value;
      assert front[|k.head|..] == [Slot(value)];
    } else {
      SimilarUnits(k.value, front[|k.head|..]);
      value := k.value;
    }
  }

  lemma {:induction false} ContinuesSimilar(t: Text, qs: seq<Piece>)
    requires Similar(AttributePieces(t), qs) && AttributePieces(Flat(qs)) == qs
    ensures Continues(t, Flat(qs))
  {
    var u := Flat(qs);
    if t != [] {
      AttributesHead(t);
      assert qs[0] == Unit(t[0]);
      if AtTagClose(t) {
        SimilarUnits(t, qs);
      }
      if AtTagClose(u) {
        AttributesHead(u);
        AttributesWhole(t);
        UnitsSimilar(AttributePieces(t), u);
      }
    }
  }

  lemma {:induction false} UnitsSimilar(ps: seq<Piece>, u: Text)
    requires Similar(ps, Units(u))
    ensures ps == Units(u) && Flat(ps) == u
  {
    forall i | 0 <= i < |ps| ensures ps[i] == Unit(u[i]) {
      assert Units(u)[i] == Unit(u[i]);
    }
    FlatUnits(u);
  }

  lemma {:induction false} HeadAndAttributes(head: Text, rest: Text)
    ensures Flat(Units(head) + AttributePieces(rest)) == head + rest
  {
    FlatConcat(Units(head), AttributePieces(rest));
    FlatUnits(head);
    AttributesWhole(rest);
  }

  lemma {:induction false} TagWhole(tag: Text)
    requires tag != []
    ensures Flat(TagPieces(tag)) == tag
  {
    var n := 1 + Span(IsTagNameCharacter, tag[1..]);
    HeadAndAttributes(tag[..n], tag[n..]);
    assert tag == tag[..n] + tag[n..];
  }

  /** A name and attributes that follow it are split at the same place after swapping. */
  lemma {:induction false} NameAndAttributesStable(head: Text, rest: Text, qs: seq<Piece>) returns (qa: seq<Piece>)
    requires rest == [] || !IsTagNameCharacter(rest[0])
    requires Similar(Units(head) + AttributePieces(rest), qs)
    ensures qs == Units(head) + qa && Flat(qs) == head + Flat(qa)
    ensures Similar(AttributePieces(rest), qa) && AttributePieces(Flat(qa)) == qa
    ensures Flat(qa) == [] || !IsTagNameCharacter(Flat(qa)[0])
  {
    SimilarSplit(Units(head), AttributePieces(rest), qs);
    SimilarUnits(head, qs[..|head|]);
    qa := qs[|head|..];
    AttributesStable(rest, qa);
    if rest != [] {
      AttributesHead(rest);
      assert qa[0] == Unit(rest[0]);
    }
  }

  lemma {:induction false} TagPiecesIntro(head: Text, rest: Text)
    requires head != [] && forall i :: 1 <= i < |head| ==> IsTagNameCharacter(head[i])
    requires rest == [] || !IsTagNameCharacter(rest[0])
    ensures TagPieces(head + rest) == Units(head) + AttributePieces(rest)
  {
    NameSpan(head, rest);
  }

  lemma {:induction false} NameSpan(head: Text, rest: Text)
    requires head != [] && forall i :: 1 <= i < |head| ==> IsTagNameCharacter(head[i])
    requires rest == [] || !IsTagNameCharacter(rest[0])
    ensures 1 + Span(IsTagNameCharacter, (head + rest)[1..]) == |head|
    ensures (head + rest)[..|head|] == head && (head + rest)[|head|..] == rest
  {
    assert (head + rest)[1..] == head[1..] + rest;
    SpanExact(IsTagNameCharacter, head[1..], rest);
  }

  // Where tags end

  lemma {:induction false} TagEndRun(t: Text, q: QuoteState)
    requires q != Closed
    ensures TagEnd(t, q).None? <==> Run(q, t) != Closed
    ensures TagEnd(t, q).Some? ==> var k := TagEnd(t, q).value; t[k - 1] == GT && Run(q, t[..k - 1]) == Outside
    decreases |t|
  {
    if t != [] {
      if Advance(q, t[0]) == Closed {
        ClosedForever(t[1..]);
        assert t[..0] == [];
      } else {
        TagEndRun(t[1..], Advance(q, t[0]));
        if TagEnd(t, q).Some? {
          var k := TagEnd(t, q).value;
          assert t[..k - 1][1..] == t[1..][..k - 2];
        }
      }
    }
  }

  lemma {:induction false} ClosedForever(t: Text)
    ensures Run(Closed, t) == Closed
  {
    if t != [] {
      ClosedForever(t[1..]);
    }
  }

  lemma {:induction false} TagEndIntro(a: Text, b: Text, q: QuoteState)
    requires q != Closed && Run(q, a) == Outside
    ensures TagEnd(a + [GT] + b, q) == Some(|a| + 1)
    decreases |a|
  {
    var t := a + [GT] + b;
    if a != [] {
      if Advance(q, a[0]) == Closed {
        ClosedForever(a[1..]);
      }
      TagEndIntro(a[1..], b, Advance(q, a[0]));
      assert t[1..] == a[1..] + [GT] + b;
    }
  }

  /** Pieces whose text ends a tag end with that very character. */
  lemma {:induction false} EndsWithTagEnd(ps: seq<Piece>)
    requires Flat(ps) != [] && Flat(ps)[|Flat(ps)| - 1] == GT && Similar(ps, ps)
    ensures ps != [] && ps[|ps| - 1] == Unit(GT)
    ensures Flat(ps) == Flat(ps[..|ps| - 1]) + [GT]
  {
    var init, last := ps[..|ps| - 1], ps[|ps| - 1];
    assert ps == init + [last];
    FlatConcat(init, [last]);
    var text := match last case Unit(c) => [c] case Slot(v) => v;
    assert Flat([last]) == text + Flat([]);
    if last.Slot? {
      SlotInert(last.value);
    }
    assert Flat(ps) == Flat(init) + text;
    assert Flat(ps)[|Flat(ps)| - 1] == text[|text| - 1];
  }

  lemma {:induction false} SimilarInit(ps: seq<Piece>, qs: seq<Piece>)
    requires Similar(ps, qs) && ps != [] && ps[|ps| - 1] == Unit(GT)
    ensures Similar(ps[..|ps| - 1], qs[..|qs| - 1])
    ensures Flat(qs) == Flat(qs[..|qs| - 1]) + [GT]
  {
    var init := qs[..|qs| - 1];
    assert qs == init + [Unit(GT)];
    FlatConcat(init, [Unit(GT)]);
    assert Flat([Unit(GT)]) == [GT] + Flat([]);
  }

  lemma {:induction false} LastPiece(ps: seq<Piece>, t: Text, end: nat)
    requires TagEnd(t, Outside) == Some(end) && Flat(ps) == t[..end] && Similar(ps, ps)
    ensures ps != [] && ps[|ps| - 1] == Unit(GT) && Run(Outside, Flat(ps[..|ps| - 1])) == Outside
  {
    TagEndRun(t, Outside);
    EndsWithTagEnd(ps);
    PopLast(Flat(ps[..|ps| - 1]), t, end);
  }

  lemma {:induction false} PopLast(init: Text, t: Text, end: nat)
    requires 0 < end <= |t| && t[..end] == init + [GT]
    ensures init == t[..end - 1]
  {
    assert (init + [GT])[..|init|] == init;
  }

  /** Pieces that run to the end of their tag still do after swapping. */
  lemma {:induction false} PiecesEnd(t: Text, end: nat, ps: seq<Piece>, qa: seq<Piece>, after: Text)
    requires TagEnd(t, Outside) == Some(end) && Flat(ps) == t[..end]
    requires Similar(ps, qa)
    ensures Flat(qa) != [] && TagEnd(Flat(qa) + after, Outside) == Some(|Flat(qa)|)
  {
    SimilarToSelf(ps, qa);
    LastPiece(ps, t, end);
    SimilarInit(ps, qa);
    SimilarRun(Outside, ps[..|ps| - 1], qa[..|qa| - 1]);
    TagEndIntro(Flat(qa[..|qa| - 1]), after, Outside);
  }

  lemma {:induction false} ReadStartTagIntro(head: Text, rest: Text)
    requires |head| > 1 && IsAsciiLetter(head[1]) && (forall i :: 1 <= i < |head| ==> IsTagNameCharacter(head[i]))
    requires rest == [] || !IsTagNameCharacter(rest[0])
    ensures ReadStartTag(head + rest) ==
      match TagEnd(rest, Outside)
      case None => None
      case Some(end) => Some(StartTag(|head| + end, FoldText(head[1..])))
  {
    NameSpan(head, rest);
    assert (head + rest)[1..|head|] == head[1..];
  }

  /** The parts of a start tag. */
  lemma {:induction false} StartTagParts(t: Text) returns (head: Text, rest: Text, end: nat)
    requires t != [] && ReadStartTag(t).Some?
    ensures t == head + rest && |head| > 1 && IsAsciiLetter(head[1])
    ensures (forall i :: 1 <= i < |head| ==> IsTagNameCharacter(head[i])) && rest != [] && !IsTagNameCharacter(rest[0])
    ensures TagEnd(rest, Outside) == Some(end) && ReadStartTag(t) == Some(StartTag(|head| + end, FoldText(head[1..])))
    ensures t[..|head| + end] == head + rest[..end]
  {
    var n := 1 + Span(IsTagNameCharacter, t[1..]);
    head, rest := t[..n], t[n..];
    end := ReadStartTag(t).value.end - n;
    forall i | 1 <= i < n ensures IsTagNameCharacter(t[i]) {
      assert t[i] == t[1..][i - 1];
    }
    assert t[1] == t[1..][0] && t[n] == t[1..][n - 1];
    assert t[..n][1..] == t[1..n];
  }

  /** A start tag in parts is found again, and ends at the same piece, after swapping its slots. */
  lemma {:induction false} PartsStable(head: Text, rest: Text, end: nat, qs: seq<Piece>, after: Text)
    requires |head| > 1 && IsAsciiLetter(head[1]) && (forall i :: 1 <= i < |head| ==> IsTagNameCharacter(head[i]))
    requires rest != [] && !IsTagNameCharacter(rest[0]) && TagEnd(rest, Outside) == Some(end)
    requires Similar(Units(head) + AttributePieces(rest[..end]), qs)
    ensures |Flat(qs)| > 1 && Flat(qs)[0] == head[0] && Flat(qs)[1] == head[1]
    ensures ReadStartTag(Flat(qs) + after) == Some(StartTag(|Flat(qs)|, FoldText(head[1..])))
    ensures TagPieces(Flat(qs)) == qs
  {
    var qa := NameAndAttributesStable(head, rest[..end], qs);
    AttributesWhole(rest[..end]);
    PiecesEnd(rest, end, AttributePieces(rest[..end]), qa, after);
    StartTagRebuilt(head, Flat(qa), after);
    TagPiecesIntro(head, Flat(qa));
  }

  lemma {:induction false} StartTagStable(t: Text, tag: StartTag, qs: seq<Piece>, after: Text)
    requires t != [] && ReadStartTag(t) == Some(tag)
    requires Similar(TagPieces(t[..tag.end]), qs)
    ensures |Flat(qs)| > 1 && Flat(qs)[0] == t[0] && Flat(qs)[1] == t[1]
    ensures ReadStartTag(Flat(qs) + after) == Some(StartTag(|Flat(qs)|, tag.name))
    ensures TagPieces(Flat(qs)) == qs
  {
    var head, rest, end := StartTagParts(t);
    assert t[..tag.end] == head + rest[..end];
    TagPiecesIntro(head, rest[..end]);
    PartsStable(head, rest, end, qs, after);
  }

  lemma {:induction false} StartTagRebuilt(head: Text, body: Text, after: Text)
    requires |head| > 1 && IsAsciiLetter(head[1]) && (forall i :: 1 <= i < |head| ==> IsTagNameCharacter(head[i]))
    requires body != [] && !IsTagNameCharacter(body[0]) && TagEnd(body + after, Outside) == Some(|body|)
    ensures ReadStartTag(head + body + after) == Some(StartTag(|head + body|, FoldText(head[1..])))
  {
    ReadStartTagIntro(head, body + after);
    assert head + body + after == head + (body + after);
  }

  lemma {:induction false} SimilarToSelf(ps: seq<Piece>, qs: seq<Piece>)
    requires Similar(ps, qs)
    ensures Similar(ps, ps)
  {
    forall i | 0 <= i < |ps| ensures match ps[i] case Unit(c) => ps[i] == Unit(c) case Slot(v) => IsSlotValue(v) {
      assert ps[i].Slot? ==> IsSlotValue(ps[i].value);
    }
  }
}
