/**
 The hand-written HTML scanner behind `normalizeDataBuildAttributes`: where tags, comments,
 raw-text bodies and attribute values begin and end, and which attribute values are volatile.
 A document is described as pieces: code units that are copied, and slots that are not.
 */
module HtmlScanner {
  import opened Wrappers
  import opened Utf16

  // Characters

  predicate IsHtmlWhitespace(c: CodeUnit) {
    c == SPACE || c == LF || c == CR || c == TAB || c == FF
  }

  predicate IsTagNameCharacter(c: CodeUnit) {
    IsAsciiLetter(c) || IsDigit(c) || c == COLON || c == DOT || c == UNDERSCORE || c == MINUS
  }

  predicate IsAttributeNameCharacter(c: CodeUnit) {
    !IsHtmlWhitespace(c) && c != EQUALS && c != SLASH && c != GT && c != QUOTE && c != APOSTROPHE
  }

  predicate NotQuote(c: CodeUnit) {
    c != QUOTE
  }

  predicate NotApostrophe(c: CodeUnit) {
    c != APOSTROPHE
  }

  // Volatile values

  const MARKER: Text :=
    [UNDERSCORE, UNDERSCORE, 0x54, 0x49, 0x4D, 0x45, 0x53, 0x54, 0x41, 0x4D, 0x50, UNDERSCORE, UNDERSCORE]
  const DATA_BUILD: Text := [0x64, 0x61, 0x74, 0x61, MINUS, 0x62, 0x75, 0x69, 0x6C, 0x64]

  predicate DigitsAt(t: Text, from: nat, count: nat) {
    from + count <= |t| && forall i :: from <= i < from + count ==> IsDigit(t[i])
  }

  /** `Z`, or a signed offset with an optional colon. */
  predicate IsZone(t: Text) {
    || t == [0x5A]
    || (|t| == 5 && (t[0] == PLUS || t[0] == MINUS) && DigitsAt(t, 1, 4))
    || (|t| == 6 && (t[0] == PLUS || t[0] == MINUS) && DigitsAt(t, 1, 2) && t[3] == COLON && DigitsAt(t, 4, 2))
  }

  /** An ISO date and time, an optional fraction of one to nine digits, and a zone. */
  predicate IsTimestamp(t: Text) {
    && |t| > 19
    && DigitsAt(t, 0, 4) && t[4] == MINUS && DigitsAt(t, 5, 2) && t[7] == MINUS && DigitsAt(t, 8, 2)
    && t[10] == 0x54
    && DigitsAt(t, 11, 2) && t[13] == COLON && DigitsAt(t, 14, 2) && t[16] == COLON && DigitsAt(t, 17, 2)
    && if t[19] == DOT then
         var n := Span(IsDigit, t[20..]);
         1 <= n <= 9 && IsZone(t[20 + n..])
       else IsZone(t[19..])
  }

  /** What may stand in a slot: a timestamp, or the marker that replaces one. */
  predicate IsSlotValue(t: Text) {
    IsTimestamp(t) || t == MARKER
  }

  // Pieces

  datatype Piece = Unit(c: CodeUnit) | Slot(value: Text)

  function Units(t: Text): (r: seq<Piece>)
    ensures |r| == |t| && forall i :: 0 <= i < |t| ==> r[i] == Unit(t[i])
  {
    seq(|t|, i requires 0 <= i < |t| => Unit(t[i]))
  }

  function Flat(ps: seq<Piece>): Text {
    if ps == [] then []
    else (match ps[0] case Unit(c) => [c] case Slot(v) => v) + Flat(ps[1..])
  }

  /** The pieces with every slot holding the marker. */
  function Marked(ps: seq<Piece>): (r: seq<Piece>)
    ensures |r| == |ps|
  {
    seq(|ps|, i requires 0 <= i < |ps| => if ps[i].Slot? then Slot(MARKER) else ps[i])
  }

  // Start tags

  datatype QuoteState = Outside | InDouble | InSingle | Closed

  function Advance(q: QuoteState, c: CodeUnit): QuoteState {
    match q
    case Outside =>
      if c == QUOTE then InDouble else if c == APOSTROPHE then InSingle else if c == GT then Closed else Outside
    case InDouble => if c == QUOTE then Outside else q
    case InSingle => if c == APOSTROPHE then Outside else q
    case Closed => Closed
  }

  /** Position after the first `>` that is not quoted. */
  function TagEnd(t: Text, q: QuoteState): (r: Option<nat>)
    ensures r.Some? ==> 1 <= r.value <= |t|
  {
    if t == [] then None
    else if Advance(q, t[0]) == Closed then Some(1)
    else
      var rest := TagEnd(t[1..], Advance(q, t[0]));
      if rest.None? then None else Some(rest.value + 1)
  }

  datatype StartTag = StartTag(end: nat, name: Text)

  /** The start tag at the beginning of `t`, which starts with `<`. */
  function ReadStartTag(t: Text): (r: Option<StartTag>)
    requires t != []
    ensures r.Some? ==> 2 <= r.value.end <= |t|
  {
    if |t| < 2 || !IsAsciiLetter(t[1]) then None
    else
      var n := 1 + Span(IsTagNameCharacter, t[1..]);
      var end := TagEnd(t[n..], Outside);
      if end.None? then None else Some(StartTag(n + end.value, FoldText(t[1..n])))
  }

  predicate UnquotedStop(t: Text) {
    t == [] || IsHtmlWhitespace(t[0]) || t[0] == GT || (t[0] == SLASH && |t| > 1 && t[1] == GT)
  }

  function UnquotedSpan(t: Text): (n: nat)
    ensures n <= |t|
  {
    if UnquotedStop(t) then 0 else 1 + UnquotedSpan(t[1..])
  }

  /** One round of the attribute loop: text to copy, an attribute value, its closing quote, and what is left. */
  datatype Chunk = Chunk(head: Text, build: bool, value: Text, close: Text, rest: Text)

  /** Nothing but the end of the tag is left after white space. */
  predicate AtTagClose(t: Text) {
    t == [] || t[0] == GT || (t[0] == SLASH && |t| > 1 && t[1] == GT)
  }

  function Until(quote: CodeUnit): CodeUnit -> bool {
    if quote == QUOTE then NotQuote else NotApostrophe
  }

  function Prepend(p: Text, k: Chunk): Chunk {
    k.(head := p + k.head)
  }

  /** From the first character of a value that is not white space. */
  function ValueChunk(build: bool, t: Text): (k: Chunk)
    ensures |k.rest| <= |t|
  {
    if t != [] && (t[0] == QUOTE || t[0] == APOSTROPHE) then
      var q := 1 + Span(Until(t[0]), t[1..]);
      if q < |t| then Chunk([t[0]], build, t[1..q], [t[q]], t[q + 1..])
      else Chunk([t[0]], build, t[1..], [], [])
    else
      var q := UnquotedSpan(t);
      Chunk([], build, t[..q], [], t[q..])
  }

  /** From just after the equals sign. */
  function AfterEquals(build: bool, t: Text): (k: Chunk)
    ensures |k.rest| <= |t|
  {
    var g := Span(IsHtmlWhitespace, t);
    Prepend(t[..g], ValueChunk(build, t[g..]))
  }

  /** From just after an attribute name. */
  function AfterName(build: bool, t: Text): (k: Chunk)
    ensures |k.rest| <= |t|
  {
    var e := Span(IsHtmlWhitespace, t);
    if e == |t| || t[e] != EQUALS then Chunk(t[..e], false, [], [], t[e..])
    else Prepend(t[..e + 1], AfterEquals(build, t[e + 1..]))
  }

  /** From an attribute name on; a character that starts no name is copied alone. */
  function AtName(t: Text): (k: Chunk)
    requires t != []
    ensures |k.rest| < |t|
  {
    var n := Span(IsAttributeNameCharacter, t);
    if n == 0 then Chunk([t[0]], false, [], [], t[1..])
    else Prepend(t[..n], AfterName(FoldText(t[..n]) == DATA_BUILD, t[n..]))
  }

  function NextChunk(t: Text): (k: Chunk)
    requires t != []
    ensures |k.rest| < |t|
  {
    var w := Span(IsHtmlWhitespace, t);
    if AtTagClose(t[w..]) then Chunk(t, false, [], [], [])
    else Prepend(t[..w], AtName(t[w..]))
  }

  function ValuePieces(build: bool, value: Text): seq<Piece> {
    if build && IsSlotValue(value) then [Slot(value)] else Units(value)
  }

  function ChunkPieces(k: Chunk): seq<Piece> {
    Units(k.head) + ValuePieces(k.build, k.value) + Units(k.close)
  }

  /** The pieces of a start tag after its name. */
  function AttributePieces(t: Text): seq<Piece>
    decreases |t|
  {
    if t == [] then [] else ChunkPieces(NextChunk(t)) + AttributePieces(NextChunk(t).rest)
  }

  function TagPieces(tag: Text): seq<Piece>
    requires tag != []
  {
    var n := 1 + Span(IsTagNameCharacter, tag[1..]);
    Units(tag[..n]) + AttributePieces(tag[n..])
  }

  // Raw text and comments

  const SCRIPT: Text := [0x73, 0x63, 0x72, 0x69, 0x70, 0x74]
  const STYLE: Text := [0x73, 0x74, 0x79, 0x6C, 0x65]
  const TEXTAREA: Text := [0x74, 0x65, 0x78, 0x74, 0x61, 0x72, 0x65, 0x61]
  const TITLE: Text := [0x74, 0x69, 0x74, 0x6C, 0x65]

  predicate IsRawTextElement(name: Text) {
    name == SCRIPT || name == STYLE || name == TEXTAREA || name == TITLE
  }

  predicate MatchesFolded(t: Text, expected: Text) {
    |expected| <= |t| && forall i :: 0 <= i < |expected| ==> FoldAscii(t[i]) == expected[i]
  }

  function ClosingPrefix(name: Text): Text {
    [LT, SLASH] + name
  }

  /** `t` starts with the closing tag of `name`. */
  predicate Closes(t: Text, name: Text) {
    var p := ClosingPrefix(name);
    && MatchesFolded(t, p)
    && var w := |p| + Span(IsHtmlWhitespace, t[|p|..]);
       w < |t| && t[w] == GT
  }

  /** Position of the first closing tag of a raw-text element. */
  function RawClosing(t: Text, name: Text): (r: Option<nat>)
    ensures r.Some? ==> r.value < |t| && t[r.value] == LT
  {
    if t == [] then None
    else if t[0] == LT && Closes(t, name) then Some(0)
    else
      var rest := RawClosing(t[1..], name);
      if rest.None? then None else Some(rest.value + 1)
  }

  const COMMENT_OPEN: Text := [LT, BANG, MINUS, MINUS]
  const COMMENT_CLOSE: Text := [MINUS, MINUS, GT]

  /** `indexOf` from the start. */
  function IndexOf(t: Text, pattern: Text): (r: Option<nat>)
    ensures r.Some? ==> r.value + |pattern| <= |t| && t[r.value..r.value + |pattern|] == pattern
  {
    if pattern <= t then Some(0)
    else if t == [] then None
    else
      var rest := IndexOf(t[1..], pattern);
      if rest.None? then None else Some(rest.value + 1)
  }

  /** The pattern occurs at the position found and nowhere before it; where nothing is found it does not occur. */
  lemma {:induction false} IndexOfIsFirst(t: Text, pattern: Text)
    requires pattern != []
    ensures IndexOf(t, pattern).Some? ==>
      var n := IndexOf(t, pattern).value; pattern <= t[n..] && forall i :: 0 <= i < n ==> !(pattern <= t[i..])
    ensures IndexOf(t, pattern).None? ==> forall i :: 0 <= i <= |t| ==> !(pattern <= t[i..])
  {
    assert t[0..] == t;
    if !(pattern <= t) && t != [] {
      IndexOfIsFirst(t[1..], pattern);
      forall i | 1 <= i <= |t| ensures t[i..] == t[1..][i - 1..] { }
    }
  }

  function CommentLength(t: Text): (n: nat)
    requires COMMENT_OPEN <= t
    ensures 4 <= n <= |t|
  {
    var close := IndexOf(t[4..], COMMENT_CLOSE);
    if close.None? then |t| else 4 + close.value + 3
  }

  // Documents

  /** The pieces of a document; `raw` names the raw-text element whose body we are in. */
  function DocumentPieces(t: Text, raw: Option<Text>): seq<Piece>
    decreases |t|, if raw.Some? then 1 else 0
  {
    if t == [] then []
    else if raw.Some? then
      var close := RawClosing(t, raw.value);
      if close.None? then Units(t)
      else Units(t[..close.value]) + DocumentPieces(t[close.value..], None)
    else if COMMENT_OPEN <= t then
      Units(t[..CommentLength(t)]) + DocumentPieces(t[CommentLength(t)..], None)
    else if t[0] != LT || ReadStartTag(t).None? then [Unit(t[0])] + DocumentPieces(t[1..], None)
    else
      var tag := ReadStartTag(t).value;
      TagPieces(t[..tag.end])
      + DocumentPieces(t[tag.end..], if IsRawTextElement(tag.name) then Some(tag.name) else None)
  }

  /** What the normalizer makes of a document. */
  function NormalForm(t: Text): Text {
    Flat(Marked(DocumentPieces(t, None)))
  }

  // Concatenation

  lemma {:induction false} FlatConcat(a: seq<Piece>, b: seq<Piece>)
    ensures Flat(a + b) == Flat(a) + Flat(b)
  {
    if a == [] {
      assert a + b == b;
    } else {
      assert (a + b)[1..] == a[1..] + b;
      FlatConcat(a[1..], b);
    }
  }

  lemma {:induction false} FlatUnits(t: Text)
    ensures Flat(Units(t)) == t
  {
    if t != [] {
      assert Units(t)[1..] == Units(t[1..]);
      FlatUnits(t[1..]);
      assert t == [t[0]] + t[1..];
    }
  }

  lemma MarkedConcat(a: seq<Piece>, b: seq<Piece>)
    ensures Marked(a + b) == Marked(a) + Marked(b)
  {
  }

  lemma MarkedUnits(t: Text)
    ensures Marked(Units(t)) == Units(t)
  {
  }
}
