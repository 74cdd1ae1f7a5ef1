/**
 What the data-build normalizer keeps and what it forgets: it is idempotent, and two
 documents have the same normal form exactly when they differ only in slot values.
 */
module HtmlNormalForm {
  import opened Wrappers
  import opened Utf16
  import opened HtmlScanner
  import opened HtmlTags

  // Every character is accounted for

  lemma {:induction false} UnitsThen(t: Text, n: nat, ps: seq<Piece>)
    requires n <= |t| && Flat(ps) == t[n..]
    ensures Flat(Units(t[..n]) + ps) == t
  {
    FlatConcat(Units(t[..n]), ps);
    FlatUnits(t[..n]);
    assert t == t[..n] + t[n..];
  }

  lemma {:induction false} TagThen(t: Text, n: nat, ps: seq<Piece>)
    requires 0 < n <= |t| && Flat(ps) == t[n..]
    ensures Flat(TagPieces(t[..n]) + ps) == t
  {
    TagWhole(t[..n]);
    FlatConcat(TagPieces(t[..n]), ps);
    assert t == t[..n] + t[n..];
  }

  lemma {:induction false} UnitThen(t: Text, ps: seq<Piece>)
    requires t != [] && Flat(ps) == t[1..]
    ensures Flat([Unit(t[0])] + ps) == t
  {
    assert ([Unit(t[0])] + ps)[1..] == ps && t == [t[0]] + t[1..];
  }

  /** Laid end to end, the pieces of a document are the document. */
  lemma {:induction false} DocumentWhole(t: Text, raw: Option<Text>)
    ensures Flat(DocumentPieces(t, raw)) == t
    decreases |t|, if raw.Some? then 1 else 0
  {
    if t == [] {
    } else if raw.Some? {
      var close := RawClosing(t, raw.value);
      if close.None? {
        FlatUnits(t);
      } else {
        DocumentWhole(t[close.value..], None);
        UnitsThen(t, close.value, DocumentPieces(t[close.value..], None));
      }
    } else if COMMENT_OPEN <= t {
      DocumentWhole(t[CommentLength(t)..], None);
      UnitsThen(t, CommentLength(t), DocumentPieces(t[CommentLength(t)..], None));
    } else if t[0] != LT || ReadStartTag(t).None? {
      DocumentWhole(t[1..], None);
      UnitThen(t, DocumentPieces(t[1..], None));
    } else {
      var tag := ReadStartTag(t).value;
      var after := if IsRawTextElement(tag.name) then Some(tag.name) else None;
      DocumentWhole(t[tag.end..], after);
      TagThen(t, tag.end, DocumentPieces(t[tag.end..], after));
    }
  }

  /** The first character of a document is always copied. */
  lemma {:induction false} DocumentHead(t: Text, raw: Option<Text>)
    requires t != []
    ensures DocumentPieces(t, raw) != [] && DocumentPieces(t, raw)[0] == Unit(t[0])
    decreases if raw.Some? then 1 else 0
  {
    if raw.Some? && RawClosing(t, raw.value) == Some(0) {
      assert t[0..] == t && Units(t[..0]) == [];
      DocumentHead(t, None);
    }
  }

  /** A character that opens nothing is copied by itself. */
  lemma {:induction false} PlainStep(t: Text)
    requires t != [] && (t[0] != LT || (!(COMMENT_OPEN <= t) && ReadStartTag(t).None?))
    ensures DocumentPieces(t, None) == [Unit(t[0])] + DocumentPieces(t[1..], None)
  {
  }

  lemma {:induction false} UnitsStep(t: Text, n: nat, ps: seq<Piece>)
    requires 0 < n <= |t|
    ensures [Unit(t[0])] + (Units(t[1..][..n - 1]) + ps) == Units(t[..n]) + ps
    ensures t[1..][n - 1..] == t[n..]
  {
    assert Units(t[..n]) == [Unit(t[0])] + Units(t[1..][..n - 1]);
  }

  /** Outside raw text, characters other than `<` are copied one by one. */
  lemma {:induction false} PlainPrefix(t: Text, n: nat)
    requires n <= |t| && forall i :: 0 <= i < n ==> t[i] != LT
    ensures DocumentPieces(t, None) == Units(t[..n]) + DocumentPieces(t[n..], None)
    decreases n
  {
    if n == 0 {
      assert t[0..] == t && Units(t[..0]) == [];
    } else {
      forall i | 0 <= i < n - 1 ensures t[1..][i] != LT { assert t[1..][i] == t[i + 1]; }
      PlainPrefix(t[1..], n - 1);
      PlainStep(t);
      UnitsStep(t, n, DocumentPieces(t[n..], None));
    }
  }

  // A `<` that opens nothing still opens nothing

  lemma {:induction false} PrefixBack(t: Text, qs: seq<Piece>, p: Text)
    requires Similar(DocumentPieces(t, None), qs) && p <= Flat(qs) && LT !in p
    ensures p <= t
    decreases |p|
  {
    if p != [] {
      if t != [] {
        DocumentHead(t, None);
        assert qs[0] == Unit(t[0]);
        assert p[0] == t[0] && p[0] in p;
        SimilarSplit([Unit(t[0])], DocumentPieces(t[1..], None), qs);
        assert Flat(qs) == [t[0]] + Flat(qs[1..]);
        forall c | c in p[1..] ensures c != LT { assert c in p; }
        PrefixBack(t[1..], qs[1..], p[1..]);
      }
    }
  }

  lemma {:induction false} NoCommentOpens(t: Text, qs: seq<Piece>)
    requires t != [] && t[0] == LT && !(COMMENT_OPEN <= t)
    requires Similar(DocumentPieces(t[1..], None), qs)
    ensures !(COMMENT_OPEN <= [LT] + Flat(qs))
  {
    var rest: Text := [BANG, MINUS, MINUS];
    var u := [LT] + Flat(qs);
    if COMMENT_OPEN <= u {
      assert u[1] == BANG && u[2] == MINUS && u[3] == MINUS;
      assert Flat(qs)[0] == u[1] && Flat(qs)[1] == u[2] && Flat(qs)[2] == u[3];
      PrefixBack(t[1..], qs, rest);
    }
  }

  lemma {:induction false} SimilarHead(t: Text, qs: seq<Piece>)
    requires Similar(DocumentPieces(t, None), qs)
    ensures t == [] <==> Flat(qs) == []
    ensures t != [] ==> Flat(qs)[0] == t[0]
  {
    if t != [] {
      DocumentHead(t, None);
      assert qs[0] == Unit(t[0]);
    }
  }

  /** The copied name after a `<`, and what follows it. */
  lemma {:induction false} NameCopied(t: Text, n: nat, qs: seq<Piece>)
    requires n == Span(IsTagNameCharacter, t) && Similar(DocumentPieces(t, None), qs)
    ensures n <= |qs| && Similar(DocumentPieces(t[n..], None), qs[n..]) && Flat(qs) == t[..n] + Flat(qs[n..])
  {
    PlainPrefix(t, n);
    SimilarSplit(Units(t[..n]), DocumentPieces(t[n..], None), qs);
    SimilarUnits(t[..n], qs[..n]);
  }

  lemma {:induction false} NameEnds(t: Text, n: nat, qr: seq<Piece>)
    requires n == Span(IsTagNameCharacter, t) && Similar(DocumentPieces(t[n..], None), qr)
    ensures Flat(qr) == [] || !IsTagNameCharacter(Flat(qr)[0])
  {
    SimilarHead(t[n..], qr);
  }

  lemma {:induction false} NoLetterNoTag(t: Text)
    requires t != [] && (|t| < 2 || !IsAsciiLetter(t[1]))
    ensures ReadStartTag(t).None?
  {
  }

  /** What follows a `<` that starts no tag: the name, and pieces whose quotes never let a tag end. */
  lemma {:induction false} NoTagOpens(t: Text, qs: seq<Piece>)
    requires t != [] && t[0] == LT && ReadStartTag(t).None?
    requires Similar(DocumentPieces(t[1..], None), qs)
    ensures ReadStartTag([LT] + Flat(qs)).None?
  {
    SimilarHead(t[1..], qs);
    if |t| > 1 && IsAsciiLetter(t[1]) {
      LetterNoTag(t, qs);
    } else {
      NoLetterNoTag([LT] + Flat(qs));
    }
  }

  lemma {:induction false} LetterNoTag(t: Text, qs: seq<Piece>)
    requires |t| > 1 && t[0] == LT && IsAsciiLetter(t[1]) && ReadStartTag(t).None?
    requires Similar(DocumentPieces(t[1..], None), qs)
    ensures ReadStartTag([LT] + Flat(qs)).None?
  {
    var n := Span(IsTagNameCharacter, t[1..]);
    NameCopied(t[1..], n, qs);
    NameEnds(t[1..], n, qs[n..]);
    NoTagEnd(t, n, qs[n..]);
    NamedWithoutEnd(t[1..][..n], Flat(qs[n..]));
    LtRegroup(t[1..][..n], Flat(qs[n..]));
  }

  lemma {:induction false} LtRegroup(a: Text, b: Text)
    ensures [LT] + (a + b) == [LT] + a + b
  {
  }

  lemma {:induction false} NamedWithoutEnd(name: Text, rest: Text)
    requires name != [] && IsAsciiLetter(name[0]) && forall i :: 0 <= i < |name| ==> IsTagNameCharacter(name[i])
    requires (rest == [] || !IsTagNameCharacter(rest[0])) && TagEnd(rest, Outside).None?
    ensures ReadStartTag([LT] + name + rest).None?
  {
    ReadStartTagIntro([LT] + name, rest);
  }

  lemma {:induction false} NoTagEnd(t: Text, n: nat, qr: seq<Piece>)
    requires |t| > 1 && IsAsciiLetter(t[1]) && n == Span(IsTagNameCharacter, t[1..]) && ReadStartTag(t).None?
    requires Similar(DocumentPieces(t[1..][n..], None), qr)
    ensures TagEnd(Flat(qr), Outside).None?
  {
    var rest := t[1..][n..];
    assert rest == t[1 + n..];
    TagEndRun(rest, Outside);
    DocumentWhole(rest, None);
    SimilarRun(Outside, DocumentPieces(rest, None), qr);
    TagEndRun(Flat(qr), Outside);
  }

  // A raw-text body ends where it did

  lemma {:induction false} ClosingTagText(t: Text, name: Text) returns (m: nat)
    requires Closes(t, name) && IsRawTextElement(name)
    ensures 1 < m <= |t| && t[0] == LT && t[1] == SLASH
    ensures forall i :: 1 <= i < m ==> t[i] != LT
    ensures forall rest :: Closes(t[..m] + rest, name)
  {
    var p := ClosingPrefix(name);
    var w := Span(IsHtmlWhitespace, t[|p|..]);
    m := |p| + w + 1;
    assert FoldAscii(t[0]) == p[0] && FoldAscii(t[1]) == p[1];
    forall i | 1 <= i < m ensures t[i] != LT {
      if i < |p| {
        assert FoldAscii(t[i]) == p[i];
      } else if i < m - 1 {
        assert t[i] == t[|p|..][i - |p|];
      }
    }
    forall rest: Text ensures Closes(t[..m] + rest, name) {
      var u := t[..m] + rest;
      assert u[|p|..] == t[|p|..][..w] + ([GT] + rest);
      SpanExact(IsHtmlWhitespace, t[|p|..][..w], [GT] + rest);
    }
  }

  lemma {:induction false} ClosingPrefixPlain(name: Text, i: nat)
    requires IsRawTextElement(name) && 1 <= i < |ClosingPrefix(name)|
    ensures ClosingPrefix(name)[i] != LT
  {
  }

  lemma {:induction false} SpacesBeforeTag(a: Text, b: Text, c: Text)
    requires b != [] && c != [] && b[0] == LT && c[0] == LT
    requires var w := Span(IsHtmlWhitespace, a + c); w < |a + c| && (a + c)[w] == GT
    ensures var w := Span(IsHtmlWhitespace, a + b); w < |a + b| && (a + b)[w] == GT
  {
    var w := Span(IsHtmlWhitespace, a + c);
    assert (a + c)[|a|] == LT;
    assert w < |a|;
    assert a + b == a[..w] + (a[w..] + b);
    assert forall i :: 0 <= i < w ==> (a + c)[i] == a[i];
    SpanExact(IsHtmlWhitespace, a[..w], a[w..] + b);
  }

  /** Whether a closing tag starts before a `<` does not depend on what that `<` begins. */
  lemma {:induction false} ClosesBefore(a: Text, b: Text, c: Text, name: Text)
    requires IsRawTextElement(name) && a != [] && b != [] && c != [] && b[0] == LT && c[0] == LT
    requires Closes(a + c, name)
    ensures Closes(a + b, name)
  {
    var p := ClosingPrefix(name);
    assert (a + c)[|a|] == LT;
    if |a| < |p| {
      ClosingPrefixPlain(name, |a|);
    } else {
      var tail := a[|p|..];
      assert (a + c)[|p|..] == tail + c && (a + b)[|p|..] == tail + b;
      SpacesBeforeTag(tail, b, c);
      assert forall i :: 0 <= i < |p| ==> (a + b)[i] == (a + c)[i];
    }
  }

  lemma {:induction false} NotClosingEarlier(t: Text, name: Text, k: nat, c: Text)
    requires IsRawTextElement(name) && RawClosing(t, name) == Some(k) && k > 0
    requires c != [] && c[0] == LT
    ensures var u := t[..k] + c; !(u[0] == LT && Closes(u, name))
  {
    var u := t[..k] + c;
    assert t == t[..k] + t[k..] && u[0] == t[0];
    if u[0] == LT && Closes(u, name) {
      ClosesBefore(t[..k], t[k..], c, name);
    }
  }

  lemma {:induction false} RawClosingStable(t: Text, name: Text, k: nat, c: Text)
    requires IsRawTextElement(name) && RawClosing(t, name) == Some(k)
    requires c != [] && c[0] == LT && Closes(c, name)
    ensures RawClosing(t[..k] + c, name) == Some(k)
    decreases k
  {
    if k == 0 {
      assert t[..0] + c == c;
    } else {
      RawClosingStable(t[1..], name, k - 1, c);
      NotClosingEarlier(t, name, k, c);
      CutTail(t, k, c);
      RawClosingStep(t[..k] + c, name, k - 1);
    }
  }

  lemma {:induction false} CutTail(t: Text, k: nat, c: Text)
    requires 0 < k <= |t|
    ensures (t[..k] + c)[1..] == t[1..][..k - 1] + c
  {
  }

  lemma {:induction false} RawClosingStep(u: Text, name: Text, k: nat)
    requires u != [] && !(u[0] == LT && Closes(u, name)) && RawClosing(u[1..], name) == Some(k)
    ensures RawClosing(u, name) == Some(k + 1)
  {
  }

  lemma {:induction false} RawClosingAt(t: Text, name: Text, k: nat)
    requires RawClosing(t, name) == Some(k)
    ensures k < |t| && t[k] == LT && Closes(t[k..], name)
    decreases k
  {
    if k > 0 {
      RawClosingAt(t[1..], name, k - 1);
      assert t[1..][k - 1..] == t[k..];
    } else {
      assert t[0..] == t;
    }
  }

  lemma {:induction false} ClosingTagCopied(t: Text, m: nat)
    requires 1 < m <= |t| && t[0] == LT && t[1] == SLASH && forall i :: 1 <= i < m ==> t[i] != LT
    ensures DocumentPieces(t, None) == Units(t[..m]) + DocumentPieces(t[m..], None)
  {
    forall i | 0 <= i < m - 1 ensures t[1..][i] != LT { assert t[1..][i] == t[i + 1]; }
    PlainPrefix(t[1..], m - 1);
    assert COMMENT_OPEN[1] == BANG;
    PlainStep(t);
    UnitsStep(t, m, DocumentPieces(t[m..], None));
  }

  /** A closing tag is copied, so it is still there after swapping slots further on. */
  lemma {:induction false} ClosingTagStable(t: Text, name: Text, qs: seq<Piece>)
    requires IsRawTextElement(name) && t != [] && t[0] == LT && Closes(t, name)
    requires Similar(DocumentPieces(t, None), qs)
    ensures Flat(qs) != [] && Flat(qs)[0] == LT && Closes(Flat(qs), name)
  {
    var m := ClosingTagText(t, name);
    ClosingTagCopied(t, m);
    SimilarSplit(Units(t[..m]), DocumentPieces(t[m..], None), qs);
    SimilarUnits(t[..m], qs[..m]);
  }

  // Documents

  lemma {:induction false} RawStable(t: Text, name: Text, k: nat, qs: seq<Piece>)
    requires IsRawTextElement(name) && RawClosing(t, name) == Some(k)
    requires Similar(DocumentPieces(t[k..], None), qs) && DocumentPieces(Flat(qs), None) == qs
    ensures t[..k] + Flat(qs) != [] && DocumentPieces(t[..k] + Flat(qs), Some(name)) == Units(t[..k]) + qs
  {
    RawClosingAt(t, name, k);
    ClosingTagStable(t[k..], name, qs);
    RawClosingStable(t, name, k, Flat(qs));
    var u := t[..k] + Flat(qs);
    assert u[..k] == t[..k] && u[k..] == Flat(qs);
  }

  lemma {:induction false} PrefixCut(t: Text, n: nat, pattern: Text)
    requires |pattern| <= n <= |t|
    ensures pattern <= t <==> pattern <= t[..n]
  {
    assert t[..n][..|pattern|] == t[..|pattern|];
  }

  lemma {:induction false} IndexOfPrefix(t: Text, pattern: Text, rest: Text)
    requires IndexOf(t, pattern).Some?
    ensures var n := IndexOf(t, pattern).value + |pattern|; IndexOf(t[..n] + rest, pattern) == IndexOf(t, pattern)
  {
    var n := IndexOf(t, pattern).value + |pattern|;
    var u := t[..n] + rest;
    SamePrefix(t, n, rest, pattern);
    if !(pattern <= t) {
      IndexOfPrefix(t[1..], pattern, rest);
      CutTail(t, n, rest);
    }
  }

  lemma {:induction false} SamePrefix(t: Text, n: nat, rest: Text, pattern: Text)
    requires |pattern| <= n <= |t|
    ensures pattern <= t[..n] + rest <==> pattern <= t
  {
    var u := t[..n] + rest;
    assert u[..n] == t[..n];
    PrefixCut(t, n, pattern);
    PrefixCut(u, n, pattern);
  }

  lemma {:induction false} CommentStep(u: Text, n: nat)
    requires COMMENT_OPEN <= u && CommentLength(u) == n
    ensures DocumentPieces(u, None) == Units(u[..n]) + DocumentPieces(u[n..], None)
  {
  }

  lemma {:induction false} SameComment(t: Text, rest: Text)
    requires COMMENT_OPEN <= t && IndexOf(t[4..], COMMENT_CLOSE).Some?
    ensures var u := t[..CommentLength(t)] + rest; COMMENT_OPEN <= u && CommentLength(u) == CommentLength(t)
  {
    var n := CommentLength(t);
    IndexOfPrefix(t[4..], COMMENT_CLOSE, rest);
    SplitAtFour(t, n, rest);
  }

  lemma {:induction false} SplitAtFour(t: Text, n: nat, rest: Text)
    requires 4 <= n <= |t|
    ensures (t[..n] + rest)[..4] == t[..4]
    ensures (t[..n] + rest)[4..] == t[4..][..n - 4] + rest
  {
  }

  lemma {:induction false} CommentStable(t: Text, qs: seq<Piece>)
    requires COMMENT_OPEN <= t
    requires Similar(DocumentPieces(t[CommentLength(t)..], None), qs) && DocumentPieces(Flat(qs), None) == qs
    ensures var u := t[..CommentLength(t)] + Flat(qs);
      u != [] && DocumentPieces(u, None) == Units(t[..CommentLength(t)]) + qs
  {
    var n := CommentLength(t);
    var u := t[..n] + Flat(qs);
    if IndexOf(t[4..], COMMENT_CLOSE).None? {
      SimilarHead(t[n..], qs);
      assert u == t;
    } else {
      SameComment(t, Flat(qs));
    }
    CommentStep(u, n);
    assert u[..n] == t[..n] && u[n..] == Flat(qs);
  }

  lemma {:induction false} PlainStable(t: Text, qs: seq<Piece>)
    requires t != [] && !(COMMENT_OPEN <= t) && (t[0] != LT || ReadStartTag(t).None?)
    requires Similar(DocumentPieces(t[1..], None), qs) && DocumentPieces(Flat(qs), None) == qs
    ensures DocumentPieces([t[0]] + Flat(qs), None) == [Unit(t[0])] + qs
  {
    var u := [t[0]] + Flat(qs);
    assert u[1..] == Flat(qs);
    if t[0] == LT {
      NoCommentOpens(t, qs);
      NoTagOpens(t, qs);
    } else {
      assert u[0] == t[0];
    }
  }

  lemma {:induction false} TaggedStable(t: Text, tag: StartTag, qt: seq<Piece>, after: Option<Text>, qs: seq<Piece>)
    requires t != [] && t[0] == LT && !(COMMENT_OPEN <= t) && ReadStartTag(t) == Some(tag)
    requires after == if IsRawTextElement(tag.name) then Some(tag.name) else None
    requires Similar(TagPieces(t[..tag.end]), qt) && DocumentPieces(Flat(qs), after) == qs
    ensures Flat(qt) + Flat(qs) != [] && DocumentPieces(Flat(qt) + Flat(qs), None) == qt + qs
  {
    StartTagStable(t, tag, qt, Flat(qs));
    var u := Flat(qt) + Flat(qs);
    assert IsAsciiLetter(t[1]) && u[1] == t[1];
    assert u[..|Flat(qt)|] == Flat(qt) && u[|Flat(qt)|..] == Flat(qs);
    TagStep(u, StartTag(|Flat(qt)|, tag.name), after);
  }

  lemma {:induction false} TagStep(u: Text, tag: StartTag, after: Option<Text>)
    requires |u| > 1 && u[0] == LT && IsAsciiLetter(u[1]) && ReadStartTag(u) == Some(tag)
    requires after == if IsRawTextElement(tag.name) then Some(tag.name) else None
    ensures DocumentPieces(u, None) == TagPieces(u[..tag.end]) + DocumentPieces(u[tag.end..], after)
  {
    assert COMMENT_OPEN[1] == BANG;
  }

  /** Swapping slot values in a document swaps them in its pieces and does nothing else. */
  lemma {:induction false} DocumentStable(t: Text, raw: Option<Text>, qs: seq<Piece>)
    requires raw.Some? ==> IsRawTextElement(raw.value)
    requires Similar(DocumentPieces(t, raw), qs)
    ensures DocumentPieces(Flat(qs), raw) == qs
    decreases |t|, if raw.Some? then 1 else 0
  {
    if t == [] {
    } else if raw.Some? {
      var close := RawClosing(t, raw.value);
      if close.None? {
        SimilarUnits(t, qs);
      } else {
        var k := close.value;
        SimilarSplit(Units(t[..k]), DocumentPieces(t[k..], None), qs);
        SimilarUnits(t[..k], qs[..k]);
        DocumentStable(t[k..], None, qs[k..]);
        RawStable(t, raw.value, k, qs[k..]);
      }
    } else if COMMENT_OPEN <= t {
      var n := CommentLength(t);
      SimilarSplit(Units(t[..n]), DocumentPieces(t[n..], None), qs);
      SimilarUnits(t[..n], qs[..n]);
      DocumentStable(t[n..], None, qs[n..]);
      CommentStable(t, qs[n..]);
    } else if t[0] != LT || ReadStartTag(t).None? {
      SimilarSplit([Unit(t[0])], DocumentPieces(t[1..], None), qs);
      DocumentStable(t[1..], None, qs[1..]);
      PlainStable(t, qs[1..]);
      assert qs == [Unit(t[0])] + qs[1..];
    } else {
      var tag := ReadStartTag(t).value;
      var after := if IsRawTextElement(tag.name) then Some(tag.name) else None;
      var n := |TagPieces(t[..tag.end])|;
      SimilarSplit(TagPieces(t[..tag.end]), DocumentPieces(t[tag.end..], after), qs);
      DocumentStable(t[tag.end..], after, qs[n..]);
      TaggedStable(t, tag, qs[..n], after, qs[n..]);
    }
  }

  // The theorems

  lemma {:induction false} SlotsAreSlotValues(t: Text, raw: Option<Text>)
    ensures Similar(DocumentPieces(t, raw), DocumentPieces(t, raw))
    decreases |t|, if raw.Some? then 1 else 0
  {
    if t == [] {
    } else if raw.Some? {
      var close := RawClosing(t, raw.value);
      if close.Some? {
        SlotsAreSlotValues(t[close.value..], None);
      }
    } else if COMMENT_OPEN <= t {
      SlotsAreSlotValues(t[CommentLength(t)..], None);
    } else if t[0] != LT || ReadStartTag(t).None? {
      SlotsAreSlotValues(t[1..], None);
    } else {
      var tag := ReadStartTag(t).value;
      SlotsAreSlotValues(t[tag.end..], if IsRawTextElement(tag.name) then Some(tag.name) else None);
      TagSlots(t[..tag.end]);
    }
  }

  lemma {:induction false} TagSlots(tag: Text)
    requires tag != []
    ensures Similar(TagPieces(tag), TagPieces(tag))
  {
    AttributeSlots(tag[1 + Span(IsTagNameCharacter, tag[1..])..]);
  }

  lemma {:induction false} BothSlots(ps: seq<Piece>, qs: seq<Piece>)
    requires Similar(ps, ps) && Similar(qs, qs)
    ensures Similar(ps + qs, ps + qs)
  {
  }

  lemma {:induction false} ChunkSlots(k: Chunk)
    ensures Similar(ChunkPieces(k), ChunkPieces(k))
  {
  }

  lemma {:induction false} AttributeSlots(t: Text)
    ensures Similar(AttributePieces(t), AttributePieces(t))
    decreases |t|
  {
    if t != [] {
      AttributeSlots(NextChunk(t).rest);
      ChunkSlots(NextChunk(t));
      BothSlots(ChunkPieces(NextChunk(t)), AttributePieces(NextChunk(t).rest));
    }
  }

  /** What the normalizer leaves: the document's own characters, with every slot holding the marker. */
  lemma {:induction false} NormalFormPieces(t: Text)
    ensures Flat(DocumentPieces(t, None)) == t
    ensures Similar(DocumentPieces(t, None), Marked(DocumentPieces(t, None)))
    ensures DocumentPieces(NormalForm(t), None) == Marked(DocumentPieces(t, None))
  {
    DocumentWhole(t, None);
    SlotsAreSlotValues(t, None);
    var ps := DocumentPieces(t, None);
    forall i | 0 <= i < |ps| && ps[i].Slot? ensures IsSlotValue(ps[i].value) {
      assert Similar(ps, ps);
    }
    DocumentStable(t, None, Marked(ps));
  }

  /** Normalizing twice changes nothing more. */
  lemma {:induction false} NormalFormIdempotent(t: Text)
    ensures NormalForm(NormalForm(t)) == NormalForm(t)
  {
    NormalFormPieces(t);
    assert Marked(Marked(DocumentPieces(t, None))) == Marked(DocumentPieces(t, None));
  }

  lemma {:induction false} SameMarks(ps: seq<Piece>, qs: seq<Piece>)
    requires Similar(ps, ps) && Similar(qs, qs) && Marked(ps) == Marked(qs)
    ensures Similar(ps, qs)
  {
    forall i | 0 <= i < |ps| ensures
      match ps[i]
      case Unit(c) => qs[i] == Unit(c)
      case Slot(v) => IsSlotValue(v) && qs[i].Slot? && IsSlotValue(qs[i].value) {
      assert Marked(ps)[i] == Marked(qs)[i];
      assert ps[i].Slot? ==> IsSlotValue(ps[i].value);
      assert qs[i].Slot? ==> IsSlotValue(qs[i].value);
    }
  }

  /** Two documents have the same normal form exactly when they differ only in slot values. */
  lemma {:induction false} SameNormalFormIff(a: Text, b: Text)
    ensures NormalForm(a) == NormalForm(b) <==> Similar(DocumentPieces(a, None), DocumentPieces(b, None))
  {
    var ps, qs := DocumentPieces(a, None), DocumentPieces(b, None);
    NormalFormPieces(a);
    NormalFormPieces(b);
    SlotsAreSlotValues(a, None);
    SlotsAreSlotValues(b, None);
    if NormalForm(a) == NormalForm(b) {
      SameMarks(ps, qs);
    }
    if Similar(ps, qs) {
      assert Marked(ps) == Marked(qs);
    }
  }

  /** Putting other timestamps into a document's slots does not change its normal form. */
  lemma {:induction false} TimestampsForgotten(t: Text, qs: seq<Piece>)
    requires Similar(DocumentPieces(t, None), qs)
    ensures NormalForm(Flat(qs)) == NormalForm(t)
  {
    DocumentStable(t, None, qs);
    SameNormalFormIff(t, Flat(qs));
  }
}
