/**
 JavaScript strings as the program sees them: sequences of UTF-16 code units, lone
 surrogates included, compared code unit by code unit.
 */
module Utf16 {
  import opened Sorting

  type CodeUnit = x: int | 0 <= x < 0x1_0000

  type Text = seq<CodeUnit>

  const TAB: CodeUnit := 0x09
  const LF: CodeUnit := 0x0A
  const FF: CodeUnit := 0x0C
  const CR: CodeUnit := 0x0D
  const SPACE: CodeUnit := 0x20
  const BANG: CodeUnit := 0x21
  const QUOTE: CodeUnit := 0x22
  const HASH: CodeUnit := 0x23
  const AMP: CodeUnit := 0x26
  const APOSTROPHE: CodeUnit := 0x27
  const PLUS: CodeUnit := 0x2B
  const COMMA: CodeUnit := 0x2C
  const MINUS: CodeUnit := 0x2D
  const DOT: CodeUnit := 0x2E
  const SLASH: CodeUnit := 0x2F
  const COLON: CodeUnit := 0x3A
  const SEMICOLON: CodeUnit := 0x3B
  const LT: CodeUnit := 0x3C
  const EQUALS: CodeUnit := 0x3D
  const GT: CodeUnit := 0x3E
  const OPEN_BRACKET: CodeUnit := 0x5B
  const BACKSLASH: CodeUnit := 0x5C
  const CLOSE_BRACKET: CodeUnit := 0x5D
  const UNDERSCORE: CodeUnit := 0x5F
  const OPEN_BRACE: CodeUnit := 0x7B
  const CLOSE_BRACE: CodeUnit := 0x7D

  /** The code units of a text written in ASCII. */
  function Chars(s: string): (t: Text)
    requires forall i :: 0 <= i < |s| ==> s[i] as int < 0x80
    ensures |t| == |s| && forall i :: 0 <= i < |s| ==> t[i] == s[i] as int
  {
    seq(|s|, i requires 0 <= i < |s| => s[i] as int)
  }

  predicate IsDigit(c: CodeUnit) {
    0x30 <= c <= 0x39
  }

  predicate IsAsciiLetter(c: CodeUnit) {
    0x41 <= c <= 0x5A || 0x61 <= c <= 0x7A
  }

  /** ASCII case folding of one code unit. */
  function FoldAscii(c: CodeUnit): CodeUnit {
    if 0x41 <= c <= 0x5A then c + 0x20 else c
  }

  function FoldText(t: Text): (r: Text)
    ensures |r| == |t|
    ensures forall i :: 0 <= i < |t| ==> r[i] == FoldAscii(t[i])
  {
    seq(|t|, i requires 0 <= i < |t| => FoldAscii(t[i]))
  }

  /** Length of the longest prefix whose code units satisfy `p`. */
  function Span(p: CodeUnit -> bool, t: Text): (n: nat)
    ensures n <= |t| && (forall i :: 0 <= i < n ==> p(t[i])) && (n < |t| ==> !p(t[n]))
  {
    if t == [] || !p(t[0]) then 0 else 1 + Span(p, t[1..])
  }

  lemma {:induction false} SpanExact(p: CodeUnit -> bool, a: Text, b: Text)
    requires (forall i :: 0 <= i < |a| ==> p(a[i])) && (b == [] || !p(b[0]))
    ensures Span(p, a + b) == |a|
  {
    if a == [] {
      assert a + b == b;
    } else {
      assert (a + b)[0] == a[0] && (a + b)[1..] == a[1..] + b;
      SpanExact(p, a[1..], b);
    }
  }

  /** The operator `<` on two strings: the first differing code unit decides. */
  predicate Before(a: Text, b: Text) {
    |b| > 0 && (|a| == 0 || a[0] < b[0] || (a[0] == b[0] && Before(a[1..], b[1..])))
  }

  lemma {:induction false} BeforeIrreflexive(a: Text)
    ensures !Before(a, a)
  {
    if a != [] {
      BeforeIrreflexive(a[1..]);
    }
  }

  lemma {:induction false} BeforeTransitive(a: Text, b: Text, c: Text)
    requires Before(a, b) && Before(b, c)
    ensures Before(a, c)
  {
    if a != [] && a[0] == b[0] == c[0] {
      BeforeTransitive(a[1..], b[1..], c[1..]);
    }
  }

  /** Any two strings are ordered one way or the other, or are the same string. */
  lemma {:induction false} BeforeTotal(a: Text, b: Text)
    ensures Before(a, b) || Before(b, a) || a == b
  {
    if a != [] && b != [] && a[0] == b[0] {
      BeforeTotal(a[1..], b[1..]);
      assert a == [a[0]] + a[1..] && b == [b[0]] + b[1..];
    }
  }

  lemma BeforeAsymmetric(a: Text, b: Text)
    requires Before(a, b)
    ensures !Before(b, a) && a != b
  {
    BeforeIrreflexive(a);
    if Before(b, a) {
      BeforeTransitive(a, b, a);
    }
  }

  lemma BeforeIsStrict()
    ensures StrictOrder(Before)
  {
    forall a: Text ensures !Before(a, a) {
      BeforeIrreflexive(a);
    }
    forall a: Text, b: Text, c: Text | Before(a, b) && Before(b, c) ensures Before(a, c) {
      BeforeTransitive(a, b, c);
    }
  }

  lemma InsertText(k: Text, rest: seq<Text>)
    requires Ascending(Before, rest) && k !in rest
    ensures Ascending(Before, Insert(Before, k, rest))
    ensures forall e :: e in Insert(Before, k, rest) <==> e == k || e in rest
  {
    BeforeIsStrict();
    forall e | e in rest ensures Before(k, e) || Before(e, k) {
      BeforeTotal(k, e);
    }
    InsertAscending(Before, k, rest);
    forall e ensures e in Insert(Before, k, rest) <==> e == k || e in rest {
      assert e in Insert(Before, k, rest) <==> e in multiset(Insert(Before, k, rest));
    }
  }

  /** The string that comes before all others of a set. */
  predicate Least(s: set<Text>, k: Text) {
    k in s && forall e :: e in s ==> e == k || Before(k, e)
  }

  lemma {:induction false} HasLeast(s: set<Text>) returns (k: Text)
    requires s != {}
    ensures Least(s, k)
    decreases |s|
  {
    k :| k in s;
    if s - {k} != {} {
      var l := HasLeast(s - {k});
      BeforeTotal(k, l);
      if Before(l, k) {
        k := l;
      } else {
        forall e | e in s ensures e == k || Before(k, e) {
          if e != k && e != l {
            BeforeTransitive(k, l, e);
          }
        }
      }
    }
  }

  lemma OneLeast(s: set<Text>, k: Text, l: Text)
    requires Least(s, k) && Least(s, l)
    ensures k == l
  {
    if k != l {
      BeforeAsymmetric(k, l);
    }
  }

  lemma LeastFirst(k: Text, rest: seq<Text>)
    requires Ascending(Before, rest) && forall e :: e in rest ==> Before(k, e)
    ensures Ascending(Before, [k] + rest)
  {
  }

  /** The strings of a set, in ascending code-unit order. */
  function SortedTexts(s: set<Text>): (r: seq<Text>)
    ensures forall k :: k in r <==> k in s
    ensures Ascending(Before, r)
  {
    if s == {} then [] else
    assert exists k :: Least(s, k) by { var k := HasLeast(s); }
    assert forall k, l :: Least(s, k) && Least(s, l) ==> k == l by {
      forall k, l | Least(s, k) && Least(s, l) ensures k == l { OneLeast(s, k, l); }
    }
    var k :| k in s && Least(s, k);
    var rest := SortedTexts(s - {k});
    LeastFirst(k, rest);
    [k] + rest
  }

  /** There is only one ascending listing of a set of strings. */
  lemma SortedTextsUnique(s: seq<Text>)
    requires Ascending(Before, s)
    ensures s == SortedTexts(set k | k in s)
  {
    BeforeIsStrict();
    AscendingUnique(Before, s, SortedTexts(set k | k in s));
  }
}
