// Where the paragraphs of a body are (groundwork_ingestion/chunker.py): a body is cut at its blank
// lines and nowhere else.
module Paragraphing {
  import opened Tokenizer

  datatype Span = Span(a: nat, b: nat)

  // A line feed, white space, a line feed.
  predicate BlankLine(s: string, i: nat, j: nat) {
    i < j < |s| && s[i] == s[j] == '\n' && WhiteFrom(s, i + 1, j)
  }

  ghost predicate OneParagraph(s: string, a: nat, b: nat)
    requires b <= |s|
  {
    forall i: nat, j: nat | a <= i < j < b :: !BlankLine(s, i, j)
  }

  // No blank line starts in [a, b).
  ghost predicate NoneStarts(s: string, a: nat, b: nat) {
    forall i: nat, j: nat | a <= i < b :: !BlankLine(s, i, j)
  }

  // ---- the pieces ----

  ghost predicate PieceAt(s: string, piece: string, span: Span) {
    span.a <= span.b <= |s| && piece == s[span.a..span.b] && OneParagraph(s, span.a, span.b)
  }

  // Between two pieces there is nothing but a blank line's white space.
  predicate CutAt(s: string, b: nat, a: nat) {
    b < a <= |s| && WhiteFrom(s, b, a) && BlankLine(s, b, a - 1)
  }

  ghost predicate Pieces(s: string, pieces: seq<string>, spans: seq<Span>) {
    && |pieces| == |spans|
    && (forall k | 0 <= k < |spans| :: PieceAt(s, pieces[k], spans[k]))
    && (forall k | 0 < k < |spans| :: CutAt(s, spans[k - 1].b, spans[k].a))
  }

  lemma BreakTells(s: string, i: nat)
    requires i < |s|
    ensures BreakEnd(s, i) > i ==> CutAt(s, i, BreakEnd(s, i))
    ensures BreakEnd(s, i) == i ==> forall j: nat :: !BlankLine(s, i, j)
  {
    if s[i] == '\n' {
      var e := LastBreak(s, i + 1);
      if e > i + 1 {
        assert BlankLine(s, i, e - 1);
      }
    }
  }

  lemma {:induction false} SplitSpans(s: string, from: nat, i: nat) returns (spans: seq<Span>)
    requires from <= i <= |s| && NoneStarts(s, from, i)
    ensures Pieces(s, Split(s, from, i), spans)
    ensures spans != [] && spans[0].a == from && spans[|spans| - 1].b == |s|
    decreases |s| - i
  {
    if i == |s| {
      spans := [Span(from, |s|)];
    } else {
      BreakTells(s, i);
      var e := BreakEnd(s, i);
      if e > i {
        var rest := SplitSpans(s, e, e);
        PiecesCons(s, from, i, Split(s, e, e), rest);
        spans := [Span(from, i)] + rest;
      } else {
        spans := SplitSpans(s, from, i + 1);
      }
    }
  }

  lemma PiecesCons(s: string, from: nat, i: nat, pieces: seq<string>, rest: seq<Span>)
    requires from <= i <= |s| && Pieces(s, pieces, rest) && rest != [] && OneParagraph(s, from, i)
    requires CutAt(s, i, rest[0].a)
    ensures Pieces(s, [s[from..i]] + pieces, [Span(from, i)] + rest)
  {
    var all, texts := [Span(from, i)] + rest, [s[from..i]] + pieces;
    assert PieceAt(s, texts[0], all[0]);
    forall k | 0 <= k < |all| ensures PieceAt(s, texts[k], all[k]) {
      assert k > 0 ==> all[k] == rest[k - 1] && texts[k] == pieces[k - 1];
    }
    forall k | 0 < k < |all| ensures CutAt(s, all[k - 1].b, all[k].a) {
      assert all[k] == rest[k - 1];
      assert k > 1 ==> all[k - 1] == rest[k - 2];
    }
  }

  // ---- stripping ----

  lemma {:induction false} StripLeftSpan(s: string, a: nat, b: nat) returns (x: nat)
    requires a <= b <= |s|
    ensures a <= x <= b && StripLeft(s[a..b]) == s[x..b] && WhiteFrom(s, a, x) && (x < b ==> !White(s[x]))
    decreases b - a
  {
    if a < b && White(s[a]) {
      assert s[a..b][1..] == s[a + 1..b];
      x := StripLeftSpan(s, a + 1, b);
    } else {
      x := a;
    }
  }

  lemma {:induction false} StripRightSpan(s: string, a: nat, b: nat) returns (y: nat)
    requires a <= b <= |s|
    ensures a <= y <= b && StripRight(s[a..b]) == s[a..y] && WhiteFrom(s, y, b) && (a < y ==> !White(s[y - 1]))
    decreases b - a
  {
    if a < b && White(s[b - 1]) {
      assert s[a..b][..b - a - 1] == s[a..b - 1];
      y := StripRightSpan(s, a, b - 1);
    } else {
      y := b;
    }
  }

  lemma StripSpan(s: string, a: nat, b: nat) returns (x: nat, y: nat)
    requires a <= b <= |s|
    ensures Stripped(s, a, b, x, y) && Strip(s[a..b]) == s[x..y]
  {
    x := StripLeftSpan(s, a, b);
    y := StripRightSpan(s, x, b);
  }

  // ---- the paragraphs ----

  // The paragraph lies at the span, starts and ends in text and holds no blank line.
  ghost predicate ParagraphAt(s: string, p: string, span: Span) {
    && span.a < span.b <= |s| && p == s[span.a..span.b]
    && !White(s[span.a]) && !White(s[span.b - 1]) && OneParagraph(s, span.a, span.b)
  }

  // White space with a blank line in it.
  ghost predicate Apart(s: string, b: nat, a: nat) {
    b < a <= |s| && WhiteFrom(s, b, a) && exists i: nat, j: nat | b <= i < j < a :: BlankLine(s, i, j)
  }

  // In s[lo..hi]: the paragraphs in order, white space with a blank line between any two, and nothing
  // but white space outside them.
  ghost predicate LaidOut(s: string, ps: seq<string>, spans: seq<Span>, lo: nat, hi: nat)
    requires hi <= |s|
  {
    && |ps| == |spans|
    && (forall k | 0 <= k < |spans| :: ParagraphAt(s, ps[k], spans[k]))
    && (forall k | 0 < k < |spans| :: Apart(s, spans[k - 1].b, spans[k].a))
    && (spans == [] ==> WhiteFrom(s, lo, hi))
    && (spans != [] ==> lo <= spans[0].a && WhiteFrom(s, lo, spans[0].a))
    && (spans != [] ==> spans[|spans| - 1].b <= hi && WhiteFrom(s, spans[|spans| - 1].b, hi))
  }

  lemma {:induction false} ParagraphSpans(s: string, pieces: seq<string>, spans: seq<Span>, n: nat)
      returns (out: seq<Span>)
    requires Pieces(s, pieces, spans) && 0 < n <= |pieces|
    ensures spans[0].a <= spans[n - 1].b <= |s|
    ensures LaidOut(s, NonBlank(pieces[..n]), out, spans[0].a, spans[n - 1].b)
  {
    NonBlankNext(pieces, n);
    assert PieceAt(s, pieces[n - 1], spans[n - 1]);
    if n == 1 {
      out := FirstParagraphs(s, pieces[0], spans[0]);
    } else {
      var before := ParagraphSpans(s, pieces, spans, n - 1);
      assert CutAt(s, spans[n - 2].b, spans[n - 1].a);
      out := MoreParagraphs(s, NonBlank(pieces[..n - 1]), before, spans[0].a, spans[n - 2].b, pieces[n - 1],
        spans[n - 1]);
    }
  }

  function AddStripped(ps: seq<string>, piece: string): seq<string> {
    if Strip(piece) == [] then ps else ps + [Strip(piece)]
  }

  lemma FirstParagraphs(s: string, piece: string, span: Span) returns (out: seq<Span>)
    requires PieceAt(s, piece, span)
    ensures LaidOut(s, AddStripped([], piece), out, span.a, span.b)
  {
    var x, y := StripSpan(s, span.a, span.b);
    FirstLaidOut(s, span.a, span.b, x, y);
    out := if x < y then [Span(x, y)] else [];
  }

  lemma MoreParagraphs(s: string, ps: seq<string>, before: seq<Span>, lo: nat, hi: nat, piece: string, span: Span)
      returns (out: seq<Span>)
    requires lo <= hi <= |s| && LaidOut(s, ps, before, lo, hi) && CutAt(s, hi, span.a) && PieceAt(s, piece, span)
    ensures LaidOut(s, AddStripped(ps, piece), out, lo, span.b)
  {
    var x, y := StripSpan(s, span.a, span.b);
    LaidOutNext(s, ps, before, lo, hi, span.a, span.b, x, y);
    out := if x < y then before + [Span(x, y)] else before;
  }

  lemma NonBlankNext(pieces: seq<string>, n: nat)
    requires 0 < n <= |pieces|
    ensures NonBlank(pieces[..n]) == AddStripped(NonBlank(pieces[..n - 1]), pieces[n - 1])
    ensures NonBlank(pieces[..0]) == []
  {
    assert pieces[..n][..n - 1] == pieces[..n - 1] && pieces[..n][n - 1] == pieces[n - 1];
  }

  // Stripped of its white space the piece [a, b) becomes the text [x, y).
  ghost predicate Stripped(s: string, a: nat, b: nat, x: nat, y: nat) {
    && a <= x <= y <= b <= |s| && WhiteFrom(s, a, x) && WhiteFrom(s, y, b)
    && (x < y ==> !White(s[x]) && !White(s[y - 1]))
  }

  lemma FirstLaidOut(s: string, a: nat, b: nat, x: nat, y: nat)
    requires Stripped(s, a, b, x, y) && OneParagraph(s, a, b)
    ensures x == y ==> LaidOut(s, [], [], a, b)
    ensures x < y ==> LaidOut(s, [s[x..y]], [Span(x, y)], a, b)
  {
  }

  lemma LaidOutNext(s: string, ps: seq<string>, before: seq<Span>, lo: nat, hi: nat, a: nat, b: nat, x: nat, y: nat)
    requires hi <= |s| && LaidOut(s, ps, before, lo, hi) && CutAt(s, hi, a) && lo <= hi
    requires Stripped(s, a, b, x, y) && OneParagraph(s, a, b)
    ensures x == y ==> LaidOut(s, ps, before, lo, b)
    ensures x < y ==> LaidOut(s, ps + [s[x..y]], before + [Span(x, y)], lo, b)
  {
    if x < y {
      var spans, texts := before + [Span(x, y)], ps + [s[x..y]];
      assert ParagraphAt(s, s[x..y], Span(x, y));
      forall k | 0 <= k < |spans| ensures ParagraphAt(s, texts[k], spans[k]) {
        assert k < |before| ==> spans[k] == before[k] && texts[k] == ps[k];
      }
      if before != [] {
        WiderApart(s, hi, a, before[|before| - 1].b, x);
      }
      forall k | 0 < k < |spans| ensures Apart(s, spans[k - 1].b, spans[k].a) {
        assert k < |before| ==> spans[k] == before[k];
        assert spans[k - 1] == before[k - 1];
      }
    }
  }

  lemma WiderApart(s: string, b: nat, a: nat, b': nat, a': nat)
    requires CutAt(s, b, a) && b' <= b && a <= a' <= |s| && WhiteFrom(s, b', b) && WhiteFrom(s, a, a')
    ensures Apart(s, b', a')
  {
    assert BlankLine(s, b, a - 1);
  }

  // Every body is cut at its blank lines and nowhere else.
  lemma CutAtBlankLines(body: string) returns (spans: seq<Span>)
    ensures LaidOut(body, Paragraphs(body), spans, 0, |body|)
  {
    var pieces := SplitSpans(body, 0, 0);
    var n := |pieces|;
    assert Split(body, 0, 0)[..n] == Split(body, 0, 0);
    spans := ParagraphSpans(body, Split(body, 0, 0), pieces, n);
  }
}
