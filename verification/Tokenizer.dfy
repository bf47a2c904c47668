// Tokens and paragraphs of a text (groundwork_ingestion/chunker.py).
module Tokenizer {
  import opened Sequences
  import opened Text

  // ---- tokens ----

  predicate White(c: char) {
    IsSpace(c) || '\U{1C}' <= c <= '\U{1F}'
  }

  predicate AllWhite(s: string) {
    forall i | 0 <= i < |s| :: White(s[i])
  }

  // `c` continues the last token or starts one.
  function Put(ts: seq<string>, c: char, continues: bool): seq<string> {
    if continues && ts != [] then ts[..|ts| - 1] + [ts[|ts| - 1] + [c]] else ts + [[c]]
  }

  predicate EndsInToken(s: string) {
    s != [] && !White(s[|s| - 1])
  }

  // The maximal runs of non-white characters, in order.
  function Tokens(s: string): (ts: seq<string>)
    ensures EndsInToken(s) ==> ts != []
    ensures forall t | t in ts :: t != [] && forall i | 0 <= i < |t| :: !White(t[i])
  {
    if s == [] then []
    else
      var c, rest := s[|s| - 1], s[..|s| - 1];
      if White(c) then Tokens(rest) else Put(Tokens(rest), c, EndsInToken(rest))
  }

  function TokenCount(s: string): nat {
    |Tokens(s)|
  }

  lemma TokensStep(s: string, c: char)
    ensures Tokens(s + [c]) == if White(c) then Tokens(s) else Put(Tokens(s), c, EndsInToken(s))
  {
    assert (s + [c])[..|s|] == s;
  }

  lemma PutAfter(x: seq<string>, y: seq<string>, c: char, continues: bool)
    requires continues ==> y != []
    ensures Put(x + y, c, continues) == x + Put(y, c, continues)
  {
    if continues {
      assert (x + y)[..|x + y| - 1] == x + y[..|y| - 1];
    }
  }

  lemma SameEnd(a: string, b: string)
    requires a == [] || b != [] || White(a[|a| - 1])
    ensures EndsInToken(a + b) == EndsInToken(b)
  {
    if b == [] {
      assert a + b == a;
    }
  }

  // Text cut where no token spans the cut.
  lemma {:induction false} TokensOfCut(a: string, b: string)
    requires a == [] || b == [] || White(a[|a| - 1]) || White(b[0])
    ensures Tokens(a + b) == Tokens(a) + Tokens(b)
  {
    if b == [] {
      assert a + b == a;
    } else {
      var rest, c := b[..|b| - 1], b[|b| - 1];
      TokensOfCut(a, rest);
      LastApart(a, b);
      TokensStep(a + rest, c);
      if !White(c) {
        SameEnd(a, rest);
        PutAfter(Tokens(a), Tokens(rest), c, EndsInToken(rest));
      }
    }
  }

  lemma {:induction false} WhiteHasNoTokens(w: string)
    requires AllWhite(w)
    ensures Tokens(w) == []
  {
    if w != [] {
      WhiteHasNoTokens(w[..|w| - 1]);
    }
  }

  lemma TokensAroundWhite(a: string, w: string, b: string)
    requires w != [] && AllWhite(w)
    ensures Tokens(a + w + b) == Tokens(a) + Tokens(b)
  {
    WhiteHasNoTokens(w);
    TokensOfCut(a, w);
    var x := a + w;
    assert x[|x| - 1] == w[|w| - 1];
    TokensOfCut(x, b);
    assert Tokens(a) + [] == Tokens(a);
  }

  function AllTokens(ps: seq<string>): seq<string> {
    FlatMap(Tokens, ps)
  }

  lemma AllTokensSplit(ps: seq<string>)
    requires ps != []
    ensures AllTokens(ps) == AllTokens(ps[..|ps| - 1]) + Tokens(ps[|ps| - 1])
  {
    AllButLast(ps);
    FlatMapStep(Tokens, ps[..|ps| - 1], ps[|ps| - 1]);
  }

  function Joined(ps: seq<string>): string {
    if ps == [] then ""
    else if |ps| == 1 then ps[0]
    else Joined(ps[..|ps| - 1]) + ['\n', '\n'] + ps[|ps| - 1]
  }

  // Joining paragraphs neither splits, merges nor reorders tokens.
  lemma {:induction false} TokensOfJoined(ps: seq<string>)
    ensures Tokens(Joined(ps)) == AllTokens(ps)
  {
    if ps != [] {
      var rest, last := ps[..|ps| - 1], ps[|ps| - 1];
      AllTokensSplit(ps);
      TokensOfJoined(rest);
      if rest != [] {
        TokensAroundWhite(Joined(rest), ['\n', '\n'], last);
      }
    }
  }

  // ---- paragraphs of a body ----

  predicate WhiteFrom(s: string, i: nat, j: nat)
    requires j <= |s|
  {
    forall k | i <= k < j :: White(s[k])
  }

  // One past the last line feed that white space from `i` on leads to, or `i`.
  function LastBreak(s: string, i: nat): (e: nat)
    requires i <= |s|
    ensures i <= e <= |s| && WhiteFrom(s, i, e) && (e > i ==> s[e - 1] == '\n')
    ensures forall j | e <= j < |s| && s[j] == '\n' :: !WhiteFrom(s, i, j)
    decreases |s| - i
  {
    if i == |s| || !White(s[i]) then
      i
    else
      var e := LastBreak(s, i + 1);
      if e > i + 1 || s[i] == '\n' then e else i
  }

  // Where a paragraph break starting at `i` ends: a line feed, white space, and the last line feed
  // that white space reaches. `i` itself if there is none.
  function BreakEnd(s: string, i: nat): (e: nat)
    requires i < |s|
    ensures i <= e <= |s| && WhiteFrom(s, i, e)
  {
    if s[i] != '\n' then i
    else
      var e := LastBreak(s, i + 1);
      if e == i + 1 then i else e
  }

  // The text cut at every paragraph break, from a piece that began at `from` on.
  function Split(s: string, from: nat, i: nat): seq<string>
    requires from <= i <= |s|
    decreases |s| - i
  {
    if i == |s| then [s[from..]]
    else
      var e := BreakEnd(s, i);
      if e > i then [s[from..i]] + Split(s, e, e) else Split(s, from, i + 1)
  }

  lemma {:induction false} SplitKeepsTokens(s: string, from: nat, i: nat)
    requires from <= i <= |s|
    ensures AllTokens(Split(s, from, i)) == Tokens(s[from..])
    decreases |s| - i
  {
    if i == |s| {
      OnePiece(s[from..]);
    } else if BreakEnd(s, i) > i {
      var e := BreakEnd(s, i);
      SplitKeepsTokens(s, e, e);
      OnePiece(s[from..i]);
      FlatMapOfConcat(Tokens, [s[from..i]], Split(s, e, e));
      TokensOfThreeParts(s, from, i, e);
    } else {
      SplitKeepsTokens(s, from, i + 1);
    }
  }

  lemma TokensOfThreeParts(s: string, from: nat, i: nat, e: nat)
    requires from <= i < e <= |s| && WhiteFrom(s, i, e)
    ensures Tokens(s[from..]) == Tokens(s[from..i]) + Tokens(s[e..])
  {
    TokensAroundWhite(s[from..i], s[i..e], s[e..]);
    InThree(s, from, i, e);
  }

  lemma OnePiece(p: string)
    ensures AllTokens([p]) == Tokens(p)
  {
    FlatMapStep(Tokens, [], p);
    assert [] + [p] == [p];
  }

  function StripLeft(s: string): string {
    if s != [] && White(s[0]) then StripLeft(s[1..]) else s
  }

  function StripRight(s: string): (r: string)
    ensures r == [] || EndsInToken(r)
  {
    if s != [] && White(s[|s| - 1]) then StripRight(s[..|s| - 1]) else s
  }

  function Strip(s: string): string {
    StripRight(StripLeft(s))
  }

  lemma LeadingWhite(c: char, rest: string)
    requires White(c)
    ensures Tokens([c] + rest) == Tokens(rest)
  {
    WhiteHasNoTokens([c]);
    TokensOfCut([c], rest);
  }

  lemma {:induction false} StripLeftKeepsTokens(s: string)
    ensures Tokens(StripLeft(s)) == Tokens(s)
  {
    if s != [] && White(s[0]) {
      StripLeftKeepsTokens(s[1..]);
      LeadingWhite(s[0], s[1..]);
      assert s == [s[0]] + s[1..];
    }
  }

  lemma {:induction false} StripRightKeepsTokens(s: string)
    ensures Tokens(StripRight(s)) == Tokens(s)
  {
    if s != [] && White(s[|s| - 1]) {
      StripRightKeepsTokens(s[..|s| - 1]);
    }
  }

  function NonBlank(pieces: seq<string>): (ps: seq<string>)
    ensures forall p | p in ps :: EndsInToken(p)
  {
    if pieces == [] then []
    else
      var ps, p := NonBlank(pieces[..|pieces| - 1]), Strip(pieces[|pieces| - 1]);
      if p == [] then ps else ps + [p]
  }

  lemma {:induction false} NonBlankKeepsTokens(pieces: seq<string>)
    ensures AllTokens(NonBlank(pieces)) == AllTokens(pieces)
  {
    if pieces != [] {
      var rest, last := pieces[..|pieces| - 1], pieces[|pieces| - 1];
      AllTokensSplit(pieces);
      NonBlankKeepsTokens(rest);
      StripLeftKeepsTokens(last);
      StripRightKeepsTokens(StripLeft(last));
      FlatMapStep(Tokens, NonBlank(rest), Strip(last));
    }
  }

  function Paragraphs(body: string): (ps: seq<string>)
    ensures forall p | p in ps :: EndsInToken(p)
  {
    NonBlank(Split(body, 0, 0))
  }

  // Paragraphs hold every token of the body, in order, and no others.
  lemma ParagraphsKeepTokens(body: string)
    ensures AllTokens(Paragraphs(body)) == Tokens(body)
  {
    SplitKeepsTokens(body, 0, 0);
    NonBlankKeepsTokens(Split(body, 0, 0));
    assert body[0..] == body;
  }
}
