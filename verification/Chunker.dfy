// Cutting a document into overlapping chunks of whole paragraphs (groundwork_ingestion/chunker.py).
module Chunker {
  import opened Sequences
  import opened Text
  import opened Windowing

  datatype Document = Document(tenantID: string, region: string, documentID: string, body: string, aclScope: string)

  datatype Chunk = Chunk(tenantID: string, region: string, documentID: string, chunkID: string, chunkHash: string,
                         text: string, offset: nat, aclScope: string, embedding: seq<real>)

  // How tokens are counted and how paragraphs become one text.
  datatype Lexer = Lexer(count: string -> nat, join: seq<string> -> string)

  // The hexadecimal SHA-256 of a text, and the shortened form chunk ids carry.
  datatype Hashing = Hashing(full: string -> string, short: string -> string)

  ghost predicate CollisionFree(h: Hashing) {
    forall x, y :: h.short(x) == h.short(y) ==> x == y
  }

  function Preimage(documentID: string, offset: nat, text: string): string {
    documentID + ":" + Natural(offset) + ":" + text
  }

  function ChunkOf(d: Document, text: string, offset: nat, h: Hashing): Chunk {
    var input := Preimage(d.documentID, offset, text);
    Chunk(d.tenantID, d.region, d.documentID, "chk_" + h.short(input), h.full(input), text, offset, d.aclScope, [])
  }

  // ---- the overlap kept after a chunk ----

  function Sizes(l: Lexer, ps: seq<string>): (ss: seq<nat>)
    ensures |ss| == |ps| && forall i | 0 <= i < |ps| :: ss[i] == l.count(ps[i])
  {
    seq(|ps|, i requires 0 <= i < |ps| => l.count(ps[i]))
  }

  // Joining neither splits nor merges tokens.
  ghost predicate Additive(l: Lexer) {
    forall ps {:trigger l.join(ps)} :: l.count(l.join(ps)) == Sum(Sizes(l, ps), 0, |ps|)
  }

  function Overlap(l: Lexer, ps: seq<string>, wanted: int): seq<string> {
    if ps == [] then [] else ps[TailStart(Sizes(l, ps), wanted, Window(0, |ps|))..]
  }

  // The last paragraphs from `k` on hold `total` tokens; every shorter tail holds too few.
  ghost predicate Selected(l: Lexer, ps: seq<string>, wanted: int, k: nat, selected: seq<string>, total: nat) {
    && k <= |ps| && selected == ps[k..] && total == Sum(Sizes(l, ps), k, |ps|)
    && forall j | k < j < |ps| :: Sum(Sizes(l, ps), j, |ps|) < wanted
  }

  lemma SelectNext(l: Lexer, ps: seq<string>, wanted: int, k: nat, selected: seq<string>, total: nat)
    requires Selected(l, ps, wanted, k + 1, selected, total) && (k + 1 == |ps| || total < wanted)
    ensures Selected(l, ps, wanted, k, [ps[k]] + selected, total + l.count(ps[k]))
  {
    SumFromFront(Sizes(l, ps), k, |ps|);
    TailGrows(ps, k);
  }

  lemma SelectedIsOverlap(l: Lexer, ps: seq<string>, wanted: int, k: nat, selected: seq<string>, total: nat)
    requires k < |ps| && Selected(l, ps, wanted, k, selected, total) && (k == 0 || total >= wanted)
    ensures selected == Overlap(l, ps, wanted)
  {
    TailStartIff(Sizes(l, ps), wanted, Window(0, |ps|), k);
  }

  method TailOverlap(l: Lexer, ps: seq<string>, wanted: int) returns (selected: seq<string>)
    ensures selected == Overlap(l, ps, wanted)
  {
    selected := [];
    var total: nat := 0;
    var i := |ps|;
    while i > 0
      invariant 0 <= i <= |ps| && Selected(l, ps, wanted, i, selected, total) && (i == |ps| || total < wanted)
    {
      i := i - 1;
      SelectNext(l, ps, wanted, i, selected, total);
      selected := [ps[i]] + selected;
      total := total + l.count(ps[i]);
      if total >= wanted {
        break;
      }
    }
    if ps != [] {
      SelectedIsOverlap(l, ps, wanted, i, selected, total);
    }
  }

  // ---- texts of windows ----

  lemma SizesOfSlice(l: Lexer, ps: seq<string>, a: nat, b: nat)
    requires a <= b <= |ps|
    ensures Sizes(l, ps[a..b]) == Sizes(l, ps)[a..b]
  {
    forall i | 0 <= i < b - a ensures Sizes(l, ps[a..b])[i] == Sizes(l, ps)[a..b][i] {
      SliceAt(ps, a, b, i);
      SliceAt(Sizes(l, ps), a, b, i);
    }
  }

  lemma OverlapOfWindow(l: Lexer, ps: seq<string>, wanted: int, w: Window)
    requires Within(w, |ps|)
    ensures Overlap(l, ps[w.start..w.end], wanted) == ps[TailStart(Sizes(l, ps), wanted, w)..w.end]
  {
    SizesOfSlice(l, ps, w.start, w.end);
    TailOfSlice(Sizes(l, ps), wanted, w);
    assert |ps[w.start..w.end]| == w.end - w.start;
    SliceOfSlice(ps, w.start, w.end, TailStart(Sizes(l, ps), wanted, w) - w.start);
  }

  function TextOf(l: Lexer, ps: seq<string>, w: Window): string
    requires w.start <= w.end <= |ps|
  {
    l.join(ps[w.start..w.end])
  }

  predicate AllWithin(ws: seq<Window>, n: nat) {
    forall i | 0 <= i < |ws| :: ws[i].start < ws[i].end <= n
  }

  function Texts(l: Lexer, ps: seq<string>, ws: seq<Window>): (texts: seq<string>)
    requires AllWithin(ws, |ps|)
    ensures |texts| == |ws| && forall i | 0 <= i < |ws| :: texts[i] == TextOf(l, ps, ws[i])
  {
    seq(|ws|, i requires 0 <= i < |ws| => TextOf(l, ps, ws[i]))
  }

  lemma TextsGrow(l: Lexer, ps: seq<string>, ws: seq<Window>, w: Window)
    requires AllWithin(ws, |ps|) && Within(w, |ps|)
    ensures AllWithin(ws + [w], |ps|) && Texts(l, ps, ws + [w]) == Texts(l, ps, ws) + [TextOf(l, ps, w)]
  {
  }

  // The count the loop keeps by addition is the count of the joined text.
  lemma JoinedCount(l: Lexer, ps: seq<string>, w: Window)
    requires Additive(l) && Within(w, |ps|)
    ensures l.count(TextOf(l, ps, w)) == Size(Sizes(l, ps), w)
  {
    var part := ps[w.start..w.end];
    assert l.count(l.join(part)) == Sum(Sizes(l, part), 0, |part|);
    SizesOfSlice(l, ps, w.start, w.end);
    SumOfSlice(Sizes(l, ps), w, 0, w.end - w.start);
  }

  function Length(texts: seq<string>): nat {
    if texts == [] then 0 else Length(texts[..|texts| - 1]) + |texts[|texts| - 1]|
  }

  // Each text becomes a chunk at the total length of the texts before it.
  function Placed(d: Document, texts: seq<string>, h: Hashing): (cs: seq<Chunk>)
    ensures |cs| == |texts|
  {
    if texts == [] then []
    else
      var rest := texts[..|texts| - 1];
      Placed(d, rest, h) + [ChunkOf(d, texts[|texts| - 1], Length(rest), h)]
  }

  lemma PlaceNext(d: Document, texts: seq<string>, text: string, h: Hashing)
    ensures Placed(d, texts + [text], h) == Placed(d, texts, h) + [ChunkOf(d, text, Length(texts), h)]
    ensures Length(texts + [text]) == Length(texts) + |text|
  {
    assert (texts + [text])[..|texts|] == texts;
  }

  // ---- the loop ----

  lemma WindowsAreWithin(ss: seq<nat>, cfg: Settings)
    ensures AllWithin(Windows(ss, cfg), |ss|)
  {
    WindowsCover(ss, cfg);
  }

  // The paragraphs in hand are the window being filled, and their count is kept right.
  ghost predicate InHand(l: Lexer, ps: seq<string>, c: Cut, current: seq<string>, tokens: nat) {
    c.start <= c.end <= |ps| && current == ps[c.start..c.end] && tokens == Size(Sizes(l, ps), Filling(c))
  }

  // The chunks so far are the texts of the windows so far, each placed after the texts before it.
  ghost predicate GivenOut(l: Lexer, d: Document, ps: seq<string>, ws: seq<Window>, h: Hashing, chunks: seq<Chunk>,
      offset: nat) {
    AllWithin(ws, |ps|) && chunks == Placed(d, Texts(l, ps, ws), h) && offset == Length(Texts(l, ps, ws))
  }

  lemma GiveOut(l: Lexer, d: Document, ps: seq<string>, ws: seq<Window>, w: Window, h: Hashing, chunks: seq<Chunk>,
      offset: nat)
    requires GivenOut(l, d, ps, ws, h, chunks, offset) && Within(w, |ps|)
    ensures var text := TextOf(l, ps, w);
      GivenOut(l, d, ps, ws + [w], h, chunks + [ChunkOf(d, text, offset, h)], offset + |text|)
  {
    TextsGrow(l, ps, ws, w);
    PlaceNext(d, Texts(l, ps, ws), TextOf(l, ps, w), h);
  }

  lemma GrowInHand(l: Lexer, ps: seq<string>, c: Cut, current: seq<string>, tokens: nat)
    requires InHand(l, ps, c, current, tokens) && c.end < |ps|
    ensures InHand(l, ps, c.(end := c.end + 1), current + [ps[c.end]], tokens + l.count(ps[c.end]))
  {
    SliceGrows(ps, c.start, c.end);
  }

  method KeepOverlap(l: Lexer, ghost ps: seq<string>, cfg: Settings, ghost c: Cut, current: seq<string>,
      ghost tokens: nat)
    returns (current': seq<string>, tokens': nat)
    requires Additive(l) && InHand(l, ps, c, current, tokens) && c.start < c.end
    ensures InHand(l, ps, Flushed(Sizes(l, ps), cfg, c), current', tokens')
  {
    current' := TailOverlap(l, current, cfg.overlapTokens);
    OverlapOfWindow(l, ps, cfg.overlapTokens, Filling(c));
    JoinedCount(l, ps, Filling(Flushed(Sizes(l, ps), cfg, c)));
    tokens' := l.count(l.join(current'));
  }

  method Flush(l: Lexer, d: Document, ghost ps: seq<string>, cfg: Settings, h: Hashing, ghost c: Cut,
               chunks: seq<Chunk>, current: seq<string>, tokens: nat, offset: nat)
    returns (chunks': seq<Chunk>, current': seq<string>, tokens': nat, offset': nat)
    requires Additive(l) && InHand(l, ps, c, current, tokens) && c.start < c.end
    requires GivenOut(l, d, ps, c.windows, h, chunks, offset)
    ensures InHand(l, ps, Flushed(Sizes(l, ps), cfg, c), current', tokens')
    ensures GivenOut(l, d, ps, All(c), h, chunks', offset')
  {
    var text := l.join(current);
    GiveOut(l, d, ps, c.windows, Filling(c), h, chunks, offset);
    chunks', offset' := chunks + [ChunkOf(d, text, offset, h)], offset + |text|;
    current', tokens' := KeepOverlap(l, ps, cfg, c, current, tokens);
  }

  // Flush if the next paragraph, of `n` tokens, does not fit.
  method MakeRoom(l: Lexer, d: Document, ghost ps: seq<string>, cfg: Settings, h: Hashing, ghost c: Cut, n: nat,
                  chunks: seq<Chunk>, current: seq<string>, tokens: nat, offset: nat)
    returns (chunks': seq<Chunk>, current': seq<string>, tokens': nat, offset': nat)
    requires Additive(l) && c.end < |ps| && n == l.count(ps[c.end])
    requires InHand(l, ps, c, current, tokens) && GivenOut(l, d, ps, c.windows, h, chunks, offset)
    ensures InHand(l, ps, Room(Sizes(l, ps), cfg, c), current', tokens')
    ensures GivenOut(l, d, ps, Room(Sizes(l, ps), cfg, c).windows, h, chunks', offset')
  {
    if current != [] && tokens + n > cfg.maxTokens {
      chunks', current', tokens', offset' := Flush(l, d, ps, cfg, h, c, chunks, current, tokens, offset);
    } else {
      chunks', current', tokens', offset' := chunks, current, tokens, offset;
    }
  }

  // Flush if there is enough for a chunk.
  method Settle(l: Lexer, d: Document, ghost ps: seq<string>, cfg: Settings, h: Hashing, ghost c: Cut,
                chunks: seq<Chunk>, current: seq<string>, tokens: nat, offset: nat)
    returns (chunks': seq<Chunk>, current': seq<string>, tokens': nat, offset': nat)
    requires Additive(l) && c.start < c.end
    requires InHand(l, ps, c, current, tokens) && GivenOut(l, d, ps, c.windows, h, chunks, offset)
    ensures InHand(l, ps, Settled(Sizes(l, ps), cfg, c), current', tokens')
    ensures GivenOut(l, d, ps, Settled(Sizes(l, ps), cfg, c).windows, h, chunks', offset')
  {
    if tokens >= cfg.minTokens {
      chunks', current', tokens', offset' := Flush(l, d, ps, cfg, h, c, chunks, current, tokens, offset);
    } else {
      chunks', current', tokens', offset' := chunks, current, tokens, offset;
    }
  }

  // One turn of the loop.
  method Take(l: Lexer, d: Document, ghost ps: seq<string>, cfg: Settings, h: Hashing, ghost c: Cut, paragraph: string,
              chunks: seq<Chunk>, current: seq<string>, tokens: nat, offset: nat)
    returns (chunks': seq<Chunk>, current': seq<string>, tokens': nat, offset': nat)
    requires Additive(l) && c.end < |ps| && paragraph == ps[c.end]
    requires InHand(l, ps, c, current, tokens) && GivenOut(l, d, ps, c.windows, h, chunks, offset)
    ensures InHand(l, ps, Taken(Sizes(l, ps), cfg, c), current', tokens')
    ensures GivenOut(l, d, ps, Taken(Sizes(l, ps), cfg, c).windows, h, chunks', offset')
  {
    assert Taken(Sizes(l, ps), cfg, c) == Settled(Sizes(l, ps), cfg, Room(Sizes(l, ps), cfg, c).(end := c.end + 1));
    var n := l.count(paragraph);
    chunks', current', tokens', offset' := MakeRoom(l, d, ps, cfg, h, c, n, chunks, current, tokens, offset);
    ghost var room := Room(Sizes(l, ps), cfg, c);
    GrowInHand(l, ps, room, current', tokens');
    current', tokens' := current' + [paragraph], tokens' + n;
    chunks', current', tokens', offset' :=
      Settle(l, d, ps, cfg, h, room.(end := c.end + 1), chunks', current', tokens', offset');
  }

  function IDs(cs: seq<Chunk>): set<string> {
    set c | c in cs :: c.chunkID
  }

  function Deduped(cs: seq<Chunk>): seq<Chunk> {
    if cs == [] then []
    else
      var kept, last := Deduped(cs[..|cs| - 1]), cs[|cs| - 1];
      if last.chunkID in IDs(kept) then kept else kept + [last]
  }

  ghost predicate DistinctIDs(cs: seq<Chunk>) {
    forall i, j | 0 <= i < j < |cs| :: cs[i].chunkID != cs[j].chunkID
  }

  lemma LastIDIsNew(cs: seq<Chunk>)
    requires DistinctIDs(cs) && cs != []
    ensures DistinctIDs(cs[..|cs| - 1])
    ensures cs[|cs| - 1].chunkID !in IDs(cs[..|cs| - 1])
  {
    var front, id := cs[..|cs| - 1], cs[|cs| - 1].chunkID;
    forall c | c in front ensures c.chunkID != id {
      var i :| 0 <= i < |front| && front[i] == c;
      assert cs[i] == c;
    }
  }

  lemma {:induction false} DistinctSurviveDedupe(cs: seq<Chunk>)
    requires DistinctIDs(cs)
    ensures Deduped(cs) == cs
  {
    if cs != [] {
      var front := cs[..|cs| - 1];
      LastIDIsNew(cs);
      DistinctSurviveDedupe(front);
      assert Deduped(front) == front;
      AllButLast(cs);
    }
  }

  ghost predicate FirstOfItsID(cs: seq<Chunk>, i: nat) {
    i < |cs| && forall j | 0 <= j < i :: cs[j].chunkID != cs[i].chunkID
  }

  ghost predicate Climbs(at: seq<nat>) {
    forall k, m | 0 <= k < m < |at| :: at[k] < at[m]
  }

  // `kept` are the chunks at the places `at`, in order.
  ghost predicate Picks(cs: seq<Chunk>, kept: seq<Chunk>, at: seq<nat>) {
    |kept| == |at| && Climbs(at) && forall k | 0 <= k < |at| :: at[k] < |cs| && kept[k] == cs[at[k]]
  }

  lemma {:induction false} SameIDs(cs: seq<Chunk>)
    ensures IDs(Deduped(cs)) == IDs(cs)
  {
    if cs != [] {
      var front, last := cs[..|cs| - 1], cs[|cs| - 1];
      assert cs == front + [last];
      SameIDs(front);
      assert IDs(cs) == IDs(front) + {last.chunkID};
      assert IDs(Deduped(front) + [last]) == IDs(Deduped(front)) + {last.chunkID};
    }
  }

  lemma IDIsNewIff(cs: seq<Chunk>)
    requires cs != []
    ensures FirstOfItsID(cs, |cs| - 1) <==> cs[|cs| - 1].chunkID !in IDs(cs[..|cs| - 1])
    ensures forall i: nat | i < |cs| - 1 :: FirstOfItsID(cs, i) <==> FirstOfItsID(cs[..|cs| - 1], i)
  {
    var front, id := cs[..|cs| - 1], cs[|cs| - 1].chunkID;
    if FirstOfItsID(cs, |cs| - 1) {
      forall c | c in front ensures c.chunkID != id {
        var i :| 0 <= i < |front| && front[i] == c;
        assert cs[i] == c;
      }
    }
    if id !in IDs(front) {
      forall j | 0 <= j < |front| ensures cs[j].chunkID != id {
        assert front[j] in front;
      }
    }
    forall i: nat | i < |front| && FirstOfItsID(front, i) ensures FirstOfItsID(cs, i) {
      forall j | 0 <= j < i ensures cs[j].chunkID != cs[i].chunkID {
        assert front[j] == cs[j] && front[i] == cs[i];
      }
    }
  }

  // Of any list, duplicates included, exactly the first chunk of each id is kept, in order.
  lemma {:induction false} DedupeKeepsFirsts(cs: seq<Chunk>) returns (at: seq<nat>)
    ensures Picks(cs, Deduped(cs), at) && forall i :: i in at <==> FirstOfItsID(cs, i)
    ensures DistinctIDs(Deduped(cs)) && IDs(Deduped(cs)) == IDs(cs)
  {
    SameIDs(cs);
    at := [];
    if cs != [] {
      var front, last := cs[..|cs| - 1], cs[|cs| - 1];
      at := DedupeKeepsFirsts(front);
      IDIsNewIff(cs);
      OtherPlaces(cs, at);
      if last.chunkID !in IDs(front) {
        OneMorePick(front, last, Deduped(front), at);
        assert cs == front + [last];
        at := at + [|front|];
      }
    }
  }

  lemma OneMorePick(front: seq<Chunk>, last: Chunk, kept: seq<Chunk>, at: seq<nat>)
    requires Picks(front, kept, at) && DistinctIDs(kept) && last.chunkID !in IDs(kept)
    ensures Picks(front + [last], kept + [last], at + [|front|]) && DistinctIDs(kept + [last])
  {
    forall k | 0 <= k < |kept| ensures kept[k].chunkID != last.chunkID {
      assert kept[k] in kept;
    }
  }

  lemma OtherPlaces(cs: seq<Chunk>, at: seq<nat>)
    requires cs != [] && forall i :: i in at <==> FirstOfItsID(cs[..|cs| - 1], i)
    ensures cs[|cs| - 1].chunkID !in IDs(cs[..|cs| - 1]) ==> forall i :: i in at + [|cs| - 1] <==> FirstOfItsID(cs, i)
    ensures cs[|cs| - 1].chunkID in IDs(cs[..|cs| - 1]) ==> forall i :: i in at <==> FirstOfItsID(cs, i)
  {
    var n := |cs| - 1;
    IDIsNewIff(cs);
    forall i ensures (i in at || (i == n && FirstOfItsID(cs, n))) <==> FirstOfItsID(cs, i) {
      assert i in at <==> FirstOfItsID(cs[..n], i);
    }
  }

  method Dedupe(cs: seq<Chunk>) returns (out: seq<Chunk>)
    ensures out == Deduped(cs)
  {
    var seen: set<string> := {};
    out := [];
    for i := 0 to |cs|
      invariant out == Deduped(cs[..i]) && seen == IDs(out)
    {
      assert cs[..i + 1][..i] == cs[..i];
      if cs[i].chunkID !in seen {
        seen := seen + {cs[i].chunkID};
        out := out + [cs[i]];
      }
    }
    assert cs[..|cs|] == cs;
  }

  method ChunkParagraphs(l: Lexer, d: Document, ps: seq<string>, cfg: Settings, h: Hashing) returns (chunks: seq<Chunk>)
    requires Additive(l)
    ensures var ws := Windows(Sizes(l, ps), cfg);
      AllWithin(ws, |ps|) && chunks == Deduped(Placed(d, Texts(l, ps, ws), h))
  {
    if ps == [] {
      return [];
    }
    chunks := [];
    var current: seq<string>, currentTokens: nat, offset: nat := [], 0, 0;
    ghost var c := Cut(0, 0, []);
    for i := 0 to |ps|
      invariant c == Cuts(Sizes(l, ps), cfg, i) && InHand(l, ps, c, current, currentTokens)
      invariant GivenOut(l, d, ps, c.windows, h, chunks, offset)
    {
      chunks, current, currentTokens, offset :=
        Take(l, d, ps, cfg, h, c, ps[i], chunks, current, currentTokens, offset);
      c := Taken(Sizes(l, ps), cfg, c);
    }
    // the overlap is never empty, so there is always a last chunk
    GiveOut(l, d, ps, c.windows, Filling(c), h, chunks, offset);
    if current != [] {
      chunks := chunks + [ChunkOf(d, l.join(current), offset, h)];
    }
    chunks := Dedupe(chunks);
  }

  // ---- what the chunks of a document are ----

  // Every chunk starts further on than the one before.
  lemma {:induction false} OffsetsRise(d: Document, texts: seq<string>, h: Hashing)
    requires forall i | 0 <= i < |texts| :: texts[i] != []
    ensures var cs := Placed(d, texts, h);
      && (forall i | 0 <= i < |cs| :: cs[i].offset < Length(texts) && cs[i] == ChunkOf(d, texts[i], cs[i].offset, h))
      && forall i, j | 0 <= i < j < |cs| :: cs[i].offset < cs[j].offset
  {
    if texts != [] {
      OffsetsRise(d, texts[..|texts| - 1], h);
    }
  }

  // Within one document the hashed text determines the offset.
  lemma PreimageTellsOffset(documentID: string, i: nat, s: string, j: nat, t: string)
    requires Preimage(documentID, i, s) == Preimage(documentID, j, t)
    ensures i == j
  {
    NaturalNonEmpty(i);
    NaturalNonEmpty(j);
    MiddleTold(documentID, Natural(i), s, Natural(j), t);
    NaturalInjective(i, j);
  }

  lemma MiddleTold(head: string, a: string, s: string, b: string, t: string)
    requires head + ":" + a + ":" + s == head + ":" + b + ":" + t && ':' !in a && ':' !in b
    ensures a == b
  {
    var k := |head| + 1;
    assert (head + ":" + a + ":" + s)[k..] == a + [':'] + s;
    assert (head + ":" + b + ":" + t)[k..] == b + [':'] + t;
    FirstCutUnique(a, s, b, t, ':');
  }

  lemma OffsetsTellIDs(d: Document, a: Chunk, b: Chunk, h: Hashing)
    requires CollisionFree(h)
    requires a == ChunkOf(d, a.text, a.offset, h) && b == ChunkOf(d, b.text, b.offset, h)
    ensures a.chunkID == b.chunkID ==> a.offset == b.offset
  {
    if a.chunkID == b.chunkID {
      assert a.chunkID[4..] == h.short(Preimage(d.documentID, a.offset, a.text));
      assert b.chunkID[4..] == h.short(Preimage(d.documentID, b.offset, b.text));
      PreimageTellsOffset(d.documentID, a.offset, a.text, b.offset, b.text);
    }
  }

  lemma PlacesAreDistinct(d: Document, texts: seq<string>, h: Hashing)
    requires CollisionFree(h) && forall i | 0 <= i < |texts| :: texts[i] != []
    ensures DistinctIDs(Placed(d, texts, h))
  {
    var cs := Placed(d, texts, h);
    OffsetsRise(d, texts, h);
    forall i, j | 0 <= i < j < |cs| ensures cs[i].chunkID != cs[j].chunkID {
      OffsetsTellIDs(d, cs[i], cs[j], h);
    }
  }

  lemma DistinctPlaces(d: Document, texts: seq<string>, h: Hashing)
    requires CollisionFree(h) && forall i | 0 <= i < |texts| :: texts[i] != []
    ensures Deduped(Placed(d, texts, h)) == Placed(d, texts, h)
  {
    PlacesAreDistinct(d, texts, h);
    DistinctSurviveDedupe(Placed(d, texts, h));
  }
}
