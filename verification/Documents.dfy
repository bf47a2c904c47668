// The chunks of a document, with the tokens and paragraphs of its text
// (groundwork_ingestion/chunker.py).
module Documents {
  import opened Chunker
  import opened Sequences
  import opened Tokenizer
  import opened Windowing

  const PLAIN: Lexer := Lexer(TokenCount, Joined)

  lemma WindowTokens(ps: seq<string>, w: Window)
    requires Within(w, |ps|)
    ensures Tokens(TextOf(PLAIN, ps, w)) == Flat(Each(Tokens, ps), w.start, w.end)
  {
    TokensOfJoined(ps[w.start..w.end]);
    FlatMapOfSlice(Tokens, ps, w.start, w.end);
  }

  lemma SizesWeigh(ps: seq<string>)
    ensures Weighed(Sizes(PLAIN, ps), Each(Tokens, ps))
  {
  }

  // The count of a joined text is the sum of the counts of its paragraphs.
  lemma PlainIsAdditive()
    ensures Additive(PLAIN)
  {
    forall ps ensures PLAIN.count(PLAIN.join(ps)) == Sum(Sizes(PLAIN, ps), 0, |ps|) {
      TokensOfJoined(ps);
      SizesWeigh(ps);
      FlatLength(Sizes(PLAIN, ps), Each(Tokens, ps), 0, |ps|);
    }
  }

  function WindowsOf(d: Document, cfg: Settings): (ws: seq<Window>)
    ensures AllWithin(ws, |Paragraphs(d.body)|)
  {
    WindowsAreWithin(Sizes(PLAIN, Paragraphs(d.body)), cfg);
    Windows(Sizes(PLAIN, Paragraphs(d.body)), cfg)
  }

  function TextsOf(d: Document, cfg: Settings): (texts: seq<string>)
    ensures |texts| == |WindowsOf(d, cfg)|
  {
    Texts(PLAIN, Paragraphs(d.body), WindowsOf(d, cfg))
  }

  // One chunk for each window, before duplicates are removed.
  function DocumentChunks(d: Document, cfg: Settings, h: Hashing): seq<Chunk> {
    Placed(d, TextsOf(d, cfg), h)
  }

  method ChunkDocument(d: Document, cfg: Settings, h: Hashing) returns (chunks: seq<Chunk>)
    ensures chunks == Deduped(DocumentChunks(d, cfg, h))
  {
    PlainIsAdditive();
    chunks := ChunkParagraphs(PLAIN, d, Paragraphs(d.body), cfg, h);
  }

  lemma WindowTextIsNonEmpty(ps: seq<string>, w: Window)
    requires Within(w, |ps|) && forall p | p in ps :: EndsInToken(p)
    ensures TextOf(PLAIN, ps, w) != []
  {
    SliceAt(ps, w.start, w.end, w.end - w.start - 1);
    assert ps[w.end - 1] in ps;
  }

  lemma TextsAreNonEmpty(d: Document, cfg: Settings)
    ensures forall i | 0 <= i < |TextsOf(d, cfg)| :: TextsOf(d, cfg)[i] != []
  {
    var ps, ws := Paragraphs(d.body), WindowsOf(d, cfg);
    forall i | 0 <= i < |ws| ensures TextOf(PLAIN, ps, ws[i]) != [] {
      WindowTextIsNonEmpty(ps, ws[i]);
    }
  }

  // Removing duplicates removes nothing, not even the repeated last chunk: a document has as many
  // chunks as windows.
  lemma DedupeRemovesNothing(d: Document, cfg: Settings, h: Hashing)
    requires CollisionFree(h)
    ensures Deduped(DocumentChunks(d, cfg, h)) == DocumentChunks(d, cfg, h)
    ensures |DocumentChunks(d, cfg, h)| == |WindowsOf(d, cfg)|
  {
    TextsAreNonEmpty(d, cfg);
    DistinctPlaces(d, TextsOf(d, cfg), h);
  }

  lemma BlankIff(ps: seq<string>)
    requires forall p | p in ps :: EndsInToken(p)
    ensures ps == [] <==> AllTokens(ps) == []
  {
    if ps != [] {
      assert ps[|ps| - 1] in ps;
    }
  }

  lemma PartsAreWindows(d: Document, cfg: Settings)
    ensures var ps, ws, texts := Paragraphs(d.body), WindowsOf(d, cfg), TextsOf(d, cfg);
      forall i | 0 <= i < |ws| :: Each(Tokens, texts)[i] == Flat(Each(Tokens, ps), ws[i].start, ws[i].end)
  {
    var ps, ws := Paragraphs(d.body), WindowsOf(d, cfg);
    forall i | 0 <= i < |ws| ensures Tokens(TextsOf(d, cfg)[i]) == Flat(Each(Tokens, ps), ws[i].start, ws[i].end) {
      WindowTokens(ps, ws[i]);
    }
  }

  lemma WindowsReread(ps: seq<string>, cfg: Settings, ws: seq<Window>, parts: seq<seq<string>>)
    requires Chained(Sizes(PLAIN, ps), cfg, ws) && |parts| == |ws|
    requires forall i | 0 <= i < |ws| ::
      Within(ws[i], |ps|) && parts[i] == Flat(Each(Tokens, ps), ws[i].start, ws[i].end)
    requires ws[|ws| - 1].end == |ps|
    ensures forall i | 0 < i < |ws| :: ws[i].start <= ws[i - 1].end
    ensures Reread(Sizes(PLAIN, ps), ws, parts) == AllTokens(ps)
  {
    ChainOverlaps(Sizes(PLAIN, ps), cfg, ws);
    SizesWeigh(ps);
    RereadIsFlat(Sizes(PLAIN, ps), cfg, ws, Each(Tokens, ps), parts);
  }

  // The document's tokens can be read back from its chunks: none is lost, added or moved. Only a
  // blank document has no chunk.
  lemma ChunksReassemble(d: Document, cfg: Settings)
    ensures var ws := WindowsOf(d, cfg); var ss := Sizes(PLAIN, Paragraphs(d.body));
      && (ws == [] <==> Tokens(d.body) == [])
      && (forall i | 0 < i < |ws| :: ws[i].start <= ws[i - 1].end)
      && (ws != [] ==> Chained(ss, cfg, ws) && Reread(ss, ws, Each(Tokens, TextsOf(d, cfg))) == Tokens(d.body))
  {
    var ps, ws, parts := Paragraphs(d.body), WindowsOf(d, cfg), Each(Tokens, TextsOf(d, cfg));
    ParagraphsKeepTokens(d.body);
    BlankIff(ps);
    WindowsCover(Sizes(PLAIN, ps), cfg);
    if ws != [] {
      PartsAreWindows(d, cfg);
      WindowsReread(ps, cfg, ws, parts);
    }
  }
}
