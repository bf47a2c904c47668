// What each chunk of a document says, and what the indexes hold of it
// (groundwork_ingestion/chunker.py, models.py, indexes.py).
module IngestedChunks {
  import opened Sequences
  import opened Text
  import opened Wrappers
  import opened Tokenizer
  import opened Windowing
  import opened Chunker
  import opened Documents
  import opened DualIndex

  // The text is these paragraphs, with a blank line between each and the next.
  ghost predicate IsJoined(text: string, ps: seq<string>)
    decreases |ps|
  {
    if |ps| <= 1 then text == if ps == [] then "" else ps[0]
    else exists front :: IsJoined(front, ps[..|ps| - 1]) && text == front + "\n\n" + ps[|ps| - 1]
  }

  lemma {:induction false} JoinedIsJoined(ps: seq<string>)
    ensures IsJoined(Joined(ps), ps)
  {
    if |ps| > 1 {
      JoinedIsJoined(ps[..|ps| - 1]);
      assert ['\n', '\n'] == "\n\n";
    }
  }

  // The chunk is of this document and text, at this place, and its ids are those of its place and text.
  ghost predicate ChunkSays(c: Chunk, d: Document, text: string, offset: nat, h: Hashing) {
    && c.tenantID == d.tenantID && c.region == d.region && c.documentID == d.documentID && c.aclScope == d.aclScope
    && c.text == text && c.offset == offset && c.embedding == []
    && var input := d.documentID + ":" + Natural(offset) + ":" + text;
       c.chunkHash == h.full(input) && c.chunkID == "chk_" + h.short(input)
  }

  lemma {:induction false} PlacedSays(d: Document, texts: seq<string>, h: Hashing, i: nat)
    requires i < |texts|
    ensures var cs := Placed(d, texts, h);
      && ChunkSays(cs[i], d, texts[i], cs[i].offset, h)
      && cs[i].offset == if i == 0 then 0 else cs[i - 1].offset + |cs[i - 1].text|
    decreases |texts|
  {
    var n := |texts| - 1;
    var rest := texts[..n];
    if i < n {
      PlacedSays(d, rest, h, i);
      assert rest[i] == texts[i];
    } else {
      PlacedEnds(d, rest, h);
    }
  }

  lemma {:induction false} PlacedEnds(d: Document, texts: seq<string>, h: Hashing)
    ensures var cs := Placed(d, texts, h);
      Length(texts) == if texts == [] then 0 else cs[|cs| - 1].offset + |cs[|cs| - 1].text|
  {
  }

  // Chunk `i` of a document is the text of window `i`, placed where the one before ends.
  lemma ChunksSay(d: Document, cfg: Settings, h: Hashing, i: nat)
    requires i < |DocumentChunks(d, cfg, h)|
    ensures var cs, ps, w := DocumentChunks(d, cfg, h), Paragraphs(d.body), WindowsOf(d, cfg)[i];
      && |cs| == |WindowsOf(d, cfg)| && w.start <= w.end <= |ps|
      && IsJoined(cs[i].text, ps[w.start..w.end])
      && ChunkSays(cs[i], d, cs[i].text, cs[i].offset, h)
      && cs[i].offset == if i == 0 then 0 else cs[i - 1].offset + |cs[i - 1].text|
  {
    PlacedSays(d, TextsOf(d, cfg), h, i);
    var ps, w := Paragraphs(d.body), WindowsOf(d, cfg)[i];
    JoinedIsJoined(ps[w.start..w.end]);
  }

  function TextsIn(cs: seq<Chunk>): seq<string> {
    seq(|cs|, i requires 0 <= i < |cs| => cs[i].text)
  }

  lemma {:induction false} TextsInChunks(d: Document, texts: seq<string>, h: Hashing)
    ensures TextsIn(Placed(d, texts, h)) == texts
  {
    forall i | 0 <= i < |texts| ensures Placed(d, texts, h)[i].text == texts[i] {
      PlacedSays(d, texts, h, i);
    }
  }

  // The document's tokens can be read back from the texts of its chunks.
  lemma {:induction false} ChunkTextsReassemble(d: Document, cfg: Settings, h: Hashing)
    ensures var cs, ws, ss := DocumentChunks(d, cfg, h), WindowsOf(d, cfg), Sizes(PLAIN, Paragraphs(d.body));
      && (cs == [] <==> Tokens(d.body) == [])
      && (cs != [] ==> Chained(ss, cfg, ws) && Reread(ss, ws, Each(Tokens, TextsIn(cs))) == Tokens(d.body))
  {
    ChunksReassemble(d, cfg);
    TextsInChunks(d, TextsOf(d, cfg), h);
  }

  // ---- the indexes ----

  // The record holds what the chunk says, with the vector, if any.
  predicate RecordSays(r: Record, c: Chunk, vector: Option<seq<real>>) {
    && r.vector == vector && r.payload.tenantID == c.tenantID && r.payload.region == c.region
    && r.payload.documentID == c.documentID && r.payload.chunkID == c.chunkID && r.payload.chunkHash == c.chunkHash
    && r.payload.text == c.text && r.payload.offset == c.offset && r.payload.aclScope == c.aclScope
  }

  // Both indexes hold the chunk under its tenant and id, the vector index with its vector.
  ghost predicate HoldsChunk(t: Store, c: Chunk) {
    var key := Key(c.tenantID, c.chunkID);
    && key in t.vector && RecordSays(t.vector[key], c, Some(c.embedding))
    && key in t.lexical && RecordSays(t.lexical[key], c, None)
  }

  lemma {:induction false} PutAllHolds(s: Store, cs: seq<Chunk>, n: nat, i: nat)
    requires i < n <= |cs| && Distinct(cs)
    ensures HoldsChunk(PutAll(s, cs, n), cs[i])
  {
    if i < n - 1 {
      PutAllHolds(s, cs, n - 1, i);
      assert KeyOf(cs[i]) != KeyOf(cs[n - 1]);
    }
  }

  // After a complete ingestion both indexes hold every chunk of the document with its vector, and
  // whatever they held under other keys.
  lemma IngestedHolds(s: Store, d: Document, cfg: Settings, h: Hashing, vectors: seq<seq<real>>, i: nat)
    requires CollisionFree(h) && |vectors| == |DocumentChunks(d, cfg, h)| && i < |vectors|
    ensures var cs := DocumentChunks(d, cfg, h);
      HoldsChunk(PutAll(s, Embedded(cs, vectors), |cs|), cs[i].(embedding := vectors[i]))
  {
    var cs := DocumentChunks(d, cfg, h);
    ChunksAreDistinct(d, cfg, h);
    EmbeddedAreDistinct(cs, vectors);
    PutAllHolds(s, Embedded(cs, vectors), |cs|, i);
  }

  lemma {:induction false} OtherKeysStay(s: Store, cs: seq<Chunk>, n: nat, key: Key)
    requires n <= |cs| && forall i | 0 <= i < n :: Key(cs[i].tenantID, cs[i].chunkID) != key
    ensures var t := PutAll(s, cs, n);
      && (key in t.vector <==> key in s.vector) && (key in s.vector ==> t.vector[key] == s.vector[key])
      && (key in t.lexical <==> key in s.lexical) && (key in s.lexical ==> t.lexical[key] == s.lexical[key])
  {
    if n > 0 {
      OtherKeysStay(s, cs, n - 1, key);
    }
  }
}
