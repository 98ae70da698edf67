/** What a reported identity means, from enrolment through the encoder and the index to the frame. */
module Recognition {
  import opened Outcomes
  import opened Letterboxing
  import opened Embeddings
  import opened MatchDecision
  import opened FaissSearcher
  import opened ArcFaceEncoder
  import opened ProbeChain

  // ------------------------------------------------------------ normalization

  /** The vector came out of `l2_normalize`. */
  ghost predicate IsNormalized(v: seq<real>, norm: Norm) {
    exists u :: NormalizedFrom(u, v, norm)
  }

  ghost predicate NormalizedFrom(u: seq<real>, v: seq<real>, norm: Norm) {
    |u| == |v| && v == L2Normalized(u, norm)
  }

  ghost predicate AllNormalized(vs: seq<seq<real>>, norm: Norm) {
    forall i :: 0 <= i < |vs| ==> IsNormalized(vs[i], norm)
  }

  /** Every embedding of the encoder is normalized. */
  lemma EncoderNormalizes(enc: Encoder, faces: seq<Image>, resize: Resize, norm: Norm)
    requires IsResize(resize) && IsNorm(norm) && forall f :: f in faces ==> f.Valid()
    ensures AllNormalized(enc.EmbeddingsOf(faces, resize, norm), norm)
    ensures enc.net.Valid() ==> forall e :: e in enc.EmbeddingsOf(faces, resize, norm) ==> |e| == enc.net.width
  {
    var es := enc.EmbeddingsOf(faces, resize, norm);
    forall i | 0 <= i < |es|
      ensures IsNormalized(es[i], norm) && (enc.net.Valid() ==> |es[i]| == enc.net.width)
    {
      var u := enc.net.row(Preprocessed(faces[i], enc.cfg.inputSize, resize));
      NormalizedLength(u, norm);
      assert NormalizedFrom(u, es[i], norm);
    }
  }

  ghost predicate NormalizedEntries(es: seq<Entry>, norm: Norm) {
    forall i :: 0 <= i < |es| ==> IsNormalized(es[i].vector, norm)
  }

  /** The call enrols normalized vectors only, and so does what a failure leaves or a file holds. */
  ghost predicate Enrols(c: Call, norm: Norm) {
    && (c.Build? || c.Add? ==> AllNormalized(c.m.columns, norm))
    && (c.Load? ==> NormalizedEntries(c.file.entries, norm))
    && (c.fault.InEngine? ==> NormalizedEntries(c.fault.left.entries, norm))
  }

  lemma {:induction false} WithoutNormalized(es: seq<Entry>, ids: set<int>, norm: Norm)
    requires NormalizedEntries(es, norm)
    ensures NormalizedEntries(Without(es, ids), norm)
  {
    if es != [] { WithoutNormalized(es[..|es| - 1], ids, norm); }
  }

  /** After any run that enrols normalized vectors, failures included, the index holds nothing else. */
  lemma {:induction false} RunNormalized(cfg: FaissConfig, calls: seq<Call>, norm: Norm)
    requires forall c :: c in calls ==> c.Valid() && Enrols(c, norm)
    ensures NormalizedEntries(Entries(RunOf(cfg, calls)), norm)
  {
    if calls != [] {
      var before, call := RunOf(cfg, calls[..|calls| - 1]), calls[|calls| - 1];
      assert call in calls;
      RunNormalized(cfg, calls[..|calls| - 1], norm);
      if call.Remove? { WithoutNormalized(Entries(before), IdSet(call.ids), norm); }
    }
  }

  // ------------------------------------------------------------------- scores

  /** The slot is an entry of the index, scored by its inner product with the query. */
  ghost predicate Scores(e: Entry, query: seq<real>, hit: SearchResult) {
    hit.id == e.id && |e.vector| == |query| && hit.similarity == Dot(e.vector, query)
  }

  ghost predicate ScoresSome(es: seq<Entry>, query: seq<real>, hit: SearchResult) {
    exists i :: 0 <= i < |es| && Scores(es[i], query, hit)
  }

  /** For queries of its dimension the index ranks by inner products, and every labelled slot is one of its entries. */
  ghost predicate RanksByInnerProduct(rank: Ranking, index: Index) {
    forall query, k :: |query| == index.dim ==> AllScored(index.entries, query, rank(index, query, k))
  }

  ghost predicate AllScored(es: seq<Entry>, query: seq<real>, hits: seq<SearchResult>) {
    forall r :: 0 <= r < |hits| && hits[r].id >= 0 ==> ScoresSome(es, query, hits[r])
  }

  lemma ScoreIsCosine(e: Entry, query: seq<real>, hit: SearchResult, norm: Norm)
    requires Scores(e, query, hit) && IsNormalized(e.vector, norm) && IsNormalized(query, norm)
    ensures IsCosine(hit.similarity, norm)
  {
    var u: seq<real> :| NormalizedFrom(u, e.vector, norm);
    var v: seq<real> :| NormalizedFrom(v, query, norm);
    assert Compares(u, v, hit.similarity, norm);
  }

  /** The reported hits of a normalized query on normalized entries carry cosine similarities. */
  lemma HitsAreCosines(es: seq<Entry>, query: seq<real>, hits: seq<SearchResult>, norm: Norm)
    requires NormalizedEntries(es, norm) && IsNormalized(query, norm) && AllScored(es, query, hits) && Ranked(hits)
    ensures AllCosines(Similarities(Reported(hits)), norm)
    ensures AllScored(es, query, Reported(hits))
  {
    var reported := Reported(hits);
    ReportedIsRanked(hits);
    forall j | 0 <= j < |reported|
      ensures ScoresSome(es, query, reported[j]) && IsCosine(reported[j].similarity, norm)
    {
      assert reported[j] in hits && reported[j].id >= 0;
      var r :| 0 <= r < |hits| && hits[r] == reported[j];
      assert ScoresSome(es, query, hits[r]);
      var i :| 0 <= i < |es| && Scores(es[i], query, reported[j]);
      ScoreIsCosine(es[i], query, reported[j], norm);
    }
  }

  // --------------------------------------------------------------- end to end

  /** `id` is an enrolled entry that clears the threshold and leads every other hit by the margin. */
  ghost predicate Recognizes(es: seq<Entry>, query: seq<real>, hits: seq<SearchResult>, cfg: RecognitionConfig, id: int)
  {
    && hits != [] && hits[0].id == id && id >= 0 && ScoresSome(es, query, hits[0])
    && cfg.threshold <= hits[0].similarity <= 1.0 && cfg.marginMin <= 2.0
    && forall j :: 0 < j < |hits| ==> hits[0].similarity - hits[j].similarity >= cfg.marginMin
  }

  /** The searcher's state answers the frame. */
  ghost predicate SearchesIn(b: Backends, s: State, rank: Ranking) {
    && Serving(s).Some? && b.size == |Entries(s)|
    && forall query, k :: b.search(query, k) == Reported(rank(Serving(s).value, query, k))
  }

  lemma IdentityRecognized(embedding: seq<real>, b: Backends, cfg: RecognitionConfig, id: int, index: Index,
                           rank: Ranking, norm: Norm)
    requires IsRanking(rank) && IsNorm(norm) && RanksByInnerProduct(rank, index)
    requires NormalizedEntries(index.entries, norm) && IsNormalized(embedding, norm) && |embedding| == index.dim
    requires b.search(embedding, cfg.topK) == Reported(rank(index, embedding, cfg.topK))
    requires Identifies(Some(embedding), b, cfg, id)
    ensures Recognizes(index.entries, embedding, b.search(embedding, cfg.topK), cfg, id)
  {
    var hits := rank(index, embedding, cfg.topK);
    HitsAreCosines(index.entries, embedding, hits, norm);
    IdentityMeans(embedding, b, cfg, id, index, rank, norm);
  }

  /**
   From enrolment to report. The searcher has been through any run that enrolled normalized
   vectors and is mirrored; the encoder answered the frame with its embeddings. Then every
   identity the frame reports is that of a vector enrolled since the last build or load and not
   removed, whose cosine similarity to the face clears the threshold and leads every other hit
   by the margin.
   */
  lemma ReportedIdentity(a: Alignment, cfg: RecognitionConfig, f: ProbeInput, i: nat, id: int,
                         enc: Encoder, resize: Resize, norm: Norm,
                         faiss: FaissConfig, calls: seq<Call>, rank: Ranking)
    requires f.Valid() && f.Fresh() && i < |f.detections|
    requires IsResize(resize) && IsNorm(norm) && IsRanking(rank)
    requires forall c :: c in Crops(a, f) ==> c.Valid()
    requires f.backends.encode(Crops(a, f)) == Ok(enc.EmbeddingsOf(Crops(a, f), resize, norm))
    requires forall c :: c in calls ==> c.Valid() && Enrols(c, norm)
    requires Mirrored(RunOf(faiss, calls)) && SearchesIn(f.backends, RunOf(faiss, calls), rank)
    requires RanksByInnerProduct(rank, RunOf(faiss, calls).cpu.value)
    requires enc.net.Valid() && enc.net.width == RunOf(faiss, calls).cpu.value.dim
    requires Processed(a, cfg, f).faces[i].matchedId == Some(id)
    ensures var e := enc.EmbeddingsOf(Crops(a, f), resize, norm)[i];
            && Processed(a, cfg, f).faces[i].embedding == Some(e)
            && Recognizes(Surviving(calls, {}), e, f.backends.search(e, cfg.topK), cfg, id)
  {
    var s, es := RunOf(faiss, calls), enc.EmbeddingsOf(Crops(a, f), resize, norm);
    FrameFaithful(a, cfg, f);
    EncoderNormalizes(enc, Crops(a, f), resize, norm);
    RunNormalized(faiss, calls, norm);
    RunContents(faiss, calls);
    assert Encoded(a, f) == Some(es) && es[i] in es;
    assert Identifies(Some(es[i]), f.backends, cfg, id);
    IdentityRecognized(es[i], f.backends, cfg, id, s.cpu.value, rank, norm);
  }
}
