/** One frame of detections through alignment, encoding, search and the margin rule. */
module ProbeChain {
  import opened Outcomes
  import opened Geometry
  import opened SimilarityTransform
  import opened FaceAligner
  import opened Letterboxing
  import opened Embeddings
  import opened MatchDecision
  import opened FaissSearcher

  datatype FrameMeta = FrameMeta(sourceId: string, frameNumber: nat, pts: int)

  datatype Face = Face(
    bbox: Rect,
    landmarks: seq<Point>,
    score: real,
    embedding: Option<seq<real>>,
    matchedId: Option<int>,
    top1Similarity: real,
    marginToTop2: real)
  {
    /** As a detector hands it over. */
    predicate Fresh() { embedding == None && matchedId == None }
  }

  datatype FrameResult = FrameResult(meta: FrameMeta, faces: seq<Face>)

  datatype RecognitionConfig = RecognitionConfig(threshold: real, marginMin: real, topK: nat)

  /**
   What one frame meets: the encoder may answer with anything or throw, whatever it did on
   other frames; the index has a size and answers queries.
   */
  datatype Backends = Backends(
    encode: seq<Image> -> Result<seq<seq<real>>>,
    size: nat,
    search: (seq<real>, nat) -> seq<SearchResult>)

  datatype ProbeInput = ProbeInput(meta: FrameMeta, image: Image, detections: seq<Face>, backends: Backends) {
    predicate Valid() { forall f :: f in detections ==> |f.landmarks| == 5 }

    predicate Fresh() { forall f :: f in detections ==> f.Fresh() }
  }

  /** The fixed parts of the chain: the aligner's side, and the warp that an affine transform drives. */
  datatype Alignment = Alignment(side: int, warp: (Image, Affine) -> Image, jacobi: Mat2 -> Svd)

  /** The crop is the image, warped by a least-squares similarity from these landmarks to the template. */
  ghost predicate Shows(a: Alignment, image: Image, landmarks: seq<Point>, crop: Image)
    requires |landmarks| == 5
  {
    exists m :: ShowsBy(a, image, landmarks, crop, m)
  }

  ghost predicate ShowsBy(a: Alignment, image: Image, landmarks: seq<Point>, crop: Image, m: Affine)
    requires |landmarks| == 5
  {
    IsLeastSquares(landmarks, Template(a.side), m) && crop == a.warp(image, m)
  }

  function Crop(a: Alignment, image: Image, landmarks: seq<Point>): Image
    requires |landmarks| == 5
  {
    a.warp(image, Estimate(landmarks, Template(a.side)))
  }

  function Crops(a: Alignment, f: ProbeInput): seq<Image>
    requires f.Valid()
  {
    seq(|f.detections|, i requires 0 <= i < |f.detections| => Crop(a, f.image, f.detections[i].landmarks))
  }

  /** The embeddings of the frame: none if there is no face, the encoder throws, or it miscounts. */
  function Encoded(a: Alignment, f: ProbeInput): Option<seq<seq<real>>>
    requires f.Valid()
  {
    var r := f.backends.encode(Crops(a, f));
    if f.detections == [] || r.Err? || |r.value| != |f.detections| then None else Some(r.value)
  }

  function Similarities(hits: seq<SearchResult>): seq<real> {
    seq(|hits|, i requires 0 <= i < |hits| => hits[i].similarity)
  }

  /** A face after its lookup. */
  function Resolved(face: Face, hits: seq<SearchResult>, cfg: RecognitionConfig): Face {
    if hits == [] then face
    else
      var second := if |hits| > 1 then Some(hits[1].similarity) else None;
      face.(
        top1Similarity := hits[0].similarity,
        marginToTop2 := ComputeMargin(hits[0].similarity, second),
        matchedId :=
          if DecideRanked(Similarities(hits), cfg.threshold, cfg.marginMin) then Some(hits[0].id) else face.matchedId)
  }

  function HitsFor(b: Backends, embedding: seq<real>, cfg: RecognitionConfig): seq<SearchResult> {
    if b.size == 0 then [] else b.search(embedding, cfg.topK)
  }

  function ResolvedAt(faces: seq<Face>, es: seq<seq<real>>, b: Backends, cfg: RecognitionConfig, i: nat): Face
    requires i < |es| == |faces|
  {
    Resolved(faces[i].(embedding := Some(es[i])), HitsFor(b, es[i], cfg), cfg)
  }

  function ResolvedAll(faces: seq<Face>, es: seq<seq<real>>, b: Backends, cfg: RecognitionConfig): seq<Face>
    requires |es| == |faces|
  {
    seq(|faces|, i requires 0 <= i < |faces| => ResolvedAt(faces, es, b, cfg, i))
  }

  /** The result of a frame, face by face. */
  function Processed(a: Alignment, cfg: RecognitionConfig, f: ProbeInput): FrameResult
    requires f.Valid()
  {
    var es := Encoded(a, f);
    FrameResult(f.meta, if es.None? then f.detections else ResolvedAll(f.detections, es.value, f.backends, cfg))
  }

  /** A registered result callback, and what it was called with. */
  class Listener {
    var frames: seq<FrameResult>

    constructor ()
      ensures frames == []
    {
      frames := [];
    }

    method Report(r: FrameResult)
      modifies this
      ensures frames == old(frames) + [r]
    {
      frames := frames + [r];
    }
  }

  class Chain {
    const alignment: Alignment
    const aligner: Aligner
    const cfg: RecognitionConfig
    var callback: Listener?

    ghost predicate Valid()
      reads aligner.reference
    {
      aligner.Valid() && aligner.outputSize == alignment.side && forall c :: IsSvd(c, alignment.jacobi(c))
    }

    constructor (alignment: Alignment, aligner: Aligner, cfg: RecognitionConfig)
      requires aligner.Valid() && aligner.outputSize == alignment.side && forall c :: IsSvd(c, alignment.jacobi(c))
      ensures Valid() && this.alignment == alignment && this.cfg == cfg && callback == null
    {
      this.alignment, this.aligner, this.cfg := alignment, aligner, cfg;
      callback := null;
    }

    method SetResultCallback(cb: Listener)
      modifies this
      ensures callback == cb
    {
      callback := cb;
    }

    method Report(result: FrameResult)
      modifies callback
      ensures callback != null ==> callback.frames == old(callback.frames) + [result]
    {
      if callback != null {
        callback.Report(result);
      }
    }

    /** The first loop: one crop per face. */
    method AlignAll(f: ProbeInput) returns (crops: seq<Image>)
      requires Valid() && f.Valid()
      ensures crops == Crops(alignment, f)
      ensures |crops| == |f.detections|
      ensures forall i :: 0 <= i < |crops| ==> Shows(alignment, f.image, f.detections[i].landmarks, crops[i])
    {
      crops := [];
      for i := 0 to |f.detections|
        invariant crops == Crops(alignment, f)[..i]
        invariant forall j :: 0 <= j < i ==> Shows(alignment, f.image, f.detections[j].landmarks, crops[j])
      {
        var m := aligner.Align(f.detections[i].landmarks, alignment.jacobi);
        var crop := alignment.warp(f.image, Read(m));
        assert ShowsBy(alignment, f.image, f.detections[i].landmarks, crop, Read(m));
        crops := crops + [crop];
      }
    }

    /** The second loop: each face takes the embedding of its index. */
    method Attach(detections: seq<Face>, embeddings: seq<seq<real>>) returns (faces: seq<Face>)
      requires |embeddings| == |detections|
      ensures |faces| == |detections|
      ensures forall i :: 0 <= i < |faces| ==> faces[i] == detections[i].(embedding := Some(embeddings[i]))
    {
      faces := detections;
      for i := 0 to |faces|
        invariant |faces| == |detections|
        invariant forall j :: 0 <= j < i ==> faces[j] == detections[j].(embedding := Some(embeddings[j]))
        invariant forall j :: i <= j < |faces| ==> faces[j] == detections[j]
      {
        faces := faces[i := faces[i].(embedding := Some(embeddings[i]))];
      }
    }

    /** One round of the third loop. */
    method LookUp(face: Face, b: Backends) returns (r: Face)
      requires face.embedding.Some?
      ensures r == Resolved(face, b.search(face.embedding.value, cfg.topK), cfg)
    {
      r := face;
      var hits := b.search(face.embedding.value, cfg.topK);
      if hits == [] {
        return;
      }
      var second := if |hits| > 1 then Some(hits[1].similarity) else None;
      r := r.(top1Similarity := hits[0].similarity);
      r := r.(marginToTop2 := ComputeMargin(r.top1Similarity, second));
      if Decide(r.top1Similarity, second, cfg.threshold, cfg.marginMin) {
        r := r.(matchedId := Some(hits[0].id));
      }
    }

    /** The third loop: each face is looked up by its embedding. */
    method LookUpAll(detections: seq<Face>, embedded: seq<Face>, embeddings: seq<seq<real>>, b: Backends)
      returns (faces: seq<Face>)
      requires |embeddings| == |detections| == |embedded| && b.size > 0
      requires forall i :: 0 <= i < |embedded| ==> embedded[i] == detections[i].(embedding := Some(embeddings[i]))
      ensures faces == ResolvedAll(detections, embeddings, b, cfg)
    {
      faces := embedded;
      for i := 0 to |faces|
        invariant |faces| == |detections|
        invariant forall j :: 0 <= j < i ==> faces[j] == ResolvedAt(detections, embeddings, b, cfg, j)
        invariant forall j :: i <= j < |faces| ==> faces[j] == embedded[j]
      {
        var face := LookUp(faces[i], b);
        faces := faces[i := face];
      }
    }

    /** `process`: whichever way it ends, the result is reported once, and returned. */
    method Process(f: ProbeInput) returns (result: FrameResult)
      requires Valid() && f.Valid()
      modifies callback
      ensures result == Processed(alignment, cfg, f)
      ensures callback != null ==> callback.frames == old(callback.frames) + [result]
    {
      result := FrameResult(f.meta, f.detections);
      if result.faces == [] {
        Report(result);
        return;
      }

      var crops := AlignAll(f);
      var encoded := f.backends.encode(crops);
      if encoded.Err? {
        Report(result);
        return;
      }
      var embeddings := encoded.value;
      if |embeddings| != |result.faces| {
        Report(result);
        return;
      }

      var faces := Attach(result.faces, embeddings);
      result := FrameResult(f.meta, faces);

      if f.backends.size == 0 {
        Report(result);
        return;
      }

      faces := LookUpAll(f.detections, faces, embeddings, f.backends);
      result := FrameResult(f.meta, faces);
      Report(result);
    }

    /** What a caller that hands over frames one after another gets back, and what the callback sees. */
    method ProcessFrames(fs: seq<ProbeInput>) returns (results: seq<FrameResult>)
      requires Valid() && forall f :: f in fs ==> f.Valid()
      modifies callback
      ensures |results| == |fs| && forall i :: 0 <= i < |fs| ==> results[i] == Processed(alignment, cfg, fs[i])
      ensures AllFaithful(alignment, cfg, fs, results)
      ensures callback != null ==> callback.frames == old(callback.frames) + results
    {
      results := [];
      for i := 0 to |fs|
        invariant |results| == i && forall j :: 0 <= j < i ==> results[j] == Processed(alignment, cfg, fs[j])
        invariant callback != null ==> callback.frames == old(callback.frames) + results
      {
        var r := Process(fs[i]);
        results := results + [r];
      }
      ResultsFaithful(alignment, cfg, fs, results);
    }
  }

  // ------------------------------------------------------------ any sequence of frames

  /** A face went through with everything the detector said about it. */
  predicate SameDetection(face: Face, detection: Face) {
    face.bbox == detection.bbox && face.landmarks == detection.landmarks && face.score == detection.score
  }

  /** All faces carry the embedding of their own crop, or none carries one. */
  predicate AllOrNone(faces: seq<Face>, es: Option<seq<seq<real>>>) {
    forall i :: 0 <= i < |faces| ==>
      if es.Some? then |es.value| == |faces| && faces[i].embedding == Some(es.value[i]) else faces[i].embedding == None
  }

  /** Whether a face with this embedding is to be reported as `id`. */
  predicate Identifies(embedding: Option<seq<real>>, b: Backends, cfg: RecognitionConfig, id: int) {
    && embedding.Some? && b.size > 0
    && var hits := b.search(embedding.value, cfg.topK);
       hits != [] && hits[0].id == id && DecideRanked(Similarities(hits), cfg.threshold, cfg.marginMin)
  }

  /** What a face reports about its hits: the best similarity, and its lead over the next one if there is one. */
  predicate ReportsScores(face: Face, detection: Face, hits: seq<SearchResult>) {
    if hits == [] then face.top1Similarity == detection.top1Similarity && face.marginToTop2 == detection.marginToTop2
    else
      && face.top1Similarity == hits[0].similarity
      && face.marginToTop2 == if |hits| == 1 then hits[0].similarity else hits[0].similarity - hits[1].similarity
  }

  /** The hits of a face: none without an embedding, or on an empty index. */
  function HitsOf(face: Face, b: Backends, cfg: RecognitionConfig): seq<SearchResult> {
    if face.embedding == None || b.size == 0 then [] else b.search(face.embedding.value, cfg.topK)
  }

  /** One face of a result: the detection, the scores of its hits, and an identity exactly when they give one. */
  ghost predicate FaithfulFace(face: Face, detection: Face, b: Backends, cfg: RecognitionConfig) {
    && SameDetection(face, detection)
    && ReportsScores(face, detection, HitsOf(face, b, cfg))
    && forall id :: face.matchedId == Some(id) <==> Identifies(face.embedding, b, cfg, id)
  }

  /** What a consumer may rely on for the result of a frame that arrived unembedded and unmatched. */
  ghost predicate Faithful(a: Alignment, cfg: RecognitionConfig, f: ProbeInput, r: FrameResult)
    requires f.Valid()
  {
    && r.meta == f.meta && |r.faces| == |f.detections|
    && AllOrNone(r.faces, Encoded(a, f))
    && forall i :: 0 <= i < |r.faces| ==> FaithfulFace(r.faces[i], f.detections[i], f.backends, cfg)
  }

  lemma ResolvedFaithful(detection: Face, e: seq<real>, b: Backends, cfg: RecognitionConfig)
    requires detection.Fresh()
    ensures FaithfulFace(Resolved(detection.(embedding := Some(e)), HitsFor(b, e, cfg), cfg), detection, b, cfg)
  {}

  lemma FrameFaithful(a: Alignment, cfg: RecognitionConfig, f: ProbeInput)
    requires f.Valid() && f.Fresh()
    ensures Faithful(a, cfg, f, Processed(a, cfg, f))
  {
    var r := Processed(a, cfg, f);
    forall i | 0 <= i < |f.detections|
      ensures f.detections[i].Fresh() && FaithfulFace(r.faces[i], f.detections[i], f.backends, cfg)
    {
      if Encoded(a, f).Some? { ResolvedFaithful(f.detections[i], Encoded(a, f).value[i], f.backends, cfg); }
    }
  }

  /** All results of a sequence of frames that arrive unembedded and unmatched are faithful. */
  ghost predicate AllFaithful(a: Alignment, cfg: RecognitionConfig, fs: seq<ProbeInput>, results: seq<FrameResult>)
    requires forall f :: f in fs ==> f.Valid()
  {
    |results| == |fs| && forall i :: 0 <= i < |fs| && fs[i].Fresh() ==> Faithful(a, cfg, fs[i], results[i])
  }

  /**
   Over any frames and any encoder behaviour: what `ProcessFrames` returns, and the callback has
   therefore seen in this order, is one faithful result a frame.
   */
  lemma ResultsFaithful(a: Alignment, cfg: RecognitionConfig, fs: seq<ProbeInput>, results: seq<FrameResult>)
    requires forall f :: f in fs ==> f.Valid()
    requires |results| == |fs| && forall i :: 0 <= i < |fs| ==> results[i] == Processed(a, cfg, fs[i])
    ensures AllFaithful(a, cfg, fs, results)
  {
    forall i | 0 <= i < |fs| && fs[i].Fresh() ensures Faithful(a, cfg, fs[i], results[i]) {
      FrameFaithful(a, cfg, fs[i]);
    }
  }

  /** The encoder answers crop by crop. */
  ghost predicate EncodesEach(encode: seq<Image> -> Result<seq<seq<real>>>, each: Image -> seq<real>) {
    forall crops :: encode(crops) == Ok(seq(|crops|, j requires 0 <= j < |crops| => each(crops[j])))
  }

  /** With such an encoder, face `i` of a frame comes out as the one face of the frame that holds it alone. */
  lemma FaceAlone(a: Alignment, cfg: RecognitionConfig, f: ProbeInput, each: Image -> seq<real>, i: nat)
    requires f.Valid() && EncodesEach(f.backends.encode, each) && i < |f.detections|
    ensures var one := f.(detections := [f.detections[i]]);
            && one.Valid() && |Processed(a, cfg, f).faces| == |f.detections| && |Processed(a, cfg, one).faces| == 1
            && Processed(a, cfg, f).faces[i] == Processed(a, cfg, one).faces[0]
  {
    var one := f.(detections := [f.detections[i]]);
    assert Crops(a, one)[0] == Crops(a, f)[i];
  }

  predicate Stricter(strict: RecognitionConfig, lax: RecognitionConfig) {
    strict.threshold >= lax.threshold && strict.marginMin >= lax.marginMin && strict.topK == lax.topK
  }

  /** Stricter settings drop identities and change nothing else. */
  lemma StricterDrops(a: Alignment, strict: RecognitionConfig, lax: RecognitionConfig, f: ProbeInput)
    requires f.Valid() && f.Fresh() && Stricter(strict, lax)
    ensures var r, s := Processed(a, lax, f), Processed(a, strict, f);
            && r.meta == s.meta && |r.faces| == |s.faces|
            && forall i :: 0 <= i < |r.faces| ==>
                 s.faces[i] == r.faces[i] || s.faces[i] == r.faces[i].(matchedId := None)
  {
    assert forall i :: 0 <= i < |f.detections| ==> f.detections[i].Fresh();
  }

  lemma ReportedSimilarities(hits: seq<SearchResult>)
    requires Ranked(hits) && forall h :: h in hits ==> h.id >= 0
    ensures Descending(Similarities(hits))
  {
    forall i, j | 0 <= i < j < |hits| ensures Similarities(hits)[i] >= Similarities(hits)[j] {
      assert hits[i] in hits && hits[j] in hits;
    }
  }

  /**
   The chain over the searcher: with cosine similarities, an identity that a frame reports is
   a non-negative label that clears the threshold and leads every other hit by the margin.
   */
  lemma IdentityMeans(embedding: seq<real>, b: Backends, cfg: RecognitionConfig, id: int, index: Index,
                      rank: Ranking, norm: Norm)
    requires IsRanking(rank) && IsNorm(norm)
    requires b.search(embedding, cfg.topK) == Reported(rank(index, embedding, cfg.topK))
    requires AllCosines(Similarities(b.search(embedding, cfg.topK)), norm)
    requires Identifies(Some(embedding), b, cfg, id)
    ensures var hits := b.search(embedding, cfg.topK);
            && id >= 0 && id == hits[0].id && |hits| <= cfg.topK
            && cfg.threshold <= hits[0].similarity <= 1.0 && cfg.marginMin <= 2.0
            && forall j :: 0 < j < |hits| ==> hits[0].similarity - hits[j].similarity >= cfg.marginMin
  {
    var hits := b.search(embedding, cfg.topK);
    ReportedIsRanked(rank(index, embedding, cfg.topK));
    assert hits[0] in hits;
    ReportedSimilarities(hits);
    DecisionMeans(Similarities(hits), cfg.threshold, cfg.marginMin);
    SettingsMatter(Similarities(hits), cfg.threshold, cfg.marginMin, norm);
    forall j | 0 < j < |hits| ensures hits[0].similarity - hits[j].similarity >= cfg.marginMin {
      assert Similarities(hits)[j] == hits[j].similarity;
    }
  }
}
