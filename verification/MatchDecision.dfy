/** The margin rule: when a ranked list of similarities resolves to its first identity. */
module MatchDecision {
  import opened Outcomes
  import opened Embeddings

  function ComputeMargin(top1: real, top2: Option<real>): real {
    if top2.Some? then top1 - top2.value else top1
  }

  predicate Decide(top1: real, top2: Option<real>, threshold: real, marginMin: real) {
    top1 >= threshold && ComputeMargin(top1, top2) >= marginMin
  }

  /** The overload for a ranked list, highest first. */
  predicate DecideRanked(similarities: seq<real>, threshold: real, marginMin: real) {
    if similarities == [] then false
    else
      var second := if |similarities| > 1 then Some(similarities[1]) else None;
      Decide(similarities[0], second, threshold, marginMin)
  }

  ghost predicate Descending(similarities: seq<real>) {
    forall i, j :: 0 <= i < j < |similarities| ==> similarities[i] >= similarities[j]
  }

  /** A similarity between two vectors that `l2_normalize` produced. */
  ghost predicate IsCosine(x: real, norm: Norm) {
    exists u, v :: Compares(u, v, x, norm)
  }

  ghost predicate Compares(u: seq<real>, v: seq<real>, x: real, norm: Norm) {
    && |u| == |v| && |L2Normalized(u, norm)| == |L2Normalized(v, norm)|
    && x == Dot(L2Normalized(u, norm), L2Normalized(v, norm))
  }

  ghost predicate AllCosines(similarities: seq<real>, norm: Norm) {
    forall i :: 0 <= i < |similarities| ==> IsCosine(similarities[i], norm)
  }

  lemma CosineRange(x: real, norm: Norm)
    requires IsNorm(norm) && IsCosine(x, norm)
    ensures -1.0 <= x <= 1.0
  {
    var u: seq<real>, v: seq<real> :| Compares(u, v, x, norm);
    SimilarityRange(u, v, norm);
  }

  /**
   On a ranked list the rule looks at two entries only, yet it says that the first clears the
   threshold and leads every other candidate by the margin; alone, it must itself reach the
   margin.
   */
  lemma DecisionMeans(similarities: seq<real>, threshold: real, marginMin: real)
    requires Descending(similarities)
    ensures DecideRanked(similarities, threshold, marginMin) <==>
            (similarities != [] && similarities[0] >= threshold
             && (if |similarities| == 1 then similarities[0] >= marginMin
                 else forall j :: 0 < j < |similarities| ==> similarities[0] - similarities[j] >= marginMin))
  {
    if |similarities| > 1 {
      assert forall j :: 1 < j < |similarities| ==> similarities[1] >= similarities[j];
      assert similarities[0] - similarities[1] >= marginMin ==> DecideRanked(similarities, similarities[0], marginMin);
    }
  }

  /**
   The configuration accepts thresholds in [-1, 1] and margins in [0, 2]: the ranges of cosine
   similarity and of its margins. Above them every probe is rejected; below them the check that
   is out of range never rejects one.
   */
  lemma SettingsMatter(similarities: seq<real>, threshold: real, marginMin: real, norm: Norm)
    requires IsNorm(norm) && AllCosines(similarities, norm) && Descending(similarities) && similarities != []
    ensures -1.0 <= similarities[0] <= 1.0
    ensures |similarities| > 1 ==> 0.0 <= ComputeMargin(similarities[0], Some(similarities[1])) <= 2.0
    ensures threshold > 1.0 || marginMin > 2.0 ==> !DecideRanked(similarities, threshold, marginMin)
    ensures threshold <= -1.0 ==>
              (DecideRanked(similarities, threshold, marginMin)
               <==> DecideRanked(similarities, similarities[0], marginMin))
    ensures marginMin <= 0.0 && |similarities| > 1 ==>
              (DecideRanked(similarities, threshold, marginMin) <==> similarities[0] >= threshold)
  {
    CosineRange(similarities[0], norm);
    if |similarities| > 1 { CosineRange(similarities[1], norm); }
  }

  /**
   What the length of the list asked for changes: nothing from two on. A list of one hides the
   runner-up, and then the answer differs exactly when the similarity and its lead over the
   hidden runner-up fall on different sides of the margin.
   */
  lemma ListLengthMatters(similarities: seq<real>, k: nat, threshold: real, marginMin: real)
    requires 0 < k <= |similarities|
    ensures DecideRanked(similarities[..k], threshold, marginMin) != DecideRanked(similarities, threshold, marginMin)
       <==> (k == 1 && |similarities| > 1 && similarities[0] >= threshold
             && (similarities[0] >= marginMin) != (similarities[0] - similarities[1] >= marginMin))
  {}
}
