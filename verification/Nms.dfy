/** Non-maximum suppression of detections. */
module Nms {
  import opened Letterboxing
  import opened Detections
  import opened BoxOverlap
  import opened GreedySelection

  // ------------------------------------------------------------------- order

  ghost predicate SortedByScore(s: seq<FaceDetection>) {
    forall i, j :: 0 <= i < j < |s| ==> s[i].score >= s[j].score
  }

  /** What `std::sort` may leave behind: it is not stable, so any sorted permutation. */
  ghost predicate IsScoreOrder(dets: seq<FaceDetection>, order: seq<FaceDetection>) {
    multiset(order) == multiset(dets) && SortedByScore(order)
  }

  function InsertByScore(d: FaceDetection, s: seq<FaceDetection>): seq<FaceDetection> {
    if s == [] || s[0].score < d.score then [d] + s else [s[0]] + InsertByScore(d, s[1..])
  }

  lemma {:induction false} InsertPermutes(d: FaceDetection, s: seq<FaceDetection>)
    ensures multiset(InsertByScore(d, s)) == multiset{d} + multiset(s)
  {
    if s != [] && s[0].score >= d.score {
      InsertPermutes(d, s[1..]);
      assert s == [s[0]] + s[1..];
    }
  }

  lemma {:induction false} InsertSorted(d: FaceDetection, s: seq<FaceDetection>)
    requires SortedByScore(s)
    ensures SortedByScore(InsertByScore(d, s))
  {
    if s != [] && s[0].score >= d.score {
      InsertSorted(d, s[1..]);
      InsertPermutes(d, s[1..]);
      var rest := InsertByScore(d, s[1..]);
      forall j | 0 <= j < |rest| ensures s[0].score >= rest[j].score {
        assert rest[j] in multiset(rest);
      }
    }
  }

  /** `std::sort` by descending score; callers rely on `IsScoreOrder` alone. */
  method SortByScore(dets: seq<FaceDetection>) returns (order: seq<FaceDetection>)
    ensures IsScoreOrder(dets, order)
  {
    order := [];
    for i := 0 to |dets|
      invariant IsScoreOrder(dets[..i], order)
    {
      assert dets[..i + 1] == dets[..i] + [dets[i]];
      InsertPermutes(dets[i], order);
      InsertSorted(dets[i], order);
      order := InsertByScore(dets[i], order);
    }
    assert dets[..|dets|] == dets;
  }

  // --------------------------------------------------------------- algorithm

  /** The pairs of which the second is dropped when the first is kept. */
  function Suppressing(t: real): (FaceDetection, FaceDetection) -> bool {
    (a: FaceDetection, b: FaceDetection) => Iou(a.bbox, b.bbox) > t
  }

  /** `kept` is what `nms` may return: the selection from some order the sort may leave. */
  ghost predicate IsNms(dets: seq<FaceDetection>, t: real, kept: seq<FaceDetection>) {
    exists order :: IsScoreOrder(dets, order) && kept == Selection(order, Suppressing(t))
  }

  /** The inner loop: mark every later entry that the kept entry `i` suppresses. */
  method SuppressFrom(order: seq<FaceDetection>, i: nat, iouThresh: real, suppressed: array<bool>)
    requires i < |order| == suppressed.Length
    modifies suppressed
    ensures forall m :: 0 <= m <= i ==> suppressed[m] == old(suppressed[m])
    ensures forall m :: i < m < |order| ==>
      suppressed[m] == (old(suppressed[m]) || Suppressing(iouThresh)(order[i], order[m]))
  {
    for j := i + 1 to |order|
      invariant forall m :: i < m < j ==>
        suppressed[m] == (old(suppressed[m]) || Suppressing(iouThresh)(order[i], order[m]))
      invariant forall m :: 0 <= m <= i || j <= m < |order| ==> suppressed[m] == old(suppressed[m])
    {
      if suppressed[j] {
        continue;
      }
      if Iou(order[i].bbox, order[j].bbox) > iouThresh {
        suppressed[j] := true;
      }
    }
  }

  /** Some survivor before `i` suppresses entry `j`. */
  ghost predicate Covered(order: seq<FaceDetection>, r: (FaceDetection, FaceDetection) -> bool, i: nat, j: nat)
    requires i <= j < |order|
  {
    exists k :: 0 <= k < i && Survives(order, r, k) && r(order[k], order[j])
  }

  lemma CoveredStep(order: seq<FaceDetection>, r: (FaceDetection, FaceDetection) -> bool, i: nat, j: nat)
    requires i < j < |order|
    ensures Covered(order, r, i + 1, j) <==> Covered(order, r, i, j) || (Survives(order, r, i) && r(order[i], order[j]))
  {}

  lemma CoveredOrSurvives(order: seq<FaceDetection>, r: (FaceDetection, FaceDetection) -> bool, i: nat)
    requires i < |order|
    ensures Survives(order, r, i) <==> !Covered(order, r, i, i)
  {}

  /** From `i` on, the bitmap marks what the survivors before `i` suppress. */
  ghost predicate Marks(order: seq<FaceDetection>, r: (FaceDetection, FaceDetection) -> bool, i: nat, marks: seq<bool>)
  {
    |marks| == |order| && forall j :: i <= j < |order| ==> marks[j] == Covered(order, r, i, j)
  }

  lemma MarkedSkips(order: seq<FaceDetection>, r: (FaceDetection, FaceDetection) -> bool, i: nat, marks: seq<bool>)
    requires i < |order| && Marks(order, r, i, marks)
    ensures marks[i] <==> !Survives(order, r, i)
    ensures marks[i] ==> Marks(order, r, i + 1, marks)
  {
    CoveredOrSurvives(order, r, i);
    if marks[i] {
      forall j | i + 1 <= j < |order| ensures marks[j] == Covered(order, r, i + 1, j) {
        CoveredStep(order, r, i, j);
      }
    }
  }

  lemma KeptMarks(order: seq<FaceDetection>, r: (FaceDetection, FaceDetection) -> bool, i: nat,
                  marks: seq<bool>, after: seq<bool>)
    requires i < |order| == |after| && Marks(order, r, i, marks) && !marks[i]
    requires forall m :: i < m < |order| ==> after[m] == (marks[m] || r(order[i], order[m]))
    ensures Marks(order, r, i + 1, after)
  {
    CoveredOrSurvives(order, r, i);
    forall j | i + 1 <= j < |order| ensures after[j] == Covered(order, r, i + 1, j) {
      CoveredStep(order, r, i, j);
    }
  }

  /** `nms`: sort, then one pass with a suppression bitmap. */
  method Nms(dets: seq<FaceDetection>, iouThresh: real) returns (kept: seq<FaceDetection>)
    ensures IsNms(dets, iouThresh, kept)
  {
    var order := SortByScore(dets);
    ghost var r := Suppressing(iouThresh);
    kept := [];
    var suppressed := new bool[|order|](_ => false);
    for i := 0 to |order|
      invariant kept == Survivors(order, r, i)
      invariant Marks(order, r, i, suppressed[..])
    {
      ghost var before := suppressed[..];
      MarkedSkips(order, r, i, before);
      if suppressed[i] {
        continue;
      }
      kept := kept + [order[i]];
      SuppressFrom(order, i, iouThresh, suppressed);
      KeptMarks(order, r, i, before, suppressed[..]);
    }
  }

  // ------------------------------------------------------------ main results

  /**
   The output is sorted and pairwise within the threshold, it takes its boxes from the
   input, and every input is kept or covered by a kept box scoring at least as high.
   */
  lemma NmsSound(dets: seq<FaceDetection>, t: real, kept: seq<FaceDetection>)
    requires IsNms(dets, t, kept)
    ensures SortedByScore(kept) && Separated(kept, Suppressing(t))
    ensures multiset(kept) <= multiset(dets)
    ensures forall d :: d in dets ==>
      d in kept || exists k :: k in kept && k.score >= d.score && Suppressing(t)(k, d)
  {
    var r, above := Suppressing(t), (a: FaceDetection, b: FaceDetection) => a.score >= b.score;
    var order: seq<FaceDetection> :| IsScoreOrder(dets, order) && kept == Selection(order, r);
    SelectionOrdered(order, r, above);
    SurvivorsMultiset(order, r, |order|);
    assert order[..|order|] == order;
    forall d | d in dets
      ensures d in kept || exists k :: k in kept && k.score >= d.score && r(k, d)
    {
      assert d in multiset(order);
      SelectionCovers(order, r, above, d);
    }
  }

  lemma SuppressingSymmetric(t: real)
    ensures forall x, y :: Suppressing(t)(x, y) == Suppressing(t)(y, x)
  {
    forall x, y ensures Suppressing(t)(x, y) == Suppressing(t)(y, x) {
      IouSymmetric(x.bbox, y.bbox);
    }
  }

  /** Nothing is lost exactly when no two inputs overlap by more than the threshold. */
  lemma NmsKeepsAll(dets: seq<FaceDetection>, t: real, kept: seq<FaceDetection>)
    requires IsNms(dets, t, kept)
    ensures multiset(kept) == multiset(dets) <==> Separated(dets, Suppressing(t))
  {
    SuppressingSymmetric(t);
    var r := Suppressing(t);
    var order: seq<FaceDetection> :| IsScoreOrder(dets, order) && kept == Selection(order, r);
    if multiset(kept) == multiset(dets) {
      SelectionOrdered(order, r, (a, b) => true);
      SeparatedPermuted(kept, dets, r);
    }
    if Separated(dets, r) {
      SeparatedPermuted(dets, order, r);
      SeparatedKept(order, r, |order|);
      assert order[..|order|] == order;
    }
  }

  /** A threshold of one or more suppresses nothing, exact duplicates included. */
  lemma NmsAtOne(dets: seq<FaceDetection>, t: real, kept: seq<FaceDetection>)
    requires t >= 1.0 && IsNms(dets, t, kept)
    ensures multiset(kept) == multiset(dets)
  {
    forall i, j | 0 <= i < j < |dets| ensures !Suppressing(t)(dets[i], dets[j]) {
      IouRange(dets[i].bbox, dets[j].bbox);
    }
    NmsKeepsAll(dets, t, kept);
  }

  /** Any two kept boxes overlap by at most the threshold. */
  lemma KeptWithin(dets: seq<FaceDetection>, t: real, kept: seq<FaceDetection>, i: nat, j: nat)
    requires IsNms(dets, t, kept) && i < j < |kept|
    ensures Iou(kept[i].bbox, kept[j].bbox) <= t
  {
    NmsSound(dets, t, kept);
    assert !Suppressing(t)(kept[i], kept[j]);
  }

  /** Below one, no two kept boxes of positive area are equal: exact duplicates are suppressed. */
  lemma NmsDropsDuplicates(dets: seq<FaceDetection>, t: real, kept: seq<FaceDetection>, i: nat, j: nat)
    requires IsNms(dets, t, kept) && t < 1.0
    requires i < j < |kept| && Positive(kept[i].bbox)
    ensures kept[i].bbox != kept[j].bbox
  {
    KeptWithin(dets, t, kept, i, j);
    if Positive(kept[j].bbox) { IouComplete(kept[i].bbox, kept[j].bbox); }
  }

  /** Running `nms` on its own output keeps every box, and may return it unchanged. */
  lemma NmsIdempotent(dets: seq<FaceDetection>, t: real, kept: seq<FaceDetection>, again: seq<FaceDetection>)
    requires IsNms(dets, t, kept) && IsNms(kept, t, again)
    ensures multiset(again) == multiset(kept)
    ensures IsNms(kept, t, kept)
  {
    NmsSound(dets, t, kept);
    NmsKeepsAll(kept, t, again);
    SeparatedKept(kept, Suppressing(t), |kept|);
    assert kept[..|kept|] == kept;
    assert IsScoreOrder(kept, kept);
  }

  ghost predicate DistinctScores(dets: seq<FaceDetection>) {
    forall i, j :: 0 <= i < j < |dets| ==> dets[i].score != dets[j].score
  }

  lemma HeadsAgree(a: seq<FaceDetection>, b: seq<FaceDetection>)
    requires a != [] && multiset(a) == multiset(b) && DistinctScores(a) && SortedByScore(a) && SortedByScore(b)
    ensures b != [] && a[0] == b[0]
  {
    assert |multiset(a)| == |a|;
    assert a[0] in multiset(b) && b[0] in multiset(a);
    var i :| 0 <= i < |b| && b[i] == a[0];
    var j :| 0 <= j < |a| && a[j] == b[0];
  }

  lemma {:induction false} OrderUnique(a: seq<FaceDetection>, b: seq<FaceDetection>)
    requires multiset(a) == multiset(b) && DistinctScores(a) && SortedByScore(a) && SortedByScore(b)
    ensures a == b
  {
    if a == [] {
      assert |multiset(b)| == 0;
    } else {
      HeadsAgree(a, b);
      TailMultiset(a);
      TailMultiset(b);
      OrderUnique(a[1..], b[1..]);
      assert a == [a[0]] + a[1..] && b == [b[0]] + b[1..];
    }
  }

  /** With pairwise distinct scores the result does not depend on the input order or the sort. */
  lemma NmsDeterministic(d1: seq<FaceDetection>, d2: seq<FaceDetection>, t: real, k1: seq<FaceDetection>,
                         k2: seq<FaceDetection>)
    requires multiset(d1) == multiset(d2) && DistinctScores(d1)
    requires IsNms(d1, t, k1) && IsNms(d2, t, k2)
    ensures k1 == k2
  {
    var r := Suppressing(t);
    var o1: seq<FaceDetection> :| IsScoreOrder(d1, o1) && k1 == Selection(o1, r);
    var o2: seq<FaceDetection> :| IsScoreOrder(d2, o2) && k2 == Selection(o2, r);
    SeparatedPermuted(d1, o1, (x: FaceDetection, y: FaceDetection) => x.score == y.score);
    assert DistinctScores(o1);
    OrderUnique(o1, o2);
  }

  /** Without that, the unstable sort decides: either of two tied, overlapping boxes may win. */
  lemma NmsTie(a: FaceDetection, b: FaceDetection, t: real)
    requires a.score == b.score && Suppressing(t)(a, b)
    ensures IsNms([a, b], t, [a]) && IsNms([a, b], t, [b])
  {
    SuppressingSymmetric(t);
    TieWinner(a, b, t);
    TieWinner(b, a, t);
    assert multiset([a, b]) == multiset([b, a]);
    assert IsScoreOrder([a, b], [a, b]) && IsScoreOrder([a, b], [b, a]);
  }

  lemma TieWinner(a: FaceDetection, b: FaceDetection, t: real)
    requires Suppressing(t)(a, b)
    ensures Selection([a, b], Suppressing(t)) == [a]
  {
    var r, s := Suppressing(t), [a, b];
    assert Survives(s, r, 0);
    assert !Survives(s, r, 1);
    assert Survivors(s, r, 1) == [a];
  }

  /** Undoing one frame, as a function of the detection. */
  function Undoing(f: Frame): FaceDetection -> FaceDetection
    requires f.scale != 0.0
  {
    (d: FaceDetection) => UndoDetection(d, f)
  }

  lemma SuppressingInvariant(t: real, f: Frame, a: FaceDetection, b: FaceDetection)
    requires f.scale > 0.0
    ensures Suppressing(t)(Undoing(f)(a), Undoing(f)(b)) == Suppressing(t)(a, b)
  {
    IouInvariant(a.bbox, b.bbox, f);
  }

  /**
   Suppressing in letterboxed coordinates and then mapping back is a valid result of
   mapping every box back first and then suppressing.
   */
  lemma NmsCommutes(dets: seq<FaceDetection>, t: real, f: Frame, kept: seq<FaceDetection>)
    requires f.scale > 0.0
    requires IsNms(dets, t, kept)
    ensures IsNms(UndoAll(dets, f), t, UndoAll(kept, f))
  {
    var r, undo := Suppressing(t), Undoing(f);
    var order: seq<FaceDetection> :| IsScoreOrder(dets, order) && kept == Selection(order, r);
    OrderMapped(dets, order, f);
    SelectionMapped(order, t, f);
    UndoAllMapped(dets, f);
    UndoAllMapped(kept, f);
  }

  lemma UndoAllMapped(ds: seq<FaceDetection>, f: Frame)
    requires f.scale != 0.0
    ensures UndoAll(ds, f) == Mapped(ds, Undoing(f))
  {}

  lemma OrderMapped(dets: seq<FaceDetection>, order: seq<FaceDetection>, f: Frame)
    requires f.scale > 0.0 && IsScoreOrder(dets, order)
    ensures IsScoreOrder(Mapped(dets, Undoing(f)), Mapped(order, Undoing(f)))
  {
    MappedMultiset(order, dets, Undoing(f));
  }

  /** For one sort order, selecting and mapping back commute on the nose. */
  lemma SelectionMapped(order: seq<FaceDetection>, t: real, f: Frame)
    requires f.scale > 0.0
    ensures Selection(Mapped(order, Undoing(f)), Suppressing(t)) == Mapped(Selection(order, Suppressing(t)), Undoing(f))
  {
    var r, undo := Suppressing(t), Undoing(f);
    forall a, b | 0 <= a < b < |order| ensures r(undo(order[a]), undo(order[b])) == r(order[a], order[b]) {
      SuppressingInvariant(t, f, order[a], order[b]);
    }
    SurvivorsMapped(order, r, r, undo, |order|);
  }

  /** And conversely: suppressing after mapping back yields nothing else. */
  lemma NmsCommutesBack(dets: seq<FaceDetection>, t: real, f: Frame, kept: seq<FaceDetection>)
    requires f.scale > 0.0
    requires IsNms(UndoAll(dets, f), t, kept)
    ensures exists inner :: IsNms(dets, t, inner) && kept == UndoAll(inner, f)
  {
    var undo, redo := Undoing(f), Redoing(f);
    var order: seq<FaceDetection> :| IsScoreOrder(UndoAll(dets, f), order) && kept == Selection(order, Suppressing(t));
    UndoAllMapped(dets, f);
    OrderMappedBack(dets, order, f);
    RoundTripMapped(order, f);
    SelectionMapped(Mapped(order, redo), t, f);
    UndoAllMapped(Selection(Mapped(order, redo), Suppressing(t)), f);
  }

  function Redoing(f: Frame): FaceDetection -> FaceDetection { (d: FaceDetection) => RedoDetection(d, f) }

  lemma RoundTripMapped(ds: seq<FaceDetection>, f: Frame)
    requires f.scale != 0.0
    ensures Mapped(Mapped(ds, Undoing(f)), Redoing(f)) == ds && Mapped(Mapped(ds, Redoing(f)), Undoing(f)) == ds
  {
    forall i | 0 <= i < |ds|
      ensures Mapped(Mapped(ds, Undoing(f)), Redoing(f))[i] == ds[i]
      ensures Mapped(Mapped(ds, Redoing(f)), Undoing(f))[i] == ds[i]
    {
      UndoRedo(ds[i], f);
    }
  }

  lemma OrderMappedBack(dets: seq<FaceDetection>, order: seq<FaceDetection>, f: Frame)
    requires f.scale > 0.0 && IsScoreOrder(Mapped(dets, Undoing(f)), order)
    ensures IsScoreOrder(dets, Mapped(order, Redoing(f)))
  {
    MappedMultiset(order, Mapped(dets, Undoing(f)), Redoing(f));
    RoundTripMapped(dets, f);
  }
}
