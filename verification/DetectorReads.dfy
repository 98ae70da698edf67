/** Which reads the decoder makes, and when they stay inside the tensors. */
module DetectorReads {
  import opened Outcomes
  import opened Arithmetic
  import opened Letterboxing
  import opened ScrfdDecode
  import opened StrideInference
  import opened TrtEngines
  import opened ScrfdDetector

  /** The engine returns, for every output binding, a tensor of the binding's volume. */
  ghost predicate Fits(out: map<string, seq<real>>, bs: seq<BindingInfo>) {
    forall k :: 0 <= k < |bs| && !bs[k].isInput ==> bs[k].name in out && |out[bs[k].name]| == bs[k].volume
  }

  /** The anchors of level `i`. */
  function Anchors(w: nat, h: nat, i: nat): nat
    requires i < 3
  {
    AnchorsFor(w, h, STRIDES[i])
  }

  /** Level `i` is skipped, or its inferred stride asks for no more anchors than it has. */
  predicate LevelSafe(w: nat, h: nat, i: nat)
    requires i < 3 && AnchorsFor(w, h, STRIDES[i]) > 0
  {
    Inferred(w, h, i) == 0 || AnchorsFor(w, h, Inferred(w, h, i)) <= Anchors(w, h, i)
  }

  lemma PositiveAnchors(w: nat, h: nat)
    requires IsInputSize(w, h)
    ensures forall i :: 0 <= i < 3 ==> AnchorsFor(w, h, STRIDES[i]) > 0
  {
    LevelAnchors(w, h);
    forall i | 0 <= i < 3 ensures AnchorsFor(w, h, STRIDES[i]) > 0 {
      if i < 2 { assert i == 0 || i == 1; }
    }
  }

  // --------------------------------------------------- what the table names

  lemma {:induction false} LastNameFiled(bs: seq<BindingInfo>, w: nat, s: nat, dim: int) returns (k: nat)
    requires LastName(bs, w, s, dim) != ""
    ensures k < |bs| && Files(bs[k], w, s, dim) && LastName(bs, w, s, dim) == bs[k].name
  {
    k := |bs| - 1;
    if !Files(bs[k], w, s, dim) {
      k := LastNameFiled(bs[..|bs| - 1], w, s, dim);
    }
  }

  lemma {:induction false} FiledIsNamed(bs: seq<BindingInfo>, w: nat, s: nat, dim: int, k: nat)
    requires k < |bs| && Files(bs[k], w, s, dim)
    requires forall l :: 0 <= l < |bs| && !bs[l].isInput ==> bs[l].name != ""
    ensures LastName(bs, w, s, dim) != ""
  {
    var front := bs[..|bs| - 1];
    if !Files(bs[|bs| - 1], w, s, dim) {
      assert forall l :: 0 <= l < |front| ==> front[l] == bs[l];
      FiledIsNamed(front, w, s, dim, k);
    }
  }

  lemma OutputVolume(b: BindingInfo, w: nat, h: nat, i: nat, dim: int)
    requires i < 3 && IsRole(dim) && IsOutput(b, w, h, i, dim) && AnchorsFor(w, h, STRIDES[i]) > 0
    ensures b.volume == Anchors(w, h, i) * dim
  {
    assert b.shape[1..] == [dim] && [dim][1..] == [];
    assert Volume([dim]) == dim * 1;
  }

  /** A tensor of `dim` values for each anchor of a level whose inferred stride is `t`. */
  ghost predicate LevelTensor(w: nat, h: nat, t: nat, dim: int, size: nat) {
    exists i :: IsLevelSize(w, h, t, dim, size, i)
  }

  ghost predicate IsLevelSize(w: nat, h: nat, t: nat, dim: int, size: nat, i: nat) {
    i < 3 && AnchorsFor(w, h, STRIDES[i]) > 0 && Inferred(w, h, i) == t && size == Anchors(w, h, i) * dim
  }

  /** Whatever the inference made of the strides, a named role holds a tensor of some level filed there. */
  lemma RoleTensor(bs: seq<BindingInfo>, w: nat, h: nat, m: map<nat, StrideBindings>, out: map<string,
                   seq<real>>, t: nat, dim: int)
    requires IsInputSize(w, h) && IsStandard(bs, w, h) && Resolves(m, bs, w) && Fits(out, bs)
    requires t in m && IsRole(dim) && m[t].Role(dim) != ""
    ensures m[t].Role(dim) in out && LevelTensor(w, h, t, dim, |out[m[t].Role(dim)]|)
  {
    PositiveAnchors(w, h);
    var k := LastNameFiled(bs, w, t, dim);
    FiledTensor(bs, w, h, t, dim, k, out);
  }

  lemma FiledTensor(bs: seq<BindingInfo>, w: nat, h: nat, t: nat, dim: int, k: nat, out: map<string, seq<real>>)
    requires IsStandard(bs, w, h) && Fits(out, bs) && IsRole(dim)
    requires forall i :: 0 <= i < 3 ==> AnchorsFor(w, h, STRIDES[i]) > 0
    requires k < |bs| && Files(bs[k], w, t, dim)
    ensures bs[k].name in out && LevelTensor(w, h, t, dim, |out[bs[k].name]|)
  {
    var i, d :| 0 <= i < 3 && IsRole(d) && IsOutput(bs[k], w, h, i, d);
    OutputVolume(bs[k], w, h, i, d);
    assert IsLevelSize(w, h, t, dim, |out[bs[k].name]|, i);
  }

  /** A level that is not skipped fills all three roles of its inferred stride. */
  lemma LevelComplete(bs: seq<BindingInfo>, w: nat, h: nat, m: map<nat, StrideBindings>, i: nat, dim: int)
    requires IsInputSize(w, h) && IsStandard(bs, w, h) && Resolves(m, bs, w) && i < 3 && IsRole(dim)
    requires AnchorsFor(w, h, STRIDES[i]) > 0 && Inferred(w, h, i) > 0
    ensures Inferred(w, h, i) in m && m[Inferred(w, h, i)].Role(dim) != ""
  {
    var t := Inferred(w, h, i);
    assert HasOutput(bs, w, h, i, dim);
    var k :| 0 <= k < |bs| && IsOutput(bs[k], w, h, i, dim);
    assert StrideOf(bs[k], w) == Some(t);
    forall l | 0 <= l < |bs| && !bs[l].isInput ensures bs[l].name != "" {
      var j, d :| 0 <= j < 3 && IsRole(d) && IsOutput(bs[l], w, h, j, d);
    }
    FiledIsNamed(bs, w, t, dim, k);
  }

  // --------------------------------------------------------------- the reads

  lemma LevelHolds(w: nat, h: nat, t: nat, dim: int, size: nat)
    requires t > 0 && dim > 0 && LevelTensor(w, h, t, dim, size)
    requires forall i :: 0 <= i < 3 && AnchorsFor(w, h, STRIDES[i]) > 0 ==> LevelSafe(w, h, i)
    ensures AnchorsFor(w, h, t) * dim <= size
  {
    var i :| IsLevelSize(w, h, t, dim, size, i);
    RowMono(AnchorsFor(w, h, t), Anchors(w, h, i), dim);
  }

  lemma SafeReadable(bs: seq<BindingInfo>, job: Job, t: nat)
    requires IsInputSize(job.w, job.h) && IsStandard(bs, job.w, job.h) && Resolves(job.strides, bs, job.w)
    requires Fits(job.out, bs)
    requires forall i :: 0 <= i < 3 && AnchorsFor(job.w, job.h, STRIDES[i]) > 0 ==> LevelSafe(job.w, job.h, i)
    requires t in job.strides
    ensures job.Readable(t)
  {
    if job.Complete(t) {
      RoleTensor(bs, job.w, job.h, job.strides, job.out, t, 1);
      RoleTensor(bs, job.w, job.h, job.strides, job.out, t, 4);
      RoleTensor(bs, job.w, job.h, job.strides, job.out, t, 10);
      StridePositive(bs, job.w, job.strides, t);
      var sb := job.strides[t];
      LevelHolds(job.w, job.h, t, 1, |job.out[sb.score]|);
      LevelHolds(job.w, job.h, t, 4, |job.out[sb.bbox]|);
      LevelHolds(job.w, job.h, t, 10, |job.out[sb.kps]|);
    }
  }

  lemma StridePositive(bs: seq<BindingInfo>, w: nat, m: map<nat, StrideBindings>, t: nat)
    requires Resolves(m, bs, w) && t in m
    ensures t > 0
  {
    var k :| 0 <= k < |bs| && StrideOf(bs[k], w) == Some(t);
  }

  /** Two levels meet at one inferred stride only where both are read past their end. */
  lemma MetLevels(w: nat, h: nat, i: nat, j: nat, t: nat)
    requires IsInputSize(w, h) && i < 3 && j < 3 && i != j && t > 0
    requires forall l :: 0 <= l < 3 ==> AnchorsFor(w, h, STRIDES[l]) > 0
    requires Inferred(w, h, i) == t == Inferred(w, h, j)
    ensures AnchorsFor(w, h, t) > Anchors(w, h, i) && AnchorsFor(w, h, t) > Anchors(w, h, j)
  {
    LevelAnchors(w, h);
    var few, many := if i < j then j else i, if i < j then i else j;
    SharedStride(w, Anchors(w, h, few), Anchors(w, h, many), t);
    FinestOverruns(w, h, i);
    FinestOverruns(w, h, j);
  }

  lemma ReadableSafe(bs: seq<BindingInfo>, job: Job, i: nat)
    requires IsInputSize(job.w, job.h) && IsStandard(bs, job.w, job.h) && Resolves(job.strides, bs, job.w)
    requires Fits(job.out, bs)
    requires i < 3 && job.Valid()
    ensures AnchorsFor(job.w, job.h, STRIDES[i]) > 0 && LevelSafe(job.w, job.h, i)
  {
    PositiveAnchors(job.w, job.h);
    var t := Inferred(job.w, job.h, i);
    if t > 0 {
      LevelComplete(bs, job.w, job.h, job.strides, i, 1);
      LevelComplete(bs, job.w, job.h, job.strides, i, 4);
      LevelComplete(bs, job.w, job.h, job.strides, i, 10);
      assert job.Readable(t) && job.Complete(t);
      RoleTensor(bs, job.w, job.h, job.strides, job.out, t, 1);
      var size := |job.out[job.strides[t].score]|;
      var j :| IsLevelSize(job.w, job.h, t, 1, size, j);
      assert AnchorsFor(job.w, job.h, t) <= Anchors(job.w, job.h, j);
      if i != j { MetLevels(job.w, job.h, i, j, t); }
    }
  }

  /**
   For every size the configuration accepts and any standard export, recovered or not: all
   reads stay inside the tensors if and only if no level's inferred stride asks for more
   anchors than the level has.
   */
  lemma ReadsInBounds(bs: seq<BindingInfo>, job: Job)
    requires IsInputSize(job.w, job.h) && IsStandard(bs, job.w, job.h) && Resolves(job.strides, bs, job.w)
    requires Fits(job.out, bs)
    ensures forall i :: 0 <= i < 3 ==> AnchorsFor(job.w, job.h, STRIDES[i]) > 0
    ensures job.Valid() <==> forall i :: 0 <= i < 3 ==> LevelSafe(job.w, job.h, i)
  {
    PositiveAnchors(job.w, job.h);
    if forall i :: 0 <= i < 3 ==> LevelSafe(job.w, job.h, i) {
      forall t | t in job.strides ensures job.Readable(t) {
        SafeReadable(bs, job, t);
      }
    }
    if job.Valid() {
      forall i | 0 <= i < 3 ensures LevelSafe(job.w, job.h, i) {
        ReadableSafe(bs, job, i);
      }
    }
  }

  /** Inputs at least as wide as high are read in bounds, even where every stride is misread. */
  lemma WideReads(bs: seq<BindingInfo>, job: Job)
    requires IsInputSize(job.w, job.h) && IsStandard(bs, job.w, job.h) && Resolves(job.strides, bs, job.w)
    requires Fits(job.out, bs)
    requires job.w >= job.h
    ensures job.Valid()
  {
    ReadsInBounds(bs, job);
    forall i | 0 <= i < 3 ensures LevelSafe(job.w, job.h, i) {
      WideLevel(job.w, job.h, i);
    }
  }

  lemma WideLevel(w: nat, h: nat, i: nat)
    requires IsInputSize(w, h) && w >= h && i < 3
    ensures AnchorsFor(w, h, STRIDES[i]) > 0 && LevelSafe(w, h, i)
  {
    var s := STRIDES[i];
    assert s == 8 || s == 16 || s == 32;
    WideInferred(s, 32 / s, w / 32, h / 32);
    CoarserCount(w, h, s, Inferred(w, h, i));
  }

  /** A 480x640 input, which the configuration accepts, reads 12376 anchors from tensors of 9600. */
  lemma TallOverreads(bs: seq<BindingInfo>, job: Job)
    requires job.w == 480 && job.h == 640
    requires IsStandard(bs, job.w, job.h) && Resolves(job.strides, bs, job.w) && Fits(job.out, bs)
    ensures Anchors(480, 640, 0) == 9600 && Inferred(480, 640, 0) == 7 && AnchorsFor(480, 640, 7) == 12376
    ensures !job.Valid()
  {
    TallMisread();
    ReadsInBounds(bs, job);
    assert !LevelSafe(480, 640, 0);
  }

  // -------------------------------------------------- recovered input sizes

  /** Where strides are recovered, all three are decoded, each from its own tensors. */
  lemma StandardReadable(bs: seq<BindingInfo>, job: Job)
    requires IsInputSize(job.w, job.h) && Recovers(job.w, job.h)
    requires IsStandard(bs, job.w, job.h) && Resolves(job.strides, bs, job.w) && Fits(job.out, bs)
    ensures job.strides.Keys == {8, 16, 32} && job.Valid()
    ensures job.Complete(8) && job.Complete(16) && job.Complete(32)
  {
    StandardStrides(bs, job.w, job.h, job.strides);
    ReadsInBounds(bs, job);
    StrideComplete(bs, job, 0);
    StrideComplete(bs, job, 1);
    StrideComplete(bs, job, 2);
    assert STRIDES[0] == 8 && STRIDES[1] == 16 && STRIDES[2] == 32;
  }

  lemma StrideComplete(bs: seq<BindingInfo>, job: Job, i: nat)
    requires IsInputSize(job.w, job.h) && Recovers(job.w, job.h) && IsStandard(bs, job.w, job.h)
    requires Resolves(job.strides, bs, job.w) && i < 3
    ensures STRIDES[i] in job.strides && job.Complete(STRIDES[i])
  {
    LevelComplete(bs, job.w, job.h, job.strides, i, 1);
    LevelComplete(bs, job.w, job.h, job.strides, i, 4);
    LevelComplete(bs, job.w, job.h, job.strides, i, 10);
  }

  /**
   A detector with a square input that is a multiple of 32, on a standard export: every image
   is read in bounds, all three strides are decoded, and at most 42 raw detections come from
   every 32x32 block.
   */
  lemma SquareDetectorReads(d: Detector, bs: seq<BindingInfo>, side: nat, out: map<string, seq<real>>, f: Frame)
    requires side > 0 && d.cfg.inputWidth == d.cfg.inputHeight == 32 * side && f.scale != 0.0
    requires Resolves(d.strideBindings, bs, d.cfg.inputWidth) && IsStandard(bs, d.cfg.inputWidth, d.cfg.inputHeight)
    requires Fits(out, bs)
    ensures var job := d.JobFor(out);
            && job.Valid() && job.strides.Keys == {8, 16, 32}
            && job.Complete(8) && job.Complete(16) && job.Complete(32)
            && |job.Raw({8, 16, 32}, f)| <= 42 * (side * side)
  {
    AllRecovered(side, side);
    StandardReadable(bs, d.JobFor(out));
    RawBound(d.JobFor(out), side, side, f);
  }
}
