/** The detector: which tensor belongs to which stride, and the per-image composition. */
module ScrfdDetector {
  import opened Outcomes
  import opened Letterboxing
  import opened PlanarImages
  import opened Detections
  import opened BoxOverlap
  import opened Nms
  import opened ScrfdDecode
  import opened StrideInference
  import opened TrtEngines

  // ----------------------------------------------------- resolving bindings

  datatype DetectionConfig = DetectionConfig(inputWidth: nat, inputHeight: nat, confidence: real, nmsIou: real)

  /** The output tensors of one stride; an empty name is a tensor not seen. */
  datatype StrideBindings = StrideBindings(score: string, bbox: string, kps: string) {
    function Role(dim: int): string { if dim == 1 then score else if dim == 4 then bbox else kps }
  }

  const NO_BINDINGS := StrideBindings("", "", "")

  /** The trailing dimensions that name a role. */
  predicate IsRole(dim: int) { dim == 1 || dim == 4 || dim == 10 }

  function Assigned(sb: StrideBindings, last: int, name: string): StrideBindings {
    if last == 1 then sb.(score := name)
    else if last == 4 then sb.(bbox := name)
    else if last == 10 then sb.(kps := name)
    else sb
  }

  /** The stride a binding is filed under: none for inputs, scalars, and dynamic or oversized counts. */
  function StrideOf(b: BindingInfo, w: nat): Option<nat> {
    if b.isInput || b.shape == [] || b.shape[0] <= 0 || InferStride(w, b.shape[0]) == 0 then None
    else Some(InferStride(w, b.shape[0]))
  }

  /** The binding is filed under stride `s` with trailing dimension `dim`. */
  predicate Files(b: BindingInfo, w: nat, s: nat, dim: int) {
    StrideOf(b, w) == Some(s) && b.shape[|b.shape| - 1] == dim
  }

  /** The last binding filed under a stride and role, or an empty name. */
  function LastName(bs: seq<BindingInfo>, w: nat, s: nat, dim: int): string {
    if bs == [] then ""
    else if Files(bs[|bs| - 1], w, s, dim) then bs[|bs| - 1].name
    else LastName(bs[..|bs| - 1], w, s, dim)
  }

  /** A table of tensors per stride agrees with a list of bindings. */
  ghost predicate Resolves(m: map<nat, StrideBindings>, bs: seq<BindingInfo>, w: nat) {
    && (forall s :: s in m <==> exists i :: 0 <= i < |bs| && StrideOf(bs[i], w) == Some(s))
    && (forall s :: s in m ==>
        m[s] == StrideBindings(LastName(bs, w, s, 1), LastName(bs, w, s, 4), LastName(bs, w, s, 10)))
  }

  lemma LastNameNone(bs: seq<BindingInfo>, w: nat, s: nat, dim: int)
    requires forall i :: 0 <= i < |bs| ==> StrideOf(bs[i], w) != Some(s)
    ensures LastName(bs, w, s, dim) == ""
  {}

  lemma LastNameAppend(bs: seq<BindingInfo>, b: BindingInfo, w: nat, s: nat, dim: int)
    ensures LastName(bs + [b], w, s, dim) == if Files(b, w, s, dim) then b.name else LastName(bs, w, s, dim)
  {
    assert (bs + [b])[..|bs|] == bs;
  }

  lemma StrideAppend(bs: seq<BindingInfo>, b: BindingInfo, w: nat, s: nat)
    ensures (exists i :: 0 <= i < |bs + [b]| && StrideOf((bs + [b])[i], w) == Some(s))
      <==> StrideOf(b, w) == Some(s) || exists i :: 0 <= i < |bs| && StrideOf(bs[i], w) == Some(s)
  {
    assert (bs + [b])[|bs|] == b;
    assert forall i :: 0 <= i < |bs| ==> (bs + [b])[i] == bs[i];
  }

  /** The table after one more binding. */
  function Resolved(m: map<nat, StrideBindings>, b: BindingInfo, w: nat): map<nat, StrideBindings> {
    match StrideOf(b, w)
    case None => m
    case Some(s) => m[s := Assigned(if s in m then m[s] else NO_BINDINGS, b.shape[|b.shape| - 1], b.name)]
  }

  lemma ResolveStep(m: map<nat, StrideBindings>, bs: seq<BindingInfo>, b: BindingInfo, w: nat)
    requires Resolves(m, bs, w)
    ensures Resolves(Resolved(m, b, w), bs + [b], w)
  {
    var bs', m' := bs + [b], Resolved(m, b, w);
    forall s: nat ensures s in m' <==> exists i :: 0 <= i < |bs'| && StrideOf(bs'[i], w) == Some(s) {
      StrideAppend(bs, b, w, s);
    }
    forall s | s in m'
      ensures m'[s] == StrideBindings(LastName(bs', w, s, 1), LastName(bs', w, s, 4), LastName(bs', w, s, 10))
    {
      if s !in m {
        LastNameNone(bs, w, s, 1);
        LastNameNone(bs, w, s, 4);
        LastNameNone(bs, w, s, 10);
      }
      LastNameAppend(bs, b, w, s, 1);
      LastNameAppend(bs, b, w, s, 4);
      LastNameAppend(bs, b, w, s, 10);
    }
  }

  /** An output with a positive count, from which this positive stride is inferred, and this last dimension. */
  predicate IsFiled(b: BindingInfo, w: nat, s: nat, dim: int) {
    && !b.isInput && b.shape != [] && b.shape[0] > 0 && s > 0
    && IsStride(w, b.shape[0], s) && b.shape[|b.shape| - 1] == dim
  }

  /** Binding `k` is the last one filed there. */
  predicate IsLastFiled(bs: seq<BindingInfo>, w: nat, s: nat, dim: int, k: nat) {
    k < |bs| && IsFiled(bs[k], w, s, dim) && forall l :: k < l < |bs| ==> !IsFiled(bs[l], w, s, dim)
  }

  lemma FilesMeans(b: BindingInfo, w: nat, s: nat, dim: int)
    ensures Files(b, w, s, dim) <==> IsFiled(b, w, s, dim)
  {
    if !b.isInput && b.shape != [] && b.shape[0] > 0 && IsStride(w, b.shape[0], s) {
      StrideUnique(w, b.shape[0], s, InferStride(w, b.shape[0]));
    }
  }

  lemma {:induction false} LastNameMeans(bs: seq<BindingInfo>, w: nat, s: nat, dim: int, k: nat)
    requires IsLastFiled(bs, w, s, dim, k)
    ensures LastName(bs, w, s, dim) == bs[k].name
  {
    FilesMeans(bs[|bs| - 1], w, s, dim);
    if k < |bs| - 1 {
      assert forall l :: 0 <= l < |bs| - 1 ==> bs[..|bs| - 1][l] == bs[l];
      LastNameMeans(bs[..|bs| - 1], w, s, dim, k);
    }
  }

  /** What the table says: under each stride, the last score, box and landmark outputs filed there. */
  lemma TableMeans(m: map<nat, StrideBindings>, bs: seq<BindingInfo>, w: nat, s: nat, k: nat)
    requires Resolves(m, bs, w) && s in m
    ensures IsLastFiled(bs, w, s, 1, k) ==> m[s].score == bs[k].name
    ensures IsLastFiled(bs, w, s, 4, k) ==> m[s].bbox == bs[k].name
    ensures IsLastFiled(bs, w, s, 10, k) ==> m[s].kps == bs[k].name
  {
    if IsLastFiled(bs, w, s, 1, k) { LastNameMeans(bs, w, s, 1, k); }
    if IsLastFiled(bs, w, s, 4, k) { LastNameMeans(bs, w, s, 4, k); }
    if IsLastFiled(bs, w, s, 10, k) { LastNameMeans(bs, w, s, 10, k); }
  }

  /** The loop of `resolve_bindings_`. */
  method FileBindings(bindings: seq<BindingInfo>, inputWidth: nat) returns (strideBindings: map<nat, StrideBindings>)
    ensures Resolves(strideBindings, bindings, inputWidth)
  {
    strideBindings := map[];
    for i := 0 to |bindings|
      invariant Resolves(strideBindings, bindings[..i], inputWidth)
    {
      var b := bindings[i];
      ResolveStep(strideBindings, bindings[..i], b, inputWidth);
      assert bindings[..i + 1] == bindings[..i] + [b];
      if b.isInput || |b.shape| == 0 {
        continue;
      }
      var last := b.shape[|b.shape| - 1];
      var n := b.shape[0];
      if n <= 0 {
        continue;
      }
      var stride := InferStride(inputWidth, n);
      if stride <= 0 {
        continue;
      }
      var sb := if stride in strideBindings then strideBindings[stride] else NO_BINDINGS;
      if last == 1 {
        sb := sb.(score := b.name);
      } else if last == 4 {
        sb := sb.(bbox := b.name);
      } else if last == 10 {
        sb := sb.(kps := b.name);
      }
      strideBindings := strideBindings[stride := sb];
    }
    assert bindings[..|bindings|] == bindings;
  }

  /** The shape that the first binding is pinned to. */
  function InputShape(cfg: DetectionConfig): seq<int> { [1, 3, cfg.inputHeight, cfg.inputWidth] }

  /** The bindings once the first one is pinned. */
  function Pinned(bindings: seq<BindingInfo>, cfg: DetectionConfig): seq<BindingInfo>
    requires bindings != []
  {
    bindings[0 := Reshaped(bindings[0], InputShape(cfg))]
  }

  /** Why construction fails, if it does: no binding to pin, the shape refused, or no memory for it. */
  function SetupFailure(bindings: seq<BindingInfo>, cfg: DetectionConfig, accepted: bool, ok: bool): Option<Exception> {
    if bindings == [] then Some(Overread)
    else if !accepted || (Pinned(bindings, cfg)[0].Bytes() > 0 && !ok) then Some(RuntimeError)
    else None
  }

  /**
   `resolve_bindings_`: pins the input and builds the table. `accepted` is the context's answer
   to the shape, `ok` that of `cudaMalloc`.
   */
  method ResolveBindings(engine: TrtEngine, cfg: DetectionConfig, accepted: bool, ok: bool)
    returns (r: Result<(string, map<nat, StrideBindings>)>)
    requires engine.impl.Separate()
    modifies engine, engine.impl, engine.impl.buffers.Values, engine.impl.device
    ensures r.Err? <==> old(SetupFailure(engine.bindings, cfg, accepted, ok)).Some?
    ensures r.Err? ==> old(SetupFailure(engine.bindings, cfg, accepted, ok)) == Some(r.error)
    ensures r.Ok? ==>
      && engine.bindings == Pinned(old(engine.bindings), cfg)
      && engine.bindings[0].shape == [1, 3, cfg.inputHeight, cfg.inputWidth]
      && r.value.0 == engine.bindings[0].name
      && Resolves(r.value.1, engine.bindings, cfg.inputWidth)
  {
    if |engine.bindings| == 0 {
      return Err(Overread);
    }
    var inputName := engine.bindings[0].name;
    assert IndexOf(engine.bindings, inputName) == 0;
    var pinned, _ := engine.SetInputShape(inputName, InputShape(cfg), accepted, ok);
    if pinned.Err? {
      return Err(pinned.error);
    }
    var table := FileBindings(engine.bindings, cfg.inputWidth);
    return Ok((inputName, table));
  }

  // --------------------------------------------------------- standard exports

  /** Binding `k` is the output of stride `STRIDES[i]` with trailing dimension `dim`. */
  predicate IsOutput(b: BindingInfo, w: nat, h: nat, i: nat, dim: int)
    requires i < 3
  {
    !b.isInput && b.shape == [AnchorsFor(w, h, STRIDES[i]), dim] && b.volume == Volume(b.shape) && b.name != ""
  }

  ghost predicate HasOutput(bs: seq<BindingInfo>, w: nat, h: nat, i: nat, dim: int)
    requires i < 3
  {
    exists k :: 0 <= k < |bs| && IsOutput(bs[k], w, h, i, dim)
  }

  /**
   The standard export: after the input binding, exactly one (N, 1), one (N, 4) and one
   (N, 10) output per stride, under any distinct names and in any order.
   */
  ghost predicate IsStandard(bs: seq<BindingInfo>, w: nat, h: nat) {
    && bs != [] && bs[0].isInput
    && DistinctNames(bs)
    && (forall k :: 0 <= k < |bs| && !bs[k].isInput ==>
        exists i, dim :: 0 <= i < 3 && IsRole(dim) && IsOutput(bs[k], w, h, i, dim))
    && (forall i, dim {:trigger HasOutput(bs, w, h, i, dim)} ::
        0 <= i < 3 && IsRole(dim) ==> HasOutput(bs, w, h, i, dim))
    && (forall k, l :: 0 <= k < l < |bs| && !bs[k].isInput && !bs[l].isInput ==> bs[k].shape != bs[l].shape)
  }

  /** Stride inference is right for this input size. */
  ghost predicate Recovers(w: nat, h: nat) {
    forall i :: 0 <= i < 3 ==>
      AnchorsFor(w, h, STRIDES[i]) > 0 && InferStride(w, AnchorsFor(w, h, STRIDES[i])) == STRIDES[i]
  }

  lemma {:induction false} LastNameAt(bs: seq<BindingInfo>, w: nat, s: nat, dim: int, k: nat)
    requires k < |bs| && Files(bs[k], w, s, dim)
    requires forall l :: k < l < |bs| ==> !Files(bs[l], w, s, dim)
    ensures LastName(bs, w, s, dim) == bs[k].name
  {
    if k < |bs| - 1 {
      assert forall l :: k < l < |bs| - 1 ==> bs[..|bs| - 1][l] == bs[l];
      LastNameAt(bs[..|bs| - 1], w, s, dim, k);
    }
  }

  /** In a standard export, an output is filed under its own stride and role and no other output is. */
  lemma FiledOnce(bs: seq<BindingInfo>, w: nat, h: nat, k: nat, l: nat, i: nat, dim: int)
    requires IsStandard(bs, w, h) && Recovers(w, h) && i < 3 && IsRole(dim)
    requires k < |bs| && IsOutput(bs[k], w, h, i, dim)
    requires l < |bs| && Files(bs[l], w, STRIDES[i], dim)
    ensures k == l
  {
    var j, d :| 0 <= j < 3 && IsRole(d) && IsOutput(bs[l], w, h, j, d);
    assert STRIDES[j] == STRIDES[i];
    assert j == i;
    assert bs[k].shape == bs[l].shape;
  }

  lemma OutputStride(b: BindingInfo, w: nat, h: nat, i: nat, dim: int)
    requires Recovers(w, h) && i < 3 && IsOutput(b, w, h, i, dim)
    ensures StrideOf(b, w) == Some(STRIDES[i]) && STRIDES[i] in {8, 16, 32}
  {
    assert STRIDES[0] == 8 && STRIDES[1] == 16 && STRIDES[2] == 32;
  }

  lemma StrideListed(bs: seq<BindingInfo>, w: nat, h: nat, l: nat, s: nat)
    requires IsStandard(bs, w, h) && Recovers(w, h) && l < |bs| && StrideOf(bs[l], w) == Some(s)
    ensures s == 8 || s == 16 || s == 32
  {
    var j, d :| 0 <= j < 3 && IsRole(d) && IsOutput(bs[l], w, h, j, d);
    OutputStride(bs[l], w, h, j, d);
  }

  lemma StridesListed(bs: seq<BindingInfo>, w: nat, h: nat, m: map<nat, StrideBindings>, s: nat)
    requires IsStandard(bs, w, h) && Recovers(w, h) && Resolves(m, bs, w) && s in m
    ensures s == 8 || s == 16 || s == 32
  {
    var l :| 0 <= l < |bs| && StrideOf(bs[l], w) == Some(s);
    StrideListed(bs, w, h, l, s);
  }

  lemma KeysOf(m: map<nat, StrideBindings>)
    requires STRIDES[0] in m && STRIDES[1] in m && STRIDES[2] in m
    requires forall s :: s in m ==> s == 8 || s == 16 || s == 32
    ensures m.Keys == {8, 16, 32}
  {
    assert STRIDES[0] == 8 && STRIDES[1] == 16 && STRIDES[2] == 32;
  }

  lemma StandardStrides(bs: seq<BindingInfo>, w: nat, h: nat, m: map<nat, StrideBindings>)
    requires IsStandard(bs, w, h) && Recovers(w, h) && Resolves(m, bs, w)
    ensures m.Keys == {8, 16, 32}
  {
    forall s | s in m ensures s == 8 || s == 16 || s == 32 {
      StridesListed(bs, w, h, m, s);
    }
    StrideSeen(bs, w, h, m, 0);
    StrideSeen(bs, w, h, m, 1);
    StrideSeen(bs, w, h, m, 2);
    KeysOf(m);
  }

  lemma StrideSeen(bs: seq<BindingInfo>, w: nat, h: nat, m: map<nat, StrideBindings>, i: nat)
    requires IsStandard(bs, w, h) && Recovers(w, h) && Resolves(m, bs, w) && i < 3
    ensures STRIDES[i] in m
  {
    assert IsRole(1) && HasOutput(bs, w, h, i, 1);
    var k :| 0 <= k < |bs| && IsOutput(bs[k], w, h, i, 1);
    OutputStride(bs[k], w, h, i, 1);
  }

  lemma StandardRole(bs: seq<BindingInfo>, w: nat, h: nat, k: nat, i: nat, dim: int)
    requires IsStandard(bs, w, h) && Recovers(w, h)
    requires k < |bs| && i < 3 && IsRole(dim) && IsOutput(bs[k], w, h, i, dim)
    ensures LastName(bs, w, STRIDES[i], dim) == bs[k].name
  {
    assert Files(bs[k], w, STRIDES[i], dim);
    forall l | k < l < |bs| ensures !Files(bs[l], w, STRIDES[i], dim) {
      if Files(bs[l], w, STRIDES[i], dim) { FiledOnce(bs, w, h, k, l, i, dim); }
    }
    LastNameAt(bs, w, STRIDES[i], dim, k);
  }

  /**
   For a standard export of an input size whose strides are recovered, the table holds exactly
   the strides 8, 16 and 32, and each role of each stride names the tensor of that shape,
   whatever the names and the order.
   */
  lemma StandardResolved(bs: seq<BindingInfo>, w: nat, h: nat, m: map<nat, StrideBindings>, k: nat, i: nat, dim: int)
    requires IsStandard(bs, w, h) && Recovers(w, h) && Resolves(m, bs, w)
    requires k < |bs| && i < 3 && IsRole(dim) && IsOutput(bs[k], w, h, i, dim)
    ensures m.Keys == {8, 16, 32}
    ensures m[STRIDES[i]].Role(dim) == bs[k].name
  {
    StandardStrides(bs, w, h, m);
    StandardRole(bs, w, h, k, i, dim);
    assert STRIDES[0] == 8 && STRIDES[1] == 16 && STRIDES[2] == 32;
  }

  // --------------------------------------------------------------- detection

  /** Everything about a frame that the per-stride decoding reads. */
  datatype Job = Job(w: nat, h: nat, confidence: real, strides: map<nat, StrideBindings>, out: map<string, seq<real>>) {
    function GridOf(s: nat): Grid { Grid(s, w, h, ANCHORS_PER_LOCATION) }

    predicate Complete(s: nat)
      requires s in strides
    {
      strides[s].score != "" && strides[s].bbox != "" && strides[s].kps != ""
    }

    /** Decoding stride `s` reads tensors that exist, inside their bounds. */
    predicate Readable(s: nat)
      requires s in strides
    {
      var sb := strides[s];
      Complete(s) ==>
        && s > 0
        && sb.score in out && sb.bbox in out && sb.kps in out
        && Tensors(out[sb.score], out[sb.bbox], out[sb.kps]).Holds(GridOf(s).Count())
    }

    predicate Valid() { forall s :: s in strides ==> Readable(s) }

    function StrideDetections(s: nat, f: Frame): seq<FaceDetection>
      requires s in strides && Readable(s) && f.scale != 0.0
    {
      var sb := strides[s];
      if !Complete(s) then []
      else Decode(GridOf(s), Tensors(out[sb.score], out[sb.bbox], out[sb.kps]), confidence, f)
    }

    /** The detections of the given strides, in ascending order of stride. */
    ghost function Raw(keys: set<nat>, f: Frame): seq<FaceDetection>
      requires Valid() && keys <= strides.Keys && f.scale != 0.0
      decreases keys
    {
      if keys == {} then []
      else
        var s := Smallest(keys);
        StrideDetections(s, f) + Raw(keys - {s}, f)
    }
  }

  predicate IsSmallest(keys: set<nat>, s: nat) { s in keys && forall k :: k in keys ==> s <= k }

  lemma {:induction false} SmallestExists(keys: set<nat>)
    requires keys != {}
    ensures exists s :: IsSmallest(keys, s)
    decreases keys
  {
    var a :| a in keys;
    if keys == {a} {
      assert IsSmallest(keys, a);
    } else {
      SmallestExists(keys - {a});
      var b :| IsSmallest(keys - {a}, b);
      var m := if a <= b then a else b;
      forall k | k in keys ensures m <= k {
        if k != a { assert k in keys - {a}; }
      }
      assert IsSmallest(keys, m);
    }
  }

  ghost function Smallest(keys: set<nat>): (s: nat)
    requires keys != {}
    ensures IsSmallest(keys, s)
  {
    SmallestExists(keys);
    var s :| IsSmallest(keys, s);
    s
  }

  /** One round of the loop over strides. */
  method DecodeNext(job: Job, stride: nat, f: Frame, out: Vector<FaceDetection>)
    requires stride in job.strides && job.Readable(stride) && f.scale != 0.0
    modifies out
    ensures out.items == old(out.items) + job.StrideDetections(stride, f)
  {
    var names := job.strides[stride];
    if names.score == "" || names.bbox == "" || names.kps == "" {
      return;
    }
    var scores, bboxes, kps := job.out[names.score], job.out[names.bbox], job.out[names.kps];
    var grid := Grid(stride, job.w, job.h, ANCHORS_PER_LOCATION);
    DecodeStride(grid, Tensors(scores, bboxes, kps), job.confidence, f, out);
  }

  lemma RawStep(job: Job, keys: set<nat>, s: nat, f: Frame, before: seq<FaceDetection>, after: seq<FaceDetection>)
    requires job.Valid() && keys <= job.strides.Keys && f.scale != 0.0 && IsSmallest(keys, s)
    requires after == before + job.StrideDetections(s, f)
    ensures after + job.Raw(keys - {s}, f) == before + job.Raw(keys, f)
  {
    assert Smallest(keys) == s;
    assert job.Raw(keys, f) == job.StrideDetections(s, f) + job.Raw(keys - {s}, f);
  }

  /** The loop over `stride_bindings_`, an ordered map; the source does not look for the overread. */
  method DecodeAll(job: Job, f: Frame) returns (r: Result<seq<FaceDetection>>)
    requires f.scale != 0.0
    ensures r.Ok? <==> job.Valid()
    ensures r.Err? ==> r.error == Overread
    ensures r.Ok? ==> r.value == job.Raw(job.strides.Keys, f)
  {
    if !job.Valid() {
      return Err(Overread);
    }
    var out := new Vector<FaceDetection>();
    var left := job.strides.Keys;
    while left != {}
      invariant left <= job.strides.Keys
      invariant out.items + job.Raw(left, f) == job.Raw(job.strides.Keys, f)
      decreases left
    {
      SmallestExists(left);
      var stride :| stride in left && IsSmallest(left, stride);
      ghost var before := out.items;
      DecodeNext(job, stride, f, out);
      RawStep(job, left, stride, f, before, out.items);
      left := left - {stride};
    }
    return Ok(out.items);
  }

  /** Decoding every stride into the original frame is decoding in the letterbox, then mapping back. */
  lemma {:induction false} RawFrame(job: Job, keys: set<nat>, f: Frame)
    requires job.Valid() && keys <= job.strides.Keys && f.scale > 0.0
    ensures job.Raw(keys, f) == UndoAll(job.Raw(keys, IDENTITY_FRAME), f)
    decreases keys
  {
    if keys != {} {
      var s := Smallest(keys);
      RawFrame(job, keys - {s}, f);
      StrideFrame(job, s, f);
      var a, b := job.StrideDetections(s, IDENTITY_FRAME), job.Raw(keys - {s}, IDENTITY_FRAME);
      assert UndoAll(a + b, f) == UndoAll(a, f) + UndoAll(b, f);
    }
  }

  lemma StrideFrame(job: Job, s: nat, f: Frame)
    requires s in job.strides && job.Readable(s) && f.scale > 0.0
    ensures job.StrideDetections(s, f) == UndoAll(job.StrideDetections(s, IDENTITY_FRAME), f)
  {
    if job.Complete(s) {
      var sb := job.strides[s];
      var ts := Tensors(job.out[sb.score], job.out[sb.bbox], job.out[sb.kps]);
      DecodeFrame(job.GridOf(s), ts, job.confidence, f, job.GridOf(s).Count());
    }
  }

  /**
   The whole post-processing commutes with the change of frame: what can be returned in
   original coordinates is exactly what can be returned in letterboxed coordinates, mapped back.
   */
  lemma DetectionFrames(job: Job, t: real, f: Frame, kept: seq<FaceDetection>)
    requires job.Valid() && f.scale > 0.0
    ensures IsNms(job.Raw(job.strides.Keys, f), t, kept) <==>
      exists inner :: IsNms(job.Raw(job.strides.Keys, IDENTITY_FRAME), t, inner) && kept == UndoAll(inner, f)
  {
    var raw := job.Raw(job.strides.Keys, IDENTITY_FRAME);
    RawFrame(job, job.strides.Keys, f);
    if IsNms(UndoAll(raw, f), t, kept) {
      NmsCommutesBack(raw, t, f, kept);
    }
    if exists inner :: IsNms(raw, t, inner) && kept == UndoAll(inner, f) {
      var inner :| IsNms(raw, t, inner) && kept == UndoAll(inner, f);
      NmsCommutes(raw, t, f, inner);
    }
  }

  // ------------------------------------------------------------ how many

  /** All strides together report at most 42 detections for every 32x32 block of the canvas. */
  lemma RawBound(job: Job, cols: nat, rows: nat, f: Frame)
    requires job.w == 32 * cols && job.h == 32 * rows && job.strides.Keys == {8, 16, 32} && job.Valid()
    requires f.scale != 0.0
    ensures |job.Raw({8, 16, 32}, f)| <= 42 * (cols * rows)
  {
    var raw := job.Raw({8, 16, 32}, f);
    RawStep(job, {8, 16, 32}, 8, f, [], job.StrideDetections(8, f));
    assert {8, 16, 32} - {8} == {16, 32};
    RawStep(job, {16, 32}, 16, f, [], job.StrideDetections(16, f));
    assert {16, 32} - {16} == {32};
    RawStep(job, {32}, 32, f, [], job.StrideDetections(32, f));
    assert {32} - {32} == {};
    StrideBound(job, 8, f);
    StrideBound(job, 16, f);
    StrideBound(job, 32, f);
    TotalForMultiplesOf32(cols, rows);
    CountSum(job);
  }

  lemma CountSum(job: Job)
    ensures CountThrough(job.w, job.h, ANCHORS_PER_LOCATION, 3)
      == job.GridOf(8).Count() + job.GridOf(16).Count() + job.GridOf(32).Count()
  {
    assert STRIDES[0] == 8 && STRIDES[1] == 16 && STRIDES[2] == 32;
    assert CountThrough(job.w, job.h, 2, 1) == job.GridOf(8).Count();
    assert CountThrough(job.w, job.h, 2, 2) == job.GridOf(8).Count() + job.GridOf(16).Count();
  }

  lemma StrideBound(job: Job, s: nat, f: Frame)
    requires s > 0 && s in job.strides && job.Readable(s) && f.scale != 0.0
    ensures |job.StrideDetections(s, f)| <= job.GridOf(s).Count()
  {
    if job.Complete(s) {
      var sb := job.strides[s];
      var ts := Tensors(job.out[sb.score], job.out[sb.bbox], job.out[sb.kps]);
      DecodedBound(job.GridOf(s), ts, job.confidence, f, job.GridOf(s).Count());
    }
  }

  // ---------------------------------------------------------------- detector

  /** The engine's answer for one planar input, by output name, or its exception. */
  type Inference = seq<real> -> Result<map<string, seq<real>>>

  class Detector {
    const cfg: DetectionConfig
    const inputName: string
    const strideBindings: map<nat, StrideBindings>
    const inputScratch: array<real>

    ghost predicate Valid() {
      inputScratch.Length == 3 * (cfg.inputHeight * cfg.inputWidth)
    }

    constructor (cfg: DetectionConfig, inputName: string, strideBindings: map<nat, StrideBindings>)
      ensures Valid() && fresh(inputScratch)
      ensures this.cfg == cfg && this.inputName == inputName && this.strideBindings == strideBindings
    {
      this.cfg := cfg;
      this.inputName := inputName;
      this.strideBindings := strideBindings;
      inputScratch := new real[3 * (cfg.inputHeight * cfg.inputWidth)];
    }

    function JobFor(out: map<string, seq<real>>): Job {
      Job(cfg.inputWidth, cfg.inputHeight, cfg.confidence, strideBindings, out)
    }

    /** Why letterboxing and conversion throw, if they do. */
    function InputFailure(img: Image): Option<Exception> {
      var boxing := LetterboxFailure(img, cfg.inputWidth, cfg.inputHeight);
      if boxing.Some? then boxing
      else if img.kind != Bgr8 then Some(InvalidArgument)
      else None
    }

    /** What the engine answers for an image: a function of the planar letterboxed pixels alone. */
    function Answer(img: Image, resize: Resize, infer: Inference): Result<map<string, seq<real>>>
      requires IsResize(resize) && InputFailure(img) == None
    {
      infer(Planar(LetterboxOf(img, cfg.inputWidth, cfg.inputHeight, resize).image, SCRFD_SCALE))
    }

    /** Why an image has no answer, if it has none: its pixels, the engine, or a read past a tensor. */
    function Failure(img: Image, resize: Resize, infer: Inference): Option<Exception>
      requires IsResize(resize)
    {
      if InputFailure(img).Some? then InputFailure(img)
      else if Answer(img, resize, infer).Err? then Some(Answer(img, resize, infer).error)
      else if !JobFor(Answer(img, resize, infer).value).Valid() then Some(Overread)
      else None
    }

    /** `kept` is a valid answer for one image, whatever was detected before it. */
    ghost predicate IsDetection(img: Image, resize: Resize, infer: Inference, kept: seq<FaceDetection>)
      requires IsResize(resize) && Failure(img, resize, infer) == None
    {
      var f := LetterboxOf(img, cfg.inputWidth, cfg.inputHeight, resize).frame;
      IsNms(JobFor(Answer(img, resize, infer).value).Raw(strideBindings.Keys, f), cfg.nmsIou, kept)
    }

    /** Letterbox, conversion and inference. */
    method InferOne(src: Image, resize: Resize, infer: Inference) returns (r: Result<map<string, seq<real>>>, f: Frame)
      requires Valid() && IsResize(resize)
      modifies inputScratch
      ensures InputFailure(src).Some? ==> r == Err(InputFailure(src).value)
      ensures InputFailure(src) == None ==> r == Answer(src, resize, infer)
      ensures InputFailure(src) == None ==> f == LetterboxOf(src, cfg.inputWidth, cfg.inputHeight, resize).frame
    {
      var boxed := Letterbox(src, cfg.inputWidth, cfg.inputHeight, resize);
      if boxed.Err? {
        return Err(boxed.error), IDENTITY_FRAME;
      }
      var lb := boxed.value;
      var converted := HwcBgrToChwRgb(lb.image, inputScratch);
      if converted.Err? {
        return Err(converted.error), IDENTITY_FRAME;
      }
      PlanarSlice(lb.image, SCRFD_SCALE, inputScratch[..], 0, lb.image.rows * lb.image.cols);
      assert inputScratch[..] == Planar(lb.image, SCRFD_SCALE);
      return infer(inputScratch[..]), lb.frame;
    }

    /** One round of the loop in `detect_batch`. */
    method DetectOne(src: Image, resize: Resize, infer: Inference) returns (r: Result<seq<FaceDetection>>)
      requires Valid() && IsResize(resize)
      modifies inputScratch
      ensures r.Err? <==> Failure(src, resize, infer).Some?
      ensures r.Err? ==> Failure(src, resize, infer) == Some(r.error)
      ensures r.Ok? ==> IsDetection(src, resize, infer, r.value)
    {
      var answered, f := InferOne(src, resize, infer);
      if answered.Err? {
        return Err(answered.error);
      }
      var decoded := DecodeAll(JobFor(answered.value), f);
      if decoded.Err? {
        return Err(decoded.error);
      }
      var kept := Nms.Nms(decoded.value, cfg.nmsIou);
      return Ok(kept);
    }

    ghost predicate Answers(img: Image, resize: Resize, infer: Inference, kept: seq<FaceDetection>)
      requires IsResize(resize)
    {
      Failure(img, resize, infer) == None && IsDetection(img, resize, infer, kept)
    }

    /** The first images have these answers. */
    ghost predicate AllAnswered(images: seq<Image>, resize: Resize, infer: Inference, all: seq<seq<FaceDetection>>)
      requires IsResize(resize)
    {
      |all| <= |images| && forall i :: 0 <= i < |all| ==> Answers(images[i], resize, infer, all[i])
    }

    /** Image `i` is the first that has no answer. */
    predicate FailsAt(images: seq<Image>, resize: Resize, infer: Inference, i: nat, e: Exception)
      requires IsResize(resize)
    {
      && i < |images| && Failure(images[i], resize, infer) == Some(e)
      && forall j :: 0 <= j < i ==> Failure(images[j], resize, infer) == None
    }

    lemma FirstFailure(images: seq<Image>, resize: Resize, infer: Inference, all: seq<seq<FaceDetection>>, e: Exception)
      requires IsResize(resize) && AllAnswered(images, resize, infer, all) && |all| < |images|
      requires Failure(images[|all|], resize, infer) == Some(e)
      ensures FailsAt(images, resize, infer, |all|, e)
    {
      forall j | 0 <= j < |all| ensures Failure(images[j], resize, infer) == None {
        assert Answers(images[j], resize, infer, all[j]);
      }
    }

    /** `detect_batch`: one answer per image, or the failure of the first image that has none. */
    method DetectBatch(images: seq<Image>, resize: Resize, infer: Inference)
      returns (r: Result<seq<seq<FaceDetection>>>)
      requires Valid() && IsResize(resize)
      modifies inputScratch
      ensures r.Ok? ==> |r.value| == |images| && AllAnswered(images, resize, infer, r.value)
      ensures r.Err? ==> exists i :: FailsAt(images, resize, infer, i, r.error)
    {
      var all := [];
      for i := 0 to |images|
        invariant |all| == i && AllAnswered(images, resize, infer, all)
      {
        var one := DetectOne(images[i], resize, infer);
        if one.Err? {
          FirstFailure(images, resize, infer, all, one.error);
          return Err(one.error);
        }
        assert Answers(images[i], resize, infer, one.value);
        all := all + [one.value];
      }
      return Ok(all);
    }
  }

  /** The detector's constructor, on a loaded engine. */
  method NewDetector(cfg: DetectionConfig, engine: TrtEngine, accepted: bool, ok: bool) returns (r: Result<Detector>)
    requires engine.impl.Separate()
    modifies engine, engine.impl, engine.impl.buffers.Values, engine.impl.device
    ensures r.Err? <==> old(SetupFailure(engine.bindings, cfg, accepted, ok)).Some?
    ensures r.Err? ==> old(SetupFailure(engine.bindings, cfg, accepted, ok)) == Some(r.error)
    ensures r.Ok? ==>
      && fresh(r.value) && r.value.Valid() && r.value.cfg == cfg
      && engine.bindings == Pinned(old(engine.bindings), cfg)
      && engine.bindings[0].shape == [1, 3, cfg.inputHeight, cfg.inputWidth]
      && r.value.inputName == engine.bindings[0].name
      && Resolves(r.value.strideBindings, engine.bindings, cfg.inputWidth)
  {
    var resolved := ResolveBindings(engine, cfg, accepted, ok);
    if resolved.Err? {
      return Err(resolved.error);
    }
    var d := new Detector(cfg, resolved.value.0, resolved.value.1);
    return Ok(d);
  }

  // --------------------------------------------------- what a detection says

  lemma {:induction false} RawConfident(job: Job, keys: set<nat>, f: Frame)
    requires job.Valid() && keys <= job.strides.Keys && f.scale != 0.0
    ensures forall d :: d in job.Raw(keys, f) ==> d.score >= job.confidence && |d.landmarks| == 5
    decreases keys
  {
    if keys != {} {
      var s := Smallest(keys);
      RawConfident(job, keys - {s}, f);
      StrideConfident(job, s, f);
    }
  }

  lemma StrideConfident(job: Job, s: nat, f: Frame)
    requires s in job.strides && job.Readable(s) && f.scale != 0.0
    ensures forall d :: d in job.StrideDetections(s, f) ==> d.score >= job.confidence && |d.landmarks| == 5
  {
    if job.Complete(s) {
      var sb := job.strides[s];
      var ts := Tensors(job.out[sb.score], job.out[sb.bbox], job.out[sb.kps]);
      DecodedBound(job.GridOf(s), ts, job.confidence, f, job.GridOf(s).Count());
    }
  }

  /** What the engine was given and answered, and in which frame its answer was decoded. */
  ghost predicate DetectedIn(d: Detector, img: Image, resize: Resize, infer: Inference, kept: seq<FaceDetection>,
                             lb: LetterboxResult)
    requires IsResize(resize)
  {
    && IsLetterbox(img, d.cfg.inputWidth, d.cfg.inputHeight, resize, lb)
    && lb.image.kind == Bgr8 && lb.image.Valid() && lb.frame.scale != 0.0
    && var answer := infer(Planar(lb.image, 128.0));
       && answer.Ok?
       && var job := Job(d.cfg.inputWidth, d.cfg.inputHeight, d.cfg.confidence, d.strideBindings, answer.value);
          job.Valid() && IsNms(job.Raw(d.strideBindings.Keys, lb.frame), d.cfg.nmsIou, kept)
  }

  /**
   What a detection is: the engine saw the image letterboxed to the configured size, the answer
   was decoded in that letterbox's frame, every box reaches the configured confidence, and no two
   overlap by more than the configured threshold.
   */
  lemma DetectionMeans(d: Detector, img: Image, resize: Resize, infer: Inference, kept: seq<FaceDetection>)
    requires IsResize(resize) && d.Failure(img, resize, infer) == None && d.IsDetection(img, resize, infer, kept)
    ensures exists lb :: DetectedIn(d, img, resize, infer, kept, lb)
    ensures forall x :: x in kept ==> x.score >= d.cfg.confidence && |x.landmarks| == 5
    ensures forall i, j :: 0 <= i < j < |kept| ==> Iou(kept[i].bbox, kept[j].bbox) <= d.cfg.nmsIou
  {
    var lb := LetterboxOf(img, d.cfg.inputWidth, d.cfg.inputHeight, resize);
    LetterboxMeans(img, d.cfg.inputWidth, d.cfg.inputHeight, resize);
    assert DetectedIn(d, img, resize, infer, kept, lb);
    var job := d.JobFor(d.Answer(img, resize, infer).value);
    RawConfident(job, d.strideBindings.Keys, lb.frame);
    KeptFromRaw(job.Raw(d.strideBindings.Keys, lb.frame), d.cfg.nmsIou, kept);
    forall i, j | 0 <= i < j < |kept| ensures Iou(kept[i].bbox, kept[j].bbox) <= d.cfg.nmsIou {
      KeptWithin(job.Raw(d.strideBindings.Keys, lb.frame), d.cfg.nmsIou, kept, i, j);
    }
  }

  lemma KeptFromRaw(raw: seq<FaceDetection>, t: real, kept: seq<FaceDetection>)
    requires IsNms(raw, t, kept)
    ensures forall x :: x in kept ==> x in raw
  {
    NmsSound(raw, t, kept);
    forall x | x in kept ensures x in raw {
      assert x in multiset(kept);
    }
  }
}
