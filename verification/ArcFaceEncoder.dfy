/** The batched face encoder: chunks, reused scratch buffers, one embedding per face. */
module ArcFaceEncoder {
  import opened Outcomes
  import opened Arithmetic
  import opened Letterboxing
  import opened PlanarImages
  import opened Embeddings
  import opened TrtEngines

  const FACE_SCALE := 127.5

  // -------------------------------------------------------------- flat buffers

  /** `data() + i * p` */
  function Offset(i: nat, p: nat): nat { i * p }

  /** Rows laid end to end. */
  function Flat(rows: seq<seq<real>>): seq<real> {
    if rows == [] then [] else Flat(rows[..|rows| - 1]) + rows[|rows| - 1]
  }

  ghost predicate Uniform(rows: seq<seq<real>>, p: nat) { forall i :: 0 <= i < |rows| ==> |rows[i]| == p }

  lemma FlatAppend(rows: seq<seq<real>>, r: seq<real>)
    ensures Flat(rows + [r]) == Flat(rows) + r
  {
    assert (rows + [r])[..|rows|] == rows;
  }

  lemma {:induction false} FlatLength(rows: seq<seq<real>>, p: nat)
    requires Uniform(rows, p)
    ensures |Flat(rows)| == |rows| * p
  {
    if rows != [] {
      FlatLength(rows[..|rows| - 1], p);
      assert (|rows| - 1) * p + p == |rows| * p;
    }
  }

  /** Row `j` of a flat buffer is found `j` row lengths in. */
  lemma {:induction false} FlatRow(rows: seq<seq<real>>, p: nat, j: nat, at: nat)
    requires Uniform(rows, p) && j < |rows| && at == Offset(j, p)
    ensures at + p <= |Flat(rows)| && Flat(rows)[at..at + p] == rows[j]
  {
    var front := rows[..|rows| - 1];
    FlatLength(front, p);
    if j < |front| {
      FlatRow(front, p, j, at);
    } else {
      assert Flat(rows) == Flat(front) + rows[j];
    }
  }

  // -------------------------------------------------------------- the network

  /**
   The engine as this class uses it. It runs row by row: output row `j` has `width` values and
   depends on input row `j` alone. For a batch of `n` rows, `shapeFails(n)` is the exception of
   pinning the input shape, and `runFails(n)` that of copying the input and running, if any.
   */
  datatype Network = Network(
    bindings: seq<BindingInfo>,
    width: nat,
    row: seq<real> -> seq<real>,
    shapeFails: nat -> Option<Exception>,
    runFails: nat -> Option<Exception>)
  {
    ghost predicate Valid() { forall x :: |row(x)| == width }

    /** Some output binding has a non-empty name in first place. */
    predicate HasOutput() { FirstOutput(bindings) != "" }
  }

  /** The name of the first output binding, or an empty string. */
  function FirstOutput(bindings: seq<BindingInfo>): string {
    if bindings == [] then ""
    else if !bindings[0].isInput then bindings[0].name
    else FirstOutput(bindings[1..])
  }

  /** It is the name of the first binding that is not an input. */
  lemma {:induction false} FirstOutputMeans(bindings: seq<BindingInfo>, k: nat)
    requires k < |bindings| && !bindings[k].isInput && forall j :: 0 <= j < k ==> bindings[j].isInput
    ensures FirstOutput(bindings) == bindings[k].name
  {
    if k > 0 { FirstOutputMeans(bindings[1..], k - 1); }
  }

  function Answers(net: Network, rows: seq<seq<real>>): seq<seq<real>> {
    seq(|rows|, j requires 0 <= j < |rows| => net.row(rows[j]))
  }

  lemma RowAt(n: nat, p: nat, j: nat)
    requires j < n
    ensures j * p + p <= n * p
  {
    RowStep(j, n, p);
  }

  /** The rows of a flat buffer, as the engine reads them. */
  function RowsOf(input: seq<real>, n: nat, p: nat): seq<seq<real>>
    requires n * p <= |input|
  {
    seq(n, j requires 0 <= j < n => RowAt(n, p, j); input[j * p..j * p + p])
  }

  lemma RowsOfFlat(rows: seq<seq<real>>, p: nat)
    requires Uniform(rows, p)
    ensures |Flat(rows)| == |rows| * p && RowsOf(Flat(rows), |rows|, p) == rows
  {
    FlatLength(rows, p);
    forall j | 0 <= j < |rows| ensures RowsOf(Flat(rows), |rows|, p)[j] == rows[j] {
      FlatRow(rows, p, j, Offset(j, p));
    }
  }

  /** Rows that lie in the front of a buffer do not depend on what follows. */
  lemma RowsOfPrefix(front: seq<real>, all: seq<real>, n: nat, p: nat)
    requires front <= all && n * p <= |front|
    ensures RowsOf(front, n, p) == RowsOf(all, n, p)
  {
    forall j | 0 <= j < n ensures RowsOf(front, n, p)[j] == RowsOf(all, n, p)[j] {
      RowAt(n, p, j);
      assert front[j * p..j * p + p] == all[j * p..j * p + p];
    }
  }

  /** Inference on a buffer of `n` rows of `p` values. */
  function Infer(net: Network, input: seq<real>, n: nat, p: nat): seq<real>
    requires n * p <= |input|
  {
    Flat(Answers(net, RowsOf(input, n, p)))
  }

  // ------------------------------------------------------------- preprocessing

  /** `cv::resize` when the crop is not already square of the right side. */
  function Resized(face: Image, side: nat, resize: Resize): Image {
    if face.cols != side || face.rows != side then resize(face, side, side) else face
  }

  /** Resizing an empty crop throws, and so does resizing to nothing. */
  predicate Encodable(face: Image, side: nat) {
    (face.cols == side && face.rows == side) || (!face.Empty() && side > 0)
  }

  predicate AllEncodable(faces: seq<Image>, side: nat) { forall i :: 0 <= i < |faces| ==> Encodable(faces[i], side) }

  lemma EncodableStep(faces: seq<Image>, side: nat, i: nat)
    requires i < |faces|
    ensures AllEncodable(faces[..i], side) && Encodable(faces[i], side) ==> AllEncodable(faces[..i + 1], side)
    ensures !Encodable(faces[i], side) ==> !AllEncodable(faces, side)
  {}

  function Preprocessed(face: Image, side: nat, resize: Resize): (s: seq<real>)
    requires face.Valid() && IsResize(resize)
    ensures |s| == 3 * (side * side)
  {
    Planar(Resized(face, side, resize), FACE_SCALE)
  }

  /** The encoder's input: the scale is 127.5, so that 0 becomes -1 and 255 becomes 1. */
  lemma FacePixels(face: Image, side: nat, resize: Resize, y: nat, x: nat, n: nat, k: nat)
    requires face.Valid() && IsResize(resize) && y < side && x < side && n == side * side && k == y * side + x
    ensures k < n
    ensures var shown := if face.cols == side && face.rows == side then face else resize(face, side, side);
            && shown.Valid() && shown.rows == shown.cols == side
            && Preprocessed(face, side, resize)[k] == (shown.data[y][x].r as real - 127.5) / 127.5
            && Preprocessed(face, side, resize)[n + k] == (shown.data[y][x].g as real - 127.5) / 127.5
            && Preprocessed(face, side, resize)[2 * n + k] == (shown.data[y][x].b as real - 127.5) / 127.5
            && (shown.data[y][x].b == 0 ==> Preprocessed(face, side, resize)[2 * n + k] == -1.0)
            && (shown.data[y][x].b == 255 ==> Preprocessed(face, side, resize)[2 * n + k] == 1.0)
  {
    PlanarMeans(Resized(face, side, resize), FACE_SCALE, y, x, n, k);
  }

  /** `preprocess_face`, into one block of the input scratch. */
  method PreprocessFace(face: Image, side: nat, dst: array<real>, base: nat, resize: Resize)
    returns (r: Result<()>)
    requires face.Valid() && IsResize(resize) && base + 3 * (side * side) <= dst.Length
    modifies dst
    ensures r == if Encodable(face, side) then Ok(()) else Err(CvException)
    ensures forall k :: 0 <= k < base ==> dst[k] == old(dst[k])
    ensures r.Ok? ==> dst[base..base + 3 * (side * side)] == Preprocessed(face, side, resize)
  {
    var resized := face;
    if face.cols != side || face.rows != side {
      if face.rows == 0 || face.cols == 0 || side == 0 {
        return Err(CvException);
      }
      resized := resize(face, side, side);
    }
    WritePlanar(resized, FACE_SCALE, dst, base);
    PlanarSlice(resized, FACE_SCALE, dst[..], base, side * side);
    return Ok(());
  }

  // ----------------------------------------------------------------- encoder

  datatype EncodingConfig = EncodingConfig(inputSize: nat, embeddingDim: nat, batchSize: nat)

  class Encoder {
    const cfg: EncodingConfig
    const net: Network
    const inputScratch: array<real>
    const outputScratch: array<real>
    /** The device allocation of the output binding, which keeps what earlier runs left behind. */
    const deviceOutput: array<real>

    const perFace: nat

    ghost predicate Valid() {
      && cfg.batchSize > 0 && perFace == 3 * (cfg.inputSize * cfg.inputSize) && net.Valid()
      && inputScratch != outputScratch && inputScratch != deviceOutput && outputScratch != deviceOutput
      && inputScratch.Length == cfg.batchSize * perFace
      && outputScratch.Length == cfg.batchSize * cfg.embeddingDim
    }

    constructor (cfg: EncodingConfig, net: Network, deviceOutput: array<real>)
      requires cfg.batchSize > 0 && net.Valid()
      ensures Valid() && fresh(inputScratch) && fresh(outputScratch)
      ensures this.cfg == cfg && this.net == net && this.deviceOutput == deviceOutput
    {
      this.cfg := cfg;
      this.net := net;
      this.deviceOutput := deviceOutput;
      perFace := 3 * (cfg.inputSize * cfg.inputSize);
      inputScratch := new real[cfg.batchSize * (3 * (cfg.inputSize * cfg.inputSize))];
      outputScratch := new real[cfg.batchSize * cfg.embeddingDim];
    }

    /** The network's input rows for a list of faces. */
    function Inputs(faces: seq<Image>, resize: Resize): (rows: seq<seq<real>>)
      requires IsResize(resize) && forall f :: f in faces ==> f.Valid()
      ensures perFace == 3 * (cfg.inputSize * cfg.inputSize) ==> Uniform(rows, perFace)
    {
      seq(|faces|, i requires 0 <= i < |faces| => Preprocessed(faces[i], cfg.inputSize, resize))
    }

    /** One face into its own block of the input scratch, behind the faces before it. */
    method FillOne(face: Image, resize: Resize, at: nat, ghost filled: seq<real>, ghost row: seq<real>)
      returns (r: Result<()>)
      requires Valid() && IsResize(resize) && face.Valid() && at + perFace <= inputScratch.Length
      requires inputScratch[..at] == filled && row == Preprocessed(face, cfg.inputSize, resize)
      modifies inputScratch
      ensures r == if Encodable(face, cfg.inputSize) then Ok(()) else Err(CvException)
      ensures |row| == perFace
      ensures r.Ok? ==> inputScratch[..at + perFace] == filled + row
    {
      r := PreprocessFace(face, cfg.inputSize, inputScratch, at, resize);
      if r.Ok? {
        assert inputScratch[..at] == filled;
        assert inputScratch[..at + perFace] == inputScratch[..at] + inputScratch[at..at + perFace];
      }
    }

    /** The first loop of `encode_chunk_`. */
    method FillInput(chunk: seq<Image>, resize: Resize, ghost rows: seq<seq<real>>) returns (r: Result<()>)
      requires Valid() && IsResize(resize) && forall f :: f in chunk ==> f.Valid()
      requires |rows| == |chunk| && Uniform(rows, perFace) && |Flat(rows)| <= inputScratch.Length
      requires forall i :: 0 <= i < |chunk| ==> rows[i] == Preprocessed(chunk[i], cfg.inputSize, resize)
      modifies inputScratch
      ensures r.Ok? <==> AllEncodable(chunk, cfg.inputSize)
      ensures r.Err? ==> r.error == CvException
      ensures r.Ok? ==> inputScratch[..|Flat(rows)|] == Flat(rows)
    {
      ghost var filled := [];
      for i := 0 to |chunk|
        invariant AllEncodable(chunk[..i], cfg.inputSize)
        invariant filled == Flat(rows[..i]) && |filled| <= inputScratch.Length
        invariant inputScratch[..|filled|] == filled
      {
        var at := Offset(i, perFace);
        RowOffset(rows, perFace, i, at);
        EncodableStep(chunk, cfg.inputSize, i);
        r := FillOne(chunk[i], resize, at, filled, rows[i]);
        if r.Err? {
          return;
        }
        filled := filled + rows[i];
      }
      assert rows[..|chunk|] == rows && chunk[..|chunk|] == chunk;
      return Ok(());
    }

    /** One block of the output scratch, copied out and normalized. */
    method CollectOne(at: nat, norm: Norm, out: Vector<seq<real>>)
      requires at + cfg.embeddingDim <= outputScratch.Length
      modifies out
      ensures out.items == old(out.items) + [L2Normalized(outputScratch[at..at + cfg.embeddingDim], norm)]
    {
      var emb := cfg.embeddingDim;
      var v := new real[emb];
      forall k | 0 <= k < emb { v[k] := outputScratch[at + k]; }
      assert v[..] == outputScratch[at..at + emb];
      L2Normalize(v, norm);
      out.PushBack(v[..]);
    }

    /** The last loop of `encode_chunk_`: the blocks of the output scratch, normalized. */
    method CollectOutput(n: nat, norm: Norm, out: Vector<seq<real>>)
      requires n * cfg.embeddingDim <= outputScratch.Length
      modifies out
      ensures out.items == old(out.items) + NormalizedAll(RowsOf(outputScratch[..], n, cfg.embeddingDim), norm)
    {
      ghost var rows := RowsOf(outputScratch[..], n, cfg.embeddingDim);
      ghost var before := out.items;
      for i := 0 to n
        invariant out.items == before + NormalizedAll(rows, norm)[..i]
      {
        RowAt(n, cfg.embeddingDim, i);
        var at := i * cfg.embeddingDim;
        assert rows[i] == outputScratch[at..at + cfg.embeddingDim];
        CollectOne(at, norm, out);
      }
    }

    /** What a chunk, and a whole call, encode to: each face on its own. */
    function Embedding(face: Image, resize: Resize, norm: Norm): seq<real>
      requires face.Valid() && IsResize(resize)
    {
      L2Normalized(net.row(Preprocessed(face, cfg.inputSize, resize)), norm)
    }

    function EmbeddingsOf(faces: seq<Image>, resize: Resize, norm: Norm): seq<seq<real>>
      requires IsResize(resize) && forall f :: f in faces ==> f.Valid()
    {
      seq(|faces|, i requires 0 <= i < |faces| => Embedding(faces[i], resize, norm))
    }

    lemma EmbeddingsPointAlong(faces: seq<Image>, resize: Resize, norm: Norm)
      requires IsResize(resize) && IsNorm(norm) && forall f :: f in faces ==> f.Valid()
      ensures AllPointAlong(EmbeddingsOf(faces, resize, norm), Answers(net, Inputs(faces, resize)), norm)
    {
      var rows := Answers(net, Inputs(faces, resize));
      forall i | 0 <= i < |faces| ensures PointsAlong(EmbeddingsOf(faces, resize, norm)[i], rows[i], norm) {
        NormalizedPointsAlong(rows[i], norm);
      }
    }

    /** The device copies of `n` rows stay inside the output allocation. */
    predicate OutputFits(n: nat) {
      n * net.width <= deviceOutput.Length && n * cfg.embeddingDim <= deviceOutput.Length
    }

    /** Why a chunk throws, if it does, in the order of the calls. */
    function ChunkFailure(chunk: seq<Image>): Option<Exception> {
      if chunk == [] then None
      else if !net.HasOutput() then Some(RuntimeError)
      else if net.shapeFails(|chunk|).Some? then net.shapeFails(|chunk|)
      else if !AllEncodable(chunk, cfg.inputSize) then Some(CvException)
      else if net.runFails(|chunk|).Some? then net.runFails(|chunk|)
      else if !OutputFits(|chunk|) then Some(RuntimeError)
      else None
    }

    /** The engine takes a batch of `n` rows. */
    predicate Accepts(n: nat) {
      net.shapeFails(n) == None && net.runFails(n) == None && OutputFits(n)
    }

    predicate Encodes(chunk: seq<Image>) { ChunkFailure(chunk) == None }

    lemma ChunkFits(chunk: seq<Image>, resize: Resize)
      requires Valid() && IsResize(resize) && |chunk| <= cfg.batchSize && forall f :: f in chunk ==> f.Valid()
      ensures |Flat(Inputs(chunk, resize))| == |chunk| * perFace <= inputScratch.Length
      ensures RowsOf(Flat(Inputs(chunk, resize)), |chunk|, perFace) == Inputs(chunk, resize)
      ensures |Flat(Answers(net, Inputs(chunk, resize)))| == |chunk| * net.width
      ensures |chunk| * cfg.embeddingDim <= outputScratch.Length
    {
      RowsOfFlat(Inputs(chunk, resize), perFace);
      FlatLength(Answers(net, Inputs(chunk, resize)), net.width);
      RowMono(|chunk|, cfg.batchSize, perFace);
      RowMono(|chunk|, cfg.batchSize, cfg.embeddingDim);
    }

    /** Each block is the face's own row, whatever lies behind, if the widths agree. */
    lemma ChunkAnswers(chunk: seq<Image>, resize: Resize, norm: Norm, device: seq<real>)
      requires Valid() && IsResize(resize) && |chunk| <= cfg.batchSize && forall f :: f in chunk ==> f.Valid()
      requires net.width == cfg.embeddingDim && Flat(Answers(net, Inputs(chunk, resize))) <= device
      ensures |chunk| * cfg.embeddingDim <= |device|
      ensures NormalizedAll(RowsOf(device, |chunk|, cfg.embeddingDim), norm) == EmbeddingsOf(chunk, resize, norm)
    {
      var rows := Answers(net, Inputs(chunk, resize));
      RowsOfFlat(rows, net.width);
      RowsOfPrefix(Flat(rows), device, |chunk|, net.width);
    }

    /** Inference: the front of the device output; what lies behind it stays. */
    method RunNetwork(n: nat, ghost rows: seq<seq<real>>)
      requires Valid() && n * perFace <= inputScratch.Length && RowsOf(inputScratch[..n * perFace], n, perFace) == rows
      requires |Flat(Answers(net, rows))| <= deviceOutput.Length
      modifies deviceOutput
      ensures Flat(Answers(net, rows)) <= deviceOutput[..]
      ensures forall k :: |Flat(Answers(net, rows))| <= k < deviceOutput.Length ==>
        deviceOutput[k] == old(deviceOutput[k])
    {
      var output := Infer(net, inputScratch[..n * perFace], n, perFace);
      forall k | 0 <= k < |output| { deviceOutput[k] := output[k]; }
    }

    /** `copy_output`: the front of the output scratch; what lies behind it stays. */
    method CopyOutput(count: nat)
      requires Valid() && count <= deviceOutput.Length && count <= outputScratch.Length
      modifies outputScratch
      ensures outputScratch[..count] == deviceOutput[..count]
    {
      forall k | 0 <= k < count { outputScratch[k] := deviceOutput[k]; }
    }

    /** From the device output to the appended embeddings. */
    method CopyAndCollect(n: nat, norm: Norm, out: Vector<seq<real>>)
      requires Valid() && n * cfg.embeddingDim <= outputScratch.Length && n * cfg.embeddingDim <= deviceOutput.Length
      modifies outputScratch, out
      ensures out.items == old(out.items) + NormalizedAll(RowsOf(deviceOutput[..], n, cfg.embeddingDim), norm)
    {
      var count := n * cfg.embeddingDim;
      CopyOutput(count);
      RowsOfPrefix(outputScratch[..count], outputScratch[..], n, cfg.embeddingDim);
      RowsOfPrefix(deviceOutput[..count], deviceOutput[..], n, cfg.embeddingDim);
      CollectOutput(n, norm, out);
    }

    /**
     `encode_chunk_`: throws exactly as predicted and then appends nothing, or appends a block of
     the device output for each face; and that is each face's own embedding if the network's rows
     are as wide as the configuration says.
     */
    method EncodeChunk(chunk: seq<Image>, out: Vector<seq<real>>, resize: Resize, norm: Norm)
      returns (r: Result<()>)
      requires Valid() && IsResize(resize) && |chunk| <= cfg.batchSize && forall f :: f in chunk ==> f.Valid()
      modifies inputScratch, outputScratch, deviceOutput, out
      ensures r.Err? <==> ChunkFailure(chunk).Some?
      ensures r.Err? ==> ChunkFailure(chunk) == Some(r.error) && out.items == old(out.items)
      ensures r.Ok? && chunk != [] ==>
        && OutputFits(|chunk|) && Flat(Answers(net, Inputs(chunk, resize))) <= deviceOutput[..]
        && out.items == old(out.items) + NormalizedAll(RowsOf(deviceOutput[..], |chunk|, cfg.embeddingDim), norm)
      ensures r.Ok? && net.width == cfg.embeddingDim ==> out.items == old(out.items) + EmbeddingsOf(chunk, resize, norm)
      ensures r.Ok? ==> |out.items| == |old(out.items)| + |chunk|
    {
      if chunk == [] {
        return Ok(());
      }
      var outputName := FirstOutput(net.bindings);
      if outputName == "" {
        return Err(RuntimeError);
      }
      if net.shapeFails(|chunk|).Some? {
        return Err(net.shapeFails(|chunk|).value);
      }
      ChunkFits(chunk, resize);
      r := FillInput(chunk, resize, Inputs(chunk, resize));
      if r.Err? {
        return;
      }
      if net.runFails(|chunk|).Some? {
        return Err(net.runFails(|chunk|).value);
      }
      if !OutputFits(|chunk|) {
        return Err(RuntimeError);
      }
      RunNetwork(|chunk|, Inputs(chunk, resize));
      CopyAndCollect(|chunk|, norm, out);
      if net.width == cfg.embeddingDim {
        ChunkAnswers(chunk, resize, norm, deviceOutput[..]);
      }
    }

    /** Every chunk size that a call with `n` faces uses is accepted: full batches, and the remainder. */
    predicate SizesAccepted(n: nat)
      requires cfg.batchSize > 0
    {
      (n >= cfg.batchSize ==> Accepts(cfg.batchSize)) && (n % cfg.batchSize != 0 ==> Accepts(n % cfg.batchSize))
    }

    /** The whole call goes through without an exception. */
    predicate BatchEncodes(faces: seq<Image>)
      requires cfg.batchSize > 0
    {
      faces == [] || (net.HasOutput() && SizesAccepted(|faces|) && AllEncodable(faces, cfg.inputSize))
    }

    /** The chunks before position `i` went through. */
    ghost predicate EncodedTo(faces: seq<Image>, i: nat)
      requires cfg.batchSize > 0
    {
      i == 0 || (net.HasOutput() && AllEncodable(faces[..Least(i, |faces|)], cfg.inputSize)
                 && (if i <= |faces| then Accepts(cfg.batchSize) else SizesAccepted(|faces|)))
    }

    lemma ChunkPasses(faces: seq<Image>, i: nat, c: nat, end: nat)
      requires cfg.batchSize > 0 && i == Offset(c, cfg.batchSize) && i < |faces|
      requires end == Least(i + cfg.batchSize, |faces|)
      requires EncodedTo(faces, i)
      ensures Encodes(faces[i..end]) ==> EncodedTo(faces, i + cfg.batchSize)
      ensures !Encodes(faces[i..end]) ==> !BatchEncodes(faces)
    {
      ChunkSize(|faces|, cfg.batchSize, c, i);
      EncodableParts(faces, i, end, cfg.inputSize);
    }

    lemma BatchPasses(faces: seq<Image>, i: nat, c: nat)
      requires cfg.batchSize > 0 && i == Offset(c, cfg.batchSize) && i >= |faces| && EncodedTo(faces, i)
      ensures BatchEncodes(faces)
    {
      assert faces[..|faces|] == faces;
      if i == |faces| && faces != [] {
        DivMod(c, 0, cfg.batchSize);
      }
    }

    lemma EmbeddingsGrow(faces: seq<Image>, i: nat, end: nat, resize: Resize, norm: Norm)
      requires IsResize(resize) && i <= end <= |faces| && forall f :: f in faces ==> f.Valid()
      ensures EmbeddingsOf(faces, resize, norm)[..end]
        == EmbeddingsOf(faces, resize, norm)[..i] + EmbeddingsOf(faces[i..end], resize, norm)
    {}

    /** Chunk `c` of the faces. */
    function ChunkAt(faces: seq<Image>, c: nat): seq<Image> {
      var from := Least(Offset(c, cfg.batchSize), |faces|);
      faces[from..Least(from + cfg.batchSize, |faces|)]
    }

    predicate ChunksPass(faces: seq<Image>, c: nat) {
      forall d :: 0 <= d < c ==> ChunkFailure(ChunkAt(faces, d)) == None
    }

    /** Chunk `c` is the first that throws, and this is what it throws. */
    predicate FirstThrows(faces: seq<Image>, c: nat, e: Exception) {
      ChunksPass(faces, c) && ChunkFailure(ChunkAt(faces, c)) == Some(e)
    }

    lemma FirstThrowsHere(faces: seq<Image>, i: nat, c: nat, end: nat, e: Exception)
      requires i == Offset(c, cfg.batchSize) && i < |faces| && end == Least(i + cfg.batchSize, |faces|)
      requires ChunksPass(faces, c) && ChunkFailure(faces[i..end]) == Some(e)
      ensures FirstThrows(faces, c, e)
    {
      assert faces[i..end] == ChunkAt(faces, c);
    }

    lemma ChunksPassStep(faces: seq<Image>, i: nat, c: nat, end: nat)
      requires i == Offset(c, cfg.batchSize) && i < |faces| && end == Least(i + cfg.batchSize, |faces|)
      requires ChunksPass(faces, c) && Encodes(faces[i..end])
      ensures ChunksPass(faces, c + 1)
    {
      assert faces[i..end] == ChunkAt(faces, c);
    }

    /** One embedding for each of the first faces; their own, if the widths agree. */
    ghost predicate Collected(faces: seq<Image>, n: nat, items: seq<seq<real>>, resize: Resize, norm: Norm)
      requires IsResize(resize) && n <= |faces| && forall f :: f in faces ==> f.Valid()
    {
      |items| == n && (net.width == cfg.embeddingDim ==> items == EmbeddingsOf(faces, resize, norm)[..n])
    }

    lemma CollectedStep(faces: seq<Image>, i: nat, end: nat, items: seq<seq<real>>, more: seq<seq<real>>,
                        resize: Resize, norm: Norm)
      requires IsResize(resize) && i <= end <= |faces| && forall f :: f in faces ==> f.Valid()
      requires Collected(faces, i, items, resize, norm) && |more| == |items| + (end - i)
      requires net.width == cfg.embeddingDim ==> more == items + EmbeddingsOf(faces[i..end], resize, norm)
      ensures Collected(faces, end, more, resize, norm)
    {
      EmbeddingsGrow(faces, i, end, resize, norm);
    }

    /** One round of the loop in `encode_batch`, with what the loop maintains. */
    method EncodeNext(faces: seq<Image>, i: nat, ghost c: nat, out: Vector<seq<real>>, resize: Resize, norm: Norm)
      returns (r: Result<()>)
      requires Valid() && IsResize(resize) && forall f :: f in faces ==> f.Valid()
      requires i == Offset(c, cfg.batchSize) && i < |faces|
      requires EncodedTo(faces, i) && ChunksPass(faces, c) && Collected(faces, i, out.items, resize, norm)
      modifies inputScratch, outputScratch, deviceOutput, out
      ensures r.Ok? ==>
        && EncodedTo(faces, i + cfg.batchSize) && ChunksPass(faces, c + 1)
        && Collected(faces, Least(i + cfg.batchSize, |faces|), out.items, resize, norm)
      ensures r.Err? ==> FirstThrows(faces, c, r.error) && !BatchEncodes(faces)
    {
      var end := Least(i + cfg.batchSize, |faces|);
      var chunk := faces[i..end];
      ghost var before := out.items;
      ChunkPasses(faces, i, c, end);
      r := EncodeChunk(chunk, out, resize, norm);
      if r.Err? {
        FirstThrowsHere(faces, i, c, end, r.error);
      } else {
        ChunksPassStep(faces, i, c, end);
        CollectedStep(faces, i, end, before, out.items, resize, norm);
      }
    }

    /**
     `encode_batch`. It throws what the first failing chunk throws; and there is one exactly when
     there are faces and the engine has no output, refuses one of the chunk sizes, or some crop
     cannot be resized. Otherwise there is one embedding a face, in order; and that is the face
     encoded alone, whatever the batch size and whatever the buffers held, if the network's rows
     are as wide as the configuration says.
     */
    method EncodeBatch(faces: seq<Image>, resize: Resize, norm: Norm) returns (r: Result<seq<seq<real>>>)
      requires Valid() && IsResize(resize) && forall f :: f in faces ==> f.Valid()
      modifies inputScratch, outputScratch, deviceOutput
      ensures r.Ok? <==> BatchEncodes(faces)
      ensures r.Err? ==> exists c :: FirstThrows(faces, c, r.error)
      ensures r.Ok? ==> |r.value| == |faces|
      ensures r.Ok? && net.width == cfg.embeddingDim ==> r.value == EmbeddingsOf(faces, resize, norm)
      ensures r.Ok? && net.width == cfg.embeddingDim && IsNorm(norm) ==>
        AllPointAlong(r.value, Answers(net, Inputs(faces, resize)), norm)
    {
      var results := new Vector<seq<real>>();
      var bsz := cfg.batchSize;
      var i := 0;
      ghost var c := 0;
      while i < |faces|
        invariant i == Offset(c, bsz)
        invariant EncodedTo(faces, i) && ChunksPass(faces, c)
        invariant Collected(faces, Least(i, |faces|), results.items, resize, norm)
        decreases |faces| + bsz - i
      {
        var done := EncodeNext(faces, i, c, results, resize, norm);
        if done.Err? {
          return Err(done.error);
        }
        ChunkSize(|faces|, bsz, c, i);
        i := i + bsz;
        c := c + 1;
      }
      BatchPasses(faces, i, c);
      if IsNorm(norm) { EmbeddingsPointAlong(faces, resize, norm); }
      return Ok(results.items);
    }
  }

  /** Each embedding has length one and points along its row, unless the row is nearly zero. */
  ghost predicate AllPointAlong(es: seq<seq<real>>, rows: seq<seq<real>>, norm: Norm) {
    |es| == |rows| && forall i :: 0 <= i < |es| ==> PointsAlong(es[i], rows[i], norm)
  }

  /**
   With wider rows than the configuration says, blocks and rows part company: the blocks are the
   fronts of the rows for all rows exactly when the widths agree or there is one face.
   */
  lemma WidthMatters(n: nat, w: nat, e: nat)
    requires w >= e > 0
    ensures (forall rows :: |rows| == n && Uniform(rows, w) ==> BlocksAreFronts(rows, w, e)) <==> n <= 1 || w == e
  {
    if n <= 1 || w == e {
      forall rows | |rows| == n && Uniform(rows, w) ensures BlocksAreFronts(rows, w, e) {
        FrontsAgree(rows, w, e);
      }
    } else {
      MixedRows(n, w, e);
    }
  }

  /** Cutting the flat rows into blocks of `e` gives the front of each row. */
  ghost predicate BlocksAreFronts(rows: seq<seq<real>>, w: nat, e: nat)
    requires Uniform(rows, w) && w >= e
  {
    |rows| * e <= |Flat(rows)| && forall i :: 0 <= i < |rows| ==> RowsOf(Flat(rows), |rows|, e)[i] == rows[i][..e]
  }

  lemma FrontsAgree(rows: seq<seq<real>>, w: nat, e: nat)
    requires Uniform(rows, w) && w >= e && (|rows| <= 1 || w == e)
    ensures BlocksAreFronts(rows, w, e)
  {
    RowsOfFlat(rows, w);
    ProductMono(e, w, |rows|, |rows|);
    if w == e {
      assert forall i :: 0 <= i < |rows| ==> rows[i][..e] == rows[i];
    } else if |rows| == 1 {
      assert rows[..0] == [] && Flat(rows) == rows[0];
      assert RowsOf(Flat(rows), 1, e)[0] == Flat(rows)[0 * e..0 * e + e];
    }
  }

  /** The second block starts inside the first row. */
  lemma MixedRows(n: nat, w: nat, e: nat)
    requires n >= 2 && w > e > 0
    ensures exists rows :: |rows| == n && Uniform(rows, w) && !BlocksAreFronts(rows, w, e)
  {
    var zeros, ones := seq(w, k => 0.0), seq(w, k => 1.0);
    var rows := [zeros] + seq(n - 1, k => ones);
    assert Uniform(rows, w);
    RowsOfFlat(rows, w);
    ProductMono(e, w, n, n);
    FlatRow(rows, w, 0, 0);
    assert Flat(rows)[..w] == zeros;
    var blocks := RowsOf(Flat(rows), n, e);
    RowAt(n, e, 1);
    assert blocks[1] == Flat(rows)[1 * e..1 * e + e];
    assert blocks[1][0] == Flat(rows)[..w][e] == 0.0;
    assert rows[1][..e][0] == 1.0;
  }

  /**
   The batch size is not part of the answer, and neither is the way the faces are split over
   calls: two encoders around the same network agree, and a list in one call is its parts in two.
   */
  lemma BatchSizeIrrelevant(a: Encoder, b: Encoder, front: seq<Image>, back: seq<Image>,
                            resize: Resize, norm: Norm)
    requires a.net == b.net && a.cfg.inputSize == b.cfg.inputSize
    requires IsResize(resize) && forall f :: f in front + back ==> f.Valid()
    ensures (forall f :: f in front ==> f.Valid()) && (forall f :: f in back ==> f.Valid())
    ensures a.EmbeddingsOf(front + back, resize, norm)
      == b.EmbeddingsOf(front, resize, norm) + b.EmbeddingsOf(back, resize, norm)
  {
    forall f | f in front || f in back ensures f.Valid() {
      assert f in front + back;
    }
  }

  /** With engines that take every batch up to their own size, they also throw on the same faces. */
  lemma SameFacesAccepted(a: Encoder, b: Encoder, front: seq<Image>, back: seq<Image>)
    requires a.net == b.net && a.cfg.inputSize == b.cfg.inputSize && a.cfg.batchSize > 0 && b.cfg.batchSize > 0
    requires forall n: nat :: n <= a.cfg.batchSize ==> a.Accepts(n)
    requires forall n: nat :: n <= b.cfg.batchSize ==> b.Accepts(n)
    ensures a.BatchEncodes(front + back) <==> b.BatchEncodes(front) && b.BatchEncodes(back)
  {
    EncodableBoth(front, back, a.cfg.inputSize);
  }

  lemma EncodableBoth(front: seq<Image>, back: seq<Image>, side: nat)
    ensures AllEncodable(front + back, side) <==> AllEncodable(front, side) && AllEncodable(back, side)
  {
    var all := front + back;
    forall k | 0 <= k < |back| ensures all[|front| + k] == back[k] {}
    forall k | 0 <= k < |front| ensures all[k] == front[k] {}
  }

  lemma EncodableParts(faces: seq<Image>, i: nat, end: nat, side: nat)
    requires i <= end <= |faces|
    ensures AllEncodable(faces[..i], side) && AllEncodable(faces[i..end], side) ==> AllEncodable(faces[..end], side)
    ensures AllEncodable(faces, side) ==> AllEncodable(faces[i..end], side)
  {
    if AllEncodable(faces[..i], side) && AllEncodable(faces[i..end], side) {
      forall k | 0 <= k < end ensures Encodable(faces[..end][k], side) {
        if k < i { assert faces[..end][k] == faces[..i][k]; } else { assert faces[..end][k] == faces[i..end][k - i]; }
      }
    }
  }

  function Least(x: nat, y: nat): nat { if x <= y then x else y }

  /** The chunk that starts at a multiple of the batch size is a full batch or the remainder. */
  lemma ChunkSize(n: nat, b: nat, c: nat, i: nat)
    requires b > 0 && i == Offset(c, b) && i < n
    ensures i + b == Offset(c + 1, b)
    ensures i + b > n ==> n % b == n - i && n % b != 0
    ensures i + b == n ==> n % b == 0
    ensures i + b <= n ==> n >= b
  {
    assert i == c * b;
    if i + b > n { DivMod(c, n - i, b); }
    if i + b == n { DivMod(c + 1, 0, b); }
  }

  /** Where row `i` goes, and that it fits. */
  lemma RowOffset(rows: seq<seq<real>>, p: nat, i: nat, at: nat)
    requires Uniform(rows, p) && i < |rows| && at == Offset(i, p)
    ensures |Flat(rows[..i])| == at && at + p <= |Flat(rows)| && Flat(rows[..i + 1]) == Flat(rows[..i]) + rows[i]
  {
    FlatLength(rows[..i], p);
    assert rows[..i + 1] == rows[..i] + [rows[i]];
    FlatAppend(rows[..i], rows[i]);
    FlatRow(rows, p, i, at);
  }

  function NormalizedAll(rows: seq<seq<real>>, norm: Norm): seq<seq<real>> {
    seq(|rows|, i requires 0 <= i < |rows| => L2Normalized(rows[i], norm))
  }
}
