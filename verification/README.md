# A verified model of the face-recognition pipeline

This project models the parts of the pipeline that carry its meaning: the five-point similarity
estimator, the SCRFD post-processing and detector, the batched ArcFace encoder, the owners of
device memory, the vector index with its GPU copy, the per-frame recognition chain and the
registry of video sources. Arithmetic is over exact reals and unbounded integers.

What the source computes in one expression is a function here; what it does step by step is a
method with loops, and the objects whose methods update their fields are classes. Each such
method is proved against a function of its inputs or of the old state, and the properties the
source promises are lemmas about those functions and invariants over whole runs.

| file | component |
|---|---|
| `Common.dfy`, `Arithmetic.dfy` | exceptions, options, growing vectors, points and rectangles; products and squares |
| `SimilarityTransform.dfy`, `FaceAligner.dfy` | Umeyama estimator (IEEE TPAMI 13(4), 1991), template scaling |
| `Letterbox.dfy`, `PlanarImages.dfy` | letterbox arithmetic and coordinates, planar layout |
| `Overlap.dfy`, `GreedySelection.dfy`, `Nms.dfy` | intersection over union, greedy kernel, non-maximum suppression |
| `ScrfdDecode.dfy`, `StrideInference.dfy`, `ScrfdDetector.dfy`, `DetectorReads.dfy` | anchor grid and decoder, strides from shapes, the detector, which reads stay in bounds |
| `Embeddings.dfy`, `ArcFaceEncoder.dfy` | normalization, chunked encoding through reused scratch |
| `DeviceMemory.dfy`, `TrtEngine.dfy` | owned device allocations, the engine's bindings and buffers |
| `FaissSearcher.dfy`, `MatchDecision.dfy`, `ProbeChain.dfy`, `Recognition.dfy` | index mirroring and search, the margin rule, frame processing, and what a reported identity means end to end |
| `SourceRegistry.dfy` | adding and removing sources under a mutex |

External code enters as a parameter with a stated contract: the singular value decomposition
(`IsSvd`), the Euclidean norm (`IsNorm`), image resizing (`IsResize`), the ranking of neighbours
(`IsRanking`), the networks (functions of their input), and for each call that may fail, its
outcome. The order that `std::sort` leaves is any permutation with descending scores. Where the
source reads past the end of a buffer without looking, the model stops with the outcome `Overread`,
or takes what it finds there as a parameter.

Where the code and what is said about it differ, the model follows the code:

- A suppression threshold of 1 keeps exact duplicates too, because the comparison is strict
  (`src/trt/scrfd_postprocess.cpp:125`); the name of the test at `tests/test_scrfd_decode.cpp:229`
  says otherwise. See `Nms.NmsAtOne`.
- The configuration accepts any detector size that is a multiple of 32, but the strides are
  inferred from the width as if the input were square (`src/trt/scrfd_detector.cpp:39-44`).
  `StrideInference.AllRecovered` gives the exact range of aspect ratios for which all strides come
  out right, and `StrideInference.NonSquareMisread` shows 640x480 outside it. A misread stride is
  harmless for inputs at least as wide as high, but a 480x640 input makes the decoder read past its
  tensors. `DetectorReads.ReadsInBounds` says for which sizes it does.
- `letterbox` documents exceptions for empty images and targets only; for extreme aspect ratios a
  side rounds to zero and the resize throws. `Letterboxing.FitGeometry` says exactly when.
- Scaling the template scales the estimated transform only if the landmarks do not all coincide:
  the fallback keeps scale 1. See `SimilarityTransform.TargetScaling`.
- The comment in `set_input_shape` speaks of reallocating when the shape is larger
  (`src/trt/trt_engine.cpp:170`); the code always reallocates. When that allocation fails the
  context keeps the address of the freed buffer. See `TrtEngines.ShapesOverRun`.
- If making the GPU copy throws, an index that was on the GPU keeps answering from the old copy.
  `FaissSearcher.StepMirrors` says exactly when, and that the next call that returns repairs it.
- The index type is documented as chosen by enrolment size
  (`include/face_pipeline/indexing/faiss_searcher.hpp:16-18`); the code only falls back from a configured
  compressed index to a flat one. See `FaissSearcher.BuildServes`.
- An addition that fails after its bin joined the pipeline leaves the bin there, and nothing takes
  it out; removed sources leave the muxer pad requested. See `SourceRegistry.OrphansOfRun` and
  `SourceRegistry.AddThenRemove`.
- The width of the encoder's output is never compared with the configured dimension. With wider rows
  the embeddings of a chunk mix neighbouring faces; `ArcFaceEncoder.WidthMatters` says exactly when.
- `add` takes fewer identifiers than columns and then reads on behind them
  (`src/indexing/faiss_searcher.cpp:104-105`). See `FaissSearcher.IdentifiersMissing`.

## Model

| member | source | states |
|---|---|---|
| `SimilarityTransform.SandwichIsProduct` | src/align/similarity_transform.cpp:44 | the dyad form used in the proofs is the matrix product U diag(d) V^T |
| `SimilarityTransform.GuardedRotation` | src/align/similarity_transform.cpp:30-44 | for every valid decomposition the guarded product is a proper rotation (determinant +1), the scale numerator is non-negative, and scale times rotation is one closed form in the covariance: the choice of decomposition does not matter |
| `SimilarityTransform.ScaledRotation` | src/align/similarity_transform.cpp:31-45 | the imperative guard, scale and fallback give a proper rotation and a non-negative scale whose product is the closed form |
| `SimilarityTransform.SpreadZero` | src/align/similarity_transform.cpp:40-45 | the fallback is taken exactly when all source points coincide |
| `SimilarityTransform.Excess` | src/align/similarity_transform.cpp:25-46 | the exact surplus of any other similarity's squared residual over the estimate's, as a sum of two squares |
| `SimilarityTransform.LeastSquares` | src/align/similarity_transform.cpp:25-46 | for all pairs of lists and all similarities, fallback included: no residual is below the estimate's, and equality holds exactly for the similarities that join the centroids with the same linear part (any, if the source has no spread) |
| `SimilarityTransform.EstimateIsLeastSquares` | include/face_pipeline/align/similarity_transform.hpp:9-26 | the closed form minimizes the squared residual over all similarities |
| `SimilarityTransform.ExactRecovery` | include/face_pipeline/align/similarity_transform.hpp:9-11 | a target that is a similarity image of a non-coincident source gives that similarity back, at any scale |
| `SimilarityTransform.TargetScaling` | src/align/face_aligner.cpp:28-33 | scaling the target by k scales the whole matrix by k if and only if the source points do not all coincide, or k is 1 |
| `SimilarityTransform.FallbackTranslates` | include/face_pipeline/align/similarity_transform.hpp:19-22 | for coincident source points: no scaling, no rotation, and the translation to the target's centroid |
| `SimilarityTransform.EstimateSimilarityTransform` | src/align/similarity_transform.cpp:8-56 | throws exactly below two pairs; otherwise the 2x3 matrix written cell by cell is the least-squares similarity, whatever decomposition was returned |
| `FaceAligner.Aligner.constructor` | src/align/face_aligner.cpp:28-33 | the loop leaves the 112-pixel template stretched to the output side |
| `FaceAligner.Aligner.Align` | src/align/face_aligner.cpp:35-42 | the warp is driven by the least-squares similarity from the landmarks to the aligner's template |
| `FaceAligner.TemplateRatio` | src/align/face_aligner.cpp:28-33 | templates of two sides are multiples of each other by the ratio of the sides |
| `FaceAligner.TemplatePoints` | src/align/face_aligner.cpp:15-33 | the five published points at 112 pixels, and in proportion at every other side |
| `FaceAligner.AlignersAgree` | src/align/face_aligner.cpp:28-42 | aligners of two sizes map every image point to the same place up to the ratio of sides, exactly when the landmarks do not all coincide or the sides are equal |
| `Letterboxing.CoordinateRoundTrip` | include/face_pipeline/trt/scrfd_postprocess.hpp:42-45 | mapping into the letterbox and back is the identity, both ways |
| `Letterboxing.FitGeometry` | src/trt/scrfd_postprocess.cpp:26-29 | the resized content fits and touches the target in a dimension; each side vanishes exactly under an integer condition on the aspect ratios |
| `Letterboxing.CanvasUnique` | src/trt/scrfd_postprocess.cpp:36-37 | content at the padding and black elsewhere determines the canvas |
| `Letterboxing.Draw` | src/trt/scrfd_postprocess.cpp:36-37 | copying the content into its region of a zero canvas gives that canvas |
| `Letterboxing.LetterboxFit` | src/trt/scrfd_postprocess.cpp:26-37 | the region of interest lies inside the canvas; the resize is refused exactly in the predicted case |
| `Letterboxing.LetterboxMeans` | src/trt/scrfd_postprocess.cpp:26-38 | the result is the source at the largest scale that fits, both sides rounded to nearest, in the middle of a canvas of the target size that is zero in all channels around it |
| `Letterboxing.Letterbox` | src/trt/scrfd_postprocess.cpp:18-39 | throws exactly in the predicted cases with the predicted exception, and otherwise returns such a letterboxed image |
| `Letterboxing.ContentCentered` | src/trt/scrfd_postprocess.cpp:30-37 | left and top padding are non-negative and within one pixel of right and bottom |
| `Letterboxing.ContentEdges` | include/face_pipeline/trt/scrfd_postprocess.hpp:42-45 | undoing the letterbox sends the near corner of the content to the origin and the far corner to the source extents within 1/(2 scale) |
| `Detections.UndoRedo` | include/face_pipeline/trt/scrfd_postprocess.hpp:42-45 | the change of frame of a whole detection is invertible |
| `BoxOverlap.IouSymmetric` | src/trt/scrfd_postprocess.cpp:100-110 | overlap is symmetric |
| `BoxOverlap.IouRange` | src/trt/scrfd_postprocess.cpp:100-110 | overlap lies in [0, 1] for all boxes, negative extents included |
| `BoxOverlap.IouInvariant` | src/trt/scrfd_postprocess.cpp:100-110 | overlap does not change when the letterbox is undone, for any positive scale and any padding |
| `BoxOverlap.IouIsAreaRatio` | src/trt/scrfd_postprocess.cpp:100-110 | for boxes of positive extent, overlap times the area that either covers is the area of the rectangle of their common points |
| `BoxOverlap.IouApart` | src/trt/scrfd_postprocess.cpp:105-109 | boxes without a common point have overlap zero |
| `BoxOverlap.IouComplete` | src/trt/scrfd_postprocess.cpp:108-109 | overlap one means equal boxes |
| `GreedySelection.KernelUnique` | src/trt/scrfd_postprocess.cpp:116-129 | the equation "kept iff no earlier kept entry suppresses it" has one solution, and the greedy selection is what it keeps |
| `GreedySelection.KernelExists` | src/trt/scrfd_postprocess.cpp:116-129 | and it has one |
| `GreedySelection.PositionsOfSurvivors` | src/trt/scrfd_postprocess.cpp:121 | the selection is a subsequence of the sorted list |
| `GreedySelection.SelectionOrdered` | src/trt/scrfd_postprocess.cpp:112-131 | a selection keeps the ranking of its list and no kept entry suppresses a later one |
| `GreedySelection.SelectionCovers` | src/trt/scrfd_postprocess.cpp:112-131 | every entry is selected or suppressed by an earlier selected one |
| `GreedySelection.SeparatedKept` | src/trt/scrfd_postprocess.cpp:112-131 | the selection is the whole list if and only if nothing in it suppresses anything |
| `GreedySelection.SurvivorsMapped` | src/trt/scrfd_postprocess.cpp:112-131 | selection commutes with any map that preserves suppression |
| `Nms.SortByScore` | src/trt/scrfd_postprocess.cpp:113-114 | a permutation of the input with descending scores |
| `Nms.SuppressFrom` | src/trt/scrfd_postprocess.cpp:122-128 | the inner loop marks exactly the later entries that the kept one suppresses |
| `Nms.Nms` | src/trt/scrfd_postprocess.cpp:112-131 | the loop with its bitmap returns the greedy selection of a score-sorted permutation |
| `Nms.NmsSound` | src/trt/scrfd_postprocess.cpp:112-131 | output sorted, pairwise within the threshold, drawn from the input; every input is kept or covered by a kept box scoring at least as high |
| `Nms.NmsKeepsAll` | src/trt/scrfd_postprocess.cpp:125 | nothing is lost if and only if no two inputs overlap by more than the threshold |
| `Nms.NmsAtOne` | src/trt/scrfd_postprocess.cpp:125 | a threshold of at least one returns a permutation of the input, duplicates included |
| `Nms.KeptWithin` | src/trt/scrfd_postprocess.cpp:125 | any two kept boxes overlap by at most the threshold |
| `Nms.NmsDropsDuplicates` | src/trt/scrfd_postprocess.cpp:125 | below one, no two kept boxes of positive area are equal |
| `Nms.NmsIdempotent` | src/trt/scrfd_postprocess.cpp:112-131 | suppressing a result again keeps every box |
| `Nms.NmsDeterministic` | src/trt/scrfd_postprocess.cpp:113-114 | with distinct scores every permutation of the input and every admissible sort give the same result |
| `Nms.NmsTie` | src/trt/scrfd_postprocess.cpp:113-114 | without that, either of two tied overlapping boxes may survive |
| `Nms.SelectionMapped` | src/trt/scrfd_postprocess.cpp:112-131 | for one sort order, selecting and undoing the letterbox commute |
| `Nms.NmsCommutes` | src/trt/scrfd_postprocess.cpp:112-131 | suppressing and then mapping back is a result of mapping back and then suppressing |
| `Nms.NmsCommutesBack` | src/trt/scrfd_postprocess.cpp:112-131 | and there is no other result |
| `ScrfdDecode.AnchorCount` | src/trt/scrfd_postprocess.cpp:62-67 | throws exactly for strides that are not positive; otherwise whole rows times whole columns times anchors |
| `ScrfdDecode.TotalAnchorCount` | src/trt/scrfd_postprocess.cpp:69-75 | the sum over all strides |
| `ScrfdDecode.TotalForMultiplesOf32` | src/trt/scrfd_postprocess.cpp:69-75 | 42 anchors for each 32x32 block |
| `ScrfdDecode.FlatBijection` | src/trt/scrfd_postprocess.cpp:140-143 | row, column and anchor are recovered from the flat index, which is in range: no anchor is visited twice |
| `ScrfdDecode.FlatOnto` | src/trt/scrfd_postprocess.cpp:140-143 | and every flat index is visited |
| `ScrfdDecode.Distance2Kps` | src/trt/scrfd_postprocess.cpp:89-98 | the loop computes the five landmarks |
| `ScrfdDecode.DecodeAnchor` | src/trt/scrfd_postprocess.cpp:143-155 | one round appends the detection of its flat index, or nothing below the threshold; and that regresses from its own cell |
| `ScrfdDecode.DecodeStride` | src/trt/scrfd_postprocess.cpp:133-159 | the triple loop appends exactly the in-order filter and map over flat indices, behind what was there, with the meaning of the next row |
| `ScrfdDecode.DecodeMeans` | src/trt/scrfd_postprocess.cpp:77-98 | one detection for each anchor whose score reaches the threshold and no other; in the letterbox each edge and landmark lies at its own tensor entry, in strides, from the corner of the anchor's cell, on its own side |
| `ScrfdDecode.HigherThreshold` | src/trt/scrfd_postprocess.cpp:144-146 | a higher threshold yields exactly the detections that reach it, in order |
| `ScrfdDecode.DecodedBound` | src/trt/scrfd_postprocess.cpp:140-156 | at most one detection an anchor, each at or above the threshold, each with five landmarks |
| `ScrfdDecode.DecodeFrame` | src/trt/scrfd_postprocess.cpp:77-98 | decoding into the original frame is decoding in the letterbox and mapping every detection back |
| `PlanarImages.CellInjective` | src/trt/scrfd_postprocess.cpp:53-57 | no destination cell is written twice |
| `PlanarImages.CellOnto` | src/trt/scrfd_postprocess.cpp:53-57 | and none is skipped |
| `PlanarImages.WritePlanar` | src/trt/scrfd_postprocess.cpp:46-59 | the loops store channel 2-c of each pixel at c*H*W + y*W + x of the slice, and touch nothing outside it |
| `PlanarImages.HwcBgrToChwRgb` | src/trt/scrfd_postprocess.cpp:41-60 | throws exactly on other pixel types; otherwise the buffer holds the planar image |
| `PlanarImages.PlanarSlice` | src/trt/scrfd_postprocess.cpp:46-59 | whatever the buffer held, the slice afterwards is the planar form of the image |
| `PlanarImages.PlanarMeans` | src/trt/scrfd_postprocess.cpp:53-57 | red, green and blue of pixel (y, x) stand in their planes at y*W + x, each less 127.5 and divided by the scale |
| `PlanarImages.ScrfdPixels` | src/trt/scrfd_postprocess.cpp:13-14 | the detector divides by 128, so that 0 and 255 become -0.99609375 and its opposite |
| `PlanarImages.PlanarRoundTrip` | src/trt/scrfd_postprocess.cpp:41-60 | an explicit inverse recovers the whole image |
| `PlanarImages.PlanarRange` | include/face_pipeline/trt/scrfd_postprocess.hpp:47-49 | every stored value lies in [-1, 1] |
| `StrideInference.StrideUnique` | src/trt/scrfd_detector.cpp:39-44 | width and count determine the rounded quotient |
| `StrideInference.StrideIsRounding` | src/trt/scrfd_detector.cpp:39-44 | the integer form used here is the source's rounded quotient of width and square root |
| `StrideInference.StrideRecovered` | src/trt/scrfd_detector.cpp:39-44 | for any stride and any grid, the stride is inferred if and only if the aspect ratio lies in a band given by the stride |
| `StrideInference.SquareRecovered` | src/trt/scrfd_detector.cpp:27-31 | on square inputs every stride is inferred |
| `StrideInference.AllRecovered` | src/trt/scrfd_detector.cpp:27-44 | for multiples of 32 all of 8, 16, 32 are inferred if and only if 3969 h <= 4096 w < 4225 h |
| `StrideInference.NonSquareMisread` | src/trt/scrfd_detector.cpp:39-44 | a 640x480 input has its stride-8 outputs taken for stride 9 |
| `StrideInference.WideInferred` | src/trt/scrfd_detector.cpp:39-44 | inputs at least as wide as high never have a stride taken for a finer one |
| `StrideInference.SharedStride` | src/trt/scrfd_detector.cpp:43-47 | outputs of two levels are filed together only under stride one |
| `ScrfdDetector.FileBindings` | src/trt/scrfd_detector.cpp:32-54 | the loop files exactly the usable outputs, by inferred stride and trailing dimension, later ones over earlier ones |
| `ScrfdDetector.TableMeans` | src/trt/scrfd_detector.cpp:32-54 | under each stride, score, box and landmark names are those of the last output with a positive count that rounds to that stride and with last dimension 1, 4 and 10 |
| `ScrfdDetector.ResolveBindings` | src/trt/scrfd_detector.cpp:20-55 | pins the shape of the first binding, with the exception of a refusal or a failed allocation; otherwise the table agrees with the engine's bindings |
| `ScrfdDetector.StandardStrides` | src/trt/scrfd_detector.cpp:27-44 | a standard export of a recoverable size yields exactly the strides 8, 16, 32 |
| `ScrfdDetector.StandardResolved` | src/trt/scrfd_detector.cpp:27-54 | and each role of each stride names the tensor of that shape, whatever the names and the order |
| `DetectorReads.RoleTensor` | src/trt/scrfd_detector.cpp:83-94 | whatever the inference made of the strides, a named role holds trailing-dimension many values for each anchor of some level filed there |
| `DetectorReads.ReadsInBounds` | src/trt/scrfd_detector.cpp:79-101 | for every accepted input size and standard export: all reads of the decoder are inside the tensors if and only if no level's inferred stride asks for more anchors than the level has |
| `DetectorReads.WideReads` | src/trt/scrfd_detector.cpp:79-101 | inputs at least as wide as high are read in bounds even where every stride is misread |
| `DetectorReads.TallOverreads` | src/trt/scrfd_detector.cpp:97-100 | a 480x640 input reads 12376 anchors from tensors of 9600 |
| `DetectorReads.StandardReadable` | src/trt/scrfd_detector.cpp:79-101 | where strides are recovered, all three are decoded and every read is in bounds |
| `DetectorReads.SquareDetectorReads` | src/trt/scrfd_detector.cpp:79-101 | a detector with a square input on a standard export reads in bounds, decodes all strides and reports at most 42 raw detections a block |
| `ScrfdDetector.DecodeAll` | src/trt/scrfd_detector.cpp:78-101 | the loop over the stride map accumulates the strides' detections in ascending order, unless one of them reads past its tensors |
| `ScrfdDetector.RawFrame` | src/trt/scrfd_detector.cpp:97-100 | accumulating in the original frame is accumulating in the letterbox and mapping back |
| `ScrfdDetector.DetectionFrames` | src/trt/scrfd_detector.cpp:78-103 | what decoding and suppression can return in original coordinates is exactly what they can return in letterboxed coordinates, mapped back |
| `ScrfdDetector.RawBound` | src/trt/scrfd_detector.cpp:78-101 | at most 42 raw detections for each 32x32 block |
| `ScrfdDetector.NewDetector` | src/trt/scrfd_detector.cpp:12-16 | construction on a loaded engine: which exception when, or a scratch for one planar input and a table that resolves the pinned bindings |
| `ScrfdDetector.Detector.DetectOne` | src/trt/scrfd_detector.cpp:70-103 | no answer exactly for what letterbox, conversion or engine refuse and for reads past a tensor; otherwise a valid suppression of the decoded answer for this image alone, whatever the scratch held |
| `ScrfdDetector.Detector.DetectBatch` | src/trt/scrfd_detector.cpp:62-107 | one such answer for each image in order, or the failure of the first image that has none |
| `ScrfdDetector.DetectionMeans` | src/trt/scrfd_detector.cpp:69-103 | the engine saw the image letterboxed to the configured width and height, its answer was decoded in that letterbox's frame, every box reaches the configured confidence and no two overlap by more than the configured threshold |
| `Embeddings.L2Normalize` | src/trt/arcface_encoder.cpp:39-44 | in place: a vector of squared length above 1e-24 becomes one of length one along it, any other stays as it is |
| `Embeddings.NormalizedLength` | src/trt/arcface_encoder.cpp:39-44 | the result has squared length one, or its own when nearly zero; never more than one |
| `Embeddings.DotBound` | include/face_pipeline/trt/encoder_iface.hpp:9-13 | Cauchy-Schwarz for vectors of any dimension and length at most one |
| `Embeddings.SimilarityRange` | src/config/system_config.cpp:13-17 | any two normalized vectors have an inner product in [-1, 1], near-zero ones included |
| `ArcFaceEncoder.FlatRow` | src/trt/arcface_encoder.cpp:105-122 | row j of a flat buffer starts j row lengths in |
| `ArcFaceEncoder.RowsOfFlat` | src/trt/arcface_encoder.cpp:105-116 | laying rows end to end and reading them back is the identity |
| `ArcFaceEncoder.PreprocessFace` | src/trt/arcface_encoder.cpp:18-37 | fills the face's own block with its planar form and leaves what lies before it; throws exactly on a crop of the wrong size that is empty or has to become empty |
| `ArcFaceEncoder.FacePixels` | src/trt/arcface_encoder.cpp:26-36 | the three planes of the network's input, with 0 becoming -1 and 255 becoming 1 |
| `ArcFaceEncoder.FirstOutputMeans` | src/trt/arcface_encoder.cpp:92-98 | the output is the first binding that is not an input |
| `ArcFaceEncoder.Encoder.constructor` | src/trt/arcface_encoder.cpp:48-53 | both scratch buffers hold a full batch |
| `ArcFaceEncoder.Encoder.FillInput` | src/trt/arcface_encoder.cpp:105-108 | the front of the input scratch is the chunk's rows end to end, whatever lay there, or the first crop that cannot be resized throws |
| `ArcFaceEncoder.Encoder.CollectOutput` | src/trt/arcface_encoder.cpp:119-125 | appends the blocks of the front of the output scratch, normalized |
| `ArcFaceEncoder.Encoder.EncodeChunk` | src/trt/arcface_encoder.cpp:83-126 | for a chunk within the batch size: throws exactly what is predicted and appends nothing, or appends a block of the device output for each face, which is the face's own embedding if the widths agree |
| `ArcFaceEncoder.WidthMatters` | src/trt/arcface_encoder.cpp:114-124 | with rows at least as wide as configured, each block is the front of its own row for all rows if and only if the widths agree or there is one face |
| `ArcFaceEncoder.ChunkSize` | src/trt/arcface_encoder.cpp:73-79 | a chunk is a full batch or the remainder of the division |
| `ArcFaceEncoder.Encoder.EncodeBatch` | src/trt/arcface_encoder.cpp:69-81 | for any number of faces and any batch size: one embedding a face, each that of the face alone, of length one along the network's row for it unless that is nearly zero, if the widths agree; otherwise what the first failing chunk throws, and one fails exactly when the engine has no output, refuses one of the chunk sizes, or a crop cannot be resized |
| `ArcFaceEncoder.BatchSizeIrrelevant` | src/trt/arcface_encoder.cpp:69-81 | encoders that differ in batch size agree, and a list in one call is its parts in two |
| `ArcFaceEncoder.SameFacesAccepted` | src/trt/arcface_encoder.cpp:69-81 | and they throw on the same faces, if their engines take every batch up to their own size |
| `DeviceMemory.DeviceBuffer.Release` | include/face_pipeline/utils/cuda_helpers.hpp:130-136 | frees once and empties, or does nothing |
| `DeviceMemory.DeviceBuffer.Reset` | include/face_pipeline/utils/cuda_helpers.hpp:140-146 | releases, then allocates; on failure the buffer is empty |
| `DeviceMemory.DeviceBuffer.FromMove` | include/face_pipeline/utils/cuda_helpers.hpp:113-116 | takes over the allocation and empties the source |
| `DeviceMemory.DeviceBuffer.MoveAssign` | include/face_pipeline/utils/cuda_helpers.hpp:117-126 | the same after releasing its own; self-assignment changes nothing |
| `DeviceMemory.NewDeviceBuffer` | include/face_pipeline/utils/cuda_helpers.hpp:104-107 | construction allocates or throws leaving no allocation behind |
| `DeviceMemory.StepKeeps` | include/face_pipeline/utils/cuda_helpers.hpp:101-155 | every operation keeps the live allocations the disjoint union of what the buffers own and of others' |
| `DeviceMemory.RunKeeps` | include/face_pipeline/utils/cuda_helpers.hpp:101-155 | and so does every run, whichever allocations fail |
| `DeviceMemory.RunSame` | include/face_pipeline/utils/cuda_helpers.hpp:101-155 | allocations owned elsewhere are left alone |
| `DeviceMemory.RunRestores` | include/face_pipeline/utils/cuda_helpers.hpp:95-100 | a run that ends without buffers leaves the device as it found it |
| `DeviceMemory.NoLeak` | include/face_pipeline/utils/cuda_helpers.hpp:95-100 | once every buffer is gone nothing is live and each allocation ever made was freed exactly once |
| `TrtEngines.VolumeOf` | src/trt/trt_engine.cpp:68-76 | the loop computes the product of the extents |
| `TrtEngines.VolumePositive` | src/trt/trt_engine.cpp:68-76 | which is positive if and only if every extent is |
| `TrtEngines.VolumeConcat` | src/trt/trt_engine.cpp:68-76 | volumes of concatenated shapes multiply; the empty shape has one element, a single extent itself or none |
| `TrtEngines.TensorBytes` | src/trt/trt_engine.cpp:47-66 | how many bytes a tensor of each type takes |
| `TrtEngines.BufferMap.ResetNamed` | src/trt/trt_engine.cpp:136-137 | indexing the map and resetting, with the default insertion |
| `TrtEngines.TrtEngine.Binding` | src/trt/trt_engine.cpp:206-212 | the first binding of the name, or out of range exactly when there is none |
| `TrtEngines.TrtEngine.AddBinding` | src/trt/trt_engine.cpp:115-143 | one round of the constructor: buffer, address and binding together, or the failure |
| `TrtEngines.AddKeeps` | src/trt/trt_engine.cpp:115-143 | sizes and addresses stay those of the bindings |
| `TrtEngines.Load` | src/trt/trt_engine.cpp:92-144 | the constructor succeeds exactly when the engine starts up and every allocation it needs does; otherwise it throws a runtime error, part-way included, with everything it allocated freed and the device as before |
| `TrtEngines.Unwind` | include/face_pipeline/utils/cuda_helpers.hpp:97-100 | unwinding a half-built engine restores the device |
| `TrtEngines.TrtEngine.SetInputShape` | src/trt/trt_engine.cpp:153-178 | which exception for which refusal or failure, and the whole state it leaves |
| `TrtEngines.ShapeStep` | src/trt/trt_engine.cpp:170-177 | after a call that reaches a binding its buffer has the size asked for if and only if the call returned, and its address is current if and only if it returned or there was none to lose; nothing else is touched |
| `TrtEngines.ShapesRefused` | src/trt/trt_engine.cpp:156-171 | which refusal when: more than eight dimensions, the context's answer, an unknown name |
| `TrtEngines.ShapesOverRun` | src/trt/arcface_encoder.cpp:103 | over any sequence of shape changes, refused and failing ones included: sizes and addresses are right exactly for the bindings whose last effective call returned |
| `TrtEngines.LoadedIsSound` | src/trt/trt_engine.cpp:115-143 | what the constructor leaves is such a start |
| `FaissSearcher.RootIsFloor` | src/indexing/faiss_searcher.cpp:30 | the truncated multiple of the square root is the integer root of 16 n |
| `FaissSearcher.NlistLargest` | src/indexing/faiss_searcher.cpp:27-32 | from 39 vectors on, the largest k with 39 k <= n and k k <= 16 n |
| `FaissSearcher.NlistMonotone` | src/indexing/faiss_searcher.cpp:27-32 | at least one, never decreasing, never more than the vectors |
| `FaissSearcher.NlistBranches` | src/indexing/faiss_searcher.cpp:31 | the training bound decides exactly below 24375 vectors |
| `FaissSearcher.Searcher.Build` | src/indexing/faiss_searcher.cpp:57-98 | the size check, the fallback of the index type, the cell count, and the new state or the state a failure leaves |
| `FaissSearcher.Searcher.Add` | src/indexing/faiss_searcher.cpp:100-110 | the same for additions, with what lies behind too short a list of identifiers |
| `FaissSearcher.IdentifiersMissing` | src/indexing/faiss_searcher.cpp:104-105 | what lies there matters exactly when there are fewer identifiers than columns |
| `FaissSearcher.Searcher.Remove` | src/indexing/faiss_searcher.cpp:112-122 | the same for removals |
| `FaissSearcher.Searcher.Load` | src/indexing/faiss_searcher.cpp:165-173 | the same for loading a file |
| `FaissSearcher.BuildServes` | src/indexing/faiss_searcher.cpp:65-94 | after a build that returns: one entry for each column under its identifier, with the configured metric and compression, trained on all columns, compressed exactly when configured and large enough, on the GPU exactly when one is configured, and with enough training vectors for the default cell count |
| `FaissSearcher.AddServes` | src/indexing/faiss_searcher.cpp:100-110 | after an addition that returns: what was there, then one entry for each column under its identifier, and nothing else changed |
| `FaissSearcher.RemoveServes` | src/indexing/faiss_searcher.cpp:112-122 | after a removal that returns: no entry under a listed identifier, every other entry as often as before, and nothing else changed |
| `FaissSearcher.LoadServes` | src/indexing/faiss_searcher.cpp:165-173 | after a load that returns: the file's index and dimension |
| `FaissSearcher.BuildFails` | src/indexing/faiss_searcher.cpp:63-88 | a build that throws while training or filling changes nothing but the dimension |
| `FaissSearcher.CallsTurnedAway` | src/indexing/faiss_searcher.cpp:60-62 | which calls throw before they reach FAISS, and that these change nothing |
| `FaissSearcher.StepMirrors` | src/indexing/faiss_searcher.cpp:88-94 | a call that returns leaves the GPU copy equal to the CPU index even if it was stale; one that throws makes it stale exactly when there is a copy and the CPU index changed |
| `FaissSearcher.RunMirrored` | src/indexing/faiss_searcher.cpp:57-122 | over any run with failures anywhere: mirrored unless the last call that was not turned away threw |
| `FaissSearcher.RunContents` | src/indexing/faiss_searcher.cpp:57-122 | after any run the index holds what was enrolled since the last build or load, less what later calls removed |
| `FaissSearcher.ReportedIsRanked` | src/indexing/faiss_searcher.cpp:148-153 | the reported hits are the slots with non-negative labels, at most as many as asked for, still best first |
| `FaissSearcher.FlatHitsAt` | src/indexing/faiss_searcher.cpp:149 | slot r of query q stands at q * k + r of the flat result |
| `FaissSearcher.Searcher.SearchBatch` | src/indexing/faiss_searcher.cpp:131-156 | row q answers query q alone; the error before a build; when mirrored, the answers of the CPU index |
| `FaissSearcher.Searcher.Search` | src/indexing/faiss_searcher.cpp:124-129 | the batch of one, with its length and ranking |
| `MatchDecision.DecisionMeans` | include/face_pipeline/pipeline/match_decision.hpp:18-39 | on a ranked list: accepted if and only if the first clears the threshold and leads every other candidate by the margin, or alone reaches it |
| `MatchDecision.SettingsMatter` | src/config/system_config.cpp:103-106 | cosine margins with a runner-up lie in [0, 2]; settings above the accepted ranges reject every probe, and those below disable their check |
| `MatchDecision.ListLengthMatters` | src/pipeline/probe_chain.cpp:84-95 | asking for two or more neighbours decides alike; asking for one differs exactly when the hidden runner-up changes the side of the margin |
| `ProbeChain.Chain.Process` | src/pipeline/probe_chain.cpp:23-103 | through every exit path the result is the face-by-face one, reported once and returned |
| `ProbeChain.Chain.AlignAll` | src/pipeline/probe_chain.cpp:36-40 | one crop for each face, and crop i is the image warped by a least-squares similarity from the landmarks of face i to the template |
| `ProbeChain.FaceAlone` | src/pipeline/probe_chain.cpp:36-98 | with an encoder that answers crop by crop, each face of a frame comes out as the one face of the frame that holds it alone |
| `ProbeChain.FrameFaithful` | src/pipeline/probe_chain.cpp:23-103 | faces and boxes preserved; embeddings all or none, paired by index; the reported similarity and margin are those of the hits; an identity is reported if and only if the face is embedded, the index is not empty, and it is the top hit of an accepted ranked list |
| `ProbeChain.Chain.ProcessFrames` | src/pipeline/probe_chain.cpp:23-103 | handing over any frames one after another, with any encoder behaviour: one faithful result a frame is returned, and the callback has seen the same results in the same order |
| `ProbeChain.ResultsFaithful` | src/pipeline/probe_chain.cpp:23-103 | the results of fresh frames are faithful |
| `ProbeChain.StricterDrops` | include/face_pipeline/pipeline/match_decision.hpp:18-27 | stricter settings drop identities and change nothing else |
| `ProbeChain.IdentityMeans` | src/pipeline/probe_chain.cpp:83-98 | with cosine similarities a reported identity is non-negative, clears the threshold and leads every other hit by the margin |
| `Recognition.EncoderNormalizes` | include/face_pipeline/trt/encoder_iface.hpp:9-13 | every embedding of the encoder is normalized and as wide as the network's rows |
| `Recognition.RunNormalized` | include/face_pipeline/indexing/faiss_searcher.hpp:21-22 | after any run that enrols normalized vectors the index holds nothing else |
| `Recognition.HitsAreCosines` | include/face_pipeline/indexing/faiss_searcher.hpp:21-22 | inner products of a normalized query with normalized entries are cosine similarities |
| `Recognition.ReportedIdentity` | src/pipeline/probe_chain.cpp:83-98 | from enrolment to report: an identity in a frame's result is that of a vector enrolled since the last build or load and not removed, whose cosine similarity to the face clears the threshold and leads every other hit by the margin |
| `SourceRegistry.DecimalInjective` | src/pipeline/deepstream_pipeline.cpp:102 | decimal numerals determine their number |
| `SourceRegistry.DecimalReads` | src/pipeline/deepstream_pipeline.cpp:102 | numerals are digits without a leading zero that read as their number |
| `SourceRegistry.BinNameInjective` | src/pipeline/deepstream_pipeline.cpp:102 | bin names determine their index |
| `SourceRegistry.NewPipeline` | src/pipeline/deepstream_pipeline.cpp:34-67 | construction fails exactly above 32 streams or when an element or link is missing, with the exception of the first failure |
| `SourceRegistry.Pipeline.AddSource` | src/pipeline/deepstream_pipeline.cpp:90-136 | true if and only if there is room, the identifier is new and all five framework steps succeed; and exactly what each failing step leaves in sources, counter, bins and pads |
| `SourceRegistry.AdditionsRefused` | src/pipeline/deepstream_pipeline.cpp:92-99 | in every interleaving an addition is refused exactly when successful additions less successful removals before it reach the limit, its identifier is registered at that point, or a framework step fails |
| `SourceRegistry.Pipeline.RemoveSource` | src/pipeline/deepstream_pipeline.cpp:138-154 | true if and only if the identifier is registered; then it and its own bin are gone and nothing else is |
| `SourceRegistry.RemovalsSucceed` | src/pipeline/deepstream_pipeline.cpp:140-142 | in every interleaving a removal succeeds exactly when its identifier is registered at that point |
| `SourceRegistry.CountBalances` | src/pipeline/deepstream_pipeline.cpp:186-189 | in every interleaving a count is answered with the successful additions less the successful removals before it, at most the limit |
| `SourceRegistry.RequestKeeps` | src/pipeline/deepstream_pipeline.cpp:90-154 | each request keeps the limit, distinct indices below the counter, distinct bin names, and a bin for each source |
| `SourceRegistry.AdvanceKeeps` | src/pipeline/deepstream_pipeline.cpp:90-154 | and so does each step inside the mutex, with what is pending |
| `SourceRegistry.EntryCompletes` | src/pipeline/deepstream_pipeline.cpp:90-154 | the steps inside the mutex amount to the whole request |
| `SourceRegistry.EveryStateSafe` | src/pipeline/deepstream_pipeline.cpp:37-39 | in every state of every interleaving of any number of threads: at most max_streams and 32 sources, indices distinct and below the counter, bin names unique, bins and pads a superset of the sources' except the one being removed |
| `SourceRegistry.EveryInterleavingLinearizes` | src/pipeline/deepstream_pipeline.cpp:90-154 | every interleaving is a sequence of whole requests with their sequential answers, in each thread's order |
| `SourceRegistry.OrphansGrow` | src/pipeline/deepstream_pipeline.cpp:111-126 | one request adds exactly the bin it leaves by failing late to the bins without a source, and takes none out |
| `SourceRegistry.OrphansOfRun` | src/pipeline/deepstream_pipeline.cpp:111-126 | over any run the bins without a source are exactly those that its additions left by failing late |
| `SourceRegistry.AddThenRemove` | src/pipeline/deepstream_pipeline.cpp:138-151 | removing what was just added restores sources and bins, and leaves the counter and the muxer pad |

## Left out

- Floating-point rounding: letterbox, overlap, decoding, the estimator, norms, square roots and rounding are exact reals.
- Integer widths: `volume_of`, the anchor counts, the source counter and the cell count do not wrap, and `nlist` is not narrowed to 32 bits.
- Pixel interpolation: `cv::resize` is any function with the right size and type, and `cv::warpAffine` any function of the image and the transform.
- The decomposition, the norm and the networks are parameters with contracts; their numerical algorithms are not modelled.
- TensorRT and CUDA streams: copies and inference are functions of buffer contents; asynchronous ordering is not modelled.
- The layout of half-precision outputs: buffer contents are reals, while allocation sizes do count bytes.
- Reads past a buffer: what the source does after one is undefined; the model only says when there is one.
- ArcFaceEncoder.Encoder.EncodeChunk: device copies that would leave the output allocation are a CUDA error, reported as a runtime error; crops are taken as BGR, which the source does not check.
- Engine files: their contents and format.
- FAISS training, cell assignment, compression and recall: an index is its layout, training set and entries in order of enrolment, and a search ranks by any function of that and the query; `nprobe` is never applied by the source.
- FaissSearcher.Searcher.SearchBatch: does not model FAISS refusing a `top_k` of zero or a query of another dimension; the configuration rules the first out.
- Saving an index and the file format: loading takes the index that the file holds.
- The L2 metric with the margin rule, which takes larger values as better, and compressed indexes, whose scores are approximate: `Recognition.ReportedIdentity` assumes exact inner products.
- ProbeChain.Chain.Process: alignment, search and the callback do not throw; the source catches encoder exceptions only.
- Identities of the runner-up: enrolment may give several images one identifier, so a lead over the runner-up is not a lead over another person.
- SourceRegistry.Pipeline.RemoveSource: taking a bin out of the pipeline is assumed to succeed, since the source ignores the answer.
- Start, stop and wait of the pipeline, the main loop and its thread, and reference counts of framework objects.
- Configuration files and the validator, beyond the ranges it accepts for the threshold and the margin.
- `PinnedBuffer` and `CudaStream`, which own one resource each in the way `DeviceBuffer` does.
- Programs, tools, logging and build files.
