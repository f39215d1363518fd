# Verified model of the inference host code

This project models the host side of an FPGA inference suite and proves what it keeps. Six parts of
the repository are covered, each in its own group of modules; they depend on each other only where
the program's do.

* **Detection metrics** (`Boxes`, `Pixels`, `Suppression`, `Predictions`, `Matching`, `MatchingLaws`,
  `BatchMetrics`, `CurveLaws`, `MetricLaws`, `TieOrders`, `TieWitness`, `SortChoice`, `HeadParsing`,
  `HeadLaws`, `Letterbox`):
  from the flat output of the detection heads to the batch score. Loops over vectors are methods
  proved against recursive specifications; what the pipeline promises is then proved about the
  specifications.
* **Bus protocol** (`BitPacking`, `Bursts`, `WeightLoad`): elements of any width packed into 64-bit
  words, the burst planner, and the recursive weight load over a device that latches registers.
* **Requests and streaming** (`RequestQueue`, `GraphDispatch`, `DispatchEnds`, `FifoFeed`): the
  pool of asynchronous requests, the dispatch loop over several graphs in every interleaving with
  their callbacks, and the single-slot hand-off to the FIFO thread in every interleaving of
  dispatcher, device and feeder.
* **Key/value cache and attention weights** (`KvCache`, `AttentionWeights`): index tables and
  reshape/transpose chains against the history and the matrices they stand for.
* **Inputs** (`InputFiles`, with `Letterbox`): which file is inferred, and which file its result is
  scored against. Files are positions in one sorted list of distinct paths.
* **Classification and arguments** (`TopResults`, `TopLaws`, `ArgumentParser`, `ArgumentLaws`):
  streaming top-k, hit counts, and the scale/mean argument parser.

`Lists`, `Sorting`, `Arithmetic`, `Reals` and `Wrappers` hold what several of them need.

Verify everything with `dafny verify dfyconfig.toml`.

## Modelling decisions

* `double` is `real`; rounding is not modelled. `std::sort` and `std::partial_sort` are modelled as
  *some* sorted permutation: contracts never fix the order among equal scores, so every theorem
  holds for whatever the library does with ties. Where two sorts occur in one computation each has
  a permutation of its own.
* A 64-bit word is a sequence of 64 bits; `LowMaskValue`, `ShiftLeftValue` and `ShiftRightValue` tie
  masks and shifts to numbers modulo `2^64`. In `Bursts` the `uint32_t` burst size is truncated
  explicitly; `size_t` itself is unbounded.
* With an interval of 1 the source samples at a point that is not a number, which no recall
  reaches, and with 0 it samples nothing: both give the score 0.
* Class count, thresholds, grids, interval, bus width, lanes, burst size and host buffer size are
  parameters. `WeightLoad.OneUnitTooMany` uses the constants of
  `platform/agx7_iseries_ofs_pcie_spatial/templates/config.jinja2` (64-byte units, 4096-byte bursts,
  2 MB pieces).
* The device behind the registers is not part of the repository. It is assumed to latch destination
  and burst length and to copy `burst length + 1` transfer units on every write of the source
  address, with the bits of the destination below one unit selecting the bank. The polling loop for
  a read slot is one step after which at most 250 reads are pending. Mapping the registers and
  pinning a buffer may fail at any call: which calls succeed is a parameter of the device. The host
  buffer is filled by whole 64-bit words, so `WeightLoad.Usable` asks for transfer units of at least
  8 bytes; `Bursts` needs no such bound.
* The `Memory`, `Rom`, `Dot` and `Accumulator` layers are not part of the repository either. Assumed:
  per iteration a memory stores `p_in` packets at the next input indices, then emits `p_out` packets
  at the next output indices, tables start over when used up, and the accumulator adds the products
  of consecutive packets.
* Condition-variable waits are modelled by what holds once the wait is over; each critical section
  is one step.
* Scoring finds an annotation by the stem of a file name
  (`runtime/dla_benchmark/average_precision.cpp:253-262`). The model speaks of the file a result is
  scored against: files of one stem, such as `a.dib` and `a.jpg`, share an annotation, so a result can
  meet the right annotation by way of the wrong file.
* Files, images, number reading (`std::stof`) and the activation functions are parameters.

## Where the code differs from what one would expect

Each of these is a proved statement about the model, not a change of it.

* The comment at `runtime/dla_benchmark/average_precision.cpp:517-519` says a box is kept exactly
  when it has the highest score among all overlapping ones. The code is greedy:
  `Suppression.KeptDespiteBetterOverlap` gives a box that is kept although a better one overlaps it,
  and `Suppression.CommentHoldsExactly` says on which lists the comment is right.
* True positives can exceed ground truths when the threshold is not positive
  (`MatchingLaws.ZeroThresholdOvercounts`); `MatchingLaws.PositiveThresholdExactly` says that is the only case.
* With tied scores a higher IoU threshold can raise the score, at every interval the program uses
  (`TieWitness.TiesCanRaiseTheScore`), even if both sorts get the same keys and answer alike. Whatever
  sort is used, the score falls with the threshold exactly when no image has two predictions of a
  class tied (`SortChoice.AnySortAntitoneExactly`); ties between images are harmless. For given
  orders what matters is whether the batch sort reverses two predictions of one image
  (`TieWitness.ScoreAntitoneExactly`), so a stable sort is always safe
  (`SortChoice.StableSortIsSafe`); `std::sort` is not stable.
* The burst planner fails exactly from `2^32` bytes on, where the remaining size no longer fits the
  `uint32_t` burst size (`Bursts.PlanBursts`, `Bursts.CountAndPlan`); the counter does not.
* `load_weights` remembers the burst length per piece, starting from 0, while the device register
  survives. A piece that is a single transfer unit is copied with the stale length and overwrites
  what lies behind it: `WeightLoad.ExactlyWhenNoStaleBurst` says when, `WeightLoad.OvershootOfLoaded`
  how much. An unaligned piece is skipped and the result is still 0.
* A device that may end a request before its buffer is in the FIFO can make a streaming run end
  normally with its last buffer unwritten, with any positive number of buffers and requests, synchronous or
  not (`FifoFeed.LostWhenEarly`); such devices are the only ones (`FifoFeed.NeverLosesExactly`), and
  the last buffer is all that can be missed (`FifoFeed.AtMostLastLost`).
* The sizes of a letterboxed box come back exactly for square model inputs only
  (`Letterbox.ExtentsRecoveredExactly`).
* Inference filters the input files by extension (`runtime/dla_benchmark/inputs_filling.cpp:835`),
  YOLO scoring does not (`runtime/dla_benchmark/average_precision.cpp:818-827`). With `a.tif` before
  `b.jpg` and `c.jpg` every result is scored against the file before its own
  (`InputFiles.UnsupportedFileShifts`); `InputFiles.ScoredAgainstItsOwn` gives the exact condition. An
  unreadable image cannot shift anything here: scoring opens the same files and gives up
  (`InputFiles.CollectDataset`).
* Classification opens no image when it scores, so there an unreadable image moves the later ones of
  its batch to the truth of their predecessors (`InputFiles.ClassifiedAgainstItsOwn`).
* With a single class a top-1 hit is never a top-5 hit (`TopResults.HitsOrderedExactly`).

## Model

| member | source | states |
|---|---|---|
| Boxes.IouSymmetric | runtime/dla_benchmark/average_precision.cpp:295-310 | the overlap score does not depend on the order of the two boxes |
| Boxes.IouRange | runtime/dla_benchmark/average_precision.cpp:295-310 | the score lies in [0, 1] for every two boxes, inverted and empty ones included |
| Boxes.IouOneExactly | runtime/dla_benchmark/average_precision.cpp:295-310 | the score is 1 if and only if the boxes coincide and have positive extended sides |
| Pixels.OverlapsAreLargest | runtime/dla_benchmark/average_precision.cpp:298-303 | on real corners, each overlap is the extended length of the largest interval inside both extents, and 0 when no interval is |
| Pixels.IouCountsPixels | runtime/dla_benchmark/average_precision.cpp:295-310 | on whole corners, the score times the number of pixels in either box is the number of pixels in both |
| Sorting.ArgsortDescending | runtime/dla_benchmark/average_precision.cpp:510-515 | the result is a permutation that orders the scores descending; ties are left open |
| Predictions.ReduceByIndex | runtime/dla_benchmark/average_precision.cpp:46-51 | erasing from the back leaves exactly the entries not listed, in order |
| Predictions.PredictionEntry.DetectionFields | runtime/dla_benchmark/average_precision.hpp:71-84 | entry i of the list the laws speak of has the corners, score and class at position i of the arrays |
| Predictions.FlagOverlaps | runtime/dla_benchmark/average_precision.cpp:534-546 | flagging what one box suppresses is one step of the recursive greedy selection |
| Predictions.Scan | runtime/dla_benchmark/average_precision.cpp:526-547 | the flag-based scan keeps exactly what the greedy recursion keeps, and flags the rest |
| Predictions.Limit | runtime/dla_benchmark/average_precision.cpp:550-556 | the cap keeps the first boxes and unmarks the others |
| Predictions.Discarded | runtime/dla_benchmark/average_precision.cpp:558-564 | the discard list is ascending and names exactly the flagged or unmarked boxes |
| Predictions.Erase | runtime/dla_benchmark/average_precision.cpp:566-574 | all six arrays lose the same positions and stay aligned, and the size is their length |
| Predictions.Nms | runtime/dla_benchmark/average_precision.cpp:520-575 | suppression in place leaves the capped greedy selection in original order, for whichever sorted order the sort chose |
| Suppression.GreedyIndependent | runtime/dla_benchmark/average_precision.cpp:526-547 | no kept box suppresses a later kept one |
| Suppression.GreedyCovering | runtime/dla_benchmark/average_precision.cpp:526-547 | every box not kept has a kept suppressor before it |
| Suppression.GreedyUnique | runtime/dla_benchmark/average_precision.cpp:526-547 | independence and covering determine the kept list uniquely |
| Suppression.KeptPairwiseBelowThreshold | runtime/dla_benchmark/average_precision.cpp:534-556 | survivors of one class overlap pairwise at or below the threshold, after the cap too |
| Suppression.DroppedHasKeptRival | runtime/dla_benchmark/average_precision.cpp:534-546 | a box dropped before the cap has a kept box of its class, of at least its score, overlapping it above the threshold |
| Suppression.CapKeepsBestScores | runtime/dla_benchmark/average_precision.cpp:550-556 | whatever the cap cuts scores no more than anything it keeps, and it keeps exactly as many as allowed |
| Suppression.SuppressedExactly | runtime/dla_benchmark/average_precision.cpp:520-575 | what is left are the first boxes of the greedy list, as many as the cap allows, in their original order |
| Suppression.SuppressionIdempotent | runtime/dla_benchmark/average_precision.cpp:520-575 | a second run removes nothing, however the second sort breaks ties |
| Suppression.CommentHoldsExactly | runtime/dla_benchmark/average_precision.cpp:517-546 | before the cap, boxes are kept exactly when no earlier box of their class overlaps them above the threshold, if and only if every box with such a rival has one that has no rival itself |
| Suppression.KeptDespiteBetterOverlap | runtime/dla_benchmark/average_precision.cpp:517-546 | three boxes on which the code and its comment disagree |
| Matching.MostOverlapped | runtime/dla_benchmark/average_precision.cpp:660-671 | the search returns the recursive best overlap |
| Matching.AnnotationEntry.AnnotationFields | runtime/dla_benchmark/average_precision.hpp:86-97 | entry i of the ground truths has the corners and class at position i of the arrays |
| MatchingLaws.BestOverlapIsFirstMaximum | runtime/dla_benchmark/average_precision.cpp:660-671 | the best overlap is the first maximum among the ground truths of the class, or index 0 with score 0 when none overlaps |
| Matching.MatchCategory | runtime/dla_benchmark/average_precision.cpp:639-693 | the loop over one class yields the specified scores and marks |
| Matching.MeanAveragePrecision | runtime/dla_benchmark/average_precision.cpp:623-696 | every annotated class gets its statistics and every other class stays empty |
| MatchingLaws.MarkedExactlyOnce | runtime/dla_benchmark/average_precision.cpp:673-692 | every prediction of an annotated class is a true or a false positive, never both |
| MatchingLaws.CategoryExactly | runtime/dla_benchmark/average_precision.cpp:637-694 | the statistics of a class list its predictions in score order, each with its score and one mark, a true one for the first to reach the threshold on its best overlap; a class without ground truth has none |
| MatchingLaws.TruePositiveExactly | runtime/dla_benchmark/average_precision.cpp:679-691 | a prediction is a true positive if and only if it reaches the threshold and no earlier one that did has the same best overlap |
| MatchingLaws.MatchingInjective | runtime/dla_benchmark/average_precision.cpp:679-691 | two true positives have different ground truths |
| MatchingLaws.TruePositivesCountHits | runtime/dla_benchmark/average_precision.cpp:679-691 | the true positives number exactly the ground truths that are the first best overlap of a prediction reaching the threshold |
| MatchingLaws.NoMoreHitsThanGroundTruths | runtime/dla_benchmark/average_precision.cpp:637-694 | true positives of an image never exceed its ground truths, for a positive threshold |
| MatchingLaws.ZeroThresholdOvercounts | runtime/dla_benchmark/average_precision.cpp:660-691 | a concrete image with more true positives than ground truths at thresholds up to 0 |
| MatchingLaws.PositiveThresholdExactly | runtime/dla_benchmark/average_precision.cpp:660-691 | true positives never exceed ground truths, on all images, if and only if the threshold is positive |
| BatchMetrics.MetricsUpdate | runtime/dla_benchmark/average_precision.cpp:754-763 | every class adds its ground truths and appends its scores and marks |
| BatchMetrics.AveragePrecision | runtime/dla_benchmark/average_precision.cpp:605-621 | the result times the interval is a sum with one term for each sample i, the largest precision among the points whose recall times (interval - 1) is at least i, or 0 when there is none |
| BatchMetrics.MetricsEval | runtime/dla_benchmark/average_precision.cpp:766-797 | the evaluation is the mean of the specified class scores over the classes with predictions, for whichever sorted orders the sorts chose |
| BatchMetrics.BatchWellFormed | runtime/dla_benchmark/average_precision.cpp:754-763 | scores and marks stay aligned, one mark for each prediction, over any number of images |
| CurveLaws.GroundTruthsCounted | runtime/dla_benchmark/average_precision.cpp:754-763 | after any number of images a class has as many ground truths as the images annotate |
| CurveLaws.ImageShown | runtime/dla_benchmark/average_precision.cpp:754-763 | the scores and marks of every image stand together in the batch lists, behind those of the images before it |
| CurveLaws.CurveCounts | runtime/dla_benchmark/average_precision.cpp:783-791 | precision and recall after k predictions are the number of true positives among them, over k and over the ground truths |
| CurveLaws.PerfectExactly | runtime/dla_benchmark/average_precision.cpp:605-797 | a class whose true positives do not exceed its ground truths scores 1 if and only if the first predictions, as many as there are ground truths, exist and are all true positives |
| CurveLaws.ScoreIsMean | runtime/dla_benchmark/average_precision.cpp:766-797 | the batch score times the number of classes with predictions is the sum of their class scores, and 0 when there is none |
| BatchMetrics.ValidateBatch | runtime/dla_benchmark/average_precision.cpp:842-861 | matching the suppressed predictions of every image, accumulating them class by class and evaluating once gives the specified score, for whichever orders the sorts chose |
| MetricLaws.BatchMarksAntitone | runtime/dla_benchmark/average_precision.cpp:623-763 | summed over a batch, the true positives at or above any score never grow with the threshold |
| CurveLaws.SumAboveCounts | runtime/dla_benchmark/average_precision.cpp:623-763 | what that sum adds up is the number of true positives at or above the score |
| TieOrders.AlignedApFalls | runtime/dla_benchmark/average_precision.cpp:605-797 | when the batch sort lists every image's predictions of a class in the order its matching took them, raising the IoU threshold never raises the class score, with any number of ties |
| TieOrders.AlignedScoreFalls | runtime/dla_benchmark/average_precision.cpp:605-797 | and when it does so in every class, it never raises the batch score |
| TieOrders.DistinctIsAligned | runtime/dla_benchmark/average_precision.cpp:623-797 | distinct scores leave no other choice |
| TieOrders.ClassApAntitone | runtime/dla_benchmark/average_precision.cpp:605-797 | two runs on the same scenes at two thresholds, each with sorts of its own: with distinct scores in the class, the one with the higher threshold has no higher class score |
| TieOrders.ScoreAntitoneInThreshold | runtime/dla_benchmark/average_precision.cpp:605-797 | with distinct scores in every class, the run with the higher threshold has no higher batch score, across matching, accumulation, re-sorting and interpolation |
| TieWitness.ReversedPairRaises | runtime/dla_benchmark/average_precision.cpp:605-797 | for any scores and orders that reverse one image's pair, boxes and ground truths exist with which the class score is higher at 0.8 than at 0.5, at every interval from 2 on |
| TieWitness.ApAntitoneExactly | runtime/dla_benchmark/average_precision.cpp:605-797 | for given scores, image orders and batch order, the class score falls with the threshold on all boxes and ground truths if and only if the batch order keeps every image's matching order, or the interval is below 2 |
| TieWitness.ScoreAntitoneExactly | runtime/dla_benchmark/average_precision.cpp:605-797 | and the batch score does so if and only if the batch order of every class keeps it, or the interval is below 2 |
| TieWitness.TiesCanRaiseTheScore | runtime/dla_benchmark/average_precision.cpp:605-797 | two tied predictions and one sort that turns ties round are enough to raise the class score, at every interval from 2 on; matching and evaluation sort the same keys and get the same order |
| SortChoice.ApAntitoneTieFree | runtime/dla_benchmark/average_precision.cpp:605-797 | whichever sorted order the evaluation uses, the class score falls with the threshold on all boxes and ground truths, if and only if no image has two predictions of the class with equal scores, or the interval is below 2 |
| SortChoice.ScoreAntitoneTieFree | runtime/dla_benchmark/average_precision.cpp:605-797 | and the batch score does so if and only if that holds of every class, or the interval is below 2 |
| SortChoice.AnySortAntitoneExactly | runtime/dla_benchmark/average_precision.cpp:605-797 | the condition is the same when one unknown sort, always giving the same answer to the same keys, does all the sorting: it is the exact condition on the input alone |
| SortChoice.StableSortIsSafe | runtime/dla_benchmark/average_precision.cpp:605-797 | under a stable sort the batch score falls with the threshold for any number of ties |
| MetricLaws.RecallNonDecreasing | runtime/dla_benchmark/average_precision.cpp:785-790 | recall never falls along the sorted predictions |
| MetricLaws.ScoreInUnit | runtime/dla_benchmark/average_precision.cpp:766-797 | every class score and the mean lie in [0, 1] |
| MetricLaws.BatchNoMoreHitsThanGroundTruths | runtime/dla_benchmark/average_precision.cpp:623-763 | after any sequence of updates a class has no more true positives than ground truths, for a positive threshold |
| HeadParsing.ParseHeads | runtime/dla_benchmark/average_precision.cpp:124-181 | every box ends with exactly its own values, in value order, for any list of grids |
| HeadParsing.OwnerOfCorrect | runtime/dla_benchmark/average_precision.cpp:141-146 | every flat element is a value of some box |
| HeadParsing.OwnerOfInverts | runtime/dla_benchmark/average_precision.cpp:141-146 | and of one box and value only, so reading is a bijection |
| HeadParsing.PlaceOfBoxInverts | runtime/dla_benchmark/average_precision.cpp:167 | box numbers and (grid, anchor, cell) correspond one to one |
| HeadLaws.ElementPosition | runtime/dla_benchmark/average_precision.cpp:139-181 | value v of the box at a grid, anchor, row and column is the element of plane anchor * values + v at that row and column, counted from where the grid starts |
| HeadParsing.VisitBoxes | runtime/dla_benchmark/average_precision.cpp:399-407 | the filter loop looks at the boxes in the order given by the step numbering |
| HeadParsing.EveryBoxVisitedOnce | runtime/dla_benchmark/average_precision.cpp:399-407 | that order is a permutation of all boxes |
| HeadLaws.VisitPosition | runtime/dla_benchmark/average_precision.cpp:399-407 | within a grid the boxes are visited column by column, then row by row, then anchor by anchor |
| HeadParsing.ParsePlanar | runtime/dla_benchmark/average_precision.cpp:88-119 | value v of box b is read from b + total * v |
| HeadParsing.PlanarBijective | runtime/dla_benchmark/average_precision.cpp:109-118 | every planar element is read exactly once |
| Letterbox.PaddedIsSquare | runtime/common/format_reader/opencv_wrapper.cpp:64-76 | the padded image is square and opposite borders differ by at most a pixel |
| Letterbox.SquareFillsModel | runtime/common/format_reader/opencv_wrapper.cpp:64-76 | pad and resize lay the padded square over the whole of the model input |
| Letterbox.ImageFillsModel | runtime/dla_benchmark/average_precision.cpp:341-348 | a plain resize lays the image over the whole of the model input |
| Letterbox.BoundsEnclose | runtime/dla_benchmark/average_precision.cpp:366-370 | the bounds lie an extent apart, with the centre halfway |
| Letterbox.SquareRecovered | runtime/dla_benchmark/average_precision.cpp:350-363 | for a square model, undoing pad and resize gives the extents exactly and the centre up to the half pixel lost by integer halving |
| Letterbox.ExtentsRecoveredExactly | runtime/dla_benchmark/average_precision.cpp:350-363 | the extents of a non-empty box come back if and only if the model input is square |
| Letterbox.PaddedV8 | runtime/dla_benchmark/average_precision.cpp:350-370 | the YOLOv8 bounds move by 0 or -1/2 in each direction, unmoved if and only if the padding is even |
| Letterbox.ResizedV8 | runtime/dla_benchmark/average_precision.cpp:341-348 | without padding the YOLOv8 bounds come back exactly, for every model size |
| Letterbox.HeadsAgree | runtime/dla_benchmark/average_precision.cpp:443-486 | a YOLOv3 cell that describes a region gets the bounds the YOLOv8 path gives that region, padded or not |
| Letterbox.PaddedV3 | runtime/dla_benchmark/average_precision.cpp:459-486 | the YOLOv3 bounds move by the odd half pixels only |
| Letterbox.ResizedV3 | runtime/dla_benchmark/average_precision.cpp:454-458 | without padding the YOLOv3 bounds come back exactly |
| BitPacking.LowMaskValue | platform/agx7_iseries_ofs_pcie_spatial/sw/demo.c:211 | the mask of n bits is the number 2^n - 1 |
| BitPacking.ShiftLeftValue | platform/agx7_iseries_ofs_pcie_spatial/sw/demo.c:211-214 | a left shift multiplies modulo 2^64 |
| BitPacking.ShiftRightValue | platform/agx7_iseries_ofs_pcie_spatial/sw/demo.c:227 | a right shift divides |
| BitPacking.BeatOf | platform/agx7_iseries_ofs_pcie_spatial/sw/demo.c:196-210 | element i of group s lies in beat s / groups-per-beat, right behind its predecessor in the beat |
| BitPacking.PerBusFits | platform/agx7_iseries_ofs_pcie_spatial/sw/demo.c:196 | a beat holds as many groups as fit, and no further one would |
| BitPacking.HeldIsLaid | platform/agx7_iseries_ofs_pcie_spatial/sw/demo.c:196-228 | for every n with width * lanes * n <= bus < width * lanes * (n + 1), bit k of lane j of group s stands at bit (s / n) * bus + (s % n) * width * lanes + j * width + k of the packet |
| BitPacking.PacketIsWholeBeats | platform/agx7_iseries_ofs_pcie_spatial/sw/demo.c:715-731 | a packet takes the fewest whole beats that hold its groups |
| BitPacking.NoStraddle | platform/agx7_iseries_ofs_pcie_spatial/sw/demo.c:204-210 | first and last bit of an element are in the same beat |
| BitPacking.FieldsApart | platform/agx7_iseries_ofs_pcie_spatial/sw/demo.c:209-210 | no two elements share a bit |
| BitPacking.FieldInPacket | platform/agx7_iseries_ofs_pcie_spatial/sw/demo.c:209-228 | no element, spill-over included, reaches past the packet's words |
| BitPacking.SkipTracksBeats | platform/agx7_iseries_ofs_pcie_spatial/sw/demo.c:205-207 | the running count of padding bits equals the closed form before and after every element, for one and for several groups per beat |
| BitPacking.PutElement | platform/agx7_iseries_ofs_pcie_spatial/sw/demo.c:209-228 | masking, shifting and spilling change exactly the bits of the field |
| BitPacking.GetElement | platform/agx7_iseries_ofs_pcie_spatial/sw/demo.c:301-318 | the element read has the bits of the field and is clear above its width |
| BitPacking.PackData | platform/agx7_iseries_ofs_pcie_spatial/sw/demo.c:189-236 | the packet holds every element, at the position given by the largest number of groups that fit a beat, and every bit outside the fields, padding included, keeps its value |
| BitPacking.UnpackData | platform/agx7_iseries_ofs_pcie_spatial/sw/demo.c:283-326 | what is read is clean and is what the packet holds |
| BitPacking.OwnedInside | platform/agx7_iseries_ofs_pcie_spatial/sw/demo.c:728-731 | the fields of a packet lie within its own words, so packets do not disturb each other |
| BitPacking.PackPackets | platform/agx7_iseries_ofs_pcie_spatial/sw/demo.c:715-732 | every packet of an input is held at its place, each element at the position given by the largest number of groups that fit a beat |
| BitPacking.PackAndValidate | platform/agx7_iseries_ofs_pcie_spatial/sw/demo.c:727-754 | any number of packed clean packets stand at those positions, and reading them back gives the input, so the mismatch report never appears |
| Bursts.BitTrick | platform/agx7_iseries_ofs_pcie_spatial/sw/demo.c:345 | n & (n - 1) is 0 exactly for the powers of two |
| Bursts.CountRequests | platform/agx7_iseries_ofs_pcie_spatial/sw/demo.c:337-372 | the counter returns the ceiling quotient, or -1 exactly on the rejected arguments |
| Bursts.PlanBursts | platform/agx7_iseries_ofs_pcie_spatial/sw/demo.c:385-444 | the planner succeeds exactly when the data is aligned, non-empty, below 2^32 bytes and the expected count is right, and then writes the specified sizes, offsets and length codes within the arrays |
| Bursts.BurstsTile | platform/agx7_iseries_ofs_pcie_spatial/sw/demo.c:403-430 | bursts are non-empty, at most the maximum, and each starts where its predecessor ends, the last at the size |
| Bursts.ByteInOneBurst | platform/agx7_iseries_ofs_pcie_spatial/sw/demo.c:403-430 | every byte belongs to exactly one burst |
| Bursts.BurstLengthCode | platform/agx7_iseries_ofs_pcie_spatial/sw/demo.c:418-424 | the length code fits 8 bits and (code + 1) units are the burst's size |
| Bursts.BurstStaysInBlock | platform/agx7_iseries_ofs_pcie_spatial/sw/demo.c:403-430 | from an aligned base no burst crosses a block of the maximum size, hence no 4 KB boundary when that is at most 4 KB, as section A3.4.1 of ARM IHI 0022E (AMBA AXI) demands |
| Bursts.CountAndPlan | platform/agx7_iseries_ofs_pcie_spatial/sw/demo.c:458-516 | counter and planner agree, and the plan succeeds exactly for aligned sizes above 0 and below 2^32 |
| WeightLoad.IssueBurst | platform/agx7_iseries_ofs_pcie_spatial/sw/demo.c:652-670 | one round stores one more burst, with the length the register really holds |
| WeightLoad.LoadPiece | platform/agx7_iseries_ofs_pcie_spatial/sw/demo.c:592-670 | one piece succeeds if and only if the registers, where they are needed, can be mapped and the buffer pinned, whatever its alignment; it then leaves its bytes in the bank, plus exactly the overshoot of a stale length, and otherwise changes nothing |
| WeightLoad.LoadWeights | platform/agx7_iseries_ofs_pcie_spatial/sw/demo.c:566-681 | the load succeeds if and only if mapping and pinning succeed for every piece, and then changes exactly the specified cells and register; otherwise it ends at the first piece for which they fail, with the pieces before it stored in full and at most a stale overshoot behind them |
| WeightLoad.PieceStartIs | platform/agx7_iseries_ofs_pcie_spatial/sw/demo.c:566-590 | piece i starts i host buffers into the weights |
| WeightLoad.ExactlyWhenNoStaleBurst | platform/agx7_iseries_ofs_pcie_spatial/sw/demo.c:576-670 | a load stores all the weights and nothing else if and only if the size is a multiple of the unit and no piece begins with a one-unit burst under a non-zero length register |
| WeightLoad.OvershootOfLoaded | platform/agx7_iseries_ofs_pcie_spatial/sw/demo.c:576-670 | of a whole number of units, what is overwritten behind the weights is the register times the unit when every burst is one unit, the largest burst less a unit when a single unit is left over behind full pieces, and otherwise nothing |
| WeightLoad.OneUnitTooMany | platform/agx7_iseries_ofs_pcie_spatial/templates/config.jinja2:51-55 | with the repository's constants, a full piece and one unit overwrites 4032 bytes behind the weights |
| RequestQueue.InferRequestsQueue.constructor | runtime/dla_benchmark/infer_request_wrap.hpp:110-121 | all ids start idle, in order |
| RequestQueue.InferRequestsQueue.PutIdleRequest | runtime/dla_benchmark/infer_request_wrap.hpp:148-171 | a callback returns the id and records a latency, or records the exception and drops the id |
| RequestQueue.InferRequestsQueue.GetIdleRequest | runtime/dla_benchmark/infer_request_wrap.hpp:173-185 | the longest idle id is handed out, unless an exception is pending, which is rethrown without any change |
| RequestQueue.InferRequestsQueue.WaitAll | runtime/dla_benchmark/infer_request_wrap.hpp:187-195 | a normal return means nothing runs, nothing failed, and there is a latency for every dispatch |
| RequestQueue.EventKeepsConsistent | runtime/dla_benchmark/infer_request_wrap.hpp:148-185 | every event keeps the ids split into idle (without repeats), running and failed, and the latencies counted |
| RequestQueue.RunKeepsConsistent | runtime/dla_benchmark/infer_request_wrap.hpp:148-195 | so does every sequence of events |
| RequestQueue.PoolIsFifo | runtime/dla_benchmark/infer_request_wrap.hpp:110-185 | over every run, the idle ids are all ids followed by those that came back, in order, less as many from the front as were taken; the latencies are those of the completions in order, and the failed ids are the failures |
| RequestQueue.WaitAllMeansDone | runtime/dla_benchmark/infer_request_wrap.hpp:187-195 | over every run from the start, all idle and no exception means every dispatch completed |
| RequestQueue.RoundUpExactly | runtime/dla_benchmark/main.cpp:1472-1481 | the rounded number is the least multiple of the requests that is not below the wanted one |
| RequestQueue.DispatchAll | runtime/dla_benchmark/main.cpp:1686-1757 | every graph gets inputs 0 to niter-1 in order, each with the newest of its growing list of output tensors, which exists and is nobody else's; if a request cannot be had the loop ends there, and the dispatches so far are such a list cut short |
| GraphDispatch.Rounded | runtime/dla_benchmark/main.cpp:1472-1481 | the setup of a run has at least the wanted number of iterations, less than one round more, and a whole number of rounds |
| GraphDispatch.StepKeepsInvariant | runtime/dla_benchmark/main.cpp:1686-1762 | every step of dispatcher and callbacks keeps every graph's counter, tensors, dispatches and pool in agreement, round by round |
| GraphDispatch.NormalEndMeansDone | runtime/dla_benchmark/main.cpp:1686-1762 | in every interleaving, after a normal wait on every queue each graph was given inputs 0 to niter-1 in order, each with an output tensor of its own, nothing runs or failed, and each has niter latencies |
| GraphDispatch.AlwaysInOrder | runtime/dla_benchmark/main.cpp:1686-1762 | at any moment, failures included, each graph was given its first inputs in order and none beyond the rounded number |
| GraphDispatch.SomeStepPossible | runtime/dla_benchmark/main.cpp:1686-1762 | in every reachable unfinished state some step other than a failure is possible |
| DispatchEnds.RunsAreBounded | runtime/dla_benchmark/main.cpp:1686-1762 | no run is longer than a bound in the number of graphs and of iterations, however callbacks interleave and fail |
| DispatchEnds.CanAlwaysFinish | runtime/dla_benchmark/main.cpp:1686-1762 | from every reachable state a run without further failures reaches the end, the normal one when nothing has failed |
| FifoFeed.StepKeepsInvariant | runtime/dla_benchmark/main.cpp:1647-1801 | every step of dispatcher, device and feeder keeps the invariant of the whole system |
| FifoFeed.FifoInOrder | runtime/dla_benchmark/main.cpp:1653-1715 | in every interleaving, failures included, FIFO then slot are exactly the buffers handed over, in order |
| FifoFeed.NothingLost | runtime/dla_benchmark/main.cpp:1758-1801 | if requests complete only after their buffer is written, a normal end finds the slot empty, all buffers written and all requests completed |
| FifoFeed.AtMostLastLost | runtime/dla_benchmark/main.cpp:1758-1801 | for any device a normal end misses at most the last buffer, exactly when the slot is still full |
| FifoFeed.LostWhenEarly | runtime/dla_benchmark/main.cpp:1663-1667 | every early device, with any number of buffers and requests, has a complete run that ends normally with its last buffer never written |
| FifoFeed.NeverLosesExactly | runtime/dla_benchmark/main.cpp:1758-1801 | all runs that end normally have written every buffer if and only if the device is not early or there is no buffer |
| FifoFeed.SomeStepPossible | runtime/dla_benchmark/main.cpp:1647-1801 | in every reachable unfinished state some step other than a failure is possible, after failures too |
| FifoFeed.RunsAreBounded | runtime/dla_benchmark/main.cpp:1647-1801 | no run is longer than six steps per buffer and four |
| FifoFeed.CanAlwaysFinish | runtime/dla_benchmark/main.cpp:1647-1801 | from every reachable state a run without further failures reaches the end, the normal one when nothing has failed |
| KvCache.InputRomPermutes | spatial_examples/tiny_story/tiny_story.py:227-237 | the input table is a permutation of the memory |
| KvCache.WritePosition | spatial_examples/tiny_story/tiny_story.py:227-237 | the packet of a head at a token and layer goes to the cell of (layer, head, token) |
| KvCache.TableInNumbers | spatial_examples/tiny_story/tiny_story.py:227-237 | step (token * layers + layer) * heads + head of the input table is (layer * heads + head) * tokens + token |
| KvCache.CellsDistinct | spatial_examples/tiny_story/tiny_story.py:227-237 | different (token, layer, head) have different cells |
| KvCache.ReadPosition | spatial_examples/tiny_story/tiny_story.py:239-249 | for every token the wrapping output table starts at the block of the layer |
| KvCache.CacheMemory.Store | spatial_examples/tiny_story/tiny_story.py:250-260 | an iteration's packets go to their cells and no other cell changes |
| KvCache.CacheMemory.Emit | spatial_examples/tiny_story/tiny_story.py:250-260 | an iteration emits the next block of cells |
| KvCache.EmitIsHistory | spatial_examples/tiny_story/tiny_story.py:250-289 | a block read from a memory that remembers the run holds, for each head and token so far, what the layer produced |
| KvCache.RunCache | spatial_examples/tiny_story/tiny_story.py:227-271 | over a whole run every block agrees with the full history, and both tables end at their start |
| KvCache.HistoryInNumbers | spatial_examples/tiny_story/tiny_story.py:250-289 | packet head * tokens + p of an emitted block is what the head produced in iteration p * layers + layer |
| AttentionWeights.SplitHeadsAt | spatial_examples/tiny_story/common.py:109-126 | the extracted block of a head is the transpose of its rows |
| AttentionWeights.ExtractProjection | spatial_examples/tiny_story/common.py:98-134 | the list holds one block for each layer, in order |
| AttentionWeights.RestructuredIsTranspose | spatial_examples/tiny_story/tiny_story.py:139-143 | stacking and restructuring gives, for every layer, exactly the transpose of the original projection |
| AttentionWeights.TransposeInNumbers | spatial_examples/tiny_story/tiny_story.py:139-143 | the same by flat position, rows of the hidden size |
| AttentionWeights.OutputBlock | spatial_examples/tiny_story/common.py:127-131 | the reshaped output weights of a head are its columns of the original matrix, transposed |
| AttentionWeights.Accumulate | spatial_examples/tiny_story/tiny_story.py:329-345 | one layer's packets take consecutive blocks of the stack, starting over after the last one, and the accumulator sums the products |
| AttentionWeights.LayerProjectionCorrect | spatial_examples/tiny_story/tiny_story.py:329-345 | within one layer the per-head products add up to the concatenated heads times the transposed full output matrix |
| AttentionWeights.ExtractOutput | spatial_examples/tiny_story/common.py:127-134 | the list holds one layer's reshaped output weights after the other |
| AttentionWeights.BlockForLayer | spatial_examples/tiny_story/tiny_story.py:329-345 | counting one block for every packet, token by token and layer by layer, always arrives at block layer * heads + head |
| AttentionWeights.OutputProjectionCorrect | spatial_examples/tiny_story/common.py:82-90 | on the output weights stacked over all layers, the products a layer's packets meet add up to its concatenated heads times its transposed full output matrix |
| AttentionWeights.OutputInNumbers | spatial_examples/tiny_story/common.py:127-134 | the stacked output weight at layer, head, position and column is the element of the layer at row column and column head * size + position, by flat position |
| AttentionWeights.ProductInNumbers | spatial_examples/tiny_story/common.py:82-90 | the full product is the sum over heads and positions of the packet value times the matrix element in the row of the entry |
| InputFiles.CollectBatch | runtime/dla_benchmark/inputs_filling.cpp:111-135 | stepping and wrapping through the files collects the readable ones among the mixed-radix indices modulo the file count |
| InputFiles.BatchImages | runtime/dla_benchmark/inputs_filling.cpp:111-135 | the images of a batch are the readable ones among the files ((request * batch + slot) * inputs + input) % files, in slot order |
| InputFiles.NumbersInOrder | runtime/dla_benchmark/inputs_filling.cpp:111 | files are taken request by request, then slot by slot, then input by input |
| InputFiles.NumbersBijective | runtime/dla_benchmark/inputs_filling.cpp:111 | every index below the total belongs to exactly one (request, slot, input) |
| InputFiles.UsesExactly | runtime/dla_benchmark/inputs_filling.cpp:111-112 | a file is used the quotient's number of times, or once more if it is among the first remainder files |
| InputFiles.SlotExactly | runtime/dla_benchmark/inputs_filling.cpp:120-134 | a slot holds its own file if and only if neither it nor one before it is unreadable |
| InputFiles.FilterSupported | runtime/dla_benchmark/utils.cpp:531-542 | the filter keeps exactly the supported files, in order |
| InputFiles.SupportedExactly | runtime/dla_benchmark/inputs_filling.cpp:835-836 | the filtered list is ascending and holds a file if and only if it is supported |
| InputFiles.CollectDataset | runtime/dla_benchmark/average_precision.cpp:245-281 | scoring takes the first files of the whole list, and gives up exactly when there are too few or one of them has no annotation or image |
| InputFiles.OwnWhenAllRead | runtime/dla_benchmark/average_precision.cpp:818-861 | when every supported file is readable, a result comes from the file it is scored against if and only if that file is supported and as many supported files precede it as the wrapped index says, with any number of files |
| InputFiles.ScoredAgainstItsOwn | runtime/dla_benchmark/average_precision.cpp:818-861 | in a run that is scored, with one input and enough supported files, a result comes from the file it is scored against if and only if all files up to that one in the whole list are supported |
| InputFiles.UnsupportedFileShifts | runtime/dla_benchmark/average_precision.cpp:818-861 | with one unsupported file in front, every result of every batch is scored against the file before its own |
| InputFiles.WrappingHidesTheShift | runtime/dla_benchmark/average_precision.cpp:818-861 | with too few supported files the wrapped index can come back to the file scored although an unsupported one stands before it, so enough files are needed |
| InputFiles.ClassifiedAgainstItsOwn | runtime/dla_benchmark/top1_top5.hpp:193-205 | in classification, with enough files, a result meets the truth of its own file if and only if the files of its batch up to its own are readable |
| TopResults.SelectTop | runtime/dla_benchmark/top1_top5.hpp:171-187 | replacing the first smallest guess ends with a true top-k |
| TopResults.Rank | runtime/dla_benchmark/top1_top5.hpp:171-191 | the ranking is that top-k, descending |
| TopResults.RankByPartialSort | runtime/dla_benchmark/spatial_benchmark.cpp:167-176 | sorting everything and cutting gives a descending top-k too |
| TopResults.RankingScoresUnique | runtime/dla_benchmark/spatial_benchmark.cpp:122-176 | any two such rankings have the same scores position by position |
| TopResults.GetTopResults | runtime/dla_benchmark/top1_top5.hpp:157-248 | the report counts the specified hits, passes exactly when both reach 20 %, and rejects exactly the sizes that are no multiple or leave no guess |
| TopLaws.HitsDecided | runtime/dla_benchmark/top1_top5.hpp:171-215 | whatever the ranking does with ties: a top-5 hit has fewer than five classes scoring more, and not all the other ones; a truth with fewer than five classes scoring as much, and not all the other ones, is a hit; and likewise for top-1 |
| TopLaws.UntiedIsExact | runtime/dla_benchmark/top1_top5.hpp:171-215 | for a truth that ties with no other class the two conditions are one |
| TopLaws.HitsOfBatch | runtime/dla_benchmark/top1_top5.hpp:157-215 | the counts of a batch lie between the numbers of images that must and that can be hits |
| TopResults.HitsOrderedExactly | runtime/dla_benchmark/top1_top5.hpp:206-215 | top-1 hits never exceed top-5 hits, on all batches, if and only if there are at least two classes |
| ArgumentParser.SplitFloat | runtime/dla_benchmark/utils.cpp:350-359 | the values of all tokens in order, or failure exactly when some token is no number |
| ArgumentParser.ParseScaleOrMeanValues | runtime/dla_benchmark/utils.cpp:185-244 | the loop ends on every string with the outcome of the recursive parser |
| ArgumentLaws.ReadAllIs | runtime/dla_benchmark/utils.cpp:350-359 | a list gives one value for each token in order, or fails exactly when a token is unreadable |
| ArgumentLaws.TokensOfJoin | runtime/dla_benchmark/utils.cpp:350-359 | joining tokens without commas, the last not empty, and splitting gives them back |
| ArgumentLaws.TokensOfClosedList | runtime/dla_benchmark/utils.cpp:350-359 | with a comma at the end any non-empty list of tokens without commas comes back |
| ArgumentLaws.EntriesConsumed | runtime/dla_benchmark/utils.cpp:193-237 | whatever follows printed entries is parsed on top of the map they stand for |
| ArgumentLaws.RoundTrip | runtime/dla_benchmark/utils.cpp:185-244 | printed entries parse to a map in which each known name has the values of its last entry, and which has no further name; entries of unknown name change nothing |
| ArgumentLaws.ClosingComma | runtime/dla_benchmark/utils.cpp:231-242 | a comma behind the last entry changes nothing |
| ArgumentLaws.UnnamedList | runtime/dla_benchmark/utils.cpp:217-223 | behind any printed entries, a list without a name gives its values to every image, leaves every other name what its last entry gave it, and ends the parse whatever text follows |
| ArgumentLaws.UnreadableToken | runtime/dla_benchmark/utils.cpp:199-200 | behind any printed entries, an unreadable token makes the parse fail on the number, named or not, known or not |
| ArgumentLaws.NoWholeEntry | runtime/dla_benchmark/utils.cpp:193-242 | behind any printed entries, non-empty text without an opening or without a closing bracket is rejected |
| ArgumentLaws.TextBehindEntry | runtime/dla_benchmark/utils.cpp:226-242 | so is an entry with anything but a comma behind it |
| ArgumentLaws.ClosingFirst | runtime/dla_benchmark/utils.cpp:196-237 | with a closing bracket before the opening one the list runs to the end of the text, and parsing goes on behind that early bracket |

## Left out

- OPAE calls themselves, and the release of buffers; a failing `malloc` for the burst tables.
- The rest of `run_inference`: the output buffer, its completion flag and the input burst loop repeat the modelled planner and unpacker.
- The floating-point ceiling in `run_inference` is exact integer ceiling division.
- Floating-point rounding, `exp`, `sigmoid` and image interpolation: values behind the activation are parameters and resizing is linear.
- Confidence filters of the two box paths, scaling of annotations and clipping to the image, and the COCO mean over thresholds: they would add easy members; the single threshold of a batch is arbitrary.
- The branch of the matching loop for classes without ground truth is dead in the source (it iterates annotated classes) and is not modelled.
- BatchMetrics.ValidateBatch: starts from each image's suppressed predictions and one threshold, so parsing, suppression (`Predictions.Nms`), clipping and the mean over the COCO thresholds are not composed with it; the nested batch/image index is `InputFiles.AnnotationFor`.
- Bursts.CountRequests: the count is unbounded; the source's `int` overflows from 2^31 largest bursts on.
- RequestQueue.DispatchAll: `niter` is unbounded, so the wrap-around of the 32-bit rounding is not modelled, and `handsOut` says when a request can be had; the same loop against pools that callbacks change is `GraphDispatch`.
- GraphDispatch.Do: no streaming input, no dynamic outputs, and no exception from `start_async` itself.
- RequestQueue.InferRequestsQueue.GetIdleRequest: start and end times and profiling aggregates are not modelled.
- FifoFeed.Do: a FIFO write always completes; a reader that stops reading is not modelled, nor is an exception from `start_async` itself.
- WeightLoad.LoadWeights: host bytes rather than 64-bit words, addresses without wrap-around, and no final wait for the processed flag, whose meaning is up to the device.
- KvCache.RunCache: one cache; keys and values use two memories with the same tables.
- Neural layers, the OpenVINO plugin and the SPARK library: no claim is made about the function a network computes.
- InputFiles.CollectDataset: an annotation that is there but cannot be parsed counts as missing.
- Video, binary, random and streaming inputs, layouts other than one image batch, and pixel normalisation.
- Progress bar, statistics, JSON and CSV output, command-line handling and device probing.
- The file-based accuracy analyser and `tiny_story_ddr.py`, which repeat modelled logic.
- Fairness and timing: safety, possible steps and bounded runs are proved, not wall-clock progress.
