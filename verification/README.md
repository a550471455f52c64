# Verified model of the Akasha ingestion and analytics core

Akasha ingests satellite scenes, prepares rasters and masks, combines them, and answers questions
about fields. This project models its stateful and arithmetic core in Dafny and proves what that
core is relied on for: every pixel of a composite comes from the scene the policy names, concurrent
job submissions never duplicate a job, interrupted pipelines recover, repeated runs converge, a
windowed read gives the numbers of a full read, and a cached answer is the answer a computation would
give.

Check everything with `dafny verify dfyconfig.toml`.

## Modules

- `Wrappers`, `Sequences`, `Floats`, `Rounding`, `StableSorting`, `SortedPrefixes`, `PixelGrid`,
  `PixelSelection`: options and results, list comprehensions, samples that may not be finite, Python's
  rounding and stable sorting, what a limit keeps of a sorted list, pixel counts, and masked selection
  in row-major order.
- `Composite`, `CompositeLaws`, `CompositeMeaning`, `CompositeGrid`: the ResourceSat best-available
  composite as masked writes over 2D and 3D arrays, its algebra, what its pixels and metrics say of the
  scenes, and the snapping of its grid.
- `TileWindows`, `ThresholdMask`, `NisarBackscatter`: the 512-pixel windows, the threshold mask written
  tile by tile, and the NISAR block loop.
- `FieldWindow`, `FieldStats`, `StatsMeaning`: the polygon window, the field statistics read through it,
  and what these say of the pixels of the full raster.
- `IndexFormulas`, `IndexEncoding`, `LandsatQa`, `LandsatMeaning`: the numpy passes of the spectral
  indices, the int16 encoding, the Landsat quality bits, and the index rasters in terms of digital numbers.
- `RobustDeviation`, `SarTemporal`, `BaselineMeaning`: median, MAD and score; comparability and the
  temporal analysis; which values a baseline is computed from.
- `JobProtocol`, `JobStore`, `StageStore`, `StagePipeline`, `DeliverySync`, `DeliveryMeaning`,
  `Eos04Service`: job submission on SQL and in memory, attempt numbering, the EOS-04 pipeline with
  crashes and redelivery, and the records each mode adds.
- `SourceLocks`: the source/AOI lock and the scheduler run that takes it.
- `LandsatCatalog`, `LandsatRuns`, `LandsatConvergence`, `LandsatMirrors`, `LandsatOutcomes`,
  `LandsatHistories`: the Landsat item loop, what an attempt leaves, what many runs achieve, and where
  failures cut them off.
- `SyncWindow`: the Sentinel-2 daily window and the days that a sequence of runs covers.
- `FieldSelection`, `AvailabilityMeaning`, `CandidateLimit`: the scene choice for a field, its rejection
  path, the response validator, what a reported date says, and what the candidate limit keeps.
- `QueryCache`, `SarHistoryCache`: the expiring query repository and the cached SAR history.
- `SearchPages`: the pagination loop of the Earth Search provider.

A module named `...Meaning` describes what a component computes without that component's own functions:
counts as sizes of sets of pixels, values by the equations they solve, statuses by their causes.

## How the source is represented

Floats are reals, with one constructor for values that are not finite. Dates and clocks are integers;
each call reads the clock once. An array that the source rewrites is a Dafny array written by `forall`
statements, one per numpy statement; a raster that is only read is a shape and a cell function. A
polygon is a predicate on pixels that holds only where the pixel's centre lies in its bounding box.
Hashes are injective functions. Logarithm and square root are function parameters; the lemmas about
MSAVI take the root as a value whose square is the radicand.

Exceptions from outside (network, storage, a dying worker) are parameters: an event per pipeline
stage, a budget of calls per Landsat item, an evidence case per candidate scene.

## Findings

Where a property fails of the code, the model keeps the code and states exactly when it holds.

- The in-memory job store loses the uniqueness of active jobs, at once or with the next call, exactly
  when a mark revives a failed job (`JobStore.DuplicatesExactlyByRevival`, `JobStore.SyncLostOnlyByRevival`); the SQL index refuses that
  update as soon as the key has another active job (`JobStore.SqlRefusesOrFinds`).
- A redelivered task of a completed job is queued again and runs every stage once more
  (`StagePipeline.RedeliveryRepeatsCompletedJob`), because recovery has no status guard.
- A losing lock body that called `acquire` would wait for the guard it holds, for ever
  (`SourceLocks.SelfWaitIsForEver`, `SourceLocks.SelfWaitIsReachable`); a holder that makes no such call
  has at most three statements of its own to the release, and nobody can be in its way.
- A positive scaling keeps the robust score exactly when both spreads fall on the same side of the
  epsilon (`RobustDeviation.ScaleKeepsScore`).
- Where pgSTAC is configured, a Landsat scene without a footprint is never complete, so every run takes
  it up again (`LandsatHistories.NoFootprintNeverCompletes`).
- A Landsat asset can be downloaded more than once: an attempt cut off between a download and the record
  of its mirror leaves nothing behind, and the next one downloads again. Exactly three budgets of an
  attempt do this for an asset (`LandsatHistories.AtMostOnceExactlyWhen`, `LandsatMirrors.AttemptMirrors`).
- The Sentinel-2 window leaves a gap exactly when its end is further off than both the window and the
  refresh reach and every recorded day is complete (`SyncWindow.GapExactlyWhen`); such a gap is for ever.
  A first run drops part of the overlap exactly when the refresh is longer than the window
  (`SyncWindow.WindowContents`).
- MSAVI stays in [-1, 1] for reflectances in [0, 1]; the exact region is
  `IndexFormulas.MsaviInRange`. RECI has no clip, so a computed pixel can equal its nodata value
  (`IndexEncoding.ReciNodataCollision`).
- A ResourceSat scene that meets every threshold but is no exact-date composite is neither admitted nor
  rejected (`FieldSelection.AdmittedIffNotRejected`).
- A search with a maximum below one may be called exhausted although its one feature was left out
  (`SearchPages.ExhaustedIsHonest`).
- Comparability of EOS-04 observations chains exactly when the ends keep the tolerances, which add up
  (`SarTemporal.ComparableChainsExactlyWhen`), and means equal comparison keys exactly when incidence and
  spacing are equal (`SarTemporal.ComparableHasSameKeyExactlyWhen`).
- The order of the scene store shows in an answer exactly when the candidate limit cuts through a tie with
  a contender in it (`CandidateLimit.AnswerForgetsOrderExactlyWhen`). The SQL repository puts the later of
  two equally distant scenes first, the in-memory one the earlier, so a limit between them keeps
  different scenes (`CandidateLimit.RepositoriesAgreeExactlyWhen`).
- A delivery of a failed job that finishes it, or dies with it, takes the job out of the in-memory index
  (`DeliverySync.DeliveryLosesSyncExactlyWhen`, `DeliverySync.RevivesExactlyWhen`).
- A composite of more than 32768 scenes raises, because the scene index no longer fits int16
  (`CompositeLaws.OverflowExactlyWhen`). This is numpy 2; numpy 1.26, which `pyproject.toml` also allows, warns and wraps instead.

## Model

| member | source | states |
|---|---|---|
| Composite.BuildBestAvailableComposite | src/akasha/processing/resourcesat_composite.py:226-282 | for any scenes: the error raised, or arrays in which every band and the mask of each AOI pixel come from the one scene the index names (latest usable, else earliest covered, else none), zero and -1 outside the AOI, with metrics computed from the mask |
| Composite.FoldScenes | src/akasha/processing/resourcesat_composite.py:242-252 | the scene loop leaves the composite of all scenes, or stops at the first scene whose shape or index does not fit |
| Composite.MergeScene | src/akasha/processing/resourcesat_composite.py:245-252 | one turn of the loop as masked writes, with every cell that changes and every cell that does not |
| Composite.MergeExtends | src/akasha/processing/resourcesat_composite.py:245-252 | a masked merge turns the closed form of some scenes into that of one more |
| Composite.ClearOutside | src/akasha/processing/resourcesat_composite.py:254-255 | clearing outside the AOI completes the closed form |
| CompositeLaws.SourceExists | src/akasha/processing/resourcesat_composite.py:242-252 | the closed form names exactly one source for every pixel and any scenes |
| CompositeLaws.ClassesAreUnions | src/akasha/processing/resourcesat_composite.py:245-252 | a pixel is covered, or usable, exactly when it is in the AOI and some scene makes it so |
| CompositeLaws.OrderDoesNotMatter | src/akasha/processing/resourcesat_composite.py:233-252 | with distinct times any permutation of the scenes gives the same sorted scenes and the same error |
| CompositeLaws.OutputDoesNotDependOnOrder | src/akasha/processing/resourcesat_composite.py:226-282 | and two composites built from them agree in every cell of every array and in the metrics |
| CompositeLaws.TiesKeepInputOrder | src/akasha/processing/resourcesat_composite.py:233 | scenes of equal time keep their input order, however many there are |
| CompositeLaws.LoopRejectsExactlyWhen | src/akasha/processing/resourcesat_composite.py:242-252 | the scene loop raises a shape error for the first scene that does not fit the grid, exactly when there is one among the first 32769 |
| CompositeLaws.OverflowExactlyWhen | src/akasha/processing/resourcesat_composite.py:226-252 | a build runs out of scene indices exactly with more than 32768 scenes, of which the earliest 32769 fit the grid |
| CompositeLaws.MoreScenesNeverLose | src/akasha/processing/resourcesat_composite.py:242-275 | adding scenes never uncovers a pixel, never makes a usable one unusable, and never lowers the covered or usable count |
| CompositeLaws.MetricsConserve | src/akasha/processing/resourcesat_composite.py:256-267 | with classes up to 4, covered = usable + cloud-masked in pixels and percent, all percentages in [0, 100] |
| CompositeLaws.BuiltCompositeVerifies | src/akasha/processing/resourcesat_composite.py:492-526 | the verifier's recomputation accepts a fresh composite, except for having no covered pixel, which it reports exactly when no scene covers an AOI pixel |
| CompositeMeaning.PixelShows | src/akasha/processing/resourcesat_composite.py:233-255 | a pixel of the AOI shows, in class and every band, the latest scene that is clear there, else the earliest that covers it, else nothing, by acquisition time over all scenes given |
| CompositeMeaning.MetricsMean | src/akasha/processing/resourcesat_composite.py:256-267 | the counts are the AOI pixels, those that some scene covers, those that some scene makes clear, and those of class 2 or 3; each percentage times the AOI pixels is 100 times its count |
| CompositeMeaning.FullCoverageExactlyWhen | src/akasha/processing/resourcesat_composite.py:256-267 | a nonempty AOI is 100 percent covered exactly when some scene covers each of its pixels |
| CompositeMeaning.BuildsExactlyWhen | src/akasha/processing/resourcesat_composite.py:226-247 | a build succeeds exactly for 1 to 32768 scenes of one band count, all of the shape of the AOI |
| CompositeMeaning.ProblemsMean | src/akasha/processing/resourcesat_composite.py:492-526 | what the verifier says of any mask and any recorded metrics |
| CompositeGrid.SnapContainsTightly | src/akasha/processing/resourcesat_composite.py:50-80 | the snapped grid lies on the resolution lattice, contains the padded bounds, wastes less than a pixel per side, and its span times the resolution is exact |
| CompositeGrid.SnapIsIdempotent | src/akasha/processing/resourcesat_composite.py:50-80 | snapping a snapped grid again changes nothing |
| CompositeGrid.LargerBoundsLargerGrid | src/akasha/processing/resourcesat_composite.py:50-80 | larger bounds give a larger grid that differs by whole pixels |
| CompositeGrid.GridFailsExactlyWhen | src/akasha/processing/resourcesat_composite.py:50-65 | a grid is refused exactly for bounds without an interior and for a resolution that is not positive |
| TileWindows.WindowsPartition | src/akasha/processing/resourcesat_prepare.py:585-600 | each pixel of a width by height grid is in exactly one window, any other position in none |
| TileWindows.WindowsFit | src/akasha/processing/resourcesat_prepare.py:585-600 | no window is empty, larger than the limit or out of range |
| TileWindows.WindowsOf512 | src/akasha/processing/resourcesat_prepare.py:585-600 | with the limit in use no side exceeds 512 pixels |
| ThresholdMask.BuildThresholdMask | src/akasha/processing/resourcesat_prepare.py:320-374 | the in-order overwrites equal the priority gap, water, shadow, cloud, land on every pixel; an error exactly for a wrong band count |
| ThresholdMask.RulesExclude | src/akasha/processing/resourcesat_prepare.py:343-373 | shadow excludes cloud and water; cloud and water meet only where SWIR is used, and are then water |
| ThresholdMask.ClassInDigitalNumbers | src/akasha/processing/resourcesat_prepare.py:331-374 | each class as bounds on the whole digital numbers of the pixel |
| ThresholdMask.RolesOfBands | src/akasha/processing/resourcesat_prepare.py:324-345 | which band plays which role, and how many bands a profile has |
| ThresholdMask.WriteWindows | src/akasha/processing/resourcesat_prepare.py:427-434 | window by window, the stored bands and mask equal those of the whole raster |
| ThresholdMask.WritePreparedScene | src/akasha/processing/resourcesat_prepare.py:377-434 | the write succeeds exactly for aligned bands and stores the whole-raster mask and the bands unchanged |
| ThresholdMask.AlignedMeans | src/akasha/processing/resourcesat_prepare.py:377-426 | bands are aligned when shape, transform and reference system are the same |
| NisarBackscatter.WriteGamma0 | src/akasha/processing/nisar.py:310-370 | the block loop stores the decibel value or nodata of every pixel, returns per band the whole-raster count of mask-valid positive finite powers, and fails exactly when there is no band or some count is zero |
| NisarBackscatter.WriteBlock | src/akasha/processing/nisar.py:336-348 | one block is read, converted and counted in its own coordinates; it changes its window only and adds its own valid count per band |
| NisarBackscatter.BlocksOf512 | src/akasha/processing/nisar.py:330-334 | a block starts where its turn is and has sides of 512 pixels, less only at the far edges |
| NisarBackscatter.BlockAdds | src/akasha/processing/nisar.py:334-347 | counts of disjoint blocks add up |
| NisarBackscatter.CountsReadBack | src/akasha/processing/nisar.py:344-348 | the count of samples that differ from nodata equals the reported one exactly when no valid decibel value is nodata |
| NisarBackscatter.CountsMissOnePower | src/akasha/processing/nisar.py:344-348 | that is, exactly when no valid power is the one whose decibel value is nodata, 10 to the -999.9 |
| NisarBackscatter.SampleMeans | src/akasha/processing/nisar.py:338-345 | a finite positive power inside a sub-swath can be read back from its decibels, every other sample is -9999 |
| NisarBackscatter.CountMeans | src/akasha/processing/nisar.py:338-346 | a reported count is the number of finite positive powers inside a sub-swath |
| PixelSelection.WindowedSelection | src/akasha/processing/raster_stats.py:60-71 | a window that holds every kept pixel selects the same samples in the same order |
| PixelSelection.WindowedCount | src/akasha/processing/raster_stats.py:74-78 | and counts the same pixels |
| PixelSelection.SelectedCount | src/akasha/processing/raster_stats.py:71-78 | as many samples are selected as the mask has pixels |
| FieldWindow.TouchingPixelsCovered | src/akasha/processing/raster_stats.py:274-297 | the clamped padded window holds every dataset pixel that touches the polygon's bounds; None means there is none |
| FieldWindow.CentresCovered | src/akasha/processing/raster_stats.py:274-297 | in particular every pixel whose centre lies in the bounds |
| FieldWindow.WindowFits | src/akasha/processing/raster_stats.py:290-297 | a returned window is not empty and stays in the dataset |
| FieldWindow.WindowIsTight | src/akasha/processing/raster_stats.py:282-297 | every row and column of the window lies next to the rounded bounds |
| FieldWindow.PaddingSavesTheEdges | src/akasha/processing/raster_stats.py:285-289 | without the one-pixel pad exactly those touching pixels are lost that meet the bounds along an edge only |
| FieldStats.WindowedStatsAreFull | src/akasha/processing/raster_stats.py:39-88 | samples, counts and class areas of the windowed read equal those of a full-band read |
| StatsMeaning.StatsMean | src/akasha/processing/raster_stats.py:39-88 | the whole of the statistics on the full raster: the samples are, in row-major order, those of the field pixels that are finite and not nodata; sample times scale is the stored value; the counts, the share of the field, and the area and share of each class |
| StatsMeaning.StoredIndexReadsBack | src/akasha/processing/raster_stats.py:67-73 | an index stored as int16 is selected exactly where it was finite and reads back within 1/20000 of the clipped index |
| FieldStats.ClassStats | src/akasha/processing/raster_stats.py:329-353 | the class loop gives each class its area and share |
| FieldStats.ClassAreasAddUp | src/akasha/processing/raster_stats.py:335-353 | classes that meet end to end and span the samples have shares that sum to 100 percent |
| FieldStats.UsableShareInRange | src/akasha/processing/raster_stats.py:316-326 | the usable share is a percentage |
| FieldStats.WindowedMaskStatsAreFull | src/akasha/processing/raster_stats.py:209-252 | windowed mask statistics equal those of a full read, empty fields included |
| FieldStats.MaskStatsConserve | src/akasha/processing/raster_stats.py:236-252 | with disjoint classes usable + cloud + shadow fit in covered, obscured = cloud + shadow, all shares in [0, 100] |
| StatsMeaning.MaskStatsMean | src/akasha/processing/raster_stats.py:169-252 | every count is the number of field pixels of the full raster in those classes, every share a share of all field pixels |
| FieldStats.SarBandLoop | src/akasha/processing/raster_stats.py:128-166 | narrowing the common mask band by band counts the pixels valid in every band |
| FieldStats.WindowedSarStatsAreFull | src/akasha/processing/raster_stats.py:91-166 | windowed SAR statistics equal those of a full read, and the qualified pixels are at most those of any band |
| StatsMeaning.SarStatsMean | src/akasha/processing/raster_stats.py:91-166 | per band the samples of the field pixels that carry one, in row-major order; qualified are the pixels that carry one in every band, as a share of the field |
| StatsMeaning.NoSarStats | src/akasha/processing/raster_stats.py:100-126 | a field without pixels has none |
| IndexFormulas.CalculateIndex | src/akasha/processing/indices.py:26-67 | the numpy passes compute the closed form per pixel, NaN exactly where an operand is not finite, the mask is off or the guard fails; unsupported names raise |
| IndexFormulas.IndexMeans | src/akasha/processing/indices.py:38-64 | by index name: where two samples have a value, and the equation that it solves |
| IndexFormulas.MsaviPasses | src/akasha/processing/indices.py:44-58 | the buffer-rewriting passes compute (2n + 1 - root) / 2 under the radicand guard |
| IndexFormulas.RadicandPasses | src/akasha/processing/indices.py:45-52 | the rewritten buffer holds (2n + 1)^2 - 8(n - r) |
| IndexFormulas.MsaviIsSmallerRoot | src/akasha/processing/indices.py:44-58 | MSAVI is the smaller root of m^2 - (2n + 1)m + 2(n - r) |
| IndexFormulas.MsaviSign | src/akasha/processing/indices.py:44-58 | its sign is the sign of n - r where 2n + 1 is not negative, and negative elsewhere |
| IndexFormulas.MsaviInRange | src/akasha/processing/indices.py:44-58 | exactly when it lies in [-1, 1], for all real operands |
| IndexFormulas.MsaviOfReflectances | src/akasha/processing/indices.py:44-58 | for reflectances in [0, 1] the radicand is never negative and the index lies in [-1, 1] |
| IndexFormulas.DifferenceInRange | src/akasha/processing/indices.py:38-43 | a normalised difference lies in [-1, 1] exactly when its operands do not differ in sign |
| IndexFormulas.DifferenceIsOdd | src/akasha/processing/indices.py:38-43 | exchanging the operands negates it and keeps the guard |
| IndexEncoding.EncodeIndexOutput | src/akasha/processing/indices.py:70-87 | a raster of nodata, then clipped, scaled, rounded and cast samples, for both kinds of profile |
| IndexEncoding.EncodingRange | src/akasha/processing/indices.py:77-87 | finite values encode into [-10000, 10000] without wrapping, and nodata stands for exactly the others |
| IndexEncoding.EncodingMonotone | src/akasha/processing/indices.py:78-86 | the encoding is monotone |
| IndexEncoding.EncodingError | src/akasha/processing/indices.py:78-86 | the decoded value is within 1/20000 of the clipped one |
| Rounding.HalvesToEven | src/akasha/processing/indices.py:83-86 | a value half way between two codes goes to the even one |
| IndexEncoding.ReencodeIsIdentity | src/akasha/processing/indices.py:78-86 | encoding a decoded value gives it back |
| IndexEncoding.StepsAreDistinguished | src/akasha/processing/indices.py:78-86 | values whose clipped values are more than a step apart encode in strict order |
| IndexEncoding.NdbiMirrorsNdmi | src/akasha/processing/sentinel2.py:22-29 | encoded NDBI is the negation of encoded NDMI with the same nodata pixels |
| IndexEncoding.MsaviUnclipped | src/akasha/processing/indices.py:78-86 | MSAVI of reflectances reaches the raster unclipped |
| IndexEncoding.ReciNodataCollision | src/akasha/processing/indices.py:80-83 | exactly when a computed RECI pixel reads as nodata |
| LandsatQa.MasksTestBits | src/akasha/processing/landsat.py:182-187 | the masks of the decoder test the quality bits they stand for, on all words |
| LandsatQa.DecodeQaMask | src/akasha/processing/landsat.py:167-196 | in-order overwrites equal the priority nodata, cloud, shadow, snow, water, land; the shape errors |
| LandsatQa.DerivedPixelHasValue | src/akasha/services/landsat_ingestion.py:403-415 | a derived pixel carries a value exactly when its quality words are clear, all bands have data and the formula's guard holds |
| LandsatQa.MoreBitsNeverRestore | src/akasha/processing/landsat.py:182-195 | setting further quality bits never brings a value back |
| LandsatQa.DeriveIndex | src/akasha/services/landsat_ingestion.py:470-479 | mask, calculation and encoding of one index, per pixel |
| LandsatQa.NarrowValidity | src/akasha/services/landsat_ingestion.py:401-405 | narrowing band by band leaves the pixels with data in all six bands |
| LandsatQa.ProcessScene | src/akasha/services/landsat_ingestion.py:396-479 | for a whole scene: the mask is the class of every pixel, and every sample of the four index rasters is the derived pixel of the digital numbers and quality words there |
| LandsatMeaning.MaskClassMeans | src/akasha/processing/landsat.py:182-196 | the codes 0 to 5 of the mask, each with exactly the quality bits that lead to it |
| LandsatMeaning.DifferencesMean | src/akasha/services/landsat_ingestion.py:469-479 | NDVI, NDMI and the water index of a scene from the digital numbers of their two bands: exactly where they have a value, and that it is the difference over the sum of the reflectances, within half a step |
| LandsatMeaning.DifferenceSign | src/akasha/services/landsat_ingestion.py:469-479 | a positive NDVI means more near infrared than red, and so for the others, where the reflectances have a positive sum |
| LandsatMeaning.MsaviMeans | src/akasha/services/landsat_ingestion.py:469-479 | MSAVI of a scene is the smaller root of its quadratic in the reflectances, within half a step |
| RobustDeviation.OrderDoesNotMatter | src/akasha/processing/sar_temporal.py:148-157 | centre, MAD and score do not depend on the order of the baseline |
| RobustDeviation.DeviationMeans | src/akasha/processing/sar_temporal.py:148-159 | the centre is the middle of the sorted values, the MAD the median of the distances from it; a score exists exactly when the MAD exceeds a millionth, and times the MAD it is 0.67448975 times the current value less the centre |
| RobustDeviation.ScoreSign | src/akasha/processing/sar_temporal.py:148-159 | the score is positive, zero or negative as the current value is above, at or below the centre |
| RobustDeviation.MedianAffine | src/akasha/processing/sar_temporal.py:149 | the median commutes with every increasing affine map |
| RobustDeviation.MadAffine | src/akasha/processing/sar_temporal.py:150 | the MAD scales with the factor and ignores the shift |
| RobustDeviation.ShiftKeepsScore | src/akasha/processing/sar_temporal.py:148-157 | a shift moves the centre and leaves MAD and score |
| RobustDeviation.ScaleKeepsScore | src/akasha/processing/sar_temporal.py:148-157 | a positive scaling keeps the score exactly when both spreads are on one side of the epsilon |
| RobustDeviation.OutliersCannotMoveCentre | src/akasha/processing/sar_temporal.py:149 | replacing fewer than half of the values keeps the centre in the range of the others |
| RobustDeviation.MajorityHoldsMedian | src/akasha/processing/sar_temporal.py:149 | an interval with more than half of the values holds the median |
| SarTemporal.ComparisonReasonCodes | src/akasha/processing/sar_comparability.py:136-185 | the tests in order append exactly the codes that apply |
| SarTemporal.CompleteMeans | src/akasha/processing/sar_comparability.py:107-130 | which missing fields make an observation incomplete |
| SarTemporal.TolerancesMean | src/akasha/processing/sar_comparability.py:174-184 | within one degree of incidence and half a metre of spacing |
| SarTemporal.ReasonsMean | src/akasha/processing/sar_comparability.py:136-185 | a code is given exactly when its cause is there, none exactly when nothing applies, and only the incomplete code when an observation is incomplete |
| SarTemporal.ReasonsAreSymmetric | src/akasha/processing/sar_comparability.py:136-185 | the reason codes do not depend on which observation is the current one |
| SarTemporal.SameKeyIsComparable | src/akasha/processing/sar_comparability.py:188-212 | complete observations with equal comparison keys are comparable |
| SarTemporal.ComparableIsNotTransitive | src/akasha/processing/sar_comparability.py:174-184 | comparable observations may have different keys, and comparability may fail to chain: three passes 0.9 degrees apart |
| SarTemporal.ComparableChainsExactlyWhen | src/akasha/processing/sar_comparability.py:136-185 | comparability chains exactly when the ends are within both tolerances of each other |
| SarTemporal.ComparableHasSameKeyExactlyWhen | src/akasha/processing/sar_comparability.py:188-212 | comparable observations have equal keys exactly when incidence and spacing are equal |
| SarTemporal.Partition | src/akasha/processing/sar_temporal.py:19-34 | every prior observation is either comparable or excluded with a reason |
| SarTemporal.ComputeBaseline | src/akasha/processing/sar_temporal.py:101-145 | the loops over bands and features compute each deviation that has enough history, and the status says whether one has a score |
| BaselineMeaning.BandsMean | src/akasha/processing/sar_temporal.py:119-132 | a band has a deviation exactly when the current observation has its median and so have enough others; it is that of the current median from all of those, in order |
| BaselineMeaning.FeaturesMean | src/akasha/processing/sar_temporal.py:133-143 | the same for the features |
| BaselineMeaning.BaselineStatusMeans | src/akasha/processing/sar_temporal.py:115-145 | insufficient exactly with too few observations, available exactly when some deviation has a MAD above a millionth |
| BaselineMeaning.ComparablesAre | src/akasha/processing/sar_temporal.py:19-34 | the comparable observations are all those and only those, in their order |
| BaselineMeaning.AnalysisMeans | src/akasha/processing/sar_temporal.py:36-51 | each status of the analysis by what there is to compare with |
| SarTemporal.ExcludedObservationsDoNotCount | src/akasha/processing/sar_temporal.py:21-41 | an excluded observation changes nothing in the result, wherever it stands |
| SarTemporal.StatusMeans | src/akasha/processing/sar_temporal.py:42-51 | an incomplete observation is compared with nothing; available means enough observations and a score |
| SarTemporal.AnalysisForgetsOrder | src/akasha/processing/sar_temporal.py:12-67 | any reordering of the prior observations keeps the status, the baseline and the comparable set |
| JobProtocol.NoDuplicatesEver | src/akasha/jobs/sql_store.py:47-110 | over every interleaving two jobs of one key are never both other than failed, and each job was reported created to exactly one caller |
| JobProtocol.StepKeepsInv | migrations/versions/0001_core_platform.py:266-272 | every statement of every caller, and every status update, keeps the index unique and the creators known |
| JobProtocol.StepRefinesAtomic | src/akasha/jobs/sql_store.py:63-110 | select, insert-on-conflict, select again refine one indivisible call on the committed table |
| JobProtocol.UnresolvedOnlyAfterFailure | src/akasha/jobs/sql_store.py:96-110 | the call raises only if the very job it ran into was marked failed before it read again |
| JobStore.SyncLostOnlyByRevival | src/akasha/jobs/store.py:82-122 | an operation breaks the index exactly when it revives a failed job |
| JobStore.CreateOrGetIsAtomic | src/akasha/jobs/store.py:43-72 | a synced store answers like the indivisible call |
| JobStore.RunsWithoutRevival | src/akasha/jobs/store.py:43-122 | over any run without a revival the store meets the SQL specification |
| JobStore.DuplicatesExactlyByRevival | src/akasha/jobs/store.py:43-122 | a status update leads to two active jobs of one key, at once or with the next call, exactly when it revives a failed job |
| JobStore.RevivedJobIsDuplicated | src/akasha/jobs/store.py:82-93 | where the key has no other active job, a revived job is hidden from its key and duplicated by the next call |
| JobStore.SqlRefusesOrFinds | src/akasha/jobs/sql_store.py:180-217 | the SQL store refuses the same update exactly when the key has an active job, and otherwise finds the revived one |
| JobStore.InMemoryJobStore.CreateOrGet | src/akasha/jobs/store.py:43-72 | the dictionaries and Job objects hold what the specification of the call says |
| JobStore.InMemoryJobStore.MarkFailed | src/akasha/jobs/store.py:115-122 | marking failed frees the key of the job it belongs to |
| StageStore.StartKeepsInv | src/akasha/jobs/stage_store.py:46-74 | starting a stage keeps attempts 1..n and only the latest attempt running |
| StageStore.EndingKeepsInv | src/akasha/jobs/stage_store.py:76-103 | ending stages keeps them as well |
| StageStore.InvMeansOneRunning | src/akasha/jobs/stage_store.py:110-128 | so a (job, stage) pair has at most one running record |
| StageStore.MaxIsCount | src/akasha/jobs/stage_store.py:122-128 | the highest attempt is the number of attempts |
| StageStore.InMemoryStageStore.StartStage | src/akasha/jobs/stage_store.py:46-74 | refuses exactly while the stage runs, else appends the next attempt |
| StageStore.ListForJobIs | src/akasha/jobs/stage_store.py:105-108 | the list of a job holds all its records, by stage name and attempt |
| StagePipeline.HistoryKeepsInv | src/akasha/services/eos04_ingestion.py:169-238 | over any submissions, deliveries, deaths and recoveries, whole or cut short after any turn, attempts stay 1..n and at most one record runs |
| StagePipeline.RunEndsProperly | src/akasha/services/eos04_ingestion.py:169-226 | a run that met no running stage starts a prefix of the stage list and ends completed at the mode's limit, or failed at the stage that raised, with nothing running |
| StagePipeline.DeliveryEndsProperly | src/akasha/jobs/eos04_tasks.py:34-48 | the same for a delivery, redelivered or not; after recovery no stage is refused |
| DeliveryMeaning.DeliveryRecords | src/akasha/services/eos04_ingestion.py:32-46 | by mode and by stage name, the records that a delivery adds: the first stages of its mode in order, all of them, each completed, when it finishes; only then is the job completed |
| DeliveryMeaning.FinishesExactlyWhen | src/akasha/services/eos04_ingestion.py:169-226 | a healthy delivery finishes exactly when it is redelivered, or its job is not completed and none of its mode's stages is left running |
| StagePipeline.RefusedAtFirstRunningStage | src/akasha/jobs/stage_store.py:55-66 | a healthy run is refused exactly at the first stage that a dead worker left running |
| StagePipeline.BlockedUntilRecovery | src/akasha/services/eos04_ingestion.py:227-238 | until a recovery comes to that very record, a stage left running stays so and no delivery that reaches it finishes |
| StagePipeline.RecoveryAfterPart | src/akasha/services/eos04_ingestion.py:227-238 | a recovery cut short by a death is completed by the next one |
| StagePipeline.RedeliveryRepeatsCompletedJob | src/akasha/services/eos04_ingestion.py:227-238 | recovery queues even a completed job and runs its stages again |
| DeliverySync.DeliveryLosesSyncExactlyWhen | src/akasha/services/eos04_ingestion.py:169-238 | a delivery puts the in-memory index out of step exactly when it finds its job failed and leaves it active |
| DeliverySync.RevivesExactlyWhen | src/akasha/services/eos04_ingestion.py:169-238 | which is when it finishes, or dies with, a failed job, or queues one for an unknown mode |
| DeliverySync.HistoryKeepsSync | src/akasha/services/eos04_ingestion.py:169-238 | over any history without such a delivery every key keeps one active job |
| Eos04Service.Eos04IngestionService.ExecuteBackfill | src/akasha/services/eos04_ingestion.py:169-226 | the straight-line body over both stores is the staged run of the specification |
| Eos04Service.Eos04IngestionService.RecoverWorkerLost | src/akasha/services/eos04_ingestion.py:227-238 | recovery fails every running stage of the job, in the order of name and attempt, and queues it; a worker that dies inside it has failed the first ones of that order and queued nothing |
| SourceLocks.ExclusionAlways | src/akasha/scheduler/locks.py:21-38 | the held names are the current winners' names, and no name has two winners |
| SourceLocks.StepKeepsInv | src/akasha/scheduler/locks.py:26-38 | every statement of every thread keeps guard, stacks and held set consistent |
| SourceLocks.BackfillOnlyUnderLock | src/akasha/scheduler/orchestrator.py:74-121 | every body that has reached the start of the backfill is the only winner of its name, for a due plan of an enabled source that is no dry run |
| SourceLocks.OncePerWin | src/akasha/scheduler/orchestrator.py:74-121 | between two backfills under one name, in any execution, the name is won anew |
| SourceLocks.OnlyAdmittedPlans | src/akasha/scheduler/orchestrator.py:125-134 | only plans that pass the gate ever reach the lock |
| SourceLocks.GateMeans | src/akasha/scheduler/orchestrator.py:125-134 | the gate opens exactly for a due plan and AOI of a known source that is enabled, or manual and the plan a dry run |
| SourceLocks.LocksTellApart | src/akasha/scheduler/locks.py:17-18 | two plans share a lock exactly when they share source and AOI, for source names without a colon |
| SourceLocks.GuardComesFree | src/akasha/scheduler/locks.py:26-38 | a holder that does not ask for its own guard can always take its own next statements, at most three, up to the release |
| SourceLocks.SelfWaitIsForEver | src/akasha/scheduler/locks.py:26-38 | a losing body that calls acquire keeps the guard to the end of every execution, and no thread enters or leaves a winning body again |
| SourceLocks.SelfWaitIsReachable | src/akasha/scheduler/locks.py:26-38 | such a state is reached for every admitted plan, if a body could call again |
| LandsatCatalog.FactsStay | src/akasha/services/landsat_ingestion.py:242-285 | what an item has achieved stays, wherever later work stops |
| LandsatCatalog.ItemIsLocal | src/akasha/services/landsat_ingestion.py:242-285 | an item changes the records of its own product only |
| LandsatOutcomes.CompleteMeans | src/akasha/services/landsat_ingestion.py:584-602 | what makes a scene complete, by the names of its outputs and assets |
| LandsatOutcomes.MirroredMeans | src/akasha/services/landsat_ingestion.py:366-367 | an asset counts as mirrored when its record says so and names an object |
| LandsatOutcomes.ShortAttemptLeaves | src/akasha/services/landsat_ingestion.py:259-266 | what a finished attempt short of processing leaves: the scene unpublished, the eight source assets, and after mirroring each with its old or its new object and checksum |
| LandsatOutcomes.FullAttemptLeaves | src/akasha/services/landsat_ingestion.py:259-271 | what a finished full attempt leaves: exactly the four indices, the prepared assets, and publication exactly with a catalogue and a footprint |
| LandsatOutcomes.NewSourceRecord | src/akasha/services/landsat_ingestion.py:328-355 | a first registration leaves each source asset pending and without a mirror |
| LandsatOutcomes.NewPreparedRecord | src/akasha/services/landsat_ingestion.py:560-576 | a first full attempt leaves the prepared assets, which need no mirror |
| LandsatRuns.LandsatIngestionService.ProcessItems | src/akasha/services/landsat_ingestion.py:231-285 | the loop with its try block and counters is the run of the specification, under any failures |
| LandsatRuns.LandsatIngestionService.AttemptItem | src/akasha/services/landsat_ingestion.py:259-271 | registration, mirroring and processing in order, with the verdict of each mode |
| LandsatRuns.LandsatIngestionService.MirrorSourceAssets | src/akasha/services/landsat_ingestion.py:358-388 | the asset loop skips recorded mirrors, and signs, downloads, stores and records each other asset, wherever a call fails |
| LandsatRuns.Accounting | src/akasha/services/landsat_ingestion.py:242-285 | searched = skipped + failed + processed scenes, processed count = 6 per scene, whatever fails |
| LandsatRuns.CapHolds | src/akasha/services/landsat_ingestion.py:254-258 | at most the cap of unseen scenes is registered per run outside metadata mode |
| LandsatConvergence.AttemptCompletes | src/akasha/services/landsat_ingestion.py:584-622 | a full attempt completes a scene exactly when no publication is needed or there is a footprint |
| LandsatConvergence.RunConverges | src/akasha/services/landsat_ingestion.py:242-285 | after one failure-free full run exactly the unseen scenes beyond the cap are incomplete |
| LandsatConvergence.RunsConverge | src/akasha/services/landsat_ingestion.py:242-285 | after k runs exactly the unseen scenes beyond k caps are |
| LandsatConvergence.RunMakesProgress | src/akasha/services/landsat_ingestion.py:242-285 | each run leaves strictly fewer incomplete scenes until there is none |
| LandsatConvergence.CompleteIsStable | src/akasha/services/landsat_ingestion.py:251-253 | after that a run changes nothing, in any mode and with any failures |
| LandsatHistories.NoFootprintNeverCompletes | src/akasha/services/landsat_ingestion.py:604-622 | with pgSTAC a scene whose items have no footprint never completes, over any runs |
| LandsatHistories.MirroredForGood | src/akasha/catalog/asset_repository.py:43-84 | over any runs and failures a recorded mirror keeps its path and checksum |
| LandsatMirrors.FullTrace | src/akasha/services/landsat_ingestion.py:358-388 | an attempt that nothing stops makes the five calls for each asset without a mirror after 10 calls of registration and five for every such asset before it |
| LandsatMirrors.AttemptMirrors | src/akasha/services/source_mirroring.py:43-101 | the exact budgets with which an attempt downloads an asset, and with which it records its mirror |
| LandsatHistories.DownloadsCounted | src/akasha/services/source_mirroring.py:43-101 | downloads over any runs: one for every turn whose budget reaches the download of an asset without a mirror, that is one if it came to be mirrored and one for every turn whose budget ends before the record |
| LandsatHistories.AtMostOnceExactlyWhen | src/akasha/services/source_mirroring.py:43-101 | an asset is downloaded more than once exactly when a turn whose budget ends between its download and its record is followed by one whose budget reaches the download |
| LandsatHistories.DownloadedTwice | src/akasha/services/source_mirroring.py:68-101 | for every asset not yet mirrored exactly three budgets make the next attempt download it again |
| LandsatHistories.RetryMirrorsMissing | src/akasha/services/landsat_ingestion.py:358-388 | a retry that gets through mirroring downloads exactly the assets not recorded as mirrored, whatever was downloaded before |
| SyncWindow.WindowContents | src/akasha/jobs/sentinel2_tasks.py:62-93 | the window holds the overlap, every unrecorded day of the lookback and every incomplete day, and starts at the earliest |
| SyncWindow.IncompleteDayIsNeverLost | src/akasha/jobs/sentinel2_tasks.py:86-93 | an incomplete recorded day stays in every window until a run completes it |
| SyncWindow.NoDayIsMissed | src/akasha/jobs/sentinel2_tasks.py:70-93 | runs at most a window apart that record their windows leave no day since the first seed unrecorded |
| SyncWindow.CompleteOrNext | src/akasha/jobs/sentinel2_tasks.py:70-93 | so every such day is complete or in the next window |
| SyncWindow.GapExactlyWhen | src/akasha/jobs/sentinel2_tasks.py:78-93 | exactly when the next window leaves a gap |
| SyncWindow.GapIsForEver | src/akasha/jobs/sentinel2_tasks.py:78-93 | no later window holds a day of such a gap |
| FieldSelection.ReadsArePlausible | src/akasha/services/analytics.py:1299-1319 | under each source's class policy a read gives percentages, and no usable pixel without a field pixel |
| FieldSelection.CandidateOptions | src/akasha/services/analytics.py:932-1040 | the loop collects exactly the admitted candidates and counts the read failures |
| AvailabilityMeaning.AdmittedMeans | src/akasha/services/analytics.py:953-1030 | a scene is admitted exactly when it is measured, covered and clear enough with enough pixels in both rasters, and for ResourceSat an exact-date composite |
| FieldSelection.QualityKeyMeans | src/akasha/services/analytics.py:1275-1290 | the key prefers the nearer date, then more usable pixels, more coverage, less cover, the finer resolution, the lesser product id |
| FieldSelection.ChoiceIsBest | src/akasha/services/analytics.py:315-344 | the choice is an admitted candidate that no admitted candidate beats in that order, and there is one exactly when some candidate is admitted |
| FieldSelection.ChoiceForgetsOrder | src/akasha/services/analytics.py:1275-1290 | with distinct product ids it does not depend on the order of the candidates |
| FieldSelection.PrefilterDoesNotMatter | src/akasha/services/analytics.py:941-950 | nor on the prefilter sort |
| CandidateLimit.ChoiceIsBestOfWindow | src/akasha/services/analytics.py:932-950 | no admitted scene of the window is nearer to the date than the choice, wherever the candidate limit cuts, and where it does not cut none beats it |
| CandidateLimit.CandidatesForgetOrderExactlyWhen | src/akasha/catalog/scene_repository.py:76-102 | for any store: its order decides which scenes become candidates exactly when the limit keeps one and drops the other of two different scenes of equal distance and time |
| CandidateLimit.AnswerForgetsOrder | src/akasha/services/analytics.py:932-950 | otherwise it does not decide the answer either |
| CandidateLimit.AnswerForgetsOrderExactlyWhen | src/akasha/services/analytics.py:932-950 | it decides the answer exactly when the limit cuts through such a tie, and the tie holds an admitted scene that no admitted scene before it beats |
| CandidateLimit.CutTiesFollowTheStore | src/akasha/catalog/scene_repository.py:94-102 | of two tied admitted scenes a limit of one keeps the first in the store |
| CandidateLimit.RepositoriesAgreeExactlyWhen | src/akasha/catalog/scene_repository.py:320-355 | without full ties, the in-memory and the SQL repository give the same candidates exactly when the limit does not cut between scenes of equal distance |
| CandidateLimit.WindowOrder | src/akasha/catalog/scene_repository.py:94-101 | the limit finds the scenes from the nearest to the farthest, the earlier first |
| FieldSelection.AdmittedIffNotRejected | src/akasha/services/analytics.py:412-534 | the two codings are complements, and for ResourceSat exactly up to the provenance test |
| FieldSelection.Explain | src/akasha/services/analytics.py:389-534 | the rejection path and its priority |
| AvailabilityMeaning.RejectionMeans | src/akasha/services/analytics.py:413-510 | each status and each reason of a rejection exactly when its cause is there, and the reported numbers are the scene's own |
| AvailabilityMeaning.ExplanationIsOf | src/akasha/services/analytics.py:511-534 | the explanation is the rejection of a scene of the date than which none is better, by status, then coverage, then valid pixels |
| AvailabilityMeaning.StatusesMean | src/akasha/services/analytics.py:389-534 | each status of an unavailable date exactly when its cause is found among the scenes of the date, in the order overcast, failed, pending, poorly covered, off the raster |
| FieldSelection.ExplanationIsTheBest | src/akasha/services/analytics.py:511-531 | the explanation is some candidate's own rejection, and no candidate's has a better priority |
| FieldSelection.EveryDateAccepted | src/akasha/schemas.py:341-367 | every reported date satisfies the validator |
| FieldSelection.AcceptedMeans | src/akasha/schemas.py:324-367 | what the validator accepts |
| FieldSelection.FieldDates | src/akasha/services/analytics.py:315-387 | every requested date is reported as often as it is asked for, latest first |
| AvailabilityMeaning.DateMeans | src/akasha/services/analytics.py:315-387 | a date is available exactly when one of its scenes is fit and then reports a fit scene's own numbers; otherwise the read failure or the explanation |
| AvailabilityMeaning.ScenesOfDate | src/akasha/catalog/scene_repository.py:76-102 | the scenes of a date are the stored ones of that date, all of them where the limit does not cut |
| AvailabilityMeaning.PoliciesMean | src/akasha/services/analytics.py:1299-1319 | which mask classes are usable, cloud, shadow and nodata for each source |
| QueryCache.DeletionIsInvisible | src/akasha/catalog/field_query_repository.py:39-85 | deleting expired records changes no present or future answer |
| QueryCache.SameLiveRecords | src/akasha/catalog/field_query_repository.py:77-85 | with and without deletions the live records are the same, in the same order, now and later |
| QueryCache.CachedMeans | src/akasha/catalog/field_query_repository.py:54-75 | a lookup finds the latest created of the unexpired records with the four keys, the first of several, and nothing exactly when there is none |
| QueryCache.GotMeans | src/akasha/catalog/field_query_repository.py:44-52 | an id finds its record until it expires |
| QueryCache.SavedMeans | src/akasha/catalog/field_query_repository.py:39-42 | a save gives the id the new record and leaves every other id alone |
| QueryCache.PurgedMeans | src/akasha/catalog/field_query_repository.py:77-85 | a deletion keeps, in order, every record but the expired ones that fewer than the limit come before |
| QueryCache.InMemoryFieldQueryRepository.Save | src/akasha/catalog/field_query_repository.py:39-42 | a save replaces in place or appends |
| QueryCache.InMemoryFieldQueryRepository.Get | src/akasha/catalog/field_query_repository.py:44-52 | the record, unless it has expired |
| QueryCache.InMemoryFieldQueryRepository.FindCached | src/akasha/catalog/field_query_repository.py:54-75 | the first of the latest created live matches |
| QueryCache.InMemoryFieldQueryRepository.DeleteExpired | src/akasha/catalog/field_query_repository.py:77-85 | removes the first expired records up to the limit and counts them |
| SarHistoryCache.CachedSarHistoryStats | src/akasha/services/analytics.py:869-916 | a cached answer, or a fresh one that is saved |
| SarHistoryCache.LookupIsTrue | src/akasha/services/analytics.py:869-916 | over any run of lookups, saves, expiries and deletions a lookup returns what a computation would |
| SarHistoryCache.VersionReadsBack | src/akasha/services/analytics.py:881-884 | the analysis version determines the polarizations |
| SarHistoryCache.NamesMean | src/akasha/services/analytics.py:881-884 | for names that are not empty and hold no comma and no colon |
| SarHistoryCache.SeparatorsConfuse | src/akasha/services/analytics.py:881-884 | provided their names hold no separator |
| SarHistoryCache.CurrentObservationIsForeign | src/akasha/services/analytics.py:689-720 | a current observation never answers a history lookup |
| SarHistoryCache.ServedUntilExpiry | src/akasha/services/analytics.py:885-892 | a history record serves every lookup until it expires |
| SarHistoryCache.AnswersForItsTtl | src/akasha/services/analytics.py:893-916 | a saved record answers its own key for exactly its time to live |
| SearchPages.SearchWithStatus | src/akasha/providers/earthsearch.py:69-96 | the page and feature loops compute the outcome as a function of everything the service has |
| SearchPages.ItemsAreAPrefix | src/akasha/providers/earthsearch.py:69-96 | the items are a prefix of it |
| SearchPages.OutcomeMeans | src/akasha/providers/earthsearch.py:69-96 | how many items a search returns and which, when it fails, and when it is called exhausted |
| SearchPages.ExhaustedIsHonest | src/akasha/providers/earthsearch.py:83-95 | exactly when an exhausted result left nothing out |

## Left out

- HTTP clients, authentication, signing, request routes, task queue wiring, logging and metrics: input and output.
- Reprojection, COG and HDF5 writing, geometry areas: library code; rasters are given aligned, polygons as membership.
- IEEE rounding and float32 storage: arithmetic is over the reals; int16 casts and scene-index overflow (as numpy 2 has it) are kept.
- Aliasing of record objects: repositories hold values, except the job and stage stores, whose objects are shared as in the source; a caller that changes a returned statistics dictionary is not modelled.
- The SQL stage store and the advisory-lock registry: the in-memory ones are modelled; of the SQL stores only the job store's `create_or_get` and status updates.
- Timestamps, metadata dictionaries and heartbeat fields of jobs and stages: they decide nothing in the modelled code.
- The NISAR ingestion service: the same stage machine as EOS-04.
- A stale worker that marks a stage after recovery has failed it: the old worker is taken to be dead.
- The `change` section of the SAR analysis, the HH-HV and VV-VH features and the display of observations: plain differences.
- The numeric summaries of a field (mean, percentiles): functions of the selected samples, which are proved equal.
- CandidateLimit.AnswerForgetsOrderExactlyWhen: takes product ids that occur once among the scenes of a source, as the repositories' key of provider and product id has it for a source with one provider.
- SourceLocks.SelfWaitIsReachable: takes bodies that may call `run_source_job` again; the orchestrator's own bodies do not, so this is what the lock would do to such a caller.
- The search step before the Landsat loop and its sort by overlap: the loop is proved for items in any order.
- SyncWindow.NoDayIsMissed: takes from the ingestion service that a run records every day of its window.
- QueryCache.DeletionIsInvisible: takes a clock that does not go back and new ids for saved queries, as the service makes them.
- SearchPages.SearchWithStatus: does not model the page count and the retries of a single request.
- SarHistoryCache.LookupIsTrue: takes polarization names without commas and colons, as the products use, and a raster that does not change.
- LandsatConvergence.RunsConverge: takes valid items whose mirror objects have names, with footprints where publication is configured.
- Seed data, settings validation, overlay rendering and the remaining schemas: constants and plumbing.
