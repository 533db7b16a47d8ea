# MlLapSim core in Dafny

This project models the data pipeline behind MlLapSim, a machine-learned lap-time simulator, and proves properties of that model. The pipeline has these stages:

- **Track geometry.** Tracks are a midline of segmentation lines (`Tracks`, `Geometry`, `Functional`). A uniform-grid spatial index (`SpatialMaps`) speeds up collision queries. The normal smoother extends each half normal until it hits a boundary and collapses the collisions into one point per normal (`Smoother`).
- **Racing line.** A discrete shortest-path sweep with a refinement loop picks the racing line (`Shortest`). The splicer interpolates a recorded driving path onto the segmentation lines (`Splicer`). The xyrl reader and writer convert between text rows and tracks (`Xyrl`).
- **Encoding.** A track becomes feature arrays that are grouped into partitions (`Encoder`, `ParallelEncoder`). A vehicle is eighteen numeric parameters (`Vehicles`).
- **Normalisation and transforms.** Normalisation bounds are extended over partitions and then applied (`Normalisation`). The window, flat-window, bidirectional, lagging and stateful-lagging transforms build model inputs and targets from normalised tracks, and detransform predictions back (`Patching`, `Sampling`, `Windows`, `Desampling`, `Assembly`, `Bidirectional`, `Lagging`, `StatefulLagging`, `Transformer`, `TransformNormalisation`).
- **Evaluation.** Evaluation compares a predicted track with the truth: the lap time from SUVAT steps along the optimal line, position and velocity error statistics, and apex detection (`Eval`, `Apexes`).
- **Logging.** The training logger keeps per-epoch loss accumulators, the best validation loss and a history of epoch means (`TrainingLogger`).

Python exceptions become `Err` values of a `Result` (`Wrappers`). For example, a `TypeError` from comparing `None`, an `IndexError` from indexing past the end, a `ZeroDivisionError`, and a failed `assert` are kept, on the same inputs as in the code, except for the partial updates and callbacks listed under "Left out". NumPy's NaN from the mean of an empty array becomes `None`. Reals stand in for floats. Square roots, angles, segment intersections and the other Cython geometry primitives are function parameters. A contract that needs a fact about one of them states it as a precondition, for example that the square root of a non-negative number is non-negative.

## Model

| member | source | states |
|---|---|---|
| Functional.Roll | test/test_maths/test_functional.py:15-26 | `np.roll` keeps the length; its element formula is `Functional.RollAt` |
| Functional.RollAt | test/test_maths/test_functional.py:15-26 | element `i` of `roll(s, k)` is `s[(i - k) mod n]`, numpy's roll for every shift, positive or negative |
| Functional.RollExamples | test/test_maths/test_functional.py:15-26 | the shifts -100, -1, 0, 1 and 100 of `[0, 1, 2, 3]` give numpy's results |
| Functional.RollCompose | test/test_maths/test_functional.py:15-26 | rolling by `a` and then by `b` is rolling by `a + b` |
| Functional.RollInverse | test/test_maths/test_functional.py:15-26 | rolling by `-k` undoes rolling by `k` |
| Functional.RollPeriodic | test/test_maths/test_functional.py:15-26 | a shift by a whole number of lengths is no shift, so shift 100 on four items equals shift 0 |
| Functional.AtIndexes | test/test_maths/test_functional.py:9-13 | one picked item per index |
| Functional.AtIndexesCompose | test/test_maths/test_functional.py:9-13 | picking by `a` and then by `b` is picking by `a` indexed by `b` |
| Functional.AtIndexesExample | test/test_maths/test_functional.py:9-13 | `at_indexes([3, 4, 5, 6, 7], [0, 3, 4])` is `[3, 6, 7]` |
| Functional.MeanConstant | src/lapsim/normalisation/transforms/window/base.py:36 | the mean of values that all agree is that value; an empty mean is NaN (`None`) |
| Functional.ArgMin | src/lapsim/eval/__init__.py:154-157 | the index of a minimal value, the first one on ties (numpy's `argmin`) |
| Geometry.PointsToLines | test/test_maths/test_points.py:44-50 | one line per point |
| Geometry.PointsToLinesChain | test/test_maths/test_points.py:44-50 | `points_to_lines` gives one line per point, from that point to the next, and the last closes the loop back to the first |
| Geometry.RolledLinesEndAt | src/toolkit/tracks/smoother/smoother.py:116-121 | rolled by one, line `i` runs from point `i - 1` (wrapping) to point `i` |
| Geometry.PointsToLinesExample | test/test_maths/test_points.py:44-50 | the four-point example of the test |
| Tracks.NewSegmentation | src/toolkit/tracks/models/segmentation_line.py:12-28 | a new segmentation has `pos`, `vel` and `acc` None and `arr()` is `[x1, y1, x2, y2]` |
| Tracks.LengthNonNegative | src/toolkit/tracks/models/segmentation_line.py:30-32 | `length` is never negative, given a square root that is not |
| Tracks.LengthSwapInvariant | src/toolkit/tracks/models/segmentation_line.py:30-32 | swapping the two ends leaves `length` unchanged |
| Tracks.MidlineBetweenSides | src/toolkit/tracks/models/track.py:23-42 | point `i` of `midline()` is the average of `left_line()[i]` and `right_line()[i]`, the centre of segmentation `i` |
| SpatialMaps.CenterInBox | src/toolkit/utils/spacial_map.py:17-33 | a line item's bounds are the min and max of its end coordinates and its centre, their midpoint, lies inside them |
| SpatialMaps.CellContains | src/toolkit/utils/spacial_map.py:56-60 | the cell of a position is the floor of each coordinate over the cell size, so the position lies inside that cell |
| SpatialMaps.NewMap | src/toolkit/utils/spacial_map.py:47-54 | a new map has no items, no cached cell, and satisfies the index invariant |
| SpatialMaps.AddItem | src/toolkit/utils/spacial_map.py:62-74 | the item gets index `len(items)` and is filed in the bucket of its centre's cell only; the cache is untouched and the invariant (every index filed once, in its own cell) is kept |
| SpatialMaps.NeighbourhoodMembers | src/toolkit/utils/spacial_map.py:86-90 | the 3x3 block around a cell holds exactly the items whose cell is within one step of it |
| SpatialMaps.GetItems | src/toolkit/utils/spacial_map.py:76-95 | a query in the cached cell returns the cached list unchanged; otherwise it returns exactly the items filed in the 3x3 block and caches them |
| SpatialMaps.GetItemsFresh | src/toolkit/utils/spacial_map.py:79-95 | while no item was added since the last query, every query returns exactly the 3x3 block, in x-major, y-minor, insertion order |
| SpatialMaps.CacheNotInvalidatedByAdd | src/toolkit/utils/spacial_map.py:62-74 | adding an item does not clear the cache: a repeated query in the same cell misses the new item |
| Smoother.DeltaIsCircularGap | src/toolkit/tracks/smoother/smoother.py:303-308 | for indices in range, the four-term delta is the circular distance between the two indices, the shorter way round |
| Smoother.ClosestCollisionIndex | src/toolkit/tracks/smoother/smoother.py:286-316 | the closest index is one of the candidates |
| Smoother.ClosestCollisionIndexMinimal | src/toolkit/tracks/smoother/smoother.py:299-316 | no candidate is circularly closer to `idx mod n` than the one returned |
| Smoother.ClosestPositionUnique | src/toolkit/tracks/smoother/smoother.py:310-314 | the candidate chosen is the earliest of the closest: a later candidate only replaces the best on a strictly smaller delta |
| Smoother.ClosestExamples | test/test_tracks/test_track_smoothing/test_normals.py:140-144 | 5 for (10, [5, 20, 100], 100), 5 for (99, [5, 20, 90], 100) and 99 for (2, [30, 20, 99], 100) |
| Smoother.LastMatchBelowIsLast | src/toolkit/tracks/smoother/smoother.py:278-281 | the point kept for a boundary index is the last one listed with that index, and there is none exactly when no entry has it |
| Smoother.PickFollowsClosest | src/toolkit/tracks/smoother/smoother.py:270-281 | one step of the walk picks the last collision point whose boundary index is the closest one to the previous pick, and carries that index on |
| Smoother.VisitOrderOnce | src/toolkit/tracks/smoother/smoother.py:268-269 | the loop over `i % n` for `i` from `start + 1` visits every normal at exactly one step |
| Smoother.Walk | src/toolkit/tracks/smoother/smoother.py:242-283 | the walk over the normals from the start keeps one entry per normal |
| Smoother.WalkReaches | src/toolkit/tracks/smoother/smoother.py:265-283 | every normal the walk reaches is given one of its own collision points |
| Smoother.WalkPassed | src/toolkit/tracks/smoother/smoother.py:269-281 | a normal already visited is not overwritten by later steps, so each normal is visited once |
| Smoother.CollapseFromIndex | src/toolkit/tracks/smoother/smoother.py:242-283 | the walk from a start normal returns exactly one point per normal |
| Smoother.CollapseFromIndexPicksOwnPoints | src/toolkit/tracks/smoother/smoother.py:265-283 | the point returned for each normal is one of that normal's collision points |
| Smoother.CollapseFromIndexKeeps | src/toolkit/tracks/smoother/smoother.py:268-281 | once the loop has visited a normal, the rest of the walk leaves that normal's point as it is |
| Smoother.CollapseSingletons | src/toolkit/tracks/smoother/smoother.py:265-283 | when every normal has a single collision, the walk returns those points whatever the start |
| Smoother.FirstSingle | src/toolkit/tracks/smoother/smoother.py:190-196 | the anchor normal is the first with exactly one collision, if any |
| Smoother.FirstAgreement | src/toolkit/tracks/smoother/smoother.py:221-232 | the fallback anchor is the first normal on which the two trial walks agree, if any |
| Geometry.Distances | src/toolkit/tracks/smoother/smoother.py:214-215 | one distance per point: the distance from that point to the given centre |
| Smoother.ClosestCrossing | src/toolkit/tracks/smoother/smoother.py:212-216 | the crossing of a normal nearest its centre, the first one on ties, as `np.argmin` of the distances |
| Smoother.TrialRun | src/toolkit/tracks/smoother/smoother.py:207-220 | a trial collapse from a normal, started at the boundary of its nearest crossing, gives every normal one of its own collision points |
| Smoother.CollapseAnchor | src/toolkit/tracks/smoother/smoother.py:190-232 | the anchor is the first normal with a single collision and its only boundary index; failing that, the first normal on which the trial runs from normal 0 and normal `len // 2` agree, with the boundary index of the first run's point there; failing that, normal 0 and its first boundary index |
| Smoother.CollapseCollisionPairs | src/toolkit/tracks/smoother/smoother.py:157-239 | the collapse returns one point per normal, each one of that normal's collision points |
| Smoother.PickExample1 | src/toolkit/tracks/smoother/smoother.py:270-281 | a step that finds the closest boundary index in the first entry keeps that entry's point |
| Smoother.ExampleWalk | test/test_tracks/test_track_smoothing/test_normals.py:100-114 | the walk on the looping three-normal example gives (0, 0), (1, 2), (-1, -2) with 100 boundaries |
| Smoother.CollapseExample | test/test_tracks/test_track_smoothing/test_normals.py:100-114 | the whole collapse on the same example anchors on the single-collision normal and gives (0, 0), (1, 2), (-1, -2) |
| Smoother.SmoothRound | src/toolkit/tracks/smoother/smoother.py:40-56 | one smoothing round gives one vector per normal |
| Smoother.SmoothRoundChoice | src/toolkit/tracks/smoother/smoother.py:40-56 | a smoothing round proposes the sum of a vector and its two neighbours, keeps the old vector where the proposal turns too sharply, and normalises |
| Smoother.SmoothNormals | src/toolkit/tracks/smoother/smoother.py:19-71 | smoothing keeps one line per normal, each with the same midpoint as its input line, its two ends symmetric about it |
| Smoother.SmoothNormalsIdentity | src/toolkit/tracks/smoother/smoother.py:58-71 | with no rounds, a unit normaliser and width 2 a line comes back as given |
| Smoother.SplitNormals | src/toolkit/tracks/smoother/smoother.py:74-89 | n lines give n left and n right halves; both start at the line's midpoint, the left ends at (x1, y1) and the right at (x2, y2) |
| Smoother.SplitHalvesLength | src/toolkit/tracks/smoother/smoother.py:74-89 | each half is half as long as its line |
| Smoother.BoundaryMap | src/toolkit/tracks/smoother/smoother.py:118-121 | the boundary map holds one item per boundary point, item `i` being the segment from point `i - 1` to point `i` |
| Smoother.BoundaryItemIsBoundaryLine | src/toolkit/tracks/smoother/smoother.py:116-121 | spatial item `i` and `boundary_lines[i]` are the same segment, so a returned boundary index names the segment the map indexed |
| Smoother.Extended | src/toolkit/tracks/smoother/smoother.py:127-134 | extension `e` keeps the start and stretches the line to `e + 1` times its original direction |
| Smoother.ProbeAt | src/toolkit/tracks/smoother/smoother.py:135-144 | a probe returns equally many points and boundary indices, each index naming a boundary segment |
| Smoother.Probe | src/toolkit/tracks/smoother/smoother.py:138 | a probe only updates the map's query cache |
| Smoother.FirstCrossing | src/toolkit/tracks/smoother/smoother.py:128-147 | the first extension below the limit with at least one hit, or none when no extension hits |
| Smoother.Search | src/toolkit/tracks/smoother/smoother.py:128-147 | the retry loop queries only the map's cache: the grid, items and cell size stay as they were and the map stays ready |
| Smoother.SearchFindsFirstCrossing | src/toolkit/tracks/smoother/smoother.py:128-147 | the retry loop stops at the first extension with a hit, tried in order 0, 1, ..., and ends with no hits exactly when none has one |
| Smoother.ExtendFromSucceeds | src/toolkit/tracks/smoother/smoother.py:126-152 | the search succeeds exactly when every half normal hits the boundary within the allowed extensions, and raises otherwise |
| Smoother.ExtendFromEntries | src/toolkit/tracks/smoother/smoother.py:126-147 | entry `j` of the result is the probe of normal `j` at its first hitting extension |
| Smoother.ExtendNormalsUntilCollision | src/toolkit/tracks/smoother/smoother.py:92-154 | one (points, indices) pair per half normal, each non-empty with as many points as indices, all indices naming boundary segments |
| Shortest.StepValuesInUnit | src/toolkit/tracks/path/shortest.py:73 | the step values are `k / steps` for `k` in 0..steps: increasing, from 0 to 1 |
| Shortest.StepValuesExample | src/toolkit/tracks/path/shortest.py:73 | two steps give 0, 0.5 and 1 |
| Shortest.Forward | src/toolkit/tracks/path/shortest.py:95-102 | the forward walk stays in range, never visits index `steps`, and every accepted move strictly lowers the cost |
| Shortest.Backward | src/toolkit/tracks/path/shortest.py:104-111 | the backward walk only moves down, and every accepted move strictly lowers the cost |
| Shortest.ForwardCost | src/toolkit/tracks/path/shortest.py:95-102 | the forward walk's cost is the cost of the index it stops at, and it stops where the next index is no cheaper |
| Shortest.BackwardCost | src/toolkit/tracks/path/shortest.py:104-111 | the backward walk's cost is the cost of the index it stops at, and it stops at 0 or where the previous index is no cheaper |
| Shortest.Choose | src/toolkit/tracks/path/shortest.py:92-111 | the predecessor chosen is in range and no costlier than the start index |
| Shortest.ChooseCost | src/toolkit/tracks/path/shortest.py:92-117 | the new total is the distance to the chosen predecessor plus that predecessor's total |
| Shortest.FirstReferences | src/toolkit/tracks/path/shortest.py:75-84 | first-line reference points have total 0 and their own step value as the only interpolation |
| Shortest.NextReferencesExtend | src/toolkit/tracks/path/shortest.py:87-119 | each new reference point lies at its step on the line and extends some predecessor's interpolations by its step value, its total being the distance to that predecessor plus the predecessor's total |
| Shortest.Sweep | src/toolkit/tracks/path/shortest.py:87-119 | the sweep keeps one reference point per step value |
| Shortest.SweepChains | src/toolkit/tracks/path/shortest.py:87-119 | after the sweep every reference point carries one step value per line |
| Shortest.WalkTrack | src/toolkit/tracks/path/shortest.py:50-127 | zero steps divide by zero, no lines or negative steps fail to index, and otherwise the walk succeeds |
| Shortest.WalkTrackSteps | src/toolkit/tracks/path/shortest.py:73-127 | the walk returns one interpolation per line, each a step value in [0, 1] |
| Shortest.WalkTrackMinimal | src/toolkit/tracks/path/shortest.py:121-127 | the result is the interpolation chain of a final reference point of minimal total, the earliest on ties |
| Shortest.Neighbours | src/toolkit/tracks/path/shortest.py:185-186 | a changed index marks itself and its two circular neighbours |
| Shortest.Recompute | src/toolkit/tracks/path/shortest.py:167-183 | recomputing fails only by dividing by a zero-length normal; with no intersection the value is 1 when the neighbours' summed distance to the left end exceeds that to the right end and 0 otherwise; with one, it is the left end's distance to the hit over the normal's length |
| Shortest.RecomputeInUnit | src/toolkit/tracks/path/shortest.py:171-183 | a recomputed interpolation lies in [0, 1] when the hit lies on the normal; without an intersection it is an end, 1 exactly when the left end costs more |
| Shortest.RoundFrom | src/toolkit/tracks/path/shortest.py:162-188 | a successful round gives one interpolation per normal |
| Shortest.RoundFromResult | src/toolkit/tracks/path/shortest.py:162-188 | one round recomputes exactly the indices to check, keeps the others, and the next set to check is the neighbourhood of every index whose value moved |
| Shortest.RoundFromNothing | src/toolkit/tracks/path/shortest.py:163-165 | with nothing to check a round changes nothing |
| Shortest.Refine | src/toolkit/tracks/path/shortest.py:159-199 | refinement keeps one point and one interpolation per normal and runs at most the allowed number of rounds |
| Shortest.RefineStopsEarly | src/toolkit/tracks/path/shortest.py:193-198 | a round whose improvement is below the threshold is the last |
| Shortest.RefineNothingToCheck | src/toolkit/tracks/path/shortest.py:161-198 | with nothing to check the first round improves nothing and stops the loop |
| Shortest.ShortestPath | src/toolkit/tracks/path/shortest.py:131-205 | an empty track fails; otherwise one position and one interpolation per segmentation after at most `max_iterations` rounds |
| Splicer.RoundHalfEven | src/toolkit/tracks/splicer/splicer.py:118-119 | Python's `round` to an integer: the nearest integer, ties to the even one |
| Splicer.RoundUnitToNoDigits | src/toolkit/tracks/splicer/splicer.py:118-119 | a value in [0, 1] rounded to no digits is 0 or 1 |
| Splicer.RoundExamples | src/toolkit/tracks/splicer/splicer.py:118-119 | 0.5 rounds to 0 and 1.5 to 2; 0.25 and 0.26 to one digit give 0.2 and 0.3 |
| Splicer.GetPathData | src/toolkit/tracks/splicer/splicer.py:132-167 | without a path: the track midline with one zero velocity and acceleration per segmentation; with one: its points, a missing or zero velocity as -1 and a missing acceleration as 0 |
| Splicer.GetPathDataAppend | src/toolkit/tracks/splicer/splicer.py:154-157 | every sample is read on its own: the data of two runs of samples is the two runs' data concatenated |
| Splicer.Extensions | src/toolkit/tracks/splicer/splicer.py:59 | six extensions are tried, from 0 to 1 |
| Splicer.SharedEndIsShared | src/toolkit/tracks/splicer/splicer.py:69-87 | with two hits the point is an end the two path segments share, checked in the code's order, else the first segment's start |
| Splicer.CrossingOf | src/toolkit/tracks/splicer/splicer.py:64-88 | the crossing's index is the first hit's, a valid path segment |
| Splicer.FindCrossing | src/toolkit/tracks/splicer/splicer.py:59-88 | a crossing found names a segment of the path |
| Splicer.FindCrossingFirst | src/toolkit/tracks/splicer/splicer.py:59-88 | extensions are tried in order and the first with exactly one or two hits is used; there is no crossing exactly when none has |
| Splicer.Position | src/toolkit/tracks/splicer/splicer.py:94-98 | the position divides by the normal's length, so fails exactly for a zero-length normal |
| Splicer.PositionInUnit | src/toolkit/tracks/splicer/splicer.py:94-98 | the position is the start distance over the length, 0 when the end is too far and 1 when the start is too far, hence in [0, 1] |
| Splicer.Fraction | src/toolkit/tracks/splicer/splicer.py:102 | the fraction along the path segment is clamped to [0, 1] and fails only on a zero-length segment |
| Splicer.Interpolate | src/toolkit/tracks/splicer/splicer.py:104-106 | the interpolation is the first value at fraction 0 and the second at fraction 1 |
| Splicer.InterpolateBetween | src/toolkit/tracks/splicer/splicer.py:104-106 | with the fraction in [0, 1] the velocity and acceleration are convex combinations, between the two path values |
| Splicer.SpliceOne | src/toolkit/tracks/splicer/splicer.py:93-121 | without a precision the segmentation's end points are copied unchanged |
| Splicer.SpliceAt | src/toolkit/tracks/splicer/splicer.py:54-91 | a normal with no usable crossing raises |
| Splicer.FirstFailure | src/toolkit/tracks/splicer/splicer.py:53-121 | there is no failure exactly when every normal splices |
| Splicer.Splice | src/toolkit/tracks/splicer/splicer.py:36-129 | one output segmentation per input normal, each the splice of that normal |
| Splicer.SpliceFailsWithoutCrossing | src/toolkit/tracks/splicer/splicer.py:90-91 | if some normal crosses the path at no extension, the splice raises |
| Splicer.SpliceSegmentation | src/toolkit/tracks/splicer/splicer.py:93-121 | each output keeps its end points, has a position in [0, 1] and a velocity between the path velocities at the crossing index and the one before it |
| Splicer.SpliceNoDigitsPositions | test/test_tracks/test_splicer/test_splicer.py:75-97 | with precision 0 every position is 0 or 1 |
| Xyrl.Split | src/toolkit/tracks/conversion/xyrl.py:51-52 | `str.split` gives at least one piece, none containing the separator |
| Xyrl.SplitJoin | src/toolkit/tracks/conversion/xyrl.py:51-52 | Python's `str.split` with a separator: the pieces joined back with it give the string |
| Xyrl.SplitNoSeparator | src/toolkit/tracks/conversion/xyrl.py:51-52 | a string without the separator splits into itself alone |
| Xyrl.SplitExample | src/toolkit/tracks/conversion/xyrl.py:51-52 | `"1,2,,3"` splits into four pieces, one empty, and the empty string into one empty piece |
| Xyrl.ParseTokens | src/toolkit/tracks/conversion/xyrl.py:56 | every token is parsed as a float, and the row fails as soon as one token does not parse |
| Xyrl.RowOf | src/toolkit/tracks/conversion/xyrl.py:56-63 | a row needs four values: columns 0-1 are the reference point, column 2 the right width and column 3 the left width |
| Xyrl.Filter | src/toolkit/tracks/conversion/xyrl.py:51-55 | only lines of more than two comma-separated tokens are kept |
| Xyrl.ParseLines | src/toolkit/tracks/conversion/xyrl.py:51-59 | parsed raw input has one row per kept line |
| Xyrl.DataRows | src/toolkit/tracks/conversion/xyrl.py:60-63 | the data path accepts exactly the inputs whose every row has four values, one row each |
| Xyrl.References | src/toolkit/tracks/conversion/xyrl.py:57-61 | one reference point per row, in order |
| Xyrl.FromXyrl | src/toolkit/tracks/conversion/xyrl.py:30-87 | both or neither of `raw` and `data` fail the assertion; an empty raw string is taken as the data path and fails; on the data path one segmentation per row |
| Xyrl.FromXyrlRawCount | src/toolkit/tracks/conversion/xyrl.py:50-59 | raw input gives one segmentation per kept line, the first line skipped exactly when `skip_first` |
| Xyrl.RawMatchesData | src/toolkit/tracks/conversion/xyrl.py:50-63 | raw text whose kept lines parse to the given rows yields the same track as those rows passed as data |
| Xyrl.ZeroWidthsPinEnds | src/toolkit/tracks/conversion/xyrl.py:66-75 | a zero left (right) width puts the left (right) end on the reference point |
| Xyrl.LeftOffsetScalesWithWidth | src/toolkit/tracks/conversion/xyrl.py:67-75 | the left end's offset from the reference point scales linearly with the left width |
| Xyrl.Emit | src/toolkit/tracks/conversion/xyrl.py:122-136 | one (x, y, right, left) tuple per normal: its centre and the distances from the centre to the right and left collision points |
| Xyrl.SideCrossings | src/toolkit/tracks/conversion/xyrl.py:113-120 | one collapsed collision point per half normal on each side |
| Xyrl.XyrlRows | src/toolkit/tracks/conversion/xyrl.py:106-136 | one tuple per path normal, whose (x, y) is that normal's centre |
| Xyrl.ToXyrlAsWritten | src/toolkit/tracks/conversion/xyrl.py:90-136 | the conversion as written (left collisions collapsed with the normal count as boundary count) gives one tuple per normal |
| Xyrl.ToXyrl | src/toolkit/tracks/conversion/xyrl.py:90-136 | the conversion with the boundary count of the side's boundary gives one tuple per normal, and fails on an empty track |
| Xyrl.CollapseGapIsCircular | src/toolkit/tracks/conversion/xyrl.py:119-120 | with the boundary's own size as the count, the collapse's delta is the circular gap between boundary indices |
| Xyrl.WrongBoundaryCountLeavesSegment | src/toolkit/tracks/conversion/xyrl.py:119 | with three normals and a 100-segment boundary, a count of 3 picks a different collision point than the correct count |
| Encoder.Combine | src/lapsim/encoder/partition.py:36-61 | combining no partitions gives the empty partition and combining one gives it back |
| Encoder.CombineConcatenates | src/lapsim/encoder/partition.py:36-61 | `combine` concatenates the vehicles and each feature list of the partitions in order |
| Encoder.CombineSplit | src/lapsim/encoder/partition.py:42-50 | combining a concatenated list equals appending the combines of its two halves |
| Encoder.CombineOfCombines | src/lapsim/encoder/partition.py:42-50 | combining a concatenated list equals combining the combines of its two halves |
| Encoder.CombineUnit | src/lapsim/encoder/partition.py:36-61 | `combine([])` is the empty partition and `combine([p])` is `p` |
| Encoder.CombineLengths | test/test_lapsim/test_encoder/test_parallel_encoder.py:55-59 | each field's length in the combined partition is the sum of the inputs' lengths |
| Encoder.Flip | src/lapsim/encoder/encoder.py:35-42 | the flip maps (x1, y1, x2, y2) to (x2, -y2, x1, -y1) and `pos` to `1 - pos`, and fails without a position |
| Encoder.FlipInvolution | src/lapsim/encoder/encoder.py:35-42 | flipping twice restores the line and its position exactly |
| Encoder.FlipKeepsLength | test/test_lapsim/test_encoder/test_encoder.py:93-107 | a flip keeps the width (length) of every line |
| Encoder.FlipAll | src/lapsim/encoder/encoder.py:35-42 | flipping a track succeeds exactly when every line has a position, each line flipped |
| Encoder.WidthRow | src/lapsim/encoder/encoder.py:79 | the widths are the line lengths, one per segmentation |
| Encoder.Encode | src/lapsim/encoder/encoder.py:18-57 | an unflipped encode always succeeds; the result holds the one vehicle and one row per feature with one entry per segmentation |
| Encoder.EncodeFlipped | test/test_lapsim/test_encoder/test_encoder.py:93-107 | a flipped encode keeps widths and velocities and maps each position `p` to `1 - p`, with a resulting 0 read as missing (-1) |
| Encoder.EncodeZeroIsMissing | src/lapsim/encoder/encoder.py:47-48 | a position of None or 0 is encoded as -1 |
| ParallelEncoder.Distribute | src/lapsim/encoder/parallel_encoder.py:155-159 | dealing gives exactly `n` groups |
| ParallelEncoder.DistributeDeals | src/lapsim/encoder/parallel_encoder.py:155-159 | dealing puts item `k` into group `k mod n` at position `k div n`, and each group holds exactly those items |
| ParallelEncoder.DistributeSizes | src/lapsim/encoder/parallel_encoder.py:155-159 | group `g` of `n` receives `ceil((len - g) / n)` items, or none when there are at most `g` items |
| ParallelEncoder.DistributeBalanced | src/lapsim/encoder/parallel_encoder.py:155-159 | any two groups differ in size by at most one, and earlier groups are never smaller |
| ParallelEncoder.DistributePermutes | src/lapsim/encoder/parallel_encoder.py:151-159 | the groups together hold exactly the input items (as a multiset) |
| ParallelEncoder.DistributeExamples | test/test_lapsim/test_encoder/test_parallel_encoder.py:111-127 | 29 items in 2 groups give sizes 15 and 14; in 30 groups the last is empty; in 5 groups the last two have 6 and 5 |
| ParallelEncoder.DistributePositions | src/lapsim/encoder/parallel_encoder.py:158-159 | the item at shuffled index `k` lands in group `k mod n` at position `k div n` |
| ParallelEncoder.CreatePartitionGroups | src/lapsim/encoder/parallel_encoder.py:137-161 | a partition count below 1 becomes 1; the groups are a permutation of the inputs, dealt round-robin from the shuffled order |
| ParallelEncoder.Batches | src/lapsim/encoder/parallel_encoder.py:119-121 | a batch size of 0 fails; a negative size gives no batches; a positive size gives non-empty batches of at most that size, all full except the last, whose concatenation is the input |
| ParallelEncoder.BatchesAreSlices | src/lapsim/encoder/parallel_encoder.py:119-121 | batch `b` is the slice `items[b*size .. min((b+1)*size, len)]` |
| ParallelEncoder.EncodeAll | src/lapsim/encoder/parallel_encoder.py:124-134 | encoding every item succeeds iff each item encodes, and the partitions are the items' encodings in input order |
| ParallelEncoder.EncodeItems | src/lapsim/encoder/parallel_encoder.py:93-134 | batch size 0 or fewer than one core raises `ValueError`; a negative batch size encodes nothing; otherwise every item is encoded in order |
| ParallelEncoder.EncodeGroups | src/lapsim/encoder/parallel_encoder.py:79-85 | each group yields the combination of its items' partitions, one partition per group, and fails iff some group fails |
| ParallelEncoder.Resolve | src/lapsim/encoder/parallel_encoder.py:58-64 | a missing partition count becomes 0, missing cores become the CPU count, and a missing batch size becomes eight times the cores |
| ParallelEncoder.ParallelEncode | src/lapsim/encoder/parallel_encoder.py:56-90 | returns partitions iff asked to; with `n >= 1` there are exactly `n` of them, otherwise one per input equal to that input's encoding; bad batch or core counts raise `ValueError` |
| ParallelEncoder.ParallelEncodeKeepsEveryInput | test/test_lapsim/test_encoder/test_parallel_encoder.py:55-59 | the returned partitions hold one vehicle per input, however the inputs were grouped |
| ParallelEncoder.GroupsKeepEveryInput | src/lapsim/encoder/parallel_encoder.py:79-85 | encoding and combining the partition groups keeps one vehicle per input |
| ParallelEncoder.CombinedVehicleCount | test/test_lapsim/test_encoder/test_parallel_encoder.py:55-59 | combining one-vehicle partitions gives as many vehicles as partitions |
| Normalisation.RangeNormalise | src/lapsim/normalisation/normalisation_bounds.py:18-30 | unset bounds raise; a zero range maps every value to 0; otherwise each value `v` becomes the `x` with `x * (max - min) + min == v`, keeping the shape |
| Normalisation.RangeNormaliseInUnit | src/lapsim/normalisation/normalisation_bounds.py:18-30 | values inside `[min, max]` normalise into `[0, 1]` |
| Normalisation.ScalarNormalise | src/lapsim/normalisation/normalisation_bounds.py:33-41 | a zero scale maps every value to 0; otherwise each value is divided by the scale, keeping the shape |
| Normalisation.ScalarNormaliseInRange | src/lapsim/normalisation/normalisation_bounds.py:33-41 | values whose magnitude is at most the scale normalise into `[-1, 1]` |
| Normalisation.MaxAbs | src/lapsim/normalisation/normalisation_bounds.py:49 | the largest magnitude of a non-empty row, attained by one of its entries |
| Normalisation.MinAbs | src/lapsim/normalisation/normalisation_bounds.py:62 | the smallest magnitude of a non-empty row, attained by one of its entries |
| Normalisation.UpperBound | src/lapsim/normalisation/normalisation_bounds.py:58-64 | the running maximum bounds every magnitude, never falls, and is the start or some entry; it stays unset iff every row is empty |
| Normalisation.LowerBound | src/lapsim/normalisation/normalisation_bounds.py:58-64 | the running minimum is below every magnitude, never rises, and is the start or some entry; it stays unset iff every row is empty |
| Normalisation.GetMaxFromLists | src/lapsim/normalisation/normalisation_bounds.py:44-50 | the result bounds the start and every magnitude, and is the start or some entry |
| Normalisation.MinAndMaxFromLists | src/lapsim/normalisation/normalisation_bounds.py:53-64 | the pair brackets every magnitude and widens the start; all-empty rows leave it unchanged |
| Normalisation.MinAndMaxOrdered | src/lapsim/normalisation/normalisation_bounds.py:53-64 | from unset bounds over a non-empty row, `0 <= min <= max`, both attained |
| Normalisation.ExtendVehicles | src/lapsim/normalisation/normalisation_bounds.py:96-105 | succeeds iff the non-empty vehicles share one length (the bounds' length once set); then the bounds cover every non-empty vehicle and enclose the old ones; empty vehicles change nothing |
| Normalisation.ExtendVehiclesAttained | src/lapsim/normalisation/normalisation_bounds.py:96-105 | from no bounds, every per-element extreme is some vehicle's value |
| Normalisation.VehicleDivisor | src/lapsim/normalisation/normalisation_bounds.py:137-140 | the divisor is `max - min` per element, replaced by 1 where that is 0, so it is never 0 |
| Normalisation.NormaliseVehicle | src/lapsim/normalisation/normalisation_bounds.py:142-148 | each element `x` satisfies `x * divisor + min == v`, truncated to the shorter of the vehicle and the bounds |
| Normalisation.NormaliseVehicles | src/lapsim/normalisation/normalisation_bounds.py:131-150 | unset vehicle bounds raise; otherwise every vehicle is normalised by the same bounds |
| Normalisation.NormaliseVehicleInUnit | src/lapsim/normalisation/normalisation_bounds.py:131-150 | a vehicle covered by the bounds normalises into `[0, 1]` |
| Normalisation.NormalisedVehiclesSpanUnit | test/test_lapsim/test_normalisation/test_normalisation.py:114-115 | after extending over the vehicles, each element's minimum becomes 0 and, for a non-constant element, its maximum becomes 1 |
| Normalisation.NormaliseAtExtremes | src/lapsim/normalisation/normalisation_bounds.py:142-148 | the lower bound maps to 0 and a distinct upper bound maps to 1 |
| Normalisation.Extend | src/lapsim/normalisation/normalisation_bounds.py:79-105 | succeeds iff the vehicles are consistent; the angle and offset bounds only grow and bound every magnitude; width and velocity bounds bracket every magnitude; the vehicle bounds cover every non-empty vehicle |
| Normalisation.ExtendWithNothingKeepsDefaults | test/test_lapsim/test_normalisation/test_normalisation.py:83-91 | extending the defaults by all-empty data leaves them unset, so a later normalise raises |
| Normalisation.Normalise | src/lapsim/normalisation/normalisation_bounds.py:107-129 | raises iff a width, velocity or vehicle bound is unset; otherwise produces the six keys, keeps positions, and keeps the shape of every feature |
| Normalisation.ExtendThenNormaliseBounded | test/test_lapsim/test_normalisation/test_normalisation.py:117-153 | normalising a partition by bounds extended over it puts angles and offsets in `[-1, 1]` and widths in `[0, 1]` |
| Normalisation.LongestRow | src/lapsim/normalisation/normalised_data.py:35-36 | the longest row length: no row is longer and one row has it |
| Normalisation.LongestBoundsEveryTrack | src/lapsim/normalisation/normalised_data.py:35-45 | every track's length is at most the longest track length |
| Normalisation.NormalsCountIsSumOfLengths | src/lapsim/normalisation/normalised_data.py:38-39 | the normals count is the sum of the tracks' lengths |
| Normalisation.NormalisedData.LongestTrackLength | src/lapsim/normalisation/normalised_data.py:35-36 | the longest track's width count, attained by some track; no tracks raises |
| Normalisation.NormalisedData.TrackLength | src/lapsim/normalisation/normalised_data.py:44-45 | the width count of track `t`, with negative indexes counting from the end; an index out of range raises |
| Normalisation.NormalisedData.VehicleSize | src/lapsim/normalisation/normalised_data.py:41-42 | the length of the first vehicle vector; no vehicles raises |
| TransformNormalisation.ExtendPipeline | src/lapsim/normalisation/transform_normalisation.py:41-46 | vehicle settings errors come first; success iff the vehicles vectorise and the bounds extend; the settings are kept and the new bounds cover every angle and velocity of the partition |
| TransformNormalisation.MapError | src/lapsim/normalisation/transform_normalisation.py:41-46 | relabelling an error keeps success and the value, and maps only the error |
| TransformNormalisation.ExtendedPipelineNormalisesInRange | src/lapsim/normalisation/transform_normalisation.py:41-53 | normalising a partition with a fresh pipeline extended by it keeps angles and offsets in `[-1, 1]` and widths in `[0, 1]` |
| TransformNormalisation.ExtendedPipelineLoaded | src/lapsim/normalisation/transform_normalisation.py:41-53 | extending by a partition with some width, some velocity and some non-empty vehicle loads every bound that `normalise` needs |
| TransformNormalisation.TransformData | src/lapsim/normalisation/transforms/transformer.py:99-118 | an unknown method name raises; otherwise the result has the shape of the named method, its targets are the sampled outputs at that method's lag and patch size, and there is one vehicle row per input |
| TransformNormalisation.NormaliseAndTransform | src/lapsim/normalisation/transform_normalisation.py:48-53 | vehicle settings errors come first, then unloaded bounds raise; with loaded bounds only the settings or the method can fail; a success is the transform of the normalised partition |
| TransformNormalisation.Detransform | src/lapsim/normalisation/transforms/transformer.py:99-121 | an unknown method name raises; otherwise there is one detransformed output per network output |
| TransformNormalisation.Denormalise | src/lapsim/normalisation/transform_normalisation.py:64 | unset velocity bounds leave no finite velocity; set bounds scale every present value and keep missing ones missing |
| TransformNormalisation.DetransformAndDenormalise | src/lapsim/normalisation/transform_normalisation.py:55-65 | succeeds iff the detransform does; the position is returned unchanged and the velocity has the detransformed length |
| TransformNormalisation.DenormaliseInvertsRangeNormalise | src/lapsim/normalisation/transform_normalisation.py:55-65 | denormalising undoes the range normalisation of a velocity track, whatever the bounds |
| TransformNormalisation.DenormaliseRecoversVelocities | src/lapsim/normalisation/transform_normalisation.py:55-65 | when the detransform recovers the normalised velocities, `detransform_and_denormalise` returns the original velocities |
| TransformNormalisation.StripNullBounds | src/lapsim/normalisation/transform_normalisation.py:34-37 | a width or velocity bound saved as null is removed; every other key is kept as it was |
| TransformNormalisation.LoadDocument | src/lapsim/normalisation/transform_normalisation.py:27-39 | only the `bounds` entry is changed, and only by removing null width and velocity bounds |
| TransformNormalisation.ValidateInfinite | src/lapsim/normalisation/normalisation_bounds.py:69-70 | a width or velocity field is valid iff it is absent or a number; absent is the infinite default, a number is read, and null or anything else is rejected under the field's name |
| TransformNormalisation.ValidateFloat | src/lapsim/normalisation/normalisation_bounds.py:71-72 | an angle or offset maximum is valid iff it is absent or a number; absent is 0, and null or anything else is rejected under the field's name |
| TransformNormalisation.ValidateList | src/lapsim/normalisation/normalisation_bounds.py:76-77 | a vehicle bound is valid iff it is absent, null or a list of numbers; absent and null are both `None` |
| TransformNormalisation.FirstInvalidSpec | src/lapsim/normalisation/normalisation_bounds.py:67-77 | the search for an invalid field finds none iff every later field is valid, and otherwise finds an invalid field with only valid fields before it |
| TransformNormalisation.ValidateBounds | src/lapsim/normalisation/normalisation_bounds.py:67-77 | validation fails iff some field is invalid, naming the first in declaration order; a success holds each field's validated value, with the vehicle bounds set only when both lists are |
| TransformNormalisation.ValidateBoundsAccepts | src/lapsim/normalisation/normalisation_bounds.py:67-77 | validation succeeds iff every field is valid; a failure names an invalid field with every earlier field valid |
| TransformNormalisation.SameFieldsValidate | src/lapsim/normalisation/normalisation_bounds.py:67-77 | two dictionaries that agree on the eight fields validate alike, whatever else they hold |
| TransformNormalisation.LoadBounds | src/lapsim/normalisation/transform_normalisation.py:27-39 | a document without bounds loads the defaults; saved bounds are validated after their null width and velocity bounds are stripped |
| TransformNormalisation.SaveBounds | src/lapsim/normalisation/transform_normalisation.py:23-25 | every float field is written, an infinite width or velocity bound as null; the vehicle lists are written only when set; nothing else is written |
| TransformNormalisation.LoadSaveRoundTrip | src/lapsim/normalisation/transform_normalisation.py:23-39 | loading saved bounds gives the same bounds back, infinite ones included |
| TransformNormalisation.SavedInfiniteLoad | src/lapsim/normalisation/transform_normalisation.py:23-39 | a saved and stripped width or velocity bound validates to the bound that was saved |
| TransformNormalisation.SavedFloatLoad | src/lapsim/normalisation/transform_normalisation.py:23-39 | a saved and stripped angle or offset maximum validates to the value that was saved |
| TransformNormalisation.SavedVehicleLoad | src/lapsim/normalisation/transform_normalisation.py:23-39 | saved and stripped vehicle lists validate back to the vehicle bounds that were saved, or to none |
| TransformNormalisation.SavedDefaultsNeedStripping | src/lapsim/normalisation/transform_normalisation.py:32-39 | without the stripping, the saved default bounds would be rejected at `max_width`, whose infinity is written as null |
| TransformNormalisation.LoadEmptyIsDefault | src/lapsim/normalisation/transform_normalisation.py:27-39 | a document without bounds, or with an empty bounds dictionary, loads the class defaults |
| TransformNormalisation.LoadAcceptsNullBounds | src/lapsim/normalisation/transform_normalisation.py:27-39 | a saved null width or velocity bound loads as its infinite default, and a saved number is kept |
| TransformNormalisation.LoadKeepsOtherNulls | src/lapsim/normalisation/transform_normalisation.py:34-39 | a null angle or offset maximum is not removed; validation rejects it under its name, and the load fails |
| TransformNormalisation.LoadNullVehicleIsAbsent | src/lapsim/normalisation/normalisation_bounds.py:76-77 | a null vehicle bound loads as `None`, and the load is the same as with the key missing |
| TransformNormalisation.NullListDropped | src/lapsim/normalisation/normalisation_bounds.py:76-77 | removing a null vehicle bound does not change validation |
| TransformNormalisation.LoadIgnoresUnknownKeys | src/lapsim/normalisation/normalisation_bounds.py:67-77 | a key that names no field does not change the load, whatever its value |
| Transformer.KeysOrder | src/lapsim/normalisation/transforms/transformer.py:75-79 | a key list is used as given; a name must be `V1`, whose list has sixteen keys; any other name raises |
| Transformer.LowerChar | src/lapsim/normalisation/transforms/transformer.py:81 | upper-case ASCII letters become lower case and nothing else changes |
| Transformer.Lower | src/lapsim/normalisation/transforms/transformer.py:81 | ASCII lower-casing keeps the length and lower-cases each character |
| Transformer.LowerIdempotent | src/lapsim/normalisation/transforms/transformer.py:81 | lower-casing twice equals lower-casing once |
| Transformer.RemoveUnderscores | src/lapsim/normalisation/transforms/transformer.py:86 | the result has no underscores, is no longer than the input, and equals it when there were none |
| Transformer.CamelKey | src/lapsim/normalisation/transforms/transformer.py:86 | the camel-case spelling has no underscores and no upper-case letters |
| Transformer.LowerKeyed | src/lapsim/normalisation/transforms/transformer.py:81 | every key appears lower-cased, and only lower-cased keys of the vehicle appear |
| Transformer.LowerKeyedLastWins | src/lapsim/normalisation/transforms/transformer.py:81 | when two keys lower-case alike, the later value wins |
| Transformer.LookupAll | src/lapsim/normalisation/transforms/transformer.py:84-93 | succeeds iff every key matches by exact or camel-case spelling, with the values in key order; otherwise the first missing key is named in both spellings |
| Transformer.TransformVehicle | src/lapsim/normalisation/transforms/transformer.py:55-93 | an unknown encoding name raises; otherwise the vehicle is looked up in the encoding's key order |
| Transformer.V1VectorLength | src/lapsim/normalisation/transforms/transformer.py:13-20 | a `V1` vector has sixteen entries |
| Transformer.ExactSpellingPreferred | src/lapsim/normalisation/transforms/transformer.py:88 | a key present in its exact spelling takes that value |
| Transformer.CamelSpellingExample | src/lapsim/normalisation/transforms/transformer.py:86-91 | `KRoll` answers `k_roll`, and a missing `mass` raises naming both spellings |
| Transformer.VectoriseVehicles | src/lapsim/normalisation/transforms/transformer.py:95-97 | succeeds iff every vehicle transforms, one vector per vehicle in order; otherwise the first failing vehicle's error |
| Transformer.MethodNamed | src/lapsim/normalisation/transforms/transformer.py:27-33 | a name registered for a method maps to it; any other name has no method |
| Transformer.GetTransform | src/lapsim/normalisation/transforms/transformer.py:99-115 | an unknown method name raises; otherwise the named method with every setting copied onto it |
| Transformer.MethodNamesRoundTrip | src/lapsim/normalisation/transforms/transformer.py:27-33 | looking up a method's registered name gives back that method |
| Patching.StartPadding | src/lapsim/normalisation/transforms/common.py:35 | the front padding is less than one patch |
| Patching.PadFacts | src/lapsim/normalisation/transforms/common.py:35-37 | the padded length is exactly the number of patches times the patch size |
| Patching.Patchify | src/lapsim/normalisation/transforms/common.py:11-52 | a patch size of 1 returns the input; 0 divides by zero; a negative size yields no rows or a shape error; a larger size gives `ceil(n / p)` rows of `p` times the columns |
| Patching.PatchRowsShape | src/lapsim/normalisation/transforms/common.py:37-50 | every patch row has `p` times the input's columns |
| Patching.PatchBounds | src/lapsim/normalisation/transforms/common.py:39-42 | every patch after the first starts inside the track, and every patch ends within it |
| Patching.PatchRowFacts | src/lapsim/normalisation/transforms/common.py:39-50 | the first patch is `-1` padding followed by the first rows; every later patch is the flattening of `p` consecutive rows |
| Patching.PatchPrefix | src/lapsim/normalisation/transforms/common.py:39-50 | the first `c + 1` patches flatten to the padding followed by the rows they cover |
| Patching.PatchifyFlattens | src/lapsim/normalisation/transforms/common.py:11-52 | flattening the patched matrix gives the `-1` padding followed by the flattened input: nothing is lost, reordered or duplicated |
| Patching.PatchifyEmpty | src/lapsim/normalisation/transforms/common.py:34-37 | an empty track gives no patches and no padding |
| Patching.PatchifyRow | src/lapsim/normalisation/transforms/common.py:39-50 | each row of the result is the patch the loop writes at that index |
| Patching.PatchifyLeadingPadding | src/lapsim/normalisation/transforms/common.py:44-48 | the first patch starts with exactly the front padding of `-1` values |
| Patching.PatchifyPaddingExample | src/lapsim/normalisation/transforms/common.py:18-19 | thirteen rows in patches of five need two padding rows and give three patches |
| Patching.Combine | src/lapsim/normalisation/transforms/common.py:55-61 | no items raises; otherwise each item becomes a column, broadcast when it has one entry, and any other length mismatch raises |
| Patching.CombineColumns | src/lapsim/normalisation/transforms/common.py:55-61 | combining equal-length items and reading column `i` gives back item `i` |
| Patching.AllOk | src/lapsim/normalisation/transforms/common.py:88-94 | collecting results succeeds iff each one does, keeping their order; otherwise it reports the first error |
| Patching.MapTracks | src/lapsim/normalisation/transforms/common.py:88-91 | mapping over the tracks succeeds iff every track does, one result per track in order |
| Patching.PerformTransforms | src/lapsim/normalisation/transforms/common.py:81-94 | no tracks returns nothing; several tracks with fewer than one core raise; otherwise every track is transformed in order |
| Patching.PerformTransformsInOrder | src/lapsim/normalisation/transforms/common.py:81-94 | when every track transforms, the result has one entry per track, each that track's transform |
| Sampling.CeilDivInt | src/lapsim/normalisation/transforms/sampling.py:62 | the ceiling of `a / b`: the least multiple of `b` at or above `a` |
| Sampling.LoopTrack | src/lapsim/normalisation/transforms/sampling.py:55-63 | an empty track divides by zero; a repeat count below zero raises; otherwise the track repeated `ceil(p(2s+1) / n) + 1` times |
| Sampling.LoopTrackAt | src/lapsim/normalisation/transforms/sampling.py:55-63 | entry `k` of the looped track is entry `k mod n` of the track |
| Sampling.LoopTrackLongEnough | src/lapsim/normalisation/transforms/sampling.py:55-63 | the looped track covers the track plus a full target window |
| Sampling.ComputeTargets | src/lapsim/normalisation/transforms/sampling.py:66-94 | a negative window raises, an empty track divides by zero; otherwise one target row per normal, each `p(2s+1)` wide |
| Sampling.ComputeTargetsAt | test/test_lapsim/test_normalisation/test_transforms/test_transform_base.py:82-88 | entry `k` of normal `i`'s target row is the track value at `(i + 1 - p - sp - lag + k) mod n` |
| Sampling.TargetIndex | src/lapsim/normalisation/transforms/sampling.py:84-92 | rolling by the lag and then reading the looped track at the wrapped patch start reads the track at one wrapped index |
| Sampling.TargetsWithoutSampling | src/lapsim/normalisation/transforms/sampling.py:66-94 | with no sampling, lag or patching each normal's target is its own value |
| Sampling.TargetBlock | src/lapsim/normalisation/transforms/sampling.py:42-48 | a track's targets for one output have one row per normal of the track |
| Sampling.TrackBlocks | src/lapsim/normalisation/transforms/sampling.py:42-48 | a track contributes one block per output key |
| Sampling.GetTargetOutput | src/lapsim/normalisation/transforms/sampling.py:13-52 | missing widths raise a key error, an unset sampling raises a type error; otherwise one target matrix per output key |
| Sampling.TargetOutputStacksTracks | src/lapsim/normalisation/transforms/sampling.py:33-52 | on well-shaped data, output `i` is every track's targets stacked in track order, one row per normal |
| Desampling.ListIndex | src/lapsim/normalisation/transforms/window/base.py:34 | Python list indexing: an index in `[-n, n)` names one list, negative ones counting from the end; any other index raises |
| Desampling.Target | src/lapsim/normalisation/transforms/window/base.py:34 | a placeable slot lands in a list that exists |
| Desampling.Gather | src/lapsim/normalisation/transforms/window/base.py:29-35 | gathering succeeds iff every placement lands in a list and reads a cell that exists; list `j` then holds the values aimed at it, in the order they were appended |
| Desampling.Means | src/lapsim/normalisation/transforms/window/base.py:36 | one mean per list, missing (NaN) exactly for the empty lists |
| Desampling.Desample | src/lapsim/normalisation/transforms/window/base.py:29-36 | succeeds iff every placement is placeable, with one value per list |
| Desampling.CollectAppend | src/lapsim/normalisation/transforms/window/base.py:32-34 | appending in two runs collects the concatenation of what each run collects |
| Desampling.CollectUniform | src/lapsim/normalisation/transforms/window/base.py:32-34 | when every value aimed at a list is the same `v`, the list holds only `v` |
| Desampling.CollectHas | src/lapsim/normalisation/transforms/window/base.py:32-34 | a list some placement aims at is not empty |
| Desampling.UniformMean | src/lapsim/normalisation/transforms/window/base.py:36 | the mean of a non-empty list of equal values is that value |
| Desampling.DesampleRecovers | src/lapsim/normalisation/transforms/window/base.py:29-36 | if every list is hit and every value aimed at list `j` equals `a[j]`, desampling gives back `a` exactly |
| Desampling.GridRow | src/lapsim/normalisation/transforms/window/base.py:33-34 | one placement per column of an output row |
| Desampling.Widths | src/lapsim/normalisation/transforms/window/base.py:32-33 | the width of each output row |
| Desampling.GridMember | src/lapsim/normalisation/transforms/window/base.py:32-34 | every placement of the loop reads an existing cell and aims at `(stride * row + col + c) mod m` |
| Desampling.GridHas | src/lapsim/normalisation/transforms/window/base.py:32-34 | the loop visits every cell of the output |
| Desampling.GridPlaceable | src/lapsim/normalisation/transforms/window/base.py:29-35 | when the modulus is at most the number of lists, every placement of the loop is placeable |
| Desampling.GridHits | src/lapsim/normalisation/transforms/window/base.py:32-34 | a list that some cell's wrapped index names is hit |
| Desampling.ModShift | src/lapsim/normalisation/transforms/window/base.py:34 | shifting by `d` modulo `n` hits `j` exactly from `(j - d) mod n` |
| Desampling.ColumnHitsOnce | src/lapsim/normalisation/transforms/window/base.py:32-34 | over a full cycle of rows, a column aims at each list once, or not at all beyond `m` rows |
| Desampling.TotalHitsStep | src/lapsim/normalisation/transforms/window/base.py:33 | adding a column adds that column's hits |
| Desampling.TotalHitsNone | src/lapsim/normalisation/transforms/window/base.py:33 | no columns hit nothing |
| Desampling.TotalHitsIsWidth | src/lapsim/normalisation/transforms/window/base.py:32-34 | over a full cycle of rows every list is hit once per column |
| Desampling.RowCollectCount | src/lapsim/normalisation/transforms/window/base.py:33-34 | the values one row collects into a list are as many as the row's hits on it |
| Desampling.GridCollectCount | src/lapsim/normalisation/transforms/window/base.py:32-34 | the values the whole loop collects into a list are as many as its hits |
| Desampling.EveryListFilled | src/lapsim/normalisation/transforms/window/base.py:29-36 | with one output row per normal, every list receives exactly one value per window column, so no mean is NaN |
| Windows.TrackLen | src/lapsim/normalisation/transforms/window/window.py:62 | a track's width count; missing widths raise a key error and a track index past the end raises an index error |
| Windows.InputTracks | src/lapsim/normalisation/transforms/window/window.py:65 | succeeds iff every input key is present with the track, giving that key's values for the track in input order; otherwise a key or index error for one of them |
| Windows.Window | src/lapsim/normalisation/transforms/window/window.py:69-79 | the window of line `ni` has one row per input and `2f + 1` columns, and its middle column is line `ni` itself |
| Windows.WindowTrack | src/lapsim/normalisation/transforms/window/window.py:59-81 | one window per line; an unset foresight raises; otherwise success iff the foresight is non-negative and every input covers the track, each window being the wrapped window of its line |
| Windows.WindowTrackAt | src/lapsim/normalisation/transforms/window/window.py:73-77 | window entry `(k, i)` of line `ni` is input `k` at line `(ni - f + i) mod n`, so consecutive windows shift by one column |
| Windows.FlatWindowTrack | src/lapsim/normalisation/transforms/window/flat_window.py:56-75 | an unset foresight raises; otherwise one row of `(2f + 1)` times the input count entries per line |
| Windows.FlatRow | src/lapsim/normalisation/transforms/window/flat_window.py:67-73 | a flat row has one entry per input and window column |
| Windows.FlatIsFlattenedWindow | src/lapsim/normalisation/transforms/window/flat_window.py:56-75 | each flat-window row is the corresponding window flattened input by input |
| Windows.FlatRowIsFlattenedWindow | src/lapsim/normalisation/transforms/window/flat_window.py:67-73 | a single flat row is its window flattened input by input |
| Windows.DivMod | src/lapsim/normalisation/transforms/window/flat_window.py:73 | a flat column splits uniquely into an input and a window column |
| Windows.BaseDetransform | src/lapsim/normalisation/transforms/window/base.py:17-38 | an empty output leaves every line missing (NaN); an unset sampling raises; otherwise one value per line of the track |
| Windows.BaseDetransformAll | src/lapsim/normalisation/transforms/window/base.py:29-38 | detransforming succeeds iff each output does, one result per output in order |
| Windows.WindowRoundTrip | test/test_lapsim/test_normalisation/test_transforms/test_window_transform.py:52-63 | detransforming the sampled targets of a track gives the track back exactly |
| Windows.BaseDetransformIsGrid | src/lapsim/normalisation/transforms/window/base.py:29-36 | the detransform appends each output cell to the list `(row + s) mod rows`, in loop order, and takes the means |
| Windows.WindowPlacements | src/lapsim/normalisation/transforms/window/base.py:32-34 | every cell of a sampled target lands in the list of the line it was sampled from |
| Windows.WindowHits | src/lapsim/normalisation/transforms/window/base.py:32-34 | every line's list receives some value |
| Windows.WindowTracks | src/lapsim/normalisation/transforms/window/window.py:44 | every track's windows in track order; several tracks with fewer than one core raise |
| Windows.WindowTransform | src/lapsim/normalisation/transforms/window/window.py:19-56 | missing angles, an unset or negative foresight and missing vehicles raise in that order; a success has one window and one vehicle row per normal, and its targets are the unlagged, unpatched sampled outputs |
| Windows.WindowTransformCopies | src/lapsim/normalisation/transforms/window/window.py:41-54 | the input and vehicle arrays are the track windows copied row by row into a ones-initialised vehicle array |
| Windows.WindowTransformRows | src/lapsim/normalisation/transforms/window/window.py:46-54 | row `offset(i) + ni` holds line `ni` of track `i` and that track's vehicle |
| Windows.FlatWindowTracks | src/lapsim/normalisation/transforms/window/flat_window.py:42 | every track's flat rows in track order; several tracks with fewer than one core raise |
| Windows.FlatWindowTransform | src/lapsim/normalisation/transforms/window/flat_window.py:19-53 | missing angles, an unset or negative window and missing vehicles raise in that order; a success has one row and one vehicle row per normal, and its targets are the unlagged, unpatched sampled outputs |
| Windows.FlatWindowTransformCopies | src/lapsim/normalisation/transforms/window/flat_window.py:44-51 | the input and vehicle arrays are the tracks' flat rows copied slice by slice |
| Windows.FlatWindowTransformRows | src/lapsim/normalisation/transforms/window/flat_window.py:44-51 | row `offset(i) + ni` holds line `ni` of track `i` and that track's vehicle |
| Assembly.Layout | src/lapsim/normalisation/transforms/window/window.py:35-54 | the preallocated array has exactly the requested number of rows |
| Assembly.FlattenAt | src/lapsim/normalisation/transforms/window/window.py:46-54 | entry `ti` of block `i` sits at position `offset(i) + ti` of the concatenated blocks |
| Assembly.LayoutAt | src/lapsim/normalisation/transforms/window/window.py:46-54 | a row inside the array holds the block entry copied there |
| Assembly.LayoutBlank | src/lapsim/normalisation/transforms/window/window.py:35-41 | rows past the copied blocks keep the array's initial value |
| Assembly.Broadcast | src/lapsim/normalisation/transforms/window/window.py:50 | a vehicle of the right length is copied; a one-entry vehicle fills the row |
| Assembly.VehicleBlocks | src/lapsim/normalisation/transforms/window/window.py:50 | each track contributes one vehicle row per normal |
| Assembly.SliceRows | src/lapsim/normalisation/transforms/window/flat_window.py:48 | a slice assignment writes every row when it fits and none past the end |
| Assembly.StartIsOffset | src/lapsim/normalisation/transforms/window/window.py:46-54 | the running global index before track `i` is the offset of block `i` |
| Assembly.CopyTrack | src/lapsim/normalisation/transforms/window/window.py:46-54 | a track copies iff its vehicle broadcasts, its rows fit and the method's own shape checks hold; a row-by-row overflow raises an index error, every other failure a value error |
| Assembly.CopyChecks | src/lapsim/normalisation/transforms/window/window.py:46-54 | one copy check per track, in track order |
| Assembly.Lengths | src/lapsim/normalisation/transforms/window/window.py:48 | the length of each block |
| Assembly.CopyTracks | src/lapsim/normalisation/transforms/window/window.py:46-54 | the copy loop succeeds iff every track copies, giving arrays of the requested size; otherwise the first failing track's error |
| Assembly.CopyTracksLayout | src/lapsim/normalisation/transforms/window/window.py:46-54 | a successful copy lays the blocks and the broadcast vehicles end to end from the top of the preallocated arrays |
| Assembly.LayoutStartAt | src/lapsim/normalisation/transforms/window/window.py:46-54 | row `start(i) + ti` of the laid-out array is entry `ti` of block `i` |
| Assembly.CopiedRowInside | src/lapsim/normalisation/transforms/window/window.py:46-54 | a copied row lies inside the array, except a one-row slice written past the end |
| Assembly.CopyTracksRows | src/lapsim/normalisation/transforms/window/window.py:46-54 | after a successful copy, row `start(i) + ti` holds row `ti` of block `i` and track `i`'s vehicle |
| Assembly.CopiedAtTrackRow | src/lapsim/normalisation/transforms/window/window.py:46-54 | the same row is found at the number of normals of the tracks before `i`, plus `ti` |
| Assembly.PyCeilDiv | src/lapsim/normalisation/transforms/bidirectional/bidirectional.py:55 | `math.ceil(a / b)`: zero divides by zero; a positive divisor gives the ceiling; a negative one gives a non-positive quotient |
| Assembly.RightAlign | src/lapsim/normalisation/transforms/bidirectional/bidirectional.py:127 | `x[..., -len(block):] = block` leaves `-1` rows in front of a block that fits and keeps only the last rows of one that does not |
| Assembly.PatchCount | src/lapsim/normalisation/transforms/lagging/lagging.py:119 | patching a window gives `ceil(n / p)` rows of `p` times the columns |
| Assembly.AlignedLines | src/lapsim/normalisation/transforms/bidirectional/bidirectional.py:70 | each line's block is right-aligned into the array's rows |
| Assembly.AlignedTracks | src/lapsim/normalisation/transforms/bidirectional/bidirectional.py:65-73 | each track's lines are right-aligned |
| Assembly.TracksFit | src/lapsim/normalisation/transforms/bidirectional/bidirectional.py:70 | a track's block fits iff its patch rows equal the target rows or broadcast from one |
| Assembly.AlignedRowAt | src/lapsim/normalisation/transforms/bidirectional/bidirectional.py:65-73 | after the copy, the row of line `ni` of track `i` is that line's right-aligned block with the track's vehicle |
| Bidirectional.Reversed | src/lapsim/normalisation/transforms/bidirectional/bidirectional.py:116 | `track[::-1]`: entry `i` is entry `n - 1 - i` of the track |
| Bidirectional.BidirectionalWindow | src/lapsim/normalisation/transforms/bidirectional/bidirectional.py:118-124 | row `k` of line `ni`'s window is the track `k + 1` lines ahead side by side with the track `k + 1` lines behind, both wrapping |
| Bidirectional.ReversedIndex | src/lapsim/normalisation/transforms/bidirectional/bidirectional.py:116-121 | rolling the reversed track reads the track at the mirrored wrapped index |
| Bidirectional.WindowEndsOnLine | src/lapsim/normalisation/transforms/bidirectional/bidirectional.py:37-38 | the last row of every window is the current line twice, so both halves end at the present |
| Bidirectional.WindowHalvesMirror | src/lapsim/normalisation/transforms/bidirectional/bidirectional.py:37-38 | the forward half read from the front is the backward half read from the back |
| Bidirectional.BidirectionalTrack | src/lapsim/normalisation/transforms/bidirectional/bidirectional.py:103-129 | a missing track raises, a patch size of 0 divides by zero; a success has one line per normal, each `ceil(n / p)` patch rows of `2 p` times the input count |
| Bidirectional.BidirectionalLines | src/lapsim/normalisation/transforms/bidirectional/bidirectional.py:118-127 | one encoded line per normal |
| Bidirectional.BidirectionalLine | src/lapsim/normalisation/transforms/bidirectional/bidirectional.py:108-127 | each line has the patched row count and width |
| Bidirectional.WindowShape | src/lapsim/normalisation/transforms/bidirectional/bidirectional.py:124 | each window row has twice the input columns |
| Bidirectional.BidirectionalLineFlattens | src/lapsim/normalisation/transforms/bidirectional/bidirectional.py:124-127 | a line flattens to the patch padding followed by its flattened window |
| Bidirectional.BidirectionalTrackLines | src/lapsim/normalisation/transforms/bidirectional/bidirectional.py:115-127 | each encoded line is the bidirectional line of the combined input track |
| Bidirectional.BidirectionalTracks | src/lapsim/normalisation/transforms/bidirectional/bidirectional.py:63 | every track's encoding in track order; several tracks with fewer than one core raise |
| Bidirectional.BidirectionalTransform | src/lapsim/normalisation/transforms/bidirectional/bidirectional.py:32-84 | missing widths raise, no tracks raise, a zero patch size divides by zero; a success has one input and one vehicle row per normal and its targets are the sampled outputs patched by `p` |
| Bidirectional.BidirectionalTransformCopies | src/lapsim/normalisation/transforms/bidirectional/bidirectional.py:53-73 | the arrays are the tracks' right-aligned encodings copied as slices into a `-1` array of `ceil(longest / p)` rows |
| Bidirectional.BidirectionalTransformRows | src/lapsim/normalisation/transforms/bidirectional/bidirectional.py:65-73 | the row of line `ni` of track `i` is that line right-aligned, with the track's vehicle |
| Bidirectional.CopiedTrackRows | src/lapsim/normalisation/transforms/bidirectional/bidirectional.py:65-73 | the same row fact stated for the copy loop directly |
| Bidirectional.TracksFollowWidths | src/lapsim/normalisation/transforms/bidirectional/bidirectional.py:66-67 | each track's encoding has one line per width |
| Bidirectional.DetransformBins | src/lapsim/normalisation/transforms/bidirectional/bidirectional.py:87-96 | an empty output leaves every list empty; an unset sampling raises; a zero track length divides by zero; otherwise cell `(row, i)` is appended to list `(row + i - p(s + 1) + 1) mod n` |
| Bidirectional.BidirectionalDetransform | src/lapsim/normalisation/transforms/bidirectional/bidirectional.py:87-100 | one mean per output row; an empty output gives all NaN; sampling and track-length errors as above |
| Bidirectional.BidirectionalDetransformAll | src/lapsim/normalisation/transforms/bidirectional/bidirectional.py:87-100 | detransforming succeeds iff each output does, one result per output |
| Bidirectional.BidirectionalRoundTrip | test/test_lapsim/test_normalisation/test_transforms/test_bidirectional_transform.py:110-120 | detransforming the patched, sampled targets of a track gives the track back exactly |
| Bidirectional.PatchedTargetsNonEmpty | src/lapsim/normalisation/transforms/bidirectional/bidirectional.py:90-96 | the sampled targets of a non-empty track are not empty |
| Bidirectional.PatchedPlacements | src/lapsim/normalisation/transforms/bidirectional/bidirectional.py:92-96 | every target cell lands in the list of the line it was sampled from |
| Bidirectional.PatchedHits | src/lapsim/normalisation/transforms/bidirectional/bidirectional.py:92-96 | every line's list receives some value |
| Lagging.RollsBack | src/lapsim/normalisation/transforms/lagging/lagging.py:17-19 | `s * 2` further rolls after the first, each the same length as the input |
| Lagging.RollsBackAt | src/lapsim/normalisation/transforms/lagging/lagging.py:17-19 | the `j`-th roll is the first one rolled back by `j` rows |
| Lagging.SamplingBlocks | src/lapsim/normalisation/transforms/lagging/lagging.py:18 | `2s + 1` blocks for a non-negative sampling, and just the first roll otherwise |
| Lagging.SideBySide | src/lapsim/normalisation/transforms/lagging/lagging.py:20 | no arrays give an empty row and one array gives its own row |
| Lagging.SideBySideAt | src/lapsim/normalisation/transforms/lagging/lagging.py:20 | column `j * cols + c` of a concatenated row is column `c` of block `j` |
| Lagging.ApplySampling | src/lapsim/normalisation/transforms/lagging/lagging.py:16-20 | one output row per input row |
| Lagging.ApplySamplingAt | src/lapsim/normalisation/transforms/lagging/lagging.py:16-20 | entry `(row, j * cols + c)` is input row `(row - s + j) mod n`, column `c`: a window of `2s + 1` rows centred on the row |
| Lagging.RollsBackMatrix | src/lapsim/normalisation/transforms/lagging/lagging.py:17-19 | rolling by `s` and then back `j` times is one roll by `s - j` |
| Lagging.CeilMono | src/lapsim/normalisation/transforms/lagging/lagging.py:47 | the patched length never shrinks as the track grows |
| Lagging.CeilDouble | src/lapsim/normalisation/transforms/lagging/lagging.py:101 | a subtrack of at most twice the track patches into at most twice the rows |
| Lagging.PatchOfLine | src/lapsim/normalisation/transforms/lagging/lagging.py:124 | the patch of line `ni` is within the patched track |
| Lagging.Subtrack | src/lapsim/normalisation/transforms/lagging/lagging.py:118 | the track followed by its first `ni + 1` lines, so entry `k` is line `k mod n` |
| Lagging.SubtrackEndsOnLine | src/lapsim/normalisation/transforms/lagging/lagging.py:118 | the subtrack ends on line `ni`, the line being predicted |
| Lagging.TimeVector | src/lapsim/normalisation/transforms/lagging/lagging.py:112 | `k / max(1, ps - 1)` for each patch `k` |
| Lagging.TimeVectorInUnit | src/lapsim/normalisation/transforms/lagging/lagging.py:112 | the time vector runs from 0 to 1 over the patches |
| Lagging.TimeColumn | src/lapsim/normalisation/transforms/lagging/lagging.py:122-125 | the time column holds the time vector at the front and its first `e` entries at the end, zero between |
| Lagging.LagLine | src/lapsim/normalisation/transforms/lagging/lagging.py:117-128 | one line has the array's rows and the input width times `p`, plus one time column when asked |
| Lagging.TimedRows | src/lapsim/normalisation/transforms/lagging/lagging.py:126 | each patched row gains its time entry as a last column |
| Lagging.LagLines | src/lapsim/normalisation/transforms/lagging/lagging.py:117-128 | every line encodes or the first failure is reported, one line per normal |
| Lagging.SubtrackPatches | src/lapsim/normalisation/transforms/lagging/lagging.py:101-119 | the patched subtrack has between `ceil(n / p)` and twice that rows |
| Lagging.LagLineFits | src/lapsim/normalisation/transforms/lagging/lagging.py:117-128 | every line of a track fits the `2 ceil(n / p)` rows allotted to it |
| Lagging.SubtrackPatched | src/lapsim/normalisation/transforms/lagging/lagging.py:118-119 | patching a subtrack succeeds with between one and two track-lengths of patches |
| Lagging.LagLineOk | src/lapsim/normalisation/transforms/lagging/lagging.py:117-128 | a line succeeds when its patches fit and its time column fits |
| Lagging.TimedFits | src/lapsim/normalisation/transforms/lagging/lagging.py:122-126 | the time column fits whenever the patches cover the time vector |
| Lagging.LagLinePadded | src/lapsim/normalisation/transforms/lagging/lagging.py:108-128 | without a time column, a line is `-1` rows followed by the patched subtrack |
| Lagging.LagTrack | src/lapsim/normalisation/transforms/lagging/lagging.py:97-130 | a missing track raises, a zero patch size divides by zero; a success has one line per normal, each `2 ceil(n / p)` rows wide by the input width times `p` (plus the time column) |
| Lagging.LagTrackSucceeds | src/lapsim/normalisation/transforms/lagging/lagging.py:97-130 | a track whose inputs all have its length always encodes |
| Lagging.LagTracks | src/lapsim/normalisation/transforms/lagging/lagging.py:55 | every track's encoding in order; several tracks with fewer than one core raise |
| Lagging.LagTransform | src/lapsim/normalisation/transforms/lagging/lagging.py:25-78 | missing widths raise, no tracks raise, a zero patch size divides by zero; a success has one input and one vehicle row per normal and its targets are sampled with the lag and patch size |
| Lagging.LagTransformCopies | src/lapsim/normalisation/transforms/lagging/lagging.py:44-65 | the arrays are the tracks' right-aligned encodings copied as slices into a `-1` array of `2 ceil(longest / p)` rows |
| Lagging.LagTransformRows | src/lapsim/normalisation/transforms/lagging/lagging.py:57-65 | the row of line `ni` of track `i` is that line right-aligned, with the track's vehicle |
| Lagging.LagTracksFollowWidths | src/lapsim/normalisation/transforms/lagging/lagging.py:58-60 | each track's encoding has one line per width |
| Lagging.LagDetransform | src/lapsim/normalisation/transforms/lagging/lagging.py:80-94 | no output rows raise; an unset sampling raises; one value per output row |
| Lagging.LagDetransformAll | src/lapsim/normalisation/transforms/lagging/lagging.py:80-94 | detransforming succeeds iff each output does, one result per output |
| Lagging.LagRoundTrip | src/lapsim/normalisation/transforms/lagging/lagging.py:80-94 | detransforming the lagged, patched, sampled targets of a track gives the track back exactly: the roll by `-lag` undoes the lag |
| Lagging.LagRecovers | src/lapsim/normalisation/transforms/lagging/lagging.py:83-91 | any output whose every cell reads the lagged track at its wrapped index detransforms to the track |
| Lagging.LagDetransformOfBins | src/lapsim/normalisation/transforms/lagging/lagging.py:90-91 | with lists of one length, the detransform is the list means rolled back by the lag |
| Lagging.Unroll | src/lapsim/normalisation/transforms/lagging/lagging.py:91 | rolling by `-lag` undoes a roll by `lag` |
| Lagging.UnrollAt | src/lapsim/normalisation/transforms/lagging/lagging.py:91 | the lagged track holds line `j` at `(j + lag) mod n` |
| Lagging.LagBins | src/lapsim/normalisation/transforms/lagging/lagging.py:83-90 | when every cell reads the lagged track, every list is full and its mean is the lagged value |
| Lagging.LagGathered | src/lapsim/normalisation/transforms/lagging/lagging.py:83-88 | the append loop is the generic gather over the output grid, and its lists are of one length |
| Lagging.BinsGathered | src/lapsim/normalisation/transforms/lagging/lagging.py:83-88 | the append loop is the generic gather with offset `1 - p(s + 1)` |
| Lagging.LagMeans | src/lapsim/normalisation/transforms/lagging/lagging.py:90 | when each cell holds the value of the list it lands in, each mean is that value |
| Lagging.FilledBinsRectangular | src/lapsim/normalisation/transforms/lagging/lagging.py:90 | a rectangular output fills every list equally, so `np.mean(axis=1)` is defined |
| Lagging.LagPlacements | src/lapsim/normalisation/transforms/lagging/lagging.py:84-88 | every sampled target cell holds the lagged track at the index it is appended to |
| Lagging.LagHits | src/lapsim/normalisation/transforms/lagging/lagging.py:84-88 | every list receives some value |
| StatefulLagging.StatefulTimeColumn | src/lapsim/normalisation/transforms/lagging/stateful_lagging.py:62-64 | the time vector is written at the front and again at the end of a zero column; an empty vector over a non-empty track raises |
| StatefulLagging.StatefulInput | src/lapsim/normalisation/transforms/lagging/stateful_lagging.py:56-64 | the input is the track fed twice, patched, with the time column appended to each row when asked |
| StatefulLagging.StatefulInputShape | src/lapsim/normalisation/transforms/lagging/stateful_lagging.py:53-64 | the input has `ceil(2n / p)` rows of the patched width (plus the time column, which runs 0 to 1 at both ends) |
| StatefulLagging.TimeColumnAt | src/lapsim/normalisation/transforms/lagging/stateful_lagging.py:62-64 | the time column at row `k`: the time vector's entry near either end, 0 in between |
| StatefulLagging.AssignRow | src/lapsim/normalisation/transforms/lagging/stateful_lagging.py:85 | a slice that fits copies the looped outputs from the patch start |
| StatefulLagging.PatchStart | src/lapsim/normalisation/transforms/lagging/stateful_lagging.py:80-81 | the patch start is a line of the track |
| StatefulLagging.TargetRows | src/lapsim/normalisation/transforms/lagging/stateful_lagging.py:75-85 | one target row per patch, each `p(2s + 1)` wide; an empty track divides by zero |
| StatefulLagging.RolledOutput | src/lapsim/normalisation/transforms/lagging/stateful_lagging.py:70 | an output of the track rolled by the lag; a missing output or unset lag raises |
| StatefulLagging.StatefulTargets | src/lapsim/normalisation/transforms/lagging/stateful_lagging.py:69-87 | one target matrix per output; an unset sampling raises; each matrix is the target rows of the rolled, looped output |
| StatefulLagging.StatefulTrack | src/lapsim/normalisation/transforms/lagging/stateful_lagging.py:51-87 | a missing track raises, a zero patch size divides by zero; a success has one target matrix per output and the track's own vehicle |
| StatefulLagging.StatefulTrackSucceeds | src/lapsim/normalisation/transforms/lagging/stateful_lagging.py:51-87 | a well-formed track always encodes, with `ceil(2n / p)` input rows and `ceil(n / p)` target rows per output |
| StatefulLagging.StatefulTargetsSucceed | src/lapsim/normalisation/transforms/lagging/stateful_lagging.py:69-87 | targets of well-formed outputs always compute, with `ceil(n / p)` rows of `p(2s + 1)` entries |
| StatefulLagging.TargetRowsSucceed | src/lapsim/normalisation/transforms/lagging/stateful_lagging.py:75-85 | the patch slices always fit the looped output |
| StatefulLagging.StatefulTransform | src/lapsim/normalisation/transforms/lagging/stateful_lagging.py:25-89 | missing vehicles raise; a success has one input, one target list and the vehicle for each track, each track's entry being its own encoding |
| StatefulLagging.StatefulTransformSucceeds | src/lapsim/normalisation/transforms/lagging/stateful_lagging.py:25-89 | data whose tracks are all well-formed always transforms |
| StatefulLagging.StatefulTrackRoundTrip | src/lapsim/normalisation/transforms/lagging/stateful_lagging.py:25-107 | detransforming a track's targets gives back that track's output exactly |
| StatefulLagging.StatefulBins | src/lapsim/normalisation/transforms/lagging/stateful_lagging.py:93-101 | one list per line; an empty output gives empty lists; an unset sampling, a zero track length or a negative one raise |
| StatefulLagging.StatefulDetransform | src/lapsim/normalisation/transforms/lagging/stateful_lagging.py:91-107 | one value per line of the track; the same errors; an empty output gives all NaN |
| StatefulLagging.RollNone | src/lapsim/normalisation/transforms/lagging/stateful_lagging.py:104 | rolling all-NaN values leaves them all NaN |
| StatefulLagging.NoListToAppend | src/lapsim/normalisation/transforms/lagging/stateful_lagging.py:94-101 | with a negative track length there is no list to append to, so any output raises an index error |
| StatefulLagging.StatefulDetransformAll | src/lapsim/normalisation/transforms/lagging/stateful_lagging.py:91-107 | detransforming succeeds iff each output does, one result per output |
| StatefulLagging.TargetRowsRead | src/lapsim/normalisation/transforms/lagging/stateful_lagging.py:79-85 | entry `k` of target row `i` is the track at `(N - P(1 + L + s) - lag + k) mod N` |
| StatefulLagging.CellRead | src/lapsim/normalisation/transforms/lagging/stateful_lagging.py:79-85 | a single target cell reads the lag-rolled track at the detransform's index |
| StatefulLagging.StatefulRoundTrip | src/lapsim/normalisation/transforms/lagging/stateful_lagging.py:75-107 | detransforming the target rows of a track, with the same sampling, patch size and lag, gives the track back exactly |
| StatefulLagging.StatefulRecovers | src/lapsim/normalisation/transforms/lagging/stateful_lagging.py:95-104 | any output whose every cell reads the rolled track at the detransform's index recovers the track |
| StatefulLagging.StatefulDetransformOfGrid | src/lapsim/normalisation/transforms/lagging/stateful_lagging.py:93-104 | the detransform is the means of the gathered lists rolled back by the lag |
| StatefulLagging.StatefulBinsOfGrid | src/lapsim/normalisation/transforms/lagging/stateful_lagging.py:94-101 | the append loop is the generic gather with stride `p` and offset `N - P(L + s)` |
| StatefulLagging.StatefulHits | src/lapsim/normalisation/transforms/lagging/stateful_lagging.py:95-101 | when the patches cover the track, every line's list receives some value |
| Vehicles.SetGet | src/lapsim/vehicles/vehicle.py:140-143 | setting a field changes that field and no other |
| Vehicles.Default | src/lapsim/vehicles/vehicle.py:44-138 | a vehicle built with no arguments has its first and last fields at 0 |
| Vehicles.DefaultIsZero | src/lapsim/vehicles/vehicle.py:44-138 | every field of a default vehicle is 0 |
| Vehicles.FieldNamed | src/lapsim/vehicles/vehicle.py:141 | a name found is that field's attribute name; a name not found belongs to no field |
| Vehicles.FieldOrderComplete | src/lapsim/vehicles/vehicle.py:145-165 | every field appears in the array order |
| Vehicles.SetItem | src/lapsim/vehicles/vehicle.py:140-143 | a key that names no field raises, naming the key; a field name sets that field |
| Vehicles.SetItemOnlyThatField | src/lapsim/vehicles/vehicle.py:140-143 | `vehicle[name] = x` succeeds for every field name, sets that field to `x` and leaves every other field |
| Vehicles.NameInjective | src/lapsim/vehicles/vehicle.py:44-138 | distinct fields have distinct attribute names |
| Vehicles.ToArray | src/lapsim/vehicles/vehicle.py:145-165 | eighteen numbers, entry `i` being the `i`-th field of the fixed order |
| Vehicles.ToArrayInjective | src/lapsim/vehicles/vehicle.py:145-165 | `to_array` loses nothing: equal arrays come from equal vehicles |
| Vehicles.Slot | src/lapsim/vehicles/vehicle.py:145-165 | each field's position in the array |
| Vehicles.SetItemArray | src/lapsim/vehicles/vehicle.py:140-165 | setting a field changes exactly its slot of the array |
| Vehicles.SlotOf | src/lapsim/vehicles/vehicle.py:145-165 | the field at position `j` sits in slot `j` |
| Eval.Present | src/lapsim/eval/evaluation.py:8 | keeping the non-null entries never lengthens the list |
| Eval.PresentMember | src/lapsim/eval/evaluation.py:8 | every kept entry was present in the input and every present entry is kept |
| Eval.PresentEmpty | src/lapsim/eval/evaluation.py:8-10 | nothing is kept exactly when every entry is null |
| Eval.PresentAppend | src/lapsim/eval/evaluation.py:8 | filtering a concatenation filters each part |
| Eval.NoneMean | src/lapsim/eval/evaluation.py:7-11 | `_mean` is None exactly when every entry is None |
| Eval.NoneMax | src/lapsim/eval/evaluation.py:14-18 | `_max` is None exactly when every entry is None, otherwise a present entry at least every present entry |
| Eval.NoneIgnored | src/lapsim/eval/evaluation.py:7-18 | a None entry changes neither `_mean` nor `_max` |
| Eval.NoneMeanConstant | src/lapsim/eval/evaluation.py:7-11 | the `_mean` of entries that are all `c` (with at least one present) is `c` |
| Eval.SingleAggregates | src/lapsim/eval/evaluation.py:7-18 | `_mean` and `_max` of one entry give that entry back |
| Eval.PyMax | src/lapsim/eval/evaluation.py:62 | Python's `max`: an empty list raises ValueError, one item is returned as is, two or more fail with TypeError iff one is None and otherwise give a greatest item |
| Eval.PyMin | src/lapsim/eval/__init__.py:26 | Python's `min`: the mirror of `max`, giving a least item |
| Eval.AbsAll | src/lapsim/eval/evaluation.py:43 | `np.abs` element-wise |
| Eval.SumAbsBound | src/lapsim/eval/evaluation.py:44-45 | the absolute value of a sum is at most the sum of absolute values |
| Eval.MeanAbsBound | src/lapsim/eval/evaluation.py:44-45 | `abs(mean)` is at most `mean(abs)` |
| Eval.SortAsc | src/lapsim/eval/evaluation.py:47 | `sorted` returns an ascending permutation of its input |
| Eval.Ci95Index | src/lapsim/eval/evaluation.py:47 | `int(len * 0.95)` is a valid index of a non-empty list |
| Eval.Ci95 | src/lapsim/eval/evaluation.py:47 | the 95th-percentile entry is an entry of the list |
| Eval.NumpyTake | src/lapsim/eval/evaluation.py:53-55 | fancy indexing keeps one entry of the array per index, negative indexes counting from the end |
| Eval.ApexFields | src/lapsim/eval/evaluation.py:53-55 | the three apex fields are None exactly when there are no apexes, and the apex maximum bounds every apex delta |
| Eval.ErrorsFrom | src/lapsim/eval/evaluation.py:39-56 | `from_errors` raises ValueError on empty deltas or percentages, IndexError on an apex index out of range, and otherwise bounds every absolute delta by `max` and every percentage by `percentage_max` |
| Eval.ErrorsFromOrdered | src/lapsim/eval/evaluation.py:43-55 | the ci95 value never exceeds the maximum, the apex maximum never exceeds the overall maximum, and the absolute mean bounds the mean |
| Eval.ErrorsFromAttained | src/lapsim/eval/evaluation.py:43-50 | both maxima are attained by an entry |
| Eval.LapTimeFromValues | src/lapsim/eval/evaluation.py:86-99 | `from_values` divides by zero exactly on a zero true lap time; otherwise `error = truth - predicted`, `abs_error` is zero iff the prediction is exact, `percentage = abs_error / truth * 100`, `error_per_minute = percentage * 0.6` |
| Eval.LapTimeColumn | src/lapsim/eval/evaluation.py:105-110 | the column of one field over the records, in order |
| Eval.CombineLapTimes | src/lapsim/eval/evaluation.py:103-111 | combining no records leaves every field None |
| Eval.CombineLapTimesFieldwise | src/lapsim/eval/evaluation.py:103-111 | every combined lap-time field is the None-skipping mean of that field, None exactly when all are None |
| Eval.ErrorColumn | src/lapsim/eval/evaluation.py:62-72 | the column of one field over the records, in order |
| Eval.CombineErrors | src/lapsim/eval/evaluation.py:60-73 | combining nothing raises ValueError; a successful combine of two or more has a `max` at least every input's |
| Eval.CombineErrorsFieldwise | src/lapsim/eval/evaluation.py:63-71 | every averaged field of the combine is the None-skipping mean of that field |
| Eval.CombineApexMax | src/lapsim/eval/evaluation.py:72 | the combined `apex_max` is None iff all are None and otherwise bounds every present one |
| Eval.CombineEvaluations | src/lapsim/eval/evaluation.py:144-150 | combining nothing raises ValueError; a combined evaluation has no apexes |
| Eval.SingleColumn | src/lapsim/eval/evaluation.py:7-18 | the column of one record is that record's field |
| Eval.CombineOneError | src/lapsim/eval/evaluation.py:60-73 | combining one error record gives it back |
| Eval.SingleRecord | src/lapsim/eval/evaluation.py:60-73 | the combined record of one input with its own maxima is that input |
| Eval.CombineOneLapTime | src/lapsim/eval/evaluation.py:103-111 | combining one lap time gives it back |
| Eval.CombineOne | src/lapsim/eval/evaluation.py:144-150 | combining one evaluation gives it back with its apexes cleared |
| Eval.EvaluationFrom | src/lapsim/eval/evaluation.py:124-140 | a zero true lap time divides by zero; a result keeps the apexes and both lap times |
| Eval.OptimalPoint | src/lapsim/eval/__init__.py:176-177 | the point at position 0 is the left end, at 1 the right end, and in between lies inside the segment's bounding box |
| Eval.OptimalPositions | src/lapsim/eval/__init__.py:162-180 | one point per line, failing with TypeError exactly when a line has no position |
| Eval.Prev | src/lapsim/eval/__init__.py:113-115 | index `i - 1` wraps to the last line at `i = 0` |
| Eval.StepTime | src/lapsim/eval/__init__.py:113-117 | one SUVAT step fails with TypeError iff a velocity is missing, otherwise with ZeroDivision iff the two speeds cancel; with positive speeds the step time is non-negative |
| Eval.TimeFrom | src/lapsim/eval/__init__.py:111-121 | the running sum fails exactly when some step fails, with that step's error; with positive speeds the total is non-negative |
| Eval.EstimateLapTime | src/lapsim/eval/__init__.py:97-121 | the lap-time estimate fails with TypeError on a missing position, fails exactly when a position is missing or a step fails, and with all speeds positive is a non-negative time |
| Eval.LapTimeOfPath | src/lapsim/eval/__init__.py:109-121 | the estimate is the step sum along the optimal line |
| Eval.TwoLineLapTime | src/lapsim/eval/__init__.py:111-121 | a two-line track takes `4 s / (u + v)`: both wrapped steps cover the same distance |
| Eval.Velocities | src/lapsim/eval/__init__.py:25 | the velocity column of a track |
| Eval.LineErrorAt | src/lapsim/eval/__init__.py:34-46 | one line's errors: IndexError past the prediction's end, TypeError on a missing velocity or range, ZeroDivision on a zero range; otherwise the velocity delta, its percentage of the range, a position delta of the optimal-point distance and the position percentage |
| Eval.LineErrorBounds | src/lapsim/eval/__init__.py:38-46 | with both velocities inside the range the velocity percentage lies in 0..100, and the position delta is negative only when the prediction lies left of the truth |
| Eval.LinesFrom | src/lapsim/eval/__init__.py:34-46 | the loop succeeds exactly when every line does, reporting the first failing line's error, with one entry per line |
| Eval.PositionDeltas | src/lapsim/eval/__init__.py:44 | the position deltas collected in line order |
| Eval.PositionPercentages | src/lapsim/eval/__init__.py:46 | the position percentages collected in line order |
| Eval.VelocityDeltas | src/lapsim/eval/__init__.py:37 | the velocity deltas collected in line order |
| Eval.VelocityPercentages | src/lapsim/eval/__init__.py:38 | the velocity percentages collected in line order |
| Eval.PositionsPresent | src/lapsim/eval/__init__.py:162-180 | a successful optimal line means every line has a position |
| Eval.VelocityRange | src/lapsim/eval/__init__.py:25-26 | the range is Python's `min` and `max` over both tracks' velocities, failing with the first one's error |
| Eval.VelocityRangeBounds | src/lapsim/eval/__init__.py:25-26 | every velocity of either track lies inside the range |
| Eval.LineErrors | src/lapsim/eval/__init__.py:28-46 | a successful loop has both optimal lines, one entry per true line, and a prediction at least as long; a missing true position is a TypeError |
| Eval.Evaluate | src/lapsim/eval/__init__.py:15-58 | a successful evaluation carries the true track's apexes and both estimated lap times |
| Eval.LineErrorsAt | src/lapsim/eval/__init__.py:34-46 | entry `k` of the loop is line `k`'s error |
| Eval.EvaluateParts | src/lapsim/eval/__init__.py:48-58 | the evaluation is assembled from `from_errors` on the collected position and velocity errors and `from_values` on the two lap times |
| Eval.EvaluateVelocityPercentage | src/lapsim/eval/__init__.py:25-38 | the maximum velocity percentage error lies in 0..100 |
| Eval.EvaluateSelfVelocity | src/lapsim/eval/__init__.py:15-58 | a track evaluated against itself has zero velocity errors |
| Eval.EvaluateSelfPosition | src/lapsim/eval/__init__.py:15-58 | a track evaluated against itself has zero position errors |
| Eval.EvaluateSelfLapTime | src/lapsim/eval/__init__.py:15-58 | a track evaluated against itself has zero lap-time error |
| Eval.SelfLines | src/lapsim/eval/__init__.py:34-46 | every line of a track against itself has zero errors |
| Eval.SelfVelocityErrors | src/lapsim/eval/evaluation.py:39-56 | zero velocity lines give zero maxima |
| Eval.SelfPositionErrors | src/lapsim/eval/evaluation.py:39-56 | zero position lines give zero maxima |
| Eval.SelfErrors | src/lapsim/eval/evaluation.py:39-56 | all-zero deltas and percentages give zero maxima |
| Eval.EvaluateEmptyPrediction | src/lapsim/eval/__init__.py:34-36 | an empty prediction against a non-empty truth raises IndexError |
| Apexes.CandidatesFrom | src/lapsim/eval/__init__.py:137-144 | the scan succeeds exactly when every line has a position and an angle; the candidates are near-edge, turning lines in increasing index order, with their own positions |
| Apexes.CandidatesComplete | src/lapsim/eval/__init__.py:137-144 | every near-edge, turning line becomes a candidate |
| Apexes.Following | src/lapsim/eval/__init__.py:150 | `apexes[i + 1 - len(apexes)]` is the next candidate, and the first one after the last |
| Apexes.GroupFromInvariant | src/lapsim/eval/__init__.py:146-152 | the grouping loop keeps every candidate, in order, and splits them into runs of consecutive indexes with a gap between runs |
| Apexes.GroupsAreMaximalRuns | src/lapsim/eval/__init__.py:146-152 | the groups are the maximal runs of consecutive candidate indexes and together hold exactly the candidates |
| Apexes.EdgeDistances | src/lapsim/eval/__init__.py:156 | each candidate's distance to the nearer edge of the track |
| Apexes.Pick | src/lapsim/eval/__init__.py:157 | `np.argmin` gives the first candidate with the least edge distance |
| Apexes.ApexesOf | src/lapsim/eval/__init__.py:154-157 | one apex per group |
| Apexes.FindApexes | src/lapsim/eval/__init__.py:124-159 | `find_apexes` succeeds exactly when every line has a position and an angle, and finds at most one apex per line |
| Apexes.GroupsFewer | src/lapsim/eval/__init__.py:146-152 | there are no more groups than candidates |
| Apexes.SeparatedOrdered | src/lapsim/eval/__init__.py:146-152 | every index of an earlier group lies at least two below every index of a later group |
| Apexes.RunsAreQualifyingLines | src/lapsim/eval/__init__.py:137-152 | the groups hold exactly the qualifying lines, each with its own position |
| Apexes.FindApexesRuns | src/lapsim/eval/__init__.py:124-159 | the apexes are one pick from each group of qualifying lines |
| Apexes.ApexesIncreasing | src/lapsim/eval/__init__.py:154-159 | the apexes are strictly increasing line indexes |
| Apexes.ApexesQualify | src/lapsim/eval/__init__.py:140-143 | every apex is a near-edge, turning line |
| Apexes.ApexIsClosest | src/lapsim/eval/__init__.py:155-157 | apex `a` lies in group `a`, is closest to the edge within it, and is the first such line |
| Apexes.GapIsEmpty | src/lapsim/eval/__init__.py:146-152 | the line right after a group's end is in no group |
| Apexes.ApexesSeparated | src/lapsim/eval/__init__.py:146-157 | between two consecutive apexes there is a line that does not qualify |
| TrainingLogger.HistoryWrite | src/toolkit/utils/logger/training_logger/history.py:15-29 | any method other than `train` or `val` fails the assertion; otherwise the value goes to the end of that label's list in the chosen dictionary and nothing else changes |
| TrainingLogger.HistoryKeepsOrder | src/toolkit/utils/logger/training_logger/history.py:15-29 | successive training writes to one label keep their order and touch no other label |
| TrainingLogger.Accumulators | src/toolkit/utils/logger/training_logger/__init__.py:53-54 | an empty list for every label and no other key |
| TrainingLogger.Reset | src/toolkit/utils/logger/training_logger/__init__.py:51-54 | every label's training and validation accumulators become empty; the history and best loss are kept |
| TrainingLogger.NewLogger | src/toolkit/utils/logger/training_logger/__init__.py:38-49 | a new logger has the given labels, or `Loss` when none or an empty list is given, empty accumulators and history, no best loss and no callback |
| TrainingLogger.SetCallback | src/toolkit/utils/logger/training_logger/__init__.py:113-115 | a callback is installed and the logger stays well-formed |
| TrainingLogger.LossesFor | src/toolkit/utils/logger/training_logger/__init__.py:58-59 | the losses routed to one label come from the list itself |
| TrainingLogger.AppendLosses | src/toolkit/utils/logger/training_logger/__init__.py:56-79 | the loop succeeds exactly when there are no more losses than labels and every label is a key; a missing label is a KeyError, too many losses an IndexError; the keys are unchanged |
| TrainingLogger.AppendLossesValues | src/toolkit/utils/logger/training_logger/__init__.py:58-59 | each label's list grows by exactly the losses routed to it, in order |
| TrainingLogger.Write | src/toolkit/utils/logger/training_logger/__init__.py:56-87 | writing fails with IndexError when there are more losses than labels and with ZeroDivision when `log_every` is 0; otherwise it touches only the chosen accumulator and keeps the labels, history and best loss |
| TrainingLogger.WriteAppends | src/toolkit/utils/logger/training_logger/__init__.py:56-79 | each label's accumulator grows by the losses routed to it |
| TrainingLogger.WriteOnePerLabel | src/toolkit/utils/logger/training_logger/__init__.py:58-59 | with distinct labels, loss `j` goes to label `j` and only there |
| TrainingLogger.LossesForDistinct | src/toolkit/utils/logger/training_logger/__init__.py:58-59 | with distinct labels, the loop from `i` routes loss `j` to label `j` exactly when `i <= j` |
| TrainingLogger.Unique | src/toolkit/utils/logger/training_logger/__init__.py:53 | the dictionary's keys: distinct, and exactly the labels |
| TrainingLogger.TotalMean | src/toolkit/utils/logger/training_logger/__init__.py:99 | the total validation loss is defined exactly when every label has at least one loss |
| TrainingLogger.WriteMeans | src/toolkit/utils/logger/training_logger/__init__.py:108-109 | one label's training and validation means go to the end of its lists |
| TrainingLogger.Count | src/toolkit/utils/logger/training_logger/__init__.py:107 | how often a label occurs from position `i` on |
| TrainingLogger.FlushHistoryStep | src/toolkit/utils/logger/training_logger/__init__.py:107-109 | one step of the history loop writes one label's means |
| TrainingLogger.CountStep | src/toolkit/utils/logger/training_logger/__init__.py:107 | one step of the occurrence count |
| TrainingLogger.FlushHistoryTraining | src/toolkit/utils/logger/training_logger/__init__.py:107-108 | the history loop appends a label's training mean once per occurrence of the label |
| TrainingLogger.FlushHistoryValidation | src/toolkit/utils/logger/training_logger/__init__.py:107-109 | the history loop appends a label's validation mean once per occurrence of the label |
| TrainingLogger.CountDistinct | src/toolkit/utils/logger/training_logger/__init__.py:107 | with distinct labels, each occurs exactly once |
| TrainingLogger.Flush | src/toolkit/utils/logger/training_logger/__init__.py:89-111 | the callback fires exactly when one is set and the validation total beats the best loss; the best loss becomes the total when it improves; the accumulators are reset and the history gains the means |
| TrainingLogger.WriteMeansIsTwoWrites | src/toolkit/utils/logger/training_logger/__init__.py:108-109 | the two history writes of one label always succeed |
| TrainingLogger.CountAbsent | src/toolkit/utils/logger/training_logger/__init__.py:107 | a label that does not occur is counted zero times |
| TrainingLogger.FlushWritesMeans | src/toolkit/utils/logger/training_logger/__init__.py:106-109 | with distinct labels, each label's history gains exactly its epoch mean |
| TrainingLogger.FlushLeavesOthers | src/toolkit/utils/logger/training_logger/__init__.py:106-109 | the history of a key that is not a label is untouched |
| TrainingLogger.FlushBestMonotone | src/toolkit/utils/logger/training_logger/__init__.py:97-101 | the best loss never increases and never exceeds the epoch's total |

## Left out

- Plotting, file and JSON I/O, printing, the command line and the neural networks: they do not affect the values the pipeline computes.
- Process pools: `multiprocessing.Pool.map` is modelled as a sequential map, which gives results in the same order. A pool with fewer than one process is modelled as a ValueError.
- The asynchronous loaders (`AsyncPartitionNormalisationLoader`, `Partition.async_load`): they are threads around file reads. Saving and loading are modelled for the bounds only, on JSON values rather than files.
- The Cython geometry primitives (`distance`'s square root, `segment_intersections`, the angles, `normalise_point`, `extend_lines`, `create_line_normals_from_points`) are not part of this model. They are taken as function parameters.
- `extract_features` (src/lapsim/encoder/encoder.py:60-105) is Python glue around those primitives. Its width row is modelled as `Encoder.WidthRow`. Its angle and offset rows come from `maths.angle_between` and `maths.angle3`, so they are taken as the `angles` parameter of `Encoder.Encode`.
- Floating point: `float32` casts and rounding error are not modelled. `round(x, n)` is exact decimal rounding, half to even, on reals, and `int(n * 0.95)` is computed exactly.
- Shuffling: `random.shuffle` is an arbitrary permutation passed in as a parameter.
- `NormalisationBounds.extend` updates some bounds in place before it raises. The model returns the error and drops the half-updated bounds.
- TrainingLogger.Write: the code appends losses to the accumulators before it raises, both the IndexError of a loss without a label and the ZeroDivisionError of `(batch + 1) % self.log_every`. The model returns the error and drops the partly filled accumulators.
- Transformer.Lower: only ASCII case folding is modelled. Python's `str.lower` also folds non-ASCII letters and can change the length (`'İ'` lowers to two characters, the Kelvin sign to `k`), so such keys can match differently in the code.
- Transformer.LowerChar: ASCII only, for the same reason.
- TransformNormalisation.ValidateBounds: a file with only one of `max_vehicle` and `min_vehicle` loads with no vehicle bounds, because the model keeps the two lists as one pair. The code keeps the single list. `normalise` rejects both forms, but `extend` treats them differently.
- TransformNormalisation.ValidateBounds: pydantic reports every invalid field. The model reports only the first, in declaration order. Pydantic's lax coercion (numeric strings, booleans and integers read as floats) is folded into the `Num` case.
- TransformNormalisation.LoadBounds: only the `bounds` part of a loaded document is validated. The `transform` part and its method name are not modelled on load.
- Encoder.FlipAll: returns the flipped lines as a new value, while `encode` flips the caller's `track.segmentations` in place, so the caller's track stays flipped afterwards, and a TypeError on a line without a position leaves the earlier lines flipped. Those side effects are not modelled.
- Encoder.Encode: returns new arrays and leaves the track as it was; the in-place flip is dropped, as for `Encoder.FlipAll`.
- Splicer.Splice: the `params.on_complete(result, ...)` callback is dropped. It is a caller-supplied side effect that does not change the result.
- Division by zero is a ZeroDivision error where the code divides Python floats. Where NumPy would give `inf` or `nan` instead, it is also modelled as an error.
- `evaluate2` and `evaluate_position_errors_irrespective_of_smoothing` are not modelled: nothing in the pipeline calls them.
- The `apply_sampling` of stateful lagging is the same code as that of lagging. It is modelled once, as `Lagging.ApplySampling`.
- `Vehicle.__setitem__` on an attribute that exists but is not a field (a method name) is modelled as raising, as pydantic refuses to set it.
- The best-validation-loss callback is modelled by whether it fires, not by what it does.
- The print branch of `Logger.write` and `write_val` is dropped. Only its modulo by `log_every` is kept, because it can raise.
- The `random_repeats` and `decimation` settings are never read by the code, so they are left out.

## Findings

| source | as written | input that shows it | evidently intended | confidence | as-written member | corrected member |
|---|---|---|---|---|---|---|
| src/toolkit/tracks/conversion/xyrl.py:119 | the left-boundary collapse is given `len(left_normals)`, the number of normals, as the size of the left boundary | three normals whose crossings of a 100-segment boundary are segments [5], [2, 5] and [6]: the walk leaves segment 5 for segment 2 | `len(left_line)`, the left boundary's own size, as the right side passes `len(right_line)` | not executed | Xyrl.ToXyrlAsWritten, Xyrl.WrongBoundaryCountLeavesSegment | Xyrl.ToXyrl, Xyrl.CollapseGapIsCircular |
