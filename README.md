# Reconfigurable DMFB placement, modelled in Dafny

This project models the placement program of ReconfigurablePlacement_NSGAII,
which plans a reconfigurable digital microfluidic biochip (DMFB). An assay is a
list of operations, each with an integer ID and a type code:

| code | operation |
|---|---|
| 1 / 2 | Input / Output |
| 3 | Mix |
| 4 / 5 / 6 | Split / Merge / Store |
| 7 / 8 / 9 | Sense / Detect / Heat |

The program reads four input files:

- an architecture (chip rows and columns, plus registries of input, output,
  sensor, detector and heater cells);
- the operations;
- an interference graph and a communication graph over the operations;
- a weight alpha.

The evolutionary search hands the placement problem one binary chromosome per
candidate. It holds one variable per operation, laid out as x bits | y bits |
orientation | two size bits. `evaluate` does the rest:

- it decodes the chromosome into a `Placement`: a location per operation, a
  footprint per Mix, orientations, and the two objectives D_comm and T_mix;
- it fills the constraint vector (non-overlap of interference neighbours, the
  boundary, capable cells for special operations);
- it scalarises the objectives with alpha;
- it keeps an archive of the best feasible placement.

## Modules

| module | file | contents |
|---|---|---|
| `JavaLang` | java_lang.dfy | what the Java runtime contributes: null as `Option`, exceptions as `Result`, the `instanceof` test of `equals(Object)`, `Integer.hashCode` bits, `String.valueOf(int)` with its parse-back |
| `Locations`, `OperationSizes` | location.dfy, operation_size.dfy | the value types `Location` and `OperationSize` with `equals`, `hashCode` and `toString` |
| `Operations` | operations.dfy | one class `Operation` for AbstractOperation, Mix, Input and Output: constant ID, kind, importance and reservoir; a mutable size and placement |
| `Graphs` | graph.dfy | `Edge` (optional cost, equality that ignores the cost) and `Graph` |
| `Architectures`, `Placements` | architecture.dfy, placement.dfy | the records `Architecture` and `Placement`, including the behaviour of `Placement.equals` |
| `Codec` | codec.dfy | the chromosome layout and decoding (bit fields, the grid and registry positions, the Mix size table), with an encoder and round-trip lemmas |
| `Constraints`, `Objectives` | constraints.dfy, objectives.dfy | one constraint entry, and the objective pieces (Manhattan distance, Mix latency, scalarisation) |
| `Evaluation` | evaluation.dfy | what `decode` and `getConstraints` compute, as functions, with the feasibility theorem `DecodedFeasibleIff` |
| `Archive` | archive.dfy | the archive update of `evaluate`, and the proof that it always stores the first feasible placement of minimal objective |
| `Problem` | problem.dfy | the engine as a class `PlacementProblem`; its methods are the source's loops, proved against the `Evaluation` and `Archive` functions |
| `Parsing` | parser.dfy | the input-file loader: a `LineReader` over tokenised lines and a `Parser` class whose methods are proved against functions that say what each file reads to |

## Model

| member | source | states |
|---|---|---|
| Locations.Equals | src/main/java/misc/Location.java:28-33 | equals holds exactly for a Location argument with the same coordinates |
| Locations.HashConsistent | src/main/java/misc/Location.java:25-33 | equal locations have equal hash codes |
| Locations.SwappedCoordinatesCollide | src/main/java/misc/Location.java:25 | the xor hash of (a, b) and (b, a) is the same, while equals tells them apart unless a == b |
| Locations.ToStringInjective | src/main/java/misc/Location.java:37-39 | the tab-separated text determines the location |
| OperationSizes.Equals | src/main/java/operation/OperationSize.java:23-28 | equals holds exactly for an OperationSize argument with the same height and width |
| OperationSizes.HashConsistent | src/main/java/operation/OperationSize.java:20-28 | equal sizes have equal hash codes |
| OperationSizes.TransposedSizesDiffer | src/main/java/operation/OperationSize.java:20-28 | 2x3 and 3x2 are unequal but hash alike |
| OperationSizes.ToStringInjective | src/main/java/operation/OperationSize.java:31-33 | the text determines height and width |
| Graphs.Equals | src/main/java/graph/Edge.java:45-50 | edge equality holds exactly for an Edge with the same two endpoints, whatever the costs |
| Graphs.CostIsIgnoredByEquality | src/main/java/graph/Edge.java:18-50 | a costed edge reports its cost, an uncosted one reports -1, and the two are equal |
| Graphs.HashConsistent | src/main/java/graph/Edge.java:42-50 | equal edges hash alike |
| Graphs.ReversedEdgeCollides | src/main/java/graph/Edge.java:42-50 | (u, v) and (v, u) hash alike but are equal only when u == v |
| Graphs.ToStringShowsCost | src/main/java/graph/Edge.java:53-60 | the text of an edge ends in ')' exactly when it has no cost |
| Graphs.MoreIdsCommas | src/main/java/graph/Graph.java:32-41 | each further vertex contributes a ", " separator: the tail of the vertex line has at least 2 characters per vertex and begins with ", " |
| Graphs.Ids | src/main/java/graph/Graph.java:36-38 | the IDs the vertex line prints, one per vertex in list order |
| Graphs.MoreIdsInjective | src/main/java/graph/Graph.java:36-38 | equal ", "-separated tails come from vertex lists with the same IDs in the same order |
| Graphs.VerticesStringInjective | src/main/java/graph/Graph.java:32-41 | the vertex line of `toString` determines the vertex IDs, in order |
| Placements.EqualsLoopRunsOut | src/main/java/misc/Placement.java:57-66 | the search loop of equals never returns early, because a list never equals a Location |
| Placements.EqualsEveryList | src/main/java/misc/Placement.java:57-66 | a Placement equals every ArrayList, whatever it holds, and no other object |
| Operations.KindOf | src/main/java/misc/Parser.java:211-245 | the type codes 1 to 9 name a kind, no other code does, and that kind's code is the given one |
| Operations.KindCodeRoundTrip | src/main/java/operation/AbstractOperation.java:28-40 | every kind's type code maps back to that kind |
| Operations.RotatedTwice | src/main/java/operation/AbstractOperation.java:56-60 | swapping height and width twice gives back the footprint |
| Operations.Operation.Basic | src/main/java/operation/AbstractOperation.java:16-19 | the ID and type are as given; there is no size and no placement |
| Operations.Operation.Sized | src/main/java/operation/AbstractOperation.java:21-25 | the ID, type and size are as given; there is no placement |
| Operations.Operation.Mix | src/main/java/operation/Mix.java:10-15 | type 3, the given importance, the default 2x2 footprint, unplaced |
| Operations.Operation.Input | src/main/java/operation/Input.java:10-13 | type 1, the given reservoir, 1x1, unplaced |
| Operations.Operation.Output | src/main/java/operation/Output.java:10-13 | type 2, the given reservoir, 1x1, unplaced |
| Operations.Operation.SetPlacement | src/main/java/operation/AbstractOperation.java:47-49 | the placement becomes (x, y), and nothing else changes |
| Operations.Operation.SetSize | src/main/java/operation/AbstractOperation.java:51-53 | the size becomes height x width, and nothing else changes |
| Operations.Operation.Rotate | src/main/java/operation/AbstractOperation.java:56-60 | the size becomes its transpose; the missing size that throws is excluded |
| Operations.RotateTwice | src/main/java/operation/AbstractOperation.java:56-60 | rotating twice restores the size and leaves the placement alone |
| Operations.ReservoirStringIgnoresPlacement | src/main/java/operation/Input.java:20-22 | two Inputs (or two Outputs) print alike exactly when their reservoirs agree, wherever they are placed |
| Operations.BaseStringShowsPlacement | src/main/java/operation/AbstractOperation.java:63-70 | for placed operations of the same kind, the text determines the placement |
| Codec.Pow2 | src/main/java/DMFB_ReconfigPlacementProblem.java:58-59 | powers of two are positive |
| Codec.CeilLog2 | src/main/java/DMFB_ReconfigPlacementProblem.java:58-59 | the result is the least k with n <= 2^k, i.e. ceil(log2 n) |
| Codec.GridWidthsPositive | src/main/java/DMFB_ReconfigPlacementProblem.java:58-59 | x_bits and y_bits are at least 1, and 2^(bits-1) lies below columns - 2 and rows - 2 |
| Codec.BitsValueBound | src/main/java/DMFB_ReconfigPlacementProblem.java:203-206 | a field of w bits read little-endian is below 2^w |
| Codec.BitsValueFrame | src/main/java/DMFB_ReconfigPlacementProblem.java:203-206 | a field's value depends only on the bits inside it |
| Codec.OrientationFieldIsZero | src/main/java/DMFB_ReconfigPlacementProblem.java:199-200 | the orientation range [x_bits + y_bits, x_bits + y_bits) is empty, so it always reads 0 |
| Codec.SizeTableInjective | src/main/java/DMFB_ReconfigPlacementProblem.java:179-195 | the four size codes give four different footprints |
| Codec.SizeCodeFitsTable | src/main/java/DMFB_ReconfigPlacementProblem.java:177-178 | the two size bits give a code below 4, so the default case is never taken |
| Codec.GridPositionBounds | src/main/java/DMFB_ReconfigPlacementProblem.java:203-208 | a Mix, Split, Merge or Store decodes to raw + 2 on both axes, within [2, columns - 2] x [2, rows - 2] |
| Codec.SpecialLandsInRegistry | src/main/java/DMFB_ReconfigPlacementProblem.java:214-235 | a Sense, Detect or Heat decodes onto an entry of its registry |
| Codec.UnreadBitsAreIgnored | src/main/java/DMFB_ReconfigPlacementProblem.java:177-208 | the last x bit, the last y bit and the orientation bit never influence the decoded location or Mix size |
| Codec.Encode | src/main/java/DMFB_ReconfigPlacementProblem.java:82 | an encoded variable has x_bits + y_bits + 3 bits |
| Codec.BitsOfReadBack | src/main/java/DMFB_ReconfigPlacementProblem.java:203-206 | a value written as little-endian bits reads back from any window of the field wide enough for it |
| Codec.EncodeFieldsRoundTrip | src/main/java/DMFB_ReconfigPlacementProblem.java:67-82 | decoding the fields of an encoded variable gives back raw x, raw y and the size code |
| Codec.GridPositionReachable | src/main/java/DMFB_ReconfigPlacementProblem.java:203-208 | every cell in [2, 2 + 2^(x_bits-1)) x [2, 2 + 2^(y_bits-1)), with every size code, is produced by some chromosome |
| Codec.RegistryEntryReachable | src/main/java/DMFB_ReconfigPlacementProblem.java:214-235 | every registry entry with an index below 2^(x_bits-1) is produced by some chromosome |
| Constraints.CellsMeetIff | src/main/java/DMFB_ReconfigPlacementProblem.java:282-319 | the two cell sets share a cell exactly when the rectangles overlap on both axes |
| Constraints.OverlapEntryMeaning | src/main/java/DMFB_ReconfigPlacementProblem.java:281-321 | the entry is symmetric in u and v, is -1 exactly when the oriented footprints overlap, and is -1 for two non-empty footprints at one location |
| Constraints.BoundaryEntry | src/main/java/DMFB_ReconfigPlacementProblem.java:361-366 | the entry is 0 exactly when 2 <= x <= columns - 1 and 2 <= y <= rows - 1, and -1 otherwise |
| Constraints.OperationEntries | src/main/java/DMFB_ReconfigPlacementProblem.java:327-350 | an operation contributes no boundary entry if it is an Input or Output, and one more capability entry if it is special |
| Constraints.DecodedEntriesSatisfied | src/main/java/DMFB_ReconfigPlacementProblem.java:327-350 | a decoded grid operation passes its boundary check, and a decoded special operation passes its capability check |
| Objectives.ManhattanIsMetric | src/main/java/DMFB_ReconfigPlacementProblem.java:376-378 | Manhattan distance is zero exactly on equal points, is symmetric, and obeys the triangle inequality |
| Objectives.LatencyTable | src/main/java/DMFB_ReconfigPlacementProblem.java:420-433 | 2x2 takes 10, 2x3 and 3x2 take 6, 1x4 and 4x1 take 5, 2x4 and 4x2 take 3 |
| Objectives.Scalarise | src/main/java/DMFB_ReconfigPlacementProblem.java:259 | alpha = 1 keeps only f1, and alpha = 0 keeps only f2 |
| Evaluation.NumIO | src/main/java/Main.java:35-44 | the I/O count is at most the number of operations |
| Evaluation.NumSpecial | src/main/java/Main.java:35-44 | special and I/O operations together number at most the operations |
| Evaluation.CountOperations | src/main/java/Main.java:35-44 | the counting loop computes exactly the special and I/O counts |
| Evaluation.MemberId | src/main/java/DMFB_ReconfigPlacementProblem.java:329 | with dense IDs, every operation of the list is found at index ID - 1 |
| Evaluation.MixPositions | src/main/java/DMFB_ReconfigPlacementProblem.java:51-56 | there is at most one position per operation |
| Evaluation.MixPositionsAreMixIndices | src/main/java/DMFB_ReconfigPlacementProblem.java:51-56 | k is a Mix position exactly when operation k is a Mix |
| Evaluation.DecodedLocations | src/main/java/DMFB_ReconfigPlacementProblem.java:168-254 | one location per operation: entry i is operation i's decoded location |
| Evaluation.Orientations | src/main/java/DMFB_ReconfigPlacementProblem.java:199-249 | every operation index has orientation 0, and no other key is present |
| Evaluation.Decode | src/main/java/DMFB_ReconfigPlacementProblem.java:158-262 | a decoded placement has one location per operation |
| Evaluation.CommEdgesResolve | src/main/java/DMFB_ReconfigPlacementProblem.java:390-392 | every communication endpoint's ID - 1 indexes the placement |
| Evaluation.MixPositionsInSizes | src/main/java/DMFB_ReconfigPlacementProblem.java:409-411 | every Mix position has a decoded size, so T_mix never reads a missing size |
| Evaluation.OverlapEntries | src/main/java/DMFB_ReconfigPlacementProblem.java:281-323 | one entry per interference edge |
| Evaluation.PlacementEntries | src/main/java/DMFB_ReconfigPlacementProblem.java:327-350 | special count + (operations - I/O count) entries |
| Evaluation.ConstraintVector | src/main/java/DMFB_ReconfigPlacementProblem.java:272-352 | the vector is exactly numberOfConstraints long, as set up at line 42 |
| Evaluation.OperationEntriesFeasible | src/main/java/DMFB_ReconfigPlacementProblem.java:327-350 | an operation's entries are all 0 exactly when it is in the boundary (unless I/O) and on a capable cell (if special) |
| Evaluation.PlacementEntriesFeasible | src/main/java/DMFB_ReconfigPlacementProblem.java:327-350 | the placement entries are all 0 exactly when every operation is placed well |
| Evaluation.OverlapEntriesFeasible | src/main/java/DMFB_ReconfigPlacementProblem.java:281-323 | the overlap entries are all 0 exactly when every interference edge's footprints are apart |
| Evaluation.DecodedOverlapReady | src/main/java/DMFB_ReconfigPlacementProblem.java:113-116 | a decoded placement meets everything getConstraints dereferences |
| Evaluation.DecodedShape | src/main/java/DMFB_ReconfigPlacementProblem.java:158-262 | operation i sits at its ID - 1, every orientation is 0, and exactly the Mix operations get a size from the four-entry table |
| Evaluation.DecodedFeasibleIff | src/main/java/DMFB_ReconfigPlacementProblem.java:113-128 | a decoded candidate is feasible exactly when no interference neighbours overlap and every special operation's registry cell is inside the boundary |
| Evaluation.DecodedPlacedWell | src/main/java/DMFB_ReconfigPlacementProblem.java:203-238 | on a decoded location only a special operation's boundary check can fail |
| Evaluation.DCommBounds | src/main/java/DMFB_ReconfigPlacementProblem.java:387-396 | with non-negative costs D_comm is >= 0, and it is 0 when every communicating pair shares a cell |
| Evaluation.TMixBounds | src/main/java/DMFB_ReconfigPlacementProblem.java:406-433 | with non-negative importances T_mix lies in [0, 7 * total importance], and it is 0 when every Mix is 2x2 |
| Archive.Prune | src/main/java/DMFB_ReconfigPlacementProblem.java:127-138 | pruning keeps a sub-collection of the archive |
| Archive.AlreadyStoredIffNonEmpty | src/main/java/DMFB_ReconfigPlacementProblem.java:139-144 | because Placement.equals accepts every list, the "already stored" test is true exactly when the pruned archive is non-empty |
| Archive.UpdateOneSlot | src/main/java/DMFB_ReconfigPlacementProblem.java:126-148 | with at most one stored placement, the update stores the candidate exactly when it is strictly better or the archive is empty |
| Archive.StoredIsFirstMinimum | src/main/java/DMFB_ReconfigPlacementProblem.java:126-148 | after any run of feasible candidates the archive holds at most one placement, is empty only before the first, and holds the earliest one of minimal objective |
| Archive.FirstMinimumStep | src/main/java/DMFB_ReconfigPlacementProblem.java:126-148 | one more candidate moves the first minimum as the update moves the stored placement |
| Archive.FirstMinimumUnique | src/main/java/DMFB_ReconfigPlacementProblem.java:126-148 | the first minimum is unique |
| Archive.StoredObjNeverIncreases | src/main/java/DMFB_ReconfigPlacementProblem.java:126-148 | the stored objective never rises, and it is at most the latest candidate's |
| Problem.Area | src/main/java/DMFB_ReconfigPlacementProblem.java:282-311 | the nested loops collect exactly the footprint's cells |
| Problem.Disjoint | src/main/java/DMFB_ReconfigPlacementProblem.java:313-319 | pass is true exactly when the two areas share no cell |
| Problem.PruneArchive | src/main/java/DMFB_ReconfigPlacementProblem.java:129-138 | the iterator loop computes the pruned archive |
| Problem.Contains | src/main/java/DMFB_ReconfigPlacementProblem.java:139-144 | the loop answers exactly the "already stored" test |
| Problem.ArchiveHoldsFirstMinimum | src/main/java/DMFB_ReconfigPlacementProblem.java:126-148 | in every valid engine state the archive holds at most one placement, the earliest feasible one of minimal objective |
| Problem.PlacementProblem.constructor | src/main/java/DMFB_ReconfigPlacementProblem.java:41-60 | the configuration is stored, the constraint count is IG edges + special + (operations - I/O), the Mix positions and bit widths are computed, and the archive is empty |
| Problem.PlacementProblem.GetPlacements | src/main/java/DMFB_ReconfigPlacementProblem.java:63-65 | it returns the archive |
| Problem.PlacementProblem.Decode | src/main/java/DMFB_ReconfigPlacementProblem.java:158-262 | the method's result is the decoded Placement |
| Problem.PlacementProblem.DecodeSegments | src/main/java/DMFB_ReconfigPlacementProblem.java:168-254 | the loop builds the decoded locations, the Mix sizes and the all-zero orientations |
| Problem.PlacementProblem.DecodeOperation | src/main/java/DMFB_ReconfigPlacementProblem.java:171-250 | one switch pass gives operation i's location, records a size only for a Mix, and records orientation 0 |
| Problem.PlacementProblem.DecodeOne | src/main/java/DMFB_ReconfigPlacementProblem.java:203-249 | the location computed for one operation is its decoded location |
| Problem.PlacementProblem.DCommOf | src/main/java/DMFB_ReconfigPlacementProblem.java:387-396 | the loop sums D_comm |
| Problem.PlacementProblem.TMixOf | src/main/java/DMFB_ReconfigPlacementProblem.java:406-414 | the loop sums T_mix |
| Problem.PlacementProblem.GetConstraints | src/main/java/DMFB_ReconfigPlacementProblem.java:272-352 | a fresh array holding exactly the constraint vector |
| Problem.PlacementProblem.PutOverlapEntries | src/main/java/DMFB_ReconfigPlacementProblem.java:281-323 | the first loop writes one overlap entry per interference edge |
| Problem.PlacementProblem.EdgeTest | src/main/java/DMFB_ReconfigPlacementProblem.java:282-319 | one edge's computed entry is its overlap entry |
| Problem.PlacementProblem.PutPlacementEntries | src/main/java/DMFB_ReconfigPlacementProblem.java:327-350 | the second loop fills the rest of the array with the placement entries |
| Problem.PlacementProblem.PutEntriesOf | src/main/java/DMFB_ReconfigPlacementProblem.java:328-349 | one pass appends operation n's entries |
| Problem.PlacementProblem.PutOperationEntries | src/main/java/DMFB_ReconfigPlacementProblem.java:328-349 | the boundary and capability writes append exactly the operation's entries and keep what came before |
| Problem.PlacementProblem.Evaluate | src/main/java/DMFB_ReconfigPlacementProblem.java:104-149 | the objective and constraints are those of the decoded candidate; a feasible candidate goes through the archive update, an infeasible one leaves the archive alone; validity is kept |
| Problem.PlacementProblem.Record | src/main/java/DMFB_ReconfigPlacementProblem.java:126-148 | the archive becomes the update, which is again the summary of the extended history |
| Problem.PlacementProblem.Store | src/main/java/DMFB_ReconfigPlacementProblem.java:127-147 | prune, test and add compute the archive update |
| Parsing.ParseInt | src/main/java/misc/Parser.java:104-105 | a token parses exactly when it is an integer in the 32-bit range, and then to its value |
| Parsing.IntFields | src/main/java/misc/Parser.java:148-171 | the first k fields parse exactly when the line has k fields that are all ints, giving their values |
| Parsing.LocationRow | src/main/java/misc/Parser.java:102-106 | a row reads to a Location exactly when its first two fields are ints, and then to (x, y) |
| Parsing.LocationRows | src/main/java/misc/Parser.java:97-108 | n rows read give n locations, ending n lines later |
| Parsing.LocationRowsPointwise | src/main/java/misc/Parser.java:97-108 | entry k is what line pos + k reads to |
| Parsing.LocationRowsComplete | src/main/java/misc/Parser.java:97-108 | when every line reads to a Location, the run succeeds |
| Parsing.LocationRowsMeaning | src/main/java/misc/Parser.java:93-110 | the run succeeds exactly when every line reads to a Location, and then entry k is line pos + k |
| Parsing.RegistryRead | src/main/java/misc/Parser.java:93-110 | a successful read has a non-negative count, count entries, each from its own line |
| Parsing.ReadCounts | src/main/java/misc/Parser.java:147-171 | the seven counts are the int tokens 1-2 of line 1, 1-2 of line 2 and 1-3 of line 3 |
| Parsing.RegistriesLayout | src/main/java/misc/Parser.java:174-189 | each registry has its count's size and is read from the lines right after the previous one |
| Parsing.ArchitectureReadOrder | src/main/java/misc/Parser.java:144-194 | rows and columns come from line 1, the registry sizes from lines 2-3, and the registries follow in input, output, sensor, detector, heater order |
| Parsing.LeadingDigit | src/main/java/misc/Parser.java:199-202 | the count parsed is a single digit |
| Parsing.LeadingDigitIsFirstCharacter | src/main/java/misc/Parser.java:199-202 | it is the value of the first character of the number's decimal text |
| Parsing.CountIsFirstDigit | src/main/java/misc/Parser.java:198-202 | a header "12" declares 1 operation, and a single digit declares itself |
| Parsing.OperationRowMeaning | src/main/java/misc/Parser.java:207-246 | when an operation row succeeds (int code, reservoir present and in range for I/O, a second field for a Mix), and what it creates: ID, type code, reservoir, 1x1 placed at its reservoir cell, Mix importance and 2x2, no placement otherwise; an unknown code gives null |
| Parsing.OperationRowId | src/main/java/misc/Parser.java:206-246 | the created operation carries the row's ID |
| Parsing.OperationRows | src/main/java/misc/Parser.java:206-247 | n rows read give n list entries, ending n lines later |
| Parsing.OperationRowsPointwise | src/main/java/misc/Parser.java:206-247 | entry k is what line pos + k reads to with ID id + k |
| Parsing.LoadedOperations | src/main/java/misc/Parser.java:196-248 | a loaded file has a header, at most 9 operations as the header's first digit says, and entry k is row k + 1 with ID k + 1 |
| Parsing.LoadedIdsDense | src/main/java/misc/Parser.java:206-246 | each non-null entry k has ID k + 1 |
| Parsing.EdgeRowMeaning | src/main/java/misc/Parser.java:121-134 | a successful edge row has int endpoint tokens naming list entries, its endpoints are the entries at token - 1, and it has the third token as its cost exactly when costs are read |
| Parsing.EdgeRows | src/main/java/misc/Parser.java:120-135 | n rows give n edges, ending n lines later |
| Parsing.EdgeRowsPointwise | src/main/java/misc/Parser.java:120-135 | edge k is what line pos + k reads to |
| Parsing.GraphsShareVertices | src/main/java/misc/Parser.java:250-276 | both graphs have the operation list as vertices, and the edge rows follow the count line |
| Parsing.InterferenceRows | src/main/java/misc/Parser.java:264-267 | interference edge k is line pos + 1 + k read without a cost |
| Parsing.CommunicationRows | src/main/java/misc/Parser.java:271-274 | the communication rows follow the interference rows, each read with its cost |
| Parsing.EndpointsResolveById | src/main/java/misc/Parser.java:124-125 | with dense IDs, every parsed endpoint is found again at index ID - 1, as the engine looks it up |
| Parsing.ContainsMeaning | src/main/java/misc/Parser.java:43-63 | contains holds exactly when the piece occurs at some index |
| Parsing.RoleOf | src/main/java/misc/Parser.java:43-71 | a name is refused exactly when it contains none of the four file names, and an earlier name takes precedence |
| Parsing.StandardNames | src/main/java/misc/Parser.java:43-68 | "arch.in", "ops.in", "graphs.in" and "alpha.in" reach their own parse methods |
| Parsing.LineReader.constructor | src/main/java/misc/Parser.java:41 | the reader starts at the first line |
| Parsing.LineReader.ReadLine | src/main/java/misc/Parser.java:98 | the next line and an advance, or null at the end without an advance |
| Parsing.ReadRow | src/main/java/misc/Parser.java:121-122 | a line that is read, or NullLine failure at the end |
| Parsing.ParseLocations | src/main/java/misc/Parser.java:93-110 | the loop returns exactly the locations the lines read to, and advances past them |
| Parsing.LoadOperation | src/main/java/misc/Parser.java:207-246 | it fails exactly when the row does, with the same exception; otherwise it returns a fresh operation in the state the row describes, or null |
| Parsing.LoadRowAt | src/main/java/misc/Parser.java:207-246 | one pass of the loop either ends with the run's exception or extends the list by the row's operation |
| Parsing.LoadOperations | src/main/java/misc/Parser.java:206-247 | the loop creates exactly the operations the rows read to, all fresh |
| Parsing.Parser.constructor | src/main/java/misc/Parser.java:20-24 | nothing is loaded yet: the references are null and alpha is 0 |
| Parsing.Parser.ParseArchFile | src/main/java/misc/Parser.java:144-194 | it succeeds exactly when the file reads to an architecture, which is then stored; on failure it throws that exception and keeps the old architecture |
| Parsing.Parser.ParseCounts | src/main/java/misc/Parser.java:146-171 | the first three lines give the counts |
| Parsing.Parser.ParseOpsFile | src/main/java/misc/Parser.java:196-248 | it succeeds exactly when the file reads to an operation list; then the list holds fresh operations in the state the rows describe, with dense IDs |
| Parsing.Parser.ParseEdges | src/main/java/misc/Parser.java:112-137 | the loop returns exactly the edges the rows read to |
| Parsing.Parser.ParseGraphsFile | src/main/java/misc/Parser.java:250-276 | it succeeds exactly when the file reads to the two graphs, which are then stored |
| Parsing.Parser.ParseAlphaFile | src/main/java/misc/Parser.java:278-281 | alpha becomes the number on the line, or the exception is thrown and alpha is kept |

## Left out

- I/O: the `Parser` constructor's file loop (class-loader lookup, readers,
  the IOException catch, `close`) and all console output are not modelled.
  Only the name dispatch `RoleOf` is modelled, and each parse method runs on
  an in-memory `LineReader`.
- Tokenisation: the text of each line is not modelled. This covers
  `split("\\s+")`, `trim` and the digit parsing of `Integer.parseInt`.
  Lines arrive as canonical numeric tokens, so a non-numeric token is not
  representable, and `NumberFormat` covers the fractional literals
  `parseInt` refuses.
- Parsing.ReadGraphs: a graphs file read before the ops file fails with
  `NullField` even when both edge counts are 0. Java then builds graphs with
  null vertex lists; the model's graphs always have a vertex list.
- Parsing.Parser.ParseOpsFile: the state after a failure is not stated.
  Java publishes the new, partly filled list at its start.
- Parsing.Parser.ParseGraphsFile: the state after a failure is not stated.
  Java stores the interference graph before the communication edges are read.
- Parsing.Parser.ParseOpsFile: the Split, Merge, Store, Sense, Detect and
  Heat classes are not part of this model. Their footprint is the
  `footprint` parameter; only their ID and type are fixed.
- Operations.Operation.Rotate: a missing size, on which `rotate` throws
  NullPointerException, is excluded by a precondition.
- Getters and `Architecture.toString` are not modelled separately: a getter
  is the field, and the text form of an architecture is only diagnostic.
  Only the vertex line of `Graph.toString` is modelled; the edge part is only
  diagnostic.
- `Obj` is not modelled because nothing calls it. `Main` is modelled only
  for its counting loop (as `CountOperations`), and its NSGA-II run and
  output are left out.
- The evolutionary framework: population, selection and `BinaryVariable` are
  left out. A chromosome is one `seq<bool>` per operation, read
  little-endian. `Solution.violatesConstraints` is `Feasible`: every entry
  is 0.
- Floating point: `double` is modelled as `real`, and `Math.log`/`Math.ceil`
  of the bit widths as the exact integer `CeilLog2`. The rounding of the
  logarithm quotient is ignored; it can only change the result when
  columns - 2 or rows - 2 is a power of two.
- Java `int` overflow is not modelled, in coordinates, IDs, costs or sums.
  The parser bounds each token to the 32-bit range, as `parseInt` does.
- The `HashSet` archive is a sequence in iteration order, and hashing plays
  no part in it. The proofs show that it never holds more than one element.
- Codec.DecodeLocation, Problem.PlacementProblem.Decode and
  Problem.PlacementProblem.constructor require what the source assumes but
  does not check (the constructor requires all of it, because it establishes
  the engine's invariant, while lines 41-60 of
  `DMFB_ReconfigPlacementProblem.java` check none of it):
  - a grid of at least 4 by 4;
  - IDs dense in list order (entry i has ID i + 1);
  - graph edges between operations of the list;
  - non-empty special registries;
  - Inputs and Outputs already placed;
  - every operation's size set before `getConstraints` reads it.

  The engine's constructor takes the special and I/O counts as arguments and
  requires them to equal the ones `Main` computes.
- Orientation: the orientation field is an empty bit range, and the
  fall-through into case 6 overwrites it with 0. Every decoded orientation
  is therefore 0, and the rotated branch of `getConstraints` is modelled
  but never taken.
- Constraints.BoundaryEntry follows `inBoundary` as written: x and y may
  reach columns - 1 and rows - 1. The source's comments speak
  of a (2, M-1) x (2, N-1) box; read inclusively, that is the same set.
