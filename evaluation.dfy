/**
 * What DMFB_ReconfigPlacementProblem computes for one candidate, as functions
 * of the operation list, the two graphs and the chromosome segments (one
 * `seq<bool>` per operation): the decoded Placement, the constraint vector
 * and the two objectives. The engine's methods are proved against these.
 */
module Evaluation {
  import opened JavaLang
  import opened Locations
  import opened OperationSizes
  import opened Operations
  import opened Graphs
  import opened Architectures
  import opened Placements
  import opened Codec
  import opened Constraints
  import opened Objectives

  /** The number of Input and Output operations, as Main counts them (types 1 and 2). */
  function NumIO(ops: seq<Operation>): (n: nat)
    ensures n <= |ops|
  {
    if ops == [] then 0
    else NumIO(ops[..|ops| - 1]) + (if Code(ops[|ops| - 1].kind) == 1 || Code(ops[|ops| - 1].kind) == 2 then 1 else 0)
  }

  /** The number of Sense, Detect and Heat operations, as Main counts them (type 7 or more). */
  function NumSpecial(ops: seq<Operation>): (n: nat)
    ensures n + NumIO(ops) <= |ops|
  {
    if ops == [] then 0
    else NumSpecial(ops[..|ops| - 1]) + (if Code(ops[|ops| - 1].kind) >= 7 then 1 else 0)
  }

  /** Main's counting loop. */
  method CountOperations(ops: seq<Operation>) returns (numSpecial: nat, numIO: nat)
    ensures numSpecial == NumSpecial(ops) && numIO == NumIO(ops)
  {
    numSpecial, numIO := 0, 0;
    for i := 0 to |ops|
      invariant numSpecial == NumSpecial(ops[..i]) && numIO == NumIO(ops[..i])
    {
      assert ops[..i + 1][..i] == ops[..i];
      var op := ops[i];
      if Code(op.kind) == 1 || Code(op.kind) == 2 {
        numIO := numIO + 1;
      }
      if Code(op.kind) >= 7 {
        numSpecial := numSpecial + 1;
      }
    }
    assert ops[..|ops|] == ops;
  }

  /** The loader numbers the operations 1..N in list order; the engine finds
      an operation's location at index ID - 1 and relies on this. */
  predicate DenseIds(ops: seq<Operation>)
  {
    forall i :: 0 <= i < |ops| ==> ops[i].id == i + 1
  }

  lemma MemberId(ops: seq<Operation>, op: Operation)
    requires DenseIds(ops) && op in ops
    ensures 1 <= op.id <= |ops| && ops[op.id - 1] == op
  {
    var i :| 0 <= i < |ops| && ops[i] == op;
  }

  /** `op` is the operation at index ID - 1 of the list. */
  predicate Resolves(ops: seq<Operation>, op: Operation)
  {
    1 <= op.id <= |ops| && ops[op.id - 1] == op
  }

  /** An interference or communication edge between two operations of the
      list, each found at index ID - 1 (the loader resolves edge rows so). */
  predicate EdgeWithin(e: Edge<Operation>, ops: seq<Operation>)
  {
    Resolves(ops, e.u) && Resolves(ops, e.v)
  }

  /** An interference edge whose endpoints have footprints (`getSize()` is
      dereferenced for both). */
  predicate SizedEdge(e: Edge<Operation>, ops: seq<Operation>)
    reads ops
  {
    EdgeWithin(e, ops) && e.u.size.Some? && e.v.size.Some?
  }

  /** What `decode` dereferences exists: a grid big enough for both widths
      to be at least 1, dense IDs, a stored placement for each Input and
      Output, a non-empty registry for every special kind used, and
      communication edges between operations of the list. */
  predicate DecodeReady(arch: Architecture, ops: seq<Operation>, cg: Graph<Operation>)
    reads ops
  {
    && DecodableGrid(arch)
    && DenseIds(ops)
    && (forall i :: 0 <= i < |ops| ==> Decodable(arch, ops[i].kind, ops[i].placement))
    && (forall j :: 0 <= j < |cg.edges| ==> EdgeWithin(cg.edges[j], ops))
  }

  /** What the whole engine dereferences exists: in addition, interference
      edges between sized operations of the list. */
  predicate WellFormed(arch: Architecture, ops: seq<Operation>, ig: Graph<Operation>, cg: Graph<Operation>)
    reads ops
  {
    && DecodeReady(arch, ops, cg)
    && (forall j :: 0 <= j < |ig.edges| ==> SizedEdge(ig.edges[j], ops))
  }

  /** One chromosome segment per operation, each `x_bits + y_bits + 3` bits long. */
  predicate SegmentsFit(arch: Architecture, ops: seq<Operation>, segments: seq<seq<bool>>)
  {
    && DecodableGrid(arch)
    && |segments| == |ops|
    && forall i :: 0 <= i < |segments| ==> |segments[i]| == SegmentWidth(arch)
  }

  // ---------------------------------------------------------------- decode

  /** `mixPositions`: ID - 1 of each Mix, in list order. */
  function MixPositions(ops: seq<Operation>): (r: seq<int>)
    ensures |r| <= |ops|
  {
    if ops == [] then []
    else MixPositions(ops[..|ops| - 1]) + (if ops[|ops| - 1].kind == Mix then [ops[|ops| - 1].id - 1] else [])
  }

  /** With dense IDs, the positions are exactly the indices of the Mix operations. */
  lemma {:induction false} MixPositionsAreMixIndices(ops: seq<Operation>)
    requires DenseIds(ops)
    ensures forall k :: k in MixPositions(ops) <==> 0 <= k < |ops| && ops[k].kind == Mix
  {
    if ops != [] {
      var prefix := ops[..|ops| - 1];
      assert DenseIds(prefix);
      MixPositionsAreMixIndices(prefix);
    }
  }

  function DecodedLocations(arch: Architecture, ops: seq<Operation>, segments: seq<seq<bool>>): (r: seq<Location>)
    reads ops
    requires |segments| == |ops|
    requires forall i :: 0 <= i < |ops| ==> Decodable(arch, ops[i].kind, ops[i].placement)
    ensures |r| == |ops|
    ensures forall i :: 0 <= i < |ops| ==> r[i] == DecodeLocation(arch, ops[i].kind, ops[i].placement, segments[i])
  {
    if ops == [] then []
    else
      var n := |ops| - 1;
      DecodedLocations(arch, ops[..n], segments[..n]) + [DecodeLocation(arch, ops[n].kind, ops[n].placement, segments[n])]
  }

  /** `mix_sizes`: keyed by list index, one entry per Mix. */
  function MixSizes(arch: Architecture, ops: seq<Operation>, segments: seq<seq<bool>>): map<int, OperationSize>
    requires SegmentsFit(arch, ops, segments)
  {
    MixSizesUpTo(arch, ops, segments, |ops|)
  }

  /** The footprints of the Mix operations among the first `n`. */
  function MixSizesUpTo(arch: Architecture, ops: seq<Operation>, segments: seq<seq<bool>>, n: nat): map<int, OperationSize>
    requires SegmentsFit(arch, ops, segments) && n <= |ops|
  {
    map i | 0 <= i < n && ops[i].kind == Mix :: MixSize(segments[i], XBits(arch), YBits(arch))
  }

  lemma MixSizesStep(arch: Architecture, ops: seq<Operation>, segments: seq<seq<bool>>, n: nat)
    requires SegmentsFit(arch, ops, segments) && n < |ops|
    ensures MixSizesUpTo(arch, ops, segments, n + 1) ==
      if ops[n].kind == Mix then MixSizesUpTo(arch, ops, segments, n)[n := MixSize(segments[n], XBits(arch), YBits(arch))]
      else MixSizesUpTo(arch, ops, segments, n)
  {
  }

  /** `orientations`: keyed by ID - 1, every value 0. */
  function Orientations(n: nat): (m: map<int, int>)
    ensures forall k :: k in m <==> 0 <= k < n
    ensures forall k :: k in m ==> m[k] == 0
  {
    if n == 0 then map[] else Orientations(n - 1)[n - 1 := 0]
  }

  /** `D_comm`: the cost-weighted Manhattan distances over the communication
      edges, summed in edge order. */
  function DComm(edges: seq<Edge<Operation>>, placement: seq<Location>): real
    requires forall j :: 0 <= j < |edges| ==> 1 <= edges[j].u.id <= |placement| && 1 <= edges[j].v.id <= |placement|
  {
    if edges == [] then 0.0
    else
      var e := edges[|edges| - 1];
      DComm(edges[..|edges| - 1], placement)
        + (GetCost(e) * ManhattanDistance(placement[e.u.id - 1], placement[e.v.id - 1])) as real
  }

  /** `T_mix`: importance times (10 - latency) over the Mix positions, with the
      latency of each Mix's decoded footprint. */
  function TMix(positions: seq<int>, ops: seq<Operation>, mixSizes: map<int, OperationSize>): real
    requires forall j :: 0 <= j < |positions| ==> 0 <= positions[j] < |ops| && positions[j] in mixSizes
  {
    if positions == [] then 0.0
    else
      var k := positions[|positions| - 1];
      TMix(positions[..|positions| - 1], ops, mixSizes) + ops[k].importance * (10 - Latency(mixSizes[k])) as real
  }

  /** The Placement `decode` returns; its T_mix field holds f2 = -T_mix. */
  function Decode(arch: Architecture, ops: seq<Operation>, cg: Graph<Operation>, alpha: real, segments: seq<seq<bool>>): (p: Placement)
    reads ops
    requires DecodeReady(arch, ops, cg) && SegmentsFit(arch, ops, segments)
    ensures |p.placement| == |ops|
  {
    var placement := DecodedLocations(arch, ops, segments);
    var sizes := MixSizes(arch, ops, segments);
    MixPositionsInSizes(arch, ops, segments);
    var d := DComm(cg.edges, placement);
    var t := TMix(MixPositions(ops), ops, sizes);
    Placement(placement, sizes, Orientations(|ops|), d, -t, Scalarise(alpha, d, -t))
  }

  /** What the scores of a decoded candidate are computed from: the
      communication edges resolve into the decoded locations, and every Mix
      position has a decoded footprint. */
  lemma DecodePrepared(arch: Architecture, ops: seq<Operation>, cg: Graph<Operation>, segments: seq<seq<bool>>,
                       placement: seq<Location>, sizes: map<int, OperationSize>)
    requires DecodeReady(arch, ops, cg) && SegmentsFit(arch, ops, segments)
    requires placement == DecodedLocations(arch, ops, segments)
    requires sizes == MixSizes(arch, ops, segments)
    ensures forall j :: 0 <= j < |cg.edges| ==> 1 <= cg.edges[j].u.id <= |placement| && 1 <= cg.edges[j].v.id <= |placement|
    ensures forall j :: 0 <= j < |MixPositions(ops)| ==> 0 <= MixPositions(ops)[j] < |ops| && MixPositions(ops)[j] in sizes
  {
    CommEdgesResolve(arch, ops, cg);
    MixPositionsInSizes(arch, ops, segments);
  }

  /** The decoded candidate is assembled from the decoded locations and mix
      footprints and the two scores computed from them. */
  lemma DecodeAssembled(arch: Architecture, ops: seq<Operation>, cg: Graph<Operation>, alpha: real, segments: seq<seq<bool>>,
                        placement: seq<Location>, sizes: map<int, OperationSize>, f1: real, f2: real)
    requires DecodeReady(arch, ops, cg) && SegmentsFit(arch, ops, segments)
    requires placement == DecodedLocations(arch, ops, segments)
    requires sizes == MixSizes(arch, ops, segments)
    requires forall j :: 0 <= j < |cg.edges| ==> 1 <= cg.edges[j].u.id <= |placement| && 1 <= cg.edges[j].v.id <= |placement|
    requires forall j :: 0 <= j < |MixPositions(ops)| ==> 0 <= MixPositions(ops)[j] < |ops| && MixPositions(ops)[j] in sizes
    requires f1 == DComm(cg.edges, placement) && f2 == -TMix(MixPositions(ops), ops, sizes)
    ensures Decode(arch, ops, cg, alpha, segments) == Placement(placement, sizes, Orientations(|ops|), f1, f2, Scalarise(alpha, f1, f2))
  {
  }

  lemma CommEdgesResolve(arch: Architecture, ops: seq<Operation>, cg: Graph<Operation>)
    requires DecodeReady(arch, ops, cg)
    ensures forall j :: 0 <= j < |cg.edges| ==> 1 <= cg.edges[j].u.id <= |ops| && 1 <= cg.edges[j].v.id <= |ops|
  {
  }

  lemma MixPositionsInSizes(arch: Architecture, ops: seq<Operation>, segments: seq<seq<bool>>)
    requires DenseIds(ops) && SegmentsFit(arch, ops, segments)
    ensures forall j :: 0 <= j < |MixPositions(ops)| ==>
      0 <= MixPositions(ops)[j] < |ops| && MixPositions(ops)[j] in MixSizes(arch, ops, segments)
  {
    MixPositionsAreMixIndices(ops);
    var ps := MixPositions(ops);
    assert forall j :: 0 <= j < |ps| ==> ps[j] in ps;
  }

  // ----------------------------------------------------------- constraints

  /** The overlap entry of one interference edge, from the declared footprints
      of its endpoints and their decoded locations and orientations. */
  function EdgeEntry(e: Edge<Operation>, placement: seq<Location>, orientations: map<int, int>): real
    reads e.u, e.v
    requires e.u.size.Some? && e.v.size.Some?
    requires 1 <= e.u.id <= |placement| && 1 <= e.v.id <= |placement|
    requires e.u.id - 1 in orientations && e.v.id - 1 in orientations
  {
    OverlapEntry(placement[e.u.id - 1], e.u.size.value, orientations[e.u.id - 1],
                 placement[e.v.id - 1], e.v.size.value, orientations[e.v.id - 1])
  }

  /** The interference edges can be evaluated against a placement of `ops`. */
  predicate OverlapReady(ops: seq<Operation>, edges: seq<Edge<Operation>>, placement: seq<Location>, orientations: map<int, int>)
    reads ops
  {
    && DenseIds(ops) && |placement| == |ops|
    && (forall k :: 0 <= k < |ops| ==> k in orientations)
    && (forall j :: 0 <= j < |edges| ==> SizedEdge(edges[j], ops))
  }

  lemma EdgeReady(ops: seq<Operation>, edges: seq<Edge<Operation>>, placement: seq<Location>, orientations: map<int, int>, j: int)
    requires OverlapReady(ops, edges, placement, orientations) && 0 <= j < |edges|
    ensures var e := edges[j];
      && e.u in ops && e.v in ops && e.u.size.Some? && e.v.size.Some?
      && 1 <= e.u.id <= |placement| && 1 <= e.v.id <= |placement|
      && e.u.id - 1 in orientations && e.v.id - 1 in orientations
  {
  }

  /** One overlap entry per interference edge, in edge order. */
  function OverlapEntries(ops: seq<Operation>, edges: seq<Edge<Operation>>, placement: seq<Location>, orientations: map<int, int>): (r: seq<real>)
    reads ops
    requires OverlapReady(ops, edges, placement, orientations)
    ensures |r| == |edges|
  {
    if edges == [] then []
    else
      var n := |edges| - 1;
      EdgeReady(ops, edges, placement, orientations, n);
      OverlapEntries(ops, edges[..n], placement, orientations) + [EdgeEntry(edges[n], placement, orientations)]
  }

  /** The placement entries of each operation in list order (boundary, then
      capability), each looked up at index ID - 1. */
  function PlacementEntries(arch: Architecture, ops: seq<Operation>, placement: seq<Location>): (r: seq<real>)
    requires forall i :: 0 <= i < |ops| ==> 1 <= ops[i].id <= |placement|
    ensures |r| == NumSpecial(ops) + (|ops| - NumIO(ops))
  {
    if ops == [] then []
    else
      var n := |ops| - 1;
      PlacementEntries(arch, ops[..n], placement) + OperationEntries(arch, ops[n].kind, placement[ops[n].id - 1])
  }

  /** The array `getConstraints` returns. */
  function ConstraintVector(arch: Architecture, ops: seq<Operation>, ig: Graph<Operation>, sol: Placement): (r: seq<real>)
    reads ops
    requires OverlapReady(ops, ig.edges, sol.placement, sol.orientations)
    ensures |r| == |ig.edges| + NumSpecial(ops) + (|ops| - NumIO(ops))
  {
    OverlapEntries(ops, ig.edges, sol.placement, sol.orientations) + PlacementEntries(arch, ops, sol.placement)
  }

  /** `violatesConstraints()` is false: every entry is 0. */
  predicate Feasible(cs: seq<real>)
  {
    forall j :: 0 <= j < |cs| ==> cs[j] == 0.0
  }

  /** An operation's own placement checks pass: inside the boundary unless it
      is an Input or Output, and on a capable cell if it is special. */
  predicate PlacedWell(arch: Architecture, kind: Kind, l: Location)
  {
    && (!IsIO(kind) ==> InBoundary(arch, l))
    && (IsSpecial(kind) ==> l in Registry(arch, kind))
  }

  lemma OperationEntriesFeasible(arch: Architecture, kind: Kind, l: Location)
    ensures Feasible(OperationEntries(arch, kind, l)) <==> PlacedWell(arch, kind, l)
  {
    var r := OperationEntries(arch, kind, l);
    if !IsIO(kind) {
      assert r[0] == BoundaryEntry(arch, l);
    }
    if IsSpecial(kind) {
      assert r[|r| - 1] == CapabilityEntry(arch, kind, l);
    }
  }

  lemma FeasibleConcat(a: seq<real>, b: seq<real>)
    ensures Feasible(a + b) <==> Feasible(a) && Feasible(b)
  {
    assert forall j :: 0 <= j < |a| ==> a[j] == (a + b)[j];
    assert forall j :: 0 <= j < |b| ==> b[j] == (a + b)[|a| + j];
  }

  lemma {:induction false} PlacementEntriesFeasible(arch: Architecture, ops: seq<Operation>, placement: seq<Location>)
    requires forall i :: 0 <= i < |ops| ==> 1 <= ops[i].id <= |placement|
    ensures Feasible(PlacementEntries(arch, ops, placement))
      <==> forall i :: 0 <= i < |ops| ==> PlacedWell(arch, ops[i].kind, placement[ops[i].id - 1])
  {
    if ops != [] {
      var n := |ops| - 1;
      var front, last := PlacementEntries(arch, ops[..n], placement), OperationEntries(arch, ops[n].kind, placement[ops[n].id - 1]);
      assert PlacementEntries(arch, ops, placement) == front + last;
      PlacementEntriesFeasible(arch, ops[..n], placement);
      FeasibleConcat(front, last);
      OperationEntriesFeasible(arch, ops[n].kind, placement[ops[n].id - 1]);
      PlacedWellSplit(arch, ops, placement);
    }
  }

  lemma PlacedWellSplit(arch: Architecture, ops: seq<Operation>, placement: seq<Location>)
    requires ops != [] && forall i :: 0 <= i < |ops| ==> 1 <= ops[i].id <= |placement|
    ensures var n := |ops| - 1;
      (forall i :: 0 <= i < |ops| ==> PlacedWell(arch, ops[i].kind, placement[ops[i].id - 1]))
      <==> (forall i :: 0 <= i < n ==> PlacedWell(arch, ops[..n][i].kind, placement[ops[..n][i].id - 1]))
           && PlacedWell(arch, ops[n].kind, placement[ops[n].id - 1])
  {
    var n := |ops| - 1;
    assert forall i :: 0 <= i < n ==> ops[..n][i] == ops[i];
  }

  /** The two endpoints of interference edge `j` do not share a cell. */
  predicate Apart(ops: seq<Operation>, edges: seq<Edge<Operation>>, placement: seq<Location>, orientations: map<int, int>, j: int)
    reads ops
    requires OverlapReady(ops, edges, placement, orientations) && 0 <= j < |edges|
  {
    EdgeReady(ops, edges, placement, orientations, j);
    var e := edges[j];
    var fu := Oriented(e.u.size.value, orientations[e.u.id - 1]);
    var fv := Oriented(e.v.size.value, orientations[e.v.id - 1]);
    !RectanglesMeet(placement[e.u.id - 1], fu.height, fu.width, placement[e.v.id - 1], fv.height, fv.width)
  }

  lemma {:induction false} OverlapEntriesFeasible(ops: seq<Operation>, edges: seq<Edge<Operation>>, placement: seq<Location>, orientations: map<int, int>)
    requires OverlapReady(ops, edges, placement, orientations)
    ensures Feasible(OverlapEntries(ops, edges, placement, orientations))
      <==> forall j :: 0 <= j < |edges| ==> Apart(ops, edges, placement, orientations, j)
  {
    if edges != [] {
      var n := |edges| - 1;
      EdgeReady(ops, edges, placement, orientations, n);
      var e := edges[n];
      OverlapEntriesFeasible(ops, edges[..n], placement, orientations);
      FeasibleConcat(OverlapEntries(ops, edges[..n], placement, orientations), [EdgeEntry(e, placement, orientations)]);
      OverlapEntryMeaning(placement[e.u.id - 1], e.u.size.value, orientations[e.u.id - 1],
                          placement[e.v.id - 1], e.v.size.value, orientations[e.v.id - 1]);
      assert forall j :: 0 <= j < n ==> Apart(ops, edges[..n], placement, orientations, j) == Apart(ops, edges, placement, orientations, j);
      assert EdgeEntry(e, placement, orientations) == 0.0 <==> Apart(ops, edges, placement, orientations, n);
      var last := [EdgeEntry(e, placement, orientations)];
      assert last[0] == EdgeEntry(e, placement, orientations);
      assert Feasible(last) <==> last[0] == 0.0;
      assert OverlapEntries(ops, edges, placement, orientations)
        == OverlapEntries(ops, edges[..n], placement, orientations) + [EdgeEntry(e, placement, orientations)];
    }
  }

  // ------------------------------------------------ decoded candidates

  /** A decoded placement can be checked against the interference graph. */
  lemma DecodedOverlapReady(arch: Architecture, ops: seq<Operation>, ig: Graph<Operation>, cg: Graph<Operation>, alpha: real, segments: seq<seq<bool>>)
    requires WellFormed(arch, ops, ig, cg) && SegmentsFit(arch, ops, segments)
    ensures var sol := Decode(arch, ops, cg, alpha, segments);
      OverlapReady(ops, ig.edges, sol.placement, sol.orientations)
  {
  }

  /** A decoded candidate puts every operation at its own index (IDs are
      dense), keeps every orientation at 0, and gives a footprint from the
      four-entry table exactly to the Mix operations. */
  lemma DecodedShape(arch: Architecture, ops: seq<Operation>, cg: Graph<Operation>, alpha: real, segments: seq<seq<bool>>)
    requires DecodeReady(arch, ops, cg) && SegmentsFit(arch, ops, segments)
    ensures var sol := Decode(arch, ops, cg, alpha, segments);
      && (forall i :: 0 <= i < |ops| ==>
            sol.placement[ops[i].id - 1] == DecodeLocation(arch, ops[i].kind, ops[i].placement, segments[i]))
      && (forall k :: k in sol.orientations <==> 0 <= k < |ops|)
      && (forall k :: k in sol.orientations ==> sol.orientations[k] == 0)
      && (forall k :: k in sol.mixSizes <==> 0 <= k < |ops| && ops[k].kind == Mix)
      && (forall k :: k in sol.mixSizes ==>
            sol.mixSizes[k] in {OperationSize(2, 2), OperationSize(2, 3), OperationSize(1, 4), OperationSize(2, 4)})
  {
    var sol := Decode(arch, ops, cg, alpha, segments);
    forall k | k in sol.mixSizes
      ensures sol.mixSizes[k] in {OperationSize(2, 2), OperationSize(2, 3), OperationSize(1, 4), OperationSize(2, 4)}
    {
      SizeCodeFitsTable(segments[k], XBits(arch), YBits(arch));
    }
  }

  /** A decoded candidate is feasible exactly when no two interference
      neighbours share a cell and every Sense/Detect/Heat registry cell it was
      given lies inside the boundary: grid kinds always decode inside the
      boundary, special kinds always onto a capable cell, and Inputs and
      Outputs are never checked. */
  lemma DecodedFeasibleIff(arch: Architecture, ops: seq<Operation>, ig: Graph<Operation>, cg: Graph<Operation>, alpha: real, segments: seq<seq<bool>>)
    requires WellFormed(arch, ops, ig, cg) && SegmentsFit(arch, ops, segments)
    ensures var sol := Decode(arch, ops, cg, alpha, segments);
      Feasible(ConstraintVector(arch, ops, ig, sol)) <==>
        && (forall j :: 0 <= j < |ig.edges| ==> Apart(ops, ig.edges, sol.placement, sol.orientations, j))
        && (forall i :: 0 <= i < |ops| && IsSpecial(ops[i].kind) ==> InBoundary(arch, sol.placement[i]))
  {
    var sol := Decode(arch, ops, cg, alpha, segments);
    var overlap := OverlapEntries(ops, ig.edges, sol.placement, sol.orientations);
    var own := PlacementEntries(arch, ops, sol.placement);
    assert ConstraintVector(arch, ops, ig, sol) == overlap + own;
    DecodedShape(arch, ops, cg, alpha, segments);
    FeasibleConcat(overlap, own);
    OverlapEntriesFeasible(ops, ig.edges, sol.placement, sol.orientations);
    PlacementEntriesFeasible(arch, ops, sol.placement);
    forall i | 0 <= i < |ops|
      ensures PlacedWell(arch, ops[i].kind, sol.placement[ops[i].id - 1])
          <==> (IsSpecial(ops[i].kind) ==> InBoundary(arch, sol.placement[i]))
    {
      DecodedPlacedWell(arch, ops[i].kind, ops[i].placement, segments[i]);
    }
  }

  /** Only a special operation's boundary check can fail on a decoded location. */
  lemma DecodedPlacedWell(arch: Architecture, kind: Kind, stored: Option<Location>, bits: seq<bool>)
    requires Decodable(arch, kind, stored)
    ensures var l := DecodeLocation(arch, kind, stored, bits);
      PlacedWell(arch, kind, l) <==> (IsSpecial(kind) ==> InBoundary(arch, l))
  {
    if IsGridKind(kind) {
      GridPositionBounds(arch, kind, stored, bits);
    } else if IsSpecial(kind) {
      SpecialLandsInRegistry(arch, kind, stored, bits);
    }
  }

  // ----------------------------------------------------------- objectives

  /** With non-negative edge costs, D_comm is non-negative, and it is 0 when
      every communication edge joins two operations placed on one cell. */
  lemma {:induction false} DCommBounds(edges: seq<Edge<Operation>>, placement: seq<Location>)
    requires forall j :: 0 <= j < |edges| ==> 1 <= edges[j].u.id <= |placement| && 1 <= edges[j].v.id <= |placement|
    requires forall j :: 0 <= j < |edges| ==> GetCost(edges[j]) >= 0
    ensures DComm(edges, placement) >= 0.0
    ensures (forall j :: 0 <= j < |edges| ==> placement[edges[j].u.id - 1] == placement[edges[j].v.id - 1])
      ==> DComm(edges, placement) == 0.0
  {
    if edges != [] {
      var n := |edges| - 1;
      DCommBounds(edges[..n], placement);
      var e := edges[n];
      var d := ManhattanDistance(placement[e.u.id - 1], placement[e.v.id - 1]);
      assert GetCost(e) * d >= 0;
      ManhattanIsMetric(placement[e.u.id - 1], placement[e.v.id - 1], placement[e.v.id - 1]);
    }
  }

  /** Each Mix adds importance times 0 (2x2), 7 (2x4), 5 (with a side of 1)
      or 4 (with a side of 3): with non-negative importances T_mix lies
      between 0 and 7 times their sum, and it is 0 when every Mix is 2x2. */
  lemma {:induction false} TMixBounds(positions: seq<int>, ops: seq<Operation>, mixSizes: map<int, OperationSize>)
    requires forall j :: 0 <= j < |positions| ==> 0 <= positions[j] < |ops| && positions[j] in mixSizes
    requires forall j :: 0 <= j < |positions| ==> ops[positions[j]].importance >= 0.0
    ensures 0.0 <= TMix(positions, ops, mixSizes) <= 7.0 * Importance(positions, ops)
    ensures (forall j :: 0 <= j < |positions| ==> mixSizes[positions[j]] == OperationSize(2, 2))
      ==> TMix(positions, ops, mixSizes) == 0.0
  {
    if positions != [] {
      var n := |positions| - 1;
      TMixBounds(positions[..n], ops, mixSizes);
      var k := positions[n];
      var gain := 10 - Latency(mixSizes[k]);
      assert 0 <= gain <= 7;
      ScaleBounds(ops[k].importance, gain as real);
    }
  }

  /** The summed importance of the Mix operations at `positions`. */
  function Importance(positions: seq<int>, ops: seq<Operation>): real
    requires forall j :: 0 <= j < |positions| ==> 0 <= positions[j] < |ops|
  {
    if positions == [] then 0.0
    else Importance(positions[..|positions| - 1], ops) + ops[positions[|positions| - 1]].importance
  }

  lemma ScaleBounds(a: real, g: real)
    requires a >= 0.0 && 0.0 <= g <= 7.0
    ensures 0.0 <= a * g <= 7.0 * a
  {
  }
}
