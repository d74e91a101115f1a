/**
 * DMFB_ReconfigPlacementProblem: the candidate-evaluation engine. Its
 * configuration is fixed at construction; `evaluate` decodes a candidate,
 * fills its constraint vector, scores it and updates the archive of stored
 * placements, the one field that changes. Each method is proved against the
 * functions of module Evaluation, and the archive against module Archive.
 */
module Problem {
  import opened JavaLang
  import opened Locations
  import opened OperationSizes
  import opened Operations
  import opened Graphs
  import opened Architectures
  import opened Placements
  import opened Codec
  import opened Constraints
  import opened Objectives
  import opened Evaluation
  import Archive

  /** The HashSet of the cells at `[x, x + width) x [y, y + height)`, built
      column by column as the nested loops of `getConstraints` do. */
  method Area(l: Location, height: int, width: int) returns (cells: set<Location>)
    ensures cells == Cells(l, height, width)
  {
    cells := {};
    var j := 0;
    while j < width
      invariant 0 <= j && (j <= width || j == 0)
      invariant cells == Cells(l, height, j)
    {
      var k := 0;
      while k < height
        invariant 0 <= k && (k <= height || k == 0)
        invariant cells == Cells(l, height, j) + Column(l, j, k)
      {
        cells := cells + {Offset(l, j, k)};
        ColumnStep(l, j, k);
        k := k + 1;
      }
      if height <= 0 {
        NoColumn(l, j, k);
        NoColumn(l, j, height);
      }
      CellsStep(l, height, j);
      j := j + 1;
    }
    if width <= 0 {
      NoCells(l, height, 0);
      NoCells(l, height, width);
    }
  }

  lemma NoCells(l: Location, height: int, width: int)
    requires width <= 0
    ensures Cells(l, height, width) == {}
  {
  }

  /** The first `k` cells of column `j`. */
  ghost function Column(l: Location, j: int, k: int): set<Location>
  {
    set k' | 0 <= k' < k :: Offset(l, j, k')
  }

  lemma NoColumn(l: Location, j: int, k: int)
    requires k <= 0
    ensures Column(l, j, k) == {}
  {
  }

  lemma ColumnStep(l: Location, j: int, k: int)
    requires k >= 0
    ensures Column(l, j, k + 1) == Column(l, j, k) + {Offset(l, j, k)}
  {
  }

  lemma CellsStep(l: Location, height: int, j: int)
    requires j >= 0
    ensures Cells(l, height, j + 1) == Cells(l, height, j) + Column(l, j, height)
  {
    forall c | c in Cells(l, height, j + 1)
      ensures c in Cells(l, height, j) + Column(l, j, height)
    {
      var j', k' :| 0 <= j' < j + 1 && 0 <= k' < height && c == Offset(l, j', k');
      if j' < j {
        assert c in Cells(l, height, j);
      } else {
        assert c in Column(l, j, height);
      }
    }
  }

  /** The `pass` loop: no cell of the first area is contained in the second. */
  method Disjoint(areaU: set<Location>, areaV: set<Location>) returns (pass: bool)
    ensures pass <==> areaU * areaV == {}
  {
    pass := true;
    var rest := areaU;
    while rest != {}
      invariant rest <= areaU
      invariant pass <==> (areaU - rest) * areaV == {}
      decreases |rest|
    {
      var u :| u in rest;
      if u in areaV {
        pass := false;
      }
      rest := rest - {u};
    }
    assert areaU - rest == areaU;
  }

  lemma {:induction false} PrefixEntriesGrow(arch: Architecture, ops: seq<Operation>, placement: seq<Location>, n: nat, m: nat)
    requires n <= m <= |ops|
    requires forall i :: 0 <= i < |ops| ==> 1 <= ops[i].id <= |placement|
    ensures |PlacementEntries(arch, ops[..n], placement)| <= |PlacementEntries(arch, ops[..m], placement)|
    decreases m - n
  {
    if n < m {
      PrefixEntriesGrow(arch, ops, placement, n + 1, m);
      assert ops[..n + 1][..n] == ops[..n];
    }
  }

  /** Extending the prefix by one operation appends that operation's entries,
      and the prefix's entries never outgrow the whole list's. */
  lemma PlacementEntriesStep(arch: Architecture, ops: seq<Operation>, placement: seq<Location>, n: nat,
                              prefix: seq<real>, written: seq<real>)
    requires n < |ops|
    requires forall i :: 0 <= i < |ops| ==> 1 <= ops[i].id <= |placement|
    requires written == prefix + PlacementEntries(arch, ops[..n], placement)
    ensures var entries := OperationEntries(arch, ops[n].kind, placement[ops[n].id - 1]);
      && written + entries == prefix + PlacementEntries(arch, ops[..n + 1], placement)
      && |written + entries| <= |prefix| + |PlacementEntries(arch, ops, placement)|
  {
    PlacementEntriesUnfold(arch, ops, placement, n);
    PlacementEntriesBound(arch, ops, placement, n + 1);
    Associative(prefix, PlacementEntries(arch, ops[..n], placement),
                OperationEntries(arch, ops[n].kind, placement[ops[n].id - 1]));
  }

  /** Entry `j` of the overlap entries is the entry of edge `j`. */
  lemma {:induction false} OverlapEntryAt(ops: seq<Operation>, edges: seq<Edge<Operation>>, placement: seq<Location>,
                                          orientations: map<int, int>, j: nat)
    requires OverlapReady(ops, edges, placement, orientations) && j < |edges|
    ensures var e := edges[j];
      && e.u.size.Some? && e.v.size.Some?
      && 1 <= e.u.id <= |placement| && 1 <= e.v.id <= |placement|
      && e.u.id - 1 in orientations && e.v.id - 1 in orientations
    ensures OverlapEntries(ops, edges, placement, orientations)[j] == EdgeEntry(edges[j], placement, orientations)
    decreases |edges|
  {
    EdgeReady(ops, edges, placement, orientations, j);
    var n := |edges| - 1;
    if j < n {
      OverlapEntryAt(ops, edges[..n], placement, orientations, j);
    }
  }

  lemma Associative<T>(a: seq<T>, b: seq<T>, c: seq<T>)
    ensures (a + b) + c == a + (b + c)
  {
  }

  lemma PlacementEntriesUnfold(arch: Architecture, ops: seq<Operation>, placement: seq<Location>, n: nat)
    requires n < |ops|
    requires forall i :: 0 <= i < |ops| ==> 1 <= ops[i].id <= |placement|
    ensures PlacementEntries(arch, ops[..n + 1], placement)
      == PlacementEntries(arch, ops[..n], placement) + OperationEntries(arch, ops[n].kind, placement[ops[n].id - 1])
  {
    assert ops[..n + 1][..n] == ops[..n];
  }

  lemma PlacementEntriesBound(arch: Architecture, ops: seq<Operation>, placement: seq<Location>, n: nat)
    requires n <= |ops|
    requires forall i :: 0 <= i < |ops| ==> 1 <= ops[i].id <= |placement|
    ensures |PlacementEntries(arch, ops[..n], placement)| <= |PlacementEntries(arch, ops, placement)|
  {
    PrefixEntriesGrow(arch, ops, placement, n, |ops|);
    assert ops[..|ops|] == ops;
  }

  class PlacementProblem {
    const architecture: Architecture
    const operations: seq<Operation>
    const interferenceGraph: Graph<Operation>
    const communicationGraph: Graph<Operation>
    const alpha: real
    const xBits: nat
    const yBits: nat
    /** ID - 1 of every Mix, in list order. */
    const mixPositions: seq<int>
    /** The length of the constraint vector. */
    const numberOfConstraints: nat
    /** The archive of stored placements (a HashSet in iteration order). */
    var placements: seq<Placement>
    /** The feasible candidates evaluated so far, oldest first. */
    ghost var feasibleSeen: seq<Placement>

    ghost predicate Valid()
      reads this, operations
    {
      && WellFormed(architecture, operations, interferenceGraph, communicationGraph)
      && xBits == XBits(architecture) && yBits == YBits(architecture)
      && mixPositions == MixPositions(operations)
      && numberOfConstraints == |interferenceGraph.edges| + NumSpecial(operations) + (|operations| - NumIO(operations))
      && placements == Archive.Stored(feasibleSeen)
    }

    /** The constructor, given the special and I/O counts as Main computes
        them: the archive starts empty. */
    constructor (arch: Architecture, ops: seq<Operation>, ig: Graph<Operation>, cg: Graph<Operation>, a: real,
                 numSpecialOps: int, numIO: int)
      requires WellFormed(arch, ops, ig, cg)
      requires numSpecialOps == NumSpecial(ops) && numIO == NumIO(ops)
      ensures architecture == arch && operations == ops && alpha == a
      ensures interferenceGraph == ig && communicationGraph == cg
      ensures numberOfConstraints == |ig.edges| + numSpecialOps + (|ops| - numIO)
      ensures placements == [] && feasibleSeen == []
      ensures Valid()
    {
      architecture := arch;
      operations := ops;
      interferenceGraph := ig;
      communicationGraph := cg;
      alpha := a;
      numberOfConstraints := |ig.edges| + numSpecialOps + (|ops| - numIO);
      placements := [];
      feasibleSeen := [];
      var positions: seq<int> := [];
      for i := 0 to |ops|
        invariant positions == MixPositions(ops[..i])
      {
        assert ops[..i + 1][..i] == ops[..i];
        if Code(ops[i].kind) == 3 {
          positions := positions + [ops[i].id - 1];
        }
      }
      assert ops[..|ops|] == ops;
      mixPositions := positions;
      xBits := XBits(arch);
      yBits := YBits(arch);
    }

    /** `getPlacements`. */
    function GetPlacements(): (r: seq<Placement>)
      reads this
      ensures r == placements
    {
      placements
    }

    /** `decode`: one location per operation, a footprint per Mix keyed by its
        index, orientation 0 for every operation (the orientation field is an
        empty range, and the fall-through overwrites it with 0 anyway), and the
        scores of the result. */
    method Decode(segments: seq<seq<bool>>) returns (sol: Placement)
      requires DecodeReady(architecture, operations, communicationGraph)
      requires xBits == XBits(architecture) && yBits == YBits(architecture) && mixPositions == MixPositions(operations)
      requires SegmentsFit(architecture, operations, segments)
      ensures sol == Evaluation.Decode(architecture, operations, communicationGraph, alpha, segments)
    {
      var placement, mixSizes, orientations := DecodeSegments(segments);
      DecodePrepared(architecture, operations, communicationGraph, segments, placement, mixSizes);
      var f1 := DCommOf(placement);
      var t := TMixOf(mixSizes);
      var f2 := -t;
      var f := Scalarise(alpha, f1, f2);
      sol := Placement(placement, mixSizes, orientations, f1, f2, f);
      DecodeAssembled(architecture, operations, communicationGraph, alpha, segments, placement, mixSizes, f1, f2);
    }

    /** The loop of `decode` over the operations and their segments. */
    method DecodeSegments(segments: seq<seq<bool>>)
      returns (placement: seq<Location>, mixSizes: map<int, OperationSize>, orientations: map<int, int>)
      requires DecodeReady(architecture, operations, communicationGraph)
      requires xBits == XBits(architecture) && yBits == YBits(architecture)
      requires SegmentsFit(architecture, operations, segments)
      ensures placement == DecodedLocations(architecture, operations, segments)
      ensures mixSizes == MixSizes(architecture, operations, segments)
      ensures orientations == Orientations(|operations|)
    {
      placement, mixSizes, orientations := [], map[], map[];
      var i := 0;
      while i < |segments|
        invariant 0 <= i <= |segments|
        invariant |placement| == i
        invariant forall t :: 0 <= t < i ==>
          placement[t] == DecodeLocation(architecture, operations[t].kind, operations[t].placement, segments[t])
        invariant mixSizes == MixSizesUpTo(architecture, operations, segments, i)
        invariant orientations == Orientations(i)
      {
        var loc;
        loc, mixSizes, orientations := DecodeOperation(i, segments[i], mixSizes, orientations);
        MixSizesStep(architecture, operations, segments, i);
        placement := placement + [loc];
        i := i + 1;
      }
      ghost var d := DecodedLocations(architecture, operations, segments);
      assert placement == d;
    }

    /** One iteration of that loop, for operation `i` (whose ID is i + 1): a
        Mix's footprint from the size code, an orientation read for
        Mix/Split/Merge and then overwritten with 0 whatever the kind, and the
        position. */
    method DecodeOperation(i: nat, bits: seq<bool>, mixSizes: map<int, OperationSize>, orientations: map<int, int>)
      returns (loc: Location, sizes: map<int, OperationSize>, orients: map<int, int>)
      requires i < |operations| && operations[i].id == i + 1
      requires Decodable(architecture, operations[i].kind, operations[i].placement) && |bits| == SegmentWidth(architecture)
      requires xBits == XBits(architecture) && yBits == YBits(architecture)
      ensures loc == DecodeLocation(architecture, operations[i].kind, operations[i].placement, bits)
      ensures sizes == if operations[i].kind == Mix then mixSizes[i := MixSize(bits, xBits, yBits)] else mixSizes
      ensures orients == orientations[i := 0]
    {
      var op := operations[i];
      sizes, orients := mixSizes, orientations;
      if op.kind == Mix {
        var code := SizeCode(bits, xBits, yBits);
        sizes := sizes[i := SizeForCode(code)];
      }
      if op.kind == Mix || op.kind == Split || op.kind == Merge {
        var orientation := OrientationField(bits, xBits, yBits);
        orients := orients[op.id - 1 := orientation];
      }
      loc := DecodeOne(op, bits);
      orients := orients[op.id - 1 := 0];
    }

    /** The position `decode` gives one operation: from the two one-bit-short
        fields for Mix/Split/Merge/Store, from the registry for Sense/Detect/Heat,
        the stored placement for Input/Output. */
    method DecodeOne(op: Operation, bits: seq<bool>) returns (l: Location)
      requires Decodable(architecture, op.kind, op.placement) && |bits| == SegmentWidth(architecture)
      requires xBits == XBits(architecture) && yBits == YBits(architecture)
      ensures l == DecodeLocation(architecture, op.kind, op.placement, bits)
    {
      var x, y;
      if IsGridKind(op.kind) {
        x := RawX(bits, xBits) % architecture.columns + 2;
        y := RawY(bits, xBits, yBits) % architecture.rows + 2;
      } else if IsSpecial(op.kind) {
        var rawX := RawX(bits, xBits);
        var registry := Registry(architecture, op.kind);
        var selection := rawX % |registry|;
        x, y := registry[selection].x, registry[selection].y;
      } else {
        x, y := op.placement.value.x, op.placement.value.y;
      }
      l := Location(x, y);
    }

    /** `D_comm`. */
    method DCommOf(placement: seq<Location>) returns (sum: real)
      requires forall j :: 0 <= j < |communicationGraph.edges| ==>
        1 <= communicationGraph.edges[j].u.id <= |placement| && 1 <= communicationGraph.edges[j].v.id <= |placement|
      ensures sum == DComm(communicationGraph.edges, placement)
    {
      var edges := communicationGraph.edges;
      sum := 0.0;
      for j := 0 to |edges|
        invariant sum == DComm(edges[..j], placement)
      {
        assert edges[..j + 1][..j] == edges[..j];
        var e := edges[j];
        var u, v := placement[e.u.id - 1], placement[e.v.id - 1];
        sum := sum + (GetCost(e) * ManhattanDistance(u, v)) as real;
      }
      assert edges[..|edges|] == edges;
    }

    /** `T_mix`. */
    method TMixOf(mixSizes: map<int, OperationSize>) returns (sum: real)
      requires forall j :: 0 <= j < |mixPositions| ==> 0 <= mixPositions[j] < |operations| && mixPositions[j] in mixSizes
      ensures sum == TMix(mixPositions, operations, mixSizes)
    {
      sum := 0.0;
      for j := 0 to |mixPositions|
        invariant sum == TMix(mixPositions[..j], operations, mixSizes)
      {
        assert mixPositions[..j + 1][..j] == mixPositions[..j];
        var i := mixPositions[j];
        var latency := Latency(mixSizes[i]);
        sum := sum + operations[i].importance * (10 - latency) as real;
      }
      assert mixPositions[..|mixPositions|] == mixPositions;
    }

    /** `getConstraints`: the overlap entries of the interference edges, then
        each operation's boundary and capability entries, written through one
        moving index that ends exactly at the array's length. */
    method GetConstraints(sol: Placement) returns (c: array<real>)
      requires Valid()
      requires OverlapReady(operations, interferenceGraph.edges, sol.placement, sol.orientations)
      ensures fresh(c)
      ensures c[..] == ConstraintVector(architecture, operations, interferenceGraph, sol)
    {
      c := new real[numberOfConstraints];
      var i := PutOverlapEntries(c, sol.placement, sol.orientations);
      i := PutPlacementEntries(c, i, sol.placement, c[..i]);
    }

    /** The first loop of `getConstraints`: for each interference edge, build
        both areas from the declared footprints (exchanged when the orientation
        is not 0) and write 0 if they are disjoint, -1 otherwise. */
    method PutOverlapEntries(c: array<real>, placement: seq<Location>, orientations: map<int, int>) returns (i: nat)
      requires OverlapReady(operations, interferenceGraph.edges, placement, orientations)
      requires |interferenceGraph.edges| <= c.Length
      modifies c
      ensures i == |interferenceGraph.edges|
      ensures c[..i] == OverlapEntries(operations, interferenceGraph.edges, placement, orientations)
    {
      var edges := interferenceGraph.edges;
      ghost var target := OverlapEntries(operations, edges, placement, orientations);
      i := 0;
      for j := 0 to |edges|
        invariant i == j
        invariant c[..i] == target[..i]
      {
        OverlapEntryAt(operations, edges, placement, orientations, j);
        var entry := EdgeTest(edges[j], placement, orientations);
        c[i] := entry;
        assert c[..i + 1] == target[..i + 1];
        i := i + 1;
      }
    }

    /** The body of the first loop of `getConstraints` for one edge: the
        footprints of both ends (swapped when rotated), their cells, and 0 or
        -1 by whether the cell sets are disjoint. */
    method EdgeTest(e: Edge<Operation>, placement: seq<Location>, orientations: map<int, int>) returns (entry: real)
      requires e.u.size.Some? && e.v.size.Some?
      requires 1 <= e.u.id <= |placement| && 1 <= e.v.id <= |placement|
      requires e.u.id - 1 in orientations && e.v.id - 1 in orientations
      ensures entry == EdgeEntry(e, placement, orientations)
    {
      var fu := if orientations[e.u.id - 1] == 0 then e.u.size.value else Rotated(e.u.size.value);
      var areaU := Area(placement[e.u.id - 1], fu.height, fu.width);
      var fv := if orientations[e.v.id - 1] == 0 then e.v.size.value else Rotated(e.v.size.value);
      var areaV := Area(placement[e.v.id - 1], fv.height, fv.width);
      var pass := Disjoint(areaU, areaV);
      entry := if pass then 0.0 else -1.0;
    }

    /** The second loop of `getConstraints`, from index `start` to the end of the array. */
    method PutPlacementEntries(c: array<real>, start: nat, placement: seq<Location>, ghost prefix: seq<real>) returns (i: nat)
      requires forall n :: 0 <= n < |operations| ==> 1 <= operations[n].id <= |placement|
      requires start == |prefix| && start + |PlacementEntries(architecture, operations, placement)| == c.Length
      requires c[..start] == prefix
      modifies c
      ensures c[..] == prefix + PlacementEntries(architecture, operations, placement)
    {
      i := start;
      for n := 0 to |operations|
        invariant i <= c.Length
        invariant c[..i] == prefix + PlacementEntries(architecture, operations[..n], placement)
      {
        i := PutEntriesOf(c, i, n, placement, prefix);
      }
      assert operations[..|operations|] == operations;
      assert c[..] == c[..i];
    }

    /** One iteration of that loop, for operation `n`, extending what is written. */
    method PutEntriesOf(c: array<real>, i: nat, n: nat, placement: seq<Location>, ghost prefix: seq<real>) returns (next: nat)
      requires n < |operations|
      requires forall n :: 0 <= n < |operations| ==> 1 <= operations[n].id <= |placement|
      requires |prefix| + |PlacementEntries(architecture, operations, placement)| == c.Length
      requires i <= c.Length && c[..i] == prefix + PlacementEntries(architecture, operations[..n], placement)
      modifies c
      ensures next <= c.Length
      ensures c[..next] == prefix + PlacementEntries(architecture, operations[..n + 1], placement)
    {
      ghost var written := c[..i];
      var op := operations[n];
      PlacementEntriesStep(architecture, operations, placement, n, prefix, written);
      next := PutOperationEntries(c, i, op.kind, placement[op.id - 1]);
    }

    /** One iteration of that loop: a boundary entry unless the type is 1 or 2,
        then, flagged by `changed`, a capability entry for types 7, 8 and 9. */
    method PutOperationEntries(c: array<real>, i: nat, kind: Kind, l: Location) returns (next: nat)
      requires i + |OperationEntries(architecture, kind, l)| <= c.Length
      modifies c
      ensures next == i + |OperationEntries(architecture, kind, l)|
      ensures c[..next] == old(c[..i]) + OperationEntries(architecture, kind, l)
    {
      next := i;
      var constraint := 0.0;
      var changed := false;
      if Code(kind) != 1 && Code(kind) != 2 {
        constraint := if InBoundary(architecture, l) then 0.0 else -1.0;
        c[next] := constraint;
        next := next + 1;
      }
      if Code(kind) == 7 {
        constraint := if l in architecture.sensors then 0.0 else -1.0;
        changed := true;
      } else if Code(kind) == 8 {
        constraint := if l in architecture.detectors then 0.0 else -1.0;
        changed := true;
      } else if Code(kind) == 9 {
        constraint := if l in architecture.heaters then 0.0 else -1.0;
        changed := true;
      }
      if changed {
        c[next] := constraint;
        next := next + 1;
      }
    }

    /** `evaluate`: decode, constrain and score the candidate; if it is
        feasible, prune the archive against it and store it unless something
        survived the pruning. An infeasible candidate leaves the archive alone. */
    method Evaluate(segments: seq<seq<bool>>) returns (objective: real, constraints: seq<real>)
      requires Valid() && SegmentsFit(architecture, operations, segments)
      modifies this`placements, this`feasibleSeen
      ensures Valid()
      ensures var sol := old(Evaluation.Decode(architecture, operations, communicationGraph, alpha, segments));
        && objective == sol.obj
        && constraints == old(ConstraintVector(architecture, operations, interferenceGraph, sol))
        && feasibleSeen == old(feasibleSeen) + (if Feasible(constraints) then [sol] else [])
        && placements == (if Feasible(constraints) then Archive.Update(old(placements), sol) else old(placements))
    {
      var sol := Decode(segments);
      DecodedOverlapReady(architecture, operations, interferenceGraph, communicationGraph, alpha, segments);
      var c := GetConstraints(sol);
      constraints := c[..];
      objective := sol.obj;
      if Feasible(constraints) {
        Record(sol);
      }
    }

    /** A feasible candidate goes through the archive update and joins the
        history the archive summarises. */
    method Record(sol: Placement)
      requires placements == Archive.Stored(feasibleSeen)
      modifies this`placements, this`feasibleSeen
      ensures feasibleSeen == old(feasibleSeen) + [sol]
      ensures placements == Archive.Update(old(placements), sol) == Archive.Stored(feasibleSeen)
    {
      Store(sol);
      assert (feasibleSeen + [sol])[..|feasibleSeen|] == feasibleSeen;
      feasibleSeen := feasibleSeen + [sol];
    }

    /** The archive update of a feasible candidate: the iterator loop removes
        each stored placement whose Obj exceeds the running best (initially the
        candidate's), then the candidate is added unless a stored placement
        `equals` its location list. */
    method Store(sol: Placement)
      modifies this`placements
      ensures placements == Archive.Update(old(placements), sol)
    {
      placements := PruneArchive(placements, sol.obj);
      var already := Contains(placements, sol.placement);
      if !already {
        placements := placements + [sol];
      }
    }
  }

  /** The iterator loop of `evaluate`: a stored placement whose Obj exceeds the
      running best is removed; otherwise it stays and its Obj becomes the best. */
  method PruneArchive(archive: seq<Placement>, start: real) returns (kept: seq<Placement>)
    ensures kept == Archive.Prune(archive, start)
  {
    var best := start;
    kept := [];
    var rest := archive;
    while rest != []
      invariant Archive.Prune(archive, start) == kept + Archive.Prune(rest, best)
      decreases |rest|
    {
      var p := rest[0];
      if !(p.obj > best) {
        Associative(kept, [p], Archive.Prune(rest[1..], p.obj));
        kept := kept + [p];
        best := p.obj;
      }
      rest := rest[1..];
    }
  }

  /** The `already` loop of `evaluate`: whether a stored placement `equals` the
      candidate's location list. */
  method Contains(archive: seq<Placement>, locations: seq<Location>) returns (already: bool)
    ensures already <==> Archive.AlreadyStored(archive, locations)
  {
    already := false;
    for j := 0 to |archive|
      invariant already <==> exists t :: 0 <= t < j && Placements.Equals(archive[t], Is(locations))
    {
      if Placements.Equals(archive[j], Is(locations)) {
        already := true;
      }
    }
  }

  /** Evaluating a run of candidates keeps at most one placement in the
      archive, the earliest feasible one of minimal Obj. */
  lemma ArchiveHoldsFirstMinimum(p: PlacementProblem)
    requires p.Valid()
    ensures |p.placements| <= 1
    ensures p.placements == [] <==> p.feasibleSeen == []
    ensures forall k :: Archive.FirstMinimum(p.feasibleSeen, k) ==> p.placements == [p.feasibleSeen[k]]
  {
    Archive.StoredIsFirstMinimum(p.feasibleSeen);
  }
}
