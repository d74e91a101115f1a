/**
 * The single entries of the constraint vector DMFB_ReconfigPlacementProblem
 * builds: the overlap test of two footprints, the boundary test and the
 * special-cell test. Each entry is 0.0 when satisfied and -1.0 when violated.
 */
module Constraints {
  import opened JavaLang
  import opened Locations
  import opened OperationSizes
  import opened Operations
  import opened Architectures
  import opened Codec

  /** The cells [x, x + width) x [y, y + height) an operation at `l` covers. */
  function Cells(l: Location, height: int, width: int): set<Location>
  {
    set j, k | 0 <= j < width && 0 <= k < height :: Offset(l, j, k)
  }

  /** The cell `j` columns right of and `k` rows below `l`. */
  function Offset(l: Location, j: int, k: int): Location
  {
    Location(l.x + j, l.y + k)
  }

  /** The footprint used for the overlap test: the declared one, or with
      height and width exchanged when the orientation is not 0. */
  function Oriented(size: OperationSize, orientation: int): OperationSize
  {
    if orientation == 0 then size else Rotated(size)
  }

  /** Two non-empty axis-aligned rectangles share a cell. */
  predicate RectanglesMeet(a: Location, ha: int, wa: int, b: Location, hb: int, wb: int)
  {
    && 0 < ha && 0 < wa && 0 < hb && 0 < wb
    && a.x < b.x + wb && b.x < a.x + wa
    && a.y < b.y + hb && b.y < a.y + ha
  }

  /** The cell sets meet exactly when the rectangles overlap. */
  lemma CellsMeetIff(a: Location, ha: int, wa: int, b: Location, hb: int, wb: int)
    ensures Cells(a, ha, wa) * Cells(b, hb, wb) != {} <==> RectanglesMeet(a, ha, wa, b, hb, wb)
  {
    if RectanglesMeet(a, ha, wa, b, hb, wb) {
      var x := if a.x < b.x then b.x else a.x;
      var y := if a.y < b.y then b.y else a.y;
      assert Offset(a, x - a.x, y - a.y) in Cells(a, ha, wa);
      assert Offset(b, x - b.x, y - b.y) in Cells(b, hb, wb);
      assert Offset(a, x - a.x, y - a.y) == Offset(b, x - b.x, y - b.y);
      assert Offset(a, x - a.x, y - a.y) in Cells(a, ha, wa) * Cells(b, hb, wb);
    }
  }

  /** An overlap entry: -1 when the two oriented footprints share a cell. */
  function OverlapEntry(lu: Location, su: OperationSize, ou: int, lv: Location, sv: OperationSize, ov: int): real
  {
    var fu, fv := Oriented(su, ou), Oriented(sv, ov);
    if Cells(lu, fu.height, fu.width) * Cells(lv, fv.height, fv.width) == {} then 0.0 else -1.0
  }

  /** Overlap is symmetric, is -1 exactly when the oriented rectangles meet,
      and two operations with non-empty footprints at one location always clash. */
  lemma OverlapEntryMeaning(lu: Location, su: OperationSize, ou: int, lv: Location, sv: OperationSize, ov: int)
    ensures OverlapEntry(lu, su, ou, lv, sv, ov) == OverlapEntry(lv, sv, ov, lu, su, ou)
    ensures var fu, fv := Oriented(su, ou), Oriented(sv, ov);
      (OverlapEntry(lu, su, ou, lv, sv, ov) == -1.0
       <==> RectanglesMeet(lu, fu.height, fu.width, lv, fv.height, fv.width))
    ensures lu == lv && su.height > 0 && su.width > 0 && sv.height > 0 && sv.width > 0
      ==> OverlapEntry(lu, su, ou, lv, sv, ov) == -1.0
  {
    var fu, fv := Oriented(su, ou), Oriented(sv, ov);
    CellsMeetIff(lu, fu.height, fu.width, lv, fv.height, fv.width);
    var cu, cv := Cells(lu, fu.height, fu.width), Cells(lv, fv.height, fv.width);
    assert cu * cv == cv * cu;
  }

  /** `inBoundary`: false on column/row 1 or less and on column `columns` /
      row `rows` or more. */
  predicate InBoundary(arch: Architecture, l: Location)
  {
    !(l.x <= 1 || l.x >= arch.columns || l.y <= 1 || l.y >= arch.rows)
  }

  function BoundaryEntry(arch: Architecture, l: Location): (r: real)
    ensures r == 0.0 <==> 2 <= l.x <= arch.columns - 1 && 2 <= l.y <= arch.rows - 1
    ensures r == 0.0 || r == -1.0
  {
    if InBoundary(arch, l) then 0.0 else -1.0
  }

  /** The capability entry of a Sense/Detect/Heat: 0 when its location is a
      cell of its registry (compared with Location.equals). */
  function CapabilityEntry(arch: Architecture, kind: Kind, l: Location): real
    requires IsSpecial(kind)
  {
    if l in Registry(arch, kind) then 0.0 else -1.0
  }

  /** The entries one operation contributes, in order: a boundary entry
      unless it is an Input or Output, then a capability entry if it is a
      Sense, Detect or Heat. */
  function OperationEntries(arch: Architecture, kind: Kind, l: Location): (r: seq<real>)
    ensures |r| == (if IsIO(kind) then 0 else 1) + (if IsSpecial(kind) then 1 else 0)
  {
    (if !IsIO(kind) then [BoundaryEntry(arch, l)] else [])
    + (if IsSpecial(kind) then [CapabilityEntry(arch, kind, l)] else [])
  }

  /** Decoded operations never fail their own placement checks, except a
      special operation whose registry cell lies on or outside the border:
      grid kinds are always in bounds and special kinds always on a capable cell. */
  lemma DecodedEntriesSatisfied(arch: Architecture, kind: Kind, stored: Option<Location>, bits: seq<bool>)
    requires Decodable(arch, kind, stored) && !IsIO(kind)
    ensures var l := DecodeLocation(arch, kind, stored, bits);
      && (IsGridKind(kind) ==> OperationEntries(arch, kind, l) == [0.0])
      && (IsSpecial(kind) ==> OperationEntries(arch, kind, l)[1] == 0.0)
  {
    if IsGridKind(kind) {
      GridPositionBounds(arch, kind, stored, bits);
    } else {
      SpecialLandsInRegistry(arch, kind, stored, bits);
    }
  }
}
