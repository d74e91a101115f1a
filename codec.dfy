/**
 * The chromosome codec of DMFB_ReconfigPlacementProblem: how one operation's
 * bit segment is read. A segment has x_bits + y_bits + 3 bits, bit 0 least
 * significant, laid out as raw x | raw y | orientation bit | 2-bit mix-size
 * code. The decoder reads its fields with `BitSet.get(from, to)` (end
 * exclusive), and does so one bit short for x and y and with an empty range
 * for the orientation; this module models those reads as written.
 */
module Codec {
  import opened JavaLang
  import opened Locations
  import opened OperationSizes
  import opened Operations
  import opened Architectures

  function Pow2(n: nat): (r: nat)
    ensures r >= 1
  {
    if n == 0 then 1 else 2 * Pow2(n - 1)
  }

  /** The least k with n <= 2^k: the integer reading of `ceil(log(n) / log(2))`. */
  function CeilLog2(n: int): (k: nat)
    requires n >= 1
    ensures n <= Pow2(k)
    ensures k > 0 ==> Pow2(k - 1) < n
    decreases n
  {
    if n == 1 then 0 else 1 + CeilLog2((n + 1) / 2)
  }

  /** x_bits: bits for the x coordinate, from the column count. */
  function XBits(arch: Architecture): nat
    requires arch.columns >= 3
  {
    CeilLog2(arch.columns - 2)
  }

  /** y_bits: bits for the y coordinate, from the row count. */
  function YBits(arch: Architecture): nat
    requires arch.rows >= 3
  {
    CeilLog2(arch.rows - 2)
  }

  /** The grids the decoder can read: with fewer than 4 rows or columns a
      width is 0 and `get(k, k - 1)` throws. */
  predicate DecodableGrid(arch: Architecture)
  {
    arch.rows >= 4 && arch.columns >= 4
  }

  /** Bits per operation, as every chromosome variable is created. */
  function SegmentWidth(arch: Architecture): nat
    requires DecodableGrid(arch)
  {
    XBits(arch) + YBits(arch) + 1 + 2
  }

  lemma GridWidthsPositive(arch: Architecture)
    requires DecodableGrid(arch)
    ensures XBits(arch) >= 1 && YBits(arch) >= 1
    ensures Pow2(XBits(arch) - 1) < arch.columns - 2
    ensures Pow2(YBits(arch) - 1) < arch.rows - 2
  {
  }

  /** A BitSet reads false beyond the bits it holds. */
  function Bit(bits: seq<bool>, i: nat): bool
  {
    i < |bits| && bits[i]
  }

  /** `BitSet.get(from, to)` as an unsigned little-endian number; an empty range is 0. */
  function BitsValue(bits: seq<bool>, from: nat, to: nat): nat
    requires from <= to
    decreases (to as int) - (from as int)
  {
    if from == to then 0 else (if Bit(bits, from) then 1 else 0) + 2 * BitsValue(bits, from + 1, to)
  }

  lemma {:induction false} BitsValueBound(bits: seq<bool>, from: nat, to: nat)
    requires from <= to
    ensures BitsValue(bits, from, to) < Pow2(to - from)
    decreases (to as int) - (from as int)
  {
    if from < to {
      BitsValueBound(bits, from + 1, to);
    }
  }

  /** A field's value depends only on the bits inside its range. */
  lemma {:induction false} BitsValueFrame(a: seq<bool>, b: seq<bool>, from: nat, to: nat)
    requires from <= to
    requires forall i :: from <= i < to ==> Bit(a, i) == Bit(b, i)
    ensures BitsValue(a, from, to) == BitsValue(b, from, to)
    decreases (to as int) - (from as int)
  {
    if from < to {
      BitsValueFrame(a, b, from + 1, to);
    }
  }

  /** The raw x field: `get(0, x_bits - 1)`, one bit short of x_bits. */
  function RawX(bits: seq<bool>, xb: nat): nat
    requires xb >= 1
  {
    BitsValue(bits, 0, xb - 1)
  }

  /** The raw y field: `get(x_bits, x_bits + y_bits - 1)`, one bit short of y_bits. */
  function RawY(bits: seq<bool>, xb: nat, yb: nat): nat
    requires yb >= 1
  {
    BitsValue(bits, xb, xb + yb - 1)
  }

  /** The orientation field: `get(x_bits + y_bits, x_bits + y_bits)`, an empty range. */
  function OrientationField(bits: seq<bool>, xb: nat, yb: nat): nat
  {
    BitsValue(bits, xb + yb, xb + yb)
  }

  /** The empty orientation range always reads 0. */
  lemma OrientationFieldIsZero(bits: seq<bool>, xb: nat, yb: nat)
    ensures OrientationField(bits, xb, yb) == 0
  {
  }

  /** The mix-size code: from bit x_bits + y_bits + 1 to the end of the segment. */
  function SizeCode(bits: seq<bool>, xb: nat, yb: nat): nat
    requires xb + yb + 1 <= |bits|
  {
    BitsValue(bits, xb + yb + 1, |bits|)
  }

  /** The mix footprint table (the default branch cannot be reached from two bits). */
  function SizeForCode(code: int): OperationSize
  {
    if code == 0 then OperationSize(2, 2)
    else if code == 1 then OperationSize(2, 3)
    else if code == 2 then OperationSize(1, 4)
    else if code == 3 then OperationSize(2, 4)
    else OperationSize(2, 2)
  }

  /** The four codes name four different footprints. */
  lemma SizeTableInjective(c1: int, c2: int)
    requires 0 <= c1 < 4 && 0 <= c2 < 4
    ensures SizeForCode(c1) == SizeForCode(c2) ==> c1 == c2
  {
  }

  function MixSize(bits: seq<bool>, xb: nat, yb: nat): OperationSize
    requires xb + yb + 1 <= |bits|
  {
    SizeForCode(SizeCode(bits, xb, yb))
  }

  /** On a full-width segment the code has two bits: 0 to 3. */
  lemma SizeCodeFitsTable(bits: seq<bool>, xb: nat, yb: nat)
    requires |bits| == xb + yb + 3
    ensures SizeCode(bits, xb, yb) < 4
  {
    BitsValueBound(bits, xb + yb + 1, |bits|);
  }

  /** The registry a special operation is assigned from. */
  function Registry(arch: Architecture, k: Kind): seq<Location>
    requires IsSpecial(k)
  {
    if k == Sense then arch.sensors else if k == Detect then arch.detectors else arch.heaters
  }

  /** What the decoder needs to look a kind up without throwing: a stored
      placement for Input/Output, a non-empty registry for Sense/Detect/Heat. */
  predicate Decodable(arch: Architecture, kind: Kind, stored: Option<Location>)
  {
    && DecodableGrid(arch)
    && (IsIO(kind) ==> stored.Some?)
    && (IsSpecial(kind) ==> |Registry(arch, kind)| > 0)
  }

  /** The location `decode` gives one operation from its segment:
      Mix/Split/Merge/Store take raw x mod columns + 2 and raw y mod rows + 2;
      Sense/Detect/Heat take the registry entry at raw x mod the registry size
      (raw y is read and dropped); Input/Output keep their stored placement. */
  function DecodeLocation(arch: Architecture, kind: Kind, stored: Option<Location>, bits: seq<bool>): Location
    requires Decodable(arch, kind, stored)
  {
    var xb, yb := XBits(arch), YBits(arch);
    match kind
    case Mix => Location(RawX(bits, xb) % arch.columns + 2, RawY(bits, xb, yb) % arch.rows + 2)
    case Split => Location(RawX(bits, xb) % arch.columns + 2, RawY(bits, xb, yb) % arch.rows + 2)
    case Merge => Location(RawX(bits, xb) % arch.columns + 2, RawY(bits, xb, yb) % arch.rows + 2)
    case Store => Location(RawX(bits, xb) % arch.columns + 2, RawY(bits, xb, yb) % arch.rows + 2)
    case Sense => Registry(arch, kind)[RawX(bits, xb) % |Registry(arch, kind)|]
    case Detect => Registry(arch, kind)[RawX(bits, xb) % |Registry(arch, kind)|]
    case Heat => Registry(arch, kind)[RawX(bits, xb) % |Registry(arch, kind)|]
    case Input => stored.value
    case Output => stored.value
  }

  predicate IsGridKind(k: Kind)
  {
    k == Mix || k == Split || k == Merge || k == Store
  }

  /** A grid-placed operation lands at x = raw x + 2 and y = raw y + 2, never
      past column columns - 2 or row rows - 2: the one-bit-short fields hold
      less than 2^(x_bits - 1) <= columns - 3, so the modulo never wraps. */
  lemma GridPositionBounds(arch: Architecture, kind: Kind, stored: Option<Location>, bits: seq<bool>)
    requires Decodable(arch, kind, stored) && IsGridKind(kind)
    ensures var l := DecodeLocation(arch, kind, stored, bits);
      && l.x == RawX(bits, XBits(arch)) + 2 && 2 <= l.x <= arch.columns - 2
      && l.y == RawY(bits, XBits(arch), YBits(arch)) + 2 && 2 <= l.y <= arch.rows - 2
  {
    var xb, yb := XBits(arch), YBits(arch);
    GridWidthsPositive(arch);
    var rx, ry := RawX(bits, xb), RawY(bits, xb, yb);
    BitsValueBound(bits, 0, xb - 1);
    BitsValueBound(bits, xb, xb + yb - 1);
    assert rx < arch.columns - 2 && ry < arch.rows - 2;
    SmallMod(rx, arch.columns);
    SmallMod(ry, arch.rows);
    assert DecodeLocation(arch, kind, stored, bits) == Location(rx % arch.columns + 2, ry % arch.rows + 2);
  }

  lemma SmallMod(a: int, n: int)
    requires 0 <= a < n
    ensures a % n == a
  {
  }

  /** A special operation is always assigned a cell of its own registry. */
  lemma SpecialLandsInRegistry(arch: Architecture, kind: Kind, stored: Option<Location>, bits: seq<bool>)
    requires Decodable(arch, kind, stored) && IsSpecial(kind)
    ensures DecodeLocation(arch, kind, stored, bits) in Registry(arch, kind)
  {
  }

  /** Three bits of every segment never reach the decoded location or mix
      size: bit x_bits - 1, bit x_bits + y_bits - 1 and the orientation bit. */
  lemma UnreadBitsAreIgnored(arch: Architecture, kind: Kind, stored: Option<Location>, a: seq<bool>, b: seq<bool>)
    requires Decodable(arch, kind, stored)
    requires |a| == |b| == SegmentWidth(arch)
    requires forall i :: (0 <= i < |a| && i != XBits(arch) - 1 && i != XBits(arch) + YBits(arch) - 1
                          && i != XBits(arch) + YBits(arch)) ==> a[i] == b[i]
    ensures DecodeLocation(arch, kind, stored, a) == DecodeLocation(arch, kind, stored, b)
    ensures MixSize(a, XBits(arch), YBits(arch)) == MixSize(b, XBits(arch), YBits(arch))
  {
    var xb, yb := XBits(arch), YBits(arch);
    GridWidthsPositive(arch);
    BitsValueFrame(a, b, 0, xb - 1);
    BitsValueFrame(a, b, xb, xb + yb - 1);
    BitsValueFrame(a, b, xb + yb + 1, |a|);
  }

  // ---- Encoding: the inverse the decoder is meant to undo ----

  /** `n` in `w` little-endian bits (its low `w` bits). */
  function BitsOf(n: nat, w: nat): (s: seq<bool>)
    ensures |s| == w
  {
    if w == 0 then [] else [n % 2 == 1] + BitsOf(n / 2, w - 1)
  }

  /** One segment: raw x, raw y, orientation bit, mix-size code. */
  function Encode(rawX: nat, rawY: nat, orientation: bool, sizeCode: nat, xb: nat, yb: nat): (s: seq<bool>)
    ensures |s| == xb + yb + 3
  {
    BitsOf(rawX, xb) + BitsOf(rawY, yb) + [orientation] + BitsOf(sizeCode, 2)
  }

  /** Reading t bits where BitsOf(n, w) was written gives n back when n has
      at most t significant bits. */
  lemma {:induction false} BitsOfReadBack(s: seq<bool>, off: nat, n: nat, w: nat, t: nat)
    requires off + w <= |s| && s[off..off + w] == BitsOf(n, w)
    requires t <= w && n < Pow2(t)
    ensures BitsValue(s, off, off + t) == n
    decreases t
  {
    if t > 0 {
      assert s[off] == BitsOf(n, w)[0];
      assert s[off + 1..off + w] == BitsOf(n / 2, w - 1);
      BitsOfReadBack(s, off + 1, n / 2, w - 1, t - 1);
    }
  }

  /** Decoding the fields of an encoded segment returns what was encoded, for
      every value the fields as read can hold (x and y lose their top bit,
      since the decoder reads them one bit short). */
  lemma EncodeFieldsRoundTrip(rawX: nat, rawY: nat, orientation: bool, sizeCode: nat, xb: nat, yb: nat)
    requires xb >= 1 && yb >= 1
    requires rawX < Pow2(xb - 1) && rawY < Pow2(yb - 1) && sizeCode < 4
    ensures var s := Encode(rawX, rawY, orientation, sizeCode, xb, yb);
      && RawX(s, xb) == rawX
      && RawY(s, xb, yb) == rawY
      && SizeCode(s, xb, yb) == sizeCode
  {
    var s := Encode(rawX, rawY, orientation, sizeCode, xb, yb);
    assert s[0..xb] == BitsOf(rawX, xb);
    BitsOfReadBack(s, 0, rawX, xb, xb - 1);
    assert s[xb..xb + yb] == BitsOf(rawY, yb);
    BitsOfReadBack(s, xb, rawY, yb, yb - 1);
    assert s[xb + yb + 1..xb + yb + 3] == BitsOf(sizeCode, 2);
    assert Pow2(2) == 4;
    BitsOfReadBack(s, xb + yb + 1, sizeCode, 2, 2);
  }

  /** Every cell with 2 <= x < 2 + 2^(x_bits - 1) and 2 <= y < 2 + 2^(y_bits - 1)
      is the decoded location of some segment, for every grid-placed kind;
      with GridPositionBounds, these are exactly the reachable cells. */
  lemma GridPositionReachable(arch: Architecture, kind: Kind, x: int, y: int, sizeCode: nat)
    requires DecodableGrid(arch) && IsGridKind(kind)
    requires 2 <= x < 2 + Pow2(XBits(arch) - 1) && 2 <= y < 2 + Pow2(YBits(arch) - 1)
    requires sizeCode < 4
    ensures var s := Encode(x - 2, y - 2, false, sizeCode, XBits(arch), YBits(arch));
      && DecodeLocation(arch, kind, None, s) == Location(x, y)
      && MixSize(s, XBits(arch), YBits(arch)) == SizeForCode(sizeCode)
  {
    var xb, yb := XBits(arch), YBits(arch);
    GridWidthsPositive(arch);
    EncodeFieldsRoundTrip(x - 2, y - 2, false, sizeCode, xb, yb);
    SmallMod(x - 2, arch.columns);
    SmallMod(y - 2, arch.rows);
  }

  /** Registry entry k is what a special operation decodes to when its raw x
      is k, for every k the shortened x field can hold. */
  lemma RegistryEntryReachable(arch: Architecture, kind: Kind, k: nat)
    requires DecodableGrid(arch) && IsSpecial(kind)
    requires k < |Registry(arch, kind)| && k < Pow2(XBits(arch) - 1)
    ensures DecodeLocation(arch, kind, None, Encode(k, 0, false, 0, XBits(arch), YBits(arch)))
            == Registry(arch, kind)[k]
  {
    GridWidthsPositive(arch);
    EncodeFieldsRoundTrip(k, 0, false, 0, XBits(arch), YBits(arch));
    SmallMod(k, |Registry(arch, kind)|);
  }
}
