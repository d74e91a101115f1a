/**
 * operation.AbstractOperation with its subclasses Mix, Input and Output (and
 * the Operation interface they implement), folded into one class: the kind
 * decides which of the subclass payloads (a Mix's importance, an Input's or
 * Output's reservoir) is meaningful, the way the Java type does.
 */
module Operations {
  import opened JavaLang
  import opened Locations
  import opened OperationSizes

  /** The nine operation kinds of an assay. */
  datatype Kind = Input | Output | Mix | Split | Merge | Store | Sense | Detect | Heat

  /** The integer type code `getType()` returns for each kind. */
  function Code(k: Kind): int
  {
    match k
    case Input => 1
    case Output => 2
    case Mix => 3
    case Split => 4
    case Merge => 5
    case Store => 6
    case Sense => 7
    case Detect => 8
    case Heat => 9
  }

  /** The kind a type code names, if any. */
  function KindOf(code: int): (r: Option<Kind>)
    ensures r.Some? <==> 1 <= code <= 9
    ensures r.Some? ==> Code(r.value) == code
  {
    if code == 1 then Some(Input)
    else if code == 2 then Some(Output)
    else if code == 3 then Some(Mix)
    else if code == 4 then Some(Split)
    else if code == 5 then Some(Merge)
    else if code == 6 then Some(Store)
    else if code == 7 then Some(Sense)
    else if code == 8 then Some(Detect)
    else if code == 9 then Some(Heat)
    else None
  }

  /** Codes and kinds are in one-to-one correspondence. */
  lemma KindCodeRoundTrip(k: Kind)
    ensures KindOf(Code(k)) == Some(k)
  {
  }

  predicate IsIO(k: Kind)
  {
    k == Input || k == Output
  }

  /** Sense, Detect and Heat need a cell with special hardware. */
  predicate IsSpecial(k: Kind)
  {
    k == Sense || k == Detect || k == Heat
  }

  /** The footprint with height and width exchanged. */
  function Rotated(s: OperationSize): OperationSize
  {
    OperationSize(s.width, s.height)
  }

  /** Rotating twice gives back the footprint. */
  lemma RotatedTwice(s: OperationSize)
    ensures Rotated(Rotated(s)) == s
  {
  }

  class Operation {
    /** ID and type are only assigned by the constructors. */
    const id: int
    const kind: Kind
    /** Mix only: the weight of this mix in the throughput objective. */
    const importance: real
    /** Input and Output only: the 1-based reservoir number. */
    const reservoir: int
    /** null (None) until a constructor or setSize gives one. */
    var size: Option<OperationSize>
    /** null (None) until setPlacement is called. */
    var placement: Option<Location>

    /** `AbstractOperation(int ID, int type)`: no size, no placement. */
    constructor Basic(id: int, kind: Kind)
      ensures this.id == id && this.kind == kind && importance == 0.0 && reservoir == 0
      ensures size == None && placement == None
    {
      this.id := id;
      this.kind := kind;
      importance := 0.0;
      reservoir := 0;
      size := None;
      placement := None;
    }

    /** `AbstractOperation(int ID, int type, OperationSize size)`. */
    constructor Sized(id: int, kind: Kind, size: OperationSize)
      ensures this.id == id && this.kind == kind && importance == 0.0 && reservoir == 0
      ensures this.size == Some(size) && placement == None
    {
      this.id := id;
      this.kind := kind;
      importance := 0.0;
      reservoir := 0;
      this.size := Some(size);
      placement := None;
    }

    /** `Mix(int ID, double importance)`: type 3 and the default 2x2 footprint. */
    constructor Mix(id: int, importance: real)
      ensures this.id == id && kind == Kind.Mix && this.importance == importance && reservoir == 0
      ensures size == Some(OperationSize(2, 2)) && placement == None
    {
      this.id := id;
      kind := Kind.Mix;
      this.importance := importance;
      reservoir := 0;
      size := Some(OperationSize(2, 2));
      placement := None;
    }

    /** `Input(int ID, int reservoir)`: type 1, 1x1, and not yet placed. */
    constructor Input(id: int, reservoir: int)
      ensures this.id == id && kind == Kind.Input && importance == 0.0 && this.reservoir == reservoir
      ensures size == Some(OperationSize(1, 1)) && placement == None
    {
      this.id := id;
      kind := Kind.Input;
      importance := 0.0;
      this.reservoir := reservoir;
      size := Some(OperationSize(1, 1));
      placement := None;
    }

    /** `Output(int ID, int reservoir)`: type 2, 1x1, and not yet placed. */
    constructor Output(id: int, reservoir: int)
      ensures this.id == id && kind == Kind.Output && importance == 0.0 && this.reservoir == reservoir
      ensures size == Some(OperationSize(1, 1)) && placement == None
    {
      this.id := id;
      kind := Kind.Output;
      importance := 0.0;
      this.reservoir := reservoir;
      size := Some(OperationSize(1, 1));
      placement := None;
    }

    /** `setPlacement(x, y)`: only the placement changes. */
    method SetPlacement(x: int, y: int)
      modifies this`placement
      ensures placement == Some(Location(x, y))
    {
      placement := Some(Location(x, y));
    }

    /** `setSize(height, width)` (Mix overrides it with the same behaviour):
        only the size changes. */
    method SetSize(height: int, width: int)
      modifies this`size
      ensures size == Some(OperationSize(height, width))
    {
      size := Some(OperationSize(height, width));
    }

    /** `rotate()`: swaps height and width; a missing size throws, so one is required. */
    method Rotate()
      requires size.Some?
      modifies this`size
      ensures size == Some(Rotated(old(size).value))
    {
      var height := size.value.height;
      var width := size.value.width;
      SetSize(width, height);
    }

    /** `AbstractOperation.toString()`: the type code and a tab, then the
        placement's text when there is one. */
    function BaseString(): string
      reads this
    {
      IntToString(Code(kind)) + "\t" + (if placement.Some? then Locations.ToString(placement.value) else "")
    }

    /** `toString()` as each class overrides it: Input and Output print the
        reservoir instead of the placement; Mix appends its footprint (Java
        prints "null" for a missing one). */
    function ToString(): string
      reads this
    {
      match kind
      case Input => IntToString(Code(kind)) + "\t" + IntToString(reservoir)
      case Output => IntToString(Code(kind)) + "\t" + IntToString(reservoir)
      case Mix => BaseString() + "\t" + (if size.Some? then OperationSizes.ToString(size.value) else "null")
      case _ => BaseString()
    }
  }

  /** Rotating an operation twice restores its footprint, and leaves its placement alone. */
  method RotateTwice(op: Operation)
    requires op.size.Some?
    modifies op
    ensures op.size == old(op.size) && op.placement == old(op.placement)
  {
    op.Rotate();
    op.Rotate();
    RotatedTwice(old(op.size).value);
  }

  /** An Input or Output prints its type and reservoir whatever its placement,
      and its text tells the reservoir. */
  lemma ReservoirStringIgnoresPlacement(a: Operation, b: Operation)
    requires a.kind == b.kind && IsIO(a.kind)
    ensures a.ToString() == b.ToString() <==> a.reservoir == b.reservoir
  {
    if a.ToString() == b.ToString() {
      IntToStringHasNo(Code(a.kind), '\t');
      JoinInjective(IntToString(Code(a.kind)), IntToString(a.reservoir),
                    IntToString(Code(b.kind)), IntToString(b.reservoir), '\t');
      IntToStringInjective(a.reservoir, b.reservoir);
    }
  }

  /** The text of a placed basic operation tells where it is placed. */
  lemma BaseStringShowsPlacement(a: Operation, b: Operation)
    requires a.kind == b.kind && a.placement.Some? && b.placement.Some?
    requires a.BaseString() == b.BaseString()
    ensures a.placement == b.placement
  {
    IntToStringHasNo(Code(a.kind), '\t');
    JoinInjective(IntToString(Code(a.kind)), Locations.ToString(a.placement.value),
                  IntToString(Code(b.kind)), Locations.ToString(b.placement.value), '\t');
    Locations.ToStringInjective(a.placement.value, b.placement.value);
  }
}
