/** operation.OperationSize: the (height, width) footprint of an operation. */
module OperationSizes {
  import opened JavaLang

  /** An immutable footprint: height rows by width columns. */
  datatype OperationSize = OperationSize(height: int, width: int)

  /** `OperationSize.equals(Object)`: false for anything that is not an
      OperationSize, otherwise height and width must both be equal. */
  function Equals(s: OperationSize, o: Instance<OperationSize>): (r: bool)
    ensures r <==> o == Is(s)
  {
    o.Is? && s.height == o.value.height && s.width == o.value.width
  }

  /** `OperationSize.hashCode()`: the hashes of height and width, xor-ed. */
  function Hash(s: OperationSize): bv32
  {
    IntBits(s.height) ^ IntBits(s.width)
  }

  /** `OperationSize.toString()`: height, a tab, width. */
  function ToString(s: OperationSize): string
  {
    IntToString(s.height) + "\t" + IntToString(s.width)
  }

  lemma HashConsistent(a: OperationSize, b: OperationSize)
    requires Equals(a, Is(b))
    ensures Hash(a) == Hash(b)
  {
  }

  /** Orientation matters: a 2x3 footprint is not a 3x2 one, though they hash alike. */
  lemma TransposedSizesDiffer()
    ensures !Equals(OperationSize(2, 3), Is(OperationSize(3, 2)))
    ensures Hash(OperationSize(2, 3)) == Hash(OperationSize(3, 2))
  {
  }

  lemma ToStringInjective(a: OperationSize, b: OperationSize)
    requires ToString(a) == ToString(b)
    ensures a == b
  {
    IntToStringHasNo(a.height, '\t');
    IntToStringHasNo(b.height, '\t');
    JoinInjective(IntToString(a.height), IntToString(a.width), IntToString(b.height), IntToString(b.width), '\t');
    IntToStringInjective(a.height, b.height);
    IntToStringInjective(a.width, b.width);
  }
}
