/** misc.Location: the coordinate pair every placement is made of. */
module Locations {
  import opened JavaLang

  /** An immutable (x, y) grid coordinate; x is the column, y the row. */
  datatype Location = Location(x: int, y: int)

  /** `Location.equals(Object)`: false for anything that is not a Location,
      otherwise both coordinates must be equal. */
  function Equals(l: Location, o: Instance<Location>): (r: bool)
    ensures r <==> o == Is(l)
  {
    o.Is? && l.x == o.value.x && l.y == o.value.y
  }

  /** `Location.hashCode()`: the hashes of the two coordinates, xor-ed. */
  function Hash(l: Location): bv32
  {
    IntBits(l.x) ^ IntBits(l.y)
  }

  /** `Location.toString()`: x, a tab, y. */
  function ToString(l: Location): string
  {
    IntToString(l.x) + "\t" + IntToString(l.y)
  }

  /** equals and hashCode agree: equal locations hash alike. */
  lemma HashConsistent(a: Location, b: Location)
    requires Equals(a, Is(b))
    ensures Hash(a) == Hash(b)
  {
  }

  /** The xor hash cannot tell (a, b) from (b, a), although equals can. */
  lemma SwappedCoordinatesCollide(a: int, b: int)
    ensures Hash(Location(a, b)) == Hash(Location(b, a))
    ensures Equals(Location(a, b), Is(Location(b, a))) <==> a == b
  {
  }

  /** The text form loses nothing: distinct locations print differently. */
  lemma ToStringInjective(a: Location, b: Location)
    requires ToString(a) == ToString(b)
    ensures a == b
  {
    IntToStringHasNo(a.x, '\t');
    IntToStringHasNo(b.x, '\t');
    JoinInjective(IntToString(a.x), IntToString(a.y), IntToString(b.x), IntToString(b.y), '\t');
    IntToStringInjective(a.x, b.x);
    IntToStringInjective(a.y, b.y);
  }
}
