/**
 * misc.Placement: one decoded candidate -- a location per operation (indexed
 * by ID - 1), the decoded footprint of each Mix, the orientation of each
 * operation, and its three scores. All fields are final and there are no
 * setters, so the type is a record and never changes once built.
 */
module Placements {
  import opened JavaLang
  import opened Locations
  import opened OperationSizes

  /** `tMix` holds what the constructor's t_mix argument receives; the decoder
      passes the negated throughput there. */
  datatype Placement = Placement(
    placement: seq<Location>,
    mixSizes: map<int, OperationSize>,
    orientations: map<int, int>,
    dComm: real,
    tMix: real,
    obj: real)

  /** A Location is never a List, so this is the argument `ArrayList.equals`
      receives when it is handed one. */
  function LocationAsObject(l: Location): Instance<seq<Location>>
  {
    IsNot
  }

  /** `ArrayList.equals(Object)`: true exactly for a list with the same elements. */
  function ListEquals(list: seq<Location>, o: Instance<seq<Location>>): bool
  {
    o.Is? && o.value == list
  }

  /** The search loop of `Placement.equals`: it answers false as soon as the
      argument list equals one of this placement's locations, and true when
      the loop runs out. */
  function EqualsLoop(locations: seq<Location>, list: seq<Location>): bool
  {
    if locations == [] then true
    else if ListEquals(list, LocationAsObject(locations[0])) then false
    else EqualsLoop(locations[1..], list)
  }

  /** `Placement.equals(Object)`: false unless the argument is an ArrayList. */
  function Equals(p: Placement, o: Instance<seq<Location>>): bool
  {
    if !o.Is? then false else EqualsLoop(p.placement, o.value)
  }

  /** A list never equals a location, so the loop never returns early. */
  lemma {:induction false} EqualsLoopRunsOut(locations: seq<Location>, list: seq<Location>)
    ensures EqualsLoop(locations, list)
  {
    if locations != [] {
      EqualsLoopRunsOut(locations[1..], list);
    }
  }

  /** So a placement "equals" every ArrayList, whatever its contents, and no other object. */
  lemma EqualsEveryList(p: Placement, o: Instance<seq<Location>>)
    ensures Equals(p, o) <==> o.Is?
  {
    if o.Is? {
      EqualsLoopRunsOut(p.placement, o.value);
    }
  }
}
