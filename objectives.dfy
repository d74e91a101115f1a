/**
 * The two objectives of DMFB_ReconfigPlacementProblem and their weighted sum:
 * communication cost D_comm (to be minimised) and mixing throughput T_mix (to
 * be maximised, so it enters the scalar objective negated).
 */
module Objectives {
  import opened OperationSizes
  import opened Locations

  function Abs(n: int): nat
  {
    if n < 0 then -n else n
  }

  /** `ManhattanDistance(u, v)` = |u.x - v.x| + |u.y - v.y|. */
  function ManhattanDistance(u: Location, v: Location): nat
  {
    Abs(u.x - v.x) + Abs(u.y - v.y)
  }

  /** The distance is a metric on grid cells. */
  lemma ManhattanIsMetric(a: Location, b: Location, c: Location)
    ensures ManhattanDistance(a, b) == 0 <==> a == b
    ensures ManhattanDistance(a, b) == ManhattanDistance(b, a)
    ensures ManhattanDistance(a, c) <= ManhattanDistance(a, b) + ManhattanDistance(b, c)
  {
  }

  /** `getLatecy`: 2x2 takes 10; otherwise a 3 in either dimension 6; otherwise
      a 1 in either dimension 5; anything else (2x4, 4x2) 3. */
  function Latency(size: OperationSize): int
  {
    if size.height == 2 && size.width == 2 then 10
    else if size.height == 3 || size.width == 3 then 6
    else if size.height == 1 || size.width == 1 then 5
    else 3
  }

  /** The latency table on the footprints a mix can have, in both orientations:
      larger mixers are faster, so their reward 10 - latency is larger. */
  lemma LatencyTable()
    ensures Latency(OperationSize(2, 2)) == 10
    ensures Latency(OperationSize(2, 3)) == 6 && Latency(OperationSize(3, 2)) == 6
    ensures Latency(OperationSize(1, 4)) == 5 && Latency(OperationSize(4, 1)) == 5
    ensures Latency(OperationSize(2, 4)) == 3 && Latency(OperationSize(4, 2)) == 3
  {
  }

  /** The scalar objective `alpha * f1 + (1 - alpha) * f2`, with f1 = D_comm
      and f2 = -T_mix: alpha 1 scores communication only, alpha 0 throughput only. */
  function Scalarise(alpha: real, f1: real, f2: real): (f: real)
    ensures alpha == 1.0 ==> f == f1
    ensures alpha == 0.0 ==> f == f2
  {
    alpha * f1 + (1.0 - alpha) * f2
  }
}
