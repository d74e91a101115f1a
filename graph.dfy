/**
 * graph.Edge and graph.Graph. An edge is an ordered pair of vertices with an
 * optional cost; a graph is a vertex list and an edge list, both kept in the
 * order they were given (the order of the overlap constraints and of the
 * communication-cost sum follows the edge order).
 */
module Graphs {
  import opened JavaLang
  import opened Operations

  /** An ordered pair (u, v); `cost` is None when the two-argument constructor built it. */
  datatype Edge<V> = Edge(u: V, v: V, cost: Option<int>)

  /** `new Edge(u, v)`. */
  function NewEdge<V>(u: V, v: V): Edge<V>
  {
    Edge(u, v, None)
  }

  /** `new Edge(u, v, cost)`. */
  function NewCostEdge<V>(u: V, v: V, cost: int): Edge<V>
  {
    Edge(u, v, Some(cost))
  }

  /** `getCost()`: the given cost, or -1 for an edge built without one. */
  function GetCost<V>(e: Edge<V>): int
  {
    if e.cost.Some? then e.cost.value else -1
  }

  /** `Edge.equals(Object)`: the endpoints must be equal; the cost is ignored. */
  function Equals<V(==)>(e: Edge<V>, o: Instance<Edge<V>>): (r: bool)
    ensures r <==> o.Is? && (o.value.u, o.value.v) == (e.u, e.v)
  {
    o.Is? && e.u == o.value.u && e.v == o.value.v
  }

  /** `Edge.hashCode()`: the endpoints' hashes xor-ed; `hash` is the vertex
      type's own hashCode (identity hashing for operations). */
  function Hash<V>(e: Edge<V>, hash: V -> bv32): bv32
  {
    hash(e.u) ^ hash(e.v)
  }

  /** Costs: the three-argument constructor's cost is returned unchanged, the
      two-argument one reads as -1; and equality never looks at the cost. */
  lemma CostIsIgnoredByEquality<V>(u: V, v: V, c: int)
    ensures GetCost(NewCostEdge(u, v, c)) == c && GetCost(NewEdge(u, v)) == -1
    ensures Equals(NewCostEdge(u, v, c), Is(NewEdge(u, v)))
  {
  }

  /** equals and hashCode agree, whatever the costs. */
  lemma HashConsistent<V>(a: Edge<V>, b: Edge<V>, hash: V -> bv32)
    requires Equals(a, Is(b))
    ensures Hash(a, hash) == Hash(b, hash)
  {
  }

  /** (u, v) and (v, u) collide in the hash but are different edges unless u = v. */
  lemma ReversedEdgeCollides<V>(u: V, v: V, hash: V -> bv32)
    ensures Hash(NewEdge(u, v), hash) == Hash(NewEdge(v, u), hash)
    ensures Equals(NewEdge(u, v), Is(NewEdge(v, u))) <==> u == v
  {
  }

  /** `Edge.toString()`: "(idU, idV)", then " with cost: c" when a cost was given.
      The endpoints are cast to Operation and dereferenced, so neither may be null. */
  function ToString(e: Edge<Operation?>): string
    requires e.u != null && e.v != null
  {
    "(" + IntToString(e.u.id) + ", " + IntToString(e.v.id) + ")"
    + (if e.cost.Some? then " with cost: " + IntToString(e.cost.value) else "")
  }

  /** The cost suffix is there exactly when the edge carries a cost. */
  lemma ToStringShowsCost(e: Edge<Operation?>)
    requires e.u != null && e.v != null
    ensures var s := ToString(e); (s[|s| - 1] == ')') <==> e.cost.None?
  {
    var s := ToString(e);
    if e.cost.Some? {
      var c := IntToString(e.cost.value);
      assert s[|s| - 1] == c[|c| - 1];
    }
  }

  datatype Graph<V> = Graph(vertices: seq<V>, edges: seq<Edge<V>>)

  /** The ids of `vs` after the first, each preceded by ", ". */
  function MoreIds(vs: seq<Operation?>): string
    requires forall i :: 0 <= i < |vs| ==> vs[i] != null
  {
    if vs == [] then "" else ", " + IntToString(vs[0].id) + MoreIds(vs[1..])
  }

  /** The vertex part of `Graph.toString()`: "Vertices: [id0, id1, ...]".
      Vertex 0 is read unconditionally, so the list must not be empty. */
  function VerticesString(g: Graph<Operation?>): string
    requires |g.vertices| > 0
    requires forall i :: 0 <= i < |g.vertices| ==> g.vertices[i] != null
  {
    "Vertices: [" + IntToString(g.vertices[0].id) + MoreIds(g.vertices[1..]) + "]"
  }

  /** Each further vertex contributes one ", " separator. */
  lemma {:induction false} MoreIdsCommas(vs: seq<Operation?>)
    requires forall i :: 0 <= i < |vs| ==> vs[i] != null
    ensures |MoreIds(vs)| >= 2 * |vs|
    ensures |vs| > 0 ==> MoreIds(vs)[..2] == ", "
  {
    if vs != [] {
      MoreIdsCommas(vs[1..]);
    }
  }

  /** The IDs of the vertices, in list order. */
  function Ids(vs: seq<Operation?>): (ids: seq<int>)
    requires forall i :: 0 <= i < |vs| ==> vs[i] != null
    ensures |ids| == |vs| && forall i :: 0 <= i < |vs| ==> ids[i] == vs[i].id
  {
    if vs == [] then [] else [vs[0].id] + Ids(vs[1..])
  }

  /** The text before the first comma (all of it when there is none). */
  function UpToComma(s: string): string
  {
    if s == [] || s[0] == ',' then [] else [s[0]] + UpToComma(s[1..])
  }

  lemma {:induction false} UpToCommaAppend(a: string, r: string)
    requires ',' !in a
    requires r == [] || r[0] == ','
    ensures UpToComma(a + r) == a
    decreases |a|
  {
    if a == [] {
      assert a + r == r;
    } else {
      assert (a + r)[1..] == a[1..] + r;
      UpToCommaAppend(a[1..], r);
    }
  }

  /** A number's text followed by nothing or by a ", "-led tail can be cut
      back into the number's text and the tail. */
  lemma SplitBeforeComma(a1: string, r1: string, a2: string, r2: string)
    requires ',' !in a1 && ',' !in a2
    requires (r1 == [] || r1[0] == ',') && (r2 == [] || r2[0] == ',')
    requires a1 + r1 == a2 + r2
    ensures a1 == a2 && r1 == r2
  {
    UpToCommaAppend(a1, r1);
    UpToCommaAppend(a2, r2);
    assert r1 == (a1 + r1)[|a1|..];
    assert r2 == (a2 + r2)[|a2|..];
  }

  /** Equal texts between the same prefix and suffix have equal middles. */
  lemma StripFrame(p: string, a: string, m: string, b: string, n: string, q: string)
    requires p + a + m + q == p + b + n + q
    ensures a + m == b + n
  {
    var s, t := p + a + m + q, p + b + n + q;
    assert a + m == s[|p|..|s| - |q|];
    assert b + n == t[|p|..|t| - |q|];
  }

  /** The ", "-separated ID list determines the IDs, in order. */
  lemma {:induction false} MoreIdsInjective(vs: seq<Operation?>, ws: seq<Operation?>)
    requires forall i :: 0 <= i < |vs| ==> vs[i] != null
    requires forall i :: 0 <= i < |ws| ==> ws[i] != null
    requires MoreIds(vs) == MoreIds(ws)
    ensures Ids(vs) == Ids(ws)
    decreases |vs|
  {
    if vs != [] && ws != [] {
      var a, b := IntToString(vs[0].id), IntToString(ws[0].id);
      var mv, mw := MoreIds(vs[1..]), MoreIds(ws[1..]);
      StripFrame(", ", a, mv, b, mw, "");
      MoreIdsCommas(vs[1..]);
      MoreIdsCommas(ws[1..]);
      IntToStringHasNo(vs[0].id, ',');
      IntToStringHasNo(ws[0].id, ',');
      SplitBeforeComma(a, mv, b, mw);
      IntToStringInjective(vs[0].id, ws[0].id);
      MoreIdsInjective(vs[1..], ws[1..]);
    }
  }

  /** The vertex line of `Graph.toString()` determines the vertex IDs, in order. */
  lemma VerticesStringInjective(g: Graph<Operation?>, h: Graph<Operation?>)
    requires |g.vertices| > 0 && forall i :: 0 <= i < |g.vertices| ==> g.vertices[i] != null
    requires |h.vertices| > 0 && forall i :: 0 <= i < |h.vertices| ==> h.vertices[i] != null
    requires VerticesString(g) == VerticesString(h)
    ensures Ids(g.vertices) == Ids(h.vertices)
  {
    var gv, hv := g.vertices, h.vertices;
    var a, b := IntToString(gv[0].id), IntToString(hv[0].id);
    var mv, mw := MoreIds(gv[1..]), MoreIds(hv[1..]);
    StripFrame("Vertices: [", a, mv, b, mw, "]");
    MoreIdsCommas(gv[1..]);
    MoreIdsCommas(hv[1..]);
    IntToStringHasNo(gv[0].id, ',');
    IntToStringHasNo(hv[0].id, ',');
    SplitBeforeComma(a, mv, b, mw);
    IntToStringInjective(gv[0].id, hv[0].id);
    MoreIdsInjective(gv[1..], hv[1..]);
    assert Ids(gv) == [gv[0].id] + Ids(gv[1..]);
    assert Ids(hv) == [hv[0].id] + Ids(hv[1..]);
  }
}
