/**
 * The weighted graph of graph_loader.py: class `WeightedGraph` and its vertex
 * `_WeightedVertex`. Each vertex maps the items of its neighbours to edge weights.
 * `adjacent`, `get_neighbours` and `get_all_vertices` are inherited from `Graph` in the
 * source, where they run over the keys of the neighbour dictionary; here they are
 * declared again over the keys of the neighbour map.
 */
module WeightedGraphs {
  import opened Outcomes

  /** `_WeightedVertex`: a kind label and a weight per adjacent item. */
  datatype WeightedVertex<Item(==)> = WeightedVertex(kind: string, neighbours: map<Item, real>) {
    /** `_Vertex.degree`, inherited: the number of neighbours, zero exactly when isolated. */
    function Degree(): (d: nat)
      ensures d == 0 <==> neighbours == map[]
    {
      |neighbours|
    }
  }

  type VertexMap<Item(==)> = map<Item, WeightedVertex<Item>>

  /** No vertex has itself as a neighbour. */
  ghost predicate NoSelfLoops<Item>(vs: VertexMap<Item>)
  {
    forall x | x in vs :: x !in vs[x].neighbours
  }

  /** Every neighbour is a vertex that lists the edge back, with the same weight. */
  ghost predicate Symmetric<Item>(vs: VertexMap<Item>)
  {
    forall x, y | x in vs && y in vs[x].neighbours ::
      y in vs && x in vs[y].neighbours && vs[y].neighbours[x] == vs[x].neighbours[y]
  }

  /** The representation invariants of `_WeightedVertex`. */
  ghost predicate Invariant<Item>(vs: VertexMap<Item>)
  {
    NoSelfLoops(vs) && Symmetric(vs)
  }

  /** The vertex map after `add_vertex(item, kind)`. */
  function WithVertex<Item(==)>(vs: VertexMap<Item>, item: Item, kind: string): (r: VertexMap<Item>)
    ensures r.Keys == vs.Keys + {item}
    ensures forall x | x in vs :: r[x] == vs[x]
    ensures item !in vs ==> r[item] == WeightedVertex(kind, map[])
  {
    if item in vs then vs else vs[item := WeightedVertex(kind, map[])]
  }

  /** The vertex map after a successful `add_edge(a, b, w)`: both directions set to w. */
  function WithEdge<Item(==)>(vs: VertexMap<Item>, a: Item, b: Item, w: real): (r: VertexMap<Item>)
    requires a in vs && b in vs
    ensures r.Keys == vs.Keys
    ensures forall x | x in vs :: r[x].kind == vs[x].kind
    ensures forall x | x in vs && x != a && x != b :: r[x] == vs[x]
    ensures a != b ==> r[a].neighbours == vs[a].neighbours[b := w]
    ensures a != b ==> r[b].neighbours == vs[b].neighbours[a := w]
  {
    var v1 := vs[a];
    var first := vs[a := v1.(neighbours := v1.neighbours[b := w])];
    var v2 := first[b];
    first[b := v2.(neighbours := v2.neighbours[a := w])]
  }

  /** Adding an edge between two distinct vertices keeps both invariants. */
  lemma WithEdgeKeepsInvariant<Item>(vs: VertexMap<Item>, a: Item, b: Item, w: real)
    requires Invariant(vs) && a in vs && b in vs && a != b
    ensures Invariant(WithEdge(vs, a, b, w))
  {
  }

  /** Some key of a non-empty neighbour map; Python's iteration order is not modelled. */
  ghost function AnyKey<Item>(m: map<Item, real>): (k: Item)
    requires |m| != 0
    ensures k in m
  {
    assert m.Keys != {};
    var k :| k in m; k
  }

  /** Setting a weight adds a neighbour only when the key is new. */
  lemma DegreeAfterUpdate<Item>(m: map<Item, real>, k: Item, w: real)
    ensures |m[k := w]| == |m| + (if k in m then 0 else 1)
  {
    if k in m {
      assert m[k := w].Keys == m.Keys;
    } else {
      assert m[k := w].Keys == m.Keys + {k};
    }
  }

  /** The sum of the weights of a neighbour map (`sum(v.neighbours.values())`). */
  ghost function TotalWeight<Item>(m: map<Item, real>): (t: real)
    decreases |m|
  {
    if |m| == 0 then 0.0
    else
      var k := AnyKey(m);
      assert |m - {k}| < |m| by { assert (m - {k}).Keys == m.Keys - {k}; }
      m[k] + TotalWeight(m - {k})
  }

  /** The sum does not depend on which weight is taken out first. */
  lemma {:induction false} TotalWeightRemove<Item>(m: map<Item, real>, k: Item)
    requires k in m
    ensures TotalWeight(m) == m[k] + TotalWeight(m - {k})
    decreases |m|
  {
    var j := AnyKey(m);
    if j != k {
      assert (m - {j}).Keys == m.Keys - {j};
      assert (m - {k}).Keys == m.Keys - {k};
      TotalWeightRemove(m - {j}, k);
      TotalWeightRemove(m - {k}, j);
      assert m - {j} - {k} == m - {k} - {j};
    }
  }

  /** Overwriting (or adding) one weight changes the sum by exactly that weight's change. */
  lemma TotalWeightUpdate<Item>(m: map<Item, real>, k: Item, w: real)
    ensures TotalWeight(m[k := w]) == TotalWeight(m) - (if k in m then m[k] else 0.0) + w
  {
    TotalWeightRemove(m[k := w], k);
    if k in m {
      TotalWeightRemove(m, k);
      assert m[k := w] - {k} == m - {k};
    } else {
      assert m[k := w] - {k} == m;
    }
  }

  /** x added up n times. */
  function Repeated(n: nat, x: real): (r: real)
    ensures r == (n as real) * x
  {
    if n == 0 then 0.0 else Repeated(n - 1, x) + x
  }

  /** Weights of at least lo sum to at least |m| times lo. */
  lemma {:induction false} TotalWeightAtLeast<Item>(m: map<Item, real>, lo: real)
    requires forall y | y in m :: lo <= m[y]
    ensures Repeated(|m|, lo) <= TotalWeight(m)
    decreases |m|
  {
    if |m| != 0 {
      var k := AnyKey(m);
      var rest := m - {k};
      assert |rest| == |m| - 1 by { assert rest.Keys == m.Keys - {k}; }
      TotalWeightAtLeast(rest, lo);
    }
  }

  /** Non-negative weights, such as L1 differences, have a non-negative sum. */
  lemma {:induction false} TotalWeightNonNegative<Item>(m: map<Item, real>)
    requires forall y | y in m :: m[y] >= 0.0
    ensures TotalWeight(m) >= 0.0
    decreases |m|
  {
    if |m| > 0 {
      var k := AnyKey(m);
      TotalWeightNonNegative(m - {k});
    }
  }

  /** Weights of at most hi sum to at most |m| times hi. */
  lemma {:induction false} TotalWeightAtMost<Item>(m: map<Item, real>, hi: real)
    requires forall y | y in m :: m[y] <= hi
    ensures TotalWeight(m) <= Repeated(|m|, hi)
    decreases |m|
  {
    if |m| != 0 {
      var k := AnyKey(m);
      var rest := m - {k};
      assert |rest| == |m| - 1 by { assert rest.Keys == m.Keys - {k}; }
      TotalWeightAtMost(rest, hi);
    }
  }

  class WeightedGraph<Item(==)> {
    /** `_vertices`: maps each item to its weighted vertex. */
    var vertices: VertexMap<Item>

    ghost predicate Valid()
      reads this
    {
      Invariant(vertices)
    }

    constructor ()
      ensures Valid() && vertices == map[]
    {
      vertices := map[];
    }

    /** `WeightedGraph.add_vertex`: a no-op on a present item, otherwise a fresh isolated vertex. */
    method AddVertex(item: Item, kind: string)
      requires Valid()
      modifies this
      ensures Valid()
      ensures vertices == WithVertex(old(vertices), item, kind)
      ensures item in old(vertices) ==> vertices == old(vertices)
      ensures item !in old(vertices) ==> vertices[item].Degree() == 0 && GetAllVertices("") == old(GetAllVertices("")) + {item}
    {
      if item !in vertices {
        vertices := vertices[item := WeightedVertex(kind, map[])];
      }
    }

    /**
     * `WeightedGraph.add_edge`: raises ValueError, changing nothing, when an endpoint is not
     * a vertex; otherwise sets the weight in both directions, replacing any earlier weight.
     */
    method AddEdge(item1: Item, item2: Item, weight: real) returns (outcome: Outcome)
      requires Valid()
      requires item1 != item2
      modifies this
      ensures Valid()
      ensures outcome == if item1 in old(vertices) && item2 in old(vertices)
                         then Success else Failure(ValueError)
      ensures outcome.Failure? ==> vertices == old(vertices)
      ensures outcome.Success? ==> vertices == WithEdge(old(vertices), item1, item2, weight)
      ensures outcome.Success? ==> GetWeight(item1, item2) == weight && GetWeight(item2, item1) == weight
      ensures outcome.Success? ==>
                vertices[item1].Degree() == old(vertices[item1].Degree()) + (if old(Adjacent(item1, item2)) then 0 else 1)
      ensures outcome.Success? ==>
                forall x | x in old(vertices) && x != item1 && x != item2 :: vertices[x] == old(vertices)[x]
    {
      if item1 in vertices && item2 in vertices {
        ghost var before := vertices;
        var v1 := vertices[item1];
        vertices := vertices[item1 := v1.(neighbours := v1.neighbours[item2 := weight])];
        var v2 := vertices[item2];
        vertices := vertices[item2 := v2.(neighbours := v2.neighbours[item1 := weight])];
        outcome := Success;
        assert vertices == WithEdge(before, item1, item2, weight);
        WithEdgeKeepsInvariant(before, item1, item2, weight);
        DegreeAfterUpdate(before[item1].neighbours, item2, weight);
      } else {
        outcome := Failure(ValueError);
      }
    }

    /** `adjacent`, inherited from `Graph`: false when either item is absent. */
    function Adjacent(item1: Item, item2: Item): (r: bool)
      reads this
      ensures r ==> item1 in vertices && item2 in vertices
      ensures item1 in vertices && item2 in vertices ==> (r <==> item2 in vertices[item1].neighbours)
    {
      item1 in vertices && item2 in vertices &&
      exists y | y in vertices[item1].neighbours :: y == item2
    }

    /** `get_neighbours`, inherited from `Graph`: raises ValueError for an absent item. */
    function GetNeighbours(item: Item): (r: Result<set<Item>>)
      reads this
      ensures r.Err? <==> item !in vertices
      ensures r.Err? ==> r.error == ValueError
      ensures r.Ok? ==> |r.value| == vertices[item].Degree()
      ensures r.Ok? ==> r.value == vertices[item].neighbours.Keys
    {
      if item in vertices then
        var items := set y | y in vertices[item].neighbours;
        assert items == vertices[item].neighbours.Keys;
        Ok(items)
      else Err(ValueError)
    }

    /** `get_all_vertices`, inherited from `Graph`. */
    function GetAllVertices(kind: string): (r: set<Item>)
      reads this
      ensures r <= vertices.Keys
      ensures kind == "" ==> r == vertices.Keys
      ensures kind != "" ==> forall x | x in vertices :: x in r <==> vertices[x].kind == kind
    {
      if kind != "" then set x | x in vertices && vertices[x].kind == kind else vertices.Keys
    }

    /** `WeightedGraph.get_weight`: 0 for two vertices that are not adjacent. */
    function GetWeight(item1: Item, item2: Item): (r: real)
      requires item1 in vertices && item2 in vertices
      reads this
      ensures Adjacent(item1, item2) ==> r == vertices[item1].neighbours[item2]
      ensures !Adjacent(item1, item2) ==> r == 0.0
    {
      var v1 := vertices[item1];
      if item2 in v1.neighbours then v1.neighbours[item2] else 0.0
    }

    /**
     * `WeightedGraph.average_weight`: raises ValueError for an absent item and divides by
     * zero for a vertex without neighbours; otherwise the mean incident weight.
     */
    ghost function AverageWeight(item: Item): (r: Result<real>)
      reads this
      ensures r == Err(ValueError) <==> item !in vertices
      ensures r == Err(ZeroDivisionError) <==> item in vertices && vertices[item].Degree() == 0
      ensures r.Ok? <==> item in vertices && vertices[item].Degree() != 0
      ensures r.Ok? ==> r.value * (vertices[item].Degree() as real) == TotalWeight(vertices[item].neighbours)
    {
      if item in vertices then
        var v := vertices[item];
        if |v.neighbours| == 0 then Err(ZeroDivisionError)
        else Ok(TotalWeight(v.neighbours) / (|v.neighbours| as real))
      else Err(ValueError)
    }
  }

  /** Under the invariants, adjacency and weights are symmetric. */
  lemma WeightSymmetric<Item>(g: WeightedGraph<Item>, item1: Item, item2: Item)
    requires g.Valid() && item1 in g.vertices && item2 in g.vertices
    ensures g.Adjacent(item1, item2) == g.Adjacent(item2, item1)
    ensures g.GetWeight(item1, item2) == g.GetWeight(item2, item1)
  {
  }

  /** The average incident weight lies between the smallest and largest incident weight. */
  lemma AverageWithinBounds<Item>(g: WeightedGraph<Item>, item: Item, lo: real, hi: real)
    requires g.AverageWeight(item).Ok?
    requires forall y | y in g.vertices[item].neighbours :: lo <= g.vertices[item].neighbours[y] <= hi
    ensures lo <= g.AverageWeight(item).value <= hi
  {
    var m := g.vertices[item].neighbours;
    TotalWeightAtLeast(m, lo);
    TotalWeightAtMost(m, hi);
    QuotientBounds(TotalWeight(m), |m| as real, lo, hi);
  }

  /** A sum between n * lo and n * hi has its n-th part between lo and hi. */
  lemma QuotientBounds(t: real, n: real, lo: real, hi: real)
    requires n > 0.0 && n * lo <= t <= n * hi
    ensures lo <= t / n <= hi
  {
  }

  /** A vertex with a single neighbour averages exactly that edge's weight. */
  lemma AverageOfSingleEdge<Item>(g: WeightedGraph<Item>, item: Item, other: Item)
    requires item in g.vertices && g.vertices[item].neighbours.Keys == {other}
    ensures g.AverageWeight(item) == Ok(g.vertices[item].neighbours[other])
  {
    var m := g.vertices[item].neighbours;
    TotalWeightRemove(m, other);
    assert (m - {other}).Keys == {};
    assert |m - {other}| == 0;
  }
}
