/**
 * The unweighted graph of graph_loader.py: class `Graph` and its vertex `_Vertex`.
 * A vertex is identified by its item (one vertex per key of `_vertices`), so a vertex
 * here holds its kind label and the items of its neighbours.
 */
module Graphs {
  import opened Outcomes

  /** `_Vertex`: a kind label and the items of the adjacent vertices. */
  datatype Vertex<Item(==)> = Vertex(kind: string, neighbours: set<Item>) {
    /** `_Vertex.degree`: the number of neighbours, zero exactly for an isolated vertex. */
    function Degree(): (d: nat)
      ensures d == 0 <==> neighbours == {}
    {
      |neighbours|
    }
  }

  class Graph<Item(==)> {
    /** `_vertices`: maps each item to its vertex. */
    var vertices: map<Item, Vertex<Item>>

    /**
     * The representation invariants of `_Vertex`: no vertex is its own neighbour, and
     * adjacency is symmetric between vertices of this graph.
     */
    ghost predicate Valid()
      reads this
    {
      (forall x | x in vertices :: x !in vertices[x].neighbours) &&
      (forall x, y | x in vertices && y in vertices[x].neighbours ::
         y in vertices && x in vertices[y].neighbours)
    }

    constructor ()
      ensures Valid() && vertices == map[]
    {
      vertices := map[];
    }

    /** `Graph.add_vertex`: a no-op on a present item, otherwise a fresh isolated vertex. */
    method AddVertex(item: Item, kind: string)
      requires Valid()
      modifies this
      ensures Valid()
      ensures item in old(vertices) ==> vertices == old(vertices)
      ensures item !in old(vertices) ==>
                vertices.Keys == old(vertices).Keys + {item} &&
                vertices[item] == Vertex(kind, {})
      ensures forall x | x in old(vertices) :: x in vertices && vertices[x] == old(vertices)[x]
    {
      if item !in vertices {
        vertices := vertices[item := Vertex(kind, {})];
      }
    }

    /**
     * `Graph.add_edge`: raises ValueError, changing nothing, when an endpoint is not a
     * vertex; otherwise adds each endpoint to the other's neighbours.
     */
    method AddEdge(item1: Item, item2: Item) returns (outcome: Outcome)
      requires Valid()
      requires item1 != item2
      modifies this
      ensures Valid()
      ensures outcome == if item1 in old(vertices) && item2 in old(vertices)
                         then Success else Failure(ValueError)
      ensures outcome.Failure? ==> vertices == old(vertices)
      ensures outcome.Success? ==>
                vertices.Keys == old(vertices).Keys &&
                vertices[item1] == old(vertices)[item1].(neighbours := old(vertices)[item1].neighbours + {item2}) &&
                vertices[item2] == old(vertices)[item2].(neighbours := old(vertices)[item2].neighbours + {item1}) &&
                Adjacent(item1, item2) && Adjacent(item2, item1)
      ensures forall x | x in old(vertices) && x != item1 && x != item2 ::
                x in vertices && vertices[x] == old(vertices)[x]
    {
      if item1 in vertices && item2 in vertices {
        var v1 := vertices[item1];
        vertices := vertices[item1 := v1.(neighbours := v1.neighbours + {item2})];
        var v2 := vertices[item2];
        vertices := vertices[item2 := v2.(neighbours := v2.neighbours + {item1})];
        outcome := Success;
      } else {
        outcome := Failure(ValueError);
      }
    }

    /** `Graph.adjacent`: false when either item is absent. */
    function Adjacent(item1: Item, item2: Item): (r: bool)
      reads this
      ensures r ==> item1 in vertices && item2 in vertices
      ensures item1 in vertices && item2 in vertices ==> (r <==> item2 in vertices[item1].neighbours)
    {
      item1 in vertices && item2 in vertices &&
      exists y | y in vertices[item1].neighbours :: y == item2
    }

    /** `Graph.get_neighbours`: raises ValueError for an absent item. */
    function GetNeighbours(item: Item): (r: Result<set<Item>>)
      reads this
      ensures r.Err? <==> item !in vertices
      ensures r.Err? ==> r.error == ValueError
      ensures r.Ok? ==> |r.value| == vertices[item].Degree()
      ensures r.Ok? ==> r.value == vertices[item].neighbours
    {
      if item in vertices then
        var items := set y | y in vertices[item].neighbours;
        assert items == vertices[item].neighbours;
        Ok(items)
      else Err(ValueError)
    }

    /** `Graph.get_all_vertices`: every item for kind "", otherwise the items of that kind. */
    function GetAllVertices(kind: string): (r: set<Item>)
      reads this
      ensures kind == "" ==> r == vertices.Keys
      ensures r <= vertices.Keys
      ensures kind != "" ==> forall x | x in vertices :: x in r <==> vertices[x].kind == kind
    {
      if kind != "" then set x | x in vertices && vertices[x].kind == kind else vertices.Keys
    }
  }

  /** Under the invariants, adjacency is symmetric. */
  lemma AdjacentSymmetric<Item>(g: Graph<Item>, item1: Item, item2: Item)
    requires g.Valid()
    ensures g.Adjacent(item1, item2) == g.Adjacent(item2, item1)
  {
  }

  /** Under the invariants, `get_neighbours` returns exactly the items adjacent to `item`. */
  lemma NeighboursAreAdjacent<Item>(g: Graph<Item>, item: Item, y: Item)
    requires g.Valid() && item in g.vertices
    ensures g.GetNeighbours(item).Ok?
    ensures y in g.GetNeighbours(item).value <==> g.Adjacent(item, y)
  {
  }

  /** Two different kinds share no vertex, so the kind filters split the vertices. */
  lemma KindFiltersDisjoint<Item>(g: Graph<Item>, kind1: string, kind2: string)
    requires kind1 != "" && kind2 != "" && kind1 != kind2
    ensures g.GetAllVertices(kind1) !! g.GetAllVertices(kind2)
  {
  }
}
