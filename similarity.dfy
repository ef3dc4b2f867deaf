/**
 * The similarity-graph construction of graph_loader.py (the `__main__` block, lines 240-254).
 * Every row becomes a vertex labelled with its genre; then, for every row R, an L1
 * difference to every row is computed, the rows are ranked by it, and R is linked to each
 * of the first 16 ranked rows whose id differs from R's, with the difference as weight.
 */
module Similarity {
  import opened Outcomes
  import opened WeightedGraphs

  /** The number of columns in the positional slice `data.columns[4:9]`. */
  const Columns: nat := 5

  /** The number of ranked rows the construction looks at (`range(16)`). */
  const Candidates: nat := 16

  /** The values of the columns `data.columns[4:9]` of one row, in column order. */
  type Features = f: seq<real> | |f| == Columns witness [0.0, 0.0, 0.0, 0.0, 0.0]

  /** One row of the filtered data frame. */
  datatype Song = Song(id: int, genre: string, acousticness: real, features: Features)

  /** An `add_edge(source, target, weight)` call. */
  datatype Edge = Edge(source: int, target: int, weight: real)

  function Abs(x: real): (r: real)
  {
    if x < 0.0 then -x else x
  }

  function Min(a: nat, b: nat): (m: nat)
  {
    if a < b then a else b
  }

  /** The sum of |f[c] - g[c]| over the first `count` columns of the slice. */
  function ColumnsDistance(f: Features, g: Features, count: nat): (d: real)
    requires count <= Columns
    ensures d >= 0.0
  {
    if count == 0 then 0.0
    else ColumnsDistance(f, g, count - 1) + Abs(f[count - 1] - g[count - 1])
  }

  /**
   * The `difference` entry of row `s` in the pass of row `t`: the acousticness term plus
   * one term per column of the slice.
   */
  function Distance(s: Song, t: Song): (d: real)
    ensures d >= 0.0
  {
    Abs(s.acousticness - t.acousticness) + ColumnsDistance(s.features, t.features, Columns)
  }

  /** The ids of all rows. */
  function Ids(songs: seq<Song>): (ids: set<int>)
  {
    set j | 0 <= j < |songs| :: songs[j].id
  }

  lemma {:induction false} ColumnsDistanceSymmetric(f: Features, g: Features, count: nat)
    requires count <= Columns
    ensures ColumnsDistance(f, g, count) == ColumnsDistance(g, f, count)
  {
    if count > 0 {
      ColumnsDistanceSymmetric(f, g, count - 1);
    }
  }

  lemma {:induction false} ColumnsDistanceZero(f: Features, g: Features, count: nat)
    requires count <= Columns
    ensures ColumnsDistance(f, g, count) == 0.0 <==> f[..count] == g[..count]
  {
    if count > 0 {
      ColumnsDistanceZero(f, g, count - 1);
      assert f[..count] == f[..count - 1] + [f[count - 1]];
      assert g[..count] == g[..count - 1] + [g[count - 1]];
      if f[..count] == g[..count] {
        assert f[..count - 1] == f[..count][..count - 1];
        assert g[..count - 1] == g[..count][..count - 1];
      }
    }
  }

  /** The difference is symmetric, whichever row's pass computes it. */
  lemma DistanceSymmetric(s: Song, t: Song)
    ensures Distance(s, t) == Distance(t, s)
  {
    ColumnsDistanceSymmetric(s.features, t.features, Columns);
  }

  /**
   * The difference is zero exactly for rows with equal feature values, so a duplicate row
   * under another id ranks with difference 0 beside the row itself.
   */
  lemma DistanceZero(s: Song, t: Song)
    ensures Distance(s, t) >= 0.0
    ensures Distance(s, t) == 0.0 <==> s.acousticness == t.acousticness && s.features == t.features
  {
    ColumnsDistanceZero(s.features, t.features, Columns);
    assert s.features[..Columns] == s.features && t.features[..Columns] == t.features;
  }

  /**
   * Lines 246-248: the `difference` column of the pass of row r, built as the acousticness
   * term and then one column of the slice at a time, for every row.
   */
  method DifferenceColumn(songs: seq<Song>, r: nat) returns (diff: seq<real>)
    requires r < |songs|
    ensures |diff| == |songs|
    ensures forall j | 0 <= j < |songs| :: diff[j] == Distance(songs[j], songs[r])
  {
    var column := new real[|songs|];
    var j := 0;
    while j < |songs|
      invariant 0 <= j <= |songs|
      invariant forall k | 0 <= k < j :: column[k] == Abs(songs[k].acousticness - songs[r].acousticness)
    {
      column[j] := Abs(songs[j].acousticness - songs[r].acousticness);
      j := j + 1;
    }
    var c := 0;
    while c < Columns
      invariant 0 <= c <= Columns
      invariant forall k | 0 <= k < |songs| ::
                  column[k] == Abs(songs[k].acousticness - songs[r].acousticness) +
                               ColumnsDistance(songs[k].features, songs[r].features, c)
    {
      j := 0;
      while j < |songs|
        invariant 0 <= j <= |songs|
        invariant forall k | 0 <= k < j ::
                    column[k] == Abs(songs[k].acousticness - songs[r].acousticness) +
                                 ColumnsDistance(songs[k].features, songs[r].features, c + 1)
        invariant forall k | j <= k < |songs| ::
                    column[k] == Abs(songs[k].acousticness - songs[r].acousticness) +
                                 ColumnsDistance(songs[k].features, songs[r].features, c)
      {
        column[j] := column[j] + Abs(songs[j].features[c] - songs[r].features[c]);
        j := j + 1;
      }
      c := c + 1;
    }
    diff := column[..];
  }

  /** `order` lists every row index exactly once. */
  ghost predicate IsPermutation(order: seq<nat>, n: nat)
  {
    |order| == n &&
    (forall p | 0 <= p < n :: order[p] < n) &&
    (forall p, q | 0 <= p < q < n :: order[p] != order[q]) &&
    (forall k | 0 <= k < n :: k in order)
  }

  /**
   * `order` is a result of `data.sort_values('difference', ascending=True)` in the pass of
   * row r: a permutation of the rows with non-decreasing difference. Ties may come in any order.
   */
  ghost predicate RanksBySimilarity(order: seq<nat>, songs: seq<Song>, r: nat)
    requires r < |songs|
  {
    IsPermutation(order, |songs|) &&
    forall p, q | 0 <= p < q < |order| ::
      Distance(songs[order[p]], songs[r]) <= Distance(songs[order[q]], songs[r])
  }

  /** The number of rows strictly closer to row r than row j is. */
  ghost function CloserCount(songs: seq<Song>, r: nat, j: nat): nat
    requires r < |songs| && j < |songs|
  {
    |set k | 0 <= k < |songs| && Distance(songs[k], songs[r]) < Distance(songs[j], songs[r])|
  }

  /** The number of rows at most as far from row r as row j is (row j included). */
  ghost function NoFartherCount(songs: seq<Song>, r: nat, j: nat): nat
    requires r < |songs| && j < |songs|
  {
    |set k | 0 <= k < |songs| && Distance(songs[k], songs[r]) <= Distance(songs[j], songs[r])|
  }

  /**
   * The edges the pass of row r adds while looking at the first `count` ranked rows
   * (lines 250-254): one per ranked row whose id differs from row r's id.
   */
  function Selected(songs: seq<Song>, r: nat, diff: seq<real>, order: seq<nat>, count: nat): (edges: seq<Edge>)
    requires r < |songs| && |diff| == |songs| && count <= |order|
    requires forall p | 0 <= p < |order| :: order[p] < |songs|
    ensures |edges| <= count
    ensures forall e | e in edges :: e.source == songs[r].id && e.source != e.target && e.target in Ids(songs)
  {
    if count == 0 then []
    else
      var s := order[count - 1];
      var earlier := Selected(songs, r, diff, order, count - 1);
      assert songs[s].id in Ids(songs);
      if songs[r].id != songs[s].id then earlier + [Edge(songs[r].id, songs[s].id, diff[s])]
      else earlier
  }

  /**
   * The vertex map after the `add_edge` calls of `edges`, in order. Every call succeeds
   * because both endpoints are vertices.
   */
  function AddAll(vs: VertexMap<int>, edges: seq<Edge>): (r: VertexMap<int>)
    requires forall e | e in edges :: e.source in vs && e.target in vs
    ensures r.Keys == vs.Keys
    ensures forall x | x in vs :: r[x].kind == vs[x].kind
  {
    if edges == [] then vs
    else
      var last := edges[|edges| - 1];
      var before := AddAll(vs, edges[..|edges| - 1]);
      WithEdge(before, last.source, last.target, last.weight)
  }

  /**
   * An edge that some pass adds: it runs from a row i to a row j with a different id,
   * weighs their difference, and row j was one of the 16 first-ranked rows of row i.
   */
  ghost predicate Chosen(songs: seq<Song>, e: Edge)
  {
    exists i, j | 0 <= i < |songs| && 0 <= j < |songs| ::
      songs[i].id == e.source && songs[j].id == e.target && e.source != e.target &&
      e.weight == Distance(songs[j], songs[i]) && CloserCount(songs, i, j) < Candidates
  }

  /** Every stored weight comes from an edge some pass chose, in one direction or the other. */
  ghost predicate Consistent(songs: seq<Song>, vs: VertexMap<int>)
  {
    forall a, b | a in vs && b in vs[a].neighbours ::
      Chosen(songs, Edge(a, b, vs[a].neighbours[b])) || Chosen(songs, Edge(b, a, vs[a].neighbours[b]))
  }

  /**
   * Row r is adjacent to every row with another id that lies among its 16 nearest
   * whatever the tie order.
   */
  ghost predicate Linked(songs: seq<Song>, vs: VertexMap<int>, r: nat)
    requires r < |songs|
  {
    forall j | 0 <= j < |songs| && songs[j].id != songs[r].id && NoFartherCount(songs, r, j) <= Candidates ::
      songs[r].id in vs && songs[j].id in vs[songs[r].id].neighbours
  }

  /** Every row before row n is linked to its nearest rows. */
  ghost predicate LinkedUpTo(songs: seq<Song>, vs: VertexMap<int>, n: nat)
    requires n <= |songs|
  {
    forall q | 0 <= q < n :: Linked(songs, vs, q)
  }

  /** Row r is adjacent to every row with another id among the first 16 of the ranking `order`. */
  ghost predicate RankedLinked(songs: seq<Song>, vs: VertexMap<int>, order: seq<nat>, r: nat)
    requires r < |songs|
  {
    forall p | 0 <= p < Candidates && p < |order| && order[p] < |songs| && songs[order[p]].id != songs[r].id ::
      songs[r].id in vs && songs[order[p]].id in vs[songs[r].id].neighbours
  }

  /** Every row q before row n is adjacent to the rows its own ranking `orders[q]` put first. */
  ghost predicate RankedUpTo(songs: seq<Song>, vs: VertexMap<int>, orders: seq<seq<nat>>, n: nat)
    requires n <= |songs| && n <= |orders|
  {
    forall q | 0 <= q < n :: RankedLinked(songs, vs, orders[q], q)
  }

  /** The first p entries of a sequence take at most p distinct values. */
  lemma {:induction false} PrefixImageSize(order: seq<nat>, p: nat)
    requires p <= |order|
    ensures |set q | 0 <= q < p :: order[q]| <= p
  {
    if p > 0 {
      PrefixImageSize(order, p - 1);
      assert (set q | 0 <= q < p :: order[q]) == (set q | 0 <= q < p - 1 :: order[q]) + {order[p - 1]};
    }
  }

  /** The first p entries of a sequence with distinct entries take exactly p values. */
  lemma {:induction false} DistinctPrefixImageSize(order: seq<nat>, p: nat)
    requires p <= |order|
    requires forall a, b | 0 <= a < b < |order| :: order[a] != order[b]
    ensures |set q | 0 <= q < p :: order[q]| == p
  {
    if p > 0 {
      DistinctPrefixImageSize(order, p - 1);
      var prefix := set q | 0 <= q < p - 1 :: order[q];
      assert order[p - 1] !in prefix;
      assert (set q | 0 <= q < p :: order[q]) == prefix + {order[p - 1]};
    }
  }

  /** The row at rank p has at most p rows strictly closer than it. */
  lemma CloserBound(songs: seq<Song>, r: nat, order: seq<nat>, p: nat)
    requires r < |songs| && RanksBySimilarity(order, songs, r) && p < |order|
    ensures CloserCount(songs, r, order[p]) <= p
  {
    var closer := set k | 0 <= k < |songs| && Distance(songs[k], songs[r]) < Distance(songs[order[p]], songs[r]);
    var ahead := set q | 0 <= q < p :: order[q];
    forall k | k in closer
      ensures k in ahead
    {
      assert k in order;
      var q :| 0 <= q < |order| && order[q] == k;
    }
    PrefixImageSize(order, p);
    SubsetSize(closer, ahead);
  }

  /** A row with at most 16 rows no farther than it is ranked within the first 16. */
  lemma RankBound(songs: seq<Song>, r: nat, order: seq<nat>, p: nat)
    requires r < |songs| && RanksBySimilarity(order, songs, r) && p < |order|
    requires NoFartherCount(songs, r, order[p]) <= Candidates
    ensures p < Candidates
  {
    var noFarther := set k | 0 <= k < |songs| && Distance(songs[k], songs[r]) <= Distance(songs[order[p]], songs[r]);
    var upTo := set q | 0 <= q < p + 1 :: order[q];
    forall k | k in upTo
      ensures k in noFarther
    {
      var q :| 0 <= q < p + 1 && order[q] == k;
      if q < p {
        assert Distance(songs[order[q]], songs[r]) <= Distance(songs[order[p]], songs[r]);
      }
    }
    DistinctPrefixImageSize(order, p + 1);
    SubsetSize(upTo, noFarther);
  }

  lemma SubsetSize<T>(a: set<T>, b: set<T>)
    requires a <= b
    ensures |a| <= |b|
  {
    assert b == a + (b - a);
  }

  /**
   * In the pass of row r (lines 250-254): every edge runs from row r to a row with another
   * id among its 16 first-ranked rows and weighs their difference, no edge is a self-loop,
   * at most 16 edges are added, and every first-ranked row with another id is linked.
   */
  lemma {:induction false} SelectedFacts(songs: seq<Song>, r: nat, diff: seq<real>, order: seq<nat>, count: nat)
    requires r < |songs|
    requires |diff| == |songs| && forall j | 0 <= j < |songs| :: diff[j] == Distance(songs[j], songs[r])
    requires RanksBySimilarity(order, songs, r)
    requires count <= Candidates && count <= |order|
    ensures |Selected(songs, r, diff, order, count)| <= Candidates
    ensures forall e | e in Selected(songs, r, diff, order, count) :: e.source == songs[r].id && Chosen(songs, e)
    ensures forall p | 0 <= p < count && songs[order[p]].id != songs[r].id ::
              Edge(songs[r].id, songs[order[p]].id, Distance(songs[order[p]], songs[r])) in Selected(songs, r, diff, order, count)
  {
    if count > 0 {
      SelectedFacts(songs, r, diff, order, count - 1);
      var s := order[count - 1];
      CloserBound(songs, r, order, count - 1);
      assert songs[r].id != songs[s].id ==> Chosen(songs, Edge(songs[r].id, songs[s].id, diff[s]));
    }
  }

  /**
   * The edges of the pass of row r come only from the ranking it looked at: each one links R
   * to a row among the first `count` of `order` that has another id, weighing that row's entry
   * of the difference column.
   */
  lemma {:induction false} SelectedFrom(songs: seq<Song>, r: nat, diff: seq<real>, order: seq<nat>, count: nat)
    requires r < |songs| && |diff| == |songs| && count <= |order|
    requires forall p | 0 <= p < |order| :: order[p] < |songs|
    ensures forall e | e in Selected(songs, r, diff, order, count) ::
              exists p | 0 <= p < count ::
                songs[order[p]].id != songs[r].id && e == Edge(songs[r].id, songs[order[p]].id, diff[order[p]])
  {
    if count > 0 {
      SelectedFrom(songs, r, diff, order, count - 1);
      var s := order[count - 1];
      forall e | e in Selected(songs, r, diff, order, count)
        ensures exists p | 0 <= p < count ::
                  songs[order[p]].id != songs[r].id && e == Edge(songs[r].id, songs[order[p]].id, diff[order[p]])
      {
        if e !in Selected(songs, r, diff, order, count - 1) {
          assert e == Edge(songs[r].id, songs[s].id, diff[s]);
        }
      }
    }
  }

  /**
   * The edges of the pass of row r come only from R's own ranking: each one links R to a
   * row looked at in that ranking that has another id, weighs that row's difference to R,
   * and that row has fewer than 16 rows strictly closer to R.
   */
  lemma SelectedOrigins(songs: seq<Song>, r: nat, diff: seq<real>, order: seq<nat>, count: nat)
    requires r < |songs|
    requires |diff| == |songs| && forall j | 0 <= j < |songs| :: diff[j] == Distance(songs[j], songs[r])
    requires RanksBySimilarity(order, songs, r)
    requires count <= Candidates && count <= |order|
    ensures forall e | e in Selected(songs, r, diff, order, count) ::
              exists p | 0 <= p < count ::
                songs[order[p]].id != songs[r].id && CloserCount(songs, r, order[p]) < Candidates &&
                e == Edge(songs[r].id, songs[order[p]].id, Distance(songs[order[p]], songs[r]))
  {
    SelectedFrom(songs, r, diff, order, count);
    forall e | e in Selected(songs, r, diff, order, count)
      ensures exists p | 0 <= p < count ::
                songs[order[p]].id != songs[r].id && CloserCount(songs, r, order[p]) < Candidates &&
                e == Edge(songs[r].id, songs[order[p]].id, Distance(songs[order[p]], songs[r]))
    {
      var p :| 0 <= p < count && songs[order[p]].id != songs[r].id && e == Edge(songs[r].id, songs[order[p]].id, diff[order[p]]);
      CloserBound(songs, r, order, p);
    }
  }

  /** One chosen `add_edge` keeps every stored weight consistent and removes no adjacency. */
  lemma WithEdgeConsistent(songs: seq<Song>, vs: VertexMap<int>, e: Edge)
    requires e.source in vs && e.target in vs && Chosen(songs, e)
    requires Consistent(songs, vs)
    ensures Consistent(songs, WithEdge(vs, e.source, e.target, e.weight))
    ensures forall a, b | a in vs && b in vs[a].neighbours ::
              b in WithEdge(vs, e.source, e.target, e.weight)[a].neighbours
    ensures e.target in WithEdge(vs, e.source, e.target, e.weight)[e.source].neighbours
  {
  }

  /** A sequence of chosen `add_edge` calls keeps consistency, adjacency, and adds its edges. */
  lemma {:induction false} AddAllConsistent(songs: seq<Song>, vs: VertexMap<int>, edges: seq<Edge>)
    requires forall e | e in edges :: e.source in vs && e.target in vs && Chosen(songs, e)
    requires Consistent(songs, vs)
    ensures Consistent(songs, AddAll(vs, edges))
    ensures forall a, b | a in vs && b in vs[a].neighbours :: b in AddAll(vs, edges)[a].neighbours
    ensures forall e | e in edges :: e.target in AddAll(vs, edges)[e.source].neighbours
  {
    if edges != [] {
      var last := edges[|edges| - 1];
      var init := edges[..|edges| - 1];
      assert forall e | e in init :: e in edges;
      AddAllConsistent(songs, vs, init);
      var before := AddAll(vs, init);
      WithEdgeConsistent(songs, before, last);
      forall e | e in edges
        ensures e.target in AddAll(vs, edges)[e.source].neighbours
      {
        if e != last {
          assert e in init;
        }
      }
    }
  }

  /** Looking at the ranked row at position i adds its edge when the ids differ, else nothing. */
  lemma LinkStep(vs: VertexMap<int>, songs: seq<Song>, r: nat, diff: seq<real>, order: seq<nat>, i: nat)
    requires r < |songs| && |diff| == |songs| && i < |order|
    requires forall p | 0 <= p < |order| :: order[p] < |songs|
    requires Ids(songs) <= vs.Keys
    ensures songs[order[i]].id in vs
    ensures songs[r].id != songs[order[i]].id ==>
              AddAll(vs, Selected(songs, r, diff, order, i + 1)) ==
              WithEdge(AddAll(vs, Selected(songs, r, diff, order, i)), songs[r].id, songs[order[i]].id, diff[order[i]])
    ensures songs[r].id == songs[order[i]].id ==>
              AddAll(vs, Selected(songs, r, diff, order, i + 1)) == AddAll(vs, Selected(songs, r, diff, order, i))
  {
    var earlier := Selected(songs, r, diff, order, i);
    var s := order[i];
    assert songs[s].id in Ids(songs);
    if songs[r].id != songs[s].id {
      var e := Edge(songs[r].id, songs[s].id, diff[s]);
      assert Selected(songs, r, diff, order, i + 1) == earlier + [e];
      AddAllSnoc(vs, earlier, e);
    } else {
      assert Selected(songs, r, diff, order, i + 1) == earlier;
    }
  }

  lemma AddAllSnoc(vs: VertexMap<int>, edges: seq<Edge>, e: Edge)
    requires forall x | x in edges :: x.source in vs && x.target in vs
    requires e.source in vs && e.target in vs
    ensures forall x | x in edges + [e] :: x.source in vs && x.target in vs
    ensures AddAll(vs, edges + [e]) == WithEdge(AddAll(vs, edges), e.source, e.target, e.weight)
  {
    assert (edges + [e])[..|edges|] == edges;
  }

  /**
   * Lines 251-254, one step of a pass: links row r to the i-th ranked row unless the two
   * share an id. `start` is the graph as the pass found it.
   */
  method LinkRanked(g: WeightedGraph<int>, songs: seq<Song>, r: nat, diff: seq<real>, order: seq<nat>, i: nat,
                    ghost start: VertexMap<int>)
    requires r < |songs| && |diff| == |songs| && i < |order|
    requires forall p | 0 <= p < |order| :: order[p] < |songs|
    requires Ids(songs) <= start.Keys
    requires g.Valid() && g.vertices == AddAll(start, Selected(songs, r, diff, order, i))
    modifies g
    ensures g.Valid() && g.vertices == AddAll(start, Selected(songs, r, diff, order, i + 1))
  {
    var s := order[i];
    LinkStep(start, songs, r, diff, order, i);
    if songs[r].id != songs[s].id {
      var linked := g.AddEdge(songs[r].id, songs[s].id, diff[s]);
    }
  }

  /**
   * Lines 250-254, one pass: looks at the first 16 ranked rows and links row r to each
   * whose id differs. With fewer than 16 rows the source raises IndexError at `iloc[n]`,
   * after the edges to all n ranked rows have been added.
   */
  method LinkNearest(g: WeightedGraph<int>, songs: seq<Song>, r: nat, diff: seq<real>, order: seq<nat>)
    returns (outcome: Outcome)
    requires r < |songs|
    requires |diff| == |songs| && forall j | 0 <= j < |songs| :: diff[j] == Distance(songs[j], songs[r])
    requires |order| == |songs| && forall p | 0 <= p < |order| :: order[p] < |songs|
    requires g.Valid() && Ids(songs) <= g.vertices.Keys
    modifies g
    ensures g.Valid()
    ensures outcome == if |songs| < Candidates then Failure(IndexError) else Success
    ensures g.vertices == AddAll(old(g.vertices), Selected(songs, r, diff, order, Min(Candidates, |songs|)))
  {
    ghost var start := g.vertices;
    var i := 0;
    while i < Candidates
      invariant i <= Candidates && i <= |order|
      invariant g.Valid() && g.vertices == AddAll(start, Selected(songs, r, diff, order, i))
    {
      if i == |order| {
        return Failure(IndexError);
      }
      LinkRanked(g, songs, r, diff, order, i, start);
      i := i + 1;
    }
    return Success;
  }

  /**
   * One pass keeps every stored weight consistent, keeps earlier rows linked, and with at
   * least 16 rows links row r to its nearest rows.
   */
  lemma PassKeeps(songs: seq<Song>, r: nat, diff: seq<real>, order: seq<nat>, before: VertexMap<int>, after: VertexMap<int>)
    requires r < |songs|
    requires |diff| == |songs| && forall j | 0 <= j < |songs| :: diff[j] == Distance(songs[j], songs[r])
    requires RanksBySimilarity(order, songs, r)
    requires Ids(songs) <= before.Keys && Consistent(songs, before)
    requires after == AddAll(before, Selected(songs, r, diff, order, Min(Candidates, |songs|)))
    ensures Consistent(songs, after)
    ensures |songs| >= Candidates && LinkedUpTo(songs, before, r) ==> LinkedUpTo(songs, after, r + 1)
  {
    assert Consistent(songs, after) by {
      PassConsistent(songs, r, diff, order, before);
    }
    if |songs| >= Candidates && LinkedUpTo(songs, before, r) {
      assert Linked(songs, after, r) by {
        PassLinksRow(songs, r, diff, order, before);
      }
      assert LinkedUpTo(songs, after, r) by {
        PassConsistent(songs, r, diff, order, before);
        LinksKept(songs, before, after, r);
      }
    }
  }

  /** One pass keeps every stored weight consistent and removes no adjacency. */
  lemma PassConsistent(songs: seq<Song>, r: nat, diff: seq<real>, order: seq<nat>, before: VertexMap<int>)
    requires r < |songs|
    requires |diff| == |songs| && forall j | 0 <= j < |songs| :: diff[j] == Distance(songs[j], songs[r])
    requires RanksBySimilarity(order, songs, r)
    requires Ids(songs) <= before.Keys && Consistent(songs, before)
    ensures Consistent(songs, AddAll(before, Selected(songs, r, diff, order, Min(Candidates, |songs|))))
    ensures forall a, b | a in before && b in before[a].neighbours ::
              b in AddAll(before, Selected(songs, r, diff, order, Min(Candidates, |songs|)))[a].neighbours
  {
    SelectedFacts(songs, r, diff, order, Min(Candidates, |songs|));
    AddAllConsistent(songs, before, Selected(songs, r, diff, order, Min(Candidates, |songs|)));
  }

  /** With at least 16 rows, one pass links row r to its nearest rows. */
  lemma PassLinksRow(songs: seq<Song>, r: nat, diff: seq<real>, order: seq<nat>, before: VertexMap<int>)
    requires r < |songs| && |songs| >= Candidates
    requires |diff| == |songs| && forall j | 0 <= j < |songs| :: diff[j] == Distance(songs[j], songs[r])
    requires RanksBySimilarity(order, songs, r)
    requires Ids(songs) <= before.Keys && Consistent(songs, before)
    ensures Linked(songs, AddAll(before, Selected(songs, r, diff, order, Candidates)), r)
    ensures RankedLinked(songs, AddAll(before, Selected(songs, r, diff, order, Candidates)), order, r)
  {
    var edges := Selected(songs, r, diff, order, Candidates);
    SelectedFacts(songs, r, diff, order, Candidates);
    AddAllConsistent(songs, before, edges);
    NearestLinked(songs, r, order, edges, AddAll(before, edges));
  }

  /**
   * With at least 16 rows, after the pass of row r every row up to r is adjacent to the
   * first 16 rows of its own ranking.
   */
  lemma PassRanked(songs: seq<Song>, r: nat, diff: seq<real>, orders: seq<seq<nat>>, before: VertexMap<int>, after: VertexMap<int>)
    requires r < |songs| && r < |orders|
    requires |diff| == |songs| && forall j | 0 <= j < |songs| :: diff[j] == Distance(songs[j], songs[r])
    requires RanksBySimilarity(orders[r], songs, r)
    requires Ids(songs) <= before.Keys && Consistent(songs, before)
    requires after == AddAll(before, Selected(songs, r, diff, orders[r], Min(Candidates, |songs|)))
    ensures |songs| >= Candidates && RankedUpTo(songs, before, orders, r) ==> RankedUpTo(songs, after, orders, r + 1)
  {
    if |songs| >= Candidates && RankedUpTo(songs, before, orders, r) {
      assert RankedLinked(songs, after, orders[r], r) by {
        PassLinksRow(songs, r, diff, orders[r], before);
      }
      assert RankedUpTo(songs, after, orders, r) by {
        PassConsistent(songs, r, diff, orders[r], before);
        RankedKept(songs, orders, before, after, r);
      }
    }
  }

  /** Rows adjacent to their first-ranked rows before a pass stay so when it removes no adjacency. */
  lemma RankedKept(songs: seq<Song>, orders: seq<seq<nat>>, before: VertexMap<int>, after: VertexMap<int>, n: nat)
    requires n <= |songs| && n <= |orders| && before.Keys <= after.Keys
    requires forall a, b | a in before && b in before[a].neighbours :: b in after[a].neighbours
    requires RankedUpTo(songs, before, orders, n)
    ensures RankedUpTo(songs, after, orders, n)
  {
    forall q | 0 <= q < n
      ensures RankedLinked(songs, after, orders[q], q)
    {
      assert RankedLinked(songs, before, orders[q], q);
    }
  }

  /** A pass that adds an edge to each of the first 16 ranked rows with another id links row r. */
  lemma NearestLinked(songs: seq<Song>, r: nat, order: seq<nat>, edges: seq<Edge>, after: VertexMap<int>)
    requires r < |songs| && |songs| >= Candidates
    requires RanksBySimilarity(order, songs, r)
    requires forall p | 0 <= p < Candidates && songs[order[p]].id != songs[r].id ::
               Edge(songs[r].id, songs[order[p]].id, Distance(songs[order[p]], songs[r])) in edges
    requires forall e | e in edges :: e.source in after && e.target in after[e.source].neighbours
    ensures Linked(songs, after, r)
  {
    forall j | 0 <= j < |songs| && songs[j].id != songs[r].id && NoFartherCount(songs, r, j) <= Candidates
      ensures songs[r].id in after && songs[j].id in after[songs[r].id].neighbours
    {
      assert j in order;
      var p :| 0 <= p < |order| && order[p] == j;
      RankBound(songs, r, order, p);
      assert Edge(songs[r].id, songs[j].id, Distance(songs[j], songs[r])) in edges;
    }
  }

  /** Rows linked before a pass stay linked, since a pass removes no adjacency. */
  lemma LinksKept(songs: seq<Song>, before: VertexMap<int>, after: VertexMap<int>, n: nat)
    requires n <= |songs| && before.Keys <= after.Keys
    requires forall a, b | a in before && b in before[a].neighbours :: b in after[a].neighbours
    requires LinkedUpTo(songs, before, n)
    ensures LinkedUpTo(songs, after, n)
  {
    forall q | 0 <= q < n
      ensures Linked(songs, after, q)
    {
      assert Linked(songs, before, q);
    }
  }

  /** The vertex map after lines 240-241: one `add_vertex(id, genre)` per row, in order. */
  function Catalogue(songs: seq<Song>): (vs: VertexMap<int>)
    ensures vs.Keys == Ids(songs)
    ensures forall x | x in vs :: vs[x].neighbours == map[]
  {
    if songs == [] then map[]
    else
      var init := songs[..|songs| - 1];
      var last := songs[|songs| - 1];
      assert Ids(songs) == Ids(init) + {last.id} by {
        forall x | x in Ids(songs) ensures x in Ids(init) + {last.id} {
          var j :| 0 <= j < |songs| && songs[j].id == x;
          if j < |songs| - 1 { assert init[j] == songs[j]; }
        }
      }
      WithVertex(Catalogue(init), last.id, last.genre)
  }

  /** Each vertex takes the genre of the first row that carries its id. */
  lemma {:induction false} CatalogueFirstGenre(songs: seq<Song>, j: nat)
    requires j < |songs|
    requires forall k | 0 <= k < j :: songs[k].id != songs[j].id
    ensures Catalogue(songs)[songs[j].id].kind == songs[j].genre
  {
    var init := songs[..|songs| - 1];
    if j < |songs| - 1 {
      assert init[j] == songs[j];
      CatalogueFirstGenre(init, j);
    } else {
      assert songs[j].id !in Ids(init);
    }
  }

  /** Lines 240-241: one `add_vertex(instance_id, music_genre)` per row. */
  method AddRows(g: WeightedGraph<int>, songs: seq<Song>)
    requires g.Valid() && g.vertices == map[]
    modifies g
    ensures g.Valid() && g.vertices == Catalogue(songs)
  {
    var i := 0;
    while i < |songs|
      invariant i <= |songs|
      invariant g.Valid()
      invariant g.vertices == Catalogue(songs[..i])
    {
      assert songs[..i + 1][..i] == songs[..i];
      g.AddVertex(songs[i].id, songs[i].genre);
      i := i + 1;
    }
    assert songs[..|songs|] == songs;
  }

  /** The `difference` column of the pass of row r (lines 246-248). */
  function Differences(songs: seq<Song>, r: nat): (diff: seq<real>)
    requires r < |songs|
    ensures |diff| == |songs| && forall j | 0 <= j < |songs| :: diff[j] == Distance(songs[j], songs[r])
  {
    seq(|songs|, j requires 0 <= j < |songs| => Distance(songs[j], songs[r]))
  }

  /** Every ranking has one row index per row. */
  ghost predicate InRange(songs: seq<Song>, orders: seq<seq<nat>>)
  {
    |orders| == |songs| &&
    forall q | 0 <= q < |orders| :: |orders[q]| == |songs| && forall p | 0 <= p < |orders[q]| :: orders[q][p] < |songs|
  }

  /**
   * The vertex map after the passes of rows 0 to n - 1 (lines 245-254), each adding the
   * edges its own ranking selects, in order.
   */
  ghost function Passes(vs: VertexMap<int>, songs: seq<Song>, orders: seq<seq<nat>>, n: nat): (r: VertexMap<int>)
    requires n <= |songs| && InRange(songs, orders) && Ids(songs) <= vs.Keys
    ensures r.Keys == vs.Keys
  {
    if n == 0 then vs
    else
      var before := Passes(vs, songs, orders, n - 1);
      AddAll(before, Selected(songs, n - 1, Differences(songs, n - 1), orders[n - 1], Min(Candidates, |songs|)))
  }

  /** An adjacency after a sequence of `add_edge` calls was there before or comes from one of the calls. */
  lemma {:induction false} AddAllOrigins(vs: VertexMap<int>, edges: seq<Edge>, a: int, b: int)
    requires forall e | e in edges :: e.source in vs && e.target in vs && e.source != e.target
    requires a in vs && b in AddAll(vs, edges)[a].neighbours
    ensures b in vs[a].neighbours ||
            exists e | e in edges :: (e.source == a && e.target == b) || (e.source == b && e.target == a)
  {
    if edges != [] {
      var last := edges[|edges| - 1];
      var init := edges[..|edges| - 1];
      assert forall e | e in init :: e in edges;
      if !((last.source == a && last.target == b) || (last.source == b && last.target == a)) {
        assert b in AddAll(vs, init)[a].neighbours;
        AddAllOrigins(vs, init, a, b);
      }
    }
  }

  /**
   * Every adjacency the passes of rows 0 to n - 1 add joins some row q to a row with
   * another id that q's own ranking lists among its first 16 rows.
   */
  lemma {:induction false} PassesOrigins(vs: VertexMap<int>, songs: seq<Song>, orders: seq<seq<nat>>, n: nat, a: int, b: int)
    requires n <= |songs| && InRange(songs, orders) && Ids(songs) <= vs.Keys
    requires a in vs && b in Passes(vs, songs, orders, n)[a].neighbours
    ensures b in vs[a].neighbours ||
            exists q, p | 0 <= q < n && 0 <= p < Min(Candidates, |songs|) ::
              songs[orders[q][p]].id != songs[q].id &&
              ((a == songs[q].id && b == songs[orders[q][p]].id) || (b == songs[q].id && a == songs[orders[q][p]].id))
  {
    if n > 0 {
      var r := n - 1;
      var before := Passes(vs, songs, orders, r);
      if b in before[a].neighbours {
        PassesOrigins(vs, songs, orders, r, a, b);
      } else {
        PassesStep(vs, songs, orders, r);
        PassOrigins(songs, orders, r, before, Passes(vs, songs, orders, n), a, b);
      }
    }
  }

  /**
   * In the graph the construction builds, every adjacency joins some row q to a row with
   * another id that q's own ranking lists among its first 16 rows: the catalogue has no edges.
   */
  lemma BuiltOrigins(songs: seq<Song>, orders: seq<seq<nat>>, n: nat)
    requires n <= |songs| && InRange(songs, orders)
    ensures forall a, b | a in Catalogue(songs) && b in Passes(Catalogue(songs), songs, orders, n)[a].neighbours ::
              exists q, p | 0 <= q < n && 0 <= p < Min(Candidates, |songs|) ::
                songs[orders[q][p]].id != songs[q].id &&
                ((a == songs[q].id && b == songs[orders[q][p]].id) || (b == songs[q].id && a == songs[orders[q][p]].id))
  {
    forall a, b | a in Catalogue(songs) && b in Passes(Catalogue(songs), songs, orders, n)[a].neighbours
      ensures exists q, p | 0 <= q < n && 0 <= p < Min(Candidates, |songs|) ::
                songs[orders[q][p]].id != songs[q].id &&
                ((a == songs[q].id && b == songs[orders[q][p]].id) || (b == songs[q].id && a == songs[orders[q][p]].id))
    {
      PassesOrigins(Catalogue(songs), songs, orders, n, a, b);
    }
  }

  /** The passes of rows 0 to r are those of rows 0 to r - 1 followed by the pass of row r. */
  lemma PassesStep(vs: VertexMap<int>, songs: seq<Song>, orders: seq<seq<nat>>, r: nat)
    requires r < |songs| && InRange(songs, orders) && Ids(songs) <= vs.Keys
    ensures Passes(vs, songs, orders, r + 1) ==
            AddAll(Passes(vs, songs, orders, r), Selected(songs, r, Differences(songs, r), orders[r], Min(Candidates, |songs|)))
  {
  }

  /** An adjacency that the pass of row r adds joins row r to a row its ranking lists early. */
  lemma PassOrigins(songs: seq<Song>, orders: seq<seq<nat>>, r: nat, before: VertexMap<int>, after: VertexMap<int>, a: int, b: int)
    requires r < |songs| && InRange(songs, orders) && Ids(songs) <= before.Keys
    requires after == AddAll(before, Selected(songs, r, Differences(songs, r), orders[r], Min(Candidates, |songs|)))
    requires a in before && b !in before[a].neighbours && b in after[a].neighbours
    ensures exists p | 0 <= p < Min(Candidates, |songs|) ::
              songs[orders[r][p]].id != songs[r].id &&
              ((a == songs[r].id && b == songs[orders[r][p]].id) || (b == songs[r].id && a == songs[orders[r][p]].id))
  {
    var edges := Selected(songs, r, Differences(songs, r), orders[r], Min(Candidates, |songs|));
    AddAllOrigins(before, edges, a, b);
    var e :| e in edges && ((e.source == a && e.target == b) || (e.source == b && e.target == a));
    SelectedFrom(songs, r, Differences(songs, r), orders[r], Min(Candidates, |songs|));
  }

  /** Rankings sorted by similarity are in range. */
  lemma RankingsInRange(songs: seq<Song>, orders: seq<seq<nat>>)
    requires |orders| == |songs|
    requires forall r | 0 <= r < |songs| :: RanksBySimilarity(orders[r], songs, r)
    ensures InRange(songs, orders)
  {
    forall q | 0 <= q < |orders|
      ensures |orders[q]| == |songs| && forall p | 0 <= p < |orders[q]| :: orders[q][p] < |songs|
    {
      assert RanksBySimilarity(orders[q], songs, q);
    }
  }

  /**
   * Lines 245-254: the pass of every row in turn. The first pass that raises IndexError
   * ends the construction.
   */
  method LinkRows(g: WeightedGraph<int>, songs: seq<Song>, orders: seq<seq<nat>>) returns (outcome: Outcome)
    requires |orders| == |songs|
    requires forall r | 0 <= r < |songs| :: RanksBySimilarity(orders[r], songs, r)
    requires g.Valid() && g.vertices.Keys == Ids(songs) && Consistent(songs, g.vertices)
    modifies g
    ensures g.Valid()
    ensures outcome == if 0 < |songs| < Candidates then Failure(IndexError) else Success
    ensures g.vertices.Keys == old(g.vertices).Keys
    ensures forall x | x in g.vertices :: g.vertices[x].kind == old(g.vertices)[x].kind
    ensures Consistent(songs, g.vertices)
    ensures outcome == Success ==> LinkedUpTo(songs, g.vertices, |songs|)
    ensures outcome == Success ==> RankedUpTo(songs, g.vertices, orders, |songs|)
    ensures outcome == Success ==> InRange(songs, orders) && g.vertices == Passes(old(g.vertices), songs, orders, |songs|)
    ensures outcome.Failure? ==> InRange(songs, orders) && g.vertices == Passes(old(g.vertices), songs, orders, 1)
  {
    RankingsInRange(songs, orders);
    var r := 0;
    while r < |songs|
      invariant r <= |songs|
      invariant r > 0 ==> |songs| >= Candidates
      invariant g.Valid()
      invariant g.vertices.Keys == old(g.vertices).Keys
      invariant forall x | x in g.vertices :: g.vertices[x].kind == old(g.vertices)[x].kind
      invariant Consistent(songs, g.vertices)
      invariant LinkedUpTo(songs, g.vertices, r)
      invariant RankedUpTo(songs, g.vertices, orders, r)
      invariant g.vertices == Passes(old(g.vertices), songs, orders, r)
    {
      var diff := DifferenceColumn(songs, r);
      assert diff == Differences(songs, r);
      ghost var before := g.vertices;
      outcome := LinkNearest(g, songs, r, diff, orders[r]);
      PassKeeps(songs, r, diff, orders[r], before, g.vertices);
      PassRanked(songs, r, diff, orders, before, g.vertices);
      if outcome.Failure? {
        return;
      }
      r := r + 1;
    }
    outcome := Success;
  }

  /**
   * Lines 238-254: builds the weighted similarity graph. `orders[r]` is the ranking that
   * `sort_values` produced in the pass of row r.
   */
  method BuildSimilarityGraph(songs: seq<Song>, orders: seq<seq<nat>>)
    returns (g: WeightedGraph<int>, outcome: Outcome)
    requires |orders| == |songs|
    requires forall r | 0 <= r < |songs| :: RanksBySimilarity(orders[r], songs, r)
    ensures fresh(g) && g.Valid()
    ensures outcome == if 0 < |songs| < Candidates then Failure(IndexError) else Success
    ensures g.vertices.Keys == Ids(songs)
    ensures forall x | x in g.vertices :: g.vertices[x].kind == Catalogue(songs)[x].kind
    ensures Consistent(songs, g.vertices)
    ensures outcome == Success ==> LinkedUpTo(songs, g.vertices, |songs|)
    ensures outcome == Success ==> RankedUpTo(songs, g.vertices, orders, |songs|)
    ensures outcome == Success ==> InRange(songs, orders) && g.vertices == Passes(Catalogue(songs), songs, orders, |songs|)
    ensures outcome.Failure? ==> InRange(songs, orders) && g.vertices == Passes(Catalogue(songs), songs, orders, 1)
  {
    g := new WeightedGraph();
    AddRows(g, songs);
    outcome := LinkRows(g, songs, orders);
  }

  /**
   * With unique ids, every stored weight is the difference of the two rows, and one of the
   * two rows ranked the other within its first 16. A vertex can thus gain neighbours from
   * other rows' passes beyond its own 16.
   */
  lemma ConsistentWeights(songs: seq<Song>, vs: VertexMap<int>, i: nat, j: nat)
    requires Consistent(songs, vs)
    requires forall a, b | 0 <= a < b < |songs| :: songs[a].id != songs[b].id
    requires i < |songs| && j < |songs|
    requires songs[i].id in vs && songs[j].id in vs[songs[i].id].neighbours
    ensures vs[songs[i].id].neighbours[songs[j].id] == Distance(songs[i], songs[j])
    ensures CloserCount(songs, i, j) < Candidates || CloserCount(songs, j, i) < Candidates
  {
    var w := vs[songs[i].id].neighbours[songs[j].id];
    DistanceSymmetric(songs[i], songs[j]);
    if Chosen(songs, Edge(songs[i].id, songs[j].id, w)) {
      var a, b :| 0 <= a < |songs| && 0 <= b < |songs| && songs[a].id == songs[i].id && songs[b].id == songs[j].id &&
                  w == Distance(songs[b], songs[a]) && CloserCount(songs, a, b) < Candidates;
      assert a == i && b == j;
    } else {
      assert Chosen(songs, Edge(songs[j].id, songs[i].id, w));
      var a, b :| 0 <= a < |songs| && 0 <= b < |songs| && songs[a].id == songs[j].id && songs[b].id == songs[i].id &&
                  w == Distance(songs[b], songs[a]) && CloserCount(songs, a, b) < Candidates;
      assert a == j && b == i;
    }
  }
}
