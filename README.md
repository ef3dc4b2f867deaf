# Song-similarity graph: a Dafny model

This project models the core of a music recommender, `graph_loader.py`. It has two parts.

- **The graph classes.** `Graph` is an undirected graph with one vertex per item. Each vertex has a
  `kind` label and a set of neighbours. `WeightedGraph` is its subclass: each vertex maps its
  neighbours to edge weights. Both keep a dictionary `_vertices` from item to vertex.
- **The similarity-graph construction** in the script block of the same file. Every row of the song
  table becomes a vertex labelled with its genre. Then, for every row R:
  - an L1 difference to every row is computed: the `acousticness` term plus one term for each of
    the five columns `data.columns[4:9]`;
  - the rows are sorted by that difference;
  - R is linked to each of the first 16 sorted rows whose `instance_id` differs from R's. The
    difference is the edge weight.

Modules:

- `Outcomes` (`outcomes.dfy`): the exceptions the code raises, as values.
  - `ValueError`: unknown vertex.
  - `ZeroDivisionError`: average over no neighbours.
  - `IndexError`: `iloc` past the end.
- `Graphs` (`graph.dfy`): class `Graph`. A vertex is a `Vertex(kind, neighbours)` value, and the
  graph is a field `vertices: map<Item, Vertex<Item>>` that the methods reassign.
- `WeightedGraphs` (`weighted_graph.dfy`): class `WeightedGraph`. Each vertex's neighbours are a
  `map<Item, real>`. The representation invariants are "no self-loops" and "symmetric adjacency
  with equal weights". Value-level functions `WithVertex` and `WithEdge` give the new vertex map.
  The methods are proved against them.
- `Similarity` (`similarity.dfy`): songs, the L1 `Distance`, and the construction steps:
  - the difference-column loop;
  - one pass per row (`LinkNearest`);
  - the two loops of the script (`AddRows`, `LinkRows`);
  - `BuildSimilarityGraph`, which runs both loops.
  It also holds the lemmas about what the construction produces.

Vertex identity is the item, so neighbours are keyed by item rather than by vertex object. Raised
exceptions become returned `Outcome`/`Result` values, and the state is unchanged after a
`ValueError`.

Small tables raise an error rather than getting fewer edges. The inner loop at
graph_loader.py:250-251 indexes `iloc[i]` for every `i < 16` with no check, and `iloc[i]` with
`i >= n` raises `IndexError`. So with `0 < n < 16` rows the first pass raises `IndexError` after it
has looked at all `n` ranked rows and linked R to each of them with another id (at most `n - 1`
edges). The model follows the code: `LinkNearest` and `BuildSimilarityGraph` return
`Failure(IndexError)` exactly when `0 < n < 16`, and an empty table gives an empty graph with no
error.

The `sort_values` call is a pandas sort, and its tie order is not specified. The model takes the
ranking of each pass as an input `orders[r]`. The only requirement is that it is a permutation of
the rows in non-decreasing difference (`RanksBySimilarity`). Every property below holds for every
such ranking, so none depends on how ties are broken.

## Model

| member | source | states |
|---|---|---|
| `Graphs.Vertex.Degree` | graph_loader.py:39-41 | the number of neighbours; zero exactly when the vertex is isolated |
| `Graphs.Graph.Valid` | graph_loader.py:18-20 | the representation invariants: no vertex is its own neighbour, and adjacency is symmetric |
| `Graphs.Graph.constructor` | graph_loader.py:53-55 | a new graph has no vertices and satisfies the invariants |
| `Graphs.Graph.AddVertex` | graph_loader.py:57-67 | a present item leaves the graph unchanged; a new item adds exactly one vertex with the given kind and no neighbours; every other vertex is untouched; the invariants are kept |
| `Graphs.Graph.AddEdge` | graph_loader.py:69-84 | ValueError, with nothing changed, iff an endpoint is not a vertex; otherwise each endpoint gains the other as a neighbour, both are adjacent afterwards, every other vertex is untouched, and the invariants are kept |
| `Graphs.Graph.Adjacent` | graph_loader.py:86-95 | false when either item is absent; otherwise true iff item2 is among item1's neighbours |
| `Graphs.Graph.GetNeighbours` | graph_loader.py:97-108 | ValueError iff the item is absent; otherwise exactly the neighbours' items, as many as the vertex's degree |
| `Graphs.Graph.GetAllVertices` | graph_loader.py:110-121 | kind "" gives every item; any other kind gives exactly the items of that kind |
| `Graphs.AdjacentSymmetric` | graph_loader.py:18-20 | under the invariants, adjacent(a, b) == adjacent(b, a) |
| `Graphs.NeighboursAreAdjacent` | graph_loader.py:97-108 | under the invariants, y is returned by get_neighbours(x) iff adjacent(x, y) |
| `Graphs.KindFiltersDisjoint` | graph_loader.py:110-121 | the filters of two different non-empty kinds are disjoint |
| `WeightedGraphs.WeightedVertex.Degree` | graph_loader.py:39-41 | the inherited degree: the number of weighted neighbours, zero exactly when isolated |
| `WeightedGraphs.Invariant` | graph_loader.py:137-140 | the representation invariants of the weighted vertices: no self-loops, and every neighbour lists the edge back with the same weight |
| `WeightedGraphs.WithVertex` | graph_loader.py:186-187 | the vertex map after add_vertex: the key set gains the item, existing vertices are unchanged, and a new vertex has the given kind and no neighbours |
| `WeightedGraphs.WithEdge` | graph_loader.py:198-204 | the vertex map after add_edge: same keys and kinds, the two neighbour maps set to the weight in both directions (overwriting), and every other vertex unchanged |
| `WeightedGraphs.WithEdgeKeepsInvariant` | graph_loader.py:137-140 | an edge between two distinct vertices keeps "no self-loops" and "symmetric adjacency with equal weights" |
| `WeightedGraphs.TotalWeight` | graph_loader.py:228 | the sum of the values of a neighbour map, taken one key at a time; its laws are the lemmas below |
| `WeightedGraphs.TotalWeightNonNegative` | graph_loader.py:228 | non-negative weights (such as L1 differences) have a non-negative sum |
| `WeightedGraphs.TotalWeightRemove` | graph_loader.py:228 | the sum of the neighbour weights is any one weight plus the sum of the rest, whichever is taken first |
| `WeightedGraphs.TotalWeightUpdate` | graph_loader.py:203-204 | overwriting a weight changes the sum by the difference of the two weights, and a new weight adds to it: last write wins, no accumulation |
| `WeightedGraphs.TotalWeightAtLeast` | graph_loader.py:228 | n weights of at least lo sum to at least n * lo |
| `WeightedGraphs.TotalWeightAtMost` | graph_loader.py:228 | n weights of at most hi sum to at most n * hi |
| `WeightedGraphs.WeightedGraph.constructor` | graph_loader.py:170-175 | a new weighted graph has no vertices and satisfies the invariants |
| `WeightedGraphs.WeightedGraph.AddVertex` | graph_loader.py:177-187 | a present item leaves the graph unchanged; a new item adds one vertex of degree 0 to the vertex set; the invariants are kept |
| `WeightedGraphs.WeightedGraph.AddEdge` | graph_loader.py:189-207 | ValueError, with nothing changed, iff an endpoint is not a vertex; otherwise get_weight is the new weight in both directions, a prior weight is overwritten without raising the degree, every other vertex is unchanged, and the invariants are kept |
| `WeightedGraphs.WeightedGraph.Adjacent` | graph_loader.py:86-95 | inherited adjacent over the neighbour map's keys: false when either item is absent, otherwise true iff item2 is a key of item1's neighbours |
| `WeightedGraphs.WeightedGraph.GetNeighbours` | graph_loader.py:97-108 | inherited get_neighbours: ValueError iff absent; otherwise the keys of the neighbour map, as many as the degree |
| `WeightedGraphs.WeightedGraph.GetAllVertices` | graph_loader.py:110-121 | inherited get_all_vertices: kind "" gives every item, any other kind exactly the items of that kind |
| `WeightedGraphs.WeightedGraph.GetWeight` | graph_loader.py:209-219 | for two vertices: the edge weight when adjacent, 0 when not |
| `WeightedGraphs.WeightedGraph.AverageWeight` | graph_loader.py:221-230 | ValueError iff the item is absent; ZeroDivisionError iff it has no neighbours; a result exactly when the item is present with at least one neighbour, and then the result times the number of neighbours is the sum of the incident weights |
| `WeightedGraphs.WeightSymmetric` | graph_loader.py:137-140 | under the invariants, adjacency and get_weight are symmetric |
| `WeightedGraphs.AverageWithinBounds` | graph_loader.py:221-230 | the average lies between any lower and upper bound of the incident weights |
| `WeightedGraphs.AverageOfSingleEdge` | graph_loader.py:221-230 | a vertex with exactly one neighbour averages that edge's weight |
| `Similarity.ColumnsDistance` | graph_loader.py:247-248 | the per-column part of the difference is never negative |
| `Similarity.Distance` | graph_loader.py:246-248 | the `difference` entry of a row in another row's pass: the acousticness term plus the per-column terms; never negative |
| `Similarity.DistanceSymmetric` | graph_loader.py:246-248 | the difference of S in R's pass equals the difference of R in S's pass |
| `Similarity.DistanceZero` | graph_loader.py:246-248 | the difference is non-negative, and zero iff the acousticness and all five column values are equal (so duplicates under other ids rank at difference 0) |
| `Similarity.DifferenceColumn` | graph_loader.py:246-248 | the loop over columns yields, for every row, its L1 difference to row r |
| `Similarity.RanksBySimilarity` | graph_loader.py:249 | a result of the ascending `sort_values`: a permutation of the rows in non-decreasing difference to row R, ties in any order |
| `Similarity.CloserBound` | graph_loader.py:249-251 | in any ascending ranking, the row at rank p has at most p rows strictly closer |
| `Similarity.Selected` | graph_loader.py:250-254 | the edges of one pass: at most one per ranked row looked at, all from row r's id, none a self-loop, all to ids of the table |
| `Similarity.SelectedFacts` | graph_loader.py:250-254 | in one pass: at most 16 edges, each from R and explainable by some pass under some tie order (`Chosen`); every row with another id among the first 16 ranked gets its edge, weighing its difference to R, duplicates included |
| `Similarity.SelectedOrigins` | graph_loader.py:250-254 | conversely, every edge of the pass goes from R to a row looked at in R's own ranking that has another id, weighs that row's difference to R, and that row has fewer than 16 rows strictly closer to R |
| `Similarity.AddAll` | graph_loader.py:252-254 | a sequence of add_edge calls on existing vertices keeps the vertex set and every kind |
| `Similarity.WithEdgeConsistent` | graph_loader.py:252-254 | one add_edge that some pass could make under some tie order keeps every stored weight so explained, removes no adjacency, and adds its edge |
| `Similarity.AddAllConsistent` | graph_loader.py:252-254 | a sequence of such add_edge calls keeps every stored weight explained by some pass under some tie order, removes no adjacency, and adds all its edges |
| `Similarity.LinkRanked` | graph_loader.py:251-254 | one step of a pass: the i-th ranked row is linked to row R when their ids differ, so the vertex map grows by exactly the next selected edge and stays valid |
| `Similarity.LinkNearest` | graph_loader.py:250-254 | one pass: IndexError iff fewer than 16 rows; the new vertex map is the old one with the pass's edges (from the first min(16, n) ranked rows) added in order; the graph stays valid. It needs only that the ranking has one in-range entry per row |
| `Similarity.PassKeeps` | graph_loader.py:245-254 | a pass keeps every stored weight explained by some pass under some tie order and keeps earlier rows linked; with at least 16 rows it links R to every row with another id that lies within R's 16 nearest under every tie order |
| `Similarity.PassConsistent` | graph_loader.py:250-254 | a pass adds only edges some pass could make under some tie order, so every stored weight stays so explained and no adjacency is lost |
| `Similarity.PassLinksRow` | graph_loader.py:250-254 | with at least 16 rows, after the pass row R is adjacent to every row with another id among the first 16 of its ranking, and so to every row with another id within its 16 nearest under every tie order |
| `Similarity.PassRanked` | graph_loader.py:245-254 | with at least 16 rows, after the pass of row R every row up to R is adjacent to the rows with another id among the first 16 of its own ranking |
| `Similarity.RankedKept` | graph_loader.py:245-254 | rows adjacent to their first-ranked rows before a pass stay so when the pass removes no adjacency |
| `Similarity.NearestLinked` | graph_loader.py:250-254 | if the pass adds an edge to each of the first 16 ranked rows with another id, row R is linked |
| `Similarity.LinksKept` | graph_loader.py:245-254 | rows linked before a pass stay linked when the pass removes no adjacency |
| `Similarity.Passes` | graph_loader.py:245-254 | the vertex map after the passes of the first n rows, each the add_edge calls its own ranking selects, in order; the key set is kept |
| `Similarity.AddAllOrigins` | graph_loader.py:252-254 | an adjacency after a sequence of add_edge calls was present before or is one of the calls' edges, in either direction |
| `Similarity.PassesOrigins` | graph_loader.py:245-254 | nothing else is added: every adjacency the passes create joins some row q to a row with another id that q's own ranking lists among its first min(16, n) rows |
| `Similarity.BuiltOrigins` | graph_loader.py:238-254 | in the graph built from the catalogue (which has no edges), every adjacency joins some row q to a row with another id among the first min(16, n) rows of q's own ranking, so a tie order that never puts a pair early in either row's ranking never links them |
| `Similarity.Catalogue` | graph_loader.py:240-241 | the vertex map after one add_vertex per row: exactly the rows' ids, no edges |
| `Similarity.CatalogueFirstGenre` | graph_loader.py:240-241 | an id's vertex has the genre of the first row carrying that id |
| `Similarity.AddRows` | graph_loader.py:240-241 | the vertex loop produces that vertex map |
| `Similarity.LinkRows` | graph_loader.py:245-254 | the edge loop: IndexError iff 0 < n < 16, and then the map is exactly the first pass applied (`Passes` for one row); on success the map is exactly `Passes` over all rows, each pass adding the edges its own ranking selects; vertices and kinds unchanged; every stored weight explained by some pass under some tie order; every row adjacent to every row with another id among the first 16 of its own ranking, and hence to its nearest rows under every tie order |
| `Similarity.BuildSimilarityGraph` | graph_loader.py:238-254 | the whole construction: one vertex per id with its first row's genre, the invariants, IndexError iff 0 < n < 16; the final map is exactly `Passes` applied to the catalogue (all passes on success, the first on IndexError); every stored weight explained by some pass under some tie order, and on success every row adjacent to each row with another id among the first 16 of its ranking, and hence to its nearest rows under every tie order |
| `Similarity.ConsistentWeights` | graph_loader.py:245-254 | with unique ids, every stored weight is the L1 difference of its two rows, and one of the two rows has the other within its 16 nearest; the bound is on one endpoint's ranking, not on either vertex's degree |

## Left out

- Reading `music_genre.csv`, the column drop and `dropna` (graph_loader.py:235-237). The model takes
  the rows as an already filtered sequence of `Song` values. Each `Song` has an id, a genre, the
  acousticness value and the five values of the columns at positions 4 to 8.
- Which named columns `data.columns[4:9]` selects depends on the CSV's header. This is not part of
  the model. The model adds the acousticness term and the five positional columns separately, as the
  code writes them.
- Floating point. Features, differences and weights are exact `real`s. The floating-point noise that
  could make two passes write slightly different weights for the same pair is not modelled.
- `sort_values` itself. Its result is an input with the property stated above. The model does not
  choose a tie order.
- The `kind in {'user', 'book'}` preconditions of the graph classes. The construction passes genre
  strings, so `kind` is an unconstrained string.
- `WeightedGraph.AverageWeight` is a ghost function, because the sum over the neighbour map's values
  is defined by choosing keys in an unspecified order. The order-independence of that sum is proved
  (`TotalWeightRemove`).
- The model keeps `Graph` and `WeightedGraph` as two classes with no inheritance. The inherited
  `adjacent`, `get_neighbours` and `get_all_vertices` are declared again on `WeightedGraph`.
- Aliasing of `_Vertex` objects. Vertex values live in the graph's map, and an update replaces the
  map entry. There is one vertex per item, so nothing observable differs.
- `main.py`, `output.py` and `pdf_loader.py`: console input, song lookup by name, the per-genre graph
  cache, and PDF rendering. `load_graph` and `get_song_recommendations` are called there but are not
  defined in the source files of this model, so the neighbour ranking step is not part of this model.
- The doctest and python_ta calls.
