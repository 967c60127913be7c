# Subset Steiner trees by Kruskal and downward relaxation — a Dafny model

`steiner.cpp` reads a weighted undirected graph on N vertices as an adjacency
matrix. For every vertex subset V, encoded as a bit mask, it computes a minimum
spanning tree of the subgraph induced by V, using Kruskal's algorithm over a
union-find structure. It then runs a downward relaxation over the subsets,
from tier N to tier 3, where a tier is the set of subsets with a given number
of vertices. In that pass a subset can take over the weight and the tree
reference of a superset that has one vertex more. The result is a heuristic
Steiner tree for each subset, in which vertices outside V may serve as
connectors.

This project models the computational core of that program in Dafny and proves
properties of the model:

- `subsets.dfy` (module `Subsets`) covers masks as natural numbers:
  - membership `Bit(V, i)`, standing for `(V & (1 << i)) > 0`;
  - the popcount, and subset inclusion;
  - what `V - (1 << i)` does to a mask.
- `graph.dfy` (module `Graph`) covers edges and edge lists:
  - the induced subgraph and list weight;
  - a reference definition of connectivity, namely component labels obtained
    by merging the two endpoint classes of each edge in turn;
  - acyclicity, spanning trees, and trees that connect a subset through any vertices (Steiner trees, not necessarily of minimum weight);
  - `OwnResult`, the result that `min_spanning_tree_for_subset` promises.
- `union_find.dfy` (module `UnionFind`) models the class `disjoint_set` as a
  Dafny class that updates its arrays in place. `find` compresses paths
  recursively. `merge` uses rank-based linking, exactly as written.
- `kruskal.dfy` (module `Kruskal`) models `min_spanning_tree_for_subset`. It is
  proved against `OwnResult`, and the union-find partition is proved to track
  the reference connectivity.
- `steiner.dfy` (module `Steiner`) models the body of `main` without its I/O:
  - the edge filter over the matrix;
  - the results table;
  - popcount bucketing;
  - the three nested relaxation loops, as `Relax`, `RelaxTier` and
    `OfferDown`;
  - `BuildTable`, which chains them.

The main results:

- **Kruskal.** For edge lists sorted by weight, the Kruskal routine returns:
  - weight 0 and no edges when V has fewer than two members;
  - -1 and no edges exactly when the induced subgraph is disconnected;
  - otherwise an acyclic list of |V| - 1 induced edges that spans V, together
    with its weight.
- **Relaxation.** The table after the pass is given exactly, as a fold
  (`Relaxed`) of one offer step per source over the tiers N down to 3.
  About that fold it is proved that:
  - every entry refers to a superset of its subset;
  - the entry it refers to still holds that superset's own result, so the
    reported weight is the referred entry's final weight, and the displayed
    tree is that entry's own tree;
  - every reported weight other than -1 is the weight of a real tree of graph
    edges that connects all of V;
  - with non-negative edge weights, a subset W with at least two vertices and
    fewer than N, whose one-larger supersets all end with weight at least 0,
    ends with weight at least 0 and at most each of theirs;
  - subsets of at most one vertex and the full set are never written.
- **Where the code departs from common expectations.** Two points, and the
  model follows the code in both:
  - Union by rank. Textbook union by rank hangs the lower-rank root under the
    higher-rank one. `merge` does the opposite when ranks differ
    (steiner.cpp:72-73): the higher-rank root goes under the lower-rank root.
    For that reason `find`'s termination rests on a ghost level per vertex,
    not on ranks.
  - The final weight of a connected subset. One might expect a connected
    subset's final weight to be at most its own minimum spanning tree weight.
    In the code, the relaxation test at steiner.cpp:165 also fires when the
    source weighs -1 and the target weighs at least 0. Example: a triangle
    0-1-2 plus an isolated vertex 3 has {0, 1, 2} overwritten with -1 from
    {0, 1, 2, 3}. `Steiner.Offer` states this overwrite explicitly. The
    properties listed above hold regardless.
- **Sort order.** The code calls `std::sort`, which is not stable. With a
  stable sort, edges of equal weight would keep matrix order. The model only
  assumes that the edge list is sorted by weight, and nothing proved depends
  on how ties are ordered.

## Model

| member | source | states |
|---|---|---|
| Subsets.BitBound | steiner.cpp:162-163 | a mask that contains vertex i is at least 2^i, so `V - I` is never negative and scanning I up to maxV reaches every member |
| Subsets.ClearBit | steiner.cpp:163-166 | for a member i, `V - 2^i` contains exactly the members of V other than i |
| Subsets.PopcountClear | steiner.cpp:163-166 | removing a member lowers the popcount by one, so the target `V - I` lies one tier below the source V |
| Subsets.ClearBitSubset | steiner.cpp:163-166 | `V - 2^i` is a subset of V that lacks i |
| Subsets.MembersCount | steiner.cpp:86-88 | the popcount of V below k equals the number of its members below k |
| Subsets.TwoMembers | steiner.cpp:90 | a mask with two distinct members below N has popcount at least 2, so the early return at n < 2 only happens for at most one member |
| Subsets.Pow2Below | steiner.cpp:162 | a single-vertex mask I = 2^i below 2^N names a vertex i < N |
| Subsets.SubsetPopcount | steiner.cpp:163-166 | a subset has at most as many members as its superset, and the same number only when the two agree on every vertex |
| Subsets.SameBits | steiner.cpp:160-167 | two masks below 2^N with the same members are equal |
| Subsets.ProperSubsetPopcount | steiner.cpp:163-166 | a proper subset has strictly fewer members |
| Subsets.SetBit | steiner.cpp:163-166 | `W + 2^i` for a vertex i that W lacks has exactly W's members and i |
| Subsets.SetBitBound | steiner.cpp:139 | adding a vertex below N keeps a mask at most maxV |
| Subsets.MissingVertex | steiner.cpp:160 | a subset with fewer than k members below k lacks a vertex below k |
| Subsets.ChildMember | steiner.cpp:162-166 | every one-smaller subset of V is `V - 2^i` for a member i, so the scan over I reaches every child |
| Subsets.ParentOf | steiner.cpp:162-166 | adding a vertex i < N that W lacks gives a mask below 2^N of which W is a child |
| Subsets.SomeParent | steiner.cpp:160-166 | a subset other than the full set has a parent below 2^N |
| Graph.CompareEdge | steiner.cpp:32 | e sorts before f exactly when e.w < f.w |
| Graph.CompareEdgeStrictWeak | steiner.cpp:32 | the comparator is a strict weak order: irreflexive, transitive, and equal weights (incomparability) are transitive |
| Graph.SortedWeights | steiner.cpp:134 | in a list sorted with the comparator, weights never decrease from an earlier position to a later one |
| Graph.Induced | steiner.cpp:99 | the induced edge list holds exactly the edges of E whose endpoints both lie in V |
| Graph.JoinedExtend | steiner.cpp:100-103 | appending an edge keeps every existing connection and connects the edge's two endpoints |
| Graph.LabelFinest | steiner.cpp:97 | any labelling that agrees on the endpoints of every edge is coarser than the components, so the component labels are the finest such labelling |
| Graph.JoinedMonotone | steiner.cpp:99-104 | every connection made by a list of edges is also made by any list that contains all of them |
| Graph.WeightNonNegative | steiner.cpp:101-102 | with non-negative edge weights, every sub-list of the edges weighs at least 0 |
| Graph.SentinelMeansDisconnected | steiner.cpp:91-112 | with non-negative weights, an own result is -1 if and only if V has two or more members and its induced subgraph is disconnected, and it is never below -1 |
| UnionFind.CompressRoot | steiner.cpp:64 | pointing u straight at its root keeps the forest well founded and leaves the root of every vertex unchanged |
| UnionFind.CompressRoots | steiner.cpp:64 | the same write leaves the whole root vector unchanged |
| UnionFind.LinkRoot | steiner.cpp:72-74 | hanging root ru under root rv moves exactly ru's class to rv and leaves every other vertex's root alone |
| UnionFind.LinkRoots | steiner.cpp:72-74 | the root vector after the link equals the two classes merged under rv |
| UnionFind.DisjointSet.constructor | steiner.cpp:55-58 | n singleton classes, each vertex its own root, every rank 1 |
| UnionFind.DisjointSet.Find | steiner.cpp:61-65 | returns u's root, which is a root; the partition is unchanged; u now points straight at its root; every parent link that changed points at its vertex's root |
| UnionFind.DisjointSet.Merge | steiner.cpp:68-75 | the classes of u and v are united and nothing else changes in the partition; the result is the common root and is one of the two old roots; if already joined, the ranks are unchanged; for differing ranks, the higher-rank root goes under the lower-rank one with no rank change; for equal ranks, u's root goes under v's and v's rank grows by one |
| UnionFind.DisjointSet.Link | steiner.cpp:72-74 | hanging root ru under root rv moves exactly ru's class to rv |
| UnionFind.MergedRootsOfRoots | steiner.cpp:70-74 | uniting the classes of u and v is uniting those of their roots, in either order |
| Kruskal.MergePartition | steiner.cpp:103 | uniting two union-find classes gives the same partition as relabelling by the edge between them |
| Kruskal.ClassesInitially | steiner.cpp:92-93 | before any edge, the members of V form popcount(V) classes |
| Kruskal.ClassesShrink | steiner.cpp:99-103 | an edge between two classes of V's members removes exactly one class |
| Kruskal.OneClass | steiner.cpp:107 | with a single class left, the tree connects every two members of V |
| Kruskal.TwoClasses | steiner.cpp:110-112 | with two or more classes, some two members of V are not connected |
| Kruskal.AcyclicExtend | steiner.cpp:97-100 | appending an edge whose endpoints were not yet connected keeps the tree acyclic |
| Kruskal.WeightAppend | steiner.cpp:101-102 | appending an edge adds its weight to the tree's weight |
| Kruskal.ScanSkip | steiner.cpp:97-99 | passing over an edge that is already closed, or not inside V, keeps the scan invariant |
| Kruskal.ScanTake | steiner.cpp:97-107 | taking an edge that joins two unconnected members of V removes one class; the scan either continues or the tree, now of n - 1 edges, is a spanning tree of the induced subgraph with its weight |
| Kruskal.ScanEnd | steiner.cpp:110-112 | a scan that ends below n - 1 edges proves the induced subgraph disconnected, so -1 with no edges is the correct result |
| Kruskal.ScanStart | steiner.cpp:92-94 | the empty tree, weight 0 and singleton roots satisfy the scan invariant |
| Kruskal.ScanStep | steiner.cpp:95-108 | one edge of the loop, taken exactly when the roots differ and both endpoints are in V, keeps the invariant together with the union-find partition, or completes the tree at n - 1 edges |
| Kruskal.CountMembers | steiner.cpp:86-88 | the count equals the popcount of V and the number of members of V |
| Kruskal.MinSpanningTreeForSubset | steiner.cpp:83-113 | returns 0 and no edges below two members; returns -1 and no edges if and only if the induced subgraph is disconnected; otherwise returns a spanning tree of the induced subgraph (\|V\| - 1 induced edges, acyclic, connecting V) and its weight |
| Steiner.ExtractEdges | steiner.cpp:123-131 | every edge comes from a non-zero matrix entry above the diagonal, every such entry yields an edge, and the edges are in row-major order |
| Steiner.FillTable | steiner.cpp:139-145 | 2^N entries; entry V names V, refers to itself and holds V's own Kruskal result |
| Steiner.CountOnes | steiner.cpp:154-156 | reading the low bit and halving N times counts exactly the members of V |
| Steiner.TierList | steiner.cpp:150-158 | the list for popcount k after masks 0..m-1 have been bucketed holds exactly the masks below m of popcount k, in strictly ascending order |
| Steiner.BucketByPopcount | steiner.cpp:150-158 | the buckets equal `Buckets(N)`: every mask below 2^N is in list k if and only if k is its popcount, and each list is strictly ascending |
| Steiner.Offer | steiner.cpp:165-166 | the target is overwritten if and only if its weight is -1 or strictly greater than the source's, and then takes the source's weight and reference together, also when both weigh -1; otherwise it is unchanged; the subset and its own tree are always kept; a -1 source overwrites every target of weight -1 or more |
| Steiner.OfferedTake | steiner.cpp:163-166 | visiting a member i writes the one new target `V - 2^i`, which was not written before and is a child of V |
| Steiner.OfferedSkip | steiner.cpp:162-163 | visiting a non-member writes nothing |
| Steiner.OfferedEnd | steiner.cpp:162 | once I passes V, every `V - 2^i` for a member i holds the offer of V's entry, and nothing else was written |
| Steiner.OffersFromAll | steiner.cpp:162-166 | the offers to `V - 2^i` for each member i are exactly the offers to all children of V: the new table is `OfferAll` of the old one |
| Steiner.OfferDown | steiner.cpp:162-167 | the new table is `OfferAll` of the old one: every child of V (V less one member) holds the offer of V's entry to its previous value, and every other entry is unchanged |
| Steiner.OffersInherited | steiner.cpp:165-166 | offers from V keep every entry referring to a superset whose own weight it reports |
| Steiner.OfferSettles | steiner.cpp:165-166 | when the entries more than one tier below V are still their own results, offers from V keep every reference pointing at an entry that holds its own result |
| Steiner.TierFrame | steiner.cpp:161-167 | a tier of sources of popcount k writes only entries of popcount k - 1 |
| Steiner.TierSettles | steiner.cpp:161-167 | a tier of sources keeps every reference pointing at an entry that holds its own result |
| Steiner.RelaxFrame | steiner.cpp:160-167 | the tiers from `ones` down to 3 leave entries of popcount at most one, and of popcount `ones` or more, unchanged |
| Steiner.RelaxSettles | steiner.cpp:160-167 | starting from own results below tier `ones`, the pass keeps every entry referring to a superset whose entry still holds its own result, and reporting that result's weight |
| Steiner.TierParents | steiner.cpp:161-167 | within the tier of W's parents, if those parents weigh at least 0, W ends with weight at least 0 and at most each parent's weight |
| Steiner.ParentsBound | steiner.cpp:160-167 | when the tier of W's parents wrote W last and saw the parents' final entries, W is bounded by its parents |
| Steiner.LastTier | steiner.cpp:160-167 | with complete buckets, tier popcount(W) + 1 lists every parent of W, is the last tier to write W, and reads the parents' final entries |
| Steiner.ParentTier | steiner.cpp:160-167 | after the tier of its parents, W is bounded by its parents whenever they all weigh at least 0 |
| Steiner.RelaxParents | steiner.cpp:160-167 | after the whole pass, a subset of popcount between 2 and `ones` - 1 whose parents all end with weight at least 0 ends with weight at least 0 and at most each parent's final weight |
| Steiner.RelaxBounded | steiner.cpp:160-167 | the full pass bounds every subset of popcount 2 to N - 1 by its parents, when no starting weight is below -1 |
| Steiner.RelaxTier | steiner.cpp:161-167 | the new table is `RelaxedTier` of the old one: the offers of each subset of the list, in list order |
| Steiner.Relax | steiner.cpp:160-167 | the new table is `Relaxed` of the old one: the tiers N down to 3 in turn, with tiers 2, 1 and 0 never acting as sources |
| Steiner.SupersetTreeConnects | steiner.cpp:143-144 | a superset's own result, when not -1, is a tree for the subset: graph edges, acyclic, connecting every member, of that weight |
| Steiner.RelaxOwnTable | steiner.cpp:139-167 | relaxing the table of own results gives references to supersets whose entries keep their own results, realised weights, untouched subsets of at most one vertex and, for non-negative weights, subsets bounded by their parents |
| Steiner.BuildTable | steiner.cpp:139-167 | the final table is `Relaxed` of the table of own results, with the bucket lists `Buckets(N)`; every entry refers to a superset whose entry holds its own result and reports that weight; every weight other than -1 is realised by the displayed tree connecting V; subsets of at most one vertex report (V, no edges, 0, V); with non-negative weights every subset of popcount 2 to N - 1 whose parents all end with weight at least 0 ends with weight at least 0 and at most each parent's |

## Left out

- Input and output are not modelled. Reading N and the matrix from standard input (steiner.cpp:122-131) is replaced by a matrix parameter `M` of `Steiner.ExtractEdges`. `print_subset_binary` (steiner.cpp:14-20) and the report loop (steiner.cpp:172-185) are omitted.
- `std::sort` (steiner.cpp:134) is a library call. The model takes an edge list already sorted as a precondition, `SortedByWeight`, which says no later edge compares less than an earlier one under `Graph.CompareEdge`, the model of `compare_edge`.
- The `new[]`/`delete[]` of the bucket array (steiner.cpp:150, 169) is memory management only. The buckets are a `seq<seq<nat>>`.
- N = 31 and N = 32 are excluded by the precondition `N <= MaxVertices` (30). For N >= 31, computing `(1 << N) - 1` overflows `int`, which is undefined behaviour, so maxV is no longer 2^N - 1. What the mask loops and the table allocation then do depends on the compiler, and the program may fail or not terminate.
- 32-bit arithmetic is not modelled. Integers are unbounded, so overflow of summed weights and the `int v = V` conversion (steiner.cpp:155) are left out. Below 2^30 masks and their conversions are exact.
- Kruskal.MinSpanningTreeForSubset: proved to return a spanning tree of the induced subgraph. That the tree has minimum weight among all spanning trees (the global optimality of Kruskal's algorithm) is not proved.
- Kruskal.MinSpanningTreeForSubset: `T` is an out-parameter that starts empty, as at the only call site (steiner.cpp:144). The source appends to whatever list the caller passes.
- Optimality of the Steiner weights is not modelled. The code does not promise it, and the -1 propagation described above breaks even "final weight ≤ own weight".
- UnionFind.DisjointSet.Merge: when u and v are already joined, the model states that the ranks and the partition are unchanged, not that `parent` is. The two `find` calls can still compress paths.
- UnionFind.DisjointSet.Find: the contract fixes the root of every vertex and the link of u. Other links on the path are only stated to point at their root, without naming which ones change.
- The `output_form` default constructor (steiner.cpp:46) is not modelled as a separate step. The fill loop overwrites `V`, `steiner` and `weight`. `MST` keeps the default constructor's empty list, which the Kruskal routine appends to. The model's out-parameter `T`, which starts empty, stands for that list.
