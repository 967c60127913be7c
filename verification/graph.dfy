/**
 * Edges, edge lists and what it means for a list of edges to connect,
 * to be acyclic and to span a vertex subset. Connectivity is given by a
 * reference definition independent of the union-find structure: the
 * component labels obtained by merging the two endpoint classes of each
 * edge in turn.
 */
module Graph {
  import opened Subsets

  /** An undirected edge between vertices a and b with weight w (the source's `edge`). */
  datatype Edge = Edge(a: int, b: int, w: int)

  /** The strict weight order the edge list is sorted by (the source's `compare_edge`). */
  predicate CompareEdge(e: Edge, f: Edge)
  {
    e.w < f.w
  }

  /** Neither edge sorts before the other. */
  predicate Equivalent(e: Edge, f: Edge)
  {
    !CompareEdge(e, f) && !CompareEdge(f, e)
  }

  /**
   * CompareEdge is a strict weak order, as `std::sort` demands of its
   * comparator: irreflexive, transitive, and with incomparability (equal
   * weight) transitive too.
   */
  lemma CompareEdgeStrictWeak(e: Edge, f: Edge, g: Edge)
    ensures !CompareEdge(e, e)
    ensures CompareEdge(e, f) && CompareEdge(f, g) ==> CompareEdge(e, g)
    ensures Equivalent(e, f) && Equivalent(f, g) ==> Equivalent(e, g)
  {
  }

  /** A list sorted under CompareEdge has non-decreasing weights. */
  lemma SortedWeights(E: seq<Edge>, i: nat, j: nat)
    requires SortedByWeight(E) && i <= j < |E|
    ensures E[i].w <= E[j].w
  {
    if i < j {
      assert !CompareEdge(E[j], E[i]);
    }
  }

  /** No later edge compares less than an earlier one: the order `std::sort` leaves behind. */
  ghost predicate SortedByWeight(E: seq<Edge>)
  {
    forall i, j :: 0 <= i < j < |E| ==> !CompareEdge(E[j], E[i])
  }

  /** Both endpoints are vertices of the graph on N vertices. */
  predicate EdgeIn(N: nat, e: Edge)
  {
    0 <= e.a < N && 0 <= e.b < N
  }

  ghost predicate EdgesIn(N: nat, E: seq<Edge>)
  {
    forall e | e in E :: EdgeIn(N, e)
  }

  ghost predicate NonNegative(E: seq<Edge>)
  {
    forall e | e in E :: e.w >= 0
  }

  /** Both endpoints of e are in the subset V of {0, ..., N-1}. */
  predicate Inside(N: nat, V: nat, e: Edge)
  {
    EdgeIn(N, e) && Bit(V, e.a) && Bit(V, e.b)
  }

  /** Vertex x is a member of the subset V of {0, ..., N-1}. */
  predicate InV(N: nat, V: nat, x: int)
  {
    0 <= x < N && Bit(V, x)
  }

  /** Total weight of an edge list. */
  function Weight(T: seq<Edge>): (r: int)
  {
    if T == [] then 0 else Weight(T[..|T| - 1]) + T[|T| - 1].w
  }

  /** The edges of E whose endpoints both lie in V, in E's order: the induced subgraph. */
  function Induced(N: nat, V: nat, E: seq<Edge>): (r: seq<Edge>)
    ensures forall e | e in r :: e in E && Inside(N, V, e)
    ensures forall e | e in E && Inside(N, V, e) :: e in r
  {
    if E == [] then []
    else
      var last := E[|E| - 1];
      Induced(N, V, E[..|E| - 1]) + (if Inside(N, V, last) then [last] else [])
  }

  /** The labels L after joining the classes of e's endpoints: e.b's class takes e.a's label. */
  function Relabel(L: seq<int>, e: Edge): (r: seq<int>)
    ensures |r| == |L|
  {
    if 0 <= e.a < |L| && 0 <= e.b < |L| && L[e.a] != L[e.b] then
      seq(|L|, x requires 0 <= x < |L| => if L[x] == L[e.b] then L[e.a] else L[x])
    else L
  }

  /** Component labels of the graph on N vertices with edge list T: every vertex starts alone. */
  function Label(N: nat, T: seq<Edge>): (r: seq<int>)
    ensures |r| == N
  {
    if T == [] then seq(N, x => x)
    else Relabel(Label(N, T[..|T| - 1]), T[|T| - 1])
  }

  /** x and y are connected by the edges of T. */
  predicate Joined(N: nat, T: seq<Edge>, x: int, y: int)
  {
    0 <= x < N && 0 <= y < N && Label(N, T)[x] == Label(N, T)[y]
  }

  /** Every edge of T joins two vertices not yet connected by the edges before it. */
  ghost predicate Acyclic(N: nat, T: seq<Edge>)
  {
    forall k :: 0 <= k < |T| ==> !Joined(N, T[..k], T[k].a, T[k].b)
  }

  /** The edges of T connect every two members of V. */
  ghost predicate Spans(N: nat, V: nat, T: seq<Edge>)
  {
    forall x, y :: InV(N, V, x) && InV(N, V, y) ==> Joined(N, T, x, y)
  }

  /** The subgraph of (N, E) induced by V is connected. */
  ghost predicate InducedConnected(N: nat, V: nat, E: seq<Edge>)
  {
    Spans(N, V, Induced(N, V, E))
  }

  /** T is a spanning tree of the subgraph of (N, E) induced by V. */
  ghost predicate SpanningTree(N: nat, V: nat, E: seq<Edge>, T: seq<Edge>)
  {
    && |T| == Popcount(V, N) - 1
    && (forall e | e in T :: e in E && Inside(N, V, e))
    && Acyclic(N, T)
    && Spans(N, V, T)
  }

  /**
   * T is a tree of E's edges, possibly through vertices outside V, that
   * connects every member of V and weighs w: a Steiner tree for V, though
   * not necessarily one of minimum weight.
   */
  ghost predicate ConnectingTree(N: nat, V: nat, E: seq<Edge>, T: seq<Edge>, w: int)
  {
    && (forall e | e in T :: e in E)
    && Acyclic(N, T)
    && Spans(N, V, T)
    && Weight(T) == w
  }

  /**
   * What `min_spanning_tree_for_subset` delivers for V: weight 0 and no
   * edges below two members; the sentinel -1 and no edges when the induced
   * subgraph is disconnected; otherwise a spanning tree and its weight.
   */
  ghost predicate OwnResult(N: nat, V: nat, E: seq<Edge>, w: int, T: seq<Edge>)
  {
    if Popcount(V, N) < 2 then w == 0 && T == []
    else if !InducedConnected(N, V, E) then w == -1 && T == []
    else SpanningTree(N, V, E, T) && w == Weight(T)
  }

  /** Adding an edge keeps every connection and connects the edge's endpoints. */
  lemma {:induction false} JoinedExtend(N: nat, T: seq<Edge>, e: Edge)
    ensures forall x, y :: Joined(N, T, x, y) ==> Joined(N, T + [e], x, y)
    ensures EdgeIn(N, e) ==> Joined(N, T + [e], e.a, e.b)
  {
    assert (T + [e])[..|T|] == T;
  }

  /** The labels after adding e are those of T relabelled by e. */
  lemma {:induction false} LabelAppend(N: nat, T: seq<Edge>, e: Edge)
    ensures Label(N, T + [e]) == Relabel(Label(N, T), e)
  {
    assert (T + [e])[..|T|] == T;
  }

  /** Every edge of S joins its own endpoints. */
  lemma {:induction false} EdgesJoined(N: nat, S: seq<Edge>)
    ensures forall e | e in S && EdgeIn(N, e) :: Joined(N, S, e.a, e.b)
  {
    if S != [] {
      var S', last := S[..|S| - 1], S[|S| - 1];
      EdgesJoined(N, S');
      assert S == S' + [last];
      JoinedExtend(N, S', last);
    }
  }

  /**
   * Any labelling that gives the two endpoints of each edge of S the same
   * label is coarser than S's components: Label is the finest such labelling.
   */
  lemma {:induction false} LabelFinest(N: nat, S: seq<Edge>, L: seq<int>)
    requires |L| == N
    requires forall e | e in S && EdgeIn(N, e) :: L[e.a] == L[e.b]
    ensures forall x, y :: Joined(N, S, x, y) ==> L[x] == L[y]
  {
    if S != [] {
      var S', e := S[..|S| - 1], S[|S| - 1];
      LabelFinest(N, S', L);
      var P := Label(N, S');
      forall x, y | Joined(N, S, x, y)
        ensures L[x] == L[y]
      {
        if EdgeIn(N, e) && P[e.a] != P[e.b] {
          assert L[e.a] == L[e.b];
          // a vertex whose label moved was in e.b's class, now e.a's
          assert P[x] == P[e.b] ==> L[x] == L[e.b] by { assert Joined(N, S', x, e.b) <== P[x] == P[e.b]; }
          assert P[y] == P[e.b] ==> L[y] == L[e.b] by { assert Joined(N, S', y, e.b) <== P[y] == P[e.b]; }
          assert P[x] == P[e.a] ==> L[x] == L[e.a] by { assert Joined(N, S', x, e.a) <== P[x] == P[e.a]; }
          assert P[y] == P[e.a] ==> L[y] == L[e.a] by { assert Joined(N, S', y, e.a) <== P[y] == P[e.a]; }
          assert P[x] == P[y] ==> L[x] == L[y] by { assert Joined(N, S', x, y) <== P[x] == P[y]; }
        } else {
          assert Joined(N, S', x, y);
        }
      }
    }
  }

  /** Connections through a list of edges survive in any list containing all of them. */
  lemma {:induction false} JoinedMonotone(N: nat, T: seq<Edge>, S: seq<Edge>)
    requires forall e | e in T :: e in S
    ensures forall x, y :: Joined(N, T, x, y) ==> Joined(N, S, x, y)
  {
    EdgesJoined(N, S);
    LabelFinest(N, T, Label(N, S));
  }

  /** With non-negative weights every sub-list of E weighs at least 0. */
  lemma {:induction false} WeightNonNegative(E: seq<Edge>, T: seq<Edge>)
    requires NonNegative(E)
    requires forall e | e in T :: e in E
    ensures Weight(T) >= 0
  {
    if T != [] {
      WeightNonNegative(E, T[..|T| - 1]);
    }
  }

  /**
   * With non-negative weights the sentinel -1 is unambiguous: an own result
   * is -1 exactly when V has two members and its induced subgraph is
   * disconnected, and it is never below -1.
   */
  lemma {:induction false} SentinelMeansDisconnected(N: nat, V: nat, E: seq<Edge>, w: int, T: seq<Edge>)
    requires NonNegative(E)
    requires OwnResult(N, V, E, w, T)
    ensures w == -1 <==> Popcount(V, N) >= 2 && !InducedConnected(N, V, E)
    ensures w >= -1
  {
    if Popcount(V, N) >= 2 && InducedConnected(N, V, E) {
      WeightNonNegative(E, T);
    }
  }
}
