/**
 * `min_spanning_tree_for_subset` of steiner.cpp: Kruskal's algorithm run
 * over the whole (weight-sorted) edge list of the graph, keeping only the
 * edges whose endpoints both lie in the vertex subset V.
 */
module Kruskal {
  import opened Subsets
  import opened Graph
  import opened UnionFind

  /** The distinct labels that the members of V carry under L. */
  ghost function Classes(N: nat, V: nat, L: seq<int>): (C: set<int>)
    requires |L| == N
  {
    set x | 0 <= x < N && Bit(V, x) :: L[x]
  }

  /** R and L induce the same partition of the vertices. */
  ghost predicate SamePartition(R: seq<int>, L: seq<int>)
  {
    && |R| == |L|
    && forall x, y :: 0 <= x < |R| && 0 <= y < |R| ==> (R[x] == R[y] <==> L[x] == L[y])
  }

  /** Uniting two union-find classes mirrors relabelling by the edge between them. */
  lemma {:induction false} MergePartition(R: seq<int>, L: seq<int>, e: Edge, r: int)
    requires SamePartition(R, L) && EdgeIn(|R|, e)
    requires R[e.a] != R[e.b] && (r == R[e.a] || r == R[e.b])
    ensures SamePartition(MergedRoots(R, e.a, e.b, r), Relabel(L, e))
  {
  }

  /** Before any edge every member of V is its own class. */
  lemma {:induction false} ClassesInitially(N: nat, V: nat)
    ensures |Classes(N, V, Label(N, []))| == Popcount(V, N)
  {
    assert Classes(N, V, Label(N, [])) == Members(N, V);
    MembersCount(V, N);
  }

  /** An edge between two classes of V's members removes exactly one class. */
  lemma {:induction false} ClassesShrink(N: nat, V: nat, L: seq<int>, e: Edge)
    requires |L| == N && Inside(N, V, e) && L[e.a] != L[e.b]
    ensures |Classes(N, V, Relabel(L, e))| == |Classes(N, V, L)| - 1
  {
    var C, C' := Classes(N, V, L), Classes(N, V, Relabel(L, e));
    assert L[e.b] in C;
    assert L[e.a] in C' by { assert Relabel(L, e)[e.a] == L[e.a]; }
    assert C' == C - {L[e.b]};
  }

  /** Some element of a non-empty set. */
  lemma {:induction false} Pick(C: set<int>) returns (z: int)
    requires |C| >= 1
    ensures z in C
  {
    assert (forall x :: x !in C) ==> C == {};
    z :| z in C;
  }

  /** A set of one element holds nothing else. */
  lemma {:induction false} OnlyElement(C: set<int>, a: int, b: int)
    requires |C| == 1 && a in C && b in C
    ensures a == b
  {
    var rest := C - {a};
    assert |rest| == 0;
    assert (forall x :: x !in rest) <== rest == {};
  }

  /** With a single class left, all members of V are connected. */
  lemma {:induction false} OneClass(N: nat, V: nat, T: seq<Edge>)
    requires |Classes(N, V, Label(N, T))| == 1
    ensures Spans(N, V, T)
  {
    var L := Label(N, T);
    forall x, y | InV(N, V, x) && InV(N, V, y)
      ensures Joined(N, T, x, y)
    {
      OnlyElement(Classes(N, V, L), L[x], L[y]);
    }
  }

  /** With two or more classes, some two members of V are not connected. */
  lemma {:induction false} TwoClasses(N: nat, V: nat, T: seq<Edge>) returns (x: int, y: int)
    requires |Classes(N, V, Label(N, T))| >= 2
    ensures InV(N, V, x) && InV(N, V, y) && !Joined(N, T, x, y)
  {
    var L := Label(N, T);
    var C := Classes(N, V, L);
    var z1 := Pick(C);
    var z2 := Pick(C - {z1});
    x :| 0 <= x < N && Bit(V, x) && L[x] == z1;
    y :| 0 <= y < N && Bit(V, y) && L[y] == z2;
  }

  /** Appending an edge between unconnected vertices keeps a forest acyclic. */
  lemma {:induction false} AcyclicExtend(N: nat, T: seq<Edge>, e: Edge)
    requires Acyclic(N, T) && !Joined(N, T, e.a, e.b)
    ensures Acyclic(N, T + [e])
  {
    var T' := T + [e];
    forall k | 0 <= k < |T'|
      ensures !Joined(N, T'[..k], T'[k].a, T'[k].b)
    {
      if k < |T| {
        assert T'[..k] == T[..k];
      } else {
        assert T'[..k] == T;
      }
    }
  }

  lemma {:induction false} WeightAppend(T: seq<Edge>, e: Edge)
    ensures Weight(T + [e]) == Weight(T) + e.w
  {
    assert (T + [e])[..|T|] == T;
  }

  /**
   * What holds of the partial tree T after the first k edges of E have
   * been scanned for the subset V of n >= 2 members without reaching
   * n - 1 edges.
   */
  ghost predicate ScanState(N: nat, V: nat, E: seq<Edge>, n: nat, k: nat, T: seq<Edge>)
  {
    && n == Popcount(V, N)
    && k <= |E|
    && |T| < n - 1
    && (forall e | e in T :: e in E && Inside(N, V, e))
    && Acyclic(N, T)
    && |Classes(N, V, Label(N, T))| == n - |T|
    && (forall j :: 0 <= j < k && Inside(N, V, E[j]) ==> Joined(N, T, E[j].a, E[j].b))
  }

  /** Passing over E[k] without taking it, because its endpoints are already connected or not both in V. */
  lemma {:induction false} ScanSkip(N: nat, V: nat, E: seq<Edge>, n: nat, k: nat, T: seq<Edge>)
    requires ScanState(N, V, E, n, k, T) && k < |E|
    requires Inside(N, V, E[k]) ==> Joined(N, T, E[k].a, E[k].b)
    ensures ScanState(N, V, E, n, k + 1, T)
  {
  }

  /**
   * Taking E[k], which joins two unconnected members of V: the tree grows
   * by one edge and either the scan goes on or the tree spans V.
   */
  lemma {:induction false} ScanTake(N: nat, V: nat, E: seq<Edge>, n: nat, k: nat, T: seq<Edge>)
    requires ScanState(N, V, E, n, k, T) && k < |E|
    requires Inside(N, V, E[k]) && !Joined(N, T, E[k].a, E[k].b)
    ensures |Classes(N, V, Label(N, T + [E[k]]))| == n - |T| - 1
    ensures Weight(T + [E[k]]) == Weight(T) + E[k].w
    ensures Label(N, T + [E[k]]) == Relabel(Label(N, T), E[k])
    ensures |T| + 1 < n - 1 ==> ScanState(N, V, E, n, k + 1, T + [E[k]])
    ensures |T| + 1 == n - 1 ==> OwnResult(N, V, E, Weight(T + [E[k]]), T + [E[k]])
  {
    var e := E[k];
    var T' := T + [e];
    AcyclicExtend(N, T, e);
    WeightAppend(T, e);
    JoinedExtend(N, T, e);
    LabelAppend(N, T, e);
    ClassesShrink(N, V, Label(N, T), e);
    if |T'| == n - 1 {
      OneClass(N, V, T');
      JoinedMonotone(N, T', Induced(N, V, E));
    }
  }

  /** A scan that ends below n - 1 edges proves the induced subgraph disconnected. */
  lemma {:induction false} ScanEnd(N: nat, V: nat, E: seq<Edge>, n: nat, T: seq<Edge>)
    requires ScanState(N, V, E, n, |E|, T)
    ensures OwnResult(N, V, E, -1, [])
  {
    var x, y := TwoClasses(N, V, T);
    var L := Label(N, T);
    forall e | e in Induced(N, V, E) && EdgeIn(N, e)
      ensures L[e.a] == L[e.b]
    {
      var j :| 0 <= j < |E| && E[j] == e;
    }
    LabelFinest(N, Induced(N, V, E), L);
    assert !Joined(N, Induced(N, V, E), x, y);
  }

  /**
   * The loop state of the scan: ScanState for T, the running weight w of
   * T, and union-find roots R that partition the vertices as T's edges do.
   */
  ghost predicate Scanning(N: nat, V: nat, E: seq<Edge>, n: nat, k: nat, T: seq<Edge>, w: int, R: seq<int>)
  {
    && ScanState(N, V, E, n, k, T)
    && w == Weight(T)
    && SamePartition(R, Label(N, T))
  }

  /** Before the first edge: no tree, weight 0, and every vertex its own root. */
  lemma {:induction false} ScanStart(N: nat, V: nat, E: seq<Edge>, R: seq<int>)
    requires Popcount(V, N) >= 2 && R == seq(N, x => x)
    ensures Scanning(N, V, E, Popcount(V, N), 0, [], 0, R)
  {
    ClassesInitially(N, V);
  }

  /**
   * One edge of the scan (steiner.cpp:97-109): the edge is taken exactly
   * when its endpoints have different roots and both lie in V, and taking
   * it appends it to T, adds its weight and unites the two classes under
   * either root. The scan goes on while T has fewer than n - 1 edges; at
   * n - 1 edges T is the result.
   */
  lemma {:induction false} ScanStep(N: nat, V: nat, E: seq<Edge>, n: nat, k: nat, T: seq<Edge>, w: int, R: seq<int>,
                                    r: int, T': seq<Edge>, w': int, R': seq<int>)
    requires Scanning(N, V, E, n, k, T, w, R) && k < |E| && EdgeIn(N, E[k])
    requires var e := E[k];
      var take := R[e.a] != R[e.b] && Bit(V, e.a) && Bit(V, e.b);
      && (take ==> T' == T + [e] && w' == w + e.w && R' == MergedRoots(R, e.a, e.b, r) && (r == R[e.a] || r == R[e.b]))
      && (!take ==> T' == T && w' == w && R' == R)
    ensures |T'| <= n - 1
    ensures |T'| < n - 1 ==> Scanning(N, V, E, n, k + 1, T', w', R')
    ensures |T'| == n - 1 ==> OwnResult(N, V, E, w', T')
  {
    var e := E[k];
    if R[e.a] != R[e.b] && Bit(V, e.a) && Bit(V, e.b) {
      ScanTake(N, V, E, n, k, T);
      MergePartition(R, Label(N, T), e, r);
    } else {
      ScanSkip(N, V, E, n, k, T);
    }
  }

  /** |V|, counted by testing the mask of each vertex in turn (steiner.cpp:86-88). */
  method CountMembers(N: nat, V: nat) returns (n: nat)
    ensures n == Popcount(V, N)
    ensures n == |Members(N, V)|
  {
    n := 0;
    for i := 0 to N
      invariant n == Popcount(V, i)
    {
      if Bit(V, i) {
        n := n + 1;
      }
    }
    MembersCount(V, N);
  }

  /**
   * Kruskal's algorithm on the subgraph induced by V (steiner.cpp:83-113).
   * Fewer than two members: weight 0 and no edges. Otherwise, scanning E
   * in order, an edge is taken when its endpoints lie in different
   * components and both belong to V, and the scan stops as soon as the
   * tree holds |V| - 1 edges; if it never does, the tree is discarded and
   * the result is -1. So the result is -1 exactly when the induced
   * subgraph is disconnected, and otherwise a spanning tree of it with
   * its weight.
   */
  method MinSpanningTreeForSubset(N: nat, V: nat, E: seq<Edge>) returns (w: int, T: seq<Edge>)
    requires N <= MaxVertices
    requires EdgesIn(N, E)
    // the caller's sort (steiner.cpp:134); only minimality, which is not
    // proved here, depends on it
    requires SortedByWeight(E)
    ensures OwnResult(N, V, E, w, T)
  {
    var n := CountMembers(N, V);
    if n < 2 {
      return 0, [];
    }

    var components := new DisjointSet(N);
    w, T := 0, [];
    ScanStart(N, V, E, components.Roots());
    for k := 0 to |E|
      invariant components.Valid() && fresh(components.parent) && fresh(components.rank)
      invariant components.parent.Length == N
      invariant Scanning(N, V, E, n, k, T, w, components.Roots())
    {
      var e := E[k];
      assert EdgeIn(N, e);
      var ra := components.Find(e.a);
      var rb := components.Find(e.b);
      ghost var R, T0, w0 := components.Roots(), T, w;
      ghost var r := ra;
      if ra != rb {
        if Bit(V, e.a) && Bit(V, e.b) {
          T := T + [e];
          w := w + e.w;
          r := components.Merge(e.a, e.b);
        }
      }
      ScanStep(N, V, E, n, k, T0, w0, R, r, T, w, components.Roots());
      if |T| == n - 1 {
        return;
      }
    }

    // V is not connected in the induced subgraph
    ScanEnd(N, V, E, n, T);
    T := [];
    w := -1;
  }
}
