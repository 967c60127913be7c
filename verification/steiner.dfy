/**
 * The body of steiner.cpp's `main` without its input and output: turning
 * the adjacency matrix into an edge list, filling the table of per-subset
 * results, bucketing the subsets by popcount, and the downward relaxation
 * that lets a subset inherit the solution of a one-vertex-larger superset.
 */
module Steiner {
  import opened Subsets
  import opened Graph
  import opened Kruskal

  /**
   * One entry of the results table (the source's `output_form`): the subset
   * v, its own minimum spanning tree (empty when there is none), the weight
   * finally reported for it, and the subset whose solution is reported.
   */
  datatype OutputForm = OutputForm(v: nat, mst: seq<Edge>, weight: int, steiner: nat)

  /** Edge e comes before edge f when the upper triangle is read row by row. */
  predicate RowMajorBefore(e: Edge, f: Edge)
  {
    e.a < f.a || (e.a == f.a && e.b < f.b)
  }

  /**
   * The edges of the N x N adjacency matrix M (steiner.cpp:123-131): one
   * edge (i, j, M[i][j]) for each non-zero entry above the diagonal, in
   * row-major order; the lower triangle is never looked at.
   */
  method ExtractEdges(N: nat, M: seq<seq<int>>) returns (G: seq<Edge>)
    requires |M| == N && forall i :: 0 <= i < N ==> |M[i]| == N
    ensures forall e | e in G :: 0 <= e.a < e.b < N && e.w == M[e.a][e.b] && e.w != 0
    ensures forall i, j :: 0 <= i < j < N && M[i][j] != 0 ==> Edge(i, j, M[i][j]) in G
    ensures forall p, q :: 0 <= p < q < |G| ==> RowMajorBefore(G[p], G[q])
  {
    G := [];
    for i := 0 to N
      invariant forall e | e in G :: 0 <= e.a < e.b < N && e.w == M[e.a][e.b] && e.w != 0 && e.a < i
      invariant forall i', j :: 0 <= i' < i && i' < j < N && M[i'][j] != 0 ==> Edge(i', j, M[i'][j]) in G
      invariant forall p, q :: 0 <= p < q < |G| ==> RowMajorBefore(G[p], G[q])
    {
      for j := 0 to N
        invariant forall e | e in G :: 0 <= e.a < e.b < N && e.w == M[e.a][e.b] && e.w != 0
        invariant forall e | e in G :: e.a < i || (e.a == i && e.b < j)
        invariant forall i', j' :: 0 <= i' < i && i' < j' < N && M[i'][j'] != 0 ==> Edge(i', j', M[i'][j']) in G
        invariant forall j' :: i < j' < j && M[i][j'] != 0 ==> Edge(i, j', M[i][j']) in G
        invariant forall p, q :: 0 <= p < q < |G| ==> RowMajorBefore(G[p], G[q])
      {
        var w := M[i][j];
        if j > i && w != 0 {
          G := G + [Edge(i, j, w)];
        }
      }
    }
  }

  /**
   * The table of own results (steiner.cpp:139-145): for every subset V of
   * {0, ..., N-1}, entry V names V, refers to V itself, and holds V's own
   * Kruskal result.
   */
  method FillTable(N: nat, G: seq<Edge>) returns (table: array<OutputForm>)
    requires N <= MaxVertices && EdgesIn(N, G) && SortedByWeight(G)
    ensures fresh(table) && table.Length == Pow2(N)
    ensures forall V :: 0 <= V < table.Length ==>
      && table[V].v == V
      && table[V].steiner == V
      && OwnResult(N, V, G, table[V].weight, table[V].mst)
  {
    var maxV := Pow2(N) - 1;
    table := new OutputForm[maxV + 1];
    for V := 0 to maxV + 1
      invariant forall W :: 0 <= W < V ==>
        && table[W].v == W
        && table[W].steiner == W
        && OwnResult(N, W, G, table[W].weight, table[W].mst)
    {
      var w, T := MinSpanningTreeForSubset(N, V, G);
      table[V] := OutputForm(V, T, w, V);
    }
  }

  /**
   * The number of members of V (steiner.cpp:154-156), counted by reading
   * the low bit and shifting right N times.
   */
  method CountOnes(N: nat, V: nat) returns (ones: nat)
    ensures ones == Popcount(V, N)
  {
    ones := 0;
    var v := V;
    for i := 0 to N
      invariant ones == Popcount(V, i)
      invariant forall k: nat :: Bit(v, k) == Bit(V, i + k)
    {
      assert Bit(v, 0) == Bit(V, i + 0);
      ghost var prev := v;
      ones := ones + v % 2;
      v := v / 2;
      forall k: nat
        ensures Bit(v, k) == Bit(V, i + 1 + k)
      {
        assert Bit(prev, k + 1) == Bit(v, k);
      }
    }
  }

  /**
   * The masks below m of popcount k, in ascending order: the list that
   * bucketing 0, ..., m-1 by popcount leaves for k.
   */
  function TierList(N: nat, k: nat, m: nat): (r: seq<nat>)
    ensures forall j :: 0 <= j < |r| ==> r[j] < m && Popcount(r[j], N) == k
    ensures forall j1, j2 :: 0 <= j1 < j2 < |r| ==> r[j1] < r[j2]
    ensures forall V :: 0 <= V < m ==> (V in r <==> Popcount(V, N) == k)
  {
    if m == 0 then [] else TierList(N, k, m - 1) + (if Popcount(m - 1, N) == k then [m - 1] else [])
  }

  /** The lists of all subsets of {0, ..., N-1}, one per popcount 0..N. */
  function Buckets(N: nat): (S: seq<seq<nat>>)
    ensures |S| == N + 1
  {
    seq(N + 1, k requires 0 <= k <= N => TierList(N, k, Pow2(N)))
  }

  /**
   * S lists the subsets of {0, ..., N-1} by popcount: S[k] holds, in
   * ascending order, masks below 2^N of popcount k.
   */
  ghost predicate Tiers(N: nat, S: seq<seq<nat>>)
  {
    && |S| == N + 1
    && (forall k, j :: 0 <= k <= N && 0 <= j < |S[k]| ==> S[k][j] < Pow2(N) && Popcount(S[k][j], N) == k)
    && (forall k, j1, j2 :: 0 <= k <= N && 0 <= j1 < j2 < |S[k]| ==> S[k][j1] < S[k][j2])
  }

  /** Every subset of {0, ..., N-1} is listed under its popcount. */
  ghost predicate Complete(N: nat, S: seq<seq<nat>>)
    requires |S| == N + 1
  {
    forall V, k :: 0 <= V < Pow2(N) && 0 <= k <= N ==> (V in S[k] <==> k == Popcount(V, N))
  }

  /**
   * Buckets every subset by its popcount (steiner.cpp:150-158): each mask
   * 0..2^N-1 lands in exactly one list, the one of its popcount, and each
   * list is in ascending mask order.
   */
  method BucketByPopcount(N: nat) returns (S: seq<seq<nat>>)
    requires N <= MaxVertices
    ensures S == Buckets(N)
    ensures Tiers(N, S) && Complete(N, S)
  {
    S := seq(N + 1, _ => []);
    var maxV := Pow2(N) - 1;
    for V := 0 to maxV + 1
      invariant |S| == N + 1
      invariant forall k :: 0 <= k <= N ==> S[k] == TierList(N, k, V)
    {
      var ones := CountOnes(N, V);
      S := S[ones := S[ones] + [V]];
    }
  }

  /**
   * What the target entry becomes when a one-vertex-larger source offers
   * its solution (steiner.cpp:165-166). The target is overwritten exactly
   * when its weight is the sentinel -1 or strictly greater than the
   * source's, and then takes the source's weight and reference together.
   * So a source weighing -1 overwrites every target weighing -1 or more,
   * and a -1 target takes the source's reference even from a -1 source.
   */
  function Offer(target: OutputForm, source: OutputForm): (r: OutputForm)
    ensures r.v == target.v && r.mst == target.mst
    ensures target.weight == -1 || target.weight > source.weight ==>
      r.weight == source.weight && r.steiner == source.steiner
    ensures !(target.weight == -1 || target.weight > source.weight) ==> r == target
    ensures r.weight <= source.weight
    ensures source.weight == -1 && target.weight >= -1 ==> r.weight == -1
  {
    if target.weight == -1 || target.weight > source.weight then
      target.(steiner := source.steiner, weight := source.weight)
    else
      target
  }

  /**
   * Every entry of t still names its subset and keeps its own tree, refers
   * to a superset of its subset, and reports exactly the own weight that
   * `own` holds for the subset it refers to.
   */
  ghost predicate Inherited(N: nat, own: seq<OutputForm>, t: seq<OutputForm>)
  {
    && |t| == |own|
    && forall V :: 0 <= V < |t| ==>
         && t[V].v == own[V].v
         && t[V].mst == own[V].mst
         && t[V].steiner < |t|
         && Subset(N, V, t[V].steiner)
         && t[V].weight == own[t[V].steiner].weight
  }

  /**
   * Inherited, and moreover the entry each reference names still holds
   * its own result: it refers to itself, reports its own weight and keeps
   * its own tree, which is the tree the reference displays.
   */
  ghost predicate Settled(N: nat, own: seq<OutputForm>, t: seq<OutputForm>)
  {
    && Inherited(N, own, t)
    && forall V :: 0 <= V < |t| ==> t[t[V].steiner] == own[t[V].steiner]
  }

  /** Every entry of the table of own results refers to its own subset. */
  ghost predicate SelfReferring(own: seq<OutputForm>)
  {
    forall V :: 0 <= V < |own| ==> own[V].steiner == V
  }

  /**
   * The table after the source V has offered its entry to each of its
   * children, all against the table t: a child W holds Offer(t[W], t[V]),
   * every other entry is as in t.
   */
  ghost function OfferAll(N: nat, t: seq<OutputForm>, V: nat): (r: seq<OutputForm>)
    requires V < |t|
    ensures |r| == |t|
  {
    seq(|t|, W requires 0 <= W < |t| => if Child(N, W, V) then Offer(t[W], t[V]) else t[W])
  }

  /**
   * Progress of the offers from the source V after the members below i
   * (I = 2^i) have been visited: `done` holds the targets written so far,
   * each the offer of V's entry to its value in t0, and every other entry
   * of t is as in t0.
   */
  ghost predicate Offered(N: nat, V: nat, I: nat, i: nat, done: set<int>, t0: seq<OutputForm>, t: seq<OutputForm>)
  {
    && I == Pow2(i)
    && |t| == |t0| && V < |t0|
    && (forall W | W in done :: 0 <= W < |t| && V - I < W && Child(N, W, V))
    && (forall W :: 0 <= W < |t| ==> t[W] == if W in done then Offer(t0[W], t0[V]) else t0[W])
    && (forall j: nat {:trigger Bit(V, j)} :: j < i && Bit(V, j) ==> V - Pow2(j) in done)
  }

  /** Visiting a member i of V writes the one new target V - 2^i. */
  lemma {:induction false} OfferedTake(N: nat, V: nat, I: nat, i: nat, done: set<int>, t0: seq<OutputForm>, t: seq<OutputForm>)
    requires Offered(N, V, I, i, done, t0, t) && Bit(V, i) && i < N
    ensures V >= I && V - I !in done && t[V] == t0[V]
    ensures Offered(N, V, 2 * I, i + 1, done + {V - I}, t0, t[V - I := Offer(t[V - I], t[V])])
  {
    PopcountClear(V, i, N);
    ClearBitSubset(N, V, i);
    assert Child(N, V - I, V);
    var done', t' := done + {V - I}, t[V - I := Offer(t[V - I], t[V])];
    forall j: nat | j < i + 1 && Bit(V, j)
      ensures V - Pow2(j) in done'
    {
      if j < i {
        assert V - Pow2(j) in done;
      }
    }
  }

  /** Passing over a vertex i that is not in V writes nothing. */
  lemma {:induction false} OfferedSkip(N: nat, V: nat, I: nat, i: nat, done: set<int>, t0: seq<OutputForm>, t: seq<OutputForm>)
    requires Offered(N, V, I, i, done, t0, t) && !Bit(V, i)
    ensures Offered(N, V, 2 * I, i + 1, done, t0, t)
  {
    forall j: nat | j < i + 1 && Bit(V, j)
      ensures V - Pow2(j) in done
    {
      assert j != i;
      assert V - Pow2(j) in done;
    }
  }

  /**
   * The effect of the source V offering its solution downwards, from the
   * table t0 to the table t: every V minus a member i holds the offer of
   * V's entry to its previous value, and every other entry either is as
   * before or is a child of V holding such an offer.
   */
  ghost predicate OffersFrom(N: nat, V: nat, t0: seq<OutputForm>, t: seq<OutputForm>)
  {
    && |t| == |t0| && V < |t0|
    && (forall i: nat {:trigger Bit(V, i)} :: Bit(V, i) ==>
          V >= Pow2(i) && t[V - Pow2(i)] == Offer(t0[V - Pow2(i)], t0[V]))
    && (forall W :: 0 <= W < |t| ==> t[W] == t0[W] || (Child(N, W, V) && t[W] == Offer(t0[W], t0[V])))
  }

  /** Once 2^i exceeds V every member of V has been visited. */
  lemma {:induction false} OfferedEnd(N: nat, V: nat, I: nat, i: nat, done: set<int>, t0: seq<OutputForm>, t: seq<OutputForm>)
    requires Offered(N, V, I, i, done, t0, t) && V < I
    ensures OffersFrom(N, V, t0, t)
  {
    forall j: nat | Bit(V, j)
      ensures V >= Pow2(j) && t[V - Pow2(j)] == Offer(t0[V - Pow2(j)], t0[V])
    {
      BitBound(V, j);
      Pow2Below(j, i);
      assert V - Pow2(j) in done;
    }
  }

  /**
   * On a table of 2^N entries the offers of V to V minus each member are
   * offers to all of V's children, and nothing else: the new table is
   * OfferAll of the old one.
   */
  lemma {:induction false} OffersFromAll(N: nat, V: nat, t0: seq<OutputForm>, t: seq<OutputForm>)
    requires |t0| == Pow2(N) && OffersFrom(N, V, t0, t)
    ensures t == OfferAll(N, t0, V)
  {
    var r := OfferAll(N, t0, V);
    forall W | 0 <= W < |t|
      ensures t[W] == r[W]
    {
      if Child(N, W, V) {
        var i := ChildMember(N, W, V);
        assert Bit(V, i);
      }
    }
  }

  /**
   * The innermost loop of the relaxation (steiner.cpp:162-167): the source
   * V offers its solution to V minus i for each member i, each target once
   * and in order of i. The table ends as OfferAll of the old one.
   */
  method OfferDown(N: nat, table: array<OutputForm>, V: nat)
    requires N <= MaxVertices && table.Length == Pow2(N) && V < table.Length
    modifies table
    ensures table[..] == OfferAll(N, old(table[..]), V)
  {
    ghost var t0, t := table[..], table[..];
    var maxV := Pow2(N) - 1;
    var I, i := 1, 0;
    ghost var done: set<int> := {};
    while I <= maxV
      invariant table[..] == t
      invariant Offered(N, V, I, i, done, t0, t)
      invariant V < table.Length
      decreases maxV + 1 - I
    {
      if Bit(V, i) {
        Pow2Below(i, N);
        OfferedTake(N, V, I, i, done, t0, t);
        table[V - I] := Offer(table[V - I], table[V]);
        t, done := t[V - I := Offer(t[V - I], t[V])], done + {V - I};
      } else {
        OfferedSkip(N, V, I, i, done, t0, t);
      }
      I, i := I * 2, i + 1;
    }
    OfferedEnd(N, V, I, i, done, t0, t);
    OffersFromAll(N, V, t0, t);
  }

  /**
   * Offers from V to its children keep every entry backed by a superset:
   * a child that takes V's weight also takes V's reference.
   */
  lemma {:induction false} OffersInherited(N: nat, own: seq<OutputForm>, t: seq<OutputForm>, V: nat)
    requires Inherited(N, own, t) && V < |t|
    ensures Inherited(N, own, OfferAll(N, t, V))
  {
    var r := OfferAll(N, t, V);
    forall W | 0 <= W < |r|
      ensures r[W].v == own[W].v && r[W].mst == own[W].mst && r[W].steiner < |r|
      ensures Subset(N, W, r[W].steiner) && r[W].weight == own[r[W].steiner].weight
    {
      if r[W] != t[W] {
        SubsetTransitive(N, W, V, t[V].steiner);
      }
    }
  }

  /**
   * Offers from a source V keep every reference pointing at an entry that
   * still holds its own result, provided the entries more than one tier
   * below V are still their own results. A child that is overwritten takes
   * V's reference, which names a superset of V and so no child of V; and
   * an entry whose reference names an overwritten child would be a
   * smaller, untouched, self-referring subset.
   */
  lemma {:induction false} OfferSettles(N: nat, own: seq<OutputForm>, t: seq<OutputForm>, V: nat)
    requires |t| == Pow2(N) && V < |t|
    requires SelfReferring(own) && Settled(N, own, t)
    requires forall X :: 0 <= X < |t| && Popcount(X, N) + 1 < Popcount(V, N) ==> t[X] == own[X]
    ensures Settled(N, own, OfferAll(N, t, V))
  {
    var r := OfferAll(N, t, V);
    OffersInherited(N, own, t, V);
    forall X | 0 <= X < |r|
      ensures r[r[X].steiner] == own[r[X].steiner]
    {
      if r[X] != t[X] {
        var U := t[V].steiner;
        assert r[X].steiner == U;
        SubsetPopcount(N, V, U);
        assert !Child(N, U, V);
      } else {
        var U := t[X].steiner;
        if Child(N, U, V) && X != U {
          ProperSubsetPopcount(N, X, U);
        }
      }
    }
  }

  /** Between t0 and t at most the entries one tier below `ones` changed. */
  ghost predicate BelowTierOnly(N: nat, ones: nat, t0: seq<OutputForm>, t: seq<OutputForm>)
  {
    && |t| == |t0|
    && forall W :: 0 <= W < |t| && Popcount(W, N) + 1 != ones ==> t[W] == t0[W]
  }

  /**
   * The table after every subset of L, in the order of L, has offered its
   * entry to its children (one tier of the relaxation).
   */
  ghost function RelaxedTier(N: nat, t: seq<OutputForm>, L: seq<nat>): (r: seq<OutputForm>)
    requires forall j :: 0 <= j < |L| ==> L[j] < |t|
    ensures |r| == |t|
    decreases |L|
  {
    if L == [] then t else OfferAll(N, RelaxedTier(N, t, L[..|L| - 1]), L[|L| - 1])
  }

  /** Every list of S holds only indices below n. */
  ghost predicate ListsWithin(S: seq<seq<nat>>, n: nat)
  {
    forall k, j :: 0 <= k < |S| && 0 <= j < |S[k]| ==> S[k][j] < n
  }

  /**
   * The table after the tiers `ones`, `ones` - 1, ..., 3 of S have been
   * relaxed in turn; the tiers of popcount two or less never act as sources.
   */
  ghost function Relaxed(N: nat, t: seq<OutputForm>, S: seq<seq<nat>>, ones: nat): (r: seq<OutputForm>)
    requires ones < |S| && ListsWithin(S, |t|)
    ensures |r| == |t|
    decreases ones
  {
    if ones <= 2 then t else Relaxed(N, RelaxedTier(N, t, S[ones]), S, ones - 1)
  }

  /** A tier of subsets of popcount k writes only entries of popcount k - 1. */
  lemma {:induction false} TierFrame(N: nat, t: seq<OutputForm>, L: seq<nat>, k: nat)
    requires forall j :: 0 <= j < |L| ==> L[j] < |t| && Popcount(L[j], N) == k
    ensures BelowTierOnly(N, k, t, RelaxedTier(N, t, L))
  {
    if L != [] {
      TierFrame(N, t, L[..|L| - 1], k);
    }
  }

  /**
   * One tier of sources of popcount k keeps every reference pointing at an
   * entry that holds its own result, when the entries below tier k - 1 are
   * still their own results.
   */
  lemma {:induction false} TierSettles(N: nat, own: seq<OutputForm>, t: seq<OutputForm>, L: seq<nat>, k: nat)
    requires |t| == Pow2(N) && SelfReferring(own) && Settled(N, own, t)
    requires forall j :: 0 <= j < |L| ==> L[j] < |t| && Popcount(L[j], N) == k
    requires forall X :: 0 <= X < |t| && Popcount(X, N) + 1 < k ==> t[X] == own[X]
    ensures Settled(N, own, RelaxedTier(N, t, L))
  {
    if L != [] {
      var L' := L[..|L| - 1];
      TierSettles(N, own, t, L', k);
      TierFrame(N, t, L', k);
      OfferSettles(N, own, RelaxedTier(N, t, L'), L[|L| - 1]);
    }
  }

  /**
   * Relaxing tiers `ones` down to 3 leaves the entries of popcount at most
   * one and of popcount at least `ones` as they were.
   */
  lemma {:induction false} RelaxFrame(N: nat, t: seq<OutputForm>, S: seq<seq<nat>>, ones: nat)
    requires Tiers(N, S) && |t| == Pow2(N) && ones <= N
    ensures forall X :: 0 <= X < |t| && (Popcount(X, N) <= 1 || Popcount(X, N) >= ones) ==>
      Relaxed(N, t, S, ones)[X] == t[X]
    decreases ones
  {
    if ones > 2 {
      TierFrame(N, t, S[ones], ones);
      RelaxFrame(N, RelaxedTier(N, t, S[ones]), S, ones - 1);
    }
  }

  /**
   * Starting from a table whose entries below tier `ones` are own results,
   * the relaxation keeps every entry backed by a superset whose entry still
   * holds its own result: each source is read only after its last write.
   */
  lemma {:induction false} RelaxSettles(N: nat, own: seq<OutputForm>, t: seq<OutputForm>, S: seq<seq<nat>>, ones: nat)
    requires Tiers(N, S) && |t| == Pow2(N) && ones <= N
    requires SelfReferring(own) && Settled(N, own, t)
    requires forall X :: 0 <= X < |t| && Popcount(X, N) < ones ==> t[X] == own[X]
    ensures Settled(N, own, Relaxed(N, t, S, ones))
    decreases ones
  {
    if ones > 2 {
      TierSettles(N, own, t, S[ones], ones);
      TierFrame(N, t, S[ones], ones);
      RelaxSettles(N, own, RelaxedTier(N, t, S[ones]), S, ones - 1);
    }
  }

  /**
   * Within one tier, when every parent of W in L has weight at least 0,
   * W ends with a weight of at least 0 and at most that of each parent
   * in L, once some parent has made its offer.
   */
  lemma {:induction false} TierParents(N: nat, t: seq<OutputForm>, L: seq<nat>, W: nat)
    requires W < |t| && t[W].weight >= -1
    requires forall j :: 0 <= j < |L| ==> L[j] < |t| && Popcount(L[j], N) == Popcount(W, N) + 1
    requires forall j :: 0 <= j < |L| && Child(N, W, L[j]) ==> t[L[j]].weight >= 0
    ensures RelaxedTier(N, t, L)[W].weight >= -1
    ensures forall j :: 0 <= j < |L| && Child(N, W, L[j]) ==>
      0 <= RelaxedTier(N, t, L)[W].weight <= t[L[j]].weight
  {
    if L != [] {
      var L', V := L[..|L| - 1], L[|L| - 1];
      TierParents(N, t, L', W);
      TierFrame(N, t, L', Popcount(W, N) + 1);
      var u := RelaxedTier(N, t, L');
      assert u[V] == t[V];
      forall j | 0 <= j < |L| && Child(N, W, L[j])
        ensures 0 <= RelaxedTier(N, t, L)[W].weight <= t[L[j]].weight
      {
        if j < |L'| {
          assert L'[j] == L[j];
        }
      }
    }
  }

  /**
   * L is the tier of W's parents and r a table it wrote last: L holds
   * masks of popcount one above W's, among them every parent of W; r
   * agrees with t on that tier and with the relaxation of L from t on
   * W's tier and above.
   */
  ghost predicate ParentsLast(N: nat, t: seq<OutputForm>, L: seq<nat>, r: seq<OutputForm>, W: nat)
  {
    && |t| == Pow2(N) && |r| == |t| && W < |t|
    && (forall j :: 0 <= j < |L| ==> L[j] < |t| && Popcount(L[j], N) == Popcount(W, N) + 1)
    && (forall P :: 0 <= P < Pow2(N) && Child(N, W, P) ==> P in L)
    && (forall X :: 0 <= X < |t| && Popcount(X, N) >= Popcount(W, N) ==> r[X] == RelaxedTier(N, t, L)[X])
    && (forall X :: 0 <= X < |t| && Popcount(X, N) == Popcount(W, N) + 1 ==> r[X] == t[X])
  }

  /**
   * When the tier L of W's parents wrote W last, a W whose parents all
   * weigh at least 0 in r weighs at least 0 and at most each parent in r.
   */
  lemma {:induction false} ParentsBound(N: nat, t: seq<OutputForm>, L: seq<nat>, r: seq<OutputForm>, W: nat)
    requires ParentsLast(N, t, L, r, W)
    requires t[W].weight >= -1 && Popcount(W, N) < N
    requires ParentsNonNegative(N, r, W)
    ensures BoundedAt(N, r, W)
  {
    TierParents(N, t, L, W);
    forall P | 0 <= P < |t| && Child(N, W, P)
      ensures r[W].weight <= r[P].weight
    {
      var j :| 0 <= j < |L| && L[j] == P;
    }
    var P := SomeParent(N, W);
    var j :| 0 <= j < |L| && L[j] == P;
  }

  /**
   * The tier k + 1 of a complete S, with k the popcount of W, is the last
   * to write W and comes after the last write to W's parents.
   */
  lemma {:induction false} LastTier(N: nat, t: seq<OutputForm>, S: seq<seq<nat>>, W: nat)
    requires Tiers(N, S) && Complete(N, S) && |t| == Pow2(N)
    requires W < |t| && 2 <= Popcount(W, N) < N
    ensures ParentsLast(N, t, S[Popcount(W, N) + 1], Relaxed(N, t, S, Popcount(W, N) + 1), W)
  {
    var k := Popcount(W, N);
    var u := RelaxedTier(N, t, S[k + 1]);
    assert Relaxed(N, t, S, k + 1) == Relaxed(N, u, S, k);
    TierFrame(N, t, S[k + 1], k + 1);
    RelaxFrame(N, u, S, k);
  }

  /**
   * The tier of W's parents is the last to write W: when every parent of W
   * ends with weight at least 0, W ends with weight at least 0 and at most
   * each parent's final weight.
   */
  lemma {:induction false} ParentTier(N: nat, t: seq<OutputForm>, S: seq<seq<nat>>, W: nat)
    requires Tiers(N, S) && Complete(N, S) && |t| == Pow2(N)
    requires W < |t| && 2 <= Popcount(W, N) < N && t[W].weight >= -1
    requires ParentsNonNegative(N, Relaxed(N, t, S, Popcount(W, N) + 1), W)
    ensures BoundedAt(N, Relaxed(N, t, S, Popcount(W, N) + 1), W)
  {
    var k := Popcount(W, N);
    LastTier(N, t, S, W);
    ParentsBound(N, t, S[k + 1], Relaxed(N, t, S, k + 1), W);
  }

  /**
   * Over the whole relaxation, a subset W of popcount 2 up to `ones` - 1
   * whose parents all end with weight at least 0 ends with weight at least
   * 0 and at most each parent's final weight.
   */
  lemma {:induction false} RelaxParents(N: nat, t: seq<OutputForm>, S: seq<seq<nat>>, ones: nat, W: nat)
    requires Tiers(N, S) && Complete(N, S) && |t| == Pow2(N) && ones <= N
    requires W < |t| && 2 <= Popcount(W, N) < ones && t[W].weight >= -1
    requires ParentsNonNegative(N, Relaxed(N, t, S, ones), W)
    ensures BoundedAt(N, Relaxed(N, t, S, ones), W)
    decreases ones
  {
    if ones == Popcount(W, N) + 1 {
      ParentTier(N, t, S, W);
    } else {
      var u := RelaxedTier(N, t, S[ones]);
      TierFrame(N, t, S[ones], ones);
      RelaxParents(N, u, S, ones - 1, W);
    }
  }

  /** Every parent of W (W plus one vertex) has weight at least 0 in t. */
  ghost predicate ParentsNonNegative(N: nat, t: seq<OutputForm>, W: nat)
  {
    forall P :: 0 <= P < |t| && Child(N, W, P) ==> t[P].weight >= 0
  }

  /** W has weight at least 0 and at most the weight of each of its parents. */
  ghost predicate BoundedAt(N: nat, t: seq<OutputForm>, W: nat)
    requires W < |t|
  {
    && t[W].weight >= 0
    && forall P :: 0 <= P < |t| && Child(N, W, P) ==> t[W].weight <= t[P].weight
  }

  /**
   * Every subset W of two or more vertices, other than the full set, whose
   * parents all have weight at least 0 has weight at least 0 and at most
   * each parent's weight.
   */
  ghost predicate BoundedByParents(N: nat, t: seq<OutputForm>)
  {
    forall W :: 0 <= W < |t| && 2 <= Popcount(W, N) < N && ParentsNonNegative(N, t, W) ==> BoundedAt(N, t, W)
  }

  /** The full relaxation bounds every subset by its parents, when no weight is below -1. */
  lemma {:induction false} RelaxBounded(N: nat, t: seq<OutputForm>, S: seq<seq<nat>>)
    requires Tiers(N, S) && Complete(N, S) && |t| == Pow2(N)
    requires forall X :: 0 <= X < |t| ==> t[X].weight >= -1
    ensures BoundedByParents(N, Relaxed(N, t, S, N))
  {
    var r := Relaxed(N, t, S, N);
    forall W | 0 <= W < |r| && 2 <= Popcount(W, N) < N && ParentsNonNegative(N, r, W)
      ensures BoundedAt(N, r, W)
    {
      RelaxParents(N, t, S, N, W);
    }
  }

  /**
   * One tier of the relaxation (steiner.cpp:161-167): every subset of L,
   * in the order of L, offers its solution to its children.
   */
  method RelaxTier(N: nat, table: array<OutputForm>, L: seq<nat>)
    requires N <= MaxVertices && table.Length == Pow2(N)
    requires forall j :: 0 <= j < |L| ==> L[j] < table.Length
    modifies table
    ensures table[..] == RelaxedTier(N, old(table[..]), L)
  {
    for j := 0 to |L|
      invariant table[..] == RelaxedTier(N, old(table[..]), L[..j])
    {
      OfferDown(N, table, L[j]);
      assert L[..j + 1][..j] == L[..j];
    }
    assert L[..|L|] == L;
  }

  /**
   * The relaxation pass (steiner.cpp:160-167): tiers N down to 3, each
   * subset of the tier offering its solution to its children.
   */
  method Relax(N: nat, table: array<OutputForm>, S: seq<seq<nat>>)
    requires N <= MaxVertices && table.Length == Pow2(N) && Tiers(N, S)
    modifies table
    ensures table[..] == Relaxed(N, old(table[..]), S, N)
  {
    var ones: nat := N;
    while ones > 2
      invariant ones <= N
      invariant Relaxed(N, table[..], S, ones) == Relaxed(N, old(table[..]), S, N)
    {
      RelaxTier(N, table, S[ones]);
      ones := ones - 1;
    }
  }

  /**
   * The own result of a superset W of V, when it is not the sentinel, is a
   * Steiner tree for V: its edges come from the graph, it is acyclic, it
   * connects every member of W and so every member of V, and it weighs w.
   */
  lemma {:induction false} SupersetTreeConnects(N: nat, E: seq<Edge>, V: nat, W: nat, w: int, T: seq<Edge>)
    requires Subset(N, V, W)
    requires OwnResult(N, W, E, w, T) && w != -1
    ensures ConnectingTree(N, V, E, T, w)
  {
    if Popcount(W, N) < 2 {
      // V has at most one member, which the empty tree spans
      forall x, y | InV(N, V, x) && InV(N, V, y)
        ensures Joined(N, T, x, y)
      {
        TwoMembers(N, W, x, y);
      }
    } else {
      assert SpanningTree(N, W, E, T);
    }
  }

  /** The entries of own are the own results of their subsets, as the table is filled. */
  ghost predicate OwnTable(N: nat, G: seq<Edge>, own: seq<OutputForm>)
  {
    forall V :: 0 <= V < |own| ==>
      own[V].v == V && own[V].steiner == V && OwnResult(N, V, G, own[V].weight, own[V].mst)
  }

  /**
   * Every weight of t other than -1 is realised: the tree displayed for V,
   * the own tree of the subset V refers to, connects V and has that weight.
   */
  ghost predicate Realised(N: nat, G: seq<Edge>, t: seq<OutputForm>)
  {
    forall V :: 0 <= V < |t| && t[V].weight != -1 && t[V].steiner < |t| ==>
      ConnectingTree(N, V, G, t[t[V].steiner].mst, t[V].weight)
  }

  /** Every subset of at most one vertex reports itself, no edges and weight 0. */
  ghost predicate SmallSubsetsOwn(N: nat, t: seq<OutputForm>)
  {
    forall V :: 0 <= V < |t| && Popcount(V, N) <= 1 ==> t[V] == OutputForm(V, [], 0, V)
  }

  /**
   * What the relaxation of a table of own results delivers: references
   * to supersets whose entries keep their own results, realised weights,
   * untouched small subsets and, for non-negative weights, subsets
   * bounded by their parents.
   */
  lemma {:induction false} RelaxOwnTable(N: nat, G: seq<Edge>, own: seq<OutputForm>, S: seq<seq<nat>>)
    requires Tiers(N, S) && Complete(N, S) && |own| == Pow2(N) && OwnTable(N, G, own)
    ensures Settled(N, own, Relaxed(N, own, S, N))
    ensures Realised(N, G, Relaxed(N, own, S, N))
    ensures SmallSubsetsOwn(N, Relaxed(N, own, S, N))
    ensures NonNegative(G) ==> BoundedByParents(N, Relaxed(N, own, S, N))
  {
    var r := Relaxed(N, own, S, N);
    RelaxSettles(N, own, own, S, N);
    RelaxFrame(N, own, S, N);
    forall V | 0 <= V < |r| && r[V].weight != -1 && r[V].steiner < |r|
      ensures ConnectingTree(N, V, G, r[r[V].steiner].mst, r[V].weight)
    {
      var W := r[V].steiner;
      SupersetTreeConnects(N, G, V, W, own[W].weight, own[W].mst);
    }
    if NonNegative(G) {
      forall X | 0 <= X < |own|
        ensures own[X].weight >= -1
      {
        SentinelMeansDisconnected(N, X, G, own[X].weight, own[X].mst);
      }
      RelaxBounded(N, own, S);
    }
  }

  /**
   * The whole computation between reading the graph and printing
   * (steiner.cpp:139-167), for an edge list already sorted by weight. The
   * ghost `own` is the table of own results as filled before relaxation.
   */
  method BuildTable(N: nat, G: seq<Edge>) returns (table: array<OutputForm>, ghost own: seq<OutputForm>)
    requires N <= MaxVertices && EdgesIn(N, G) && SortedByWeight(G)
    ensures fresh(table) && table.Length == Pow2(N) && |own| == Pow2(N)
    ensures OwnTable(N, G, own)
    ensures table[..] == Relaxed(N, own, Buckets(N), N)
    ensures Settled(N, own, table[..])
    ensures Realised(N, G, table[..])
    ensures SmallSubsetsOwn(N, table[..])
    ensures NonNegative(G) ==> BoundedByParents(N, table[..])
  {
    table := FillTable(N, G);
    own := table[..];
    var S := BucketByPopcount(N);
    Relax(N, table, S);
    RelaxOwnTable(N, G, own, S);
  }
}
