/**
 * Vertex subsets of {0, ..., N-1} encoded as bit masks (the source's
 * `vertex_subset`). A mask is a natural number; vertex i belongs to the
 * subset when bit i of the mask is set, which the source tests as
 * `(V & (1 << i)) > 0` and which `Bit` states by repeated halving.
 */
module Subsets {

  /**
   * The largest vertex count the source handles: `1 << N` and
   * `(1 << N) - 1` are computed in a 32-bit signed `int`.
   */
  const MaxVertices: nat := 30

  /** 2^i, the mask `1 << i` of the single vertex i. */
  function Pow2(i: nat): (r: nat)
    ensures r >= 1
  {
    if i == 0 then 1 else 2 * Pow2(i - 1)
  }

  /** Vertex i belongs to the subset V. */
  predicate Bit(V: nat, i: nat)
  {
    if i == 0 then V % 2 == 1 else Bit(V / 2, i - 1)
  }

  /** The number of vertices among 0..k-1 that belong to V. */
  function Popcount(V: nat, k: nat): (r: nat)
    ensures r <= k
  {
    if k == 0 then 0 else Popcount(V, k - 1) + (if Bit(V, k - 1) then 1 else 0)
  }

  /** Every vertex below N that is in A is also in B. */
  predicate Subset(N: nat, A: nat, B: nat)
  {
    forall i: nat :: i < N && Bit(A, i) ==> Bit(B, i)
  }

  /** The vertices below N that belong to V, as a set. */
  ghost function Members(N: nat, V: nat): set<nat>
  {
    set i: nat | i < N && Bit(V, i)
  }

  /** A mask holding vertex i is at least 2^i. */
  lemma {:induction false} BitBound(V: nat, i: nat)
    requires Bit(V, i)
    ensures V >= Pow2(i)
  {
    if i > 0 {
      BitBound(V / 2, i - 1);
    }
  }

  /**
   * Removing vertex i from V by subtracting 2^i (the relaxation's `V - I`)
   * clears exactly bit i and keeps every other bit.
   */
  lemma {:induction false} ClearBit(V: nat, i: nat, j: nat)
    requires Bit(V, i)
    ensures V >= Pow2(i)
    ensures Bit(V - Pow2(i), j) <==> (j != i && Bit(V, j))
  {
    BitBound(V, i);
    if i == 0 {
      if j > 0 {
        assert (V - 1) / 2 == V / 2;
      }
    } else {
      var P := Pow2(i - 1);
      assert V - Pow2(i) == V - 2 * P;
      assert (V - 2 * P) / 2 == V / 2 - P;
      assert (V - 2 * P) % 2 == V % 2;
      if j > 0 {
        ClearBit(V / 2, i - 1, j - 1);
      }
    }
  }

  /** Removing a member vertex lowers the count by one exactly when it lies below k. */
  lemma {:induction false} PopcountClear(V: nat, i: nat, k: nat)
    requires Bit(V, i)
    ensures V >= Pow2(i)
    ensures Popcount(V - Pow2(i), k) == Popcount(V, k) - (if i < k then 1 else 0)
  {
    BitBound(V, i);
    if k > 0 {
      PopcountClear(V, i, k - 1);
      ClearBit(V, i, k - 1);
    }
  }

  /** Removing a member vertex i < N leaves a subset of V. */
  lemma {:induction false} ClearBitSubset(N: nat, V: nat, i: nat)
    requires Bit(V, i)
    ensures V >= Pow2(i)
    ensures Subset(N, V - Pow2(i), V)
    ensures !Bit(V - Pow2(i), i)
  {
    ClearBit(V, i, i);
    forall j: nat | j < N && Bit(V - Pow2(i), j)
      ensures Bit(V, j)
    {
      ClearBit(V, i, j);
    }
  }

  /** Being a subset below N is transitive. */
  lemma {:induction false} SubsetTransitive(N: nat, A: nat, B: nat, C: nat)
    requires Subset(N, A, B) && Subset(N, B, C)
    ensures Subset(N, A, C)
  {
  }

  /** Counting over a longer prefix of the vertices never gives less. */
  lemma {:induction false} PopcountMonotone(V: nat, j: nat, k: nat)
    requires j <= k
    ensures Popcount(V, j) <= Popcount(V, k)
  {
    if j < k {
      PopcountMonotone(V, j, k - 1);
    }
  }

  /** The popcount of V below k is the number of its members below k. */
  lemma {:induction false} MembersCount(V: nat, k: nat)
    ensures |Members(k, V)| == Popcount(V, k)
  {
    if k > 0 {
      MembersCount(V, k - 1);
      var prev := Members(k - 1, V);
      if Bit(V, k - 1) {
        assert Members(k, V) == prev + {k - 1};
      } else {
        assert Members(k, V) == prev;
      }
    }
  }

  /** A subset with two distinct members below N has popcount at least two. */
  lemma {:induction false} TwoMembers(N: nat, V: nat, x: nat, y: nat)
    requires x < N && y < N && Bit(V, x) && Bit(V, y)
    ensures x != y ==> Popcount(V, N) >= 2
  {
    if x != y {
      var lo, hi := if x < y then x else y, if x < y then y else x;
      PopcountMonotone(V, lo + 1, hi);
      PopcountMonotone(V, hi + 1, N);
    }
  }

  /** 2^i grows with i. */
  lemma {:induction false} Pow2Grows(i: nat, j: nat)
    requires i <= j
    ensures Pow2(i) <= Pow2(j)
  {
    if i < j {
      Pow2Grows(i, j - 1);
    }
  }

  /** A single-vertex mask below 2^N names a vertex below N. */
  lemma {:induction false} Pow2Below(i: nat, N: nat)
    requires Pow2(i) < Pow2(N)
    ensures i < N
  {
    if N <= i {
      Pow2Grows(N, i);
    }
  }

  /** W is V with one of its members removed. */
  predicate Child(N: nat, W: nat, V: nat)
  {
    W < V && Subset(N, W, V) && Popcount(W, N) + 1 == Popcount(V, N)
  }

  /**
   * A subset A of B has at most as many members below k as B, and exactly
   * as many only when A and B agree on every vertex below k.
   */
  lemma {:induction false} SubsetPopcount(k: nat, A: nat, B: nat)
    requires Subset(k, A, B)
    ensures Popcount(A, k) <= Popcount(B, k)
    ensures Popcount(A, k) == Popcount(B, k) ==> forall i: nat :: i < k ==> (Bit(A, i) <==> Bit(B, i))
  {
    if k > 0 {
      SubsetPopcount(k - 1, A, B);
    }
  }

  /** Two masks below 2^N with the same members below N are the same mask. */
  lemma {:induction false} SameBits(N: nat, A: nat, B: nat)
    requires A < Pow2(N) && B < Pow2(N)
    requires forall i: nat :: i < N ==> (Bit(A, i) <==> Bit(B, i))
    ensures A == B
  {
    if N > 0 {
      forall i: nat | i < N - 1
        ensures Bit(A / 2, i) <==> Bit(B / 2, i)
      {
        assert Bit(A, i + 1) <==> Bit(B, i + 1);
      }
      SameBits(N - 1, A / 2, B / 2);
      assert Bit(A, 0) <==> Bit(B, 0);
    }
  }

  /** A proper subset, both masks below 2^N, has fewer members. */
  lemma {:induction false} ProperSubsetPopcount(N: nat, A: nat, B: nat)
    requires A < Pow2(N) && B < Pow2(N)
    requires Subset(N, A, B) && A != B
    ensures Popcount(A, N) < Popcount(B, N)
  {
    SubsetPopcount(N, A, B);
    if Popcount(A, N) == Popcount(B, N) {
      SameBits(N, A, B);
    }
  }

  /** Adding a vertex i that V lacks, as `V + 2^i`, sets bit i and keeps every other bit. */
  lemma {:induction false} SetBit(V: nat, i: nat, j: nat)
    requires !Bit(V, i)
    ensures Bit(V + Pow2(i), j) <==> (j == i || Bit(V, j))
  {
    if i == 0 {
      if j > 0 {
        assert (V + 1) / 2 == V / 2;
      }
    } else {
      assert (V + Pow2(i)) / 2 == V / 2 + Pow2(i - 1);
      assert (V + Pow2(i)) % 2 == V % 2;
      if j > 0 {
        SetBit(V / 2, i - 1, j - 1);
      }
    }
  }

  /** Adding a vertex i < N that V lacks keeps the mask below 2^N. */
  lemma {:induction false} SetBitBound(N: nat, V: nat, i: nat)
    requires V < Pow2(N) && i < N && !Bit(V, i)
    ensures V + Pow2(i) < Pow2(N)
  {
    var P := Pow2(N - 1);
    assert V == 2 * (V / 2) + V % 2 && V / 2 < P;
    if i > 0 {
      SetBitBound(N - 1, V / 2, i - 1);
      assert V + Pow2(i) == 2 * (V / 2 + Pow2(i - 1)) + V % 2;
    }
  }

  /** A subset with fewer than k members below k lacks some vertex below k. */
  lemma {:induction false} MissingVertex(V: nat, k: nat) returns (i: nat)
    requires Popcount(V, k) < k
    ensures i < k && !Bit(V, i)
  {
    if Bit(V, k - 1) {
      i := MissingVertex(V, k - 1);
    } else {
      i := k - 1;
    }
  }

  /** Every child W of a mask V below 2^N is V minus one of V's members. */
  lemma {:induction false} ChildMember(N: nat, W: nat, V: nat) returns (i: nat)
    requires V < Pow2(N) && Child(N, W, V)
    ensures i < N && Bit(V, i) && V >= Pow2(i) && W == V - Pow2(i)
  {
    if Subset(N, V, W) {
      SubsetPopcount(N, V, W);
      assert false;
    }
    i :| i < N && Bit(V, i) && !Bit(W, i);
    BitBound(V, i);
    var U := V - Pow2(i);
    forall j: nat | j < N && Bit(W, j)
      ensures Bit(U, j)
    {
      ClearBit(V, i, j);
    }
    PopcountClear(V, i, N);
    SubsetPopcount(N, W, U);
    SameBits(N, W, U);
  }

  /** Adding a vertex i < N that W lacks gives a parent of W below 2^N. */
  lemma {:induction false} ParentOf(N: nat, W: nat, i: nat)
    requires W < Pow2(N) && i < N && !Bit(W, i)
    ensures W + Pow2(i) < Pow2(N) && Child(N, W, W + Pow2(i))
  {
    SetBitBound(N, W, i);
    var P := W + Pow2(i);
    SetBit(W, i, i);
    PopcountClear(P, i, N);
    assert P - Pow2(i) == W;
    forall j: nat | j < N && Bit(W, j)
      ensures Bit(P, j)
    {
      SetBit(W, i, j);
    }
  }

  /** A mask below 2^N with fewer than N members has a parent below 2^N. */
  lemma {:induction false} SomeParent(N: nat, W: nat) returns (P: nat)
    requires W < Pow2(N) && Popcount(W, N) < N
    ensures P < Pow2(N) && Child(N, W, P)
  {
    var i := MissingVertex(W, N);
    ParentOf(N, W, i);
    P := W + Pow2(i);
  }
}
