/**
 * The disjoint-set structure of steiner.cpp (class `disjoint_set`):
 * recursive `find` with path compression and a rank-based `merge` whose
 * tie-break hangs the HIGHER-rank root under the lower-rank one.
 *
 * Because ranks do not bound the height of the forest under that policy,
 * termination of `find` rests on a ghost `level` per vertex that strictly
 * increases from a vertex to its parent, below a ghost `bound`.
 */
module UnionFind {

  /** The parent array p is a forest whose parent links climb strictly in level. */
  ghost predicate Ranked(p: seq<int>, lv: seq<nat>, bound: nat)
  {
    && |p| == |lv|
    && forall x :: 0 <= x < |p| ==>
         && 0 <= p[x] < |p|
         && lv[x] < bound
         && (p[x] != x ==> lv[x] < lv[p[x]])
  }

  /** The root reached by following parent links from x. */
  ghost function Root(p: seq<int>, lv: seq<nat>, bound: nat, x: int): (r: int)
    requires Ranked(p, lv, bound) && 0 <= x < |p|
    ensures 0 <= r < |p| && p[r] == r
    ensures p[x] == x ==> r == x
    ensures p[x] != x ==> lv[x] < lv[r]
    decreases bound - lv[x]
  {
    if p[x] == x then x else Root(p, lv, bound, p[x])
  }

  /** The root of every vertex. */
  ghost function RootsOf(p: seq<int>, lv: seq<nat>, bound: nat): (R: seq<int>)
    requires Ranked(p, lv, bound)
  {
    seq(|p|, x requires 0 <= x < |p| => Root(p, lv, bound, x))
  }

  /** The roots after u's and v's classes are united under the root r. */
  function MergedRoots(R: seq<int>, u: int, v: int, r: int): (R': seq<int>)
    requires 0 <= u < |R| && 0 <= v < |R|
  {
    seq(|R|, x requires 0 <= x < |R| => if R[x] == R[u] || R[x] == R[v] then r else R[x])
  }

  /** Levels after root ru is hung under root rv: rv rises above ru if needed. */
  function LinkLevels(lv: seq<nat>, ru: int, rv: int): (lv': seq<nat>)
    requires 0 <= ru < |lv| && 0 <= rv < |lv|
  {
    lv[rv := if lv[rv] > lv[ru] then lv[rv] else lv[ru] + 1]
  }

  /** A strict upper bound on the levels after the link. */
  function LinkBound(lv: seq<nat>, bound: nat, ru: int, rv: int): (b: nat)
    requires 0 <= ru < |lv| && 0 <= rv < |lv|
  {
    var top := LinkLevels(lv, ru, rv)[rv];
    if top < bound then bound else top + 1
  }

  /** Pointing u straight at its root (the write at steiner.cpp:64) changes no vertex's root. */
  lemma {:induction false} CompressRoot(p: seq<int>, lv: seq<nat>, bound: nat, u: int, x: int)
    requires Ranked(p, lv, bound) && 0 <= u < |p| && 0 <= x < |p|
    ensures Ranked(p[u := Root(p, lv, bound, u)], lv, bound)
    ensures Root(p[u := Root(p, lv, bound, u)], lv, bound, x) == Root(p, lv, bound, x)
    decreases bound - lv[x]
  {
    var r := Root(p, lv, bound, u);
    var q := p[u := r];
    assert Ranked(q, lv, bound);
    if p[x] != x && x != u {
      CompressRoot(p, lv, bound, u, p[x]);
    }
  }

  lemma {:induction false} CompressRoots(p: seq<int>, lv: seq<nat>, bound: nat, u: int)
    requires Ranked(p, lv, bound) && 0 <= u < |p|
    ensures Ranked(p[u := Root(p, lv, bound, u)], lv, bound)
    ensures RootsOf(p[u := Root(p, lv, bound, u)], lv, bound) == RootsOf(p, lv, bound)
  {
    forall x | 0 <= x < |p|
      ensures Root(p[u := Root(p, lv, bound, u)], lv, bound, x) == Root(p, lv, bound, x)
    {
      CompressRoot(p, lv, bound, u, x);
    }
  }

  /** Hanging root ru under root rv moves exactly ru's class to rv. */
  lemma {:induction false} LinkRoot(p: seq<int>, lv: seq<nat>, bound: nat, ru: int, rv: int, x: int)
    requires Ranked(p, lv, bound)
    requires 0 <= ru < |p| && 0 <= rv < |p| && 0 <= x < |p|
    requires p[ru] == ru && p[rv] == rv && ru != rv
    ensures Ranked(p[ru := rv], LinkLevels(lv, ru, rv), LinkBound(lv, bound, ru, rv))
    ensures var R := Root(p, lv, bound, x);
      Root(p[ru := rv], LinkLevels(lv, ru, rv), LinkBound(lv, bound, ru, rv), x) == if R == ru then rv else R
    decreases bound - lv[x]
  {
    var q, lv', bound' := p[ru := rv], LinkLevels(lv, ru, rv), LinkBound(lv, bound, ru, rv);
    assert Ranked(q, lv', bound');
    if p[x] != x {
      LinkRoot(p, lv, bound, ru, rv, p[x]);
    }
  }

  lemma {:induction false} LinkRoots(p: seq<int>, lv: seq<nat>, bound: nat, ru: int, rv: int)
    requires Ranked(p, lv, bound)
    requires 0 <= ru < |p| && 0 <= rv < |p|
    requires p[ru] == ru && p[rv] == rv && ru != rv
    ensures Ranked(p[ru := rv], LinkLevels(lv, ru, rv), LinkBound(lv, bound, ru, rv))
    ensures var R := RootsOf(p, lv, bound);
      RootsOf(p[ru := rv], LinkLevels(lv, ru, rv), LinkBound(lv, bound, ru, rv)) == MergedRoots(R, ru, rv, rv)
  {
    LinkRoot(p, lv, bound, ru, rv, ru);
    forall x | 0 <= x < |p|
      ensures var R := Root(p, lv, bound, x);
        Root(p[ru := rv], LinkLevels(lv, ru, rv), LinkBound(lv, bound, ru, rv), x) == if R == ru then rv else R
    {
      LinkRoot(p, lv, bound, ru, rv, x);
    }
  }

  /** Uniting the classes of u and v is uniting those of their roots, in either order. */
  lemma {:induction false} MergedRootsOfRoots(R: seq<int>, u: int, v: int)
    requires 0 <= u < |R| && 0 <= v < |R|
    requires 0 <= R[u] < |R| && 0 <= R[v] < |R| && R[R[u]] == R[u] && R[R[v]] == R[v]
    ensures forall r :: MergedRoots(R, u, v, r) == MergedRoots(R, R[u], R[v], r) == MergedRoots(R, R[v], R[u], r)
  {
  }

  class DisjointSet {
    const parent: array<int>
    const rank: array<int>
    ghost var level: seq<nat>
    ghost var bound: nat

    ghost predicate Valid()
      reads this, parent, rank
    {
      && parent != rank
      && rank.Length == parent.Length
      && Ranked(parent[..], level, bound)
    }

    /** The representative `find` would return for each vertex. */
    ghost function Roots(): (R: seq<int>)
      reads this, parent, rank
      requires Valid()
    {
      RootsOf(parent[..], level, bound)
    }

    /** n singleton classes, every rank 1 (steiner.cpp:55-58). */
    constructor (n: nat)
      ensures Valid() && fresh(parent) && fresh(rank)
      ensures parent.Length == n
      ensures forall x :: 0 <= x < n ==> rank[x] == 1
      ensures Roots() == seq(n, x => x)
    {
      parent := new int[n];
      rank := new int[n](_ => 1);
      level := seq(n, _ => 0);
      bound := 1;
      new;
      var i := 0;
      while i < n
        invariant 0 <= i <= n
        invariant forall x :: 0 <= x < i ==> parent[x] == x
        modifies parent
      {
        parent[i] := i;
        i := i + 1;
      }
    }

    /**
     * The root of u's class (steiner.cpp:61-65). Every vertex keeps its
     * root, u now points straight at it, and every parent link that
     * changed now points at its vertex's root.
     */
    method Find(u: int) returns (r: int)
      requires Valid() && 0 <= u < parent.Length
      modifies parent
      ensures Valid()
      ensures Roots() == old(Roots())
      ensures r == Roots()[u] && parent[r] == r && parent[u] == r
      ensures forall x :: 0 <= x < parent.Length ==> parent[x] == old(parent[x]) || parent[x] == Roots()[x]
      decreases bound - level[u]
    {
      if u == parent[u] {
        return u;
      }
      r := Find(parent[u]);
      ghost var p := parent[..];
      assert Root(p, level, bound, u) == r;
      parent[u] := r;
      assert parent[..] == p[u := r];
      CompressRoots(p, level, bound, u);
    }

    /**
     * Unites the classes of u and v and returns the common root
     * (steiner.cpp:68-75). Ranks decide which root is hung under which:
     * the higher-rank root goes under the lower-rank one, and on a tie u's
     * root goes under v's, whose rank grows by one.
     */
    method Merge(u: int, v: int) returns (r: int)
      requires Valid() && 0 <= u < parent.Length && 0 <= v < parent.Length
      modifies this, parent, rank
      ensures Valid()
      ensures Roots() == MergedRoots(old(Roots()), u, v, r)
      ensures r == Roots()[u] == Roots()[v]
      ensures r == old(Roots())[u] || r == old(Roots())[v]
      ensures old(Roots()[u] == Roots()[v]) ==> r == old(Roots()[u]) && rank[..] == old(rank[..])
      ensures var ru, rv := old(Roots()[u]), old(Roots()[v]);
        ru != rv && old(rank[ru] > rank[rv]) ==>
          r == rv && parent[ru] == rv && rank[..] == old(rank[..])
      ensures var ru, rv := old(Roots()[u]), old(Roots()[v]);
        ru != rv && old(rank[ru] < rank[rv]) ==>
          r == ru && parent[rv] == ru && rank[..] == old(rank[..])
      ensures var ru, rv := old(Roots()[u]), old(Roots()[v]);
        ru != rv && old(rank[ru] == rank[rv]) ==>
          r == rv && parent[ru] == rv && rank[..] == old(rank[..])[rv := old(rank[rv]) + 1]
    {
      ghost var R0, k0 := Roots(), rank[..];
      var ru := Find(u);
      var rv := Find(v);
      assert rank[..] == k0 && Roots() == R0;
      if ru == rv {
        return ru;
      }
      MergedRootsOfRoots(R0, u, v);
      if rank[ru] > rank[rv] {
        Link(ru, rv);
        r := rv;
      } else if rank[ru] < rank[rv] {
        Link(rv, ru);
        r := ru;
      } else {
        rank[rv] := rank[rv] + 1;
        Link(ru, rv);
        r := rv;
      }
    }

    /**
     * Hangs the root ru under the root rv, the parent write of
     * steiner.cpp:72-74: exactly ru's class moves to rv.
     */
    method Link(ru: int, rv: int)
      requires Valid() && 0 <= ru < parent.Length && 0 <= rv < parent.Length
      requires parent[ru] == ru && parent[rv] == rv && ru != rv
      modifies this, parent
      ensures Valid()
      ensures Roots() == MergedRoots(old(Roots()), ru, rv, rv)
      ensures parent[ru] == rv
    {
      ghost var p, lv, b := parent[..], level, bound;
      parent[ru] := rv;
      level, bound := LinkLevels(lv, ru, rv), LinkBound(lv, b, ru, rv);
      assert parent[..] == p[ru := rv];
      LinkRoots(p, lv, b, ru, rv);
    }
  }
}
