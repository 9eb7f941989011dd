/** Finite directed graphs, their paths, and what follows from having no cycle.
    Placeholder references and the jobs of a wrapper are both such graphs. */
module Digraph {

  type Graph<K> = map<K, set<K>>

  /** Every edge ends at a node of the graph. */
  ghost predicate Closed<K>(g: Graph<K>) {
    forall n :: n in g ==> g[n] <= g.Keys
  }

  /** `p` lists the nodes of a walk along edges, so it has |p| - 1 edges. */
  ghost predicate IsPath<K>(g: Graph<K>, p: seq<K>) {
    && p != []
    && (forall i :: 0 <= i < |p| ==> p[i] in g)
    && (forall i :: 0 <= i < |p| - 1 ==> p[i+1] in g[p[i]])
  }

  ghost predicate Acyclic<K(!new)>(g: Graph<K>) {
    forall p: seq<K> :: IsPath(g, p) && |p| >= 2 ==> p[0] != p[|p|-1]
  }

  lemma PathNodesDistinct<K(!new)>(g: Graph<K>, p: seq<K>, i: int, j: int)
    requires Acyclic(g) && IsPath(g, p) && 0 <= i < j < |p|
    ensures p[i] != p[j]
  {
    var q := p[i..j+1];
    assert IsPath(g, q) && |q| >= 2;
  }

  /** Distinct elements of a sequence fit into any set that holds them. */
  lemma {:induction false} DistinctFit<K>(p: seq<K>, s: set<K>)
    requires forall i, j :: 0 <= i < j < |p| ==> p[i] != p[j]
    requires forall i :: 0 <= i < |p| ==> p[i] in s
    ensures |p| <= |s|
  {
    if p != [] {
      var last := |p| - 1;
      DistinctFit(p[..last], s - {p[last]});
    }
  }

  /** In an acyclic graph a walk has no more edges than there are nodes with a successor. */
  lemma PathBound<K(!new)>(g: Graph<K>, p: seq<K>, sources: set<K>)
    requires Acyclic(g) && IsPath(g, p)
    requires forall n :: n in g && g[n] != {} ==> n in sources
    ensures |p| - 1 <= |sources|
  {
    var q := p[..|p|-1];
    forall i, j | 0 <= i < j < |q| ensures q[i] != q[j] {
      PathNodesDistinct(g, p, i, j);
    }
    forall i | 0 <= i < |q| ensures q[i] in sources {
      assert p[i+1] in g[p[i]];
    }
    DistinctFit(q, sources);
  }

  lemma PathFitsGraph<K(!new)>(g: Graph<K>, p: seq<K>)
    requires Acyclic(g) && IsPath(g, p)
    ensures |p| <= |g.Keys|
  {
    forall i, j | 0 <= i < j < |p| ensures p[i] != p[j] {
      PathNodesDistinct(g, p, i, j);
    }
    DistinctFit(p, g.Keys);
  }

  ghost predicate HasPath<K(!new)>(g: Graph<K>, n: K, edges: nat) {
    exists p: seq<K> :: IsPath(g, p) && |p| == edges + 1 && p[0] == n
  }

  /** The number of edges of a longest path from `n`, looking no further than `bound`. */
  ghost function LongestUpTo<K(!new)>(g: Graph<K>, n: K, bound: nat): (h: nat)
    requires n in g
    ensures h <= bound && HasPath(g, n, h)
    ensures forall k: nat :: h < k <= bound ==> !HasPath(g, n, k)
  {
    assert IsPath(g, [n]) && |[n]| == 0 + 1;
    if bound == 0 || HasPath(g, n, bound) then bound
    else LongestUpTo(g, n, bound - 1)
  }

  /** The number of edges of a longest path from `n`. */
  ghost function Height<K(!new)>(g: Graph<K>, n: K): nat
    requires Acyclic(g) && n in g
  {
    LongestUpTo(g, n, |g.Keys|)
  }

  /** Heights strictly decrease along edges, so they rank an acyclic graph; and no height
      exceeds the number of nodes that have a successor. */
  lemma HeightRanks<K(!new)>(g: Graph<K>, n: K, m: K)
    requires Acyclic(g) && Closed(g) && n in g && m in g[n]
    ensures m in g && Height(g, m) < Height(g, n)
  {
    var h := Height(g, m);
    var p :| IsPath(g, p) && |p| == h + 1 && p[0] == m;
    var q := [n] + p;
    assert IsPath(g, q) by {
      forall i | 0 <= i < |q| - 1 ensures q[i+1] in g[q[i]] {
        if i > 0 { assert p[i] in g[p[i-1]]; }
      }
    }
    PathFitsGraph(g, q);
    assert HasPath(g, n, h + 1);
  }

  lemma HeightFitsGraph<K(!new)>(g: Graph<K>, n: K)
    requires Acyclic(g) && n in g
    ensures Height(g, n) < |g.Keys|
  {
    var h := Height(g, n);
    var p :| IsPath(g, p) && |p| == h + 1 && p[0] == n;
    PathFitsGraph(g, p);
  }

  lemma HeightBound<K(!new)>(g: Graph<K>, n: K, sources: set<K>)
    requires Acyclic(g) && n in g
    requires forall m :: m in g && g[m] != {} ==> m in sources
    ensures Height(g, n) <= |sources|
  {
    var h := Height(g, n);
    var p :| IsPath(g, p) && |p| == h + 1 && p[0] == n;
    PathBound(g, p, sources);
  }
}
