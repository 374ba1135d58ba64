/** Finite graphs: ranks that every edge goes down exist exactly where no path comes back to where it started. */
module Graphs {

  /** Where each node's edges go; those that leave the graph do not count. */
  type Graph<K> = map<K, set<K>>

  predicate Ranks<K>(g: Graph<K>, rank: map<K, nat>) {
    g.Keys <= rank.Keys && forall k <- g :: forall m <- g[k] :: m in g ==> rank[m] < rank[k]
  }

  predicate IsPath<K>(g: Graph<K>, p: seq<K>) {
    (forall i | 0 <= i < |p| :: p[i] in g) && forall i | 0 <= i < |p| - 1 :: p[i + 1] in g[p[i]]
  }

  ghost predicate Acyclic<K(!new)>(g: Graph<K>) {
    forall p: seq<K> | |p| > 1 && IsPath(g, p) :: p[0] != p[|p| - 1]
  }

  lemma {:induction false} PathGoesDown<K>(g: Graph<K>, rank: map<K, nat>, p: seq<K>)
    requires Ranks(g, rank) && |p| > 1 && IsPath(g, p)
    ensures rank[p[|p| - 1]] < rank[p[0]]
  {
    var init := p[..|p| - 1];
    assert p[|p| - 1] in g[p[|p| - 2]];
    if |init| > 1 { PathGoesDown(g, rank, init); }
  }

  /** A sequence longer than the set its items are in repeats one. */
  lemma {:induction false} Repeats<K>(p: seq<K>, s: set<K>) returns (i: nat, j: nat)
    requires |p| > |s| && forall x <- p :: x in s
    ensures i < j < |p| && p[i] == p[j]
    decreases |p|
  {
    var n := |p| - 1;
    assert p[n] in p;
    if p[n] in p[..n] {
      i :| 0 <= i < n && p[i] == p[n];
      j := n;
    } else {
      assert forall x <- p[..n] :: x in p;
      i, j := Repeats(p[..n], s - {p[n]});
    }
  }

  /** Where every node of a set has an edge into it, there are paths in it of every length. */
  lemma {:induction false} LongPath<K>(g: Graph<K>, s: set<K>, n: nat) returns (p: seq<K>)
    requires s != {} && s <= g.Keys && forall k <- s :: g[k] * s != {}
    ensures |p| == n + 1 && IsPath(g, p) && forall x <- p :: x in s
  {
    if n == 0 {
      var k :| k in s;
      p := [k];
    } else {
      var q := LongPath(g, s, n - 1);
      assert q[n - 1] in q;
      var k :| k in g[q[n - 1]] * s;
      p := q + [k];
    }
  }

  lemma CycleIn<K(!new)>(g: Graph<K>, p: seq<K>, i: nat, j: nat)
    requires IsPath(g, p) && i < j < |p| && p[i] == p[j]
    ensures !Acyclic(g)
  {
    var cycle := p[i..j + 1];
    assert |cycle| > 1 && IsPath(g, cycle) && cycle[0] == cycle[|cycle| - 1];
  }

  /** So of an acyclic graph each set has a node with none. */
  lemma FindLast<K(!new)>(g: Graph<K>, s: set<K>) returns (k: K)
    requires Acyclic(g) && s != {} && s <= g.Keys
    ensures k in s && g[k] * s == {}
  {
    if forall x <- s :: g[x] * s != {} {
      var p := LongPath(g, s, |s|);
      var i, j := Repeats(p, s);
      CycleIn(g, p, i, j);
    }
    k :| k in s && g[k] * s == {};
  }

  /** Ranks below a bound of some nodes, with all that their edges go to, go on to ranks of all. */
  lemma {:induction false} RankRest<K(!new)>(g: Graph<K>, done: map<K, nat>, top: nat) returns (rank: map<K, nat>)
    requires Acyclic(g) && done.Keys <= g.Keys && forall k <- done :: done[k] < top
    requires forall k <- done :: forall m <- g[k] :: m in g ==> m in done && done[m] < done[k]
    ensures Ranks(g, rank)
    decreases g.Keys - done.Keys
  {
    if forall k <- g :: k in done {
      rank := done;
    } else {
      var x :| x in g && x !in done;
      assert x in g.Keys - done.Keys;
      var k := FindLast(g, g.Keys - done.Keys);
      forall m | m in g[k] && m in g
        ensures m in done
      {
        assert m !in g[k] * (g.Keys - done.Keys);
      }
      rank := RankRest(g, done[k := top], top + 1);
    }
  }

  lemma RankedWhenAcyclic<K(!new)>(g: Graph<K>)
    ensures (exists rank: map<K, nat> :: Ranks(g, rank)) <==> Acyclic(g)
  {
    if Acyclic(g) {
      var rank := RankRest(g, map[], 0);
    }
    if rank: map<K, nat> :| Ranks(g, rank) {
      forall p: seq<K> | |p| > 1 && IsPath(g, p)
        ensures p[0] != p[|p| - 1]
      {
        PathGoesDown(g, rank, p);
      }
    }
  }

  lemma {:induction false} Bounded<K>(rank: map<K, nat>) returns (top: nat)
    ensures forall k <- rank :: rank[k] < top
    decreases |rank|
  {
    if rank == map[] {
      top := 0;
    } else {
      var k :| k in rank;
      var rest := rank - {k};
      assert rest.Keys == rank.Keys - {k};
      var n := Bounded(rest);
      top := if rank[k] < n then n else rank[k] + 1;
      forall m | m in rank
        ensures rank[m] < top
      {
        if m != k { assert m in rest; }
      }
    }
  }
}
