/** Finite directed graphs given by successor lists: the link structure of a story. */
module Digraph {

  /** Every listed successor is itself a node. */
  ghost predicate Closed<T>(g: map<T, seq<T>>) {
    forall a, b :: a in g && b in g[a] ==> b in g
  }

  ghost predicate Edge<T>(g: map<T, seq<T>>, a: T, b: T) {
    a in g && b in g[a]
  }

  ghost predicate IsPath<T>(g: map<T, seq<T>>, p: seq<T>) {
    |p| > 0 && p[0] in g && forall i :: 0 < i < |p| ==> Edge(g, p[i - 1], p[i])
  }

  ghost predicate PathFromTo<T>(g: map<T, seq<T>>, p: seq<T>, s: T, t: T) {
    IsPath(g, p) && p[0] == s && p[|p| - 1] == t
  }

  ghost predicate Reachable<T(!new)>(g: map<T, seq<T>>, s: T, t: T) {
    exists p: seq<T> :: PathFromTo(g, p, s, t)
  }

  /** A closed walk along at least one edge. */
  ghost predicate IsCycle<T>(g: map<T, seq<T>>, c: seq<T>) {
    IsPath(g, c) && |c| >= 2 && c[0] == c[|c| - 1]
  }

  /** A cycle that a reader starting at s can run into. */
  ghost predicate CycleFrom<T(!new)>(g: map<T, seq<T>>, s: T, c: seq<T>) {
    IsCycle(g, c) && Reachable(g, s, c[0])
  }

  /** d is the length, in edges, of a shortest path from s to t. */
  ghost predicate IsDistance<T(!new)>(g: map<T, seq<T>>, s: T, t: T, d: nat) {
    (exists p :: PathFromTo(g, p, s, t) && |p| == d + 1) &&
    (forall p :: PathFromTo(g, p, s, t) ==> |p| >= d + 1)
  }

  lemma ExtendPath<T>(g: map<T, seq<T>>, p: seq<T>, s: T, t: T, u: T)
    requires PathFromTo(g, p, s, t) && Edge(g, t, u)
    ensures PathFromTo(g, p + [u], s, u)
  {
    var q := p + [u];
    forall i | 0 < i < |q| ensures Edge(g, q[i - 1], q[i]) {
      if i < |p| { assert Edge(g, p[i - 1], p[i]); }
    }
  }

  lemma PathStaysInGraph<T>(g: map<T, seq<T>>, p: seq<T>)
    requires Closed(g) && IsPath(g, p)
    ensures forall i :: 0 <= i < |p| ==> p[i] in g
  {
    forall i | 0 <= i < |p| ensures p[i] in g {
      if i > 0 { assert Edge(g, p[i - 1], p[i]); }
    }
  }

  lemma DropFirst<T>(g: map<T, seq<T>>, p: seq<T>)
    requires Closed(g) && IsPath(g, p) && |p| > 1
    ensures IsPath(g, p[1..])
  {
    assert Edge(g, p[0], p[1]);
    var q := p[1..];
    forall i | 0 < i < |q| ensures Edge(g, q[i - 1], q[i]) {
      assert Edge(g, p[i], p[i + 1]);
    }
  }

  lemma DropLast<T>(g: map<T, seq<T>>, p: seq<T>)
    requires IsPath(g, p) && |p| > 1
    ensures IsPath(g, p[..|p| - 1])
    ensures Edge(g, p[|p| - 2], p[|p| - 1])
  {
    var q := p[..|p| - 1];
    forall i | 0 < i < |q| ensures Edge(g, q[i - 1], q[i]) {
      assert Edge(g, p[i - 1], p[i]);
    }
    var n := |p| - 1;
    assert Edge(g, p[n - 1], p[n]);
  }

  lemma SuffixPath<T>(g: map<T, seq<T>>, p: seq<T>, k: nat)
    requires Closed(g) && IsPath(g, p) && k < |p|
    ensures IsPath(g, p[k..])
  {
    PathStaysInGraph(g, p);
    var q := p[k..];
    forall i | 0 < i < |q| ensures Edge(g, q[i - 1], q[i]) {
      var j := k + i;
      assert Edge(g, p[j - 1], p[j]);
    }
  }

  lemma PrefixPath<T>(g: map<T, seq<T>>, p: seq<T>, k: nat)
    requires IsPath(g, p) && 0 < k <= |p|
    ensures IsPath(g, p[..k])
  {
    var q := p[..k];
    forall i | 0 < i < |q| ensures Edge(g, q[i - 1], q[i]) {
      assert Edge(g, p[i - 1], p[i]);
    }
  }

  /** Nothing is listed twice. */
  ghost predicate Distinct<T>(s: seq<T>) {
    forall i, j :: 0 <= i < j < |s| ==> s[i] != s[j]
  }

  /** Every successor of an element of order comes earlier in order. */
  ghost predicate SuccessorsFirst<T(!new)>(g: map<T, seq<T>>, order: seq<T>) {
    forall i, b :: 0 <= i < |order| && Edge(g, order[i], b) ==> b in order[..i]
  }

  /** Along a path that starts inside such an order, positions strictly decrease. */
  lemma {:induction false} PathDescends<T(!new)>(g: map<T, seq<T>>, order: seq<T>, p: seq<T>, k: nat) returns (m: nat)
    requires Closed(g) && SuccessorsFirst(g, order) && IsPath(g, p)
    requires k < |order| && order[k] == p[0]
    ensures m <= k && order[m] == p[|p| - 1]
    ensures |p| > 1 ==> m < k
    decreases |p|
  {
    if |p| == 1 { return k; }
    assert Edge(g, p[0], p[1]);
    assert p[1] in order[..k];
    var j :| 0 <= j < k && order[j] == p[1];
    DropFirst(g, p);
    m := PathDescends(g, order, p[1..], j);
  }

  /** A graph ordered successors first has no cycle in reach of any listed node. */
  lemma NoCycleInOrder<T(!new)>(g: map<T, seq<T>>, order: seq<T>, s: T, c: seq<T>)
    requires Closed(g) && Distinct(order) && SuccessorsFirst(g, order) && s in order
    ensures !CycleFrom(g, s, c)
  {
    if CycleFrom(g, s, c) {
      var p :| PathFromTo(g, p, s, c[0]);
      var k :| 0 <= k < |order| && order[k] == s;
      var m := PathDescends(g, order, p, k);
      var n := PathDescends(g, order, c, m);
      assert false;
    }
  }

  /** Graphs with the same edges have the same paths. */
  lemma SameEdgesSamePath<T>(g: map<T, seq<T>>, h: map<T, seq<T>>, p: seq<T>)
    requires g.Keys == h.Keys
    requires forall a :: a in g ==> forall b :: b in g[a] <==> b in h[a]
    ensures IsPath(g, p) <==> IsPath(h, p)
  {
    assert forall a, b :: Edge(g, a, b) <==> Edge(h, a, b);
  }
}
