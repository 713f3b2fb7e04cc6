/** Why breadth-first search meets every node on a shortest path: the queue
    invariant, one lemma for each thing the search does to it. */
module BreadthFirst {
  import opened Digraph

  /** Every node met is done, being worked on or waiting, and only one of these. */
  ghost predicate Partition<T(!new)>(dist: map<T, nat>, queue: seq<T>, done: set<T>, cur: set<T>) {
    && Distinct(queue)
    && (forall n :: n in dist <==> n in done || n in cur || n in queue)
    && (forall n :: n in queue ==> n !in done && n !in cur)
    && cur !! done
  }

  /** The queue waits in order of level, of which it holds at most two. */
  ghost predicate Levels<T(!new)>(dist: map<T, nat>, queue: seq<T>, cur: set<T>, level: nat) {
    && (forall i :: 0 <= i < |queue| ==> queue[i] in dist && level <= dist[queue[i]])
    && (forall i, j :: 0 <= i < j < |queue| ==> dist[queue[i]] <= dist[queue[j]])
    && (forall n :: n in dist ==> dist[n] <= level + 1)
    && (forall n :: n in cur ==> n in dist && dist[n] == level)
  }

  /** dist holds the nodes met so far and the level they were met at. done have
      all their links followed, cur is the node being worked on (or none). */
  ghost predicate Inv<T(!new)>(g: map<T, seq<T>>, start: T, dist: map<T, nat>,
                               queue: seq<T>, done: set<T>, cur: set<T>, level: nat) {
    && Closed(g) && start in dist && dist[start] == 0 && dist.Keys <= g.Keys
    && Partition(dist, queue, done, cur)
    && Levels(dist, queue, cur, level)
    && (forall n :: n in dist ==> exists p :: PathFromTo(g, p, start, n) && |p| == dist[n] + 1)
    && (forall a, b :: a in done && Edge(g, a, b) ==> b in dist && dist[b] <= dist[a] + 1)
  }

  lemma Facts<T(!new)>(g: map<T, seq<T>>, start: T, dist: map<T, nat>, queue: seq<T>, done: set<T>,
                       cur: set<T>, level: nat)
    requires Inv(g, start, dist, queue, done, cur, level)
    ensures start in dist && dist.Keys <= g.Keys && done <= dist.Keys
    ensures forall n :: n in queue ==> n in dist && n !in done
    ensures forall n :: n in cur ==> n in dist && n !in done && dist[n] == level
  {}

  lemma Begin<T(!new)>(g: map<T, seq<T>>, start: T)
    requires Closed(g) && start in g
    ensures Inv(g, start, map[start := 0], [start], {}, {}, 0)
  {
    assert PathFromTo(g, [start], start, start);
  }

  lemma PopPartition<T(!new)>(dist: map<T, nat>, queue: seq<T>, done: set<T>)
    requires Partition(dist, queue, done, {}) && queue != []
    ensures Partition(dist, queue[1..], done, {queue[0]})
  {
    var rest := queue[1..];
    assert queue == [queue[0]] + rest;
    assert queue[0] !in rest && Distinct(rest);
  }

  lemma PopLevels<T(!new)>(dist: map<T, nat>, queue: seq<T>, level: nat)
    requires Levels(dist, queue, {}, level) && queue != []
    ensures Levels(dist, queue[1..], {queue[0]}, dist[queue[0]])
  {
    var rest := queue[1..];
    forall i | 0 <= i < |rest| ensures rest[i] in dist && dist[queue[0]] <= dist[rest[i]] {
      assert rest[i] == queue[i + 1];
    }
    forall i, j | 0 <= i < j < |rest| ensures dist[rest[i]] <= dist[rest[j]] {
      assert rest[i] == queue[i + 1] && rest[j] == queue[j + 1];
    }
  }

  lemma Pop<T(!new)>(g: map<T, seq<T>>, start: T, dist: map<T, nat>, queue: seq<T>, done: set<T>, level: nat)
    requires Inv(g, start, dist, queue, done, {}, level) && queue != []
    ensures Inv(g, start, dist, queue[1..], done, {queue[0]}, dist[queue[0]])
  {
    PopPartition(dist, queue, done);
    PopLevels(dist, queue, level);
  }

  lemma Reach<T(!new)>(g: map<T, seq<T>>, start: T, dist: map<T, nat>, queue: seq<T>, done: set<T>,
                       node: T, level: nat, child: T)
    requires Inv(g, start, dist, queue, done, {node}, level)
    requires Edge(g, node, child) && child !in dist
    ensures Inv(g, start, dist[child := level + 1], queue + [child], done, {node}, level)
  {
    var dist', queue' := dist[child := level + 1], queue + [child];
    assert child !in queue;
    var p :| PathFromTo(g, p, start, node) && |p| == dist[node] + 1;
    ExtendPath(g, p, start, node, child);
    assert PathFromTo(g, p + [child], start, child) && |p + [child]| == dist'[child] + 1;
    forall n | n in dist' ensures exists r :: PathFromTo(g, r, start, n) && |r| == dist'[n] + 1 {
      if n != child {
        var r :| PathFromTo(g, r, start, n) && |r| == dist[n] + 1;
      }
    }
    forall i | 0 <= i < |queue'|
      ensures queue'[i] in dist' && level <= dist'[queue'[i]] <= level + 1
      ensures i < |queue| ==> queue'[i] == queue[i] && dist'[queue'[i]] == dist[queue[i]]
    {
      if i < |queue| { assert queue'[i] in queue; }
    }
  }

  lemma Close<T(!new)>(g: map<T, seq<T>>, start: T, dist: map<T, nat>, queue: seq<T>, done: set<T>,
                       node: T, level: nat)
    requires Inv(g, start, dist, queue, done, {node}, level)
    requires forall b :: Edge(g, node, b) ==> b in dist
    ensures Inv(g, start, dist, queue, done + {node}, {}, level)
  {}

  /** With the queue empty, no path leaves the nodes met, nor beats their levels. */
  lemma {:induction false} PathBounds<T(!new)>(g: map<T, seq<T>>, start: T, dist: map<T, nat>, done: set<T>,
                                               level: nat, p: seq<T>)
    requires Inv(g, start, dist, [], done, {}, level)
    requires IsPath(g, p) && p[0] == start
    ensures p[|p| - 1] in dist && dist[p[|p| - 1]] + 1 <= |p|
    decreases |p|
  {
    if |p| > 1 {
      DropLast(g, p);
      PathBounds(g, start, dist, done, level, p[..|p| - 1]);
    }
  }

  /** The search ends knowing exactly what is reachable, and how far away it is. */
  lemma Finish<T(!new)>(g: map<T, seq<T>>, start: T, dist: map<T, nat>, done: set<T>, level: nat)
    requires Inv(g, start, dist, [], done, {}, level)
    ensures forall n :: n in dist <==> Reachable(g, start, n)
    ensures forall n :: n in dist ==> IsDistance(g, start, n, dist[n])
  {
    forall n, p | PathFromTo(g, p, start, n) ensures n in dist && dist[n] + 1 <= |p| {
      PathBounds(g, start, dist, done, level, p);
    }
  }
}
