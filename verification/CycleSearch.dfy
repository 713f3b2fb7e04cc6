/** Depth-first search for a cycle: the compiler's search, which reports the
    loop it ran into, and the checker's search, which only answers yes or no. */
module CycleSearch {
  import opened Digraph

  const ON_PATH := 1
  const FINISHED := 2

  /** The search invariant: path is the way from start to the current node and
      holds exactly the unfinished nodes; done lists the finished ones, each
      after all its successors. */
  ghost predicate Inv<T(!new)>(g: map<T, seq<T>>, start: T, state: map<T, int>, path: seq<T>, done: seq<T>) {
    && Closed(g) && start in g
    && state.Keys <= g.Keys
    && (forall n :: n in state ==> state[n] == ON_PATH || state[n] == FINISHED)
    && (forall n :: n in path <==> n in state && state[n] == ON_PATH)
    && (forall n :: n in done <==> n in state && state[n] == FINISHED)
    && Distinct(path) && Distinct(done)
    && SuccessorsFirst(g, done)
    && (path != [] ==> PathFromTo(g, path, start, path[|path| - 1]))
  }

  ghost predicate MayVisit<T(!new)>(g: map<T, seq<T>>, start: T, state: map<T, int>, path: seq<T>, name: T) {
    && name in g && name !in state
    && (if path == [] then name == start else Edge(g, path[|path| - 1], name))
  }

  lemma Entered<T(!new)>(g: map<T, seq<T>>, start: T, state: map<T, int>, path: seq<T>, done: seq<T>, name: T)
    requires Inv(g, start, state, path, done) && MayVisit(g, start, state, path, name)
    ensures Inv(g, start, state[name := ON_PATH], path + [name], done)
  {
    if path != [] {
      ExtendPath(g, path, start, path[|path| - 1], name);
    }
    assert name !in path && name !in done;
  }

  lemma FinishKeepsOrder<T(!new)>(g: map<T, seq<T>>, done: seq<T>, name: T)
    requires Distinct(done) && SuccessorsFirst(g, done) && name !in done
    requires name in g && forall b :: b in g[name] ==> b in done
    ensures Distinct(done + [name]) && SuccessorsFirst(g, done + [name])
  {
    var order := done + [name];
    forall i, b | 0 <= i < |order| && Edge(g, order[i], b) ensures b in order[..i] {
      if i < |done| {
        assert Edge(g, done[i], b);
        assert order[..i] == done[..i];
      } else {
        assert order[..i] == done;
      }
    }
  }

  lemma Shorter<T>(path: seq<T>, name: T)
    requires Distinct(path + [name])
    ensures Distinct(path)
    ensures forall n :: n in path <==> n in path + [name] && n != name
  {
    var p := path + [name];
    assert forall i :: 0 <= i < |path| ==> path[i] == p[i] && p[i] != p[|path|];
    forall n | n in p && n != name ensures n in path {
      var i :| 0 <= i < |p| && p[i] == n;
      assert path[i] == n;
    }
  }

  lemma PathBefore<T(!new)>(g: map<T, seq<T>>, start: T, path: seq<T>, name: T)
    requires PathFromTo(g, path + [name], start, name) && path != []
    ensures PathFromTo(g, path, start, path[|path| - 1])
  {
    var p := path + [name];
    DropLast(g, p);
    assert p[..|p| - 1] == path;
  }

  lemma Left<T(!new)>(g: map<T, seq<T>>, start: T, state: map<T, int>, path: seq<T>, done: seq<T>, name: T)
    requires Inv(g, start, state, path + [name], done)
    requires forall b :: b in g[name] ==> b in done
    ensures Inv(g, start, state[name := FINISHED], path, done + [name])
  {
    hide PathFromTo, Distinct, SuccessorsFirst;
    var p := path + [name];
    assert p[|p| - 1] == name && name in p && name !in done;
    Shorter(path, name);
    if path != [] { PathBefore(g, start, path, name); }
    FinishKeepsOrder(g, done, name);
  }

  /** A link back to position k of the path closes a cycle. */
  lemma LinkCloses<T(!new)>(g: map<T, seq<T>>, start: T, state: map<T, int>, path: seq<T>, done: seq<T>,
                            k: nat, target: T)
    requires Inv(g, start, state, path, done)
    requires k < |path| && path[k] == target && Edge(g, path[|path| - 1], target)
    ensures CycleFrom(g, start, path[k..] + [target])
  {
    SuffixPath(g, path, k);
    ExtendPath(g, path[k..], target, path[|path| - 1], target);
    PrefixPath(g, path, k + 1);
    assert PathFromTo(g, path[..k + 1], start, target);
  }

  /** The three things a followed link can lead to. */
  lemma Followed<T(!new)>(g: map<T, seq<T>>, start: T, state: map<T, int>, path: seq<T>, done: seq<T>, child: T)
    requires Inv(g, start, state, path, done) && path != []
    requires path[|path| - 1] in g && child in g[path[|path| - 1]]
    ensures Edge(g, path[|path| - 1], child)
    ensures child !in state ==> MayVisit(g, start, state, path, child)
    ensures child in state && state[child] == ON_PATH ==> child in path
    ensures child in state && state[child] != ON_PATH ==> child in done
  {}

  class Search<T(==, !new)> {
    const g: map<T, seq<T>>
    const start: T
    var state: map<T, int>
    var path: seq<T>
    /** Nodes in the order they were finished. */
    ghost var done: seq<T>

    constructor (g: map<T, seq<T>>, start: T)
      requires Closed(g) && start in g
      ensures this.g == g && this.start == start
      ensures Valid() && state == map[] && path == [] && done == []
    {
      this.g, this.start := g, start;
      state, path, done := map[], [], [];
    }

    ghost predicate Valid()
      reads this
    {
      Inv(g, start, state, path, done)
    }

    /** Nodes not yet entered: the measure of the recursion. */
    ghost function Fresh(): set<T>
      reads this
    {
      g.Keys - state.Keys
    }

    /** Explores everything behind name; returns the first loop met, else []. */
    method Visit(name: T) returns (loop: seq<T>)
      requires Valid() && MayVisit(g, start, state, path, name)
      modifies this
      ensures loop != [] ==> CycleFrom(g, start, loop)
      ensures loop == [] ==>
        Valid() && path == old(path) && old(done) <= done && name in done && Fresh() < old(Fresh())
      decreases Fresh()
    {
      hide Inv, Edge, CycleFrom;
      Entered(g, start, state, path, done, name);
      state := state[name := ON_PATH];
      path := path + [name];
      assert name in old(Fresh()) && name !in Fresh();
      var links := g[name];
      var i := 0;
      while i < |links|
        invariant i <= |links|
        invariant Valid() && path == old(path) + [name] && old(done) <= done
        invariant Fresh() < old(Fresh())
        invariant forall j :: 0 <= j < i ==> links[j] in done
      {
        var target := links[i];
        Followed(g, start, state, path, done, target);
        if target in state && state[target] == ON_PATH {
          var k := IndexOf(path, target);
          LinkCloses(g, start, state, path, done, k, target);
          return path[k..] + [target];
        }
        if target !in state {
          loop := Visit(target);
          if loop != [] { return loop; }
        }
        i := i + 1;
      }
      Left(g, start, state, old(path), done, name);
      path := path[..|path| - 1];
      assert path == old(path);
      state := state[name := FINISHED];
      done := done + [name];
      return [];
    }
  }

  /** list.index: the first position of x. */
  method IndexOf<T(==)>(s: seq<T>, x: T) returns (k: nat)
    requires x in s
    ensures k < |s| && s[k] == x && x !in s[..k]
  {
    k := 0;
    while s[k] != x
      invariant k < |s| && x !in s[..k] && x in s[k..]
      decreases |s| - k
    {
      assert s[..k + 1] == s[..k] + [s[k]];
      assert s[k..] == [s[k]] + s[k + 1..];
      k := k + 1;
    }
  }

  /** Reports a loop exactly when the links let a reader from start go round
      one, and the reported loop is such a cycle. */
  method FindCycle<T(==, !new)>(g: map<T, seq<T>>, start: T) returns (loop: seq<T>)
    requires Closed(g) && start in g
    ensures loop != [] ==> CycleFrom(g, start, loop)
    ensures loop == [] ==> forall c: seq<T> :: !CycleFrom(g, start, c)
  {
    var s := new Search(g, start);
    loop := s.Visit(start);
    if loop == [] {
      forall c: seq<T> ensures !CycleFrom(g, start, c) {
        NoCycleInOrder(g, s.done, start, c);
      }
    }
  }

  /** The checker's search keeps only the state; the path is implicit in the recursion. */
  class Probe<T(==, !new)> {
    const g: map<T, seq<T>>
    const root: T
    var state: map<T, int>
    ghost var path: seq<T>
    ghost var done: seq<T>

    constructor (g: map<T, seq<T>>, root: T)
      requires Closed(g) && root in g
      ensures this.g == g && this.root == root
      ensures Valid() && state == map[] && path == [] && done == []
    {
      this.g, this.root := g, root;
      state, path, done := map[], [], [];
    }

    ghost predicate Valid()
      reads this
    {
      Inv(g, root, state, path, done)
    }

    ghost function Fresh(): set<T>
      reads this
    {
      g.Keys - state.Keys
    }

    method Cyclic(node: T) returns (found: bool)
      requires Valid() && MayVisit(g, root, state, path, node)
      modifies this
      ensures found ==> exists c: seq<T> :: CycleFrom(g, root, c)
      ensures !found ==>
        Valid() && path == old(path) && old(done) <= done && node in done && Fresh() < old(Fresh())
      decreases Fresh()
    {
      hide Inv, Edge, CycleFrom;
      Entered(g, root, state, path, done, node);
      state := state[node := ON_PATH];
      path := path + [node];
      assert node in old(Fresh()) && node !in Fresh();
      var children := g[node];
      var i := 0;
      while i < |children|
        invariant i <= |children|
        invariant Valid() && path == old(path) + [node] && old(done) <= done
        invariant Fresh() < old(Fresh())
        invariant forall j :: 0 <= j < i ==> children[j] in done
      {
        var child := children[i];
        Followed(g, root, state, path, done, child);
        if child in state && state[child] == ON_PATH {
          ghost var k :| 0 <= k < |path| && path[k] == child;
          LinkCloses(g, root, state, path, done, k, child);
          return true;
        }
        if child !in state {
          var deeper := Cyclic(child);
          if deeper { return true; }
        }
        i := i + 1;
      }
      Left(g, root, state, old(path), done, node);
      path := old(path);
      state := state[node := FINISHED];
      done := done + [node];
      return false;
    }
  }

  /** The checker answers yes exactly when a cycle is in reach of the root. */
  method HasCycle<T(==, !new)>(g: map<T, seq<T>>, root: T) returns (found: bool)
    requires Closed(g) && root in g
    ensures found <==> exists c: seq<T> :: CycleFrom(g, root, c)
  {
    var p := new Probe(g, root);
    found := p.Cyclic(root);
    if !found {
      forall c: seq<T> ensures !CycleFrom(g, root, c) {
        NoCycleInOrder(g, p.done, root, c);
      }
    }
  }
}
