/** parse_book: from passages, their links already tokenised, to a compiled book. */
module TreewalkCompiler {
  import opened Options
  import opened Digraph
  import opened Treewalk
  import BreadthFirst
  import CycleSearch

  /** What the JSON of a StoryData passage says about the start passage. */
  datatype StartKey = NotJson | NoKey | Key(name: Name)

  datatype Passage =
    | StoryTitle(stripped: Name)
    | StoryData(start: StartKey)
    | Skipped
    | Story(name: Name, body: string, links: seq<Choice>)

  datatype TweeError =
    | BadStoryData
    | NoName
    | DefinedTwice(name: Name)
    | NoPassages
    | NoStart(name: Name)
    | TooManyChoices(name: Name)
    | DeadLink(name: Name, target: Name)
    | SameId(first: Name, second: Name)
    | Cyclic(loop: seq<Name>)
    | Unreachable(names: seq<Name>)

  datatype Result = Ok(book: Book) | Err(error: TweeError)

  const START: Name := [83, 116, 97, 114, 116]

  // ── What the passages say ──

  /** The story passages in document order, without IDs or parents. */
  function StoryNodes(ps: seq<Passage>): seq<Node> {
    if ps == [] then []
    else
      var k := |ps| - 1;
      var ns := StoryNodes(ps[..k]);
      match ps[k]
      case Story(name, body, links) => ns + [Node(name, 0, None, body, links)]
      case _ => ns
  }

  function FinalTitle(ps: seq<Passage>, defaultName: Name): Name {
    if ps == [] then defaultName
    else
      var k := |ps| - 1;
      match ps[k]
      case StoryTitle(s) => if s == [] then defaultName else s
      case _ => FinalTitle(ps[..k], defaultName)
  }

  function FinalStart(ps: seq<Passage>): Name {
    if ps == [] then START
    else
      var k := |ps| - 1;
      match ps[k]
      case StoryData(Key(name)) => name
      case _ => FinalStart(ps[..k])
  }

  /** The last title counts; an empty one gives the default back. */
  lemma {:induction false} TitleIs(ps: seq<Passage>, defaultName: Name)
    ensures (forall i :: 0 <= i < |ps| ==> !ps[i].StoryTitle?) ==> FinalTitle(ps, defaultName) == defaultName
    ensures forall i :: 0 <= i < |ps| && ps[i].StoryTitle? && (forall j :: i < j < |ps| ==> !ps[j].StoryTitle?) ==>
      FinalTitle(ps, defaultName) == if ps[i].stripped == [] then defaultName else ps[i].stripped
  {
    if ps != [] && !ps[|ps| - 1].StoryTitle? {
      TitleIs(ps[..|ps| - 1], defaultName);
      assert forall i :: 0 <= i < |ps| - 1 ==> ps[..|ps| - 1][i] == ps[i];
    }
  }

  predicate NamesStart(p: Passage) {
    p.StoryData? && p.start.Key?
  }

  /** The last start passage that is named counts. */
  lemma {:induction false} StartIs(ps: seq<Passage>)
    ensures (forall i :: 0 <= i < |ps| ==> !NamesStart(ps[i])) ==> FinalStart(ps) == START
    ensures forall i :: 0 <= i < |ps| && NamesStart(ps[i]) && (forall j :: i < j < |ps| ==> !NamesStart(ps[j])) ==>
      FinalStart(ps) == ps[i].start.name
  {
    if ps != [] && !NamesStart(ps[|ps| - 1]) {
      StartIs(ps[..|ps| - 1]);
      assert forall i :: 0 <= i < |ps| - 1 ==> ps[..|ps| - 1][i] == ps[i];
    }
  }

  ghost predicate Readable(ps: seq<Passage>) {
    && (forall i :: 0 <= i < |ps| ==> ps[i] != StoryData(NotJson))
    && DistinctNames(StoryNodes(ps))
    && (forall i :: 0 <= i < |StoryNodes(ps)| ==> StoryNodes(ps)[i].name != [])
  }

  /** The books the badge can read. */
  ghost predicate Compilable(ps: seq<Passage>) {
    && Readable(ps)
    && var nodes := ByName(StoryNodes(ps)); var start := FinalStart(ps);
       && start in nodes && FewLinks(nodes) && LinksResolve(nodes) && DistinctIds(nodes.Keys)
       && NoCycle(LinkGraph(nodes), start) && AllReachable(LinkGraph(nodes), start)
  }

  /** What each rejection claims about the source. */
  ghost predicate Justified(e: TweeError, ps: seq<Passage>) {
    var ns := StoryNodes(ps); var nodes := ByName(ns); var start := FinalStart(ps);
    match e
    case BadStoryData => StoryData(NotJson) in ps
    case NoName => exists i :: 0 <= i < |ns| && ns[i].name == []
    case DefinedTwice(name) => exists i, j :: 0 <= i < j < |ns| && ns[i].name == ns[j].name == name
    case NoPassages => ns == []
    case NoStart(name) => name == start && start !in nodes
    case TooManyChoices(name) => name in nodes && |nodes[name].links| > MAX_CHOICES
    case DeadLink(name, target) => name in nodes && target in Targets(nodes[name].links) && target !in nodes
    case SameId(a, b) => a in nodes && b in nodes && a != b && StableId(a) == StableId(b)
    case Cyclic(loop) => CycleFrom(LinkGraph(nodes), start, loop)
    case Unreachable(names) =>
      names != [] && forall n :: n in names <==> n in nodes && !Reachable(LinkGraph(nodes), start, n)
  }

  /** A node without what the compiler adds to it. */
  function Plain(n: Node): Node {
    n.(nodeId := 0, parentId := None)
  }

  ghost predicate SameText(a: map<Name, Node>, b: map<Name, Node>) {
    a.Keys == b.Keys && forall n :: n in a ==> Plain(a[n]) == Plain(b[n])
  }

  lemma SameTextSameGraph(a: map<Name, Node>, b: map<Name, Node>)
    requires SameText(a, b)
    ensures LinkGraph(a) == LinkGraph(b)
    ensures FewLinks(a) == FewLinks(b) && LinksResolve(a) == LinksResolve(b)
  {
    assert forall n :: n in a ==> Plain(a[n]).links == a[n].links && Plain(b[n]).links == b[n].links;
  }

  function Pick(order: seq<Name>, nodes: map<Name, Node>): (ns: seq<Node>)
    requires forall n :: n in order ==> n in nodes
    ensures |ns| == |order|
    ensures forall i :: 0 <= i < |ns| ==> ns[i] == nodes[order[i]]
  {
    seq(|order|, i requires 0 <= i < |order| => nodes[order[i]])
  }

  /** All names but the start, in document order. */
  function Others(order: seq<Name>, start: Name): seq<Name> {
    if order == [] then []
    else
      var k := |order| - 1;
      Others(order[..k], start) + (if order[k] == start then [] else [order[k]])
  }

  function Names(ns: seq<Node>): (s: seq<Name>)
    ensures |s| == |ns| && forall i :: 0 <= i < |s| ==> s[i] == ns[i].name
  {
    seq(|ns|, i requires 0 <= i < |ns| => ns[i].name)
  }

  // ── The dictionary, kept with its insertion order ──

  ghost predicate Ordered(order: seq<Name>, nodes: map<Name, Node>) {
    && Distinct(order)
    && (forall n :: n in order <==> n in nodes)
    && (forall n :: n in nodes ==> nodes[n].name == n)
  }

  /** The dictionary holds exactly these story passages. */
  ghost predicate Holds(order: seq<Name>, nodes: map<Name, Node>, ns: seq<Node>) {
    Ordered(order, nodes) && order == Names(ns) && SameText(nodes, ByName(ns))
  }

  lemma OrderedOneMore(order: seq<Name>, nodes: map<Name, Node>, node: Node)
    requires Ordered(order, nodes) && node.name !in nodes
    ensures Ordered(order + [node.name], nodes[node.name := node])
  {}

  lemma HoldsOneMore(order: seq<Name>, nodes: map<Name, Node>, ns: seq<Node>, node: Node)
    requires Holds(order, nodes, ns)
    requires node.name !in nodes
    ensures Holds(order + [node.name], nodes[node.name := node], ns + [node])
  {
    hide Ordered;
    OrderedOneMore(order, nodes, node);
    assert (ns + [node])[..|ns|] == ns;
    assert Names(ns + [node]) == Names(ns) + [node.name];
  }

  lemma OrderedUpdate(order: seq<Name>, nodes: map<Name, Node>, name: Name, node: Node)
    requires Ordered(order, nodes) && name in nodes && Plain(node) == Plain(nodes[name])
    ensures Ordered(order, nodes[name := node]) && SameText(nodes, nodes[name := node])
  {
    assert Plain(node).name == node.name && Plain(nodes[name]).name == name;
  }

  lemma OrderedAt(order: seq<Name>, nodes: map<Name, Node>, i: nat)
    requires Ordered(order, nodes) && i < |order|
    ensures order[i] in nodes && nodes[order[i]].name == order[i] && order[i] !in order[..i]
  {
    assert order[i] in order;
  }

  lemma OrderedMember(order: seq<Name>, nodes: map<Name, Node>, i: nat, n: Name)
    requires Ordered(order, nodes) && i <= |order| && n in order[..i]
    ensures n in nodes
  {
    assert n in order;
  }

  lemma OrderedAll(order: seq<Name>, nodes: map<Name, Node>)
    requires Ordered(order, nodes)
    ensures forall n :: n in order <==> n in nodes
    ensures forall n :: n in nodes ==> nodes[n].name == n
  {}

  lemma SameTextRefl(a: map<Name, Node>)
    ensures SameText(a, a)
  {}

  lemma SameTextJoin(a: map<Name, Node>, b: map<Name, Node>, c: map<Name, Node>)
    requires SameText(a, b) && SameText(a, c)
    ensures SameText(b, c) && b.Keys == a.Keys
  {}

  lemma SameTextTrans(a: map<Name, Node>, b: map<Name, Node>, c: map<Name, Node>)
    requires SameText(a, b) && SameText(b, c)
    ensures SameText(a, c)
  {}

  lemma {:induction false} StoryNodesPrefix(ps: seq<Passage>, k: nat)
    requires k <= |ps|
    ensures StoryNodes(ps[..k]) <= StoryNodes(ps)
  {
    if k < |ps| {
      StoryNodesPrefix(ps[..|ps| - 1], k);
      assert ps[..|ps| - 1][..k] == ps[..k];
    } else {
      assert ps[..k] == ps;
    }
  }

  /** The last passage of a list decides, given what the ones before it said. */
  lemma LastPassage(ps: seq<Passage>, k: nat)
    requires k < |ps|
    ensures ps[..k + 1][..k] == ps[..k] && ps[..k + 1][k] == ps[k]
    ensures StoryNodes(ps[..k + 1]) ==
      StoryNodes(ps[..k]) + (if ps[k].Story? then [Node(ps[k].name, 0, None, ps[k].body, ps[k].links)] else [])
  {
    assert ps[..k + 1][..k] == ps[..k];
  }

  lemma ReadableStep(ps: seq<Passage>, k: nat)
    requires k < |ps| && Readable(ps[..k]) && ps[k] != StoryData(NotJson)
    requires ps[k].Story? ==> ps[k].name != []
    requires ps[k].Story? ==>
      forall i :: 0 <= i < |StoryNodes(ps[..k])| ==> StoryNodes(ps[..k])[i].name != ps[k].name
    ensures Readable(ps[..k + 1])
  {
    LastPassage(ps, k);
    assert forall i :: 0 <= i < k ==> ps[..k + 1][i] == ps[..k][i];
  }

  lemma NotReadable(ps: seq<Passage>, k: nat)
    requires k < |ps|
    requires ps[k] == StoryData(NotJson) || (ps[k].Story? &&
      (ps[k].name == [] || exists i :: 0 <= i < |StoryNodes(ps[..k])| && StoryNodes(ps[..k])[i].name == ps[k].name))
    ensures !Readable(ps)
    ensures ps[k] == StoryData(NotJson) ==> Justified(BadStoryData, ps)
    ensures ps[k].Story? && ps[k].name == [] ==> Justified(NoName, ps)
    ensures ps[k].Story? && ps[k].name != [] ==> Justified(DefinedTwice(ps[k].name), ps)
  {
    if ps[k].Story? {
      LastPassage(ps, k);
      StoryNodesPrefix(ps, k + 1);
      var a, b := StoryNodes(ps[..k + 1]), StoryNodes(ps);
      var m := |StoryNodes(ps[..k])|;
      assert a[m].name == ps[k].name && a[m] == b[m];
      if ps[k].name != [] {
        var i :| 0 <= i < m && StoryNodes(ps[..k])[i].name == ps[k].name;
        assert a[i] == b[i];
      }
    }
  }

  lemma EmptyBook()
    ensures Readable([]) && Holds([], map[], StoryNodes([]))
  {}

  lemma HeldNames(order: seq<Name>, nodes: map<Name, Node>, ns: seq<Node>, name: Name)
    requires Holds(order, nodes, ns)
    ensures name in nodes <==> exists i :: 0 <= i < |ns| && ns[i].name == name
  {}

  // ── Parents ──

  /** Every passage met so far, but the start, has the ID of a passage one level up. */
  ghost predicate ParentsUpTo(g: map<Name, seq<Name>>, nodes: map<Name, Node>, start: Name, dist: map<Name, nat>) {
    && dist.Keys <= nodes.Keys
    && start in nodes && nodes[start].parentId == None
    && forall n :: n in dist && n != start ==> exists p :: ParentIn(g, nodes, dist, n, p)
  }

  ghost predicate ParentIn(g: map<Name, seq<Name>>, nodes: map<Name, Node>, dist: map<Name, nat>, n: Name, p: Name) {
    && n in dist && p in dist && dist.Keys <= nodes.Keys
    && nodes[n].parentId == Some(nodes[p].nodeId) && Edge(g, p, n) && dist[n] == dist[p] + 1
  }

  lemma ParentSet(g: map<Name, seq<Name>>, nodes: map<Name, Node>, start: Name, dist: map<Name, nat>, node: Name,
    child: Name)
    requires ParentsUpTo(g, nodes, start, dist) && start in dist
    requires node in dist && child in nodes && child !in dist && Edge(g, node, child)
    ensures ParentsUpTo(g, nodes[child := nodes[child].(parentId := Some(nodes[node].nodeId))], start,
      dist[child := dist[node] + 1])
  {
    hide Edge;
    var nodes' := nodes[child := nodes[child].(parentId := Some(nodes[node].nodeId))];
    var dist' := dist[child := dist[node] + 1];
    assert ParentIn(g, nodes', dist', child, node);
    hide ParentIn;
    forall n | n in dist' && n != start ensures exists p :: ParentIn(g, nodes', dist', n, p) {
      if n != child {
        var p :| ParentIn(g, nodes, dist, n, p);
        ParentStays(g, nodes, dist, n, p, child, nodes[child].(parentId := Some(nodes[node].nodeId)), dist[node] + 1);
      }
    }
  }

  lemma ParentStays(g: map<Name, seq<Name>>, nodes: map<Name, Node>, dist: map<Name, nat>, n: Name, p: Name,
                    child: Name, met: Node, level: nat)
    requires ParentIn(g, nodes, dist, n, p) && child in nodes && child !in dist && met.nodeId == nodes[child].nodeId
    ensures ParentIn(g, nodes[child := met], dist[child := level], n, p)
  {}

  lemma ParentsDone(g: map<Name, seq<Name>>, nodes: map<Name, Node>, start: Name, dist: map<Name, nat>)
    requires g == LinkGraph(nodes) && ParentsUpTo(g, nodes, start, dist) && dist.Keys == nodes.Keys
    requires forall n :: n in dist ==> IsDistance(g, start, n, dist[n])
    ensures ParentsAssigned(nodes, start)
  {
    forall n | n in nodes && n != start ensures exists p :: NearerParent(nodes, start, n, p) {
      var p :| ParentIn(g, nodes, dist, n, p);
      assert IsDistance(g, start, p, dist[p]) && IsDistance(g, start, n, dist[p] + 1);
      assert NearerParent(nodes, start, n, p);
    }
  }

  lemma AllMet(g: map<Name, seq<Name>>, start: Name, dist: map<Name, nat>, missing: seq<Name>)
    requires forall n :: n in dist <==> Reachable(g, start, n)
    requires forall n :: n in missing <==> n in g && n !in dist
    requires dist.Keys <= g.Keys
    ensures missing == [] <==> AllReachable(g, start)
    ensures missing == [] ==> dist.Keys == g.Keys
  {
    if missing != [] { assert missing[0] in missing; }
  }

  /** The dictionary after the IDs: what the parent search works on. */
  ghost predicate Graphed(g: map<Name, seq<Name>>, order: seq<Name>, nodes: map<Name, Node>) {
    && Ordered(order, nodes) && LinksResolve(nodes) && g == LinkGraph(nodes)
    && forall n :: n in nodes ==> nodes[n].nodeId == StableId(n)
  }

  lemma GraphedUpdate(g: map<Name, seq<Name>>, order: seq<Name>, nodes: map<Name, Node>, n: Name, parent: Option<nat>)
    requires Graphed(g, order, nodes) && n in nodes
    ensures Graphed(g, order, nodes[n := nodes[n].(parentId := parent)])
    ensures SameText(nodes, nodes[n := nodes[n].(parentId := parent)])
  {
    hide StableId;
    var nodes' := nodes[n := nodes[n].(parentId := parent)];
    OrderedUpdate(order, nodes, n, nodes'[n]);
    SameTextSameGraph(nodes, nodes');
  }

  lemma GraphedKeys(g: map<Name, seq<Name>>, order: seq<Name>, nodes: map<Name, Node>)
    requires Graphed(g, order, nodes)
    ensures g.Keys == nodes.Keys && Closed(g) && g == LinkGraph(nodes)
    ensures forall n :: n in order <==> n in nodes
  {
    hide StableId;
    LinkGraphClosed(nodes);
  }

  lemma FirstMet(g: map<Name, seq<Name>>, order: seq<Name>, nodes: map<Name, Node>, start: Name)
    requires Graphed(g, order, nodes) && start in nodes && nodes[start].parentId == None
    ensures BreadthFirst.Inv(g, start, map[start := 0], [start], {}, {}, 0)
    ensures ParentsUpTo(g, nodes, start, map[start := 0])
  {
    GraphedKeys(g, order, nodes);
    BreadthFirst.Begin(g, start);
  }

  lemma GraphedLink(g: map<Name, seq<Name>>, order: seq<Name>, nodes: map<Name, Node>, n: Name, i: nat)
    requires Graphed(g, order, nodes) && n in nodes && i < |nodes[n].links|
    ensures nodes[n].links[i].target in nodes && nodes[nodes[n].links[i].target].name == nodes[n].links[i].target
    ensures Edge(g, n, nodes[n].links[i].target)
  {
    assert g[n][i] == nodes[n].links[i].target;
  }

  lemma GraphedFollowed(g: map<Name, seq<Name>>, order: seq<Name>, nodes: map<Name, Node>, n: Name, reached: set<Name>)
    requires Graphed(g, order, nodes) && n in nodes
    requires forall i :: 0 <= i < |nodes[n].links| ==> nodes[n].links[i].target in reached
    ensures forall b :: Edge(g, n, b) ==> b in reached
  {
    forall b | Edge(g, n, b) ensures b in reached {
      var i :| 0 <= i < |g[n]| && g[n][i] == b;
    }
  }

  /** Meeting a new child keeps everything the search relies on. */
  lemma MeetChild(g: map<Name, seq<Name>>, order: seq<Name>, nodes0: map<Name, Node>, nodes: map<Name, Node>,
                  start: Name, dist: map<Name, nat>, queue: seq<Name>, done: set<Name>, name: Name, level: nat,
                  child: Name)
    requires Graphed(g, order, nodes) && SameText(nodes0, nodes) && ParentsUpTo(g, nodes, start, dist)
    requires BreadthFirst.Inv(g, start, dist, queue, done, {name}, level)
    requires name in nodes && child in nodes && child !in dist && Edge(g, name, child)
    ensures var nodes' := nodes[child := nodes[child].(parentId := Some(nodes[name].nodeId))];
      && Graphed(g, order, nodes') && SameText(nodes0, nodes') && nodes'[name].links == nodes[name].links
      && ParentsUpTo(g, nodes', start, dist[child := level + 1])
      && BreadthFirst.Inv(g, start, dist[child := level + 1], queue + [child], done, {name}, level)
  {
    hide StableId, Graphed, SameText, BreadthFirst.Inv, ParentsUpTo, Edge;
    var nodes' := nodes[child := nodes[child].(parentId := Some(nodes[name].nodeId))];
    BreadthFirst.Facts(g, start, dist, queue, done, {name}, level);
    BreadthFirst.Reach(g, start, dist, queue, done, name, level, child);
    ParentSet(g, nodes, start, dist, name, child);
    GraphedUpdate(g, order, nodes, child, Some(nodes[name].nodeId));
    SameTextTrans(nodes0, nodes, nodes');
  }

  // ── The compiler's state ──

  class Compiler {
    var title: Name
    var startName: Name
    var order: seq<Name>
    var nodes: map<Name, Node>

    constructor (defaultName: Name)
      ensures title == defaultName && startName == START && order == [] && nodes == map[]
    {
      title, startName, order, nodes := defaultName, START, [], map[];
    }

    /** Reads the passages into the dictionary. */
    method Collect(ps: seq<Passage>) returns (error: Option<TweeError>)
      requires order == [] && nodes == map[] && startName == START
      modifies this
      ensures error == None <==> Readable(ps)
      ensures error.Some? ==> Justified(error.value, ps)
      ensures error == None ==> Holds(order, nodes, StoryNodes(ps))
      ensures error == None ==> title == FinalTitle(ps, old(title)) && startName == FinalStart(ps)
    {
      hide Readable, Holds, DistinctNames, Justified;
      var defaultName := title;
      var i := 0;
      EmptyBook();
      assert ps[..0] == [];
      while i < |ps|
        invariant i <= |ps| && Readable(ps[..i]) && Holds(order, nodes, StoryNodes(ps[..i]))
        invariant title == FinalTitle(ps[..i], defaultName) && startName == FinalStart(ps[..i])
      {
        LastPassage(ps, i);
        match ps[i] {
          case StoryTitle(stripped) =>
            title := if stripped == [] then defaultName else stripped;
          case StoryData(NotJson) =>
            NotReadable(ps, i);
            return Some(BadStoryData);
          case StoryData(NoKey) =>
          case StoryData(Key(name)) =>
            startName := name;
          case Skipped =>
          case Story(name, body, links) =>
            HeldNames(order, nodes, StoryNodes(ps[..i]), name);
            if name == [] {
              NotReadable(ps, i);
              return Some(NoName);
            }
            if name in nodes {
              NotReadable(ps, i);
              return Some(DefinedTwice(name));
            }
            HoldsOneMore(order, nodes, StoryNodes(ps[..i]), Node(name, 0, None, body, links));
            order := order + [name];
            nodes := nodes[name := Node(name, 0, None, body, links)];
        }
        ReadableStep(ps, i);
        i := i + 1;
      }
      assert ps[..i] == ps;
      return None;
    }

    /** At most three links a passage, each to a passage that exists. */
    method CheckLinks() returns (error: Option<TweeError>)
      requires Ordered(order, nodes)
      ensures error == None <==> FewLinks(nodes) && LinksResolve(nodes)
      ensures error.Some? ==> match error.value
        case TooManyChoices(name) => name in nodes && |nodes[name].links| > MAX_CHOICES
        case DeadLink(name, target) => name in nodes && target in Targets(nodes[name].links) && target !in nodes
        case _ => false
    {
      var i := 0;
      while i < |order|
        invariant i <= |order|
        invariant forall k :: 0 <= k < i ==> |nodes[order[k]].links| <= MAX_CHOICES
        invariant forall k, j :: 0 <= k < i && 0 <= j < |nodes[order[k]].links| ==>
          nodes[order[k]].links[j].target in nodes
      {
        assert order[i] in nodes;
        var node := nodes[order[i]];
        if |node.links| > MAX_CHOICES { return Some(TooManyChoices(node.name)); }
        var j := 0;
        while j < |node.links|
          invariant j <= |node.links|
          invariant forall k :: 0 <= k < j ==> node.links[k].target in nodes
        {
          if node.links[j].target !in nodes {
            assert Targets(node.links)[j] == node.links[j].target;
            return Some(DeadLink(node.name, node.links[j].target));
          }
          j := j + 1;
        }
        i := i + 1;
      }
      forall n | n in nodes ensures exists k :: 0 <= k < |order| && order[k] == n {
        assert n in order;
      }
      return None;
    }

    /** Gives every passage the hash of its name, unless two names collide. */
    method AssignIds() returns (error: Option<TweeError>)
      requires Ordered(order, nodes)
      modifies this`nodes
      ensures error == None <==> DistinctIds(nodes.Keys)
      ensures error.Some? ==>
        && error.value.SameId?
        && error.value.first in nodes && error.value.second in nodes && error.value.first != error.value.second
        && StableId(error.value.first) == StableId(error.value.second)
      ensures Ordered(order, nodes) && SameText(old(nodes), nodes)
      ensures error == None ==> forall n :: n in nodes ==> nodes[n].nodeId == StableId(n)
    {
      hide StableId, Ordered, SameText;
      var seen: map<nat, Name> := map[];
      var i := 0;
      SameTextRefl(nodes);
      while i < |order|
        invariant i <= |order| && Ordered(order, nodes) && SameText(old(nodes), nodes)
        invariant nodes.Keys == old(nodes).Keys
        invariant forall n :: n in order[..i] ==> n in nodes && nodes[n].nodeId == StableId(n)
        invariant forall n :: n in order[..i] ==> StableId(n) in seen && seen[StableId(n)] == n
        invariant forall id :: id in seen ==> seen[id] in order[..i] && StableId(seen[id]) == id
      {
        var name := order[i];
        OrderedAt(order, nodes, i);
        var id := StableId(nodes[name].name);
        OrderedUpdate(order, nodes, name, nodes[name].(nodeId := id));
        SameTextTrans(old(nodes), nodes, nodes[name := nodes[name].(nodeId := id)]);
        nodes := nodes[name := nodes[name].(nodeId := id)];
        if id in seen {
          OrderedMember(order, nodes, i, seen[id]);
          return Some(SameId(seen[id], name));
        }
        seen := seen[id := name];
        assert order[..i + 1] == order[..i] + [name];
        i := i + 1;
      }
      assert order[..i] == order;
      OrderedAll(order, nodes);
      return None;
    }

    /** Every passage this one links to is met, and the new ones queued. */
    method MeetChildren(ghost g: map<Name, seq<Name>>, ghost nodes0: map<Name, Node>, name: Name, reached0: set<Name>,
                        queue0: seq<Name>, ghost dist0: map<Name, nat>, ghost done: set<Name>, ghost level: nat)
      returns (reached: set<Name>, queue: seq<Name>, ghost dist: map<Name, nat>)
      requires Graphed(g, order, nodes) && SameText(nodes0, nodes) && name in nodes
      requires BreadthFirst.Inv(g, startName, dist0, queue0, done, {name}, level)
      requires ParentsUpTo(g, nodes, startName, dist0) && reached0 == dist0.Keys
      modifies this`nodes
      ensures Graphed(g, order, nodes) && SameText(nodes0, nodes) && nodes.Keys == old(nodes).Keys
      ensures BreadthFirst.Inv(g, startName, dist, queue, done, {name}, level)
      ensures ParentsUpTo(g, nodes, startName, dist) && reached == dist.Keys
      ensures forall b :: Edge(g, name, b) ==> b in reached
    {
      hide StableId, Graphed, SameText, BreadthFirst.Inv, ParentsUpTo, Edge, IsDistance, Reachable, LinkGraph;
      reached, queue, dist := reached0, queue0, dist0;
      var links := nodes[name].links;
      var i := 0;
      while i < |links|
        invariant i <= |links| && name in nodes && links == nodes[name].links
        invariant Graphed(g, order, nodes) && SameText(nodes0, nodes) && nodes.Keys == old(nodes).Keys
        invariant BreadthFirst.Inv(g, startName, dist, queue, done, {name}, level)
        invariant ParentsUpTo(g, nodes, startName, dist) && reached == dist.Keys
        invariant forall k :: 0 <= k < i ==> links[k].target in reached
      {
        GraphedLink(g, order, nodes, name, i);
        var child := nodes[links[i].target].name;
        if child !in reached {
          reached := reached + {child};
          MeetChild(g, order, nodes0, nodes, startName, dist, queue, done, name, level, child);
          nodes := nodes[child := nodes[child].(parentId := Some(nodes[name].nodeId))];
          queue := queue + [child];
          dist := dist[child := level + 1];
        }
        i := i + 1;
      }
      GraphedFollowed(g, order, nodes, name, reached);
    }

    /** Walks breadth-first from the start; returns the passages it never met. */
    method AssignParents(ghost g: map<Name, seq<Name>>) returns (missing: seq<Name>)
      requires Graphed(g, order, nodes) && startName in nodes
      modifies this`nodes
      ensures Graphed(g, order, nodes) && SameText(old(nodes), nodes) && nodes.Keys == old(nodes).Keys
      ensures forall n :: n in missing <==> n in nodes && !Reachable(g, startName, n)
      ensures missing == [] <==> AllReachable(g, startName)
      ensures missing == [] ==> ParentsAssigned(nodes, startName)
    {
      hide StableId, Graphed, SameText, BreadthFirst.Inv, ParentsUpTo, Edge, IsDistance, Reachable, LinkGraph,
        ParentsAssigned;
      hide AllReachable;
      GraphedUpdate(g, order, nodes, startName, None);
      nodes := nodes[startName := nodes[startName].(parentId := None)];
      var reached := {startName};
      var queue := [startName];
      ghost var dist: map<Name, nat>, done: set<Name>, level := map[startName := 0], {}, 0;
      FirstMet(g, order, nodes, startName);
      while queue != []
        invariant Graphed(g, order, nodes) && SameText(old(nodes), nodes) && nodes.Keys == old(nodes).Keys
        invariant BreadthFirst.Inv(g, startName, dist, queue, done, {}, level)
        invariant ParentsUpTo(g, nodes, startName, dist)
        invariant reached == dist.Keys
        decreases g.Keys - done
      {
        var name := queue[0];
        GraphedKeys(g, order, nodes);
        BreadthFirst.Facts(g, startName, dist, queue, done, {}, level);
        BreadthFirst.Pop(g, startName, dist, queue, done, level);
        queue := queue[1..];
        level := dist[name];
        reached, queue, dist := MeetChildren(g, old(nodes), name, reached, queue, dist, done, level);
        BreadthFirst.Facts(g, startName, dist, queue, done, {name}, level);
        BreadthFirst.Close(g, startName, dist, queue, done, name, level);
        done := done + {name};
      }
      BreadthFirst.Finish(g, startName, dist, done, level);
      BreadthFirst.Facts(g, startName, dist, queue, done, {}, level);
      GraphedKeys(g, order, nodes);
      missing := NotIn(order, reached);
      AllMet(g, startName, dist, missing);
      if missing == [] {
        ParentsDone(g, nodes, startName, dist);
      }
    }
  }

  /** [n for n in order if n not in reached] */
  method NotIn(order: seq<Name>, reached: set<Name>) returns (missing: seq<Name>)
    ensures forall n :: n in missing <==> n in order && n !in reached
  {
    missing := [];
    var i := 0;
    while i < |order|
      invariant i <= |order|
      invariant forall n :: n in missing <==> n in order[..i] && n !in reached
    {
      if order[i] !in reached { missing := missing + [order[i]]; }
      assert order[..i + 1] == order[..i] + [order[i]];
      i := i + 1;
    }
    assert order[..i] == order;
  }

  // ── parse_book ──

  /** The start first, then document order. */
  method ListNodes(order: seq<Name>, nodes: map<Name, Node>, start: Name) returns (ns: seq<Node>)
    requires Ordered(order, nodes) && start in nodes
    ensures forall n :: n in Others(order, start) ==> n in nodes
    ensures ns == [nodes[start]] + Pick(Others(order, start), nodes)
  {
    ns := [nodes[start]];
    var i := 0;
    while i < |order|
      invariant i <= |order| && forall n :: n in Others(order[..i], start) ==> n in nodes
      invariant ns == [nodes[start]] + Pick(Others(order[..i], start), nodes)
    {
      assert order[..i + 1][..i] == order[..i];
      assert order[i] in nodes;
      if order[i] != start { ns := ns + [nodes[order[i]]]; }
      i := i + 1;
    }
    assert order[..i] == order;
  }

  lemma {:induction false} OthersAre(order: seq<Name>, start: Name)
    requires Distinct(order)
    ensures Distinct(Others(order, start))
    ensures forall n :: n in Others(order, start) <==> n in order && n != start
  {
    if order != [] {
      var k := |order| - 1;
      assert order[k] !in order[..k];
      OthersAre(order[..k], start);
      assert order == order[..k] + [order[k]];
    }
  }

  /** The start and the others are all the names there are. */
  lemma NamesCovered(ns: seq<Node>, start: Name)
    requires DistinctNames(ns) && start in ByName(ns)
    ensures forall n :: n in [start] + Others(Names(ns), start) <==> exists j :: 0 <= j < |ns| && ns[j].name == n
  {
    hide Others, ByName;
    OthersAre(Names(ns), start);
    var i :| 0 <= i < |ns| && ns[i].name == start;
    forall n ensures n in Names(ns) <==> exists j :: 0 <= j < |ns| && ns[j].name == n {
      if j :| 0 <= j < |ns| && ns[j].name == n { assert Names(ns)[j] == n; }
    }
  }

  lemma PlainParts(a: Node, b: Node)
    requires Plain(a) == Plain(b)
    ensures a.name == b.name && a.body == b.body && a.links == b.links
  {
    assert Plain(a).body == a.body && Plain(b).body == b.body && Plain(a).links == a.links && Plain(b).links == b.links;
    assert Plain(a).name == a.name && Plain(b).name == b.name;
  }

  lemma StartFirst(start: Name, others: seq<Name>)
    requires Distinct(others) && start !in others
    ensures Distinct([start] + others)
  {}

  lemma ListedNames(order: seq<Name>, nodes: map<Name, Node>, start: Name, ns: seq<Node>)
    requires Ordered(order, nodes) && start in nodes
    requires (forall n :: n in Others(order, start) ==> n in nodes)
      && ns == [nodes[start]] + Pick(Others(order, start), nodes)
    ensures DistinctNames(ns) && ns[0].name == start
    ensures forall i :: 0 <= i < |ns| ==> ns[i].name in nodes && ns[i] == nodes[ns[i].name]
    ensures forall n :: n in nodes ==> exists i :: 0 <= i < |ns| && ns[i].name == n
  {
    var names := [start] + Others(order, start);
    OthersAre(order, start);
    StartFirst(start, Others(order, start));
    assert |ns| == |names|;
    forall i | 0 <= i < |ns| ensures names[i] in nodes && ns[i] == nodes[names[i]] && ns[i].name == names[i] {
      if i > 0 { assert names[i] in Others(order, start); }
    }
    forall n | n in nodes ensures exists i :: 0 <= i < |ns| && ns[i].name == n {
      assert n in names;
      var i :| 0 <= i < |names| && names[i] == n;
      assert ns[i].name == n;
    }
  }

  lemma ListedNodes(nodes: map<Name, Node>, ns: seq<Node>)
    requires DistinctNames(ns)
    requires forall i :: 0 <= i < |ns| ==> ns[i].name in nodes && ns[i] == nodes[ns[i].name]
    requires forall n :: n in nodes ==> exists i :: 0 <= i < |ns| && ns[i].name == n
    ensures ByName(ns) == nodes
  {
    hide ByName;
    var m := ByName(ns);
    forall n ensures n in m <==> n in nodes {}
    forall n | n in nodes ensures m[n] == nodes[n] {
      var i :| 0 <= i < |ns| && ns[i].name == n;
      ByNameAt(ns, i);
    }
  }

  lemma GoodBookMade(title: Name, order: seq<Name>, nodes: map<Name, Node>, start: Name, ns: seq<Node>)
    requires Graphed(LinkGraph(nodes), order, nodes) && start in nodes
    requires (forall n :: n in Others(order, start) ==> n in nodes)
      && ns == [nodes[start]] + Pick(Others(order, start), nodes)
    requires DistinctIds(nodes.Keys) && FewLinks(nodes)
    requires NoCycle(LinkGraph(nodes), start) && AllReachable(LinkGraph(nodes), start) && ParentsAssigned(nodes, start)
    ensures GoodBook(Book(title, StableId(title), ns))
  {
    hide StableId, NoCycle, AllReachable, ParentsAssigned, FewLinks, DistinctIds, LinkGraph, LinksResolve, ByName,
      Others;
    hide DistinctNames, Pick;
    IdsOf(order, nodes);
    hide Ordered, Graphed;
    ListedNames(order, nodes, start, ns);
    ListedNodes(nodes, ns);
    LinkedMade(title, nodes, ns);
    hide Linked;
  }

  lemma LinkedMade(title: Name, nodes: map<Name, Node>, ns: seq<Node>)
    requires ns != [] && DistinctNames(ns) && ByName(ns) == nodes
    requires forall i :: 0 <= i < |ns| ==> ns[i].name in nodes && ns[i] == nodes[ns[i].name]
    requires forall n :: n in nodes ==> nodes[n].nodeId == StableId(n)
    requires DistinctIds(nodes.Keys) && FewLinks(nodes) && LinksResolve(nodes)
    ensures Linked(Book(title, StableId(title), ns))
  {
    hide StableId, FewLinks, DistinctIds, LinksResolve, ByName, DistinctNames;
  }

  lemma IdsOf(order: seq<Name>, nodes: map<Name, Node>)
    requires Graphed(LinkGraph(nodes), order, nodes)
    ensures Ordered(order, nodes) && LinksResolve(nodes) && forall n :: n in nodes ==> nodes[n].nodeId == StableId(n)
  {}

  lemma StoryKept(title: Name, order: seq<Name>, nodes: map<Name, Node>, ps: seq<Passage>, ns: seq<Node>)
    requires order == Names(StoryNodes(ps)) && SameText(nodes, ByName(StoryNodes(ps)))
    requires Ordered(order, nodes) && FinalStart(ps) in nodes
    requires forall n :: n in Others(order, FinalStart(ps)) ==> n in nodes
    requires ns == [nodes[FinalStart(ps)]] + Pick(Others(order, FinalStart(ps)), nodes)
    ensures SameStory(Book(title, StableId(title), ns), ps)
  {
    hide StableId, ByName, StoryNodes, Ordered, FinalStart;
    var start := FinalStart(ps);
    var names := [start] + Others(order, start);
    OrderedAll(order, nodes);
    forall i | 0 <= i < |names|
      ensures names[i] in nodes && ns[i] == nodes[names[i]]
    {
      if i > 0 { assert names[i] in Others(order, start); }
    }
  }

  /** The book as read: story passages with the start moved to the front. */
  ghost predicate SameStory(b: Book, ps: seq<Passage>) {
    var ns := StoryNodes(ps); var start := FinalStart(ps);
    && start in ByName(ns)
    && var names := [start] + Others(Names(ns), start);
       && |b.nodes| == |names|
       && forall i :: 0 <= i < |names| ==>
          b.nodes[i].name == names[i] && names[i] in ByName(ns) && Plain(b.nodes[i]) == Plain(ByName(ns)[names[i]])
  }

  lemma NoStartFault(ps: seq<Passage>, order: seq<Name>, nodes: map<Name, Node>)
    requires Holds(order, nodes, StoryNodes(ps))
    ensures order == [] ==> Justified(NoPassages, ps) && !Compilable(ps)
    ensures FinalStart(ps) !in nodes ==> Justified(NoStart(FinalStart(ps)), ps) && !Compilable(ps)
  {}

  lemma OrderedIn(g: map<Name, seq<Name>>, order: seq<Name>, nodes: map<Name, Node>)
    requires Graphed(g, order, nodes)
    ensures Ordered(order, nodes) && g == LinkGraph(nodes)
  {}

  // What the phases found out about the dictionary, said about the source.

  lemma LinkFault(e: TweeError, ps: seq<Passage>, nodes: map<Name, Node>)
    requires SameText(nodes, ByName(StoryNodes(ps)))
    requires match e
      case TooManyChoices(name) => name in nodes && |nodes[name].links| > MAX_CHOICES
      case DeadLink(name, target) => name in nodes && target in Targets(nodes[name].links) && target !in nodes
      case _ => false
    ensures Justified(e, ps)
  {
    SameTextSameGraph(nodes, ByName(StoryNodes(ps)));
    var n := e.name;
    assert Plain(nodes[n]).links == nodes[n].links;
  }

  lemma SearchFault(e: TweeError, ps: seq<Passage>, nodes: map<Name, Node>)
    requires SameText(nodes, ByName(StoryNodes(ps)))
    requires match e
      case SameId(a, b) => a in nodes && b in nodes && a != b && StableId(a) == StableId(b)
      case Cyclic(loop) => CycleFrom(LinkGraph(nodes), FinalStart(ps), loop)
      case Unreachable(names) =>
        names != [] && forall n :: n in names <==> n in nodes && !Reachable(LinkGraph(nodes), FinalStart(ps), n)
      case _ => false
    ensures Justified(e, ps)
  {
    hide StableId, CycleFrom;
    SameTextSameGraph(nodes, ByName(StoryNodes(ps)));
  }

  lemma CompilableIf(ps: seq<Passage>, nodes: map<Name, Node>)
    requires SameText(nodes, ByName(StoryNodes(ps)))
    ensures Compilable(ps) <==>
      && Readable(ps) && FinalStart(ps) in nodes && FewLinks(nodes) && LinksResolve(nodes) && DistinctIds(nodes.Keys)
      && NoCycle(LinkGraph(nodes), FinalStart(ps)) && AllReachable(LinkGraph(nodes), FinalStart(ps))
  {
    hide Readable, FewLinks, LinksResolve, DistinctIds, NoCycle, AllReachable;
    SameTextSameGraph(nodes, ByName(StoryNodes(ps)));
  }

  lemma MakeGraphed(order: seq<Name>, nodes: map<Name, Node>)
    requires Ordered(order, nodes) && LinksResolve(nodes)
    requires forall n :: n in nodes ==> nodes[n].nodeId == StableId(n)
    ensures Graphed(LinkGraph(nodes), order, nodes) && Closed(LinkGraph(nodes))
  {
    hide StableId;
    LinkGraphClosed(nodes);
  }

  /** The checks on a collected dictionary, in the order they are made. */
  method Validate(c: Compiler, ghost ps: seq<Passage>) returns (e: Option<TweeError>)
    requires Holds(c.order, c.nodes, StoryNodes(ps)) && Readable(ps)
    requires c.startName == FinalStart(ps) && c.startName in c.nodes
    modifies c`nodes
    ensures e == None <==> Compilable(ps)
    ensures e.Some? ==> Justified(e.value, ps)
    ensures e == None ==>
      && Graphed(LinkGraph(c.nodes), c.order, c.nodes) && SameText(c.nodes, ByName(StoryNodes(ps)))
      && c.startName in c.nodes
      && DistinctIds(c.nodes.Keys) && FewLinks(c.nodes) && NoCycle(LinkGraph(c.nodes), c.startName)
      && AllReachable(LinkGraph(c.nodes), c.startName) && ParentsAssigned(c.nodes, c.startName)
  {
    hide StableId, Readable, SameText, Ordered, Graphed, FewLinks, LinksResolve, DistinctIds, ByName, StoryNodes;
    hide Compilable, LinkGraph, Closed, CycleFrom, Reachable, ParentsAssigned, AllReachable, Justified;
    ghost var source := ByName(StoryNodes(ps));
    ghost var collected := c.nodes;
    CompilableIf(ps, collected);
    e := c.CheckLinks();
    if e.Some? {
      LinkFault(e.value, ps, collected);
      return;
    }
    e := c.AssignIds();
    SameTextJoin(collected, c.nodes, source);
    if e.Some? {
      SearchFault(e.value, ps, c.nodes);
      return;
    }
    ghost var identified := c.nodes;
    CompilableIf(ps, identified);
    ghost var g := LinkGraph(identified);
    SameTextSameGraph(collected, identified);
    MakeGraphed(c.order, c.nodes);
    var loop := CycleSearch.FindCycle(LinkGraph(c.nodes), c.startName);
    if loop != [] {
      e := Some(Cyclic(loop));
      SearchFault(e.value, ps, identified);
      return;
    }
    var missing := c.AssignParents(g);
    if missing != [] {
      e := Some(Unreachable(missing));
      SearchFault(e.value, ps, identified);
      return;
    }
    SameTextJoin(identified, c.nodes, source);
    SameTextSameGraph(identified, c.nodes);
  }

  /** Accepts exactly the compilable sources; what it returns is a good book
      telling the same story, and every rejection names a fault that is there. */
  method ParseBook(ps: seq<Passage>, defaultName: Name) returns (r: Result)
    ensures r.Ok? <==> Compilable(ps)
    ensures r.Ok? ==> GoodBook(r.book) && SameStory(r.book, ps) && r.book.name == FinalTitle(ps, defaultName)
    ensures r.Err? ==> Justified(r.error, ps)
  {
    hide StableId, Readable, SameText, Ordered, Graphed, FewLinks, DistinctIds, ByName, StoryNodes;
    hide GoodBook, SameStory, LinkGraph, NoCycle, AllReachable, ParentsAssigned, Justified;
    var c := new Compiler(defaultName);
    var e := c.Collect(ps);
    if e.Some? { return Err(e.value); }
    NoStartFault(ps, c.order, c.nodes);
    if |c.order| == 0 { return Err(NoPassages); }
    if c.startName !in c.nodes { return Err(NoStart(c.startName)); }
    e := Validate(c, ps);
    if e.Some? { return Err(e.value); }
    OrderedIn(LinkGraph(c.nodes), c.order, c.nodes);
    var ns := ListNodes(c.order, c.nodes, c.startName);
    GoodBookMade(c.title, c.order, c.nodes, c.startName, ns);
    StoryKept(c.title, c.order, c.nodes, ps, ns);
    r := Ok(Book(c.title, StableId(c.title), ns));
  }
}
