/** build: every book the compiler accepts makes tables the checker accepts. */
module TreewalkBuild {
  import opened Options
  import opened Treewalk
  import opened TreewalkTables
  import opened TreewalkCheck
  import opened TreewalkRows
  import R = TreewalkReader
  import opened Digraph
  import C = TreewalkCompiler

  // ── The graph of IDs is the graph of names, renamed ──

  ghost function Parents(b: Book): map<nat, Option<nat>> {
    ParentMap(NodeRowsOf(b, b.nodes))
  }

  ghost function IdGraph(b: Book): map<nat, seq<nat>>
    requires Resolved(b)
  {
    ChildGraph(Parents(b), ChoiceRowsOf(b, |b.nodes|))
  }

  ghost function NameGraph(b: Book): map<Name, seq<Name>> {
    LinkGraph(ByName(b.nodes))
  }

  lemma ParentsFacts(b: Book)
    requires Linked(b)
    ensures forall i :: 0 <= i < |b.nodes| ==>
      b.nodes[i].nodeId in Parents(b) && Parents(b)[b.nodes[i].nodeId] == b.nodes[i].parentId
    ensures forall id :: id in Parents(b) ==> exists i :: 0 <= i < |b.nodes| && b.nodes[i].nodeId == id
  {
    hide Linked;
    IdsDiffer(b);
    ParentsOfRows(b, |b.nodes|);
    assert b.nodes[..|b.nodes|] == b.nodes;
  }

  /** The successors of a node's ID are the IDs of its link targets. */
  lemma IdSuccessors(b: Book, i: nat)
    requires Linked(b) && Resolved(b) && i < |b.nodes|
    ensures var n := b.nodes[i];
      && n.nodeId in IdGraph(b) && n.name in NameGraph(b)
      && |IdGraph(b)[n.nodeId]| == |n.links| == |NameGraph(b)[n.name]|
      && (forall j :: 0 <= j < |n.links| ==>
          n.links[j].target in NameGraph(b) && NameGraph(b)[n.name][j] == n.links[j].target &&
          IdGraph(b)[n.nodeId][j] == StableId(n.links[j].target))
  {
    hide StableId, ByName, Linked;
    var n := b.nodes[i];
    IdsDiffer(b);
    ParentsFacts(b);
    ChoicesOfNode(b, |b.nodes|, i);
    NodeInBook(b, i);
    forall j | 0 <= j < |n.links| ensures ByName(b.nodes)[n.links[j].target].nodeId == StableId(n.links[j].target) {
      var k := NameInBook(b, n.links[j].target);
    }
  }

  lemma EdgeToId(b: Book, a: Name, c: Name)
    requires Linked(b) && Resolved(b) && Edge(NameGraph(b), a, c)
    ensures Edge(IdGraph(b), StableId(a), StableId(c))
  {
    hide StableId, Linked, IdGraph, NameGraph;
    var i := EdgeSource(b, a);
    IdSuccessors(b, i);
    var s := NameGraph(b)[a];
    var j :| 0 <= j < |s| && s[j] == c;
    assert IdGraph(b)[StableId(a)][j] == StableId(c);
  }

  lemma EdgeSource(b: Book, a: Name) returns (i: nat)
    requires Linked(b) && a in NameGraph(b)
    ensures i < |b.nodes| && b.nodes[i].name == a && b.nodes[i].nodeId == StableId(a)
  {
    i := NameInBook(b, a);
  }

  lemma PathToIds(b: Book, p: seq<Name>)
    requires Linked(b) && Resolved(b) && IsPath(NameGraph(b), p)
    ensures IsPath(IdGraph(b), Ids(p))
  {
    hide StableId, Linked, IdGraph, NameGraph;
    var i := EdgeSource(b, p[0]);
    IdSuccessors(b, i);
    var q := Ids(p);
    forall k | 0 < k < |q| ensures Edge(IdGraph(b), q[k - 1], q[k]) {
      assert Edge(NameGraph(b), p[k - 1], p[k]);
      EdgeToId(b, p[k - 1], p[k]);
    }
  }

  ghost function Ids(p: seq<Name>): (q: seq<nat>)
    ensures |q| == |p| && forall i :: 0 <= i < |p| ==> q[i] == StableId(p[i])
  {
    seq(|p|, i requires 0 <= i < |p| => StableId(p[i]))
  }

  ghost predicate HasId(b: Book, id: nat) {
    exists i :: 0 <= i < |b.nodes| && b.nodes[i].nodeId == id
  }

  /** The name behind an ID. */
  ghost function NameOf(b: Book, id: nat): Name
    requires HasId(b, id)
  {
    var i :| 0 <= i < |b.nodes| && b.nodes[i].nodeId == id;
    b.nodes[i].name
  }

  lemma NameOfAt(b: Book, i: nat)
    requires DistinctNodeIds(b) && i < |b.nodes|
    ensures HasId(b, b.nodes[i].nodeId) && NameOf(b, b.nodes[i].nodeId) == b.nodes[i].name
  {}

  ghost predicate KnownIds(b: Book, q: seq<nat>) {
    forall k :: 0 <= k < |q| ==> HasId(b, q[k])
  }

  ghost function NamesOf(b: Book, q: seq<nat>): (p: seq<Name>)
    requires KnownIds(b, q)
    ensures |p| == |q| && forall k :: 0 <= k < |q| ==> p[k] == NameOf(b, q[k])
  {
    seq(|q|, k requires 0 <= k < |q| => NameOf(b, q[k]))
  }

  lemma IdInGraph(b: Book, x: nat) returns (i: nat)
    requires Linked(b) && Resolved(b) && x in IdGraph(b)
    ensures i < |b.nodes| && b.nodes[i].nodeId == x && HasId(b, x) && NameOf(b, x) == b.nodes[i].name
    ensures NameOf(b, x) in NameGraph(b)
  {
    hide StableId, Linked, NameGraph;
    ParentsFacts(b);
    IdsDiffer(b);
    i :| 0 <= i < |b.nodes| && b.nodes[i].nodeId == x;
    NameOfAt(b, i);
    IdSuccessors(b, i);
  }

  ghost predicate NameEdge(b: Book, x: nat, y: nat) {
    HasId(b, x) && HasId(b, y) && Edge(NameGraph(b), NameOf(b, x), NameOf(b, y))
  }

  lemma EdgeToName(b: Book, x: nat, y: nat)
    requires Linked(b) && Resolved(b) && Edge(IdGraph(b), x, y)
    ensures NameEdge(b, x, y)
  {
    hide StableId, Linked, NameGraph, IdGraph, NameOf, HasId, Resolved;
    var i := IdInGraph(b, x);
    IdSuccessors(b, i);
    var s := IdGraph(b)[x];
    var j :| 0 <= j < |s| && s[j] == y;
    var target := b.nodes[i].links[j].target;
    assert NameGraph(b)[b.nodes[i].name][j] == target;
    var k := EdgeSource(b, target);
    IdsDiffer(b);
    NameOfAt(b, k);
  }

  lemma PathToNames(b: Book, q: seq<nat>)
    requires Linked(b) && Resolved(b) && IsPath(IdGraph(b), q)
    ensures KnownIds(b, q) && IsPath(NameGraph(b), NamesOf(b, q))
  {
    hide StableId, Linked, NameGraph, IdGraph, NameOf, HasId, Resolved;
    var i := IdInGraph(b, q[0]);
    forall k | 0 < k < |q| ensures NameEdge(b, q[k - 1], q[k]) {
      EdgeToName(b, q[k - 1], q[k]);
    }
    forall k | 0 <= k < |q| ensures HasId(b, q[k]) {
      if k > 0 { assert NameEdge(b, q[k - 1], q[k]); }
    }
    var p := NamesOf(b, q);
    forall k | 0 < k < |p| ensures Edge(NameGraph(b), p[k - 1], p[k]) {
      assert NameEdge(b, q[k - 1], q[k]);
    }
  }

  // ── A good book's rows are sound ──

  lemma RowEnds(b: Book, r: nat)
    requires Linked(b) && Resolved(b) && r < |ChoiceRowsOf(b, |b.nodes|)|
    ensures HasId(b, ChoiceRowsOf(b, |b.nodes|)[r].nodeId) && HasId(b, ChoiceRowsOf(b, |b.nodes|)[r].childId)
  {
    hide StableId, ByName, Linked;
    var i, j := WhereRow(b, |b.nodes|, r);
    hide ChoiceRowsOf;
    var k := NameInBook(b, b.nodes[i].links[j].target);
    assert b.nodes[k].nodeId == ByName(b.nodes)[b.nodes[i].links[j].target].nodeId;
  }

  lemma IdsListed(b: Book)
    requires Linked(b)
    ensures forall id :: id in Parents(b) <==> HasId(b, id)
  {
    ParentsFacts(b);
  }

  lemma GoodParent(b: Book, id: nat)
    requires GoodBook(b) && HasId(b, id)
    ensures id in Parents(b)
    ensures Parents(b)[id].Some? ==> Parents(b)[id].value in Parents(b)
  {
    ParentsFacts(b);
    IdsListed(b);
    var i :| 0 <= i < |b.nodes| && b.nodes[i].nodeId == id;
    hide GoodBook, Linked, Parents;
    ParentKnown(b, i);
  }

  lemma GoodChoices(b: Book, id: nat)
    requires Linked(b) && Resolved(b) && HasId(b, id)
    ensures Numbered(ChoicesAt(ChoiceRowsOf(b, |b.nodes|), id))
  {
    hide Linked, Resolved, Numbered, ChoicesAt, ChoiceRowsOf;
    var i :| 0 <= i < |b.nodes| && b.nodes[i].nodeId == id;
    LinksNumbered(b, i);
  }

  lemma GoodRows(b: Book)
    requires GoodBook(b) && Resolved(b)
    ensures SoundRows(Parents(b), ChoiceRowsOf(b, |b.nodes|))
  {
    assert Linked(b);
    hide GoodBook, Linked, Parents, ChoiceRowsOf, Resolved, ChoicesAt, Numbered, HasId;
    var cs := ChoiceRowsOf(b, |b.nodes|);
    IdsListed(b);
    forall r | 0 <= r < |cs| ensures cs[r].nodeId in Parents(b) && cs[r].childId in Parents(b) { RowEnds(b, r); }
    forall n | n in Parents(b) && Parents(b)[n].Some? ensures Parents(b)[n].value in Parents(b) { GoodParent(b, n); }
    forall n | n in Parents(b) ensures Numbered(ChoicesAt(cs, n)) { GoodChoices(b, n); }
  }

  lemma ParentKnown(b: Book, i: nat)
    requires GoodBook(b) && i < |b.nodes|
    ensures i == 0 ==> b.nodes[i].parentId == None
    ensures i > 0 ==> b.nodes[i].parentId.Some? && HasId(b, b.nodes[i].parentId.value)
  {
    hide StableId, ByName, LinkGraph, Edge, IsDistance;
    var nodes, start, n := ByName(b.nodes), b.nodes[0].name, b.nodes[i].name;
    NodeInBook(b, i);
    NodeInBook(b, 0);
    if i > 0 {
      assert n != start;
      var p :| NearerParent(nodes, start, n, p);
      var k := NameInBook(b, p);
    }
  }

  lemma LinksNumbered(b: Book, i: nat)
    requires Linked(b) && Resolved(b) && i < |b.nodes|
    ensures Numbered(ChoicesAt(ChoiceRowsOf(b, |b.nodes|), b.nodes[i].nodeId))
  {
    hide StableId, ByName, LinkGraph, ChoicesAt, ChoiceRowsOf;
    NodeInBook(b, i);
    assert |b.nodes[i].links| <= MAX_CHOICES;
    IdsDiffer(b);
    ChoicesOfNode(b, |b.nodes|, i);
    var rows := LinkRowsOf(b, b.nodes[i], |b.nodes[i].links|);
    forall s | 1 <= s <= |rows| ensures HasNumber(rows, s) {
      assert rows[s - 1] in rows && rows[s - 1].seqNo == s;
    }
  }

  lemma GoodRoot(b: Book)
    requires GoodBook(b)
    ensures OnlyRoot(Parents(b), b.nodes[0].nodeId)
  {
    ParentsFacts(b);
    IdsDiffer(b);
    assert b.nodes != [];
    hide GoodBook, Linked, Parents;
    forall i | 0 <= i < |b.nodes| ensures b.nodes[i].parentId == None <==> i == 0 { ParentKnown(b, i); }
  }

  lemma GoodGraph(b: Book)
    requires GoodBook(b) && Resolved(b)
    ensures SoundGraph(IdGraph(b), b.nodes[0].nodeId)
  {
    assert Linked(b) && NoCycle(NameGraph(b), b.nodes[0].name);
    assert b.nodes != [];
    hide GoodBook, Linked, IdGraph, NameGraph, NameOf, Reachable;
    var root := b.nodes[0].nodeId;
    forall n | n in IdGraph(b) ensures Reachable(IdGraph(b), root, n) {
      var i := IdInGraph(b, n);
      IdReachable(b, i);
    }
    forall c: seq<nat> ensures !CycleFrom(IdGraph(b), root, c) {
      if CycleFrom(IdGraph(b), root, c) {
        IdCycleIsNameCycle(b, c);
      }
    }
  }

  lemma IdReachable(b: Book, i: nat)
    requires GoodBook(b) && Resolved(b) && i < |b.nodes|
    ensures Reachable(IdGraph(b), b.nodes[0].nodeId, b.nodes[i].nodeId)
  {
    hide StableId, IdGraph, ByName, LinkGraph;
    NodeInBook(b, i);
    NodeInBook(b, 0);
    assert Reachable(NameGraph(b), b.nodes[0].name, b.nodes[i].name);
    hide GoodBook, Linked, NameGraph;
    var p :| PathFromTo(NameGraph(b), p, b.nodes[0].name, b.nodes[i].name);
    PathToIds(b, p);
    assert PathFromTo(IdGraph(b), Ids(p), b.nodes[0].nodeId, b.nodes[i].nodeId);
  }

  lemma PathFromToNames(b: Book, q: seq<nat>, s: nat, t: nat)
    requires Linked(b) && Resolved(b) && PathFromTo(IdGraph(b), q, s, t)
    ensures KnownIds(b, q) && HasId(b, s) && HasId(b, t)
    ensures PathFromTo(NameGraph(b), NamesOf(b, q), NameOf(b, s), NameOf(b, t))
  {
    hide Linked, Resolved, IdGraph, NameGraph, HasId;
    PathToNames(b, q);
    assert HasId(b, q[0]) && HasId(b, q[|q| - 1]);
  }

  lemma WayToCycle<T(!new)>(g: map<T, seq<T>>, s: T, c: seq<T>) returns (p: seq<T>)
    requires CycleFrom(g, s, c)
    ensures |c| >= 2 && PathFromTo(g, p, s, c[0]) && PathFromTo(g, c, c[0], c[0])
  {
    p :| PathFromTo(g, p, s, c[0]);
  }

  lemma MakesCycle<T(!new)>(g: map<T, seq<T>>, s: T, p: seq<T>, c: seq<T>)
    requires |c| >= 2 && PathFromTo(g, p, s, c[0]) && PathFromTo(g, c, c[0], c[0])
    ensures CycleFrom(g, s, c)
  {}

  /** A loop in the choice rows is a loop of the story. */
  lemma IdCycleIsNameCycle(b: Book, c: seq<nat>)
    requires Linked(b) && Resolved(b) && CycleFrom(IdGraph(b), b.nodes[0].nodeId, c)
    ensures KnownIds(b, c) && CycleFrom(NameGraph(b), b.nodes[0].name, NamesOf(b, c))
  {
    assert b.nodes != [];
    hide StableId, Linked, Resolved, IdGraph, NameGraph, HasId, NameOf, PathFromTo, CycleFrom;
    var p := WayToCycle(IdGraph(b), b.nodes[0].nodeId, c);
    PathFromToNames(b, p, b.nodes[0].nodeId, c[0]);
    PathFromToNames(b, c, c[0], c[0]);
    IdsDiffer(b);
    NameOfAt(b, 0);
    MakesCycle(NameGraph(b), b.nodes[0].name, NamesOf(b, p), NamesOf(b, c));
  }

  /** A compiled book, alone in its rows, is sound. */
  lemma GoodBookIsSound(b: Book)
    requires GoodBook(b) && Resolved(b)
    ensures Sound(NodeRowsOf(b, b.nodes), ChoiceRowsOf(b, |b.nodes|))
  {
    assert b.nodes != [];
    hide GoodBook, Linked, SoundRows, SoundGraph, OnlyRoot, ParentMap, ChoiceRowsOf;
    GoodRows(b);
    GoodRoot(b);
    GoodGraph(b);
    assert SoundGraph(ChildGraph(ParentMap(NodeRowsOf(b, b.nodes)), ChoiceRowsOf(b, |b.nodes|)), b.nodes[0].nodeId);
  }

  // ── Parent chains ──

  /** The chain of parentIDs from one node to another. */
  ghost predicate ParentChain(parents: map<nat, Option<nat>>, chain: seq<nat>, from: nat, to: nat) {
    && |chain| > 0 && chain[0] == from && chain[|chain| - 1] == to
    && forall k :: 0 < k < |chain| ==> StepsUp(parents, chain[k - 1], chain[k])
  }

  ghost predicate StepsUp(parents: map<nat, Option<nat>>, a: nat, b: nat) {
    a in parents && parents[a] == Some(b)
  }

  lemma OneDistance(g: map<Name, seq<Name>>, s: Name, t: Name, d: nat, e: nat)
    requires IsDistance(g, s, t, d) && IsDistance(g, s, t, e)
    ensures d == e
  {
    var p :| PathFromTo(g, p, s, t) && |p| == d + 1;
    var q :| PathFromTo(g, q, s, t) && |q| == e + 1;
  }

  lemma StartAtZero(g: map<Name, seq<Name>>, s: Name, d: nat)
    requires s in g && IsDistance(g, s, s, d)
    ensures d == 0
  {
    assert PathFromTo(g, [s], s, s);
  }

  /** One step up is one step nearer. */
  lemma StepNearer(b: Book, i: nat, d: nat) returns (k: nat)
    requires GoodBook(b) && 0 < i < |b.nodes|
    requires IsDistance(NameGraph(b), b.nodes[0].name, b.nodes[i].name, d)
    ensures d > 0 && k < |b.nodes| && IsDistance(NameGraph(b), b.nodes[0].name, b.nodes[k].name, d - 1)
    ensures StepsUp(Parents(b), b.nodes[i].nodeId, b.nodes[k].nodeId)
  {
    hide StableId, IsDistance, ByName, LinkGraph, Edge;
    var nodes, start, n := ByName(b.nodes), b.nodes[0].name, b.nodes[i].name;
    NodeInBook(b, i);
    ParentsFacts(b);
    hide Parents;
    assert n != start;
    var p :| NearerParent(nodes, start, n, p);
    hide GoodBook;
    var e: nat :| IsDistance(NameGraph(b), start, p, e) && IsDistance(NameGraph(b), start, n, e + 1);
    OneDistance(NameGraph(b), start, n, d, e + 1);
    k := NameInBook(b, p);
  }

  /** Going up by parentID from any passage reaches the start in as many steps
      as the shortest reading from the start to that passage. */
  lemma {:induction false} ShortestChain(b: Book, i: nat, d: nat) returns (chain: seq<nat>)
    requires GoodBook(b) && i < |b.nodes|
    requires IsDistance(NameGraph(b), b.nodes[0].name, b.nodes[i].name, d)
    ensures ParentChain(Parents(b), chain, b.nodes[i].nodeId, b.nodes[0].nodeId) && |chain| == d + 1
    decreases d
  {
    hide GoodBook, IsDistance, Parents, NameGraph, StepsUp;
    if i == 0 {
      StartName(b);
      StartAtZero(NameGraph(b), b.nodes[0].name, d);
      return [b.nodes[0].nodeId];
    }
    var k := StepNearer(b, i, d);
    var rest := ShortestChain(b, k, d - 1);
    chain := [b.nodes[i].nodeId] + rest;
  }

  lemma StartName(b: Book)
    requires GoodBook(b)
    ensures b.nodes != [] && b.nodes[0].name in NameGraph(b)
  {
    hide StableId, ByName, LinkGraph;
    assert b.nodes != [];
    NodeInBook(b, 0);
  }

  // ── The whole build ──

  lemma LastWithId(bs: seq<Book>, id: nat, i: nat) returns (k: nat)
    requires i < |bs| && bs[i].bookId == id
    ensures k < |bs| && bs[k].bookId == id && forall j :: k < j < |bs| ==> bs[j].bookId != id
  {
    k := i;
    var n := i + 1;
    while n < |bs|
      invariant i < n <= |bs| && k < n && bs[k].bookId == id && forall j :: k < j < n ==> bs[j].bookId != id
    {
      if bs[n].bookId == id { k := n; }
      n := n + 1;
    }
  }

  lemma {:induction false} ListedRow(rows: seq<BookRow>, i: nat)
    requires i < |rows|
    ensures rows[i] in BookRows(rows, rows[i].bookId)
  {
    if i < |rows| - 1 {
      assert rows[..|rows| - 1][i] == rows[i];
      ListedRow(rows[..|rows| - 1], i);
    }
  }

  lemma {:induction false} RowListed(rows: seq<BookRow>, id: nat) returns (i: nat)
    requires BookRows(rows, id) != []
    ensures i < |rows| && rows[i].bookId == id
  {
    i := |rows| - 1;
    if rows[i].bookId != id {
      i := RowListed(rows[..i], id);
    }
  }

  ghost predicate AllGood(bs: seq<Book>) {
    forall i :: 0 <= i < |bs| ==> GoodBook(bs[i]) && Resolved(bs[i])
  }

  /** The stored books that are not about to be replaced are sound. */
  ghost predicate RestSound(t: Tables, hs: seq<BookRow>) {
    forall r :: 0 <= r < |t.books| ==>
      SoundBook(t, t.books[r].bookId) || exists i :: 0 <= i < |hs| && hs[i].bookId == t.books[r].bookId
  }

  /** A book of the tables before that is not written is just as sound afterwards. */
  lemma RestStays(t: Tables, bs: seq<Book>, id: nat)
    requires AllGood(bs) && forall i :: 0 <= i < |bs| ==> bs[i].bookId != id
    ensures var u := Written(t, bs, |bs|);
      (SoundBook(u, id) <==> SoundBook(t, id)) && BookRows(u.books, id) == BookRows(t.books, id)
  {
    hide GoodBook, Resolved, Sound;
    OtherRowsStay(t, bs, |bs|, id);
  }

  /** One that is written is sound afterwards. */
  lemma WrittenBookSound(t: Tables, bs: seq<Book>, i: nat)
    requires AllGood(bs) && i < |bs|
    ensures SoundBook(Written(t, bs, |bs|), bs[i].bookId)
  {
    hide GoodBook, Resolved, Sound;
    var k := LastWithId(bs, bs[i].bookId, i);
    WrittenRows(t, bs, |bs|, k);
    GoodBookIsSound(bs[k]);
  }

  /** Tables with good books written into them are sound if and only if the books
      that stayed are. */
  lemma WrittenSoundIff(t: Tables, bs: seq<Book>)
    requires AllGood(bs) && t.version == SCHEMA_VERSION
    ensures SoundTables(Written(t, bs, |bs|)) <==> RestSound(t, Heads(bs))
  {
    hide GoodBook, Resolved, SoundBook, Written;
    var u := Written(t, bs, |bs|);
    WrittenVersion(t, bs, |bs|);
    if RestSound(t, Heads(bs)) {
      forall r | 0 <= r < |u.books| ensures SoundBook(u, u.books[r].bookId) {
        var id := u.books[r].bookId;
        if i :| 0 <= i < |bs| && bs[i].bookId == id {
          WrittenBookSound(t, bs, i);
        } else {
          RestStays(t, bs, id);
          ListedRow(u.books, r);
          var j := RowListed(t.books, id);
        }
      }
    }
    if SoundTables(u) {
      forall r | 0 <= r < |t.books|
        ensures SoundBook(t, t.books[r].bookId) || exists i :: 0 <= i < |bs| && Heads(bs)[i].bookId == t.books[r].bookId
      {
        var id := t.books[r].bookId;
        if forall i :: 0 <= i < |bs| ==> bs[i].bookId != id {
          RestStays(t, bs, id);
          ListedRow(t.books, r);
          var j := RowListed(u.books, id);
        } else {
          var i :| 0 <= i < |bs| && bs[i].bookId == id;
          assert Heads(bs)[i].bookId == id;
        }
      }
    }
  }

  /** Good books written into sound tables, fresh or not, leave them sound. */
  lemma WrittenIsSound(t: Tables, bs: seq<Book>)
    requires AllGood(bs) && SoundTables(t)
    ensures SoundTables(Written(t, bs, |bs|))
  {
    hide GoodBook, Resolved, SoundBook, Written;
    WrittenSoundIff(t, bs);
  }

  lemma {:induction false} WrittenVersion(t: Tables, bs: seq<Book>, k: nat)
    requires k <= |bs| && forall i :: 0 <= i < |bs| ==> Resolved(bs[i])
    ensures Written(t, bs, k).version == t.version
  {
    hide Resolved, DropBookRows, DropNodeRows, DropChoiceRows, NodeRowsOf, ChoiceRowsOf;
    if k > 0 { WrittenVersion(t, bs, k - 1); }
  }

  datatype Source = Source(passages: seq<C.Passage>, stem: Name)

  datatype BuildResult =
    | Built(books: seq<Book>)
    | Rejected(input: nat, error: C.TweeError)
    | NotWritten(writeError: WriteError)
    | SelfCheckFailed(problems: seq<Problem>)

  /** The row of the book table that a source will have. */
  function HeadOf(src: Source): BookRow {
    var title := C.FinalTitle(src.passages, src.stem);
    BookRow(StableId(title), title)
  }

  function SourceHeads(inputs: seq<Source>): (hs: seq<BookRow>)
    ensures |hs| == |inputs|
  {
    seq(|inputs|, i requires 0 <= i < |inputs| => HeadOf(inputs[i]))
  }

  ghost predicate AllCompilable(inputs: seq<Source>) {
    forall i :: 0 <= i < |inputs| ==> C.Compilable(inputs[i].passages)
  }

  ghost predicate Writable(base: Tables, hs: seq<BookRow>) {
    !Colliding(hs) && base.version == SCHEMA_VERSION && !Taken(base, hs)
  }

  /** The books made of the inputs, stored in what was there. */
  ghost predicate Stored(base: Tables, inputs: seq<Source>, books: seq<Book>, content: Option<Tables>) {
    && |books| == |inputs| && AllGood(books)
    && (forall i :: 0 <= i < |inputs| ==> C.SameStory(books[i], inputs[i].passages))
    && content == Some(Written(base, books, |books|))
  }

  /** These are all the faults of the books in the tables, and there are some. */
  ghost predicate Faults(problems: seq<Problem>, t: Tables) {
    && problems != []
    && forall p :: p in problems <==> exists i :: 0 <= i < |t.books| && FaultOf(p, t, t.books[i].bookId)
  }

  /** No later source has the same book ID. */
  ghost predicate IsLast(hs: seq<BookRow>, i: nat)
    requires i < |hs|
  {
    forall j :: i < j < |hs| ==> hs[j].bookId != hs[i].bookId
  }

  /** A reader finds the story of every source that no later one replaces, and the
      books that were not written as they were. */
  ghost predicate AllTold(base: Tables, inputs: seq<Source>, t: Tables) {
    var hs := SourceHeads(inputs);
    && (forall i :: 0 <= i < |inputs| && IsLast(hs, i) ==> R.Tells(t, inputs[i].passages, inputs[i].stem))
    && (forall id :: (forall i :: 0 <= i < |hs| ==> hs[i].bookId != id) ==> SameRows(base, t, id))
  }

  lemma WrittenTells(base: Tables, inputs: seq<Source>, books: seq<Book>, i: nat)
    requires AllCompilable(inputs) && AllGood(books) && |books| == |inputs| && Heads(books) == SourceHeads(inputs)
    requires i < |inputs| && IsLast(SourceHeads(inputs), i) && C.SameStory(books[i], inputs[i].passages)
    ensures R.Tells(Written(base, books, |books|), inputs[i].passages, inputs[i].stem)
  {
    hide GoodBook, Resolved, Written, C.SameStory, R.Tells, HoldsExactly, StableId, C.FinalTitle;
    var ps := inputs[i].passages;
    assert C.Compilable(ps);
    NamesOnce(ps);
    hide C.Compilable;
    assert Heads(books)[i] == HeadOf(inputs[i]);
    forall j | i < j < |books| ensures books[j].bookId != books[i].bookId {
      assert Heads(books)[j].bookId == books[j].bookId;
    }
    WrittenRows(base, books, |books|, i);
    R.HeldTells(Written(base, books, |books|), books[i], ps, inputs[i].stem);
  }

  lemma NamesOnce(ps: seq<C.Passage>)
    requires C.Compilable(ps)
    ensures DistinctNames(C.StoryNodes(ps))
  {}

  lemma WrittenAllTold(base: Tables, inputs: seq<Source>, books: seq<Book>)
    requires AllCompilable(inputs) && AllGood(books) && |books| == |inputs| && Heads(books) == SourceHeads(inputs)
    requires forall i :: 0 <= i < |inputs| ==> C.SameStory(books[i], inputs[i].passages)
    ensures AllTold(base, inputs, Written(base, books, |books|))
  {
    hide GoodBook, Resolved, Written, C.SameStory, R.Tells, SameRows, StableId, C.Compilable, AllCompilable;
    var hs := SourceHeads(inputs);
    forall i | 0 <= i < |inputs| && IsLast(hs, i)
      ensures R.Tells(Written(base, books, |books|), inputs[i].passages, inputs[i].stem)
    {
      WrittenTells(base, inputs, books, i);
    }
    forall id | forall i :: 0 <= i < |hs| ==> hs[i].bookId != id
      ensures SameRows(base, Written(base, books, |books|), id)
    {
      forall i | 0 <= i < |books| ensures books[i].bookId != id { assert Heads(books)[i].bookId == hs[i].bookId; }
      OtherRowsStay(base, books, |books|, id);
    }
  }

  /** Compiles, writes, then checks its own output; each way to end has its exact
      condition on the inputs and the tables found. The last step fails only on
      stored books of a merged file that are not replaced, so never on a file
      that is fresh or was sound. */
  method Build(inputs: seq<Source>, output: DatabaseFile, merge: bool) returns (r: BuildResult)
    modifies output
    ensures var base := if merge && old(output.content).Some? then old(output.content).value else FRESH;
      var hs := SourceHeads(inputs);
      && (r.Built? <==> AllCompilable(inputs) && Writable(base, hs) && RestSound(base, hs))
      && (r.Rejected? <==> !AllCompilable(inputs))
      && (r.NotWritten? <==> AllCompilable(inputs) && !Writable(base, hs))
      && (r.Built? ==> Stored(base, inputs, r.books, output.content) && SoundTables(output.content.value))
      && (r.Built? ==> AllTold(base, inputs, output.content.value))
      && (r.Rejected? ==> r.input < |inputs| && C.Justified(r.error, inputs[r.input].passages))
      && (r.NotWritten? ==> JustifiedWrite(r.writeError, base, hs))
      && (r.SelfCheckFailed? ==> exists books :: Stored(base, inputs, books, output.content))
      && (r.SelfCheckFailed? ==> Faults(r.problems, output.content.value))
      && (base == FRESH || SoundTables(base) ==> !r.SelfCheckFailed?)
      && (r.Rejected? || r.NotWritten? ==> output.content == old(output.content))
  {
    hide GoodBook, Resolved, C.Compilable, C.SameStory, C.Justified, C.FinalTitle, SoundTables, Written, RestSound,
      StableId;
    hide Colliding, Taken, JustifiedWrite, AllTold;
    var books: seq<Book> := [];
    var i := 0;
    while i < |inputs|
      invariant i == |books| <= |inputs| && AllGood(books)
      invariant forall k :: 0 <= k < i ==> C.Compilable(inputs[k].passages) && C.SameStory(books[k], inputs[k].passages)
      invariant forall k :: 0 <= k < i ==> BookRow(books[k].bookId, books[k].name) == HeadOf(inputs[k])
      invariant output.content == old(output.content)
    {
      var p := C.ParseBook(inputs[i].passages, inputs[i].stem);
      if p.Err? { return Rejected(i, p.error); }
      GoodResolves(p.book);
      books := books + [p.book];
      i := i + 1;
    }
    assert Heads(books) == SourceHeads(inputs);
    var failed := output.WriteBooks(books, merge);
    if failed != None { return NotWritten(failed.value); }
    ghost var base := if merge && old(output.content).Some? then old(output.content).value else FRESH;
    WrittenSoundIff(base, books);
    if base == FRESH || SoundTables(base) { SoundRests(base, Heads(books)); }
    assert Stored(base, inputs, books, output.content);
    WrittenAllTold(base, inputs, books);
    WrittenVersion(base, books, |books|);
    var problems := CheckDatabase(output.content.value);
    if problems != [] { return SelfCheckFailed(problems); }
    return Built(books);
  }

  /** In a fresh file, or a sound one, every stored book is sound. */
  lemma SoundRests(t: Tables, hs: seq<BookRow>)
    requires SoundTables(t) || t == FRESH
    ensures RestSound(t, hs)
  {}

  lemma GoodResolves(b: Book)
    requires GoodBook(b)
    ensures Resolved(b) && b.bookId == StableId(b.name)
  {
    BookResolves(b);
  }
}
