/** What the badge shows of the tables: the story of the last source written under
    each book ID. */
module TreewalkReader {
  import opened Options
  import opened Treewalk
  import opened TreewalkTables
  import opened TreewalkCheck
  import opened TreewalkRows
  import C = TreewalkCompiler

  // ── The badge's queries ──

  /** A node as it is shown: its text, then its choices and where they lead. */
  datatype Page = Page(body: string, choices: seq<(string, nat)>)

  /** SELECT name FROM book WHERE bookID = id */
  function ReadTitles(t: Tables, id: nat): (s: seq<Name>)
    ensures |s| == |BookRows(t.books, id)|
  {
    var rows := BookRows(t.books, id);
    seq(|rows|, i requires 0 <= i < |rows| => rows[i].name)
  }

  function FirstRoot(rows: seq<NodeRow>): Option<nat> {
    if rows == [] then None else if rows[0].parentId == None then Some(rows[0].nodeId) else FirstRoot(rows[1..])
  }

  /** rootOf: SELECT nodeID ... WHERE parentID IS NULL LIMIT 1 */
  function RootOf(t: Tables, id: nat): Option<nat> {
    FirstRoot(NodeRows(t.nodes, id))
  }

  function FirstRow(rows: seq<NodeRow>, node: nat): Option<NodeRow> {
    if rows == [] then None else if rows[0].nodeId == node then Some(rows[0]) else FirstRow(rows[1..], node)
  }

  function Insert(row: ChoiceRow, rows: seq<ChoiceRow>): seq<ChoiceRow> {
    if rows == [] || row.seqNo < rows[0].seqNo then [row] + rows else [rows[0]] + Insert(row, rows[1..])
  }

  /** ORDER BY seq */
  function BySeq(rows: seq<ChoiceRow>): seq<ChoiceRow> {
    if rows == [] then [] else Insert(rows[|rows| - 1], BySeq(rows[..|rows| - 1]))
  }

  function Offered(rows: seq<ChoiceRow>): (s: seq<(string, nat)>)
    ensures |s| == |rows| && forall i :: 0 <= i < |s| ==> s[i] == (rows[i].labelText, rows[i].childId)
  {
    seq(|rows|, i requires 0 <= i < |rows| => (rows[i].labelText, rows[i].childId))
  }

  /** LIMIT 3 */
  function UpTo3<T>(s: seq<T>): seq<T> {
    if |s| <= 3 then s else s[..3]
  }

  function PageOf(row: NodeRow, choices: seq<ChoiceRow>): Page {
    Page(row.body, UpTo3(Offered(BySeq(ChoicesAt(choices, row.nodeId)))))
  }

  function Load(nodes: seq<NodeRow>, choices: seq<ChoiceRow>, node: nat): Option<Page> {
    var row := FirstRow(nodes, node);
    if row.Some? then Some(PageOf(row.value, choices)) else None
  }

  /** loadNode: the text of a node, then its first three choices in order. */
  function LoadNode(t: Tables, id: nat, node: nat): Option<Page> {
    Load(NodeRows(t.nodes, id), ChoiceRows(t.choices, id), node)
  }

  // ── What the author wrote ──

  /** The pages of a source: each passage under the ID of its name, its text and
      its links as they are, a target as the ID of its name. */
  function StoryPages(ps: seq<C.Passage>): map<nat, Page> {
    if ps == [] then map[]
    else
      var k := |ps| - 1;
      match ps[k]
      case Story(name, body, links) => StoryPages(ps[..k])[StableId(name) := Page(body, LinkTexts(links))]
      case _ => StoryPages(ps[..k])
  }

  function LinkTexts(links: seq<Choice>): (s: seq<(string, nat)>)
    ensures |s| == |links| && forall i :: 0 <= i < |s| ==> s[i] == (links[i].labelText, StableId(links[i].target))
  {
    seq(|links|, i requires 0 <= i < |links| => (links[i].labelText, StableId(links[i].target)))
  }

  /** What a reader of m would find at a node. */
  function PageIn(m: map<nat, Page>, node: nat): Option<Page> {
    if node in m then Some(m[node]) else None
  }

  /** On the badge these tables tell this story: it has its title, opens at its
      start, and shows the passages' texts and links and nothing else. */
  ghost predicate Tells(t: Tables, ps: seq<C.Passage>, defaultName: Name) {
    var title := C.FinalTitle(ps, defaultName);
    && ReadTitles(t, StableId(title)) == [title]
    && RootOf(t, StableId(title)) == Some(StableId(C.FinalStart(ps)))
    && forall node :: LoadNode(t, StableId(title), node) == PageIn(StoryPages(ps), node)
  }

  // ── Sorting rows that are in order ──

  lemma {:induction false} InsertLast(row: ChoiceRow, rows: seq<ChoiceRow>)
    requires forall i :: 0 <= i < |rows| ==> rows[i].seqNo <= row.seqNo
    ensures Insert(row, rows) == rows + [row]
  {
    if rows != [] {
      InsertLast(row, rows[1..]);
      assert rows == [rows[0]] + rows[1..];
    }
  }

  ghost predicate Sorted(rows: seq<ChoiceRow>) {
    forall i, j :: 0 <= i < j < |rows| ==> rows[i].seqNo <= rows[j].seqNo
  }

  lemma LargestLast(rows: seq<ChoiceRow>)
    requires rows != [] && Sorted(rows)
    ensures var k := |rows| - 1;
      Sorted(rows[..k]) && forall i :: 0 <= i < k ==> rows[..k][i].seqNo <= rows[k].seqNo
  {}

  lemma ButLast<T>(s: seq<T>)
    requires s != []
    ensures s == s[..|s| - 1] + [s[|s| - 1]]
  {}

  lemma BySeqIs(rows: seq<ChoiceRow>)
    requires rows != []
    ensures var k := |rows| - 1; BySeq(rows) == Insert(rows[k], BySeq(rows[..k]))
  {
    hide Insert;
  }

  lemma {:induction false} SortedStays(rows: seq<ChoiceRow>)
    requires Sorted(rows)
    ensures BySeq(rows) == rows
  {
    if rows != [] {
      LargestLast(rows);
      BySeqIs(rows);
      hide BySeq, Insert, Sorted;
      ButLast(rows);
      SortedStays(rows[..|rows| - 1]);
      InsertLast(rows[|rows| - 1], rows[..|rows| - 1]);
    }
  }

  // ── Rows by node ──

  ghost predicate DistinctNodes(nodes: seq<NodeRow>) {
    forall i, j :: 0 <= i < j < |nodes| ==> nodes[i].nodeId != nodes[j].nodeId
  }

  lemma {:induction false} FirstRowAt(nodes: seq<NodeRow>, i: nat)
    requires DistinctNodes(nodes) && i < |nodes|
    ensures FirstRow(nodes, nodes[i].nodeId) == Some(nodes[i])
  {
    if i > 0 { FirstRowAt(nodes[1..], i - 1); }
  }

  lemma {:induction false} NoFirstRow(nodes: seq<NodeRow>, node: nat)
    requires forall i :: 0 <= i < |nodes| ==> nodes[i].nodeId != node
    ensures FirstRow(nodes, node) == None
  {
    if nodes != [] { NoFirstRow(nodes[1..], node); }
  }

  function PageFor(n: Node): Page {
    Page(n.body, LinkTexts(n.links))
  }

  ghost predicate IdsApart(ns: seq<Node>) {
    forall i, j :: 0 <= i < j < |ns| ==> StableId(ns[i].name) != StableId(ns[j].name)
  }

  /** m holds exactly the pages of these nodes. */
  ghost predicate HoldsPages(m: map<nat, Page>, ns: seq<Node>) {
    && (forall id :: id in m <==> exists i :: 0 <= i < |ns| && StableId(ns[i].name) == id)
    && (forall i :: 0 <= i < |ns| ==> StableId(ns[i].name) in m && m[StableId(ns[i].name)] == PageFor(ns[i]))
  }

  lemma OneMorePage(m: map<nat, Page>, ns: seq<Node>, n: Node)
    requires HoldsPages(m, ns) && IdsApart(ns + [n])
    ensures HoldsPages(m[StableId(n.name) := PageFor(n)], ns + [n])
  {
    hide StableId, PageFor;
    var all, more := ns + [n], m[StableId(n.name) := PageFor(n)];
    assert all[|ns|] == n && forall i :: 0 <= i < |ns| ==> all[i] == ns[i];
    forall id ensures id in more <==> exists i :: 0 <= i < |all| && StableId(all[i].name) == id {
      if i :| 0 <= i < |ns| && StableId(ns[i].name) == id { assert StableId(all[i].name) == id; }
      if id == StableId(n.name) { assert StableId(all[|ns|].name) == id; }
    }
  }

  lemma {:induction false} StoryPagesAt(ps: seq<C.Passage>)
    requires IdsApart(C.StoryNodes(ps))
    ensures HoldsPages(StoryPages(ps), C.StoryNodes(ps))
  {
    hide StableId, LinkTexts, HoldsPages;
    if ps == [] {
      NoPages();
    } else {
      var k := |ps| - 1;
      var before := C.StoryNodes(ps[..k]);
      C.LastPassage(ps, k);
      assert ps[..k + 1] == ps;
      assert forall i :: 0 <= i < |before| ==> C.StoryNodes(ps)[i] == before[i];
      StoryPagesAt(ps[..k]);
      if ps[k].Story? {
        OneMorePage(StoryPages(ps[..k]), before, Node(ps[k].name, 0, None, ps[k].body, ps[k].links));
      }
    }
  }

  lemma NoPages()
    ensures HoldsPages(map[], [])
  {}

  // ── A compiled book's rows tell its story ──

  /** The choices of a node come back as its links. */
  lemma ChoicesBack(b: Book, i: nat)
    requires Linked(b) && Resolved(b) && i < |b.nodes|
    ensures Offered(BySeq(ChoicesAt(ChoiceRowsOf(b, |b.nodes|), b.nodes[i].nodeId))) == LinkTexts(b.nodes[i].links)
  {
    hide StableId, ByName, Linked, BySeq, ChoicesAt, ChoiceRowsOf;
    IdsDiffer(b);
    ChoicesOfNode(b, |b.nodes|, i);
    var n := b.nodes[i];
    var rows := LinkRowsOf(b, n, |n.links|);
    SortedStays(rows);
    forall j | 0 <= j < |n.links| ensures rows[j].childId == StableId(n.links[j].target) {
      var k := NameInBook(b, n.links[j].target);
    }
  }

  /** The page of a book's node. */
  lemma PageBack(b: Book, i: nat)
    requires Linked(b) && Resolved(b) && i < |b.nodes|
    ensures var rows := NodeRowsOf(b, b.nodes);
      && rows[i].nodeId == StableId(b.nodes[i].name)
      && PageOf(rows[i], ChoiceRowsOf(b, |b.nodes|)) == PageFor(b.nodes[i])
  {
    FewChoices(b, i);
    hide StableId, ByName, Offered, BySeq, ChoicesAt, ChoiceRowsOf, Linked;
    NodeInBook(b, i);
    ChoicesBack(b, i);
  }

  lemma FewChoices(b: Book, i: nat)
    requires Linked(b) && i < |b.nodes|
    ensures |b.nodes[i].links| <= 3
  {
    hide StableId, ByName;
    NodeInBook(b, i);
  }

  /** Each passage has a node of its text, and each node a passage. */
  lemma PassageNode(b: Book, ps: seq<C.Passage>, n: Name)
    requires DistinctNames(C.StoryNodes(ps)) && C.SameStory(b, ps)
    ensures (exists i :: 0 <= i < |b.nodes| && b.nodes[i].name == n) <==>
      exists j :: 0 <= j < |C.StoryNodes(ps)| && C.StoryNodes(ps)[j].name == n
    ensures forall i, j ::
      0 <= i < |b.nodes| && b.nodes[i].name == n && 0 <= j < |C.StoryNodes(ps)| && C.StoryNodes(ps)[j].name == n ==>
      PageFor(b.nodes[i]) == PageFor(C.StoryNodes(ps)[j])
  {
    hide StableId, LinkTexts, ByName, C.Others, C.StoryNodes, C.FinalStart;
    var ns, start := C.StoryNodes(ps), C.FinalStart(ps);
    var names := [start] + C.Others(C.Names(ns), start);
    C.NamesCovered(ns, start);
    forall i, j | 0 <= i < |b.nodes| && b.nodes[i].name == n && 0 <= j < |ns| && ns[j].name == n
      ensures PageFor(b.nodes[i]) == PageFor(ns[j])
    {
      ByNameAt(ns, j);
      C.PlainParts(b.nodes[i], ns[j]);
    }
    if i :| 0 <= i < |b.nodes| && b.nodes[i].name == n {
      assert names[i] in ByName(ns);
    }
    if j :| 0 <= j < |ns| && ns[j].name == n {
      assert n in names;
      var i :| 0 <= i < |names| && names[i] == n;
      assert b.nodes[i].name == n;
    }
  }

  lemma PassagesApart(b: Book, ps: seq<C.Passage>)
    requires Linked(b) && DistinctNames(C.StoryNodes(ps)) && C.SameStory(b, ps)
    ensures IdsApart(C.StoryNodes(ps))
  {
    hide StableId, ByName, C.SameStory, C.StoryNodes, Linked;
    var ns := C.StoryNodes(ps);
    forall i, j | 0 <= i < j < |ns| ensures StableId(ns[i].name) != StableId(ns[j].name) {
      PassageNode(b, ps, ns[i].name);
      PassageNode(b, ps, ns[j].name);
      var p :| 0 <= p < |b.nodes| && b.nodes[p].name == ns[i].name;
      var q :| 0 <= q < |b.nodes| && b.nodes[q].name == ns[j].name;
      NodeInBook(b, p);
      NodeInBook(b, q);
      IdsDiffer(b);
    }
  }

  /** The nodes of a book and the passages it was made of hold the same pages. */
  lemma SamePages(m: map<nat, Page>, b: Book, ps: seq<C.Passage>)
    requires Linked(b) && DistinctNames(C.StoryNodes(ps)) && C.SameStory(b, ps) && HoldsPages(m, C.StoryNodes(ps))
    ensures HoldsPages(m, b.nodes)
  {
    hide StableId, ByName, C.SameStory, C.StoryNodes, Linked, PageFor;
    var ns := C.StoryNodes(ps);
    forall id ensures id in m <==> exists i :: 0 <= i < |b.nodes| && StableId(b.nodes[i].name) == id {
      if id in m {
        var j :| 0 <= j < |ns| && StableId(ns[j].name) == id;
        PassageNode(b, ps, ns[j].name);
      }
      if i :| 0 <= i < |b.nodes| && StableId(b.nodes[i].name) == id {
        PassageNode(b, ps, b.nodes[i].name);
      }
    }
    forall i | 0 <= i < |b.nodes|
      ensures StableId(b.nodes[i].name) in m && m[StableId(b.nodes[i].name)] == PageFor(b.nodes[i])
    {
      PassageNode(b, ps, b.nodes[i].name);
      var j :| 0 <= j < |ns| && ns[j].name == b.nodes[i].name;
    }
  }

  /** What the badge loads from the rows of a book is the story it was made of. */
  lemma BookTells(b: Book, ps: seq<C.Passage>, node: nat)
    requires Linked(b) && Resolved(b) && DistinctNames(C.StoryNodes(ps)) && C.SameStory(b, ps)
    ensures Load(NodeRowsOf(b, b.nodes), ChoiceRowsOf(b, |b.nodes|), node) == PageIn(StoryPages(ps), node)
  {
    hide StableId, ByName, C.SameStory, C.StoryNodes, Linked, Resolved, StoryPages, PageOf, PageFor, ChoiceRowsOf;
    hide FirstRow;
    var m, rows := StoryPages(ps), NodeRowsOf(b, b.nodes);
    PassagesApart(b, ps);
    StoryPagesAt(ps);
    SamePages(m, b, ps);
    IdsDiffer(b);
    forall i | 0 <= i < |b.nodes| ensures rows[i].nodeId == StableId(b.nodes[i].name) { PageBack(b, i); }
    if i :| 0 <= i < |rows| && rows[i].nodeId == node {
      PageBack(b, i);
      FirstRowAt(rows, i);
    } else {
      NoFirstRow(rows, node);
    }
  }

  /** The start is the first node, and has no parent. */
  lemma StartsAtRoot(b: Book, ps: seq<C.Passage>)
    requires GoodBook(b) && Resolved(b) && C.SameStory(b, ps)
    ensures FirstRoot(NodeRowsOf(b, b.nodes)) == Some(StableId(C.FinalStart(ps)))
  {
    hide StableId, ByName, C.Others, C.StoryNodes, C.FinalStart, Linked, NoCycle, AllReachable, LinkGraph;
    assert b.nodes != [] by { NotEmpty(b); }
    assert b.nodes[0].name == C.FinalStart(ps);
    NodeInBook(b, 0);
  }

  lemma NotEmpty(b: Book)
    requires Linked(b)
    ensures b.nodes != []
  {}

  /** Tables that hold exactly the rows of a good book tell its story. */
  lemma HeldTells(t: Tables, b: Book, ps: seq<C.Passage>, defaultName: Name)
    requires GoodBook(b) && Resolved(b) && DistinctNames(C.StoryNodes(ps)) && C.SameStory(b, ps)
    requires b.name == C.FinalTitle(ps, defaultName) && HoldsExactly(t, b)
    ensures Tells(t, ps, defaultName)
  {
    GoodIsLinked(b);
    StartsAtRoot(b, ps);
    hide StableId, C.FinalTitle, C.FinalStart, C.SameStory, C.StoryNodes, GoodBook, Linked, Resolved, Load, StoryPages;
    hide NodeRows, ChoiceRows, BookRows, NodeRowsOf, ChoiceRowsOf, DistinctNames, FirstRoot, PageIn;
    TitleBack(t, b);
    forall node ensures LoadNode(t, b.bookId, node) == PageIn(StoryPages(ps), node) {
      BookTells(b, ps, node);
    }
  }

  lemma TitleBack(t: Tables, b: Book)
    requires BookRows(t.books, b.bookId) == [BookRow(b.bookId, b.name)]
    ensures ReadTitles(t, b.bookId) == [b.name]
  {
    hide BookRows;
  }

  lemma GoodIsLinked(b: Book)
    requires GoodBook(b)
    ensures Linked(b) && b.bookId == StableId(b.name)
  {}
}
