/** The entities of the TREEWALK compiler: passages, compiled books, database rows. */
module Treewalk {
  import opened Options
  import opened Bytes
  import opened Digraph
  import Crc32

  /** A name as its UTF-8 octets. */
  type Name = seq<byte>

  datatype Choice = Choice(labelText: string, target: Name)

  datatype Node = Node(name: Name, nodeId: nat, parentId: Option<nat>, body: string, links: seq<Choice>)

  datatype Book = Book(name: Name, bookId: nat, nodes: seq<Node>)

  const MAX_CHOICES := 3

  /** A positive 31-bit hash of the name: 0 would read as unset. The mask
      0x7FFFFFFF is the remainder modulo 2^31. */
  function StableId(text: Name): (id: nat)
    ensures 0 < id < 0x8000_0000
  {
    hide Crc32.Crc;
    var value := (Crc32.Crc(text) as int) % 0x8000_0000;
    if value == 0 then 1 else value
  }

  /** The ID that the CRC's check value gives: its highest bit is dropped. */
  lemma CheckId()
    ensures StableId(Crc32.CHECK) == 0x4BF43926
  {
    hide Crc32.Crc;
    Crc32.CheckValue();
    assert (0xCBF43926 as bv32) as int == 0xCBF43926;
  }

  // ── The dictionary of passages ──

  /** {n.name: n for n in ns}: later entries win. */
  function ByName(ns: seq<Node>): (m: map<Name, Node>)
    ensures forall n :: n in m <==> exists i :: 0 <= i < |ns| && ns[i].name == n
  {
    if ns == [] then map[]
    else
      var k := |ns| - 1;
      var m := ByName(ns[..k]);
      assert forall i :: 0 <= i < k ==> ns[..k][i] == ns[i];
      m[ns[k].name := ns[k]]
  }

  ghost predicate DistinctNames(ns: seq<Node>) {
    forall i, j :: 0 <= i < j < |ns| ==> ns[i].name != ns[j].name
  }

  lemma {:induction false} ByNameAt(ns: seq<Node>, i: nat)
    requires DistinctNames(ns) && i < |ns|
    ensures ns[i].name in ByName(ns) && ByName(ns)[ns[i].name] == ns[i]
  {
    var k := |ns| - 1;
    if i < k {
      assert ns[..k][i] == ns[i];
      ByNameAt(ns[..k], i);
    }
  }

  function Targets(links: seq<Choice>): (s: seq<Name>)
    ensures |s| == |links|
    ensures forall i :: 0 <= i < |s| ==> s[i] == links[i].target
  {
    seq(|links|, i requires 0 <= i < |links| => links[i].target)
  }

  /** Which passages link to which. */
  function LinkGraph(nodes: map<Name, Node>): (g: map<Name, seq<Name>>)
    ensures g.Keys == nodes.Keys
    ensures forall n :: n in g ==> g[n] == Targets(nodes[n].links)
  {
    map n | n in nodes :: Targets(nodes[n].links)
  }

  ghost predicate LinksResolve(nodes: map<Name, Node>) {
    forall n, i :: n in nodes && 0 <= i < |nodes[n].links| ==> nodes[n].links[i].target in nodes
  }

  ghost predicate FewLinks(nodes: map<Name, Node>) {
    forall n :: n in nodes ==> |nodes[n].links| <= MAX_CHOICES
  }

  ghost predicate DistinctIds(names: set<Name>) {
    forall a, b :: a in names && b in names && StableId(a) == StableId(b) ==> a == b
  }

  ghost predicate NoCycle(g: map<Name, seq<Name>>, start: Name) {
    forall c: seq<Name> :: !CycleFrom(g, start, c)
  }

  ghost predicate AllReachable(g: map<Name, seq<Name>>, start: Name) {
    forall n :: n in g ==> Reachable(g, start, n)
  }

  lemma LinkGraphClosed(nodes: map<Name, Node>)
    requires LinksResolve(nodes)
    ensures Closed(LinkGraph(nodes))
  {
    var g := LinkGraph(nodes);
    forall a, b | a in g && b in g[a] ensures b in g {
      var i :| 0 <= i < |g[a]| && g[a][i] == b;
      assert nodes[a].links[i].target == b;
    }
  }

  // ── Compiled books ──

  /** parentId of a passage other than the start: the ID of a passage that links
      to it and lies one step nearer to the start on a shortest path. */
  ghost predicate NearerParent(nodes: map<Name, Node>, start: Name, n: Name, p: Name) {
    && n in nodes && p in nodes
    && nodes[n].parentId == Some(nodes[p].nodeId)
    && Edge(LinkGraph(nodes), p, n)
    && exists d: nat :: IsDistance(LinkGraph(nodes), start, p, d) && IsDistance(LinkGraph(nodes), start, n, d + 1)
  }

  ghost predicate ParentsAssigned(nodes: map<Name, Node>, start: Name) {
    && start in nodes && nodes[start].parentId == None
    && forall n :: n in nodes && n != start ==> exists p :: NearerParent(nodes, start, n, p)
  }

  /** A book whose names and IDs are in order and whose links resolve. */
  ghost predicate Linked(b: Book) {
    && b.bookId == StableId(b.name)
    && b.nodes != [] && DistinctNames(b.nodes)
    && (forall i :: 0 <= i < |b.nodes| ==> b.nodes[i].nodeId == StableId(b.nodes[i].name))
    && var nodes := ByName(b.nodes);
       DistinctIds(nodes.Keys) && FewLinks(nodes) && LinksResolve(nodes)
  }

  /** Everything the compiler promises about a book it returns. */
  ghost predicate GoodBook(b: Book) {
    && Linked(b)
    && var nodes := ByName(b.nodes); var start := b.nodes[0].name;
       NoCycle(LinkGraph(nodes), start) && AllReachable(LinkGraph(nodes), start) && ParentsAssigned(nodes, start)
  }

  // ── Database rows ──

  datatype BookRow = BookRow(bookId: nat, name: Name)
  datatype NodeRow = NodeRow(bookId: nat, nodeId: nat, parentId: Option<nat>, body: string)
  datatype ChoiceRow = ChoiceRow(bookId: nat, nodeId: nat, seqNo: int, labelText: string, childId: nat)

  const SCHEMA_VERSION := 1

  datatype Tables = Tables(version: int, books: seq<BookRow>, nodes: seq<NodeRow>, choices: seq<ChoiceRow>)
}
