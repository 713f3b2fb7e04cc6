/** write_books: the three tables of a TREEWALK database and how books enter them. */
module TreewalkTables {
  import opened Options
  import opened Treewalk

  // ── SELECT and DELETE by bookID ──

  function BookRows(rows: seq<BookRow>, id: nat): seq<BookRow> {
    if rows == [] then []
    else
      var k := |rows| - 1;
      BookRows(rows[..k], id) + (if rows[k].bookId == id then [rows[k]] else [])
  }

  function NodeRows(rows: seq<NodeRow>, id: nat): seq<NodeRow> {
    if rows == [] then []
    else
      var k := |rows| - 1;
      NodeRows(rows[..k], id) + (if rows[k].bookId == id then [rows[k]] else [])
  }

  function ChoiceRows(rows: seq<ChoiceRow>, id: nat): seq<ChoiceRow> {
    if rows == [] then []
    else
      var k := |rows| - 1;
      ChoiceRows(rows[..k], id) + (if rows[k].bookId == id then [rows[k]] else [])
  }

  function DropBookRows(rows: seq<BookRow>, id: nat): seq<BookRow> {
    if rows == [] then []
    else
      var k := |rows| - 1;
      DropBookRows(rows[..k], id) + (if rows[k].bookId == id then [] else [rows[k]])
  }

  function DropNodeRows(rows: seq<NodeRow>, id: nat): seq<NodeRow> {
    if rows == [] then []
    else
      var k := |rows| - 1;
      DropNodeRows(rows[..k], id) + (if rows[k].bookId == id then [] else [rows[k]])
  }

  function DropChoiceRows(rows: seq<ChoiceRow>, id: nat): seq<ChoiceRow> {
    if rows == [] then []
    else
      var k := |rows| - 1;
      DropChoiceRows(rows[..k], id) + (if rows[k].bookId == id then [] else [rows[k]])
  }

  lemma {:induction false} BookRowsConcat(a: seq<BookRow>, b: seq<BookRow>, id: nat)
    ensures BookRows(a + b, id) == BookRows(a, id) + BookRows(b, id)
  {
    if b == [] {
      assert a + b == a;
    } else {
      assert (a + b)[..|a + b| - 1] == a + b[..|b| - 1];
      BookRowsConcat(a, b[..|b| - 1], id);
    }
  }

  lemma {:induction false} NodeRowsConcat(a: seq<NodeRow>, b: seq<NodeRow>, id: nat)
    ensures NodeRows(a + b, id) == NodeRows(a, id) + NodeRows(b, id)
  {
    if b == [] {
      assert a + b == a;
    } else {
      assert (a + b)[..|a + b| - 1] == a + b[..|b| - 1];
      NodeRowsConcat(a, b[..|b| - 1], id);
    }
  }

  lemma {:induction false} ChoiceRowsConcat(a: seq<ChoiceRow>, b: seq<ChoiceRow>, id: nat)
    ensures ChoiceRows(a + b, id) == ChoiceRows(a, id) + ChoiceRows(b, id)
  {
    if b == [] {
      assert a + b == a;
    } else {
      assert (a + b)[..|a + b| - 1] == a + b[..|b| - 1];
      ChoiceRowsConcat(a, b[..|b| - 1], id);
    }
  }

  /** Deleting a book's rows leaves none of its own and all of every other's. */
  lemma {:induction false} BookRowsAfterDrop(rows: seq<BookRow>, id: nat, other: nat)
    ensures BookRows(DropBookRows(rows, id), other) == if other == id then [] else BookRows(rows, other)
  {
    if rows != [] {
      var k := |rows| - 1;
      BookRowsAfterDrop(rows[..k], id, other);
      BookRowsConcat(DropBookRows(rows[..k], id), if rows[k].bookId == id then [] else [rows[k]], other);
      assert [rows[k]][..0] == [];
    }
  }

  lemma {:induction false} NodeRowsAfterDrop(rows: seq<NodeRow>, id: nat, other: nat)
    ensures NodeRows(DropNodeRows(rows, id), other) == if other == id then [] else NodeRows(rows, other)
  {
    if rows != [] {
      var k := |rows| - 1;
      NodeRowsAfterDrop(rows[..k], id, other);
      NodeRowsConcat(DropNodeRows(rows[..k], id), if rows[k].bookId == id then [] else [rows[k]], other);
      assert [rows[k]][..0] == [];
    }
  }

  lemma {:induction false} ChoiceRowsAfterDrop(rows: seq<ChoiceRow>, id: nat, other: nat)
    ensures ChoiceRows(DropChoiceRows(rows, id), other) == if other == id then [] else ChoiceRows(rows, other)
  {
    if rows != [] {
      var k := |rows| - 1;
      ChoiceRowsAfterDrop(rows[..k], id, other);
      ChoiceRowsConcat(DropChoiceRows(rows[..k], id), if rows[k].bookId == id then [] else [rows[k]], other);
      assert [rows[k]][..0] == [];
    }
  }

  // ── The rows of one book ──

  function NodeRowOf(b: Book, n: Node): NodeRow {
    NodeRow(b.bookId, n.nodeId, n.parentId, n.body)
  }

  function NodeRowsOf(b: Book, ns: seq<Node>): (rows: seq<NodeRow>)
    ensures |rows| == |ns| && forall i :: 0 <= i < |ns| ==> rows[i] == NodeRowOf(b, ns[i])
  {
    seq(|ns|, i requires 0 <= i < |ns| => NodeRowOf(b, ns[i]))
  }

  /** Choices are numbered from 1; a link whose target is missing has no row. */
  function LinkRowsOf(b: Book, n: Node, k: nat): (rows: seq<ChoiceRow>)
    requires k <= |n.links|
    requires forall i :: 0 <= i < k ==> n.links[i].target in ByName(b.nodes)
    ensures |rows| == k
    ensures forall i :: 0 <= i < k ==>
      rows[i] == ChoiceRow(b.bookId, n.nodeId, i + 1, n.links[i].labelText, ByName(b.nodes)[n.links[i].target].nodeId)
  {
    seq(k, i requires 0 <= i < k =>
      ChoiceRow(b.bookId, n.nodeId, i + 1, n.links[i].labelText, ByName(b.nodes)[n.links[i].target].nodeId))
  }

  ghost predicate Resolved(b: Book) {
    forall i, j :: 0 <= i < |b.nodes| && 0 <= j < |b.nodes[i].links| ==> b.nodes[i].links[j].target in ByName(b.nodes)
  }

  function ChoiceRowsOf(b: Book, k: nat): seq<ChoiceRow>
    requires Resolved(b) && k <= |b.nodes|
  {
    if k == 0 then [] else ChoiceRowsOf(b, k - 1) + LinkRowsOf(b, b.nodes[k - 1], |b.nodes[k - 1].links|)
  }

  lemma {:induction false} AllOneNodes(rows: seq<NodeRow>, id: nat, other: nat)
    requires forall i :: 0 <= i < |rows| ==> rows[i].bookId == id
    ensures NodeRows(rows, other) == if other == id then rows else []
  {
    if rows != [] { AllOneNodes(rows[..|rows| - 1], id, other); }
  }

  lemma {:induction false} AllOneChoices(rows: seq<ChoiceRow>, id: nat, other: nat)
    requires forall i :: 0 <= i < |rows| ==> rows[i].bookId == id
    ensures ChoiceRows(rows, other) == if other == id then rows else []
  {
    if rows != [] { AllOneChoices(rows[..|rows| - 1], id, other); }
  }

  lemma {:induction false} ChoiceRowsOneBook(b: Book, k: nat)
    requires Resolved(b) && k <= |b.nodes|
    ensures forall i :: 0 <= i < |ChoiceRowsOf(b, k)| ==> ChoiceRowsOf(b, k)[i].bookId == b.bookId
  {
    if k > 0 { ChoiceRowsOneBook(b, k - 1); }
  }

  // ── Replacing books ──

  /** The tables after one book's old rows are deleted and its new rows inserted. */
  function Replaced(t: Tables, b: Book): Tables
    requires Resolved(b)
  {
    Tables(t.version,
           DropBookRows(t.books, b.bookId) + [BookRow(b.bookId, b.name)],
           DropNodeRows(t.nodes, b.bookId) + NodeRowsOf(b, b.nodes),
           DropChoiceRows(t.choices, b.bookId) + ChoiceRowsOf(b, |b.nodes|))
  }

  ghost predicate HoldsExactly(t: Tables, b: Book)
    requires Resolved(b)
  {
    && BookRows(t.books, b.bookId) == [BookRow(b.bookId, b.name)]
    && NodeRows(t.nodes, b.bookId) == NodeRowsOf(b, b.nodes)
    && ChoiceRows(t.choices, b.bookId) == ChoiceRowsOf(b, |b.nodes|)
  }

  ghost predicate SameRows(s: Tables, t: Tables, id: nat) {
    && BookRows(s.books, id) == BookRows(t.books, id)
    && NodeRows(s.nodes, id) == NodeRows(t.nodes, id)
    && ChoiceRows(s.choices, id) == ChoiceRows(t.choices, id)
  }

  lemma ReplacedBookRows(t: Tables, b: Book, other: nat)
    requires Resolved(b)
    ensures BookRows(Replaced(t, b).books, other) == if other == b.bookId then [BookRow(b.bookId, b.name)]
      else BookRows(t.books, other)
  {
    var row := BookRow(b.bookId, b.name);
    BookRowsAfterDrop(t.books, b.bookId, other);
    BookRowsConcat(DropBookRows(t.books, b.bookId), [row], other);
    assert [row][..0] == [] && BookRows([row], other) == if other == b.bookId then [row] else [];
  }

  lemma ReplacedNodeRows(t: Tables, b: Book, other: nat)
    requires Resolved(b)
    ensures NodeRows(Replaced(t, b).nodes, other) == if other == b.bookId then NodeRowsOf(b, b.nodes)
      else NodeRows(t.nodes, other)
  {
    hide DropBookRows, DropNodeRows, DropChoiceRows, NodeRows, ChoiceRowsOf;
    NodeRowsAfterDrop(t.nodes, b.bookId, other);
    NodeRowsConcat(DropNodeRows(t.nodes, b.bookId), NodeRowsOf(b, b.nodes), other);
    AllOneNodes(NodeRowsOf(b, b.nodes), b.bookId, other);
  }

  lemma ReplacedChoiceRows(t: Tables, b: Book, other: nat)
    requires Resolved(b)
    ensures ChoiceRows(Replaced(t, b).choices, other) ==
      if other == b.bookId then ChoiceRowsOf(b, |b.nodes|) else ChoiceRows(t.choices, other)
  {
    hide DropBookRows, DropNodeRows, DropChoiceRows, ChoiceRows, NodeRowsOf, ChoiceRowsOf;
    ChoiceRowsOneBook(b, |b.nodes|);
    ChoiceRowsAfterDrop(t.choices, b.bookId, other);
    ChoiceRowsConcat(DropChoiceRows(t.choices, b.bookId), ChoiceRowsOf(b, |b.nodes|), other);
    AllOneChoices(ChoiceRowsOf(b, |b.nodes|), b.bookId, other);
  }

  /** Replacing a book makes its rows exactly the new ones and touches no other book. */
  lemma ReplacedRows(t: Tables, b: Book)
    requires Resolved(b)
    ensures HoldsExactly(Replaced(t, b), b)
    ensures forall other: nat :: other != b.bookId ==> SameRows(t, Replaced(t, b), other)
  {
    hide Replaced, Resolved;
    ReplacedBookRows(t, b, b.bookId);
    ReplacedNodeRows(t, b, b.bookId);
    ReplacedChoiceRows(t, b, b.bookId);
    forall other: nat | other != b.bookId ensures SameRows(t, Replaced(t, b), other) {
      ReplacedBookRows(t, b, other);
      ReplacedNodeRows(t, b, other);
      ReplacedChoiceRows(t, b, other);
    }
  }

  lemma SameRowsRefl(t: Tables, id: nat)
    ensures SameRows(t, t, id)
  {}

  lemma SameRowsTrans(s: Tables, t: Tables, u: Tables, id: nat)
    requires SameRows(s, t, id) && SameRows(t, u, id)
    ensures SameRows(s, u, id)
  {}

  lemma SameRowsHold(s: Tables, t: Tables, b: Book)
    requires Resolved(b) && HoldsExactly(s, b) && SameRows(s, t, b.bookId)
    ensures HoldsExactly(t, b)
  {}

  /** The tables after the first k books are written. */
  function Written(t: Tables, bs: seq<Book>, k: nat): Tables
    requires k <= |bs| && forall i :: 0 <= i < |bs| ==> Resolved(bs[i])
  {
    if k == 0 then t else Replaced(Written(t, bs, k - 1), bs[k - 1])
  }

  /** Books that are not written keep their rows. */
  lemma {:induction false} OtherRowsStay(t: Tables, bs: seq<Book>, k: nat, id: nat)
    requires k <= |bs| && forall i :: 0 <= i < |bs| ==> Resolved(bs[i])
    requires forall i :: 0 <= i < k ==> bs[i].bookId != id
    ensures SameRows(t, Written(t, bs, k), id)
  {
    hide Resolved, HoldsExactly, Replaced, SameRows;
    if k == 0 {
      SameRowsRefl(t, id);
    } else {
      var before := Written(t, bs, k - 1);
      OtherRowsStay(t, bs, k - 1, id);
      ReplacedRows(before, bs[k - 1]);
      SameRowsTrans(t, before, Written(t, bs, k), id);
    }
  }

  /** A written book's rows are those of the last book with its ID. */
  lemma {:induction false} WrittenRows(t: Tables, bs: seq<Book>, k: nat, i: nat)
    requires i < k <= |bs| && forall i :: 0 <= i < |bs| ==> Resolved(bs[i])
    requires forall j :: i < j < k ==> bs[j].bookId != bs[i].bookId
    ensures HoldsExactly(Written(t, bs, k), bs[i])
  {
    hide Resolved, HoldsExactly, Replaced;
    var before := Written(t, bs, k - 1);
    ReplacedRows(before, bs[k - 1]);
    if i < k - 1 {
      WrittenRows(t, bs, k - 1, i);
      assert bs[k - 1].bookId != bs[i].bookId;
      SameRowsHold(before, Written(t, bs, k), bs[i]);
    }
  }

  // ── The database file ──

  datatype WriteError = SameBookId(first: Name, second: Name) | WrongVersion(version: int)
    | IdTaken(name: Name, existing: Name)

  const FRESH := Tables(SCHEMA_VERSION, [], [], [])

  /** The rows of the book table that books will have. */
  function Heads(bs: seq<Book>): (hs: seq<BookRow>)
    ensures |hs| == |bs| && forall i :: 0 <= i < |bs| ==> hs[i] == BookRow(bs[i].bookId, bs[i].name)
  {
    seq(|bs|, i requires 0 <= i < |bs| => BookRow(bs[i].bookId, bs[i].name))
  }

  /** Two different names among the books hash to one ID. */
  ghost predicate Colliding(hs: seq<BookRow>) {
    exists i, j :: 0 <= i < j < |hs| && hs[i].bookId == hs[j].bookId && hs[i].name != hs[j].name
  }

  /** A stored book has the ID of h but another name; the row found first counts. */
  ghost predicate TakenAs(t: Tables, h: BookRow, existing: Name) {
    var rows := BookRows(t.books, h.bookId);
    rows != [] && rows[0].name == existing != h.name
  }

  ghost predicate Taken(t: Tables, hs: seq<BookRow>) {
    exists i, existing :: 0 <= i < |hs| && TakenAs(t, hs[i], existing)
  }

  /** What a failed write claims about the books and the tables found. */
  ghost predicate JustifiedWrite(e: WriteError, t: Tables, hs: seq<BookRow>) {
    match e
    case SameBookId(a, b) => a != b && exists id :: BookRow(id, a) in hs && BookRow(id, b) in hs
    case WrongVersion(v) => v == t.version != SCHEMA_VERSION
    case IdTaken(name, existing) => exists h :: h in hs && h.name == name && TakenAs(t, h, existing)
  }

  class DatabaseFile {
    /** None while the file does not exist. */
    var content: Option<Tables>

    constructor (content: Option<Tables>)
      ensures this.content == content
    {
      this.content := content;
    }

    /** Replaces or adds books; on any failure the file keeps its content. */
    method WriteBooks(bs: seq<Book>, merge: bool) returns (error: Option<WriteError>)
      requires forall i :: 0 <= i < |bs| ==> Resolved(bs[i])
      modifies this
      ensures var base := if merge && old(content).Some? then old(content).value else FRESH;
        && (error == None <==> !Colliding(Heads(bs)) && base.version == SCHEMA_VERSION && !Taken(base, Heads(bs)))
        && (error.Some? ==> JustifiedWrite(error.value, base, Heads(bs)))
        && (error == None ==> content == Some(Written(base, bs, |bs|)))
        && (error != None ==> content == old(content))
    {
      hide Replaced, Resolved, Colliding, Taken, TakenAs, BookRows;
      NothingTaken(Heads(bs));
      error := CheckIds(bs);
      if error != None { return; }
      if merge && content.Some? {
        if content.value.version != SCHEMA_VERSION {
          return Some(WrongVersion(content.value.version));
        }
      } else {
        content := Some(FRESH);
      }
      error := CheckStored(content.value, bs);
      if error != None { return; }
      ghost var base := content.value;
      var i := 0;
      while i < |bs|
        invariant i <= |bs| && content == Some(Written(base, bs, i))
      {
        InsertBook(bs[i]);
        i := i + 1;
      }
    }

    /** DELETE from all three tables, then the INSERTs. */
    method InsertBook(b: Book)
      requires content.Some? && Resolved(b)
      modifies this
      ensures content == Some(Replaced(old(content).value, b))
    {
      hide DropBookRows, DropNodeRows, DropChoiceRows, ByName, NodeRowsOf, ChoiceRowsOf, Resolved;
      var choices := DropChoiceRows(content.value.choices, b.bookId);
      var nodes := DropNodeRows(content.value.nodes, b.bookId);
      var books := DropBookRows(content.value.books, b.bookId);
      books := books + [BookRow(b.bookId, b.name)];
      nodes := InsertNodes(nodes, b);
      choices := InsertChoices(choices, b);
      content := Some(Tables(content.value.version, books, nodes, choices));
    }
  }

  method InsertNodes(kept: seq<NodeRow>, b: Book) returns (nodes: seq<NodeRow>)
    ensures nodes == kept + NodeRowsOf(b, b.nodes)
  {
    nodes := kept;
    var i := 0;
    while i < |b.nodes|
      invariant i <= |b.nodes| && nodes == kept + NodeRowsOf(b, b.nodes[..i])
    {
      nodes := nodes + [NodeRowOf(b, b.nodes[i])];
      assert NodeRowsOf(b, b.nodes[..i + 1]) == NodeRowsOf(b, b.nodes[..i]) + [NodeRowOf(b, b.nodes[i])];
      i := i + 1;
    }
    assert b.nodes[..i] == b.nodes;
  }

  method InsertChoices(kept: seq<ChoiceRow>, b: Book) returns (choices: seq<ChoiceRow>)
    requires Resolved(b)
    ensures choices == kept + ChoiceRowsOf(b, |b.nodes|)
  {
    hide ByName;
    choices := kept;
    var byName := ByName(b.nodes);
    var i := 0;
    while i < |b.nodes|
      invariant i <= |b.nodes| && choices == kept + ChoiceRowsOf(b, i)
    {
      var node := b.nodes[i];
      var j := 0;
      while j < |node.links|
        invariant j <= |node.links| && choices == kept + ChoiceRowsOf(b, i) + LinkRowsOf(b, node, j)
      {
        var target := byName[node.links[j].target];
        var row := ChoiceRow(b.bookId, node.nodeId, j + 1, node.links[j].labelText, target.nodeId);
        choices := choices + [row];
        assert LinkRowsOf(b, node, j + 1) == LinkRowsOf(b, node, j) + [row];
        j := j + 1;
      }
      i := i + 1;
    }
  }

  lemma NothingTaken(hs: seq<BookRow>)
    ensures !Taken(FRESH, hs)
  {}

  /** Two names among the new books may not share an ID. */
  method CheckIds(bs: seq<Book>) returns (error: Option<WriteError>)
    ensures error == None <==> !Colliding(Heads(bs))
    ensures error.Some? ==> error.value.SameBookId? && forall t :: JustifiedWrite(error.value, t, Heads(bs))
  {
    var ids: map<nat, Name> := map[];
    var i := 0;
    while i < |bs|
      invariant i <= |bs|
      invariant forall k :: 0 <= k < i ==> bs[k].bookId in ids && ids[bs[k].bookId] == bs[k].name
      invariant forall id :: id in ids ==> exists k :: 0 <= k < i && bs[k].bookId == id && bs[k].name == ids[id]
    {
      if bs[i].bookId in ids && ids[bs[i].bookId] != bs[i].name {
        ghost var k :| 0 <= k < i && bs[k].bookId == bs[i].bookId && bs[k].name == ids[bs[i].bookId];
        assert Heads(bs)[k] in Heads(bs) && Heads(bs)[i] in Heads(bs);
        return Some(SameBookId(ids[bs[i].bookId], bs[i].name));
      }
      ids := ids[bs[i].bookId := bs[i].name];
      i := i + 1;
    }
    return None;
  }

  /** Nor may a new book share the ID of a stored book of another name. */
  method CheckStored(t: Tables, bs: seq<Book>) returns (error: Option<WriteError>)
    ensures error == None <==> !Taken(t, Heads(bs))
    ensures error.Some? ==> error.value.IdTaken? && JustifiedWrite(error.value, t, Heads(bs))
  {
    var i := 0;
    while i < |bs|
      invariant i <= |bs|
      invariant forall k, existing :: 0 <= k < i ==> !TakenAs(t, Heads(bs)[k], existing)
    {
      var existing := BookRows(t.books, bs[i].bookId);
      if existing != [] && existing[0].name != bs[i].name {
        assert Heads(bs)[i] in Heads(bs) && TakenAs(t, Heads(bs)[i], existing[0].name);
        return Some(IdTaken(bs[i].name, existing[0].name));
      }
      i := i + 1;
    }
    return None;
  }
}
