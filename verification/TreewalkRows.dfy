/** The rows of one compiled book: which node and which choice each row is. */
module TreewalkRows {
  import opened Treewalk
  import opened TreewalkTables
  import opened TreewalkCheck

  // ── Names and IDs of one book ──

  ghost predicate DistinctNodeIds(b: Book) {
    forall i, j :: 0 <= i < j < |b.nodes| ==> b.nodes[i].nodeId != b.nodes[j].nodeId
  }

  lemma NodeInBook(b: Book, i: nat)
    requires Linked(b) && i < |b.nodes|
    ensures var n := b.nodes[i];
      n.name in ByName(b.nodes) && ByName(b.nodes)[n.name] == n && n.nodeId == StableId(n.name)
  {
    hide StableId, ByName, LinkGraph;
    ByNameAt(b.nodes, i);
  }

  lemma NameInBook(b: Book, n: Name) returns (i: nat)
    requires Linked(b) && n in ByName(b.nodes)
    ensures i < |b.nodes| && b.nodes[i].name == n && ByName(b.nodes)[n] == b.nodes[i]
      && b.nodes[i].nodeId == StableId(n)
  {
    hide StableId, ByName, LinkGraph;
    i :| 0 <= i < |b.nodes| && b.nodes[i].name == n;
    ByNameAt(b.nodes, i);
  }

  lemma IdsDiffer(b: Book)
    requires Linked(b)
    ensures DistinctNodeIds(b)
  {
    hide StableId, ByName, LinkGraph;
    forall i, j | 0 <= i < j < |b.nodes| ensures b.nodes[i].nodeId != b.nodes[j].nodeId {
      NodeInBook(b, i);
      NodeInBook(b, j);
    }
  }

  lemma BookResolves(b: Book)
    requires Linked(b)
    ensures Resolved(b)
  {
    hide StableId, ByName, LinkGraph;
    forall i, j | 0 <= i < |b.nodes| && 0 <= j < |b.nodes[i].links|
      ensures b.nodes[i].links[j].target in ByName(b.nodes) {
      NodeInBook(b, i);
    }
  }

  // ── Its rows ──

  lemma {:induction false} ParentsOfRows(b: Book, k: nat)
    requires DistinctNodeIds(b) && k <= |b.nodes|
    ensures var m := ParentMap(NodeRowsOf(b, b.nodes[..k]));
      && (forall i :: 0 <= i < k ==> b.nodes[i].nodeId in m && m[b.nodes[i].nodeId] == b.nodes[i].parentId)
      && (forall id :: id in m ==> exists i :: 0 <= i < k && b.nodes[i].nodeId == id)
  {
    if k > 0 {
      ParentsOfRows(b, k - 1);
      var rows, before := NodeRowsOf(b, b.nodes[..k]), NodeRowsOf(b, b.nodes[..k - 1]);
      assert rows[..k - 1] == before;
      assert ParentMap(rows) == ParentMap(before)[b.nodes[k - 1].nodeId := b.nodes[k - 1].parentId];
      hide ParentMap, NodeRowsOf;
    }
  }

  lemma {:induction false} ChoicesAtConcat(a: seq<ChoiceRow>, c: seq<ChoiceRow>, node: nat)
    ensures ChoicesAt(a + c, node) == ChoicesAt(a, node) + ChoicesAt(c, node)
  {
    if c == [] {
      assert a + c == a;
    } else {
      assert (a + c)[..|a + c| - 1] == a + c[..|c| - 1];
      ChoicesAtConcat(a, c[..|c| - 1], node);
    }
  }

  lemma {:induction false} ChoicesOfOneNode(rows: seq<ChoiceRow>, owner: nat, node: nat)
    requires forall i :: 0 <= i < |rows| ==> rows[i].nodeId == owner
    ensures ChoicesAt(rows, node) == if node == owner then rows else []
  {
    if rows != [] { ChoicesOfOneNode(rows[..|rows| - 1], owner, node); }
  }

  lemma {:induction false} ChoicesOfNode(b: Book, k: nat, i: nat)
    requires Resolved(b) && DistinctNodeIds(b) && k <= |b.nodes| && i < |b.nodes|
    ensures ChoicesAt(ChoiceRowsOf(b, k), b.nodes[i].nodeId) ==
      if i < k then LinkRowsOf(b, b.nodes[i], |b.nodes[i].links|) else []
  {
    hide ChoicesAt;
    if k == 0 {
      ChoicesOfOneNode([], 0, b.nodes[i].nodeId);
    } else {
      var n := b.nodes[k - 1];
      ChoicesOfNode(b, k - 1, i);
      ChoicesAtConcat(ChoiceRowsOf(b, k - 1), LinkRowsOf(b, n, |n.links|), b.nodes[i].nodeId);
      ChoicesOfOneNode(LinkRowsOf(b, n, |n.links|), n.nodeId, b.nodes[i].nodeId);
    }
  }

  lemma {:induction false} WhereRow(b: Book, k: nat, r: nat) returns (i: nat, j: nat)
    requires Resolved(b) && k <= |b.nodes| && r < |ChoiceRowsOf(b, k)|
    ensures i < k && j < |b.nodes[i].links|
    ensures ChoiceRowsOf(b, k)[r] == LinkRowsOf(b, b.nodes[i], |b.nodes[i].links|)[j]
  {
    var before := ChoiceRowsOf(b, k - 1);
    if r < |before| {
      i, j := WhereRow(b, k - 1, r);
    } else {
      i, j := k - 1, r - |before|;
    }
  }
}
