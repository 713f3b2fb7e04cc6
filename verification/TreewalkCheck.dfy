/** check_database: the independent checker, against what soundness of the tables means. */
module TreewalkCheck {
  import opened Options
  import opened Treewalk
  import opened TreewalkTables
  import opened Digraph
  import CycleSearch

  // ── What a sound book is ──

  /** {nodeID: parentID}: a repeated node keeps its last row. */
  function ParentMap(rows: seq<NodeRow>): map<nat, Option<nat>> {
    if rows == [] then map[]
    else
      var k := |rows| - 1;
      ParentMap(rows[..k])[rows[k].nodeId := rows[k].parentId]
  }

  function ChoicesAt(rows: seq<ChoiceRow>, node: nat): seq<ChoiceRow> {
    if rows == [] then []
    else
      var k := |rows| - 1;
      ChoicesAt(rows[..k], node) + (if rows[k].nodeId == node then [rows[k]] else [])
  }

  function Numbers(rows: seq<ChoiceRow>): (s: seq<int>)
    ensures |s| == |rows| && forall i :: 0 <= i < |s| ==> s[i] == rows[i].seqNo
  {
    seq(|rows|, i requires 0 <= i < |rows| => rows[i].seqNo)
  }

  function Children(rows: seq<ChoiceRow>): (s: seq<nat>)
    ensures |s| == |rows| && forall i :: 0 <= i < |s| ==> s[i] == rows[i].childId
  {
    seq(|rows|, i requires 0 <= i < |rows| => rows[i].childId)
  }

  function OneTo(k: nat): (s: seq<int>)
    ensures |s| == k && forall i :: 0 <= i < k ==> s[i] == i + 1
  {
    seq(k, i => i + 1)
  }

  ghost predicate OnlyRoot(parents: map<nat, Option<nat>>, r: nat) {
    r in parents && parents[r] == None && forall n :: n in parents && parents[n] == None ==> n == r
  }

  function ChildGraph(parents: map<nat, Option<nat>>, cs: seq<ChoiceRow>): (g: map<nat, seq<nat>>)
    ensures g.Keys == parents.Keys
    ensures forall n :: n in g ==> g[n] == Children(ChoicesAt(cs, n))
  {
    map n | n in parents :: Children(ChoicesAt(cs, n))
  }

  /** At most three choices, in whatever row order; as many numbers as rows, so
      each of 1, 2, ... is used once. */
  ghost predicate Numbered(rows: seq<ChoiceRow>) {
    |rows| <= MAX_CHOICES && forall s :: 1 <= s <= |rows| ==> HasNumber(rows, s)
  }

  ghost predicate HasNumber(rows: seq<ChoiceRow>, s: int) {
    exists c :: c in rows && c.seqNo == s
  }

  ghost predicate SoundRows(parents: map<nat, Option<nat>>, cs: seq<ChoiceRow>) {
    && (forall i :: 0 <= i < |cs| ==> cs[i].nodeId in parents && cs[i].childId in parents)
    && (forall n :: n in parents && parents[n].Some? ==> parents[n].value in parents)
    && (forall n :: n in parents ==> Numbered(ChoicesAt(cs, n)))
  }

  /** From the root every node can be read, and no reading goes on for ever. */
  ghost predicate SoundGraph(g: map<nat, seq<nat>>, root: nat) {
    (forall n :: n in g ==> Reachable(g, root, n)) && (forall c: seq<nat> :: !CycleFrom(g, root, c))
  }

  ghost predicate Sound(ns: seq<NodeRow>, cs: seq<ChoiceRow>) {
    var parents := ParentMap(ns);
    && SoundRows(parents, cs)
    && exists root :: OnlyRoot(parents, root) && SoundGraph(ChildGraph(parents, cs), root)
  }

  ghost predicate SoundBook(t: Tables, id: nat) {
    Sound(NodeRows(t.nodes, id), ChoiceRows(t.choices, id))
  }

  /** Every book listed in the book table is sound. */
  ghost predicate SoundTables(t: Tables) {
    t.version == SCHEMA_VERSION && forall i :: 0 <= i < |t.books| ==> SoundBook(t, t.books[i].bookId)
  }

  // ── ORDER BY nodeID, seq ──

  predicate RowLe(a: ChoiceRow, b: ChoiceRow) {
    a.nodeId < b.nodeId || (a.nodeId == b.nodeId && a.seqNo <= b.seqNo)
  }

  ghost predicate InOrder(rows: seq<ChoiceRow>) {
    forall i, j :: 0 <= i < j < |rows| ==> RowLe(rows[i], rows[j])
  }

  lemma Inserted(sorted: seq<ChoiceRow>, k: nat, row: ChoiceRow)
    requires InOrder(sorted) && k <= |sorted|
    requires k > 0 ==> RowLe(sorted[k - 1], row)
    requires forall j :: k <= j < |sorted| ==> RowLe(row, sorted[j])
    ensures InOrder(sorted[..k] + [row] + sorted[k..])
  {
    var s := sorted[..k] + [row] + sorted[k..];
    forall i, j | 0 <= i < j < |s| ensures RowLe(s[i], s[j]) {
      if i < k && j == k && i < k - 1 {
        assert RowLe(sorted[i], sorted[k - 1]);
      }
    }
  }

  lemma InsertedRows(sorted: seq<ChoiceRow>, k: nat, row: ChoiceRow)
    requires k <= |sorted|
    ensures multiset(sorted[..k] + [row] + sorted[k..]) == multiset(sorted) + multiset{row}
  {
    assert sorted == sorted[..k] + sorted[k..];
  }

  /** Insertion sort, standing for the database engine. */
  method OrderRows(rows: seq<ChoiceRow>) returns (sorted: seq<ChoiceRow>)
    ensures multiset(sorted) == multiset(rows) && InOrder(sorted)
  {
    sorted := [];
    var i := 0;
    while i < |rows|
      invariant i <= |rows| && multiset(sorted) == multiset(rows[..i]) && InOrder(sorted)
    {
      var k := |sorted|;
      while k > 0 && !RowLe(sorted[k - 1], rows[i])
        invariant 0 <= k <= |sorted|
        invariant forall j :: k <= j < |sorted| ==> RowLe(rows[i], sorted[j])
      {
        k := k - 1;
      }
      Inserted(sorted, k, rows[i]);
      InsertedRows(sorted, k, rows[i]);
      sorted := sorted[..k] + [rows[i]] + sorted[k..];
      assert rows[..i + 1] == rows[..i] + [rows[i]];
      i := i + 1;
    }
    assert rows[..i] == rows;
  }

  /** Reordering rows reorders each node's choices. */
  lemma LastChoice(rows: seq<ChoiceRow>, node: nat)
    requires rows != []
    ensures var k := |rows| - 1;
      ChoicesAt(rows, node) == ChoicesAt(rows[..k], node) + if rows[k].nodeId == node then [rows[k]] else []
  {}

  lemma CountWithLast<T>(s: seq<T>, x: T)
    requires s != []
    ensures var k := |s| - 1; multiset(s)[x] == multiset(s[..k])[x] + if s[k] == x then 1 else 0
  {
    assert s == s[..|s| - 1] + [s[|s| - 1]];
  }

  lemma {:induction false} ChoicesAtCounts(rows: seq<ChoiceRow>, node: nat, c: ChoiceRow)
    ensures multiset(ChoicesAt(rows, node))[c] == if c.nodeId == node then multiset(rows)[c] else 0
  {
    if rows != [] {
      var k := |rows| - 1;
      ChoicesAtCounts(rows[..k], node, c);
      LastChoice(rows, node);
      CountWithLast(rows, c);
      hide ChoicesAt;
      var less := ChoicesAt(rows[..k], node);
      if rows[k].nodeId == node { CountWithLast(less + [rows[k]], c); assert (less + [rows[k]])[..|less|] == less; }
    }
  }

  lemma ReorderedChoices(rows: seq<ChoiceRow>, other: seq<ChoiceRow>, node: nat)
    requires multiset(rows) == multiset(other)
    ensures multiset(ChoicesAt(rows, node)) == multiset(ChoicesAt(other, node))
    ensures forall c :: c in ChoicesAt(rows, node) <==> c in ChoicesAt(other, node)
    ensures |ChoicesAt(rows, node)| == |ChoicesAt(other, node)|
  {
    forall c: ChoiceRow
      ensures multiset(ChoicesAt(rows, node))[c] == multiset(ChoicesAt(other, node))[c]
    {
      ChoicesAtCounts(rows, node, c);
      ChoicesAtCounts(other, node, c);
    }
    var a, b := ChoicesAt(rows, node), ChoicesAt(other, node);
    assert multiset(a) == multiset(b);
    assert |a| == |multiset(a)| && |b| == |multiset(b)|;
    forall c: ChoiceRow ensures c in a <==> c in b {
      assert c in a <==> c in multiset(a);
      assert c in b <==> c in multiset(b);
    }
  }

  lemma {:induction false} ChoicesAtOrdered(rows: seq<ChoiceRow>, node: nat)
    requires InOrder(rows)
    ensures forall i :: 0 <= i < |ChoicesAt(rows, node)| ==>
      ChoicesAt(rows, node)[i] in rows && ChoicesAt(rows, node)[i].nodeId == node
    ensures Ascending(Numbers(ChoicesAt(rows, node)))
  {
    if rows != [] {
      var k := |rows| - 1;
      ChoicesAtOrdered(rows[..k], node);
      var before := ChoicesAt(rows[..k], node);
      forall i | 0 <= i < |before|
        ensures before[i] in rows && (rows[k].nodeId == node ==> before[i].seqNo <= rows[k].seqNo) {
        assert before[i] in rows[..k];
      }
    }
  }

  ghost predicate Ascending(s: seq<int>) {
    forall i, j :: 0 <= i < j < |s| ==> s[i] <= s[j]
  }

  lemma WhereNumber(rows: seq<ChoiceRow>, s: int) returns (i: nat)
    requires Numbered(rows) && 1 <= s <= |rows|
    ensures i < |rows| && Numbers(rows)[i] == s
  {
    assert HasNumber(rows, s);
    var c :| c in rows && c.seqNo == s;
    i :| 0 <= i < |rows| && rows[i] == c;
  }

  lemma ThreeInOrder(rows: seq<ChoiceRow>)
    requires Numbered(rows) && Ascending(Numbers(rows))
    ensures Numbers(rows) == OneTo(|rows|)
  {
    var ns := Numbers(rows);
    if |rows| == 1 {
      var i := WhereNumber(rows, 1);
    } else if |rows| == 2 {
      var i := WhereNumber(rows, 1);
      var j := WhereNumber(rows, 2);
      assert ns[0] <= ns[1];
    } else if |rows| == 3 {
      var i := WhereNumber(rows, 1);
      var j := WhereNumber(rows, 2);
      var k := WhereNumber(rows, 3);
      assert ns[0] <= ns[1] <= ns[2];
    }
  }

  /** The checker's test of the sorted numbers is the order-free one. */
  lemma NumberedWhenSorted(ordered: seq<ChoiceRow>, cs: seq<ChoiceRow>, node: nat)
    requires multiset(ordered) == multiset(cs) && InOrder(ordered)
    ensures var found := ChoicesAt(ordered, node);
      (|found| <= MAX_CHOICES && Numbers(found) == OneTo(|found|)) <==> Numbered(ChoicesAt(cs, node))
  {
    var found := ChoicesAt(ordered, node);
    ReorderedChoices(ordered, cs, node);
    ChoicesAtOrdered(ordered, node);
    assert Numbered(found) <==> Numbered(ChoicesAt(cs, node)) by {
      assert forall s :: HasNumber(found, s) <==> HasNumber(ChoicesAt(cs, node), s);
    }
    if Numbered(found) {
      ThreeInOrder(found);
    }
    if |found| <= MAX_CHOICES && Numbers(found) == OneTo(|found|) {
      forall s | 1 <= s <= |found| ensures HasNumber(found, s) {
        assert Numbers(found)[s - 1] == s && found[s - 1] in found;
      }
    }
  }

  // ── The checker ──

  datatype Problem =
    | StrayChoice(nodeId: nat)
    | RootCount(found: nat)
    | MissingParent(nodeId: nat)
    | TooManyChoices(nodeId: nat, found: nat)
    | BadNumbers(nodeId: nat, numbers: seq<int>)
    | MissingChild(nodeId: nat, childId: nat)
    | Unreachable(count: int)
    | Cyclic
    | BadVersion(version: int)

  function Firsts(found: seq<(int, nat)>): (s: seq<int>)
    ensures |s| == |found| && forall i :: 0 <= i < |s| ==> s[i] == found[i].0
  {
    seq(|found|, i requires 0 <= i < |found| => found[i].0)
  }

  function Seconds(found: seq<(int, nat)>): (s: seq<nat>)
    ensures |s| == |found| && forall i :: 0 <= i < |s| ==> s[i] == found[i].1
  {
    seq(|found|, i requires 0 <= i < |found| => found[i].1)
  }

  /** The lists the checker groups the ordered rows into. */
  ghost predicate Grouped(choices: map<nat, seq<(int, nat)>>, keys: set<nat>, rows: seq<ChoiceRow>) {
    choices.Keys == keys && forall n :: n in keys ==>
      Firsts(choices[n]) == Numbers(ChoicesAt(rows, n)) && Seconds(choices[n]) == Children(ChoicesAt(rows, n))
  }

  lemma GroupedNone(keys: set<nat>, choices: map<nat, seq<(int, nat)>>)
    requires choices.Keys == keys && forall n :: n in keys ==> choices[n] == []
    ensures Grouped(choices, keys, [])
  {}

  lemma GroupedMore(choices: map<nat, seq<(int, nat)>>, keys: set<nat>, rows: seq<ChoiceRow>, row: ChoiceRow)
    requires Grouped(choices, keys, rows)
    ensures row.nodeId !in keys ==> Grouped(choices, keys, rows + [row])
    ensures row.nodeId in keys ==>
      Grouped(choices[row.nodeId := choices[row.nodeId] + [(row.seqNo, row.childId)]], keys, rows + [row])
  {
    var rows' := rows + [row];
    assert rows'[..|rows|] == rows;
    if row.nodeId in keys {
      var n := row.nodeId;
      var longer := choices[n] + [(row.seqNo, row.childId)];
      assert Firsts(longer) == Firsts(choices[n]) + [row.seqNo];
      assert Seconds(longer) == Seconds(choices[n]) + [row.childId];
      assert Numbers(ChoicesAt(rows', n)) == Numbers(ChoicesAt(rows, n)) + [row.seqNo];
      assert Children(ChoicesAt(rows', n)) == Children(ChoicesAt(rows, n)) + [row.childId];
    }
  }

  // ── What each report claims ──

  ghost function RootSet(parents: map<nat, Option<nat>>): set<nat> {
    set n | n in parents && parents[n] == None
  }

  ghost predicate SomeChoice(cs: seq<ChoiceRow>, node: nat) {
    exists c :: c in cs && c.nodeId == node
  }

  ghost predicate SomeLink(cs: seq<ChoiceRow>, node: nat, child: nat) {
    exists c :: c in cs && c.nodeId == node && c.childId == child
  }

  /** A fault of the rows, said of the rows in whatever order. */
  ghost predicate RowFault(p: Problem, parents: map<nat, Option<nat>>, cs: seq<ChoiceRow>) {
    match p
    case StrayChoice(n) => n !in parents && SomeChoice(cs, n)
    case RootCount(found) => found == |RootSet(parents)| != 1
    case MissingParent(n) => n in parents && parents[n].Some? && parents[n].value !in parents
    case TooManyChoices(n, found) => n in parents && found == |ChoicesAt(cs, n)| > MAX_CHOICES
    case BadNumbers(n, s) =>
      n in parents && s != OneTo(|s|) && Ascending(s) && multiset(s) == multiset(Numbers(ChoicesAt(cs, n)))
    case MissingChild(n, child) => n in parents && child !in parents && SomeLink(cs, n, child)
    case _ => false
  }

  ghost function Lost(g: map<nat, seq<nat>>, root: nat): set<nat> {
    set n | n in g && !Reachable(g, root, n)
  }

  ghost predicate GraphFault(p: Problem, g: map<nat, seq<nat>>, root: nat) {
    match p
    case Unreachable(count) => count == |Lost(g, root)| > 0
    case Cyclic => exists c: seq<nat> :: CycleFrom(g, root, c)
    case _ => false
  }

  /** The graph is looked at only if the rows are in order. */
  ghost predicate Fault(p: Problem, ns: seq<NodeRow>, cs: seq<ChoiceRow>) {
    var parents := ParentMap(ns);
    || RowFault(p, parents, cs)
    || ((forall q: Problem :: !RowFault(q, parents, cs)) &&
        exists root :: OnlyRoot(parents, root) && GraphFault(p, ChildGraph(parents, cs), root))
  }

  method GroupChoices(parents: map<nat, Option<nat>>, ordered: seq<ChoiceRow>)
    returns (choices: map<nat, seq<(int, nat)>>, problems: seq<Problem>)
    ensures Grouped(choices, parents.Keys, ordered)
    ensures problems == [] <==> forall i :: 0 <= i < |ordered| ==> ordered[i].nodeId in parents
    ensures forall p :: p in problems <==> p.StrayChoice? && p.nodeId !in parents && SomeChoice(ordered, p.nodeId)
  {
    choices := map n | n in parents :: [];
    problems := [];
    var i := 0;
    hide Grouped;
    GroupedNone(parents.Keys, choices);
    assert ordered[..0] == [];
    while i < |ordered|
      invariant i <= |ordered| && choices.Keys == parents.Keys && Grouped(choices, parents.Keys, ordered[..i])
      invariant problems == [] <==> forall k :: 0 <= k < i ==> ordered[k].nodeId in parents
      invariant forall p :: p in problems <==>
        p.StrayChoice? && p.nodeId !in parents && SomeChoice(ordered[..i], p.nodeId)
    {
      var row := ordered[i];
      assert ordered[..i + 1] == ordered[..i] + [row];
      forall n ensures SomeChoice(ordered[..i + 1], n) <==> SomeChoice(ordered[..i], n) || n == row.nodeId {
        OneMoreChoice(ordered[..i], row, n);
      }
      GroupedMore(choices, parents.Keys, ordered[..i], row);
      if row.nodeId !in parents {
        problems := problems + [StrayChoice(row.nodeId)];
      } else {
        choices := choices[row.nodeId := choices[row.nodeId] + [(row.seqNo, row.childId)]];
      }
      i := i + 1;
    }
    assert ordered[..i] == ordered;
  }

  lemma OneMoreChoice(rows: seq<ChoiceRow>, row: ChoiceRow, n: nat)
    ensures SomeChoice(rows + [row], n) <==> SomeChoice(rows, n) || n == row.nodeId
  {
    if n == row.nodeId { assert row in rows + [row]; }
    if c :| c in rows && c.nodeId == n { assert c in rows + [row]; }
  }

  /** What the checker reports of one node. */
  ghost predicate NodeFault(p: Problem, parents: map<nat, Option<nat>>, choices: map<nat, seq<(int, nat)>>, n: nat)
    requires n in parents && n in choices
  {
    match p
    case MissingParent(m) => m == n && parents[n].Some? && parents[n].value !in parents
    case TooManyChoices(m, found) => m == n && found == |choices[n]| > MAX_CHOICES
    case BadNumbers(m, s) => m == n && s == Firsts(choices[n]) != OneTo(|choices[n]|)
    case MissingChild(m, child) => m == n && child !in parents && child in Seconds(choices[n])
    case _ => false
  }

  /** What the checker wants of one node. */
  ghost predicate NodeOk(parents: map<nat, Option<nat>>, choices: map<nat, seq<(int, nat)>>, n: nat)
    requires n in parents && n in choices
  {
    && (parents[n].Some? ==> parents[n].value in parents)
    && |choices[n]| <= MAX_CHOICES && Firsts(choices[n]) == OneTo(|choices[n]|)
    && forall i :: 0 <= i < |choices[n]| ==> choices[n][i].1 in parents
  }

  method CheckNode(parents: map<nat, Option<nat>>, choices: map<nat, seq<(int, nat)>>, n: nat)
    returns (problems: seq<Problem>)
    requires n in parents && n in choices
    ensures problems == [] <==> NodeOk(parents, choices, n)
    ensures forall p :: p in problems <==> NodeFault(p, parents, choices, n)
  {
    problems := [];
    if parents[n].Some? && parents[n].value !in parents { problems := problems + [MissingParent(n)]; }
    var found := choices[n];
    if |found| > MAX_CHOICES { problems := problems + [TooManyChoices(n, |found|)]; }
    if Firsts(found) != OneTo(|found|) { problems := problems + [BadNumbers(n, Firsts(found))]; }
    ghost var before := problems;
    var i := 0;
    while i < |found|
      invariant i <= |found|
      invariant problems == [] <==> before == [] && forall k :: 0 <= k < i ==> found[k].1 in parents
      invariant forall p :: p in problems <==>
        p in before || (p.MissingChild? && p.nodeId == n && p.childId !in parents && p.childId in Seconds(found)[..i])
    {
      assert Seconds(found)[..i + 1] == Seconds(found)[..i] + [found[i].1];
      if found[i].1 !in parents { problems := problems + [MissingChild(n, found[i].1)]; }
      i := i + 1;
    }
    assert Seconds(found)[..i] == Seconds(found);
  }

  method Roots(parents: map<nat, Option<nat>>) returns (roots: seq<nat>)
    ensures forall n :: n in roots <==> n in parents && parents[n] == None
    ensures Distinct(roots)
  {
    roots := [];
    var todo := parents.Keys;
    while todo != {}
      invariant todo <= parents.Keys
      invariant forall n :: n in roots <==> n in parents && n !in todo && parents[n] == None
      invariant Distinct(roots)
      decreases todo
    {
      var n :| n in todo;
      if parents[n] == None { roots := roots + [n]; }
      todo := todo - {n};
    }
  }

  /** The nodes a reader can get to, found with a stack. */
  method ReachedFrom(g: map<nat, seq<nat>>, root: nat) returns (seen: set<nat>)
    requires Closed(g) && root in g
    ensures seen <= g.Keys && forall n :: n in seen <==> Reachable(g, root, n)
  {
    hide Reachable, Edge;
    seen := {root};
    var stack := [root];
    SeenRoot(g, root);
    while stack != []
      invariant root in seen && seen <= g.Keys
      invariant forall n :: n in stack ==> n in seen
      invariant forall n :: n in seen ==> Reachable(g, root, n)
      invariant forall n :: n in seen && n !in stack ==> forall i :: 0 <= i < |g[n]| ==> g[n][i] in seen
      decreases g.Keys - seen, |stack|
    {
      var node := stack[|stack| - 1];
      ghost var stack0, seen0 := stack, seen;
      stack := stack[..|stack| - 1];
      assert stack0 == stack + [node];
      var children := g[node];
      var i := 0;
      while i < |children|
        invariant i <= |children|
        invariant seen0 <= seen <= g.Keys
        invariant forall n :: n in stack ==> n in seen
        invariant forall n :: n in stack0 && n != node ==> n in stack
        invariant forall n :: n in seen && n !in stack ==> n in seen0
        invariant forall n :: n in seen ==> Reachable(g, root, n)
        invariant forall k :: 0 <= k < i ==> children[k] in seen
        invariant seen == seen0 ==> stack == stack0[..|stack0| - 1]
      {
        var child := children[i];
        SeenChild(g, root, node, child);
        if child !in seen {
          assert child in g.Keys - seen;
          seen := seen + {child};
          stack := stack + [child];
          assert seen != seen0;
        }
        i := i + 1;
      }
    }
    NothingBeyond(g, root, seen);
  }

  lemma SeenRoot(g: map<nat, seq<nat>>, root: nat)
    requires root in g
    ensures Reachable(g, root, root)
  {
    assert PathFromTo(g, [root], root, root);
  }

  lemma SeenChild(g: map<nat, seq<nat>>, root: nat, node: nat, child: nat)
    requires Closed(g) && Reachable(g, root, node) && node in g && child in g[node]
    ensures Reachable(g, root, child) && child in g
  {
    var p :| PathFromTo(g, p, root, node);
    ExtendPath(g, p, root, node, child);
  }

  lemma {:induction false} PathInside(g: map<nat, seq<nat>>, root: nat, seen: set<nat>, p: seq<nat>)
    requires root in seen && forall n :: n in seen ==> n in g && forall i :: 0 <= i < |g[n]| ==> g[n][i] in seen
    requires IsPath(g, p) && p[0] == root
    ensures p[|p| - 1] in seen
    decreases |p|
  {
    if |p| > 1 {
      DropLast(g, p);
      PathInside(g, root, seen, p[..|p| - 1]);
    }
  }

  lemma NothingBeyond(g: map<nat, seq<nat>>, root: nat, seen: set<nat>)
    requires root in seen && forall n :: n in seen ==> n in g && forall i :: 0 <= i < |g[n]| ==> g[n][i] in seen
    ensures forall n :: Reachable(g, root, n) ==> n in seen
  {
    forall n, p | PathFromTo(g, p, root, n) ensures n in seen {
      PathInside(g, root, seen, p);
    }
  }

  function PairGraph(choices: map<nat, seq<(int, nat)>>): (g: map<nat, seq<nat>>)
    ensures g.Keys == choices.Keys && forall n :: n in g ==> g[n] == Seconds(choices[n])
  {
    map n | n in choices :: Seconds(choices[n])
  }

  method CheckGraph(root: nat, choices: map<nat, seq<(int, nat)>>) returns (problems: seq<Problem>)
    requires root in choices && Closed(PairGraph(choices))
    ensures problems == [] <==> SoundGraph(PairGraph(choices), root)
    ensures forall p :: p in problems <==> GraphFault(p, PairGraph(choices), root)
  {
    hide CycleFrom, Reachable;
    var g := PairGraph(choices);
    var seen := ReachedFrom(g, root);
    problems := [];
    assert |choices| == |choices.Keys| == |g.Keys|;
    SameSize(seen, g.Keys);
    assert Lost(g, root) == g.Keys - seen;
    if |seen| != |choices| {
      problems := problems + [Unreachable(|choices| - |seen|)];
    }
    var cyclic := CycleSearch.HasCycle(g, root);
    if cyclic { problems := problems + [Cyclic]; }
  }

  lemma SameSize(a: set<nat>, b: set<nat>)
    requires a <= b
    ensures |a| == |b| <==> forall n :: n in b ==> n in a
  {
    assert |b - a| == |b| - |a|;
    if |a| == |b| { assert b - a == {}; }
    if forall n :: n in b ==> n in a { assert a == b; }
  }

  // ── One book ──

  lemma RowAtItsNode(rows: seq<ChoiceRow>, node: nat, c: ChoiceRow)
    ensures c in ChoicesAt(rows, node) <==> c in rows && c.nodeId == node
  {
    ChoicesAtCounts(rows, node, c);
    assert c in ChoicesAt(rows, node) <==> c in multiset(ChoicesAt(rows, node));
    assert c in rows <==> c in multiset(rows);
  }

  ghost predicate ChildrenKnown(parents: map<nat, Option<nat>>, rows: seq<ChoiceRow>) {
    forall c :: c in rows ==> c.childId in parents
  }

  lemma NodeOkIff(parents: map<nat, Option<nat>>, choices: map<nat, seq<(int, nat)>>, ordered: seq<ChoiceRow>,
                  cs: seq<ChoiceRow>, n: nat)
    requires multiset(ordered) == multiset(cs) && InOrder(ordered) && Grouped(choices, parents.Keys, ordered)
    requires n in parents
    ensures NodeOk(parents, choices, n) <==>
      && (parents[n].Some? ==> parents[n].value in parents)
      && Numbered(ChoicesAt(cs, n)) && ChildrenKnown(parents, ChoicesAt(ordered, n))
  {
    hide InOrder, Numbered, ChoicesAt;
    NumberedWhenSorted(ordered, cs, n);
    var found, rows := choices[n], ChoicesAt(ordered, n);
    assert |found| == |Firsts(found)| == |rows|;
    forall i | 0 <= i < |rows| ensures found[i].1 == rows[i].childId {
      assert Seconds(found)[i] == Children(rows)[i];
    }
    if ChildrenKnown(parents, rows) {
      forall i | 0 <= i < |found| ensures found[i].1 in parents { assert rows[i] in rows; }
    }
  }

  lemma SameMembers(ordered: seq<ChoiceRow>, cs: seq<ChoiceRow>)
    requires multiset(ordered) == multiset(cs)
    ensures forall c :: c in ordered <==> c in cs
  {
    forall c: ChoiceRow ensures c in ordered <==> c in cs {
      assert c in ordered <==> c in multiset(ordered);
      assert c in cs <==> c in multiset(cs);
    }
  }

  /** With the rows ordered and grouped, the checker's conditions are the sound ones. */
  lemma GroupedNodes(parents: map<nat, Option<nat>>, choices: map<nat, seq<(int, nat)>>, ordered: seq<ChoiceRow>,
    cs: seq<ChoiceRow>)
    requires multiset(ordered) == multiset(cs) && InOrder(ordered) && Grouped(choices, parents.Keys, ordered)
    ensures SoundRows(parents, cs) <==>
      (forall i :: 0 <= i < |ordered| ==> ordered[i].nodeId in parents)
        && (forall n :: n in parents ==> NodeOk(parents, choices, n))
  {
    hide InOrder, Numbered, ChoicesAt, NodeOk;
    SameMembers(ordered, cs);
    forall n | n in parents
      ensures NodeOk(parents, choices, n) <==>
        && (parents[n].Some? ==> parents[n].value in parents)
        && Numbered(ChoicesAt(cs, n)) && ChildrenKnown(parents, ChoicesAt(ordered, n))
    {
      NodeOkIff(parents, choices, ordered, cs, n);
    }
    if SoundRows(parents, cs) {
      forall c | c in cs ensures c.nodeId in parents && c.childId in parents {}
      forall n | n in parents ensures ChildrenKnown(parents, ChoicesAt(ordered, n)) {
        forall c | c in ChoicesAt(ordered, n) ensures c.childId in parents { RowAtItsNode(ordered, n, c); }
      }
    }
    if (forall i :: 0 <= i < |ordered| ==> ordered[i].nodeId in parents)
      && (forall n :: n in parents ==> NodeOk(parents, choices, n)) {
      forall i | 0 <= i < |cs| ensures cs[i].nodeId in parents && cs[i].childId in parents {
        var c := cs[i];
        assert c in ordered;
        assert c.nodeId in parents;
        RowAtItsNode(ordered, c.nodeId, c);
        assert ChildrenKnown(parents, ChoicesAt(ordered, c.nodeId));
      }
    }
  }

  lemma SamePairEdges(parents: map<nat, Option<nat>>, choices: map<nat, seq<(int, nat)>>, ordered: seq<ChoiceRow>,
    cs: seq<ChoiceRow>)
    requires multiset(ordered) == multiset(cs) && Grouped(choices, parents.Keys, ordered)
    ensures var g, h := PairGraph(choices), ChildGraph(parents, cs);
      g.Keys == h.Keys && forall a :: a in g ==> forall b :: b in g[a] <==> b in h[a]
  {
    hide ChoicesAt, Numbers, Children, Firsts, Seconds;
    var g, h := PairGraph(choices), ChildGraph(parents, cs);
    forall a | a in g ensures forall b :: b in g[a] <==> b in h[a] {
      ReorderedChoices(ordered, cs, a);
      assert g[a] == Seconds(choices[a]) == Children(ChoicesAt(ordered, a));
      ChildMembers(ChoicesAt(ordered, a), ChoicesAt(cs, a));
    }
  }

  lemma ChildGraphClosed(parents: map<nat, Option<nat>>, cs: seq<ChoiceRow>)
    requires SoundRows(parents, cs)
    ensures Closed(ChildGraph(parents, cs))
  {
    hide ChoicesAt, Numbered;
    var h := ChildGraph(parents, cs);
    forall a, b | a in h && b in h[a] ensures b in h {
      var i :| 0 <= i < |h[a]| && h[a][i] == b;
      var c := ChoicesAt(cs, a)[i];
      assert c in ChoicesAt(cs, a);
      RowAtItsNode(cs, a, c);
    }
  }

  lemma SameEdges(g: map<nat, seq<nat>>, h: map<nat, seq<nat>>, root: nat)
    requires g.Keys == h.Keys && forall a :: a in g ==> forall b :: b in g[a] <==> b in h[a]
    ensures Closed(g) <==> Closed(h)
    ensures SoundGraph(g, root) <==> SoundGraph(h, root)
    ensures forall p :: GraphFault(p, g, root) <==> GraphFault(p, h, root)
  {
    hide IsPath;
    forall p: seq<nat> ensures IsPath(g, p) <==> IsPath(h, p) { SameEdgesSamePath(g, h, p); }
    forall n ensures Reachable(g, root, n) <==> Reachable(h, root, n) { SameReach(g, h, root, n); }
    hide Reachable;
    assert forall c: seq<nat> :: CycleFrom(g, root, c) <==> CycleFrom(h, root, c);
    assert Lost(g, root) == Lost(h, root);
  }

  /** The graph the checker walks has the same edges as the graph of the rows. */
  lemma SameGraph(parents: map<nat, Option<nat>>, choices: map<nat, seq<(int, nat)>>, ordered: seq<ChoiceRow>,
    cs: seq<ChoiceRow>, root: nat)
    requires multiset(ordered) == multiset(cs) && Grouped(choices, parents.Keys, ordered) && SoundRows(parents, cs)
    ensures Closed(PairGraph(choices))
    ensures SoundGraph(PairGraph(choices), root) <==> SoundGraph(ChildGraph(parents, cs), root)
    ensures forall p :: GraphFault(p, PairGraph(choices), root) <==> GraphFault(p, ChildGraph(parents, cs), root)
  {
    hide GraphFault, SoundGraph, Closed, SoundRows, Grouped, PairGraph, ChildGraph;
    SamePairEdges(parents, choices, ordered, cs);
    ChildGraphClosed(parents, cs);
    SameEdges(PairGraph(choices), ChildGraph(parents, cs), root);
  }

  lemma ChildMembers(a: seq<ChoiceRow>, b: seq<ChoiceRow>)
    requires forall c :: c in a <==> c in b
    ensures forall n :: n in Children(a) <==> n in Children(b)
  {
    forall n | n in Children(a) ensures n in Children(b) {
      var i :| 0 <= i < |a| && Children(a)[i] == n;
      assert a[i] in b;
      var j :| 0 <= j < |b| && b[j] == a[i];
      assert Children(b)[j] == n;
    }
    forall n | n in Children(b) ensures n in Children(a) {
      var i :| 0 <= i < |b| && Children(b)[i] == n;
      assert b[i] in a;
      var j :| 0 <= j < |a| && a[j] == b[i];
      assert Children(a)[j] == n;
    }
  }

  lemma SameReach(g: map<nat, seq<nat>>, h: map<nat, seq<nat>>, s: nat, t: nat)
    requires forall p: seq<nat> :: IsPath(g, p) <==> IsPath(h, p)
    ensures Reachable(g, s, t) <==> Reachable(h, s, t)
  {
    assert forall p :: PathFromTo(g, p, s, t) <==> PathFromTo(h, p, s, t);
  }

  lemma OneRoot(parents: map<nat, Option<nat>>, roots: seq<nat>)
    requires Distinct(roots) && forall n :: n in roots <==> n in parents && parents[n] == None
    ensures |roots| == 1 ==> OnlyRoot(parents, roots[0])
    ensures (exists r :: OnlyRoot(parents, r)) ==> |roots| == 1
    ensures forall r :: OnlyRoot(parents, r) ==> |roots| == 1 && roots[0] == r
  {
    if |roots| == 1 {
      assert roots[0] in roots;
      forall n | n in parents && parents[n] == None ensures n == roots[0] { assert n in roots; }
    }
    assert |roots| > 1 ==> roots[0] in roots && roots[1] in roots;
    forall r | OnlyRoot(parents, r) ensures |roots| == 1 && roots[0] == r {
      assert r in roots && roots[0] in roots;
    }
  }

  // ── What is reported is exactly what is wrong ──

  lemma DropAt<T>(s: seq<T>, j: nat)
    requires j < |s|
    ensures multiset(s[..j] + s[j + 1..]) == multiset(s) - multiset{s[j]}
  {
    assert s == s[..j] + [s[j]] + s[j + 1..];
  }

  lemma WithoutLast<T>(s: seq<T>)
    requires s != []
    ensures var k := |s| - 1;
      multiset(s[..k]) == multiset(s) - multiset{s[k]} && multiset(s) == multiset(s[..k]) + multiset{s[k]}
  {
    assert s == s[..|s| - 1] + [s[|s| - 1]];
  }

  lemma NumbersWithout(b: seq<ChoiceRow>, j: nat)
    requires j < |b|
    ensures multiset(Numbers(b)) == multiset(Numbers(b[..j] + b[j + 1..])) + multiset{b[j].seqNo}
  {
    NumbersConcat(b[..j], b[j + 1..]);
    NumbersConcat(b[..j], [b[j]]);
    NumbersConcat(b[..j] + [b[j]], b[j + 1..]);
    assert Numbers([b[j]]) == [b[j].seqNo];
    hide Numbers;
    assert b == b[..j] + [b[j]] + b[j + 1..];
  }

  lemma NumbersConcat(a: seq<ChoiceRow>, b: seq<ChoiceRow>)
    ensures Numbers(a + b) == Numbers(a) + Numbers(b)
  {}

  lemma {:induction false} SameNumbers(a: seq<ChoiceRow>, b: seq<ChoiceRow>)
    requires multiset(a) == multiset(b)
    ensures multiset(Numbers(a)) == multiset(Numbers(b))
  {
    if a == [] {
      assert |multiset(b)| == |b|;
    } else {
      var k := |a| - 1;
      assert a[k] in multiset(a);
      var j :| 0 <= j < |b| && b[j] == a[k];
      var less := b[..j] + b[j + 1..];
      WithoutLast(a);
      DropAt(b, j);
      SameNumbers(a[..k], less);
      NumbersWithout(b, j);
      NumbersWithout(a, k);
      assert a[..k] + a[k + 1..] == a[..k];
    }
  }

  /** Numbers in order are determined by which they are. */
  lemma {:induction false} OneOrder(s: seq<int>, t: seq<int>)
    requires Ascending(s) && Ascending(t) && multiset(s) == multiset(t)
    ensures s == t
    decreases |s|
  {
    hide Ascending;
    SameLength(s, t);
    if s != [] {
      var k := |s| - 1;
      LargestSame(s, t);
      FrontsSame(s, t);
      OneOrder(s[..k], t[..k]);
      LastAgain(s, t);
    }
  }

  lemma SameLength(s: seq<int>, t: seq<int>)
    requires multiset(s) == multiset(t)
    ensures |s| == |t|
  {
    assert |s| == |multiset(s)| && |t| == |multiset(t)|;
  }

  lemma FrontsSame(s: seq<int>, t: seq<int>)
    requires multiset(s) == multiset(t) && |s| == |t| > 0 && s[|s| - 1] == t[|t| - 1] && Ascending(s) && Ascending(t)
    ensures var k := |s| - 1;
      multiset(s[..k]) == multiset(t[..k]) && Ascending(s[..k]) && Ascending(t[..k])
  {
    WithoutLast(s);
    WithoutLast(t);
  }

  lemma LastAgain(s: seq<int>, t: seq<int>)
    requires |s| == |t| > 0 && s[|s| - 1] == t[|t| - 1] && s[..|s| - 1] == t[..|t| - 1]
    ensures s == t
  {
    assert s == s[..|s| - 1] + [s[|s| - 1]] && t == t[..|t| - 1] + [t[|t| - 1]];
  }

  lemma LargestSame(s: seq<int>, t: seq<int>)
    requires Ascending(s) && Ascending(t) && multiset(s) == multiset(t) && |s| == |t| > 0
    ensures s[|s| - 1] == t[|t| - 1]
  {
    var k := |s| - 1;
    assert s[k] in multiset(s) && t[k] in multiset(t);
    var i :| 0 <= i < |t| && t[i] == s[k];
    var j :| 0 <= j < |s| && s[j] == t[k];
  }

  lemma {:induction false} MembersSize(s: seq<nat>, m: set<nat>)
    requires Distinct(s) && forall n :: n in s <==> n in m
    ensures |m| == |s|
  {
    if s == [] {
      assert m == {};
    } else {
      var k := |s| - 1;
      assert s == s[..k] + [s[k]] && s[k] !in s[..k];
      MembersSize(s[..k], m - {s[k]});
    }
  }

  lemma BadNumbersMatch(parents: map<nat, Option<nat>>, choices: map<nat, seq<(int, nat)>>, ordered: seq<ChoiceRow>,
                        cs: seq<ChoiceRow>, n: nat, s: seq<int>)
    requires multiset(ordered) == multiset(cs) && InOrder(ordered) && Grouped(choices, parents.Keys, ordered)
    requires n in parents
    ensures (s == Firsts(choices[n]) != OneTo(|choices[n]|)) <==>
      s != OneTo(|s|) && Ascending(s) && multiset(s) == multiset(Numbers(ChoicesAt(cs, n)))
  {
    var found := Numbers(ChoicesAt(ordered, n));
    assert Firsts(choices[n]) == found;
    assert |choices[n]| == |found|;
    ChoicesAtOrdered(ordered, n);
    ReorderedChoices(ordered, cs, n);
    SameNumbers(ChoicesAt(ordered, n), ChoicesAt(cs, n));
    hide ChoicesAt, Numbers, Grouped, InOrder, Ascending;
    if Ascending(s) && multiset(s) == multiset(found) { OneOrder(s, found); }
  }

  /** A fault of the grouped rows, as the checker meets it. */
  ghost predicate Met(p: Problem, parents: map<nat, Option<nat>>, choices: map<nat, seq<(int, nat)>>,
                      ordered: seq<ChoiceRow>, roots: nat)
    requires choices.Keys == parents.Keys
  {
    || (p.StrayChoice? && p.nodeId !in parents && SomeChoice(ordered, p.nodeId))
    || (p == RootCount(roots) && roots != 1)
    || exists n :: n in parents && NodeFault(p, parents, choices, n)
  }

  lemma MetIsFault(p: Problem, parents: map<nat, Option<nat>>, choices: map<nat, seq<(int, nat)>>,
                   ordered: seq<ChoiceRow>, cs: seq<ChoiceRow>, roots: seq<nat>)
    requires multiset(ordered) == multiset(cs) && InOrder(ordered) && Grouped(choices, parents.Keys, ordered)
    requires choices.Keys == parents.Keys
    requires Distinct(roots) && forall n :: n in roots <==> n in parents && parents[n] == None
    ensures Met(p, parents, choices, ordered, |roots|) <==> RowFault(p, parents, cs)
  {
    hide ChoicesAt, InOrder, Ascending;
    SameMembers(ordered, cs);
    MembersSize(roots, RootSet(parents));
    match p {
      case StrayChoice(n) =>
      case RootCount(found) =>
      case MissingParent(n) =>
        if n in parents { assert NodeFault(p, parents, choices, n) <==> RowFault(p, parents, cs); }
      case TooManyChoices(n, found) =>
        if n in parents {
          ReorderedChoices(ordered, cs, n);
          assert |choices[n]| == |Firsts(choices[n])| == |ChoicesAt(ordered, n)|;
          assert NodeFault(p, parents, choices, n) <==> RowFault(p, parents, cs);
        }
      case BadNumbers(n, s) =>
        if n in parents {
          BadNumbersMatch(parents, choices, ordered, cs, n, s);
          assert NodeFault(p, parents, choices, n) <==> RowFault(p, parents, cs);
        }
      case MissingChild(n, child) =>
        if n in parents {
          LinkMatch(parents, choices, ordered, cs, n, child);
          assert NodeFault(p, parents, choices, n) <==> RowFault(p, parents, cs);
        }
      case _ =>
    }
  }

  lemma LinkMatch(parents: map<nat, Option<nat>>, choices: map<nat, seq<(int, nat)>>, ordered: seq<ChoiceRow>,
                  cs: seq<ChoiceRow>, n: nat, child: nat)
    requires multiset(ordered) == multiset(cs) && Grouped(choices, parents.Keys, ordered) && n in parents
    ensures child in Seconds(choices[n]) <==> SomeLink(cs, n, child)
  {
    hide ChoicesAt;
    SameMembers(ordered, cs);
    var rows := ChoicesAt(ordered, n);
    assert Seconds(choices[n]) == Children(rows);
    forall c ensures c in rows <==> c in cs && c.nodeId == n { RowAtItsNode(ordered, n, c); }
    if child in Children(rows) {
      var i :| 0 <= i < |rows| && Children(rows)[i] == child;
      assert rows[i] in rows;
    }
    if c :| c in cs && c.nodeId == n && c.childId == child {
      assert c in rows;
      var i :| 0 <= i < |rows| && rows[i] == c;
      assert Children(rows)[i] == child;
    }
  }

  lemma RowFaultIsFault(ns: seq<NodeRow>, cs: seq<ChoiceRow>, q: Problem, p: Problem)
    requires RowFault(q, ParentMap(ns), cs)
    ensures Fault(p, ns, cs) <==> RowFault(p, ParentMap(ns), cs)
  {
    hide RowFault, GraphFault, OnlyRoot, ParentMap;
  }

  lemma GraphFaultIsFault(ns: seq<NodeRow>, cs: seq<ChoiceRow>, root: nat, p: Problem)
    requires (forall q: Problem :: !RowFault(q, ParentMap(ns), cs)) && OnlyRoot(ParentMap(ns), root)
    ensures Fault(p, ns, cs) <==> GraphFault(p, ChildGraph(ParentMap(ns), cs), root)
  {
    hide RowFault, GraphFault, ParentMap, ChildGraph;
  }

  /** No problem is reported exactly when the book's rows are sound, and what is
      reported is exactly what is wrong with them. */
  method CheckBook(ns: seq<NodeRow>, cs: seq<ChoiceRow>) returns (problems: seq<Problem>)
    ensures problems == [] <==> Sound(ns, cs)
    ensures forall p :: p in problems <==> Fault(p, ns, cs)
  {
    hide InOrder, ChoicesAt, NodeOk, SoundRows, SoundGraph, Grouped, OnlyRoot, Closed, ChildGraph, PairGraph;
    hide RowFault, GraphFault, NodeFault, SomeChoice, Fault;
    var parents: map<nat, Option<nat>> := map[];
    var i := 0;
    while i < |ns|
      invariant i <= |ns| && parents == ParentMap(ns[..i])
    {
      assert ns[..i + 1][..i] == ns[..i];
      parents := parents[ns[i].nodeId := ns[i].parentId];
      i := i + 1;
    }
    assert ns[..i] == ns;
    var ordered := OrderRows(cs);
    var choices;
    choices, problems := GroupChoices(parents, ordered);
    GroupedKeys(choices, parents.Keys, ordered);
    var roots := Roots(parents);
    OneRoot(parents, roots);
    if |roots| != 1 { problems := problems + [RootCount(|roots|)]; }
    ghost var before := problems;
    var todo := parents.Keys;
    while todo != {}
      invariant todo <= parents.Keys
      invariant problems == [] <==>
        before == [] && forall n :: n in parents && n !in todo ==> NodeOk(parents, choices, n)
      invariant forall p :: p in problems <==>
        p in before || exists n :: n in parents && n !in todo && NodeFault(p, parents, choices, n)
      decreases todo
    {
      var n :| n in todo;
      var more := CheckNode(parents, choices, n);
      problems := problems + more;
      todo := todo - {n};
    }
    GroupedNodes(parents, choices, ordered, cs);
    forall p ensures p in problems <==> RowFault(p, parents, cs) {
      MetIsFault(p, parents, choices, ordered, cs, roots);
    }
    assert |roots| != 1 ==> RootCount(|roots|) in problems;
    if problems != [] {
      forall p ensures p in problems <==> Fault(p, ns, cs) { RowFaultIsFault(ns, cs, problems[0], p); }
    }
    if |roots| == 1 && problems == [] {
      SameGraph(parents, choices, ordered, cs, roots[0]);
      RootKnown(parents, roots[0]);
      forall p ensures Fault(p, ns, cs) <==> GraphFault(p, ChildGraph(parents, cs), roots[0]) {
        GraphFaultIsFault(ns, cs, roots[0], p);
      }
      problems := CheckGraph(roots[0], choices);
    }
  }

  lemma GroupedKeys(choices: map<nat, seq<(int, nat)>>, keys: set<nat>, rows: seq<ChoiceRow>)
    requires Grouped(choices, keys, rows)
    ensures choices.Keys == keys
  {}

  lemma RootKnown(parents: map<nat, Option<nat>>, r: nat)
    requires OnlyRoot(parents, r)
    ensures r in parents
  {}

  ghost predicate FaultOf(p: Problem, t: Tables, id: nat) {
    Fault(p, NodeRows(t.nodes, id), ChoiceRows(t.choices, id))
  }

  /** No problem is reported exactly when the whole database is sound; otherwise
      all that is wrong with the books is, or just the version. */
  method CheckDatabase(t: Tables) returns (problems: seq<Problem>)
    ensures problems == [] <==> SoundTables(t)
    ensures t.version != SCHEMA_VERSION ==> problems == [BadVersion(t.version)]
    ensures t.version == SCHEMA_VERSION ==>
      forall p :: p in problems <==> exists i :: 0 <= i < |t.books| && FaultOf(p, t, t.books[i].bookId)
  {
    hide Sound, Fault;
    problems := [];
    if t.version != SCHEMA_VERSION { return [BadVersion(t.version)]; }
    var i := 0;
    while i < |t.books|
      invariant i <= |t.books|
      invariant problems == [] <==> forall k :: 0 <= k < i ==> SoundBook(t, t.books[k].bookId)
      invariant forall p :: p in problems <==> exists k :: 0 <= k < i && FaultOf(p, t, t.books[k].bookId)
    {
      var id := t.books[i].bookId;
      var more := CheckBook(NodeRows(t.nodes, id), ChoiceRows(t.choices, id));
      assert forall p :: p in more <==> FaultOf(p, t, t.books[i].bookId);
      problems := problems + more;
      i := i + 1;
    }
  }
}
