/** The graph of the jobs of an experiment, stored as the rows of a table and read back. */
module Structure {
  import opened Sequences

  type Edge = (string, string)

  datatype Graph = Graph(nodes: set<string>, edges: set<Edge>) {
    ghost predicate Valid() { forall e :: e in edges ==> e.0 in nodes && e.1 in nodes }

    function Successors(u: string): set<string> { set e | e in edges && e.0 == u :: e.1 }
  }

  /** The nodes that edges or rows mention. */
  function Ends(edges: set<Edge>): set<string> { (set e | e in edges :: e.0) + (set e | e in edges :: e.1) }

  predicate Isolated(g: Graph, u: string) { u !in Ends(g.edges) }

  /** The rows of a graph: its edges, and a loop for every isolated node. */
  function Rows(g: Graph): set<Edge> { g.edges + set u | u in g.nodes && Isolated(g, u) :: (u, u) }

  type Successors = map<string, seq<string>>

  function SetDefault(s: Successors, u: string): Successors { if u in s then s else s[u := []] }

  function AddRow(s: Successors, row: Edge): Successors {
    var s1 := SetDefault(s, row.0);
    SetDefault(s1[row.0 := s1[row.0] + [row.1]], row.1)
  }

  /** What is read from the rows. */
  function FromRows(rows: seq<Edge>): Successors {
    if rows == [] then map[] else AddRow(FromRows(rows[..|rows|-1]), rows[|rows|-1])
  }

  /** `experiment_structure`. No row is in it twice. */
  class Table {
    var rows: set<Edge>

    constructor (rows: set<Edge>)
      ensures this.rows == rows
    {
      this.rows := rows;
    }

    method DeleteAll()
      modifies this
      ensures rows == {}
    {
      rows := {};
    }

    method InsertMany(data: set<Edge>)
      modifies this
      ensures rows == old(rows) + data
    {
      rows := rows + data;
    }

    /** `save_structure`: whatever was in the table is gone. */
    method SaveStructure(g: Graph)
      modifies this
      ensures rows == Rows(g)
    {
      DeleteAll();
      var nodesEdges := set e | e in g.edges :: e.0;
      nodesEdges := nodesEdges + set e | e in g.edges :: e.1;
      var independent := set u | u in g.nodes && u !in nodesEdges;
      var data := g.edges;
      data := data + set u | u in independent :: (u, u);
      InsertMany(data);
    }
  }

  /** `get_structure`, for the order in which the database gives the rows. */
  method GetStructure(rows: seq<Edge>) returns (structure: Successors)
    ensures structure == FromRows(rows)
  {
    structure := map[];
    for i := 0 to |rows|
      invariant structure == FromRows(rows[..i])
    {
      assert rows[..i + 1][..i] == rows[..i];
      var (from, to) := rows[i];
      if from !in structure { structure := structure[from := []]; }
      structure := structure[from := structure[from] + [to]];
      if to !in structure { structure := structure[to := []]; }
    }
    assert rows[..|rows|] == rows;
  }

  // ---------------------------------------------------------------- what is read

  /** An order of the rows of a table. */
  ghost predicate InSomeOrder(rows: seq<Edge>, table: set<Edge>) {
    NoRepeats(rows) && forall e :: e in rows <==> e in table
  }

  /** Exactly the nodes mentioned are keys, and each leads to its targets, without repeats. */
  ghost predicate ReadFrom(s: Successors, rows: seq<Edge>) {
    && (forall u :: u in s <==> exists e :: e in rows && (e.0 == u || e.1 == u))
    && (forall u :: u in s ==> NoRepeats(s[u]))
    && (forall u, v :: u in s ==> (v in s[u] <==> (u, v) in rows))
  }

  lemma ReadFromNone()
    ensures ReadFrom(map[], [])
  {}

  lemma {:induction false} FromRowsExactly(rows: seq<Edge>)
    requires NoRepeats(rows)
    ensures ReadFrom(FromRows(rows), rows)
  {
    hide ReadFrom, AddRow;
    if rows == [] {
      ReadFromNone();
    } else {
      var init, last := rows[..|rows|-1], rows[|rows|-1];
      assert rows == init + [last];
      FromRowsExactly(init);
      assert last !in init;
      AddRowExactly(FromRows(init), last, init);
    }
  }

  lemma AddRowKeys(s: Successors, row: Edge, init: seq<Edge>)
    requires forall u :: u in s <==> exists e :: e in init && (e.0 == u || e.1 == u)
    ensures forall u :: u in AddRow(s, row) <==> exists e :: e in init + [row] && (e.0 == u || e.1 == u)
  {
    var s', rows := AddRow(s, row), init + [row];
    assert row in rows && s'.Keys == s.Keys + {row.0, row.1};
    hide AddRow;
    forall u ensures u in s' <==> exists e :: e in rows && (e.0 == u || e.1 == u) {
      if e :| e in init && (e.0 == u || e.1 == u) { assert e in rows; }
    }
  }

  lemma AddRowValues(s: Successors, row: Edge, init: seq<Edge>)
    requires row !in init
    requires forall u, v :: u !in s ==> (u, v) !in init
    requires forall u :: u in s ==> NoRepeats(s[u])
    requires forall u, v :: u in s ==> (v in s[u] <==> (u, v) in init)
    ensures forall u :: u in AddRow(s, row) ==> NoRepeats(AddRow(s, row)[u])
    ensures forall u, v :: u in AddRow(s, row) ==> (v in AddRow(s, row)[u] <==> (u, v) in init + [row])
  {
    var s' := AddRow(s, row);
    forall u | u in s' ensures s'[u] == (if u in s then s[u] else []) + if u == row.0 then [row.1] else [] {}
    hide AddRow;
    assert row.0 in s ==> row.1 !in s[row.0] by { if row.0 in s { assert (row.0, row.1) == row; } }
  }

  lemma AddRowExactly(s: Successors, row: Edge, init: seq<Edge>)
    requires row !in init && ReadFrom(s, init)
    ensures ReadFrom(AddRow(s, row), init + [row])
  {
    hide AddRow, NoRepeats;
    AddRowKeys(s, row, init);
    forall u, v | u !in s ensures (u, v) !in init {}
    AddRowValues(s, row, init);
  }

  /** The loops on nodes without any other edge. */
  ghost function LoneLoops(edges: set<Edge>): set<Edge> {
    set e | e in edges && IsLone(edges, e)
  }

  ghost predicate IsLone(edges: set<Edge>, e: Edge) {
    e.0 == e.1 && forall f :: f in edges && (f.0 == e.0 || f.1 == e.0) ==> f == e
  }

  /** The edges that a structure lists. */
  ghost function Listed(s: Successors): set<Edge> { set u, v | u in s && v in s[u] :: (u, v) }

  /** The graph that a structure stands for: a loop without any other edge is an isolated node. */
  ghost function Recovered(s: Successors): Graph { Graph(s.Keys, Listed(s) - LoneLoops(Listed(s))) }

  lemma RowsExactly(g: Graph, e: Edge)
    ensures e in Rows(g) <==> e in g.edges || (e.0 == e.1 && e.0 in g.nodes && Isolated(g, e.0))
  {
    if e.0 == e.1 { assert e == (e.0, e.0); }
  }

  lemma RowsMention(g: Graph, u: string)
    requires g.Valid()
    ensures u in g.nodes <==> exists e :: e in Rows(g) && (e.0 == u || e.1 == u)
  {
    if u in g.nodes {
      if Isolated(g, u) {
        assert (u, u) in Rows(g);
      } else {
        var e :| e in g.edges && (e.0 == u || e.1 == u);
        assert e in Rows(g);
      }
    }
    if e :| e in Rows(g) && (e.0 == u || e.1 == u) { RowsExactly(g, e); }
  }

  lemma ReadBack(g: Graph, rows: seq<Edge>)
    requires g.Valid() && InSomeOrder(rows, Rows(g))
    ensures var s := FromRows(rows);
      && s.Keys == g.nodes
      && (forall u :: u in s ==> NoRepeats(s[u]))
      && (forall u, v :: u in s ==> (v in s[u] <==> (u, v) in Rows(g)))
  {
    FromRowsExactly(rows);
    forall u ensures u in FromRows(rows) <==> u in g.nodes {
      RowsMention(g, u);
      hide Rows;
      if e :| e in Rows(g) && (e.0 == u || e.1 == u) { assert e in rows; }
    }
  }

  lemma OneElement(s: seq<string>, u: string)
    requires NoRepeats(s) && forall v :: v in s <==> v == u
    ensures s == [u]
  {
    assert u in s;
    forall i | 0 <= i < |s| ensures s[i] == u { assert s[i] in s; }
    assert s[|s|-1] == s[0];
  }

  lemma IsolatedRows(g: Graph, u: string, v: string)
    requires g.Valid() && u in g.nodes
    ensures Isolated(g, u) ==> ((u, v) in Rows(g) <==> v == u)
    ensures !Isolated(g, u) ==> ((u, v) in Rows(g) <==> v in g.Successors(u))
  {
    RowsExactly(g, (u, v));
    if (u, v) in g.edges { assert (u, v).0 == u && (u, v).1 == v; }
    if e :| e in g.edges && e.0 == u && e.1 == v { assert e == (u, v); }
  }

  /** A graph without loops is read back as it was saved, whatever the order of the rows: its
      nodes are the keys, an isolated one leads to itself only, the others to their successors. */
  lemma StructureRoundTrip(g: Graph, rows: seq<Edge>)
    requires g.Valid() && InSomeOrder(rows, Rows(g))
    ensures var s := FromRows(rows);
      && s.Keys == g.nodes
      && (forall u :: u in s ==> NoRepeats(s[u]))
      && (forall u :: u in s && Isolated(g, u) ==> s[u] == [u])
      && (forall u, v :: u in s && !Isolated(g, u) ==> (v in s[u] <==> v in g.Successors(u)))
  {
    var s := FromRows(rows);
    ReadBack(g, rows);
    hide FromRows, Rows, Isolated;
    forall u, v | u in s
      ensures Isolated(g, u) ==> (v in s[u] <==> v == u)
      ensures !Isolated(g, u) ==> (v in s[u] <==> v in g.Successors(u))
    {
      IsolatedRows(g, u, v);
    }
    forall u | u in s && Isolated(g, u) ensures s[u] == [u] { OneElement(s[u], u); }
  }

  lemma CoreOfRows(g: Graph)
    requires g.Valid()
    ensures Rows(g) - LoneLoops(Rows(g)) == g.edges - LoneLoops(g.edges)
  {
    forall e | e in g.edges ensures IsLone(Rows(g), e) <==> IsLone(g.edges, e) {
      forall f | f in Rows(g) && f !in g.edges ensures f.0 == f.1 && f.0 != e.0 && f.0 != e.1 { RowsExactly(g, f); }
      assert g.edges <= Rows(g);
    }
    forall e | e in Rows(g) && e !in g.edges ensures IsLone(Rows(g), e) {
      RowsExactly(g, e);
      forall f | f in Rows(g) && (f.0 == e.0 || f.1 == e.0) ensures f == e { RowsExactly(g, f); }
    }
    hide IsLone;
  }

  lemma RowsAreListed(g: Graph, rows: seq<Edge>)
    requires g.Valid() && InSomeOrder(rows, Rows(g))
    ensures Listed(FromRows(rows)) == Rows(g) && FromRows(rows).Keys == g.nodes
  {
    var s := FromRows(rows);
    ReadBack(g, rows);
    hide FromRows, InSomeOrder, Rows;
    forall e: Edge ensures e in Listed(s) <==> e in Rows(g) {
      if e in Rows(g) {
        RowsExactly(g, e);
        assert e.0 in s && e.1 in s[e.0];
      }
    }
  }

  /** The graph read back is the one saved exactly when it has no loop on a node without other
      edges. */
  lemma RecoveredIff(g: Graph, rows: seq<Edge>)
    requires g.Valid() && InSomeOrder(rows, Rows(g))
    ensures Recovered(FromRows(rows)) == g <==> LoneLoops(g.edges) == {}
  {
    RowsAreListed(g, rows);
    CoreOfRows(g);
    assert LoneLoops(g.edges) <= g.edges;
    hide LoneLoops, Listed, Rows;
  }

  /** The rows, from the edges that are no lone loops. */
  lemma RowsOfCore(g: Graph, e: Edge)
    requires g.Valid()
    ensures var core := g.edges - LoneLoops(g.edges);
      e in Rows(g) <==> e in core || (e.0 == e.1 && e.0 in g.nodes && e.0 !in Ends(core))
  {
    var core := g.edges - LoneLoops(g.edges);
    RowsExactly(g, e);
    if e.0 == e.1 && e.0 !in Ends(core) && e.0 in Ends(g.edges) {
      var f :| f in g.edges && (f.0 == e.0 || f.1 == e.0);
      assert f !in core && f == e;
    }
    assert e in g.edges && e !in core ==> IsLone(g.edges, e);
  }

  lemma RowsGiveNodes(g: Graph, h: Graph)
    requires g.Valid() && h.Valid() && Rows(g) == Rows(h)
    ensures g.nodes == h.nodes
  {
    forall u ensures u in g.nodes <==> u in h.nodes {
      RowsMention(g, u);
      RowsMention(h, u);
    }
  }

  /** Two graphs have the same rows exactly when they differ at most in such loops. */
  lemma SameRowsIff(g: Graph, h: Graph)
    requires g.Valid() && h.Valid()
    ensures Rows(g) == Rows(h) <==> g.nodes == h.nodes && g.edges - LoneLoops(g.edges) == h.edges - LoneLoops(h.edges)
  {
    CoreOfRows(g);
    CoreOfRows(h);
    if Rows(g) == Rows(h) { RowsGiveNodes(g, h); }
    hide LoneLoops, Rows;
    if g.nodes == h.nodes && g.edges - LoneLoops(g.edges) == h.edges - LoneLoops(h.edges) {
      forall e ensures e in Rows(g) <==> e in Rows(h) {
        RowsOfCore(g, e);
        RowsOfCore(h, e);
      }
    }
  }

  /** A node alone and a node with only a loop are not told apart. */
  lemma LoopsAreLost(u: string)
    ensures Rows(Graph({u}, {})) == Rows(Graph({u}, {(u, u)}))
  {
    assert Isolated(Graph({u}, {}), u);
  }

  /** The targets of a node stand in the order of the rows. */
  lemma {:induction false} TargetsInOrder(rows: seq<Edge>, u: string)
    ensures var targets := Picked(seq(|rows|, i requires 0 <= i < |rows| => rows[i].1),
                                  seq(|rows|, i requires 0 <= i < |rows| => rows[i].0 == u));
      if u in FromRows(rows) then FromRows(rows)[u] == targets else targets == []
  {
    if rows != [] {
      var n := |rows| - 1;
      TargetsInOrder(rows[..n], u);
      var xs, keep := seq(|rows|, i requires 0 <= i < |rows| => rows[i].1),
        seq(|rows|, i requires 0 <= i < |rows| => rows[i].0 == u);
      PickedLast(xs, keep);
      assert xs[..n] == seq(n, i requires 0 <= i < n => rows[..n][i].1);
      assert keep[..n] == seq(n, i requires 0 <= i < n => rows[..n][i].0 == u);
      hide Picked;
    }
  }
}
