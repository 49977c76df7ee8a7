/**
 * The table walker: from a node, its direct `table` children of one exact
 * class, each as its `tr` rows, each row as its `td` cells, all in document
 * order.  Cells are returned as nodes (the tree is a value, so a node stands
 * for its own id).
 */
module GestisTables {

  import opened Outcomes
  import opened XmlTree
  import opened GestisTypes

  type Row = seq<Node>
  type Table = seq<Row>

  /** The elements among `cs` with local name `tag`, in order. */
  function ChildrenTagged(cs: seq<Node>, tag: string): (r: seq<Node>)
    ensures |r| <= |cs|
    ensures forall x :: x in r <==> x in cs && HasTagName(x, tag)
  {
    if cs == [] then []
    else (if HasTagName(cs[0], tag) then [cs[0]] else []) + ChildrenTagged(cs[1..], tag)
  }

  lemma {:induction false} ChildrenTaggedAppend(a: seq<Node>, b: seq<Node>, tag: string)
    ensures ChildrenTagged(a + b, tag) == ChildrenTagged(a, tag) + ChildrenTagged(b, tag)
  {
    if a == [] {
      assert a + b == b;
    } else {
      assert (a + b)[0] == a[0] && (a + b)[1..] == a[1..] + b;
      ChildrenTaggedAppend(a[1..], b, tag);
    }
  }

  /** A row's cells: its direct `td` children. */
  function Cells(row: Node): (r: Row)
    ensures forall c :: c in r <==> c in Children(row) && HasTagName(c, "td")
  {
    ChildrenTagged(Children(row), "td")
  }

  function CellsOfRows(rows: seq<Node>): (r: seq<Row>)
    ensures |r| == |rows|
    ensures forall i :: 0 <= i < |rows| ==> r[i] == Cells(rows[i])
  {
    if rows == [] then [] else [Cells(rows[0])] + CellsOfRows(rows[1..])
  }

  /** A table's rows: its direct `tr` children, each as its cells. */
  function Rows(table: Node): (r: Table)
    ensures |r| == |ChildrenTagged(Children(table), "tr")|
    ensures forall i :: 0 <= i < |r| ==> r[i] == Cells(ChildrenTagged(Children(table), "tr")[i])
  {
    CellsOfRows(ChildrenTagged(Children(table), "tr"))
  }

  /** A `table` element without a `class` attribute: the walker's `unwrap` aborts on it. */
  predicate IsClasslessTable(n: Node) {
    HasTagName(n, "table") && Attribute(n, "class").None?
  }

  /** A `table` element whose `class` is exactly `class`. */
  predicate IsTableOf(n: Node, cls: string) {
    HasTagName(n, "table") && Attribute(n, "class") == Some(cls)
  }

  /** The table structure of the matching nodes among `cs`, in order. */
  function TablesIn(cs: seq<Node>, cls: string): (r: seq<Table>)
    ensures |r| <= |cs|
  {
    if cs == [] then []
    else (if IsTableOf(cs[0], cls) then [Rows(cs[0])] else []) + TablesIn(cs[1..], cls)
  }

  /**
   * Every direct table of exactly the class contributes its rows, and
   * nothing else contributes.
   */
  lemma {:induction false} TablesInMembers(cs: seq<Node>, cls: string, t: Table)
    ensures t in TablesIn(cs, cls) <==> exists c :: c in cs && IsTableOf(c, cls) && Rows(c) == t
  {
    if cs != [] {
      TablesInMembers(cs[1..], cls, t);
      if exists c :: c in cs && IsTableOf(c, cls) && Rows(c) == t {
        var c :| c in cs && IsTableOf(c, cls) && Rows(c) == t;
        if c != cs[0] {
          assert c in cs[1..];
        }
      }
    }
  }

  /** The walker keeps document order: it distributes over concatenation of the children. */
  lemma {:induction false} TablesInAppend(a: seq<Node>, b: seq<Node>, cls: string)
    ensures TablesIn(a + b, cls) == TablesIn(a, cls) + TablesIn(b, cls)
  {
    if a == [] {
      assert a + b == b;
    } else {
      assert (a + b)[0] == a[0] && (a + b)[1..] == a[1..] + b;
      TablesInAppend(a[1..], b, cls);
      Assoc(if IsTableOf(a[0], cls) then [Rows(a[0])] else [], TablesIn(a[1..], cls), TablesIn(b, cls));
    }
  }

  lemma Assoc<T>(p: seq<T>, q: seq<T>, r: seq<T>)
    ensures p + (q + r) == p + q + r
  {
  }

  /** `tables(node, cls)`. */
  function Tables(n: Node, cls: string): (r: Run<seq<Table>>)
    ensures r.Panics? <==> exists c :: c in Children(n) && IsClasslessTable(c)
    ensures r.Panics? ==> r.site == TableWithoutClass
    ensures r.Returns? ==> r.value == TablesIn(Children(n), cls)
  {
    if exists c :: c in Children(n) && IsClasslessTable(c) then Panics(TableWithoutClass)
    else Returns(TablesIn(Children(n), cls))
  }

  /** The number of cells in a list of rows. */
  function RowCellCount(rows: seq<Row>): nat {
    if rows == [] then 0 else |rows[0]| + RowCellCount(rows[1..])
  }

  /** The number of cells in a list of tables. */
  function CellCount(ts: seq<Table>): nat {
    if ts == [] then 0 else RowCellCount(ts[0]) + CellCount(ts[1..])
  }

  /** Rows, then cells, in row-major order: the walker's output as one cell sequence. */
  function FlattenRows(rows: seq<Row>): (r: seq<Node>)
    ensures |r| == RowCellCount(rows)
  {
    if rows == [] then [] else rows[0] + FlattenRows(rows[1..])
  }

  /** The flattened list holds as many cells as the tables do. */
  function Flatten(ts: seq<Table>): (r: seq<Node>)
    ensures |r| == CellCount(ts)
  {
    if ts == [] then [] else FlattenRows(ts[0]) + Flatten(ts[1..])
  }

  lemma {:induction false} FlattenAppend(a: seq<Table>, b: seq<Table>)
    ensures Flatten(a + b) == Flatten(a) + Flatten(b)
  {
    if a == [] {
      assert a + b == b;
    } else {
      assert (a + b)[0] == a[0] && (a + b)[1..] == a[1..] + b;
      FlattenAppend(a[1..], b);
    }
  }

  /** Flattening loses no cell and invents none. */
  lemma {:induction false} FlattenMembers(ts: seq<Table>, c: Node)
    ensures c in Flatten(ts) <==> exists i, j :: 0 <= i < |ts| && 0 <= j < |ts[i]| && c in ts[i][j]
  {
    if ts != [] {
      FlattenRowsMembers(ts[0], c);
      FlattenMembers(ts[1..], c);
      if c in Flatten(ts[1..]) {
        var i, j :| 0 <= i < |ts[1..]| && 0 <= j < |ts[1..][i]| && c in ts[1..][i][j];
        assert c in ts[i + 1][j];
      }
      if exists i, j :: 0 <= i < |ts| && 0 <= j < |ts[i]| && c in ts[i][j] {
        var i, j :| 0 <= i < |ts| && 0 <= j < |ts[i]| && c in ts[i][j];
        if i > 0 {
          assert c in ts[1..][i - 1][j];
        }
      }
    }
  }

  lemma {:induction false} FlattenRowsMembers(rows: seq<Row>, c: Node)
    ensures c in FlattenRows(rows) <==> exists j :: 0 <= j < |rows| && c in rows[j]
  {
    if rows != [] {
      FlattenRowsMembers(rows[1..], c);
      if c in FlattenRows(rows[1..]) {
        var j :| 0 <= j < |rows[1..]| && c in rows[1..][j];
        assert c in rows[j + 1];
      }
      if exists j :: 0 <= j < |rows| && c in rows[j] {
        var j :| 0 <= j < |rows| && c in rows[j];
        if j > 0 {
          assert c in rows[1..][j - 1];
        }
      }
    }
  }

  /**
   * The first cell that has any child node (the extractors' "skip the empty
   * leading tables").
   */
  function FirstNonEmpty(cells: seq<Node>): (r: Option<nat>)
    ensures r.None? <==> forall i :: 0 <= i < |cells| ==> Children(cells[i]) == []
    ensures r.Some? ==> (r.value < |cells| && Children(cells[r.value]) != []
      && forall i :: 0 <= i < r.value ==> Children(cells[i]) == [])
  {
    if cells == [] then None
    else if Children(cells[0]) != [] then Some(0)
    else match FirstNonEmpty(cells[1..])
      case None => None
      case Some(k) => Some(k + 1)
  }

  /** A cell with a child after only childless ones is the one the skip stops at. */
  lemma FirstNonEmptyAt(cells: seq<Node>, k: nat)
    requires k < |cells| && Children(cells[k]) != []
    requires forall j :: 0 <= j < k ==> Children(cells[j]) == []
    ensures FirstNonEmpty(cells) == Some(k)
  {
    var f := FirstNonEmpty(cells);
    assert !(f.value < k) && !(k < f.value);
  }

  /** The skip loop of the extractors: advance past the childless cells. */
  method SkipEmpty(cells: seq<Node>) returns (k: Option<nat>)
    ensures k == FirstNonEmpty(cells)
  {
    var i := 0;
    while i < |cells| && Children(cells[i]) == []
      invariant 0 <= i <= |cells|
      invariant forall j :: 0 <= j < i ==> Children(cells[j]) == []
    {
      i := i + 1;
    }
    if i == |cells| {
      return None;
    }
    return Some(i);
  }
}
