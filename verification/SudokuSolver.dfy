/** The solver of examples/sudoku/sudoku.cc: a class over the node pool whose methods do the writes of the C++ methods
    in their order. The constructor builds, step by step, a pool that stands for the exact-cover problem of the board
    (`Building`, `Linked`); `Solve` covers a smallest column, tries its rows one after the other, and uncovers in
    reverse what it covered, so that a failed try leaves the very pool it found; `WriteSolution` reads the rows on the
    stack back into the board. */
module SudokuSolving {
  import opened DancingLinks
  import opened ExactCover
  import opened LinkBuilding
  import opened SudokuRules
  import opened SudokuMatrix

  const MAX_NODES := 1 + 81 * 4 + 9 * 9 * 9 * 4

  /** The rows of the nodes on the stack. */
  ghost function StackRows(m: Matrix, stack: seq<nat>): set<nat> {
    set e | e in stack && e in m.node :: m.node[e].row
  }

  /** The stack holds nodes of rows that fill pairwise different cells, all of them cells whose
      column is no longer to be covered. */
  ghost predicate ValidStack(l: Layout, stack: seq<nat>)
    requires SudokuRows(l.m)
  {
    match l
    case LayoutData(m, h, v) =>
      && (forall e | e in stack :: e in m.node && CellColumn(m, e) !in h)
      && (forall i, j | 0 <= i < j < |stack| :: DifferentCellColumns(m, stack[i], stack[j]))
  }

  ghost predicate DifferentCellColumns(m: Matrix, e: nat, f: nat)
    requires SudokuRows(m)
  {
    e in m.node && f in m.node && CellColumn(m, e) != CellColumn(m, f)
  }

  ghost function CellColumn(m: Matrix, e: nat): nat
    requires SudokuRows(m) && e in m.node
  {
    NodeRow(m, e);
    assert SudokuRow(m, m.rows[m.node[e].row]);
    m.node[m.rows[m.node[e].row][0]].col
  }

  ghost function NodeCount(m: Matrix): nat {
    |m.node|
  }

  lemma AddNodeCounts(l: Layout, e: nat, d: nat, name: nat)
    requires Fresh(l, e) && d in l.m.heads
    ensures NodeCount(AddNode(l, e, d, name).m) == NodeCount(l.m) + 1
  {
    hide ValidMatrix, ValidLayout, NodeMatrix;
    NodeMatrixParts(l.m, e, d, name);
  }

  lemma HeadCounts(l: Layout, c: nat)
    requires Fresh(l, c)
    ensures NodeCount(AddHead(l, c).m) == NodeCount(l.m)
  {
  }

  lemma FuseCounts(m: Matrix, a: nat, b: nat, c: nat, d: nat)
    requires EndsInSingles(m, a, b, c, d)
    ensures NodeCount(FuseMatrix(m, a, b, c, d)) == NodeCount(m)
  {
    hide ValidMatrix, EndsInSingles;
    assert FuseMatrix(m, a, b, c, d).node.Keys == m.node.Keys;
  }

  lemma UnitNotYet(cols: seq<int>, b0: seq<int>, kind: nat, u: nat, v: nat)
    requires |cols| == 400 && |b0| == 81 && kind < 3 && u < 9 && 1 <= v <= 9
        && UnitsDone(cols, b0, UnitIndex(kind, u, v))
    ensures UnitName(kind, u, v) < 400 && cols[UnitName(kind, u, v)] == -1
  {
    assert UnitDone(cols, b0, UnitIndex(kind, u, v), kind, u, v);
  }

  lemma CandidateColumns(cols: seq<int>, b0: seq<int>, i: nat, v: nat)
    requires |cols| == 400 && |b0| == 81 && Candidate(b0, i, v)
    requires AllOpen(cols, b0)
    ensures i < 81 && forall j | 0 <= j < 4 :: NodeName(i, v, j) < 400 && cols[NodeName(i, v, j)] != -1
  {
    NodeNamesDiffer(i, v);
  }

  lemma MaxNodes()
    ensures MAX_NODES == 3241
  {
  }

  lemma IndexEnds()
    ensures UnitIndex(0, 0, 1) == 0 && UnitIndex(0, 9, 1) == 243
  {
  }

  lemma IndexSteps(u: nat, v: nat)
    requires u < 9 && 1 <= v <= 9
    ensures UnitName(0, u, v) < 400 && UnitName(1, u, v) < 400 && UnitName(2, u, v) < 400
    ensures UnitIndex(1, u, v) == UnitIndex(0, u, v) + 1 && UnitIndex(2, u, v) == UnitIndex(1, u, v) + 1
    ensures UnitIndex(0, u, v + 1) == UnitIndex(2, u, v) + 1
    ensures UnitIndex(0, u, 10) == UnitIndex(0, u + 1, 1)
  {
  }

  lemma PlaceSteps(i: nat, v: nat)
    ensures PlaceIndex(i, v + 1) == PlaceIndex(i, v) + 1 && PlaceIndex(i, 10) == PlaceIndex(i + 1, 1)
  {
  }

  lemma UnitsOfCell(i: nat)
    requires i < 81
    ensures i / 9 < 9 && i % 9 < 9 && i / 9 / 3 * 3 + i % 9 / 3 < 9
    ensures RowOf(i) == i / 9 && ColOf(i) == i % 9 && BoxOf(i) == i / 9 / 3 * 3 + i % 9 / 3
  {
  }

  lemma NothingMade(b0: seq<int>)
    requires |b0| == 81
    ensures MadeUpTo([], b0, PlaceIndex(0, 1))
  {
  }

  lemma MarkAt(a: array2<bool>, b: seq<int>, kind: nat, u: nat, v: nat)
    requires |b| == 81 && kind < 3 && Marks(a, b, kind) && u < 9 && v < 10
    ensures u < a.Length0 && v < a.Length1 && (a[u, v] <==> Holds(b, kind, u, v))
  {
  }

  ghost predicate AllOpen(cols: seq<int>, b0: seq<int>)
    requires |cols| == 400 && |b0| == 81
  {
    forall n: nat | Open(b0, n) :: n < 400 && cols[n] != -1
  }

  lemma AllColumnsOpen(cols: seq<int>, b0: seq<int>)
    requires |cols| == 400 && ValidBoard(b0) && |b0| == 81 && UnitsDone(cols, b0, 243) && CellsDone(cols, b0, 81)
    ensures AllOpen(cols, b0)
  {
    AllColumnsDone(cols, b0);
  }

  lemma EncodesIntro(l: Layout, cols: seq<int>, b0: seq<int>, made: seq<Placement>)
    requires |cols| == 400 && ValidBoard(b0) && |b0| == 81 && AllOpen(cols, b0) && MadeUpTo(made, b0, PlaceIndex(81, 1))
    requires ValidColumns(l, cols, b0) && ValidRows(l.m, b0, made) && Full(l)
    ensures Encodes(l, cols, b0, made)
  {
    hide ValidMatrix, ValidLayout, Full, Open, ValidColumns, ValidRows;
    forall i: nat, v: nat | Candidate(b0, i, v) ensures Placement(i, v) in made {
      assert PlaceIndex(i, v) < PlaceIndex(81, 1);
    }
  }

  lemma NodeNamesAre(i: nat, v: nat)
    requires i < 81
    ensures NodeName(i, v, 0) == i && NodeName(i, v, 1) == UnitName(0, RowOf(i), v)
    ensures NodeName(i, v, 2) == UnitName(1, ColOf(i), v) && NodeName(i, v, 3) == UnitName(2, BoxOf(i), v)
  {
  }

  lemma HeadInPool(x: Pool, l: Layout, c: nat)
    requires Represents(x, l) && c in l.m.heads
    ensures c < |x|
  {
    assert ColumnLinked(x, Column(l, c), c);
  }

  /** One of the first `t` cells lies in unit `u` and holds `v`. */
  ghost predicate HeldBefore(b: seq<int>, kind: nat, t: nat, u: nat, v: int)
    requires |b| == 81 && kind < 3 && t <= 81
  {
    exists i | 0 <= i < t :: UnitOf(kind, i) == u && b[i] == v
  }

  lemma HeldStep(b: seq<int>, kind: nat, t: nat, u: nat, v: int)
    requires |b| == 81 && kind < 3 && t < 81 && u < 9
    ensures HeldBefore(b, kind, t + 1, u, v) <==> HeldBefore(b, kind, t, u, v) || (UnitOf(kind, t) == u && b[t] == v)
    ensures t + 1 == 81 ==> (HeldBefore(b, kind, t + 1, u, v) <==> Holds(b, kind, u, v))
  {
    if HeldBefore(b, kind, t, u, v) {
      var i :| 0 <= i < t && UnitOf(kind, i) == u && b[i] == v;
      assert i < t + 1;
    }
  }

  ghost predicate Marks(a: array2<bool>, b: seq<int>, kind: nat)
    requires |b| == 81 && kind < 3
    reads a
  {
    && a.Length0 == 81 && a.Length1 == 10
    && forall u, v | 0 <= u < 9 && 0 <= v < 10 :: a[u, v] <==> Holds(b, kind, u, v)
  }

  class SudokuSolver {
    const inout: array<int>
    const nodes: array<Node>
    const columns: array<int>
    var stack: seq<nat>
    var curNode: nat
    ghost var layout: Layout
    ghost var made: seq<Placement>

    /** The pool represents layout `l`; its columns are named in `columns`, and all its nodes are below
        `curNode`. */
    ghost predicate Linked(l: Layout, b0: seq<int>)
      reads this`curNode, nodes, columns
    {
      match l
      case LayoutData(m, h, v) =>
        && nodes.Length == MAX_NODES && columns.Length == 400 && |b0| == 81
        && Closed(nodes[..]) && Represents(nodes[..], l) && Full(l)
        && ValidBoard(b0) && ValidColumns(l, columns[..], b0)
        && curNode == 1 + |h| + NodeCount(m) <= MAX_NODES
        && (forall n | n >= curNode :: Fresh(l, n))
    }

    /** ... and its rows are those of the placements `made`. */
    ghost predicate Building(l: Layout, b0: seq<int>, made: seq<Placement>)
      reads this`curNode, nodes, columns
    {
      match l
      case LayoutData(m, h, v) =>
          nodes.Length == MAX_NODES && columns.Length == 400 && |b0| == 81 && Linked(l, b0) && ValidRows(m, b0, made)
    }

    constructor (board: array<int>)
      requires ValidBoard(board[..])
      ensures inout == board && stack == [] && fresh(nodes) && fresh(columns)
      ensures Ready(board[..])
    {
      inout := board;
      nodes := new Node[MAX_NODES](_ => Node(0, 0, 0, 0, 0, 0, 0));
      columns := new int[400](_ => -1);
      stack := [];
      curNode := 0;
      new;
      ghost var b0 := board[..];
      Build(b0);
    }

    /** The body of the constructor. */
    method Build(ghost b0: seq<int>)
      requires ValidBoard(inout[..]) && b0 == inout[..] && |b0| == 81 && Closed(nodes[..])
      requires nodes.Length == MAX_NODES && columns.Length == 400 && curNode == 0 && inout != columns
      requires forall n | 0 <= n < 400 :: columns[n] == -1
      modifies this`curNode, this`layout, this`made, nodes, columns
      ensures Ready(b0)
    {
      hide *;
      var rows, cols, boxes := MarkUnits();
      ghost var l := NewRoot(b0);
      l := AppendCellColumns(l, b0);
      l := AppendUnitColumns(rows, cols, boxes, l, b0);
      AllColumnsOpen(columns[..], b0);
      l, made := AddCandidates(rows, cols, boxes, l, b0);
      layout := l;
      ReadyIntro(b0);
    }

    /** The structure of the board is complete, and `solve` can start. */
    ghost predicate Ready(b0: seq<int>)
      reads this, nodes, columns
    {
      && Closed(nodes[..]) && Represents(nodes[..], layout) && Encodes(layout, columns[..], b0, made)
    }

    lemma ReadyIntro(b0: seq<int>)
      requires Building(layout, b0, made) && |b0| == 81 && columns.Length == 400
      requires AllOpen(columns[..], b0) && MadeUpTo(made, b0, PlaceIndex(81, 1))
      ensures Ready(b0)
    {
      hide Closed, Represents, Encodes, ValidColumns, ValidRows, Full, ValidBoard, MadeUpTo, AllOpen;
      EncodesIntro(layout, columns[..], b0, made);
    }

    /** Which values the givens hold in the units of one kind. */
    method MarkUnits() returns (rows: array2<bool>, cols: array2<bool>, boxes: array2<bool>)
      requires ValidBoard(inout[..])
      ensures Marks(rows, inout[..], 0) && Marks(cols, inout[..], 1) && Marks(boxes, inout[..], 2)
      ensures fresh(rows) && fresh(cols) && fresh(boxes)
    {
      ghost var b := inout[..];
      rows := new bool[81, 10]((u, v) => false);
      cols := new bool[81, 10]((u, v) => false);
      boxes := new bool[81, 10]((u, v) => false);
      for i := 0 to 81
        invariant rows != cols && rows != boxes && cols != boxes
        invariant rows.Length0 == cols.Length0 == boxes.Length0 == 81
            && rows.Length1 == cols.Length1 == boxes.Length1 == 10
        invariant forall u, v | 0 <= u < 9 && 0 <= v < 10 :: rows[u, v] <==> HeldBefore(b, 0, i, u, v)
        invariant forall u, v | 0 <= u < 9 && 0 <= v < 10 :: cols[u, v] <==> HeldBefore(b, 1, i, u, v)
        invariant forall u, v | 0 <= u < 9 && 0 <= v < 10 :: boxes[u, v] <==> HeldBefore(b, 2, i, u, v)
      {
        var row := i / 9;
        var col := i % 9;
        var box := row / 3 * 3 + col / 3;
        var val := inout[i];
        assert row == UnitOf(0, i) && col == UnitOf(1, i) && box == UnitOf(2, i) && 0 <= val <= 9;
        hide HeldBefore, Holds, UnitOf;
        rows[row, val] := true;
        cols[col, val] := true;
        boxes[box, val] := true;
        forall kind, u, v | 0 <= kind < 3 && 0 <= u < 9 && 0 <= v < 10
          ensures HeldBefore(b, kind, i + 1, u, v)
              <==> HeldBefore(b, kind, i, u, v) || (UnitOf(kind, i) == u && b[i] == v)
        {
          HeldStep(b, kind, i, u, v);
        }
      }
      forall kind, u, v | 0 <= kind < 3 && 0 <= u < 9 && 0 <= v < 10
        ensures HeldBefore(b, kind, 81, u, v) <==> Holds(b, kind, u, v)
      {
        HeldStep(b, kind, 80, u, v);
      }
    }

    /** `append_column`. */
    method AppendColumn(n: nat, ghost l: Layout, ghost b0: seq<int>) returns (ghost k: Layout)
      requires Building(l, b0, []) && n < 400 && Open(b0, n) && columns[n] == -1 && curNode < MAX_NODES
      modifies this`curNode, nodes, columns
      ensures Building(k, b0, []) && curNode == old(curNode) + 1
      ensures columns[n] != -1 && columns[..] == old(columns[..])[n := columns[n]]
    {
      hide Represents, Full, Closed, ValidColumns, ValidRows, ValidBoard, PutLeft, Alone, AddHead, Fresh, ValidLayout,
          ValidMatrix, Open, NodeCount;
      var c := curNode;
      ghost var x: Pool, cols := nodes[..], columns[..];
      AddHeadRepresents(x, l, c, n);
      ColumnAppended(l, cols, b0, c, n);
      k := AddHead(l, c);
      HeadCounts(l, c);
      NewColumn(n);
      PutLeftOf(ROOT, c);
      columns[n] := c;
      assert columns[..] == cols[n := c];
    }

    method NewColumn(n: nat)
      requires Closed(nodes[..]) && nodes.Length == MAX_NODES && curNode < MAX_NODES
      modifies this`curNode, nodes
      ensures curNode == old(curNode) + 1
      ensures Closed(nodes[..]) && nodes[..] == Alone(old(nodes[..]), old(curNode), old(curNode), n)
    {
      var c := curNode;
      curNode := curNode + 1;
      AloneNode(c, c, n);
    }

    /** Clears a node and links it to itself. */
    method AloneNode(n: nat, col: nat, name: nat)
      requires Closed(nodes[..]) && n < nodes.Length && col < nodes.Length
      modifies nodes
      ensures Closed(nodes[..]) && nodes[..] == Alone(old(nodes[..]), n, col, name)
    {
      nodes[n] := Node(n, n, n, n, col, name, 0);
    }

    /** `new_row`: a node named `n` at the bottom of the column of constraint `n`. */
    method NewRow(n: nat, ghost l: Layout, ghost b0: seq<int>) returns (r: nat, ghost k: Layout)
      requires Linked(l, b0) && n < 400 && columns[n] != -1 && curNode < MAX_NODES
      modifies this`curNode, nodes
      ensures r == old(curNode) && curNode == r + 1 && r < nodes.Length
      ensures Fresh(l, r) && columns[n] >= 0 && columns[n] in l.m.heads && k == AddNode(l, r, columns[n], n)
      ensures Linked(k, b0)
    {
      hide Represents, Full, Closed, ValidColumns, ValidBoard, PutUp, AddNode, Fresh, NodeCount, ValidLayout,
          ValidMatrix, Alone, Open, RowRing, ColumnRing;
      ghost var x: Pool := nodes[..];
      r := curNode;
      NodeAdded(l, columns[..], b0, r, n);
      HeadInPool(x, l, columns[n]);
      AddNodeRepresents(x, l, r, columns[n], n);
      AddNodeCounts(l, r, columns[n], n);
      k := AddNode(l, r, columns[n], n);
      curNode := curNode + 1;
      AloneNode(r, columns[n], n);
      PutUpFrom(columns[n], r);
    }

    /** The next of the four nodes of a candidate. */
    method NextNode(n: nat, ghost m: Matrix, ghost i: nat, ghost v: nat, ghost es: seq<nat>, ghost l: Layout,
        ghost b0: seq<int>)
        returns (r: nat, ghost k: Layout)
      requires Linked(l, b0) && columns.Length == 400 && n < 400 && columns[n] != -1 && curNode < MAX_NODES
      requires i < 81 && |es| < 4 && n == NodeName(i, v, |es|) && NodesAdded(m, l.m, columns[..], i, v, es)
      modifies this`curNode, nodes
      ensures r < nodes.Length && Linked(k, b0) && curNode == old(curNode) + 1
      ensures NodesAdded(m, k.m, columns[..], i, v, es + [r])
    {
      hide *;
      r, k := NewRow(n, l, b0);
      OneMoreNode(m, l, columns[..], i, v, es, r);
    }

    /** The four nodes of a candidate. */
    method AddNodes(i: nat, v: nat, ghost l: Layout, ghost b0: seq<int>) returns (n0: nat, nr: nat, nc: nat, nb: nat,
        ghost k: Layout)
      requires Linked(l, b0) && columns.Length == 400 && i < 81 && 1 <= v <= 9 && curNode + 4 <= MAX_NODES
      requires forall j | 0 <= j < 4 :: NodeName(i, v, j) < 400 && columns[NodeName(i, v, j)] != -1
      modifies this`curNode, nodes
      ensures Linked(k, b0) && curNode == old(curNode) + 4
      ensures n0 < nodes.Length && nr < nodes.Length && nc < nodes.Length && nb < nodes.Length
      ensures NodesAdded(l.m, k.m, columns[..], i, v, [n0, nr, nc, nb])
    {
      hide *;
      NodeNamesAre(i, v);
      NoNodesAdded(l.m, columns[..], i, v);
      n0, k := NextNode(i, l.m, i, v, [], l, b0);
      assert [] + [n0] == [n0];
      nr, k := NextNode(UnitName(0, RowOf(i), v), l.m, i, v, [n0], k, b0);
      assert [n0] + [nr] == [n0, nr];
      nc, k := NextNode(UnitName(1, ColOf(i), v), l.m, i, v, [n0, nr], k, b0);
      assert [n0, nr] + [nc] == [n0, nr, nc];
      nb, k := NextNode(UnitName(2, BoxOf(i), v), l.m, i, v, [n0, nr, nc], k, b0);
      assert [n0, nr, nc] + [nb] == [n0, nr, nc, nb];
    }

    /** The four nodes of a candidate, joined into a row. */
    method AddCandidate(i: nat, v: nat, ghost l: Layout, ghost b0: seq<int>,
        ghost made: seq<Placement>) returns (ghost k: Layout)
      requires Building(l, b0, made) && i < 81 && 1 <= v <= 9 && Candidate(b0, i, v) && Placement(i, v) !in made
      requires curNode + 4 <= MAX_NODES
      requires forall j | 0 <= j < 4 :: NodeName(i, v, j) < 400 && columns[NodeName(i, v, j)] != -1
      modifies this`curNode, nodes
      ensures Building(k, b0, made + [Placement(i, v)]) && curNode == old(curNode) + 4
    {
      hide Represents, Full, Closed, ValidColumns, ValidBoard, Fresh, NodeCount, ValidLayout, ValidMatrix, Open,
          PutLeft, Candidate, ValidRows, NodesAdded, EndsInSingles, Fuse, FuseMatrix, NodeName;
      var n0, nr, nc, nb, k3 := AddNodes(i, v, l, b0);
      ghost var x: Pool, cols, es := nodes[..], columns[..], [n0, nr, nc, nb];
      FourEndInSingles(l.m, k3, cols, b0, i, v, es);
      RowMade(l.m, k3, cols, b0, i, v, es, made);
      FusedColumnsValid(k3, cols, b0, n0, nr, nc, nb);
      FuseRepresents(x, k3, n0, nr, nc, nb);
      FuseCounts(k3.m, n0, nr, nc, nb);
      PutLeftOf(n0, nr);
      PutLeftOf(n0, nc);
      PutLeftOf(n0, nb);
      k := Fuse(k3, n0, nr, nc, nb);
    }

    /** The root, a header row of its own. */
    method NewRoot(ghost b0: seq<int>) returns (ghost l: Layout)
      requires nodes.Length == MAX_NODES && columns.Length == 400 && Closed(nodes[..]) && curNode == 0 && ValidBoard(b0)
      requires forall n | 0 <= n < 400 :: columns[n] == -1
      modifies this`curNode, nodes
      ensures Building(l, b0, []) && curNode == 1
    {
      l := LayoutData(MatrixData({}, [], map[]), [], map[]);
      ghost var x: Pool := nodes[..];
      AloneRings(x, ROOT, ROOT, 0);
      assert [ROOT] + l.h == [ROOT];
      NewColumn(0);
    }

    /** A column for every empty cell. */
    method AppendCellColumns(ghost l: Layout, ghost b0: seq<int>) returns (ghost k: Layout)
      requires Building(l, b0, []) && ValidBoard(b0) && |b0| == 81 && columns.Length == 400 && curNode == 1
          && inout[..] == b0
      requires forall n | 0 <= n < 400 :: columns[n] == -1
      modifies this`curNode, nodes, columns
      ensures Building(k, b0, []) && curNode <= 82 && CellsDone(columns[..], b0, 81) && UnitsDone(columns[..], b0, 0)
    {
      hide *;
      MaxNodes();
      k := l;
      NothingDone(columns[..], b0);
      for i := 0 to 81
        invariant Building(k, b0, []) && curNode <= 1 + i
        invariant CellsDone(columns[..], b0, i) && UnitsDone(columns[..], b0, 0)
      {
        CellStep(columns[..], b0, i);
        if inout[i] == 0 {
          ghost var cols := columns[..];
          k := AppendColumn(i, k, b0);
          CellAdded(cols, b0, i, columns[..]);
        }
      }
    }

    /** `if (!marked) append_column(n)`. */
    method AppendUnless(marked: bool, n: nat, ghost kind: nat, ghost u: nat, ghost v: nat, ghost l: Layout,
        ghost b0: seq<int>)
        returns (ghost k: Layout)
      requires Building(l, b0, []) && ValidBoard(b0) && |b0| == 81 && columns.Length == 400 && curNode < MAX_NODES
      requires kind < 3 && u < 9 && 1 <= v <= 9 && n == UnitName(kind, u, v) && n < 400
          && (marked <==> Holds(b0, kind, u, v))
      requires UnitsDone(columns[..], b0, UnitIndex(kind, u, v)) && CellsDone(columns[..], b0, 81)
      modifies this`curNode, nodes, columns
      ensures Building(k, b0, []) && old(curNode) <= curNode <= old(curNode) + 1
      ensures UnitsDone(columns[..], b0, UnitIndex(kind, u, v) + 1) && CellsDone(columns[..], b0, 81)
    {
      hide *;
      ghost var cols := columns[..];
      OpenIsUnheld(b0, kind, u, v);
      UnitNotYet(cols, b0, kind, u, v);
      k := l;
      if !marked {
        k := AppendColumn(n, l, b0);
      }
      assert columns[..] == cols[n := columns[n]];
      UnitStep(cols, b0, kind, u, v, columns[..]);
    }

    /** A column for every value missing in a row, a column or a box. */
    method AppendUnitColumns(rows: array2<bool>, cols: array2<bool>, boxes: array2<bool>, ghost l: Layout,
        ghost b0: seq<int>)
        returns (ghost k: Layout)
      requires Building(l, b0, []) && ValidBoard(b0) && |b0| == 81 && columns.Length == 400 && curNode <= 82
      requires Marks(rows, b0, 0) && Marks(cols, b0, 1) && Marks(boxes, b0, 2)
      requires UnitsDone(columns[..], b0, 0) && CellsDone(columns[..], b0, 81)
      modifies this`curNode, nodes, columns
      ensures Building(k, b0, []) && curNode <= 325 && UnitsDone(columns[..], b0, 243) && CellsDone(columns[..], b0, 81)
    {
      hide *;
      k := l;
      IndexEnds();
      for i := 0 to 9
        invariant Building(k, b0, []) && curNode <= 82 + 27 * i
        invariant Marks(rows, b0, 0) && Marks(cols, b0, 1) && Marks(boxes, b0, 2)
        invariant UnitsDone(columns[..], b0, UnitIndex(0, i, 1)) && CellsDone(columns[..], b0, 81)
      {
        for v := 1 to 10
          invariant Building(k, b0, []) && curNode <= 82 + 27 * i + 3 * (v - 1)
          invariant Marks(rows, b0, 0) && Marks(cols, b0, 1) && Marks(boxes, b0, 2)
          invariant UnitsDone(columns[..], b0, UnitIndex(0, i, v)) && CellsDone(columns[..], b0, 81)
        {
          MaxNodes();
          IndexSteps(i, v);
          MarkAt(rows, b0, 0, i, v);
          MarkAt(cols, b0, 1, i, v);
          MarkAt(boxes, b0, 2, i, v);
          k := AppendUnless(rows[i, v], UnitName(0, i, v), 0, i, v, k, b0);
          k := AppendUnless(cols[i, v], UnitName(1, i, v), 1, i, v, k, b0);
          k := AppendUnless(boxes[i, v], UnitName(2, i, v), 2, i, v, k, b0);
        }
        IndexSteps(i, 9);
      }
    }

    /** The rows of the candidates of one empty cell. */
    method AddCellCandidates(i: nat, rows: array2<bool>, cols: array2<bool>, boxes: array2<bool>,
                             ghost l: Layout, ghost b0: seq<int>, ghost before: seq<Placement>)
        returns (ghost k: Layout, ghost done: seq<Placement>)
      requires Building(l, b0, before) && ValidBoard(b0) && |b0| == 81 && columns.Length == 400 && i < 81 && b0[i] == 0
      requires Marks(rows, b0, 0) && Marks(cols, b0, 1) && Marks(boxes, b0, 2)
      requires AllOpen(columns[..], b0) && MadeUpTo(before, b0, PlaceIndex(i, 1)) && curNode <= 325 + 36 * i
      modifies this`curNode, nodes
      ensures Building(k, b0, done) && MadeUpTo(done, b0, PlaceIndex(i + 1, 1)) && curNode <= 325 + 36 * (i + 1)
    {
      hide *;
      k, done := l, before;
      var row := i / 9;
      var col := i % 9;
      var box := row / 3 * 3 + col / 3;
      UnitsOfCell(i);
      for v := 1 to 10
        invariant Building(k, b0, done) && curNode <= 325 + 36 * i + 4 * (v - 1)
        invariant Marks(rows, b0, 0) && Marks(cols, b0, 1) && Marks(boxes, b0, 2)
        invariant MadeUpTo(done, b0, PlaceIndex(i, v))
      {
        MaxNodes();
        PlaceSteps(i, v);
        CandidateIsUnheld(b0, i, v);
        MadeStep(done, b0, i, v);
        MarkAt(rows, b0, 0, row, v);
        MarkAt(cols, b0, 1, col, v);
        MarkAt(boxes, b0, 2, box, v);
        if !(rows[row, v] || cols[col, v] || boxes[box, v]) {
          CandidateColumns(columns[..], b0, i, v);
          k := AddCandidate(i, v, k, b0, done);
          done := done + [Placement(i, v)];
        }
      }
      PlaceSteps(i, 9);
    }

    /** A row for every candidate. */
    method AddCandidates(rows: array2<bool>, cols: array2<bool>, boxes: array2<bool>, ghost l: Layout,
        ghost b0: seq<int>)
        returns (ghost k: Layout, ghost done: seq<Placement>)
      requires Building(l, b0, []) && ValidBoard(b0) && |b0| == 81 && columns.Length == 400 && curNode <= 325
          && inout[..] == b0
      requires Marks(rows, b0, 0) && Marks(cols, b0, 1) && Marks(boxes, b0, 2)
      requires AllOpen(columns[..], b0)
      modifies this`curNode, nodes
      ensures Building(k, b0, done) && MadeUpTo(done, b0, PlaceIndex(81, 1))
    {
      hide *;
      k, done := l, [];
      NothingMade(b0);
      for i := 0 to 81
        invariant Building(k, b0, done) && curNode <= 325 + 36 * i
        invariant Marks(rows, b0, 0) && Marks(cols, b0, 1) && Marks(boxes, b0, 2)
        invariant MadeUpTo(done, b0, PlaceIndex(i, 1))
      {
        if inout[i] == 0 {
          k, done := AddCellCandidates(i, rows, cols, boxes, k, b0, done);
        } else {
          MadeSkips(done, b0, i);
        }
      }
    }

    method PutLeftOf(o: nat, n: nat)
      requires Closed(nodes[..]) && o < nodes.Length && n < nodes.Length
      modifies nodes
      ensures Closed(nodes[..]) && nodes[..] == PutLeft(old(nodes[..]), o, n)
    {
      nodes[n] := nodes[n].(left := nodes[o].left, right := o);
      nodes[nodes[o].left] := nodes[nodes[o].left].(right := n);
      nodes[o] := nodes[o].(left := n);
    }

    method PutUpFrom(o: nat, n: nat)
      requires Closed(nodes[..]) && o < nodes.Length && n < nodes.Length
      modifies nodes
      ensures Closed(nodes[..]) && nodes[..] == PutUp(old(nodes[..]), o, n)
    {
      nodes[n] := nodes[n].(up := nodes[o].up, down := o);
      nodes[nodes[o].up] := nodes[nodes[o].up].(down := n);
      nodes[o] := nodes[o].(up := n, size := nodes[o].size + 1);
      nodes[n] := nodes[n].(col := o);
    }

    /** The loop body of `cover`. */
    method UnlinkNode(j: nat)
      requires Closed(nodes[..]) && j < nodes.Length
      modifies nodes
      ensures Closed(nodes[..]) && nodes[..] == Unlink(old(nodes[..]), j)
    {
      ghost var x: Pool := nodes[..];
      nodes[nodes[j].down] := nodes[nodes[j].down].(up := nodes[j].up);
      ghost var y := nodes[..];
      assert y == x[x[j].down := x[x[j].down].(up := x[j].up)];
      nodes[nodes[j].up] := nodes[nodes[j].up].(down := nodes[j].down);
      ghost var z := nodes[..];
      assert z == y[y[j].up := y[y[j].up].(down := y[j].down)];
      nodes[nodes[j].col] := nodes[nodes[j].col].(size := nodes[nodes[j].col].size - 1);
      assert nodes[..] == z[z[j].col := z[z[j].col].(size := z[z[j].col].size - 1)];
    }

    /** The loop body of `uncover`. */
    method RelinkNode(j: nat)
      requires Closed(nodes[..]) && j < nodes.Length
      modifies nodes
      ensures Closed(nodes[..]) && nodes[..] == Relink(old(nodes[..]), j)
    {
      ghost var x: Pool := nodes[..];
      nodes[nodes[j].col] := nodes[nodes[j].col].(size := nodes[nodes[j].col].size + 1);
      ghost var y := nodes[..];
      assert y == x[x[j].col := x[x[j].col].(size := x[x[j].col].size + 1)];
      assert y[j].down == x[j].down && y[j].up == x[j].up;
      nodes[nodes[j].down] := nodes[nodes[j].down].(up := j);
      ghost var z := nodes[..];
      assert z == y[y[j].down := y[y[j].down].(up := j)];
      assert z[j].up < |z|;
      nodes[nodes[j].up] := nodes[nodes[j].up].(down := j);
      assert nodes[..] == z[z[j].up := z[z[j].up].(down := j)];
      ghost var w: Pool := Relink(x, j);
      assert nodes[..] == w;
    }

    method UnlinkColumnHeader(c: nat)
      requires Closed(nodes[..]) && c < nodes.Length
      modifies nodes
      ensures Closed(nodes[..]) && nodes[..] == UnlinkHeader(old(nodes[..]), c)
    {
      nodes[nodes[c].right] := nodes[nodes[c].right].(left := nodes[c].left);
      nodes[nodes[c].left] := nodes[nodes[c].left].(right := nodes[c].right);
    }

    method RelinkColumnHeader(c: nat)
      requires Closed(nodes[..]) && c < nodes.Length
      modifies nodes
      ensures Closed(nodes[..]) && nodes[..] == RelinkHeader(old(nodes[..]), c)
    {
      nodes[nodes[c].right] := nodes[nodes[c].right].(left := c);
      nodes[nodes[c].left] := nodes[nodes[c].left].(right := c);
    }

    /** The outer loop body of `cover`: takes the rest of one row out of its columns. */
    method CoverRow(row: nat, ghost x: Pool, ghost l: Layout, ghost c: nat, ghost i: nat)
      requires Represents(x, l) && Consistent(l) && c in l.h && c < |x|
      requires i < |Column(l, c)| && row == Column(l, c)[i]
      requires Closed(nodes[..]) && nodes[..] == PartialCoverPool(x, l, c, Progress(l, c, i))
      modifies nodes
      ensures Closed(nodes[..]) && nodes[..] == PartialCoverPool(x, l, c, Progress(l, c, i + 1))
    {
      hide *;
      ghost var rest, k: nat := Rest(l.m, row), 0;
      RowStep(x, l, c, i, 0, 0, nodes[..], row, rest);
      var j := nodes[row].right;
      while j != row
        invariant k <= |rest| && j == (if k < |rest| then rest[k] else row)
        invariant Closed(nodes[..]) && nodes[..] == PartialCoverPool(x, l, c, Progress(l, c, i) + k)
        decreases |rest| - k
      {
        NextTarget(x, l, c, i, k, nodes[..]);
        UnlinkNode(j);
        k := k + 1;
        RowStep(x, l, c, i, k, k, nodes[..], row, rest);
        j := nodes[j].right;
      }
      NextRow(l, c, i);
    }

    /** Takes column `c` and the rows standing in it out of the structure. */
    method Cover(c: nat, ghost l: Layout)
      requires Closed(nodes[..]) && Represents(nodes[..], l) && Consistent(l) && c in l.h && c < nodes.Length
      modifies nodes
      ensures Closed(nodes[..]) && nodes[..] == CoverPool(old(nodes[..]), l, c)
    {
      hide *;
      ghost var x: Pool, s, i: nat := nodes[..], Column(l, c), 0;
      PartialCoverStart(x, l, c);
      ColumnEnds(x, l, c);
      UnlinkColumnHeader(c);
      ColumnStep(x, l, c, 0, 0);
      var row := nodes[c].down;
      while row != c
        invariant i <= |s| && row == (if i < |s| then s[i] else c)
        invariant Closed(nodes[..]) && nodes[..] == PartialCoverPool(x, l, c, Progress(l, c, i))
        decreases |s| - i
      {
        CoverRow(row, x, l, c, i);
        i := i + 1;
        ColumnStep(x, l, c, i, i);
        row := nodes[row].down;
      }
    }

    /** The outer loop body of `uncover`: puts back what `CoverRow` took out. */
    method UncoverRow(row: nat, ghost x: Pool, ghost l: Layout, ghost c: nat, ghost i: nat)
      requires Represents(x, l) && Consistent(l) && c in l.h && c < |x|
      requires i < |Column(l, c)| && row == Column(l, c)[i]
      requires Closed(nodes[..]) && nodes[..] == PartialCoverPool(x, l, c, Progress(l, c, i + 1))
      modifies nodes
      ensures Closed(nodes[..]) && nodes[..] == PartialCoverPool(x, l, c, Progress(l, c, i))
    {
      hide *;
      ghost var rest, k: nat := Rest(l.m, row), |Rest(l.m, row)|;
      NextRow(l, c, i);
      RowStep(x, l, c, i, k, 0, nodes[..], row, rest);
      var j := nodes[row].left;
      while j != row
        invariant k <= |rest| && j == ([row] + rest)[k]
        invariant Closed(nodes[..]) && nodes[..] == PartialCoverPool(x, l, c, Progress(l, c, i) + k)
        decreases k
      {
        k := k - 1;
        NextTarget(x, l, c, i, k, PartialCoverPool(x, l, c, Progress(l, c, i) + k));
        RelinkNode(j);
        RowStep(x, l, c, i, k, k + 1, nodes[..], row, rest);
        j := nodes[j].left;
      }
    }

    /** Undoes `Cover`: from the pool that covering `c` made of `x`, back to `x` itself. */
    method Uncover(c: nat, ghost x: Pool, ghost l: Layout)
      requires Represents(x, l) && Consistent(l) && c in l.h && c < |x|
      requires Closed(nodes[..]) && nodes[..] == CoverPool(x, l, c)
      modifies nodes
      ensures nodes[..] == x
    {
      hide *;
      ghost var s := Column(l, c);
      ghost var i: nat := |s|;
      PartialCoverStart(x, l, c);
      ColumnEnds(x, l, c);
      ColumnStep(x, l, c, i, 0);
      var row := nodes[c].up;
      while row != c
        invariant i <= |s| && row == ([c] + s)[i]
        invariant Closed(nodes[..]) && nodes[..] == PartialCoverPool(x, l, c, Progress(l, c, i))
        decreases i
      {
        assert i > 0;
        i := i - 1;
        UncoverRow(row, x, l, c, i);
        ColumnStep(x, l, c, i, i + 1);
        row := nodes[row].up;
      }
      RelinkHeaderUndoesUnlinkHeader(x, c);
      RelinkColumnHeader(c);
    }

    /** Covers the columns of the other nodes of a chosen row. */
    method CoverRest(row: nat, ghost l: Layout)
      requires Closed(nodes[..]) && Represents(nodes[..], l) && Consistent(l) && row in l.m.node
      requires Coverable(l, ColumnsOf(l.m, Rest(l.m, row)))
      modifies nodes
      ensures Closed(nodes[..]) && nodes[..] == CoverManyPool(old(nodes[..]), l, ColumnsOf(l.m, Rest(l.m, row)))
    {
      hide *;
      ghost var x: Pool, rest, cs := nodes[..], Rest(l.m, row), ColumnsOf(l.m, Rest(l.m, row));
      ghost var k: nat := 0;
      RestEnds(x, l, row);
      RestStep(x, l, row, 0, 0);
      var j := nodes[row].right;
      while j != row
        invariant k <= |rest| && j == (if k < |rest| then rest[k] else row)
        invariant Closed(nodes[..]) && nodes[..] == CoverManyPool(x, l, cs[..k])
        decreases |rest| - k
      {
        RestStep(x, l, row, k, k + 1);
        CoverManyStep(x, l, cs, k);
        Cover(nodes[j].col, CoverMany(l, cs[..k]));
        k := k + 1;
        RestStep(x, l, row, k, k);
        j := nodes[j].right;
      }
    }

    /** Undoes `CoverRest`, last column first. */
    method UncoverRest(row: nat, ghost x: Pool, ghost l: Layout)
      requires Represents(x, l) && Consistent(l) && row in l.m.node
      requires Coverable(l, ColumnsOf(l.m, Rest(l.m, row)))
      requires Closed(nodes[..]) && nodes[..] == CoverManyPool(x, l, ColumnsOf(l.m, Rest(l.m, row)))
      modifies nodes
      ensures nodes[..] == x
    {
      hide *;
      ghost var rest, cs := Rest(l.m, row), ColumnsOf(l.m, Rest(l.m, row));
      ghost var k: nat := |rest|;
      RestEnds(x, l, row);
      RestStep(x, l, row, k, 0);
      var j := nodes[row].left;
      while j != row
        invariant k <= |rest| && j == ([row] + rest)[k]
        invariant Closed(nodes[..]) && nodes[..] == CoverManyPool(x, l, cs[..k])
        decreases k
      {
        assert k > 0;
        k := k - 1;
        ghost var y, p := CoverManyPool(x, l, cs[..k]), CoverMany(l, cs[..k]);
        RestStep(x, l, row, k + 1, k + 1);
        var c := nodes[j].col;
        assert c == cs[k];
        CoverManyStep(x, l, cs, k);
        Uncover(c, y, p);
        RestStep(x, l, row, k, k + 1);
        j := nodes[j].left;
      }
    }

    /** The scan of one chosen row for its cell and its value. */
    method ReadRow(start: nat, ghost l: Layout) returns (cell: int, val: int)
      requires Closed(nodes[..]) && Represents(nodes[..], l) && SudokuRows(l.m) && start in l.m.node
      requires start < nodes.Length
      ensures l.m.node[start].row < |l.m.rows|
      ensures cell == Cell(l.m, l.m.node[start].row) && val == Val(l.m, l.m.node[start].row)
    {
      hide *;
      ghost var x: Pool := nodes[..];
      ReadStep(x, l, start, 0);
      ghost var k, r := CellAt(l.m, start), l.m.node[start].row;
      ghost var ring: seq<nat> := [start] + Rest(l.m, start);
      ghost var c, v := Cell(l.m, r), Val(l.m, r);
      cell, val := -1, -1;
      var n := start;
      ghost var t: nat := 0;
      while cell == -1 || val == -1
        invariant t <= 4 && (t < 4 ==> n == ring[t])
        invariant cell == (if t > k then c else -1)
        invariant val == (if t > (if k == 0 then 1 else 0) then v else -1)
        decreases 4 - t
      {
        ReadStep(x, l, start, t);
        if nodes[n].name < 100 {
          cell := nodes[n].name;
        } else {
          val := nodes[n].name % 10;
        }
        n := nodes[n].right;
        t := t + 1;
      }
    }

    /** What `solve` does when no column is left: every chosen row fills its cell. */
    method WriteSolution(ghost l: Layout)
      requires Closed(nodes[..]) && Represents(nodes[..], l) && SudokuRows(l.m) && ValidStack(l, stack)
      requires inout.Length == 81
      modifies inout
      ensures Written(inout[..], old(inout[..]), l.m, StackRows(l.m, stack))
    {
      ghost var x: Pool, b0 := nodes[..], inout[..];
      WrittenNothing(b0, l, stack);
      for i := 0 to |stack|
        invariant Written(inout[..], b0, l.m, StackRows(l.m, stack[..i]))
      {
        StackEntry(x, l, stack, i);
        var cell, val := ReadRow(stack[i], l);
        ghost var b := inout[..];
        hide Represents, Closed, ValidStack, Written, SudokuRows, StackRows, Cell, Val;
        inout[cell] := val;
        assert inout[..] == b[cell := val];
        WrittenStep(b, b0, l, stack, i, inout[..]);
      }
      assert stack[..|stack|] == stack;
    }

    /** Picks a column with the fewest standing nodes; the scan stops early at a size of at most one. */
    method GetMinColumn(ghost l: Layout) returns (c: nat, ghost k: nat)
      requires Closed(nodes[..]) && Represents(nodes[..], l) && l.h != [] && ROOT < nodes.Length
      ensures k < |l.h| && c == l.h[k] && c < nodes.Length
      ensures forall i | 0 <= i < k :: |Column(l, c)| < |Column(l, l.h[i])|
      ensures |Column(l, c)| <= 1 || forall i | k < i < |l.h| :: |Column(l, c)| <= |Column(l, l.h[i])|
    {
      hide *;
      ghost var x: Pool := nodes[..];
      HeaderStep(x, l, 0);
      HeaderStep(x, l, 1);
      c, k := nodes[ROOT].right, 0;
      var minSize := nodes[c].size;
      if minSize > 1 {
        var cc := nodes[c].right;
        ghost var i: nat := 1;
        while cc != ROOT
          invariant k < i <= |l.h| && c == l.h[k] && c < nodes.Length && minSize == |Column(l, c)| > 1
          invariant cc == (if i < |l.h| then l.h[i] else ROOT) && (i < |l.h| ==> l.h[i] != ROOT)
          invariant forall j | 0 <= j < k :: |Column(l, c)| < |Column(l, l.h[j])|
          invariant forall j | k < j < i :: |Column(l, c)| <= |Column(l, l.h[j])|
          decreases |l.h| - i
        {
          HeaderStep(x, l, i + 1);
          if minSize > nodes[cc].size {
            c, k := cc, i;
            minSize := nodes[cc].size;
            if minSize <= 1 {
              break;
            }
          }
          cc := nodes[cc].right;
          i := i + 1;
        }
      }
    }

    /** The loop body of `solve`: chooses the `i`-th node of the covered column `c` and searches on. */
    method TryRow(row: nat, ghost x: Pool, ghost l: Layout, ghost c: nat, ghost i: nat) returns (found: bool,
        ghost p: set<nat>)
      requires Represents(x, l) && Consistent(l) && SudokuRows(l.m) && ValidStack(l, stack) && inout.Length == 81
      requires c in l.h && c < |x| && i < |Column(l, c)| && row == Column(l, c)[i]
      requires Closed(nodes[..]) && nodes[..] == CoverPool(x, l, c)
      modifies nodes, inout, this`stack
      ensures !found ==> nodes[..] == old(nodes[..]) && stack == old(stack) && inout[..] == old(inout[..])
      ensures !found ==> row in l.m.node && NoExactCover(Chosen(l, row))
      ensures found ==> IsExactCover(l, p) && Written(inout[..], old(inout[..]), l.m, StackRows(l.m, old(stack)) + p)
      decreases Elems(l.h), 0
    {
      hide *;
      ghost var x1: Pool, l1, stack0 := nodes[..], CoverLayout(l, c), stack;
      ChoiceReady(x, l, c, i);
      stack := stack + [row];
      CoverRest(row, l1);
      StackGrows(x, l, stack0, row);
      ghost var q;
      found, q := Solve(Chosen(l, row));
      p := q;
      if found {
        ChoiceExtends(x, l, row, q);
        StackRowsGrow(l.m, stack0, row, q);
        p := q + {l.m.node[row].row};
      } else {
        stack := stack[..|stack| - 1];
        UncoverRest(row, x1, l1);
      }
    }

    /** The backtracking search.  On success `p` is the exact cover it found and the board is filled
        in for it and for the stack; on failure there is no exact cover, and every link, every size,
        the stack and the board are as they were. */
    method Solve(ghost l: Layout) returns (ok: bool, ghost p: set<nat>)
      requires Closed(nodes[..]) && Represents(nodes[..], l) && Consistent(l) && SudokuRows(l.m) && ValidStack(l, stack)
      requires inout.Length == 81
      modifies nodes, inout, this`stack
      ensures !ok ==>
          nodes[..] == old(nodes[..]) && stack == old(stack) && inout[..] == old(inout[..]) && NoExactCover(l)
      ensures ok ==> IsExactCover(l, p) && Written(inout[..], old(inout[..]), l.m, StackRows(l.m, old(stack)) + p)
      decreases Elems(l.h), 1
    {
      hide *;
      ghost var x: Pool, stack0, b0 := nodes[..], stack, inout[..];
      p := {};
      RootStep(x, l);
      if nodes[ROOT].left == ROOT {
        WriteSolution(l);
        assert StackRows(l.m, stack0) + {} == StackRows(l.m, stack0);
        return true, {};
      }
      var c, k := GetMinColumn(l);
      assert c in l.h;
      Cover(c, l);
      ghost var x1: Pool, s := nodes[..], Column(l, c);
      ghost var i: nat := 0;
      ColumnEnds(x, l, c);
      ColumnStep(x, l, c, |s|, 0);
      var row := nodes[c].down;
      while row != c
        invariant i <= |s| && row == (if i < |s| then s[i] else c)
        invariant Closed(nodes[..]) && nodes[..] == x1 && stack == stack0 && inout[..] == b0
        invariant forall j | 0 <= j < i :: s[j] in l.m.node && NoExactCover(Chosen(l, s[j]))
        decreases |s| - i
      {
        ghost var q;
        ok, q := TryRow(row, x, l, c, i);
        if ok {
          return true, q;
        }
        i := i + 1;
        ColumnStep(x, l, c, |s|, i);
        row := nodes[row].down;
      }
      NoChoiceNoCover(x, l, c);
      Uncover(c, x, l);
      return false, {};
    }
  }

  lemma RootStep(x: Pool, l: Layout)
    requires Represents(x, l)
    ensures ROOT < |x| && (x[ROOT].left == ROOT <==> l.h == [])
    ensures l.h == [] ==> IsExactCover(l, {})
  {
    RowWalk(x, ROOT, l.h, 0);
  }

  /** The stack stays valid when a standing node is pushed and the columns of its row are covered. */
  lemma StackGrows(x: Pool, l: Layout, stack: seq<nat>, e: nat)
    requires SudokuRows(l.m) && ValidStack(l, stack) && Consistent(l) && Represents(x, l) && Stands(l, e)
    ensures ValidStack(Chosen(l, e), stack + [e])
  {
    hide Consistent, Represents, SudokuRows, Covers, Chosen, CellColumn, ValidMatrix, ValidLayout, Live, Disjoint;
    LiveCellColumn(l, e);
    ChosenLayout(x, l, e);
    var t := stack + [e];
    forall i, j | 0 <= i < j < |t|
      ensures DifferentCellColumns(l.m, t[i], t[j])
    {
      assert t[i] in stack;
    }
  }

  lemma LiveCellColumn(l: Layout, e: nat)
    requires SudokuRows(l.m) && Consistent(l) && Stands(l, e)
    ensures CellColumn(l.m, e) in l.h && Covers(l.m, l.m.node[e].row, CellColumn(l.m, e))
  {
    var r := l.m.node[e].row;
    NodeRow(l.m, e);
    assert SudokuRow(l.m, l.m.rows[r]);
    var f := l.m.rows[r][0];
    RowNodes(l.m, r);
    assert Live(l, r);
    assert f in l.m.rows[r];
    assert Stands(l, f);
  }

  lemma StackRowsGrow(m: Matrix, stack: seq<nat>, e: nat, q: set<nat>)
    requires e in m.node
    ensures StackRows(m, stack + [e]) + q == StackRows(m, stack) + (q + {m.node[e].row})
  {
    hide ValidMatrix;
  }

  /** The `i`-th place of the header row, the root being place 0. */
  lemma HeaderStep(x: Pool, l: Layout, i: nat)
    requires Represents(x, l) && i <= |l.h|
    ensures ([ROOT] + l.h)[i] < |x| && x[([ROOT] + l.h)[i]].right == (if i < |l.h| then l.h[i] else ROOT)
    ensures i > 0 ==> l.h[i - 1] != ROOT && x[l.h[i - 1]].size == |Column(l, l.h[i - 1])|
    ensures i < |l.h| ==> l.h[i] != ROOT
  {
    RowWalk(x, ROOT, l.h, i);
    if i > 0 {
      assert ColumnLinked(x, Column(l, l.h[i - 1]), l.h[i - 1]);
    }
  }

  // ---------------------------------------------------------------- what is written

  lemma WrittenNothing(b: seq<int>, l: Layout, stack: seq<nat>)
    requires SudokuRows(l.m) && |b| == 81
    ensures Written(b, b, l.m, StackRows(l.m, stack[..0]))
  {
  }

  lemma StackEntry(x: Pool, l: Layout, stack: seq<nat>, i: nat)
    requires Represents(x, l) && SudokuRows(l.m) && ValidStack(l, stack) && i < |stack|
    ensures stack[i] in l.m.node && stack[i] < |x|
  {
    assert stack[i] in stack;
    assert Labelled(x, l.m, stack[i]);
  }

  /** Rows with different cell columns fill different cells. */
  lemma DifferentCells(m: Matrix, e: nat, f: nat)
    requires SudokuRows(m) && e in m.node && f in m.node && CellColumn(m, e) != CellColumn(m, f)
    ensures m.node[e].row < |m.rows| && m.node[f].row < |m.rows|
    ensures Cell(m, m.node[e].row) != Cell(m, m.node[f].row)
  {
    NodeRow(m, e);
    NodeRow(m, f);
    RowEntry(m, m.node[e].row, 0);
    RowEntry(m, m.node[f].row, 0);
    assert NamedAlike(m.node[m.rows[m.node[e].row][0]], m.node[m.rows[m.node[f].row][0]]);
  }

  lemma WrittenStep(b: seq<int>, b0: seq<int>, l: Layout, stack: seq<nat>, i: nat, b': seq<int>)
    requires SudokuRows(l.m) && ValidStack(l, stack) && i < |stack| && stack[i] in l.m.node
        && l.m.node[stack[i]].row < |l.m.rows|
    requires Written(b, b0, l.m, StackRows(l.m, stack[..i])) && |b| == 81
    requires b' == b[Cell(l.m, l.m.node[stack[i]].row) := Val(l.m, l.m.node[stack[i]].row)]
    ensures Written(b', b0, l.m, StackRows(l.m, stack[..i + 1]))
  {
    var m, p, r := l.m, StackRows(l.m, stack[..i]), l.m.node[stack[i]].row;
    StackRowsStep(m, stack, i);
    forall s | s in p
      ensures s < |m.rows| && Cell(m, s) != Cell(m, r)
    {
      EarlierCells(l, stack, i, s);
    }
    hide ValidStack, SudokuRows, StackRows, Written, Cell, Val;
    WrittenOne(b, b0, m, p, r);
  }

  lemma StackRowsStep(m: Matrix, stack: seq<nat>, i: nat)
    requires i < |stack| && stack[i] in m.node
    ensures StackRows(m, stack[..i + 1]) == StackRows(m, stack[..i]) + {m.node[stack[i]].row}
  {
    hide ValidMatrix;
    assert stack[..i + 1] == stack[..i] + [stack[i]];
  }

  lemma EarlierCells(l: Layout, stack: seq<nat>, i: nat, s: nat)
    requires SudokuRows(l.m) && ValidStack(l, stack) && i < |stack| && s in StackRows(l.m, stack[..i])
    ensures stack[i] in l.m.node && l.m.node[stack[i]].row < |l.m.rows| && s < |l.m.rows|
    ensures Cell(l.m, s) != Cell(l.m, l.m.node[stack[i]].row)
  {
    hide SudokuRows, ValidMatrix, Cell;
    var k :| 0 <= k < i && stack[k] in l.m.node && l.m.node[stack[k]].row == s;
    assert DifferentCellColumns(l.m, stack[k], stack[i]);
    DifferentCells(l.m, stack[k], stack[i]);
  }

  lemma WrittenOne(b: seq<int>, b0: seq<int>, m: Matrix, p: set<nat>, r: nat)
    requires SudokuRows(m) && r < |m.rows| && Written(b, b0, m, p)
    requires forall s | s in p :: s < |m.rows| && Cell(m, s) != Cell(m, r)
    ensures Written(b[Cell(m, r) := Val(m, r)], b0, m, p + {r})
  {
    hide SudokuRows, ValidMatrix, Cell, Val;
    assert r in p + {r};
    forall j: nat | j < 81 && Untouched(m, p + {r}, j)
      ensures Untouched(m, p, j) && j != Cell(m, r)
    {
    }
  }

  lemma RotatedAt(row: seq<nat>, pos: nat, t: nat)
    requires |row| == 4 && pos < 4 && t < 4
    ensures (row[pos..] + row[..pos])[t] == row[if pos + t < 4 then pos + t else pos + t - 4]
  {
  }

  /** The `t`-th node around a row, wherever in the row one starts; the cell is named at `CellAt`. */
  lemma RowName(m: Matrix, e: nat, t: nat)
    requires SudokuRows(m) && e in m.node && t < 4
    ensures m.node[e].row < |m.rows| && |Rest(m, e)| == 3 && ([e] + Rest(m, e))[t] in m.node
    ensures var n := m.node[([e] + Rest(m, e))[t]].name;
            if t == CellAt(m, e) then n < 100 && n == Cell(m, m.node[e].row)
                else n >= 100 && n % 10 == Val(m, m.node[e].row)
  {
    NodeRow(m, e);
    RestRotatesRow(m, e);
    var r, pos := m.node[e].row, m.node[e].pos;
    RowEntry(m, r, 0);
    hide ValidMatrix, Rest, SudokuRows, Cell, Val;
    assert |[e] + Rest(m, e)| == 4;
    RotatedAt(m.rows[r], pos, t);
    RowEntry(m, r, if pos + t < 4 then pos + t else pos + t - 4);
  }

  ghost function CellAt(m: Matrix, e: nat): (k: int)
    requires e in m.node
  {
    if m.node[e].pos == 0 then 0 else 4 - m.node[e].pos
  }

  lemma ReadStep(x: Pool, l: Layout, e: nat, t: nat)
    requires Represents(x, l) && SudokuRows(l.m) && e in l.m.node && t < 4
    ensures l.m.node[e].row < |l.m.rows| && |Rest(l.m, e)| == 3 && 0 <= CellAt(l.m, e) < 4
    ensures var ring: seq<nat> := [e] + Rest(l.m, e);
            && ring[t] < |x| && (t < 3 ==> x[ring[t]].right == ring[t + 1])
            && var n := x[ring[t]].name;
               if t == CellAt(l.m, e) then n < 100 && n == Cell(l.m, l.m.node[e].row)
                   else n >= 100 && n % 10 == Val(l.m, l.m.node[e].row)
  {
    hide *;
    RowName(l.m, e, t);
    CellAtInRow(l.m, e);
    NodeLabel(x, l, ([e] + Rest(l.m, e))[t]);
    LabelledName(x, l.m, ([e] + Rest(l.m, e))[t]);
    RestRing(x, l, e);
    RowWalk(x, e, Rest(l.m, e), t);
  }

  lemma LabelledName(x: Pool, m: Matrix, e: nat)
    requires e in m.node && Labelled(x, m, e)
    ensures e < |x| && x[e].name == m.node[e].name
  {
  }

  lemma CellAtInRow(m: Matrix, e: nat)
    requires SudokuRows(m) && e in m.node
    ensures 0 <= CellAt(m, e) < 4
  {
    NodeRow(m, e);
    assert ValidNode(m, e);
    assert SudokuRow(m, m.rows[m.node[e].row]);
  }
}
