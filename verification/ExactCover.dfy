/** What a pool of links stands for, and what `cover` and `uncover` of examples/sudoku/sudoku.cc mean. A layout is a
    matrix (named columns, rows of nodes) with the headers that are still in the ring and the nodes still in each
    column; a pool represents it when every ring runs through what the layout lists. Covering a column is then a
    function on layouts, every intermediate pool of its loops represents an intermediate layout, and the exact covers
    of a matrix are those of the layouts that its choices lead to. */
module ExactCover {
  import opened DancingLinks

  const ROOT: nat := 0

  /** What is fixed about a node: its row, its place in the row, its column header and its name. */
  datatype NodeInfo = NodeInfo(row: nat, pos: nat, col: nat, name: nat)

  /** The part of the structure that no cover or uncover changes: the column headers, the rows as
      sequences of nodes in `right` order, and the nodes. */
  datatype MatrixData = MatrixData(heads: set<nat>, rows: seq<seq<nat>>, node: map<nat, NodeInfo>)

  type Matrix = m: MatrixData | ValidMatrix(m) witness MatrixData({}, [], map[])

  predicate ValidMatrix(m: MatrixData) {
    && ROOT !in m.heads && ROOT !in m.node && (forall c | c in m.heads :: c !in m.node)
    && (forall e | e in m.node :: ValidNode(m, e))
    && (forall r, k | 0 <= r < |m.rows| && 0 <= k < |m.rows[r]| :: PlacedAt(m, m.rows[r][k], r, k))
    && (forall e, f {:trigger OneNodePerColumn(m, e, f)} | e in m.node && f in m.node :: OneNodePerColumn(m, e, f))
  }

  /** Two nodes of the same row in the same column are the same node. */
  predicate OneNodePerColumn(m: MatrixData, e: nat, f: nat)
    requires e in m.node && f in m.node
  {
    m.node[e].row == m.node[f].row && m.node[e].col == m.node[f].col ==> e == f
  }

  predicate ValidNode(m: MatrixData, e: nat)
    requires e in m.node
  {
    var i := m.node[e];
    i.row < |m.rows| && i.pos < |m.rows[i.row]| && m.rows[i.row][i.pos] == e && i.col in m.heads
  }

  predicate PlacedAt(m: MatrixData, e: nat, r: nat, k: nat) {
    e in m.node && m.node[e].row == r && m.node[e].pos == k
  }

  /** The other nodes of the row of `e`, in the order `right` visits them from `e`. */
  ghost function Rest(m: Matrix, e: nat): seq<nat> {
    if e in m.node then
      assert ValidNode(m, e);
      m.rows[m.node[e].row][m.node[e].pos + 1..] + m.rows[m.node[e].row][..m.node[e].pos]
    else []
  }

  /** A matrix, the headers `h` still in the header row, in order, and the nodes `v[c]` standing in
      every column `c`, top to bottom. */
  datatype LayoutData = LayoutData(m: Matrix, h: seq<nat>, v: map<nat, seq<nat>>)

  type Layout = l: LayoutData | ValidLayout(l) witness LayoutData(MatrixData({}, [], map[]), [], map[])

  predicate ValidLayout(l: LayoutData) {
    && l.v.Keys == l.m.heads
    && Distinct(l.h) && (forall c | c in l.h :: c in l.m.heads)
    && (forall c | c in l.v :: ValidColumn(l.m, l.v[c], c))
  }

  predicate ValidColumn(m: MatrixData, s: seq<nat>, c: nat) {
    Distinct(s) && forall e | e in s :: e in m.node && m.node[e].col == c
  }

  /** The nodes standing in column `c`. */
  ghost function Column(l: Layout, c: nat): (s: seq<nat>)
    ensures ValidColumn(l.m, s, c)
    ensures s != [] ==> c in l.m.heads
  {
    if c in l.v then l.v[c] else []
  }

  /** Node `e` stands in a column that is still to be covered. */
  ghost predicate Stands(l: Layout, e: nat) {
    e in l.m.node && l.m.node[e].col in l.h && e in Column(l, l.m.node[e].col)
  }

  /** `r` is a row all of whose nodes stand. */
  ghost predicate Live(l: Layout, r: nat) {
    r < |l.m.rows| && l.m.rows[r] != [] && forall e | e in l.m.rows[r] :: Stands(l, e)
  }

  /** A node standing in an uncovered column belongs to a live row. */
  ghost predicate Consistent(l: Layout) {
    match l
    case LayoutData(m, h, v) => forall e | Stands(l, e) :: Live(l, m.node[e].row)
  }

  /** The pool `x` is the linked form of the layout `l`. */
  ghost predicate Represents(x: Pool, l: Layout) {
    match l
    case LayoutData(m, h, v) =>
      && RowRing(x, [ROOT] + h)
      && (forall c | c in m.heads :: ColumnLinked(x, Column(l, c), c))
      && (forall r | 0 <= r < |m.rows| && m.rows[r] != [] :: RowRing(x, m.rows[r]))
      && (forall e | e in m.node :: Labelled(x, m, e))
  }

  ghost predicate ColumnLinked(x: Pool, s: seq<nat>, c: nat) {
    ColumnRing(x, [c] + s) && c < |x| && x[c].size == |s|
  }

  ghost predicate Labelled(x: Pool, m: Matrix, e: nat)
    requires e in m.node
  {
    e < |x| && x[e].col == m.node[e].col && x[e].name == m.node[e].name
  }

  // ---------------------------------------------------------------- sequences of nodes

  /** `s` without the nodes of `t`. */
  ghost function Minus(s: seq<nat>, t: set<nat>): (r: seq<nat>)
    ensures forall e :: e in r <==> e in s && e !in t
  {
    if s == [] then [] else if s[0] in t then Minus(s[1..], t) else [s[0]] + Minus(s[1..], t)
  }

  ghost function Elems(s: seq<nat>): set<nat> {
    set e | e in s
  }

  lemma {:induction false} MinusDistinct(s: seq<nat>, t: set<nat>)
    requires Distinct(s)
    ensures Distinct(Minus(s, t))
  {
    if s != [] {
      MinusDistinct(s[1..], t);
      assert s[0] !in s[1..];
    }
  }

  lemma {:induction false} MinusNothing(s: seq<nat>, t: set<nat>)
    requires forall e | e in s :: e !in t
    ensures Minus(s, t) == s
  {
    if s != [] {
      assert forall e | e in s[1..] :: e in s;
      MinusNothing(s[1..], t);
    }
  }

  lemma {:induction false} MinusTwice(s: seq<nat>, t: set<nat>, u: set<nat>)
    ensures Minus(Minus(s, t), u) == Minus(s, t + u)
  {
    if s != [] {
      MinusTwice(s[1..], t, u);
      if s[0] !in t {
        assert Minus(s, t)[1..] == Minus(s[1..], t);
      }
    }
  }

  /** Dropping one node of a duplicate-free sequence. */
  lemma {:induction false} MinusOne(s: seq<nat>, k: nat)
    requires Distinct(s) && k < |s|
    ensures Minus(s, {s[k]}) == DropAt(s, k)
  {
    if k == 0 {
      MinusNothing(s[1..], {s[0]});
    } else {
      assert s[1..][k - 1] == s[k];
      MinusOne(s[1..], k - 1);
      assert DropAt(s, k) == [s[0]] + DropAt(s[1..], k - 1);
    }
  }

  lemma DistinctTail(c: nat, s: seq<nat>)
    requires Distinct([c] + s)
    ensures Distinct(s) && c !in s
  {
    forall i, j | 0 <= i < j < |s| ensures s[i] != s[j] {
      assert ([c] + s)[i + 1] == s[i] && ([c] + s)[j + 1] == s[j];
    }
    forall i | 0 <= i < |s| ensures s[i] != c {
      assert ([c] + s)[0] == c && ([c] + s)[i + 1] == s[i];
    }
  }

  /** Dropping a node from the ring of `c` is dropping it from the column. */
  lemma DropFromRing(c: nat, s: seq<nat>, k: nat)
    requires Distinct([c] + s) && k < |s|
    ensures ([c] + s)[k + 1] == s[k]
    ensures DropAt([c] + s, k + 1) == [c] + Minus(s, {s[k]})
    ensures |Minus(s, {s[k]})| == |s| - 1
  {
    DistinctTail(c, s);
    MinusOne(s, k);
    assert DropAt([c] + s, k + 1) == [c] + DropAt(s, k);
  }

  lemma DistinctConcat(s: seq<nat>, t: seq<nat>)
    requires Distinct(s) && Distinct(t) && forall j | j in s :: j !in t
    ensures Distinct(s + t)
  {
    forall a, b | 0 <= a < b < |s + t|
      ensures (s + t)[a] != (s + t)[b]
    {
      if a < |s| <= b {
        assert s[a] in s && t[b - |s|] in t;
      } else if |s| <= a {
        assert t[a - |s|] != t[b - |s|];
      }
    }
  }

  // ---------------------------------------------------------------- rows

  lemma RowNodes(m: Matrix, r: nat)
    requires r < |m.rows|
    ensures Distinct(m.rows[r])
    ensures forall e :: e in m.rows[r] <==> e in m.node && m.node[e].row == r
  {
    var row := m.rows[r];
    forall i, j | 0 <= i < j < |row| ensures row[i] != row[j] {
      assert PlacedAt(m, row[i], r, i) && PlacedAt(m, row[j], r, j);
    }
    forall e
      ensures e in row <==> e in m.node && m.node[e].row == r
    {
      if e in m.node && m.node[e].row == r {
        assert ValidNode(m, e);
      }
      if e in row {
        var k :| 0 <= k < |row| && row[k] == e;
        assert PlacedAt(m, row[k], r, k);
      }
    }
  }

  lemma NodeRow(m: Matrix, e: nat)
    requires e in m.node
    ensures m.node[e].row < |m.rows| && e in m.rows[m.node[e].row] && m.node[e].col in m.heads
  {
    assert ValidNode(m, e);
  }

  lemma SameRowSameColumn(m: Matrix, e: nat, f: nat)
    requires e in m.node && f in m.node && m.node[e].row == m.node[f].row && m.node[e].col == m.node[f].col
    ensures e == f
  {
    assert OneNodePerColumn(m, e, f);
  }

  lemma NodeLabel(x: Pool, l: Layout, e: nat)
    requires Represents(x, l) && e in l.m.node
    ensures Labelled(x, l.m, e)
  {
  }

  lemma RestRotatesRow(m: Matrix, e: nat)
    requires e in m.node
    ensures ValidNode(m, e)
    ensures [e] + Rest(m, e) == m.rows[m.node[e].row][m.node[e].pos..] + m.rows[m.node[e].row][..m.node[e].pos]
  {
    assert ValidNode(m, e);
    var row, k := m.rows[m.node[e].row], m.node[e].pos;
    assert row[k..] == [row[k]] + row[k + 1..];
  }

  lemma RestDistinct(row: seq<nat>, k: nat)
    requires Distinct(row) && k < |row|
    ensures Distinct(row[k + 1..] + row[..k])
    ensures forall j :: j in row[k + 1..] + row[..k] <==> j in row && j != row[k]
  {
    assert row == row[..k] + [row[k]] + row[k + 1..];
    forall j | j in row[k + 1..] ensures j !in row[..k] && j != row[k] {
    }
    DistinctConcat(row[k + 1..], row[..k]);
  }

  lemma RestNodes(m: Matrix, e: nat)
    requires e in m.node
    ensures Distinct(Rest(m, e))
    ensures forall j :: j in Rest(m, e) <==> j in m.node && m.node[j].row == m.node[e].row && j != e
    ensures forall j | j in Rest(m, e) :: m.node[j].col != m.node[e].col
  {
    assert ValidNode(m, e);
    RowNodes(m, m.node[e].row);
    RestDistinct(m.rows[m.node[e].row], m.node[e].pos);
    forall j | j in Rest(m, e)
      ensures m.node[j].col != m.node[e].col
    {
      if m.node[j].col == m.node[e].col {
        SameRowSameColumn(m, j, e);
      }
    }
  }

  lemma RowRingRotates(x: Pool, row: seq<nat>, k: nat)
    requires RowRing(x, row) && k < |row|
    ensures RowRing(x, row[k..] + row[..k])
  {
    var s := row[k..] + row[..k];
    forall i | 0 <= i < |s|
      ensures RightLink(x, s, i)
    {
      assert RightLink(x, row, if i + k < |row| then i + k else i + k - |row|);
    }
  }

  /** The circle through `e` and the rest of its row. */
  lemma RestRing(x: Pool, l: Layout, e: nat)
    requires Represents(x, l) && e in l.m.node
    ensures RowRing(x, [e] + Rest(l.m, e))
  {
    RestRotatesRow(l.m, e);
    RowRingRotates(x, l.m.rows[l.m.node[e].row], l.m.node[e].pos);
  }

  // ---------------------------------------------------------------- unlinking one node

  ghost function Without(l: Layout, t: set<nat>): Layout {
    var d := LayoutData(l.m, l.h, map c | c in l.v :: Minus(l.v[c], t));
    WithoutIsValid(l, t, d);
    d
  }

  lemma WithoutIsValid(l: Layout, t: set<nat>, d: LayoutData)
    requires d == LayoutData(l.m, l.h, map c | c in l.v :: Minus(l.v[c], t))
    ensures ValidLayout(d)
  {
    forall c | c in l.v
      ensures ValidColumn(l.m, d.v[c], c)
    {
      assert ValidColumn(l.m, l.v[c], c);
      MinusDistinct(l.v[c], t);
    }
  }

  lemma WithoutColumn(l: Layout, t: set<nat>, c: nat)
    ensures Column(Without(l, t), c) == Minus(Column(l, c), t)
  {
  }

  lemma WithoutTwice(l: Layout, t: set<nat>, u: set<nat>)
    ensures Without(Without(l, t), u) == Without(l, t + u)
  {
    hide ValidLayout, ValidMatrix;
    forall c | c in l.v
      ensures Minus(Minus(l.v[c], t), u) == Minus(l.v[c], t + u)
    {
      MinusTwice(l.v[c], t, u);
    }
  }

  lemma WithoutNothing(l: Layout)
    ensures Without(l, {}) == l
  {
    forall c | c in l.v
      ensures Minus(l.v[c], {}) == l.v[c]
    {
      MinusNothing(l.v[c], {});
    }
  }

  lemma UnlinkInOwnColumn(x: Pool, s: seq<nat>, c: nat, k: nat)
    requires ColumnLinked(x, s, c) && k < |s| && s[k] < |x| && x[s[k]].col == c
    ensures ColumnLinked(Unlink(x, s[k]), Minus(s, {s[k]}), c)
  {
    DropFromRing(c, s, k);
    UnlinkShrinksRing(x, [c] + s, k + 1);
    UnlinkEffect(x, s[k], c);
  }

  lemma UnlinkInOtherColumn(x: Pool, s: seq<nat>, c: nat, t: seq<nat>, d: nat, k: nat)
    requires ColumnLinked(x, s, c) && ColumnLinked(x, t, d)
    requires k < |t| && t[k] < |x| && x[t[k]].col == d
    requires forall e | e in [c] + s :: e !in [d] + t
    ensures ColumnLinked(Unlink(x, t[k]), Minus(s, {t[k]}), c)
  {
    var y, j := Unlink(x, t[k]), t[k];
    assert ([d] + t)[k + 1] == j;
    ColumnRingAt(x, [d] + t, k + 1);
    forall i | 0 <= i < |[c] + s|
      ensures y[([c] + s)[i]].up == x[([c] + s)[i]].up && y[([c] + s)[i]].down == x[([c] + s)[i]].down
    {
      assert ([c] + s)[i] in [c] + s;
      UnlinkEffect(x, j, ([c] + s)[i]);
    }
    ColumnRingFrame(x, y, [c] + s);
    assert c in [c] + s && d in [d] + t;
    UnlinkEffect(x, j, c);
    assert forall e | e in s :: e in [c] + s;
    MinusNothing(s, {j});
  }

  lemma ColumnsApart(l: Layout, c: nat, d: nat)
    requires c in l.m.heads && d in l.m.heads && c != d
    ensures forall e | e in [c] + Column(l, c) :: e !in [d] + Column(l, d)
  {
  }

  /** Where a node that is listed in its column is. */
  lemma ListedNode(x: Pool, l: Layout, j: nat) returns (d: nat, k: nat)
    requires Represents(x, l) && j in l.m.node && j in Column(l, l.m.node[j].col)
    ensures d == l.m.node[j].col && d in l.m.heads && k < |Column(l, d)| && Column(l, d)[k] == j
    ensures j < |x| && x[j].col == d
    ensures ColumnLinked(x, Column(l, d), d) && x[x[j].down].up == j && x[x[j].up].down == j
  {
    d := l.m.node[j].col;
    k :| 0 <= k < |Column(l, d)| && Column(l, d)[k] == j;
    assert ColumnLinked(x, Column(l, d), d) && Labelled(x, l.m, j);
    assert ([d] + Column(l, d))[k + 1] == j;
    ColumnRingAt(x, [d] + Column(l, d), k + 1);
  }

  lemma UnlinkInColumns(x: Pool, l: Layout, j: nat, c: nat)
    requires Represents(x, l) && j in l.m.node && j in Column(l, l.m.node[j].col) && c in l.m.heads && j < |x|
    ensures ColumnLinked(Unlink(x, j), Minus(Column(l, c), {j}), c)
  {
    var d, k := ListedNode(x, l, j);
    assert ColumnLinked(x, Column(l, c), c);
    if c == d {
      UnlinkInOwnColumn(x, Column(l, c), c, k);
    } else {
      ColumnsApart(l, c, d);
      UnlinkInOtherColumn(x, Column(l, c), c, Column(l, d), d, k);
    }
  }

  lemma LabelsKept(x: Pool, y: Pool, m: Matrix)
    requires |y| == |x| && forall e | e in m.node :: Labelled(x, m, e)
    requires forall i | 0 <= i < |x| :: y[i].col == x[i].col && y[i].name == x[i].name
    ensures forall e | e in m.node :: Labelled(y, m, e)
  {
    forall e | e in m.node
      ensures Labelled(y, m, e)
    {
      assert Labelled(x, m, e);
    }
  }

  /** Unlinking a listed node is removing it from the layout. */
  lemma UnlinkRemoves(x: Pool, l: Layout, j: nat)
    requires Represents(x, l) && j in l.m.node && j in Column(l, l.m.node[j].col)
    ensures j < |x| && x[x[j].down].up == j && x[x[j].up].down == j
    ensures Represents(Unlink(x, j), Without(l, {j}))
  {
    var d, k := ListedNode(x, l, j);
    var y := Unlink(x, j);
    UnlinkKeepsRows(x, l, j);
    forall c | c in l.m.heads
      ensures ColumnLinked(y, Column(Without(l, {j}), c), c)
    {
      UnlinkInColumns(x, l, j, c);
      WithoutColumn(l, {j}, c);
    }
    hide Unlink, Column, Stands, RowRing, ColumnLinked, ValidLayout, ValidMatrix;
  }

  lemma UnlinkKeepsRows(x: Pool, l: Layout, j: nat)
    requires Represents(x, l) && j < |x|
    ensures RowRing(Unlink(x, j), [ROOT] + l.h)
    ensures forall r | 0 <= r < |l.m.rows| && l.m.rows[r] != [] :: RowRing(Unlink(x, j), l.m.rows[r])
    ensures forall e | e in l.m.node :: Labelled(Unlink(x, j), l.m, e)
  {
    var y := Unlink(x, j);
    forall i | 0 <= i < |x|
      ensures y[i].left == x[i].left && y[i].right == x[i].right && y[i].col == x[i].col && y[i].name == x[i].name
    {
      UnlinkEffect(x, j, i);
    }
    RowRingFrame(x, y, [ROOT] + l.h);
    forall r | 0 <= r < |l.m.rows| && l.m.rows[r] != []
      ensures RowRing(y, l.m.rows[r])
    {
      RowRingFrame(x, y, l.m.rows[r]);
    }
    LabelsKept(x, y, l.m);
  }

  // ---------------------------------------------------------------- unlinking a header

  ghost function WithoutHeader(l: Layout, c: nat): Layout {
    MinusDistinct(l.h, {c});
    LayoutData(l.m, Minus(l.h, {c}), l.v)
  }

  lemma HeaderNeighbours(x: Pool, h: seq<nat>, k: nat)
    requires RowRing(x, [ROOT] + h) && k < |h|
    ensures h[k] < |x|
    ensures x[h[k]].left == ROOT || x[h[k]].left in h
    ensures x[h[k]].right == ROOT || x[h[k]].right in h
    ensures x[x[h[k]].right].left == h[k] && x[x[h[k]].left].right == h[k]
  {
    assert ([ROOT] + h)[k + 1] == h[k];
    RowRingAt(x, [ROOT] + h, k + 1);
  }

  lemma UnlinkHeaderRing(x: Pool, h: seq<nat>, k: nat)
    requires RowRing(x, [ROOT] + h) && k < |h| && h[k] < |x|
    ensures RowRing(UnlinkHeader(x, h[k]), [ROOT] + Minus(h, {h[k]}))
  {
    DropFromRing(ROOT, h, k);
    UnlinkHeaderShrinksRing(x, [ROOT] + h, k + 1);
  }

  lemma UnlinkHeaderKeepsColumn(x: Pool, c: nat, s: seq<nat>, d: nat)
    requires c < |x| && ColumnLinked(x, s, d)
    ensures ColumnLinked(UnlinkHeader(x, c), s, d)
  {
    forall i | 0 <= i < |[d] + s|
      ensures UnlinkHeader(x, c)[([d] + s)[i]].up == x[([d] + s)[i]].up
      ensures UnlinkHeader(x, c)[([d] + s)[i]].down == x[([d] + s)[i]].down
    {
      UnlinkHeaderEffect(x, c, ([d] + s)[i]);
    }
    ColumnRingFrame(x, UnlinkHeader(x, c), [d] + s);
    UnlinkHeaderEffect(x, c, d);
  }

  lemma UnlinkHeaderKeepsRow(x: Pool, c: nat, row: seq<nat>)
    requires c < |x| && RowRing(x, row) && x[c].left !in row && x[c].right !in row
    ensures RowRing(UnlinkHeader(x, c), row)
  {
    forall i | 0 <= i < |row|
      ensures UnlinkHeader(x, c)[row[i]].left == x[row[i]].left && UnlinkHeader(x, c)[row[i]].right == x[row[i]].right
    {
      UnlinkHeaderEffect(x, c, row[i]);
    }
    RowRingFrame(x, UnlinkHeader(x, c), row);
  }

  /** Unlinking the header of an uncovered column takes it out of the header row. */
  lemma UnlinkHeaderRemoves(x: Pool, l: Layout, c: nat)
    requires Represents(x, l) && c in l.h
    ensures c < |x| && x[x[c].right].left == c && x[x[c].left].right == c
    ensures Represents(UnlinkHeader(x, c), WithoutHeader(l, c))
  {
    var k :| 0 <= k < |l.h| && l.h[k] == c;
    HeaderNeighbours(x, l.h, k);
    UnlinkHeaderRing(x, l.h, k);
    var y := UnlinkHeader(x, c);
    forall d | d in l.m.heads
      ensures ColumnLinked(y, Column(l, d), d)
    {
      UnlinkHeaderKeepsColumn(x, c, Column(l, d), d);
    }
    forall r | 0 <= r < |l.m.rows| && l.m.rows[r] != []
      ensures RowRing(y, l.m.rows[r])
    {
      RowNodes(l.m, r);
      UnlinkHeaderKeepsRow(x, c, l.m.rows[r]);
    }
    forall i | 0 <= i < |x|
      ensures y[i].col == x[i].col && y[i].name == x[i].name
    {
      UnlinkHeaderEffect(x, c, i);
    }
    LabelsKept(x, y, l.m);
  }

  // ---------------------------------------------------------------- covering a column

  /** The nodes that covering a column unlinks when `s` are the nodes standing in it. */
  ghost function Targets(m: Matrix, s: seq<nat>): seq<nat> {
    if s == [] then [] else Targets(m, s[..|s| - 1]) + Rest(m, s[|s| - 1])
  }

  /** `j` shares a row with a node of `s`. */
  ghost predicate InRowsOf(m: Matrix, s: seq<nat>, j: nat) {
    j in m.node && exists e | e in s :: e in m.node && m.node[e].row == m.node[j].row
  }

  lemma {:induction false} TargetNodes(m: Matrix, s: seq<nat>, c: nat)
    requires ValidColumn(m, s, c)
    ensures forall j :: j in Targets(m, s) <==> InRowsOf(m, s, j) && m.node[j].col != c
  {
    if s != [] {
      var t, e := s[..|s| - 1], s[|s| - 1];
      assert s == t + [e];
      assert ValidColumn(m, t, c);
      TargetNodes(m, t, c);
      forall j
        ensures j in Targets(m, s) <==> InRowsOf(m, s, j) && m.node[j].col != c
      {
        TargetNodesStep(m, t, e, c, j);
      }
    }
  }

  lemma TargetNodesStep(m: Matrix, t: seq<nat>, e: nat, c: nat, j: nat)
    requires ValidColumn(m, t, c) && e in m.node && m.node[e].col == c
    requires j in Targets(m, t) <==> InRowsOf(m, t, j) && m.node[j].col != c
    ensures j in Targets(m, t + [e]) <==> InRowsOf(m, t + [e], j) && m.node[j].col != c
  {
    RestNodes(m, e);
    assert Targets(m, t + [e]) == Targets(m, t) + Rest(m, e) by {
      assert (t + [e])[..|t|] == t;
    }
    hide ValidMatrix, Targets, Rest;
    if j in m.node {
      assert InRowsOf(m, t + [e], j) <==> InRowsOf(m, t, j) || m.node[e].row == m.node[j].row;
    }
  }

  lemma {:induction false} TargetsDistinct(m: Matrix, s: seq<nat>, c: nat)
    requires ValidColumn(m, s, c)
    ensures Distinct(Targets(m, s))
  {
    if s != [] {
      var t, e := s[..|s| - 1], s[|s| - 1];
      assert s == t + [e];
      assert ValidColumn(m, t, c) && e !in t;
      TargetsDistinct(m, t, c);
      TargetNodes(m, t, c);
      RestNodes(m, e);
      hide ValidMatrix, Rest, Distinct;
      forall j | j in Targets(m, t)
        ensures j !in Rest(m, e)
      {
        var f :| f in t && m.node[f].row == m.node[j].row;
        if m.node[f].row == m.node[e].row {
          SameRowSameColumn(m, f, e);
        }
      }
      DistinctConcat(Targets(m, t), Rest(m, e));
    }
  }

  /** The targets of a column, row by row. */
  lemma {:induction false} TargetsPrefix(m: Matrix, s: seq<nat>, i: nat)
    requires i <= |s|
    ensures Targets(m, s[..i]) <= Targets(m, s)
    decreases |s|
  {
    if i < |s| {
      var t := s[..|s| - 1];
      TargetsPrefix(m, t, i);
      assert t[..i] == s[..i];
    } else {
      assert s[..i] == s;
    }
  }

  lemma TargetsOfRow(m: Matrix, s: seq<nat>, i: nat)
    requires i < |s|
    ensures |Targets(m, s[..i + 1])| == |Targets(m, s[..i])| + |Rest(m, s[i])| <= |Targets(m, s)|
    ensures forall k | 0 <= k < |Rest(m, s[i])| :: Targets(m, s)[|Targets(m, s[..i])| + k] == Rest(m, s[i])[k]
  {
    hide Rest, Targets;
    TargetsPrefix(m, s, i + 1);
    TargetsSnoc(m, s, i);
    PrefixIndices(Targets(m, s[..i]), Rest(m, s[i]), Targets(m, s));
  }

  lemma TargetsSnoc(m: Matrix, s: seq<nat>, i: nat)
    requires i < |s|
    ensures Targets(m, s[..i + 1]) == Targets(m, s[..i]) + Rest(m, s[i])
  {
    hide Rest;
    assert s[..i + 1][..i] == s[..i];
  }

  lemma PrefixIndices(a: seq<nat>, b: seq<nat>, c: seq<nat>)
    requires a + b <= c
    ensures |a| + |b| <= |c| && forall k | 0 <= k < |b| :: c[|a| + k] == b[k]
  {
    forall k | 0 <= k < |b| ensures c[|a| + k] == b[k] {
      assert (a + b)[|a| + k] == b[k];
    }
  }

  ghost function ColumnTargets(l: Layout, c: nat): seq<nat> {
    Targets(l.m, Column(l, c))
  }

  /** The layout after the header of `c` and the first `n` of its targets are unlinked. */
  ghost function PartialCover(l: Layout, c: nat, n: nat): Layout
    requires n <= |ColumnTargets(l, c)|
  {
    Without(WithoutHeader(l, c), Elems(ColumnTargets(l, c)[..n]))
  }

  /** The pool after the header of `c` and the first `n` of its targets are unlinked. */
  ghost function PartialCoverPool(x: Pool, l: Layout, c: nat, n: nat): (y: Pool)
    requires c < |x| && n <= |ColumnTargets(l, c)|
    ensures |y| == |x|
  {
    UnlinkAll(UnlinkHeader(x, c), ColumnTargets(l, c)[..n])
  }

  /** The layout after covering column `c`. */
  ghost function CoverLayout(l: Layout, c: nat): (k: Layout)
    ensures k.m == l.m
  {
    PartialCover(l, c, |ColumnTargets(l, c)|)
  }

  /** The pool after covering column `c` of a pool that represents `l`. */
  ghost function CoverPool(x: Pool, l: Layout, c: nat): (y: Pool)
    requires c < |x|
    ensures |y| == |x|
  {
    PartialCoverPool(x, l, c, |ColumnTargets(l, c)|)
  }

  /** In a consistent layout every node that shares a row with a standing node stands; so the next
      target is still listed in its column. */
  lemma TargetStands(l: Layout, c: nat, n: nat)
    requires Consistent(l) && c in l.h && n < |ColumnTargets(l, c)|
    ensures var j := ColumnTargets(l, c)[n];
            Stands(l, j) && j in Column(PartialCover(l, c, n), l.m.node[j].col)
  {
    var s, ts := Column(l, c), ColumnTargets(l, c);
    var j := ts[n];
    TargetNodes(l.m, s, c);
    TargetsDistinct(l.m, s, c);
    assert j in ts;
    var e :| e in s && l.m.node[e].row == l.m.node[j].row;
    assert Stands(l, e);
    NodeRow(l.m, j);
    assert Stands(l, j);
    forall i | 0 <= i < n
      ensures ts[..n][i] != j
    {
      assert ts[i] != ts[n];
    }
    WithoutColumn(WithoutHeader(l, c), Elems(ts[..n]), l.m.node[j].col);
  }

  lemma PartialCoverStep(l: Layout, c: nat, n: nat)
    requires n < |ColumnTargets(l, c)|
    ensures PartialCover(l, c, n + 1) == Without(PartialCover(l, c, n), {ColumnTargets(l, c)[n]})
  {
    hide Without, WithoutHeader, ColumnTargets, ValidLayout, ValidMatrix;
    var ts := ColumnTargets(l, c);
    WithoutTwice(WithoutHeader(l, c), Elems(ts[..n]), {ts[n]});
    assert Elems(ts[..n]) + {ts[n]} == Elems(ts[..n + 1]) by {
      assert ts[..n + 1] == ts[..n] + [ts[n]];
    }
  }

  lemma PartialCoverPoolStep(x: Pool, l: Layout, c: nat, n: nat)
    requires c < |x| && n < |ColumnTargets(l, c)| && ColumnTargets(l, c)[n] < |x|
    ensures PartialCoverPool(x, l, c, n + 1) == Unlink(PartialCoverPool(x, l, c, n), ColumnTargets(l, c)[n])
  {
    hide Unlink, UnlinkHeader, Targets;
    var ts := ColumnTargets(l, c);
    assert ts[..n + 1][..n] == ts[..n];
  }

  lemma PartialCoverStart(x: Pool, l: Layout, c: nat)
    requires Represents(x, l) && c in l.h
    ensures c < |x| && x[x[c].right].left == c && x[x[c].left].right == c
    ensures PartialCoverPool(x, l, c, 0) == UnlinkHeader(x, c)
    ensures PartialCover(l, c, 0) == WithoutHeader(l, c)
    ensures Represents(PartialCoverPool(x, l, c, 0), PartialCover(l, c, 0))
  {
    hide Represents, UnlinkHeader, Targets, Minus;
    UnlinkHeaderRemoves(x, l, c);
    WithoutNothing(WithoutHeader(l, c));
    assert Elems(ColumnTargets(l, c)[..0]) == {};
  }

  /** Every intermediate pool of a cover represents the corresponding intermediate layout. */
  lemma {:induction false} PartialCoverRepresents(x: Pool, l: Layout, c: nat, n: nat)
    requires Consistent(l) && Represents(x, l) && c in l.h && c < |x| && n <= |ColumnTargets(l, c)|
    ensures Represents(PartialCoverPool(x, l, c, n), PartialCover(l, c, n))
  {
    hide Represents, Consistent, PartialCover, PartialCoverPool, Unlink, ColumnTargets, Without, Column, Stands;
    if n == 0 {
      PartialCoverStart(x, l, c);
    } else {
      PartialCoverRepresents(x, l, c, n - 1);
      TargetStands(l, c, n - 1);
      var j := ColumnTargets(l, c)[n - 1];
      UnlinkRemoves(PartialCoverPool(x, l, c, n - 1), PartialCover(l, c, n - 1), j);
      PartialCoverPoolStep(x, l, c, n - 1);
      PartialCoverStep(l, c, n - 1);
    }
  }

  lemma CoverRepresents(x: Pool, l: Layout, c: nat)
    requires Consistent(l) && Represents(x, l) && c in l.h
    ensures c < |x| && Represents(CoverPool(x, l, c), CoverLayout(l, c))
  {
    hide Represents, Consistent, PartialCoverPool, PartialCover;
    PartialCoverStart(x, l, c);
    PartialCoverRepresents(x, l, c, |ColumnTargets(l, c)|);
  }

  /** One step of a cover: the next target is in the pool, unlinking it is the next intermediate
      pool, and relinking it there leads back. */
  lemma CoverStep(x: Pool, l: Layout, c: nat, n: nat)
    requires Consistent(l) && Represents(x, l) && c in l.h && c < |x| && n < |ColumnTargets(l, c)|
    ensures var j, y, z := ColumnTargets(l, c)[n], PartialCoverPool(x, l, c, n), PartialCoverPool(x, l, c, n + 1);
            j < |x| && z == Unlink(y, j) && Relink(z, j) == y
  {
    hide Represents, Consistent, PartialCover, PartialCoverPool, Unlink, Relink, ColumnTargets;
    PartialCoverRepresents(x, l, c, n);
    TargetStands(l, c, n);
    var y, j := PartialCoverPool(x, l, c, n), ColumnTargets(l, c)[n];
    UnlinkRemoves(y, PartialCover(l, c, n), j);
    PartialCoverPoolStep(x, l, c, n);
    RelinkUndoesUnlink(y, j);
  }

  // ---------------------------------------------------------------- what a cover means

  /** Some node of row `r` is in column `c`. */
  ghost predicate Covers(m: Matrix, r: nat, c: nat) {
    exists e | e in m.node :: m.node[e].row == r && m.node[e].col == c
  }

  lemma CoverMembers(l: Layout, c: nat)
    ensures forall d :: d in CoverLayout(l, c).h <==> d in l.h && d != c
    ensures forall d, e ::
        e in Column(CoverLayout(l, c), d)
        <==> e in Column(l, d) && !(InRowsOf(l.m, Column(l, c), e) && l.m.node[e].col != c)
  {
    var ts := ColumnTargets(l, c);
    assert ts[..|ts|] == ts;
    TargetNodes(l.m, Column(l, c), c);
    hide InRowsOf, ColumnTargets;
    forall d
      ensures Column(CoverLayout(l, c), d) == Minus(Column(l, d), Elems(ts))
    {
      WithoutColumn(WithoutHeader(l, c), Elems(ts), d);
    }
  }

  /** A standing node shares its row with a node listed in the uncovered column `c` exactly if its
      row covers `c`. */
  lemma StandingRowCovers(l: Layout, c: nat, e: nat)
    requires Consistent(l) && c in l.h && Stands(l, e)
    ensures InRowsOf(l.m, Column(l, c), e) <==> Covers(l.m, l.m.node[e].row, c)
  {
    var r := l.m.node[e].row;
    if Covers(l.m, r, c) {
      var f :| f in l.m.node && l.m.node[f].row == r && l.m.node[f].col == c;
      NodeRow(l.m, f);
      assert Live(l, r);
      assert Stands(l, f);
    }
  }

  lemma CoverStands(l: Layout, c: nat, e: nat)
    requires Consistent(l) && c in l.h
    ensures Stands(CoverLayout(l, c), e) <==> Stands(l, e) && !Covers(l.m, l.m.node[e].row, c)
  {
    hide CoverLayout, InRowsOf, Consistent;
    CoverMembers(l, c);
    if Stands(l, e) {
      StandingRowCovers(l, c, e);
    }
  }

  /** Covering `c` keeps exactly the live rows that do not cover `c`. */
  lemma CoverKeepsRow(l: Layout, c: nat, r: nat)
    requires Consistent(l) && c in l.h
    ensures Live(CoverLayout(l, c), r) <==> Live(l, r) && !Covers(l.m, r, c)
  {
    hide CoverLayout, Stands, Consistent, Covers;
    if r < |l.m.rows| && l.m.rows[r] != [] {
      RowNodes(l.m, r);
      assert l.m.rows[r][0] in l.m.rows[r];
      forall e | e in l.m.rows[r]
        ensures Stands(CoverLayout(l, c), e) <==> Stands(l, e) && !Covers(l.m, r, c)
      {
        CoverStands(l, c, e);
      }
    }
  }

  lemma CoverIsConsistent(l: Layout, c: nat)
    requires Consistent(l) && c in l.h
    ensures Consistent(CoverLayout(l, c))
  {
    hide CoverLayout, Covers, Live;
    forall e | Stands(CoverLayout(l, c), e)
      ensures Live(CoverLayout(l, c), l.m.node[e].row)
    {
      CoverStands(l, c, e);
      CoverKeepsRow(l, c, l.m.node[e].row);
    }
  }

  // ---------------------------------------------------------------- covering several columns

  ghost predicate Coverable(l: Layout, cs: seq<nat>) {
    Distinct(cs) && forall c | c in cs :: c in l.h
  }

  lemma CoverableInit(l: Layout, cs: seq<nat>)
    requires Coverable(l, cs) && cs != []
    ensures Coverable(l, cs[..|cs| - 1]) && cs[|cs| - 1] in l.h && cs[|cs| - 1] !in cs[..|cs| - 1]
  {
  }

  /** The layout after covering the columns `cs`, first one first. */
  ghost function CoverMany(l: Layout, cs: seq<nat>): (k: Layout)
    ensures k.m == l.m
  {
    if cs == [] then l else CoverLayout(CoverMany(l, cs[..|cs| - 1]), cs[|cs| - 1])
  }

  /** The pool after covering the columns `cs`, first one first. */
  ghost function CoverManyPool(x: Pool, l: Layout, cs: seq<nat>): (y: Pool)
    ensures |y| == |x|
  {
    if cs == [] then x else
      var y := CoverManyPool(x, l, cs[..|cs| - 1]);
      var c := cs[|cs| - 1];
      if c < |y| then CoverPool(y, CoverMany(l, cs[..|cs| - 1]), c) else y
  }

  lemma {:induction false} CoverManyRepresents(x: Pool, l: Layout, cs: seq<nat>)
    requires Consistent(l) && Represents(x, l) && Coverable(l, cs)
    ensures Consistent(CoverMany(l, cs))
    ensures forall d :: d in CoverMany(l, cs).h <==> d in l.h && d !in cs
    ensures Represents(CoverManyPool(x, l, cs), CoverMany(l, cs))
    decreases |cs|
  {
    hide Consistent, Represents, CoverPool;
    if cs != [] {
      CoverableInit(l, cs);
      var init, c := cs[..|cs| - 1], cs[|cs| - 1];
      assert cs == init + [c];
      hide Coverable;
      CoverManyRepresents(x, l, init);
      var p := CoverMany(l, init);
      CoverMembers(p, c);
      CoverIsConsistent(p, c);
      CoverRepresents(CoverManyPool(x, l, init), p, c);
    }
  }

  /** Covering several columns keeps exactly the live rows that cover none of them. */
  lemma {:induction false} CoverManyKeepsRow(x: Pool, l: Layout, cs: seq<nat>, r: nat)
    requires Consistent(l) && Represents(x, l) && Coverable(l, cs)
    ensures Live(CoverMany(l, cs), r) <==> Live(l, r) && forall c | c in cs :: !Covers(l.m, r, c)
    decreases |cs|
  {
    hide Live, Covers, CoverLayout, Consistent, Represents;
    if cs != [] {
      CoverableInit(l, cs);
      var init, c := cs[..|cs| - 1], cs[|cs| - 1];
      assert cs == init + [c];
      hide Coverable;
      CoverManyKeepsRow(x, l, init, r);
      CoverManyRepresents(x, l, init);
      CoverKeepsRow(CoverMany(l, init), c, r);
    }
  }

  // ---------------------------------------------------------------- exact covers

  /** No column is covered by both rows. */
  ghost predicate Disjoint(m: Matrix, q: nat, r: nat) {
    forall c {:trigger Covers(m, q, c)} {:trigger Covers(m, r, c)} :: !(Covers(m, q, c) && Covers(m, r, c))
  }

  ghost predicate CoveredBy(m: Matrix, p: set<nat>, c: nat) {
    exists r | r in p :: Covers(m, r, c)
  }

  /** The rows of `p` are live and no two of them cover a common column. */
  ghost predicate IsPacking(l: Layout, p: set<nat>) {
    && (forall r | r in p :: Live(l, r))
    && (forall q, r | q in p && r in p && q != r :: Disjoint(l.m, q, r))
  }

  /** `p` is a set of live rows that covers every column still in the header row exactly once. */
  ghost predicate IsExactCover(l: Layout, p: set<nat>) {
    IsPacking(l, p) && forall c | c in l.h :: CoveredBy(l.m, p, c)
  }

  ghost function ColumnsOf(m: Matrix, s: seq<nat>): (cs: seq<nat>) {
    seq(|s|, i requires 0 <= i < |s| => if s[i] in m.node then m.node[s[i]].col else 0)
  }

  /** The columns of the row of `e` are the column of `e` and those of the rest, without repetition. */
  lemma RestColumns(m: Matrix, e: nat)
    requires e in m.node
    ensures Distinct(ColumnsOf(m, Rest(m, e))) && m.node[e].col !in ColumnsOf(m, Rest(m, e))
    ensures forall c :: Covers(m, m.node[e].row, c) <==> c == m.node[e].col || c in ColumnsOf(m, Rest(m, e))
  {
    RestNodes(m, e);
    hide ValidMatrix, Rest;
    var rest, cs := Rest(m, e), ColumnsOf(m, Rest(m, e));
    forall i, j | 0 <= i < j < |cs| ensures cs[i] != cs[j] {
      if cs[i] == cs[j] {
        SameRowSameColumn(m, rest[i], rest[j]);
      }
    }
    forall c
      ensures Covers(m, m.node[e].row, c) <==> c == m.node[e].col || c in cs
    {
      if Covers(m, m.node[e].row, c) {
        var f :| f in m.node && m.node[f].row == m.node[e].row && m.node[f].col == c;
        if f != e {
          var i :| 0 <= i < |rest| && rest[i] == f;
          assert cs[i] == c;
        }
      }
      if c in cs {
        var i :| 0 <= i < |cs| && cs[i] == c;
        assert rest[i] in rest;
      }
    }
  }

  /** The layout `solve` recurs on after it has chosen node `e` of an uncovered column. */
  ghost function Chosen(l: Layout, e: nat): (k: Layout)
    requires e in l.m.node
    ensures k.m == l.m
  {
    CoverMany(CoverLayout(l, l.m.node[e].col), ColumnsOf(l.m, Rest(l.m, e)))
  }

  /** The columns of the rest of a standing node can be covered after its own column is. */
  lemma RestIsCoverable(l: Layout, e: nat)
    requires Consistent(l) && Stands(l, e)
    ensures Coverable(CoverLayout(l, l.m.node[e].col), ColumnsOf(l.m, Rest(l.m, e)))
  {
    var c, r, cs := l.m.node[e].col, l.m.node[e].row, ColumnsOf(l.m, Rest(l.m, e));
    assert Live(l, r);
    RestColumns(l.m, e);
    CoverMembers(l, c);
    hide ColumnsOf, CoverLayout, ValidMatrix;
    forall d | d in cs
      ensures d in l.h
    {
      assert Covers(l.m, r, d);
      var f :| f in l.m.node && l.m.node[f].row == r && l.m.node[f].col == d;
      NodeRow(l.m, f);
      assert Stands(l, f);
    }
  }

  lemma ChosenLayout(x: Pool, l: Layout, e: nat)
    requires Consistent(l) && Represents(x, l) && Stands(l, e)
    ensures Consistent(Chosen(l, e))
    ensures forall c :: c in Chosen(l, e).h <==> c in l.h && !Covers(l.m, l.m.node[e].row, c)
    ensures forall r :: Live(Chosen(l, e), r) <==> Live(l, r) && Disjoint(l.m, l.m.node[e].row, r)
  {
    var c := l.m.node[e].col;
    assert c in l.h;
    hide Live, Covers, CoverLayout, Consistent, Represents, CoverPool, Coverable, ColumnsOf, CoverMany, Stands;
    RestIsCoverable(l, e);
    RestColumns(l.m, e);
    CoverRepresents(x, l, c);
    CoverIsConsistent(l, c);
    CoverMembers(l, c);
    CoverManyRepresents(CoverPool(x, l, c), CoverLayout(l, c), ColumnsOf(l.m, Rest(l.m, e)));
    forall r
      ensures Live(Chosen(l, e), r) <==> Live(l, r) && Disjoint(l.m, l.m.node[e].row, r)
    {
      CoverKeepsRow(l, c, r);
      CoverManyKeepsRow(CoverPool(x, l, c), CoverLayout(l, c), ColumnsOf(l.m, Rest(l.m, e)), r);
    }
  }

  lemma StandingInLiveRow(l: Layout, e: nat)
    requires Consistent(l) && Stands(l, e)
    ensures Live(l, l.m.node[e].row) && Covers(l.m, l.m.node[e].row, l.m.node[e].col)
  {
  }

  lemma PackingInsert(l: Layout, q: set<nat>, r: nat)
    requires Live(l, r)
    requires forall s | s in q :: Live(l, s) && Disjoint(l.m, r, s)
    requires forall s, t | s in q && t in q && s != t :: Disjoint(l.m, s, t)
    ensures IsPacking(l, q + {r})
  {
    forall s, t | s in q + {r} && t in q + {r} && s != t
      ensures Disjoint(l.m, s, t)
    {
      assert Disjoint(l.m, t, s) ==> Disjoint(l.m, s, t);
    }
    hide Live, Disjoint;
  }

  lemma PackingShrinks(l: Layout, k: Layout, p: set<nat>, r: nat)
    requires k.m == l.m && IsPacking(l, p) && r in p
    requires forall s | s in p && Live(l, s) && Disjoint(l.m, r, s) :: Live(k, s)
    ensures IsPacking(k, p - {r})
  {
    hide Live, Disjoint;
  }

  lemma CoveredByMore(m: Matrix, q: set<nat>, r: nat, c: nat)
    requires CoveredBy(m, q, c) || Covers(m, r, c)
    ensures CoveredBy(m, q + {r}, c)
  {
    hide Covers;
    if Covers(m, r, c) {
      assert r in q + {r};
    } else {
      var s :| s in q && Covers(m, s, c);
      assert s in q + {r};
    }
  }

  lemma CoveredByLess(m: Matrix, p: set<nat>, r: nat, c: nat)
    requires CoveredBy(m, p, c) && !Covers(m, r, c)
    ensures CoveredBy(m, p - {r}, c)
  {
    hide Covers;
    var s :| s in p && Covers(m, s, c);
    assert s in p - {r};
  }

  /** An exact cover of what remains after a choice, together with the chosen row, is an exact cover. */
  lemma ChoiceExtends(x: Pool, l: Layout, e: nat, q: set<nat>)
    requires Consistent(l) && Represents(x, l) && Stands(l, e) && IsExactCover(Chosen(l, e), q)
    ensures l.m.node[e].row !in q && IsExactCover(l, q + {l.m.node[e].row})
  {
    var r, d := l.m.node[e].row, l.m.node[e].col;
    StandingInLiveRow(l, e);
    ChosenLayout(x, l, e);
    hide Live, Covers, Consistent, Represents, Chosen, Stands, CoveredBy;
    assert r !in q by {
      assert Covers(l.m, r, d);
    }
    PackingInsert(l, q, r);
    forall c | c in l.h
      ensures CoveredBy(l.m, q + {r}, c)
    {
      CoveredByMore(l.m, q, r, c);
    }
    hide IsPacking, Disjoint;
  }

  /** An exact cover that contains a row is, without that row, an exact cover of what remains
      after choosing it. */
  lemma ChoiceRestricts(x: Pool, l: Layout, e: nat, p: set<nat>)
    requires Consistent(l) && Represents(x, l) && Stands(l, e) && IsExactCover(l, p) && l.m.node[e].row in p
    ensures IsExactCover(Chosen(l, e), p - {l.m.node[e].row})
  {
    var r := l.m.node[e].row;
    ChosenLayout(x, l, e);
    hide Live, Covers, Consistent, Represents, Chosen, Stands, CoveredBy, Disjoint;
    PackingShrinks(l, Chosen(l, e), p, r);
    hide IsPacking;
    forall c | c in Chosen(l, e).h
      ensures CoveredBy(l.m, p - {r}, c)
    {
      CoveredByLess(l.m, p, r, c);
    }
  }

  /** Every exact cover contains the row of some node that stands in a given uncovered column. */
  lemma SomeChoiceIsTaken(l: Layout, c: nat, p: set<nat>) returns (e: nat)
    requires c in l.h && IsExactCover(l, p)
    ensures e in Column(l, c) && l.m.node[e].row in p
  {
    assert CoveredBy(l.m, p, c);
    var r :| r in p && Covers(l.m, r, c);
    e :| e in l.m.node && l.m.node[e].row == r && l.m.node[e].col == c;
    NodeRow(l.m, e);
    assert Live(l, r);
    assert Stands(l, e);
  }

  // ---------------------------------------------------------------- walking the links

  /** Walking down or up a column. */
  lemma ColumnWalk(y: Pool, s: seq<nat>, c: nat, i: nat)
    requires ColumnLinked(y, s, c) && i <= |s|
    ensures var ring := [c] + s;
            && ring[i] < |y|
            && y[ring[i]].down == (if i < |s| then s[i] else c)
            && y[ring[i]].up == (if i == 0 then (if s == [] then c else s[|s| - 1]) else ring[i - 1])
    ensures c !in s
  {
    ColumnRingAt(y, [c] + s, i);
    DistinctTail(c, s);
  }

  /** Walking right or left along a row or along the header row. */
  lemma RowWalk(y: Pool, e: nat, s: seq<nat>, i: nat)
    requires RowRing(y, [e] + s) && i <= |s|
    ensures var ring := [e] + s;
            && ring[i] < |y|
            && y[ring[i]].right == (if i < |s| then s[i] else e)
            && y[ring[i]].left == (if i == 0 then (if s == [] then e else s[|s| - 1]) else ring[i - 1])
    ensures e !in s
  {
    RowRingAt(y, [e] + s, i);
    DistinctTail(e, s);
  }

  /** In the middle of a cover the column being covered can still be walked ... */
  lemma ColumnDuringCover(x: Pool, l: Layout, c: nat, n: nat)
    requires Consistent(l) && Represents(x, l) && c in l.h && c < |x| && n <= |ColumnTargets(l, c)|
    ensures ColumnLinked(PartialCoverPool(x, l, c, n), Column(l, c), c)
  {
    var s, ts := Column(l, c), ColumnTargets(l, c);
    PartialCoverRepresents(x, l, c, n);
    assert Column(PartialCover(l, c, n), c) == s by {
      TargetNodes(l.m, s, c);
      WithoutColumn(WithoutHeader(l, c), Elems(ts[..n]), c);
      assert forall e | e in s :: e !in ts;
      MinusNothing(s, Elems(ts[..n]));
    }
    assert ColumnLinked(PartialCoverPool(x, l, c, n), Column(PartialCover(l, c, n), c), c);
  }

  /** ... and so can every row. */
  lemma RowDuringCover(x: Pool, l: Layout, c: nat, n: nat, e: nat)
    requires Consistent(l) && Represents(x, l) && c in l.h && c < |x| && n <= |ColumnTargets(l, c)| && e in l.m.node
    ensures RowRing(PartialCoverPool(x, l, c, n), [e] + Rest(l.m, e))
  {
    hide Represents, PartialCoverPool, Consistent;
    PartialCoverRepresents(x, l, c, n);
    RestRing(PartialCoverPool(x, l, c, n), PartialCover(l, c, n), e);
  }

  /** How many targets of column `c` are unlinked when its first `i` rows are done. */
  ghost function Progress(l: Layout, c: nat, i: nat): (n: nat)
    requires i <= |Column(l, c)|
    ensures n <= |ColumnTargets(l, c)|
    ensures i == 0 ==> n == 0
    ensures i == |Column(l, c)| ==> n == |ColumnTargets(l, c)|
    ensures i < |Column(l, c)| ==> n + |Rest(l.m, Column(l, c)[i])| <= |ColumnTargets(l, c)|
  {
    assert Column(l, c)[..|Column(l, c)|] == Column(l, c);
    if i < |Column(l, c)| then
      TargetsOfRow(l.m, Column(l, c), i);
      |Targets(l.m, Column(l, c)[..i])|
    else
      |ColumnTargets(l, c)|
  }

  lemma NextRow(l: Layout, c: nat, i: nat)
    requires i < |Column(l, c)|
    ensures Progress(l, c, i + 1) == Progress(l, c, i) + |Rest(l.m, Column(l, c)[i])|
  {
    TargetsOfRow(l.m, Column(l, c), i);
    assert i + 1 == |Column(l, c)| ==> Column(l, c)[..i + 1] == Column(l, c);
  }

  /** What `cover` and `uncover` find at the `t`-th place of the ring of column `c` when `i` of its
      rows are unlinked. */
  lemma ColumnStep(x: Pool, l: Layout, c: nat, i: nat, t: nat)
    requires Consistent(l) && Represents(x, l) && c in l.h && c < |x| && i <= |Column(l, c)| && t <= |Column(l, c)|
    ensures var s, y := Column(l, c), PartialCoverPool(x, l, c, Progress(l, c, i));
            && c !in s && ([c] + s)[t] < |y|
            && y[([c] + s)[t]].down == (if t < |s| then s[t] else c)
            && y[([c] + s)[t]].up == ([c] + s)[if t == 0 then |s| else t - 1]
  {
    hide Represents, Consistent, PartialCoverPool, Progress, ColumnLinked, Column;
    ColumnDuringCover(x, l, c, Progress(l, c, i));
    ColumnWalk(PartialCoverPool(x, l, c, Progress(l, c, i)), Column(l, c), c, t);
  }

  /** What they find at the `t`-th place of the ring of its `i`-th row when `k` nodes of the rest of
      that row are unlinked. */
  lemma RowStep(x: Pool, l: Layout, c: nat, i: nat, k: nat, t: nat, y: Pool, e: nat, rest: seq<nat>)
    requires Consistent(l) && Represents(x, l) && c in l.h && c < |x| && i < |Column(l, c)|
    requires e == Column(l, c)[i] && rest == Rest(l.m, e) && k <= |rest| && t <= |rest|
    requires y == PartialCoverPool(x, l, c, Progress(l, c, i) + k)
    ensures e !in rest && ([e] + rest)[t] < |y|
    ensures y[([e] + rest)[t]].right == (if t < |rest| then rest[t] else e)
    ensures y[([e] + rest)[t]].left == ([e] + rest)[if t == 0 then |rest| else t - 1]
  {
    hide Represents, Consistent, PartialCoverPool, RowRing, Targets, Rest;
    RowDuringCover(x, l, c, Progress(l, c, i) + k, e);
    RowWalk(y, e, rest, t);
  }

  /** The next target in that row, and how to get back after unlinking it. */
  lemma NextTarget(x: Pool, l: Layout, c: nat, i: nat, k: nat, y: Pool)
    requires Consistent(l) && Represents(x, l) && c in l.h && c < |x| && i < |Column(l, c)|
    requires k < |Rest(l.m, Column(l, c)[i])| && y == PartialCoverPool(x, l, c, Progress(l, c, i) + k)
    ensures var j := Rest(l.m, Column(l, c)[i])[k];
            j < |y| && PartialCoverPool(x, l, c, Progress(l, c, i) + k + 1) == Unlink(y, j)
                && Relink(Unlink(y, j), j) == y
  {
    hide Represents, Consistent, PartialCoverPool, Unlink, Relink, RowRing, Targets, Rest;
    TargetsOfRow(l.m, Column(l, c), i);
    CoverStep(x, l, c, Progress(l, c, i) + k);
  }

  // ---------------------------------------------------------------- one level of the search

  ghost predicate NoExactCover(l: Layout) {
    forall p :: !IsExactCover(l, p)
  }

  /** If no choice of a node in column `c` can be completed, there is no exact cover at all. */
  lemma NoChoiceNoCover(x: Pool, l: Layout, c: nat)
    requires Consistent(l) && Represents(x, l) && c in l.h
    requires forall i | 0 <= i < |Column(l, c)| :: NoExactCover(Chosen(l, Column(l, c)[i]))
    ensures NoExactCover(l)
  {
    hide Consistent, Represents, IsExactCover, Chosen, Live;
    forall p
      ensures !IsExactCover(l, p)
    {
      if IsExactCover(l, p) {
        var e := SomeChoiceIsTaken(l, c, p);
        var i :| 0 <= i < |Column(l, c)| && Column(l, c)[i] == e;
        assert NoExactCover(Chosen(l, Column(l, c)[i]));
        ChoiceRestricts(x, l, e, p);
      }
    }
  }

  /** A choice leaves fewer columns to cover. */
  lemma ChosenIsSmaller(x: Pool, l: Layout, e: nat)
    requires Consistent(l) && Represents(x, l) && Stands(l, e)
    ensures Elems(Chosen(l, e).h) < Elems(l.h)
  {
    var c := l.m.node[e].col;
    assert c in l.h;
    ChosenLayout(x, l, e);
    StandingInLiveRow(l, e);
    hide Consistent, Represents, Live, Covers, Stands, Chosen, Disjoint, ValidLayout;
    assert c in Elems(l.h) && c !in Elems(Chosen(l, e).h);
  }

  /** The layout and the pool in the middle of covering the rest of a chosen row. */
  lemma CoverManyStep(x: Pool, l: Layout, cs: seq<nat>, k: nat)
    requires Consistent(l) && Represents(x, l) && Coverable(l, cs) && k < |cs|
    ensures var p, y := CoverMany(l, cs[..k]), CoverManyPool(x, l, cs[..k]);
            && Consistent(p) && Represents(y, p) && cs[k] in p.h && cs[k] < |y|
            && CoverManyPool(x, l, cs[..k + 1]) == CoverPool(y, p, cs[k])
  {
    hide Consistent, Represents, CoverPool, ValidLayout, ValidMatrix;
    var init := cs[..k];
    assert cs[..k + 1][..k] == init;
    CoverablePrefix(l, cs, k + 1);
    CoverableInit(l, cs[..k + 1]);
    CoverManyRepresents(x, l, init);
    CoverRepresents(CoverManyPool(x, l, init), CoverMany(l, init), cs[k]);
  }

  /** What `solve` finds at the `t`-th place of the ring of a chosen row when the columns of `k` nodes
      of its rest are covered. */
  lemma RestStep(x: Pool, l: Layout, e: nat, k: nat, t: nat)
    requires Consistent(l) && Represents(x, l) && e in l.m.node && Coverable(l, ColumnsOf(l.m, Rest(l.m, e)))
    requires k <= |Rest(l.m, e)| && t <= |Rest(l.m, e)|
    ensures var rest, cs := Rest(l.m, e), ColumnsOf(l.m, Rest(l.m, e));
            var y := CoverManyPool(x, l, cs[..k]);
            && e !in rest && ([e] + rest)[t] < |y|
            && y[([e] + rest)[t]].right == (if t < |rest| then rest[t] else e)
            && y[([e] + rest)[t]].left == ([e] + rest)[if t == 0 then |rest| else t - 1]
            && (t > 0 ==> y[rest[t - 1]].col == cs[t - 1])
  {
    hide Coverable, Rest, CoverMany, CoverManyPool, Consistent, Represents, ValidLayout, ValidMatrix;
    var rest, cs := Rest(l.m, e), ColumnsOf(l.m, Rest(l.m, e));
    CoverablePrefix(l, cs, k);
    CoverManyRepresents(x, l, cs[..k]);
    RestNodes(l.m, e);
    var p, y := CoverMany(l, cs[..k]), CoverManyPool(x, l, cs[..k]);
    RestRing(y, p, e);
    RowWalk(y, e, rest, t);
    if t > 0 {
      assert rest[t - 1] in rest;
      NodeLabel(y, p, rest[t - 1]);
    }
  }

  lemma RestEnds(x: Pool, l: Layout, e: nat)
    ensures var cs := ColumnsOf(l.m, Rest(l.m, e));
            |cs| == |Rest(l.m, e)| && cs[..|cs|] == cs && CoverManyPool(x, l, cs[..0]) == x
  {
  }

  lemma CoverablePrefix(l: Layout, cs: seq<nat>, k: nat)
    requires Coverable(l, cs) && k <= |cs|
    ensures Coverable(l, cs[..k])
  {
  }

  /** Everything `solve` needs to know when it has covered column `c` and looks at its `i`-th node. */
  lemma ChoiceReady(x: Pool, l: Layout, c: nat, i: nat)
    requires Consistent(l) && Represents(x, l) && c in l.h && c < |x| && i < |Column(l, c)|
    ensures var e, l1, x1 := Column(l, c)[i], CoverLayout(l, c), CoverPool(x, l, c);
            && e in l.m.node && Stands(l, e) && l.m.node[e].col == c && e < |x|
            && Consistent(l1) && Represents(x1, l1)
            && Coverable(l1, ColumnsOf(l.m, Rest(l.m, e)))
            && Chosen(l, e) == CoverMany(l1, ColumnsOf(l.m, Rest(l.m, e)))
            && Consistent(Chosen(l, e)) && Represents(CoverManyPool(x1, l1, ColumnsOf(l.m, Rest(l.m, e))), Chosen(l, e))
            && Elems(Chosen(l, e).h) < Elems(l.h)
  {
    var e := Column(l, c)[i];
    assert Labelled(x, l.m, e);
    assert Stands(l, e);
    hide Represents, Consistent, Coverable, CoverMany, CoverManyPool, CoverPool, CoverLayout, Rest, ColumnsOf, Column,
        Stands;
    RestIsCoverable(l, e);
    CoverRepresents(x, l, c);
    CoverIsConsistent(l, c);
    ChosenLayout(x, l, e);
    CoverManyRepresents(CoverPool(x, l, c), CoverLayout(l, c), ColumnsOf(l.m, Rest(l.m, e)));
    ChosenIsSmaller(x, l, e);
  }

  lemma ColumnEnds(x: Pool, l: Layout, c: nat)
    requires Consistent(l) && Represents(x, l) && c in l.h && c < |x|
    ensures PartialCoverPool(x, l, c, Progress(l, c, |Column(l, c)|)) == CoverPool(x, l, c)
  {
  }
}
