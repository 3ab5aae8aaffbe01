/** How the constructor of `SudokuSolver` grows the pool of links (examples/sudoku/sudoku.cc). A header or a node is
    first alone in its rings; `put_left` and `put_up` then let it into a ring that is there, at its end. Each way to
    grow is a function on layouts (one more header, one more node in a row of its own, four rows of one node joined
    into one) with a function on pools that does the writes, and the theorems say that the pool goes on to stand for
    the layout. */
module LinkBuilding {
  import opened DancingLinks
  import opened ExactCover

  // ---------------------------------------------------------------- surgeries

  /** Inserts `n` to the left of `o`. */
  function PutLeft(x: Pool, o: nat, n: nat): (y: Pool)
    requires o < |x| && n < |x|
    ensures |y| == |x|
  {
    var y := x[n := x[n].(left := x[o].left, right := o)];
    var z := y[y[o].left := y[y[o].left].(right := n)];
    z[o := z[o].(left := n)]
  }

  /** Inserts `n` above `o`, at the bottom of the column of header `o`. */
  function PutUp(x: Pool, o: nat, n: nat): (y: Pool)
    requires o < |x| && n < |x|
    ensures |y| == |x|
  {
    var y := x[n := x[n].(up := x[o].up, down := o)];
    var z := y[y[o].up := y[y[o].up].(down := n)];
    var u := z[o := z[o].(up := n, size := z[o].size + 1)];
    u[n := u[n].(col := o)]
  }

  /** A node linked to itself only. */
  function Alone(x: Pool, n: nat, col: nat, name: nat): (y: Pool)
    requires n < |x| && col < |x|
    ensures |y| == |x|
  {
    x[n := Node(n, n, n, n, col, name, 0)]
  }

  lemma PutLeftEffect(x: Pool, o: nat, n: nat, i: nat)
    requires o < |x| && n < |x| && o != n && x[o].left != n && i < |x|
    ensures PutLeft(x, o, n)[i] == x[i].(left := if i == n then x[o].left else if i == o then n else x[i].left,
                                         right := if i == n then o else if i == x[o].left then n else x[i].right)
  {
  }

  lemma PutUpEffect(x: Pool, o: nat, n: nat, i: nat)
    requires o < |x| && n < |x| && o != n && x[o].up != n && i < |x|
    ensures PutUp(x, o, n)[i] == x[i].(up := if i == n then x[o].up else if i == o then n else x[i].up,
                                       down := if i == n then o else if i == x[o].up then n else x[i].down,
                                       size := if i == o then x[i].size + 1 else x[i].size,
                                       col := if i == n then o else x[i].col)
  {
  }

  // ---------------------------------------------------------------- rings grow

  lemma PutLeftGrowsRing(x: Pool, s: seq<nat>, n: nat)
    requires RowRing(x, s) && n < |x| && n !in s
    ensures RowRing(PutLeft(x, s[0], n), s + [n])
  {
    var t, y := s + [n], PutLeft(x, s[0], n);
    RowRingAt(x, s, 0);
    RowRingAt(x, s, |s| - 1);
    assert s[|s| - 1] in s && s[0] in s;
    GrowsDistinct(s, n);
    forall i | 0 <= i < |t|
      ensures RightLink(y, t, i)
    {
      PutLeftEffect(x, s[0], n, t[i]);
      PutLeftEffect(x, s[0], n, t[Succ(i, |t|)]);
      if i < |s| {
        RowRingAt(x, s, i);
        if i + 1 < |s| {
          assert RightLink(x, s, i);
        }
      }
    }
  }

  lemma PutUpGrowsRing(x: Pool, s: seq<nat>, n: nat)
    requires ColumnRing(x, s) && n < |x| && n !in s
    ensures ColumnRing(PutUp(x, s[0], n), s + [n])
  {
    var t, y := s + [n], PutUp(x, s[0], n);
    ColumnRingAt(x, s, 0);
    ColumnRingAt(x, s, |s| - 1);
    assert s[|s| - 1] in s && s[0] in s;
    GrowsDistinct(s, n);
    forall i | 0 <= i < |t|
      ensures DownLink(y, t, i)
    {
      PutUpEffect(x, s[0], n, t[i]);
      PutUpEffect(x, s[0], n, t[Succ(i, |t|)]);
      if i < |s| {
        ColumnRingAt(x, s, i);
        if i + 1 < |s| {
          assert DownLink(x, s, i);
        }
      }
    }
  }

  lemma GrowsDistinct(s: seq<nat>, n: nat)
    requires Distinct(s) && n !in s
    ensures Distinct(s + [n])
  {
  }

  /** The ring of a node linked to itself only. */
  lemma AloneRings(x: Pool, n: nat, col: nat, name: nat)
    requires n < |x| && col < |x|
    ensures RowRing(Alone(x, n, col, name), [n]) && ColumnRing(Alone(x, n, col, name), [n])
  {
    assert RightLink(Alone(x, n, col, name), [n], 0);
    assert DownLink(Alone(x, n, col, name), [n], 0);
  }

  // ---------------------------------------------------------------- layouts grow

  /** Node `n` is not yet part of the structure. */
  ghost predicate Fresh(l: Layout, n: nat) {
    n != ROOT && n !in l.m.heads && n !in l.m.node
  }

  /** Every column is still to be covered, and every node stands. */
  ghost predicate Full(l: Layout) {
    match l
    case LayoutData(m, h, v) =>
      (forall c | c in m.heads :: c in h) && (forall e | e in m.node :: e in Column(l, m.node[e].col))
  }

  ghost function AddHead(l: Layout, c: nat): (k: Layout)
    requires Fresh(l, c)
  {
    var m := MatrixData(l.m.heads + {c}, l.m.rows, l.m.node);
    AddHeadMatrix(l.m, c);
    var d := LayoutData(m, l.h + [c], l.v[c := []]);
    AddHeadLayout(l, c, d);
    d
  }

  lemma AddHeadMatrix(m: Matrix, c: nat)
    requires c != ROOT && c !in m.heads && c !in m.node
    ensures ValidMatrix(MatrixData(m.heads + {c}, m.rows, m.node))
  {
    var m' := MatrixData(m.heads + {c}, m.rows, m.node);
    forall e | e in m'.node ensures ValidNode(m', e) {
      assert ValidNode(m, e);
    }
    forall r, k | 0 <= r < |m'.rows| && 0 <= k < |m'.rows[r]| ensures PlacedAt(m', m'.rows[r][k], r, k) {
      assert PlacedAt(m, m.rows[r][k], r, k);
    }
    forall e, f | e in m'.node && f in m'.node ensures OneNodePerColumn(m', e, f) {
      assert OneNodePerColumn(m, e, f);
    }
  }

  lemma AddHeadLayout(l: Layout, c: nat, d: LayoutData)
    requires Fresh(l, c) && ValidMatrix(MatrixData(l.m.heads + {c}, l.m.rows, l.m.node))
    requires d == LayoutData(MatrixData(l.m.heads + {c}, l.m.rows, l.m.node), l.h + [c], l.v[c := []])
    ensures ValidLayout(d)
  {
    hide ValidMatrix;
    GrowsDistinct(l.h, c);
    forall b | b in d.v ensures ValidColumn(d.m, d.v[b], b) {
      assert b != c ==> ValidColumn(l.m, l.v[b], b);
    }
  }

  /** The nodes of a represented layout, other than a fresh one, and where their links lead. */
  lemma FreshApart(x: Pool, l: Layout, n: nat)
    requires Represents(x, l) && Fresh(l, n)
    ensures n !in [ROOT] + l.h && ROOT < |x| && x[ROOT].left != n
    ensures forall c | c in l.m.heads :: c < |x| && n !in [c] + Column(l, c) && x[c].up != n
    ensures forall r | 0 <= r < |l.m.rows| :: n !in l.m.rows[r]
  {
    assert ([ROOT] + l.h)[0] == ROOT;
    RowRingAt(x, [ROOT] + l.h, 0);
    forall c | c in l.m.heads
      ensures c < |x| && n !in [c] + Column(l, c) && x[c].up != n
    {
      assert ColumnLinked(x, Column(l, c), c);
      assert ([c] + Column(l, c))[0] == c;
      ColumnRingAt(x, [c] + Column(l, c), 0);
    }
    forall r | 0 <= r < |l.m.rows| ensures n !in l.m.rows[r] {
      RowNodes(l.m, r);
    }
  }

  /** Overwriting a fresh node leaves the represented layout alone. */
  lemma AloneKeeps(x: Pool, l: Layout, n: nat, col: nat, name: nat)
    requires Represents(x, l) && Fresh(l, n) && n < |x| && col < |x|
    ensures Represents(Alone(x, n, col, name), l)
  {
    var y := Alone(x, n, col, name);
    FreshApart(x, l, n);
    RowRingFrame(x, y, [ROOT] + l.h);
    forall c | c in l.m.heads
      ensures ColumnLinked(y, Column(l, c), c)
    {
      assert ColumnLinked(x, Column(l, c), c);
      ColumnRingFrame(x, y, [c] + Column(l, c));
      assert c in [c] + Column(l, c);
    }
    forall r | 0 <= r < |l.m.rows| && l.m.rows[r] != []
      ensures RowRing(y, l.m.rows[r])
    {
      RowRingFrame(x, y, l.m.rows[r]);
    }
    forall e | e in l.m.node
      ensures Labelled(y, l.m, e)
    {
      assert Labelled(x, l.m, e);
    }
  }

  /** A new header at the right end of the header row. */
  lemma AddHeadRepresents(x: Pool, l: Layout, c: nat, name: nat)
    requires Represents(x, l) && Fresh(l, c) && c < |x|
    ensures ROOT < |x| && Represents(PutLeft(Alone(x, c, c, name), ROOT, c), AddHead(l, c))
    ensures Full(l) ==> Full(AddHead(l, c))
  {
    var a := Alone(x, c, c, name);
    AloneKeeps(x, l, c, c, name);
    AloneRings(x, c, c, name);
    FreshApart(a, l, c);
    var y, k := PutLeft(a, ROOT, c), AddHead(l, c);
    HeadRingGrows(a, l.h, c);
    forall b | b in k.m.heads
      ensures ColumnLinked(y, Column(k, b), b)
    {
      PutLeftKeepsColumn(a, ROOT, c, if b == c then [] else Column(l, b), b);
    }
    forall r | 0 <= r < |k.m.rows| && k.m.rows[r] != []
      ensures RowRing(y, k.m.rows[r])
    {
      RowApartFromHeads(a, l, r);
      PutLeftKeepsRow(a, ROOT, c, l.m.rows[r]);
    }
    PutLeftKeepsLabels(a, l.m, ROOT, c);
    forall e | e in k.m.node ensures Labelled(y, k.m, e) {
      assert Labelled(y, l.m, e);
    }
  }

  lemma HeadRingGrows(a: Pool, h: seq<nat>, c: nat)
    requires RowRing(a, [ROOT] + h) && c < |a| && ROOT < |a| && c !in [ROOT] + h
    ensures RowRing(PutLeft(a, ROOT, c), [ROOT] + (h + [c]))
  {
    PutLeftGrowsRing(a, [ROOT] + h, c);
    assert [ROOT] + h + [c] == [ROOT] + (h + [c]);
  }

  lemma PutLeftKeepsColumn(a: Pool, o: nat, n: nat, s: seq<nat>, b: nat)
    requires ColumnRing(a, [b] + s) && b < |a| && a[b].size == |s|
    requires o < |a| && n < |a| && o != n && a[o].left != n
    ensures ColumnLinked(PutLeft(a, o, n), s, b)
  {
    var y := PutLeft(a, o, n);
    forall i | 0 <= i < |[b] + s|
      ensures y[([b] + s)[i]].up == a[([b] + s)[i]].up && y[([b] + s)[i]].down == a[([b] + s)[i]].down
    {
      PutLeftEffect(a, o, n, ([b] + s)[i]);
    }
    ColumnRingFrame(a, y, [b] + s);
    PutLeftEffect(a, o, n, b);
  }

  lemma RowApartFromHeads(a: Pool, l: Layout, r: nat)
    requires Represents(a, l) && r < |l.m.rows| && ROOT < |a|
    ensures ROOT !in l.m.rows[r] && a[ROOT].left !in l.m.rows[r]
  {
    RowNodes(l.m, r);
    RowRingAt(a, [ROOT] + l.h, 0);
    var s := [ROOT] + l.h;
    assert s[0] == ROOT && a[ROOT].left == s[|s| - 1];
    assert s[|s| - 1] == ROOT || s[|s| - 1] in l.h;
  }

  lemma PutLeftKeepsRow(a: Pool, o: nat, n: nat, row: seq<nat>)
    requires RowRing(a, row) && o < |a| && n < |a| && o != n && a[o].left != n
    requires o !in row && n !in row && a[o].left !in row
    ensures RowRing(PutLeft(a, o, n), row)
  {
    forall i | 0 <= i < |row|
      ensures PutLeft(a, o, n)[row[i]].left == a[row[i]].left && PutLeft(a, o, n)[row[i]].right == a[row[i]].right
    {
      PutLeftEffect(a, o, n, row[i]);
    }
    RowRingFrame(a, PutLeft(a, o, n), row);
  }

  lemma PutLeftKeepsLabels(a: Pool, m: Matrix, o: nat, n: nat)
    requires o < |a| && n < |a| && o != n && a[o].left != n
    requires forall e | e in m.node :: Labelled(a, m, e)
    ensures forall e | e in m.node :: Labelled(PutLeft(a, o, n), m, e)
  {
    forall i | 0 <= i < |a|
      ensures PutLeft(a, o, n)[i].col == a[i].col && PutLeft(a, o, n)[i].name == a[i].name
    {
      PutLeftEffect(a, o, n, i);
    }
    LabelsKept(a, PutLeft(a, o, n), m);
  }

  // ---------------------------------------------------------------- a new node

  ghost function NodeMatrix(m: Matrix, e: nat, d: nat, name: nat): (k: Matrix)
    requires e != ROOT && e !in m.heads && e !in m.node && d in m.heads
  {
    var k := MatrixData(m.heads, m.rows + [[e]], m.node[e := NodeInfo(|m.rows|, 0, d, name)]);
    NodeMatrixValid(m, e, d, k);
    k
  }

  lemma NodeMatrixValid(m: Matrix, e: nat, d: nat, k: MatrixData)
    requires e != ROOT && e !in m.heads && e !in m.node && d in m.heads
    requires exists name :: k == MatrixData(m.heads, m.rows + [[e]], m.node[e := NodeInfo(|m.rows|, 0, d, name)])
    ensures ValidMatrix(k)
  {
    forall f | f in k.node ensures ValidNode(k, f) {
      assert f != e ==> ValidNode(m, f);
    }
    forall r, i | 0 <= r < |k.rows| && 0 <= i < |k.rows[r]| ensures PlacedAt(k, k.rows[r][i], r, i) {
      assert r < |m.rows| ==> PlacedAt(m, m.rows[r][i], r, i);
    }
    forall f, g | f in k.node && g in k.node ensures OneNodePerColumn(k, f, g) {
      if f != e && g != e {
        assert OneNodePerColumn(m, f, g);
      } else {
        assert (f == e || ValidNode(m, f)) && (g == e || ValidNode(m, g));
      }
    }
  }

  /** A new node, a row of its own, at the bottom of column `d`. */
  ghost function AddNode(l: Layout, e: nat, d: nat, name: nat): (k: Layout)
    requires Fresh(l, e) && d in l.m.heads
    ensures k.m == NodeMatrix(l.m, e, d, name) && k.h == l.h
    ensures forall c | c in l.m.heads :: Column(k, c) == if c == d then Column(l, d) + [e] else Column(l, c)
  {
    var k := LayoutData(NodeMatrix(l.m, e, d, name), l.h, l.v[d := Column(l, d) + [e]]);
    AddNodeLayout(l, e, d, name, k);
    k
  }

  lemma AddNodeLayout(l: Layout, e: nat, d: nat, name: nat, k: LayoutData)
    requires Fresh(l, e) && d in l.m.heads
    requires k == LayoutData(NodeMatrix(l.m, e, d, name), l.h, l.v[d := Column(l, d) + [e]])
    ensures ValidLayout(k)
  {
    hide ValidMatrix;
    GrowsDistinct(Column(l, d), e);
    forall c | c in k.v ensures ValidColumn(k.m, k.v[c], c) {
      assert ValidColumn(l.m, l.v[c], c);
    }
  }

  lemma AddNodeRepresents(x: Pool, l: Layout, e: nat, d: nat, name: nat)
    requires Represents(x, l) && Fresh(l, e) && e < |x| && d in l.m.heads && d < |x|
    ensures Represents(PutUp(Alone(x, e, d, name), d, e), AddNode(l, e, d, name))
    ensures Full(l) ==> Full(AddNode(l, e, d, name))
  {
    hide *;
    var a, k := Alone(x, e, d, name), AddNode(l, e, d, name);
    forall c | c in k.m.heads
      ensures ColumnLinked(PutUp(a, d, e), Column(k, c), c)
    {
      AddNodeColumn(x, l, e, d, name, c);
    }
    AddNodeRows(x, l, e, d, name);
    AddNodeLabels(x, l, e, d, name);
    RepresentsIntro(PutUp(a, d, e), k);
    AddNodeFull(l, e, d, name);
  }

  lemma AddNodeColumn(x: Pool, l: Layout, e: nat, d: nat, name: nat, c: nat)
    requires Represents(x, l) && Fresh(l, e) && e < |x| && d in l.m.heads && d < |x|
        && c in AddNode(l, e, d, name).m.heads
    ensures ColumnLinked(PutUp(Alone(x, e, d, name), d, e), Column(AddNode(l, e, d, name), c), c)
  {
    hide Represents, PutUp, Alone, AddNode, NodeMatrix, ValidLayout, ValidMatrix, Column, ColumnLinked;
    NodeMatrixParts(l.m, e, d, name);
    AloneKeeps(x, l, e, d, name);
    FreshApart(Alone(x, e, d, name), l, e);
    PutUpColumn(Alone(x, e, d, name), l, d, e, c);
  }

  lemma RepresentsIntro(y: Pool, k: Layout)
    requires RowRing(y, [ROOT] + k.h)
    requires forall c | c in k.m.heads :: ColumnLinked(y, Column(k, c), c)
    requires forall r | 0 <= r < |k.m.rows| && k.m.rows[r] != [] :: RowRing(y, k.m.rows[r])
    requires forall e | e in k.m.node :: Labelled(y, k.m, e)
    ensures Represents(y, k)
  {
    hide RowRing, ColumnLinked, Column, Labelled, ValidLayout, ValidMatrix;
  }

  lemma NodeMatrixParts(m: Matrix, e: nat, d: nat, name: nat)
    requires e != ROOT && e !in m.heads && e !in m.node && d in m.heads
    ensures NodeMatrix(m, e, d, name).heads == m.heads
    ensures NodeMatrix(m, e, d, name).rows == m.rows + [[e]]
    ensures NodeMatrix(m, e, d, name).node == m.node[e := NodeInfo(|m.rows|, 0, d, name)]
    ensures forall f | f in m.node :: m.node[f].col in m.heads
  {
    forall f | f in m.node ensures m.node[f].col in m.heads {
      assert ValidNode(m, f);
    }
  }

  lemma AddNodeFull(l: Layout, e: nat, d: nat, name: nat)
    requires Fresh(l, e) && d in l.m.heads
    ensures Full(l) ==> Full(AddNode(l, e, d, name))
  {
    hide ValidMatrix, ValidLayout, NodeMatrix, AddNode, Column;
    NodeMatrixParts(l.m, e, d, name);
  }

  /** What putting the new node into its column leaves as it was. */
  lemma AddNodeFields(x: Pool, l: Layout, e: nat, d: nat, name: nat, i: nat)
    requires Represents(x, l) && Fresh(l, e) && e < |x| && d in l.m.heads && d < |x| && i < |x|
    ensures var y := PutUp(Alone(x, e, d, name), d, e);
            if i == e then y[i].left == e && y[i].right == e && y[i].name == name && y[i].col == d
            else y[i].left == x[i].left && y[i].right == x[i].right && y[i].name == x[i].name && y[i].col == x[i].col
  {
    hide Represents, ValidLayout, ValidMatrix, Column;
    var a := Alone(x, e, d, name);
    AloneKeeps(x, l, e, d, name);
    FreshApart(a, l, e);
    assert d in [d] + Column(l, d);
    PutUpEffect(a, d, e, i);
  }

  lemma AddNodeRows(x: Pool, l: Layout, e: nat, d: nat, name: nat)
    requires Represents(x, l) && Fresh(l, e) && e < |x| && d in l.m.heads && d < |x|
    ensures var y, k := PutUp(Alone(x, e, d, name), d, e), AddNode(l, e, d, name);
            && RowRing(y, [ROOT] + k.h)
            && (forall r | 0 <= r < |k.m.rows| && k.m.rows[r] != [] :: RowRing(y, k.m.rows[r]))
  {
    hide PutUp, ValidLayout, ValidMatrix, AddNode, NodeMatrix, Column, Distinct;
    var y, k := PutUp(Alone(x, e, d, name), d, e), AddNode(l, e, d, name);
    NodeMatrixParts(l.m, e, d, name);
    FreshApart(x, l, e);
    AddNodeRow(x, l, e, d, name, [ROOT] + l.h);
    forall r | 0 <= r < |k.m.rows| && k.m.rows[r] != []
      ensures RowRing(y, k.m.rows[r])
    {
      if r < |l.m.rows| {
        AddNodeRow(x, l, e, d, name, l.m.rows[r]);
      } else {
        AddNodeAlone(x, l, e, d, name);
      }
    }
  }

  lemma AddNodeRow(x: Pool, l: Layout, e: nat, d: nat, name: nat, row: seq<nat>)
    requires Represents(x, l) && Fresh(l, e) && e < |x| && d in l.m.heads && d < |x|
    requires RowRing(x, row) && e !in row
    ensures RowRing(PutUp(Alone(x, e, d, name), d, e), row)
  {
    hide Represents, PutUp, Alone, ValidLayout, ValidMatrix;
    forall i | 0 <= i < |row|
      ensures PutUp(Alone(x, e, d, name), d, e)[row[i]].left == x[row[i]].left
          && PutUp(Alone(x, e, d, name), d, e)[row[i]].right == x[row[i]].right
    {
      AddNodeFields(x, l, e, d, name, row[i]);
    }
    RowRingFrame(x, PutUp(Alone(x, e, d, name), d, e), row);
  }

  lemma AddNodeAlone(x: Pool, l: Layout, e: nat, d: nat, name: nat)
    requires Represents(x, l) && Fresh(l, e) && e < |x| && d in l.m.heads && d < |x|
    ensures RowRing(PutUp(Alone(x, e, d, name), d, e), [e])
  {
    hide Represents, PutUp, Alone, ValidLayout, ValidMatrix;
    AddNodeFields(x, l, e, d, name, e);
    assert RightLink(PutUp(Alone(x, e, d, name), d, e), [e], 0);
  }

  lemma AddNodeLabels(x: Pool, l: Layout, e: nat, d: nat, name: nat)
    requires Represents(x, l) && Fresh(l, e) && e < |x| && d in l.m.heads && d < |x|
    ensures var y, k := PutUp(Alone(x, e, d, name), d, e), AddNode(l, e, d, name);
            forall f | f in k.m.node :: Labelled(y, k.m, f)
  {
    hide PutUp, Alone, AddNode, NodeMatrix, ValidLayout, ValidMatrix, Represents;
    var y, k := PutUp(Alone(x, e, d, name), d, e), AddNode(l, e, d, name);
    NodeMatrixParts(l.m, e, d, name);
    forall f | f in k.m.node ensures Labelled(y, k.m, f) {
      if f != e {
        NodeLabel(x, l, f);
      }
      AddNodeFields(x, l, e, d, name, f);
    }
  }

  lemma PutUpColumn(a: Pool, l: Layout, d: nat, e: nat, c: nat)
    requires Represents(a, l) && d in l.m.heads && c in l.m.heads && d < |a| && e < |a| && a[d].up != e
    requires e !in [c] + Column(l, c) && e !in [d] + Column(l, d)
    ensures ColumnLinked(PutUp(a, d, e), if c == d then Column(l, d) + [e] else Column(l, c), c)
  {
    assert ColumnLinked(a, Column(l, c), c) && ColumnLinked(a, Column(l, d), d);
    assert d in [d] + Column(l, d) && c in [c] + Column(l, c);
    PutUpEffect(a, d, e, c);
    if c == d {
      PutUpGrowsRing(a, [d] + Column(l, d), e);
      assert [d] + Column(l, d) + [e] == [d] + (Column(l, d) + [e]);
    } else {
      ColumnsApart(l, c, d);
      ColumnRingAt(a, [d] + Column(l, d), 0);
      var s := [c] + Column(l, c);
      forall i | 0 <= i < |s|
        ensures PutUp(a, d, e)[s[i]].up == a[s[i]].up && PutUp(a, d, e)[s[i]].down == a[s[i]].down
      {
        assert s[i] in s;
        PutUpEffect(a, d, e, s[i]);
      }
      ColumnRingFrame(a, PutUp(a, d, e), s);
    }
  }

  // ---------------------------------------------------------------- four nodes become a row

  /** The last four rows are the single nodes `a`, `b`, `c` and `d`, in different columns. */
  ghost predicate EndsInSingles(m: Matrix, a: nat, b: nat, c: nat, d: nat) {
    && |m.rows| >= 4 && m.rows[|m.rows| - 4..] == [[a], [b], [c], [d]]
    && a in m.node && b in m.node && c in m.node && d in m.node
    && Distinct([m.node[a].col, m.node[b].col, m.node[c].col, m.node[d].col])
  }

  /** What the nodes of these four rows become when the rows are fused into one. */
  ghost function FusedInfo(m: Matrix, a: nat, b: nat, c: nat, d: nat, e: nat): NodeInfo
    requires EndsInSingles(m, a, b, c, d) && e in m.node
  {
    var i := m.node[e];
    if e in [a, b, c, d] then
      NodeInfo(|m.rows| - 4, if e == a then 0 else if e == b then 1 else if e == c then 2 else 3, i.col, i.name)
    else i
  }

  ghost function FuseMatrix(m: Matrix, a: nat, b: nat, c: nat, d: nat): (k: Matrix)
    requires EndsInSingles(m, a, b, c, d)
  {
    var k := MatrixData(m.heads, m.rows[..|m.rows| - 4] + [[a, b, c, d]],
                        map e | e in m.node :: FusedInfo(m, a, b, c, d, e));
    FuseMatrixValid(m, a, b, c, d, k);
    k
  }

  lemma SinglesPlaced(m: Matrix, a: nat, b: nat, c: nat, d: nat)
    requires EndsInSingles(m, a, b, c, d)
    ensures var r := |m.rows| - 4;
            m.node[a].row == r && m.node[b].row == r + 1 && m.node[c].row == r + 2 && m.node[d].row == r + 3
    ensures Distinct([a, b, c, d])
    ensures forall e | e in m.node && e !in [a, b, c, d] :: m.node[e].row < |m.rows| - 4
  {
    var r, t := |m.rows| - 4, m.rows[|m.rows| - 4..];
    assert m.rows[r] == t[0] && m.rows[r + 1] == t[1] && m.rows[r + 2] == t[2] && m.rows[r + 3] == t[3];
    assert PlacedAt(m, m.rows[r][0], r, 0) && PlacedAt(m, m.rows[r + 1][0], r + 1, 0)
        && PlacedAt(m, m.rows[r + 2][0], r + 2, 0) && PlacedAt(m, m.rows[r + 3][0], r + 3, 0);
    forall e | e in m.node && e !in [a, b, c, d]
      ensures m.node[e].row < r
    {
      assert ValidNode(m, e);
      var q := m.node[e].row;
      assert q == r || q == r + 1 || q == r + 2 || q == r + 3 || q < r;
    }
  }

  lemma FuseMatrixValid(m: Matrix, a: nat, b: nat, c: nat, d: nat, k: MatrixData)
    requires EndsInSingles(m, a, b, c, d)
    requires k.heads == m.heads && k.rows == m.rows[..|m.rows| - 4] + [[a, b, c, d]] && k.node.Keys == m.node.Keys
    requires forall e | e in m.node :: k.node[e] == FusedInfo(m, a, b, c, d, e)
    ensures ValidMatrix(k)
  {
    SinglesPlaced(m, a, b, c, d);
    forall e | e in k.node ensures ValidNode(k, e) {
      FusedNode(m, a, b, c, d, k, e);
    }
    forall q, i | 0 <= q < |k.rows| && 0 <= i < |k.rows[q]| ensures PlacedAt(k, k.rows[q][i], q, i) {
      FusedPlace(m, a, b, c, d, k, q, i);
    }
    forall e, f | e in k.node && f in k.node ensures OneNodePerColumn(k, e, f) {
      FusedPair(m, a, b, c, d, k, e, f);
    }
    hide FusedInfo, Distinct, EndsInSingles, ValidNode, PlacedAt, OneNodePerColumn;
  }

  lemma FusedNode(m: Matrix, a: nat, b: nat, c: nat, d: nat, k: MatrixData, e: nat)
    requires EndsInSingles(m, a, b, c, d) && e in m.node && e in k.node
    requires k.heads == m.heads && k.rows == m.rows[..|m.rows| - 4] + [[a, b, c, d]]
    requires k.node[e] == FusedInfo(m, a, b, c, d, e)
    ensures ValidNode(k, e)
  {
    SinglesPlaced(m, a, b, c, d);
    assert ValidNode(m, e);
    hide ValidMatrix, Distinct;
  }

  lemma FusedPlace(m: Matrix, a: nat, b: nat, c: nat, d: nat, k: MatrixData, q: nat, i: nat)
    requires EndsInSingles(m, a, b, c, d) && k.node.Keys == m.node.Keys
    requires k.rows == m.rows[..|m.rows| - 4] + [[a, b, c, d]]
    requires forall e | e in m.node :: k.node[e] == FusedInfo(m, a, b, c, d, e)
    requires q < |k.rows| && i < |k.rows[q]|
    ensures PlacedAt(k, k.rows[q][i], q, i)
  {
    SinglesPlaced(m, a, b, c, d);
    if q < |m.rows| - 4 {
      assert PlacedAt(m, m.rows[q][i], q, i);
    } else {
      var s := [a, b, c, d];
      assert k.rows[q] == s && (i == 0 || i == 1 || i == 2 || i == 3);
      assert s[0] != s[1] && s[0] != s[2] && s[0] != s[3] && s[1] != s[2] && s[1] != s[3] && s[2] != s[3];
    }
    hide ValidMatrix, Distinct;
  }

  lemma FusedPair(m: Matrix, a: nat, b: nat, c: nat, d: nat, k: MatrixData, e: nat, f: nat)
    requires EndsInSingles(m, a, b, c, d) && e in m.node && f in m.node && e in k.node && f in k.node
    requires k.node[e] == FusedInfo(m, a, b, c, d, e) && k.node[f] == FusedInfo(m, a, b, c, d, f)
    ensures OneNodePerColumn(k, e, f)
  {
    SinglesPlaced(m, a, b, c, d);
    assert OneNodePerColumn(m, e, f);
    if e in [a, b, c, d] && f in [a, b, c, d] && e != f {
      FusedColumns(m, a, b, c, d, e, f);
    }
    hide ValidMatrix, Distinct;
  }

  lemma FusedColumns(m: Matrix, a: nat, b: nat, c: nat, d: nat, e: nat, f: nat)
    requires EndsInSingles(m, a, b, c, d) && e in [a, b, c, d] && f in [a, b, c, d] && e != f
    ensures m.node[e].col != m.node[f].col
  {
    var s := [m.node[a].col, m.node[b].col, m.node[c].col, m.node[d].col];
    assert s[0] != s[1] && s[0] != s[2] && s[0] != s[3] && s[1] != s[2] && s[1] != s[3] && s[2] != s[3];
  }

  /** The layout with the four single rows fused. */
  ghost function Fuse(l: Layout, a: nat, b: nat, c: nat, d: nat): (k: Layout)
    requires EndsInSingles(l.m, a, b, c, d)
    ensures k.m == FuseMatrix(l.m, a, b, c, d) && k.h == l.h && forall e :: Column(k, e) == Column(l, e)
  {
    FuseLayout(l, a, b, c, d);
    LayoutData(FuseMatrix(l.m, a, b, c, d), l.h, l.v)
  }

  lemma FuseLayout(l: Layout, a: nat, b: nat, c: nat, d: nat)
    requires EndsInSingles(l.m, a, b, c, d)
    ensures ValidLayout(LayoutData(FuseMatrix(l.m, a, b, c, d), l.h, l.v))
  {
    hide ValidMatrix, EndsInSingles, Distinct;
    var k := FuseMatrix(l.m, a, b, c, d);
    forall e | e in l.v ensures ValidColumn(k, l.v[e], e) {
      assert ValidColumn(l.m, l.v[e], e);
    }
  }

  /** Putting `b`, `c` and `d` to the left of `a` fuses their rows. */
  ghost function FusePool(x: Pool, a: nat, b: nat, c: nat, d: nat): (y: Pool)
    requires a < |x| && b < |x| && c < |x| && d < |x|
    ensures |y| == |x|
  {
    PutLeft(PutLeft(PutLeft(x, a, b), a, c), a, d)
  }

  lemma FourDistinct(a: nat, b: nat, c: nat, d: nat)
    requires Distinct([a, b, c, d])
    ensures a != b && a != c && a != d && b != c && b != d && c != d
  {
    var s := [a, b, c, d];
    assert s[0] != s[1] && s[0] != s[2] && s[0] != s[3] && s[1] != s[2] && s[1] != s[3] && s[2] != s[3];
  }

  /** What the three insertions do, given that the four nodes are alone in their rows. */
  lemma FusePoolEffect(x: Pool, a: nat, b: nat, c: nat, d: nat, i: nat)
    requires a < |x| && b < |x| && c < |x| && d < |x| && Distinct([a, b, c, d]) && RowRing(x, [a]) && i < |x|
    ensures RowRing(FusePool(x, a, b, c, d), [a, b, c, d])
    ensures var y := FusePool(x, a, b, c, d);
            && y[i].up == x[i].up && y[i].down == x[i].down && y[i].size == x[i].size && y[i].col == x[i].col
            && y[i].name == x[i].name
            && (i !in [a, b, c, d] ==> y[i] == x[i])
  {
    hide PutLeft, Distinct, RowRing;
    FourDistinct(a, b, c, d);
    RowRingAt(x, [a], 0);
    PutLeftGrowsRing(x, [a], b);
    PutLeftEffect(x, a, b, i);
    var y := PutLeft(x, a, b);
    assert [a] + [b] == [a, b];
    RowRingAt(y, [a, b], 0);
    PutLeftGrowsRing(y, [a, b], c);
    PutLeftEffect(y, a, c, i);
    var z := PutLeft(y, a, c);
    assert [a, b] + [c] == [a, b, c];
    RowRingAt(z, [a, b, c], 0);
    PutLeftGrowsRing(z, [a, b, c], d);
    PutLeftEffect(z, a, d, i);
    assert [a, b, c] + [d] == [a, b, c, d];
  }

  lemma FuseRepresents(x: Pool, l: Layout, a: nat, b: nat, c: nat, d: nat)
    requires Represents(x, l) && EndsInSingles(l.m, a, b, c, d)
    ensures a < |x| && b < |x| && c < |x| && d < |x| && Represents(FusePool(x, a, b, c, d), Fuse(l, a, b, c, d))
    ensures Full(l) ==> Full(Fuse(l, a, b, c, d))
  {
    hide *;
    FuseReady(x, l, a, b, c, d);
    var y, k := FusePool(x, a, b, c, d), Fuse(l, a, b, c, d);
    FuseHeads(x, l, a, b, c, d);
    forall r | 0 <= r < |k.m.rows| && k.m.rows[r] != []
      ensures RowRing(y, k.m.rows[r])
    {
      FuseRow(x, l, a, b, c, d, r);
    }
    RepresentsIntro(y, k);
    FuseFull(l, a, b, c, d);
  }

  lemma FuseReady(x: Pool, l: Layout, a: nat, b: nat, c: nat, d: nat)
    requires Represents(x, l) && EndsInSingles(l.m, a, b, c, d)
    ensures a < |x| && b < |x| && c < |x| && d < |x| && Distinct([a, b, c, d]) && RowRing(x, [a])
    ensures forall e | e in [a, b, c, d] :: e in l.m.node && e !in [ROOT] + l.h
  {
    hide ValidLayout;
    SinglesPlaced(l.m, a, b, c, d);
    NodeLabel(x, l, a);
    NodeLabel(x, l, b);
    NodeLabel(x, l, c);
    NodeLabel(x, l, d);
    var t := l.m.rows[|l.m.rows| - 4..];
    assert l.m.rows[|l.m.rows| - 4] == t[0];
    HeadsAreNoNodes(l);
  }

  lemma HeadsAreNoNodes(l: Layout)
    ensures forall e | e in l.m.node :: e !in [ROOT] + l.h
  {
  }

  lemma FuseFull(l: Layout, a: nat, b: nat, c: nat, d: nat)
    requires EndsInSingles(l.m, a, b, c, d)
    ensures Full(l) ==> Full(Fuse(l, a, b, c, d))
  {
    hide ValidMatrix, ValidLayout, Column, EndsInSingles, Fuse;
  }

  lemma FuseHeads(x: Pool, l: Layout, a: nat, b: nat, c: nat, d: nat)
    requires Represents(x, l) && EndsInSingles(l.m, a, b, c, d)
    requires a < |x| && b < |x| && c < |x| && d < |x| && Distinct([a, b, c, d]) && RowRing(x, [a])
    requires forall e | e in [a, b, c, d] :: e in l.m.node && e !in [ROOT] + l.h
    ensures var y, k := FusePool(x, a, b, c, d), Fuse(l, a, b, c, d);
            && RowRing(y, [ROOT] + k.h)
            && (forall e | e in k.m.heads :: ColumnLinked(y, Column(k, e), e))
            && (forall e | e in k.m.node :: Labelled(y, k.m, e))
  {
    hide ValidMatrix, ValidLayout, Column, EndsInSingles, Distinct, FusePool;
    var y, k := FusePool(x, a, b, c, d), Fuse(l, a, b, c, d);
    forall i | 0 <= i < |x|
      ensures y[i].up == x[i].up && y[i].down == x[i].down && y[i].size == x[i].size && y[i].col == x[i].col
          && y[i].name == x[i].name
      ensures i !in [a, b, c, d] ==> y[i] == x[i]
    {
      FusePoolEffect(x, a, b, c, d, i);
    }
    var s := [ROOT] + l.h;
    forall i | 0 <= i < |s| ensures s[i] !in [a, b, c, d] {
      assert s[i] in s;
    }
    RowRingFrame(x, y, s);
    forall e | e in k.m.heads
      ensures ColumnLinked(y, Column(k, e), e)
    {
      assert ColumnLinked(x, Column(l, e), e);
      ColumnRingFrame(x, y, [e] + Column(l, e));
    }
    forall e | e in k.m.node
      ensures Labelled(y, k.m, e)
    {
      assert Labelled(x, l.m, e);
    }
  }

  lemma FuseRow(x: Pool, l: Layout, a: nat, b: nat, c: nat, d: nat, r: nat)
    requires Represents(x, l) && EndsInSingles(l.m, a, b, c, d)
    requires a < |x| && b < |x| && c < |x| && d < |x| && Distinct([a, b, c, d]) && RowRing(x, [a])
    requires r < |Fuse(l, a, b, c, d).m.rows| && Fuse(l, a, b, c, d).m.rows[r] != []
    ensures RowRing(FusePool(x, a, b, c, d), Fuse(l, a, b, c, d).m.rows[r])
  {
    hide ValidLayout, Column, FusePool, Distinct;
    var y := FusePool(x, a, b, c, d);
    if r < |l.m.rows| - 4 {
      var row := l.m.rows[r];
      RowNodes(l.m, r);
      SinglesPlaced(l.m, a, b, c, d);
      assert RowRing(x, row);
      forall i | 0 <= i < |row|
        ensures y[row[i]].left == x[row[i]].left && y[row[i]].right == x[row[i]].right
      {
        assert row[i] in row;
        FusePoolEffect(x, a, b, c, d, row[i]);
      }
      RowRingFrame(x, y, row);
    } else {
      FusePoolEffect(x, a, b, c, d, a);
    }
  }
}
