/** The exact-cover problem that `SudokuSolver` makes of a board (examples/sudoku/sudoku.cc): a column for every
    constraint that the givens leave open, named as in the source, and a row for every value that can still go into
    an empty cell. Its exact covers are the constraint covers of module `SudokuRules`, and so the completions of the
    board, read off the rows that were chosen. The names in a row tell its cell and its value. */
module SudokuMatrix {
  import opened DancingLinks
  import opened ExactCover
  import opened LinkBuilding
  import opened SudokuRules

  /** The rows of a sudoku matrix: four nodes, the first named after a cell, the other three after
      a unit and a value, and equal names exactly in equal columns. */
  ghost predicate SudokuRows(m: Matrix) {
    match m
    case MatrixData(heads, rows, node) =>
      && (forall r | 0 <= r < |rows| :: SudokuRow(m, rows[r]))
      && (forall e, f {:trigger NamedAlike(node[e], node[f])} | e in node && f in node :: NamedAlike(node[e], node[f]))
  }

  /** Equal names exactly in equal columns. */
  ghost predicate NamedAlike(i: NodeInfo, j: NodeInfo) {
    i.col == j.col <==> i.name == j.name
  }

  ghost predicate SudokuRow(m: Matrix, row: seq<nat>) {
    && |row| == 4 && (forall e | e in row :: e in m.node)
    && m.node[row[0]].name < 81 && m.node[row[1]].name >= 100 && m.node[row[2]].name >= 100
    && m.node[row[3]].name >= 100
    && m.node[row[1]].name % 10 == m.node[row[2]].name % 10 == m.node[row[3]].name % 10
  }

  /** The cell that choosing row `r` fills. */
  ghost function Cell(m: Matrix, r: nat): (i: nat)
    requires SudokuRows(m) && r < |m.rows|
    ensures i < 81
  {
    assert SudokuRow(m, m.rows[r]);
    m.node[m.rows[r][0]].name
  }

  /** The value it is filled with. */
  ghost function Val(m: Matrix, r: nat): (v: nat)
    requires SudokuRows(m) && r < |m.rows|
    ensures v < 10
  {
    assert SudokuRow(m, m.rows[r]);
    m.node[m.rows[r][1]].name % 10
  }

  lemma RowEntry(m: Matrix, r: nat, i: nat)
    requires SudokuRows(m) && r < |m.rows| && i < 4
    ensures |m.rows[r]| == 4 && m.rows[r][i] in m.node
    ensures var n := m.node[m.rows[r][i]].name;
            if i == 0 then n < 100 && n == Cell(m, r) else n >= 100 && n % 10 == Val(m, r)
  {
    hide ValidMatrix;
    assert SudokuRow(m, m.rows[r]);
    assert i == 0 || i == 1 || i == 2 || i == 3;
  }

  /** Board `b` is `b0` with the cells of the rows in `p` filled in. */
  ghost predicate Written(b: seq<int>, b0: seq<int>, m: Matrix, p: set<nat>)
    requires SudokuRows(m)
  {
    && |b| == |b0| == 81
    && (forall r | r in p :: r < |m.rows| && b[Cell(m, r)] == Val(m, r))
    && (forall i | 0 <= i < 81 && Untouched(m, p, i) :: b[i] == b0[i])
  }

  ghost predicate Untouched(m: Matrix, p: set<nat>, i: nat)
    requires SudokuRows(m)
  {
    forall r | r in p && r < |m.rows| :: Cell(m, r) != i
  }

  // ---------------------------------------------------------------- the matrix of a board

  /** Row `r` is named after placement `c`: its cell, then its row, column and box with its value. */
  ghost predicate NamedAfter(m: Matrix, r: nat, c: Placement)
    requires r < |m.rows| && c.i < 81
  {
    var row := m.rows[r];
    && |row| == 4 && (forall k | 0 <= k < 4 :: row[k] in m.node)
    && m.node[row[0]].name == c.i
    && forall kind | 0 <= kind < 3 :: m.node[row[kind + 1]].name == UnitName(kind, UnitOf(kind, c.i), c.v)
  }

  /** `cols[n]` is the header of constraint `n`, or -1.  The headers are those of open constraints,
      and different constraints have different headers. */
  ghost predicate ValidColumns(l: Layout, cols: seq<int>, b0: seq<int>)
    requires |b0| == 81
  {
    && |cols| == 400
    && (forall n | 0 <= n < 400 && cols[n] != -1 :: cols[n] >= 0 && cols[n] in l.h && Open(b0, n))
    && (forall n, k | 0 <= n < k < 400 && cols[n] != -1 :: cols[n] != cols[k])
    && (forall c | c in l.h :: HasName(cols, c))
    && (forall e | e in l.m.node :: l.m.node[e].name < 400 && cols[l.m.node[e].name] == l.m.node[e].col)
  }

  ghost predicate HasName(cols: seq<int>, c: nat) {
    exists n | 0 <= n < |cols| :: cols[n] == c
  }

  /** The rows are those of the placements `made`, candidates without repetition. */
  ghost predicate ValidRows(m: Matrix, b0: seq<int>, made: seq<Placement>)
    requires |b0| == 81
  {
    && |made| == |m.rows|
    && (forall r | 0 <= r < |made| :: Candidate(b0, made[r].i, made[r].v) && NamedAfter(m, r, made[r]))
    && (forall q, r | 0 <= q < r < |made| :: made[q] != made[r])
  }

  /** The structure of board `b0` is complete. */
  ghost predicate Encodes(l: Layout, cols: seq<int>, b0: seq<int>, made: seq<Placement>) {
    && ValidBoard(b0) && ValidColumns(l, cols, b0) && ValidRows(l.m, b0, made) && Full(l)
    && (forall n: nat | Open(b0, n) :: n < 400 && cols[n] != -1)
    && (forall i: nat, v: nat | Candidate(b0, i, v) :: Placement(i, v) in made)
  }

  lemma FullIsConsistent(l: Layout)
    requires Full(l) && forall r | 0 <= r < |l.m.rows| :: l.m.rows[r] != []
    ensures Consistent(l) && forall r | 0 <= r < |l.m.rows| :: Live(l, r)
  {
    forall r | 0 <= r < |l.m.rows| ensures Live(l, r) {
      RowNodes(l.m, r);
      forall e | e in l.m.rows[r] ensures Stands(l, e) {
        NodeRow(l.m, e);
      }
    }
    forall e | Stands(l, e) ensures Live(l, l.m.node[e].row) {
      NodeRow(l.m, e);
    }
  }

  /** The rows of a sudoku matrix have the form the solver reads. */
  lemma EncodedRows(l: Layout, cols: seq<int>, b0: seq<int>, made: seq<Placement>)
    requires |b0| == 81 && ValidColumns(l, cols, b0) && ValidRows(l.m, b0, made)
    ensures SudokuRows(l.m)
    ensures forall r | 0 <= r < |l.m.rows| :: Cell(l.m, r) == made[r].i && Val(l.m, r) == made[r].v
  {
    forall r | 0 <= r < |l.m.rows| ensures SudokuRow(l.m, l.m.rows[r]) {
      EncodedRow(l, b0, made, r);
    }
    forall e, f | e in l.m.node && f in l.m.node ensures NamedAlike(l.m.node[e], l.m.node[f]) {
    }
    assert SudokuRows(l.m);
    forall r | 0 <= r < |l.m.rows| ensures Cell(l.m, r) == made[r].i && Val(l.m, r) == made[r].v {
      EncodedRow(l, b0, made, r);
    }
  }

  lemma EncodedRow(l: Layout, b0: seq<int>, made: seq<Placement>, r: nat)
    requires |b0| == 81 && ValidRows(l.m, b0, made) && r < |l.m.rows|
    ensures SudokuRow(l.m, l.m.rows[r])
    ensures l.m.node[l.m.rows[r][0]].name == made[r].i && l.m.node[l.m.rows[r][1]].name % 10 == made[r].v
  {
    hide ValidMatrix, ValidLayout, Open, Meets;
    var c := made[r];
    assert Candidate(b0, c.i, c.v);
    assert NamedAfter(l.m, r, c);
    NamedRow(l.m, l.m.rows[r], r, c);
  }

  lemma NamedRow(m: Matrix, row: seq<nat>, r: nat, c: Placement)
    requires r < |m.rows| && row == m.rows[r] && c.i < 81 && 1 <= c.v <= 9 && NamedAfter(m, r, c)
    ensures SudokuRow(m, row) && m.node[row[0]].name == c.i && m.node[row[1]].name % 10 == c.v
  {
    hide ValidMatrix;
    assert UnitNamed(m, row, c, 0) && UnitNamed(m, row, c, 1) && UnitNamed(m, row, c, 2);
    UnitNameDigit(0, UnitOf(0, c.i), c.v);
    UnitNameDigit(1, UnitOf(1, c.i), c.v);
    UnitNameDigit(2, UnitOf(2, c.i), c.v);
    forall e | e in row ensures e in m.node {
    }
    hide NamedAfter, UnitName, UnitOf;
  }

  lemma UnitNameDigit(kind: nat, u: nat, v: nat)
    requires 1 <= v <= 9
    ensures UnitName(kind, u, v) >= 100 && UnitName(kind, u, v) % 10 == v
  {
  }

  ghost predicate UnitNamed(m: Matrix, row: seq<nat>, c: Placement, kind: nat)
    requires |row| == 4 && kind < 3 && c.i < 81 && row[kind + 1] in m.node
  {
    m.node[row[kind + 1]].name == UnitName(kind, UnitOf(kind, c.i), c.v)
  }

  /** A placement meets exactly the constraints whose columns its row covers. */
  lemma MeetsIsCovers(l: Layout, cols: seq<int>, b0: seq<int>, made: seq<Placement>, r: nat, n: nat)
    requires |b0| == 81 && ValidColumns(l, cols, b0) && ValidRows(l.m, b0, made) && r < |made|
    requires n < 400 && cols[n] != -1
    ensures Meets(made[r].i, made[r].v, n) <==> Covers(l.m, r, cols[n])
  {
    hide ValidMatrix, ValidLayout;
    var c, row := made[r], l.m.rows[r];
    assert NamedAfter(l.m, r, c);
    if Meets(c.i, c.v, n) {
      var k: nat :| k < 4 && l.m.node[row[k]].name == n;
      RowNodes(l.m, r);
      assert row[k] in row;
    }
    if Covers(l.m, r, cols[n]) {
      var e :| e in l.m.node && l.m.node[e].row == r && l.m.node[e].col == cols[n];
      RowNodes(l.m, r);
      var k: nat :| k < 4 && row[k] == e;
      assert l.m.node[e].name == n;
      assert k == 0 || UnitNamed(l.m, row, c, k - 1);
    }
  }

  // ---------------------------------------------------------------- exact covers are completions

  ghost function PlacementsOf(made: seq<Placement>, p: set<nat>): set<Placement> {
    set r | r in p && r < |made| :: made[r]
  }

  ghost function RowsOf(made: seq<Placement>, q: set<Placement>): set<nat> {
    set r: nat | r < |made| && made[r] in q
  }

  /** The placements of an exact cover of the matrix exactly cover the open constraints ... */
  lemma CoverPlaces(l: Layout, cols: seq<int>, b0: seq<int>, made: seq<Placement>, p: set<nat>)
    requires Encodes(l, cols, b0, made) && IsExactCover(l, p)
    ensures IsConstraintCover(b0, PlacementsOf(made, p))
  {
    hide ValidMatrix, ValidLayout, Candidate, Meets, Covers, Live, Full, NamedAfter, Compatible;
    var q := PlacementsOf(made, p);
    forall n: nat | Open(b0, n)
      ensures exists c | c in q :: Meets(c.i, c.v, n)
    {
      assert CoveredBy(l.m, p, cols[n]);
      var r :| r in p && Covers(l.m, r, cols[n]);
      LiveRow(l, p, r);
      MeetsIsCovers(l, cols, b0, made, r, n);
      assert made[r] in q;
    }
    forall c, d | c in q && d in q && c != d
      ensures Compatible(c, d)
    {
      var r :| r in p && r < |made| && made[r] == c;
      var s :| s in p && s < |made| && made[s] == d;
      RowsCompatible(l, cols, b0, made, p, r, s);
    }
  }

  /** Two rows of an exact cover meet no constraint twice. */
  lemma RowsCompatible(l: Layout, cols: seq<int>, b0: seq<int>, made: seq<Placement>, p: set<nat>, r: nat, s: nat)
    requires Encodes(l, cols, b0, made) && IsExactCover(l, p)
    requires r in p && s in p && r < |made| && s < |made| && r != s
    ensures Compatible(made[r], made[s])
  {
    hide ValidMatrix, ValidLayout, Candidate, Meets, Covers, Live, Full, NamedAfter;
    forall n | Meets(made[r].i, made[r].v, n) ensures !Meets(made[s].i, made[s].v, n) {
      CandidateMeets(b0, made[r], n);
      MeetsIsCovers(l, cols, b0, made, r, n);
      MeetsIsCovers(l, cols, b0, made, s, n);
    }
  }

  lemma LiveRow(l: Layout, p: set<nat>, r: nat)
    requires IsExactCover(l, p) && r in p
    ensures r < |l.m.rows|
  {
    assert Live(l, r);
  }

  lemma CandidateMeets(b0: seq<int>, c: Placement, n: nat)
    requires |b0| == 81 && Candidate(b0, c.i, c.v) && Meets(c.i, c.v, n)
    ensures Open(b0, n)
  {
  }

  /** ... and the rows of placements that exactly cover the open constraints are an exact cover. */
  lemma PlacesCover(l: Layout, cols: seq<int>, b0: seq<int>, made: seq<Placement>, q: set<Placement>)
    requires Encodes(l, cols, b0, made) && IsConstraintCover(b0, q)
    ensures IsExactCover(l, RowsOf(made, q))
  {
    hide *;
    var p := RowsOf(made, q);
    RowsLive(l, cols, b0, made, q);
    forall c | c in l.h
      ensures CoveredBy(l.m, p, c)
    {
      HeadIsCovered(l, cols, b0, made, q, c);
    }
    forall r, s | r in p && s in p && r != s
      ensures Disjoint(l.m, r, s)
    {
      RowsDisjoint(l, cols, b0, made, q, r, s);
    }
    ExactCoverIntro(l, p);
  }

  lemma ExactCoverIntro(l: Layout, p: set<nat>)
    requires forall r | r in p :: Live(l, r)
    requires forall q, r | q in p && r in p && q != r :: Disjoint(l.m, q, r)
    requires forall c | c in l.h :: CoveredBy(l.m, p, c)
    ensures IsExactCover(l, p)
  {
  }

  lemma RowsLive(l: Layout, cols: seq<int>, b0: seq<int>, made: seq<Placement>, q: set<Placement>)
    requires Encodes(l, cols, b0, made)
    ensures forall r | r in RowsOf(made, q) :: Live(l, r)
  {
    hide ValidMatrix, ValidLayout, Candidate, Live, Full, ValidColumns;
    RowsNotEmpty(l, b0, made);
    FullIsConsistent(l);
  }

  lemma HeadIsCovered(l: Layout, cols: seq<int>, b0: seq<int>, made: seq<Placement>, q: set<Placement>, c: nat)
    requires Encodes(l, cols, b0, made) && IsConstraintCover(b0, q) && c in l.h
    ensures CoveredBy(l.m, RowsOf(made, q), c)
  {
    hide ValidMatrix, ValidLayout, Candidate, Meets, Covers, Full, NamedAfter;
    assert HasName(cols, c);
    var n: nat :| n < |cols| && cols[n] == c;
    var d :| d in q && Meets(d.i, d.v, n);
    assert Candidate(b0, d.i, d.v);
    assert Placement(d.i, d.v) in made;
    var r: nat :| r < |made| && made[r] == d;
    MeetsIsCovers(l, cols, b0, made, r, n);
    assert r in RowsOf(made, q);
  }

  lemma RowsNotEmpty(l: Layout, b0: seq<int>, made: seq<Placement>)
    requires |b0| == 81 && ValidRows(l.m, b0, made)
    ensures forall r | 0 <= r < |l.m.rows| :: l.m.rows[r] != []
  {
    hide ValidMatrix, ValidLayout;
    forall r | 0 <= r < |l.m.rows| ensures l.m.rows[r] != [] {
      assert Candidate(b0, made[r].i, made[r].v);
      assert NamedAfter(l.m, r, made[r]);
    }
  }

  lemma RowsDisjoint(l: Layout, cols: seq<int>, b0: seq<int>, made: seq<Placement>, q: set<Placement>, r: nat, s: nat)
    requires Encodes(l, cols, b0, made) && IsConstraintCover(b0, q)
    requires r in RowsOf(made, q) && s in RowsOf(made, q) && r != s
    ensures Disjoint(l.m, r, s)
  {
    hide ValidMatrix, Candidate, Meets, Live, NamedAfter;
    assert made[r] != made[s] && Compatible(made[r], made[s]);
    forall c
      ensures !(Covers(l.m, r, c) && Covers(l.m, s, c))
    {
      if Covers(l.m, r, c) {
        var e :| e in l.m.node && l.m.node[e].row == r && l.m.node[e].col == c;
        MeetsIsCovers(l, cols, b0, made, r, l.m.node[e].name);
        MeetsIsCovers(l, cols, b0, made, s, l.m.node[e].name);
      }
    }
  }

  /** If the matrix of a board has no exact cover, the board has no completion. */
  lemma NoCoverNoCompletion(l: Layout, cols: seq<int>, b0: seq<int>, made: seq<Placement>)
    requires Encodes(l, cols, b0, made) && NoExactCover(l)
    ensures forall b :: !IsCompletion(b0, b)
  {
    hide IsExactCover, IsCompletion;
    forall b ensures !IsCompletion(b0, b) {
      if IsCompletion(b0, b) {
        CompletionNonNegative(b0, b);
        CompletionCovers(b0, b);
        PlacesCover(l, cols, b0, made, Added(b0, b));
      }
    }
  }

  lemma CompletionNonNegative(b0: seq<int>, b: seq<int>)
    requires IsCompletion(b0, b)
    ensures |b0| == |b| == 81 && forall i | 0 <= i < 81 :: b[i] >= 0
  {
  }

  /** A board filled in for an exact cover of its matrix is completed. */
  lemma WrittenIsCompletion(l: Layout, cols: seq<int>, b0: seq<int>, made: seq<Placement>, p: set<nat>, b: seq<int>)
    requires Encodes(l, cols, b0, made) && IsExactCover(l, p) && SudokuRows(l.m) && Written(b, b0, l.m, p)
    ensures IsCompletion(b0, b)
  {
    hide ValidMatrix, ValidLayout, Candidate, Live, SudokuRows, NamedAfter, IsExactCover, IsConstraintCover, Full,
        IsCompletion, Cell, Val;
    CoverPlaces(l, cols, b0, made, p);
    EncodedRows(l, cols, b0, made);
    var q := PlacementsOf(made, p);
    assert Filled(b, b0, q) by {
      forall c | c in q ensures c.i < 81 && b[c.i] == c.v {
        var r :| r in p && r < |made| && made[r] == c;
        assert Cell(l.m, r) == c.i;
      }
      forall i: nat | i < 81
        ensures (exists c | c in q :: c.i == i) || b[i] == b0[i]
      {
        if !Untouched(l.m, p, i) {
          var r :| r in p && r < |l.m.rows| && Cell(l.m, r) == i;
          assert made[r] in q;
        }
      }
    }
    CoverCompletes(b0, q, b);
  }

  // ---------------------------------------------------------------- building the matrix

  /** Appending the column of an open constraint. */
  lemma ColumnAppended(l: Layout, cols: seq<int>, b0: seq<int>, c: nat, n: nat)
    requires |b0| == 81 && ValidColumns(l, cols, b0) && Fresh(l, c) && n < 400 && Open(b0, n) && cols[n] == -1
    ensures ValidColumns(AddHead(l, c), cols[n := c], b0)
    ensures |AddHead(l, c).h| == |l.h| + 1 && AddHead(l, c).m.node == l.m.node
    ensures ValidRows(l.m, b0, []) ==> ValidRows(AddHead(l, c).m, b0, [])
    ensures forall k | k != c && Fresh(l, k) :: Fresh(AddHead(l, c), k)
  {
    hide ValidMatrix, Open;
    var k, cols' := AddHead(l, c), cols[n := c];
    forall d | d in k.h ensures HasName(cols', d) {
      if d == c {
        assert cols'[n] == c;
      } else {
        assert HasName(cols, d);
        var i :| 0 <= i < |cols| && cols[i] == d;
        assert cols'[i] == d;
      }
    }
    forall e | e in k.m.node ensures cols'[k.m.node[e].name] == k.m.node[e].col {
      NodeRow(l.m, e);
    }
  }

  /** A new node, named after a constraint, in the column of that constraint. */
  lemma NodeAdded(l: Layout, cols: seq<int>, b0: seq<int>, e: nat, n: nat)
    requires |b0| == 81 && ValidColumns(l, cols, b0) && Fresh(l, e) && n < 400 && cols[n] != -1
    ensures cols[n] >= 0 && cols[n] in l.m.heads
    ensures ValidColumns(AddNode(l, e, cols[n], n), cols, b0)
    ensures forall k | k != e && Fresh(l, k) :: Fresh(AddNode(l, e, cols[n], n), k)
  {
    hide ValidMatrix, Open, NodeMatrix;
    NodeMatrixParts(l.m, e, cols[n], n);
  }

  /** The name of the `k`-th node of the row of a placement. */
  ghost function NodeName(i: nat, v: nat, k: nat): nat
    requires i < 81 && k < 4
  {
    if k == 0 then i else UnitName(k - 1, UnitOf(k - 1, i), v)
  }

  /** Matrix `k` is `m` with the single nodes `es` at its end, named after the first nodes of the row
      of a placement. */
  ghost predicate NodesAdded(m: Matrix, k: Matrix, cols: seq<int>, i: nat, v: nat, es: seq<nat>) {
    && i < 81 && |es| <= 4 && k.heads == m.heads
    && |k.rows| == |m.rows| + |es| && k.rows[..|m.rows|] == m.rows
    && (forall j | 0 <= j < |es| ::
        k.rows[|m.rows| + j] == [es[j]] && es[j] !in m.node && AddedAs(k, cols, es[j], NodeName(i, v, j)))
    && (forall e | e in m.node :: e in k.node && k.node[e] == m.node[e])
  }

  ghost predicate AddedAs(k: Matrix, cols: seq<int>, e: nat, n: nat) {
    e in k.node && k.node[e].name == n < |cols| && cols[n] == k.node[e].col
  }

  lemma NoNodesAdded(m: Matrix, cols: seq<int>, i: nat, v: nat)
    requires i < 81
    ensures NodesAdded(m, m, cols, i, v, [])
  {
  }

  lemma OneMoreNode(m: Matrix, k: Layout, cols: seq<int>, i: nat, v: nat, es: seq<nat>, e: nat)
    requires NodesAdded(m, k.m, cols, i, v, es) && |es| < 4 && Fresh(k, e)
    requires var n := NodeName(i, v, |es|); n < |cols| && cols[n] >= 0 && cols[n] in k.m.heads
    ensures var n := NodeName(i, v, |es|);
            NodesAdded(m, AddNode(k, e, cols[n], n).m, cols, i, v, es + [e])
  {
    hide ValidMatrix, ValidLayout, NodeMatrix, Column, NodeName, AddedAs;
    var n := NodeName(i, v, |es|);
    NodeMatrixParts(k.m, e, cols[n], n);
    LastAddedAs(k, cols, e, n);
    var k' := AddNode(k, e, cols[n], n).m;
    assert k'.rows[..|m.rows|] == m.rows;
    forall j | 0 <= j < |es| + 1
      ensures k'.rows[|m.rows| + j] == [(es + [e])[j]] && (es + [e])[j] !in m.node
          && AddedAs(k', cols, (es + [e])[j], NodeName(i, v, j))
    {
      if j < |es| {
        StillAddedAs(k, cols, e, n, es[j], NodeName(i, v, j));
      }
    }
  }

  lemma StillAddedAs(k: Layout, cols: seq<int>, e: nat, n: nat, f: nat, n': nat)
    requires Fresh(k, e) && n < |cols| && cols[n] >= 0 && cols[n] in k.m.heads && AddedAs(k.m, cols, f, n')
    ensures AddedAs(AddNode(k, e, cols[n], n).m, cols, f, n')
  {
    hide ValidMatrix, ValidLayout, NodeMatrix, Column;
    NodeMatrixParts(k.m, e, cols[n], n);
  }

  lemma LastAddedAs(k: Layout, cols: seq<int>, e: nat, n: nat)
    requires Fresh(k, e) && n < |cols| && cols[n] >= 0 && cols[n] in k.m.heads
    ensures AddedAs(AddNode(k, e, cols[n], n).m, cols, e, n)
  {
    hide ValidMatrix, ValidLayout, NodeMatrix, Column;
    NodeMatrixParts(k.m, e, cols[n], n);
  }

  lemma NodeNamesDiffer(i: nat, v: nat)
    requires i < 81 && 1 <= v <= 9
    ensures forall j | 0 <= j < 4 :: NodeName(i, v, j) < 400 && Meets(i, v, NodeName(i, v, j))
    ensures forall j, k | 0 <= j < k < 4 :: NodeName(i, v, j) != NodeName(i, v, k)
  {
    forall j | 0 <= j < 4 ensures Meets(i, v, NodeName(i, v, j)) {
      assert j == 0 || NodeName(i, v, j) == UnitName(j - 1, UnitOf(j - 1, i), v);
    }
  }

  /** The four nodes of a placement, all of different columns, end in singles. */
  lemma FourEndInSingles(m: Matrix, k: Layout, cols: seq<int>, b0: seq<int>, i: nat, v: nat, es: seq<nat>)
    requires |b0| == 81 && ValidColumns(k, cols, b0) && 1 <= v <= 9 && NodesAdded(m, k.m, cols, i, v, es) && |es| == 4
    ensures EndsInSingles(k.m, es[0], es[1], es[2], es[3])
  {
    FourSingles(m, k.m, cols, i, v, es);
    AllAddedAs(m, k.m, cols, i, v, es);
    hide ValidMatrix, ValidLayout, NodeName, NodesAdded, AddedAs, ValidColumns, Distinct;
    NodeNamesDiffer(i, v);
    forall p, q | 0 <= p < q < 4
      ensures k.m.node[es[p]].col != k.m.node[es[q]].col
    {
      ColumnsDiffer(k, cols, b0, es[p], NodeName(i, v, p), es[q], NodeName(i, v, q));
    }
    DistinctFour(k.m.node[es[0]].col, k.m.node[es[1]].col, k.m.node[es[2]].col, k.m.node[es[3]].col);
  }

  lemma AllAddedAs(m: Matrix, k: Matrix, cols: seq<int>, i: nat, v: nat, es: seq<nat>)
    requires NodesAdded(m, k, cols, i, v, es) && |es| == 4
    ensures forall j | 0 <= j < 4 :: es[j] in k.node && AddedAs(k, cols, es[j], NodeName(i, v, j))
  {
    hide ValidMatrix, NodeName;
  }

  lemma FourSingles(m: Matrix, k: Matrix, cols: seq<int>, i: nat, v: nat, es: seq<nat>)
    requires NodesAdded(m, k, cols, i, v, es) && |es| == 4
    ensures |k.rows| >= 4 && k.rows[|k.rows| - 4..] == [[es[0]], [es[1]], [es[2]], [es[3]]]
  {
    hide ValidMatrix, NodeName, AddedAs;
    var r := |m.rows|;
    assert k.rows[r + 0] == [es[0]] && k.rows[r + 1] == [es[1]] && k.rows[r + 2] == [es[2]] && k.rows[r + 3] == [es[3]];
  }

  lemma ColumnsDiffer(k: Layout, cols: seq<int>, b0: seq<int>, e: nat, n: nat, f: nat, n': nat)
    requires |b0| == 81 && ValidColumns(k, cols, b0) && AddedAs(k.m, cols, e, n) && AddedAs(k.m, cols, f, n') && n != n'
    ensures k.m.node[e].col != k.m.node[f].col
  {
  }

  lemma DistinctFour(a: nat, b: nat, c: nat, d: nat)
    requires a != b && a != c && a != d && b != c && b != d && c != d
    ensures Distinct([a, b, c, d])
  {
  }

  /** Fusing them makes the row of the placement. */
  lemma RowMade(m: Matrix, k: Layout, cols: seq<int>, b0: seq<int>, i: nat, v: nat, es: seq<nat>, made: seq<Placement>)
    requires |b0| == 81 && ValidRows(m, b0, made) && NodesAdded(m, k.m, cols, i, v, es) && |es| == 4
    requires Candidate(b0, i, v) && Placement(i, v) !in made
    requires EndsInSingles(k.m, es[0], es[1], es[2], es[3])
    ensures ValidRows(FuseMatrix(k.m, es[0], es[1], es[2], es[3]), b0, made + [Placement(i, v)])
  {
    hide ValidMatrix, ValidLayout, Candidate, EndsInSingles, NamedAfter, AddedAs, FuseMatrix, NodesAdded, ValidRows;
    var f := FuseMatrix(k.m, es[0], es[1], es[2], es[3]);
    ValidRowsParts(m, b0, made);
    forall r | 0 <= r < |made| ensures r < |f.rows| && made[r].i < 81 && NamedAfter(f, r, made[r]) {
      OldRowMade(m, k, cols, b0, i, v, es, made, r);
    }
    NewRowMade(m, k, cols, i, v, es);
    ValidRowsIntro(f, b0, made, Placement(i, v));
  }

  lemma ValidRowsParts(m: Matrix, b0: seq<int>, made: seq<Placement>)
    requires |b0| == 81 && ValidRows(m, b0, made)
    ensures |made| == |m.rows|
    ensures forall r | 0 <= r < |made| :: Candidate(b0, made[r].i, made[r].v)
    ensures forall q, r | 0 <= q < r < |made| :: made[q] != made[r]
  {
  }

  lemma ValidRowsIntro(f: Matrix, b0: seq<int>, made: seq<Placement>, c: Placement)
    requires |b0| == 81 && |f.rows| == |made| + 1 && c !in made && Candidate(b0, c.i, c.v)
    requires forall r | 0 <= r < |made| :: Candidate(b0, made[r].i, made[r].v) && NamedAfter(f, r, made[r])
    requires NamedAfter(f, |made|, c) && forall q, r | 0 <= q < r < |made| :: made[q] != made[r]
    ensures ValidRows(f, b0, made + [c])
  {
    hide Candidate, NamedAfter;
    var all := made + [c];
    assert forall r | 0 <= r < |made| :: all[r] == made[r] && all[r] in made;
  }

  lemma OldRowMade(m: Matrix, k: Layout, cols: seq<int>, b0: seq<int>, i: nat, v: nat, es: seq<nat>,
      made: seq<Placement>, r: nat)
    requires |b0| == 81 && ValidRows(m, b0, made) && NodesAdded(m, k.m, cols, i, v, es) && |es| == 4 && r < |made|
    requires EndsInSingles(k.m, es[0], es[1], es[2], es[3])
    ensures var f := FuseMatrix(k.m, es[0], es[1], es[2], es[3]);
            r < |f.rows| && made[r].i < 81 && NamedAfter(f, r, made[r])
  {
    hide ValidMatrix, ValidLayout, EndsInSingles, AddedAs;
    assert Candidate(b0, made[r].i, made[r].v) && NamedAfter(m, r, made[r]);
    var f, row := FuseMatrix(k.m, es[0], es[1], es[2], es[3]), m.rows[r];
    assert k.m.rows[..|m.rows|][r] == row;
    assert f.rows[r] == row;
    forall j | 0 <= j < 4 ensures row[j] in f.node && f.node[row[j]].name == m.node[row[j]].name {
      assert row[j] in m.node && row[j] in k.m.node;
    }
  }

  lemma NewRowMade(m: Matrix, k: Layout, cols: seq<int>, i: nat, v: nat, es: seq<nat>)
    requires NodesAdded(m, k.m, cols, i, v, es) && |es| == 4 && EndsInSingles(k.m, es[0], es[1], es[2], es[3])
    ensures var f := FuseMatrix(k.m, es[0], es[1], es[2], es[3]);
            |f.rows| == |m.rows| + 1 && NamedAfter(f, |m.rows|, Placement(i, v))
  {
    hide ValidMatrix, ValidLayout, EndsInSingles;
    var f := FuseMatrix(k.m, es[0], es[1], es[2], es[3]);
    assert AddedAs(k.m, cols, es[0], NodeName(i, v, 0)) && AddedAs(k.m, cols, es[1], NodeName(i, v, 1))
        && AddedAs(k.m, cols, es[2], NodeName(i, v, 2)) && AddedAs(k.m, cols, es[3], NodeName(i, v, 3));
    assert f.rows[|m.rows|] == [es[0], es[1], es[2], es[3]];
    forall kind | 0 <= kind < 3
      ensures f.node[f.rows[|m.rows|][kind + 1]].name == UnitName(kind, UnitOf(kind, i), v)
    {
      assert kind == 0 || kind == 1 || kind == 2;
    }
  }

  lemma FusedColumnsValid(k: Layout, cols: seq<int>, b0: seq<int>, a: nat, b: nat, c: nat, d: nat)
    requires |b0| == 81 && ValidColumns(k, cols, b0) && EndsInSingles(k.m, a, b, c, d)
    ensures ValidColumns(Fuse(k, a, b, c, d), cols, b0)
    ensures forall e | Fresh(k, e) :: Fresh(Fuse(k, a, b, c, d), e)
  {
    hide ValidMatrix, ValidLayout, EndsInSingles, Open, HasName;
  }

  // ---------------------------------------------------------------- the order of construction

  /** The order in which the unit columns are appended: by unit, by value, rows before columns before
      boxes. */
  function UnitIndex(kind: nat, u: nat, v: nat): int {
    (u * 9 + v - 1) * 3 + kind
  }

  /** The unit columns before index `t` are there exactly if they are open; later ones are not there. */
  ghost predicate UnitsDone(cols: seq<int>, b0: seq<int>, t: int)
    requires |cols| == 400 && |b0| == 81
  {
    forall kind, u, v | 0 <= kind < 3 && 0 <= u < 9 && 1 <= v <= 9 :: UnitDone(cols, b0, t, kind, u, v)
  }

  ghost predicate UnitDone(cols: seq<int>, b0: seq<int>, t: int, kind: nat, u: nat, v: nat)
    requires |cols| == 400 && |b0| == 81 && kind < 3 && u < 9 && 1 <= v <= 9
  {
    cols[UnitName(kind, u, v)] != -1 <==> UnitIndex(kind, u, v) < t && Open(b0, UnitName(kind, u, v))
  }

  ghost predicate CellsDone(cols: seq<int>, b0: seq<int>, t: int)
    requires |cols| == 400 && |b0| == 81
  {
    forall n | 0 <= n < 81 :: cols[n] != -1 <==> n < t && b0[n] == 0
  }

  lemma NothingDone(cols: seq<int>, b0: seq<int>)
    requires |cols| == 400 && |b0| == 81 && forall n | 0 <= n < 400 :: cols[n] == -1
    ensures CellsDone(cols, b0, 0) && UnitsDone(cols, b0, 0)
  {
  }

  lemma CellStep(cols: seq<int>, b0: seq<int>, i: nat)
    requires |cols| == 400 && ValidBoard(b0) && i < 81 && CellsDone(cols, b0, i) && UnitsDone(cols, b0, 0)
    ensures cols[i] == -1 && (b0[i] == 0 <==> Open(b0, i))
    ensures b0[i] != 0 ==> CellsDone(cols, b0, i + 1)
  {
    CellConstraint(b0, i);
  }

  lemma CellAdded(cols: seq<int>, b0: seq<int>, i: nat, cols': seq<int>)
    requires |cols| == 400 && |b0| == 81 && i < 81 && CellsDone(cols, b0, i) && UnitsDone(cols, b0, 0) && b0[i] == 0
    requires |cols'| == 400 && cols' == cols[i := cols'[i]] && cols'[i] != -1
    ensures CellsDone(cols', b0, i + 1) && UnitsDone(cols', b0, 0)
  {
    forall kind, u, v | 0 <= kind < 3 && 0 <= u < 9 && 1 <= v <= 9
      ensures UnitDone(cols', b0, 0, kind, u, v)
    {
      assert UnitDone(cols, b0, 0, kind, u, v);
    }
  }

  lemma UnitStep(cols: seq<int>, b0: seq<int>, kind: nat, u: nat, v: nat, cols': seq<int>)
    requires |cols| == 400 && ValidBoard(b0) && kind < 3 && u < 9 && 1 <= v <= 9
    requires var n, t := UnitName(kind, u, v), UnitIndex(kind, u, v);
             && UnitsDone(cols, b0, t) && CellsDone(cols, b0, 81)
             && |cols'| == 400 && cols' == cols[n := cols'[n]] && (cols'[n] != -1 <==> Open(b0, n))
    ensures UnitsDone(cols', b0, UnitIndex(kind, u, v) + 1) && CellsDone(cols', b0, 81)
  {
    hide Open;
    var t, next := UnitIndex(kind, u, v), UnitIndex(kind, u, v) + 1;
    forall k, w, x | 0 <= k < 3 && 0 <= w < 9 && 1 <= x <= 9
      ensures UnitDone(cols', b0, next, k, w, x)
    {
      assert UnitDone(cols, b0, t, k, w, x);
      if UnitIndex(k, w, x) == t {
        UnitIndexInjective(kind, u, v, k, w, x);
      }
      if UnitName(k, w, x) == UnitName(kind, u, v) {
        UnitNameInjective(k, w, x, kind, u, v);
      }
    }
  }

  lemma UnitIndexInjective(kind: nat, u: nat, v: nat, kind': nat, u': nat, v': nat)
    requires kind < 3 && u < 9 && 1 <= v <= 9 && kind' < 3 && u' < 9 && 1 <= v' <= 9
    requires UnitIndex(kind, u, v) == UnitIndex(kind', u', v')
    ensures kind == kind' && u == u' && v == v'
  {
  }

  /** A unit constraint is open exactly if no given holds its value in its unit. */
  lemma OpenIsUnheld(b0: seq<int>, kind: nat, u: nat, v: nat)
    requires ValidBoard(b0) && kind < 3 && u < 9 && 1 <= v <= 9
    ensures UnitName(kind, u, v) < 400
    ensures Open(b0, UnitName(kind, u, v)) <==> !Holds(b0, kind, u, v)
  {
    var n := UnitName(kind, u, v);
    UnitConstraint(kind, u, v, 0, 0);
    forall i | 0 <= i < 81 && b0[i] != 0
      ensures Meets(i, b0[i], n) <==> UnitOf(kind, i) == u && b0[i] == v
    {
      UnitConstraint(kind, u, v, i, b0[i]);
    }
  }

  /** A value is a candidate for an empty cell exactly if none of its three units holds it. */
  lemma CandidateIsUnheld(b0: seq<int>, i: nat, v: nat)
    requires ValidBoard(b0) && i < 81 && 1 <= v <= 9
    ensures Candidate(b0, i, v) <==>
            b0[i] == 0 && !Holds(b0, 0, RowOf(i), v) && !Holds(b0, 1, ColOf(i), v) && !Holds(b0, 2, BoxOf(i), v)
  {
    CellConstraint(b0, i);
    OpenIsUnheld(b0, 0, UnitOf(0, i), v);
    OpenIsUnheld(b0, 1, UnitOf(1, i), v);
    OpenIsUnheld(b0, 2, UnitOf(2, i), v);
    hide Open, Holds;
    NodeNamesDiffer(i, v);
    assert NodeName(i, v, 0) == i && NodeName(i, v, 1) == UnitName(0, RowOf(i), v);
    assert NodeName(i, v, 2) == UnitName(1, ColOf(i), v) && NodeName(i, v, 3) == UnitName(2, BoxOf(i), v);
    forall n | Meets(i, v, n)
      ensures n == i || exists kind | 0 <= kind < 3 :: n == UnitName(kind, UnitOf(kind, i), v)
    {
    }
  }

  lemma AllColumnsDone(cols: seq<int>, b0: seq<int>)
    requires |cols| == 400 && ValidBoard(b0) && UnitsDone(cols, b0, 243) && CellsDone(cols, b0, 81)
    ensures forall n: nat | Open(b0, n) :: n < 400 && cols[n] != -1
  {
    forall n: nat | Open(b0, n)
      ensures n < 400 && cols[n] != -1
    {
      if n < 81 {
        CellConstraint(b0, n);
      } else {
        var kind: nat, u: nat, v: nat :| kind < 3 && u < 9 && 1 <= v <= 9 && n == UnitName(kind, u, v);
        assert UnitDone(cols, b0, 243, kind, u, v);
      }
    }
  }

  function PlaceIndex(i: nat, v: nat): int {
    i * 9 + v - 1
  }

  /** `made` are the candidates before index `t`. */
  ghost predicate MadeUpTo(made: seq<Placement>, b0: seq<int>, t: int)
    requires |b0| == 81
  {
    && (forall c | c in made :: PlaceIndex(c.i, c.v) < t)
    && (forall i: nat, v: nat | Candidate(b0, i, v) && PlaceIndex(i, v) < t :: Placement(i, v) in made)
  }

  lemma MadeStep(made: seq<Placement>, b0: seq<int>, i: nat, v: nat)
    requires |b0| == 81 && i < 81 && 1 <= v <= 9 && MadeUpTo(made, b0, PlaceIndex(i, v))
    ensures Placement(i, v) !in made
    ensures Candidate(b0, i, v) ==> MadeUpTo(made + [Placement(i, v)], b0, PlaceIndex(i, v) + 1)
    ensures !Candidate(b0, i, v) ==> MadeUpTo(made, b0, PlaceIndex(i, v) + 1)
  {
    forall j: nat, w: nat | Candidate(b0, j, w) && PlaceIndex(j, w) < PlaceIndex(i, v) + 1
      ensures Placement(j, w) in made || (j == i && w == v)
    {
      assert PlaceIndex(j, w) < PlaceIndex(i, v) || (j == i && w == v);
    }
  }

  lemma MadeSkips(made: seq<Placement>, b0: seq<int>, i: nat)
    requires |b0| == 81 && i < 81 && b0[i] != 0 && MadeUpTo(made, b0, PlaceIndex(i, 1)) && ValidBoard(b0)
    ensures MadeUpTo(made, b0, PlaceIndex(i + 1, 1))
  {
    forall j: nat, w: nat | Candidate(b0, j, w) && PlaceIndex(j, w) < PlaceIndex(i + 1, 1)
      ensures PlaceIndex(j, w) < PlaceIndex(i, 1)
    {
      if j == i {
        CandidateIsUnheld(b0, i, w);
      }
    }
  }
}
