/** The rules of sudoku, independent of any solver, and the exact-cover form of a board. */
module SudokuRules {

  /** The row, the column and the box of a cell. */
  function RowOf(i: nat): nat { i / 9 }

  function ColOf(i: nat): nat { i % 9 }

  function BoxOf(i: nat): nat { RowOf(i) / 3 * 3 + ColOf(i) / 3 }

  /** Unit `u` of kind 0 (rows), 1 (columns) or 2 (boxes) of a cell. */
  function UnitOf(kind: nat, i: nat): (u: nat)
    requires kind < 3 && i < 81
    ensures u < 9
  {
    if kind == 0 then RowOf(i) else if kind == 1 then ColOf(i) else BoxOf(i)
  }

  predicate ValidBoard(b: seq<int>) {
    |b| == 81 && forall i | 0 <= i < 81 :: 0 <= b[i] <= 9
  }

  /** `b` is `b0` with all empty cells filled in by the rules of the game. */
  ghost predicate IsCompletion(b0: seq<int>, b: seq<int>) {
    && |b0| == |b| == 81
    && (forall i | 0 <= i < 81 :: 1 <= b[i] <= 9 && (b0[i] != 0 ==> b[i] == b0[i]))
    && (forall kind, u | 0 <= kind < 3 && 0 <= u < 9 :: UnitDistinct(b, kind, u))
  }

  /** No two cells of the unit hold the same value. */
  ghost predicate UnitDistinct(b: seq<int>, kind: nat, u: nat)
    requires |b| == 81 && kind < 3 && u < 9
  {
    forall i, j | 0 <= i < j < 81 && UnitOf(kind, i) == u && UnitOf(kind, j) == u :: b[i] != b[j]
  }

  // ---------------------------------------------------------------- constraints

  /** The name of the constraint that unit `u` of a kind holds value `v`; a cell constraint is named
      by the cell itself. */
  function UnitName(kind: nat, u: nat, v: nat): nat {
    100 * (kind + 1) + u * 10 + v
  }

  /** The four constraints that putting `v` in cell `i` meets. */
  ghost predicate Meets(i: nat, v: int, n: nat) {
    i < 81 && (n == i || exists kind | 0 <= kind < 3 :: n == UnitName(kind, UnitOf(kind, i), if v >= 0 then v else 0))
  }

  ghost predicate IsName(n: nat) {
    n < 81 || exists kind, u, v | 0 <= kind < 3 && 0 <= u < 9 && 1 <= v <= 9 :: n == UnitName(kind, u, v)
  }

  /** Constraint `n` is not met by any given of the board. */
  ghost predicate Open(b0: seq<int>, n: nat)
    requires |b0| == 81
  {
    IsName(n) && forall j | 0 <= j < 81 && b0[j] != 0 :: !Meets(j, b0[j], n)
  }

  /** Cell `i` is empty and `v` clashes with no given. */
  ghost predicate Candidate(b0: seq<int>, i: nat, v: nat)
    requires |b0| == 81
  {
    i < 81 && 1 <= v <= 9 && forall n | Meets(i, v, n) :: Open(b0, n)
  }

  lemma UnitNameInjective(kind: nat, u: nat, v: nat, kind': nat, u': nat, v': nat)
    requires kind < 3 && u < 9 && v <= 9 && kind' < 3 && u' < 9 && v' <= 9
    requires UnitName(kind, u, v) == UnitName(kind', u', v')
    ensures kind == kind' && u == u' && v == v'
  {
  }

  /** Meeting a common constraint means being the same cell or putting one value twice in a unit. */
  lemma CommonConstraint(i: nat, v: nat, j: nat, w: nat, n: nat)
    requires v <= 9 && w <= 9 && Meets(i, v, n) && Meets(j, w, n)
    ensures i == j || (v == w && exists kind | 0 <= kind < 3 :: UnitOf(kind, i) == UnitOf(kind, j))
  {
    if n >= 81 {
      var kind :| 0 <= kind < 3 && n == UnitName(kind, UnitOf(kind, i), v);
      var kind' :| 0 <= kind' < 3 && n == UnitName(kind', UnitOf(kind', j), w);
      UnitNameInjective(kind, UnitOf(kind, i), v, kind', UnitOf(kind', j), w);
    }
  }

  // ---------------------------------------------------------------- pigeonholes

  ghost function Range(n: nat): (s: set<int>)
    ensures |s| == n && forall v :: v in s <==> 1 <= v <= n
  {
    if n == 0 then {} else Range(n - 1) + {n}
  }

  ghost function Values(s: seq<int>): set<int> {
    set v | v in s
  }

  ghost predicate NoRepeat(s: seq<int>) {
    forall i, j | 0 <= i < j < |s| :: s[i] != s[j]
  }

  lemma {:induction false} ValuesSize(s: seq<int>)
    ensures |Values(s)| <= |s|
    ensures |Values(s)| == |s| <==> NoRepeat(s)
  {
    if s != [] {
      var t, v := s[..|s| - 1], s[|s| - 1];
      assert s == t + [v];
      ValuesSize(t);
      assert Values(s) == Values(t) + {v};
      if v !in t {
        assert NoRepeat(t) ==> NoRepeat(s);
      } else {
        var i :| 0 <= i < |t| && t[i] == v;
        assert s[i] == s[|s| - 1];
      }
      assert NoRepeat(s) ==> NoRepeat(t);
    }
  }

  ghost predicate HoldsAll(s: seq<int>) {
    forall v | 1 <= v <= |s| :: v in s
  }

  /** `n` cells hold `n` different values exactly if every value is held. */
  lemma Pigeonhole(s: seq<int>)
    requires forall i | 0 <= i < |s| :: 1 <= s[i] <= |s|
    ensures NoRepeat(s) <==> HoldsAll(s)
  {
    ValuesSize(s);
    assert Values(s) <= Range(|s|);
    if HoldsAll(s) {
      assert Values(s) == Range(|s|);
    }
    if NoRepeat(s) {
      SubsetOfSameSize(Values(s), Range(|s|));
      forall v | 1 <= v <= |s| ensures v in s {
        assert v in Values(s);
      }
    }
  }

  lemma SubsetOfSameSize(a: set<int>, b: set<int>)
    requires a <= b && |a| == |b|
    ensures a == b
  {
    assert |b - a| == |b| - |a|;
  }

  // ---------------------------------------------------------------- the cells of a unit

  lemma SplitBy(q: nat, r: nat, d: nat)
    requires d == 3 || d == 9
    requires r < d
    ensures (q * d + r) / d == q && (q * d + r) % d == r
  {
  }

  /** The `k`-th cell of a unit. */
  function UnitCell(kind: nat, u: nat, k: nat): (i: nat)
    requires kind < 3 && u < 9 && k < 9
    ensures i < 81 && UnitOf(kind, i) == u
  {
    if kind == 0 then u * 9 + k
    else if kind == 1 then k * 9 + u
    else
      BoxCell(u / 3, u % 3, k / 3, k % 3);
      (u / 3 * 3 + k / 3) * 9 + (u % 3 * 3 + k % 3)
  }

  lemma BoxCell(a: nat, b: nat, c: nat, d: nat)
    requires a < 3 && b < 3 && c < 3 && d < 3
    ensures var i := (a * 3 + c) * 9 + (b * 3 + d);
            i < 81 && RowOf(i) == a * 3 + c && ColOf(i) == b * 3 + d && BoxOf(i) == a * 3 + b
  {
    SplitBy(a * 3 + c, b * 3 + d, 9);
    SplitBy(a, c, 3);
    SplitBy(b, d, 3);
  }

  /** The place of a cell in its unit. */
  function PlaceIn(kind: nat, i: nat): (k: nat)
    requires kind < 3 && i < 81
    ensures k < 9 && UnitCell(kind, UnitOf(kind, i), k) == i
  {
    if kind == 0 then i % 9
    else if kind == 1 then i / 9
    else
      var r, c := RowOf(i), ColOf(i);
      SplitBy(r / 3, c / 3, 3);
      SplitBy(r % 3, c % 3, 3);
      r % 3 * 3 + c % 3
  }

  /** What the cells of a unit hold. */
  ghost function UnitValues(b: seq<int>, kind: nat, u: nat): (s: seq<int>)
    requires |b| == 81 && kind < 3 && u < 9
    ensures |s| == 9
  {
    seq(9, k requires 0 <= k < 9 => b[UnitCell(kind, u, k)])
  }

  ghost predicate Holds(b: seq<int>, kind: nat, u: nat, v: int)
    requires |b| == 81 && kind < 3 && u < 9
  {
    exists i | 0 <= i < 81 :: UnitOf(kind, i) == u && b[i] == v
  }

  /** A unit repeats no value exactly if it holds every value. */
  lemma UnitComplete(b: seq<int>, kind: nat, u: nat)
    requires |b| == 81 && kind < 3 && u < 9 && forall i | 0 <= i < 81 :: 1 <= b[i] <= 9
    ensures (forall v | 1 <= v <= 9 :: Holds(b, kind, u, v)) <==> UnitDistinct(b, kind, u)
  {
    var s := UnitValues(b, kind, u);
    Pigeonhole(s);
    forall v
      ensures v in s <==> Holds(b, kind, u, v)
    {
      if Holds(b, kind, u, v) {
        var i :| 0 <= i < 81 && UnitOf(kind, i) == u && b[i] == v;
        assert s[PlaceIn(kind, i)] == v;
      }
    }
    assert HoldsAll(s) <==> forall v | 1 <= v <= 9 :: Holds(b, kind, u, v);
    if NoRepeat(s) {
      forall i, j | 0 <= i < j < 81 && UnitOf(kind, i) == u && UnitOf(kind, j) == u
        ensures b[i] != b[j]
      {
        assert s[PlaceIn(kind, i)] == b[i] && s[PlaceIn(kind, j)] == b[j];
        assert PlaceIn(kind, i) != PlaceIn(kind, j);
      }
    }
    if UnitDistinct(b, kind, u) {
      forall k, k' | 0 <= k < k' < 9
        ensures s[k] != s[k']
      {
        UnitCellInjective(kind, u, k, k');
      }
    }
  }

  lemma UnitCellInjective(kind: nat, u: nat, k: nat, k': nat)
    requires kind < 3 && u < 9 && k < 9 && k' < 9 && k != k'
    ensures UnitCell(kind, u, k) != UnitCell(kind, u, k')
  {
    if kind == 2 {
      BoxCell(u / 3, u % 3, k / 3, k % 3);
      BoxCell(u / 3, u % 3, k' / 3, k' % 3);
    }
  }

  // ---------------------------------------------------------------- completions are exact covers

  /** Putting value `v` in cell `i`. */
  datatype Placement = Placement(i: nat, v: nat)

  /** The placements of `p` meet every open constraint exactly once, and nothing else. */
  ghost predicate IsConstraintCover(b0: seq<int>, p: set<Placement>)
    requires |b0| == 81
  {
    && (forall c | c in p :: Candidate(b0, c.i, c.v))
    && (forall n | Open(b0, n) :: exists c | c in p :: Meets(c.i, c.v, n))
    && (forall c, d | c in p && d in p && c != d :: Compatible(c, d))
  }

  /** The two placements meet no common constraint. */
  ghost predicate Compatible(c: Placement, d: Placement) {
    forall n | Meets(c.i, c.v, n) :: !Meets(d.i, d.v, n)
  }

  /** `b` is `b0` with the placements of `p` made. */
  ghost predicate Filled(b: seq<int>, b0: seq<int>, p: set<Placement>) {
    && |b| == |b0| == 81
    && (forall c | c in p :: c.i < 81 && b[c.i] == c.v)
    && (forall i | 0 <= i < 81 :: (exists c | c in p :: c.i == i) || b[i] == b0[i])
  }

  lemma CellConstraint(b0: seq<int>, i: nat)
    requires ValidBoard(b0) && i < 81
    ensures Open(b0, i) <==> b0[i] == 0
    ensures forall j, v | Meets(j, v, i) :: j == i
  {
    if b0[i] != 0 {
      assert Meets(i, b0[i], i);
    }
  }

  lemma UnitConstraint(kind: nat, u: nat, v: nat, i: nat, w: int)
    requires kind < 3 && u < 9 && 1 <= v <= 9 && 0 <= w <= 9 && i < 81
    ensures IsName(UnitName(kind, u, v))
    ensures Meets(i, w, UnitName(kind, u, v)) <==> UnitOf(kind, i) == u && w == v
  {
    if Meets(i, w, UnitName(kind, u, v)) {
      var kind' :| 0 <= kind' < 3 && UnitName(kind, u, v) == UnitName(kind', UnitOf(kind', i), w);
      UnitNameInjective(kind, u, v, kind', UnitOf(kind', i), w);
    }
  }

  /** Filling in an exact cover of the open constraints completes the board, whatever the givens. */
  lemma CoverCompletes(b0: seq<int>, p: set<Placement>, b: seq<int>)
    requires ValidBoard(b0) && IsConstraintCover(b0, p) && Filled(b, b0, p)
    ensures IsCompletion(b0, b)
  {
    forall i | 0 <= i < 81
      ensures 1 <= b[i] <= 9 && (b0[i] != 0 ==> b[i] == b0[i])
    {
      FilledCell(b0, p, b, i);
    }
    forall kind, u | 0 <= kind < 3 && 0 <= u < 9
      ensures UnitDistinct(b, kind, u)
    {
      forall v | 1 <= v <= 9
        ensures Holds(b, kind, u, v)
      {
        FilledUnit(b0, p, b, kind, u, v);
      }
      UnitComplete(b, kind, u);
    }
  }

  lemma FilledCell(b0: seq<int>, p: set<Placement>, b: seq<int>, i: nat)
    requires ValidBoard(b0) && IsConstraintCover(b0, p) && Filled(b, b0, p) && i < 81
    ensures 1 <= b[i] <= 9 && (b0[i] != 0 ==> b[i] == b0[i])
  {
    CellConstraint(b0, i);
    if b0[i] == 0 {
      var c :| c in p && Meets(c.i, c.v, i);
      assert Candidate(b0, c.i, c.v);
    } else {
      forall c | c in p
        ensures c.i != i
      {
        assert Candidate(b0, c.i, c.v) && Meets(c.i, c.v, c.i);
      }
    }
  }

  lemma FilledUnit(b0: seq<int>, p: set<Placement>, b: seq<int>, kind: nat, u: nat, v: nat)
    requires ValidBoard(b0) && IsConstraintCover(b0, p) && Filled(b, b0, p)
    requires kind < 3 && u < 9 && 1 <= v <= 9
    ensures Holds(b, kind, u, v)
  {
    var n := UnitName(kind, u, v);
    UnitConstraint(kind, u, v, 0, 0);
    if Open(b0, n) {
      var c :| c in p && Meets(c.i, c.v, n);
      assert Candidate(b0, c.i, c.v);
      UnitConstraint(kind, u, v, c.i, c.v);
    } else {
      var j :| 0 <= j < 81 && b0[j] != 0 && Meets(j, b0[j], n);
      UnitConstraint(kind, u, v, j, b0[j]);
      FilledCell(b0, p, b, j);
    }
  }

  /** The placements a completion adds to the givens. */
  ghost function Added(b0: seq<int>, b: seq<int>): set<Placement>
    requires |b0| == |b| == 81 && forall i | 0 <= i < 81 :: b[i] >= 0
  {
    set i | 0 <= i < 81 && b0[i] == 0 :: Placement(i, b[i])
  }

  /** A completion exactly covers the open constraints. */
  lemma CompletionCovers(b0: seq<int>, b: seq<int>)
    requires ValidBoard(b0) && IsCompletion(b0, b)
    ensures IsConstraintCover(b0, Added(b0, b))
  {
    var p := Added(b0, b);
    forall c | c in p
      ensures Candidate(b0, c.i, c.v)
    {
      forall n | Meets(c.i, c.v, n)
        ensures Open(b0, n)
      {
        AddedIsOpen(b0, b, c.i, n);
      }
    }
    forall n | Open(b0, n)
      ensures exists c | c in p :: Meets(c.i, c.v, n)
    {
      var i := OpenIsMet(b0, b, n);
      assert Placement(i, b[i]) in p;
    }
    forall c, d | c in p && d in p && c != d
      ensures Compatible(c, d)
    {
      forall n | Meets(c.i, c.v, n)
        ensures !Meets(d.i, d.v, n)
      {
        if Meets(d.i, d.v, n) {
          NoCommonConstraint(b0, b, c.i, d.i, n);
        }
      }
    }
  }

  lemma NoCommonConstraint(b0: seq<int>, b: seq<int>, i: nat, j: nat, n: nat)
    requires IsCompletion(b0, b) && i < 81 && j < 81 && Meets(i, b[i], n) && Meets(j, b[j], n)
    ensures i == j
  {
    CommonConstraint(i, b[i], j, b[j], n);
    assert forall kind | 0 <= kind < 3 :: UnitDistinct(b, kind, UnitOf(kind, i));
  }

  lemma AddedIsOpen(b0: seq<int>, b: seq<int>, i: nat, n: nat)
    requires ValidBoard(b0) && IsCompletion(b0, b) && i < 81 && b0[i] == 0 && Meets(i, b[i], n)
    ensures Open(b0, n)
  {
    forall j | 0 <= j < 81 && b0[j] != 0
      ensures !Meets(j, b0[j], n)
    {
      if Meets(j, b0[j], n) {
        NoCommonConstraint(b0, b, i, j, n);
      }
    }
    if n >= 81 {
      var kind :| 0 <= kind < 3 && n == UnitName(kind, UnitOf(kind, i), b[i]);
      UnitConstraint(kind, UnitOf(kind, i), b[i], i, b[i]);
    }
  }

  lemma OpenIsMet(b0: seq<int>, b: seq<int>, n: nat) returns (i: nat)
    requires ValidBoard(b0) && IsCompletion(b0, b) && Open(b0, n)
    ensures i < 81 && b0[i] == 0 && Meets(i, b[i], n)
  {
    if n < 81 {
      i := n;
      CellConstraint(b0, i);
    } else {
      var kind, u, v :| 0 <= kind < 3 && 0 <= u < 9 && 1 <= v <= 9 && n == UnitName(kind, u, v);
      UnitComplete(b, kind, u);
      assert Holds(b, kind, u, v);
      i :| 0 <= i < 81 && UnitOf(kind, i) == u && b[i] == v;
      UnitConstraint(kind, u, v, i, b[i]);
      var w := b0[i];
      assert w != 0 ==> Meets(i, w, n);
    }
  }
}
