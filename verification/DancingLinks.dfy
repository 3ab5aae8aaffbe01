/** The node pool of the dancing-links solver as a value, the four link surgeries the solver
    performs on it, and the rings those links form.  The class in SudokuSolver.dfy applies
    the same surgeries in place to its array of nodes. */
module DancingLinks {

  /** One `struct Node`.  The pointers are indices into the node pool. */
  datatype Node = Node(left: nat, right: nat, up: nat, down: nat, col: nat, name: nat, size: int)

  /** A pool of nodes whose pointers all lead back into the pool. */
  type Pool = x: seq<Node> | Closed(x)

  predicate Closed(x: seq<Node>) {
    forall i {:trigger x[i]} | 0 <= i < |x| ::
      x[i].left < |x| && x[i].right < |x| && x[i].up < |x| && x[i].down < |x| && x[i].col < |x|
  }

  // ---------------------------------------------------------------- surgeries

  /** Takes node `j` out of its column. */
  function Unlink(x: Pool, j: nat): (y: Pool)
    requires j < |x|
    ensures |y| == |x|
  {
    var y := x[x[j].down := x[x[j].down].(up := x[j].up)];
    var z := y[y[j].up := y[y[j].up].(down := y[j].down)];
    z[z[j].col := z[z[j].col].(size := z[z[j].col].size - 1)]
  }

  /** Puts node `j` back where its own links say it used to be. */
  function Relink(x: Pool, j: nat): (y: Pool)
    requires j < |x|
    ensures |y| == |x|
  {
    var y := x[x[j].col := x[x[j].col].(size := x[x[j].col].size + 1)];
    var z := y[y[j].down := y[y[j].down].(up := j)];
    z[z[j].up := z[z[j].up].(down := j)]
  }

  /** Takes column header `c` out of the header row. */
  function UnlinkHeader(x: Pool, c: nat): (y: Pool)
    requires c < |x|
    ensures |y| == |x|
  {
    var y := x[x[c].right := x[x[c].right].(left := x[c].left)];
    y[y[c].left := y[y[c].left].(right := y[c].right)]
  }

  /** Puts column header `c` back. */
  function RelinkHeader(x: Pool, c: nat): (y: Pool)
    requires c < |x|
    ensures |y| == |x|
  {
    var y := x[x[c].right := x[x[c].right].(left := c)];
    y[y[c].left := y[y[c].left].(right := c)]
  }

  /** Unlinks the nodes of `js`, first one first. */
  function UnlinkAll(x: Pool, js: seq<nat>): (y: Pool)
    ensures |y| == |x|
  {
    if js == [] then x else
      var y := UnlinkAll(x, js[..|js| - 1]);
      if js[|js| - 1] < |y| then Unlink(y, js[|js| - 1]) else y
  }

  /** What `Unlink` changes, field by field. */
  lemma UnlinkEffect(x: Pool, j: nat, i: nat)
    requires j < |x| && i < |x|
    ensures Unlink(x, j)[i] == x[i].(down := if i == x[j].up then x[j].down else x[i].down,
                                     up := if i == x[j].down then x[j].up else x[i].up,
                                     size := if i == x[j].col then x[i].size - 1 else x[i].size)
  {
  }

  lemma UnlinkHeaderEffect(x: Pool, c: nat, i: nat)
    requires c < |x| && i < |x|
    ensures UnlinkHeader(x, c)[i] == x[i].(right := if i == x[c].left then x[c].right else x[i].right,
                                           left := if i == x[c].right then x[c].left else x[i].left)
  {
  }

  lemma RelinkUndoesUnlink(x: Pool, j: nat)
    requires j < |x|
    requires x[x[j].down].up == j && x[x[j].up].down == j
    ensures Relink(Unlink(x, j), j) == x
  {
  }

  lemma RelinkHeaderUndoesUnlinkHeader(x: Pool, c: nat)
    requires c < |x|
    requires x[x[c].right].left == c && x[x[c].left].right == c
    ensures RelinkHeader(UnlinkHeader(x, c), c) == x
  {
  }

  // ---------------------------------------------------------------- rings

  function Succ(i: nat, n: nat): nat {
    if i + 1 >= n then 0 else i + 1
  }

  predicate Distinct(s: seq<nat>) {
    forall i, j {:trigger s[i], s[j]} | 0 <= i < j < |s| :: s[i] != s[j]
  }

  predicate InPool(x: Pool, s: seq<nat>) {
    forall i | 0 <= i < |s| :: s[i] < |x|
  }

  /** `right` leads from the `i`-th node of `s` to the next one around, and `left` back. */
  ghost predicate RightLink(x: Pool, s: seq<nat>, i: nat)
    requires InPool(x, s) && i < |s|
  {
    var n := s[Succ(i, |s|)];
    x[s[i]].right == n && x[n].left == s[i]
  }

  /** `down` leads from the `i`-th node of `s` to the next one around, and `up` back. */
  ghost predicate DownLink(x: Pool, s: seq<nat>, i: nat)
    requires InPool(x, s) && i < |s|
  {
    var n := s[Succ(i, |s|)];
    x[s[i]].down == n && x[n].up == s[i]
  }

  /** The nodes of `s` form a circle through `left` and `right`. */
  ghost predicate RowRing(x: Pool, s: seq<nat>) {
    |s| > 0 && InPool(x, s) && Distinct(s) && forall i | 0 <= i < |s| :: RightLink(x, s, i)
  }

  /** The nodes of `s` form a circle through `up` and `down`. */
  ghost predicate ColumnRing(x: Pool, s: seq<nat>) {
    |s| > 0 && InPool(x, s) && Distinct(s) && forall i | 0 <= i < |s| :: DownLink(x, s, i)
  }

  /** `s` without its element at `k`. */
  function DropAt<T>(s: seq<T>, k: nat): seq<T>
    requires k < |s|
  {
    s[..k] + s[k + 1..]
  }

  lemma ColumnRingAt(x: Pool, s: seq<nat>, k: nat)
    requires ColumnRing(x, s) && k < |s|
    ensures s[k] < |x| && x[s[k]].down == s[Succ(k, |s|)]
    ensures x[s[k]].up == s[if k == 0 then |s| - 1 else k - 1]
    ensures x[x[s[k]].down].up == s[k] && x[x[s[k]].up].down == s[k]
  {
    var p := if k == 0 then |s| - 1 else k - 1;
    assert Succ(p, |s|) == k;
    assert DownLink(x, s, k) && DownLink(x, s, p);
  }

  /** Unlinking a node of a ring, other than the header at position 0, leaves a ring. */
  lemma UnlinkShrinksRing(x: Pool, s: seq<nat>, k: nat)
    requires ColumnRing(x, s) && 0 < k < |s|
    ensures ColumnRing(Unlink(x, s[k]), DropAt(s, k))
  {
    forall i | 0 <= i < |s| - 1
      ensures DownLink(Unlink(x, s[k]), DropAt(s, k), i)
    {
      UnlinkShrinksRingAt(x, s, k, i);
    }
  }

  lemma UnlinkShrinksRingAt(x: Pool, s: seq<nat>, k: nat, i: nat)
    requires ColumnRing(x, s) && 0 < k < |s| && i < |s| - 1
    ensures DownLink(Unlink(x, s[k]), DropAt(s, k), i)
  {
    var a := if i < k then i else i + 1;
    ColumnRingAt(x, s, k);
    assert DownLink(x, s, k) && DownLink(x, s, a);
    var b := Succ(i, |s| - 1);
    assert DropAt(s, k)[i] == s[a] && DropAt(s, k)[b] == s[if b < k then b else b + 1];
    UnlinkEffect(x, s[k], DropAt(s, k)[i]);
    UnlinkEffect(x, s[k], DropAt(s, k)[b]);
  }

  /** A ring survives any change that keeps its own `up` and `down` fields. */
  lemma ColumnRingFrame(x: Pool, y: Pool, s: seq<nat>)
    requires ColumnRing(x, s) && |y| >= |x|
    requires forall i | 0 <= i < |s| :: y[s[i]].up == x[s[i]].up && y[s[i]].down == x[s[i]].down
    ensures ColumnRing(y, s)
  {
    forall i | 0 <= i < |s|
      ensures DownLink(y, s, i)
    {
      assert DownLink(x, s, i);
    }
  }

  lemma RowRingAt(x: Pool, s: seq<nat>, k: nat)
    requires RowRing(x, s) && k < |s|
    ensures s[k] < |x| && x[s[k]].right == s[Succ(k, |s|)]
    ensures x[s[k]].left == s[if k == 0 then |s| - 1 else k - 1]
    ensures x[x[s[k]].right].left == s[k] && x[x[s[k]].left].right == s[k]
  {
    var p := if k == 0 then |s| - 1 else k - 1;
    assert Succ(p, |s|) == k;
    assert RightLink(x, s, k) && RightLink(x, s, p);
  }

  /** The same for the header row. */
  lemma UnlinkHeaderShrinksRing(x: Pool, s: seq<nat>, k: nat)
    requires RowRing(x, s) && 0 < k < |s|
    ensures RowRing(UnlinkHeader(x, s[k]), DropAt(s, k))
  {
    forall i | 0 <= i < |s| - 1
      ensures RightLink(UnlinkHeader(x, s[k]), DropAt(s, k), i)
    {
      UnlinkHeaderShrinksRingAt(x, s, k, i);
    }
  }

  lemma UnlinkHeaderShrinksRingAt(x: Pool, s: seq<nat>, k: nat, i: nat)
    requires RowRing(x, s) && 0 < k < |s| && i < |s| - 1
    ensures RightLink(UnlinkHeader(x, s[k]), DropAt(s, k), i)
  {
    var a := if i < k then i else i + 1;
    RowRingAt(x, s, k);
    assert RightLink(x, s, k) && RightLink(x, s, a);
    var b := Succ(i, |s| - 1);
    assert DropAt(s, k)[i] == s[a] && DropAt(s, k)[b] == s[if b < k then b else b + 1];
    UnlinkHeaderEffect(x, s[k], DropAt(s, k)[i]);
    UnlinkHeaderEffect(x, s[k], DropAt(s, k)[b]);
  }

  /** A ring survives any change that keeps its own `left` and `right` fields. */
  lemma RowRingFrame(x: Pool, y: Pool, s: seq<nat>)
    requires RowRing(x, s) && |y| >= |x|
    requires forall i | 0 <= i < |s| :: y[s[i]].left == x[s[i]].left && y[s[i]].right == x[s[i]].right
    ensures RowRing(y, s)
  {
    forall i | 0 <= i < |s|
      ensures RightLink(y, s, i)
    {
      assert RightLink(x, s, i);
    }
  }
}
