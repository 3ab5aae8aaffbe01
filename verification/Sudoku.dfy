/** The entry point: a puzzle and its solution as strings of digits. */
module Sudoku {
  import opened DancingLinks
  import opened ExactCover
  import opened SudokuRules
  import opened SudokuMatrix
  import opened SudokuSolving

  const NO_SOLUTION := "NoSolution"

  /** The cells of a puzzle, as `puzzle[i] - '0'`. */
  function Digits(puzzle: string): (b: seq<int>)
    ensures |b| == |puzzle|
  {
    seq(|puzzle|, i requires 0 <= i < |puzzle| => puzzle[i] as int - '0' as int)
  }

  /** The answer is a completion of the puzzle exactly if there is one; a puzzle with a character
      that is no digit has none. */
  method SolveSudoku(puzzle: string) returns (result: string)
    requires |puzzle| == 81
    ensures result != NO_SOLUTION <==> ValidBoard(Digits(puzzle)) && exists b :: IsCompletion(Digits(puzzle), b)
    ensures result != NO_SOLUTION ==> IsCompletion(Digits(puzzle), Digits(result))
  {
    result := NO_SOLUTION;
    var board := new int[81](_ => 0);
    var valid := true;
    for i := 0 to 81
      invariant board[..i] == Digits(puzzle)[..i]
      invariant valid <==> forall j | 0 <= j < i :: 0 <= Digits(puzzle)[j] <= 9
    {
      board[i] := puzzle[i] as int - '0' as int;
      assert board[i] == Digits(puzzle)[i];
      valid := valid && 0 <= board[i] <= 9;
    }
    assert board[..] == board[..81] == Digits(puzzle)[..81] == Digits(puzzle);
    if valid {
      ghost var b0 := board[..];
      var s := new SudokuSolver(board);
      var ok := SolveBoard(s, b0);
      if ok {
        CompletionIsValid(b0, board[..]);
        result := Printed(board);
      }
    }
  }

  /** `s.solve()` on a freshly built solver. */
  method SolveBoard(s: SudokuSolver, ghost b0: seq<int>) returns (ok: bool)
    requires s.inout[..] == b0 && s.stack == [] && s.Ready(b0)
    modifies s`stack, s.nodes, s.inout
    ensures ok <==> exists b :: IsCompletion(b0, b)
    ensures ok ==> IsCompletion(b0, s.inout[..])
  {
    hide *;
    ghost var p, l, cols, made := {}, s.layout, s.columns[..], s.made;
    ReadyToSolve(s, b0);
    ok, p := s.Solve(l);
    if ok {
      NothingOnStack(l.m, p);
      WrittenIsCompletion(l, cols, b0, made, p, s.inout[..]);
    } else {
      NoCoverNoCompletion(l, cols, b0, made);
    }
  }

  /** A completed board as a string of digits. */
  method Printed(board: array<int>) returns (result: string)
    requires ValidBoard(board[..])
    ensures |result| == 81 && Digits(result) == board[..]
  {
    result := "";
    for i := 0 to 81
      invariant |result| == i && Digits(result) == board[..i]
    {
      result := result + [(board[i] + '0' as int) as char];
    }
  }

  lemma ReadyToSolve(s: SudokuSolver, b0: seq<int>)
    requires s.inout[..] == b0 && s.stack == [] && s.Ready(b0)
    ensures s.inout.Length == 81 && Encodes(s.layout, s.columns[..], b0, s.made)
    ensures Closed(s.nodes[..]) && Represents(s.nodes[..], s.layout) && Consistent(s.layout)
    ensures SudokuRows(s.layout.m) && ValidStack(s.layout, s.stack)
  {
    hide Closed, Represents, ValidColumns, ValidRows, ValidLayout, ValidMatrix;
    EncodedRows(s.layout, s.columns[..], b0, s.made);
    RowsNotEmpty(s.layout, b0, s.made);
    FullIsConsistent(s.layout);
  }

  lemma NothingOnStack(m: Matrix, p: set<nat>)
    ensures StackRows(m, []) + p == p
  {
  }

  lemma CompletionIsValid(b0: seq<int>, b: seq<int>)
    requires IsCompletion(b0, b)
    ensures ValidBoard(b)
  {
  }
}
