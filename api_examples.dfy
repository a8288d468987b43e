/** The request/reply pairs of the route tests, stated on the model. Where a
    test depends on the solver or its placement checks, their answer is a
    parameter, constrained only as far as the test says. The well-formed test
    puzzles are written as their nine rows, A to I, joined. */
module SudokuApiExamples {
  import opened RegexClasses
  import opened SudokuApi

  /** The grid text of a sequence of rows, the rows laid end to end. */
  function Join(rows: seq<string>): (s: string)
    ensures (forall k :: 0 <= k < |rows| ==> |rows[k]| == 9) ==> |s| == 9 * |rows|
  {
    if rows == [] then "" else rows[0] + Join(rows[1..])
  }

  /** A row written with digits and `.` only. */
  predicate RowChars(row: string)
  {
    forall i :: 0 <= i < |row| ==> !Matches(NotPuzzleChar, row[i])
  }

  /** Nine rows of nine digits or `.` make a puzzle that passes both routes'
      puzzle checks. */
  lemma {:induction false} JoinedRowsPass(rows: seq<string>)
    requires |rows| == 9 && forall k :: 0 <= k < 9 ==> |rows[k]| == 9 && RowChars(rows[k])
    ensures PuzzleError(Join(rows)) == None
  {
    NoBadCharInRows(rows);
  }

  /** Rows of digits and `.` only hold nothing the scan for `[^0-9.]` finds. */
  lemma {:induction false} NoBadCharInRows(rows: seq<string>)
    requires forall k :: 0 <= k < |rows| ==> RowChars(rows[k])
    ensures !Test(NotPuzzleChar, Join(rows))
  {
    if rows != [] {
      TestExists(NotPuzzleChar, rows[0]);
      NoBadCharInRows(rows[1..]);
      TestConcat(NotPuzzleChar, rows[0], Join(rows[1..]));
    }
  }

  /** A character outside digits and `.` in any row is found by the scan of
      the joined text. */
  lemma {:induction false} BadCharInRows(rows: seq<string>, k: nat, i: nat)
    requires k < |rows| && i < |rows[k]| && Matches(NotPuzzleChar, rows[k][i])
    ensures Test(NotPuzzleChar, Join(rows))
  {
    TestConcat(NotPuzzleChar, rows[0], Join(rows[1..]));
    if k == 0 {
      TestExists(NotPuzzleChar, rows[0]);
    } else {
      BadCharInRows(rows[1..], k - 1, i);
    }
  }

  /** The puzzle of the check-route tests. */
  const ValidPuzzleRows := ["1.5..2.84", "..63.12.7", ".2..5....", ".9..1....", "8.2.3674.",
                            "3.7.2..9.", "47...8..1", "..16....9", "26914.37."]
  const ValidPuzzle := Join(ValidPuzzleRows)

  /** The puzzle of the solve-route test, and the solution it expects. */
  const SolvablePuzzleRows := ["82..4..6.", "..16..89.", "..98315.7", "49.157...", ".........",
                               ".53..4...", "96.415..8", "1..7632..", "3...28.51"]
  const SolvablePuzzle := Join(SolvablePuzzleRows)
  const SolvedPuzzle := "827549163531672894649831527496157382218396475753284916962415738185763249374928651"

  /** The solvable puzzle with its A3 cell set to 8, which repeats the 8 at A1. */
  const UnsolvablePuzzleRows := ["828.4..6.", "..16..89.", "..98315.7", "49.157...", ".........",
                                 ".53..4...", "96.415..8", "1..7632..", "3...28.51"]
  const UnsolvablePuzzle := Join(UnsolvablePuzzleRows)

  /** A puzzle with an `m` at C6. */
  const LowerMPuzzleRows := ["5..91372.", "3...8.5.9", ".9.25m.8.", "68.47.23.", "..95..46.",
                             "7.4.....5", ".2.......", "4..8916..", "85.72...3"]
  const LowerMPuzzle := Join(LowerMPuzzleRows)

  /** An 87-character puzzle. */
  const LongPuzzleRows := ["..9..172.", "16.58.3..", "..2432...", "...1...69", ".83.9....",
                           ".6.62.71.", "..9......", "1945....1", "72.16.58.", "3..6.."]
  const LongPuzzle := Join(LongPuzzleRows)

  /** The check-route puzzle with an `M` at A2. */
  const UpperMPuzzleRows := ["1M5..2.84", "..63.12.7", ".2..5....", ".9..1....", "8.2.3674.",
                             "3.7.2..9.", "47...8..1", "..16....9", "26914.37."]
  const UpperMPuzzle := Join(UpperMPuzzleRows)

  /** The check-route puzzle with its last cell cut off: 80 characters. */
  const ShortPuzzleRows := ["1.5..2.84", "..63.12.7", ".2..5....", ".9..1....", "8.2.3674.",
                            "3.7.2..9.", "47...8..1", "..16....9", "26914.37"]
  const ShortPuzzle := Join(ShortPuzzleRows)

  /** A solvable puzzle with the solver's solution comes back as that solution. */
  lemma SolveValidPuzzle()
    ensures SolveDecision(Some(SolvablePuzzle), Some(SolvedPuzzle)) == Solution(SolvedPuzzle)
  {
    JoinedRowsPass(SolvablePuzzleRows);
  }

  /** A request without a puzzle gets the singular missing-field error. */
  lemma SolveMissingPuzzle(solverResult: Option<string>)
    ensures SolveDecision(None, solverResult) == SolveError(MissingField)
  {
  }

  /** A puzzle with an `m` in it is refused before the solver is consulted. */
  lemma SolveInvalidCharacters(solverResult: Option<string>)
    ensures SolveDecision(Some(LowerMPuzzle), solverResult) == SolveError(InvalidCharacters)
  {
    BadCharInRows(LowerMPuzzleRows, 2, 5);
  }

  /** An 87-character puzzle is refused for its length. */
  lemma SolveIncorrectLength(solverResult: Option<string>)
    ensures SolveDecision(Some(LongPuzzle), solverResult) == SolveError(WrongLength)
  {
  }

  /** A well-formed puzzle the solver gives up on is reported as unsolvable. */
  lemma SolveUnsolvablePuzzle()
    ensures SolveDecision(Some(UnsolvablePuzzle), None) == SolveError(CannotSolve)
  {
    JoinedRowsPass(UnsolvablePuzzleRows);
  }

  /** Placing 7 at A3 of the solvable puzzle, with all three placement checks
      passing, is valid. */
  lemma CheckAllFields()
    ensures CheckDecision(Some(SolvablePuzzle), Some("A3"), Some("7"), true, true, true) == Valid
  {
    JoinedRowsPass(SolvablePuzzleRows);
    TestExists(RowLetter, ['A']);
    TestExists(NonZeroDigit, ['3']);
  }

  /** Once the request is well formed, any failed placement check makes the
      reply `{ valid: false }` with the failed axes, whichever digit is placed
      at A2. */
  lemma CheckPlacementConflicts(value: string, validRow: bool, validCol: bool, validReg: bool)
    requires |value| == 1 && '1' <= value[0] <= '9'
    requires !(validRow && validCol && validReg)
    ensures CheckDecision(Some(ValidPuzzle), Some("A2"), Some(value), validRow, validCol, validReg)
            == Invalid(Conflicts(validRow, validCol, validReg))
  {
    JoinedRowsPass(ValidPuzzleRows);
    TestExists(RowLetter, ['A']);
    TestExists(NonZeroDigit, ['2']);
  }

  /** When all three placement checks fail, the reply lists all three axes,
      in order. */
  lemma CheckAllPlacementConflicts()
    ensures CheckDecision(Some(ValidPuzzle), Some("A2"), Some("2"), false, false, false)
            == Invalid(["row", "column", "region"])
  {
    CheckPlacementConflicts("2", false, false, false);
  }

  /** An empty value counts as missing. */
  lemma CheckMissingValue(validRow: bool, validCol: bool, validReg: bool)
    ensures CheckDecision(Some(ValidPuzzle), Some("A2"), Some(""), validRow, validCol, validReg)
            == CheckError(MissingFields)
  {
  }

  /** A puzzle with an `M` in it is refused for its characters. */
  lemma CheckInvalidCharacters(validRow: bool, validCol: bool, validReg: bool)
    ensures CheckDecision(Some(UpperMPuzzle), Some("A2"), Some("9"), validRow, validCol, validReg) == CheckError(InvalidCharacters)
  {
    BadCharInRows(UpperMPuzzleRows, 0, 1);
    TestExists(RowLetter, ['A']);
    TestExists(NonZeroDigit, ['2']);
  }

  /** An 80-character puzzle, the last cell cut off, is refused for its length. */
  lemma CheckIncorrectLength(validRow: bool, validCol: bool, validReg: bool)
    ensures CheckDecision(Some(ShortPuzzle), Some("A2"), Some("9"), validRow, validCol, validReg) == CheckError(WrongLength)
  {
  }

  /** Row letter `Q` is outside `A`..`I`. */
  lemma CheckQ2Coordinate(validRow: bool, validCol: bool, validReg: bool)
    ensures CheckDecision(Some(ValidPuzzle), Some("Q2"), Some("9"), validRow, validCol, validReg)
            == CheckError(InvalidCoordinate)
  {
    TestExists(RowLetter, ['Q']);
  }

  /** `10` is two characters, not one digit `1`..`9`. */
  lemma CheckValue10(validRow: bool, validCol: bool, validReg: bool)
    ensures CheckDecision(Some(ValidPuzzle), Some("A2"), Some("10"), validRow, validCol, validReg)
            == CheckError(InvalidValue)
  {
  }
}
