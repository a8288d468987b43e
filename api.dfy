/** The two POST routes of the Sudoku API, `/api/check` and `/api/solve`:
    validation of the request fields, in a fixed order where the first
    failing check decides the error, and the shaping of the JSON reply.
    The solver and its three placement checks are not part of this model; their
    answers enter as parameters. */
module SudokuApi {
  import opened RegexClasses

  datatype Option<T> = None | Some(value: T)

  /** The reply of `/api/check`: `{ error }`, `{ valid: true }` or
      `{ valid: false, conflict }`. */
  datatype CheckResponse = CheckError(error: string) | Valid | Invalid(conflict: seq<string>)

  /** The reply of `/api/solve`: `{ error }` or `{ solution }`. */
  datatype SolveResponse = SolveError(error: string) | Solution(solution: string)

  const MissingFields := "Required field(s) missing"
  const MissingField := "Required field missing"
  const InvalidCoordinate := "Invalid coordinate"
  const InvalidValue := "Invalid value"
  const WrongLength := "Expected puzzle to be 81 characters long"
  const InvalidCharacters := "Invalid characters in puzzle"
  const CannotSolve := "Puzzle cannot be solved"

  /** The names of the three placement axes, in the order the reply lists them. */
  const AxisNames: seq<string> := ["row", "column", "region"]

  /** JavaScript's `!field` for a request field that is a string or absent:
      an absent field and the empty string are both falsy. */
  predicate Missing(field: Option<string>)
  {
    field.None? || field.value == ""
  }

  /** The coordinate test: exactly two characters, the first matched by the
      case-insensitive `[a-i]`, the second by `[1-9]`. Each regex is tested
      against the one-character string that `split("")` yields. */
  predicate ValidCoordinate(coordinate: string)
  {
    |coordinate| == 2 && Test(RowLetter, [coordinate[0]]) && Test(NonZeroDigit, [coordinate[1]])
  }

  /** The value test: the whole string is one character of `[1-9]`. */
  predicate ValidValue(value: string)
  {
    TestWhole(NonZeroDigit, value)
  }

  /** The puzzle tests both routes run, in order: the length must be 81, then
      no character may be matched by `[^0-9.]`. */
  function PuzzleError(puzzle: string): (e: Option<string>)
    ensures e == None <==> (|puzzle| == 81 && forall i :: 0 <= i < |puzzle| ==> !Matches(NotPuzzleChar, puzzle[i]))
    ensures e.Some? ==> e.value in {WrongLength, InvalidCharacters}
  {
    TestExists(NotPuzzleChar, puzzle);
    if |puzzle| != 81 then Some(WrongLength)
    else if Test(NotPuzzleChar, puzzle) then Some(InvalidCharacters)
    else None
  }

  /** The axes whose placement check failed, in the order row, column, region. */
  function Conflicts(validRow: bool, validCol: bool, validReg: bool): seq<string>
  {
    (if validRow then [] else [AxisNames[0]])
    + (if validCol then [] else [AxisNames[1]])
    + (if validReg then [] else [AxisNames[2]])
  }

  /** The conflict list as the route builds it: start empty and push the name
      of each failed axis in turn. */
  method PushConflicts(validRow: bool, validCol: bool, validReg: bool) returns (conflicts: seq<string>)
    ensures conflicts == Conflicts(validRow, validCol, validReg)
  {
    conflicts := [];
    if !validRow {
      conflicts := conflicts + ["row"];
    }
    if !validCol {
      conflicts := conflicts + ["column"];
    }
    if !validReg {
      conflicts := conflicts + ["region"];
    }
  }

  /** The `/api/check` handler. `validRow`, `validCol` and `validReg` are the
      answers of the solver's row, column and region placement checks for the
      puzzle, the coordinate's row letter and column digit, and the value. */
  function CheckDecision(puzzle: Option<string>, coordinate: Option<string>, value: Option<string>,
                         validRow: bool, validCol: bool, validReg: bool): (r: CheckResponse)
    ensures r.CheckError? ==> r.error in {MissingFields, InvalidCoordinate, InvalidValue, WrongLength, InvalidCharacters}
  {
    if Missing(puzzle) || Missing(coordinate) || Missing(value) then CheckError(MissingFields)
    else if !ValidCoordinate(coordinate.value) then CheckError(InvalidCoordinate)
    else if !ValidValue(value.value) then CheckError(InvalidValue)
    else match PuzzleError(puzzle.value)
      case Some(e) => CheckError(e)
      case None =>
        if validCol && validReg && validRow then Valid
        else Invalid(Conflicts(validRow, validCol, validReg))
  }

  /** JavaScript's `!solvedString` for the solver's answer: no answer (false,
      undefined) and the empty string are both falsy. */
  predicate Falsy(solverResult: Option<string>)
  {
    solverResult.None? || solverResult.value == ""
  }

  /** The `/api/solve` handler. `solverResult` is the solver's answer for the
      puzzle; the handler consults it only once the puzzle passed validation. */
  function SolveDecision(puzzle: Option<string>, solverResult: Option<string>): (r: SolveResponse)
    ensures r.SolveError? ==> r.error in {MissingField, WrongLength, InvalidCharacters, CannotSolve}
  {
    if Missing(puzzle) then SolveError(MissingField)
    else match PuzzleError(puzzle.value)
      case Some(e) => SolveError(e)
      case None =>
        if Falsy(solverResult) then SolveError(CannotSolve)
        else Solution(solverResult.value)
  }
}
