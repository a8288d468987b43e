/** What the two routes promise: the order in which their checks fire, the
    exact inputs each check accepts, when the solver's answers are consulted,
    and the shape of the conflict list. */
module SudokuApiProperties {
  import opened RegexClasses
  import opened SudokuApi

  /** One validation step stated declaratively: whether it fails, and the
      error it reports if it is the first to fail. */
  datatype Check = Check(fails: bool, message: string)

  /** Reference semantics of a validation chain: the message of the first
      failing check, or `None` when every check passes. */
  function FirstFailure(checks: seq<Check>): (r: Option<string>)
    ensures r.None? <==> forall i :: 0 <= i < |checks| ==> !checks[i].fails
    ensures r.Some? ==> exists i :: 0 <= i < |checks| && checks[i].fails && checks[i].message == r.value
                                   && forall j :: 0 <= j < i ==> !checks[j].fails
  {
    if |checks| == 0 then None
    else if checks[0].fails then Some(checks[0].message)
    else
      var rest := FirstFailure(checks[1..]);
      assert forall i :: 1 <= i < |checks| ==> checks[i] == checks[1..][i - 1];
      rest
  }

  /** A coordinate in the accepted form: two characters, a row letter `a`..`i`
      or `A`..`I`, then a column digit `1`..`9`. */
  predicate CoordinateForm(c: string)
  {
    |c| == 2 && ('a' <= c[0] <= 'i' || 'A' <= c[0] <= 'I') && '1' <= c[1] <= '9'
  }

  /** A value in the accepted form: one digit `1`..`9`. */
  predicate ValueForm(v: string)
  {
    |v| == 1 && '1' <= v[0] <= '9'
  }

  /** A puzzle character: a digit or `.`. */
  predicate PuzzleChar(ch: char)
  {
    '0' <= ch <= '9' || ch == '.'
  }

  /** The checks of `/api/check`, in the order they are meant to fire. A check
      after the first reads a field only when it is present; when it is absent
      the first check has already failed. */
  function CheckRouteChecks(puzzle: Option<string>, coordinate: Option<string>, value: Option<string>): seq<Check>
  {
    [ Check(Missing(puzzle) || Missing(coordinate) || Missing(value), MissingFields),
      Check(coordinate.Some? && !CoordinateForm(coordinate.value), InvalidCoordinate),
      Check(value.Some? && !ValueForm(value.value), InvalidValue),
      Check(puzzle.Some? && |puzzle.value| != 81, WrongLength),
      Check(puzzle.Some? && exists i :: 0 <= i < |puzzle.value| && !PuzzleChar(puzzle.value[i]), InvalidCharacters) ]
  }

  /** The checks of `/api/solve`, in order; the last is the solver's verdict. */
  function SolveRouteChecks(puzzle: Option<string>, solverResult: Option<string>): seq<Check>
  {
    [ Check(Missing(puzzle), MissingField),
      Check(puzzle.Some? && |puzzle.value| != 81, WrongLength),
      Check(puzzle.Some? && exists i :: 0 <= i < |puzzle.value| && !PuzzleChar(puzzle.value[i]), InvalidCharacters),
      Check(solverResult.None? || solverResult.value == "", CannotSolve) ]
  }

  /** The coordinate regexes accept exactly the coordinates of the accepted form. */
  lemma CoordinateExactly(c: string)
    ensures ValidCoordinate(c) <==> CoordinateForm(c)
  {
    if |c| == 2 {
      RowLetterExactly(c[0]);
      TestExists(RowLetter, [c[0]]);
      TestExists(NonZeroDigit, [c[1]]);
    }
  }

  /** The value regex accepts exactly the values of the accepted form. */
  lemma ValueExactly(v: string)
    ensures ValidValue(v) <==> ValueForm(v)
  {
  }

  /** The value test refuses "0", "10" and the empty string, though the
      unanchored `[1-9]` would find a digit in "10", and it accepts "9". */
  lemma ValueRejects()
    ensures !ValidValue("0") && !ValidValue("10") && !ValidValue("") && ValidValue("9")
    ensures Test(NonZeroDigit, "10")
  {
    AnchorsReject10();
  }

  /** The puzzle checks fail in the order length, then characters. */
  lemma PuzzleErrorExactly(puzzle: string)
    ensures PuzzleError(puzzle) == Some(WrongLength) <==> |puzzle| != 81
    ensures PuzzleError(puzzle) == Some(InvalidCharacters)
            <==> |puzzle| == 81 && exists i :: 0 <= i < |puzzle| && !PuzzleChar(puzzle[i])
  {
  }

  /** `/api/check` reports exactly the first failing check of
      `CheckRouteChecks`, and reaches the placement answers only when none
      fails. */
  lemma CheckPrecedence(puzzle: Option<string>, coordinate: Option<string>, value: Option<string>,
                        validRow: bool, validCol: bool, validReg: bool)
    ensures var r := CheckDecision(puzzle, coordinate, value, validRow, validCol, validReg);
            var first := FirstFailure(CheckRouteChecks(puzzle, coordinate, value));
            (r.CheckError? <==> first.Some?) && (first.Some? ==> r.error == first.value)
  {
    var checks := CheckRouteChecks(puzzle, coordinate, value);
    if coordinate.Some? {
      CoordinateExactly(coordinate.value);
    }
    if value.Some? {
      ValueExactly(value.value);
    }
    if puzzle.Some? {
      PuzzleErrorExactly(puzzle.value);
    }
    var first := FirstFailure(checks);
    if checks[0].fails {
      assert first == Some(MissingFields);
    } else if checks[1].fails {
      assert first == Some(InvalidCoordinate);
    } else if checks[2].fails {
      assert first == Some(InvalidValue);
    } else if checks[3].fails {
      assert first == Some(WrongLength);
    } else if checks[4].fails {
      assert first == Some(InvalidCharacters);
    } else {
      assert first == None;
    }
  }

  /** An absent or empty field gives the missing-fields error whatever the
      other fields and placement answers are. */
  lemma CheckMissingFields(puzzle: Option<string>, coordinate: Option<string>, value: Option<string>,
                           validRow: bool, validCol: bool, validReg: bool)
    requires Missing(puzzle) || Missing(coordinate) || Missing(value)
    ensures CheckDecision(puzzle, coordinate, value, validRow, validCol, validReg) == CheckError(MissingFields)
  {
  }

  /** With all fields present, the coordinate error is reported exactly when
      the coordinate is not of the accepted form. */
  lemma CheckInvalidCoordinate(puzzle: Option<string>, coordinate: Option<string>, value: Option<string>,
                               validRow: bool, validCol: bool, validReg: bool)
    requires !Missing(puzzle) && !Missing(coordinate) && !Missing(value)
    ensures CheckDecision(puzzle, coordinate, value, validRow, validCol, validReg) == CheckError(InvalidCoordinate)
            <==> !CoordinateForm(coordinate.value)
  {
    CoordinateExactly(coordinate.value);
  }

  /** With all fields present and a good coordinate, the value error is
      reported exactly when the value is not a single digit `1`..`9`. */
  lemma CheckInvalidValue(puzzle: Option<string>, coordinate: Option<string>, value: Option<string>,
                          validRow: bool, validCol: bool, validReg: bool)
    requires !Missing(puzzle) && !Missing(coordinate) && !Missing(value)
    requires CoordinateForm(coordinate.value)
    ensures CheckDecision(puzzle, coordinate, value, validRow, validCol, validReg) == CheckError(InvalidValue)
            <==> !ValueForm(value.value)
  {
  }

  /** An error of `/api/check` does not depend on the placement answers: the
      placement checks decide nothing until every validation has passed. */
  lemma CheckErrorIgnoresPlacement(puzzle: Option<string>, coordinate: Option<string>, value: Option<string>,
                                   validRow: bool, validCol: bool, validReg: bool,
                                   otherRow: bool, otherCol: bool, otherReg: bool)
    requires CheckDecision(puzzle, coordinate, value, validRow, validCol, validReg).CheckError?
    ensures CheckDecision(puzzle, coordinate, value, otherRow, otherCol, otherReg)
            == CheckDecision(puzzle, coordinate, value, validRow, validCol, validReg)
  {
  }

  /** `/api/check` answers `{ valid: true }` exactly when no check fails and
      all three placement checks pass. */
  lemma CheckValidIff(puzzle: Option<string>, coordinate: Option<string>, value: Option<string>,
                      validRow: bool, validCol: bool, validReg: bool)
    ensures CheckDecision(puzzle, coordinate, value, validRow, validCol, validReg) == Valid
            <==> FirstFailure(CheckRouteChecks(puzzle, coordinate, value)).None? && validRow && validCol && validReg
  {
    CheckPrecedence(puzzle, coordinate, value, validRow, validCol, validReg);
  }

  /** `/api/check` answers `{ valid: false }` exactly when no check fails and
      some placement check fails, and then lists the failed axes. */
  lemma CheckInvalidIff(puzzle: Option<string>, coordinate: Option<string>, value: Option<string>,
                        validRow: bool, validCol: bool, validReg: bool)
    ensures var r := CheckDecision(puzzle, coordinate, value, validRow, validCol, validReg);
            (r.Invalid? <==> FirstFailure(CheckRouteChecks(puzzle, coordinate, value)).None?
                             && !(validRow && validCol && validReg))
            && (r.Invalid? ==> r.conflict == Conflicts(validRow, validCol, validReg))
  {
    CheckPrecedence(puzzle, coordinate, value, validRow, validCol, validReg);
  }

  /** Position of an axis name in the order row, column, region. */
  function AxisRank(name: string): nat
  {
    if name == AxisNames[0] then 0 else if name == AxisNames[1] then 1 else 2
  }

  /** The conflict list names each failed axis and no other, is non-empty
      exactly when some axis failed, and keeps the order row, column, region
      strictly, so it holds no name twice. */
  lemma ConflictsExactly(validRow: bool, validCol: bool, validReg: bool)
    ensures var c := Conflicts(validRow, validCol, validReg);
            (forall i :: 0 <= i < |c| ==> c[i] in AxisNames)
            && ("row" in c <==> !validRow)
            && ("column" in c <==> !validCol)
            && ("region" in c <==> !validReg)
            && (|c| > 0 <==> !(validRow && validCol && validReg))
            && (forall i, j :: 0 <= i < j < |c| ==> AxisRank(c[i]) < AxisRank(c[j]))
            && (forall i, j :: 0 <= i < j < |c| ==> c[i] != c[j])
  {
  }

  /** A missing or empty puzzle gives the singular missing-field error,
      whatever the solver would answer. */
  lemma SolveMissingField(puzzle: Option<string>, solverResult: Option<string>)
    requires Missing(puzzle)
    ensures SolveDecision(puzzle, solverResult) == SolveError(MissingField)
  {
  }

  /** `/api/solve` reports exactly the first failing check of
      `SolveRouteChecks`, and answers with a solution otherwise. */
  lemma SolvePrecedence(puzzle: Option<string>, solverResult: Option<string>)
    ensures var r := SolveDecision(puzzle, solverResult);
            var first := FirstFailure(SolveRouteChecks(puzzle, solverResult));
            (r.SolveError? <==> first.Some?) && (first.Some? ==> r.error == first.value)
  {
    var checks := SolveRouteChecks(puzzle, solverResult);
    if puzzle.Some? {
      PuzzleErrorExactly(puzzle.value);
    }
    var first := FirstFailure(checks);
    if checks[0].fails {
      assert first == Some(MissingField);
    } else if checks[1].fails {
      assert first == Some(WrongLength);
    } else if checks[2].fails {
      assert first == Some(InvalidCharacters);
    } else if checks[3].fails {
      assert first == Some(CannotSolve);
    } else {
      assert first == None;
    }
  }

  /** `/api/solve` answers with a solution exactly when the puzzle passes
      validation and the solver returned a non-empty string, and the solution
      is that string unchanged. */
  lemma SolveSolutionIff(puzzle: Option<string>, solverResult: Option<string>, solution: string)
    ensures SolveDecision(puzzle, solverResult) == Solution(solution)
            <==> !Missing(puzzle) && PuzzleError(puzzle.value).None? && solution != ""
                 && solverResult == Some(solution)
  {
  }

  /** A validation error of `/api/solve` does not depend on the solver's
      answer: the solver is consulted only for a valid puzzle. */
  lemma SolveErrorIgnoresSolver(puzzle: Option<string>, solverResult: Option<string>, otherResult: Option<string>)
    requires SolveDecision(puzzle, solverResult).SolveError?
    requires SolveDecision(puzzle, solverResult).error != CannotSolve
    ensures SolveDecision(puzzle, otherResult) == SolveDecision(puzzle, solverResult)
  {
  }

  /** Once the other fields of `/api/check` are valid, both routes judge a
      present puzzle alike: each route's length or character error is the
      other's, and neither has one on the same puzzles. */
  lemma RoutesAgreeOnPuzzle(puzzle: string, coordinate: string, value: string,
                            validRow: bool, validCol: bool, validReg: bool, solverResult: Option<string>)
    requires puzzle != "" && CoordinateForm(coordinate) && ValueForm(value)
    ensures var c := CheckDecision(Some(puzzle), Some(coordinate), Some(value), validRow, validCol, validReg);
            var s := SolveDecision(Some(puzzle), solverResult);
            (c.CheckError? <==> PuzzleError(puzzle).Some?)
            && (c.CheckError? ==> s == SolveError(c.error))
            && (s.SolveError? && s.error != CannotSolve ==> c == CheckError(s.error))
  {
    CoordinateExactly(coordinate);
    ValueExactly(value);
  }
}
