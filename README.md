# Sudoku API routes: request validation and reply shaping

This project models the two POST routes of a Sudoku-solver web service,
`/api/check` and `/api/solve` (`routes/api.js`).

- `/api/check` takes a puzzle, a coordinate and a value. It validates them in a fixed
  order and stops at the first failure: missing fields, then the coordinate, then the
  value, then the puzzle length, then the puzzle characters. A well-formed request is
  then judged by the solver's row, column and region placement checks. The reply is
  `{ valid: true }`, or `{ valid: false, conflict }` naming the failed axes in the
  order row, column, region.
- `/api/solve` validates the puzzle the same way, with its own singular
  missing-field message. It then asks the solver, and replies with the solution or
  with "Puzzle cannot be solved".

The solver and its placement checks are outside the model. Their answers enter the
two decision functions as parameters: three booleans for `/api/check`, and an
`Option<string>` for `/api/solve`, where `None` stands for a falsy return.
Request fields are `Option<string>`; `None` is an absent field.

Files:

- `regex_classes.dfy` (module `RegexClasses`) gives the JavaScript meaning of the
  route's regexes: the unanchored `test` as a left-to-right scan, the anchored
  `^[1-9]$`, and the case-insensitive `[a-i]`.
- `api.dfy` (module `SudokuApi`) holds the replies, the error messages, the field
  tests, and the two handlers `CheckDecision` and `SolveDecision`. It also holds the
  conflict list, both as a function and as the push-by-push method the route runs.
- `api_properties.dfy` (module `SudokuApiProperties`) proves what the routes promise.
  It states each validation chain declaratively, as an ordered list of
  (fails, message) checks where the first failure wins, and proves each handler
  equal to it. It also proves the exact inputs each check accepts, when the placement
  answers and the solver's answer matter, and the shape of the conflict list.
- `api_examples.dfy` (module `SudokuApiExamples`) restates the route tests of
  `tests/2_functional-tests.js` on the model. The test puzzles are written as their
  rows joined.

## Model

| member | source | states |
|---|---|---|
| RegexClasses.TestExists | routes/api.js:48 | `RegExp.test` with a one-class pattern finds a match exactly when some position of the string holds a matching character |
| RegexClasses.RowLetterExactly | routes/api.js:27 | the case-insensitive `[a-i]` matches exactly `a`..`i` and `A`..`I` |
| RegexClasses.TestWhole | routes/api.js:35 | the anchored `^[1-9]$` accepts a string exactly when it is one character long and the unanchored scan finds a match in it |
| RegexClasses.AnchorsReject10 | routes/api.js:35 | the unanchored `[1-9]` finds a digit in "10" while the anchored `^[1-9]$` refuses it, so the anchors are what reject "10" |
| SudokuApi.PuzzleError | routes/api.js:42-51 | a puzzle passes exactly when it has 81 characters, all digits or `.`; otherwise the error is the length or the character message |
| SudokuApi.PushConflicts | routes/api.js:68-85 | pushing "row", "column", "region" for each failed check yields the conflict list `Conflicts` |
| SudokuApi.CheckDecision | routes/api.js:17-89 | every error of `/api/check` is one of its five validation messages |
| SudokuApi.SolveDecision | routes/api.js:97-119 | every error of `/api/solve` is the missing-field, length, character or cannot-be-solved message |
| SudokuApiProperties.FirstFailure | routes/api.js:17-51 | a chain of checks reports the message of a failing check with no failing check before it, and reports nothing exactly when no check fails |
| SudokuApiProperties.CoordinateExactly | routes/api.js:23-33 | the coordinate test accepts exactly two characters, a letter `a`..`i` or `A`..`I` and then a digit `1`..`9` |
| SudokuApiProperties.ValueRejects | routes/api.js:35-40 | the value test refuses "0", "10" and "" and accepts "9", although the unanchored scan finds a digit in "10" |
| SudokuApiProperties.PuzzleErrorExactly | routes/api.js:42-51 | the length error comes exactly when the length is not 81; the character error comes exactly when the length is 81 and some character is not a digit or `.` |
| SudokuApiProperties.CheckPrecedence | routes/api.js:17-51 | `/api/check` errors exactly when some check fails, and reports the first failing check in the order missing, coordinate, value, length, characters |
| SudokuApiProperties.CheckMissingFields | routes/api.js:17-21 | an absent or empty puzzle, coordinate or value gives "Required field(s) missing", whatever else is given |
| SudokuApiProperties.CheckInvalidCoordinate | routes/api.js:23-33 | with all fields present, "Invalid coordinate" comes exactly when the coordinate is not of the accepted form |
| SudokuApiProperties.CheckInvalidValue | routes/api.js:35-40 | with all fields present and a good coordinate, "Invalid value" comes exactly when the value is not one digit `1`..`9` |
| SudokuApiProperties.CheckErrorIgnoresPlacement | routes/api.js:53-66 | an error reply of `/api/check` stays the same whatever the three placement checks answer |
| SudokuApiProperties.CheckValidIff | routes/api.js:70-71 | the reply is `{ valid: true }` exactly when no validation fails and the row, column and region checks all pass |
| SudokuApiProperties.CheckInvalidIff | routes/api.js:73-87 | the reply is `{ valid: false }` exactly when no validation fails and some placement check fails, and then it carries the conflict list |
| SudokuApiProperties.ConflictsExactly | routes/api.js:68-85 | the conflict list names each failed axis and only those, is non-empty exactly when some check failed, keeps the order row, column, region, and has no name twice |
| SudokuApiProperties.SolveMissingField | routes/api.js:97-100 | an absent or empty puzzle gives the singular "Required field missing", whatever the solver answers |
| SudokuApiProperties.SolvePrecedence | routes/api.js:97-119 | `/api/solve` errors exactly when some check fails, and reports the first failing check in the order missing, length, characters, solver |
| SudokuApiProperties.SolveSolutionIff | routes/api.js:112-119 | the reply is a solution exactly when the puzzle passes validation and the solver returned a non-empty string, and the solution is that string |
| SudokuApiProperties.SolveErrorIgnoresSolver | routes/api.js:102-112 | a validation error of `/api/solve` stays the same whatever the solver answers |
| SudokuApiProperties.RoutesAgreeOnPuzzle | routes/api.js:102-110 | once coordinate and value are valid, a puzzle error from either route is the same error from the other, and `/api/check` has a puzzle error exactly when the puzzle checks fail |
| SudokuApiExamples.SolveValidPuzzle | tests/2_functional-tests.js:14-24 | the solvable test puzzle with the solver's answer replies with that solution |
| SudokuApiExamples.SolveMissingPuzzle | tests/2_functional-tests.js:26-36 | a request without a puzzle replies "Required field missing" |
| SudokuApiExamples.SolveInvalidCharacters | tests/2_functional-tests.js:38-48 | the puzzle with an `m` replies "Invalid characters in puzzle" |
| SudokuApiExamples.SolveIncorrectLength | tests/2_functional-tests.js:50-61 | the 87-character puzzle replies with the length error |
| SudokuApiExamples.SolveUnsolvablePuzzle | tests/2_functional-tests.js:63-74 | a well-formed puzzle the solver cannot solve replies "Puzzle cannot be solved" |
| SudokuApiExamples.CheckAllFields | tests/2_functional-tests.js:80-92 | 7 at A3 of the test puzzle, with all placement checks passing, replies `{ valid: true }` |
| SudokuApiExamples.CheckPlacementConflicts | tests/2_functional-tests.js:94-120 | a digit at A2 with some placement check failing replies `{ valid: false }` with the failed axes |
| SudokuApiExamples.CheckAllPlacementConflicts | tests/2_functional-tests.js:122-134 | with all three checks failing the conflict list is row, column, region |
| SudokuApiExamples.CheckMissingValue | tests/2_functional-tests.js:136-148 | an empty value replies "Required field(s) missing" |
| SudokuApiExamples.CheckInvalidCharacters | tests/2_functional-tests.js:150-162 | the puzzle with an `M` replies "Invalid characters in puzzle" |
| SudokuApiExamples.CheckIncorrectLength | tests/2_functional-tests.js:164-176 | the 80-character puzzle replies with the length error |
| SudokuApiExamples.CheckQ2Coordinate | tests/2_functional-tests.js:178-190 | coordinate "Q2" replies "Invalid coordinate" |
| SudokuApiExamples.CheckValue10 | tests/2_functional-tests.js:192-204 | value "10" replies "Invalid value" |

## Left out

- The solver and its placement checks (`solve`, `checkRowPlacement`, `checkColPlacement`, `checkRegionPlacement`): `controllers/sudoku-solver.js` is not part of this model. Their answers are parameters of the two decision functions, so nothing is proved about how a conflict or a solution is found.
- The shared solver instance created when the routes are registered is a foreign object; it is not modelled.
- Express wiring and HTTP I/O (`app.route`, destructuring `req.body`, `res.json`): the request fields arrive already extracted, and the reply is a datatype instead of a JSON object.
- The `console.log` calls are logging only.
- JavaScript truthiness of fields that are not strings (numbers, objects, `null`): fields are strings or absent. A missing field is an absent field or the empty string.
- The solver's answer is a string or absent. `None` stands for `false` and every other falsy value that is not a string; an empty string is falsy in the source too and gives the cannot-be-solved error here as there.
- JavaScript's `length` and `split("")` count UTF-16 code units, while a Dafny `char` is one Unicode scalar value. The two agree on text inside the Basic Multilingual Plane. A character outside it counts as two units in the source and as one `char` here, so an 81-character puzzle holding one such character is 82 units long and gets the length error from the source, while the model gets past the length check and gives the character error. An 80-character puzzle holding one such character is 81 units long: the source's `[^0-9.]` then matches a surrogate unit and gives the character error, while the model gives the length error.
- The example lemmas write each test puzzle as its rows joined, not as one 81-character literal.
