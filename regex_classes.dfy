/** The character-class regular expressions that the API routes use to
    validate request fields, given their JavaScript meaning: each pattern is a
    single bracket expression, optionally anchored, optionally case-insensitive.
    A string is a sequence of `char`s. */
module RegexClasses {

  /** The bracket expressions that occur in the routes:
      `[a-i]` with the `i` flag (the row letter of a coordinate),
      `[1-9]` (the column digit of a coordinate and the placed value), and
      `[^0-9.]` (a character that may not appear in a puzzle). */
  datatype CharClass = RowLetter | NonZeroDigit | NotPuzzleChar

  /** JavaScript's case canonicalisation for a non-unicode `i` regex maps a
      character to its upper case, except that a character outside ASCII is
      never mapped into ASCII. Only the ASCII part matters for the classes
      here, so this upper-cases `a`..`z` and leaves every other character
      alone. */
  function Canonicalize(c: char): char
  {
    if 'a' <= c <= 'z' then (c as int - 32) as char else c
  }

  /** Whether one character is matched by the bracket expression. For the
      case-insensitive `[a-i]`, a character matches when its canonical form
      is the canonical form of some member of `a`..`i`, i.e. lies in `A`..`I`. */
  predicate Matches(cls: CharClass, c: char)
  {
    match cls
    case RowLetter => 'A' <= Canonicalize(c) <= 'I'
    case NonZeroDigit => '1' <= c <= '9'
    case NotPuzzleChar => !('0' <= c <= '9' || c == '.')
  }

  /** `RegExp.prototype.test` for an unanchored pattern that is one bracket
      expression: scan the string from the left for a matching character. */
  function Test(cls: CharClass, s: string): bool
  {
    if |s| == 0 then false
    else Matches(cls, s[0]) || Test(cls, s[1..])
  }

  /** The scan finds a match exactly when some position of the string holds
      a matching character. */
  lemma {:induction false} TestExists(cls: CharClass, s: string)
    ensures Test(cls, s) <==> exists i :: 0 <= i < |s| && Matches(cls, s[i])
  {
    if |s| > 0 {
      TestExists(cls, s[1..]);
      assert forall i :: 1 <= i < |s| ==> s[i] == s[1..][i - 1];
    }
  }

  /** `RegExp.prototype.test` for the pattern anchored at both ends,
      `^[...]$` without the `m` flag: the whole string is exactly one
      matching character. The anchors add to the unanchored scan exactly the
      demand that the string be one character long. */
  function TestWhole(cls: CharClass, s: string): (found: bool)
    ensures found <==> |s| == 1 && Test(cls, s)
  {
    TestExists(cls, s);
    |s| == 1 && Matches(cls, s[0])
  }

  /** The anchors are what reject "10": the unanchored `[1-9]` finds the `1`
      in it, the anchored `^[1-9]$` refuses it. */
  lemma AnchorsReject10()
    ensures Test(NonZeroDigit, "10") && !TestWhole(NonZeroDigit, "10")
  {
  }

  /** The case-insensitive `[a-i]` accepts exactly the letters `a`..`i` and
      `A`..`I`, nothing else. */
  lemma RowLetterExactly(c: char)
    ensures Matches(RowLetter, c) <==> ('a' <= c <= 'i' || 'A' <= c <= 'I')
  {
  }

  /** Searching a concatenation finds a match iff one of the parts has one. */
  lemma {:induction false} TestConcat(cls: CharClass, a: string, b: string)
    ensures Test(cls, a + b) == (Test(cls, a) || Test(cls, b))
  {
    if |a| == 0 {
      assert a + b == b;
    } else {
      assert (a + b)[0] == a[0];
      assert (a + b)[1..] == a[1..] + b;
      TestConcat(cls, a[1..], b);
    }
  }
}
