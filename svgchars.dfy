/** The character classes and whitespace skipping that the SVG path parser uses (src/svg.cpp). */
module SvgChars {
  import opened CStrings

  /** `IsDigit`. */
  predicate IsDigit(c: char) {
    '0' <= c <= '9'
  }

  /** `IsAlphabetical`: ASCII letters only. */
  predicate IsAlphabetical(c: char) {
    ('a' <= c <= 'z') || ('A' <= c <= 'Z')
  }

  /** `IsFloatingPointChar`: a character that may appear in a number as the parser scans it. */
  predicate IsFloatingPointChar(c: char) {
    IsDigit(c) || c == '+' || c == '-' || c == '.'
  }

  const Digits: string := "0123456789"
  const Lower: string := "abcdefghijklmnopqrstuvwxyz"
  const Upper: string := "ABCDEFGHIJKLMNOPQRSTUVWXYZ"
  const Letters: string := "abcdefghijklmnopqrstuvwxyzABCDEFGHIJKLMNOPQRSTUVWXYZ"

  /** The digits are exactly the ten decimal digit characters. */
  lemma DigitsAreDecimal(c: char)
    ensures IsDigit(c) <==> c in Digits
  {
  }

  /** The letters are exactly the 52 ASCII letters. */
  lemma LettersAreAscii(c: char)
    ensures IsAlphabetical(c) <==> c in Letters
  {
    LowerCaseLetters(c);
    UpperCaseLetters(c);
    assert Letters == Lower + Upper;
  }

  lemma LowerCaseLetters(c: char)
    ensures ('a' <= c <= 'z') <==> c in Lower
  {
  }

  lemma UpperCaseLetters(c: char)
    ensures ('A' <= c <= 'Z') <==> c in Upper
  {
  }

  /**
   * The number characters are the digits, the two signs and the point; in
   * particular no letter is one, so an exponent such as `1e5` ends a number at `e`.
   */
  lemma FloatingPointCharsAreSignsDigitsAndPoint(c: char)
    ensures IsFloatingPointChar(c) <==> c in Digits + "+-."
    ensures IsAlphabetical(c) ==> !IsFloatingPointChar(c)
    ensures !IsFloatingPointChar('e') && !IsFloatingPointChar('E')
  {
    DigitsAreDecimal(c);
  }

  /**
   * `EatWhitespace(&iter)`: advances the caller's cursor over spaces only; the
   * new cursor is returned.
   */
  method EatWhitespace(s: seq<char>, iter: nat) returns (next: nat)
    requires Terminated(s, iter)
    ensures iter <= next <= Terminator(s, iter)
    ensures forall k :: iter <= k < next ==> s[k] == ' '
    ensures s[next] != ' '
  {
    next := iter;
    while s[next] != NUL && s[next] == ' '
      invariant iter <= next <= Terminator(s, iter)
      invariant forall k :: iter <= k < next ==> s[k] == ' '
      decreases Terminator(s, iter) - next
    {
      next := next + 1;
    }
  }

  /** Tabs, newlines and carriage returns are not skipped. */
  lemma EatWhitespaceStopsAtOtherBlanks(s: seq<char>, iter: nat, next: nat)
    requires Terminated(s, iter) && iter <= next <= Terminator(s, iter)
    requires forall k :: iter <= k < next ==> s[k] == ' '
    requires s[iter] in "\t\n\r"
    ensures next == iter
  {
  }
}
