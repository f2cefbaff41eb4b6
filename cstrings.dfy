/**
 * NUL-terminated character scanning (src/utils.cpp). A `char *` into a C string
 * is modelled as a sequence `s` and an index `str` into it; the string runs from
 * `str` to the first NUL at or after it.
 */
module CStrings {

  const NUL: char := 0 as char

  /** `s` holds a NUL terminator at or after `from`, as every C string passed to these helpers does. */
  predicate Terminated(s: seq<char>, from: nat) {
    from < |s| && NUL in s[from..]
  }

  /** The index of the first NUL at or after `from`: where the C string starting at `from` ends. */
  function Terminator(s: seq<char>, from: nat): (t: nat)
    requires Terminated(s, from)
    ensures from <= t < |s| && s[t] == NUL
    ensures forall k :: from <= k < t ==> s[k] != NUL
    decreases |s| - from
  {
    if s[from] == NUL then from
    else
      assert s[from..][0] != NUL && NUL in s[from..][1..] && s[from..][1..] == s[from + 1..];
      Terminator(s, from + 1)
  }

  /**
   * `FindChar(str, ch)`: advances from `str` to the first character that is `ch`
   * or the terminator, never past the terminator.
   */
  method FindChar(s: seq<char>, str: nat, ch: char) returns (r: nat)
    requires Terminated(s, str)
    ensures str <= r <= Terminator(s, str)
    ensures s[r] == ch || s[r] == NUL
    ensures forall k :: str <= k < r ==> s[k] != ch && s[k] != NUL
    ensures ch !in s[str..Terminator(s, str)] ==> r == Terminator(s, str)
  {
    r := str;
    while s[r] != NUL && s[r] != ch
      invariant str <= r <= Terminator(s, str)
      invariant forall k :: str <= k < r ==> s[k] != ch && s[k] != NUL
      decreases Terminator(s, str) - r
    {
      r := r + 1;
    }
  }

  /**
   * `SkipChar(str, ch)`: one past what `FindChar` finds, so one past the
   * terminator when `ch` does not occur.
   */
  method SkipChar(s: seq<char>, str: nat, ch: char) returns (r: nat)
    requires Terminated(s, str)
    ensures str < r <= Terminator(s, str) + 1
    ensures s[r - 1] == ch || s[r - 1] == NUL
    ensures forall k :: str <= k < r - 1 ==> s[k] != ch && s[k] != NUL
    ensures ch !in s[str..Terminator(s, str)] ==> r == Terminator(s, str) + 1
  {
    r := FindChar(s, str, ch);
    r := r + 1;
  }
}
