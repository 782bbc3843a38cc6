/**
 * Character classes used by the quiz parser and the answer comparison.
 *
 * Digits are restricted to ASCII `0`-`9` (Python's `\d` also accepts other
 * Unicode decimal digits), and lower-casing is an explicit map over the
 * letters the quiz format uses (ASCII and the Russian alphabet).
 */
module Chars {

  predicate IsAsciiDigit(c: char) {
    '0' <= c <= '9'
  }

  predicate IsUpperQuizLetter(c: char) {
    'A' <= c <= 'Z' || 0x410 <= c as int <= 0x42F || c as int == 0x401
  }

  predicate IsLowerQuizLetter(c: char) {
    'a' <= c <= 'z' || 0x430 <= c as int <= 0x44F || c as int == 0x451
  }

  /** The character class `[a-zA-Zа-яА-ЯёЁ]` of the option and key patterns. */
  predicate IsQuizLetter(c: char) {
    IsLowerQuizLetter(c) || IsUpperQuizLetter(c)
  }

  /** The characters for which Python's `str.isspace` holds; `str.strip` removes these. */
  predicate IsSpace(c: char) {
    var n := c as int;
    (0x09 <= n <= 0x0D) || (0x1C <= n <= 0x20) || n == 0x85 || n == 0xA0 || n == 0x1680
    || (0x2000 <= n <= 0x200A) || n == 0x2028 || n == 0x2029 || n == 0x202F || n == 0x205F
    || n == 0x3000
  }

  /** The line boundaries at which Python's `str.splitlines` cuts a string. */
  predicate IsLineBoundary(c: char) {
    var n := c as int;
    (0x0A <= n <= 0x0D) || (0x1C <= n <= 0x1E) || n == 0x85 || n == 0x2028 || n == 0x2029
  }

  /** Lower-casing of one character: upper-case quiz letters map to their lower-case partner. */
  function LowerChar(c: char): (r: char)
    ensures IsUpperQuizLetter(c) ==> IsLowerQuizLetter(r)
    ensures !IsUpperQuizLetter(c) ==> r == c
    ensures IsQuizLetter(r) <==> IsQuizLetter(c)
  {
    if 'A' <= c <= 'Z' || 0x410 <= c as int <= 0x42F then (c as int + 32) as char
    else if c as int == 0x401 then 0x451 as char
    else c
  }

  /**
   * Lower-casing merges nothing but the two cases of a quiz letter: two
   * different characters with the same lower case are a capital quiz letter
   * and its lower-case partner.
   */
  lemma LowerCharMergesOnlyCases(a: char, b: char)
    requires a != b && LowerChar(a) == LowerChar(b)
    ensures IsQuizLetter(a) && IsQuizLetter(b)
    ensures (IsUpperQuizLetter(a) && LowerChar(a) == b) || (IsUpperQuizLetter(b) && LowerChar(b) == a)
  {
  }

  /** `str.lower` restricted to `LowerChar`: one character out for each character in. */
  function Lower(s: string): (r: string)
    ensures |r| == |s|
    ensures forall i :: 0 <= i < |s| ==> r[i] == LowerChar(s[i])
  {
    seq(|s|, i requires 0 <= i < |s| => LowerChar(s[i]))
  }

  /** The test `user_answer.lower() == correct_answer.lower()` for a one-letter key. */
  predicate Matches(user: string, key: char)
    ensures Matches(user, key) ==> |user| == 1
    ensures user == [key] ==> Matches(user, key)
  {
    Lower(user) == Lower([key])
  }

  /**
   * An answer matches a key exactly when it is one character long and that
   * character and the key lower-case to the same letter.
   */
  lemma MatchesIff(user: string, key: char)
    ensures Matches(user, key) <==> |user| == 1 && LowerChar(user[0]) == LowerChar(key)
  {
    if |user| == 1 && LowerChar(user[0]) == LowerChar(key) {
      assert Lower(user) == [LowerChar(user[0])];
      assert Lower([key]) == [LowerChar(key)];
    }
  }

  /**
   * Both cases of a key's letter are accepted, whether the key itself is
   * written as a capital or not: its lower case, and every capital with the
   * same lower case.
   */
  lemma MatchesEitherCase(key: char)
    ensures Matches([key], key)
    ensures Matches([LowerChar(key)], key)
    ensures forall u :: IsUpperQuizLetter(u) && LowerChar(u) == LowerChar(key) ==> Matches([u], key)
  {
    MatchesIff([LowerChar(key)], key);
    forall u | IsUpperQuizLetter(u) && LowerChar(u) == LowerChar(key)
      ensures Matches([u], key)
    {
      MatchesIff([u], key);
    }
  }

  /**
   * Only the key letter itself, or the other case of the same quiz letter,
   * matches a key: a different letter, a longer and an empty reply never do.
   */
  lemma MatchesOnlyKeyLetter(user: string, key: char)
    requires Matches(user, key)
    ensures |user| == 1
    ensures || user[0] == key
            || (IsUpperQuizLetter(user[0]) && LowerChar(user[0]) == key)
            || (IsUpperQuizLetter(key) && LowerChar(key) == user[0])
  {
    MatchesIff(user, key);
    if user[0] != key {
      LowerCharMergesOnlyCases(user[0], key);
    }
  }
}
