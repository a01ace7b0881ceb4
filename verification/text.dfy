/** ASCII character classes and small string helpers shared by every component. */
module Text {

  /** `str.isalpha` on one ASCII character. */
  predicate IsAlpha(c: char) {
    ('A' <= c <= 'Z') || ('a' <= c <= 'z')
  }

  /** `str.isnumeric` on one ASCII character. */
  predicate IsDigit(c: char) {
    '0' <= c <= '9'
  }

  /** The two requirement separators: `^` (and) and `|` (or). */
  predicate IsSeparator(c: char) {
    c == '^' || c == '|'
  }

  /** The characters Python's argument-less `str.split` and `str.strip` treat as white space (ASCII part). */
  predicate IsSpace(c: char) {
    c == ' ' || c == '\t' || c == '\n' || c == '\r' || c == '\U{000B}' || c == '\U{000C}'
    || ('\U{001C}' <= c <= '\U{001F}')
  }

  /** `s.isalpha()`: non-empty and every character a letter. */
  predicate AllAlpha(s: string) {
    |s| > 0 && forall i :: 0 <= i < |s| ==> IsAlpha(s[i])
  }

  /** `s.isnumeric()`: non-empty and every character a digit. */
  predicate AllDigits(s: string) {
    |s| > 0 && forall i :: 0 <= i < |s| ==> IsDigit(s[i])
  }

  /** `''.join(parts)`. */
  function Join(parts: seq<string>): string
  {
    if |parts| == 0 then "" else parts[0] + Join(parts[1..])
  }

  lemma {:induction false} JoinAppend(a: seq<string>, b: seq<string>)
    ensures Join(a + b) == Join(a) + Join(b)
  {
    if |a| > 0 {
      assert (a + b)[1..] == a[1..] + b;
      JoinAppend(a[1..], b);
    } else {
      assert a + b == b;
    }
  }

  lemma {:induction false} JoinPair(a: string, b: string)
    ensures Join([a, b]) == a + b
  {
    assert [a, b][1..] == [b];
    assert [b][1..] == [];
    assert Join([b]) == b + Join([]);
    assert b + "" == b;
  }

  lemma {:induction false} JoinLengthBound(parts: seq<string>)
    ensures |Join(parts)| >= |parts| - CountEmpty(parts)
  {
    if |parts| > 0 {
      JoinLengthBound(parts[1..]);
    }
  }

  function CountEmpty(parts: seq<string>): nat
  {
    if |parts| == 0 then 0 else (if parts[0] == "" then 1 else 0) + CountEmpty(parts[1..])
  }
}
