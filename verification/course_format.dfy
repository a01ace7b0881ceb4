/**
 * The two string tests every copy of the requirement engine shares:
 * `is_course_format` and `is_enclosed_brackets`, plus the bracket depth they rely on.
 */
module CourseFormat {
  import opened Text

  /** How one character changes the bracket depth. */
  function Delta(c: char): int {
    if c == '(' then 1 else if c == ')' then -1 else 0
  }

  /** Bracket depth after reading the first `i` characters of `s` (opening minus closing brackets). */
  function DepthAt(s: string, i: nat): int
    requires i <= |s|
  {
    if i == 0 then 0 else DepthAt(s, i - 1) + Delta(s[i - 1])
  }

  /**
   * `is_course_format`: eight characters, three letters, then digits at 3..5 or at 4..5 only,
   * then a letter and a digit.
   */
  function IsCourseFormat(s: string): (b: bool)
    ensures b <==> |s| == 8 && IsAlpha(s[0]) && IsAlpha(s[1]) && IsAlpha(s[2])
                   && IsDigit(s[4]) && IsDigit(s[5]) && IsAlpha(s[6]) && IsDigit(s[7])
  {
    |s| == 8 && AllAlpha(s[0..3]) && (AllDigits(s[3..6]) || AllDigits(s[4..6]))
    && IsAlpha(s[6]) && IsDigit(s[7])
  }

  /** The doctests of `is_course_format`, and the irregular family with a letter at position 3. */
  lemma {:induction false} CourseFormatExamples()
    ensures IsCourseFormat("CSC111H1")
    ensures IsCourseFormat("CSCC11H3")
    ensures !IsCourseFormat("CSCAA1")
    ensures !IsCourseFormat("")
  {
  }

  /** The loop of `is_enclosed_brackets` over `s[i:]`, with `open` brackets still unclosed. */
  function EnclosedScan(s: string, i: nat, open: int): bool
    requires i <= |s|
    decreases |s| - i
  {
    if i == |s| then true
    else if open == 0 then false
    else EnclosedScan(s, i + 1, open + Delta(s[i]))
  }

  /**
   * `is_enclosed_brackets`: `s` opens with `(` and the bracket that opens it is still open
   * before every later character; unbalanced strings such as `(A` count as enclosed.
   */
  function IsEnclosedBrackets(s: string): (b: bool)
    ensures b <==> |s| > 0 && s[0] == '(' && forall j :: 1 <= j < |s| ==> DepthAt(s, j) > 0
  {
    if |s| == 0 || s[0] != '(' then false
    else
      EnclosedScanSpec(s, 1);
      EnclosedScan(s, 1, 1)
  }

  lemma {:induction false} EnclosedScanSpec(s: string, i: nat)
    requires 1 <= i <= |s| && s[0] == '('
    requires forall j :: 1 <= j < i ==> DepthAt(s, j) > 0
    ensures EnclosedScan(s, i, DepthAt(s, i)) <==> forall j :: i <= j < |s| ==> DepthAt(s, j) > 0
    decreases |s| - i
  {
    if i < |s| {
      if DepthAt(s, i) == 0 {
      } else {
        if i == 1 {
          assert DepthAt(s, 1) == 1;
        } else {
          assert DepthAt(s, i - 1) > 0;
        }
        assert DepthAt(s, i) > 0;
        EnclosedScanSpec(s, i + 1);
      }
    }
  }

  /** The doctests of `is_enclosed_brackets`, the empty string, and an unbalanced opener. */
  lemma {:induction false} EnclosedBracketsExamples()
    ensures IsEnclosedBrackets("()")
    ensures IsEnclosedBrackets("(((ABCDE)))")
    ensures !IsEnclosedBrackets("(ABC)^(DEF)")
    ensures !IsEnclosedBrackets("()ABCDE")
    ensures !IsEnclosedBrackets("")
    ensures IsEnclosedBrackets("(A")
  {
    assert EnclosedScan("()", 1, 1);
    assert EnclosedScan("(((ABCDE)))", 1, 1);
    assert !EnclosedScan("(ABC)^(DEF)", 1, 1);
    assert !EnclosedScan("()ABCDE", 1, 1);
    assert EnclosedScan("(A", 1, 1);
  }
}
