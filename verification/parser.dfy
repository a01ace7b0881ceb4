/**
 * `parse_course_requirements`: strip enclosing brackets, stop at a course code or the empty
 * requirement, otherwise split at the first depth-0 `^` when there is one, else at the first
 * depth-0 `|`, and parse both halves.
 */
module Parser {
  import opened Text
  import opened Outcomes
  import opened CourseFormat
  import opened Grouping
  import opened Requirements

  /** The text without its first and last character. */
  function Inner(s: string): (r: string)
    ensures |r| == if |s| >= 2 then |s| - 2 else 0
  {
    if |s| >= 2 then s[1..|s| - 1] else ""
  }

  /** Removes enclosing bracket pairs for as long as the whole text is enclosed. */
  function StripOuter(s: string): (r: string)
    ensures |r| <= |s|
    ensures !IsEnclosedBrackets(r)
    decreases |s|
  {
    if IsEnclosedBrackets(s) then StripOuter(Inner(s)) else s
  }

  /**
   * Stripping changes nothing exactly when the string is not enclosed, and otherwise keeps a
   * contiguous piece of it that follows only opening brackets.
   */
  lemma {:induction false} StripOuterSpec(s: string)
    ensures StripOuter(s) == s <==> !IsEnclosedBrackets(s)
    ensures exists a, b :: 0 <= a <= b <= |s| && StripOuter(s) == s[a..b]
                           && forall i :: 0 <= i < a ==> s[i] == '('
    decreases |s|
  {
    if IsEnclosedBrackets(s) {
      var m := Inner(s);
      StripOuterSpec(m);
      var a, b :| 0 <= a <= b <= |m| && StripOuter(m) == m[a..b] && forall i :: 0 <= i < a ==> m[i] == '(';
      if |s| >= 2 {
        assert m == s[1..|s| - 1];
        assert |m[a..b]| == |s[a + 1..b + 1]|;
        forall k | 0 <= k < b - a
          ensures m[a..b][k] == s[a + 1..b + 1][k]
        {
          assert m[a + k] == s[a + 1 + k];
        }
        assert m[a..b] == s[a + 1..b + 1];
        forall i | 0 <= i < a + 1
          ensures s[i] == '('
        {
          if i > 0 {
            assert s[i] == m[i - 1];
          }
        }
      } else {
        assert StripOuter(s) == s[1..1];
      }
    } else {
      assert StripOuter(s) == s[0..|s|];
    }
  }

  /**
   * The parser. A Python IndexError (no separator token to split at) is `Err(IndexOutOfRange)`;
   * the left half is parsed before the right one, so its error is the one reported.
   */
  function Parse(s: string): (r: Result<Node>)
    ensures r.Ok? ==> WellFormed(r.value) && r.value.text == StripOuter(s)
    ensures r.Err? ==> r.fault == IndexOutOfRange
    decreases |s|
  {
    var t := StripOuter(s);
    if IsLeafText(t) then Ok(Leaf(t))
    else
      var groups := GroupCourses(t);
      var sep := if "^" in groups then '^' else '|';
      var halves :- SplitAt(groups, [sep]);
      SplitAtJoin(groups, [sep]);
      GroupLength(t);
      var left :- Parse(halves.0);
      var right :- Parse(halves.1);
      Ok(Branch(t, sep, left, right))
  }

  /** The doctest: the empty requirement is a single leaf with no separator. */
  lemma {:induction false} ParseEmpty()
    ensures Parse("") == Ok(Leaf(""))
  {
    assert !IsEnclosedBrackets("");
  }

  /**
   * The `group_courses` doctest string, parsed: a depth-0 `^` outranks the `|`s around it, so
   * the root splits at `^`.
   */
  lemma {:induction false} ParseSecondExampleRoot(s: string)
    requires s == "PHY132H1|PHY152H1^" + "(MAT135H1^MAT136H1)" + "|MAT137Y1|MAT157Y1"
    ensures Parse(s).Ok? ==> Parse(s).value.Branch? && Parse(s).value.sep == '^' && Parse(s).value.text == s
  {
    assert s[0] == 'P';
    assert StripOuter(s) == s;
    assert |s| == 55;
    assert !IsLeafText(s);
    GroupCoursesSecondExample(s);
    assert GroupCourses(s)[3] == "^";
  }

  /** A tree root carries `^` exactly when the stripped text has a depth-0 `^`, and `|` otherwise. */
  lemma {:induction false} ParseSeparatorChoice(s: string)
    requires Parse(s).Ok? && Parse(s).value.Branch?
    ensures var t := StripOuter(s);
            && (Parse(s).value.sep == '^' <==> HasTopLevel(t, '^'))
            && (Parse(s).value.sep != '^' ==> Parse(s).value.sep == '|' && HasTopLevel(t, '|'))
  {
    var t := StripOuter(s);
    SeparatorTokens(t, '^');
    SeparatorTokens(t, '|');
  }

  /** Text that is neither a leaf nor holds a depth-0 separator makes the parser fail. */
  lemma {:induction false} ParseFailsWithoutSeparator(s: string)
    requires var t := StripOuter(s); !IsLeafText(t) && !HasTopLevel(t, '^') && !HasTopLevel(t, '|')
    ensures Parse(s) == Err(IndexOutOfRange)
  {
    var t := StripOuter(s);
    SeparatorTokens(t, '^');
    SeparatorTokens(t, '|');
  }

  /** The separator the parser splits at: `^` whenever one sits at depth 0, else `|`. */
  predicate SplitsAt(t: string, c: char) {
    (c == '^' && HasTopLevel(t, '^')) || (c == '|' && !HasTopLevel(t, '^'))
  }

  /**
   * Parsing cuts the stripped text at its first depth-0 occurrence of the chosen separator and
   * succeeds exactly when both sides parse.
   */
  lemma {:induction false} ParseSplitsAtFirst(s: string, c: char, p: nat)
    requires var t := StripOuter(s);
             !IsLeafText(t) && NoSeparatorBelowZero(t) && SplitsAt(t, c) && FirstTopLevel(t, c, p)
    ensures var t := StripOuter(s);
            && (Parse(s).Ok? <==> Parse(t[..p]).Ok? && Parse(t[p + 1..]).Ok?)
            && (Parse(s).Ok? ==> Parse(s).value == Branch(t, c, Parse(t[..p]).value, Parse(t[p + 1..]).value))
  {
    var t := StripOuter(s);
    SeparatorTokens(t, '^');
    SplitAtFirstTopLevel(t, c, p);
  }

  /** `s` holds no bracket at all. */
  predicate NoBrackets(s: string) {
    forall k :: 0 <= k < |s| ==> s[k] != '(' && s[k] != ')'
  }

  lemma {:induction false} NoBracketsConcat(x: string, y: string)
    requires NoBrackets(x) && NoBrackets(y)
    ensures NoBrackets(x + y)
  {
    forall k | 0 <= k < |x + y|
      ensures (x + y)[k] != '(' && (x + y)[k] != ')'
    {
      if k >= |x| {
        assert (x + y)[k] == y[k - |x|];
      }
    }
  }

  lemma {:induction false} DepthWithoutBrackets(s: string, k: nat)
    requires k <= |s| && NoBrackets(s)
    ensures DepthAt(s, k) == 0
  {
    if k > 0 {
      DepthWithoutBrackets(s, k - 1);
    }
  }

  /** Without brackets, nothing is stripped and every separator sits at depth 0. */
  lemma {:induction false} FlatText(s: string)
    requires NoBrackets(s)
    ensures StripOuter(s) == s
    ensures NoSeparatorBelowZero(s)
    ensures forall k :: 0 <= k <= |s| ==> DepthAt(s, k) == 0
  {
    StripOuterSpec(s);
    forall k | 0 <= k <= |s|
      ensures DepthAt(s, k) == 0
    {
      DepthWithoutBrackets(s, k);
    }
  }

  /** Bracket-free text splits at the first occurrence of the chosen separator. */
  lemma {:induction false} ParseFlat(s: string, c: char, p: nat)
    requires NoBrackets(s) && !IsLeafText(s) && IsSeparator(c)
    requires p < |s| && s[p] == c && c !in s[..p]
    requires c == '|' ==> '^' !in s
    ensures Parse(s).Ok? <==> Parse(s[..p]).Ok? && Parse(s[p + 1..]).Ok?
    ensures Parse(s).Ok? ==> Parse(s).value == Branch(s, c, Parse(s[..p]).value, Parse(s[p + 1..]).value)
  {
    FlatText(s);
    assert TopLevelAt(s, c, p);
    assert !HasTopLevelBefore(s, c, p) by {
      forall q | 0 <= q < p
        ensures !TopLevelAt(s, c, q)
      {
        assert s[q] == s[..p][q];
      }
    }
    if c == '|' {
      assert !HasTopLevel(s, '^') by {
        forall q | 0 <= q < |s|
          ensures !TopLevelAt(s, '^', q)
        {
          assert s[q] in s;
        }
      }
    } else {
      assert HasTopLevelBefore(s, '^', p + 1);
    }
    ParseSplitsAtFirst(s, c, p);
  }

  /** A course code written with letters and digits only. */
  predicate PlainCode(x: string) {
    IsCourseFormat(x) && NoBrackets(x) && '^' !in x && '|' !in x
  }

  lemma {:induction false} ParseCode(x: string)
    requires PlainCode(x)
    ensures Parse(x) == Ok(Leaf(x))
  {
    FlatText(x);
  }

  /** Two codes joined by one separator. */
  lemma {:induction false} ParsePair(x: string, c: char, y: string)
    requires PlainCode(x) && PlainCode(y) && IsSeparator(c)
    ensures Parse(x + [c] + y) == Ok(Branch(x + [c] + y, c, Leaf(x), Leaf(y)))
  {
    var s := x + [c] + y;
    assert s[..8] == x;
    assert s[9..] == y;
    NoBracketsConcat(x, [c]);
    NoBracketsConcat(x + [c], y);
    ParseFlat(s, c, 8);
    ParseCode(x);
    ParseCode(y);
  }

  /**
   * Conjunction is split first: `A|B^C` reads as `(A|B)^C`, and `A^B|C` as `A^(B|C)`.
   */
  lemma {:induction false} AndSplitsFirst(a: string, b: string, c: string)
    requires PlainCode(a) && PlainCode(b) && PlainCode(c)
    ensures var s := a + "|" + b + "^" + c;
            Parse(s) == Ok(Branch(s, '^', Branch(a + "|" + b, '|', Leaf(a), Leaf(b)), Leaf(c)))
    ensures var s := a + "^" + b + "|" + c;
            Parse(s) == Ok(Branch(s, '^', Leaf(a), Branch(b + "|" + c, '|', Leaf(b), Leaf(c))))
  {
    AndAfterOr(a, b, c);
    AndBeforeOr(a, b, c);
  }

  lemma {:induction false} AndAfterOr(a: string, b: string, c: string)
    requires PlainCode(a) && PlainCode(b) && PlainCode(c)
    ensures var s := a + "|" + b + "^" + c;
            Parse(s) == Ok(Branch(s, '^', Branch(a + "|" + b, '|', Leaf(a), Leaf(b)), Leaf(c)))
  {
    var ab := a + "|" + b;
    var s := ab + "^" + c;
    assert s[..17] == ab;
    assert s[18..] == c;
    NoBracketsConcat(a, "|");
    NoBracketsConcat(a + "|", b);
    NoBracketsConcat(ab, "^");
    NoBracketsConcat(ab + "^", c);
    ParseFlat(s, '^', 17);
    ParsePair(a, '|', b);
    ParseCode(c);
  }

  lemma {:induction false} AndBeforeOr(a: string, b: string, c: string)
    requires PlainCode(a) && PlainCode(b) && PlainCode(c)
    ensures var s := a + "^" + b + "|" + c;
            Parse(s) == Ok(Branch(s, '^', Leaf(a), Branch(b + "|" + c, '|', Leaf(b), Leaf(c))))
  {
    var bc := b + "|" + c;
    var s := a + "^" + b + "|" + c;
    assert s == a + "^" + bc;
    assert s[..8] == a;
    assert s[9..] == bc;
    NoBracketsConcat(b, "|");
    NoBracketsConcat(b + "|", c);
    NoBracketsConcat(a, "^");
    NoBracketsConcat(a + "^", bc);
    ParseFlat(s, '^', 8);
    ParseCode(a);
    ParsePair(b, '|', c);
  }
}
