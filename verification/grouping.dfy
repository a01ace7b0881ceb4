/**
 * `group_courses` and the inline copy of its loop: splitting a requirement string into
 * text tokens and the separators that sit at bracket depth 0, then finding the first
 * separator token of a kind.
 */
module Grouping {
  import opened Text
  import opened Outcomes
  import opened CourseFormat

  /** The loop state of `group_courses`: bracket level, the text being accumulated, the tokens so far. */
  datatype GroupState = GroupState(level: int, cur: string, groups: seq<string>)

  const Start := GroupState(0, "", [])

  /** One iteration of the loop body for the character `c`. */
  function Step(st: GroupState, c: char): GroupState
  {
    var level := st.level + Delta(c);
    if level == 0 && IsSeparator(c) then GroupState(level, "", st.groups + [st.cur, [c]])
    else if level > 0 && IsSeparator(c) then GroupState(level, st.cur + [c], st.groups)
    else if !IsSeparator(c) then GroupState(level, st.cur + [c], st.groups)
    else GroupState(level, st.cur, st.groups)  // a separator below depth 0 is dropped
  }

  /** The loop state after the first `i` characters of `s`. */
  function ScanPrefix(s: string, i: nat): GroupState
    requires i <= |s|
  {
    if i == 0 then Start else Step(ScanPrefix(s, i - 1), s[i - 1])
  }

  /** After the loop: a non-empty pending text becomes the last token. */
  function Flush(st: GroupState): seq<string>
  {
    if st.cur != "" then st.groups + [st.cur] else st.groups
  }

  /** `group_courses(requirements)`. */
  function GroupCourses(s: string): seq<string>
  {
    Flush(ScanPrefix(s, |s|))
  }

  /**
   * The grouping loop written inline in `parse_course_requirements` of the second copy of the
   * engine: it yields exactly the tokens of `group_courses`.
   */
  method GroupInline(s: string) returns (groups: seq<string>)
    ensures groups == GroupCourses(s)
    ensures NoSeparatorBelowZero(s) ==> Join(groups) == s
    ensures forall t <- groups :: IsSeparatorToken(t) || Nested(t)
  {
    var level := 0;
    var cur := "";
    groups := [];
    var i := 0;
    while i < |s|
      invariant i <= |s|
      invariant GroupState(level, cur, groups) == ScanPrefix(s, i)
    {
      var c := s[i];
      if c == '(' {
        level := level + 1;
      } else if c == ')' {
        level := level - 1;
      }
      if level == 0 && IsSeparator(c) {
        groups := groups + [cur];
        cur := "";
        groups := groups + [[c]];
      } else if level > 0 && IsSeparator(c) {
        cur := cur + [c];
      } else if !IsSeparator(c) {
        cur := cur + [c];
      }
      i := i + 1;
    }
    if cur != "" {
      groups := groups + [cur];
    }
    GroupShapes(s);
    if NoSeparatorBelowZero(s) {
      GroupJoin(s);
    }
  }

  /** A token that is a single separator character. */
  predicate IsSeparatorToken(t: string) {
    |t| == 1 && IsSeparator(t[0])
  }

  /** A text in which every separator is inside brackets opened in the text itself. */
  predicate Nested(t: string) {
    forall k :: 0 <= k < |t| && IsSeparator(t[k]) ==> DepthAt(t, k + 1) > 0
  }

  /** No separator of `s` is met while more brackets have closed than opened. */
  predicate NoSeparatorBelowZero(s: string) {
    forall q :: 0 <= q < |s| && IsSeparator(s[q]) ==> DepthAt(s, q + 1) >= 0
  }

  /** `s[p]` is the separator `c` at bracket depth 0. */
  predicate TopLevelAt(s: string, c: char, p: nat) {
    p < |s| && s[p] == c && DepthAt(s, p + 1) == 0
  }

  /** `s` holds the separator `c` at bracket depth 0 somewhere before index `i`. */
  predicate HasTopLevelBefore(s: string, c: char, i: nat) {
    exists p :: 0 <= p < i && TopLevelAt(s, c, p)
  }

  predicate HasTopLevel(s: string, c: char) {
    HasTopLevelBefore(s, c, |s|)
  }

  /** `p` is the first depth-0 occurrence of the separator `c` in `s`. */
  predicate FirstTopLevel(s: string, c: char, p: nat) {
    TopLevelAt(s, c, p) && !HasTopLevelBefore(s, c, p)
  }

  lemma {:induction false} DepthPrefix(a: string, b: string, k: nat)
    requires k <= |a|
    ensures DepthAt(a + b, k) == DepthAt(a, k)
  {
    if k > 0 {
      DepthPrefix(a, b, k - 1);
    }
  }

  lemma {:induction false} DepthSuffix(s: string, m: nat, k: nat)
    requires m + k <= |s|
    ensures DepthAt(s[m..], k) == DepthAt(s, m + k) - DepthAt(s, m)
  {
    if k > 0 {
      DepthSuffix(s, m, k - 1);
    }
  }

  /** Every token is a lone separator or a text whose separators are all nested in brackets. */
  lemma {:induction false} ScanShapes(s: string, i: nat)
    requires i <= |s|
    ensures ScanPrefix(s, i).level == DepthAt(s, i)
    ensures DepthAt(ScanPrefix(s, i).cur, |ScanPrefix(s, i).cur|) == ScanPrefix(s, i).level
    ensures Nested(ScanPrefix(s, i).cur)
    ensures forall t <- ScanPrefix(s, i).groups :: IsSeparatorToken(t) || Nested(t)
  {
    if i > 0 {
      ScanShapes(s, i - 1);
      var st := ScanPrefix(s, i - 1);
      var c := s[i - 1];
      if !(st.level + Delta(c) == 0 && IsSeparator(c)) && (IsSeparator(c) ==> st.level + Delta(c) > 0) {
        var t := st.cur + [c];
        forall k | 0 <= k <= |st.cur|
          ensures DepthAt(t, k) == DepthAt(st.cur, k)
        {
          DepthPrefix(st.cur, [c], k);
        }
        assert DepthAt(t, |t|) == DepthAt(st.cur, |st.cur|) + Delta(c);
      }
    }
  }

  lemma {:induction false} GroupShapes(s: string)
    ensures forall t <- GroupCourses(s) :: IsSeparatorToken(t) || Nested(t)
  {
    ScanShapes(s, |s|);
  }

  /** With no separator below depth 0, the tokens read so far and the pending text spell the prefix. */
  lemma {:induction false} ScanJoin(s: string, i: nat)
    requires i <= |s|
    requires NoSeparatorBelowZero(s)
    ensures Join(ScanPrefix(s, i).groups) + ScanPrefix(s, i).cur == s[..i]
  {
    if i > 0 {
      ScanJoin(s, i - 1);
      ScanShapes(s, i - 1);
      var st := ScanPrefix(s, i - 1);
      var c := s[i - 1];
      assert DepthAt(s, i) == st.level + Delta(c);
      StepJoin(st, c, s[..i - 1]);
      assert s[..i] == s[..i - 1] + [c];
    }
  }

  /** One loop step keeps the tokens and the pending text spelling what was read, unless it drops a separator. */
  lemma {:induction false} StepJoin(st: GroupState, c: char, read: string)
    requires Join(st.groups) + st.cur == read
    requires IsSeparator(c) ==> st.level + Delta(c) >= 0
    ensures Join(Step(st, c).groups) + Step(st, c).cur == read + [c]
  {
    var level := st.level + Delta(c);
    if level == 0 && IsSeparator(c) {
      JoinAppend(st.groups, [st.cur, [c]]);
      JoinPair(st.cur, [c]);
      assert Join(Step(st, c).groups) == Join(st.groups) + (st.cur + [c]);
    } else {
      assert Step(st, c).cur == st.cur + [c] && Step(st, c).groups == st.groups;
    }
  }

  /** Concatenating the tokens gives the input back when no separator sits below depth 0. */
  lemma {:induction false} GroupJoin(s: string)
    requires NoSeparatorBelowZero(s)
    ensures Join(GroupCourses(s)) == s
  {
    ScanJoin(s, |s|);
    var st := ScanPrefix(s, |s|);
    if st.cur != "" {
      JoinAppend(st.groups, [st.cur]);
    }
  }

  /** In general the tokens never spell more than the input. */
  lemma {:induction false} ScanLength(s: string, i: nat)
    requires i <= |s|
    ensures |Join(ScanPrefix(s, i).groups)| + |ScanPrefix(s, i).cur| <= i
  {
    if i > 0 {
      ScanLength(s, i - 1);
      var st := ScanPrefix(s, i - 1);
      var c := s[i - 1];
      if st.level + Delta(c) == 0 && IsSeparator(c) {
        JoinAppend(st.groups, [st.cur, [c]]);
        JoinPair(st.cur, [c]);
      }
    }
  }

  lemma {:induction false} GroupLength(s: string)
    ensures |Join(GroupCourses(s))| <= |s|
  {
    ScanLength(s, |s|);
    var st := ScanPrefix(s, |s|);
    if st.cur != "" {
      JoinAppend(st.groups, [st.cur]);
    }
  }

  /** A one-separator token appears among the tokens read so far iff the separator occurs at depth 0. */
  lemma {:induction false} ScanSeparatorTokens(s: string, c: char, i: nat)
    requires i <= |s| && IsSeparator(c)
    ensures [c] in ScanPrefix(s, i).groups <==> HasTopLevelBefore(s, c, i)
    ensures ScanPrefix(s, i).cur != [c]
  {
    ScanShapes(s, i);
    var cur := ScanPrefix(s, i).cur;
    if i > 0 {
      ScanSeparatorTokens(s, c, i - 1);
      ScanShapes(s, i - 1);
      var st := ScanPrefix(s, i - 1);
      var d := s[i - 1];
      if HasTopLevelBefore(s, c, i) && !HasTopLevelBefore(s, c, i - 1) {
        var p :| 0 <= p < i && TopLevelAt(s, c, p);
        assert p == i - 1;
        assert [c] in st.groups + [st.cur, [d]];
      }
      if [c] in ScanPrefix(s, i).groups && !([c] in st.groups) {
        assert ScanPrefix(s, i).groups == st.groups + [st.cur, [d]];
        assert d == c;
        assert TopLevelAt(s, c, i - 1);
      }
    }
  }

  lemma {:induction false} SeparatorTokens(s: string, c: char)
    requires IsSeparator(c)
    ensures [c] in GroupCourses(s) <==> HasTopLevel(s, c)
  {
    ScanSeparatorTokens(s, c, |s|);
  }

  /**
   * The search loop of `parse_course_requirements`: walk the tokens until one equals `sep`,
   * concatenating those passed into the first group, then join everything after it. Running
   * off the end of the token list is the IndexError the source raises.
   */
  function SplitFrom(groups: seq<string>, sep: string, i: nat, first: string): Result<(string, string)>
    requires i <= |groups|
    decreases |groups| - i
  {
    if i == |groups| then Err(IndexOutOfRange)
    else if groups[i] == sep then Ok((first, Join(groups[i + 1..])))
    else SplitFrom(groups, sep, i + 1, first + groups[i])
  }

  /** Split the tokens at the first token equal to `sep`; fails exactly when there is none. */
  function SplitAt(groups: seq<string>, sep: string): (r: Result<(string, string)>)
    ensures r.Err? <==> sep !in groups
    ensures r.Err? ==> r.fault == IndexOutOfRange
    ensures r.Ok? ==> exists i :: 0 <= i < |groups| && groups[i] == sep && sep !in groups[..i]
                                  && r.value == (Join(groups[..i]), Join(groups[i + 1..]))
  {
    SplitFromSpec(groups, sep, 0);
    SplitFrom(groups, sep, 0, "")
  }

  /** Joining the tokens around position `i` and the token itself gives the join of all of them. */
  lemma {:induction false} JoinAround(groups: seq<string>, i: nat)
    requires i < |groups|
    ensures Join(groups[..i]) + groups[i] + Join(groups[i + 1..]) == Join(groups)
  {
    var a := groups[..i + 1];
    var b := groups[i + 1..];
    assert a + b == groups;
    calc {
      Join(groups);
      { JoinAppend(a, b); }
      Join(a) + Join(b);
      { JoinSnoc(groups, i); }
      Join(groups[..i]) + groups[i] + Join(b);
    }
  }

  /** The split loses only the separator token: the halves around it rebuild the joined tokens. */
  lemma {:induction false} SplitAtJoin(groups: seq<string>, sep: string)
    ensures var r := SplitAt(groups, sep);
            r.Ok? ==> r.value.0 + sep + r.value.1 == Join(groups)
  {
    var r := SplitAt(groups, sep);
    if r.Ok? {
      var i :| 0 <= i < |groups| && groups[i] == sep && sep !in groups[..i]
               && r.value == (Join(groups[..i]), Join(groups[i + 1..]));
      JoinAround(groups, i);
    }
  }

  lemma {:induction false} JoinSnoc(parts: seq<string>, i: nat)
    requires i < |parts|
    ensures Join(parts[..i + 1]) == Join(parts[..i]) + parts[i]
  {
    assert parts[..i + 1] == parts[..i] + [parts[i]];
    JoinAppend(parts[..i], [parts[i]]);
    assert [parts[i]][1..] == [];
    assert parts[i] + "" == parts[i];
  }

  lemma {:induction false} SplitFromSpec(groups: seq<string>, sep: string, i: nat)
    requires i <= |groups| && sep !in groups[..i]
    ensures var r := SplitFrom(groups, sep, i, Join(groups[..i]));
            && (r.Err? <==> sep !in groups)
            && (r.Err? ==> r.fault == IndexOutOfRange)
            && (r.Ok? ==> exists k :: 0 <= k < |groups| && groups[k] == sep && sep !in groups[..k]
                                      && r.value == (Join(groups[..k]), Join(groups[k + 1..])))
    decreases |groups| - i
  {
    if i == |groups| {
      assert groups[..i] == groups;
    } else if groups[i] != sep {
      JoinSnoc(groups, i);
      assert groups[..i + 1] == groups[..i] + [groups[i]];
      SplitFromSpec(groups, sep, i + 1);
    }
  }

  /** Splitting `a + [t] + b` at `t`, when `t` is not in `a`, gives the two joins. */
  lemma {:induction false} SplitAtFirstToken(a: seq<string>, t: string, b: seq<string>)
    requires t !in a
    ensures SplitAt(a + [t] + b, t) == Ok((Join(a), Join(b)))
  {
    SplitFromToken(a, t, b, 0);
  }

  lemma {:induction false} SplitFromToken(a: seq<string>, t: string, b: seq<string>, i: nat)
    requires t !in a && i <= |a|
    ensures SplitFrom(a + [t] + b, t, i, Join(a[..i])) == Ok((Join(a), Join(b)))
    decreases |a| - i
  {
    var g := a + [t] + b;
    if i == |a| {
      assert a[..i] == a;
      assert g[i + 1..] == b;
    } else {
      assert g[i] == a[i];
      JoinSnoc(a, i);
      SplitFromToken(a, t, b, i + 1);
    }
  }

  /** The loop state at or after a depth-0 separator at `p`: the tokens up to it, then a fresh scan of the rest. */
  lemma {:induction false} ScanAfterTopLevel(s: string, c: char, p: nat, i: nat)
    requires IsSeparator(c) && TopLevelAt(s, c, p) && p < i <= |s|
    ensures var before := ScanPrefix(s, p);
            var rest := ScanPrefix(s[p + 1..], i - p - 1);
            ScanPrefix(s, i) == GroupState(rest.level, rest.cur, before.groups + [before.cur, [c]] + rest.groups)
  {
    if i == p + 1 {
      ScanShapes(s, p);
    } else {
      ScanAfterTopLevel(s, c, p, i - 1);
      assert s[p + 1..][i - p - 2] == s[i - 1];
    }
  }

  lemma {:induction false} GroupAtTopLevel(s: string, c: char, p: nat)
    requires IsSeparator(c) && TopLevelAt(s, c, p)
    ensures GroupCourses(s) == ScanPrefix(s, p).groups + [ScanPrefix(s, p).cur, [c]] + GroupCourses(s[p + 1..])
  {
    ScanAfterTopLevel(s, c, p, |s|);
  }

  lemma {:induction false} NoSeparatorBelowZeroSuffix(s: string, m: nat)
    requires m <= |s| && DepthAt(s, m) == 0 && NoSeparatorBelowZero(s)
    ensures NoSeparatorBelowZero(s[m..])
  {
    forall q | 0 <= q < |s[m..]| && IsSeparator(s[m..][q])
      ensures DepthAt(s[m..], q + 1) >= 0
    {
      DepthSuffix(s, m, q + 1);
    }
  }

  /**
   * Splitting the tokens at the first separator token `c` cuts the input at its first
   * depth-0 occurrence of `c`: the halves are exactly the text before and after it.
   */
  lemma {:induction false} SplitAtFirstTopLevel(s: string, c: char, p: nat)
    requires IsSeparator(c) && FirstTopLevel(s, c, p) && NoSeparatorBelowZero(s)
    ensures SplitAt(GroupCourses(s), [c]) == Ok((s[..p], s[p + 1..]))
  {
    var before := ScanPrefix(s, p);
    GroupAtTopLevel(s, c, p);
    TokensBeforeFirst(s, c, p);
    TokensAfterTopLevel(s, c, p);
    var a := before.groups + [before.cur];
    assert GroupCourses(s) == a + [[c]] + GroupCourses(s[p + 1..]);
    SplitAtFirstToken(a, [c], GroupCourses(s[p + 1..]));
  }

  /** The groups read before the first top-level separator hold no such token and join to the text before it. */
  lemma {:induction false} TokensBeforeFirst(s: string, c: char, p: nat)
    requires IsSeparator(c) && FirstTopLevel(s, c, p) && NoSeparatorBelowZero(s)
    ensures [c] !in ScanPrefix(s, p).groups + [ScanPrefix(s, p).cur]
    ensures Join(ScanPrefix(s, p).groups + [ScanPrefix(s, p).cur]) == s[..p]
  {
    var before := ScanPrefix(s, p);
    ScanSeparatorTokens(s, c, p);
    ScanJoin(s, p);
    JoinAppend(before.groups, [before.cur]);
    assert [before.cur][1..] == [];
    assert before.cur + "" == before.cur;
  }

  /** The groups after a top-level separator join back to the rest of the text. */
  lemma {:induction false} TokensAfterTopLevel(s: string, c: char, p: nat)
    requires IsSeparator(c) && TopLevelAt(s, c, p) && NoSeparatorBelowZero(s)
    ensures Join(GroupCourses(s[p + 1..])) == s[p + 1..]
  {
    ScanShapes(s, p);
    assert DepthAt(s, p + 1) == DepthAt(s, p);
    NoSeparatorBelowZeroSuffix(s, p + 1);
    GroupJoin(s[p + 1..]);
  }

  /** `s[i..j]` holds no brackets and no separators. */
  predicate PlainBetween(s: string, i: nat, j: nat) {
    forall k :: i <= k < j && k < |s| ==> !IsSeparator(s[k]) && s[k] != '(' && s[k] != ')'
  }

  /** Reading plain text only extends the pending text. */
  lemma {:induction false} ScanPlain(s: string, i: nat, j: nat)
    requires i <= j <= |s| && PlainBetween(s, i, j)
    ensures ScanPrefix(s, j) == ScanPrefix(s, i).(cur := ScanPrefix(s, i).cur + s[i..j])
    decreases j - i
  {
    if j > i {
      ScanPlain(s, i, j - 1);
      assert s[i..j] == s[i..j - 1] + [s[j - 1]];
    }
  }

  /** The first doctest of `group_courses`: a depth-0 `|` is a token, a nested `^` stays in its text. */
  lemma {:induction false} GroupCoursesExample(s: string)
    requires s == "CSC110Y1|(CSC108H1^CSC148H1)"
    ensures GroupCourses(s) == ["CSC110Y1", "|", "(CSC108H1^CSC148H1)"]
  {
    ExampleFirstCode(s);
    ExampleBracketed(s);
  }

  lemma {:induction false} ExampleFirstCode(s: string)
    requires s == "CSC110Y1|(CSC108H1^CSC148H1)"
    ensures ScanPrefix(s, 10) == GroupState(1, "(", ["CSC110Y1", "|"])
  {
    ExampleCodeRead(s);
    ExampleSeparatorRead(s);
    ExampleOpenRead(s);
  }

  lemma {:induction false} ExampleCodeRead(s: string)
    requires s == "CSC110Y1|(CSC108H1^CSC148H1)"
    ensures ScanPrefix(s, 8) == GroupState(0, "CSC110Y1", [])
  {
    ScanPlain(s, 0, 8);
    assert s[0..8] == "CSC110Y1";
  }

  lemma {:induction false} ExampleSeparatorRead(s: string)
    requires s == "CSC110Y1|(CSC108H1^CSC148H1)"
    requires ScanPrefix(s, 8) == GroupState(0, "CSC110Y1", [])
    ensures ScanPrefix(s, 9) == GroupState(0, "", ["CSC110Y1", "|"])
  {
    assert s[8] == '|';
  }

  lemma {:induction false} ExampleOpenRead(s: string)
    requires s == "CSC110Y1|(CSC108H1^CSC148H1)"
    requires ScanPrefix(s, 9) == GroupState(0, "", ["CSC110Y1", "|"])
    ensures ScanPrefix(s, 10) == GroupState(1, "(", ["CSC110Y1", "|"])
  {
    assert s[9] == '(';
  }

  lemma {:induction false} ExampleBracketed(s: string)
    requires s == "CSC110Y1|(CSC108H1^CSC148H1)"
    requires ScanPrefix(s, 10) == GroupState(1, "(", ["CSC110Y1", "|"])
    ensures ScanPrefix(s, 28) == GroupState(0, "(CSC108H1^CSC148H1)", ["CSC110Y1", "|"])
  {
    ExampleInnerFirst(s);
    ExampleInnerSecond(s);
  }

  lemma {:induction false} ExampleInnerFirst(s: string)
    requires s == "CSC110Y1|(CSC108H1^CSC148H1)"
    requires ScanPrefix(s, 10) == GroupState(1, "(", ["CSC110Y1", "|"])
    ensures ScanPrefix(s, 19) == GroupState(1, "(CSC108H1^", ["CSC110Y1", "|"])
  {
    ScanPlain(s, 10, 18);
    assert s[10..18] == "CSC108H1";
    assert ScanPrefix(s, 18) == GroupState(1, "(CSC108H1", ["CSC110Y1", "|"]);
  }

  lemma {:induction false} ExampleInnerSecond(s: string)
    requires s == "CSC110Y1|(CSC108H1^CSC148H1)"
    requires ScanPrefix(s, 19) == GroupState(1, "(CSC108H1^", ["CSC110Y1", "|"])
    ensures ScanPrefix(s, 28) == GroupState(0, "(CSC108H1^CSC148H1)", ["CSC110Y1", "|"])
  {
    ScanPlain(s, 19, 27);
    assert s[19..27] == "CSC148H1";
    assert ScanPrefix(s, 27) == GroupState(1, "(CSC108H1^CSC148H1", ["CSC110Y1", "|"]);
  }

  // ---- the second doctest, one stretch at a time ----

  /** A depth-0 separator closes the pending text and becomes a token of its own. */
  lemma {:induction false} ScanTopSeparator(s: string, i: nat)
    requires i < |s| && IsSeparator(s[i]) && ScanPrefix(s, i).level == 0
    ensures ScanPrefix(s, i + 1) == GroupState(0, "", ScanPrefix(s, i).groups + [ScanPrefix(s, i).cur, [s[i]]])
  {
  }

  /** Any other character, a nested separator included, extends the pending text. */
  lemma {:induction false} ScanText(s: string, i: nat)
    requires i < |s| && (!IsSeparator(s[i]) || ScanPrefix(s, i).level + Delta(s[i]) > 0)
    ensures ScanPrefix(s, i + 1)
            == GroupState(ScanPrefix(s, i).level + Delta(s[i]), ScanPrefix(s, i).cur + [s[i]], ScanPrefix(s, i).groups)
  {
  }

  /** `w` holds no brackets and no separators. */
  predicate PlainWord(w: string) {
    forall k :: 0 <= k < |w| ==> !IsSeparator(w[k]) && w[k] != '(' && w[k] != ')'
  }

  lemma {:induction false} PlainWordExample(w: string)
    requires w in ["PHY132H1", "PHY152H1", "MAT135H1", "MAT136H1", "MAT137Y1", "MAT157Y1"]
    ensures PlainWord(w)
  {
  }

  /** A plain word is appended to the pending text as a whole. */
  lemma {:induction false} ScanWord(s: string, i: nat, w: string)
    requires i + |w| <= |s| && s[i..i + |w|] == w && PlainWord(w)
    ensures ScanPrefix(s, i + |w|) == ScanPrefix(s, i).(cur := ScanPrefix(s, i).cur + w)
  {
    forall k | i <= k < i + |w| ensures !IsSeparator(s[k]) && s[k] != '(' && s[k] != ')' {
      assert s[k] == w[k - i];
    }
    ScanPlain(s, i, i + |w|);
  }

  /**
   * The second doctest of `group_courses`: the depth-0 separators become tokens, the bracketed
   * pair with its inner `^` stays one token.
   */
  lemma {:induction false} GroupCoursesSecondExample(s: string)
    requires s == "PHY132H1|PHY152H1^" + "(MAT135H1^MAT136H1)" + "|MAT137Y1|MAT157Y1"
    ensures GroupCourses(s) == ["PHY132H1", "|", "PHY152H1", "^", "(MAT135H1^MAT136H1)", "|", "MAT137Y1", "|", "MAT157Y1"]
  {
    SecondOpening(s);
    SecondBracketed(s);
    SecondClosing(s);
    assert |s| == 55;
  }

  lemma {:induction false} SecondOpening(s: string)
    requires s == "PHY132H1|PHY152H1^" + "(MAT135H1^MAT136H1)" + "|MAT137Y1|MAT157Y1"
    ensures ScanPrefix(s, 19) == GroupState(1, "(", ["PHY132H1", "|", "PHY152H1", "^"])
  {
    SecondFirstWord(s);
    SecondFirstBar(s);
    SecondSecondWord(s);
    SecondCaret(s);
    SecondOpen(s);
  }

  lemma {:induction false} SecondFirstWord(s: string)
    requires s == "PHY132H1|PHY152H1^" + "(MAT135H1^MAT136H1)" + "|MAT137Y1|MAT157Y1"
    ensures ScanPrefix(s, 8) == GroupState(0, "PHY132H1", [])
  {
    assert s[0..8] == "PHY132H1";
    PlainWordExample("PHY132H1");
    ScanWord(s, 0, "PHY132H1");
  }

  lemma {:induction false} SecondFirstBar(s: string)
    requires s == "PHY132H1|PHY152H1^" + "(MAT135H1^MAT136H1)" + "|MAT137Y1|MAT157Y1"
    requires ScanPrefix(s, 8) == GroupState(0, "PHY132H1", [])
    ensures ScanPrefix(s, 9) == GroupState(0, "", ["PHY132H1", "|"])
  {
    assert s[8] == '|';
    ScanTopSeparator(s, 8);
  }

  lemma {:induction false} SecondSecondWord(s: string)
    requires s == "PHY132H1|PHY152H1^" + "(MAT135H1^MAT136H1)" + "|MAT137Y1|MAT157Y1"
    requires ScanPrefix(s, 9) == GroupState(0, "", ["PHY132H1", "|"])
    ensures ScanPrefix(s, 17) == GroupState(0, "PHY152H1", ["PHY132H1", "|"])
  {
    assert s[9..17] == "PHY152H1";
    PlainWordExample("PHY152H1");
    ScanWord(s, 9, "PHY152H1");
  }

  lemma {:induction false} SecondCaret(s: string)
    requires s == "PHY132H1|PHY152H1^" + "(MAT135H1^MAT136H1)" + "|MAT137Y1|MAT157Y1"
    requires ScanPrefix(s, 17) == GroupState(0, "PHY152H1", ["PHY132H1", "|"])
    ensures ScanPrefix(s, 18) == GroupState(0, "", ["PHY132H1", "|", "PHY152H1", "^"])
  {
    assert s[17] == '^';
    ScanTopSeparator(s, 17);
  }

  lemma {:induction false} SecondOpen(s: string)
    requires s == "PHY132H1|PHY152H1^" + "(MAT135H1^MAT136H1)" + "|MAT137Y1|MAT157Y1"
    requires ScanPrefix(s, 18) == GroupState(0, "", ["PHY132H1", "|", "PHY152H1", "^"])
    ensures ScanPrefix(s, 19) == GroupState(1, "(", ["PHY132H1", "|", "PHY152H1", "^"])
  {
    assert s[18] == '(';
    ScanText(s, 18);
  }

  lemma {:induction false} SecondBracketed(s: string)
    requires s == "PHY132H1|PHY152H1^" + "(MAT135H1^MAT136H1)" + "|MAT137Y1|MAT157Y1"
    requires ScanPrefix(s, 19) == GroupState(1, "(", ["PHY132H1", "|", "PHY152H1", "^"])
    ensures ScanPrefix(s, 37) == GroupState(0, "(MAT135H1^MAT136H1)", ["PHY132H1", "|", "PHY152H1", "^"])
  {
    SecondInnerWord(s);
    SecondInnerCaret(s);
    SecondInnerLast(s);
    SecondClose(s);
  }

  lemma {:induction false} SecondInnerWord(s: string)
    requires s == "PHY132H1|PHY152H1^" + "(MAT135H1^MAT136H1)" + "|MAT137Y1|MAT157Y1"
    requires ScanPrefix(s, 19) == GroupState(1, "(", ["PHY132H1", "|", "PHY152H1", "^"])
    ensures ScanPrefix(s, 27) == GroupState(1, "(MAT135H1", ["PHY132H1", "|", "PHY152H1", "^"])
  {
    assert s[19..27] == "MAT135H1";
    PlainWordExample("MAT135H1");
    ScanWord(s, 19, "MAT135H1");
  }

  lemma {:induction false} SecondInnerCaret(s: string)
    requires s == "PHY132H1|PHY152H1^" + "(MAT135H1^MAT136H1)" + "|MAT137Y1|MAT157Y1"
    requires ScanPrefix(s, 27) == GroupState(1, "(MAT135H1", ["PHY132H1", "|", "PHY152H1", "^"])
    ensures ScanPrefix(s, 28) == GroupState(1, "(MAT135H1^", ["PHY132H1", "|", "PHY152H1", "^"])
  {
    assert s[27] == '^';
    ScanText(s, 27);
  }

  lemma {:induction false} SecondInnerLast(s: string)
    requires s == "PHY132H1|PHY152H1^" + "(MAT135H1^MAT136H1)" + "|MAT137Y1|MAT157Y1"
    requires ScanPrefix(s, 28) == GroupState(1, "(MAT135H1^", ["PHY132H1", "|", "PHY152H1", "^"])
    ensures ScanPrefix(s, 36) == GroupState(1, "(MAT135H1^MAT136H1", ["PHY132H1", "|", "PHY152H1", "^"])
  {
    assert s[28..36] == "MAT136H1";
    PlainWordExample("MAT136H1");
    ScanWord(s, 28, "MAT136H1");
  }

  lemma {:induction false} SecondClose(s: string)
    requires s == "PHY132H1|PHY152H1^" + "(MAT135H1^MAT136H1)" + "|MAT137Y1|MAT157Y1"
    requires ScanPrefix(s, 36) == GroupState(1, "(MAT135H1^MAT136H1", ["PHY132H1", "|", "PHY152H1", "^"])
    ensures ScanPrefix(s, 37) == GroupState(0, "(MAT135H1^MAT136H1)", ["PHY132H1", "|", "PHY152H1", "^"])
  {
    assert s[36] == ')';
    ScanText(s, 36);
  }

  lemma {:induction false} SecondClosing(s: string)
    requires s == "PHY132H1|PHY152H1^" + "(MAT135H1^MAT136H1)" + "|MAT137Y1|MAT157Y1"
    requires ScanPrefix(s, 37) == GroupState(0, "(MAT135H1^MAT136H1)", ["PHY132H1", "|", "PHY152H1", "^"])
    ensures ScanPrefix(s, 55) == GroupState(0, "MAT157Y1", ["PHY132H1", "|", "PHY152H1", "^", "(MAT135H1^MAT136H1)", "|", "MAT137Y1", "|"])
  {
    SecondThirdBar(s);
    SecondThirdWord(s);
    SecondLastBar(s);
    SecondLastWord(s);
  }

  lemma {:induction false} SecondThirdBar(s: string)
    requires s == "PHY132H1|PHY152H1^" + "(MAT135H1^MAT136H1)" + "|MAT137Y1|MAT157Y1"
    requires ScanPrefix(s, 37) == GroupState(0, "(MAT135H1^MAT136H1)", ["PHY132H1", "|", "PHY152H1", "^"])
    ensures ScanPrefix(s, 38) == GroupState(0, "", ["PHY132H1", "|", "PHY152H1", "^", "(MAT135H1^MAT136H1)", "|"])
  {
    assert s[37] == '|';
    ScanTopSeparator(s, 37);
  }

  lemma {:induction false} SecondThirdWord(s: string)
    requires s == "PHY132H1|PHY152H1^" + "(MAT135H1^MAT136H1)" + "|MAT137Y1|MAT157Y1"
    requires ScanPrefix(s, 38) == GroupState(0, "", ["PHY132H1", "|", "PHY152H1", "^", "(MAT135H1^MAT136H1)", "|"])
    ensures ScanPrefix(s, 46) == GroupState(0, "MAT137Y1", ["PHY132H1", "|", "PHY152H1", "^", "(MAT135H1^MAT136H1)", "|"])
  {
    assert s[38..46] == "MAT137Y1";
    PlainWordExample("MAT137Y1");
    ScanWord(s, 38, "MAT137Y1");
  }

  lemma {:induction false} SecondLastBar(s: string)
    requires s == "PHY132H1|PHY152H1^" + "(MAT135H1^MAT136H1)" + "|MAT137Y1|MAT157Y1"
    requires ScanPrefix(s, 46) == GroupState(0, "MAT137Y1", ["PHY132H1", "|", "PHY152H1", "^", "(MAT135H1^MAT136H1)", "|"])
    ensures ScanPrefix(s, 47) == GroupState(0, "", ["PHY132H1", "|", "PHY152H1", "^", "(MAT135H1^MAT136H1)", "|", "MAT137Y1", "|"])
  {
    assert s[46] == '|';
    ScanTopSeparator(s, 46);
  }

  lemma {:induction false} SecondLastWord(s: string)
    requires s == "PHY132H1|PHY152H1^" + "(MAT135H1^MAT136H1)" + "|MAT137Y1|MAT157Y1"
    requires ScanPrefix(s, 47) == GroupState(0, "", ["PHY132H1", "|", "PHY152H1", "^", "(MAT135H1^MAT136H1)", "|", "MAT137Y1", "|"])
    ensures ScanPrefix(s, 55) == GroupState(0, "MAT157Y1", ["PHY132H1", "|", "PHY152H1", "^", "(MAT135H1^MAT136H1)", "|", "MAT137Y1", "|"])
  {
    assert s[47..55] == "MAT157Y1";
    PlainWordExample("MAT157Y1");
    ScanWord(s, 47, "MAT157Y1");
  }
}
