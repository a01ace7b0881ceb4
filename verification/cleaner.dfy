/**
 * `clean_course_requirements`: tidy a scraped requirement string before it is parsed. Doubled
 * separators are squashed, separators next to a bracket on its inner side are dropped, empty
 * brackets are removed once, and stray separators and brackets are cut from both ends.
 */
module Cleaner {

  /** A character of the requirement grammar rather than of a course code. */
  predicate IsPunct(c: char) {
    c == '(' || c == ')' || c == '^' || c == '|'
  }

  /** The course-code characters of `s`, in order: what cleaning must never change. */
  function Kept(s: string): string
  {
    if |s| == 0 then [] else (if IsPunct(s[0]) then [] else [s[0]]) + Kept(s[1..])
  }

  lemma {:induction false} KeptAppend(a: string, b: string)
    ensures Kept(a + b) == Kept(a) + Kept(b)
  {
    if |a| > 0 {
      assert (a + b)[0] == a[0] && (a + b)[1..] == a[1..] + b;
      KeptAppend(a[1..], b);
    } else {
      assert a + b == b;
    }
  }

  lemma {:induction false} KeptOfPunct(s: string)
    ensures Kept(s) == [] <==> forall i :: 0 <= i < |s| ==> IsPunct(s[i])
  {
    if |s| > 0 {
      KeptOfPunct(s[1..]);
      assert forall i :: 1 <= i < |s| ==> s[i] == s[1..][i - 1];
    }
  }

  /** `pat in s` for a two-character pattern. */
  predicate Occurs(s: string, pat: string)
    requires |pat| == 2
  {
    exists i :: 0 <= i < |s| - 1 && s[i] == pat[0] && s[i + 1] == pat[1]
  }

  lemma {:induction false} OccursCons(s: string, pat: string)
    requires |pat| == 2 && |s| >= 1
    ensures Occurs(s, pat) <==> (|s| >= 2 && s[..2] == pat) || Occurs(s[1..], pat)
  {
    if Occurs(s, pat) {
      var i :| 0 <= i < |s| - 1 && s[i] == pat[0] && s[i + 1] == pat[1];
      if i > 0 {
        assert s[1..][i - 1] == s[i] && s[1..][i] == s[i + 1];
      } else {
        assert s[..2] == [s[0], s[1]] && pat == [pat[0], pat[1]];
      }
    }
    if |s| >= 2 && s[..2] == pat {
      assert s[0] == pat[0] && s[1] == pat[1];
    }
    if Occurs(s[1..], pat) {
      var i :| 0 <= i < |s| - 2 && s[1..][i] == pat[0] && s[1..][i + 1] == pat[1];
      assert s[i + 1] == pat[0] && s[i + 2] == pat[1];
    }
  }

  /** A pattern absent from a string is absent from every piece cut out of it. */
  lemma {:induction false} OccursInfix(s: string, a: nat, b: nat, pat: string)
    requires |pat| == 2 && a <= b <= |s| && !Occurs(s, pat)
    ensures !Occurs(s[a..b], pat)
  {
    forall i | 0 <= i < b - a - 1
      ensures !(s[a..b][i] == pat[0] && s[a..b][i + 1] == pat[1])
    {
      assert s[a..b][i] == s[a + i] && s[a..b][i + 1] == s[a + i + 1];
    }
  }

  /**
   * `s.replace(pat, rep)` for a two-character `pat`: occurrences are found left to right and do
   * not overlap, so `'^^^'.replace('^^', '^')` is `'^^'`.
   */
  function Replace(s: string, pat: string, rep: string): (r: string)
    requires |pat| == 2
    ensures |rep| <= 2 ==> |r| <= |s|
    decreases |s|
  {
    if |s| < 2 then s
    else if s[..2] == pat then rep + Replace(s[2..], pat, rep)
    else [s[0]] + Replace(s[1..], pat, rep)
  }

  /** A shortening replacement changes the string exactly when the pattern is in it. */
  lemma {:induction false} ReplaceShrinks(s: string, pat: string, rep: string)
    requires |pat| == 2 && |rep| < 2
    ensures |Replace(s, pat, rep)| < |s| <==> Occurs(s, pat)
    ensures !Occurs(s, pat) ==> Replace(s, pat, rep) == s
    decreases |s|
  {
    if |s| >= 2 {
      OccursCons(s, pat);
      if s[..2] != pat {
        ReplaceShrinks(s[1..], pat, rep);
        assert s == [s[0]] + s[1..];
      }
    } else if |s| == 1 {
      OccursCons(s, pat);
      assert !Occurs(s[1..], pat);
    }
  }

  predicate AllPunct(s: string) {
    forall i :: 0 <= i < |s| ==> IsPunct(s[i])
  }

  /** Replacing grammar characters by grammar characters leaves the course codes alone. */
  lemma {:induction false} ReplaceKept(s: string, pat: string, rep: string)
    requires |pat| == 2 && AllPunct(pat) && AllPunct(rep)
    ensures Kept(Replace(s, pat, rep)) == Kept(s)
    decreases |s|
  {
    KeptOfPunct(pat);
    KeptOfPunct(rep);
    if |s| >= 2 {
      if s[..2] == pat {
        ReplaceKept(s[2..], pat, rep);
        KeptAppend(rep, Replace(s[2..], pat, rep));
        KeptAppend(pat, s[2..]);
        assert s == pat + s[2..];
      } else {
        ReplaceKept(s[1..], pat, rep);
        KeptAppend([s[0]], Replace(s[1..], pat, rep));
        KeptAppend([s[0]], s[1..]);
        assert s == [s[0]] + s[1..];
      }
    }
  }

  /** Where the pattern starts the string, it is replaced and the scan resumes after it. */
  lemma {:induction false} ReplaceHit(s: string, pat: string, rep: string)
    requires |pat| == 2 && |s| >= 2 && s[0] == pat[0] && s[1] == pat[1]
    ensures Replace(s, pat, rep) == rep + Replace(s[2..], pat, rep)
  {
    assert s[..2] == [s[0], s[1]] && pat == [pat[0], pat[1]];
  }

  /** Elsewhere the first character is kept and the scan moves on by one. */
  lemma {:induction false} ReplaceMiss(s: string, pat: string, rep: string)
    requires |pat| == 2 && |s| >= 2 && (s[0] != pat[0] || s[1] != pat[1])
    ensures Replace(s, pat, rep) == [s[0]] + Replace(s[1..], pat, rep)
  {
    assert s[..2][0] == s[0] && s[..2][1] == s[1];
  }

  /** A stretch without grammar characters passes through a replacement unchanged. */
  lemma {:induction false} ReplaceSkip(a: string, b: string, pat: string, rep: string)
    requires |pat| == 2 && IsPunct(pat[0]) && forall i :: 0 <= i < |a| ==> !IsPunct(a[i])
    ensures Replace(a + b, pat, rep) == a + Replace(b, pat, rep)
    decreases |a|
  {
    if |a| > 0 {
      var s := a + b;
      assert s[0] == a[0] && !IsPunct(a[0]);
      assert s[1..] == a[1..] + b;
      ReplaceSkip(a[1..], b, pat, rep);
      if |s| >= 2 {
        assert s[..2][0] == s[0];
        assert s[..2] != pat;
        assert Replace(s, pat, rep) == [s[0]] + Replace(s[1..], pat, rep);
        assert a == [a[0]] + a[1..];
      } else {
        assert b == [] && a == s;
        assert Replace(s, pat, rep) == s;
      }
    } else {
      assert a + b == b;
    }
  }

  /** One replacement step of the cleaner: a two-character pattern and its replacement. */
  datatype Rule = Rule(pat: string, rep: string)

  predicate Shrinking(rule: Rule) {
    |rule.pat| == 2 && |rule.rep| < 2
  }

  predicate GrammarOnly(rule: Rule) {
    AllPunct(rule.pat) && AllPunct(rule.rep)
  }

  predicate Rules(rules: seq<Rule>) {
    forall rule <- rules :: Shrinking(rule) && GrammarOnly(rule)
  }

  /** The replacement lines of one loop body, in order. */
  function ApplyAll(s: string, rules: seq<Rule>): (r: string)
    requires Rules(rules)
    decreases |rules|
  {
    if |rules| == 0 then s
    else
      assert rules[0] in rules;
      assert forall rule <- rules[1..] :: rule in rules;
      ApplyAll(Replace(s, rules[0].pat, rules[0].rep), rules[1..])
  }

  /** The loop condition: some rule's pattern is still in the string. */
  predicate AnyOccurs(s: string, rules: seq<Rule>)
    requires Rules(rules)
  {
    exists rule <- rules :: Occurs(s, rule.pat)
  }

  /** A loop body never lengthens the string and shortens it whenever the loop condition holds. */
  lemma {:induction false} ApplyAllShrinks(s: string, rules: seq<Rule>)
    requires Rules(rules)
    ensures |ApplyAll(s, rules)| <= |s|
    ensures AnyOccurs(s, rules) ==> |ApplyAll(s, rules)| < |s|
    ensures Kept(ApplyAll(s, rules)) == Kept(s)
    decreases |rules|
  {
    if |rules| > 0 {
      var rule := rules[0];
      assert rule in rules;
      assert forall x <- rules[1..] :: x in rules;
      var t := Replace(s, rule.pat, rule.rep);
      ReplaceKept(s, rule.pat, rule.rep);
      ReplaceShrinks(s, rule.pat, rule.rep);
      ApplyAllShrinks(t, rules[1..]);
      if AnyOccurs(s, rules) && !Occurs(s, rule.pat) {
        var x :| x in rules && Occurs(s, x.pat);
        assert x in rules[1..];
      }
    }
  }

  /** A cleaning loop: apply every rule in turn while any of its patterns occurs; it ends because every pass shortens the text. */
  function Repeat(s: string, rules: seq<Rule>): (r: string)
    requires Rules(rules)
    ensures !AnyOccurs(r, rules)
    ensures |r| <= |s| && Kept(r) == Kept(s)
    ensures !AnyOccurs(s, rules) ==> r == s
    decreases |s|
  {
    if AnyOccurs(s, rules) then
      ApplyAllShrinks(s, rules);
      Repeat(ApplyAll(s, rules), rules)
    else s
  }

  /** A loop is done at once on a string it already leaves alone. */
  lemma {:induction false} RepeatIdempotent(s: string, rules: seq<Rule>)
    requires Rules(rules)
    ensures Repeat(Repeat(s, rules), rules) == Repeat(s, rules)
  {
  }

  function SquashRules(): (rules: seq<Rule>)
    ensures Rules(rules)
  {
    [Rule("^^", "^"), Rule("||", "|")]
  }

  function BracketRules(): (rules: seq<Rule>)
    ensures Rules(rules)
  {
    [Rule("(^", "("), Rule("(|", "("), Rule("^)", ")"), Rule("|)", ")")]
  }

  // ---- cutting the ends ----

  /** May not begin the cleaned string. */
  predicate LeadingJunk(c: char) {
    c == ')' || c == '^' || c == '|'
  }

  /** May not end the cleaned string. */
  predicate TrailingJunk(c: char) {
    c == '(' || c == '^' || c == '|'
  }

  /** The first index at or after `i` that is not a closing bracket or separator, or `|s|`. */
  function SkipFront(s: string, i: nat): (k: nat)
    requires i <= |s|
    ensures i <= k <= |s|
    ensures forall j :: i <= j < k ==> LeadingJunk(s[j])
    ensures k < |s| ==> !LeadingJunk(s[k])
    decreases |s| - i
  {
    if i < |s| && LeadingJunk(s[i]) then SkipFront(s, i + 1) else i
  }

  /** The last index at or before `i` that is not an opening bracket or separator, or -1. */
  function SkipBack(s: string, i: int): (k: int)
    requires -1 <= i < |s|
    ensures -1 <= k <= i
    ensures forall j :: k < j <= i ==> TrailingJunk(s[j])
    ensures k >= 0 ==> !TrailingJunk(s[k])
    decreases i + 1
  {
    if i >= 0 && TrailingJunk(s[i]) then SkipBack(s, i - 1) else i
  }

  /**
   * The last step: `requirements[start:end]`, or `''` when `start` runs off the end (Python's
   * slice is also empty when `start >= end`; `end < 0` never happens).
   */
  function Trim(s: string): (r: string)
    ensures r == [] || (!LeadingJunk(r[0]) && !TrailingJunk(r[|r| - 1]))
    ensures |r| <= |s|
  {
    var start := SkipFront(s, 0);
    var end := SkipBack(s, |s| - 1) + 1;
    if start >= |s| || end < 0 then ""
    else if start >= end then ""
    else s[start..end]
  }

  /** What is cut from the ends is grammar only, so the course codes survive trimming. */
  lemma {:induction false} TrimCodes(s: string)
    ensures Kept(Trim(s)) == Kept(s)
  {
    var start := SkipFront(s, 0);
    var end := SkipBack(s, |s| - 1) + 1;
    if start >= |s| || start >= end {
      KeptOfPunct(s);
      forall j | 0 <= j < |s|
        ensures IsPunct(s[j])
      {
        if j < start {
          assert LeadingJunk(s[j]);
        } else {
          assert TrailingJunk(s[j]);
        }
      }
    } else {
      CodesThree(s, start, end);
      KeptOfPunct(s[..start]);
      KeptOfPunct(s[end..]);
    }
  }

  /** The codes of a string cut in three pieces are the codes of the pieces. */
  lemma {:induction false} CodesThree(s: string, a: nat, b: nat)
    requires a <= b <= |s|
    ensures Kept(s) == Kept(s[..a]) + Kept(s[a..b]) + Kept(s[b..])
  {
    assert s == s[..a] + s[a..b] + s[b..];
    KeptAppend(s[..a] + s[a..b], s[b..]);
    KeptAppend(s[..a], s[a..b]);
  }

  /** The trimmed string is a piece of the input, and everything cut off is grammar. */
  lemma {:induction false} TrimInfix(s: string) returns (a: nat, b: nat)
    ensures a <= b <= |s| && Trim(s) == s[a..b]
    ensures forall j :: 0 <= j < |s| && (j < a || j >= b) ==> IsPunct(s[j])
  {
    var start := SkipFront(s, 0);
    var end := SkipBack(s, |s| - 1) + 1;
    if start >= |s| || start >= end {
      a, b := 0, 0;
      forall j | 0 <= j < |s|
        ensures IsPunct(s[j])
      {
        if j < start {
          assert LeadingJunk(s[j]);
        } else {
          assert TrailingJunk(s[j]);
        }
      }
    } else {
      a, b := start, end;
    }
  }

  /** A string with nothing to cut is left as it is. */
  lemma {:induction false} TrimClean(s: string)
    requires s != [] && !LeadingJunk(s[0]) && !TrailingJunk(s[|s| - 1])
    ensures Trim(s) == s
  {
  }

  // ---- the whole cleaner ----

  /** `clean_course_requirements` as written. */
  function Clean(s: string): (r: string)
    ensures Kept(r) == Kept(s)
    ensures r == [] || (!LeadingJunk(r[0]) && !TrailingJunk(r[|r| - 1]))
    ensures |r| <= |s|
  {
    var unpadded := Loops(s);
    var emptied := Replace(unpadded, "()", "");
    EmptyBracketsCodes(unpadded);
    TrimCodes(emptied);
    Trim(emptied)
  }

  /** The squashing loop and then the bracket loop; neither touches a course code. */
  function Loops(s: string): (r: string)
    ensures Kept(r) == Kept(s) && |r| <= |s|
  {
    Repeat(Repeat(s, SquashRules()), BracketRules())
  }

  /** Removing `()` keeps the course codes and does not lengthen the string. */
  lemma {:induction false} EmptyBracketsCodes(s: string)
    ensures Kept(Replace(s, "()", "")) == Kept(s) && |Replace(s, "()", "")| <= |s|
  {
    var rule := EmptyBracketRule();
    ReplaceKept(s, rule.pat, rule.rep);
  }

  /** `clean_course_requirements('||^|') == ''`. */
  lemma {:induction false} CleanExampleSeparators(s: string)
    requires s == "||^|"
    ensures Clean(s) == ""
  {
    var t := "|^|";
    ExampleSquashBars(s);
    ExampleUntouched(t);
    assert Loops(s) == t;
    CleanAfterLoops(s, t);
    ExampleTrimBars(t);
  }

  lemma {:induction false} ExampleTrimBars(t: string)
    requires t == "|^|"
    ensures Trim(t) == ""
  {
    assert SkipFront(t, 0) == 3;
  }

  lemma {:induction false} ExampleSquashBars(s: string)
    requires s == "||^|"
    ensures Repeat(s, SquashRules()) == "|^|"
  {
    var t := "|^|";
    ExampleSquashBarsPass(s, t);
    ExampleSquashBarsFires(s);
    ExampleSquashBarsDone(t);
  }

  /** One pass of the first loop turns `||^|` into `|^|`. */
  lemma {:induction false} ExampleSquashBarsPass(s: string, t: string)
    requires s == "||^|" && t == "|^|"
    ensures ApplyAll(s, SquashRules()) == t
  {
    assert !Occurs(s, "^^");
    ReplaceShrinks(s, "^^", "^");
    var p := "||";
    ReplaceHit(s, p, "|");
    ReplaceMiss(s[2..], p, "|");
    assert s[2..][1..] == "|";
    SquashBody(s);
  }

  lemma {:induction false} ExampleSquashBarsFires(s: string)
    requires s == "||^|"
    ensures AnyOccurs(s, SquashRules())
  {
    assert Occurs(s, "||") by { assert s[0] == '|' && s[1] == '|'; }
    var rules := SquashRules();
    assert rules[1] in rules;
  }

  lemma {:induction false} ExampleSquashBarsDone(t: string)
    requires t == "|^|"
    ensures !AnyOccurs(t, SquashRules())
  {
    assert !Occurs(t, "^^") && !Occurs(t, "||");
    var rules := SquashRules();
    assert forall rule <- rules :: rule == rules[0] || rule == rules[1];
  }

  /** The body of the first loop. */
  lemma {:induction false} SquashBody(s: string)
    ensures ApplyAll(s, SquashRules()) == Replace(Replace(s, "^^", "^"), "||", "|")
  {
    var rules := SquashRules();
    assert rules[1..][1..] == [];
  }

  /** The body of the second loop. */
  lemma {:induction false} BracketBody(s: string)
    ensures ApplyAll(s, BracketRules()) ==
              Replace(Replace(Replace(Replace(s, "(^", "("), "(|", "("), "^)", ")"), "|)", ")")
  {
    var rules := BracketRules();
    assert rules[1..][1..][1..][1..] == [];
  }

  lemma {:induction false} ExampleUntouched(s: string)
    requires s == "|^|"
    ensures Repeat(s, BracketRules()) == s
    ensures Replace(s, "()", "") == s
  {
    assert !Occurs(s, "(^") && !Occurs(s, "(|") && !Occurs(s, "^)") && !Occurs(s, "|)") && !Occurs(s, "()");
    ReplaceShrinks(s, "()", "");
  }

  /** `clean_course_requirements('ARH482H1(^)^^') == 'ARH482H1'`. */
  lemma {:induction false} CleanExampleCode(s: string)
    requires s == "ARH482H1(^)^^"
    ensures Clean(s) == "ARH482H1"
  {
    ExampleSquashCode(s);
    ExampleBracketCode("ARH482H1(^)^");
    ExampleEmptyCode("ARH482H1()^");
    ExampleTrimCode("ARH482H1^");
  }

  /** `ARH482H1`, which no rule touches. */
  lemma {:induction false} ExampleCodePrefix(a: string)
    requires a == "ARH482H1"
    ensures forall i :: 0 <= i < |a| ==> !IsPunct(a[i])
  {
  }

  /** A pattern starting with a grammar character cannot begin inside a course code. */
  lemma {:induction false} OccursSkip(a: string, x: string, pat: string)
    requires |pat| == 2 && IsPunct(pat[0]) && forall i :: 0 <= i < |a| ==> !IsPunct(a[i])
    ensures Occurs(a + x, pat) <==> Occurs(x, pat)
    decreases |a|
  {
    if |a| > 0 {
      var s := a + x;
      assert s[0] == a[0] && s[1..] == a[1..] + x;
      OccursCons(s, pat);
      OccursSkip(a[1..], x, pat);
      if |s| >= 2 {
        assert s[..2][0] == s[0];
      }
    } else {
      assert a + x == x;
    }
  }

  lemma {:induction false} ExampleSquashCode(s: string)
    requires s == "ARH482H1(^)^^"
    ensures Repeat(s, SquashRules()) == "ARH482H1(^)^"
  {
    var t := "ARH482H1(^)^";
    ExampleSquashReplace(s);
    ExampleSquashOccurs(s, t);
    ReplaceShrinks(t, "||", "|");
    SquashBody(s);
    var rules := SquashRules();
    assert forall rule <- rules :: rule == rules[0] || rule == rules[1];
    assert !AnyOccurs(t, rules) && AnyOccurs(s, rules);
  }

  lemma {:induction false} ExampleSquashReplace(s: string)
    requires s == "ARH482H1(^)^^"
    ensures Replace(s, "^^", "^") == "ARH482H1(^)^"
  {
    var a := "ARH482H1";
    ExampleCodePrefix(a);
    assert s == a + "(^)^^" && "ARH482H1(^)^" == a + "(^)^";
    ReplaceSkip(a, "(^)^^", "^^", "^");
    ExampleSquashTail("(^)^^");
  }

  lemma {:induction false} ExampleSquashTail(x: string)
    requires x == "(^)^^"
    ensures Replace(x, "^^", "^") == "(^)^"
  {
    var p := "^^";
    var y := x[1..];
    var z := y[1..];
    var w := z[1..];
    assert w == "^^" && w[2..] == [];
    ReplaceMiss(x, p, "^");
    ReplaceMiss(y, p, "^");
    ReplaceMiss(z, p, "^");
    ReplaceHit(w, p, "^");
  }

  lemma {:induction false} ExampleSquashOccurs(s: string, t: string)
    requires s == "ARH482H1(^)^^" && t == "ARH482H1(^)^"
    ensures Occurs(s, "^^") && !Occurs(t, "^^") && !Occurs(t, "||")
  {
    var a := "ARH482H1";
    ExampleCodePrefix(a);
    assert s == a + "(^)^^" && t == a + "(^)^";
    OccursSkip(a, "(^)^", "||");
    OccursSkip(a, "(^)^", "^^");
    OccursSkip(a, "(^)^^", "^^");
    assert !Occurs("(^)^", "||") && !Occurs("(^)^", "^^");
    assert Occurs("(^)^^", "^^") by { assert "(^)^^"[3] == '^' && "(^)^^"[4] == '^'; }
  }

  lemma {:induction false} ExampleBracketCode(s: string)
    requires s == "ARH482H1(^)^"
    ensures Repeat(s, BracketRules()) == "ARH482H1()^"
  {
    var t := "ARH482H1()^";
    ExampleBracketPass(s, t);
    ExampleBracketFires(s);
    ExampleBracketsGone(t);
  }

  /** One pass of the second loop turns `ARH482H1(^)^` into `ARH482H1()^`. */
  lemma {:induction false} ExampleBracketPass(s: string, t: string)
    requires s == "ARH482H1(^)^" && t == "ARH482H1()^"
    ensures ApplyAll(s, BracketRules()) == t
  {
    var a := "ARH482H1";
    ExampleCodePrefix(a);
    assert Replace(s, "(^", "(") == t by {
      assert s == a + "(^)^" && t == a + "()^";
      ReplaceSkip(a, "(^)^", "(^", "(");
      assert Replace("(^)^", "(^", "(") == "()^";
    }
    ExampleBracketsGone(t);
    ReplaceShrinks(t, "(|", "(");
    ReplaceShrinks(t, "^)", ")");
    ReplaceShrinks(t, "|)", ")");
    BracketBody(s);
  }

  lemma {:induction false} ExampleBracketFires(s: string)
    requires s == "ARH482H1(^)^"
    ensures AnyOccurs(s, BracketRules())
  {
    var a := "ARH482H1";
    ExampleCodePrefix(a);
    assert s == a + "(^)^";
    OccursSkip(a, "(^)^", "(^");
    assert Occurs("(^)^", "(^") by { assert "(^)^"[0] == '(' && "(^)^"[1] == '^'; }
    var rules := BracketRules();
    assert rules[0] in rules;
  }

  lemma {:induction false} ExampleBracketsGone(t: string)
    requires t == "ARH482H1()^"
    ensures !Occurs(t, "(^") && !Occurs(t, "(|") && !Occurs(t, "^)") && !Occurs(t, "|)")
    ensures !AnyOccurs(t, BracketRules())
  {
    var a := "ARH482H1";
    ExampleCodePrefix(a);
    assert t == a + "()^";
    OccursSkip(a, "()^", "(^");
    OccursSkip(a, "()^", "(|");
    OccursSkip(a, "()^", "^)");
    OccursSkip(a, "()^", "|)");
    assert !Occurs("()^", "(^") && !Occurs("()^", "(|") && !Occurs("()^", "^)") && !Occurs("()^", "|)");
    var rules := BracketRules();
    assert forall rule <- rules :: rule == rules[0] || rule == rules[1] || rule == rules[2] || rule == rules[3];
  }

  lemma {:induction false} ExampleEmptyCode(s: string)
    requires s == "ARH482H1()^"
    ensures Replace(s, "()", "") == "ARH482H1^"
  {
    var a := "ARH482H1";
    ExampleCodePrefix(a);
    assert s == a + "()^";
    ReplaceSkip(a, "()^", "()", "");
    assert Replace("()^", "()", "") == "^";
  }

  lemma {:induction false} ExampleTrimCode(s: string)
    requires s == "ARH482H1^"
    ensures Trim(s) == "ARH482H1"
  {
    assert SkipBack(s, 7) == 7;
    assert SkipBack(s, 8) == 7;
    assert SkipFront(s, 0) == 0;
  }

  // ---- what the single pass over `()` leaves behind ----

  function EmptyBracketRule(): (rule: Rule)
    ensures Shrinking(rule) && GrammarOnly(rule)
  {
    Rule("()", "")
  }

  /** Every replacement of the cleaner, squashing included, in one loop. */
  function AllRules(): (rules: seq<Rule>)
    ensures Rules(rules)
  {
    SquashRules() + BracketRules() + [EmptyBracketRule()]
  }

  lemma {:induction false} AnyOccursInfix(t: string, a: nat, b: nat, rules: seq<Rule>)
    requires Rules(rules) && a <= b <= |t| && !AnyOccurs(t, rules)
    ensures !AnyOccurs(t[a..b], rules)
  {
    forall rule <- rules
      ensures !Occurs(t[a..b], rule.pat)
    {
      OccursInfix(t, a, b, rule.pat);
    }
  }

  /** Cutting the ends cannot bring a pattern back. */
  lemma {:induction false} TrimKeepsAbsent(t: string, rules: seq<Rule>)
    requires Rules(rules) && !AnyOccurs(t, rules)
    ensures !AnyOccurs(Trim(t), rules)
  {
    var a, b := TrimInfix(t);
    AnyOccursInfix(t, a, b, rules);
  }

  /**
   * The cleaner as its documentation describes it: the replacements are repeated together until
   * none applies, so no doubled separator, padded bracket or empty bracket pair is left, and the
   * ends are then cut as before.
   */
  function CleanFixed(s: string): (r: string)
    ensures Kept(r) == Kept(s)
    ensures r == [] || (!LeadingJunk(r[0]) && !TrailingJunk(r[|r| - 1]))
    ensures !AnyOccurs(r, AllRules())
    ensures |r| <= |s|
  {
    var tidy := Repeat(s, AllRules());
    TrimCodes(tidy);
    TrimKeepsAbsent(tidy, AllRules());
    Trim(tidy)
  }

  /** A string without doubled or padded separators passes both loops unchanged. */
  lemma {:induction false} LoopsIdle(s: string)
    requires !Occurs(s, "^^") && !Occurs(s, "||")
    requires !Occurs(s, "(^") && !Occurs(s, "(|") && !Occurs(s, "^)") && !Occurs(s, "|)")
    ensures Loops(s) == s
  {
    var sq, br := SquashRules(), BracketRules();
    assert forall rule <- sq :: rule == sq[0] || rule == sq[1];
    assert !AnyOccurs(s, sq);
    assert forall rule <- br :: rule == br[0] || rule == br[1] || rule == br[2] || rule == br[3];
    assert !AnyOccurs(s, br);
  }

  /** After the two loops the cleaner only removes `()` once and cuts the ends. */
  lemma {:induction false} CleanAfterLoops(s: string, u: string)
    requires Loops(s) == u
    ensures Clean(s) == Trim(Replace(u, "()", ""))
  {
  }

  /** The corrected cleaner leaves no doubled `^` behind. */
  lemma {:induction false} FixedNoDoubleCaret(s: string)
    ensures !Occurs(CleanFixed(s), "^^")
  {
    var rules := AllRules();
    assert rules[0] == Rule("^^", "^");
    assert rules[0] in rules;
  }

  /** The corrected cleaner leaves no empty bracket pair behind. */
  lemma {:induction false} FixedNoEmptyBrackets(s: string)
    ensures !Occurs(CleanFixed(s), "()")
  {
    var rules := AllRules();
    assert rules[6] == Rule("()", "");
    assert rules[6] in rules;
  }

  /** `A^()^B` cleans to `A^^B`: removing the empty brackets joins two separators after squashing is over. */
  lemma {:induction false} CleanLeavesDoubleSeparator(s: string)
    requires s == "A^()^B"
    ensures Clean(s) == "A^^B" && Occurs(Clean(s), "^^")
    ensures !Occurs(CleanFixed(s), "^^")
  {
    ExampleSeparatedIdle(s);
    CleanAfterLoops(s, s);
    ExampleJoinSeparators(s);
    ExampleDoubleCaret("A^^B");
    FixedNoDoubleCaret(s);
  }

  lemma {:induction false} ExampleSeparatedIdle(s: string)
    requires s == "A^()^B"
    ensures Loops(s) == s
  {
    assert !Occurs(s, "^^") && !Occurs(s, "||");
    assert !Occurs(s, "(^") && !Occurs(s, "(|") && !Occurs(s, "^)") && !Occurs(s, "|)");
    LoopsIdle(s);
  }

  lemma {:induction false} ExampleDoubleCaret(t: string)
    requires t == "A^^B"
    ensures Trim(t) == t && Occurs(t, "^^")
  {
    TrimClean(t);
    assert t[1] == '^' && t[2] == '^';
  }

  lemma {:induction false} ExampleJoinSeparators(s: string)
    requires s == "A^()^B"
    ensures Replace(s, "()", "") == "A^^B"
  {
    assert Replace("B", "()", "") == "B";
    assert "^B"[..2] != "()" by { assert "^B"[..2][0] == '^' && "()"[0] == '('; }
    assert Replace("^B", "()", "") == "^B";
    assert Replace("()^B", "()", "") == "^B";
    assert Replace("^()^B", "()", "") == "^^B";
  }

  lemma {:induction false} ExampleNestedIdle(s: string)
    requires s == "(())"
    ensures Loops(s) == s
  {
    assert !Occurs(s, "^^") && !Occurs(s, "||");
    assert !Occurs(s, "(^") && !Occurs(s, "(|") && !Occurs(s, "^)") && !Occurs(s, "|)");
    LoopsIdle(s);
  }

  /** `(())` cleans to `()`: the single pass removes only the inner pair. */
  lemma {:induction false} CleanLeavesEmptyBrackets(s: string)
    requires s == "(())"
    ensures Clean(s) == "()" && Occurs(Clean(s), "()")
    ensures !Occurs(CleanFixed(s), "()")
  {
    ExampleNestedIdle(s);
    CleanAfterLoops(s, s);
    ExampleNestedReplace(s);
    ExampleBracketPair("()");
    FixedNoEmptyBrackets(s);
  }

  lemma {:induction false} ExampleNestedReplace(s: string)
    requires s == "(())"
    ensures Replace(s, "()", "") == "()"
  {
    var p := "()";
    ReplaceMiss(s, p, "");
    ReplaceHit(s[1..], p, "");
    assert s[1..][2..] == [')'];
  }

  lemma {:induction false} ExampleBracketPair(t: string)
    requires t == "()"
    ensures Trim(t) == t && Occurs(t, "()")
  {
    TrimClean(t);
    assert t[0] == '(' && t[1] == ')';
  }
}
