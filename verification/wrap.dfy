/**
 * The word wrapper used when course details are displayed: the text is cut
 * into words at white space, the words are laid out again with one space
 * after each, and a line break is put before a word whenever that word would
 * push the running line length past the width. The same routine exists twice,
 * with widths 100 and 50.
 *
 * `Layout` follows the loop as written; `Break` groups the words into lines
 * explicitly, and `Greedy` says, without reference to either, what a correct
 * grouping is. The lemmas tie the three together.
 */
module WordWrap {
  import opened Text

  /** A word as `str.split` produces it: non-empty, no white space inside. */
  predicate IsWord(w: string) {
    |w| > 0 && forall i :: 0 <= i < |w| ==> !IsSpace(w[i])
  }

  predicate AllWords(ws: seq<string>) {
    forall k :: 0 <= k < |ws| ==> IsWord(ws[k])
  }

  predicate AllSpace(s: string) {
    forall i :: 0 <= i < |s| ==> IsSpace(s[i])
  }

  // ---------------------------------------------------------------- split

  /** Length of the longest prefix of `s` without white space. */
  function WordLen(s: string): (n: nat)
    ensures n <= |s|
    ensures forall i :: 0 <= i < n ==> !IsSpace(s[i])
    ensures n < |s| ==> IsSpace(s[n])
  {
    if |s| == 0 || IsSpace(s[0]) then 0 else 1 + WordLen(s[1..])
  }

  /** `s.split()`: the maximal runs of non-white-space characters, in order. */
  function Words(s: string): (ws: seq<string>)
    ensures AllWords(ws)
    decreases |s|
  {
    if |s| == 0 then []
    else if IsSpace(s[0]) then Words(s[1..])
    else
      var n := WordLen(s);
      [s[..n]] + Words(s[n..])
  }

  /** White space in front of a text adds no word. */
  lemma {:induction false} WordsSkipSpace(a: string, b: string)
    requires AllSpace(a)
    ensures Words(a + b) == Words(b)
    decreases |a|
  {
    if |a| > 0 {
      assert (a + b)[0] == a[0];
      assert (a + b)[1..] == a[1..] + b;
      WordsSkipSpace(a[1..], b);
    } else {
      assert a + b == b;
    }
  }

  /** A word followed by white space (or nothing) is split off whole. */
  lemma {:induction false} WordsWordThen(w: string, rest: string)
    requires IsWord(w)
    requires rest == [] || IsSpace(rest[0])
    ensures Words(w + rest) == [w] + Words(rest)
  {
    var s := w + rest;
    assert s[0] == w[0];
    var n := WordLen(s);
    assert forall i :: 0 <= i < |w| ==> s[i] == w[i];
    assert |w| < |s| ==> s[|w|] == rest[0];
    assert n == |w|;
    assert s[..n] == w;
    assert s[n..] == rest;
  }

  // ---------------------------------------------------------------- strip

  /** `lstrip()`: drop the white space in front. */
  function StripFront(s: string): (r: string)
    ensures |r| <= |s| && r == s[|s| - |r|..]
    ensures AllSpace(s[..|s| - |r|])
    ensures r == [] || !IsSpace(r[0])
  {
    if |s| > 0 && IsSpace(s[0]) then
      var r := StripFront(s[1..]);
      StripFrontStep(s, r);
      r
    else s
  }

  /** `rstrip()`: drop the white space at the end. */
  function StripBack(s: string): (r: string)
    ensures |r| <= |s| && r == s[..|r|]
    ensures AllSpace(s[|r|..])
    ensures r == [] || !IsSpace(r[|r| - 1])
  {
    if |s| > 0 && IsSpace(s[|s| - 1]) then
      var r := StripBack(s[..|s| - 1]);
      StripBackStep(s, r);
      r
    else s
  }

  /** A white-space character in front of what `lstrip()` removes from the rest is removed too. */
  lemma {:induction false} StripFrontStep(s: string, r: string)
    requires |s| > 0 && IsSpace(s[0])
    requires |r| <= |s| - 1 && r == s[1..][|s| - 1 - |r|..] && AllSpace(s[1..][..|s| - 1 - |r|])
    ensures |r| <= |s| && r == s[|s| - |r|..] && AllSpace(s[..|s| - |r|])
  {
    var k := |s| - |r|;
    assert s[k..] == s[1..][k - 1..];
    forall i | 0 < i < k ensures IsSpace(s[i]) {
      assert s[i] == s[1..][..k - 1][i - 1];
    }
  }

  /** A white-space character behind what `rstrip()` removes from the rest is removed too. */
  lemma {:induction false} StripBackStep(s: string, r: string)
    requires |s| > 0 && IsSpace(s[|s| - 1])
    requires |r| <= |s| - 1 && r == s[..|s| - 1][..|r|] && AllSpace(s[..|s| - 1][|r|..])
    ensures |r| <= |s| && r == s[..|r|] && AllSpace(s[|r|..])
  {
    assert s[..|r|] == s[..|s| - 1][..|r|];
    forall i | |r| <= i < |s| - 1 ensures IsSpace(s[i]) {
      assert s[i] == s[..|s| - 1][|r|..][i - |r|];
    }
  }

  /** `strip()`: the text without white space at either end. */
  function Strip(s: string): (r: string)
    ensures |r| <= |s|
    ensures r == [] || (!IsSpace(r[0]) && !IsSpace(r[|r| - 1]))
    ensures exists a, b :: 0 <= a <= b <= |s| && r == s[a..b] && AllSpace(s[..a]) && AllSpace(s[b..])
  {
    var f := StripFront(s);
    var r := StripBack(f);
    assert r != [] ==> r[0] == f[0];
    var a := |s| - |f|;
    var b := a + |r|;
    assert s[a..b] == f[..|r|];
    assert s[b..] == f[|r|..];
    r
  }

  lemma {:induction false} StripFrontSkip(a: string, b: string)
    requires AllSpace(a)
    requires b == [] || !IsSpace(b[0])
    ensures StripFront(a + b) == b
    decreases |a|
  {
    if |a| > 0 {
      assert (a + b)[0] == a[0];
      assert (a + b)[1..] == a[1..] + b;
      StripFrontSkip(a[1..], b);
    } else {
      assert a + b == b;
    }
  }

  lemma {:induction false} StripBackSkip(b: string, c: string)
    requires AllSpace(c)
    requires b == [] || !IsSpace(b[|b| - 1])
    ensures StripBack(b + c) == b
    decreases |c|
  {
    if |c| > 0 {
      var s := b + c;
      assert s[|s| - 1] == c[|c| - 1];
      assert s[..|s| - 1] == b + c[..|c| - 1];
      StripBackSkip(b, c[..|c| - 1]);
    } else {
      assert b + c == b;
    }
  }

  /** A text already without white space at its ends survives `strip()` under added space. */
  lemma {:induction false} StripPadded(lead: string, body: string)
    requires AllSpace(lead)
    requires |body| > 0 && !IsSpace(body[0]) && !IsSpace(body[|body| - 1])
    ensures Strip(lead + body + " ") == body
  {
    assert lead + body + " " == lead + (body + " ");
    assert (body + " ")[0] == body[0];
    StripFrontSkip(lead, body + " ");
    StripBackSkip(body, " ");
  }

  // ---------------------------------------------------------------- lines

  /** The running `line_length` after the words of one line: each word plus its space. */
  function Width(line: seq<string>): nat
  {
    if |line| == 0 then 0 else |line[0]| + 1 + Width(line[1..])
  }

  /** `' '.join(line)`: one printed line without its trailing space. */
  function Unwords(line: seq<string>): string
  {
    if |line| == 0 then ""
    else if |line| == 1 then line[0]
    else line[0] + " " + Unwords(line[1..])
  }

  /** The printed lines, each but the last keeping the space the loop wrote before the break. */
  function Render(lines: seq<seq<string>>): string
  {
    if |lines| == 0 then ""
    else if |lines| == 1 then Unwords(lines[0])
    else Unwords(lines[0]) + " \n" + Render(lines[1..])
  }

  /** The words of all lines, in order. */
  function Flatten(lines: seq<seq<string>>): seq<string>
  {
    if |lines| == 0 then [] else lines[0] + Flatten(lines[1..])
  }

  /** Every line holds at least one word, and only words. */
  predicate WordLines(lines: seq<seq<string>>) {
    forall i :: 0 <= i < |lines| ==> lines[i] != [] && AllWords(lines[i])
  }

  /**
   * What a greedy wrap of `ws` at `width` is: the lines hold the words in
   * order; a printed line is at most `width` characters unless it holds a
   * single word; and a line ends only where its next word would not fit.
   */
  predicate Greedy(lines: seq<seq<string>>, ws: seq<string>, width: int) {
    && Flatten(lines) == ws
    && WordLines(lines)
    && (forall i :: 0 <= i < |lines| ==> |Unwords(lines[i])| <= width || |lines[i]| == 1)
    && (forall i :: 0 <= i < |lines| - 1 ==> |Unwords(lines[i])| + 1 + |lines[i + 1][0]| > width)
  }

  lemma {:induction false} WidthAppend(a: seq<string>, w: string)
    ensures Width(a + [w]) == Width(a) + |w| + 1
    decreases |a|
  {
    if |a| > 0 {
      assert (a + [w])[0] == a[0];
      assert (a + [w])[1..] == a[1..] + [w];
      WidthAppend(a[1..], w);
    } else {
      assert a + [w] == [w];
      assert [w][1..] == [];
    }
  }

  lemma {:induction false} UnwordsAppend(a: seq<string>, w: string)
    requires |a| > 0
    ensures Unwords(a + [w]) == Unwords(a) + " " + w
    decreases |a|
  {
    assert (a + [w])[0] == a[0];
    assert (a + [w])[1..] == a[1..] + [w];
    if |a| > 1 {
      UnwordsAppend(a[1..], w);
    } else {
      assert a[1..] + [w] == [w];
    }
  }

  /** The printed line is the running line length less the trailing space. */
  lemma {:induction false} UnwordsLength(line: seq<string>)
    requires |line| > 0
    ensures |Unwords(line)| == Width(line) - 1
    decreases |line|
  {
    if |line| > 1 {
      UnwordsLength(line[1..]);
    } else {
      assert line[1..] == [];
    }
  }

  lemma {:induction false} UnwordsEdges(line: seq<string>)
    requires |line| > 0 && AllWords(line)
    ensures |Unwords(line)| > 0
    ensures Unwords(line)[0] == line[0][0]
    ensures !IsSpace(Unwords(line)[|Unwords(line)| - 1])
    decreases |line|
  {
    assert IsWord(line[0]);
    if |line| > 1 {
      assert AllWords(line[1..]) by {
        forall k | 0 <= k < |line[1..]| ensures IsWord(line[1..][k]) {
          assert line[1..][k] == line[k + 1];
        }
      }
      UnwordsEdges(line[1..]);
    }
  }

  lemma {:induction false} RenderEdges(lines: seq<seq<string>>)
    requires |lines| > 0 && WordLines(lines)
    ensures |Render(lines)| > 0
    ensures !IsSpace(Render(lines)[0])
    ensures !IsSpace(Render(lines)[|Render(lines)| - 1])
    decreases |lines|
  {
    UnwordsEdges(lines[0]);
    assert IsWord(lines[0][0]);
    if |lines| > 1 {
      assert WordLines(lines[1..]) by {
        forall i | 0 <= i < |lines[1..]| ensures lines[1..][i] != [] && AllWords(lines[1..][i]) {
          assert lines[1..][i] == lines[i + 1];
        }
      }
      RenderEdges(lines[1..]);
    }
  }

  lemma {:induction false} FlattenCons(line: seq<string>, rest: seq<seq<string>>)
    ensures Flatten([line] + rest) == line + Flatten(rest)
  {
    assert ([line] + rest)[0] == line;
    assert ([line] + rest)[1..] == rest;
  }

  /** Reading a line back gives its words. */
  lemma {:induction false} WordsUnwords(line: seq<string>, tail: string)
    requires |line| > 0 && AllWords(line)
    requires tail == [] || IsSpace(tail[0])
    ensures Words(Unwords(line) + tail) == line + Words(tail)
    decreases |line|
  {
    assert IsWord(line[0]);
    if |line| == 1 {
      WordsWordThen(line[0], tail);
      assert line == [line[0]];
    } else {
      var more := Unwords(line[1..]) + tail;
      assert AllWords(line[1..]) by {
        forall k | 0 <= k < |line[1..]| ensures IsWord(line[1..][k]) {
          assert line[1..][k] == line[k + 1];
        }
      }
      calc {
        Words(Unwords(line) + tail);
        { assert Unwords(line) + tail == line[0] + (" " + more); }
        Words(line[0] + (" " + more));
        { WordsWordThen(line[0], " " + more); }
        [line[0]] + Words(" " + more);
        { WordsSkipSpace(" ", more); }
        [line[0]] + Words(more);
        { WordsUnwords(line[1..], tail); }
        [line[0]] + (line[1..] + Words(tail));
        { assert line == [line[0]] + line[1..]; }
        line + Words(tail);
      }
    }
  }

  /** Reading the printed text back gives the words of all lines: `Render` loses no word. */
  lemma {:induction false} WordsRender(lines: seq<seq<string>>)
    requires WordLines(lines)
    ensures Words(Render(lines)) == Flatten(lines)
    decreases |lines|
  {
    if |lines| == 1 {
      WordsUnwords(lines[0], "");
      assert Unwords(lines[0]) + "" == Unwords(lines[0]);
      assert lines[0] + [] == lines[0];
      assert Flatten(lines) == lines[0] + Flatten([]);
    } else if |lines| > 1 {
      var more := Render(lines[1..]);
      assert WordLines(lines[1..]) by {
        forall i | 0 <= i < |lines[1..]| ensures lines[1..][i] != [] && AllWords(lines[1..][i]) {
          assert lines[1..][i] == lines[i + 1];
        }
      }
      assert Render(lines) == Unwords(lines[0]) + (" \n" + more);
      WordsUnwords(lines[0], " \n" + more);
      WordsSkipSpace(" \n", more);
      WordsRender(lines[1..]);
    }
  }

  // ---------------------------------------------------------------- wrap

  /**
   * The loop of `split_string`, from the remaining words and the running
   * line length: a break goes before a word when the word's length plus
   * the line length exceeds the width, and every word is followed by a space.
   */
  function Layout(ws: seq<string>, width: int, lineLength: int): (r: string)
    ensures ws == [] <==> r == ""
  {
    if |ws| == 0 then ""
    else
      var w := ws[0];
      var broken := |w| + lineLength > width;
      (if broken then "\n" else "") + w + " "
        + Layout(ws[1..], width, (if broken then 0 else lineLength) + |w| + 1)
  }

  /** The same decisions as `Layout`, as lines: `cur` is the line being filled. */
  function BreakFrom(ws: seq<string>, width: int, cur: seq<string>): (lines: seq<seq<string>>)
    ensures |lines| == 0 <==> cur == [] && ws == []
    ensures |lines| > 0 ==> lines[0] != [] && lines[0][0] == (cur + ws)[0]
  {
    if |ws| == 0 then (if cur == [] then [] else [cur])
    else if |ws[0]| + Width(cur) > width then
      (if cur == [] then [] else [cur]) + BreakFrom(ws[1..], width, [ws[0]])
    else
      BreakFrom(ws[1..], width, cur + [ws[0]])
  }

  function Break(ws: seq<string>, width: int): (lines: seq<seq<string>>)
    ensures |lines| == 0 <==> ws == []
  {
    BreakFrom(ws, width, [])
  }

  /** The lines `BreakFrom` closes form a greedy wrap of the words it was given. */
  lemma {:induction false} BreakFromGreedy(ws: seq<string>, width: int, cur: seq<string>)
    requires AllWords(ws) && AllWords(cur)
    requires cur == [] || |Unwords(cur)| <= width || |cur| == 1
    ensures Greedy(BreakFrom(ws, width, cur), cur + ws, width)
    decreases |ws|
  {
    if |ws| == 0 {
      GreedyLast(cur, width);
    } else {
      var w := ws[0];
      AllWordsTail(ws);
      assert cur + ws == cur + [w] + ws[1..];
      assert [w] + ws[1..] == ws;
      if |w| + Width(cur) > width {
        BreakFromGreedy(ws[1..], width, [w]);
        if cur == [] {
          assert BreakFrom(ws, width, cur) == BreakFrom(ws[1..], width, [w]);
          assert cur + ws == ws;
        } else {
          assert BreakFrom(ws, width, cur) == [cur] + BreakFrom(ws[1..], width, [w]);
          UnwordsLength(cur);
          GreedyCons(cur, BreakFrom(ws[1..], width, [w]), ws, width);
        }
      } else {
        GreedyFits(cur, w, width);
        BreakKeep(ws, width, cur);
        BreakFromGreedy(ws[1..], width, cur + [w]);
        assert cur + [w] + ws[1..] == cur + ws;
      }
    }
  }

  lemma {:induction false} AllWordsTail(ws: seq<string>)
    requires |ws| > 0 && AllWords(ws)
    ensures IsWord(ws[0]) && AllWords(ws[1..])
  {
    forall k | 0 <= k < |ws[1..]| ensures IsWord(ws[1..][k]) {
      assert ws[1..][k] == ws[k + 1];
    }
  }

  /** The open line, if any, is the whole wrap once the words run out. */
  lemma {:induction false} GreedyLast(cur: seq<string>, width: int)
    requires AllWords(cur)
    requires cur == [] || |Unwords(cur)| <= width || |cur| == 1
    ensures Greedy(BreakFrom([], width, cur), cur + [], width)
  {
    assert cur + [] == cur;
    if cur != [] {
      FlattenCons(cur, []);
      assert [cur] + [] == [cur];
    }
  }

  /** A word that fits keeps the open line within the width. */
  lemma {:induction false} GreedyFits(cur: seq<string>, w: string, width: int)
    requires AllWords(cur) && IsWord(w)
    requires cur == [] || |Unwords(cur)| <= width || |cur| == 1
    requires |w| + Width(cur) <= width
    ensures AllWords(cur + [w])
    ensures |Unwords(cur + [w])| <= width || |cur + [w]| == 1
  {
    var next := cur + [w];
    forall k | 0 <= k < |next| ensures IsWord(next[k]) {
      if k < |cur| {
        assert next[k] == cur[k];
      }
    }
    if cur == [] {
      assert next == [w];
    } else {
      UnwordsAppend(cur, w);
      UnwordsLength(cur);
    }
  }

  /** A full line in front of a greedy wrap, when the wrap's first word would not have fit on it. */
  lemma {:induction false} GreedyCons(cur: seq<string>, rest: seq<seq<string>>, ws: seq<string>, width: int)
    requires Greedy(rest, ws, width) && |ws| > 0
    requires cur != [] && AllWords(cur) && (|Unwords(cur)| <= width || |cur| == 1)
    requires |Unwords(cur)| + 1 + |ws[0]| > width
    ensures Greedy([cur] + rest, cur + ws, width)
  {
    var lines := [cur] + rest;
    FlattenCons(cur, rest);
    assert rest != [];
    assert Flatten(rest) == rest[0] + Flatten(rest[1..]);
    assert rest[0][0] == ws[0];
    forall i | 0 <= i < |lines|
      ensures lines[i] != [] && AllWords(lines[i])
      ensures |Unwords(lines[i])| <= width || |lines[i]| == 1
    {
      if i > 0 {
        assert lines[i] == rest[i - 1];
      }
    }
    forall i | 0 <= i < |lines| - 1
      ensures |Unwords(lines[i])| + 1 + |lines[i + 1][0]| > width
    {
      if i > 0 {
        assert lines[i] == rest[i - 1];
        assert lines[i + 1] == rest[i];
      }
    }
  }

  lemma {:induction false} BreakGreedy(ws: seq<string>, width: int)
    requires AllWords(ws)
    ensures Greedy(Break(ws, width), ws, width)
  {
    BreakFromGreedy(ws, width, []);
    assert [] + ws == ws;
  }

  /** A one-word line is that word, and takes its length plus the separator. */
  lemma {:induction false} SingleLine(w: string)
    ensures Width([w]) == |w| + 1 && Unwords([w]) == w
  {
    assert [w][1..] == [];
  }

  /** Rendering a first line followed by more lines. */
  lemma {:induction false} RenderCons(line: seq<string>, rest: seq<seq<string>>)
    requires rest != []
    ensures Render([line] + rest) == Unwords(line) + " \n" + Render(rest)
  {
    var lines := [line] + rest;
    assert lines[0] == line && lines[1..] == rest;
  }

  /** The text around a break: the open line, its space, the break and the rest. */
  lemma {:induction false} BreakText(u: string, w: string, after: string, tail: string)
    requires w + " " + after == tail + " "
    ensures u + " " + ("\n" + w + " " + after) == (u + " \n" + tail) + " "
  {
    calc {
      u + " " + ("\n" + w + " " + after);
      u + " " + ("\n" + (w + " " + after));
      u + " " + ("\n" + (tail + " "));
      (u + " \n" + tail) + " ";
    }
  }

  /** The break case of `LayoutFrom`, given the claim for the remaining words. */
  lemma {:induction false} LayoutBreakStep(ws: seq<string>, width: int, cur: seq<string>)
    requires |cur| > 0 && |ws| > 0 && |ws[0]| + Width(cur) > width
    requires ws[0] + " " + Layout(ws[1..], width, |ws[0]| + 1)
      == Render(BreakFrom(ws[1..], width, [ws[0]])) + " "
    ensures Unwords(cur) + " " + Layout(ws, width, Width(cur)) == Render(BreakFrom(ws, width, cur)) + " "
  {
    var w := ws[0];
    var rest := BreakFrom(ws[1..], width, [w]);
    var after := Layout(ws[1..], width, |w| + 1);
    assert Layout(ws, width, Width(cur)) == "\n" + w + " " + after;
    assert BreakFrom(ws, width, cur) == [cur] + rest;
    RenderCons(cur, rest);
    BreakText(Unwords(cur), w, after, Render(rest));
  }

  /** The case of `LayoutFrom` where the next word still fits, given the claim for the remaining words. */
  lemma {:induction false} LayoutKeepStep(ws: seq<string>, width: int, cur: seq<string>)
    requires |cur| > 0 && |ws| > 0 && |ws[0]| + Width(cur) <= width
    requires Unwords(cur + [ws[0]]) + " " + Layout(ws[1..], width, Width(cur + [ws[0]]))
      == Render(BreakFrom(ws[1..], width, cur + [ws[0]])) + " "
    ensures Unwords(cur) + " " + Layout(ws, width, Width(cur)) == Render(BreakFrom(ws, width, cur)) + " "
  {
    var w := ws[0];
    UnwordsAppend(cur, w);
    LayoutKeepText(ws, width, cur);
    BreakKeep(ws, width, cur);
    KeepText(Unwords(cur), w, Layout(ws[1..], width, Width(cur + [w])), Render(BreakFrom(ws[1..], width, cur + [w])) + " ");
  }

  /** A word that fits is written after a space, and the running length grows by the word and its space. */
  lemma {:induction false} LayoutKeepText(ws: seq<string>, width: int, cur: seq<string>)
    requires |ws| > 0 && |ws[0]| + Width(cur) <= width
    ensures Layout(ws, width, Width(cur)) == ws[0] + " " + Layout(ws[1..], width, Width(cur + [ws[0]]))
  {
    WidthAppend(cur, ws[0]);
  }

  /** A word that fits joins the open line. */
  lemma {:induction false} BreakKeep(ws: seq<string>, width: int, cur: seq<string>)
    requires |ws| > 0 && |ws[0]| + Width(cur) <= width
    ensures BreakFrom(ws, width, cur) == BreakFrom(ws[1..], width, cur + [ws[0]])
  {
  }

  /** The text where a word joins the open line. */
  lemma {:induction false} KeepText(u: string, w: string, after: string, r: string)
    requires u + " " + w + " " + after == r
    ensures u + " " + (w + " " + after) == r
  {
  }

  /** With no words left, the loop adds nothing and the open line is the last one. */
  lemma {:induction false} LayoutLastLine(width: int, cur: seq<string>)
    requires |cur| > 0
    ensures Unwords(cur) + " " + Layout([], width, Width(cur)) == Render(BreakFrom([], width, cur)) + " "
  {
    assert BreakFrom([], width, cur) == [cur];
    assert [cur][0] == cur;
  }

  /** Once a line is open, the loop's text is the rendered lines plus the final space. */
  lemma {:induction false} LayoutFrom(ws: seq<string>, width: int, cur: seq<string>)
    requires |cur| > 0
    ensures Unwords(cur) + " " + Layout(ws, width, Width(cur)) == Render(BreakFrom(ws, width, cur)) + " "
    decreases |ws|
  {
    if |ws| == 0 {
      LayoutLastLine(width, cur);
    } else if |ws[0]| + Width(cur) > width {
      SingleLine(ws[0]);
      LayoutFrom(ws[1..], width, [ws[0]]);
      LayoutBreakStep(ws, width, cur);
    } else {
      LayoutFrom(ws[1..], width, cur + [ws[0]]);
      LayoutKeepStep(ws, width, cur);
    }
  }

  /** From the start, the loop's text is an optional leading break, the rendered lines and a final space. */
  lemma {:induction false} LayoutStart(ws: seq<string>, width: int)
    requires |ws| > 0
    ensures Layout(ws, width, 0) == (if |ws[0]| > width then "\n" else "") + Render(Break(ws, width)) + " "
  {
    var w := ws[0];
    SingleLine(w);
    LayoutHead(ws, width);
    BreakHead(ws, width);
    LayoutFrom(ws[1..], width, [w]);
  }

  /** The first word opens the first line, after a break when it alone is wider than the limit. */
  lemma {:induction false} LayoutHead(ws: seq<string>, width: int)
    requires |ws| > 0
    ensures Layout(ws, width, 0)
            == (if |ws[0]| > width then "\n" else "") + (ws[0] + " " + Layout(ws[1..], width, |ws[0]| + 1))
  {
  }

  /** The greedy lines from the start are those begun with the first word on a line of its own. */
  lemma {:induction false} BreakHead(ws: seq<string>, width: int)
    requires |ws| > 0
    ensures Break(ws, width) == BreakFrom(ws[1..], width, [ws[0]])
  {
    assert [] + [ws[0]] == [ws[0]];
  }

  /** The loop's text, stripped, is exactly the greedy lines rendered. */
  lemma {:induction false} LayoutRenders(ws: seq<string>, width: int)
    requires AllWords(ws)
    ensures Strip(Layout(ws, width, 0)) == Render(Break(ws, width))
  {
    if |ws| > 0 {
      var lead := if |ws[0]| > width then "\n" else "";
      var lines := Break(ws, width);
      LayoutStart(ws, width);
      BreakGreedy(ws, width);
      RenderEdges(lines);
      StripPadded(lead, Render(lines));
    }
  }

  // ---------------------------------------------------------------- uniqueness

  lemma {:induction false} WidthConcat(a: seq<string>, b: seq<string>)
    ensures Width(a + b) == Width(a) + Width(b)
    decreases |a|
  {
    if |a| > 0 {
      assert (a + b)[0] == a[0];
      assert (a + b)[1..] == a[1..] + b;
      WidthConcat(a[1..], b);
    } else {
      assert a + b == b;
    }
  }

  /** A line that fits still fits when cut after its next word. */
  lemma {:induction false} PrefixFits(line: seq<string>, k: int, width: int)
    requires |Unwords(line)| <= width || |line| == 1
    ensures 0 < k < |line| ==> |Unwords(line[..k])| + 1 + |line[k]| <= width
  {
    if 0 < k < |line| {
      assert line == line[..k] + [line[k]] + line[k + 1..];
      WidthConcat(line[..k] + [line[k]], line[k + 1..]);
      WidthAppend(line[..k], line[k]);
      UnwordsLength(line);
      UnwordsLength(line[..k]);
    }
  }

  /** The first line of a greedy wrap is a prefix of the words, and the rest is a greedy wrap of what follows. */
  lemma {:induction false} GreedyTail(lines: seq<seq<string>>, ws: seq<string>, width: int)
    requires Greedy(lines, ws, width) && |lines| > 0
    ensures |lines[0]| <= |ws| && ws[..|lines[0]|] == lines[0]
    ensures Greedy(lines[1..], ws[|lines[0]|..], width)
    ensures |lines| == 1 ==> |ws| == |lines[0]|
    ensures |lines| > 1 ==> |ws| > |lines[0]| && lines[1][0] == ws[|lines[0]|]
  {
    var k := |lines[0]|;
    var rest := lines[1..];
    assert ws == lines[0] + Flatten(rest);
    assert ws[k..] == Flatten(rest);
    assert WordLines(rest) by {
      forall i | 0 <= i < |rest| ensures rest[i] != [] && AllWords(rest[i]) {
        assert rest[i] == lines[i + 1];
      }
    }
    forall i | 0 <= i < |rest| ensures |Unwords(rest[i])| <= width || |rest[i]| == 1 {
      assert rest[i] == lines[i + 1];
    }
    forall i | 0 <= i < |rest| - 1 ensures |Unwords(rest[i])| + 1 + |rest[i + 1][0]| > width {
      assert rest[i] == lines[i + 1] && rest[i + 1] == lines[i + 2];
    }
    if |lines| > 1 {
      assert Flatten(rest) == rest[0] + Flatten(rest[1..]);
      assert ws[k] == Flatten(rest)[0] == rest[0][0];
    } else {
      assert rest == [];
    }
  }

  lemma {:induction false} PrefixAgrees(line: seq<string>, ws: seq<string>, k: int)
    requires |line| <= |ws| && ws[..|line|] == line
    ensures 0 <= k < |line| ==> line[..k] == ws[..k] && line[k] == ws[k]
  {
    if 0 <= k < |line| {
      assert line[k] == ws[..|line|][k];
    }
  }

  lemma {:induction false} FlattenEmpty(lines: seq<seq<string>>)
    requires WordLines(lines)
    ensures Flatten(lines) == [] <==> lines == []
  {
    if |lines| > 0 {
      assert |Flatten(lines)| >= |lines[0]| > 0;
    }
  }

  lemma {:induction false} FirstLineLongest(a: seq<seq<string>>, b: seq<seq<string>>, ws: seq<string>, width: int)
    requires Greedy(a, ws, width) && Greedy(b, ws, width)
    requires |a| > 0 && |b| > 0
    ensures |a[0]| >= |b[0]|
  {
    var k := |a[0]|;
    GreedyTail(a, ws, width);
    GreedyTail(b, ws, width);
    PrefixFits(b[0], k, width);
    PrefixAgrees(b[0], ws, k);
  }

  /** Greedy wrapping is determined by the words and the width: two greedy wraps are the same lines. */
  lemma {:induction false} GreedyUnique(a: seq<seq<string>>, b: seq<seq<string>>, ws: seq<string>, width: int)
    requires Greedy(a, ws, width) && Greedy(b, ws, width)
    ensures a == b
    decreases |ws|
  {
    if |a| > 0 && |b| > 0 {
      FirstLineLongest(a, b, ws, width);
      FirstLineLongest(b, a, ws, width);
      GreedyTail(a, ws, width);
      GreedyTail(b, ws, width);
      assert a[0] == b[0];
      GreedyUnique(a[1..], b[1..], ws[|a[0]|..], width);
      assert a == [a[0]] + a[1..];
      assert b == [b[0]] + b[1..];
    } else {
      FlattenEmpty(a);
      FlattenEmpty(b);
    }
  }

  // ---------------------------------------------------------------- line breaks

  /**
   * Every line break sits inside the text, right after the space that followed the last word
   * of a line and right before the first letter of the next word; so no two breaks are adjacent.
   */
  predicate LoneBreaks(r: string) {
    forall i :: 0 <= i < |r| && r[i] == '\n' ==> 0 < i < |r| - 1 && r[i - 1] == ' ' && !IsSpace(r[i + 1])
  }

  lemma {:induction false} WordLinesTail(lines: seq<seq<string>>)
    requires |lines| > 0 && WordLines(lines)
    ensures lines[0] != [] && AllWords(lines[0]) && WordLines(lines[1..])
  {
    forall i | 0 <= i < |lines[1..]| ensures lines[1..][i] != [] && AllWords(lines[1..][i]) {
      assert lines[1..][i] == lines[i + 1];
    }
  }

  /** A line of words holds no line break. */
  lemma {:induction false} UnwordsNoBreak(line: seq<string>)
    requires AllWords(line)
    ensures forall i :: 0 <= i < |Unwords(line)| ==> Unwords(line)[i] != '\n'
    decreases |line|
  {
    if |line| == 1 {
      assert IsWord(line[0]);
    } else if |line| > 1 {
      AllWordsTail(line);
      UnwordsNoBreak(line[1..]);
      NoBreakJoin(line[0], Unwords(line[1..]));
    }
  }

  lemma {:induction false} NoBreakJoin(w: string, rest: string)
    requires IsWord(w)
    requires forall i :: 0 <= i < |rest| ==> rest[i] != '\n'
    ensures forall i :: 0 <= i < |w + " " + rest| ==> (w + " " + rest)[i] != '\n'
  {
    var t := w + " " + rest;
    forall i | 0 <= i < |t| ensures t[i] != '\n' {
      if i < |w| {
        assert t[i] == w[i];
      } else if i > |w| {
        assert t[i] == rest[i - |w| - 1];
      }
    }
  }

  /** Putting a break-free line in front of rendered lines, with the `" \n"` between them. */
  lemma {:induction false} LoneBreaksCons(u: string, rest: string)
    requires forall i :: 0 <= i < |u| ==> u[i] != '\n'
    requires |rest| > 0 && !IsSpace(rest[0]) && LoneBreaks(rest)
    ensures LoneBreaks(u + " \n" + rest)
  {
    var t := u + " \n" + rest;
    var k := |u| + 2;
    forall i | 0 <= i < |t| && t[i] == '\n'
      ensures 0 < i < |t| - 1 && t[i - 1] == ' ' && !IsSpace(t[i + 1])
    {
      if i == |u| + 1 {
        assert t[i - 1] == ' ' && t[i + 1] == rest[0];
      } else if i >= k {
        assert t[i] == rest[i - k];
        if i > k {
          assert t[i - 1] == rest[i - k - 1];
        }
        assert t[i + 1] == rest[i - k + 1];
      }
    }
  }

  /** Rendered lines of words, if any, start and end with a letter of a word. */
  lemma {:induction false} RenderEnds(lines: seq<seq<string>>)
    requires WordLines(lines)
    ensures Render(lines) == [] || (!IsSpace(Render(lines)[0]) && !IsSpace(Render(lines)[|Render(lines)| - 1]))
  {
    if |lines| > 0 {
      RenderEdges(lines);
    }
  }

  /** Rendered lines of words have only lone breaks. */
  lemma {:induction false} RenderLoneBreaks(lines: seq<seq<string>>)
    requires WordLines(lines)
    ensures LoneBreaks(Render(lines))
    decreases |lines|
  {
    if |lines| == 1 {
      WordLinesTail(lines);
      UnwordsNoBreak(lines[0]);
    } else if |lines| > 1 {
      WordLinesTail(lines);
      UnwordsNoBreak(lines[0]);
      RenderLoneBreaks(lines[1..]);
      RenderEdges(lines[1..]);
      LoneBreaksCons(Unwords(lines[0]), Render(lines[1..]));
    }
  }

  /**
   * `split_string` with the width as a parameter: the result is the greedy
   * wrap of the input's words, and reading it back gives the same words. It has no
   * white space at either end, and every line break stands alone between two lines.
   */
  function SplitString(s: string, width: int): (r: string)
    ensures Greedy(Break(Words(s), width), Words(s), width)
    ensures r == Render(Break(Words(s), width))
    ensures Words(r) == Words(s)
    ensures r == [] || (!IsSpace(r[0]) && !IsSpace(r[|r| - 1]))
    ensures LoneBreaks(r)
    ensures forall i :: 0 <= i < |r| - 1 ==> !(r[i] == '\n' && r[i + 1] == '\n')
  {
    var ws := Words(s);
    BreakGreedy(ws, width);
    LayoutRenders(ws, width);
    WordsRender(Break(ws, width));
    RenderEnds(Break(ws, width));
    RenderLoneBreaks(Break(ws, width));
    Strip(Layout(ws, width, 0))
  }

  /** The copy used by the course-detail printer, at 100 characters. */
  function SplitStringHelpers(s: string): (r: string)
    ensures Greedy(Break(Words(s), 100), Words(s), 100)
    ensures r == Render(Break(Words(s), 100))
    ensures Words(r) == Words(s)
    ensures r == [] || (!IsSpace(r[0]) && !IsSpace(r[|r| - 1]))
    ensures forall i :: 0 <= i < |r| - 1 ==> !(r[i] == '\n' && r[i + 1] == '\n')
  {
    SplitString(s, 100)
  }

  /** The copy inside the display module, at 50 characters. */
  function SplitStringDisplay(s: string): (r: string)
    ensures Greedy(Break(Words(s), 50), Words(s), 50)
    ensures r == Render(Break(Words(s), 50))
    ensures Words(r) == Words(s)
    ensures r == [] || (!IsSpace(r[0]) && !IsSpace(r[|r| - 1]))
    ensures forall i :: 0 <= i < |r| - 1 ==> !(r[i] == '\n' && r[i + 1] == '\n')
  {
    SplitString(s, 50)
  }

  /** The wrapper's text is the rendering of any greedy wrap of the input's words. */
  lemma {:induction false} SplitStringGreedy(s: string, width: int, lines: seq<seq<string>>)
    requires Greedy(lines, Words(s), width)
    ensures SplitString(s, width) == Render(lines)
  {
    BreakGreedy(Words(s), width);
    GreedyUnique(lines, Break(Words(s), width), Words(s), width);
  }

  /** Wrapping wrapped text again changes nothing. */
  lemma {:induction false} SplitStringIdempotent(s: string, width: int)
    ensures SplitString(SplitString(s, width), width) == SplitString(s, width)
  {
  }
}
