/** src/utils/subtitleUtils.js: cleanSubtitleFormat, which flattens a caption
    file into one line of plain text. */
module SubtitleUtils {
  import opened Text

  /** What one raw line adds to the running text: its trimmed caption text
      followed by a space, or nothing for a blank, numbering or timing line. */
  function Contribution(raw: string): string {
    if IsCaptionLine(raw) then Trim(raw) + " " else ""
  }

  /** The running text (currentSubtitle) after the given lines. */
  function Accumulated(lines: seq<string>): string
    decreases |lines|
  {
    if lines == [] then ""
    else Accumulated(lines[..|lines| - 1]) + Contribution(lines[|lines| - 1])
  }

  /** The value cleanSubtitleFormat returns: the running text after every line
      of the file, trimmed, with each run of whitespace replaced by one space. */
  function CleanedText(text: string): string {
    Collapse(Trim(Accumulated(Lines(text))))
  }

  /** cleanSubtitleFormat: one pass over the lines, appending each caption
      line and a space to currentSubtitle. */
  method CleanSubtitleFormat(subtitleText: string) returns (r: string)
    ensures r == CleanedText(subtitleText)
    ensures r == Collapse(JoinSep(CaptionTexts(Lines(subtitleText)), " "))
  {
    var lines := Lines(subtitleText);
    var currentSubtitle := "";
    for i := 0 to |lines|
      invariant currentSubtitle == Accumulated(lines[..i])
    {
      AccumulatedStep(lines, i);
      var line := Trim(lines[i]);
      if line == "" {
        continue;
      }
      if IsNumbering(line) {
        continue;
      }
      if Contains(line, "-->") {
        continue;
      }
      if line != "" {
        currentSubtitle := currentSubtitle + (line + " ");
      }
    }
    assert lines[..|lines|] == lines;
    r := Collapse(Trim(currentSubtitle));
    CleanedJoinsCaptionLines(subtitleText);
  }

  /** One more line adds its contribution at the end of the running text. */
  lemma AccumulatedStep(lines: seq<string>, i: nat)
    requires i < |lines|
    ensures Accumulated(lines[..i + 1]) == Accumulated(lines[..i]) + Contribution(lines[i])
  {
    assert lines[..i + 1][..i] == lines[..i];
  }

  // The reference definition: the caption lines, trimmed, in file order.

  /** A trimmed caption line as it enters the text. */
  predicate IsCaptionText(t: string) {
    t != "" && IsTrimmed(t) && !IsNumbering(t) && !Contains(t, "-->")
  }

  /** The caption lines among the lines, each trimmed, in their order. */
  function CaptionTexts(lines: seq<string>): (r: seq<string>)
    ensures |r| <= |lines|
    ensures forall k :: 0 <= k < |r| ==> IsCaptionText(r[k])
    decreases |lines|
  {
    if lines == [] then []
    else
      var last := lines[|lines| - 1];
      CaptionTexts(lines[..|lines| - 1]) + (if IsCaptionLine(last) then [Trim(last)] else [])
  }

  lemma {:induction false} CaptionTextsAppend(a: seq<string>, b: seq<string>)
    ensures CaptionTexts(a + b) == CaptionTexts(a) + CaptionTexts(b)
    decreases |b|
  {
    if b == [] {
      assert a + b == a;
    } else {
      var n := |b|;
      assert (a + b)[..|a + b| - 1] == a + b[..n - 1];
      assert (a + b)[|a + b| - 1] == b[n - 1];
      CaptionTextsAppend(a, b[..n - 1]);
    }
  }

  lemma {:induction false} JoinSepSnoc(xs: seq<string>, t: string, sep: string)
    requires xs != []
    ensures JoinSep(xs + [t], sep) == JoinSep(xs, sep) + sep + t
    decreases |xs|
  {
    if |xs| == 1 {
      assert (xs + [t])[1..] == [t];
    } else {
      assert (xs + [t])[1..] == xs[1..] + [t];
      JoinSepSnoc(xs[1..], t, sep);
    }
  }

  lemma {:induction false} JoinSepAppend(xs: seq<string>, ys: seq<string>, sep: string)
    requires xs != [] && ys != []
    ensures JoinSep(xs + ys, sep) == JoinSep(xs, sep) + sep + JoinSep(ys, sep)
    decreases |xs|
  {
    if |xs| == 1 {
      assert (xs + ys)[1..] == ys;
    } else {
      assert (xs + ys)[1..] == xs[1..] + ys;
      JoinSepAppend(xs[1..], ys, sep);
    }
  }

  /** The running text is the caption lines joined by spaces, with one more
      space after the last. */
  lemma {:induction false} AccumulatedJoin(lines: seq<string>)
    ensures Accumulated(lines)
      == if CaptionTexts(lines) == [] then "" else JoinSep(CaptionTexts(lines), " ") + " "
    decreases |lines|
  {
    if lines != [] {
      var init := lines[..|lines| - 1];
      var last := lines[|lines| - 1];
      var ci := CaptionTexts(init);
      AccumulatedJoin(init);
      assert Accumulated(lines) == Accumulated(init) + Contribution(last);
      if IsCaptionLine(last) {
        var t := Trim(last);
        assert CaptionTexts(lines) == ci + [t];
        if ci != [] {
          JoinSepSnoc(ci, t, " ");
          SpacedSnoc(JoinSep(ci, " "), t);
        } else {
          assert CaptionTexts(lines) == [t];
          assert Accumulated(lines) == "" + (t + " ");
        }
      } else {
        assert CaptionTexts(lines) == ci;
        assert Accumulated(lines) == Accumulated(init) + "";
      }
    }
  }

  lemma SpacedSnoc(x: string, t: string)
    ensures (x + " ") + (t + " ") == (x + " " + t) + " "
  {
  }

  /** Caption texts joined by spaces begin and end with caption text. */
  lemma {:induction false} JoinedIsTrimmed(ts: seq<string>)
    requires ts != [] && forall k :: 0 <= k < |ts| ==> IsCaptionText(ts[k])
    ensures var j := JoinSep(ts, " ");
      j != [] && !IsWhitespace(j[0]) && !IsWhitespace(j[|j| - 1])
    decreases |ts|
  {
    if |ts| > 1 {
      JoinedIsTrimmed(ts[1..]);
      var rest := JoinSep(ts[1..], " ");
      assert JoinSep(ts, " ") == ts[0] + " " + rest;
    }
  }

  /** Trimming a trimmed, non-empty string followed by a space gives it back. */
  lemma TrimSpaceAfter(j: string)
    requires j != [] && !IsWhitespace(j[0]) && !IsWhitespace(j[|j| - 1])
    ensures Trim(j + " ") == j
  {
    var s := j + " ";
    assert TrimStart(s) == s;
    assert s[..|s| - 1] == j;
    assert TrimEnd(s) == TrimEnd(j);
  }

  /** cleanSubtitleFormat collapses the caption lines, trimmed and joined by
      single spaces in file order; blank, numbering and timing lines add nothing. */
  lemma CleanedJoinsCaptionLines(text: string)
    ensures CleanedText(text) == Collapse(JoinSep(CaptionTexts(Lines(text)), " "))
  {
    var ts := CaptionTexts(Lines(text));
    AccumulatedJoin(Lines(text));
    if ts != [] {
      JoinedIsTrimmed(ts);
      TrimSpaceAfter(JoinSep(ts, " "));
    }
  }

  /** The result is empty exactly when the file holds no caption line. */
  lemma CleanedEmpty(text: string)
    ensures CleanedText(text) == "" <==> CaptionTexts(Lines(text)) == []
  {
    CleanedJoinsCaptionLines(text);
    var ts := CaptionTexts(Lines(text));
    if ts != [] {
      JoinedIsTrimmed(ts);
    }
  }

  // What the result looks like.

  /** A whitespace-free word found in caption texts joined by spaces lies
      inside one of them. */
  lemma {:induction false} ContainsAcrossSpace(a: string, b: string, w: string)
    requires w != [] && NoWhitespace(w)
    requires Contains(a + " " + b, w)
    ensures Contains(a, w) || Contains(b, w)
    decreases |a|
  {
    var s := a + " " + b;
    if |w| <= |s| && s[..|w|] == w {
      assert |w| <= |a| by {
        assert s[|a|] == ' ';
      }
      assert a[..|w|] == w;
    } else if a == [] {
      assert s[1..] == b;
    } else {
      assert s[1..] == a[1..] + " " + b;
      ContainsAcrossSpace(a[1..], b, w);
    }
  }

  lemma ArrowText()
    ensures "-->" != [] && NoWhitespace("-->")
  {
  }

  /** Two or more texts joined by spaces hold a space. */
  lemma JoinHasSpace(ts: seq<string>)
    requires |ts| > 1
    ensures !NoWhitespace(JoinSep(ts, " "))
  {
    var j := JoinSep(ts, " ");
    assert j == ts[0] + " " + JoinSep(ts[1..], " ");
    assert j[|ts[0]|] == ' ';
  }

  /** Caption texts joined by spaces hold no timing arrow. */
  lemma {:induction false} NoArrowInJoin(ts: seq<string>)
    requires forall k :: 0 <= k < |ts| ==> IsCaptionText(ts[k])
    ensures !Contains(JoinSep(ts, " "), "-->")
    decreases |ts|
  {
    if |ts| > 1 {
      NoArrowInJoin(ts[1..]);
      assert IsCaptionText(ts[0]);
      ArrowText();
      if Contains(JoinSep(ts, " "), "-->") {
        ContainsAcrossSpace(ts[0], JoinSep(ts[1..], " "), "-->");
      }
    } else if |ts| == 1 {
      assert IsCaptionText(ts[0]);
    }
  }

  /** Collapsed caption texts hold no timing arrow. */
  lemma CollapsedJoinNoArrow(ts: seq<string>)
    requires forall k :: 0 <= k < |ts| ==> IsCaptionText(ts[k])
    ensures !Contains(Collapse(JoinSep(ts, " ")), "-->")
  {
    var j := JoinSep(ts, " ");
    NoArrowInJoin(ts);
    ArrowText();
    if Contains(Collapse(j), "-->") {
      CollapseKeepsOutWords(j, false, "-->");
    }
  }

  /** Collapsed caption texts are never a bare number. */
  lemma CollapsedJoinNotNumbering(ts: seq<string>)
    requires forall k :: 0 <= k < |ts| ==> IsCaptionText(ts[k])
    ensures !IsNumbering(Collapse(JoinSep(ts, " ")))
  {
    var j := JoinSep(ts, " ");
    var r := Collapse(j);
    assert IsNumbering(r) ==> NoWhitespace(r) by {
      if IsNumbering(r) {
        forall i | 0 <= i < |r| ensures !IsWhitespace(r[i]) {
          assert IsDigit(r[i]);
        }
      }
    }
    if NoWhitespace(r) {
      CollapseWithoutWhitespace(j);
      if |ts| > 1 {
        JoinHasSpace(ts);
      } else if |ts| == 1 {
        assert j == ts[0] && IsCaptionText(ts[0]);
      }
    }
  }

  /** The result is a single line, trimmed, with single spaces, holding no
      timing arrow, and never a bare number. */
  lemma CleanedIsOneLine(text: string)
    ensures var r := CleanedText(text);
      && IsTrimmed(r) && IsCollapsed(r) && '\n' !in r
      && !Contains(r, "-->") && !IsNumbering(r)
  {
    var r := CleanedText(text);
    var ts := CaptionTexts(Lines(text));
    assert r == Collapse(JoinSep(ts, " ")) by {
      CleanedJoinsCaptionLines(text);
    }
    assert IsCollapsed(r) && '\n' !in r by {
      CollapsedHasNoNewline(r);
    }
    assert IsTrimmed(r) by {
      if ts != [] {
        JoinedIsTrimmed(ts);
        CollapseTrimmed(JoinSep(ts, " "));
      }
    }
    assert !Contains(r, "-->") by {
      CollapsedJoinNoArrow(ts);
    }
    assert !IsNumbering(r) by {
      CollapsedJoinNotNumbering(ts);
    }
  }

  /** A file of one line gives that line collapsed if it is a caption line,
      and nothing otherwise. */
  lemma CleanedSingleLine(s: string)
    requires '\n' !in s
    ensures CleanedText(s) == if IsCaptionLine(s) then Collapse(Trim(s)) else ""
  {
    LinesOfLine(s);
    assert [s][..0] == [];
    assert Accumulated([s]) == Contribution(s);
    if IsCaptionLine(s) {
      TrimSpaceAfter(Trim(s));
    }
  }

  /** Cleaning text that is already clean changes nothing. */
  lemma CleanIdempotent(text: string)
    ensures CleanedText(CleanedText(text)) == CleanedText(text)
  {
    var r := CleanedText(text);
    CleanedIsOneLine(text);
    CleanedSingleLine(r);
    if r != [] {
      assert IsCaptionLine(r);
      CollapseIdempotent(r, false);
    }
  }

  // How the lines of a file combine.

  /** A blank, numbering or timing line adds nothing, wherever it stands. */
  lemma JunkLineIgnored(a: string, junk: string, b: string)
    requires '\n' !in junk && !IsCaptionLine(junk)
    ensures CleanedText(a + "\n" + junk + "\n" + b) == CleanedText(a + "\n" + b)
  {
    JunkLineCaptions(a, junk, b);
    CleanedJoinsCaptionLines(a + "\n" + junk + "\n" + b);
    CleanedJoinsCaptionLines(a + "\n" + b);
  }

  /** The lines of a file with one line inserted between two parts. */
  lemma LinesAround(a: string, line: string, b: string)
    requires '\n' !in line
    ensures Lines(a + "\n" + line + "\n" + b) == Lines(a) + ([line] + Lines(b))
  {
    assert a + "\n" + line + "\n" + b == a + "\n" + (line + "\n" + b);
    LinesAppend(a, line + "\n" + b);
    LinesAppend(line, b);
    LinesOfLine(line);
  }

  lemma JunkLineCaptions(a: string, junk: string, b: string)
    requires '\n' !in junk && !IsCaptionLine(junk)
    ensures CaptionTexts(Lines(a + "\n" + junk + "\n" + b)) == CaptionTexts(Lines(a + "\n" + b))
  {
    LinesAround(a, junk, b);
    LinesAppend(a, b);
    CaptionTextsSkip(Lines(a), junk, Lines(b));
  }

  /** A line that is not a caption line drops out of the caption texts. */
  lemma CaptionTextsSkip(xs: seq<string>, junk: string, ys: seq<string>)
    requires !IsCaptionLine(junk)
    ensures CaptionTexts(xs + ([junk] + ys)) == CaptionTexts(xs + ys)
  {
    var cy := CaptionTexts(ys);
    assert CaptionTexts([junk] + ys) == cy by {
      CaptionTextsAppend([junk], ys);
      assert [junk][..0] == [];
      assert CaptionTexts([junk]) == [];
    }
    CaptionTextsAppend(xs, [junk] + ys);
    CaptionTextsAppend(xs, ys);
  }

  /** Collapsing two pieces joined by a space, where the space stands between
      two non-whitespace characters. */
  lemma CollapseAroundSpace(x: string, y: string)
    requires x != [] && !IsWhitespace(x[|x| - 1])
    requires y != [] && !IsWhitespace(y[0])
    ensures Collapse(x + " " + y) == Collapse(x) + " " + Collapse(y)
  {
    assert x + " " + y == x + (" " + y);
    CollapseAppend(x, " " + y);
    assert (" " + y)[0] == ' ' && (" " + y)[1..] == y;
    assert Collapse(" " + y) == [' '] + CollapseFrom(y, true);
    assert CollapseFrom(y, true) == [y[0]] + CollapseFrom(y[1..], false) == Collapse(y);
  }

  /** The text of two parts of a file is the text of the first, one space, and
      the text of the second. */
  lemma CleanedConcat(a: string, b: string)
    requires CleanedText(a) != "" && CleanedText(b) != ""
    ensures CleanedText(a + "\n" + b) == CleanedText(a) + " " + CleanedText(b)
  {
    CleanedEmpty(a);
    CleanedEmpty(b);
    var ta := CaptionTexts(Lines(a));
    var tb := CaptionTexts(Lines(b));
    assert CaptionTexts(Lines(a + "\n" + b)) == ta + tb by {
      LinesAppend(a, b);
      CaptionTextsAppend(Lines(a), Lines(b));
    }
    CollapsedJoinConcat(ta, tb);
    CleanedJoinsCaptionLines(a);
    CleanedJoinsCaptionLines(b);
    CleanedJoinsCaptionLines(a + "\n" + b);
  }

  /** Collapsing two non-empty runs of caption texts joined by a space. */
  lemma CollapsedJoinConcat(ta: seq<string>, tb: seq<string>)
    requires ta != [] && forall k :: 0 <= k < |ta| ==> IsCaptionText(ta[k])
    requires tb != [] && forall k :: 0 <= k < |tb| ==> IsCaptionText(tb[k])
    ensures Collapse(JoinSep(ta + tb, " ")) == Collapse(JoinSep(ta, " ")) + " " + Collapse(JoinSep(tb, " "))
  {
    JoinSepAppend(ta, tb, " ");
    JoinedIsTrimmed(ta);
    JoinedIsTrimmed(tb);
    CollapseAroundSpace(JoinSep(ta, " "), JoinSep(tb, " "));
  }
}
