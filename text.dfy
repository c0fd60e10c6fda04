/** String primitives of the JavaScript runtime that the caption pipeline relies on:
    String.prototype.trim, split('\n'), includes, join, the regular expression
    /\s+/g replaced by ' ', the test /^\d+$/, and decimal rendering of a count.
    Strings are sequences of Unicode scalar values. */
module Text {

  datatype Option<+T> = None | Some(value: T)

  /** The characters matched by \s and removed by trim(): ECMAScript WhiteSpace
      (tab, vertical tab, form feed, space, no-break space, byte order mark and
      the Zs category) together with LineTerminator (LF, CR, U+2028, U+2029). */
  predicate IsWhitespace(c: char) {
    c == ' ' || '\t' <= c <= '\r' || c == '\U{A0}' || c == '\U{1680}'
    || '\U{2000}' <= c <= '\U{200A}' || c == '\U{2028}' || c == '\U{2029}'
    || c == '\U{202F}' || c == '\U{205F}' || c == '\U{3000}' || c == '\U{FEFF}'
  }

  /** \d without the unicode flag: the ASCII digits. */
  predicate IsDigit(c: char) {
    '0' <= c <= '9'
  }

  /** The characters that `.` does not match without the s flag. */
  predicate IsLineTerminator(c: char) {
    c == '\n' || c == '\r' || c == '\U{2028}' || c == '\U{2029}'
  }

  predicate NoWhitespace(s: string) {
    forall i :: 0 <= i < |s| ==> !IsWhitespace(s[i])
  }

  /** A string with no whitespace at either end, as trim() leaves it. */
  predicate IsTrimmed(s: string) {
    s == [] || (!IsWhitespace(s[0]) && !IsWhitespace(s[|s| - 1]))
  }

  /** A string in which every whitespace character is a single space standing
      alone, as replace(/\s+/g, ' ') leaves it. */
  predicate IsCollapsed(s: string)
    decreases |s|
  {
    s == [] ||
    ((IsWhitespace(s[0]) ==> s[0] == ' ' && (|s| > 1 ==> !IsWhitespace(s[1])))
     && IsCollapsed(s[1..]))
  }

  /** /^\d+$/.test(s): one or more ASCII digits and nothing else. */
  predicate IsNumbering(s: string) {
    |s| > 0 && forall i :: 0 <= i < |s| ==> IsDigit(s[i])
  }

  /** A line of a caption file that holds caption text: once trimmed it is
      neither blank, nor a cue number, nor a timing line holding "-->". */
  predicate IsCaptionLine(raw: string) {
    var line := Trim(raw);
    line != "" && !IsNumbering(line) && !Contains(line, "-->")
  }

  /** The characters of s that are not whitespace, in order. */
  function NonWhitespace(s: string): (r: string)
    ensures |r| <= |s|
    decreases |s|
  {
    if s == [] then []
    else (if IsWhitespace(s[0]) then [] else [s[0]]) + NonWhitespace(s[1..])
  }

  /** Removes the leading whitespace. */
  function TrimStart(s: string): (r: string)
    ensures |r| <= |s| && r == s[|s| - |r|..]
    ensures r == [] || !IsWhitespace(r[0])
    ensures forall i :: 0 <= i < |s| - |r| ==> IsWhitespace(s[i])
  {
    if s != [] && IsWhitespace(s[0]) then TrimStart(s[1..]) else s
  }

  /** Removes the trailing whitespace. */
  function TrimEnd(s: string): (r: string)
    ensures |r| <= |s| && r == s[..|r|]
    ensures r == [] || !IsWhitespace(r[|r| - 1])
    ensures forall i :: |r| <= i < |s| ==> IsWhitespace(s[i])
  {
    if s != [] && IsWhitespace(s[|s| - 1]) then TrimEnd(s[..|s| - 1]) else s
  }

  /** s holds whitespace only. */
  predicate AllWhitespace(s: string)
    decreases |s|
  {
    s == [] || (IsWhitespace(s[0]) && AllWhitespace(s[1..]))
  }

  lemma {:induction false} AllWhitespaceOf(s: string)
    requires forall k :: 0 <= k < |s| ==> IsWhitespace(s[k])
    ensures AllWhitespace(s)
    decreases |s|
  {
    if s != [] {
      AllWhitespaceOf(s[1..]);
    }
  }

  /** String.prototype.trim: s with its leading and its trailing whitespace
      cut off. */
  function Trim(s: string): (r: string)
    ensures IsTrimmed(r)
    ensures IsTrimmed(s) ==> r == s
    ensures forall c :: c in r ==> c in s
    ensures r == [] <==> forall i :: 0 <= i < |s| ==> IsWhitespace(s[i])
  {
    var t := TrimStart(s);
    var r := TrimEnd(t);
    TrimmedSlice(s, t, r);
    r
  }

  /** Trim cuts off exactly a run of leading and a run of trailing whitespace:
      what is left is the slice of s between them. */
  lemma TrimIsSlice(s: string)
    ensures exists a, b :: s == a + Trim(s) + b && AllWhitespace(a) && AllWhitespace(b)
  {
    var t := TrimStart(s);
    TrimmedSlice(s, t, TrimEnd(t));
  }

  /** The facts behind Trim, stated over the two intermediate strings: t is s
      without its leading whitespace and r is t without its trailing one. */
  lemma TrimmedSlice(s: string, t: string, r: string)
    requires |t| <= |s| && t == s[|s| - |t|..] && (t == [] || !IsWhitespace(t[0]))
    requires forall k :: 0 <= k < |s| - |t| ==> IsWhitespace(s[k])
    requires |r| <= |t| && r == t[..|r|] && (r == [] || !IsWhitespace(r[|r| - 1]))
    requires forall k :: |r| <= k < |t| ==> IsWhitespace(t[k])
    ensures exists a, b :: s == a + r + b && AllWhitespace(a) && AllWhitespace(b)
    ensures IsTrimmed(r)
    ensures IsTrimmed(s) ==> r == s
    ensures forall c :: c in r ==> c in s
    ensures r == [] <==> forall i :: 0 <= i < |s| ==> IsWhitespace(s[i])
  {
    var i := |s| - |t|;
    var j := i + |r|;
    assert r == s[i..j];
    forall k | j <= k < |s| ensures IsWhitespace(s[k]) {
      assert s[k] == t[k - i];
    }
    assert s == s[..i] + r + s[j..];
    AllWhitespaceOf(s[..i]);
    AllWhitespaceOf(s[j..]);
    if r != [] {
      assert r[0] == t[0];
    }
    assert i > 0 ==> IsWhitespace(s[0]);
    assert j < |s| ==> IsWhitespace(s[|s| - 1]);
    forall c | c in r ensures c in s {
      var k :| 0 <= k < |r| && r[k] == c;
      assert s[i + k] == c;
    }
    if t != [] {
      assert t[0] == s[i];
    }
  }

  /** s.replace(/\s+/g, ' '): every maximal run of whitespace becomes one space. */
  function Collapse(s: string): (r: string)
    ensures IsCollapsed(r)
    ensures NonWhitespace(r) == NonWhitespace(s)
    ensures r == [] <==> s == []
  {
    CollapseFromKeeps(s, false);
    CollapseFrom(s, false)
  }

  /** The scan behind Collapse; `inRun` says that the previous character was
      whitespace, so that a space has already been written for the current run. */
  function CollapseFrom(s: string, inRun: bool): (r: string)
    ensures IsCollapsed(r)
    ensures inRun ==> r == [] || !IsWhitespace(r[0])
    ensures !inRun ==> (r == [] <==> s == [])
    decreases |s|
  {
    if s == [] then []
    else if IsWhitespace(s[0]) then
      if inRun then CollapseFrom(s[1..], true) else [' '] + CollapseFrom(s[1..], true)
    else [s[0]] + CollapseFrom(s[1..], false)
  }

  /** The scan keeps every character that is not whitespace, in order. */
  lemma {:induction false} CollapseFromKeeps(s: string, inRun: bool)
    ensures NonWhitespace(CollapseFrom(s, inRun)) == NonWhitespace(s)
    decreases |s|
  {
    if s != [] {
      CollapseFromKeeps(s[1..], IsWhitespace(s[0]));
      if IsWhitespace(s[0]) {
        if !inRun {
          assert ([' '] + CollapseFrom(s[1..], true))[1..] == CollapseFrom(s[1..], true);
        }
      } else {
        assert ([s[0]] + CollapseFrom(s[1..], false))[1..] == CollapseFrom(s[1..], false);
      }
    }
  }

  /** Whether the scan is inside a run of whitespace after reading s. */
  function RunStateAfter(s: string, inRun: bool): bool {
    if s == [] then inRun else IsWhitespace(s[|s| - 1])
  }

  /** Collapsing works piecewise, carrying the run state across the split. */
  lemma {:induction false} CollapseFromAppend(a: string, b: string, inRun: bool)
    ensures CollapseFrom(a + b, inRun) == CollapseFrom(a, inRun) + CollapseFrom(b, RunStateAfter(a, inRun))
    decreases |a|
  {
    if a != [] {
      assert (a + b)[0] == a[0];
      assert (a + b)[1..] == a[1..] + b;
      var st := IsWhitespace(a[0]);
      CollapseFromAppend(a[1..], b, st);
      assert RunStateAfter(a[1..], st) == RunStateAfter(a, inRun) by {
        assert a[1..] != [] ==> a[1..][|a[1..]| - 1] == a[|a| - 1];
      }
      var head := if st && inRun then [] else if st then [' '] else [a[0]];
      assert CollapseFrom(a + b, inRun) == head + CollapseFrom(a[1..] + b, st);
      assert CollapseFrom(a, inRun) == head + CollapseFrom(a[1..], st);
    } else {
      assert a + b == b;
    }
  }

  /** Collapsing works piecewise when the split point follows a non-whitespace
      character: no run of whitespace straddles it. */
  lemma CollapseAppend(a: string, b: string)
    requires a != [] && !IsWhitespace(a[|a| - 1])
    ensures Collapse(a + b) == Collapse(a) + Collapse(b)
  {
    CollapseFromAppend(a, b, false);
  }

  /** Collapsing keeps whitespace out of the ends of a string that had none there. */
  lemma CollapseTrimmed(s: string)
    requires IsTrimmed(s)
    ensures IsTrimmed(Collapse(s))
  {
    if s != [] {
      var n := |s|;
      assert s == s[..n - 1] + [s[n - 1]];
      CollapseFromAppend(s[..n - 1], [s[n - 1]], false);
      assert CollapseFrom([s[n - 1]], RunStateAfter(s[..n - 1], false)) == [s[n - 1]];
    }
  }

  /** A string that replace(/\s+/g, ' ') leaves unchanged stays unchanged. */
  lemma {:induction false} CollapseIdempotent(s: string, inRun: bool)
    requires IsCollapsed(s)
    requires inRun ==> s == [] || !IsWhitespace(s[0])
    ensures CollapseFrom(s, inRun) == s
    decreases |s|
  {
    if s != [] {
      CollapseIdempotent(s[1..], IsWhitespace(s[0]));
    }
  }

  /** The only whitespace a collapsed string holds is the plain space, so in
      particular it holds no newline. */
  lemma {:induction false} CollapsedHasNoNewline(s: string)
    requires IsCollapsed(s)
    ensures '\n' !in s
    decreases |s|
  {
    if s != [] {
      CollapsedHasNoNewline(s[1..]);
      assert s == [s[0]] + s[1..];
    }
  }

  /** Collapsing cannot remove all whitespace unless there was none. */
  lemma {:induction false} CollapseWithoutWhitespace(s: string)
    requires NoWhitespace(CollapseFrom(s, false))
    ensures CollapseFrom(s, false) == s
    decreases |s|
  {
    if s != [] {
      var r := CollapseFrom(s, false);
      assert r[0] == (if IsWhitespace(s[0]) then ' ' else s[0]);
      assert r == [s[0]] + CollapseFrom(s[1..], false);
      assert NoWhitespace(CollapseFrom(s[1..], false)) by {
        var c := CollapseFrom(s[1..], false);
        forall i | 0 <= i < |c| ensures !IsWhitespace(c[i]) {
          assert c[i] == r[i + 1];
        }
      }
      CollapseWithoutWhitespace(s[1..]);
    }
  }

  /** Collapsing never creates a whitespace-free piece of text, such as "-->",
      that was not already in its input. */
  lemma {:induction false} CollapseKeepsOutWords(s: string, inRun: bool, w: string)
    requires w != [] && NoWhitespace(w)
    requires Contains(CollapseFrom(s, inRun), w)
    ensures Contains(s, w)
    decreases |s|
  {
    var r := CollapseFrom(s, inRun);
    assert s != [];
    var r' := CollapseFrom(s[1..], IsWhitespace(s[0]));
    if IsWhitespace(s[0]) {
      if inRun {
        assert r == r';
      } else {
        assert r == [' '] + r';
        assert !(|w| <= |r| && r[..|w|] == w) by { assert r[0] == ' '; }
        assert r[1..] == r';
      }
      CollapseKeepsOutWords(s[1..], true, w);
      ContainsSuffix(s, 1, w);
    } else {
      assert r == [s[0]] + r';
      if |w| <= |r| && r[..|w|] == w {
        CollapsePrefix(s, |w|);
        assert s[..|w|] == w;
      } else {
        assert r[1..] == r';
        CollapseKeepsOutWords(s[1..], false, w);
        ContainsSuffix(s, 1, w);
      }
    }
  }

  /** A whitespace-free prefix of the collapsed string is a prefix of the input. */
  lemma {:induction false} CollapsePrefix(s: string, n: nat)
    requires n <= |CollapseFrom(s, false)|
    requires NoWhitespace(CollapseFrom(s, false)[..n])
    ensures n <= |s| && s[..n] == CollapseFrom(s, false)[..n]
    decreases n
  {
    if n > 0 {
      var r := CollapseFrom(s, false);
      assert !IsWhitespace(r[0]) by { assert r[..n][0] == r[0]; }
      assert r[0] == (if IsWhitespace(s[0]) then ' ' else s[0]);
      var c := CollapseFrom(s[1..], false);
      assert r == [s[0]] + c;
      assert NoWhitespace(c[..n - 1]) by {
        forall i | 0 <= i < n - 1 ensures !IsWhitespace(c[i]) {
          assert c[i] == r[..n][i + 1];
        }
      }
      CollapsePrefix(s[1..], n - 1);
    }
  }

  /** The literal `lit` occurs in s at position i. */
  predicate LiteralAt(s: string, i: nat, lit: string) {
    i + |lit| <= |s| && s[i..i + |lit|] == lit
  }

  /** How far `.*` can reach from position j: the first line terminator at or
      after j, or the end of s. */
  function DotEnd(s: string, j: nat): (e: nat)
    requires j <= |s|
    ensures j <= e <= |s|
    ensures forall k :: j <= k < e ==> !IsLineTerminator(s[k])
    ensures e == |s| || IsLineTerminator(s[e])
    decreases |s| - j
  {
    if j == |s| || IsLineTerminator(s[j]) then j else DotEnd(s, j + 1)
  }

  /** String.prototype.includes. */
  predicate Contains(s: string, w: string)
    decreases |s|
  {
    (|w| <= |s| && s[..|w|] == w) || (s != [] && Contains(s[1..], w))
  }

  lemma {:induction false} ContainsSuffix(s: string, k: nat, w: string)
    requires k <= |s|
    requires Contains(s[k..], w)
    ensures Contains(s, w)
    decreases k
  {
    if k > 0 {
      assert s[1..][k - 1..] == s[k..];
      ContainsSuffix(s[1..], k - 1, w);
    }
  }

  /** A string includes whatever was placed inside it. */
  lemma {:induction false} ContainsInside(a: string, w: string, b: string)
    ensures Contains(a + w + b, w)
    decreases |a|
  {
    if a != [] {
      assert (a + w + b)[1..] == a[1..] + w + b;
      ContainsInside(a[1..], w, b);
    } else {
      assert (a + w + b)[..|w|] == w;
    }
  }

  /** Text that includes "-->" is not a run of digits. */
  lemma {:induction false} ArrowIsNotNumbering(s: string)
    requires Contains(s, "-->")
    ensures !IsNumbering(s)
    decreases |s|
  {
    if 3 <= |s| && s[..3] == "-->" {
      assert s[0] == '-';
    } else {
      ArrowIsNotNumbering(s[1..]);
    }
  }

  /** s.split('\n'). */
  function Lines(s: string): (r: seq<string>)
    ensures |r| >= 1
    ensures forall k :: 0 <= k < |r| ==> '\n' !in r[k]
    decreases |s|
  {
    if s == [] then [""]
    else
      var rest := Lines(s[1..]);
      if s[0] == '\n' then [""] + rest
      else [[s[0]] + rest[0]] + rest[1..]
  }

  /** The pieces of a string that holds no newline are the string itself. */
  lemma {:induction false} LinesOfLine(s: string)
    requires '\n' !in s
    ensures Lines(s) == [s]
    decreases |s|
  {
    if s != [] {
      LinesOfLine(s[1..]);
      assert [s[0]] + s[1..] == s;
    }
  }

  /** Splitting at a newline splits the pieces there. */
  lemma {:induction false} LinesAppend(a: string, b: string)
    ensures Lines(a + "\n" + b) == Lines(a) + Lines(b)
    decreases |a|
  {
    if a == [] {
      assert a + "\n" + b == ['\n'] + b;
      assert (['\n'] + b)[1..] == b;
    } else {
      assert (a + "\n" + b)[1..] == a[1..] + "\n" + b;
      LinesAppend(a[1..], b);
    }
  }

  /** xs.join(sep). */
  function JoinSep(xs: seq<string>, sep: string): string
    decreases |xs|
  {
    if xs == [] then ""
    else if |xs| == 1 then xs[0]
    else xs[0] + sep + JoinSep(xs[1..], sep)
  }

  /** Joining the pieces of split('\n') with "\n" gives back the string. */
  lemma {:induction false} JoinLines(s: string)
    ensures JoinSep(Lines(s), "\n") == s
    decreases |s|
  {
    if s != [] {
      var rest := Lines(s[1..]);
      JoinLines(s[1..]);
      if s[0] != '\n' {
        var xs := [[s[0]] + rest[0]] + rest[1..];
        if |rest| > 1 {
          assert xs[1..] == rest[1..];
          assert JoinSep(rest, "\n") == rest[0] + "\n" + JoinSep(rest[1..], "\n");
        }
        assert [s[0]] + s[1..] == s;
      } else {
        assert ([""] + rest)[1..] == rest;
        assert ['\n'] + s[1..] == s;
      }
    }
  }

  /** The decimal digit for 0 <= d < 10. */
  function DigitChar(d: nat): (c: char)
    requires d < 10
    ensures IsDigit(c) && (c as int) - ('0' as int) == d
  {
    (('0' as int) + d) as char
  }

  /** The value of a run of decimal digits, most significant first. */
  function DigitsValue(ds: string): nat
    requires forall i :: 0 <= i < |ds| ==> IsDigit(ds[i])
    decreases |ds|
  {
    if ds == [] then 0
    else
      assert IsDigit(ds[|ds| - 1]);
      10 * DigitsValue(ds[..|ds| - 1]) + ((ds[|ds| - 1] as int) - ('0' as int))
  }

  /** The decimal rendering of a non-negative integer, as `${n}` gives it. */
  function NatToString(n: nat): (r: string)
    ensures r != [] && forall i :: 0 <= i < |r| ==> IsDigit(r[i])
    ensures DigitsValue(r) == n
    decreases n
  {
    if n < 10 then [DigitChar(n)]
    else
      var r := NatToString(n / 10) + [DigitChar(n % 10)];
      assert r[..|r| - 1] == NatToString(n / 10);
      r
  }
}
