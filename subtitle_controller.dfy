/** src/controllers/subtitleController.js: turning a raw caption file into the
    stored transcript (preprocessSubtitles), the video id pattern of the
    extraction handler, and the handler's cache-by-natural-key skeleton. */
module SubtitleController {
  import opened Text
  import opened Http
  import opened Storage

  /** One caption unit: the time-range line and the single text line kept for it. */
  datatype Cue = Cue(time: string, text: string)

  /** The block pushed for a cue: `${currentTime}\n${currentText}`. */
  function Block(c: Cue): string {
    c.time + "\n" + c.text
  }

  function Blocks(cs: seq<Cue>): seq<string>
    decreases |cs|
  {
    if cs == [] then [] else [Block(cs[0])] + Blocks(cs[1..])
  }

  /** A pending time range: a trimmed, non-empty line holding "-->". */
  predicate IsTimeRange(t: string) {
    t != "" && IsTrimmed(t) && '\n' !in t && Contains(t, "-->")
  }

  /** What every emitted cue looks like. */
  predicate WellFormedCue(c: Cue) {
    && IsTimeRange(c.time)
    && c.text != "" && IsTrimmed(c.text) && IsCollapsed(c.text) && '\n' !in c.text
    && !Contains(c.text, "-->") && !IsNumbering(c.text)
  }

  /** One turn of the loop of preprocessSubtitles on a raw line, given the
      pending time range ("" when there is none): the cues it emits and the
      pending time range afterwards. */
  function Step(raw: string, pending: string): (seq<Cue>, string) {
    var line := Trim(raw);
    if line == "" || IsNumbering(line) then ([], pending)
    else if Contains(line, "-->") then ([], line)
    else if pending != "" then ([Cue(pending, Trim(Collapse(line)))], "")
    else ([], pending)
  }

  /** The cues emitted for the remaining lines from a pending time range. */
  function Cues(lines: seq<string>, pending: string): seq<Cue>
    decreases |lines|
  {
    if lines == [] then []
    else
      var (out, next) := Step(lines[0], pending);
      out + Cues(lines[1..], next)
  }

  /** The pending time range after the lines. */
  function PendingAfter(lines: seq<string>, pending: string): string
    decreases |lines|
  {
    if lines == [] then pending else PendingAfter(lines[1..], Step(lines[0], pending).1)
  }

  /** The transcript preprocessSubtitles produces for a raw caption file. */
  function Preprocessed(content: string): string {
    JoinSep(Blocks(Cues(Lines(content), "")), "\n\n")
  }

  /** preprocessSubtitles: one pass over the lines with the two cursors
      currentTime and currentText, pushing a block whenever a text line
      follows a pending time range. */
  method PreprocessSubtitles(content: string) returns (r: string)
    ensures r == Preprocessed(content)
  {
    var lines := Lines(content);
    var processedLines: seq<string> := [];
    var currentText := "";
    var currentTime := "";
    ghost var target := Blocks(Cues(lines, ""));
    assert lines[0..] == lines;
    for i := 0 to |lines|
      invariant processedLines + Blocks(Cues(lines[i..], currentTime)) == target
    {
      var line := Trim(lines[i]);
      if line == "" || IsNumbering(line) {
        SkippedLine(lines, i, currentTime);
        continue;
      }
      if Contains(line, "-->") {
        TimeRangeLine(lines, i, currentTime);
        currentTime := line;
        continue;
      }
      currentText := Trim(Collapse(line));
      TextLine(processedLines, lines, i, currentTime);
      if currentTime != "" {
        processedLines := processedLines + [currentTime + "\n" + currentText];
        currentTime := "";
        currentText := "";
      }
    }
    assert processedLines == target by {
      assert lines[|lines|..] == [];
      assert Blocks(Cues([], currentTime)) == [];
    }
    r := JoinSep(processedLines, "\n\n");
  }

  lemma {:induction false} BlocksAppend(a: seq<Cue>, b: seq<Cue>)
    ensures Blocks(a + b) == Blocks(a) + Blocks(b)
    decreases |a|
  {
    if a == [] {
      assert a + b == b;
    } else {
      assert (a + b)[0] == a[0];
      assert (a + b)[1..] == a[1..] + b;
      BlocksAppend(a[1..], b);
    }
  }

  /** A blank or numbering line emits nothing and keeps the pending time range. */
  lemma SkippedLine(lines: seq<string>, i: nat, pending: string)
    requires i < |lines| && (Trim(lines[i]) == "" || IsNumbering(Trim(lines[i])))
    ensures Blocks(Cues(lines[i..], pending)) == Blocks(Cues(lines[i + 1..], pending))
  {
    CuesAt(lines, i, pending);
    assert Step(lines[i], pending) == ([], pending);
    assert Blocks([]) == [];
  }

  /** A time-range line emits nothing and becomes the pending time range. */
  lemma TimeRangeLine(lines: seq<string>, i: nat, pending: string)
    requires i < |lines| && Trim(lines[i]) != "" && !IsNumbering(Trim(lines[i]))
    requires Contains(Trim(lines[i]), "-->")
    ensures Blocks(Cues(lines[i..], pending)) == Blocks(Cues(lines[i + 1..], Trim(lines[i])))
  {
    CuesAt(lines, i, pending);
    assert Step(lines[i], pending) == ([], Trim(lines[i]));
    assert Blocks([]) == [];
  }

  /** A caption line emits a block when a time range is pending and clears it. */
  lemma TextLine(done: seq<string>, lines: seq<string>, i: nat, pending: string)
    requires i < |lines| && IsCaptionLine(lines[i])
    ensures pending != "" ==>
      done + Blocks(Cues(lines[i..], pending))
      == (done + [pending + "\n" + Trim(Collapse(Trim(lines[i])))]) + Blocks(Cues(lines[i + 1..], ""))
    ensures pending == "" ==> Blocks(Cues(lines[i..], pending)) == Blocks(Cues(lines[i + 1..], ""))
  {
    CuesAt(lines, i, pending);
    var c := Cue(pending, Trim(Collapse(Trim(lines[i]))));
    if pending != "" {
      assert Step(lines[i], pending) == ([c], "");
      assert Blocks([c]) == [Block(c)];
      var rest := Blocks(Cues(lines[i + 1..], ""));
      assert done + ([Block(c)] + rest) == (done + [Block(c)]) + rest;
    } else {
      assert Step(lines[i], pending) == ([], "");
      assert Blocks([]) == [];
    }
  }

  /** One unfolding of Cues at position i. */
  lemma CuesAt(lines: seq<string>, i: nat, pending: string)
    requires i < |lines|
    ensures Blocks(Cues(lines[i..], pending))
      == Blocks(Step(lines[i], pending).0) + Blocks(Cues(lines[i + 1..], Step(lines[i], pending).1))
  {
    assert lines[i..][0] == lines[i];
    assert lines[i..][1..] == lines[i + 1..];
    BlocksAppend(Step(lines[i], pending).0, Cues(lines[i + 1..], Step(lines[i], pending).1));
  }

  /** The cues of a concatenation of line sequences are those of the first part
      followed by those of the second: cues keep the order of the input. */
  lemma {:induction false} CuesAppend(a: seq<string>, b: seq<string>, pending: string)
    ensures Cues(a + b, pending) == Cues(a, pending) + Cues(b, PendingAfter(a, pending))
    decreases |a|
  {
    if a == [] {
      assert a + b == b;
    } else {
      assert (a + b)[0] == a[0];
      assert (a + b)[1..] == a[1..] + b;
      CuesAppend(a[1..], b, Step(a[0], pending).1);
    }
  }

  /** Every cue carries a trimmed "-->" line and a non-empty, trimmed,
      whitespace-collapsed text line that is neither a time range nor a number. */
  lemma {:induction false} CuesWellFormed(lines: seq<string>, pending: string)
    requires forall k :: 0 <= k < |lines| ==> '\n' !in lines[k]
    requires pending == "" || IsTimeRange(pending)
    ensures forall c :: c in Cues(lines, pending) ==> WellFormedCue(c)
    decreases |lines|
  {
    if lines != [] {
      var line := Trim(lines[0]);
      var (out, next) := Step(lines[0], pending);
      if line != "" && !IsNumbering(line) && !Contains(line, "-->") && pending != "" {
        TextLineWellFormed(line);
        assert WellFormedCue(out[0]);
      }
      CuesWellFormed(lines[1..], next);
    }
  }

  /** The text kept for a caption line, Trim(Collapse(line)), is the collapsed
      line itself and stays a caption line. */
  lemma TextLineWellFormed(line: string)
    requires line != "" && IsTrimmed(line) && !IsNumbering(line) && !Contains(line, "-->")
    ensures Trim(Collapse(line)) == Collapse(line)
    ensures var t := Collapse(line);
      t != "" && IsTrimmed(t) && IsCollapsed(t) && '\n' !in t
      && !Contains(t, "-->") && !IsNumbering(t)
  {
    var t := Collapse(line);
    CollapseTrimmed(line);
    CollapsedHasNoNewline(t);
    if Contains(t, "-->") {
      CollapseKeepsOutWords(line, false, "-->");
    }
    if IsNumbering(t) {
      CollapseWithoutWhitespace(line);
    }
  }

  /** The number of raw lines that hold a time range. */
  function TimeRangeLines(lines: seq<string>): nat
    decreases |lines|
  {
    if lines == [] then 0
    else (if Contains(Trim(lines[0]), "-->") then 1 else 0) + TimeRangeLines(lines[1..])
  }

  /** Each cue uses up a distinct time-range line (or the one pending at the start). */
  lemma {:induction false} CuesBound(lines: seq<string>, pending: string)
    ensures |Cues(lines, pending)| <= TimeRangeLines(lines) + (if pending == "" then 0 else 1)
    decreases |lines|
  {
    if lines != [] {
      CuesBound(lines[1..], Step(lines[0], pending).1);
    }
  }

  /** A caption file none of whose lines holds "-->" yields the empty transcript. */
  lemma NoTimeRangeNoTranscript(content: string)
    requires forall k :: 0 <= k < |Lines(content)| ==> !Contains(Trim(Lines(content)[k]), "-->")
    ensures Preprocessed(content) == ""
  {
    var lines := Lines(content);
    NoTimeRangeLines(lines);
    CuesBound(lines, "");
    assert Cues(lines, "") == [];
    assert Blocks([]) == [];
  }

  lemma {:induction false} NoTimeRangeLines(lines: seq<string>)
    requires forall k :: 0 <= k < |lines| ==> !Contains(Trim(lines[k]), "-->")
    ensures TimeRangeLines(lines) == 0
    decreases |lines|
  {
    if lines != [] {
      NoTimeRangeLines(lines[1..]);
    }
  }

  /** A line holding a time range. */
  predicate IsTimeRangeLine(raw: string) {
    Contains(Trim(raw), "-->")
  }

  /** Cues of a non-empty list of lines: the first line's step, then the rest. */
  lemma CuesCons(lines: seq<string>, pending: string)
    requires lines != []
    ensures Cues(lines, pending) == Step(lines[0], pending).0 + Cues(lines[1..], Step(lines[0], pending).1)
  {
  }

  /** A time-range line becomes the pending time range. */
  lemma TimeRangeStep(raw: string, pending: string)
    requires IsTimeRangeLine(raw)
    ensures Step(raw, pending) == ([], Trim(raw))
  {
    ArrowIsNotNumbering(Trim(raw));
  }

  /** A caption line emits its cue when a time range is pending, and nothing otherwise. */
  lemma CaptionStep(raw: string, pending: string)
    requires IsCaptionLine(raw)
    ensures Step(raw, pending)
      == if pending != "" then ([Cue(pending, Collapse(Trim(raw)))], "") else ([], "")
  {
    TextLineWellFormed(Trim(raw));
  }

  /** Only the first text line after a time range is kept: the line after it,
      up to the next time range, is dropped. */
  lemma ContinuationLineDropped(lines: seq<string>)
    requires |lines| == 3
    requires IsTimeRangeLine(lines[0]) && IsCaptionLine(lines[1]) && IsCaptionLine(lines[2])
    ensures Cues(lines, "") == [Cue(Trim(lines[0]), Collapse(Trim(lines[1])))]
  {
    var time := Trim(lines[0]);
    TimeRangeStep(lines[0], "");
    CaptionStep(lines[1], time);
    CaptionStep(lines[2], "");
    assert time != "";
    CuesCons(lines, "");
    CuesCons(lines[1..], time);
    CuesCons(lines[2..], "");
    assert lines[1..][1..] == lines[2..] && lines[2..][1..] == [];
  }

  /** A time range followed directly by another one is overwritten and never emitted. */
  lemma TimeRangeOverwritten(lines: seq<string>)
    requires |lines| == 3
    requires IsTimeRangeLine(lines[0]) && IsTimeRangeLine(lines[1]) && IsCaptionLine(lines[2])
    ensures Cues(lines, "") == [Cue(Trim(lines[1]), Collapse(Trim(lines[2])))]
  {
    var time := Trim(lines[1]);
    TimeRangeStep(lines[0], "");
    TimeRangeStep(lines[1], Trim(lines[0]));
    CaptionStep(lines[2], time);
    assert time != "";
    CuesCons(lines, "");
    CuesCons(lines[1..], Trim(lines[0]));
    CuesCons(lines[2..], time);
    assert lines[1..][1..] == lines[2..] && lines[2..][1..] == [];
  }

  /** Preprocessing a transcript it produced changes nothing. */
  lemma PreprocessedIdempotent(content: string)
    ensures Preprocessed(Preprocessed(content)) == Preprocessed(content)
  {
    var cs := Cues(Lines(content), "");
    CuesWellFormed(Lines(content), "");
    RenderedCuesReparse(cs);
  }

  /** Reading back the rendering of well-formed cues gives the same cues. */
  lemma {:induction false} RenderedCuesReparse(cs: seq<Cue>)
    requires forall c :: c in cs ==> WellFormedCue(c)
    ensures Cues(Lines(JoinSep(Blocks(cs), "\n\n")), "") == cs
    decreases |cs|
  {
    if cs == [] {
      assert Lines("") == [""];
    } else if |cs| == 1 {
      assert cs[0] in cs;
      RenderedSingle(cs[0]);
      assert cs == [cs[0]];
    } else {
      assert cs[0] in cs;
      RenderedStep(cs);
      assert forall d :: d in cs[1..] ==> d in cs;
      RenderedCuesReparse(cs[1..]);
      assert cs == [cs[0]] + cs[1..];
    }
  }

  /** One well-formed cue reads back as itself. */
  lemma RenderedSingle(c: Cue)
    requires WellFormedCue(c)
    ensures Cues(Lines(JoinSep(Blocks([c]), "\n\n")), "") == [c]
  {
    assert Blocks([c]) == [Block(c)];
    assert JoinSep([Block(c)], "\n\n") == Block(c);
    BlockLines(c);
    CueReparse(c, []);
    assert [c.time, c.text] + [] == [c.time, c.text];
    assert Cues([], "") == [];
  }

  /** The first cue of a rendering of several reads back first, followed by the
      reading of the rest. */
  lemma RenderedStep(cs: seq<Cue>)
    requires |cs| > 1 && WellFormedCue(cs[0])
    ensures Cues(Lines(JoinSep(Blocks(cs), "\n\n")), "")
      == [cs[0]] + Cues(Lines(JoinSep(Blocks(cs[1..]), "\n\n")), "")
  {
    var tail := Lines(JoinSep(Blocks(cs[1..]), "\n\n"));
    RenderedLines(cs);
    CueReparse(cs[0], [""] + tail);
    BlankLineSkipped(tail);
  }

  /** The lines of a rendering of several cues: the first cue's two lines, the
      blank separator line, then the lines of the rest. */
  lemma RenderedLines(cs: seq<Cue>)
    requires |cs| > 1 && WellFormedCue(cs[0])
    ensures Lines(JoinSep(Blocks(cs), "\n\n"))
      == [cs[0].time, cs[0].text] + ([""] + Lines(JoinSep(Blocks(cs[1..]), "\n\n")))
  {
    var c := cs[0];
    var rest := JoinSep(Blocks(cs[1..]), "\n\n");
    assert Blocks(cs)[1..] == Blocks(cs[1..]);
    assert JoinSep(Blocks(cs), "\n\n") == Block(c) + "\n" + ("" + "\n" + rest);
    BlockLines(c);
    LinesAppend(Block(c), "" + "\n" + rest);
    LinesAppend("", rest);
    assert Lines("") == [""];
  }

  /** A blank line emits nothing when no time range is pending. */
  lemma BlankLineSkipped(tail: seq<string>)
    ensures Cues([""] + tail, "") == Cues(tail, "")
  {
    assert ([""] + tail)[0] == "";
    assert ([""] + tail)[1..] == tail;
    assert Step("", "") == ([], "");
  }

  /** The lines of one rendered block are its time range and its text. */
  lemma BlockLines(c: Cue)
    requires WellFormedCue(c)
    ensures Lines(Block(c)) == [c.time, c.text]
  {
    LinesOfLine(c.time);
    LinesOfLine(c.text);
    LinesAppend(c.time, c.text);
  }

  /** A rendered cue's two lines read back as that cue, whatever follows. */
  lemma CueReparse(c: Cue, rest: seq<string>)
    requires WellFormedCue(c)
    ensures Cues([c.time, c.text] + rest, "") == [c] + Cues(rest, "")
  {
    ArrowIsNotNumbering(c.time);
    CollapseIdempotent(c.text, false);
    var lines := [c.time, c.text] + rest;
    assert lines[0] == c.time && lines[1] == c.text;
    assert Step(c.time, "") == ([], c.time);
    assert Step(c.text, c.time) == ([c], "");
    assert lines[1..][0] == c.text;
    assert lines[1..][1..] == rest;
  }

  // ---------------------------------------------------------------------------
  // The video id pattern of the extraction handler (line 51): an unanchored,
  // case-insensitive search for youtube.com/ followed by one of three path
  // shapes, or youtu.be/, followed by a capture of exactly eleven characters.

  /** The i flag without the u flag folds only the ASCII letters of this pattern. */
  function LowerAscii(c: char): (d: char)
    ensures IsWhitespace(d) <==> IsWhitespace(c)
    ensures !('A' <= c <= 'Z') ==> d == c
    ensures 'A' <= c <= 'Z' ==> 'a' <= d <= 'z' && (d as int) - ('a' as int) == (c as int) - ('A' as int)
  {
    if 'A' <= c <= 'Z' then (c as int + 32) as char else c
  }

  /** The lower-case literal `lit` occurs in s at i, ignoring ASCII case. */
  predicate FoldedAt(s: string, i: nat, lit: string) {
    i + |lit| <= |s| && forall k :: 0 <= k < |lit| ==> LowerAscii(s[i + k]) == lit[k]
  }

  /** The captured class [^"&?\/\s]. */
  predicate IsCaptureChar(c: char) {
    c != '"' && c != '&' && c != '?' && c != '/' && !IsWhitespace(c)
  }

  /** What the capture group holds: eleven characters of the captured class. */
  predicate IsControllerId(id: string) {
    |id| == 11 && forall k :: 0 <= k < 11 ==> IsCaptureChar(id[k])
  }

  /** The capture group can match at k. */
  predicate CaptureAt(s: string, k: nat) {
    k + 11 <= |s| && forall t :: k <= t < k + 11 ==> IsCaptureChar(s[t])
  }

  /** The first '/' at or after j, or the end of s: where [^\/]+ stops. */
  function SlashFrom(s: string, j: nat): (a: nat)
    requires j <= |s|
    ensures j <= a <= |s|
    ensures forall k :: j <= k < a ==> s[k] != '/'
    ensures a == |s| || s[a] == '/'
    decreases |s| - j
  {
    if j == |s| || s[j] == '/' then j else SlashFrom(s, j + 1)
  }

  /** The slash at b ends `.+\/` and the capture follows it. */
  predicate SlashHit(s: string, b: nat) {
    b < |s| && s[b] == '/' && CaptureAt(s, b + 1)
  }

  /** The greedy `.+\/`: the last usable slash at or below b and at or above lo. */
  function LastSlashCapture(s: string, lo: nat, b: nat): (r: Option<string>)
    requires b <= |s|
    ensures r.Some? ==> IsControllerId(r.value)
    decreases b
  {
    if b < lo then None
    else if SlashHit(s, b) then Some(s[b + 1..b + 12])
    else if b == 0 then None
    else LastSlashCapture(s, lo, b - 1)
  }

  /** The first alternative after youtube.com/: [^\/]+\/.+\/ then the capture.
      [^\/]+ can only stop at the first slash, and `.+` must take at least one
      character of the same line. */
  function SegmentsCapture(s: string, j: nat): (r: Option<string>)
    requires j <= |s|
    ensures r.Some? ==> IsControllerId(r.value)
  {
    var a := SlashFrom(s, j);
    if a == j || a == |s| then None
    else LastSlashCapture(s, a + 2, DotEnd(s, a + 1))
  }

  /** The second alternative after youtube.com/: (?:v|e(?:mbed)?)\/ then the
      capture, with `v` tried first and the optional `mbed` taken when it can be. */
  function ShortPathCapture(s: string, j: nat): (r: Option<string>)
    requires j <= |s|
    ensures r.Some? ==> IsControllerId(r.value)
  {
    if FoldedAt(s, j, "v/") && CaptureAt(s, j + 2) then Some(s[j + 2..j + 13])
    else if FoldedAt(s, j, "embed/") && CaptureAt(s, j + 6) then Some(s[j + 6..j + 17])
    else if FoldedAt(s, j, "e/") && CaptureAt(s, j + 2) then Some(s[j + 2..j + 13])
    else None
  }

  /** The `?v=` or `&v=` at c is followed by the capture. */
  predicate QueryHit(s: string, c: nat) {
    && c + 3 <= |s| && (s[c] == '?' || s[c] == '&')
    && LowerAscii(s[c + 1]) == 'v' && s[c + 2] == '='
    && CaptureAt(s, c + 3)
  }

  /** The third alternative after youtube.com/: the greedy `.*[?&]v=` tries the
      last usable parameter on the line first, at or below c and at or above lo. */
  function QueryCapture(s: string, lo: nat, c: nat): (r: Option<string>)
    requires c <= |s|
    ensures r.Some? ==> IsControllerId(r.value)
    decreases c
  {
    if c < lo then None
    else if QueryHit(s, c) then Some(s[c + 3..c + 14])
    else if c == 0 then None
    else QueryCapture(s, lo, c - 1)
  }

  /** The branch youtube.com/ of the pattern tried at position p, with its
      three alternatives in their order. */
  function LongFormAt(s: string, p: nat): (r: Option<string>)
    requires p <= |s|
    ensures r.Some? ==> IsControllerId(r.value)
  {
    if !FoldedAt(s, p, "youtube.com/") then None
    else
      var segments := SegmentsCapture(s, p + 12);
      if segments.Some? then segments
      else
        var short := ShortPathCapture(s, p + 12);
        if short.Some? then short else QueryCapture(s, p + 12, DotEnd(s, p + 12))
  }

  /** The branch youtu.be/ of the pattern tried at position p. */
  function ShortLinkAt(s: string, p: nat): (r: Option<string>)
    requires p <= |s|
    ensures r.Some? ==> IsControllerId(r.value)
  {
    if FoldedAt(s, p, "youtu.be/") && CaptureAt(s, p + 9) then Some(s[p + 9..p + 20]) else None
  }

  /** The whole pattern tried at position p: the first branch, then the second. */
  function PatternAt(s: string, p: nat): (r: Option<string>)
    requires p <= |s|
    ensures r.Some? ==> IsControllerId(r.value)
  {
    var long := LongFormAt(s, p);
    if long.Some? then long else ShortLinkAt(s, p)
  }

  /** The pattern tried at every position of s, from the left. */
  function Attempts(s: string): (ms: seq<Option<string>>)
    ensures |ms| == |s| + 1
    ensures forall p :: 0 <= p <= |s| ==> ms[p] == PatternAt(s, p)
  {
    seq(|s| + 1, p requires 0 <= p <= |s| => PatternAt(s, p))
  }

  /** The first attempt that succeeds: match() reports the leftmost match. */
  function FirstSome(ms: seq<Option<string>>): (r: Option<string>)
    ensures r.Some? ==> r in ms
    decreases |ms|
  {
    if ms == [] then None else if ms[0].Some? then ms[0] else FirstSome(ms[1..])
  }

  /** url.match(pattern)?.[1]: the id the extraction handler works with. */
  function ControllerVideoId(url: string): (r: Option<string>)
    ensures r.Some? ==> IsControllerId(r.value)
  {
    FirstSome(Attempts(url))
  }

  /** Neither literal of the pattern can start where no y or Y stands. */
  lemma NoPatternWithoutY(s: string, p: nat)
    requires p <= |s|
    requires p == |s| || LowerAscii(s[p]) != 'y'
    ensures PatternAt(s, p) == None
  {
    assert LongFormAt(s, p) == None by {
      assert "youtube.com/"[0] == 'y';
    }
    assert ShortLinkAt(s, p) == None by {
      assert "youtu.be/"[0] == 'y';
    }
  }

  /** No match starts in the last eleven characters: both literals and the
      capture after them are longer than that. */
  lemma NoPatternNearEnd(s: string, p: nat)
    requires p <= |s| < p + 12
    ensures PatternAt(s, p) == None
  {
    assert !FoldedAt(s, p, "youtube.com/");
    assert !CaptureAt(s, p + 9);
  }

  /** The first success decides, when every attempt before it failed. */
  lemma {:induction false} FirstSomeAt(ms: seq<Option<string>>, k: nat)
    requires k < |ms| && ms[k].Some?
    requires forall j :: 0 <= j < k ==> ms[j] == None
    ensures FirstSome(ms) == ms[k]
    decreases k
  {
    if k > 0 {
      FirstSomeAt(ms[1..], k - 1);
    }
  }

  /** No success is found exactly when every attempt fails. */
  lemma {:induction false} FirstSomeNone(ms: seq<Option<string>>)
    ensures FirstSome(ms) == None <==> forall j :: 0 <= j < |ms| ==> ms[j] == None
    decreases |ms|
  {
    if ms != [] {
      FirstSomeNone(ms[1..]);
      assert forall j :: 1 <= j < |ms| ==> ms[j] == ms[1..][j - 1];
    }
  }

  /** The leftmost position where the pattern matches decides the id. */
  lemma ControllerVideoIdAt(s: string, p: nat)
    requires p <= |s| && PatternAt(s, p).Some?
    requires forall k :: 0 <= k < p ==> PatternAt(s, k) == None
    ensures ControllerVideoId(s) == PatternAt(s, p)
  {
    FirstSomeAt(Attempts(s), p);
  }

  /** match() gives null exactly when no position starts a match. */
  lemma ControllerVideoIdNone(s: string)
    ensures ControllerVideoId(s) == None <==> forall p :: 0 <= p <= |s| ==> PatternAt(s, p) == None
  {
    FirstSomeNone(Attempts(s));
  }

  /** Positions that hold no usable `[?&]v=` do not stop the greedy search. */
  lemma {:induction false} QueryCaptureSkip(s: string, lo: nat, c: nat, c0: nat)
    requires lo <= c0 <= c <= |s|
    requires forall k :: c0 < k <= c ==> !QueryHit(s, k)
    ensures QueryCapture(s, lo, c) == QueryCapture(s, lo, c0)
    decreases c - c0
  {
    if c0 < c {
      QueryCaptureSkip(s, lo, c - 1, c0);
    }
  }

  /** A lower-case literal that occurs at i occurs there ignoring case. */
  lemma FoldedLiteral(s: string, i: nat, lit: string)
    requires i + |lit| <= |s| && s[i..i + |lit|] == lit
    requires forall c :: c in lit ==> !('A' <= c <= 'Z')
    ensures FoldedAt(s, i, lit)
  {
    assert forall k :: 0 <= k < |lit| ==> s[i + k] == lit[k] && lit[k] in lit;
  }

  lemma LongLiteralText()
    ensures |"youtube.com/"| == 12
    ensures forall c :: c in "youtube.com/" ==> !('A' <= c <= 'Z')
  {
  }

  /** When `youtube.com/` at n is followed by a path with no slash and no line
      break that starts with neither v nor e, and nothing before n can start a
      match, only the third alternative decides, tried from the end of the string. */
  lemma LongFormQuery(s: string, n: nat)
    requires n + 12 < |s| && s[n..n + 12] == "youtube.com/"
    requires forall k :: 0 <= k < n ==> s[k] != 'y' && s[k] != 'Y'
    requires LowerAscii(s[n + 12]) != 'v' && LowerAscii(s[n + 12]) != 'e'
    requires forall k :: n + 12 <= k < |s| ==> s[k] != '/' && !IsLineTerminator(s[k])
    requires QueryCapture(s, n + 12, |s|).Some?
    ensures ControllerVideoId(s) == QueryCapture(s, n + 12, |s|)
  {
    forall k | 0 <= k < n ensures PatternAt(s, k) == None {
      NoPatternWithoutY(s, k);
    }
    LongLiteralText();
    FoldedLiteral(s, n, "youtube.com/");
    PathAlternatives(s, n + 12);
    assert PatternAt(s, n) == QueryCapture(s, n + 12, |s|);
    ControllerVideoIdAt(s, n);
  }

  /** The first two alternatives fail on a path with no slash that starts with
      neither v nor e, and `.*` reaches the end of the string. */
  lemma PathAlternatives(s: string, j: nat)
    requires j < |s| && LowerAscii(s[j]) != 'v' && LowerAscii(s[j]) != 'e'
    requires forall k :: j <= k < |s| ==> s[k] != '/' && !IsLineTerminator(s[k])
    ensures SegmentsCapture(s, j) == None
    ensures ShortPathCapture(s, j) == None
    ensures DotEnd(s, j) == |s|
  {
    assert "v/"[0] == 'v' && "embed/"[0] == 'e' && "e/"[0] == 'e';
  }

  lemma WatchUrlText()
    ensures |"https://www.youtube.com/watch?v="| == 32
    ensures "https://www.youtube.com/watch?v="[12..24] == "youtube.com/"
    ensures forall k :: 0 <= k < 12 ==> "https://www.youtube.com/watch?v="[k] !in "yY"
    ensures "https://www.youtube.com/watch?v="[24] == 'w'
    ensures "https://www.youtube.com/watch?v="[29..] == "?v="
    ensures forall k :: 24 <= k < 32 ==> "https://www.youtube.com/watch?v="[k] !in "/\n\r\U{2028}\U{2029}"
  {
  }

  /** The canonical watch address gives back its eleven-character id. */
  lemma ControllerCanonicalWatch(id: string)
    requires IsControllerId(id)
    ensures ControllerVideoId("https://www.youtube.com/watch?v=" + id) == Some(id)
  {
    var w := "https://www.youtube.com/watch?v=";
    var s := w + id;
    WatchUrlText();
    assert forall k :: 0 <= k < 32 ==> s[k] == w[k];
    assert forall k :: 0 <= k < 11 ==> s[32 + k] == id[k];
    assert s[12..24] == w[12..24];
    assert QueryHit(s, 29) by {
      assert s[29..32] == w[29..];
    }
    assert s[32..43] == id;
    QueryCaptureSkip(s, 24, 43, 29);
    LongFormQuery(s, 12);
  }

  /** The layout of a watch address carrying two `v=` parameters. */
  lemma TwoQueryUrl(a: string, b: string)
    requires IsControllerId(a) && IsControllerId(b)
    ensures var s := "https://www.youtube.com/watch?v=" + a + "&v=" + b;
      && |s| == 57 && s[12..24] == "youtube.com/" && s[24] == 'w'
      && (forall k :: 0 <= k < 12 ==> s[k] != 'y' && s[k] != 'Y')
      && (forall k :: 24 <= k < 57 ==> s[k] != '/' && !IsLineTerminator(s[k]))
      && s[43..46] == "&v=" && s[46..57] == b
      && (forall k :: 46 <= k < 57 ==> IsCaptureChar(s[k]))
  {
    var w := "https://www.youtube.com/watch?v=";
    var s := w + a + "&v=" + b;
    WatchUrlText();
    assert forall k :: 0 <= k < 32 ==> s[k] == w[k];
    assert forall k :: 0 <= k < 11 ==> s[32 + k] == a[k] && s[46 + k] == b[k];
    assert s[12..24] == w[12..24];
  }

  /** With several `v=` parameters on the line, the greedy `.*` makes the last
      one with an eleven-character value win. */
  lemma ControllerLastQueryWins(a: string, b: string)
    requires IsControllerId(a) && IsControllerId(b)
    ensures ControllerVideoId("https://www.youtube.com/watch?v=" + a + "&v=" + b) == Some(b)
  {
    var s := "https://www.youtube.com/watch?v=" + a + "&v=" + b;
    TwoQueryUrl(a, b);
    assert QueryHit(s, 43);
    assert forall k :: 43 < k <= 57 ==> !QueryHit(s, k) by {
      forall k | 43 < k <= 57 ensures !QueryHit(s, k) {
        if k + 3 <= |s| {
          assert s[k] != '?' && s[k] != '&';
        }
      }
    }
    QueryCaptureSkip(s, 24, 57, 43);
    LongFormQuery(s, 12);
  }

  lemma ShortUrlText()
    ensures |"https://youtu.be/"| == 17
    ensures "https://youtu.be/"[8..] == "youtu.be/"
    ensures "https://youtu.be/"[13] == '.'
    ensures forall k :: 0 <= k < 8 ==> "https://youtu.be/"[k] !in "yY"
    ensures forall c :: c in "youtu.be/" ==> !('A' <= c <= 'Z')
  {
  }

  /** A short link captures the first eleven characters after youtu.be/,
      whatever follows them. */
  lemma ControllerCanonicalShort(id: string, rest: string)
    requires IsControllerId(id)
    ensures ControllerVideoId("https://youtu.be/" + id + rest) == Some(id)
  {
    var h := "https://youtu.be/";
    var s := h + id + rest;
    ShortUrlText();
    assert forall k :: 0 <= k < 17 ==> s[k] == h[k];
    assert forall k :: 0 <= k < 11 ==> s[17 + k] == id[k];
    forall k | 0 <= k < 8 ensures PatternAt(s, k) == None {
      NoPatternWithoutY(s, k);
    }
    assert LongFormAt(s, 8) == None by {
      assert LowerAscii(s[13]) == '.' != "youtube.com/"[5];
    }
    assert s[8..17] == "youtu.be/";
    FoldedLiteral(s, 8, "youtu.be/");
    assert s[17..28] == id;
    assert PatternAt(s, 8) == Some(id);
    ControllerVideoIdAt(s, 8);
  }

  /** A short link whose id is shorter than eleven characters is refused. */
  lemma ControllerRejectsShortId(id: string)
    requires |id| < 11
    ensures ControllerVideoId("https://youtu.be/" + id) == None
  {
    var h := "https://youtu.be/";
    var s := h + id;
    ShortUrlText();
    forall p | 0 <= p <= |s| ensures PatternAt(s, p) == None {
      if p >= 17 {
        NoPatternNearEnd(s, p);
      } else if p != 8 {
        assert s[p] == h[p];
        NoPatternWithoutY(s, p);
      } else {
        assert LongFormAt(s, 8) == None by {
          assert s[13] == h[13];
          assert LowerAscii(s[13]) == '.' != "youtube.com/"[5];
        }
      }
    }
    ControllerVideoIdNone(s);
  }

  // ---------------------------------------------------------------------------
  // extractSubtitles: validation, the cache by (video, user, language), the
  // empty-file check and the insert of the preprocessed transcript

  /** req.query.lang || 'en'. */
  function Language(lang: Option<string>): (r: string)
    ensures r != ""
  {
    if lang.Some? && lang.value != "" then lang.value else "en"
  }

  /** extractSubtitles for the caller `userId`. `url` is the url of the body
      and `lang` the query parameter, None when absent. What youtube-dl and the
      file system give are parameters: `videoTitle` is the title in the video's
      info, `raw` the content of the .vtt or else the .srt caption file, None
      when neither could be read. `now` is the ISO time of the insert. The
      reply holds the id of the stored transcript. */
  method ExtractSubtitles(db: Database, url: Option<string>, lang: Option<string>, userId: string,
                          videoTitle: string, raw: Option<string>, now: string)
    returns (reply: Reply<nat>)
    requires db.Valid()
    modifies db
    ensures db.Valid()
    ensures db.analyses == old(db.analyses)
    ensures url.None? || url.value == "" ==>
      reply == Fail(400, "URL is required") && unchanged(db)
    ensures url.Some? && url.value != "" && ControllerVideoId(url.value).None? ==>
      reply == Fail(400, "Invalid YouTube URL") && unchanged(db)
    ensures url.Some? && url.value != "" && ControllerVideoId(url.value).Some? ==>
      var videoId := ControllerVideoId(url.value).value;
      var language := Language(lang);
      var existing := old(db.SubtitleIdsFor(videoId, userId, language));
      if existing != {} then
        // already extracted: its id, and nothing is written
        reply.Ok? && reply.value in existing && unchanged(db)
      else if raw.None? || raw.value == "" then
        reply == Fail(404, "No subtitles found for this video") && unchanged(db)
      else
        && reply.Ok? && reply.value !in old(db.subtitles)
        && db.subtitles == old(db.subtitles)[reply.value :=
             SubtitleRow(userId, videoId, videoTitle, language, Preprocessed(raw.value), true, now, now)]
        && db.SubtitleIdsFor(videoId, userId, language) == {reply.value}
  {
    if url.None? || url.value == "" {
      return Fail(400, "URL is required");
    }
    var videoId := ControllerVideoId(url.value);
    if videoId.None? {
      return Fail(400, "Invalid YouTube URL");
    }
    var language := Language(lang);
    var existing := db.FindSubtitle(videoId.value, userId, language);
    if existing.Some? {
      return Ok(existing.value);
    }
    if raw.None? || raw.value == "" {
      return Fail(404, "No subtitles found for this video");
    }
    var content := PreprocessSubtitles(raw.value);
    var id := db.InsertSubtitle(
      SubtitleRow(userId, videoId.value, videoTitle, language, content, true, now, now));
    reply := Ok(id);
  }
}
