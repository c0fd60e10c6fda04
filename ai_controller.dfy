/** src/controllers/aiController.js: the chapter prompt (createChapterPrompt)
    and the store logic of the two chapter handlers, analyzeSubtitles (a
    read-through cache keyed by subtitle id) and regenerateChapters (always
    generate, then update in place or insert). */
module AiController {
  import opened Text
  import opened Http
  import opened Storage

  // ---------------------------------------------------------------------------
  // parseInt(value, 10)

  /** The leading run of ASCII digits of s. */
  function LeadingDigits(s: string): (ds: string)
    ensures |ds| <= |s| && ds == s[..|ds|]
    ensures forall i :: 0 <= i < |ds| ==> IsDigit(ds[i])
    ensures |ds| == |s| || !IsDigit(s[|ds|])
    decreases |s|
  {
    if s != [] && IsDigit(s[0]) then [s[0]] + LeadingDigits(s[1..]) else []
  }

  /** What follows an optional leading sign. */
  function UnsignedPart(t: string): (r: string)
    ensures r == t || (t != [] && (t[0] == '-' || t[0] == '+') && r == t[1..])
  {
    if t != [] && (t[0] == '-' || t[0] == '+') then t[1..] else t
  }

  /** parseInt(s, 10) on the string form of the value: leading whitespace is
      skipped, one sign is read, then the longest run of decimal digits; no
      digits gives NaN, here None. */
  function ParseInt(s: string): (r: Option<int>)
    ensures r.Some? <==> LeadingDigits(UnsignedPart(TrimStart(s))) != []
  {
    ParseSigned(TrimStart(s))
  }

  /** parseInt after the leading whitespace. */
  function ParseSigned(t: string): (r: Option<int>)
    ensures r.Some? <==> LeadingDigits(UnsignedPart(t)) != []
  {
    var ds := LeadingDigits(UnsignedPart(t));
    if ds == [] then None
    else if t[0] == '-' then Some(-(DigitsValue(ds) as int))
    else Some(DigitsValue(ds))
  }

  /** The decimal rendering read back by parseInt gives the number, whatever
      non-digit text follows it. */
  lemma ParseIntOfNat(n: nat, rest: string)
    requires rest == [] || !IsDigit(rest[0])
    ensures ParseInt(NatToString(n) + rest) == Some(n)
  {
    DigitsThen(NatToString(n), rest);
  }

  /** A run of digits followed by a non-digit reads back as its value. */
  lemma DigitsThen(ds: string, rest: string)
    requires ds != [] && forall i :: 0 <= i < |ds| ==> IsDigit(ds[i])
    requires rest == [] || !IsDigit(rest[0])
    ensures ParseInt(ds + rest) == Some(DigitsValue(ds))
  {
    var s := ds + rest;
    assert IsDigit(s[0]) by { assert s[0] == ds[0]; }
    assert TrimStart(s) == s by { assert !IsWhitespace(s[0]); }
    assert UnsignedPart(s) == s;
    assert LeadingDigits(s) == ds by { LeadingDigitsOfDigits(ds, rest); }
    assert ParseSigned(s) == Some(DigitsValue(ds));
  }

  lemma {:induction false} LeadingDigitsOfDigits(ds: string, rest: string)
    requires forall i :: 0 <= i < |ds| ==> IsDigit(ds[i])
    requires rest == [] || !IsDigit(rest[0])
    ensures LeadingDigits(ds + rest) == ds
    decreases |ds|
  {
    if ds == [] {
      assert ds + rest == rest;
    } else {
      assert (ds + rest)[0] == ds[0];
      assert (ds + rest)[1..] == ds[1..] + rest;
      LeadingDigitsOfDigits(ds[1..], rest);
      assert [ds[0]] + ds[1..] == ds;
    }
  }

  /** Leading whitespace does not change what parseInt reads. */
  lemma ParseIntSkipsWhitespace(ws: string, s: string)
    requires forall i :: 0 <= i < |ws| ==> IsWhitespace(ws[i])
    ensures ParseInt(ws + s) == ParseInt(s)
  {
    TrimStartPrefix(ws, s);
  }

  lemma {:induction false} TrimStartPrefix(ws: string, s: string)
    requires forall i :: 0 <= i < |ws| ==> IsWhitespace(ws[i])
    ensures TrimStart(ws + s) == TrimStart(s)
    decreases |ws|
  {
    if ws == [] {
      assert ws + s == s;
    } else {
      assert (ws + s)[1..] == ws[1..] + s;
      TrimStartPrefix(ws[1..], s);
    }
  }

  /** A leading minus sign negates the number read from text that starts
      with a digit, whatever follows the digits. */
  lemma ParseIntNegative(t: string, v: int)
    requires t != [] && IsDigit(t[0]) && ParseInt(t) == Some(v)
    ensures ParseInt("-" + t) == Some(-v)
  {
    var s := "-" + t;
    assert s[0] == '-' && s[1..] == t;
    assert TrimStart(t) == t by { assert !IsWhitespace(t[0]); }
    assert UnsignedPart(t) == t;
    var ds := LeadingDigits(t);
    assert ParseInt(t) == ParseSigned(t);
    assert ParseSigned(t) == Some(DigitsValue(ds) as int);
    assert TrimStart(s) == s by { assert !IsWhitespace(s[0]); }
    assert UnsignedPart(s) == t;
    assert ParseSigned(s) == Some(-(DigitsValue(ds) as int));
  }

  /** A minus sign and a non-empty run of digits read back as the negated value. */
  lemma MinusDigits(ds: string, v: nat)
    requires ds != [] && forall i :: 0 <= i < |ds| ==> IsDigit(ds[i])
    requires DigitsValue(ds) == v
    ensures ParseInt("-" + ds) == Some(-(v as int))
  {
    var s := "-" + ds;
    assert s[0] == '-' && s[1..] == ds;
    assert TrimStart(s) == s by { assert !IsWhitespace(s[0]); }
    assert UnsignedPart(s) == ds;
    assert LeadingDigits(ds) == ds by {
      LeadingDigitsOfDigits(ds, "");
      assert ds + "" == ds;
    }
  }

  /** The count createChapterPrompt honours: parseInt gives a positive number.
      None stands for a chapterCount that was not sent. */
  function RequestedCount(chapterCount: Option<string>): (r: Option<nat>)
    ensures r.Some? ==> r.value > 0
    ensures r.Some? <==> chapterCount.Some? && ParseInt(chapterCount.value).Some?
                         && ParseInt(chapterCount.value).value > 0
    ensures r.Some? ==> chapterCount.Some? && ParseInt(chapterCount.value) == Some(r.value as int)
  {
    if chapterCount.None? then None
    else
      var count := ParseInt(chapterCount.value);
      if count.Some? && count.value > 0 then Some(count.value) else None
  }

  // ---------------------------------------------------------------------------
  // createChapterPrompt

  const PromptOpening :=
    "Analyze the following video transcript and create a minimal set of logical chapters. "
    + "Focus only on major topic transitions and key points.\n"

  /** The fixed format text with its JSON example and the fixed guidelines. */
  const FormatText :=
    "Format the response as a JSON array of objects with 'timestamp' and 'title' properties.\n"
    + "Example format:\n"
    + "[\n"
    + "  {\"timestamp\": \"00:00\", \"title\": \"Introduction\"},\n"
    + "  {\"timestamp\": \"02:30\", \"title\": \"Main Topic\"},\n"
    + "  {\"timestamp\": \"05:45\", \"title\": \"Conclusion\"}\n"
    + "]\n"
    + "Guidelines:\n"
    + "- Create only essential chapters\n"
    + "- Use clear, concise titles\n"
    + "- Only include timestamps for significant topic changes\n"
    + "- Avoid creating too many small chapters\n"

  const TranscriptHeading := "Here's the transcript:\n\n"

  const DefaultInstruction :=
    "Keep the number of chapters between 5-10, only creating new chapters when there's a significant topic change."

  const DefaultGuideline := "- Maximum 10 chapters"

  function CountInstruction(n: nat): string {
    "Create exactly " + NatToString(n) + " logical chapters."
  }

  function CountGuideline(n: nat): string {
    "- Create exactly " + NatToString(n) + " chapters"
  }

  /** The chapter instruction and the last guideline, by requested count. */
  function Instruction(count: Option<nat>): string {
    if count.Some? then CountInstruction(count.value) else DefaultInstruction
  }

  function Guideline(count: Option<nat>): string {
    if count.Some? then CountGuideline(count.value) else DefaultGuideline
  }

  /** The pieces of the template literal before the transcript, in order. */
  function PromptParts(chapterCount: Option<string>): (parts: seq<string>)
    ensures |parts| == 7
  {
    var count := RequestedCount(chapterCount);
    [PromptOpening, Instruction(count), "\n", FormatText, Guideline(count), "\n\n", TranscriptHeading]
  }

  /** createChapterPrompt(transcript, chapterCount): the fixed pieces with the
      chosen instruction and guideline, then the transcript. */
  function CreateChapterPrompt(transcript: string, chapterCount: Option<string>): string {
    Concat(PromptParts(chapterCount)) + transcript
  }

  function Concat(parts: seq<string>): string
    decreases |parts|
  {
    if parts == [] then "" else parts[0] + Concat(parts[1..])
  }

  lemma {:induction false} ConcatSplit(parts: seq<string>, k: nat)
    requires k <= |parts|
    ensures Concat(parts) == Concat(parts[..k]) + Concat(parts[k..])
    decreases k
  {
    if k == 0 {
      assert parts[..0] == [] && parts[0..] == parts;
    } else {
      ConcatSplit(parts[1..], k - 1);
      assert parts[1..][..k - 1] == parts[1..k];
      assert parts[1..][k - 1..] == parts[k..];
      assert parts[..k][1..] == parts[1..k];
    }
  }

  /** Every piece of a concatenation occurs in it, whatever follows. */
  lemma ConcatContainsPart(parts: seq<string>, k: nat, tail: string)
    requires k < |parts|
    ensures Contains(Concat(parts) + tail, parts[k])
  {
    ConcatSplit(parts, k);
    var before := Concat(parts[..k]);
    var after := Concat(parts[k + 1..]);
    assert parts[k..][1..] == parts[k + 1..];
    assert Concat(parts[k..]) == parts[k] + after;
    assert Concat(parts) + tail == before + parts[k] + (after + tail);
    ContainsInside(before, parts[k], after + tail);
  }

  /** A concatenation ends with its last piece. */
  lemma ConcatEndsWithLast(parts: seq<string>)
    requires parts != []
    ensures EndsWith(Concat(parts), parts[|parts| - 1])
  {
    var n := |parts|;
    ConcatSplit(parts, n - 1);
    assert parts[n - 1..] == [parts[n - 1]];
    assert Concat([parts[n - 1]]) == parts[n - 1] + "";
    assert parts[n - 1] + "" == parts[n - 1];
  }

  /** A concatenation followed by anything starts with its first piece. */
  lemma ConcatStartsWithFirst(parts: seq<string>, tail: string)
    requires parts != []
    ensures StartsWith(Concat(parts) + tail, parts[0])
  {
    var s := Concat(parts) + tail;
    assert s == parts[0] + (Concat(parts[1..]) + tail);
    assert s[..|parts[0]|] == parts[0];
  }

  /** A concatenation followed by a tail ends with its last piece and the tail. */
  lemma ConcatEndsWithLastThen(parts: seq<string>, tail: string)
    requires parts != []
    ensures EndsWith(Concat(parts) + tail, parts[|parts| - 1] + tail)
  {
    ConcatEndsWithLast(parts);
    EndsWithThen(Concat(parts), parts[|parts| - 1], tail);
  }

  /** Appending the same tail keeps a suffix a suffix. */
  lemma EndsWithThen(s: string, w: string, tail: string)
    requires EndsWith(s, w)
    ensures EndsWith(s + tail, w + tail)
  {
    var r := s + tail;
    assert r[|r| - (|w| + |tail|)..] == s[|s| - |w|..] + tail;
  }

  predicate StartsWith(s: string, w: string) {
    |w| <= |s| && s[..|w|] == w
  }

  predicate EndsWith(s: string, w: string) {
    |w| <= |s| && s[|s| - |w|..] == w
  }

  /** A positive parsed count puts both exact-count sentences in the prompt. */
  lemma PromptWithCount(transcript: string, chapterCount: string, n: nat)
    requires ParseInt(chapterCount) == Some(n) && n > 0
    ensures Contains(CreateChapterPrompt(transcript, Some(chapterCount)), CountInstruction(n))
    ensures Contains(CreateChapterPrompt(transcript, Some(chapterCount)), CountGuideline(n))
  {
    var parts := PromptParts(Some(chapterCount));
    assert RequestedCount(Some(chapterCount)) == Some(n);
    ConcatContainsPart(parts, 1, transcript);
    ConcatContainsPart(parts, 4, transcript);
  }

  /** An absent, non-numeric, zero or negative count keeps the default
      instruction and the ten-chapter cap. */
  lemma PromptByDefault(transcript: string, chapterCount: Option<string>)
    requires chapterCount.None? || ParseInt(chapterCount.value).None?
             || ParseInt(chapterCount.value).value <= 0
    ensures Contains(CreateChapterPrompt(transcript, chapterCount), DefaultInstruction)
    ensures Contains(CreateChapterPrompt(transcript, chapterCount), DefaultGuideline)
  {
    var parts := PromptParts(chapterCount);
    assert RequestedCount(chapterCount) == None;
    ConcatContainsPart(parts, 1, transcript);
    ConcatContainsPart(parts, 4, transcript);
  }

  /** Whatever the count, the prompt opens with the fixed request. */
  lemma PromptOpensWithRequest(transcript: string, chapterCount: Option<string>)
    ensures StartsWith(CreateChapterPrompt(transcript, chapterCount), PromptOpening)
  {
    ConcatStartsWithFirst(PromptParts(chapterCount), transcript);
  }

  /** Whatever the count, the prompt holds the fixed format text with its
      JSON example and the fixed guidelines. */
  lemma PromptHoldsFormat(transcript: string, chapterCount: Option<string>)
    ensures Contains(CreateChapterPrompt(transcript, chapterCount), FormatText)
  {
    ConcatContainsPart(PromptParts(chapterCount), 3, transcript);
  }

  /** Whatever the count, the prompt ends with the transcript heading followed
      by the transcript verbatim. */
  lemma PromptEndsWithTranscript(transcript: string, chapterCount: Option<string>)
    ensures EndsWith(CreateChapterPrompt(transcript, chapterCount), TranscriptHeading + transcript)
  {
    ConcatEndsWithLastThen(PromptParts(chapterCount), transcript);
  }

  /** The prompt determines its transcript: equal prompts for the same count
      come from equal transcripts. */
  lemma PromptDeterminesTranscript(t1: string, t2: string, chapterCount: Option<string>)
    requires CreateChapterPrompt(t1, chapterCount) == CreateChapterPrompt(t2, chapterCount)
    ensures t1 == t2
  {
    var head := Concat(PromptParts(chapterCount));
    assert (head + t1)[|head|..] == t1;
    assert (head + t2)[|head|..] == t2;
  }

  // ---------------------------------------------------------------------------
  // The two chapter handlers

  /** The JSON body of a successful chapter reply. */
  datatype ChapterReply = ChapterReply(
    subtitleId: nat,
    videoId: string,
    videoTitle: string,
    analysisId: nat,
    chapters: seq<Chapter>)

  /** The subtitle row exists and belongs to the caller. */
  predicate Owned(subtitles: map<nat, SubtitleRow>, subtitleId: nat, userId: string) {
    subtitleId in subtitles && subtitles[subtitleId].userId == userId
  }

  /** The chapters the model's answer decodes to; None when the call or
      JSON.parse throws. */
  function Generated(respond: string -> Option<string>, decode: string -> Option<seq<Chapter>>,
                     prompt: string): Option<seq<Chapter>>
  {
    var text := respond(prompt);
    if text.None? then None else decode(text.value)
  }

  /** analyzeSubtitles: return the stored analysis of the caller's subtitle if
      there is one, otherwise generate chapters and insert them.
      subtitleId None stands for a missing route parameter. */
  method AnalyzeSubtitles(db: Database, model: GenerativeModel, decode: string -> Option<seq<Chapter>>,
                          subtitleId: Option<nat>, userId: string, chapterCount: Option<string>,
                          now: string)
    returns (reply: Reply<ChapterReply>)
    requires db.Valid()
    modifies db, model
    ensures db.Valid()
    ensures db.subtitles == old(db.subtitles)
    ensures subtitleId.None? ==>
      reply == Fail(400, "Subtitle ID is required") && unchanged(db, model)
    ensures subtitleId.Some? && !Owned(old(db.subtitles), subtitleId.value, userId) ==>
      reply == Fail(404, "Subtitles not found") && unchanged(db, model)
    ensures subtitleId.Some? && Owned(old(db.subtitles), subtitleId.value, userId) ==>
      var sid := subtitleId.value;
      var row := old(db.subtitles)[sid];
      if old(db.AnalysisIdsFor(sid)) != {} then
        // cache hit: the stored chapters, no generation and no write
        && unchanged(db, model)
        && reply.Ok? && reply.value.analysisId in old(db.AnalysisIdsFor(sid))
        && reply.value == ChapterReply(sid, row.videoId, row.videoTitle, reply.value.analysisId,
                                       old(db.analyses)[reply.value.analysisId].chapters)
      else
        var prompt := CreateChapterPrompt(row.content, chapterCount);
        var chapters := Generated(model.respond, decode, prompt);
        && model.prompts == old(model.prompts) + [prompt]
        && (chapters.None? ==>
              reply == Fail(500, "Failed to analyze subtitles") && unchanged(db))
        && (chapters.Some? ==>
              && reply.Ok?
              && reply.value == ChapterReply(sid, row.videoId, row.videoTitle, reply.value.analysisId,
                                             chapters.value)
              && reply.value.analysisId !in old(db.analyses)
              && db.analyses == old(db.analyses)[reply.value.analysisId :=
                                  AnalysisRow(sid, userId, chapters.value, now, None)]
              && db.AnalysisIdsFor(sid) == {reply.value.analysisId})
  {
    if subtitleId.None? {
      return Fail(400, "Subtitle ID is required");
    }
    var sid := subtitleId.value;
    if !(sid in db.subtitles && db.subtitles[sid].userId == userId) {
      return Fail(404, "Subtitles not found");
    }
    var row := db.subtitles[sid];
    var existing := db.FindAnalysis(sid);
    if existing.Some? {
      var aid := existing.value;
      return Ok(ChapterReply(sid, row.videoId, row.videoTitle, aid, db.analyses[aid].chapters));
    }
    var prompt := CreateChapterPrompt(row.content, chapterCount);
    var text := model.GenerateContent(prompt);
    if text.None? {
      return Fail(500, "Failed to analyze subtitles");
    }
    var chapters := decode(text.value);
    if chapters.None? {
      return Fail(500, "Failed to analyze subtitles");
    }
    var aid := db.InsertAnalysis(AnalysisRow(sid, userId, chapters.value, now, None));
    reply := Ok(ChapterReply(sid, row.videoId, row.videoTitle, aid, chapters.value));
  }

  /** regenerateChapters: always generate chapters for the caller's subtitle,
      then overwrite the stored analysis in place, or insert one if there is
      none. */
  method RegenerateChapters(db: Database, model: GenerativeModel, decode: string -> Option<seq<Chapter>>,
                            subtitleId: Option<nat>, userId: string, chapterCount: Option<string>,
                            now: string)
    returns (reply: Reply<ChapterReply>)
    requires db.Valid()
    modifies db, model
    ensures db.Valid()
    ensures db.subtitles == old(db.subtitles)
    ensures subtitleId.None? ==>
      reply == Fail(400, "Subtitle ID is required") && unchanged(db, model)
    ensures subtitleId.Some? && !Owned(old(db.subtitles), subtitleId.value, userId) ==>
      reply == Fail(404, "Subtitles not found") && unchanged(db, model)
    ensures subtitleId.Some? && Owned(old(db.subtitles), subtitleId.value, userId) ==>
      var sid := subtitleId.value;
      var row := old(db.subtitles)[sid];
      var prompt := CreateChapterPrompt(row.content, chapterCount);
      var chapters := Generated(model.respond, decode, prompt);
      && model.prompts == old(model.prompts) + [prompt]
      && (chapters.None? ==>
            reply == Fail(500, "Failed to regenerate chapters") && unchanged(db))
      && (chapters.Some? ==>
            && reply.Ok?
            && reply.value == ChapterReply(sid, row.videoId, row.videoTitle, reply.value.analysisId,
                                           chapters.value)
            && db.AnalysisIdsFor(sid) == {reply.value.analysisId}
            && var aid := reply.value.analysisId;
            if old(db.AnalysisIdsFor(sid)) != {} then
              // update in place: same row, new chapters and updated_at
              && aid in old(db.AnalysisIdsFor(sid))
              && db.analyses == old(db.analyses)[aid :=
                                  old(db.analyses)[aid].(chapters := chapters.value, updatedAt := Some(now))]
            else
              && aid !in old(db.analyses)
              && db.analyses == old(db.analyses)[aid :=
                                  AnalysisRow(sid, userId, chapters.value, now, Some(now))])
  {
    if subtitleId.None? {
      return Fail(400, "Subtitle ID is required");
    }
    var sid := subtitleId.value;
    if !(sid in db.subtitles && db.subtitles[sid].userId == userId) {
      return Fail(404, "Subtitles not found");
    }
    var row := db.subtitles[sid];
    var prompt := CreateChapterPrompt(row.content, chapterCount);
    var text := model.GenerateContent(prompt);
    if text.None? {
      return Fail(500, "Failed to regenerate chapters");
    }
    var chapters := decode(text.value);
    if chapters.None? {
      return Fail(500, "Failed to regenerate chapters");
    }
    var existing := db.FindAnalysis(sid);
    var aid: nat;
    if existing.Some? {
      aid := existing.value;
      assert db.AnalysisIdsFor(sid) == {aid};
      db.UpdateAnalysis(aid, chapters.value, now);
    } else {
      aid := db.InsertAnalysis(AnalysisRow(sid, userId, chapters.value, now, Some(now)));
    }
    reply := Ok(ChapterReply(sid, row.videoId, row.videoTitle, aid, chapters.value));
  }

  /** Two regenerations in a row for the same subtitle, the second with
      another chapter count, leave exactly one stored analysis: the row the
      first call wrote, now holding what the model answered to the second
      call's prompt, with the second call's updated_at. */
  method RegenerateTwice(db: Database, model: GenerativeModel, decode: string -> Option<seq<Chapter>>,
                         subtitleId: nat, userId: string, firstCount: Option<string>,
                         secondCount: Option<string>, first: string, second: string)
    returns (r1: Reply<ChapterReply>, r2: Reply<ChapterReply>)
    requires db.Valid()
    modifies db, model
    ensures db.Valid() && db.subtitles == old(db.subtitles)
    ensures r1.Ok? ==> subtitleId in db.subtitles
    ensures r1.Ok? && r2.Ok? ==>
      var content := db.subtitles[subtitleId].content;
      var p1 := CreateChapterPrompt(content, firstCount);
      var p2 := CreateChapterPrompt(content, secondCount);
      && Generated(model.respond, decode, p1) == Some(r1.value.chapters)
      && Generated(model.respond, decode, p2) == Some(r2.value.chapters)
      && r1.value.analysisId == r2.value.analysisId
      && db.AnalysisIdsFor(subtitleId) == {r2.value.analysisId}
      && db.analyses[r2.value.analysisId].chapters == r2.value.chapters
      && db.analyses[r2.value.analysisId].updatedAt == Some(second)
  {
    r1 := RegenerateChapters(db, model, decode, Some(subtitleId), userId, firstCount, first);
    ghost var idsAfterFirst := db.AnalysisIdsFor(subtitleId);
    r2 := RegenerateChapters(db, model, decode, Some(subtitleId), userId, secondCount, second);
    if r1.Ok? && r2.Ok? {
      assert idsAfterFirst == {r1.value.analysisId};
    }
  }
}
