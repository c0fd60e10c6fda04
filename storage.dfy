/** The replies the Express handlers send: a JSON body on success, or a status
    code with the message of its { error } body. */
module Http {
  datatype Reply<T> = Ok(value: T) | Fail(status: nat, message: string)
}

/** The two Supabase tables the handlers read and write, `subtitles` and
    `subtitle_analysis`, held as maps from row id to row, and the Gemini model
    the analysis handlers call. Row ids are handed out by the database; here
    they come from a counter per table. */
module Storage {
  import opened Text

  /** One chapter of the model's answer: { "timestamp", "title" }. */
  datatype Chapter = Chapter(timestamp: string, title: string)

  /** A row of `subtitles`. */
  datatype SubtitleRow = SubtitleRow(
    userId: string,
    videoId: string,
    videoTitle: string,
    language: string,
    content: string,
    isAutoGenerated: bool,
    createdAt: string,
    updatedAt: string)

  /** A row of `subtitle_analysis`; `updatedAt` is None when the insert did not
      set it. */
  datatype AnalysisRow = AnalysisRow(
    subtitleId: nat,
    userId: string,
    chapters: seq<Chapter>,
    createdAt: string,
    updatedAt: Option<string>)

  class Database {
    var subtitles: map<nat, SubtitleRow>
    var analyses: map<nat, AnalysisRow>
    var nextSubtitleId: nat
    var nextAnalysisId: nat

    /** Every id in use lies below its counter; at most one transcript is kept
        per (video, user, language); at most one analysis is kept per subtitle.
        The handlers keep it when they run one at a time; two interleaved
        requests can both pass the existence check and both insert. */
    ghost predicate Valid()
      reads this
    {
      && (forall id :: id in subtitles ==> id < nextSubtitleId)
      && (forall id :: id in analyses ==> id < nextAnalysisId)
      && (forall a, b ::
            a in subtitles && b in subtitles && SameKey(subtitles[a], subtitles[b]) ==> a == b)
      && (forall a, b ::
            a in analyses && b in analyses && analyses[a].subtitleId == analyses[b].subtitleId
            ==> a == b)
    }

    constructor ()
      ensures Valid()
      ensures subtitles == map[] && analyses == map[]
    {
      subtitles := map[];
      analyses := map[];
      nextSubtitleId := 0;
      nextAnalysisId := 0;
    }

    /** The ids of the transcripts stored for a (video, user, language). */
    function SubtitleIdsFor(videoId: string, userId: string, language: string): set<nat>
      reads this
    {
      set id | id in subtitles && subtitles[id].videoId == videoId
                && subtitles[id].userId == userId && subtitles[id].language == language
    }

    /** The ids of the analyses stored for a subtitle id. */
    function AnalysisIdsFor(subtitleId: nat): set<nat>
      reads this
    {
      set id | id in analyses && analyses[id].subtitleId == subtitleId
    }

    /** select id from subtitles where video_id, user_id and language match. */
    method FindSubtitle(videoId: string, userId: string, language: string) returns (r: Option<nat>)
      ensures r.None? <==> SubtitleIdsFor(videoId, userId, language) == {}
      ensures r.Some? ==> r.value in SubtitleIdsFor(videoId, userId, language)
    {
      var ids := SubtitleIdsFor(videoId, userId, language);
      if ids != {} {
        var id :| id in ids;
        r := Some(id);
      } else {
        r := None;
      }
    }

    /** select * from subtitle_analysis where subtitle_id matches. */
    method FindAnalysis(subtitleId: nat) returns (r: Option<nat>)
      ensures r.None? <==> AnalysisIdsFor(subtitleId) == {}
      ensures r.Some? ==> r.value in AnalysisIdsFor(subtitleId)
    {
      var ids := AnalysisIdsFor(subtitleId);
      if ids != {} {
        var id :| id in ids;
        r := Some(id);
      } else {
        r := None;
      }
    }

    /** insert into subtitles, returning the new row's id. */
    method InsertSubtitle(row: SubtitleRow) returns (id: nat)
      requires Valid()
      requires SubtitleIdsFor(row.videoId, row.userId, row.language) == {}
      modifies this
      ensures Valid()
      ensures id == old(nextSubtitleId) && id !in old(subtitles)
      ensures subtitles == old(subtitles)[id := row]
      ensures analyses == old(analyses)
      ensures SubtitleIdsFor(row.videoId, row.userId, row.language) == {id}
    {
      ghost var clash := SubtitleIdsFor(row.videoId, row.userId, row.language);
      assert forall x :: x in subtitles && SameKey(subtitles[x], row) ==> x in clash;
      id := nextSubtitleId;
      subtitles := subtitles[id := row];
      nextSubtitleId := nextSubtitleId + 1;
    }

    /** insert into subtitle_analysis, returning the new row's id. */
    method InsertAnalysis(row: AnalysisRow) returns (id: nat)
      requires Valid()
      requires AnalysisIdsFor(row.subtitleId) == {}
      modifies this
      ensures Valid()
      ensures id == old(nextAnalysisId) && id !in old(analyses)
      ensures analyses == old(analyses)[id := row]
      ensures subtitles == old(subtitles)
      ensures AnalysisIdsFor(row.subtitleId) == {id}
    {
      ghost var clash := AnalysisIdsFor(row.subtitleId);
      assert forall x :: x in analyses && analyses[x].subtitleId == row.subtitleId ==> x in clash;
      id := nextAnalysisId;
      analyses := analyses[id := row];
      nextAnalysisId := nextAnalysisId + 1;
    }

    /** update subtitle_analysis set chapters, updated_at where id matches. */
    method UpdateAnalysis(id: nat, chapters: seq<Chapter>, updatedAt: string)
      requires Valid() && id in analyses
      modifies this
      ensures Valid()
      ensures analyses == old(analyses)[id := old(analyses[id]).(chapters := chapters, updatedAt := Some(updatedAt))]
      ensures subtitles == old(subtitles)
      ensures nextSubtitleId == old(nextSubtitleId) && nextAnalysisId == old(nextAnalysisId)
      ensures forall sid :: AnalysisIdsFor(sid) == old(AnalysisIdsFor(sid))
    {
      analyses := analyses[id := analyses[id].(chapters := chapters, updatedAt := Some(updatedAt))];
    }
  }

  /** Two transcripts are for the same video, user and language. */
  predicate SameKey(a: SubtitleRow, b: SubtitleRow) {
    a.videoId == b.videoId && a.userId == b.userId && a.language == b.language
  }

  /** The generative model behind generateContent: `respond` is its answer text
      for a prompt, None when the call throws. `prompts` records every call. */
  class GenerativeModel {
    const respond: string -> Option<string>
    ghost var prompts: seq<string>

    constructor (respond: string -> Option<string>)
      ensures this.respond == respond && prompts == []
    {
      this.respond := respond;
      prompts := [];
    }

    /** model.generateContent(prompt), then response.text(). */
    method GenerateContent(prompt: string) returns (text: Option<string>)
      modifies this
      ensures text == respond(prompt)
      ensures prompts == old(prompts) + [prompt]
    {
      prompts := prompts + [prompt];
      text := respond(prompt);
    }
  }
}
