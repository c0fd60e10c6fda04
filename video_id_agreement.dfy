/** The two video id extractors of the repository side by side:
    extractVideoId in src/utils/youtubeUtils.js and the single pattern of the
    extraction handler in src/controllers/subtitleController.js. They agree
    on the canonical addresses and part ways on repeated parameters and on
    ids that are not eleven characters long. */
module VideoIdAgreement {
  import opened Text
  import YouTubeUtils
  import SubtitleController

  /** An eleven-character id without '#' is an id for both extractors. */
  lemma ControllerIdIsId(id: string)
    requires SubtitleController.IsControllerId(id) && '#' !in id
    ensures YouTubeUtils.IsId(id)
  {
    forall k | 0 <= k < |id| ensures YouTubeUtils.IsIdChar(id[k]) {
      assert id[k] in id;
      assert SubtitleController.IsCaptureChar(id[k]);
    }
  }

  /** Both extractors read the same id from the canonical watch address. */
  lemma AgreeOnWatchUrl(id: string)
    requires SubtitleController.IsControllerId(id) && '#' !in id
    ensures YouTubeUtils.ExtractVideoId("https://www.youtube.com/watch?v=" + id) == Some(id)
    ensures SubtitleController.ControllerVideoId("https://www.youtube.com/watch?v=" + id) == Some(id)
  {
    ControllerIdIsId(id);
    YouTubeUtils.CanonicalWatchUrl(id);
    SubtitleController.ControllerCanonicalWatch(id);
  }

  /** Both extractors read the same id from the canonical short address. */
  lemma AgreeOnShortUrl(id: string)
    requires SubtitleController.IsControllerId(id) && '#' !in id
    ensures YouTubeUtils.ExtractVideoId("https://youtu.be/" + id) == Some(id)
    ensures SubtitleController.ControllerVideoId("https://youtu.be/" + id) == Some(id)
  {
    ControllerIdIsId(id);
    YouTubeUtils.CanonicalShortUrl(id);
    SubtitleController.ControllerCanonicalShort(id, "");
    assert "https://youtu.be/" + id + "" == "https://youtu.be/" + id;
  }

  /** With two `v=` parameters the utility takes the first value and the
      handler the last. */
  lemma DisagreeOnRepeatedParameter(a: string, b: string)
    requires SubtitleController.IsControllerId(a) && SubtitleController.IsControllerId(b)
    requires '#' !in a
    ensures YouTubeUtils.ExtractVideoId("https://www.youtube.com/watch?v=" + a + "&v=" + b) == Some(a)
    ensures SubtitleController.ControllerVideoId("https://www.youtube.com/watch?v=" + a + "&v=" + b) == Some(b)
  {
    ControllerIdIsId(a);
    YouTubeUtils.WatchUrlText();
    var tail := "&v=" + b;
    assert tail[0] == '&';
    YouTubeUtils.LinkAfterPlainPrefix("https://www.", YouTubeUtils.WatchV, a, tail);
    assert "https://www." + YouTubeUtils.WatchV + a + tail
        == "https://www.youtube.com/watch?v=" + a + "&v=" + b;
    SubtitleController.ControllerLastQueryWins(a, b);
  }

  /** A short link whose id is shorter than eleven characters is accepted by
      the utility and refused by the handler. */
  lemma DisagreeOnShortId(id: string)
    requires YouTubeUtils.IsId(id) && |id| < 11
    ensures YouTubeUtils.ExtractVideoId("https://youtu.be/" + id) == Some(id)
    ensures SubtitleController.ControllerVideoId("https://youtu.be/" + id) == None
  {
    YouTubeUtils.CanonicalShortUrl(id);
    SubtitleController.ControllerRejectsShortId(id);
  }
}
