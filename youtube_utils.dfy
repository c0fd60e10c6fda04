/** src/utils/youtubeUtils.js: extractVideoId, an ordered first-match search
    over eight unanchored URL patterns. Each pattern is written out as an
    explicit matcher over the URL string: a match starts at the leftmost
    position where the pattern can match, `.*` is greedy and stops at a line
    terminator, and the id group ([^&\n?#]+) is a maximal run of characters
    outside that exclusion set. */
module YouTubeUtils {
  import opened Text

  /** The eight patterns of extractVideoId, named after the URL form each accepts. */
  datatype Pattern =
    | WatchOrShortLink  // youtube.com/watch?v=ID or youtu.be/ID
    | Embed             // youtube.com/embed/ID
    | V                 // youtube.com/v/ID
    | Shorts            // youtube.com/shorts/ID
    | WatchAmpV         // youtube.com/watch?...&v=ID
    | WatchAnyV         // youtube.com/watch?...v=ID
    | WatchFeatureV     // youtube.com/watch?...feature=player_embedded&v=ID
    | WatchVTime        // youtube.com/watch?...v=ID...#t=SECONDS

  /** The patterns in the order they are tried. */
  const Patterns: seq<Pattern> :=
    [WatchOrShortLink, Embed, V, Shorts, WatchAmpV, WatchAnyV, WatchFeatureV, WatchVTime]

  const WatchV := "youtube.com/watch?v="
  const ShortLink := "youtu.be/"
  const WatchQuery := "youtube.com/watch?"
  const FeaturePrefix := "feature=player_embedded&"

  /** The three patterns made of a fixed path followed by the id. */
  predicate IsPathPattern(p: Pattern) {
    p.Embed? || p.V? || p.Shorts?
  }

  /** The four patterns that search the query string of a watch URL with a greedy `.*`. */
  predicate IsQueryPattern(p: Pattern) {
    p.WatchAmpV? || p.WatchAnyV? || p.WatchFeatureV? || p.WatchVTime?
  }

  function Path(p: Pattern): string
    requires IsPathPattern(p)
  {
    match p
    case Embed => "youtube.com/embed/"
    case V => "youtube.com/v/"
    case Shorts => "youtube.com/shorts/"
  }

  /** The text a query pattern needs right before the id. */
  function Marker(p: Pattern): string
    requires IsQueryPattern(p)
  {
    match p
    case WatchAmpV => "&v="
    case WatchAnyV => "v="
    case WatchFeatureV => FeaturePrefix + "v="
    case WatchVTime => "v="
  }

  /** A character of the id class [^&\n?#]. */
  predicate IsIdChar(c: char) {
    c != '&' && c != '\n' && c != '?' && c != '#'
  }

  /** What every returned id looks like: non-empty, and only id characters. */
  predicate IsId(id: string) {
    id != [] && forall k :: 0 <= k < |id| ==> IsIdChar(id[k])
  }

  /** Where the greedy run of id characters starting at j ends. */
  function IdEnd(s: string, j: nat): (e: nat)
    requires j <= |s|
    ensures j <= e <= |s|
    ensures forall k :: j <= k < e ==> IsIdChar(s[k])
    ensures e == |s| || !IsIdChar(s[e])
    decreases |s| - j
  {
    if j == |s| || !IsIdChar(s[j]) then j else IdEnd(s, j + 1)
  }

  /** The group ([^&\n?#]+) at j: the longest run there, which must not be empty. */
  function Capture(s: string, j: nat): (r: Option<string>)
    requires j <= |s|
    ensures r.Some? <==> j < |s| && IsIdChar(s[j])
    ensures r.Some? ==> IsId(r.value)
  {
    if IdEnd(s, j) == j then None else Some(s[j..IdEnd(s, j)])
  }

  /** `.*#t=([0-9]+)` after the id: a "#t=" followed by a digit at some q in
      [q, end), where end is the first line terminator after the id. */
  predicate HasTimeMark(s: string, q: nat, end: nat)
    requires end <= |s|
    decreases end - q
  {
    q < end && ((LiteralAt(s, q, "#t=") && q + 3 < |s| && IsDigit(s[q + 3])) || HasTimeMark(s, q + 1, end))
  }

  /** A query pattern with its `.*` ending at c: the marker at c, then the id. */
  function MarkerMatch(p: Pattern, s: string, c: nat): (r: Option<string>)
    requires IsQueryPattern(p) && c <= |s|
    ensures r.Some? ==> IsId(r.value)
  {
    if !LiteralAt(s, c, Marker(p)) then None
    else
      var m := c + |Marker(p)|;
      if p.WatchVTime? && Capture(s, m).Some? && !HasTimeMark(s, IdEnd(s, m), DotEnd(s, IdEnd(s, m))) then None
      else Capture(s, m)
  }

  /** Greedy `.*`: the candidate ends are tried from the longest, c, down to lo. */
  function LastMarker(p: Pattern, s: string, lo: nat, c: nat): (r: Option<string>)
    requires IsQueryPattern(p) && lo <= c <= |s|
    ensures r.Some? ==> IsId(r.value)
    decreases c - lo
  {
    if MarkerMatch(p, s, c).Some? then MarkerMatch(p, s, c)
    else if c == lo then None
    else LastMarker(p, s, lo, c - 1)
  }

  /** The id group of pattern p when the match starts at position i, if it does. */
  function MatchAt(p: Pattern, s: string, i: nat): (r: Option<string>)
    requires i <= |s|
    ensures r.Some? ==> IsId(r.value)
  {
    if p.WatchOrShortLink? then
      if LiteralAt(s, i, WatchV) && Capture(s, i + |WatchV|).Some? then Capture(s, i + |WatchV|)
      else if LiteralAt(s, i, ShortLink) then Capture(s, i + |ShortLink|)
      else None
    else if IsPathPattern(p) then
      if LiteralAt(s, i, Path(p)) then Capture(s, i + |Path(p)|) else None
    else if LiteralAt(s, i, WatchQuery) then
      var lo := i + |WatchQuery|;
      LastMarker(p, s, lo, DotEnd(s, lo))
    else None
  }

  /** An unanchored match: the leftmost start position from i on wins. */
  function Scan(p: Pattern, s: string, i: nat): (r: Option<string>)
    requires i <= |s|
    ensures r.Some? ==> IsId(r.value)
    decreases |s| - i
  {
    if MatchAt(p, s, i).Some? then MatchAt(p, s, i)
    else if i == |s| then None
    else Scan(p, s, i + 1)
  }

  /** url.match(pattern)[1], or None when there is no match. */
  function Match(p: Pattern, s: string): (r: Option<string>)
    ensures r.Some? ==> IsId(r.value)
  {
    Scan(p, s, 0)
  }

  /** The for..of loop with its early return: the first pattern that matches decides. */
  function FirstMatch(ps: seq<Pattern>, s: string): (r: Option<string>)
    ensures r.Some? ==> IsId(r.value)
    decreases |ps|
  {
    if ps == [] then None
    else if Match(ps[0], s).Some? then Match(ps[0], s)
    else FirstMatch(ps[1..], s)
  }

  /** extractVideoId: the id found by the first matching pattern, or None (null).
      The id is never empty and holds none of '&', '?', '#' or a newline; its
      length is not bounded and it may contain '/'. */
  function ExtractVideoId(url: string): (r: Option<string>)
    ensures r.Some? ==> IsId(r.value)
  {
    FirstMatch(Patterns, url)
  }

  // ---------------------------------------------------------------------------
  // First match over the pattern list

  /** The pattern at index k decides when it matches and no earlier one does. */
  lemma {:induction false} FirstMatchAt(ps: seq<Pattern>, s: string, k: nat)
    requires k < |ps| && Match(ps[k], s).Some?
    requires forall j :: 0 <= j < k ==> Match(ps[j], s) == None
    ensures FirstMatch(ps, s) == Match(ps[k], s)
    decreases k
  {
    if k > 0 {
      assert Match(ps[0], s) == None;
      FirstMatchAt(ps[1..], s, k - 1);
    }
  }

  /** A found id comes from some pattern, and every earlier pattern failed. */
  lemma {:induction false} FirstMatchFrom(ps: seq<Pattern>, s: string)
    requires FirstMatch(ps, s).Some?
    ensures exists k ::
      && 0 <= k < |ps| && FirstMatch(ps, s) == Match(ps[k], s)
      && (forall j :: 0 <= j < k ==> Match(ps[j], s) == None)
    decreases |ps|
  {
    if Match(ps[0], s).None? {
      FirstMatchFrom(ps[1..], s);
      var k :| 0 <= k < |ps| - 1 && FirstMatch(ps[1..], s) == Match(ps[1..][k], s)
        && forall j :: 0 <= j < k ==> Match(ps[1..][j], s) == None;
      assert FirstMatch(ps, s) == Match(ps[k + 1], s);
      assert forall j :: 1 <= j < k + 1 ==> Match(ps[j], s) == Match(ps[1..][j - 1], s);
    } else {
      assert FirstMatch(ps, s) == Match(ps[0], s);
    }
  }

  /** Nothing is found exactly when no pattern matches. */
  lemma {:induction false} FirstMatchNone(ps: seq<Pattern>, s: string)
    ensures FirstMatch(ps, s) == None <==> forall k :: 0 <= k < |ps| ==> Match(ps[k], s) == None
    decreases |ps|
  {
    if ps != [] {
      FirstMatchNone(ps[1..], s);
      assert forall k :: 1 <= k < |ps| ==> ps[k] == ps[1..][k - 1];
    }
  }

  /** Splitting the list: the first part is tried before the rest. */
  lemma {:induction false} FirstMatchSplit(ps: seq<Pattern>, n: nat, s: string)
    requires n <= |ps|
    ensures FirstMatch(ps, s)
      == if FirstMatch(ps[..n], s).Some? then FirstMatch(ps[..n], s) else FirstMatch(ps[n..], s)
    decreases n
  {
    if n == 0 {
      assert ps[n..] == ps;
    } else {
      assert ps[..n][0] == ps[0];
      assert ps[..n][1..] == ps[1..][..n - 1];
      assert ps[n..] == ps[1..][n - 1..];
      FirstMatchSplit(ps[1..], n - 1, s);
    }
  }

  /** extractVideoId returns pattern k's id when pattern k matches and no earlier pattern does. */
  lemma ExtractVideoIdDecidedBy(url: string, k: nat)
    requires k < |Patterns| && Match(Patterns[k], url).Some?
    requires forall j :: 0 <= j < k ==> Match(Patterns[j], url) == None
    ensures ExtractVideoId(url) == Match(Patterns[k], url)
  {
    FirstMatchAt(Patterns, url, k);
  }

  /** Conversely, a returned id is the id of the first matching pattern. */
  lemma ExtractVideoIdFound(url: string)
    requires ExtractVideoId(url).Some?
    ensures exists k ::
      && 0 <= k < |Patterns| && ExtractVideoId(url) == Match(Patterns[k], url)
      && (forall j :: 0 <= j < k ==> Match(Patterns[j], url) == None)
  {
    FirstMatchFrom(Patterns, url);
  }

  /** extractVideoId returns null exactly when none of the eight patterns matches. */
  lemma ExtractVideoIdNull(url: string)
    ensures ExtractVideoId(url) == None <==> forall k :: 0 <= k < |Patterns| ==> Match(Patterns[k], url) == None
  {
    FirstMatchNone(Patterns, url);
  }

  // ---------------------------------------------------------------------------
  // Leftmost match and greedy backtracking

  /** The scan returns the match at the first start position that has one. */
  lemma {:induction false} ScanLeftmost(p: Pattern, s: string, i: nat, j: nat)
    requires i <= j <= |s| && MatchAt(p, s, j).Some?
    requires forall k :: i <= k < j ==> MatchAt(p, s, k) == None
    ensures Scan(p, s, i) == MatchAt(p, s, j)
    decreases j - i
  {
    if i < j {
      ScanLeftmost(p, s, i + 1, j);
    }
  }

  /** A match at some position means the scan finds one. */
  lemma {:induction false} ScanFinds(p: Pattern, s: string, i: nat, j: nat)
    requires i <= j <= |s| && MatchAt(p, s, j).Some?
    ensures Scan(p, s, i).Some?
    decreases j - i
  {
    if i < j && MatchAt(p, s, i).None? {
      ScanFinds(p, s, i + 1, j);
    }
  }

  /** The scan only finds what some start position matches. */
  lemma {:induction false} ScanFrom(p: Pattern, s: string, i: nat) returns (j: nat)
    requires i <= |s| && Scan(p, s, i).Some?
    ensures i <= j <= |s| && MatchAt(p, s, j).Some?
    decreases |s| - i
  {
    if MatchAt(p, s, i).None? {
      j := ScanFrom(p, s, i + 1);
    } else {
      j := i;
    }
  }

  /** A marker match anywhere in range means the greedy search finds one. */
  lemma {:induction false} LastMarkerFinds(p: Pattern, s: string, lo: nat, c: nat, c0: nat)
    requires IsQueryPattern(p) && lo <= c0 <= c <= |s| && MarkerMatch(p, s, c0).Some?
    ensures LastMarker(p, s, lo, c).Some?
    decreases c - lo
  {
    if c0 < c && MarkerMatch(p, s, c).None? {
      LastMarkerFinds(p, s, lo, c - 1, c0);
    }
  }

  /** The greedy search only finds what some end position of `.*` matches. */
  lemma {:induction false} LastMarkerFrom(p: Pattern, s: string, lo: nat, c: nat) returns (c0: nat)
    requires IsQueryPattern(p) && lo <= c <= |s| && LastMarker(p, s, lo, c).Some?
    ensures lo <= c0 <= c && MarkerMatch(p, s, c0).Some?
    decreases c - lo
  {
    if MarkerMatch(p, s, c).None? {
      c0 := LastMarkerFrom(p, s, lo, c - 1);
    } else {
      c0 := c;
    }
  }

  /** Greedy `.*`: what the search returns is what the greatest end position
      followed by the marker and an id gives. */
  lemma {:induction false} LastMarkerGreatest(p: Pattern, s: string, lo: nat, c: nat) returns (c0: nat)
    requires IsQueryPattern(p) && lo <= c <= |s| && LastMarker(p, s, lo, c).Some?
    ensures lo <= c0 <= c && LastMarker(p, s, lo, c) == MarkerMatch(p, s, c0)
    ensures forall c1 :: c0 < c1 <= c ==> MarkerMatch(p, s, c1).None?
    decreases c - lo
  {
    var m := MarkerMatch(p, s, c);
    if m.Some? {
      c0 := c;
    } else {
      assert c > lo && LastMarker(p, s, lo, c) == LastMarker(p, s, lo, c - 1);
      c0 := LastMarkerGreatest(p, s, lo, c - 1);
      forall c1 | c0 < c1 <= c ensures MarkerMatch(p, s, c1).None? {
        if c1 == c {
          assert MarkerMatch(p, s, c1) == m;
        }
      }
    }
  }

  /** A query pattern matches at i exactly when "youtube.com/watch?" stands
      there and some end of `.*` on the same line is followed by the marker
      and an id; the id is the one after the last such end. */
  lemma QueryMatchAt(p: Pattern, s: string, i: nat)
    requires IsQueryPattern(p) && i <= |s|
    ensures MatchAt(p, s, i).Some? <==>
      (LiteralAt(s, i, WatchQuery)
       && exists c :: i + 18 <= c <= DotEnd(s, i + 18) && MarkerMatch(p, s, c).Some?)
    ensures MatchAt(p, s, i).Some? ==>
      (LiteralAt(s, i, WatchQuery)
       && exists c :: (i + 18 <= c <= DotEnd(s, i + 18) && MatchAt(p, s, i) == MarkerMatch(p, s, c)
                       && forall c1 :: c < c1 <= DotEnd(s, i + 18) ==> MarkerMatch(p, s, c1).None?))
  {
    if LiteralAt(s, i, WatchQuery) {
      var lo, d := i + 18, DotEnd(s, i + 18);
      if LastMarker(p, s, lo, d).Some? {
        var c0 := LastMarkerGreatest(p, s, lo, d);
      } else {
        forall c | lo <= c <= d ensures MarkerMatch(p, s, c).None? {
          if MarkerMatch(p, s, c).Some? {
            LastMarkerFinds(p, s, lo, d, c);
          }
        }
      }
    }
  }

  /** `.*` can run over a literal that holds no line terminator. */
  lemma DotEndPastLiteral(s: string, lo: nat, c: nat, lit: string)
    requires lo <= |s| && lo <= c <= DotEnd(s, lo) && LiteralAt(s, c, lit)
    requires forall k :: 0 <= k < |lit| ==> !IsLineTerminator(lit[k])
    ensures c + |lit| <= DotEnd(s, lo)
  {
    assert forall k :: c <= k < c + |lit| ==> s[k] == s[c..c + |lit|][k - c];
  }

  /** Inside "feature=player_embedded&v=" sits the "v=" that `.*v=` can end at. */
  lemma FeatureMarkerHoldsV(s: string, lo: nat, c0: nat)
    requires lo <= |s| && lo <= c0 <= DotEnd(s, lo) && MarkerMatch(WatchFeatureV, s, c0).Some?
    ensures c0 + 24 <= DotEnd(s, lo) && MarkerMatch(WatchAnyV, s, c0 + 24).Some?
  {
    var lit := Marker(WatchFeatureV);
    assert LiteralAt(s, c0, lit) && Capture(s, c0 + 26).Some?;
    FeatureMarkerText();
    LiteralTail(s, c0, lit, 24);
    LiteralHead(s, c0, lit, 24);
    DotEndPastLiteral(s, lo, c0, FeaturePrefix);
  }

  lemma FeatureMarkerText()
    ensures |FeaturePrefix| == 24 && Marker(WatchFeatureV)[..24] == FeaturePrefix
    ensures Marker(WatchFeatureV)[24..] == Marker(WatchAnyV)
    ensures forall k :: 0 <= k < |FeaturePrefix| ==> !IsLineTerminator(FeaturePrefix[k])
  {
  }

  /** The start of a literal found in s is found in s as well. */
  lemma LiteralHead(s: string, c: nat, lit: string, k: nat)
    requires LiteralAt(s, c, lit) && k <= |lit|
    ensures LiteralAt(s, c, lit[..k])
  {
    assert s[c..c + k] == s[c..c + |lit|][..k];
  }

  /** The end of a literal found in s is found in s as well. */
  lemma LiteralTail(s: string, c: nat, lit: string, k: nat)
    requires LiteralAt(s, c, lit) && k <= |lit|
    ensures LiteralAt(s, c + k, lit[k..])
  {
    assert s[c + k..c + |lit|] == s[c..c + |lit|][k..];
  }

  /** The time pattern's "v=" with its id is a match of `.*v=` at the same place. */
  lemma TimeMarkerHoldsV(s: string, c: nat)
    requires c <= |s| && MarkerMatch(WatchVTime, s, c).Some?
    ensures MarkerMatch(WatchAnyV, s, c).Some?
  {
    assert Marker(WatchVTime) == Marker(WatchAnyV);
  }

  /** Whenever the greedy search of a later query pattern succeeds, that of
      `.*v=` does too. */
  lemma LateQuerySearch(p: Pattern, s: string, lo: nat)
    requires (p.WatchFeatureV? || p.WatchVTime?) && lo <= |s|
    requires LastMarker(p, s, lo, DotEnd(s, lo)).Some?
    ensures LastMarker(WatchAnyV, s, lo, DotEnd(s, lo)).Some?
  {
    var d := DotEnd(s, lo);
    var c0 := LastMarkerFrom(p, s, lo, d);
    if p.WatchVTime? {
      TimeMarkerHoldsV(s, c0);
      LastMarkerFinds(WatchAnyV, s, lo, d, c0);
    } else {
      FeatureMarkerHoldsV(s, lo, c0);
      LastMarkerFinds(WatchAnyV, s, lo, d, c0 + 24);
    }
  }

  /** Any start position where a later query pattern matches is one where
      `watch\?.*v=` matches too. */
  lemma LateQueryMatchAt(p: Pattern, s: string, i: nat)
    requires (p.WatchFeatureV? || p.WatchVTime?) && i <= |s| && MatchAt(p, s, i).Some?
    ensures MatchAt(WatchAnyV, s, i).Some?
  {
    LateQuerySearch(p, s, i + 18);
  }

  /** Whatever the patterns at lines 9 and 10 match, the greedy `watch\?.*v=`
      pattern of line 8 matches too. */
  lemma LateQueryPatternMatch(p: Pattern, s: string)
    requires p.WatchFeatureV? || p.WatchVTime?
    ensures Match(p, s).Some? ==> Match(WatchAnyV, s).Some?
  {
    if Match(p, s).Some? {
      var j := ScanFrom(p, s, 0);
      LateQueryMatchAt(p, s, j);
      ScanFinds(WatchAnyV, s, 0, j);
    }
  }

  /** The last two patterns never decide the result: the first six alone give it. */
  lemma LateQueryPatternsNeverDecide(url: string)
    ensures ExtractVideoId(url) == FirstMatch(Patterns[..6], url)
  {
    FirstMatchSplit(Patterns, 6, url);
    if FirstMatch(Patterns[..6], url).None? {
      FirstMatchNone(Patterns[..6], url);
      assert Patterns[..6][5] == WatchAnyV;
      LateQueryPatternMatch(WatchFeatureV, url);
      LateQueryPatternMatch(WatchVTime, url);
      assert Patterns[6..] == [WatchFeatureV, WatchVTime];
      FirstMatchNone(Patterns[6..], url);
    }
  }

  // ---------------------------------------------------------------------------
  // What the id is for each URL form

  /** A watch?v= or youtu.be/ marker followed by at least one id character. */
  predicate LinkAt(s: string, i: nat) {
    || (LiteralAt(s, i, WatchV) && i + |WatchV| < |s| && IsIdChar(s[i + |WatchV|]))
    || (LiteralAt(s, i, ShortLink) && i + |ShortLink| < |s| && IsIdChar(s[i + |ShortLink|]))
  }

  /** Where the id of a link marker at i starts. */
  function LinkIdStart(s: string, i: nat): nat {
    if LiteralAt(s, i, WatchV) then i + |WatchV| else i + |ShortLink|
  }

  lemma LinkMatchAt(s: string, i: nat)
    requires i <= |s|
    ensures MatchAt(WatchOrShortLink, s, i).Some? <==> LinkAt(s, i)
    ensures LinkAt(s, i) ==> MatchAt(WatchOrShortLink, s, i) == Some(s[LinkIdStart(s, i)..IdEnd(s, LinkIdStart(s, i))])
  {
    WatchVIsNotShortLink(s, i);
  }

  /** The two alternatives of the first pattern never both start at one position. */
  lemma WatchVIsNotShortLink(s: string, i: nat)
    ensures !(LiteralAt(s, i, WatchV) && LiteralAt(s, i, ShortLink))
  {
    assert LiteralAt(s, i, WatchV) ==> s[i + 5] == s[i..i + |WatchV|][5] == 'b';
    assert LiteralAt(s, i, ShortLink) ==> s[i + 5] == s[i..i + |ShortLink|][5] == '.';
  }

  /** For the first watch?v= or youtu.be/ marker that has an id after it, the
      id is the longest run after that marker stopping at '&', '?', '#' or a newline. */
  lemma LinkDecides(s: string, i: nat)
    requires i <= |s| && LinkAt(s, i)
    requires forall j :: 0 <= j < i ==> !LinkAt(s, j)
    ensures ExtractVideoId(s) == Some(s[LinkIdStart(s, i)..IdEnd(s, LinkIdStart(s, i))])
  {
    forall j | 0 <= j < i
      ensures MatchAt(WatchOrShortLink, s, j) == None
    {
      LinkMatchAt(s, j);
    }
    LinkMatchAt(s, i);
    ScanLeftmost(WatchOrShortLink, s, 0, i);
    ExtractVideoIdDecidedBy(s, 0);
  }

  /** A path marker (embed/, v/ or shorts/) followed by at least one id character. */
  predicate PathAt(p: Pattern, s: string, i: nat)
    requires IsPathPattern(p)
  {
    LiteralAt(s, i, Path(p)) && i + |Path(p)| < |s| && IsIdChar(s[i + |Path(p)|])
  }

  lemma PathMatchAt(p: Pattern, s: string, i: nat)
    requires IsPathPattern(p) && i <= |s|
    ensures MatchAt(p, s, i).Some? <==> PathAt(p, s, i)
    ensures PathAt(p, s, i) ==> MatchAt(p, s, i) == Some(s[i + |Path(p)|..IdEnd(s, i + |Path(p)|)])
  {
  }

  /** The index of a path pattern in the list. */
  function PathIndex(p: Pattern): nat
    requires IsPathPattern(p)
  {
    match p
    case Embed => 1
    case V => 2
    case Shorts => 3
  }

  lemma PathIndexOrder(p: Pattern)
    requires IsPathPattern(p)
    ensures Patterns[PathIndex(p)] == p
  {
  }

  /** For the embed/, v/ and shorts/ forms, when no earlier pattern matched, the
      id is the longest run after the first such marker that has one. */
  lemma PathDecides(p: Pattern, s: string, i: nat)
    requires IsPathPattern(p) && i <= |s| && PathAt(p, s, i)
    requires forall j :: 0 <= j < i ==> !PathAt(p, s, j)
    requires forall k :: 0 <= k < PathIndex(p) ==> Match(Patterns[k], s) == None
    ensures ExtractVideoId(s) == Some(s[i + |Path(p)|..IdEnd(s, i + |Path(p)|)])
  {
    forall j | 0 <= j < i
      ensures MatchAt(p, s, j) == None
    {
      PathMatchAt(p, s, j);
    }
    PathMatchAt(p, s, i);
    ScanLeftmost(p, s, 0, i);
    PathIndexOrder(p);
    ExtractVideoIdDecidedBy(s, PathIndex(p));
  }

  /** A position holding no 'y' starts no link marker: both begin with "youtu". */
  lemma NoLinkWithoutY(s: string, j: nat)
    requires j < |s| && s[j] != 'y'
    ensures !LinkAt(s, j)
  {
  }

  /** After a prefix in which no link marker starts, a watch?v= or youtu.be/
      marker gives back the id that follows it, up to the first '&', '?', '#'
      or newline. */
  lemma LinkAfterPrefix(pre: string, lit: string, id: string, tail: string)
    requires lit == WatchV || lit == ShortLink
    requires IsId(id) && (tail == [] || !IsIdChar(tail[0]))
    requires forall j :: 0 <= j < |pre| ==> !LinkAt(pre + lit + id + tail, j)
    ensures ExtractVideoId(pre + lit + id + tail) == Some(id)
  {
    var s := pre + lit + id + tail;
    assert s == pre + lit + (id + tail);
    LinkMarkerAt(pre, lit, id + tail);
    LinkDecides(s, |pre|);
    RunAt(s, |pre| + |lit|, id, tail);
  }

  /** A link marker placed after a prefix, with an id character after it. */
  lemma LinkMarkerAt(pre: string, lit: string, rest: string)
    requires lit == WatchV || lit == ShortLink
    requires rest != [] && IsIdChar(rest[0])
    ensures var s := pre + lit + rest;
      && LinkAt(s, |pre|) && LinkIdStart(s, |pre|) == |pre| + |lit|
      && s[|pre| + |lit|..] == rest
  {
    var s := pre + lit + rest;
    var i := |pre|;
    assert s[i..i + |lit|] == lit;
    assert s[i + |lit|] == rest[0];
    if lit == ShortLink {
      assert s[i + 5] == '.';
      assert !LiteralAt(s, i, WatchV);
    }
  }

  /** An id followed by a non-id character (or the end) is exactly the run there. */
  lemma RunAt(s: string, m: nat, id: string, tail: string)
    requires m <= |s| && s[m..] == id + tail
    requires IsId(id) && (tail == [] || !IsIdChar(tail[0]))
    ensures IdEnd(s, m) == m + |id| && s[m..m + |id|] == id
  {
    forall k | m <= k < m + |id|
      ensures IsIdChar(s[k])
    {
      assert s[k] == s[m..][k - m] == id[k - m];
    }
    if tail != [] {
      assert s[m + |id|] == s[m..][|id|] == tail[0];
    }
    assert s[m..m + |id|] == s[m..][..|id|];
  }

  /** A prefix without a 'y' holds no link marker. */
  lemma PrefixWithoutY(s: string, n: nat)
    requires n <= |s| && 'y' !in s[..n]
    ensures forall j :: 0 <= j < n ==> !LinkAt(s, j)
  {
    forall j | 0 <= j < n
      ensures !LinkAt(s, j)
    {
      assert s[..n][j] == s[j];
      NoLinkWithoutY(s, j);
    }
  }

  /** After a prefix without a 'y', a watch?v= or youtu.be/ marker gives back
      the id that follows it. */
  lemma LinkAfterPlainPrefix(pre: string, lit: string, id: string, tail: string)
    requires 'y' !in pre && (lit == WatchV || lit == ShortLink)
    requires IsId(id) && (tail == [] || !IsIdChar(tail[0]))
    ensures ExtractVideoId(pre + lit + id + tail) == Some(id)
  {
    var s := pre + lit + id + tail;
    assert s[..|pre|] == pre;
    PrefixWithoutY(s, |pre|);
    LinkAfterPrefix(pre, lit, id, tail);
  }

  /** The canonical watch URL gives back its id. */
  lemma CanonicalWatchUrl(id: string)
    requires IsId(id)
    ensures ExtractVideoId("https://www.youtube.com/watch?v=" + id) == Some(id)
  {
    assert "https://www.youtube.com/watch?v=" == "https://www." + WatchV by {
      WatchUrlText();
    }
    LinkAfterPlainPrefix("https://www.", WatchV, id, "");
    assert "https://www." + WatchV + id + "" == "https://www." + WatchV + id;
  }

  lemma WatchUrlText()
    ensures "https://www.youtube.com/watch?v=" == "https://www." + WatchV
    ensures 'y' !in "https://www."
  {
  }

  /** The short link gives back its id. */
  lemma CanonicalShortUrl(id: string)
    requires IsId(id)
    ensures ExtractVideoId("https://youtu.be/" + id) == Some(id)
  {
    assert "https://youtu.be/" == "https://" + ShortLink by {
      ShortUrlText();
    }
    LinkAfterPlainPrefix("https://", ShortLink, id, "");
    assert "https://" + ShortLink + id + "" == "https://" + ShortLink + id;
  }

  lemma ShortUrlText()
    ensures "https://youtu.be/" == "https://" + ShortLink
    ensures 'y' !in "https://"
  {
  }

  /** The id stops at the first '&' of the query string. */
  lemma WatchUrlWithTime()
    ensures ExtractVideoId("https://www.youtube.com/watch?v=dQw4w9WgXcQ&t=42") == Some("dQw4w9WgXcQ")
  {
    var id := "dQw4w9WgXcQ";
    assert IsId(id) && 'y' !in "https://www." by {
      TimedUrlId();
    }
    assert "&t=42"[0] == '&';
    LinkAfterPlainPrefix("https://www.", WatchV, id, "&t=42");
    assert "https://www." + WatchV + id + "&t=42" == "https://www.youtube.com/watch?v=dQw4w9WgXcQ&t=42" by {
      TimedUrlText();
    }
  }

  lemma TimedUrlText()
    ensures "https://www." + WatchV + "dQw4w9WgXcQ" + "&t=42" == "https://www.youtube.com/watch?v=dQw4w9WgXcQ&t=42"
  {
  }

  lemma TimedUrlId()
    ensures IsId("dQw4w9WgXcQ") && 'y' !in "https://www."
  {
  }

  /** The id is not limited to eleven characters and may hold '/'. */
  lemma ShortLinkWithSlash()
    ensures ExtractVideoId("youtu.be/a/b") == Some("a/b")
  {
    assert IsId("a/b") && 'y' !in "";
    LinkAfterPlainPrefix("", ShortLink, "a/b", "");
    assert "" + ShortLink + "a/b" + "" == "youtu.be/a/b";
  }

  /** Pattern order beats position: a youtu.be/ link later in the string wins
      over an embed/ path before it. */
  lemma OrderBeatsPosition()
    ensures ExtractVideoId("youtube.com/embed/abc youtu.be/xyz") == Some("xyz")
  {
    var pre := "youtube.com/embed/abc ";
    var s := pre + ShortLink + "xyz" + "";
    assert forall j :: 0 <= j < |pre| ==> !LinkAt(s, j) by {
      assert s[..22] == pre;
      NoLinkInEmbedPrefix(s);
    }
    assert IsId("xyz");
    LinkAfterPrefix(pre, ShortLink, "xyz", "");
    assert s == "youtube.com/embed/abc youtu.be/xyz" by {
      OrderExampleText();
    }
  }

  lemma OrderExampleText()
    ensures "youtube.com/embed/abc " + ShortLink + "xyz" + "" == "youtube.com/embed/abc youtu.be/xyz"
  {
  }

  /** No link marker starts inside "youtube.com/embed/abc ". */
  lemma NoLinkInEmbedPrefix(s: string)
    requires |s| >= 22 && s[..22] == "youtube.com/embed/abc "
    ensures forall j :: 0 <= j < 22 ==> !LinkAt(s, j)
  {
    assert !LiteralAt(s, 0, WatchV) by {
      assert s[12] == s[..22][12] == 'e' != WatchV[12];
    }
    assert !LiteralAt(s, 0, ShortLink) by {
      assert s[5] == s[..22][5] == 'b' != ShortLink[5];
    }
    assert s[1..22] == s[..22][1..] == "outube.com/embed/abc ";
    forall j | 1 <= j < 22
      ensures !LinkAt(s, j)
    {
      assert s[j] == s[1..22][j - 1];
      NoLinkWithoutY(s, j);
    }
  }
}
