/**
 * The summarizer pipeline of `YouTubeSummarizer`: extracting a video id from a
 * URL, joining the transcript segments the transcript service delivers, the
 * guards in front of the two service calls, and the composition
 * parse -> fetch -> summarize. The transcript service and the language-model
 * chain are parameters; every run records the requests it sends them.
 */
module YouTubeSummarizer {
  import opened Outcomes
  import opened PyStr

  /** `self.top_n_points`, set once by the constructor and never changed. */
  const TopNPoints: nat := 5

  /** One caption unit as the transcript service delivers it; only `text` is read. */
  datatype Segment = Segment(text: string, start: real, duration: real)

  /** The transcript service: the segments of a video's captions, or why it could not deliver them. */
  type TranscriptService = string -> Reply<seq<Segment>>

  // ---------------------------------------------------------------------------
  // Video-id extraction

  /**
   * `get_video_id`. A URL containing "youtu.be" is read as a short link, one
   * containing "youtube.com" as a watch link; anything else is refused.
   */
  function GetVideoId(url: string): (r: Result<string>)
    ensures r.Err? ==> !Contains(url, "youtu.be") && (r.error == InvalidUrl || r.error == IndexOutOfRange)
    ensures r == Err(InvalidUrl) <==> !Contains(url, "youtu.be") && !Contains(url, "youtube.com")
  {
    if Contains(url, "youtu.be") then
      Ok(Split(Last(Split(url, "/")), "?")[0])
    else if Contains(url, "youtube.com") then
      var pieces := Split(url, "v=");
      if |pieces| < 2 then Err(IndexOutOfRange) else Ok(Split(pieces[1], "&")[0])
    else
      Err(InvalidUrl)
  }

  /** `url` is `head + id + tail` with `head` empty or ending in '/', and `id + tail` free of '/'. */
  ghost predicate ShortLinkSplit(url: string, head: string, id: string, tail: string)
  {
    && url == head + id + tail
    && (head == "" || head[|head| - 1] == '/')
    && '/' !in id && '/' !in tail
    && '?' !in id
    && (tail == "" || tail[0] == '?')
  }

  /**
   * `id` is the short-link id of `url`: the text after the last '/', cut
   * before the first '?' that follows.
   */
  ghost predicate IsShortLinkId(url: string, id: string)
  {
    exists head, tail :: ShortLinkSplit(url, head, id, tail)
  }

  /**
   * `url` is `head + "v=" + id + rest + tail`: `head` holds no "v=", `id + rest`
   * runs to the next "v=" (which starts `tail`) or to the end, and `id` is cut
   * before the first '&'.
   */
  ghost predicate WatchLinkSplit(url: string, head: string, id: string, rest: string, tail: string)
  {
    && url == head + "v=" + id + rest + tail
    && !Contains(head, "v=")
    && !Contains(id + rest, "v=")
    && (tail == "" || OccursAt(tail, "v=", 0))
    && '&' !in id
    && (rest == "" || rest[0] == '&')
  }

  /** `id` is the watch-link id of `url`: the text between the first "v=" and the next "v=", cut before '&'. */
  ghost predicate IsWatchLinkId(url: string, id: string)
  {
    exists head, rest, tail :: WatchLinkSplit(url, head, id, rest, tail)
  }

  /**
   * A URL containing "youtu.be" takes the short-link branch, whatever else it
   * contains, and yields its short-link id, which holds neither '/' nor '?'.
   */
  lemma ShortLinkId(url: string)
    requires Contains(url, "youtu.be")
    ensures GetVideoId(url).Ok?
    ensures '/' !in GetVideoId(url).value && '?' !in GetVideoId(url).value
    ensures IsShortLinkId(url, GetVideoId(url).value)
  {
    var last := Last(Split(url, "/"));
    var head := LastPiece(url, '/');
    var tail := FirstPiece(last, '?');
    var id := Split(last, "?")[0];
    assert GetVideoId(url) == Ok(id);
    assert ShortLinkSplit(url, head, id, tail);
  }

  /**
   * A URL with "youtube.com", without "youtu.be" and with a "v=" yields its
   * watch-link id, which holds neither '&' nor "v=".
   */
  lemma WatchLinkId(url: string)
    requires !Contains(url, "youtu.be") && Contains(url, "youtube.com") && Contains(url, "v=")
    ensures GetVideoId(url).Ok?
    ensures '&' !in GetVideoId(url).value && !Contains(GetVideoId(url).value, "v=")
    ensures IsWatchLinkId(url, GetVideoId(url).value)
  {
    var head, tail := SecondPiece(url, "v=");
    var field := Split(url, "v=")[1];
    var rest := FirstPiece(field, '&');
    var id := Split(field, "&")[0];
    Regroup(head, "v=", id, rest, tail);
    assert GetVideoId(url) == Ok(id);
    assert WatchLinkSplit(url, head, id, rest, tail);
    PrefixFree(id, rest, "v=");
  }

  /** A URL has at most one short-link id. */
  lemma ShortLinkIdUnique(url: string, a: string, b: string)
    requires IsShortLinkId(url, a) && IsShortLinkId(url, b)
    ensures a == b
  {
    var h1, t1 :| ShortLinkSplit(url, h1, a, t1);
    var h2, t2 :| ShortLinkSplit(url, h2, b, t2);
    assert url == h1 + (a + t1) && url == h2 + (b + t2);
    AfterLastUnique(url, '/', h1, a + t1, h2, b + t2);
    BeforeFirstUnique(a + t1, '?', a, t1, b, t2);
  }

  /** For a short link, the id `get_video_id` returns is exactly the one `IsShortLinkId` describes. */
  lemma ShortLinkIdExact(url: string, id: string)
    requires Contains(url, "youtu.be")
    ensures GetVideoId(url) == Ok(id) <==> IsShortLinkId(url, id)
  {
    ShortLinkId(url);
    if IsShortLinkId(url, id) {
      ShortLinkIdUnique(url, id, GetVideoId(url).value);
    }
  }

  /** Two watch-link decompositions of one URL agree on the id. */
  lemma WatchLinkSplitUnique(url: string, h1: string, a: string, r1: string, t1: string,
                             h2: string, b: string, r2: string, t2: string)
    requires WatchLinkSplit(url, h1, a, r1, t1) && WatchLinkSplit(url, h2, b, r2, t2)
    ensures a == b
  {
    var rem1, rem2 := a + r1 + t1, b + r2 + t2;
    assert url == h1 + ("v=" + rem1) && url == h2 + ("v=" + rem2);
    assert ("v=" + rem1)[..2] == "v=" && ("v=" + rem2)[..2] == "v=";
    BeforeFirstSepUnique(url, "v=", h1, "v=" + rem1, h2, "v=" + rem2);
    assert rem1 == ("v=" + rem1)[2..] && rem2 == ("v=" + rem2)[2..];
    assert rem1 == (a + r1) + t1 && rem2 == (b + r2) + t2;
    BeforeFirstSepUnique(rem1, "v=", a + r1, t1, b + r2, t2);
    BeforeFirstUnique(a + r1, '&', a, r1, b, r2);
  }

  /** A URL has at most one watch-link id. */
  lemma WatchLinkIdUnique(url: string, a: string, b: string)
    requires IsWatchLinkId(url, a) && IsWatchLinkId(url, b)
    ensures a == b
  {
    var h1, r1, t1 :| WatchLinkSplit(url, h1, a, r1, t1);
    var h2, r2, t2 :| WatchLinkSplit(url, h2, b, r2, t2);
    WatchLinkSplitUnique(url, h1, a, r1, t1, h2, b, r2, t2);
  }

  /** A URL with a watch-link id contains "v=". */
  lemma WatchLinkHasMarker(url: string, id: string)
    requires IsWatchLinkId(url, id)
    ensures Contains(url, "v=")
  {
    var h, r, t :| WatchLinkSplit(url, h, id, r, t);
    assert url == h + "v=" + (id + r + t);
    assert url[|h|..|h| + 2] == "v=";
    assert OccursAt(url, "v=", |h|);
  }

  /** For a watch link, the id `get_video_id` returns is exactly the one `IsWatchLinkId` describes. */
  lemma WatchLinkIdExact(url: string, id: string)
    requires !Contains(url, "youtu.be") && Contains(url, "youtube.com")
    ensures GetVideoId(url) == Ok(id) <==> IsWatchLinkId(url, id)
  {
    if IsWatchLinkId(url, id) {
      WatchLinkHasMarker(url, id);
      WatchLinkId(url);
      WatchLinkIdUnique(url, id, GetVideoId(url).value);
    } else if Contains(url, "v=") {
      WatchLinkId(url);
    } else {
      WatchLinkWithoutV(url);
    }
  }

  /** A "youtube.com" URL without "youtu.be" and without "v=" fails at `[1]` with an IndexError. */
  lemma WatchLinkWithoutV(url: string)
    requires !Contains(url, "youtu.be") && Contains(url, "youtube.com") && !Contains(url, "v=")
    ensures GetVideoId(url) == Err(IndexOutOfRange)
  {
    SplitMany(url, "v=");
  }

  // ---------------------------------------------------------------------------
  // Video-id extraction on concrete URLs

  /** "youtu.be" is absent from `s` when no position has 'y' followed five places later by '.'. */
  lemma NoShortMarker(s: string)
    requires forall i | 0 <= i <= |s| - 8 :: s[i] != 'y' || s[i + 5] != '.'
    ensures !Contains(s, "youtu.be")
  {
    forall i | 0 <= i <= |s| - 8
      ensures !OccursAt(s, "youtu.be", i)
    {
      OccursAtChar(s, "youtu.be", i, 0);
      OccursAtChar(s, "youtu.be", i, 5);
    }
  }

  /** "v=" is absent from `s` when no 'v' is followed by '='. */
  lemma NoWatchMarker(s: string)
    requires forall i | 0 <= i < |s| - 1 :: s[i] != 'v' || s[i + 1] != '='
    ensures !Contains(s, "v=")
  {
    forall i | 0 <= i <= |s| - 2
      ensures !OccursAt(s, "v=", i)
    {
      OccursAtChar(s, "v=", i, 0);
      OccursAtChar(s, "v=", i, 1);
    }
  }

  // The examples below take the URL as a parameter fixed by `requires` rather
  // than as a literal argument, and prove its markers and its cut in helper
  // lemmas of their own: this keeps the solver from unfolding `Split` and
  // `Contains` over the whole literal at once.

  /** "https://youtu.be/abc123?t=5" has the short-link id "abc123". */
  lemma ShortLinkExampleSplit(url: string)
    requires url == "https://youtu.be/abc123?t=5"
    ensures Contains(url, "youtu.be") && IsShortLinkId(url, "abc123")
  {
    CharsOccur(url, "youtu.be", 8);
    assert ShortLinkSplit(url, "https://youtu.be/", "abc123", "?t=5");
  }

  /** A short link with a query: the id stops at '?'. */
  lemma ShortLinkExample(url: string)
    requires url == "https://youtu.be/abc123?t=5"
    ensures GetVideoId(url) == Ok("abc123")
  {
    ShortLinkExampleSplit(url);
    ShortLinkIdExact(url, "abc123");
  }

  /** "youtube.com/watch?v=ab&f=youtu.be" holds "youtu.be" and has the short-link id "watch". */
  lemma ShareLinkExampleSplit(url: string)
    requires url == "youtube.com/watch?v=ab&f=youtu.be"
    ensures Contains(url, "youtu.be") && IsShortLinkId(url, "watch")
  {
    CharsOccur(url, "youtu.be", 25);
    assert ShortLinkSplit(url, "youtube.com/", "watch", "?v=ab&f=youtu.be");
  }

  /**
   * A watch link carrying "youtu.be" in its query, as YouTube's share links
   * do with `feature=youtu.be`, takes the short-link branch: the id is the
   * path segment "watch", not the video parameter.
   */
  lemma ShareLinkExample(url: string)
    requires url == "youtube.com/watch?v=ab&f=youtu.be"
    ensures GetVideoId(url) == Ok("watch")
  {
    ShareLinkExampleSplit(url);
    ShortLinkIdExact(url, "watch");
  }

  /** "https://youtu.be/" has the empty short-link id. */
  lemma EmptyShortLinkExampleSplit(url: string)
    requires url == "https://youtu.be/"
    ensures Contains(url, "youtu.be") && IsShortLinkId(url, "")
  {
    CharsOccur(url, "youtu.be", 8);
    assert ShortLinkSplit(url, url, "", "");
  }

  /** A short link with nothing after the last '/' yields the empty id. */
  lemma EmptyShortLinkExample(url: string)
    requires url == "https://youtu.be/"
    ensures GetVideoId(url) == Ok("")
  {
    EmptyShortLinkExampleSplit(url);
    ShortLinkIdExact(url, "");
  }

  /** "youtube.com/watch?v=XYZ&t=10" holds "youtube.com" but not "youtu.be". */
  lemma WatchLinkExampleMarkers(url: string)
    requires url == "youtube.com/watch?v=XYZ&t=10"
    ensures !Contains(url, "youtu.be") && Contains(url, "youtube.com")
  {
    NoShortMarker(url);
    CharsOccur(url, "youtube.com", 0);
  }

  /** "youtube.com/watch?v=XYZ&t=10" is a watch link with id "XYZ". */
  lemma WatchLinkExampleSplit(url: string)
    requires url == "youtube.com/watch?v=XYZ&t=10"
    ensures IsWatchLinkId(url, "XYZ")
  {
    NoWatchMarker("youtube.com/watch?");
    NoWatchMarker("XYZ" + "&t=10");
    assert url == "youtube.com/watch?" + "v=" + "XYZ" + "&t=10" + "";
    assert WatchLinkSplit(url, "youtube.com/watch?", "XYZ", "&t=10", "");
  }

  /** A watch link: the id stops at '&'. */
  lemma WatchLinkExample(url: string)
    requires url == "youtube.com/watch?v=XYZ&t=10"
    ensures GetVideoId(url) == Ok("XYZ")
  {
    WatchLinkExampleMarkers(url);
    WatchLinkExampleSplit(url);
    WatchLinkIdExact(url, "XYZ");
  }

  /** "youtube.com/watch?v=dev=x" holds "youtube.com" but not "youtu.be". */
  lemma SecondMarkerExampleMarkers(url: string)
    requires url == "youtube.com/watch?v=dev=x"
    ensures !Contains(url, "youtu.be") && Contains(url, "youtube.com")
  {
    NoShortMarker(url);
    CharsOccur(url, "youtube.com", 0);
  }

  /** "youtube.com/watch?v=dev=x" is a watch link with id "de". */
  lemma SecondMarkerExampleSplit(url: string)
    requires url == "youtube.com/watch?v=dev=x"
    ensures IsWatchLinkId(url, "de")
  {
    NoWatchMarker("youtube.com/watch?");
    NoWatchMarker("de" + "");
    assert "v=x"[..2] == "v=";
    assert url == "youtube.com/watch?" + "v=" + "de" + "" + "v=x";
    assert WatchLinkSplit(url, "youtube.com/watch?", "de", "", "v=x");
  }

  /** A second "v=" ends the id, as `split("v=")[1]` does. */
  lemma SecondMarkerExample(url: string)
    requires url == "youtube.com/watch?v=dev=x"
    ensures GetVideoId(url) == Ok("de")
  {
    SecondMarkerExampleMarkers(url);
    SecondMarkerExampleSplit(url);
    WatchLinkIdExact(url, "de");
  }

  /** "youtube.com/watch?rev=2&v=abc" holds "youtube.com" but not "youtu.be". */
  lemma ParameterSuffixExampleMarkers(url: string)
    requires url == "youtube.com/watch?rev=2&v=abc"
    ensures !Contains(url, "youtu.be") && Contains(url, "youtube.com")
  {
    NoShortMarker(url);
    CharsOccur(url, "youtube.com", 0);
  }

  /** "youtube.com/watch?rev=2&v=abc" is a watch link with id "2": the first "v=" ends "rev=". */
  lemma ParameterSuffixExampleSplit(url: string)
    requires url == "youtube.com/watch?rev=2&v=abc"
    ensures IsWatchLinkId(url, "2")
  {
    NoWatchMarker("youtube.com/watch?re");
    NoWatchMarker("2" + "&");
    assert "v=abc"[..2] == "v=";
    assert url == "youtube.com/watch?re" + "v=" + "2" + "&" + "v=abc";
    assert WatchLinkSplit(url, "youtube.com/watch?re", "2", "&", "v=abc");
  }

  /**
   * Any query parameter whose name ends in 'v' is taken for the video
   * parameter when it comes first: `split("v=")[1]` does not look at names.
   */
  lemma ParameterSuffixExample(url: string)
    requires url == "youtube.com/watch?rev=2&v=abc"
    ensures GetVideoId(url) == Ok("2")
  {
    ParameterSuffixExampleMarkers(url);
    ParameterSuffixExampleSplit(url);
    WatchLinkIdExact(url, "2");
  }

  /** A watch link without "v=" raises IndexError rather than ValueError. */
  lemma WatchLinkWithoutMarkerExample(url: string)
    requires url == "https://youtube.com/watch"
    ensures GetVideoId(url) == Err(IndexOutOfRange)
  {
    NoShortMarker(url);
    NoWatchMarker(url);
    CharsOccur(url, "youtube.com", 8);
    WatchLinkWithoutV(url);
  }

  // ---------------------------------------------------------------------------
  // Transcript

  /** The `text` of every segment, in delivery order. */
  function Texts(segments: seq<Segment>): (texts: seq<string>)
    ensures |texts| == |segments|
    ensures forall i | 0 <= i < |segments| :: texts[i] == segments[i].text
  {
    seq(|segments|, i requires 0 <= i < |segments| => segments[i].text)
  }

  /** The transcript text: the segment texts joined by single spaces, as `" ".join(...)` does. */
  function JoinTexts(segments: seq<Segment>): string
  {
    Join(Texts(segments), " ")
  }

  /**
   * `get_transcript`. An empty id is refused before the transcript service is
   * asked; otherwise the service is asked exactly once, a failure is wrapped,
   * and the delivered segments are joined.
   */
  function GetTranscript(videoId: string, fetch: TranscriptService): (o: Outcome<string>)
    ensures videoId == "" <==> o.calls == []
    ensures videoId == "" ==> o.result == Err(MissingVideoId)
    ensures videoId != "" ==> o.calls == [TranscriptRequest(videoId)]
    ensures videoId != "" ==> (o.result.Ok? <==> fetch(videoId).Delivered?)
    ensures o.result.Ok? ==> o.result.value == JoinTexts(fetch(videoId).value)
    ensures o.result.Err? && videoId != "" ==> o.result.error == TranscriptUnavailable(fetch(videoId).cause)
  {
    if videoId == "" then
      Outcome(Err(MissingVideoId), [])
    else
      var request := [TranscriptRequest(videoId)];
      match fetch(videoId)
      case Delivered(segments) => Outcome(Ok(JoinTexts(segments)), request)
      case Failed(cause) => Outcome(Err(TranscriptUnavailable(cause)), request)
  }

  /** n >= 1 segments make a transcript of their texts' total length plus n - 1 spaces. */
  lemma TranscriptLength(segments: seq<Segment>)
    requires |segments| >= 1
    ensures |JoinTexts(segments)| == TotalLength(Texts(segments)) + |segments| - 1
  {
    JoinLength(Texts(segments), " ");
  }

  /** The transcript is empty exactly when there are no segments, or a single one with empty text. */
  lemma EmptyTranscript(segments: seq<Segment>)
    ensures JoinTexts(segments) == "" <==> |segments| == 0 || (|segments| == 1 && segments[0].text == "")
  {
    if |segments| >= 1 {
      TranscriptLength(segments);
      if |segments| == 1 {
        assert JoinTexts(segments) == segments[0].text;
      }
    }
  }

  /** When no segment text holds a space, splitting the transcript at spaces gives the texts back. */
  lemma TranscriptSplitsBack(segments: seq<Segment>)
    requires |segments| >= 1
    requires forall i | 0 <= i < |segments| :: ' ' !in segments[i].text
    ensures Split(JoinTexts(segments), " ") == Texts(segments)
  {
    JoinSplit(Texts(segments), ' ');
  }

  /** Three segments "a", "b", "c" make the transcript "a b c". */
  lemma TranscriptExample(segments: seq<Segment>)
    requires segments == [Segment("a", 0.0, 1.0), Segment("b", 1.0, 1.0), Segment("c", 2.0, 1.0)]
    ensures JoinTexts(segments) == "a b c"
  {
    var texts := Texts(segments);
    assert texts == ["a", "b", "c"];
    assert texts[1..][1..] == ["c"];
    assert Join(texts[1..], " ") == "b" + " " + "c";
  }

  // ---------------------------------------------------------------------------
  // Summary

  /** The request `summarize` sends: the transcript, with `top_n` bound to `TopNPoints`. */
  function SummaryOf(transcript: string): ServiceCall
  {
    SummaryRequest(transcript, TopNPoints)
  }

  /**
   * `summarize`. An empty transcript is refused before the language model is
   * asked; otherwise the model is asked exactly once for the top
   * `TopNPoints` points, and a failure is wrapped.
   */
  function Summarize(transcript: string, llm: CompletionService): (o: Outcome<string>)
    ensures transcript == "" <==> o.calls == []
    ensures transcript == "" ==> o.result == Err(MissingTranscript)
    ensures transcript != "" ==> o.calls == [SummaryRequest(transcript, 5)]
    ensures transcript != "" ==> (o.result.Ok? <==> llm(SummaryOf(transcript)).Delivered?)
    ensures o.result.Ok? ==> llm(SummaryOf(transcript)) == Delivered(o.result.value)
    ensures o.result.Err? && transcript != "" ==> o.result.error == SummarizationFailed(llm(SummaryOf(transcript)).cause)
  {
    if transcript == "" then
      Outcome(Err(MissingTranscript), [])
    else
      match llm(SummaryOf(transcript))
      case Delivered(summary) => Outcome(Ok(summary), [SummaryOf(transcript)])
      case Failed(cause) => Outcome(Err(SummarizationFailed(cause)), [SummaryOf(transcript)])
  }

  // ---------------------------------------------------------------------------
  // Pipeline

  /**
   * `process_video`: parse the URL, fetch the transcript, summarize it. The
   * first stage that fails aborts the run with its error, and no later
   * service is asked.
   */
  function ProcessVideo(url: string, fetch: TranscriptService, llm: CompletionService): (o: Outcome<string>)
    ensures |o.calls| <= 2
    ensures GetVideoId(url).Err? ==> o == Outcome(Err(GetVideoId(url).error), [])
    ensures |o.calls| >= 1 ==> GetVideoId(url).Ok? && o.calls[0] == TranscriptRequest(GetVideoId(url).value)
    ensures |o.calls| == 2 ==>
              && fetch(GetVideoId(url).value).Delivered?
              && o.calls[1] == SummaryOf(JoinTexts(fetch(GetVideoId(url).value).value))
    ensures o.result.Ok? ==> |o.calls| == 2 && llm(o.calls[1]) == Delivered(o.result.value)
    // Once the URL has parsed, each stage's error reaches the caller unchanged,
    // with exactly the requests made up to that stage.
    ensures GetVideoId(url) == Ok("") ==> o == Outcome(Err(MissingVideoId), [])
    ensures GetVideoId(url).Ok? && GetVideoId(url).value != "" && fetch(GetVideoId(url).value).Failed? ==>
              o == Outcome(Err(TranscriptUnavailable(fetch(GetVideoId(url).value).cause)),
                           [TranscriptRequest(GetVideoId(url).value)])
    ensures GetVideoId(url).Ok? && GetVideoId(url).value != "" && fetch(GetVideoId(url).value).Delivered? ==>
              var transcript := JoinTexts(fetch(GetVideoId(url).value).value);
              && (transcript == "" ==> o == Outcome(Err(MissingTranscript), [TranscriptRequest(GetVideoId(url).value)]))
              && (transcript != "" ==> o.calls == [TranscriptRequest(GetVideoId(url).value), SummaryRequest(transcript, 5)])
              && (transcript != "" && llm(SummaryOf(transcript)).Failed? ==>
                    o.result == Err(SummarizationFailed(llm(SummaryOf(transcript)).cause)))
              && (transcript != "" && llm(SummaryOf(transcript)).Delivered? ==>
                    o.result == Ok(llm(SummaryOf(transcript)).value))
  {
    match GetVideoId(url)
    case Err(e) => Outcome(Err(e), [])
    case Ok(videoId) =>
      var fetched := GetTranscript(videoId, fetch);
      if fetched.result.Err? then
        fetched
      else
        var summarized := Summarize(fetched.result.value, llm);
        Outcome(summarized.result, fetched.calls + summarized.calls)
  }

  /**
   * A run succeeds exactly when every stage does: the URL yields a non-empty
   * id, the transcript service delivers a non-empty transcript, and the
   * language model answers.
   */
  lemma ProcessVideoSucceeds(url: string, fetch: TranscriptService, llm: CompletionService)
    ensures ProcessVideo(url, fetch, llm).result.Ok? <==>
              && GetVideoId(url).Ok?
              && GetVideoId(url).value != ""
              && fetch(GetVideoId(url).value).Delivered?
              && JoinTexts(fetch(GetVideoId(url).value).value) != ""
              && llm(SummaryOf(JoinTexts(fetch(GetVideoId(url).value).value))).Delivered?
  {
  }

  /** A URL whose id is empty stops at the id check: no service is asked. */
  lemma EmptyIdAsksNoService(url: string, fetch: TranscriptService, llm: CompletionService)
    requires GetVideoId(url) == Ok("")
    ensures ProcessVideo(url, fetch, llm) == Outcome(Err(MissingVideoId), [])
  {
  }

  /** "https://youtu.be/" is accepted as a short link but stops at the id check. */
  lemma EmptyShortLinkRun(url: string, fetch: TranscriptService, llm: CompletionService)
    requires url == "https://youtu.be/"
    ensures ProcessVideo(url, fetch, llm) == Outcome(Err(MissingVideoId), [])
  {
    EmptyShortLinkExample(url);
    EmptyIdAsksNoService(url, fetch, llm);
  }

  /** A video without captions (no segments) reaches the transcript service but not the language model. */
  lemma NoCaptionsRun(url: string, fetch: TranscriptService, llm: CompletionService)
    requires GetVideoId(url).Ok? && GetVideoId(url).value != ""
    requires fetch(GetVideoId(url).value) == Delivered([])
    ensures ProcessVideo(url, fetch, llm) == Outcome(Err(MissingTranscript), [TranscriptRequest(GetVideoId(url).value)])
  {
  }
}
