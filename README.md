# AI-Agents summarizer and multi-tool agent, modelled in Dafny

This project models the deterministic logic of two agents.

- `YouTubeSummarizer` turns a YouTube URL into a video id and fetches the video's transcript. It joins the transcript segments and asks a language model for a summary of the top five points.
- `MultiToolsAgent` holds a fixed registry of two tools ("python repl" and "wikipedia"). It derives from that registry a textual tool listing and the list of tool names, and passes both to a language model together with the user's question.

The external services are parameters of the model:

- the transcript service is a function from a video id to a list of segments, or a failure;
- the language-model chain is a function from a request to a text, or a failure.

`get_video_id` makes no external request and returns a `Result`: the id or the exception raised. The steps that ask a service (`get_transcript`, `summarize`, `process_video` and `ask`) return an `Outcome`. It holds the result and the list of external requests the step made, in order. This lets the contracts state which guards run before any service is asked, and that a failed stage stops all later ones.

Files:

- `outcomes.dfy`, module `Outcomes`: `Option` (Python's `None`), the exceptions as an `Error` datatype, `Result`, service replies and requests, and `Outcome`.
- `py_str.dfy`, module `PyStr`: Python's `in`, the first-occurrence search (`str.find`) that `in` and `split` perform, `str.split` (no maxsplit) and `str.join` on strings, with their properties:
  - a split joins back to the original;
  - the pieces hold no separator;
  - a split has at least two pieces exactly when the separator occurs;
  - for a one-character separator that no part contains, joining at least one part and then splitting gives the parts back;
  - a cut after the last occurrence of a character, before the first occurrence of a character, or before the first occurrence of a two-character separator whose characters differ (such as `"v="`) happens at one place only.
- `youtube_summarizer.dfy`, module `YouTubeSummarizer`: `get_video_id`, `get_transcript`, `summarize` and `process_video`.
  - The video id is also described without `split`. `IsShortLinkId` and `IsWatchLinkId` are predicates over the ways the URL can be cut into pieces.
  - The model proves that `get_video_id` returns exactly the id these predicates describe.
- `multi_tools.dfy`, module `MultiTools`: the tool registry, `tools_str`, `tool_names`, the `MultiToolsAgent` class (constructor, `_initialize_tools`, `ask`) and its invariant `Valid`.

Three behaviours of `get_video_id` are modelled as written:

- `split("v=")[1]` stops at the next `"v="`, wherever it is, so `youtube.com/watch?v=dev=x` gives `de`.
- The short-link test comes first and looks at the whole URL. A watch link carrying `youtu.be` anywhere, as share links do with `feature=youtu.be`, takes the short-link branch, so `youtube.com/watch?v=ab&f=youtu.be` gives `watch`.
- The id follows the first `"v="` anywhere in the URL. A query parameter whose name ends in `v` and that comes before the `v` parameter is taken for it, so `youtube.com/watch?rev=2&v=abc` gives `2`.

A `youtube.com` URL without `"youtu.be"` and without `"v="` raises an IndexError, which is modelled as `IndexOutOfRange`, not as the `ValueError` (`InvalidUrl`) of the last branch.

## Model

| member | source | states |
|---|---|---|
| PyStr.Contains | classes/YouTubeSummarizer.py:30-33 | Python's `sub in s`: some index at which `sub` occurs; its meaning is tied to `find` by `FindFirst` |
| PyStr.Find | classes/YouTubeSummarizer.py:30-35 | the first-occurrence search that `in` and `split` perform (Python's `str.find`, not called by the source itself): -1, or an index at which the separator occurs |
| PyStr.FindFirst | classes/YouTubeSummarizer.py:30-35 | `find` is -1 exactly when `sub in s` is false, and no occurrence starts before the index it returns |
| PyStr.Split | classes/YouTubeSummarizer.py:32-35 | `str.split(sep)` without maxsplit: at least one piece; `SplitJoin`, `SplitPiecesFree` and `SplitMany` give its meaning |
| PyStr.Join | classes/YouTubeSummarizer.py:57 | `sep.join(parts)`, also the `"".join` of `tools_str` (classes/MultiTools.py:43); `JoinLength` and `JoinSplit` give its meaning |
| PyStr.SplitJoin | classes/YouTubeSummarizer.py:32-35 | for a non-empty separator (Python refuses an empty one), `sep.join(s.split(sep)) == s`: splitting loses no text |
| PyStr.SplitPiecesFree | classes/YouTubeSummarizer.py:32-35 | for a non-empty separator, no piece of a split contains it |
| PyStr.SplitMany | classes/YouTubeSummarizer.py:35 | for a non-empty separator, a split has a piece `[1]` exactly when the separator occurs in the string |
| PyStr.JoinLength | classes/YouTubeSummarizer.py:57 | joining n >= 1 parts adds exactly n - 1 separators to the parts' total length |
| PyStr.JoinSplit | classes/YouTubeSummarizer.py:57 | joining at least one part, none holding the one-character separator, and splitting again gives the parts back |
| YouTubeSummarizer.GetVideoId | classes/YouTubeSummarizer.py:18-37 | `get_video_id` fails only without "youtu.be", with ValueError exactly when neither "youtu.be" nor "youtube.com" occurs, and otherwise with IndexError |
| YouTubeSummarizer.ShortLinkId | classes/YouTubeSummarizer.py:30-32 | with "youtu.be" (whatever else the URL holds, so the short-link test wins) the result is the short-link id: after the last '/', cut before '?', and it holds neither '/' nor '?' |
| YouTubeSummarizer.ShortLinkIdUnique | classes/YouTubeSummarizer.py:32 | a URL has at most one short-link id |
| YouTubeSummarizer.ShortLinkIdExact | classes/YouTubeSummarizer.py:30-32 | for a "youtu.be" URL, `get_video_id` returns `id` if and only if `id` is its short-link id |
| YouTubeSummarizer.WatchLinkId | classes/YouTubeSummarizer.py:33-35 | with "youtube.com", no "youtu.be" and a "v=", the result is the text between the first "v=" and the next one, cut before '&'; it holds neither '&' nor "v=" |
| YouTubeSummarizer.WatchLinkIdUnique | classes/YouTubeSummarizer.py:35 | a URL has at most one watch-link id |
| YouTubeSummarizer.WatchLinkIdExact | classes/YouTubeSummarizer.py:33-35 | for a "youtube.com" URL without "youtu.be", `get_video_id` returns `id` if and only if `id` is its watch-link id |
| YouTubeSummarizer.WatchLinkWithoutV | classes/YouTubeSummarizer.py:35 | a "youtube.com" URL without "youtu.be" and without "v=" fails with IndexError at `[1]` |
| YouTubeSummarizer.ShortLinkExample | classes/YouTubeSummarizer.py:32 | "https://youtu.be/abc123?t=5" gives "abc123" |
| YouTubeSummarizer.ShareLinkExample | classes/YouTubeSummarizer.py:30-32 | "youtube.com/watch?v=ab&f=youtu.be" takes the short-link branch and gives "watch", not "ab" |
| YouTubeSummarizer.EmptyShortLinkExample | classes/YouTubeSummarizer.py:32 | "https://youtu.be/" gives the empty id |
| YouTubeSummarizer.WatchLinkExample | classes/YouTubeSummarizer.py:35 | "youtube.com/watch?v=XYZ&t=10" gives "XYZ" |
| YouTubeSummarizer.SecondMarkerExample | classes/YouTubeSummarizer.py:35 | "youtube.com/watch?v=dev=x" gives "de": the second "v=" ends the id |
| YouTubeSummarizer.ParameterSuffixExample | classes/YouTubeSummarizer.py:35 | "youtube.com/watch?rev=2&v=abc" gives "2": the "v=" ending "rev=" is taken |
| YouTubeSummarizer.WatchLinkWithoutMarkerExample | classes/YouTubeSummarizer.py:33-35 | "https://youtube.com/watch" raises IndexError, not ValueError |
| YouTubeSummarizer.Texts | classes/YouTubeSummarizer.py:57 | the `text` of every segment, one per segment, in delivery order |
| YouTubeSummarizer.JoinTexts | classes/YouTubeSummarizer.py:57 | the transcript: the segment texts joined by single spaces; `TranscriptLength`, `EmptyTranscript` and `TranscriptSplitsBack` give its meaning |
| YouTubeSummarizer.GetTranscript | classes/YouTubeSummarizer.py:39-60 | an empty id is refused with no service request; otherwise exactly one request for that id, success exactly when the service delivers, the joined texts on success, the wrapped cause on failure |
| YouTubeSummarizer.TranscriptLength | classes/YouTubeSummarizer.py:57 | for n >= 1 segments the transcript is as long as the texts together plus n - 1 spaces |
| YouTubeSummarizer.EmptyTranscript | classes/YouTubeSummarizer.py:57 | the transcript is empty exactly when there are no segments or a single empty one |
| YouTubeSummarizer.TranscriptSplitsBack | classes/YouTubeSummarizer.py:57 | for one or more segments with space-free texts, splitting the transcript at ' ' gives the texts back in delivery order |
| YouTubeSummarizer.TranscriptExample | classes/YouTubeSummarizer.py:57 | segments "a", "b", "c" give "a b c" |
| YouTubeSummarizer.SummaryOf | classes/YouTubeSummarizer.py:132-136 | the request the chain receives: the transcript, with `top_n` bound to 5 |
| YouTubeSummarizer.Summarize | classes/YouTubeSummarizer.py:101-144 | an empty transcript is refused with no model request; otherwise exactly one request with `top_n` = 5, success exactly when the model answers, its text on success, the wrapped cause on failure |
| YouTubeSummarizer.ProcessVideo | classes/YouTubeSummarizer.py:146-161 | at most two requests; a URL error is passed on with no request; once the URL has parsed, each stage's own error reaches the caller unchanged: an empty id gives "Video ID is required" with no request, a transcript failure gives that failure after exactly the transcript request, an empty transcript gives "Transcript is required" after exactly that request, and a model failure gives that failure after both requests; a delivered non-empty transcript leads to exactly the summary request for its joined text, and the result is then the model's answer |
| YouTubeSummarizer.ProcessVideoSucceeds | classes/YouTubeSummarizer.py:159-161 | a run succeeds exactly when the id is parsed and non-empty, the transcript is delivered and non-empty, and the model answers |
| YouTubeSummarizer.EmptyIdAsksNoService | classes/YouTubeSummarizer.py:52-53 | a URL with an empty id ends with "Video ID is required" before any request |
| YouTubeSummarizer.EmptyShortLinkRun | classes/YouTubeSummarizer.py:159-160 | "https://youtu.be/" passes the URL check and stops at the empty-id check, with no request |
| YouTubeSummarizer.NoCaptionsRun | classes/YouTubeSummarizer.py:114-115 | a URL with a non-empty id whose video is delivered with no segments makes only the transcript request and ends with "Transcript is required" |
| MultiTools.Registry | classes/MultiTools.py:27-40 | the two configured tools, "python repl" then "wikipedia", with their descriptions; `RegistryContents` states what follows from it |
| MultiTools.PythonReplSingleLine | classes/MultiTools.py:27-31 | the Python tool's description has no newline |
| MultiTools.WikipediaSingleLine | classes/MultiTools.py:33-37 | the Wikipedia tool's description has no newline |
| MultiTools.Entry | classes/MultiTools.py:43 | one line of `tools_str`: `name: description`, without its newline |
| MultiTools.Lines | classes/MultiTools.py:43 | one `name: description\n` line per tool, in order |
| MultiTools.Listing | classes/MultiTools.py:43 | `tools_str`: the lines joined with the empty separator; the `Listing*` lemmas below give its meaning |
| MultiTools.Names | classes/MultiTools.py:44 | `tool_names`: one name per tool, in order |
| MultiTools.ListingCons | classes/MultiTools.py:43 | `tools_str` is the first tool's "name: description\n" line followed by the listing of the rest |
| MultiTools.ListingEmpty | classes/MultiTools.py:43 | `tools_str` is empty exactly when there are no tools |
| MultiTools.ListingEndsWithNewline | classes/MultiTools.py:43 | a non-empty `tools_str` ends with "\n" |
| MultiTools.ListingNewlines | classes/MultiTools.py:43 | with single-line names and descriptions, `tools_str` holds exactly one "\n" per tool |
| MultiTools.ListingLines | classes/MultiTools.py:43 | with single-line names and descriptions, splitting `tools_str` at "\n" gives "name: description" per tool, in order, then "" |
| MultiTools.NamesMatchLines | classes/MultiTools.py:43-44 | with single-line names and descriptions, `tools_str` has one line per tool plus a final empty piece, and its i-th line starts with `tool_names[i]` followed by ": " |
| MultiTools.RegistryContents | classes/MultiTools.py:27-44 | the registry's names are exactly "python repl" then "wikipedia", both single-line, and its listing is their two lines |
| MultiTools.RegistryNewlines | classes/MultiTools.py:40-43 | the registry's `tools_str` holds exactly two newlines |
| MultiTools.MultiToolsAgent.Valid | classes/MultiTools.py:40-44 | the agent's invariant: the tools are the registry, `tools_str` is its listing and `tool_names` its names |
| MultiTools.MultiToolsAgent.constructor | classes/MultiTools.py:14-22 | after construction the invariant holds, the tools are the registry, `tool_names` is ["python repl", "wikipedia"], and `tools_str` is their two lines |
| MultiTools.MultiToolsAgent.InitializeTools | classes/MultiTools.py:24-44 | installs the registry and derives `tools_str` and `tool_names` from it, establishing the invariant |
| MultiTools.MultiToolsAgent.Ask | classes/MultiTools.py:88-132 | only `None` is refused, with no model request; any string is sent once together with the registry's listing and names; success exactly when the model answers, the wrapped cause on failure |
| MultiTools.EmptyQuestionIsAsked | classes/MultiTools.py:101-102 | the empty question reaches the model, unlike `summarize`'s empty transcript; `None` does not |

## Left out

- The prompt text and its formatting (`create_prompt`, `_create_prompt`, `PromptTemplate`), and the LangChain chain (`RunnablePassthrough`, `ChatGroq`, `StrOutputParser`). These are foreign library calls. The model passes a structured request (the transcript with `top_n`, or the tool listing, the names and the question) to an opaque language-model function.
- The model configuration (model name, temperature, token limit, retries) and the `print` calls in the constructors. They are configuration and output only.
- Building the `ChatGroq` model (classes/YouTubeSummarizer.py:122-128, classes/MultiTools.py:108-114). It happens before the `try`, so a failure there would escape unwrapped, not as `SummarizationFailed` or `AnswerFailed`. Model construction is a foreign library call and is not modelled.
- Token counting before each model call (`get_prompt_tokens`, `_analyze_prompt_tokens`, `utils/prompts.py`). It is a tokenizer library plus printing. A failure there, which would escape outside the `try`, is not modelled.
- `YouTubeTranscriptApi.get_transcript` is a network call. It is the `TranscriptService` parameter. Segment timing fields are carried but never read. A segment without a `text` key cannot be expressed, so the KeyError it would cause inside the `try` is not modelled.
- Exception message texts. Each raise site is an `Error` constructor that keeps only the wrapped cause.
- `None` passed to `get_video_id`, `get_transcript` or `summarize`. Their callers always pass strings, so these inputs are typed `string`. Only `ask` takes `Option<string>`.
- The tools' own behaviour: the Python REPL and the Wikipedia lookup. Only their names and descriptions are modelled.
- `agents.py`: the interactive command-line loop, `.env` loading and `sys.exit`. It is all I/O.
