/**
 * Values shared by both pipelines: Python's `None`, the exceptions the core
 * raises, the replies of the external services the core calls, and the record
 * of which external requests one pipeline run made.
 */
module Outcomes {

  /** Python's `Optional[str]`: a question that may be `None`. */
  datatype Option<+T> = None | Some(value: T)

  /** The exceptions raised by the core, one constructor per raise site. */
  datatype Error =
    | InvalidUrl                        // ValueError: not a youtube.com / youtu.be URL
    | IndexOutOfRange                   // IndexError from `split("v=")[1]`
    | MissingVideoId                    // ValueError: "Video ID is required"
    | TranscriptUnavailable(cause: string)  // "Failed to retrieve transcript: ..."
    | MissingTranscript                 // ValueError: "Transcript is required ..."
    | SummarizationFailed(cause: string)    // "AI summarization failed: ..."
    | MissingQuestion                   // ValueError: "Question cannot be None"
    | AnswerFailed(cause: string)       // "Error processing question: ..."

  /** A value, or the exception that aborted the computation. */
  datatype Result<+T> = Ok(value: T) | Err(error: Error)

  /** What an external service hands back: its answer, or the text of its failure. */
  datatype Reply<+T> = Delivered(value: T) | Failed(cause: string)

  /** One request sent to an external service. */
  datatype ServiceCall =
    | TranscriptRequest(videoId: string)
    | SummaryRequest(transcript: string, topN: nat)
    | AgentRequest(tools: string, toolNames: seq<string>, question: string)

  /** The language-model chain: the text it generates for one request, or why it failed. */
  type CompletionService = ServiceCall -> Reply<string>

  /** The result of one pipeline run together with the external requests it made, in order. */
  datatype Outcome<+T> = Outcome(result: Result<T>, calls: seq<ServiceCall>)
}
