/** The chat-completion service as the core sees it: an answer or the message of what was thrown. */
module Perplexity {
  import opened Wrappers

  /** What one chat-completion call gave back: the first choice's content and the citations, or
      the message of the error it threw (a missing API key included). */
  datatype Completion = Failed(message: string) | Answered(content: string, citations: Option<seq<string>>)

  const MissingKeyMessage := "PERPLEXITY_API_KEY not configured"
}
