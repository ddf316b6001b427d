/** `AzureDocumentSummarizer.summarize_document` from src/document_analysis/summarizer.py:
    it builds a summarisation prompt, sends it to the chat model and, when reasoning was
    requested, splits the reply into a summary and a thought-process section. The chat call
    is a parameter: it maps the prompt to the reply text or to the exception it raised. */
module Summarizer {
  import opened PyStrings
  import opened Outcomes
  import ResponseFormatter

  const ThoughtProcessMarker := "***Thought Process:***"
  const MissingThoughts := "Thought process section was not explicitly provided."
  const ReasoningRequest := "\nPlease also provide your reasoning and thought process behind this summary."
  const PromptHead := "Summarize the following document in a "
  const PromptMiddle := " manner:\n\n"

  /** The user prompt: the requested length and the document, followed by the request for
      reasoning exactly when `requestThoughts` is set. */
  function SummaryPrompt(documentText: string, summaryLength: string, requestThoughts: bool): (p: string)
    ensures var head := PromptHead + summaryLength + PromptMiddle;
            var tail := if requestThoughts then ReasoningRequest else "";
            && |p| == |head| + |documentText| + |tail|
            && p[..|head|] == head
            && p[|head|..|p| - |tail|] == documentText
            && p[|p| - |tail|..] == tail
  {
    var head := PromptHead + summaryLength + PromptMiddle;
    var tail := if requestThoughts then ReasoningRequest else "";
    var p := head + documentText + tail;
    assert p[|head|..|p| - |tail|] == documentText;
    p
  }

  /** The prompt determines the document: different documents give different prompts. */
  lemma SummaryPromptInjective(d1: string, d2: string, summaryLength: string, requestThoughts: bool)
    requires SummaryPrompt(d1, summaryLength, requestThoughts) == SummaryPrompt(d2, summaryLength, requestThoughts)
    ensures d1 == d2
  {
  }

  /** With reasoning requested the prompt ends with the request; the document always
      appears in it verbatim. */
  lemma SummaryPromptShape(documentText: string, summaryLength: string, requestThoughts: bool)
    ensures requestThoughts ==> EndsWith(SummaryPrompt(documentText, summaryLength, requestThoughts), ReasoningRequest)
    ensures Contains(SummaryPrompt(documentText, summaryLength, requestThoughts), documentText)
  {
    var head := PromptHead + summaryLength + PromptMiddle;
    var tail := if requestThoughts then ReasoningRequest else "";
    assert SummaryPrompt(documentText, summaryLength, requestThoughts) == head + documentText + tail;
    ContainsMiddle(head, documentText, tail);
  }

  /** The pair `(summary, thoughts)`; `thoughts` is `None` when reasoning was not requested
      or the call failed. */
  datatype Summary = Summary(summary: string, thoughts: Option<string>)

  /** `summarize_document(document_text, summary_length="concise", request_thoughts=True)`,
      where `chat` stands for the completion call on the prompt; any exception it raises
      is caught. */
  function SummarizeDocument(chat: string -> Outcome<string>, documentText: string,
                             summaryLength: string := "concise", requestThoughts: bool := true): (r: Summary)
    ensures var reply := chat(SummaryPrompt(documentText, summaryLength, requestThoughts));
            && (reply.Failed? ==> r == Summary(ErrorOccurred(reply.message), None))
            && (reply.Done? && !requestThoughts ==> r == Summary(reply.value, None))
            && (reply.Done? && requestThoughts ==>
                  && r.summary == Strip(Before(reply.value, ThoughtProcessMarker))
                  && r.thoughts == Some(if Contains(reply.value, ThoughtProcessMarker)
                                        then Strip(Before(After(reply.value, ThoughtProcessMarker), ThoughtProcessMarker))
                                        else MissingThoughts))
    ensures requestThoughts && chat(SummaryPrompt(documentText, summaryLength, requestThoughts)).Done? ==>
              IsStripped(r.summary) && !Contains(r.summary, ThoughtProcessMarker)
  {
    match chat(SummaryPrompt(documentText, summaryLength, requestThoughts))
    case Failed(e) => Summary(ErrorOccurred(e), None)
    case Done(text) =>
      if requestThoughts then
        var sections := ResponseFormatter.MarkerSections(text, ThoughtProcessMarker);
        Summary(sections.main, Some(sections.second.GetOr(MissingThoughts)))
      else
        Summary(text, None)
  }

  /** When the model answers `answer + marker + thoughts`, where the first marker is the
      one after the answer and the thoughts hold none, the summary and the thoughts come
      back stripped. */
  lemma SummarizeRoundTrip(documentText: string, summaryLength: string, chat: string -> Outcome<string>,
                           answer: string, thoughts: string)
    requires chat(SummaryPrompt(documentText, summaryLength, true)) == Done(answer + ThoughtProcessMarker + thoughts)
    requires Find(answer + ThoughtProcessMarker, ThoughtProcessMarker) == |answer|
    requires !Contains(thoughts, ThoughtProcessMarker)
    ensures SummarizeDocument(chat, documentText, summaryLength, true)
            == Summary(Strip(answer), Some(Strip(thoughts)))
  {
    ResponseFormatter.MarkerSectionsOf(answer, ThoughtProcessMarker, thoughts);
  }
}
