/** `ResponseFormatter` from src/core/response_formatter.py: it turns a model's raw reply
    into a main response and a "thoughts" section, shapes data replies, and wraps error
    messages for display. Telemetry spans and logging are not part of the model. */
module ResponseFormatter {
  import opened PyStrings
  import opened Outcomes

  /** The marker the formatter splits replies on. */
  const ThoughtsMarker := "***DocuNexus Thoughts:***"

  /** The first piece of a split, stripped, and the second piece, stripped, if there is one. */
  datatype Sections = Sections(main: string, second: Option<string>)

  /** `parts = text.split(marker)`, keeping `parts[0].strip()` and, when `len(parts) > 1`,
      `parts[1].strip()`. */
  function MarkerSections(text: string, marker: string): (r: Sections)
    requires |marker| > 0
    ensures r.main == Strip(Before(text, marker))
    ensures r.second.None? <==> !Contains(text, marker)
    ensures r.second.Some? ==> r.second.value == Strip(Before(After(text, marker), marker))
    ensures IsStripped(r.main) && !Contains(r.main, marker)
    ensures r.second.Some? ==> IsStripped(r.second.value) && !Contains(r.second.value, marker)
  {
    var parts := Split(text, marker);
    SplitFirst(text, marker);
    SplitPartsFree(text, marker);
    StripKeepsAbsence(parts[0], marker);
    if |parts| > 1 then
      SplitSecond(text, marker);
      StripKeepsAbsence(parts[1], marker);
      Sections(Strip(parts[0]), Some(Strip(parts[1])))
    else
      Sections(Strip(parts[0]), None)
  }

  /** A reply glued as `answer + marker + rest`, where the first marker is the one after
      `answer` and `rest` holds none, splits back into `answer` and `rest`, stripped. */
  lemma MarkerSectionsOf(answer: string, marker: string, rest: string)
    requires |marker| > 0 && Find(answer + marker, marker) == |answer| && !Contains(rest, marker)
    ensures MarkerSections(answer + marker + rest, marker) == Sections(Strip(answer), Some(Strip(rest)))
  {
    SplitAround(answer, marker, rest);
  }

  /** The pair `(main_response, thoughts)` that `format_text_response` returns. */
  datatype FormattedText = FormattedText(main: string, thoughts: string)

  /** `format_text_response`: strip the reply, split it on the marker, strip the first piece
      as the main response and the second piece, if any, as the thoughts. */
  function FormatTextResponse(responseText: string): (r: FormattedText)
    ensures var text := Strip(responseText);
            && r.main == Strip(Before(text, ThoughtsMarker))
            && (!Contains(responseText, ThoughtsMarker) ==> r.main == text && r.thoughts == "")
            && (Contains(responseText, ThoughtsMarker) ==>
                  r.thoughts == Strip(Before(After(text, ThoughtsMarker), ThoughtsMarker)))
    ensures IsStripped(r.main) && IsStripped(r.thoughts)
    ensures !Contains(r.main, ThoughtsMarker) && !Contains(r.thoughts, ThoughtsMarker)
  {
    var text := Strip(responseText);
    StripKeepsPresence(responseText, ThoughtsMarker);
    StripIdempotent(responseText);
    var sections := MarkerSections(text, ThoughtsMarker);
    FormattedText(sections.main, sections.second.GetOr(""))
  }

  /** Whitespace around `a + marker + t`, where `a` does not start and `t` does not end with
      whitespace, is exactly what stripping removes. */
  lemma StripAroundMarker(pre: string, a: string, marker: string, t: string, post: string)
    requires |marker| > 0 && IsStripped(marker) && AllSpace(pre) && AllSpace(post)
    requires |a| == 0 || !IsSpace(a[0])
    requires |t| == 0 || !IsSpace(t[|t| - 1])
    ensures Strip(pre + (a + marker + t) + post) == a + marker + t
  {
    var x := a + marker + t;
    assert x[0] == if |a| > 0 then a[0] else marker[0];
    assert x[|x| - 1] == if |t| > 0 then t[|t| - 1] else marker[|marker| - 1];
    StripOf(pre, x, post);
  }

  /** The stripped reply `answer + marker + thoughts` is the marker between `answer`
      without its leading whitespace and `thoughts` without its trailing whitespace. */
  lemma StripReply(answer: string, marker: string, thoughts: string) returns (a: string, t: string)
    requires |marker| > 0 && IsStripped(marker)
    requires Find(answer + marker, marker) == |answer| && !Contains(thoughts, marker)
    ensures Strip(answer + marker + thoughts) == a + marker + t
    ensures Strip(a) == Strip(answer) && Strip(t) == Strip(thoughts)
    ensures Find(a + marker, marker) == |a| && !Contains(t, marker)
  {
    var pre, post;
    pre, a := StripLeft(answer);
    t, post := StripRight(thoughts);
    FindPastPrefix(pre, a, marker);
    AbsentFromPrefix(t, post, marker);
    RegroupAround(pre, a, marker, t, post);
    StripAroundMarker(pre, a, marker, t, post);
  }

  /** A reply made of an answer, the marker, and thoughts without the marker, where the
      first marker is the one after the answer, comes back as that answer and those
      thoughts, stripped, whatever whitespace surrounds it. */
  lemma FormatTextRoundTrip(answer: string, thoughts: string)
    requires Find(answer + ThoughtsMarker, ThoughtsMarker) == |answer| && !Contains(thoughts, ThoughtsMarker)
    ensures FormatTextResponse(answer + ThoughtsMarker + thoughts)
            == FormattedText(Strip(answer), Strip(thoughts))
  {
    var a, t := StripReply(answer, ThoughtsMarker, thoughts);
    MarkerSectionsOf(a, ThoughtsMarker, t);
  }

  /** What a data reply decodes to; JSON decoding itself is not part of the model. */
  datatype Json<Row> = Malformed | JsonList(rows: seq<Row>) | JsonOther

  /** A table built from a decoded list, or the reply body returned as it came. */
  datatype DataResponse<Row> = Table(rows: seq<Row>) | Raw(body: string)

  /** `format_data_response`: a body that decodes to a list becomes a table of its rows;
      anything else, whether it fails to decode or decodes to a non-list, is returned as is. */
  function FormatDataResponse<Row>(body: string, decode: string -> Json<Row>): (r: DataResponse<Row>)
    ensures r.Raw? <==> !decode(body).JsonList?
    ensures r.Raw? ==> r.body == body
    ensures r.Table? ==> r.rows == decode(body).rows
  {
    match decode(body)
    case JsonList(rows) => Table(rows)
    case _ => Raw(body)
  }

  const ErrorHead := "**Error:** "
  const ErrorTail := ". Please check the trace data in the sidebar for details."

  /** `format_error_response`: the message between a fixed head and a fixed tail. */
  function FormatErrorResponse(errorMessage: string): (r: string)
    ensures Contains(r, errorMessage)
    ensures |r| == |ErrorHead| + |errorMessage| + |ErrorTail|
  {
    ContainsMiddle(ErrorHead, errorMessage, ErrorTail);
    ErrorHead + errorMessage + ErrorTail
  }

  /** The message can be read back from the formatted error, so distinct messages give
      distinct displays. */
  lemma FormatErrorResponseInverse(errorMessage: string)
    ensures var r := FormatErrorResponse(errorMessage);
            && r[..|ErrorHead|] == ErrorHead
            && r[|r| - |ErrorTail|..] == ErrorTail
            && r[|ErrorHead|..|r| - |ErrorTail|] == errorMessage
  {
    var r := FormatErrorResponse(errorMessage);
    assert r == ErrorHead + errorMessage + ErrorTail;
    assert r[|ErrorHead|..|r| - |ErrorTail|] == errorMessage;
  }
}
