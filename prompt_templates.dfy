/** `AzurePromptTemplates.create_prompt` from src/core/prompt_templates.py: it picks a
    template by task type and fills in the user prompt, the context and the keyword options,
    appending a request for a marked "thoughts" section when asked to. */
module PromptTemplates {
  import opened PyStrings
  import opened Outcomes
  import ResponseFormatter

  /** The `context` argument: `None`, a string, or a list of document texts. */
  datatype Context = NoContext | Text(text: string) | Documents(docs: seq<string>)

  /** Python truthiness of the context: `None`, `""` and `[]` are false. */
  predicate Falsy(c: Context) {
    match c
    case NoContext => true
    case Text(s) => |s| == 0
    case Documents(ds) => |ds| == 0
  }

  /** The keyword options a template reads from `**kwargs`; `None` means not given. */
  datatype Options = Options(responseLength: Option<string>, language: Option<string>,
                             requestThoughts: Option<bool>)

  const NoOptions := Options(None, None, None)

  /** The marker the templates ask the model to use. */
  const AzureThoughtsMarker := "***DocuNexus Azure Thoughts:***"

  const DocumentThoughtsRequest := "\n" + AzureThoughtsMarker
    + " Include a section at the end, marked '" + AzureThoughtsMarker
    + "', explaining your reasoning step-by-step."
  const MediaThoughtsRequest := "\n" + AzureThoughtsMarker
    + " Include a brief section marked '" + AzureThoughtsMarker + "' explaining your reasoning."
  const WebcamThoughtsRequest := "\n" + AzureThoughtsMarker
    + " Include a section at the end, marked '" + AzureThoughtsMarker
    + "', explaining your step-by-step analysis process."

  /** Every template line is indented by eight spaces, and the last line holds only them. */
  const Indent := "        "

  const NoDocuments := "No documents provided."
  const NoMediaDescription := "No media description provided."

  /** The text of `x` when it is a string, with each character as its own item, as
      `"\n".join` iterates over a string. */
  function Chars(s: string): (items: seq<string>)
    ensures |items| == |s| && forall i :: 0 <= i < |s| ==> items[i] == [s[i]]
  {
    seq(|s|, i requires 0 <= i < |s| => [s[i]])
  }

  /** `"\n".join(context_documents) if context_documents else 'No documents provided.'` */
  function ShownDocuments(c: Context): (shown: string)
    ensures Falsy(c) ==> shown == NoDocuments
    ensures c.Documents? && |c.docs| == 1 ==> shown == c.docs[0]
    ensures c.Documents? && !Falsy(c) ==> |shown| == SumLengths(c.docs) + |c.docs| - 1
    ensures c.Documents? && !Falsy(c) && (forall i :: 0 <= i < |c.docs| ==> '\n' !in c.docs[i]) ==>
              Split(shown, "\n") == c.docs
  {
    if Falsy(c) then NoDocuments
    else match c
      case Documents(ds) =>
        JoinLength(ds, "\n");
        assert (forall i :: 0 <= i < |ds| ==> '\n' !in ds[i]) ==> Split(Join(ds, "\n"), "\n") == ds by {
          if forall i :: 0 <= i < |ds| ==> '\n' !in ds[i] {
            forall q | 0 <= q < |ds| ensures Find(ds[q] + "\n", "\n") == |ds[q]| && !Contains(ds[q], "\n") {
              CharFree(ds[q], '\n');
            }
            SplitOfJoin(ds, "\n");
          }
        }
        Join(ds, "\n")
      case Text(s) => Join(Chars(s), "\n")
      case NoContext => NoDocuments
  }

  /** `str(x)` of a list of strings: its items quoted and separated by ", " in brackets. */
  function ListRepr(ds: seq<string>): string {
    "[" + Join(seq(|ds|, i requires 0 <= i < |ds| => "'" + ds[i] + "'"), ", ") + "]"
  }

  /** Every item of the list appears, quoted, in its `str`. */
  lemma ListReprShowsItems(ds: seq<string>)
    ensures forall k :: 0 <= k < |ds| ==> Contains(ListRepr(ds), "'" + ds[k] + "'")
  {
    var items := seq(|ds|, i requires 0 <= i < |ds| => "'" + ds[i] + "'");
    forall k | 0 <= k < |ds| ensures Contains(ListRepr(ds), "'" + ds[k] + "'") {
      JoinContains(items, ", ", k);
      ContainsWithin("[", Join(items, ", "), "]", items[k]);
    }
  }

  /** `f"{x or default}"` for a context value. */
  function ShownOr(c: Context, default: string): (shown: string)
    ensures Falsy(c) ==> shown == default
    ensures c.Text? && !Falsy(c) ==> shown == c.text
    ensures c.Documents? && !Falsy(c) ==> |shown| >= 2 && shown[0] == '[' && shown[|shown| - 1] == ']'
    ensures c.Documents? && !Falsy(c) ==>
              forall k :: 0 <= k < |c.docs| ==> Contains(shown, "'" + c.docs[k] + "'")
  {
    if Falsy(c) then default
    else match c
      case Text(s) => s
      case Documents(ds) =>
        ListReprShowsItems(ds);
        ListRepr(ds)
      case NoContext => default
  }

  /** The text every template ends with, and the optional thoughts request after it. */
  function WithThoughts(prompt: string, requestThoughts: bool, request: string): string {
    if requestThoughts then prompt + request else prompt
  }

  /** A template that ends with the indentation ends with the thoughts request when it was
      appended, and still ends with the indentation exactly when it was not. */
  lemma WithThoughtsEnds(head: string, requestThoughts: bool, request: string)
    requires |request| > 0 && request[|request| - 1] == '.'
    ensures var p := WithThoughts(head + Indent, requestThoughts, request);
            && (requestThoughts ==> EndsWith(p, request))
            && (EndsWith(p, Indent) <==> !requestThoughts)
  {
    var p := WithThoughts(head + Indent, requestThoughts, request);
    if requestThoughts {
      assert p[|p| - |request|..] == request;
      assert p[|p| - |Indent|..][|Indent| - 1] == '.';
    } else {
      assert p[|p| - |Indent|..] == Indent;
    }
  }

  /** Every template is `a + user_prompt + b` ending in the indentation, optionally
      followed by the thoughts request: the user prompt and anything inside `b` appear in it,
      and it ends with the request exactly when the request was appended. */
  lemma Filled(a: string, x: string, b: string, y: string, flag: bool, request: string)
    requires |request| > 0 && request[|request| - 1] == '.' && Contains(b, y)
    ensures var p := WithThoughts(a + x + b + Indent, flag, request);
            && Contains(p, x) && Contains(p, y)
            && (flag ==> EndsWith(p, request))
            && (EndsWith(p, Indent) <==> !flag)
  {
    var tail := if flag then request else "";
    assert WithThoughts(a + x + b + Indent, flag, request) == a + x + b + (Indent + tail);
    FilledContains(a, x, b, Indent + tail, y);
    WithThoughtsEnds(a + x + b, flag, request);
  }

  lemma FilledContains(a: string, x: string, b: string, c: string, y: string)
    requires Contains(b, y)
    ensures Contains(a + x + b + c, x) && Contains(a + x + b + c, y)
  {
    ContainsMiddle(a, x, b + c);
    assert a + x + (b + c) == a + x + b + c;
    ContainsWithin(a + x, b, c, y);
  }

  function DocumentAnalysisHead(length: string, language: string): string {
    "\n"
    + Indent + "[Azure DocuNexus AGI - Document Analysis Task]\n"
    + "\n"
    + Indent + "You are Azure DocuNexus, an intelligent AGI agent powered by Azure OpenAI, specializing in document analysis. \n"
    + Indent + "Your goal is to deeply analyze the provided documents and respond to the user's request with a "
    + length + " response in " + language + ".\n"
    + "\n"
    + Indent + "**User Request:**\n"
    + Indent
  }

  /** The part after the user request; it shows the documents between their delimiters. */
  function DocumentAnalysisRest(shown: string): (r: string)
    ensures Contains(r, shown)
  {
    var before := "\n"
      + "\n"
      + Indent + "**Context Documents:**\n"
      + Indent + "---Document Start---\n"
      + Indent;
    var after := "\n"
      + Indent + "---Document End---\n"
      + "\n"
      + Indent + "Response Guidelines:\n"
      + Indent + "* Provide a clear, comprehensive, and detailed answer that directly addresses the user's request.\n"
      + Indent + "* Use bullet points or numbered lists where appropriate for clarity.\n"
      + Indent + "* Focus on extracting key insights and actionable information from the documents.\n";
    ContainsMiddle(before, shown, after);
    before + shown + after
  }

  /** `_document_analysis_prompt`: defaults "comprehensive", "English", thoughts requested. */
  function DocumentAnalysisPrompt(userPrompt: string, contextDocuments: Context, options: Options): (p: string)
    ensures Contains(p, userPrompt) && Contains(p, ShownDocuments(contextDocuments))
    ensures options.requestThoughts.GetOr(true) ==> EndsWith(p, DocumentThoughtsRequest)
    ensures EndsWith(p, Indent) <==> !options.requestThoughts.GetOr(true)
  {
    var head := DocumentAnalysisHead(options.responseLength.GetOr("comprehensive"), options.language.GetOr("English"));
    var rest := DocumentAnalysisRest(ShownDocuments(contextDocuments));
    var flag := options.requestThoughts.GetOr(true);
    Filled(head, userPrompt, rest, ShownDocuments(contextDocuments), flag, DocumentThoughtsRequest);
    WithThoughts(head + userPrompt + rest + Indent, flag, DocumentThoughtsRequest)
  }

  function MediaSummarizationHead(length: string, language: string): string {
    "\n"
    + Indent + "[Azure DocuNexus AGI - Media Summarization Task]\n"
    + "\n"
    + Indent + "You are Azure DocuNexus, an intelligent AGI agent powered by Azure OpenAI, specializing in media summarization. \n"
    + Indent + "Your goal is to summarize the media content based on the user's request in a "
    + length + " response in " + language + ".\n"
    + "\n"
    + Indent + "**User Request:**\n"
    + Indent
  }

  /** The part after the user request; it shows the media description. */
  function MediaSummarizationRest(shown: string): (r: string)
    ensures Contains(r, shown)
  {
    var before := "\n"
      + "\n"
      + Indent + "**Media Description:**\n"
      + Indent;
    var after := "\n"
      + "\n"
      + Indent + "Response Guidelines:\n"
      + Indent + "* Provide a concise and informative summary of the media content relevant to the user's query.\n"
      + Indent + "* Focus on key themes, objects, or information present in the media.\n";
    ContainsMiddle(before, shown, after);
    before + shown + after
  }

  /** `_media_summarization_prompt`: defaults "concise", "English", no thoughts request. */
  function MediaSummarizationPrompt(userPrompt: string, mediaDescription: Context, options: Options): (p: string)
    ensures Contains(p, userPrompt) && Contains(p, ShownOr(mediaDescription, NoMediaDescription))
    ensures options.requestThoughts.GetOr(false) ==> EndsWith(p, MediaThoughtsRequest)
    ensures EndsWith(p, Indent) <==> !options.requestThoughts.GetOr(false)
  {
    var head := MediaSummarizationHead(options.responseLength.GetOr("concise"), options.language.GetOr("English"));
    var shown := ShownOr(mediaDescription, NoMediaDescription);
    var rest := MediaSummarizationRest(shown);
    var flag := options.requestThoughts.GetOr(false);
    Filled(head, userPrompt, rest, shown, flag, MediaThoughtsRequest);
    WithThoughts(head + userPrompt + rest + Indent, flag, MediaThoughtsRequest)
  }

  function WebcamVisionHead(length: string, language: string): string {
    "\n"
    + Indent + "[Azure DocuNexus AGI - Webcam Vision Analysis Task]\n"
    + "\n"
    + Indent + "You are Azure DocuNexus, an intelligent AGI agent powered by Azure OpenAI, specializing in real-time webcam analysis. \n"
    + Indent + "Your goal is to analyze the live webcam feed and answer the user's question in a "
    + length + " response in " + language + ".\n"
    + "\n"
    + Indent + "**User Question:**\n"
    + Indent
  }

  const WebcamVisionRest := "\n"
    + "\n"
    + Indent + "**Instructions:**\n"
    + Indent + "* Analyze objects, scenes, and activities visible in the webcam feed.\n"
    + Indent + "* Provide detailed insights, interpretations, and relevant information based on your analysis.\n"

  /** `_webcam_vision_prompt`: defaults "detailed", "English", thoughts requested; it takes
      no context. */
  function WebcamVisionPrompt(userPrompt: string, options: Options): (p: string)
    ensures Contains(p, userPrompt)
    ensures options.requestThoughts.GetOr(true) ==> EndsWith(p, WebcamThoughtsRequest)
    ensures EndsWith(p, Indent) <==> !options.requestThoughts.GetOr(true)
  {
    var head := WebcamVisionHead(options.responseLength.GetOr("detailed"), options.language.GetOr("English"));
    var flag := options.requestThoughts.GetOr(true);
    ContainsSelf(WebcamVisionRest);
    Filled(head, userPrompt, WebcamVisionRest, WebcamVisionRest, flag, WebcamThoughtsRequest);
    WithThoughts(head + userPrompt + WebcamVisionRest + Indent, flag, WebcamThoughtsRequest)
  }

  const DefaultHead := "\n"
    + Indent + "[Azure DocuNexus AGI - General Inquiry]\n"
    + "\n"
    + Indent + "**User Question:**\n"
    + Indent

  /** The part after the user question; it shows the context. */
  function DefaultRest(shown: string): (r: string)
    ensures Contains(r, shown)
  {
    var before := "\n"
      + "\n"
      + Indent + "**Context:**\n"
      + Indent;
    var after := "\n"
      + "\n"
      + Indent + "**Response Guidelines:**\n"
      + Indent + "Provide a clear and helpful answer that directly addresses the user's question, incorporating any context provided.\n";
    ContainsMiddle(before, shown, after);
    before + shown + after
  }

  /** `_default_prompt`: the user question and the context (or 'None'); it reads no options
      and appends no thoughts request, so it ends with the indentation. */
  function DefaultPrompt(userPrompt: string, context: Context): (p: string)
    ensures Contains(p, userPrompt) && Contains(p, ShownOr(context, "None"))
    ensures EndsWith(p, Indent)
  {
    var shown := ShownOr(context, "None");
    var rest := DefaultRest(shown);
    Filled(DefaultHead, userPrompt, rest, shown, false, ".");
    var p := DefaultHead + userPrompt + rest + Indent;
    assert p[|p| - |Indent|..] == Indent;
    p
  }

  /** The template `create_prompt` dispatches to. */
  datatype Template = DocumentAnalysis | MediaSummarization | WebcamVision | GeneralInquiry

  /** The if/elif chain on `task_type`: three names have their own template, every other
      task type gets the general one. */
  function TemplateFor(taskType: string): (t: Template)
    ensures t == DocumentAnalysis <==> taskType == "document_analysis"
    ensures t == MediaSummarization <==> taskType == "media_summarization"
    ensures t == WebcamVision <==> taskType == "webcam_vision_analysis"
  {
    if taskType == "document_analysis" then DocumentAnalysis
    else if taskType == "media_summarization" then MediaSummarization
    else if taskType == "webcam_vision_analysis" then WebcamVision
    else GeneralInquiry
  }

  /** Whether a template appends its thoughts request: the `request_thoughts` option, or
      the template's own default when it is not given; the general template never does. */
  function RequestsThoughts(t: Template, options: Options): bool {
    match t
    case DocumentAnalysis => options.requestThoughts.GetOr(true)
    case MediaSummarization => options.requestThoughts.GetOr(false)
    case WebcamVision => options.requestThoughts.GetOr(true)
    case GeneralInquiry => false
  }

  /** The thoughts request each template appends. */
  function ThoughtsRequest(t: Template): string {
    match t
    case DocumentAnalysis => DocumentThoughtsRequest
    case MediaSummarization => MediaThoughtsRequest
    case WebcamVision => WebcamThoughtsRequest
    case GeneralInquiry => ""
  }

  /** `create_prompt(task_type, user_prompt, context, **kwargs)`: the user prompt always
      appears, and the prompt ends with its template's thoughts request when that template
      requests thoughts, and with the bare indentation exactly when it does not. */
  function CreatePrompt(taskType: string, userPrompt: string, context: Context := NoContext,
                        options: Options := NoOptions): (p: string)
    ensures Contains(p, userPrompt)
    ensures RequestsThoughts(TemplateFor(taskType), options) ==> EndsWith(p, ThoughtsRequest(TemplateFor(taskType)))
    ensures EndsWith(p, Indent) <==> !RequestsThoughts(TemplateFor(taskType), options)
  {
    var t := TemplateFor(taskType);
    var flag := RequestsThoughts(t, options);
    var request := ThoughtsRequest(t);
    match t
    case DocumentAnalysis =>
      assert flag == options.requestThoughts.GetOr(true) && request == DocumentThoughtsRequest;
      DocumentAnalysisPrompt(userPrompt, context, options)
    case MediaSummarization =>
      assert flag == options.requestThoughts.GetOr(false) && request == MediaThoughtsRequest;
      MediaSummarizationPrompt(userPrompt, context, options)
    case WebcamVision =>
      assert flag == options.requestThoughts.GetOr(true) && request == WebcamThoughtsRequest;
      WebcamVisionPrompt(userPrompt, options)
    case GeneralInquiry =>
      assert !flag;
      DefaultPrompt(userPrompt, context)
  }

  /** With no options, exactly the document analysis and webcam templates ask for thoughts
      (so by `CreatePrompt`'s contract exactly their prompts end with a thoughts request). */
  lemma ThoughtsDefaults(taskType: string)
    ensures RequestsThoughts(TemplateFor(taskType), NoOptions)
            <==> taskType == "document_analysis" || taskType == "webcam_vision_analysis"
  {
  }

  /** The webcam template never sees the context argument. */
  lemma WebcamIgnoresContext(taskType: string, userPrompt: string, c1: Context, c2: Context, options: Options)
    requires TemplateFor(taskType) == WebcamVision
    ensures CreatePrompt(taskType, userPrompt, c1, options) == CreatePrompt(taskType, userPrompt, c2, options)
  {
  }

  /** The general template never sees the keyword options. */
  lemma GeneralInquiryIgnoresOptions(taskType: string, userPrompt: string, context: Context, o1: Options, o2: Options)
    requires TemplateFor(taskType) == GeneralInquiry
    ensures CreatePrompt(taskType, userPrompt, context, o1) == CreatePrompt(taskType, userPrompt, context, o2)
  {
  }

  /** "document_analysis" gets the document analysis template, with the context. */
  lemma DispatchDocumentAnalysis(taskType: string, userPrompt: string, context: Context, options: Options)
    requires TemplateFor(taskType) == DocumentAnalysis
    ensures CreatePrompt(taskType, userPrompt, context, options) == DocumentAnalysisPrompt(userPrompt, context, options)
  {
  }

  /** "media_summarization" gets the media template, with the context as description. */
  lemma DispatchMediaSummarization(taskType: string, userPrompt: string, context: Context, options: Options)
    requires TemplateFor(taskType) == MediaSummarization
    ensures CreatePrompt(taskType, userPrompt, context, options) == MediaSummarizationPrompt(userPrompt, context, options)
  {
  }

  /** "webcam_vision_analysis" gets the webcam template, without the context. */
  lemma DispatchWebcamVision(taskType: string, userPrompt: string, context: Context, options: Options)
    requires TemplateFor(taskType) == WebcamVision
    ensures CreatePrompt(taskType, userPrompt, context, options) == WebcamVisionPrompt(userPrompt, options)
  {
  }

  /** Every other task type gets the general template, without the options. */
  lemma DispatchGeneralInquiry(taskType: string, userPrompt: string, context: Context, options: Options)
    requires TemplateFor(taskType) == GeneralInquiry
    ensures CreatePrompt(taskType, userPrompt, context, options) == DefaultPrompt(userPrompt, context)
  {
  }

  /** What the document analysis template shows for its context: every document verbatim
      for a list, and for a lone string its characters one per line, since joining iterates
      over a string. */
  lemma ShownDocumentsHold(context: Context)
    ensures context.Documents? ==>
              forall k :: 0 <= k < |context.docs| ==> Contains(ShownDocuments(context), context.docs[k])
    ensures context.Text? && !Falsy(context) ==> ShownDocuments(context) == Join(Chars(context.text), "\n")
  {
    if context.Documents? && !Falsy(context) {
      var ds := context.docs;
      forall k | 0 <= k < |ds| ensures Contains(ShownDocuments(context), ds[k]) {
        JoinContains(ds, "\n", k);
      }
    }
  }

  /** So a document analysis prompt over a falsy context says no documents were provided,
      and over a list shows every document verbatim. */
  lemma DocumentAnalysisShowsDocuments(userPrompt: string, context: Context, options: Options)
    ensures Falsy(context) ==> Contains(DocumentAnalysisPrompt(userPrompt, context, options), NoDocuments)
    ensures context.Documents? ==>
              forall k :: 0 <= k < |context.docs| ==>
                Contains(DocumentAnalysisPrompt(userPrompt, context, options), context.docs[k])
  {
    var p := DocumentAnalysisPrompt(userPrompt, context, options);
    var shown := ShownDocuments(context);
    assert Contains(p, shown);
    ShownDocumentsHold(context);
    if context.Documents? {
      forall k | 0 <= k < |context.docs| ensures Contains(p, context.docs[k]) {
        ContainsTransitive(p, shown, context.docs[k]);
      }
    }
  }

  /** Between its opening and closing stars the templates' marker holds no `*`. */
  lemma AzureMarkerStars()
    ensures |AzureThoughtsMarker| == 31
    ensures forall i :: 0 <= i < 3 ==> AzureThoughtsMarker[i] == '*'
    ensures forall i :: 3 <= i < 28 ==> AzureThoughtsMarker[i] != '*'
  {
  }

  /** One mismatching character rules out an occurrence. */
  lemma MismatchAt(s: string, m: string, p: int, q: int)
    requires 0 <= p && p + |m| <= |s| && 0 <= q < |m| && s[p + q] != m[q]
    ensures !OccursAt(s, m, p)
  {
    assert s[p..p + |m|][q] == s[p + q];
  }

  /** A reply that follows the templates' instruction, `answer` then the marker the
      templates ask for then `thoughts`, contains the marker the formatter splits on exactly
      when `answer` run into the templates' marker, or that marker run into `thoughts`,
      contains it: the templates' marker is longer than the formatter's, so no occurrence
      spans it. Markdown stars in `answer` or `thoughts` are allowed. */
  lemma AzureReplyLacksFormatterMarker(answer: string, thoughts: string)
    ensures var m := ResponseFormatter.ThoughtsMarker;
            !Contains(answer + AzureThoughtsMarker + thoughts, m)
            <==> !Contains(answer + AzureThoughtsMarker, m) && !Contains(AzureThoughtsMarker + thoughts, m)
  {
    AzureMarkerStars();
    assert |ResponseFormatter.ThoughtsMarker| == 25;
    ContainsAcross(answer, AzureThoughtsMarker, thoughts, ResponseFormatter.ThoughtsMarker);
  }

  /** So when neither `answer` nor `thoughts`, run into the templates' marker, forms the
      formatter's marker, the formatter finds no thoughts: everything lands in the main
      response and the thoughts come back empty. */
  lemma AzureReplyThoughtsLost(answer: string, thoughts: string)
    requires !Contains(answer + AzureThoughtsMarker, ResponseFormatter.ThoughtsMarker)
    requires !Contains(AzureThoughtsMarker + thoughts, ResponseFormatter.ThoughtsMarker)
    ensures var reply := answer + AzureThoughtsMarker + thoughts;
            ResponseFormatter.FormatTextResponse(reply) == ResponseFormatter.FormattedText(Strip(reply), "")
  {
    AzureReplyLacksFormatterMarker(answer, thoughts);
  }

  /** In particular the formatter's marker does not occur inside the templates' marker. */
  lemma MarkersDiffer()
    ensures !Contains(AzureThoughtsMarker, ResponseFormatter.ThoughtsMarker)
  {
    var a := AzureThoughtsMarker;
    var m := ResponseFormatter.ThoughtsMarker;
    assert |m| == 25 && m[0] == '*' && m[1] == '*' && m[2] == '*' && m[13] == 'T';
    AzureMarkerStars();
    assert a[3] == 'D' && a[13] == 'A';
    forall p | 0 <= p && p + |m| <= |a| ensures !OccursAt(a, m, p) {
      if p == 0 {
        MismatchAt(a, m, p, 13);
      } else if p == 1 {
        MismatchAt(a, m, p, 2);
      } else if p == 2 {
        MismatchAt(a, m, p, 1);
      } else {
        MismatchAt(a, m, p, 0);
      }
    }
  }
}
