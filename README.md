# DocuNexus text-shaping core in Dafny

DocuNexus is a Streamlit assistant that sends documents, media descriptions and webcam
questions to Azure services. Its own logic is a thin layer between those calls:

- it builds prompts from templates;
- it splits model replies into a main answer and a "thoughts" section;
- it routes uploaded files by extension and assembles their text;
- it folds Form Recognizer key-value pairs and metadata into dictionaries.

Its tests use an in-memory blob store and a fixed-answer chat model. This project models
that layer and proves what it promises.

Every vendor result is an input:

- A Form Recognizer read result, a python-docx paragraph list or a UTF-8 decoding is an
  `Outcome`. `Done(value)` is a returned value; `Failed(message)` is a raised exception.
- A chat completion is a function from the user prompt to such an outcome.
- JSON decoding is a function from the body to `Malformed`, `JsonList(rows)` or `JsonOther`.

Python string behaviour is written out in `PyStrings`:

- `strip` uses Python's whitespace set;
- `lower` uses the ASCII case map;
- `find`, `split` with a non-empty separator, `join`, `in` and `endswith` are modelled.

The modules follow the source files:

| file | module |
|---|---|
| `py_strings.dfy` | `PyStrings` |
| `outcomes.dfy` | `Outcomes` |
| `response_formatter.dfy` | `ResponseFormatter` |
| `summarizer.dfy` | `Summarizer` |
| `prompt_templates.dfy` | `PromptTemplates` |
| `document_parser.dfy` | `DocumentParser` |
| `analyzer.dfy` | `Analyzer` |
| `metadata_handler.dfy` | `MetadataHandler` |
| `test_utils.dfy` | `TestUtils` |

Code that accumulates step by step is imperative Dafny, proved against specification
functions. This covers the page and line loops of the document parser, the entity loop, the
metadata prompt loop and the substring assertion loop. The mock blob store is a set of
classes over one shared `Storage` object, updated in place.

The templates ask the model to mark its reasoning with `***DocuNexus Azure Thoughts:***`.
The formatter splits on `***DocuNexus Thoughts:***`. The model follows the code, so it keeps
both markers. `PromptTemplates.AzureReplyThoughtsLost` proves the consequence. A reply that follows the
template's instruction yields no thoughts in the formatter. The only exception is when the
answer or the thoughts, run into the template's marker, spell out the formatter's marker.

## Model

| member | source | states |
|---|---|---|
| PyStrings.Strip | src/core/response_formatter.py:28 | the result of `strip()` has no whitespace at either end |
| PyStrings.StripParts | src/core/response_formatter.py:28 | the text is whitespace, then its stripped form, then whitespace |
| PyStrings.StripIdempotent | src/core/response_formatter.py:28-33 | stripping a stripped text changes nothing |
| PyStrings.StripKeepsPresence | src/core/response_formatter.py:28-32 | stripping keeps a whitespace-free marker present exactly when it was present |
| PyStrings.Find | tests/test_utils.py:94 | the first occurrence of a text, or -1 exactly when it does not occur |
| PyStrings.SplitFirst | src/core/response_formatter.py:32-34 | `split` gives one piece iff the separator is absent; the first piece is the text before the first separator |
| PyStrings.SplitSecond | src/core/response_formatter.py:34-35 | when the separator occurs, the second piece is the text between the first and the second separator |
| PyStrings.SplitAround | src/core/response_formatter.py:32-35 | `a + sep + b` splits back into `a` and `b` when `sep` cannot start in `a` and does not occur in `b` |
| PyStrings.SplitOfJoin | src/document_analysis/analyzer.py:83 | splitting a join on its own separator gives back the pieces in order, when each piece ends before the first separator after its start and the last piece holds none |
| PyStrings.ContainsAcross | src/core/prompt_templates.py:66 | a text no longer than the middle part occurs in `a + m + b` iff it occurs in `a + m` or in `m + b` |
| PyStrings.SplitPartsFree | src/core/response_formatter.py:32 | no piece of a split contains the separator |
| PyStrings.SplitLast | src/document_analysis/document_parser.py:38 | the last piece of a split is the suffix after the last separator and holds no separator |
| PyStrings.SplitTerminated | src/document_analysis/document_parser.py:65-67 | text made of newline-terminated lines without newlines splits on "\n" into those lines and a final "" |
| PyStrings.JoinLength | src/document_analysis/analyzer.py:83 | a join of n pieces adds n - 1 separators |
| PyStrings.JoinContains | src/core/prompt_templates.py:57 | every piece appears in the join |
| PyStrings.LowerIdempotent | src/document_analysis/document_parser.py:38 | lower-casing twice equals lower-casing once |
| PyStrings.LowerSameOccurrences | src/document_analysis/document_parser.py:38 | lower-casing does not move a letter-free separator such as "." |
| Outcomes.ErrorOccurred | src/document_analysis/summarizer.py:73 | the error text is "Error occurred: " followed by the message |
| ResponseFormatter.MarkerSections | src/core/response_formatter.py:32-35 | the main part is the stripped text before the first marker; the second part is absent iff there is no marker, else the stripped text up to any second marker; neither holds the marker |
| ResponseFormatter.MarkerSectionsOf | src/core/response_formatter.py:32-35 | `answer + marker + rest` splits back into stripped `answer` and `rest` |
| ResponseFormatter.FormatTextResponse | src/core/response_formatter.py:24-40 | the input is stripped before the split; absent marker gives the stripped input and ""; present marker gives the stripped text up to the second marker; outputs are stripped and marker-free |
| ResponseFormatter.FormatTextRoundTrip | src/core/response_formatter.py:28-35 | when the first marker of `answer + marker` is the one after `answer` and `thoughts` holds none, any whitespace around `answer + marker + thoughts` gives back the stripped answer and the stripped thoughts; `answer` may hold markdown stars |
| ResponseFormatter.FormatDataResponse | src/core/response_formatter.py:42-61 | a body decoding to a list becomes a table of its rows; a decode failure or a non-list body is returned unchanged |
| ResponseFormatter.FormatErrorResponse | src/core/response_formatter.py:63-68 | the display contains the message, with the fixed head and tail added to its length |
| ResponseFormatter.FormatErrorResponseInverse | src/core/response_formatter.py:68 | the message can be read back between the fixed head and tail |
| Summarizer.SummaryPrompt | src/document_analysis/summarizer.py:40-42 | the prompt is the length sentence, then the document, then the reasoning request exactly when asked for |
| Summarizer.SummaryPromptShape | src/document_analysis/summarizer.py:40-42 | the prompt contains the document and ends with the reasoning request when asked for |
| Summarizer.SummaryPromptInjective | src/document_analysis/summarizer.py:40-42 | different documents give different prompts |
| Summarizer.SummarizeDocument | src/document_analysis/summarizer.py:25-73 | a failure gives the error text and None; without reasoning the reply comes back unstripped with None; with reasoning, the summary is the stripped text before the first marker and the thoughts are the next section or the fixed placeholder |
| Summarizer.SummarizeRoundTrip | src/document_analysis/summarizer.py:60-68 | a reply `answer + marker + thoughts`, whose first marker is the one after `answer` and whose thoughts hold none, gives back the stripped answer and thoughts |
| PromptTemplates.WithThoughtsEnds | src/core/prompt_templates.py:65-66 | a template ends with the thoughts request when it is appended, and with its indentation exactly when it is not |
| PromptTemplates.DocumentAnalysisPrompt | src/core/prompt_templates.py:44-67 | contains the user prompt and the shown documents; ends with the thoughts request iff `request_thoughts`, defaulting to true |
| PromptTemplates.MediaSummarizationPrompt | src/core/prompt_templates.py:69-89 | contains the user prompt and the description, or "No media description provided."; thoughts request iff `request_thoughts`, defaulting to false |
| PromptTemplates.WebcamVisionPrompt | src/core/prompt_templates.py:91-108 | contains the user question; thoughts request iff `request_thoughts`, defaulting to true |
| PromptTemplates.DefaultPrompt | src/core/prompt_templates.py:110-123 | contains the user question and the context, or 'None'; never ends with a thoughts request |
| PromptTemplates.TemplateFor | src/core/prompt_templates.py:34-42 | exactly the three named task types get their own template; every other task type gets the general one |
| PromptTemplates.CreatePrompt | src/core/prompt_templates.py:19-42 | the context defaults to none and the options to none given; the user prompt always appears; the prompt ends with the template's thoughts request when that template requests thoughts, and with bare indentation iff it does not |
| PromptTemplates.ThoughtsDefaults | src/core/prompt_templates.py:44-108 | with no options, exactly document analysis and webcam analysis request thoughts |
| PromptTemplates.WebcamIgnoresContext | src/core/prompt_templates.py:38-39 | the webcam prompt does not depend on the context |
| PromptTemplates.GeneralInquiryIgnoresOptions | src/core/prompt_templates.py:40-42 | the general prompt does not depend on the keyword options |
| PromptTemplates.DocumentAnalysisShowsDocuments | src/core/prompt_templates.py:57 | the document analysis prompt says "No documents provided." for a falsy context and shows every document of a list verbatim |
| PromptTemplates.ShownDocuments | src/core/prompt_templates.py:57 | a falsy context shows "No documents provided."; a one-document list shows that document; n documents add n - 1 newlines; when no document holds a newline, the shown text splits on "\n" back into the documents in order |
| PromptTemplates.ShownDocumentsHold | src/core/prompt_templates.py:57 | a list shows each document verbatim; a lone string is joined character by character |
| PromptTemplates.ShownOr | src/core/prompt_templates.py:81 | a falsy context shows the default ("No media description provided." here, 'None' at line 119); a string shows itself; a list shows its bracketed representation, in which every item appears in quotes |
| PromptTemplates.DispatchDocumentAnalysis | src/core/prompt_templates.py:34-35 | "document_analysis" yields the document analysis template over the context |
| PromptTemplates.DispatchMediaSummarization | src/core/prompt_templates.py:36-37 | "media_summarization" yields the media template with the context as description |
| PromptTemplates.DispatchWebcamVision | src/core/prompt_templates.py:38-39 | "webcam_vision_analysis" yields the webcam template, without the context |
| PromptTemplates.DispatchGeneralInquiry | src/core/prompt_templates.py:40-42 | every other task type yields the general template, without the options |
| PromptTemplates.AzureReplyLacksFormatterMarker | src/core/prompt_templates.py:65-66 | `answer + template marker + thoughts` contains the formatter's marker iff `answer + template marker` or `template marker + thoughts` does; markdown stars are allowed |
| PromptTemplates.AzureReplyThoughtsLost | src/core/response_formatter.py:32-35 | when neither `answer + template marker` nor `template marker + thoughts` contains the formatter's marker, the reply yields no thoughts: the whole stripped reply is the main response |
| PromptTemplates.MarkersDiffer | src/core/prompt_templates.py:66 | the formatter's marker does not occur in the template's marker |
| DocumentParser.Extension | src/document_analysis/document_parser.py:38 | the extension is lower case; a name without "." is its own extension, lower-cased |
| DocumentParser.ExtensionAfterLastDot | src/document_analysis/document_parser.py:38 | the extension is the lower-cased text after the last ".", and holds no "." |
| DocumentParser.ExtensionIgnoresCase | src/document_analysis/document_parser.py:38 | lower-casing the name first does not change the extension |
| DocumentParser.RouteFor | src/document_analysis/document_parser.py:42-50 | pdf, jpeg, jpg and png go to Azure; docx to DOCX; txt to TXT; anything else is unsupported |
| DocumentParser.RouteIgnoresCase | src/document_analysis/document_parser.py:38-50 | names differing only in ASCII case are routed alike |
| DocumentParser.AzureText | src/document_analysis/document_parser.py:57-73 | a failed read gives ""; otherwise the text is as long as all lines of all pages plus one newline per line |
| DocumentParser.DocxText | src/document_analysis/document_parser.py:77-86 | a failure gives ""; otherwise the text is as long as all paragraphs plus one newline per paragraph |
| DocumentParser.ParseWithAzure | src/document_analysis/document_parser.py:55-73 | the text is every line of every page in order, each followed by "\n"; a failed read gives "" |
| DocumentParser.ParseDocx | src/document_analysis/document_parser.py:75-86 | the text is every paragraph in order, each followed by "\n"; a failure gives "" |
| DocumentParser.ParseTxt | src/document_analysis/document_parser.py:88-96 | the decoded text, or "" when decoding fails |
| DocumentParser.ParseDocument | src/document_analysis/document_parser.py:28-50 | None exactly for an unsupported extension, else the routed parser's text |
| DocumentParser.AzureTextLines | src/document_analysis/document_parser.py:65-67 | when no line holds a newline, splitting the Azure text on "\n" gives back the lines and a final "" |
| DocumentParser.DocxTextLines | src/document_analysis/document_parser.py:80-81 | when no paragraph holds a newline, splitting the DOCX text on "\n" gives back the paragraphs and a final "" |
| DocumentParser.TerminatedLength | src/document_analysis/document_parser.py:65-67 | the text is as long as its lines plus one newline per line |
| Analyzer.Entities | src/document_analysis/analyzer.py:55-59 | the fold has at most one key per pair, and the last pair's resolved key is present |
| Analyzer.EntitiesResult | src/document_analysis/analyzer.py:55-66 | an Azure error gives exactly the key "error" holding the message; a result has at most one key per pair |
| Analyzer.ExtractEntities | src/document_analysis/analyzer.py:36-66 | the loop builds the in-order fold of the pairs; an Azure error gives {"error": message} |
| Analyzer.EntitiesKeys | src/document_analysis/analyzer.py:55-59 | the key set is the set of resolved keys, "N/A" standing for a missing key |
| Analyzer.EntitiesLastWins | src/document_analysis/analyzer.py:55-59 | a key takes the value of the last pair that writes it |
| Analyzer.KeylessCollapse | src/document_analysis/analyzer.py:57-59 | pairs all lacking a key give the single key "N/A", holding the last pair's value |
| Analyzer.ComparisonPrompt | src/document_analysis/analyzer.py:83 | the instruction, "\n\n", then the texts joined by the rule separator |
| Analyzer.ComparisonPromptShape | src/document_analysis/analyzer.py:83 | every text appears, and n texts add n - 1 separators; when each text ends before the first separator after its start and the last holds none, the text after the instruction splits back into the texts in order |
| Analyzer.CompareDocuments | src/document_analysis/analyzer.py:68-100 | the reply to the comparison prompt, or "Error occurred: " and the message |
| Analyzer.SearchPrompt | src/document_analysis/analyzer.py:117 | the fixed request, the query, "\n\nDocument:\n", then the document |
| Analyzer.SearchPromptInjective | src/document_analysis/analyzer.py:117 | for queries of one length, the prompt determines query and document |
| Analyzer.SemanticSearch | src/document_analysis/analyzer.py:102-134 | the reply to the search prompt, or "Error occurred: " and the message |
| MetadataHandler.Get | src/document_analysis/metadata_handler.py:56-61 | `dict.get`: the stored value, or the default when the key is missing |
| MetadataHandler.ExtractMetadata | src/document_analysis/metadata_handler.py:36-68 | six entries in order, each the report's value or "Unknown"; an Azure error gives {"error": message} |
| MetadataHandler.ExtractedKeys | src/document_analysis/metadata_handler.py:55-62 | exactly the six keys are present; "size" is read from "file_size" and the others under their own names |
| MetadataHandler.AnalysisPrompt | src/document_analysis/metadata_handler.py:84-86 | the header line, then `key: value` and a newline per entry in order |
| MetadataHandler.AnalysisPromptLines | src/document_analysis/metadata_handler.py:84-86 | when no key or value holds a newline, after the header line the prompt splits into one `key: value` line per entry |
| MetadataHandler.AnalyzeMetadata | src/document_analysis/metadata_handler.py:70-103 | the reply to that prompt, or "Error occurred: " and the message |
| TestUtils.Stored | tests/test_utils.py:46-52 | data is present exactly when container and blob both exist |
| TestUtils.Uploaded | tests/test_utils.py:41-43 | the containers after an upload are the old ones plus the target; the target container's blobs are its old blobs plus the target blob |
| TestUtils.UploadedFound | tests/test_utils.py:39-48 | after an upload, download finds the uploaded data |
| TestUtils.UploadedFrame | tests/test_utils.py:41-43 | an upload leaves every other (container, blob) pair unchanged |
| TestUtils.UploadedOverwrites | tests/test_utils.py:39-43 | a second upload to the same pair replaces the first |
| TestUtils.UploadsCommute | tests/test_utils.py:41-43 | uploads to different pairs commute |
| TestUtils.Storage.constructor | tests/test_utils.py:24-25 | the shared storage starts empty |
| TestUtils.MockBlobClient.constructor | tests/test_utils.py:34-37 | the client keeps the storage it is given, not a copy |
| TestUtils.MockBlobClient.UploadBlob | tests/test_utils.py:39-44 | `overwrite` defaults to false; returns true; the storage becomes the upload of the data, creating the container if needed, whatever `overwrite` says |
| TestUtils.MockBlobClient.DownloadBlob | tests/test_utils.py:46-48 | the stored data, or None standing for the KeyError |
| TestUtils.MockBlobClient.Exists | tests/test_utils.py:50-52 | true exactly when a download would find data |
| TestUtils.MockBlobServiceClient.constructor | tests/test_utils.py:24-25 | a fresh, empty storage |
| TestUtils.MockBlobServiceClient.GetBlobClient | tests/test_utils.py:27-29 | a new client over this service's own storage |
| TestUtils.UploadMockBlob | tests/test_utils.py:67-75 | a new service holding exactly the uploaded blob |
| TestUtils.SharedStorage | tests/test_utils.py:27-52 | data uploaded through one client is downloaded and seen as existing through another client of the same service; the service's storage becomes the upload of that one blob and nothing else changes |
| TestUtils.AsList | tests/test_utils.py:90-91 | a lone string becomes a one-element list |
| TestUtils.AssertResponseContains | tests/test_utils.py:86-95 | passes iff every expected text occurs; else the message names the first missing one |
| TestUtils.MockAzureAIModel.constructor | tests/test_utils.py:14-15 | the model keeps the text it is given, "Mock AI Response" by default |
| TestUtils.MockAzureAIModel.GetChatCompletions | tests/test_utils.py:17-19 | one choice whose content is the fixed text |
| TestUtils.MockIgnoresRequest | tests/test_utils.py:17-19 | the completion does not depend on model, messages or token limit |
| TestUtils.MockAzureAIModel.AsSummarizerClient | src/document_analysis/summarizer.py:55 | reading `choices` by attribute off the dictionary the mock returns (tests/test_utils.py:19) fails with an `AttributeError`, whatever the prompt |
| TestUtils.MockSummary | src/document_analysis/summarizer.py:71-73 | with the mock model the summariser returns "Error occurred: " and that `AttributeError` message, with None, whether or not reasoning was requested |

## Left out

- Vendor SDK calls (Form Recognizer, Azure OpenAI) are not modelled. Their results are inputs, and the fixed system message and `max_tokens` of each chat request are not part of the prompt the chat function receives.
- Logging, tracer spans and span attributes are not modelled; the model assumes these calls succeed. The formatter reaches spans through `tracer.current_span`, which the OpenTelemetry tracer API does not provide, so in the source those calls raise `AttributeError`.
- The Streamlit UI, real-time communication, media workflows, integrations, configuration, `agi_engine.py` and `model_manager.py` are not part of this model.
- `generate_temp_file` in tests/test_utils.py writes a temporary file; file-system effects are not modelled.
- PyStrings.Lower: maps only the ASCII letters; Python's full Unicode lower-casing is not modelled.
- PromptTemplates.ListRepr: quotes every item with single quotes and escapes nothing, while Python's `repr` switches quotes and escapes special characters.
- PromptTemplates.CreatePrompt: a keyword that duplicates a positional argument, which raises `TypeError` in Python, is not modelled. Unknown keywords are absorbed by each template's `**kwargs` and ignored, as in the model; the keyword options are the three the templates read.
- PromptTemplates.CreatePrompt: `request_thoughts` is modelled as absent or a boolean. The templates test it by truthiness, so `None`, `0`, `""` or other non-boolean values are not modelled.
- Summarizer.SummarizeDocument: `request_thoughts` is a boolean. The source tests it by truthiness (summarizer.py:41 and 60), so other values are not modelled.
- PromptTemplates.CreatePrompt: a context that is neither `None`, a string nor a list of strings is not modelled.
- Analyzer.ExtractEntities: only the caught `AzureError` is an outcome. Any other exception propagates in the source and is not modelled. The same holds for Analyzer.CompareDocuments, Analyzer.SemanticSearch, MetadataHandler.ExtractMetadata and MetadataHandler.AnalyzeMetadata.
- DocumentParser.ParseDocument: the outer `except` (document_parser.py:51-53) is not modelled. Each sub-parser catches every exception itself, so it is reached only through a failure in logging. An exception part-way through a sub-parser's loop is modelled as the whole read failing, which gives "" as in the source.
- DocumentParser.ParseTxt: UTF-8 decoding is an input outcome, not a model of the decoder.
- ResponseFormatter.FormatDataResponse: JSON decoding is a parameter, and the DataFrame is modelled as the list of decoded rows.
- Analyzer.Entities: the result is a `map`, so the insertion order of the source's `dict` (analyzer.py:55-59) is not kept. The keys and the last value written for each key are kept.
- MetadataHandler.ExtractMetadata: report values are strings, not arbitrary Python values.
- MetadataHandler.AnalysisPrompt: a dictionary is its sequence of entries in insertion order. The model does not require the keys to be distinct.
- TestUtils.MockBlobClient.UploadBlob: blob data is a string; the source stores any Python value.
- TestUtils.MockAzureAIModel.GetChatCompletions: messages are plain strings rather than role/content dictionaries.
