/** `AzureMetadataHandler` from src/document_analysis/metadata_handler.py: it projects the
    metadata Form Recognizer reports onto six fixed keys, and turns a metadata dictionary
    into an analysis prompt, one `key: value` line per entry. A Python dictionary is an
    ordered sequence of entries here, since the prompt follows its iteration order. */
module MetadataHandler {
  import opened PyStrings
  import opened Outcomes

  type Entry = (string, string)

  /** A dictionary as its entries in iteration order. */
  type Dict = seq<Entry>

  const Unknown := "Unknown"
  const ErrorKey := "error"

  /** The keys of the extracted metadata, in order, and the report keys they are read
      from: every key is read under its own name except "size", read from "file_size". */
  const OutputKeys: seq<string> := ["file_name", "file_type", "size", "author", "creation_date", "modification_date"]
  const ReportKeys: seq<string> := ["file_name", "file_type", "file_size", "author", "creation_date", "modification_date"]

  /** Python `d.get(key, default)` on the reported metadata. */
  function Get(report: map<string, string>, key: string, default: string): (v: string)
    ensures key in report ==> v == report[key]
    ensures key !in report ==> v == default
  {
    if key in report then report[key] else default
  }

  /** The value a dictionary holds for `key`, if any. */
  function Lookup(d: Dict, key: string): (v: Option<string>)
    ensures v.None? <==> forall i :: 0 <= i < |d| ==> d[i].0 != key
    ensures v.Some? ==> exists i :: 0 <= i < |d| && d[i] == (key, v.value)
  {
    if |d| == 0 then None
    else if d[0].0 == key then Some(d[0].1)
    else
      var v := Lookup(d[1..], key);
      assert forall i :: 0 < i < |d| ==> d[i] == d[1..][i - 1];
      v
  }

  /** `extract_metadata`: on success the six keys with the reported values, "Unknown" where
      a report key is missing; on an Azure error the one-entry dictionary {"error": message}. */
  function ExtractMetadata(analysis: Outcome<map<string, string>>): (d: Dict)
    ensures analysis.Failed? ==> d == [(ErrorKey, analysis.message)]
    ensures analysis.Done? ==>
              && |d| == |OutputKeys|
              && forall i :: 0 <= i < |d| ==> d[i] == (OutputKeys[i], Get(analysis.value, ReportKeys[i], Unknown))
  {
    match analysis
    case Failed(e) => [(ErrorKey, e)]
    case Done(report) =>
      seq(|OutputKeys|, i requires 0 <= i < |OutputKeys| => (OutputKeys[i], Get(report, ReportKeys[i], Unknown)))
  }

  /** A successful extraction answers for exactly the six output keys; "size" holds the
      reported "file_size", and every other key the report's value under its own name. */
  lemma ExtractedKeys(report: map<string, string>, key: string)
    ensures Lookup(ExtractMetadata(Done(report)), key).Some? <==> key in OutputKeys
    ensures key == "size" ==> Lookup(ExtractMetadata(Done(report)), key) == Some(Get(report, "file_size", Unknown))
    ensures key in OutputKeys && key != "size" ==> Lookup(ExtractMetadata(Done(report)), key) == Some(Get(report, key, Unknown))
  {
    var d := ExtractMetadata(Done(report));
    if key in OutputKeys {
      var i :| 0 <= i < |OutputKeys| && OutputKeys[i] == key;
      assert d[i].0 == key;
      var j :| 0 <= j < |d| && d[j] == (key, Lookup(d, key).value);
      assert j == i;
    } else {
      assert forall i :: 0 <= i < |d| ==> d[i].0 == OutputKeys[i];
    }
  }

  const PromptHeader := "Analyze the following document metadata and provide insights:"

  /** The prompt line for one entry. */
  function EntryLine(entry: Entry): string {
    entry.0 + ": " + entry.1
  }

  function EntryLines(d: Dict): (lines: seq<string>)
    ensures |lines| == |d|
    ensures forall i :: 0 <= i < |d| ==> lines[i] == EntryLine(d[i])
  {
    seq(|d|, i requires 0 <= i < |d| => EntryLine(d[i]))
  }

  /** The loop in `analyze_metadata` that builds the prompt: the header line, then
      `key: value` and a newline for each entry in order. */
  method AnalysisPrompt(metadata: Dict) returns (prompt: string)
    ensures prompt == PromptHeader + "\n" + Terminated(EntryLines(metadata))
  {
    prompt := PromptHeader + "\n";
    var i := 0;
    while i < |metadata|
      invariant 0 <= i <= |metadata|
      invariant prompt == PromptHeader + "\n" + Terminated(EntryLines(metadata)[..i])
    {
      var key, value := metadata[i].0, metadata[i].1;
      var lines := EntryLines(metadata)[..i + 1];
      assert lines[..i] == EntryLines(metadata)[..i];
      prompt := prompt + key + ": " + value + "\n";
      i := i + 1;
    }
    assert EntryLines(metadata)[..i] == EntryLines(metadata);
  }

  /** When no key or value holds a line break, the prompt is the header line followed by
      a text whose lines are one `key: value` line per entry in order, then the empty text
      after the final newline. */
  lemma AnalysisPromptLines(metadata: Dict)
    requires forall i :: 0 <= i < |metadata| ==> '\n' !in metadata[i].0 && '\n' !in metadata[i].1
    ensures var prompt := PromptHeader + "\n" + Terminated(EntryLines(metadata));
            && prompt[..|PromptHeader| + 1] == PromptHeader + "\n"
            && Split(prompt[|PromptHeader| + 1..], "\n") == EntryLines(metadata) + [""]
  {
    var lines := EntryLines(metadata);
    forall q | 0 <= q < |lines| ensures '\n' !in lines[q] {
      assert lines[q] == metadata[q].0 + ": " + metadata[q].1;
    }
    SplitTerminated(lines);
    var prompt := PromptHeader + "\n" + Terminated(lines);
    assert prompt[|PromptHeader| + 1..] == Terminated(lines);
  }

  /** `analyze_metadata`: the model's insights on the prompt, or the error text. */
  method AnalyzeMetadata(metadata: Dict, chat: string -> Outcome<string>) returns (insights: string)
    ensures var reply := chat(PromptHeader + "\n" + Terminated(EntryLines(metadata)));
            && (reply.Done? ==> insights == reply.value)
            && (reply.Failed? ==> insights == ErrorOccurred(reply.message))
  {
    var prompt := AnalysisPrompt(metadata);
    match chat(prompt) {
      case Done(text) => insights := text;
      case Failed(e) => insights := ErrorOccurred(e);
    }
  }
}
