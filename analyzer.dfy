/** `AzureDocumentAnalyzer` from src/document_analysis/analyzer.py: it folds the key-value
    pairs Form Recognizer finds into a dictionary, and builds the comparison and search
    prompts it sends to the chat model. The Form Recognizer result and the chat call are
    inputs; a failed call stands for the `AzureError` the method catches. */
module Analyzer {
  import opened PyStrings
  import opened Outcomes

  const Missing := "N/A"
  const ErrorKey := "error"

  /** A detected pair; either side may be absent. */
  datatype KeyValuePair = KeyValuePair(key: Option<string>, value: Option<string>)

  /** The dictionary key a pair writes: its key's content, or "N/A". */
  function KeyOf(pair: KeyValuePair): string {
    pair.key.GetOr(Missing)
  }

  /** The value a pair writes: its value's content, or "N/A". */
  function ValueOf(pair: KeyValuePair): string {
    pair.value.GetOr(Missing)
  }

  /** The dictionary after writing each pair in order, later writes replacing earlier ones:
      it has at most one entry per pair, and the last pair's write survives. */
  function Entities(pairs: seq<KeyValuePair>): (r: map<string, string>)
    ensures |r| <= |pairs|
    ensures |pairs| > 0 ==> KeyOf(pairs[|pairs| - 1]) in r
                             && r[KeyOf(pairs[|pairs| - 1])] == ValueOf(pairs[|pairs| - 1])
  {
    if |pairs| == 0 then map[]
    else
      var last := pairs[|pairs| - 1];
      Entities(pairs[..|pairs| - 1])[KeyOf(last) := ValueOf(last)]
  }

  /** What `extract_entities` returns for a Form Recognizer outcome: on failure a dictionary
      whose only key is "error", holding the message. */
  function EntitiesResult(analysis: Outcome<seq<KeyValuePair>>): (r: map<string, string>)
    ensures analysis.Failed? ==> r.Keys == {ErrorKey} && r[ErrorKey] == analysis.message
    ensures analysis.Done? ==> |r| <= |analysis.value|
  {
    match analysis
    case Done(pairs) => Entities(pairs)
    case Failed(e) => map[ErrorKey := e]
  }

  /** `extract_entities`: the loop over `result.key_value_pairs` that writes
      `entities[key] = value`. */
  method ExtractEntities(analysis: Outcome<seq<KeyValuePair>>) returns (entities: map<string, string>)
    ensures entities == EntitiesResult(analysis)
  {
    match analysis {
      case Failed(e) =>
        entities := map[ErrorKey := e];
      case Done(pairs) =>
        entities := map[];
        var i := 0;
        while i < |pairs|
          invariant 0 <= i <= |pairs|
          invariant entities == Entities(pairs[..i])
        {
          assert pairs[..i + 1][..i] == pairs[..i];
          entities := entities[KeyOf(pairs[i]) := ValueOf(pairs[i])];
          i := i + 1;
        }
        assert pairs[..i] == pairs;
    }
  }

  /** The keys of the dictionary are exactly the keys the pairs resolve to. */
  lemma {:induction false} EntitiesKeys(pairs: seq<KeyValuePair>)
    ensures Entities(pairs).Keys == set i | 0 <= i < |pairs| :: KeyOf(pairs[i])
    decreases |pairs|
  {
    if |pairs| > 0 {
      var n := |pairs| - 1;
      var front := pairs[..n];
      EntitiesKeys(front);
      var fromFront := set i | 0 <= i < |front| :: KeyOf(front[i]);
      var all := set i | 0 <= i < |pairs| :: KeyOf(pairs[i]);
      assert all == fromFront + {KeyOf(pairs[n])} by {
        forall k | k in all ensures k in fromFront + {KeyOf(pairs[n])} {
          var i :| 0 <= i < |pairs| && KeyOf(pairs[i]) == k;
          if i < n {
            assert KeyOf(front[i]) == k;
          }
        }
        forall k | k in fromFront ensures k in all {
          var i :| 0 <= i < |front| && KeyOf(front[i]) == k;
          assert KeyOf(pairs[i]) == k;
        }
      }
    }
  }

  /** Last write wins: a pair whose key no later pair repeats gives that key its value. */
  lemma {:induction false} EntitiesLastWins(pairs: seq<KeyValuePair>, i: nat)
    requires i < |pairs|
    requires forall j :: i < j < |pairs| ==> KeyOf(pairs[j]) != KeyOf(pairs[i])
    ensures KeyOf(pairs[i]) in Entities(pairs)
    ensures Entities(pairs)[KeyOf(pairs[i])] == ValueOf(pairs[i])
    decreases |pairs|
  {
    var n := |pairs| - 1;
    if i < n {
      var front := pairs[..n];
      assert KeyOf(pairs[n]) != KeyOf(pairs[i]);
      assert front[i] == pairs[i];
      EntitiesLastWins(front, i);
    }
  }

  /** Pairs that all lack a key collapse onto the single key "N/A", holding the last
      pair's value. */
  lemma KeylessCollapse(pairs: seq<KeyValuePair>)
    requires |pairs| > 0
    requires forall i :: 0 <= i < |pairs| ==> pairs[i].key.None?
    ensures Entities(pairs).Keys == {Missing}
    ensures Entities(pairs)[Missing] == ValueOf(pairs[|pairs| - 1])
  {
    EntitiesKeys(pairs);
    var keys := set i | 0 <= i < |pairs| :: KeyOf(pairs[i]);
    assert KeyOf(pairs[0]) == Missing;
    assert keys == {Missing};
    EntitiesLastWins(pairs, |pairs| - 1);
  }

  const DefaultComparison := "Compare these documents for similarities and differences."
  const DocumentSeparator := "\n\n---\n\n"

  /** The comparison prompt: the instruction, a blank line, then the documents joined by a
      horizontal rule. */
  function ComparisonPrompt(documentTexts: seq<string>, comparisonPrompt: string := DefaultComparison): (p: string)
    ensures |p| >= |comparisonPrompt| + 2 && p[..|comparisonPrompt| + 2] == comparisonPrompt + "\n\n"
    ensures p[|comparisonPrompt| + 2..] == Join(documentTexts, DocumentSeparator)
  {
    var head := comparisonPrompt + "\n\n";
    var p := head + Join(documentTexts, DocumentSeparator);
    assert p[..|head|] == head;
    p
  }

  /** Each document appears in the comparison prompt, and n documents add n - 1 separators
      to the prompt's length. When every separator in the prompt is one the join inserted,
      the text after the instruction splits back into the documents, in order. */
  lemma ComparisonPromptShape(documentTexts: seq<string>, comparisonPrompt: string)
    requires |documentTexts| > 0
    ensures |ComparisonPrompt(documentTexts, comparisonPrompt)|
            == |comparisonPrompt| + 2 + SumLengths(documentTexts) + (|documentTexts| - 1) * |DocumentSeparator|
    ensures forall i :: 0 <= i < |documentTexts| ==> Contains(ComparisonPrompt(documentTexts, comparisonPrompt), documentTexts[i])
    ensures (forall q :: 0 <= q < |documentTexts| - 1 ==>
               Find(documentTexts[q] + DocumentSeparator, DocumentSeparator) == |documentTexts[q]|)
            && !Contains(documentTexts[|documentTexts| - 1], DocumentSeparator) ==>
              Split(ComparisonPrompt(documentTexts, comparisonPrompt)[|comparisonPrompt| + 2..], DocumentSeparator)
              == documentTexts
  {
    var p := ComparisonPrompt(documentTexts, comparisonPrompt);
    var joined := Join(documentTexts, DocumentSeparator);
    if (forall q :: 0 <= q < |documentTexts| - 1 ==>
          Find(documentTexts[q] + DocumentSeparator, DocumentSeparator) == |documentTexts[q]|)
       && !Contains(documentTexts[|documentTexts| - 1], DocumentSeparator) {
      SplitOfJoin(documentTexts, DocumentSeparator);
    }
    assert p == (comparisonPrompt + "\n\n") + joined;
    JoinLength(documentTexts, DocumentSeparator);
    forall i | 0 <= i < |documentTexts| ensures Contains(p, documentTexts[i]) {
      JoinContains(documentTexts, DocumentSeparator, i);
      ContainsWithin(comparisonPrompt + "\n\n", joined, "", documentTexts[i]);
      assert comparisonPrompt + "\n\n" + joined + "" == p;
    }
  }

  /** `compare_documents`: the reply to the comparison prompt, or the error text; the
      instruction defaults to the stock comparison request. */
  function CompareDocuments(chat: string -> Outcome<string>, documentTexts: seq<string>,
                            comparisonPrompt: string := DefaultComparison): (r: string)
    ensures var reply := chat(ComparisonPrompt(documentTexts, comparisonPrompt));
            && (reply.Done? ==> r == reply.value)
            && (reply.Failed? ==> r == ErrorOccurred(reply.message))
  {
    match chat(ComparisonPrompt(documentTexts, comparisonPrompt))
    case Done(summary) => summary
    case Failed(e) => ErrorOccurred(e)
  }

  const SearchHead := "Search the following document for information related to: "
  const SearchMiddle := "\n\nDocument:\n"

  /** The search prompt: the fixed request, the query, then the document. */
  function SearchPrompt(documentText: string, query: string): (p: string)
    ensures |p| == |SearchHead| + |query| + |SearchMiddle| + |documentText|
    ensures p[..|SearchHead|] == SearchHead
    ensures p[|SearchHead|..|SearchHead| + |query|] == query
    ensures p[|SearchHead| + |query|..|p| - |documentText|] == SearchMiddle
    ensures p[|p| - |documentText|..] == documentText
  {
    var p := SearchHead + query + SearchMiddle + documentText;
    assert p[|SearchHead|..|SearchHead| + |query|] == query;
    assert p[|SearchHead| + |query|..|p| - |documentText|] == SearchMiddle;
    p
  }

  /** Among queries of one length, the search prompt determines both the query and the
      document. */
  lemma SearchPromptInjective(d1: string, q1: string, d2: string, q2: string)
    requires |q1| == |q2|
    requires SearchPrompt(d1, q1) == SearchPrompt(d2, q2)
    ensures q1 == q2 && d1 == d2
  {
    var p := SearchPrompt(d1, q1);
    assert q1 == p[|SearchHead|..|SearchHead| + |q1|] == q2;
  }

  /** `semantic_search`: the reply to the search prompt, or the error text. */
  function SemanticSearch(chat: string -> Outcome<string>, documentText: string, query: string): (r: string)
    ensures var reply := chat(SearchPrompt(documentText, query));
            && (reply.Done? ==> r == reply.value)
            && (reply.Failed? ==> r == ErrorOccurred(reply.message))
  {
    match chat(SearchPrompt(documentText, query))
    case Done(results) => results
    case Failed(e) => ErrorOccurred(e)
  }
}
