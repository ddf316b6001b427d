/** `AzureDocumentParser` from src/document_analysis/document_parser.py: it routes an
    uploaded file on the lower-cased text after the last "." of its name and extracts its
    text. The Form Recognizer read result (pages of lines), the python-docx paragraphs and
    the UTF-8 decoding of the file's bytes are inputs, each either a value or the exception
    the library raised. */
module DocumentParser {
  import opened PyStrings
  import opened Outcomes

  /** An uploaded file as the parser sees it: its name and what each library makes of it. */
  datatype UploadedFile = UploadedFile(
    name: string,
    layout: Outcome<seq<seq<string>>>,
    paragraphs: Outcome<seq<string>>,
    decoded: Outcome<string>)

  /** `name.split(".")[-1].lower()`: already lower case, and the whole name lower-cased
      when the name has no ".". */
  function Extension(name: string): (e: string)
    ensures Lower(e) == e
    ensures '.' !in name ==> e == Lower(name)
  {
    assert '.' !in name ==> Last(Split(name, ".")) == name by {
      var m := SplitLast(name, ".");
      ContainsChar(name, '.');
      assert name[0..] == name;
    }
    LowerIdempotent(Last(Split(name, ".")));
    Lower(Last(Split(name, ".")))
  }

  /** The extension is the lower-cased text after the last ".", which holds no ".". */
  lemma ExtensionAfterLastDot(name: string) returns (m: nat)
    ensures m <= |name| && Extension(name) == Lower(name[m..])
    ensures '.' !in name[m..]
    ensures m > 0 ==> name[m - 1] == '.'
  {
    m := SplitLast(name, ".");
    ContainsChar(name[m..], '.');
    if m > 0 {
      assert name[m - 1] == name[m - 1..m][0];
    }
  }

  /** Lower-casing the name first does not change the extension. */
  lemma ExtensionIgnoresCase(name: string)
    ensures Extension(Lower(name)) == Extension(name)
  {
    LowerSameOccurrences(name, ".");
    var m := SplitFromLastSame(Lower(name), name, ".", 0);
    LowerSuffix(name, m);
    LowerIdempotent(name[m..]);
  }

  datatype Route = AzureRead | Docx | PlainText | Unsupported

  /** The branch `parse_document` takes for an extension. */
  function RouteFor(extension: string): (r: Route)
    ensures r == AzureRead <==> extension in ["pdf", "jpeg", "jpg", "png"]
    ensures r == Docx <==> extension == "docx"
    ensures r == PlainText <==> extension == "txt"
  {
    if extension in ["pdf", "jpeg", "jpg", "png"] then AzureRead
    else if extension == "docx" then Docx
    else if extension == "txt" then PlainText
    else Unsupported
  }

  /** Routing does not depend on the case of the name: "A.PDF" goes where "a.pdf" goes. */
  lemma RouteIgnoresCase(name: string)
    ensures RouteFor(Extension(Lower(name))) == RouteFor(Extension(name))
  {
    ExtensionIgnoresCase(name);
  }

  /** All lines of all pages, in order. */
  function Flatten(pages: seq<seq<string>>): seq<string> {
    if |pages| == 0 then [] else Flatten(pages[..|pages| - 1]) + pages[|pages| - 1]
  }

  /** What `_parse_with_azure` returns: every line of every page followed by "\n", or ""
      when the read fails. */
  function AzureText(file: UploadedFile): (text: string)
    ensures file.layout.Failed? ==> text == ""
    ensures file.layout.Done? ==>
              |text| == SumLengths(Flatten(file.layout.value)) + |Flatten(file.layout.value)|
  {
    match file.layout
    case Done(pages) =>
      TerminatedLength(Flatten(pages));
      Terminated(Flatten(pages))
    case Failed(_) => ""
  }

  /** What `_parse_docx` returns: every paragraph followed by "\n", or "" on failure. */
  function DocxText(file: UploadedFile): (text: string)
    ensures file.paragraphs.Failed? ==> text == ""
    ensures file.paragraphs.Done? ==> |text| == SumLengths(file.paragraphs.value) + |file.paragraphs.value|
  {
    match file.paragraphs
    case Done(paragraphs) =>
      TerminatedLength(paragraphs);
      Terminated(paragraphs)
    case Failed(_) => ""
  }

  /** `_parse_txt`: the decoded text, or "" when decoding fails. */
  function ParseTxt(file: UploadedFile): (text: string)
    ensures file.decoded.Done? ==> text == file.decoded.value
    ensures file.decoded.Failed? ==> text == ""
  {
    match file.decoded
    case Done(s) => s
    case Failed(_) => ""
  }

  lemma TerminatedSnoc(lines: seq<string>, line: string)
    ensures Terminated(lines + [line]) == Terminated(lines) + line + "\n"
  {
    assert (lines + [line])[..|lines|] == lines;
  }

  /** `_parse_with_azure`: appends `line + "\n"` for each line of each page. */
  method ParseWithAzure(file: UploadedFile) returns (text: string)
    ensures text == AzureText(file)
  {
    match file.layout {
      case Failed(_) =>
        text := "";
      case Done(pages) =>
        text := "";
        var p := 0;
        while p < |pages|
          invariant 0 <= p <= |pages|
          invariant text == Terminated(Flatten(pages[..p]))
        {
          var lines := pages[p];
          var l := 0;
          assert Flatten(pages[..p]) + lines[..l] == Flatten(pages[..p]);
          while l < |lines|
            invariant 0 <= l <= |lines|
            invariant text == Terminated(Flatten(pages[..p]) + lines[..l])
          {
            TerminatedSnoc(Flatten(pages[..p]) + lines[..l], lines[l]);
            assert Flatten(pages[..p]) + lines[..l + 1] == Flatten(pages[..p]) + lines[..l] + [lines[l]];
            text := text + lines[l] + "\n";
            l := l + 1;
          }
          assert lines[..l] == lines;
          assert pages[..p + 1][..p] == pages[..p];
          p := p + 1;
        }
        assert pages[..p] == pages;
    }
  }

  /** `_parse_docx`: appends `paragraph.text + "\n"` for each paragraph. */
  method ParseDocx(file: UploadedFile) returns (text: string)
    ensures text == DocxText(file)
  {
    match file.paragraphs {
      case Failed(_) =>
        text := "";
      case Done(paragraphs) =>
        text := "";
        var i := 0;
        while i < |paragraphs|
          invariant 0 <= i <= |paragraphs|
          invariant text == Terminated(paragraphs[..i])
        {
          TerminatedSnoc(paragraphs[..i], paragraphs[i]);
          assert paragraphs[..i + 1] == paragraphs[..i] + [paragraphs[i]];
          text := text + paragraphs[i] + "\n";
          i := i + 1;
        }
        assert paragraphs[..i] == paragraphs;
    }
  }

  /** `parse_document`: `None` exactly for an unsupported extension, otherwise the text the
      extension's parser extracts. */
  method ParseDocument(file: UploadedFile) returns (result: Option<string>)
    ensures var route := RouteFor(Extension(file.name));
            && (result.None? <==> route == Unsupported)
            && (route == AzureRead ==> result == Some(AzureText(file)))
            && (route == Docx ==> result == Some(DocxText(file)))
            && (route == PlainText ==> result == Some(ParseTxt(file)))
  {
    var extension := Extension(file.name);
    match RouteFor(extension) {
      case AzureRead =>
        var text := ParseWithAzure(file);
        result := Some(text);
      case Docx =>
        var text := ParseDocx(file);
        result := Some(text);
      case PlainText =>
        result := Some(ParseTxt(file));
      case Unsupported =>
        result := None;
    }
  }

  /** When no line holds a newline, splitting the Azure text on "\n" gives back every line
      of every page in order, then the empty text after the final newline. */
  lemma AzureTextLines(file: UploadedFile)
    requires file.layout.Done?
    requires forall q :: 0 <= q < |Flatten(file.layout.value)| ==> '\n' !in Flatten(file.layout.value)[q]
    ensures Split(AzureText(file), "\n") == Flatten(file.layout.value) + [""]
  {
    SplitTerminated(Flatten(file.layout.value));
  }

  /** When no paragraph holds a newline, splitting the DOCX text on "\n" gives back the
      paragraphs in order, then the empty text after the final newline. */
  lemma DocxTextLines(file: UploadedFile)
    requires file.paragraphs.Done?
    requires forall q :: 0 <= q < |file.paragraphs.value| ==> '\n' !in file.paragraphs.value[q]
    ensures Split(DocxText(file), "\n") == file.paragraphs.value + [""]
  {
    SplitTerminated(file.paragraphs.value);
  }

  /** The Azure text is as long as all lines together plus one newline per line. */
  lemma {:induction false} TerminatedLength(lines: seq<string>)
    ensures |Terminated(lines)| == SumLengths(lines) + |lines|
    decreases |lines|
  {
    if |lines| > 0 {
      TerminatedFirst(lines);
      TerminatedLength(lines[1..]);
    }
  }
}
