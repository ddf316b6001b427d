/** The test doubles of tests/test_utils.py: an in-memory blob store shared by every blob
    client a mock service hands out, the substring assertion helper, and a chat model that
    always answers with one fixed text. */
module TestUtils {
  import opened PyStrings
  import opened Outcomes
  import Summarizer

  /** The nested dictionary container -> blob -> data. */
  type Containers = map<string, map<string, string>>

  /** The data stored under (container, blob), or `None` where indexing raises `KeyError`. */
  function Stored(containers: Containers, container: string, blob: string): (d: Option<string>)
    ensures d.Some? <==> container in containers && blob in containers[container]
    ensures d.Some? ==> d.value == containers[container][blob]
  {
    if container in containers && blob in containers[container] then Some(containers[container][blob])
    else None
  }

  /** The store after `upload_blob`: the container is created when absent, then the blob
      is written, replacing any earlier data. */
  function Uploaded(containers: Containers, container: string, blob: string, data: string): (r: Containers)
    ensures r.Keys == containers.Keys + {container}
    ensures r[container].Keys == (if container in containers then containers[container].Keys else {}) + {blob}
  {
    var blobs := if container in containers then containers[container] else map[];
    containers[container := blobs[blob := data]]
  }

  /** After an upload the pair holds the uploaded data. */
  lemma UploadedFound(containers: Containers, container: string, blob: string, data: string)
    ensures Stored(Uploaded(containers, container, blob, data), container, blob) == Some(data)
  {
  }

  /** An upload leaves every other (container, blob) pair as it was. */
  lemma UploadedFrame(containers: Containers, container: string, blob: string, data: string,
                      otherContainer: string, otherBlob: string)
    requires (otherContainer, otherBlob) != (container, blob)
    ensures Stored(Uploaded(containers, container, blob, data), otherContainer, otherBlob)
            == Stored(containers, otherContainer, otherBlob)
  {
  }

  /** A second upload to the same pair replaces the first entirely. */
  lemma UploadedOverwrites(containers: Containers, container: string, blob: string, first: string, second: string)
    ensures Uploaded(Uploaded(containers, container, blob, first), container, blob, second)
            == Uploaded(containers, container, blob, second)
  {
    var once := Uploaded(containers, container, blob, first);
    var blobs := if container in containers then containers[container] else map[];
    assert once[container] == blobs[blob := first];
    assert blobs[blob := first][blob := second] == blobs[blob := second];
  }

  /** Uploads to different pairs can be made in either order. */
  lemma UploadsCommute(containers: Containers, c1: string, b1: string, d1: string, c2: string, b2: string, d2: string)
    requires (c1, b1) != (c2, b2)
    ensures Uploaded(Uploaded(containers, c1, b1, d1), c2, b2, d2)
            == Uploaded(Uploaded(containers, c2, b2, d2), c1, b1, d1)
  {
    var x := Uploaded(Uploaded(containers, c1, b1, d1), c2, b2, d2);
    var y := Uploaded(Uploaded(containers, c2, b2, d2), c1, b1, d1);
    assert x.Keys == y.Keys;
    forall c | c in x.Keys ensures x[c] == y[c] {
      assert x[c].Keys == y[c].Keys;
    }
  }

  /** The dictionary every client of one service shares. */
  class Storage {
    var containers: Containers

    constructor()
      ensures containers == map[]
    {
      containers := map[];
    }
  }

  /** `MockBlobClient`: a view of one (container, blob) pair of a shared storage. */
  class MockBlobClient {
    const storage: Storage
    const container: string
    const blob: string

    constructor(storage: Storage, container: string, blob: string)
      ensures this.storage == storage && this.container == container && this.blob == blob
    {
      this.storage := storage;
      this.container := container;
      this.blob := blob;
    }

    /** `upload_blob`: stores the data whatever `overwrite` says, and returns true. */
    method UploadBlob(data: string, overwrite: bool := false) returns (uploaded: bool)
      modifies storage
      ensures uploaded
      ensures storage.containers == Uploaded(old(storage.containers), container, blob, data)
    {
      if container !in storage.containers {
        storage.containers := storage.containers[container := map[]];
      }
      storage.containers := storage.containers[container := storage.containers[container][blob := data]];
      uploaded := true;
    }

    /** `download_blob`: the stored data; `None` stands for the `KeyError` raised when the
        container or the blob is missing. */
    method DownloadBlob() returns (data: Option<string>)
      ensures data == Stored(storage.containers, container, blob)
    {
      if container in storage.containers && blob in storage.containers[container] {
        data := Some(storage.containers[container][blob]);
      } else {
        data := None;
      }
    }

    /** `exists`: whether a download would find data. */
    function Exists(): (found: bool)
      reads storage
      ensures found <==> Stored(storage.containers, container, blob).Some?
    {
      container in storage.containers && blob in storage.containers[container]
    }
  }

  /** `MockBlobServiceClient`: owns the storage its blob clients share. */
  class MockBlobServiceClient {
    const storage: Storage

    constructor()
      ensures fresh(storage) && storage.containers == map[]
    {
      storage := new Storage();
    }

    /** `get_blob_client`: a new client over this service's storage. */
    method GetBlobClient(container: string, blob: string) returns (client: MockBlobClient)
      ensures fresh(client)
      ensures client.storage == storage && client.container == container && client.blob == blob
    {
      client := new MockBlobClient(storage, container, blob);
    }
  }

  /** `upload_mock_blob`: a new service holding just the uploaded blob. */
  method UploadMockBlob(data: string, containerName: string, blobName: string) returns (service: MockBlobServiceClient)
    ensures fresh(service)
    ensures service.storage.containers == map[containerName := map[blobName := data]]
  {
    service := new MockBlobServiceClient();
    var client := service.GetBlobClient(containerName, blobName);
    var _ := client.UploadBlob(data, true);
  }

  /** Clients obtained from one service share its storage: data uploaded through one is
      what another client for the same pair downloads, and what `assert_blob_exists` sees. */
  method SharedStorage(service: MockBlobServiceClient, container: string, blob: string, data: string)
    returns (downloaded: Option<string>, found: bool)
    modifies service.storage
    ensures downloaded == Some(data) && found
    ensures service.storage.containers == Uploaded(old(service.storage.containers), container, blob, data)
  {
    var writer := service.GetBlobClient(container, blob);
    var _ := writer.UploadBlob(data);
    var reader := service.GetBlobClient(container, blob);
    downloaded := reader.DownloadBlob();
    found := reader.Exists();
  }

  /** The argument of `assert_response_contains`: a list, or one value standing alone. */
  datatype Expected = Single(text: string) | Several(texts: seq<string>)

  /** A lone value is treated as the one-element list. */
  function AsList(expected: Expected): (texts: seq<string>)
    ensures expected.Single? ==> texts == [expected.text]
    ensures expected.Several? ==> texts == expected.texts
  {
    match expected
    case Single(t) => [t]
    case Several(ts) => ts
  }

  const MissingHead := "Response text does not contain expected substring: '"

  function MissingMessage(substring: string): string {
    MissingHead + substring + "'"
  }

  /** `assert_response_contains`: `None` when every expected text occurs in the response;
      otherwise the message of the `AssertionError` raised for the first one that does not. */
  method AssertResponseContains(responseText: string, expected: Expected) returns (failure: Option<string>)
    ensures failure.None? <==> forall i :: 0 <= i < |AsList(expected)| ==> Contains(responseText, AsList(expected)[i])
    ensures failure.Some? ==>
              exists i :: (&& 0 <= i < |AsList(expected)|
                           && !Contains(responseText, AsList(expected)[i])
                           && (forall j :: 0 <= j < i ==> Contains(responseText, AsList(expected)[j]))
                           && failure.value == MissingMessage(AsList(expected)[i]))
  {
    var substrings := AsList(expected);
    var i := 0;
    while i < |substrings|
      invariant 0 <= i <= |substrings|
      invariant forall j :: 0 <= j < i ==> Contains(responseText, substrings[j])
    {
      if Find(responseText, substrings[i]) == -1 {
        return Some(MissingMessage(substrings[i]));
      }
      i := i + 1;
    }
    failure := None;
  }

  const DefaultMockResponse := "Mock AI Response"

  /** The message of the `AttributeError` raised by reading `choices` off a `dict`. */
  const DictLacksChoices := "'dict' object has no attribute 'choices'"

  /** The reply shape `{"choices": [{"message": {"content": ...}}]}`. */
  datatype Completion = Completion(choices: seq<string>)

  /** `MockAzureAIModel`: answers every request with the text it was built with. */
  class MockAzureAIModel {
    const mockResponseText: string

    constructor(mockResponseText: string := DefaultMockResponse)
      ensures this.mockResponseText == mockResponseText
    {
      this.mockResponseText := mockResponseText;
    }

    /** `get_chat_completions`: one choice whose content is the fixed text, whatever the
        model, messages or token limit. */
    function GetChatCompletions(model: string, messages: seq<string>, maxTokens: int := 500): (r: Completion)
      ensures |r.choices| == 1 && r.choices[0] == mockResponseText
    {
      Completion([mockResponseText])
    }

    /** The mock as the summariser's completion call: the summariser reads the reply's
        `choices` attribute, which the returned dictionary lacks, so every call ends in that
        `AttributeError`, whatever the prompt and the mock text. */
    function AsSummarizerClient(): (chat: string -> Outcome<string>)
      ensures forall prompt :: chat(prompt) == Failed(DictLacksChoices)
    {
      prompt => Failed(DictLacksChoices)
    }
  }

  /** The reply ignores the request: two requests get the same completion. */
  lemma MockIgnoresRequest(mock: MockAzureAIModel, m1: string, s1: seq<string>, t1: int, m2: string, s2: seq<string>, t2: int)
    ensures mock.GetChatCompletions(m1, s1, t1) == mock.GetChatCompletions(m2, s2, t2)
  {
  }

  /** With the mock model in place of the client, `summarize_document` catches the
      `AttributeError` and returns its text after "Error occurred: ", with no thoughts,
      whether or not reasoning was requested. */
  lemma MockSummary(mock: MockAzureAIModel, documentText: string, summaryLength: string, requestThoughts: bool)
    ensures Summarizer.SummarizeDocument(mock.AsSummarizerClient(), documentText, summaryLength, requestThoughts)
            == Summarizer.Summary(ErrorOccurred(DictLacksChoices), None)
  {
  }
}
