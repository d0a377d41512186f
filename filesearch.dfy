/** The search-by-file form: picking a file classifies it by its MIME
    prefix; submitting refuses an unclassified or missing file, and
    otherwise sends the file's name, type and base64 content (the part of
    its data URL after the first comma, up to the next) to the endpoint for
    its type. */
module FileUploadSearch {
  import opened JsString
  import opened Requests

  const API_IMAGE_VIDEO := "https://87ia3a0c0c.execute-api.ap-southeast-2.amazonaws.com/ImageVideoUpload/query4"
  const API_AUDIO := "https://nyxjesq0l9.execute-api.ap-southeast-2.amazonaws.com/Query4Audio/UploadAudio"

  const UNSUPPORTED := "Unsupported file type."
  const NO_VALID_FILE := "Please select a valid file."
  const READING := "Reading file and sending request..."

  /** The `fileType` state: `''` or one of three media kinds. */
  datatype FileType = NoType | Image | Video | Audio {
    /** The string the state holds and the payload sends. */
    function Label(): (s: string)
      ensures s == [] <==> this == NoType
    {
      match this
      case NoType => ""
      case Image => "image"
      case Video => "video"
      case Audio => "audio"
    }
  }

  /** The part of a browser `File` the form looks at. */
  datatype SelectedFile = SelectedFile(name: string, mime: string)

  /** The else-if chain on `mime.startsWith(...)`. */
  function Classify(mime: string): FileType {
    if StartsWith(mime, "image/") then Image
    else if StartsWith(mime, "video/") then Video
    else if StartsWith(mime, "audio/") then Audio
    else NoType
  }

  /** The prefix table: each kind exactly for its prefix, no kind for
      anything else. The three prefixes differ in their first letter, so
      the order of the tests does not matter. */
  lemma ClassifyTable(mime: string)
    ensures Classify(mime) == Image <==> StartsWith(mime, "image/")
    ensures Classify(mime) == Video <==> StartsWith(mime, "video/")
    ensures Classify(mime) == Audio <==> StartsWith(mime, "audio/")
    ensures Classify(mime) == NoType <==>
              !StartsWith(mime, "image/") && !StartsWith(mime, "video/") && !StartsWith(mime, "audio/")
  {
    if StartsWith(mime, "image/") {
      assert mime[0] == 'i';
    } else if StartsWith(mime, "video/") {
      assert mime[0] == 'v';
    }
  }

  /** `fileType === 'audio' ? API_AUDIO : API_IMAGE_VIDEO`. */
  function Endpoint(t: FileType): (url: string)
    ensures url == API_AUDIO <==> t == Audio
    ensures url == API_IMAGE_VIDEO <==> t != Audio
  {
    if t == Audio then API_AUDIO else API_IMAGE_VIDEO
  }

  /** The source compares the `fileType` string, not a kind: testing the
      label against `'audio'` picks the same endpoint. */
  lemma EndpointByLabel(t: FileType)
    ensures Endpoint(t) == (if t.Label() == "audio" then API_AUDIO else API_IMAGE_VIDEO)
  {
    assert "image" != "audio" && "video" != "audio";
  }

  /** `dataUrl.split(',')[1]`: the second piece, or `undefined` when there
      is none. */
  function Base64Content(dataUrl: string): (content: Option<string>)
    ensures content.Some? ==> ',' !in content.value
  {
    var parts := Split(dataUrl, ',');
    if |parts| >= 2 then Some(parts[1]) else None
  }

  /** There is content exactly when the data URL has a comma. */
  lemma ContentIffComma(dataUrl: string)
    ensures Base64Content(dataUrl).Some? <==> ',' in dataUrl
  {
    OccurrencesPositive(dataUrl, ',');
  }

  /** The content is what lies between the first comma and the next one
      (or the end). */
  lemma ContentBetweenCommas(header: string, content: string, rest: string)
    requires ',' !in header && ',' !in content
    requires rest == [] || rest[0] == ','
    ensures Base64Content(header + [','] + content + rest) == Some(content)
  {
    var d := header + [','] + content + rest;
    assert d == header + [','] + (content + rest);
    SplitAppend(header, content + rest, ',');
    SplitWithoutSeparator(header, ',');
    if rest == [] {
      assert content + rest == content;
      SplitWithoutSeparator(content, ',');
    } else {
      assert content + rest == content + [','] + rest[1..];
      SplitAppend(content, rest[1..], ',');
      SplitWithoutSeparator(content, ',');
    }
  }

  /** A typical data URL. */
  lemma ContentExample()
    ensures Base64Content("data:audio/wav;base64,UklGR") == Some("UklGR")
  {
    assert "data:audio/wav;base64,UklGR" == "data:audio/wav;base64" + [','] + "UklGR" + "";
    ContentBetweenCommas("data:audio/wav;base64", "UklGR", "");
  }

  /** The POST: its endpoint and the payload `{file_name, file_type,
      file_content}`; an `undefined` content is left out of the JSON. */
  datatype SearchQuery = SearchQuery(endpoint: string, fileName: string, fileType: string, fileContent: Option<string>)

  /** What submit decides, given the form state and the data URL the
      reader produces. */
  function Submission(file: Option<SelectedFile>, fileType: FileType, dataUrl: string): Outcome<SearchQuery> {
    if file.None? || fileType.Label() == [] then Rejected(NO_VALID_FILE)
    else Accepted(SearchQuery(Endpoint(fileType), file.value.name, fileType.Label(), Base64Content(dataUrl)))
  }

  /** The query goes out exactly when there is a file with a kind; it then
      carries that file's name, its kind, the data URL's content, and the
      endpoint for that kind. */
  lemma SubmissionIff(file: Option<SelectedFile>, fileType: FileType, dataUrl: string)
    ensures Submission(file, fileType, dataUrl).Accepted? <==> file.Some? && fileType != NoType
    ensures Submission(file, fileType, dataUrl).Rejected? ==>
              Submission(file, fileType, dataUrl).message == NO_VALID_FILE
    ensures Submission(file, fileType, dataUrl).Accepted? ==>
              var q := Submission(file, fileType, dataUrl).request;
              && q.fileName == file.value.name && q.fileType == fileType.Label()
              && q.fileContent == Base64Content(dataUrl)
              && q.endpoint == Endpoint(fileType)
              && (q.endpoint == API_AUDIO <==> fileType == Audio)
              && (q.endpoint == API_IMAGE_VIDEO <==> fileType != Audio)
  {
  }

  /** A picked file whose MIME type has none of the three prefixes can
      never be submitted. */
  lemma UnsupportedNeverSent(f: SelectedFile, dataUrl: string)
    requires !StartsWith(f.mime, "image/") && !StartsWith(f.mime, "video/") && !StartsWith(f.mime, "audio/")
    ensures Submission(Some(f), Classify(f.mime), dataUrl) == Rejected(NO_VALID_FILE)
  {
    ClassifyTable(f.mime);
  }

  /** The component's state that the handlers use. */
  class FileTagSearch {
    var file: Option<SelectedFile>
    var fileType: FileType
    var status: string

    /** The kind always is that of the picked file, and none before one is
        picked. */
    ghost predicate Valid()
      reads this
    {
      match file
      case None => fileType == NoType
      case Some(f) => fileType == Classify(f.mime)
    }

    constructor ()
      ensures Valid()
      ensures file == None && fileType == NoType && status == ""
    {
      file, fileType, status := None, NoType, "";
    }

    /** Picking a file: nothing happens without one; otherwise the file is
      kept and classified, and an unsupported one also sets the status (a
      supported one leaves the status as it was). */
    method HandleFileChange(selected: Option<SelectedFile>)
      requires Valid()
      modifies this
      ensures Valid()
      ensures selected.None? ==> file == old(file) && fileType == old(fileType) && status == old(status)
      ensures selected.Some? ==> file == selected && fileType == Classify(selected.value.mime)
      ensures selected.Some? && fileType == NoType ==> status == UNSUPPORTED
      ensures selected.Some? && fileType != NoType ==> status == old(status)
    {
      if selected.None? {
        return;
      }
      file := selected;
      var mime := selected.value.mime;
      if StartsWith(mime, "image/") {
        fileType := Image;
      } else if StartsWith(mime, "video/") {
        fileType := Video;
      } else if StartsWith(mime, "audio/") {
        fileType := Audio;
      } else {
        fileType := NoType;
        status := UNSUPPORTED;
      }
    }

    /** "Submit File" up to the POST, with `dataUrl` the reader's result:
      the status is the refusal or the progress message, and the query is
      the one `Submission` decides. */
    method HandleSubmit(dataUrl: string) returns (query: Option<SearchQuery>)
      requires Valid()
      modifies this`status
      ensures Valid()
      ensures query == RequestOf(Submission(file, fileType, dataUrl))
      ensures status == StatusAfter(Submission(file, fileType, dataUrl), READING)
    {
      if file.None? || fileType.Label() == [] {
        status := NO_VALID_FILE;
        return None;
      }
      status := READING;
      var base64Content := Base64Content(dataUrl);
      var apiUrl := if fileType == Audio then API_AUDIO else API_IMAGE_VIDEO;
      query := Some(SearchQuery(apiUrl, file.value.name, fileType.Label(), base64Content));
    }
  }
}
