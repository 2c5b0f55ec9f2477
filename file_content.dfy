/** Getting the text of the files a search found, and the batch sent to the
    combining endpoint (components/GoogleDriveSearch.js).

    extractContentFromFile fetches a file's metadata, downloads or exports
    the file, and sends it to the text-extraction endpoint; whatever goes
    wrong, it hands back the file name with some content, falling back to a
    banner made from the metadata. processAndCreateDoc takes at most ten
    results, truncates long content, and sends the batch to the combining
    endpoint. The Drive calls and the extraction endpoint are functions
    carried in a DriveAccess value. */
module FileContent {
  import opened Wrappers
  import opened Strings
  import MimeTypes
  import DriveSearch
  import CombineFiles

  /** What Drive says about a file. size is absent for files Drive does not
      store as bytes (Google Docs); modifiedLabel is the modification time as
      the browser's locale prints it. */
  datatype Metadata = Metadata(name: string, mimeType: string, size: Option<nat>, modifiedLabel: string)

  /** The calls extractContentFromFile makes: the metadata of a file, its
      export as .docx, its bytes, and the extraction endpoint, which answers
      with the text or with the message of the error to throw. */
  datatype DriveAccess = DriveAccess(
    metadata: string -> Result<Metadata, DriveSearch.DriveError>,
    exportDocx: string -> Result<seq<Byte>, DriveSearch.DriveError>,
    download: string -> Result<seq<Byte>, DriveSearch.DriveError>,
    extractText: (seq<Byte>, string, string) -> Result<string, string>)

  // ---------------------------------------------------------------------
  // the fallback banner

  const UnknownSize := "Unknown"

  /** `Math.round(size / 1024) || 'Unknown'`: the size in KB rounded to the
      nearest whole number, halves up; "Unknown" when there is no size or it
      rounds to 0. */
  function SizeLabel(size: Option<nat>): (r: string)
    ensures r == UnknownSize <==> size.None? || size.value < 512
    ensures r != UnknownSize ==>
      && (forall i :: 0 <= i < |r| ==> IsAsciiDigit(r[i]))
      && DigitsValue(r) * 1024 <= size.value + 512 < (DigitsValue(r) + 1) * 1024
  {
    if size.None? then UnknownSize
    else
      var kb := (size.value + 512) / 1024;
      if kb == 0 then UnknownSize
      else
        NatToStringValue(kb);
        NatToString(kb)
  }

  const FallbackHeading := "[Document Information]\n"

  /** generateFallbackContent: the metadata of the file, then the message. */
  function FallbackContent(meta: Metadata, message: string): (r: string)
    ensures StartsWith(r, FallbackHeading)
    ensures EndsWith(r, "\n\n" + message)
    ensures r == FallbackHeading + "Name: " + meta.name + "\n" + "Type: " + meta.mimeType + "\n"
                 + "Size: " + SizeLabel(meta.size) + "KB\n" + "Modified: " + meta.modifiedLabel
                 + "\n\n" + message
  {
    var head := FallbackHeading
      + "Name: " + meta.name + "\n"
      + "Type: " + meta.mimeType + "\n"
      + "Size: " + SizeLabel(meta.size) + "KB\n"
      + "Modified: " + meta.modifiedLabel;
    var r := head + "\n\n" + message;
    assert r == head + ("\n\n" + message);
    assert r[..|FallbackHeading|] == FallbackHeading by {
      assert head[..|FallbackHeading|] == FallbackHeading;
    }
    assert r[|r| - |"\n\n" + message|..] == "\n\n" + message;
    r
  }

  // ---------------------------------------------------------------------
  // one file

  /** The types sent to the extraction endpoint. */
  const SupportedTypes: seq<string> :=
    [MimeTypes.MsWord, MimeTypes.Docx, MimeTypes.Pdf, MimeTypes.PlainText, MimeTypes.Odt, MimeTypes.GoogleDoc]

  /** Below this many characters, the text of a .doc file is not trusted. */
  const MinDocChars := 50

  const LimitedDocMessage :=
    "Limited text could be extracted from this .doc file. It may be in an older format or contain mostly images."
  const DocFailurePrefix :=
    "This .doc file could not be processed automatically. It may be in an older format or contain complex formatting. Error: "
  const ExtractFailurePrefix := "Error extracting text: "
  const UnsupportedMessage := "Content extraction is not supported for this file type."
  const MetadataFailurePrefix := "Error extracting content: "

  /** A file name and the content found for it. */
  datatype Extracted = Extracted(fileName: string, content: string)

  /** The text of a supported file, or the message of the error thrown on
      the way: a Google Doc is exported as .docx, any other file downloaded
      as it is, and the bytes go to the extraction endpoint with the type
      they now have. */
  function FetchText(drive: DriveAccess, fileId: string, fileName: string, mimeType: string): Result<string, string> {
    var fetched :=
      if mimeType == MimeTypes.GoogleDoc then drive.exportDocx(fileId) else drive.download(fileId);
    var sentType := if mimeType == MimeTypes.GoogleDoc then MimeTypes.Docx else mimeType;
    if fetched.Failure? then Failure(fetched.error.message)
    else drive.extractText(fetched.value, sentType, fileName)
  }

  /** extractContentFromFile. It never throws and always keeps the file name;
      the content is the extracted text, or a banner built from the metadata
      when the type is not supported, extraction fails, or a .doc file gives
      less than 50 characters; only a failed metadata request leaves a bare
      error message. */
  function ExtractContentFromFile(drive: DriveAccess, fileId: string, fileName: string, mimeType: string): (r: Extracted)
    ensures r.fileName == fileName
    ensures drive.metadata(fileId).Failure? ==>
      r.content == MetadataFailurePrefix + drive.metadata(fileId).error.message
    ensures drive.metadata(fileId).Success? ==>
      || StartsWith(r.content, FallbackHeading)
      || (mimeType in SupportedTypes && FetchText(drive, fileId, fileName, mimeType) == Success(r.content))
    ensures drive.metadata(fileId).Success? && mimeType == MimeTypes.MsWord ==>
      StartsWith(r.content, FallbackHeading) || |r.content| >= MinDocChars
    ensures drive.metadata(fileId).Success? && mimeType !in SupportedTypes ==>
      r.content == FallbackContent(drive.metadata(fileId).value, UnsupportedMessage)
    ensures drive.metadata(fileId).Success? && mimeType in SupportedTypes
            && FetchText(drive, fileId, fileName, mimeType).Success? ==>
      var text := FetchText(drive, fileId, fileName, mimeType).value;
      r.content == if mimeType == MimeTypes.MsWord && |text| < MinDocChars
                   then FallbackContent(drive.metadata(fileId).value, LimitedDocMessage)
                   else text
    ensures drive.metadata(fileId).Success? && mimeType in SupportedTypes
            && FetchText(drive, fileId, fileName, mimeType).Failure? ==>
      var message := FetchText(drive, fileId, fileName, mimeType).error;
      r.content == FallbackContent(drive.metadata(fileId).value,
                                   (if mimeType == MimeTypes.MsWord then DocFailurePrefix else ExtractFailurePrefix) + message)
  {
    match drive.metadata(fileId)
    case Failure(e) => Extracted(fileName, MetadataFailurePrefix + e.message)
    case Success(meta) =>
      if mimeType !in SupportedTypes then
        Extracted(fileName, FallbackContent(meta, UnsupportedMessage))
      else
        match FetchText(drive, fileId, fileName, mimeType)
        case Success(text) =>
          if mimeType == MimeTypes.MsWord && |text| < MinDocChars then
            Extracted(fileName, FallbackContent(meta, LimitedDocMessage))
          else
            Extracted(fileName, text)
        case Failure(message) =>
          if mimeType == MimeTypes.MsWord then
            Extracted(fileName, FallbackContent(meta, DocFailurePrefix + message))
          else
            Extracted(fileName, FallbackContent(meta, ExtractFailurePrefix + message))
  }

  // ---------------------------------------------------------------------
  // truncation and the batch

  const MaxContentChars := 10000
  const TruncationNote := "... (content truncated)"

  /** Content longer than 10000 characters becomes its first 10000
      characters and a note; shorter content is kept. */
  function Truncate(content: string): (r: string)
    ensures |content| <= MaxContentChars ==> r == content
    ensures |content| > MaxContentChars ==> r == content[..MaxContentChars] + TruncationNote
    ensures |r| <= MaxContentChars + |TruncationNote|
  {
    if |content| > MaxContentChars then content[..MaxContentChars] + TruncationNote else content
  }

  /** Truncating what was truncated changes nothing: the note makes the text
      long enough to be cut again, at the same place. */
  lemma TruncateIdempotent(content: string)
    ensures Truncate(Truncate(content)) == Truncate(content)
  {
    if |content| > MaxContentChars {
      var r := Truncate(content);
      assert r[..MaxContentChars] == content[..MaxContentChars];
    }
  }

  /** How many results one document is made from. */
  const BatchLimit := 10

  /** `if (file.extractedText)`: text other than null and "". */
  predicate HasText(file: DriveSearch.DriveFile) {
    file.extractedText.Some? && file.extractedText.value != ""
  }

  /** The entry for one result: its own text when it has some, otherwise
      its extracted content, truncated. */
  function BatchEntry(drive: DriveAccess, file: DriveSearch.DriveFile): (e: CombineFiles.FileInput)
    ensures e.fileName == file.name && e.extractedText.Some?
    ensures HasText(file) ==> e.extractedText == file.extractedText
    ensures !HasText(file) ==>
      e.extractedText.value == Truncate(ExtractContentFromFile(drive, file.id, file.name, file.mimeType).content)
  {
    if HasText(file) then CombineFiles.FileInput(file.name, file.extractedText)
    else
      var found := ExtractContentFromFile(drive, file.id, file.name, file.mimeType);
      CombineFiles.FileInput(found.fileName, Some(Truncate(found.content)))
  }

  /** The files sent to the combining endpoint: one entry for each of the
      first ten results, in their order. */
  function BatchInputs(drive: DriveAccess, results: seq<DriveSearch.DriveFile>): (r: seq<CombineFiles.FileInput>)
    ensures |r| == Min(BatchLimit, |results|)
    ensures forall i :: 0 <= i < |r| ==> r[i] == BatchEntry(drive, results[i])
  {
    seq(Min(BatchLimit, |results|), i requires 0 <= i < Min(BatchLimit, |results|) => BatchEntry(drive, results[i]))
  }

  /** The loop of processAndCreateDoc that fills extractedFiles. */
  method CollectBatch(drive: DriveAccess, results: seq<DriveSearch.DriveFile>)
    returns (extractedFiles: seq<CombineFiles.FileInput>)
    ensures extractedFiles == BatchInputs(drive, results)
  {
    extractedFiles := [];
    var filesToProcess := results[..Min(BatchLimit, |results|)];
    for k := 0 to |filesToProcess|
      invariant extractedFiles == BatchInputs(drive, results)[..k]
    {
      var file := filesToProcess[k];
      if file.extractedText.Some? && file.extractedText.value != "" {
        extractedFiles := extractedFiles + [CombineFiles.FileInput(file.name, file.extractedText)];
      } else {
        var found := ExtractContentFromFile(drive, file.id, file.name, file.mimeType);
        var limitedContent := Truncate(found.content);
        extractedFiles := extractedFiles + [CombineFiles.FileInput(found.fileName, Some(limitedContent))];
      }
    }
  }

  /** Every entry of a batch has text, so the combining endpoint never
      meets a file without it. */
  lemma BatchHasText(drive: DriveAccess, results: seq<DriveSearch.DriveFile>)
    ensures CombineFiles.AllHaveText(BatchInputs(drive, results))
  {
    var files := BatchInputs(drive, results);
    forall i | 0 <= i < |files|
      ensures files[i].extractedText.Some?
    {
      assert files[i] == BatchEntry(drive, results[i]);
    }
  }

  // ---------------------------------------------------------------------
  // making the document

  const NoContentMessage := "Could not extract content from any files"
  const CombineFailedMessage := "Failed to combine files"

  /** What processAndCreateDoc ends with: nothing done, an error shown, or a
      document downloaded under a file name. */
  datatype CreateOutcome =
    | NotStarted
    | Failed(message: string)
    | Downloaded(fileName: string, paragraphs: seq<CombineFiles.Paragraph>)

  /** processAndCreateDoc: no work without results or a token; otherwise the
      batch goes to the combining endpoint with the search query, and its
      document is downloaded or its error shown. */
  function CreateDocument(drive: DriveAccess, results: seq<DriveSearch.DriveFile>, hasToken: bool,
                          query: string, env: CombineFiles.Environment): (r: CreateOutcome)
    ensures r.NotStarted? <==> |results| == 0 || !hasToken
  {
    if |results| == 0 || !hasToken then NotStarted
    else
      var files := BatchInputs(drive, results);
      if |files| == 0 then Failed(NoContentMessage)
      else
        match CombineFiles.Respond(CombineFiles.Request("POST", Some(files), Some(query)), env)
        case JsonError(_, error) => Failed(if error == "" then CombineFailedMessage else error)
        case Attachment(fileName, paragraphs) => Downloaded(fileName, paragraphs)
  }

  /** With results and a token, the document is always made: the combining
      endpoint accepts every batch the screen sends, with the layout of the
      first ten results under the search query; the "no content" error can
      never be raised. */
  lemma CreateDocumentSucceeds(drive: DriveAccess, results: seq<DriveSearch.DriveFile>,
                               query: string, env: CombineFiles.Environment)
    requires |results| > 0
    ensures CreateDocument(drive, results, true, query, env).Downloaded?
    ensures CreateDocument(drive, results, true, query, env).paragraphs
            == CombineFiles.Layout(BatchInputs(drive, results), Some(query), env).value
    ensures CreateDocument(drive, results, true, query, env).fileName
            == CombineFiles.OutputFileName(query, env)
  {
    BatchHasText(drive, results);
  }
}
