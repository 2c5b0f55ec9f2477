/** The text-extraction endpoint (pages/api/extract-text.js).

    A POST request carries a document either as a multipart upload, checked
    against an allow-list of five MIME types, or as a JSON payload
    {fileData, mimeType, fileName} with base64 data and no allow-list. The
    document goes to one extractor per MIME type, and the extracted text then
    goes through one line pipeline on both paths: split at runs of CR and LF,
    keep the printable ASCII characters of each line, collapse whitespace,
    trim, drop empty lines, and keep the lines up to and including the first
    that contains REFERENCE (in any case), or else the first 23 lines.

    The libraries the endpoint calls (formidable, JSON.parse, base64 decoding,
    UTF-8 decoding, pdf-parse, mammoth, libreoffice-convert, word-extractor)
    are functions carried in a Libraries value; None stands for an error the
    library throws. */
module ExtractText {
  import opened Wrappers
  import opened Strings
  import MimeTypes

  /** The MIME types a multipart upload may carry. */
  const UploadAllowList: seq<string> :=
    [MimeTypes.MsWord, MimeTypes.Docx, MimeTypes.Pdf, MimeTypes.Odt, MimeTypes.PlainText]

  /** The MIME types the extractor dispatch has a branch for. */
  const ExtractorTypes: seq<string> :=
    [MimeTypes.MsWord, MimeTypes.Pdf, MimeTypes.Docx, MimeTypes.PlainText, MimeTypes.Rtf, MimeTypes.Odt]

  /** How many lines are kept when no line mentions the marker. */
  const LineBudget := 23

  const ReferenceMarker := "REFERENCE"

  datatype Upload = Upload(mimetype: string, content: seq<Byte>)

  /** What the multipart parser yields: an error, or the uploaded file if any. */
  datatype FormResult = FormError | Parsed(file: Option<Upload>)

  /** The JSON body; a field that is absent or null is None. */
  datatype Payload = Payload(fileData: Option<string>, mimeType: Option<string>, fileName: Option<string>)

  datatype Request = Request(httpMethod: string, contentType: Option<string>, body: seq<Byte>)

  datatype Libraries = Libraries(
    parseForm: seq<Byte> -> FormResult,
    parseJson: seq<Byte> -> Option<Payload>,
    decodeBase64: string -> seq<Byte>,
    utf8: seq<Byte> -> string,
    pdfText: seq<Byte> -> Option<string>,
    docxText: seq<Byte> -> Option<string>,
    convertToDocx: seq<Byte> -> Option<seq<Byte>>,
    wordExtractorText: seq<Byte> -> Option<string>,
    storeTemp: (string, seq<Byte>) -> bool)

  datatype Reply = ExtractedText(text: string) | ErrorMessage(error: string)

  datatype Response = Response(status: int, reply: Reply)

  /** JavaScript truthiness of an optional string field. */
  predicate Truthy(v: Option<string>) {
    v.Some? && v.value != ""
  }

  predicate IsMultipart(req: Request) {
    req.contentType.Some? && Contains(req.contentType.value, "multipart/form-data")
  }

  // ---------------------------------------------------------------------
  // request gating

  /** The outcome of the checks made before any extraction. */
  datatype Admission =
    | Rejected(status: int, error: string)
    | Admitted(mimeType: string, data: seq<Byte>, tempName: Option<string>)

  /** The JSON path writes the decoded bytes to temp/<fileName || 'temp_file'>
      before extracting and removes that file afterwards. */
  function TempFileName(p: Payload): (name: string)
    ensures Truthy(p.fileName) ==> name == p.fileName.value
    ensures !Truthy(p.fileName) ==> name == "temp_file"
  {
    if Truthy(p.fileName) then p.fileName.value else "temp_file"
  }

  /** Writing and removing the temporary file succeed (always, for an upload,
      which makes none). */
  predicate TempFileHolds(libs: Libraries, a: Admission)
    requires a.Admitted?
  {
    a.tempName.None? || libs.storeTemp(a.tempName.value, a.data)
  }

  /** Method check, then either the multipart checks (parse error, missing
      file, allow-list) or the JSON checks (parse error, missing fields). */
  function Admit(libs: Libraries, req: Request): (a: Admission)
    ensures (a.Rejected? && a.status == 405) <==> req.httpMethod != "POST"
    ensures a.Rejected? ==> a.status == 400 || a.status == 405 || a.status == 500
    ensures a.Admitted? && IsMultipart(req) ==>
      && libs.parseForm(req.body) == Parsed(Some(Upload(a.mimeType, a.data)))
      && a.mimeType in UploadAllowList
      && a.mimeType != MimeTypes.Rtf
      && a.tempName.None?
    ensures a.Admitted? && !IsMultipart(req) ==>
      && libs.parseJson(req.body).Some?
      && Truthy(libs.parseJson(req.body).value.fileData)
      && Truthy(libs.parseJson(req.body).value.mimeType)
      && a.mimeType == libs.parseJson(req.body).value.mimeType.value
      && a.data == libs.decodeBase64(libs.parseJson(req.body).value.fileData.value)
      && a.tempName == Some(TempFileName(libs.parseJson(req.body).value))
    ensures req.httpMethod == "POST" && IsMultipart(req) && libs.parseForm(req.body).Parsed?
            && libs.parseForm(req.body).file.Some?
            && libs.parseForm(req.body).file.value.mimetype !in UploadAllowList
            ==> a == Rejected(400, "Invalid file type. Please upload a valid document file")
    ensures req.httpMethod == "POST" && !IsMultipart(req) && libs.parseJson(req.body).Some?
            && !(Truthy(libs.parseJson(req.body).value.fileData) && Truthy(libs.parseJson(req.body).value.mimeType))
            ==> a == Rejected(400, "Missing required fields")
  {
    if req.httpMethod != "POST" then Rejected(405, "Method not allowed")
    else if IsMultipart(req) then
      match libs.parseForm(req.body)
      case FormError => Rejected(500, "Error parsing form")
      case Parsed(None) => Rejected(400, "No file uploaded")
      case Parsed(Some(file)) =>
        if file.mimetype !in UploadAllowList then
          Rejected(400, "Invalid file type. Please upload a valid document file")
        else
          Admitted(file.mimetype, file.content, None)
    else
      match libs.parseJson(req.body)
      case None => Rejected(500, "Error processing file")
      case Some(p) =>
        if !Truthy(p.fileData) || !Truthy(p.mimeType) then Rejected(400, "Missing required fields")
        else Admitted(p.mimeType.value, libs.decodeBase64(p.fileData.value), Some(TempFileName(p)))
  }

  // ---------------------------------------------------------------------
  // extraction

  predicate IsPrintableOrBreak(c: char) {
    IsPrintable(c) || IsLineBreak(c)
  }

  /** extractFromDoc: convert to .docx and read that with mammoth; when the
      conversion fails, read the .doc with word-extractor; any error yields
      the empty string. */
  function ExtractFromDoc(libs: Libraries, data: seq<Byte>): string {
    match libs.convertToDocx(data)
    case Some(docx) => libs.docxText(docx).GetOr("")
    case None => libs.wordExtractorText(data).GetOr("")
  }

  /** The per-MIME extractor; None when the extractor throws. */
  function Extract(libs: Libraries, mimeType: string, data: seq<Byte>): (r: Option<string>)
    ensures mimeType == MimeTypes.MsWord || mimeType == MimeTypes.PlainText ==> r.Some?
    ensures mimeType == MimeTypes.Rtf || mimeType == MimeTypes.Odt ==>
      r.Some? && forall i :: 0 <= i < |r.value| ==> IsPrintableOrBreak(r.value[i])
    ensures mimeType !in ExtractorTypes ==> r == Some("")
    ensures mimeType == MimeTypes.MsWord ==> r == Some(ExtractFromDoc(libs, data))
    ensures mimeType == MimeTypes.Pdf ==> r == libs.pdfText(data)
    ensures mimeType == MimeTypes.Docx ==> r == libs.docxText(data)
    ensures mimeType == MimeTypes.PlainText ==> r == Some(libs.utf8(data))
    ensures mimeType == MimeTypes.Rtf || mimeType == MimeTypes.Odt ==>
      r == Some(Keep(libs.utf8(data), IsPrintableOrBreak))
  {
    if mimeType == MimeTypes.MsWord then Some(ExtractFromDoc(libs, data))
    else if mimeType == MimeTypes.Pdf then libs.pdfText(data)
    else if mimeType == MimeTypes.Docx then libs.docxText(data)
    else if mimeType == MimeTypes.PlainText then Some(libs.utf8(data))
    else if mimeType == MimeTypes.Rtf then Some(Keep(libs.utf8(data), IsPrintableOrBreak))
    else if mimeType == MimeTypes.Odt then Some(Keep(libs.utf8(data), IsPrintableOrBreak))
    else Some("")
  }

  // ---------------------------------------------------------------------
  // the line pipeline

  /** A line as the pipeline emits it: non-empty, printable ASCII only, no
      leading or trailing space, no two spaces in a row. */
  predicate IsCleanLine(l: string) {
    && |l| > 0
    && (forall i :: 0 <= i < |l| ==> IsPrintable(l[i]))
    && l[0] != ' ' && l[|l| - 1] != ' '
    && NoSpaceRuns(l)
  }

  /** line.replace(/[^\x20-\x7E]/g, '').replace(/\s+/g, ' ').trim() */
  function CleanLine(line: string): (r: string)
    ensures r == "" || IsCleanLine(r)
    ensures Keep(r, IsVisible) == Keep(line, IsVisible)
  {
    var printable := Keep(line, IsPrintable);
    var collapsed := CollapseSpaces(printable);
    var r := Trim(collapsed);
    CleanLineFacts(line, printable, collapsed, r);
    r
  }

  lemma CleanLineFacts(line: string, printable: string, collapsed: string, r: string)
    requires printable == Keep(line, IsPrintable)
    requires collapsed == CollapseSpaces(printable)
    requires r == Trim(collapsed)
    ensures r == "" || IsCleanLine(r)
    ensures Keep(r, IsVisible) == Keep(line, IsVisible)
  {
    TrimKeepsVisible(collapsed);
    KeepWiderFirst(line, IsPrintable);
    CollapsedPrintable(printable, collapsed);
    if |r| > 0 {
      TrimmedClean(collapsed, r);
    }
  }

  /** A worked case: the control character goes, the space and tab between
      the words become one space, and the ends are trimmed. */
  lemma CleanLineExample()
    ensures CleanLine("  a \t b\U{0001} ") == "a b"
  {
    ExamplePrintable();
    ExampleCollapsed();
    ExampleTrimmed();
  }

  lemma ExamplePrintable()
    ensures Keep("  a \t b\U{0001} ", IsPrintable) == "  a  b "
  {
    var line := "  a \t b\U{0001} ";
    assert line[1..] == " a \t b\U{0001} " && line[2..] == "a \t b\U{0001} ";
    assert line[3..] == " \t b\U{0001} " && line[4..] == "\t b\U{0001} ";
    assert line[5..] == " b\U{0001} " && line[6..] == "b\U{0001} ";
    assert line[7..] == "\U{0001} " && line[8..] == " " && line[9..] == "";
  }

  lemma ExampleCollapsed()
    ensures CollapseSpaces("  a  b ") == " a b "
  {
    CollapseSpacesIsSqueeze("  a  b ");
    ExampleSqueezed();
  }

  lemma ExampleSqueezed()
    ensures Squeeze("  a  b ", false) == " a b "
  {
    assert IsJsSpace(' ') && !IsJsSpace('a') && !IsJsSpace('b');
    assert "  a  b "[1..] == " a  b " && " a  b "[1..] == "a  b ";
    assert "a  b "[1..] == "  b " && "  b "[1..] == " b ";
    assert " b "[1..] == "b " && "b "[1..] == " " && " "[1..] == "";
    assert Squeeze(" ", false) == " ";
    assert Squeeze("b ", true) == "b ";
    assert Squeeze(" b ", true) == "b ";
    assert Squeeze("  b ", false) == " b ";
    assert Squeeze("a  b ", true) == "a b ";
    assert Squeeze(" a  b ", true) == "a b ";
  }

  lemma ExampleTrimmed()
    ensures Trim(" a b ") == "a b"
  {
    var collapsed := " a b ";
    assert LeadingSpaces(collapsed) == 1 by {
      assert collapsed[1..] == "a b ";
    }
    assert TrailingSpaces(collapsed) == 1 by {
      assert collapsed[..4] == " a b";
    }
    assert collapsed[1..4] == "a b";
  }

  lemma CollapsedPrintable(printable: string, collapsed: string)
    requires forall i :: 0 <= i < |printable| ==> IsPrintable(printable[i])
    requires collapsed == CollapseSpaces(printable)
    ensures forall i :: 0 <= i < |collapsed| ==> IsPrintable(collapsed[i])
  {
    forall i | 0 <= i < |collapsed|
      ensures IsPrintable(collapsed[i])
    {
      if collapsed[i] != ' ' {
        var c := collapsed[i];
        assert c in printable;
        var j :| 0 <= j < |printable| && printable[j] == c;
      }
    }
  }

  lemma TrimmedClean(collapsed: string, r: string)
    requires forall i :: 0 <= i < |collapsed| ==> IsPrintable(collapsed[i])
    requires NoSpaceRuns(collapsed)
    requires r == Trim(collapsed) && |r| > 0
    ensures IsCleanLine(r)
  {
    var o := TrimOffset(collapsed);
    TrimChars(collapsed);
    assert IsJsSpace(' ');
    forall i | 0 <= i < |r| - 1
      ensures !SpacePairAt(r, i)
    {
      assert r[i] == collapsed[o + i] && r[i + 1] == collapsed[o + i + 1];
      assert !SpacePairAt(collapsed, o + i);
    }
  }

  /** A line that is already clean passes through CleanLine unchanged. */
  lemma CleanLineUnchanged(line: string)
    requires IsCleanLine(line)
    ensures CleanLine(line) == line
  {
    KeepUnchanged(line, IsPrintable);
    forall i | 0 <= i < |line| ensures IsJsSpace(line[i]) ==> line[i] == ' ' {
      assert IsPrintable(line[i]);
    }
    forall i | 0 <= i < |line| - 1 ensures !SpacePairAt(line, i) {
      assert IsPrintable(line[i]) && IsPrintable(line[i + 1]);
    }
    CollapseSpacesUnchanged(line);
    assert !IsJsSpace(line[0]) by { assert IsPrintable(line[0]); }
    assert !IsJsSpace(line[|line| - 1]) by { assert IsPrintable(line[|line| - 1]); }
    TrimUnchanged(line);
  }

  /** lines.map(CleanLine).filter(line => line.length > 0) */
  function CleanLines(pieces: seq<string>): (r: seq<string>)
    ensures |r| <= |pieces|
    ensures forall i :: 0 <= i < |r| ==> IsCleanLine(r[i])
    ensures VisibleOfLines(r) == VisibleOfLines(pieces)
    decreases |pieces|
  {
    if |pieces| == 0 then []
    else
      var line := CleanLine(pieces[0]);
      var rest := CleanLines(pieces[1..]);
      VisibleOfCons(pieces[0], pieces[1..]);
      assert [pieces[0]] + pieces[1..] == pieces;
      if line == "" then
        assert Keep(pieces[0], IsVisible) == Keep(line, IsVisible) == "";
        assert VisibleOfLines(pieces) == "" + VisibleOfLines(pieces[1..]);
        rest
      else
        VisibleOfCons(line, rest);
        ConsCleanLines(line, rest);
        [line] + rest
  }

  lemma ConsCleanLines(line: string, lines: seq<string>)
    requires IsCleanLine(line)
    requires forall i :: 0 <= i < |lines| ==> IsCleanLine(lines[i])
    ensures forall i :: 0 <= i < |[line] + lines| ==> IsCleanLine(([line] + lines)[i])
  {
    var r := [line] + lines;
    forall i | 0 <= i < |r| ensures IsCleanLine(r[i]) {
      if i > 0 {
        assert r[i] == lines[i - 1];
      }
    }
  }

  /** Cleaning a piece list is cleaning each part: with the single-piece
      case below, the lines are the cleaned pieces that are not empty, in
      order. */
  lemma {:induction false} CleanLinesConcat(a: seq<string>, b: seq<string>)
    ensures CleanLines(a + b) == CleanLines(a) + CleanLines(b)
    decreases |a|
  {
    var ab := a + b;
    if |a| == 0 {
      assert ab == b;
    } else {
      assert ab[0] == a[0];
      assert ab[1..] == a[1..] + b;
      var x, y := CleanLines(a[1..]), CleanLines(b);
      var head := if CleanLine(a[0]) == "" then [] else [CleanLine(a[0])];
      CleanLinesConcat(a[1..], b);
      CleanLinesCons(ab);
      CleanLinesCons(a);
      LinesConcatAssoc(head, x, y);
    }
  }

  /** The first piece contributes its cleaned line, unless that is empty. */
  lemma CleanLinesCons(pieces: seq<string>)
    requires |pieces| > 0
    ensures CleanLines(pieces) ==
      (if CleanLine(pieces[0]) == "" then [] else [CleanLine(pieces[0])]) + CleanLines(pieces[1..])
  {
    if CleanLine(pieces[0]) == "" {
      assert [] + CleanLines(pieces[1..]) == CleanLines(pieces[1..]);
    }
  }

  /** One piece gives its cleaned line, or nothing when that is empty. */
  lemma CleanLinesSingle(piece: string)
    ensures CleanLines([piece]) == if CleanLine(piece) == "" then [] else [CleanLine(piece)]
  {
    assert [piece][1..] == [];
  }

  /** Lines that are all clean pass through CleanLines unchanged. */
  lemma {:induction false} CleanLinesUnchanged(pieces: seq<string>)
    requires forall i :: 0 <= i < |pieces| ==> IsCleanLine(pieces[i])
    ensures CleanLines(pieces) == pieces
    decreases |pieces|
  {
    if |pieces| > 0 {
      var rest := pieces[1..];
      CleanLinesStep(pieces);
      forall i | 0 <= i < |rest| ensures IsCleanLine(rest[i]) {
        assert rest[i] == pieces[i + 1];
      }
      CleanLinesUnchanged(rest);
      assert pieces == [pieces[0]] + rest;
    }
  }

  /** A clean first line is kept as it is, ahead of the rest. */
  lemma CleanLinesStep(pieces: seq<string>)
    requires |pieces| > 0 && IsCleanLine(pieces[0])
    ensures CleanLines(pieces) == [pieces[0]] + CleanLines(pieces[1..])
  {
    CleanLineUnchanged(pieces[0]);
  }

  /** The extracted text as clean lines, before truncation. */
  function NormaliseLines(text: string): (r: seq<string>)
    ensures forall i :: 0 <= i < |r| ==> IsCleanLine(r[i])
    ensures VisibleOfLines(r) == Keep(text, IsVisible)
  {
    SplitLineRunsVisible(text);
    CleanLines(SplitLineRuns(text))
  }

  predicate HasReference(line: string) {
    Contains(Upper(line), ReferenceMarker)
  }

  /** The REFERENCE search as the handler runs it: a loop that stops at the
      first matching line. */
  method CutAtReference(lines: seq<string>) returns (kept: seq<string>)
    ensures kept == KeepThrough(lines, HasReference, LineBudget)
  {
    var endIndex := -1;
    for i := 0 to |lines|
      invariant endIndex == -1
      invariant forall j :: 0 <= j < i ==> !HasReference(lines[j])
    {
      var upper := Upper(lines[i]);
      if Contains(upper, ReferenceMarker) {
        endIndex := i;
        break;
      }
    }
    if endIndex >= 0 {
      kept := lines[..endIndex + 1];
    } else {
      kept := lines[..Min(LineBudget, |lines|)];
    }
  }

  /** The whole line pipeline applied to extracted text. */
  function ProcessText(raw: string): (lines: seq<string>)
    ensures forall i :: 0 <= i < |lines| ==> IsCleanLine(lines[i])
    ensures lines == KeepThrough(NormaliseLines(raw), HasReference, LineBudget)
  {
    var all := NormaliseLines(raw);
    var r := KeepThrough(all, HasReference, LineBudget);
    assert forall i :: 0 <= i < |r| ==> r[i] == all[i];
    r
  }

  /** Running the pipeline on its own output, joined by newlines, changes
      nothing. */
  lemma {:induction false} ProcessTextIdempotent(raw: string)
    ensures ProcessText(Join(ProcessText(raw), "\n")) == ProcessText(raw)
  {
    var lines := ProcessText(raw);
    if |lines| == 0 {
      assert Join(lines, "\n") == "";
      assert SplitLineRuns("") == [""];
      assert CleanLine("") == "";
      assert CleanLines([""]) == [];
    } else {
      assert forall i, j :: 0 <= i < |lines| && 0 <= j < |lines[i]| ==> !IsLineBreak(lines[i][j]) by {
        forall i, j | 0 <= i < |lines| && 0 <= j < |lines[i]|
          ensures !IsLineBreak(lines[i][j])
        {
          assert IsCleanLine(lines[i]);
          assert IsPrintable(lines[i][j]);
        }
      }
      SplitLineRunsOfJoin(lines);
      CleanLinesUnchanged(lines);
      assert NormaliseLines(Join(lines, "\n")) == lines;
      KeepThroughIdempotent(NormaliseLines(raw), HasReference, LineBudget);
    }
  }

  // ---------------------------------------------------------------------
  // the handler

  /** The response the handler sends, as a function of the request. */
  function Respond(libs: Libraries, req: Request): (r: Response)
    ensures r.status == 405 <==> req.httpMethod != "POST"
    ensures r.status in {200, 400, 405, 500}
    ensures r.status == 200 ==>
      && r.reply.ExtractedText?
      && (r.reply.text == "" || forall l :: l in Split(r.reply.text, '\n') ==> IsCleanLine(l))
    ensures r.status == 200 <==>
      && Admit(libs, req).Admitted?
      && TempFileHolds(libs, Admit(libs, req))
      && Extract(libs, Admit(libs, req).mimeType, Admit(libs, req).data).Some?
    ensures r.status == 200 ==>
      r.reply.text == Join(ProcessText(Extract(libs, Admit(libs, req).mimeType, Admit(libs, req).data).value), "\n")
    ensures Admit(libs, req).Admitted? && !TempFileHolds(libs, Admit(libs, req)) ==>
      r == Response(500, ErrorMessage("Error processing file"))
    ensures Admit(libs, req).Admitted? && TempFileHolds(libs, Admit(libs, req))
            && Admit(libs, req).mimeType !in ExtractorTypes ==>
      r == Response(200, ExtractedText(""))
  {
    match Admit(libs, req)
    case Rejected(status, error) => Response(status, ErrorMessage(error))
    case Admitted(mimeType, data, tempName) =>
      if tempName.Some? && !libs.storeTemp(tempName.value, data) then
        Response(500, ErrorMessage("Error processing file"))
      else
      match Extract(libs, mimeType, data)
      case None => Response(500, ErrorMessage("Error processing file"))
      case Some(raw) =>
        var lines := ProcessText(raw);
        var text := Join(lines, "\n");
        assert text == "" || forall l :: l in Split(text, '\n') ==> IsCleanLine(l) by {
          if |lines| > 0 {
            assert forall i :: 0 <= i < |lines| ==> '\n' !in lines[i] by {
              forall i | 0 <= i < |lines| ensures '\n' !in lines[i] {
                assert IsCleanLine(lines[i]);
              }
            }
            SplitOfJoin(lines, '\n');
          }
        }
        assert raw == "" ==> lines == [] by {
          if raw == "" {
            assert SplitLineRuns("") == [""];
            assert CleanLine("") == "";
          }
        }
        Response(200, ExtractedText(text))
  }

  /** The handler: gate the request, extract, run the line pipeline. */
  method Handle(libs: Libraries, req: Request) returns (resp: Response)
    ensures resp == Respond(libs, req)
  {
    var admission := Admit(libs, req);
    if admission.Rejected? {
      return Response(admission.status, ErrorMessage(admission.error));
    }
    if !TempFileHolds(libs, admission) {
      return Response(500, ErrorMessage("Error processing file"));
    }
    var extracted := Extract(libs, admission.mimeType, admission.data);
    if extracted.None? {
      return Response(500, ErrorMessage("Error processing file"));
    }
    var lines := NormaliseLines(extracted.value);
    lines := CutAtReference(lines);
    resp := Response(200, ExtractedText(Join(lines, "\n")));
  }

  /** An upload and a JSON payload that carry the same MIME type and the same
      bytes get the same response: both paths share one extractor dispatch and
      one line pipeline. */
  lemma UploadAndJsonAgree(libs: Libraries, upload: Request, json: Request, data: string)
    requires upload.httpMethod == "POST" && IsMultipart(upload)
    requires json.httpMethod == "POST" && !IsMultipart(json)
    requires libs.parseForm(upload.body).Parsed? && libs.parseForm(upload.body).file.Some?
    requires libs.parseForm(upload.body).file.value.mimetype in UploadAllowList
    requires libs.parseJson(json.body).Some?
    requires libs.parseJson(json.body).value.fileData == Some(data) && data != ""
    requires libs.parseJson(json.body).value.mimeType == Some(libs.parseForm(upload.body).file.value.mimetype)
    requires libs.decodeBase64(data) == libs.parseForm(upload.body).file.value.content
    requires libs.storeTemp(TempFileName(libs.parseJson(json.body).value), libs.decodeBase64(data))
    ensures Respond(libs, upload) == Respond(libs, json)
  {
    var m := libs.parseForm(upload.body).file.value.mimetype;
    assert m != "";
    var a, b := Admit(libs, upload), Admit(libs, json);
    assert a.mimeType == b.mimeType && a.data == b.data;
    assert TempFileHolds(libs, a) && TempFileHolds(libs, b);
  }
}
