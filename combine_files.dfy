/** The document-combining endpoint (pages/api/combine-files.js).

    A POST request carries the extracted files and the search query. The
    handler lays out one document: three banner paragraphs (query, file
    count, date and time), a rule of 46 horizontal bars, then for each file
    in order a heading with its name, one paragraph per newline-separated
    line of its text (an empty line becomes a single space) and an empty
    spacer paragraph. The document is sent as an attachment named after the
    sanitised query, the date and the time.

    The document is modelled as its sequence of paragraphs; the docx packer
    is not modelled. The clock readings and the message of the TypeError
    raised on a missing query or text are inputs, in an Environment value. */
module CombineFiles {
  import opened Wrappers
  import opened Strings

  /** One element of the `files` array. None stands for an extractedText
      that is undefined or null. */
  datatype FileInput = FileInput(fileName: string, extractedText: Option<string>)

  /** The request; `files` is None when it is missing or not an array. */
  datatype Request = Request(httpMethod: string, files: Option<seq<FileInput>>, query: Option<string>)

  /** Date.toLocaleDateString, toLocaleTimeString, toISOString, toTimeString,
      and the message of the TypeError thrown by a property access on an
      undefined value. */
  /** The two places the handler can throw a TypeError: splitting the text of
      a file that has none, and building the file name from a missing query. */
  datatype TypeErrorSite = SplitOfMissingText | ReplaceOfMissingQuery

  /** The clock readings the handler formats, and the message the runtime
      gives each TypeError. */
  datatype Environment = Environment(
    localDate: string, localTime: string, isoString: string, timeString: string,
    typeError: TypeErrorSite -> string)

  datatype Kind = QueryBanner | CountBanner | DateBanner | Rule | FileHeading | TextLine | Spacer

  datatype Paragraph = Paragraph(kind: Kind, text: string)

  datatype Response =
    | Attachment(fileName: string, paragraphs: seq<Paragraph>)
    | JsonError(status: int, error: string)

  const RuleLength := 46

  /** The separator text: '―' (U+2015) repeated 46 times. */
  function RuleText(): (r: string)
    ensures |r| == RuleLength
    ensures forall i :: 0 <= i < |r| ==> r[i] == '\U{2015}'
  {
    seq(RuleLength, i => '\U{2015}')
  }

  /** Characters kept as they are in a file name. */
  const MaxQueryChars := 30

  // ---------------------------------------------------------------------
  // layout

  /** `query || 'N/A'` */
  function QueryLabel(query: Option<string>): string {
    if query.Some? && query.value != "" then query.value else "N/A"
  }

  /** The four paragraphs that open the document. */
  function Banner(count: nat, query: Option<string>, env: Environment): (b: seq<Paragraph>)
    ensures |b| == 4
  {
    [ Paragraph(QueryBanner, "Search Query: " + QueryLabel(query)),
      Paragraph(CountBanner, "Total Files: " + NatToString(count)),
      Paragraph(DateBanner, "Date: " + env.localDate + " | Time: " + env.localTime),
      Paragraph(Rule, RuleText()) ]
  }

  /** What the banner says: the query, or "N/A" when it is missing or
      empty; the file count in decimal; the local date and time; the rule. */
  lemma BannerContents(count: nat, query: Option<string>, env: Environment)
    ensures var b := Banner(count, query, env);
      && b[0].kind == QueryBanner && |b[0].text| >= 14 && b[0].text[..14] == "Search Query: "
      && (query.Some? && query.value != "" ==> b[0].text[14..] == query.value)
      && (!(query.Some? && query.value != "") ==> b[0].text[14..] == "N/A")
      && b[1].kind == CountBanner && |b[1].text| > 13 && b[1].text[..13] == "Total Files: "
      && (forall i :: 13 <= i < |b[1].text| ==> IsAsciiDigit(b[1].text[i]))
      && DigitsValue(b[1].text[13..]) == count
      && b[2] == Paragraph(DateBanner, "Date: " + env.localDate + " | Time: " + env.localTime)
      && b[3].kind == Rule && b[3].text == RuleText()
  {
    var b := Banner(count, query, env);
    NatToStringValue(count);
    assert b[1].text[13..] == NatToString(count);
  }

  /** The paragraph for one line of a file's text: `line || ' '`. */
  function LineParagraph(line: string): Paragraph {
    Paragraph(TextLine, if line == "" then " " else line)
  }

  function LineParagraphs(lines: seq<string>): (ps: seq<Paragraph>)
    ensures |ps| == |lines|
    ensures forall m :: 0 <= m < |lines| ==> ps[m] == LineParagraph(lines[m])
  {
    seq(|lines|, m requires 0 <= m < |lines| => LineParagraph(lines[m]))
  }

  /** How a text is cut into lines. */
  type LineCut = string -> seq<string>

  /** `text.split('\n')`, the cut the handler uses. */
  function NewlineCut(text: string): seq<string> {
    Split(text, '\n')
  }

  /** The lines of a file's text. */
  function TextLines(f: FileInput): seq<string>
    requires f.extractedText.Some?
  {
    NewlineCut(f.extractedText.value)
  }

  /** Heading, lines, spacer. */
  function Section(f: FileInput, cut: LineCut): seq<Paragraph>
    requires f.extractedText.Some?
  {
    [Paragraph(FileHeading, f.fileName)] + LineParagraphs(cut(f.extractedText.value)) + [Paragraph(Spacer, "")]
  }

  predicate AllHaveText(files: seq<FileInput>) {
    forall i :: 0 <= i < |files| ==> files[i].extractedText.Some?
  }

  /** The sections of all files in order; None when some file has no text,
      which makes the handler throw. */
  function Sections(files: seq<FileInput>, cut: LineCut): (r: Option<seq<Paragraph>>)
    ensures r.Some? <==> AllHaveText(files)
    decreases |files|
  {
    if |files| == 0 then Some([])
    else
      var init := files[..|files| - 1];
      var last := files[|files| - 1];
      assert forall i :: 0 <= i < |init| ==> init[i] == files[i];
      match Sections(init, cut)
      case None => None
      case Some(ps) =>
        if last.extractedText.None? then None else Some(ps + Section(last, cut))
  }

  /** The number of paragraphs the files contribute: Σ (lines + 2). */
  function SectionsSize(files: seq<FileInput>, cut: LineCut): nat
    requires AllHaveText(files)
    decreases |files|
  {
    if |files| == 0 then 0
    else SectionsSize(files[..|files| - 1], cut) + |cut(files[|files| - 1].extractedText.value)| + 2
  }

  /** The whole document, or None when the handler throws while laying out. */
  function Layout(files: seq<FileInput>, query: Option<string>, env: Environment): (r: Option<seq<Paragraph>>)
    ensures r.Some? <==> AllHaveText(files)
    ensures r.Some? ==> |r.value| >= 4 && r.value[..4] == Banner(|files|, query, env)
  {
    match Sections(files, NewlineCut)
    case None => None
    case Some(ps) => Some(Banner(|files|, query, env) + ps)
  }

  /** The layout as the handler builds it: the banner pushed first, then the
      loop over the files. */
  method BuildParagraphs(files: seq<FileInput>, query: Option<string>, env: Environment)
    returns (result: Option<seq<Paragraph>>)
    ensures result == Layout(files, query, env)
  {
    var children := Banner(|files|, query, env);
    result := PushSections(children, files, NewlineCut);
  }

  /** The loop over the files: for each, its heading, the loop over its lines
      and its spacer; a file without text makes the handler throw. */
  method PushSections(children: seq<Paragraph>, files: seq<FileInput>, cut: LineCut)
    returns (result: Option<seq<Paragraph>>)
    ensures AllHaveText(files) ==> result == Some(children + Sections(files, cut).value)
    ensures !AllHaveText(files) ==> result == None
  {
    var pushed := children;
    assert files[..0] == [];
    ghost var laidOut: seq<Paragraph> := [];
    for fi := 0 to |files|
      invariant Sections(files[..fi], cut) == Some(laidOut)
      invariant pushed == children + laidOut
    {
      var file := files[fi];
      pushed := pushed + [Paragraph(FileHeading, file.fileName)];
      if file.extractedText.None? {
        assert !AllHaveText(files);
        return None;
      }
      var lines := cut(file.extractedText.value);
      pushed := PushLines(pushed, lines);
      pushed := pushed + [Paragraph(Spacer, "")];
      SectionPushed(children, laidOut, file, cut, pushed);
      SectionsStep(files, cut, fi);
      laidOut := laidOut + Section(file, cut);
    }
    assert files[..|files|] == files;
    return Some(pushed);
  }

  /** The inner loop: one paragraph per line, `line || ' '`, pushed in order. */
  method PushLines(children: seq<Paragraph>, lines: seq<string>) returns (pushed: seq<Paragraph>)
    ensures pushed == children + LineParagraphs(lines)
  {
    pushed := children;
    for li := 0 to |lines|
      invariant pushed == children + LineParagraphs(lines[..li])
    {
      var line := lines[li];
      LineParagraphsStep(lines, li);
      pushed := pushed + [Paragraph(TextLine, if line == "" then " " else line)];
    }
    assert lines[..|lines|] == lines;
  }

  /** The pushes for one file append that file's section. */
  lemma SectionPushed(children: seq<Paragraph>, laidOut: seq<Paragraph>, f: FileInput, cut: LineCut,
                       pushed: seq<Paragraph>)
    requires f.extractedText.Some?
    requires pushed == children + laidOut + [Paragraph(FileHeading, f.fileName)]
      + LineParagraphs(cut(f.extractedText.value)) + [Paragraph(Spacer, "")]
    ensures pushed == children + (laidOut + Section(f, cut))
  {
  }

  lemma LineParagraphsStep(lines: seq<string>, li: nat)
    requires li < |lines|
    ensures LineParagraphs(lines[..li + 1]) == LineParagraphs(lines[..li]) + [LineParagraph(lines[li])]
  {
    assert lines[..li + 1] == lines[..li] + [lines[li]];
  }

  /** One more file with a text appends exactly that file's section. */
  lemma SectionsStep(files: seq<FileInput>, cut: LineCut, k: nat)
    requires k < |files| && files[k].extractedText.Some? && Sections(files[..k], cut).Some?
    ensures Sections(files[..k + 1], cut) == Some(Sections(files[..k], cut).value + Section(files[k], cut))
  {
    var p := files[..k + 1];
    assert p[..|p| - 1] == files[..k];
  }

  /** Laying out a prefix of the files gives a prefix of the sections. */
  lemma SectionsPrefix(files: seq<FileInput>, cut: LineCut, k: nat)
    requires AllHaveText(files) && k < |files|
    ensures Sections(files[..k], cut).Some? && Sections(files[..k + 1], cut).Some?
    ensures Sections(files[..k + 1], cut).value == Sections(files[..k], cut).value + Section(files[k], cut)
  {
    assert forall i :: 0 <= i < k ==> files[..k][i] == files[i];
    SectionsStep(files, cut, k);
  }

  lemma {:induction false} SectionsPrefixOf(files: seq<FileInput>, cut: LineCut, k: nat)
    requires AllHaveText(files) && k <= |files|
    ensures Sections(files[..k], cut).Some?
    ensures Sections(files[..k], cut).value <= Sections(files, cut).value
    decreases |files| - k
  {
    assert forall i :: 0 <= i < k ==> files[..k][i] == files[i];
    if k < |files| {
      SectionsPrefix(files, cut, k);
      SectionsPrefixOf(files, cut, k + 1);
    } else {
      assert files[..k] == files;
    }
  }

  lemma {:induction false} SectionsSizeIsLength(files: seq<FileInput>, cut: LineCut)
    requires AllHaveText(files)
    ensures |Sections(files, cut).value| == SectionsSize(files, cut)
    decreases |files|
  {
    if |files| > 0 {
      var init := files[..|files| - 1];
      assert forall i :: 0 <= i < |init| ==> init[i] == files[i];
      SectionsSizeIsLength(init, cut);
    }
  }

  /** The document has 4 + Σ (lines + 2) paragraphs. */
  lemma LayoutSize(files: seq<FileInput>, query: Option<string>, env: Environment)
    requires AllHaveText(files)
    ensures |Layout(files, query, env).value| == 4 + SectionsSize(files, NewlineCut)
  {
    SectionsSizeIsLength(files, NewlineCut);
  }

  /** Where file k's section sits: after the banner and the sections of the
      files before it, its heading, then its lines in order, then its spacer. */
  lemma SectionPosition(files: seq<FileInput>, query: Option<string>, env: Environment, k: nat)
    requires AllHaveText(files) && k < |files|
    ensures
      var doc := Layout(files, query, env).value;
      var o := 4 + SectionsSize(files[..k], NewlineCut);
      var lines := TextLines(files[k]);
      && o + |lines| + 2 <= |doc|
      && doc[o] == Paragraph(FileHeading, files[k].fileName)
      && (forall m :: 0 <= m < |lines| ==> doc[o + 1 + m] == LineParagraph(lines[m]))
      && doc[o + |lines| + 1] == Paragraph(Spacer, "")
  {
    var doc := Layout(files, query, env).value;
    var sec := Section(files[k], NewlineCut);
    var o := SectionOffset(files, query, env, k);
    SectionPositionLines(files[k], sec, doc, o);
  }

  /** File k's section occupies doc[o..o + |section|], o being 4 plus the
      sizes of the sections before it. */
  lemma SectionOffset(files: seq<FileInput>, query: Option<string>, env: Environment, k: nat)
    returns (o: nat)
    requires AllHaveText(files) && k < |files|
    ensures o == 4 + SectionsSize(files[..k], NewlineCut)
    ensures o + |Section(files[k], NewlineCut)| <= |Layout(files, query, env).value|
    ensures forall j :: 0 <= j < |Section(files[k], NewlineCut)| ==>
      Layout(files, query, env).value[o + j] == Section(files[k], NewlineCut)[j]
  {
    assert forall i :: 0 <= i < k ==> files[..k][i] == files[i];
    SectionsPrefix(files, NewlineCut, k);
    SectionsPrefixOf(files, NewlineCut, k + 1);
    SectionsSizeIsLength(files[..k], NewlineCut);
    var before := Sections(files[..k], NewlineCut).value;
    var sec := Section(files[k], NewlineCut);
    var all := Sections(files, NewlineCut).value;
    var banner := Banner(|files|, query, env);
    assert Layout(files, query, env).value == banner + all;
    PlacedAfter(banner, before, sec, all);
    o := 4 + |before|;
  }

  /** A run that follows a prefix of the body sits right after that prefix
      in banner + body. */
  lemma PlacedAfter(banner: seq<Paragraph>, before: seq<Paragraph>, sec: seq<Paragraph>, body: seq<Paragraph>)
    requires before + sec <= body
    ensures |banner| + |before| + |sec| <= |banner + body|
    ensures forall j :: 0 <= j < |sec| ==> (banner + body)[|banner| + |before| + j] == sec[j]
  {
    forall j | 0 <= j < |sec|
      ensures (banner + body)[|banner| + |before| + j] == sec[j]
    {
      assert body[|before| + j] == (before + sec)[|before| + j];
    }
  }

  lemma SectionPositionLines(f: FileInput, sec: seq<Paragraph>, doc: seq<Paragraph>, o: nat)
    requires f.extractedText.Some? && sec == Section(f, NewlineCut)
    requires o + |sec| <= |doc|
    requires forall j :: 0 <= j < |sec| ==> doc[o + j] == sec[j]
    ensures o + |TextLines(f)| + 2 <= |doc|
    ensures doc[o] == Paragraph(FileHeading, f.fileName)
    ensures forall m :: 0 <= m < |TextLines(f)| ==> doc[o + 1 + m] == LineParagraph(TextLines(f)[m])
    ensures doc[o + |TextLines(f)| + 1] == Paragraph(Spacer, "")
  {
    var lines := TextLines(f);
    assert doc[o] == sec[0];
    assert doc[o + |lines| + 1] == sec[|lines| + 1];
    forall m | 0 <= m < |lines|
      ensures doc[o + 1 + m] == LineParagraph(lines[m])
    {
      assert doc[o + 1 + m] == sec[1 + m];
    }
  }

  /** No line paragraph is empty, and a non-empty line is kept as it is. */
  lemma LineParagraphText(line: string)
    ensures LineParagraph(line).text != ""
    ensures line != "" ==> LineParagraph(line).text == line
  {
  }

  // ---------------------------------------------------------------------
  // file name

  predicate IsNameChar(c: char) {
    IsAsciiAlnum(c) || c == '_'
  }

  /** query.replace(/[^a-z0-9]/gi, '_').substring(0, 30) */
  function SanitiseQuery(query: string): (r: string)
    ensures |r| == Min(|query|, MaxQueryChars)
    ensures forall i :: 0 <= i < |r| ==> IsNameChar(r[i])
    ensures forall i :: 0 <= i < |r| ==> (IsAsciiAlnum(query[i]) ==> r[i] == query[i])
    ensures forall i :: 0 <= i < |r| ==> (!IsAsciiAlnum(query[i]) ==> r[i] == '_')
  {
    var replaced := seq(|query|, i requires 0 <= i < |query| => if IsAsciiAlnum(query[i]) then query[i] else '_');
    replaced[..Min(|query|, MaxQueryChars)]
  }

  /** Sanitising leaves a query alone exactly when it is already made of name
      characters and short enough. */
  lemma SanitiseFixedPoints(query: string)
    ensures SanitiseQuery(query) == query <==>
      |query| <= MaxQueryChars && forall i :: 0 <= i < |query| ==> IsNameChar(query[i])
  {
    var r := SanitiseQuery(query);
    if |query| <= MaxQueryChars && forall i :: 0 <= i < |query| ==> IsNameChar(query[i]) {
      assert forall i :: 0 <= i < |r| ==> r[i] == query[i];
    }
  }

  /** Sanitising twice is sanitising once. */
  lemma SanitiseIdempotent(query: string)
    ensures SanitiseQuery(SanitiseQuery(query)) == SanitiseQuery(query)
  {
    SanitiseFixedPoints(SanitiseQuery(query));
  }

  /** `${sanitizedQuery}_${date}_${time}.docx` with the date taken before the
      'T' of the ISO timestamp and the time before the first space of
      toTimeString, its colons turned into dashes. */
  function OutputFileName(query: string, env: Environment): (name: string)
    ensures name == SanitiseQuery(query) + "_" + Split(env.isoString, 'T')[0] + "_"
                    + ReplaceChar(Split(env.timeString, ' ')[0], ':', '-') + ".docx"
    ensures StartsWith(name, SanitiseQuery(query) + "_")
    ensures EndsWith(name, ".docx")
    ensures ':' !in Split(env.isoString, 'T')[0] ==> ':' !in name
    ensures ' ' !in Split(env.isoString, 'T')[0] ==> ' ' !in name
  {
    var date := Split(env.isoString, 'T')[0];
    var time := ReplaceChar(Split(env.timeString, ' ')[0], ':', '-');
    var san := SanitiseQuery(query);
    var name := san + "_" + date + "_" + time + ".docx";
    assert name[..|san| + 1] == san + "_";
    assert name[|name| - 5..] == ".docx";
    forall i | 0 <= i < |san|
      ensures san[i] != ':' && san[i] != ' '
    {
      assert IsNameChar(san[i]);
    }
    var piece := Split(env.timeString, ' ')[0];
    forall i | 0 <= i < |time|
      ensures time[i] != ':' && time[i] != ' '
    {
      assert time[i] == '-' || time[i] == piece[i];
      assert piece[i] in piece;
    }
    assert ':' !in san && ' ' !in san && ':' !in time && ' ' !in time;
    assert ':' !in "_" && ' ' !in "_" && ':' !in ".docx" && ' ' !in ".docx";
    name
  }

  // ---------------------------------------------------------------------
  // the handler

  /** The response the handler sends. */
  function Respond(req: Request, env: Environment): (r: Response)
    ensures (r.JsonError? && r.status == 405) <==> req.httpMethod != "POST"
    ensures req.httpMethod == "POST" && (req.files.None? || req.files.value == []) ==>
      r == JsonError(400, "No files provided")
    ensures r.Attachment? <==>
      && req.httpMethod == "POST" && req.files.Some? && req.files.value != []
      && AllHaveText(req.files.value) && req.query.Some?
    ensures r.Attachment? ==>
      && Layout(req.files.value, req.query, env) == Some(r.paragraphs)
      && r.fileName == OutputFileName(req.query.value, env)
    ensures r.JsonError? && r.status != 405 && r.status != 400 ==>
      r.status == 500 && StartsWith(r.error, "Error combining files: ")
    ensures req.httpMethod == "POST" && req.files.Some? && req.files.value != [] && !AllHaveText(req.files.value) ==>
      r == JsonError(500, "Error combining files: " + env.typeError(SplitOfMissingText))
    ensures req.httpMethod == "POST" && req.files.Some? && req.files.value != [] && AllHaveText(req.files.value)
            && req.query.None? ==>
      r == JsonError(500, "Error combining files: " + env.typeError(ReplaceOfMissingQuery))
  {
    if req.httpMethod != "POST" then JsonError(405, "Method not allowed")
    else if req.files.None? || req.files.value == [] then JsonError(400, "No files provided")
    else
      var files := req.files.value;
      match Layout(files, req.query, env)
      case None => JsonError(500, "Error combining files: " + env.typeError(SplitOfMissingText))
      case Some(paragraphs) =>
        if req.query.None? then JsonError(500, "Error combining files: " + env.typeError(ReplaceOfMissingQuery))
        else Attachment(OutputFileName(req.query.value, env), paragraphs)
  }

  /** The handler. */
  method Combine(req: Request, env: Environment) returns (resp: Response)
    ensures resp == Respond(req, env)
  {
    if req.httpMethod != "POST" {
      return JsonError(405, "Method not allowed");
    }
    if req.files.None? || |req.files.value| == 0 {
      return JsonError(400, "No files provided");
    }
    var children := BuildParagraphs(req.files.value, req.query, env);
    if children.None? {
      return JsonError(500, "Error combining files: " + env.typeError(SplitOfMissingText));
    }
    if req.query.None? {
      return JsonError(500, "Error combining files: " + env.typeError(ReplaceOfMissingQuery));
    }
    var fileName := OutputFileName(req.query.value, env);
    resp := Attachment(fileName, children.value);
  }

  /** A missing query still renders "N/A" in the banner, but the file name
      cannot be built from it, so no document is sent. */
  lemma MissingQueryFails(files: seq<FileInput>, env: Environment)
    requires files != [] && AllHaveText(files)
    ensures Layout(files, None, env).value[0] == Paragraph(QueryBanner, "Search Query: N/A")
    ensures Respond(Request("POST", Some(files), None), env)
            == JsonError(500, "Error combining files: " + env.typeError(ReplaceOfMissingQuery))
  {
  }
}
