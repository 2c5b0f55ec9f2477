# Metatech report generation — search, extract, combine

This project models the core of a small Next.js application that builds a
report out of documents kept in Google Drive. A user types a query on the
Drive search screen (`components/GoogleDriveSearch.js`). The screen:

- checks the query;
- walks the folder tree below the current folder breadth-first;
- sends one Drive query with a MIME-type filter and shows the files found.

On request, the screen then makes one document from the first ten results.
For each result it gets the text, either the text the result already
carries or text extracted through the text-extraction endpoint
(`pages/api/extract-text.js`). Long content is truncated, and the batch is
sent to the combining endpoint (`pages/api/combine-files.js`). That
endpoint lays out a Word document and names it after the sanitised query.

The model is split into modules:

| module | file | what it holds |
|---|---|---|
| `Wrappers` | `wrappers.dfy` | `Option` and `Result` |
| `Strings` | `strings.dfy` | JavaScript string semantics the source relies on: `split` on a character and on `/[\r\n]+/`, `join`, `trim`, the class `\s`, ASCII case mapping, number formatting, and the cut "through the first marked line, else the first N lines" |
| `MimeTypes` | `mime_types.dfy` | the MIME type names |
| `DriveSearch` | `drive_search.dfy` | query validation, the file-type filter, quote escaping, the Drive query expression, the sub-folder walk, the retry rule for expired tokens, the no-results message |
| `SearchPanel` | `search_panel.dfy` | the screen's state as a class `Panel`, with `searchFiles` and `processAndCreateDoc` as methods that update it |
| `FileContent` | `file_content.dfy` | `extractContentFromFile` with its fallbacks, the fallback banner, the ten-file batch and the 10000-character truncation |
| `DocHeuristics` | `doc_heuristics.dfy` | `isLikelyValidDoc`, `extractUntilMarker`, `extractUntilReference`, and the loop that picks the most readable decoding |
| `DocCleanup` | `doc_cleanup.dfy` | `cleanDocContent`, one function per replacement |
| `ExtractText` | `extract_text.dfy` | the extraction endpoint: request gating, the MIME dispatch, the line pipeline, the REFERENCE / 23-line cut |
| `CombineFiles` | `combine_files.dfy` | the combining endpoint: validation, the paragraph sequence, the file name |

How the outside world is modelled:

- Drive, the HTTP endpoints and the third-party libraries are passed in as
  functions. These include formidable, JSON.parse, base64, TextDecoder,
  pdf-parse, mammoth, libreoffice-convert and word-extractor.
- A call that can throw returns a `Result` or an `Option`.
- Clock and locale readings are an `Environment` value.

A `Panel` also keeps `sentSearches`, the list of Drive query expressions it
has sent. With it, a contract can say that a refused query sends nothing.

## Model

| member | source | states |
|---|---|---|
| Strings.SplitLineRunsOfJoin | pages/api/extract-text.js:194 | splitting on runs of line breaks undoes joining non-empty, break-free lines with "\n" |
| Strings.CollapseSpaces | pages/api/extract-text.js:198 | `replace(/\s+/g, ' ')`: the result is empty exactly when the input is, keeps whether it starts with white space, has no two white-space characters in a row, every white-space character left is a plain space, and it keeps every visible character of the input, in order |
| Strings.CollapseSpacesIsSqueeze | pages/api/extract-text.js:198 | the result equals a one-pass reference that writes one space for each run of white space and copies every other character |
| Strings.CollapseExample | pages/api/extract-text.js:198 | " a \t b" becomes " a b" |
| Strings.Trim | components/GoogleDriveSearch.js:184-190 | `trim()`: the result is the slice of the input that starts after the leading white space, and everything cut off at either end is white space; the result has no white space at either end, and it is empty exactly when the input is all white space |
| Strings.TrimKeepsVisible | pages/api/extract-text.js:199 | trimming drops no visible character |
| Strings.SplitLineRunsVisible | pages/api/extract-text.js:194 | splitting on runs of line breaks loses no visible character and adds none: the pieces' visible characters, in order, are the text's |
| Strings.SplitHead | pages/api/combine-files.js:131 | the first piece of `split(c)` is the text before the first `c`, or all of it when there is none |
| Strings.KeepThrough | pages/api/extract-text.js:202-216 | the result is a prefix of the lines; it ends at the first marked line when there is one, and otherwise it is the first `budget` lines |
| Strings.KeepThroughBound | pages/api/extract-text.js:202-216 | the cut keeps at most `budget` lines, unless its last line is the first marked one |
| Strings.KeepThroughIdempotent | pages/api/extract-text.js:202-216 | cutting again what was cut changes nothing |
| Strings.NatToStringValue | components/GoogleDriveSearch.js:533 | the decimal digits written for a number read back as that number |
| DriveSearch.QueryProblem | components/GoogleDriveSearch.js:182-199 | a query is accepted exactly when its trimmed length is at least 3 and it has an ASCII letter or digit; the empty-query message is given exactly for an all-white-space query; a trimmed length of 1 or 2 gives the too-short message; a long enough query with no letter or digit gives the no-alphanumeric message |
| DriveSearch.AlnumSurvivesTrim | components/GoogleDriveSearch.js:190-196 | testing the untrimmed query for a letter or digit is the same as testing the trimmed one |
| DriveSearch.QueryExamples | components/GoogleDriveSearch.js:184-199 | "ab", "a1" and "  a1  " are too short, "!!!" has no letter or digit, "ab1" is accepted |
| DriveSearch.FileTypeFilterAsWritten | components/GoogleDriveSearch.js:214-227 | the empty choice filters nothing; "other" excludes exactly the three types written in the source (not the sheet and slide types the choice list offers); any other choice keeps exactly that type |
| DriveSearch.FileTypeFilter | components/GoogleDriveSearch.js:214-227 | a file passes exactly when the choice is empty, or the choice is "other" and the file is none of the three document types, or the file has the chosen type |
| DriveSearch.SelectionClause | components/GoogleDriveSearch.js:214-227 | a specific choice appends `and mimeType='<choice>'`, the empty choice appends nothing, and only "other" differs from the source's clause |
| DriveSearch.OtherAdmitsDocxAsWritten | components/GoogleDriveSearch.js:216-221 | as written, a .docx file passes both the "other" filter and the .docx filter |
| DriveSearch.OtherDisjointFromDocumentChoices | components/GoogleDriveSearch.js:216-223 | with the corrected list, no file passes both "other" and one of the document-type choices |
| DriveSearch.EscapeQuotes | components/GoogleDriveSearch.js:229 | every quote of the result has a backslash before it |
| DriveSearch.UnescapeEscape | components/GoogleDriveSearch.js:229 | dropping the added backslashes gives back the query, so escaping loses nothing |
| DriveSearch.SearchExpression | components/GoogleDriveSearch.js:229-236 | the Drive query expression: not a folder, not trashed, a parent among the folder ids joined with `','`, the escaped query in the name or the full text, then the file-type clause |
| DriveSearch.WalkLevels | components/GoogleDriveSearch.js:155-170 | each level of the walk is the non-empty listing of the sub-folders of the level before it, starting from the seeds |
| DriveSearch.WalkEnd | components/GoogleDriveSearch.js:155-178 | the walk stops at the first frontier whose listing fails, giving that error, or whose listing is empty |
| DriveSearch.GatherWalk | components/GoogleDriveSearch.js:152-179 | the loop's accumulation equals the ids gathered so far, then the walk's levels in order, ending with the walk's error |
| DriveSearch.FetchAllSubfolders | components/GoogleDriveSearch.js:152-179 | the method returns the seeds followed by every level of the walk, and the error that ended it |
| DriveSearch.AuthenticatedRequestAsWritten | components/GoogleDriveSearch.js:57-71 | one call; on a 401 and a truthy refreshed token, exactly one retry, and the retry carries the old token |
| DriveSearch.AuthenticatedRequest | components/GoogleDriveSearch.js:57-71 | the same retry rule, with the retry carrying the refreshed token |
| DriveSearch.StaleTokenRetry | components/GoogleDriveSearch.js:57-71 | when Drive accepts the new token and refuses the old one, the request as written still fails with the first error, and the corrected one succeeds |
| DriveSearch.FolderName | components/GoogleDriveSearch.js:247 | the name is that of the first folder with that id, or the fallback when that name is empty or no folder has the id |
| DriveSearch.ChoiceLabel | components/GoogleDriveSearch.js:251 | the label is that of the first choice with that value, or the fallback when that label is empty or no choice has the value |
| DriveSearch.NoResultsMessage | components/GoogleDriveSearch.js:244-255 | the message is `No results found for "<query>"`, then ` in <folder name>` when a folder is chosen, then ` with <type label>` when a type is chosen, then ". Please try different filters." |
| SearchPanel.SearchFolders | components/GoogleDriveSearch.js:209-212 | a chosen folder is searched alone; otherwise the current folder comes first, followed by the folders below it |
| SearchPanel.SearchError | components/GoogleDriveSearch.js:257-263 | a failed listing always shows an error; after a successful listing, an error is shown exactly when the folder walk failed |
| SearchPanel.RunSearch | components/GoogleDriveSearch.js:208-263 | the search gives the outcome of its specification: the listing's files, the no-results message, the error, and the expression sent, which carries the file-type clause as written |
| SearchPanel.Panel.SearchFiles | components/GoogleDriveSearch.js:182-265 | a refused query sets only the message and sends nothing; an accepted one sends exactly one expression and shows its outcome, with loading off and the last download cleared; the query and the processing flag never change |
| SearchPanel.Panel.StartSearch | components/GoogleDriveSearch.js:201-264 | the part after validation: one expression sent, its results, message and error shown, loading off |
| SearchPanel.Panel.ProcessAndCreateDoc | components/GoogleDriveSearch.js:746-838 | without results or a token nothing changes; otherwise processing ends off and the state shows the outcome: the error, or the downloaded document with no error; the search state is untouched |
| FileContent.SizeLabel | components/GoogleDriveSearch.js:533 | "Unknown" exactly when there is no size or it rounds to 0 KB; otherwise decimal digits of the size in KB, rounded half up |
| FileContent.FallbackContent | components/GoogleDriveSearch.js:529-536 | the banner is "[Document Information]", then the Name, Type, Size (in KB, or "Unknown") and Modified lines, then a blank line and the message |
| FileContent.ExtractContentFromFile | components/GoogleDriveSearch.js:367-505 | keeps the file name; a failed metadata request gives the bare error; otherwise the content is the fallback banner or the extracted text of a supported type; a .doc file never gives fewer than 50 characters of extracted text; an unsupported type gives the "not supported" banner; for a supported type the content is exactly the extracted text, except that a .doc text under 50 characters gives the limited-content banner; a failed extraction gives the banner with the .doc or the generic failure prefix and the error |
| FileContent.Truncate | components/GoogleDriveSearch.js:772 | content of at most 10000 characters is kept; longer content becomes its first 10000 characters and the truncation note |
| FileContent.TruncateIdempotent | components/GoogleDriveSearch.js:772 | truncating again changes nothing |
| FileContent.BatchEntry | components/GoogleDriveSearch.js:759-778 | the entry has the result's name and some text: the result's own text when it has one, otherwise the truncated extracted content |
| FileContent.BatchInputs | components/GoogleDriveSearch.js:754-783 | one entry for each of the first min(10, n) results, in order |
| FileContent.CollectBatch | components/GoogleDriveSearch.js:754-783 | the loop builds exactly the batch its specification describes |
| FileContent.BatchHasText | components/GoogleDriveSearch.js:762-777 | every entry of a batch has text, so the combining endpoint never meets a missing text |
| FileContent.CreateDocument | components/GoogleDriveSearch.js:746-803 | nothing is started exactly when there are no results or no token |
| FileContent.CreateDocumentSucceeds | components/GoogleDriveSearch.js:746-803 | with results and a token, the document is always made: its paragraphs are the layout of the batch under the query, and its name is the endpoint's file name; the "no content" error is unreachable |
| DocHeuristics.HeaderMatch | components/GoogleDriveSearch.js:654-664 | matching a signature against the 8-byte header is the same as the signature being a prefix of the buffer |
| DocHeuristics.IsLikelyValidDoc | components/GoogleDriveSearch.js:651-665 | true exactly when there is a buffer of at least 8 bytes that starts with one of the three Word signatures |
| DocHeuristics.SignatureExamples | components/GoogleDriveSearch.js:651-665 | 7 bytes of the OLE signature are refused, an old Word header is accepted, and a PDF header is refused |
| DocHeuristics.MarkerCut | components/GoogleDriveSearch.js:691-713 | with no marker or no text, the first `defaultLineCount` lines; otherwise through three lines after the first line that mentions the marker (ignoring case), or the first `defaultLineCount` lines when none does |
| DocHeuristics.ExtractUntilMarker | components/GoogleDriveSearch.js:691-713 | the result is a prefix of the text whose lines are the first lines of the text, as many as the cut says; a cut of no lines gives the empty text |
| DocHeuristics.ExtractUntilReference | components/GoogleDriveSearch.js:667-688 | the loop returns what its specification says |
| DocHeuristics.UntilReferenceKeepsLines | components/GoogleDriveSearch.js:667-688 | the result is a prefix of the text whose lines are the cut of its lines through the first "reference" line, or else the first 100; more than 100 lines are kept only when the last one mentions "reference" |
| DocHeuristics.ReadableCount | components/GoogleDriveSearch.js:311 | the count of readable characters is at most the length |
| DocHeuristics.BestDecodingUnique | components/GoogleDriveSearch.js:305-320 | at most one decoding is the best one |
| DocHeuristics.Decodings | components/GoogleDriveSearch.js:301-308 | one decoding per encoding |
| DocHeuristics.ChooseDecoding | components/GoogleDriveSearch.js:300-324 | null exactly when no decoding has a readable character; otherwise the best decoding, the earliest on a tie |
| DocCleanup.UnifyBreaks | components/GoogleDriveSearch.js:518-519 | no carriage return is left |
| DocCleanup.DropControls | components/GoogleDriveSearch.js:520 | none of the removed control characters is left, and no carriage return is brought back |
| DocCleanup.TabsToSpace | components/GoogleDriveSearch.js:521 | after the earlier steps, the text holds only tidy characters: no CR, no removed control and no tab |
| DocCleanup.StripAsWrittenTidy | components/GoogleDriveSearch.js:522 | the `\s+\n` step as written keeps the text tidy |
| DocCleanup.StripAsWrittenNoBlankLines | components/GoogleDriveSearch.js:522-523 | the `\s+\n` step as written leaves no two newlines in a row, so the next step has nothing to cap |
| DocCleanup.StripBlanksTidy | components/GoogleDriveSearch.js:522 | removing spaces and tabs before a newline keeps the text tidy |
| DocCleanup.NoBlankBeforeBreak | components/GoogleDriveSearch.js:522 | after the corrected step, no space or tab comes before a newline |
| DocCleanup.StripBlanksUnchanged | components/GoogleDriveSearch.js:522 | a text with no blank before a newline passes the corrected step unchanged |
| DocCleanup.CapBreaksTidy | components/GoogleDriveSearch.js:523 | capping newline runs keeps the text tidy |
| DocCleanup.CapBreaksNoTriples | components/GoogleDriveSearch.js:523 | after `\n{3,}` → `\n\n`, no three newlines are in a row |
| DocCleanup.CapBreaksUnchanged | components/GoogleDriveSearch.js:523 | a text without three newlines in a row passes unchanged |
| DocCleanup.CapBreaksKeepsNoBlankBefore | components/GoogleDriveSearch.js:523 | capping newlines brings back no blank before a newline |
| DocCleanup.CollapseTidy | components/GoogleDriveSearch.js:524 | `[ \t]{2,}` → ' ' keeps the text tidy |
| DocCleanup.CollapseNoBlankPairs | components/GoogleDriveSearch.js:524 | afterwards, no two spaces or tabs are in a row |
| DocCleanup.CollapseKeepsNoBlankLines | components/GoogleDriveSearch.js:524 | collapsing blanks creates no blank line |
| DocCleanup.CollapseKeepsNoBlankBefore | components/GoogleDriveSearch.js:524 | collapsing blanks puts no blank before a newline |
| DocCleanup.CollapseKeepsNoTriples | components/GoogleDriveSearch.js:524 | collapsing blanks creates no run of three newlines |
| DocCleanup.CollapseUnchanged | components/GoogleDriveSearch.js:524 | a text with no two blanks in a row passes unchanged |
| DocCleanup.TrimKeeps | components/GoogleDriveSearch.js:525 | trimming keeps each of these properties: tidy, no blank lines, no newline triples, no blank before a newline, no blank pairs |
| DocCleanup.Prepared | components/GoogleDriveSearch.js:518-521 | after the line-break, control-character and tab steps, any text is tidy |
| DocCleanup.CleanDocContentAsWritten | components/GoogleDriveSearch.js:508-526 | the chain as written gives a tidy, trimmed text with no blank line at all |
| DocCleanup.CleanDocContent | components/GoogleDriveSearch.js:508-526 | the corrected chain gives a cleaned text: tidy, trimmed, no blank before a newline, no two blanks in a row, at most one blank line in a row |
| DocCleanup.CleanedUnchanged | components/GoogleDriveSearch.js:508-526 | a cleaned text is a fixed point of the corrected chain |
| DocCleanup.CleanDocContentAsWrittenVisible | components/GoogleDriveSearch.js:508-526 | the chain as written keeps every visible character of the text, in order |
| DocCleanup.CleanDocContentVisible | components/GoogleDriveSearch.js:508-526 | the corrected chain keeps every visible character of the text, in order |
| DocCleanup.CleanDocContentIdempotent | components/GoogleDriveSearch.js:508-526 | cleaning twice is cleaning once |
| DocCleanup.ParagraphBreakLostAsWritten | components/GoogleDriveSearch.js:522-523 | as written, "a\n\nb" becomes "a\nb" |
| DocCleanup.ParagraphBreakKept | components/GoogleDriveSearch.js:522-523 | corrected, "a\n\nb" is kept |
| DocCleanup.StripAsWrittenExample | components/GoogleDriveSearch.js:522 | the `\s+\n` step alone turns "a\n\nb" into "a\nb" |
| ExtractText.Admit | pages/api/extract-text.js:59-162 | 405 exactly for a non-POST; other refusals are 400 or 500; an admitted upload carries an allow-listed type; an admitted JSON payload has truthy fileData and mimeType; a type outside the allow-list and missing fields give their 400 messages |
| ExtractText.TempFileName | pages/api/extract-text.js:170 | the temporary file is named after a truthy `fileName`, otherwise "temp_file" |
| ExtractText.Extract | pages/api/extract-text.js:176-191 | each branch gives its own text: PDF the PDF library's text, DOCX the DOCX library's text, plain text its UTF-8 decoding, .doc the printable-run extraction, RTF and ODT the decoding with only printable characters and line breaks kept; a type with no branch gives "" |
| ExtractText.CleanLine | pages/api/extract-text.js:195-200 | a line comes out empty or clean (printable ASCII, no space at either end, no two spaces in a row), and it keeps every visible character of the input, in order |
| ExtractText.CleanLineExample | pages/api/extract-text.js:195-200 | "  a \t b\u0001 " becomes "a b" |
| ExtractText.CleanLineUnchanged | pages/api/extract-text.js:195-200 | a clean line passes unchanged |
| ExtractText.CleanLines | pages/api/extract-text.js:194-200 | at most as many lines as pieces, all clean, and together they hold the pieces' visible characters in order |
| ExtractText.CleanLinesConcat | pages/api/extract-text.js:194-200 | cleaning a list of pieces is cleaning each part and concatenating the results |
| ExtractText.CleanLinesSingle | pages/api/extract-text.js:194-200 | one piece gives its cleaned line, or no line when that is empty; with the lemma above, the lines are the non-empty cleaned pieces in order |
| ExtractText.CleanLinesUnchanged | pages/api/extract-text.js:194-200 | clean lines pass unchanged |
| ExtractText.NormaliseLines | pages/api/extract-text.js:194-200 | the lines are all clean, and together they hold exactly the visible characters of the text, in order |
| ExtractText.CutAtReference | pages/api/extract-text.js:202-216 | the search loop keeps through the first line containing REFERENCE in any case, or else 23 lines |
| ExtractText.ProcessText | pages/api/extract-text.js:194-216 | the pipeline emits clean lines: the normalised lines, cut through the first REFERENCE line or else to 23 |
| ExtractText.ProcessTextIdempotent | pages/api/extract-text.js:194-221 | running the pipeline on its own joined output gives the same lines |
| ExtractText.Respond | pages/api/extract-text.js:59-231 | 405 exactly for a non-POST; the status is one of 200, 400, 405 or 500; 200 exactly when the request is admitted, the JSON path's temporary file can be written and removed, and extraction does not throw; then the text is the processed lines of the extracted text joined with "\n", each clean; a temporary-file failure gives 500; a type with no branch gives 200 with "" |
| ExtractText.Handle | pages/api/extract-text.js:59-231 | the handler answers as `Respond` says |
| ExtractText.UploadAndJsonAgree | pages/api/extract-text.js:96-143 | an upload and a JSON payload with the same type and bytes get the same response, when the JSON path's temporary file can be written and removed |
| CombineFiles.RuleText | pages/api/combine-files.js:72-80 | the rule is 46 copies of U+2015 |
| CombineFiles.BannerContents | pages/api/combine-files.js:20-80 | the four opening paragraphs: "Search Query: " and the query, or "N/A" when it is missing or empty; "Total Files: " and the count in decimal; the local date and time; the rule |
| CombineFiles.LineParagraphs | pages/api/combine-files.js:97-104 | one paragraph per line, in order |
| CombineFiles.LineParagraphText | pages/api/combine-files.js:101 | no line paragraph is empty, and a non-empty line keeps its text |
| CombineFiles.Sections | pages/api/combine-files.js:82-116 | the sections exist exactly when every file has text |
| CombineFiles.Layout | pages/api/combine-files.js:18-116 | the layout exists exactly when every file has text, and it starts with the banner |
| CombineFiles.BuildParagraphs | pages/api/combine-files.js:18-116 | the pushes build the layout |
| CombineFiles.PushSections | pages/api/combine-files.js:82-116 | the file loop appends all sections, or fails when a file has no text |
| CombineFiles.PushLines | pages/api/combine-files.js:97-104 | the line loop appends one paragraph per line |
| CombineFiles.SectionsPrefixOf | pages/api/combine-files.js:82-116 | the sections of the first k files are a prefix of all sections |
| CombineFiles.LayoutSize | pages/api/combine-files.js:18-116 | the document has 4 + Σ(lines + 2) paragraphs |
| CombineFiles.SectionPosition | pages/api/combine-files.js:82-116 | file k's heading, its lines in order and its spacer sit right after the banner and the sections of the files before it |
| CombineFiles.SanitiseQuery | pages/api/combine-files.js:135 | the result is the first min(30, n) characters, letters and digits kept and every other character turned into '_' |
| CombineFiles.SanitiseFixedPoints | pages/api/combine-files.js:135 | a query is unchanged exactly when it is at most 30 name characters |
| CombineFiles.SanitiseIdempotent | pages/api/combine-files.js:135 | sanitising twice is sanitising once |
| CombineFiles.OutputFileName | pages/api/combine-files.js:130-137 | the name is the sanitised query, "_", the ISO date before its 'T', "_", the time before its first space with colons turned into dashes, and ".docx"; it contains no ':' or ' ' when the ISO date part contains none |
| CombineFiles.Respond | pages/api/combine-files.js:5-148 | 405 exactly for a non-POST; a missing, non-array or empty files list gives 400; an attachment exactly when the request is valid, every file has text and a query is present, and then it carries the layout and file name; a file without text gives 500 with the message of the `split` TypeError, and a missing query with the message of the `replace` TypeError |
| CombineFiles.Combine | pages/api/combine-files.js:5-148 | the handler answers as `Respond` says |
| CombineFiles.MissingQueryFails | pages/api/combine-files.js:29-135 | a missing query still renders "N/A" in the banner, but naming the file throws, so the answer is a 500 with the `replace` TypeError's message |

## Left out

- Rendering, navigation, dark mode, the sidebar and the other components are not part of this model. Neither are the pages other than the two endpoints.
- Network calls, the file system, `localStorage`, timers and `console` output are functions passed in or are dropped.
- The token refresh itself is not modelled. `refreshAccessToken` becomes the refreshed token passed to the retry rule.
- The docx packer (`Packer.toBuffer`) is not modelled. A document is its sequence of paragraphs with their kinds and texts. Spacing, highlight and heading styles are not modelled.
- Dates and locale formatting (`toLocaleDateString`, `toISOString`, `toTimeString`, `toLocaleString`) are inputs in an `Environment` value.
- Strings are sequences of Unicode scalar values, not UTF-16 code units. Lengths differ for characters outside the Basic Multilingual Plane. Case mapping is ASCII-only.
- The regular-expression cleanup chains that follow the encoding loop in `extractCleanTextFromDoc` and `extractTextFromDoc` (GoogleDriveSearch.js:322-364 and 606-649) are not modelled. Neither is the "meaningful line" filter. Only the choice of decoding is modelled. The loop at 585-605 is the same as the one at 300-321 and is modelled once.
- `parseDocFile` (GoogleDriveSearch.js:540) is not modelled, because nothing calls it. `handleUpload`, `downloadFile`, `downloadAgain`, `downloadExtractedDoc` and `handleDocExport` are not modelled either, because they lie outside the search, extract and combine pipeline.
- DriveSearch.FetchAllSubfolders: termination rests on the assumption `Descends` that Drive's folders form a finite tree, stated as a height that every listing lowers. On a folder graph with a cycle the source loops forever, and the model does not cover that case.
- SearchPanel.Panel.SearchFiles: `setExtractedDoc(null)` is not modelled, because the extracted document belongs to the upload flow, which is left out. An error object becomes its message.
- SearchPanel.Panel.ProcessAndCreateDoc: the intermediate `isProcessing == true` state and the browser download link are not modelled. The file name is taken directly from the endpoint, which is what the `Content-Disposition` split yields for a sanitised name.
- DocHeuristics.ExtractUntilMarker: `defaultLineCount` is a `nat`. A negative count, which `slice` would read from the end, is not modelled. A null text, on which the source throws, is not modelled either.
- DocHeuristics.ChooseDecoding: a decoder that throws is a `None` decoding. The four TextDecoder encodings are passed in as one function.
- ExtractText.Extract: the libraries' own errors are `None`. The temporary files of `extractFromDoc` are not modelled.
- ExtractText.Respond: writing and removing the JSON path's temporary file are one library call, `storeTemp`, since a failure of either gives the same 500. The `mkdirSync` of the `temp` directory is not modelled.
- CombineFiles.Respond: a `files` entry's `extractedText` and the `query` are optional strings, so `undefined` and `null` are one case. The runtime words the TypeError differently for the two, and the model keys the message by the throwing call only.
- FileContent.CollectBatch: the per-file `try`/`catch` of GoogleDriveSearch.js:779-782 is not modelled, because `extractContentFromFile` catches its own errors and always returns a string content, so that branch cannot be reached.
- The `sentSearches` field of `SearchPanel.Panel` has no counterpart in the source. It records the Drive query expressions the screen sends.

## Findings

| source | as written | input that shows it | evidently intended | confidence | as-written member | corrected member |
|---|---|---|---|---|---|---|
| components/GoogleDriveSearch.js:217 | the "other" filter excludes `application/openxmlformats-officedocument.wordprocessingml.document`, which lacks the `vnd.` of the real .docx type | a .docx file with the file-type choice "other" | "other" excludes Google Docs, .docx and .doc, the three other choices | high (not executed) | DriveSearch.OtherAdmitsDocxAsWritten | DriveSearch.OtherDisjointFromDocumentChoices |
| components/GoogleDriveSearch.js:57-71 | the retry calls the same `requestFn`, whose closure still holds the expired token | a request refused with 401 while `refreshAccessToken` returns a new token that Drive accepts | the retry sends the refreshed token, as the comment at line 65 says | medium (not executed) | DriveSearch.AuthenticatedRequestAsWritten | DriveSearch.AuthenticatedRequest |
| components/GoogleDriveSearch.js:522-523 | `\s+\n` also matches newlines, so it removes every blank line, and the `\n{3,}` step after it can never match | the text "a\n\nb" becomes "a\nb" | only spaces and tabs before a newline are removed, and runs of blank lines are capped at one | high (not executed) | DocCleanup.ParagraphBreakLostAsWritten | DocCleanup.ParagraphBreakKept |
