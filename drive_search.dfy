/** The search rules of the Drive search screen
    (components/GoogleDriveSearch.js): query validation, the MIME-type filter,
    quote escaping, the Drive query expression, the breadth-first walk over
    sub-folders, and the retry-once rule for expired tokens.

    Calls to the Drive API are functions passed in: a folder lister from a
    list of parent ids to the folders below them, and a request sender from
    the access token a request carries to the reply it gets. */
module DriveSearch {
  import opened Wrappers
  import opened Strings
  import MimeTypes

  /** An error from the Drive API: the HTTP status of its response, when it
      has one, and its message. */
  datatype DriveError = DriveError(status: Option<int>, message: string)

  predicate Unauthorized(e: DriveError) { e.status == Some(401) }

  /** A file of the search results; extractedText is set only for a file
      whose text was extracted before. */
  datatype DriveFile = DriveFile(id: string, name: string, mimeType: string, extractedText: Option<string>)

  // ---------------------------------------------------------------------
  // query validation

  const EmptyQueryMessage := "Please enter a search query"
  const ShortQueryMessage := "Search query must be at least 3 characters long"
  const NoAlnumMessage := "Search query must contain at least one letter or number"
  const MinQueryLength := 3

  /** The test /[a-zA-Z0-9]/. */
  predicate HasAlnum(s: string) {
    exists i :: 0 <= i < |s| && IsAsciiAlnum(s[i])
  }

  /** The message searchFiles shows for a query it refuses, or None when it
      goes on to search. The length is that of the trimmed query; the
      letter-or-digit test looks at the query as typed. */
  function QueryProblem(query: string): (r: Option<string>)
    ensures r.None? <==> |Trim(query)| >= MinQueryLength && HasAlnum(query)
    ensures r == Some(EmptyQueryMessage) <==> forall i :: 0 <= i < |query| ==> IsJsSpace(query[i])
    ensures r == Some(NoAlnumMessage) ==> |Trim(query)| >= MinQueryLength
    ensures 0 < |Trim(query)| < MinQueryLength ==> r == Some(ShortQueryMessage)
    ensures |Trim(query)| >= MinQueryLength && !HasAlnum(query) ==> r == Some(NoAlnumMessage)
  {
    var trimmed := Trim(query);
    if |trimmed| == 0 then Some(EmptyQueryMessage)
    else if |trimmed| < MinQueryLength then Some(ShortQueryMessage)
    else if !HasAlnum(query) then Some(NoAlnumMessage)
    else None
  }

  /** Trimming removes only white space, so testing the query as typed for a
      letter or digit is the same as testing the trimmed query. */
  lemma AlnumSurvivesTrim(query: string)
    ensures HasAlnum(query) <==> HasAlnum(Trim(query))
  {
    var t := Trim(query);
    var o := TrimOffset(query);
    TrimChars(query);
    if HasAlnum(query) {
      var i :| 0 <= i < |query| && IsAsciiAlnum(query[i]);
      assert |t| > 0;
      assert o <= i < o + |t|;
      assert t[i - o] == query[i];
    }
    if HasAlnum(t) {
      var j :| 0 <= j < |t| && IsAsciiAlnum(t[j]);
      assert query[o + j] == t[j];
    }
  }

  lemma QueryExamples()
    ensures QueryProblem("ab") == Some(ShortQueryMessage)
    ensures QueryProblem("a1") == Some(ShortQueryMessage)
    ensures QueryProblem("  a1  ") == Some(ShortQueryMessage)
    ensures QueryProblem("!!!") == Some(NoAlnumMessage)
    ensures QueryProblem("ab1").None?
  {
    TrimUnchanged("ab");
    TrimUnchanged("a1");
    TrimUnchanged("!!!");
    TrimUnchanged("ab1");
    assert LeadingSpaces("  a1  ") == 2;
    assert TrailingSpaces("  a1  ") == 2;
    assert Trim("  a1  ") == "a1";
    assert !HasAlnum("!!!");
    assert IsAsciiAlnum("ab1"[0]);
  }

  // ---------------------------------------------------------------------
  // MIME-type filter

  /** The files a file-type choice lets through. */
  datatype MimeFilter = AnyType | OnlyType(mime: string) | NoneOf(excluded: seq<string>)

  predicate Admits(f: MimeFilter, mime: string) {
    match f
    case AnyType => true
    case OnlyType(m) => mime == m
    case NoneOf(excluded) => mime !in excluded
  }

  function Exclusions(excluded: seq<string>): (r: seq<string>)
    ensures |r| == |excluded|
  {
    seq(|excluded|, i requires 0 <= i < |excluded| => "mimeType!='" + excluded[i] + "'")
  }

  /** The fragment a filter appends to the Drive query expression. */
  function Clause(f: MimeFilter): string {
    match f
    case AnyType => ""
    case OnlyType(m) => " and mimeType='" + m + "'"
    case NoneOf(excluded) => " and (" + Join(Exclusions(excluded), " and ") + ")"
  }

  const OtherChoice := "other"

  /** The types the "Other" choice excludes, as written: the second lacks the
      "vnd." of the .docx type. */
  const OtherExcludedAsWritten: seq<string> :=
    [MimeTypes.GoogleDoc, "application/openxmlformats-officedocument.wordprocessingml.document", MimeTypes.MsWord]

  /** The types the "Other" choice is meant to exclude: the three document
      types the screen offers as choices of their own. */
  const OtherExcluded: seq<string> := [MimeTypes.GoogleDoc, MimeTypes.Docx, MimeTypes.MsWord]

  /** The filter of a file-type choice as written. */
  function FileTypeFilterAsWritten(selected: string): (f: MimeFilter)
    ensures selected == "" ==> f == AnyType
    ensures selected == OtherChoice ==> f == NoneOf(OtherExcludedAsWritten)
    ensures selected != "" && selected != OtherChoice ==> f == OnlyType(selected)
  {
    if selected == "" then AnyType
    else if selected == OtherChoice then NoneOf(OtherExcludedAsWritten)
    else OnlyType(selected)
  }

  /** The filter of a file-type choice: none for the empty choice, all types
      but the three document types for "Other", exactly the chosen type for
      any other choice. */
  function FileTypeFilter(selected: string): (f: MimeFilter)
    ensures forall m :: Admits(f, m) <==>
      || selected == ""
      || (selected == OtherChoice && m != MimeTypes.GoogleDoc && m != MimeTypes.Docx && m != MimeTypes.MsWord)
      || (selected != "" && selected != OtherChoice && m == selected)
  {
    if selected == "" then AnyType
    else if selected == OtherChoice then NoneOf(OtherExcluded)
    else OnlyType(selected)
  }

  /** A specific choice gives the clause mimeType='<choice>', the empty choice
      gives none. */
  lemma SelectionClause(selected: string)
    ensures selected == "" ==> Clause(FileTypeFilter(selected)) == ""
    ensures selected != "" && selected != OtherChoice ==>
      Clause(FileTypeFilter(selected)) == " and mimeType='" + selected + "'"
    ensures Clause(FileTypeFilter(selected)) == Clause(FileTypeFilterAsWritten(selected)) || selected == OtherChoice
  {
  }

  /** As written, "Other" lets .docx files through, so a .docx file matches
      both the "Other" choice and the .docx choice. */
  lemma OtherAdmitsDocxAsWritten()
    ensures Admits(FileTypeFilterAsWritten(OtherChoice), MimeTypes.Docx)
    ensures Admits(FileTypeFilterAsWritten(MimeTypes.Docx), MimeTypes.Docx)
  {
    assert |MimeTypes.Docx| != |OtherExcludedAsWritten[1]|;
    assert |MimeTypes.GoogleDoc| == 36 && |MimeTypes.MsWord| == 18;
  }

  /** With the corrected list, no file matches both "Other" and one of the
      document choices. */
  lemma OtherDisjointFromDocumentChoices(choice: string, mime: string)
    requires choice in OtherExcluded
    ensures !(Admits(FileTypeFilter(OtherChoice), mime) && Admits(FileTypeFilter(choice), mime))
  {
    assert choice != "" && choice != OtherChoice;
  }

  // ---------------------------------------------------------------------
  // quote escaping

  /** The character at i is not a quote, or a backslash comes before it. */
  predicate QuoteEscapedAt(r: string, i: int)
    requires 0 <= i < |r|
  {
    r[i] == '\'' ==> 0 < i && r[i - 1] == '\\'
  }

  /** query.replace(/'/g, "\\'"). */
  function EscapeQuotes(q: string): (r: string)
    ensures forall i :: 0 <= i < |r| ==> QuoteEscapedAt(r, i)
    ensures |q| > 0 ==> |r| > 0
    decreases |q|
  {
    if |q| == 0 then ""
    else
      var rest := EscapeQuotes(q[1..]);
      var r := if q[0] == '\'' then "\\'" + rest else [q[0]] + rest;
      var d := |r| - |rest|;
      assert forall i :: d <= i < |r| ==> QuoteEscapedAt(r, i) by {
        forall i | d <= i < |r|
          ensures QuoteEscapedAt(r, i)
        {
          assert r[i] == rest[i - d];
          assert QuoteEscapedAt(rest, i - d);
          if i - d > 0 {
            assert r[i - 1] == rest[i - d - 1];
          }
        }
      }
      r
  }

  /** Drops the backslash in front of each quote, reading left to right. */
  function UnescapeQuotes(r: string): string
    decreases |r|
  {
    if |r| == 0 then ""
    else if |r| >= 2 && r[0] == '\\' && r[1] == '\'' then "'" + UnescapeQuotes(r[2..])
    else [r[0]] + UnescapeQuotes(r[1..])
  }

  /** Escaping adds a backslash in front of each quote and changes nothing
      else. */
  lemma {:induction false} UnescapeEscape(q: string)
    ensures UnescapeQuotes(EscapeQuotes(q)) == q
    decreases |q|
  {
    if |q| > 0 {
      var rest := EscapeQuotes(q[1..]);
      var r := EscapeQuotes(q);
      UnescapeEscape(q[1..]);
      if q[0] == '\'' {
        assert r[2..] == rest;
      } else {
        assert r[1..] == rest;
        if |rest| > 0 {
          assert QuoteEscapedAt(rest, 0);
        }
      }
    }
  }

  /** The Drive query expression of a search: no folders, not trashed, a
      parent among folderIds, the escaped query in the name or the text, and
      then the file-type clause. */
  function SearchExpression(folderIds: seq<string>, query: string, filter: MimeFilter): (e: string)
    ensures e == "mimeType!='" + MimeTypes.GoogleFolder + "' and trashed = false and parents in '"
                 + Join(folderIds, "','") + "' and (name contains '" + EscapeQuotes(query)
                 + "' or fullText contains '" + EscapeQuotes(query) + "')" + Clause(filter)
    ensures EndsWith(e, Clause(filter))
  {
    var head := "mimeType!='" + MimeTypes.GoogleFolder + "' and trashed = false and parents in '"
      + Join(folderIds, "','") + "' and (name contains '" + EscapeQuotes(query)
      + "' or fullText contains '" + EscapeQuotes(query) + "')";
    assert (head + Clause(filter))[|head|..] == Clause(filter);
    head + Clause(filter)
  }

  // ---------------------------------------------------------------------
  // the folder walk

  /** A listing of the folders below some parents: an error, or a reply whose
      files field may be missing. */
  type Listing = Result<Option<seq<string>>, DriveError>

  type FolderLister = seq<string> -> Listing

  /** res.data.files || [], or nothing for an error. */
  function ListedIds(l: Listing): seq<string> {
    if l.Success? then l.value.GetOr([]) else []
  }

  function MaxHeight(height: string -> nat, ids: seq<string>): (m: nat)
    ensures forall i :: 0 <= i < |ids| ==> height(ids[i]) <= m
    ensures |ids| > 0 ==> exists i :: 0 <= i < |ids| && height(ids[i]) == m
    decreases |ids|
  {
    if |ids| == 0 then 0
    else
      var rest := MaxHeight(height, ids[1..]);
      if height(ids[0]) >= rest then height(ids[0])
      else
        assert exists i :: 0 <= i < |ids| - 1 && height(ids[1..][i]) == rest;
        var i :| 0 <= i < |ids| - 1 && height(ids[1..][i]) == rest;
        assert height(ids[i + 1]) == rest;
        rest
  }

  /** Drive folders form a finite tree: measured by height, the length of
      the longest path below a folder, every folder a listing returns sits
      below one of the folders it was asked about. */
  ghost predicate Descends(lister: FolderLister, height: string -> nat) {
    forall frontier :: ListedBelow(lister, height, frontier)
  }

  /** Every folder listed for the frontier is lower than the frontier. */
  predicate ListedBelow(lister: FolderLister, height: string -> nat, frontier: seq<string>) {
    lister(frontier).Success? ==>
      forall i :: 0 <= i < |ListedIds(lister(frontier))| ==>
        height(ListedIds(lister(frontier))[i]) < MaxHeight(height, frontier)
  }

  lemma LevelBelow(lister: FolderLister, height: string -> nat, frontier: seq<string>)
    requires Descends(lister, height)
    requires lister(frontier).Success? && |ListedIds(lister(frontier))| > 0
    ensures MaxHeight(height, ListedIds(lister(frontier))) < MaxHeight(height, frontier)
  {
    var ids := ListedIds(lister(frontier));
    assert ListedBelow(lister, height, frontier);
    var i :| 0 <= i < |ids| && height(ids[i]) == MaxHeight(height, ids);
  }

  /** The levels a walk discovers below a frontier, and the error that ended
      it, if one did. */
  datatype Walk = Walk(levels: seq<seq<string>>, failure: Option<DriveError>)

  /** The breadth-first walk: list the folders below the frontier; stop at an
      error or at an empty level, otherwise go on from the new level. */
  function WalkFrom(lister: FolderLister, height: string -> nat, frontier: seq<string>): Walk
    requires Descends(lister, height)
    decreases MaxHeight(height, frontier)
  {
    if |frontier| == 0 then Walk([], None)
    else
      var listing := lister(frontier);
      if listing.Failure? then Walk([], Some(listing.error))
      else
        var ids := ListedIds(listing);
        if |ids| == 0 then Walk([], None)
        else
          LevelBelow(lister, height, frontier);
          var rest := WalkFrom(lister, height, ids);
          Walk([ids] + rest.levels, rest.failure)
  }

  function Flatten(levels: seq<seq<string>>): seq<string>
    decreases |levels|
  {
    if |levels| == 0 then [] else levels[0] + Flatten(levels[1..])
  }

  /** The frontier a walk from seeds lists at step i. */
  function FrontierAt(seeds: seq<string>, levels: seq<seq<string>>, i: nat): seq<string>
    requires i <= |levels|
  {
    if i == 0 then seeds else levels[i - 1]
  }

  /** Level i of a walk from seeds is the non-empty listing of the frontier
      before it. */
  predicate LevelListed(lister: FolderLister, seeds: seq<string>, levels: seq<seq<string>>, i: nat)
    requires i < |levels|
  {
    && lister(FrontierAt(seeds, levels, i)).Success?
    && levels[i] == ListedIds(lister(FrontierAt(seeds, levels, i)))
    && |levels[i]| > 0
  }

  /** The walk's levels in order: each is the non-empty listing of the
      frontier before it. */
  lemma {:induction false} WalkLevels(lister: FolderLister, height: string -> nat, seeds: seq<string>)
    requires Descends(lister, height)
    ensures forall i :: 0 <= i < |WalkFrom(lister, height, seeds).levels| ==>
      LevelListed(lister, seeds, WalkFrom(lister, height, seeds).levels, i)
    decreases MaxHeight(height, seeds)
  {
    var w := WalkFrom(lister, height, seeds);
    if |seeds| > 0 && lister(seeds).Success? && |ListedIds(lister(seeds))| > 0 {
      var ids := ListedIds(lister(seeds));
      LevelBelow(lister, height, seeds);
      WalkLevels(lister, height, ids);
      var rest := WalkFrom(lister, height, ids);
      assert w.levels[0] == ids && w.levels[1..] == rest.levels;
      forall i | 0 <= i < |w.levels|
        ensures LevelListed(lister, seeds, w.levels, i)
      {
        if i > 0 {
          assert i - 1 < |rest.levels|;
          assert LevelListed(lister, ids, rest.levels, i - 1);
          assert w.levels[i] == rest.levels[i - 1];
          if i > 1 {
            assert w.levels[i - 1] == rest.levels[i - 2];
          }
        }
      }
    }
  }

  /** The walk ends at the first frontier whose listing fails, which gives
      the error, or comes back empty. */
  lemma {:induction false} WalkEnd(lister: FolderLister, height: string -> nat, seeds: seq<string>)
    requires Descends(lister, height)
    ensures var w := WalkFrom(lister, height, seeds);
      var last := FrontierAt(seeds, w.levels, |w.levels|);
      && (w.failure.Some? ==> |last| > 0 && lister(last) == Failure(w.failure.value))
      && (w.failure.None? ==> |last| == 0 || (lister(last).Success? && ListedIds(lister(last)) == []))
    decreases MaxHeight(height, seeds)
  {
    var w := WalkFrom(lister, height, seeds);
    if |seeds| > 0 && lister(seeds).Success? && |ListedIds(lister(seeds))| > 0 {
      var ids := ListedIds(lister(seeds));
      LevelBelow(lister, height, seeds);
      WalkEnd(lister, height, ids);
      var rest := WalkFrom(lister, height, ids);
      assert w.levels[0] == ids && w.levels[1..] == rest.levels && w.failure == rest.failure;
      assert FrontierAt(seeds, w.levels, |w.levels|) == FrontierAt(ids, rest.levels, |rest.levels|);
    }
  }

  /** The walk as the loop of fetchAllSubfolders runs it: the ids gathered
      so far are carried along, and the walk goes on from the last level. */
  function Gather(lister: FolderLister, height: string -> nat, frontier: seq<string>, all: seq<string>)
    : (seq<string>, Option<DriveError>)
    requires Descends(lister, height)
    decreases MaxHeight(height, frontier)
  {
    if |frontier| == 0 then (all, None)
    else
      var listing := lister(frontier);
      if listing.Failure? then (all, Some(listing.error))
      else
        var ids := ListedIds(listing);
        if |ids| == 0 then (all, None)
        else
          LevelBelow(lister, height, frontier);
          Gather(lister, height, ids, all + ids)
  }

  /** Gathering from a frontier adds the levels of the walk below it, in
      order, and ends with the walk's error. */
  lemma {:induction false} GatherWalk(lister: FolderLister, height: string -> nat, frontier: seq<string>, all: seq<string>)
    requires Descends(lister, height)
    ensures Gather(lister, height, frontier, all)
            == (all + Flatten(WalkFrom(lister, height, frontier).levels), WalkFrom(lister, height, frontier).failure)
    decreases MaxHeight(height, frontier)
  {
    var w := WalkFrom(lister, height, frontier);
    if |frontier| > 0 && lister(frontier).Success? && |ListedIds(lister(frontier))| > 0 {
      var ids := ListedIds(lister(frontier));
      LevelBelow(lister, height, frontier);
      GatherWalk(lister, height, ids, all + ids);
      var rest := WalkFrom(lister, height, ids);
      assert w.levels[0] == ids && w.levels[1..] == rest.levels;
      assert all + ids + Flatten(rest.levels) == all + (ids + Flatten(rest.levels));
    } else {
      assert all + Flatten(w.levels) == all;
    }
  }

  /** fetchAllSubfolders: the seeds, then every level of the walk below them
      in the order Drive lists them, with nothing removed; on an error, the
      ids gathered until then and the error. */
  method FetchAllSubfolders(lister: FolderLister, height: string -> nat, seeds: seq<string>)
    returns (all: seq<string>, failure: Option<DriveError>)
    requires Descends(lister, height)
    ensures all == seeds + Flatten(WalkFrom(lister, height, seeds).levels)
    ensures failure == WalkFrom(lister, height, seeds).failure
  {
    var folderIds := seeds;
    all := seeds;
    failure := None;
    while |folderIds| > 0
      invariant Gather(lister, height, folderIds, all) == Gather(lister, height, seeds, seeds)
      decreases MaxHeight(height, folderIds)
    {
      var listing := lister(folderIds);
      if listing.Failure? {
        failure := Some(listing.error);
        break;
      }
      var ids := listing.value.GetOr([]);
      if |ids| == 0 {
        break;
      }
      LevelBelow(lister, height, folderIds);
      folderIds := ids;
      all := all + ids;
    }
    GatherWalk(lister, height, seeds, seeds);
  }

  // ---------------------------------------------------------------------
  // the retry rule

  /** What one authenticated request did: the token each call of the
      request function carried, whether the token was refreshed, and the
      result handed back (a Failure is the error thrown). */
  datatype Exchange<T> = Exchange(tokensSent: seq<string>, refreshed: bool, outcome: Result<T, DriveError>)

  /** `if (newAccessToken)`: a token other than null and "". */
  predicate Truthy(t: Option<string>) { t.Some? && t.value != "" }

  /** The rule makeAuthenticatedRequest follows: one call; a refresh only
      after a 401; a second call only when the refresh gave a token; the
      result of the last call, so the first call's error when there is no
      second. */
  predicate RetryRule<T(==)>(send: string -> Result<T, DriveError>, token: string, newToken: Option<string>, x: Exchange<T>) {
    && 1 <= |x.tokensSent| <= 2
    && x.tokensSent[0] == token
    && (x.refreshed <==> send(token).Failure? && Unauthorized(send(token).error))
    && (|x.tokensSent| == 2 <==> x.refreshed && Truthy(newToken))
    && x.outcome == send(x.tokensSent[|x.tokensSent| - 1])
  }

  /** makeAuthenticatedRequest as written: the request function is a closure
      over the token read before the call, so the retry sends that token
      again. newToken is what the refresh would return. */
  function AuthenticatedRequestAsWritten<T(==)>(send: string -> Result<T, DriveError>, token: string, newToken: Option<string>): (x: Exchange<T>)
    ensures RetryRule(send, token, newToken, x)
    ensures |x.tokensSent| == 2 ==> x.tokensSent[1] == token
  {
    var first := send(token);
    if first.Failure? && Unauthorized(first.error) then
      if Truthy(newToken) then Exchange([token, token], true, send(token))
      else Exchange([token], true, first)
    else Exchange([token], false, first)
  }

  /** makeAuthenticatedRequest with the retry carrying the refreshed token. */
  function AuthenticatedRequest<T(==)>(send: string -> Result<T, DriveError>, token: string, newToken: Option<string>): (x: Exchange<T>)
    ensures RetryRule(send, token, newToken, x)
    ensures |x.tokensSent| == 2 ==> x.tokensSent[1] == newToken.value
  {
    var first := send(token);
    if first.Failure? && Unauthorized(first.error) then
      if Truthy(newToken) then Exchange([token, newToken.value], true, send(newToken.value))
      else Exchange([token], true, first)
    else Exchange([token], false, first)
  }

  /** When Drive answers according to the token alone, a retry after an
      expired token fails as written with the same 401, however good the
      refreshed token is; with the refreshed token it succeeds. */
  lemma StaleTokenRetry<T>(send: string -> Result<T, DriveError>, token: string, newToken: Option<string>)
    requires send(token).Failure? && Unauthorized(send(token).error)
    requires Truthy(newToken) && send(newToken.value).Success?
    ensures AuthenticatedRequestAsWritten(send, token, newToken).outcome == send(token)
    ensures AuthenticatedRequest(send, token, newToken).outcome.Success?
  {
  }

  // ---------------------------------------------------------------------
  // the message for an empty result

  datatype Folder = Folder(id: string, name: string)

  datatype FileTypeChoice = FileTypeChoice(caption: string, value: string)

  /** The file-type choices the screen offers. */
  const FileTypeChoices: seq<FileTypeChoice> := [
    FileTypeChoice("All Files", ""),
    FileTypeChoice("Word Document (.docx)", MimeTypes.Docx),
    FileTypeChoice("MS Word (.doc)", MimeTypes.MsWord),
    FileTypeChoice("Google Docs", MimeTypes.GoogleDoc),
    FileTypeChoice("Excel (.xlsx)", "application/vnd.openxmlformats-officedocument.spreadsheetml.sheet"),
    FileTypeChoice("MS Excel (.xls)", "application/vnd.ms-excel"),
    FileTypeChoice("PDF (.pdf)", MimeTypes.Pdf),
    FileTypeChoice("Other", OtherChoice)
  ]

  /** folders.find(f => f.id === id)?.name || fallback. */
  function FolderName(folders: seq<Folder>, id: string, fallback: string): (r: string)
    ensures r == fallback || exists i :: 0 <= i < |folders| && folders[i].id == id && folders[i].name == r
    ensures forall k :: 0 <= k < |folders| && folders[k].id == id && (forall j :: 0 <= j < k ==> folders[j].id != id)
                        ==> r == (if folders[k].name == "" then fallback else folders[k].name)
    ensures (forall k :: 0 <= k < |folders| ==> folders[k].id != id) ==> r == fallback
    decreases |folders|
  {
    if |folders| == 0 then fallback
    else if folders[0].id == id then (if folders[0].name == "" then fallback else folders[0].name)
    else
      var r := FolderName(folders[1..], id, fallback);
      assert r != fallback ==> exists i :: 0 <= i < |folders| - 1 && folders[1..][i].id == id && folders[1..][i].name == r;
      r
  }

  /** fileTypes.find(t => t.value === value)?.label || fallback. */
  function ChoiceLabel(choices: seq<FileTypeChoice>, value: string, fallback: string): (r: string)
    ensures r == fallback || exists i :: 0 <= i < |choices| && choices[i].value == value && choices[i].caption == r
    ensures forall k :: 0 <= k < |choices| && choices[k].value == value && (forall j :: 0 <= j < k ==> choices[j].value != value)
                        ==> r == (if choices[k].caption == "" then fallback else choices[k].caption)
    ensures (forall k :: 0 <= k < |choices| ==> choices[k].value != value) ==> r == fallback
    decreases |choices|
  {
    if |choices| == 0 then fallback
    else if choices[0].value == value then (if choices[0].caption == "" then fallback else choices[0].caption)
    else
      var r := ChoiceLabel(choices[1..], value, fallback);
      assert r != fallback ==> exists i :: 0 <= i < |choices| - 1 && choices[1..][i].value == value && choices[1..][i].caption == r;
      r
  }

  const NoResultsTail := ". Please try different filters."

  /** The message shown when a search finds nothing: the query, the chosen
      folder and file type when there are such choices, and the advice. */
  function NoResultsMessage(query: string, selectedFolder: string, folders: seq<Folder>, selectedFileType: string): (m: string)
    ensures StartsWith(m, "No results found for \"" + query + "\"")
    ensures EndsWith(m, NoResultsTail)
    ensures m == "No results found for \"" + query + "\""
                 + (if selectedFolder != "" then " in " + FolderName(folders, selectedFolder, "selected folder") else "")
                 + (if selectedFileType != "" then " with " + ChoiceLabel(FileTypeChoices, selectedFileType, "selected file type") else "")
                 + NoResultsTail
  {
    var head := "No results found for \"" + query + "\"";
    var inFolder := if selectedFolder != "" then " in " + FolderName(folders, selectedFolder, "selected folder") else "";
    var withType := if selectedFileType != "" then " with " + ChoiceLabel(FileTypeChoices, selectedFileType, "selected file type") else "";
    var m := head + inFolder + withType + NoResultsTail;
    assert m[..|head|] == head;
    assert m[|m| - |NoResultsTail|..] == NoResultsTail;
    m
  }
}
