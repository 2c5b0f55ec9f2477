/** The state of the Drive search screen (components/GoogleDriveSearch.js)
    and the two actions that change it: running a search, and making one
    document out of the results.

    React state becomes the fields of a Panel; each action runs to its end
    in one method, so the loading and processing flags are seen only once
    the action is over. The Drive query expressions a search sends are
    recorded in sentSearches, so that a refused query can be seen to send
    none. */
module SearchPanel {
  import opened Wrappers
  import opened Strings
  import DriveSearch
  import FileContent
  import CombineFiles

  const ExpiredMessage := "Access token expired. Please refresh."

  /** A downloaded document: its file name and its paragraphs. */
  datatype Download = Download(fileName: string, paragraphs: seq<CombineFiles.Paragraph>)

  /** The folders a search looks in: the chosen folder alone, or the
      current folder and every folder the walk finds below it. */
  function SearchFolders(fid: string, selectedFolder: string,
                         lister: DriveSearch.FolderLister, height: string -> nat): (ids: seq<string>)
    requires DriveSearch.Descends(lister, height)
    ensures selectedFolder != "" ==> ids == [selectedFolder]
    ensures selectedFolder == "" ==> |ids| >= 1 && ids[0] == fid
  {
    if selectedFolder != "" then [selectedFolder]
    else [fid] + DriveSearch.Flatten(DriveSearch.WalkFrom(lister, height, [fid]).levels)
  }

  /** The error a search leaves shown: that of the file listing, with a 401
      reported as an expired token; otherwise that of the folder walk, if
      the walk ran and failed. */
  function SearchError(listing: Result<Option<seq<DriveSearch.DriveFile>>, DriveSearch.DriveError>,
                       walkFailure: Option<DriveSearch.DriveError>): (r: Option<string>)
    ensures listing.Failure? ==> r.Some?
    ensures listing.Success? ==> (r.Some? <==> walkFailure.Some?)
  {
    if listing.Failure? then
      if DriveSearch.Unauthorized(listing.error) then Some(ExpiredMessage) else Some(listing.error.message)
    else if walkFailure.Some? then Some(walkFailure.value.message)
    else None
  }

  /** What a search that passed validation shows: the files found, the
      message for an empty result, the error, and the Drive query expression
      it sent. */
  datatype SearchView = SearchView(results: seq<DriveSearch.DriveFile>, searchError: Option<string>,
                                   error: Option<string>, expression: string)

  function SearchOutcome(query: string, fid: string, selectedFolder: string, selectedFileType: string,
                         folders: seq<DriveSearch.Folder>,
                         lister: DriveSearch.FolderLister, height: string -> nat,
                         listFiles: string -> Result<Option<seq<DriveSearch.DriveFile>>, DriveSearch.DriveError>): SearchView
    requires DriveSearch.Descends(lister, height)
  {
    var expression := DriveSearch.SearchExpression(
      SearchFolders(fid, selectedFolder, lister, height), query, DriveSearch.FileTypeFilterAsWritten(selectedFileType));
    var listing := listFiles(expression);
    var walkFailure := if selectedFolder == "" then DriveSearch.WalkFrom(lister, height, [fid]).failure else None;
    SearchView(
      if listing.Success? then listing.value.GetOr([]) else [],
      if listing == Success(Some([]))
      then Some(DriveSearch.NoResultsMessage(query, selectedFolder, folders, selectedFileType))
      else None,
      SearchError(listing, walkFailure),
      expression)
  }

  /** The search itself, once the query has passed validation. */
  method RunSearch(query: string, fid: string, selectedFolder: string, selectedFileType: string,
                   folders: seq<DriveSearch.Folder>,
                   lister: DriveSearch.FolderLister, height: string -> nat,
                   listFiles: string -> Result<Option<seq<DriveSearch.DriveFile>>, DriveSearch.DriveError>)
    returns (view: SearchView)
    requires DriveSearch.Descends(lister, height)
    ensures view == SearchOutcome(query, fid, selectedFolder, selectedFileType, folders, lister, height, listFiles)
  {
    var error: Option<string> := None;
    var searchError: Option<string> := None;
    var results: seq<DriveSearch.DriveFile> := [];
    var folderIds := [if selectedFolder != "" then selectedFolder else fid];
    if selectedFolder == "" {
      var walkFailure;
      folderIds, walkFailure := DriveSearch.FetchAllSubfolders(lister, height, folderIds);
      if walkFailure.Some? {
        error := Some(walkFailure.value.message);
      }
    }
    assert folderIds == SearchFolders(fid, selectedFolder, lister, height);
    var expression := DriveSearch.SearchExpression(folderIds, query, DriveSearch.FileTypeFilterAsWritten(selectedFileType));
    var listing := listFiles(expression);
    if listing.Success? {
      results := listing.value.GetOr([]);
      if listing.value.Some? && |listing.value.value| == 0 {
        searchError := Some(DriveSearch.NoResultsMessage(query, selectedFolder, folders, selectedFileType));
      }
    } else if DriveSearch.Unauthorized(listing.error) {
      error := Some(ExpiredMessage);
    } else {
      error := Some(listing.error.message);
    }
    view := SearchView(results, searchError, error, expression);
  }

  class Panel {
    var query: string
    var results: seq<DriveSearch.DriveFile>
    var loading: bool
    var error: Option<string>
    var searchError: Option<string>
    var isProcessing: bool
    var lastDownload: Option<Download>
    var sentSearches: seq<string>

    constructor ()
      ensures query == "" && results == [] && !loading && error.None? && searchError.None?
      ensures !isProcessing && lastDownload.None? && sentSearches == []
    {
      query := "";
      results := [];
      loading := false;
      error := None;
      searchError := None;
      isProcessing := false;
      lastDownload := None;
      sentSearches := [];
    }

    /** searchFiles. A refused query only sets the message. Otherwise the
        search clears the old results, finds the folders to look in, sends
        one Drive query, and shows what comes back: the files in Drive's
        order, a message when there are none, or the error. */
    method SearchFiles(fid: string, selectedFolder: string, selectedFileType: string,
                       folders: seq<DriveSearch.Folder>,
                       lister: DriveSearch.FolderLister, height: string -> nat,
                       listFiles: string -> Result<Option<seq<DriveSearch.DriveFile>>, DriveSearch.DriveError>)
      requires DriveSearch.Descends(lister, height)
      modifies this
      ensures query == old(query) && isProcessing == old(isProcessing)
      ensures DriveSearch.QueryProblem(query).Some? ==>
        && searchError == DriveSearch.QueryProblem(query)
        && results == old(results) && loading == old(loading) && error == old(error)
        && lastDownload == old(lastDownload) && sentSearches == old(sentSearches)
      ensures DriveSearch.QueryProblem(query).None? ==>
        var view := SearchOutcome(query, fid, selectedFolder, selectedFileType, folders, lister, height, listFiles);
        && results == view.results && searchError == view.searchError && error == view.error
        && sentSearches == old(sentSearches) + [view.expression]
        && !loading && lastDownload.None?
    {
      var problem := DriveSearch.QueryProblem(query);
      if problem.Some? {
        searchError := problem;
        return;
      }
      StartSearch(fid, selectedFolder, selectedFileType, folders, lister, height, listFiles);
    }

    /** The part of searchFiles after the query passed validation. */
    method StartSearch(fid: string, selectedFolder: string, selectedFileType: string,
                       folders: seq<DriveSearch.Folder>,
                       lister: DriveSearch.FolderLister, height: string -> nat,
                       listFiles: string -> Result<Option<seq<DriveSearch.DriveFile>>, DriveSearch.DriveError>)
      requires DriveSearch.Descends(lister, height)
      modifies this
      ensures query == old(query) && isProcessing == old(isProcessing)
      ensures var view := SearchOutcome(query, fid, selectedFolder, selectedFileType, folders, lister, height, listFiles);
        && results == view.results && searchError == view.searchError && error == view.error
        && sentSearches == old(sentSearches) + [view.expression]
        && !loading && lastDownload.None?
    {
      searchError := None;
      loading := true;
      error := None;
      results := [];
      lastDownload := None;
      var view := RunSearch(query, fid, selectedFolder, selectedFileType, folders, lister, height, listFiles);
      sentSearches := sentSearches + [view.expression];
      results := view.results;
      searchError := view.searchError;
      error := view.error;
      loading := false;
    }

    /** processAndCreateDoc. Without results or a token nothing changes.
        Otherwise the first ten results are gathered and combined, and the
        document is kept as the last download, or the error is shown. */
    method ProcessAndCreateDoc(drive: FileContent.DriveAccess, hasToken: bool, env: CombineFiles.Environment)
      modifies this
      ensures query == old(query) && results == old(results) && searchError == old(searchError)
      ensures loading == old(loading) && sentSearches == old(sentSearches)
      ensures var outcome := FileContent.CreateDocument(drive, results, hasToken, query, env);
        && (outcome.NotStarted? ==>
              error == old(error) && lastDownload == old(lastDownload) && isProcessing == old(isProcessing))
        && (!outcome.NotStarted? ==> !isProcessing)
        && (outcome.Failed? ==> error == Some(outcome.message) && lastDownload == old(lastDownload))
        && (outcome.Downloaded? ==>
              error.None? && lastDownload == Some(Download(outcome.fileName, outcome.paragraphs)))
    {
      if |results| == 0 || !hasToken {
        return;
      }
      isProcessing := true;
      error := None;
      var extractedFiles := FileContent.CollectBatch(drive, results);
      var message: Option<string> := if |extractedFiles| == 0 then Some(FileContent.NoContentMessage) else None;
      var download := lastDownload;
      if |extractedFiles| > 0 {
        var response := CombineFiles.Combine(CombineFiles.Request("POST", Some(extractedFiles), Some(query)), env);
        match response
        case JsonError(_, m) =>
          message := Some(if m == "" then FileContent.CombineFailedMessage else m);
        case Attachment(fileName, paragraphs) =>
          download := Some(Download(fileName, paragraphs));
      }
      error := message;
      lastDownload := download;
      isProcessing := false;
    }
  }
}
