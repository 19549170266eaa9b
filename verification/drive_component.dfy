/**
 * The drive page's view model: the listing with its search, sort and
 * pagination; folder navigation; the upload bookkeeping; the create-folder,
 * profile and bucket forms; and the image, PDF and video preview modals.
 * Every HTTP call is appended to `calls` when it is issued, and its outcome
 * is delivered to the method that models the call's callback.
 */
module Drive {

  import opened JsValues
  import opened Text
  import opened Platform
  import opened DriveModels
  import opened Paging
  import opened Previews
  import opened DriveForms
  import AuthService
  import DriveFileTypes
  import DrivePaths
  import FileOrdering
  import DriveList
  import DriveUpload

  const LoginFirstMessage: string := "Please log in to upload files."
  const CsrfMissingMessage: string := "Failed to get CSRF token"
  const FetchingTokenProgress: string := "Getting CSRF token..."

  /** The calls the page makes through the drive and auth services. */
  datatype ServiceCall =
    | ValidateSessionCall
    | ListFilesCall(path: string)
    | StorageUsageCall
    | CreateFolderCall(parentPath: string, folderName: string)
    | CsrfTokenCall
    | UploadUrlCall(key: string, csrfToken: JsValue)
    | DownloadUrlCall(key: string)
    | UpdateProfileCall(payload: map<string, JsValue>)
    | AssignBucketCall(bucketName: string, username: string)

  /**
   * The error loadFiles keeps: a duplicate-name warning survives the
   * reload, anything else is cleared.
   */
  function ReloadError(e: Option<string>): (r: Option<string>)
    ensures r.Some? <==> DriveUpload.HasDuplicateWarning(e)
    ensures r.Some? ==> r == e
  {
    if DriveUpload.HasDuplicateWarning(e) then e else None
  }

  /** The upload-URL requests for `names`, one per file, in order. */
  function UploadUrlCalls(path: string, names: seq<string>, token: JsValue): seq<ServiceCall> {
    seq(|names|, i requires 0 <= i < |names| => UploadUrlCall(DrivePaths.BuildFilePath(path, names[i]), token))
  }

  /** The redirect an error callback makes: /login on 401 or 403. */
  function AuthRedirect(err: HttpError): seq<string> {
    if err.IsAuthFailure() then ["/login"] else []
  }

  /** `currentUser()?.email`. */
  function CurrentEmail(user: Option<User>): JsValue {
    if user.Some? then user.value.email else Undefined
  }

  const ClosedProfile: ProfileForm := ProfileForm(false, "", "", "", false, Null, Null)

  class DriveComponent {
    const auth: AuthService.Session

    var files: seq<FileItemDto>
    var searchTerm: string
    var filteredFiles: seq<FileItemDto>
    var paginatedFiles: seq<FileItemDto>
    var currentPage: int
    var totalPages: int
    var dateSort: FileOrdering.DateSort
    var currentPath: string
    var loading: bool
    var error: Option<string>
    var storageUsage: JsValue
    var currentUser: Option<User>

    /** The names of the chosen files; None is the null FileList. */
    var selectedFiles: Option<seq<string>>
    var uploading: bool
    var uploadProgress: string
    /** The `validFiles` the CSRF token callback of uploadFiles closes over. */
    var pendingUploads: seq<string>
    /** Reloads finishUpload has scheduled and that have not run yet. */
    var pendingReloads: nat

    var showCreateFolderModal: bool
    var newFolderName: string
    var profile: ProfileForm
    var bucket: BucketForm

    var image: MediaModal
    var pdf: PdfModal
    var video: MediaModal

    /** The service calls issued, oldest first. */
    var calls: seq<ServiceCall>
    /** The routes `router.navigate` was asked for, oldest first. */
    var navigations: seq<string>

    /**
     * The invariant of the page: the shown list is the current listing,
     * filtered by the search and sorted in the current mode; the page count
     * and the current page fit it; the visible rows are the current page's
     * slice; and every shown modal holds the entry it shows.
     */
    ghost predicate Valid()
      reads this`files, this`searchTerm, this`dateSort, this`filteredFiles, this`currentPage,
            this`totalPages, this`paginatedFiles, this`image, this`pdf, this`video
    {
      && filteredFiles == FileOrdering.SortSpec(dateSort, DriveList.Shown(searchTerm, files))
      && totalPages == ShownTotalPages(|filteredFiles|, ItemsPerPage)
      && 1 <= currentPage <= totalPages
      && paginatedFiles == PageOf(filteredFiles, currentPage, ItemsPerPage)
      && ModalValid(image) && ModalValid(pdf.media) && ModalValid(video)
    }

    /** The constructor copies the session's user; everything else starts empty. */
    constructor (auth: AuthService.Session)
      ensures Valid()
      ensures this.auth == auth && currentUser == auth.currentUser
      ensures files == [] && searchTerm == "" && dateSort == FileOrdering.DefaultOrder && currentPage == 1
      ensures currentPath == "" && !loading && error.None? && storageUsage == Null
      ensures selectedFiles.None? && !uploading && uploadProgress == "" && pendingUploads == [] && pendingReloads == 0
      ensures !showCreateFolderModal && newFolderName == "" && profile == ClosedProfile
      ensures bucket == BucketForm(false, "", "", false, Null, Null)
      ensures image == Closed && pdf == ClosedPdf && video == Closed
      ensures calls == [] && navigations == []
    {
      this.auth := auth;
      files, searchTerm, filteredFiles, paginatedFiles := [], "", [], [];
      currentPage, totalPages := 1, 1;
      dateSort := FileOrdering.DefaultOrder;
      currentPath := "";
      loading := false;
      error := None;
      storageUsage := Null;
      currentUser := auth.currentUser;
      selectedFiles := None;
      uploading := false;
      uploadProgress := "";
      pendingUploads := [];
      pendingReloads := 0;
      showCreateFolderModal := false;
      newFolderName := "";
      profile := ClosedProfile;
      bucket := BucketForm(false, "", "", false, Null, Null);
      image, pdf, video := Closed, ClosedPdf, Closed;
      calls, navigations := [], [];
      new;
      assert FileOrdering.SortSpec(FileOrdering.DefaultOrder, DriveList.Shown("", [])) == [];
    }

    // ----- The listing: search, sort and pagination -----

    /**
     * updatePagination: the page count for the shown list, the current page
     * moved back when it is past the end, and that page's slice.
     */
    method UpdatePagination()
      modifies this`totalPages, this`currentPage, this`paginatedFiles
      ensures totalPages == ShownTotalPages(|filteredFiles|, ItemsPerPage)
      ensures currentPage == ClampPage(old(currentPage), |filteredFiles|, ItemsPerPage)
      ensures paginatedFiles == PageOf(filteredFiles, currentPage, ItemsPerPage)
    {
      var totalItems := |filteredFiles|;
      var raw := CeilDiv(totalItems, ItemsPerPage);
      totalPages := Max(1, raw);
      if currentPage > raw {
        currentPage := Max(1, raw);
      }
      var startIndex := (currentPage - 1) * ItemsPerPage;
      var endIndex := startIndex + ItemsPerPage;
      paginatedFiles := JsSlice(filteredFiles, startIndex, endIndex);
    }

    /**
     * The first half of updateFilteredFiles: the listing filtered by the
     * search and sorted. A blank search hands `files()` itself to the
     * in-place sort, so the listing is left sorted too.
     */
    method RebuildListing()
      modifies this`files, this`filteredFiles
      ensures DriveList.SearchKey(searchTerm) == "" ==> files == FileOrdering.SortSpec(dateSort, old(files))
      ensures DriveList.SearchKey(searchTerm) != "" ==> files == old(files)
      ensures filteredFiles == FileOrdering.SortSpec(dateSort, DriveList.Shown(searchTerm, old(files)))
      ensures filteredFiles == FileOrdering.SortSpec(dateSort, DriveList.Shown(searchTerm, files))
    {
      var search := DriveList.SearchKey(searchTerm);
      var filtered := if search == "" then files else DriveList.Filter(search, files);
      var sorted := FileOrdering.SortFiles(dateSort, filtered);
      if search == "" {
        FileOrdering.SortTwice(dateSort, files);
        files := sorted;
      }
      filteredFiles := sorted;
    }

    /** updateFilteredFiles: the listing filtered by the search, sorted, shown from page 1. */
    method UpdateFilteredFiles()
      requires ModalValid(image) && ModalValid(pdf.media) && ModalValid(video)
      modifies this`files, this`filteredFiles, this`currentPage, this`totalPages, this`paginatedFiles
      ensures Valid()
      ensures DriveList.SearchKey(searchTerm) == "" ==> files == FileOrdering.SortSpec(dateSort, old(files))
      ensures DriveList.SearchKey(searchTerm) != "" ==> files == old(files)
      ensures filteredFiles == FileOrdering.SortSpec(dateSort, DriveList.Shown(searchTerm, old(files)))
      ensures currentPage == 1
    {
      RebuildListing();
      currentPage := 1;
      UpdatePagination();
      ClampPageInRange(1, |filteredFiles|, ItemsPerPage);
    }

    /** onSearchChange: the typed text becomes the search and the list is rebuilt. */
    method OnSearchChange(value: string)
      requires Valid()
      modifies this`searchTerm, this`files, this`filteredFiles, this`currentPage, this`totalPages, this`paginatedFiles
      ensures Valid() && searchTerm == value && currentPage == 1
      ensures filteredFiles == FileOrdering.SortSpec(dateSort, DriveList.Shown(value, old(files)))
    {
      searchTerm := value;
      UpdateFilteredFiles();
    }

    /** toggleDateSort: the next mode of the cycle, and the list rebuilt in it. */
    method ToggleDateSort()
      requires Valid()
      modifies this`dateSort, this`files, this`filteredFiles, this`currentPage, this`totalPages, this`paginatedFiles
      ensures Valid() && currentPage == 1
      ensures dateSort == FileOrdering.ToggleDateSort(old(dateSort))
      ensures filteredFiles == FileOrdering.SortSpec(dateSort, DriveList.Shown(searchTerm, old(files)))
    {
      dateSort := FileOrdering.ToggleDateSort(dateSort);
      UpdateFilteredFiles();
    }

    /** goToPage: a page in [1, totalPages] becomes current; any other page changes nothing. */
    method GoToPage(page: int)
      requires Valid()
      modifies this`currentPage, this`totalPages, this`paginatedFiles
      ensures Valid()
      ensures 1 <= page <= old(totalPages) ==> currentPage == page && totalPages == old(totalPages)
      ensures !(1 <= page <= old(totalPages)) ==>
                currentPage == old(currentPage) && paginatedFiles == old(paginatedFiles)
      ensures paginatedFiles == PageOf(filteredFiles, currentPage, ItemsPerPage)
    {
      if page >= 1 && page <= totalPages {
        currentPage := page;
        UpdatePagination();
      }
    }

    /**
     * getPageNumbers: consecutive pages from two before the current one
     * (but not below 1), at most five, none past the last page; the
     * current page is among them, and a window that starts on an existing
     * page is never empty.
     */
    method GetPageNumbers() returns (pages: seq<int>)
      ensures |pages| <= MaxPageButtons
      ensures forall i :: 0 <= i < |pages| ==> pages[i] == WindowStart(currentPage) + i
      ensures forall i :: 0 <= i < |pages| ==> 1 <= pages[i] <= totalPages
      ensures |pages| == Max(0, Min(totalPages, WindowStart(currentPage) + MaxPageButtons - 1) - WindowStart(currentPage) + 1)
      ensures 1 <= currentPage <= totalPages ==> currentPage in pages
      ensures WindowStart(currentPage) <= totalPages ==> |pages| > 0
    {
      var startPage := Max(1, currentPage - MaxPageButtons / 2);
      var endPage := Min(totalPages, startPage + MaxPageButtons - 1);
      pages := [];
      var i := startPage;
      while i <= endPage
        invariant startPage <= i <= Max(startPage, endPage + 1)
        invariant |pages| == i - startPage
        invariant forall k :: 0 <= k < |pages| ==> pages[k] == startPage + k
      {
        pages := pages + [i];
        i := i + 1;
      }
      if 1 <= currentPage <= totalPages {
        assert pages[currentPage - startPage] == currentPage;
      }
    }

    // ----- Loading and navigation -----

    /** ngOnInit: the session check is sent and the (still empty) list is built. */
    method NgOnInit()
      requires Valid()
      modifies this`files, this`filteredFiles, this`currentPage, this`totalPages, this`paginatedFiles, this`calls
      ensures Valid() && currentPage == 1
      ensures calls == old(calls) + [ValidateSessionCall]
      ensures filteredFiles == FileOrdering.SortSpec(dateSort, DriveList.Shown(searchTerm, old(files)))
    {
      calls := calls + [ValidateSessionCall];
      UpdateFilteredFiles();
    }

    /** loadFiles: loading starts, a duplicate warning is kept and any other error cleared, the listing is requested. */
    method LoadFiles()
      modifies this`loading, this`error, this`calls
      ensures loading && error == ReloadError(old(error))
      ensures calls == old(calls) + [ListFilesCall(currentPath)]
    {
      loading := true;
      var currentError := error;
      var preserveError := currentError.Some? && currentError.value != "" && Contains(currentError.value, DriveUpload.DuplicateMarker);
      if !preserveError {
        error := None;
      }
      calls := calls + [ListFilesCall(currentPath)];
    }

    /** loadStorageUsage: the usage is requested. */
    method LoadStorageUsage()
      modifies this`calls
      ensures calls == old(calls) + [StorageUsageCall]
    {
      calls := calls + [StorageUsageCall];
    }

    /** The storage usage callbacks: the usage is stored; an error redirects on 401 or 403. */
    method OnStorageUsage(result: HttpResult)
      modifies this`storageUsage, this`navigations
      ensures result.Ok? ==> storageUsage == result.body && navigations == old(navigations)
      ensures result.Failed? ==> storageUsage == old(storageUsage) && navigations == old(navigations) + AuthRedirect(result.err)
    {
      match result
      case Ok(usage) => storageUsage := usage;
      case Failed(err) =>
        if err.IsAuthFailure() {
          navigations := navigations + ["/login"];
        }
    }

    /**
     * The session check's outcome: a valid session copies the user and
     * loads the listing and the usage; otherwise the page goes to /login.
     */
    method OnSessionValidated(result: HttpResult)
      modifies auth, this`currentUser, this`loading, this`error, this`calls, this`navigations
      ensures var valid := result.Ok? && !IsNullish(result.body) && Truthy(OptGet(result.body, "success"));
        if valid then
          && auth.currentUser == Some(AuthService.SessionUser(result.body)) && currentUser == auth.currentUser
          && loading && error == ReloadError(old(error))
          && calls == old(calls) + [ListFilesCall(currentPath), StorageUsageCall] && navigations == old(navigations)
        else
          && auth.currentUser.None? && currentUser == old(currentUser) && loading == old(loading) && error == old(error)
          && calls == old(calls) && navigations == old(navigations) + ["/login"]
    {
      var valid := auth.ValidateSession(result);
      if valid {
        currentUser := auth.currentUser;
        LoadFiles();
        LoadStorageUsage();
      } else {
        navigations := navigations + ["/login"];
      }
    }

    /**
     * The listing's next callback: the entries are sorted and become the
     * listing, the shown list is rebuilt from page 1, and loading ends.
     */
    method OnFilesListed(items: seq<FileItemDto>)
      requires Valid()
      modifies this`files, this`filteredFiles, this`currentPage, this`totalPages, this`paginatedFiles, this`loading
      ensures Valid() && !loading
      ensures files == FileOrdering.SortSpec(dateSort, items) && currentPage == 1
      ensures filteredFiles == FileOrdering.SortSpec(dateSort, DriveList.Shown(searchTerm, files))
    {
      var sortedFiles := FileOrdering.SortFiles(dateSort, items);
      files := sortedFiles;
      FileOrdering.SortTwice(dateSort, items);
      UpdateFilteredFiles();
      loading := false;
    }

    /**
     * The listing's error callback: loading ends, the error shows the
     * message, and a 401 or 403 sends the page to /login.
     */
    method OnListingFailed(err: HttpError)
      modifies this`loading, this`error, this`navigations
      ensures !loading
      ensures error == Some("Failed to load files: " + Display(err.message))
      ensures navigations == old(navigations) + AuthRedirect(err)
    {
      error := Some("Failed to load files: " + Display(err.message));
      loading := false;
      if err.IsAuthFailure() {
        navigations := navigations + ["/login"];
      }
    }

    /**
     * navigateToFolder: `split('/').pop() || folderName`, without a
     * trailing '/', is appended to the current path and the listing
     * reloaded; a key with a trailing '/' keeps its whole prefix.
     */
    method NavigateToFolder(folderName: string)
      modifies this`currentPath, this`loading, this`error, this`calls
      ensures currentPath == DrivePaths.BuildFilePath(old(currentPath), DrivePaths.FolderNameToOpenAsWritten(folderName))
      ensures loading && error == ReloadError(old(error)) && calls == old(calls) + [ListFilesCall(currentPath)]
    {
      var cleanFolderName := DrivePaths.FolderNameToOpenAsWritten(folderName);
      currentPath := DrivePaths.BuildFilePath(currentPath, cleanFolderName);
      LoadFiles();
    }

    /** navigateUp: at the root nothing happens; otherwise the last segment is dropped and the listing reloaded. */
    method NavigateUp()
      modifies this`currentPath, this`loading, this`error, this`calls
      ensures IsBlank(old(currentPath)) ==>
                currentPath == old(currentPath) && loading == old(loading) && error == old(error) && calls == old(calls)
      ensures !IsBlank(old(currentPath)) ==>
                && Some(currentPath) == DrivePaths.NavigateUpPath(old(currentPath))
                && loading && error == ReloadError(old(error)) && calls == old(calls) + [ListFilesCall(currentPath)]
    {
      var up := DrivePaths.NavigateUpPath(currentPath);
      if up.None? {
        return;
      }
      currentPath := up.value;
      LoadFiles();
    }

    /** navigateHome: back to the root, and the listing reloaded. */
    method NavigateHome()
      modifies this`currentPath, this`loading, this`error, this`calls
      ensures currentPath == "" && loading && error == ReloadError(old(error))
      ensures calls == old(calls) + [ListFilesCall("")]
    {
      currentPath := "";
      LoadFiles();
    }

    // ----- Upload -----

    /** onFileSelect and onDrop: a non-empty choice becomes the selection and is uploaded. */
    method OnFilesChosen(names: seq<string>)
      modifies this`selectedFiles, this`error, this`navigations, this`uploading, this`uploadProgress,
               this`calls, this`pendingUploads
      ensures |names| == 0 ==>
                && selectedFiles == old(selectedFiles) && error == old(error) && uploading == old(uploading)
                && calls == old(calls) && navigations == old(navigations)
      ensures |names| > 0 ==> UploadStarted(names, old(error), old(uploading), old(uploadProgress),
                                            old(calls), old(navigations), old(pendingUploads))
    {
      if |names| > 0 {
        selectedFiles := Some(names);
        UploadFiles();
      }
    }

    /**
     * The state uploadFiles leaves for a non-empty selection `names`. With no
     * user signed in: the log-in message and /login. Otherwise the
     * selection is split into duplicates and valid files; with no valid file
     * the upload ends at once (no request, uploading false, the selection
     * cleared), else the token request is sent for the valid files. The
     * error is the duplicate warning, if there are duplicates.
     */
    ghost predicate UploadStarted(names: seq<string>, error0: Option<string>, uploading0: bool, progress0: string,
                                  calls0: seq<ServiceCall>, navigations0: seq<string>, pending0: seq<string>)
      reads this, auth
    {
      var dups := DriveUpload.Duplicates(DriveUpload.ExistingNames(files), names);
      var valid := DriveUpload.Fresh(DriveUpload.ExistingNames(files), names);
      if auth.currentUser.None? then
        && error == Some(LoginFirstMessage) && navigations == navigations0 + ["/login"]
        && uploading == uploading0 && selectedFiles == Some(names) && uploadProgress == progress0
        && calls == calls0 && pendingUploads == pending0
      else if |valid| == 0 then
        && error == (if |dups| > 0 then Some(DriveUpload.NothingUploadedMessage(dups)) else None)
        && !uploading && selectedFiles.None? && uploadProgress == progress0
        && calls == calls0 && navigations == navigations0 && pendingUploads == pending0
      else
        && error == (if |dups| > 0 then Some(DriveUpload.ContinuingMessage(dups, |valid|)) else None)
        && uploading && selectedFiles == Some(names) && uploadProgress == FetchingTokenProgress
        && calls == calls0 + [CsrfTokenCall] && navigations == navigations0 && pendingUploads == valid
    }

    /** uploadFiles: nothing for an empty selection, otherwise the state UploadStarted describes. */
    method UploadFiles()
      modifies this`error, this`navigations, this`uploading, this`selectedFiles, this`uploadProgress,
               this`calls, this`pendingUploads
      ensures old(selectedFiles).None? || |old(selectedFiles).value| == 0 ==>
                && error == old(error) && navigations == old(navigations) && uploading == old(uploading)
                && selectedFiles == old(selectedFiles) && uploadProgress == old(uploadProgress)
                && calls == old(calls) && pendingUploads == old(pendingUploads)
      ensures old(selectedFiles).Some? && |old(selectedFiles).value| > 0 ==>
                UploadStarted(old(selectedFiles).value, old(error), old(uploading), old(uploadProgress),
                              old(calls), old(navigations), old(pendingUploads))
    {
      if selectedFiles.None? || |selectedFiles.value| == 0 {
        return;
      }
      if auth.currentUser.None? {
        error := Some(LoginFirstMessage);
        navigations := navigations + ["/login"];
        return;
      }
      uploading := true;
      error := None;
      var existingFileNames := DriveUpload.ExistingNames(files);
      var duplicateFiles, validFiles := DriveUpload.PartitionUploads(existingFileNames, selectedFiles.value);
      if |duplicateFiles| > 0 {
        if |validFiles| == 0 {
          error := Some(DriveUpload.NothingUploadedMessage(duplicateFiles));
          uploading := false;
          selectedFiles := None;
          return;
        } else {
          error := Some(DriveUpload.ContinuingMessage(duplicateFiles, |validFiles|));
        }
      }
      if |validFiles| == 0 {
        // A non-empty selection with no duplicate has a valid file.
        assert false;
      }
      uploadProgress := FetchingTokenProgress;
      pendingUploads := validFiles;
      calls := calls + [CsrfTokenCall];
    }

    /**
     * The token callbacks of uploadFiles. A response without a truthy
     * token, or an error, ends the upload with a message (the selection is
     * kept); a null response throws and changes nothing; a token starts the
     * per-file uploads, whose outcomes are `outcomes`.
     */
    method OnUploadToken(result: HttpResult, outcomes: seq<DriveUpload.UploadOutcome>)
      requires |outcomes| == |pendingUploads|
      modifies this`error, this`uploading, this`selectedFiles, this`uploadProgress, this`calls,
               this`navigations, this`pendingReloads
      ensures result.Failed? ==>
                && error == Some(CsrfMissingMessage + ": " + DriveUpload.ErrorText(result.err)) && !uploading
                && selectedFiles == old(selectedFiles) && calls == old(calls) && navigations == old(navigations)
                && pendingReloads == old(pendingReloads) && uploadProgress == old(uploadProgress)
      ensures result.Ok? && DriveUpload.UploadToken(result.body).None? ==>
                && error == old(error) && uploading == old(uploading) && selectedFiles == old(selectedFiles)
                && calls == old(calls) && navigations == old(navigations) && pendingReloads == old(pendingReloads)
                && uploadProgress == old(uploadProgress)
      ensures result.Ok? && DriveUpload.UploadToken(result.body).Some? && !Truthy(DriveUpload.UploadToken(result.body).value) ==>
                && error == Some(CsrfMissingMessage) && !uploading && selectedFiles == old(selectedFiles)
                && calls == old(calls) && navigations == old(navigations) && pendingReloads == old(pendingReloads)
                && uploadProgress == old(uploadProgress)
      ensures result.Ok? && DriveUpload.UploadToken(result.body).Some? && Truthy(DriveUpload.UploadToken(result.body).value) ==>
                && calls == old(calls) + UploadUrlCalls(currentPath, pendingUploads, DriveUpload.UploadToken(result.body).value)
                && Signals() == DriveUpload.Replay(old(UploadStart(|pendingUploads|)), pendingUploads, outcomes, |pendingUploads|)
    {
      match result
      case Failed(err) =>
        error := Some(CsrfMissingMessage + ": " + DriveUpload.ErrorText(err));
        uploading := false;
      case Ok(csrfResponse) =>
        match DriveUpload.UploadToken(csrfResponse)
        case None =>
        case Some(csrfToken) =>
          if !Truthy(csrfToken) {
            error := Some(CsrfMissingMessage);
            uploading := false;
            return;
          }
          UploadFilesWithToken(pendingUploads, csrfToken, outcomes);
    }

    /** The signals the callbacks of an upload write. */
    function Signals(): DriveUpload.UploadSignals
      reads this`error, this`uploading, this`selectedFiles, this`uploadProgress, this`pendingReloads, this`navigations
    {
      DriveUpload.UploadSignals(error, uploading, selectedFiles, uploadProgress, pendingReloads, navigations)
    }

    /** The signals when the per-file callbacks of uploadFilesWithToken start: the progress at 0 of `total`. */
    function UploadStart(total: nat): DriveUpload.UploadSignals
      reads this`error, this`uploading, this`selectedFiles, this`uploadProgress, this`pendingReloads, this`navigations
    {
      Signals().(progress := DriveUpload.ProgressText(0, total))
    }

    /**
     * uploadFilesWithToken: the URL requests go out for every file, then
     * the outcomes arrive one by one, counted as completed or failed. The
     * check `completed + failed === files.length` can only hold at the last
     * outcome, and an authentication failure returns before it, so
     * finishUpload runs exactly when the last outcome is not one.
     */
    method UploadFilesWithToken(names: seq<string>, token: JsValue, outcomes: seq<DriveUpload.UploadOutcome>)
      requires |outcomes| == |names|
      modifies this`error, this`uploading, this`selectedFiles, this`uploadProgress, this`calls,
               this`navigations, this`pendingReloads
      ensures calls == old(calls) + UploadUrlCalls(currentPath, names, token)
      ensures Signals() == DriveUpload.Replay(old(UploadStart(|names|)), names, outcomes, |names|)
    {
      var n := |names|;
      var completed, failed := 0, 0;
      RequestUploadUrls(names, token);
      uploadProgress := DriveUpload.ProgressText(0, n);
      ghost var start := Signals();
      var i := 0;
      while i < n
        modifies this`error, this`navigations, this`uploadProgress, this`uploading, this`selectedFiles, this`pendingReloads
        invariant 0 <= i <= n
        invariant completed == DriveUpload.StoredCount(outcomes[..i]) && failed == i - completed
        invariant Signals() == DriveUpload.Replay(start, names[..i], outcomes[..i], n)
      {
        assert outcomes[..i + 1][..i] == outcomes[..i];
        assert names[..i + 1][..i] == names[..i];
        completed, failed := TakeOutcome(names[i], outcomes[i], n, completed, failed);
        i := i + 1;
      }
      assert outcomes[..n] == outcomes && names[..n] == names;
    }

    /**
     * The callbacks of one file in uploadFilesWithToken, with the counters
     * they share: the file's message and redirect, its count, and
     * finishUpload once an outcome that reaches the completion check brings
     * the counts to the number of files.
     */
    method TakeOutcome(name: string, outcome: DriveUpload.UploadOutcome, total: nat, completed: nat, failed: nat)
      returns (completed': nat, failed': nat)
      modifies this`error, this`navigations, this`uploadProgress, this`uploading, this`selectedFiles, this`pendingReloads
      ensures completed' == completed + (if outcome.Stored? then 1 else 0)
      ensures failed' == failed + (if outcome.Stored? then 0 else 1)
      ensures Signals() == DriveUpload.OnOutcome(old(Signals()), name, outcome, total, completed, failed)
    {
      match outcome
      case Stored =>
        completed', failed' := completed + 1, failed;
        uploadProgress := DriveUpload.ProgressText(completed', total);
        if completed' + failed' == total {
          FinishUpload(completed', failed');
        }
      case StorageFailed(err) =>
        completed', failed' := completed, failed + 1;
        error := DriveUpload.EventMessage(name, outcome);
        if completed' + failed' == total {
          FinishUpload(completed', failed');
        }
      case UrlFailed(err) =>
        completed', failed' := completed, failed + 1;
        if err.IsAuthFailure() {
          error := DriveUpload.EventMessage(name, outcome);
          navigations := navigations + ["/login"];
          return;
        }
        error := DriveUpload.EventMessage(name, outcome);
        if completed' + failed' == total {
          FinishUpload(completed', failed');
        }
    }

    /** The first loop of uploadFilesWithToken: one upload-URL request per file, in order. */
    method RequestUploadUrls(names: seq<string>, token: JsValue)
      modifies this`calls
      ensures calls == old(calls) + UploadUrlCalls(currentPath, names, token)
    {
      var j := 0;
      while j < |names|
        invariant 0 <= j <= |names|
        invariant calls == old(calls) + UploadUrlCalls(currentPath, names[..j], token)
      {
        assert UploadUrlCalls(currentPath, names[..j + 1], token)
               == UploadUrlCalls(currentPath, names[..j], token) + [UploadUrlCall(DrivePaths.BuildFilePath(currentPath, names[j]), token)];
        calls := calls + [UploadUrlCall(DrivePaths.BuildFilePath(currentPath, names[j]), token)];
        j := j + 1;
      }
      assert names[..j] == names;
    }

    /**
     * finishUpload: the upload ends, the selection and the progress are
     * cleared, the final message replaces the error, and a reload of the
     * listing and the usage is scheduled.
     */
    method FinishUpload(completed: nat, failed: nat)
      modifies this`uploading, this`selectedFiles, this`uploadProgress, this`error, this`pendingReloads
      ensures !uploading && selectedFiles.None? && uploadProgress == ""
      ensures error == DriveUpload.FinishedError(old(error), completed, failed)
      ensures pendingReloads == old(pendingReloads) + 1
    {
      uploading := false;
      selectedFiles := None;
      uploadProgress := "";
      error := DriveUpload.FinishedError(error, completed, failed);
      pendingReloads := pendingReloads + 1;
    }

    /** The reload timer finishUpload scheduled: the listing and the usage are requested again. */
    method OnReloadTimer()
      requires pendingReloads > 0
      modifies this`pendingReloads, this`loading, this`error, this`calls
      ensures pendingReloads == old(pendingReloads) - 1
      ensures loading && error == ReloadError(old(error))
      ensures calls == old(calls) + [ListFilesCall(currentPath), StorageUsageCall]
    {
      pendingReloads := pendingReloads - 1;
      LoadFiles();
      LoadStorageUsage();
    }

    // ----- The create-folder form -----

    /** createFolder: the modal opens with an empty name. */
    method CreateFolder()
      modifies this`newFolderName, this`showCreateFolderModal
      ensures newFolderName == "" && showCreateFolderModal
    {
      newFolderName := "";
      showCreateFolderModal := true;
    }

    /** cancelCreateFolder: the modal closes, the name and the page error are cleared. */
    method CancelCreateFolder()
      modifies this`newFolderName, this`showCreateFolderModal, this`error
      ensures newFolderName == "" && !showCreateFolderModal && error.None?
    {
      showCreateFolderModal := false;
      newFolderName := "";
      error := None;
    }

    /**
     * confirmCreateFolder: a blank name does nothing, a name with a slash
     * shows the slash message, any other name is sent trimmed to be created
     * under the current path.
     */
    method ConfirmCreateFolder()
      modifies this`error, this`calls
      ensures match CheckFolderName(newFolderName)
        case Ignored => error == old(error) && calls == old(calls)
        case Rejected(m) => error == Some(m) && calls == old(calls)
        case Accepted(name) => error == old(error) && calls == old(calls) + [CreateFolderCall(currentPath, name)]
    {
      match CheckFolderName(newFolderName)
      case Ignored =>
      case Rejected(m) =>
        error := Some(m);
      case Accepted(name) =>
        calls := calls + [CreateFolderCall(currentPath, name)];
    }

    /**
     * The create-folder callbacks: success reloads the listing and the
     * usage and closes the modal (which clears the error); an error shows
     * its message and redirects on 401 or 403.
     */
    method OnFolderCreated(result: HttpResult)
      modifies this`loading, this`error, this`calls, this`newFolderName, this`showCreateFolderModal, this`navigations
      ensures result.Ok? ==>
                && loading && error.None? && !showCreateFolderModal && newFolderName == ""
                && calls == old(calls) + [ListFilesCall(currentPath), StorageUsageCall] && navigations == old(navigations)
      ensures result.Failed? ==>
                && error == Some("Failed to create folder: " + DriveUpload.ErrorText(result.err))
                && loading == old(loading) && showCreateFolderModal == old(showCreateFolderModal)
                && newFolderName == old(newFolderName) && calls == old(calls)
                && navigations == old(navigations) + AuthRedirect(result.err)
    {
      match result
      case Ok(_) =>
        LoadFiles();
        LoadStorageUsage();
        CancelCreateFolder();
      case Failed(err) =>
        error := Some("Failed to create folder: " + DriveUpload.ErrorText(err));
        if err.IsAuthFailure() {
          navigations := navigations + ["/login"];
        }
    }

    // ----- The profile form -----

    /**
     * openUpdateProfile: the modal opens with both messages cleared; a
     * signed-in user's email, when it is a non-empty text, is copied into
     * the email input.
     */
    method OpenUpdateProfile()
      modifies this`profile
      ensures profile.show && profile.error == Null && profile.success == Null
      ensures profile.currentPassword == old(profile.currentPassword) && profile.newPassword == old(profile.newPassword)
      ensures profile.loading == old(profile.loading)
      ensures profile.email == (if CurrentEmail(currentUser).Str? && CurrentEmail(currentUser).s != ""
                                then CurrentEmail(currentUser).s else old(profile.email))
    {
      profile := profile.(show := true, error := Null, success := Null);
      var email := CurrentEmail(currentUser);
      if email.Str? && email.s != "" {
        profile := profile.(email := email.s);
      }
    }

    /** cancelUpdateProfile: the modal closes and its inputs and messages are cleared. */
    method CancelUpdateProfile()
      modifies this`profile
      ensures profile == ClosedProfile.(loading := old(profile.loading))
    {
      profile := ProfileForm(false, "", "", "", profile.loading, Null, Null);
    }

    /**
     * updateProfile: a refused input shows its message and sends nothing;
     * otherwise loading starts, both messages are cleared and the payload
     * is sent.
     */
    method UpdateProfile()
      modifies this`profile, this`calls
      ensures match CheckProfileUpdate(old(profile.email), old(profile.currentPassword), old(profile.newPassword), CurrentEmail(currentUser))
        case ProfileRejected(m) => profile == old(profile).(error := Str(m)) && calls == old(calls)
        case ProfilePayload(p) =>
          profile == old(profile).(loading := true, error := Null, success := Null) && calls == old(calls) + [UpdateProfileCall(p)]
    {
      match CheckProfileUpdate(profile.email, profile.currentPassword, profile.newPassword, CurrentEmail(currentUser))
      case ProfileRejected(m) =>
        profile := profile.(error := Str(m));
      case ProfilePayload(p) =>
        profile := profile.(loading := true, error := Null, success := Null);
        calls := calls + [UpdateProfileCall(p)];
    }

    /**
     * The profile callbacks. Loading ends. A response shows its message;
     * when it carries a truthy email, the session stores the returned
     * username and email with the page user's admin flag, and the page
     * user becomes the username and email alone. A null response throws
     * after loading ends. An error shows the server's message or the
     * generic failure.
     */
    method OnProfileUpdated(result: HttpResult)
      modifies auth, this`profile, this`currentUser
      ensures !profile.loading
      ensures result.Ok? && IsNullish(result.body) ==>
                profile == old(profile).(loading := false) && currentUser == old(currentUser) && auth.currentUser == old(auth.currentUser)
      ensures result.Ok? && !IsNullish(result.body) ==>
                && profile == old(profile).(loading := false, success := ProfileSuccessMessage(result.body).value)
                && (Truthy(OptGet(result.body, "email")) ==>
                      && auth.currentUser == Some(User(OptGet(result.body, "username"), OptGet(result.body, "email"),
                                                       if old(currentUser).Some? then old(currentUser).value.admin else Undefined))
                      && currentUser == Some(User(OptGet(result.body, "username"), OptGet(result.body, "email"), Undefined)))
                && (!Truthy(OptGet(result.body, "email")) ==>
                      currentUser == old(currentUser) && auth.currentUser == old(auth.currentUser))
      ensures result.Failed? ==>
                profile == old(profile).(loading := false, error := ProfileErrorMessage(result.err))
                && currentUser == old(currentUser) && auth.currentUser == old(auth.currentUser)
    {
      profile := profile.(loading := false);
      match result
      case Ok(response) =>
        match ProfileSuccessMessage(response) {
          case None =>
          case Some(m) =>
            profile := profile.(success := m);
            var email := OptGet(response, "email");
            if Truthy(email) {
              var admin := if currentUser.Some? then currentUser.value.admin else Undefined;
              auth.SetCurrentUser(Some(User(OptGet(response, "username"), email, admin)));
              currentUser := Some(User(OptGet(response, "username"), email, Undefined));
            }
        }
      case Failed(err) =>
        profile := profile.(error := ProfileErrorMessage(err));
    }

    // ----- The bucket form -----

    /** openAssignBucketModal: the modal opens with empty inputs and no messages. */
    method OpenAssignBucketModal()
      modifies this`bucket
      ensures bucket == BucketForm(true, "", "", old(bucket.loading), Null, Null)
    {
      bucket := BucketForm(true, "", "", bucket.loading, Null, Null);
    }

    /** cancelAssignBucket: the modal closes with empty inputs and no messages. */
    method CancelAssignBucket()
      modifies this`bucket
      ensures bucket == BucketForm(false, "", "", old(bucket.loading), Null, Null)
    {
      bucket := BucketForm(false, "", "", bucket.loading, Null, Null);
    }

    /**
     * assignBucket: a blank input shows the message and sends nothing;
     * otherwise loading starts, both messages are cleared and the trimmed
     * names are sent.
     */
    method AssignBucket()
      modifies this`bucket, this`calls
      ensures match CheckAssignBucket(old(bucket.bucketName), old(bucket.username))
        case BucketRejected(m) => bucket == old(bucket).(error := Str(m)) && calls == old(calls)
        case BucketRequest(b, u) =>
          bucket == old(bucket).(loading := true, error := Null, success := Null) && calls == old(calls) + [AssignBucketCall(b, u)]
    {
      match CheckAssignBucket(bucket.bucketName, bucket.username)
      case BucketRejected(m) =>
        bucket := bucket.(error := Str(m));
      case BucketRequest(b, u) =>
        bucket := bucket.(loading := true, error := Null, success := Null);
        calls := calls + [AssignBucketCall(b, u)];
    }

    /**
     * The bucket callbacks: loading ends; a response shows its message (a
     * null response throws before that), an error the first truthy of the
     * body's message, the error's message and the generic failure.
     */
    method OnBucketAssigned(result: HttpResult)
      modifies this`bucket
      ensures result.Ok? ==> bucket == old(bucket).(loading := false, success :=
                match BucketSuccessMessage(result.body) case None => old(bucket.success) case Some(m) => m)
      ensures result.Failed? ==> bucket == old(bucket).(loading := false, error := BucketErrorMessage(result.err))
    {
      bucket := bucket.(loading := false);
      match result
      case Ok(response) =>
        match BucketSuccessMessage(response) {
          case None =>
          case Some(m) => bucket := bucket.(success := m);
        }
      case Failed(err) =>
        bucket := bucket.(error := BucketErrorMessage(err));
    }

    /** dismissError. */
    method DismissError()
      modifies this`error
      ensures error.None?
    {
      error := None;
    }

    // ----- Preview modals -----

    /** previewImage: an image entry opens the image modal and its URL is requested; any other entry changes nothing. */
    method PreviewImage(file: FileItemDto)
      requires Valid()
      modifies this`image, this`calls
      ensures Valid()
      ensures DriveFileTypes.IsImageFile(file.name) ==>
                image == Opening(file) && calls == old(calls) + [DownloadUrlCall(DrivePaths.BuildFilePath(currentPath, file.name))]
      ensures !DriveFileTypes.IsImageFile(file.name) ==> image == old(image) && calls == old(calls)
    {
      if !DriveFileTypes.IsImageFile(file.name) {
        return;
      }
      image := Opening(file);
      calls := calls + [DownloadUrlCall(DrivePaths.BuildFilePath(currentPath, file.name))];
    }

    /** The image URL callbacks: the URL is set (loading ends at the load event); an error ends loading with the error flag. */
    method OnImageUrl(result: UrlResult)
      requires Valid()
      modifies this`image
      ensures Valid()
      ensures result.Url? ==> image == old(image).(url := Some(result.url))
      ensures result.NoUrl? ==> image == LoadFailed(old(image))
    {
      match result
      case Url(u) => image := image.(url := Some(u));
      case NoUrl(_) => image := LoadFailed(image);
    }

    /** closeImagePreview. */
    method CloseImagePreview()
      requires Valid()
      modifies this`image
      ensures Valid() && image == Closed
    {
      image := Closed;
    }

    /** onImageLoad. */
    method OnImageLoad()
      requires Valid()
      modifies this`image
      ensures Valid() && image == Loaded(old(image))
    {
      image := Loaded(image);
    }

    /** onImageError. */
    method OnImageError()
      requires Valid()
      modifies this`image
      ensures Valid() && image == LoadFailed(old(image))
    {
      image := LoadFailed(image);
    }

    /**
     * previewPdf: a PDF entry opens the PDF modal with no password prompt
     * and an empty password, and its URL is requested; any other entry
     * changes nothing.
     */
    method PreviewPdf(file: FileItemDto)
      requires Valid()
      modifies this`pdf, this`calls
      ensures Valid()
      ensures DriveFileTypes.IsPdfFile(file.name) ==>
                && pdf == PdfModal(Opening(file), false, "", None)
                && calls == old(calls) + [DownloadUrlCall(DrivePaths.BuildFilePath(currentPath, file.name))]
      ensures !DriveFileTypes.IsPdfFile(file.name) ==> pdf == old(pdf) && calls == old(calls)
    {
      if !DriveFileTypes.IsPdfFile(file.name) {
        return;
      }
      pdf := PdfModal(Opening(file), false, "", None);
      calls := calls + [DownloadUrlCall(DrivePaths.BuildFilePath(currentPath, file.name))];
    }

    /**
     * The PDF URL callbacks: the URL is set and loading ends. An error that
     * asks for a password shows the password prompt; any other error sets
     * the error flag; an error whose message check throws changes nothing.
     */
    method OnPdfUrl(result: UrlResult)
      requires Valid()
      modifies this`pdf
      ensures Valid()
      ensures result.Url? ==> pdf == old(pdf).(media := old(pdf.media).(url := Some(result.url), loading := false))
      ensures result.NoUrl? ==>
                match PdfNeedsPassword(result.err.status, result.err.BodyMessage())
                case None => pdf == old(pdf)
                case Some(needed) =>
                  if needed then pdf == old(pdf).(passwordRequired := true, media := old(pdf.media).(loading := false))
                  else pdf == old(pdf).(media := LoadFailed(old(pdf.media)))
    {
      match result
      case Url(u) =>
        pdf := pdf.(media := pdf.media.(url := Some(u), loading := false));
      case NoUrl(err) =>
        match PdfNeedsPassword(err.status, err.BodyMessage())
        case None =>
        case Some(needed) =>
          if needed {
            pdf := pdf.(passwordRequired := true, media := pdf.media.(loading := false));
          } else {
            pdf := pdf.(media := LoadFailed(pdf.media));
          }
    }

    /**
     * loadPdfWithPassword: a blank password does nothing; otherwise loading
     * starts and the password error is cleared, and when the modal holds an
     * entry its URL is requested again.
     */
    method LoadPdfWithPassword()
      requires Valid()
      modifies this`pdf, this`calls
      ensures Valid()
      ensures IsBlank(old(pdf.password)) ==> pdf == old(pdf) && calls == old(calls)
      ensures !IsBlank(old(pdf.password)) ==>
                pdf == old(pdf).(media := old(pdf.media).(loading := true), passwordError := None)
      ensures !IsBlank(old(pdf.password)) && old(pdf.media.file).Some? ==>
                calls == old(calls) + [DownloadUrlCall(DrivePaths.BuildFilePath(currentPath, old(pdf.media.file).value.name))]
      ensures old(pdf.media.file).None? ==> calls == old(calls)
    {
      TrimEmptyIffBlank(pdf.password);
      if Trim(pdf.password) == "" {
        return;
      }
      pdf := pdf.(media := pdf.media.(loading := true), passwordError := None);
      if pdf.media.file.None? {
        return;
      }
      calls := calls + [DownloadUrlCall(DrivePaths.BuildFilePath(currentPath, pdf.media.file.value.name))];
    }

    /** The callbacks of the password retry: the URL hides the prompt; an error shows the password error. Loading ends. */
    method OnPdfPasswordUrl(result: UrlResult)
      requires Valid()
      modifies this`pdf
      ensures Valid()
      ensures result.Url? ==>
                pdf == old(pdf).(media := old(pdf.media).(url := Some(result.url), loading := false), passwordRequired := false)
      ensures result.NoUrl? ==>
                pdf == old(pdf).(media := old(pdf.media).(loading := false), passwordError := Some(PdfPasswordError))
    {
      match result
      case Url(u) =>
        pdf := pdf.(media := pdf.media.(url := Some(u), loading := false), passwordRequired := false);
      case NoUrl(_) =>
        pdf := pdf.(media := pdf.media.(loading := false), passwordError := Some(PdfPasswordError));
    }

    /** closePdfPreview. */
    method ClosePdfPreview()
      requires Valid()
      modifies this`pdf
      ensures Valid() && pdf == ClosedPdf
    {
      pdf := ClosedPdf;
    }

    /** onPdfLoad. */
    method OnPdfLoad()
      requires Valid()
      modifies this`pdf
      ensures Valid() && pdf == old(pdf).(media := Loaded(old(pdf.media)))
    {
      pdf := pdf.(media := Loaded(pdf.media));
    }

    /** onPdfError. */
    method OnPdfError()
      requires Valid()
      modifies this`pdf
      ensures Valid() && pdf == old(pdf).(media := LoadFailed(old(pdf.media)))
    {
      pdf := pdf.(media := LoadFailed(pdf.media));
    }

    /** previewVideo: a video entry opens the video modal and its URL is requested; any other entry changes nothing. */
    method PreviewVideo(file: FileItemDto)
      requires Valid()
      modifies this`video, this`calls
      ensures Valid()
      ensures DriveFileTypes.IsVideoFile(file.name) ==>
                video == Opening(file) && calls == old(calls) + [DownloadUrlCall(DrivePaths.BuildFilePath(currentPath, file.name))]
      ensures !DriveFileTypes.IsVideoFile(file.name) ==> video == old(video) && calls == old(calls)
    {
      if !DriveFileTypes.IsVideoFile(file.name) {
        return;
      }
      video := Opening(file);
      calls := calls + [DownloadUrlCall(DrivePaths.BuildFilePath(currentPath, file.name))];
    }

    /** The video URL callbacks: the URL is set and loading ends; an error ends loading with the error flag. */
    method OnVideoUrl(result: UrlResult)
      requires Valid()
      modifies this`video
      ensures Valid()
      ensures result.Url? ==> video == old(video).(url := Some(result.url), loading := false)
      ensures result.NoUrl? ==> video == LoadFailed(old(video))
    {
      match result
      case Url(u) => video := video.(url := Some(u), loading := false);
      case NoUrl(_) => video := LoadFailed(video);
    }

    /** closeVideoPreview. */
    method CloseVideoPreview()
      requires Valid()
      modifies this`video
      ensures Valid() && video == Closed
    {
      video := Closed;
    }

    /** onVideoLoad. */
    method OnVideoLoad()
      requires Valid()
      modifies this`video
      ensures Valid() && video == Loaded(old(video))
    {
      video := Loaded(video);
    }

    /** onVideoError. */
    method OnVideoError()
      requires Valid()
      modifies this`video
      ensures Valid() && video == LoadFailed(old(video))
    {
      video := LoadFailed(video);
    }

    /**
     * onEscapeKey: closes the first open modal in the order image, PDF,
     * video, and only that one; with none open nothing changes.
     */
    method OnEscapeKey()
      requires Valid()
      modifies this`image, this`pdf, this`video
      ensures Valid()
      ensures old(image.show) ==> image == Closed && pdf == old(pdf) && video == old(video)
      ensures !old(image.show) && old(pdf.media.show) ==> image == old(image) && pdf == ClosedPdf && video == old(video)
      ensures !old(image.show) && !old(pdf.media.show) && old(video.show) ==>
                image == old(image) && pdf == old(pdf) && video == Closed
      ensures !old(image.show) && !old(pdf.media.show) && !old(video.show) ==>
                image == old(image) && pdf == old(pdf) && video == old(video)
    {
      if image.show {
        CloseImagePreview();
      } else if pdf.media.show {
        ClosePdfPreview();
      } else if video.show {
        CloseVideoPreview();
      }
    }
  }
}
