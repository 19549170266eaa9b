# personal-drive-ui, modelled in Dafny

personal-drive-ui is an Angular client for a personal file store kept in an
S3-style bucket behind a Spring backend. This project models the deterministic
logic that sits around its HTTP calls, and proves what that logic promises.

- **Drive page** (`DriveComponent`):
  - the search filter, the three-state date sort and the folder-first comparator;
  - pagination and the five-button page window;
  - path building and folder navigation;
  - the file-type classification and icon choice;
  - the upload bookkeeping: the duplicate split, the per-file counters and the final message;
  - the create-folder, profile and bucket forms;
  - the image, PDF and video preview modals, and the Escape key.
- **Photos page** (`PhotosComponent`):
  - the newest-first gallery in rows of five;
  - the multi-select set and the bulk delete's completion counting;
  - the thumbnail cache;
  - the preview dispatch with its `.mpg` special case, previous/next navigation and the keyboard handlers.
- **Drive service**: `buildPath`, the choice of CSRF token and the `X-XSRF-TOKEN` header of each request, and the ordered cookie lookup.
- **Auth service**: the current-user cell, `validateSession`, `isAuthenticatedResponse`, `checkAuthStatus`'s error mapping, and the headers of `login`, `updateProfile` and `logout`.
- **Login and register pages**: the input checks, the request, and the mapping from response or status to the message shown.

How the model is built:
- **Pages and session** are classes. An Angular signal becomes a field. A handler becomes a method that changes only the fields its `modifies` clause names.
- **HTTP calls** do not run. A method appends the call it would make to a `calls` (or `requests`) log. The response arrives as an argument of a separate callback method (`OnFilesListed`, `OnUploadToken`, …).
- **Router navigations** are appended to a `navigations` log.
- **Shared logic**, such as sorting, paging, the path helpers, the form checks and the upload message, is a set of pure functions. Lemmas prove properties of them, and the methods are proved against them.
- **Dynamic values**: response bodies and error fields are `JsValue`s (module `JsValues`). Each dynamic read is modelled the way JavaScript evaluates it: what counts as truthy, `a || b`, how a template prints a value, and a property read on null or undefined, which throws.

Modules, in dependency order:
- Foundations:
  - `JsValues`: dynamic values.
  - `Text`: trim, lower-case, split, join and includes.
  - `Platform`: HTTP results and requests.
  - `DriveModels`: `FileItemDto` and `User`.
- Shared logic:
  - `Previews`: the signals of one preview modal.
  - `Cookies`: the `document.cookie` row lookup.
  - `DriveService`.
  - `DrivePaths`.
  - `DriveFileTypes`.
  - `DriveList`: the search filter.
  - `StableSort`: the stable insertion sort, as a function and as an in-place array method.
  - `FileOrdering`: the drive page's comparator and sort modes.
  - `Paging`.
  - `DriveUpload`.
  - `DriveForms`.
  - `PhotoGallery`.
- Classes:
  - `AuthService`.
  - `Login`.
  - `Register`.
  - `Drive`.
  - `Photos`.

## Model

| member | source | states |
|---|---|---|
| JsValues.Get | src/app/components/login.component.ts:284 | reading a property throws exactly when the object is null or undefined |
| JsValues.Or | src/app/components/drive.component.ts:1175 | `a \|\| b` is truthy exactly when one of its operands is |
| Text.TrimEmptyIffBlank | src/app/components/drive.component.ts:1049-1052 | a trimmed text is empty exactly when the text is all white space |
| Text.ToLower | src/app/components/drive.component.ts:1123 | lower-casing keeps the length and maps each character on its own |
| Text.Split | src/app/services/drive.service.ts:237 | `split` always yields at least one part |
| Text.JoinSplit | src/app/components/drive.component.ts:895-898 | joining the parts of a split with the same separator gives back the text |
| Text.SplitJoin | src/app/components/drive.component.ts:895-898 | splitting a join of separator-free parts gives back the parts |
| Text.ContainsCharIff | src/app/components/drive.component.ts:1055 | `includes` of a one-character string is membership of that character |
| Text.NatToString | src/app/components/drive.component.ts:1185 | a count prints as a non-empty run of decimal digits |
| Cookies.Rows | src/app/services/auth.service.ts:220-221 | splitting the cookie string at `'; '` yields at least one row |
| Cookies.FindRow | src/app/services/auth.service.ts:222 | `find` returns the first row with the prefix, and nothing exactly when no row has it |
| Cookies.Lookup | src/app/services/auth.service.ts:219-224 | null exactly when no row starts with `name=`; otherwise the decoded text between the first and second `=` of the first such row |
| Cookies.LookupFirstSpec | src/app/services/drive.service.ts:229-246 | the ordered lookup is null exactly when every name misses, and otherwise is the lookup of the first name that hits |
| Cookies.ValueOfPlainRow | src/app/services/auth.service.ts:223 | for a row `name=v` with no further `=`, the value is all of `v` |
| DriveService.BuildPathBlankParent | src/app/services/drive.service.ts:22-25 | under an empty or white-space parent the name comes back unchanged |
| DriveService.BuildPathJoin | src/app/services/drive.service.ts:27-31 | otherwise one trailing `/` of the parent and one leading `/` of the name are dropped, and the two are joined by a single `/` |
| DriveService.FirstTruthyOr | src/app/services/drive.service.ts:79 | an `\|\|` chain yields its first truthy operand, or the fallback when none is truthy |
| DriveService.ChosenToken | src/app/services/drive.service.ts:79 | the token expression throws exactly on a null or undefined response |
| DriveService.ChosenTokenIsFirstTruthy | src/app/services/drive.service.ts:79 | the chosen token is the first truthy of `token`, `csrfToken` and `_csrf`, falling back to the response itself |
| DriveService.XsrfHeaders | src/app/services/drive.service.ts:80-87 | the `X-XSRF-TOKEN` header is present exactly when the token is a non-empty string, carries that token, and is the only header |
| DriveService.CreateFolderRequest | src/app/services/drive.service.ts:70-97 | a POST to the folder endpoint whose `path` is `buildPath(parent, name)`, with the headers of the chosen token, sent whatever the token |
| DriveService.DeleteFileRequest | src/app/services/drive.service.ts:137-163 | a DELETE with the key, with the headers of the chosen token |
| DriveService.DeleteFolderRequest | src/app/services/drive.service.ts:169-195 | a DELETE to the folder endpoint with the path, with the headers of the chosen token |
| DriveService.UploadUrlRequest | src/app/services/drive.service.ts:104-119 | a POST for the key; the header is present exactly when the token passed is truthy |
| DriveService.GetCsrfTokenSpec | src/app/services/drive.service.ts:225-247 | null exactly when none of the three names has a row; otherwise XSRF-TOKEN wins, then CSRF-TOKEN, then X-CSRF-TOKEN |
| DriveService.GetCsrfTokenValue | src/app/services/drive.service.ts:237 | for a matching row `XSRF-TOKEN=v`, the token is the decoded text of `v` up to its first `=` |
| DriveService.GetCsrfTokenWholeValue | src/app/services/drive.service.ts:237 | when `v` holds no `=`, the token is the decoded `v` |
| DrivePaths.DisplayNameOfKey | src/app/components/drive.component.ts:929-939 | the display name of `dir/seg`, `dir/seg/`, `seg` or `seg/` is the trimmed last segment |
| DrivePaths.BuildFilePathIsBuildPath | src/app/components/drive.component.ts:913-924 | the page's path builder is the service's `buildPath` applied to the trimmed current path |
| DrivePaths.BuildFilePathAppends | src/app/components/drive.component.ts:913-924 | entering a clean segment from a clean path appends that one segment |
| DrivePaths.DisplayPathWellFormed | src/app/components/drive.component.ts:944-950 | the display path has no empty segment, and its segments are the non-empty segments of the trimmed path |
| DrivePaths.NavigateUpPath | src/app/components/drive.component.ts:888-892 | going up does nothing exactly at the root (a blank path) |
| DrivePaths.NavigateUpDropsLastSegment | src/app/components/drive.component.ts:894-898 | going up drops exactly the last non-empty segment |
| DrivePaths.NavigateUpUndoesEnter | src/app/components/drive.component.ts:867-902 | going up after entering a folder returns to the path it was entered from |
| DrivePaths.FolderNameToOpenAsWrittenKeepsPrefix | src/app/components/drive.component.ts:872-877 | as written, a folder name ending in `/` keeps its whole prefix |
| DrivePaths.FolderNameToOpenAsWrittenDoublesPrefix | src/app/components/drive.component.ts:867-886 | as written, opening the full key `p/n/` from `p` leads to `p/p/n` |
| DrivePaths.FolderNameToOpenIsLastSegment | src/app/components/drive.component.ts:867-886 | corrected: for every key form of a folder, the name opened is its last segment |
| DrivePaths.FolderNameToOpenAgrees | src/app/components/drive.component.ts:872-877 | the correction changes nothing for a name without a trailing `/` |
| DriveFileTypes.KindsExclusive | src/app/components/drive.component.ts:955-996 | no name is of two of the image, Excel, PDF and video kinds |
| DriveFileTypes.HasExtensionInIffSuffix | src/app/components/drive.component.ts:955-996 | for a name with a dot, being of a kind means that the lower-cased name ends in one of that kind's extensions |
| DriveFileTypes.BareExtensionName | src/app/components/drive.component.ts:959 | a name without a dot is its own extension, so `png` is an image and `MP4` a video |
| DriveFileTypes.ImageExcelDisjoint | src/app/components/drive.component.ts:958-970 | the image and Excel extension lists share no entry |
| DriveFileTypes.ImageVideoDisjoint | src/app/components/drive.component.ts:958-992 | the image and video extension lists share no entry |
| DriveFileTypes.ExcelVideoDisjoint | src/app/components/drive.component.ts:970-992 | the Excel and video extension lists share no entry |
| DriveFileTypes.PdfInNoList | src/app/components/drive.component.ts:955-996 | `.pdf` is in none of the three lists |
| DriveFileTypes.FileIcon | src/app/components/drive.component.ts:1001-1015 | each icon is chosen exactly when its kind applies and no earlier kind does: folder, image, Excel, PDF, video, then document |
| DriveList.FilterSpec | src/app/components/drive.component.ts:708-710 | the filter keeps exactly the entries whose lower-cased display name contains the key, each at most as often as listed, and all of them when all match |
| DriveList.SearchKeyBlank | src/app/components/drive.component.ts:702-705 | the search key is empty exactly when the search is blank |
| DriveList.ShownSpec | src/app/components/drive.component.ts:701-711 | a blank search shows every entry; any other shows exactly the listed entries that match |
| StableSort.InsertPermutes | src/app/components/drive.component.ts:722-753 | inserting adds exactly the one entry |
| StableSort.InsertSorted | src/app/components/drive.component.ts:722-753 | under a consistent comparator, inserting keeps a sorted list sorted |
| StableSort.SortPermutes | src/app/components/drive.component.ts:722-753 | the sort is a permutation of its input |
| StableSort.SortSorts | src/app/components/drive.component.ts:722-753 | under a consistent comparator, the sort orders every pair |
| StableSort.SortKeepsSorted | src/app/components/drive.component.ts:722-753 | an already sorted list is left as it is (stability) |
| StableSort.SortIdempotent | src/app/components/drive.component.ts:722-753 | sorting twice is sorting once |
| StableSort.InsertInPlace | src/app/components/drive.component.ts:722-753 | the in-place shift turns the array prefix into the insertion of the next entry and leaves the rest alone |
| StableSort.SortInPlace | src/app/components/drive.component.ts:722-753 | sorting the array in place leaves the stable sort of its old contents |
| FileOrdering.ToggleCycle | src/app/components/drive.component.ts:674-683 | the toggle cycles none → asc → desc → none, and three presses restore the mode |
| FileOrdering.SortArrow | src/app/components/drive.component.ts:685-691 | ▲ for ascending, ▼ for descending, ↕ for none |
| FileOrdering.TooltipAnnouncesToggle | src/app/components/drive.component.ts:685-699 | the tooltip names the mode the next press selects, and no two modes share an arrow |
| FileOrdering.StrCompareAntisymmetric | src/app/components/drive.component.ts:740 | swapping the names negates the name comparison |
| FileOrdering.StrCompareTransitive | src/app/components/drive.component.ts:740 | the name comparison is transitive |
| FileOrdering.StrCompareZeroIsEqual | src/app/components/drive.component.ts:740 | names compare equal exactly when they are equal |
| FileOrdering.CompareFlips | src/app/components/drive.component.ts:722-753 | in every mode, a pair out of order is in order when swapped |
| FileOrdering.BeforeTransitive | src/app/components/drive.component.ts:722-753 | in every mode, staying in front is transitive |
| FileOrdering.ComparatorConsistent | src/app/components/drive.component.ts:722-753 | each mode's comparator is consistent, so the stable sort orders by it |
| FileOrdering.SortSpecCorrect | src/app/components/drive.component.ts:722-753 | the sorted list is a permutation of the listing, ordered by the mode's comparator |
| FileOrdering.SortTwice | src/app/components/drive.component.ts:722-753 | sorting a sorted listing again changes nothing |
| FileOrdering.SortedMeaning | src/app/components/drive.component.ts:722-753 | by default folders come before files, folders by lower-cased display name and files newest first; asc and desc order by timestamp only, a missing one counting as 0 |
| FileOrdering.SortFiles | src/app/components/drive.component.ts:722-753 | the method yields the stable sort of the listing in the mode |
| Paging.CeilDiv | src/app/components/drive.component.ts:758 | `Math.ceil(n / d)` is the least page count that holds `n` items |
| Paging.ShownTotalPages | src/app/components/drive.component.ts:758-760 | the page count is at least 1 and its pages hold every item |
| Paging.JsSlice | src/app/components/drive.component.ts:770 | a slice is never longer than the list |
| Paging.ClampPageInRange | src/app/components/drive.component.ts:762-765 | the clamped page lies in [1, totalPages], and a page already in range is kept |
| Paging.PageWithinBounds | src/app/components/drive.component.ts:768-772 | a page in range is the contiguous slice from (page−1)·20, at most 20 long, and non-empty for a non-empty list |
| Paging.PagesConcat | src/app/components/drive.component.ts:768-772 | the first `k` pages, read in order, are the first `k`·`d` items |
| Paging.PagesIndex | src/app/components/drive.component.ts:768-772 | the `i`-th of `k` pages is page `i`+1 |
| Paging.PagesCoverList | src/app/components/drive.component.ts:755-773 | all pages, read in order, are the whole list |
| DriveUpload.PartitionUploads | src/app/components/drive.component.ts:1122-1134 | the `forEach` pushes exactly the duplicates to one list and the rest to the other, in selection order |
| DriveUpload.PartitionMultiset | src/app/components/drive.component.ts:1128-1134 | every selected file lands in exactly one of the two lists |
| DriveUpload.PartitionFlags | src/app/components/drive.component.ts:1128-1134 | the duplicate list holds only duplicates and the valid list none |
| DriveUpload.PartitionExact | src/app/components/drive.component.ts:1122-1154 | the two lists partition the selection by the duplicate test, and with no duplicate the duplicate list is empty |
| DriveUpload.DuplicateAgainstListing | src/app/components/drive.component.ts:1123-1129 | a file is a duplicate exactly when its lower-cased name equals the lower-cased display name of a listed entry |
| DriveUpload.DuplicateMessage | src/app/components/drive.component.ts:1138 | the duplicate warning starts with the marker text that `finishUpload` and `loadFiles` look for |
| DriveUpload.UploadToken | src/app/components/drive.component.ts:1163 | the token is the first truthy of `token`, `csrfToken` and `_csrf` (else `_csrf`), and the read throws on a null response |
| DriveUpload.EventMessage | src/app/components/drive.component.ts:1204-1225 | every failure writes a message and a stored file writes none |
| DriveUpload.AfterEvent | src/app/components/drive.component.ts:1195-1225 | a stored file leaves the error signal alone; a failure replaces it with its message |
| DriveUpload.StoredCount | src/app/components/drive.component.ts:1196 | the completed counter never exceeds the outcomes seen |
| DriveUpload.StoredCountAll | src/app/components/drive.component.ts:1196-1216 | the completed counter reaches the count of outcomes exactly when every file was stored |
| DriveUpload.AuthFailures | src/app/components/drive.component.ts:1219-1223 | the number of redirects to /login is at most the number of outcomes |
| DriveUpload.FinishedErrorSpec | src/app/components/drive.component.ts:1240-1263 | a duplicate warning still in the error signal when `finishUpload` reads it is kept; a failure always ends with the summary, alone when there is no warning; a clean upload without a warning clears the error; with nothing counted the error stays |
| DriveUpload.MessageAfterFailure | src/app/components/drive.component.ts:1204-1225 | after any failure the error signal holds the last failure's message, whatever it held before the uploads |
| DriveUpload.DuplicateWarningLostOnFailure | src/app/components/drive.component.ts:1136-1252 | as written: once a file fails, the duplicate warning set before the uploads is gone, and `finishUpload` reports the summary alone unless the last failure's own message carries the marker |
| DriveUpload.DuplicateWarningKept | src/app/components/drive.component.ts:1234-1252 | corrected: reading the warning set before the uploads, `finishUpload` keeps it whenever a file was counted, still ends a failure with the summary, and otherwise behaves as the code does |
| DriveUpload.ReplayArriving | src/app/components/drive.component.ts:1181-1233 | before the last outcome, or when the last is an authentication refusal, nothing finishes: the counters, the last message, the progress and one /login per refusal are as the outcomes say |
| DriveUpload.ReplayFinished | src/app/components/drive.component.ts:1181-1274 | when the last outcome reaches the completion check, `finishUpload` runs with the stored and failed counts: uploading ends, the selection and progress clear, one reload is scheduled, and the error is the final message |
| DriveForms.CheckFolderName | src/app/components/drive.component.ts:1048-1060 | a blank name is ignored; a trimmed name holding `/` or `\` is refused with the slash message; any other is sent trimmed |
| DriveForms.CheckProfileUpdate | src/app/components/drive.component.ts:1505-1534 | refused with the right message when email and new password are both blank, or a new password lacks the current one; otherwise the payload has the email only when it differs from the user's, and both passwords only with a new one |
| DriveForms.SameEmailSendsEmptyPayload | src/app/components/drive.component.ts:1527-1529 | re-entering the current email with no new password sends an empty payload |
| DriveForms.ProfileSuccessMessage | src/app/components/drive.component.ts:1539 | the server's truthy `message`, else the fixed text; the read throws on a null response |
| DriveForms.ProfileErrorMessage | src/app/components/drive.component.ts:1563-1567 | the body's truthy `message`, else the fixed failure text |
| DriveForms.CheckAssignBucket | src/app/components/drive.component.ts:1471-1478 | refused exactly when either trimmed field is blank; otherwise both are sent trimmed |
| DriveForms.BucketSuccessMessage | src/app/components/drive.component.ts:1487 | the server's truthy `message`, else the fixed text; the read throws on a null response |
| DriveForms.BucketErrorMessage | src/app/components/drive.component.ts:1495 | the body's message, else the error's message, else the fixed text |
| Previews.Opening | src/app/components/drive.component.ts:1580-1585 | an opened modal is shown, titled with the entry, loading, with no URL and no error |
| Previews.PdfNeedsPassword | src/app/components/drive.component.ts:1671 | a password is asked for exactly on a 401 whose body message mentions `password`; a non-string message on a 401 makes `includes` throw |
| Drive.ReloadError | src/app/components/drive.component.ts:814-821 | a reload keeps the error exactly when it holds the duplicate warning, and clears it otherwise |
| Drive.DriveComponent.constructor | src/app/components/drive.component.ts:536-617 | every signal starts at its declared initial value, and the page invariant holds |
| Drive.DriveComponent.UpdatePagination | src/app/components/drive.component.ts:755-773 | the page count is `max(1, ceil(n/20))`, the page is clamped into range, and the visible rows are its slice |
| Drive.DriveComponent.RebuildListing | src/app/components/drive.component.ts:701-718 | a blank search sorts the listing itself; the shown list is the sorted filter of the listing in either case |
| Drive.DriveComponent.UpdateFilteredFiles | src/app/components/drive.component.ts:701-720 | the shown list is the sorted filter, the page returns to 1, and the page invariant holds again |
| Drive.DriveComponent.OnSearchChange | src/app/components/drive.component.ts:668-672 | the search is stored and the shown list is rebuilt from it, back on page 1 |
| Drive.DriveComponent.ToggleDateSort | src/app/components/drive.component.ts:674-683 | the mode advances one step of the cycle and the list is re-sorted in it, back on page 1 |
| Drive.DriveComponent.GoToPage | src/app/components/drive.component.ts:775-780 | a page in [1, totalPages] is shown; any other page changes nothing |
| Drive.DriveComponent.GetPageNumbers | src/app/components/drive.component.ts:782-797 | consecutive pages from `max(1, page−2)`, at most five, none above the page count, holding the current page when it is in range |
| Drive.DriveComponent.NgOnInit | src/app/components/drive.component.ts:638-666 | the session is checked and the shown list is built, on page 1 |
| Drive.DriveComponent.OnSessionValidated | src/app/components/drive.component.ts:640-654 | a valid session stores the user and loads the listing and the usage; any other outcome clears the user and goes to /login |
| Drive.DriveComponent.LoadFiles | src/app/components/drive.component.ts:813-826 | loading starts, the error is kept only if it holds the duplicate warning, and the current folder is listed |
| Drive.DriveComponent.OnFilesListed | src/app/components/drive.component.ts:827-838 | the listing is stored sorted, the shown list rebuilt on page 1, and loading ends |
| Drive.DriveComponent.OnListingFailed | src/app/components/drive.component.ts:840-848 | loading ends with the failure message, and 401 or 403 goes to /login |
| Drive.DriveComponent.LoadStorageUsage | src/app/components/drive.component.ts:853-854 | the usage is requested |
| Drive.DriveComponent.OnStorageUsage | src/app/components/drive.component.ts:855-863 | a response is stored; 401 or 403 goes to /login and keeps the old usage |
| Drive.DriveComponent.NavigateToFolder | src/app/components/drive.component.ts:867-886 | the path becomes the current path joined with the name the code computes, `split('/').pop() \|\| folderName` without a trailing `/` (for a key ending in `/`, the whole key), and the new folder is listed |
| Drive.DriveComponent.NavigateUp | src/app/components/drive.component.ts:888-902 | at the root nothing happens; otherwise the last segment is dropped and the parent is listed |
| Drive.DriveComponent.NavigateHome | src/app/components/drive.component.ts:904-908 | the path becomes the root, which is listed |
| Drive.DriveComponent.OnFilesChosen | src/app/components/drive.component.ts:1017-1023 | choosing no file changes nothing; choosing files stores them and starts the upload |
| Drive.DriveComponent.UploadFiles | src/app/components/drive.component.ts:1108-1158 | nothing without a selection; without a user an error and /login; otherwise the duplicate split sets the warning, nothing uploads when no file is valid, and the token is requested for the valid files |
| Drive.DriveComponent.OnUploadToken | src/app/components/drive.component.ts:1160-1178 | a failed token request or a falsy token ends the upload with its message; these paths and a null response, which throws and changes nothing, leave the progress text as it was; a truthy token requests one URL per file, and the signals are the replay of the outcomes |
| Drive.DriveComponent.UploadFilesWithToken | src/app/components/drive.component.ts:1181-1233 | one upload-URL request per file at its built path, and the signals end as the in-order replay of the outcomes |
| Drive.DriveComponent.TakeOutcome | src/app/components/drive.component.ts:1192-1230 | one file's callbacks bump exactly one counter and change the signals as that outcome's step says |
| Drive.DriveComponent.RequestUploadUrls | src/app/components/drive.component.ts:1187-1191 | one request per file, in order, with the token |
| Drive.DriveComponent.FinishUpload | src/app/components/drive.component.ts:1235-1270 | uploading ends, the selection and progress clear, the error becomes the final message, and one reload is scheduled |
| Drive.DriveComponent.OnReloadTimer | src/app/components/drive.component.ts:1266-1269 | the scheduled reload lists the folder and the usage |
| Drive.DriveComponent.CreateFolder | src/app/components/drive.component.ts:1025-1040 | the modal opens with an empty name |
| Drive.DriveComponent.CancelCreateFolder | src/app/components/drive.component.ts:1042-1046 | the modal closes, and the name and the error clear |
| Drive.DriveComponent.ConfirmCreateFolder | src/app/components/drive.component.ts:1048-1060 | as the folder-name check says: nothing, the slash message, or the create request under the current path |
| Drive.DriveComponent.OnFolderCreated | src/app/components/drive.component.ts:1061-1073 | on success a reload and the modal closes; on failure the message, and 401 or 403 goes to /login |
| Drive.DriveComponent.OpenUpdateProfile | src/app/components/drive.component.ts:1434-1443 | the modal opens with the user's email filled in when there is one, and no message |
| Drive.DriveComponent.CancelUpdateProfile | src/app/components/drive.component.ts:1445-1452 | the modal closes and its inputs and messages clear |
| Drive.DriveComponent.UpdateProfile | src/app/components/drive.component.ts:1505-1536 | a refused check sets its message and sends nothing; otherwise loading starts and the payload is sent |
| Drive.DriveComponent.OnProfileUpdated | src/app/components/drive.component.ts:1537-1568 | loading ends; success sets the message and, when the response has an email, the user in both places; failure sets the error message |
| Drive.DriveComponent.OpenAssignBucketModal | src/app/components/drive.component.ts:1454-1461 | the modal opens empty, with no message |
| Drive.DriveComponent.CancelAssignBucket | src/app/components/drive.component.ts:1463-1469 | the modal closes empty, with no message |
| Drive.DriveComponent.AssignBucket | src/app/components/drive.component.ts:1471-1484 | a refused check sets its message and sends nothing; otherwise loading starts and the trimmed pair is sent |
| Drive.DriveComponent.OnBucketAssigned | src/app/components/drive.component.ts:1485-1497 | loading ends with the success or the error message |
| Drive.DriveComponent.DismissError | src/app/components/drive.component.ts:1501-1503 | the error clears |
| Drive.DriveComponent.PreviewImage | src/app/components/drive.component.ts:1575-1591 | a non-image changes nothing; an image opens the modal and requests its URL at its built path |
| Drive.DriveComponent.OnImageUrl | src/app/components/drive.component.ts:1592-1599 | the URL is set, or loading ends with the error flag |
| Drive.DriveComponent.CloseImagePreview | src/app/components/drive.component.ts:1606-1613 | the image modal is reset |
| Drive.DriveComponent.OnImageLoad | src/app/components/drive.component.ts:1618-1621 | loading ends without error |
| Drive.DriveComponent.OnImageError | src/app/components/drive.component.ts:1626-1629 | loading ends with the error flag |
| Drive.DriveComponent.PreviewPdf | src/app/components/drive.component.ts:1644-1663 | a non-PDF changes nothing; a PDF opens the modal with the password prompt reset and requests its URL |
| Drive.DriveComponent.OnPdfUrl | src/app/components/drive.component.ts:1664-1678 | the URL is set and loading ends; a 401 about a password shows the prompt; any other failure sets the error flag |
| Drive.DriveComponent.LoadPdfWithPassword | src/app/components/drive.component.ts:1685-1700 | a blank password does nothing; otherwise loading starts and, when a PDF is open, its URL is requested again |
| Drive.DriveComponent.OnPdfPasswordUrl | src/app/components/drive.component.ts:1701-1711 | the URL is set and the prompt hides, or the password error is shown |
| Drive.DriveComponent.ClosePdfPreview | src/app/components/drive.component.ts:1718-1728 | the PDF modal and its prompt are reset |
| Drive.DriveComponent.OnPdfLoad | src/app/components/drive.component.ts:1733-1736 | loading ends without error |
| Drive.DriveComponent.OnPdfError | src/app/components/drive.component.ts:1741-1744 | loading ends with the error flag |
| Drive.DriveComponent.PreviewVideo | src/app/components/drive.component.ts:1759-1775 | a non-video changes nothing; a video opens the modal and requests its URL |
| Drive.DriveComponent.OnVideoUrl | src/app/components/drive.component.ts:1776-1784 | the URL is set and loading ends, or loading ends with the error flag |
| Drive.DriveComponent.CloseVideoPreview | src/app/components/drive.component.ts:1791-1798 | the video modal is reset |
| Drive.DriveComponent.OnVideoLoad | src/app/components/drive.component.ts:1803-1806 | loading ends without error |
| Drive.DriveComponent.OnVideoError | src/app/components/drive.component.ts:1811-1814 | loading ends with the error flag |
| Drive.DriveComponent.OnEscapeKey | src/app/components/drive.component.ts:620-636 | Escape closes exactly one shown modal, image before PDF before video, and leaves the others |
| PhotoGallery.IconMatchesType | src/app/components/photos.component.ts:737-749 | the icon and the type classify every name alike |
| PhotoGallery.MpgIsVideo | src/app/components/photos.component.ts:1060-1064 | `isVideoFile` accepts `.mpg`, and `getFileType` calls it a video |
| PhotoGallery.ComparatorConsistent | src/app/components/photos.component.ts:563-569 | the newest-first comparator is consistent |
| PhotoGallery.SortSpecCorrect | src/app/components/photos.component.ts:563-569 | the gallery is a permutation of the photos, newest first |
| PhotoGallery.SortPhotos | src/app/components/photos.component.ts:563-569 | the method yields the stable newest-first sort |
| PhotoGallery.RowsShape | src/app/components/photos.component.ts:574-577 | the rows, read in order, are the photos; no row is empty, and every row but the last holds five |
| PhotoGallery.ChunkRows | src/app/components/photos.component.ts:574-577 | the loop pushes exactly the rows of five |
| PhotoGallery.CeilDivUnique | src/app/components/photos.component.ts:574 | the row count is the only count whose rows just hold every photo |
| PhotoGallery.SetDeleteSpec | src/app/components/photos.component.ts:1271 | deleting from the set removes exactly that name and keeps the set duplicate-free |
| PhotoGallery.ToggleSpec | src/app/components/photos.component.ts:1268-1277 | toggling flips the membership of exactly that name and keeps the set duplicate-free |
| PhotoGallery.ToggleTwice | src/app/components/photos.component.ts:1268-1277 | toggling twice restores the membership, and for a name not selected the very set |
| PhotoGallery.SetDeleteKeepsOthers | src/app/components/photos.component.ts:1268-1277 | deleting a name just added restores the set |
| PhotoGallery.SetDeleteAbsent | src/app/components/photos.component.ts:1271 | deleting a name not in the set changes nothing |
| PhotoGallery.DeletedCount | src/app/components/photos.component.ts:1323-1340 | the deleted counter never exceeds the outcomes |
| PhotoGallery.ThumbnailRequestsOnce | src/app/components/photos.component.ts:783-790 | in any order of asking, each name is requested at most once, exactly the names not cached are, and every name asked for ends cached |
| PhotoGallery.PreviewFileSpec | src/app/components/photos.component.ts:988-1006 | an `.mpg` lands in the image modal, marked unsupported with no URL; otherwise a video opens the video modal and hides the image one, and an image the reverse; anything else changes nothing |
| PhotoGallery.EscapeSpec | src/app/components/photos.component.ts:501-507 | Escape closes the image modal if shown, else the video modal if shown, and never the other |
| PhotoGallery.FindIndex | src/app/components/photos.component.ts:1011-1016 | `findIndex` is the first index with the name, or −1 when there is none |
| PhotoGallery.TargetsSpec | src/app/components/photos.component.ts:1011-1040 | no target without a current file; from index `i`, previous is `i`−1 (none at 0) and next is `i`+1 (none at the end); an unlisted name goes next to index 0 |
| PhotoGallery.NavigateMoves | src/app/components/photos.component.ts:1011-1040 | corrected: next and previous put the neighbouring entry on screen, and do nothing at the ends |
| PhotoGallery.NavigateAsWrittenAgrees | src/app/components/photos.component.ts:1011-1040 | while the file the code reads is the one on screen, the navigation as written and the corrected one agree |
| PhotoGallery.NavigatePreviousAsWrittenStuck | src/app/components/photos.component.ts:1011-1023 | as written: after moving next from an image to a video, previous starts from the image at index 0 and does nothing, while the video stays on screen |
| PhotoGallery.NavigateNextAsWrittenStuck | src/app/components/photos.component.ts:1028-1040 | as written: after moving from an image to a video, the next press shows the video again and never reaches the entry after it |
| Photos.PhotosComponent.constructor | src/app/components/photos.component.ts:402-463 | every signal starts at its declared initial value, and the gallery invariant holds |
| Photos.PhotosComponent.NgOnInit | src/app/components/photos.component.ts:474-477 | the usage and the photos are requested |
| Photos.PhotosComponent.OnStorageUsageFailed | src/app/components/photos.component.ts:538-544 | 401 or 403 goes to /login |
| Photos.PhotosComponent.LoadPhotos | src/app/components/photos.component.ts:548-560 | loading starts, the error and the thumbnail cache clear, and the photos are requested |
| Photos.PhotosComponent.OnPhotosListed | src/app/components/photos.component.ts:561-580 | the gallery is the newest-first permutation of the photos, split into rows of five whose concatenation it is |
| Photos.PhotosComponent.OnPhotosFailed | src/app/components/photos.component.ts:581-588 | loading ends with the failure message, and 401 or 403 goes to /login |
| Photos.PhotosComponent.DismissError | src/app/components/photos.component.ts:733-735 | the error clears |
| Photos.PhotosComponent.ToggleFileSelection | src/app/components/photos.component.ts:1261-1277 | exactly the given name flips, every other name keeps its membership, and the set stays duplicate-free |
| Photos.PhotosComponent.ClearSelection | src/app/components/photos.component.ts:1293-1295 | no name is selected |
| Photos.PhotosComponent.ConfirmBulkDelete | src/app/components/photos.component.ts:1300-1303 | the confirmation opens only when something is selected |
| Photos.PhotosComponent.CancelBulkDelete | src/app/components/photos.component.ts:1308-1310 | the confirmation closes |
| Photos.PhotosComponent.RequestDeletes | src/app/components/photos.component.ts:1321-1322 | one delete request per selected name, in order |
| Photos.PhotosComponent.EndBulkDelete | src/app/components/photos.component.ts:1335-1341 | the confirmation closes, the selection clears and the photos reload |
| Photos.PhotosComponent.OnDeleteOutcome | src/app/components/photos.component.ts:1323-1344 | one outcome bumps one counter; below the total nothing else changes; at the total the bulk delete ends, with the summary as error only when something failed |
| Photos.PhotosComponent.ExecuteBulkDelete | src/app/components/photos.component.ts:1315-1345 | an empty selection changes nothing; otherwise one delete per selected name, then the end exactly when all have answered, with the summary only when something failed |
| Photos.PhotosComponent.LoadThumbnail | src/app/components/photos.component.ts:783-806 | a cached name is left alone; any other gets an empty placeholder and one URL request |
| Photos.PhotosComponent.GetThumbnailUrl | src/app/components/photos.component.ts:774-779 | the result is the cached entry for the name, loading it first when it is absent |
| Photos.PhotosComponent.OnThumbnailLoaded | src/app/components/photos.component.ts:791-800 | the loaded URL replaces the placeholder |
| Photos.PhotosComponent.PreviewImage | src/app/components/photos.component.ts:1069-1098 | as the gallery's image preview says, with one URL request for an image |
| Photos.PhotosComponent.PreviewVideo | src/app/components/photos.component.ts:1159-1193 | as the gallery's video preview says, with one URL request for a video |
| Photos.PhotosComponent.PreviewFile | src/app/components/photos.component.ts:988-1006 | as the gallery's dispatch says, with the requests it makes |
| Photos.PhotosComponent.NavigateToPreviousFile | src/app/components/photos.component.ts:1011-1023 | from `currentPreviewFile() \|\| currentVideoPreviewFile()` (the image file first, even while the video is on screen), previews the entry before it, if any, with that preview's requests |
| Photos.PhotosComponent.NavigateToNextFile | src/app/components/photos.component.ts:1028-1040 | from `currentPreviewFile() \|\| currentVideoPreviewFile()` (the image file first, even while the video is on screen), previews the entry after it, if any, with that preview's requests |
| Photos.PhotosComponent.OnImageUrl | src/app/components/photos.component.ts:1084-1096 | the URL is set, or loading ends with the error flag |
| Photos.PhotosComponent.OnVideoUrl | src/app/components/photos.component.ts:1178-1191 | the URL is set and loading ends, or loading ends with the error flag |
| Photos.PhotosComponent.OnImageLoad | src/app/components/photos.component.ts:1122-1125 | loading ends without error |
| Photos.PhotosComponent.OnImageError | src/app/components/photos.component.ts:1130-1133 | loading ends with the error flag |
| Photos.PhotosComponent.OnVideoLoad | src/app/components/photos.component.ts:1216-1219 | loading ends without error |
| Photos.PhotosComponent.OnVideoError | src/app/components/photos.component.ts:1224-1227 | loading ends with the error flag |
| Photos.PhotosComponent.CloseImagePreview | src/app/components/photos.component.ts:1103-1117 | the image modal is reset and the unsupported mark clears |
| Photos.PhotosComponent.CloseVideoPreview | src/app/components/photos.component.ts:1198-1211 | the video modal is reset |
| Photos.PhotosComponent.CloseUnsupportedFormatModal | src/app/components/photos.component.ts:1253-1256 | the unsupported-format modal closes and its name clears |
| Photos.PhotosComponent.HandleEscapeKey | src/app/components/photos.component.ts:501-507 | as the gallery's Escape says |
| Photos.PhotosComponent.HandleLeftArrow | src/app/components/photos.component.ts:510-514 | while a modal is shown, `navigateToPreviousFile` as written, from the image file first; otherwise nothing |
| Photos.PhotosComponent.HandleRightArrow | src/app/components/photos.component.ts:517-521 | while a modal is shown, `navigateToNextFile` as written, from the image file first; otherwise nothing |
| AuthService.IsAuthenticatedResponse | src/app/services/auth.service.ts:193-195 | true exactly for an object whose `success` is the value `true` |
| AuthService.CheckAuthStatus | src/app/services/auth.service.ts:126-141 | a response passes through; any error becomes `{success: false, error}`, which is never authenticated |
| AuthService.TokenHeader | src/app/services/auth.service.ts:67-69 | the header is present exactly for a non-empty cookie token, and is the only one added |
| AuthService.LoginRequest | src/app/services/auth.service.ts:62-75 | a POST to the login endpoint, always JSON, with the header exactly when a cookie token exists, carrying the credentials |
| AuthService.RegisterRequest | src/app/services/auth.service.ts:80-86 | a POST to the register endpoint with only the JSON content type |
| AuthService.UpdateProfileRequest | src/app/services/auth.service.ts:91-104 | a PUT of the data, always JSON, with the header exactly when a cookie token exists |
| AuthService.LogoutRequest | src/app/services/auth.service.ts:109-120 | a POST with no content type, with the header exactly when a cookie token exists |
| AuthService.SameTokenAsDriveLookup | src/app/services/auth.service.ts:219-224 | when the auth lookup finds a token, the drive service's ordered lookup finds the same one |
| AuthService.Session.constructor | src/app/services/auth.service.ts:35 | the cell starts empty |
| AuthService.Session.SetCurrentUser | src/app/services/auth.service.ts:146-148 | the cell holds the user given |
| AuthService.Session.IsLoggedIn | src/app/services/auth.service.ts:160-162 | logged in exactly when the cell holds a user |
| AuthService.Session.ValidateSession | src/app/services/auth.service.ts:167-188 | true and the user stored exactly for a response with a truthy `success`; otherwise false and the cell cleared |
| AuthService.Session.OnInitialAuthStatus | src/app/services/auth.service.ts:42-55 | a truthy `success` stores the user; anything else leaves the cell alone |
| AuthService.SetThenRead | src/app/services/auth.service.ts:146-162 | after `setCurrentUser(u)`, `currentUserValue` is `u` and `isLoggedIn` says whether `u` is non-null |
| Login.LoginErrorMessage | src/app/components/login.component.ts:287-303 | 401 and any 403 not about the storage bucket show the credentials message, a bucket 403 shows the server's text, any other status the generic text; a non-string truthy 403 message makes `includes` throw |
| Login.AlreadyAuthenticatedUser | src/app/components/login.component.ts:244-248 | the username defaults to `Unknown User`; email and admin come from the response |
| Login.LoginComponent.constructor | src/app/components/login.component.ts:217-229 | empty credentials, not loading, no error |
| Login.LoginComponent.CheckAuthAndRedirect | src/app/components/login.component.ts:237-257 | an authenticated response stores the user and goes to /drive; anything else changes nothing |
| Login.LoginComponent.OnLogin | src/app/components/login.component.ts:259-268 | a missing username or password sets the message and sends nothing; otherwise loading starts, the error clears and the request is sent |
| Login.LoginComponent.OnLoginResult | src/app/components/login.component.ts:269-304 | loading ends; `success === true` stores the typed username with the response's email and admin and goes to /drive; any other response sets its message or the credentials text; an error maps its status to a message |
| Register.RegisterPayloadRequest | src/app/components/register.component.ts:288-294 | username and email are sent trimmed and the password exactly as typed |
| Register.RegisterErrorMessage | src/app/components/register.component.ts:314-318 | the body's truthy `message`, else the fixed failure text |
| Register.RegisterComponent.constructor | src/app/components/register.component.ts:265-276 | empty fields, not loading, no messages |
| Register.RegisterComponent.Register | src/app/components/register.component.ts:278-294 | mismatched passwords set the message and send nothing, loading unchanged; otherwise loading starts, both messages clear and the payload is sent |
| Register.RegisterComponent.OnRegisterResult | src/app/components/register.component.ts:295-319 | loading ends; success sets the message, clears the four fields and goes to /login; failure sets the error message and keeps the fields |

## Left out

- HTTP, RxJS and the browser are outside the model: requests are recorded, responses are arguments, `document.cookie` is a parameter, and `decodeURIComponent` is an uninterpreted function parameter.
- The per-file callbacks of an upload and of a bulk delete are modelled as arriving one at a time in the order the files were chosen. Other interleavings are not modelled.
- `localeCompare` is modelled as the order of character codes, a total order; `toLowerCase` lower-cases ASCII letters only; `new Date(...).getTime()` is an optional integer timestamp, missing counting as 0. Invalid dates (NaN) are not modelled.
- `formatFileSize` and `formatDate` are not modelled: they are floating-point and locale formatting.
- Drive page operations not modelled: delete (`deleteItem`, `confirmDelete`, `cancelDelete`), downloads, `logout`, the dropdown and sidebar toggles, drag and drop, the click-outside listener, and the two-second timers that close the profile and bucket modals.
- Photos page operations not modelled: its own upload, single delete (`deletePhoto`, `confirmDelete`), downloads, the profile and bucket forms, `logout`, the toggles, drag and drop, `loadCurrentUser`, `ngOnDestroy` and `revokeObjectURL`. The thumbnail blob fetch is not modelled; its URL arrives in `OnThumbnailLoaded`. The storage usage value is not kept: only the redirect on a failure is.
- The bucket request is recorded with the trimmed pair: `assignNewBucket` is called by the drive page but not defined in src/app/services/auth.service.ts, so its request is not part of this model.
- The RxJS `currentUser$` stream is not modelled; the session is the cell it reads.
- AuthService.RegisterRequest: states the verb, endpoint and headers but not the body, which is the caller's payload and is stated by Register.RegisterPayloadRequest.
- Drive.DriveComponent.OnFilesChosen: models `onFileSelect` storing the chosen names; the `FileList` itself, with file types and contents, is not modelled.

## Findings

| source | as written | input that shows it | evidently intended | confidence | as-written member | corrected member |
|---|---|---|---|---|---|---|
| src/app/components/photos.component.ts:1028-1040 | in navigateToNextFile the current file is `currentPreviewFile() \|\| currentVideoPreviewFile()`, and previewVideo (1159-1171) hides the image modal without clearing `currentPreviewFile` | previewing image `a` in `[a, b, c]` with `b` a video, then pressing next twice: both presses show `b` | next moves from the file on screen, so the second press shows `c` | not executed | PhotoGallery.NavigateNextAsWrittenStuck | PhotoGallery.NavigateMoves |
| src/app/components/photos.component.ts:1011-1023 | navigateToPreviousFile reads the same stale `currentPreviewFile` | previewing image `a` in `[a, b]` with `b` a video, pressing next (b shows), then previous: nothing happens | previous moves from the file on screen, back to `a` | not executed | PhotoGallery.NavigatePreviousAsWrittenStuck | PhotoGallery.NavigateMoves |
| src/app/components/drive.component.ts:867-886 | a folder name ending in `/` has an empty last segment, so `split('/').pop() \|\| folderName` keeps the whole key | current path `docs` and folder key `docs/photos/`: the new path is `docs/docs/photos` | the new path is `docs/photos`, the last segment joined to the current path | not executed | DrivePaths.FolderNameToOpenAsWrittenDoublesPrefix | DrivePaths.FolderNameToOpenIsLastSegment |
| src/app/components/drive.component.ts:1136-1252 | every per-file failure writes its own message to `error` before `finishUpload` reads it, so the "Additionally:" branch that appends to the duplicate warning is reached only when a failure message carries the marker | a selection with one duplicate and one new file whose upload fails: the final message is `0 files uploaded successfully, 1 failed`, without the duplicate names | `finishUpload` reads the warning set before the uploads (its comment says the error "might include duplicate file info"), and the warning is kept with the summary appended | not executed | DriveUpload.DuplicateWarningLostOnFailure | DriveUpload.DuplicateWarningKept |

The page classes (`Drive.DriveComponent`, `Photos.PhotosComponent`) and the upload replay model the code as written. The corrected definitions, and the properties proved about them, are in `DrivePaths`, `PhotoGallery` and `DriveUpload`, next to the as-written ones.
