/**
 * The photos page's view model: the gallery of photos and videos in rows,
 * the multi-selection with bulk delete, the thumbnail cache, and the image
 * and video preview modals with keyboard navigation. Every HTTP call is
 * appended to `calls` when it is issued, and its outcome is delivered to
 * the method that models the call's callback.
 */
module Photos {

  import opened JsValues
  import opened Platform
  import opened DriveModels
  import opened Previews
  import Paging
  import PhotoGallery

  const LoadFailedPrefix: string := "Failed to load photos: "

  /** The calls the page makes through the photos service. */
  datatype PhotoCall =
    | ListPhotosCall
    | StorageUsageCall
    | ThumbnailUrlCall(name: string)
    | PreviewUrlCall(name: string)
    | DeletePhotoCall(name: string)

  /** The delete requests for `names`, one per name, in order. */
  function DeleteCalls(names: seq<string>): seq<PhotoCall> {
    seq(|names|, i requires 0 <= i < |names| => DeletePhotoCall(names[i]))
  }

  /** The preview URL requests for the names previewFile asks about. */
  function PreviewCalls(names: seq<string>): seq<PhotoCall> {
    seq(|names|, i requires 0 <= i < |names| => PreviewUrlCall(names[i]))
  }

  /** The requests a navigation makes: none without a target, otherwise those of previewing it. */
  function NavigationCalls(target: Option<FileItemDto>): seq<PhotoCall> {
    if target.None? then [] else PreviewCalls(PhotoGallery.PreviewRequests(target.value))
  }

  class PhotosComponent {

    var allPhotos: seq<FileItemDto>
    var photoRows: seq<seq<FileItemDto>>
    var loading: bool
    var error: Option<string>

    /** The selection Set, in insertion order. */
    var selectedFiles: seq<string>
    var showBulkDeleteConfirm: bool

    /** The blob URL of each name's thumbnail; "" while its request is pending. */
    var thumbnailCache: map<string, string>

    var image: MediaModal
    var video: MediaModal
    var isUnsupportedInPreview: bool
    var showUnsupportedFormatModal: bool
    var unsupportedFileName: string

    /** The service calls issued, oldest first. */
    var calls: seq<PhotoCall>
    /** The routes `router.navigate` was asked for, oldest first. */
    var navigations: seq<string>

    /**
     * The invariant of the page: the rows are the gallery cut into fives,
     * the gallery is newest first, the selection holds no name twice, and
     * every shown modal holds the entry it shows.
     */
    ghost predicate Valid()
      reads this`allPhotos, this`photoRows, this`selectedFiles, this`image, this`video
    {
      && photoRows == PhotoGallery.Rows(allPhotos)
      && PhotoGallery.NewestFirstOrder(allPhotos)
      && PhotoGallery.Distinct(selectedFiles)
      && ModalValid(image) && ModalValid(video)
    }

    /** The two modals and the unsupported flag as one value. */
    function Viewer(): PhotoGallery.Viewer
      reads this`image, this`video, this`isUnsupportedInPreview
    {
      PhotoGallery.Viewer(image, video, isUnsupportedInPreview)
    }

    /** Everything starts empty and closed. */
    constructor ()
      ensures Valid()
      ensures allPhotos == [] && photoRows == [] && !loading && error.None?
      ensures selectedFiles == [] && !showBulkDeleteConfirm && thumbnailCache == map[]
      ensures Viewer() == PhotoGallery.NoPreview && !showUnsupportedFormatModal && unsupportedFileName == ""
      ensures calls == [] && navigations == []
    {
      allPhotos, photoRows := [], [];
      loading, error := false, None;
      selectedFiles, showBulkDeleteConfirm := [], false;
      thumbnailCache := map[];
      image, video, isUnsupportedInPreview := Closed, Closed, false;
      showUnsupportedFormatModal, unsupportedFileName := false, "";
      calls, navigations := [], [];
      new;
      assert PhotoGallery.Rows([]) == [];
    }

    /** ngOnInit: the storage usage and the gallery are requested. */
    method NgOnInit()
      modifies this`loading, this`error, this`thumbnailCache, this`calls
      ensures loading && error.None? && thumbnailCache == map[]
      ensures calls == old(calls) + [StorageUsageCall, ListPhotosCall]
    {
      calls := calls + [StorageUsageCall];
      LoadPhotos();
    }

    /** The storage usage's error callback: a 401 or 403 sends the page to /login. */
    method OnStorageUsageFailed(err: HttpError)
      modifies this`navigations
      ensures navigations == old(navigations) + (if err.IsAuthFailure() then ["/login"] else [])
    {
      if err.IsAuthFailure() {
        navigations := navigations + ["/login"];
      }
    }

    /** loadPhotos: loading starts, the error and the thumbnail cache are cleared, and the gallery is requested. */
    method LoadPhotos()
      modifies this`loading, this`error, this`thumbnailCache, this`calls
      ensures loading && error.None? && thumbnailCache == map[]
      ensures calls == old(calls) + [ListPhotosCall]
    {
      loading := true;
      error := None;
      thumbnailCache := map[];
      calls := calls + [ListPhotosCall];
    }

    /**
     * The gallery's next callback: the listing sorted newest first becomes
     * the gallery, cut into rows of five, and loading ends.
     */
    method OnPhotosListed(files: seq<FileItemDto>)
      requires Valid()
      modifies this`allPhotos, this`photoRows, this`loading
      ensures Valid() && !loading
      ensures allPhotos == PhotoGallery.SortSpec(files) && multiset(allPhotos) == multiset(files)
      ensures Paging.Concat(photoRows) == allPhotos
      ensures forall i :: 0 <= i < |photoRows| ==> 0 < |photoRows[i]| <= PhotoGallery.ItemsPerRow
      ensures forall i :: 0 <= i < |photoRows| - 1 ==> |photoRows[i]| == PhotoGallery.ItemsPerRow
    {
      var sortedFiles := PhotoGallery.SortPhotos(files);
      allPhotos := sortedFiles;
      var rows := PhotoGallery.ChunkRows(sortedFiles);
      photoRows := rows;
      loading := false;
      PhotoGallery.SortSpecCorrect(files);
      PhotoGallery.RowsShape(sortedFiles);
    }

    /** The gallery's error callback: the message is shown, loading ends, and a 401 or 403 goes to /login. */
    method OnPhotosFailed(err: HttpError)
      modifies this`loading, this`error, this`navigations
      ensures !loading && error == Some(LoadFailedPrefix + Display(err.message))
      ensures navigations == old(navigations) + (if err.IsAuthFailure() then ["/login"] else [])
    {
      error := Some(LoadFailedPrefix + Display(err.message));
      loading := false;
      if err.IsAuthFailure() {
        navigations := navigations + ["/login"];
      }
    }

    method DismissError()
      modifies this`error
      ensures error.None?
    {
      error := None;
    }

    /** isFileSelected: the name is in the selection. */
    function IsFileSelected(fileName: string): bool
      reads this`selectedFiles
    {
      fileName in selectedFiles
    }

    /**
     * toggleFileSelection: a copy of the set with the name removed if it
     * was there and added otherwise becomes the selection.
     */
    method ToggleFileSelection(fileName: string)
      requires Valid()
      modifies this`selectedFiles
      ensures Valid() && selectedFiles == PhotoGallery.Toggle(old(selectedFiles), fileName)
      ensures IsFileSelected(fileName) <==> fileName !in old(selectedFiles)
      ensures forall y :: y != fileName ==> (IsFileSelected(y) <==> y in old(selectedFiles))
    {
      var selected := selectedFiles;
      if fileName in selected {
        selected := PhotoGallery.SetDelete(selected, fileName);
      } else {
        selected := PhotoGallery.SetAdd(selected, fileName);
      }
      PhotoGallery.ToggleSpec(selectedFiles, fileName);
      selectedFiles := selected;
    }

    /** clearSelection: the selection is empty. */
    method ClearSelection()
      requires Valid()
      modifies this`selectedFiles
      ensures Valid() && selectedFiles == []
      ensures forall y :: !IsFileSelected(y)
    {
      selectedFiles := [];
    }

    /** confirmBulkDelete: the confirmation opens only for a non-empty selection. */
    method ConfirmBulkDelete()
      modifies this`showBulkDeleteConfirm
      ensures showBulkDeleteConfirm == (old(showBulkDeleteConfirm) || |selectedFiles| > 0)
    {
      if |selectedFiles| == 0 {
        return;
      }
      showBulkDeleteConfirm := true;
    }

    method CancelBulkDelete()
      modifies this`showBulkDeleteConfirm
      ensures !showBulkDeleteConfirm
    {
      showBulkDeleteConfirm := false;
    }

    /** The first loop of executeBulkDelete: one delete request per selected name, in order. */
    method RequestDeletes(names: seq<string>)
      modifies this`calls
      ensures calls == old(calls) + DeleteCalls(names)
    {
      var j := 0;
      while j < |names|
        invariant 0 <= j <= |names|
        invariant calls == old(calls) + DeleteCalls(names[..j])
      {
        assert DeleteCalls(names[..j + 1]) == DeleteCalls(names[..j]) + [DeletePhotoCall(names[j])];
        calls := calls + [DeletePhotoCall(names[j])];
        j := j + 1;
      }
      assert names[..j] == names;
    }

    /** What both callbacks do once every deletion has answered: the modal closes, the selection clears, the gallery reloads. */
    method EndBulkDelete()
      requires Valid()
      modifies this`showBulkDeleteConfirm, this`selectedFiles, this`loading, this`error, this`thumbnailCache, this`calls
      ensures Valid() && !showBulkDeleteConfirm && selectedFiles == []
      ensures loading && error.None? && thumbnailCache == map[] && calls == old(calls) + [ListPhotosCall]
    {
      showBulkDeleteConfirm := false;
      ClearSelection();
      LoadPhotos();
    }

    /**
     * executeBulkDelete: a delete request goes out for every selected name,
     * then the outcomes arrive one by one (true for a deletion that
     * succeeded), counted as deleted or failed. The check `deleted + failed
     * === filesToDelete.length` holds exactly at the last outcome: there the
     * modal closes, the selection clears and the gallery reloads, and the
     * summary becomes the error when some deletion failed. An empty
     * selection sends nothing and never finishes.
     */
    /**
     * One deletion's callback: a success counts as deleted, a failure as
     * failed. When the two counts reach `total` the modal closes, the
     * selection clears and the gallery reloads; the summary becomes the
     * error if any deletion failed (the success callback sets it only
     * then, the error callback always does, and there it is never zero).
     */
    method OnDeleteOutcome(ok: bool, total: nat, deleted0: nat, failed0: nat) returns (deleted: nat, failed: nat)
      requires Valid() && deleted0 + failed0 < total
      modifies this`showBulkDeleteConfirm, this`selectedFiles, this`loading, this`error, this`thumbnailCache, this`calls
      ensures Valid()
      ensures deleted == deleted0 + (if ok then 1 else 0) && failed == failed0 + (if ok then 0 else 1)
      ensures deleted + failed < total ==>
                && showBulkDeleteConfirm == old(showBulkDeleteConfirm) && selectedFiles == old(selectedFiles)
                && loading == old(loading) && error == old(error) && thumbnailCache == old(thumbnailCache)
                && calls == old(calls)
      ensures deleted + failed == total ==>
                && !showBulkDeleteConfirm && selectedFiles == [] && loading && thumbnailCache == map[]
                && calls == old(calls) + [ListPhotosCall]
                && error == (if failed > 0 then Some(PhotoGallery.DeleteSummary(deleted, failed)) else None)
    {
      deleted, failed := deleted0, failed0;
      if ok {
        deleted := deleted + 1;
        if deleted + failed == total {
          EndBulkDelete();
          if failed > 0 {
            error := Some(PhotoGallery.DeleteSummary(deleted, failed));
          }
        }
      } else {
        failed := failed + 1;
        if deleted + failed == total {
          EndBulkDelete();
          error := Some(PhotoGallery.DeleteSummary(deleted, failed));
        }
      }
    }

    /**
     * executeBulkDelete: a delete request goes out for every selected name,
     * then the outcomes arrive one by one (true for a deletion that
     * succeeded). The counts reach the number of names exactly at the last
     * outcome, so the page finishes once, with the summary counting every
     * outcome. An empty selection sends nothing and never finishes.
     */
    method ExecuteBulkDelete(outcomes: seq<bool>)
      requires Valid() && |outcomes| == |selectedFiles|
      modifies this`showBulkDeleteConfirm, this`selectedFiles, this`loading, this`error, this`thumbnailCache, this`calls
      ensures Valid()
      ensures |outcomes| == 0 ==>
                && showBulkDeleteConfirm == old(showBulkDeleteConfirm) && selectedFiles == old(selectedFiles)
                && loading == old(loading) && error == old(error) && thumbnailCache == old(thumbnailCache)
                && calls == old(calls)
      ensures |outcomes| > 0 ==>
                var deleted := PhotoGallery.DeletedCount(outcomes);
                var failed := |outcomes| - deleted;
                && !showBulkDeleteConfirm && selectedFiles == [] && loading && thumbnailCache == map[]
                && calls == old(calls) + DeleteCalls(old(selectedFiles)) + [ListPhotosCall]
                && error == (if failed > 0 then Some(PhotoGallery.DeleteSummary(deleted, failed)) else None)
    {
      var filesToDelete := selectedFiles;
      var n := |filesToDelete|;
      var deleted: nat, failed: nat := 0, 0;
      RequestDeletes(filesToDelete);
      ghost var calls0 := calls;
      var i := 0;
      while i < n
        modifies this`showBulkDeleteConfirm, this`selectedFiles, this`loading, this`error, this`thumbnailCache, this`calls
        invariant 0 <= i <= n && Valid()
        invariant deleted == PhotoGallery.DeletedCount(outcomes[..i]) && failed == i - deleted
        invariant i < n || n == 0 ==>
                    && showBulkDeleteConfirm == old(showBulkDeleteConfirm) && selectedFiles == old(selectedFiles)
                    && loading == old(loading) && error == old(error) && thumbnailCache == old(thumbnailCache)
                    && calls == calls0
        invariant i == n > 0 ==>
                    && !showBulkDeleteConfirm && selectedFiles == [] && loading && thumbnailCache == map[]
                    && calls == calls0 + [ListPhotosCall]
                    && error == (if failed > 0 then Some(PhotoGallery.DeleteSummary(deleted, failed)) else None)
      {
        assert outcomes[..i + 1][..i] == outcomes[..i];
        deleted, failed := OnDeleteOutcome(outcomes[i], n, deleted, failed);
        i := i + 1;
      }
      assert outcomes[..n] == outcomes;
    }

    /**
     * loadThumbnail: a name already in the cache asks for nothing; any
     * other gets an empty placeholder before its URL is requested.
     */
    method LoadThumbnail(photo: FileItemDto)
      modifies this`thumbnailCache, this`calls
      ensures thumbnailCache == PhotoGallery.CacheStep(old(thumbnailCache), photo.name)
      ensures calls == old(calls) + (if photo.name in old(thumbnailCache) then [] else [ThumbnailUrlCall(photo.name)])
    {
      if photo.name in thumbnailCache {
        return;
      }
      thumbnailCache := thumbnailCache[photo.name := ""];
      calls := calls + [ThumbnailUrlCall(photo.name)];
    }

    /** getThumbnailUrl: loads the thumbnail, then answers the cached URL, "" while it is pending. */
    method GetThumbnailUrl(photo: FileItemDto) returns (url: string)
      modifies this`thumbnailCache, this`calls
      ensures thumbnailCache == PhotoGallery.CacheStep(old(thumbnailCache), photo.name)
      ensures photo.name in thumbnailCache && url == thumbnailCache[photo.name]
      ensures calls == old(calls) + (if photo.name in old(thumbnailCache) then [] else [ThumbnailUrlCall(photo.name)])
    {
      LoadThumbnail(photo);
      url := thumbnailCache[photo.name];
    }

    /** The thumbnail's blob is fetched: its URL replaces the placeholder; the rows are re-set unchanged. */
    method OnThumbnailLoaded(name: string, blobUrl: string)
      modifies this`thumbnailCache
      ensures thumbnailCache == old(thumbnailCache)[name := blobUrl]
    {
      thumbnailCache := thumbnailCache[name := blobUrl];
    }

    /** previewImage: a non-image is ignored; otherwise the video modal is hidden, the image modal opens and the URL is requested. */
    method PreviewImage(photo: FileItemDto)
      requires Valid()
      modifies this`image, this`video, this`isUnsupportedInPreview, this`calls
      ensures Valid() && Viewer() == PhotoGallery.PreviewImage(old(Viewer()), photo)
      ensures calls == old(calls) + (if PhotoGallery.IsImageFile(photo.name) then [PreviewUrlCall(photo.name)] else [])
    {
      if !PhotoGallery.IsImageFile(photo.name) {
        return;
      }
      if video.show {
        video := video.(show := false);
      }
      image := Opening(photo);
      isUnsupportedInPreview := false;
      calls := calls + [PreviewUrlCall(photo.name)];
    }

    /** previewVideo: a non-video is ignored; otherwise the image modal is hidden, the video modal opens and the URL is requested. */
    method PreviewVideo(photo: FileItemDto)
      requires Valid()
      modifies this`image, this`video, this`isUnsupportedInPreview, this`calls
      ensures Valid() && Viewer() == PhotoGallery.PreviewVideo(old(Viewer()), photo)
      ensures calls == old(calls) + (if PhotoGallery.IsVideoFile(photo.name) then [PreviewUrlCall(photo.name)] else [])
    {
      if !PhotoGallery.IsVideoFile(photo.name) {
        return;
      }
      if image.show {
        image := image.(show := false);
      }
      video := Opening(photo);
      isUnsupportedInPreview := false;
      calls := calls + [PreviewUrlCall(photo.name)];
    }

    /** previewFile: `.mpg` first, into the image modal marked unsupported; then videos; then images. */
    method PreviewFile(photo: FileItemDto)
      requires Valid()
      modifies this`image, this`video, this`isUnsupportedInPreview, this`calls
      ensures Valid() && Viewer() == PhotoGallery.PreviewFile(old(Viewer()), photo)
      ensures calls == old(calls) + PreviewCalls(PhotoGallery.PreviewRequests(photo))
    {
      if PhotoGallery.IsMpg(photo.name) {
        image := PhotoGallery.UnsupportedPreview(photo);
        isUnsupportedInPreview := true;
        assert PreviewCalls([]) == [];
      } else if PhotoGallery.IsVideoFile(photo.name) {
        PreviewVideo(photo);
        assert PreviewCalls([photo.name]) == [PreviewUrlCall(photo.name)];
      } else {
        PreviewImage(photo);
        assert PreviewCalls([photo.name]) == [PreviewUrlCall(photo.name)];
        assert PreviewCalls([]) == [];
      }
    }

    /** navigateToPreviousFile, from `currentPreviewFile() || currentVideoPreviewFile()`. */
    method NavigateToPreviousFile()
      requires Valid()
      modifies this`image, this`video, this`isUnsupportedInPreview, this`calls
      ensures Valid() && Viewer() == PhotoGallery.NavigatePreviousAsWritten(old(Viewer()), allPhotos)
      ensures calls == old(calls) + NavigationCalls(PhotoGallery.PreviousTarget(allPhotos, PhotoGallery.CurrentFileAsWritten(old(Viewer()))))
    {
      var target := PhotoGallery.PreviousTarget(allPhotos, PhotoGallery.CurrentFileAsWritten(Viewer()));
      if target.None? {
        return;
      }
      PreviewFile(target.value);
    }

    /** navigateToNextFile, from `currentPreviewFile() || currentVideoPreviewFile()`. */
    method NavigateToNextFile()
      requires Valid()
      modifies this`image, this`video, this`isUnsupportedInPreview, this`calls
      ensures Valid() && Viewer() == PhotoGallery.NavigateNextAsWritten(old(Viewer()), allPhotos)
      ensures calls == old(calls) + NavigationCalls(PhotoGallery.NextTarget(allPhotos, PhotoGallery.CurrentFileAsWritten(old(Viewer()))))
    {
      var target := PhotoGallery.NextTarget(allPhotos, PhotoGallery.CurrentFileAsWritten(Viewer()));
      if target.None? {
        return;
      }
      PreviewFile(target.value);
    }

    /** The image URL callbacks: the URL is set (loading ends at the load event); an error ends loading with the error flag. */
    method OnImageUrl(result: UrlResult)
      requires Valid()
      modifies this`image
      ensures Valid()
      ensures result.Url? ==> image == old(image).(url := Some(result.url))
      ensures result.NoUrl? ==> image == LoadFailed(old(image))
    {
      match result
      case Url(u) => image := image.(url := Some(u));
      case NoUrl(_) => image := LoadFailed(image);
    }

    /** The video URL callbacks: the URL is set and loading ends; an error ends loading with the error flag. */
    method OnVideoUrl(result: UrlResult)
      requires Valid()
      modifies this`video
      ensures Valid()
      ensures result.Url? ==> video == old(video).(url := Some(result.url), loading := false)
      ensures result.NoUrl? ==> video == LoadFailed(old(video))
    {
      match result
      case Url(u) => video := video.(url := Some(u), loading := false);
      case NoUrl(_) => video := LoadFailed(video);
    }

    method OnImageLoad()
      requires Valid()
      modifies this`image
      ensures Valid() && image == Loaded(old(image))
    {
      image := Loaded(image);
    }

    method OnImageError()
      requires Valid()
      modifies this`image
      ensures Valid() && image == LoadFailed(old(image))
    {
      image := LoadFailed(image);
    }

    method OnVideoLoad()
      requires Valid()
      modifies this`video
      ensures Valid() && video == Loaded(old(video))
    {
      video := Loaded(video);
    }

    method OnVideoError()
      requires Valid()
      modifies this`video
      ensures Valid() && video == LoadFailed(old(video))
    {
      video := LoadFailed(video);
    }

    /** closeImagePreview: the image modal is reset and the unsupported flag cleared. */
    method CloseImagePreview()
      requires Valid()
      modifies this`image, this`isUnsupportedInPreview
      ensures Valid() && Viewer() == PhotoGallery.CloseImage(old(Viewer()))
    {
      image := Closed;
      isUnsupportedInPreview := false;
    }

    /** closeVideoPreview: the video modal is reset. */
    method CloseVideoPreview()
      requires Valid()
      modifies this`video
      ensures Valid() && Viewer() == PhotoGallery.CloseVideo(old(Viewer()))
    {
      video := Closed;
    }

    method CloseUnsupportedFormatModal()
      modifies this`showUnsupportedFormatModal, this`unsupportedFileName
      ensures !showUnsupportedFormatModal && unsupportedFileName == ""
    {
      showUnsupportedFormatModal := false;
      unsupportedFileName := "";
    }

    /** handleEscapeKey: the image modal closes first, else the video modal. */
    method HandleEscapeKey()
      requires Valid()
      modifies this`image, this`video, this`isUnsupportedInPreview
      ensures Valid() && Viewer() == PhotoGallery.Escape(old(Viewer()))
    {
      if image.show {
        CloseImagePreview();
      } else if video.show {
        CloseVideoPreview();
      }
    }

    /** handleLeftArrow: previous, while a modal is shown. */
    method HandleLeftArrow()
      requires Valid()
      modifies this`image, this`video, this`isUnsupportedInPreview, this`calls
      ensures Valid()
      ensures old(image.show || video.show) ==> Viewer() == PhotoGallery.NavigatePreviousAsWritten(old(Viewer()), allPhotos)
      ensures old(image.show || video.show) ==>
                calls == old(calls) + NavigationCalls(PhotoGallery.PreviousTarget(allPhotos, PhotoGallery.CurrentFileAsWritten(old(Viewer()))))
      ensures !old(image.show || video.show) ==> Viewer() == old(Viewer()) && calls == old(calls)
    {
      if image.show || video.show {
        NavigateToPreviousFile();
      }
    }

    /** handleRightArrow: next, while a modal is shown. */
    method HandleRightArrow()
      requires Valid()
      modifies this`image, this`video, this`isUnsupportedInPreview, this`calls
      ensures Valid()
      ensures old(image.show || video.show) ==> Viewer() == PhotoGallery.NavigateNextAsWritten(old(Viewer()), allPhotos)
      ensures old(image.show || video.show) ==>
                calls == old(calls) + NavigationCalls(PhotoGallery.NextTarget(allPhotos, PhotoGallery.CurrentFileAsWritten(old(Viewer()))))
      ensures !old(image.show || video.show) ==> Viewer() == old(Viewer()) && calls == old(calls)
    {
      if image.show || video.show {
        NavigateToNextFile();
      }
    }
  }
}
