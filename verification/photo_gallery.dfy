/**
 * The photos page's logic on values: which names are images or videos, the
 * gallery's newest-first order and its rows of five, the selection kept as
 * a JavaScript Set, the thumbnail cache's request guard, and the two
 * preview modals with previewing and previous/next navigation.
 */
module PhotoGallery {

  import opened JsValues
  import opened Text
  import opened DriveModels
  import opened Previews
  import Paging
  import StableSort
  import FileOrdering

  /** `itemsPerRow`: tiles per gallery row. */
  const ItemsPerRow: nat := 5

  /** The suffixes isImageFile accepts. */
  const ImageExtensions: seq<string> := [".jpg", ".jpeg", ".png", ".gif", ".bmp", ".webp", ".svg"]
  /** The suffixes isVideoFile accepts. */
  const VideoExtensions: seq<string> := [".mp4", ".avi", ".mov", ".wmv", ".flv", ".webm", ".mkv", ".mpg"]
  /** The suffixes of the image pattern of getFileType and getFileIcon. */
  const ImagePattern: seq<string> := [".jpg", ".jpeg", ".png", ".gif", ".bmp", ".webp"]
  /** The suffixes of their video pattern. */
  const VideoPattern: seq<string> := [".mp4", ".avi", ".mov", ".wmv", ".flv", ".webm", ".mpg"]

  const ImageIcon: string := "\U{1F5BC}\U{FE0F}"
  const VideoIcon: string := "\U{1F3A5}"
  const DocumentIcon: string := "\U{1F4C4}"

  /** `suffixes.some(ext => s.endsWith(ext))`; an anchored `\.(a|b)$` pattern reads the same way. */
  predicate EndsWithAny(s: string, suffixes: seq<string>) {
    exists e :: e in suffixes && EndsWith(s, e)
  }

  predicate IsImageFile(fileName: string) {
    EndsWithAny(ToLower(fileName), ImageExtensions)
  }

  predicate IsVideoFile(fileName: string) {
    EndsWithAny(ToLower(fileName), VideoExtensions)
  }

  /** The name ends in `.mpg`, in any case. */
  predicate IsMpg(fileName: string) {
    EndsWith(ToLower(fileName), ".mpg")
  }

  /** getFileType: the image pattern first, then the video pattern. */
  function FileType(fileName: string): string {
    var name := ToLower(fileName);
    if EndsWithAny(name, ImagePattern) then "Image"
    else if EndsWithAny(name, VideoPattern) then "Video"
    else "File"
  }

  /** getFileIcon: the same two patterns, in the same order. */
  function FileIcon(file: FileItemDto): string {
    var name := ToLower(file.name);
    if EndsWithAny(name, ImagePattern) then ImageIcon
    else if EndsWithAny(name, VideoPattern) then VideoIcon
    else DocumentIcon
  }

  /** The icon and the type classify alike: each icon goes with exactly one type. */
  lemma IconMatchesType(file: FileItemDto)
    ensures FileIcon(file) == ImageIcon <==> FileType(file.name) == "Image"
    ensures FileIcon(file) == VideoIcon <==> FileType(file.name) == "Video"
    ensures FileIcon(file) == DocumentIcon <==> FileType(file.name) == "File"
  {
    assert ImageIcon != VideoIcon && ImageIcon != DocumentIcon && VideoIcon != DocumentIcon;
  }

  /**
   * An `.mpg` name is a video for isVideoFile and for the type pattern; so
   * previewFile has to test for it before the video check to catch it.
   */
  lemma MpgIsVideo(fileName: string)
    requires IsMpg(fileName)
    ensures IsVideoFile(fileName)
    ensures FileType(fileName) == "Video" || FileType(fileName) == "Image"
  {
    assert ".mpg" in VideoExtensions;
    assert ".mpg" in VideoPattern;
  }

  /** The gallery's comparator: `dateB - dateA`, a missing date counting as 0. */
  function NewestFirst(a: FileItemDto, b: FileItemDto): int {
    FileOrdering.Timestamp(b) - FileOrdering.Timestamp(a)
  }

  function Comparator(): (FileItemDto, FileItemDto) -> int {
    (a: FileItemDto, b: FileItemDto) => NewestFirst(a, b)
  }

  /** `files.sort(...)` in loadPhotos: the stable sort by the comparator. */
  function SortSpec(files: seq<FileItemDto>): seq<FileItemDto> {
    StableSort.SortSpec(Comparator(), files)
  }

  /** Every photo is at least as new as every later one. */
  predicate NewestFirstOrder(photos: seq<FileItemDto>) {
    forall i, j :: 0 <= i < j < |photos| ==> FileOrdering.Timestamp(photos[i]) >= FileOrdering.Timestamp(photos[j])
  }

  lemma ComparatorConsistent()
    ensures StableSort.Consistent(Comparator())
  {
    var cmp := Comparator();
    forall a, b, c | cmp(a, b) <= 0 && cmp(b, c) <= 0 ensures cmp(a, c) <= 0 {
      assert FileOrdering.Timestamp(b) <= FileOrdering.Timestamp(a);
    }
  }

  /** The sorted gallery is a permutation of the listing, newest first. */
  lemma SortSpecCorrect(files: seq<FileItemDto>)
    ensures multiset(SortSpec(files)) == multiset(files) && |SortSpec(files)| == |files|
    ensures NewestFirstOrder(SortSpec(files))
  {
    ComparatorConsistent();
    StableSort.SortPermutes(Comparator(), files);
    StableSort.SortSorts(Comparator(), files);
    var s := SortSpec(files);
    forall i, j | 0 <= i < j < |s| ensures FileOrdering.Timestamp(s[i]) >= FileOrdering.Timestamp(s[j]) {
      assert Comparator()(s[i], s[j]) <= 0;
    }
  }

  /** `files.sort(...)`: sorts the array it is handed in place. */
  method SortPhotos(files: seq<FileItemDto>) returns (sorted: seq<FileItemDto>)
    ensures sorted == SortSpec(files)
  {
    var a := new FileItemDto[|files|](i requires 0 <= i < |files| => files[i]);
    assert a[..] == files;
    StableSort.SortInPlace(Comparator(), a);
    sorted := a[..];
  }

  /** The gallery rows: the photos cut into consecutive runs of five. */
  function Rows(photos: seq<FileItemDto>): seq<seq<FileItemDto>> {
    Paging.Pages(photos, ItemsPerRow, Paging.CeilDiv(|photos|, ItemsPerRow))
  }

  /**
   * The rows read in order are the photos; no row is empty, none holds
   * more than five, and every row but the last holds exactly five.
   */
  lemma RowsShape(photos: seq<FileItemDto>)
    ensures Paging.Concat(Rows(photos)) == photos
    ensures |Rows(photos)| == Paging.CeilDiv(|photos|, ItemsPerRow)
    ensures forall i :: 0 <= i < |Rows(photos)| ==> 0 < |Rows(photos)[i]| <= ItemsPerRow
    ensures forall i :: 0 <= i < |Rows(photos)| - 1 ==> |Rows(photos)[i]| == ItemsPerRow
  {
    var n, q := |photos|, Paging.CeilDiv(|photos|, ItemsPerRow);
    Paging.PagesConcat(photos, ItemsPerRow, q);
    assert photos[..Paging.Min(n, q * ItemsPerRow)] == photos;
    Paging.PagesIndex(photos, ItemsPerRow, q);
    forall i | 0 <= i < q ensures 0 < |Rows(photos)[i]| <= ItemsPerRow {
      Paging.PageWithinBounds(photos, i + 1, ItemsPerRow);
    }
    forall i | 0 <= i < q - 1 ensures |Rows(photos)[i]| == ItemsPerRow {
      Paging.PageWithinBounds(photos, i + 1, ItemsPerRow);
      assert i * ItemsPerRow + ItemsPerRow <= (q - 1) * ItemsPerRow;
    }
  }

  /** loadPhotos' row loop: one slice of five per step, from index 0 in steps of five. */
  method ChunkRows(sorted: seq<FileItemDto>) returns (rows: seq<seq<FileItemDto>>)
    ensures rows == Rows(sorted)
  {
    rows := [];
    var i := 0;
    while i < |sorted|
      invariant i == |rows| * ItemsPerRow
      invariant |rows| == 0 || (|rows| - 1) * ItemsPerRow < |sorted|
      invariant rows == Paging.Pages(sorted, ItemsPerRow, |rows|)
    {
      rows := rows + [Paging.JsSlice(sorted, i, i + ItemsPerRow)];
      i := i + ItemsPerRow;
    }
    CeilDivUnique(|sorted|, |rows|);
  }

  /** The row count the loop ends with is the ceiling of the length over five. */
  lemma CeilDivUnique(n: nat, q: nat)
    requires n <= q * ItemsPerRow
    requires q == 0 || (q - 1) * ItemsPerRow < n
    ensures q == Paging.CeilDiv(n, ItemsPerRow)
  {
    var c := Paging.CeilDiv(n, ItemsPerRow);
    assert c * ItemsPerRow >= n && (c == 0 || (c - 1) * ItemsPerRow < n);
  }

  /** No name occurs twice: the insertion-ordered contents of a Set. */
  predicate Distinct(s: seq<string>) {
    forall i, j :: 0 <= i < j < |s| ==> s[i] != s[j]
  }

  /** Set.prototype.delete: every entry but `x`, in order. */
  function SetDelete(s: seq<string>, x: string): seq<string>
    decreases |s|
  {
    if |s| == 0 then []
    else SetDelete(s[..|s| - 1], x) + (if s[|s| - 1] == x then [] else [s[|s| - 1]])
  }

  /** Set.prototype.add: a new entry goes last, a present one stays where it is. */
  function SetAdd(s: seq<string>, x: string): seq<string> {
    if x in s then s else s + [x]
  }

  /** toggleFileSelection's update of its copy of the set. */
  function Toggle(s: seq<string>, x: string): seq<string> {
    if x in s then SetDelete(s, x) else SetAdd(s, x)
  }

  lemma {:induction false} SetDeleteSpec(s: seq<string>, x: string)
    ensures forall y :: y in SetDelete(s, x) <==> y in s && y != x
    ensures Distinct(s) ==> Distinct(SetDelete(s, x))
    decreases |s|
  {
    if |s| > 0 {
      var init, last := s[..|s| - 1], s[|s| - 1];
      SetDeleteSpec(init, x);
      assert s == init + [last];
      if Distinct(s) {
        assert Distinct(init);
        assert last !in init;
      }
    }
  }

  /**
   * Toggling flips the membership of exactly the given name, leaves every
   * other name's membership as it was, and keeps the set free of repeats.
   */
  lemma ToggleSpec(s: seq<string>, x: string)
    ensures x in Toggle(s, x) <==> x !in s
    ensures forall y :: y != x ==> (y in Toggle(s, x) <==> y in s)
    ensures Distinct(s) ==> Distinct(Toggle(s, x))
  {
    SetDeleteSpec(s, x);
  }

  /**
   * Toggling twice restores the set: the same members, and the very same
   * sequence when the name was absent.
   */
  lemma ToggleTwice(s: seq<string>, x: string)
    requires Distinct(s)
    ensures forall y :: y in Toggle(Toggle(s, x), x) <==> y in s
    ensures x !in s ==> Toggle(Toggle(s, x), x) == s
  {
    ToggleSpec(s, x);
    ToggleSpec(Toggle(s, x), x);
    if x !in s {
      SetDeleteKeepsOthers(s, x);
    }
  }

  lemma {:induction false} SetDeleteKeepsOthers(s: seq<string>, x: string)
    requires x !in s
    ensures SetDelete(s + [x], x) == s
  {
    assert (s + [x])[..|s|] == s;
    SetDeleteAbsent(s, x);
  }

  lemma {:induction false} SetDeleteAbsent(s: seq<string>, x: string)
    requires x !in s
    ensures SetDelete(s, x) == s
    decreases |s|
  {
    if |s| > 0 {
      SetDeleteAbsent(s[..|s| - 1], x);
      assert s == s[..|s| - 1] + [s[|s| - 1]];
    }
  }

  /** The number of deletions that succeeded. */
  function DeletedCount(outcomes: seq<bool>): (c: nat)
    ensures c <= |outcomes|
  {
    if |outcomes| == 0 then 0
    else DeletedCount(outcomes[..|outcomes| - 1]) + (if outcomes[|outcomes| - 1] then 1 else 0)
  }

  /** `Deleted ${deletedCount} files, ${failedCount} failed`. */
  function DeleteSummary(deleted: nat, failed: nat): string {
    "Deleted " + NatToString(deleted) + " files, " + NatToString(failed) + " failed"
  }

  /** loadThumbnail on the cache: a cached name is left alone, any other gets an empty placeholder. */
  function CacheStep(cache: map<string, string>, name: string): map<string, string> {
    if name in cache then cache else cache[name := ""]
  }

  /** The cache after loadThumbnail for each name in turn. */
  function CacheAfter(cache: map<string, string>, names: seq<string>): map<string, string> {
    if |names| == 0 then cache else CacheStep(CacheAfter(cache, names[..|names| - 1]), names[|names| - 1])
  }

  /** The download-URL requests those calls make: a name is requested when it is not yet cached. */
  function ThumbnailRequests(cache: map<string, string>, names: seq<string>): seq<string> {
    if |names| == 0 then []
    else
      var before := CacheAfter(cache, names[..|names| - 1]);
      ThumbnailRequests(cache, names[..|names| - 1]) + (if names[|names| - 1] in before then [] else [names[|names| - 1]])
  }

  /**
   * Whatever the order of the tiles asking, every name is requested at most
   * once, only a name the cache did not hold is requested, each such name
   * is, and afterwards every name asked for is cached.
   */
  lemma {:induction false} ThumbnailRequestsOnce(cache: map<string, string>, names: seq<string>)
    ensures Distinct(ThumbnailRequests(cache, names))
    ensures forall n :: n in ThumbnailRequests(cache, names) <==> n in names && n !in cache
    ensures forall n :: n in CacheAfter(cache, names) <==> n in cache || n in names
  {
    if |names| > 0 {
      var init, last := names[..|names| - 1], names[|names| - 1];
      ThumbnailRequestsOnce(cache, init);
      assert names == init + [last];
    }
  }

  /** The image modal, the video modal, and the image modal's unsupported-format flag. */
  datatype Viewer = Viewer(image: MediaModal, video: MediaModal, unsupported: bool)

  const NoPreview: Viewer := Viewer(Closed, Closed, false)

  predicate ViewerValid(v: Viewer) {
    ModalValid(v.image) && ModalValid(v.video)
  }

  /** previewImage: a non-image is ignored; otherwise the video modal is hidden and the image modal opens. */
  function PreviewImage(v: Viewer, photo: FileItemDto): Viewer {
    if !IsImageFile(photo.name) then v
    else Viewer(Opening(photo), v.video.(show := false), false)
  }

  /**
   * previewVideo: a non-video is ignored; otherwise the image modal is
   * hidden (keeping the file it showed) and the video modal opens.
   */
  function PreviewVideo(v: Viewer, photo: FileItemDto): Viewer {
    if !IsVideoFile(photo.name) then v
    else Viewer(v.image.(show := false), Opening(photo), false)
  }

  /** The image modal as an `.mpg` opens it: titled, no URL, not loading, marked unsupported. */
  function UnsupportedPreview(photo: FileItemDto): MediaModal {
    MediaModal(true, None, photo.name, Some(photo), false, false)
  }

  /**
   * previewFile: an `.mpg` opens the image modal marked unsupported,
   * leaving the video modal as it was; then videos, then images; any other
   * name changes nothing.
   */
  function PreviewFile(v: Viewer, photo: FileItemDto): Viewer {
    if IsMpg(photo.name) then Viewer(UnsupportedPreview(photo), v.video, true)
    else if IsVideoFile(photo.name) then PreviewVideo(v, photo)
    else PreviewImage(v, photo)
  }

  /** The download-URL request previewFile makes: one for an image or a video, none for an `.mpg`. */
  function PreviewRequests(photo: FileItemDto): seq<string> {
    if IsMpg(photo.name) then []
    else if IsVideoFile(photo.name) || IsImageFile(photo.name) then [photo.name]
    else []
  }

  /** A name previewFile opens a modal for. */
  predicate Previewable(photo: FileItemDto) {
    IsMpg(photo.name) || IsVideoFile(photo.name) || IsImageFile(photo.name)
  }

  /** The file of the modal on screen, the image modal first. */
  function ShownFile(v: Viewer): Option<FileItemDto> {
    if v.image.show then v.image.file
    else if v.video.show then v.video.file
    else None
  }

  /**
   * The dispatch: an `.mpg`, which isVideoFile also accepts, lands in the
   * image modal marked unsupported with no URL; otherwise a video opens the
   * video modal and hides the image one, and an image the reverse; anything
   * else changes nothing. A previewable entry is then the one on screen,
   * and both modals stay well formed.
   */
  lemma PreviewFileSpec(v: Viewer, photo: FileItemDto)
    ensures var r := PreviewFile(v, photo);
      && (IsMpg(photo.name) ==> IsVideoFile(photo.name) && r.image.show && r.unsupported && r.image.url.None?
                                 && r.image.file == Some(photo) && r.video == v.video)
      && (!IsMpg(photo.name) && IsVideoFile(photo.name) ==>
            r.video == Opening(photo) && !r.image.show && r.image.file == v.image.file && !r.unsupported)
      && (!IsMpg(photo.name) && !IsVideoFile(photo.name) && IsImageFile(photo.name) ==>
            r.image == Opening(photo) && !r.video.show && !r.unsupported)
      && (!Previewable(photo) ==> r == v)
      && (Previewable(photo) ==> ShownFile(r) == Some(photo))
      && (ViewerValid(v) ==> ViewerValid(r))
  {
    if IsMpg(photo.name) {
      MpgIsVideo(photo.name);
    }
  }

  /** closeImagePreview: the image modal is reset and the unsupported flag cleared. */
  function CloseImage(v: Viewer): Viewer {
    v.(image := Closed, unsupported := false)
  }

  /** closeVideoPreview: the video modal is reset. */
  function CloseVideo(v: Viewer): Viewer {
    v.(video := Closed)
  }

  /** handleEscapeKey: the image modal closes first; the video modal only when the image one is hidden. */
  function Escape(v: Viewer): Viewer {
    if v.image.show then CloseImage(v) else if v.video.show then CloseVideo(v) else v
  }

  /** Escape closes exactly one shown modal, the image one first, and never the other. */
  lemma EscapeSpec(v: Viewer)
    ensures v.image.show ==> !Escape(v).image.show && Escape(v).video == v.video
    ensures !v.image.show && v.video.show ==> !Escape(v).video.show && Escape(v).image == v.image
    ensures !v.image.show && !v.video.show ==> Escape(v) == v
    ensures ViewerValid(v) ==> ViewerValid(Escape(v))
  {
  }

  /** Array.prototype.findIndex by name: the first entry with that name, or -1. */
  function FindIndex(all: seq<FileItemDto>, name: string): (i: int)
    ensures -1 <= i < |all|
    ensures i >= 0 ==> all[i].name == name && forall k :: 0 <= k < i ==> all[k].name != name
    ensures i == -1 ==> forall k :: 0 <= k < |all| ==> all[k].name != name
    decreases |all|
  {
    if |all| == 0 then -1
    else if all[0].name == name then 0
    else
      var j := FindIndex(all[1..], name);
      if j == -1 then -1 else j + 1
  }

  /** The entry navigateToPreviousFile previews: none without a current file or at index 0 or below. */
  function PreviousTarget(all: seq<FileItemDto>, current: Option<FileItemDto>): Option<FileItemDto> {
    match current
    case None => None
    case Some(f) =>
      var i := FindIndex(all, f.name);
      if i <= 0 then None else Some(all[i - 1])
  }

  /** The entry navigateToNextFile previews: none without a current file or at the last index or beyond. */
  function NextTarget(all: seq<FileItemDto>, current: Option<FileItemDto>): Option<FileItemDto> {
    match current
    case None => None
    case Some(f) =>
      var i := FindIndex(all, f.name);
      if i >= |all| - 1 then None else Some(all[i + 1])
  }

  /** Whether `i` is the first index of its name. */
  predicate FirstOfName(all: seq<FileItemDto>, i: int) {
    0 <= i < |all| && forall k :: 0 <= k < i ==> all[k].name != all[i].name
  }

  /**
   * Without a current file nothing is previewed; from the first entry of
   * a name, previous is the entry before it (none at the start) and next
   * the entry after it (none at the end); a name not listed has index -1,
   * so previous finds nothing and next goes to the first entry.
   */
  lemma TargetsSpec(all: seq<FileItemDto>, current: Option<FileItemDto>, i: int)
    ensures current.None? ==> PreviousTarget(all, current).None? && NextTarget(all, current).None?
    ensures current.Some? && FirstOfName(all, i) && all[i].name == current.value.name ==>
              && (i == 0 ==> PreviousTarget(all, current).None?)
              && (i > 0 ==> PreviousTarget(all, current) == Some(all[i - 1]))
              && (i == |all| - 1 ==> NextTarget(all, current).None?)
              && (i < |all| - 1 ==> NextTarget(all, current) == Some(all[i + 1]))
    ensures current.Some? && (forall k :: 0 <= k < |all| ==> all[k].name != current.value.name) ==>
              PreviousTarget(all, current).None? && (|all| > 0 ==> NextTarget(all, current) == Some(all[0]))
  {
  }

  /** navigateToPreviousFile, from the file on screen. */
  function NavigatePrevious(v: Viewer, all: seq<FileItemDto>): Viewer {
    match PreviousTarget(all, ShownFile(v))
    case None => v
    case Some(p) => PreviewFile(v, p)
  }

  /** navigateToNextFile, from the file on screen. */
  function NavigateNext(v: Viewer, all: seq<FileItemDto>): Viewer {
    match NextTarget(all, ShownFile(v))
    case None => v
    case Some(p) => PreviewFile(v, p)
  }

  /**
   * From the first entry of a name on screen, next puts the following entry
   * on screen and previous the one before, when that entry is previewable.
   */
  lemma NavigateMoves(v: Viewer, all: seq<FileItemDto>, i: int)
    requires FirstOfName(all, i) && ShownFile(v) == Some(all[i])
    ensures i + 1 < |all| && Previewable(all[i + 1]) ==> ShownFile(NavigateNext(v, all)) == Some(all[i + 1])
    ensures i > 0 && Previewable(all[i - 1]) ==> ShownFile(NavigatePrevious(v, all)) == Some(all[i - 1])
    ensures i == |all| - 1 ==> NavigateNext(v, all) == v
    ensures i == 0 ==> NavigatePrevious(v, all) == v
  {
    TargetsSpec(all, ShownFile(v), i);
    if i + 1 < |all| {
      PreviewFileSpec(v, all[i + 1]);
    }
    if i > 0 {
      PreviewFileSpec(v, all[i - 1]);
    }
  }

  /** The current file as navigation reads it: `currentPreviewFile() || currentVideoPreviewFile()`. */
  function CurrentFileAsWritten(v: Viewer): Option<FileItemDto> {
    if v.image.file.Some? then v.image.file else v.video.file
  }

  /** navigateToPreviousFile as written, from that current file. */
  function NavigatePreviousAsWritten(v: Viewer, all: seq<FileItemDto>): Viewer {
    match PreviousTarget(all, CurrentFileAsWritten(v))
    case None => v
    case Some(p) => PreviewFile(v, p)
  }

  /** navigateToNextFile as written, from that current file. */
  function NavigateNextAsWritten(v: Viewer, all: seq<FileItemDto>): Viewer {
    match NextTarget(all, CurrentFileAsWritten(v))
    case None => v
    case Some(p) => PreviewFile(v, p)
  }

  /**
   * While the current file the program reads is the one on screen, as
   * written and corrected navigation agree.
   */
  lemma NavigateAsWrittenAgrees(v: Viewer, all: seq<FileItemDto>)
    requires CurrentFileAsWritten(v) == ShownFile(v)
    ensures NavigatePreviousAsWritten(v, all) == NavigatePrevious(v, all)
    ensures NavigateNextAsWritten(v, all) == NavigateNext(v, all)
  {
  }

  /**
   * Previewing an image `a` and pressing next twice over [a, b, c], with `b`
   * a video: the first press shows `b`, but previewVideo only hides the
   * image modal and leaves `a` as its file, so the second press starts from
   * `a` again and shows `b` once more; navigation never reaches `c`. From
   * the file on screen, the second press shows `c`.
   */
  lemma NavigateNextAsWrittenStuck(a: FileItemDto, b: FileItemDto, c: FileItemDto)
    requires IsImageFile(a.name) && !IsMpg(a.name) && !IsVideoFile(a.name)
    requires IsVideoFile(b.name) && !IsMpg(b.name) && a.name != b.name
    requires Previewable(c) && c.name != a.name && c.name != b.name
    ensures var all := [a, b, c];
      var first := NavigateNextAsWritten(PreviewFile(NoPreview, a), all);
      && ShownFile(first) == Some(b)
      && ShownFile(NavigateNextAsWritten(first, all)) == Some(b)
      && ShownFile(NavigateNext(first, all)) == Some(c)
  {
    var all := [a, b, c];
    var start := PreviewFile(NoPreview, a);
    PreviewFileSpec(NoPreview, a);
    assert CurrentFileAsWritten(start) == Some(a);
    assert FindIndex(all, a.name) == 0;
    var first := NavigateNextAsWritten(start, all);
    PreviewFileSpec(start, b);
    assert first == PreviewFile(start, b);
    assert first.image.file == Some(a);
    assert CurrentFileAsWritten(first) == Some(a);
    PreviewFileSpec(first, b);
    assert FirstOfName(all, 1);
    NavigateMoves(first, all, 1);
  }

  /**
   * Previewing an image `a` in [a, b] with `b` a video, pressing next
   * shows `b`; pressing previous then starts from `a`, which is at index
   * 0, so nothing happens and `b` stays on screen. From the file on
   * screen, previous goes back to `a`.
   */
  lemma NavigatePreviousAsWrittenStuck(a: FileItemDto, b: FileItemDto)
    requires IsImageFile(a.name) && !IsMpg(a.name) && !IsVideoFile(a.name)
    requires IsVideoFile(b.name) && !IsMpg(b.name) && a.name != b.name
    ensures var all := [a, b];
      var first := NavigateNextAsWritten(PreviewFile(NoPreview, a), all);
      && ShownFile(first) == Some(b)
      && NavigatePreviousAsWritten(first, all) == first
      && ShownFile(NavigatePrevious(first, all)) == Some(a)
  {
    var all := [a, b];
    var start := PreviewFile(NoPreview, a);
    PreviewFileSpec(NoPreview, a);
    assert CurrentFileAsWritten(start) == Some(a);
    assert FindIndex(all, a.name) == 0;
    var first := NavigateNextAsWritten(start, all);
    PreviewFileSpec(start, b);
    assert first == PreviewFile(start, b);
    assert CurrentFileAsWritten(first) == Some(a);
    assert FirstOfName(all, 1);
    NavigateMoves(first, all, 1);
  }
}
