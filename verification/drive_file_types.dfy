/**
 * How the drive view classifies an entry: folder or file, and for files
 * the kind read from the extension, which picks the icon.
 */
module DriveFileTypes {

  import opened JsValues
  import opened Text
  import opened DriveModels

  const ImageExtensions: seq<string> := [".jpg", ".jpeg", ".png", ".gif", ".webp", ".svg", ".bmp", ".tiff", ".heic", ".avif"]
  const ExcelExtensions: seq<string> := [".xls", ".xlsx", ".xlsm", ".xlsb", ".xlt", ".xltx", ".xltm", ".csv", ".ods", ".xml"]
  const VideoExtensions: seq<string> := [".mp4", ".mov", ".avi", ".mkv", ".wmv", ".flv", ".webm", ".m4v", ".3gp", ".ogv", ".ts", ".mts"]

  const FolderIcon: string := "\U{1F4C1}"
  const ImageIcon: string := "\U{1F5BC}\U{FE0F}"
  const ExcelIcon: string := "\U{1F4CA}"
  const PdfIcon: string := "\U{1F4D5}"
  const VideoIcon: string := "\U{1F3AC}"
  const DocumentIcon: string := "\U{1F4C4}"

  /** `fileName.toLowerCase().split('.').pop()`: the text after the last '.', or the whole lowered name. */
  function Extension(fileName: string): string {
    Last(Split(ToLower(fileName), "."))
  }

  /** `extension ? list.includes('.' + extension) : false`, after the empty-name guard. */
  predicate HasExtensionIn(fileName: string, extensions: seq<string>) {
    fileName != "" && Extension(fileName) != "" && "." + Extension(fileName) in extensions
  }

  predicate IsImageFile(fileName: string) {
    HasExtensionIn(fileName, ImageExtensions)
  }

  predicate IsExcelFile(fileName: string) {
    HasExtensionIn(fileName, ExcelExtensions)
  }

  predicate IsPdfFile(fileName: string) {
    fileName != "" && Extension(fileName) == "pdf"
  }

  predicate IsVideoFile(fileName: string) {
    HasExtensionIn(fileName, VideoExtensions)
  }

  /** isFolder: the backend's `folder` flag or `isDirectory` is true. */
  predicate IsFolder(file: FileItemDto) {
    file.folder == Some(true) || file.isDirectory
  }

  /** A list of extensions of the form '.' followed by a dot-free, non-empty text. */
  predicate DotExtensions(extensions: seq<string>) {
    forall e :: e in extensions ==> |e| > 1 && e[0] == '.' && '.' !in e[1..]
  }

  lemma ImageExtensionsAreDotExtensions()
    ensures DotExtensions(ImageExtensions)
  {
    forall e | e in ImageExtensions ensures |e| > 1 && e[0] == '.' && '.' !in e[1..] {
      var i :| 0 <= i < |ImageExtensions| && ImageExtensions[i] == e;
    }
  }

  lemma ExcelExtensionsAreDotExtensions()
    ensures DotExtensions(ExcelExtensions)
  {
    forall e | e in ExcelExtensions ensures |e| > 1 && e[0] == '.' && '.' !in e[1..] {
      var i :| 0 <= i < |ExcelExtensions| && ExcelExtensions[i] == e;
    }
  }

  lemma VideoExtensionsAreDotExtensions()
    ensures DotExtensions(VideoExtensions)
  {
    forall e | e in VideoExtensions ensures |e| > 1 && e[0] == '.' && '.' !in e[1..] {
      var i :| 0 <= i < |VideoExtensions| && VideoExtensions[i] == e;
    }
  }

  lemma ImageExcelDisjoint(x: string)
    ensures !(x in ImageExtensions && x in ExcelExtensions)
  {
  }

  lemma ImageVideoDisjoint(x: string)
    ensures !(x in ImageExtensions && x in VideoExtensions)
  {
  }

  lemma ExcelVideoDisjoint(x: string)
    ensures !(x in ExcelExtensions && x in VideoExtensions)
  {
  }

  lemma PdfInNoList()
    ensures ".pdf" !in ImageExtensions && ".pdf" !in ExcelExtensions && ".pdf" !in VideoExtensions
  {
  }

  /** In a text containing '.', the last '.'-piece is `x` exactly when the text ends with '.' + `x`. */
  lemma LastPieceIffSuffix(s: string, x: string)
    requires '.' in s && '.' !in x
    ensures Last(Split(s, ".")) == x <==> EndsWith(s, "." + x)
  {
    var l := Last(Split(s, "."));
    SplitLast(s, '.');
    if l == x {
      assert s[|s| - |x| - 1..] == [s[|s| - |x| - 1]] + s[|s| - |x|..];
    }
    if EndsWith(s, "." + x) {
      var pre := s[..|s| - |x| - 1];
      assert s == pre + ['.'] + x;
      SplitLastOf(pre, '.', x);
    }
  }

  /** Lowering keeps every '.'. */
  lemma DotStaysLower(fileName: string)
    requires '.' in fileName
    ensures '.' in ToLower(fileName)
  {
    var k :| 0 <= k < |fileName| && fileName[k] == '.';
    assert ToLower(fileName)[k] == '.';
  }

  /** A name with an extension on the list ends with it. */
  lemma ExtensionInSuffix(fileName: string, extensions: seq<string>)
    requires '.' in fileName && HasExtensionIn(fileName, extensions)
    ensures "." + Extension(fileName) in extensions && EndsWith(ToLower(fileName), "." + Extension(fileName))
  {
    var lower := ToLower(fileName);
    DotStaysLower(fileName);
    SplitLast(lower, '.');
    LastPieceIffSuffix(lower, Extension(fileName));
  }

  /** A name ending with an extension on the list has that extension. */
  lemma SuffixExtensionIn(fileName: string, extensions: seq<string>, e: string)
    requires '.' in fileName && DotExtensions(extensions)
    requires e in extensions && EndsWith(ToLower(fileName), e)
    ensures HasExtensionIn(fileName, extensions)
  {
    DotStaysLower(fileName);
    assert e == "." + e[1..];
    LastPieceIffSuffix(ToLower(fileName), e[1..]);
  }

  /**
   * For a name that contains a '.', the extension test is a suffix test:
   * the lowered name ends with one of the extensions.
   */
  lemma HasExtensionInIffSuffix(fileName: string, extensions: seq<string>)
    requires '.' in fileName
    requires DotExtensions(extensions)
    ensures HasExtensionIn(fileName, extensions) <==> exists e :: e in extensions && EndsWith(ToLower(fileName), e)
  {
    if HasExtensionIn(fileName, extensions) {
      ExtensionInSuffix(fileName, extensions);
    }
    if exists e :: e in extensions && EndsWith(ToLower(fileName), e) {
      var e :| e in extensions && EndsWith(ToLower(fileName), e);
      SuffixExtensionIn(fileName, extensions, e);
    }
  }

  /** A name without '.' is its own extension, so a bare "png" counts as an image. */
  lemma BareExtensionName()
    ensures IsImageFile("png") && IsVideoFile("MP4")
  {
    assert ToLower("png") == "png";
    SplitNoSep("png", '.');
    assert "." + "png" == ".png";
    assert ToLower("MP4") == "mp4";
    SplitNoSep("mp4", '.');
    assert "." + "mp4" == ".mp4";
  }

  /** The four kinds are mutually exclusive. */
  lemma KindsExclusive(fileName: string)
    ensures !(IsImageFile(fileName) && IsExcelFile(fileName))
    ensures !(IsImageFile(fileName) && IsPdfFile(fileName))
    ensures !(IsImageFile(fileName) && IsVideoFile(fileName))
    ensures !(IsExcelFile(fileName) && IsPdfFile(fileName))
    ensures !(IsExcelFile(fileName) && IsVideoFile(fileName))
    ensures !(IsPdfFile(fileName) && IsVideoFile(fileName))
  {
    var dotted := "." + Extension(fileName);
    ImageExcelDisjoint(dotted);
    ImageVideoDisjoint(dotted);
    ExcelVideoDisjoint(dotted);
    PdfInNoList();
    assert IsPdfFile(fileName) ==> dotted == ".pdf";
  }

  /**
   * getFileIcon: a folder gets the folder icon whatever its name; a file
   * gets the icon of its kind, and the document icon when it has none.
   */
  function FileIcon(file: FileItemDto): (icon: string)
    ensures icon == FolderIcon <==> IsFolder(file)
    ensures icon == ImageIcon <==> !IsFolder(file) && IsImageFile(file.name)
    ensures icon == ExcelIcon <==> !IsFolder(file) && IsExcelFile(file.name)
    ensures icon == PdfIcon <==> !IsFolder(file) && IsPdfFile(file.name)
    ensures icon == VideoIcon <==> !IsFolder(file) && IsVideoFile(file.name)
    ensures icon == DocumentIcon <==>
              !IsFolder(file) && !IsImageFile(file.name) && !IsExcelFile(file.name)
              && !IsPdfFile(file.name) && !IsVideoFile(file.name)
  {
    KindsExclusive(file.name);
    if IsFolder(file) then FolderIcon
    else if IsImageFile(file.name) then ImageIcon
    else if IsExcelFile(file.name) then ExcelIcon
    else if IsPdfFile(file.name) then PdfIcon
    else if IsVideoFile(file.name) then VideoIcon
    else DocumentIcon
  }
}
