/**
 * The drive view's path and name helpers. The current folder is a string
 * path such as "docs/2024"; the root is the empty string. Every helper
 * takes the current path as a parameter (the component reads it from its
 * `currentPath` field).
 */
module DrivePaths {

  import opened JsValues
  import opened Text
  import DriveService

  /**
   * getDisplayName: the last '/'-separated part of a name, after removing
   * one trailing '/'; the whole name when that part is empty; trimmed.
   */
  function DisplayName(name: string): string {
    if name == "" then name
    else
      var last := Last(Split(DriveService.StripTrailingSlash(name), "/"));
      Trim(if last != "" then last else name)
  }

  /**
   * The display name of an object key `dir/seg`, `dir/seg/`, `seg` or
   * `seg/` is its last segment, trimmed.
   */
  lemma DisplayNameOfKey(dir: Option<string>, seg: string, trailing: bool)
    requires seg != "" && '/' !in seg
    ensures DisplayName(KeyOf(dir, seg, trailing)) == Trim(seg)
  {
    var body := if dir.Some? then dir.value + "/" + seg else seg;
    var name := KeyOf(dir, seg, trailing);
    assert name == body + (if trailing then "/" else "");
    assert body[|body| - 1] == seg[|seg| - 1];
    if trailing {
      assert name[..|name| - 1] == body;
    }
    assert DriveService.StripTrailingSlash(name) == body;
    if dir.Some? {
      assert body == dir.value + ['/'] + seg;
      SplitLastOf(dir.value, '/', seg);
    } else {
      SplitNoSep(seg, '/');
    }
  }

  /** An object key built from an optional folder prefix, a segment and an optional trailing '/'. */
  function KeyOf(dir: Option<string>, seg: string, trailing: bool): string {
    (if dir.Some? then dir.value + "/" else "") + seg + (if trailing then "/" else "")
  }

  /**
   * buildFilePath: the bare name when the trimmed current path is empty,
   * otherwise the trimmed path without one trailing '/', a '/', and the name
   * without one leading '/'.
   */
  function BuildFilePath(currentPath: string, fileName: string): string {
    var path := Trim(currentPath);
    if path == "" then fileName
    else DriveService.StripTrailingSlash(path) + "/" + DriveService.StripLeadingSlash(fileName)
  }

  /** The component's path builder is the service's buildPath applied to the trimmed current path. */
  lemma BuildFilePathIsBuildPath(currentPath: string, fileName: string)
    ensures BuildFilePath(currentPath, fileName) == DriveService.BuildPath(Trim(currentPath), fileName)
  {
    if Trim(currentPath) != "" {
      TrimmedNotBlank(currentPath);
      TrimEmptyIffBlank(Trim(currentPath));
    }
  }

  /** A clean path segment: non-empty, without '/' and without white space. */
  predicate CleanSegment(s: string) {
    s != "" && forall i :: 0 <= i < |s| ==> s[i] != '/' && !IsWhitespace(s[i])
  }

  predicate CleanSegments(segs: seq<string>) {
    forall i :: 0 <= i < |segs| ==> CleanSegment(segs[i])
  }

  /** A path joined from clean segments has no white space and no empty segment. */
  lemma {:induction false} JoinCleanSegments(segs: seq<string>)
    requires CleanSegments(segs)
    ensures forall i :: 0 <= i < |Join(segs, "/")| ==> !IsWhitespace(Join(segs, "/")[i])
    ensures |segs| > 0 ==> Join(segs, "/") != "" && Join(segs, "/")[0] != '/'
    ensures |segs| > 0 ==> Join(segs, "/")[|Join(segs, "/")| - 1] != '/'
    ensures forall i :: 0 <= i < |segs| ==> '/' !in segs[i]
    decreases |segs|
  {
    if |segs| > 1 {
      JoinCleanSegments(segs[1..]);
      var j := Join(segs, "/");
      var tail := Join(segs[1..], "/");
      assert j == segs[0] + "/" + tail;
      forall i | 0 <= i < |j| ensures !IsWhitespace(j[i]) {
        if i < |segs[0]| {
          assert j[i] == segs[0][i];
        } else if i > |segs[0]| {
          assert j[i] == tail[i - |segs[0]| - 1];
        }
      }
      assert j[|j| - 1] == tail[|tail| - 1];
    }
  }

  /**
   * Entering a clean folder from a path joined from clean segments appends
   * that segment: at the root the path becomes the segment itself.
   */
  lemma BuildFilePathAppends(segs: seq<string>, seg: string)
    requires CleanSegments(segs) && CleanSegment(seg)
    ensures BuildFilePath(Join(segs, "/"), seg) == Join(segs + [seg], "/")
  {
    JoinCleanSegments(segs);
    var p := Join(segs, "/");
    TrimNoEdges(p);
    if |segs| == 0 {
      assert segs + [seg] == [seg];
    } else {
      assert p[|p| - 1..] == [p[|p| - 1]];
      assert DriveService.StripTrailingSlash(p) == p;
      assert seg[..1] == [seg[0]];
      assert DriveService.StripLeadingSlash(seg) == seg;
      JoinSnoc(segs, seg);
    }
  }

  lemma {:induction false} JoinSnoc(segs: seq<string>, seg: string)
    requires |segs| > 0
    ensures Join(segs + [seg], "/") == Join(segs, "/") + "/" + seg
    decreases |segs|
  {
    if |segs| == 1 {
      assert segs + [seg] == [segs[0], seg];
      assert [segs[0], seg][1..] == [seg];
    } else {
      JoinSnoc(segs[1..], seg);
      assert (segs + [seg])[1..] == segs[1..] + [seg];
    }
  }

  /** The non-empty segments of a path, as the view splits it. */
  function Segments(path: string): seq<string> {
    NonEmpty(Split(path, "/"))
  }

  /**
   * getDisplayPath: the trimmed current path with empty segments dropped,
   * i.e. without leading, trailing or doubled '/'.
   */
  function DisplayPath(currentPath: string): string {
    var path := Trim(currentPath);
    if path == "" then "" else Join(Segments(path), "/")
  }

  /**
   * A display path has no empty segment, and its segments are exactly the
   * non-empty segments of the trimmed current path.
   */
  lemma DisplayPathWellFormed(currentPath: string)
    ensures var r := DisplayPath(currentPath);
      r == "" || (Split(r, "/") == Segments(Trim(currentPath))
                  && forall i :: 0 <= i < |Split(r, "/")| ==> Split(r, "/")[i] != "")
  {
    var path := Trim(currentPath);
    if path != "" {
      var segs := Segments(path);
      NonEmptySplitAvoidsSep(path, '/');
      if |segs| > 0 {
        SplitJoin(segs, '/');
      }
    }
  }

  /**
   * navigateUp: None at the root (blank path: nothing happens); otherwise
   * the path made of all non-empty segments but the last.
   */
  function NavigateUpPath(currentPath: string): (r: Option<string>)
    ensures r.None? <==> IsBlank(currentPath)
  {
    TrimEmptyIffBlank(currentPath);
    var path := Trim(currentPath);
    if path == "" then None
    else
      var segs := Segments(path);
      Some(Join(if |segs| > 0 then segs[..|segs| - 1] else [], "/"))
  }

  /**
   * Away from the root, the new path's non-empty segments are the old
   * ones without the last.
   */
  lemma NavigateUpDropsLastSegment(currentPath: string)
    requires !IsBlank(currentPath)
    ensures var segs := Segments(Trim(currentPath));
      Segments(NavigateUpPath(currentPath).value) == if |segs| > 0 then segs[..|segs| - 1] else []
  {
    var segs := Segments(Trim(currentPath));
    var up := if |segs| > 0 then segs[..|segs| - 1] else [];
    NonEmptySplitAvoidsSep(Trim(currentPath), '/');
    if |up| > 0 {
      SplitJoin(up, '/');
      NonEmptyKeepsNonEmpty(up);
    } else {
      assert Split("", "/") == [""];
    }
  }

  /** Going up from a folder just entered returns to the folder it was entered from. */
  lemma NavigateUpUndoesEnter(segs: seq<string>, seg: string)
    requires CleanSegments(segs) && CleanSegment(seg)
    ensures NavigateUpPath(BuildFilePath(Join(segs, "/"), seg)) == Some(Join(segs, "/"))
  {
    BuildFilePathAppends(segs, seg);
    var all := segs + [seg];
    assert CleanSegments(all);
    JoinCleanSegments(all);
    var p := Join(all, "/");
    TrimNoEdges(p);
    SplitJoin(all, '/');
    NonEmptyKeepsNonEmpty(all);
    assert all[..|all| - 1] == segs;
  }

  /**
   * The folder name `navigateToFolder` appends, as written: the part after
   * the last '/' when the name contains one and that part is non-empty,
   * otherwise the whole name; then one trailing '/' is removed.
   */
  function FolderNameToOpenAsWritten(folderName: string): string {
    var actual :=
      if Contains(folderName, "/") then
        var last := Last(Split(folderName, "/"));
        if last != "" then last else folderName
      else folderName;
    DriveService.StripTrailingSlash(actual)
  }

  /**
   * A folder name ending in '/' has an empty last segment, so the whole
   * name is kept, less that '/': a full key keeps its whole prefix.
   */
  lemma FolderNameToOpenAsWrittenKeepsPrefix(prefix: string)
    ensures FolderNameToOpenAsWritten(prefix + "/") == prefix
  {
    var key := prefix + "/";
    ContainsCharIff(key, '/');
    assert key[|key| - 1] == '/';
    assert key == prefix + ['/'] + "";
    SplitLastOf(prefix, '/', "");
    assert key[..|key| - 1] == prefix;
  }

  /**
   * So opening the key `current/name/` from `current` appends the prefix a
   * second time: the page lands in `current/current/name`, where it meant
   * `current/name`.
   */
  lemma FolderNameToOpenAsWrittenDoublesPrefix(current: string, name: string)
    requires current != "" && Trim(current) == current
    requires current[0] != '/' && current[|current| - 1] != '/'
    ensures BuildFilePath(current, FolderNameToOpenAsWritten(current + "/" + name + "/")) == current + "/" + current + "/" + name
  {
    FolderNameToOpenAsWrittenKeepsPrefix(current + "/" + name);
    assert (current + "/" + name)[0] == current[0];
  }

  /**
   * The folder name to open, corrected: remove one trailing '/' first, then
   * take the last segment (the whole cleaned name if that segment is empty).
   */
  function FolderNameToOpen(folderName: string): string {
    var clean := DriveService.StripTrailingSlash(folderName);
    var last := Last(Split(clean, "/"));
    if last != "" then last else clean
  }

  /** For every key form of a folder, the corrected name is its last segment. */
  lemma FolderNameToOpenIsLastSegment(dir: Option<string>, seg: string, trailing: bool)
    requires seg != "" && '/' !in seg
    ensures FolderNameToOpen(KeyOf(dir, seg, trailing)) == seg
  {
    var body := if dir.Some? then dir.value + "/" + seg else seg;
    var name := KeyOf(dir, seg, trailing);
    assert name == body + (if trailing then "/" else "");
    assert body[|body| - 1] == seg[|seg| - 1];
    if trailing {
      assert name[..|name| - 1] == body;
    }
    assert DriveService.StripTrailingSlash(name) == body;
    if dir.Some? {
      assert body == dir.value + ['/'] + seg;
      SplitLastOf(dir.value, '/', seg);
    } else {
      SplitNoSep(seg, '/');
    }
  }

  /** Without a trailing '/', the corrected name is the one the code computes. */
  lemma FolderNameToOpenAgrees(folderName: string)
    requires !EndsWith(folderName, "/")
    ensures FolderNameToOpen(folderName) == FolderNameToOpenAsWritten(folderName)
  {
    var n := folderName;
    if |n| > 0 {
      assert n[|n| - 1..] == [n[|n| - 1]];
    }
    assert DriveService.StripTrailingSlash(n) == n;
    SplitLast(n, '/');
    var last := Last(Split(n, "/"));
    if last != "" {
      assert last[|last| - 1] != '/';
      assert DriveService.StripTrailingSlash(last) == last;
    }
    if !Contains(n, "/") {
      ContainsCharIff(n, '/');
      SplitNoSep(n, '/');
    }
  }
}
