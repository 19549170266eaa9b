/**
 * The drive list's ordering: the three-state date-sort mode, the
 * comparator `sortFiles` hands to Array.prototype.sort, and the stable
 * sort itself, both as a specification function and as the in-place
 * insertion sort on an array.
 */
module FileOrdering {

  import opened JsValues
  import opened Text
  import opened DriveModels
  import DriveFileTypes
  import DrivePaths
  import StableSort

  /** The `dateSort` signal: 'none' (folders first, by name), 'asc' or 'desc'. */
  datatype DateSort = DefaultOrder | Ascending | Descending

  /** toggleDateSort: none, then asc, then desc, then none again. */
  function ToggleDateSort(mode: DateSort): DateSort {
    match mode
    case DefaultOrder => Ascending
    case Ascending => Descending
    case Descending => DefaultOrder
  }

  /** Three presses restore the mode, and the three modes are all visited on the way. */
  lemma ToggleCycle(mode: DateSort)
    ensures ToggleDateSort(ToggleDateSort(ToggleDateSort(mode))) == mode
    ensures ToggleDateSort(mode) != mode && ToggleDateSort(ToggleDateSort(mode)) != mode
    ensures ToggleDateSort(ToggleDateSort(mode)) != ToggleDateSort(mode)
  {
  }

  /** getSortArrow. */
  function SortArrow(mode: DateSort): (arrow: string)
    ensures mode.Ascending? ==> arrow == "\U{25B2}"
    ensures mode.Descending? ==> arrow == "\U{25BC}"
    ensures mode.DefaultOrder? ==> arrow == "\U{2195}"
  {
    match mode
    case Ascending => "\U{25B2}"
    case Descending => "\U{25BC}"
    case DefaultOrder => "\U{2195}"
  }

  /** getSortTooltip. */
  function SortTooltip(mode: DateSort): string {
    match mode
    case Ascending => "Click to sort descending"
    case Descending => "Click to clear sorting"
    case DefaultOrder => "Click to sort ascending"
  }

  /** What a press leads to, in the tooltip's words. */
  function NextActionText(next: DateSort): string {
    match next
    case Ascending => "Click to sort ascending"
    case Descending => "Click to sort descending"
    case DefaultOrder => "Click to clear sorting"
  }

  /** The tooltip announces the mode the next press selects, and the arrow tells the modes apart. */
  lemma TooltipAnnouncesToggle(mode: DateSort)
    ensures SortTooltip(mode) == NextActionText(ToggleDateSort(mode))
    ensures forall other: DateSort :: SortArrow(other) == SortArrow(mode) ==> other == mode
  {
  }

  /** The instant of an entry for sorting; a missing date counts as 0. */
  function Timestamp(file: FileItemDto): int {
    if file.lastModified.Some? then file.lastModified.value else 0
  }

  /** localeCompare, abstracted as the lexicographic order of character codes: negative, zero or positive. */
  function StrCompare(a: string, b: string): int
    decreases |a|
  {
    if |a| == 0 && |b| == 0 then 0
    else if |a| == 0 then -1
    else if |b| == 0 then 1
    else if a[0] < b[0] then -1
    else if a[0] > b[0] then 1
    else StrCompare(a[1..], b[1..])
  }

  lemma {:induction false} StrCompareAntisymmetric(a: string, b: string)
    ensures StrCompare(b, a) == -StrCompare(a, b)
    decreases |a|
  {
    if |a| > 0 && |b| > 0 && a[0] == b[0] {
      StrCompareAntisymmetric(a[1..], b[1..]);
    }
  }

  lemma {:induction false} StrCompareTransitive(a: string, b: string, c: string)
    requires StrCompare(a, b) <= 0 && StrCompare(b, c) <= 0
    ensures StrCompare(a, c) <= 0
    decreases |a|
  {
    if |a| > 0 && |b| > 0 && |c| > 0 && a[0] == b[0] && b[0] == c[0] {
      StrCompareTransitive(a[1..], b[1..], c[1..]);
    }
  }

  lemma {:induction false} StrCompareZeroIsEqual(a: string, b: string)
    ensures StrCompare(a, b) == 0 <==> a == b
    decreases |a|
  {
    if |a| > 0 && |b| > 0 && a[0] == b[0] {
      StrCompareZeroIsEqual(a[1..], b[1..]);
      assert a == [a[0]] + a[1..] && b == [b[0]] + b[1..];
    }
  }

  /** The key folders are ordered by: the lower-cased display name. */
  function FolderKey(file: FileItemDto): string {
    ToLower(DrivePaths.DisplayName(file.name))
  }

  /** The comparator of `sortFiles` in the given mode. */
  function Compare(mode: DateSort, a: FileItemDto, b: FileItemDto): int {
    if mode.Ascending? then Timestamp(a) - Timestamp(b)
    else if mode.Descending? then Timestamp(b) - Timestamp(a)
    else
      var aFolder := DriveFileTypes.IsFolder(a);
      var bFolder := DriveFileTypes.IsFolder(b);
      if aFolder && !bFolder then -1
      else if !aFolder && bFolder then 1
      else if aFolder && bFolder then StrCompare(FolderKey(a), FolderKey(b))
      else Timestamp(b) - Timestamp(a)
  }

  /** `a` may stay in front of `b`. */
  predicate Before(mode: DateSort, a: FileItemDto, b: FileItemDto) {
    Compare(mode, a, b) <= 0
  }

  /** A positive comparison flips to a negative one: the comparator is consistent. */
  lemma CompareFlips(mode: DateSort, a: FileItemDto, b: FileItemDto)
    ensures Compare(mode, a, b) > 0 ==> Compare(mode, b, a) < 0
    ensures Before(mode, a, b) || Before(mode, b, a)
  {
    StrCompareAntisymmetric(FolderKey(a), FolderKey(b));
  }

  lemma BeforeTransitive(mode: DateSort, a: FileItemDto, b: FileItemDto, c: FileItemDto)
    requires Before(mode, a, b) && Before(mode, b, c)
    ensures Before(mode, a, c)
  {
    if mode.DefaultOrder? && DriveFileTypes.IsFolder(a) && DriveFileTypes.IsFolder(b) && DriveFileTypes.IsFolder(c) {
      StrCompareTransitive(FolderKey(a), FolderKey(b), FolderKey(c));
    }
  }

  /** The comparator handed to `sort` in the given mode. */
  function Comparator(mode: DateSort): (FileItemDto, FileItemDto) -> int {
    (a: FileItemDto, b: FileItemDto) => Compare(mode, a, b)
  }

  /** In every mode the comparator is consistent, so the stable sort orders by it. */
  lemma ComparatorConsistent(mode: DateSort)
    ensures StableSort.Consistent(Comparator(mode))
  {
    var cmp := Comparator(mode);
    forall a, b ensures cmp(a, b) > 0 ==> cmp(b, a) < 0 {
      CompareFlips(mode, a, b);
    }
    forall a, b, c | cmp(a, b) <= 0 && cmp(b, c) <= 0 ensures cmp(a, c) <= 0 {
      BeforeTransitive(mode, a, b, c);
    }
  }

  /** `sortFiles`: the stable sort of the list by the mode's comparator. */
  function SortSpec(mode: DateSort, files: seq<FileItemDto>): seq<FileItemDto> {
    StableSort.SortSpec(Comparator(mode), files)
  }

  /**
   * The sorted list is a permutation of the input, ordered by the
   * comparator.
   */
  lemma SortSpecCorrect(mode: DateSort, files: seq<FileItemDto>)
    ensures multiset(SortSpec(mode, files)) == multiset(files) && |SortSpec(mode, files)| == |files|
    ensures forall i, j :: 0 <= i < j < |SortSpec(mode, files)| ==> Before(mode, SortSpec(mode, files)[i], SortSpec(mode, files)[j])
  {
    ComparatorConsistent(mode);
    StableSort.SortPermutes(Comparator(mode), files);
    StableSort.SortSorts(Comparator(mode), files);
  }

  /** Sorting an already sorted list in the same mode changes nothing. */
  lemma SortTwice(mode: DateSort, files: seq<FileItemDto>)
    ensures SortSpec(mode, SortSpec(mode, files)) == SortSpec(mode, files)
  {
    ComparatorConsistent(mode);
    StableSort.SortIdempotent(Comparator(mode), files);
  }

  /**
   * What the sorted list looks like in each mode. Default: every folder
   * before every file, folders by lower-cased display name, files newest
   * first. Ascending and descending: by timestamp only.
   */
  lemma SortedMeaning(mode: DateSort, files: seq<FileItemDto>, i: int, j: int)
    requires 0 <= i < j < |SortSpec(mode, files)|
    ensures var s := SortSpec(mode, files);
      && (mode.DefaultOrder? ==> !(DriveFileTypes.IsFolder(s[j]) && !DriveFileTypes.IsFolder(s[i])))
      && (mode.DefaultOrder? && DriveFileTypes.IsFolder(s[i]) && DriveFileTypes.IsFolder(s[j]) ==>
            StrCompare(FolderKey(s[i]), FolderKey(s[j])) <= 0)
      && (mode.DefaultOrder? && !DriveFileTypes.IsFolder(s[i]) && !DriveFileTypes.IsFolder(s[j]) ==>
            Timestamp(s[i]) >= Timestamp(s[j]))
      && (mode.Ascending? ==> Timestamp(s[i]) <= Timestamp(s[j]))
      && (mode.Descending? ==> Timestamp(s[i]) >= Timestamp(s[j]))
  {
    SortSpecCorrect(mode, files);
    assert Before(mode, SortSpec(mode, files)[i], SortSpec(mode, files)[j]);
  }

  /** `sortFiles(files)`: sorts the array it is handed in place and returns it. */
  method SortFiles(mode: DateSort, files: seq<FileItemDto>) returns (sorted: seq<FileItemDto>)
    ensures sorted == SortSpec(mode, files)
  {
    var a := new FileItemDto[|files|](i requires 0 <= i < |files| => files[i]);
    assert a[..] == files;
    StableSort.SortInPlace(Comparator(mode), a);
    sorted := a[..];
  }
}
