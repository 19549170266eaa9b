/**
 * The drive list's search: the key typed into the search box, and which
 * listed entries it keeps.
 */
module DriveList {

  import opened Text
  import opened DriveModels
  import DrivePaths

  /** `searchTerm().toLowerCase().trim()`. */
  function SearchKey(term: string): string {
    Trim(ToLower(term))
  }

  /** An entry matches when its lower-cased display name contains the key. */
  predicate Matches(key: string, file: FileItemDto) {
    Contains(ToLower(DrivePaths.DisplayName(file.name)), key)
  }

  /** Array.prototype.filter: the items `keep` accepts, in order. */
  function FilterBy<T>(keep: T -> bool, s: seq<T>): seq<T> {
    if |s| == 0 then []
    else FilterBy(keep, s[..|s| - 1]) + (if keep(s[|s| - 1]) then [s[|s| - 1]] else [])
  }

  /** `files().filter(...)`: the matching entries, in listing order. */
  function Filter(key: string, files: seq<FileItemDto>): seq<FileItemDto> {
    FilterBy(f => Matches(key, f), files)
  }

  /** The entries updateFilteredFiles hands to the sort: all of them for a blank key. */
  function Shown(term: string, files: seq<FileItemDto>): seq<FileItemDto> {
    var key := SearchKey(term);
    if key == "" then files else Filter(key, files)
  }

  lemma {:induction false} FilterMembers<T>(keep: T -> bool, s: seq<T>)
    ensures forall x :: x in FilterBy(keep, s) <==> x in s && keep(x)
  {
    if |s| > 0 {
      var init, last := s[..|s| - 1], s[|s| - 1];
      FilterMembers(keep, init);
      assert s == init + [last];
    }
  }

  lemma {:induction false} FilterSubMultiset<T>(keep: T -> bool, s: seq<T>)
    ensures multiset(FilterBy(keep, s)) <= multiset(s)
  {
    if |s| > 0 {
      var init := s[..|s| - 1];
      FilterSubMultiset(keep, init);
      assert s == init + [s[|s| - 1]];
    }
  }

  lemma {:induction false} FilterAllKept<T>(keep: T -> bool, s: seq<T>)
    requires forall i :: 0 <= i < |s| ==> keep(s[i])
    ensures FilterBy(keep, s) == s
  {
    if |s| > 0 {
      var init := s[..|s| - 1];
      FilterAllKept(keep, init);
      assert s == init + [s[|s| - 1]];
    }
  }

  /**
   * The filter keeps exactly the matching entries, in order: it is a
   * subsequence counted by multiset, and drops nothing when all match.
   */
  lemma FilterSpec(key: string, files: seq<FileItemDto>)
    ensures forall f :: f in Filter(key, files) <==> f in files && Matches(key, f)
    ensures multiset(Filter(key, files)) <= multiset(files)
    ensures (forall i :: 0 <= i < |files| ==> Matches(key, files[i])) ==> Filter(key, files) == files
  {
    var keep := f => Matches(key, f);
    FilterMembers(keep, files);
    FilterSubMultiset(keep, files);
    if forall i :: 0 <= i < |files| ==> Matches(key, files[i]) {
      FilterAllKept(keep, files);
    }
  }

  /** Lower-casing keeps every character's whitespace status, so the key is blank exactly when the term is. */
  lemma SearchKeyBlank(term: string)
    ensures SearchKey(term) == "" <==> IsBlank(term)
  {
    TrimEmptyIffBlank(ToLower(term));
    assert forall i :: 0 <= i < |term| ==> (IsWhitespace(ToLower(term)[i]) <==> IsWhitespace(term[i]));
  }

  /**
   * With a blank search every entry is kept as listed; otherwise an entry
   * is kept exactly when it is listed and its lower-cased display name
   * contains the lower-cased, trimmed search.
   */
  lemma ShownSpec(term: string, files: seq<FileItemDto>)
    ensures IsBlank(term) ==> Shown(term, files) == files
    ensures !IsBlank(term) ==>
              forall f :: f in Shown(term, files) <==> f in files && Matches(SearchKey(term), f)
    ensures multiset(Shown(term, files)) <= multiset(files)
  {
    SearchKeyBlank(term);
    FilterSpec(SearchKey(term), files);
  }
}
