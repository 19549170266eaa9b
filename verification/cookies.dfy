/**
 * Reading a token out of `document.cookie`: the cookie string is split
 * into '; '-separated rows, the first row starting with `NAME=` is taken,
 * and the text after its first '=' up to the next '=' is URI-decoded.
 * The cookie string and the decoder are parameters: the model does not
 * read the browser and does not interpret decodeURIComponent.
 */
module Cookies {

  import opened JsValues
  import opened Text

  function Rows(cookie: string): (rows: seq<string>)
    ensures |rows| > 0
  {
    Split(cookie, "; ")
  }

  /** `rows.find(row => row.startsWith(prefix))`. */
  function FindRow(rows: seq<string>, prefix: string): (r: Option<string>)
    ensures r.None? <==> forall i :: 0 <= i < |rows| ==> !StartsWith(rows[i], prefix)
    ensures r.Some? ==> exists i :: 0 <= i < |rows| && rows[i] == r.value && StartsWith(r.value, prefix)
                          && forall j :: 0 <= j < i ==> !StartsWith(rows[j], prefix)
    decreases |rows|
  {
    if |rows| == 0 then None
    else if StartsWith(rows[0], prefix) then Some(rows[0])
    else
      var r := FindRow(rows[1..], prefix);
      assert forall i :: 0 < i < |rows| ==> rows[i] == rows[1..][i - 1];
      r
  }

  /**
   * `row.split('=')[1]`: the text between the first and the second '='.
   * A row without '=' has no second piece, and decodeURIComponent then
   * receives undefined, which it prints as "undefined".
   */
  function ValueOf(row: string): string {
    var parts := Split(row, "=");
    if |parts| > 1 then parts[1] else "undefined"
  }

  /** The decoded value of the first row starting with `name=`, or None (JavaScript's null). */
  function Lookup(cookie: string, name: string, decode: string -> string): (r: Option<string>)
    ensures r.None? <==> FindRow(Rows(cookie), name + "=").None?
    ensures r.Some? ==> r == Some(decode(ValueOf(FindRow(Rows(cookie), name + "=").value)))
  {
    match FindRow(Rows(cookie), name + "=")
    case None => None
    case Some(row) => Some(decode(ValueOf(row)))
  }

  /** Try the names in order; the first one that has a row wins. */
  function LookupFirst(cookie: string, names: seq<string>, decode: string -> string): (r: Option<string>)
    decreases |names|
  {
    if |names| == 0 then None
    else if Lookup(cookie, names[0], decode).Some? then Lookup(cookie, names[0], decode)
    else LookupFirst(cookie, names[1..], decode)
  }

  /**
   * The ordered lookup returns the value for the first name that has a
   * row, and None exactly when no name has one.
   */
  lemma {:induction false} LookupFirstSpec(cookie: string, names: seq<string>, decode: string -> string)
    ensures LookupFirst(cookie, names, decode).None? <==>
              forall k :: 0 <= k < |names| ==> Lookup(cookie, names[k], decode).None?
    ensures LookupFirst(cookie, names, decode).Some? ==>
              exists k :: 0 <= k < |names| && LookupFirst(cookie, names, decode) == Lookup(cookie, names[k], decode)
                && forall j :: 0 <= j < k ==> Lookup(cookie, names[j], decode).None?
    decreases |names|
  {
    if |names| > 0 && Lookup(cookie, names[0], decode).None? {
      LookupFirstSpec(cookie, names[1..], decode);
      assert forall k :: 0 < k < |names| ==> names[k] == names[1..][k - 1];
      if LookupFirst(cookie, names, decode).Some? {
        var k :| 0 <= k < |names[1..]| && LookupFirst(cookie, names[1..], decode) == Lookup(cookie, names[1..][k], decode)
                 && forall j :: 0 <= j < k ==> Lookup(cookie, names[1..][j], decode).None?;
        assert LookupFirst(cookie, names, decode) == Lookup(cookie, names[k + 1], decode);
        forall j | 0 <= j < k + 1 ensures Lookup(cookie, names[j], decode).None? {
          if j > 0 { assert names[j] == names[1..][j - 1]; }
        }
      }
    }
  }

  /** The first piece of a one-character split is the text before the first separator. */
  lemma {:induction false} SplitHead(s: string, c: char)
    ensures c !in Split(s, [c])[0]
    ensures StartsWith(s, Split(s, [c])[0])
    ensures Split(s, [c])[0] == s || s[|Split(s, [c])[0]|] == c
    decreases |s|
  {
    if |s| >= 1 {
      var t := s[1..];
      assert s == [s[0]] + t;
      SplitCons(s[0], t, c);
      if s[0] != c {
        SplitHead(t, c);
        var h := Split(t, [c])[0];
        assert Split(s, [c])[0] == [s[0]] + h;
        assert s[..|h| + 1] == [s[0]] + t[..|h|];
        if h != t {
          assert s[|h| + 1] == t[|h|];
        }
      }
    }
  }

  /**
   * For a row `name=v` with a name free of '=', the value read is the
   * part of `v` before its first '=': the text between the row's first
   * and second '='.
   */
  lemma ValueOfRow(name: string, v: string)
    requires '=' !in name
    ensures ValueOf(name + "=" + v) == Split(v, "=")[0]
    ensures '=' !in ValueOf(name + "=" + v) && StartsWith(v, ValueOf(name + "=" + v))
    ensures ValueOf(name + "=" + v) == v || v[|ValueOf(name + "=" + v)|] == '='
  {
    SplitConcat(name, '=', v);
    SplitNoSep(name, '=');
    assert name + "=" + v == name + ['='] + v;
    SplitHead(v, '=');
  }

  /** The row `name=v` found first: the lookup decodes the part of `v` before its first '='. */
  lemma LookupRow(cookie: string, name: string, decode: string -> string, v: string)
    requires '=' !in name
    requires FindRow(Rows(cookie), name + "=") == Some(name + "=" + v)
    ensures Lookup(cookie, name, decode) == Some(decode(Split(v, "=")[0]))
  {
    ValueOfRow(name, v);
  }

  /** A value without '=' is read back whole. */
  lemma ValueOfPlainRow(name: string, v: string)
    requires '=' !in name && '=' !in v
    ensures ValueOf(name + "=" + v) == v
  {
    ValueOfRow(name, v);
    SplitNoSep(v, '=');
  }
}
