/**
 * DriveService: the request-building side of the drive API client. Each
 * HTTP method is modelled by the request it would send; the CSRF token
 * comes from the body of a preceding `/csrf` response, passed in.
 */
module DriveService {

  import opened JsValues
  import opened Text
  import opened Platform
  import Cookies

  const HeaderName: string := "X-XSRF-TOKEN"

  function StripTrailingSlash(s: string): string {
    if |s| > 0 && s[|s| - 1] == '/' then s[..|s| - 1] else s
  }

  function StripLeadingSlash(s: string): string {
    if |s| > 0 && s[0] == '/' then s[1..] else s
  }

  /**
   * buildPath: the bare name under an empty or blank parent; otherwise the
   * parent without one trailing '/', a '/', and the name without one
   * leading '/'.
   */
  function BuildPath(parentPath: string, fileName: string): string {
    if parentPath == "" || Trim(parentPath) == "" then fileName
    else StripTrailingSlash(parentPath) + "/" + StripLeadingSlash(fileName)
  }

  /** Under an empty or whitespace-only parent the name comes back unchanged. */
  lemma BuildPathBlankParent(parentPath: string, fileName: string)
    requires IsBlank(parentPath)
    ensures BuildPath(parentPath, fileName) == fileName
  {
    TrimEmptyIffBlank(parentPath);
  }

  /**
   * Every other parent is joined to the name with a single '/', removing at
   * most one slash on each side: write the parent as `q` plus an optional
   * trailing '/', the name as an optional leading '/' plus `m`, where `q`
   * may itself end in '/' only if a trailing '/' follows it (and likewise
   * for `m`); the result is `q + "/" + m`.
   */
  lemma BuildPathJoin(q: string, m: string, trailing: bool, leading: bool)
    requires !IsBlank(q) || trailing
    requires trailing || !EndsWith(q, "/")
    requires leading || !StartsWith(m, "/")
    ensures BuildPath(q + (if trailing then "/" else ""), (if leading then "/" else "") + m) == q + "/" + m
  {
    var p := q + (if trailing then "/" else "");
    var n := (if leading then "/" else "") + m;
    if trailing {
      assert !IsWhitespace(p[|p| - 1]);
      assert p[..|p| - 1] == q;
      assert StripTrailingSlash(p) == q;
    } else {
      assert |q| > 0 ==> q[|q| - 1..] == [q[|q| - 1]];
      assert StripTrailingSlash(p) == q;
    }
    TrimEmptyIffBlank(p);
    if leading {
      assert n[0] == '/' && n[1..] == m;
      assert StripLeadingSlash(n) == m;
    } else {
      assert |m| > 0 ==> m[..1] == [m[0]];
      assert StripLeadingSlash(n) == m;
    }
  }

  /**
   * A value is the first truthy one of `candidates`, and `fallback` when
   * none is truthy: the meaning of a chain `c0 || c1 || ... || fallback`.
   */
  function FirstTruthyOr(candidates: seq<JsValue>, fallback: JsValue): (r: JsValue)
    ensures (exists i :: 0 <= i < |candidates| && Truthy(candidates[i])) ==>
              exists i :: 0 <= i < |candidates| && r == candidates[i] && Truthy(r)
                && forall j :: 0 <= j < i ==> !Truthy(candidates[j])
    ensures (forall i :: 0 <= i < |candidates| ==> !Truthy(candidates[i])) ==> r == fallback
    decreases |candidates|
  {
    if |candidates| == 0 then fallback
    else
      var r := if Truthy(candidates[0]) then candidates[0] else FirstTruthyOr(candidates[1..], fallback);
      assert forall i :: 0 < i < |candidates| ==> candidates[i] == candidates[1..][i - 1];
      r
  }

  /**
   * The token taken from a `/csrf` response body: `token`, `csrfToken`,
   * `_csrf`, then the body itself. None when the body is null or
   * undefined, where reading `.token` throws and no request follows.
   */
  function ChosenToken(csrfResponse: JsValue): (r: Option<JsValue>)
    ensures r.None? <==> IsNullish(csrfResponse)
  {
    match Get(csrfResponse, "token")
    case None => None
    case Some(token) =>
      Some(Or(Or(Or(token, OptGet(csrfResponse, "csrfToken")), OptGet(csrfResponse, "_csrf")), csrfResponse))
  }

  /** The chosen token is the first truthy of `token`, `csrfToken` and `_csrf`, else the body itself. */
  lemma ChosenTokenIsFirstTruthy(csrfResponse: JsValue)
    requires !IsNullish(csrfResponse)
    ensures ChosenToken(csrfResponse) == Some(FirstTruthyOr(
              [OptGet(csrfResponse, "token"), OptGet(csrfResponse, "csrfToken"), OptGet(csrfResponse, "_csrf")],
              csrfResponse))
  {
    var c := [OptGet(csrfResponse, "token"), OptGet(csrfResponse, "csrfToken"), OptGet(csrfResponse, "_csrf")];
    assert c[1..] == [c[1], c[2]] && c[1..][1..] == [c[2]] && c[1..][1..][1..] == [];
  }

  /** The headers of a mutating call: `X-XSRF-TOKEN` only when the token is a non-empty string. */
  function XsrfHeaders(token: JsValue): (h: map<string, JsValue>)
    ensures HeaderName in h <==> token.Str? && token.s != ""
    ensures HeaderName in h ==> h[HeaderName] == token
    ensures forall k :: k in h ==> k == HeaderName
  {
    if Truthy(token) && token.Str? then map[HeaderName := token] else map[]
  }

  /** createFolder: POST /folder with `path` = buildPath(parent, name), after the CSRF fetch. */
  function CreateFolderRequest(parentPath: string, folderName: string, csrfResponse: JsValue): (r: Option<HttpRequest>)
    ensures r.None? <==> IsNullish(csrfResponse)
    ensures r.Some? ==> r.value.verb == "POST" && r.value.endpoint == "/api/drive/folder"
    ensures r.Some? ==> r.value.params == map["path" := BuildPath(parentPath, folderName)]
    ensures r.Some? ==> r.value.headers == XsrfHeaders(ChosenToken(csrfResponse).value)
  {
    match ChosenToken(csrfResponse)
    case None => None
    case Some(token) =>
      Some(HttpRequest("POST", "/api/drive/folder", map["path" := BuildPath(parentPath, folderName)],
                       XsrfHeaders(token), Object(map[])))
  }

  /** deleteFile: DELETE with `key`, after the CSRF fetch. */
  function DeleteFileRequest(key: string, csrfResponse: JsValue): (r: Option<HttpRequest>)
    ensures r.None? <==> IsNullish(csrfResponse)
    ensures r.Some? ==> r.value.verb == "DELETE" && r.value.endpoint == "/api/drive"
    ensures r.Some? ==> r.value.params == map["key" := key]
    ensures r.Some? ==> r.value.headers == XsrfHeaders(ChosenToken(csrfResponse).value)
  {
    match ChosenToken(csrfResponse)
    case None => None
    case Some(token) => Some(HttpRequest("DELETE", "/api/drive", map["key" := key], XsrfHeaders(token), Undefined))
  }

  /** deleteFolder: DELETE /folder with `path`, after the CSRF fetch. */
  function DeleteFolderRequest(path: string, csrfResponse: JsValue): (r: Option<HttpRequest>)
    ensures r.None? <==> IsNullish(csrfResponse)
    ensures r.Some? ==> r.value.verb == "DELETE" && r.value.endpoint == "/api/drive/folder"
    ensures r.Some? ==> r.value.params == map["path" := path]
    ensures r.Some? ==> r.value.headers == XsrfHeaders(ChosenToken(csrfResponse).value)
  {
    match ChosenToken(csrfResponse)
    case None => None
    case Some(token) => Some(HttpRequest("DELETE", "/api/drive/folder", map["path" := path], XsrfHeaders(token), Undefined))
  }

  /** getUploadUrl: POST /upload-url with `key`; the token header is added whenever the token is truthy. */
  function UploadUrlRequest(key: string, csrfToken: JsValue): (r: HttpRequest)
    ensures r.verb == "POST" && r.endpoint == "/api/drive/upload-url" && r.params == map["key" := key]
    ensures HeaderName in r.headers <==> Truthy(csrfToken)
    ensures HeaderName in r.headers ==> r.headers[HeaderName] == csrfToken
    ensures forall k :: k in r.headers ==> k == HeaderName
  {
    HttpRequest("POST", "/api/drive/upload-url", map["key" := key],
                if Truthy(csrfToken) then map[HeaderName := csrfToken] else map[], Object(map[]))
  }

  /** The cookie names tried, in order. */
  const CsrfCookieNames: seq<string> := ["XSRF-TOKEN", "CSRF-TOKEN", "X-CSRF-TOKEN"]

  /** getCsrfToken: the ordered cookie lookup; None is JavaScript's null. */
  function GetCsrfToken(cookie: string, decode: string -> string): Option<string> {
    Cookies.LookupFirst(cookie, CsrfCookieNames, decode)
  }

  /**
   * The lookup yields null exactly when no row starts with any of the three
   * names, and otherwise the decoded value of the first name's row in the
   * order XSRF-TOKEN, CSRF-TOKEN, X-CSRF-TOKEN.
   */
  lemma GetCsrfTokenSpec(cookie: string, decode: string -> string)
    ensures GetCsrfToken(cookie, decode).None? <==>
              forall k :: 0 <= k < 3 ==> Cookies.FindRow(Cookies.Rows(cookie), CsrfCookieNames[k] + "=").None?
    ensures Cookies.Lookup(cookie, "XSRF-TOKEN", decode).Some? ==>
              GetCsrfToken(cookie, decode) == Cookies.Lookup(cookie, "XSRF-TOKEN", decode)
    ensures Cookies.Lookup(cookie, "XSRF-TOKEN", decode).None? && Cookies.Lookup(cookie, "CSRF-TOKEN", decode).Some? ==>
              GetCsrfToken(cookie, decode) == Cookies.Lookup(cookie, "CSRF-TOKEN", decode)
    ensures Cookies.Lookup(cookie, "XSRF-TOKEN", decode).None? && Cookies.Lookup(cookie, "CSRF-TOKEN", decode).None? ==>
              GetCsrfToken(cookie, decode) == Cookies.Lookup(cookie, "X-CSRF-TOKEN", decode)
  {
    Cookies.LookupFirstSpec(cookie, CsrfCookieNames, decode);
    assert CsrfCookieNames[1..] == ["CSRF-TOKEN", "X-CSRF-TOKEN"];
    assert CsrfCookieNames[1..][1..] == ["X-CSRF-TOKEN"];
  }

  lemma XsrfName()
    ensures '=' !in "XSRF-TOKEN" && "XSRF-TOKEN" + "=" == "XSRF-TOKEN="
  {
  }

  /**
   * A cookie row `XSRF-TOKEN=v` found first yields the decoded text of `v`
   * up to its first '=' (the whole of `v` when it has none).
   */
  lemma GetCsrfTokenValue(cookie: string, decode: string -> string, v: string)
    requires Cookies.FindRow(Cookies.Rows(cookie), "XSRF-TOKEN=") == Some("XSRF-TOKEN=" + v)
    ensures GetCsrfToken(cookie, decode) == Some(decode(Split(v, "=")[0]))
  {
    GetCsrfTokenSpec(cookie, decode);
    XsrfName();
    Cookies.LookupRow(cookie, "XSRF-TOKEN", decode, v);
  }

  /** A value with no '=' is decoded whole. */
  lemma GetCsrfTokenWholeValue(cookie: string, decode: string -> string, v: string)
    requires Cookies.FindRow(Cookies.Rows(cookie), "XSRF-TOKEN=") == Some("XSRF-TOKEN=" + v)
    requires '=' !in v
    ensures GetCsrfToken(cookie, decode) == Some(decode(v))
  {
    GetCsrfTokenValue(cookie, decode, v);
    SplitNoSep(v, '=');
  }
}
