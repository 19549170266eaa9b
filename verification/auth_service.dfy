/**
 * AuthService: the session cell holding the current user, the rules that
 * read an auth-status response, and the headers of the auth requests.
 */
module AuthService {

  import opened JsValues
  import opened Platform
  import opened DriveModels
  import Cookies

  /**
   * `response && response.success === true`, read as a boolean: only a
   * present object whose `success` is the boolean true qualifies; a merely
   * truthy `success` such as 1 does not.
   */
  predicate IsAuthenticatedResponse(response: JsValue)
    ensures IsAuthenticatedResponse(response) <==>
              response.Object? && "success" in response.props && response.props["success"] == Bool(true)
  {
    Truthy(response) && OptGet(response, "success") == Bool(true)
  }

  /**
   * checkAuthStatus: the body of a successful call, and for any HTTP error
   * the object `{success: false, error: err.message}`; the call never fails.
   */
  function CheckAuthStatus(result: HttpResult): (response: JsValue)
    ensures result.Failed? ==> response == Object(map["success" := Bool(false), "error" := result.err.message])
    ensures result.Failed? ==> !IsAuthenticatedResponse(response) && !Truthy(OptGet(response, "success"))
    ensures result.Ok? ==> response == result.body
  {
    match result
    case Ok(body) => body
    case Failed(err) => Object(map["success" := Bool(false), "error" := err.message])
  }

  /** The user built from an auth-status response: `{username, email}`. */
  function SessionUser(response: JsValue): User {
    User(OptGet(response, "username"), OptGet(response, "email"), Undefined)
  }

  /** getCsrfToken: the decoded value of the first `XSRF-TOKEN=` cookie row, or None (null). */
  function GetCsrfToken(cookie: string, decode: string -> string): Option<string> {
    Cookies.Lookup(cookie, "XSRF-TOKEN", decode)
  }

  /** The token header as `login`, `updateProfile` and `logout` add it: only for a non-empty token. */
  function TokenHeader(token: Option<string>): (h: map<string, JsValue>)
    ensures "X-XSRF-TOKEN" in h <==> token.Some? && token.value != ""
    ensures "X-XSRF-TOKEN" in h ==> h["X-XSRF-TOKEN"] == Str(token.value)
    ensures forall k :: k in h ==> k == "X-XSRF-TOKEN"
  {
    if token.Some? && token.value != "" then map["X-XSRF-TOKEN" := Str(token.value)] else map[]
  }

  const JsonContentType: map<string, JsValue> := map["Content-Type" := Str("application/json")]

  /** login: POST /api/auth/login with JSON content type, plus the token header when a cookie token exists. */
  function LoginRequest(cookie: string, decode: string -> string, username: string, password: string): (r: HttpRequest)
    ensures r.verb == "POST" && r.endpoint == "/api/auth/login"
    ensures "Content-Type" in r.headers && r.headers["Content-Type"] == Str("application/json")
    ensures "X-XSRF-TOKEN" in r.headers <==> GetCsrfToken(cookie, decode).Some? && GetCsrfToken(cookie, decode).value != ""
    ensures r.body == Object(map["username" := Str(username), "password" := Str(password)])
  {
    HttpRequest("POST", "/api/auth/login", map[], JsonContentType + TokenHeader(GetCsrfToken(cookie, decode)),
                Object(map["username" := Str(username), "password" := Str(password)]))
  }

  /** register: POST /api/auth/register with JSON content type and no token header. */
  function RegisterRequest(username: string, email: string, password: string): (r: HttpRequest)
    ensures r.verb == "POST" && r.endpoint == "/api/auth/register" && r.headers == JsonContentType
  {
    HttpRequest("POST", "/api/auth/register", map[], JsonContentType,
                Object(map["username" := Str(username), "email" := Str(email), "password" := Str(password)]))
  }

  /** updateProfile: PUT /api/auth/update-profile with JSON content type, plus the token header when present. */
  function UpdateProfileRequest(cookie: string, decode: string -> string, data: JsValue): (r: HttpRequest)
    ensures r.verb == "PUT" && r.endpoint == "/api/auth/update-profile" && r.body == data
    ensures "Content-Type" in r.headers && r.headers["Content-Type"] == Str("application/json")
    ensures "X-XSRF-TOKEN" in r.headers <==> GetCsrfToken(cookie, decode).Some? && GetCsrfToken(cookie, decode).value != ""
  {
    HttpRequest("PUT", "/api/auth/update-profile", map[], JsonContentType + TokenHeader(GetCsrfToken(cookie, decode)), data)
  }

  /** logout: POST /api/auth/logout with only the token header, when present. */
  function LogoutRequest(cookie: string, decode: string -> string): (r: HttpRequest)
    ensures r.verb == "POST" && r.endpoint == "/api/auth/logout"
    ensures "Content-Type" !in r.headers
    ensures "X-XSRF-TOKEN" in r.headers <==> GetCsrfToken(cookie, decode).Some? && GetCsrfToken(cookie, decode).value != ""
  {
    HttpRequest("POST", "/api/auth/logout", map[], TokenHeader(GetCsrfToken(cookie, decode)), Object(map[]))
  }

  /**
   * The auth service's lookup agrees with the drive service's first
   * candidate: both read the first `XSRF-TOKEN=` row.
   */
  lemma SameTokenAsDriveLookup(cookie: string, decode: string -> string)
    requires GetCsrfToken(cookie, decode).Some?
    ensures Cookies.LookupFirst(cookie, ["XSRF-TOKEN", "CSRF-TOKEN", "X-CSRF-TOKEN"], decode) == GetCsrfToken(cookie, decode)
  {
  }

  /** The session cell (`currentUserSubject`); None is the null user. */
  class Session {
    var currentUser: Option<User>

    /** The service starts with no user. */
    constructor ()
      ensures currentUser == None
    {
      currentUser := None;
    }

    /** setCurrentUser. */
    method SetCurrentUser(user: Option<User>)
      modifies this
      ensures currentUser == user
    {
      currentUser := user;
    }

    /** currentUserValue. */
    function CurrentUserValue(): Option<User>
      reads this
    {
      currentUser
    }

    /** isLoggedIn: the stored user is not null. */
    function IsLoggedIn(): (b: bool)
      reads this
      ensures b <==> currentUser.Some?
    {
      CurrentUserValue() != None
    }

    /**
     * validateSession: a truthy `success` in the status stores
     * `{username, email}` and yields true; anything else, including a body
     * whose `.success` throws, clears the user and yields false.
     */
    method ValidateSession(result: HttpResult) returns (valid: bool)
      modifies this
      ensures valid <==> result.Ok? && Truthy(OptGet(result.body, "success")) && !IsNullish(result.body)
      ensures valid ==> currentUser == Some(SessionUser(result.body))
      ensures !valid ==> currentUser == None
    {
      var response := CheckAuthStatus(result);
      match Get(response, "success")
      case None =>
        SetCurrentUser(None);
        valid := false;
      case Some(success) =>
        if Truthy(success) {
          SetCurrentUser(Some(SessionUser(response)));
          valid := true;
        } else {
          SetCurrentUser(None);
          valid := false;
        }
    }

    /**
     * The constructor's initial status check: a truthy `success` stores
     * `{username, email}`; any other outcome leaves the cell as it was.
     */
    method OnInitialAuthStatus(result: HttpResult)
      modifies this
      ensures (result.Ok? && !IsNullish(result.body) && Truthy(OptGet(result.body, "success"))) ==>
                currentUser == Some(SessionUser(result.body))
      ensures !(result.Ok? && !IsNullish(result.body) && Truthy(OptGet(result.body, "success"))) ==>
                currentUser == old(currentUser)
    {
      var response := CheckAuthStatus(result);
      match Get(response, "success")
      case None =>
      case Some(success) =>
        if Truthy(success) {
          SetCurrentUser(Some(SessionUser(response)));
        }
    }
  }

  /** After `setCurrentUser(u)`, `currentUserValue` is `u` and `isLoggedIn` tells whether `u` is non-null. */
  method SetThenRead(s: Session, u: Option<User>) returns (value: Option<User>, loggedIn: bool)
    modifies s
    ensures value == u
    ensures loggedIn <==> u.Some?
  {
    s.SetCurrentUser(u);
    value := s.CurrentUserValue();
    loggedIn := s.IsLoggedIn();
  }
}
