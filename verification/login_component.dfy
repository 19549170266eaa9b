/**
 * The login page: the check that skips the page for a signed-in user, the
 * input check before a login request, and the mapping from the response
 * or the HTTP error to the message the page shows.
 */
module Login {

  import opened JsValues
  import opened Text
  import opened Platform
  import opened DriveModels
  import AuthService

  const MissingFieldsMessage: string := "Please enter both username and password"
  const InvalidCredentialsMessage: string := "Invalid username or password"
  const LoginFailedMessage: string := "Login failed. Please try again."
  const UnknownUser: string := "Unknown User"

  /**
   * The message of the login call's error callback. A 403 shows the
   * server's text when it mentions the storage bucket, and the invalid
   * credentials message otherwise; a 401 shows the invalid credentials
   * message; any other status the generic failure. None where the callback
   * throws: a 403 whose body message is a truthy value that is not a string
   * has no `includes`.
   */
  function LoginErrorMessage(err: HttpError): (m: Option<JsValue>)
    ensures m.Some? ==> m.value.Str? && m.value.s != ""
    ensures m.None? <==> err.status == 403 && Truthy(err.BodyMessage()) && !err.BodyMessage().Str?
    ensures err.status == 401 ==> m == Some(Str(InvalidCredentialsMessage))
    ensures err.status != 401 && err.status != 403 ==> m == Some(Str(LoginFailedMessage))
    ensures m.Some? && m.value != Str(InvalidCredentialsMessage) && m.value != Str(LoginFailedMessage) ==>
              err.status == 403 && m.value == err.BodyMessage() && Contains(m.value.s, "storage bucket")
  {
    if err.status == 403 then
      var msg := err.BodyMessage();
      if !Truthy(msg) then Some(Str(InvalidCredentialsMessage))
      else
        match Includes(msg, "storage bucket")
        case None => None
        case Some(found) => if found then Some(msg) else Some(Str(InvalidCredentialsMessage))
    else if err.status == 401 then Some(Str(InvalidCredentialsMessage))
    else Some(Str(LoginFailedMessage))
  }

  /**
   * The user stored when the status check finds a session: the response's
   * username, or 'Unknown User' when it has none, with its email and admin
   * flag.
   */
  function AlreadyAuthenticatedUser(response: JsValue): (u: User)
    ensures Truthy(u.username)
    ensures Truthy(OptGet(response, "username")) ==> u.username == OptGet(response, "username")
    ensures !Truthy(OptGet(response, "username")) ==> u.username == Str(UnknownUser)
    ensures u.email == OptGet(response, "email") && u.admin == OptGet(response, "admin")
  {
    User(Or(OptGet(response, "username"), Str(UnknownUser)), OptGet(response, "email"), OptGet(response, "admin"))
  }

  class LoginComponent {
    const auth: AuthService.Session
    /** The two `credentials` inputs. */
    var username: string
    var password: string
    var loading: bool
    /** The `error` signal; null is Null, and a response's `message` is stored as it is. */
    var error: JsValue
    /** The requests sent through the auth service, oldest first. */
    var requests: seq<HttpRequest>
    /** The routes `router.navigate` was asked for, oldest first. */
    var navigations: seq<string>

    constructor (auth: AuthService.Session)
      ensures this.auth == auth
      ensures username == "" && password == "" && !loading && error == Null
      ensures requests == [] && navigations == []
    {
      this.auth := auth;
      username, password := "", "";
      loading := false;
      error := Null;
      requests, navigations := [], [];
    }

    /**
     * checkAuthAndRedirect, on the outcome of the status call: an
     * authenticated response stores the user and opens /drive; anything
     * else (the service turns every error into `{success: false}`) keeps
     * the page as it is.
     */
    method CheckAuthAndRedirect(result: HttpResult)
      modifies auth, this`navigations
      ensures var response := AuthService.CheckAuthStatus(result);
        if AuthService.IsAuthenticatedResponse(response) then
          auth.currentUser == Some(AlreadyAuthenticatedUser(response)) && navigations == old(navigations) + ["/drive"]
        else
          auth.currentUser == old(auth.currentUser) && navigations == old(navigations)
    {
      var response := AuthService.CheckAuthStatus(result);
      if AuthService.IsAuthenticatedResponse(response) {
        auth.SetCurrentUser(Some(AlreadyAuthenticatedUser(response)));
        navigations := navigations + ["/drive"];
      }
    }

    /**
     * onLogin, up to the request: with an empty username or password it
     * only sets the message; otherwise it marks the page loading, clears
     * the error and sends the login request.
     */
    method OnLogin(cookie: string, decode: string -> string)
      modifies this`loading, this`error, this`requests
      ensures username == "" || password == "" ==>
                error == Str(MissingFieldsMessage) && loading == old(loading) && requests == old(requests)
      ensures username != "" && password != "" ==>
                loading && error == Null
                && requests == old(requests) + [AuthService.LoginRequest(cookie, decode, username, password)]
    {
      if username == "" || password == "" {
        error := Str(MissingFieldsMessage);
        return;
      }
      loading := true;
      error := Null;
      requests := requests + [AuthService.LoginRequest(cookie, decode, username, password)];
    }

    /**
     * The login call's callbacks. Either way loading ends. A response
     * with `success === true` stores the typed username with the email and
     * admin flag of the response and opens /drive. Any other response
     * shows its `message`, or the invalid credentials message; a null or
     * undefined response makes `response.message` throw, which leaves the
     * error as it was. An HTTP error shows LoginErrorMessage.
     */
    method OnLoginResult(result: HttpResult)
      modifies auth, this`loading, this`error, this`navigations
      ensures !loading
      ensures result.Ok? && AuthService.IsAuthenticatedResponse(result.body) ==>
                && auth.currentUser == Some(User(Str(username), OptGet(result.body, "email"), OptGet(result.body, "admin")))
                && navigations == old(navigations) + ["/drive"] && error == old(error)
      ensures result.Ok? && !AuthService.IsAuthenticatedResponse(result.body) ==>
                && auth.currentUser == old(auth.currentUser) && navigations == old(navigations)
                && error == (match Get(result.body, "message")
                             case None => old(error)
                             case Some(m) => Or(m, Str(InvalidCredentialsMessage)))
      ensures result.Failed? ==>
                && auth.currentUser == old(auth.currentUser) && navigations == old(navigations)
                && error == (match LoginErrorMessage(result.err)
                             case None => old(error)
                             case Some(m) => m)
    {
      loading := false;
      match result
      case Ok(response) =>
        if AuthService.IsAuthenticatedResponse(response) {
          auth.SetCurrentUser(Some(User(Str(username), OptGet(response, "email"), OptGet(response, "admin"))));
          navigations := navigations + ["/drive"];
        } else {
          match Get(response, "message")
          case None =>
          case Some(m) => error := Or(m, Str(InvalidCredentialsMessage));
        }
      case Failed(err) =>
        match LoginErrorMessage(err)
        case None =>
        case Some(m) => error := m;
    }
  }
}
