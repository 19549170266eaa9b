/**
 * The registration page: the password confirmation check, the request
 * payload, and the state after the call succeeds or fails.
 */
module Register {

  import opened JsValues
  import opened Text
  import opened Platform
  import AuthService

  const MismatchMessage: string := "Passwords do not match"
  const SuccessMessage: string := "Account created successfully! You can now login."
  const FailureMessage: string := "Registration failed. Please try again."

  /**
   * The request `register` sends: username and email trimmed, the
   * password exactly as typed.
   */
  function RegisterPayloadRequest(username: string, email: string, password: string): (r: HttpRequest)
    ensures r.body.Object? && r.body.props.Keys == {"username", "email", "password"}
    ensures r.body.props["password"] == Str(password)
    ensures r.body.props["username"] == Str(Trim(username)) && r.body.props["email"] == Str(Trim(email))
    ensures IsBlank(username) <==> r.body.props["username"] == Str("")
    ensures r.verb == "POST" && r.endpoint == "/api/auth/register"
  {
    TrimEmptyIffBlank(username);
    AuthService.RegisterRequest(Trim(username), Trim(email), password)
  }

  /** The error callback's message: the server's `error.message` when truthy, else the generic failure. */
  function RegisterErrorMessage(err: HttpError): (m: JsValue)
    ensures Truthy(m)
    ensures Truthy(err.BodyMessage()) ==> m == err.BodyMessage()
    ensures !Truthy(err.BodyMessage()) ==> m == Str(FailureMessage)
  {
    Or(err.BodyMessage(), Str(FailureMessage))
  }

  class RegisterComponent {
    var username: string
    var email: string
    var password: string
    var confirmPassword: string
    var loading: bool
    var error: JsValue
    var success: JsValue
    var requests: seq<HttpRequest>
    var navigations: seq<string>

    constructor ()
      ensures username == "" && email == "" && password == "" && confirmPassword == ""
      ensures !loading && error == Null && success == Null && requests == [] && navigations == []
    {
      username, email, password, confirmPassword := "", "", "", "";
      loading := false;
      error, success := Null, Null;
      requests, navigations := [], [];
    }

    /**
     * register, up to the request: a confirmation that differs from the
     * password only sets the message (loading and success are untouched
     * and nothing is sent); otherwise loading starts, both messages are
     * cleared and the trimmed payload is sent.
     */
    method Register()
      modifies this`loading, this`error, this`success, this`requests
      ensures password != confirmPassword ==>
                error == Str(MismatchMessage) && loading == old(loading) && success == old(success)
                && requests == old(requests)
      ensures password == confirmPassword ==>
                loading && error == Null && success == Null
                && requests == old(requests) + [RegisterPayloadRequest(username, email, password)]
    {
      if password != confirmPassword {
        error := Str(MismatchMessage);
        return;
      }
      loading := true;
      error := Null;
      success := Null;
      requests := requests + [RegisterPayloadRequest(username, email, password)];
    }

    /**
     * The register call's callbacks. Success ends loading, sets the success
     * message, empties all four inputs and sends the page to /login (after
     * the two-second timer). Failure ends loading and shows
     * RegisterErrorMessage; the inputs stay.
     */
    method OnRegisterResult(result: HttpResult)
      modifies this`loading, this`error, this`success, this`navigations,
               this`username, this`email, this`password, this`confirmPassword
      ensures !loading
      ensures result.Ok? ==>
                success == Str(SuccessMessage) && error == old(error)
                && username == "" && email == "" && password == "" && confirmPassword == ""
                && navigations == old(navigations) + ["/login"]
      ensures result.Failed? ==>
                error == RegisterErrorMessage(result.err) && success == old(success)
                && username == old(username) && email == old(email)
                && password == old(password) && confirmPassword == old(confirmPassword)
                && navigations == old(navigations)
    {
      loading := false;
      match result
      case Ok(_) =>
        success := Str(SuccessMessage);
        username := "";
        email := "";
        password := "";
        confirmPassword := "";
        navigations := navigations + ["/login"];
      case Failed(err) =>
        error := RegisterErrorMessage(err);
    }
  }
}
