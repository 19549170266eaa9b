/**
 * The drive page's three forms, as decisions on the typed inputs: the new
 * folder name, the profile update and the bucket assignment. Each decides
 * between "send nothing" (with the message the form shows) and the request
 * payload, and maps the call's response or error to the form's message.
 */
module DriveForms {

  import opened JsValues
  import opened Text
  import opened Platform

  const SlashMessage: string := "Folder name cannot contain slashes"
  const NothingToUpdateMessage: string := "Please provide at least one field to update"
  const CurrentPasswordRequiredMessage: string := "Current password is required to change password"
  const ProfileUpdatedMessage: string := "Profile updated successfully!"
  const ProfileFailedMessage: string := "Failed to update profile. Please try again."
  const BucketFieldsMessage: string := "Both bucket name and username are required"
  const BucketAssignedMessage: string := "Bucket created and assigned successfully"
  const BucketFailedMessage: string := "Failed to assign bucket"

  /** The profile modal's signals: shown, the three inputs, loading, and the error and success messages. */
  datatype ProfileForm = ProfileForm(
    show: bool,
    email: string,
    currentPassword: string,
    newPassword: string,
    loading: bool,
    error: JsValue,
    success: JsValue)

  /** The bucket modal's signals: shown, the two inputs, loading, and the error and success messages. */
  datatype BucketForm = BucketForm(
    show: bool,
    bucketName: string,
    username: string,
    loading: bool,
    error: JsValue,
    success: JsValue)

  /** What confirmCreateFolder does with the typed name. */
  datatype FolderNameCheck = Ignored | Rejected(message: string) | Accepted(name: string)

  /**
   * confirmCreateFolder's check: a blank name is ignored, a trimmed name
   * with a '/' or a '\' is refused with the slash message, and any other
   * name is sent trimmed.
   */
  function CheckFolderName(typed: string): (c: FolderNameCheck)
    ensures c.Ignored? <==> IsBlank(typed)
    ensures c.Rejected? <==> !IsBlank(typed) && ('/' in Trim(typed) || '\\' in Trim(typed))
    ensures c.Rejected? ==> c.message == SlashMessage
    ensures c.Accepted? ==> c.name == Trim(typed) && c.name != "" && '/' !in c.name && '\\' !in c.name
  {
    var name := Trim(typed);
    TrimEmptyIffBlank(typed);
    ContainsCharIff(name, '/');
    ContainsCharIff(name, '\\');
    if name == "" then Ignored
    else if Contains(name, "/") || Contains(name, "\\") then Rejected(SlashMessage)
    else Accepted(name)
  }

  /** What updateProfile does with the three inputs. */
  datatype ProfileCheck = ProfileRejected(message: string) | ProfilePayload(payload: map<string, JsValue>)

  /**
   * updateProfile's check, on the trimmed inputs: with neither an email nor
   * a new password there is nothing to update; a new password needs the
   * current one. The payload carries the email only when it differs from
   * the signed-in user's, and both passwords only when a new one is given.
   */
  function CheckProfileUpdate(email: string, currentPassword: string, newPassword: string, currentEmail: JsValue): (c: ProfileCheck)
    ensures c.ProfileRejected? <==>
              (IsBlank(email) && IsBlank(newPassword)) || (!IsBlank(newPassword) && IsBlank(currentPassword))
    ensures c.ProfileRejected? && IsBlank(email) && IsBlank(newPassword) ==> c.message == NothingToUpdateMessage
    ensures c.ProfileRejected? && !(IsBlank(email) && IsBlank(newPassword)) ==> c.message == CurrentPasswordRequiredMessage
    ensures c.ProfilePayload? ==> c.payload.Keys <= {"email", "currentPassword", "newPassword"}
    ensures c.ProfilePayload? ==> ("email" in c.payload <==> !IsBlank(email) && Str(Trim(email)) != currentEmail)
    ensures c.ProfilePayload? && "email" in c.payload ==> c.payload["email"] == Str(Trim(email))
    ensures c.ProfilePayload? ==> ("newPassword" in c.payload <==> !IsBlank(newPassword))
    ensures c.ProfilePayload? ==> ("currentPassword" in c.payload <==> !IsBlank(newPassword))
    ensures c.ProfilePayload? && !IsBlank(newPassword) ==>
              c.payload["newPassword"] == Str(Trim(newPassword)) && c.payload["currentPassword"] == Str(Trim(currentPassword))
  {
    var e, cur, next := Trim(email), Trim(currentPassword), Trim(newPassword);
    TrimEmptyIffBlank(email);
    TrimEmptyIffBlank(currentPassword);
    TrimEmptyIffBlank(newPassword);
    if e == "" && next == "" then ProfileRejected(NothingToUpdateMessage)
    else if next != "" && cur == "" then ProfileRejected(CurrentPasswordRequiredMessage)
    else
      var withEmail: map<string, JsValue> := if e != "" && Str(e) != currentEmail then map["email" := Str(e)] else map[];
      if next != "" then ProfilePayload(withEmail["currentPassword" := Str(cur)]["newPassword" := Str(next)])
      else ProfilePayload(withEmail)
  }

  /**
   * An email equal to the signed-in user's, with no new password, passes
   * the check yet the request carries an empty payload.
   */
  lemma SameEmailSendsEmptyPayload(email: string, currentPassword: string)
    requires !IsBlank(email)
    ensures CheckProfileUpdate(email, currentPassword, "", Str(Trim(email))) == ProfilePayload(map[])
  {
    var c := CheckProfileUpdate(email, currentPassword, "", Str(Trim(email)));
    assert IsBlank("");
    assert c.payload.Keys == {};
  }

  /** The success message: the response's `message` when truthy; None where a nullish response throws. */
  function ProfileSuccessMessage(response: JsValue): (m: Option<JsValue>)
    ensures m.None? <==> IsNullish(response)
    ensures m.Some? ==> Truthy(m.value)
    ensures m.Some? && Truthy(OptGet(response, "message")) ==> m.value == OptGet(response, "message")
    ensures m.Some? && !Truthy(OptGet(response, "message")) ==> m.value == Str(ProfileUpdatedMessage)
  {
    match Get(response, "message")
    case None => None
    case Some(msg) => Some(Or(msg, Str(ProfileUpdatedMessage)))
  }

  /** The error callback's message: the server's `error.message` when truthy, else the generic failure. */
  function ProfileErrorMessage(err: HttpError): (m: JsValue)
    ensures Truthy(m)
    ensures Truthy(err.BodyMessage()) ==> m == err.BodyMessage()
    ensures !Truthy(err.BodyMessage()) ==> m == Str(ProfileFailedMessage)
  {
    if Truthy(err.BodyMessage()) then err.BodyMessage() else Str(ProfileFailedMessage)
  }

  /** What assignBucket does with the two inputs. */
  datatype BucketCheck = BucketRejected(message: string) | BucketRequest(bucketName: string, username: string)

  /** assignBucket's check: both trimmed fields are required, and are sent trimmed. */
  function CheckAssignBucket(bucketName: string, username: string): (c: BucketCheck)
    ensures c.BucketRejected? <==> IsBlank(bucketName) || IsBlank(username)
    ensures c.BucketRejected? ==> c.message == BucketFieldsMessage
    ensures c.BucketRequest? ==>
              c.bucketName == Trim(bucketName) && c.username == Trim(username) && c.bucketName != "" && c.username != ""
  {
    TrimEmptyIffBlank(bucketName);
    TrimEmptyIffBlank(username);
    var b, u := Trim(bucketName), Trim(username);
    if b == "" || u == "" then BucketRejected(BucketFieldsMessage) else BucketRequest(b, u)
  }

  /** The success message: the response's `message` when truthy; None where a nullish response throws. */
  function BucketSuccessMessage(response: JsValue): (m: Option<JsValue>)
    ensures m.None? <==> IsNullish(response)
    ensures m.Some? ==> Truthy(m.value)
    ensures m.Some? && Truthy(OptGet(response, "message")) ==> m.value == OptGet(response, "message")
    ensures m.Some? && !Truthy(OptGet(response, "message")) ==> m.value == Str(BucketAssignedMessage)
  {
    match Get(response, "message")
    case None => None
    case Some(msg) => Some(Or(msg, Str(BucketAssignedMessage)))
  }

  /** The error message: the body's `message`, else the error's own `message`, else the generic failure. */
  function BucketErrorMessage(err: HttpError): (m: JsValue)
    ensures Truthy(m)
    ensures Truthy(err.BodyMessage()) ==> m == err.BodyMessage()
    ensures !Truthy(err.BodyMessage()) && Truthy(err.message) ==> m == err.message
    ensures !Truthy(err.BodyMessage()) && !Truthy(err.message) ==> m == Str(BucketFailedMessage)
  {
    Or(Or(err.BodyMessage(), err.message), Str(BucketFailedMessage))
  }
}
