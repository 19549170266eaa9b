/**
 * The records the client exchanges with the backend: a listed file or
 * folder, and the signed-in user.
 */
module DriveModels {

  import opened JsValues

  /**
   * One entry of a listing. `lastModified` is the instant the backend's date
   * string denotes, as `new Date(s).getTime()` reads it; `None` stands for a
   * missing or empty date string.
   */
  datatype FileItemDto = FileItemDto(
    name: string,
    path: string,
    isDirectory: bool,
    folder: Option<bool>,
    size: Option<int>,
    lastModified: Option<int>)

  /**
   * The user held by the session cell. Its fields are copied from response
   * bodies, so they are dynamic values; `admin` is undefined where the code
   * does not set it.
   */
  datatype User = User(username: JsValue, email: JsValue, admin: JsValue)
}
