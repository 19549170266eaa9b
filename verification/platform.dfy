/**
 * What the components see of the browser and of HttpClient: an HTTP error
 * (`err.status`, `err.message`, `err.error`), the outcome of one call, and
 * the request the client would send. Sending is not modelled: a component
 * appends the request to a log, and the outcome of the call reaches it as
 * an argument of the handler that the subscription would run.
 */
module Platform {

  import opened JsValues

  /** An HttpErrorResponse: the status code, its `message`, and the parsed body `error`. */
  datatype HttpError = HttpError(status: int, message: JsValue, error: JsValue)
  {
    /** `err.error?.message`. */
    function BodyMessage(): JsValue {
      OptGet(error, "message")
    }

    predicate IsAuthFailure() {
      status == 401 || status == 403
    }
  }

  /** The outcome of one HTTP call: the `next` callback with a body, or the `error` callback. */
  datatype HttpResult = Ok(body: JsValue) | Failed(err: HttpError)

  /** A request as HttpClient would send it; the base URL is left out of `endpoint`. */
  datatype HttpRequest = HttpRequest(
    verb: string,
    endpoint: string,
    params: map<string, string>,
    headers: map<string, JsValue>,
    body: JsValue)
}
