/**
 * The signals behind one media preview modal, grouped as a record: whether
 * it is shown, the URL it plays, the name in its title, the entry it shows,
 * and its loading and error flags. The drive page has an image, a PDF and a
 * video modal; the photos page an image and a video modal.
 */
module Previews {

  import opened JsValues
  import opened Platform
  import opened DriveModels

  /** The outcome of a download-URL request: the pre-signed URL, or the HTTP error. */
  datatype UrlResult = Url(url: string) | NoUrl(err: HttpError)

  datatype MediaModal = MediaModal(
    show: bool,
    url: Option<string>,
    name: string,
    file: Option<FileItemDto>,
    loading: bool,
    error: bool)

  /** The state every close method sets, and the initial one. */
  const Closed: MediaModal := MediaModal(false, None, "", None, false, false)

  /** Opening a preview: shown, titled with the entry's name, loading, no URL and no error yet. */
  function Opening(file: FileItemDto): (m: MediaModal)
    ensures m.show && m.loading && !m.error && m.url.None?
    ensures m.name == file.name && m.file == Some(file)
  {
    MediaModal(true, None, file.name, Some(file), true, false)
  }

  /**
   * The invariant every modal keeps: a shown modal holds the entry it
   * shows, and its title is that entry's name.
   */
  predicate ModalValid(m: MediaModal) {
    m.show ==> m.file.Some? && m.name == m.file.value.name
  }

  /** The element's load event: loading ends without error. */
  function Loaded(m: MediaModal): MediaModal {
    m.(loading := false, error := false)
  }

  /** The element's error event, or a failed URL request: loading ends with the error flag. */
  function LoadFailed(m: MediaModal): MediaModal {
    m.(loading := false, error := true)
  }

  /**
   * The PDF modal: the media signals plus the password prompt, the typed
   * password and the password error.
   */
  datatype PdfModal = PdfModal(media: MediaModal, passwordRequired: bool, password: string, passwordError: Option<string>)

  const ClosedPdf: PdfModal := PdfModal(Closed, false, "", None)

  const PdfPasswordError: string := "Invalid password or PDF error"

  /**
   * Whether a failed PDF URL request asks for a password: a 401 whose body
   * message mentions 'password'. None where `includes` throws: a 401 whose
   * body message is a value other than a string, null or undefined.
   */
  function PdfNeedsPassword(status: int, bodyMessage: JsValue): (r: Option<bool>)
    ensures status != 401 ==> r == Some(false)
    ensures status == 401 && bodyMessage.Str? ==> r == Some(Text.Contains(bodyMessage.s, "password"))
    ensures status == 401 && IsNullish(bodyMessage) ==> r == Some(false)
    ensures r.None? <==> status == 401 && !bodyMessage.Str? && !IsNullish(bodyMessage)
  {
    if status != 401 then Some(false)
    else if IsNullish(bodyMessage) then Some(false)
    else Includes(bodyMessage, "password")
  }
}
