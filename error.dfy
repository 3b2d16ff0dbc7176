/** The crate's error type: a `RedditError` wraps either a library error
    (HTTP client, JSON parser, image codec or I/O) or a plain message. */
module Error {
  import opened Wrappers

  /** An error raised inside a library, known to this crate only by the text
      its own `Display` produces. */
  datatype LibraryError = LibraryError(text: string)

  /** Which library raised the wrapped error. */
  datatype ErrorSource =
    | Reqwest(err: LibraryError)
    | Serde(err: LibraryError)
    | Image(err: LibraryError)
    | IO(err: LibraryError)

  datatype RedditError = RedditError(source: Option<ErrorSource>, msg: Option<string>)

  /** `RedditResult<T>`, the result type of every fallible operation. */
  datatype RedditResult<T> = Ok(value: T) | Err(error: RedditError)

  /** What an error with neither a message nor a source displays. */
  const NoMessageText := "FATAL: No message for given error"

  /** `Display`: a message wins over a source; a source shows its own text;
      with neither, a fixed fatal notice. */
  function Display(e: RedditError): (text: string)
    ensures e.msg.Some? ==> text == e.msg.value
    ensures e.msg.None? && e.source.Some? ==> text == e.source.value.err.text
    ensures e.msg.None? && e.source.None? ==> text == NoMessageText
  {
    match e.msg
    case Some(m) => m
    case None =>
      match e.source
      case Some(Reqwest(err)) => err.text
      case Some(Serde(err)) => err.text
      case Some(Image(err)) => err.text
      case Some(IO(err)) => err.text
      case None => NoMessageText
  }

  /** `Error::cause`: the wrapped library error, present exactly when the
      error has a source. */
  function Cause(e: RedditError): (cause: Option<LibraryError>)
    ensures cause.Some? <==> e.source.Some?
    ensures cause.Some? ==> cause.value == e.source.value.err
  {
    match e.source
    case Some(Reqwest(err)) => Some(err)
    case Some(Serde(err)) => Some(err)
    case Some(Image(err)) => Some(err)
    case Some(IO(err)) => Some(err)
    case None => None
  }

  /** `From<reqwest::Error>`. */
  function FromReqwest(err: LibraryError): (e: RedditError)
    ensures e.source.Some? && e.source.value.Reqwest? && e.msg.None?
    ensures Cause(e) == Some(err) && Display(e) == err.text
  {
    RedditError(Some(Reqwest(err)), None)
  }

  /** `From<serde_json::Error>`. */
  function FromSerde(err: LibraryError): (e: RedditError)
    ensures e.source.Some? && e.source.value.Serde? && e.msg.None?
    ensures Cause(e) == Some(err) && Display(e) == err.text
  {
    RedditError(Some(Serde(err)), None)
  }

  /** `From<image::ImageError>`. */
  function FromImage(err: LibraryError): (e: RedditError)
    ensures e.source.Some? && e.source.value.Image? && e.msg.None?
    ensures Cause(e) == Some(err) && Display(e) == err.text
  {
    RedditError(Some(Image(err)), None)
  }

  /** `From<std::io::Error>`. */
  function FromIo(err: LibraryError): (e: RedditError)
    ensures e.source.Some? && e.source.value.IO? && e.msg.None?
    ensures Cause(e) == Some(err) && Display(e) == err.text
  {
    RedditError(Some(IO(err)), None)
  }

  /** `From<&str>`: a message error with no cause, displaying the message
      verbatim. */
  function FromMessage(message: string): (e: RedditError)
    ensures e.source.None? && e.msg == Some(message)
    ensures Cause(e) == None && Display(e) == message
  {
    RedditError(None, Some(message))
  }
}
