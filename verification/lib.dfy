/** The crate root (src/lib.rs): the unified error enum `ErrPile`, its
    conversions and display texts, and the response-envelope conversion. */
module Pile {
  import opened Wrappers
  import opened Envelope

  /** An error value of a library outside this model (a database, SSH, codec or
      I/O error), known only by the text its own `Display` prints. */
  datatype Foreign = Foreign(display: string)

  /** The foreign error types `ErrPile` converts from with `#[from]`. */
  datatype Domain =
    | DbErr | RusshError | SftpError | GraphFailure | GraphErrorMessage
    | SerdeJsonError | XlsxError | ZipError | Base64DecodeError | JoinError | IoError

  /** `ErrPile`: exactly one kind of failure at a time. `Response` is the variant
      of src/lib.rs; `MS` is the one src/microsoft.rs builds, from a version of
      the enum whose declaration is not part of this model. */
  datatype ErrPile =
    | DB(db: Foreign)
    | Ssh(ssh: Foreign)
    | Sftp(sftp: Foreign)
    | Auth
    | Graph(graph: Foreign)
    | GraphErrMSg(graphMessage: Foreign)
    | Json(json: Foreign)
    | Response(response: MSResponseError)
    | MS(ms: MSResponseError)
    | Xlsx(xlsx: Foreign)
    | Zip(zip: Foreign)
    | Decode(decode: Foreign)
    | Thread(thread: Foreign)
    | IO(io: Foreign)
    | Custom(msg: string)

  /** `PileResult<T>`. */
  type PileResult<T> = Result<T, ErrPile>

  /** The fixed `#[error(...)]` texts. */
  const DbText: string := "Error connecting/ storing to DB"
  const SshText: string := "An error occurred with SSH"
  const SftpText: string := "An error occurred with sftp connection"
  const AuthText: string := "An invalid username or password was provided. Please try again"
  const GraphText: string := "An error occurred while getting data using Microsoft Graph"
  const GraphErrMsgText: string := "Graph Error Message"
  const JsonText: string := "Error parsing Json Data (Serde)"
  const ResponseText: string := "Request responded with an error"
  const XlsxText: string := "An error occurred with excel file"
  const ZipText: string := "Error opening zip archive"
  const DecodeText: string := "Error decoding from base64 content bytes"
  const ThreadText: string := "A thread panicked while executing a task"
  const IoPrefix: string := "IO Err: "

  /** The `#[error(...)]` display of each variant: `Custom` shows its text,
      `IO` its prefix and the I/O error's own text, and every other variant a
      fixed text from which its kind can be read back. */
  function Display(e: ErrPile): (r: string)
    requires !e.MS?
    ensures e.Custom? ==> r == e.msg
    ensures e.IO? ==> r == IoPrefix + e.io.display
    ensures HasFixedText(e) ==> KindOfText(r) == Some(KindOf(e))
  {
    match e
    case DB(_) => DbText
    case Ssh(_) => SshText
    case Sftp(_) => SftpText
    case Auth => AuthText
    case Graph(_) => GraphText
    case GraphErrMSg(_) => GraphErrMsgText
    case Json(_) => JsonText
    case Response(_) => ResponseText
    case Xlsx(_) => XlsxText
    case Zip(_) => ZipText
    case Decode(_) => DecodeText
    case Thread(_) => ThreadText
    case IO(io) => IoPrefix + io.display
    case Custom(s) => s
  }

  /** The kind of a variant, payload aside. */
  datatype Kind = Wrapping(domain: Domain) | AuthKind | ResponseKind | CustomKind

  function KindOf(e: ErrPile): Kind
    requires !e.MS?
  {
    match e
    case Auth => AuthKind
    case Response(_) => ResponseKind
    case Custom(_) => CustomKind
    case DB(_) => Wrapping(DbErr)
    case Ssh(_) => Wrapping(RusshError)
    case Sftp(_) => Wrapping(SftpError)
    case Graph(_) => Wrapping(GraphFailure)
    case GraphErrMSg(_) => Wrapping(GraphErrorMessage)
    case Json(_) => Wrapping(SerdeJsonError)
    case Xlsx(_) => Wrapping(XlsxError)
    case Zip(_) => Wrapping(ZipError)
    case Decode(_) => Wrapping(Base64DecodeError)
    case Thread(_) => Wrapping(JoinError)
    case IO(_) => Wrapping(IoError)
  }

  /** The foreign domain a variant wraps, for the `#[from]` variants only. */
  function WrappedDomain(e: ErrPile): Option<Domain> {
    if e.MS? then None
    else
      match KindOf(e)
      case Wrapping(d) => Some(d)
      case _ => None
  }

  /** `Error::source`: `#[from]` makes the wrapped value the cause; `Auth`,
      `Response` and `Custom` have none. */
  function Source(e: ErrPile): (r: Option<Foreign>)
    requires !e.MS?
    ensures r.Some? <==> WrappedDomain(e).Some?
  {
    match e
    case DB(x) => Some(x)
    case Ssh(x) => Some(x)
    case Sftp(x) => Some(x)
    case Graph(x) => Some(x)
    case GraphErrMSg(x) => Some(x)
    case Json(x) => Some(x)
    case Xlsx(x) => Some(x)
    case Zip(x) => Some(x)
    case Decode(x) => Some(x)
    case Thread(x) => Some(x)
    case IO(x) => Some(x)
    case _ => None
  }

  /** The `#[from]` conversions: total, and the wrapped error comes back
      unchanged as the cause, from the variant of its own domain. */
  function Wrap(d: Domain, x: Foreign): (r: ErrPile)
    ensures !r.MS? && Source(r) == Some(x)
    ensures WrappedDomain(r) == Some(d)
  {
    match d
    case DbErr => DB(x)
    case RusshError => Ssh(x)
    case SftpError => Sftp(x)
    case GraphFailure => Graph(x)
    case GraphErrorMessage => GraphErrMSg(x)
    case SerdeJsonError => Json(x)
    case XlsxError => Xlsx(x)
    case ZipError => Zip(x)
    case Base64DecodeError => Decode(x)
    case JoinError => Thread(x)
    case IoError => IO(x)
  }

  /** Every wrapping variant is the conversion of its own cause: `Wrap` reaches
      all of them and loses nothing. */
  lemma WrapCoversWrappers(e: ErrPile)
    requires !e.MS? && WrappedDomain(e).Some?
    ensures Wrap(WrappedDomain(e).value, Source(e).value) == e
  {
  }

  /** Wrapping and asking for the cause gives back an error with the same
      display text as the original: a corollary of `Wrap`'s contract, stated
      for the `#[source]` reading of each `#[from]` variant. */
  lemma WrappedCauseKeepsDisplay(d: Domain, x: Foreign)
    ensures Source(Wrap(d, x)).value.display == x.display
  {
  }

  /** Except for I/O errors, the display text depends on the domain only, not on
      the wrapped error. */
  lemma DisplayIgnoresPayload(d: Domain, x: Foreign, y: Foreign)
    requires d != IoError
    ensures Display(Wrap(d, x)) == Display(Wrap(d, y))
  {
  }

  /** The variants whose display is a fixed text, whatever they carry. */
  predicate HasFixedText(e: ErrPile) {
    !e.MS? && !e.IO? && !e.Custom?
  }

  /** Reads the kind back from a fixed display text; `None` for any other text. */
  function KindOfText(t: string): Option<Kind> {
    if t == DbText then Some(Wrapping(DbErr))
    else if t == SshText then Some(Wrapping(RusshError))
    else if t == SftpText then Some(Wrapping(SftpError))
    else if t == AuthText then Some(AuthKind)
    else if t == GraphText then Some(Wrapping(GraphFailure))
    else if t == GraphErrMsgText then Some(Wrapping(GraphErrorMessage))
    else if t == JsonText then Some(Wrapping(SerdeJsonError))
    else if t == ResponseText then Some(ResponseKind)
    else if t == XlsxText then Some(Wrapping(XlsxError))
    else if t == ZipText then Some(Wrapping(ZipError))
    else if t == DecodeText then Some(Wrapping(Base64DecodeError))
    else if t == ThreadText then Some(Wrapping(JoinError))
    else None
  }

  /** The fixed display texts are pairwise different: two errors with fixed
      texts that print the same are of the same kind, because `Display` reads
      the kind back from its own text. Among the fixed-text variants `Auth` is
      the only one showing the invalid-credentials sentence; `Custom` is
      outside this, as `Custom(AuthText)` prints what `Auth` prints. */
  lemma DisplayIdentifiesVariant(a: ErrPile, b: ErrPile)
    requires HasFixedText(a) && HasFixedText(b)
    requires Display(a) == Display(b)
    ensures KindOf(a) == KindOf(b)
  {
  }

  /** An I/O error shows `IO Err: ` followed by the wrapped error's own text,
      which can be read back from it. */
  lemma IoDisplayShowsCause(x: Foreign)
    ensures Display(Wrap(IoError, x)) == IoPrefix + x.display
    ensures Display(Wrap(IoError, x))[|IoPrefix|..] == x.display
  {
  }

  /** `ErrPile::custom`: the message is stored unchanged, and displaying the
      error gives it back. */
  function CustomOf(msg: string): (e: ErrPile)
    ensures e.Custom? && Display(e) == msg
  {
    Custom(msg)
  }

  /** `From<&str> for ErrPile`: the same error `ErrPile::custom` builds. */
  function FromStr(s: string): (e: ErrPile)
    ensures e == CustomOf(s)
    ensures Display(e) == s
  {
    CustomOf(s)
  }

  /** `From<ErrPile> for PileResult<T>`: always the error, never a value. */
  function IntoResult<T>(e: ErrPile): (r: PileResult<T>)
    ensures r.Err? && r.error == e
  {
    Err(e)
  }

  /** Start of the `Custom` message for a body with neither part; the rest is
      the `Debug` rendering of the body. */
  const UnparsedPrefix: string := "Could not parse Ok variant or the Err variant | Response: "

  /** `From<MSResponse<T>> for PileResult<T>` (src/lib.rs). `debug` is the
      derived `Debug` formatting of the body, outside this model. */
  function FromMSResponse<T>(resp: MSResponse<T>, debug: MSResponse<T> -> string): (r: PileResult<T>)
    ensures r.Ok? <==> resp.error.None? && resp.value.Some?
    ensures r.Ok? ==> r.value == resp.value.value
    ensures resp.error.Some? ==> r == Err(Response(resp.error.value))
    ensures resp.error.None? && resp.value.None? ==>
              r.Err? && r.error.Custom? && UnparsedPrefix <= r.error.msg
  {
    if resp.error.Some? then Err(Response(resp.error.value))
    else if resp.value.Some? then Ok(resp.value.value)
    else Err(Custom(UnparsedPrefix + debug(resp)))
  }
}
