/** A call of the certificate server to the exit module, as a function of what the environment
    answers during it. */
module Notifications {
  import opened Wide
  import opened Win32
  import opened Configs
  import opened Lifecycle

  /** A string property of the certificate, perhaps a null BSTR, and whether there is memory to copy
      it. */
  datatype TextProperty = Text(bstr: Option<WStr>, textMemory: bool) | TextError(hr: HRESULT)

  datatype RawProperty = Raw(bytes: Bytes, rawMemory: bool) | RawError(hr: HRESULT)

  /** What the certificate server answers: the result of connecting to it, and the properties. */
  datatype Server = Server(init: HRESULT, ski: TextProperty, serial: TextProperty, raw: RawProperty)

  datatype Notification = Notification(event: ExitEvent, context: int, server: Server, registry: Registry, env: Env)

  function TextHr(p: TextProperty): HRESULT {
    match p
    case TextError(hr) => hr
    case Text(bstr, memory) => if bstr.None? || memory then S_OK else E_OUTOFMEMORY
  }

  function RawHr(p: RawProperty): HRESULT {
    match p
    case RawError(hr) => hr
    case Raw(_, memory) => if memory then S_OK else E_OUTOFMEMORY
  }

  /** What fetching the properties of the certificate returns. */
  function FetchHr(s: Server): HRESULT {
    if Failed(s.init) then s.init
    else if Failed(TextHr(s.ski)) then TextHr(s.ski)
    else if Failed(TextHr(s.serial)) then TextHr(s.serial)
    else RawHr(s.raw)
  }

  /** Error results are failures, success is S_OK, and the certificate has less than 2^32 bytes. */
  predicate ServerLaw(s: Server) {
    && (s.init == S_OK || Failed(s.init))
    && (s.ski.TextError? ==> Failed(s.ski.hr)) && (s.serial.TextError? ==> Failed(s.serial.hr))
    && (s.raw.RawError? ==> Failed(s.raw.hr)) && (s.raw.Raw? ==> |s.raw.bytes| < 0x1_0000_0000)
  }

  /** The string properties that arrived are not null. */
  predicate Present(s: Server) {
    (s.ski.Text? ==> s.ski.bstr.Some?) && (s.serial.Text? ==> s.serial.bstr.Some?)
  }

  /** The text of a string property; a null BSTR has none. */
  function TextOf(p: TextProperty): WStr {
    if p.Text? && p.bstr.Some? then ToNul(p.bstr.value) else []
  }

  function CertificateOf(s: Server): Certificate
    requires ServerLaw(s) && !Failed(FetchHr(s))
  {
    Certificate(TextOf(s.ski), TextOf(s.serial), s.raw.bytes)
  }

  /** The notification gets as far as processing a certificate. */
  predicate Processed(n: Notification) {
    n.event == CertIssued && !Failed(FetchHr(n.server)) && !Failed(LoadHr(n.registry))
  }

  /** What holds of every notification; a program name without its NUL and a null BSTR are ruled out
      only where the code goes on to read them. */
  predicate NotifyLaw(files: Files, n: Notification) {
    && ServerLaw(n.server) && RegistryLaw(n.registry)
    && (Processed(n) ==>
          Present(n.server) && Terminated(n.registry) && EnvLaw(files, n.server.raw.bytes, n.env))
  }

  function EndingOf(n: Notification): End
    requires Processed(n)
  {
    Ending(LoadedConfig(n.registry), n.env)
  }

  /** What the handler of the event returns to Notify. */
  function HandlerHr(n: Notification): HRESULT {
    if n.event == CertIssued then
      if Failed(FetchHr(n.server)) then FetchHr(n.server)
      else if Failed(LoadHr(n.registry)) then LoadHr(n.registry)
      else EndHr(EndingOf(n))
    else if n.event == CrlIssued then n.server.init
    else S_OK
  }

  function HandlerActions(n: Notification): seq<Action>
    requires ServerLaw(n.server)
  {
    if Processed(n) then Actions(LoadedConfig(n.registry), CertificateOf(n.server), n.env, EndingOf(n)) else []
  }

  function NotifyActions(n: Notification): seq<Action>
    requires ServerLaw(n.server)
  {
    HandlerActions(n)
    + if Failed(HandlerHr(n)) then [Reported(NotifyFailed(n.event, n.context, HandlerHr(n)))] else []
  }

  function NotifyFiles(files: Files, n: Notification): Files
    requires NotifyLaw(files, n)
  {
    if Processed(n) then FilesAfter(files, CertificateOf(n.server), n.env, EndingOf(n)) else files
  }

  /** The handler of an issued certificate once its properties are fetched: what it does depends on
      whether the settings can be loaded. */
  lemma FetchedKinds(files: Files, n: Notification)
    requires NotifyLaw(files, n) && n.event == CertIssued && !Failed(FetchHr(n.server))
    ensures ServerLaw(n.server) && RegistryLaw(n.registry)
    ensures Failed(LoadHr(n.registry)) ==>
      HandlerHr(n) == LoadHr(n.registry) && HandlerActions(n) == [] && NotifyFiles(files, n) == files
    ensures !Failed(LoadHr(n.registry)) ==>
      var cfg, cert := LoadedConfig(n.registry), CertificateOf(n.server);
      var end := Ending(cfg, n.env);
      && Present(n.server) && Terminated(n.registry) && EnvLaw(files, cert.raw, n.env)
      && HandlerHr(n) == EndHr(end) && HandlerActions(n) == Actions(cfg, cert, n.env, end)
      && NotifyFiles(files, n) == FilesAfter(files, cert, n.env, end)
  {}

  /** A handler succeeds with S_OK or fails; only an issued certificate makes it do anything. */
  lemma HandlerKinds(files: Files, n: Notification)
    requires NotifyLaw(files, n)
    ensures HandlerHr(n) == S_OK || Failed(HandlerHr(n))
    ensures n.event != CertIssued ==>
      && NotifyFiles(files, n) == files && HandlerActions(n) == []
      && HandlerHr(n) == if n.event == CrlIssued then n.server.init else S_OK
  {}
}
