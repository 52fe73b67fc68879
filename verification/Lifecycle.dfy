/** One notification, as a function of what the environment answers: how far it gets, what it does
    to the file system, what it reports, and what it returns. */
module Lifecycle {
  import opened Wide
  import opened StrSafe
  import opened CommandLine
  import opened Processes
  import opened Win32
  import opened Configs
  import opened PowerShell
  import opened WriteLoop

  const TIMEOUT_SECONDS: nat := 10

  datatype Certificate = Certificate(ski: WStr, serial: WStr, raw: Bytes)

  /** What the system answers while one certificate is processed. */
  datatype Env = Env(
    tempDir: Win,
    pathMemory: bool,
    tempName: NameResult,
    ownMemory: bool,
    create: Win,
    writes: seq<WriteResult>,
    skiMemory: bool,
    escapedPathMemory: bool,
    argsMemory: bool,
    lineMemory: bool,
    start: StartResult,
    wait: WaitResult,
    others: FileChange,
    exit: ExitResult,
    deleted: bool)

  /** What the system promises: a temp file name that is not in use and fits its buffer, and write
      outcomes that make up one whole run of the loop. */
  predicate EnvLaw(files: Files, raw: Bytes, e: Env) {
    && (e.tempName.Named? ==>
          e.tempName.path !in files && NUL !in e.tempName.path && |e.tempName.path| <= MAX_PATH)
    && Complete(|raw|, e.writes, 0) && Bounded(|raw|, e.writes)
  }

  /** How one certificate's processing ends. */
  datatype End =
    | NoFile(hr: HRESULT)        // no temp file was made
    | NotOwned(hr: HRESULT)      // made, but not taken over
    | GivenUp(hr: HRESULT)       // given up before any process was tried
    | NoProgram                  // no program configured
    | NoLine                     // no memory for the command line
    | NotStarted(hr: HRESULT)
    | NotWaited(hr: HRESULT)     // started, but waiting failed or timed out
    | NoExitCode(hr: HRESULT)
    | Exited(code: nat)

  predicate WritesFail(writes: seq<WriteResult>) {
    writes != [] && writes[|writes| - 1].WriteError?
  }

  /** What making the temp file returns. */
  function NameHr(e: Env): HRESULT {
    if e.tempDir.Error? then FromWin32(e.tempDir.code)
    else if !e.pathMemory then E_OUTOFMEMORY
    else if e.tempName.NameError? then FromWin32(e.tempName.code)
    else S_OK
  }

  /** What taking the temp file over returns. */
  function OwnHr(e: Env): HRESULT {
    if !e.ownMemory then E_OUTOFMEMORY
    else if e.create.Error? then FromWin32(e.create.code)
    else S_OK
  }

  /** What getting the certificate into its temp file returns. */
  function StoreHr(e: Env): HRESULT {
    if Failed(NameHr(e)) then NameHr(e)
    else if Failed(OwnHr(e)) then OwnHr(e)
    else if WritesFail(e.writes) then FromWin32(e.writes[|e.writes| - 1].code)
    else S_OK
  }

  /** A temp file was made and taken over. */
  predicate TakenOver(e: Env) {
    !Failed(NameHr(e)) && !Failed(OwnHr(e))
  }

  function Ending(cfg: Config, e: Env): End {
    if Failed(NameHr(e)) then NoFile(StoreHr(e))
    else if Failed(OwnHr(e)) then NotOwned(StoreHr(e))
    else if Failed(StoreHr(e)) then GivenUp(StoreHr(e))
    else StoredEnding(cfg, e)
  }

  /** The end, once the certificate is in the temp file. */
  function StoredEnding(cfg: Config, e: Env): End {
    if cfg.escape && !(e.skiMemory && e.escapedPathMemory) then GivenUp(E_OUTOFMEMORY)
    else EscapedEnding(cfg, e)
  }

  function EscapedEnding(cfg: Config, e: Env): End {
    if !e.argsMemory then GivenUp(E_OUTOFMEMORY) else RunEnding(cfg, e)
  }

  /** The part of the end that running the process decides. */
  function RunEnding(cfg: Config, e: Env): End {
    if cfg.exe.None? then NoProgram
    else if !e.lineMemory then NoLine
    else if e.start.StartError? then NotStarted(FromWin32(e.start.code))
    else AwaitEnding(e)
  }

  function AwaitEnding(e: Env): End {
    if Failed(WaitHr(e.wait)) then NotWaited(WaitHr(e.wait))
    else if e.exit.ExitError? then NoExitCode(FromWin32(e.exit.code))
    else Exited(e.exit.value)
  }

  /** What NotifyCertIssued returns. */
  function EndHr(end: End): HRESULT {
    match end
    case NoProgram => FromWin32(ERROR_INVALID_OPERATION)
    case NoLine => E_OUTOFMEMORY
    case Exited(_) => S_OK
    case _ => end.hr
  }

  predicate ProcessRan(end: End) {
    end.NotWaited? || end.NoExitCode? || end.Exited?
  }

  /** Preserve was called. */
  predicate Preserved(end: End) {
    end.NoProgram? || end.NoLine? || end.NotStarted? || end.NotWaited? || end.NoExitCode?
    || (end.Exited? && end.code != 0)
  }

  /** The destructor tries to delete the file. */
  predicate Discarded(end: End) {
    end.GivenUp? || end == Exited(0)
  }

  /** The module gets as far as trying to run the process. */
  predicate RunTried(cfg: Config, e: Env) {
    !Failed(StoreHr(e)) && e.argsMemory && (cfg.escape ==> e.skiMemory && e.escapedPathMemory)
  }

  /** The process was started, was seen to exit in time, and its exit code was 0. */
  predicate CleanExit(e: Env) {
    e.lineMemory && e.start.Started? && e.wait.Signalled? && e.exit == ExitCode(0)
  }

  /** The handler preserves the file exactly when the call that runs the process fails or reports
      an exit code other than 0. */
  lemma RunPreserves(cfg: Config, e: Env)
    ensures var end := RunEnding(cfg, e);
            && Preserved(end) == (Failed(EndHr(end)) || (end.Exited? && end.code != 0))
            && (Failed(EndHr(end)) ==> !end.Exited?)
    ensures EscapedEnding(cfg, e) == if e.argsMemory then RunEnding(cfg, e) else GivenUp(E_OUTOFMEMORY)
  {}

  lemma EndingKinds(cfg: Config, e: Env)
    ensures TakenOver(e) <==> !Ending(cfg, e).NoFile? && !Ending(cfg, e).NotOwned?
    ensures Failed(StoreHr(e)) ==>
      && (Ending(cfg, e).NoFile? || Ending(cfg, e).NotOwned? || Ending(cfg, e).GivenUp?)
      && Ending(cfg, e).hr == StoreHr(e)
    ensures !Failed(StoreHr(e)) ==> Ending(cfg, e) == StoredEnding(cfg, e)
  {}

  function PathText(e: Env): WStr {
    if e.tempName.Named? then e.tempName.path else []
  }

  /** The arguments the module adds after the configured ones. */
  function OptionTexts(ski: WStr, serial: WStr, path: WStr): (r: seq<WStr>)
    ensures |r| == 7
  {
    [L("certissued"), L("-subjectkeyidentifier"), ski, L("-serialnumber"), serial, L("-rawcertpath"), path]
  }

  /** A fixed option name: it holds nothing that matters to the printer or the splitter. */
  predicate Plain(w: WStr) {
    w != [] && NUL !in w && DQUOTE !in w && SPACE !in w && TAB !in w && w[|w| - 1] != BACKSLASH
  }

  lemma OptionsPlain()
    ensures Plain(L("certissued")) && Plain(L("-subjectkeyidentifier"))
    ensures Plain(L("-serialnumber")) && Plain(L("-rawcertpath"))
  {}

  function EscapedIf(escape: bool, text: WStr): WStr {
    if escape then SingleQuoted(text) else text
  }

  /** The subject key identifier and the path are in single quotes if the configuration says so. */
  function DynamicArguments(escape: bool, cert: Certificate, path: WStr): (r: seq<WStr>)
    ensures |r| == 7
  {
    OptionTexts(EscapedIf(escape, cert.ski), cert.serial, EscapedIf(escape, path))
  }

  function Arguments(cfg: Config, cert: Certificate, path: WStr): seq<WStr> {
    cfg.args + DynamicArguments(cfg.escape, cert, path)
  }

  function ExeText(cfg: Config): WStr {
    if cfg.exe.Some? then cfg.exe.value else []
  }

  /** The command line the started process is given. */
  function LineText(cfg: Config, cert: Certificate, e: Env): WStr {
    Truncated(Line(ExeText(cfg), Arguments(cfg, cert, PathText(e))), MAX_COMMAND_LINE)
  }

  /** What is reported once the process has been started. */
  function AwaitActions(e: Env, pid: nat, tid: nat, end: End): seq<Action> {
    match end
    case NotWaited(hr) =>
      if hr == FromWin32(ERROR_TIMEOUT)
      then [Reported(ProcessTimedOut(TIMEOUT_SECONDS, pid, tid, PathText(e)))]
      else []
    case Exited(code) =>
      if code != 0
      then [Reported(ProcessFailed(pid, tid, code, PathText(e)))]
      else [Reported(ProcessSucceeded(pid, tid, code))]
    case _ => []
  }

  /** What is launched and reported when the process is to be started. */
  function StartActions(cfg: Config, cert: Certificate, e: Env): seq<Action> {
    var exe := ExeText(cfg);
    var line := LineText(cfg, cert, e);
    if !e.lineMemory then [Reported(StartFailed(exe, None, E_OUTOFMEMORY))]
    else
      match e.start
      case StartError(code) => [Launch(line), Reported(StartFailed(exe, Some(line), FromWin32(code)))]
      case Started(pid, tid) => [Launch(line), Reported(StartSucceeded(exe, line, pid, tid))]
  }

  function StartHr(e: Env): HRESULT {
    if !e.lineMemory then E_OUTOFMEMORY
    else if e.start.StartError? then FromWin32(e.start.code)
    else S_OK
  }

  function RunActions(cfg: Config, cert: Certificate, e: Env, end: End): seq<Action> {
    if end.NoLine? || end.NotStarted? then StartActions(cfg, cert, e)
    else if ProcessRan(end) && e.start.Started? then
      StartActions(cfg, cert, e) + AwaitActions(e, e.start.pid, e.start.tid, end)
    else []
  }

  function Actions(cfg: Config, cert: Certificate, e: Env, end: End): seq<Action> {
    RunActions(cfg, cert, e, end)
    + if Discarded(end) then [Delete(PathText(e), e.deleted)] else []
  }

  /** Before any process is tried nothing is reported and nothing preserved. */
  lemma EarlyEnd(cfg: Config, cert: Certificate, e: Env, end: End)
    requires end.NoFile? || end.NotOwned? || end.GivenUp?
    ensures EndHr(end) == end.hr && !Preserved(end) && !ProcessRan(end) && RunActions(cfg, cert, e, end) == []
  {}

  /** The file system once the certificate has been stored, or that has failed. */
  function FilesStored(files: Files, raw: Bytes, e: Env): Files
    requires Bounded(|raw|, e.writes)
  {
    if Failed(NameHr(e)) then files
    else if Failed(OwnHr(e)) then files[PathText(e) := []]
    else files[PathText(e) := Written(raw, e.writes)]
  }

  /** The file system before the destructor runs. */
  function FilesAtEnd(files: Files, cert: Certificate, e: Env, end: End): Files
    requires Bounded(|cert.raw|, e.writes)
  {
    var stored := FilesStored(files, cert.raw, e);
    if ProcessRan(end) then Changed(stored, e.others) else stored
  }

  function FilesAfter(files: Files, cert: Certificate, e: Env, end: End): Files
    requires Bounded(|cert.raw|, e.writes)
  {
    var atEnd := FilesAtEnd(files, cert, e, end);
    if Discarded(end) && e.deleted then atEnd - {PathText(e)} else atEnd
  }

  /** Whether the destructor tries to delete the file, from what the object then knows. */
  lemma EndFacts(files: Files, cfg: Config, cert: Certificate, e: Env)
    requires Bounded(|cert.raw|, e.writes)
    ensures var end := Ending(cfg, e);
            && (Discarded(end) <==> TakenOver(e) && !Preserved(end))
            && FilesAfter(files, cert, e, end) ==
                 (if Discarded(end) && e.deleted then FilesAtEnd(files, cert, e, end) - {PathText(e)}
                  else FilesAtEnd(files, cert, e, end))
            && Actions(cfg, cert, e, end) ==
                 RunActions(cfg, cert, e, end) + (if Discarded(end) then [Delete(PathText(e), e.deleted)] else [])
  {}

  lemma LawBounded(files: Files, raw: Bytes, e: Env)
    requires EnvLaw(files, raw, e)
    ensures Bounded(|raw|, e.writes)
  {}

  lemma StartActionKinds(cfg: Config, cert: Certificate, e: Env, a: Action)
    requires a in StartActions(cfg, cert, e)
    ensures a.Launch? || (a.Reported? && (a.report.StartFailed? || a.report.StartSucceeded?))
  {
    hide LineText, ExeText;
  }

  lemma AwaitActionKinds(e: Env, pid: nat, tid: nat, end: End, a: Action)
    requires a in AwaitActions(e, pid, tid, end)
    ensures a.Reported? && (end.NotWaited? || end.Exited?)
    ensures a.report.ProcessTimedOut? || a.report.ProcessFailed? || a.report.ProcessSucceeded?
    ensures !a.report.ProcessSucceeded? ==> a.report.file == PathText(e) && Preserved(end)
  {
    hide PathText;
  }

  /** Running the process deletes nothing, and reports only files that are then preserved. */
  lemma RunActionKinds(cfg: Config, cert: Certificate, e: Env, end: End, a: Action)
    requires a in RunActions(cfg, cert, e, end)
    ensures !a.Delete?
    ensures a.Reported? && (a.report.ProcessTimedOut? || a.report.ProcessFailed?) ==>
      a.report.file == PathText(e) && Preserved(end)
  {
    hide LineText, PathText, StartActions, AwaitActions, Preserved;
    if a in StartActions(cfg, cert, e) {
      StartActionKinds(cfg, cert, e, a);
    } else {
      AwaitActionKinds(e, e.start.pid, e.start.tid, end, a);
    }
  }

  /** Everything but an exit code is a failure. */
  lemma EndFails(cfg: Config, e: Env)
    ensures if Ending(cfg, e).Exited? then EndHr(Ending(cfg, e)) == S_OK else Failed(EndHr(Ending(cfg, e)))
  {}

  /** Before the destructor the temp file is there exactly if it was made, and holds what was
      written to it, unless others change it. */
  lemma {:induction false} FileAtEnd(files: Files, cert: Certificate, e: Env, end: End)
    requires Bounded(|cert.raw|, e.writes) && (!Failed(NameHr(e)) ==> PathText(e) !in files)
    requires ProcessRan(end) ==> !Touches(e.others, PathText(e))
    ensures var atEnd := FilesAtEnd(files, cert, e, end);
            && (!Failed(NameHr(e)) ==> PathText(e) in atEnd)
            && (TakenOver(e) ==> atEnd[PathText(e)] == Written(cert.raw, e.writes))
  {
    hide Written, NameHr, OwnHr;
  }

  /** The handler preserves the file exactly when it tries the process without a clean exit. */
  lemma PreservedExactly(cfg: Config, e: Env)
    ensures Preserved(Ending(cfg, e)) <==> RunTried(cfg, e) && !(cfg.exe.Some? && CleanExit(e))
    ensures Preserved(Ending(cfg, e)) ==> TakenOver(e)
  {}
}
