/** One notification told from the answers it gets, without the functions the code is proved
    against: the calls it depends on in their order, what the first bad answer makes of it, and what
    is logged and left in the file system. Results are given as the numbers they are. */
module Answers {
  import opened Wide
  import opened Win32
  import opened Configs
  import opened MultiSz
  import opened WriteLoop
  import opened Lifecycle
  import opened Processes
  import opened Notifications

  /** An answer the handler of an issued certificate depends on: good, or the result it then fails
      with. */
  datatype Answer = Good | Bad(hr: HRESULT)

  /** The first bad answer of two calls that are made one after the other. */
  function Then(a: Answer, b: Answer): Answer {
    if a.Bad? then a else b
  }

  /** 0x8007xxxx, the result for an error code xxxx. */
  function OfWin32(code: Win32Error): HRESULT {
    0x8007_0000 + code - 0x1_0000_0000
  }

  function Call(w: Win): Answer {
    if w.Error? then Bad(OfWin32(w.code)) else Good
  }

  /** An allocation: E_OUTOFMEMORY is 0x8007000E. */
  function Memory(there: bool): Answer {
    if there then Good else Bad(0x8007_000E - 0x1_0000_0000)
  }

  /** A string property: it has to arrive, and to be copied if it is not null. */
  function TextAnswer(p: TextProperty): Answer {
    match p
    case TextError(hr) => Bad(hr)
    case Text(bstr, memory) => Memory(bstr.Some? ==> memory)
  }

  function RawAnswer(p: RawProperty): Answer {
    match p
    case RawError(hr) => Bad(hr)
    case Raw(_, memory) => Memory(memory)
  }

  /** Connecting to the certificate server. */
  function Connecting(s: Server): Answer {
    if s.init == 0 then Good else Bad(s.init)
  }

  /** Connecting, and fetching subject key identifier, serial number and certificate. */
  function Fetching(s: Server): Answer {
    Then(Connecting(s), Then(TextAnswer(s.ski), Then(TextAnswer(s.serial), RawAnswer(s.raw))))
  }

  /** The program has to be there, and to be a string, else E_UNEXPECTED. */
  function ProgramAnswer(p: SzResult): Answer {
    match p
    case SzError(code) => Bad(OfWin32(code))
    case Sz(isString, _) => if isString then Good else Bad(0x8000_FFFF - 0x1_0000_0000)
  }

  /** Loading the settings. Whether to escape and what arguments there are need not be there. */
  function Loading(reg: Registry): Answer {
    Then(Call(reg.open), Then(Memory(reg.exeMemory), Then(ProgramAnswer(reg.exe),
      Then(Memory(reg.dataMemory), Memory(reg.args.Multi? ==> reg.slotMemory)))))
  }

  /** Making the temp file. */
  function Naming(e: Env): Answer {
    Then(Call(e.tempDir), Then(Memory(e.pathMemory),
      if e.tempName.NameError? then Bad(OfWin32(e.tempName.code)) else Good))
  }

  /** Taking it over. */
  function Owning(e: Env): Answer {
    Then(Memory(e.ownMemory), Call(e.create))
  }

  function Writing(writes: seq<WriteResult>): Answer {
    if writes == [] then Good
    else Then(if writes[0].WriteError? then Bad(OfWin32(writes[0].code)) else Good, Writing(writes[1..]))
  }

  /** The identifier and the path are put in single quotes. */
  predicate Quoting(reg: Registry) {
    reg.escape.Dword? && reg.escape.value != 0
  }

  /** Writing the certificate, quoting, assembling the arguments. */
  function Preparing(reg: Registry, e: Env): Answer {
    Then(Writing(e.writes),
      Then(Memory(Quoting(reg) ==> e.skiMemory && e.escapedPathMemory), Memory(e.argsMemory)))
  }

  /** How the wait for the process ended: E_ABORT, ERROR_TIMEOUT, the error, or E_UNEXPECTED. */
  function Waiting(w: WaitResult): Answer {
    match w
    case Signalled => Good
    case WaitAbandoned => Bad(0x8000_4004 - 0x1_0000_0000)
    case WaitTimeout => Bad(0x8007_05B4 - 0x1_0000_0000)
    case WaitError(code) => Bad(OfWin32(code))
    case WaitOther => Bad(0x8000_FFFF - 0x1_0000_0000)
  }

  /** How far the handler of an issued certificate gets, and the result of the first bad answer. */
  datatype Stage =
    | NotFetched(hr: HRESULT)
    | NotLoaded(hr: HRESULT)
    | NotNamed(hr: HRESULT)      // there is no temp file
    | NotTaken(hr: HRESULT)      // there is one, empty and not taken over
    | NotPrepared(hr: HRESULT)   // it is taken over
    | NoMemory(hr: HRESULT)      // for the command line
    | Unstarted(hr: HRESULT)
    | Unwaited(pid: nat, tid: nat, hr: HRESULT)
    | Unanswered(pid: nat, tid: nat, hr: HRESULT)   // started and waited for, but no exit code is had
    | Ended(pid: nat, tid: nat, code: nat)

  function StageOf(n: Notification): Stage {
    var fetching, loading := Fetching(n.server), Loading(n.registry);
    var naming, owning, preparing := Naming(n.env), Owning(n.env), Preparing(n.registry, n.env);
    if fetching.Bad? then NotFetched(fetching.hr)
    else if loading.Bad? then NotLoaded(loading.hr)
    else if naming.Bad? then NotNamed(naming.hr)
    else if owning.Bad? then NotTaken(owning.hr)
    else if preparing.Bad? then NotPrepared(preparing.hr)
    else if !n.env.lineMemory then NoMemory(Memory(false).hr)
    else
      match n.env.start
      case StartError(code) => Unstarted(OfWin32(code))
      case Started(pid, tid) =>
        var waiting := Waiting(n.env.wait);
        if waiting.Bad? then Unwaited(pid, tid, waiting.hr)
        else
          match n.env.exit
          case ExitError(code) => Unanswered(pid, tid, OfWin32(code))
          case ExitCode(code) => Ended(pid, tid, code)
  }

  /** A command line is handed to the system. */
  predicate Launching(n: Notification) {
    var s := StageOf(n);
    n.event == CertIssued && (s.Unstarted? || s.Unwaited? || s.Unanswered? || s.Ended?)
  }

  // ----- what is logged -----

  function ProgramText(reg: Registry): WStr {
    if reg.exe.Sz? then ToNul(reg.exe.data) else []
  }

  function TempPath(e: Env): WStr {
    if e.tempName.Named? then e.tempName.path else []
  }

  /** The event for a failed handler. */
  function FailedEvent(n: Notification, hr: HRESULT): Action {
    Reported(NotifyFailed(n.event, n.context, hr))
  }

  /** What the handler of an issued certificate does and reports, if the program is `exe` and the
      command line is `line`. */
  function StageLog(s: Stage, e: Env, exe: WStr, line: WStr): seq<Action> {
    match s
    case NotFetched(_) => []
    case NotLoaded(_) => []
    case NotNamed(_) => []
    case NotTaken(_) => []
    case NotPrepared(_) => [Delete(TempPath(e), e.deleted)]
    case NoMemory(hr) => [Reported(StartFailed(exe, None, hr))]
    case Unstarted(hr) => [Launch(line), Reported(StartFailed(exe, Some(line), hr))]
    case Unwaited(pid, tid, _) =>
      if e.wait == WaitTimeout || e.wait == WaitError(1460)
      then [Launch(line), Reported(StartSucceeded(exe, line, pid, tid)),
            Reported(ProcessTimedOut(10, pid, tid, TempPath(e)))]
      else [Launch(line), Reported(StartSucceeded(exe, line, pid, tid))]
    case Unanswered(pid, tid, _) => [Launch(line), Reported(StartSucceeded(exe, line, pid, tid))]
    case Ended(pid, tid, code) =>
      if code == 0
      then [Launch(line), Reported(StartSucceeded(exe, line, pid, tid)),
            Reported(ProcessSucceeded(pid, tid, 0)), Delete(TempPath(e), e.deleted)]
      else [Launch(line), Reported(StartSucceeded(exe, line, pid, tid)),
            Reported(ProcessFailed(pid, tid, code, TempPath(e)))]
  }

  /** Every bad answer ends in one event with its result. */
  function FailedEvents(n: Notification): seq<Action> {
    match StageOf(n)
    case Ended(_, _, _) => []
    case s => [FailedEvent(n, s.hr)]
  }

  function LogOf(n: Notification, line: WStr): seq<Action> {
    StageLog(StageOf(n), n.env, ProgramText(n.registry), line) + FailedEvents(n)
  }

  // ----- the answers and the functions the code is proved against -----

  lemma FetchingIs(s: Server)
    requires ServerLaw(s)
    ensures Fetching(s) == if Failed(FetchHr(s)) then Bad(FetchHr(s)) else Good
  {}

  lemma LoadingIs(reg: Registry)
    ensures Loading(reg) == if Failed(LoadHr(reg)) then Bad(LoadHr(reg)) else Good
  {}

  lemma NamingIs(e: Env)
    ensures Naming(e) == if Failed(NameHr(e)) then Bad(NameHr(e)) else Good
    ensures Owning(e) == if Failed(OwnHr(e)) then Bad(OwnHr(e)) else Good
  {}

  lemma {:induction false} WritingIs(length: nat, writes: seq<WriteResult>, total: nat)
    requires Complete(length, writes, total)
    ensures Writing(writes) == if WritesFail(writes) then Bad(FromWin32(writes[|writes| - 1].code)) else Good
    decreases |writes|
  {
    if writes != [] && writes[0].Wrote? {
      WritingIs(length, writes[1..], total + Moved(writes[0]));
    }
  }

  lemma {:induction false} PreparingIs(reg: Registry, e: Env, length: nat, cfg: Config)
    requires !Failed(NameHr(e)) && !Failed(OwnHr(e)) && Complete(length, e.writes, 0)
    requires cfg.escape == Quoting(reg)
    ensures var answer, end := Preparing(reg, e), Ending(cfg, e);
            if answer.Bad? then end == GivenUp(answer.hr) && Failed(answer.hr) else end == RunEnding(cfg, e)
  {
    WritingIs(length, e.writes, 0);
  }

  predicate Matches(s: Stage, end: End, e: Env) {
    match end
    case NoFile(hr) => s == NotNamed(hr)
    case NotOwned(hr) => s == NotTaken(hr)
    case GivenUp(hr) => s == NotPrepared(hr)
    case NoProgram => false
    case NoLine => s == NoMemory(E_OUTOFMEMORY) && !e.lineMemory
    case NotStarted(hr) =>
      s == Unstarted(hr) && e.lineMemory && e.start.StartError? && hr == FromWin32(e.start.code)
    case NotWaited(hr) =>
      e.start.Started? && s == Unwaited(e.start.pid, e.start.tid, hr) && e.lineMemory && hr == WaitHr(e.wait)
    case NoExitCode(hr) => e.start.Started? && s == Unanswered(e.start.pid, e.start.tid, hr) && e.lineMemory
    case Exited(code) => e.start.Started? && s == Ended(e.start.pid, e.start.tid, code) && e.lineMemory
  }

  /** The stage, in terms of the end of the processing. */
  lemma {:induction false} StageIs(files: Files, n: Notification)
    requires NotifyLaw(files, n) && n.event == CertIssued
    ensures Processed(n) <==> !StageOf(n).NotFetched? && !StageOf(n).NotLoaded?
    ensures !Processed(n) ==> Failed(HandlerHr(n)) && StageOf(n).hr == HandlerHr(n)
    ensures Processed(n) ==>
      var s, end := StageOf(n), EndingOf(n);
      && LoadedConfig(n.registry).exe == Some(ProgramText(n.registry))
      && Matches(s, end, n.env)
      && (!end.Exited? ==> EndHr(end) == s.hr && Failed(s.hr))
  {
    FetchingIs(n.server);
    LoadingIs(n.registry);
    NamingIs(n.env);
    hide FetchHr, LoadHr, NameHr, OwnHr, Fetching, Loading, Naming, Owning, Preparing, ServerLaw, RegistryLaw;
    if Processed(n) && !Failed(NameHr(n.env)) && !Failed(OwnHr(n.env)) {
      PreparingIs(n.registry, n.env, |n.server.raw.bytes|, LoadedConfig(n.registry));
    }
  }

  // ----- laws -----

  /** The log of every notification, from the answers alone, but for the command line: what that is
      read as is said elsewhere. */
  lemma {:induction false} LogLaw(files: Files, n: Notification)
    requires NotifyLaw(files, n)
    ensures n.event == CertIssued ==> exists line :: NotifyActions(n) == LogOf(n, line)
    ensures n.event == CrlIssued ==>
      NotifyActions(n) == if n.server.init == 0 then [] else [FailedEvent(n, n.server.init)]
    ensures n.event != CertIssued && n.event != CrlIssued ==> NotifyActions(n) == []
  {
    if n.event == CertIssued {
      StageIs(files, n);
      if Processed(n) {
        ProcessedLog(files, n);
      } else {
        assert NotifyActions(n) == LogOf(n, []);
      }
    }
  }

  lemma {:induction false} ProcessedLog(files: Files, n: Notification)
    requires NotifyLaw(files, n) && Processed(n)
    ensures NotifyActions(n) == LogOf(n, LineText(LoadedConfig(n.registry), CertificateOf(n.server), n.env))
  {
    var line := LineText(LoadedConfig(n.registry), CertificateOf(n.server), n.env);
    var cfg, cert, s := LoadedConfig(n.registry), CertificateOf(n.server), StageOf(n);
    FailedEventsAre(files, n);
    hide FailedEvents, StageLog, StageOf, Actions, NotifyActions, EndHr, Ending, LineText, LoadedConfig,
      CertificateOf, NotifyLaw, FetchHr, LoadHr, RegistryLaw;
    StageIs(files, n);
    ActionsAndEvent(n);
    RunLog(cfg, cert, n.env, EndingOf(n), s, line);
  }

  lemma FailedEventsAre(files: Files, n: Notification)
    requires NotifyLaw(files, n) && Processed(n)
    ensures FailedEvents(n) == if Failed(EndHr(EndingOf(n))) then [FailedEvent(n, EndHr(EndingOf(n)))] else []
  {
    hide StageOf, Ending, LoadedConfig, NotifyLaw, FetchHr, LoadHr;
    StageIs(files, n);
    assert EndingOf(n).Exited? <==> StageOf(n).Ended?;
  }

  lemma SamePath(e: Env)
    ensures TempPath(e) == PathText(e)
  {}

  lemma ActionsAndEvent(n: Notification)
    requires ServerLaw(n.server) && Processed(n)
    ensures var end := EndingOf(n);
            NotifyActions(n) == Actions(LoadedConfig(n.registry), CertificateOf(n.server), n.env, end)
              + if Failed(EndHr(end)) then [FailedEvent(n, EndHr(end))] else []
  {
    hide Actions, EndHr, Ending, LoadedConfig, CertificateOf, FetchHr, LoadHr;
  }

  /** What is done and reported. */
  lemma {:induction false} RunLog(cfg: Config, cert: Certificate, e: Env, end: End, s: Stage, line: WStr)
    requires cfg.exe.Some? && line == LineText(cfg, cert, e) && Matches(s, end, e)
    ensures Actions(cfg, cert, e, end) == StageLog(s, e, cfg.exe.value, line)
  {
    SamePath(e);
    hide LineText, PathText, TempPath;
  }

  /** A command line is launched exactly if all these answers are good. Neither the arguments nor the
      escaping need be in the registry. */
  lemma {:induction false} LaunchedExactly(files: Files, n: Notification)
    requires NotifyLaw(files, n)
    ensures (exists line :: Launch(line) in NotifyActions(n)) <==>
      var s, reg, e := n.server, n.registry, n.env;
      && n.event == CertIssued && s.init == 0
      && s.ski.Text? && (s.ski.bstr.None? || s.ski.textMemory)
      && s.serial.Text? && (s.serial.bstr.None? || s.serial.textMemory)
      && s.raw.Raw? && s.raw.rawMemory
      && reg.open.Done? && reg.exeMemory && reg.exe.Sz? && reg.exe.isString && reg.dataMemory
      && (reg.args.Multi? ==> reg.slotMemory)
      && e.tempDir.Done? && e.pathMemory && e.tempName.Named? && e.ownMemory && e.create.Done?
      && (forall i :: 0 <= i < |e.writes| ==> e.writes[i].Wrote?)
      && (reg.escape.Dword? && reg.escape.value != 0 ==> e.skiMemory && e.escapedPathMemory)
      && e.argsMemory && e.lineMemory
  {
    WritingGood(n.env.writes);
    hide NotifyLaw, NotifyActions, Launching, Writing;
    LaunchInLog(files, n);
    LaunchingIs(n);
  }

  lemma LaunchingIs(n: Notification)
    ensures Launching(n) <==>
      && n.event == CertIssued && Fetching(n.server).Good? && Loading(n.registry).Good?
      && Naming(n.env).Good? && Owning(n.env).Good? && Preparing(n.registry, n.env).Good? && n.env.lineMemory
  {
    hide Fetching, Loading, Naming, Owning, Preparing;
  }

  lemma {:induction false} WritingGood(writes: seq<WriteResult>)
    ensures Writing(writes).Good? <==> forall i :: 0 <= i < |writes| ==> writes[i].Wrote?
  {
    if writes != [] {
      WritingGood(writes[1..]);
      assert forall i :: 1 <= i < |writes| ==> writes[i] == writes[1..][i - 1];
    }
  }

  lemma {:induction false} LaunchInLog(files: Files, n: Notification)
    requires NotifyLaw(files, n)
    ensures (exists line :: Launch(line) in NotifyActions(n)) <==> Launching(n)
  {
    LogLaw(files, n);
    hide NotifyLaw, NotifyActions, LogOf;
    if n.event == CertIssued {
      var line :| NotifyActions(n) == LogOf(n, line);
      LaunchInLogOf(n, line);
    }
  }

  lemma {:induction false} LaunchInLogOf(n: Notification, line: WStr)
    requires n.event == CertIssued
    ensures (exists l :: Launch(l) in LogOf(n, line)) <==> Launching(n)
  {
    hide ProgramText, TempPath, StageOf;
    if Launching(n) {
      assert LogOf(n, line)[0] == Launch(line);
    } else {
      forall l
        ensures Launch(l) !in LogOf(n, line)
      {
        assert forall a :: a in LogOf(n, line) ==> !a.Launch?;
      }
    }
  }

  /** What is done and reported once the process has been started: that it timed out is reported if
      the wait timed out, and if it failed with the code 1460 for that; any other way the wait or the
      exit code fails is the result of one event. */
  function AfterStart(n: Notification, pid: nat, tid: nat): seq<Action> {
    var path := TempPath(n.env);
    match n.env.wait
    case WaitTimeout =>
      [Reported(ProcessTimedOut(10, pid, tid, path)), FailedEvent(n, 0x8007_05B4 - 0x1_0000_0000)]
    case WaitAbandoned => [FailedEvent(n, 0x8000_4004 - 0x1_0000_0000)]
    case WaitOther => [FailedEvent(n, 0x8000_FFFF - 0x1_0000_0000)]
    case WaitError(code) =>
      if code == 1460
      then [Reported(ProcessTimedOut(10, pid, tid, path)), FailedEvent(n, 0x8007_05B4 - 0x1_0000_0000)]
      else [FailedEvent(n, 0x8007_0000 + code - 0x1_0000_0000)]
    case Signalled =>
      match n.env.exit
      case ExitError(code) => [FailedEvent(n, 0x8007_0000 + code - 0x1_0000_0000)]
      case ExitCode(code) =>
        if code == 0 then [Reported(ProcessSucceeded(pid, tid, 0)), Delete(path, n.env.deleted)]
        else [Reported(ProcessFailed(pid, tid, code, path))]
  }

  /** The log of every notification that launches a process which starts, in full. */
  lemma {:induction false} StartedLaw(files: Files, n: Notification)
    requires NotifyLaw(files, n) && Launching(n) && n.env.start.Started?
    ensures var log, pid, tid := NotifyActions(n), n.env.start.pid, n.env.start.tid;
            && n.registry.exe.Sz? && n.env.tempName.Named? && log != [] && log[0].Launch?
            && log == [Launch(log[0].line), Reported(StartSucceeded(ToNul(n.registry.exe.data), log[0].line, pid, tid))]
                      + AfterStart(n, pid, tid)
  {
    LogLaw(files, n);
    LaunchingIs(n);
    hide NotifyLaw, NotifyActions, Launching;
    var line :| NotifyActions(n) == LogOf(n, line);
    StartedLog(n, line);
  }

  lemma {:induction false} StartedLog(n: Notification, line: WStr)
    requires Launching(n) && n.env.start.Started?
    ensures var pid, tid := n.env.start.pid, n.env.start.tid;
            LogOf(n, line) ==
              [Launch(line), Reported(StartSucceeded(ProgramText(n.registry), line, pid, tid))]
              + AfterStart(n, pid, tid)
  {
    LaunchingIs(n);
    hide Fetching, Loading, Naming, Owning, Preparing, ProgramText, TempPath, Launching;
  }

  /** A process that was started is reported as timed out exactly if its wait timed out or failed with
      that code. */
  lemma {:induction false} TimedOutExactly(files: Files, n: Notification)
    requires NotifyLaw(files, n) && Launching(n) && n.env.start.Started?
    ensures n.env.tempName.Named?
    ensures var report := ProcessTimedOut(10, n.env.start.pid, n.env.start.tid, n.env.tempName.path);
            && (Reported(report) in NotifyActions(n) <==> n.env.wait == WaitTimeout || n.env.wait == WaitError(1460))
            && (forall a :: a in NotifyActions(n) && a.Reported? && a.report.ProcessTimedOut? ==> a.report == report)
  {
    assert ServerLaw(n.server);
    hide *;
    StartedLaw(files, n);
    var pid, tid := n.env.start.pid, n.env.start.tid;
    TimedOutAfterStart(n, pid, tid);
    InParts(NotifyActions(n), AfterStart(n, pid, tid));
    assert TempPath(n.env) == n.env.tempName.path by { NamedPath(n.env); }
  }

  lemma NamedPath(e: Env)
    requires e.tempName.Named?
    ensures TempPath(e) == e.tempName.path
  {}

  lemma InParts(log: seq<Action>, rest: seq<Action>)
    requires |log| >= 2 && log == [log[0], log[1]] + rest
    ensures forall a :: a in log <==> a == log[0] || a == log[1] || a in rest
  {
    forall a
      ensures a in log <==> a in [log[0], log[1]] || a in rest
    {}
  }

  lemma TimedOutAfterStart(n: Notification, pid: nat, tid: nat)
    ensures var report := ProcessTimedOut(10, pid, tid, TempPath(n.env));
            && (Reported(report) in AfterStart(n, pid, tid) <==>
                  n.env.wait == WaitTimeout || n.env.wait == WaitError(1460))
            && (forall a :: a in AfterStart(n, pid, tid) && a.Reported? && a.report.ProcessTimedOut? ==>
                  a.report == report)
  {
    hide TempPath;
  }

  // ----- files -----

  /** The file system, stage by stage. */
  predicate LeavesAt(files: Files, raw: Bytes, e: Env, s: Stage, after: Files)
    requires Bounded(|raw|, e.writes)
  {
    var path := TempPath(e);
    if s.NotFetched? || s.NotLoaded? || s.NotNamed? then after == files
    else if s.NotTaken? then path !in files && after == files[path := []]
    else
      && path !in files
      && var stored := files[path := Written(raw, e.writes)];
         match s
         case NotPrepared(_) => after == if e.deleted then files else stored
         case NoMemory(_) => after == stored
         case Unstarted(_) => after == stored
         case Ended(_, _, code) =>
           after == if code == 0 && e.deleted then Changed(stored, e.others) - {path} else Changed(stored, e.others)
         case _ => after == Changed(stored, e.others)
  }

  /** What a notification leaves in the file system. */
  predicate Leaves(files: Files, n: Notification, after: Files) {
    var s := StageOf(n);
    if n.event != CertIssued || s.NotFetched? || s.NotLoaded? then after == files
    else
      && n.server.raw.Raw? && Bounded(|n.server.raw.bytes|, n.env.writes)
      && LeavesAt(files, n.server.raw.bytes, n.env, s, after)
  }

  lemma {:induction false} FilesLaw(files: Files, n: Notification)
    requires NotifyLaw(files, n)
    ensures Leaves(files, n, NotifyFiles(files, n))
  {
    if n.event == CertIssued {
      StageIs(files, n);
      if Processed(n) {
        FilesMatch(files, n);
      }
    }
  }

  lemma {:induction false} FilesMatch(files: Files, n: Notification)
    requires NotifyLaw(files, n) && Processed(n)
    ensures Leaves(files, n, NotifyFiles(files, n))
  {
    var cert, e, end, s := CertificateOf(n.server), n.env, EndingOf(n), StageOf(n);
    StageIs(files, n);
    EndingFacts(LoadedConfig(n.registry), e);
    assert NotifyFiles(files, n) == FilesAfter(files, cert, e, end);
    assert cert.raw == n.server.raw.bytes && Bounded(|cert.raw|, e.writes);
    assert !Failed(NameHr(e)) ==> PathText(e) !in files;
    hide StageOf, LoadedConfig, CertificateOf, FetchHr, LoadHr, Bounded, FilesAfter, NotifyFiles, EndingOf, NotifyLaw,
      NameHr, OwnHr, Matches, PathText, TempPath, Processed;
    FilesFollow(files, cert, e, end, s);
  }

  lemma EndingFacts(cfg: Config, e: Env)
    ensures var end := Ending(cfg, e);
            && (end.NoFile? <==> Failed(NameHr(e)))
            && (end.NotOwned? <==> !Failed(NameHr(e)) && Failed(OwnHr(e)))
  {}

  lemma {:induction false} FilesFollow(files: Files, cert: Certificate, e: Env, end: End, s: Stage)
    requires Bounded(|cert.raw|, e.writes) && Matches(s, end, e)
    requires !Failed(NameHr(e)) ==> PathText(e) !in files
    requires (end.NoFile? <==> Failed(NameHr(e))) && (end.NotOwned? <==> !Failed(NameHr(e)) && Failed(OwnHr(e)))
    ensures LeavesAt(files, cert.raw, e, s, FilesAfter(files, cert, e, end))
  {
    SamePath(e);
    hide Bounded, Written, Changed, NameHr, OwnHr, PathText, TempPath;
  }
}
