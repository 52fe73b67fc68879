/** Whole histories: any number of notifications, with any outcomes, and whatever others do to the
    file system in between. */
module History {
  import opened Wide
  import opened Win32
  import opened Configs
  import opened WriteLoop
  import opened Lifecycle
  import opened Notifications
  import opened ExitEventSources

  datatype Step = Notified(n: Notification) | Outside(change: FileChange)

  predicate StepLaw(files: Files, s: Step) {
    s.Notified? ==> NotifyLaw(files, s.n)
  }

  function StepFiles(files: Files, s: Step): Files
    requires StepLaw(files, s)
  {
    match s
    case Notified(n) => NotifyFiles(files, n)
    case Outside(change) => Changed(files, change)
  }

  /** The system keeps its promises at every step. */
  predicate Lawful(files: Files, steps: seq<Step>)
    decreases |steps|
  {
    steps == [] || (StepLaw(files, steps[0]) && Lawful(StepFiles(files, steps[0]), steps[1..]))
  }

  function Run(files: Files, steps: seq<Step>): Files
    requires Lawful(files, steps)
    decreases |steps|
  {
    if steps == [] then files else Run(StepFiles(files, steps[0]), steps[1..])
  }

  /** Everything the module did and reported. */
  function Log(files: Files, steps: seq<Step>): seq<Action>
    requires Lawful(files, steps)
    decreases |steps|
  {
    if steps == [] then []
    else
      (if steps[0].Notified? then NotifyActions(steps[0].n) else [])
      + Log(StepFiles(files, steps[0]), steps[1..])
  }

  /** Somebody other than the module writes or deletes the file during the step. */
  predicate StepTouches(s: Step, path: WStr) {
    match s
    case Notified(n) => Processed(n) && ProcessRan(EndingOf(n)) && Touches(n.env.others, path)
    case Outside(change) => Touches(change, path)
  }

  predicate Untouched(steps: seq<Step>, path: WStr) {
    forall i :: 0 <= i < |steps| ==> !StepTouches(steps[i], path)
  }

  predicate NeverDeleted(log: seq<Action>, path: WStr) {
    forall i :: 0 <= i < |log| ==> log[i].Delete? ==> log[i].path != path
  }

  lemma RunStep(files: Files, steps: seq<Step>)
    requires Lawful(files, steps) && steps != []
    ensures StepLaw(files, steps[0]) && Lawful(StepFiles(files, steps[0]), steps[1..])
    ensures Run(files, steps) == Run(StepFiles(files, steps[0]), steps[1..])
  {}

  // ----- one notification -----

  /** A notification leaves every file that existed before it as it was, except for what others do,
      and tries to delete none of them. */
  lemma {:induction false} OthersFilesKept(files: Files, n: Notification, path: WStr)
    requires NotifyLaw(files, n) && path in files && !StepTouches(Notified(n), path)
    ensures path in NotifyFiles(files, n) && NotifyFiles(files, n)[path] == files[path]
    ensures NeverDeleted(NotifyActions(n), path)
  {
    forall i | 0 <= i < |NotifyActions(n)| && NotifyActions(n)[i].Delete?
      ensures NotifyActions(n)[i].path != path
    {
      ActionsOnOwnFile(n, NotifyActions(n)[i]);
      EndingKinds(LoadedConfig(n.registry), n.env);
    }
    if Processed(n) {
      var e := n.env;
      EndingKinds(LoadedConfig(n.registry), e);
      assert EndingOf(n).NoFile? || PathText(e) != path;
    }
  }

  /** The only file a notification tries to delete is its own, and the only file its reports name is
      one it preserves. */
  lemma {:induction false} ActionsOnOwnFile(n: Notification, a: Action)
    requires ServerLaw(n.server) && a in NotifyActions(n)
    ensures a.Delete? ==> Processed(n) && a.path == PathText(n.env) && Discarded(EndingOf(n))
    ensures a.Reported? && (a.report.ProcessTimedOut? || a.report.ProcessFailed?) ==>
      Processed(n) && a.report.file == PathText(n.env) && Preserved(EndingOf(n))
  {
    hide RunActions, LoadedConfig, Preserved, Discarded, EndHr, Ending, LoadHr, FetchHr;
    if Processed(n) {
      var cfg, cert := LoadedConfig(n.registry), CertificateOf(n.server);
      if a in RunActions(cfg, cert, n.env, EndingOf(n)) {
        RunActionKinds(cfg, cert, n.env, EndingOf(n), a);
      }
    }
  }

  /** The fate of the temp file on every path through one notification: it is there afterwards
      exactly when it was made and was not taken over, or the process was tried without a clean
      exit, or the file could not be deleted. A file that was preserved holds what was written. */
  lemma {:induction false} TempFileFate(files: Files, n: Notification)
    requires NotifyLaw(files, n) && Processed(n)
    requires !StepTouches(Notified(n), PathText(n.env))
    ensures var e := n.env;
            var after := NotifyFiles(files, n);
            var tried := RunTried(LoadedConfig(n.registry), e);
            && !EndingOf(n).NoProgram?
            && (Failed(NameHr(e)) ==> after == files)
            && (!Failed(NameHr(e)) ==> PathText(e) !in files)
            && (!Failed(NameHr(e)) ==>
                  (PathText(e) in after <==> !TakenOver(e) || (tried && !CleanExit(e)) || !e.deleted))
            && (Preserved(EndingOf(n)) <==> tried && !CleanExit(e))
            && (Preserved(EndingOf(n)) ==>
                  !Failed(NameHr(e)) && after[PathText(e)] == Written(CertificateOf(n.server).raw, e.writes))
  {
    var cfg, cert := LoadedConfig(n.registry), CertificateOf(n.server);
    var end := EndingOf(n);
    EarlyEndings(cfg, cert, n.env);
    ProgramConfigured(n);
    EndFacts(files, cfg, cert, n.env);
    PreservedExactly(cfg, n.env);
    hide Written, Ending, Preserved, Discarded, RunTried, CleanExit, StoreHr, FilesAfter, LoadHr, FetchHr, EndHr;
    FileAtEnd(files, cert, n.env, end);
  }

  /** After a successful load there is a program, so the branch for none is never taken. */
  lemma ProgramConfigured(n: Notification)
    requires Processed(n)
    ensures LoadedConfig(n.registry).exe.Some? && !EndingOf(n).NoProgram?
  {}

  /** Without a temp file nothing happens to the file system. */
  lemma EarlyEndings(cfg: Config, cert: Certificate, e: Env)
    ensures Failed(NameHr(e)) ==> !TakenOver(e) && !ProcessRan(Ending(cfg, e))
  {}

  /** A report that names a temp file names one that remains, holding what was written. */
  lemma {:induction false} ReportedFileRemains(files: Files, n: Notification, i: nat)
    requires NotifyLaw(files, n) && i < |NotifyActions(n)| && NotifyActions(n)[i].Reported?
    requires NotifyActions(n)[i].report.ProcessTimedOut? || NotifyActions(n)[i].report.ProcessFailed?
    requires !StepTouches(Notified(n), NotifyActions(n)[i].report.file)
    ensures Processed(n) && Preserved(EndingOf(n))
    ensures var file := NotifyActions(n)[i].report.file;
            file in NotifyFiles(files, n)
            && NotifyFiles(files, n)[file] == Written(CertificateOf(n.server).raw, n.env.writes)
  {
    hide NotifyActions, NotifyFiles, Preserved, Written;
    ActionsOnOwnFile(n, NotifyActions(n)[i]);
    TempFileFate(files, n);
  }

  // ----- all histories -----

  /** Over every history the module neither overwrites nor deletes a file that was there before. */
  lemma {:induction false} FilesKept(files: Files, steps: seq<Step>, path: WStr)
    requires Lawful(files, steps) && path in files && Untouched(steps, path)
    ensures path in Run(files, steps) && Run(files, steps)[path] == files[path]
    ensures NeverDeleted(Log(files, steps), path)
    decreases |steps|
  {
    if steps != [] {
      var next := StepFiles(files, steps[0]);
      assert !StepTouches(steps[0], path);
      if steps[0].Notified? {
        OthersFilesKept(files, steps[0].n, path);
      }
      assert forall i :: 0 <= i < |steps| - 1 ==> steps[1..][i] == steps[i + 1];
      FilesKept(next, steps[1..], path);
    }
  }

  /** A temp file that one notification preserves is never overwritten or deleted by the module
      again: after any later history it still holds what that notification wrote. */
  lemma {:induction false} PreservedForever(files: Files, n: Notification, later: seq<Step>)
    requires Lawful(files, [Notified(n)] + later) && Processed(n) && Preserved(EndingOf(n))
    requires Untouched([Notified(n)] + later, PathText(n.env))
    ensures var path := PathText(n.env);
            var after := Run(files, [Notified(n)] + later);
            && path in after && after[path] == Written(CertificateOf(n.server).raw, n.env.writes)
            && NeverDeleted(Log(files, [Notified(n)] + later), path)
  {
    var path := PathText(n.env);
    var steps := [Notified(n)] + later;
    assert steps[0] == Notified(n) && steps[1..] == later;
    LogStep(files, n, later);
    RunStep(files, steps);
    assert StepFiles(files, steps[0]) == NotifyFiles(files, n);
    hide StepFiles, Log, Run, Lawful, Written, NotifyActions, Preserved, Discarded, PathText, StepTouches;
    assert !StepTouches(steps[0], path);
    TempFileFate(files, n);
    if i :| 0 <= i < |NotifyActions(n)| && NotifyActions(n)[i].Delete? && NotifyActions(n)[i].path == path {
      ActionsOnOwnFile(n, NotifyActions(n)[i]);
      PreservedOrDiscarded(n);
      assert false;
    }
    assert forall i :: 0 <= i < |later| ==> later[i] == steps[i + 1];
    FilesKept(NotifyFiles(files, n), later, path);
  }

  /** It is the certificate itself if each write moved all of it or nothing; and only then, for
      every certificate no proper beginning of which is also its end. */
  lemma {:induction false} PreservedCertificate(files: Files, n: Notification, later: seq<Step>)
    requires Lawful(files, [Notified(n)] + later) && Processed(n) && Preserved(EndingOf(n))
    requires Untouched([Notified(n)] + later, PathText(n.env))
    ensures var path, raw := PathText(n.env), n.server.raw.bytes;
            var after := Run(files, [Notified(n)] + later);
            && path in after
            && (AllOrNothing(|raw|, n.env.writes) ==> after[path] == raw)
            && (!Bordered(raw) ==> (after[path] == raw <==> AllOrNothing(|raw|, n.env.writes)))
  {
    PreservedForever(files, n, later);
    LogStep(files, n, later);
    PreservedWrites(files, n);
    hide *;
    var raw, writes := n.server.raw.bytes, n.env.writes;
    if AllOrNothing(|raw|, writes) {
      AllOrNothingIsRight(raw, writes);
    }
    if !Bordered(raw) {
      WrittenExactly(raw, writes);
    }
  }

  /** The writes of a run that got as far as trying the process. */
  lemma {:induction false} PreservedWrites(files: Files, n: Notification)
    requires NotifyLaw(files, n) && Processed(n) && Preserved(EndingOf(n))
    ensures var raw, writes := n.server.raw.bytes, n.env.writes;
            && raw == CertificateOf(n.server).raw
            && Complete(|raw|, writes, 0) && Bounded(|raw|, writes) && ErrorFree(writes)
  {
    PreservedExactly(LoadedConfig(n.registry), n.env);
    hide Complete, Bounded, ErrorFree;
    OnlyLastFails(|n.server.raw.bytes|, n.env.writes, 0);
  }

  lemma PreservedOrDiscarded(n: Notification)
    requires Processed(n)
    ensures !(Preserved(EndingOf(n)) && Discarded(EndingOf(n)))
  {}

  lemma LogStep(files: Files, n: Notification, later: seq<Step>)
    requires Lawful(files, [Notified(n)] + later)
    ensures NotifyLaw(files, n) && Lawful(NotifyFiles(files, n), later)
    ensures Log(files, [Notified(n)] + later) == NotifyActions(n) + Log(NotifyFiles(files, n), later)
  {
    var steps := [Notified(n)] + later;
    assert steps[0] == Notified(n) && steps[1..] == later;
  }

  // ----- what is left behind -----

  /** A notification that leaves its temp file behind although it can be deleted. */
  predicate Keeps(s: Step) {
    s.Notified? && Processed(s.n) && (EndingOf(s.n).NotOwned? || Preserved(EndingOf(s.n)))
  }

  function KeptPaths(steps: seq<Step>): set<WStr> {
    set i | 0 <= i < |steps| && Keeps(steps[i]) :: PathText(steps[i].n.env)
  }

  function KeptCount(steps: seq<Step>): nat {
    if steps == [] then 0 else (if Keeps(steps[0]) then 1 else 0) + KeptCount(steps[1..])
  }

  /** Nobody else changes files, and every deletion that is tried succeeds. */
  predicate Quiet(s: Step) {
    s.Notified? && (Processed(s.n) ==>
      s.n.env.deleted && (ProcessRan(EndingOf(s.n)) ==> s.n.env.others == FileChange(map[], {})))
  }

  predicate QuietHistory(steps: seq<Step>) {
    forall i :: 0 <= i < |steps| ==> Quiet(steps[i])
  }

  lemma QuietRest(steps: seq<Step>)
    requires steps != [] && QuietHistory(steps)
    ensures Quiet(steps[0]) && QuietHistory(steps[1..])
  {
    hide Quiet;
  }

  lemma {:induction false} QuietStep(files: Files, s: Step)
    requires StepLaw(files, s) && Quiet(s)
    ensures StepFiles(files, s).Keys == files.Keys + (if Keeps(s) then {PathText(s.n.env)} else {})
    ensures Keeps(s) ==> PathText(s.n.env) !in files
  {
    if Processed(s.n) {
      TempFileFate(files, s.n);
      QuietFiles(files, s.n);
    }
  }

  /** In a quiet notification only its own file can come or go. */
  lemma {:induction false} QuietFiles(files: Files, n: Notification)
    requires NotifyLaw(files, n) && Processed(n) && Quiet(Notified(n))
    ensures NotifyFiles(files, n).Keys - {PathText(n.env)} == files.Keys - {PathText(n.env)}
  {
    var end := EndingOf(n);
    var cert := CertificateOf(n.server);
    var stored := FilesStored(files, cert.raw, n.env);
    assert stored.Keys - {PathText(n.env)} == files.Keys - {PathText(n.env)};
    assert FilesAtEnd(files, cert, n.env, end) == stored;
  }

  /** Conservation: after any quiet history the files are exactly those from before and one for each
      notification that kept its temp file; no two of these share a name. */
  lemma {:induction false} LeftBehind(files: Files, steps: seq<Step>)
    requires Lawful(files, steps) && QuietHistory(steps)
    ensures Run(files, steps).Keys == files.Keys + KeptPaths(steps)
    ensures |Run(files, steps)| == |files| + KeptCount(steps)
  {
    LeftBehindNames(files, steps);
    LeftBehindCount(files, steps);
  }

  lemma {:induction false} LeftBehindNames(files: Files, steps: seq<Step>)
    requires Lawful(files, steps) && QuietHistory(steps)
    ensures Run(files, steps).Keys == files.Keys + KeptPaths(steps)
    decreases |steps|
  {
    if steps != [] {
      hide *;
      var next := StepFiles(files, steps[0]);
      KeptPathsStep(steps);
      RunStep(files, steps);
      QuietRest(steps);
      QuietCount(files, steps[0]);
      LeftBehindNames(next, steps[1..]);
      var own := if Keeps(steps[0]) then {PathText(steps[0].n.env)} else {};
      calc {
        Run(files, steps).Keys;
        next.Keys + KeptPaths(steps[1..]);
        (files.Keys + own) + KeptPaths(steps[1..]);
        { UnionSwap(files.Keys, own, KeptPaths(steps[1..])); }
        files.Keys + KeptPaths(steps);
      }
    }
  }

  lemma UnionSwap<T>(a: set<T>, b: set<T>, c: set<T>)
    ensures (a + b) + c == a + (c + b)
  {}

  lemma {:induction false} LeftBehindCount(files: Files, steps: seq<Step>)
    requires Lawful(files, steps) && QuietHistory(steps)
    ensures |Run(files, steps)| == |files| + KeptCount(steps)
    decreases |steps|
  {
    if steps != [] {
      hide *;
      KeptPathsStep(steps);
      RunStep(files, steps);
      QuietRest(steps);
      QuietCount(files, steps[0]);
      LeftBehindCount(StepFiles(files, steps[0]), steps[1..]);
    }
  }

  lemma {:induction false} QuietCount(files: Files, s: Step)
    requires StepLaw(files, s) && Quiet(s)
    ensures StepFiles(files, s).Keys == files.Keys + (if Keeps(s) then {PathText(s.n.env)} else {})
    ensures |StepFiles(files, s)| == |files| + (if Keeps(s) then 1 else 0)
  {
    QuietStep(files, s);
    SizeOfKeys(files);
    SizeOfKeys(StepFiles(files, s));
    hide StepFiles, Keeps;
  }

  lemma SizeOfKeys(m: Files)
    ensures |m| == |m.Keys|
  {}

  lemma {:induction false} KeptPathsStep(steps: seq<Step>)
    requires steps != []
    ensures KeptCount(steps) == KeptCount(steps[1..]) + if Keeps(steps[0]) then 1 else 0
    ensures KeptPaths(steps) == KeptPaths(steps[1..]) + (if Keeps(steps[0]) then {PathText(steps[0].n.env)} else {})
  {
    var rest := steps[1..];
    forall p | p in KeptPaths(steps)
      ensures p in KeptPaths(rest) || (Keeps(steps[0]) && p == PathText(steps[0].n.env))
    {
      var i :| 0 <= i < |steps| && Keeps(steps[i]) && p == PathText(steps[i].n.env);
      if i > 0 {
        assert rest[i - 1] == steps[i];
      }
    }
    forall p | p in KeptPaths(rest)
      ensures p in KeptPaths(steps)
    {
      var i :| 0 <= i < |rest| && Keeps(rest[i]) && p == PathText(rest[i].n.env);
      assert steps[i + 1] == rest[i];
    }
  }

  // ----- the order of what is done and reported -----

  /** What a reader of the log knows of one notification: what it was called with, what its handler
      returned, and where its temp file lies. */
  datatype Reader = Reader(event: ExitEvent, context: int, hr: HRESULT, path: WStr)

  /** How far the log of one notification has been read. */
  datatype Phase =
    | Begin
    | Launching(line: WStr)
    | Running(pid: nat, tid: nat)
    | MustDelete
    | MustFail
    | Finished
    | Broken

  predicate IsFailureOf(r: Reader, a: Action) {
    a == Reported(NotifyFailed(r.event, r.context, r.hr)) && Failed(r.hr)
  }

  /** The grammar of the log of one notification. A launch is answered by a start report with the
      same line; a started process by at most one report with its ids, and with the temp file if that
      is kept; a success by an attempt to delete that file. A failure event has the result of the
      handler, comes last, and only if that failed. */
  function Advance(r: Reader, phase: Phase, a: Action): Phase {
    match phase
    case Begin =>
      (match a
       case Launch(line) => Launching(line)
       case Delete(path, _) => if path == r.path && Failed(r.hr) then MustFail else Broken
       case Reported(StartFailed(_, None, hr)) => if hr == r.hr && Failed(hr) then MustFail else Broken
       case _ => if IsFailureOf(r, a) then Finished else Broken)
    case Launching(line) =>
      (match a
       case Reported(StartFailed(_, Some(l), hr)) =>
         if l == line && hr == r.hr && Failed(hr) then MustFail else Broken
       case Reported(StartSucceeded(_, l, pid, tid)) => if l == line then Running(pid, tid) else Broken
       case _ => Broken)
    case Running(pid, tid) =>
      (match a
       case Reported(ProcessSucceeded(p, t, code)) =>
         if p == pid && t == tid && code == 0 && !Failed(r.hr) then MustDelete else Broken
       case Reported(ProcessFailed(p, t, code, file)) =>
         if p == pid && t == tid && code != 0 && file == r.path && !Failed(r.hr) then Finished else Broken
       case Reported(ProcessTimedOut(s, p, t, file)) =>
         if p == pid && t == tid && s == TIMEOUT_SECONDS && file == r.path && r.hr == FromWin32(ERROR_TIMEOUT)
         then MustFail
         else Broken
       case _ => if IsFailureOf(r, a) then Finished else Broken)
    case MustDelete => if a.Delete? && a.path == r.path then Finished else Broken
    case MustFail => if IsFailureOf(r, a) then Finished else Broken
    case Finished => Broken
    case Broken => Broken
  }

  function Read(r: Reader, phase: Phase, log: seq<Action>): Phase
    decreases |log|
  {
    if log == [] then phase else Read(r, Advance(r, phase, log[0]), log[1..])
  }

  /** This is the whole log of one notification: the reader is finished, or had nothing to read of a
      handler that succeeded. */
  predicate Accepted(r: Reader, log: seq<Action>) {
    var phase := Read(r, Begin, log);
    phase.Finished? || (phase.Begin? && !Failed(r.hr))
  }

  function ReaderOf(n: Notification): Reader {
    Reader(n.event, n.context, HandlerHr(n), PathText(n.env))
  }

  /** The log falls into one part for each notification, in order, and each follows the grammar. */
  ghost predicate FollowsGrammar(log: seq<Action>, steps: seq<Step>)
    decreases |steps|
  {
    if steps == [] then log == []
    else if steps[0].Outside? then FollowsGrammar(log, steps[1..])
    else exists k :: 0 <= k <= |log| && Accepted(ReaderOf(steps[0].n), log[..k]) && FollowsGrammar(log[k..], steps[1..])
  }

  lemma {:induction false} ReadOn(r: Reader, phase: Phase, a: seq<Action>, b: seq<Action>)
    ensures Read(r, phase, a + b) == Read(r, Read(r, phase, a), b)
    decreases |a|
  {
    if a == [] {
      assert a + b == b;
    } else {
      assert (a + b)[1..] == a[1..] + b;
      ReadOn(r, Advance(r, phase, a[0]), a[1..], b);
    }
  }

  lemma Read1(r: Reader, phase: Phase, a: Action)
    ensures Read(r, phase, [a]) == Advance(r, phase, a)
  {}

  /** What the log of the run of the process leaves owed. */
  lemma {:induction false} ReadRun(cfg: Config, cert: Certificate, e: Env, r: Reader)
    requires cfg.exe.Some? && r.path == PathText(e) && r.hr == EndHr(RunEnding(cfg, e))
    ensures var end := RunEnding(cfg, e);
            var phase := Read(r, Begin, RunActions(cfg, cert, e, end));
            match end
            case NoLine => phase == MustFail
            case NotStarted(_) => phase == MustFail
            case NotWaited(hr) => if hr == FromWin32(ERROR_TIMEOUT) then phase == MustFail else phase.Running?
            case NoExitCode(_) => phase.Running?
            case Exited(code) => phase == if code == 0 then MustDelete else Finished
            case _ => false
  {
    var end := RunEnding(cfg, e);
    var begun := StartActions(cfg, cert, e);
    hide LineText, PathText, ExeText;
    if end.NoLine? {
      Read1(r, Begin, begun[0]);
    } else {
      assert begun == [begun[0]] + [begun[1]];
      ReadOn(r, Begin, [begun[0]], [begun[1]]);
      Read1(r, Begin, begun[0]);
      Read1(r, Advance(r, Begin, begun[0]), begun[1]);
      if !end.NotStarted? {
        var more := AwaitActions(e, e.start.pid, e.start.tid, end);
        ReadOn(r, Begin, begun, more);
        if more != [] {
          Read1(r, Running(e.start.pid, e.start.tid), more[0]);
          assert more == [more[0]];
        }
      }
    }
  }

  /** What the handler's log may leave owed. */
  predicate Settled(r: Reader, phase: Phase) {
    if Failed(r.hr) then phase.Begin? || phase.Running? || phase.MustFail?
    else phase.Begin? || phase.Finished?
  }

  lemma {:induction false} ReadHandler(n: Notification)
    requires ServerLaw(n.server) && Processed(n)
    ensures Settled(ReaderOf(n), Read(ReaderOf(n), Begin, HandlerActions(n)))
  {
    hide RunActions, LoadHr, FetchHr, StoreHr, StoredEnding, PathText;
    var r := ReaderOf(n);
    var cfg := LoadedConfig(n.registry);
    var cert := CertificateOf(n.server);
    var end := EndingOf(n);
    EndFails(cfg, n.env);
    var ran := RunActions(cfg, cert, n.env, end);
    if end.NoFile? || end.NotOwned? || end.GivenUp? {
      EarlyEnd(cfg, cert, n.env, end);
    } else {
      LateEnding(cfg, n.env);
      ReadRun(cfg, cert, n.env, r);
    }
    var deletes := if Discarded(end) then [Delete(PathText(n.env), n.env.deleted)] else [];
    ReadOn(r, Begin, ran, deletes);
    if deletes != [] {
      Read1(r, Read(r, Begin, ran), deletes[0]);
    }
  }

  lemma LateEnding(cfg: Config, e: Env)
    requires !Ending(cfg, e).NoFile? && !Ending(cfg, e).NotOwned? && !Ending(cfg, e).GivenUp?
    ensures Ending(cfg, e) == RunEnding(cfg, e)
  {}

  lemma SettledByEvent(r: Reader, phase: Phase, a: Action)
    requires Settled(r, phase) && IsFailureOf(r, a)
    ensures Advance(r, phase, a).Finished?
  {}

  lemma {:induction false} ReadNotification(n: Notification)
    requires ServerLaw(n.server)
    ensures Accepted(ReaderOf(n), NotifyActions(n))
  {
    var r := ReaderOf(n);
    if Processed(n) {
      ReadHandler(n);
    }
    assert Settled(r, Read(r, Begin, HandlerActions(n)));
    assert HandlerActions(n) + [] == HandlerActions(n);
    hide HandlerHr, HandlerActions, Processed, ServerLaw, Advance;
    if Failed(r.hr) {
      var report := Reported(NotifyFailed(n.event, n.context, r.hr));
      ReadOn(r, Begin, HandlerActions(n), [report]);
      Read1(r, Read(r, Begin, HandlerActions(n)), report);
      SettledByEvent(r, Read(r, Begin, HandlerActions(n)), report);
    }
  }

  /** Over every history the log follows the grammar. */
  lemma {:induction false} LogFollowsGrammar(files: Files, steps: seq<Step>)
    requires Lawful(files, steps)
    ensures FollowsGrammar(Log(files, steps), steps)
    decreases |steps|
  {
    if steps != [] {
      var log, later := Log(files, steps), Log(StepFiles(files, steps[0]), steps[1..]);
      LogFollowsGrammar(StepFiles(files, steps[0]), steps[1..]);
      if steps[0].Notified? {
        var now := NotifyActions(steps[0].n);
        ReadNotification(steps[0].n);
        hide Accepted, NotifyActions, StepFiles, ReaderOf;
        assert log[..|now|] == now && log[|now|..] == later;
      } else {
        assert log == later;
      }
    }
  }

  // ----- failures and events -----

  predicate IsFailure(a: Action) {
    a.Reported? && a.report.NotifyFailed?
  }

  function FailureCount(log: seq<Action>): nat {
    if log == [] then 0 else (if IsFailure(log[0]) then 1 else 0) + FailureCount(log[1..])
  }

  /** The steps at which the handler of the event failed. */
  function FailedCount(steps: seq<Step>): nat {
    if steps == [] then 0
    else (if steps[0].Notified? && Failed(HandlerHr(steps[0].n)) then 1 else 0) + FailedCount(steps[1..])
  }

  lemma {:induction false} FailureCountConcat(a: seq<Action>, b: seq<Action>)
    ensures FailureCount(a + b) == FailureCount(a) + FailureCount(b)
  {
    if a == [] {
      assert a + b == b;
    } else {
      assert (a + b)[1..] == a[1..] + b;
      FailureCountConcat(a[1..], b);
    }
  }

  lemma {:induction false} BrokenStays(r: Reader, log: seq<Action>)
    ensures Read(r, Broken, log).Broken?
    decreases |log|
  {
    if log != [] {
      BrokenStays(r, log[1..]);
    }
  }

  /** The grammar owes every failure exactly one event, and a success none. */
  lemma {:induction false} GrammarOwes(r: Reader, phase: Phase, log: seq<Action>)
    requires Read(r, phase, log).Finished? || (Read(r, phase, log).Begin? && !Failed(r.hr))
    requires (phase.MustFail? ==> Failed(r.hr)) && (phase.MustDelete? ==> !Failed(r.hr))
    ensures FailureCount(log) == if Failed(r.hr) && !phase.Finished? then 1 else 0
    decreases |log|
  {
    BrokenStays(r, log);
    if log != [] {
      var next := Advance(r, phase, log[0]);
      BrokenStays(r, log[1..]);
      GrammarOwes(r, next, log[1..]);
    }
  }

  /** Over every history there are exactly as many failure events as handlers that failed. */
  lemma {:induction false} FailuresReported(files: Files, steps: seq<Step>)
    requires Lawful(files, steps)
    ensures FailureCount(Log(files, steps)) == FailedCount(steps)
    decreases |steps|
  {
    if steps != [] {
      var next := StepFiles(files, steps[0]);
      var later := Log(next, steps[1..]);
      FailuresReported(next, steps[1..]);
      if steps[0].Notified? {
        FailureReported(steps[0].n);
        FailureCountConcat(NotifyActions(steps[0].n), later);
      } else {
        assert [] + later == later;
      }
    }
  }

  lemma {:induction false} FailureReported(n: Notification)
    requires ServerLaw(n.server)
    ensures FailureCount(NotifyActions(n)) == if Failed(HandlerHr(n)) then 1 else 0
  {
    ReadNotification(n);
    hide HandlerHr, NotifyActions;
    GrammarOwes(ReaderOf(n), Begin, NotifyActions(n));
  }

  lemma {:induction false} ReportedFailures(log: seq<Action>)
    ensures FailureReports(Reports(log)) == FailureCount(log)
  {
    if log != [] {
      var k := |log| - 1;
      var init, a := log[..k], log[k];
      ReportedFailures(init);
      assert log == init + [a];
      FailureCountConcat(init, [a]);
      assert FailureCount([a]) == if IsFailure(a) then 1 else 0;
      var reports := Reports(init);
      assert reports + [] == reports;
      if a.Reported? {
        assert (reports + [a.report])[..|reports|] == reports;
      }
    }
  }

  /** Over every history the event log holds at most one record for each handler that failed, and one
      for each exactly if the event log is open and every such report gets through. */
  lemma {:induction false} FailuresRecorded(files: Files, steps: seq<Step>, log: EventLog)
    requires Lawful(files, steps)
    ensures var reports := Reports(Log(files, steps));
            var count := FailureRecords(Recorded(log, reports));
            && count <= FailedCount(steps)
            && (count == FailedCount(steps) <==> FailuresWork(log, reports))
  {
    FailuresReported(files, steps);
    ReportedFailures(Log(files, steps));
    RecordedFailures(log, Reports(Log(files, steps)));
  }
}
