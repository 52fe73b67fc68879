/** The event source of the module: one method for each event it can report. The log of actions
    records the calls; the event source beneath records what of them gets into the event log. */
module ExitEventSources {
  import opened Wide
  import opened Buffers
  import opened Win32
  import opened EventSources

  const MSG_PROCESS_SUCCEEDED: nat := 0x4000_0100
  const MSG_PROCESS_FAILED: nat := 0xC000_0101
  const MSG_PROCESS_TIMEDOUT: nat := 0x8000_0102
  const MSG_PROCESS_START_SUCCEEDED: nat := 0x4000_0103
  const MSG_PROCESS_START_FAILED: nat := 0xC000_0104
  const MSG_NOTIFY_FAILED: nat := 0xC000_0105

  /** A value that is printed into an event, and how. */
  datatype Number = Decimal(n: nat) | Hex(h: int) | HexEvent(event: ExitEvent)

  /** What FormatMessageW answers for the text of an error. */
  datatype MessageResult = Message(text: WStr) | MessageError(code: Win32Error) | NoMessageMemory

  /** What the system answers during one report. */
  datatype Outcome = Outcome(message: MessageResult, memory: bool, result: Win)

  /** The event log as the module meets it: whether it is open, how numbers are printed, and the
      answers to each report in turn. */
  datatype EventLog = EventLog(open: bool, digits: Number -> WStr, outcomes: nat -> Outcome)

  function EventId(r: Report): nat {
    match r
    case StartFailed(_, _, _) => MSG_PROCESS_START_FAILED
    case StartSucceeded(_, _, _, _) => MSG_PROCESS_START_SUCCEEDED
    case ProcessTimedOut(_, _, _, _) => MSG_PROCESS_TIMEDOUT
    case ProcessFailed(_, _, _, _) => MSG_PROCESS_FAILED
    case ProcessSucceeded(_, _, _) => MSG_PROCESS_SUCCEEDED
    case NotifyFailed(_, _, _) => MSG_NOTIFY_FAILED
  }

  /** The event ends with the text of an error. */
  predicate HasMessage(r: Report) {
    r.StartFailed? || r.NotifyFailed?
  }

  function Shown(digits: Number -> WStr, n: Number): WStr {
    ToNul(digits(n))
  }

  function MessageText(m: MessageResult): WStr {
    if m.Message? then ToNul(m.text) else []
  }

  /** The strings of the event, in the order its message text numbers them. */
  function Strings(digits: Number -> WStr, m: MessageResult, r: Report): (s: seq<Option<WStr>>)
    ensures 3 <= |s| <= 4
  {
    match r
    case StartFailed(exe, line, hr) =>
      [Some(exe), line, Some(Shown(digits, Hex(hr))), Some(MessageText(m))]
    case StartSucceeded(exe, line, pid, tid) =>
      [Some(exe), Some(line), Some(Shown(digits, Decimal(pid))), Some(Shown(digits, Decimal(tid)))]
    case ProcessTimedOut(seconds, pid, tid, file) =>
      [Some(Shown(digits, Decimal(seconds))), Some(Shown(digits, Decimal(pid))),
       Some(Shown(digits, Decimal(tid))), Some(file)]
    case ProcessFailed(pid, tid, code, file) =>
      [Some(Shown(digits, Decimal(pid))), Some(Shown(digits, Decimal(tid))),
       Some(Shown(digits, Decimal(code))), Some(file)]
    case ProcessSucceeded(pid, tid, code) =>
      [Some(Shown(digits, Decimal(pid))), Some(Shown(digits, Decimal(tid))),
       Some(Shown(digits, Decimal(code)))]
    case NotifyFailed(event, context, hr) =>
      [Some(Shown(digits, HexEvent(event))), Some(Shown(digits, Hex(context))),
       Some(Shown(digits, Hex(hr))), Some(MessageText(m))]
  }

  /** The `k`-th report gets into the event log. */
  predicate Works(log: EventLog, k: nat, r: Report) {
    var o := log.outcomes(k);
    log.open && o.memory && o.result.Done? && (HasMessage(r) ==> o.message.Message?)
  }

  function RecordFor(log: EventLog, k: nat, r: Report): Record {
    Record(EventId(r), Strings(log.digits, log.outcomes(k).message, r))
  }

  /** What the event log holds after these reports. */
  function Recorded(log: EventLog, reports: seq<Report>): seq<Record> {
    if reports == [] then []
    else
      var k := |reports| - 1;
      Recorded(log, reports[..k]) + if Works(log, k, reports[k]) then [RecordFor(log, k, reports[k])] else []
  }

  lemma RecordedOne(log: EventLog, reports: seq<Report>, r: Report)
    ensures Recorded(log, reports + [r]) ==
      Recorded(log, reports) + if Works(log, |reports|, r) then [RecordFor(log, |reports|, r)] else []
  {
    assert (reports + [r])[..|reports|] == reports;
  }

  /** Every report is in the event log exactly if each of them gets there. */
  lemma {:induction false} AllRecorded(log: EventLog, reports: seq<Report>)
    ensures |Recorded(log, reports)| <= |reports|
    ensures |Recorded(log, reports)| == |reports| <==>
      forall k :: 0 <= k < |reports| ==> Works(log, k, reports[k])
  {
    if reports != [] {
      var k := |reports| - 1;
      var init := reports[..k];
      AllRecorded(log, init);
      assert forall i :: 0 <= i < k ==> init[i] == reports[i];
    }
  }

  function FailureReports(reports: seq<Report>): nat {
    if reports == [] then 0
    else
      var k := |reports| - 1;
      FailureReports(reports[..k]) + if reports[k].NotifyFailed? then 1 else 0
  }

  function FailureRecords(records: seq<Record>): nat {
    if records == [] then 0
    else
      var k := |records| - 1;
      FailureRecords(records[..k]) + if records[k].id == MSG_NOTIFY_FAILED then 1 else 0
  }

  lemma FailureRecordsOne(records: seq<Record>, r: Record)
    ensures FailureRecords(records + [r]) == FailureRecords(records) + if r.id == MSG_NOTIFY_FAILED then 1 else 0
  {
    assert (records + [r])[..|records|] == records;
  }

  /** Each failure report gets into the event log. */
  predicate FailuresWork(log: EventLog, reports: seq<Report>) {
    forall k :: 0 <= k < |reports| && reports[k].NotifyFailed? ==> Works(log, k, reports[k])
  }

  lemma LastReport(log: EventLog, reports: seq<Report>)
    requires reports != []
    ensures var k := |reports| - 1;
            var init, r := reports[..k], reports[k];
            && FailureReports(reports) == FailureReports(init) + (if r.NotifyFailed? then 1 else 0)
            && FailureRecords(Recorded(log, reports)) ==
                 FailureRecords(Recorded(log, init)) + (if r.NotifyFailed? && Works(log, k, r) then 1 else 0)
            && (FailuresWork(log, reports) <==>
                  FailuresWork(log, init) && (r.NotifyFailed? ==> Works(log, k, r)))
  {
    var k := |reports| - 1;
    var init := reports[..k];
    assert forall i :: 0 <= i < k ==> init[i] == reports[i];
    hide Works;
    FailureRecordsOne(Recorded(log, init), RecordFor(log, k, reports[k]));
    assert Recorded(log, init) + [] == Recorded(log, init);
  }

  /** There are at most as many failure records as failure reports, and as many exactly if each of
      these gets into the event log. */
  lemma {:induction false} RecordedFailures(log: EventLog, reports: seq<Report>)
    ensures FailureRecords(Recorded(log, reports)) <= FailureReports(reports)
    ensures FailureRecords(Recorded(log, reports)) == FailureReports(reports) <==> FailuresWork(log, reports)
  {
    if reports != [] {
      hide *;
      RecordedFailures(log, reports[..|reports| - 1]);
      LastReport(log, reports);
    }
  }

  /** The reports among the actions. */
  function Reports(log: seq<Action>): seq<Report> {
    if log == [] then []
    else
      var k := |log| - 1;
      Reports(log[..k]) + if log[k].Reported? then [log[k].report] else []
  }

  lemma ReportsOne(log: seq<Action>, a: Action)
    ensures Reports(log + [a]) == if a.Reported? then Reports(log) + [a.report] else Reports(log)
  {
    assert (log + [a])[..|log|] == log;
  }

  function MessageArg(m: MessageResult): EventArg {
    match m
    case Message(text) => Printed(ToNul(text))
    case MessageError(code) => Unformatted(FromWin32(code))
    case NoMessageMemory => Unformatted(E_OUTOFMEMORY)
  }

  class ExitEventSource {
    const os: Os
    const source: EventSource
    const digits: Number -> WStr
    const outcomes: nat -> Outcome
    var calls: nat

    ghost function Log(): EventLog
      reads source
    {
      EventLog(source.handle.Some?, digits, outcomes)
    }

    /** The event log holds exactly what got into it of the reports made. */
    ghost predicate Valid()
      reads this, os`log, source
    {
      && source.Valid() && calls == |Reports(os.log)|
      && source.records == Recorded(Log(), Reports(os.log))
    }

    constructor (os: Os, source: EventSource, digits: Number -> WStr, outcomes: nat -> Outcome)
      requires os.log == [] && source.Valid() && source.records == []
      ensures Valid()
      ensures this.os == os && this.source == source && this.digits == digits && this.outcomes == outcomes
    {
      this.os, this.source, this.digits, this.outcomes, calls := os, source, digits, outcomes, 0;
    }

    /** Actions that are no reports leave the event log alone. */
    twostate lemma Undisturbed(a: Action)
      requires old(Valid()) && unchanged(this) && unchanged(source)
      requires os.log == old(os.log) || (os.log == old(os.log) + [a] && !a.Reported?)
      ensures Valid()
    {
      ReportsOne(old(os.log), a);
      assert Log() == old(Log());
    }

    /** Passes one event on to the event source; a failure to do so is not reported to the caller. */
    method Send(id: nat, args: seq<EventArg>, ghost r: Report)
      requires Valid() && id == EventId(r)
      requires FormatSeq(source.heap, args, Strings(digits, outcomes(calls).message, r))
      requires AllFormat(args) <==> (HasMessage(r) ==> outcomes(calls).message.Message?)
      requires args != []
      modifies this`calls, source`records, source.heap, os`log
      ensures Valid() && os.log == old(os.log) + [Reported(r)]
      ensures source.heap.live == old(source.heap.live) && fresh(source.heap.freed - old(source.heap.freed))
    {
      hide FormatSeq, Strings, AllFormat, RecordOf, Recorded, Reports, EventId;
      var o := outcomes(calls);
      ghost var texts := Strings(digits, o.message, r);
      RecordedOne(Log(), Reports(os.log), r);
      ReportsOne(os.log, Reported(r));
      assert RecordOf(id, texts) == Record(id, texts) by { WholeRecord(id, texts); }
      var hr := source.ReportEvent(id, args, o.memory, o.result, texts);
      calls := calls + 1;
      os.log := os.log + [Reported(r)];
    }

    method ReportProcessStartFailed(exe: LPCWSTR, line: LPCWSTR, hr: HRESULT,
                                    ghost exeText: WStr, ghost lineText: Option<WStr>)
      requires Valid() && Spells(source.heap, exe, exeText) && MaySpell(source.heap, line, lineText)
      modifies this`calls, source`records, source.heap, os`log
      ensures Valid() && os.log == old(os.log) + [Reported(StartFailed(exeText, lineText, hr))]
      ensures source.heap.live == old(source.heap.live) && fresh(source.heap.freed - old(source.heap.freed))
    {
      hide Spells, ToNul;
      var args := [Text(exe), Text(line), Printed(Shown(digits, Hex(hr))), MessageArg(outcomes(calls).message)];
      assert AllFormat(args) <==> !args[3].Unformatted?;
      Send(MSG_PROCESS_START_FAILED, args, StartFailed(exeText, lineText, hr));
    }

    method ReportProcessStartSucceeded(exe: LPCWSTR, line: LPCWSTR, pid: nat, tid: nat,
                                       ghost exeText: WStr, ghost lineText: WStr)
      requires Valid() && Spells(source.heap, exe, exeText) && Spells(source.heap, line, lineText)
      modifies this`calls, source`records, source.heap, os`log
      ensures Valid() && os.log == old(os.log) + [Reported(StartSucceeded(exeText, lineText, pid, tid))]
      ensures source.heap.live == old(source.heap.live) && fresh(source.heap.freed - old(source.heap.freed))
    {
      hide Spells, ToNul;
      var args := [Text(exe), Text(line), Printed(Shown(digits, Decimal(pid))), Printed(Shown(digits, Decimal(tid)))];
      Send(MSG_PROCESS_START_SUCCEEDED, args, StartSucceeded(exeText, lineText, pid, tid));
    }

    method ReportProcessTimedOut(seconds: nat, pid: nat, tid: nat, file: LPCWSTR, ghost text: WStr)
      requires Valid() && Spells(source.heap, file, text)
      modifies this`calls, source`records, source.heap, os`log
      ensures Valid() && os.log == old(os.log) + [Reported(ProcessTimedOut(seconds, pid, tid, text))]
      ensures source.heap.live == old(source.heap.live) && fresh(source.heap.freed - old(source.heap.freed))
    {
      hide Spells, ToNul;
      var args := [Printed(Shown(digits, Decimal(seconds))), Printed(Shown(digits, Decimal(pid))),
                   Printed(Shown(digits, Decimal(tid))), Text(file)];
      Send(MSG_PROCESS_TIMEDOUT, args, ProcessTimedOut(seconds, pid, tid, text));
    }

    method ReportProcessFailed(pid: nat, tid: nat, code: nat, file: LPCWSTR, ghost text: WStr)
      requires Valid() && Spells(source.heap, file, text)
      modifies this`calls, source`records, source.heap, os`log
      ensures Valid() && os.log == old(os.log) + [Reported(ProcessFailed(pid, tid, code, text))]
      ensures source.heap.live == old(source.heap.live) && fresh(source.heap.freed - old(source.heap.freed))
    {
      hide Spells, ToNul;
      var args := [Printed(Shown(digits, Decimal(pid))), Printed(Shown(digits, Decimal(tid))),
                   Printed(Shown(digits, Decimal(code))), Text(file)];
      Send(MSG_PROCESS_FAILED, args, ProcessFailed(pid, tid, code, text));
    }

    method ReportProcessSucceeded(pid: nat, tid: nat, code: nat)
      requires Valid()
      modifies this`calls, source`records, source.heap, os`log
      ensures Valid() && os.log == old(os.log) + [Reported(ProcessSucceeded(pid, tid, code))]
      ensures source.heap.live == old(source.heap.live) && fresh(source.heap.freed - old(source.heap.freed))
    {
      hide Spells, ToNul;
      var args := [Printed(Shown(digits, Decimal(pid))), Printed(Shown(digits, Decimal(tid))),
                   Printed(Shown(digits, Decimal(code)))];
      Send(MSG_PROCESS_SUCCEEDED, args, ProcessSucceeded(pid, tid, code));
    }

    method ReportNotifyFailedInternalError(event: ExitEvent, context: int, hr: HRESULT)
      requires Valid()
      modifies this`calls, source`records, source.heap, os`log
      ensures Valid() && os.log == old(os.log) + [Reported(NotifyFailed(event, context, hr))]
      ensures source.heap.live == old(source.heap.live) && fresh(source.heap.freed - old(source.heap.freed))
    {
      hide Spells, ToNul;
      var args := [Printed(Shown(digits, HexEvent(event))), Printed(Shown(digits, Hex(context))),
                   Printed(Shown(digits, Hex(hr))), MessageArg(outcomes(calls).message)];
      assert AllFormat(args) <==> !args[3].Unformatted?;
      Send(MSG_NOTIFY_FAILED, args, NotifyFailed(event, context, hr));
    }
  }

  /** No event of the module has more strings than a WORD can count. */
  lemma WholeRecord(id: nat, texts: seq<Option<WStr>>)
    requires |texts| <= 4
    ensures RecordOf(id, texts) == Record(id, texts)
  {}
}
