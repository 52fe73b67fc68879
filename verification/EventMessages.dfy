/** The message file of the event log, and what a reader of the log gets: the kind of each event
    from its id and its fields from the numbered inserts of its message. */
module EventMessages {
  import opened Wide
  import opened Win32
  import opened EventSources
  import opened ExitEventSources

  /** An event as its message tells it. Numbers are the texts they are printed as. */
  datatype Reading =
    | Succeeded(process: WStr, thread: WStr, exitCode: WStr)
    | Failure(process: WStr, thread: WStr, exitCode: WStr, file: Option<WStr>)
    | TimedOut(seconds: WStr, process: WStr, thread: WStr, file: Option<WStr>)
    | ProcessStarted(program: Option<WStr>, line: Option<WStr>, process: WStr, thread: WStr)
    | ProcessNotStarted(program: Option<WStr>, line: Option<WStr>, error: WStr, message: WStr)
    | HandlerFailed(event: WStr, context: WStr, error: WStr, message: WStr)
    | Unreadable

  const INFORMATIONAL: nat := 1
  const WARNING: nat := 2
  const ERROR: nat := 3

  /** An event id: the severity in the highest two bits, facility System, and the message number. */
  function Id(severity: nat, number: nat): nat {
    severity * 0x4000_0000 + number
  }

  /** Insert %i of the message, for an insert that may be missing. */
  function Insert(r: Record, i: nat): Option<WStr> {
    if 1 <= i <= |r.strings| then r.strings[i - 1] else None
  }

  /** The same for one that is always there. */
  function Field(r: Record, i: nat): WStr {
    if Insert(r, i).Some? then Insert(r, i).value else []
  }

  /** By the message file: messages 0x100 to 0x105. */
  function Read(r: Record): Reading {
    if r.id == Id(INFORMATIONAL, 0x100) then Succeeded(Field(r, 1), Field(r, 2), Field(r, 3))
    else if r.id == Id(ERROR, 0x101) then Failure(Field(r, 1), Field(r, 2), Field(r, 3), Insert(r, 4))
    else if r.id == Id(WARNING, 0x102) then TimedOut(Field(r, 1), Field(r, 2), Field(r, 3), Insert(r, 4))
    else if r.id == Id(INFORMATIONAL, 0x103) then ProcessStarted(Insert(r, 1), Insert(r, 2), Field(r, 3), Field(r, 4))
    else if r.id == Id(ERROR, 0x104) then ProcessNotStarted(Insert(r, 1), Insert(r, 2), Field(r, 3), Field(r, 4))
    else if r.id == Id(ERROR, 0x105) then HandlerFailed(Field(r, 1), Field(r, 2), Field(r, 3), Field(r, 4))
    else Unreadable
  }

  function ReadAll(records: seq<Record>): seq<Reading> {
    if records == [] then []
    else ReadAll(records[..|records| - 1]) + [Read(records[|records| - 1])]
  }

  /** What a reader should get of the report, if the system prints numbers with `digits` and says
      `message` of the error. */
  function Told(digits: Number -> WStr, message: WStr, r: Report): Reading {
    match r
    case ProcessSucceeded(pid, tid, code) =>
      Succeeded(ToNul(digits(Decimal(pid))), ToNul(digits(Decimal(tid))), ToNul(digits(Decimal(code))))
    case ProcessFailed(pid, tid, code, file) =>
      Failure(ToNul(digits(Decimal(pid))), ToNul(digits(Decimal(tid))), ToNul(digits(Decimal(code))), Some(file))
    case ProcessTimedOut(seconds, pid, tid, file) =>
      TimedOut(ToNul(digits(Decimal(seconds))), ToNul(digits(Decimal(pid))), ToNul(digits(Decimal(tid))), Some(file))
    case StartSucceeded(exe, line, pid, tid) =>
      ProcessStarted(Some(exe), Some(line), ToNul(digits(Decimal(pid))), ToNul(digits(Decimal(tid))))
    case StartFailed(exe, line, hr) => ProcessNotStarted(Some(exe), line, ToNul(digits(Hex(hr))), ToNul(message))
    case NotifyFailed(event, context, hr) =>
      HandlerFailed(ToNul(digits(HexEvent(event))), ToNul(digits(Hex(context))), ToNul(digits(Hex(hr))), ToNul(message))
  }

  /** How many reports have been made. */
  function Made(log: seq<Action>): nat {
    if log == [] then 0 else Made(log[..|log| - 1]) + if log[|log| - 1].Reported? then 1 else 0
  }

  /** The outcome lets the report into the event log: there is memory, the system takes it, and the
      text of the error is found if the message ends in one. */
  predicate GetsThrough(o: Outcome, r: Report) {
    o.memory && o.result.Done? && (r.StartFailed? || r.NotifyFailed? ==> o.message.Message?)
  }

  /** What a reader should get of all that was reported: of the reports that get through, in their
      order, each with its own outcome. */
  function AllTold(events: EventLog, log: seq<Action>): seq<Reading> {
    if log == [] then []
    else
      var before, a := log[..|log| - 1], log[|log| - 1];
      var o := events.outcomes(Made(before));
      AllTold(events, before)
      + if events.open && a.Reported? && GetsThrough(o, a.report)
        then [Told(events.digits, if o.message.Message? then o.message.text else [], a.report)]
        else []
  }

  lemma ReadOneMore(records: seq<Record>, r: Record)
    ensures ReadAll(records + [r]) == ReadAll(records) + [Read(r)]
  {
    assert (records + [r])[..|records|] == records;
  }

  lemma ReadOne(events: EventLog, k: nat, r: Report)
    ensures var message := events.outcomes(k).message;
            Read(RecordFor(events, k, r)) == Told(events.digits, if message.Message? then message.text else [], r)
  {
    hide ToNul;
    assert ToNul([]) == [] by { NoText(); }
  }

  lemma NoText()
    ensures ToNul([]) == []
  {}

  lemma {:induction false} RecordedRead(events: EventLog, log: seq<Action>)
    ensures |Reports(log)| == Made(log)
    ensures ReadAll(Recorded(events, Reports(log))) == AllTold(events, log)
  {
    if log != [] {
      var before, a := log[..|log| - 1], log[|log| - 1];
      RecordedRead(events, before);
      assert log == before + [a];
      ReportsOne(before, a);
      if a.Reported? {
        var records, k := Recorded(events, Reports(before)), Made(before);
        RecordedOne(events, Reports(before), a.report);
        ReadOneMore(records, RecordFor(events, k, a.report));
        ReadOne(events, k, a.report);
        assert records + [] == records;
      }
    }
  }

  /** What a reader of the event log gets is what was reported, of every report that gets through, in
      order and with all its fields, and nothing else. */
  lemma {:induction false} ReaderLaw(source: ExitEventSource)
    requires source.Valid()
    ensures ReadAll(source.source.records) ==
      AllTold(EventLog(source.source.handle.Some?, source.digits, source.outcomes), source.os.log)
  {
    RecordedRead(source.Log(), source.os.log);
  }
}
