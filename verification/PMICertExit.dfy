/** The exit module object: dispatches the certificate server's notifications and turns every
    failure into an event, never into a result. */
module CertExits {
  import opened Wide
  import opened Buffers
  import opened StrSafe
  import opened Win32
  import opened Configs
  import opened Lifecycle
  import opened EventProcessors
  import opened Notifications
  import opened ExitEventSources

  /** A BSTR: its characters, which may include NULs, and a final NUL. */
  method Bstr(heap: Heap, chars: WStr) returns (p: LPCWSTR)
    ensures p.Ptr? && fresh(p.block) && Spells(heap, p, ToNul(chars))
  {
    var block := new WChar[|chars| + 1](i requires 0 <= i <= |chars| => if i < |chars| then chars[i] else NUL);
    p := Ptr(block, 0);
    ghost var n := |ToNul(chars)|;
    assert block[..|chars|] == chars;
    assert block[p.off..] == block[..] && block[..][..n] == chars[..n] && block[..][n] == NUL;
    assert block[..][|chars|] == NUL;
    ToNulIs(block[..], n);
  }

  /** CHeapWString::Copy: a null BSTR clears the string; otherwise it is copied up to its first NUL,
      into a buffer that is never too small. Without memory the string stays what it was. */
  method CopyBstr(dest: HeapBuffer<WChar>, bstr: Option<WStr>, memory: bool) returns (hr: HRESULT)
    requires dest.Valid()
    modifies dest, dest.heap
    ensures dest.Valid()
    ensures hr == if bstr.None? || memory then S_OK else E_OUTOFMEMORY
    ensures bstr.None? ==> dest.p == null
    ensures bstr.Some? && memory ==>
      && dest.p != null && fresh(dest.p) && dest.p.Length == |bstr.value| + 1
      && Spells(dest.heap, Ptr(dest.p, 0), ToNul(bstr.value))
    ensures bstr.Some? && !memory ==> dest.p == old(dest.p) && dest.length == old(dest.length)
    ensures dest.heap.live == old(dest.heap.live) - old(dest.Owned()) + dest.Owned()
    ensures dest.heap.freed == old(dest.heap.freed) + if bstr.None? || memory then old(dest.Owned()) else {}
  {
    hide CText, IsCString, ToNul, Behind, Truncated;
    hr := S_OK;
    if bstr.Some? {
      var ok := dest.Alloc(|bstr.value| + 1, memory);
      if !ok {
        return E_OUTOFMEMORY;
      }
      var src := Bstr(dest.heap, bstr.value);
      ghost var text := ToNul(bstr.value);
      hr := StringCchCopy(dest.heap, dest.p, src, text);
      ShownWhole(dest.p, text);
    } else {
      dest.Clear();
    }
  }

  /** CopyMemory of the certificate's bytes into a buffer of their size. */
  method CopyRaw(dest: HeapBuffer<bv8>, bytes: Bytes, memory: bool) returns (hr: HRESULT)
    requires dest.Valid()
    modifies dest, dest.heap
    ensures dest.Valid()
    ensures hr == if memory then S_OK else E_OUTOFMEMORY
    ensures memory ==> dest.p != null && fresh(dest.p) && dest.p[..] == bytes && dest.length == |bytes|
    ensures !memory ==> dest.p == old(dest.p) && dest.length == old(dest.length)
    ensures dest.heap.live == old(dest.heap.live) - old(dest.Owned()) + dest.Owned()
    ensures dest.heap.freed == old(dest.heap.freed) + if memory then old(dest.Owned()) else {}
  {
    var ok := dest.Alloc(|bytes|, memory);
    if !ok {
      return E_OUTOFMEMORY;
    }
    forall i | 0 <= i < |bytes| {
      dest.p[i] := bytes[i];
    }
    hr := S_OK;
  }

  class CertExit {
    const os: Os
    const heap: Heap
    const events: ExitEventSource

    constructor (os: Os, heap: Heap, events: ExitEventSource)
      requires events.os == os && events.source.heap == heap
      ensures this.os == os && this.heap == heap && this.events == events && Wired()
    {
      this.os, this.heap, this.events := os, heap, events;
    }

    /** The event source works on the same system and heap. */
    ghost predicate Wired() {
      events.os == os && events.source.heap == heap
    }

    /** Whatever happens, Notify succeeds; a failure of the handler becomes one event. Everything
        allocated or opened on the way has been released. */
    method Notify(n: Notification) returns (hr: HRESULT)
      requires Wired() && events.Valid() && os.Valid() && NotifyLaw(os.files, n)
      modifies heap, os
      modifies events`calls, events.source`records
      ensures events.Valid()
      ensures hr == S_OK
      ensures os.Valid() && os.open == old(os.open) && os.objects == old(os.objects)
      ensures os.files == NotifyFiles(old(os.files), n)
      ensures os.log == old(os.log) + NotifyActions(n)
      ensures heap.live == old(heap.live) && fresh(heap.freed - old(heap.freed))
    {
      hide ExitEventSource.Valid, Os.Valid, NotifyFiles, HandlerActions, NotifyLaw, HandlerHr;
      HandlerKinds(os.files, n);
      hr := S_OK;
      match n.event {
        case CertIssued => hr := NotifyCertIssued(n);
        case CrlIssued => hr := n.server.init;
        case CertPending =>
        case CertDenied =>
        case CertRevoked =>
        case CertRetrievePending =>
        case Shutdown =>
        case CertImported =>
        case Unknown(_) =>
      }
      if Failed(hr) {
        events.ReportNotifyFailedInternalError(n.event, n.context, hr);
        hr := S_OK;
      }
    }

    method NotifyCertIssued(n: Notification) returns (hr: HRESULT)
      requires Wired() && events.Valid() && os.Valid() && NotifyLaw(os.files, n) && n.event == CertIssued
      modifies heap, os
      modifies events`calls, events.source`records
      ensures events.Valid()
      ensures hr == HandlerHr(n)
      ensures os.Valid() && os.open == old(os.open) && os.objects == old(os.objects)
      ensures os.files == NotifyFiles(old(os.files), n)
      ensures os.log == old(os.log) + HandlerActions(n)
      ensures heap.live == old(heap.live) && fresh(heap.freed - old(heap.freed))
    {
      hide ExitEventSource.Valid, Os.Valid;
      if Failed(n.server.init) {
        return n.server.init;
      }
      hide NotifyFiles, HandlerActions, NotifyLaw, FetchHr, LoadHr, EndHr, Processed, HandlerHr;
      var buf := new HeapBuffer<bv8>(heap);
      hr := IssueFor(buf, n);
      buf.Clear();
    }

    method IssueFor(buf: HeapBuffer<bv8>, n: Notification) returns (hr: HRESULT)
      requires Wired() && events.Valid() && os.Valid() && NotifyLaw(os.files, n)
      requires n.event == CertIssued && !Failed(n.server.init)
      requires buf.heap == heap && buf.Valid() && buf.p == null
      modifies buf, heap, os
      modifies events`calls, events.source`records
      ensures events.Valid()
      ensures buf.Valid() && hr == HandlerHr(n)
      ensures os.Valid() && os.open == old(os.open) && os.objects == old(os.objects)
      ensures os.files == NotifyFiles(old(os.files), n)
      ensures os.log == old(os.log) + HandlerActions(n)
      ensures heap.live == old(heap.live) + buf.Owned() && fresh(buf.Owned()) && fresh(heap.freed - old(heap.freed))
    {
      hide ExitEventSource.Valid, Os.Valid, NotifyFiles, HandlerActions, NotifyLaw, FetchHr, LoadHr, EndHr, Processed,
        HandlerHr;
      var ski := new HeapBuffer<WChar>(heap);
      var serial := new HeapBuffer<WChar>(heap);
      hr := IssueWith(buf, ski, serial, n);
      ClearBoth(serial, ski);
    }

    method IssueWith(buf: HeapBuffer<bv8>, ski: HeapBuffer<WChar>, serial: HeapBuffer<WChar>, n: Notification)
      returns (hr: HRESULT)
      requires Wired() && events.Valid() && os.Valid() && NotifyLaw(os.files, n)
      requires n.event == CertIssued && !Failed(n.server.init)
      requires buf.heap == heap && buf.Valid() && buf.p == null
      requires ski.heap == heap && ski.Valid() && ski.p == null
      requires serial.heap == heap && serial.Valid() && serial.p == null && ski != serial
      requires buf as object != ski && buf as object != serial
      modifies buf, ski, serial, heap, os
      modifies events`calls, events.source`records
      ensures events.Valid()
      ensures buf.Valid() && ski.Valid() && serial.Valid() && buf.Owned() !! ski.Owned() !! serial.Owned()
      ensures hr == HandlerHr(n)
      ensures os.Valid() && os.open == old(os.open) && os.objects == old(os.objects)
      ensures os.files == NotifyFiles(old(os.files), n)
      ensures os.log == old(os.log) + HandlerActions(n)
      ensures heap.live == old(heap.live) + buf.Owned() + ski.Owned() + serial.Owned()
      ensures fresh(buf.Owned()) && fresh(ski.Owned()) && fresh(serial.Owned())
      ensures fresh(heap.freed - old(heap.freed))
    {
      hide ExitEventSource.Valid, Os.Valid;
      hr := Fetch(buf, ski, serial, n.server);
      if Failed(hr) {
        return;
      }
      var skiText := if ski.p == null then Null else Ptr(ski.p, 0);
      var serialText := if serial.p == null then Null else Ptr(serial.p, 0);
      hr := Process(buf, skiText, serialText, n);
    }

    /** Fetches the properties of the certificate. */
    method Fetch(buf: HeapBuffer<bv8>, ski: HeapBuffer<WChar>, serial: HeapBuffer<WChar>, s: Server)
      returns (hr: HRESULT)
      requires ServerLaw(s) && !Failed(s.init)
      requires buf.heap == heap && buf.Valid() && buf.p == null
      requires ski.heap == heap && ski.Valid() && ski.p == null
      requires serial.heap == heap && serial.Valid() && serial.p == null && ski != serial
      requires buf as object != ski && buf as object != serial
      modifies buf, ski, serial, heap
      ensures buf.Valid() && ski.Valid() && serial.Valid() && buf.Owned() !! ski.Owned() !! serial.Owned()
      ensures hr == FetchHr(s)
      ensures !Failed(hr) && Present(s) ==>
        && ski.p != null && Spells(heap, Ptr(ski.p, 0), CertificateOf(s).ski)
        && serial.p != null && Spells(heap, Ptr(serial.p, 0), CertificateOf(s).serial)
      ensures !Failed(hr) ==>
        && s.ski.Text? && s.serial.Text? && s.raw.Raw? && buf.p != null && buf.p[..] == s.raw.bytes
        && (s.ski.bstr.Some? ==> ski.p != null && Spells(heap, Ptr(ski.p, 0), ToNul(s.ski.bstr.value)))
        && (s.serial.bstr.Some? ==> serial.p != null && Spells(heap, Ptr(serial.p, 0), ToNul(s.serial.bstr.value)))
      ensures !Failed(hr) ==>
        && (s.ski.bstr.None? ==> ski.p == null) && (s.serial.bstr.None? ==> serial.p == null)
        && buf.p != null && buf.p[..] == CertificateOf(s).raw && buf.length < 0x1_0000_0000
      ensures heap.live == old(heap.live) + buf.Owned() + ski.Owned() + serial.Owned() && heap.freed == old(heap.freed)
      ensures fresh(buf.Owned()) && fresh(ski.Owned()) && fresh(serial.Owned())
    {
      hide Spells;
      if s.ski.TextError? {
        return s.ski.hr;
      }
      hr := CopyBstr(ski, s.ski.bstr, s.ski.textMemory);
      if Failed(hr) {
        return;
      }
      if s.serial.TextError? {
        return s.serial.hr;
      }
      hr := CopyBstr(serial, s.serial.bstr, s.serial.textMemory);
      if Failed(hr) {
        return;
      }
      if s.raw.RawError? {
        return s.raw.hr;
      }
      hr := CopyRaw(buf, s.raw.bytes, s.raw.rawMemory);
    }

    /** Loads the settings into a new event processor and lets it process the certificate. */
    method Process(buf: HeapBuffer<bv8>, ski: LPCWSTR, serial: LPCWSTR, n: Notification) returns (hr: HRESULT)
      requires Wired() && events.Valid() && os.Valid() && NotifyLaw(os.files, n)
      requires n.event == CertIssued && !Failed(FetchHr(n.server))
      requires Present(n.server) ==>
        && Spells(heap, ski, CertificateOf(n.server).ski)
        && Spells(heap, serial, CertificateOf(n.server).serial)
      requires buf.heap == heap && buf.Valid() && buf.p != null
      requires buf.p[..] == CertificateOf(n.server).raw && buf.length < 0x1_0000_0000
      modifies heap, os
      modifies events`calls, events.source`records
      ensures events.Valid()
      ensures hr == HandlerHr(n)
      ensures os.Valid() && os.open == old(os.open) && os.objects == old(os.objects)
      ensures os.files == NotifyFiles(old(os.files), n)
      ensures os.log == old(os.log) + HandlerActions(n)
      ensures heap.live == old(heap.live) && fresh(heap.freed - old(heap.freed))
    {
      hide ExitEventSource.Valid, Os.Valid, Spells, EventProcessorConfig.Holds, EventProcessorConfig.Valid,
        EventProcessorConfig.Owned, EventProcessorConfig.New, FilesAfter, Actions, EndHr, Ending, FetchHr, LoadHr,
        EnvLaw, RegistryLaw, ServerLaw, Terminated, Present, NotifyLaw, HandlerHr, HandlerActions, NotifyFiles,
        LoadedConfig, CertificateOf;
      FetchedKinds(os.files, n);
      var processor := new EventProcessor(os, heap, events);
      var config := processor.config;
      hr := processor.Init(n.registry);
      label Loaded:
      if !Failed(hr) {
        hr := processor.NotifyCertIssued(ski, serial, buf, n.env, LoadedConfig(n.registry), CertificateOf(n.server));
      }
      config.StaysValid@Loaded();
      config.Destroy();
    }
  }
}
