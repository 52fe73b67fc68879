/** The event source: a registration with the Windows event log, and records whose strings are
    formatted one by one. */
module EventSources {
  import opened Wide
  import opened Buffers
  import opened Win32

  /** An event argument: a string, which is passed on as it is even if it is null; a value as it is
      printed; or one that cannot be formatted. */
  datatype EventArg = Text(p: LPCWSTR) | Printed(text: WStr) | Unformatted(hr: HRESULT)

  datatype Record = Record(id: nat, strings: seq<Option<WStr>>)

  /** What formatting the argument gives, unless it fails. */
  ghost predicate Formats(heap: Heap, arg: EventArg, text: Option<WStr>)
    reads heap`freed, if arg.Text? && arg.p.Ptr? then {arg.p.block} else {}
  {
    match arg
    case Text(p) => MaySpell(heap, p, text)
    case Printed(t) => text == Some(t) && NUL !in t
    case Unformatted(hr) => Failed(hr)
  }

  ghost predicate FormatSeq(heap: Heap, args: seq<EventArg>, texts: seq<Option<WStr>>)
    reads heap`freed, set i | 0 <= i < |args| && args[i].Text? && args[i].p.Ptr? :: args[i].p.block
  {
    |args| == |texts| && forall i :: 0 <= i < |args| ==> Formats(heap, args[i], texts[i])
  }

  predicate AllFormat(args: seq<EventArg>) {
    forall i :: 0 <= i < |args| ==> !args[i].Unformatted?
  }

  /** How many of `n` strings a record gets: the count is passed as a WORD. */
  function WordCount(n: nat): (count: nat)
    ensures count <= n
    ensures count == n <==> n < 0x1_0000
  {
    n % 0x1_0000
  }

  /** The record for strings that have been formatted. */
  function RecordOf(id: nat, texts: seq<Option<WStr>>): (r: Record)
    ensures r.strings == texts <==> |texts| < 0x1_0000
  {
    Record(id, texts[..WordCount(|texts|)])
  }

  class EventSource {
    const heap: Heap
    var handle: Option<nat>
    ghost var registered: set<nat>
    ghost var records: seq<Record>
    var next: nat

    /** At most the registration held is open. */
    ghost predicate Valid()
      reads this
    {
      registered == (if handle.Some? then {handle.value} else {}) && (handle.Some? ==> handle.value < next)
    }

    constructor (heap: Heap)
      ensures Valid() && this.heap == heap && handle.None? && records == []
    {
      this.heap := heap;
      handle, registered, records, next := None, {}, [], 0;
    }

    /** Opening again gives up the registration held before. */
    method Open(result: Win) returns (hr: HRESULT)
      requires Valid()
      modifies this`handle, this`registered, this`next
      ensures Valid() && records == old(records)
      ensures hr == (if result.Done? then S_OK else FromWin32(result.code)) && handle.Some? == result.Done?
      ensures registered !! old(registered)
    {
      hr := S_OK;
      Close();
      if result.Done? {
        handle := Some(next);
        registered := registered + {next};
        next := next + 1;
      } else {
        hr := FromWin32(result.code);
      }
    }

    /** Also the destructor. */
    method Close()
      requires Valid()
      modifies this`handle, this`registered
      ensures Valid() && handle.None? && registered == {}
    {
      if handle.Some? {
        registered := registered - {handle.value};
        handle := None;
      }
    }

    /** Passes formatted strings on to the event log; how many there are is cast to a WORD. */
    method ReportStrings(id: nat, strings: HeapBuffer<LPCWSTR>, result: Win, ghost texts: seq<Option<WStr>>)
      returns (hr: HRESULT)
      requires strings.length == |texts| && (texts != [] ==> strings.p != null && strings.p.Length == |texts|)
      requires forall i :: 0 <= i < |texts| ==> MaySpell(heap, strings.p[i], texts[i])
      modifies this`records
      ensures hr == if handle.None? then FromWin32(ERROR_INVALID_OPERATION)
                    else if result.Error? then FromWin32(result.code)
                    else S_OK
      ensures records ==
        if hr == S_OK then old(records) + [Record(id, texts[..|texts| % 0x1_0000])] else old(records)
    {
      if handle.None? {
        return FromWin32(ERROR_INVALID_OPERATION);
      }
      if result.Error? {
        return FromWin32(result.code);
      }
      var count := strings.length % 0x1_0000;
      records := records + [Record(id, texts[..count])];
      hr := S_OK;
    }

    /** Formats the arguments in order and reports them: one record, or nothing and an error. The
        record holds all the strings exactly if they are fewer than a WORD can count. */
    method ReportEvent(id: nat, args: seq<EventArg>, memory: bool, result: Win, ghost texts: seq<Option<WStr>>)
      returns (hr: HRESULT)
      requires Valid() && FormatSeq(heap, args, texts)
      modifies heap, this`records
      ensures hr == S_OK <==> (args == [] || memory) && AllFormat(args) && handle.Some? && result.Done?
      ensures hr != S_OK ==> Failed(hr) && records == old(records)
      ensures hr == S_OK ==> records == old(records) + [RecordOf(id, texts)]
      ensures hr == S_OK ==> (records == old(records) + [Record(id, texts)] <==> |args| < 0x1_0000)
      ensures heap.live == old(heap.live) && fresh(heap.freed - old(heap.freed))
    {
      var strings := new HeapBuffer<LPCWSTR>(heap);
      hr := ReportWith(strings, id, args, memory, result, texts);
      strings.Clear();
      if hr == S_OK {
        ghost var last := |records| - 1;
        assert records[last] == RecordOf(id, texts);
        assert (old(records) + [Record(id, texts)])[last] == Record(id, texts);
      }
    }

    method ReportWith(strings: HeapBuffer<LPCWSTR>, id: nat, args: seq<EventArg>, memory: bool, result: Win,
                      ghost texts: seq<Option<WStr>>)
      returns (hr: HRESULT)
      requires Valid() && FormatSeq(heap, args, texts)
      requires strings.heap == heap && strings.Valid() && strings.p == null
      modifies strings, heap, this`records
      ensures strings.Valid()
      ensures hr == S_OK <==> (args == [] || memory) && AllFormat(args) && handle.Some? && result.Done?
      ensures hr != S_OK ==> Failed(hr) && records == old(records)
      ensures hr == S_OK ==> records == old(records) + [RecordOf(id, texts)]
      ensures heap.live == old(heap.live) + strings.Owned() && fresh(strings.Owned())
      ensures heap.freed == old(heap.freed)
    {
      hide Spells, CText, IsCString, ToNul, FormatSeq;
      if |args| > 0 {
        var ok := strings.Alloc(|args|, memory);
        if !ok {
          return E_OUTOFMEMORY;
        }
        assert heap.freed == old(heap.freed);
        hr := FormatAll(strings.p, args, texts);
        if Failed(hr) {
          return;
        }
      }
      assert |args| == |texts| by { FormatLength(heap, args, texts); }
      hr := ReportStrings(id, strings, result, texts);
    }

    /** Fills one slot after the other, and stops at the first argument that fails to format. */
    method FormatAll(slots: array<LPCWSTR>, args: seq<EventArg>, ghost texts: seq<Option<WStr>>)
      returns (hr: HRESULT)
      requires FormatSeq(heap, args, texts) && slots.Length == |args|
      modifies slots
      ensures Failed(hr) <==> !AllFormat(args)
      ensures Failed(hr) || hr == S_OK
      ensures AllFormat(args) ==> forall i :: 0 <= i < |args| ==> MaySpell(heap, slots[i], texts[i])
    {
      hide Spells;
      hr := S_OK;
      for i := 0 to |args|
        invariant forall j :: 0 <= j < i ==> !args[j].Unformatted? && MaySpell(heap, slots[j], texts[j])
      {
        assert Formats(heap, args[i], texts[i]);
        match args[i] {
          case Text(p) => slots[i] := p;
          case Printed(text) => slots[i] := Literal(heap, text);
          case Unformatted(e) => return e;
        }
      }
    }
  }

  lemma FormatLength(heap: Heap, args: seq<EventArg>, texts: seq<Option<WStr>>)
    requires FormatSeq(heap, args, texts)
    ensures |args| == |texts|
  {}
}
