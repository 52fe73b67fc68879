/** The process wrapper: formats the command line through a cursor into a fixed buffer, and owns
    the handles of the process it starts. */
module Processes {
  import opened Wide
  import opened Buffers
  import opened StrSafe
  import opened CommandLine
  import opened Win32

  const MAX_COMMAND_LINE: nat := 32768

  lemma {:induction false} LineNulFree(app: WStr, args: seq<WStr>)
    requires NUL !in app && forall i :: 0 <= i < |args| ==> NUL !in args[i]
    ensures NUL !in Line(app, args)
  {
    if args != [] {
      LineNulFree(app, args[1..]);
      assert Tail(args) == [SPACE] + Quote(args[0]) + Tail(args[1..]);
      assert forall c :: c in Tail(args[1..]) ==> c in Line(app, args[1..]);
    }
  }

  /** What is written before the last arguments of a list is a prefix of the whole line. */
  lemma {:induction false} TailSplit(args: seq<WStr>, k: nat)
    requires k < |args|
    ensures Tail(args[..k + 1]) == Tail(args[..k]) + [SPACE] + Quote(args[k])
    ensures Tail(args[..k + 1]) <= Tail(args)
  {
    if k == 0 {
      assert args[..1] == [args[0]];
      assert Tail([args[0]]) == [SPACE] + Quote(args[0]) + Tail([]);
    } else {
      assert args[..k + 1][1..] == args[1..][..k] && args[..k][1..] == args[1..][..k - 1];
      TailSplit(args[1..], k - 1);
    }
  }

  method HasWhiteSpace(heap: Heap, arg: LPCWSTR, ghost text: WStr) returns (r: bool)
    requires Spells(heap, arg, text)
    ensures r <==> SPACE in text
  {
    var k := 0;
    SpelledAt(heap, arg, text, k);
    while arg.block[arg.off + k] != NUL
      invariant k <= |text| && arg.off + |text| < arg.block.Length
      invariant arg.block[arg.off + k] == NUL <==> k == |text|
      invariant SPACE !in text[..k]
      decreases |text| - k
    {
      SpelledAt(heap, arg, text, k);
      if arg.block[arg.off + k] == SPACE {
        return true;
      }
      assert text[..k + 1] == text[..k] + [text[k]];
      k := k + 1;
      SpelledAt(heap, arg, text, k);
    }
    assert text[..k] == text;
    return false;
  }

  /** Appends one argument at the cursor, quoted if it holds a space. */
  method WriteArgument(heap: Heap, dest: array<WChar>, at: nat, remaining: nat, arg: LPCWSTR,
                       ghost before: WStr, ghost text: WStr)
    returns (hr: HRESULT, at': nat, remaining': nat)
    requires Behind(dest, at, remaining, before) && Fits(before, dest.Length)
    requires Spells(heap, arg, text) && arg.block != dest
    modifies dest
    ensures Behind(dest, at', remaining', before + Quote(text)) && at' < dest.Length && dest[at'] == NUL
    ensures hr == if Fits(before + Quote(text), dest.Length) then S_OK else STRSAFE_E_INSUFFICIENT_BUFFER
  {
    hide Behind, Truncated, IsCString, CText, Spells;
    var escape := HasWhiteSpace(heap, arg, text);
    ghost var start := if escape then before + [DQUOTE] else before;
    assert before + Quote(text) == if escape then start + text + [DQUOTE] else start + text;
    hr, at', remaining' := S_OK, at, remaining;
    var quote := Literal(heap, [DQUOTE]);
    if escape {
      hr, at', remaining' := StringCchCopyEx(heap, dest, at', remaining', quote, before, [DQUOTE]);
      if Failed(hr) {
        OverflowIsFinal(dest, at', remaining', start, before + Quote(text));
        return;
      }
    }
    hr, at', remaining' := StringCchCopyEx(heap, dest, at', remaining', arg, start, text);
    if Failed(hr) {
      OverflowIsFinal(dest, at', remaining', start + text, before + Quote(text));
      return;
    }
    if escape {
      hr, at', remaining' := StringCchCopyEx(heap, dest, at', remaining', quote, start + text, [DQUOTE]);
    }
  }

  /** Everything written before argument `k` and the separator after it begins the whole line. */
  lemma {:induction false} LineSplit(app: WStr, args: seq<WStr>, k: nat)
    requires k < |args|
    ensures Line(app, args[..k]) + [SPACE] + Quote(args[k]) == Line(app, args[..k + 1])
  {
    TailSplit(args, k);
  }

  lemma {:induction false} LinePrefix(app: WStr, args: seq<WStr>, k: nat)
    requires k <= |args|
    ensures Line(app, args[..k]) <= Line(app, args)
    decreases |args| - k
  {
    if k == |args| {
      assert args[..k] == args;
    } else {
      LinePrefix(app, args, k + 1);
      LineSplit(app, args, k);
    }
  }

  lemma LineStart(app: WStr, args: seq<WStr>)
    ensures [] + Quote(app) == Quote(app) == Line(app, args[..0])
  {}

  /** The body of the loop over the arguments: a separator, then argument `i`. If it does not fit,
      what is in the buffer is final. */
  method WriteSeparated(heap: Heap, dest: array<WChar>, at: nat, remaining: nat, arg: LPCWSTR,
                        ghost name: WStr, ghost texts: seq<WStr>, ghost i: nat)
    returns (hr: HRESULT, at': nat, remaining': nat)
    requires i < |texts|
    requires Behind(dest, at, remaining, Line(name, texts[..i])) && Fits(Line(name, texts[..i]), dest.Length)
    requires Spells(heap, arg, texts[i]) && arg.block != dest
    modifies dest
    ensures at' < dest.Length && dest[at'] == NUL
    ensures !Failed(hr) ==>
      && Behind(dest, at', remaining', Line(name, texts[..i + 1]))
      && Fits(Line(name, texts[..i + 1]), dest.Length)
    ensures Failed(hr) ==> Behind(dest, at', remaining', Line(name, texts))
  {
    hide Behind, Truncated, IsCString, CText, Line;
    ghost var before := Line(name, texts[..i]);
    ghost var line := Line(name, texts);
    LineSplit(name, texts, i);
    LinePrefix(name, texts, i + 1);
    var blank := Literal(heap, [SPACE]);
    hr, at', remaining' := StringCchCopyEx(heap, dest, at, remaining, blank, before, [SPACE]);
    if Failed(hr) {
      OverflowIsFinal(dest, at', remaining', before + [SPACE], line);
      return;
    }
    hr, at', remaining' := WriteArgument(heap, dest, at', remaining', arg, before + [SPACE], texts[i]);
    if Failed(hr) {
      OverflowIsFinal(dest, at', remaining', before + [SPACE] + Quote(texts[i]), line);
    }
  }

  lemma SpelledLine(heap: Heap, app: LPCWSTR, args: HeapBuffer<LPCWSTR>, name: WStr, texts: seq<WStr>,
                    dest: array<WChar>)
    requires Spells(heap, app, name) && SpellAll(heap, args, texts, dest)
    ensures NUL !in Line(name, texts)
  {
    assert forall i :: 0 <= i < |texts| ==> Spells(heap, args.p[i], texts[i]);
    LineNulFree(name, texts);
  }

  /** Writes the program name and the arguments. An argument that does not fit ends the writing
      but not in failure; only the program name can make it fail. */
  method FormatCommandLine(heap: Heap, app: LPCWSTR, args: HeapBuffer<LPCWSTR>, dest: array<WChar>,
                           ghost name: WStr, ghost texts: seq<WStr>)
    returns (hr: HRESULT)
    requires dest.Length > 0
    requires Spells(heap, app, name) && app.block != dest
    requires SpellAll(heap, args, texts, dest)
    modifies dest
    ensures Shows(dest, Line(name, texts))
    ensures hr == if Fits(Quote(name), dest.Length) then S_OK else STRSAFE_E_INSUFFICIENT_BUFFER
  {
    hide Truncated, IsCString, CText, Line, ToNul, Quote, Shows;
    var at: nat, remaining: nat := 0, dest.Length;
    SpelledLine(heap, app, args, name, texts, dest);
    LineStart(name, texts);
    BehindNothing(dest);
    hr, at, remaining := WriteArgument(heap, dest, at, remaining, app, [], name);
    if Failed(hr) {
      LinePrefix(name, texts, 0);
      OverflowIsFinal(dest, at, remaining, Quote(name), Line(name, texts));
      BehindShows(dest, at, remaining, Line(name, texts));
      return;
    }
    var i := 0;
    while i < args.length
      invariant 0 <= i <= args.length
      invariant Behind(dest, at, remaining, Line(name, texts[..i])) && at < dest.Length && dest[at] == NUL
      invariant Fits(Line(name, texts[..i]), dest.Length)
      invariant SpellAll(heap, args, texts, dest)
    {
      var hrArg;
      hrArg, at, remaining := WriteSeparated(heap, dest, at, remaining, args.p[i], name, texts, i);
      if Failed(hrArg) {
        BehindShows(dest, at, remaining, Line(name, texts));
        return S_OK;
      }
      i := i + 1;
    }
    assert texts[..i] == texts;
    BehindShows(dest, at, remaining, Line(name, texts));
  }

  /** What `Create` returns, from the room there is and what the system answers. */
  function CreateResult(memory: bool, name: WStr, start: StartResult): HRESULT {
    if !memory then E_OUTOFMEMORY
    else if !Fits(Quote(name), MAX_COMMAND_LINE) then STRSAFE_E_INSUFFICIENT_BUFFER
    else if start.StartError? then FromWin32(start.code)
    else S_OK
  }

  function WaitHr(result: WaitResult): HRESULT {
    match result
    case Signalled => S_OK
    case WaitAbandoned => E_ABORT
    case WaitTimeout => FromWin32(ERROR_TIMEOUT)
    case WaitError(code) => FromWin32(code)
    case WaitOther => E_UNEXPECTED
  }

  class Process {
    const os: Os
    const cmdLine: HeapBuffer<WChar>
    var hProcess: Handle
    var hThread: Handle
    var pid: nat
    var tid: nat

    ghost predicate Valid()
      reads this, os`open, os`objects, os`next, cmdLine, cmdLine.heap
    {
      && os.Valid() && cmdLine.Valid()
      && (hProcess == INVALID_HANDLE_VALUE <==> hThread == INVALID_HANDLE_VALUE)
      && (hProcess != INVALID_HANDLE_VALUE ==>
            hProcess in os.objects && hThread in os.objects && hProcess != hThread)
    }

    /** The handles this object must still close. */
    ghost function Held(): set<Handle>
      reads this
    {
      {hProcess, hThread} - {INVALID_HANDLE_VALUE}
    }

    constructor (os: Os, heap: Heap)
      requires os.Valid()
      ensures Valid() && this.os == os && fresh(cmdLine) && cmdLine.heap == heap && cmdLine.p == null
      ensures hProcess == INVALID_HANDLE_VALUE
    {
      this.os := os;
      cmdLine := new HeapBuffer(heap);
      hProcess, hThread, pid, tid := INVALID_HANDLE_VALUE, INVALID_HANDLE_VALUE, 0, 0;
    }

    /** Allocates the command line buffer and fills it. */
    method WriteLine(app: LPCWSTR, args: HeapBuffer<LPCWSTR>, memory: bool, ghost name: WStr, ghost texts: seq<WStr>)
      returns (hr: HRESULT)
      requires cmdLine.Valid()
      requires Spells(cmdLine.heap, app, name) && app.block != cmdLine.p
      requires SpellAll(cmdLine.heap, args, texts, cmdLine.p)
      requires args as object != cmdLine && (args.p != null ==> args.p !in cmdLine.heap.freed)
      modifies cmdLine, cmdLine.heap
      ensures cmdLine.Valid()
      ensures hr == CreateResult(memory, name, Started(0, 0))
      ensures memory ==> cmdLine.p != null && fresh(cmdLine.p) && Shows(cmdLine.p, Line(name, texts))
      ensures memory ==> cmdLine.p.Length == MAX_COMMAND_LINE
      ensures !memory ==> cmdLine.p == old(cmdLine.p)
      ensures cmdLine.heap.live == old(cmdLine.heap.live) - old(cmdLine.Owned()) + cmdLine.Owned()
      ensures cmdLine.heap.freed == old(cmdLine.heap.freed) + (old(cmdLine.Owned()) - cmdLine.Owned())
    {
      hide Line, Quote, Truncated, CText, IsCString, ToNul;
      var ok := cmdLine.Alloc(MAX_COMMAND_LINE, memory);
      if !ok {
        return E_OUTOFMEMORY;
      }
      hr := FormatCommandLine(cmdLine.heap, app, args, cmdLine.p, name, texts);
    }

    /** Starts a process; one object starts at most one. */
    method Create(app: LPCWSTR, args: HeapBuffer<LPCWSTR>, memory: bool, start: StartResult,
                  ghost name: WStr, ghost texts: seq<WStr>)
      returns (hr: HRESULT)
      requires Valid()
      requires Spells(cmdLine.heap, app, name) && app.block != cmdLine.p
      requires SpellAll(cmdLine.heap, args, texts, cmdLine.p)
      requires args as object != cmdLine && (args.p != null ==> args.p !in cmdLine.heap.freed)
      modifies this, cmdLine, cmdLine.heap, os`objects, os`next, os`log
      ensures Valid()
      ensures old(hProcess) != INVALID_HANDLE_VALUE ==>
        && hr == FromWin32(ERROR_INVALID_OPERATION)
        && hProcess == old(hProcess) && hThread == old(hThread)
        && os.log == old(os.log) && os.objects == old(os.objects) && cmdLine.p == old(cmdLine.p)
      ensures old(hProcess) == INVALID_HANDLE_VALUE ==>
        && hr == CreateResult(memory, name, start)
        && hr == (if !memory then 0x8007_000E - 0x1_0000_0000
                  else if |Quote(name)| >= 32768 then 0x8007_007A - 0x1_0000_0000
                  else if start.StartError? then 0x8007_0000 + start.code - 0x1_0000_0000
                  else 0)
        && os.objects == old(os.objects) + Held() && Held() !! old(os.objects)
        && (Held() == {} <==> Failed(hr))
        && (memory ==> cmdLine.p != null && fresh(cmdLine.p) && Shows(cmdLine.p, Line(name, texts)))
        && (memory ==> cmdLine.p.Length == MAX_COMMAND_LINE)
        && (!memory ==> cmdLine.p == old(cmdLine.p))
        && (hr == S_OK ==> pid == start.pid && tid == start.tid)
      ensures old(hProcess) == INVALID_HANDLE_VALUE && memory && Fits(Quote(name), MAX_COMMAND_LINE) ==>
        os.log == old(os.log) + [Launch(Truncated(Line(name, texts), MAX_COMMAND_LINE))]
      ensures old(hProcess) == INVALID_HANDLE_VALUE && !(memory && Fits(Quote(name), MAX_COMMAND_LINE)) ==>
        os.log == old(os.log)
      ensures cmdLine.heap.live == old(cmdLine.heap.live) - old(cmdLine.Owned()) + cmdLine.Owned()
      ensures cmdLine.heap.freed == old(cmdLine.heap.freed) + (old(cmdLine.Owned()) - cmdLine.Owned())
    {
      hide Line, Quote, Truncated, CText, IsCString, ToNul, SpellAll;
      if hProcess != INVALID_HANDLE_VALUE {
        return FromWin32(ERROR_INVALID_OPERATION);
      }
      hr := WriteLine(app, args, memory, name, texts);
      if Failed(hr) {
        return;
      }
      var ok, hp, ht := os.CreateProcess(cmdLine.heap, Ptr(cmdLine.p, 0), start,
                                         Truncated(Line(name, texts), MAX_COMMAND_LINE));
      if !ok {
        return FromWin32(start.code);
      }
      hProcess, hThread, pid, tid := hp, ht, start.pid, start.tid;
    }

    /** Nothing that others allocate and release disturbs the object. */
    twostate lemma StaysValid()
      requires old(Valid()) && unchanged(this) && unchanged(cmdLine)
      requires os.open == old(os.open) && os.objects == old(os.objects) && os.next == old(os.next)
      requires old(cmdLine.heap.live) <= cmdLine.heap.live
      requires fresh(cmdLine.heap.freed - old(cmdLine.heap.freed))
      ensures Valid()
    {}

    function GetCommandLine(): (p: LPCWSTR)
      reads this, cmdLine
    {
      if cmdLine.p == null then Null else Ptr(cmdLine.p, 0)
    }

    method Wait(result: WaitResult, ghost others: FileChange) returns (hr: HRESULT)
      requires Valid() && hProcess != INVALID_HANDLE_VALUE
      modifies os`files
      ensures Valid()
      ensures hr == WaitHr(result) && os.files == Changed(old(os.files), others)
      ensures match result
        case Signalled => hr == 0
        case WaitAbandoned => hr == 0x8000_4004 - 0x1_0000_0000
        case WaitTimeout => hr == 0x8007_05B4 - 0x1_0000_0000
        case WaitError(code) => hr == 0x8007_0000 + code - 0x1_0000_0000
        case WaitOther => hr == 0x8000_FFFF - 0x1_0000_0000
    {
      os.WaitForSingleObject(hProcess, others);
      match result {
        case Signalled => return S_OK;
        case WaitAbandoned => return E_ABORT;
        case WaitTimeout => return FromWin32(ERROR_TIMEOUT);
        case WaitError(code) => return FromWin32(code);
        case WaitOther => return E_UNEXPECTED;
      }
    }

    method GetExitCode(result: ExitResult) returns (hr: HRESULT, code: nat)
      requires Valid() && hProcess != INVALID_HANDLE_VALUE
      ensures result.ExitCode? ==> hr == S_OK && code == result.value
      ensures result.ExitError? ==> hr == FromWin32(result.code) && code == 0
    {
      match result
      case ExitCode(value) => return S_OK, value;
      case ExitError(e) => return FromWin32(e), 0;
    }

    /** The destructor: closes both handles and releases the command line. */
    method Destroy()
      requires Valid()
      modifies this, cmdLine, cmdLine.heap, os`open, os`objects
      ensures os.Valid()
      ensures os.objects == old(os.objects) - old(Held())
      ensures os.open == old(os.open)
      ensures cmdLine.heap.live == old(cmdLine.heap.live) - old(cmdLine.Owned())
      ensures cmdLine.heap.freed == old(cmdLine.heap.freed) + old(cmdLine.Owned())
    {
      if hProcess != INVALID_HANDLE_VALUE {
        os.CloseHandle(hProcess);
      }
      if hThread != INVALID_HANDLE_VALUE {
        os.CloseHandle(hThread);
      }
      cmdLine.Clear();
    }
  }
}
