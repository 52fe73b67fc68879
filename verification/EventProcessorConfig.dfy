/** The registry settings of the exit module, read anew for each certificate. */
module Configs {
  import opened Wide
  import opened Buffers
  import opened MultiSz

  const REG_VALUE_BUFFER: nat := 1024

  datatype SzResult = Sz(isString: bool, data: WStr) | SzError(code: Win32Error)
  datatype DwordResult = Dword(value: nat) | DwordError(code: Win32Error)
  datatype MultiResult = Multi(data: WStr) | MultiError(code: Win32Error)

  /** What the registry and the memory manager answer to one `Init`. */
  datatype Registry = Registry(
    open: Win,
    exeMemory: bool,
    exe: SzResult,
    escape: DwordResult,
    dataMemory: bool,
    args: MultiResult,
    slotMemory: bool)

  /** What the registry functions promise: data that fits the buffer offered, and multi-strings with
      the final empty string. */
  predicate RegistryLaw(reg: Registry) {
    && (reg.exe.Sz? ==> |reg.exe.data| <= REG_VALUE_BUFFER)
    && (reg.args.Multi? ==> |reg.args.data| <= REG_VALUE_BUFFER && DoubleNul(reg.args.data))
  }

  /** The program name was stored with its NUL; a query for a value of any type does not see to it. */
  predicate Terminated(reg: Registry) {
    reg.exe.Sz? && reg.exe.isString ==> NUL in reg.exe.data
  }

  /** The settings; there is no program before a successful load. */
  datatype Config = Config(exe: Option<WStr>, args: seq<WStr>, escape: bool)

  const NOT_LOADED: Config := Config(None, [], false)

  function LoadHr(reg: Registry): (hr: HRESULT)
    ensures Failed(hr) || hr == S_OK
  {
    if reg.open.Error? then FromWin32(reg.open.code)
    else if !reg.exeMemory then E_OUTOFMEMORY
    else if reg.exe.SzError? then FromWin32(reg.exe.code)
    else if !reg.exe.isString then E_UNEXPECTED
    else if !reg.dataMemory then E_OUTOFMEMORY
    else if reg.args.Multi? && !reg.slotMemory then E_OUTOFMEMORY
    else S_OK
  }

  function LoadedConfig(reg: Registry): Config
    requires !Failed(LoadHr(reg))
  {
    Config(
      Some(ToNul(reg.exe.data)),
      if reg.args.Multi? then Parse(reg.args.data) else [],
      reg.escape.Dword? && reg.escape.value != 0)
  }

  /** A registry query copies its data to the start of the buffer. */
  method QueryInto(dest: array<WChar>, data: WStr)
    requires |data| <= dest.Length
    modifies dest
    ensures data <= dest[..]
  {
    forall i | 0 <= i < |data| {
      dest[i] := data[i];
    }
  }

  /** A string that ends inside the data is the one a pointer into the buffer reads. */
  lemma {:induction false} PrefixText(data: WStr, buf: array<WChar>, at: nat)
    requires data <= buf[..] && at <= |data| && NUL in data[at..]
    ensures IsCString(Ptr(buf, at)) && CText(Ptr(buf, at)) == ToNul(data[at..])
  {
    var t := ToNul(data[at..]);
    var rest := buf[at..];
    assert |t| < |data[at..]| by {
      assert t != data[at..];
    }
    assert rest == buf[..][at..];
    assert rest[..|t|] == data[at..][..|t|] == t && rest[|t|] == data[at..][|t|];
    ToNulIs(rest, |t|);
  }

  class EventProcessorConfig {
    const heap: Heap
    const exePath: HeapBuffer<WChar>
    const argData: HeapBuffer<WChar>
    const arguments: HeapBuffer<LPCWSTR>
    var escapeForPS: bool

    ghost predicate Valid()
      reads this, heap, exePath, argData, arguments
    {
      && exePath.heap == argData.heap == arguments.heap == heap
      && exePath != argData
      && exePath.Valid() && argData.Valid() && arguments.Valid()
      && exePath.Owned() !! ArgumentBlocks() && argData.Owned() !! arguments.Owned()
    }

    ghost function Owned(): set<object>
      reads this, exePath, argData, arguments
    {
      exePath.Owned() + ArgumentBlocks()
    }

    lemma OwnsLive()
      requires Valid()
      ensures exePath.Owned() <= heap.live && ArgumentBlocks() <= heap.live && Owned() <= heap.live
    {}

    ghost function ArgumentBlocks(): set<object>
      reads argData, arguments
    {
      argData.Owned() + arguments.Owned()
    }

    /** The object holds the settings `cfg`: its pointers may be followed and spell them, and every
        argument lies in its own data buffer. */
    ghost predicate Holds(cfg: Config)
      reads this, heap`freed, exePath, exePath.p, argData, argData.p, arguments, arguments.p
    {
      ExeHolds(cfg.exe) && ArgumentsHold(cfg.args) && escapeForPS == cfg.escape
    }

    ghost predicate ExeHolds(exe: Option<WStr>)
      reads this, heap`freed, exePath, exePath.p
    {
      && (exe.None? ==> exePath.p == null)
      && (exe.Some? ==>
            exePath.p != null && exePath.p.Length == REG_VALUE_BUFFER
            && |exe.value| < REG_VALUE_BUFFER && Spells(heap, Ptr(exePath.p, 0), exe.value))
    }

    lemma HeldPointers(cfg: Config)
      requires Holds(cfg)
      ensures SpellSeq(heap, if arguments.p == null then [] else arguments.p[..], cfg.args)
      ensures if arguments.p == null then arguments.length == 0 else arguments.p.Length == arguments.length
    {
      hide Spells;
    }

    twostate lemma ExeStays(exe: Option<WStr>)
      requires old(ExeHolds(exe)) && unchanged(exePath) && (exePath.p != null ==> unchanged(exePath.p)) && Valid()
      ensures ExeHolds(exe)
    {}

    /** Nothing has been loaded yet. */
    ghost predicate New()
      reads this, exePath, argData, arguments
    {
      exePath.p == null && argData.p == null && arguments.p == null && arguments.length == 0 && !escapeForPS
    }

    lemma NewOwnsNothing()
      requires New()
      ensures Owned() == {} && arguments.length == 0 && !escapeForPS
    {}

    ghost predicate ArgumentsHold(args: seq<WStr>)
      reads this, heap`freed, argData, argData.p, arguments, arguments.p
    {
      && |args| == arguments.length
      && (if arguments.p == null then args == [] else arguments.p.Length == |args|)
      && (args != [] ==> argData.p != null)
      && (forall i :: 0 <= i < |args| ==>
            arguments.p[i].Ptr? && arguments.p[i].block == argData.p && Spells(heap, arguments.p[i], args[i]))
    }

    constructor (heap: Heap)
      ensures this.heap == heap && Valid() && Holds(NOT_LOADED)
      ensures fresh(exePath) && fresh(argData) && fresh(arguments)
      ensures New()
    {
      this.heap := heap;
      exePath := new HeapBuffer(heap);
      argData := new HeapBuffer(heap);
      arguments := new HeapBuffer(heap);
      escapeForPS := false;
    }

    /** Nothing that others allocate and release disturbs the object. */
    twostate lemma StaysValid()
      requires old(Valid()) && unchanged(this) && unchanged(exePath) && unchanged(argData) && unchanged(arguments)
      requires old(heap.live) <= heap.live && fresh(heap.freed - old(heap.freed))
      ensures Valid() && Owned() == old(Owned())
    {}

    function GetExePath(): (p: LPCWSTR)
      reads this, exePath
    {
      if exePath.p == null then Null else Ptr(exePath.p, 0)
    }

    /** Loads the settings. On an object that held some already, what is optional and missing stays as
        it was, so that the arguments then point into a buffer that has been replaced. */
    method Init(reg: Registry) returns (hr: HRESULT)
      requires RegistryLaw(reg) && Valid()
      modifies this, heap, exePath, argData, arguments
      ensures Valid()
      ensures hr == LoadHr(reg)
      ensures hr == 0 <==>
        && reg.open.Done? && reg.exeMemory && reg.exe.Sz? && reg.exe.isString && reg.dataMemory
        && (reg.args.Multi? ==> reg.slotMemory)
      ensures hr != 0 ==> hr < 0
      ensures hr == 0 ==>
        LoadedConfig(reg) ==
          Config(Some(ToNul(reg.exe.data)), if reg.args.Multi? then Parse(reg.args.data) else [],
                 reg.escape.Dword? && reg.escape.value != 0)
      ensures !Failed(hr) && Terminated(reg) ==>
        (Holds(LoadedConfig(reg)) <==>
           && (reg.args.Multi? || old(arguments.length) == 0)
           && (reg.escape.Dword? || !old(escapeForPS)))
      ensures !Failed(hr) ==> exePath.p != null && reg.exe.data <= exePath.p[..]
      ensures heap.live == old(heap.live) - old(Owned()) + Owned()
      ensures heap.freed == old(heap.freed) + (old(Owned()) - Owned())
      ensures fresh(Owned() - old(Owned()))
    {
      hide Spells, ToNul, Parse, ExeHolds, ArgumentsHold, ArgumentBlocks, HeapBuffer.Owned;
      OwnsLive();
      if reg.open.Error? {
        return FromWin32(reg.open.code);
      }
      hr := LoadExePath(reg);
      label Located:
      ghost var exe, args := exePath.Owned(), ArgumentBlocks();
      if Failed(hr) {
        ExchangeBoth(old(heap.live), old(exePath.Owned()), exe, args, args);
        ExchangeBoth(old(heap.freed), old(exePath.Owned()), exe, args, args);
        return;
      }
      if reg.escape.Dword? {
        escapeForPS := reg.escape.value != 0;
      }
      hr := LoadArguments(reg);
      ExchangeBoth(old(heap.live), old(exePath.Owned()), exe, args, ArgumentBlocks());
      ExchangeBoth(old(heap.freed), old(exePath.Owned()), exe, args, ArgumentBlocks());
      if !Failed(hr) && Terminated(reg) {
        ExeStays@Located(Some(ToNul(reg.exe.data)));
      }
      if reg.args.MultiError? {
        HoldsNone();
      }
    }

    lemma HoldsNone()
      requires Valid()
      ensures ArgumentsHold([]) <==> arguments.length == 0
    {}

    /** The destructor. */
    method Destroy()
      requires Valid()
      modifies heap, exePath, argData, arguments
      ensures heap.live == old(heap.live) - old(Owned())
      ensures heap.freed == old(heap.freed) + old(Owned())
    {
      arguments.Clear();
      argData.Clear();
      exePath.Clear();
    }

    method LoadExePath(reg: Registry) returns (hr: HRESULT)
      requires RegistryLaw(reg) && reg.open.Done? && Valid()
      modifies heap, exePath
      ensures Valid()
      ensures Failed(hr) ==> hr == LoadHr(reg)
      ensures !Failed(hr) ==>
        && hr == S_OK && reg.exeMemory && reg.exe.Sz? && reg.exe.isString
        && exePath.p != null && exePath.p.Length == REG_VALUE_BUFFER && reg.exe.data <= exePath.p[..]
      ensures !Failed(hr) && Terminated(reg) ==> ExeHolds(Some(ToNul(reg.exe.data)))
      ensures heap.live == old(heap.live) - old(exePath.Owned()) + exePath.Owned()
      ensures heap.freed == old(heap.freed) + (old(exePath.Owned()) - exePath.Owned())
      ensures fresh(exePath.Owned() - old(exePath.Owned()))
    {
      var ok := exePath.Alloc(REG_VALUE_BUFFER, reg.exeMemory);
      if !ok {
        return E_OUTOFMEMORY;
      }
      if reg.exe.SzError? {
        return FromWin32(reg.exe.code);
      }
      QueryInto(exePath.p, reg.exe.data);
      if !reg.exe.isString {
        return E_UNEXPECTED;
      }
      if NUL in reg.exe.data {
        PrefixText(reg.exe.data, exePath.p, 0);
      }
      hr := S_OK;
    }

    method LoadArguments(reg: Registry) returns (hr: HRESULT)
      requires RegistryLaw(reg) && reg.open.Done? && reg.exeMemory && reg.exe.Sz? && reg.exe.isString
      requires Valid()
      modifies heap, argData, arguments
      ensures Valid()
      ensures hr == LoadHr(reg)
      ensures !Failed(hr) && reg.args.Multi? ==> ArgumentsHold(Parse(reg.args.data))
      ensures reg.args.MultiError? ==> arguments.p == old(arguments.p) && arguments.length == old(arguments.length)
      ensures heap.live == old(heap.live) - old(ArgumentBlocks()) + ArgumentBlocks()
      ensures heap.freed == old(heap.freed) + (old(ArgumentBlocks()) - ArgumentBlocks())
      ensures fresh(ArgumentBlocks() - old(ArgumentBlocks()))
    {
      var ok := argData.Alloc(REG_VALUE_BUFFER, reg.dataMemory);
      if !ok {
        return E_OUTOFMEMORY;
      }
      if reg.args.MultiError? {
        return S_OK;
      }
      QueryInto(argData.p, reg.args.data);
      hr := StoreArguments(reg.args.data, reg.slotMemory);
    }

    /** Counts the strings in the data buffer, allocates the slots and fills them. */
    method StoreArguments(data: WStr, memory: bool) returns (hr: HRESULT)
      requires DoubleNul(data) && argData.p != null && data <= argData.p[..]
      requires argData.p !in heap.freed
      requires arguments.heap == heap && arguments.Valid() && argData.p !in arguments.Owned()
      modifies heap, arguments
      ensures arguments.Valid()
      ensures hr == if memory then S_OK else E_OUTOFMEMORY
      ensures memory ==> ArgumentsHold(Parse(data))
      ensures !memory ==> arguments.p == old(arguments.p) && arguments.length == old(arguments.length)
      ensures heap.live == old(heap.live) - old(arguments.Owned()) + arguments.Owned()
      ensures heap.freed == old(heap.freed) + (old(arguments.Owned()) - arguments.Owned())
      ensures fresh(arguments.Owned() - old(arguments.Owned()))
    {
      hide Walk, InBounds, ToNul, Parse, CText, IsCString;
      ghost var found := Walk(data, 0, |data|);
      assert InBounds(argData.p[..], 0, |data|) && Walk(argData.p[..], 0, |data|) == found && found.ok by {
        DoubleNulWalk(data, 0, |data|);
        WalkLocal(data, argData.p[..], 0);
      }
      var count;
      hr, count := CountArguments(argData.p, |data|);
      var ok := arguments.Alloc(count, memory);
      if !ok {
        return E_OUTOFMEMORY;
      }
      hr := FillArguments(argData.p, |data|, arguments.p);
      forall i | 0 <= i < arguments.length
        ensures Spells(heap, arguments.p[i], Parse(data)[i])
      {
        WalkStarts(data, 0, |data|, i);
        PrefixText(data, argData.p, found.starts[i]);
      }
    }
  }
}
