/** Processing of one issued certificate: temp file, command line, external process. */
module EventProcessors {
  import opened Wide
  import opened Buffers
  import opened StrSafe
  import opened CommandLine
  import opened Processes
  import opened TempFiles
  import opened Win32
  import opened Configs
  import opened PowerShell
  import opened WriteLoop
  import opened Lifecycle
  import opened ExitEventSources

  /** wcslen. */
  method Wcslen(heap: Heap, s: LPCWSTR, ghost text: WStr) returns (n: nat)
    requires Spells(heap, s, text)
    ensures n == |text|
  {
    hide Spells;
    n := 0;
    SpelledAt(heap, s, text, n);
    while s.block[s.off + n] != NUL
      invariant n <= |text| && s.off + |text| < s.block.Length
      invariant s.block[s.off + n] == NUL <==> n == |text|
      decreases |text| - n
    {
      n := n + 1;
      SpelledAt(heap, s, text, n);
    }
  }

  /** Puts a text in single quotes, in a buffer that fits it exactly. */
  method EscapeArgumentForPS(heap: Heap, s: LPCWSTR, result: HeapBuffer<WChar>, memory: bool, ghost text: WStr)
    returns (hr: HRESULT)
    requires Spells(heap, s, text)
    requires result.heap == heap && result.Valid()
    requires result.p == null || s.block != result.p
    modifies result, heap
    ensures result.Valid()
    ensures hr == if memory then S_OK else E_OUTOFMEMORY
    ensures memory ==> result.p != null && fresh(result.p) && result.p.Length == |SingleQuoted(text)| + 1
    ensures memory ==> Spells(heap, Ptr(result.p, 0), SingleQuoted(text))
    ensures !memory ==> result.p == old(result.p) && result.length == old(result.length)
    ensures heap.live == old(heap.live) - old(result.Owned()) + result.Owned()
    ensures heap.freed == old(heap.freed) + if memory then old(result.Owned()) else {}
    ensures old(result.p) == null ==> heap.freed == old(heap.freed) && heap.live == old(heap.live) + result.Owned()
  {
    hide CText, IsCString, ToNul, SingleQuoted;
    var n := Wcslen(heap, s, text);
    var ok := result.Alloc(n + 3, memory);
    if !ok {
      return E_OUTOFMEMORY;
    }
    assert |SingleQuoted(text)| == n + 2 by { QuotedLength(text); }
    hr := WriteQuoted(heap, s, result.p, text);
    hide Spells;
  }

  lemma QuotedLength(text: WStr)
    ensures |SingleQuoted(text)| == |text| + 2
  {}

  /** The three copies at the cursor. */
  method WriteQuoted(heap: Heap, s: LPCWSTR, dest: array<WChar>, ghost text: WStr) returns (hr: HRESULT)
    requires Spells(heap, s, text) && s.block != dest && dest.Length == |text| + 3
    modifies dest
    ensures hr == S_OK
    ensures IsCString(Ptr(dest, 0)) && CText(Ptr(dest, 0)) == SingleQuoted(text)
  {
    hide CText, IsCString, ToNul, Behind, Truncated;
    assert NUL !in SingleQuoted(text) by { SpelledNulFree(heap, s, text); }
    var quote := Literal(heap, [APOSTROPHE]);
    BehindNothing(dest);
    assert [] + [APOSTROPHE] == [APOSTROPHE];
    var at, remaining;
    hr, at, remaining := StringCchCopyEx(heap, dest, 0, dest.Length, quote, [], [APOSTROPHE]);
    if Failed(hr) {
      return;
    }
    hr, at, remaining := StringCchCopyEx(heap, dest, at, remaining, s, [APOSTROPHE], text);
    if Failed(hr) {
      return;
    }
    hr, at, remaining := StringCchCopyEx(heap, dest, at, remaining, quote, [APOSTROPHE] + text, [APOSTROPHE]);
    if Failed(hr) {
      return;
    }
    BehindShows(dest, at, remaining, SingleQuoted(text));
    ShownWhole(dest, SingleQuoted(text));
  }

  lemma SpelledNulFree(heap: Heap, p: LPCWSTR, t: WStr)
    requires Spells(heap, p, t)
    ensures NUL !in t
  {}

  lemma ShownWhole(dest: array<WChar>, text: WStr)
    requires Shows(dest, text) && Fits(text, dest.Length)
    ensures IsCString(Ptr(dest, 0)) && CText(Ptr(dest, 0)) == text
  {}

  lemma SpellConcat(heap: Heap, a: seq<LPCWSTR>, s: seq<WStr>, b: seq<LPCWSTR>, t: seq<WStr>)
    requires SpellSeq(heap, a, s) && SpellSeq(heap, b, t)
    ensures SpellSeq(heap, a + b, s + t)
  {
    hide Spells;
  }

  lemma SpelledAll(heap: Heap, args: HeapBuffer<LPCWSTR>, texts: seq<WStr>)
    requires args.p != null && args.length == args.p.Length && SpellSeq(heap, args.p[..], texts)
    ensures SpellAll(heap, args, texts, null)
  {
    hide IsCString, CText;
    forall i | 0 <= i < args.length
      ensures Spells(heap, args.p[i], texts[i])
    {
      assert args.p[..][i] == args.p[i];
    }
  }

  /** CopyMemory twice: the configured pointers, then the new ones. */
  method JoinPointers(heap: Heap, dest: array<LPCWSTR>, base: array?<LPCWSTR>, count: nat, options: array<LPCWSTR>,
                      ghost s: seq<WStr>, ghost t: seq<WStr>)
    requires dest.Length == count + options.Length && dest != base && dest != options
    requires if base == null then count == 0 else count == base.Length
    requires SpellSeq(heap, if base == null then [] else base[..], s) && SpellSeq(heap, options[..], t)
    modifies dest
    ensures SpellSeq(heap, dest[..], s + t)
  {
    hide SpellSeq;
    ghost var first := if base == null then [] else base[..];
    ghost var second := options[..];
    SpellConcat(heap, first, s, second, t);
    forall i | 0 <= i < count {
      dest[i] := base[i];
    }
    forall i | count <= i < count + options.Length {
      dest[i] := options[i - count];
    }
    assert dest[..] == first + second;
  }

  /** What the index of Write is for: each call offers the bytes not yet counted. The file is then
      the certificate under every pattern of short writes. */
  method WriteResumed(file: TempFile, raw: HeapBuffer<bv8>, writes: seq<WriteResult>) returns (hr: HRESULT)
    requires file.Valid() && file.hFile != INVALID_HANDLE_VALUE
    requires file.name in file.os.files && file.os.files[file.name] == []
    requires raw.Valid() && raw.p != null && raw.length < 0x1_0000_0000
    requires Complete(raw.length, writes, 0) && Within(raw.length, writes, 0)
    modifies file.os`files
    ensures hr == if WritesFail(writes) then FromWin32(writes[|writes| - 1].code) else S_OK
    ensures file.os.files == old(file.os.files)[file.name := Resumed(raw.p[..], writes, 0)]
    ensures file.os.files[file.name] <= raw.p[..]
    ensures ErrorFree(writes) ==> file.os.files[file.name] == raw.p[..]
  {
    hide Spells, Complete, Within, Resumed, Resuming, ErrorFree;
    var total: nat, i: nat := 0, 0;
    ghost var bytes := raw.p[..];
    ResumedStart(bytes, writes);
    while total < raw.length
      invariant total <= raw.length && Resuming(bytes, writes, i, total)
      invariant file.os.files == old(file.os.files)[file.name := bytes[..total]]
      decreases |writes| - i
    {
      ResumedTurn(bytes, writes, i, total);
      var n;
      hr, n := file.Write(raw, total, raw.length - total, writes[i]);
      assert raw.p[total..total + n] == bytes[total..total + n];
      i := i + 1;
      if Failed(hr) {
        return;
      }
      total := total + n;
    }
    ResumedTurn(bytes, writes, i, total);
    assert WritesFail(writes) ==> !ErrorFree(writes) by { FailIsError(writes); }
    hr := S_OK;
  }

  lemma FailIsError(writes: seq<WriteResult>)
    ensures WritesFail(writes) ==> !ErrorFree(writes)
  {}

  class EventProcessor {
    const os: Os
    const heap: Heap
    const config: EventProcessorConfig
    const events: ExitEventSource

    /** The parts share one system and one heap. */
    ghost predicate Wired() {
      config.heap == heap && events.os == os && events.source.heap == heap
    }

    lemma SharedParts()
      requires Wired()
      ensures config.heap == heap && events.os == os && events.source.heap == heap
    {}

    constructor (os: Os, heap: Heap, events: ExitEventSource)
      requires events.os == os && events.source.heap == heap
      ensures this.os == os && this.heap == heap && this.events == events && Wired()
      ensures fresh(config) && config.Valid() && config.Holds(NOT_LOADED)
      ensures fresh(config.exePath) && fresh(config.argData) && fresh(config.arguments)
      ensures config.New()
    {
      this.os, this.heap, this.events := os, heap, events;
      config := new EventProcessorConfig(heap);
    }

    /** Loads the settings into the new object. */
    method Init(reg: Registry) returns (hr: HRESULT)
      requires RegistryLaw(reg) && config.heap == heap && config.Valid() && config.New()
      modifies config, heap, config.exePath, config.argData, config.arguments
      ensures config.Valid() && hr == LoadHr(reg)
      ensures !Failed(hr) && Terminated(reg) ==> config.Holds(LoadedConfig(reg))
      ensures heap.live == old(heap.live) + config.Owned() && heap.freed == old(heap.freed) && fresh(config.Owned())
    {
      hide *;
      config.NewOwnsNothing();
      hr := config.Init(reg);
    }

    /** Makes a new, empty temp file. GetTempPathW fails only with 0: a folder too long for its buffer
        counts as `Done` as well, and the name may then lie anywhere or fail. */
    method GetTempFilePath(path: HeapBuffer<WChar>, e: Env) returns (hr: HRESULT)
      requires path.heap == heap && path.Valid()
      requires e.tempName.Named? ==>
        e.tempName.path !in os.files && NUL !in e.tempName.path && |e.tempName.path| <= MAX_PATH
      modifies path, heap, os`files
      ensures path.Valid()
      ensures hr == NameHr(e)
      ensures Failed(hr) ==> os.files == old(os.files)
      ensures !Failed(hr) ==>
        && e.tempName.Named? && os.files == old(os.files)[e.tempName.path := []]
        && path.p != null && Spells(heap, Ptr(path.p, 0), e.tempName.path)
      ensures path.p == old(path.p) || fresh(path.p)
      ensures heap.live == old(heap.live) - old(path.Owned()) + path.Owned()
      ensures heap.freed == old(heap.freed) + (old(path.Owned()) - path.Owned())
    {
      if e.tempDir.Error? {
        return FromWin32(e.tempDir.code);
      }
      var ok := path.Alloc(MAX_PATH + 1, e.pathMemory);
      if !ok {
        return E_OUTOFMEMORY;
      }
      ok := os.GetTempFileName(e.tempName, path.p);
      hr := if ok then S_OK else FromWin32(e.tempName.code);
    }

    /** Takes the temp file over and writes the certificate into it. */
    method StoreCertificate(file: TempFile, path: LPCWSTR, raw: HeapBuffer<bv8>, e: Env, ghost text: WStr)
      returns (hr: HRESULT)
      requires file.os == os && file.path.heap == heap && file.path.length == 0 && file.Valid() && !file.preserve
      requires Spells(heap, path, text) && |text| <= MAX_PATH
      requires raw.heap == heap && raw.Valid() && raw.p != null && raw.length < 0x1_0000_0000
      requires Complete(raw.length, e.writes, 0) && Bounded(raw.length, e.writes)
      modifies file, file.path, heap, os`files, os`open, os`objects, os`next
      ensures file.Valid() && !file.preserve && os.objects == old(os.objects)
      ensures hr == (if Failed(OwnHr(e)) then OwnHr(e)
                     else if WritesFail(e.writes) then FromWin32(e.writes[|e.writes| - 1].code)
                     else S_OK)
      ensures file.path.length > 0 <==> !Failed(OwnHr(e))
      ensures !Failed(hr) ==> file.hFile == INVALID_HANDLE_VALUE && heap.freed == old(heap.freed)
      ensures file.path.length == 0 ==> os.files == old(os.files)
      ensures file.path.length > 0 ==>
        file.name == text && os.files == old(os.files)[text := Written(raw.p[..], e.writes)]
      ensures os.open - {file.hFile} == old(os.open)
      ensures heap.live == old(heap.live) + file.path.Owned()
      ensures fresh(heap.freed - old(heap.freed))
      ensures fresh(file.path.Owned())
    {
      hide Spells, CText, IsCString, ToNul, Written, Complete, Bounded, WritesFail;
      hr := file.Create(path, e.ownMemory, e.create, text);
      if Failed(hr) {
        return;
      }
      hr := WriteCertificate(file, raw, e.writes);
      if Failed(hr) {
        return;
      }
      file.Close();
    }

    /** Offers the whole certificate to each write until enough bytes have been counted. */
    method WriteCertificate(file: TempFile, raw: HeapBuffer<bv8>, writes: seq<WriteResult>) returns (hr: HRESULT)
      requires file.os == os && file.Valid() && file.hFile != INVALID_HANDLE_VALUE
      requires file.name in os.files && os.files[file.name] == []
      requires raw.Valid() && raw.p != null && raw.length < 0x1_0000_0000
      requires Complete(raw.length, writes, 0) && Bounded(raw.length, writes)
      modifies os`files
      ensures hr == if WritesFail(writes) then FromWin32(writes[|writes| - 1].code) else S_OK
      ensures os.files == old(os.files)[file.name := Written(raw.p[..], writes)]
    {
      hide Spells, Complete, Written;
      hr := S_OK;
      var total: nat, i: nat := 0, 0;
      ghost var bytes := raw.p[..];
      assert Written(bytes, []) == [] && writes[0..] == writes by { NothingWritten(bytes); }
      while total < raw.length
        invariant i <= |writes| && Complete(raw.length, writes[i..], total)
        invariant forall j :: 0 <= j < i ==> writes[j].Wrote?
        invariant os.files == old(os.files)[file.name := Written(bytes, writes[..i])]
        decreases |writes| - i
      {
        LoopTurn(bytes, writes, i, total);
        var n;
        hr, n := file.Write(raw, 0, raw.length, writes[i]);
        assert raw.p[0..0 + n] == bytes[..Moved(writes[i])];
        i := i + 1;
        if Failed(hr) {
          assert writes[..i] == writes;
          return;
        }
        total := total + n;
      }
      LoopTurn(bytes, writes, i, total);
      assert writes[..i] == writes;
      hr := S_OK;
    }

    /** The seven arguments of this notification. */
    method OptionPointers(ski: LPCWSTR, serial: LPCWSTR, path: LPCWSTR,
                          ghost skiText: WStr, ghost serialText: WStr, ghost pathText: WStr)
      returns (options: array<LPCWSTR>)
      requires Spells(heap, ski, skiText) && Spells(heap, serial, serialText) && Spells(heap, path, pathText)
      ensures fresh(options) && options.Length == 7
      ensures SpellSeq(heap, options[..], OptionTexts(skiText, serialText, pathText))
      ensures OptionTexts(skiText, serialText, pathText) ==
        [L("certissued"), L("-subjectkeyidentifier"), skiText, L("-serialnumber"), serialText,
         L("-rawcertpath"), pathText]
    {
      OptionsPlain();
      hide L, Spells;
      var operation := Literal(heap, L("certissued"));
      var skiOption := Literal(heap, L("-subjectkeyidentifier"));
      var serialOption := Literal(heap, L("-serialnumber"));
      var pathOption := Literal(heap, L("-rawcertpath"));
      ghost var pointers := [operation, skiOption, ski, serialOption, serial, pathOption, path];
      ghost var texts := OptionTexts(skiText, serialText, pathText);
      assert SpellSeq(heap, pointers, texts);
      options := new LPCWSTR[7] [operation, skiOption, ski, serialOption, serial, pathOption, path];
      assert options[..] == pointers;
    }

    /** The configured arguments, then the seven of this notification. */
    method AssembleArguments(args: HeapBuffer<LPCWSTR>, ski: LPCWSTR, serial: LPCWSTR, path: LPCWSTR, memory: bool,
                             ghost cfg: Config, ghost skiText: WStr, ghost serialText: WStr, ghost pathText: WStr)
      returns (hr: HRESULT)
      requires config.heap == heap && config.Holds(cfg)
      requires args.heap == heap && args.Valid() && args.p == null
      requires args != config.arguments
      requires Spells(heap, ski, skiText) && Spells(heap, serial, serialText) && Spells(heap, path, pathText)
      modifies args, heap
      ensures args.Valid()
      ensures hr == if memory then S_OK else E_OUTOFMEMORY
      ensures memory ==> SpellAll(heap, args, cfg.args + OptionTexts(skiText, serialText, pathText), null)
      ensures memory ==> args.p != null
      ensures memory ==>
        SpellSeq(heap, args.p[..],
                 cfg.args + [L("certissued"), L("-subjectkeyidentifier"), skiText, L("-serialnumber"), serialText,
                             L("-rawcertpath"), pathText])
      ensures heap.live == old(heap.live) + args.Owned() && heap.freed == old(heap.freed)
      ensures fresh(args.Owned())
    {
      hide Spells, SpellSeq, SpellAll, EventProcessorConfig.Holds, OptionTexts;
      config.HeldPointers(cfg);
      ghost var texts := OptionTexts(skiText, serialText, pathText);
      var options := OptionPointers(ski, serial, path, skiText, serialText, pathText);
      var base := config.arguments.length;
      var ok := args.Alloc(7 + base, memory);
      if !ok {
        return E_OUTOFMEMORY;
      }
      assert heap.freed == old(heap.freed);
      JoinPointers(heap, args.p, config.arguments.p, base, options, cfg.args, texts);
      SpelledAll(heap, args, cfg.args + texts);
      hr := S_OK;
    }

    /** Processes one issued certificate. Afterwards no block or handle is held. */
    method NotifyCertIssued(ski: LPCWSTR, serial: LPCWSTR, raw: HeapBuffer<bv8>, e: Env,
                            ghost cfg: Config, ghost cert: Certificate)
      returns (hr: HRESULT)
      requires os.Valid() && Wired() && events.Valid() && config.Holds(cfg)
      requires EnvLaw(os.files, cert.raw, e)
      requires Spells(heap, ski, cert.ski) && Spells(heap, serial, cert.serial)
      requires raw.heap == heap && raw.Valid() && raw.p != null && raw.p[..] == cert.raw && raw.length < 0x1_0000_0000
      modifies heap, os
      modifies events`calls, events.source`records
      ensures events.Valid()
      ensures os.Valid() && os.open == old(os.open) && os.objects == old(os.objects)
      ensures hr == EndHr(Ending(cfg, e))
      ensures os.log == old(os.log) + Actions(cfg, cert, e, Ending(cfg, e))
      ensures os.files == FilesAfter(old(os.files), cert, e, Ending(cfg, e))
      ensures heap.live == old(heap.live)
      ensures fresh(heap.freed - old(heap.freed))
    {
      hide ExitEventSource.Valid, Os.Valid, Spells, Ending, Actions, EndHr, FilesAfter, EnvLaw,
        EventProcessorConfig.Holds;
      var strTempFile := new HeapBuffer<WChar>(heap);
      hr := IssueOnce(strTempFile, ski, serial, raw, e, cfg, cert);
      strTempFile.Clear();
    }

    method IssueOnce(strTempFile: HeapBuffer<WChar>, ski: LPCWSTR, serial: LPCWSTR, raw: HeapBuffer<bv8>,
                     e: Env, ghost cfg: Config, ghost cert: Certificate)
      returns (hr: HRESULT)
      requires os.Valid() && Wired() && events.Valid() && config.Holds(cfg)
      requires EnvLaw(os.files, cert.raw, e)
      requires strTempFile.heap == heap && strTempFile.Valid() && strTempFile.p == null
      requires {strTempFile} !! {config.exePath, config.argData}
      requires Spells(heap, ski, cert.ski) && Spells(heap, serial, cert.serial)
      requires raw.heap == heap && raw.Valid() && raw.p != null && raw.p[..] == cert.raw && raw.length < 0x1_0000_0000
      modifies strTempFile, heap, os
      modifies events`calls, events.source`records
      ensures events.Valid()
      ensures strTempFile.Valid()
      ensures os.Valid() && os.open == old(os.open) && os.objects == old(os.objects)
      ensures hr == EndHr(Ending(cfg, e))
      ensures os.log == old(os.log) + Actions(cfg, cert, e, Ending(cfg, e))
      ensures os.files == FilesAfter(old(os.files), cert, e, Ending(cfg, e))
      ensures heap.live == old(heap.live) + strTempFile.Owned() && fresh(strTempFile.Owned())
      ensures fresh(heap.freed - old(heap.freed))
    {
      hide *;
      SharedParts();
      LawBounded(os.files, cert.raw, e);
      EndFacts(os.files, cfg, cert, e);
      var objTempFile := new TempFile(os, heap);
      hr := IssueIn(strTempFile, objTempFile, ski, serial, raw, e, cfg, cert);
      label Leaving:
      ghost var path := objTempFile.path.Owned();
      objTempFile.Destroy(e.deleted);
      strTempFile.StaysValid@Leaving(path);
      events.Undisturbed@Leaving(Delete(PathText(e), e.deleted));
    }

    method IssueIn(strTempFile: HeapBuffer<WChar>, file: TempFile, ski: LPCWSTR, serial: LPCWSTR, raw: HeapBuffer<bv8>,
                   e: Env, ghost cfg: Config, ghost cert: Certificate)
      returns (hr: HRESULT)
      requires os.Valid() && Wired() && events.Valid() && config.Holds(cfg)
      requires EnvLaw(os.files, cert.raw, e)
      requires strTempFile.heap == heap && strTempFile.Valid() && strTempFile.p == null
      requires file.os == os && file.path.heap == heap && file.Valid() && file.path.p == null && !file.preserve
      requires strTempFile != file.path && {strTempFile, file.path} !! {config.exePath, config.argData}
      requires Spells(heap, ski, cert.ski) && Spells(heap, serial, cert.serial)
      requires raw.heap == heap && raw.Valid() && raw.p != null && raw.p[..] == cert.raw && raw.length < 0x1_0000_0000
      modifies strTempFile, file, file.path, heap, os
      modifies events`calls, events.source`records
      ensures events.Valid()
      ensures strTempFile.Valid() && file.Valid() && strTempFile.Owned() !! file.path.Owned()
      ensures os.open - {file.hFile} == old(os.open) && os.objects == old(os.objects)
      ensures hr == EndHr(Ending(cfg, e)) && file.preserve == Preserved(Ending(cfg, e))
      ensures file.path.length > 0 <==> TakenOver(e)
      ensures file.path.length > 0 ==> file.name == PathText(e)
      ensures os.log == old(os.log) + RunActions(cfg, cert, e, Ending(cfg, e))
      ensures os.files == FilesAtEnd(old(os.files), cert, e, Ending(cfg, e))
      ensures heap.live == old(heap.live) + strTempFile.Owned() + file.path.Owned()
      ensures fresh(strTempFile.Owned()) && fresh(file.path.Owned())
      ensures fresh(heap.freed - old(heap.freed))
    {
      hide ExitEventSource.Valid, Os.Valid, Spells, Ending, StoredEnding, StoreHr, FilesStored, RunActions, EndHr,
        Preserved, ProcessRan, EnvLaw, TakenOver, TempFile.Valid;
      EndingKinds(cfg, e);
      hr := StoreIn(strTempFile, file, raw, e, cert.raw);
      if Failed(hr) {
        EarlyEnd(cfg, cert, e, Ending(cfg, e));
        return;
      }
      label Stored:
      hr := EscapeAndRun(file, ski, serial, Ptr(strTempFile.p, 0), e, cfg, cert);
      file.StaysValid@Stored();
    }

    /** Makes the temp file, takes it over and writes the certificate. */
    method StoreIn(strTempFile: HeapBuffer<WChar>, file: TempFile, raw: HeapBuffer<bv8>, e: Env, ghost bytes: Bytes)
      returns (hr: HRESULT)
      requires os.Valid() && EnvLaw(os.files, bytes, e)
      requires strTempFile.heap == heap && strTempFile.Valid() && strTempFile.p == null
      requires file.os == os && file.path.heap == heap && file.Valid() && file.path.p == null && !file.preserve
      requires strTempFile != file.path
      requires raw.heap == heap && raw.Valid() && raw.p != null && raw.p[..] == bytes && raw.length < 0x1_0000_0000
      modifies strTempFile, file, file.path, heap, os`files, os`open, os`objects, os`next
      ensures strTempFile.Valid() && file.Valid() && os.Valid() && !file.preserve
      ensures os.open - {file.hFile} == old(os.open) && os.objects == old(os.objects)
      ensures hr == StoreHr(e) && os.files == FilesStored(old(os.files), bytes, e)
      ensures file.path.length > 0 <==> TakenOver(e)
      ensures file.path.length > 0 ==> file.name == PathText(e)
      ensures !Failed(hr) ==>
        && file.hFile == INVALID_HANDLE_VALUE && heap.freed == old(heap.freed)
        && strTempFile.p != null && Spells(heap, Ptr(strTempFile.p, 0), PathText(e))
      ensures heap.live == old(heap.live) + strTempFile.Owned() + file.path.Owned()
      ensures fresh(strTempFile.Owned()) && fresh(file.path.Owned()) && strTempFile.Owned() !! file.path.Owned()
      ensures fresh(heap.freed - old(heap.freed))
    {
      hide Spells, Complete, Written;
      hr := GetTempFilePath(strTempFile, e);
      if Failed(hr) {
        return;
      }
      hr := StoreCertificate(file, Ptr(strTempFile.p, 0), raw, e, PathText(e));
    }

    /** With the certificate in its file: escapes what the configuration asks for, and runs. */
    method EscapeAndRun(file: TempFile, ski: LPCWSTR, serial: LPCWSTR, tempFile: LPCWSTR, e: Env,
                        ghost cfg: Config, ghost cert: Certificate)
      returns (hr: HRESULT)
      requires os.Valid() && Wired() && events.Valid() && config.Holds(cfg) && !file.preserve
      requires Spells(heap, ski, cert.ski) && Spells(heap, serial, cert.serial) && Spells(heap, tempFile, PathText(e))
      modifies file`preserve, heap, os`files, os`open, os`objects, os`next, os`log
      modifies events`calls, events.source`records
      ensures events.Valid()
      ensures os.Valid() && os.open == old(os.open) && os.objects == old(os.objects)
      ensures hr == EndHr(StoredEnding(cfg, e)) && file.preserve == Preserved(StoredEnding(cfg, e))
      ensures os.log == old(os.log) + RunActions(cfg, cert, e, StoredEnding(cfg, e))
      ensures os.files == if ProcessRan(StoredEnding(cfg, e)) then Changed(old(os.files), e.others) else old(os.files)
      ensures heap.live == old(heap.live) && fresh(heap.freed - old(heap.freed))
    {
      hide *;
      var escSki := new HeapBuffer<WChar>(heap);
      var escPath := new HeapBuffer<WChar>(heap);
      hr := EscapeIn(escSki, escPath, file, ski, serial, tempFile, e, cfg, cert);
      ClearBoth(escPath, escSki);
    }

    method EscapeIn(escSki: HeapBuffer<WChar>, escPath: HeapBuffer<WChar>, file: TempFile,
                    ski: LPCWSTR, serial: LPCWSTR, tempFile: LPCWSTR, e: Env,
                    ghost cfg: Config, ghost cert: Certificate)
      returns (hr: HRESULT)
      requires os.Valid() && Wired() && events.Valid() && config.Holds(cfg) && !file.preserve
      requires escSki.heap == heap && escSki.Valid() && escSki.p == null
      requires escPath.heap == heap && escPath.Valid() && escPath.p == null
      requires escSki != escPath && {escSki, escPath} !! {config.exePath, config.argData}
      requires Spells(heap, ski, cert.ski) && Spells(heap, serial, cert.serial) && Spells(heap, tempFile, PathText(e))
      modifies escSki, escPath, file`preserve, heap, os`files, os`open, os`objects, os`next, os`log
      modifies events`calls, events.source`records
      ensures events.Valid()
      ensures escSki.Valid() && escPath.Valid() && escSki.Owned() !! escPath.Owned()
      ensures os.Valid() && os.open == old(os.open) && os.objects == old(os.objects)
      ensures hr == EndHr(StoredEnding(cfg, e)) && file.preserve == Preserved(StoredEnding(cfg, e))
      ensures os.log == old(os.log) + RunActions(cfg, cert, e, StoredEnding(cfg, e))
      ensures os.files == if ProcessRan(StoredEnding(cfg, e)) then Changed(old(os.files), e.others) else old(os.files)
      ensures heap.live == old(heap.live) + escSki.Owned() + escPath.Owned()
      ensures fresh(escSki.Owned()) && fresh(escPath.Owned()) && fresh(heap.freed - old(heap.freed))
    {
      hide ExitEventSource.Valid, Os.Valid, Spells, SingleQuoted, RunActions, EscapedEnding, Preserved, EndHr,
        ProcessRan;
      EarlyEnd(cfg, cert, e, GivenUp(E_OUTOFMEMORY));
      var skiArg, pathArg := ski, tempFile;
      if config.escapeForPS {
        hr := EscapeArgumentForPS(heap, ski, escSki, e.skiMemory, cert.ski);
        if Failed(hr) {
          return;
        }
        skiArg := Ptr(escSki.p, 0);
        hr := EscapeArgumentForPS(heap, tempFile, escPath, e.escapedPathMemory, PathText(e));
        if Failed(hr) {
          return;
        }
        pathArg := Ptr(escPath.p, 0);
      }
      hr := RunAssembled(file, skiArg, serial, pathArg, tempFile, e, cfg, cert);
    }

    /** Assembles the arguments and runs the process; preserves the file if that goes wrong. */
    method RunAssembled(file: TempFile, ski: LPCWSTR, serial: LPCWSTR, path: LPCWSTR, tempFile: LPCWSTR, e: Env,
                        ghost cfg: Config, ghost cert: Certificate)
      returns (hr: HRESULT)
      requires os.Valid() && Wired() && events.Valid() && config.Holds(cfg)
      requires !file.preserve
      requires Spells(heap, ski, EscapedIf(cfg.escape, cert.ski)) && Spells(heap, serial, cert.serial)
      requires Spells(heap, path, EscapedIf(cfg.escape, PathText(e))) && Spells(heap, tempFile, PathText(e))
      modifies file`preserve, heap, os`files, os`open, os`objects, os`next, os`log
      modifies events`calls, events.source`records
      ensures events.Valid()
      ensures os.Valid() && os.open == old(os.open) && os.objects == old(os.objects)
      ensures hr == EndHr(EscapedEnding(cfg, e)) && file.preserve == Preserved(EscapedEnding(cfg, e))
      ensures os.log == old(os.log) + RunActions(cfg, cert, e, EscapedEnding(cfg, e))
      ensures os.files == if ProcessRan(EscapedEnding(cfg, e)) then Changed(old(os.files), e.others) else old(os.files)
      ensures heap.live == old(heap.live)
      ensures fresh(heap.freed - old(heap.freed))
    {
      hide ExitEventSource.Valid, Os.Valid, Spells, SpellAll, OptionTexts, RunActions, RunEnding, EscapedEnding,
        Preserved, EndHr, ProcessRan;
      var args := new HeapBuffer<LPCWSTR>(heap);
      hr := RunWith(args, file, ski, serial, path, tempFile, e, cfg, cert);
      args.Clear();
    }

    method RunWith(args: HeapBuffer<LPCWSTR>, file: TempFile, ski: LPCWSTR, serial: LPCWSTR, path: LPCWSTR,
                   tempFile: LPCWSTR, e: Env, ghost cfg: Config, ghost cert: Certificate)
      returns (hr: HRESULT)
      requires os.Valid() && Wired() && events.Valid() && config.Holds(cfg)
      requires args.heap == heap && args.Valid() && args.p == null && args != config.arguments
      requires !file.preserve
      requires Spells(heap, ski, EscapedIf(cfg.escape, cert.ski)) && Spells(heap, serial, cert.serial)
      requires Spells(heap, path, EscapedIf(cfg.escape, PathText(e))) && Spells(heap, tempFile, PathText(e))
      modifies args, file`preserve, heap, os`files, os`open, os`objects, os`next, os`log
      modifies events`calls, events.source`records
      ensures events.Valid()
      ensures args.Valid()
      ensures os.Valid() && os.open == old(os.open) && os.objects == old(os.objects)
      ensures hr == EndHr(EscapedEnding(cfg, e)) && file.preserve == Preserved(EscapedEnding(cfg, e))
      ensures os.log == old(os.log) + RunActions(cfg, cert, e, EscapedEnding(cfg, e))
      ensures os.files == if ProcessRan(EscapedEnding(cfg, e)) then Changed(old(os.files), e.others) else old(os.files)
      ensures heap.live == old(heap.live) + args.Owned() && fresh(args.Owned())
      ensures fresh(heap.freed - old(heap.freed))
    {
      hide ExitEventSource.Valid, Os.Valid, Spells, SpellAll, OptionTexts, RunActions, RunEnding, EscapedEnding,
        Preserved, EndHr, ProcessRan;
      RunPreserves(cfg, e);
      EarlyEnd(cfg, cert, e, GivenUp(E_OUTOFMEMORY));
      ghost var skiText := EscapedIf(cfg.escape, cert.ski);
      ghost var pathText := EscapedIf(cfg.escape, PathText(e));
      hr := AssembleArguments(args, ski, serial, path, e.argsMemory, cfg, skiText, cert.serial, pathText);
      if Failed(hr) {
        return;
      }
      assert Arguments(cfg, cert, PathText(e)) == cfg.args + OptionTexts(skiText, cert.serial, pathText);
      var code;
      hr, code := RunProcess(args, tempFile, e, cfg, cert);
      if Failed(hr) || code != 0 {
        file.Preserve();
      }
    }

    /** Starts the configured program and waits for it, reporting how that goes. */
    method RunProcess(args: HeapBuffer<LPCWSTR>, tempFile: LPCWSTR, e: Env, ghost cfg: Config, ghost cert: Certificate)
      returns (hr: HRESULT, code: nat)
      requires os.Valid() && Wired() && events.Valid() && config.Holds(cfg)
      requires args.heap == heap && args.Valid() && SpellAll(heap, args, Arguments(cfg, cert, PathText(e)), null)
      requires Spells(heap, tempFile, PathText(e))
      modifies heap, os`files, os`open, os`objects, os`next, os`log
      modifies events`calls, events.source`records
      ensures events.Valid()
      ensures os.Valid() && os.open == old(os.open) && os.objects == old(os.objects)
      ensures hr == EndHr(RunEnding(cfg, e))
      ensures code == if RunEnding(cfg, e).Exited? then RunEnding(cfg, e).code else 0
      ensures os.log == old(os.log) + RunActions(cfg, cert, e, RunEnding(cfg, e))
      ensures os.files == if ProcessRan(RunEnding(cfg, e)) then Changed(old(os.files), e.others) else old(os.files)
      ensures heap.live == old(heap.live)
      ensures fresh(heap.freed - old(heap.freed))
    {
      hide ExitEventSource.Valid, Os.Valid, Spells, SpellAll, RunActions, RunEnding, EndHr, ProcessRan,
        EventProcessorConfig.Holds, Process.Valid;
      var objProc := new Process(os, heap);
      hr, code := RunIn(objProc, args, tempFile, e, cfg, cert);
      objProc.Destroy();
    }

    method RunIn(objProc: Process, args: HeapBuffer<LPCWSTR>, tempFile: LPCWSTR, e: Env,
                 ghost cfg: Config, ghost cert: Certificate)
      returns (hr: HRESULT, code: nat)
      requires Wired() && events.Valid() && config.Holds(cfg)
      requires objProc.Valid() && objProc.os == os && objProc.cmdLine.heap == heap
      requires objProc.hProcess == INVALID_HANDLE_VALUE && objProc.cmdLine.p == null
      requires objProc.cmdLine != config.exePath && objProc.cmdLine != config.argData
      requires args.heap == heap && args.Valid() && SpellAll(heap, args, Arguments(cfg, cert, PathText(e)), null)
      requires Spells(heap, tempFile, PathText(e))
      modifies objProc, objProc.cmdLine, heap, os`files, os`objects, os`next, os`log
      modifies events`calls, events.source`records
      ensures events.Valid()
      ensures objProc.Valid() && os.objects == old(os.objects) + objProc.Held() && objProc.Held() !! old(os.objects)
      ensures hr == EndHr(RunEnding(cfg, e))
      ensures code == if RunEnding(cfg, e).Exited? then RunEnding(cfg, e).code else 0
      ensures os.log == old(os.log) + RunActions(cfg, cert, e, RunEnding(cfg, e))
      ensures os.files == if ProcessRan(RunEnding(cfg, e)) then Changed(old(os.files), e.others) else old(os.files)
      ensures heap.live == old(heap.live) + objProc.cmdLine.Owned() && fresh(heap.freed - old(heap.freed))
      ensures fresh(objProc.cmdLine.Owned())
    {
      hide ExitEventSource.Valid, Os.Valid, SpellAll, IsCString, CText, ToNul, StartActions, AwaitActions;
      code := 0;
      var exe := config.GetExePath();
      if exe.Null? {
        return FromWin32(ERROR_INVALID_OPERATION), 0;
      }
      hr := StartProcess(objProc, exe, args, e, cfg, cert);
      if Failed(hr) {
        return;
      }
      hr, code := AwaitExit(objProc, tempFile, e);
    }

    method StartProcess(objProc: Process, exe: LPCWSTR, args: HeapBuffer<LPCWSTR>, e: Env,
                        ghost cfg: Config, ghost cert: Certificate)
      returns (hr: HRESULT)
      requires cfg.exe.Some? && |cfg.exe.value| < REG_VALUE_BUFFER && Spells(heap, exe, cfg.exe.value)
      requires objProc.Valid() && objProc.os == os && objProc.cmdLine.heap == heap
      requires objProc.hProcess == INVALID_HANDLE_VALUE && objProc.cmdLine.p == null
      requires Wired() && events.Valid()
      requires args.heap == heap && args.Valid() && SpellAll(heap, args, Arguments(cfg, cert, PathText(e)), null)
      modifies objProc, objProc.cmdLine, heap, os`objects, os`next, os`log
      modifies events`calls, events.source`records
      ensures events.Valid()
      ensures objProc.Valid() && os.objects == old(os.objects) + objProc.Held() && objProc.Held() !! old(os.objects)
      ensures hr == StartHr(e) && (Failed(hr) <==> objProc.hProcess == INVALID_HANDLE_VALUE)
      ensures !Failed(hr) ==> objProc.pid == e.start.pid && objProc.tid == e.start.tid
      ensures os.log == old(os.log) + StartActions(cfg, cert, e)
      ensures heap.live == old(heap.live) + objProc.cmdLine.Owned() && fresh(heap.freed - old(heap.freed))
      ensures fresh(objProc.cmdLine.Owned())
    {
      hide ExitEventSource.Valid, Os.Valid, Process.Valid, Line, Truncated, Arguments, Quote, IsCString, CText, ToNul,
        SpellAll;
      ghost var name := cfg.exe.value;
      ghost var texts := Arguments(cfg, cert, PathText(e));
      ghost var line := LineText(cfg, cert, e);
      assert Fits(Quote(name), MAX_COMMAND_LINE) by { QuoteLength(name); }
      label Starting:
      hr := objProc.Create(exe, args, e.lineMemory, e.start, name, texts);
      events.Undisturbed@Starting(Launch(line));
      ghost var attempted := if e.lineMemory then Some(line) else None;
      label Reporting:
      if Failed(hr) {
        events.ReportProcessStartFailed(exe, objProc.GetCommandLine(), hr, name, attempted);
      } else {
        events.ReportProcessStartSucceeded(exe, objProc.GetCommandLine(), objProc.pid, objProc.tid, name, line);
      }
      objProc.StaysValid@Reporting();
    }

    /** Waits for the started process and reports how it ended. */
    method AwaitExit(objProc: Process, tempFile: LPCWSTR, e: Env) returns (hr: HRESULT, code: nat)
      requires objProc.Valid() && objProc.os == os && objProc.hProcess != INVALID_HANDLE_VALUE
      requires objProc.cmdLine.heap == heap && Wired() && events.Valid()
      requires Spells(heap, tempFile, PathText(e))
      modifies heap, os`files, os`log
      modifies events`calls, events.source`records
      ensures events.Valid()
      ensures objProc.Valid()
      ensures hr == EndHr(AwaitEnding(e))
      ensures code == if AwaitEnding(e).Exited? then AwaitEnding(e).code else 0
      ensures os.log == old(os.log) + AwaitActions(e, objProc.pid, objProc.tid, AwaitEnding(e))
      ensures os.files == Changed(old(os.files), e.others)
      ensures heap.live == old(heap.live) && fresh(heap.freed - old(heap.freed))
    {
      hide ExitEventSource.Valid, Os.Valid, Process.Valid, Spells, PathText;
      code := 0;
      hr := objProc.Wait(e.wait, e.others);
      label Waited:
      if Failed(hr) {
        if hr == FromWin32(ERROR_TIMEOUT) {
          events.ReportProcessTimedOut(TIMEOUT_SECONDS, objProc.pid, objProc.tid, tempFile, PathText(e));
          objProc.StaysValid@Waited();
        }
        return;
      }
      hr, code := objProc.GetExitCode(e.exit);
      if Failed(hr) {
        return;
      }
      if code != 0 {
        events.ReportProcessFailed(objProc.pid, objProc.tid, code, tempFile, PathText(e));
      } else {
        events.ReportProcessSucceeded(objProc.pid, objProc.tid, code);
      }
      objProc.StaysValid@Waited();
    }
  }
}
