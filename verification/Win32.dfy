/** The operating system as the exit module sees it: files, handles, and a log of what the module
    did. Each call takes the outcome the system chooses for it as a parameter. */
module Win32 {
  import opened Wide
  import opened Buffers

  type Handle = int
  const INVALID_HANDLE_VALUE: Handle := -1
  const MAX_PATH: nat := 260

  datatype NameResult = Named(path: WStr) | NameError(code: Win32Error)
  datatype WriteResult = Wrote(n: nat) | WriteError(code: Win32Error)
  datatype StartResult = Started(pid: nat, tid: nat) | StartError(code: Win32Error)
  datatype WaitResult = Signalled | WaitAbandoned | WaitTimeout | WaitError(code: Win32Error) | WaitOther
  datatype ExitResult = ExitCode(value: nat) | ExitError(code: Win32Error)

  type Files = map<WStr, Bytes>

  /** What others do to the file system. */
  datatype FileChange = FileChange(written: Files, deleted: set<WStr>)

  function Changed(files: Files, change: FileChange): Files {
    (files - change.deleted) + change.written
  }

  predicate Touches(change: FileChange, path: WStr) {
    path in change.written || path in change.deleted
  }

  /** What the certificate server can announce. */
  datatype ExitEvent =
    | CertIssued | CertPending | CertDenied | CertRevoked | CertRetrievePending
    | CrlIssued | Shutdown | CertImported | Unknown(code: int)

  /** The calls that report to the Windows event log. */
  datatype Report =
    | StartFailed(exe: WStr, attempted: Option<WStr>, hr: HRESULT)
    | StartSucceeded(exe: WStr, line: WStr, pid: nat, tid: nat)
    | ProcessTimedOut(seconds: nat, pid: nat, tid: nat, file: WStr)
    | ProcessFailed(pid: nat, tid: nat, code: nat, file: WStr)
    | ProcessSucceeded(pid: nat, tid: nat, code: nat)
    | NotifyFailed(event: ExitEvent, context: int, hr: HRESULT)

  datatype Action =
    | Launch(line: WStr)
    | Reported(report: Report)
    | Delete(path: WStr, done: bool)

  class Os {
    ghost var files: Files
    ghost var open: map<Handle, WStr>
    ghost var objects: set<Handle>
    ghost var log: seq<Action>
    var next: nat

    ghost predicate Valid()
      reads this`open, this`objects, this`next
    {
      && (forall h :: h in open ==> 0 <= h < next && h !in objects)
      && (forall h :: h in objects ==> 0 <= h < next)
    }

    constructor (ghost files: Files)
      ensures Valid() && this.files == files && open == map[] && objects == {} && log == []
    {
      this.files, open, objects, log, next := files, map[], {}, [], 0;
    }

    /** GetTempFileNameW with uUnique 0: picks a name not in use and creates the empty file. */
    method GetTempFileName(result: NameResult, dest: array<WChar>) returns (ok: bool)
      requires result.Named? ==> result.path !in files && NUL !in result.path && |result.path| < dest.Length
      modifies this`files, dest
      ensures ok == result.Named?
      ensures ok ==> files == old(files)[result.path := []]
      ensures ok ==> IsCString(Ptr(dest, 0)) && CText(Ptr(dest, 0)) == result.path
      ensures !ok ==> files == old(files)
    {
      if result.NameError? {
        return false;
      }
      var path := result.path;
      files := files[path := []];
      forall i | 0 <= i <= |path| {
        dest[i] := if i < |path| then path[i] else NUL;
      }
      assert dest[0..] == dest[..] && dest[..][|path|] == NUL && dest[..][..|path|] == path;
      ToNulIs(dest[..], |path|);
      ok := true;
    }

    /** CreateFileW with CREATE_ALWAYS. */
    method CreateFile(heap: Heap, path: LPCWSTR, result: Win, ghost text: WStr) returns (h: Handle)
      requires Valid() && Spells(heap, path, text)
      modifies this`files, this`open, this`next
      ensures Valid()
      ensures result.Done? ==> h == old(next) && files == old(files)[text := []] && open == old(open)[h := text]
      ensures result.Error? ==> h == INVALID_HANDLE_VALUE && files == old(files) && open == old(open)
    {
      h := INVALID_HANDLE_VALUE;
      if result.Done? {
        h := next;
        next := next + 1;
        files, open := files[text := []], open[h := text];
      }
    }

    /** WriteFile behind what this handle has written so far. */
    method WriteFile(h: Handle, data: array?<bv8>, index: nat, count: nat, result: WriteResult)
      returns (ok: bool, n: nat)
      requires h in open && open[h] in files
      requires data != null && index + count <= data.Length
      requires result.Wrote? ==> result.n <= count
      modifies this`files
      ensures ok == result.Wrote? && n == (if ok then result.n else 0)
      ensures files == old(files)[open[h] := old(files)[open[h]] + data[index..index + n]]
    {
      match result
      case WriteError(_) =>
        ok, n := false, 0;
        assert files[open[h]] + data[index..index + 0] == files[open[h]];
      case Wrote(k) =>
        ok, n := true, k;
        files := files[open[h] := files[open[h]] + data[index..index + k]];
    }

    method CloseHandle(h: Handle)
      requires Valid() && (h in open || h in objects)
      modifies this`open, this`objects
      ensures Valid()
      ensures open == old(open) - {h} && objects == old(objects) - {h}
    {
      open, objects := open - {h}, objects - {h};
    }

    method DeleteFile(heap: Heap, path: LPCWSTR, done: bool, ghost text: WStr)
      requires Spells(heap, path, text)
      modifies this`files, this`log
      ensures files == if done then old(files) - {text} else old(files)
      ensures log == old(log) + [Delete(text, done)]
    {
      if done {
        files := files - {text};
      }
      log := log + [Delete(text, done)];
    }

    /** CreateProcessW; a failing call leaves the process information as it was, and no call changes
        the line it is given. */
    method CreateProcess(heap: Heap, line: LPCWSTR, result: StartResult, ghost text: WStr)
      returns (ok: bool, hProcess: Handle, hThread: Handle)
      requires Valid() && Spells(heap, line, text)
      modifies this`objects, this`next, this`log
      ensures Valid() && ok == result.Started?
      ensures log == old(log) + [Launch(text)]
      ensures ok ==> hProcess == old(next) && hThread == old(next) + 1
      ensures objects == if ok then old(objects) + {hProcess, hThread} else old(objects)
    {
      ok, hProcess, hThread := result.Started?, INVALID_HANDLE_VALUE, INVALID_HANDLE_VALUE;
      log := log + [Launch(text)];
      if ok {
        hProcess, hThread := next, next + 1;
        next := next + 2;
        objects := objects + {hProcess, hThread};
      }
    }

    /** WaitForSingleObject: while the module waits, others may change files. */
    method WaitForSingleObject(h: Handle, ghost others: FileChange)
      requires h in objects
      modifies this`files
      ensures files == Changed(old(files), others)
    {
      files := Changed(files, others);
    }
  }
}
