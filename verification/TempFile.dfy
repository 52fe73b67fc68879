/** A temp file that is deleted when its object is destroyed, unless it is preserved. */
module TempFiles {
  import opened Wide
  import opened Buffers
  import opened StrSafe
  import opened Win32

  /** What `Create` returns for an object holding a path of `held` characters. */
  function CreateResult(held: nat, text: WStr, memory: bool, result: Win): HRESULT {
    if held > 0 then FromWin32(ERROR_INVALID_OPERATION)
    else if |text| > MAX_PATH then STRSAFE_E_INVALID_PARAMETER
    else if !memory then E_OUTOFMEMORY
    else if result.Error? then FromWin32(result.code)
    else S_OK
  }

  class TempFile {
    const os: Os
    const path: HeapBuffer<WChar>
    var hFile: Handle
    var preserve: bool
    /** The text of `path`, while there is one. */
    ghost var name: WStr

    ghost predicate Valid()
      reads this, os`open, os`objects, os`next, path, path.heap, path.p
    {
      && os.Valid() && path.Valid()
      && (path.p == null <==> path.length == 0)
      && (path.p != null ==> Spells(path.heap, Ptr(path.p, 0), name))
      && (hFile != INVALID_HANDLE_VALUE ==> path.length > 0 && hFile in os.open && os.open[hFile] == name)
    }

    constructor (os: Os, heap: Heap)
      requires os.Valid()
      ensures Valid() && this.os == os && fresh(path) && path.heap == heap && path.p == null
      ensures hFile == INVALID_HANDLE_VALUE && !preserve
    {
      this.os := os;
      path := new HeapBuffer(heap);
      hFile, preserve, name := INVALID_HANDLE_VALUE, false, [];
    }

    /** Keeps a copy of the path, if it is no longer than a path may be and there is memory. */
    method CopyPath(file: LPCWSTR, memory: bool, ghost text: WStr) returns (hr: HRESULT)
      requires path.Valid() && path.p == null
      requires Spells(path.heap, file, text)
      modifies path, path.heap
      ensures path.Valid() && (path.p == null <==> path.length == 0)
      ensures hr == CreateResult(0, text, memory, Done)
      ensures path.p == null <==> Failed(hr)
      ensures path.p != null ==> fresh(path.p) && Spells(path.heap, Ptr(path.p, 0), text)
      ensures path.heap.live == old(path.heap.live) + path.Owned()
      ensures path.heap.freed == old(path.heap.freed) && Spells(path.heap, file, text)
    {
      hide CText, IsCString, ToNul;
      var n;
      hr, n := PathLength(file, text);
      if Failed(hr) {
        return;
      }
      var ok := path.Alloc(n + 1, memory);
      if !ok {
        return E_OUTOFMEMORY;
      }
      hr := StringCchCopy(path.heap, path.p, file, text);
    }

    /** Nothing that others allocate and release disturbs the object. */
    twostate lemma StaysValid()
      requires old(Valid()) && os.Valid()
      requires unchanged(path) && (path.p != null ==> unchanged(path.p))
      requires hFile == old(hFile) && name == old(name)
      requires old(path.heap.live) <= path.heap.live
      requires fresh(path.heap.freed - old(path.heap.freed))
      requires os.open == old(os.open)
      ensures Valid()
    {}

    /** Takes over the file at `file`, emptying it. */
    method Create(file: LPCWSTR, memory: bool, result: Win, ghost text: WStr) returns (hr: HRESULT)
      requires Valid()
      requires Spells(path.heap, file, text)
      modifies this, path, path.heap, os`files, os`open, os`objects, os`next
      ensures Valid() && preserve == old(preserve) && os.objects == old(os.objects)
      ensures path.heap.live == old(path.heap.live) - old(path.Owned()) + path.Owned()
      ensures fresh(path.heap.freed - old(path.heap.freed))
      ensures hr == CreateResult(old(path.length), text, memory, result)
      ensures hr == if old(path.length) > 0 then 0x8007_10DD - 0x1_0000_0000
                    else if |text| > 260 then 0x8007_0057 - 0x1_0000_0000
                    else if !memory then 0x8007_000E - 0x1_0000_0000
                    else if result.Error? then 0x8007_0000 + result.code - 0x1_0000_0000
                    else 0
      ensures fresh(path.Owned() - old(path.Owned()))
      ensures hr == S_OK && old(path.p) == null ==> path.heap.freed == old(path.heap.freed)
      ensures hr == S_OK ==>
        && path.length > 0 && name == text && hFile != INVALID_HANDLE_VALUE && hFile !in old(os.open)
        && os.files == old(os.files)[text := []] && os.open == old(os.open)[hFile := text]
      ensures hr != S_OK ==>
        && path.length == old(path.length) && hFile == old(hFile)
        && os.files == old(os.files) && os.open == old(os.open)
    {
      hide Spells;
      if path.length > 0 {
        return FromWin32(ERROR_INVALID_OPERATION);
      }
      Close();
      hr := CopyPath(file, memory, text);
      if Failed(hr) {
        return;
      }
      name := text;
      hFile := os.CreateFile(path.heap, file, result, text);
      if hFile == INVALID_HANDLE_VALUE {
        hr := FromWin32(result.code);
        path.Clear();
      }
    }

    /** The length of the path, if it is no longer than a path may be. */
    method PathLength(file: LPCWSTR, ghost text: WStr) returns (hr: HRESULT, n: nat)
      requires Spells(path.heap, file, text)
      ensures hr == if |text| <= MAX_PATH then S_OK else STRSAFE_E_INVALID_PARAMETER
      ensures |text| <= MAX_PATH ==> n == |text|
    {
      ghost var chars := file.block[..];
      assert chars[file.off..] == file.block[file.off..];
      if |text| <= MAX_PATH {
        MeasureText(chars, file.off, MAX_PATH + 1, text);
      } else {
        assert Window(chars, file.off, MAX_PATH + 1) == text[..MAX_PATH + 1];
      }
      hr, n := StringCchLength(file.block, file.off, MAX_PATH + 1);
    }

    method Close()
      requires Valid()
      modifies this`hFile, os`open, os`objects
      ensures Valid() && hFile == INVALID_HANDLE_VALUE
      ensures os.open == old(os.open) - {old(hFile)} && os.objects == old(os.objects)
    {
      if hFile != INVALID_HANDLE_VALUE {
        os.CloseHandle(hFile);
        hFile := INVALID_HANDLE_VALUE;
      }
    }

    method Preserve()
      modifies this`preserve
      ensures preserve
    {
      preserve := true;
    }

    /** Writes `count` bytes of the buffer, as a DWORD holds it, from `index`. */
    method Write(buf: HeapBuffer<bv8>, index: nat, count: nat, result: WriteResult) returns (hr: HRESULT, written: nat)
      requires Valid() && buf.Valid() && buf.p != null
      requires hFile != INVALID_HANDLE_VALUE ==> name in os.files
      requires index + count % 0x1_0000_0000 <= buf.length
      requires result.Wrote? ==> result.n <= count % 0x1_0000_0000
      modifies os`files
      ensures Valid()
      ensures hFile == INVALID_HANDLE_VALUE ==>
        hr == FromWin32(ERROR_INVALID_OPERATION) && written == 0 && os.files == old(os.files)
      ensures hFile != INVALID_HANDLE_VALUE ==>
        && hr == (if result.WriteError? then FromWin32(result.code) else S_OK)
        && written == (if result.WriteError? then 0 else result.n)
        && os.files == old(os.files)[name := old(os.files)[name] + buf.p[index..index + written]]
    {
      if hFile == INVALID_HANDLE_VALUE {
        return FromWin32(ERROR_INVALID_OPERATION), 0;
      }
      var ok, n := os.WriteFile(hFile, buf.p, index, count % 0x1_0000_0000, result);
      if !ok {
        return FromWin32(result.code), 0;
      }
      return S_OK, n;
    }

    /** The destructor: closes the file, and deletes it unless it is preserved. */
    method Destroy(deleted: bool)
      requires Valid()
      modifies this, path, path.heap, os`files, os`open, os`objects, os`log
      ensures os.Valid() && os.objects == old(os.objects)
      ensures os.open == old(os.open) - {old(hFile)}
      ensures path.heap.live == old(path.heap.live) - old(path.Owned())
      ensures path.heap.freed == old(path.heap.freed) + old(path.Owned())
      ensures old(!preserve && path.length > 0) ==>
        && os.files == (if deleted then old(os.files) - {old(name)} else old(os.files))
        && os.log == old(os.log) + [Delete(old(name), deleted)]
      ensures old(preserve || path.length == 0) ==> os.files == old(os.files) && os.log == old(os.log)
    {
      Close();
      if !preserve {
        if path.length > 0 {
          os.DeleteFile(path.heap, Ptr(path.p, 0), deleted, name);
        }
      }
      path.Clear();
    }
  }
}
