/** 16-bit characters, C strings and result codes, as the exit module uses them. */
module Wide {

  newtype WChar = c: int | 0 <= c < 0x1_0000

  const NUL: WChar := 0
  const TAB: WChar := 9
  const SPACE: WChar := 32
  const DQUOTE: WChar := 34
  const APOSTROPHE: WChar := 39
  const BACKSLASH: WChar := 92

  type WStr = seq<WChar>
  type Bytes = seq<bv8>

  datatype Option<+T> = None | Some(value: T)

  /** A wide string literal, `L"..."` in C++. */
  function L(s: string): (w: WStr)
    requires forall i :: 0 <= i < |s| ==> s[i] as int < 0x1_0000
    ensures |w| == |s|
    ensures forall i :: 0 <= i < |s| ==> w[i] == s[i] as int as WChar
  {
    seq(|s|, i requires 0 <= i < |s| => s[i] as int as WChar)
  }

  /** The text of a C string stored in `s`: everything before the first NUL. */
  function ToNul(s: WStr): (t: WStr)
    ensures NUL !in t
    ensures t <= s
    ensures |t| < |s| ==> s[|t|] == NUL
  {
    if s == [] || s[0] == NUL then [] else [s[0]] + ToNul(s[1..])
  }

  lemma {:induction false} ToNulIs(s: WStr, n: nat)
    requires n < |s| && s[n] == NUL && NUL !in s[..n]
    ensures ToNul(s) == s[..n]
  {
    if n > 0 {
      assert s[0] == s[..n][0];
      assert s[1..][..n - 1] == s[..n][1..];
      ToNulIs(s[1..], n - 1);
      assert s[..n] == [s[0]] + s[1..][..n - 1];
    }
  }

  /** A `const WCHAR*`: null, or a position inside a block. */
  datatype LPCWSTR = Null | Ptr(block: array<WChar>, off: nat)

  /** What a C function may follow: a NUL lies at or after the position, inside the block. */
  ghost predicate IsCString(p: LPCWSTR)
    reads if p.Ptr? then {p.block} else {}
  {
    p.Ptr? && p.off <= p.block.Length && NUL in p.block[p.off..]
  }

  ghost function CText(p: LPCWSTR): (t: WStr)
    requires IsCString(p)
    reads if p.Ptr? then {p.block} else {}
    ensures NUL !in t
    ensures p.off + |t| < p.block.Length
    ensures p.block[p.off..p.off + |t|] == t && p.block[p.off + |t|] == NUL
  {
    var s := p.block[p.off..];
    var t := ToNul(s);
    assert |t| < |s|;
    assert t == s[..|t|];
    t
  }

  // ----- result codes -----

  type HRESULT = h: int | -0x8000_0000 <= h < 0x8000_0000

  /** What a failing Win32 call leaves for GetLastError: a non-zero 16-bit code. */
  type Win32Error = e: int | 0 < e < 0x1_0000 witness 1

  const S_OK: HRESULT := 0
  const E_ABORT: HRESULT := 0x8000_4004 - 0x1_0000_0000
  const E_UNEXPECTED: HRESULT := 0x8000_FFFF - 0x1_0000_0000
  const E_OUTOFMEMORY: HRESULT := 0x8007_000E - 0x1_0000_0000
  const STRSAFE_E_INSUFFICIENT_BUFFER: HRESULT := 0x8007_007A - 0x1_0000_0000
  const STRSAFE_E_INVALID_PARAMETER: HRESULT := 0x8007_0057 - 0x1_0000_0000

  const ERROR_TIMEOUT: Win32Error := 1460
  const ERROR_INVALID_OPERATION: Win32Error := 4317

  predicate Failed(hr: HRESULT) {
    hr < 0
  }

  /** HRESULT_FROM_WIN32 on a non-zero code. */
  function FromWin32(e: Win32Error): (hr: HRESULT)
    ensures Failed(hr)
  {
    e + 0x8007_0000 - 0x1_0000_0000
  }

  /** The outcome of a Win32 call that only succeeds or fails. */
  datatype Win = Done | Error(code: Win32Error)
}
