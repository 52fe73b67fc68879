/** The string functions of strsafe.h the module calls, with the behaviour their documentation
    gives for the flags used. */
module StrSafe {
  import opened Wide
  import opened Buffers

  function Min(a: nat, b: nat): nat {
    if a <= b then a else b
  }

  /** What a buffer of `capacity` characters holds of a text: all of it if its NUL fits as well. */
  function Truncated(text: WStr, capacity: nat): WStr
    requires capacity > 0
  {
    text[..Min(|text|, capacity - 1)]
  }

  predicate Fits(text: WStr, capacity: nat) {
    |text| < capacity
  }

  /** The cursor `at`, `remaining` characters before the end, is behind what fits of `text`. */
  ghost predicate Behind(dest: array<WChar>, at: nat, remaining: nat, text: WStr)
    reads dest
  {
    && at + remaining == dest.Length && remaining > 0
    && dest[..at] == Truncated(text, dest.Length)
  }

  lemma BehindNothing(dest: array<WChar>)
    requires dest.Length > 0
    ensures Behind(dest, 0, dest.Length, [])
  {}

  /** Once the text written so far has overflowed, the buffer holds all it will ever hold. */
  lemma OverflowIsFinal(dest: array<WChar>, at: nat, remaining: nat, written: WStr, whole: WStr)
    requires Behind(dest, at, remaining, written) && !Fits(written, dest.Length)
    requires written <= whole
    ensures Behind(dest, at, remaining, whole)
  {}

  /** StringCchCopyExW at a cursor: appends what fits of a text to the `before` already written,
      terminates it, and moves the cursor onto the terminator. */
  method StringCchCopyEx(heap: Heap, dest: array<WChar>, at: nat, remaining: nat, src: LPCWSTR,
                         ghost before: WStr, ghost text: WStr)
    returns (hr: HRESULT, at': nat, remaining': nat)
    requires Behind(dest, at, remaining, before) && Fits(before, dest.Length)
    requires Spells(heap, src, text) && src.block != dest
    modifies dest
    ensures hr == if Fits(before + text, dest.Length) then S_OK else STRSAFE_E_INSUFFICIENT_BUFFER
    ensures Behind(dest, at', remaining', before + text) && at' < dest.Length && dest[at'] == NUL
  {
    hide Spells, IsCString, CText;
    ghost var whole := before + text;
    assert dest[..at] == whole[..at];
    hr, at', remaining' := S_OK, at, remaining;
    var k := 0;
    SpelledAt(heap, src, text, k);
    while remaining' > 1 && src.block[src.off + k] != NUL
      invariant k <= |text| && at' == at + k && at' + remaining' == dest.Length && remaining' >= 1
      invariant src.off + |text| < src.block.Length && Spells(heap, src, text)
      invariant src.block[src.off + k] == NUL <==> k == |text|
      invariant dest[..at'] == whole[..at']
      decreases remaining'
    {
      SpelledAt(heap, src, text, k);
      assert src.block[src.off + k] == whole[at'];
      dest[at'] := src.block[src.off + k];
      at', remaining', k := at' + 1, remaining' - 1, k + 1;
      SpelledAt(heap, src, text, k);
    }
    if src.block[src.off + k] != NUL {
      hr := STRSAFE_E_INSUFFICIENT_BUFFER;
    }
    dest[at'] := NUL;
    assert dest[..at'] == whole[..at'] == Truncated(whole, dest.Length);
  }

  /** The buffer reads as what fits of the text. */
  ghost predicate Shows(dest: array<WChar>, text: WStr)
    reads dest
  {
    dest.Length > 0 && IsCString(Ptr(dest, 0)) && CText(Ptr(dest, 0)) == Truncated(text, dest.Length)
  }

  lemma BehindShows(dest: array<WChar>, at: nat, remaining: nat, text: WStr)
    requires Behind(dest, at, remaining, text) && at < dest.Length && dest[at] == NUL && NUL !in text
    ensures Shows(dest, text)
  {
    assert dest[0..] == dest[..] && dest[..][at] == NUL && dest[..][..at] == dest[..at];
    ToNulIs(dest[..], at);
  }

  /** StringCchCopyW into a buffer of its own. */
  method StringCchCopy(heap: Heap, dest: array<WChar>, src: LPCWSTR, ghost text: WStr) returns (hr: HRESULT)
    requires dest.Length > 0 && Spells(heap, src, text) && src.block != dest
    modifies dest
    ensures hr == if Fits(text, dest.Length) then S_OK else STRSAFE_E_INSUFFICIENT_BUFFER
    ensures Shows(dest, text)
  {
    BehindNothing(dest);
    assert [] + text == text;
    var at, remaining;
    hr, at, remaining := StringCchCopyEx(heap, dest, 0, dest.Length, src, [], text);
    BehindShows(dest, at, remaining, text);
  }

  /** The characters StringCchLengthW may look at. */
  function Window(s: WStr, at: nat, most: nat): WStr
    requires at <= |s|
  {
    s[at..Min(at + most, |s|)]
  }

  /** The length of the C string at `at`, if it ends within `most` characters. */
  function Measure(s: WStr, at: nat, most: nat): Option<nat>
    requires at <= |s|
  {
    var window := Window(s, at, most);
    if NUL in window then Some(|ToNul(window)|) else None
  }

  lemma {:induction false} MeasureFound(s: WStr, at: nat, most: nat)
    requires at <= |s| && Measure(s, at, most).Some?
    ensures var n := Measure(s, at, most).value;
            && n < most && at + n < |s| && s[at + n] == NUL
            && (forall j :: at <= j < at + n ==> s[j] != NUL)
  {
    var window := Window(s, at, most);
    var t := ToNul(window);
    assert t != window;
    assert forall j :: at <= j < at + |t| ==> s[j] == t[j - at];
  }

  lemma MeasureEnds(s: WStr, at: nat, most: nat, k: nat)
    requires at <= k < at + most && k < |s| && s[k] == NUL
    ensures Measure(s, at, most).Some?
  {
    assert Window(s, at, most)[k - at] == NUL;
  }

  /** A NUL-terminated text found at `at` is the string there. */
  lemma {:induction false} MeasureText(s: WStr, at: nat, most: nat, w: WStr)
    requires NUL !in w && |w| < most && at + |w| < |s|
    requires s[at..at + |w|] == w && s[at + |w|] == NUL
    ensures Measure(s, at, most) == Some(|w|) && ToNul(s[at..]) == w
  {
    var window := Window(s, at, most);
    assert window[|w|] == NUL && window[..|w|] == w;
    ToNulIs(window, |w|);
    assert s[at..][|w|] == NUL && s[at..][..|w|] == w;
    ToNulIs(s[at..], |w|);
  }

  /** StringCchLengthW. */
  method StringCchLength(s: array<WChar>, at: nat, most: nat) returns (hr: HRESULT, n: nat)
    requires at <= s.Length && (at + most <= s.Length || NUL in s[at..])
    ensures match Measure(s[..], at, most)
            case Some(k) => hr == S_OK && n == k
            case None => hr == STRSAFE_E_INVALID_PARAMETER && n == 0
  {
    ghost var rest := s[at..];
    assert Window(s[..], at, most) == rest[..Min(most, |rest|)];
    n := 0;
    while n < most && s[at + n] != NUL
      invariant n <= most && n <= |rest|
      invariant NUL !in rest[..n]
    {
      assert rest[..n + 1] == rest[..n] + [s[at + n]];
      n := n + 1;
      assert n == |rest| ==> rest[..n] == rest;
    }
    if n == most {
      hr, n := STRSAFE_E_INVALID_PARAMETER, 0;
    } else {
      hr := S_OK;
      assert s[..][at..at + n] == rest[..n];
      MeasureText(s[..], at, most, rest[..n]);
    }
  }
}
