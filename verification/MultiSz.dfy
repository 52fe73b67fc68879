/** REG_MULTI_SZ data: strings one after the other, each with its NUL, and an empty one at the end.
    The walk over such data is made twice, once to count and once to store the positions. */
module MultiSz {
  import opened Wide
  import opened StrSafe

  /** Where a walk found strings, and whether it ended at an empty string rather than at one
      without an end. */
  datatype Found = Found(starts: seq<nat>, ok: bool)

  /** The walk from `at`, with `most` characters of data left. */
  function Walk(buf: WStr, at: nat, most: nat): (r: Found)
    requires at <= |buf|
    decreases most
  {
    if at == |buf| || buf[at] == NUL then Found([], true)
    else
      match Measure(buf, at, most)
      case None => Found([], false)
      case Some(n) =>
        MeasureFound(buf, at, most);
        var r := Walk(buf, at + n + 1, most - n - 1);
        Found([at] + r.starts, r.ok)
  }

  /** The walk looks at no character outside the buffer. */
  predicate InBounds(buf: WStr, at: nat, most: nat)
    requires at <= |buf|
    decreases most
  {
    at < |buf| && (buf[at] != NUL ==>
      match Measure(buf, at, most)
      case None => true
      case Some(n) =>
        MeasureFound(buf, at, most);
        InBounds(buf, at + n + 1, most - n - 1))
  }

  lemma WalkOver(buf: WStr, at: nat, most: nat, n: nat)
    requires at < |buf| && buf[at] != NUL && Measure(buf, at, most) == Some(n)
    ensures n < most && at + n < |buf| && buf[at + n] == NUL
    ensures forall j :: at <= j < at + n ==> buf[j] != NUL
    ensures var next := Walk(buf, at + n + 1, most - n - 1);
            Walk(buf, at, most) == Found([at] + next.starts, next.ok)
    ensures InBounds(buf, at, most) == InBounds(buf, at + n + 1, most - n - 1)
  {
    hide Measure;
    MeasureFound(buf, at, most);
  }

  /** The strings at the given positions. */
  function Texts(buf: WStr, starts: seq<nat>): (r: seq<WStr>)
    requires forall i :: 0 <= i < |starts| ==> starts[i] <= |buf|
    ensures |r| == |starts|
    ensures forall i :: 0 <= i < |starts| ==> r[i] == ToNul(buf[starts[i]..])
  {
    seq(|starts|, i requires 0 <= i < |starts| => ToNul(buf[starts[i]..]))
  }

  /** Every position found is the start of a non-empty string that ends inside the data. */
  lemma {:induction false} WalkStarts(buf: WStr, at: nat, most: nat, i: nat)
    requires at + most <= |buf| && i < |Walk(buf, at, most).starts|
    ensures var s := Walk(buf, at, most).starts[i];
            at <= s < at + most && buf[s] != NUL && NUL in buf[s..at + most]
    decreases most
  {
    hide Window, ToNul, Measure;
    MeasureFound(buf, at, most);
    var n := Measure(buf, at, most).value;
    if i == 0 {
      assert buf[at..at + most][n] == NUL;
    } else {
      var r := Walk(buf, at + n + 1, most - n - 1);
      assert Walk(buf, at, most).starts[i] == r.starts[i - 1];
      WalkStarts(buf, at + n + 1, most - n - 1, i - 1);
      var s := r.starts[i - 1];
      assert buf[s..at + most] == buf[s..at + n + 1 + (most - n - 1)];
    }
  }

  // ----- encoding -----

  function Encode(args: seq<WStr>): WStr {
    if args == [] then [NUL] else args[0] + [NUL] + Encode(args[1..])
  }

  /** Data that ends in two NULs, or is a single NUL. */
  predicate DoubleNul(data: WStr) {
    && data != [] && data[|data| - 1] == NUL
    && (|data| > 1 ==> data[|data| - 2] == NUL)
  }

  lemma {:induction false} EncodeLength(args: seq<WStr>)
    ensures |Encode(args)| > 0 && Encode(args)[|Encode(args)| - 1] == NUL
  {
    if args != [] {
      EncodeLength(args[1..]);
    }
  }

  /** The leading strings before the first empty one. */
  function UpToEmpty(args: seq<WStr>): (r: seq<WStr>)
    ensures r == args <==> forall i :: 0 <= i < |args| ==> args[i] != []
    ensures |r| <= |args|
  {
    if args == [] || args[0] == [] then []
    else
      var r := UpToEmpty(args[1..]);
      assert args == [args[0]] + args[1..];
      assert r == args[1..] <==> [args[0]] + r == args by {
        assert ([args[0]] + r)[1..] == r;
      }
      [args[0]] + r
  }

  /** One step of the walk, over a string found at `at`. */
  lemma {:induction false} WalkStep(buf: WStr, at: nat, most: nat, w: WStr)
    requires w != [] && NUL !in w && |w| < most && at + |w| < |buf|
    requires buf[at..at + |w|] == w && buf[at + |w|] == NUL
    ensures var next := Walk(buf, at + |w| + 1, most - |w| - 1);
            && Walk(buf, at, most) == Found([at] + next.starts, next.ok)
            && InBounds(buf, at, most) == InBounds(buf, at + |w| + 1, most - |w| - 1)
            && ToNul(buf[at..]) == w
  {
    hide Measure, ToNul, Window;
    MeasureText(buf, at, most, w);
    assert buf[at..at + |w|][0] == buf[at];
  }

  /** The positions found are those of the given texts. */
  predicate Yields(buf: WStr, starts: seq<nat>, texts: seq<WStr>) {
    && |starts| == |texts|
    && forall i :: 0 <= i < |starts| ==> starts[i] <= |buf| && ToNul(buf[starts[i]..]) == texts[i]
  }

  lemma {:induction false} YieldsMore(buf: WStr, at: nat, starts: seq<nat>, texts: seq<WStr>)
    requires at <= |buf| && Yields(buf, starts, texts)
    ensures Yields(buf, [at] + starts, [ToNul(buf[at..])] + texts)
  {}

  lemma {:induction false} WalkEncoded(buf: WStr, at: nat, args: seq<WStr>)
    requires forall i :: 0 <= i < |args| ==> NUL !in args[i]
    requires at + |Encode(args)| <= |buf| && buf[at..at + |Encode(args)|] == Encode(args)
    ensures InBounds(buf, at, |Encode(args)|)
    ensures Walk(buf, at, |Encode(args)|).ok
    ensures Yields(buf, Walk(buf, at, |Encode(args)|).starts, UpToEmpty(args))
    decreases |args|
  {
    hide Measure, ToNul, Yields;
    EncodeLength(args);
    if args == [] || args[0] == [] {
      assert buf[at] == buf[at..at + |Encode(args)|][0] == NUL;
      assert Yields(buf, [], []) by { YieldsNothing(buf); }
    } else {
      var rest := args[1..];
      EncodeLength(rest);
      EncodedAt(buf, at, args);
      WalkStep(buf, at, |Encode(args)|, args[0]);
      hide *;
      WalkEncoded(buf, at + |args[0]| + 1, rest);
      YieldsMore(buf, at, Walk(buf, at + |args[0]| + 1, |Encode(rest)|).starts, UpToEmpty(rest));
    }
  }

  lemma YieldsNothing(buf: WStr)
    ensures Yields(buf, [], [])
  {}

  lemma {:induction false} EncodedAt(buf: WStr, at: nat, args: seq<WStr>)
    requires args != []
    requires at + |Encode(args)| <= |buf| && buf[at..at + |Encode(args)|] == Encode(args)
    ensures var n := |args[0]|;
            var rest := Encode(args[1..]);
            && |Encode(args)| == n + 1 + |rest|
            && buf[at..at + n] == args[0] && buf[at + n] == NUL
            && buf[at + n + 1..at + n + 1 + |rest|] == rest
  {
    var n := |args[0]|;
    var data := Encode(args);
    assert data == args[0] + [NUL] + Encode(args[1..]);
    var found := buf[at..at + |data|];
    assert found[..n] == args[0] && found[n] == NUL && found[n + 1..] == Encode(args[1..]);
    assert found[..n] == buf[at..at + n];
    assert found[n + 1..] == buf[at + n + 1..at + |data|];
  }

  /** Round trip, exactly: data that encodes a list is walked in bounds and gives the list back if
      and only if no string in it is empty. */
  lemma {:induction false} MultiSzRoundTrip(args: seq<WStr>)
    requires forall i :: 0 <= i < |args| ==> NUL !in args[i]
    ensures var data := Encode(args);
            && InBounds(data, 0, |data|) && Walk(data, 0, |data|).ok
            && Parse(data) == UpToEmpty(args)
            && (Parse(data) == args <==> forall i :: 0 <= i < |args| ==> args[i] != [])
  {
    WalkEncoded(Encode(args), 0, args);
    assert Parse(Encode(args)) == UpToEmpty(args);
  }

  /** On data that ends in two NULs the walk stays in bounds and ends well. */
  lemma {:induction false} DoubleNulWalk(buf: WStr, at: nat, most: nat)
    requires at + most <= |buf| && 0 < most
    requires buf[at + most - 1] == NUL && (most > 1 ==> buf[at + most - 2] == NUL)
    ensures InBounds(buf, at, most) && Walk(buf, at, most).ok
    decreases most
  {
    if buf[at] != NUL {
      hide *;
      MeasureEnds(buf, at, most, at + most - 2);
      var n := Measure(buf, at, most).value;
      WalkOver(buf, at, most, n);
      DoubleNulWalk(buf, at + n + 1, most - n - 1);
    }
  }

  /** An empty string follows a NUL behind `at`. */
  predicate EmptyLater(buf: WStr, at: nat) {
    exists i :: at < i < |buf| && buf[i - 1] == NUL && buf[i] == NUL
  }

  lemma {:induction false} EmptyLaterStep(buf: WStr, at: nat, next: nat)
    requires at < next <= |buf| && buf[next - 1] == NUL
    requires forall j :: at <= j < next - 1 ==> buf[j] != NUL
    ensures EmptyLater(buf, at) <==> (next < |buf| && buf[next] == NUL) || EmptyLater(buf, next)
  {
    if next < |buf| && buf[next] == NUL {
      assert at < next < |buf| && buf[next - 1] == NUL && buf[next] == NUL;
    }
  }

  lemma MeasureLocal(data: WStr, buf: WStr, at: nat)
    requires data <= buf && at <= |data|
    ensures Measure(buf, at, |data| - at) == Measure(data, at, |data| - at)
  {
    assert Window(buf, at, |data| - at) == Window(data, at, |data| - at);
  }

  /** What lies behind the data makes no difference to a walk that stays inside it. */
  lemma {:induction false} WalkLocal(data: WStr, buf: WStr, at: nat)
    requires data <= buf && at <= |data| && InBounds(data, at, |data| - at)
    ensures Walk(buf, at, |data| - at) == Walk(data, at, |data| - at)
    ensures InBounds(buf, at, |data| - at)
    decreases |data| - at
  {
    hide Measure, Window, ToNul;
    MeasureLocal(data, buf, at);
    assert data[at] == buf[at];
    var n := Measure(data, at, |data| - at);
    if data[at] != NUL && n.Some? {
      MeasureFound(data, at, |data| - at);
      WalkLocal(data, buf, at + n.value + 1);
    }
  }

  /** The strings in registry data. */
  function Parse(data: WStr): (r: seq<WStr>)
    ensures Yields(data, Walk(data, 0, |data|).starts, r)
  {
    forall i | 0 <= i < |Walk(data, 0, |data|).starts|
      ensures Walk(data, 0, |data|).starts[i] <= |data|
    {
      WalkStarts(data, 0, |data|, i);
    }
    Texts(data, Walk(data, 0, |data|).starts)
  }

  /** Nothing read from registry data is empty or holds a NUL. */
  lemma {:induction false} ParsedNonEmpty(data: WStr, i: nat)
    requires i < |Parse(data)|
    ensures Parse(data)[i] != [] && NUL !in Parse(data)[i]
  {
    var starts := Walk(data, 0, |data|).starts;
    WalkStarts(data, 0, |data|, i);
    assert data[starts[i]..][0] != NUL;
  }

  /** Exactly when a walk to the very end of a buffer stays in bounds: unless the last string is
      terminated by the buffer's last character and no empty string comes before. */
  lemma {:induction false} InBoundsExactly(buf: WStr, at: nat)
    requires at <= |buf|
    ensures InBounds(buf, at, |buf| - at) <==>
              at < |buf| && (buf[|buf| - 1] != NUL || buf[at] == NUL || EmptyLater(buf, at))
    decreases |buf| - at
  {
    hide Measure, EmptyLater, Window, ToNul;
    var most := |buf| - at;
    if at < |buf| && buf[at] != NUL {
      if buf[|buf| - 1] == NUL {
        MeasureEnds(buf, at, most, |buf| - 1);
      }
      if Measure(buf, at, most).Some? {
        MeasureFound(buf, at, most);
        var next := at + Measure(buf, at, most).value + 1;
        InBoundsExactly(buf, next);
        EmptyLaterStep(buf, at, next);
        NothingAtTheEnd(buf);
      }
    }
  }

  lemma NothingAtTheEnd(buf: WStr)
    ensures !EmptyLater(buf, |buf|)
  {}

  /** The two passes of `Init` over the data. Pass one counts the strings. */
  method CountArguments(buf: array<WChar>, cch: nat) returns (hr: HRESULT, count: nat)
    requires cch <= buf.Length && InBounds(buf[..], 0, cch)
    ensures count == |Walk(buf[..], 0, cch).starts|
    ensures hr == if Walk(buf[..], 0, cch).ok then S_OK else STRSAFE_E_INVALID_PARAMETER
  {
    hide Window, ToNul, Measure;
    ghost var data := buf[..];
    ghost var whole := Walk(data, 0, cch);
    hr, count := S_OK, 0;
    var at: nat, most: nat := 0, cch;
    while buf[at] != NUL
      invariant at + most == cch && InBounds(data, at, most)
      invariant count + |Walk(data, at, most).starts| == |whole.starts|
      invariant Walk(data, at, most).ok == whole.ok
      invariant hr == S_OK
      decreases most
    {
      assert data[at] != NUL;
      var n;
      hr, n := StringCchLength(buf, at, most);
      if Failed(hr) {
        return;
      }
      MeasureFound(data, at, most);
      count := count + 1;
      most := most - (n + 1);
      at := at + (n + 1);
    }
    assert data[at] == NUL;
  }

  /** Pass two stores a pointer to each string, in order, into as many slots as pass one counted. */
  method FillArguments(buf: array<WChar>, cch: nat, slots: array<LPCWSTR>) returns (hr: HRESULT)
    requires cch <= buf.Length && InBounds(buf[..], 0, cch)
    requires slots.Length == |Walk(buf[..], 0, cch).starts|
    modifies slots
    ensures forall i :: 0 <= i < slots.Length ==> slots[i] == Ptr(buf, Walk(buf[..], 0, cch).starts[i])
    ensures hr == if Walk(buf[..], 0, cch).ok then S_OK else STRSAFE_E_INVALID_PARAMETER
  {
    hide Window, ToNul, Measure;
    ghost var data := buf[..];
    ghost var whole := Walk(data, 0, cch);
    hr := S_OK;
    var at: nat, most: nat, index := 0, cch, 0;
    while buf[at] != NUL
      invariant at + most == cch && InBounds(data, at, most)
      invariant index <= slots.Length && Walk(data, at, most).starts == whole.starts[index..]
      invariant Walk(data, at, most).ok == whole.ok && hr == S_OK
      invariant forall i :: 0 <= i < index ==> slots[i] == Ptr(buf, whole.starts[i])
      decreases most
    {
      assert data[at] != NUL;
      var n;
      hr, n := StringCchLength(buf, at, most);
      if Failed(hr) {
        return;
      }
      MeasureFound(data, at, most);
      assert whole.starts[index..][0] == at;
      slots[index] := Ptr(buf, at);
      assert whole.starts[index..][1..] == whole.starts[index + 1..];
      index := index + 1;
      most := most - (n + 1);
      at := at + (n + 1);
    }
    assert data[at] == NUL;
  }
}
