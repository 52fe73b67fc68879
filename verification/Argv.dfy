/** How a Windows program splits the command line it is started with into argv: the documented
    Microsoft C/C++ rules. The program name is read without backslash handling; in the other
    arguments 2n backslashes before a double quote stand for n backslashes and the quote opens or
    closes a quoted part, 2n+1 stand for n backslashes and a literal quote, and a doubled quote
    inside a quoted part is a literal quote. Blanks outside quotes separate arguments. */
module Argv {
  import opened Wide

  predicate IsBlank(c: WChar) {
    c == SPACE || c == TAB
  }

  function Slashes(n: nat): (s: WStr)
    ensures |s| == n
    ensures forall i :: 0 <= i < n ==> s[i] == BACKSLASH
  {
    seq(n, i => BACKSLASH)
  }

  /** Reads the program name; returns it and what follows the blank that ended it. */
  function ScanProgram(s: WStr, quoted: bool): (r: (WStr, WStr))
    ensures |r.1| <= |s|
  {
    if s == [] then ([], [])
    else if s[0] == DQUOTE then ScanProgram(s[1..], !quoted)
    else if !quoted && IsBlank(s[0]) then ([], s[1..])
    else
      var (name, rest) := ScanProgram(s[1..], quoted);
      ([s[0]] + name, rest)
  }

  /** Reads the rest of one argument, `slashes` backslashes of which are still undecided;
      returns it and the line from the blank that ended it. */
  function ScanArgument(s: WStr, quoted: bool, slashes: nat): (r: (WStr, WStr))
    ensures |r.1| <= |s|
    ensures s != [] && (quoted || !IsBlank(s[0])) ==> |r.1| < |s|
    decreases |s|
  {
    if s == [] then (Slashes(slashes), [])
    else if s[0] == BACKSLASH then ScanArgument(s[1..], quoted, slashes + 1)
    else if s[0] == DQUOTE then
      if slashes % 2 == 1 then
        var (arg, rest) := ScanArgument(s[1..], quoted, 0);
        (Slashes(slashes / 2) + [DQUOTE] + arg, rest)
      else if quoted && |s| > 1 && s[1] == DQUOTE then
        var (arg, rest) := ScanArgument(s[2..], quoted, 0);
        (Slashes(slashes / 2) + [DQUOTE] + arg, rest)
      else
        var (arg, rest) := ScanArgument(s[1..], !quoted, 0);
        (Slashes(slashes / 2) + arg, rest)
    else if !quoted && IsBlank(s[0]) then (Slashes(slashes), s)
    else
      var (arg, rest) := ScanArgument(s[1..], quoted, 0);
      (Slashes(slashes) + [s[0]] + arg, rest)
  }

  function SplitArguments(s: WStr): seq<WStr>
    decreases |s|
  {
    if s == [] then []
    else if IsBlank(s[0]) then SplitArguments(s[1..])
    else
      var (arg, rest) := ScanArgument(s, false, 0);
      [arg] + SplitArguments(rest)
  }

  /** The argv of a program started with the command line `line`. */
  function SplitCommandLine(line: WStr): seq<WStr> {
    var (name, rest) := ScanProgram(line, false);
    [name] + SplitArguments(rest)
  }

  /** Backslashes are taken literally until it is known what follows them. */
  lemma {:induction false} PendingSlashes(n: nat, s: WStr, quoted: bool, slashes: nat)
    ensures ScanArgument(Slashes(n) + s, quoted, slashes) == ScanArgument(s, quoted, slashes + n)
  {
    if n == 0 {
      assert Slashes(n) + s == s;
    } else {
      assert (Slashes(n) + s)[1..] == Slashes(n - 1) + s;
      PendingSlashes(n - 1, s, quoted, slashes + 1);
    }
  }

  /** The documented rules: before a double quote 2n backslashes give n and the quote opens or
      closes, 2n+1 give n and a literal quote; a doubled quote inside quotes is a literal quote;
      before anything else backslashes are literal. */
  lemma {:induction false} BackslashRules(n: nat, s: WStr, quoted: bool)
    requires s == [] || s[0] != BACKSLASH
    ensures var r := ScanArgument(Slashes(n) + s, quoted, 0);
            var doubled := quoted && |s| > 1 && s[1] == DQUOTE;
            var next := if s == [] || s[0] != DQUOTE then ScanArgument(s, quoted, 0)
                        else if n % 2 == 1 then ScanArgument(s[1..], quoted, 0)
                        else if doubled then ScanArgument(s[2..], quoted, 0)
                        else ScanArgument(s[1..], !quoted, 0);
            && r.1 == next.1
            && (s == [] || s[0] != DQUOTE ==> r.0 == Slashes(n) + next.0)
            && (s != [] && s[0] == DQUOTE && (n % 2 == 1 || doubled) ==>
                  r.0 == Slashes(n / 2) + [DQUOTE] + next.0)
            && (s != [] && s[0] == DQUOTE && n % 2 == 0 && !doubled ==> r.0 == Slashes(n / 2) + next.0)
  {
    PendingSlashes(n, s, quoted, 0);
    assert Slashes(0) == [];
  }

  // ----- what an argument costs -----

  predicate HasBlank(s: WStr) {
    SPACE in s || TAB in s
  }

  function SpaceCount(s: WStr): nat {
    if s == [] then 0 else (if s[0] == SPACE then 1 else 0) + SpaceCount(s[1..])
  }

  lemma {:induction false} SpaceCountConcat(a: WStr, b: WStr)
    ensures SpaceCount(a + b) == SpaceCount(a) + SpaceCount(b)
  {
    if a == [] {
      assert a + b == b;
    } else {
      assert (a + b)[1..] == a[1..] + b;
      SpaceCountConcat(a[1..], b);
    }
  }

  lemma {:induction false} SpaceCountSlashes(n: nat)
    ensures SpaceCount(Slashes(n)) == 0
  {
    if n > 0 {
      assert Slashes(n)[1..] == Slashes(n - 1);
      SpaceCountSlashes(n - 1);
    }
  }

  /** How much of the line an argument takes. */
  function Taken(s: WStr, quoted: bool, slashes: nat): nat {
    |s| - |ScanArgument(s, quoted, slashes).1|
  }

  /** What is read next: the characters it stands for, whether it is a quote that switches, and
      where reading goes on. */
  datatype Turn = Stop | Turn(text: WStr, length: nat, quoted: bool, slashes: nat)

  function NextTurn(s: WStr, quoted: bool, slashes: nat): Turn {
    if s == [] || (!quoted && IsBlank(s[0])) then Stop
    else if s[0] == BACKSLASH then Turn([], 1, quoted, slashes + 1)
    else if s[0] == DQUOTE then
      if slashes % 2 == 1 then Turn(Slashes(slashes / 2) + [DQUOTE], 1, quoted, 0)
      else if quoted && |s| > 1 && s[1] == DQUOTE then Turn(Slashes(slashes / 2) + [DQUOTE], 2, quoted, 0)
      else Turn(Slashes(slashes / 2), 1, !quoted, 0)
    else Turn(Slashes(slashes) + [s[0]], 1, quoted, 0)
  }

  lemma {:induction false} ScanTurn(s: WStr, quoted: bool, slashes: nat)
    ensures var t := NextTurn(s, quoted, slashes);
            var r := ScanArgument(s, quoted, slashes);
            if t.Stop? then r.0 == Slashes(slashes) && r.1 == s
            else
              && t.length <= |s|
              && r.0 == t.text + ScanArgument(s[t.length..], t.quoted, t.slashes).0
              && r.1 == ScanArgument(s[t.length..], t.quoted, t.slashes).1
  {}

  lemma {:induction false} TakenTurn(s: WStr, quoted: bool, slashes: nat)
    requires NextTurn(s, quoted, slashes).Turn?
    ensures var t := NextTurn(s, quoted, slashes);
            && t.length <= |s|
            && Taken(s, quoted, slashes) == t.length + Taken(s[t.length..], t.quoted, t.slashes)
  {
    ScanTurn(s, quoted, slashes);
  }

  lemma TakenParts(s: WStr, length: nat, k: nat)
    requires length + k <= |s|
    ensures s[..length + k] == s[..length] + s[length..][..k]
    ensures s[length + k..] == s[length..][k..]
  {}

  /** An argument is never longer than what it takes; a quote, and the end of a quoted part, costs a
      character. */
  lemma {:induction false} ScanCost(s: WStr, quoted: bool, slashes: nat)
    ensures var r := ScanArgument(s, quoted, slashes);
            var k := Taken(s, quoted, slashes);
            && r.1 == s[k..]
            && |r.0| <= slashes + k
            && (DQUOTE in s[..k] ==> |r.0| < slashes + k)
            && (quoted && r.1 != [] ==> |r.0| < slashes + k)
    decreases |s|
  {
    ScanTurn(s, quoted, slashes);
    var t := NextTurn(s, quoted, slashes);
    if t.Turn? {
      var rest := s[t.length..];
      ScanCost(rest, t.quoted, t.slashes);
      TakenTurn(s, quoted, slashes);
      hide ScanArgument, Taken;
      TakenParts(s, t.length, Taken(rest, t.quoted, t.slashes));
    }
  }

  /** Nothing is read as an empty argument, or as one with a blank, without a quote before it and,
      unless the line ends there, one behind it. */
  lemma {:induction false} ScanBlankCost(s: WStr, slashes: nat)
    ensures var r := ScanArgument(s, false, slashes);
            var k := Taken(s, false, slashes);
            && (slashes > 0 ==> r.0 != [])
            && (HasBlank(r.0) || (r.0 == [] && k > 0) ==>
                  |r.0| < slashes + k && (r.1 != [] ==> |r.0| + 2 <= slashes + k))
    decreases |s|
  {
    ScanTurn(s, false, slashes);
    var t := NextTurn(s, false, slashes);
    if t.Turn? {
      var rest := s[t.length..];
      assert !HasBlank(t.text);
      if t.quoted {
        ScanCost(rest, true, t.slashes);
      } else {
        ScanBlankCost(rest, t.slashes);
      }
      hide ScanArgument;
      var r' := ScanArgument(rest, t.quoted, t.slashes);
      assert HasBlank(t.text + r'.0) ==> HasBlank(r'.0);
    }
  }

  /** Every space taken is read, and no other. */
  lemma {:induction false} ScanSpaces(s: WStr, quoted: bool, slashes: nat)
    ensures SpaceCount(ScanArgument(s, quoted, slashes).0) == SpaceCount(s[..Taken(s, quoted, slashes)])
    decreases |s|
  {
    var t := NextTurn(s, quoted, slashes);
    ScanTurn(s, quoted, slashes);
    if t.Stop? {
      SpaceCountSlashes(slashes);
    } else {
      hide *;
      var rest := s[t.length..];
      var k := Taken(rest, t.quoted, t.slashes);
      ScanSpaces(rest, t.quoted, t.slashes);
      TurnSpaces(s, quoted, slashes);
      TakenTurn(s, quoted, slashes);
      TakenParts(s, t.length, k);
      SpaceCountConcat(s[..t.length], rest[..k]);
      SpaceCountConcat(t.text, ScanArgument(rest, t.quoted, t.slashes).0);
    }
  }

  lemma {:induction false} TurnSpaces(s: WStr, quoted: bool, slashes: nat)
    requires NextTurn(s, quoted, slashes).Turn?
    ensures var t := NextTurn(s, quoted, slashes);
            t.length <= |s| && SpaceCount(t.text) == SpaceCount(s[..t.length])
  {
    var t := NextTurn(s, quoted, slashes);
    SpaceCountSlashes(slashes);
    SpaceCountSlashes(slashes / 2);
    SpaceCountConcat(Slashes(slashes), [s[0]]);
    SpaceCountConcat(Slashes(slashes / 2), [DQUOTE]);
    var front := s[..t.length];
    assert front == if t.length == 2 then [s[0]] + [s[1]] else [s[0]];
    if t.length == 2 {
      SpaceCountConcat([s[0]], [s[1]]);
    }
    assert forall c: WChar :: SpaceCount([c]) == if c == SPACE then 1 else 0;
  }

  /** An argument that needs no quotes to be read as it is. */
  predicate Bare(arg: WStr) {
    arg != [] && !HasBlank(arg)
  }

  /** The least number of characters a line must have to be read as these arguments. */
  function LeastLength(args: seq<WStr>): nat {
    if args == [] then 0
    else if |args| == 1 then |args[0]| + (if Bare(args[0]) then 0 else 1)
    else |args[0]| + (if Bare(args[0]) then 0 else 2) + 1 + LeastLength(args[1..])
  }

  lemma {:induction false} SplitLeast(s: WStr)
    ensures LeastLength(SplitArguments(s)) <= |s|
    decreases |s|
  {
    if s != [] {
      if IsBlank(s[0]) {
        SplitLeast(s[1..]);
      } else {
        var (arg, rest) := ScanArgument(s, false, 0);
        ScanCost(s, false, 0);
        ScanBlankCost(s, 0);
        ScanStops(s, false, 0);
        SplitLeast(rest);
        if rest != [] {
          SplitLeast(rest[1..]);
        }
        hide ScanArgument;
        var out := SplitArguments(rest);
        assert SplitArguments(s) == [arg] + out;
        assert ([arg] + out)[1..] == out;
      }
    }
  }

  /** Reading stops at the end or at a blank. */
  lemma {:induction false} ScanStops(s: WStr, quoted: bool, slashes: nat)
    ensures var rest := ScanArgument(s, quoted, slashes).1;
            rest != [] ==> IsBlank(rest[0])
    decreases |s|
  {
    ScanTurn(s, quoted, slashes);
    var t := NextTurn(s, quoted, slashes);
    if t.Turn? {
      ScanStops(s[t.length..], t.quoted, t.slashes);
    }
  }
}
