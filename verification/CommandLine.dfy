/** The command line the module means to build, and exactly when a started program reads the same
    list of arguments back from it. */
module CommandLine {
  import opened Wide
  import opened Argv

  /** One argument as written: in double quotes if it holds a space, otherwise as it is. */
  function Quote(arg: WStr): WStr {
    if SPACE in arg then [DQUOTE] + arg + [DQUOTE] else arg
  }

  lemma QuoteLength(arg: WStr)
    ensures |Quote(arg)| == if SPACE in arg then |arg| + 2 else |arg|
  {}

  /** The arguments after the program, a space before each. */
  function Tail(args: seq<WStr>): WStr {
    if args == [] then [] else [SPACE] + Quote(args[0]) + Tail(args[1..])
  }

  function Line(app: WStr, args: seq<WStr>): WStr {
    Quote(app) + Tail(args)
  }

  /** The program name survives unless it holds a double quote or a tab ends it early. */
  predicate ProgramSurvives(app: WStr) {
    && DQUOTE !in app
    && (TAB in app ==> SPACE in app)
  }

  /** An argument survives anywhere if it is there at all, holds no double quote, its tabs are
      quoted, and its closing quote is not escaped by a backslash of its own. */
  predicate Survives(arg: WStr) {
    && arg != []
    && DQUOTE !in arg
    && (TAB in arg ==> SPACE in arg)
    && (SPACE in arg ==> arg[|arg| - 1] != BACKSLASH)
  }

  predicate AllSurvive(args: seq<WStr>) {
    forall i :: 0 <= i < |args| ==> Survives(args[i])
  }

  /** A quoted text with one double quote, at its end: followed by its closing quote it reads as a
      doubled quote inside a quoted part that is never closed. */
  predicate TrailingQuote(arg: WStr) {
    && arg != [] && arg[|arg| - 1] == DQUOTE
    && SPACE in arg
    && Survives(arg[..|arg| - 1])
  }

  function Front(args: seq<WStr>): seq<WStr>
    requires args != []
  {
    args[..|args| - 1]
  }

  function Last(args: seq<WStr>): WStr
    requires args != []
  {
    args[|args| - 1]
  }

  /** What a whole line delivers: only the last argument may hold a quote, and only a trailing one. */
  predicate AllDelivered(args: seq<WStr>) {
    args == [] || (AllSurvive(Front(args)) && (Survives(Last(args)) || TrailingQuote(Last(args))))
  }

  /** What a line delivers that has lost its last character: that must be a closing quote, and the
      argument before it may then end in a backslash. */
  predicate DeliveredOpen(args: seq<WStr>) {
    args != [] && AllSurvive(Front(args)) && SPACE in Last(args) && DQUOTE !in Last(args)
  }

  /** What may follow an argument: nothing or a blank. */
  predicate Ends(t: WStr) {
    t == [] || IsBlank(t[0])
  }

  // ----- one argument -----

  /** A word without quotes or blanks is read as itself. */
  lemma {:induction false} ScanWord(w: WStr, t: WStr, n: nat)
    requires forall i :: 0 <= i < |w| ==> w[i] != DQUOTE && !IsBlank(w[i])
    requires Ends(t)
    ensures ScanArgument(w + t, false, n).0 == Slashes(n) + w
    ensures ScanArgument(w + t, false, n).1 == t
    decreases |w|
  {
    if w == [] {
      assert w + t == t;
      assert Slashes(n) + w == Slashes(n);
    } else {
      assert (w + t)[0] == w[0] && (w + t)[1..] == w[1..] + t;
      if w[0] == BACKSLASH {
        ScanWord(w[1..], t, n + 1);
        assert Slashes(n + 1) + w[1..] == Slashes(n) + w;
      } else {
        ScanWord(w[1..], t, 0);
        assert Slashes(n) + [w[0]] + w[1..] == Slashes(n) + w;
      }
    }
  }

  /** How many backslashes are pending behind a quoted text without quotes. */
  function Pending(q: WStr, n: nat): (p: nat)
    ensures p <= n + |q|
  {
    if q == [] then n else Pending(q[1..], if q[0] == BACKSLASH then n + 1 else 0)
  }

  /** What is read of a quoted text without quotes while its last backslashes are pending. */
  function Kept(q: WStr, n: nat): WStr {
    if q == [] then []
    else if q[0] == BACKSLASH then Kept(q[1..], n + 1)
    else Slashes(n) + [q[0]] + Kept(q[1..], 0)
  }

  lemma {:induction false} KeptAndPending(q: WStr, n: nat)
    ensures Kept(q, n) + Slashes(Pending(q, n)) == Slashes(n) + q
    ensures q != [] ==> (Pending(q, n) == 0 <==> q[|q| - 1] != BACKSLASH)
    decreases |q|
  {
    if q != [] {
      KeptAndPending(q[1..], if q[0] == BACKSLASH then n + 1 else 0);
      hide Pending, Kept;
      if q[0] == BACKSLASH {
        assert Slashes(n + 1) + q[1..] == Slashes(n) + q;
        if |q| == 1 {
          assert (Slashes(n) + q)[n] == BACKSLASH;
        }
      } else {
        assert Slashes(n) + [q[0]] + q[1..] == Slashes(n) + q;
        assert Slashes(0) + q[1..] == q[1..];
      }
    }
  }

  lemma {:induction false} KeptText(q: WStr)
    ensures Kept(q, 0) + Slashes(Pending(q, 0)) == q
    ensures |Kept(q, 0)| + Pending(q, 0) == |q|
    ensures q != [] ==> (Pending(q, 0) == 0 <==> q[|q| - 1] != BACKSLASH)
  {
    KeptAndPending(q, 0);
    hide *;
    assert Slashes(0) + q == q;
    assert |Kept(q, 0) + Slashes(Pending(q, 0))| == |q|;
  }

  lemma Associate(a: WStr, b: WStr, c: WStr)
    ensures a + (b + c) == (a + b) + c
  {}

  /** Inside a quoted part a text without quotes is read as it is, up to its pending backslashes. */
  lemma {:induction false} ScanInside(q: WStr, u: WStr, n: nat)
    requires DQUOTE !in q
    ensures var r := ScanArgument(u, true, Pending(q, n));
            && ScanArgument(q + u, true, n).0 == Kept(q, n) + r.0
            && ScanArgument(q + u, true, n).1 == r.1
    decreases |q|
  {
    if q == [] {
      assert q + u == u;
    } else {
      var s, n' := q + u, if q[0] == BACKSLASH then n + 1 else 0;
      assert s[0] == q[0] && s[1..] == q[1..] + u;
      ScanTurn(s, true, n);
      ScanInside(q[1..], u, n');
      hide ScanArgument;
      Associate(Slashes(n) + [q[0]], Kept(q[1..], n'), ScanArgument(u, true, Pending(q, n)).0);
    }
  }

  /** The start of a quoted argument. */
  lemma {:induction false} OpenQuote(u: WStr)
    ensures var out := SplitArguments([DQUOTE] + u);
            var r := ScanArgument(u, true, 0);
            out != [] && out[0] == r.0 && out[1..] == SplitArguments(r.1)
  {
    var s := [DQUOTE] + u;
    var r := ScanArgument(u, true, 0);
    assert s[1..] == u;
    assert ScanArgument(s, false, 0).0 == Slashes(0) + r.0 == r.0;
    assert ScanArgument(s, false, 0).1 == r.1;
  }

  /** The quote after a quoted text: literal behind an odd number of backslashes, closing otherwise. */
  lemma {:induction false} ScanClosing(t: WStr, p: nat)
    requires Ends(t)
    ensures var r := ScanArgument([DQUOTE] + t, true, p);
            && (p % 2 == 1 ==> p / 2 < |r.0| && r.0[p / 2] == DQUOTE)
            && (p % 2 == 0 ==> r.0 == Slashes(p / 2) && r.1 == t)
  {
    assert ([DQUOTE] + t)[1..] == t;
    assert ScanArgument(t, false, 0).0 == Slashes(0);
    assert ScanArgument(t, false, 0).1 == t;
    assert Slashes(p / 2) + Slashes(0) == Slashes(p / 2);
  }

  /** A quoted text without quotes is read as itself exactly when no backslash precedes the
      closing quote. */
  lemma {:induction false} ScanQuoted(q: WStr, t: WStr)
    requires DQUOTE !in q && q != [] && Ends(t)
    ensures var r := ScanArgument(q + ([DQUOTE] + t), true, 0);
            (r.0 == q <==> q[|q| - 1] != BACKSLASH) && (r.0 == q ==> r.1 == t)
  {
    var p, head := Pending(q, 0), Kept(q, 0);
    ScanInside(q, [DQUOTE] + t, 0);
    KeptText(q);
    ScanClosing(t, p);
    hide *;
    var r := ScanArgument([DQUOTE] + t, true, p);
    if p % 2 == 1 {
      assert (head + r.0)[|head| + p / 2] == DQUOTE;
    } else {
      assert |head + r.0| == |head| + p / 2;
    }
  }

  /** An argument with a space and no quotes, at the front of a line, is read back exactly when its
      closing quote is not escaped. */
  lemma {:induction false} ScanSpaced(arg: WStr, t: WStr)
    requires DQUOTE !in arg && SPACE in arg && Ends(t)
    ensures var out := SplitArguments(Quote(arg) + t);
            && out != []
            && (out[0] == arg <==> arg[|arg| - 1] != BACKSLASH)
            && (out[0] == arg ==> out[1..] == SplitArguments(t))
  {
    hide ScanArgument, SplitArguments;
    assert Quote(arg) + t == [DQUOTE] + (arg + ([DQUOTE] + t));
    OpenQuote(arg + ([DQUOTE] + t));
    ScanQuoted(arg, t);
  }

  /** An argument that survives, written at the front of a line, is read back as itself. */
  lemma {:induction false} ScanSurvivor(arg: WStr, t: WStr)
    requires Survives(arg) && Ends(t)
    ensures SplitArguments(Quote(arg) + t) == [arg] + SplitArguments(t)
  {
    if SPACE in arg {
      ScanSpaced(arg, t);
    } else {
      ScanWord(arg, t, 0);
      assert Slashes(0) + arg == arg;
    }
  }

  // ----- arguments that hold a quote -----

  /** Reading on through a space reads one space more. */
  lemma {:induction false} ReadsASpace(a: WStr, t: WStr, quoted: bool)
    requires Taken(a + t, quoted, 0) > |a| && t != [] && t[0] == SPACE
    ensures SpaceCount(ScanArgument(a + t, quoted, 0).0) > SpaceCount(a)
  {
    var k := Taken(a + t, quoted, 0);
    ScanSpaces(a + t, quoted, 0);
    hide ScanArgument;
    assert (a + t)[..k] == a + t[..k - |a|];
    SpaceCountConcat(a, t[..k - |a|]);
  }

  lemma {:induction false} NoSpace(s: WStr)
    requires SPACE !in s
    ensures SpaceCount(s) == 0
  {
    if s != [] {
      NoSpace(s[1..]);
    }
  }

  /** A quote in an argument written without quotes is lost. */
  lemma {:induction false} PlainQuoteIsLost(arg: WStr, t: WStr)
    requires DQUOTE in arg && Bare(arg) && (t == [] || t[0] == SPACE)
    ensures var out := SplitArguments(arg + t); out != [] && out[0] != arg
  {
    var s := arg + t;
    var k := Taken(s, false, 0);
    ScanCost(s, false, 0);
    assert s[..|arg|] == arg;
    if k > |arg| {
      ReadsASpace(arg, t, false);
      NoSpace(arg);
    }
  }

  /** A quote in a quoted argument is lost, unless it is the only one and ends the line. */
  lemma {:induction false} SpacedQuoteIsLost(arg: WStr, t: WStr)
    requires DQUOTE in arg && SPACE in arg && (t == [] || t[0] == SPACE)
    requires !(t == [] && TrailingQuote(arg))
    ensures var out := SplitArguments(Quote(arg) + t); out != [] && out[0] != arg
  {
    var u := arg + [DQUOTE] + t;
    var k := Taken(u, true, 0);
    assert Quote(arg) + t == [DQUOTE] + u;
    OpenQuote(u);
    if k > |arg| + 1 {
      ReadsASpace(arg + [DQUOTE], t, true);
      SpaceCountConcat(arg, [DQUOTE]);
    } else if k == |arg| + 1 {
      QuoteInArgument(arg, t);
    } else {
      ScanCost(u, true, 0);
    }
  }

  /** A quoted argument with a quote, read up to its closing quote, has lost a character. */
  lemma {:induction false} QuoteInArgument(arg: WStr, t: WStr)
    requires DQUOTE in arg && SPACE in arg
    requires !(t == [] && TrailingQuote(arg))
    requires Taken(arg + [DQUOTE] + t, true, 0) == |arg| + 1
    ensures |ScanArgument(arg + [DQUOTE] + t, true, 0).0| < |arg|
  {
    var q := BeforeQuote(arg);
    var w := arg[|q|..] + [DQUOTE] + t;
    hide *;
    assert arg + [DQUOTE] + t == q + w;
    if |w| == 2 {
      NotTrailing(q, arg);
    }
    QuoteInside(q, w, |arg| - |q|);
  }

  lemma NotTrailing(q: WStr, arg: WStr)
    requires arg == q + [DQUOTE] && DQUOTE !in q && SPACE in arg && !TrailingQuote(arg)
    ensures q != [] && q[|q| - 1] == BACKSLASH
  {
    assert arg[..|arg| - 1] == q;
  }

  /** The text before the first quote. */
  function BeforeQuote(a: WStr): (w: WStr)
    requires DQUOTE in a
    ensures w <= a && DQUOTE !in w && |w| < |a| && a[|w|] == DQUOTE
  {
    if a[0] == DQUOTE then [] else [a[0]] + BeforeQuote(a[1..])
  }

  /** Two quotes taken cost a character, unless they are a doubled quote that ends the line. */
  lemma {:induction false} SecondQuote(w: WStr, p: nat, m: nat)
    requires 0 < m < |w| && w[0] == w[m] == DQUOTE
    requires Taken(w, true, p) == m + 1
    requires |w| == 2 ==> p > 0
    ensures |ScanArgument(w, true, p).0| < p + m
  {
    ScanTurn(w, true, p);
    var turn := NextTurn(w, true, p);
    assert |turn.text| == if p % 2 == 1 || turn.length == 2 then p / 2 + 1 else p / 2;
    var rest := w[turn.length..];
    ScanCost(rest, turn.quoted, turn.slashes);
    assert rest != [] ==> Taken(rest, true, 0) > 0;
    hide ScanArgument;
    var k := Taken(rest, turn.quoted, turn.slashes);
    assert k == m + 1 - turn.length;
    hide NextTurn;
    if k > 0 {
      assert rest[k - 1] == w[m];
      assert DQUOTE in rest[..k];
    }
  }

  /** Up to the first quote everything is read, up to the closing quote a character is lost. */
  lemma {:induction false} QuoteInside(q: WStr, w: WStr, m: nat)
    requires DQUOTE !in q
    requires 0 < m < |w| && w[0] == w[m] == DQUOTE
    requires Taken(q + w, true, 0) == |q| + m + 1
    requires |w| == 2 ==> q != [] && q[|q| - 1] == BACKSLASH
    ensures |ScanArgument(q + w, true, 0).0| < |q| + m
  {
    KeptText(q);
    ScanInside(q, w, 0);
    hide *;
    SecondQuote(w, Pending(q, 0), m);
  }

  /** A doubled quote at the end of the line is one quote, in a part that is never closed. */
  lemma {:induction false} DoubledAtEnd(u: WStr)
    requires u == [DQUOTE, DQUOTE]
    ensures ScanArgument(u, true, 0).0 == [DQUOTE]
    ensures ScanArgument(u, true, 0).1 == []
  {
    ScanTurn(u, true, 0);
    ScanTurn(u[2..], true, 0);
  }

  /** Without pending backslashes a quoted text is simply read. */
  lemma {:induction false} ScanText(q: WStr, u: WStr)
    requires DQUOTE !in q && q != [] && q[|q| - 1] != BACKSLASH
    ensures ScanArgument(q + u, true, 0).0 == q + ScanArgument(u, true, 0).0
    ensures ScanArgument(q + u, true, 0).1 == ScanArgument(u, true, 0).1
  {
    ScanInside(q, u, 0);
    KeptText(q);
    hide *;
    assert Kept(q, 0) + Slashes(0) == Kept(q, 0);
  }

  lemma {:induction false} TrailingText(q: WStr, u: WStr)
    requires DQUOTE !in q && q != [] && q[|q| - 1] != BACKSLASH && u == [DQUOTE, DQUOTE]
    ensures SplitArguments([DQUOTE] + (q + u)) == [q + [DQUOTE]]
  {
    assert SplitArguments([]) == [];
    hide *;
    DoubledAtEnd(u);
    OpenQuote(q + u);
    ScanText(q, u);
  }

  /** A trailing quote at the end of the line is read back. */
  lemma {:induction false} TrailingQuoteIsRead(arg: WStr)
    requires TrailingQuote(arg)
    ensures SplitArguments(Quote(arg)) == [arg]
  {
    var q, u := arg[..|arg| - 1], [DQUOTE, DQUOTE];
    TrailingText(q, u);
    hide SplitArguments;
    assert arg == q + [DQUOTE];
    assert Quote(arg) == [DQUOTE] + (q + u);
  }

  /** An argument whose closing quote is missing at the end of the line is read back exactly when
      it holds no quote. */
  lemma {:induction false} OpenIsRead(arg: WStr)
    ensures SplitArguments([DQUOTE] + arg) == [arg] <==> DQUOTE !in arg
  {
    OpenQuote(arg);
    if DQUOTE in arg {
      ScanCost(arg, true, 0);
      var k := Taken(arg, true, 0);
      assert k == |arg| ==> arg[..k] == arg;
    } else {
      var p := Pending(arg, 0);
      assert ScanArgument([], true, p).0 == Slashes(p) && ScanArgument([], true, p).1 == [];
      assert SplitArguments([]) == [];
      ScanInside(arg, [], 0);
      KeptText(arg);
      hide *;
      assert arg + [] == arg;
    }
  }

  // ----- the least a line must hold -----

  /** What is printed exceeds the least line only by the first separator and the last closing
      quote, and not even by that when the first argument is empty or holds an unquoted tab. */
  lemma {:induction false} LeastPrinted(args: seq<WStr>)
    requires args != []
    ensures |Tail(args)| <= LeastLength(args) + 1 + if SPACE in Last(args) then 1 else 0
    ensures SPACE !in args[0] && !Bare(args[0]) ==> |Tail(args)| <= LeastLength(args)
  {
    QuoteLength(args[0]);
    if |args| == 1 {
      assert Tail(args[1..]) == [];
    } else {
      LeastPrinted(args[1..]);
      assert Last(args[1..]) == Last(args);
    }
  }

  lemma {:induction false} TooShort(args: seq<WStr>, m: nat)
    requires args != [] && m <= |Tail(args)|
    requires SplitArguments(Tail(args)[..m]) == args
    ensures m + (if SPACE in Last(args) then 1 else 0) >= |Tail(args)|
    ensures SPACE in args[0] || Bare(args[0])
  {
    var s := Tail(args)[..m];
    assert SplitArguments([]) == [];
    if m > 0 {
      assert s[0] == SPACE;
      SplitLeast(s[1..]);
      LeastPrinted(args);
    }
  }

  // ----- all the arguments -----

  lemma {:induction false} SurvivorsStep(args: seq<WStr>)
    requires |args| > 1
    ensures Last(args) == Last(args[1..])
    ensures AllSurvive(Front(args)) <==> Survives(args[0]) && AllSurvive(Front(args[1..]))
  {
    var f, f' := Front(args), Front(args[1..]);
    assert f[0] == args[0] && f[1..] == f';
    if Survives(args[0]) && AllSurvive(f') {
      assert forall i :: 0 < i < |f| ==> f[i] == f'[i - 1];
    }
    assert forall i :: 0 <= i < |f'| ==> f'[i] == f[i + 1];
  }

  /** An argument before others is read back only if it survives. */
  lemma {:induction false} ScanCasualty(arg: WStr, t: WStr)
    requires !Survives(arg) && (SPACE in arg || Bare(arg)) && (t == [] || t[0] == SPACE)
    requires !(t == [] && TrailingQuote(arg))
    ensures var out := SplitArguments(Quote(arg) + t); out != [] && out[0] != arg
  {
    if DQUOTE in arg {
      if SPACE in arg {
        SpacedQuoteIsLost(arg, t);
      } else {
        PlainQuoteIsLost(arg, t);
      }
    } else {
      ScanSpaced(arg, t);
    }
  }

  lemma TailAt(args: seq<WStr>, m: nat)
    requires args != [] && 1 + |Quote(args[0])| <= m <= |Tail(args)|
    ensures Tail(args)[..m]
            == [SPACE] + (Quote(args[0]) + Tail(args[1..])[..m - 1 - |Quote(args[0])|])
  {}

  lemma SkipSpace(s: WStr)
    ensures SplitArguments([SPACE] + s) == SplitArguments(s)
  {
    assert ([SPACE] + s)[1..] == s;
  }

  lemma SurviveConcat(a: seq<WStr>, b: seq<WStr>)
    ensures AllSurvive(a + b) <==> AllSurvive(a) && AllSurvive(b)
  {
    hide Survives;
    assert forall i :: 0 <= i < |a| ==> (a + b)[i] == a[i];
    assert forall i :: 0 <= i < |b| ==> (a + b)[|a| + i] == b[i];
  }

  /** What comes before other arguments has to survive; the last ones decide the rest. */
  lemma DeliveredConcat(a: seq<WStr>, b: seq<WStr>)
    requires b != []
    ensures AllDelivered(a + b) <==> AllSurvive(a) && AllDelivered(b)
    ensures DeliveredOpen(a + b) <==> AllSurvive(a) && DeliveredOpen(b)
  {
    assert Front(a + b) == a + Front(b);
    SurviveConcat(a, Front(b));
  }

  /** The list is read back from the first `m` characters of its line exactly when nothing is cut
      and all is delivered, or only a closing quote is cut and all is delivered without it. */
  predicate DeliveredAt(args: seq<WStr>, m: nat) {
    || (m == |Tail(args)| && AllDelivered(args))
    || (m + 1 == |Tail(args)| && DeliveredOpen(args))
  }

  lemma {:induction false} SplitTailEmptyFirst(args: seq<WStr>, m: nat)
    requires args != [] && m <= |Tail(args)| && SPACE !in args[0] && !Bare(args[0])
    ensures SplitArguments(Tail(args)[..m]) != args && !DeliveredAt(args, m)
  {
    if SplitArguments(Tail(args)[..m]) == args {
      TooShort(args, m);
    }
    if |args| > 1 {
      SurvivorsStep(args);
    }
  }

  lemma {:induction false} SplitTailOne(args: seq<WStr>, m: nat)
    requires |args| == 1 && m <= |Tail(args)| <= m + if SPACE in args[0] then 1 else 0
    requires SPACE in args[0] || Bare(args[0])
    ensures SplitArguments(Tail(args)[..m]) == args <==> DeliveredAt(args, m)
  {
    var arg := args[0];
    assert args == [arg];
    assert Front(args) == [];
    assert Tail(args) == [SPACE] + Quote(arg);
    assert SplitArguments([]) == [];
    if m < |Tail(args)| {
      assert Tail(args)[..m] == [SPACE] + ([DQUOTE] + arg);
      SkipSpace([DQUOTE] + arg);
      OpenIsRead(arg);
    } else {
      assert Tail(args)[..m] == [SPACE] + Quote(arg);
      SkipSpace(Quote(arg));
      assert Quote(arg) + [] == Quote(arg);
      if Survives(arg) {
        ScanSurvivor(arg, []);
      } else if TrailingQuote(arg) {
        TrailingQuoteIsRead(arg);
      } else {
        ScanCasualty(arg, []);
      }
    }
  }

  lemma FirstAndRest(args: seq<WStr>, rest: seq<WStr>)
    requires args != []
    ensures [args[0]] + rest == args <==> rest == args[1..]
  {
    assert ([args[0]] + rest)[1..] == rest;
  }

  lemma {:induction false} DeliveredStep(args: seq<WStr>, m: nat, m': nat)
    requires |args| > 1 && m == m' + 1 + |Quote(args[0])|
    ensures DeliveredAt(args, m) <==> Survives(args[0]) && DeliveredAt(args[1..], m')
  {
    SurvivorsStep(args);
    assert |Tail(args)| == 1 + |Quote(args[0])| + |Tail(args[1..])|;
    hide Survives, TrailingQuote, Tail;
  }

  lemma {:induction false} SplitTailStep(args: seq<WStr>, m: nat, m': nat)
    requires |args| > 1 && m <= |Tail(args)| && (SPACE in args[0] || Bare(args[0]))
    requires m == m' + 1 + |Quote(args[0])| && 0 < m' <= |Tail(args[1..])|
    requires SplitArguments(Tail(args[1..])[..m']) == args[1..] <==> DeliveredAt(args[1..], m')
    ensures SplitArguments(Tail(args)[..m]) == args <==> DeliveredAt(args, m)
  {
    var arg := args[0];
    var t := Tail(args[1..])[..m'];
    assert t[0] == SPACE;
    TailAt(args, m);
    DeliveredStep(args, m, m');
    hide SplitArguments, Tail, DeliveredAt, Survives, Quote, Bare;
    SkipSpace(Quote(arg) + t);
    if Survives(arg) {
      ScanSurvivor(arg, t);
      FirstAndRest(args, SplitArguments(t));
    } else {
      ScanCasualty(arg, t);
    }
  }

  lemma {:induction false} TailOfLast(args: seq<WStr>)
    requires args != []
    ensures |Tail(args)| > |Quote(Last(args))|
  {
    if |args| > 1 {
      TailOfLast(args[1..]);
    }
  }

  lemma {:induction false} SplitTail(args: seq<WStr>, m: nat)
    requires m <= |Tail(args)|
    ensures SplitArguments(Tail(args)[..m]) == args <==> DeliveredAt(args, m)
  {
    if args != [] {
      if SPACE !in args[0] && !Bare(args[0]) {
        SplitTailEmptyFirst(args, m);
      } else if m + (if SPACE in Last(args) then 1 else 0) < |Tail(args)| {
        if SplitArguments(Tail(args)[..m]) == args {
          TooShort(args, m);
        }
      } else if |args| == 1 {
        SplitTailOne(args, m);
      } else {
        var m' := m - 1 - |Quote(args[0])|;
        TailOfLast(args[1..]);
        QuoteLength(Last(args));
        SplitTail(args[1..], m');
        SplitTailStep(args, m, m');
      }
    }
  }

  // ----- what is read in front of a casualty -----

  /** Arguments that survive are read as themselves, whatever follows them. */
  lemma {:induction false} SurvivorsFirst(args: seq<WStr>, s: WStr)
    requires AllSurvive(args) && Ends(s)
    ensures SplitArguments(Tail(args) + s) == args + SplitArguments(s)
  {
    if args == [] {
      assert Tail(args) + s == s && args + SplitArguments(s) == SplitArguments(s);
    } else {
      hide *;
      var arg, rest := args[0], args[1..];
      var t := Tail(rest) + s;
      SurvivorsRest(args);
      TailStep(args, s);
      SurvivorsFirst(rest, s);
      SkipSpace(Quote(arg) + t);
      ScanSurvivor(arg, t);
      FirstOf(args, SplitArguments(s));
    }
  }

  lemma TailStep(args: seq<WStr>, s: WStr)
    requires args != [] && Ends(s)
    ensures Tail(args) + s == [SPACE] + (Quote(args[0]) + (Tail(args[1..]) + s))
    ensures Ends(Tail(args[1..]) + s)
  {
    hide Quote;
  }

  lemma FirstOf(args: seq<WStr>, rest: seq<WStr>)
    requires args != []
    ensures [args[0]] + (args[1..] + rest) == args + rest
  {}

  lemma SurvivorsRest(args: seq<WStr>)
    requires args != [] && AllSurvive(args)
    ensures Survives(args[0]) && AllSurvive(args[1..])
  {
    hide Survives;
  }

  lemma {:induction false} TailConcat(a: seq<WStr>, b: seq<WStr>)
    ensures Tail(a + b) == Tail(a) + Tail(b)
  {
    if a == [] {
      assert a + b == b;
    } else {
      assert (a + b)[1..] == a[1..] + b;
      TailConcat(a[1..], b);
    }
  }

  // ----- the program name -----

  lemma {:induction false} ScanProgramQuoted(w: WStr, u: WStr)
    requires DQUOTE !in w && u != [] && u[0] == DQUOTE && Ends(u[1..])
    ensures ScanProgram(w + u, true).0 == w
    ensures ScanProgram(w + u, true).1 == if |u| == 1 then [] else u[2..]
    decreases |w|
  {
    if w == [] {
      assert w + u == u;
      if |u| > 1 {
        assert u[1..][1..] == u[2..];
      }
    } else {
      assert (w + u)[1..] == w[1..] + u;
      ScanProgramQuoted(w[1..], u);
    }
  }

  lemma {:induction false} ScanProgramPlain(w: WStr, t: WStr)
    requires forall i :: 0 <= i < |w| ==> w[i] != DQUOTE && !IsBlank(w[i])
    requires Ends(t)
    ensures ScanProgram(w + t, false).0 == w
    ensures ScanProgram(w + t, false).1 == if t == [] then [] else t[1..]
    decreases |w|
  {
    if w == [] {
      assert w + t == t;
    } else {
      assert (w + t)[1..] == w[1..] + t;
      ScanProgramPlain(w[1..], t);
    }
  }

  lemma {:induction false} SplitSpacedProgram(app: WStr, t: WStr)
    requires DQUOTE !in app && SPACE in app && Ends(t)
    ensures var r := ScanProgram(Quote(app) + t, false);
            r.0 == app && r.1 == if t == [] then [] else t[1..]
  {
    var u := [DQUOTE] + t;
    assert Quote(app) + t == [DQUOTE] + (app + u);
    ScanProgramQuoted(app, u);
    assert t != [] ==> u[2..] == t[1..];
  }

  /** The part of a string before its first tab. */
  function BeforeTab(a: WStr): (w: WStr)
    ensures w <= a && TAB !in w
    ensures |w| < |a| ==> a[|w|] == TAB
  {
    if a == [] || a[0] == TAB then [] else [a[0]] + BeforeTab(a[1..])
  }

  lemma {:induction false} SplitPlainProgram(app: WStr, t: WStr)
    requires DQUOTE !in app && SPACE !in app && Ends(t)
    ensures var r := ScanProgram(app + t, false);
            r.0 == BeforeTab(app) && (TAB !in app ==> r.1 == if t == [] then [] else t[1..])
  {
    var w := BeforeTab(app);
    var rest := app[|w|..] + t;
    assert app + t == w + rest;
    assert TAB !in app ==> rest == t;
    hide BeforeTab;
    ScanProgramPlain(w, rest);
  }

  /** A program name is never read with a quote in it. */
  lemma {:induction false} ProgramHasNoQuote(s: WStr, quoted: bool)
    ensures DQUOTE !in ScanProgram(s, quoted).0
    decreases |s|
  {
    if s != [] && s[0] == DQUOTE {
      ProgramHasNoQuote(s[1..], !quoted);
    } else if s != [] && (quoted || !IsBlank(s[0])) {
      ProgramHasNoQuote(s[1..], quoted);
    }
  }

  lemma {:induction false} SplitProgram(app: WStr, t: WStr)
    requires Ends(t)
    ensures var r := ScanProgram(Quote(app) + t, false);
            && (r.0 == app <==> ProgramSurvives(app))
            && (r.0 == app ==> r.1 == if t == [] then [] else t[1..])
  {
    if DQUOTE in app {
      ProgramHasNoQuote(Quote(app) + t, false);
    } else if SPACE in app {
      SplitSpacedProgram(app, t);
    } else {
      SplitPlainProgram(app, t);
    }
  }

  // ----- main results -----

  /** Cut round trip, exactly: for every program name, every list of arguments and every place to
      cut the line behind the name, the started program reads back the very same list if and only
      if the name survives and the arguments are delivered whole, or are delivered although the
      closing quote of the last one is cut. */
  lemma {:induction false} CutRoundTrip(app: WStr, args: seq<WStr>, m: nat)
    requires |Quote(app)| <= m <= |Line(app, args)|
    ensures SplitCommandLine(Line(app, args)[..m]) == [app] + args
            <==> ProgramSurvives(app) && DeliveredAt(args, m - |Quote(app)|)
  {
    var t := Tail(args)[..m - |Quote(app)|];
    assert Line(app, args)[..m] == Quote(app) + t;
    SplitProgram(app, t);
    SplitTail(args, |t|);
    var r := ScanProgram(Quote(app) + t, false);
    var out := SplitCommandLine(Quote(app) + t);
    assert ([app] + args)[0] == app && ([app] + args)[1..] == args;
    assert out[0] == r.0 && out[1..] == SplitArguments(r.1);
    if t != [] {
      assert t == [SPACE] + t[1..];
      SkipSpace(t[1..]);
    }
  }

  /** A program name that survives is read, and then what follows it. */
  lemma {:induction false} ProgramThen(app: WStr, t: WStr)
    requires ProgramSurvives(app) && (t == [] || t[0] == SPACE)
    ensures SplitCommandLine(Quote(app) + t) == [app] + SplitArguments(t)
  {
    SplitProgram(app, t);
    hide SplitArguments, ProgramSurvives, ScanProgram, Quote;
    if t != [] {
      assert t == [SPACE] + t[1..];
      SkipSpace(t[1..]);
    }
  }

  /** A line cut behind its first `k` arguments. */
  lemma LineCut(app: WStr, args: seq<WStr>, k: nat, m: nat)
    requires k <= |args| && |Line(app, args[..k])| <= m <= |Line(app, args)|
    ensures var j := m - |Line(app, args[..k])|;
            && j <= |Tail(args[k..])|
            && Line(app, args)[..m] == Quote(app) + (Tail(args[..k]) + Tail(args[k..])[..j])
  {
    assert args == args[..k] + args[k..];
    TailConcat(args[..k], args[k..]);
    hide Tail, Quote;
  }

  lemma TailStarts(args: seq<WStr>, s: WStr)
    requires s == [] || s[0] == SPACE
    ensures Tail(args) + s == [] || (Tail(args) + s)[0] == SPACE
  {}

  lemma CutStarts(args: seq<WStr>, j: nat)
    requires j <= |Tail(args)|
    ensures Tail(args)[..j] == [] || Tail(args)[..j][0] == SPACE
    ensures Ends(Tail(args)[..j])
  {}

  /** What the started process reads of a line cut behind its first `k` arguments, if these and the
      program name survive: these, and then what it reads in the rest. */
  lemma {:induction false} SurvivorsArrive(app: WStr, args: seq<WStr>, k: nat, m: nat)
    requires k <= |args| && ProgramSurvives(app) && AllSurvive(args[..k])
    requires |Line(app, args[..k])| <= m <= |Line(app, args)|
    ensures var j := m - |Line(app, args[..k])|;
            && j <= |Tail(args[k..])|
            && SplitCommandLine(Line(app, args)[..m])
                 == [app] + (args[..k] + SplitArguments(Tail(args[k..])[..j]))
  {
    hide *;
    LineCut(app, args, k, m);
    var a, j := args[..k], m - |Line(app, args[..k])|;
    var s := Tail(args[k..])[..j];
    CutStarts(args[k..], j);
    TailStarts(a, s);
    ProgramThen(app, Tail(a) + s);
    SurvivorsFirst(a, s);
  }

  /** The first argument with a quote or an escaped closing quote is read as something else, unless
      it ends the line with a trailing quote; all before it arrive. */
  lemma {:induction false} FirstCasualty(app: WStr, args: seq<WStr>, k: nat, m: nat)
    requires k < |args| && ProgramSurvives(app) && AllSurvive(args[..k])
    requires !Survives(args[k]) && (SPACE in args[k] || Bare(args[k]))
    requires |Line(app, args[..k + 1])| <= m <= |Line(app, args)|
    requires m == |Line(app, args[..k + 1])| ==> !TrailingQuote(args[k])
    ensures var out := SplitCommandLine(Line(app, args)[..m]);
            |out| > k + 1 && out[..k + 1] == [app] + args[..k] && out[k + 1] != args[k]
  {
    var b, j := args[k..], m - |Line(app, args[..k])|;
    assert b[0] == args[k];
    hide *;
    LineOneMore(app, args, k);
    SurvivorsArrive(app, args, k, m);
    var t := CutBehind(b, j);
    SkipSpace(Quote(args[k]) + t);
    ScanCasualty(args[k], t);
  }

  lemma LineOneMore(app: WStr, args: seq<WStr>, k: nat)
    requires k < |args|
    ensures |Line(app, args[..k + 1])| == |Line(app, args[..k])| + 1 + |Quote(args[k])|
  {
    assert args[..k + 1] == args[..k] + [args[k]];
    TailConcat(args[..k], [args[k]]);
  }

  /** What is left behind the first argument of a tail cut at `j`. */
  lemma CutBehind(args: seq<WStr>, j: nat) returns (t: WStr)
    requires args != [] && 1 + |Quote(args[0])| <= j <= |Tail(args)|
    ensures Tail(args)[..j] == [SPACE] + (Quote(args[0]) + t)
    ensures (t == [] || t[0] == SPACE) && (t == [] <==> j == 1 + |Quote(args[0])|)
  {
    t := Tail(args[1..])[..j - 1 - |Quote(args[0])|];
  }

  /** Round trip, exactly: for every program name and every list of arguments, the started program
      reads back the very same list if and only if the name survives, each argument survives, and
      the last one survives or ends in its only quote. */
  lemma {:induction false} RoundTrip(app: WStr, args: seq<WStr>)
    ensures SplitCommandLine(Line(app, args)) == [app] + args
            <==> ProgramSurvives(app) && AllDelivered(args)
  {
    CutRoundTrip(app, args, |Line(app, args)|);
    assert Line(app, args)[..|Line(app, args)|] == Line(app, args);
  }

  /** Different delivered lists are written as different lines. */
  lemma {:induction false} LineInjective(app: WStr, args: seq<WStr>, app': WStr, args': seq<WStr>)
    requires ProgramSurvives(app) && AllDelivered(args)
    requires ProgramSurvives(app') && AllDelivered(args')
    requires Line(app, args) == Line(app', args')
    ensures app == app' && args == args'
  {
    RoundTrip(app, args);
    RoundTrip(app', args');
    assert ([app] + args)[0] == app && ([app'] + args')[0] == app';
    assert ([app] + args)[1..] == args && ([app'] + args')[1..] == args';
  }

  /** The printer does not escape quotes: a list with a quote in any argument is never read back,
      unless the argument is the last one and the quote its last character. */
  lemma {:induction false} EmbeddedQuoteIsLost(app: WStr, args: seq<WStr>, i: nat)
    requires i < |args| && DQUOTE in args[i]
    requires !(i == |args| - 1 && TrailingQuote(args[i]))
    ensures SplitCommandLine(Line(app, args)) != [app] + args
  {
    RoundTrip(app, args);
    if i < |args| - 1 {
      assert Front(args)[i] == args[i];
    }
  }
}
