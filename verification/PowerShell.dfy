/** PowerShell single-quoted literals, and exactly when putting a text in single quotes is enough. */
module PowerShell {
  import opened Wide
  import opened Argv
  import opened CommandLine

  /** The characters PowerShell reads as a single quote: U+0027 and U+2018 to U+201B. */
  predicate IsSingleQuote(c: WChar) {
    c == APOSTROPHE || 0x2018 <= c <= 0x201B
  }

  predicate HasSingleQuote(s: WStr) {
    exists i :: 0 <= i < |s| && IsSingleQuote(s[i])
  }

  function SingleQuoted(s: WStr): WStr {
    [APOSTROPHE] + s + [APOSTROPHE]
  }

  /** The rest of a literal that must end with `s`: a doubled quote stands for one. */
  function LiteralBody(s: WStr): Option<WStr>
    decreases |s|
  {
    if s == [] then None
    else if !IsSingleQuote(s[0]) then
      match LiteralBody(s[1..])
      case None => None
      case Some(t) => Some([s[0]] + t)
    else if |s| == 1 then Some([])
    else if IsSingleQuote(s[1]) then
      match LiteralBody(s[2..])
      case None => None
      case Some(t) => Some([s[0]] + t)
    else None
  }

  /** The value of `s` if it is one single-quoted literal. */
  function LiteralValue(s: WStr): Option<WStr> {
    if s == [] || !IsSingleQuote(s[0]) then None else LiteralBody(s[1..])
  }

  lemma {:induction false} LiteralBodyLength(s: WStr)
    ensures LiteralBody(s).Some? ==> |LiteralBody(s).value| < |s|
    ensures LiteralBody(s).Some? && |s| > 1 && HasSingleQuote(s[..|s| - 1]) ==>
      |LiteralBody(s).value| < |s| - 1
    decreases |s|
  {
    if s != [] {
      if !IsSingleQuote(s[0]) {
        LiteralBodyLength(s[1..]);
        if |s| > 1 && HasSingleQuote(s[..|s| - 1]) {
          var i :| 0 <= i < |s| - 1 && IsSingleQuote(s[..|s| - 1][i]);
          assert s[1..][..|s| - 2][i - 1] == s[i];
        }
      } else if |s| > 1 && IsSingleQuote(s[1]) {
        LiteralBodyLength(s[2..]);
      }
    }
  }

  lemma {:induction false} LiteralBodyPlain(s: WStr)
    requires !HasSingleQuote(s)
    ensures LiteralBody(s + [APOSTROPHE]) == Some(s)
    decreases |s|
  {
    var t := s + [APOSTROPHE];
    if s == [] {
      assert t == [APOSTROPHE];
    } else {
      assert t[0] == s[0] && t[1..] == s[1..] + [APOSTROPHE];
      assert forall i :: 0 <= i < |s| - 1 ==> s[1..][i] == s[i + 1];
      LiteralBodyPlain(s[1..]);
      assert s == [s[0]] + s[1..];
    }
  }

  /** PowerShell reads the quoted text back, for every text, exactly when it holds none of
      PowerShell's single quotes. */
  lemma {:induction false} LiteralRoundTrip(s: WStr)
    ensures LiteralValue(SingleQuoted(s)) == Some(s) <==> !HasSingleQuote(s)
  {
    var body := s + [APOSTROPHE];
    assert SingleQuoted(s)[1..] == body && body[..|body| - 1] == s;
    LiteralBodyLength(body);
    if !HasSingleQuote(s) {
      LiteralBodyPlain(s);
    }
  }

  /** Nothing but a double quote or an unquoted tab harms a text in single quotes. */
  predicate SurvivesQuoted(s: WStr) {
    DQUOTE !in s && (TAB in s ==> SPACE in s)
  }

  /** Quoting for PowerShell lifts the printer's conditions on empty texts and trailing
      backslashes, and there is no trailing double quote any more. */
  lemma {:induction false} SingleQuotedSurvives(s: WStr)
    ensures Survives(SingleQuoted(s)) <==> SurvivesQuoted(s)
    ensures AllDelivered([SingleQuoted(s)]) <==> SurvivesQuoted(s)
    ensures DeliveredOpen([SingleQuoted(s)]) <==> SPACE in s && DQUOTE !in s
  {
    var q := SingleQuoted(s);
    assert forall c :: c in q <==> c == APOSTROPHE || c in s;
    assert q[|q| - 1] == APOSTROPHE;
  }

  /** Escaping, printing, argv splitting and reading the literal give a text back among other
      arguments, exactly when those are delivered and it holds no single quote, no double quote and
      no tab without a space. */
  lemma {:induction false} EscapeRoundTrip(app: WStr, before: seq<WStr>, s: WStr, after: seq<WStr>)
    ensures var args := before + [SingleQuoted(s)] + after;
            var argv := SplitCommandLine(Line(app, args));
            (argv == [app] + args && LiteralValue(argv[1 + |before|]) == Some(s))
            <==>
            && ProgramSurvives(app) && AllSurvive(before) && AllDelivered(after)
            && !HasSingleQuote(s) && SurvivesQuoted(s)
  {
    var q := SingleQuoted(s);
    var args := before + [q] + after;
    SingleQuotedSurvives(s);
    LiteralRoundTrip(s);
    hide SingleQuoted, Survives;
    RoundTrip(app, args);
    assert ([app] + args)[1 + |before|] == q;
    SurviveConcat(before, [q]);
    assert AllSurvive([q]) <==> Survives([q][0]);
    if after == [] {
      assert args == before + [q];
      DeliveredConcat(before, [q]);
    } else {
      DeliveredConcat(before + [q], after);
    }
  }
}
