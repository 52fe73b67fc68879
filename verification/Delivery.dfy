/** From the registry and the certificate to the argv of the started process: when every command
    line fits its buffer, and exactly when the process reads what was meant for it. */
module Delivery {
  import opened Wide
  import opened StrSafe
  import opened Argv
  import opened CommandLine
  import opened Processes
  import opened Win32
  import opened MultiSz
  import opened Configs
  import opened PowerShell
  import opened Lifecycle
  import opened Notifications

  // ----- how long a line gets -----

  function PrintedLength(args: seq<WStr>): nat {
    if args == [] then 0 else 1 + |Quote(args[0])| + PrintedLength(args[1..])
  }

  /** What strings take up in registry data, each with its NUL. */
  function Budget(args: seq<WStr>): nat {
    if args == [] then 0 else |args[0]| + 1 + Budget(args[1..])
  }

  lemma {:induction false} TailLength(args: seq<WStr>)
    ensures |Tail(args)| == PrintedLength(args)
  {
    if args != [] {
      TailLength(args[1..]);
    }
  }

  lemma {:induction false} PrintedConcat(a: seq<WStr>, b: seq<WStr>)
    ensures PrintedLength(a + b) == PrintedLength(a) + PrintedLength(b)
  {
    if a == [] {
      assert a + b == b;
    } else {
      assert (a + b)[1..] == a[1..] + b;
      PrintedConcat(a[1..], b);
    }
  }

  /** Printing costs at most two quotes for each string more than storing, and two of its
      characters are stored for each non-empty string. */
  lemma {:induction false} PrintedWithinBudget(args: seq<WStr>)
    requires forall i :: 0 <= i < |args| ==> args[i] != []
    ensures PrintedLength(args) <= Budget(args) + 2 * |args|
    ensures 2 * |args| <= Budget(args)
  {
    if args != [] {
      assert forall i :: 0 <= i < |args| - 1 ==> args[1..][i] == args[i + 1];
      QuoteLength(args[0]);
      PrintedWithinBudget(args[1..]);
    }
  }

  /** The strings found by a walk take up no more than the data walked over. */
  lemma {:induction false} WalkBudget(data: WStr, at: nat, texts: seq<WStr>)
    requires at < |data| && data[|data| - 1] == NUL && (at < |data| - 1 ==> data[|data| - 2] == NUL)
    requires Yields(data, Walk(data, at, |data| - at).starts, texts)
    ensures Budget(texts) <= |data| - at - 1
    decreases |data| - at
  {
    hide Measure, ToNul, Window;
    if data[at] != NUL {
      MeasureEnds(data, at, |data| - at, |data| - 2);
      var n := Measure(data, at, |data| - at).value;
      WalkOver(data, at, |data| - at, n);
      var next := at + n + 1;
      FirstText(data, at, |data| - at, texts);
      assert Walk(data, at, |data| - at).starts[1..] == Walk(data, next, |data| - next).starts;
      WalkBudget(data, next, texts[1..]);
    }
  }

  lemma {:induction false} FirstText(data: WStr, at: nat, most: nat, texts: seq<WStr>)
    requires at + most <= |data| && at < |data| && data[at] != NUL && Measure(data, at, most).Some?
    requires texts != [] && ToNul(data[at..]) == texts[0]
    ensures |texts[0]| == Measure(data, at, most).value
  {
    var n := Measure(data, at, most).value;
    MeasureFound(data, at, most);
    assert NUL !in data[at..at + n];
    MeasureText(data, at, most, data[at..at + n]);
  }

  lemma {:induction false} StaticLength(data: WStr)
    requires DoubleNul(data) && |data| <= REG_VALUE_BUFFER
    ensures PrintedLength(Parse(data)) <= 2045
  {
    hide Walk, InBounds, Yields, Parse, Budget, PrintedLength, ToNul;
    var args := Parse(data);
    WalkBudget(data, 0, args);
    forall i | 0 <= i < |args|
      ensures args[i] != []
    {
      ParsedNonEmpty(data, i);
    }
    PrintedWithinBudget(args);
  }

  lemma {:induction false} DynamicLength(ski: WStr, serial: WStr, path: WStr)
    ensures PrintedLength(OptionTexts(ski, serial, path)) == 63 + |Quote(ski)| + |Quote(serial)| + |Quote(path)|
  {
    OptionsPlain();
    var t := OptionTexts(ski, serial, path);
    var t1, t2, t3 := t[1..], t[2..], t[3..];
    var t4, t5, t6 := t[4..], t[5..], t[6..];
    assert t1[1..] == t2 && t2[1..] == t3 && t3[1..] == t4 && t4[1..] == t5 && t5[1..] == t6 && t6[1..] == [];
    assert PrintedLength(t6) == 1 + |Quote(path)|;
    assert PrintedLength(t5) == 1 + 12 + PrintedLength(t6);
    assert PrintedLength(t4) == 1 + |Quote(serial)| + PrintedLength(t5);
    assert PrintedLength(t3) == 1 + 13 + PrintedLength(t4);
    assert PrintedLength(t2) == 1 + |Quote(ski)| + PrintedLength(t3);
    assert PrintedLength(t1) == 1 + 21 + PrintedLength(t2);
    assert PrintedLength(t) == 1 + 10 + PrintedLength(t1);
  }

  /** The most characters of subject key identifier and serial number with which every line fits. */
  const MAX_FITTING_IDS: nat := 29364

  /** The most with which every line is read as the whole one would be. */
  const MAX_DELIVERED_IDS: nat := 29365

  function IdLength(cert: Certificate): nat {
    |cert.ski| + |cert.serial|
  }

  lemma {:induction false} LineLength(exe: WStr, args: seq<WStr>, ski: WStr, serial: WStr, path: WStr)
    ensures |Line(exe, args + OptionTexts(ski, serial, path))| ==
              |Quote(exe)| + PrintedLength(args) + 63 + |Quote(ski)| + |Quote(serial)| + |Quote(path)|
  {
    TailLength(args + OptionTexts(ski, serial, path));
    PrintedConcat(args, OptionTexts(ski, serial, path));
    DynamicLength(ski, serial, path);
  }

  /** The line the module means to build. */
  function WholeLine(cfg: Config, cert: Certificate, path: WStr): WStr {
    Line(ExeText(cfg), Arguments(cfg, cert, path))
  }

  lemma {:induction false} LineBound(reg: Registry, cert: Certificate, path: WStr)
    requires RegistryLaw(reg) && !Failed(LoadHr(reg)) && Terminated(reg) && |path| <= MAX_PATH
    ensures var cfg := LoadedConfig(reg);
            && |ExeText(cfg)| < REG_VALUE_BUFFER
            && |WholeLine(cfg, cert, path)| <= 3139 + IdLength(cert) + |Quote(EscapedIf(cfg.escape, path))|
            && |Quote(EscapedIf(cfg.escape, path))| <=
                 |path| + (if cfg.escape then 2 else 0) + (if SPACE in path then 2 else 0)
  {
    var cfg := LoadedConfig(reg);
    var ski, p := EscapedIf(cfg.escape, cert.ski), EscapedIf(cfg.escape, path);
    LineLength(ExeText(cfg), cfg.args, ski, cert.serial, p);
    ShorterThanData(reg.exe.data);
    QuoteLength(ExeText(cfg));
    QuoteLength(ski);
    QuoteLength(cert.serial);
    QuoteLength(p);
    if reg.args.Multi? {
      StaticLength(reg.args.data);
    }
  }

  /** Whatever the registry holds and wherever the temp file lies: up to this many characters of
      identifiers the command line fits its buffer, and what the process gets is the whole line. */
  lemma {:induction false} EveryLineFits(reg: Registry, cert: Certificate, path: WStr)
    requires RegistryLaw(reg) && !Failed(LoadHr(reg)) && Terminated(reg) && |path| <= MAX_PATH
    requires IdLength(cert) <= MAX_FITTING_IDS
    ensures var line := WholeLine(LoadedConfig(reg), cert, path);
            Fits(line, MAX_COMMAND_LINE) && Truncated(line, MAX_COMMAND_LINE) == line
  {
    hide WholeLine, LoadedConfig, LoadHr, RegistryLaw, Quote;
    LineBound(reg, cert, path);
  }

  lemma ShorterThanData(data: WStr)
    requires NUL in data
    ensures |ToNul(data)| < |data|
  {
    assert ToNul(data) != data;
  }

  // ----- the bounds are exact -----

  /** `count` strings of a single space. */
  function Spaces(count: nat): (r: seq<WStr>)
    ensures |r| == count && forall i :: 0 <= i < count ==> r[i] == [SPACE]
  {
    seq(count, i => [SPACE])
  }

  function Blanks(length: nat): (w: WStr)
    ensures |w| == length && forall i :: 0 <= i < length ==> w[i] == SPACE
  {
    seq(length, i => SPACE)
  }

  lemma {:induction false} SpacesPrinted(count: nat, last: WStr)
    ensures PrintedLength(Spaces(count) + [last]) == 4 * count + 1 + |Quote(last)|
    ensures |Encode(Spaces(count) + [last])| == 2 * count + |last| + 2
  {
    var all := Spaces(count) + [last];
    if count == 0 {
      assert all == [last] && all[1..] == [];
    } else {
      assert all[1..] == Spaces(count - 1) + [last];
      SpacesPrinted(count - 1, last);
      assert |Quote([SPACE])| == 3;
    }
  }

  lemma {:induction false} EncodeDoubleNul(args: seq<WStr>)
    ensures DoubleNul(Encode(args))
  {
    if args != [] {
      EncodeDoubleNul(args[1..]);
      var data := Encode(args);
      var rest := Encode(args[1..]);
      assert data[|data| - 1] == rest[|rest| - 1];
      if |rest| > 1 {
        assert data[|data| - 2] == rest[|rest| - 2];
      }
    }
  }

  /** The worst the registry can hold. */
  function WorstArgs(): seq<WStr> {
    Spaces(510) + [Blanks(2)]
  }

  function WorstRegistry(): Registry {
    Registry(Done, true, Sz(true, Blanks(1023) + [NUL]), Dword(1), true, Multi(Encode(WorstArgs())), true)
  }

  lemma {:induction false} WorstConfig()
    ensures var reg := WorstRegistry();
            && RegistryLaw(reg) && !Failed(LoadHr(reg)) && Terminated(reg)
            && LoadedConfig(reg) == Config(Some(Blanks(1023)), WorstArgs(), true)
  {
    hide Encode, Parse, Walk, InBounds, Yields, UpToEmpty, ToNul, Blanks, Spaces, DoubleNul, PrintedLength, Quote;
    var args := WorstArgs();
    SpacesPrinted(510, Blanks(2));
    EncodeDoubleNul(args);
    assert forall i :: 0 <= i < |args| ==> NUL !in args[i] && args[i] != [];
    MultiSzRoundTrip(args);
    hide WorstArgs;
    WorstExe();
  }

  lemma {:induction false} WorstLine(ids: nat)
    requires ids > 1
    ensures var cert := Certificate(Blanks(ids - 1), Blanks(1), []);
            |WholeLine(LoadedConfig(WorstRegistry()), cert, Blanks(MAX_PATH))| == 3403 + ids
  {
    WorstConfig();
    SpacesPrinted(510, Blanks(2));
    var ski, serial, path := Blanks(ids - 1), Blanks(1), Blanks(MAX_PATH);
    LineLength(Blanks(1023), WorstArgs(), SingleQuoted(ski), serial, SingleQuoted(path));
    QuoteBlanks(1023);
    QuoteBlanks(2);
    QuoteBlanks(1);
    QuoteSingleQuotedBlanks(ids - 1);
    QuoteSingleQuotedBlanks(MAX_PATH);
    hide Line, WorstRegistry, Blanks, SingleQuoted, OptionTexts, PrintedLength, Quote, LoadedConfig, LoadHr,
      RegistryLaw;
  }

  /** With one character more there is a registry and a temp file path with which the line no longer
      fits its buffer. */
  lemma {:induction false} FitIsExact()
    ensures var reg := WorstRegistry();
            var cert := Certificate(Blanks(MAX_FITTING_IDS), Blanks(1), []);
            && RegistryLaw(reg) && !Failed(LoadHr(reg)) && Terminated(reg)
            && IdLength(cert) == MAX_FITTING_IDS + 1
            && !Fits(WholeLine(LoadedConfig(reg), cert, Blanks(MAX_PATH)), MAX_COMMAND_LINE)
  {
    hide LoadHr, RegistryLaw, WholeLine, LoadedConfig, Blanks, WorstRegistry, Terminated;
    WorstConfig();
    WorstLine(MAX_FITTING_IDS + 1);
  }

  lemma WorstExe()
    ensures NUL in Blanks(1023) + [NUL] && ToNul(Blanks(1023) + [NUL]) == Blanks(1023)
  {
    var data := Blanks(1023) + [NUL];
    assert data[1023] == NUL && data[..1023] == Blanks(1023);
    ToNulIs(data, 1023);
  }

  lemma QuoteBlanks(n: nat)
    requires n > 0
    ensures |Quote(Blanks(n))| == n + 2
  {
    assert Blanks(n)[0] == SPACE;
  }

  lemma QuoteSingleQuotedBlanks(n: nat)
    requires n > 0
    ensures |Quote(SingleQuoted(Blanks(n)))| == n + 4
  {
    assert SingleQuoted(Blanks(n))[1] == SPACE;
  }

  // ----- delivery -----

  /** A dynamic text reaches the process before others: for PowerShell it must do without double
      quotes and unquoted tabs, otherwise the printer's conditions apply. */
  predicate FieldSurvives(escape: bool, text: WStr) {
    if escape then SurvivesQuoted(text) else Survives(text)
  }

  /** Everything in front of the path, which is printed last. */
  predicate FrontDeliverable(cfg: Config, cert: Certificate) {
    && ProgramSurvives(ExeText(cfg)) && AllSurvive(cfg.args)
    && FieldSurvives(cfg.escape, cert.ski) && Survives(cert.serial)
  }

  /** The condition a configuration, a certificate and a path have to meet on a line that fits. */
  predicate Deliverable(cfg: Config, cert: Certificate, path: WStr) {
    && FrontDeliverable(cfg, cert)
    && (FieldSurvives(cfg.escape, path) || (!cfg.escape && TrailingQuote(path)))
  }

  /** And on a line that has lost its last character: that must have been a closing quote. */
  predicate DeliverableOpen(cfg: Config, cert: Certificate, path: WStr) {
    FrontDeliverable(cfg, cert) && SPACE in path && DQUOTE !in path
  }

  /** What the started process gets of the line is read as the list. */
  predicate Delivered(cfg: Config, cert: Certificate, path: WStr) {
    var length := |WholeLine(cfg, cert, path)|;
    || (length < MAX_COMMAND_LINE && Deliverable(cfg, cert, path))
    || (length == MAX_COMMAND_LINE && DeliverableOpen(cfg, cert, path))
  }

  /** The six arguments in front of the path. */
  lemma {:induction false} OptionsSurvive(front: seq<WStr>)
    requires |front| == 6
    requires front[0] == L("certissued") && front[1] == L("-subjectkeyidentifier")
    requires front[3] == L("-serialnumber") && front[5] == L("-rawcertpath")
    ensures AllSurvive(front) <==> Survives(front[2]) && Survives(front[4])
  {
    OptionsPlain();
    hide L;
    assert Survives(front[0]) && Survives(front[1]) && Survives(front[3]) && Survives(front[5]);
    hide Survives;
    if Survives(front[2]) && Survives(front[4]) {
      forall i | 0 <= i < |front|
        ensures Survives(front[i])
      {
        assert i == 0 || i == 1 || i == 2 || i == 3 || i == 4 || i == 5;
      }
    }
  }

  lemma {:induction false} ArgumentsDelivered(cfg: Config, cert: Certificate, path: WStr)
    requires ProgramSurvives(ExeText(cfg))
    ensures AllDelivered(Arguments(cfg, cert, path)) <==> Deliverable(cfg, cert, path)
    ensures DeliveredOpen(Arguments(cfg, cert, path)) <==> DeliverableOpen(cfg, cert, path)
    ensures |Arguments(cfg, cert, path)| > 0
  {
    var texts := DynamicArguments(cfg.escape, cert, path);
    var front, last := texts[..6], [texts[6]];
    assert texts == front + last;
    OptionsSurvive(front);
    SingleQuotedSurvives(cert.ski);
    SingleQuotedSurvives(path);
    PlainLast(path);
    hide L, Survives, SingleQuoted;
    DeliveredConcat(front, last);
    DeliveredConcat(cfg.args, texts);
  }

  lemma PlainLast(path: WStr)
    ensures AllDelivered([path]) <==> Survives(path) || TrailingQuote(path)
    ensures DeliveredOpen([path]) <==> SPACE in path && DQUOTE !in path
  {}

  /** The list is read back from what fits of its line exactly when it is delivered. */
  lemma {:induction false} LineDelivery(cfg: Config, cert: Certificate, path: WStr)
    requires Fits(Quote(ExeText(cfg)), MAX_COMMAND_LINE)
    ensures SplitCommandLine(Truncated(WholeLine(cfg, cert, path), MAX_COMMAND_LINE))
              == [ExeText(cfg)] + Arguments(cfg, cert, path)
            <==> Delivered(cfg, cert, path)
  {
    var exe, args := ExeText(cfg), Arguments(cfg, cert, path);
    var line := Line(exe, args);
    var m := Min(|line|, MAX_COMMAND_LINE - 1);
    assert |line| == |Quote(exe)| + |Tail(args)|;
    CutRoundTrip(exe, args, m);
    if ProgramSurvives(exe) {
      ArgumentsDelivered(cfg, cert, path);
    }
    hide ProgramSurvives, AllDelivered, DeliveredOpen, ExeText, Arguments, Line, Tail, Quote;
  }

  /** The line is launched for the notification. */
  predicate Launches(n: Notification, line: WStr)
    requires ServerLaw(n.server)
  {
    Launch(line) in NotifyActions(n)
  }

  /** The only line launched for a notification is its own. */
  lemma {:induction false} LaunchedLine(n: Notification, line: WStr)
    requires ServerLaw(n.server)
    ensures Launches(n, line) ==>
      && Processed(n) && !Failed(NameHr(n.env))
      && line == LineText(LoadedConfig(n.registry), CertificateOf(n.server), n.env)
  {
    hide LineText, LoadedConfig, LoadHr, FetchHr, EndHr;
    if Launches(n, line) {
      var cfg, cert, e := LoadedConfig(n.registry), CertificateOf(n.server), n.env;
      assert Launch(line) in RunActions(cfg, cert, e, EndingOf(n));
      assert Launch(line) in StartActions(cfg, cert, e);
    }
  }

  const OPERATION: WStr := L("certissued")
  const SKI_NAME: WStr := L("-subjectkeyidentifier")
  const SERIAL_NAME: WStr := L("-serialnumber")
  const PATH_NAME: WStr := L("-rawcertpath")

  /** The settings and the properties of the certificate that go into the arguments are there. */
  predicate HasTexts(n: Notification) {
    && n.registry.exe.Sz? && n.env.tempName.Named?
    && n.server.ski.Text? && n.server.ski.bstr.Some? && n.server.serial.Text? && n.server.serial.bstr.Some?
  }

  /** The arguments in the registry, if there are any. */
  function Stored(reg: Registry): seq<WStr> {
    if reg.args.Multi? then Parse(reg.args.data) else []
  }

  /** In single quotes if the registry says so. */
  function AsSet(reg: Registry, text: WStr): WStr {
    if reg.escape.Dword? && reg.escape.value != 0 then [APOSTROPHE] + text + [APOSTROPHE] else text
  }

  /** What the started process should read, from the answers of the system. */
  function Intended(n: Notification): (r: seq<WStr>)
    requires HasTexts(n)
    ensures |r| == |Stored(n.registry)| + 8
  {
    [ToNul(n.registry.exe.data)] + Stored(n.registry)
    + [OPERATION,
       SKI_NAME, AsSet(n.registry, ToNul(n.server.ski.bstr.value)),
       SERIAL_NAME, ToNul(n.server.serial.bstr.value),
       PATH_NAME, AsSet(n.registry, n.env.tempName.path)]
  }

  lemma TextsThere(files: Files, n: Notification)
    requires NotifyLaw(files, n) && Processed(n) && !Failed(NameHr(n.env))
    ensures HasTexts(n)
    ensures Intended(n) == [ExeText(LoadedConfig(n.registry))]
              + Arguments(LoadedConfig(n.registry), CertificateOf(n.server), PathText(n.env))
  {
    hide L, Parse, ToNul;
  }

  /** End to end: whatever is launched for a certificate, cut off or not, the started process reads
      the program, the configured arguments and the seven of the notification, in this order and
      unchanged, exactly when they are delivered. */
  lemma {:induction false} EndToEnd(files: Files, n: Notification, line: WStr)
    requires NotifyLaw(files, n) && Processed(n)
    ensures var cfg, cert, path := LoadedConfig(n.registry), CertificateOf(n.server), PathText(n.env);
            Launches(n, line) ==>
              HasTexts(n) && (SplitCommandLine(line) == Intended(n) <==> Delivered(cfg, cert, path))
  {
    if Launches(n, line) {
      LaunchedLine(n, line);
      LaunchFacts(files, n);
      hide *;
      LineDelivery(LoadedConfig(n.registry), CertificateOf(n.server), PathText(n.env));
    }
  }

  /** Each text stands in its place: the program, the arguments from the registry, then the operation,
      and behind each option name its own value. */
  predicate InPlace(argv: seq<WStr>, n: Notification)
    requires HasTexts(n)
  {
    var reg, a := n.registry, |Stored(n.registry)|;
    && |argv| == a + 8
    && argv[0] == ToNul(reg.exe.data) && argv[1..a + 1] == Stored(reg)
    && argv[a + 1] == OPERATION
    && argv[a + 2] == SKI_NAME && argv[a + 3] == AsSet(reg, ToNul(n.server.ski.bstr.value))
    && argv[a + 4] == SERIAL_NAME && argv[a + 5] == ToNul(n.server.serial.bstr.value)
    && argv[a + 6] == PATH_NAME && argv[a + 7] == AsSet(reg, n.env.tempName.path)
  }

  lemma InPlaceIs(argv: seq<WStr>, n: Notification)
    requires HasTexts(n)
    ensures InPlace(argv, n) <==> argv == Intended(n)
  {
    hide L, ToNul, Stored, AsSet;
    var a := |Stored(n.registry)|;
    if InPlace(argv, n) {
      assert argv == [argv[0]] + argv[1..a + 1]
        + [argv[a + 1], argv[a + 2], argv[a + 3], argv[a + 4], argv[a + 5], argv[a + 6], argv[a + 7]];
    }
  }

  /** A text in front of others, as the registry has it printed. */
  predicate TextArrives(reg: Registry, text: WStr) {
    if reg.escape.Dword? && reg.escape.value != 0 then SurvivesQuoted(text) else Survives(text)
  }

  /** The length of the line, from its texts. */
  function LengthOf(n: Notification): nat
    requires HasTexts(n)
  {
    |Quote(ToNul(n.registry.exe.data))| + PrintedLength(Stored(n.registry)) + 63
    + |Quote(AsSet(n.registry, ToNul(n.server.ski.bstr.value)))| + |Quote(ToNul(n.server.serial.bstr.value))|
    + |Quote(AsSet(n.registry, n.env.tempName.path))|
  }

  /** Everything arrives: on a line of less than 32768 characters what survives, and on one of 32768
      also if only the closing quote of the path is cut. */
  predicate Arrives(n: Notification)
    requires HasTexts(n)
  {
    var reg, path := n.registry, n.env.tempName.path;
    && ProgramSurvives(ToNul(reg.exe.data)) && AllSurvive(Stored(reg))
    && TextArrives(reg, ToNul(n.server.ski.bstr.value)) && Survives(ToNul(n.server.serial.bstr.value))
    && (|| (LengthOf(n) < 32768
            && (TextArrives(reg, path)
                || (TrailingQuote(path) && !(reg.escape.Dword? && reg.escape.value != 0))))
        || (LengthOf(n) == 32768 && SPACE in path && DQUOTE !in path))
  }

  /** For every line launched, from the answers of the system alone: the started process finds each
      text in its place, and nothing else, exactly if everything arrives. */
  lemma {:induction false} ArgvLaw(files: Files, n: Notification, line: WStr)
    requires NotifyLaw(files, n) && Launch(line) in NotifyActions(n)
    ensures HasTexts(n) && (InPlace(SplitCommandLine(line), n) <==> Arrives(n))
  {
    assert Launches(n, line);
    LaunchedLine(n, line);
    LaunchFacts(files, n);
    ArrivesIs(files, n);
    hide *;
    EndToEnd(files, n, line);
    InPlaceIs(SplitCommandLine(line), n);
  }

  /** The line launched is the first 32767 characters of the whole one, or all of it. */
  lemma {:induction false} LineLaw(files: Files, n: Notification, line: WStr)
    requires NotifyLaw(files, n) && Launch(line) in NotifyActions(n)
    ensures HasTexts(n)
    ensures var whole := Line(Intended(n)[0], Intended(n)[1..]);
            line == if |whole| <= 32767 then whole else whole[..32767]
  {
    assert Launches(n, line);
    LaunchedLine(n, line);
    LaunchFacts(files, n);
    hide Line, ExeText, Arguments, Intended, LineText, LoadedConfig, CertificateOf, PathText, HasTexts, Launches,
      NotifyActions, NotifyLaw, Processed;
    var exe := ExeText(LoadedConfig(n.registry));
    var args := Arguments(LoadedConfig(n.registry), CertificateOf(n.server), PathText(n.env));
    assert ([exe] + args)[1..] == args;
  }

  lemma {:induction false} ArrivesIs(files: Files, n: Notification)
    requires NotifyLaw(files, n) && Processed(n) && !Failed(NameHr(n.env))
    ensures HasTexts(n)
    ensures Arrives(n) <==> Delivered(LoadedConfig(n.registry), CertificateOf(n.server), PathText(n.env))
  {
    var cfg, cert, path := LoadedConfig(n.registry), CertificateOf(n.server), PathText(n.env);
    TextsThere(files, n);
    LineLength(ExeText(cfg), cfg.args, EscapedIf(cfg.escape, cert.ski), cert.serial, EscapedIf(cfg.escape, path));
    hide Parse, ToNul, Quote, PrintedLength, ProgramSurvives, AllSurvive, Survives, SurvivesQuoted, TrailingQuote,
      Line, OptionTexts, Intended;
  }

  lemma {:induction false} LaunchFacts(files: Files, n: Notification)
    requires NotifyLaw(files, n) && Processed(n) && !Failed(NameHr(n.env))
    ensures var cfg, cert, path := LoadedConfig(n.registry), CertificateOf(n.server), PathText(n.env);
            && |path| <= MAX_PATH && Fits(Quote(ExeText(cfg)), MAX_COMMAND_LINE)
            && LineText(cfg, cert, n.env) == Truncated(WholeLine(cfg, cert, path), MAX_COMMAND_LINE)
            && HasTexts(n) && Intended(n) == [ExeText(cfg)] + Arguments(cfg, cert, path)
  {
    TextsThere(files, n);
    hide DynamicArguments, Parse, ToNul, Truncated, Line, Intended, HasTexts;
    var cfg := LoadedConfig(n.registry);
    LineBound(n.registry, CertificateOf(n.server), PathText(n.env));
    QuoteLength(ExeText(cfg));
  }

  /** Up to this many characters of identifiers no line is too long: whether the list is delivered
      is a matter of its texts alone. */
  lemma {:induction false} IdentifierBound(reg: Registry, cert: Certificate, path: WStr)
    requires RegistryLaw(reg) && !Failed(LoadHr(reg)) && Terminated(reg) && |path| <= MAX_PATH
    requires IdLength(cert) <= MAX_DELIVERED_IDS
    ensures var cfg := LoadedConfig(reg);
            Delivered(cfg, cert, path) <==> Deliverable(cfg, cert, path)
  {
    hide WholeLine, LoadedConfig, LoadHr, RegistryLaw, Quote, FrontDeliverable, EscapedIf, Terminated;
    LineBound(reg, cert, path);
  }

  /** With one character more there is a registry, a certificate and a path whose texts would all be
      delivered, but the process reads another list. */
  lemma {:induction false} DeliveryIsExact()
    ensures var reg := WorstRegistry();
            var cert := Certificate(Blanks(MAX_DELIVERED_IDS), Blanks(1), []);
            var path := Blanks(MAX_PATH);
            var cfg := LoadedConfig(reg);
            && RegistryLaw(reg) && !Failed(LoadHr(reg)) && Terminated(reg)
            && IdLength(cert) == MAX_DELIVERED_IDS + 1
            && Deliverable(cfg, cert, path)
            && SplitCommandLine(Truncated(WholeLine(cfg, cert, path), MAX_COMMAND_LINE))
                 != [ExeText(cfg)] + Arguments(cfg, cert, path)
  {
    var cfg := LoadedConfig(WorstRegistry());
    var cert := Certificate(Blanks(MAX_DELIVERED_IDS), Blanks(1), []);
    WorstConfig();
    WorstSurvives(cert);
    hide LoadHr, RegistryLaw, WholeLine, LoadedConfig, Blanks, WorstRegistry, Terminated, Deliverable, Arguments,
      WorstArgs;
    WorstLine(MAX_DELIVERED_IDS + 1);
    QuoteBlanks(1023);
    LineDelivery(cfg, cert, Blanks(MAX_PATH));
  }

  lemma WorstSurvives(cert: Certificate)
    requires cert == Certificate(Blanks(MAX_DELIVERED_IDS), Blanks(1), [])
    ensures Deliverable(Config(Some(Blanks(1023)), WorstArgs(), true), cert, Blanks(MAX_PATH))
  {
    forall i | 0 <= i < |WorstArgs()|
      ensures Survives(WorstArgs()[i])
    {
      assert WorstArgs()[i] == if i < 510 then [SPACE] else Blanks(2);
    }
  }

  /** The first `k` arguments lie before anything that does not survive, and before the cut. */
  predicate Reached(cfg: Config, cert: Certificate, path: WStr, k: nat) {
    var args := Arguments(cfg, cert, path);
    && k <= |args| && ProgramSurvives(ExeText(cfg)) && AllSurvive(args[..k])
    && |Line(ExeText(cfg), args[..k])| < MAX_COMMAND_LINE
  }

  /** Two lists have argument 0 to `k` in common. */
  predicate SameUpTo(argv: seq<WStr>, list: seq<WStr>, k: nat) {
    |argv| > k && |list| > k && argv[..k + 1] == list[..k + 1]
  }

  /** What is reached is read from what fits of the line, in its place and unchanged. */
  lemma {:induction false} LineReached(cfg: Config, cert: Certificate, path: WStr, k: nat)
    requires Reached(cfg, cert, path, k)
    ensures var argv := SplitCommandLine(Truncated(WholeLine(cfg, cert, path), MAX_COMMAND_LINE));
            SameUpTo(argv, [ExeText(cfg)] + Arguments(cfg, cert, path), k)
  {
    var exe, args := ExeText(cfg), Arguments(cfg, cert, path);
    var whole := Line(exe, args);
    LinePrefix(exe, args, k);
    assert ([exe] + args)[..k + 1] == [exe] + args[..k];
    hide Line, ProgramSurvives, AllSurvive, Arguments, ExeText, SplitCommandLine;
    SurvivorsArrive(exe, args, k, Min(|whole|, MAX_COMMAND_LINE - 1));
  }

  /** Even if not all is delivered: what is reached arrives. */
  lemma {:induction false} ReachedArrives(files: Files, n: Notification, line: WStr, k: nat)
    requires NotifyLaw(files, n) && Processed(n)
    requires Reached(LoadedConfig(n.registry), CertificateOf(n.server), PathText(n.env), k)
    ensures Launches(n, line) ==> HasTexts(n) && SameUpTo(SplitCommandLine(line), Intended(n), k)
  {
    if Launches(n, line) {
      LaunchedLine(n, line);
      LaunchFacts(files, n);
      hide *;
      LineReached(LoadedConfig(n.registry), CertificateOf(n.server), PathText(n.env), k);
    }
  }

  /** The identifier is reached if the parts in front of it and it itself survive and fit. */
  lemma {:induction false} IdentifierReached(cfg: Config, cert: Certificate, path: WStr)
    ensures Reached(cfg, cert, path, |cfg.args| + 3) <==>
      && ProgramSurvives(ExeText(cfg)) && AllSurvive(cfg.args) && FieldSurvives(cfg.escape, cert.ski)
      && |Quote(ExeText(cfg))| + PrintedLength(cfg.args) + 34 + |Quote(EscapedIf(cfg.escape, cert.ski))|
           < MAX_COMMAND_LINE
  {
    var ski := EscapedIf(cfg.escape, cert.ski);
    var texts := DynamicArguments(cfg.escape, cert, path);
    var three := texts[..3];
    var args := cfg.args + three;
    assert Arguments(cfg, cert, path)[..|cfg.args| + 3] == args;
    assert three == [L("certissued"), L("-subjectkeyidentifier"), ski];
    ThreeLength(ski);
    SingleQuotedSurvives(cert.ski);
    SurvivorsOfThree(ski);
    hide L, Survives, SingleQuoted, DynamicArguments, PrintedLength, Tail;
    TailLength(args);
    PrintedConcat(cfg.args, three);
    SurviveConcat(cfg.args, three);
  }

  lemma {:induction false} SurvivorsOfThree(ski: WStr)
    ensures AllSurvive([L("certissued"), L("-subjectkeyidentifier"), ski]) <==> Survives(ski)
  {
    OptionsPlain();
    hide L;
    var three := [L("certissued"), L("-subjectkeyidentifier"), ski];
    assert Survives(three[0]) && Survives(three[1]) && three[2] == ski;
  }

  lemma {:induction false} ThreeLength(ski: WStr)
    ensures PrintedLength([L("certissued"), L("-subjectkeyidentifier"), ski]) == 34 + |Quote(ski)|
  {
    OptionsPlain();
    var t1 := [L("-subjectkeyidentifier"), ski];
    var t0 := [L("certissued")] + t1;
    assert t0[1..] == t1 && t1[1..] == [ski] && [ski][1..] == [];
    assert PrintedLength([ski]) == 1 + |Quote(ski)|;
    assert PrintedLength(t1) == 1 + 21 + PrintedLength([ski]);
    assert PrintedLength(t0) == 1 + 10 + PrintedLength(t1);
    assert t0 == [L("certissued"), L("-subjectkeyidentifier"), ski];
  }

  /** What a PowerShell script reads as argument `i` is this text, exactly when it holds no single
      quote. */
  predicate LiteralArrives(argv: seq<WStr>, i: nat, text: WStr) {
    i < |argv| && (LiteralValue(argv[i]) == Some(text) <==> !HasSingleQuote(text))
  }

  /** The literals of a list in another that is the same, or begins with the same. */
  lemma SameLiterals(cfg: Config, cert: Certificate, path: WStr, list: seq<WStr>, argv: seq<WStr>)
    requires var at := |cfg.args|;
             && |list| == at + 8 && LiteralArrives(list, at + 3, cert.ski) && LiteralArrives(list, at + 7, path)
             && (Reached(cfg, cert, path, at + 3) ==> SameUpTo(argv, list, at + 3))
             && (Delivered(cfg, cert, path) ==> argv == list)
    ensures LiteralsArrive(cfg, cert, path, argv)
  {
    hide LiteralValue, HasSingleQuote, Reached, Delivered;
    var i := |cfg.args| + 3;
    assert |argv| > i ==> argv[i] == argv[..i + 1][i];
  }

  /** The identifier is read as a literal whenever it is reached, the path when the list is
      delivered. */
  predicate LiteralsArrive(cfg: Config, cert: Certificate, path: WStr, argv: seq<WStr>) {
    var at := |cfg.args|;
    && (Reached(cfg, cert, path, at + 3) || Delivered(cfg, cert, path) ==> LiteralArrives(argv, at + 3, cert.ski))
    && (Delivered(cfg, cert, path) ==> |argv| == at + 8 && LiteralArrives(argv, at + 7, path))
  }

  /** With escaping on, the identifier and the path a PowerShell script reads from its arguments are
      the original ones exactly when they hold no single quote. */
  lemma {:induction false} LiteralsDelivered(files: Files, n: Notification, line: WStr)
    requires NotifyLaw(files, n) && Processed(n) && LoadedConfig(n.registry).escape
    ensures var cfg, cert, path := LoadedConfig(n.registry), CertificateOf(n.server), PathText(n.env);
            Launches(n, line) ==> LiteralsArrive(cfg, cert, path, SplitCommandLine(line))
  {
    if Launches(n, line) {
      var k := |LoadedConfig(n.registry).args| + 3;
      LaunchedLine(n, line);
      LaunchFacts(files, n);
      hide *;
      var cfg, cert, path := LoadedConfig(n.registry), CertificateOf(n.server), PathText(n.env);
      LineDelivery(cfg, cert, path);
      if Reached(cfg, cert, path, k) {
        LineReached(cfg, cert, path, k);
      }
      IntendedLiterals(files, n);
      SameLiterals(cfg, cert, path, Intended(n), SplitCommandLine(line));
    }
  }

  lemma {:induction false} IntendedLiterals(files: Files, n: Notification)
    requires NotifyLaw(files, n) && Processed(n) && !Failed(NameHr(n.env)) && LoadedConfig(n.registry).escape
    ensures HasTexts(n)
    ensures var at, list := |LoadedConfig(n.registry).args|, Intended(n);
            var ski, path := CertificateOf(n.server).ski, PathText(n.env);
            && |list| == at + 8
            && LiteralArrives(list, at + 3, ski) && LiteralArrives(list, at + 7, path)
  {
    IntendedPlaces(files, n);
    hide *;
    var at := |LoadedConfig(n.registry).args|;
    LiteralAt(Intended(n), at + 3, CertificateOf(n.server).ski);
    LiteralAt(Intended(n), at + 7, PathText(n.env));
  }

  lemma LiteralAt(list: seq<WStr>, i: nat, text: WStr)
    requires i < |list| && list[i] == SingleQuoted(text)
    ensures LiteralArrives(list, i, text)
  {
    LiteralRoundTrip(text);
  }

  lemma {:induction false} IntendedPlaces(files: Files, n: Notification)
    requires NotifyLaw(files, n) && Processed(n) && !Failed(NameHr(n.env)) && LoadedConfig(n.registry).escape
    ensures HasTexts(n)
    ensures var at, list := |LoadedConfig(n.registry).args|, Intended(n);
            && |list| == at + 8
            && list[at + 3] == SingleQuoted(CertificateOf(n.server).ski)
            && list[at + 7] == SingleQuoted(PathText(n.env))
  {
    TextsThere(files, n);
    hide Parse, ToNul, L, SingleQuoted, Intended, HasTexts, NotifyLaw, FetchHr, LoadHr, NameHr;
  }

  /** For a configured list of non-empty arguments the whole delivery is a matter of the texts alone. */
  lemma {:induction false} ConfiguredArguments(reg: Registry, args: seq<WStr>)
    requires !Failed(LoadHr(reg)) && reg.args == Multi(Encode(args))
    requires forall i :: 0 <= i < |args| ==> NUL !in args[i]
    ensures LoadedConfig(reg).args == args <==> forall i :: 0 <= i < |args| ==> args[i] != []
  {
    MultiSzRoundTrip(args);
  }
}
