/** Running a privileged verb again: the argv handed to the elevated process is rebuilt from
    the parsed command, and must read back as that command and nothing more. */
module Elevate {
  import opened Basics
  import opened ConsoleText
  import opened Verbs
  import opened CommandLine

  const RELAY_FLAG := "--elevated-relay"
  const NO_USER_SID := "-"

  // ── Rebuilding the command ───────────────────────────────────────────────

  /** The canonical spelling of a parsed command. */
  function CanonicalArgv(c: Command): (argv: seq<string>) {
    match c
    case Install(mode) => ["install", "--start-mode=" + Slug(mode)]
    case Uninstall(purge, purgeAudit) =>
      ["uninstall"] + (if purge then ["--purge"] else []) + (if purgeAudit then ["--purge-audit"] else [])
    case Start => ["start"]
    case Stop => ["stop"]
    case Restart => ["restart"]
    case Reinstall => ["reinstall"]
    case Status => ["status"]
    case DiagDoctor => ["diag", "doctor"]
    case DiagLogs(tail) => ["diag", "logs", "--tail=" + Decimal(tail)]
    case DiagExport => ["diag", "export"]
    case ResetNetwork(confirmed, stopService) =>
      ["reset-network"] + (if confirmed then ["--confirm"] else [])
                        + (if stopService then ["--stop-service"] else [])
    case Version => ["version"]
    case Help => ["help"]
  }

  /** The commands a parse can yield. */
  predicate WellFormed(c: Command) {
    && (c.Uninstall? && c.purgeAudit ==> c.purge)
    && (c.DiagLogs? ==> 1 <= c.tail <= MAX_TAIL)
  }

  function PrivilegeOf(c: Command): Privilege {
    if c.Install? || c.Uninstall? || c.Start? || c.Stop? || c.Restart? || c.Reinstall? || c.ResetNetwork?
    then Administrator else Any
  }

  // ── What a parse yields ──────────────────────────────────────────────────

  lemma BuiltIsWellFormed(spelling: string, spec: VerbSpec, flags: seq<ParsedFlag>)
    requires Build(spelling, spec, flags).Ok?
    ensures WellFormed(Build(spelling, spec, flags).value)
  {
  }

  predicate SpellsAdministrator(spelling: string) {
    || spelling == "install" || spelling == "uninstall" || spelling == "start" || spelling == "stop"
    || spelling == "restart" || spelling == "reinstall" || spelling == "reset-network"
  }

  lemma BuiltBySpelling(spelling: string, spec: VerbSpec, flags: seq<ParsedFlag>)
    requires Build(spelling, spec, flags).Ok?
    ensures PrivilegeOf(Build(spelling, spec, flags).value) == Administrator <==> SpellsAdministrator(spelling)
  {
  }

  lemma DeclaredBySpelling(spec: VerbSpec)
    requires spec in VERBS
    ensures spec.privilege == Administrator <==> SpellsAdministrator(spec.name)
  {
  }

  lemma BuiltPrivilege(spec: VerbSpec, flags: seq<ParsedFlag>)
    requires spec in VERBS && Build(spec.name, spec, flags).Ok?
    ensures PrivilegeOf(Build(spec.name, spec, flags).value) == spec.privilege
  {
    BuiltBySpelling(spec.name, spec, flags);
    DeclaredBySpelling(spec);
  }

  lemma BuiltSubverbPrivilege(spec: VerbSpec, flags: seq<ParsedFlag>)
    requires spec in DIAG.subverbs && Build("diag" + " " + spec.name, spec, flags).Ok?
    ensures PrivilegeOf(Build("diag" + " " + spec.name, spec, flags).value) == spec.privilege == Any
  {
    assert "diag" + " " + "doctor" == "diag doctor";
    assert "diag" + " " + "logs" == "diag logs";
    assert "diag" + " " + "export" == "diag export";
  }

  lemma ParsedIsWellFormed(args: seq<string>)
    requires Parse(args).Ok?
    ensures WellFormed(Parse(args).value.command)
    ensures Parse(args).value.privilege == PrivilegeOf(Parse(args).value.command)
  {
    var r := Resolve(args);
    if r.Verb? {
      var flags := Collected(r.spec, args[r.words..]).value;
      BuiltIsWellFormed(r.spelling, r.spec, flags);
      if r.words == 1 {
        BuiltPrivilege(r.spec, flags);
      } else {
        ElevationIsOfferedWhereNeeded(Find(Normalised(args[0])).value);
        BuiltSubverbPrivilege(r.spec, flags);
      }
    }
  }

  // ── Reading a canonical argv back ────────────────────────────────────────

  predicate IsWord(s: string) {
    |s| > 1 && IsLower(s) && s[0] != '-' && '=' !in s
  }

  lemma VerbNamesAreLower(k: nat)
    requires k < |VERBS|
    ensures IsLower(VERBS[k].name)
  {
  }

  lemma VerbNamesAreWords(k: nat)
    requires k < |VERBS|
    ensures IsWord(VERBS[k].name)
  {
    VerbNamesAreLower(k);
  }

  lemma WordIsNormal(s: string)
    requires IsWord(s)
    ensures Normalised(s) == s
  {
    LowerKeeps(s);
  }

  lemma ResolvesFlat(k: nat, args: seq<string>)
    requires k < |VERBS| && VERBS[k].subverbs == []
    requires args != [] && args[0] == VERBS[k].name
    ensures Resolve(args) == Verb(VERBS[k], VERBS[k].name, 1)
  {
    VerbNamesAreWords(k);
    WordIsNormal(VERBS[k].name);
    VerbNamesAreUnique();
    FindUnique(VERBS, k);
  }

  lemma ResolvesSubverb(g: nat, k: nat, args: seq<string>)
    requires g < |VERBS| && UniqueNames(VERBS) && k < |VERBS[g].subverbs| && UniqueNames(VERBS[g].subverbs)
    requires IsWord(VERBS[g].name) && IsWord(VERBS[g].subverbs[k].name)
    requires |args| >= 2 && args[0] == VERBS[g].name && args[1] == VERBS[g].subverbs[k].name
    ensures Resolve(args) == Verb(VERBS[g].subverbs[k], VERBS[g].name + " " + VERBS[g].subverbs[k].name, 2)
  {
    WordIsNormal(VERBS[g].name);
    WordIsNormal(VERBS[g].subverbs[k].name);
    FindUnique(VERBS, g);
    FindUnique(VERBS[g].subverbs, k);
  }

  lemma SubverbNamesAreWords(k: nat)
    requires k < |DIAG.subverbs|
    ensures VERBS[7] == DIAG && IsWord(DIAG.name) && IsWord(DIAG.subverbs[k].name)
  {
  }

  lemma ResolvesDiag(k: nat, args: seq<string>)
    requires k < |DIAG.subverbs|
    requires |args| >= 2 && args[0] == DIAG.name && args[1] == DIAG.subverbs[k].name
    ensures Resolve(args) == Verb(DIAG.subverbs[k], DIAG.name + " " + DIAG.subverbs[k].name, 2)
  {
    VerbNamesAreUnique();
    SubverbNamesAreWords(k);
    ResolvesSubverb(7, k, args);
  }

  ghost predicate Declares(spec: VerbSpec, flag: FlagSpec) {
    IsWord(flag.name) && FindFlag(spec.flags, flag.name) == Some(flag)
  }

  lemma SwitchReads(spec: VerbSpec, flag: FlagSpec)
    requires Declares(spec, flag) && !flag.takesValue
    ensures OneFlag(spec, "--" + flag.name) == Ok(ParsedFlag(flag.name, None))
  {
    var arg := "--" + flag.name;
    assert arg[..2] == "--" && arg[2..] == flag.name;
    LowerKeeps(flag.name);
  }

  lemma ValueReads(spec: VerbSpec, flag: FlagSpec, value: string)
    requires Declares(spec, flag) && flag.takesValue
    ensures OneFlag(spec, "--" + flag.name + "=" + value) == Ok(ParsedFlag(flag.name, Some(value)))
  {
    var arg := "--" + flag.name + "=" + value;
    assert arg[..2] == "--" && arg[2..] == flag.name + ['='] + value;
    SplitOnceAt(flag.name, '=', value);
    LowerKeeps(flag.name);
  }

  lemma CollectsOne(spec: VerbSpec, arg: string, f: ParsedFlag)
    requires OneFlag(spec, arg) == Ok(f)
    ensures Collected(spec, [arg]) == Ok([f])
  {
    assert [arg][..0] == [];
    assert [] + [f] == [f];
  }

  lemma CollectsTwo(spec: VerbSpec, a: string, b: string, f: ParsedFlag, g: ParsedFlag)
    requires OneFlag(spec, a) == Ok(f) && OneFlag(spec, b) == Ok(g) && f.name != g.name
    ensures Collected(spec, [a, b]) == Ok([f, g])
  {
    CollectsOne(spec, a, f);
    assert [a, b][..1] == [a];
    assert [f] + [g] == [f, g];
  }

  lemma FlagOfTwo(f: ParsedFlag, g: ParsedFlag, name: string)
    ensures Flag([], name) == None
    ensures Flag([f], name) == if f.name == name then Some(f) else None
    ensures Flag([f, g], name) == if f.name == name then Some(f) else if g.name == name then Some(g) else None
  {
    assert [f][1..] == [] && [f, g][1..] == [g] && [g][1..] == [];
  }

  /** What the command the flags build makes of the whole invocation, without `--elevate`. */
  function Plainly(spec: VerbSpec, built: Result<Command, ParseError>): Result<Invocation, ParseError> {
    match built
    case Err(e) => Err(e)
    case Ok(c) => Ok(Invocation(c, false, spec.privilege))
  }

  lemma ParsesFlags(args: seq<string>, spec: VerbSpec, spelling: string, words: nat, flags: seq<ParsedFlag>)
    requires Resolve(args) == Verb(spec, spelling, words) && words <= |args|
    requires Collected(spec, args[words..]) == Ok(flags) && Flag(flags, ELEVATE.name) == None
    ensures Parse(args) == Plainly(spec, Build(spelling, spec, flags))
  {
  }

  lemma ParsesNoFlags(args: seq<string>, spec: VerbSpec, spelling: string, words: nat)
    requires Resolve(args) == Verb(spec, spelling, words) && |args| == words
    ensures Parse(args) == Plainly(spec, Build(spelling, spec, []))
  {
    assert args[words..] == [];
  }

  lemma ParsesOneFlag(args: seq<string>, spec: VerbSpec, spelling: string, words: nat, f: ParsedFlag)
    requires Resolve(args) == Verb(spec, spelling, words) && |args| == words + 1
    requires OneFlag(spec, args[words]) == Ok(f) && f.name != ELEVATE.name
    ensures Parse(args) == Plainly(spec, Build(spelling, spec, [f]))
  {
    CollectsOne(spec, args[words], f);
    assert args[words..] == [args[words]];
    FlagOfTwo(f, f, ELEVATE.name);
  }

  lemma ParsesOneValue(args: seq<string>, spec: VerbSpec, spelling: string, words: nat, flag: FlagSpec, value: string)
    requires Resolve(args) == Verb(spec, spelling, words) && |args| == words + 1
    requires Declares(spec, flag) && flag.takesValue && flag.name != ELEVATE.name
    requires args[words] == "--" + flag.name + "=" + value
    ensures Parse(args) == Plainly(spec, Build(spelling, spec, [ParsedFlag(flag.name, Some(value))]))
  {
    ValueReads(spec, flag, value);
    ParsesOneFlag(args, spec, spelling, words, ParsedFlag(flag.name, Some(value)));
  }

  lemma ParsesTwoFlags(args: seq<string>, spec: VerbSpec, spelling: string, words: nat, f: ParsedFlag, g: ParsedFlag)
    requires Resolve(args) == Verb(spec, spelling, words) && |args| == words + 2
    requires OneFlag(spec, args[words]) == Ok(f) && OneFlag(spec, args[words + 1]) == Ok(g)
    requires f.name != g.name && f.name != ELEVATE.name && g.name != ELEVATE.name
    ensures Parse(args) == Plainly(spec, Build(spelling, spec, [f, g]))
  {
    CollectsTwo(spec, args[words], args[words + 1], f, g);
    assert args[words..] == [args[words], args[words + 1]];
    FlagOfTwo(f, g, ELEVATE.name);
    ParsesFlags(args, spec, spelling, words, [f, g]);
  }

  lemma SlugIsLower(mode: StartMode)
    ensures IsLower(Slug(mode))
  {
  }

  lemma SlugNamesItsMode(mode: StartMode)
    ensures FromSlug(Slug(mode)) == Some(mode)
  {
  }

  lemma SlugReads(mode: StartMode)
    ensures FromSlug(Lower(Slug(mode))) == Some(mode)
  {
    SlugIsLower(mode);
    LowerKeeps(Slug(mode));
    SlugNamesItsMode(mode);
  }

  lemma BuildsInstall(mode: StartMode)
    ensures Build("install", INSTALL, [ParsedFlag("start-mode", Some(Slug(mode)))]) == Ok(Install(mode))
  {
    var f := ParsedFlag("start-mode", Some(Slug(mode)));
    FlagOfTwo(f, f, "start-mode");
    SlugReads(mode);
    assert Build("install", INSTALL, [f]) == BuildInstall(INSTALL, [f]);
  }

  lemma InstallSpelling(mode: StartMode, argv: seq<string>)
    requires argv == CanonicalArgv(Install(mode))
    ensures VERBS[0] == INSTALL && INSTALL.subverbs == [] && |argv| == 2 && argv[0] == VERBS[0].name
    ensures argv[1] == "--" + START_MODE.name + "=" + Slug(mode)
    ensures Declares(INSTALL, START_MODE) && START_MODE.takesValue && START_MODE.name != ELEVATE.name
  {
    assert "--start-mode=" == "--" + START_MODE.name + "=";
  }

  lemma InstallRoundTrip(mode: StartMode)
    ensures Parse(CanonicalArgv(Install(mode))) == Ok(Invocation(Install(mode), false, Administrator))
  {
    var argv := CanonicalArgv(Install(mode));
    InstallSpelling(mode, argv);
    ResolvesFlat(0, argv);
    ParsesOneValue(argv, INSTALL, INSTALL.name, 1, START_MODE, Slug(mode));
    BuildsInstall(mode);
  }

  lemma BuildsLogs(tail: nat)
    ensures Build("diag logs", LOGS, [ParsedFlag("tail", Some(Decimal(tail)))]) ==
            if 1 <= tail <= MAX_TAIL then Ok(DiagLogs(tail))
            else if tail <= USIZE_MAX then Err(OutOfRange("logs", "tail", Decimal(tail), 1, MAX_TAIL))
            else Err(InvalidValue("logs", "tail", Decimal(tail)))
  {
    var f := ParsedFlag("tail", Some(Decimal(tail)));
    FlagOfTwo(f, f, "tail");
    ParseUsizeOfDecimal(tail);
  }

  lemma LogsSpelling(tail: nat, argv: seq<string>)
    requires argv == CanonicalArgv(DiagLogs(tail))
    ensures DIAG.subverbs[1] == LOGS && |argv| == 3 && argv[0] == DIAG.name && argv[1] == DIAG.subverbs[1].name
    ensures argv[2] == "--" + TAIL.name + "=" + Decimal(tail)
    ensures Declares(LOGS, TAIL) && TAIL.takesValue && TAIL.name != ELEVATE.name
    ensures DIAG.name + " " + LOGS.name == "diag logs"
  {
    assert "--tail=" == "--" + TAIL.name + "=";
  }

  /** The tail is the one number a canonical argv carries: it reads back exactly in range. */
  lemma LogsRoundTrip(tail: nat)
    ensures 1 <= tail <= MAX_TAIL ==>
              Parse(CanonicalArgv(DiagLogs(tail))) == Ok(Invocation(DiagLogs(tail), false, Any))
    ensures !(1 <= tail <= MAX_TAIL) ==> Parse(CanonicalArgv(DiagLogs(tail))).Err?
  {
    var argv := CanonicalArgv(DiagLogs(tail));
    LogsSpelling(tail, argv);
    ResolvesDiag(1, argv);
    ParsesOneValue(argv, LOGS, DIAG.name + " " + LOGS.name, 2, TAIL, Decimal(tail));
    BuildsLogs(tail);
  }

  /** `rest` are the switches, of the two `spec` declares first, that are on. */
  lemma ParsesSwitches(args: seq<string>, spec: VerbSpec, a: FlagSpec, b: FlagSpec, onA: bool, onB: bool)
    returns (flags: seq<ParsedFlag>)
    requires Resolve(args) == Verb(spec, spec.name, 1)
    requires Declares(spec, a) && Declares(spec, b) && !a.takesValue && !b.takesValue
    requires a.name != b.name && a.name != ELEVATE.name && b.name != ELEVATE.name
    requires args[1..] == (if onA then ["--" + a.name] else []) + (if onB then ["--" + b.name] else [])
    ensures Parse(args) == Plainly(spec, Build(spec.name, spec, flags))
    ensures Given(flags, a.name) == onA && Given(flags, b.name) == onB
  {
    var f, g := ParsedFlag(a.name, None), ParsedFlag(b.name, None);
    SwitchReads(spec, a);
    SwitchReads(spec, b);
    FlagOfTwo(f, g, a.name);
    FlagOfTwo(f, g, b.name);
    FlagOfTwo(g, f, a.name);
    FlagOfTwo(g, f, b.name);
    if onA && onB {
      assert args[1] == args[1..][0] && args[2] == args[1..][1];
      ParsesTwoFlags(args, spec, spec.name, 1, f, g);
      flags := [f, g];
    } else if onA || onB {
      assert args[1] == args[1..][0];
      flags := if onA then [f] else [g];
      ParsesOneFlag(args, spec, spec.name, 1, flags[0]);
    } else {
      ParsesNoFlags(args, spec, spec.name, 1);
      flags := [];
    }
  }

  lemma UninstallSpelling(purge: bool, purgeAudit: bool, argv: seq<string>)
    requires argv == CanonicalArgv(Uninstall(purge, purgeAudit))
    ensures VERBS[1] == UNINSTALL && argv[0] == VERBS[1].name && UNINSTALL.subverbs == []
    ensures argv[1..] == (if purge then ["--" + PURGE.name] else []) +
                         (if purgeAudit then ["--" + PURGE_AUDIT.name] else [])
  {
    assert "--purge" == "--" + PURGE.name && "--purge-audit" == "--" + PURGE_AUDIT.name;
    assert argv[1..] == (if purge then ["--purge"] else []) + (if purgeAudit then ["--purge-audit"] else []);
  }

  lemma UninstallDeclares()
    ensures Declares(UNINSTALL, PURGE) && Declares(UNINSTALL, PURGE_AUDIT)
    ensures PURGE.name != PURGE_AUDIT.name && PURGE.name != ELEVATE.name && PURGE_AUDIT.name != ELEVATE.name
  {
  }

  lemma UninstallRoundTrip(purge: bool, purgeAudit: bool)
    ensures (purgeAudit ==> purge) ==>
              Parse(CanonicalArgv(Uninstall(purge, purgeAudit))) ==
              Ok(Invocation(Uninstall(purge, purgeAudit), false, Administrator))
    ensures purgeAudit && !purge ==>
              Parse(CanonicalArgv(Uninstall(purge, purgeAudit))) ==
              Err(RequiresFlag("uninstall", "purge-audit", "purge"))
  {
    var argv := CanonicalArgv(Uninstall(purge, purgeAudit));
    UninstallSpelling(purge, purgeAudit, argv);
    UninstallDeclares();
    ResolvesFlat(1, argv);
    var flags := ParsesSwitches(argv, UNINSTALL, PURGE, PURGE_AUDIT, purge, purgeAudit);
    assert Build("uninstall", UNINSTALL, flags) == BuildUninstall(flags);
  }

  lemma ResetSpelling(confirmed: bool, stopService: bool, argv: seq<string>)
    requires argv == CanonicalArgv(ResetNetwork(confirmed, stopService))
    ensures VERBS[8] == RESET_NETWORK && argv[0] == VERBS[8].name && RESET_NETWORK.subverbs == []
    ensures argv[1..] == (if confirmed then ["--" + CONFIRM.name] else []) +
                         (if stopService then ["--" + STOP_SERVICE.name] else [])
  {
    assert "--confirm" == "--" + CONFIRM.name && "--stop-service" == "--" + STOP_SERVICE.name;
    assert argv[1..] == (if confirmed then ["--confirm"] else []) + (if stopService then ["--stop-service"] else []);
  }

  lemma ResetDeclares()
    ensures Declares(RESET_NETWORK, CONFIRM) && Declares(RESET_NETWORK, STOP_SERVICE)
    ensures CONFIRM.name != STOP_SERVICE.name && CONFIRM.name != ELEVATE.name && STOP_SERVICE.name != ELEVATE.name
  {
  }

  lemma ResetBuilds(flags: seq<ParsedFlag>)
    ensures Build("reset-network", RESET_NETWORK, flags) ==
            Ok(ResetNetwork(Given(flags, "confirm"), Given(flags, "stop-service")))
  {
  }

  lemma ResetParses(confirmed: bool, stopService: bool, argv: seq<string>) returns (flags: seq<ParsedFlag>)
    requires argv == CanonicalArgv(ResetNetwork(confirmed, stopService))
    ensures Parse(argv) == Plainly(RESET_NETWORK, Build(RESET_NETWORK.name, RESET_NETWORK, flags))
    ensures Given(flags, CONFIRM.name) == confirmed && Given(flags, STOP_SERVICE.name) == stopService
  {
    ResetSpelling(confirmed, stopService, argv);
    ResetDeclares();
    ResolvesFlat(8, argv);
    flags := ParsesSwitches(argv, RESET_NETWORK, CONFIRM, STOP_SERVICE, confirmed, stopService);
  }

  lemma ResetRoundTrip(confirmed: bool, stopService: bool)
    ensures Parse(CanonicalArgv(ResetNetwork(confirmed, stopService))) ==
            Ok(Invocation(ResetNetwork(confirmed, stopService), false, Administrator))
  {
    var flags := ResetParses(confirmed, stopService, CanonicalArgv(ResetNetwork(confirmed, stopService)));
    ResetBuilds(flags);
  }

  lemma FlatRoundTrip(c: Command, k: nat)
    requires k < |VERBS| && VERBS[k].subverbs == [] && CanonicalArgv(c) == [VERBS[k].name]
    requires Build(VERBS[k].name, VERBS[k], []) == Ok(c)
    ensures Parse(CanonicalArgv(c)) == Ok(Invocation(c, false, VERBS[k].privilege))
  {
    ResolvesFlat(k, CanonicalArgv(c));
    ParsesNoFlags(CanonicalArgv(c), VERBS[k], VERBS[k].name, 1);
  }

  lemma DiagRoundTrip(c: Command, k: nat)
    requires k < |DIAG.subverbs| && CanonicalArgv(c) == [DIAG.name, DIAG.subverbs[k].name]
    requires Build(DIAG.name + " " + DIAG.subverbs[k].name, DIAG.subverbs[k], []) == Ok(c)
    ensures Parse(CanonicalArgv(c)) == Ok(Invocation(c, false, DIAG.subverbs[k].privilege))
  {
    ResolvesDiag(k, CanonicalArgv(c));
    ParsesNoFlags(CanonicalArgv(c), DIAG.subverbs[k], DIAG.name + " " + DIAG.subverbs[k].name, 2);
  }

  /** Where the table holds the verb of a command that takes no flags. */
  function FlatIndex(c: Command): nat {
    match c
    case Start => 2
    case Stop => 3
    case Restart => 4
    case Reinstall => 5
    case Status => 6
    case Version => 9
    case _ => 10
  }

  lemma FlatBuilds(c: Command)
    requires c.Start? || c.Stop? || c.Restart? || c.Reinstall? || c.Status? || c.Version? || c.Help?
    ensures CanonicalArgv(c) == [VERBS[FlatIndex(c)].name] && VERBS[FlatIndex(c)].subverbs == []
    ensures Build(VERBS[FlatIndex(c)].name, VERBS[FlatIndex(c)], []) == Ok(c)
    ensures VERBS[FlatIndex(c)].privilege == PrivilegeOf(c)
  {
  }

  lemma DiagBuilds(c: Command, k: nat)
    requires (c.DiagDoctor? && k == 0) || (c.DiagExport? && k == 2)
    ensures CanonicalArgv(c) == [DIAG.name, DIAG.subverbs[k].name] && DIAG.subverbs[k].privilege == Any
    ensures Build(DIAG.name + " " + DIAG.subverbs[k].name, DIAG.subverbs[k], []) == Ok(c)
  {
    assert DIAG.name + " " + DOCTOR.name == "diag doctor";
    assert DIAG.name + " " + EXPORT.name == "diag export";
  }

  lemma FlagFreeRoundTrip(c: Command)
    requires !(c.Install? || c.Uninstall? || c.DiagLogs? || c.ResetNetwork?)
    ensures Parse(CanonicalArgv(c)) == Ok(Invocation(c, false, PrivilegeOf(c)))
  {
    if c.DiagDoctor? || c.DiagExport? {
      var k := if c.DiagDoctor? then 0 else 2;
      DiagBuilds(c, k);
      DiagRoundTrip(c, k);
    } else {
      FlatBuilds(c);
      FlatRoundTrip(c, FlatIndex(c));
    }
  }

  // ── The round trip ───────────────────────────────────────────────────────

  /** What the parser makes of the canonical argv of `c`: `c` itself, or an error. */
  predicate RoundTrips(c: Command, r: Result<Invocation, ParseError>) {
    && (WellFormed(c) <==> r.Ok?)
    && (WellFormed(c) ==> r == Ok(Invocation(c, false, PrivilegeOf(c))))
  }

  lemma FlaggedRoundTrips(c: Command)
    requires c.Install? || c.Uninstall?
    ensures RoundTrips(c, Parse(CanonicalArgv(c)))
  {
    if c.Install? { InstallRoundTrip(c.startMode); } else { UninstallRoundTrip(c.purge, c.purgeAudit); }
  }

  lemma NumberedRoundTrips(c: Command)
    requires c.DiagLogs? || c.ResetNetwork?
    ensures RoundTrips(c, Parse(CanonicalArgv(c)))
  {
    if c.DiagLogs? { LogsRoundTrip(c.tail); } else { ResetRoundTrip(c.confirmed, c.stopService); }
  }

  /** A command round-trips exactly when it is one a parse can yield. */
  lemma CanonicalRoundTrip(c: Command)
    ensures WellFormed(c) <==> Parse(CanonicalArgv(c)).Ok?
    ensures WellFormed(c) ==> Parse(CanonicalArgv(c)) == Ok(Invocation(c, false, PrivilegeOf(c)))
  {
    assert RoundTrips(c, Parse(CanonicalArgv(c))) by {
      if c.Install? || c.Uninstall? {
        FlaggedRoundTrips(c);
      } else if c.DiagLogs? || c.ResetNetwork? {
        NumberedRoundTrips(c);
      } else {
        FlagFreeRoundTrip(c);
      }
    }
  }

  /** Whatever was typed, the elevated process parses the same command, with the same
      privilege, and is not asked to elevate again. */
  lemma ReparsedAsTyped(args: seq<string>)
    requires Parse(args).Ok?
    ensures Parse(CanonicalArgv(Parse(args).value.command)) == Ok(Parse(args).value.(elevate := false))
  {
    ParsedIsWellFormed(args);
    CanonicalRoundTrip(Parse(args).value.command);
  }

  /** Two argvs mean the same command exactly when they are rebuilt alike. */
  lemma CanonicalIsComplete(args: seq<string>, other: seq<string>)
    requires Parse(args).Ok? && Parse(other).Ok?
    ensures Parse(args).value.command == Parse(other).value.command <==>
            CanonicalArgv(Parse(args).value.command) == CanonicalArgv(Parse(other).value.command)
  {
    ReparsedAsTyped(args);
    ReparsedAsTyped(other);
  }
}
