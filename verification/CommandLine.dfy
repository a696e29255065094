/** Argument parsing: argv to a validated invocation, driven by the verb table. */
module CommandLine {
  import opened Basics
  import opened ConsoleText
  import opened Verbs

  const DEFAULT_TAIL: nat := 50
  const MAX_TAIL: nat := 2000

  datatype StartMode = WithWindows | OnAppLaunch

  function Slug(m: StartMode): string {
    if m.WithWindows? then "with-windows" else "on-app-launch"
  }

  function FromSlug(s: string): Option<StartMode> {
    if s == "with-windows" || s == "auto" then Some(WithWindows)
    else if s == "on-app-launch" || s == "demand" || s == "on-demand" then Some(OnAppLaunch)
    else None
  }

  datatype Command =
    | Install(startMode: StartMode)
    | Uninstall(purge: bool, purgeAudit: bool)
    | Start | Stop | Restart | Reinstall | Status
    | DiagDoctor | DiagLogs(tail: nat) | DiagExport
    | ResetNetwork(confirmed: bool, stopService: bool)
    | Version | Help

  datatype Invocation = Invocation(command: Command, elevate: bool, privilege: Privilege)

  datatype ParseError =
    | UnknownVerb(verb: string)
    | MissingSubcommand(verb: string)
    | UnknownSubcommand(verb: string, subcommand: string)
    | UnknownFlag(verb: string, flag: string)
    | MissingValue(verb: string, flag: string)
    | UnexpectedValue(verb: string, flag: string)
    | RepeatedFlag(verb: string, flag: string)
    | InvalidValue(verb: string, flag: string, value: string)
    | OutOfRange(verb: string, flag: string, value: string, min: nat, max: nat)
    | UnexpectedArgument(verb: string, argument: string)
    | RequiresFlag(verb: string, flag: string, needs: string)

  datatype ParsedFlag = ParsedFlag(name: string, value: Option<string>)

  // ── Flags ────────────────────────────────────────────────────────────────

  /** One argument as a flag of `spec`, whatever came before it. */
  function OneFlag(spec: VerbSpec, arg: string): Result<ParsedFlag, ParseError> {
    match FlagBody(arg)
    case None => Err(UnexpectedArgument(spec.name, arg))
    case Some(body) =>
      var flag := match SplitOnce(body, '=')
                  case Some((name, value)) => ParsedFlag(Lower(name), Some(value))
                  case None => ParsedFlag(Lower(body), None);
      match FindFlag(spec.flags, flag.name)
      case None => Err(UnknownFlag(spec.name, flag.name))
      case Some(declared) =>
        if declared.takesValue && flag.value.None? then Err(MissingValue(spec.name, declared.name))
        else if !declared.takesValue && flag.value.Some? then Err(UnexpectedValue(spec.name, declared.name))
        else Ok(flag)
  }

  predicate Names(flags: seq<ParsedFlag>, name: string) {
    exists i :: 0 <= i < |flags| && flags[i].name == name
  }

  /** The flags of `rest`, read left to right; the first argument that does not fit decides. */
  function Collected(spec: VerbSpec, rest: seq<string>): Result<seq<ParsedFlag>, ParseError> {
    if rest == [] then Ok([])
    else
      match Collected(spec, rest[..|rest| - 1])
      case Err(e) => Err(e)
      case Ok(flags) => WithFlag(spec, flags, rest[|rest| - 1])
  }

  function WithFlag(spec: VerbSpec, flags: seq<ParsedFlag>, arg: string): Result<seq<ParsedFlag>, ParseError> {
    match OneFlag(spec, arg)
    case Err(e) => Err(e)
    case Ok(f) => if Names(flags, f.name) then Err(RepeatedFlag(spec.name, f.name)) else Ok(flags + [f])
  }

  /** Whether a flag of that name was read before. */
  method IsNamed(flags: seq<ParsedFlag>, name: string) returns (named: bool)
    ensures named <==> Names(flags, name)
  {
    for i := 0 to |flags|
      invariant !Names(flags[..i], name)
    {
      if flags[i].name == name { return true; }
    }
    assert flags[..|flags|] == flags;
    named := false;
  }

  method CollectFlags(spec: VerbSpec, rest: seq<string>) returns (r: Result<seq<ParsedFlag>, ParseError>)
    ensures r == Collected(spec, rest)
  {
    var parsed: seq<ParsedFlag> := [];
    for i := 0 to |rest|
      invariant Collected(spec, rest[..i]) == Ok(parsed)
    {
      CollectedOneMore(spec, rest, i);
      var one := OneFlag(spec, rest[i]);
      if one.Err? {
        CollectedStopsAtError(spec, rest, i + 1);
        return Err(one.error);
      }
      var repeated := IsNamed(parsed, one.value.name);
      if repeated {
        CollectedStopsAtError(spec, rest, i + 1);
        return Err(RepeatedFlag(spec.name, one.value.name));
      }
      parsed := parsed + [one.value];
    }
    assert rest[..|rest|] == rest;
    r := Ok(parsed);
  }

  lemma CollectedOneMore(spec: VerbSpec, rest: seq<string>, i: nat)
    requires i < |rest| && Collected(spec, rest[..i]).Ok?
    ensures Collected(spec, rest[..i + 1]) == WithFlag(spec, Collected(spec, rest[..i]).value, rest[i])
  {
    assert rest[..i + 1][..i] == rest[..i];
  }

  lemma {:induction false} CollectedStopsAtError(spec: VerbSpec, rest: seq<string>, n: nat)
    requires n <= |rest| && Collected(spec, rest[..n]).Err?
    ensures Collected(spec, rest) == Err(Collected(spec, rest[..n]).error)
  {
    if n == |rest| {
      assert rest[..n] == rest;
    } else {
      var init := rest[..|rest| - 1];
      assert init[..n] == rest[..n];
      CollectedStopsAtError(spec, init, n);
    }
  }

  /** The order-free reading of a flag list: each argument fits on its own, no name twice. */
  ghost predicate Fits(spec: VerbSpec, rest: seq<string>) {
    && (forall i :: 0 <= i < |rest| ==> OneFlag(spec, rest[i]).Ok?)
    && (forall i, j :: 0 <= i < j < |rest| ==>
          OneFlag(spec, rest[i]).Ok? && OneFlag(spec, rest[j]).Ok? ==>
          OneFlag(spec, rest[i]).value.name != OneFlag(spec, rest[j]).value.name)
  }

  ghost predicate Reads(spec: VerbSpec, rest: seq<string>, flags: seq<ParsedFlag>) {
    |flags| == |rest| && forall i :: 0 <= i < |rest| ==> OneFlag(spec, rest[i]) == Ok(flags[i])
  }

  ghost predicate DistinctNames(flags: seq<ParsedFlag>) {
    forall i, j :: 0 <= i < j < |flags| ==> flags[i].name != flags[j].name
  }

  lemma OneMoreReads(spec: VerbSpec, init: seq<string>, arg: string, before: seq<ParsedFlag>, f: ParsedFlag)
    requires Reads(spec, init, before) && DistinctNames(before)
    requires OneFlag(spec, arg) == Ok(f) && !Names(before, f.name)
    ensures Reads(spec, init + [arg], before + [f]) && DistinctNames(before + [f])
  {
    forall i | 0 <= i < |before| ensures before[i].name != f.name {}
  }

  lemma {:induction false} CollectedReads(spec: VerbSpec, rest: seq<string>)
    requires Collected(spec, rest).Ok?
    ensures Reads(spec, rest, Collected(spec, rest).value) && DistinctNames(Collected(spec, rest).value)
  {
    if rest != [] {
      var init, arg := rest[..|rest| - 1], rest[|rest| - 1];
      CollectedReads(spec, init);
      OneMoreReads(spec, init, arg, Collected(spec, init).value, OneFlag(spec, arg).value);
      assert init + [arg] == rest;
    }
  }

  lemma {:induction false} FittingIsCollected(spec: VerbSpec, rest: seq<string>)
    requires Fits(spec, rest)
    ensures Collected(spec, rest).Ok?
  {
    if rest != [] {
      var init := rest[..|rest| - 1];
      FittingIsCollected(spec, init);
      CollectedReads(spec, init);
      var f := OneFlag(spec, rest[|rest| - 1]).value;
      var before := Collected(spec, init).value;
      forall i | 0 <= i < |before| ensures before[i].name != f.name {
        assert OneFlag(spec, rest[i]) == Ok(before[i]);
      }
    }
  }

  lemma CollectedIsFits(spec: VerbSpec, rest: seq<string>)
    ensures Collected(spec, rest).Ok? <==> Fits(spec, rest)
    ensures Collected(spec, rest).Ok? ==> Reads(spec, rest, Collected(spec, rest).value)
  {
    if Collected(spec, rest).Ok? { CollectedReads(spec, rest); }
    if Fits(spec, rest) { FittingIsCollected(spec, rest); }
  }

  /** The first flag of that name. */
  function Flag(flags: seq<ParsedFlag>, name: string): (r: Option<ParsedFlag>)
    ensures r.Some? ==> r.value in flags && r.value.name == name
    ensures r.None? <==> !Names(flags, name)
  {
    if flags == [] then None
    else if flags[0].name == name then
      assert Names(flags, name);
      Some(flags[0])
    else
      assert Names(flags[1..], name) ==> Names(flags, name) by {
        if Names(flags[1..], name) {
          var i :| 0 <= i < |flags[1..]| && flags[1..][i].name == name;
          assert flags[i + 1].name == name;
        }
      }
      assert forall i :: 1 <= i < |flags| ==> flags[1..][i - 1] == flags[i];
      Flag(flags[1..], name)
  }

  predicate Given(flags: seq<ParsedFlag>, name: string) { Flag(flags, name).Some? }

  function RawValue(f: ParsedFlag): string { if f.value.Some? then f.value.value else "" }

  // ── Commands ─────────────────────────────────────────────────────────────

  function BuildInstall(spec: VerbSpec, flags: seq<ParsedFlag>): Result<Command, ParseError> {
    match Flag(flags, "start-mode")
    case None => Ok(Install(WithWindows))
    case Some(f) =>
      match FromSlug(Lower(RawValue(f)))
      case Some(mode) => Ok(Install(mode))
      case None => Err(InvalidValue(spec.name, "start-mode", RawValue(f)))
  }

  function BuildLogs(spec: VerbSpec, flags: seq<ParsedFlag>): Result<Command, ParseError> {
    match Flag(flags, "tail")
    case None => Ok(DiagLogs(DEFAULT_TAIL))
    case Some(f) =>
      match ParseUsize(RawValue(f))
      case None => Err(InvalidValue(spec.name, "tail", RawValue(f)))
      case Some(n) =>
        if 1 <= n <= MAX_TAIL then Ok(DiagLogs(n))
        else Err(OutOfRange(spec.name, "tail", RawValue(f), 1, MAX_TAIL))
  }

  function BuildUninstall(flags: seq<ParsedFlag>): Result<Command, ParseError> {
    var purge, purgeAudit := Given(flags, "purge"), Given(flags, "purge-audit");
    if purgeAudit && !purge then Err(RequiresFlag("uninstall", "purge-audit", "purge"))
    else Ok(Uninstall(purge, purgeAudit))
  }

  /** Matches the full spelling, so a subverb is never reached at the top level. */
  function Build(spelling: string, spec: VerbSpec, flags: seq<ParsedFlag>): Result<Command, ParseError> {
    if spelling == "install" then BuildInstall(spec, flags)
    else if spelling == "uninstall" then BuildUninstall(flags)
    else if spelling == "start" then Ok(Start)
    else if spelling == "stop" then Ok(Stop)
    else if spelling == "restart" then Ok(Restart)
    else if spelling == "reinstall" then Ok(Reinstall)
    else if spelling == "status" then Ok(Status)
    else if spelling == "diag doctor" then Ok(DiagDoctor)
    else if spelling == "diag logs" then BuildLogs(spec, flags)
    else if spelling == "diag export" then Ok(DiagExport)
    else if spelling == "reset-network" then
      Ok(ResetNetwork(Given(flags, "confirm"), Given(flags, "stop-service")))
    else if spelling == "version" then Ok(Version)
    else if spelling == "help" then Ok(Help)
    else Err(UnknownVerb(spelling))
  }

  const HELP_INVOCATION := Invocation(Help, false, Any)

  /** Where the words end and the flags begin, and which verb the words name. */
  datatype Resolved = Asked | Verb(spec: VerbSpec, spelling: string, words: nat) | Unresolved(error: ParseError)

  function Resolve(args: seq<string>): (r: Resolved)
    ensures r.Verb? ==> 1 <= r.words <= |args|
  {
    if args == [] then Asked
    else
      var word := Normalised(args[0]);
      if word == "" || word == "h" then Asked
      else
        match Find(word)
        case None => Unresolved(UnknownVerb(word))
        case Some(spec) =>
          if spec.subverbs == [] then Verb(spec, spec.name, 1)
          else if |args| < 2 then Unresolved(MissingSubcommand(spec.name))
          else
            match FindIn(spec.subverbs, Normalised(args[1]))
            case None => Unresolved(UnknownSubcommand(spec.name, Normalised(args[1])))
            case Some(sub) => Verb(sub, spec.name + " " + sub.name, 2)
  }

  function Invoked(spec: VerbSpec, spelling: string, rest: seq<string>): Result<Invocation, ParseError> {
    match Collected(spec, rest)
    case Err(e) => Err(e)
    case Ok(flags) =>
      match Build(spelling, spec, flags)
      case Err(e) => Err(e)
      case Ok(command) => Ok(Invocation(command, Given(flags, ELEVATE.name), spec.privilege))
  }

  /** argv, without the executable name, as an invocation. */
  function Parse(args: seq<string>): Result<Invocation, ParseError> {
    match Resolve(args)
    case Asked => Ok(HELP_INVOCATION)
    case Unresolved(e) => Err(e)
    case Verb(spec, spelling, words) => Invoked(spec, spelling, args[words..])
  }

  // ── Flag order does not matter ───────────────────────────────────────────

  lemma {:induction false} TwoPlaces<T>(s: seq<T>, x: T)
    requires multiset(s)[x] >= 2
    ensures exists i, j :: 0 <= i < j < |s| && s[i] == x && s[j] == x
  {
    var last := s[|s| - 1];
    var init := s[..|s| - 1];
    assert s == init + [last];
    if last == x {
      assert x in multiset(init);
      var i :| 0 <= i < |init| && init[i] == x;
      assert s[i] == x && s[|s| - 1] == x;
    } else {
      TwoPlaces(init, x);
      var i, j :| 0 <= i < j < |init| && init[i] == x && init[j] == x;
      assert s[i] == x && s[j] == x;
    }
  }

  lemma CountOfTwo<T>(s: seq<T>, i: nat, j: nat)
    requires i < j < |s| && s[i] == s[j]
    ensures multiset(s)[s[i]] >= 2
  {
    assert s == s[..j] + [s[j]] + s[j + 1..];
    assert s[i] in s[..j];
    assert s[i] in multiset(s[..j]);
  }

  lemma SameElements<T>(a: seq<T>, b: seq<T>, x: T)
    requires multiset(a) == multiset(b)
    ensures x in a <==> x in b
  {
    assert x in a <==> x in multiset(a);
    assert x in b <==> x in multiset(b);
  }

  lemma FitsIsOrderFree(spec: VerbSpec, a: seq<string>, b: seq<string>)
    requires multiset(a) == multiset(b) && Fits(spec, a)
    ensures Fits(spec, b)
  {
    forall i | 0 <= i < |b| ensures b[i] in a { SameElements(a, b, b[i]); }
    forall i, j | 0 <= i < j < |b| && OneFlag(spec, b[i]).Ok? && OneFlag(spec, b[j]).Ok?
      ensures OneFlag(spec, b[i]).value.name != OneFlag(spec, b[j]).value.name
    {
      if b[i] == b[j] {
        CountOfTwo(b, i, j);
        TwoPlaces(a, b[i]);
        assert false;
      } else {
        var k :| 0 <= k < |a| && a[k] == b[i];
        var l :| 0 <= l < |a| && a[l] == b[j];
        assert k < l || l < k;
      }
    }
  }

  /** With each name once, looking a flag up is asking whether some argument says it. */
  lemma LookupIsMembership(spec: VerbSpec, rest: seq<string>, name: string, f: ParsedFlag)
    requires Fits(spec, rest)
    ensures Collected(spec, rest).Ok?
    ensures Flag(Collected(spec, rest).value, name) == Some(f) <==>
            f.name == name && exists i :: 0 <= i < |rest| && OneFlag(spec, rest[i]) == Ok(f)
  {
    CollectedIsFits(spec, rest);
    var flags := Collected(spec, rest).value;
    var r := Flag(flags, name);
    if r == Some(f) {
      var i :| 0 <= i < |flags| && flags[i] == f;
      assert OneFlag(spec, rest[i]) == Ok(f);
    }
    if i :| 0 <= i < |rest| && OneFlag(spec, rest[i]) == Ok(f) && f.name == name {
      assert flags[i].name == name;
      assert Names(flags, name);
      var j :| 0 <= j < |flags| && flags[j] == r.value;
      assert OneFlag(spec, rest[j]) == Ok(r.value);
      assert i == j;
    }
  }

  lemma LookupIsOrderFree(spec: VerbSpec, a: seq<string>, b: seq<string>, name: string)
    requires multiset(a) == multiset(b) && Fits(spec, a) && Fits(spec, b)
    ensures Collected(spec, a).Ok? && Collected(spec, b).Ok?
    ensures Flag(Collected(spec, a).value, name) == Flag(Collected(spec, b).value, name)
  {
    CollectedIsFits(spec, a);
    CollectedIsFits(spec, b);
    var fa, fb := Flag(Collected(spec, a).value, name), Flag(Collected(spec, b).value, name);
    if fa.Some? { LookupCarries(spec, a, b, name, fa.value); }
    if fb.Some? { LookupCarries(spec, b, a, name, fb.value); }
  }

  lemma LookupCarries(spec: VerbSpec, a: seq<string>, b: seq<string>, name: string, f: ParsedFlag)
    requires multiset(a) == multiset(b) && Fits(spec, a) && Fits(spec, b)
    requires Collected(spec, a).Ok? && Flag(Collected(spec, a).value, name) == Some(f)
    ensures Collected(spec, b).Ok? && Flag(Collected(spec, b).value, name) == Some(f)
  {
    LookupIsMembership(spec, a, name, f);
    var i :| 0 <= i < |a| && OneFlag(spec, a[i]) == Ok(f);
    SameElements(a, b, a[i]);
    var j :| 0 <= j < |b| && b[j] == a[i];
    assert OneFlag(spec, b[j]) == Ok(f);
    LookupIsMembership(spec, b, name, f);
  }

  ghost predicate SameLookups(a: seq<ParsedFlag>, b: seq<ParsedFlag>) {
    && Flag(a, "start-mode") == Flag(b, "start-mode")
    && Flag(a, "tail") == Flag(b, "tail")
    && Flag(a, "purge") == Flag(b, "purge")
    && Flag(a, "purge-audit") == Flag(b, "purge-audit")
    && Flag(a, "confirm") == Flag(b, "confirm")
    && Flag(a, "stop-service") == Flag(b, "stop-service")
  }

  lemma BuildReadsLookupsOnly(spelling: string, spec: VerbSpec, a: seq<ParsedFlag>, b: seq<ParsedFlag>)
    requires SameLookups(a, b)
    ensures Build(spelling, spec, a) == Build(spelling, spec, b)
  {
    assert BuildInstall(spec, a) == BuildInstall(spec, b);
    assert BuildLogs(spec, a) == BuildLogs(spec, b);
    assert BuildUninstall(a) == BuildUninstall(b);
  }

  lemma LookupsAreOrderFree(spec: VerbSpec, a: seq<string>, b: seq<string>)
    requires multiset(a) == multiset(b) && Fits(spec, a) && Fits(spec, b)
    ensures Collected(spec, a).Ok? && Collected(spec, b).Ok?
    ensures SameLookups(Collected(spec, a).value, Collected(spec, b).value)
  {
    LookupIsOrderFree(spec, a, b, "start-mode");
    LookupIsOrderFree(spec, a, b, "tail");
    LookupIsOrderFree(spec, a, b, "purge");
    LookupIsOrderFree(spec, a, b, "purge-audit");
    LookupIsOrderFree(spec, a, b, "confirm");
    LookupIsOrderFree(spec, a, b, "stop-service");
  }

  lemma InvokedIsOrderFree(spec: VerbSpec, spelling: string, a: seq<string>, b: seq<string>)
    requires multiset(a) == multiset(b) && Invoked(spec, spelling, a).Ok?
    ensures Invoked(spec, spelling, b) == Invoked(spec, spelling, a)
  {
    CollectedIsFits(spec, a);
    FitsIsOrderFree(spec, a, b);
    CollectedIsFits(spec, b);
    var fa, fb := Collected(spec, a).value, Collected(spec, b).value;
    LookupIsOrderFree(spec, a, b, ELEVATE.name);
    LookupsAreOrderFree(spec, a, b);
    BuildReadsLookupsOnly(spelling, spec, fa, fb);
  }

  /** How many leading words of `args` name the verb; the rest are its flags. */
  function HeadLength(args: seq<string>): (n: nat)
    ensures n <= |args|
  {
    var r := Resolve(args);
    if r.Verb? then r.words else |args|
  }

  /** An argv parses in any order of its flags, to the same invocation. */
  lemma FlagOrderIsFree(args: seq<string>, other: seq<string>)
    requires Parse(args).Ok?
    requires |other| == |args|
    requires other[..HeadLength(args)] == args[..HeadLength(args)]
    requires multiset(other[HeadLength(args)..]) == multiset(args[HeadLength(args)..])
    ensures Parse(other) == Parse(args)
  {
    var n := HeadLength(args);
    if Resolve(args).Asked? {
      assert other == other[..n] == args[..n] == args;
    } else {
      assert other[0] == other[..n][0] == args[..n][0] == args[0];
      if n == 2 { assert other[1] == other[..n][1] == args[..n][1] == args[1]; }
      assert Resolve(other) == Resolve(args);
      InvokedIsOrderFree(Resolve(args).spec, Resolve(args).spelling, args[n..], other[n..]);
    }
  }
}
