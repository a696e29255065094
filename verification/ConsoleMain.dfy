/** The console's decision flow: the plain run, the offer to run it again with administrator
    rights, and the marker that tells the user's clients a stop was meant. */
module ConsoleMain {
  import opened Basics
  import opened ConsoleText
  import opened Verbs
  import opened CommandLine
  import opened Elevate

  const SUCCESS: nat := 0
  const FAILED: nat := 1
  const USAGE: nat := 2
  const NEEDS_PRIVILEGE: nat := 3
  const NOT_INSTALLED: nat := 4
  const NOT_RESPONDING: nat := 5
  const UNSUPPORTED: nat := 6
  const NOT_CONFIRMED: nat := 7
  const ELEVATION_DECLINED: nat := 8

  // ── Relay mode ───────────────────────────────────────────────────────────

  datatype RelayRequest = RelayRequest(path: string, userSid: Option<string>, args: seq<string>)

  /** What the unelevated console passes to its elevated copy. */
  function RelayArgv(path: string, sid: Option<string>, argv: seq<string>): seq<string> {
    [RELAY_FLAG, path, if sid.Some? then sid.value else NO_USER_SID] + argv
  }

  /** Relay mode is recognised by its marker in the first place only. */
  function RelayRequestOf(args: seq<string>): Option<RelayRequest> {
    if |args| < 3 || args[0] != RELAY_FLAG then None
    else Some(RelayRequest(args[1], if args[2] != NO_USER_SID then Some(args[2]) else None, args[3..]))
  }

  /** Wrapping is undone, except for an account that is called as the unknown one is. */
  lemma RelayIsUndone(path: string, sid: Option<string>, argv: seq<string>)
    ensures RelayRequestOf(RelayArgv(path, sid, argv)).Some?
    ensures RelayRequestOf(RelayArgv(path, sid, argv)) == Some(RelayRequest(path, sid, argv)) <==>
            sid != Some(NO_USER_SID)
  {
    assert RelayArgv(path, sid, argv)[3..] == argv;
  }

  /** What is recognised as a relay request is the wrapping of exactly one. */
  lemma RelayIsUnambiguous(args: seq<string>)
    ensures RelayRequestOf(args).Some? ==>
              var r := RelayRequestOf(args).value;
              RelayArgv(r.path, r.userSid, r.args) == args
  {
  }

  lemma CanonicalIsNoRelay(c: Command)
    ensures RelayRequestOf(CanonicalArgv(c)).None?
  {
    assert CanonicalArgv(c)[0][0] != '-';
    assert RELAY_FLAG[0] == '-';
  }

  // ── Which commands stop the service ──────────────────────────────────────

  predicate StopsService(c: Command) {
    c.Stop? || c.Restart? || c.Uninstall? || c.Reinstall? || c == ResetNetwork(true, true)
  }

  /** Whether a relay waits out the settle time before it runs `args`. */
  predicate TakesTheServiceDown(args: seq<string>) {
    Parse(args).Ok? && StopsService(Parse(args).value.command)
  }

  /** The elevated side settles for exactly the commands the unelevated side marks. */
  lemma RelaySettlesAsMarked(args: seq<string>)
    requires Parse(args).Ok?
    ensures TakesTheServiceDown(CanonicalArgv(Parse(args).value.command)) <==>
            StopsService(Parse(args).value.command)
  {
    ReparsedAsTyped(args);
  }

  /** What the console takes for a stop that was at least tried. */
  predicate StopWasAttempted(code: nat) { code != NEEDS_PRIVILEGE && code != ELEVATION_DECLINED }

  // ── The plan ─────────────────────────────────────────────────────────────

  datatype Plan = NotOffered | Unsupported | Offer | Requested

  function PlanFor(privilege: Privilege, requested: bool, supported: bool, interactive: bool): (p: Plan)
    ensures p.Offer? || p.Requested? ==> privilege == Administrator && supported
    ensures p.Unsupported? <==> privilege == Administrator && requested && !supported
    ensures p.Requested? ==> requested
    ensures p.Offer? ==> interactive && !requested
    ensures privilege == Administrator && supported && (requested || interactive) ==> p.Offer? || p.Requested?
  {
    if privilege != Administrator then NotOffered
    else if requested && !supported then Unsupported
    else if requested then Requested
    else if supported && interactive then Offer
    else NotOffered
  }

  // ── What a verb does ─────────────────────────────────────────────────────

  datatype ControlError =
    | NotInstalled | AccessDenied | TimedOut | ManagerUnavailable | NoImplementation
    | Other                   // invalid state, relocation, or the mechanism itself

  function CodeOf(error: Option<ControlError>): nat {
    match error
    case None => SUCCESS
    case Some(NotInstalled) => NOT_INSTALLED
    case Some(AccessDenied) => NEEDS_PRIVILEGE
    case Some(TimedOut) => NOT_RESPONDING
    case Some(ManagerUnavailable) => UNSUPPORTED
    case Some(NoImplementation) => UNSUPPORTED
    case Some(Other) => FAILED
  }

  /** What the service manager answers, and whether the service went down on the way there;
      the two are not tied: a stop may find nothing to stop, and a failed one may have stopped. */
  datatype Answer = Answer(error: Option<ControlError>, tookDown: bool)

  datatype Manager = Manager(
    registered: bool,         // an old registration was found
    stop: Answer, restart: Answer, uninstall: Answer,
    cleared: bool,            // the removal left nothing behind to wait for
    install: Option<ControlError>, start: Option<ControlError>)

  /** The service binary run with its reset verb. */
  datatype ResetRun = Ran(code: Option<int>, tookDown: bool) | RefusedForRights | NotStarted

  datatype Host = Host(
    manager: Option<Manager>, // none in a build without one
    serviceBinary: bool,      // the service binary sits beside the console
    resetVerb: bool, resetBinary: bool, reset: ResetRun,
    otherCode: nat)           // what any other verb returned

  datatype Outcome = Outcome(code: nat, tookDown: bool)

  /** The first step of a re-registration that failed, if one did. */
  function ReinstallError(m: Manager): Option<ControlError> {
    if m.registered && m.uninstall.error.Some? then m.uninstall.error
    else if m.registered && !m.cleared then Some(Other)
    else if m.install.Some? then m.install else m.start
  }

  function RunReset(confirmed: bool, h: Host): Outcome {
    if !h.resetVerb then Outcome(UNSUPPORTED, false)
    else if !confirmed then Outcome(NOT_CONFIRMED, false)
    else if !h.resetBinary then Outcome(FAILED, false)
    else
      match h.reset
      case Ran(code, tookDown) =>
        Outcome(if code == Some(0) then SUCCESS else if code == Some(NEEDS_PRIVILEGE) then NEEDS_PRIVILEGE else FAILED,
                tookDown)
      case RefusedForRights => Outcome(NEEDS_PRIVILEGE, false)
      case NotStarted => Outcome(FAILED, false)
  }

  /** One run of a verb in this very process. */
  function RunVerb(c: Command, h: Host): Outcome {
    match c
    case ResetNetwork(confirmed, _) => RunReset(confirmed, h)
    case Stop =>
      if h.manager.None? then Outcome(UNSUPPORTED, false)
      else Outcome(CodeOf(h.manager.value.stop.error), h.manager.value.stop.tookDown)
    case Restart =>
      if h.manager.None? then Outcome(UNSUPPORTED, false)
      else Outcome(CodeOf(h.manager.value.restart.error), h.manager.value.restart.tookDown)
    case Uninstall(_, _) =>
      if h.manager.None? then Outcome(UNSUPPORTED, false)
      else Outcome(CodeOf(h.manager.value.uninstall.error), h.manager.value.uninstall.tookDown)
    case Reinstall =>
      if h.manager.None? then Outcome(UNSUPPORTED, false)
      else if !h.serviceBinary then Outcome(FAILED, false)
      else
        var m := h.manager.value;
        Outcome(CodeOf(ReinstallError(m)), m.registered && m.uninstall.tookDown)
    case _ => Outcome(h.otherCode, false)
  }

  // ── The processes of one command ─────────────────────────────────────────

  /** What the world answers one process of the console: as typed, as the elevated copy, as
      the relay, or as the relay's child. */
  datatype World = World(
    host: Host,
    supported: bool,          // this platform has a way to relaunch with rights
    interactive: bool,        // a human at both ends
    yes: bool,                // the answer to the question, when it is put
    exeFound: bool,           // this executable could be located
    inheritsTerminal: bool,
    path: string, sid: Option<string>,
    relaunch: Relaunch,
    relay: Relay)

  /** What the relaunch did: nothing ran, or the copy ran to its end. The mechanism may not see
      the copy's code, and the relay's report may not be read back. A failed one may also be a
      copy killed on the way, which may have taken the service down. */
  datatype Relaunch =
    | Declined
    | Failed(tookDown: bool)
    | Completed(copy: World, codeSeen: bool, reportRead: bool)

  /** A relay claims its report first; its child may not start, or end without a code. */
  datatype Relay = Relay(claimed: bool, child: Option<World>, codeSeen: bool)

  /** The user asked for the rights, up front or in answer to the question. */
  predicate Consents(inv: Invocation, w: World) {
    inv.elevate || (w.interactive && w.yes)
  }

  /** The plan leads to a relaunch, if this executable can be located. */
  predicate Acts(inv: Invocation, w: World) {
    inv.privilege == Administrator && w.supported && Consents(inv, w)
  }

  predicate Relaunches(args: seq<string>, w: World) {
    && RelayRequestOf(args).None?
    && Parse(args).Ok?
    && RunVerb(Parse(args).value.command, w.host).code == NEEDS_PRIVILEGE
    && Acts(Parse(args).value, w) && w.exeFound
  }

  /** The question is put only where it could help and somebody can answer it. */
  predicate Asks(args: seq<string>, w: World) {
    && RelayRequestOf(args).None?
    && Parse(args).Ok?
    && Parse(args).value.privilege == Administrator && !Parse(args).value.elevate
    && RunVerb(Parse(args).value.command, w.host).code == NEEDS_PRIVILEGE
    && w.supported && w.interactive
  }

  function ElevatedArgv(c: Command, w: World): seq<string> {
    if w.inheritsTerminal then CanonicalArgv(c) else RelayArgv(w.path, w.sid, CanonicalArgv(c))
  }

  /** The copy's code reached this process. */
  predicate CodeKnown(w: World)
    requires w.relaunch.Completed?
  {
    w.relaunch.codeSeen || (!w.inheritsTerminal && w.relaunch.reportRead && w.relaunch.copy.relay.claimed)
  }

  /** The relay came to start its child. */
  predicate RelayRuns(w: World) { w.relay.claimed && w.exeFound && w.relay.child.Some? }

  /** How a command ends after its plain run; `acts` when that leads to a relaunch. */
  function AfterPlain(plain: Outcome, acts: bool, w: World, elevated: Outcome): Outcome {
    if plain.code != NEEDS_PRIVILEGE || !acts then plain
    else if !w.exeFound then Outcome(FAILED, plain.tookDown)
    else
      match w.relaunch
      case Declined => Outcome(ELEVATION_DECLINED, plain.tookDown)
      case Failed(tookDown) => Outcome(FAILED, plain.tookDown || tookDown)
      case Completed(_, _, _) => Outcome(elevated.code, plain.tookDown || elevated.tookDown)
  }

  /** The code a process ends with, and whether it or a process it started took the service
      down. */
  function Process(args: seq<string>, w: World): Outcome
    decreases w, 1
  {
    if RelayRequestOf(args).Some? then
      if !RelayRuns(w) then Outcome(FAILED, false)
      else
        var inner := Process(RelayRequestOf(args).value.args, w.relay.child.value);
        Outcome(if w.relay.codeSeen then inner.code else FAILED, inner.tookDown)
    else if Parse(args).Err? then Outcome(USAGE, false)
    else Typed(Parse(args).value, w)
  }

  /** A command as typed: the plain run, and the one with rights if that was refused. */
  function Typed(inv: Invocation, w: World): Outcome
    decreases w, 0
  {
    AfterPlain(RunVerb(inv.command, w.host), Acts(inv, w), w,
               if !w.relaunch.Completed? then Outcome(FAILED, false)
               else
                 var inner := Process(ElevatedArgv(inv.command, w), w.relaunch.copy);
                 Outcome(if CodeKnown(w) then inner.code else FAILED, inner.tookDown))
  }

  class Console {
    /** The argvs started with administrator rights. */
    var relaunched: seq<seq<string>>
    /** The argvs run as a relay, and whether the service was given time to settle first. */
    var relayed: seq<(seq<string>, bool)>
    var plainRuns: seq<Command>
    var questions: nat
    /** The note that a stop is expected, kept for the user this process runs as. */
    var marker: bool

    constructor (marker: bool)
      ensures relaunched == [] && relayed == [] && plainRuns == [] && questions == 0 && this.marker == marker
    {
      relaunched, relayed, plainRuns, questions := [], [], [], 0;
      this.marker := marker;
    }

    /** The elevated copy is a console of its own; what it notes is the administrator's. */
    method Relaunch(argv: seq<string>, w: World) returns (code: nat, tookDown: bool)
      modifies this`relaunched
      ensures relaunched == old(relaunched) + [argv]
      ensures w.relaunch.Declined? ==> code == ELEVATION_DECLINED && !tookDown
      ensures w.relaunch.Failed? ==> code == FAILED && tookDown == w.relaunch.tookDown
      ensures w.relaunch.Completed? ==>
                var inner := Process(argv, w.relaunch.copy);
                code == (if CodeKnown(w) then inner.code else FAILED) && tookDown == inner.tookDown
      decreases w, 0
    {
      relaunched := relaunched + [argv];
      match w.relaunch
      case Declined => return ELEVATION_DECLINED, false;
      case Failed(down) => return FAILED, down;
      case Completed(copy, codeSeen, reportRead) =>
        var elevated := new Console(false);
        var inner := elevated.Run(argv, copy);
        var reported := !w.inheritsTerminal && reportRead && copy.relay.claimed;
        return if reported || codeSeen then inner.code else FAILED, inner.tookDown;
    }

    /** Carry out the plan; `None` when nothing was started and nothing failed. */
    method Retry(plan: Plan, c: Command, w: World) returns (code: Option<nat>, tookDown: bool)
      requires plan.Offer? || plan.Requested? ==> w.supported
      modifies this`relaunched, this`questions
      ensures questions == old(questions) + if plan.Offer? then 1 else 0
      ensures relaunched == old(relaunched) +
                if (plan.Requested? || (plan.Offer? && w.yes)) && w.exeFound then [ElevatedArgv(c, w)] else []
      ensures !(plan.Requested? || (plan.Offer? && w.yes)) ==> code == None && !tookDown
      ensures (plan.Requested? || (plan.Offer? && w.yes)) && !w.exeFound ==> code == Some(FAILED) && !tookDown
      ensures (plan.Requested? || (plan.Offer? && w.yes)) && w.exeFound ==>
                match w.relaunch
                case Declined => code == Some(ELEVATION_DECLINED) && !tookDown
                case Failed(down) => code == Some(FAILED) && tookDown == down
                case Completed(copy, _, _) =>
                  var inner := Process(ElevatedArgv(c, w), copy);
                  code == Some(if CodeKnown(w) then inner.code else FAILED) && tookDown == inner.tookDown
      decreases w, 1
    {
      if plan.NotOffered? || plan.Unsupported? { return None, false; }
      if plan.Offer? {
        questions := questions + 1;
        if !w.yes { return None, false; }
      }
      if !w.exeFound { return Some(FAILED), false; }
      var argv := CanonicalArgv(c);
      if !w.inheritsTerminal {
        var relayArgv := [RELAY_FLAG];
        relayArgv := relayArgv + [w.path];
        relayArgv := relayArgv + [if w.sid.Some? then w.sid.value else NO_USER_SID];
        argv := relayArgv + argv;
      }
      assert argv == ElevatedArgv(c, w);
      var ended;
      ended, tookDown := Relaunch(argv, w);
      code := Some(ended);
    }

    /** The elevated copy that runs the real command as a child and reports for it. */
    method RunRelay(args: seq<string>, w: World) returns (o: Outcome)
      modifies this`relayed
      ensures relayed == old(relayed) + if RelayRuns(w) then [(args, TakesTheServiceDown(args))] else []
      ensures if !RelayRuns(w) then o == Outcome(FAILED, false)
              else var inner := Process(args, w.relay.child.value);
                   o == Outcome(if w.relay.codeSeen then inner.code else FAILED, inner.tookDown)
      decreases w, 0
    {
      if !w.relay.claimed || !w.exeFound || w.relay.child.None? { return Outcome(FAILED, false); }
      var settle := TakesTheServiceDown(args);
      relayed := relayed + [(args, settle)];
      var child := new Console(false);
      o := child.Run(args, w.relay.child.value);
      if !w.relay.codeSeen { o := o.(code := FAILED); }
    }

    /** The typed command, between the note that a stop is expected and its withdrawal. */
    method RunTyped(inv: Invocation, w: World) returns (o: Outcome)
      modifies this`relaunched, this`questions, this`plainRuns
      ensures o == Typed(inv, w)
      ensures plainRuns == old(plainRuns) + [inv.command]
      ensures relaunched == old(relaunched) +
                if RunVerb(inv.command, w.host).code == NEEDS_PRIVILEGE && Acts(inv, w) && w.exeFound
                then [ElevatedArgv(inv.command, w)] else []
      ensures questions == old(questions) +
                if && RunVerb(inv.command, w.host).code == NEEDS_PRIVILEGE && inv.privilege == Administrator
                   && !inv.elevate && w.supported && w.interactive then 1 else 0
      decreases w, 2
    {
      var plan := PlanFor(inv.privilege, inv.elevate, w.supported, w.interactive);
      plainRuns := plainRuns + [inv.command];
      o := RunVerb(inv.command, w.host);
      if o.code == NEEDS_PRIVILEGE {
        var elevated, tookDown := Retry(plan, inv.command, w);
        if elevated.Some? { o := Outcome(elevated.value, o.tookDown || tookDown); }
      }
    }

    method Run(args: seq<string>, w: World) returns (o: Outcome)
      modifies this
      ensures o == Process(args, w)
      ensures relaunched == old(relaunched) +
                if Relaunches(args, w) then [ElevatedArgv(Parse(args).value.command, w)] else []
      ensures questions == old(questions) + if Asks(args, w) then 1 else 0
      ensures RelayRequestOf(args).Some? ==>
                && relayed == old(relayed) + (if RelayRuns(w) then [(args[3..], TakesTheServiceDown(args[3..]))] else [])
                && plainRuns == old(plainRuns)
      ensures RelayRequestOf(args).None? ==>
                && relayed == old(relayed)
                && plainRuns == old(plainRuns) + if Parse(args).Ok? then [Parse(args).value.command] else []
      ensures marker == if Marks(args) then StopWasAttempted(o.code) else old(marker)
      decreases w, 3
    {
      var relay := RelayRequestOf(args);
      if relay.Some? {
        o := RunRelay(relay.value.args, w);
        return;
      }
      var parsed := Parse(args);
      if parsed.Err? { return Outcome(USAGE, false); }
      var inv := parsed.value;
      var stops := StopsService(inv.command);
      if stops { marker := true; }
      o := RunTyped(inv, w);
      if stops && !StopWasAttempted(o.code) { marker := false; }
    }
  }

  // ── What crosses into the elevated process ───────────────────────────────

  /** The arguments the elevated side finally parses. */
  function ElevatedArgs(argv: seq<string>): seq<string> {
    if RelayRequestOf(argv).Some? then RelayRequestOf(argv).value.args else argv
  }

  /** The elevated side runs the typed command, whatever was typed and however it gets there;
      it does not carry the request for rights onward, so it can ask for them again only where
      someone sits at both ends and answers yes. */
  lemma ElevatedSideRunsWhatWasTyped(args: seq<string>, w: World, inner: World)
    requires Relaunches(args, w)
    ensures var argv := ElevatedArgv(Parse(args).value.command, w);
            && Parse(ElevatedArgs(argv)) == Ok(Parse(args).value.(elevate := false))
            && RelayRequestOf(argv).Some? == !w.inheritsTerminal
            && RelayRequestOf(ElevatedArgs(argv)).None?
            && (Relaunches(ElevatedArgs(argv), inner) ==> inner.interactive && inner.yes)
  {
    var c := Parse(args).value.command;
    ReparsedAsTyped(args);
    CanonicalIsNoRelay(c);
    RelayIsUndone(w.path, w.sid, CanonicalArgv(c));
    assert RelayArgv(w.path, w.sid, CanonicalArgv(c))[3..] == CanonicalArgv(c);
  }

  // ── The marker ───────────────────────────────────────────────────────────

  /** The commands that leave a marker before they run. */
  predicate Marks(args: seq<string>) {
    RelayRequestOf(args).None? && Parse(args).Ok? && StopsService(Parse(args).value.command)
  }

  predicate KeepsMarker(args: seq<string>, w: World) { Marks(args) && StopWasAttempted(Process(args, w).code) }

  /** A manager that let the service be, for another reason than missing rights. */
  predicate LeftAlone(a: Answer) { !a.tookDown && a.error != Some(AccessDenied) }

  /** The verb, run in this process, ends without touching the service and without being
      refused for rights: no manager, nothing installed, no binary to run, and so on. */
  predicate ComesToNothing(c: Command, h: Host) {
    match c
    case Stop => h.manager.Some? ==> LeftAlone(h.manager.value.stop)
    case Restart => h.manager.Some? ==> LeftAlone(h.manager.value.restart)
    case Uninstall(_, _) => h.manager.Some? ==> LeftAlone(h.manager.value.uninstall)
    case Reinstall =>
      h.manager.Some? && h.serviceBinary ==>
        && !(h.manager.value.registered && h.manager.value.uninstall.tookDown)
        && ReinstallError(h.manager.value) != Some(AccessDenied)
    case ResetNetwork(_, _) =>
      h.resetVerb && h.resetBinary ==>
        h.reset.NotStarted? || (h.reset.Ran? && !h.reset.tookDown && h.reset.code != Some(NEEDS_PRIVILEGE))
    case _ => false
  }

  /** The process the command comes to run in with rights; none where the relay could not claim
      its report, find its executable or start its child. */
  function Innermost(w: World): (inner: Option<World>)
    requires w.relaunch.Completed?
    ensures inner.Some? ==> inner.value < w
  {
    if w.inheritsTerminal then Some(w.relaunch.copy)
    else if RelayRuns(w.relaunch.copy) then w.relaunch.copy.relay.child else None
  }

  /** That process's own code reached this one. */
  predicate InnerKnown(w: World)
    requires w.relaunch.Completed?
  {
    CodeKnown(w) && (w.inheritsTerminal || w.relaunch.copy.relay.codeSeen)
  }

  /** The outcome of the elevated side, as it arrives. */
  function Arrived(w: World, inner: Outcome): Outcome
    requires w.relaunch.Completed?
  {
    Outcome(if InnerKnown(w) then inner.code else FAILED, inner.tookDown)
  }

  function Meant(c: Command, elevate: bool): Invocation { Invocation(c, elevate, PrivilegeOf(c)) }

  /** The same outcome read off the command alone, without the argvs between the processes. */
  function ByCommand(c: Command, elevate: bool, w: World): Outcome
    decreases w
  {
    AfterPlain(RunVerb(c, w.host), Acts(Meant(c, elevate), w), w,
               if !w.relaunch.Completed? || Innermost(w).None? then Outcome(FAILED, false)
               else Arrived(w, ByCommand(c, false, Innermost(w).value)))
  }

  /** The elevated side's outcome, as it arrives at this process. */
  function Elevated(c: Command, w: World): Outcome {
    if !w.relaunch.Completed? || Innermost(w).None? then Outcome(FAILED, false)
    else Arrived(w, ByCommand(c, false, Innermost(w).value))
  }

  lemma ByCommandSteps(c: Command, elevate: bool, w: World)
    ensures ByCommand(c, elevate, w) ==
            AfterPlain(RunVerb(c, w.host), Acts(Meant(c, elevate), w), w, Elevated(c, w))
  {
  }

  /** Some process of the command took the service down: this one, a copy killed on the way, or
      one the relaunch led to. */
  predicate WentDown(c: Command, elevate: bool, w: World)
    decreases w
  {
    || RunVerb(c, w.host).tookDown
    || (&& RunVerb(c, w.host).code == NEEDS_PRIVILEGE && Acts(Meant(c, elevate), w) && w.exeFound
        && (|| (w.relaunch.Failed? && w.relaunch.tookDown)
            || (w.relaunch.Completed? && Innermost(w).Some? && WentDown(c, false, Innermost(w).value))))
  }

  /** Where the marker of a stop that never happened is left behind. */
  predicate Outlives(c: Command, elevate: bool, w: World)
    decreases w
  {
    || ComesToNothing(c, w.host)
    || (&& RunVerb(c, w.host) == Outcome(NEEDS_PRIVILEGE, false)
        && Acts(Meant(c, elevate), w)
        && (|| !w.exeFound
            || (w.relaunch.Failed? && !w.relaunch.tookDown)
            || (w.relaunch.Completed? && Innermost(w).None?)
            || (w.relaunch.Completed? && InnerKnown(w) && Outlives(c, false, Innermost(w).value))
            || (w.relaunch.Completed? && !InnerKnown(w) && !WentDown(c, false, Innermost(w).value))))
  }

  /** Where the last word was a refusal: for want of rights nobody asked for, or by the one who
      was asked, here or in a process whose code arrived. */
  predicate EndsRefused(c: Command, elevate: bool, w: World)
    decreases w
  {
    && RunVerb(c, w.host).code == NEEDS_PRIVILEGE
    && (Acts(Meant(c, elevate), w) ==>
          && w.exeFound
          && (|| w.relaunch.Declined?
              || (&& w.relaunch.Completed? && Innermost(w).Some? && InnerKnown(w)
                  && EndsRefused(c, false, Innermost(w).value))))
  }

  lemma VerbIsExact(c: Command, h: Host)
    requires StopsService(c)
    ensures ComesToNothing(c, h) <==> !RunVerb(c, h).tookDown && StopWasAttempted(RunVerb(c, h).code)
    ensures RunVerb(c, h).code != ELEVATION_DECLINED
  {
  }

  lemma RefusedAfter(plain: Outcome, acts: bool, w: World, elevated: Outcome)
    requires plain.code != ELEVATION_DECLINED
    ensures !StopWasAttempted(AfterPlain(plain, acts, w, elevated).code) <==>
            && plain.code == NEEDS_PRIVILEGE
            && (acts ==> && w.exeFound
                         && (w.relaunch.Declined? || (w.relaunch.Completed? && !StopWasAttempted(elevated.code))))
  {
  }

  lemma EmptyHandedAfter(plain: Outcome, acts: bool, w: World, elevated: Outcome)
    ensures var o := AfterPlain(plain, acts, w, elevated);
            StopWasAttempted(o.code) && !o.tookDown <==>
            || (!plain.tookDown && StopWasAttempted(plain.code))
            || (&& plain == Outcome(NEEDS_PRIVILEGE, false) && acts
                && (|| !w.exeFound || (w.relaunch.Failed? && !w.relaunch.tookDown)
                    || (w.relaunch.Completed? && StopWasAttempted(elevated.code) && !elevated.tookDown)))
  {
  }

  lemma DownAfter(plain: Outcome, acts: bool, w: World, elevated: Outcome)
    ensures AfterPlain(plain, acts, w, elevated).tookDown <==>
            || plain.tookDown
            || (&& plain.code == NEEDS_PRIVILEGE && acts && w.exeFound
                && (|| (w.relaunch.Failed? && w.relaunch.tookDown)
                    || (w.relaunch.Completed? && elevated.tookDown)))
  {
  }

  lemma {:induction false} DownIsExact(c: Command, elevate: bool, w: World)
    ensures WentDown(c, elevate, w) <==> ByCommand(c, elevate, w).tookDown
    decreases w
  {
    ByCommandSteps(c, elevate, w);
    DownAfter(RunVerb(c, w.host), Acts(Meant(c, elevate), w), w, Elevated(c, w));
    if w.relaunch.Completed? && Innermost(w).Some? { DownIsExact(c, false, Innermost(w).value); }
  }

  lemma {:induction false} RefusalIsExact(c: Command, elevate: bool, w: World)
    requires StopsService(c)
    ensures EndsRefused(c, elevate, w) <==> !StopWasAttempted(ByCommand(c, elevate, w).code)
    decreases w
  {
    var plain, acts := RunVerb(c, w.host), Acts(Meant(c, elevate), w);
    assert plain.code != ELEVATION_DECLINED by { VerbIsExact(c, w.host); }
    ByCommandSteps(c, elevate, w);
    RefusedAfter(plain, acts, w, Elevated(c, w));
    if w.relaunch.Completed? && Innermost(w).Some? { RefusalIsExact(c, false, Innermost(w).value); }
  }

  lemma {:induction false} OutlivesIsExact(c: Command, elevate: bool, w: World)
    requires StopsService(c)
    ensures var o := ByCommand(c, elevate, w);
            Outlives(c, elevate, w) <==> StopWasAttempted(o.code) && !o.tookDown
    decreases w
  {
    var plain, acts := RunVerb(c, w.host), Acts(Meant(c, elevate), w);
    assert ComesToNothing(c, w.host) <==> !plain.tookDown && StopWasAttempted(plain.code) by {
      VerbIsExact(c, w.host);
    }
    ByCommandSteps(c, elevate, w);
    EmptyHandedAfter(plain, acts, w, Elevated(c, w));
    if w.relaunch.Completed? && Innermost(w).Some? {
      OutlivesIsExact(c, false, Innermost(w).value);
      DownIsExact(c, false, Innermost(w).value);
    }
  }

  lemma CanonicalIsTyped(c: Command, w: World)
    requires WellFormed(c)
    ensures Process(CanonicalArgv(c), w) == Typed(Meant(c, false), w)
  {
    CanonicalIsMeant(c);
  }

  /** The relay unwraps what was wrapped for it. */
  lemma RelayUnwraps(c: Command, w: World, copy: World)
    requires !w.inheritsTerminal
    ensures Process(ElevatedArgv(c, w), copy) ==
            if !RelayRuns(copy) then Outcome(FAILED, false)
            else var inner := Process(CanonicalArgv(c), copy.relay.child.value);
                 Outcome(if copy.relay.codeSeen then inner.code else FAILED, inner.tookDown)
  {
    RelayIsUndone(w.path, w.sid, CanonicalArgv(c));
    assert RelayArgv(w.path, w.sid, CanonicalArgv(c))[3..] == CanonicalArgv(c);
  }

  lemma CopyIsElevated(c: Command, w: World)
    requires WellFormed(c) && w.relaunch.Completed?
    requires Innermost(w).Some? ==> Typed(Meant(c, false), Innermost(w).value) == ByCommand(c, false, Innermost(w).value)
    ensures var inner := Process(ElevatedArgv(c, w), w.relaunch.copy);
            Outcome(if CodeKnown(w) then inner.code else FAILED, inner.tookDown) == Elevated(c, w)
  {
    if !w.inheritsTerminal { RelayUnwraps(c, w, w.relaunch.copy); }
    if Innermost(w).Some? { CanonicalIsTyped(c, Innermost(w).value); }
  }

  lemma {:induction false} TypedIsByCommand(c: Command, elevate: bool, w: World)
    requires WellFormed(c)
    ensures Typed(Meant(c, elevate), w) == ByCommand(c, elevate, w)
    decreases w
  {
    ByCommandSteps(c, elevate, w);
    if w.relaunch.Completed? {
      if Innermost(w).Some? { TypedIsByCommand(c, false, Innermost(w).value); }
      CopyIsElevated(c, w);
    }
  }

  lemma ProcessIsByCommand(args: seq<string>, w: World)
    requires RelayRequestOf(args).None? && Parse(args).Ok?
    ensures Process(args, w) == ByCommand(Parse(args).value.command, Parse(args).value.elevate, w)
  {
    ParsedIsWellFormed(args);
    TypedIsByCommand(Parse(args).value.command, Parse(args).value.elevate, w);
  }

  /** The marker was withdrawn although a process of the command took the service down. */
  predicate Loses(args: seq<string>, w: World) {
    Marks(args) && !KeepsMarker(args, w) && Process(args, w).tookDown
  }

  /** For every argv and every world: the marker is withdrawn exactly when the last word was a
      refusal, it is left by a stop that never happened exactly in the cases `Outlives` names,
      and it is withdrawn after one that did exactly when some process took the service down and
      the last word was a refusal all the same. */
  lemma MarkerOutlivesExactly(args: seq<string>, w: World)
    ensures Marks(args) ==>
              var (c, elevate) := (Parse(args).value.command, Parse(args).value.elevate);
              && (KeepsMarker(args, w) && !Process(args, w).tookDown <==> Outlives(c, elevate, w))
              && (!KeepsMarker(args, w) <==> EndsRefused(c, elevate, w))
              && (Loses(args, w) <==> EndsRefused(c, elevate, w) && WentDown(c, elevate, w))
  {
    if Marks(args) {
      var c, elevate := Parse(args).value.command, Parse(args).value.elevate;
      ProcessIsByCommand(args, w);
      RefusalIsExact(c, elevate, w);
      OutlivesIsExact(c, elevate, w);
      DownIsExact(c, elevate, w);
    }
  }

  /** What the command the flags build makes of the whole invocation, with `--elevate`. */
  function WithRights(spec: VerbSpec, built: Result<Command, ParseError>): Result<Invocation, ParseError> {
    match built
    case Err(e) => Err(e)
    case Ok(c) => Ok(Invocation(c, true, spec.privilege))
  }

  lemma ParsesFlagsWithRights(args: seq<string>, spec: VerbSpec, words: nat, flags: seq<ParsedFlag>)
    requires Resolve(args) == Verb(spec, spec.name, words) && words <= |args|
    requires Collected(spec, args[words..]) == Ok(flags) && Flag(flags, ELEVATE.name).Some?
    ensures Parse(args) == WithRights(spec, Build(spec.name, spec, flags))
  {
  }

  lemma ParsesElevate(args: seq<string>, k: nat)
    requires k < |VERBS| && VERBS[k].subverbs == [] && Declares(VERBS[k], ELEVATE)
    requires |args| == 2 && args[0] == VERBS[k].name && args[1] == "--" + ELEVATE.name
    ensures Parse(args) == WithRights(VERBS[k], Build(VERBS[k].name, VERBS[k], [ParsedFlag(ELEVATE.name, None)]))
  {
    var f := ParsedFlag(ELEVATE.name, None);
    ResolvesFlat(k, args);
    assert Collected(VERBS[k], args[1..]) == Ok([f]) by {
      SwitchReads(VERBS[k], ELEVATE);
      CollectsOne(VERBS[k], args[1], f);
      assert args[1..] == [args[1]];
    }
    FlagOfTwo(f, f, ELEVATE.name);
    ParsesFlagsWithRights(args, VERBS[k], 1, [f]);
  }

  lemma StopElevateSpelling()
    ensures VERBS[3] == STOP && STOP.subverbs == [] && Declares(STOP, ELEVATE)
    ensures STOP.name == "stop" && "--elevate" == "--" + ELEVATE.name && "stop" != RELAY_FLAG
    ensures Build(STOP.name, STOP, [ParsedFlag(ELEVATE.name, None)]) == Ok(Stop)
  {
  }

  lemma StopElevateParses()
    ensures RelayRequestOf(["stop", "--elevate"]).None?
    ensures Parse(["stop", "--elevate"]) == Ok(Invocation(Stop, true, Administrator))
    ensures Marks(["stop", "--elevate"])
  {
    StopElevateSpelling();
    ParsesElevate(["stop", "--elevate"], 3);
  }

  /** A stop refused for rights, on a platform that can relaunch. */
  predicate StopRefused(w: World) {
    w.supported && w.host.manager.Some? && w.host.manager.value.stop == Answer(Some(AccessDenied), false)
  }

  /** Three ways `stop --elevate` leaves its marker although no stop happened: nothing is
      installed, the executable cannot be located, and the relay refuses its report path. */
  lemma MarkerCanOutliveAStopThatNeverRan(w: World)
    requires || (w.host.manager.Some? && w.host.manager.value.stop == Answer(Some(NotInstalled), false))
             || (StopRefused(w) && !w.exeFound)
             || (&& StopRefused(w) && w.exeFound && !w.inheritsTerminal && w.relaunch.Completed?
                 && !w.relaunch.copy.relay.claimed)
    ensures KeepsMarker(["stop", "--elevate"], w) && !Process(["stop", "--elevate"], w).tookDown
  {
    StopElevateParses();
    MarkerOutlivesExactly(["stop", "--elevate"], w);
  }

  /** Nobody is there to ask, or to be asked again. */
  predicate Alone(w: World) { !w.interactive }

  /** The old registration is removed, and the new one is refused for rights. */
  predicate ReinstallRefusedHalfway(w: World) {
    Alone(w) && w.host.serviceBinary && w.host.manager.Some? &&
    var m := w.host.manager.value;
    m.registered && m.uninstall == Answer(None, true) && m.cleared && m.install == Some(AccessDenied)
  }

  /** A verb that took the service down and was refused then, with nobody to ask. */
  lemma RefusedHalfwayLoses(c: Command, args: seq<string>, w: World)
    requires WellFormed(c) && StopsService(c) && args == CanonicalArgv(c)
    requires Alone(w) && RunVerb(c, w.host) == Outcome(NEEDS_PRIVILEGE, true)
    ensures Loses(args, w)
  {
    CanonicalIsMeant(c);
    MarkerOutlivesExactly(args, w);
  }

  lemma ReinstallCanLoseItsMarker(w: World)
    requires ReinstallRefusedHalfway(w)
    ensures Loses(["reinstall"], w)
  {
    ReinstallSpelling();
    RefusedHalfwayLoses(Reinstall, CanonicalArgv(Reinstall), w);
  }

  lemma ReinstallSpelling()
    ensures CanonicalArgv(Reinstall) == ["reinstall"]
  {
  }

  /** The reset stops the service, and then answers that it needs rights. */
  predicate ResetRefusedHalfway(w: World) {
    Alone(w) && w.host.resetVerb && w.host.resetBinary && w.host.reset == Ran(Some(NEEDS_PRIVILEGE), true)
  }

  lemma ResetCanLoseItsMarker(w: World)
    requires ResetRefusedHalfway(w)
    ensures Loses(["reset-network", "--confirm", "--stop-service"], w)
  {
    var c := ResetNetwork(true, true);
    ResetStopSpelling();
    RefusedHalfwayLoses(c, CanonicalArgv(c), w);
  }

  lemma ResetStopSpelling()
    ensures CanonicalArgv(ResetNetwork(true, true)) == ["reset-network", "--confirm", "--stop-service"]
  {
  }

  /** The elevated copy takes the service down and is refused all the same. */
  predicate CopyRefusedHalfway(w: World) {
    && StopRefused(w) && w.exeFound && w.inheritsTerminal && w.relaunch.Completed? && w.relaunch.codeSeen
    && Alone(w.relaunch.copy) && w.relaunch.copy.host.manager.Some?
    && w.relaunch.copy.host.manager.value.stop == Answer(Some(AccessDenied), true)
  }

  lemma ACopyCanLoseTheMarker(w: World)
    requires CopyRefusedHalfway(w)
    ensures Loses(["stop", "--elevate"], w)
  {
    StopElevateParses();
    CopyRefusedHalfwayEnds(w);
    MarkerOutlivesExactly(["stop", "--elevate"], w);
  }

  lemma CopyRefusedHalfwayEnds(w: World)
    requires CopyRefusedHalfway(w)
    ensures EndsRefused(Stop, true, w) && WentDown(Stop, true, w)
  {
    assert EndsRefused(Stop, false, w.relaunch.copy) && WentDown(Stop, false, w.relaunch.copy);
  }

  /** Three ways the marker is withdrawn although the service went down: a re-registration
      refused after its removal, a reset refused after its stop, and an elevated copy refused
      after its own. */
  lemma MarkerCanBeWithdrawnAfterAStop(w: World)
    ensures ReinstallRefusedHalfway(w) ==> Loses(["reinstall"], w)
    ensures ResetRefusedHalfway(w) ==> Loses(["reset-network", "--confirm", "--stop-service"], w)
    ensures CopyRefusedHalfway(w) ==> Loses(["stop", "--elevate"], w)
  {
    if ReinstallRefusedHalfway(w) { ReinstallCanLoseItsMarker(w); }
    if ResetRefusedHalfway(w) { ResetCanLoseItsMarker(w); }
    if CopyRefusedHalfway(w) { ACopyCanLoseTheMarker(w); }
  }

  lemma CanonicalIsMeant(c: Command)
    requires WellFormed(c)
    ensures RelayRequestOf(CanonicalArgv(c)).None? && Parse(CanonicalArgv(c)) == Ok(Meant(c, false))
  {
    CanonicalIsNoRelay(c);
    CanonicalRoundTrip(c);
  }
}
