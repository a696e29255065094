/** Which adapter may take which route, and what the first-run window offers among them. */
module Adapters {
  import opened Basics

  datatype Route = Primary | Secondary

  /** One live row of the interfaces snapshot, as far as the choice reads it. */
  datatype Row = Row(
    name: string, description: string, kind: string, availability: string, gateway: string,
    hasForwardingPath: Option<bool>, selectedRole: Option<string>, recommendation: string,
    classification: string, confidence: nat, vpnLikelihood: string, virtualLikelihood: string)

  datatype Program = Program(displayName: string, exePath: string, interfaceName: string)

  /** What the choice takes from elsewhere: the product's own tunnel, the driver a description
      names, how a program is called, and how programs are tied to adapters. */
  datatype Context = Context(
    ownTunnel: string,
    family: string -> string,
    called: Program -> string,
    sharesAWord: (Program, Row) -> bool,
    namesLink: (Program, Row) -> bool)

  const AVAILABLE := "available"
  const TUNNEL := "tunnel"
  const CONFIDENT_PERCENT: nat := 70

  // ── One row ──────────────────────────────────────────────────────────────

  predicate HasUsableGateway(gateway: string) {
    Trim(gateway, IsScriptSpace) !in ["", "-", "0.0.0.0", "::", "::0"]
  }

  datatype UnroutableReason = VirtualHostOnly | NoForwardingPath

  predicate ConfidentlyVirtual(row: Row) {
    || row.virtualLikelihood == "likely"
    || (row.classification == "virtual-interface-likely" && row.confidence >= CONFIDENT_PERCENT)
  }

  /** Why a row that is up cannot carry traffic out; a row that is merely down never warns. */
  function Unroutable(row: Row): Option<UnroutableReason> {
    if row.availability != AVAILABLE || HasUsableGateway(row.gateway) then None
    else if ConfidentlyVirtual(row) then Some(VirtualHostOnly)
    else if row.hasForwardingPath == Some(false) then Some(NoForwardingPath)
    else None
  }

  datatype RoleHint = NoInternet | LooksPrimary | LooksVpn

  function Hint(row: Row): Option<RoleHint> {
    if row.kind != TUNNEL && Unroutable(row).Some? then Some(NoInternet)
    else if row.recommendation == "preferred-primary" then Some(LooksPrimary)
    else if row.kind == TUNNEL || row.kind == "virtual" then None
    else if row.vpnLikelihood == "likely" then Some(LooksVpn)
    else if row.vpnLikelihood == "possible" && row.recommendation == "preferred-secondary" then Some(LooksVpn)
    else None
  }

  predicate SaysVpn(s: string) {
    exists i :: 0 <= i < |s| - 2 && LowerChar(s[i]) == 'v' && LowerChar(s[i + 1]) == 'p' && LowerChar(s[i + 2]) == 'n'
  }

  /** A kind the OS decided outranks the name; "other" decides nothing. */
  predicate LooksLikeTunnel(row: Row) {
    var byKind := if row.kind != "" && row.kind != "other" then row.kind == TUNNEL else SaysVpn(row.classification);
    byKind || Hint(row) == Some(LooksVpn)
  }

  function RouteName(role: Route): string { if role.Primary? then "primary" else "secondary" }

  predicate HeldOtherRole(row: Row, role: Route) {
    row.selectedRole.Some? && row.selectedRole.value != "" && row.selectedRole.value != RouteName(role)
  }

  predicate OfferedForRole(cx: Context, row: Row, role: Route) {
    row.name != cx.ownTunnel && !HeldOtherRole(row, role)
  }

  // ── The suggestion ───────────────────────────────────────────────────────

  predicate Answers(cx: Context, rows: seq<Row>, role: Route, skip: Option<nat>, i: nat)
    requires i < |rows|
  {
    && skip != Some(i)
    && rows[i].availability == AVAILABLE
    && OfferedForRole(cx, rows[i], role)
    && match role
       case Primary => Hint(rows[i]) == Some(LooksPrimary)
       case Secondary => LooksLikeTunnel(rows[i])
  }

  /** The one connected adapter that answers for the role; nothing when several do, or none. As
      the main link it is never one without a way out, a tunnel apart: those have none until
      their client installs one. */
  method FirstRunSuggestion(cx: Context, rows: seq<Row>, role: Route, skip: Option<nat>) returns (r: Option<nat>)
    ensures r.Some? ==> r.value < |rows| && Answers(cx, rows, role, skip, r.value)
    ensures r.Some? <==> exists i :: 0 <= i < |rows| && Answers(cx, rows, role, skip, i) &&
                           forall j :: 0 <= j < |rows| && Answers(cx, rows, role, skip, j) ==> j == i
    ensures r.Some? && role.Primary? && rows[r.value].kind != TUNNEL ==> Unroutable(rows[r.value]).None?
  {
    r := None;
    for i := 0 to |rows|
      invariant r.Some? ==> r.value < i && Answers(cx, rows, role, skip, r.value)
      invariant forall j :: 0 <= j < i && Answers(cx, rows, role, skip, j) ==> r == Some(j)
    {
      if Answers(cx, rows, role, skip, i) {
        if r.Some? {
          ghost var first := r.value;
          assert Answers(cx, rows, role, skip, first) && first != i;
          return None;
        }
        r := Some(i);
      }
    }
  }

  // ── Down VPN adapters ────────────────────────────────────────────────────

  predicate IsCopy(cx: Context, rows: seq<Row>, index: nat, skip: Option<nat>, i: nat)
    requires index < |rows| && i < |rows|
  {
    && i != index && skip != Some(i)
    && OfferedForRole(cx, rows[i], Secondary)
    && cx.family(rows[i].description) == cx.family(rows[index].description)
  }

  ghost predicate NoCopies(cx: Context, rows: seq<Row>, index: nat, skip: Option<nat>)
    requires index < |rows|
  {
    forall i :: 0 <= i < |rows| ==> !IsCopy(cx, rows, index, skip, i)
  }

  /** The only copy of its driver, or one of several, with whether another of them is up. */
  datatype Pool = Lone | Copies(up: bool)

  /** Whether other copies of the row's driver sit on the machine, and if so whether one is up. */
  ghost predicate IsPool(cx: Context, rows: seq<Row>, index: nat, skip: Option<nat>, pool: Pool)
    requires index < |rows|
  {
    && (pool.Lone? <==> cx.family(rows[index].description) == "" || NoCopies(cx, rows, index, skip))
    && (pool.Copies? && pool.up ==> exists i :: 0 <= i < |rows| && IsCopy(cx, rows, index, skip, i) && rows[i].availability == AVAILABLE)
    && (pool.Copies? && !pool.up ==> forall i :: 0 <= i < |rows| && IsCopy(cx, rows, index, skip, i) ==> rows[i].availability != AVAILABLE)
  }

  method DriverPool(cx: Context, rows: seq<Row>, index: nat, skip: Option<nat>) returns (pool: Pool)
    requires index < |rows|
    ensures IsPool(cx, rows, index, skip, pool)
  {
    pool := Lone;
    if cx.family(rows[index].description) == "" { return; }
    ghost var up, copy := 0, 0;
    for i := 0 to |rows|
      invariant pool.Lone? ==> forall j :: 0 <= j < i ==> !IsCopy(cx, rows, index, skip, j)
      invariant pool.Copies? ==> 0 <= copy < i && IsCopy(cx, rows, index, skip, copy)
      invariant pool.Copies? && pool.up ==> 0 <= up < i && IsCopy(cx, rows, index, skip, up) && rows[up].availability == AVAILABLE
      invariant pool.Copies? && !pool.up ==> forall j :: 0 <= j < i && IsCopy(cx, rows, index, skip, j) ==> rows[j].availability != AVAILABLE
    {
      if IsCopy(cx, rows, index, skip, i) {
        copy := i;
        if pool.Lone? || !pool.up { up := i; }
        pool := Copies((pool.Copies? && pool.up) || rows[i].availability == AVAILABLE);
      }
    }
  }

  lemma PoolIsDetermined(cx: Context, rows: seq<Row>, index: nat, skip: Option<nat>, a: Pool, b: Pool)
    requires index < |rows| && IsPool(cx, rows, index, skip, a) && IsPool(cx, rows, index, skip, b)
    ensures a == b
  {
  }

  /** A down adapter that may take the additional route and reads as a tunnel. */
  predicate Idle(cx: Context, rows: seq<Row>, skip: Option<nat>, i: nat)
    requires i < |rows|
  {
    && skip != Some(i)
    && rows[i].availability != AVAILABLE
    && OfferedForRole(cx, rows[i], Secondary)
    && LooksLikeTunnel(rows[i])
  }

  // ── Programs ─────────────────────────────────────────────────────────────

  /** The programs found that have a name to call them by. */
  function Named(cx: Context, programs: seq<Program>): (named: seq<Program>)
    ensures forall p :: p in named <==> p in programs && cx.called(p) != ""
  {
    if programs == [] then []
    else (if cx.called(programs[0]) != "" then [programs[0]] else []) + Named(cx, programs[1..])
  }

  predicate Owns(cx: Context, p: Program, row: Row) { cx.sharesAWord(p, row) || cx.namesLink(p, row) }

  predicate Tied(cx: Context, named: seq<Program>, row: Row) {
    exists k :: 0 <= k < |named| && Owns(cx, named[k], row)
  }

  predicate NamedLink(cx: Context, named: seq<Program>, row: Row) {
    exists k :: 0 <= k < |named| && cx.namesLink(named[k], row)
  }

  /** All programs found are called the same. */
  predicate OneLabel(cx: Context, named: seq<Program>) {
    named != [] && forall k :: 0 <= k < |named| ==> cx.called(named[k]) == cx.called(named[0])
  }

  /** The label of the first program tied to the row, else the only label there is, else none. */
  ghost predicate IsOwner(cx: Context, named: seq<Program>, row: Row, program: string) {
    if Tied(cx, named, row) then
      exists k :: && 0 <= k < |named| && Owns(cx, named[k], row) && program == cx.called(named[k])
                  && forall j :: 0 <= j < k ==> !Owns(cx, named[j], row)
    else if OneLabel(cx, named) then program == cx.called(named[0])
    else program == ""
  }

  datatype Candidate = Candidate(index: nat, program: string, tied: bool, namedLink: bool, pooled: Pool)

  /** What the step weighs about the row at `c.index`. */
  ghost predicate Weighs(cx: Context, rows: seq<Row>, named: seq<Program>, skip: Option<nat>, c: Candidate) {
    && c.index < |rows| && Idle(cx, rows, skip, c.index)
    && IsOwner(cx, named, rows[c.index], c.program)
    && c.tied == Tied(cx, named, rows[c.index])
    && c.namedLink == NamedLink(cx, named, rows[c.index])
    && (if c.namedLink then c.pooled.Lone? else IsPool(cx, rows, c.index, skip, c.pooled))
  }

  /** Every idle row up to `n`, weighed, in the order of the rows. */
  ghost predicate WeighsAll(cx: Context, rows: seq<Row>, named: seq<Program>, skip: Option<nat>, n: nat, seen: seq<Candidate>)
    requires n <= |rows|
  {
    && (forall k :: 0 <= k < |seen| ==> Weighs(cx, rows, named, skip, seen[k]) && seen[k].index < n)
    && (forall j, k :: 0 <= j < k < |seen| ==> seen[j].index < seen[k].index)
    && (forall i :: 0 <= i < n && Idle(cx, rows, skip, i) ==> exists k :: 0 <= k < |seen| && seen[k].index == i)
  }

  method OwnerOf(cx: Context, named: seq<Program>, row: Row) returns (tied: bool, program: string)
    requires forall k :: 0 <= k < |named| ==> cx.called(named[k]) != ""
    ensures tied == Tied(cx, named, row) && IsOwner(cx, named, row, program)
    ensures tied ==> program != ""
  {
    for k := 0 to |named|
      invariant forall j :: 0 <= j < k ==> !Owns(cx, named[j], row)
    {
      if Owns(cx, named[k], row) { return true, cx.called(named[k]); }
    }
    tied := false;
    program := if OneLabel(cx, named) then cx.called(named[0]) else "";
  }

  method Weigh(cx: Context, rows: seq<Row>, named: seq<Program>, skip: Option<nat>, i: nat) returns (c: Candidate)
    requires i < |rows| && Idle(cx, rows, skip, i)
    requires forall k :: 0 <= k < |named| ==> cx.called(named[k]) != ""
    ensures Weighs(cx, rows, named, skip, c) && c.index == i
    ensures c.tied ==> c.program != ""
  {
    var tied, program := OwnerOf(cx, named, rows[i]);
    var namedLink := NamedLink(cx, named, rows[i]);
    var pooled := Lone;
    if !namedLink { pooled := DriverPool(cx, rows, i, skip); }
    c := Candidate(i, program, tied, namedLink, pooled);
  }

  method WeighRows(cx: Context, rows: seq<Row>, named: seq<Program>, skip: Option<nat>) returns (seen: seq<Candidate>)
    requires forall k :: 0 <= k < |named| ==> cx.called(named[k]) != ""
    ensures WeighsAll(cx, rows, named, skip, |rows|, seen)
  {
    seen := [];
    for i := 0 to |rows|
      invariant WeighsAll(cx, rows, named, skip, i, seen)
    {
      if Idle(cx, rows, skip, i) {
        var c := Weigh(cx, rows, named, skip, i);
        WeighsOneMore(cx, rows, named, skip, i, seen, c);
        seen := seen + [c];
      }
    }
  }

  lemma WeighsOneMore(cx: Context, rows: seq<Row>, named: seq<Program>, skip: Option<nat>, i: nat, seen: seq<Candidate>, c: Candidate)
    requires i < |rows| && WeighsAll(cx, rows, named, skip, i, seen)
    requires Weighs(cx, rows, named, skip, c) && c.index == i
    ensures WeighsAll(cx, rows, named, skip, i + 1, seen + [c])
  {
    var more := seen + [c];
    forall j | 0 <= j < i + 1 && Idle(cx, rows, skip, j) ensures exists k :: 0 <= k < |more| && more[k].index == j {
      if j < i {
        var k :| 0 <= k < |seen| && seen[k].index == j;
        assert more[k].index == j;
      } else {
        assert more[|seen|].index == j;
      }
    }
  }

  // ── What is offered ──────────────────────────────────────────────────────

  datatype IdleVpn = IdleVpn(index: nat, program: string)

  datatype IdleVpns = IdleVpns(rows: seq<IdleVpn>, preselect: Option<nat>, startVpnFirst: seq<string>)

  const NOTHING := IdleVpns([], None, [])

  /** Which candidates are offered: those a program names as its link, or those tied (or, with
      none tied, untied) whose driver has no other copy. */
  datatype Rule = ByLink | ByTie(tied: bool)

  predicate Passes(rule: Rule, c: Candidate) {
    match rule
    case ByLink => c.namedLink
    case ByTie(tied) => c.tied == tied && c.pooled.Lone?
  }

  function Passing(seen: seq<Candidate>, rule: Rule): seq<IdleVpn> {
    if seen == [] then []
    else
      var last := seen[|seen| - 1];
      Passing(seen[..|seen| - 1], rule) + if Passes(rule, last) then [IdleVpn(last.index, last.program)] else []
  }

  /** A driver with a copy already up is the VPN that is on, not one to start. */
  predicate ToStart(c: Candidate) { c.pooled.Lone? || !c.pooled.up }

  /** The distinct programs to start, in order of first sight. */
  function Labels(seen: seq<Candidate>): seq<string> {
    if seen == [] then []
    else
      var init, last := Labels(seen[..|seen| - 1]), seen[|seen| - 1];
      if ToStart(last) && last.program !in init then init + [last.program] else init
  }

  function NonEmpty(labels: seq<string>): seq<string> {
    if labels == [] then [] else (if labels[0] == "" then [] else [labels[0]]) + NonEmpty(labels[1..])
  }

  function NamedFirst(labels: seq<string>): seq<string> {
    if exists k :: 0 <= k < |labels| && labels[k] != "" then NonEmpty(labels) else labels
  }

  predicate AnyNamed(seen: seq<Candidate>) { exists k :: 0 <= k < |seen| && seen[k].namedLink }
  predicate AnyTied(seen: seq<Candidate>) { exists k :: 0 <= k < |seen| && seen[k].tied }

  function RuleFor(seen: seq<Candidate>): Rule { if AnyNamed(seen) then ByLink else ByTie(AnyTied(seen)) }

  function Chosen(seen: seq<Candidate>): IdleVpns {
    var rows := Passing(seen, RuleFor(seen));
    if AnyNamed(seen) then IdleVpns(rows, if |rows| == 1 then Some(rows[0].index) else None, [])
    else if |rows| == 1 && |seen| == 1 then IdleVpns(rows, Some(rows[0].index), [])
    else IdleVpns(rows, None, NamedFirst(Labels(seen)))
  }

  method FirstRunIdleVpns(cx: Context, rows: seq<Row>, programs: seq<Program>, skip: Option<nat>)
    returns (found: IdleVpns, ghost seen: seq<Candidate>)
    ensures Named(cx, programs) == [] ==> found == NOTHING
    ensures Named(cx, programs) != [] ==>
              WeighsAll(cx, rows, Named(cx, programs), skip, |rows|, seen) && found == Chosen(seen)
  {
    var named := Named(cx, programs);
    seen := [];
    if named == [] { return NOTHING, []; }
    forall k | 0 <= k < |named| ensures cx.called(named[k]) != "" { assert named[k] in named; }
    var weighed := WeighRows(cx, rows, named, skip);
    seen := weighed;
    found := NOTHING.(rows := Passing(weighed, RuleFor(weighed)));
    if AnyNamed(weighed) {
      if |found.rows| == 1 { found := found.(preselect := Some(found.rows[0].index)); }
      return;
    }
    if |found.rows| == 1 && |weighed| == 1 {
      found := found.(preselect := Some(found.rows[0].index));
      return;
    }
    var labels := GatherLabels(weighed);
    found := found.(startVpnFirst := NamedFirst(labels));
  }

  method GatherLabels(seen: seq<Candidate>) returns (labels: seq<string>)
    ensures labels == Labels(seen)
  {
    labels := [];
    for k := 0 to |seen|
      invariant labels == Labels(seen[..k])
    {
      assert seen[..k + 1][..k] == seen[..k];
      if ToStart(seen[k]) && seen[k].program !in labels { labels := labels + [seen[k].program]; }
    }
    assert seen[..|seen|] == seen;
  }

  // ── What the offer means ─────────────────────────────────────────────────

  lemma {:induction false} PassingIsExact(seen: seq<Candidate>, rule: Rule, v: IdleVpn)
    ensures v in Passing(seen, rule) <==>
            exists k :: 0 <= k < |seen| && Passes(rule, seen[k]) && v == IdleVpn(seen[k].index, seen[k].program)
  {
    if seen != [] {
      var init := seen[..|seen| - 1];
      PassingIsExact(init, rule, v);
      assert forall k :: 0 <= k < |init| ==> init[k] == seen[k];
      if k :| 0 <= k < |seen| && Passes(rule, seen[k]) && v == IdleVpn(seen[k].index, seen[k].program) {
        if k < |init| { assert Passes(rule, init[k]); }
      }
    }
  }

  predicate InOrder(vpns: seq<IdleVpn>) { forall j, k :: 0 <= j < k < |vpns| ==> vpns[j].index < vpns[k].index }

  lemma {:induction false} PassingKeepsOrder(seen: seq<Candidate>, rule: Rule)
    requires forall j, k :: 0 <= j < k < |seen| ==> seen[j].index < seen[k].index
    ensures InOrder(Passing(seen, rule))
  {
    if seen != [] {
      var init, last := seen[..|seen| - 1], seen[|seen| - 1];
      PassingKeepsOrder(init, rule);
      var r := Passing(init, rule);
      forall j | 0 <= j < |r| ensures r[j].index < last.index {
        PassingIsExact(init, rule, r[j]);
        assert r[j] in r;
      }
    }
  }

  /** A program names the link of some idle row. */
  ghost predicate SomeLinkNamed(cx: Context, rows: seq<Row>, named: seq<Program>, skip: Option<nat>) {
    exists i :: 0 <= i < |rows| && Idle(cx, rows, skip, i) && NamedLink(cx, named, rows[i])
  }

  ghost predicate SomeRowTied(cx: Context, rows: seq<Row>, named: seq<Program>, skip: Option<nat>) {
    exists i :: 0 <= i < |rows| && Idle(cx, rows, skip, i) && Tied(cx, named, rows[i])
  }

  /** The rows the step should offer, said of the rows and programs alone. */
  ghost predicate Offerable(cx: Context, rows: seq<Row>, named: seq<Program>, skip: Option<nat>, i: nat)
    requires i < |rows|
  {
    && Idle(cx, rows, skip, i)
    && if SomeLinkNamed(cx, rows, named, skip) then NamedLink(cx, named, rows[i])
       else (Tied(cx, named, rows[i]) <==> SomeRowTied(cx, rows, named, skip)) && IsPool(cx, rows, i, skip, Lone)
  }

  lemma SeenAsRows(cx: Context, rows: seq<Row>, named: seq<Program>, skip: Option<nat>, seen: seq<Candidate>)
    requires WeighsAll(cx, rows, named, skip, |rows|, seen)
    ensures AnyNamed(seen) <==> SomeLinkNamed(cx, rows, named, skip)
    ensures AnyTied(seen) <==> SomeRowTied(cx, rows, named, skip)
  {
    if i :| 0 <= i < |rows| && Idle(cx, rows, skip, i) && NamedLink(cx, named, rows[i]) {
      var k :| 0 <= k < |seen| && seen[k].index == i;
      assert seen[k].namedLink;
    }
    if i :| 0 <= i < |rows| && Idle(cx, rows, skip, i) && Tied(cx, named, rows[i]) {
      var k :| 0 <= k < |seen| && seen[k].index == i;
      assert seen[k].tied;
    }
  }

  lemma PassesAsOfferable(cx: Context, rows: seq<Row>, named: seq<Program>, skip: Option<nat>, seen: seq<Candidate>, k: nat)
    requires WeighsAll(cx, rows, named, skip, |rows|, seen) && k < |seen|
    ensures seen[k].index < |rows|
    ensures Passes(RuleFor(seen), seen[k]) <==> Offerable(cx, rows, named, skip, seen[k].index)
  {
    SeenAsRows(cx, rows, named, skip, seen);
    assert Weighs(cx, rows, named, skip, seen[k]);
    if !AnyNamed(seen) {
      assert !seen[k].namedLink;
      if IsPool(cx, rows, seen[k].index, skip, Lone) {
        PoolIsDetermined(cx, rows, seen[k].index, skip, seen[k].pooled, Lone);
      }
    }
  }

  lemma OfferedIsOfferable(cx: Context, rows: seq<Row>, named: seq<Program>, skip: Option<nat>, seen: seq<Candidate>, v: IdleVpn)
    requires WeighsAll(cx, rows, named, skip, |rows|, seen) && v in Passing(seen, RuleFor(seen))
    ensures v.index < |rows| && Offerable(cx, rows, named, skip, v.index)
  {
    PassingIsExact(seen, RuleFor(seen), v);
    var k :| 0 <= k < |seen| && Passes(RuleFor(seen), seen[k]) && v == IdleVpn(seen[k].index, seen[k].program);
    PassesAsOfferable(cx, rows, named, skip, seen, k);
  }

  lemma OfferableIsOffered(cx: Context, rows: seq<Row>, named: seq<Program>, skip: Option<nat>, seen: seq<Candidate>, i: nat)
    returns (v: IdleVpn)
    requires WeighsAll(cx, rows, named, skip, |rows|, seen) && i < |rows| && Offerable(cx, rows, named, skip, i)
    ensures v.index == i && v in Passing(seen, RuleFor(seen))
  {
    var k :| 0 <= k < |seen| && seen[k].index == i;
    PassesAsOfferable(cx, rows, named, skip, seen, k);
    v := IdleVpn(i, seen[k].program);
    PassingIsExact(seen, RuleFor(seen), v);
  }

  /** Exactly the rows the programs point at are offered, each once, in the order of the rows. */
  lemma OfferIsExact(cx: Context, rows: seq<Row>, named: seq<Program>, skip: Option<nat>, seen: seq<Candidate>, i: nat)
    requires WeighsAll(cx, rows, named, skip, |rows|, seen) && i < |rows|
    ensures InOrder(Chosen(seen).rows)
    ensures (exists v :: v in Chosen(seen).rows && v.index == i) <==> Offerable(cx, rows, named, skip, i)
  {
    PassingKeepsOrder(seen, RuleFor(seen));
    if v :| v in Chosen(seen).rows && v.index == i {
      OfferedIsOfferable(cx, rows, named, skip, seen, v);
    }
    if Offerable(cx, rows, named, skip, i) {
      var v := OfferableIsOffered(cx, rows, named, skip, seen, i);
    }
  }

  ghost predicate AtMostOneIdle(cx: Context, rows: seq<Row>, skip: Option<nat>) {
    forall i, j :: 0 <= i < |rows| && 0 <= j < |rows| && Idle(cx, rows, skip, i) && Idle(cx, rows, skip, j) ==> i == j
  }

  /** One row is picked for the user exactly when it is the only idle row, with no other copy of
      its driver, or the only one a program names; then nothing is asked to be started. */
  lemma PreselectionIsExact(cx: Context, rows: seq<Row>, named: seq<Program>, skip: Option<nat>, seen: seq<Candidate>)
    requires WeighsAll(cx, rows, named, skip, |rows|, seen)
    ensures var found := Chosen(seen);
            && (found.preselect.Some? ==> && |found.rows| == 1 && found.rows[0].index == found.preselect.value
                                          && found.startVpnFirst == [])
            && (found.preselect.Some? <==>
                  |found.rows| == 1 && (SomeLinkNamed(cx, rows, named, skip) || AtMostOneIdle(cx, rows, skip)))
  {
    SeenAsRows(cx, rows, named, skip, seen);
    var found := Chosen(seen);
    if !AnyNamed(seen) && |found.rows| == 1 {
      OneIdleIsOneSeen(cx, rows, named, skip, seen);
      PassingIsNoLonger(seen, RuleFor(seen));
    }
  }

  lemma {:induction false} PassingIsNoLonger(seen: seq<Candidate>, rule: Rule)
    ensures |Passing(seen, rule)| <= |seen|
  {
    if seen != [] { PassingIsNoLonger(seen[..|seen| - 1], rule); }
  }

  lemma OneIdleIsOneSeen(cx: Context, rows: seq<Row>, named: seq<Program>, skip: Option<nat>, seen: seq<Candidate>)
    requires WeighsAll(cx, rows, named, skip, |rows|, seen)
    ensures |seen| <= 1 <==> AtMostOneIdle(cx, rows, skip)
  {
    if |seen| > 1 {
      assert Weighs(cx, rows, named, skip, seen[0]) && Weighs(cx, rows, named, skip, seen[1]);
      assert seen[0].index < seen[1].index;
    } else {
      forall i, j | 0 <= i < |rows| && 0 <= j < |rows| && Idle(cx, rows, skip, i) && Idle(cx, rows, skip, j) ensures i == j {
        var k :| 0 <= k < |seen| && seen[k].index == i;
        var l :| 0 <= l < |seen| && seen[l].index == j;
      }
    }
  }

  // ── What is to be started ────────────────────────────────────────────────

  lemma {:induction false} LabelsAreExact(seen: seq<Candidate>, program: string)
    ensures Distinct(Labels(seen))
    ensures program in Labels(seen) <==> exists k :: 0 <= k < |seen| && ToStart(seen[k]) && seen[k].program == program
  {
    if seen != [] {
      var init := seen[..|seen| - 1];
      LabelsAreExact(init, program);
      assert forall k :: 0 <= k < |init| ==> init[k] == seen[k];
      if k :| 0 <= k < |seen| && ToStart(seen[k]) && seen[k].program == program {
        if k < |init| { assert ToStart(init[k]) && init[k].program == program; }
      }
    }
  }

  lemma {:induction false} NonEmptyIsExact(labels: seq<string>, x: string)
    ensures x in NonEmpty(labels) <==> x in labels && x != ""
    ensures Distinct(labels) ==> Distinct(NonEmpty(labels))
  {
    if labels != [] {
      NonEmptyIsExact(labels[1..], x);
      NonEmptyIsExact(labels[1..], labels[0]);
      assert labels == [labels[0]] + labels[1..];
      if Distinct(labels) {
        assert labels[0] !in labels[1..];
      }
    }
  }

  lemma NamedFirstIsExact(labels: seq<string>, x: string)
    requires Distinct(labels)
    ensures Distinct(NamedFirst(labels))
    ensures "" in NamedFirst(labels) ==> NamedFirst(labels) == [""]
    ensures x != "" ==> (x in NamedFirst(labels) <==> x in labels)
    ensures NamedFirst(labels) == [] <==> labels == []
  {
    NonEmptyIsExact(labels, x);
    NonEmptyIsExact(labels, "");
    assert |labels| >= 2 ==> labels[0] != labels[1];
    if k :| 0 <= k < |labels| && labels[k] != "" {
      NonEmptyIsExact(labels, labels[k]);
      assert labels[k] in NonEmpty(labels);
    }
  }

  /** An idle row whose driver has no copy up: its VPN is one to start. */
  ghost predicate Startable(cx: Context, rows: seq<Row>, skip: Option<nat>, i: nat)
    requires i < |rows|
  {
    Idle(cx, rows, skip, i) && !IsPool(cx, rows, i, skip, Copies(true))
  }

  lemma OwnerIsDetermined(cx: Context, named: seq<Program>, row: Row, a: string, b: string)
    requires IsOwner(cx, named, row, a) && IsOwner(cx, named, row, b)
    ensures a == b
  {
    if Tied(cx, named, row) {
      var j :| && 0 <= j < |named| && Owns(cx, named[j], row) && a == cx.called(named[j])
               && forall i :: 0 <= i < j ==> !Owns(cx, named[i], row);
      var k :| && 0 <= k < |named| && Owns(cx, named[k], row) && b == cx.called(named[k])
               && forall i :: 0 <= i < k ==> !Owns(cx, named[i], row);
      assert j == k;
    }
  }

  lemma ToStartIsStartable(cx: Context, rows: seq<Row>, named: seq<Program>, skip: Option<nat>, seen: seq<Candidate>, k: nat)
    requires WeighsAll(cx, rows, named, skip, |rows|, seen) && !AnyNamed(seen) && k < |seen|
    ensures seen[k].index < |rows| && (ToStart(seen[k]) <==> Startable(cx, rows, skip, seen[k].index))
  {
    assert Weighs(cx, rows, named, skip, seen[k]) && !seen[k].namedLink;
    if IsPool(cx, rows, seen[k].index, skip, Copies(true)) {
      PoolIsDetermined(cx, rows, seen[k].index, skip, seen[k].pooled, Copies(true));
    }
  }

  /** A program belongs to a row whose VPN is to be started. */
  ghost predicate IsToStart(cx: Context, rows: seq<Row>, named: seq<Program>, skip: Option<nat>, program: string) {
    exists i :: 0 <= i < |rows| && Startable(cx, rows, skip, i) && IsOwner(cx, named, rows[i], program)
  }

  lemma LabelsAreToStart(cx: Context, rows: seq<Row>, named: seq<Program>, skip: Option<nat>, seen: seq<Candidate>, program: string)
    requires WeighsAll(cx, rows, named, skip, |rows|, seen) && !AnyNamed(seen)
    ensures program in Labels(seen) <==> IsToStart(cx, rows, named, skip, program)
  {
    LabelsAreExact(seen, program);
    if k :| 0 <= k < |seen| && ToStart(seen[k]) && seen[k].program == program {
      ToStartIsStartable(cx, rows, named, skip, seen, k);
      assert Weighs(cx, rows, named, skip, seen[k]);
    }
    if i :| 0 <= i < |rows| && Startable(cx, rows, skip, i) && IsOwner(cx, named, rows[i], program) {
      var k :| 0 <= k < |seen| && seen[k].index == i;
      ToStartIsStartable(cx, rows, named, skip, seen, k);
      assert Weighs(cx, rows, named, skip, seen[k]);
      OwnerIsDetermined(cx, named, rows[i], program, seen[k].program);
    }
  }

  lemma NothingToStart(cx: Context, rows: seq<Row>, named: seq<Program>, skip: Option<nat>, seen: seq<Candidate>)
    requires WeighsAll(cx, rows, named, skip, |rows|, seen) && !AnyNamed(seen)
    ensures Labels(seen) == [] <==> forall i :: 0 <= i < |rows| ==> !Startable(cx, rows, skip, i)
  {
    LabelsAreEmptyWhenNoneStarts(seen);
    if k :| 0 <= k < |seen| && ToStart(seen[k]) {
      ToStartIsStartable(cx, rows, named, skip, seen, k);
    }
    if i :| 0 <= i < |rows| && Startable(cx, rows, skip, i) {
      var k :| 0 <= k < |seen| && seen[k].index == i;
      ToStartIsStartable(cx, rows, named, skip, seen, k);
    }
  }

  /** The start-first list names each program once, and stands for an unnamed VPN only alone. It
      is empty where a row is picked or a program names its link; else it names exactly the
      programs of the idle rows with no copy up. */
  lemma StartFirstIsExact(cx: Context, rows: seq<Row>, named: seq<Program>, skip: Option<nat>, seen: seq<Candidate>, program: string)
    requires WeighsAll(cx, rows, named, skip, |rows|, seen)
    ensures var list := Chosen(seen).startVpnFirst;
            && Distinct(list) && ("" in list ==> list == [""])
            && if SomeLinkNamed(cx, rows, named, skip) || Chosen(seen).preselect.Some? then list == []
               else
                 && (program != "" ==> (program in list <==> IsToStart(cx, rows, named, skip, program)))
                 && (list == [] <==> forall i :: 0 <= i < |rows| ==> !Startable(cx, rows, skip, i))
  {
    SeenAsRows(cx, rows, named, skip, seen);
    if !AnyNamed(seen) && Chosen(seen).preselect.None? {
      assert Distinct(Labels(seen)) by { LabelsAreExact(seen, program); }
      LabelsAreToStart(cx, rows, named, skip, seen, program);
      NothingToStart(cx, rows, named, skip, seen);
      NamedFirstIsExact(Labels(seen), program);
    }
  }

  lemma {:induction false} LabelsAreEmptyWhenNoneStarts(seen: seq<Candidate>)
    ensures Labels(seen) == [] <==> forall k :: 0 <= k < |seen| ==> !ToStart(seen[k])
  {
    if seen != [] {
      var init := seen[..|seen| - 1];
      LabelsAreEmptyWhenNoneStarts(init);
      assert forall k :: 0 <= k < |init| ==> init[k] == seen[k];
    }
  }
}
