/** What the service reports as standing: rules not in force per role, destinations and traffic
    another user holds, a refused rule set, selective routing. The interface keeps the last
    report of each and speaks on changes only. */
module Standing {
  import opened Basics
  import opened NoticeFeed

  const OK := "ok"
  const NO_POLICY := "no-policy"
  const SECONDARY_DOWN := "secondary-down"
  const PRIMARY := "primary"

  datatype Report = Report(status: string, role: string, candidates: seq<string>, quiet: bool)

  datatype Down = Down(status: string, candidates: seq<string>, quiet: bool)

  datatype Held = Held(count: nat, sample: seq<string>)

  /** What a notice says, before its wording. */
  datatype Said =
    | NotInForce(role: string, status: string, candidates: seq<string>)
    | Restored(role: string)
    | RoutesHeld(held: Held) | RoutesReleased
    | TrafficCarried(link: string) | TrafficReleased
    | RevisionRefused
    | SplitExplained(name: string, count: nat)

  datatype State = State(
    down: map<string, Down>,
    routesHeld: Option<Held>,
    trafficCarried: Option<string>,
    revisionRaised: bool,
    splitTold: bool,
    muted: set<string>,
    said: seq<Said>)          // every notice so far, the dropped ones included

  const START := State(map[], None, None, false, false, {}, [])

  // ── Reports on rules in force ────────────────────────────────────────────

  predicate IsOk(status: string) { status == "" || status == OK }

  /** The end of an unfinished setup is no recovery. */
  predicate RestoreIsNews(previous: string) { previous != NO_POLICY }

  /** A switched-off tunnel is the one fault here the user may silence. */
  predicate Routine(r: Report) { r.status == SECONDARY_DOWN && r.role != PRIMARY }

  function KindOf(s: Said): About {
    match s
    case NotInForce(role, status, _) =>
      if status == SECONDARY_DOWN && role != PRIMARY then Kind("secondary-down") else Nothing
    case Restored(_) => Kind("enforcement-restored")
    case RoutesHeld(_) => Kind("routes-held")
    case RoutesReleased => Kind("routes-held")
    case TrafficCarried(_) => Kind("traffic-carried")
    case TrafficReleased => Kind("traffic-carried")
    case _ => Nothing
  }

  predicate AnnouncesRestored(s: State, r: Report) {
    && r.role in s.down && !s.down[r.role].quiet && RestoreIsNews(s.down[r.role].status)
    && "enforcement-restored" !in s.muted
  }

  predicate AnnouncesDown(s: State, r: Report) {
    !r.quiet && !(Routine(r) && "secondary-down" in s.muted)
  }

  /** A later report replaces the role's state, an `ok` one ends it. */
  function EnforcementChanged(s: State, r: Report): State {
    if IsOk(r.status) then
      s.(down := s.down - {r.role},
         said := s.said + if AnnouncesRestored(s, r) then [Restored(r.role)] else [])
    else
      s.(down := s.down[r.role := Down(r.status, r.candidates, r.quiet)],
         said := s.said + if AnnouncesDown(s, r) then [NotInForce(r.role, r.status, r.candidates)] else [])
  }

  /** What a role's state amounts to: `ok`, or a status and whether it is quiet. */
  function Projected(down: map<string, Down>, role: string): (string, bool) {
    if role in down then (down[role].status, down[role].quiet) else (OK, false)
  }

  function Meaning(r: Report): (string, bool) {
    if IsOk(r.status) then (OK, false) else (r.status, r.quiet)
  }

  // ── The other readings ───────────────────────────────────────────────────

  function RoutesHeldChanged(s: State, held: Option<Held>): State {
    if s.routesHeld == held then s
    else
      var t := s.(routesHeld := held);
      if "routes-held" in s.muted then t
      else t.(said := s.said + [if held.Some? then RoutesHeld(held.value) else RoutesReleased])
  }

  function TrafficCarriedChanged(s: State, link: Option<string>): State {
    if s.trafficCarried == link then s
    else
      var t := s.(trafficCarried := link);
      if "traffic-carried" in s.muted then t
      else t.(said := s.said + [if link.Some? then TrafficCarried(link.value) else TrafficReleased])
  }

  function RevisionReading(s: State, rejected: bool): State {
    s.(revisionRaised := rejected,
       said := s.said + if rejected && !s.revisionRaised then [RevisionRefused] else [])
  }

  function SplitReading(s: State, split: Option<(string, nat)>): State {
    if split.None? || s.splitTold then s
    else s.(splitTold := true, said := s.said + [SplitExplained(split.value.0, split.value.1)])
  }

  // ── Runs ─────────────────────────────────────────────────────────────────

  /** What reaches the interface, one reading at a time; a snapshot is its reports followed by
      its other readings. */
  datatype Reading =
    | Pushed(report: Report)
    | Read(report: Report)
    | HeldIs(held: Option<Held>)
    | CarriedIs(link: Option<string>)
    | RevisionIs(rejected: bool)
    | SplitIs(split: Option<(string, nat)>)
    | MutesAre(muted: set<string>)

  datatype Snapshot = Snapshot(reports: seq<Report>, held: Option<Held>, carried: Option<string>,
                               rejected: bool, split: Option<(string, nat)>)

  function AsRead(reports: seq<Report>): (r: seq<Reading>)
    ensures |r| == |reports| && forall i :: 0 <= i < |r| ==> r[i] == Read(reports[i])
  {
    seq(|reports|, i requires 0 <= i < |reports| => Read(reports[i]))
  }

  function Readings(n: Snapshot): seq<Reading> {
    AsRead(n.reports) + OtherReadings(n)
  }

  predicate Skipped(s: State, r: Report) { Projected(s.down, r.role) == Meaning(r) }

  function Step(s: State, reading: Reading): State {
    match reading
    case Pushed(r) => EnforcementChanged(s, r)
    case Read(r) => if Skipped(s, r) then s else EnforcementChanged(s, r)
    case HeldIs(held) => RoutesHeldChanged(s, held)
    case CarriedIs(link) => TrafficCarriedChanged(s, link)
    case RevisionIs(rejected) => RevisionReading(s, rejected)
    case SplitIs(split) => SplitReading(s, split)
    case MutesAre(muted) => s.(muted := muted)
  }

  function StepAll(s: State, readings: seq<Reading>): State {
    if readings == [] then s
    else Step(StepAll(s, readings[..|readings| - 1]), readings[|readings| - 1])
  }

  lemma ReadsOneMore(s: State, reports: seq<Report>, i: nat)
    requires i < |reports|
    ensures StepAll(s, AsRead(reports[..i + 1])) == Step(StepAll(s, AsRead(reports[..i])), Read(reports[i]))
  {
    assert AsRead(reports[..i + 1])[..i] == AsRead(reports[..i]);
  }

  function Run(readings: seq<Reading>): State { StepAll(START, readings) }

  // ── The history alone ────────────────────────────────────────────────────

  /** What the last report about the role said; `ok` when there was none. */
  function LastMeaning(past: seq<Reading>, role: string): (string, bool) {
    if past == [] then (OK, false)
    else
      var last := past[|past| - 1];
      if (last.Pushed? || last.Read?) && last.report.role == role then Meaning(last.report)
      else LastMeaning(past[..|past| - 1], role)
  }

  function LastHeld(past: seq<Reading>): Option<Held> {
    if past == [] then None
    else if past[|past| - 1].HeldIs? then past[|past| - 1].held
    else LastHeld(past[..|past| - 1])
  }

  function LastCarried(past: seq<Reading>): Option<string> {
    if past == [] then None
    else if past[|past| - 1].CarriedIs? then past[|past| - 1].link
    else LastCarried(past[..|past| - 1])
  }

  function LastRevision(past: seq<Reading>): bool {
    if past == [] then false
    else if past[|past| - 1].RevisionIs? then past[|past| - 1].rejected
    else LastRevision(past[..|past| - 1])
  }

  function LastMutes(past: seq<Reading>): set<string> {
    if past == [] then {}
    else if past[|past| - 1].MutesAre? then past[|past| - 1].muted
    else LastMutes(past[..|past| - 1])
  }

  /** Selective routing was reported before. */
  predicate SplitSeen(past: seq<Reading>) {
    exists i :: 0 <= i < |past| && past[i].SplitIs? && past[i].split.Some?
  }

  /** What a reading is worth saying, judged from the readings before it. */
  function News(past: seq<Reading>, reading: Reading): seq<Said> {
    var muted := LastMutes(past);
    match reading
    case Pushed(r) => ReportNews(past, r)
    case Read(r) => if LastMeaning(past, r.role) == Meaning(r) then [] else ReportNews(past, r)
    case HeldIs(held) =>
      if held == LastHeld(past) || "routes-held" in muted then []
      else [if held.Some? then RoutesHeld(held.value) else RoutesReleased]
    case CarriedIs(link) =>
      if link == LastCarried(past) || "traffic-carried" in muted then []
      else [if link.Some? then TrafficCarried(link.value) else TrafficReleased]
    case RevisionIs(rejected) => if rejected && !LastRevision(past) then [RevisionRefused] else []
    case SplitIs(split) =>
      if split.Some? && !SplitSeen(past) then [SplitExplained(split.value.0, split.value.1)] else []
    case MutesAre(_) => []
  }

  function ReportNews(past: seq<Reading>, r: Report): seq<Said> {
    var (status, quiet) := LastMeaning(past, r.role);
    if IsOk(r.status) then
      // The end of a fault that was not quiet, of a kind whose end is news.
      if status != OK && !quiet && status != NO_POLICY && "enforcement-restored" !in LastMutes(past)
      then [Restored(r.role)] else []
    else if r.quiet || (Routine(r) && "secondary-down" in LastMutes(past)) then []
    else [NotInForce(r.role, r.status, r.candidates)]
  }

  function Spoken(readings: seq<Reading>): seq<Said> {
    if readings == [] then []
    else
      var past := readings[..|readings| - 1];
      Spoken(past) + News(past, readings[|readings| - 1])
  }

  // ── The state is the fold of the history ─────────────────────────────────

  /** The kept state says of each role what its last report said, and of everything else the
      last reading. */
  ghost predicate Folds(s: State, past: seq<Reading>) {
    && (forall role :: Projected(s.down, role) == LastMeaning(past, role))
    && (forall role :: role in s.down ==> !IsOk(s.down[role].status))
    && s.routesHeld == LastHeld(past)
    && s.trafficCarried == LastCarried(past)
    && s.revisionRaised == LastRevision(past)
    && s.splitTold == SplitSeen(past)
    && s.muted == LastMutes(past)
  }

  lemma ReportFoldsRole(s: State, past: seq<Reading>, reading: Reading, role: string)
    requires Folds(s, past) && (reading.Pushed? || reading.Read?)
    ensures Projected(Step(s, reading).down, role) == LastMeaning(past + [reading], role)
  {
    assert (past + [reading])[..|past|] == past;
    assert Projected(s.down, role) == LastMeaning(past, role);
  }

  lemma ReportFolds(s: State, past: seq<Reading>, reading: Reading)
    requires Folds(s, past) && (reading.Pushed? || reading.Read?)
    ensures Folds(Step(s, reading), past + [reading])
  {
    var now, t := past + [reading], Step(s, reading);
    assert now[..|now| - 1] == past;
    assert SplitSeen(now) == SplitSeen(past) by { SplitSeenAppend(past, reading); }
    forall role ensures Projected(t.down, role) == LastMeaning(now, role) {
      ReportFoldsRole(s, past, reading, role);
    }
  }

  lemma OtherFolds(s: State, past: seq<Reading>, reading: Reading)
    requires Folds(s, past) && !reading.Pushed? && !reading.Read?
    ensures Folds(Step(s, reading), past + [reading])
  {
    var now, t := past + [reading], Step(s, reading);
    assert now[..|now| - 1] == past;
    SplitSeenAppend(past, reading);
    forall role ensures Projected(t.down, role) == LastMeaning(now, role) {
      assert Projected(s.down, role) == LastMeaning(past, role);
    }
  }

  lemma SplitSeenAppend(past: seq<Reading>, reading: Reading)
    ensures SplitSeen(past + [reading]) <==> SplitSeen(past) || (reading.SplitIs? && reading.split.Some?)
  {
    var now := past + [reading];
    if i :| 0 <= i < |past| && past[i].SplitIs? && past[i].split.Some? {
      assert now[i] == past[i];
    }
    if reading.SplitIs? && reading.split.Some? {
      assert now[|past|] == reading;
    }
  }

  lemma StepSaysTheNews(s: State, past: seq<Reading>, reading: Reading)
    requires Folds(s, past)
    ensures Step(s, reading).said == s.said + News(past, reading)
  {
    if reading.Pushed? || reading.Read? {
      assert Projected(s.down, reading.report.role) == LastMeaning(past, reading.report.role);
    }
  }

  lemma {:induction false} RunFolds(readings: seq<Reading>)
    ensures Folds(Run(readings), readings)
    ensures Run(readings).said == Spoken(readings)
  {
    if readings != [] {
      var past, last := readings[..|readings| - 1], readings[|readings| - 1];
      RunFolds(past);
      assert past + [last] == readings;
      StepSaysTheNews(Run(past), past, last);
      if last.Pushed? || last.Read? { ReportFolds(Run(past), past, last); }
      else { OtherFolds(Run(past), past, last); }
    }
  }

  /** After any mix of pushes and snapshots a role is down exactly when its last report says so. */
  lemma DownIsTheLastReport(readings: seq<Reading>, role: string)
    ensures Projected(Run(readings).down, role) == LastMeaning(readings, role)
    ensures role in Run(readings).down <==> LastMeaning(readings, role) != (OK, false)
  {
    RunFolds(readings);
    assert Projected(Run(readings).down, role) == LastMeaning(readings, role);
  }

  /** Everything said is an edge of the history: nothing repeats what stood, nothing is missed. */
  lemma EverythingSaidIsAnEdge(readings: seq<Reading>)
    ensures Run(readings).said == Spoken(readings)
  {
    RunFolds(readings);
  }

  // ── What the edges mean ──────────────────────────────────────────────────

  function SplitCount(said: seq<Said>): nat {
    if said == [] then 0
    else SplitCount(said[..|said| - 1]) + if said[|said| - 1].SplitExplained? then 1 else 0
  }

  lemma SplitCountAppend(said: seq<Said>, more: seq<Said>)
    requires |more| <= 1
    ensures SplitCount(said + more) == SplitCount(said) + if more != [] && more[0].SplitExplained? then 1 else 0
  {
    if more == [] {
      assert said + more == said;
    } else {
      assert (said + more)[..|said|] == said;
    }
  }

  lemma SplitNews(past: seq<Reading>, reading: Reading)
    ensures |News(past, reading)| <= 1
    ensures News(past, reading) != [] && News(past, reading)[0].SplitExplained? <==>
            reading.SplitIs? && reading.split.Some? && !SplitSeen(past)
  {
  }

  /** Selective routing is explained once, if it is ever seen. */
  lemma {:induction false} SplitIsExplainedOnce(readings: seq<Reading>)
    ensures SplitCount(Spoken(readings)) == if SplitSeen(readings) then 1 else 0
  {
    if readings != [] {
      var past, last := readings[..|readings| - 1], readings[|readings| - 1];
      SplitIsExplainedOnce(past);
      assert past + [last] == readings;
      SplitSeenAppend(past, last);
      SplitNews(past, last);
      SplitCountAppend(Spoken(past), News(past, last));
    }
  }

  predicate Reports(reading: Reading, role: string) {
    (reading.Pushed? || reading.Read?) && reading.report.role == role
  }

  lemma {:induction false} LastReportOf(past: seq<Reading>, role: string) returns (j: nat)
    requires LastMeaning(past, role) != (OK, false)
    ensures j < |past| && Reports(past[j], role) && Meaning(past[j].report) == LastMeaning(past, role)
    ensures forall k :: j < k < |past| ==> !Reports(past[k], role)
  {
    if Reports(past[|past| - 1], role) {
      j := |past| - 1;
    } else {
      var init := past[..|past| - 1];
      j := LastReportOf(init, role);
      forall k | j < k < |past| ensures !Reports(past[k], role) {
        if k < |init| { assert init[k] == past[k]; }
      }
    }
  }

  /** A restored notice directly follows, among the reports about its role, a fault that was not quiet. */
  lemma RestoredFollowsALoudFault(readings: seq<Reading>, i: nat, role: string) returns (j: nat)
    requires i < |readings| && Restored(role) in News(readings[..i], readings[i])
    ensures Reports(readings[i], role) && IsOk(readings[i].report.status)
    ensures j < i && Reports(readings[j], role)
    ensures !IsOk(readings[j].report.status) && !readings[j].report.quiet && readings[j].report.status != NO_POLICY
    ensures forall k :: j < k < i ==> !Reports(readings[k], role)
  {
    var past := readings[..i];
    j := LastReportOf(past, role);
    forall k | j < k < i ensures !Reports(readings[k], role) { assert past[k] == readings[k]; }
  }

  // ── Reading a snapshot again ─────────────────────────────────────────────

  /** Reports about one role mean the same. */
  ghost predicate Agree(reports: seq<Report>) {
    forall i, j :: 0 <= i < |reports| && 0 <= j < |reports| && reports[i].role == reports[j].role ==>
      Meaning(reports[i]) == Meaning(reports[j])
  }

  lemma {:induction false} LastReportStands(s: State, reports: seq<Report>, k: nat)
    requires forall role :: role in s.down ==> !IsOk(s.down[role].status)
    requires k < |reports| && forall j :: k < j < |reports| ==> reports[j].role != reports[k].role
    ensures Skipped(StepAll(s, AsRead(reports)), reports[k])
  {
    var n := |reports| - 1;
    var init := reports[..n];
    assert AsRead(reports)[..n] == AsRead(init);
    if k < n { LastReportStands(s, init, k); }
  }

  lemma LastOfRole(reports: seq<Report>, i: nat) returns (k: nat)
    requires i < |reports|
    ensures i <= k < |reports| && reports[k].role == reports[i].role
    ensures forall j :: k < j < |reports| ==> reports[j].role != reports[k].role
  {
    k := |reports| - 1;
    while reports[k].role != reports[i].role
      invariant i <= k < |reports|
      invariant forall j :: k < j < |reports| ==> reports[j].role != reports[i].role
      decreases k
    {
      k := k - 1;
    }
  }

  /** Read again, a snapshot's reports are all skipped exactly when it does not contradict
      itself about a role. */
  lemma RereadIsSkippedExactlyWhenConsistent(s: State, reports: seq<Report>)
    requires forall role :: role in s.down ==> !IsOk(s.down[role].status)
    ensures (forall i :: 0 <= i < |reports| ==> Skipped(StepAll(s, AsRead(reports)), reports[i])) <==> Agree(reports)
  {
    var t := StepAll(s, AsRead(reports));
    if Agree(reports) {
      forall i | 0 <= i < |reports| ensures Skipped(t, reports[i]) {
        var k := LastOfRole(reports, i);
        LastReportStands(s, reports, k);
      }
    }
  }

  /** Two reports about one role that do not agree: down, and up again. */
  function Contradiction(role: string): seq<Report> {
    [Report("stopped", role, [], false), Report(OK, role, [], false)]
  }

  lemma ContradictionSpeaks(s: State, role: string)
    requires role !in s.down && "enforcement-restored" !in s.muted
    ensures StepAll(s, AsRead(Contradiction(role))) ==
            s.(said := s.said + [NotInForce(role, "stopped", []), Restored(role)])
  {
    var reports := Contradiction(role);
    var t := Step(s, Read(reports[0]));
    ReadsOneMore(s, reports, 0);
    ReadsOneMore(s, reports, 1);
    assert reports[..0] == [] && reports[..2] == reports;
    assert StepAll(s, AsRead(reports[..0])) == s;
    assert t == s.(down := s.down[role := Down("stopped", [], false)],
                   said := s.said + [NotInForce(role, "stopped", [])]);
    assert t.down - {role} == s.down;
    assert t.said + [Restored(role)] == s.said + [NotInForce(role, "stopped", []), Restored(role)];
  }

  /** Such a snapshot is told anew each time it is read: every reading says both again. */
  lemma AContradictorySnapshotSpeaksAgain(role: string)
    ensures !Agree(Contradiction(role))
    ensures var once := StepAll(START, AsRead(Contradiction(role)));
            StepAll(once, AsRead(Contradiction(role))).said ==
            once.said + [NotInForce(role, "stopped", []), Restored(role)]
  {
    var reports := Contradiction(role);
    assert reports[0].role == reports[1].role && Meaning(reports[0]) != Meaning(reports[1]);
    ContradictionSpeaks(START, role);
    ContradictionSpeaks(StepAll(START, AsRead(reports)), role);
  }

  lemma {:induction false} SkippedChangesNothing(s: State, reports: seq<Report>)
    requires forall i :: 0 <= i < |reports| ==> Skipped(s, reports[i])
    ensures StepAll(s, AsRead(reports)) == s
  {
    if reports != [] {
      var init := reports[..|reports| - 1];
      assert AsRead(reports)[..|reports| - 1] == AsRead(init);
      SkippedChangesNothing(s, init);
    }
  }

  lemma {:induction false} StepAllOnward(s: State, a: seq<Reading>, b: seq<Reading>)
    ensures StepAll(s, a + b) == StepAll(StepAll(s, a), b)
  {
    if b == [] {
      assert a + b == a;
    } else {
      assert (a + b)[..|a + b| - 1] == a + b[..|b| - 1];
      StepAllOnward(s, a, b[..|b| - 1]);
    }
  }

  /** The readings of a snapshot beside its reports. */
  function OtherReadings(n: Snapshot): seq<Reading> {
    [HeldIs(n.held), CarriedIs(n.carried), RevisionIs(n.rejected), SplitIs(n.split)]
  }

  /** Those readings, one after the other. */
  function OthersRead(s: State, n: Snapshot): State {
    SplitReading(RevisionReading(TrafficCarriedChanged(RoutesHeldChanged(s, n.held), n.carried), n.rejected), n.split)
  }

  lemma OthersAreRead(s: State, n: Snapshot)
    ensures StepAll(s, OtherReadings(n)) == OthersRead(s, n)
  {
    var r := OtherReadings(n);
    assert r[..3][..2] == r[..2] && r[..2][..1] == r[..1] && r[..1][..0] == [];
    assert StepAll(s, r[..1]) == RoutesHeldChanged(s, n.held);
    assert StepAll(s, r[..2]) == TrafficCarriedChanged(StepAll(s, r[..1]), n.carried);
    assert StepAll(s, r[..3]) == RevisionReading(StepAll(s, r[..2]), n.rejected);
  }

  lemma SnapshotSteps(s: State, n: Snapshot)
    ensures StepAll(s, Readings(n)) == OthersRead(StepAll(s, AsRead(n.reports)), n)
  {
    StepAllOnward(s, AsRead(n.reports), OtherReadings(n));
    OthersAreRead(StepAll(s, AsRead(n.reports)), n);
  }

  /** The state already says what the snapshot's other readings say. */
  predicate Agrees(s: State, n: Snapshot) {
    && s.routesHeld == n.held && s.trafficCarried == n.carried && s.revisionRaised == n.rejected
    && (n.split.Some? ==> s.splitTold)
  }

  lemma OthersAgree(s: State, n: Snapshot)
    ensures OthersRead(s, n).down == s.down && Agrees(OthersRead(s, n), n)
  {
  }

  lemma AgreedChangesNothing(s: State, n: Snapshot)
    requires Agrees(s, n)
    ensures OthersRead(s, n) == s
  {
    assert s.said + [] == s.said;
    assert RevisionReading(s, n.rejected) == s;
  }

  /** A snapshot read twice, reports and all, says nothing and changes nothing the second time. */
  lemma RereadIsSilent(readings: seq<Reading>, n: Snapshot)
    requires Agree(n.reports)
    ensures StepAll(StepAll(Run(readings), Readings(n)), Readings(n)) == StepAll(Run(readings), Readings(n))
  {
    var s := Run(readings);
    var reported := StepAll(s, AsRead(n.reports));
    var once := OthersRead(reported, n);
    SnapshotSteps(s, n);
    SnapshotSteps(once, n);
    OthersAgree(reported, n);
    AgreedChangesNothing(once, n);
    RunFolds(readings);
    RereadIsSkippedExactlyWhenConsistent(s, n.reports);
    assert forall r: Report :: Skipped(reported, r) <==> Skipped(once, r);
    SkippedChangesNothing(once, n.reports);
  }
}
