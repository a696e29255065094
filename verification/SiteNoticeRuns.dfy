/** Runs of the log from whatever the file held, against the ledger it stands for: one that
    keeps every stamp of every site for good. */
module SiteNoticeRuns {
  import opened Basics
  import opened SiteNotices
  import opened SiteNoticeLog

  datatype Event = Tell(host: string, muted: bool, at: Stamp) | Answer(host: string, at: Stamp)

  /** What the event makes of the log, before the cap. */
  function Uncapped(log: Log, e: Event): Log {
    match e
    case Tell(host, muted, at) => if Due(log, host, muted, at) then AfterTold(log, host, at) else log
    case Answer(host, at) => AfterAnswered(log, host, at)
  }

  ghost predicate Step(log: Log, e: Event, after: Log) { Capped(Uncapped(log, e), after) }

  /** The clock starts no earlier than 1970 and does not go back. */
  ghost predicate Clocked(events: seq<Event>) {
    && (forall i :: 0 <= i < |events| ==> events[i].at >= 0)
    && (forall i, j :: 0 <= i < j < |events| ==> events[i].at <= events[j].at)
  }

  /** A run starts from any log a file can yield, stamps of any age and from any future. */
  ghost predicate IsRun(events: seq<Event>, logs: seq<Log>) {
    && Clocked(events)
    && |logs| == |events| + 1 && Valid(logs[0])
    && forall i :: 0 <= i < |events| ==> Step(logs[i], events[i], logs[i + 1])
  }

  /** No event met the cap. */
  ghost predicate Roomy(events: seq<Event>, logs: seq<Log>)
    requires |logs| == |events| + 1
  {
    forall i :: 0 <= i < |events| ==> |Uncapped(logs[i], events[i]).sites| <= MAX_SITES
  }

  /** The i-th event was a notice, and it went out. */
  ghost predicate WentOut(events: seq<Event>, logs: seq<Log>, i: nat)
    requires i < |events| < |logs|
  {
    events[i].Tell? && Due(logs[i], events[i].host, events[i].muted, events[i].at)
  }

  function ClockAfter(events: seq<Event>): Stamp {
    if events == [] then 0 else events[|events| - 1].at
  }

  /** Every log the file yields starts a run, and a run starts from nothing else. */
  lemma FilesStartRuns(section: Section, log: Log)
    ensures Capped(Read(section), log) ==> Valid(log) && IsRun([], [log])
    ensures IsRun([], [log]) ==> exists file :: Capped(Read(file), log)
  {
    if Capped(Read(section), log) {
      ReadIsStamped(section);
      CappedIsValid(Read(section), log);
    }
    if IsRun([], [log]) {
      var file := SomethingWrites(log);
      WrittenReads(log, file);
      assert Capped(Read(file), log);
    }
  }

  /** Every log of every run is within its bounds. */
  lemma {:induction false} RunsStayValid(events: seq<Event>, logs: seq<Log>, i: nat)
    requires IsRun(events, logs) && i < |logs|
    ensures Valid(logs[i])
  {
    if i > 0 {
      RunsStayValid(events, logs, i - 1);
      var e := events[i - 1];
      ToldIsStamped(logs[i - 1], e.host, e.at);
      CappedIsValid(Uncapped(logs[i - 1], e), logs[i]);
    }
  }

  lemma RunUpTo(events: seq<Event>, logs: seq<Log>, n: nat)
    requires IsRun(events, logs) && n <= |events|
    ensures IsRun(events[..n], logs[..n + 1])
    ensures Roomy(events, logs) ==> Roomy(events[..n], logs[..n + 1])
    ensures n < |events| ==> ClockAfter(events[..n]) <= events[n].at
  {
    assert forall i :: 0 <= i < n ==> events[..n][i] == events[i];
  }

  // ── The ledger ───────────────────────────────────────────────────────────

  function LedgerStep(ledger: Log, e: Event): Log {
    match e
    case Tell(host, muted, at) =>
      if !Due(ledger, host, muted, at) then ledger
      else if PlainHost(host) then MarkShown(ledger.(shown := Some(at)), host, at)
      else ledger.(shown := Some(at))
    case Answer(host, at) => AfterAnswered(ledger, host, at)
  }

  function Ledger(start: Log, events: seq<Event>): Log {
    if events == [] then start else LedgerStep(Ledger(start, events[..|events| - 1]), events[|events| - 1])
  }

  /** From `c` on, the log lets a notice through exactly when the ledger does. */
  ghost predicate AnswersAlike(log: Log, ledger: Log, c: Stamp) {
    forall host, muted, now: Stamp :: c <= now ==> Due(log, host, muted, now) == Due(ledger, host, muted, now)
  }

  /** A stamp from before 1970 that nobody answered: the wait it starts never ends, since in the
      end the subtraction wraps. */
  predicate NeverEnds(s: Site) { s.shown.Some? && s.shown.value < 0 && !WasAnswered(s) }

  /** The event makes the log forget a wait that never ends, with half an hour left to notice. */
  ghost predicate ForgetsAnEndlessWait(log: Log, e: Event) {
    && e.Tell? && Due(log, e.host, e.muted, e.at) && PlainHost(e.host)
    && e.at + SITE_NOTICE_GAP_MS <= LAST
    && exists h :: h in log.sites && h != e.host && !Fresh(log.sites[h], e.at) && NeverEnds(log.sites[h])
  }

  /** The log's stamp is the ledger's, or was dropped once a day old and harmless. */
  predicate SiteStands(mine: Site, whole: Site, c: Stamp) {
    && (|| mine.shown == whole.shown
        || (&& mine.shown.None? && whole.shown.Some? && whole.shown.value <= c - SAME_SITE_GAP_MS
            && (whole.shown.value >= 0 || WasAnswered(whole))))
    && (|| mine.answered == whole.answered
        || (&& mine.answered.None? && whole.answered.Some? && whole.answered.value <= c - SAME_SITE_GAP_MS
            && (mine.shown.Some? ==> mine.shown.value >= 0)))
  }

  ghost predicate Stands(log: Log, ledger: Log, c: Stamp) {
    log.shown == ledger.shown && forall h :: SiteStands(SiteOf(log, h), SiteOf(ledger, h), c)
  }

  /** Both told so late that no clock gets to the end of the half hour. */
  predicate Late(log: Log, ledger: Log, c: Stamp) {
    && log.shown == ledger.shown && log.shown.Some?
    && 0 <= log.shown.value <= c && log.shown.value + SITE_NOTICE_GAP_MS > LAST
  }

  lemma SiteAnswersAlike(mine: Site, whole: Site, c: Stamp, now: Stamp)
    requires SiteStands(mine, whole, c) && 0 <= c <= now
    ensures (WasAnswered(mine) || LongAgo(mine.shown, now, SAME_SITE_GAP_MS)) <==>
            (WasAnswered(whole) || LongAgo(whole.shown, now, SAME_SITE_GAP_MS))
  {
  }

  lemma StandingAnswersAlike(log: Log, ledger: Log, c: Stamp)
    requires Stands(log, ledger, c) && 0 <= c
    ensures AnswersAlike(log, ledger, c)
  {
    forall host, muted, now: Stamp | c <= now
      ensures Due(log, host, muted, now) == Due(ledger, host, muted, now)
    {
      assert SiteStands(SiteOf(log, host), SiteOf(ledger, host), c);
      SiteAnswersAlike(SiteOf(log, host), SiteOf(ledger, host), c, now);
    }
  }

  lemma StandsLater(log: Log, ledger: Log, c: Stamp, now: Stamp)
    requires Stands(log, ledger, c) && c <= now
    ensures Stands(log, ledger, now)
  {
    forall h ensures SiteStands(SiteOf(log, h), SiteOf(ledger, h), now) {
      assert SiteStands(SiteOf(log, h), SiteOf(ledger, h), c);
    }
  }

  lemma SiteIsForgotten(mine: Site, whole: Site, now: Stamp)
    requires SiteStands(mine, whole, now) && now >= 0
    requires !Fresh(mine, now) && !NeverEnds(mine)
    ensures SiteStands(BLANK, whole, now)
  {
  }

  /** What is told forgets harmlessly, and stamps both alike. */
  lemma TellingStands(log: Log, ledger: Log, host: string, now: Stamp)
    requires Stands(log, ledger, now) && now >= 0 && PlainHost(host)
    requires forall h :: h in log.sites && h != host && !Fresh(log.sites[h], now) ==> !NeverEnds(log.sites[h])
    ensures Stands(AfterTold(log, host, now), MarkShown(ledger.(shown := Some(now)), host, now), now)
  {
    var mine, whole := AfterTold(log, host, now), MarkShown(ledger.(shown := Some(now)), host, now);
    forall h ensures SiteStands(SiteOf(mine, h), SiteOf(whole, h), now) {
      assert SiteStands(SiteOf(log, h), SiteOf(ledger, h), now);
      if h != host && h in log.sites && !Fresh(log.sites[h], now) {
        SiteIsForgotten(log.sites[h], SiteOf(ledger, h), now);
      }
    }
  }

  lemma AnsweringStands(log: Log, ledger: Log, host: string, now: Stamp)
    requires Stands(log, ledger, now) && now >= 0 && PlainHost(host)
    ensures Stands(MarkAnswered(log, host, now), MarkAnswered(ledger, host, now), now)
  {
    var mine, whole := MarkAnswered(log, host, now), MarkAnswered(ledger, host, now);
    forall h ensures SiteStands(SiteOf(mine, h), SiteOf(whole, h), now) {
      assert SiteStands(SiteOf(log, h), SiteOf(ledger, h), now);
    }
  }

  lemma StepStands(log: Log, ledger: Log, c: Stamp, e: Event)
    requires Stands(log, ledger, c) && 0 <= c <= e.at && !ForgetsAnEndlessWait(log, e)
    ensures Stands(Uncapped(log, e), LedgerStep(ledger, e), e.at) || Late(Uncapped(log, e), LedgerStep(ledger, e), e.at)
  {
    StandsLater(log, ledger, c, e.at);
    StandingAnswersAlike(log, ledger, e.at);
    match e
    case Tell(host, muted, at) =>
      assert Due(log, host, muted, at) == Due(ledger, host, muted, at);
      if Due(log, host, muted, at) && at + SITE_NOTICE_GAP_MS <= LAST {
        if PlainHost(host) {
          TellingStands(log, ledger, host, at);
        } else {
          forall h ensures SiteStands(SiteOf(log.(shown := Some(at)), h), SiteOf(ledger.(shown := Some(at)), h), at) {
            assert SiteStands(SiteOf(log, h), SiteOf(ledger, h), at);
          }
        }
      }
    case Answer(host, at) =>
      if PlainHost(host) { AnsweringStands(log, ledger, host, at); }
  }

  lemma LateStaysLate(log: Log, ledger: Log, c: Stamp, e: Event)
    requires Late(log, ledger, c) && c <= e.at
    ensures Late(Uncapped(log, e), LedgerStep(ledger, e), e.at) && AnswersAlike(log, ledger, c)
  {
  }

  lemma {:induction false} RunStands(events: seq<Event>, logs: seq<Log>)
    requires IsRun(events, logs) && Roomy(events, logs)
    requires forall i :: 0 <= i < |events| ==> !ForgetsAnEndlessWait(logs[i], events[i])
    ensures var log, ledger, c := logs[|events|], Ledger(logs[0], events), ClockAfter(events);
            Stands(log, ledger, c) || Late(log, ledger, c)
  {
    if events != [] {
      var n := |events| - 1;
      var init := events[..n];
      RunUpTo(events, logs, n);
      RunStands(init, logs[..n + 1]);
      var log, ledger, c := logs[n], Ledger(logs[0], init), ClockAfter(init);
      assert Step(log, events[n], logs[n + 1]);
      if Late(log, ledger, c) {
        LateStaysLate(log, ledger, c, events[n]);
      } else {
        StepStands(log, ledger, c, events[n]);
      }
    }
  }

  ghost predicate AlikeThroughout(events: seq<Event>, logs: seq<Log>)
    requires |logs| == |events| + 1
  {
    forall i :: 0 <= i <= |events| ==> AnswersAlike(logs[i], Ledger(logs[0], events[..i]), ClockAfter(events[..i]))
  }

  /** An endless wait that is forgotten shows: once the half hour is over, the log lets the site
      through and the ledger does not. */
  lemma AForgottenWaitShows(log: Log, ledger: Log, c: Stamp, e: Event)
    requires Stands(log, ledger, c) && 0 <= c <= e.at && ForgetsAnEndlessWait(log, e)
    ensures !AnswersAlike(Uncapped(log, e), LedgerStep(ledger, e), e.at)
  {
    var h :| h in log.sites && h != e.host && !Fresh(log.sites[h], e.at) && NeverEnds(log.sites[h]);
    assert SiteStands(SiteOf(log, h), SiteOf(ledger, h), c);
    StandingAnswersAlike(log, ledger, c);
    assert Due(log, e.host, e.muted, e.at) == Due(ledger, e.host, e.muted, e.at);
    assert Due(Uncapped(log, e), h, false, LAST) && !Due(LedgerStep(ledger, e), h, false, LAST);
  }

  lemma {:induction false} FirstForgotten(events: seq<Event>, logs: seq<Log>, i: nat) returns (k: nat)
    requires i < |events| < |logs| && ForgetsAnEndlessWait(logs[i], events[i])
    ensures k <= i && ForgetsAnEndlessWait(logs[k], events[k])
    ensures forall j :: 0 <= j < k ==> !ForgetsAnEndlessWait(logs[j], events[j])
    decreases i
  {
    if j :| 0 <= j < i && ForgetsAnEndlessWait(logs[j], events[j]) {
      k := FirstForgotten(events, logs, j);
    } else {
      k := i;
    }
  }

  lemma LedgerOneMore(start: Log, events: seq<Event>, k: nat)
    requires k < |events|
    ensures Ledger(start, events[..k + 1]) == LedgerStep(Ledger(start, events[..k]), events[k])
    ensures ClockAfter(events[..k + 1]) == events[k].at
  {
    assert events[..k + 1][..k] == events[..k];
  }

  lemma AForgottenWaitEndsTheLikeness(events: seq<Event>, logs: seq<Log>, i: nat)
    requires IsRun(events, logs) && Roomy(events, logs) && i < |events| && ForgetsAnEndlessWait(logs[i], events[i])
    ensures !AlikeThroughout(events, logs)
  {
    var k := FirstForgotten(events, logs, i);
    RunUpTo(events, logs, k);
    RunStands(events[..k], logs[..k + 1]);
    var ledger, c := Ledger(logs[0], events[..k]), ClockAfter(events[..k]);
    assert Step(logs[k], events[k], logs[k + 1]);
    assert Stands(logs[k], ledger, c);
    AForgottenWaitShows(logs[k], ledger, c, events[k]);
    LedgerOneMore(logs[0], events, k);
    assert !AnswersAlike(logs[k + 1], Ledger(logs[0], events[..k + 1]), ClockAfter(events[..k + 1]));
  }

  /** While the cap is not met, the log answers as the ledger at every point of a run, exactly
      when no notice made it forget a wait that never ends. */
  lemma ForgettingChangesNoAnswer(events: seq<Event>, logs: seq<Log>)
    requires IsRun(events, logs) && Roomy(events, logs)
    ensures AlikeThroughout(events, logs) <==>
            forall i :: 0 <= i < |events| ==> !ForgetsAnEndlessWait(logs[i], events[i])
  {
    if i :| 0 <= i < |events| && ForgetsAnEndlessWait(logs[i], events[i]) {
      AForgottenWaitEndsTheLikeness(events, logs, i);
    } else {
      forall i | 0 <= i <= |events|
        ensures AnswersAlike(logs[i], Ledger(logs[0], events[..i]), ClockAfter(events[..i]))
      {
        RunUpTo(events, logs, i);
        RunStands(events[..i], logs[..i + 1]);
        var log, ledger, c := logs[i], Ledger(logs[0], events[..i]), ClockAfter(events[..i]);
        if Late(log, ledger, c) {
          LateStaysLate(log, ledger, c, Answer("", c));
        } else {
          StandingAnswersAlike(log, ledger, c);
        }
      }
    }
  }

  /** A file can hold such a wait: the least stamp there is, met by one notice about another
      site. */
  lemma AnEndlessWaitCanBeForgotten(start: Log, at: Stamp) returns (events: seq<Event>, logs: seq<Log>)
    requires start == Log(None, map["site" := Site(Some(-0x8000_0000_0000_0000), None)])
    requires 0 <= at <= LAST - SITE_NOTICE_GAP_MS
    ensures IsRun(events, logs) && Roomy(events, logs) && logs[0] == start
    ensures !AlikeThroughout(events, logs)
  {
    NamesArePlain();
    var e := Tell("other", false, at);
    var after := Uncapped(start, e);
    events, logs := [e], [start, after];
    assert Due(start, "other", false, at);
    assert after.sites.Keys <= {"other", "site"};
    SubsetSize(after.sites.Keys, {"other", "site"});
    assert |start.sites.Keys| == 1 && |start.sites| == |start.sites.Keys|;
    assert Step(start, e, after);
    assert "site" in start.sites && NeverEnds(start.sites["site"]);
    AForgottenWaitEndsTheLikeness(events, logs, 0);
  }

  lemma NamesArePlain()
    ensures PlainHost("site") && PlainHost("other") && "site" != "other"
  {
    assert Utf8Len("site") == 1 + Utf8Len("ite") && Utf8Len("ite") == 1 + Utf8Len("te");
    assert Utf8Len("te") == 1 + Utf8Len("e");
    assert Utf8Len("other") == 1 + Utf8Len("ther") && Utf8Len("ther") == 1 + Utf8Len("her");
    assert Utf8Len("her") == 1 + Utf8Len("er") && Utf8Len("er") == 1 + Utf8Len("r");
    assert |"site"| == 4 && |"other"| == 5;
  }

  // ── How many sites a run of notices holds ────────────────────────────────

  /** Half hours in a day. */
  const DAY_SLOTS: nat := 48

  ghost predicate Told(s: Site) { s.shown.Some? && s.answered.None? }

  /** The sites the run added. */
  function Added(log: Log, start: Log): map<string, Site> {
    map h | h in log.sites && h !in start.sites :: log.sites[h]
  }

  /** The sites a run added, told one at a time, each half an hour after the last. */
  ghost predicate Spaced(log: Log, start: Log, c: Stamp) {
    && (forall h :: h in Added(log, start) ==>
          && Told(log.sites[h]) && log.shown.Some?
          && 0 <= log.sites[h].shown.value <= log.shown.value <= c)
    && AllApart(Added(log, start))
  }

  predicate Apart(a: Site, b: Site) {
    a.shown.Some? && b.shown.Some? ==>
      || a.shown.value - b.shown.value >= SITE_NOTICE_GAP_MS
      || b.shown.value - a.shown.value >= SITE_NOTICE_GAP_MS
  }

  ghost predicate AllApart(sites: map<string, Site>) {
    forall h, k :: h in sites && k in sites && h != k ==> Apart(sites[h], sites[k])
  }

  lemma {:induction false} PigeonHoles<T>(s: set<T>, slot: T -> int, n: nat)
    requires forall x :: x in s ==> 0 <= slot(x) < n
    requires forall x, y :: x in s && y in s && x != y ==> slot(x) != slot(y)
    ensures |s| <= n
  {
    if n == 0 {
      assert s == {};
    } else {
      var last := set x | x in s && slot(x) == n - 1;
      PigeonHoles(s - last, slot, n - 1);
      if x :| x in last {
        assert last == {x};
      }
      assert |last| <= 1;
      assert s == (s - last) + last;
    }
  }

  /** Stamps a half hour apart within one day are at most forty-eight. */
  lemma ADayHoldsFortyEight(sites: map<string, Site>, now: Stamp)
    requires forall h :: h in sites ==> Told(sites[h]) && now - SAME_SITE_GAP_MS < sites[h].shown.value <= now
    requires AllApart(sites)
    ensures |sites| <= DAY_SLOTS
  {
    var slot := (h: string) =>
      if h in sites && sites[h].shown.Some? then (now - sites[h].shown.value) / SITE_NOTICE_GAP_MS else 0;
    forall h, k | h in sites && k in sites && h != k ensures slot(h) != slot(k) {
      assert Apart(sites[h], sites[k]) && Told(sites[h]) && Told(sites[k]);
    }
    PigeonHoles(sites.Keys, slot, DAY_SLOTS);
    assert |sites.Keys| == |sites|;
  }

  lemma HeldOrAdded(log: Log, start: Log)
    ensures |log.sites| <= |start.sites| + |Added(log, start)|
  {
    SubsetSize(log.sites.Keys, start.sites.Keys + Added(log, start).Keys);
    assert |log.sites.Keys| == |log.sites| && |start.sites.Keys| == |start.sites|;
    assert |Added(log, start).Keys| == |Added(log, start)|;
  }

  /** A site still within its day and another told now are half an hour apart. */
  lemma ToldKeepsSpaced(log: Log, start: Log, c: Stamp, e: Event)
    requires Spaced(log, start, c) && 0 <= c <= e.at && e.Tell?
    requires Due(log, e.host, e.muted, e.at) && PlainHost(e.host)
    ensures var after := AfterTold(log, e.host, e.at);
            Spaced(after, start, e.at) && |Added(after, start)| <= DAY_SLOTS
  {
    var after := AfterTold(log, e.host, e.at);
    var added := Added(after, start);
    forall h | h in added ensures Told(added[h]) && e.at - SAME_SITE_GAP_MS < added[h].shown.value <= e.at {
      if h in log.sites { assert h in Added(log, start); }
    }
    forall h, k | h in added && k in added && h != k ensures Apart(added[h], added[k]) {
      if h in log.sites { assert h in Added(log, start); }
      if k in log.sites { assert k in Added(log, start); }
      if h != e.host && k != e.host { assert Apart(Added(log, start)[h], Added(log, start)[k]); }
    }
    ADayHoldsFortyEight(added, e.at);
  }

  lemma TellKeepsSpaced(log: Log, start: Log, c: Stamp, e: Event)
    requires Spaced(log, start, c) && 0 <= c <= e.at && e.Tell? && |Added(log, start)| <= DAY_SLOTS
    ensures Spaced(Uncapped(log, e), start, e.at) && |Added(Uncapped(log, e), start)| <= DAY_SLOTS
  {
    if Due(log, e.host, e.muted, e.at) {
      if PlainHost(e.host) {
        ToldKeepsSpaced(log, start, c, e);
      } else {
        assert Added(Uncapped(log, e), start) == Added(log, start);
      }
    }
  }

  lemma {:induction false} TellingStaysSpaced(events: seq<Event>, logs: seq<Log>)
    requires IsRun(events, logs) && forall i :: 0 <= i < |events| ==> events[i].Tell?
    requires |logs[0].sites| + DAY_SLOTS <= MAX_SITES
    ensures Spaced(logs[|events|], logs[0], ClockAfter(events)) && |Added(logs[|events|], logs[0])| <= DAY_SLOTS
    ensures Roomy(events, logs)
  {
    if events == [] {
      assert Added(logs[0], logs[0]) == map[];
    } else {
      var n := |events| - 1;
      var init := events[..n];
      RunUpTo(events, logs, n);
      TellingStaysSpaced(init, logs[..n + 1]);
      TellKeepsSpaced(logs[n], logs[0], ClockAfter(init), events[n]);
      HeldOrAdded(Uncapped(logs[n], events[n]), logs[0]);
      assert Step(logs[n], events[n], logs[n + 1]);
      RoomyOneMore(events, logs);
    }
  }

  lemma RoomyOneMore(events: seq<Event>, logs: seq<Log>)
    requires |logs| == |events| + 1 && events != []
    requires var n := |events| - 1; Roomy(events[..n], logs[..n + 1]) && |Uncapped(logs[n], events[n]).sites| <= MAX_SITES
    ensures Roomy(events, logs)
  {
    var n := |events| - 1;
    forall i | 0 <= i < |events| ensures |Uncapped(logs[i], events[i]).sites| <= MAX_SITES {
      if i < n { assert events[..n][i] == events[i] && logs[..n + 1][i] == logs[i]; }
    }
  }

  /** A run of notices adds at most forty-eight sites to what the file held, so the cap takes
      none as long as the file leaves room for those. */
  lemma NoticesNeverMeetTheCap(events: seq<Event>, logs: seq<Log>)
    requires IsRun(events, logs) && (forall i :: 0 <= i < |events| ==> events[i].Tell?)
    requires |logs[0].sites| + DAY_SLOTS <= MAX_SITES
    ensures Roomy(events, logs)
    ensures |logs[|events|].sites| <= |logs[0].sites| + DAY_SLOTS
  {
    TellingStaysSpaced(events, logs);
    HeldOrAdded(logs[|events|], logs[0]);
  }
}
