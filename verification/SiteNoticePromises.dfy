/** What the user is promised about sites that do not open, over every run from every file:
    where the promise holds, and exactly where it does not. */
module SiteNoticePromises {
  import opened Basics
  import opened SiteNotices
  import opened SiteNoticeLog
  import opened SiteNoticeRuns

  // ── One notice per half hour ─────────────────────────────────────────────

  lemma {:induction false} LastNoticeIsRemembered(events: seq<Event>, logs: seq<Log>, i: nat, j: nat)
    requires IsRun(events, logs) && i < j <= |events| && WentOut(events, logs, i)
    ensures logs[j].shown.Some? && events[i].at <= logs[j].shown.value <= events[j - 1].at
  {
    assert Step(logs[j - 1], events[j - 1], logs[j]);
    if i + 1 < j { LastNoticeIsRemembered(events, logs, i, j - 1); }
  }

  /** Two notices are at least half an hour apart, in every run. */
  lemma NoticesAreHalfAnHourApart(events: seq<Event>, logs: seq<Log>, i: nat, j: nat)
    requires IsRun(events, logs) && i < j < |events|
    requires WentOut(events, logs, i) && WentOut(events, logs, j)
    ensures events[j].at - events[i].at >= SITE_NOTICE_GAP_MS
  {
    LastNoticeIsRemembered(events, logs, i, j);
  }

  // ── Silent for good ──────────────────────────────────────────────────────

  /** From `c` on the last notice holds every other back: it lies so far behind that the
      subtraction wraps, or so late that no clock gets past its half hour. */
  predicate HoldsForGood(shown: Option<Stamp>, c: Stamp) {
    shown.Some? && (c - shown.value > LAST || LAST - SITE_NOTICE_GAP_MS < shown.value <= c)
  }

  ghost predicate StartsAt(events: seq<Event>, c: Stamp) {
    forall i :: 0 <= i < |events| ==> c <= events[i].at
  }

  lemma {:induction false} HeldForGood(events: seq<Event>, logs: seq<Log>, c: Stamp, i: nat)
    requires IsRun(events, logs) && StartsAt(events, c) && 0 <= c && HoldsForGood(logs[0].shown, c) && i <= |events|
    ensures logs[i].shown == logs[0].shown && (i < |events| ==> !WentOut(events, logs, i))
  {
    if i > 0 {
      HeldForGood(events, logs, c, i - 1);
      assert Step(logs[i - 1], events[i - 1], logs[i]);
    }
  }

  /** When a notice about a site nobody heard of gets through. */
  function FirstMoment(shown: Option<Stamp>, c: Stamp): int {
    if shown.Some? && shown.value <= c && shown.value + SITE_NOTICE_GAP_MS > c
    then shown.value + SITE_NOTICE_GAP_MS else c
  }

  lemma OneNoticeGetsThrough(log: Log, c: Stamp) returns (events: seq<Event>, logs: seq<Log>)
    requires Valid(log) && 0 <= c && !HoldsForGood(log.shown, c)
    ensures IsRun(events, logs) && logs[0] == log && StartsAt(events, c) && |events| == 1
    ensures WentOut(events, logs, 0) && PlainHost(events[0].host)
  {
    var at: Stamp := FirstMoment(log.shown, c);
    var host := FreeHost(log);
    var e := Tell(host, false, at);
    assert Due(log, host, false, at);
    var before := Uncapped(log, e);
    var sites := SomeOutcome(before.sites);
    events, logs := [e], [log, before.(sites := sites)];
    assert Step(log, e, logs[1]);
  }

  /** A log within its bounds leaves some site untold. */
  lemma FreeHost(log: Log) returns (host: string)
    requires Valid(log)
    ensures PlainHost(host) && host !in log.sites
  {
    NamesArePlain();
    var names := Crowd(MAX_SITES).Keys + {"site"};
    CrowdCounts(MAX_SITES);
    CrowdLacksTheSite(MAX_SITES);
    assert |Crowd(MAX_SITES).Keys| == |Crowd(MAX_SITES)| && |log.sites.Keys| == |log.sites|;
    if names <= log.sites.Keys { SubsetSize(names, log.sites.Keys); }
    host :| host in names && host !in log.sites;
    if host in Crowd(MAX_SITES) { CrowdHolds(MAX_SITES, host); }
  }

  /** In some run from `c` on a notice about a site goes out. */
  ghost predicate CanTell(log: Log, c: Stamp) {
    exists events: seq<Event>, logs: seq<Log>, i: nat ::
      && IsRun(events, logs) && logs[0] == log && StartsAt(events, c) && i < |events|
      && WentOut(events, logs, i) && PlainHost(events[i].host)
  }

  /** No notice ever goes out again, about any host and whatever happens, exactly when the last
      one holds for good; else a site can still be told. */
  lemma SilentForGoodExactly(log: Log, c: Stamp)
    requires Valid(log) && 0 <= c
    ensures HoldsForGood(log.shown, c) ==>
              forall events: seq<Event>, logs: seq<Log>, i: nat ::
                IsRun(events, logs) && logs[0] == log && StartsAt(events, c) && i < |events| ==> !WentOut(events, logs, i)
    ensures CanTell(log, c) <==> !HoldsForGood(log.shown, c)
  {
    if HoldsForGood(log.shown, c) {
      forall events: seq<Event>, logs: seq<Log>, i: nat
        | IsRun(events, logs) && logs[0] == log && StartsAt(events, c) && i < |events|
        ensures !WentOut(events, logs, i)
      {
        HeldForGood(events, logs, c, i);
      }
    } else {
      var events, logs := OneNoticeGetsThrough(log, c);
      assert IsRun(events, logs) && logs[0] == log && StartsAt(events, c) && 0 < |events|;
      assert WentOut(events, logs, 0);
    }
  }

  /** The file can hold such a stamp, and a log read from it stays silent whatever is told or
      answered. */
  lemma AStampOutOfReachSilencesForGood(section: Section, events: seq<Event>, logs: seq<Log>, i: nat)
    requires SHOWN in section && section[SHOWN] == Number(-0x8000_0000_0000_0000)
    requires IsRun(events, logs) && Capped(Read(section), logs[0]) && i < |events|
    ensures !WentOut(events, logs, i)
    ensures !Waits(logs[i].shown, events[i].at, SITE_NOTICE_GAP_MS)
  {
    HeldForGood(events, logs, 0, i);
  }

  // ── The same site once a day ─────────────────────────────────────────────

  /** The event held on to `host` until the cap, met by more sites than fit, cut it out. */
  ghost predicate CutByTheCap(events: seq<Event>, logs: seq<Log>, k: nat, host: string)
    requires k < |events| < |logs|
  {
    var before := Uncapped(logs[k], events[k]).sites;
    host in before && host !in logs[k + 1].sites && |before| > MAX_SITES
  }

  ghost predicate CutBetween(events: seq<Event>, logs: seq<Log>, i: nat, j: nat, host: string)
    requires j <= |events| < |logs|
  {
    exists k :: i <= k < j && CutByTheCap(events, logs, k, host)
  }

  ghost predicate AnsweredBetween(events: seq<Event>, i: nat, j: nat, host: string)
    requires j <= |events|
  {
    exists k :: i < k < j && events[k].Answer? && events[k].host == host
  }

  /** The log already holds an answer stamped no earlier than `at`: given at that very moment,
      or from a clock that was ahead. */
  predicate AnsweredAhead(log: Log, host: string, at: Stamp) {
    SiteOf(log, host).answered.Some? && SiteOf(log, host).answered.value >= at
  }

  predicate TellsAgain(log: Log, e: Event, host: string) {
    e.Tell? && e.host == host && Due(log, host, e.muted, e.at)
  }

  /** The log holds the notice of `t` about the site. */
  predicate Holds(log: Log, host: string, t: Stamp) {
    host in log.sites && log.sites[host].shown == Some(t)
  }

  lemma UncappedHolds(log: Log, e: Event, host: string, t: Stamp)
    requires Holds(log, host, t) && 0 <= t <= e.at < t + SAME_SITE_GAP_MS && PlainHost(host)
    requires !TellsAgain(log, e, host)
    ensures Holds(Uncapped(log, e), host, t)
    ensures WasAnswered(Uncapped(log, e).sites[host]) <==>
            WasAnswered(log.sites[host]) || (e.Answer? && e.host == host)
  {
  }

  lemma UncappedStaysUnheard(log: Log, e: Event, host: string)
    requires SiteOf(log, host).shown.None? && !TellsAgain(log, e, host)
    ensures SiteOf(Uncapped(log, e), host).shown.None?
  {
  }

  lemma ToldHolds(log: Log, e: Event)
    requires e.Tell? && Due(log, e.host, e.muted, e.at) && PlainHost(e.host) && e.at >= 0
    ensures Holds(Uncapped(log, e), e.host, e.at)
    ensures WasAnswered(Uncapped(log, e).sites[e.host]) <==> AnsweredAhead(log, e.host, e.at)
  {
  }

  /** Kept as it was, or cut by the cap. */
  lemma KeptOrCut(events: seq<Event>, logs: seq<Log>, k: nat, host: string)
    requires IsRun(events, logs) && k < |events|
    ensures var before := Uncapped(logs[k], events[k]);
            if CutByTheCap(events, logs, k, host) then SiteOf(logs[k + 1], host).shown.None?
            else SiteOf(logs[k + 1], host) == SiteOf(before, host) && (host in logs[k + 1].sites <==> host in before.sites)
  {
    assert Step(logs[k], events[k], logs[k + 1]);
  }

  /** What the j-th log knows of the site told by event i. */
  ghost predicate Tracked(events: seq<Event>, logs: seq<Log>, i: nat, j: nat)
    requires i < j <= |events| < |logs|
  {
    var host, t := events[i].host, events[i].at;
    if CutBetween(events, logs, i, j, host) then SiteOf(logs[j], host).shown.None?
    else
      && Holds(logs[j], host, t)
      && (WasAnswered(logs[j].sites[host]) <==>
            AnsweredAhead(logs[i], host, t) || AnsweredBetween(events, i, j, host))
  }

  /** Nothing is told about the site between the two events. */
  ghost predicate QuietBetween(events: seq<Event>, logs: seq<Log>, i: nat, j: nat)
    requires i < j <= |events| < |logs|
  {
    forall k :: i < k < j && WentOut(events, logs, k) ==> events[k].host != events[i].host
  }

  lemma CutOneMore(events: seq<Event>, logs: seq<Log>, i: nat, j: nat, host: string)
    requires i <= j < |events| < |logs|
    ensures CutBetween(events, logs, i, j + 1, host) <==>
            CutBetween(events, logs, i, j, host) || CutByTheCap(events, logs, j, host)
  {
    if CutByTheCap(events, logs, j, host) { assert i <= j < j + 1; }
  }

  lemma AnsweredOneMore(events: seq<Event>, i: nat, j: nat, host: string)
    requires i < j < |events|
    ensures AnsweredBetween(events, i, j + 1, host) <==>
            AnsweredBetween(events, i, j, host) || (events[j].Answer? && events[j].host == host)
  {
  }

  lemma TrackedAtFirst(events: seq<Event>, logs: seq<Log>, i: nat)
    requires IsRun(events, logs) && i < |events| && WentOut(events, logs, i) && PlainHost(events[i].host)
    ensures Tracked(events, logs, i, i + 1)
  {
    var host := events[i].host;
    ToldHolds(logs[i], events[i]);
    CutOneMore(events, logs, i, i, host);
    KeptOrCut(events, logs, i, host);
    assert !AnsweredBetween(events, i, i + 1, host);
  }

  lemma TrackedOneMore(events: seq<Event>, logs: seq<Log>, i: nat, j: nat)
    requires IsRun(events, logs) && i < j < |events| && PlainHost(events[i].host) && Tracked(events, logs, i, j)
    requires events[j].at - events[i].at < SAME_SITE_GAP_MS && !TellsAgain(logs[j], events[j], events[i].host)
    ensures Tracked(events, logs, i, j + 1)
  {
    var host, t := events[i].host, events[i].at;
    CutOneMore(events, logs, i, j, host);
    AnsweredOneMore(events, i, j, host);
    KeptOrCut(events, logs, j, host);
    if CutBetween(events, logs, i, j, host) {
      UncappedStaysUnheard(logs[j], events[j], host);
    } else {
      UncappedHolds(logs[j], events[j], host, t);
    }
  }

  lemma NotToldMeanwhile(events: seq<Event>, logs: seq<Log>, i: nat, j: nat, k: nat)
    requires IsRun(events, logs) && i < k < j < |events| && QuietBetween(events, logs, i, j)
    ensures !TellsAgain(logs[k], events[k], events[i].host) && events[k].at <= events[j].at
  {
    if TellsAgain(logs[k], events[k], events[i].host) { assert WentOut(events, logs, k); }
  }

  /** Event i told the site, and up to event j its day lasts and nothing more is told about it. */
  ghost predicate DayOfANotice(events: seq<Event>, logs: seq<Log>, i: nat, j: nat)
    requires i < j < |events| < |logs|
  {
    && WentOut(events, logs, i) && PlainHost(events[i].host)
    && events[j].at - events[i].at < SAME_SITE_GAP_MS && QuietBetween(events, logs, i, j)
  }

  lemma StaysTracked(events: seq<Event>, logs: seq<Log>, i: nat, j: nat, k: nat)
    requires IsRun(events, logs) && i < k < j < |events| && DayOfANotice(events, logs, i, j)
    ensures Tracked(events, logs, i, k) ==> Tracked(events, logs, i, k + 1)
  {
    NotToldMeanwhile(events, logs, i, j, k);
    if Tracked(events, logs, i, k) { TrackedOneMore(events, logs, i, k); }
  }

  lemma {:induction false} TrackedUpTo(events: seq<Event>, logs: seq<Log>, i: nat, j: nat)
    requires i < j <= |events| < |logs| && Tracked(events, logs, i, i + 1)
    requires forall k :: i < k < j && Tracked(events, logs, i, k) ==> Tracked(events, logs, i, k + 1)
    ensures Tracked(events, logs, i, j)
    decreases j
  {
    if i + 1 < j { TrackedUpTo(events, logs, i, j - 1); }
  }

  lemma TrackedUntil(events: seq<Event>, logs: seq<Log>, i: nat, j: nat)
    requires IsRun(events, logs) && i < j < |events| && DayOfANotice(events, logs, i, j)
    ensures Tracked(events, logs, i, j)
  {
    TrackedAtFirst(events, logs, i);
    forall k | i < k < j && Tracked(events, logs, i, k) ensures Tracked(events, logs, i, k + 1) {
      StaysTracked(events, logs, i, j, k);
    }
    TrackedUpTo(events, logs, i, j);
  }

  /** Within a day of a notice about a site, the next one about it goes out exactly when it is
      not muted, the half hour is over, and the site was answered meanwhile, or holds an answer
      from ahead of its time, or was cut out by the cap. */
  lemma TheSameSiteWaitsADay(events: seq<Event>, logs: seq<Log>, i: nat, j: nat)
    requires IsRun(events, logs) && i < j < |events| && WentOut(events, logs, i)
    requires events[j].Tell? && events[j].host == events[i].host && PlainHost(events[i].host)
    requires events[j].at - events[i].at < SAME_SITE_GAP_MS && QuietBetween(events, logs, i, j)
    ensures WentOut(events, logs, j) <==>
            && !events[j].muted && LongAgo(logs[j].shown, events[j].at, SITE_NOTICE_GAP_MS)
            && (|| AnsweredAhead(logs[i], events[i].host, events[i].at)
                || AnsweredBetween(events, i, j, events[i].host)
                || CutBetween(events, logs, i, j, events[i].host))
  {
    TrackedUntil(events, logs, i, j);
  }

  // ── A run that tells the same site twice in a day ────────────────────────

  /** A name for each of a thousand and twenty-four sites. */
  function CrowdHost(n: nat): string
    requires n < MAX_SITES
  {
    ['h', (64 + n / 32) as char, (64 + n % 32) as char]
  }

  lemma CrowdIsPlain(n: nat)
    requires n < MAX_SITES
    ensures PlainHost(CrowdHost(n)) && CrowdHost(n) != "site"
  {
    var h := CrowdHost(n);
    assert Utf8Len(h) == 1 + Utf8Len(h[1..]) && Utf8Len(h[1..]) == 1 + Utf8Len(h[1..][1..]);
    assert Utf8Len(h[1..][1..]) == 1 + Utf8Len(h[1..][1..][1..]);
    assert |h| == 3 && |"site"| == 4;
  }

  lemma CrowdIsDistinct(m: nat, n: nat)
    requires m < MAX_SITES && n < MAX_SITES && m != n
    ensures CrowdHost(m) != CrowdHost(n)
  {
    assert CrowdHost(m)[1] != CrowdHost(n)[1] || CrowdHost(m)[2] != CrowdHost(n)[2];
  }

  const ANSWERED_AT_ONE := Site(None, Some(1))

  function CrowdHosts(m: nat): set<string>
    requires m <= MAX_SITES
  {
    set n: nat | n < m :: CrowdHost(n)
  }

  /** The first `m` of the crowd, all answered a millisecond in. */
  function Crowd(m: nat): map<string, Site>
    requires m <= MAX_SITES
  {
    map h | h in CrowdHosts(m) :: ANSWERED_AT_ONE
  }

  lemma HostsOneMore(m: nat)
    requires m < MAX_SITES
    ensures CrowdHost(m) !in CrowdHosts(m) && CrowdHosts(m + 1) == CrowdHosts(m) + {CrowdHost(m)}
  {
    forall n: nat | n < m ensures CrowdHost(n) != CrowdHost(m) { CrowdIsDistinct(n, m); }
  }

  lemma CrowdOneMore(m: nat)
    requires m < MAX_SITES
    ensures Crowd(m + 1) == Crowd(m)[CrowdHost(m) := ANSWERED_AT_ONE]
  {
    HostsOneMore(m);
  }

  lemma CountsOneMore(hosts: set<string>, more: set<string>, host: string)
    requires host !in hosts && more == hosts + {host}
    ensures |more| == |hosts| + 1
  {
  }

  lemma {:induction false} HostsCount(m: nat)
    requires m <= MAX_SITES
    ensures |CrowdHosts(m)| == m
  {
    if m == 0 {
      assert CrowdHosts(m) == {};
    } else {
      var n := m - 1;
      HostsCount(n);
      assert CrowdHost(n) !in CrowdHosts(n) && CrowdHosts(m) == CrowdHosts(n) + {CrowdHost(n)} by { HostsOneMore(n); }
      CountsOneMore(CrowdHosts(n), CrowdHosts(m), CrowdHost(n));
    }
  }

  lemma CrowdCounts(m: nat)
    requires m <= MAX_SITES
    ensures |Crowd(m)| == m
  {
    HostsCount(m);
    assert Crowd(m).Keys == CrowdHosts(m) && |Crowd(m).Keys| == |Crowd(m)|;
  }

  lemma CrowdHolds(m: nat, h: string)
    requires m <= MAX_SITES && h in Crowd(m)
    ensures Crowd(m)[h] == ANSWERED_AT_ONE && h != "site" && PlainHost(h)
  {
    var n: nat :| n < m && h == CrowdHost(n);
    CrowdIsPlain(n);
  }

  lemma CrowdLacksTheSite(m: nat)
    requires m <= MAX_SITES
    ensures "site" !in Crowd(m)
  {
    if "site" in Crowd(m) { CrowdHolds(m, "site"); }
  }

  /** The site told at the start beside the first `m` of the crowd. */
  function CrowdLog(m: nat): Log
    requires m <= MAX_SITES
  {
    Log(Some(0), Crowd(m)["site" := Site(Some(0), None)])
  }

  function CrowdEvent(k: nat): Event
    requires k <= MAX_SITES + 1
  {
    if k == 0 then Tell("site", false, 0)
    else if k <= MAX_SITES then Answer(CrowdHost(k - 1), 1)
    else Tell("site", false, SITE_NOTICE_GAP_MS)
  }

  function CrowdLogs(k: nat): Log
    requires k <= MAX_SITES + 1
  {
    if k == 0 then EMPTY
    else if k <= MAX_SITES then CrowdLog(k - 1)
    else Log(Some(0), Crowd(MAX_SITES))
  }

  lemma CrowdLogIsBigger(m: nat)
    requires m <= MAX_SITES
    ensures |CrowdLog(m).sites| == m + 1
  {
    CrowdCounts(m);
    CrowdLacksTheSite(m);
  }

  lemma CrowdStarts()
    ensures Step(EMPTY, CrowdEvent(0), CrowdLogs(1)) && Due(EMPTY, "site", false, 0)
  {
    NamesArePlain();
    CrowdLogIsBigger(0);
    assert Crowd(0) == map[];
    assert Uncapped(EMPTY, CrowdEvent(0)) == CrowdLog(0);
  }

  lemma CrowdLogOneMore(m: nat)
    requires m < MAX_SITES
    ensures CrowdHost(m) !in CrowdLog(m).sites
    ensures CrowdLog(m + 1) == CrowdLog(m).(sites := CrowdLog(m).sites[CrowdHost(m) := ANSWERED_AT_ONE])
  {
    CrowdIsPlain(m);
    assert CrowdHost(m) !in Crowd(m) by { HostsOneMore(m); }
    CrowdOneMore(m);
  }

  lemma AnsweringANewHost(log: Log, host: string)
    requires PlainHost(host) && host !in log.sites
    ensures Uncapped(log, Answer(host, 1)) == log.(sites := log.sites[host := ANSWERED_AT_ONE])
  {
  }

  lemma CrowdGrows(k: nat)
    requires 1 <= k <= MAX_SITES
    ensures Uncapped(CrowdLogs(k), CrowdEvent(k)) == CrowdLog(k)
  {
    CrowdLogOneMore(k - 1);
    CrowdIsPlain(k - 1);
    AnsweringANewHost(CrowdLog(k - 1), CrowdHost(k - 1));
  }

  lemma CrowdStep(k: nat)
    requires 1 <= k < MAX_SITES
    ensures Step(CrowdLogs(k), CrowdEvent(k), CrowdLogs(k + 1))
  {
    CrowdGrows(k);
    CrowdLogIsBigger(k);
  }

  /** The last of the crowd meets the cap, and the site told first is the one cut out. */
  lemma CrowdCuts()
    ensures Step(CrowdLogs(MAX_SITES), CrowdEvent(MAX_SITES), CrowdLogs(MAX_SITES + 1))
  {
    var before, after := CrowdLog(MAX_SITES).sites, Crowd(MAX_SITES);
    CrowdGrows(MAX_SITES);
    CrowdLogIsBigger(MAX_SITES);
    CrowdCounts(MAX_SITES);
    CrowdLacksTheSite(MAX_SITES);
    assert AtLeast(before, 1) == after.Keys && |after.Keys| == |after|;
    assert AtLeast(before, 2) == {};
    assert IsFloor(before, 1);
    assert Kept(before, after);
  }

  /** What telling the site again makes of the log, before the cap. */
  function CrowdTold(): Log {
    Log(Some(SITE_NOTICE_GAP_MS), Crowd(MAX_SITES)["site" := Site(Some(SITE_NOTICE_GAP_MS), None)])
  }

  lemma CrowdIsDue()
    ensures var log := CrowdLogs(MAX_SITES + 1);
            Due(log, "site", false, SITE_NOTICE_GAP_MS) && Uncapped(log, CrowdEvent(MAX_SITES + 1)) == CrowdTold()
  {
    var log := CrowdLogs(MAX_SITES + 1);
    NamesArePlain();
    CrowdLacksTheSite(MAX_SITES);
    var kept := ForgetStale(log.(shown := Some(SITE_NOTICE_GAP_MS)), SITE_NOTICE_GAP_MS);
    assert kept.sites == Crowd(MAX_SITES);
  }

  lemma CrowdToldTies()
    ensures |CrowdTold().sites| == MAX_SITES + 1
    ensures AtLeast(CrowdTold().sites, 1) == CrowdTold().sites.Keys && AtLeast(CrowdTold().sites, 2) == {"site"}
  {
    CrowdCounts(MAX_SITES);
    CrowdLacksTheSite(MAX_SITES);
  }

  /** With the site gone from the log it is told again, and some outcome of the cap follows. */
  lemma CrowdTellsAgain() returns (last: Log)
    ensures var log := CrowdLogs(MAX_SITES + 1);
            Due(log, "site", false, SITE_NOTICE_GAP_MS) && Step(log, CrowdEvent(MAX_SITES + 1), last)
  {
    var before := CrowdTold();
    CrowdIsDue();
    CrowdToldTies();
    assert |before.sites.Keys| == |before.sites|;
    assert IsFloor(before.sites, 1);
    var sites := AnOutcomeThatDropsTheNewest(before.sites, 1);
    last := before.(sites := sites);
  }

  lemma CrowdSteps(k: nat)
    requires k <= MAX_SITES
    ensures Step(CrowdLogs(k), CrowdEvent(k), CrowdLogs(k + 1))
  {
    if k == 0 {
      CrowdStarts();
    } else if k < MAX_SITES {
      CrowdStep(k);
    } else {
      CrowdCuts();
    }
  }

  lemma CrowdIsClocked(events: seq<Event>)
    requires |events| == MAX_SITES + 2 && forall k :: 0 <= k < |events| ==> events[k] == CrowdEvent(k)
    ensures Clocked(events)
  {
  }

  lemma CrowdRuns(last: Log, events: seq<Event>, logs: seq<Log>)
    requires Step(CrowdLogs(MAX_SITES + 1), CrowdEvent(MAX_SITES + 1), last)
    requires |events| == MAX_SITES + 2 && forall k :: 0 <= k < |events| ==> events[k] == CrowdEvent(k)
    requires |logs| == MAX_SITES + 3 && forall k :: 0 <= k < |events| ==> logs[k] == CrowdLogs(k)
    requires logs[MAX_SITES + 2] == last
    ensures IsRun(events, logs)
  {
    CrowdIsClocked(events);
    forall i | 0 <= i < |events| ensures Step(logs[i], events[i], logs[i + 1]) {
      assert events[i] == CrowdEvent(i) && logs[i] == CrowdLogs(i);
      if i <= MAX_SITES { CrowdSteps(i); }
    }
  }

  /** It can happen: of one notice and more than a thousand answers about other sites, the cap
      cuts the site out, and it is told again after half an hour, unanswered. */
  lemma ASiteIsToldTwiceInADay() returns (events: seq<Event>, logs: seq<Log>, j: nat)
    ensures IsRun(events, logs) && logs[0] == EMPTY && 0 < j < |events|
    ensures WentOut(events, logs, 0) && WentOut(events, logs, j)
    ensures events[0].host == events[j].host && events[j].at - events[0].at < SAME_SITE_GAP_MS
    ensures forall k :: 0 <= k < |events| && events[k].Answer? ==> events[k].host != events[0].host
  {
    var last := CrowdTellsAgain();
    events := seq(MAX_SITES + 2, k requires 0 <= k < MAX_SITES + 2 => CrowdEvent(k));
    logs := seq(MAX_SITES + 2, k requires 0 <= k < MAX_SITES + 2 => CrowdLogs(k)) + [last];
    j := MAX_SITES + 1;
    CrowdRuns(last, events, logs);
    assert events[0] == CrowdEvent(0) && events[j] == CrowdEvent(j) && logs[j] == CrowdLogs(j);
    CrowdStarts();
    CrowdAnswersOthers(events);
  }

  lemma CrowdAnswersOthers(events: seq<Event>)
    requires |events| == MAX_SITES + 2 && forall k :: 0 <= k < |events| ==> events[k] == CrowdEvent(k)
    ensures forall k :: 0 <= k < |events| && events[k].Answer? ==> events[k].host != events[0].host
  {
    forall k | 0 <= k < |events| && events[k].Answer? ensures events[k].host != events[0].host {
      assert events[k] == CrowdEvent(k);
      CrowdIsPlain(k - 1);
    }
  }
}
