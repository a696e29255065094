/** The log as the terminal keeps it: changed in place by what is told and answered, and read
    from and written to one section of the settings file. */
module SiteNoticeLog {
  import opened Basics
  import opened SiteNotices

  const SHOWN := "shown"
  const SHOWN_SITE := "shown:"
  const ANSWERED_SITE := "answered:"

  /** A value of the section; only whole numbers are stamps. */
  datatype Value = Number(at: Stamp) | Other

  type Section = map<string, Value>

  // ── What each change means ───────────────────────────────────────────────

  /** Sites past their day hold nothing back any more. */
  predicate Fresh(s: Site, now: Stamp) {
    SaturatingSub(now, Latest(s)) < SAME_SITE_GAP_MS || Latest(s) > now
  }

  function ForgetStale(log: Log, now: Stamp): Log {
    log.(sites := map h | h in log.sites && Fresh(log.sites[h], now) :: log.sites[h])
  }

  function MarkShown(log: Log, host: string, now: Stamp): Log {
    log.(sites := log.sites[host := SiteOf(log, host).(shown := Some(now))])
  }

  function MarkAnswered(log: Log, host: string, now: Stamp): Log {
    log.(sites := log.sites[host := SiteOf(log, host).(answered := Some(now))])
  }

  /** The sites once `host` was told, before the cap. */
  function AfterTold(log: Log, host: string, now: Stamp): Log {
    var log' := log.(shown := Some(now));
    if PlainHost(host) then MarkShown(ForgetStale(log', now), host, now) else log'
  }

  function AfterAnswered(log: Log, host: string, now: Stamp): Log {
    if PlainHost(host) then MarkAnswered(log, host, now) else log
  }

  /** `after` is `before` cut down to the cap. */
  ghost predicate Capped(before: Log, after: Log) {
    after.shown == before.shown && Kept(before.sites, after.sites)
  }

  ghost predicate ToldTo(log: Log, host: string, now: Stamp, after: Log) {
    Capped(AfterTold(log, host, now), after)
  }

  ghost predicate AnsweredTo(log: Log, host: string, now: Stamp, after: Log) {
    Capped(AfterAnswered(log, host, now), after)
  }

  lemma CappedIsValid(before: Log, after: Log)
    requires Stamped(before) && Capped(before, after)
    ensures Valid(after)
  {
  }

  lemma ToldIsStamped(log: Log, host: string, now: Stamp)
    requires Stamped(log)
    ensures Stamped(AfterTold(log, host, now)) && Stamped(AfterAnswered(log, host, now))
  {
  }

  // ── The section ──────────────────────────────────────────────────────────

  function StampIn(section: Section, key: string): Option<Stamp> {
    if key in section && section[key].Number? then Some(section[key].at) else None
  }

  function SiteIn(section: Section, host: string): Site {
    Site(StampIn(section, SHOWN_SITE + host), StampIn(section, ANSWERED_SITE + host))
  }

  /** The host a key speaks of, when it is one of the two per-site keys. */
  function HostOf(key: string): Option<string> {
    if |key| >= 6 && key[..6] == SHOWN_SITE then Some(key[6..])
    else if |key| >= 9 && key[..9] == ANSWERED_SITE then Some(key[9..])
    else None
  }

  /** The hosts the section names with a stamp. */
  function HostsIn(section: Section): set<string> {
    set key | key in section && section[key].Number? && HostOf(key).Some? && PlainHost(HostOf(key).value)
            :: HostOf(key).value
  }

  function ReadSites(section: Section): map<string, Site> {
    map h | h in HostsIn(section) :: SiteIn(section, h)
  }

  /** What the section says, before the cap. */
  function Read(section: Section): Log { Log(StampIn(section, SHOWN), ReadSites(section)) }

  lemma KeyOf(host: string)
    ensures HostOf(SHOWN_SITE + host) == Some(host) && HostOf(ANSWERED_SITE + host) == Some(host)
    ensures SHOWN_SITE + host != ANSWERED_SITE + host
    ensures SHOWN_SITE + host != SHOWN && ANSWERED_SITE + host != SHOWN
  {
    var a, b := SHOWN_SITE + host, ANSWERED_SITE + host;
    assert a[..6] == SHOWN_SITE && a[6..] == host;
    assert b[..9] == ANSWERED_SITE && b[9..] == host;
    assert a[0] == 's' && b[0] == 'a' && b[..6][0] == 'a';
    assert SHOWN_SITE[0] == 's';
  }

  lemma HostOfKey(key: string, host: string)
    requires HostOf(key) == Some(host)
    ensures key == SHOWN_SITE + host || key == ANSWERED_SITE + host
  {
    if key[..6] == SHOWN_SITE {
      assert key == key[..6] + key[6..];
    } else {
      assert key == key[..9] + key[9..];
    }
  }

  lemma HostIsIn(section: Section, host: string)
    ensures host in HostsIn(section) <==> PlainHost(host) && SiteIn(section, host) != BLANK
  {
    KeyOf(host);
    if host in HostsIn(section) {
      var key :| key in section && section[key].Number? && HostOf(key) == Some(host);
      HostOfKey(key, host);
    }
  }

  lemma ReadIsStamped(section: Section)
    ensures Stamped(Read(section))
  {
    forall h | h in HostsIn(section) ensures PlainHost(h) && SiteIn(section, h) != BLANK {
      HostIsIn(section, h);
    }
  }

  /** One key more: what it adds to a log already read. */
  function ReadKey(log: Log, key: string, value: Value): Log {
    if value.Other? then log
    else if key == SHOWN then log.(shown := Some(value.at))
    else if HostOf(key).None? || !PlainHost(HostOf(key).value) then log
    else
      var host := HostOf(key).value;
      if key == SHOWN_SITE + host then MarkShown(log, host, value.at) else MarkAnswered(log, host, value.at)
  }

  lemma SiteReadsOneMore(seen: Section, key: string, value: Value, h: string)
    requires key !in seen
    ensures SiteIn(seen[key := value], h) ==
            if value.Other? || HostOf(key) != Some(h) then SiteIn(seen, h)
            else if key == SHOWN_SITE + h then SiteIn(seen, h).(shown := Some(value.at))
            else SiteIn(seen, h).(answered := Some(value.at))
  {
    KeyOf(h);
    if HostOf(key) == Some(h) { HostOfKey(key, h); }
  }

  lemma SiteOfRead(section: Section, h: string)
    requires PlainHost(h)
    ensures SiteOf(Read(section), h) == SiteIn(section, h)
  {
    HostIsIn(section, h);
  }

  lemma ReadsOneMoreAt(seen: Section, key: string, value: Value, h: string)
    requires key !in seen
    ensures h in ReadSites(seen[key := value]) <==> h in ReadKey(Read(seen), key, value).sites
    ensures h in ReadSites(seen[key := value]) ==>
              ReadSites(seen[key := value])[h] == ReadKey(Read(seen), key, value).sites[h]
  {
    KeyOf(h);
    HostIsIn(seen, h);
    HostIsIn(seen[key := value], h);
    SiteReadsOneMore(seen, key, value, h);
    if PlainHost(h) { SiteOfRead(seen, h); }
    if HostOf(key) == Some(h) { HostOfKey(key, h); }
    if key == SHOWN { assert HostOf(key).None?; }
  }

  lemma ReadsOneMore(seen: Section, key: string, value: Value)
    requires key !in seen
    ensures Read(seen[key := value]) == ReadKey(Read(seen), key, value)
  {
    var a, b := Read(seen[key := value]), ReadKey(Read(seen), key, value);
    forall h ensures h in a.sites <==> h in b.sites { ReadsOneMoreAt(seen, key, value, h); }
    forall h | h in a.sites ensures a.sites[h] == b.sites[h] { ReadsOneMoreAt(seen, key, value, h); }
    assert a.sites == b.sites;
    if HostOf(key).Some? { KeyOf(HostOf(key).value); HostOfKey(key, HostOf(key).value); }
  }

  /** The section that holds exactly the log's stamps. */
  ghost predicate Writes(log: Log, section: Section) {
    && StampIn(section, SHOWN) == log.shown
    && (forall h :: SiteIn(section, h) == SiteOf(log, h))
    && (forall key :: key in section ==>
          section[key].Number? && (key == SHOWN || (HostOf(key).Some? && HostOf(key).value in log.sites)))
  }

  function WriteSite(section: Section, host: string, site: Site): Section {
    var a := if site.shown.Some? then section[SHOWN_SITE + host := Number(site.shown.value)] else section;
    if site.answered.Some? then a[ANSWERED_SITE + host := Number(site.answered.value)] else a
  }

  lemma WrittenSite(section: Section, host: string, site: Site, h: string)
    requires SiteIn(section, host) == BLANK
    ensures SiteIn(WriteSite(section, host, site), h) == if h == host then site else SiteIn(section, h)
  {
    KeyOf(host);
    KeyOf(h);
    if h != host {
      assert HostOf(SHOWN_SITE + h) != HostOf(SHOWN_SITE + host);
      assert HostOf(ANSWERED_SITE + h) != HostOf(ANSWERED_SITE + host);
    }
  }

  lemma WritesOneMore(log: Log, section: Section, host: string, site: Site)
    requires Writes(log, section) && host !in log.sites && site != BLANK
    ensures Writes(log.(sites := log.sites[host := site]), WriteSite(section, host, site))
  {
    var wider, after := log.(sites := log.sites[host := site]), WriteSite(section, host, site);
    KeyOf(host);
    forall h ensures SiteIn(after, h) == SiteOf(wider, h) {
      assert SiteIn(section, h) == SiteOf(log, h);
      WrittenSite(section, host, site, h);
    }
  }

  /** Every log within its bounds can be written. */
  lemma {:induction false} SomethingWrites(log: Log) returns (section: Section)
    requires Stamped(log)
    ensures Writes(log, section)
    decreases log.sites.Keys
  {
    if h :| h in log.sites {
      var rest := log.(sites := log.sites - {h});
      var part := SomethingWrites(rest);
      WritesOneMore(rest, part, h, log.sites[h]);
      section := WriteSite(part, h, log.sites[h]);
      assert log.sites == rest.sites[h := log.sites[h]];
    } else {
      section := if log.shown.Some? then map[SHOWN := Number(log.shown.value)] else map[];
      forall host ensures SiteIn(section, host) == SiteOf(log, host) { KeyOf(host); }
    }
  }

  lemma WrittenHosts(log: Log, section: Section)
    requires Stamped(log) && Writes(log, section)
    ensures HostsIn(section) == log.sites.Keys
  {
    forall h ensures h in HostsIn(section) <==> h in log.sites {
      HostIsIn(section, h);
      assert SiteIn(section, h) == SiteOf(log, h);
    }
  }

  lemma WrittenReads(log: Log, section: Section)
    requires Stamped(log) && Writes(log, section)
    ensures Read(section) == log
  {
    WrittenHosts(log, section);
    forall h | h in log.sites ensures ReadSites(section)[h] == log.sites[h] {
      assert SiteIn(section, h) == SiteOf(log, h);
    }
    assert ReadSites(section).Keys == log.sites.Keys;
    assert ReadSites(section) == log.sites;
  }

  /** What was written reads back as the log it was written from. */
  lemma SectionRoundTrip(log: Log, section: Section, back: Log)
    requires Valid(log) && Writes(log, section) && Capped(Read(section), back)
    ensures back == log
  {
    WrittenReads(log, section);
  }

  /** One log is written in only one way. */
  lemma WrittenOneWay(log: Log, a: Section, b: Section)
    requires Writes(log, a) && Writes(log, b)
    ensures a == b
  {
    forall key | key in a || key in b ensures key in a && key in b && a[key] == b[key] {
      if key != SHOWN {
        var h := HostOf(key).value;
        HostOfKey(key, h);
        assert SiteIn(a, h) == SiteIn(b, h);
      }
    }
  }

  method Stamps(sites: map<string, Site>) returns (s: seq<int>)
    ensures |s| == |sites| && forall f :: CountAtLeast(s, f) == |AtLeast(sites, f)|
  {
    s := [];
    var todo := sites.Keys;
    ghost var done: map<string, Site> := map[];
    while todo != {}
      invariant todo <= sites.Keys
      invariant done == map h | h in sites && h !in todo :: sites[h]
      invariant |s| == |done| && forall f :: CountAtLeast(s, f) == |AtLeast(done, f)|
      decreases todo
    {
      var h :| h in todo;
      todo := todo - {h};
      forall f ensures CountAtLeast(s + [Latest(sites[h])], f) == |AtLeast(done[h := sites[h]], f)| {
        CountAppended(s, Latest(sites[h]), f);
        AtLeastOneMore(done, h, sites[h], f);
      }
      s := s + [Latest(sites[h])];
      done := done[h := sites[h]];
    }
    assert done == sites;
  }

  lemma AtLeastOneMore(sites: map<string, Site>, h: string, site: Site, f: int)
    requires h !in sites
    ensures |AtLeast(sites[h := site], f)| == |AtLeast(sites, f)| + if Latest(site) >= f then 1 else 0
  {
    assert AtLeast(sites[h := site], f) == AtLeast(sites, f) + if Latest(site) >= f then {h} else {};
  }

  // ── The log ──────────────────────────────────────────────────────────────

  class SiteNoticeLog {
    var shown: Option<Stamp>
    var sites: map<string, Site>

    ghost function View(): Log
      reads this
    {
      Log(shown, sites)
    }

    constructor ()
      ensures View() == EMPTY
    {
      shown, sites := None, map[];
    }

    /** Reads the section; a key or value it does not know is skipped. */
    constructor FromSection(section: Section)
      ensures Capped(Read(section), View()) && Valid(View())
    {
      shown, sites := None, map[];
      new;
      ghost var seen: Section := map[];
      var todo := section.Keys;
      while todo != {}
        invariant todo <= section.Keys
        invariant seen == map key | key in section && key !in todo :: section[key]
        invariant View() == Read(seen)
        decreases todo
      {
        var key :| key in todo;
        todo := todo - {key};
        seen := ReadNext(section, key, seen);
      }
      assert seen == section;
      ReadIsStamped(section);
      KeepNewest();
      CappedIsValid(Read(section), View());
    }

    method ReadNext(section: Section, key: string, ghost seen: Section) returns (ghost more: Section)
      requires key in section && key !in seen && View() == Read(seen)
      modifies this
      ensures more == seen[key := section[key]] && View() == Read(more)
    {
      more := seen[key := section[key]];
      ReadsOneMore(seen, key, section[key]);
      ReadOne(key, section[key]);
    }

    method ReadOne(key: string, value: Value)
      modifies this
      ensures View() == ReadKey(old(View()), key, value)
    {
      if value.Other? { return; }
      if HostOf(key).Some? {
        KeyOf(HostOf(key).value);
        HostOfKey(key, HostOf(key).value);
      }
      if key == SHOWN {
        shown := Some(value.at);
      } else if |key| >= 6 && key[..6] == SHOWN_SITE && PlainHost(key[6..]) {
        var host := key[6..];
        var site := if host in sites then sites[host] else BLANK;
        sites := sites[host := site.(shown := Some(value.at))];
      } else if |key| >= 9 && key[..9] == ANSWERED_SITE && PlainHost(key[9..]) {
        var host := key[9..];
        var site := if host in sites then sites[host] else BLANK;
        sites := sites[host := site.(answered := Some(value.at))];
      }
    }

    /** At most `MAX_SITES`, none of them below the stamp of the last that fits. */
    method KeepNewest()
      modifies this`sites
      ensures Kept(old(sites), sites)
    {
      if |sites| <= MAX_SITES { return; }
      var stamps := Stamps(sites);
      var sorted := SortDescending(stamps);
      var floor := sorted[MAX_SITES - 1];
      CountDescending(sorted, MAX_SITES - 1);
      assert CountAtLeast(stamps, floor) >= MAX_SITES && CountAtLeast(stamps, floor + 1) < MAX_SITES;
      ghost var before := sites;
      assert IsFloor(before, floor);
      sites := map h | h in sites && Latest(sites[h]) >= floor :: sites[h];
      assert sites.Keys == AtLeast(before, floor);
      while |sites| > MAX_SITES
        invariant |sites| >= MAX_SITES && sites.Keys <= AtLeast(before, floor)
        invariant forall h :: h in sites ==> h in before && sites[h] == before[h]
      {
        var host :| host in sites;
        ghost var keys := sites.Keys;
        sites := sites - {host};
        assert sites.Keys == keys - {host};
      }
    }

    method Told(host: string, now: Stamp)
      requires Valid(View())
      modifies this
      ensures ToldTo(old(View()), host, now, View()) && Valid(View())
    {
      ToldIsStamped(View(), host, now);
      shown := Some(now);
      if PlainHost(host) {
        sites := map h | h in sites && Fresh(sites[h], now) :: sites[h];
        var site := if host in sites then sites[host] else BLANK;
        sites := sites[host := site.(shown := Some(now))];
        assert View() == AfterTold(old(View()), host, now);
        KeepNewest();
      }
      CappedIsValid(AfterTold(old(View()), host, now), View());
    }

    method Answered(host: string, now: Stamp)
      requires Valid(View())
      modifies this
      ensures AnsweredTo(old(View()), host, now, View()) && Valid(View())
    {
      ToldIsStamped(View(), host, now);
      if PlainHost(host) {
        var site := if host in sites then sites[host] else BLANK;
        sites := sites[host := site.(answered := Some(now))];
        KeepNewest();
      }
      CappedIsValid(AfterAnswered(old(View()), host, now), View());
    }

    /** Tells, and says so, only when the rule lets it. */
    method Tell(host: string, muted: bool, now: Stamp) returns (told: bool)
      requires Valid(View())
      modifies this
      ensures told == Due(old(View()), host, muted, now)
      ensures if told then ToldTo(old(View()), host, now, View()) else View() == old(View())
      ensures Valid(View())
    {
      told := Due(Log(shown, sites), host, muted, now);
      if told { Told(host, now); }
    }

    method ToSection() returns (section: Section)
      requires Valid(View())
      ensures Writes(View(), section)
    {
      section := map[];
      if shown.Some? { section := section[SHOWN := Number(shown.value)]; }
      var todo := sites.Keys;
      ghost var done: map<string, Site> := map[];
      while todo != {}
        invariant todo <= sites.Keys
        invariant done == map h | h in sites && h !in todo :: sites[h]
        invariant Writes(Log(shown, done), section)
        decreases todo
      {
        var host :| host in todo;
        todo := todo - {host};
        WritesOneMore(Log(shown, done), section, host, sites[host]);
        done := done[host := sites[host]];
        if sites[host].shown.Some? {
          section := section[SHOWN_SITE + host := Number(sites[host].shown.value)];
        }
        if sites[host].answered.Some? {
          section := section[ANSWERED_SITE + host := Number(sites[host].answered.value)];
        }
      }
      assert done == sites;
    }
  }
}
