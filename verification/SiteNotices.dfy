/** When the feed may say that a site does not open: the pacing rule, and the bounded log of
    what was told and answered that the rule is asked against. */
module SiteNotices {
  import opened Basics

  const MAX_SITES: nat := 1024
  const MAX_HOST_LEN: nat := 253
  const SITE_NOTICE_GAP_MS: int := 1_800_000
  const SAME_SITE_GAP_MS: int := 86_400_000

  /** A stamp in milliseconds, as wide as the file keeps it. */
  type Stamp = t: int | -0x8000_0000_0000_0000 <= t < 0x8000_0000_0000_0000

  /** The last stamp there is. */
  const LAST: Stamp := 0x7FFF_FFFF_FFFF_FFFF

  function WrappingSub(a: Stamp, b: Stamp): Stamp {
    var d := a - b;
    if d >= 0x8000_0000_0000_0000 then d - 0x1_0000_0000_0000_0000
    else if d < -0x8000_0000_0000_0000 then d + 0x1_0000_0000_0000_0000 else d
  }

  function SaturatingSub(a: Stamp, b: Stamp): Stamp {
    var d := a - b;
    if d >= 0x8000_0000_0000_0000 then 0x7FFF_FFFF_FFFF_FFFF
    else if d < -0x8000_0000_0000_0000 then -0x8000_0000_0000_0000 else d
  }

  datatype Site = Site(shown: Option<Stamp>, answered: Option<Stamp>)

  const BLANK := Site(None, None)

  function Latest(s: Site): Stamp {
    match (s.shown, s.answered)
    case (Some(a), Some(b)) => if a >= b then a else b
    case (Some(a), None) => a
    case (None, Some(b)) => b
    case (None, None) => 0
  }

  datatype Log = Log(shown: Option<Stamp>, sites: map<string, Site>)

  const EMPTY := Log(None, map[])

  // ── Hosts ────────────────────────────────────────────────────────────────

  predicate IsControl(c: char) { c as int < 0x20 || 0x7F <= c as int < 0xA0 }

  predicate PlainHost(host: string) {
    host != "" && Utf8Len(host) <= MAX_HOST_LEN && forall i :: 0 <= i < |host| ==> !IsControl(host[i])
  }

  /** What every log reachable from a file or a run looks like. */
  ghost predicate Valid(log: Log) {
    && |log.sites| <= MAX_SITES
    && Stamped(log)
  }

  ghost predicate Stamped(log: Log) {
    forall h :: h in log.sites ==> PlainHost(h) && log.sites[h] != BLANK
  }

  // ── The pacing rule ──────────────────────────────────────────────────────

  /** Whether `stamp` is at least `gap` behind `now`, or ahead of it. */
  predicate LongAgo(stamp: Option<Stamp>, now: Stamp, gap: int) {
    stamp.None? || stamp.value > now || WrappingSub(now, stamp.value) >= gap
  }

  predicate SiteNoticeDue(muted: bool, lastAny: Option<Stamp>, siteShown: Option<Stamp>, answered: bool, now: Stamp) {
    !muted && LongAgo(lastAny, now, SITE_NOTICE_GAP_MS) && (answered || LongAgo(siteShown, now, SAME_SITE_GAP_MS))
  }

  function SiteOf(log: Log, host: string): Site {
    if host in log.sites then log.sites[host] else BLANK
  }

  /** The last notice about the site was answered. */
  predicate WasAnswered(s: Site) {
    s.answered.Some? && (s.shown.None? || s.answered.value >= s.shown.value)
  }

  predicate Due(log: Log, host: string, muted: bool, now: Stamp) {
    SiteNoticeDue(muted, log.shown, SiteOf(log, host).shown, WasAnswered(SiteOf(log, host)), now)
  }

  /** The wait as the rule words it, on integers that do not wrap. */
  predicate Waits(stamp: Option<Stamp>, now: Stamp, gap: int) {
    stamp.Some? && stamp.value <= now < stamp.value + gap
  }

  /** A stamp holds a notice back exactly as long as the rule says, or for good once it lies
      so far back that the subtraction wraps. */
  lemma LongAgoIsTheRule(stamp: Option<Stamp>, now: Stamp, gap: int)
    requires 0 < gap <= SAME_SITE_GAP_MS
    ensures (LongAgo(stamp, now, gap) <==> !Waits(stamp, now, gap)) <==>
            (stamp.Some? ==> now - stamp.value < 0x8000_0000_0000_0000)
  {
  }

  // ── Eviction ─────────────────────────────────────────────────────────────

  function AtLeast(sites: map<string, Site>, f: int): set<string> {
    set h | h in sites && Latest(sites[h]) >= f
  }

  /** `f` is the stamp of the last site that still has a place, counted from the newest. */
  ghost predicate IsFloor(sites: map<string, Site>, f: int) {
    |AtLeast(sites, f)| >= MAX_SITES && |AtLeast(sites, f + 1)| < MAX_SITES
  }

  lemma FloorIsUnique(sites: map<string, Site>, f: int, g: int)
    requires IsFloor(sites, f) && IsFloor(sites, g)
    ensures f == g
  {
    if f < g { SubsetSize(AtLeast(sites, g), AtLeast(sites, f + 1)); }
    if g < f { SubsetSize(AtLeast(sites, f), AtLeast(sites, g + 1)); }
  }

  /** What cutting down to the cap may leave: nothing below the floor, and which of the rest
      go is not determined. */
  ghost predicate Kept(before: map<string, Site>, after: map<string, Site>) {
    if |before| <= MAX_SITES then after == before
    else
      && |after| == MAX_SITES
      && (forall h :: h in after ==> h in before && after[h] == before[h])
      && exists f :: IsFloor(before, f) && after.Keys <= AtLeast(before, f)
  }

  /** No dropped site was touched after a kept one. */
  ghost predicate Newest(before: map<string, Site>, after: map<string, Site>) {
    forall h, d :: h in after && h in before && d in before && d !in after ==>
      Latest(before[d]) <= Latest(before[h])
  }

  function Restricted(sites: map<string, Site>, keys: set<string>): map<string, Site>
    requires keys <= sites.Keys
  {
    map h | h in keys :: sites[h]
  }

  lemma {:induction false} Choose<T>(all: set<T>, must: set<T>, n: nat) returns (chosen: set<T>)
    requires must <= all && |must| <= n <= |all|
    ensures must <= chosen <= all && |chosen| == n
    decreases |all|
  {
    if |all| == n {
      chosen := all;
    } else {
      assert all != must;
      var x :| x in all && x !in must;
      chosen := Choose(all - {x}, must, n);
    }
  }

  lemma {:induction false} FloorBetween(sites: map<string, Site>, low: int, high: int) returns (f: int)
    requires low < high && |AtLeast(sites, low)| >= MAX_SITES && |AtLeast(sites, high)| < MAX_SITES
    ensures IsFloor(sites, f)
    decreases high - low
  {
    if |AtLeast(sites, low + 1)| < MAX_SITES {
      f := low;
    } else {
      f := FloorBetween(sites, low + 1, high);
    }
  }

  /** Cutting down to the cap always comes to some outcome. */
  lemma SomeOutcome(sites: map<string, Site>) returns (after: map<string, Site>)
    ensures Kept(sites, after)
  {
    if |sites| <= MAX_SITES {
      after := sites;
    } else {
      assert AtLeast(sites, -0x8000_0000_0000_0000) == sites.Keys && |sites.Keys| == |sites|;
      assert AtLeast(sites, LAST + 1) == {};
      var f := FloorBetween(sites, -0x8000_0000_0000_0000, LAST + 1);
      var chosen := Choose(AtLeast(sites, f), {}, MAX_SITES);
      after := Restricted(sites, chosen);
      assert after.Keys == chosen && |after.Keys| == |after|;
    }
  }

  /** Above the cap, the newest sites are the ones sure to be kept exactly when the floor
      stamp is not shared past the cap, or nothing is newer than the floor. */
  lemma NewestIsKeptExactlyWithoutTies(sites: map<string, Site>, f: int)
    requires |sites| > MAX_SITES && IsFloor(sites, f)
    ensures (forall after :: Kept(sites, after) ==> Newest(sites, after)) <==>
            (|AtLeast(sites, f)| == MAX_SITES || AtLeast(sites, f + 1) == {})
  {
    if |AtLeast(sites, f)| == MAX_SITES || AtLeast(sites, f + 1) == {} {
      forall after | Kept(sites, after) ensures Newest(sites, after) {
        var g :| IsFloor(sites, g) && after.Keys <= AtLeast(sites, g);
        FloorIsUnique(sites, f, g);
        if |AtLeast(sites, f)| == MAX_SITES { SubsetSize(after.Keys, AtLeast(sites, f)); }
        forall h, d | h in after && d in sites && d !in after
          ensures Latest(sites[d]) <= Latest(sites[h])
        {
          assert h in AtLeast(sites, f);
          assert Latest(sites[d]) <= f by {
            if |AtLeast(sites, f)| == MAX_SITES { assert d !in AtLeast(sites, f); }
            else { assert d !in AtLeast(sites, f + 1); }
          }
        }
      }
    } else {
      var after := AnOutcomeThatDropsTheNewest(sites, f);
    }
  }

  lemma AnOutcomeThatDropsTheNewest(sites: map<string, Site>, f: int) returns (after: map<string, Site>)
    requires |sites| > MAX_SITES && IsFloor(sites, f)
    requires |AtLeast(sites, f)| > MAX_SITES && AtLeast(sites, f + 1) != {}
    ensures Kept(sites, after) && !Newest(sites, after)
  {
    var d :| d in AtLeast(sites, f + 1);
    var all := AtLeast(sites, f);
    SubsetSize(AtLeast(sites, f + 1), all);
    assert AtLeast(sites, f + 1) != all;
    var h :| h in all && h !in AtLeast(sites, f + 1);
    var chosen := Choose(all - {d}, {h}, MAX_SITES);
    after := Restricted(sites, chosen);
    assert after.Keys == chosen;
    assert h in after && d in sites && d !in after && Latest(sites[d]) > Latest(sites[h]);
  }

  // ── Counting stamps ──────────────────────────────────────────────────────

  function CountAtLeast(s: seq<int>, f: int): nat {
    if s == [] then 0 else (if s[0] >= f then 1 else 0) + CountAtLeast(s[1..], f)
  }

  lemma {:induction false} CountConcat(a: seq<int>, b: seq<int>, f: int)
    ensures CountAtLeast(a + b, f) == CountAtLeast(a, f) + CountAtLeast(b, f)
  {
    if a == [] {
      assert a + b == b;
    } else {
      CountConcat(a[1..], b, f);
      assert (a + b)[1..] == a[1..] + b;
    }
  }

  lemma {:induction false} CountBounds(s: seq<int>, f: int)
    ensures CountAtLeast(s, f) <= |s|
    ensures (forall i :: 0 <= i < |s| ==> s[i] >= f) ==> CountAtLeast(s, f) == |s|
    ensures (forall i :: 0 <= i < |s| ==> s[i] < f) ==> CountAtLeast(s, f) == 0
  {
    if s != [] { CountBounds(s[1..], f); }
  }

  predicate Descending(s: seq<int>) { forall i, j :: 0 <= i < j < |s| ==> s[i] >= s[j] }

  /** The element at place `k` of a descending list is the floor for `k + 1` places. */
  lemma CountDescending(s: seq<int>, k: nat)
    requires Descending(s) && k < |s|
    ensures CountAtLeast(s, s[k]) >= k + 1
    ensures CountAtLeast(s, s[k] + 1) <= k
  {
    CountUpTo(s, k);
    CountPast(s, k);
  }

  lemma CountUpTo(s: seq<int>, k: nat)
    requires Descending(s) && k < |s|
    ensures CountAtLeast(s, s[k]) >= k + 1
  {
    var head := s[..k + 1];
    assert s == head + s[k + 1..];
    assert forall i :: 0 <= i < |head| ==> head[i] >= s[k];
    CountConcat(head, s[k + 1..], s[k]);
    CountBounds(head, s[k]);
  }

  lemma CountPast(s: seq<int>, k: nat)
    requires Descending(s) && k < |s|
    ensures CountAtLeast(s, s[k] + 1) <= k
  {
    var tail := s[k..];
    assert s == s[..k] + tail;
    assert forall i :: 0 <= i < |tail| ==> tail[i] < s[k] + 1;
    CountConcat(s[..k], tail, s[k] + 1);
    CountBounds(s[..k], s[k] + 1);
    CountBounds(tail, s[k] + 1);
  }

  lemma CountInserted(r: seq<int>, at: nat, x: int, f: int)
    requires at <= |r|
    ensures CountAtLeast(r[..at] + [x] + r[at..], f) == CountAtLeast(r, f) + if x >= f then 1 else 0
  {
    assert r == r[..at] + r[at..];
    CountConcat(r[..at], r[at..], f);
    CountConcat(r[..at] + [x], r[at..], f);
    CountConcat(r[..at], [x], f);
    assert [x][1..] == [];
  }

  lemma CountAppended(s: seq<int>, x: int, f: int)
    ensures CountAtLeast(s + [x], f) == CountAtLeast(s, f) + if x >= f then 1 else 0
  {
    CountConcat(s, [x], f);
    assert [x][1..] == [];
  }

  method InsertDescending(r: seq<int>, x: int) returns (q: seq<int>)
    requires Descending(r)
    ensures Descending(q) && |q| == |r| + 1
    ensures forall f :: CountAtLeast(q, f) == CountAtLeast(r, f) + if x >= f then 1 else 0
  {
    var at := 0;
    while at < |r| && r[at] >= x
      invariant at <= |r| && forall i :: 0 <= i < at ==> r[i] >= x
    {
      at := at + 1;
    }
    q := r[..at] + [x] + r[at..];
    forall f ensures CountAtLeast(q, f) == CountAtLeast(r, f) + if x >= f then 1 else 0 {
      CountInserted(r, at, x, f);
    }
  }

  method SortDescending(s: seq<int>) returns (r: seq<int>)
    ensures Descending(r) && |r| == |s|
    ensures forall f :: CountAtLeast(r, f) == CountAtLeast(s, f)
  {
    r := [];
    for n := 0 to |s|
      invariant Descending(r) && |r| == n
      invariant forall f :: CountAtLeast(r, f) == CountAtLeast(s[..n], f)
    {
      r := InsertDescending(r, s[n]);
      assert s[..n + 1] == s[..n] + [s[n]];
      forall f ensures CountAtLeast(r, f) == CountAtLeast(s[..n + 1], f) {
        CountAppended(s[..n], s[n], f);
      }
    }
    assert s[..|s|] == s;
  }
}
