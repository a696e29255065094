/** "To additional route": blocked destinations on offer, the question about one of them, and
    the one write it may lead to. */
module BlockRoute {
  import opened Basics

  const OFFERED_CAP: nat := 5
  const DESTINATION_MAX: nat := 254

  // ── Destinations ─────────────────────────────────────────────────────────

  /** Whether a rule routing the destination can answer a block of this reason. */
  predicate OffersRoute(reason: string) {
    reason != "route-unavailable" && reason != "ipv6-blocked" && reason != "dns-lockdown"
  }

  predicate Routable(destination: string) { destination != "" && Utf8Len(destination) <= DESTINATION_MAX }

  // ── The offered list ─────────────────────────────────────────────────────

  function Without(s: seq<string>, x: string): seq<string> {
    if s == [] then []
    else (if s[0] == x then [] else [s[0]]) + Without(s[1..], x)
  }

  function Take(s: seq<string>, n: nat): seq<string> { if |s| <= n then s else s[..n] }

  /** The newest first, each once, no more than fit. */
  function Offered(offered: seq<string>, destination: string, cap: nat): seq<string> {
    Take([destination] + Without(offered, destination), cap)
  }

  lemma {:induction false} WithoutMembers(s: seq<string>, x: string, y: string)
    ensures y in Without(s, x) <==> y in s && y != x
  {
    if s != [] {
      WithoutMembers(s[1..], x, y);
      assert s == [s[0]] + s[1..];
    }
  }

  lemma {:induction false} WithoutAbsent(s: seq<string>, x: string)
    requires x !in s
    ensures Without(s, x) == s
  {
    if s != [] {
      assert s[0] in s && s == [s[0]] + s[1..];
      WithoutAbsent(s[1..], x);
    }
  }

  lemma {:induction false} WithoutIsDistinct(s: seq<string>, x: string)
    requires Distinct(s)
    ensures Distinct(Without(s, x)) && |Without(s, x)| == |s| - if x in s then 1 else 0
  {
    if s != [] {
      var t := Without(s[1..], x);
      assert s == [s[0]] + s[1..];
      WithoutIsDistinct(s[1..], x);
      if s[0] == x {
        WithoutAbsent(s[1..], x);
      } else {
        WithoutMembers(s[1..], x, s[0]);
        assert s[0] !in t;
      }
    }
  }

  lemma {:induction false} WithoutConcat(a: seq<string>, b: seq<string>, x: string)
    ensures Without(a + b, x) == Without(a, x) + Without(b, x)
  {
    if a == [] {
      assert a + b == b;
    } else {
      assert (a + b)[1..] == a[1..] + b;
      WithoutConcat(a[1..], b, x);
    }
  }

  // ── The list as a function of the history ────────────────────────────────

  /** Each element at its first occurrence. */
  function FirstOccurrences(s: seq<string>): seq<string> {
    if s == [] then []
    else FirstOccurrences(s[..|s| - 1]) + if s[|s| - 1] in s[..|s| - 1] then [] else [s[|s| - 1]]
  }

  function Reversed(s: seq<string>): seq<string> {
    if s == [] then [] else [s[|s| - 1]] + Reversed(s[..|s| - 1])
  }

  lemma {:induction false} FirstOccurrencesMembers(s: seq<string>, x: string)
    ensures x in FirstOccurrences(s) <==> x in s
  {
    if s != [] {
      FirstOccurrencesMembers(s[..|s| - 1], x);
      assert s == s[..|s| - 1] + [s[|s| - 1]];
    }
  }

  lemma {:induction false} FirstOccurrencesDistinct(s: seq<string>)
    ensures Distinct(FirstOccurrences(s))
  {
    if s != [] {
      FirstOccurrencesDistinct(s[..|s| - 1]);
      FirstOccurrencesMembers(s[..|s| - 1], s[|s| - 1]);
    }
  }

  lemma {:induction false} FirstOccurrencesPrepend(x: string, s: seq<string>)
    ensures FirstOccurrences([x] + s) == [x] + Without(FirstOccurrences(s), x)
  {
    if s == [] {
      assert [x] + s == [x];
    } else {
      var init, last := s[..|s| - 1], s[|s| - 1];
      FirstOccurrencesPrepend(x, init);
      assert ([x] + s)[..|s|] == [x] + init;
      FirstOccurrencesMembers(init, last);
      WithoutConcat(FirstOccurrences(init), if last in init then [] else [last], x);
      PrependedAtEnd(x, init, last);
    }
  }

  lemma PrependedAtEnd(x: string, init: seq<string>, last: string)
    ensures last in [x] + init <==> last == x || last in init
    ensures Without([last], x) == if last == x then [] else [last]
  {
    assert [last][1..] == [];
  }

  /** Cutting the list before or after an arrival comes to the same. */
  lemma CutOnceOrTwice(all: seq<string>, x: string, cap: nat)
    requires Distinct(all) && cap > 0
    ensures Offered(Take(all, cap), x, cap) == Offered(all, x, cap)
  {
    if |all| > cap {
      var head, rest := all[..cap], all[cap..];
      assert all == head + rest;
      WithoutConcat(head, rest, x);
      WithoutIsDistinct(head, x);
      assert [x] + Without(all, x) == ([x] + Without(head, x)) + Without(rest, x);
    }
  }

  /** The list any run of arrivals leads to. */
  function OfferedBy(history: seq<string>, cap: nat): seq<string> {
    if history == [] then []
    else Offered(OfferedBy(history[..|history| - 1], cap), history[|history| - 1], cap)
  }

  /** The offered list is the first distinct destinations of the history, read backwards. */
  lemma {:induction false} OffersAreTheMostRecent(history: seq<string>, cap: nat)
    requires cap > 0
    ensures OfferedBy(history, cap) == Take(FirstOccurrences(Reversed(history)), cap)
  {
    if history != [] {
      var init, last := history[..|history| - 1], history[|history| - 1];
      OffersAreTheMostRecent(init, cap);
      FirstOccurrencesDistinct(Reversed(init));
      CutOnceOrTwice(FirstOccurrences(Reversed(init)), last, cap);
      FirstOccurrencesPrepend(last, Reversed(init));
    }
  }

  // ── The question and the write ───────────────────────────────────────────

  datatype State = State(
    offered: seq<string>,
    asking: Option<string>,
    askedFrom: Option<nat>,     // the feed notice the question was asked from
    busy: bool,
    pending: seq<string>,       // writes sent and not answered
    connected: bool)

  const START := State([], None, None, false, [], false)

  datatype Event =
    | Blocked(destination: string, reason: string)
    | AskedNewest
    | AskedAbout(destination: string, reason: string, notice: nat)
    | Answered(yes: bool)
    | Replied               // the write was answered, well or not
    | Lost                  // the job came to nothing and sent no reply
    | Linked(connected: bool)

  function Offer(s: State, destination: string, reason: string): State {
    var d := Trim(destination, IsSpace);
    if !Routable(d) || !OffersRoute(reason) then s
    else s.(offered := Offered(s.offered, d, OFFERED_CAP))
  }

  predicate MayAsk(s: State, destination: string, reason: string) {
    && !s.busy && s.asking.None? && s.connected
    && Routable(Trim(destination, IsSpace)) && (reason != "" ==> OffersRoute(reason))
  }

  function AskAbout(s: State, destination: string, reason: string, from: Option<nat>): State {
    if MayAsk(s, destination, reason) then s.(asking := Some(Trim(destination, IsSpace)), askedFrom := from) else s
  }

  function Answer(s: State, yes: bool): State {
    if s.asking.None? then s
    else
      var closed := s.(asking := None, askedFrom := None);
      if yes && !s.connected then closed
      else if yes then
        closed.(offered := Without(s.offered, s.asking.value), busy := true, pending := s.pending + [s.asking.value])
      else closed.(offered := Without(s.offered, s.asking.value))
  }

  function After(s: State, e: Event): State {
    match e
    case Blocked(destination, reason) => Offer(s, destination, reason)
    case AskedNewest => if s.offered == [] then s else AskAbout(s, s.offered[0], "", None)
    case AskedAbout(destination, reason, notice) => AskAbout(s, destination, reason, Some(notice))
    case Answered(yes) => Answer(s, yes)
    case Replied => if s.pending == [] then s else s.(busy := false, pending := s.pending[1..])
    case Lost => if s.pending == [] then s else s.(pending := s.pending[1..])
    case Linked(connected) => s.(connected := connected)
  }

  function Run(s: State, events: seq<Event>): State
    decreases |events|
  {
    if events == [] then s else Run(After(s, events[0]), events[1..])
  }

  ghost predicate Valid(s: State) {
    && Distinct(s.offered) && |s.offered| <= OFFERED_CAP
    && (forall i :: 0 <= i < |s.offered| ==> Routable(s.offered[i]))
    && (s.asking.Some? ==> Routable(s.asking.value) && !s.busy)
    && |s.pending| <= 1
    && (s.pending != [] ==> s.busy)
  }

  lemma WithoutKeepsOffers(offered: seq<string>, x: string)
    requires Distinct(offered) && |offered| <= OFFERED_CAP
    requires forall i :: 0 <= i < |offered| ==> Routable(offered[i])
    ensures Distinct(Without(offered, x)) && |Without(offered, x)| <= OFFERED_CAP
    ensures forall i :: 0 <= i < |Without(offered, x)| ==> Routable(Without(offered, x)[i])
    ensures x !in Without(offered, x)
  {
    WithoutIsDistinct(offered, x);
    WithoutMembers(offered, x, x);
    var t := Without(offered, x);
    forall i | 0 <= i < |t| ensures Routable(t[i]) {
      WithoutMembers(offered, x, t[i]);
    }
  }

  lemma OfferedKeepsOffers(offered: seq<string>, d: string)
    requires Distinct(offered) && |offered| <= OFFERED_CAP && Routable(d)
    requires forall i :: 0 <= i < |offered| ==> Routable(offered[i])
    ensures var t := Offered(offered, d, OFFERED_CAP);
            && Distinct(t) && |t| <= OFFERED_CAP && t[0] == d
            && forall i :: 0 <= i < |t| ==> Routable(t[i])
  {
    WithoutKeepsOffers(offered, d);
    assert Distinct([d] + Without(offered, d));
  }

  lemma AfterIsValid(s: State, e: Event)
    requires Valid(s)
    ensures Valid(After(s, e))
  {
    match e
    case Blocked(destination, reason) =>
      if Routable(Trim(destination, IsSpace)) { OfferedKeepsOffers(s.offered, Trim(destination, IsSpace)); }
    case Answered(yes) =>
      if s.asking.Some? { WithoutKeepsOffers(s.offered, s.asking.value); }
    case _ =>
  }

  lemma {:induction false} RunIsValid(s: State, events: seq<Event>)
    requires Valid(s)
    ensures Valid(Run(s, events))
    decreases |events|
  {
    if events != [] {
      AfterIsValid(s, events[0]);
      RunIsValid(After(s, events[0]), events[1..]);
    }
  }

  /** In every session the offers are distinct and at most five, no question is open while a
      write is out, and at most one write is out. */
  lemma SessionsKeepOneWriteOut(events: seq<Event>)
    ensures var s := Run(START, events);
            && Distinct(s.offered) && |s.offered| <= OFFERED_CAP
            && !(s.asking.Some? && s.busy)
            && |s.pending| <= 1
  {
    RunIsValid(START, events);
  }

  /** What an event puts on offer. */
  function PutNow(e: Event): seq<string> {
    if e.Blocked? && Routable(Trim(e.destination, IsSpace)) && OffersRoute(e.reason)
    then [Trim(e.destination, IsSpace)] else []
  }

  /** The destinations a session put on offer, in order. */
  function PutOnOffer(events: seq<Event>): seq<string> {
    if events == [] then [] else PutOnOffer(events[..|events| - 1]) + PutNow(events[|events| - 1])
  }

  lemma {:induction false} RunAppend(s: State, events: seq<Event>, e: Event)
    ensures Run(s, events + [e]) == After(Run(s, events), e)
    decreases |events|
  {
    if events == [] {
      assert [] + [e] == [e] && [e][1..] == [];
    } else {
      assert (events + [e])[1..] == events[1..] + [e];
      RunAppend(After(s, events[0]), events[1..], e);
    }
  }

  lemma StepOffers(s: State, e: Event, history: seq<string>)
    requires !e.Answered? && s.offered == OfferedBy(history, OFFERED_CAP)
    ensures After(s, e).offered == OfferedBy(history + PutNow(e), OFFERED_CAP)
  {
    if PutNow(e) == [] {
      assert history + PutNow(e) == history;
    } else {
      assert (history + PutNow(e))[..|history|] == history;
    }
  }

  lemma {:induction false} SessionOffers(events: seq<Event>)
    requires forall i :: 0 <= i < |events| ==> !events[i].Answered?
    ensures Run(START, events).offered == OfferedBy(PutOnOffer(events), OFFERED_CAP)
  {
    if events != [] {
      var init, e := events[..|events| - 1], events[|events| - 1];
      SessionOffers(init);
      assert events == init + [e];
      RunAppend(START, init, e);
      StepOffers(Run(START, init), e, PutOnOffer(init));
    }
  }

  /** Until a question is answered, the offers of a session are the most recent five. */
  lemma SessionOffersAreTheMostRecent(events: seq<Event>)
    requires forall i :: 0 <= i < |events| ==> !events[i].Answered?
    ensures Run(START, events).offered == OfferedBy(PutOnOffer(events), OFFERED_CAP)
    ensures Run(START, events).offered == Take(FirstOccurrences(Reversed(PutOnOffer(events))), OFFERED_CAP)
  {
    SessionOffers(events);
    OffersAreTheMostRecent(PutOnOffer(events), OFFERED_CAP);
  }

  /** A write that is never answered closes the matter: no question opens and nothing is
      written for the rest of the session. */
  lemma {:induction false} ALostWriteIsTheLast(s: State, events: seq<Event>)
    requires Valid(s) && s.busy && s.pending == []
    ensures var t := Run(s, events); t.busy && t.pending == [] && t.asking.None?
    decreases |events|
  {
    if events != [] {
      AfterIsValid(s, events[0]);
      ALostWriteIsTheLast(After(s, events[0]), events[1..]);
    }
  }

  /** A job came to nothing while its write was out. */
  ghost predicate LostAWrite(events: seq<Event>) {
    exists i :: 0 <= i < |events| && LostAt(events, i)
  }

  predicate LostAt(events: seq<Event>, i: nat)
    requires i < |events|
  {
    events[i].Lost? && Run(START, events[..i]).pending != []
  }

  lemma LostOneMore(events: seq<Event>, e: Event)
    ensures LostAWrite(events + [e]) <==> LostAWrite(events) || (e.Lost? && Run(START, events).pending != [])
  {
    var all := events + [e];
    assert all[..|events|] == events;
    assert LostAt(all, |events|) <==> e.Lost? && Run(START, events).pending != [];
    forall i | 0 <= i < |events| ensures LostAt(all, i) <==> LostAt(events, i) {
      assert all[..i] == events[..i];
    }
  }

  /** A step of a session: busy is a write that is out, or one that was lost. */
  lemma StepStaysBusy(s: State, e: Event, lost: bool)
    requires Valid(s) && (s.busy <==> s.pending != [] || lost) && (lost ==> s.pending == [])
    ensures var t, now := After(s, e), lost || (e.Lost? && s.pending != []);
            (t.busy <==> t.pending != [] || now) && (now ==> t.pending == [])
  {
  }

  lemma {:induction false} BusyExactly(events: seq<Event>)
    ensures var s := Run(START, events);
            && Valid(s) && (s.busy <==> s.pending != [] || LostAWrite(events))
            && (LostAWrite(events) ==> s.pending == [])
  {
    if events == [] {
      assert !LostAWrite(events);
    } else {
      var init, e := events[..|events| - 1], events[|events| - 1];
      assert events == init + [e];
      BusyExactly(init);
      RunAppend(START, init, e);
      AfterIsValid(Run(START, init), e);
      LostOneMore(init, e);
      StepStaysBusy(Run(START, init), e, LostAWrite(init));
    }
  }

  lemma {:induction false} RunOnward(s: State, a: seq<Event>, b: seq<Event>)
    ensures Run(s, a + b) == Run(Run(s, a), b)
    decreases |a|
  {
    if a == [] {
      assert a + b == b;
    } else {
      assert (a + b)[1..] == a[1..] + b;
      RunOnward(After(s, a[0]), a[1..], b);
    }
  }

  lemma OneStep(s: State, e: Event)
    ensures Run(s, [e]) == After(s, e)
  {
    assert [e][1..] == [];
  }

  lemma TwoSteps(s: State, e: Event, f: Event)
    ensures Run(s, [e, f]) == After(After(s, e), f)
  {
    assert [e, f][1..] == [f];
    OneStep(After(s, e), f);
  }

  lemma SiteIsRoutable()
    ensures Trim("site", IsSpace) == "site" && Routable("site")
  {
    assert TrimStart("site", IsSpace) == "site" && TrimEnd("site", IsSpace) == "site";
    assert Utf8Len("site") == 1 + Utf8Len("ite") && Utf8Len("ite") == 1 + Utf8Len("te");
    assert Utf8Len("te") == 1 + Utf8Len("e");
  }

  /** A session that lost nothing can still be asked: the write is answered, the open question
      is answered, and the link comes back. */
  lemma AnotherQuestionOpens(s: State) returns (later: seq<Event>)
    requires Valid(s) && (s.busy <==> s.pending != [])
    ensures Run(s, later).asking.Some?
  {
    var a, b := Replied, Answered(false);
    var t := Run(s, [a, b]);
    TwoSteps(s, a, b);
    assert !t.busy && t.asking.None?;
    var c, d := Linked(true), AskedAbout("site", "", 0);
    TwoSteps(t, c, d);
    SiteIsRoutable();
    later := [a, b] + [c, d];
    RunOnward(s, [a, b], [c, d]);
  }

  /** No question opens and nothing is written any more, whatever follows, exactly when a write
      was lost. */
  lemma ClosedForGoodExactly(events: seq<Event>)
    ensures (forall later :: var t := Run(Run(START, events), later); t.asking.None? && t.pending == []) <==>
            LostAWrite(events)
  {
    var s := Run(START, events);
    BusyExactly(events);
    if LostAWrite(events) {
      forall later ensures var t := Run(s, later); t.asking.None? && t.pending == [] { ALostWriteIsTheLast(s, later); }
    } else {
      var later := AnotherQuestionOpens(s);
      assert Run(s, later).asking.Some?;
    }
  }

  /** It can happen: the job of a confirmed write comes to nothing. */
  lemma AWriteCanBeLost() returns (events: seq<Event>)
    ensures LostAWrite(events)
  {
    var a, b := [Linked(true), AskedAbout("site", "", 0)], [Answered(true), Lost];
    events := a + b;
    TwoSteps(START, a[0], a[1]);
    SiteIsRoutable();
    var s := Run(START, a);
    assert s.asking == Some("site") && s.connected;
    RunAppend(START, a, b[0]);
    assert events[..3] == a + [b[0]];
    assert LostAt(events, 3);
  }

  /** What was answered "yes" while connected, in order: the question open at that moment. */
  function Confirmed(s: State, events: seq<Event>): seq<string>
    decreases |events|
  {
    if events == [] then []
    else
      ConfirmedNow(s, events[0]) + Confirmed(After(s, events[0]), events[1..])
  }

  /** How many writes a session ended: answered or lost. */
  function Ended(s: State, events: seq<Event>): nat
    decreases |events|
  {
    if events == [] then 0
    else
      EndedNow(s, events[0]) + Ended(After(s, events[0]), events[1..])
  }

  function ConfirmedNow(s: State, e: Event): seq<string> {
    if e.Answered? && e.yes && s.connected && s.asking.Some? then [s.asking.value] else []
  }

  function EndedNow(s: State, e: Event): nat {
    if (e.Replied? || e.Lost?) && s.pending != [] then 1 else 0
  }

  lemma StepWrites(s: State, e: Event)
    ensures EndedNow(s, e) <= |s.pending + ConfirmedNow(s, e)|
    ensures After(s, e).pending == (s.pending + ConfirmedNow(s, e))[EndedNow(s, e)..]
  {
    assert s.pending + [] == s.pending;
  }

  lemma QueueOnward(p: seq<string>, now: seq<string>, rest: seq<string>, d: nat, e: nat)
    requires d <= |p + now| && e <= |(p + now)[d..] + rest|
    ensures d + e <= |p + (now + rest)|
    ensures ((p + now)[d..] + rest)[e..] == (p + (now + rest))[d + e..]
  {
    assert p + (now + rest) == (p + now) + rest;
    assert ((p + now) + rest)[d..] == (p + now)[d..] + rest;
  }

  /** Every write was confirmed, once, and every confirmed one is written: what is still out
      is what was confirmed and has not ended. */
  lemma {:induction false} WritesAreTheConfirmed(s: State, events: seq<Event>)
    ensures Ended(s, events) <= |s.pending + Confirmed(s, events)|
    ensures Run(s, events).pending == (s.pending + Confirmed(s, events))[Ended(s, events)..]
    decreases |events|
  {
    if events == [] {
      assert s.pending + [] == s.pending;
    } else {
      var e, later := events[0], events[1..];
      var t := After(s, e);
      WritesAreTheConfirmed(t, later);
      StepWrites(s, e);
      QueueOnward(s.pending, ConfirmedNow(s, e), Confirmed(t, later), EndedNow(s, e), Ended(t, later));
    }
  }

  // ── The state, changed in place ──────────────────────────────────────────

  class BlockRouteState {
    var offered: seq<string>
    var asking: Option<string>
    var askedFrom: Option<nat>
    var busy: bool
    var pending: seq<string>
    var connected: bool

    ghost function View(): State
      reads this
    {
      State(offered, asking, askedFrom, busy, pending, connected)
    }

    constructor ()
      ensures View() == START
    {
      offered, asking, askedFrom, busy, pending, connected := [], None, None, false, [], false;
    }

    method OnBlocked(destination: string, reason: string)
      modifies this`offered
      ensures View() == After(old(View()), Blocked(destination, reason))
    {
      var d := Trim(destination, IsSpace);
      if d == "" || Utf8Len(d) > DESTINATION_MAX || !OffersRoute(reason) { return; }
      offered := Without(offered, d);
      offered := [d] + offered;
      if |offered| > OFFERED_CAP { offered := offered[..OFFERED_CAP]; }
    }

    method AskOne(destination: string, reason: string) returns (asked: bool)
      modifies this`asking, this`askedFrom
      ensures asked == MayAsk(old(View()), destination, reason)
      ensures View() == AskAbout(old(View()), destination, reason, None)
    {
      var d := Trim(destination, IsSpace);
      if busy || asking.Some? || !connected || d == "" || Utf8Len(d) > DESTINATION_MAX
         || (reason != "" && !OffersRoute(reason))
      {
        return false;
      }
      asking, askedFrom := Some(d), None;
      return true;
    }

    method AskNewest() returns (asked: bool)
      modifies this`asking, this`askedFrom
      ensures asked == (old(offered) != [] && MayAsk(old(View()), old(offered)[0], ""))
      ensures View() == After(old(View()), AskedNewest)
    {
      if offered == [] { return false; }
      asked := AskOne(offered[0], "");
    }

    /** From a feed notice: the notice is remembered, to be taken down once routed. */
    method AskFromFeed(destination: string, reason: string, notice: nat) returns (asked: bool)
      modifies this`asking, this`askedFrom
      ensures asked == MayAsk(old(View()), destination, reason)
      ensures View() == After(old(View()), AskedAbout(destination, reason, notice))
    {
      asked := AskOne(destination, reason);
      if asked { askedFrom := Some(notice); }
    }

    method OnAnswer(yes: bool) returns (closed: bool)
      modifies this
      ensures View() == After(old(View()), Answered(yes)) && closed == old(asking).Some?
    {
      if asking.None? { return false; }
      var destination := asking.value;
      asking, askedFrom := None, None;
      if yes && !connected { return true; }
      offered := Without(offered, destination);
      if yes {
        busy := true;
        pending := pending + [destination];
      }
      return true;
    }

    method OnReply()
      requires pending != []
      modifies this`busy, this`pending
      ensures View() == After(old(View()), Replied)
    {
      busy := false;
      pending := pending[1..];
    }
  }
}
