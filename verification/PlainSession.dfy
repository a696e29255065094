/** Line mode: every change is a new line. New notices are printed as they arrive, then the
    lines of the screen that were not on it before. */
module PlainSession {
  import opened Basics
  import opened NoticeFeed

  // ── Screen lines ─────────────────────────────────────────────────────────

  /** The lines of `now` that `old` has no more copies for, in order. */
  function Fresh(held: seq<string>, now: seq<string>): seq<string> {
    if now == [] then []
    else
      var init, line := now[..|now| - 1], now[|now| - 1];
      Fresh(held, init) + if multiset(init)[line] >= multiset(held)[line] then [line] else []
  }

  lemma OneMoreCopy(held: multiset<string>, init: multiset<string>, line: string)
    ensures (init + multiset{line}) - held ==
            (init - held) + if init[line] >= held[line] then multiset{line} else multiset{}
  {
  }

  /** What is printed is what the new screen has more of, copy for copy. */
  lemma {:induction false} FreshIsTheDifference(held: seq<string>, now: seq<string>)
    ensures multiset(Fresh(held, now)) == multiset(now) - multiset(held)
  {
    if now != [] {
      var init, line := now[..|now| - 1], now[|now| - 1];
      FreshIsTheDifference(held, init);
      assert now == init + [line];
      OneMoreCopy(multiset(held), multiset(init), line);
    }
  }

  /** Nothing is printed exactly when the new screen is the old one with lines moved or gone. */
  lemma NothingFreshExactlyWhenHeld(held: seq<string>, now: seq<string>)
    ensures Fresh(held, now) == [] <==> multiset(now) <= multiset(held)
  {
    FreshIsTheDifference(held, now);
    var more := multiset(now) - multiset(held);
    if Fresh(held, now) != [] {
      assert Fresh(held, now)[0] in multiset(Fresh(held, now));
    } else {
      assert forall line :: multiset(now)[line] <= multiset(held)[line] || line in more;
    }
  }

  /** The place of the first copy of `line`. */
  method Position(lines: seq<string>, line: string) returns (at: Option<nat>)
    ensures at.Some? ==> at.value < |lines| && lines[at.value] == line
    ensures at.None? <==> line !in lines
  {
    for i := 0 to |lines|
      invariant line !in lines[..i]
    {
      if lines[i] == line { return Some(i); }
    }
    at := None;
  }

  lemma FreshStep(held: seq<string>, now: seq<string>, i: nat)
    requires i < |now|
    ensures Fresh(held, now[..i + 1]) ==
            if now[i] in multiset(held) - multiset(now[..i]) then Fresh(held, now[..i])
            else Fresh(held, now[..i]) + [now[i]]
    ensures multiset(held) - multiset(now[..i + 1]) == multiset(held) - multiset(now[..i]) - multiset{now[i]}
  {
    assert now[..i + 1] == now[..i] + [now[i]] && now[..i + 1][..i] == now[..i];
  }

  /** A line still held is used up; any other is to be printed. */
  method UseUp(before: seq<string>, line: string) returns (rest: seq<string>, printed: bool)
    ensures printed <==> line !in multiset(before)
    ensures multiset(rest) == multiset(before) - multiset{line}
  {
    var at := Position(before, line);
    match at
    case Some(k) => rest, printed := SwapRemove(before, k), false;
    case None => rest, printed := before, true;
  }

  /** The last line takes the place of the one removed. */
  function SwapRemove(lines: seq<string>, i: nat): (r: seq<string>)
    requires i < |lines|
    ensures multiset(r) == multiset(lines) - multiset{lines[i]}
  {
    var last := lines[|lines| - 1];
    var init := lines[..|lines| - 1];
    assert lines == init + [last];
    if i == |lines| - 1 then init
    else
      var r := init[i := last];
      assert init == init[..i] + [init[i]] + init[i + 1..];
      assert r == init[..i] + [last] + init[i + 1..];
      r
  }

  // ── Notices ──────────────────────────────────────────────────────────────

  /** The notices of the feed numbered above `seen`. */
  function Above(notices: seq<Notice>, seen: nat): seq<Notice> {
    if notices == [] then []
    else
      var init, last := notices[..|notices| - 1], notices[|notices| - 1];
      Above(init, seen) + if last.id > seen then [last] else []
  }

  function Skip(len: nat, arrived: nat): nat { if arrived < len then len - arrived else 0 }

  /** What is printed: as many of the newest as have arrived since. */
  function Newest(notices: seq<Notice>, count: nat, seen: nat): seq<Notice> {
    notices[Skip(|notices|, if count > seen then count - seen else 0)..]
  }

  /** In a feed whose numbers rise, those above `seen` are the end of it. */
  lemma {:induction false} AboveIsASuffix(notices: seq<Notice>, seen: nat)
    requires Rising(notices)
    ensures |Above(notices, seen)| <= |notices|
    ensures Above(notices, seen) == notices[|notices| - |Above(notices, seen)|..]
    ensures forall i :: 0 <= i < |notices| ==>
              (notices[i].id > seen <==> i >= |notices| - |Above(notices, seen)|)
  {
    if notices != [] {
      var init, last := notices[..|notices| - 1], notices[|notices| - 1];
      AboveIsASuffix(init, seen);
      if last.id > seen {
        assert notices == init + [last];
      } else {
        forall i | 0 <= i < |init| ensures init[i].id <= seen { assert notices[i].id < last.id; }
        assert Above(init, seen) == [];
      }
    }
  }

  /** Rising numbers up to `count` run out: from place i on, no more than fit. */
  lemma {:induction false} RoomAbove(notices: seq<Notice>, count: nat, i: nat)
    requires Rising(notices) && Numbered(notices, count) && i < |notices|
    ensures notices[i].id + (|notices| - 1 - i) <= count
    decreases |notices| - i
  {
    if i + 1 < |notices| { RoomAbove(notices, count, i + 1); }
  }

  lemma AboveFits(f: Feed, seen: nat)
    requires Valid(f)
    ensures |Above(f.notices, seen)| <= if f.count > seen then f.count - seen else 0
  {
    AboveIsASuffix(f.notices, seen);
    var n := |Above(f.notices, seen)|;
    if n > 0 { RoomAbove(f.notices, f.count, |f.notices| - n); }
  }

  /** Every number given out since is still in the feed. */
  ghost predicate NoneGone(f: Feed, seen: nat) { forall id :: seen < id <= f.count ==> Has(f.notices, id) }

  /** The feed holds nothing from before. */
  ghost predicate NothingOlder(f: Feed, seen: nat) {
    forall i :: 0 <= i < |f.notices| ==> f.notices[i].id > seen
  }

  /** When none is gone, the last of the feed carry the last numbers. */
  lemma {:induction false} NoneGoneCounts(f: Feed, seen: nat, k: nat)
    requires Valid(f) && NoneGone(f, seen) && seen <= f.count && k < f.count - seen
    ensures k < |f.notices| && f.notices[|f.notices| - 1 - k].id == f.count - k
  {
    assert Has(f.notices, f.count - k);
    var i :| 0 <= i < |f.notices| && f.notices[i].id == f.count - k;
    RoomAbove(f.notices, f.count, i);
    if k > 0 { NoneGoneCounts(f, seen, k - 1); }
  }

  lemma NoneGoneIsAll(f: Feed, seen: nat)
    requires Valid(f) && NoneGone(f, seen) && seen <= f.count
    ensures |Above(f.notices, seen)| == f.count - seen
  {
    AboveIsASuffix(f.notices, seen);
    AboveFits(f, seen);
    if seen < f.count { NoneGoneCounts(f, seen, f.count - seen - 1); }
  }

  lemma {:induction false} AllAboveIsNoneGone(f: Feed, seen: nat, id: nat)
    requires Valid(f) && |Above(f.notices, seen)| == f.count - seen && seen < id <= f.count
    ensures Has(f.notices, id)
  {
    AboveIsASuffix(f.notices, seen);
    var first := |f.notices| - (f.count - seen);
    var i := first + (id - seen - 1);
    RoomAbove(f.notices, f.count, i);
    RoomBelow(f.notices, first, i);
    assert f.notices[i].id == id;
  }

  lemma {:induction false} RoomBelow(notices: seq<Notice>, first: nat, i: nat)
    requires Rising(notices) && first <= i < |notices|
    ensures notices[i].id >= notices[first].id + (i - first)
    decreases i
  {
    if first < i { RoomBelow(notices, first, i - 1); }
  }

  /** On any feed, what is printed is exactly what is new, unless a new notice was taken down
      while an older one stays: then an older one is printed in its place. The loop below never
      prints from such a feed. */
  lemma PrintsTheNewExactlyWhenNoneIsGone(f: Feed, seen: nat)
    requires Valid(f) && seen <= f.count
    ensures Newest(f.notices, f.count, seen) == Above(f.notices, seen) <==> NoneGone(f, seen) || NothingOlder(f, seen)
  {
    AboveIsASuffix(f.notices, seen);
    AboveFits(f, seen);
    NoneGoneByCount(f, seen);
    NothingOlderByCount(f, seen);
    assert |Newest(f.notices, f.count, seen)| ==
           if f.count - seen < |f.notices| then f.count - seen else |f.notices|;
  }

  lemma NoneGoneByCount(f: Feed, seen: nat)
    requires Valid(f) && seen <= f.count
    ensures NoneGone(f, seen) <==> |Above(f.notices, seen)| == f.count - seen
  {
    if |Above(f.notices, seen)| == f.count - seen {
      forall id | seen < id <= f.count ensures Has(f.notices, id) { AllAboveIsNoneGone(f, seen, id); }
    }
    if NoneGone(f, seen) { NoneGoneIsAll(f, seen); }
  }

  lemma NothingOlderByCount(f: Feed, seen: nat)
    requires Valid(f)
    ensures NothingOlder(f, seen) <==> |Above(f.notices, seen)| == |f.notices|
  {
    var n := |Above(f.notices, seen)|;
    assert n <= |f.notices| && forall i :: 0 <= i < |f.notices| ==>
             (f.notices[i].id > seen <==> i >= |f.notices| - n) by { AboveIsASuffix(f.notices, seen); }
    if n < |f.notices| { assert f.notices[0].id <= seen; }
  }

  // ── A session ────────────────────────────────────────────────────────────

  /** What a reply does to the feed before anything is posted. */
  type Edit = e: Event | !e.Posted? witness DismissedAll

  /** What the loop waits for. */
  datatype Incoming =
    | Arrived(                 // from the service: what the reply takes down, then what is posted
        edits: seq<Edit>, posts: seq<(About, string)>,
        opensAnother: bool)    // and whether it brought up another screen
    | Typed(changes: seq<Event>) // a line answered with the screen, or with the start in a new
                                 // language; it may dismiss, and loading a rule set may post
    | Helped                   // help, or a line nothing took

  function Posts(f: Feed, posts: seq<(About, string)>): Feed {
    if posts == [] then f
    else
      var last := posts[|posts| - 1];
      Post(Posts(f, posts[..|posts| - 1]), last.0, last.1)
  }

  function FeedAfter(f: Feed, e: Incoming): Feed {
    match e
    case Arrived(edits, posts, _) => Posts(Run(f, edits), posts)
    case Typed(changes) => Run(f, changes)
    case Helped => f
  }

  function FeedOf(start: Feed, events: seq<Incoming>): Feed {
    if events == [] then start else FeedAfter(FeedOf(start, events[..|events| - 1]), events[|events| - 1])
  }

  // The session read off its history alone.

  /** The notices some posts become, under the numbers that follow `count`. */
  function AsNotices(count: nat, posts: seq<(About, string)>): seq<Notice> {
    seq(|posts|, i requires 0 <= i < |posts| => Notice(count + 1 + i, posts[i].0, posts[i].1))
  }

  function PostedIn(changes: seq<Event>): nat {
    if changes == [] then 0 else (if changes[0].Posted? then 1 else 0) + PostedIn(changes[1..])
  }

  /** How many notices an event posts. */
  function NewOf(e: Incoming): nat {
    match e
    case Arrived(_, posts, _) => |posts|
    case Typed(changes) => PostedIn(changes)
    case Helped => 0
  }

  function CountOf(start: nat, events: seq<Incoming>): nat {
    if events == [] then start
    else CountOf(start, events[..|events| - 1]) + NewOf(events[|events| - 1])
  }

  /** What an event tells: its posts, the last two hundred of them, unless it opened another
      screen. */
  function ToldBy(count: nat, e: Incoming): seq<Notice> {
    if e.Arrived? && !e.opensAnother then Drained(AsNotices(count, e.posts)) else []
  }

  function ToldOf(start: nat, events: seq<Incoming>): seq<Notice> {
    if events == [] then []
    else
      var init := events[..|events| - 1];
      ToldOf(start, init) + ToldBy(CountOf(start, init), events[|events| - 1])
  }

  lemma {:induction false} ChangesCount(f: Feed, changes: seq<Event>)
    requires Valid(f)
    ensures Valid(Run(f, changes)) && Run(f, changes).count == f.count + PostedIn(changes)
    decreases |changes|
  {
    if changes != [] {
      AfterIsValid(f, changes[0]);
      ChangesCount(After(f, changes[0]), changes[1..]);
    }
  }

  lemma {:induction false} EditsPostNothing(edits: seq<Edit>)
    ensures PostedIn(edits) == 0
  {
    if edits != [] { EditsPostNothing(edits[1..]); }
  }

  lemma EditsKeepTheCount(f: Feed, edits: seq<Edit>)
    requires Valid(f)
    ensures Valid(Run(f, edits)) && Run(f, edits).count == f.count
  {
    ChangesCount(f, edits);
    EditsPostNothing(edits);
  }

  lemma DrainedTwice(all: seq<Notice>, n: Notice)
    ensures Drained(Drained(all) + [n]) == Drained(all + [n])
  {
  }

  lemma AsNoticesOneMore(count: nat, posts: seq<(About, string)>)
    requires posts != []
    ensures var init, last := posts[..|posts| - 1], posts[|posts| - 1];
            AsNotices(count, posts) == AsNotices(count, init) + [Notice(count + |posts|, last.0, last.1)]
  {
  }

  /** Posting one by one, with the oldest dropped each time, comes to dropping once. */
  lemma {:induction false} PostsAppend(f: Feed, posts: seq<(About, string)>)
    requires Valid(f)
    ensures var g := Posts(f, posts);
            && Valid(g) && g.count == f.count + |posts|
            && g.notices == Drained(f.notices + AsNotices(f.count, posts))
    decreases |posts|
  {
    if posts == [] {
      assert f.notices + AsNotices(f.count, posts) == f.notices;
    } else {
      var init, last := posts[..|posts| - 1], posts[|posts| - 1];
      var n := Notice(f.count + |posts|, last.0, last.1);
      PostsAppend(f, init);
      PostIsValid(Posts(f, init), last.0, last.1);
      AsNoticesOneMore(f.count, posts);
      DrainedTwice(f.notices + AsNotices(f.count, init), n);
      assert f.notices + AsNotices(f.count, posts) == f.notices + AsNotices(f.count, init) + [n];
    }
  }

  lemma DrainedTail(held: seq<Notice>, added: seq<Notice>)
    requires |held| <= FEED_CAPACITY
    ensures var kept := Drained(held + added); kept[Skip(|kept|, |added|)..] == Drained(added)
  {
    var all := held + added;
    if |all| <= FEED_CAPACITY {
      assert all[|held|..] == added;
    } else if |added| <= FEED_CAPACITY {
      assert all[|all| - FEED_CAPACITY..][FEED_CAPACITY - |added|..] == added;
    } else {
      assert all[|all| - FEED_CAPACITY..] == added[|added| - FEED_CAPACITY..];
    }
  }

  /** From a count seen up to date, what is printed after posts is what was posted and kept. */
  lemma PostsPrintOnce(f: Feed, posts: seq<(About, string)>)
    requires Valid(f)
    ensures var g := Posts(f, posts);
            Newest(g.notices, g.count, f.count) == Drained(AsNotices(f.count, posts))
  {
    PostsAppend(f, posts);
    DrainedTail(f.notices, AsNotices(f.count, posts));
  }

  lemma StepIsValid(f: Feed, e: Incoming)
    requires Valid(f)
    ensures Valid(FeedAfter(f, e)) && FeedAfter(f, e).count == f.count + NewOf(e)
  {
    match e
    case Arrived(edits, posts, _) =>
      EditsKeepTheCount(f, edits);
      PostsAppend(Run(f, edits), posts);
    case Typed(changes) => ChangesCount(f, changes);
    case Helped =>
  }

  lemma {:induction false} FeedIsValid(start: Feed, events: seq<Incoming>)
    requires Valid(start)
    ensures Valid(FeedOf(start, events)) && FeedOf(start, events).count == CountOf(start.count, events)
  {
    if events != [] {
      FeedIsValid(start, events[..|events| - 1]);
      StepIsValid(FeedOf(start, events[..|events| - 1]), events[|events| - 1]);
    }
  }

  lemma NewestIsTold(f: Feed, e: Incoming)
    requires Valid(f) && e.Arrived? && !e.opensAnother
    ensures Newest(FeedAfter(f, e).notices, FeedAfter(f, e).count, f.count) == ToldBy(f.count, e)
  {
    EditsKeepTheCount(f, e.edits);
    PostsPrintOnce(Run(f, e.edits), e.posts);
  }

  // What the history makes of the numbers.

  predicate Within(notices: seq<Notice>, low: nat, high: nat) {
    forall i :: 0 <= i < |notices| ==> low < notices[i].id <= high
  }

  lemma ToldByRises(count: nat, e: Incoming)
    ensures Rising(ToldBy(count, e)) && Within(ToldBy(count, e), count, count + NewOf(e))
  {
  }

  lemma RisingOnward(a: seq<Notice>, b: seq<Notice>, low: nat, mid: nat, high: nat)
    requires Rising(a) && Rising(b) && Within(a, low, mid) && Within(b, mid, high) && low <= mid <= high
    ensures Rising(a + b) && Within(a + b, low, high)
  {
    forall i, j | 0 <= i < j < |a + b| ensures (a + b)[i].id < (a + b)[j].id {
      assert (a + b)[i] == if i < |a| then a[i] else b[i - |a|];
      assert (a + b)[j] == if j < |a| then a[j] else b[j - |a|];
    }
  }

  /** In every session each notice is told at most once, in the order of the numbers. */
  lemma {:induction false} NoNoticeIsToldTwice(start: nat, events: seq<Incoming>)
    ensures Rising(ToldOf(start, events)) && Within(ToldOf(start, events), start, CountOf(start, events))
    ensures start <= CountOf(start, events)
  {
    if events != [] {
      var init, e := events[..|events| - 1], events[|events| - 1];
      NoNoticeIsToldTwice(start, init);
      ToldByRises(CountOf(start, init), e);
      RisingOnward(ToldOf(start, init), ToldBy(CountOf(start, init), e), start, CountOf(start, init), CountOf(start, events));
    }
  }

  /** An event whose posts are all told: it left the screen up, and no more than fit came. */
  predicate TellsAll(e: Incoming) {
    match e
    case Arrived(_, posts, opensAnother) => (opensAnother ==> posts == []) && |posts| <= FEED_CAPACITY
    case Typed(changes) => PostedIn(changes) == 0
    case Helped => true
  }

  /** Every notice of a session is told exactly when no typed line posts one, no event posts while
      it opens another screen, and none posts more than the feed keeps. */
  lemma {:induction false} EveryNoticeIsToldExactly(start: nat, events: seq<Incoming>)
    ensures |ToldOf(start, events)| <= CountOf(start, events) - start
    ensures |ToldOf(start, events)| == CountOf(start, events) - start <==>
            forall i :: 0 <= i < |events| ==> TellsAll(events[i])
  {
    if events != [] {
      var init, e := events[..|events| - 1], events[|events| - 1];
      EveryNoticeIsToldExactly(start, init);
      assert |ToldBy(CountOf(start, init), e)| == NewOf(e) <==> TellsAll(e);
      assert forall i :: 0 <= i < |init| ==> init[i] == events[i];
      if forall i :: 0 <= i < |init| ==> TellsAll(init[i]) {
        assert TellsAll(e) ==> forall i :: 0 <= i < |events| ==> TellsAll(events[i]);
      }
    }
  }

  lemma WithinOnward(a: seq<Notice>, b: seq<Notice>, n: nat, low: nat, mid: nat, high: nat)
    requires n <= |a| && Within(a[n..], low, mid) && Within(b, mid, high) && low <= mid <= high
    ensures a <= a + b && Within((a + b)[n..], low, high)
  {
    assert (a + b)[n..] == a[n..] + b;
  }

  lemma {:induction false} LaterIsToldLater(start: nat, first: Incoming, later: seq<Incoming>)
    ensures CountOf(start, [first] + later) >= start + NewOf(first)
    ensures ToldBy(start, first) <= ToldOf(start, [first] + later)
    ensures Within(ToldOf(start, [first] + later)[|ToldBy(start, first)|..],
                   start + NewOf(first), CountOf(start, [first] + later))
  {
    var all := [first] + later;
    if later == [] {
      assert all == [first] && [first][..0] == [];
      assert ToldOf(start, all) == ToldBy(start, first);
    } else {
      var sooner, e := [first] + later[..|later| - 1], later[|later| - 1];
      assert all[..|all| - 1] == sooner && all[|all| - 1] == e;
      LaterIsToldLater(start, first, later[..|later| - 1]);
      ToldByRises(CountOf(start, sooner), e);
      WithinOnward(ToldOf(start, sooner), ToldBy(CountOf(start, sooner), e), |ToldBy(start, first)|,
                   start + NewOf(first), CountOf(start, sooner), CountOf(start, all));
    }
  }

  /** It can happen in two ways: the first snapshot opens the setup and brings a notice, or a
      rule set loaded by a typed line does. The notice is in the feed and is never told, whatever
      comes after. */
  lemma ANoticeIsNeverTold(about: About, text: string, first: Incoming, later: seq<Incoming>)
    requires first == Arrived([], [(about, text)], true) || first == Typed([Posted(about, text)])
    ensures FeedAfter(EMPTY, first).notices == [Notice(1, about, text)]
    ensures !Has(ToldOf(0, [first] + later), 1)
  {
    OnePost(about, text, first);
    LaterIsToldLater(0, first, later);
    var told := ToldOf(0, [first] + later);
    assert told[0..] == told;
  }

  lemma OnePost(about: About, text: string, first: Incoming)
    requires first == Arrived([], [(about, text)], true) || first == Typed([Posted(about, text)])
    ensures FeedAfter(EMPTY, first).notices == [Notice(1, about, text)]
    ensures NewOf(first) == 1 && ToldBy(0, first) == []
  {
    assert EMPTY.notices + [Notice(1, about, text)] == [Notice(1, about, text)];
    if first.Arrived? {
      assert Run(EMPTY, first.edits) == EMPTY;
      assert first.posts[..0] == [] && Posts(EMPTY, first.posts[..0]) == EMPTY;
    } else {
      var change := first.changes[0];
      assert first.changes == [change] && [change][1..] == [] && change == Posted(about, text);
      assert PostedIn(first.changes) == 1 + PostedIn(first.changes[1..]);
      assert Run(EMPTY, first.changes) == Run(After(EMPTY, change), first.changes[1..]);
      assert After(EMPTY, change) == Post(EMPTY, about, text);
      assert FeedAfter(EMPTY, first) == Run(EMPTY, first.changes);
    }
  }

  // ── The session, printing ────────────────────────────────────────────────

  datatype Line = Told(notice: Notice) | Shown(text: string)

  class PlainSession {
    var out: seq<Line>
    /** What the user last saw of the screen. */
    var seen: seq<string>
    /** The notice count when notices were last printed. */
    var noticesSeen: nat

    constructor ()
      ensures out == [] && seen == [] && noticesSeen == 0
    {
      out, seen, noticesSeen := [], [], 0;
    }

    /** The screen as a whole: everything on it counts as seen. */
    method PrintScreen(count: nat, screen: seq<string>, summary: seq<string>)
      modifies this
      ensures seen == summary && noticesSeen == count
      ensures out == old(out) + AsShown(screen)
    {
      for i := 0 to |screen|
        invariant out == old(out) + AsShown(screen[..i])
        invariant seen == old(seen) && noticesSeen == old(noticesSeen)
      {
        assert screen[..i + 1] == screen[..i] + [screen[i]];
        AsShownOneMore(old(out), screen[..i], screen[i]);
        out := out + [Shown(screen[i])];
      }
      assert screen[..|screen|] == screen;
      seen, noticesSeen := summary, count;
    }

    method PrintNotices(notices: seq<Notice>, count: nat)
      modifies this`out, this`noticesSeen
      ensures noticesSeen == count
      ensures out == old(out) + AsTold(Newest(notices, count, old(noticesSeen)))
    {
      var arrived := if count > noticesSeen then count - noticesSeen else 0;
      var from := Skip(|notices|, arrived);
      for i := from to |notices|
        invariant out == old(out) + AsTold(notices[from..i])
      {
        assert notices[from..i + 1] == notices[from..i] + [notices[i]];
        AsToldOneMore(old(out), notices[from..i], notices[i]);
        out := out + [Told(notices[i])];
      }
      assert notices[from..|notices|] == notices[from..];
      noticesSeen := count;
    }

    method PrintChanged(now: seq<string>)
      modifies this`out, this`seen
      ensures seen == now
      ensures out == old(out) + AsShown(Fresh(old(seen), now))
    {
      var before := seen;
      ghost var lines: seq<string> := [];
      for i := 0 to |now|
        invariant multiset(before) == multiset(old(seen)) - multiset(now[..i])
        invariant lines == Fresh(old(seen), now[..i])
        invariant out == old(out) + AsShown(lines)
      {
        FreshStep(old(seen), now, i);
        AsShownOneMore(old(out), lines, now[i]);
        var rest, printed := UseUp(before, now[i]);
        before := rest;
        if printed {
          out := out + [Shown(now[i])];
          lines := lines + [now[i]];
        }
      }
      assert now[..|now|] == now;
      seen := now;
    }

    /** After a change from the service: new notices, then the lines that were not there. */
    method Changed(notices: seq<Notice>, count: nat, now: seq<string>)
      modifies this
      ensures seen == now && noticesSeen == count
      ensures out == old(out) + AsTold(Newest(notices, count, old(noticesSeen))) + AsShown(Fresh(old(seen), now))
    {
      PrintNotices(notices, count);
      PrintChanged(now);
    }
  }

  function AsTold(s: seq<Notice>): seq<Line> {
    if s == [] then [] else AsTold(s[..|s| - 1]) + [Told(s[|s| - 1])]
  }

  function AsShown(s: seq<string>): seq<Line> {
    if s == [] then [] else AsShown(s[..|s| - 1]) + [Shown(s[|s| - 1])]
  }

  lemma AsShownOneMore(out: seq<Line>, s: seq<string>, line: string)
    ensures out + AsShown(s + [line]) == out + AsShown(s) + [Shown(line)]
  {
    assert (s + [line])[..|s|] == s;
  }

  lemma AsToldOneMore(out: seq<Line>, s: seq<Notice>, n: Notice)
    ensures out + AsTold(s + [n]) == out + AsTold(s) + [Told(n)]
  {
    assert (s + [n])[..|s|] == s;
  }

  /** The notices among the lines, in order. */
  function Tolds(out: seq<Line>): seq<Notice> {
    if out == [] then []
    else
      var init, last := out[..|out| - 1], out[|out| - 1];
      Tolds(init) + if last.Told? then [last.notice] else []
  }

  lemma {:induction false} ToldsOfTold(out: seq<Line>, s: seq<Notice>)
    ensures Tolds(out + AsTold(s)) == Tolds(out) + s
    decreases |s|
  {
    if s == [] {
      assert out + AsTold(s) == out && Tolds(out) + s == Tolds(out);
    } else {
      var init, n := s[..|s| - 1], s[|s| - 1];
      ToldsOfTold(out, init);
      var before := out + AsTold(init);
      assert out + AsTold(s) == before + [Told(n)] && (before + [Told(n)])[..|before|] == before;
      assert Tolds(out) + s == Tolds(out) + init + [n];
    }
  }

  lemma {:induction false} ToldsOfShown(out: seq<Line>, s: seq<string>)
    ensures Tolds(out + AsShown(s)) == Tolds(out)
    decreases |s|
  {
    if s == [] {
      assert out + AsShown(s) == out;
    } else {
      ToldsOfShown(out, s[..|s| - 1]);
      var all := out + AsShown(s);
      assert all[..|all| - 1] == out + AsShown(s[..|s| - 1]);
    }
  }

  /** What the screen shows after each event: as a whole, and line by line. */
  type Screens = nat -> (seq<string>, seq<string>)

  /** One turn of the loop: the feed changes, and the session says what there is to say. */
  method Turn(session: PlainSession, feed: Feed, e: Incoming, screen: (seq<string>, seq<string>)) returns (after: Feed)
    requires Valid(feed) && session.noticesSeen == feed.count
    modifies session
    ensures after == FeedAfter(feed, e) && Valid(after) && session.noticesSeen == after.count
    ensures Tolds(session.out) == Tolds(old(session.out)) + ToldBy(feed.count, e)
  {
    after := FeedAfter(feed, e);
    StepIsValid(feed, e);
    if e.Arrived? && !e.opensAnother {
      NewestIsTold(feed, e);
      var told, shown := Newest(after.notices, after.count, feed.count), Fresh(session.seen, screen.1);
      ToldsOfTold(session.out, told);
      ToldsOfShown(session.out + AsTold(told), shown);
      session.Changed(after.notices, after.count, screen.1);
    } else if !e.Helped? {
      ToldsOfShown(session.out, screen.0);
      session.PrintScreen(after.count, screen.0, screen.1);
    }
  }

  /** Line mode from start to end, against whatever comes: exactly what the history says is told,
      each notice at most once. */
  method Session(start: Feed, events: seq<Incoming>, screens: Screens) returns (out: seq<Line>, feed: Feed)
    requires Valid(start)
    ensures feed == FeedOf(start, events)
    ensures Tolds(out) == ToldOf(start.count, events) && Rising(Tolds(out))
  {
    var session := new PlainSession();
    ToldsOfShown([], screens(0).0);
    session.PrintScreen(start.count, screens(0).0, screens(0).1);
    feed := start;
    for i := 0 to |events|
      invariant fresh(session) && Valid(feed) && session.noticesSeen == feed.count
      invariant feed == FeedOf(start, events[..i])
      invariant Tolds(session.out) == ToldOf(start.count, events[..i])
    {
      assert events[..i + 1][..i] == events[..i];
      FeedIsValid(start, events[..i]);
      feed := Turn(session, feed, events[i], screens(i + 1));
    }
    assert events[..|events|] == events;
    NoNoticeIsToldTwice(start.count, events);
    out := session.out;
  }
}
