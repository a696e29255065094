/** The feed as its history makes it: what was read and pushed, and what the user did about it.
    Which notices stand is said of that history alone. */
module FeedHistory {
  import opened Basics
  import opened NoticeFeed
  import Standing

  /** How each thing said is worded. */
  type Words = Standing.Said -> string

  /** The feed once each of `said` was posted, in order. */
  function PostAll(f: Feed, said: seq<Standing.Said>, texts: Words): Feed {
    if said == [] then f
    else
      var last := said[|said| - 1];
      Post(PostAll(f, said[..|said| - 1], texts), Standing.KindOf(last), texts(last))
  }

  lemma PostAllOne(f: Feed, s: Standing.Said, texts: Words)
    ensures PostAll(f, [s], texts) == Post(f, Standing.KindOf(s), texts(s))
  {
    assert [s][..0] == [];
    assert PostAll(f, [s][..0], texts) == f;
  }

  lemma {:induction false} PostAllMore(f: Feed, a: seq<Standing.Said>, b: seq<Standing.Said>, texts: Words)
    ensures PostAll(f, a + b, texts) == PostAll(PostAll(f, a, texts), b, texts)
  {
    if b == [] {
      assert a + b == a;
    } else {
      PostAllMore(f, a, b[..|b| - 1], texts);
      assert (a + b)[..|a + b| - 1] == a + b[..|b| - 1];
    }
  }

  /** What was posted since `a` is what was posted up to `b`, and then since. */
  lemma PostedSince(f: Feed, g: Feed, a: seq<Standing.Said>, b: seq<Standing.Said>, c: seq<Standing.Said>, texts: Words)
    requires a <= b <= c && g == PostAll(f, b[|a|..], texts)
    ensures PostAll(g, c[|b|..], texts) == PostAll(f, c[|a|..], texts)
  {
    PostAllMore(f, b[|a|..], c[|b|..], texts);
    assert b[|a|..] + c[|b|..] == c[|a|..];
  }

  // ── Histories ────────────────────────────────────────────────────────────

  /** What the user may do about the feed: choose, ask, dismiss. */
  type Edit = e: Event | !e.Posted? && !e.Muted? witness DismissedAll

  datatype Happening = Heard(reading: Standing.Reading) | Did(edit: Edit)

  function ReadingsOf(h: seq<Happening>): seq<Standing.Reading> {
    if h == [] then []
    else
      var last := h[|h| - 1];
      ReadingsOf(h[..|h| - 1]) + if last.Heard? then [last.reading] else []
  }

  /** Everything a history had to say. */
  function SaidBy(h: seq<Happening>): seq<Standing.Said> { Standing.Spoken(ReadingsOf(h)) }

  function NewsOf(h: seq<Happening>, e: Happening): seq<Standing.Said> {
    if e.Heard? then Standing.News(ReadingsOf(h), e.reading) else []
  }

  function FeedStep(f: Feed, h: seq<Happening>, e: Happening, texts: Words): Feed {
    match e
    case Did(edit) => After(f, edit)
    case Heard(reading) => if reading.MutesAre? then Mute(f, reading.muted) else PostAll(f, NewsOf(h, e), texts)
  }

  /** The feed a history leads to: news is posted, a mute takes down what it silences, and the
      user does as they like. */
  function FeedOf(h: seq<Happening>, texts: Words): Feed {
    if h == [] then EMPTY
    else FeedStep(FeedOf(h[..|h| - 1], texts), h[..|h| - 1], h[|h| - 1], texts)
  }

  lemma SaidOneMore(h: seq<Happening>)
    requires h != []
    ensures var init, last := h[..|h| - 1], h[|h| - 1];
            SaidBy(h) == SaidBy(init) + NewsOf(init, last) && |NewsOf(init, last)| <= 1
  {
    var init, last := h[..|h| - 1], h[|h| - 1];
    if last.Heard? {
      var past := ReadingsOf(init);
      assert (past + [last.reading])[..|past|] == past;
      Standing.SplitNews(past, last.reading);
    } else {
      assert ReadingsOf(init) + [] == ReadingsOf(init);
      assert SaidBy(init) + [] == SaidBy(init);
    }
  }

  // ── What stands, said of the history alone ───────────────────────────────

  /** The notice under number `id`: the `id`-th thing said. */
  function NoticeOf(said: seq<Standing.Said>, id: nat, texts: Words): Notice
    requires 1 <= id <= |said|
  {
    Notice(id, Standing.KindOf(said[id - 1]), texts(said[id - 1]))
  }

  /** The event takes that notice down: a mute of its kind, or the user. */
  predicate Removes(e: Happening, n: Notice) {
    match e
    case Heard(reading) => reading.MutesAre? && Silenced(n, reading.muted)
    case Did(edit) => edit.DismissedAll? || (edit.Dismissed? && edit.id == n.id)
  }

  /** Number `id` was taken down after it was posted. */
  predicate Gone(h: seq<Happening>, id: nat, texts: Words) {
    h != [] &&
    var init, last := h[..|h| - 1], h[|h| - 1];
    Gone(init, id, texts) ||
    (1 <= id <= |SaidBy(init)| && Removes(last, NoticeOf(SaidBy(init), id, texts)))
  }

  /** The newer numbers nothing took down. */
  function NewerStanding(h: seq<Happening>, id: nat, texts: Words): set<nat> {
    set j: nat | id < j <= |SaidBy(h)| && !Gone(h, j, texts)
  }

  /** At some point as many newer ones stood as the feed keeps. */
  predicate PushedOut(h: seq<Happening>, id: nat, texts: Words) {
    h != [] &&
    (PushedOut(h[..|h| - 1], id, texts) ||
     (id <= |SaidBy(h)| && |NewerStanding(h, id, texts)| >= FEED_CAPACITY))
  }

  predicate StillStands(h: seq<Happening>, id: nat, texts: Words) {
    1 <= id <= |SaidBy(h)| && !Gone(h, id, texts) && !PushedOut(h, id, texts)
  }

  lemma {:induction false} OnlyTheSaidIsGone(h: seq<Happening>, id: nat, texts: Words)
    ensures Gone(h, id, texts) || PushedOut(h, id, texts) ==> id <= |SaidBy(h)|
  {
    if h != [] {
      OnlyTheSaidIsGone(h[..|h| - 1], id, texts);
      SaidOneMore(h);
    }
  }

  /** Where a newer notice was pushed out, an older one was. */
  lemma {:induction false} OlderGoFirst(h: seq<Happening>, a: nat, b: nat, texts: Words)
    requires a < b && PushedOut(h, b, texts)
    ensures PushedOut(h, a, texts)
  {
    if PushedOut(h[..|h| - 1], b, texts) {
      OlderGoFirst(h[..|h| - 1], a, b, texts);
    } else {
      SubsetSize(NewerStanding(h, b, texts), NewerStanding(h, a, texts));
    }
  }

  // ── The feed is what stands ──────────────────────────────────────────────

  function Ids(s: seq<Notice>): set<nat> { set i | 0 <= i < |s| :: s[i].id }

  lemma {:induction false} IdsCount(s: seq<Notice>)
    requires Rising(s)
    ensures |Ids(s)| == |s|
  {
    if s != [] {
      var init, last := s[..|s| - 1], s[|s| - 1];
      IdsCount(init);
      assert last.id !in Ids(init);
      IdsOneMore(s);
    }
  }

  lemma IdsOneMore(s: seq<Notice>)
    requires s != []
    ensures Ids(s) == Ids(s[..|s| - 1]) + {s[|s| - 1].id}
  {
    var init := s[..|s| - 1];
    forall id | id in Ids(init) ensures id in Ids(s) {
      var i :| 0 <= i < |init| && init[i].id == id;
      assert s[i].id == id;
    }
  }

  /** Every notice held is the one said under its number. */
  ghost predicate TellsTheSaid(f: Feed, said: seq<Standing.Said>, texts: Words) {
    f.count == |said| && Valid(f) &&
    forall i :: 0 <= i < |f.notices| ==> f.notices[i] == NoticeOf(said, f.notices[i].id, texts)
  }

  /** The numbers held are exactly those that still stand. */
  ghost predicate HoldsWhatStands(f: Feed, h: seq<Happening>, texts: Words) {
    forall id :: Has(f.notices, id) <==> StillStands(h, id, texts)
  }

  /** In the feed, what comes after a notice is what stands and is newer. */
  lemma NewerIsAfter(f: Feed, h: seq<Happening>, i: nat, texts: Words)
    requires TellsTheSaid(f, SaidBy(h), texts) && HoldsWhatStands(f, h, texts) && i < |f.notices|
    ensures |NewerStanding(h, f.notices[i].id, texts)| == |f.notices| - 1 - i
  {
    var id, after := f.notices[i].id, f.notices[i + 1..];
    assert Has(f.notices, id);
    forall j ensures j in NewerStanding(h, id, texts) <==> j in Ids(after) {
      if j in NewerStanding(h, id, texts) {
        if PushedOut(h, j, texts) { OlderGoFirst(h, id, j, texts); }
        assert Has(f.notices, j);
        var k :| 0 <= k < |f.notices| && f.notices[k].id == j;
        assert after[k - i - 1].id == j;
      }
      if j in Ids(after) {
        var k :| 0 <= k < |after| && after[k].id == j;
        assert f.notices[k + i + 1].id == j;
        assert Has(f.notices, j);
      }
    }
    IdsCount(after);
    assert NewerStanding(h, id, texts) == Ids(after);
  }

  // An event without news.

  lemma RemovalIsExact(f: Feed, h: seq<Happening>, e: Happening, n: Notice, texts: Words)
    requires NewsOf(h, e) == []
    ensures n in FeedStep(f, h, e, texts).notices <==> n in f.notices && !Removes(e, n)
  {
    match e
    case Heard(reading) => if reading.MutesAre? { MuteIsExact(f.notices, reading.muted, n); }
    case Did(edit) => if edit.Dismissed? { DismissIsExact(f, edit.id, n); }
  }

  lemma QuietStepIsValid(f: Feed, h: seq<Happening>, e: Happening, texts: Words)
    requires Valid(f) && NewsOf(h, e) == []
    ensures Valid(FeedStep(f, h, e, texts)) && FeedStep(f, h, e, texts).count == f.count
  {
    match e
    case Heard(reading) => if reading.MutesAre? { AfterIsValid(f, Muted(reading.muted)); }
    case Did(edit) => AfterIsValid(f, edit);
  }

  lemma QuietSaysNothing(h: seq<Happening>)
    requires h != [] && NewsOf(h[..|h| - 1], h[|h| - 1]) == []
    ensures SaidBy(h) == SaidBy(h[..|h| - 1])
  {
    SaidOneMore(h);
    assert SaidBy(h[..|h| - 1]) + [] == SaidBy(h[..|h| - 1]);
  }

  /** Without news nothing is pushed out; what stood stands unless it is taken down. */
  lemma QuietStands(h: seq<Happening>, id: nat, texts: Words)
    requires h != [] && NewsOf(h[..|h| - 1], h[|h| - 1]) == [] && 1 <= id <= |SaidBy(h[..|h| - 1])|
    ensures var init, last := h[..|h| - 1], h[|h| - 1];
            StillStands(h, id, texts) <==>
            StillStands(init, id, texts) && !Removes(last, NoticeOf(SaidBy(init), id, texts))
  {
    var init := h[..|h| - 1];
    QuietSaysNothing(h);
    SubsetSize(NewerStanding(h, id, texts), NewerStanding(init, id, texts));
  }

  lemma HasAsMember(f: Feed, said: seq<Standing.Said>, id: nat, texts: Words)
    requires TellsTheSaid(f, said, texts) && 1 <= id <= |said|
    ensures Has(f.notices, id) <==> NoticeOf(said, id, texts) in f.notices
  {
    if Has(f.notices, id) {
      var i :| 0 <= i < |f.notices| && f.notices[i].id == id;
      assert f.notices[i] == NoticeOf(said, f.notices[i].id, texts);
    }
  }

  lemma QuietTells(f: Feed, h: seq<Happening>, texts: Words)
    requires h != [] && NewsOf(h[..|h| - 1], h[|h| - 1]) == [] && TellsTheSaid(f, SaidBy(h[..|h| - 1]), texts)
    ensures TellsTheSaid(FeedStep(f, h[..|h| - 1], h[|h| - 1], texts), SaidBy(h), texts)
  {
    var init, last := h[..|h| - 1], h[|h| - 1];
    var g := FeedStep(f, init, last, texts);
    QuietSaysNothing(h);
    QuietStepIsValid(f, init, last, texts);
    forall i | 0 <= i < |g.notices| ensures g.notices[i] == NoticeOf(SaidBy(h), g.notices[i].id, texts) {
      RemovalIsExact(f, init, last, g.notices[i], texts);
      var k :| 0 <= k < |f.notices| && f.notices[k] == g.notices[i];
    }
  }

  lemma QuietHolds(f: Feed, h: seq<Happening>, id: nat, texts: Words)
    requires h != [] && NewsOf(h[..|h| - 1], h[|h| - 1]) == []
    requires TellsTheSaid(f, SaidBy(h[..|h| - 1]), texts) && HoldsWhatStands(f, h[..|h| - 1], texts)
    ensures Has(FeedStep(f, h[..|h| - 1], h[|h| - 1], texts).notices, id) <==> StillStands(h, id, texts)
  {
    var init, last := h[..|h| - 1], h[|h| - 1];
    var g := FeedStep(f, init, last, texts);
    QuietSaysNothing(h);
    QuietTells(f, h, texts);
    if 1 <= id <= |SaidBy(h)| {
      var n := NoticeOf(SaidBy(init), id, texts);
      HasAsMember(f, SaidBy(init), id, texts);
      HasAsMember(g, SaidBy(h), id, texts);
      RemovalIsExact(f, init, last, n, texts);
      QuietStands(h, id, texts);
    }
  }

  // An event with news.

  /** News takes nothing down, and gets the next number. */
  lemma NewsIsNext(h: seq<Happening>, id: nat, texts: Words)
    requires h != [] && |NewsOf(h[..|h| - 1], h[|h| - 1])| == 1
    ensures |SaidBy(h)| == |SaidBy(h[..|h| - 1])| + 1
    ensures Gone(h, id, texts) <==> Gone(h[..|h| - 1], id, texts)
  {
    SaidOneMore(h);
    assert h[|h| - 1].Heard? && !h[|h| - 1].reading.MutesAre?;
  }

  lemma NewsStandsItself(h: seq<Happening>, texts: Words)
    requires h != [] && |NewsOf(h[..|h| - 1], h[|h| - 1])| == 1
    ensures StillStands(h, |SaidBy(h)|, texts)
  {
    var id := |SaidBy(h)|;
    NewsIsNext(h, id, texts);
    OnlyTheSaidIsGone(h[..|h| - 1], id, texts);
    assert NewerStanding(h, id, texts) == {};
  }

  lemma OneMoreIsNewer(h: seq<Happening>, id: nat, texts: Words)
    requires h != [] && |NewsOf(h[..|h| - 1], h[|h| - 1])| == 1 && id <= |SaidBy(h[..|h| - 1])|
    ensures |NewerStanding(h, id, texts)| == |NewerStanding(h[..|h| - 1], id, texts)| + 1
  {
    var init, next := h[..|h| - 1], |SaidBy(h)|;
    NewsIsNext(h, next, texts);
    OnlyTheSaidIsGone(init, next, texts);
    forall j: nat | id < j <= next ensures Gone(h, j, texts) <==> Gone(init, j, texts) {
      NewsIsNext(h, j, texts);
    }
    assert NewerStanding(h, id, texts) == NewerStanding(init, id, texts) + {next};
  }

  /** News pushes out whatever has as many newer ones standing as the feed keeps, itself counted. */
  lemma NewsStands(h: seq<Happening>, id: nat, texts: Words)
    requires h != [] && |NewsOf(h[..|h| - 1], h[|h| - 1])| == 1 && id <= |SaidBy(h[..|h| - 1])|
    ensures var init := h[..|h| - 1];
            StillStands(h, id, texts) <==>
            StillStands(init, id, texts) && |NewerStanding(init, id, texts)| + 1 < FEED_CAPACITY
  {
    NewsIsNext(h, id, texts);
    OneMoreIsNewer(h, id, texts);
  }

  lemma PostedHas(f: Feed, about: About, text: string, id: nat)
    requires Valid(f)
    ensures var g := Post(f, about, text);
            Has(g.notices, id) <==>
            id == f.count + 1 || exists i :: 0 <= i < |f.notices| && f.notices[i].id == id && (i > 0 || |f.notices| < FEED_CAPACITY)
  {
    var g := Post(f, about, text);
    var n := Notice(f.count + 1, about, text);
    var all := f.notices + [n];
    var cut := if |all| > FEED_CAPACITY then 1 else 0;
    assert g.notices == all[cut..];
    if k :| 0 <= k < |g.notices| && g.notices[k].id == id {
      assert g.notices[k] == all[k + cut];
      if k + cut < |f.notices| { assert f.notices[k + cut].id == id; }
    }
    if i :| 0 <= i < |f.notices| && f.notices[i].id == id && (i > 0 || |f.notices| < FEED_CAPACITY) {
      assert g.notices[i - cut] == all[i];
    }
    assert g.notices[|f.notices| - cut] == n;
  }

  lemma PostTells(f: Feed, said: seq<Standing.Said>, s: Standing.Said, texts: Words)
    requires TellsTheSaid(f, said, texts)
    ensures TellsTheSaid(Post(f, Standing.KindOf(s), texts(s)), said + [s], texts)
  {
    var g := Post(f, Standing.KindOf(s), texts(s));
    PostIsValid(f, Standing.KindOf(s), texts(s));
    var all := f.notices + [NoticeOf(said + [s], |said| + 1, texts)];
    forall i | 0 <= i < |g.notices| ensures g.notices[i] == NoticeOf(said + [s], g.notices[i].id, texts) {
      DrainedIsPart(all);
      var k :| 0 <= k < |all| && all[k] == g.notices[i];
      if k < |f.notices| { assert f.notices[k] == NoticeOf(said, f.notices[k].id, texts); }
    }
  }

  lemma NewsHolds(f: Feed, h: seq<Happening>, id: nat, texts: Words)
    requires h != [] && |NewsOf(h[..|h| - 1], h[|h| - 1])| == 1
    requires TellsTheSaid(f, SaidBy(h[..|h| - 1]), texts) && HoldsWhatStands(f, h[..|h| - 1], texts)
    ensures var s := NewsOf(h[..|h| - 1], h[|h| - 1])[0];
            Has(Post(f, Standing.KindOf(s), texts(s)).notices, id) <==> StillStands(h, id, texts)
  {
    var init := h[..|h| - 1];
    var s := NewsOf(init, h[|h| - 1])[0];
    PostedHas(f, Standing.KindOf(s), texts(s), id);
    NewsIsNext(h, id, texts);
    NewsStandsItself(h, texts);
    if id <= f.count { NewsStands(h, id, texts); }
    if i :| 0 <= i < |f.notices| && f.notices[i].id == id {
      NewerIsAfter(f, init, i, texts);
    }
    assert StillStands(init, id, texts) <==> Has(f.notices, id);
  }

  lemma {:induction false} FeedFollows(h: seq<Happening>, texts: Words)
    ensures TellsTheSaid(FeedOf(h, texts), SaidBy(h), texts) && HoldsWhatStands(FeedOf(h, texts), h, texts)
  {
    if h != [] {
      var init, last := h[..|h| - 1], h[|h| - 1];
      var f := FeedOf(init, texts);
      FeedFollows(init, texts);
      SaidOneMore(h);
      if NewsOf(init, last) == [] {
        QuietTells(f, h, texts);
        forall id ensures Has(FeedOf(h, texts).notices, id) <==> StillStands(h, id, texts) { QuietHolds(f, h, id, texts); }
      } else {
        var s := NewsOf(init, last)[0];
        assert NewsOf(init, last) == [s];
        PostAllOne(f, s, texts);
        PostTells(f, SaidBy(init), s, texts);
        forall id ensures Has(FeedOf(h, texts).notices, id) <==> StillStands(h, id, texts) { NewsHolds(f, h, id, texts); }
      }
    }
  }

  /** Whatever was pushed, read, muted, dismissed and chosen: the feed has counted everything said,
      each notice in it is the one said under its number, in order, and a number is there exactly
      when nothing took it down since and two hundred newer ones never stood beside it. */
  lemma TheFeedTellsTheEdges(h: seq<Happening>, id: nat, texts: Words)
    ensures var f := FeedOf(h, texts);
            && f.count == |SaidBy(h)| && Rising(f.notices)
            && (forall i :: 0 <= i < |f.notices| ==>
                  1 <= f.notices[i].id <= |SaidBy(h)| && f.notices[i] == NoticeOf(SaidBy(h), f.notices[i].id, texts))
            && (Has(f.notices, id) <==>
                  1 <= id <= |SaidBy(h)| && !Gone(h, id, texts) && !PushedOut(h, id, texts))
  {
    FeedFollows(h, texts);
  }

  // ── Where the feed is simply the newest ──────────────────────────────────

  /** The feed is the newest of everything said, as many as it keeps, numbered as they were said. */
  ghost predicate TellsTheNewest(f: Feed, said: seq<Standing.Said>, texts: Words) {
    && f.count == |said|
    && |f.notices| == Min(|said|, FEED_CAPACITY)
    && forall i :: 0 <= i < |f.notices| ==> f.notices[i] == NoticeOf(said, |said| - |f.notices| + i + 1, texts)
  }

  /** None of the newest, as many as the feed keeps, was taken down. */
  ghost predicate NewestUntouched(h: seq<Happening>, texts: Words) {
    forall id: nat :: |SaidBy(h)| - FEED_CAPACITY < id <= |SaidBy(h)| ==> !Gone(h, id, texts)
  }

  predicate InRange(low: nat, j: nat, high: nat) { low < j <= high }

  function Between(low: nat, high: nat): set<nat> { set j: nat | j <= high && InRange(low, j, high) }

  lemma {:induction false} BetweenCounts(low: nat, high: nat)
    requires low <= high
    ensures |Between(low, high)| == high - low
  {
    if low == high {
      assert Between(low, high) == {};
    } else {
      BetweenCounts(low, high - 1);
      assert forall j :: InRange(low, j, high) <==> InRange(low, j, high - 1) || j == high;
      assert Between(low, high) == Between(low, high - 1) + {high};
    }
  }

  lemma {:induction false} TheNewestAreNotPushedOut(h: seq<Happening>, id: nat, texts: Words)
    requires |SaidBy(h)| < id + FEED_CAPACITY
    ensures !PushedOut(h, id, texts)
  {
    if h != [] {
      SaidOneMore(h);
      TheNewestAreNotPushedOut(h[..|h| - 1], id, texts);
      if id <= |SaidBy(h)| {
        BetweenCounts(id, |SaidBy(h)|);
        SubsetSize(NewerStanding(h, id, texts), Between(id, |SaidBy(h)|));
      }
    }
  }

  lemma TheRestIsPushedOut(h: seq<Happening>, id: nat, texts: Words)
    requires NewestUntouched(h, texts) && id + FEED_CAPACITY <= |SaidBy(h)|
    ensures PushedOut(h, id, texts)
  {
    var n := |SaidBy(h)|;
    BetweenCounts(n - FEED_CAPACITY, n);
    SubsetSize(Between(n - FEED_CAPACITY, n), NewerStanding(h, id, texts));
  }

  /** Rising numbers that fill an interval are the interval in order. */
  lemma {:induction false} RisingFromBelow(s: seq<Notice>, low: nat, i: nat)
    requires Rising(s) && i < |s| && forall k :: 0 <= k < |s| ==> low < s[k].id
    ensures s[i].id >= low + 1 + i
  {
    if i > 0 { RisingFromBelow(s, low, i - 1); }
  }

  lemma {:induction false} RisingFromAbove(s: seq<Notice>, high: nat, i: nat)
    requires Rising(s) && i < |s| && forall k :: 0 <= k < |s| ==> s[k].id <= high
    ensures s[i].id + (|s| - 1 - i) <= high
    decreases |s| - i
  {
    if i + 1 < |s| { RisingFromAbove(s, high, i + 1); }
  }

  lemma UntouchedIdsAreBetween(h: seq<Happening>, texts: Words)
    requires NewestUntouched(h, texts)
    ensures var n := |SaidBy(h)|; Ids(FeedOf(h, texts).notices) == Between(n - Min(n, FEED_CAPACITY), n)
  {
    var f, n := FeedOf(h, texts), |SaidBy(h)|;
    FeedFollows(h, texts);
    forall id: nat ensures id in Ids(f.notices) <==> id in Between(n - Min(n, FEED_CAPACITY), n) {
      assert id in Ids(f.notices) <==> Has(f.notices, id);
      if id + FEED_CAPACITY <= n { TheRestIsPushedOut(h, id, texts); } else { TheNewestAreNotPushedOut(h, id, texts); }
    }
  }

  lemma RisingFills(s: seq<Notice>, low: nat, high: nat, i: nat)
    requires Rising(s) && low <= high && Ids(s) == Between(low, high) && i < |s|
    ensures |s| == high - low && s[i].id == low + 1 + i
  {
    IdsCount(s);
    BetweenCounts(low, high);
    forall k | 0 <= k < |s| ensures low < s[k].id <= high {
      assert s[k].id in Ids(s);
      assert InRange(low, s[k].id, high);
    }
    RisingFromBelow(s, low, i);
    RisingFromAbove(s, high, i);
  }

  lemma FillsTheNewest(f: Feed, said: seq<Standing.Said>, low: nat, texts: Words)
    requires TellsTheSaid(f, said, texts) && low == |said| - Min(|said|, FEED_CAPACITY)
    requires Ids(f.notices) == Between(low, |said|)
    ensures TellsTheNewest(f, said, texts)
  {
    IdsCount(f.notices);
    BetweenCounts(low, |said|);
    forall i | 0 <= i < |f.notices| ensures f.notices[i] == NoticeOf(said, |said| - |f.notices| + i + 1, texts) {
      RisingFills(f.notices, low, |said|, i);
    }
  }

  lemma UntouchedTellsTheNewest(h: seq<Happening>, texts: Words)
    requires NewestUntouched(h, texts)
    ensures TellsTheNewest(FeedOf(h, texts), SaidBy(h), texts)
  {
    FeedFollows(h, texts);
    UntouchedIdsAreBetween(h, texts);
    FillsTheNewest(FeedOf(h, texts), SaidBy(h), |SaidBy(h)| - Min(|SaidBy(h)|, FEED_CAPACITY), texts);
  }

  /** The feed is simply the newest of everything said exactly when nothing took one of those
      down. */
  lemma TheNewestStandExactly(h: seq<Happening>, texts: Words)
    ensures TellsTheNewest(FeedOf(h, texts), SaidBy(h), texts) <==> NewestUntouched(h, texts)
  {
    var f, n := FeedOf(h, texts), |SaidBy(h)|;
    if TellsTheNewest(f, SaidBy(h), texts) {
      FeedFollows(h, texts);
      forall id: nat | n - FEED_CAPACITY < id <= n ensures !Gone(h, id, texts) {
        if id == 0 {
          NumberZeroIsNever(h, texts);
        } else {
          assert f.notices[|f.notices| - 1 - (n - id)].id == id;
          assert Has(f.notices, id);
        }
      }
    } else if NewestUntouched(h, texts) {
      UntouchedTellsTheNewest(h, texts);
    }
  }

  lemma {:induction false} NumberZeroIsNever(h: seq<Happening>, texts: Words)
    ensures !Gone(h, 0, texts)
  {
    if h != [] { NumberZeroIsNever(h[..|h| - 1], texts); }
  }
}
