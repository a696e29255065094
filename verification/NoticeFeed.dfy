/** The notice feed: numbered as notices arrive, bounded, with one notice chosen. */
module NoticeFeed {
  import opened Basics

  /** How many notices the feed keeps; the oldest go first. */
  const FEED_CAPACITY: nat := 200

  /** What a notice is about: nothing, a kind the user may silence, or one subject. */
  datatype About = Nothing | Kind(slug: string) | Block(destination: string) | Site(host: string)

  datatype Notice = Notice(id: nat, about: About, text: string)

  datatype Feed = Feed(
    notices: seq<Notice>,      // oldest first
    count: nat,                // notices ever received
    selected: Option<nat>,     // the chosen notice by its number
    question: Option<nat>)     // the notice a question is open about

  const EMPTY := Feed([], 0, None, None)

  // ── Places ───────────────────────────────────────────────────────────────

  /** The place of number `id`, newest first. */
  function PlaceOf(notices: seq<Notice>, id: nat): (r: Option<nat>)
    ensures r.Some? ==> r.value < |notices| && notices[|notices| - 1 - r.value].id == id
  {
    if notices == [] then None
    else if notices[|notices| - 1].id == id then Some(0)
    else
      match PlaceOf(notices[..|notices| - 1], id)
      case None => None
      case Some(p) => Some(p + 1)
  }

  predicate Has(notices: seq<Notice>, id: nat) { exists i :: 0 <= i < |notices| && notices[i].id == id }

  lemma {:induction false} PlaceOfHas(notices: seq<Notice>, id: nat)
    ensures PlaceOf(notices, id).Some? <==> Has(notices, id)
  {
    if notices != [] {
      var init := notices[..|notices| - 1];
      PlaceOfHas(init, id);
      if i :| 0 <= i < |notices| && notices[i].id == id {
        if i < |init| { assert init[i].id == id; }
      }
    }
  }

  function ChosenAt(f: Feed): nat {
    if f.selected.None? || PlaceOf(f.notices, f.selected.value).None? then 0
    else PlaceOf(f.notices, f.selected.value).value
  }

  function AtPlace(notices: seq<Notice>, place: nat): Option<Notice> {
    if place < |notices| then Some(notices[|notices| - 1 - place]) else None
  }

  /** The notice the keys act on. */
  function Chosen(f: Feed): Option<Notice> { AtPlace(f.notices, ChosenAt(f)) }

  function Clamped(at: nat, n: nat): nat { if n == 0 then 0 else if at < n then at else n - 1 }

  // ── Changes ──────────────────────────────────────────────────────────────

  function Drained(notices: seq<Notice>): seq<Notice> {
    if |notices| > FEED_CAPACITY then notices[|notices| - FEED_CAPACITY..] else notices
  }

  function Post(f: Feed, about: About, text: string): Feed {
    f.(count := f.count + 1, notices := Drained(f.notices + [Notice(f.count + 1, about, text)]))
  }

  function ChooseAt(f: Feed, at: nat): Feed {
    match AtPlace(f.notices, Clamped(at, |f.notices|))
    case None => f.(selected := None)
    case Some(n) => f.(selected := Some(n.id))
  }

  function StepBy(f: Feed, delta: int): Feed {
    ChooseAt(f, if ChosenAt(f) + delta >= 0 then ChosenAt(f) + delta else 0)
  }

  function Without(notices: seq<Notice>, id: nat): seq<Notice> {
    if notices == [] then []
    else
      var init, last := notices[..|notices| - 1], notices[|notices| - 1];
      if last.id == id then Without(init, id) else Without(init, id) + [last]
  }

  function Dismiss(f: Feed, id: nat): Feed {
    match PlaceOf(f.notices, id)
    case None => f
    case Some(at) =>
      var g := f.(notices := Without(f.notices, id),
                  question := if f.question == Some(id) then None else f.question);
      if ChosenAt(f) == at then ChooseAt(g, at) else g
  }

  function DismissAll(f: Feed): Feed { f.(notices := [], selected := None, question := None) }

  predicate Silenced(n: Notice, muted: set<string>) { n.about.Kind? && n.about.slug in muted }

  function Audible(notices: seq<Notice>, muted: set<string>): seq<Notice> {
    if notices == [] then []
    else
      var init, last := notices[..|notices| - 1], notices[|notices| - 1];
      if Silenced(last, muted) then Audible(init, muted) else Audible(init, muted) + [last]
  }

  /** A notice of a kind now silenced leaves the feed. */
  function Mute(f: Feed, muted: set<string>): Feed { f.(notices := Audible(f.notices, muted)) }

  /** A line-mode command names a notice that is there. */
  function Name(f: Feed, id: nat): Feed {
    if PlaceOf(f.notices, id).Some? then f.(selected := Some(id)) else f
  }

  function Ask(f: Feed, id: nat): Feed {
    if PlaceOf(f.notices, id).Some? then f.(question := Some(id)) else f
  }

  // ── Runs ─────────────────────────────────────────────────────────────────

  datatype Event =
    | Posted(about: About, text: string)
    | Stepped(delta: int) | ChoseAt(at: nat) | Named(id: nat)
    | Asked(id: nat)
    | Dismissed(id: nat) | DismissedAll
    | Muted(kinds: set<string>)

  function After(f: Feed, e: Event): Feed {
    match e
    case Posted(about, text) => Post(f, about, text)
    case Stepped(delta) => StepBy(f, delta)
    case ChoseAt(at) => ChooseAt(f, at)
    case Named(id) => Name(f, id)
    case Asked(id) => Ask(f, id)
    case Dismissed(id) => Dismiss(f, id)
    case DismissedAll => DismissAll(f)
    case Muted(kinds) => Mute(f, kinds)
  }

  function Run(f: Feed, events: seq<Event>): Feed
    decreases |events|
  {
    if events == [] then f else Run(After(f, events[0]), events[1..])
  }

  /** Numbers rise through the feed, none above the count, and the feed is bounded. */
  ghost predicate Valid(f: Feed) {
    && |f.notices| <= FEED_CAPACITY
    && Rising(f.notices) && Numbered(f.notices, f.count)
    && (f.selected.Some? ==> f.selected.value <= f.count)
    && (f.question.Some? ==> f.question.value <= f.count)
  }

  predicate Rising(notices: seq<Notice>) {
    forall i, j :: 0 <= i < j < |notices| ==> notices[i].id < notices[j].id
  }

  predicate Numbered(notices: seq<Notice>, count: nat) {
    forall i :: 0 <= i < |notices| ==> 1 <= notices[i].id <= count
  }

  /** Only removals happened. */
  ghost predicate Part(part: seq<Notice>, whole: seq<Notice>) {
    |part| <= |whole| && forall i :: 0 <= i < |part| ==> part[i] in whole
  }

  lemma PartGrows(part: seq<Notice>, init: seq<Notice>, last: Notice)
    requires Part(part, init)
    ensures Part(part, init + [last]) && Part(part + [last], init + [last])
  {
    forall i | 0 <= i < |part| ensures part[i] in init + [last] { assert part[i] in init; }
    assert (init + [last])[|init|] == last;
  }

  lemma PartRises(part: seq<Notice>, init: seq<Notice>, last: Notice)
    requires Part(part, init) && Rising(part) && Rising(init + [last])
    ensures Rising(part + [last])
  {
    forall i | 0 <= i < |part| ensures part[i].id < last.id {
      assert part[i] in init;
      var j :| 0 <= j < |init| && init[j] == part[i];
      assert (init + [last])[j].id < (init + [last])[|init|].id;
    }
  }

  lemma {:induction false} WithoutRises(notices: seq<Notice>, id: nat)
    ensures Part(Without(notices, id), notices)
    ensures Rising(notices) ==> Rising(Without(notices, id))
  {
    if notices != [] {
      var init, last := notices[..|notices| - 1], notices[|notices| - 1];
      assert init + [last] == notices;
      WithoutRises(init, id);
      PartGrows(Without(init, id), init, last);
      if Rising(notices) { PartRises(Without(init, id), init, last); }
    }
  }

  lemma {:induction false} AudibleRises(notices: seq<Notice>, muted: set<string>)
    ensures Part(Audible(notices, muted), notices)
    ensures Rising(notices) ==> Rising(Audible(notices, muted))
  {
    if notices != [] {
      var init, last := notices[..|notices| - 1], notices[|notices| - 1];
      assert init + [last] == notices;
      AudibleRises(init, muted);
      PartGrows(Audible(init, muted), init, last);
      if Rising(notices) { PartRises(Audible(init, muted), init, last); }
    }
  }

  /** A mute takes exactly the silenced kinds out of the feed. */
  lemma {:induction false} MuteIsExact(notices: seq<Notice>, muted: set<string>, n: Notice)
    ensures n in Audible(notices, muted) <==> n in notices && !Silenced(n, muted)
  {
    if notices != [] {
      var init, last := notices[..|notices| - 1], notices[|notices| - 1];
      assert notices == init + [last];
      MuteIsExact(init, muted, n);
    }
  }

  lemma {:induction false} WithoutIsExact(notices: seq<Notice>, id: nat, n: Notice)
    ensures n in Without(notices, id) <==> n in notices && n.id != id
  {
    if notices != [] {
      var init, last := notices[..|notices| - 1], notices[|notices| - 1];
      assert notices == init + [last];
      WithoutIsExact(init, id, n);
    }
  }

  /** A dismissal takes down the notice of that number and no other. */
  lemma DismissIsExact(f: Feed, id: nat, n: Notice)
    ensures n in Dismiss(f, id).notices <==> n in f.notices && n.id != id
  {
    WithoutIsExact(f.notices, id, n);
    if PlaceOf(f.notices, id).None? && n in f.notices {
      PlaceOfHas(f.notices, id);
    }
  }

  lemma PartNumbers(part: seq<Notice>, whole: seq<Notice>, count: nat)
    requires Part(part, whole) && Numbered(whole, count)
    ensures Numbered(part, count)
  {
    forall i | 0 <= i < |part| ensures 1 <= part[i].id <= count { assert part[i] in whole; }
  }

  lemma DrainedIsPart(all: seq<Notice>)
    ensures Part(Drained(all), all) && |Drained(all)| <= FEED_CAPACITY
    ensures Rising(all) ==> Rising(Drained(all))
  {
  }

  lemma AppendedIsInOrder(notices: seq<Notice>, count: nat, n: Notice)
    requires Rising(notices) && Numbered(notices, count) && n.id == count + 1
    ensures Rising(notices + [n]) && Numbered(notices + [n], count + 1)
  {
  }

  lemma DrainedIsInOrder(all: seq<Notice>, count: nat)
    requires Rising(all) && Numbered(all, count)
    ensures Rising(Drained(all)) && Numbered(Drained(all), count) && |Drained(all)| <= FEED_CAPACITY
  {
    DrainedIsPart(all);
    PartNumbers(Drained(all), all, count);
  }

  lemma PostIsValid(f: Feed, about: About, text: string)
    requires Valid(f)
    ensures Valid(Post(f, about, text))
  {
    var n := Notice(f.count + 1, about, text);
    AppendedIsInOrder(f.notices, f.count, n);
    DrainedIsInOrder(f.notices + [n], f.count + 1);
  }

  lemma ChooseAtIsValid(f: Feed, at: nat)
    requires Valid(f)
    ensures Valid(ChooseAt(f, at))
  {
  }

  lemma DismissIsValid(f: Feed, id: nat)
    requires Valid(f)
    ensures Valid(Dismiss(f, id))
  {
    if PlaceOf(f.notices, id).Some? {
      var g := f.(notices := Without(f.notices, id),
                  question := if f.question == Some(id) then None else f.question);
      WithoutRises(f.notices, id);
      PartNumbers(g.notices, f.notices, f.count);
      assert Valid(g);
      ChooseAtIsValid(g, PlaceOf(f.notices, id).value);
    }
  }

  lemma AfterIsValid(f: Feed, e: Event)
    requires Valid(f)
    ensures Valid(After(f, e))
  {
    match e
    case Posted(about, text) => PostIsValid(f, about, text);
    case Stepped(delta) => ChooseAtIsValid(f, if ChosenAt(f) + delta >= 0 then ChosenAt(f) + delta else 0);
    case ChoseAt(at) => ChooseAtIsValid(f, at);
    case Dismissed(id) => DismissIsValid(f, id);
    case Muted(kinds) =>
      AudibleRises(f.notices, kinds);
      PartNumbers(Audible(f.notices, kinds), f.notices, f.count);
    case _ =>
  }

  lemma {:induction false} RunIsValid(f: Feed, events: seq<Event>)
    requires Valid(f)
    ensures Valid(Run(f, events))
    decreases |events|
  {
    if events != [] {
      AfterIsValid(f, events[0]);
      RunIsValid(After(f, events[0]), events[1..]);
    }
  }

  /** Every feed of every session: bounded, numbers rising and none above the count, and the
      chosen place within it. */
  lemma SessionsStayInOrder(events: seq<Event>)
    ensures Valid(Run(EMPTY, events))
    ensures var f := Run(EMPTY, events);
            f.notices != [] ==> ChosenAt(f) < |f.notices| && Chosen(f).Some?
  {
    RunIsValid(EMPTY, events);
  }

  // ── Numbers ──────────────────────────────────────────────────────────────

  /** A step keeps, drops or appends notices; it never renumbers one or brings one back. */
  lemma AfterKeepsNumbers(f: Feed, e: Event, n: Notice)
    requires Valid(f) && n in After(f, e).notices && n.id <= f.count
    ensures n in f.notices
  {
    match e
    case Posted(about, text) => DrainedIsPart(f.notices + [Notice(f.count + 1, about, text)]);
    case Dismissed(id) => WithoutRises(f.notices, id);
    case Muted(kinds) => AudibleRises(f.notices, kinds);
    case _ =>
  }

  lemma AfterCounts(f: Feed, e: Event)
    requires Valid(f)
    ensures f.count <= After(f, e).count
  {
  }

  lemma {:induction false} RunKeepsNumbers(f: Feed, events: seq<Event>, n: Notice)
    requires Valid(f) && n in Run(f, events).notices && n.id <= f.count
    ensures n in f.notices
    decreases |events|
  {
    if events != [] {
      AfterIsValid(f, events[0]);
      AfterCounts(f, events[0]);
      RunKeepsNumbers(After(f, events[0]), events[1..], n);
      AfterKeepsNumbers(f, events[0], n);
    }
  }

  /** A number names one notice for the whole session: once given it is never another's, and
      once gone it does not come back. */
  lemma NumbersAreNeverReused(before: seq<Event>, after: seq<Event>, n: Notice)
    requires n in Run(Run(EMPTY, before), after).notices && n.id <= Run(EMPTY, before).count
    ensures n in Run(EMPTY, before).notices
    ensures forall m :: m in Run(EMPTY, before).notices && m.id == n.id ==> m == n
  {
    RunIsValid(EMPTY, before);
    RunKeepsNumbers(Run(EMPTY, before), after, n);
  }

  // ── The choice ───────────────────────────────────────────────────────────

  lemma {:induction false} PlaceIsUnique(notices: seq<Notice>, place: nat)
    requires Rising(notices) && place < |notices|
    ensures PlaceOf(notices, notices[|notices| - 1 - place].id) == Some(place)
  {
    if place > 0 { PlaceIsUnique(notices[..|notices| - 1], place - 1); }
  }

  function Index(notices: seq<Notice>, place: nat): nat
    requires place < |notices|
  {
    |notices| - 1 - place
  }

  lemma {:induction false} WithoutCutsOne(notices: seq<Notice>, k: nat)
    requires Rising(notices) && k < |notices|
    ensures Without(notices, notices[k].id) == notices[..k] + notices[k + 1..]
  {
    var init, last := notices[..|notices| - 1], notices[|notices| - 1];
    if k == |notices| - 1 {
      WithoutAbsent(init, last.id);
    } else {
      WithoutCutsOne(init, k);
      assert notices[k + 1..] == init[k + 1..] + [last];
    }
  }

  lemma {:induction false} WithoutAbsent(notices: seq<Notice>, id: nat)
    requires forall i :: 0 <= i < |notices| ==> notices[i].id != id
    ensures Without(notices, id) == notices
  {
    if notices != [] {
      var init := notices[..|notices| - 1];
      WithoutAbsent(init, id);
      assert init + [notices[|notices| - 1]] == notices;
    }
  }

  /** Choosing by number a notice that is there puts the choice at its place. */
  lemma ChosenByNumber(f: Feed, place: nat)
    requires Rising(f.notices) && place < |f.notices| && f.selected == Some(f.notices[Index(f.notices, place)].id)
    ensures ChosenAt(f) == place && Chosen(f) == Some(f.notices[Index(f.notices, place)])
  {
    PlaceIsUnique(f.notices, place);
  }

  lemma ChooseAtChooses(f: Feed, at: nat)
    requires Rising(f.notices) && f.notices != []
    ensures ChosenAt(ChooseAt(f, at)) == Clamped(at, |f.notices|)
    ensures Chosen(ChooseAt(f, at)) == AtPlace(f.notices, Clamped(at, |f.notices|))
  {
    ChosenByNumber(ChooseAt(f, at), Clamped(at, |f.notices|));
  }

  /** Cutting `s[k]` out leaves `s[m]` the m-th or the one before. */
  lemma CutKeepsOthers(s: seq<Notice>, k: nat, m: nat)
    requires k < |s| && m < |s| && m != k
    ensures var cut, at := s[..k] + s[k + 1..], if m < k then m else m - 1;
            |cut| == |s| - 1 && at < |cut| && cut[at] == s[m]
  {
  }

  lemma DismissedOther(f: Feed, id: nat, k: nat)
    requires Valid(f) && Chosen(f).Some? && Chosen(f).value.id != id
    requires k < |f.notices| && f.notices[k].id == id
    ensures Dismiss(f, id).notices == f.notices[..k] + f.notices[k + 1..]
    ensures Dismiss(f, id).selected == f.selected
  {
    PlaceIsUnique(f.notices, Index(f.notices, k));
    WithoutCutsOne(f.notices, k);
  }

  lemma CutKeepsTheChoice(f: Feed, g: Feed, k: nat, m: nat)
    requires k < |f.notices| && m < |f.notices| && m != k && ChosenAt(f) == Index(f.notices, m)
    requires g.notices == f.notices[..k] + f.notices[k + 1..] && g.selected == f.selected && Rising(g.notices)
    ensures Chosen(g) == Some(f.notices[m])
  {
    CutKeepsOthers(f.notices, k, m);
    if f.selected.Some? && PlaceOf(f.notices, f.selected.value).Some? {
      ChosenByNumber(g, Index(g.notices, if m < k then m else m - 1));
    } else if f.selected.Some? {
      NotThereStaysAway(f.notices, k, f.selected.value);
    }
  }

  lemma OtherChoiceStays(f: Feed, g: Feed, k: nat)
    requires k < |f.notices| && Chosen(f).Some? && Chosen(f).value.id != f.notices[k].id
    requires g.notices == f.notices[..k] + f.notices[k + 1..] && g.selected == f.selected && Rising(g.notices)
    ensures Chosen(g) == Chosen(f)
  {
    CutKeepsTheChoice(f, g, k, Index(f.notices, ChosenAt(f)));
  }

  /** Dismissing another notice leaves the chosen one chosen. */
  lemma DismissingAnotherKeepsTheChoice(f: Feed, id: nat)
    requires Valid(f) && Chosen(f).Some? && Chosen(f).value.id != id
    ensures Chosen(Dismiss(f, id)) == Chosen(f)
  {
    if PlaceOf(f.notices, id).Some? {
      var k := Index(f.notices, PlaceOf(f.notices, id).value);
      assert f.notices[k].id == id;
      DismissedOther(f, id, k);
      assert Rising(Dismiss(f, id).notices) by { DismissIsValid(f, id); }
      OtherChoiceStays(f, Dismiss(f, id), k);
    }
  }

  lemma CutHasNoMore(s: seq<Notice>, k: nat, id: nat)
    requires k < |s| && Has(s[..k] + s[k + 1..], id)
    ensures Has(s, id)
  {
    var cut := s[..k] + s[k + 1..];
    var i :| 0 <= i < |cut| && cut[i].id == id;
    assert cut[i] == s[if i < k then i else i + 1];
  }

  lemma NotThereStaysAway(s: seq<Notice>, k: nat, id: nat)
    requires k < |s| && PlaceOf(s, id).None?
    ensures PlaceOf(s[..k] + s[k + 1..], id).None?
  {
    var cut := s[..k] + s[k + 1..];
    assert !Has(s, id) by { PlaceOfHas(s, id); }
    assert !Has(cut, id) by { if Has(cut, id) { CutHasNoMore(s, k, id); } }
    PlaceOfHas(cut, id);
  }

  /** What is left when the chosen notice goes, before the choice is made again. */
  function LeftBy(f: Feed, id: nat): Feed {
    f.(notices := Without(f.notices, id), question := if f.question == Some(id) then None else f.question)
  }

  lemma DismissedChosen(f: Feed)
    requires Valid(f) && Chosen(f).Some?
    ensures var id, m := Chosen(f).value.id, Index(f.notices, ChosenAt(f));
            && Dismiss(f, id) == ChooseAt(LeftBy(f, id), ChosenAt(f))
            && LeftBy(f, id).notices == f.notices[..m] + f.notices[m + 1..]
            && Rising(LeftBy(f, id).notices)
  {
    var m := Index(f.notices, ChosenAt(f));
    PlaceIsUnique(f.notices, ChosenAt(f));
    WithoutCutsOne(f.notices, m);
    WithoutRises(f.notices, f.notices[m].id);
  }

  /** Dismissing the chosen one leaves the choice at the same place, or at the end. */
  lemma DismissingTheChosenKeepsThePlace(f: Feed)
    requires Valid(f) && Chosen(f).Some?
    ensures var g := Dismiss(f, Chosen(f).value.id);
            && |g.notices| == |f.notices| - 1
            && ChosenAt(g) == Clamped(ChosenAt(f), |g.notices|)
            && (ChosenAt(f) + 1 < |f.notices| ==> Chosen(g) == AtPlace(f.notices, ChosenAt(f) + 1))
  {
    var c := ChosenAt(f);
    var left := LeftBy(f, Chosen(f).value.id);
    DismissedChosen(f);
    if left.notices != [] {
      ChooseAtChooses(left, c);
      if c + 1 < |f.notices| { CutKeepsOthers(f.notices, Index(f.notices, c), Index(f.notices, c) - 1); }
    }
  }

  lemma PostedIndex(f: Feed, about: About, text: string, p: nat)
    requires Valid(f) && 0 < p < |Post(f, about, text).notices|
    ensures var g := Post(f, about, text);
            p - 1 < |f.notices| && g.notices[Index(g.notices, p)] == f.notices[Index(f.notices, p - 1)]
  {
  }

  lemma PostedIsNewest(f: Feed, about: About, text: string)
    ensures var g := Post(f, about, text);
            g.notices != [] && g.notices[Index(g.notices, 0)] == Notice(f.count + 1, about, text)
  {
  }

  lemma ChosenIsAt(f: Feed, p: nat)
    requires f.selected.Some? && PlaceOf(f.notices, f.selected.value) == Some(p)
    ensures p < |f.notices| && f.notices[Index(f.notices, p)].id == f.selected.value
    ensures Chosen(f) == Some(f.notices[Index(f.notices, p)])
  {
  }

  lemma NumberedChoiceStays(f: Feed, about: About, text: string, p: nat)
    requires Valid(f) && f.selected.Some? && f.selected.value <= f.count
    requires PlaceOf(Post(f, about, text).notices, f.selected.value) == Some(p)
    ensures Chosen(Post(f, about, text)) == Chosen(f)
  {
    var g := Post(f, about, text);
    ChosenIsAt(g, p);
    assert p > 0 by { PostedIsNewest(f, about, text); }
    PostedIndex(f, about, text, p);
    ChosenByNumber(f, p - 1);
  }

  /** A new notice takes the choice exactly when none that is still there was chosen by number. */
  lemma ArrivalsMoveOnlyAFreeChoice(f: Feed, about: About, text: string)
    requires Valid(f)
    ensures var g := Post(f, about, text);
            if f.selected.Some? && PlaceOf(g.notices, f.selected.value).Some?
            then Chosen(g) == Chosen(f)
            else Chosen(g) == Some(Notice(f.count + 1, about, text))
  {
    var place := if f.selected.Some? then PlaceOf(Post(f, about, text).notices, f.selected.value) else None;
    if place.Some? {
      NumberedChoiceStays(f, about, text, place.value);
    } else {
      PostedIsNewest(f, about, text);
    }
  }
}
