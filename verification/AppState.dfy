/** The interface's state, changed in place: what stands, and the feed that tells of it. Each
    method is tied to the value-level step of `Standing` or `NoticeFeed` it performs. */
module AppState {
  import opened Basics
  import opened FeedHistory
  import opened NoticeFeed
  import Standing

  class AppState {
    const texts: Standing.Said -> string
    var enforcementDown: map<string, Standing.Down>
    var routesHeld: Option<Standing.Held>
    var trafficCarried: Option<string>
    var revisionRaised: bool
    var vpnSplitTold: bool
    var muted: set<string>
    ghost var said: seq<Standing.Said>
    var notices: seq<Notice>
    var noticeCount: nat
    var selected: Option<nat>
    var question: Option<nat>

    ghost function Stands(): Standing.State
      reads this
    {
      Standing.State(enforcementDown, routesHeld, trafficCarried, revisionRaised, vpnSplitTold, muted, said)
    }

    ghost function Told(): Feed
      reads this
    {
      Feed(notices, noticeCount, selected, question)
    }

    constructor (texts: Standing.Said -> string)
      ensures this.texts == texts && Stands() == Standing.START && Told() == EMPTY
    {
      this.texts := texts;
      enforcementDown, routesHeld, trafficCarried := map[], None, None;
      revisionRaised, vpnSplitTold, muted, said := false, false, {}, [];
      notices, noticeCount, selected, question := [], 0, None, None;
    }

    // ── The feed ─────────────────────────────────────────────────────────

    method PostNotice(about: About, text: string)
      modifies this`notices, this`noticeCount
      ensures Told() == Post(old(Told()), about, text)
    {
      noticeCount := noticeCount + 1;
      notices := notices + [Notice(noticeCount, about, text)];
      if |notices| > FEED_CAPACITY {
        var excess := |notices| - FEED_CAPACITY;
        notices := notices[excess..];
      }
    }

    method ChoosePlace(at: nat)
      modifies this`selected
      ensures Told() == ChooseAt(old(Told()), at)
    {
      var last := if |notices| == 0 then 0 else |notices| - 1;
      var place := if at <= last then at else last;
      selected := if place < |notices| then Some(notices[|notices| - 1 - place].id) else None;
    }

    method ChosenPlace() returns (at: nat)
      ensures at == ChosenAt(Told())
    {
      at := 0;
      if selected.Some? {
        var place := PlaceOf(notices, selected.value);
        if place.Some? { at := place.value; }
      }
    }

    method MoveChoice(delta: int)
      modifies this`selected
      ensures Told() == StepBy(old(Told()), delta)
    {
      var at := ChosenPlace();
      ChoosePlace(if at + delta >= 0 then at + delta else 0);
    }

    method TakeDown(id: nat) returns (found: bool)
      modifies this`notices, this`selected, this`question
      ensures Told() == Dismiss(old(Told()), id)
      ensures found == PlaceOf(old(notices), id).Some?
    {
      var at := PlaceOf(notices, id);
      if at.None? { return false; }
      var chosen := ChosenPlace();
      notices := Without(notices, id);
      if question == Some(id) { question := None; }
      if chosen == at.value { ChoosePlace(at.value); }
      return true;
    }

    /** A line-mode command names a notice that is there. */
    method NameNotice(id: nat)
      modifies this`selected
      ensures Told() == Name(old(Told()), id)
    {
      var at := PlaceOf(notices, id);
      if at.Some? { selected := Some(id); }
    }

    method OpenQuestion(id: nat)
      modifies this`question
      ensures Told() == Ask(old(Told()), id)
    {
      var at := PlaceOf(notices, id);
      if at.Some? { question := Some(id); }
    }

    method TakeAllDown()
      modifies this`notices, this`selected, this`question
      ensures Told() == DismissAll(old(Told()))
    {
      notices, selected, question := [], None, None;
    }

    /** The mutes as just read: what is silenced now leaves the feed. */
    method SetMutes(kinds: set<string>)
      modifies this`muted, this`notices
      ensures Told() == Mute(old(Told()), kinds)
      ensures Stands() == Standing.Step(old(Stands()), Standing.MutesAre(kinds))
    {
      muted := kinds;
      var kept := [];
      for i := 0 to |notices|
        invariant kept == Audible(notices[..i], kinds)
        invariant muted == kinds && notices == old(notices)
      {
        assert notices[..i + 1][..i] == notices[..i];
        if !Silenced(notices[i], kinds) { kept := kept + [notices[i]]; }
      }
      assert notices[..|notices|] == notices;
      notices := kept;
    }

    // ── What stands ──────────────────────────────────────────────────────

    /** What a reading other than of the mutes did: the step it stands for, and its news in the
        feed. */
    twostate predicate Took(reading: Standing.Reading)
      reads this
    {
      && Stands() == Standing.Step(old(Stands()), reading)
      && old(said) <= said
      && Told() == PostAll(old(Told()), said[|old(said)|..], texts)
    }

    method Say(s: Standing.Said)
      modifies this`notices, this`noticeCount, this`said
      ensures said == old(said) + [s]
      ensures Told() == PostAll(old(Told()), [s], texts)
    {
      PostAllOne(Told(), s, texts);
      PostNotice(Standing.KindOf(s), texts(s));
      said := said + [s];
    }

    method EnforcementChanged(r: Standing.Report)
      modifies this`enforcementDown, this`notices, this`noticeCount, this`said
      ensures Took(Standing.Pushed(r))
    {
      if r.status == "" || r.status == Standing.OK {
        if r.role in enforcementDown {
          var down := enforcementDown[r.role];
          enforcementDown := enforcementDown - {r.role};
          if !down.quiet && Standing.RestoreIsNews(down.status) && "enforcement-restored" !in muted {
            Say(Standing.Restored(r.role));
          }
        }
        return;
      }
      var routine := r.status == Standing.SECONDARY_DOWN && r.role != Standing.PRIMARY;
      enforcementDown := enforcementDown[r.role := Standing.Down(r.status, r.candidates, r.quiet)];
      if r.quiet || (routine && "secondary-down" in muted) { return; }
      Say(Standing.NotInForce(r.role, r.status, r.candidates));
    }

    /** One standing report, as the push it stands for; skipped when equal to the state held. */
    method ReadReport(r: Standing.Report)
      modifies this`enforcementDown, this`notices, this`noticeCount, this`said
      ensures Took(Standing.Read(r))
    {
      var held := if r.role in enforcementDown
                  then (enforcementDown[r.role].status, enforcementDown[r.role].quiet)
                  else (Standing.OK, false);
      var status := if r.status == "" then Standing.OK else r.status;
      if held == (status, r.quiet && status != Standing.OK) { return; }
      EnforcementChanged(r);
    }

    /** The snapshot's standing reports, in order. */
    method ApplyStandingEnforcement(reports: seq<Standing.Report>)
      modifies this`enforcementDown, this`notices, this`noticeCount, this`said
      ensures Stands() == Standing.StepAll(old(Stands()), Standing.AsRead(reports))
      ensures old(said) <= said && Told() == PostAll(old(Told()), said[|old(said)|..], texts)
    {
      ghost var start, told := Stands(), Told();
      for i := 0 to |reports|
        invariant Stands() == Standing.StepAll(start, Standing.AsRead(reports[..i]))
        invariant start.said <= said && Told() == PostAll(told, said[|start.said|..], texts)
      {
        ghost var before, was := said, Told();
        ReadReport(reports[i]);
        Standing.ReadsOneMore(start, reports, i);
        PostedSince(told, was, start.said, before, said, texts);
      }
      assert reports[..|reports|] == reports;
    }

    method RoutesHeldChanged(held: Option<Standing.Held>)
      modifies this`routesHeld, this`notices, this`noticeCount, this`said
      ensures Took(Standing.HeldIs(held))
    {
      if routesHeld == held { return; }
      routesHeld := held;
      if "routes-held" in muted { return; }
      Say(if held.Some? then Standing.RoutesHeld(held.value) else Standing.RoutesReleased);
    }

    method TrafficCarriedChanged(link: Option<string>)
      modifies this`trafficCarried, this`notices, this`noticeCount, this`said
      ensures Took(Standing.CarriedIs(link))
    {
      if trafficCarried == link { return; }
      trafficCarried := link;
      if "traffic-carried" in muted { return; }
      Say(if link.Some? then Standing.TrafficCarried(link.value) else Standing.TrafficReleased);
    }

    method RevisionIntegrityReading(rejected: bool)
      modifies this`revisionRaised, this`notices, this`noticeCount, this`said
      ensures Took(Standing.RevisionIs(rejected))
    {
      var was := revisionRaised;
      revisionRaised := rejected;
      if !rejected || was { return; }
      Say(Standing.RevisionRefused);
    }

    method VpnSplitReading(split: Option<(string, nat)>)
      modifies this`vpnSplitTold, this`notices, this`noticeCount, this`said
      ensures Took(Standing.SplitIs(split))
    {
      if split.None? || vpnSplitTold { return; }
      vpnSplitTold := true;
      Say(Standing.SplitExplained(split.value.0, split.value.1));
    }

    // ── Whole sessions ───────────────────────────────────────────────────

    method Hear(reading: Standing.Reading)
      requires !reading.MutesAre?
      modifies this
      ensures Took(reading)
    {
      match reading
      case Pushed(report) => EnforcementChanged(report);
      case Read(report) => ReadReport(report);
      case HeldIs(held) => RoutesHeldChanged(held);
      case CarriedIs(link) => TrafficCarriedChanged(link);
      case RevisionIs(rejected) => RevisionIntegrityReading(rejected);
      case SplitIs(split) => VpnSplitReading(split);
    }

    method Do(edit: Edit)
      modifies this
      ensures Told() == After(old(Told()), edit) && Stands() == old(Stands())
    {
      match edit
      case Stepped(delta) => MoveChoice(delta);
      case ChoseAt(at) => ChoosePlace(at);
      case Named(id) => NameNotice(id);
      case Asked(id) => OpenQuestion(id);
      case Dismissed(id) => var _ := TakeDown(id);
      case DismissedAll => TakeAllDown();
    }

    /** One thing happens to an interface that stands where its history led it. */
    method Happen(ghost past: seq<Happening>, e: Happening)
      requires Stands() == Standing.Run(ReadingsOf(past)) && Told() == FeedOf(past, texts)
      modifies this
      ensures Stands() == Standing.Run(ReadingsOf(past + [e])) && Told() == FeedOf(past + [e], texts)
    {
      ghost var readings := ReadingsOf(past);
      assert (past + [e])[..|past|] == past;
      match e
      case Did(edit) =>
        Do(edit);
        assert ReadingsOf(past + [e]) == readings;
      case Heard(reading) =>
        assert ReadingsOf(past + [e]) == readings + [reading];
        RunOneMore(readings, reading);
        if reading.MutesAre? {
          SetMutes(reading.muted);
        } else {
          ghost var before := said;
          Hear(reading);
          assert said[|before|..] == Standing.News(readings, reading);
        }
    }
  }

  lemma RunOneMore(past: seq<Standing.Reading>, reading: Standing.Reading)
    ensures Standing.Run(past + [reading]) == Standing.Step(Standing.Run(past), reading)
    ensures Standing.Step(Standing.Run(past), reading).said == Standing.Run(past).said + Standing.News(past, reading)
  {
    assert (past + [reading])[..|past|] == past;
    Standing.RunFolds(past);
    Standing.StepSaysTheNews(Standing.Run(past), past, reading);
  }

  /** The interface through a whole history: it stands and tells what the history says. */
  method Session(h: seq<Happening>, texts: Words) returns (app: AppState)
    ensures app.Stands() == Standing.Run(ReadingsOf(h)) && app.Told() == FeedOf(h, texts)
  {
    app := new AppState(texts);
    for i := 0 to |h|
      invariant fresh(app) && app.texts == texts
      invariant app.Stands() == Standing.Run(ReadingsOf(h[..i])) && app.Told() == FeedOf(h[..i], texts)
    {
      assert h[..i + 1] == h[..i] + [h[i]];
      app.Happen(h[..i], h[i]);
    }
    assert h[..|h|] == h;
  }
}
