/** The client the jobs thread calls the service through: the first call, and, when the
    service could ask nobody for a password, the calls made again while an agent in this
    terminal can answer. The client moves the two-thread machine of `ScreenHandOver` itself:
    its own steps are the jobs thread's, and in between the others move as they will. */
module ElevationPrompt {
  import opened ScreenHandOver

  const ELEVATION_AGENT_MISSING := "elevation-agent-missing"

  /** Attempts that fit before the deadline, each at least one poll after the last. */
  const MAX_RETRIES: nat := REGISTRATION_WAIT / REGISTRATION_POLL

  datatype Answer =
    | Value(value: int)
    | Forbidden(clientCode: string)
    | OtherError(detail: int)

  /** Whether this refusal is the one a terminal agent can lift. */
  predicate NobodyCouldPrompt(a: Answer) {
    a.Forbidden? && a.clientCode == ELEVATION_AGENT_MISSING
  }

  /** What the world does during one call: the moves of the interface and of the agent while the
      jobs thread waits for the screen and up to the k-th look at the agent, whether the agent
      starts, the time the first answer took, and by how much each later round outlasted the
      pause it began with. */
  datatype World = World(whileWaiting: seq<Action>, starts: bool, upToLook: nat -> seq<Action>,
                         firstAnswer: nat, extra: nat -> nat)

  // ── The others ───────────────────────────────────────────────────────────

  /** A move the jobs thread does not make. */
  predicate IsOthers(a: Action) {
    a.AgentDies? || a.TakeRequest? || a.AnswerReady? || a.Wake? || a.WakeFails? || a.Quit?
  }

  /** The moves of the others, in order; one that is not possible is not made. */
  function Others(s: State, moves: seq<Action>): State
    decreases |moves|
  {
    if moves == [] then s
    else if IsOthers(moves[0]) && Enabled(s, moves[0]) then Others(Do(s, moves[0]), moves[1..])
    else Others(s, moves[1..])
  }

  /** The others leave the jobs thread where it is, and only its death ends an agent. */
  lemma {:induction false} OthersLeaveTheJobs(s: State, moves: seq<Action>)
    ensures var t := Others(s, moves);
            && t.jobs == s.jobs && t.next == s.next && t.doneOpen == s.doneOpen
            && (t.agent <==> s.agent && AgentDies !in moves)
    decreases |moves|
  {
    if moves != [] {
      var t := if IsOthers(moves[0]) && Enabled(s, moves[0]) then Do(s, moves[0]) else s;
      OthersLeaveTheJobs(t, moves[1..]);
      assert moves == [moves[0]] + moves[1..];
    }
  }

  /** The time from the start of the agent to the k-th look at the clock. */
  function Elapsed(w: World, k: nat): (t: nat)
    ensures t >= k * REGISTRATION_POLL
  {
    if k == 0 then w.firstAnswer else Elapsed(w, k - 1) + REGISTRATION_POLL + w.extra(k - 1)
  }

  /** The agent is still there at the k-th look. */
  predicate Running(w: World, k: nat) {
    AgentDies !in w.upToLook(k) && (k > 0 ==> Running(w, k - 1))
  }

  /** The machine once the jobs thread has asked for the screen and the others have moved. */
  function Asked(s: State, w: World): State
    requires s.jobs.Idle?
  {
    Others(Do(s, Ask), w.whileWaiting)
  }

  /** The interface took the request and answered in time, and the agent starts. */
  predicate Arranged(s: State, w: World)
    requires s.jobs.Idle?
  {
    !s.ui.Gone? && s.next in Asked(s, w).readySent && w.starts
  }

  /** The k-th answer inside the loop is the last one. */
  predicate Final(a: Answer, w: World, k: nat) {
    !NobodyCouldPrompt(a) || !Running(w, k) || Elapsed(w, k) >= REGISTRATION_WAIT
  }

  predicate FinalAt(answers: nat -> Answer, first: nat, w: World, k: nat) {
    Final(answers(first + k), w, k)
  }

  /** None of the first `n` answers inside the loop was final. */
  ghost predicate NoneFinal(answers: nat -> Answer, first: nat, w: World, n: nat) {
    forall k: nat :: k < n ==> !FinalAt(answers, first, w, k)
  }

  // ── The client ───────────────────────────────────────────────────────────

  class PromptingClient {
    const agent: bool
    /** What the service says to the n-th call it receives. */
    const answers: nat -> Answer
    /** Calls the service has received. */
    var sent: nat
    /** Both threads and what is between them. */
    var machine: State
    /** Every state the machine was in. */
    ghost var run: seq<State>
    /** Agents started. */
    var agents: nat

    /** What happened so far is a run of the machine. */
    ghost predicate Valid()
      reads this
    {
      IsRun(run) && machine == run[|run| - 1]
    }

    constructor (agent: bool, answers: nat -> Answer)
      ensures this.agent == agent && this.answers == answers && sent == 0 && agents == 0
      ensures Valid() && machine == START
    {
      this.agent, this.answers, sent := agent, answers, 0;
      machine, run, agents := START, [START], 0;
    }

    method InnerCall() returns (a: Answer)
      modifies this`sent
      ensures sent == old(sent) + 1 && a == answers(old(sent))
    {
      a := answers(sent);
      sent := sent + 1;
    }

    /** One step of the machine, by whoever can take it. */
    method Take(a: Action)
      requires Valid() && Enabled(machine, a)
      modifies this`machine, this`run, this`agents
      ensures Valid() && machine == Do(old(machine), a) && run == old(run) + [machine]
      ensures agents == old(agents) + if a.StartAgent? then 1 else 0
    {
      ghost var before := machine;
      machine := Do(machine, a);
      run := run + [machine];
      assert Next(before, machine);
      if a.StartAgent? { agents := agents + 1; }
    }

    method LetOthersMove(moves: seq<Action>)
      requires Valid()
      modifies this`machine, this`run, this`agents
      ensures Valid() && old(run) <= run && agents == old(agents)
      ensures machine == Others(old(machine), moves)
    {
      var i := 0;
      while i < |moves|
        invariant 0 <= i <= |moves| && Valid() && old(run) <= run && agents == old(agents)
        invariant Others(machine, moves[i..]) == Others(old(machine), moves)
      {
        assert moves[i..][1..] == moves[i + 1..];
        if IsOthers(moves[i]) && Enabled(machine, moves[i]) { Take(moves[i]); }
        i := i + 1;
      }
    }

    /** The way out of the loop: the session is dropped first, then the screen; whatever happened
        to the agent, the interface is suspended on this request at both steps. */
    method DropSessionThenScreen()
      requires Valid() && machine.jobs.Prompting?
      modifies this`machine, this`run, this`agents
      ensures Valid() && machine.jobs.Idle? && agents == old(agents)
      ensures |run| == |old(run)| + 2 && old(run) <= run
      ensures var ended := run[|old(run)|];
              && Enabled(old(machine), StopAgent) && ended == Do(old(machine), StopAgent)
              && Enabled(ended, GiveBack) && machine == Do(ended, GiveBack)
              && !ended.agent && ended.ui == Suspended(old(machine.jobs.id)) && !Enabled(ended, Wake)
              && Enabled(machine, Wake)
    {
      RunInv(run, |run| - 1);
      Take(StopAgent);
      Take(GiveBack);
    }

    /** A call of the loop, and the look at the agent after it. */
    method AskOnce(moves: seq<Action>) returns (answer: Answer)
      requires Valid() && machine.jobs.Prompting?
      modifies this`sent, this`machine, this`run, this`agents
      ensures Valid() && old(run) <= run && agents == old(agents)
      ensures sent == old(sent) + 1 && answer == answers(old(sent))
      ensures machine.jobs == old(machine).jobs && (machine.agent <==> old(machine).agent && AgentDies !in moves)
    {
      answer := InnerCall();
      OthersLeaveTheJobs(machine, moves);
      LetOthersMove(moves);
    }

    /** The pause after the k-th look, and the next call with the look after it. */
    method AskAgain(w: World, k: nat) returns (answer: Answer)
      requires Valid() && machine.jobs.Prompting? && machine.agent && machine.jobs.left > 0 && Running(w, k)
      modifies this`sent, this`machine, this`run, this`agents
      ensures Valid() && old(run) <= run && agents == old(agents)
      ensures sent == old(sent) + 1 && answer == answers(old(sent))
      ensures machine.jobs.Prompting? && machine.agent == Running(w, k + 1)
      ensures machine.jobs.left + Elapsed(w, k + 1) >= old(machine).jobs.left + Elapsed(w, k)
    {
      Take(Retry(REGISTRATION_POLL + w.extra(k)));
      answer := AskOnce(w.upToLook(k + 1));
    }

    /** The loop: the service is asked until the first answer that is final. */
    method AskUntilFinal(w: World) returns (answer: Answer)
      requires Valid() && machine.jobs.Prompting? && machine.jobs.left == REGISTRATION_WAIT && machine.agent
      modifies this`sent, this`machine, this`run, this`agents
      ensures Valid() && old(run) <= run && machine.jobs.Prompting? && agents == old(agents)
      ensures old(sent) < sent <= old(sent) + MAX_RETRIES + 1
      ensures answer == answers(sent - 1) && Final(answer, w, sent - 1 - old(sent))
      ensures NoneFinal(answers, old(sent), w, sent - 1 - old(sent))
    {
      var k, elapsed := 0, w.firstAnswer;
      answer := AskOnce(w.upToLook(0));
      while NobodyCouldPrompt(answer) && machine.agent && elapsed < REGISTRATION_WAIT
        invariant Valid() && old(run) <= run && agents == old(agents)
        invariant sent == old(sent) + k + 1 && answer == answers(sent - 1)
        invariant k <= MAX_RETRIES
        invariant machine.jobs.Prompting? && machine.agent == Running(w, k)
        invariant elapsed == Elapsed(w, k) && machine.jobs.left + elapsed >= REGISTRATION_WAIT
        invariant NoneFinal(answers, old(sent), w, k)
        decreases MAX_RETRIES - k
      {
        assert !FinalAt(answers, old(sent), w, k);
        answer := AskAgain(w, k);
        elapsed := elapsed + REGISTRATION_POLL + w.extra(k);
        k := k + 1;
      }
    }

    /** The agent runs: asked until the first final answer, and then nothing is held any more. */
    method AskWhilePrompting(w: World) returns (answer: Answer)
      requires Valid() && machine.jobs.Prompting? && machine.jobs.left == REGISTRATION_WAIT && machine.agent
      modifies this`sent, this`machine, this`run, this`agents
      ensures Valid() && old(run) <= run && machine.jobs.Idle? && agents == old(agents)
      ensures old(sent) < sent <= old(sent) + MAX_RETRIES + 1
      ensures answer == answers(sent - 1) && Final(answer, w, sent - 1 - old(sent))
      ensures NoneFinal(answers, old(sent), w, sent - 1 - old(sent))
    {
      answer := AskUntilFinal(w);
      DropSessionThenScreen();
    }

    /** Ask for the screen: granted once the interface has answered, else let go of again. */
    method TakeScreen(w: World) returns (granted: bool)
      requires Valid() && machine.jobs.Idle?
      modifies this`machine, this`run, this`agents
      ensures Valid() && old(run) <= run && agents == old(agents)
      ensures granted <==> !old(machine).ui.Gone? && old(machine).next in Asked(old(machine), w).readySent
      ensures if granted then machine.jobs == Granted(old(machine).next) else machine.jobs.Idle?
    {
      Take(Ask);
      if machine.jobs.Idle? { return false; }
      OthersLeaveTheJobs(machine, w.whileWaiting);
      LetOthersMove(w.whileWaiting);
      if machine.jobs.id !in machine.readySent {
        Take(GiveUp);
        Take(Abandon);
        return false;
      }
      Take(TakeReady);
      granted := true;
    }

    /** An agent that cannot start gives the screen back at once. */
    method StartAgentOrGiveBack(starts: bool) returns (started: bool)
      requires Valid() && machine.jobs.Granted?
      modifies this`machine, this`run, this`agents
      ensures Valid() && old(run) <= run && started == starts
      ensures started ==> && machine.jobs.Prompting? && machine.jobs.left == REGISTRATION_WAIT && machine.agent
                          && agents == old(agents) + 1
      ensures !started ==> machine.jobs.Idle? && agents == old(agents)
    {
      if !starts {
        Take(StartFails);
        Take(GiveBack);
        return false;
      }
      Take(StartAgent);
      started := true;
    }

    /** Nothing when the prompt could not be arranged, and then no agent was started and
        nothing was sent. */
    method CallWithPrompt(w: World) returns (r: seq<Answer>)
      requires Valid() && machine.jobs.Idle?
      modifies this`sent, this`machine, this`run, this`agents
      ensures Valid() && old(run) <= run && machine.jobs.Idle?
      ensures !Arranged(old(machine), w) ==> r == [] && sent == old(sent) && agents == old(agents)
      ensures Arranged(old(machine), w) ==>
                && old(sent) < sent <= old(sent) + MAX_RETRIES + 1 && agents == old(agents) + 1
                && r == [answers(sent - 1)]
                && Final(answers(sent - 1), w, sent - 1 - old(sent))
                && NoneFinal(answers, old(sent), w, sent - 1 - old(sent))
    {
      r := [];
      var granted := TakeScreen(w);
      if !granted { return; }
      var started := StartAgentOrGiveBack(w.starts);
      if !started { return; }
      var answer := AskWhilePrompting(w);
      r := [answer];
    }

    /** One request through the client, a run of the machine. Every call but the last was refused
        because nobody could be asked; the answer returned is the last one the service gave, and
        it is asked again only with an agent, after such a refusal, once the screen was handed
        over. */
    method Call(w: World) returns (r: Answer)
      requires Valid() && machine.jobs.Idle?
      modifies this`sent, this`machine, this`run, this`agents
      ensures Valid() && old(run) <= run && machine.jobs.Idle?
      ensures old(sent) < sent <= old(sent) + MAX_RETRIES + 2
      ensures r == answers(sent - 1)
      ensures forall k :: old(sent) <= k < sent - 1 ==> NobodyCouldPrompt(answers(k))
      ensures sent == old(sent) + 1 <==>
              !agent || !NobodyCouldPrompt(answers(old(sent))) || !Arranged(old(machine), w)
      ensures agents == old(agents) + if sent == old(sent) + 1 then 0 else 1
      ensures agent && Arranged(old(machine), w) && NobodyCouldPrompt(r) ==>
                var k := sent - old(sent) - 2;
                k >= 0 && (!Running(w, k) || Elapsed(w, k) >= REGISTRATION_WAIT)
    {
      r := InnerCall();
      if !agent || !NobodyCouldPrompt(r) { return; }
      ghost var first := sent;
      var again := CallWithPrompt(w);
      if again != [] {
        forall k | first <= k < sent - 1 ensures NobodyCouldPrompt(answers(k)) {
          assert !FinalAt(answers, first, w, k - first);
        }
        r := again[0];
      }
    }
  }
}
