/** The hand-over of the terminal between the interface thread and the jobs thread.

    The jobs thread asks for the screen over a queue, waits for `ready` with a
    timeout, runs a password agent on the terminal, and gives the screen back by
    dropping its end of `done`. The interface thread takes requests off the queue,
    puts the terminal back to normal, answers `ready` and blocks until `done`
    closes. Both threads, the queue and the channel ends are one state; a run is
    any interleaving of the steps below.
 */
module ScreenHandOver {
  import opened Basics

  /** Milliseconds a registering agent is waited for, and the pause between two attempts. */
  const REGISTRATION_WAIT: nat := 3000
  const REGISTRATION_POLL: nat := 150

  datatype Interface =
    | Drawing                // in its event loop, the screen is its own
    | Restored(id: nat)      // took a request, terminal back to normal, not answered yet
    | Suspended(id: nat)     // answered `ready`, blocked on `done`
    | Gone                   // loop ended, the receiving end of the queue is dropped

  datatype Jobs =
    | Idle                            // holds no request
    | Waiting(id: nat)                // in `recv_timeout` on `ready`
    | Refused(id: nat)                // got no `ready`, about to return
    | Granted(id: nat)                // got `ready`, agent not started yet
    | Prompting(id: nat, left: nat)   // agent started, `left` ms to the deadline
    | Ended(id: nat)                  // agent session dropped, `done` not yet

  datatype State = State(
    ui: Interface,
    jobs: Jobs,
    queue: seq<nat>,       // requests not taken yet
    readySent: set<nat>,   // requests whose `ready` was answered
    readyHeld: set<nat>,   // requests whose `ready` sender is alive
    doneOpen: set<nat>,    // requests whose `done` sender is alive
    agent: bool,           // the password agent is running
    next: nat)             // requests made so far

  const START := State(Drawing, Idle, [], {}, {}, {}, false, 0)

  datatype Action =
    | Ask | TakeReady | GiveUp | Abandon | StartAgent | StartFails
    | Retry(elapsed: nat) | StopAgent | GiveBack
    | AgentDies
    | TakeRequest | AnswerReady | Wake | WakeFails | Quit

  function Elems(s: seq<nat>): set<nat> { set x | x in s }

  predicate Enabled(s: State, a: Action) {
    match a
    case Ask => s.jobs.Idle?
    case TakeReady => s.jobs.Waiting? && s.jobs.id in s.readySent
    // The timeout, or `ready` dropped unanswered.
    case GiveUp => s.jobs.Waiting? && s.jobs.id !in s.readySent
    case Abandon => s.jobs.Refused?
    case StartAgent => s.jobs.Granted?
    case StartFails => s.jobs.Granted?
    case Retry(elapsed) => s.jobs.Prompting? && s.agent && s.jobs.left > 0 && elapsed >= REGISTRATION_POLL
    // An answer that is final, a dead agent, the deadline, or a panic.
    case StopAgent => s.jobs.Prompting?
    case GiveBack => s.jobs.Ended?
    case AgentDies => s.agent
    case TakeRequest => s.ui.Drawing? && s.queue != []
    case AnswerReady => s.ui.Restored?
    case Wake => s.ui.Suspended? && s.ui.id !in s.doneOpen
    case WakeFails => s.ui.Suspended? && s.ui.id !in s.doneOpen
    case Quit => s.ui.Drawing?
  }

  function Do(s: State, a: Action): State
    requires Enabled(s, a)
  {
    match a
    case Ask =>
      if s.ui.Gone? then s  // the send fails, both channel ends are dropped again
      else s.(jobs := Waiting(s.next), queue := s.queue + [s.next], next := s.next + 1,
              readyHeld := s.readyHeld + {s.next}, doneOpen := s.doneOpen + {s.next})
    case TakeReady => s.(jobs := Granted(s.jobs.id))
    case GiveUp => s.(jobs := Refused(s.jobs.id))
    case Abandon => s.(jobs := Idle, doneOpen := s.doneOpen - {s.jobs.id})
    case StartAgent => s.(jobs := Prompting(s.jobs.id, REGISTRATION_WAIT), agent := true)
    case StartFails => s.(jobs := Ended(s.jobs.id))
    case Retry(elapsed) =>
      s.(jobs := Prompting(s.jobs.id, if elapsed < s.jobs.left then s.jobs.left - elapsed else 0))
    case StopAgent => s.(jobs := Ended(s.jobs.id), agent := false)
    case GiveBack => s.(jobs := Idle, doneOpen := s.doneOpen - {s.jobs.id})
    case AgentDies => s.(agent := false)
    case TakeRequest => s.(ui := Restored(s.queue[0]), queue := s.queue[1..])
    case AnswerReady => s.(ui := Suspended(s.ui.id), readySent := s.readySent + {s.ui.id})
    case Wake => s.(ui := Drawing, readyHeld := s.readyHeld - {s.ui.id})
    case WakeFails => s.(ui := Gone, queue := [], readyHeld := {})
    case Quit => s.(ui := Gone, queue := [], readyHeld := {})
  }

  ghost predicate Next(s: State, t: State) {
    exists a :: Enabled(s, a) && t == Do(s, a)
  }

  ghost predicate IsRun(run: seq<State>) {
    && run != []
    && run[0] == START
    && forall i :: 0 <= i < |run| - 1 ==> Next(run[i], run[i + 1])
  }

  // ── What every step keeps ────────────────────────────────────────────────

  function JobsHolds(j: Jobs): set<nat> {
    if j.Idle? then {} else {j.id}
  }

  function UiHolds(u: Interface): set<nat> {
    if u.Restored? || u.Suspended? then {u.id} else {}
  }

  ghost predicate Fresh(s: State) {
    && (forall id :: id in s.readySent ==> id < s.next)
    && (forall id :: id in s.readyHeld ==> id < s.next)
    && (forall id :: id in s.doneOpen ==> id < s.next)
    && (forall id :: id in s.queue ==> id < s.next)
    && (forall id :: id in UiHolds(s.ui) ==> id < s.next)
  }

  /** Each request sits in one place: the queue, or the interface's hands. */
  ghost predicate Placed(s: State) {
    && Distinct(s.queue)
    && UiHolds(s.ui) !! Elems(s.queue)
    && s.readyHeld == Elems(s.queue) + UiHolds(s.ui)
    && (s.ui.Gone? ==> s.queue == [])
    && (forall id :: id in s.queue ==> id !in s.readySent)
    && (s.ui.Restored? ==> s.ui.id !in s.readySent)
    && (s.ui.Suspended? ==> s.ui.id in s.readySent)
  }

  /** An answered request that is still open has the interface suspended on it. */
  ghost predicate Held(s: State) {
    && s.doneOpen == JobsHolds(s.jobs)
    && (forall id :: id in s.readySent && id in s.doneOpen ==> s.ui == Suspended(id))
    && (s.jobs.Granted? || s.jobs.Prompting? || s.jobs.Ended? ==> s.jobs.id in s.readySent)
    && (s.agent ==> s.jobs.Prompting?)
    && (s.jobs.Prompting? ==> s.jobs.left <= REGISTRATION_WAIT)
    && (s.jobs.Waiting? && s.jobs.id !in s.readySent && !s.ui.Gone? ==> s.jobs.id in s.readyHeld)
  }

  ghost predicate Inv(s: State) { Fresh(s) && Placed(s) && Held(s) }

  lemma InvStart()
    ensures Inv(START)
  {
  }

  lemma JobsStepKeepsInv(s: State, a: Action)
    requires Inv(s) && Enabled(s, a)
    requires !(a.TakeRequest? || a.AnswerReady? || a.Wake? || a.WakeFails? || a.Quit?)
    ensures Inv(Do(s, a))
  {
    var t := Do(s, a);
    if a.Ask? && !s.ui.Gone? {
      assert Elems(t.queue) == Elems(s.queue) + {s.next};
    }
  }

  lemma UiStepKeepsInv(s: State, a: Action)
    requires Inv(s) && Enabled(s, a)
    requires a.TakeRequest? || a.AnswerReady? || a.Wake? || a.WakeFails? || a.Quit?
    ensures Inv(Do(s, a))
  {
    var t := Do(s, a);
    if a.TakeRequest? {
      assert s.queue == [s.queue[0]] + t.queue;
      assert forall id :: id in t.queue ==> id in s.queue;
      assert Elems(s.queue) == Elems(t.queue) + {s.queue[0]};
    }
  }

  lemma InvNext(s: State, t: State)
    requires Inv(s) && Next(s, t)
    ensures Inv(t)
  {
    var a :| Enabled(s, a) && t == Do(s, a);
    if a.TakeRequest? || a.AnswerReady? || a.Wake? || a.WakeFails? || a.Quit? {
      UiStepKeepsInv(s, a);
    } else {
      JobsStepKeepsInv(s, a);
    }
  }

  lemma {:induction false} RunInv(run: seq<State>, i: nat)
    requires IsRun(run) && i < |run|
    ensures Inv(run[i])
  {
    if i == 0 {
      InvStart();
    } else {
      RunInv(run, i - 1);
      InvNext(run[i - 1], run[i]);
    }
  }

  // ── Mutual exclusion ─────────────────────────────────────────────────────

  /** Whenever the agent runs, the interface is blocked on that very request's `done`. */
  lemma AgentOwnsTheScreen(run: seq<State>, i: nat)
    requires IsRun(run) && i < |run| && run[i].agent
    ensures run[i].jobs.Prompting?
    ensures run[i].ui == Suspended(run[i].jobs.id)
    ensures run[i].jobs.id in run[i].doneOpen
    ensures !Enabled(run[i], Wake)
  {
    RunInv(run, i);
  }

  /** One step cannot both end the agent and move the interface. */
  lemma AgentEndsAlone(s: State, t: State)
    requires Inv(s) && Next(s, t) && s.agent
    ensures t.ui == s.ui
    ensures t.agent ==> t.jobs.Prompting? && t.jobs.id == s.jobs.id
  {
    var a :| Enabled(s, a) && t == Do(s, a);
  }

  /** Before the interface draws again, the agent has ended while it was still suspended. */
  lemma {:induction false} AgentEndsBeforeTheScreenIsTakenBack(run: seq<State>, i: nat, j: nat)
    requires IsRun(run) && i < j < |run|
    requires run[i].agent && !run[j].ui.Suspended?
    ensures exists k :: i < k < j && !run[k].agent && run[k].ui == run[i].ui
    decreases j - i
  {
    RunInv(run, i);
    AgentEndsAlone(run[i], run[i + 1]);
    if run[i + 1].agent {
      AgentOwnsTheScreen(run, i + 1);
      AgentEndsBeforeTheScreenIsTakenBack(run, i + 1, j);
    }
  }

  // ── No deadlock ──────────────────────────────────────────────────────────

  /** The jobs thread cannot go on unless the interface acts or the timeout fires. */
  predicate JobsBlocked(s: State) {
    s.jobs.Waiting? && s.jobs.id !in s.readySent && s.jobs.id in s.readyHeld
  }

  /** The interface cannot go on unless the jobs thread drops `done`. */
  predicate InterfaceBlocked(s: State) {
    s.ui.Suspended? && s.ui.id in s.doneOpen
  }

  lemma NeverBothBlocked(run: seq<State>, i: nat)
    requires IsRun(run) && i < |run|
    ensures !(JobsBlocked(run[i]) && InterfaceBlocked(run[i]))
  {
    RunInv(run, i);
  }

  /** Requests in the queue before `id`: given up on, and not taken yet. */
  function Ahead(queue: seq<nat>, id: nat): nat {
    if queue == [] || queue[0] == id then 0 else 1 + Ahead(queue[1..], id)
  }

  /** Steps of the interface until request `id` is answered: three for each stale request ahead
      of it, what is left of the one in hand, and two for its own. */
  function UntilAnswered(s: State, id: nat): nat {
    if id in s.readySent then 0
    else
      match s.ui
      case Drawing => 3 * Ahead(s.queue, id) + 2
      case Restored(other) => if other == id then 1 else 3 * Ahead(s.queue, id) + 4
      case Suspended(_) => 3 * Ahead(s.queue, id) + 3
      case Gone => 0
  }

  /** Every step taken while the jobs thread waits is the interface's, and brings the answer
      closer. */
  lemma WaitingStepGetsCloser(s: State, t: State)
    requires Inv(s) && Next(s, t) && s.jobs.Waiting? && t.jobs == s.jobs && !t.ui.Gone?
    ensures s.jobs.id !in s.readySent && UntilAnswered(t, s.jobs.id) < UntilAnswered(s, s.jobs.id)
  {
    var a :| Enabled(s, a) && t == Do(s, a);
  }

  /** A jobs thread waiting for `ready` needs no timeout: while it waits the interface has a
      step to take, and after at most `UntilAnswered` of them, past every stale request, it is
      answered. */
  lemma {:induction false} WaitingIsServed(run: seq<State>, i: nat, j: nat)
    requires IsRun(run) && i <= j < |run| && run[i].jobs.Waiting?
    requires forall k :: i <= k <= j ==> run[k].jobs == run[i].jobs && !run[k].ui.Gone?
    ensures j - i <= UntilAnswered(run[i], run[i].jobs.id)
    ensures j - i == UntilAnswered(run[i], run[i].jobs.id) ==> Enabled(run[j], TakeReady)
    ensures || Enabled(run[j], TakeReady) || Enabled(run[j], TakeRequest)
            || Enabled(run[j], AnswerReady) || Enabled(run[j], Wake)
    decreases j - i
  {
    RunInv(run, i);
    if i < j {
      WaitingStepGetsCloser(run[i], run[i + 1]);
      WaitingIsServed(run, i + 1, j);
    }
  }

  // ── The screen comes back ────────────────────────────────────────────────

  /** Steps the jobs thread may still take before it drops its `done`. */
  function StepsLeft(s: State): nat {
    var agent := if s.agent then 1 else 0;
    match s.jobs
    case Idle => 0
    case Waiting(_) => REGISTRATION_WAIT + 5
    case Granted(_) => REGISTRATION_WAIT + 4
    case Prompting(_, left) => left + 2 + agent
    case Refused(_) => 1
    case Ended(_) => 1
  }

  lemma SuspendedStepGetsCloser(s: State, t: State)
    requires Inv(s) && Next(s, t) && InterfaceBlocked(s)
    ensures t.ui == s.ui
    ensures InterfaceBlocked(t) ==> StepsLeft(t) < StepsLeft(s)
  {
    var a :| Enabled(s, a) && t == Do(s, a);
  }

  /** However the threads are scheduled, a suspended interface is free to take the screen
      back within `StepsLeft` steps: no run keeps it blocked for longer. */
  lemma {:induction false} TheScreenComesBack(run: seq<State>, i: nat, j: nat)
    requires IsRun(run) && i <= j < |run|
    requires InterfaceBlocked(run[i])
    requires j - i >= StepsLeft(run[i])
    ensures exists k :: i < k <= j && run[k].ui == run[i].ui && !InterfaceBlocked(run[k])
    decreases j - i
  {
    RunInv(run, i);
    if i < j {
      SuspendedStepGetsCloser(run[i], run[i + 1]);
      if InterfaceBlocked(run[i + 1]) {
        TheScreenComesBack(run, i + 1, j);
      }
    }
  }

  /** Once `done` is closed it stays closed, so the interface stays free to wake. */
  lemma FreedStaysFree(run: seq<State>, i: nat)
    requires IsRun(run) && i + 1 < |run|
    requires run[i].ui.Suspended? && !InterfaceBlocked(run[i])
    ensures run[i + 1].ui == run[i].ui ==> !InterfaceBlocked(run[i + 1])
    ensures run[i + 1].ui != run[i].ui ==> run[i + 1].ui.Drawing? || run[i + 1].ui.Gone?
  {
    RunInv(run, i);
    var a :| Enabled(run[i], a) && run[i + 1] == Do(run[i], a);
  }

  /** What a request the jobs thread has let go of looks like from then on. */
  ghost predicate LetGo(s: State, id: nat) {
    id < s.next && (s.jobs == Refused(id) || id !in s.doneOpen)
  }

  lemma LetGoStays(s: State, t: State, id: nat)
    requires Inv(s) && Next(s, t) && LetGo(s, id)
    ensures LetGo(t, id)
  {
    var a :| Enabled(s, a) && t == Do(s, a);
  }

  /** A request given up on is never granted later, however late its `ready` comes. */
  lemma {:induction false} AbandonedIsNeverGranted(run: seq<State>, i: nat, j: nat)
    requires IsRun(run) && i <= j < |run|
    requires run[i].jobs.Refused?
    ensures LetGo(run[j], run[i].jobs.id)
    ensures run[j].jobs.Granted? || run[j].jobs.Prompting? ==> run[j].jobs.id != run[i].jobs.id
    decreases j - i
  {
    RunInv(run, j);
    if i < j {
      AbandonedIsNeverGranted(run, i, j - 1);
      RunInv(run, j - 1);
      LetGoStays(run[j - 1], run[j], run[i].jobs.id);
    }
  }
}
