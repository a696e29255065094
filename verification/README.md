# net-rule-router: a verified model of the console and the terminal interface

This project models, in Dafny, the parts of net-rule-router that decide things: the
administrative console (`apps/cli`), the terminal interface (`apps/tui`), the adapter choice of
the first run (`core/client-logic`) and the dependency gate (`core/dependency_graph_gate.rs`). It
proves what these parts promise over every input, every run and every interleaving.

`dafny verify dfyconfig.toml` checks the whole project.

## What is modelled

| file | part of the system |
|---|---|
| `ScreenHandOver.dfy` | the interface thread, the jobs thread, the request queue and the channel ends as one state machine: the screen is lent to a password agent and comes back |
| `ElevationPrompt.dfy` | the client that asks the service again while the agent can answer, as a class that moves that machine itself |
| `ConsoleText.dfy`, `Verbs.dfy`, `CommandLine.dfy` | the console's strings and decimals, its verb table, and its parser |
| `Elevate.dfy`, `ConsoleMain.dfy` | the argv rebuilt for the elevated process, the plan, what the stopping verbs do with the service manager, and `main` with the tree of processes one command may start |
| `SiteNotices.dfy`, `SiteNoticeLog.dfy`, `SiteNoticeRuns.dfy`, `SiteNoticePromises.dfy` | the pacing rule, the bounded log in its class and file form, its runs from any file against a ledger that forgets nothing, and what the user is promised over those runs |
| `NoticeFeed.dfy`, `Standing.dfy`, `FeedHistory.dfy`, `AppState.dfy` | the numbered feed with its choice, the standing reports and their edges, the feed as its history makes it, and the class that changes both in place |
| `PlainSession.dfy` | line mode and its loop: which notices and which lines are printed over a session |
| `BlockRoute.dfy` | blocked destinations on offer, the question, the one write |
| `DependencyGraph.dfy` | the worklist walk over the crate graph |
| `ServiceLogs.dfy` | paging the service's log, and the tail read through a window |
| `PanelHeights.dfy` | rows shared out among panels |
| `Basics.dfy` | options, results and text shared by the rest |
| `Adapters.dfy` | which adapter the first run suggests and which idle VPNs it offers |

Code that changes state is a class (or an array method) proved against functions and relations on
values; the theorems over runs are about those. Text shown to the user, clocks, processes, the
service and the disk appear as parameters.

## Where the code does less than it says

Each of these is kept as the code has it and shown by a lemma, with the condition that decides it.

- `keep_newest` promises "the most recently touched kept". Once more sites share the floor stamp
  than fit, it drops arbitrary ones and may drop the newest:
  `SiteNotices.AnOutcomeThatDropsTheNewest`, `SiteNotices.NewestIsKeptExactlyWithoutTies`.
- Whatever the settings file holds is to be no reason to stay silent. A last-notice stamp so far
  back that the 64-bit subtraction of a release build wraps silences every later notice:
  `SiteNoticePromises.AStampOutOfReachSilencesForGood`, `SiteNoticePromises.SilentForGoodExactly`.
- Sites past their day are to hold nothing back. One stamped before 1970 does, once the subtraction
  wraps, so forgetting it changes answers: `SiteNoticeRuns.AnEndlessWaitCanBeForgotten`,
  `SiteNoticeRuns.ForgettingChangesNoAnswer`.
- The same site is to wait a day unless answered. The cap can cut it out of the log before:
  `SiteNoticePromises.ASiteIsToldTwiceInADay`, `SiteNoticePromises.TheSameSiteWaitsADay`. Notices
  alone do not fill the log (`SiteNoticeRuns.NoticesNeverMeetTheCap`).
- The marker of an expected stop is to be withdrawn when no stop ran. It stays wherever the code is
  not a refusal, also when nothing is installed, the relaunch failed or the relay refused:
  `ConsoleMain.MarkerCanOutliveAStopThatNeverRan`. And it is withdrawn wherever the code is one, also
  when a re-registration, a reset or an elevated copy took the service down before it was refused:
  `ConsoleMain.MarkerCanBeWithdrawnAfterAStop`. Both are decided by
  `ConsoleMain.MarkerOutlivesExactly`.
- In line mode notices are to be printed as they arrive. One that comes with an event that opens
  another screen, or that a typed line posts (the offer of a rule-set folder), is only in the feed: `PlainSession.ANoticeIsNeverTold`,
  `PlainSession.EveryNoticeIsToldExactly`.
- A snapshot read again is to be skipped whole. It is exactly when it does not contradict itself
  about a role: `Standing.AContradictorySnapshotSpeaksAgain`,
  `Standing.RereadIsSkippedExactlyWhenConsistent`.
- A panic in one job is to cost that job only. A route write lost to one closes the question for the
  session: `BlockRoute.AWriteCanBeLost`, `BlockRoute.ClosedForGoodExactly`.

## Model

| member | source | states |
|---|---|---|
| `ScreenHandOver.RunInv` | apps/tui/src/elevation_prompt.rs:76-121 | over every interleaving a request sits in one place, an answered request still open has the interface suspended on it, and an agent runs only while its request is held |
| `ScreenHandOver.AgentOwnsTheScreen` | apps/tui/src/elevation_prompt.rs:91-104 | whenever the agent runs, in any run, the interface is blocked on that very request's `done` and cannot wake |
| `ScreenHandOver.AgentEndsBeforeTheScreenIsTakenBack` | apps/tui/src/elevation_prompt.rs:94-121 | between an agent running and the interface leaving its suspension there is a state where the agent has ended and the interface still waits |
| `ScreenHandOver.NeverBothBlocked` | apps/tui/src/full.rs:132-146 | the jobs thread waiting for `ready` and the interface waiting for `done` never block on each other |
| `ScreenHandOver.WaitingIsServed` | apps/tui/src/full.rs:83-86 | while the jobs thread waits for `ready` the interface always has a step, every step taken is one, and after at most `UntilAnswered` of them, three for each stale request ahead and two for its own, the request is answered: the timeout is not needed for progress |
| `ScreenHandOver.TheScreenComesBack` | apps/tui/src/elevation_prompt.rs:103-121 | however the threads are scheduled, a suspended interface is free to take the screen back within a bounded number of steps |
| `ScreenHandOver.FreedStaysFree` | apps/tui/src/full.rs:141-145 | once `done` is closed the interface stays free to wake until it does |
| `ScreenHandOver.AbandonedIsNeverGranted` | apps/tui/src/elevation_prompt.rs:85-93 | a request given up on is never granted later, however late its `ready` comes |
| `ElevationPrompt.OthersLeaveTheJobs` | apps/tui/src/elevation_prompt.rs:76-121 | whatever moves the interface and the agent make, possible or not, the jobs thread stays where it is, its `done` stays open, and only its own death ends the agent |
| `ElevationPrompt.PromptingClient.TakeScreen` | apps/tui/src/elevation_prompt.rs:83-93 | the screen is granted exactly when the interface is still there and answered this very request within the wait; otherwise the request is let go of; all of it a run of the two-thread machine |
| `ElevationPrompt.PromptingClient.DropSessionThenScreen` | apps/tui/src/elevation_prompt.rs:94-102 | on the way out the agent ends first, with the interface still suspended on this request and unable to wake, and the screen is given back second, which frees it; both are steps the two-thread machine enables |
| `ElevationPrompt.PromptingClient.AskWhilePrompting` | apps/tui/src/elevation_prompt.rs:103-121 | with the agent running the service is asked until the first final answer, which is returned, in at most 21 calls |
| `ElevationPrompt.PromptingClient.CallWithPrompt` | apps/tui/src/elevation_prompt.rs:76-121 | when the prompt cannot be arranged nothing is sent and no agent is started; otherwise one agent, and the first final answer |
| `ElevationPrompt.PromptingClient.Call` | apps/tui/src/elevation_prompt.rs:125-142 | a call is a run of the two-thread machine; every request but the last was refused because nobody could be asked, the last answer is returned, and a second request is made exactly with an agent, after such a refusal, once the screen was handed over |
| `ConsoleText.ParseUsizeOfDecimal` | apps/cli/src/parse.rs:348-352 | a printed count reads back as itself exactly while it fits 64 bits |
| `ConsoleText.SplitOnceAt` | apps/cli/src/parse.rs:248-251 | a flag splits at its first equals sign into the name and value it was made of |
| `Verbs.FindIn` | apps/cli/src/verbs.rs:211-218 | a lookup yields a declared verb of that name, and nothing exactly when none is declared |
| `Verbs.VerbNamesAreUnique` | apps/cli/src/verbs.rs:103-208 | no two verbs, and no two subverbs, share a name |
| `Verbs.ElevationIsOfferedWhereNeeded` | apps/cli/src/verbs.rs:92-208 | exactly the verbs that need administrator rights take `--elevate`; only the group has subverbs, and it has no flags |
| `CommandLine.CollectFlags` | apps/cli/src/parse.rs:239-286 | the loop computes the left-to-right reading in which the first argument that does not fit decides the error |
| `CommandLine.CollectedIsFits` | apps/cli/src/parse.rs:239-286 | a flag list is accepted exactly when each argument fits on its own and no name repeats, and is then read argument by argument |
| `CommandLine.LookupIsMembership` | apps/cli/src/parse.rs:297-299 | looking a flag up is asking whether some argument says it, in any place |
| `CommandLine.FlagOrderIsFree` | apps/cli/src/parse.rs:185-227 | an argv that parses does so in any order of its flags, to the same invocation |
| `Elevate.ParsedIsWellFormed` | apps/cli/src/parse.rs:304-383 | a parse yields only commands with an audit purge beside a purge and a tail in range, and the privilege the table declares |
| `Elevate.BuiltPrivilege` | apps/cli/src/parse.rs:222-226 | the privilege of a flat verb is the one of the command it builds |
| `Elevate.LogsRoundTrip` | apps/cli/src/elevate.rs:136 | the rebuilt log command reads back exactly for a tail from 1 to 2000 |
| `Elevate.UninstallRoundTrip` | apps/cli/src/elevate.rs:120-129 | the rebuilt uninstall reads back, or is refused for an audit purge without a purge |
| `Elevate.CanonicalRoundTrip` | apps/cli/src/elevate.rs:108-154 | a command's canonical argv parses exactly when the command is one a parse can yield, and then to that command, its privilege, and no elevation |
| `Elevate.ReparsedAsTyped` | apps/cli/src/elevate.rs:11-17 | whatever was typed, the elevated process parses the same command with the same privilege and is not asked to elevate again |
| `Elevate.CanonicalIsComplete` | apps/cli/src/elevate.rs:108-154 | two argvs mean the same command exactly when they are rebuilt alike |
| `ConsoleMain.RelayIsUndone` | apps/cli/src/elevate.rs:172-184 | unwrapping a relay argv gives back what was wrapped, exactly unless the account is called as the unknown one |
| `ConsoleMain.RelayIsUnambiguous` | apps/cli/src/elevate.rs:172-184 | what is recognised as a relay request is the wrapping of exactly that request |
| `ConsoleMain.RelaySettlesAsMarked` | apps/cli/src/elevate.rs:186-191 | the elevated side settles for exactly the commands the unelevated side marks as stopping the service |
| `ConsoleMain.PlanFor` | apps/cli/src/elevate.rs:83-98 | elevation is offered or requested exactly for an administrator verb on a platform that has it, with a flag or at a terminal; unsupported exactly where it was asked for in vain |
| `ConsoleMain.Console.Retry` | apps/cli/src/elevate.rs:378-461 | at most one relaunch, with the canonical argv or its relay wrapping, only when requested or answered yes; the code of each outcome, the elevated copy's own where it arrives |
| `ConsoleMain.Console.RunRelay` | apps/cli/src/elevate.rs:228-296 | the command runs, after the settle where it stops the service, exactly when the report could be claimed, the executable found and the child started; the code is the child's where it is seen, else failed |
| `ConsoleMain.Console.Run` | apps/cli/src/main.rs:39-99 | the elevated copy, the relay and its child are runs of the same method; one relaunch exactly for an administrator verb refused for rights with consent; when the question is put; which runs happen; the marker afterwards |
| `ConsoleMain.ElevatedSideRunsWhatWasTyped` | apps/cli/src/elevate.rs:404-431 | the elevated side parses the typed command however it gets there, takes it for no second relay, and relaunches again only at a terminal where someone answers yes |
| `ConsoleMain.MarkerCanOutliveAStopThatNeverRan` | apps/cli/src/main.rs:93-97 | `stop --elevate` keeps the marker though no process took the service down, in three ways: nothing is installed, the executable cannot be located, the relay refuses its report path |
| `ConsoleMain.MarkerOutlivesExactly` | apps/cli/src/main.rs:93-121 | for every argv and every world, each of these exactly: the marker is kept with nothing taken down where the verb came to nothing for another reason than rights, or the rights were consented to and the relaunch, the relay or the process behind it came to nothing without saying so; it is withdrawn where the last word was a refusal; it is withdrawn although the service went down where some process took it down and the last word was a refusal all the same |
| `ConsoleMain.MarkerCanBeWithdrawnAfterAStop` | apps/cli/src/main.rs:93-121 | three ways the marker is withdrawn although the service went down: `reinstall` refused after its removal, `reset-network --confirm --stop-service` refused after its stop, `stop --elevate` whose elevated copy took the service down and was refused |
| `ConsoleMain.ProcessIsByCommand` | apps/cli/src/elevate.rs:404-461 | the outcome of the whole tree of processes, through every argv between them, is the one read off the command alone |
| `SiteNotices.LongAgoIsTheRule` | shared/contracts/src/site_notice.rs:15-19 | a stamp holds a notice back as the rule says exactly unless the subtraction wraps |
| `SiteNotices.NewestIsKeptExactlyWithoutTies` | apps/tui/src/site_notices.rs:87-103 | every outcome of the cut keeps the newest exactly when the floor stamp is not shared past the cap, or nothing is newer than it |
| `SiteNotices.AnOutcomeThatDropsTheNewest` | apps/tui/src/site_notices.rs:96-102 | with ties past the cap and something newer, some outcome drops a newer site and keeps an older |
| `SiteNotices.FloorIsUnique` | apps/tui/src/site_notices.rs:92-95 | the floor stamp is determined by the sites |
| `SiteNotices.SortDescending` | apps/tui/src/site_notices.rs:92-94 | the sorted stamps fall and hold each threshold as often as before |
| `SiteNoticeLog.SiteNoticeLog.FromSection` | apps/tui/src/site_notices.rs:54-69 | reading a section, in any order of its keys, yields what its stamps say, cut to the cap, with plain hosts only |
| `SiteNoticeLog.SiteNoticeLog.KeepNewest` | apps/tui/src/site_notices.rs:87-103 | exactly the cap is kept of more sites, unchanged, and none below the floor |
| `SiteNoticeLog.SiteNoticeLog.Told` | apps/tui/src/site_notices.rs:116-123 | telling stamps the log and, for a plain host, forgets stale sites and stamps the host, within the cap; the log stays within its bounds |
| `SiteNoticeLog.SiteNoticeLog.Answered` | apps/tui/src/site_notices.rs:125-130 | answering stamps a plain host and keeps the log within its bounds |
| `SiteNoticeLog.SiteNoticeLog.Tell` | apps/tui/src/site_notices.rs:161-172 | it tells exactly when the rule lets it, and otherwise changes nothing |
| `SiteNoticeLog.SiteNoticeLog.ToSection` | apps/tui/src/site_notices.rs:71-85 | the section written holds exactly the log's stamps |
| `SiteNoticeLog.SectionRoundTrip` | apps/tui/src/site_notices.rs:53-85 | what was written reads back as the log it was written from |
| `SiteNoticeLog.WrittenOneWay` | apps/tui/src/site_notices.rs:71-85 | one log is written in only one way |
| `SiteNoticeRuns.ForgettingChangesNoAnswer` | apps/tui/src/site_notices.rs:132-137 | from any log a file can yield, while the cap is not met and the clock does not go back, the log answers as a ledger that keeps every stamp at every point of the run, exactly when no notice made it forget an unanswered stamp from before 1970 |
| `SiteNoticeRuns.NoticesNeverMeetTheCap` | apps/tui/src/site_notices.rs:116-138 | a run in which nothing is answered adds at most 48 sites to what the file held, so the cap evicts none as long as the file leaves room for those |
| `SiteNoticePromises.NoticesAreHalfAnHourApart` | apps/tui/src/site_notices.rs:1-4 | in every run from every file, with a clock that does not go back, two notices that went out are at least half an hour apart |
| `SiteNoticePromises.TheSameSiteWaitsADay` | apps/tui/src/site_notices.rs:1-4 | in every run, within a day of a notice about a plain host the next one about it goes out exactly when it is unmuted, the half hour is over, and the host was answered in between, or the log holds an answer no earlier than the first notice, or the cap cut the host out in between |
| `SiteNoticePromises.ASiteIsToldTwiceInADay` | apps/tui/src/site_notices.rs:87-130 | a run from the empty log, of one notice and 1024 answers about other sites, after which the cap has cut the site and it is told again half an hour later, unanswered |
| `SiteNoticeRuns.RunsStayValid` | apps/tui/src/site_notices.rs:25-51 | every log of every run from any file holds at most 1024 plain hosts, each with a stamp |
| `SiteNoticeRuns.FilesStartRuns` | apps/tui/src/site_notices.rs:53-69 | every log read from a section starts a run, and every run starts from a log some section yields |
| `SiteNoticeRuns.AnEndlessWaitCanBeForgotten` | apps/tui/src/site_notices.rs:132-137 | a log with the least stamp there is, met by one notice about another site, comes to answer otherwise than the ledger |
| `SiteNoticePromises.SilentForGoodExactly` | shared/contracts/src/site_notice.rs:15-35 | no notice goes out in any run from a log when its last notice lies so far back that the subtraction wraps, or so late that no clock gets past its half hour; and in every other case a notice about a plain host does in some run |
| `SiteNoticePromises.AStampOutOfReachSilencesForGood` | apps/tui/src/site_notices.rs:5-9 | a log read from a section whose last-notice stamp is the least there is tells nothing in any run, whatever is told and answered, though no wait is running |
| `NoticeFeed.SessionsStayInOrder` | apps/tui/src/state.rs:1157-1165 | over every session the feed holds at most 200, its numbers rise and none is above the count, and the chosen place is in range |
| `NoticeFeed.NumbersAreNeverReused` | apps/tui/src/state.rs:1158-1165 | a number names one notice for the whole session and does not come back once gone |
| `NoticeFeed.DismissingAnotherKeepsTheChoice` | apps/tui/src/feed.rs:272-286 | dismissing another notice leaves the chosen one chosen |
| `NoticeFeed.DismissingTheChosenKeepsThePlace` | apps/tui/src/feed.rs:272-286 | dismissing the chosen one leaves the choice at the same place, clamped to the end, on the next older notice |
| `NoticeFeed.ArrivalsMoveOnlyAFreeChoice` | apps/tui/src/feed.rs:244-250 | a new notice takes the choice exactly when no notice still there was chosen by number |
| `NoticeFeed.ChooseAtChooses` | apps/tui/src/feed.rs:260-263 | choosing a place chooses the notice there, clamped to the last |
| `NoticeFeed.WithoutCutsOne` | apps/tui/src/feed.rs:278 | in a feed in order, dismissing a number removes exactly that notice |
| `NoticeFeed.DismissIsExact` | apps/tui/src/feed.rs:272-286 | a dismissal takes down the notice of that number, if it is there, and no other |
| `NoticeFeed.MuteIsExact` | apps/tui/src/notice_mutes.rs:39-47 | a mute takes exactly the silenced kinds out of the feed |
| `Standing.DownIsTheLastReport` | apps/tui/src/state.rs:1074-1134 | after any mix of pushes and snapshots a role is down exactly when its last report says so, with that status and quietness |
| `Standing.EverythingSaidIsAnEdge` | apps/tui/src/state.rs:1013-1134 | everything announced in a run equals what the history of readings makes news: restored and fault notices, held and carried changes, refused revisions, selective routing |
| `Standing.RestoredFollowsALoudFault` | apps/tui/src/state.rs:1083-1106 | a restored notice directly follows, among the reports about its role, a fault that was not quiet and whose end is news |
| `Standing.SplitIsExplainedOnce` | apps/tui/src/state.rs:963-984 | selective routing is explained once if it is ever seen, and else never |
| `Standing.RereadIsSkippedExactlyWhenConsistent` | apps/tui/src/state.rs:816-850 | read again, a snapshot's reports are all skipped exactly when reports about one role agree |
| `Standing.RereadIsSilent` | apps/tui/src/state.rs:398-447 | a consistent snapshot read again, reports and other readings, changes nothing and says nothing |
| `Standing.AContradictorySnapshotSpeaksAgain` | apps/tui/src/state.rs:812-850 | a snapshot that reports one role down and up again says both anew each time it is read |
| `FeedHistory.TheFeedTellsTheEdges` | apps/tui/src/state.rs:1157-1165 | whatever was pushed, read, muted, dismissed and chosen, the feed has counted everything the history had to say, each notice in it is the one said under its number, and a number is there exactly when no mute or dismissal took it down since and 200 newer ones never stood beside it |
| `FeedHistory.TheNewestStandExactly` | apps/tui/src/state.rs:1157-1165 | the feed is simply the newest of everything said, up to 200, exactly when no mute or dismissal took one of those down |
| `AppState.Session` | apps/tui/src/state.rs:343-457 | the class, taken through any history of readings, mutes and the user's choices and dismissals, stands and tells exactly what the history says |
| `AppState.AppState.PostNotice` | apps/tui/src/state.rs:1157-1175 | posting numbers the notice, appends it and drops the oldest beyond the capacity |
| `AppState.AppState.TakeDown` | apps/tui/src/feed.rs:272-286 | the in-place dismissal is the value-level one, and says whether the notice was there |
| `AppState.AppState.MoveChoice` | apps/tui/src/feed.rs:265-268 | a step moves the choice by places from the chosen one, stopping at both ends |
| `AppState.AppState.SetMutes` | apps/tui/src/notice_mutes.rs:37-47 | the loop over the feed leaves what the mute function leaves, which is exactly what is not silenced, and keeps everything else |
| `AppState.AppState.EnforcementChanged` | apps/tui/src/state.rs:1073-1134 | a report replaces or ends the role's state and posts exactly its news |
| `AppState.AppState.ApplyStandingEnforcement` | apps/tui/src/state.rs:812-850 | the loop over a snapshot's reports is the fold of its readings, and the feed gets exactly their news in order |
| `AppState.AppState.RoutesHeldChanged` | apps/tui/src/state.rs:1010-1040 | a held-routes reading is kept and posted exactly when it differs and is not muted |
| `AppState.AppState.TrafficCarriedChanged` | apps/tui/src/state.rs:1042-1071 | a carried-traffic reading is kept and posted exactly when it differs and is not muted |
| `AppState.AppState.RevisionIntegrityReading` | apps/tui/src/state.rs:940-961 | a refused revision is posted exactly when the refusal appears |
| `AppState.AppState.VpnSplitReading` | apps/tui/src/state.rs:963-984 | selective routing is posted at its first reading |
| `PlainSession.FreshIsTheDifference` | apps/tui/src/plain.rs:61-70 | the lines printed are, copy for copy, the new screen minus the old |
| `PlainSession.NothingFreshExactlyWhenHeld` | apps/tui/src/plain.rs:61-70 | nothing is printed exactly when the old screen holds every line of the new one as often |
| `PlainSession.PrintsTheNewExactlyWhenNoneIsGone` | apps/tui/src/plain.rs:49-59 | on any feed, the notices printed are exactly those numbered above the last count, exactly when every such number is still there or nothing older is |
| `PlainSession.ANoticeIsNeverTold` | apps/tui/src/plain.rs:327-343 | a notice that comes with the snapshot that opens the setup, or that a typed line posts, is in the feed and is never told, whatever follows |
| `PlainSession.PostsPrintOnce` | apps/tui/src/plain.rs:49-59 | from a count that is up to date, what is printed after any posts is those posts, the last 200 of them |
| `PlainSession.NoNoticeIsToldTwice` | apps/tui/src/plain.rs:275-362 | over every session of arrivals, typed lines and help the numbers told rise strictly: no notice is told twice |
| `PlainSession.EveryNoticeIsToldExactly` | apps/tui/src/plain.rs:327-343 | every notice of a session is told exactly when no typed line posts one, no event posts while it opens another screen, and none posts more than the feed keeps |
| `PlainSession.Turn` | apps/tui/src/plain.rs:327-354 | one turn of the loop changes the feed as the event says, leaves the count seen up to date, and tells exactly the event's retained posts, unless it opened another screen |
| `PlainSession.Session` | apps/tui/src/plain.rs:275-362 | from start to end the notices printed are exactly those the history of events calls for, in the order of their numbers |
| `PlainSession.PlainSession.Changed` | apps/tui/src/plain.rs:47-73 | a change prints the new notices, then the lines there are no more copies of, and remembers both |
| `BlockRoute.OffersAreTheMostRecent` | apps/tui/src/block_route.rs:87-96 | arrivals lead to the first distinct destinations of the history read backwards, cut to the cap |
| `BlockRoute.SessionOffersAreTheMostRecent` | apps/tui/src/block_route.rs:87-96 | until a question is answered a session's offers are the five most recent eligible destinations |
| `BlockRoute.SessionsKeepOneWriteOut` | apps/tui/src/block_route.rs:112-156 | in every session offers are distinct and at most five, no question is open while a write is out, and at most one write is out |
| `BlockRoute.WritesAreTheConfirmed` | apps/tui/src/block_route.rs:142-181 | at every point of a session the writes out are the destinations confirmed while connected, in that order, less as many as have ended: none is lost, doubled or made up |
| `BlockRoute.ALostWriteIsTheLast` | apps/tui/src/block_route.rs:114-125 | once a write is out of the way without its reply, no question opens and nothing is written in any continuation |
| `BlockRoute.ClosedForGoodExactly` | apps/tui/src/backend.rs:150-163 | after any session no continuation opens a question or writes, exactly when a job came to nothing while its write was out |
| `BlockRoute.BusyExactly` | apps/tui/src/block_route.rs:140-170 | in every session the state is busy exactly when a write is out or one was lost |
| `BlockRoute.AWriteCanBeLost` | apps/tui/src/backend.rs:150-163 | a session from the start that confirms a write and loses it |
| `BlockRoute.BlockRouteState.OnBlocked` | apps/tui/src/block_route.rs:85-96 | a block puts its trimmed destination first, once, within the cap, exactly when a rule could answer it |
| `BlockRoute.BlockRouteState.AskNewest` | apps/tui/src/block_route.rs:103-110 | it asks about the newest offer, and says no exactly when nothing is offered or the question may not open |
| `BlockRoute.BlockRouteState.AskFromFeed` | apps/tui/src/feed.rs:329-338 | asking from the feed says whether the question may open (nothing else open, connected, a destination a rule could route), opens it exactly then, and remembers the notice |
| `BlockRoute.BlockRouteState.OnAnswer` | apps/tui/src/block_route.rs:140-156 | an answer closes the question; a yes while connected takes the offer down and sends the one write |
| `DependencyGraph.ReadEdges` | core/dependency_graph_gate.rs:44-67 | the edge map keeps, per node, the dependencies with a kind other than dev; the last node of an id counts |
| `DependencyGraph.LinkedDepsAreTheLinkingOnes` | core/dependency_graph_gate.rs:51-63 | a package is among a node's edges exactly when some dependency on it is not dev-only |
| `DependencyGraph.LinkedCrates` | core/dependency_graph_gate.rs:78-98 | the walk ends on every graph, cyclic or not, with exactly the names of what the root reaches by one edge or more |
| `DependencyGraph.DirectIsLinked` | core/dependency_graph_gate.rs:100-111 | every directly declared crate is linked |
| `DependencyGraph.SelfIsLinkedOnACycle` | core/dependency_graph_gate.rs:83-97 | a uniquely named package is linked into itself exactly when it lies on a cycle |
| `DependencyGraph.GateIsExact` | core/dependency_graph_gate.rs:113-120 | the gate is silent exactly when nothing forbidden is reached |
| `ServiceLogs.Fetch` | apps/cli/src/logs.rs:240-275 | against any source it makes at most `tail` calls and returns at most `tail` lines, those gathered page by page and turned round |
| `ServiceLogs.FetchIsTheNewest` | apps/cli/src/logs.rs:240-275 | against an honest pager it returns exactly the newest records in reading order, whatever the page sizes |
| `ServiceLogs.TailLines` | apps/cli/src/logs.rs:151-162 | the loop over the lines yields the specified tail, the one the window lemmas are about |
| `ServiceLogs.WindowedTailIsASuffix` | apps/cli/src/logs.rs:99-123 | for a file read whole, and for one whose window holds a line's end, the windowed tail is a suffix of the whole file's, and equal exactly when the window holds enough lines or all there are |
| `ServiceLogs.LongLineIsCutAtItsHead` | apps/cli/src/logs.rs:119-122 | without a line's end in the window, one line is shown, the end of the file's last line |
| `PanelHeights.FitHeights` | apps/tui/src/full.rs:513-533 | heights lie between the floor and what was asked, sum to the room or the floors or the wish, and are level: a panel that gave up a row is as tall as any later one and at most a row shorter than any earlier |
| `PanelHeights.FittedIsUnique` | apps/tui/src/full.rs:513-533 | bounds, total and levelness leave one way to fit the panels |
| `PanelHeights.RoomEnoughIsAsAsked` | apps/tui/src/full.rs:513-518 | panels that fit keep what they asked for |
| `PanelHeights.RoomIsFilled` | apps/tui/src/full.rs:519-532 | the panels stay within the room exactly when their floors do, and leave a row free only when all got their wish |
| `PanelHeights.Tallest` | apps/tui/src/full.rs:520-526 | the row is taken from the last of the tallest panels above the least height |
| `Adapters.FirstRunSuggestion` | core/client-logic/src/adapters.rs:275-301 | it answers exactly when one row qualifies, with that row, never the skipped one; as the main link never a row without a way out, a tunnel apart |
| `Adapters.DriverPool` | core/client-logic/src/adapters.rs:480-499 | a lone copy exactly when no other offerable row shares a named driver; otherwise whether one of the copies is up |
| `Adapters.FirstRunIdleVpns` | core/client-logic/src/adapters.rs:512-600 | every idle row is weighed once, in order, and the offer is the choice among those |
| `Adapters.OfferIsExact` | core/client-logic/src/adapters.rs:567-584 | exactly the down, offerable tunnels a program names as its link are offered, or else those tied (with none tied, untied) that are lone copies, in row order |
| `Adapters.PreselectionIsExact` | core/client-logic/src/adapters.rs:574-588 | one row is picked exactly when it is the only one offered and a program names it or it is the only idle row; then nothing is asked to be started |
| `Adapters.StartFirstIsExact` | core/client-logic/src/adapters.rs:589-599 | the start-first list names each program once and the empty label only alone; it is empty where a link is named or a row is picked, and else names exactly the programs of the idle rows with no copy of their driver up |

## Left out

- The routing engine, DNS, fake-IP and service-runtime crates: other components of the system.
- The wording of notices, locale texts, key handling and drawing: text is an opaque value here.
- Run: the service manager's answers, and whether the service went down at each, are given; verbs that do not stop the service are one exit code; the shape of the report path and the JSON of the report are the answers `claimed` and `reportRead`; a report is taken to come from the relay that claimed it, and none to be there beside a failed relaunch. On Linux a failed relaunch may be a copy killed by a signal, so whether that took the service down is given too.
- FromSection: JSON itself is not modelled; a value is a whole number or something else.
- WindowedTailIsASuffix: works on bytes and takes the test for a blank line as a parameter; the lossy decoding of the lines is applied after the split and is not modelled, nor is the refusal of a short file that is not UTF-8.
- Fetch: records arrive as their text; a record that cannot be turned into text counts as an unreadable page.
- FitHeights: heights are unbounded naturals, since a 32-bit total needs more than 65537 panels to wrap.
- ForgettingChangesNoAnswer: compares with the ledger on runs that do not meet the cap; what the cap changes is `TheSameSiteWaitsADay`.
- Session: what the screens show is given for each event; a reply takes notices down before it posts, as every reply of the interface does.
- FirstRunIdleVpns: driver families, word ties, link names and program labels come from other functions of the crate and are parameters.
- Standing: mutes that run out by themselves are readings of the set of silenced kinds; the other one-shot readings of a snapshot (system DNS, unreadable rules, foreign DNS) repeat the revision pattern.
- OnAnswer: the reply's follow-up, taking the feed notice down and announcing the outcome, is left to the feed's own dismissal and post.
- `driver_siblings`, `first_run_just_connected`, `adapter_sort_rank`, `newest_operational_log`, `wrapped_rows`: short folds and tables that would add only easier members.
- Wall-clock times beyond a clock that does not go back, a sleep that lasts at least as long as asked, and a timeout that may fire.
