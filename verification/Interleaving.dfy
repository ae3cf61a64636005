/** The console program with its two threads (app/core/ConsoleApp.cpp:41-92, app/core/EventQueue.cpp:6-32,
    app/core/LogWorker.cpp:23-85).  A step is what one thread does between two points where the other can be seen:
    a critical section under the queue's or the error's mutex, a notification, a call of `log`, or one atomic
    update.  Waiting releases the lock and sleeps in one step; a sleeping thread can wake for no reason and looks
    at its condition again before it goes on. */
module Interleaving {
  import opened Wrappers
  import opened LogLevel
  import opened InputParser
  import opened EventQueue
  import opened LogWorker
  import opened Reasons
  import opened ConsoleApp

  /** Where the main thread is. */
  datatype Place = Reading | Notifying | Reporting | Closing | NotifyingAll | Joining | Done

  /** Where the worker is; with an event in hand, after a call of `log`, or between recording a reason and
      counting the failure. */
  datatype Thread = Locking | Sleeping | Holding(event: Event) | Calling(outcome: LogOutcome) | Counting | Exited

  /** What a run is given: the lines typed, the threshold set up and the outcomes of `log`. */
  datatype Setting = Setting(lines: seq<string>, threshold: Level, oracle: Oracle)

  /** `marks` holds, for every reason printed, its place among the reasons recorded. */
  datatype State = State(place: Place, next: nat, running: bool, level: Level, reported: string,
                         printed: seq<string>, marks: seq<int>, queue: seq<Event>, closed: bool, thread: Thread,
                         worker: Worker)

  datatype Actor = Main | Background | SpuriousWakeUp

  function Start(c: Setting): State {
    State(Reading, 0, true, c.threshold, "", [], [], [], false, Locking, Fresh(c.threshold))
  }

  predicate IsEnabled(s: State, actor: Actor) {
    match actor
    case Main => !s.place.Done? && (s.place.Joining? ==> s.thread.Exited?)
    case Background => !s.thread.Sleeping? && !s.thread.Exited?
    case SpuriousWakeUp => s.thread.Sleeping?
  }

  function Step(c: Setting, s: State, actor: Actor): State
    requires IsEnabled(s, actor)
  {
    match actor
    case Main => MainStep(c, s)
    case Background => WorkerStep(c, s)
    case SpuriousWakeUp => s.(thread := Locking)
  }

  function MainStep(c: Setting, s: State): State
    requires IsEnabled(s, Main)
  {
    match s.place
    case Reading => if s.running && s.next < |c.lines| then Take(c, s) else s.(place := Closing)
    case Notifying => Woken(s).(place := Reporting)
    case Reporting => Report(s)
    case Closing => s.(closed := true, place := NotifyingAll)
    case NotifyingAll => Woken(s).(place := Joining)
    case _ => s.(place := Done)
  }

  /** A line is read, parsed and what it asks for is put into the queue. */
  function Take(c: Setting, s: State): State
    requires s.next < |c.lines|
  {
    var t := s.(next := s.next + 1, place := Reporting);
    match ParseUserInput(c.lines[s.next], s.level)
    case Message(level, text) => Pushed(t, Write(level, text))
    case LevelCommand(level) => Pushed(t.(level := level), SetLevel(level))
    case QuitCommand => t.(running := false)
    case _ => t
  }

  function Pushed(s: State, event: Event): State {
    if s.closed then s.(running := false)
    else s.(queue := s.queue + [event], place := Notifying)
  }

  function Woken(s: State): State {
    if s.thread.Sleeping? then s.(thread := Locking) else s
  }

  function Report(s: State): State {
    var reason := s.worker.lastError;
    if reason != "" && reason != s.reported then
      s.(place := Reading, reported := reason, printed := s.printed + [reason],
         marks := s.marks + [|s.worker.reasons| - 1])
    else s.(place := Reading)
  }

  function WorkerStep(c: Setting, s: State): State
    requires IsEnabled(s, Background)
  {
    match s.thread
    case Locking =>
      (match Attempt(s.queue, s.closed)
       case MustWait => s.(thread := Sleeping)
       case Finished => s.(thread := Exited)
       case Took(event) => s.(thread := Holding(event), queue := s.queue[1..]))
    case Holding(SetLevel(level)) => s.(thread := Locking, worker := s.worker.(threshold := level))
    case Holding(Write(level, message)) =>
      if s.worker.IsEnabled(level)
      then s.(thread := Calling(c.oracle(|s.worker.calls|)), worker := s.worker.Called(level, message))
      else s.(thread := Locking, worker := s.worker.Ended(Filtered))
    case Calling(outcome) =>
      if outcome.Written? then s.(thread := Locking, worker := s.worker.Ended(Processed))
      else s.(thread := Counting, worker := s.worker.Recorded(ReasonOf(outcome)))
    case _ => s.(thread := Locking, worker := s.worker.Ended(Failed))
  }

  predicate Moves(c: Setting, s: State, actor: Actor, t: State) {
    IsEnabled(s, actor) && t == Step(c, s, actor)
  }

  /** States in a row and who moved from each to the next. */
  ghost predicate IsPath(c: Setting, states: seq<State>, schedule: seq<Actor>) {
    && |states| == |schedule| + 1
    && forall i {:trigger schedule[i]} | 0 <= i < |schedule| :: Moves(c, states[i], schedule[i], states[i + 1])
  }

  /** A run, complete or not, under some schedule. */
  ghost predicate IsRun(c: Setting, states: seq<State>, schedule: seq<Actor>) {
    IsPath(c, states, schedule) && states[0] == Start(c)
  }

  /** A state that some schedule leads to. */
  ghost predicate IsReachable(c: Setting, s: State) {
    exists states, schedule :: IsRun(c, states, schedule) && s == states[|schedule|]
  }

  // ----- what is still to be done comes to what the lines read come to -----

  /** The worker once it is done with what it is doing. */
  function AtRest(thread: Thread, w: Worker, oracle: Oracle): Worker {
    match thread
    case Holding(event) => w.Handled(event, oracle)
    case Calling(outcome) => w.Concluded(outcome)
    case Counting => w.Ended(Failed)
    case _ => w
  }

  /** The worker once it is done with the queue too. */
  function Settled(thread: Thread, w: Worker, queue: seq<Event>, oracle: Oracle): Worker {
    AtRest(thread, w, oracle).HandledAll(queue, oracle)
  }

  function SoFar(c: Setting, s: State): Session
    requires s.next <= |c.lines|
  {
    Interpret(c.lines, s.next, c.threshold, c.oracle)
  }

  ghost predicate Follows(c: Setting, s: State) {
    && s.next <= |c.lines|
    && s.level == SoFar(c, s).level
    && s.running == !SoFar(c, s).quit
    && Settled(s.thread, s.worker, s.queue, c.oracle) == SoFar(c, s).worker
  }

  predicate IsStopping(place: Place) {
    place.Closing? || place.NotifyingAll? || place.Joining? || place.Done?
  }

  /** Who may be where.  The third line is that no wake-up is lost. */
  ghost predicate IsOrderly(c: Setting, s: State) {
    && (s.closed <==> IsStopping(s.place) && !s.place.Closing?)
    && (IsStopping(s.place) && s.running ==> s.next == |c.lines|)
    && (s.thread.Sleeping? && (s.queue != [] || s.closed) ==> s.place.Notifying? || s.place.NotifyingAll?)
    && (s.thread.Exited? ==> s.closed && s.queue == [])
    && (s.place.Done? ==> s.thread.Exited?)
  }

  ghost predicate IsCounted(w: Worker) {
    && |w.fates| == w.processed + w.failed + CountFiltered(w.fates)
    && w.lastError == (if w.reasons == [] then "" else w.reasons[|w.reasons| - 1])
  }

  /** Each failure is counted right after its reason is recorded. */
  ghost predicate KeepsCounts(s: State) {
    && IsCounted(s.worker)
    && |s.worker.reasons| == s.worker.failed + (if s.thread.Counting? then 1 else 0)
    && (s.thread.Calling? ==> s.worker.calls != [])
  }

  ghost predicate Reports(s: State) {
    && IsStutterFree(s.printed, s.marks, s.worker.reasons)
    && s.reported == (if s.printed == [] then "" else s.printed[|s.printed| - 1])
  }

  ghost predicate Invariant(c: Setting, s: State) {
    Follows(c, s) && IsOrderly(c, s) && KeepsCounts(s) && Reports(s)
  }

  lemma PushSettles(thread: Thread, w: Worker, queue: seq<Event>, event: Event, oracle: Oracle)
    ensures Settled(thread, w, queue + [event], oracle) == Settled(thread, w, queue, oracle).Handled(event, oracle)
  {
    hide Worker.Handled, Worker.HandledAll;
    QueuedLastIsHandledLast(AtRest(thread, w, oracle), queue, event, oracle);
  }

  lemma LineSettles(thread: Thread, w: Worker, queue: seq<Event>, session: Session, line: string, oracle: Oracle)
    requires Settled(thread, w, queue, oracle) == session.worker && !session.quit
    ensures Settled(thread, w, queue + Asked(line, session.level), oracle) == After(session, line, oracle).worker
  {
    hide ParseUserInput, TakesDefault, Worker.Handled, Settled;
    var asked := Asked(line, session.level);
    if asked == [] {
      assert queue + asked == queue;
    } else {
      PushSettles(thread, w, queue, asked[0], oracle);
    }
  }

  lemma TakeTurns(c: Setting, s: State, session: Session)
    requires s.next < |c.lines| && !s.closed && s.running && !session.quit && s.level == session.level
    ensures var line, t := c.lines[s.next], Take(c, s);
            && t.queue == s.queue + Asked(line, s.level) && t.thread == s.thread && t.worker == s.worker
            && t.next == s.next + 1
            && t.level == After(session, line, c.oracle).level && t.running == !After(session, line, c.oracle).quit
  {
    hide ParseUserInput, TakesDefault, Worker.Handled;
  }

  lemma TakeFollows(c: Setting, s: State)
    requires Follows(c, s) && s.running && s.next < |c.lines| && !s.closed
    ensures Follows(c, Take(c, s))
  {
    hide Settled, After, Take, Asked;
    LineSettles(s.thread, s.worker, s.queue, SoFar(c, s), c.lines[s.next], c.oracle);
    TakeTurns(c, s, SoFar(c, s));
  }

  lemma TakeIsOrderly(c: Setting, s: State)
    requires IsOrderly(c, s) && s.place.Reading? && s.running && s.next < |c.lines|
    ensures IsOrderly(c, Take(c, s))
  {
    hide ParseUserInput;
  }

  lemma MainFollows(c: Setting, s: State)
    requires Follows(c, s) && IsOrderly(c, s) && IsEnabled(s, Main)
    ensures Follows(c, MainStep(c, s))
  {
    hide Take, Worker.HandledAll, Worker.Handled, Interpret;
    if s.place.Reading? && s.running && s.next < |c.lines| {
      TakeFollows(c, s);
    }
  }

  lemma MainIsOrderly(c: Setting, s: State)
    requires IsOrderly(c, s) && IsEnabled(s, Main) && s.next <= |c.lines|
    ensures IsOrderly(c, MainStep(c, s))
  {
    hide Take;
    if s.place.Reading? && s.running && s.next < |c.lines| {
      TakeIsOrderly(c, s);
    }
  }

  lemma MainLeavesTheWorker(c: Setting, s: State)
    requires IsEnabled(s, Main)
    ensures var t := MainStep(c, s);
            && t.worker == s.worker
            && t.thread == (if s.place.Notifying? || s.place.NotifyingAll? then Woken(s).thread else s.thread)
            && (!s.place.Reporting? ==> t.printed == s.printed && t.marks == s.marks && t.reported == s.reported)
  {
    hide ParseUserInput;
  }

  lemma OneMorePrint(printed: seq<string>, marks: seq<int>, reasons: seq<string>)
    requires IsStutterFree(printed, marks, reasons) && reasons != []
    requires reasons[|reasons| - 1] != ""
    requires printed == [] || printed[|printed| - 1] != reasons[|reasons| - 1]
    ensures IsStutterFree(printed + [reasons[|reasons| - 1]], marks + [|reasons| - 1], reasons)
  {
    if printed != [] {
      assert marks[|printed| - 1] < |reasons| - 1;
    }
  }

  lemma MainReports(c: Setting, s: State)
    requires Reports(s) && IsCounted(s.worker) && IsEnabled(s, Main)
    ensures Reports(MainStep(c, s))
  {
    hide Take, IsStutterFree, CountFiltered;
    MainLeavesTheWorker(c, s);
    if s.place.Reporting? && Report(s).printed != s.printed {
      OneMorePrint(s.printed, s.marks, s.worker.reasons);
    }
  }

  lemma WorkerFollows(c: Setting, s: State)
    requires Follows(c, s) && IsEnabled(s, Background)
    ensures Follows(c, WorkerStep(c, s))
  {
    hide Interpret;
  }

  lemma EndingKeepsCounts(w: Worker, fate: Fate)
    requires IsCounted(w)
    ensures IsCounted(w.Ended(fate))
    ensures w.Ended(fate).failed == w.failed + (if fate.Failed? then 1 else 0) && w.Ended(fate).reasons == w.reasons
  {
    OneMoreFate(w.fates, fate);
    hide CountFiltered;
  }

  lemma CallingKeepsCounts(w: Worker, level: Level, message: string, reason: string)
    requires IsCounted(w)
    ensures IsCounted(w.Called(level, message)) && IsCounted(w.Recorded(reason))
    ensures IsCounted(w.(threshold := level))
  {
    hide CountFiltered;
  }

  lemma ReasonsOnlyGrow(c: Setting, s: State)
    requires IsEnabled(s, Background)
    ensures s.worker.reasons <= WorkerStep(c, s).worker.reasons
  {
  }

  lemma WorkerKeepsCounts(c: Setting, s: State)
    requires KeepsCounts(s) && IsEnabled(s, Background)
    ensures KeepsCounts(WorkerStep(c, s))
  {
    hide IsCounted, Worker.Ended;
    match s.thread
    case Holding(SetLevel(level)) => CallingKeepsCounts(s.worker, level, "", "");
    case Holding(Write(level, message)) =>
      EndingKeepsCounts(s.worker, Filtered);
      CallingKeepsCounts(s.worker, level, message, "");
    case Calling(outcome) =>
      EndingKeepsCounts(s.worker, Processed);
      CallingKeepsCounts(s.worker, 0, "", ReasonOf(outcome));
    case Counting => EndingKeepsCounts(s.worker, Failed);
    case _ =>
  }

  lemma WorkerIsOrderly(c: Setting, s: State)
    requires IsOrderly(c, s) && IsEnabled(s, Background)
    ensures IsOrderly(c, WorkerStep(c, s))
  {
  }

  lemma MoreReasons(printed: seq<string>, marks: seq<int>, before: seq<string>, after: seq<string>)
    requires IsStutterFree(printed, marks, before) && before <= after
    ensures IsStutterFree(printed, marks, after)
  {
  }

  lemma WorkerLeavesMain(c: Setting, s: State)
    requires IsEnabled(s, Background)
    ensures var t := WorkerStep(c, s);
            t == s.(thread := t.thread, queue := t.queue, worker := t.worker)
  {
  }

  lemma WorkerReports(c: Setting, s: State)
    requires Reports(s) && KeepsCounts(s) && IsEnabled(s, Background)
    ensures Reports(WorkerStep(c, s))
  {
    hide WorkerStep, KeepsCounts, IsStutterFree;
    ReasonsOnlyGrow(c, s);
    WorkerLeavesMain(c, s);
    MoreReasons(s.printed, s.marks, s.worker.reasons, WorkerStep(c, s).worker.reasons);
  }

  lemma StepKeeps(c: Setting, s: State, actor: Actor)
    requires Invariant(c, s) && IsEnabled(s, actor)
    ensures Invariant(c, Step(c, s, actor))
  {
    match actor
    case Main =>
      hide MainStep, Follows, IsOrderly, Reports, CountFiltered;
      MainFollows(c, s);
      MainIsOrderly(c, s);
      MainLeavesTheWorker(c, s);
      MainReports(c, s);
    case Background =>
      hide WorkerStep, Follows, IsOrderly, KeepsCounts, Reports;
      WorkerFollows(c, s);
      WorkerIsOrderly(c, s);
      WorkerKeepsCounts(c, s);
      WorkerReports(c, s);
    case SpuriousWakeUp =>
      hide IsStutterFree, CountFiltered, Interpret, Worker.HandledAll;
  }

  lemma {:induction false} RunsKeep(c: Setting, states: seq<State>, schedule: seq<Actor>, i: nat)
    requires IsRun(c, states, schedule) && i <= |schedule|
    ensures Invariant(c, states[i])
  {
    if i > 0 {
      hide Invariant, Step, IsEnabled;
      RunsKeep(c, states, schedule, i - 1);
      assert Moves(c, states[i - 1], schedule[i - 1], states[i]);
      StepKeeps(c, states[i - 1], schedule[i - 1]);
    }
  }

  lemma ReachableStatesKeep(c: Setting, s: State)
    requires IsReachable(c, s)
    ensures Invariant(c, s)
  {
    hide Invariant, Moves;
    var states, schedule :| IsRun(c, states, schedule) && s == states[|schedule|];
    RunsKeep(c, states, schedule, |schedule|);
  }

  lemma OneMoreMove(c: Setting, states: seq<State>, schedule: seq<Actor>, actor: Actor, t: State)
    requires IsPath(c, states, schedule) && Moves(c, states[|schedule|], actor, t)
    ensures IsPath(c, states + [t], schedule + [actor])
  {
    hide Moves;
    var longer := states + [t];
    assert forall i | 0 <= i <= |schedule| :: longer[i] == states[i];
  }

  lemma OneMoveBefore(c: Setting, states: seq<State>, schedule: seq<Actor>, s: State, actor: Actor)
    requires IsPath(c, states, schedule) && Moves(c, s, actor, states[0])
    ensures IsPath(c, [s] + states, [actor] + schedule)
  {
    hide Moves;
    var all, actors := [s] + states, [actor] + schedule;
    forall i | 0 <= i < |actors| ensures Moves(c, all[i], actors[i], all[i + 1]) {
      if i > 0 {
        assert actors[i] == schedule[i - 1];
      }
    }
  }

  lemma MovesStayReachable(c: Setting, s: State, actor: Actor, t: State)
    requires IsReachable(c, s) && Moves(c, s, actor, t)
    ensures IsReachable(c, t)
  {
    hide Moves;
    var states, schedule :| IsRun(c, states, schedule) && s == states[|schedule|];
    OneMoreMove(c, states, schedule, actor, t);
    assert IsRun(c, states + [t], schedule + [actor]);
  }

  // ----- every run comes to what one thread comes to -----

  /** However the two threads take turns, when the main thread is done the worker has made the same calls and
      counted the same as if every line had taken effect at once; so the summary is the same. */
  lemma EveryInterleavingIsSequential(c: Setting, s: State)
    requires IsReachable(c, s) && s.place.Done?
    ensures s.worker == Interpret(c.lines, |c.lines|, c.threshold, c.oracle).worker
  {
    ReachableStatesKeep(c, s);
    if !s.running {
      QuitIsFinal(c.lines, s.next, |c.lines|, c.threshold, c.oracle);
    }
  }

  /** At every moment the worker has made a first part of the calls that the lines read so far come to. */
  lemma EveryMomentIsOnTheWay(c: Setting, s: State)
    requires IsReachable(c, s)
    ensures s.next <= |c.lines|
    ensures var w := SoFar(c, s).worker;
            s.worker.calls <= w.calls && s.worker.fates <= w.fates && s.worker.reasons <= w.reasons
  {
    ReachableStatesKeep(c, s);
    hide Interpret, Worker.HandledAll, IsReachable;
    HandlingOnlyAdds(AtRest(s.thread, s.worker, c.oracle), s.queue, c.oracle);
  }

  function InHand(thread: Thread): seq<Event> {
    if thread.Holding? then [thread.event] else []
  }

  lemma PendingLevelsGiveTheDefault(c: Setting, s: State)
    requires IsReachable(c, s)
    ensures LevelAfter(InHand(s.thread) + s.queue, s.worker.threshold) == s.level
  {
    ReachableStatesKeep(c, s);
    InterpretKeepsDefaults(c.lines, s.next, c.threshold, c.oracle);
    hide Interpret, IsReachable, Worker.HandledAll;
    HandledLevelAndFates(AtRest(s.thread, s.worker, c.oracle), s.queue, c.oracle);
    EventsInTwoParts(InHand(s.thread), s.queue, s.worker.threshold);
    assert (InHand(s.thread) + s.queue)[|InHand(s.thread)|..] == s.queue;
  }

  /** A message whose level was left to the default is never filtered, whatever levels are still queued. */
  lemma DefaultMessagesAreNeverFiltered(c: Setting, s: State, k: nat)
    requires IsReachable(c, s) && k < |s.worker.fates|
    ensures s.next <= |c.lines| && k < |SoFar(c, s).defaults|
    ensures SoFar(c, s).defaults[k] ==> !s.worker.fates[k].Filtered?
    ensures s.place.Done? ==> |s.worker.fates| == |SoFar(c, s).defaults|
  {
    ReachableStatesKeep(c, s);
    EveryMomentIsOnTheWay(c, s);
    InterpretKeepsDefaults(c.lines, s.next, c.threshold, c.oracle);
  }

  /** In every reachable state, of the messages dealt with so far each was passed on exactly when its level is at or
      above that of the latest level command typed before it, or the first threshold, and was filtered exactly
      otherwise; the calls are those of the messages that pass, in their order. */
  lemma ThresholdsAreObeyed(c: Setting, s: State)
    requires IsReachable(c, s)
    ensures s.next <= |c.lines|
    ensures s.worker.calls <= Passing(EventsOf(c.lines, s.next, c.threshold), c.threshold)
    ensures var events := EventsOf(c.lines, s.next, c.threshold);
            forall i | 0 <= i < |events| && events[i].Write? && CountWrites(events[..i]) < |s.worker.fates| ::
              s.worker.fates[CountWrites(events[..i])].Filtered? <==>
              events[i].level < LevelAfter(events[..i], c.threshold)
    ensures s.place.Done? ==> ObeysThresholds(s.worker, EventsOf(c.lines, |c.lines|, c.threshold), c.threshold)
  {
    EveryMomentIsOnTheWay(c, s);
    InterpretObeysThresholds(c.lines, s.next, c.threshold, c.oracle);
    InterpretObeysThresholds(c.lines, |c.lines|, c.threshold, c.oracle);
    if s.place.Done? {
      EveryInterleavingIsSequential(c, s);
    }
    hide Interpret, EventsOf, LevelAfter, CountWrites, Passing, IsReachable;
    var events, fates := EventsOf(c.lines, s.next, c.threshold), SoFar(c, s).worker.fates;
    assert forall i | 0 <= i < |events| && events[i].Write? :: IsFatedRightly(fates, events, i, c.threshold);
    assert s.worker.fates <= fates;
  }

  /** Accepted messages are never lost: each is processed, failed, filtered, in the worker's hands or queued. */
  lemma AcceptedMessagesAreAccountedFor(c: Setting, s: State)
    requires IsReachable(c, s)
    ensures s.next <= |c.lines|
    ensures var held := if s.thread.Calling? || s.thread.Counting? then 1 else CountWrites(InHand(s.thread));
            s.worker.processed + s.worker.failed + CountFiltered(s.worker.fates) + held + CountWrites(s.queue)
            == |SoFar(c, s).defaults|
  {
    ReachableStatesKeep(c, s);
    InterpretKeepsDefaults(c.lines, s.next, c.threshold, c.oracle);
    hide Interpret, IsReachable, Worker.HandledAll, CountFiltered;
    HandledLevelAndFates(AtRest(s.thread, s.worker, c.oracle), s.queue, c.oracle);
    if s.thread.Holding? {
      assert InHand(s.thread)[1..] == [];
    }
  }

  /** The reasons printed are a subsequence of the reasons recorded when the run is over, no two neighbours
      equal; and while the main loop runs, what it has printed comes from the reasons recorded by then. */
  lemma PrintedReasonsAreStutterFree(c: Setting, s: State)
    requires IsReachable(c, s)
    ensures IsStutterFree(s.printed, s.marks, s.worker.reasons)
    ensures s.place.Done? ==>
              IsStutterFree(s.printed, s.marks, Interpret(c.lines, |c.lines|, c.threshold, c.oracle).worker.reasons)
  {
    ReachableStatesKeep(c, s);
    if s.place.Done? {
      EveryInterleavingIsSequential(c, s);
    }
  }

  /** Nor does what is said at the end: the failures are the reasons, and the last of them is named. */
  lemma TheSummaryIsSequential(c: Setting, s: State)
    requires IsReachable(c, s) && s.place.Done?
    ensures var w := Interpret(c.lines, |c.lines|, c.threshold, c.oracle).worker;
            var end := SummaryOf(s.worker.processed, s.worker.failed, s.worker.lastError);
            && end == SummaryOf(w.processed, w.failed, w.lastError)
            && end.processed + end.failed + CountFiltered(w.fates) == |w.fates|
            && end.failed == |w.reasons|
            && (end.reason == if w.reasons != [] && w.reasons[|w.reasons| - 1] != ""
                              then Some(w.reasons[|w.reasons| - 1]) else None)
  {
    EveryInterleavingIsSequential(c, s);
    InterpretKeepsDefaults(c.lines, |c.lines|, c.threshold, c.oracle);
    hide Interpret, IsReachable, CountFiltered;
    SummaryNamesTheLastReason(s.worker);
  }

  /** How many reasons were recorded when the main thread looked at the last one in this step. */
  function LooksBy(s: State, actor: Actor): seq<nat> {
    if actor.Main? && s.place.Reporting? then [|s.worker.reasons|] else []
  }

  /** The same for the first `n` steps. */
  function Looks(states: seq<State>, schedule: seq<Actor>, n: nat): seq<nat>
    requires n <= |schedule| <= |states|
  {
    if n == 0 then [] else Looks(states, schedule, n - 1) + LooksBy(states[n - 1], schedule[n - 1])
  }

  /** The lines read that have been followed by a look at the last error. */
  function LookedAfter(s: State): int {
    s.next - (if s.place.Notifying? || s.place.Reporting? then 1 else 0)
  }

  lemma MainPrints(c: Setting, s: State)
    requires Reports(s) && IsOrderly(c, s) && IsEnabled(s, Main)
    ensures var t, reason := MainStep(c, s), s.worker.lastError;
            t.printed == if s.place.Reporting? && reason != "" then Printed(s.printed, reason) else s.printed
    ensures LookedAfter(MainStep(c, s)) == LookedAfter(s) + (if s.place.Reporting? then 1 else 0)
  {
    hide Take, IsStutterFree;
    MainLeavesTheWorker(c, s);
    if s.place.Reading? && s.running && s.next < |c.lines| {
      TakeMovesOn(c, s);
    }
  }

  /** What has been printed is what printing makes of the looks so far. */
  ghost predicate PrintsLooks(s: State, looks: seq<nat>) {
    && AreLooks(s.worker.reasons, looks)
    && s.printed == Changes(FoundAt(s.worker.reasons, looks))
    && |looks| == LookedAfter(s)
  }

  lemma OneLookPrints(s: State, t: State, looks: seq<nat>)
    requires PrintsLooks(s, looks) && IsCounted(s.worker) && t.worker == s.worker
    requires var reason := s.worker.lastError;
             t.printed == if reason == "" then s.printed else Printed(s.printed, reason)
    requires LookedAfter(t) == LookedAfter(s) + 1
    ensures PrintsLooks(t, looks + [|s.worker.reasons|])
  {
    OneMoreLookAt(s.worker.reasons, looks);
    hide Changes, FoundAt, AreLooks, LookedAfter, CountFiltered, Printed;
  }

  lemma MainPrintsLooks(c: Setting, s: State, looks: seq<nat>)
    requires Reports(s) && IsOrderly(c, s) && IsCounted(s.worker) && IsEnabled(s, Main) && PrintsLooks(s, looks)
    ensures PrintsLooks(MainStep(c, s), looks + LooksBy(s, Main))
  {
    MainPrints(c, s);
    MainLeavesTheWorker(c, s);
    hide MainStep, Reports, IsOrderly, Changes, FoundAt, AreLooks, LookedAfter, IsCounted, IsEnabled, Printed;
    if s.place.Reporting? {
      OneLookPrints(s, MainStep(c, s), looks);
    } else {
      assert looks + [] == looks;
    }
  }

  lemma StepPrintsLooks(c: Setting, s: State, actor: Actor, looks: seq<nat>)
    requires Invariant(c, s) && IsEnabled(s, actor) && PrintsLooks(s, looks)
    ensures PrintsLooks(Step(c, s, actor), looks + LooksBy(s, actor))
  {
    hide MainStep, WorkerStep, Follows, IsOrderly, Reports, CountFiltered, AreLooks, FoundAt, Changes;
    assert looks + [] == looks;
    match actor
    case Main => MainPrintsLooks(c, s, looks);
    case Background =>
      WorkerLeavesMain(c, s);
      ReasonsOnlyGrow(c, s);
      LooksStay(s.worker.reasons, WorkerStep(c, s).worker.reasons, looks);
    case SpuriousWakeUp =>
  }

  lemma StartPrintsLooks(c: Setting)
    ensures PrintsLooks(Start(c), [])
  {
  }

  /** Exactly the changes the main thread finds are printed, and it looks once for every line read. */
  lemma {:induction false} ChangesFoundArePrinted(c: Setting, states: seq<State>, schedule: seq<Actor>, n: nat)
    requires IsRun(c, states, schedule) && n <= |schedule|
    ensures PrintsLooks(states[n], Looks(states, schedule, n))
  {
    StartPrintsLooks(c);
    hide Step, Invariant, PrintsLooks, IsEnabled, Start;
    if n > 0 {
      ChangesFoundArePrinted(c, states, schedule, n - 1);
      RunsKeep(c, states, schedule, n - 1);
      assert Moves(c, states[n - 1], schedule[n - 1], states[n]);
      StepPrintsLooks(c, states[n - 1], schedule[n - 1], Looks(states, schedule, n - 1));
    }
  }

  /** Step `j` of the schedule is the main thread looking at the last reason. */
  predicate IsLook(states: seq<State>, schedule: seq<Actor>, j: nat)
    requires j < |schedule| <= |states|
  {
    schedule[j].Main? && states[j].place.Reporting?
  }

  /** In one of the first `n` steps the main thread looks while the last reason lies in the block of equal
      reasons that begins at `b`. */
  ghost predicate IsMet(states: seq<State>, schedule: seq<Actor>, n: nat, b: nat)
    requires n <= |schedule| < |states|
  {
    exists j: nat | j < n ::
      IsLook(states, schedule, j) && LiesInBlock(states[n].worker.reasons, b, |states[j].worker.reasons|)
  }

  lemma {:induction false} LooksAreSteps(states: seq<State>, schedule: seq<Actor>, n: nat, seen: nat)
    requires n <= |schedule| <= |states|
    ensures seen in Looks(states, schedule, n) <==>
            exists j: nat | j < n :: IsLook(states, schedule, j) && |states[j].worker.reasons| == seen
  {
    if n > 0 {
      LooksAreSteps(states, schedule, n - 1, seen);
      assert IsLook(states, schedule, n - 1) <==> LooksBy(states[n - 1], schedule[n - 1]) != [];
    }
  }

  lemma IsMetIff(states: seq<State>, schedule: seq<Actor>, n: nat, b: nat)
    requires n <= |schedule| < |states|
    ensures IsMet(states, schedule, n, b) <==>
            IsLookedInto(states[n].worker.reasons, Looks(states, schedule, n), b)
  {
    hide LiesInBlock, IsLook, Looks;
    var reasons, looks := states[n].worker.reasons, Looks(states, schedule, n);
    if IsMet(states, schedule, n, b) {
      var j: nat :| j < n && IsLook(states, schedule, j) && LiesInBlock(reasons, b, |states[j].worker.reasons|);
      LooksAreSteps(states, schedule, n, |states[j].worker.reasons|);
    }
    if IsLookedInto(reasons, looks, b) {
      var seen: nat :| seen in looks && LiesInBlock(reasons, b, seen);
      LooksAreSteps(states, schedule, n, seen);
    }
  }

  /** At any moment of any run, a reason has been printed at every change if and only if every block of equal
      reasons recorded so far has been met by a look of the main thread. */
  lemma EveryChangeIsPrintedExactlyWhen(c: Setting, states: seq<State>, schedule: seq<Actor>, n: nat)
    requires IsRun(c, states, schedule) && n <= |schedule|
    ensures var reasons := states[n].worker.reasons;
            states[n].printed == Changes(reasons) <==>
            forall b: nat | IsChange(reasons, b) :: IsMet(states, schedule, n, b)
  {
    hide Moves, IsChange, Changes, FoundAt, IsLookedInto, IsMet;
    var reasons, looks := states[n].worker.reasons, Looks(states, schedule, n);
    ChangesFoundArePrinted(c, states, schedule, n);
    EveryChangeIsPrintedIff(reasons, looks);
    forall b: nat | IsChange(reasons, b)
      ensures IsMet(states, schedule, n, b) <==> IsLookedInto(reasons, looks, b)
    {
      IsMetIff(states, schedule, n, b);
    }
  }

  /** When the run is over these are the reasons of the single-thread interpreter, whatever the schedule was. */
  lemma EveryChangeWasPrintedExactlyWhen(c: Setting, states: seq<State>, schedule: seq<Actor>)
    requires IsRun(c, states, schedule) && states[|schedule|].place.Done?
    ensures var reasons := Interpret(c.lines, |c.lines|, c.threshold, c.oracle).worker.reasons;
            states[|schedule|].printed == Changes(reasons) <==>
            forall b: nat | IsChange(reasons, b) :: IsMet(states, schedule, |schedule|, b)
  {
    hide Changes, IsChange, IsMet, Interpret, Moves;
    assert IsReachable(c, states[|schedule|]);
    EveryInterleavingIsSequential(c, states[|schedule|]);
    EveryChangeIsPrintedExactlyWhen(c, states, schedule, |schedule|);
  }

  /** A reason recorded after the main thread has looked for the last time is not printed as a change: when
      the worker gets to the only message late, the summary alone names what went wrong. */
  lemma AReasonCanGoUnprinted(c: Setting, text: string, reason: string)
      returns (states: seq<State>, schedule: seq<Actor>)
    requires c.lines == [text] && ParseUserInput(text, c.threshold).Message? && TakesDefault(text)
    requires c.oracle(0) == Refused(Some(reason)) && reason != ""
    ensures IsRun(c, states, schedule) && states[|schedule|].place.Done?
    ensures states[|schedule|].printed == [] && states[|schedule|].worker.reasons == [reason]
  {
    DefaultIsTakenOrIgnored(text, c.threshold, c.threshold);
    hide ParseUserInput, TakesDefault, IsPath;
    var s := Start(c);
    states, schedule := [s], [];
    assert IsPath(c, states, schedule) by { StandingStillIsAPath(c, s); }
    s, states, schedule := Walk(c, s, states, schedule, Main);
    s, states, schedule := Walk(c, s, states, schedule, Main);
    s, states, schedule := Walk(c, s, states, schedule, Main);
    s, states, schedule := Walk(c, s, states, schedule, Main);
    s, states, schedule := Walk(c, s, states, schedule, Main);
    s, states, schedule := Walk(c, s, states, schedule, Main);
    s, states, schedule := Walk(c, s, states, schedule, Background);
    s, states, schedule := Walk(c, s, states, schedule, Background);
    s, states, schedule := Walk(c, s, states, schedule, Background);
    s, states, schedule := Walk(c, s, states, schedule, Background);
    s, states, schedule := Walk(c, s, states, schedule, Background);
    s, states, schedule := Walk(c, s, states, schedule, Main);
  }

  lemma StandingStillIsAPath(c: Setting, s: State)
    ensures IsPath(c, [s], [])
  {
  }

  lemma Walk(c: Setting, s: State, states: seq<State>, schedule: seq<Actor>, actor: Actor)
      returns (t: State, longer: seq<State>, actors: seq<Actor>)
    requires |states| == |schedule| + 1 && s == states[|schedule|]
    requires IsPath(c, states, schedule) && IsEnabled(s, actor)
    ensures t == Step(c, s, actor) && longer == states + [t] && actors == schedule + [actor]
    ensures IsPath(c, longer, actors)
  {
    t := Step(c, s, actor);
    longer, actors := states + [t], schedule + [actor];
    OneMoreMove(c, states, schedule, actor, t);
  }

  // ----- no lost wake-up, and the program stops -----

  /** A push is never refused, and a sleeping worker with something to do has a notification on its way. */
  lemma NoWakeUpIsLost(c: Setting, s: State)
    requires IsReachable(c, s)
    ensures s.closed ==> IsStopping(s.place)
    ensures s.thread.Sleeping? && (s.queue != [] || s.closed) ==>
              IsEnabled(s, Main) && !MainStep(c, s).thread.Sleeping?
    ensures s.thread.Exited? ==> s.queue == [] && s.closed
  {
    ReachableStatesKeep(c, s);
  }

  /** Until the main thread is done, one of the two threads can move without a spurious wake-up. */
  lemma SomeThreadCanMove(c: Setting, s: State)
    requires IsReachable(c, s)
    ensures !s.place.Done? <==> IsEnabled(s, Main) || IsEnabled(s, Background)
  {
    ReachableStatesKeep(c, s);
  }

  function PlaceRank(place: Place): nat {
    match place
    case Done => 0
    case Joining => 1
    case NotifyingAll => 3
    case Closing => 4
    case Reading => 5
    case Reporting => 6
    case Notifying => 8
  }

  function ThreadRank(thread: Thread): nat {
    match thread
    case Exited => 0
    case Sleeping => 0
    case Locking => 1
    case Counting => 2
    case Calling(_) => 3
    case Holding(_) => 4
  }

  /** What is left to do: every step of a thread lessens it, a spurious wake-up adds one. */
  function Rank(c: Setting, s: State): int {
    9 * (|c.lines| - s.next) + PlaceRank(s.place) + 5 * |s.queue| + ThreadRank(s.thread)
  }

  lemma TakeMovesOn(c: Setting, s: State)
    requires s.next < |c.lines|
    ensures var t := Take(c, s);
            && t.next == s.next + 1 && t.thread == s.thread && t.closed == s.closed
            && (if t.place.Notifying? then |t.queue| == |s.queue| + 1
                else t.place.Reporting? && t.queue == s.queue)
  {
    hide ParseUserInput;
  }

  lemma MainLessensTheRank(c: Setting, s: State)
    requires IsEnabled(s, Main)
    ensures Rank(c, MainStep(c, s)) < Rank(c, s)
  {
    hide Take;
    if s.next < |c.lines| {
      TakeMovesOn(c, s);
    }
  }

  lemma WorkerLessensTheRank(c: Setting, s: State)
    requires IsEnabled(s, Background)
    ensures Rank(c, WorkerStep(c, s)) < Rank(c, s)
  {
  }

  function SpuriousIn(schedule: seq<Actor>, n: nat): nat
    requires n <= |schedule|
  {
    if n == 0 then 0 else SpuriousIn(schedule, n - 1) + (if schedule[n - 1].SpuriousWakeUp? then 1 else 0)
  }

  lemma StepsLessenTheRank(c: Setting, s: State, actor: Actor)
    requires IsEnabled(s, actor)
    ensures Rank(c, Step(c, s, actor)) <= Rank(c, s) + (if actor.SpuriousWakeUp? then 1 else -1)
  {
    hide MainStep, WorkerStep;
    match actor
    case Main => MainLessensTheRank(c, s);
    case Background => WorkerLessensTheRank(c, s);
    case SpuriousWakeUp =>
  }

  lemma StartRank(c: Setting)
    ensures Rank(c, Start(c)) == 9 * |c.lines| + 6
  {
  }

  lemma {:induction false} RunsLessenTheRank(c: Setting, states: seq<State>, schedule: seq<Actor>, n: nat)
    requires IsRun(c, states, schedule) && n <= |schedule|
    ensures n + Rank(c, states[n]) <= 9 * |c.lines| + 6 + 2 * SpuriousIn(schedule, n)
  {
    StartRank(c);
    hide Step, IsEnabled, Rank, Start;
    if n > 0 {
      RunsLessenTheRank(c, states, schedule, n - 1);
      assert Moves(c, states[n - 1], schedule[n - 1], states[n]);
      StepsLessenTheRank(c, states[n - 1], schedule[n - 1]);
    }
  }

  /** No run is longer than a bound linear in the lines typed and the spurious wake-ups; so the threads cannot
      go on forever, and with SomeThreadCanMove every run that is not cut short ends with both threads done. */
  lemma RunsAreShort(c: Setting, states: seq<State>, schedule: seq<Actor>)
    requires IsRun(c, states, schedule)
    ensures |schedule| <= 9 * |c.lines| + 6 + 2 * SpuriousIn(schedule, |schedule|)
  {
    RunsLessenTheRank(c, states, schedule, |schedule|);
    RunsKeep(c, states, schedule, |schedule|);
  }

  /** What is left to do once the queue is closed; a sleeping worker will look at the queue again. */
  function RankWhenClosed(s: State): nat {
    PlaceRank(s.place) + 5 * |s.queue| + (if s.thread.Sleeping? then 2 else ThreadRank(s.thread))
  }

  lemma ClosedMainWindsDown(c: Setting, s: State)
    requires IsOrderly(c, s) && s.closed && IsEnabled(s, Main)
    ensures MainStep(c, s).closed && RankWhenClosed(MainStep(c, s)) < RankWhenClosed(s)
    ensures MainStep(c, s).thread.Sleeping? ==> s.thread.Sleeping?
  {
    hide Take;
  }

  lemma ClosedWorkerWindsDown(c: Setting, s: State)
    requires s.closed && IsEnabled(s, Background)
    ensures WorkerStep(c, s).closed && RankWhenClosed(WorkerStep(c, s)) < RankWhenClosed(s)
    ensures !WorkerStep(c, s).thread.Sleeping?
  {
  }

  /** Once the queue is closed it stays so, the worker does not fall asleep again and every step of any kind,
      a spurious wake-up included, brings the end closer. */
  lemma ClosedRunsWindDown(c: Setting, s: State, actor: Actor)
    requires IsReachable(c, s) && s.closed && IsEnabled(s, actor)
    ensures var t := Step(c, s, actor);
            && t.closed && (t.thread.Sleeping? ==> s.thread.Sleeping?)
            && RankWhenClosed(t) < RankWhenClosed(s)
  {
    hide MainStep, WorkerStep;
    ReachableStatesKeep(c, s);
    match actor
    case Main => ClosedMainWindsDown(c, s);
    case Background => ClosedWorkerWindsDown(c, s);
    case SpuriousWakeUp =>
  }

  /** A thread that can move, and the move. */
  lemma AThreadMoves(c: Setting, s: State) returns (actor: Actor, t: State)
    requires IsReachable(c, s) && !s.place.Done?
    ensures !actor.SpuriousWakeUp? && Moves(c, s, actor, t) && IsReachable(c, t)
    ensures 0 <= Rank(c, t) < Rank(c, s)
  {
    SomeThreadCanMove(c, s);
    hide Step;
    actor := if IsEnabled(s, Main) then Main else Background;
    t := Step(c, s, actor);
    StepsLessenTheRank(c, s, actor);
    MovesStayReachable(c, s, actor, t);
    ReachableStatesKeep(c, t);
    hide IsReachable;
  }

  /** From every reachable state the two threads can finish without a spurious wake-up. */
  lemma {:induction false} EveryRunCanFinish(c: Setting, s: State) returns (states: seq<State>, schedule: seq<Actor>)
    requires IsReachable(c, s)
    ensures IsPath(c, states, schedule) && states[0] == s && states[|schedule|].place.Done?
    ensures SpuriousWakeUp !in schedule
    decreases Rank(c, s)
  {
    if s.place.Done? {
      return [s], [];
    }
    hide IsReachable, Rank, Moves;
    var actor, t := AThreadMoves(c, s);
    states, schedule := EveryRunCanFinish(c, t);
    OneMoveBefore(c, states, schedule, s, actor);
    states, schedule := [s] + states, [actor] + schedule;
  }
}
