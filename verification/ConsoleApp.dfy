/** The console program (app/core/ConsoleApp.cpp), first as a single thread: every line typed takes effect at
    once.  Module Interleaving shows that the two threads come to the same. */
module ConsoleApp {
  import opened Wrappers
  import opened LogLevel
  import opened InputParser
  import opened EventQueue
  import opened LogWorker
  import opened Reasons

  /** The program after some lines: the default level, whether it was told to stop, the logger and, for every
      accepted message, whether its line left the level to the default. */
  datatype Session = Session(level: Level, quit: bool, worker: Worker, defaults: seq<bool>)

  function Opened(threshold: Level): Session {
    Session(threshold, false, Fresh(threshold), [])
  }

  function After(s: Session, line: string, oracle: Oracle): Session {
    if s.quit then s
    else
      match ParseUserInput(line, s.level)
      case Message(level, text) =>
        s.(worker := s.worker.Handled(Write(level, text), oracle), defaults := s.defaults + [TakesDefault(line)])
      case LevelCommand(level) => s.(level := level, worker := s.worker.Handled(SetLevel(level), oracle))
      case QuitCommand => s.(quit := true)
      case _ => s
  }

  function Interpret(lines: seq<string>, n: nat, threshold: Level, oracle: Oracle): Session
    requires n <= |lines|
  {
    if n == 0 then Opened(threshold) else After(Interpret(lines, n - 1, threshold, oracle), lines[n - 1], oracle)
  }

  // ----- what the lines ask for -----

  /** What a line puts into the queue. */
  function Asked(line: string, level: Level): seq<Event> {
    match ParseUserInput(line, level)
    case Message(level, text) => [Write(level, text)]
    case LevelCommand(level) => [SetLevel(level)]
    case _ => []
  }

  lemma AskedIs(line: string, level: Level)
    ensures var input := ParseUserInput(line, level);
            && (input.Message? ==> Asked(line, level) == [Write(input.level, input.text)])
            && (input.LevelCommand? ==> Asked(line, level) == [SetLevel(input.level)])
            && (!input.Message? && !input.LevelCommand? ==> Asked(line, level) == [])
  {
    hide ParseUserInput;
  }

  /** One of the first `n` lines stops the program. */
  predicate HasStopped(lines: seq<string>, n: nat)
    requires n <= |lines|
  {
    exists j | 0 <= j < n :: ParseUserInput(lines[j], DEBUG).QuitCommand?
  }

  /** All that the first `n` lines ask for, each with the level of the latest command before it as the default. */
  function EventsOf(lines: seq<string>, n: nat, threshold: Level): seq<Event>
    requires n <= |lines|
  {
    if n == 0 then []
    else
      var before := EventsOf(lines, n - 1, threshold);
      before + (if HasStopped(lines, n - 1) then [] else Asked(lines[n - 1], LevelAfter(before, threshold)))
  }

  /** The session is that of these events. */
  ghost predicate HasHandled(s: Session, events: seq<Event>, stopped: bool, threshold: Level, oracle: Oracle) {
    && s.worker == Fresh(threshold).HandledAll(events, oracle)
    && s.level == LevelAfter(events, threshold) && s.quit == stopped
    && |s.defaults| == CountWrites(events)
  }

  /** The interpreter handles exactly the events asked for, and stops at the first line that says so. */
  lemma {:induction false} InterpretHandlesItsEvents(lines: seq<string>, n: nat, threshold: Level, oracle: Oracle)
    requires n <= |lines|
    ensures HasHandled(Interpret(lines, n, threshold, oracle), EventsOf(lines, n, threshold), HasStopped(lines, n),
                       threshold, oracle)
  {
    hide HasHandled, HasStopped, After, Asked, LevelAfter;
    if n == 0 {
      NothingAsked(lines, threshold, oracle);
    } else {
      InterpretHandlesItsEvents(lines, n - 1, threshold, oracle);
      StopsAt(lines, n);
      NextIsHandled(Interpret(lines, n - 1, threshold, oracle), lines[n - 1], EventsOf(lines, n - 1, threshold),
                    HasStopped(lines, n - 1), threshold, oracle);
    }
  }

  lemma NothingAsked(lines: seq<string>, threshold: Level, oracle: Oracle)
    ensures HasHandled(Opened(threshold), [], HasStopped(lines, 0), threshold, oracle)
  {
  }

  lemma NextIsHandled(s: Session, line: string, events: seq<Event>, stopped: bool, threshold: Level, oracle: Oracle)
    requires HasHandled(s, events, stopped, threshold, oracle)
    ensures var more := events + (if stopped then [] else Asked(line, LevelAfter(events, threshold)));
            HasHandled(After(s, line, oracle), more, stopped || ParseUserInput(line, DEBUG).QuitCommand?, threshold,
                       oracle)
  {
    hide Asked, ParseUserInput, LevelAfter, CountWrites, Worker.HandledAll, Worker.Handled, TakesDefault;
    if stopped {
      assert events + [] == events;
    } else {
      LineHandlesItsEvents(s, line, events, threshold, oracle);
    }
  }

  lemma StopsAt(lines: seq<string>, n: nat)
    requires 0 < n <= |lines|
    ensures HasStopped(lines, n) <==> HasStopped(lines, n - 1) || ParseUserInput(lines[n - 1], DEBUG).QuitCommand?
  {
    hide ParseUserInput;
  }

  lemma LineHandlesItsEvents(s: Session, line: string, events: seq<Event>, threshold: Level, oracle: Oracle)
    requires s.worker == Fresh(threshold).HandledAll(events, oracle) && s.level == LevelAfter(events, threshold)
    requires !s.quit && |s.defaults| == CountWrites(events)
    ensures var t, more := After(s, line, oracle), events + Asked(line, s.level);
            && t.worker == Fresh(threshold).HandledAll(more, oracle) && t.level == LevelAfter(more, threshold)
            && t.quit == ParseUserInput(line, DEBUG).QuitCommand? && |t.defaults| == CountWrites(more)
  {
    DefaultIsTakenOrIgnored(line, s.level, DEBUG);
    hide ParseUserInput, TakesDefault, Worker.Handled, LevelAfter, CountWrites;
    var asked := Asked(line, s.level);
    if asked == [] {
      assert events + asked == events;
    } else {
      QueuedLastIsHandledLast(Fresh(threshold), events, asked[0], oracle);
      OneMoreEvent(events, asked[0], threshold);
    }
  }

  /** Over any input, each message is passed on exactly when its level is at or above that of the latest level
      command before it, or the first threshold, and is filtered exactly otherwise. */
  lemma InterpretObeysThresholds(lines: seq<string>, n: nat, threshold: Level, oracle: Oracle)
    requires n <= |lines|
    ensures ObeysThresholds(Interpret(lines, n, threshold, oracle).worker, EventsOf(lines, n, threshold), threshold)
  {
    InterpretHandlesItsEvents(lines, n, threshold, oracle);
    hide Interpret, EventsOf, ObeysThresholds, HasStopped, LevelAfter, CountWrites, Worker.HandledAll;
    HandlingObeysThresholds(EventsOf(lines, n, threshold), threshold, oracle);
  }

  /** For one line, from what is typed to the call: a message with its level, at or above the threshold or below. */
  lemma OneMessageTyped(level: Level, text: string, threshold: Level, oracle: Oracle)
    requires IsValidLevel(level) && text != "" && IsBare(text)
    ensures var w := Interpret([LevelName(level) + " " + text], 1, threshold, oracle).worker;
            if level >= threshold
            then w.calls == [Call(level, text)] && w.fates == [if oracle(0).Written? then Processed else Failed]
            else w.calls == [] && w.fates == [Filtered]
  {
    var lines := [LevelName(level) + " " + text];
    ExplicitLevelIsReached(level, text, threshold);
    hide ParseUserInput, TakesDefault, LevelName, Worker.Handled;
    assert Interpret(lines, 1, threshold, oracle) == After(Opened(threshold), lines[0], oracle);
    MessagesMeetTheThreshold(Fresh(threshold), level, text, oracle);
  }

  /** Lines after the one that stops the program have no effect. */
  lemma {:induction false} QuitIsFinal(lines: seq<string>, n: nat, m: nat, threshold: Level, oracle: Oracle)
    requires n <= m <= |lines| && Interpret(lines, n, threshold, oracle).quit
    ensures Interpret(lines, m, threshold, oracle) == Interpret(lines, n, threshold, oracle)
    decreases m
  {
    hide ParseUserInput, TakesDefault, Worker.Handled;
    if n < m {
      QuitIsFinal(lines, n, m - 1, threshold, oracle);
    }
  }

  /** The default level is the threshold, and a message that left its level to the default was not filtered. */
  ghost predicate DefaultsPass(level: Level, worker: Worker, defaults: seq<bool>) {
    && level == worker.threshold
    && |defaults| == |worker.fates|
    && forall k | 0 <= k < |defaults| :: defaults[k] ==> !worker.fates[k].Filtered?
  }

  lemma MessageKeepsDefaults(s: Session, level: Level, text: string, default: bool, oracle: Oracle)
    requires DefaultsPass(s.level, s.worker, s.defaults) && s.worker.IsConsistent()
    requires default ==> level == s.level
    ensures var w := s.worker.Handled(Write(level, text), oracle);
            DefaultsPass(s.level, w, s.defaults + [default]) && w.IsConsistent()
  {
    HandlingKeepsCounts(s.worker, Write(level, text), oracle);
    hide Worker.IsConsistent;
  }

  lemma CommandKeepsDefaults(s: Session, level: Level, oracle: Oracle)
    requires DefaultsPass(s.level, s.worker, s.defaults) && s.worker.IsConsistent()
    ensures var w := s.worker.Handled(SetLevel(level), oracle);
            DefaultsPass(level, w, s.defaults) && w.IsConsistent()
  {
    hide CountFiltered;
  }

  lemma LineKeepsDefaults(s: Session, line: string, oracle: Oracle)
    requires DefaultsPass(s.level, s.worker, s.defaults) && s.worker.IsConsistent()
    ensures var t := After(s, line, oracle);
            DefaultsPass(t.level, t.worker, t.defaults) && t.worker.IsConsistent()
  {
    hide ParseUserInput, TakesDefault, Worker.IsConsistent, Worker.Handled;
    DefaultIsTakenOrIgnored(line, s.level, s.level);
    match ParseUserInput(line, s.level)
    case Message(level, text) => MessageKeepsDefaults(s, level, text, TakesDefault(line), oracle);
    case LevelCommand(level) => CommandKeepsDefaults(s, level, oracle);
    case _ =>
  }

  lemma {:induction false} InterpretKeepsDefaults(lines: seq<string>, n: nat, threshold: Level, oracle: Oracle)
    requires n <= |lines|
    ensures var s := Interpret(lines, n, threshold, oracle);
            DefaultsPass(s.level, s.worker, s.defaults) && s.worker.IsConsistent()
  {
    hide After, Opened, DefaultsPass, Worker.IsConsistent;
    if n == 0 {
      OpenedKeepsDefaults(threshold);
    } else {
      InterpretKeepsDefaults(lines, n - 1, threshold, oracle);
      LineKeepsDefaults(Interpret(lines, n - 1, threshold, oracle), lines[n - 1], oracle);
    }
  }

  lemma OpenedKeepsDefaults(threshold: Level)
    ensures var s := Opened(threshold); DefaultsPass(s.level, s.worker, s.defaults) && s.worker.IsConsistent()
  {
  }

  // ----- what the user is told -----

  datatype ExitCode = Success | WriteFailed

  /** The last line printed: the two counts and, after failures, the last reason if there is one to name. */
  datatype Summary = Summary(processed: nat, failed: nat, reason: Option<string>)

  function SummaryOf(processed: nat, failed: nat, lastError: string): Summary {
    Summary(processed, failed, if failed > 0 && lastError != "" then Some(lastError) else None)
  }

  /** The summary names the last reason recorded, and there was a failure exactly when there is a reason. */
  lemma SummaryNamesTheLastReason(w: Worker)
    requires w.IsConsistent()
    ensures var s := SummaryOf(w.processed, w.failed, w.lastError);
            && s.processed + s.failed + CountFiltered(w.fates) == |w.fates|
            && (s.failed > 0 <==> w.reasons != [])
            && (s.reason == if w.reasons != [] && w.reasons[|w.reasons| - 1] != ""
                            then Some(w.reasons[|w.reasons| - 1]) else None)
  {
  }

  /** One line in the main loop: what its event does when it is handled is what the line does at once. */
  method Take(queue: EventQueue, line: string, level: Level, ghost s: Session, ghost w: Worker, ghost oracle: Oracle)
      returns (running: bool, newLevel: Level)
    requires !queue.closed && !s.quit && level == s.level
    requires w.HandledAll(queue.queue, oracle) == s.worker
    modifies queue`queue
    ensures var t := After(s, line, oracle);
            && newLevel == t.level && running == !t.quit
            && w.HandledAll(queue.queue, oracle) == t.worker
  {
    hide ParseUserInput, TakesDefault, Worker.Handled;
    running, newLevel := true, level;
    ghost var before := queue.queue;
    var input := ParseUserInput(line, level);
    match input {
      case Message(messageLevel, text) =>
        running := queue.Push(Write(messageLevel, text));
        QueuedLastIsHandledLast(w, before, Write(messageLevel, text), oracle);
      case LevelCommand(commandLevel) =>
        newLevel := commandLevel;
        running := queue.Push(SetLevel(commandLevel));
        QueuedLastIsHandledLast(w, before, SetLevel(commandLevel), oracle);
      case QuitCommand =>
        running := false;
      case HelpCommand =>
      case EmptyLine =>
      case Error(_) =>
    }
  }

  /** The worker's turns while the main thread is at one line. */
  method LetWork(worker: LogWorker, queue: EventQueue, turns: nat, oracle: Oracle, made: nat) returns (count: nat)
    requires made == |worker.calls| && worker.State().IsConsistent()
    modifies worker, queue`queue
    ensures count == |worker.calls| && worker.State().IsConsistent()
    ensures worker.State().HandledAll(queue.queue, oracle) == old(worker.State()).HandledAll(old(queue.queue), oracle)
    ensures old(worker.reasons) <= worker.reasons
  {
    hide Worker.Handled, Worker.IsConsistent;
    count := made;
    for i := 0 to turns
      invariant count == |worker.calls| && worker.State().IsConsistent()
      invariant worker.State().HandledAll(queue.queue, oracle) ==
                old(worker.State()).HandledAll(old(queue.queue), oracle)
      invariant old(worker.reasons) <= worker.reasons
    {
      ghost var before, events := worker.State(), queue.queue;
      var popped;
      popped, count := worker.Turn(queue, oracle, count);
      if popped.Took? {
        HandlingKeepsCounts(before, popped.event, oracle);
        HandlingOnlyAdds(before, [popped.event], oracle);
        OneIsHandled(before, popped.event, oracle);
        assert events[0] == popped.event && events[1..] == queue.queue;
      }
    }
  }

  lemma OneIsHandled(w: Worker, event: Event, oracle: Oracle)
    ensures w.HandledAll([event], oracle) == w.Handled(event, oracle)
  {
    assert w.Handled(event, oracle).HandledAll([event][1..], oracle) == w.Handled(event, oracle);
  }

  /** What the main thread says when it looks at the last reason. */
  method LookAt(reason: string, reported: string, printed: seq<string>, ghost reasons: seq<string>,
                ghost looks: seq<nat>)
      returns (nowReported: string, more: seq<string>)
    requires reason == (if reasons == [] then "" else reasons[|reasons| - 1])
    requires reported == (if printed == [] then "" else printed[|printed| - 1])
    requires AreLooks(reasons, looks) && printed == Changes(FoundAt(reasons, looks))
    ensures nowReported == (if more == [] then "" else more[|more| - 1])
    ensures AreLooks(reasons, looks + [|reasons|]) && more == Changes(FoundAt(reasons, looks + [|reasons|]))
  {
    hide Changes, FoundAt;
    OneMoreLookAt(reasons, looks);
    ChangesAreNotEmpty(FoundAt(reasons, looks));
    nowReported, more := reported, printed;
    if reason != "" && reason != reported {
      nowReported, more := reason, printed + [reason];
    }
  }

  /** The program with a worker that gets as many turns at each line as `pace` says; once the input has ended,
      stopping it empties the queue.  Whatever the pace, the summary and the exit code are those of the
      single thread, and what is printed on the way are the changes of its reasons that were looked at. */
  method Run(lines: seq<string>, threshold: Level, oracle: Oracle, pace: nat -> nat)
      returns (exit: ExitCode, summary: Summary, printed: seq<string>, ghost looks: seq<nat>)
    ensures var w := Interpret(lines, |lines|, threshold, oracle).worker;
            && summary == SummaryOf(w.processed, w.failed, w.lastError)
            && (exit == WriteFailed <==> w.reasons != [])
    ensures var reasons := Interpret(lines, |lines|, threshold, oracle).worker.reasons;
            AreLooks(reasons, looks) && printed == Changes(FoundAt(reasons, looks))
  {
    hide After, Changes, FoundAt, AreLooks, Worker.HandledAll;
    var queue := new EventQueue();
    var worker := new LogWorker(threshold);
    var running, level, i, made, reported := true, threshold, 0, 0, "";
    printed, looks := [], [];
    NothingHappened(threshold, oracle);
    while running && i < |lines|
      invariant i <= |lines| && !queue.closed && made == |worker.calls| && worker.State().IsConsistent()
      invariant var s := Interpret(lines, i, threshold, oracle);
                && level == s.level && running == !s.quit
                && worker.State().HandledAll(queue.queue, oracle) == s.worker
      invariant AreLooks(worker.reasons, looks) && printed == Changes(FoundAt(worker.reasons, looks))
      invariant reported == (if printed == [] then "" else printed[|printed| - 1])
      decreases |lines| - i
    {
      running, level :=
        Take(queue, lines[i], level, Interpret(lines, i, threshold, oracle), worker.State(), oracle);
      ghost var reasons := worker.reasons;
      made := LetWork(worker, queue, pace(i), oracle, made);
      LooksStay(reasons, worker.reasons, looks);
      reported, printed := LookAt(worker.lastError, reported, printed, worker.reasons, looks);
      looks := looks + [|worker.reasons|];
      i := i + 1;
    }
    if !running {
      QuitIsFinal(lines, i, |lines|, threshold, oracle);
    }
    ghost var before, left := worker.State(), queue.queue;
    HandlingOnlyAdds(before, left, oracle);
    queue.Close();
    assert left + [] == left;
    worker.Loop(queue, oracle, made, []);
    InterpretKeepsDefaults(lines, |lines|, threshold, oracle);
    assert worker.State() == Interpret(lines, |lines|, threshold, oracle).worker;
    LooksStay(before.reasons, worker.reasons, looks);
    summary := SummaryOf(worker.processed, worker.failed, worker.lastError);
    exit := if worker.failed > 0 then WriteFailed else Success;
  }

  lemma NothingHappened(threshold: Level, oracle: Oracle)
    ensures var w := Fresh(threshold);
            w.HandledAll([], oracle) == w && w.IsConsistent()
    ensures AreLooks([], []) && Changes(FoundAt([], [])) == []
  {
  }
}
