/** The thread that owns the logger (app/core/LogWorker.cpp).  What the i-th call of `log` does is fixed by an
    oracle. */
module LogWorker {
  import opened Wrappers
  import opened LogLevel
  import opened EventQueue

  /** What a call of `log` comes to: true, false with a reason or without one, or an exception. */
  datatype LogOutcome = Written | Refused(reason: Option<string>) | Threw(what: string) | ThrewUnknown

  type Oracle = nat -> LogOutcome

  /** The reason recorded for a call that did not write. */
  function ReasonOf(outcome: LogOutcome): string {
    match outcome
    case Refused(Some(reason)) => reason
    case Refused(None) => "write failed"
    case Threw(what) => what
    case ThrewUnknown => "unknown exception"
    case Written => ""
  }

  datatype Call = Call(level: Level, message: string)

  /** What became of an accepted message. */
  datatype Fate = Filtered | Processed | Failed

  /** Everything the worker and the logger remember, with the calls made, the fates and the reasons recorded
      so far. */
  datatype Worker = Worker(threshold: Level, processed: nat, failed: nat, lastError: string, calls: seq<Call>,
                           fates: seq<Fate>, reasons: seq<string>)
  {
    predicate IsEnabled(level: Level) {
      level >= threshold
    }

    function Called(level: Level, message: string): Worker {
      this.(calls := calls + [Call(level, message)])
    }

    function Recorded(reason: string): Worker {
      this.(lastError := reason, reasons := reasons + [reason])
    }

    function Ended(fate: Fate): Worker {
      this.(fates := fates + [fate], processed := processed + (if fate.Processed? then 1 else 0),
            failed := failed + (if fate.Failed? then 1 else 0))
    }

    /** The end of a call of `log`. */
    function Concluded(outcome: LogOutcome): Worker {
      if outcome.Written? then Ended(Processed) else Recorded(ReasonOf(outcome)).Ended(Failed)
    }

    function Handled(event: Event, oracle: Oracle): Worker {
      match event
      case SetLevel(level) => this.(threshold := level)
      case Write(level, message) =>
        if IsEnabled(level) then Called(level, message).Concluded(oracle(|calls|)) else Ended(Filtered)
    }

    /** All events in order. */
    function HandledAll(events: seq<Event>, oracle: Oracle): Worker
      decreases events
    {
      if events == [] then this else Handled(events[0], oracle).HandledAll(events[1..], oracle)
    }

    /** The counters agree with what happened. */
    predicate IsConsistent() {
      && |fates| == processed + failed + CountFiltered(fates)
      && failed == |reasons|
      && lastError == (if reasons == [] then "" else reasons[|reasons| - 1])
    }
  }

  function CountFiltered(fates: seq<Fate>): nat {
    if fates == [] then 0
    else CountFiltered(fates[..|fates| - 1]) + (if fates[|fates| - 1].Filtered? then 1 else 0)
  }

  function Fresh(threshold: Level): Worker {
    Worker(threshold, 0, 0, "", [], [], [])
  }

  lemma OneMoreFate(fates: seq<Fate>, fate: Fate)
    ensures CountFiltered(fates + [fate]) == CountFiltered(fates) + (if fate.Filtered? then 1 else 0)
  {
    assert (fates + [fate])[..|fates|] == fates;
  }

  /** Whatever is handled, accepted messages are processed, failed or filtered, one of the three each. */
  lemma HandlingKeepsCounts(w: Worker, event: Event, oracle: Oracle)
    requires w.IsConsistent()
    ensures w.Handled(event, oracle).IsConsistent()
  {
    OneMoreFate(w.fates, Filtered);
    OneMoreFate(w.fates, Processed);
    OneMoreFate(w.fates, Failed);
    hide CountFiltered;
  }

  lemma {:induction false} HandlingAllKeepsCounts(w: Worker, events: seq<Event>, oracle: Oracle)
    requires w.IsConsistent()
    ensures w.HandledAll(events, oracle).IsConsistent()
    decreases events
  {
    if events != [] {
      HandlingKeepsCounts(w, events[0], oracle);
      HandlingAllKeepsCounts(w.Handled(events[0], oracle), events[1..], oracle);
    }
  }

  /** Handling is a fold: an event queued last is handled last. */
  lemma {:induction false} QueuedLastIsHandledLast(w: Worker, events: seq<Event>, event: Event, oracle: Oracle)
    ensures w.HandledAll(events + [event], oracle) == w.HandledAll(events, oracle).Handled(event, oracle)
    decreases events
  {
    if events == [] {
      assert events + [event] == [event];
      assert w.Handled(event, oracle).HandledAll([], oracle) == w.Handled(event, oracle);
    } else {
      assert (events + [event])[1..] == events[1..] + [event];
      QueuedLastIsHandledLast(w.Handled(events[0], oracle), events[1..], event, oracle);
    }
  }

  /** Nothing that happened is forgotten. */
  lemma {:induction false} HandlingOnlyAdds(w: Worker, events: seq<Event>, oracle: Oracle)
    ensures w.fates <= w.HandledAll(events, oracle).fates
    ensures w.reasons <= w.HandledAll(events, oracle).reasons
    ensures w.calls <= w.HandledAll(events, oracle).calls
    decreases events
  {
    if events != [] {
      HandlingOnlyAdds(w.Handled(events[0], oracle), events[1..], oracle);
    }
  }

  /** A turn brings the queue on by what it handles. */
  lemma TurnHandlesOne(w: Worker, after: Worker, queue: seq<Event>, left: seq<Event>, later: seq<Event>,
                       popped: Popped, oracle: Oracle)
    requires if popped.Took? then queue == [popped.event] + left && after == w.Handled(popped.event, oracle)
             else after == w && queue == left
    ensures after.HandledAll(left + later, oracle) == w.HandledAll(queue + later, oracle)
  {
    hide Worker.Handled;
    if popped.Took? {
      assert (queue + later)[0] == popped.event && (queue + later)[1..] == left + later;
    }
  }

  lemma NothingIsQueued(w: Worker, queue: seq<Event>, later: seq<Event>, oracle: Oracle)
    requires queue == [] && later == []
    ensures w.HandledAll(queue + later, oracle) == w
  {
  }

  function Joined(batches: seq<seq<Event>>): seq<Event> {
    if batches == [] then [] else batches[0] + Joined(batches[1..])
  }

  // ----- what the threshold lets through -----

  /** What is recorded for a call that did not write. */
  lemma ReasonsAre(reason: string)
    ensures ReasonOf(Refused(Some(reason))) == reason && ReasonOf(Refused(None)) == "write failed"
    ensures ReasonOf(Threw(reason)) == reason && ReasonOf(ThrewUnknown) == "unknown exception"
  {
  }

  /** A message at the threshold or above it is passed on in one call, and its outcome is counted; a message below
      is only noted as filtered; a level command only moves the threshold. */
  lemma MessagesMeetTheThreshold(w: Worker, level: Level, message: string, oracle: Oracle)
    ensures var t, outcome := w.Handled(Write(level, message), oracle), oracle(|w.calls|);
            && t.threshold == w.threshold
            && (level >= w.threshold ==>
                  && t.calls == w.calls + [Call(level, message)]
                  && t.fates == w.fates + [if outcome.Written? then Processed else Failed]
                  && t.processed == w.processed + (if outcome.Written? then 1 else 0)
                  && t.failed == w.failed + (if outcome.Written? then 0 else 1)
                  && t.reasons == w.reasons + (if outcome.Written? then [] else [ReasonOf(outcome)])
                  && t.lastError == (if outcome.Written? then w.lastError else ReasonOf(outcome)))
            && (level < w.threshold ==> t == w.(fates := w.fates + [Filtered]))
    ensures w.Handled(SetLevel(level), oracle) == w.(threshold := level)
  {
  }

  /** The level of the latest command, the first threshold when there is none. */
  function LevelAfter(events: seq<Event>, threshold: Level): Level {
    if events == [] then threshold
    else
      var last := events[|events| - 1];
      if last.SetLevel? then last.level else LevelAfter(events[..|events| - 1], threshold)
  }

  lemma {:induction false} LevelIsTheLatest(events: seq<Event>, threshold: Level, i: nat)
    requires i < |events| && events[i].SetLevel? && forall j | i < j < |events| :: events[j].Write?
    ensures LevelAfter(events, threshold) == events[i].level
  {
    if i < |events| - 1 {
      LevelIsTheLatest(events[..|events| - 1], threshold, i);
    }
  }

  lemma {:induction false} LevelIsTheFirst(events: seq<Event>, threshold: Level)
    requires forall j | 0 <= j < |events| :: events[j].Write?
    ensures LevelAfter(events, threshold) == threshold
  {
    if events != [] {
      LevelIsTheFirst(events[..|events| - 1], threshold);
    }
  }

  /** The messages among the events. */
  function CountWrites(events: seq<Event>): nat {
    if events == [] then 0
    else CountWrites(events[..|events| - 1]) + (if events[|events| - 1].Write? then 1 else 0)
  }

  lemma OneMoreEvent(events: seq<Event>, event: Event, threshold: Level)
    ensures LevelAfter(events + [event], threshold) ==
            (if event.SetLevel? then event.level else LevelAfter(events, threshold))
    ensures CountWrites(events + [event]) == CountWrites(events) + (if event.Write? then 1 else 0)
  {
    assert (events + [event])[..|events|] == events;
  }

  lemma {:induction false} EventsInTwoParts(a: seq<Event>, b: seq<Event>, threshold: Level)
    ensures LevelAfter(a + b, threshold) == LevelAfter(b, LevelAfter(a, threshold))
    ensures CountWrites(a + b) == CountWrites(a) + CountWrites(b)
  {
    if b == [] {
      assert a + b == a;
    } else {
      var shorter, last := b[..|b| - 1], b[|b| - 1];
      EventsInTwoParts(a, shorter, threshold);
      assert a + b == (a + shorter) + [last];
      OneMoreEvent(a + shorter, last, threshold);
    }
  }

  /** Handling events leaves the level of the latest command, and adds one fate for every message. */
  lemma {:induction false} HandledLevelAndFates(w: Worker, events: seq<Event>, oracle: Oracle)
    ensures w.HandledAll(events, oracle).threshold == LevelAfter(events, w.threshold)
    ensures |w.HandledAll(events, oracle).fates| == |w.fates| + CountWrites(events)
  {
    if events != [] {
      var before, last := events[..|events| - 1], events[|events| - 1];
      HandledLevelAndFates(w, before, oracle);
      QueuedLastIsHandledLast(w, before, last, oracle);
      assert before + [last] == events;
    }
  }

  /** The messages whose level is no lower than that of the latest command before them, as calls. */
  function Passing(events: seq<Event>, threshold: Level): seq<Call> {
    if events == [] then []
    else
      var before, last := events[..|events| - 1], events[|events| - 1];
      Passing(before, threshold) +
      (if last.Write? && last.level as int >= LevelAfter(before, threshold) as int then [Call(last.level, last.message)]
       else [])
  }

  /** The call of a message that passes comes after those of the messages before it that do. */
  lemma {:induction false} PassingAt(events: seq<Event>, threshold: Level, i: nat)
    requires i < |events|
    ensures Passing(events[..i], threshold) <= Passing(events, threshold)
    ensures events[i].Write? && events[i].level >= LevelAfter(events[..i], threshold) ==>
              && |Passing(events[..i], threshold)| < |Passing(events, threshold)|
              && Passing(events, threshold)[|Passing(events[..i], threshold)|] ==
                 Call(events[i].level, events[i].message)
  {
    var before := events[..|events| - 1];
    if i < |events| - 1 {
      PassingAt(before, threshold, i);
      assert before[..i] == events[..i];
    }
  }

  /** What has become of all messages: each is called exactly when its level is at or above that of the latest
      command before it, in their order, and is filtered exactly otherwise. */
  ghost predicate ObeysThresholds(w: Worker, events: seq<Event>, threshold: Level) {
    && w.threshold == LevelAfter(events, threshold)
    && w.calls == Passing(events, threshold)
    && |w.fates| == CountWrites(events)
    && forall i | 0 <= i < |events| && events[i].Write? :: IsFatedRightly(w.fates, events, i, threshold)
  }

  ghost predicate IsFatedRightly(fates: seq<Fate>, events: seq<Event>, i: nat, threshold: Level)
    requires i < |events|
  {
    events[i].Write? ==>
      var k := CountWrites(events[..i]);
      k < |fates| && (fates[k].Filtered? <==> events[i].level < LevelAfter(events[..i], threshold))
  }

  lemma OldFateStays(fates: seq<Fate>, more: seq<Fate>, events: seq<Event>, i: nat, threshold: Level, event: Event)
    requires fates <= more && i < |events| && IsFatedRightly(fates, events, i, threshold)
    ensures IsFatedRightly(more, events + [event], i, threshold)
  {
    assert (events + [event])[..i] == events[..i];
  }

  lemma NewFateIsRight(w: Worker, events: seq<Event>, threshold: Level, event: Event, oracle: Oracle)
    requires w.threshold == LevelAfter(events, threshold) && |w.fates| == CountWrites(events)
    ensures IsFatedRightly(w.Handled(event, oracle).fates, events + [event], |events|, threshold)
    ensures w.fates <= w.Handled(event, oracle).fates
  {
    assert (events + [event])[..|events|] == events;
    if event.Write? {
      MessagesMeetTheThreshold(w, event.level, event.message, oracle);
    } else {
      MessagesMeetTheThreshold(w, event.level, "", oracle);
    }
    hide Worker.Handled, LevelAfter, CountWrites;
  }

  lemma CallsStayPassing(w: Worker, events: seq<Event>, threshold: Level, event: Event, oracle: Oracle)
    requires w.threshold == LevelAfter(events, threshold) && w.calls == Passing(events, threshold)
    requires |w.fates| == CountWrites(events)
    ensures var t, all := w.Handled(event, oracle), events + [event];
            t.threshold == LevelAfter(all, threshold) && t.calls == Passing(all, threshold)
            && |t.fates| == CountWrites(all)
  {
    assert (events + [event])[..|events|] == events;
    MessagesMeetTheThreshold(w, event.level, if event.Write? then event.message else "", oracle);
    hide Worker.Handled;
  }

  lemma OneMoreObeys(w: Worker, events: seq<Event>, threshold: Level, event: Event, oracle: Oracle)
    requires ObeysThresholds(w, events, threshold)
    ensures ObeysThresholds(w.Handled(event, oracle), events + [event], threshold)
  {
    var all, t := events + [event], w.Handled(event, oracle);
    CallsStayPassing(w, events, threshold, event, oracle);
    NewFateIsRight(w, events, threshold, event, oracle);
    hide Worker.Handled, IsFatedRightly, LevelAfter, Passing, CountWrites;
    forall i | 0 <= i < |all| && all[i].Write? ensures IsFatedRightly(t.fates, all, i, threshold) {
      if i < |events| {
        OldFateStays(w.fates, t.fates, events, i, threshold, event);
      }
    }
  }

  lemma {:induction false} HandlingObeysThresholds(events: seq<Event>, threshold: Level, oracle: Oracle)
    ensures ObeysThresholds(Fresh(threshold).HandledAll(events, oracle), events, threshold)
  {
    if events != [] {
      var before, last := events[..|events| - 1], events[|events| - 1];
      hide Worker.Handled, ObeysThresholds;
      HandlingObeysThresholds(before, threshold, oracle);
      QueuedLastIsHandledLast(Fresh(threshold), before, last, oracle);
      OneMoreObeys(Fresh(threshold).HandledAll(before, oracle), before, threshold, last, oracle);
      assert before + [last] == events;
    }
  }

  class LogWorker {
    var threshold: Level
    var processed: nat
    var failed: nat
    var lastError: string
    ghost var calls: seq<Call>
    ghost var fates: seq<Fate>
    ghost var reasons: seq<string>

    ghost function State(): Worker
      reads this
    {
      Worker(threshold, processed, failed, lastError, calls, fates, reasons)
    }

    constructor (threshold: Level)
      ensures State() == Fresh(threshold)
    {
      this.threshold := threshold;
      processed, failed, lastError, calls, fates, reasons := 0, 0, "", [], [], [];
    }

    method RecordFailure(reason: string)
      modifies this`lastError, this`failed, this`fates, this`reasons
      ensures State() == old(State()).Recorded(reason).Ended(Failed)
    {
      lastError := reason;
      failed := failed + 1;
      fates, reasons := fates + [Failed], reasons + [reason];
    }

    /** A message under the threshold counts neither as processed nor as failed. */
    method WriteEvent(level: Level, message: string, outcome: LogOutcome)
      modifies this
      ensures State() == if old(State()).IsEnabled(level) then old(State()).Called(level, message).Concluded(outcome)
                         else old(State()).Ended(Filtered)
    {
      if level < threshold {
        fates := fates + [Filtered];
        return;
      }
      calls := calls + [Call(level, message)];
      match outcome {
        case Threw(what) =>
          RecordFailure(what);
        case ThrewUnknown =>
          RecordFailure("unknown exception");
        case Written =>
          processed := processed + 1;
          fates := fates + [Processed];
        case Refused(reason) =>
          RecordFailure(if reason.Some? then reason.value else "write failed");
      }
    }

    method Handle(event: Event, outcome: LogOutcome, ghost oracle: Oracle)
      requires outcome == oracle(|calls|)
      modifies this
      ensures State() == old(State()).Handled(event, oracle)
    {
      match event {
        case Write(level, message) =>
          WriteEvent(level, message, outcome);
        case SetLevel(level) =>
          threshold := level;
      }
    }

    /** One turn of the thread's loop. */
    method Turn(queue: EventQueue, oracle: Oracle, made: nat) returns (popped: Popped, count: nat)
      requires made == |calls|
      modifies this, queue`queue
      ensures count == |calls|
      ensures popped == Attempt(old(queue.queue), queue.closed)
      ensures !popped.Took? ==> State() == old(State()) && queue.queue == old(queue.queue)
      ensures popped.Took? ==> old(queue.queue) == [popped.event] + queue.queue
      ensures popped.Took? ==> State() == old(State()).Handled(popped.event, oracle)
    {
      count := made;
      popped := queue.TryPop();
      if popped.Took? {
        var enabled := popped.event.Write? && popped.event.level >= threshold;
        Handle(popped.event, oracle(count), oracle);
        if enabled {
          count := count + 1;
        }
      }
    }

    /** The thread's loop.  `others` is what the main thread pushes before each look at the queue; after that
        it closes it.  The loop ends, and only with an empty, closed queue and everything handled in order. */
    method Loop(queue: EventQueue, oracle: Oracle, made: nat, others: seq<seq<Event>>)
      requires made == |calls|
      modifies this, queue
      ensures State() ==
              old(State()).HandledAll(old(queue.queue) + (if old(queue.closed) then [] else Joined(others)), oracle)
      ensures queue.queue == [] && queue.closed
    {
      hide Worker.HandledAll, Worker.Handled;
      ghost var all := queue.queue + (if queue.closed then [] else Joined(others));
      assert others[0..] == others;
      var count, i := made, 0;
      while true
        invariant count == |calls| && i <= |others|
        invariant State().HandledAll(queue.queue + (if queue.closed then [] else Joined(others[i..])), oracle) ==
                  old(State()).HandledAll(all, oracle)
        decreases |others| - i, !queue.closed, |queue.queue|
      {
        ghost var before, rest := queue.queue, if queue.closed then [] else Joined(others[i..]);
        if !queue.closed {
          if i < |others| {
            assert others[i..][0] == others[i] && others[i..][1..] == others[i + 1..];
            queue.PushAll(others[i]);
            i := i + 1;
          } else {
            queue.Close();
          }
        }
        ghost var now, later := queue.queue, if queue.closed then [] else Joined(others[i..]);
        assert now + later == before + rest;
        ghost var was := State();
        var popped;
        popped, count := Turn(queue, oracle, count);
        TurnHandlesOne(was, State(), now, queue.queue, later, popped, oracle);
        if popped.Finished? {
          NothingIsQueued(State(), now, later, oracle);
          return;
        }
      }
    }
  }
}
