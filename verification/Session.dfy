/** A session of the console program whose logger sends to the collector (app/core/LogWorker.cpp:49-85 over
    logger/src/SinkLogger.cpp:12-25 and logger/src/net/TcpSink.cpp:156-166): what the interpreter counts as processed
    and what the collector is handed are the same lines. */
module Session {
  import opened Wrappers
  import opened LogLevel
  import LogRecord
  import opened LineReader
  import opened TcpSink
  import TcpReceiver
  import opened Pipeline
  import opened InputParser
  import opened EventQueue
  import opened LogWorker
  import opened ConsoleApp
  import opened Interleaving

  /** What one call of `log` meets: the time of the record, the reconnection, the answers of `send` and the clock. */
  datatype Env = Env(time: int, dial: Dial, answers: seq<SendResult>, now: int)

  /** The clock readings of the calls never go back. */
  ghost predicate AreMonotone(envs: nat -> Env) {
    forall i: nat, j: nat | i <= j ::
      envs(i).dial.checked <= envs(i).now && (i < j ==> envs(i).now <= envs(j).dial.checked)
  }

  predicate Agrees(oracle: Oracle, outcomes: seq<LogOutcome>) {
    forall i | 0 <= i < |outcomes| :: oracle(i) == outcomes[i]
  }

  ghost predicate IsLineOf(line: string, call: Call) {
    exists time :: LogRecord.Format(LogRecord.Record(time, call.level, call.message)) == line
  }

  /** The calls that were processed. */
  function ProcessedOf(calls: seq<Call>, outcomes: seq<LogOutcome>): seq<Call>
    requires |calls| == |outcomes|
  {
    if calls == [] then []
    else
      var last := |calls| - 1;
      ProcessedOf(calls[..last], outcomes[..last]) + (if outcomes[last].Written? then [calls[last]] else [])
  }

  /** All lines accepted, over one connection after another. */
  function AllAccepted(wires: seq<Wire>): seq<string> {
    if wires == [] then [] else AllAccepted(wires[..|wires| - 1]) + wires[|wires| - 1].accepted
  }

  lemma OneMoreCall(calls: seq<Call>, outcomes: seq<LogOutcome>, call: Call, outcome: LogOutcome)
    requires |calls| == |outcomes|
    ensures ProcessedOf(calls + [call], outcomes + [outcome]) ==
            ProcessedOf(calls, outcomes) + (if outcome.Written? then [call] else [])
  {
    assert (calls + [call])[..|calls|] == calls && (outcomes + [outcome])[..|outcomes|] == outcomes;
  }

  /** A write adds its line to all accepted lines when it succeeds, and nothing otherwise. */
  lemma WritingAccepts(before: seq<Wire>, open: bool, line: string, ok: bool, after: seq<Wire>)
    requires before != [] && Wrote(before, open, line, ok, after)
    ensures AllAccepted(after) == AllAccepted(before) + (if ok then [line] else [])
  {
    hide Extends;
    var base := if open then before else before + [FRESH_WIRE];
    var last := |base| - 1;
    assert (before + [FRESH_WIRE])[..|before|] == before;
    assert AllAccepted(base) == AllAccepted(before);
    if after != base && after != before {
      assert after[..last] == base[..last];
    }
  }

  /** The lines accepted on one connection are a part of all of them. */
  lemma {:induction false} AcceptedIsPart(wires: seq<Wire>, w: nat)
    requires w < |wires|
    ensures var from := |AllAccepted(wires[..w])|;
            from + |wires[w].accepted| <= |AllAccepted(wires)| &&
            AllAccepted(wires)[from..from + |wires[w].accepted|] == wires[w].accepted
  {
    var last := |wires| - 1;
    if w < last {
      AcceptedIsPart(wires[..last], w);
      assert wires[..last][..w] == wires[..w];
    }
  }

  /** The lines are those of the processed calls, one each and in order, each formatted at some time. */
  ghost predicate AreLinesOf(lines: seq<string>, calls: seq<Call>) {
    |lines| == |calls| && forall i | 0 <= i < |lines| :: IsLineOf(lines[i], calls[i])
  }

  /** The lines are the start of the part that the w-th connection has of all accepted ones. */
  ghost predicate IsStartOfPart(got: seq<string>, wires: seq<Wire>, w: nat)
    requires w < |wires|
  {
    var all, from := AllAccepted(wires), |AllAccepted(wires[..w])|;
    var to := from + |wires[w].accepted|;
    to <= |all| && got <= Fitting(all[from..to], DEFAULT_LIMIT)
  }

  lemma StartsOfParts(got: seq<string>, wires: seq<Wire>, w: nat)
    requires w < |wires| && got <= Fitting(wires[w].accepted, DEFAULT_LIMIT)
    ensures IsStartOfPart(got, wires, w)
  {
    AcceptedIsPart(wires, w);
  }

  /** A call succeeds exactly for a valid level, with a connection, when the answers take the whole line; then the line
      has joined the accepted ones. */
  predicate CallComesTo(written: bool, level: Level, reached: bool, line: string, answers: seq<SendResult>,
                        before: seq<string>, after: seq<string>)
  {
    && (written <==> level <= 4 && reached && TakenBy(answers, |line| + 1) == |line| + 1)
    && after == before + (if written then [line] else [])
  }

  lemma WriteComesTo(ok: bool, level: Level, reached: bool, line: string, answers: seq<SendResult>,
                     before: seq<Wire>, open: bool, after: seq<Wire>)
    requires level <= 4 && (ok <==> reached && TakenBy(answers, |line| + 1) == |line| + 1)
    requires before != [] && Wrote(before, open, line, ok, after)
    ensures CallComesTo(ok, level, reached, line, answers, AllAccepted(before), AllAccepted(after))
  {
    hide Wrote, TakenBy, AllAccepted;
    WritingAccepts(before, open, line, ok, after);
  }

  lemma RefusalComesToNothing(level: Level, reached: bool, line: string, answers: seq<SendResult>,
                              before: seq<string>)
    requires level > 4
    ensures CallComesTo(false, level, reached, line, answers, before, before)
  {
  }

  class Session {
    const site: Site
    /** The sink of the session's logger. */
    const k: nat
    var worker: Worker
    ghost var outcomes: seq<LogOutcome>

    /** What the worker has counted is what the sink has accepted. */
    ghost predicate IsCoupled()
      reads this, site.network.sinks
    {
      && k < |site.network.sinks| && !site.network.sinks[k].sending
      && |outcomes| == |worker.calls|
      && AreLinesOf(AllAccepted(site.network.sinks[k].wires), ProcessedOf(worker.calls, outcomes))
      && worker.processed == |ProcessedOf(worker.calls, outcomes)|
    }

    constructor (site: Site, k: nat, threshold: Level)
      requires k < |site.network.sinks| && !site.network.sinks[k].sending
      requires site.network.sinks[k].wires == [FRESH_WIRE]
      ensures IsCoupled() && this.site == site && this.k == k && worker == Fresh(threshold) && outcomes == []
    {
      this.site, this.k := site, k;
      worker, outcomes := Fresh(threshold), [];
      assert AllAccepted([FRESH_WIRE]) == [];
    }

    lemma CoupledSinkIsIdle()
      requires IsCoupled()
      ensures k < |site.network.sinks| && !site.network.sinks[k].sending
    {
    }

    /** A message that passes becomes a line for the sink. */
    method WriteRecord(record: LogRecord.Record, env: Env) returns (ok: bool, ec: ErrorCode)
      requires site.Valid() && IsCoupled() && site.network.sinks[k].clock <= env.dial.checked <= env.now
      requires IsValidLevel(record.level)
      modifies site.network.sinks[k]
      ensures site.Valid() && k < |site.network.sinks| && !site.network.sinks[k].sending
      ensures site.network.sinks[k].clock <= env.now
      ensures CallComesTo(ok, record.level, old(site.network.sinks[k].Reaches(env.dial)), LogRecord.Format(record),
                          env.answers, AllAccepted(old(site.network.sinks[k].wires)),
                          AllAccepted(site.network.sinks[k].wires))
    {
      hide site.Valid, IsCoupled, Wrote, LogRecord.Format, TakenBy, AllAccepted, CallComesTo;
      CoupledSinkIsIdle();
      var sink := site.network.sinks[k];
      hide sink.Reaches;
      ghost var before, open, reached := sink.wires, sink.connected, sink.Reaches(env.dial);
      ok, ec := site.Log(k, record, env.dial, env.answers, env.now);
      WriteComesTo(ok, record.level, reached, LogRecord.Format(record), env.answers, before, open, sink.wires);
    }

    /** One call of `log` by the worker: an invalid level is refused, any other message is written.  `text` is the
        message of an error code. */
    method LogOne(level: Level, message: string, env: Env, text: ErrorCode -> string) returns (outcome: LogOutcome)
      requires site.Valid() && IsCoupled() && site.network.sinks[k].clock <= env.dial.checked <= env.now
      modifies site.network.sinks[k]
      ensures site.Valid() && k < |site.network.sinks| && !site.network.sinks[k].sending
      ensures site.network.sinks[k].clock <= env.now
      ensures outcome.Written? || outcome.Refused?
      ensures CallComesTo(outcome.Written?, level, old(site.network.sinks[k].Reaches(env.dial)),
                          LogRecord.Format(LogRecord.Record(env.time, level, message)), env.answers,
                          AllAccepted(old(site.network.sinks[k].wires)), AllAccepted(site.network.sinks[k].wires))
    {
      hide site.Valid, IsCoupled, LogRecord.Format, CallComesTo, AllAccepted;
      CoupledSinkIsIdle();
      var sink := site.network.sinks[k];
      hide sink.Reaches;
      if !IsValidLevel(level) {
        RefusalComesToNothing(level, sink.Reaches(env.dial),
                              LogRecord.Format(LogRecord.Record(env.time, level, message)), env.answers,
                              AllAccepted(sink.wires));
        return Refused(Some(text(22)));
      }
      var ok, ec := WriteRecord(LogRecord.Record(env.time, level, message), env);
      outcome := if ok then Written else Refused(Some(text(ec)));
    }

    /** One event in the worker's hands. */
    method Handle(event: Event, env: Env, text: ErrorCode -> string)
      requires site.Valid() && IsCoupled() && site.network.sinks[k].clock <= env.dial.checked <= env.now
      modifies this`worker, this`outcomes, site.network.sinks[k]
      ensures site.Valid() && IsCoupled() && site.network.sinks[k].clock <= env.now
      ensures old(outcomes) <= outcomes
      ensures forall oracle | Agrees(oracle, outcomes) :: worker == old(worker).Handled(event, oracle)
    {
      hide site.Valid, Worker.Concluded, AllAccepted, ProcessedOf, AreLinesOf, LogRecord.Format;
      match event
      case SetLevel(level) =>
        Note(worker.(threshold := level), outcomes);
      case Write(level, message) =>
        if !worker.IsEnabled(level) {
          Note(worker.Ended(Filtered), outcomes);
          return;
        }
        ghost var before, were := worker, AllAccepted(site.network.sinks[k].wires);
        var outcome := LogOne(level, message, env, text);
        OneMoreIsProcessed(before, outcomes, were, level, message, env.time, outcome);
        Note(worker.Called(level, message).Concluded(outcome), outcomes + [outcome]);
    }

    method Note(after: Worker, ghost seen: seq<LogOutcome>)
      requires site.Valid()
      modifies this`worker, this`outcomes
      ensures site.Valid() && worker == after && outcomes == seen
    {
      worker, outcomes := after, seen;
      assert site.Valid();
    }

    lemma OneMoreIsProcessed(w: Worker, outcomes: seq<LogOutcome>, lines: seq<string>, level: Level, message: string,
                             time: int, outcome: LogOutcome)
      requires |outcomes| == |w.calls| && AreLinesOf(lines, ProcessedOf(w.calls, outcomes))
      requires w.processed == |ProcessedOf(w.calls, outcomes)|
      ensures var t, more := w.Called(level, message).Concluded(outcome), outcomes + [outcome];
              var line := LogRecord.Format(LogRecord.Record(time, level, message));
              && t.calls == w.calls + [Call(level, message)] && |more| == |t.calls|
              && AreLinesOf(lines + (if outcome.Written? then [line] else []), ProcessedOf(t.calls, more))
              && t.processed == |ProcessedOf(t.calls, more)|
    {
      hide LogRecord.Format;
      OneMoreCall(w.calls, outcomes, Call(level, message), outcome);
      hide ProcessedOf;
      assert IsLineOf(LogRecord.Format(LogRecord.Record(time, level, message)), Call(level, message));
    }

    /** A turn of the collector can fall between any two events. */
    method Turn(poll: TcpReceiver.Poll, arrivals: seq<TcpReceiver.Arrival>, ghost callers: seq<Delivery.Origin>,
                waited: bool)
      requires site.Valid() && IsCoupled()
      requires !site.failed && site.network.IsDeliverable(poll) && site.network.AreNewCallers(callers)
      requires |callers| == TcpReceiver.TakenIn(site.network.receiver.clients, poll, arrivals)
      modifies site`deadline, site`failed, site.network`origins, site.network.receiver,
               set c | c in site.network.receiver.clients :: c.reader
      modifies site.app, site.app.clock, site.app.statistics, site.app.statistics.minutes, site.app.statistics.byLevel
      ensures site.Valid() && IsCoupled()
    {
      hide site.Valid, AllAccepted, AreLinesOf, ProcessedOf, TcpReceiver.TakenIn;
      site.Turn(poll, arrivals, callers, waited);
    }

    /** One line: what it asks for is handled at once. */
    method Take(line: string, level: Level, env: Env, text: ErrorCode -> string)
        returns (running: bool, newLevel: Level)
      requires site.Valid() && IsCoupled() && site.network.sinks[k].clock <= env.dial.checked <= env.now
      modifies this`worker, this`outcomes, site.network.sinks[k]
      ensures site.Valid() && IsCoupled() && site.network.sinks[k].clock <= env.now
      ensures old(outcomes) <= outcomes
      ensures Takes(line, old(worker), level, worker, newLevel, running, outcomes)
    {
      hide site.Valid, Worker.Handled, ParseUserInput, TakesDefault, AllAccepted, AreLinesOf, ProcessedOf;
      running, newLevel := true, level;
      match ParseUserInput(line, level) {
        case Message(messageLevel, message) =>
          Handle(Write(messageLevel, message), env, text);
        case LevelCommand(commandLevel) =>
          newLevel := commandLevel;
          Handle(SetLevel(commandLevel), env, text);
        case QuitCommand =>
          running := false;
        case HelpCommand =>
        case EmptyLine =>
        case Error(_) =>
      }
    }

    /** The console program on these lines: the worker ends as the interpreter does with the outcomes there were. */
    method Run(lines: seq<string>, threshold: Level, envs: nat -> Env, text: ErrorCode -> string)
      requires site.Valid() && IsCoupled() && worker == Fresh(threshold) && outcomes == []
      requires AreMonotone(envs) && site.network.sinks[k].clock <= envs(0).dial.checked
      modifies this`worker, this`outcomes, site.network.sinks[k]
      ensures site.Valid() && IsCoupled()
      ensures forall oracle | Agrees(oracle, outcomes) ::
                worker == Interpret(lines, |lines|, threshold, oracle).worker
    {
      assert k < |site.network.sinks|;
      hide site.Valid, IsCoupled, After, Follows;
      var running, level := true, threshold;
      NothingRead(lines, threshold, outcomes);
      for i := 0 to |lines|
        invariant site.Valid() && IsCoupled() && k < |site.network.sinks|
        invariant site.network.sinks[k].clock <= envs(i).dial.checked
        invariant Follows(lines, i, threshold, worker, level, running, outcomes)
      {
        ghost var was, from, seen, ran := worker, level, outcomes, running;
        if running {
          running, level := Take(lines[i], level, envs(i), text);
        }
        OneMoreLine(lines, i, threshold, was, from, seen, ran, worker, level, running, outcomes);
      }
      ItFollows(lines, threshold, worker, level, running, outcomes);
    }

    /** The state is the interpreter's after `n` lines, with the outcomes so far. */
    ghost predicate Follows(lines: seq<string>, n: nat, threshold: Level, w: Worker, level: Level, running: bool,
                            outcomes: seq<LogOutcome>)
      requires n <= |lines|
    {
      forall oracle | Agrees(oracle, outcomes) ::
        var s := Interpret(lines, n, threshold, oracle);
        s.worker == w && s.level == level && s.quit == !running
    }

    /** A line, on every session that is in this state, does what was done. */
    ghost predicate Takes(line: string, was: Worker, from: Level, w: Worker, level: Level, running: bool,
                          outcomes: seq<LogOutcome>)
    {
      forall s: ConsoleApp.Session, oracle |
        !s.quit && s.level == from && s.worker == was && Agrees(oracle, outcomes) ::
        var t := After(s, line, oracle);
        t.worker == w && t.level == level && t.quit == !running
    }

    lemma NothingRead(lines: seq<string>, threshold: Level, outcomes: seq<LogOutcome>)
      ensures Follows(lines, 0, threshold, Fresh(threshold), threshold, true, outcomes)
    {
    }

    lemma OneMoreLine(lines: seq<string>, n: nat, threshold: Level, was: Worker, from: Level, seen: seq<LogOutcome>,
                      ran: bool, w: Worker, level: Level, running: bool, outcomes: seq<LogOutcome>)
      requires n < |lines| && seen <= outcomes && Follows(lines, n, threshold, was, from, ran, seen)
      requires if ran then Takes(lines[n], was, from, w, level, running, outcomes)
               else w == was && level == from && !running
      ensures Follows(lines, n + 1, threshold, w, level, running, outcomes)
    {
      hide ParseUserInput, TakesDefault, Worker.Handled;
      forall oracle | Agrees(oracle, outcomes)
        ensures var s := Interpret(lines, n + 1, threshold, oracle);
                s.worker == w && s.level == level && s.quit == !running
      {
        assert Agrees(oracle, seen);
      }
    }

    lemma ItFollows(lines: seq<string>, threshold: Level, w: Worker, level: Level, running: bool,
                    outcomes: seq<LogOutcome>)
      requires Follows(lines, |lines|, threshold, w, level, running, outcomes)
      ensures forall oracle | Agrees(oracle, outcomes) :: w == Interpret(lines, |lines|, threshold, oracle).worker
    {
    }

    /** What the collector has been handed over one connection of the session is, in order and each line once, the
        start of the lines of this connection among those of the processed calls, over-limit ones excepted. */
    lemma WhatArrivesWasProcessed(j: nat)
      requires site.Valid() && IsCoupled()
      requires j < |site.network.origins| && site.network.origins[j].sink == k
      ensures AreLinesOf(AllAccepted(site.network.sinks[k].wires), ProcessedOf(worker.calls, outcomes))
      ensures site.network.origins[j].wire < |site.network.sinks[k].wires|
      ensures IsStartOfPart(TcpReceiver.Project(site.network.receiver.log, j), site.network.sinks[k].wires,
                            site.network.origins[j].wire)
    {
      NetworkIsValid();
      hide site.Valid, AllAccepted, AreLinesOf, ProcessedOf, IsStartOfPart;
      var network := site.network;
      hide network.Valid, TcpReceiver.Project;
      network.BetweenWrites(j);
      StartsOfParts(TcpReceiver.Project(network.receiver.log, j), network.sinks[k].wires, network.origins[j].wire);
    }

    lemma NetworkIsValid()
      requires site.Valid()
      ensures site.network.Valid() && AreDistinct(site.network.origins)
    {
    }

    /** The lines handed over all connections of the session are no more than the messages it reports as
        processed. */
    lemma NoMoreArrivesThanProcessed()
      requires site.Valid() && IsCoupled()
      ensures CountBelow(site.network.receiver.log, site.network.origins, k, |site.network.sinks[k].wires|) <=
              worker.processed
    {
      var log, origins, wires := site.network.receiver.log, site.network.origins, site.network.sinks[k].wires;
      NetworkIsValid();
      forall j | 0 <= j < |origins| && origins[j].sink == k ensures IsBounded(log, j, origins, wires) {
        ConnectionIsBounded(j);
      }
      hide site.Valid, CountBelow, TcpReceiver.Project, IsBounded;
      ArrivalsAreBounded(log, origins, wires, k, |wires|);
      assert wires[..|wires|] == wires;
    }

    lemma ConnectionIsBounded(j: nat)
      requires site.Valid() && IsCoupled()
      requires j < |site.network.origins| && site.network.origins[j].sink == k
      ensures site.network.origins[j].wire < |site.network.sinks[k].wires|
      ensures |TcpReceiver.Project(site.network.receiver.log, j)| <=
              |site.network.sinks[k].wires[site.network.origins[j].wire].accepted|
    {
      NetworkIsValid();
      hide site.Valid, AllAccepted, AreLinesOf, ProcessedOf;
      var network := site.network;
      hide network.Valid, TcpReceiver.Project, Fitting;
      network.BetweenWrites(j);
      FittingIsShorter(network.WireOf(network.origins[j]).accepted, DEFAULT_LIMIT);
    }

    /** Whatever the schedule of the two threads of the console program was, with these outcomes of its calls it
        has processed the messages whose lines the sink has accepted, no others, and reports their number. */
    lemma EveryScheduleProcessesThese(c: Setting, s: State)
      requires IsCoupled() && Agrees(c.oracle, outcomes)
      requires forall oracle | Agrees(oracle, outcomes) ::
                 worker == Interpret(c.lines, |c.lines|, c.threshold, oracle).worker
      requires IsReachable(c, s) && s.place.Done?
      ensures s.worker == worker
      ensures AreLinesOf(AllAccepted(site.network.sinks[k].wires), ProcessedOf(s.worker.calls, outcomes))
      ensures s.worker.processed == |AllAccepted(site.network.sinks[k].wires)|
    {
      EveryInterleavingIsSequential(c, s);
    }
  }

  predicate AreDistinct(origins: seq<Delivery.Origin>) {
    forall i, j | 0 <= i < j < |origins| :: origins[i] != origins[j]
  }

  predicate IsBelow(origins: seq<Delivery.Origin>, session: nat, k: nat, w: nat) {
    session < |origins| && origins[session].sink == k && origins[session].wire < w
  }

  /** The lines that came over the first `w` connections of sink `k`. */
  function CountBelow(log: seq<TcpReceiver.Tagged>, origins: seq<Delivery.Origin>, k: nat, w: nat): nat {
    if log == [] then 0
    else CountBelow(log[..|log| - 1], origins, k, w) +
         (if IsBelow(origins, log[|log| - 1].session, k, w) then 1 else 0)
  }

  lemma {:induction false} NothingBelow(log: seq<TcpReceiver.Tagged>, origins: seq<Delivery.Origin>, k: nat)
    ensures CountBelow(log, origins, k, 0) == 0
  {
    if log != [] {
      NothingBelow(log[..|log| - 1], origins, k);
    }
  }

  lemma {:induction false} CountOfConnection(log: seq<TcpReceiver.Tagged>, origins: seq<Delivery.Origin>, k: nat,
                                             w: nat, j: nat)
    requires AreDistinct(origins) && j < |origins| && origins[j] == Delivery.Origin(k, w)
    ensures CountBelow(log, origins, k, w + 1) == CountBelow(log, origins, k, w) + |TcpReceiver.Project(log, j)|
  {
    if log != [] {
      CountOfConnection(log[..|log| - 1], origins, k, w, j);
      var session := log[|log| - 1].session;
      if session < |origins| && session != j {
        assert origins[session] != origins[j];
      }
    }
  }

  lemma {:induction false} CountOfNone(log: seq<TcpReceiver.Tagged>, origins: seq<Delivery.Origin>, k: nat, w: nat)
    requires forall j | 0 <= j < |origins| :: origins[j] != Delivery.Origin(k, w)
    ensures CountBelow(log, origins, k, w + 1) == CountBelow(log, origins, k, w)
  {
    if log != [] {
      CountOfNone(log[..|log| - 1], origins, k, w);
    }
  }

  lemma {:induction false} FittingIsShorter(lines: seq<string>, limit: nat)
    ensures |Fitting(lines, limit)| <= |lines|
  {
    if lines != [] {
      FittingIsShorter(lines[1..], limit);
    }
  }

  /** No more lines came over a connection than were accepted on it. */
  predicate IsBounded(log: seq<TcpReceiver.Tagged>, j: nat, origins: seq<Delivery.Origin>, wires: seq<Wire>)
    requires j < |origins|
  {
    origins[j].wire < |wires| && |TcpReceiver.Project(log, j)| <= |wires[origins[j].wire].accepted|
  }

  lemma {:induction false} ArrivalsAreBounded(log: seq<TcpReceiver.Tagged>, origins: seq<Delivery.Origin>,
                                              wires: seq<Wire>, k: nat, w: nat)
    requires w <= |wires| && AreDistinct(origins)
    requires forall j | 0 <= j < |origins| && origins[j].sink == k :: IsBounded(log, j, origins, wires)
    ensures CountBelow(log, origins, k, w) <= |AllAccepted(wires[..w])|
  {
    if w == 0 {
      NothingBelow(log, origins, k);
    } else {
      hide CountBelow, TcpReceiver.Project;
      ArrivalsAreBounded(log, origins, wires, k, w - 1);
      assert wires[..w][..w - 1] == wires[..w - 1];
      if j :| 0 <= j < |origins| && origins[j] == Delivery.Origin(k, w - 1) {
        assert IsBounded(log, j, origins, wires);
        CountOfConnection(log, origins, k, w - 1, j);
      } else {
        CountOfNone(log, origins, k, w - 1);
      }
    }
  }
}
