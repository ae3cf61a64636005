/** Loggers, the network, the receiver and the collector's loop together (collector/core/CollectorApp.cpp over
    collector/core/net/TcpReceiver.cpp): what the collector reports is what happened. */
module Pipeline {
  import opened LineReader
  import opened TcpSink
  import opened Delivery
  import opened CollectorApp

  /** The line was written by a clock that showed a time between the epoch and the end of the clock. */
  ghost predicate IsDatedLine(line: string) {
    exists record :: IsRecordLine(line, record) && IsDated(record)
  }

  ghost function Undated(lines: seq<string>): nat {
    if lines == [] then 0
    else Undated(lines[..|lines| - 1]) + (if IsDatedLine(lines[|lines| - 1]) then 0 else 1)
  }

  /** The records among the lines are those written at a time that a stamp can show. */
  lemma DatedLinesParse(line: string)
    requires CarriesRecord(line)
    ensures LogRecord.Parse(line).Some? <==> IsDatedLine(line)
    ensures line != ""
  {
    hide LogRecord.Parse, LogRecord.Format;
    var record :| IsRecordLine(line, record);
    RecordLineParses(line, record);
    if other :| IsRecordLine(line, other) && IsDated(other) {
      RecordLineParses(line, other);
    }
  }

  lemma {:induction false} RecordLinesAreCounted(lines: seq<string>)
    requires forall l | l in lines :: CarriesRecord(l)
    ensures Unparsed(lines) == Undated(lines) && |Parsed(lines)| + Undated(lines) == |lines|
  {
    hide LogRecord.Parse, CarriesRecord, IsDatedLine;
    if lines != [] {
      DatedLinesParse(lines[|lines| - 1]);
      RecordLinesAreCounted(lines[..|lines| - 1]);
    }
  }

  class Site {
    const network: Network
    const app: CollectorApp
    var deadline: int
    var failed: bool

    /** The collector has consumed what the receiver handed on and has seen its drops. */
    ghost predicate IsCoupled()
      reads app, network.receiver
    {
      && app.lines == TcpReceiver.Untagged(network.receiver.log)
      && app.dropped == network.receiver.dropped
    }

    ghost predicate Valid()
      reads this, network, network.sinks, network.receiver, set c | c in network.receiver.clients :: c.reader
      reads app, app.clock, app.statistics, app.statistics.minutes, app.statistics.byLevel
    {
      && network.Valid() && app.Valid() && IsCoupled()
      && (!failed ==> app.IsDeadline(deadline))
    }

    constructor (sinks: seq<TcpSink>, every: nat, timeout: nat)
      requires forall i, j | 0 <= i < j < |sinks| :: sinks[i] != sinks[j]
      requires forall i | 0 <= i < |sinks| :: sinks[i].Opened() && sinks[i].wires == [FRESH_WIRE]
      requires every > 0
      ensures Valid() && !failed && network.sinks == sinks && app.reports == []
    {
      hide app.Valid, network.Valid, app.IsDeadline;
      network := new Network(sinks);
      app := new CollectorApp(every, timeout);
      failed := false;
      new;
      deadline := app.Begin();
    }

    /** A record logged anywhere, in one go, */
    method Log(k: nat, record: LogRecord.Record, dial: Dial, answers: seq<SendResult>, now: int)
        returns (ok: bool, ec: ErrorCode)
      requires Valid() && k < |network.sinks| && !network.sinks[k].sending && LogLevel.IsValidLevel(record.level)
      requires network.sinks[k].clock <= dial.checked <= now
      modifies network.sinks[k]
      ensures Valid() && !network.sinks[k].sending && network.sinks[k].clock <= now
      ensures ok <==> ec == 0
      ensures ok <==> old(network.sinks[k].Reaches(dial)) &&
                      TakenBy(answers, |LogRecord.Format(record)| + 1) == |LogRecord.Format(record)| + 1
      ensures old(network.sinks[k].wires) != []
      ensures Wrote(old(network.sinks[k].wires), old(network.sinks[k].connected), LogRecord.Format(record), ok,
                    network.sinks[k].wires)
    {
      hide network.Valid, app.Valid, app.IsDeadline, TcpReceiver.Untagged, Wrote, LogRecord.Format, TakenBy;
      ok, ec := network.Log(k, record, dial, answers, now);
    }

    /** or with turns of the collector between the steps. */
    method Begin(k: nat, record: LogRecord.Record, dial: Dial, now: int) returns (ok: bool, ec: ErrorCode)
      requires Valid() && k < |network.sinks| && !network.sinks[k].sending && LogLevel.IsValidLevel(record.level)
      requires network.sinks[k].clock <= dial.checked <= now
      modifies network.sinks[k]
      ensures Valid() && network.sinks[k].clock <= now && (ok <==> network.sinks[k].sending)
      ensures ok ==> ec == 0 && network.sinks[k].line == LogRecord.Format(record) && network.sinks[k].sent == 0
    {
      hide network.Valid, app.Valid, app.IsDeadline, TcpReceiver.Untagged, LogRecord.Format;
      ok, ec := network.Begin(k, record, dial, now);
    }

    method Advance(k: nat, answer: SendResult, now: int) returns (ec: ErrorCode)
      requires Valid() && k < |network.sinks| && network.sinks[k].sending
      requires network.sinks[k].sent < |network.sinks[k].frame| && network.sinks[k].clock <= now
      modifies network.sinks[k]
      ensures Valid() && network.sinks[k].clock <= now
      ensures ec == 0 <==> network.sinks[k].sending
    {
      hide network.Valid, app.Valid, app.IsDeadline, TcpReceiver.Untagged;
      ec := network.Advance(k, answer, now);
    }

    method Finish(k: nat, now: int)
      requires Valid() && k < |network.sinks| && network.sinks[k].sending
      requires network.sinks[k].sent == |network.sinks[k].frame| && network.sinks[k].clock <= now
      modifies network.sinks[k]
      ensures Valid() && network.sinks[k].clock <= now && !network.sinks[k].sending
    {
      hide network.Valid, app.Valid, app.IsDeadline, TcpReceiver.Untagged, Accept;
      network.Finish(k, now);
    }

    /** One turn of the collector's loop. */
    method Turn(poll: TcpReceiver.Poll, arrivals: seq<TcpReceiver.Arrival>, ghost callers: seq<Origin>,
                waited: bool)
      requires Valid() && !failed && network.IsDeliverable(poll) && network.AreNewCallers(callers)
      requires |callers| == TcpReceiver.TakenIn(network.receiver.clients, poll, arrivals)
      modifies this`deadline, this`failed, network`origins, network.receiver,
               set c | c in network.receiver.clients :: c.reader
      modifies app, app.clock, app.statistics, app.statistics.minutes, app.statistics.byLevel
      ensures Valid() && (failed <==> poll.Failed?)
      ensures network.origins == old(network.origins) + callers
    {
      hide network.Valid, app.Valid, network.AreNewCallers, app.Renews, app.IsDeadline, TcpReceiver.TakenIn,
           TcpReceiver.Untagged, Grow;
      ghost var before := network.receiver.log;
      var ok, ec, lines := network.Collect(poll, arrivals, [], 0, callers);
      UntaggedGrows(before, network.receiver.log);
      var received;
      received, deadline := app.RunRound(Round(lines, network.receiver.dropped, ec, waited), deadline);
      failed := !received;
    }

    lemma UntaggedGrows(before: seq<TcpReceiver.Tagged>, after: seq<TcpReceiver.Tagged>)
      requires before <= after
      ensures TcpReceiver.Untagged(after) == TcpReceiver.Untagged(before) + TcpReceiver.Untagged(after[|before|..])
    {
      TcpReceiver.ProjectOfConcat(before, after[|before|..], 0);
      assert before + after[|before|..] == after;
    }

    /** In every reachable state of senders, network, receiver and collector together: every arrival is counted
        once, as a record if its stamp can be read, and as malformed are counted exactly the lines over the
        limit and the undated ones. */
    lemma TheCountersAreTrue()
      requires Valid()
      ensures var arrived := TcpReceiver.Untagged(network.receiver.log);
              && app.statistics.total + Undated(arrived) == |network.receiver.log|
              && app.statistics.malformed ==
                 TcpReceiver.DiscardedIn(network.receiver.streams, DEFAULT_LIMIT) + Undated(arrived)
    {
      network.EveryLineIsARecord();
      LinesHaveSessions(network.receiver.log);
      assert network.receiver.Valid();
      RecordLinesAreCounted(app.lines);
    }

    /** And what every report shows was true when it was made: of the first lines that had arrived, the records
        and, with the drops seen by then, the malformed ones. */
    lemma WhatIsShownIsTrue(r: Report)
      requires Valid() && r in app.reports
      ensures r.lines <= TcpReceiver.Untagged(network.receiver.log)
      ensures r.drops <= TcpReceiver.DiscardedIn(network.receiver.streams, DEFAULT_LIMIT)
      ensures r.shown.total == |r.lines| - Undated(r.lines) && r.shown.malformed == r.drops + Undated(r.lines)
      ensures Shows(r.shown, r.lines, r.drops)
    {
      ReportIsTrue(r);
      network.EveryLineIsARecord();
      assert network.receiver.Valid();
      hide network.Valid, app.Valid, TcpReceiver.Untagged, TcpReceiver.DiscardedIn, CarriesRecord;
      forall l | l in r.lines ensures CarriesRecord(l) {
        assert l in TcpReceiver.Untagged(network.receiver.log);
      }
      RecordLinesAreCounted(r.lines);
    }

    lemma ReportIsTrue(r: Report)
      requires app.Valid() && r in app.reports
      ensures Shows(r.shown, r.lines, r.drops) && r.lines <= app.lines && r.drops <= app.dropped
    {
      app.ReportsAreRight();
    }
  }
}
