/** Loggers and a collector joined by a network: several TcpSinks send records, one TcpReceiver reads them.
    The network delivers, for every connection, some first part of the bytes sent on it, in order and cut in
    any way; everything else about it is free. */
module Delivery {
  import opened Wrappers
  import opened LineReader
  import LogLevel
  import LogRecord
  import opened TcpSink
  import TcpReceiver

  /** A connection: the sink that made it, and which of its connections it is. */
  datatype Origin = Origin(sink: nat, wire: nat)

  /** A line that a logger writes; its clock may show any time. */
  predicate IsRecordLine(line: string, record: LogRecord.Record) {
    LogLevel.IsValidLevel(record.level) && LogRecord.Format(record) == line
  }

  ghost predicate CarriesRecord(line: string) {
    exists record :: IsRecordLine(line, record)
  }

  /** Only whole records are put on a connection. */
  ghost predicate CarriesRecords(wire: Wire) {
    (forall l | l in wire.accepted :: CarriesRecord(l)) && (wire.refused.Some? ==> CarriesRecord(wire.refused.value))
  }

  lemma RecordLinesAreClean(wire: Wire)
    requires CarriesRecords(wire)
    ensures wire.IsClean()
  {
    forall l | CarriesRecord(l) ensures NoNewline(l) {
      var record :| IsRecordLine(l, record);
      LogRecord.RecordIsOneLine(record);
    }
  }

  /** The time is one that a stamp can show. */
  predicate IsDated(record: LogRecord.Record) {
    0 <= record.time / LogRecord.NS_PER_MS <= LogRecord.MAX_MILLIS
  }

  function Floored(record: LogRecord.Record): LogRecord.Record {
    record.(time := LogRecord.FloorToMillis(record.time))
  }

  /** What the collector makes of a line that carries a record: the record, its time floored, unless the clock
      it was written by stood before the epoch or past its end. */
  lemma RecordLineParses(line: string, record: LogRecord.Record)
    requires IsRecordLine(line, record)
    ensures LogRecord.Parse(line) == if IsDated(record) then Some(Floored(record)) else None
    ensures line != ""
  {
    LogRecord.RecordRoundTrip(record);
    LogRecord.RecordIsOneLine(record);
  }

  lemma {:induction false} FittingKeeps(lines: seq<string>, limit: nat)
    ensures forall l | l in Fitting(lines, limit) :: l in lines && |l| <= limit
  {
    if lines != [] {
      FittingKeeps(lines[1..], limit);
    }
  }

  ghost predicate AllCarryRecords(wires: seq<Wire>) {
    forall i | 0 <= i < |wires| :: CarriesRecords(wires[i])
  }

  lemma WritingKeepsRecords(before: seq<Wire>, open: bool, line: string, ok: bool, after: seq<Wire>)
    requires before != [] && CarriesRecord(line) && AllCarryRecords(before)
    requires Wrote(before, open, line, ok, after)
    ensures AllCarryRecords(after)
  {
    hide Extends, CarriesRecord;
    var base := if open then before else before + [FRESH_WIRE];
    var last := base[|base| - 1];
    assert CarriesRecords(FRESH_WIRE) && CarriesRecords(last);
    assert CarriesRecords(last.(accepted := last.accepted + [line]));
    assert forall torn :: CarriesRecords(last.(refused := Some(line), torn := torn));
  }

  lemma TearingKeepsRecords(wires: seq<Wire>, line: string, torn: string)
    requires wires != [] && AllCarryRecords(wires) && CarriesRecord(line)
    ensures AllCarryRecords(Tear(wires, line, torn))
  {
    hide CarriesRecord;
    assert CarriesRecords(wires[|wires| - 1]);
  }

  lemma FreshWireKeepsRecords(wires: seq<Wire>)
    requires AllCarryRecords(wires)
    ensures AllCarryRecords(wires + [FRESH_WIRE])
  {
    assert CarriesRecords(FRESH_WIRE);
  }

  /** Sending more of a line, or accepting it, puts no other line on a connection. */
  lemma SendingKeepsRecords(base: seq<Wire>, line: string, torn: string, more: string)
    requires base != [] && AllCarryRecords(Tear(base, line, torn))
    ensures AllCarryRecords(Tear(base, line, more))
    ensures AreWires(base, true) ==> AllCarryRecords(Accept(base, line))
  {
    hide CarriesRecord;
    var last := |base| - 1;
    assert CarriesRecords(Tear(base, line, torn)[last]);
    assert forall i | 0 <= i < last :: Tear(base, line, torn)[i] == base[i];
  }

  lemma SendingGrows(bytes: seq<string>, part: string)
    requires bytes != []
    ensures HaveGrown(bytes, Grown(bytes, part)) && HaveGrown(bytes, bytes) && HaveGrown(bytes, bytes + [""])
  {
  }

  /** Every connection has carried at least what it had. */
  predicate HaveGrown(before: seq<string>, after: seq<string>) {
    |before| <= |after| && forall i | 0 <= i < |before| :: before[i] <= after[i]
  }

  lemma WritingGrows(bytes: seq<string>, before: seq<Wire>, open: bool, line: string, ok: bool, sent: seq<string>,
                     after: seq<Wire>)
    requires before != [] && Wrote(before, open, line, ok, after)
    requires AreLogged(bytes, before) && AreLogged(sent, after)
    ensures HaveGrown(bytes, sent)
  {
    hide Accept, Tear, Framed;
    forall i | 0 <= i < |bytes| ensures bytes[i] <= sent[i] {
      assert before[i].Text() <= after[i].Text();
    }
  }

  /** A round that delivers only bytes that were sent keeps every stream within what was sent. */
  lemma RoundStaysWithin(before: seq<string>, clients: seq<TcpReceiver.Client>, events: seq<TcpReceiver.Event>,
                         after: seq<string>, k: nat, sent: string)
    requires |clients| == |events| && TcpReceiver.RoundFeeds(before, clients, events, after)
    requires k < |before| && before[k] <= sent
    requires forall i | 0 <= i < |clients| && clients[i].session == k ::
               before[k] + TcpReceiver.BytesOf(events[i]) <= sent
    ensures after[k] <= sent
  {
    if i :| 0 <= i < |clients| && clients[i].session == k {
      assert after[k] == before[k] + TcpReceiver.BytesOf(events[i]);
    }
  }

  /** A line in the log is a line of its connection. */
  lemma {:induction false} LinesHaveSessions(log: seq<TcpReceiver.Tagged>)
    ensures |TcpReceiver.Untagged(log)| == |log|
    ensures forall i | 0 <= i < |log| ::
              TcpReceiver.Untagged(log)[i] == log[i].line
              && log[i].line in TcpReceiver.Project(log, log[i].session)
  {
    if log != [] {
      var shorter := log[..|log| - 1];
      LinesHaveSessions(shorter);
      assert forall i | 0 <= i < |shorter| :: shorter[i] == log[i];
    }
  }

  class Network {
    const sinks: seq<TcpSink>
    const receiver: TcpReceiver.TcpReceiver
    /** The connection behind each session of the receiver. */
    ghost var origins: seq<Origin>

    ghost predicate IsWire(o: Origin)
      reads sinks
    {
      o.sink < |sinks| && o.wire < |sinks[o.sink].wires| == |sinks[o.sink].bytes|
    }

    ghost function WireOf(o: Origin): Wire
      requires IsWire(o)
      reads sinks
    {
      sinks[o.sink].wires[o.wire]
    }

    ghost predicate SinksAreDistinct() {
      forall i, j | 0 <= i < j < |sinks| :: sinks[i] != sinks[j]
    }

    ghost predicate SinksAreValid()
      reads sinks
    {
      && (forall i | 0 <= i < |sinks| :: sinks[i].IsLive())
      && (forall i | 0 <= i < |sinks| :: AllCarryRecords(sinks[i].wires))
    }

    /** The bytes that went over a connection. */
    ghost function BytesOf(o: Origin): string
      requires IsWire(o)
      reads sinks
    {
      sinks[o.sink].bytes[o.wire]
    }

    /** What has been received is the start of what was sent on a connection. */
    ghost predicate IsWithin(stream: string, o: Origin)
      reads sinks
    {
      IsWire(o) && stream <= BytesOf(o)
    }

    ghost predicate HasOrigins()
      reads this, sinks, receiver
    {
      && |origins| == |receiver.streams|
      && (forall j, k | 0 <= j < k < |origins| :: origins[j] != origins[k])
      && (forall k | 0 <= k < |origins| :: IsWithin(receiver.streams[k], origins[k]))
    }

    ghost predicate Valid()
      reads this, sinks, receiver, set c | c in receiver.clients :: c.reader
    {
      SinksAreDistinct() && SinksAreValid() && receiver.Valid() && receiver.HasOpenClients() && HasOrigins()
    }

    constructor (sinks: seq<TcpSink>)
      requires forall i, j | 0 <= i < j < |sinks| :: sinks[i] != sinks[j]
      requires forall i | 0 <= i < |sinks| :: sinks[i].Opened() && sinks[i].wires == [FRESH_WIRE]
      ensures Valid() && this.sinks == sinks && fresh(receiver)
      ensures receiver.clients == [] && receiver.log == [] && receiver.dropped == 0
    {
      this.sinks := sinks;
      receiver := new TcpReceiver.TcpReceiver();
      origins := [];
    }

    /** What a step of sink `k` leaves as it was. */
    twostate predicate OnlySinkGrew(k: nat)
      requires k < |sinks|
      reads this, sinks, receiver
    {
      && HaveGrown(old(sinks[k].bytes), sinks[k].bytes) && |sinks[k].bytes| == |sinks[k].wires|
      && |old(sinks[k].bytes)| == |old(sinks[k].wires)|
      && unchanged(this) && unchanged(receiver)
      && forall i | 0 <= i < |sinks| && i != k :: unchanged(sinks[i])
    }

    /** A step that only adds to the bytes of one sink keeps what was received a first part of them. */
    twostate lemma StreamsStayWithin(k: nat)
      requires k < |sinks| && old(HasOrigins()) && OnlySinkGrew(k)
      ensures HasOrigins()
    {
      forall j | 0 <= j < |origins| ensures IsWithin(receiver.streams[j], origins[j]) {
        assert old(IsWithin(receiver.streams[j], origins[j]));
        if origins[j].sink == k {
          StaysWithin(old(sinks[k].bytes), sinks[k].bytes, origins[j].wire, receiver.streams[j]);
        }
      }
    }

    lemma StaysWithin(before: seq<string>, after: seq<string>, w: nat, stream: string)
      requires HaveGrown(before, after) && w < |before| && stream <= before[w]
      ensures w < |after| && stream <= after[w]
    {
    }

    lemma LengthsAgree(k: nat)
      requires SinksAreValid() && k < |sinks|
      ensures |sinks[k].wires| == |sinks[k].bytes| && sinks[k].wires != []
      ensures if sinks[k].sending then sinks[k].IsSending() else sinks[k].Opened()
    {
      sinks[k].LiveWiresAreSound();
    }

    method WriteTo(k: nat, line: string, dial: Dial, answers: seq<SendResult>, now: int)
        returns (ok: bool, ec: ErrorCode)
      requires SinksAreDistinct() && SinksAreValid() && k < |sinks| && sinks[k].Opened() && CarriesRecord(line)
      requires sinks[k].clock <= dial.checked <= now
      modifies sinks[k]
      ensures SinksAreValid() && sinks[k].Opened() && sinks[k].clock <= now
      ensures ok <==> ec == 0
      ensures ok <==> old(sinks[k].Reaches(dial)) && TakenBy(answers, |line| + 1) == |line| + 1
      ensures old(sinks[k].wires) != []
      ensures Wrote(old(sinks[k].wires), old(sinks[k].connected), line, ok, sinks[k].wires)
      ensures HaveGrown(old(sinks[k].bytes), sinks[k].bytes)
    {
      hide Wrote, AllCarryRecords, CarriesRecord, HaveGrown, AreLogged, TakenBy, Grown, IsFirstStop;
      ghost var bytes, before, open := sinks[k].bytes, sinks[k].wires, sinks[k].connected;
      assert before != [];
      hide AreWires;
      ok, ec := sinks[k].WriteLine(line, dial, answers, now, 0);
      WritingKeepsRecords(before, open, line, ok, sinks[k].wires);
      WritingGrows(bytes, before, open, line, ok, sinks[k].bytes, sinks[k].wires);
    }

    method BeginAt(k: nat, line: string, dial: Dial, now: int) returns (ok: bool, ec: ErrorCode)
      requires SinksAreDistinct() && SinksAreValid() && k < |sinks| && sinks[k].Opened() && CarriesRecord(line)
      requires sinks[k].clock <= dial.checked <= now
      modifies sinks[k]
      ensures SinksAreValid() && sinks[k].clock <= now && (ok <==> sinks[k].sending)
      ensures ok ==> ec == 0 && sinks[k].line == line && sinks[k].sent == 0
      ensures !ok ==> ec != 0
      ensures HaveGrown(old(sinks[k].bytes), sinks[k].bytes)
    {
      hide AllCarryRecords, HaveGrown, Tear, CarriesRecord, AreLogged;
      ghost var bytes, wires := sinks[k].bytes, sinks[k].wires;
      hide AreWires;
      ok, ec := sinks[k].BeginLine(line, dial, now, 0);
      SendingGrows(bytes, "");
      FreshWireKeepsRecords(wires);
      if ok {
        TearingKeepsRecords(sinks[k].base, line, "");
      }
    }

    method AdvanceAt(k: nat, answer: SendResult, now: int) returns (ec: ErrorCode)
      requires SinksAreDistinct() && SinksAreValid() && k < |sinks| && sinks[k].IsSending()
      requires sinks[k].sent < |sinks[k].frame| && sinks[k].clock <= now
      modifies sinks[k]
      ensures SinksAreValid() && sinks[k].clock <= now
      ensures ec == 0 <==> GoesOn(answer)
      ensures ec == 0 <==> sinks[k].sending
      ensures ec == 0 ==> sinks[k].line == old(sinks[k].line)
      ensures HaveGrown(old(sinks[k].bytes), sinks[k].bytes)
    {
      hide AllCarryRecords, HaveGrown, Tear, CarriesRecord, AreLogged, Grown, AreWires;
      ghost var bytes, base, line, frame, sent :=
        sinks[k].bytes, sinks[k].base, sinks[k].line, sinks[k].frame, sinks[k].sent;
      ec := sinks[k].SendOrEnd(answer, now);
      SendingGrows(bytes, frame[sent..sinks[k].sent]);
      SendingKeepsRecords(base, line, frame[..sent], frame[..sinks[k].sent]);
    }

    /** The line that was on its way has joined the accepted ones. */
    twostate predicate HasAccepted(k: nat)
      requires k < |sinks|
      reads sinks
    {
      old(sinks[k].base) != [] && sinks[k].wires == Accept(old(sinks[k].base), old(sinks[k].line))
    }

    method FinishAt(k: nat, now: int)
      requires SinksAreDistinct() && SinksAreValid() && k < |sinks| && sinks[k].IsSending()
      requires sinks[k].sent == |sinks[k].frame| && sinks[k].clock <= now
      modifies sinks[k]
      ensures SinksAreValid() && !sinks[k].sending && sinks[k].clock <= now && sinks[k].connected
      ensures HasAccepted(k)
      ensures HaveGrown(old(sinks[k].bytes), sinks[k].bytes)
    {
      var sink := sinks[k];
      BaseIsOpen(k);
      hide AllCarryRecords, HaveGrown, Tear, Accept, CarriesRecord, AreLogged, AreWires, sink.IsConsistent;
      SendingKeepsRecords(sink.base, sink.line, sink.frame[..sink.sent], "");
      NothingIsLess(sink.bytes);
      sink.Succeed(now);
    }

    lemma BaseIsOpen(k: nat)
      requires SinksAreValid() && k < |sinks| && sinks[k].IsSending()
      ensures sinks[k].base != [] && AreWires(sinks[k].base, true)
      ensures AllCarryRecords(Tear(sinks[k].base, sinks[k].line, sinks[k].frame[..sinks[k].sent]))
    {
    }

    lemma NothingIsLess(bytes: seq<string>)
      ensures HaveGrown(bytes, bytes)
    {
    }

    /** One record written through sink `k`, no round falling within. */
    method Log(k: nat, record: LogRecord.Record, dial: Dial, answers: seq<SendResult>, now: int)
        returns (ok: bool, ec: ErrorCode)
      requires Valid() && k < |sinks| && !sinks[k].sending && LogLevel.IsValidLevel(record.level)
      requires sinks[k].clock <= dial.checked <= now
      modifies sinks[k]
      ensures Valid() && !sinks[k].sending && sinks[k].clock <= now
      ensures ok <==> ec == 0
      ensures ok <==> old(sinks[k].Reaches(dial)) &&
                      TakenBy(answers, |LogRecord.Format(record)| + 1) == |LogRecord.Format(record)| + 1
      ensures old(sinks[k].wires) != []
      ensures Wrote(old(sinks[k].wires), old(sinks[k].connected), LogRecord.Format(record), ok, sinks[k].wires)
    {
      hide LogRecord.Format;
      var line := LogRecord.Format(record);
      LineCarries(line, record);
      hide SinksAreValid, HasOrigins, Wrote, HaveGrown, CarriesRecord, TakenBy;
      LengthsAgree(k);
      ok, ec := WriteTo(k, line, dial, answers, now);
      LengthsAgree(k);
      StreamsStayWithin(k);
      assert receiver.Valid();
    }

    /** The same step by step, with rounds of the receiver between the steps: connecting if need be, */
    method Begin(k: nat, record: LogRecord.Record, dial: Dial, now: int) returns (ok: bool, ec: ErrorCode)
      requires Valid() && k < |sinks| && !sinks[k].sending && LogLevel.IsValidLevel(record.level)
      requires sinks[k].clock <= dial.checked <= now
      modifies sinks[k]
      ensures Valid() && sinks[k].clock <= now && (ok <==> sinks[k].sending)
      ensures ok ==> ec == 0 && sinks[k].line == LogRecord.Format(record) && sinks[k].sent == 0
      ensures !ok ==> ec != 0
    {
      hide LogRecord.Format;
      var line := LogRecord.Format(record);
      LineCarries(line, record);
      hide SinksAreValid, HasOrigins, HaveGrown, CarriesRecord;
      LengthsAgree(k);
      ok, ec := BeginAt(k, line, dial, now);
      LengthsAgree(k);
      StreamsStayWithin(k);
      assert receiver.Valid();
    }

    lemma LineCarries(line: string, record: LogRecord.Record)
      requires IsRecordLine(line, record)
      ensures CarriesRecord(line)
    {
    }

    /** one call of `send` after another, giving up at an error, */
    method Advance(k: nat, answer: SendResult, now: int) returns (ec: ErrorCode)
      requires Valid() && k < |sinks| && sinks[k].sending && sinks[k].sent < |sinks[k].frame| && sinks[k].clock <= now
      modifies sinks[k]
      ensures Valid() && sinks[k].clock <= now
      ensures ec == 0 <==> GoesOn(answer)
      ensures ec == 0 <==> sinks[k].sending
    {
      var sink := sinks[k];
      hide sink.IsSending, sink.Opened, SinksAreValid, HasOrigins, HaveGrown, Emitted, TcpReceiver.Project,
           TcpReceiver.DiscardedIn;
      LengthsAgree(k);
      ec := AdvanceAt(k, answer, now);
      LengthsAgree(k);
      StreamsStayWithin(k);
      assert receiver.Valid();
    }

    /** and returning true once all has been sent. */
    method Finish(k: nat, now: int)
      requires Valid() && k < |sinks| && sinks[k].sending && sinks[k].sent == |sinks[k].frame| && sinks[k].clock <= now
      modifies sinks[k]
      ensures Valid() && sinks[k].clock <= now && !sinks[k].sending && sinks[k].connected
      ensures HasAccepted(k)
    {
      var sink := sinks[k];
      hide sink.IsSending, sink.Opened, HasAccepted, SinksAreValid, HasOrigins, HaveGrown, Emitted,
           TcpReceiver.Project, TcpReceiver.DiscardedIn;
      LengthsAgree(k);
      FinishAt(k, now);
      LengthsAgree(k);
      StreamsStayWithin(k);
      assert receiver.Valid();
    }

    /** The bytes a poll finds are the next ones sent on each connection. */
    ghost predicate IsDeliverable(poll: TcpReceiver.Poll)
      requires Valid()
      reads this, sinks, receiver, set c | c in receiver.clients :: c.reader
    {
      && (poll.Failed? ==> poll.error != 0)
      && (poll.Ready? ==>
            && |poll.events| == |receiver.clients|
            && (forall e | e in poll.events :: TcpReceiver.IsSizedEvent(e))
            && forall i | 0 <= i < |receiver.clients| ::
                 var k := receiver.clients[i].session;
                 receiver.streams[k] + TcpReceiver.BytesOf(poll.events[i]) <= BytesOf(origins[k]))
    }

    /** The clients taken in come from connections not met before. */
    ghost predicate AreNewCallers(callers: seq<Origin>)
      reads this, sinks
    {
      && (forall i | 0 <= i < |callers| :: IsWire(callers[i]) && callers[i] !in origins)
      && (forall i, j | 0 <= i < j < |callers| :: callers[i] != callers[j])
    }

    /** One round of the receiver. */
    method Collect(poll: TcpReceiver.Poll, arrivals: seq<TcpReceiver.Arrival>, lines: seq<string>, error: ErrorCode,
                   ghost callers: seq<Origin>)
        returns (ok: bool, ec: ErrorCode, out: seq<string>)
      requires Valid() && IsDeliverable(poll) && AreNewCallers(callers)
      requires |callers| == TcpReceiver.TakenIn(receiver.clients, poll, arrivals)
      modifies this`origins, receiver, set c | c in receiver.clients :: c.reader
      ensures Valid()
      ensures ok <==> !poll.Failed?
      ensures ok ==> ec == error
      ensures !ok ==> ec != 0
      ensures forall c | c in receiver.clients :: c in old(receiver.clients) || fresh(c.reader)
      ensures receiver.dropped >= old(receiver.dropped)
      ensures poll.Failed? ==> receiver.log == old(receiver.log) && receiver.dropped == old(receiver.dropped)
      ensures poll.Ready? ==>
                receiver.ended == old(receiver.ended) + TcpReceiver.EndedBy(old(receiver.clients), poll.events)
      ensures origins == old(origins) + callers
      ensures TcpReceiver.Handed(old(receiver.log), receiver.log, lines, out)
    {
      hide AreWires, Emitted, Discarded, AllCarryRecords, Framed, TcpReceiver.Project, TcpReceiver.Kept,
           TcpReceiver.FedFrom, SinksAreValid, receiver.Valid, receiver.HasClients;
      ghost var was, all := receiver.streams, receiver.clients;
      ok, ec, out := receiver.Receive(poll, arrivals, lines, error);
      if poll.Ready? {
        forall k | 0 <= k < |was| ensures IsWithin(receiver.streams[k], origins[k]) {
          RoundStaysWithin(was, all, poll.events, receiver.streams, k, BytesOf(origins[k]));
        }
      }
      origins := origins + callers;
    }

    /** The line being written over a connection, once all of it has been sent. */
    ghost function InFlight(o: Origin): seq<string>
      requires IsWire(o)
      reads sinks
    {
      var sink := sinks[o.sink];
      if sink.sending && o.wire == |sink.wires| - 1 && sink.sent == |sink.frame| then [sink.line] else []
    }

    lemma FlightIsCompletion(o: Origin)
      requires SinksAreValid() && IsWire(o)
      ensures WireOf(o).IsSound() && WireOf(o).IsClean() && BytesOf(o) == WireOf(o).Text()
      ensures WireOf(o).Completed() == WireOf(o).accepted + InFlight(o)
    {
      sinks[o.sink].LiveWiresAreSound();
      RecordLinesAreClean(WireOf(o));
    }

    /** In every reachable state, within writes and between them, what the collector has been handed from a
        connection is, in order and each line once, the start of the lines whose write succeeded on that
        connection and of the one being written if its newline has been sent, without those over the limit; and
        it is all of them once every byte sent has arrived. */
    lemma OnlyAcceptedLinesArrive(k: nat)
      requires Valid() && k < |origins|
      ensures var got := TcpReceiver.Project(receiver.log, k);
              var sent := Fitting(WireOf(origins[k]).accepted + InFlight(origins[k]), DEFAULT_LIMIT);
              && got <= sent
              && (receiver.streams[k] == BytesOf(origins[k]) ==> got == sent)
    {
      FlightIsCompletion(origins[k]);
      hide SinksAreValid, InFlight;
      DeliveredLinesAreComplete(WireOf(origins[k]), receiver.streams[k], DEFAULT_LIMIT);
    }

    /** Between writes: only lines whose write succeeded. */
    lemma BetweenWrites(k: nat)
      requires Valid() && k < |origins| && origins[k].sink < |sinks| && !sinks[origins[k].sink].sending
      ensures IsWire(origins[k])
      ensures TcpReceiver.Project(receiver.log, k) <= Fitting(WireOf(origins[k]).accepted, DEFAULT_LIMIT)
    {
      assert IsWithin(receiver.streams[k], origins[k]);
      hide SinksAreValid, receiver.Valid, Fitting, TcpReceiver.Project, HasOrigins;
      OnlyAcceptedLinesArrive(k);
      assert WireOf(origins[k]).accepted + [] == WireOf(origins[k]).accepted;
    }

    /** So a line can arrive before its write has returned, but only when it will return true, and never from a
        write that fails. */
    lemma EveryArrivalIsARecord(k: nat, line: string)
      requires Valid() && k < |origins|
      requires line in TcpReceiver.Project(receiver.log, k)
      ensures line in WireOf(origins[k]).accepted + InFlight(origins[k]) && CarriesRecord(line)
    {
      var wire := WireOf(origins[k]);
      assert CarriesRecords(wire) by {
        assert AllCarryRecords(sinks[origins[k].sink].wires);
      }
      FlightIsCompletion(origins[k]);
      hide SinksAreValid, InFlight, receiver.Valid, CarriesRecord, Fitting, TcpReceiver.Project, HasOrigins;
      OnlyAcceptedLinesArrive(k);
      FittingKeeps(wire.Completed(), DEFAULT_LIMIT);
    }

    /** The same of the whole log. */
    lemma EveryLineIsARecord()
      requires Valid()
      ensures forall l | l in TcpReceiver.Untagged(receiver.log) :: CarriesRecord(l)
    {
      LinesHaveSessions(receiver.log);
      hide *;
      forall i | 0 <= i < |receiver.log| ensures CarriesRecord(receiver.log[i].line) {
        ArrivalIsARecord(i);
      }
    }

    lemma ArrivalIsARecord(i: nat)
      requires Valid() && i < |receiver.log|
      ensures CarriesRecord(receiver.log[i].line)
    {
      var arrival := receiver.log[i];
      LinesHaveSessions(receiver.log);
      assert arrival in receiver.log && arrival.session < |origins|;
      hide TcpReceiver.Untagged, TcpReceiver.Project, CarriesRecord, receiver.Valid, SinksAreValid, HasOrigins;
      EveryArrivalIsARecord(arrival.session, arrival.line);
    }
  }
}
