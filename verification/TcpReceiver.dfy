/** The receiver of many TCP connections (collector/core/net/TcpReceiver.cpp).  What poll, recv and accept
    answer is passed in. */
module TcpReceiver {
  import opened Text
  import opened LineReader

  const MAX_CLIENTS := 16
  const CHUNK_SIZE := 4096

  type ErrorCode = nat

  /** What one round finds at a client: nothing, bytes read, the end of the stream, a reason to try again
      later, or an error. */
  datatype Event = Quiet | Data(bytes: string) | Closed | TryAgain | Broken

  /** What `accept` gives: a usable client or one that cannot be made non-blocking.  When the answers run out
      there is nobody left to accept. */
  datatype Arrival = Usable | Unusable

  datatype Poll = Failed(error: ErrorCode) | Interrupted | Ready(events: seq<Event>, listener: bool)

  /** A line handed on and the connection it came from, numbered in the order of acceptance. */
  datatype Tagged = Tagged(session: nat, line: string)

  function Untagged(log: seq<Tagged>): seq<string> {
    if log == [] then [] else Untagged(log[..|log| - 1]) + [log[|log| - 1].line]
  }

  /** The lines of one connection. */
  function Project(log: seq<Tagged>, session: nat): seq<string> {
    if log == [] then []
    else
      var last := log[|log| - 1];
      Project(log[..|log| - 1], session) + (if last.session == session then [last.line] else [])
  }

  function Tag(session: nat, lines: seq<string>): (r: seq<Tagged>)
    ensures |r| == |lines|
  {
    seq(|lines|, i requires 0 <= i < |lines| => Tagged(session, lines[i]))
  }

  lemma {:induction false} ProjectOfConcat(a: seq<Tagged>, b: seq<Tagged>, session: nat)
    ensures Project(a + b, session) == Project(a, session) + Project(b, session)
    ensures Untagged(a + b) == Untagged(a) + Untagged(b)
  {
    if b == [] {
      assert a + b == a;
    } else {
      assert (a + b)[..|a + b| - 1] == a + b[..|b| - 1];
      ProjectOfConcat(a, b[..|b| - 1], session);
    }
  }

  lemma {:induction false} ProjectOfTag(k: nat, lines: seq<string>, session: nat)
    ensures Project(Tag(k, lines), session) == if k == session then lines else []
    ensures Untagged(Tag(k, lines)) == lines
  {
    if lines != [] {
      var shorter := lines[..|lines| - 1];
      ProjectOfTag(k, shorter, session);
      assert Tag(k, lines)[..|lines| - 1] == Tag(k, shorter);
      assert lines == shorter + [lines[|lines| - 1]];
    }
  }

  /** Lines given up on over all connections. */
  function DiscardedIn(streams: seq<string>, limit: nat): nat {
    if streams == [] then 0
    else DiscardedIn(streams[..|streams| - 1], limit) + Discarded(streams[|streams| - 1], limit)
  }

  lemma {:induction false} DiscardedInUpdate(streams: seq<string>, k: nat, stream: string, limit: nat)
    requires k < |streams|
    ensures DiscardedIn(streams[k := stream], limit) + Discarded(streams[k], limit) ==
            DiscardedIn(streams, limit) + Discarded(stream, limit)
  {
    var rest, after := streams[..|streams| - 1], streams[k := stream];
    if k < |streams| - 1 {
      DiscardedInUpdate(rest, k, stream, limit);
      assert after[..|after| - 1] == rest[k := stream];
    } else {
      assert after[..|after| - 1] == rest;
    }
  }

  lemma DiscardedInAppend(streams: seq<string>, limit: nat)
    ensures DiscardedIn(streams + [""], limit) == DiscardedIn(streams, limit)
  {
    assert (streams + [""])[..|streams|] == streams;
    NewlineNowhere("");
  }

  // ----- the specification of one round -----

  datatype Client = Client(ghost session: nat, reader: LineReader)

  predicate Survives(e: Event) {
    !e.Closed? && !e.Broken?
  }

  /** The clients of a round that are kept, in their order. */
  ghost function Kept(clients: seq<Client>, events: seq<Event>): seq<Client>
    requires |clients| == |events|
  {
    if clients == [] then []
    else (if Survives(events[0]) then [clients[0]] else []) + Kept(clients[1..], events[1..])
  }

  ghost predicate HasClient(clients: seq<Client>, session: nat) {
    exists i :: 0 <= i < |clients| && clients[i].session == session
  }

  /** The clients are, in order, the connections accepted so far that have not ended. */
  ghost predicate AreOpen(clients: seq<Client>, accepted: nat, ended: set<nat>) {
    && AreOrdered(clients)
    && (forall s | s in ended :: s < accepted)
    && (forall s: nat | s < accepted :: HasClient(clients, s) <==> s !in ended)
    && (forall i | 0 <= i < |clients| :: clients[i].session < accepted)
  }

  /** The connections that a round ends. */
  ghost function EndedBy(clients: seq<Client>, events: seq<Event>): set<nat>
    requires |clients| == |events|
  {
    set k | 0 <= k < |clients| && (events[k].Closed? || events[k].Broken?) :: clients[k].session
  }

  lemma {:induction false} KeptAt(clients: seq<Client>, events: seq<Event>, k: nat)
    requires |clients| == |events| && AreOrdered(clients) && k < |clients|
    ensures clients[k] in Kept(clients, events) <==> events[k].Quiet? || events[k].Data? || events[k].TryAgain?
  {
    var rest, later := clients[1..], events[1..];
    KeptAreClients(rest, later);
    if k == 0 {
      assert forall c | c in rest :: c.session > clients[0].session;
    } else {
      assert rest[k - 1] == clients[k] && later[k - 1] == events[k] && clients[k] != clients[0];
      KeptAt(rest, later, k - 1);
    }
  }

  lemma {:induction false} KeptIsOrdered(clients: seq<Client>, events: seq<Event>)
    requires |clients| == |events| && AreOrdered(clients)
    ensures AreOrdered(Kept(clients, events))
  {
    if clients != [] {
      var rest, later := clients[1..], events[1..];
      KeptIsOrdered(rest, later);
      KeptAreClients(rest, later);
      assert forall c | c in rest :: c.session > clients[0].session;
      var kept := Kept(rest, later);
      assert forall i | 0 <= i < |kept| :: kept[i] in kept;
      hide Kept;
    }
  }

  /** A client is kept exactly when nothing, bytes or a reason to try again came from it. */
  lemma KeptExactly(clients: seq<Client>, events: seq<Event>)
    requires |clients| == |events| && AreOrdered(clients)
    ensures forall k | 0 <= k < |clients| ::
              clients[k] in Kept(clients, events) <==> events[k].Quiet? || events[k].Data? || events[k].TryAgain?
    ensures forall c | c in Kept(clients, events) :: c in clients
  {
    hide Kept;
    KeptAreClients(clients, events);
    forall k | 0 <= k < |clients|
      ensures clients[k] in Kept(clients, events) <==> events[k].Quiet? || events[k].Data? || events[k].TryAgain?
    {
      KeptAt(clients, events, k);
    }
  }

  lemma KeptHasClient(clients: seq<Client>, events: seq<Event>, s: nat)
    requires |clients| == |events| && AreOrdered(clients)
    ensures HasClient(Kept(clients, events), s) <==> HasClient(clients, s) && s !in EndedBy(clients, events)
  {
    hide Kept;
    KeptExactly(clients, events);
    var kept := Kept(clients, events);
    if HasClient(kept, s) {
      var i :| 0 <= i < |kept| && kept[i].session == s;
      assert kept[i] in clients;
      var k :| 0 <= k < |clients| && clients[k] == kept[i];
      assert clients[k].session == s;
      assert forall j | 0 <= j < |clients| && clients[j].session == s :: j == k;
    }
    if HasClient(clients, s) && s !in EndedBy(clients, events) {
      var k :| 0 <= k < |clients| && clients[k].session == s;
      assert clients[k] in kept;
      var i :| 0 <= i < |kept| && kept[i] == clients[k];
      assert kept[i].session == s;
    }
  }

  lemma StillOpen(clients: seq<Client>, events: seq<Event>, accepted: nat, ended: set<nat>)
    requires |clients| == |events| && AreOpen(clients, accepted, ended)
    ensures AreOpen(Kept(clients, events), accepted, ended + EndedBy(clients, events))
  {
    hide Kept, HasClient;
    KeptIsOrdered(clients, events);
    KeptAreClients(clients, events);
    var kept := Kept(clients, events);
    forall i | 0 <= i < |kept| ensures kept[i].session < accepted {
      assert kept[i] in kept && kept[i] in clients;
    }
    forall s: nat | s < accepted ensures HasClient(kept, s) <==> s !in ended + EndedBy(clients, events) {
      KeptHasClient(clients, events, s);
    }
  }

  lemma NewcomerIsOpen(clients: seq<Client>, accepted: nat, ended: set<nat>, client: Client)
    requires AreOpen(clients, accepted, ended) && client.session == accepted
    ensures AreOpen(clients + [client], accepted + 1, ended)
  {
    var after := clients + [client];
    assert after[|clients|].session == accepted;
    forall s: nat | s < accepted ensures HasClient(after, s) <==> HasClient(clients, s) {
      if HasClient(clients, s) {
        var i :| 0 <= i < |clients| && clients[i].session == s;
        assert after[i].session == s;
      }
      if HasClient(after, s) {
        var i :| 0 <= i < |after| && after[i].session == s;
        assert clients[i].session == s;
      }
    }
  }

  /** A usable caller counts, another does not; there is room for sixteen, and `recv` takes 4096 bytes at a time. */
  lemma RoundConstants(arrivals: seq<Arrival>)
    ensures MAX_CLIENTS == 16 && CHUNK_SIZE == 4096 && UsableIn([]) == 0
    ensures UsableIn(arrivals + [Usable]) == UsableIn(arrivals) + 1
    ensures UsableIn(arrivals + [Unusable]) == UsableIn(arrivals)
  {
    assert (arrivals + [Usable])[..|arrivals|] == arrivals && (arrivals + [Unusable])[..|arrivals|] == arrivals;
  }

  function BytesOf(e: Event): string {
    if e.Data? then e.bytes else ""
  }

  /** One stream with more bytes at its end. */
  function Fed(streams: seq<string>, session: nat, bytes: string): seq<string>
    requires session < |streams|
  {
    streams[session := streams[session] + bytes]
  }

  /** The same new lines go to the caller and, tagged with their connection, to the log. */
  ghost predicate HandsOn(before: seq<Tagged>, after: seq<Tagged>, session: nat, lines: seq<string>, out: seq<string>) {
    lines <= out && after == before + Tag(session, out[|lines|..])
  }

  function UsableIn(arrivals: seq<Arrival>): nat {
    if arrivals == [] then 0
    else UsableIn(arrivals[..|arrivals| - 1]) + (if arrivals[|arrivals| - 1].Usable? then 1 else 0)
  }

  lemma {:induction false} UsableGrows(arrivals: seq<Arrival>, n: nat)
    requires n <= |arrivals|
    ensures UsableIn(arrivals[..n]) <= UsableIn(arrivals)
  {
    if n < |arrivals| {
      var shorter := arrivals[..|arrivals| - 1];
      UsableGrows(shorter, n);
      assert shorter[..n] == arrivals[..n];
    } else {
      assert arrivals[..n] == arrivals;
    }
  }

  lemma OneMoreArrival(arrivals: seq<Arrival>, n: nat)
    requires n < |arrivals|
    ensures UsableIn(arrivals[..n + 1]) == UsableIn(arrivals[..n]) + (if arrivals[n].Usable? then 1 else 0)
  {
    assert arrivals[..n + 1][..n] == arrivals[..n];
  }

  /** The clients from the i-th on have had their bytes added to their streams; nothing else has changed. */
  ghost predicate FedFrom(before: seq<string>, clients: seq<Client>, events: seq<Event>, i: nat, after: seq<string>)
    requires |clients| == |events|
  {
    && |after| >= |before|
    && (forall k | i <= k < |clients| && clients[k].session < |before| ::
          after[clients[k].session] == before[clients[k].session] + BytesOf(events[k]))
    && (forall s | 0 <= s < |before| && (forall k | i <= k < |clients| :: clients[k].session != s) ::
          after[s] == before[s])
  }

  ghost predicate RoundFeeds(before: seq<string>, clients: seq<Client>, events: seq<Event>, after: seq<string>)
    requires |clients| == |events|
  {
    FedFrom(before, clients, events, 0, after)
  }

  ghost predicate AreOrdered(clients: seq<Client>) {
    forall i, j | 0 <= i < j < |clients| :: clients[i].session < clients[j].session
  }

  lemma StartOfRound(before: seq<string>, clients: seq<Client>, events: seq<Event>)
    requires |clients| == |events|
    ensures FedFrom(before, clients, events, |clients|, before) && IsNewestFirst([])
  {
  }

  lemma LowerBound(news: seq<Tagged>, clients: seq<Client>, i: nat)
    requires i < |clients| && AreOrdered(clients)
    requires i + 1 < |clients| ==> AreAtLeast(news, clients[i + 1].session)
    requires i + 1 == |clients| ==> news == []
    ensures AreAtLeast(news, clients[i].session)
  {
  }

  lemma FeedsOneMore(before: seq<string>, clients: seq<Client>, events: seq<Event>, i: nat, after: seq<string>)
    requires |clients| == |events| && i < |clients| && AreOrdered(clients)
    requires clients[i].session < |before|
    requires FedFrom(before, clients, events, i + 1, after)
    ensures FedFrom(before, clients, events, i, Fed(after, clients[i].session, BytesOf(events[i])))
  {
    assert forall k | i + 1 <= k < |clients| :: clients[k].session != clients[i].session;
  }

  /** The clients while the loop has those below `i` still to read. */
  ghost function Remaining(clients: seq<Client>, events: seq<Event>, i: nat): seq<Client>
    requires i <= |clients| == |events|
  {
    clients[..i] + Kept(clients[i..], events[i..])
  }

  /** What a round starts from. */
  datatype Start = Start(clients: seq<Client>, events: seq<Event>, streams: seq<string>, log: seq<Tagged>,
                         lines: seq<string>)
  {
    ghost predicate IsSound() {
      && |clients| == |events| && AreOrdered(clients)
      && forall k | 0 <= k < |clients| :: clients[k].session < |streams|
    }
  }

  /** The state of a round that still has the clients below `i` to read. */
  ghost predicate Midway(start: Start, i: nat, clients: seq<Client>, streams: seq<string>, log: seq<Tagged>,
                         out: seq<string>)
  {
    && start.IsSound() && i <= |start.clients|
    && clients == Remaining(start.clients, start.events, i)
    && |streams| == |start.streams| && FedFrom(start.streams, start.clients, start.events, i, streams)
    && Handed(start.log, log, start.lines, out)
    && IsNewestFirst(log[|start.log|..])
    && (if i < |start.clients| then AreAtLeast(log[|start.log|..], start.clients[i].session)
        else log == start.log)
  }

  lemma ErasingOne(clients: seq<Client>, events: seq<Event>, i: nat)
    requires i < |clients| == |events|
    ensures var now := Remaining(clients, events, i + 1);
            && i < |now| && now[i] == clients[i]
            && Remaining(clients, events, i) == if Survives(events[i]) then now else now[..i] + now[i + 1..]
  {
    assert clients[i..][1..] == clients[i + 1..] && events[i..][1..] == events[i + 1..];
  }

  lemma {:induction false} KeptAreClients(clients: seq<Client>, events: seq<Event>)
    requires |clients| == |events|
    ensures |Kept(clients, events)| <= |clients|
    ensures forall c | c in Kept(clients, events) :: c in clients
  {
    if clients != [] {
      KeptAreClients(clients[1..], events[1..]);
    }
  }

  lemma KeptIsRemaining(clients: seq<Client>, events: seq<Event>)
    requires |clients| == |events|
    ensures Remaining(clients, events, 0) == Kept(clients, events)
    ensures Remaining(clients, events, |clients|) == clients
    ensures forall c | c in Kept(clients, events) :: c in clients
  {
    assert clients[0..] == clients && events[0..] == events;
    KeptAreClients(clients, events);
  }

  /** How many clients a round takes in. */
  ghost function TakenIn(clients: seq<Client>, poll: Poll, arrivals: seq<Arrival>): (n: int)
    requires |clients| <= MAX_CLIENTS
    requires poll.Ready? ==> |poll.events| == |clients|
    ensures n >= 0
  {
    if poll.Ready? && poll.listener then
      KeptAreClients(clients, poll.events);
      Min(MAX_CLIENTS - |Kept(clients, poll.events)|, UsableIn(arrivals))
    else 0
  }

  /** Lines of later connections come before lines of earlier ones. */
  ghost predicate IsNewestFirst(log: seq<Tagged>) {
    forall a, b | 0 <= a < b < |log| :: log[a].session >= log[b].session
  }

  lemma NewsGrow(start: seq<Tagged>, news: seq<Tagged>, session: nat, got: seq<string>, lines: seq<string>)
    ensures (start + news) + Tag(session, got) == start + (news + Tag(session, got))
    ensures (lines + Untagged(news)) + got == lines + Untagged(news + Tag(session, got))
  {
    hide Project, Untagged;
    Regroup(start, news, Tag(session, got));
    Regroup(lines, Untagged(news), got);
    ProjectOfConcat(news, Tag(session, got), session);
    ProjectOfTag(session, got, session);
  }

  lemma NewsStayOrdered(news: seq<Tagged>, session: nat, got: seq<string>)
    requires IsNewestFirst(news) && AreAtLeast(news, session)
    ensures var more := news + Tag(session, got); IsNewestFirst(more) && AreAtLeast(more, session)
  {
  }

  ghost predicate AreAtLeast(log: seq<Tagged>, session: nat) {
    forall a | 0 <= a < |log| :: log[a].session >= session
  }

  /** What was added to the log is what was added to the lines. */
  ghost predicate Handed(before: seq<Tagged>, after: seq<Tagged>, lines: seq<string>, out: seq<string>) {
    before <= after && out == lines + Untagged(after[|before|..])
  }

  /** A connection nobody has read from yet has handed on nothing. */
  lemma NewStream(streams: seq<string>, log: seq<Tagged>)
    requires forall t | t in log :: t.session < |streams|
    ensures Project(log, |streams|) == [] && Emitted("", DEFAULT_LIMIT) == []
  {
    NothingOf(log, |streams|);
    NewlineNowhere("");
  }

  lemma {:induction false} NothingOf(log: seq<Tagged>, session: nat)
    requires forall t | t in log :: t.session != session
    ensures Project(log, session) == []
  {
    if log != [] {
      NothingOf(log[..|log| - 1], session);
    }
  }

  lemma NothingRead(streams: seq<string>, log: seq<Tagged>, session: nat, lines: seq<string>)
    requires session < |streams|
    ensures Fed(streams, session, "") == streams
    ensures HandsOn(log, log, session, lines, lines)
  {
    assert streams[session] + "" == streams[session];
    assert log == log + Tag(session, lines[|lines|..]);
  }

  /** Reading client `i` brings the round on by one. */
  lemma OneMoreRead(start: Start, i: nat, was: seq<string>, wrote: seq<Tagged>, had: seq<string>,
                    streams: seq<string>, log: seq<Tagged>, out: seq<string>)
    requires start.IsSound() && i < |start.clients|
    requires Midway(start, i + 1, Remaining(start.clients, start.events, i + 1), was, wrote, had)
    requires streams == Fed(was, start.clients[i].session, BytesOf(start.events[i]))
    requires HandsOn(wrote, log, start.clients[i].session, had, out)
    ensures Midway(start, i, Remaining(start.clients, start.events, i), streams, log, out)
  {
    hide Project, Untagged, FedFrom, IsNewestFirst, AreAtLeast, Remaining;
    var news, session, got := wrote[|start.log|..], start.clients[i].session, out[|had|..];
    LowerBound(news, start.clients, i);
    NewsGrow(start.log, news, session, got, start.lines);
    NewsStayOrdered(news, session, got);
    FeedsOneMore(start.streams, start.clients, start.events, i, was);
    assert log[|start.log|..] == news + Tag(session, got);
  }

  predicate IsSizedEvent(e: Event) {
    e.Data? ==> 0 < |e.bytes| <= CHUNK_SIZE
  }

  class TcpReceiver {
    var clients: seq<Client>
    var dropped: nat
    /** Everything received, one stream for each connection ever accepted. */
    ghost var streams: seq<string>
    /** Every line handed on. */
    ghost var log: seq<Tagged>
    /** The connections that have ended. */
    ghost var ended: set<nat>

    ghost predicate HasClients()
      reads this`clients, this`streams, set c | c in clients :: c.reader
    {
      && |clients| <= MAX_CLIENTS
      && (forall i, j | 0 <= i < j < |clients| ::
            clients[i].session < clients[j].session && clients[i].reader != clients[j].reader)
      && (forall i | 0 <= i < |clients| ::
            && clients[i].session < |streams|
            && clients[i].reader.Valid()
            && clients[i].reader.limit == DEFAULT_LIMIT
            && clients[i].reader.stream == streams[clients[i].session])
    }

    ghost predicate Valid()
      reads this, set c | c in clients :: c.reader
    {
      && HasClients()
      && (forall k | 0 <= k < |streams| :: Project(log, k) == Emitted(streams[k], DEFAULT_LIMIT))
      && (forall t | t in log :: t.session < |streams|)
      && dropped == DiscardedIn(streams, DEFAULT_LIMIT)
    }

    /** The clients are the connections accepted so far none of whose events was an end. */
    ghost predicate HasOpenClients()
      reads this`clients, this`streams, this`ended
    {
      AreOpen(clients, |streams|, ended)
    }

    constructor ()
      ensures Valid() && clients == [] && dropped == 0 && streams == [] && log == [] && ended == {}
      ensures HasOpenClients()
    {
      clients, dropped, streams, log, ended := [], 0, [], [], {};
    }

    /** Reads one client; the result says whether it stays. */
    method Read(i: nat, event: Event, lines: seq<string>) returns (stays: bool, out: seq<string>)
      requires Valid() && i < |clients| && IsSizedEvent(event)
      modifies this`dropped, this`streams, this`log, clients[i].reader
      ensures Valid()
      ensures stays <==> Survives(event)
      ensures dropped >= old(dropped)
      ensures streams == Fed(old(streams), clients[i].session, BytesOf(event))
      ensures HandsOn(old(log), log, clients[i].session, lines, out)
    {
      hide Emitted, Discarded, Project, DiscardedIn;
      if event.Data? {
        out := FeedClient(i, event.bytes, lines);
        return true, out;
      }
      NothingRead(streams, log, clients[i].session, lines);
      if event.Closed? {
        return false, lines;
      }
      return !event.Broken?, lines;
    }

    method FeedClient(i: nat, bytes: string, lines: seq<string>) returns (out: seq<string>)
      requires Valid() && i < |clients| && |bytes| <= CHUNK_SIZE
      modifies this`dropped, this`streams, this`log, clients[i].reader
      ensures Valid() && dropped >= old(dropped)
      ensures streams == Fed(old(streams), clients[i].session, bytes)
      ensures HandsOn(old(log), log, clients[i].session, lines, out)
    {
      hide Emitted, Discarded, Project, DiscardedIn, Tail;
      var reader := clients[i].reader;
      var complete;
      complete, out := reader.Feed(bytes, lines);
      if !complete {
        dropped := dropped + 1;
      }
      assert out == lines + out[|lines|..];
      NoteRead(clients[i].session, bytes, out[|lines|..]);
    }

    /** Records what a reader took and gave. */
    ghost method NoteRead(k: nat, bytes: string, got: seq<string>)
      requires k < |streams| && |bytes| <= CHUNK_SIZE
      requires forall s | 0 <= s < |streams| :: Project(log, s) == Emitted(streams[s], DEFAULT_LIMIT)
      requires forall t | t in log :: t.session < |streams|
      requires Emitted(streams[k] + bytes, DEFAULT_LIMIT) == Emitted(streams[k], DEFAULT_LIMIT) + got
      requires var more := Discarded(streams[k] + bytes, DEFAULT_LIMIT) != Discarded(streams[k], DEFAULT_LIMIT);
               dropped == DiscardedIn(streams, DEFAULT_LIMIT) + (if more then 1 else 0)
      modifies this`streams, this`log
      ensures streams == Fed(old(streams), k, bytes) && log == old(log) + Tag(k, got)
      ensures forall s | 0 <= s < |streams| :: Project(log, s) == Emitted(streams[s], DEFAULT_LIMIT)
      ensures forall t | t in log :: t.session < |streams|
      ensures dropped == DiscardedIn(streams, DEFAULT_LIMIT)
    {
      hide Emitted, Discarded;
      var after := streams[k] + bytes;
      forall s | 0 <= s < |streams|
        ensures Project(log + Tag(k, got), s) == Emitted(streams[k := after][s], DEFAULT_LIMIT)
      {
        ProjectOfConcat(log, Tag(k, got), s);
        ProjectOfTag(k, got, s);
      }
      ShortChunkDiscardsAtMostOne(streams[k], bytes, DEFAULT_LIMIT);
      DiscardedInUpdate(streams, k, after, DEFAULT_LIMIT);
      log, streams := log + Tag(k, got), streams[k := after];
    }

    /** One round: every client with something to read is read once, those whose stream ended are removed
        without disturbing the others, and then new clients are taken in. */
    method Receive(poll: Poll, arrivals: seq<Arrival>, lines: seq<string>, error: ErrorCode)
        returns (ok: bool, ec: ErrorCode, out: seq<string>)
      requires Valid() && HasOpenClients()
      requires poll.Failed? ==> poll.error != 0
      requires poll.Ready? ==> |poll.events| == |clients| && forall e | e in poll.events :: IsSizedEvent(e)
      modifies this, set c | c in clients :: c.reader
      ensures Valid() && HasOpenClients() && dropped >= old(dropped)
      ensures forall c | c in clients :: c in old(clients) || fresh(c.reader)
      ensures ok <==> !poll.Failed?
      ensures ec == if ok then error else poll.error
      ensures (ok <==> ec == 0) <==> (poll.Failed? || error == 0)
      ensures Handed(old(log), log, lines, out)
      ensures !poll.Ready? ==>
                && streams == old(streams) && clients == old(clients) && log == old(log)
                && dropped == old(dropped) && ended == old(ended)
      ensures poll.Ready? ==>
                forall k | 0 <= k < |old(clients)| ::
                  old(clients)[k] in clients <==>
                  poll.events[k].Quiet? || poll.events[k].Data? || poll.events[k].TryAgain?
      ensures poll.Ready? ==>
                forall k | 0 <= k < |old(clients)| && old(clients)[k].session < |old(streams)| <= |streams| ::
                  streams[old(clients)[k].session] ==
                  old(streams)[old(clients)[k].session] +
                  (match poll.events[k] case Data(bytes) => bytes case _ => "")
      ensures poll.Ready? ==> ended == old(ended) + EndedBy(old(clients), poll.events)
      ensures poll.Ready? ==>
                var kept := Kept(old(clients), poll.events);
                var taken := TakenIn(old(clients), poll, arrivals);
                && kept <= clients && |clients| == |kept| + taken
                && |streams| == |old(streams)| + taken
                && (forall k | |old(streams)| <= k < |streams| :: streams[k] == "")
                && RoundFeeds(old(streams), old(clients), poll.events, streams)
                && IsNewestFirst(log[|old(log)|..])
    {
      hide HasClients, Emitted, Discarded, DiscardedIn, Project, AreOpen;
      if poll.Failed? {
        return false, poll.error, lines;
      }
      if poll.Interrupted? {
        return true, error, lines;
      }
      StillOpen(clients, poll.events, |streams|, ended);
      OrderedWhenOpen(clients, |streams|, ended);
      KeptExactly(clients, poll.events);
      ended := ended + EndedBy(clients, poll.events);
      out := ReadClients(poll.events, lines);
      if poll.listener {
        AcceptClients(arrivals);
      }
      return true, error, out;
    }

    lemma OrderedWhenOpen(clients: seq<Client>, accepted: nat, ended: set<nat>)
      requires AreOpen(clients, accepted, ended)
      ensures AreOrdered(clients)
    {
    }

    /** The downward loop: erasing an element leaves the ones still to be read in their places. */
    method ReadClients(events: seq<Event>, lines: seq<string>) returns (out: seq<string>)
      requires Valid() && |events| == |clients| && forall e | e in events :: IsSizedEvent(e)
      modifies this`clients, this`dropped, this`streams, this`log, set c | c in clients :: c.reader
      ensures Valid() && dropped >= old(dropped) && clients == Kept(old(clients), events)
      ensures forall c | c in clients :: c in old(clients)
      ensures |streams| == |old(streams)| && RoundFeeds(old(streams), old(clients), events, streams)
      ensures Handed(old(log), log, lines, out) && IsNewestFirst(log[|old(log)|..])
    {
      hide Emitted, Discarded, DiscardedIn, Project, FedFrom, IsNewestFirst, AreAtLeast, Kept;
      out := lines;
      ghost var start := Start(clients, events, streams, log, lines);
      StartOfRound(streams, clients, events);
      KeptIsRemaining(clients, events);
      for i := |clients| downto 0
        invariant i <= |start.clients| && start == Start(old(clients), events, old(streams), old(log), lines)
        invariant Valid() && dropped >= old(dropped) && Midway(start, i, clients, streams, log, out)
      {
        out := ReadNext(start, i, events[i], out);
      }
    }

    /** The body of the loop: client `i` is still where it was when the round started. */
    method ReadNext(ghost start: Start, i: nat, event: Event, had: seq<string>) returns (out: seq<string>)
      requires start.IsSound() && i < |start.clients| && start.events[i] == event && IsSizedEvent(event)
      requires Valid() && Midway(start, i + 1, clients, streams, log, had)
      modifies this`clients, this`dropped, this`streams, this`log, start.clients[i].reader
      ensures Valid() && dropped >= old(dropped) && Midway(start, i, clients, streams, log, out)
    {
      hide HasClients, Emitted, Discarded, DiscardedIn, Project, FedFrom, Handed, IsNewestFirst, AreAtLeast, Kept;
      ghost var was, wrote := streams, log;
      ErasingOne(start.clients, start.events, i);
      var stays;
      stays, out := Read(i, event, had);
      OneMoreRead(start, i, was, wrote, had, streams, log, out);
      if !stays {
        Erase(i);
      }
    }

    method Erase(i: nat)
      requires Valid() && i < |clients|
      modifies this`clients
      ensures Valid() && clients == old(clients)[..i] + old(clients)[i + 1..]
    {
      hide Emitted, Discarded, DiscardedIn, Project;
      clients := clients[..i] + clients[i + 1..];
    }

    method AcceptClients(arrivals: seq<Arrival>)
      requires Valid() && HasOpenClients()
      modifies this`clients, this`streams
      ensures Valid() && HasOpenClients() && old(clients) <= clients && old(streams) <= streams
      ensures forall i | |old(clients)| <= i < |clients| :: fresh(clients[i].reader)
      ensures var taken := Min(MAX_CLIENTS - |old(clients)|, UsableIn(arrivals));
              |clients| == |old(clients)| + taken && |streams| == |old(streams)| + taken
      ensures forall k | |old(streams)| <= k < |streams| :: streams[k] == ""
    {
      hide Emitted, Discarded, DiscardedIn, Project;
      assert |clients| <= MAX_CLIENTS && UsableIn(arrivals[..0]) == 0;
      hide HasClients, UsableIn, HasOpenClients;
      var next := 0;
      while |clients| < MAX_CLIENTS
        invariant Valid() && HasOpenClients() && next <= |arrivals| && |clients| <= MAX_CLIENTS
        invariant old(clients) <= clients && old(streams) <= streams
        invariant forall i | |old(clients)| <= i < |clients| :: fresh(clients[i].reader)
        invariant forall k | |old(streams)| <= k < |streams| :: streams[k] == ""
        invariant |clients| - |old(clients)| == |streams| - |old(streams)| == UsableIn(arrivals[..next])
        decreases |arrivals| - next
      {
        if next == |arrivals| {
          assert arrivals[..next] == arrivals;
          return;
        }
        OneMoreArrival(arrivals, next);
        if arrivals[next].Usable? {
          AddClient();
        }
        next := next + 1;
      }
      UsableGrows(arrivals, next);
    }

    method AddClient()
      requires Valid() && HasOpenClients() && |clients| < MAX_CLIENTS
      modifies this`clients, this`streams
      ensures Valid() && streams == old(streams) + [""] && |clients| == |old(clients)| + 1
      ensures old(clients) <= clients && fresh(clients[|old(clients)|].reader)
      ensures HasOpenClients()
    {
      hide Emitted, Discarded, DiscardedIn, Project;
      var reader := new LineReader(DEFAULT_LIMIT);
      NewStream(streams, log);
      DiscardedInAppend(streams, DEFAULT_LIMIT);
      NewcomerIsOpen(clients, |streams|, ended, Client(|streams|, reader));
      hide AreOpen;
      clients := clients + [Client(|streams|, reader)];
      streams := streams + [""];
    }
  }
}
