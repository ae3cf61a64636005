/** The sender of lines over TCP, with its reconnection policy (logger/src/net/TcpSink.cpp).  What the network
    and the clock answer is passed in; an error code is a number, 0 for none. */
module TcpSink {
  import opened Wrappers
  import opened Text
  import opened LineReader

  type Endpoint = nat
  type ErrorCode = nat

  const HOST_UNREACHABLE: ErrorCode := 113
  const TIMED_OUT: ErrorCode := 110
  const IO_ERROR: ErrorCode := 5

  const NS_PER_MS := 1000000

  /** Cooldowns in milliseconds; `resolveEvery` is 0 when the address is never asked for again. */
  datatype Settings = Settings(initialCooldown: nat, maxCooldown: nat, resolveEvery: nat)

  function Pow2(k: nat): (p: nat)
    ensures p >= 1
  {
    if k == 0 then 1 else 2 * Pow2(k - 1)
  }

  /** The cooldown in force after `k` failures in a row. */
  function Cooldown(s: Settings, k: nat): nat {
    if k == 0 then s.initialCooldown else Min(s.initialCooldown * Pow2(k), s.maxCooldown)
  }

  /** Doubling with a cap follows the closed form. */
  lemma CooldownDoubles(s: Settings, k: nat)
    ensures Min(Cooldown(s, k) * 2, s.maxCooldown) == Cooldown(s, k + 1)
  {
    var step := s.initialCooldown * Pow2(k);
    assert s.initialCooldown * Pow2(k + 1) == 2 * step;
  }

  /** The closed form needs no exception for the first cooldown exactly when that one respects the cap. */
  lemma CooldownIsCapped(s: Settings)
    ensures (forall k: nat :: Cooldown(s, k) == Min(s.initialCooldown * Pow2(k), s.maxCooldown)) <==>
            s.initialCooldown <= s.maxCooldown
  {
    assert Cooldown(s, 0) == s.initialCooldown && Pow2(0) == 1;
  }

  // ----- what has gone over one connection -----

  /** The lines whose write succeeded on a connection and, once it broke, the line being sent then and the
      part of it that went out. */
  datatype Wire = Wire(accepted: seq<string>, refused: Option<string>, torn: string) {
    predicate Valid() {
      match refused
      case None => torn == ""
      case Some(line) => torn <= line
    }

    /** The same while the last line may still be on its way. */
    predicate IsSound() {
      match refused
      case None => torn == ""
      case Some(line) => torn <= line + "\n"
    }

    /** All of the line on its way has gone out, its newline too. */
    predicate IsComplete() {
      refused.Some? && torn == refused.value + "\n"
    }

    /** The lines that have gone out whole. */
    function Completed(): seq<string> {
      accepted + (if IsComplete() then [refused.value] else [])
    }

    /** The bytes these lines make. */
    function Text(): string {
      Framed(accepted) + torn
    }

    predicate IsOpen() {
      refused.None?
    }

    /** No line put on the connection holds a newline of its own. */
    predicate IsClean() {
      (forall l | l in accepted :: NoNewline(l)) && (refused.Some? ==> NoNewline(refused.value))
    }
  }

  const FRESH_WIRE := Wire([], None, "")

  function Accept(wires: seq<Wire>, line: string): seq<Wire>
    requires wires != []
    ensures |Accept(wires, line)| == |wires|
  {
    var last := wires[|wires| - 1];
    wires[|wires| - 1 := last.(accepted := last.accepted + [line])]
  }

  function Tear(wires: seq<Wire>, line: string, torn: string): seq<Wire>
    requires wires != []
    ensures |Tear(wires, line, torn)| == |wires|
  {
    wires[|wires| - 1 := wires[|wires| - 1].(refused := Some(line), torn := torn)]
  }

  /** The shape of the connections of an opened sink: only the last one can still be open. */
  predicate AreWires(wires: seq<Wire>, open: bool) {
    && wires != []
    && (forall i | 0 <= i < |wires| :: wires[i].Valid())
    && (forall i | 0 <= i < |wires| - 1 :: !wires[i].IsOpen())
    && (wires[|wires| - 1].IsOpen() <==> open)
  }

  lemma WritingKeepsWires(wires: seq<Wire>, line: string, torn: string)
    requires AreWires(wires, true)
    ensures AreWires(Accept(wires, line), true)
    ensures torn <= line ==> AreWires(Tear(wires, line, torn), false)
  {
  }

  lemma ReconnectingKeepsWires(wires: seq<Wire>)
    requires AreWires(wires, false)
    ensures AreWires(wires + [FRESH_WIRE], true)
  {
  }

  /** Nothing accepted is ever taken back. */
  predicate Extends(before: seq<Wire>, after: seq<Wire>) {
    |before| <= |after| &&
    forall i | 0 <= i < |before| ::
      before[i].accepted <= after[i].accepted && before[i].Text() <= after[i].Text()
  }

  lemma ExtendsFromTheFirst(before: seq<Wire>, base: seq<Wire>, after: seq<Wire>)
    requires base == before || base == before + [FRESH_WIRE]
    ensures Extends(base, after) ==> Extends(before, after)
    ensures Extends(before, before)
  {
  }

  lemma WritingExtends(wires: seq<Wire>, line: string, torn: string)
    requires AreWires(wires, true)
    ensures Extends(wires, Accept(wires, line))
    ensures Extends(wires, Tear(wires, line, torn))
  {
    FramedOfConcat(wires[|wires| - 1].accepted, [line]);
  }

  /** What one write does to the connections: on success the line joins the accepted ones of the connection,
      new if there was none; on failure nothing happens for want of a connection, or the connection ends with
      an unfinished part of this very line. */
  ghost predicate Wrote(before: seq<Wire>, open: bool, line: string, ok: bool, after: seq<Wire>)
    requires before != []
  {
    var base := if open then before else before + [FRESH_WIRE];
    && Extends(before, after)
    && if ok then after == Accept(base, line)
       else (after == before && !open) || exists torn :: torn <= line && after == Tear(base, line, torn)
  }

  lemma NothingWritten(wires: seq<Wire>, line: string)
    requires wires != []
    ensures Wrote(wires, false, line, false, wires)
  {
    ExtendsFromTheFirst(wires, wires, wires);
  }

  lemma WroteFromTheFirst(before: seq<Wire>, open: bool, base: seq<Wire>, line: string, ok: bool, after: seq<Wire>)
    requires before != [] && base == (if open then before else before + [FRESH_WIRE])
    requires Wrote(base, true, line, ok, after)
    ensures Wrote(before, open, line, ok, after)
  {
    hide Extends, Accept, Tear;
    ExtendsFromTheFirst(before, base, after);
  }

  // ----- the bytes themselves -----

  /** More bytes over the last connection. */
  function Grown(bytes: seq<string>, part: string): (r: seq<string>)
    requires bytes != []
    ensures |r| == |bytes|
  {
    bytes[|bytes| - 1 := bytes[|bytes| - 1] + part]
  }

  /** The bytes that went over each connection are those of its lines. */
  ghost predicate AreLogged(bytes: seq<string>, wires: seq<Wire>) {
    |bytes| == |wires| && forall i | 0 <= i < |bytes| :: bytes[i] == wires[i].Text()
  }

  /** What has gone out since nothing of a line had is the part of it that is on its way. */
  lemma PartHasGone(before: seq<string>, after: seq<string>, wires: seq<Wire>, line: string, torn: string)
    requires AreWires(wires, true)
    requires AreLogged(before, Tear(wires, line, "")) && AreLogged(after, Tear(wires, line, torn))
    ensures before != [] && after == Grown(before, torn)
  {
    var last := wires[|wires| - 1];
    assert last.accepted == Tear(wires, line, "")[|wires| - 1].accepted;
    assert before[|wires| - 1] == Framed(last.accepted) + "" == Framed(last.accepted);
    assert after[|wires| - 1] == Framed(last.accepted) + torn;
    assert forall i | 0 <= i < |wires| - 1 :: before[i] == wires[i].Text() == after[i];
  }

  lemma FirstWireIsOpen()
    ensures AreWires([FRESH_WIRE], true) && AreLogged([""], [FRESH_WIRE])
  {
    assert FRESH_WIRE.Text() == "";
  }

  lemma FreshWireIsLogged(bytes: seq<string>, wires: seq<Wire>)
    requires AreLogged(bytes, wires)
    ensures AreLogged(bytes + [""], wires + [FRESH_WIRE])
  {
    assert FRESH_WIRE.Text() == "";
  }

  /** A line on its way is logged as a torn one, up to its newline. */
  lemma MoreIsLogged(bytes: seq<string>, wires: seq<Wire>, line: string, sent: nat, to: nat)
    requires AreWires(wires, true) && sent <= to <= |line| + 1
    requires AreLogged(bytes, Tear(wires, line, (line + "\n")[..sent])) && bytes != []
    ensures AreLogged(Grown(bytes, (line + "\n")[sent..to]), Tear(wires, line, (line + "\n")[..to]))
  {
    var frame, last := line + "\n", wires[|wires| - 1];
    assert frame[..sent] + frame[sent..to] == frame[..to];
    Regroup(Framed(last.accepted), frame[..sent], frame[sent..to]);
  }

  lemma SomethingIsSent(bytes: seq<string>, wires: seq<Wire>, line: string, torn: string)
    requires AreWires(wires, true) && AreLogged(bytes, Tear(wires, line, torn))
    ensures bytes != []
  {
  }

  lemma NothingIsTorn(bytes: seq<string>, wires: seq<Wire>, line: string)
    requires AreLogged(bytes, wires) && AreWires(wires, true)
    ensures AreLogged(bytes, Tear(wires, line, "")) && bytes != []
  {
    var last := wires[|wires| - 1];
    assert last.(refused := Some(line), torn := "").Text() == last.Text();
  }

  /** Accepting a line that has gone out whole changes no bytes. */
  lemma WholeLineIsLogged(bytes: seq<string>, wires: seq<Wire>, line: string)
    requires AreWires(wires, true) && AreLogged(bytes, Tear(wires, line, line + "\n"))
    ensures AreLogged(bytes, Accept(wires, line))
  {
    var last := wires[|wires| - 1];
    FramedOfConcat(last.accepted, [line]);
    FramedOfOne(line);
    assert last.(accepted := last.accepted + [line]).Text() == Framed(last.accepted) + (line + "\n");
  }

  /** A newline-free line completes with its newline only: what a receiver cuts out of any part of the bytes sent
      is the start of the lines that have gone out whole, and out of all of them exactly these. */
  lemma DeliveredLinesAreComplete(wire: Wire, received: string, limit: nat)
    requires wire.IsSound() && wire.IsClean() && received <= wire.Text()
    ensures Emitted(received, limit) <= Fitting(wire.Completed(), limit)
    ensures received == wire.Text() ==> Emitted(received, limit) == Fitting(wire.Completed(), limit)
    ensures received == wire.Text() ==>
              Discarded(received, limit) ==
              TooLong(wire.Completed(), limit) + (if !wire.IsComplete() && |wire.torn| > limit then 1 else 0)
  {
    hide Lines, Tail, Framed;
    LinesOfText(wire);
    var rest := wire.Text()[|received|..];
    assert received + rest == wire.Text();
    EmittedOnlyGrows(received, rest, limit);
  }

  lemma LinesOfText(wire: Wire)
    requires wire.IsSound() && wire.IsClean()
    ensures Lines(wire.Text()) == wire.Completed()
    ensures Tail(wire.Text()) == if wire.IsComplete() then "" else wire.torn
  {
    CuttingUndoesFraming(wire.accepted, wire.torn);
    if wire.IsComplete() {
      NewlineAt(wire.refused.value, "");
      NewlineNowhere("");
      assert wire.torn == wire.refused.value + "\n" + "";
    } else {
      if wire.refused.Some? {
        PartHasNoNewline(wire.refused.value, wire.torn);
      }
      NewlineNowhere(wire.torn);
    }
  }

  lemma PartHasNoNewline(line: string, part: string)
    requires NoNewline(line) && part <= line + "\n" && part != line + "\n"
    ensures part <= line && NoNewline(part)
  {
    assert part == (line + "\n")[..|part|];
    assert |part| <= |line|;
    assert part == line[..|part|];
  }

  // ----- the environment of one call -----

  /** What `send` answers: bytes taken, a signal, a full buffer that became writable again or did not, or
      another error. */
  datatype SendResult = Took(count: nat) | Interrupted | Full(writable: bool) | Broken(error: ErrorCode)

  /** How many of `size` bytes the answers of `send` take before all are taken or the connection fails. */
  function TakenBy(answers: seq<SendResult>, size: nat): (n: nat)
    ensures n <= size
  {
    if size == 0 || answers == [] then 0
    else
      match answers[0]
      case Took(count) => if count >= size then size else if count == 0 then 0
                          else count + TakenBy(answers[1..], size - count)
      case Interrupted => TakenBy(answers[1..], size)
      case Full(writable) => if writable then TakenBy(answers[1..], size) else 0
      case Broken(_) => 0
  }

  /** An answer after which sending goes on. */
  predicate GoesOn(answer: SendResult) {
    match answer
    case Took(count) => count > 0
    case Interrupted => true
    case Full(writable) => writable
    case Broken(_) => false
  }

  lemma NextTaken(answers: seq<SendResult>, i: nat, left: nat)
    requires i < |answers| && left > 0
    ensures var got := if answers[i].Took? then Min(answers[i].count, left) else 0;
            if GoesOn(answers[i]) then TakenBy(answers[i..], left) == got + TakenBy(answers[i + 1..], left - got)
            else TakenBy(answers[i..], left) == 0 && got == 0
  {
    assert answers[i..][1..] == answers[i + 1..];
  }

  lemma NothingTaken(answers: seq<SendResult>, size: nat)
    ensures TakenBy([], size) == 0 && TakenBy(answers, 0) == 0 && answers[0..] == answers
  {
  }

  /** The error an answer that ends sending sets. */
  function ErrorOf(answer: SendResult): ErrorCode {
    match answer
    case Broken(reason) => if reason != 0 then reason else IO_ERROR
    case Full(_) => TIMED_OUT
    case _ => IO_ERROR
  }

  /** Which answers end sending, and with which error. */
  lemma AnswersThatStop(count: nat, writable: bool, reason: ErrorCode)
    ensures GoesOn(Took(count)) <==> count > 0
    ensures GoesOn(Interrupted) && (GoesOn(Full(writable)) <==> writable) && !GoesOn(Broken(reason))
    ensures ErrorOf(Took(0)) == 5 && ErrorOf(Full(false)) == 110
    ensures ErrorOf(Broken(reason)) == if reason != 0 then reason else 5
  {
  }

  /** The error is that of the first answer that ends sending; 5 when there are no more answers. */
  ghost predicate IsFirstStop(answers: seq<SendResult>, ec: ErrorCode) {
    exists i :: 0 <= i <= |answers| && StopsAt(answers, i, ec)
  }

  predicate StopsAt(answers: seq<SendResult>, i: nat, ec: ErrorCode)
    requires i <= |answers|
  {
    && (forall j | 0 <= j < i :: GoesOn(answers[j]))
    && if i < |answers| then !GoesOn(answers[i]) && ec == ErrorOf(answers[i]) else ec == IO_ERROR
  }

  /** The i-th answer; a broken connection when there are no more. */
  function AnswerAt(answers: seq<SendResult>, i: nat): SendResult {
    if i < |answers| then answers[i] else Broken(IO_ERROR)
  }

  /** The first `i` answers have let sending go on and taken `sent` of `size` bytes. */
  ghost predicate HaveTaken(answers: seq<SendResult>, i: nat, size: nat, sent: nat) {
    && i <= |answers| && sent <= size && (forall j | 0 <= j < i :: GoesOn(answers[j]))
    && TakenBy(answers, size) == sent + TakenBy(answers[i..], size - sent)
  }

  lemma NothingIsTaken(answers: seq<SendResult>, size: nat)
    ensures HaveTaken(answers, 0, size, 0)
  {
    NothingTaken(answers, size);
  }

  lemma AllIsTaken(answers: seq<SendResult>, i: nat, size: nat)
    requires HaveTaken(answers, i, size, size)
    ensures TakenBy(answers, size) == size
  {
  }

  lemma AnswerIsTaken(answers: seq<SendResult>, i: nat, size: nat, before: nat, sent: nat, ec: ErrorCode)
    requires before < size && HaveTaken(answers, i, size, before)
    requires var answer := AnswerAt(answers, i);
             && sent == before + (if answer.Took? then Min(answer.count, size - before) else 0)
             && (ec == 0 <==> GoesOn(answer)) && (ec != 0 ==> ec == ErrorOf(answer) && sent == before)
    ensures if ec == 0 then i < |answers| && HaveTaken(answers, i + 1, size, sent)
            else sent == TakenBy(answers, size) && sent < size && IsFirstStop(answers, ec)
  {
    AnswersThatStop(0, false, IO_ERROR);
    if i < |answers| {
      NextTaken(answers, i, size - before);
    } else {
      assert answers[i..] == [];
      NothingTaken(answers, size - before);
    }
    hide TakenBy, GoesOn;
    if ec != 0 {
      assert StopsAt(answers, i, ec);
    }
  }

  /** Error codes and units. */
  lemma TheConstants()
    ensures HOST_UNREACHABLE == 113 && TIMED_OUT == 110 && IO_ERROR == 5 && NS_PER_MS == 1_000_000
    ensures Pow2(0) == 1 && forall k: nat :: Pow2(k + 1) == 2 * Pow2(k)
  {
  }

  /** The bytes offered to be taken by the answers in a row. */
  function Offered(answers: seq<SendResult>): nat {
    if answers == [] then 0 else (if answers[0].Took? then answers[0].count else 0) + Offered(answers[1..])
  }

  /** Everything is taken exactly when answers that let it go on come to enough, whatever follows them. */
  lemma {:induction false} AllIsTakenIff(answers: seq<SendResult>, size: nat)
    ensures TakenBy(answers, size) == size <==>
            exists k | 0 <= k <= |answers| :: Suffices(answers, k, size)
  {
    if size == 0 {
      assert Suffices(answers, 0, 0);
    } else if answers != [] {
      var rest, left := answers[1..], size - (if answers[0].Took? then Min(answers[0].count, size) else 0);
      AllIsTakenIff(rest, left);
      if k :| 0 <= k <= |rest| && Suffices(rest, k, left) && GoesOn(answers[0]) {
        FirstAnswers(answers, k + 1);
        assert Suffices(answers, k + 1, size);
      }
      if k :| 0 <= k <= |answers| && Suffices(answers, k, size) {
        FirstAnswers(answers, k);
        assert GoesOn(answers[0]);
        assert Suffices(rest, k - 1, left);
      }
    }
  }

  /** The first `k` answers let sending go on and offer enough. */
  predicate Suffices(answers: seq<SendResult>, k: nat, size: nat)
    requires k <= |answers|
  {
    Offered(answers[..k]) >= size && forall i | 0 <= i < k :: GoesOn(answers[i])
  }

  lemma FirstAnswers(answers: seq<SendResult>, k: nat)
    requires 0 < k <= |answers|
    ensures answers[..k][1..] == answers[1..][..k - 1]
    ensures Offered(answers[..k]) ==
            (if answers[0].Took? then answers[0].count else 0) + Offered(answers[1..][..k - 1])
  {
    assert answers[..k][1..] == answers[1..][..k - 1];
  }

  /** What a reconnection meets: the clock when the cooldown is checked, the fresh addresses if the name
      resolves, and the error of connecting to the i-th address. */
  datatype Dial = Dial(checked: int, resolved: Option<seq<Endpoint>>, connectError: nat -> ErrorCode)

  ghost predicate SomeAccepts(endpoints: seq<Endpoint>, connectError: nat -> ErrorCode) {
    exists i :: 0 <= i < |endpoints| && connectError(i) == 0
  }

  /** The address is that of the first attempt without an error. */
  ghost predicate IsFirstToAccept(endpoints: seq<Endpoint>, connectError: nat -> ErrorCode, peer: Endpoint) {
    exists i | 0 <= i < |endpoints| ::
      connectError(i) == 0 && endpoints[i] == peer && forall k | 0 <= k < i :: connectError(k) != 0
  }

  /** One reconnection attempt: after how many failures, and whether the name was resolved before it. */
  datatype Attempt = Attempt(failures: nat, resolved: bool)

  predicate ResolvesAt(s: Settings, failures: nat) {
    s.resolveEvery > 0 && failures > 0 && failures % s.resolveEvery == 0
  }

  /** The name is resolved again exactly at the positive multiples of the setting. */
  lemma ResolvesAtMultiples(s: Settings, failures: nat)
    ensures ResolvesAt(s, failures) <==>
            s.resolveEvery > 0 && exists m: nat :: m > 0 && failures == m * s.resolveEvery
  {
    if ResolvesAt(s, failures) {
      var m := failures / s.resolveEvery;
      assert failures == m * s.resolveEvery;
    }
    if m: nat :| s.resolveEvery > 0 && m > 0 && failures == m * s.resolveEvery {
      IsMultiple(m, s.resolveEvery);
    }
  }

  lemma IsMultiple(m: nat, n: nat)
    requires m > 0 && n > 0
    ensures m * n > 0 && m * n % n == 0
  {
    var product := m * n;
    DividesOnce(product / n, m, n, product % n);
  }

  lemma DividesOnce(q: int, m: int, n: nat, r: nat)
    requires r < n && m * n == q * n + r
    ensures r == 0
  {
    assert (m - q) * n == r;
    TimesAtLeast(m - q, n);
  }

  lemma TimesAtLeast(k: int, n: nat)
    ensures k >= 1 ==> k * n >= n
    ensures k <= -1 ==> k * n + n <= 0
  {
  }

  /** Consecutive failures are apart by at least the cooldown between them. */
  predicate IsSpaced(s: Settings, streak: seq<int>) {
    forall k | 0 <= k < |streak| - 1 :: streak[k + 1] - streak[k] >= Cooldown(s, k) * NS_PER_MS
  }

  class TcpSink {
    const settings: Settings
    var endpoints: seq<Endpoint>
    var connected: bool
    var lastError: ErrorCode
    var nextAttempt: int
    var cooldown: nat
    var failures: nat
    /** The address of the last connection made. */
    var peer: Endpoint
    /** The line being written, framed, and how much of it has been sent. */
    var frame: string
    var sent: nat

    /** The bytes `send` has taken, one entry a connection, the last one being current. */
    ghost var bytes: seq<string>
    /** The lines written to each connection. */
    ghost var wires: seq<Wire>
    /** The times of the failures since the last success. */
    ghost var streak: seq<int>
    ghost var attempts: seq<Attempt>
    /** No clock reading is earlier than this. */
    ghost var clock: int
    /** Whether a write is under way, its line, and the connections when it began to send. */
    ghost var sending: bool
    ghost var line: string
    ghost var base: seq<Wire>

    /** The state between failures, without what depends on there having been a connection. */
    ghost predicate IsConsistent()
      reads this`connected, this`lastError, this`nextAttempt, this`cooldown, this`failures
      reads this`streak, this`attempts, this`clock
    {
      && (connected <==> failures == 0)
      && (lastError == 0 <==> failures == 0)
      && |streak| == failures
      && cooldown == Cooldown(settings, failures)
      && IsSpaced(settings, streak)
      && (forall t | t in streak :: t <= clock)
      && (failures > 0 ==>
            nextAttempt == streak[failures - 1] + Cooldown(settings, failures - 1) * NS_PER_MS)
      && (forall a | a in attempts :: a.resolved <==> ResolvesAt(settings, a.failures))
    }

    /** A sink that was opened: it has had a connection, only a refused line has ended one, and what went
        over each is its lines, framed, and at most an unfinished one. */
    ghost predicate Opened()
      reads this
    {
      IsConsistent() && AreWires(wires, connected) && AreLogged(bytes, wires) && !sending
    }

    /** A write is under way: so far its line is on the connection like a torn one, perhaps whole. */
    ghost predicate IsSending()
      reads this
    {
      && IsConsistent() && connected && sending
      && frame == line + "\n" && sent <= |frame|
      && AreWires(base, true) && wires == Tear(base, line, frame[..sent])
      && AreLogged(bytes, wires)
    }

    /** Between writes or within one. */
    ghost predicate IsLive()
      reads this
    {
      Opened() || IsSending()
    }

    /** Whichever it is, the bytes of every connection are those of its lines, with at most one on its way: the
        line being written, on the last connection. */
    lemma LiveWiresAreSound()
      requires IsLive()
      ensures wires != [] && AreLogged(bytes, wires) && forall w | 0 <= w < |wires| :: wires[w].IsSound()
      ensures forall w | 0 <= w < |wires| :: wires[w].IsComplete() ==>
                sending && w == |wires| - 1 && sent == |frame| && wires[w].refused == Some(line)
      ensures sending && sent == |frame| ==> wires[|wires| - 1].IsComplete()
    {
      if sending {
        assert forall w | 0 <= w < |wires| - 1 :: wires[w] == base[w];
      }
    }

    /** The addresses an attempt would use: fresh ones when the failures in a row are a multiple of the setting and
        the name resolves. */
    function Targets(dial: Dial): seq<Endpoint>
      reads this
    {
      if settings.resolveEvery > 0 && failures % settings.resolveEvery == 0 && dial.resolved.Some?
      then dial.resolved.value else endpoints
    }

    /** There is a connection, or one can be made now. */
    ghost predicate Reaches(dial: Dial)
      reads this
    {
      connected ||
      (dial.checked >= nextAttempt && SomeAccepts(Targets(dial), dial.connectError))
    }

    constructor (settings: Settings, ghost now: int)
      ensures this.settings == settings && !connected && bytes == [] && wires == [] && streak == [] && attempts == []
      ensures failures == 0 && lastError == 0 && cooldown == settings.initialCooldown && clock == now && !sending
    {
      this.settings := settings;
      endpoints, connected, lastError, nextAttempt, failures, peer := [], false, 0, 0, 0, 0;
      cooldown := settings.initialCooldown;
      frame, sent := "", 0;
      bytes, wires, streak, attempts, clock := [], [], [], [], now;
      sending, line, base := false, "", [];
    }

    /** The first connection; the caller throws the sink away when it fails. */
    method Connect(resolved: Option<seq<Endpoint>>, resolveError: ErrorCode, connectError: nat -> ErrorCode, now: int)
        returns (ok: bool, ec: ErrorCode)
      requires !connected && bytes == [] && wires == [] && streak == [] && attempts == []
      requires failures == 0 && lastError == 0 && cooldown == settings.initialCooldown
      requires clock <= now && resolveError != 0 && !sending
      modifies this
      ensures ok <==> ec == 0
      ensures clock <= now
      ensures ok <==> resolved.Some? && exists i :: 0 <= i < |resolved.value| && connectError(i) == 0
      ensures ok ==> Opened() && connected && wires == [FRESH_WIRE] && endpoints == resolved.value
      ensures ok ==> IsFirstToAccept(endpoints, connectError, peer)
    {
      FirstWireIsOpen();
      hide AreWires, AreLogged, IsFirstToAccept, ResolvesAt;
      if resolved.None? {
        return false, resolveError;
      }
      endpoints := resolved.value;
      ok, ec := ConnectAny(connectError);
      if ok {
        assert bytes == [""] && wires == [FRESH_WIRE];
        NoteSuccess();
      } else {
        NoteFailure(ec, now);
      }
    }

    /** Tries the addresses in order and stays with the first that accepts; otherwise the error is that of
        the last one tried. */
    method ConnectAny(connectError: nat -> ErrorCode) returns (ok: bool, ec: ErrorCode)
      modifies this`connected, this`peer, this`bytes, this`wires
      ensures ok <==> exists i :: 0 <= i < |endpoints| && connectError(i) == 0
      ensures ok ==> ec == 0 && connected && IsFirstToAccept(endpoints, connectError, peer)
      ensures ok ==> exists i :: 0 <= i < |endpoints| && connectError(i) == 0 && peer == endpoints[i] &&
                                 forall k | 0 <= k < i :: connectError(k) != 0
      ensures ok ==> bytes == old(bytes) + [""] && wires == old(wires) + [FRESH_WIRE]
      ensures !ok ==> ec == (if endpoints == [] then HOST_UNREACHABLE else connectError(|endpoints| - 1))
      ensures !ok ==> ec != 0 && unchanged(this)
    {
      ec := HOST_UNREACHABLE;
      for i := 0 to |endpoints|
        invariant forall k | 0 <= k < i :: connectError(k) != 0
        invariant ec == (if i == 0 then HOST_UNREACHABLE else connectError(i - 1))
        invariant unchanged(this)
      {
        ec := connectError(i);
        if ec == 0 {
          connected, peer := true, endpoints[i];
          bytes, wires := bytes + [""], wires + [FRESH_WIRE];
          return true, 0;
        }
      }
      return false, ec;
    }

    method NoteFailure(ec: ErrorCode, now: int)
      requires cooldown == Cooldown(settings, failures) && |streak| == failures
      requires failures > 0 ==> now >= streak[failures - 1] + Cooldown(settings, failures - 1) * NS_PER_MS
      requires IsSpaced(settings, streak) && (forall t | t in streak :: t <= clock) && clock <= now
      modifies this`lastError, this`failures, this`nextAttempt, this`cooldown, this`streak, this`clock
      ensures lastError == ec && failures == old(failures) + 1 && streak == old(streak) + [now] && clock == now
      ensures cooldown == Cooldown(settings, failures)
      ensures nextAttempt == now + Cooldown(settings, failures - 1) * NS_PER_MS
      ensures IsSpaced(settings, streak) && forall t | t in streak :: t <= clock
    {
      lastError := ec;
      failures := failures + 1;
      nextAttempt := now + cooldown * NS_PER_MS;
      CooldownDoubles(settings, failures - 1);
      cooldown := Min(cooldown * 2, settings.maxCooldown);
      streak, clock := streak + [now], now;
    }

    method NoteSuccess()
      modifies this`lastError, this`failures, this`nextAttempt, this`cooldown, this`streak
      ensures lastError == 0 && failures == 0 && streak == [] && IsSpaced(settings, streak)
      ensures cooldown == Cooldown(settings, failures) && nextAttempt == 0
    {
      lastError, failures, nextAttempt := 0, 0, 0;
      cooldown := settings.initialCooldown;
      streak := [];
    }

    /** An attempt is made exactly when there is no connection and the cooldown has passed.  The addresses are
        replaced only by a resolution that succeeds.  The caller's error code is cleared by an attempt that
        succeeds and left alone by a connection that is there. */
    method EnsureConnected(dial: Dial, now: int, error: ErrorCode) returns (ok: bool, ec: ErrorCode)
      requires Opened() && clock <= dial.checked <= now
      modifies this
      ensures Opened() && (ok <==> connected) && clock <= now
      ensures ok ==> ec == if old(connected) then error else 0
      ensures !ok ==> ec == lastError
      ensures old(connected) ==> ok && unchanged(this)
      ensures var waits := !old(connected) && dial.checked < old(nextAttempt);
              waits ==> !ok && ec == old(lastError) && unchanged(this)
      ensures var tries := !old(connected) && dial.checked >= old(nextAttempt);
              tries ==>
                && attempts == old(attempts) + [Attempt(old(failures), ResolvesAt(settings, old(failures)))]
                && endpoints == (if ResolvesAt(settings, old(failures)) && dial.resolved.Some?
                                 then dial.resolved.value else old(endpoints))
                && (ok <==> SomeAccepts(endpoints, dial.connectError))
                && (ok ==> IsFirstToAccept(endpoints, dial.connectError, peer))
                && (!ok ==> streak == old(streak) + [now])
      ensures ok <==> old(connected) ||
                      (dial.checked >= old(nextAttempt) && SomeAccepts(endpoints, dial.connectError))
      ensures endpoints == if !old(connected) && dial.checked >= old(nextAttempt) then old(Targets(dial))
                           else old(endpoints)
      ensures wires == if ok && !old(connected) then old(wires) + [FRESH_WIRE] else old(wires)
      ensures bytes == if ok && !old(connected) then old(bytes) + [""] else old(bytes)
    {
      hide Cooldown, IsSpaced, AreWires, AreLogged, IsFirstToAccept;
      if connected {
        return true, error;
      }
      ReconnectingKeepsWires(wires);
      FreshWireIsLogged(bytes, wires);
      if dial.checked < nextAttempt {
        return false, lastError;
      }
      ghost var resolves := false;
      if settings.resolveEvery > 0 && failures % settings.resolveEvery == 0 {
        resolves := true;
        if dial.resolved.Some? {
          endpoints := dial.resolved.value;
        }
      }
      attempts := attempts + [Attempt(failures, resolves)];
      ok, ec := ConnectAny(dial.connectError);
      if ok {
        NoteSuccess();
      } else {
        NoteFailure(ec, now);
      }
    }

    /** One call of `send`: what it takes is the start of what it is given, and goes over the connection. */
    method Send(data: string, answer: SendResult) returns (written: nat)
      requires bytes != []
      modifies this`bytes
      ensures written == (if answer.Took? then Min(answer.count, |data|) else 0)
      ensures bytes == Grown(old(bytes), data[..written])
    {
      written := if answer.Took? then Min(answer.count, |data|) else 0;
      bytes := Grown(bytes, data[..written]);
    }

    /** Begins to write a line, over the connection there is or a new one. */
    method BeginLine(text: string, dial: Dial, now: int, error: ErrorCode) returns (ok: bool, ec: ErrorCode)
      requires Opened() && clock <= dial.checked <= now
      modifies this
      ensures clock <= now
      ensures if ok then IsSending() && line == text && sent == 0 else Opened() && !connected
      ensures var open, ready, before, gone := old(connected), dial.checked >= old(nextAttempt), old(wires), old(bytes);
              && before != [] && gone != []
              && (ok <==> open || (ready && SomeAccepts(endpoints, dial.connectError)))
              && (if ok then
                    && base == (if open then before else before + [FRESH_WIRE])
                    && bytes == (if open then gone else gone + [""])
                    && ec == (if open then error else 0)
                  else
                    && ec == lastError && wires == before && bytes == gone)
              && (open ==> attempts == old(attempts))
              && endpoints == (if !open && ready then old(Targets(dial)) else old(endpoints))
              && (!open && !ready ==> ec == old(lastError) && unchanged(this))
    {
      hide IsConsistent, AreWires, AreLogged, ResolvesAt, IsFirstToAccept, Tear, SomeAccepts, Targets;
      OpenedHasWires();
      ok, ec := EnsureConnected(dial, now, error);
      if ok {
        FrameLine(text);
      }
    }

    lemma OpenedHasWires()
      requires Opened()
      ensures wires != [] && bytes != []
    {
    }

    /** Makes the frame of a line that is to be sent. */
    method FrameLine(text: string)
      requires Opened() && connected
      modifies this`frame, this`sent, this`sending, this`line, this`base, this`wires
      ensures IsSending() && line == text && sent == 0 && base == old(wires)
    {
      hide IsConsistent, AreWires, AreLogged, Tear;
      NothingIsTorn(bytes, wires, text);
      frame := text;
      frame := frame + "\n";
      sent, sending, line, base := 0, true, text, wires;
      wires := Tear(base, text, "");
    }

    /** One turn of the sending loop: one call of `send` and what its answer comes to; 0 to go on, otherwise the
        error that ends it. */
    method SendSome(answer: SendResult) returns (ec: ErrorCode)
      requires IsSending() && sent < |frame|
      modifies this`bytes, this`wires, this`sent
      ensures IsSending()
      ensures sent == old(sent) + (if answer.Took? then Min(answer.count, |frame| - old(sent)) else 0)
      ensures ec == 0 <==> GoesOn(answer)
      ensures ec != 0 ==> sent == old(sent) && ec == ErrorOf(answer)
      ensures old(bytes) != [] && bytes == Grown(old(bytes), frame[old(sent)..sent])
    {
      SomethingIsSent(bytes, base, line, frame[..sent]);
      hide IsConsistent, AreWires, AreLogged, Tear, Grown;
      var written := Send(frame[sent..], answer);
      assert frame[sent..][..written] == frame[sent..sent + written];
      MoreIsLogged(old(bytes), base, line, sent, sent + written);
      sent := sent + written;
      wires := Tear(base, line, frame[..sent]);
      if written > 0 {
        return 0;
      }
      match answer {
        case Interrupted =>
          ec := 0;
        case Full(writable) =>
          ec := if writable then 0 else TIMED_OUT;
        case Took(_) =>
          ec := IO_ERROR;
        case Broken(reason) =>
          ec := if reason != 0 then reason else IO_ERROR;
      }
    }

    /** Sends until all of the frame is taken or the connection fails.  The answers of `send` are used in order;
        when they run out the connection counts as failed. */
    method SendAll(answers: seq<SendResult>) returns (ec: ErrorCode)
      requires IsSending() && sent == 0
      modifies this`bytes, this`wires, this`sent
      ensures IsSending() && sent == TakenBy(answers, |frame|)
      ensures ec == 0 <==> sent == |frame|
      ensures old(bytes) != [] && bytes == Grown(old(bytes), frame[..sent])
      ensures ec != 0 ==> IsFirstStop(answers, ec)
    {
      assert frame[..0] == "";
      ec := SendLoop(answers);
      PartHasGone(old(bytes), bytes, base, line, frame[..sent]);
    }

    method SendLoop(answers: seq<SendResult>) returns (ec: ErrorCode)
      requires IsSending() && sent == 0
      modifies this`bytes, this`wires, this`sent
      ensures IsSending() && sent == TakenBy(answers, |frame|)
      ensures ec == 0 <==> sent == |frame|
      ensures ec != 0 ==> IsFirstStop(answers, ec)
    {
      NothingIsTaken(answers, |frame|);
      hide IsSending, Grown, TakenBy, GoesOn, ErrorOf, AnswerAt, IsFirstStop, HaveTaken;
      var i := 0;
      ec := 0;
      while sent < |frame|
        invariant IsSending() && sent <= |frame| && i <= |answers| && ec == 0
        invariant HaveTaken(answers, i, |frame|, sent)
        decreases |answers| - i
      {
        ghost var before := sent;
        ec := SendSome(AnswerAt(answers, i));
        AnswerIsTaken(answers, i, |frame|, before, sent, ec);
        if ec != 0 {
          return;
        }
        i := i + 1;
      }
      AllIsTaken(answers, i, |frame|);
    }

    /** Ends a write: the line is accepted when all of it was sent, and otherwise the connection is given up. */
    method EndLine(failure: ErrorCode, now: int)
      requires IsSending() && clock <= now && (failure == 0 <==> sent == |frame|)
      modifies this`connected, this`lastError, this`failures, this`nextAttempt, this`cooldown
      modifies this`streak, this`clock, this`sending, this`wires
      ensures Opened() && clock <= now && (connected <==> failure == 0) && lastError == failure
      ensures base != [] && wires == if failure == 0 then Accept(base, line) else old(wires)
      ensures Wrote(base, true, line, failure == 0, wires)
      ensures failure != 0 ==> streak == [now]
    {
      WritingKeepsWires(base, line, frame[..sent]);
      WritingExtends(base, line, frame[..sent]);
      hide IsConsistent, AreWires, AreLogged, Tear, Accept, Extends;
      sending := false;
      if failure == 0 {
        assert frame[..sent] == line + "\n";
        WholeLineIsLogged(bytes, base, line);
        wires := Accept(base, line);
      } else {
        assert frame[..sent] == line[..sent];
        Disconnect(failure, now);
      }
    }

    /** One turn with its consequence when it is the last. */
    method SendOrEnd(answer: SendResult, now: int) returns (ec: ErrorCode)
      requires IsSending() && sent < |frame| && clock <= now
      modifies this
      ensures frame == old(frame) && line == old(line) && base == old(base) && clock <= now
      ensures ec == 0 <==> GoesOn(answer)
      ensures sent == old(sent) + (if answer.Took? then Min(answer.count, |frame| - old(sent)) else 0)
      ensures if ec == 0 then IsSending() else Opened() && !connected && lastError == ec
      ensures base != [] && old(wires) == Tear(base, line, frame[..old(sent)])
      ensures wires == Tear(base, line, frame[..sent])
      ensures old(bytes) != [] && bytes == Grown(old(bytes), frame[old(sent)..sent])
    {
      assert base != [];
      hide IsConsistent, AreWires, AreLogged, Tear, Accept, Grown, Wrote;
      ec := SendSome(answer);
      if ec != 0 {
        EndLine(ec, now);
      }
    }

    /** Returns true: all of the line has been sent. */
    method Succeed(now: int)
      requires IsSending() && sent == |frame| && clock <= now
      modifies this`connected, this`lastError, this`failures, this`nextAttempt, this`cooldown
      modifies this`streak, this`clock, this`sending, this`wires
      ensures Opened() && connected && clock <= now
      ensures AreWires(base, true) && old(wires) == Tear(base, line, frame[..sent]) && wires == Accept(base, line)
    {
      EndLine(0, now);
    }

    /** Gives up the connection. */
    method Disconnect(ec: ErrorCode, now: int)
      requires IsConsistent() && connected && clock <= now && ec != 0
      modifies this`connected, this`lastError, this`failures, this`nextAttempt, this`cooldown
      modifies this`streak, this`clock
      ensures IsConsistent() && !connected && lastError == ec && streak == [now] && clock == now
    {
      connected := false;
      NoteFailure(ec, now);
    }

    /** One line. */
    method WriteLine(text: string, dial: Dial, answers: seq<SendResult>, now: int, error: ErrorCode)
        returns (ok: bool, ec: ErrorCode)
      requires Opened() && clock <= dial.checked <= now
      modifies this
      ensures Opened() && clock <= now
      ensures ok <==> connected
      ensures ok ==> ec == if old(connected) then error else 0
      ensures !ok ==> ec == lastError
      ensures old(connected) ==> attempts == old(attempts) && (!ok ==> streak == [now])
      ensures var reached := old(connected) ||
                             (dial.checked >= old(nextAttempt) &&
                              exists i :: 0 <= i < |endpoints| && dial.connectError(i) == 0);
              var size := TakenBy(answers, |text| + 1);
              && (ok <==> reached && size == |text| + 1)
              && old(bytes) != []
              && (if reached then
                    bytes == Grown(if old(connected) then old(bytes) else old(bytes) + [""], (text + "\n")[..size])
                  else bytes == old(bytes))
              && (reached && !ok ==> streak == [now] && IsFirstStop(answers, ec))
      ensures endpoints ==
              if !old(connected) && dial.checked >= old(nextAttempt) && settings.resolveEvery > 0 &&
                 old(failures) % settings.resolveEvery == 0 && dial.resolved.Some?
              then dial.resolved.value else old(endpoints)
      ensures ok <==> old(Reaches(dial)) && TakenBy(answers, |text| + 1) == |text| + 1
      ensures old(wires) != [] && Wrote(old(wires), old(connected), text, ok, wires)
      ensures !old(connected) && dial.checked < old(nextAttempt) ==>
                !ok && ec == old(lastError) && unchanged(this)
    {
      hide IsConsistent, Wrote, AreLogged, TakenBy, AreWires, Tear;
      ok, ec := BeginLine(text, dial, now, error);
      if !ok {
        NothingWritten(wires, text);
        return;
      }
      ghost var first := base;
      var failure := SendAll(answers);
      EndLine(failure, now);
      WroteFromTheFirst(old(wires), old(connected), first, text, failure == 0, wires);
      if failure != 0 {
        return false, failure;
      }
    }
  }
}
