/** One logger called from many threads at once (logger/src/SinkLogger.cpp:12-33).  A step is what one caller does
    between two points where the others can be seen: judging a message by the atomic threshold and formatting it,
    taking the lock, handing some more bytes of its line to a leaf of the sink, or letting the lock go.  A leaf can
    fail on any line after any number of its bytes; the others get it all the same. */
module Callers {
  import opened Wrappers
  import opened Text
  import opened LogLevel
  import opened LineReader
  import opened Sinks

  datatype Request = Log(level: Level, message: string) | SetLevel(level: Level)

  type Code = c: ErrorCode | c > 0 witness 1

  /** What a leaf does with a line: take all of it, or stop after some bytes with an error. */
  datatype Answer = Takes | Stops(at: nat, code: Code)

  /** The answer of a leaf to the n-th line it is given. */
  type Answers = (nat, nat) -> Answer

  /** The requests of each caller, the first threshold, the number of leaves and what they will answer. */
  datatype Setting = Setting(programs: seq<seq<Request>>, threshold: Level, leaves: nat, answers: Answers)

  /** Where a caller is: between requests, before the lock with its line, or holding the lock, with `sent` bytes of
      the framed line handed to leaf number `leaf` and the first error so far. */
  datatype Place = Idle | Waiting(line: string) | Writing(line: string, leaf: nat, sent: nat, code: ErrorCode)

  /** `judged` holds the threshold each of its requests so far was judged by, `results` the error code each of its
      finished calls returned with, 0 for true. */
  datatype Caller = Caller(place: Place, judged: seq<Level>, results: seq<ErrorCode>)

  /** A line all leaves have been given, the request it came from and the code its call returned. */
  datatype Entry = Entry(caller: nat, index: nat, line: string, code: ErrorCode)

  /** A request has met the threshold. */
  datatype Judgement = Judgement(caller: nat, index: nat)

  /** `order` is the order in which all requests so far have met the threshold. */
  datatype State = State(level: Level, callers: seq<Caller>, owner: Option<nat>, texts: seq<string>,
                         history: seq<Entry>, order: seq<Judgement>)

  /** Who moves, what its clock shows and how many bytes it hands over at most. */
  datatype Move = Move(caller: nat, now: int, count: nat)

  function Start(c: Setting): State {
    State(c.threshold, seq(|c.programs|, _ => Caller(Idle, [], [])), None, seq(c.leaves, _ => ""), [],
          [])
  }

  /** The message becomes a line. */
  predicate IsWritten(request: Request, threshold: Level) {
    request.Log? && IsValidLevel(request.level) && request.level >= threshold
  }

  function Frame(line: string): string {
    line + "\n"
  }

  /** What a request that becomes no line returns with: only an invalid level is an error. */
  function ResultWithout(request: Request): ErrorCode {
    if request.Log? && !IsValidLevel(request.level) then INVALID_ARGUMENT else 0
  }

  /** A caller is somewhere in its program; when busy, with its last request. */
  predicate IsAt(caller: Caller, program: seq<Request>) {
    |caller.judged| <= |program| && |caller.judged| == |caller.results| + (if caller.place.Idle? then 0 else 1)
  }

  predicate IsSound(c: Setting, s: State) {
    && |s.callers| == |c.programs| && |s.texts| == c.leaves
    && forall i | 0 <= i < |s.callers| :: IsAt(s.callers[i], c.programs[i])
  }

  /** Only the lock makes a caller wait. */
  predicate CanMove(caller: Caller, program: seq<Request>, free: bool) {
    match caller.place
    case Idle => |caller.judged| < |program|
    case Waiting(_) => free
    case Writing(_, _, _, _) => true
  }

  predicate IsEnabled(c: Setting, s: State, m: Move)
    requires IsSound(c, s)
  {
    m.caller < |s.callers| && m.count > 0 && CanMove(s.callers[m.caller], c.programs[m.caller], s.owner.None?)
  }

  /** How much of a line a leaf takes, and the error it sets. */
  function Room(a: Answer, line: string): (n: nat)
    ensures n <= |Frame(line)|
  {
    if a.Takes? then |Frame(line)| else Min(a.at, |Frame(line)|)
  }

  function CodeOf(a: Answer): ErrorCode {
    if a.Takes? then 0 else a.code
  }

  function NextPlace(line: string, leaf: nat, sent: nat, code: ErrorCode, count: nat, a: Answer): Place {
    if sent + count >= Room(a, line) then Writing(line, leaf + 1, 0, if code != 0 then code else CodeOf(a))
    else Writing(line, leaf, sent + count, code)
  }

  /** The bytes handed over by that. */
  function Part(line: string, sent: nat, count: nat, a: Answer): string {
    var to := Min(sent + count, Room(a, line));
    if sent <= to then Frame(line)[sent..to] else ""
  }

  /** `a` is the answer of the leaf a writing caller is at. */
  function NextCaller(caller: Caller, program: seq<Request>, level: Level, leaves: nat, a: Answer, m: Move): Caller
    requires IsAt(caller, program) && (caller.place.Idle? ==> |caller.judged| < |program|)
  {
    match caller.place
    case Idle =>
      var request := program[|caller.judged|];
      if IsWritten(request, level)
      then caller.(place := Waiting(LineFor(request, m.now)), judged := caller.judged + [level])
      else caller.(judged := caller.judged + [level], results := caller.results + [ResultWithout(request)])
    case Waiting(line) => caller.(place := Writing(line, 0, 0, 0))
    case Writing(line, leaf, sent, code) =>
      if leaf >= leaves then caller.(place := Idle, results := caller.results + [code])
      else caller.(place := NextPlace(line, leaf, sent, code, m.count, a))
  }

  function LineFor(request: Request, now: int): string
    requires request.Log?
  {
    LogRecord.Format(LogRecord.Record(now, request.level, request.message))
  }

  function NextLevel(caller: Caller, program: seq<Request>, level: Level): Level {
    if caller.place.Idle? && |caller.judged| < |program| && program[|caller.judged|].SetLevel?
    then program[|caller.judged|].level else level
  }

  function NextOwner(place: Place, i: nat, owner: Option<nat>, leaves: nat): Option<nat> {
    match place
    case Idle => owner
    case Waiting(_) => Some(i)
    case Writing(_, leaf, _, _) => if leaf >= leaves then None else owner
  }

  function NextTexts(place: Place, texts: seq<string>, count: nat, a: Answer): (r: seq<string>)
    ensures |r| == |texts|
  {
    if place.Writing? && place.leaf < |texts|
    then texts[place.leaf := texts[place.leaf] + Part(place.line, place.sent, count, a)] else texts
  }

  function NextHistory(caller: Caller, i: nat, history: seq<Entry>, leaves: nat): seq<Entry> {
    if caller.place.Writing? && caller.place.leaf >= leaves
    then history + [Entry(i, |caller.results|, caller.place.line, caller.place.code)] else history
  }

  function NextOrder(caller: Caller, i: nat, order: seq<Judgement>): seq<Judgement> {
    if caller.place.Idle? then order + [Judgement(i, |caller.judged|)] else order
  }

  /** The answer of the leaf a caller is writing to. */
  function AnswerAt(c: Setting, s: State, place: Place): Answer {
    if place.Writing? then c.answers(place.leaf, |s.history|) else Takes
  }

  function Step(c: Setting, s: State, m: Move): State
    requires IsSound(c, s) && IsEnabled(c, s, m)
  {
    var caller, program := s.callers[m.caller], c.programs[m.caller];
    var a := AnswerAt(c, s, caller.place);
    State(NextLevel(caller, program, s.level),
          s.callers[m.caller := NextCaller(caller, program, s.level, c.leaves, a, m)],
          NextOwner(caller.place, m.caller, s.owner, c.leaves),
          NextTexts(caller.place, s.texts, m.count, a),
          NextHistory(caller, m.caller, s.history, c.leaves),
          NextOrder(caller, m.caller, s.order))
  }

  // ----- the lock -----

  /** Exactly the owner of the lock is writing. */
  ghost predicate IsExclusive(s: State) {
    && (s.owner.Some? ==> s.owner.value < |s.callers|)
    && (forall i | 0 <= i < |s.callers| :: s.callers[i].place.Writing? <==> s.owner == Some(i))
  }

  /** What a leaf gets of a line. */
  function Handed(a: Answer, line: string): string {
    Frame(line)[..Room(a, line)]
  }

  /** What it has got of the line being written, the n-th. */
  function Begun(answers: Answers, n: nat, place: Place, leaf: nat): string {
    match place
    case Writing(line, at, sent, _) =>
      if leaf < at then Handed(answers(leaf, n), line)
      else if leaf == at && sent <= |Frame(line)| then Frame(line)[..sent] else ""
    case _ => ""
  }

  /** What it has got of the lines before. */
  function Given(answers: Answers, leaf: nat, history: seq<Entry>): string {
    if history == [] then ""
    else
      var n := |history| - 1;
      Given(answers, leaf, history[..n]) + Handed(answers(leaf, n), history[n].line)
  }

  function OwnerPlace(s: State): Place {
    if s.owner.Some? && s.owner.value < |s.callers| then s.callers[s.owner.value].place else Idle
  }

  function LinesOf(history: seq<Entry>): seq<string> {
    seq(|history|, i requires 0 <= i < |history| => history[i].line)
  }

  /** Every leaf has got, of all lines of the history in order and of the one being written, what it takes. */
  ghost predicate IsWhole(c: Setting, s: State) {
    AreWhole(c.answers, s.texts, s.history, OwnerPlace(s))
  }

  /** The errors of the first `k` leaves on the n-th line. */
  function Codes(answers: Answers, n: nat, k: nat): (codes: seq<ErrorCode>)
    ensures |codes| == k
  {
    if k == 0 then [] else Codes(answers, n, k - 1) + [CodeOf(answers(k - 1, n))]
  }

  /** The writing caller has not handed over more than a leaf takes, and holds the first error of the leaves it is
      done with. */
  ghost predicate IsOnCourse(answers: Answers, n: nat, leaves: nat, place: Place) {
    place.Writing? ==>
      && place.leaf <= leaves && place.sent <= Room(answers(place.leaf, n), place.line)
      && place.code == FirstError(Codes(answers, n, place.leaf))
  }

  /** Every line returned the first error its leaves had on it. */
  ghost predicate AreCoded(answers: Answers, leaves: nat, history: seq<Entry>) {
    forall h | 0 <= h < |history| :: history[h].code == FirstError(Codes(answers, h, leaves))
  }

  ghost predicate IsCoded(c: Setting, s: State) {
    IsOnCourse(c.answers, |s.history|, c.leaves, OwnerPlace(s)) && AreCoded(c.answers, c.leaves, s.history)
  }

  /** The line is what the request was formatted to, at some time. */
  ghost predicate IsLineOf(line: string, request: Request) {
    request.Log? && exists now :: LineFor(request, now) == line
  }

  /** The line a caller is busy with belongs to its last request, which passed. */
  ghost predicate IsBusyRightly(caller: Caller, program: seq<Request>, leaves: nat) {
    && IsAt(caller, program)
    && (caller.place.Writing? ==> caller.place.leaf <= leaves && caller.place.sent <= |caller.place.line|)
    && (!caller.place.Idle? ==>
          var last := |caller.judged| - 1;
          IsWritten(program[last], caller.judged[last]) && IsLineOf(caller.place.line, program[last]))
  }

  ghost predicate AreBusyRightly(c: Setting, s: State) {
    IsSound(c, s) && forall i | 0 <= i < |s.callers| :: IsBusyRightly(s.callers[i], c.programs[i], c.leaves)
  }

  ghost predicate IsRecorded(history: seq<Entry>, caller: nat, index: nat) {
    exists e :: e in history && e.caller == caller && e.index == index
  }

  lemma CallerStaysBusyRightly(caller: Caller, program: seq<Request>, level: Level, leaves: nat, a: Answer, m: Move)
    requires IsBusyRightly(caller, program, leaves) && CanMove(caller, program, true) && m.count > 0
    ensures IsBusyRightly(NextCaller(caller, program, level, leaves, a, m), program, leaves)
  {
    hide LineFor;
  }

  lemma MoverCanMove(c: Setting, s: State, m: Move)
    requires IsSound(c, s) && IsEnabled(c, s, m)
    ensures m.caller < |s.callers| == |c.programs| && m.count > 0
    ensures CanMove(s.callers[m.caller], c.programs[m.caller], true)
    ensures IsAt(s.callers[m.caller], c.programs[m.caller])
  {
  }

  lemma StepStaysSound(c: Setting, s: State, m: Move)
    requires IsSound(c, s) && IsEnabled(c, s, m)
    ensures IsSound(c, Step(c, s, m))
  {
    MoverCanMove(c, s, m);
    hide NextLevel, NextOwner, NextHistory, NextCaller, IsAt, CanMove, AnswerAt;
    NextIsAt(s.callers[m.caller], c.programs[m.caller], s.level, c.leaves,
             AnswerAt(c, s, s.callers[m.caller].place), m);
  }

  lemma NextIsAt(caller: Caller, program: seq<Request>, level: Level, leaves: nat, a: Answer, m: Move)
    requires IsAt(caller, program) && CanMove(caller, program, true)
    ensures IsAt(NextCaller(caller, program, level, leaves, a, m), program)
  {
    hide LineFor, IsWritten, ResultWithout, Room;
  }

  lemma StepStaysBusyRightly(c: Setting, s: State, m: Move)
    requires AreBusyRightly(c, s) && IsEnabled(c, s, m)
    ensures AreBusyRightly(c, Step(c, s, m))
  {
    hide IsSound, IsEnabled, IsBusyRightly, CanMove, NextCaller, NextLevel, NextOwner, NextTexts, NextHistory,
         NextOrder, AnswerAt;
    MoverCanMove(c, s, m);
    StepStaysSound(c, s, m);
    CallerStaysBusyRightly(s.callers[m.caller], c.programs[m.caller], s.level, c.leaves,
                           AnswerAt(c, s, s.callers[m.caller].place), m);
  }

  lemma StepStaysExclusive(c: Setting, s: State, m: Move)
    requires IsSound(c, s) && IsExclusive(s) && IsEnabled(c, s, m)
    ensures IsExclusive(Step(c, s, m))
  {
    hide LineFor, Part, IsWritten, NextLevel, NextTexts, NextHistory;
  }

  lemma LinesOfOneMore(history: seq<Entry>, e: Entry)
    ensures LinesOf(history + [e]) == LinesOf(history) + [e.line]
    ensures Framed(LinesOf(history + [e])) == Framed(LinesOf(history)) + Frame(e.line)
  {
    assert LinesOf(history + [e]) == LinesOf(history) + [e.line];
    FramedOfConcat(LinesOf(history), [e.line]);
    FramedOfOne(e.line);
  }

  /** Handing bytes over adds to one leaf what the caller's place says, and to no other. */
  lemma BegunGrows(answers: Answers, n: nat, line: string, leaf: nat, sent: nat, code: ErrorCode, count: nat)
    requires sent <= Room(answers(leaf, n), line)
    ensures var a := answers(leaf, n);
            var was, now := Writing(line, leaf, sent, code), NextPlace(line, leaf, sent, code, count, a);
            && Begun(answers, n, now, leaf) == Begun(answers, n, was, leaf) + Part(line, sent, count, a)
            && forall l: nat | l != leaf :: Begun(answers, n, now, l) == Begun(answers, n, was, l)
  {
    var to := Min(sent + count, Room(answers(leaf, n), line));
    assert Frame(line)[..sent] + Frame(line)[sent..to] == Frame(line)[..to];
  }

  ghost predicate AreWhole(answers: Answers, texts: seq<string>, history: seq<Entry>, place: Place) {
    forall l | 0 <= l < |texts| ::
      texts[l] == Given(answers, l, history) + Begun(answers, |history|, place, l)
  }

  lemma WritingStaysWhole(answers: Answers, texts: seq<string>, history: seq<Entry>, line: string, leaf: nat,
                          sent: nat, code: ErrorCode, count: nat)
    requires AreWhole(answers, texts, history, Writing(line, leaf, sent, code)) && leaf < |texts|
    requires sent <= Room(answers(leaf, |history|), line)
    ensures var a := answers(leaf, |history|);
            AreWhole(answers, NextTexts(Writing(line, leaf, sent, code), texts, count, a), history,
                     NextPlace(line, leaf, sent, code, count, a))
  {
    var a, n := answers(leaf, |history|), |history|;
    BegunGrows(answers, n, line, leaf, sent, code, count);
    Regroup(Given(answers, leaf, history), Begun(answers, n, Writing(line, leaf, sent, code), leaf),
            Part(line, sent, count, a));
    hide Begun, Given, NextPlace, Part;
  }

  lemma LettingGoStaysWhole(answers: Answers, texts: seq<string>, history: seq<Entry>, place: Place, e: Entry)
    requires place.Writing? && AreWhole(answers, texts, history, place)
    requires place.leaf >= |texts| && e.line == place.line
    ensures AreWhole(answers, texts, history + [e], Idle)
  {
    assert (history + [e])[..|history|] == history;
    hide Handed, Frame;
  }

  lemma BeginningStaysWhole(answers: Answers, texts: seq<string>, history: seq<Entry>, line: string)
    requires AreWhole(answers, texts, history, Idle)
    ensures AreWhole(answers, texts, history, Writing(line, 0, 0, 0))
  {
    assert Frame(line)[..0] == "";
  }

  /** Where the owner of the lock is after a step: only the mover can have been it. */
  lemma OwnerMoves(c: Setting, s: State, m: Move)
    requires IsSound(c, s) && IsExclusive(s) && IsEnabled(c, s, m)
    ensures var place, t := s.callers[m.caller].place, Step(c, s, m);
            && (place.Idle? ==> OwnerPlace(t) == OwnerPlace(s))
            && (place.Waiting? ==> OwnerPlace(s) == Idle && OwnerPlace(t) == Writing(place.line, 0, 0, 0))
            && (place.Writing? ==> OwnerPlace(s) == place)
            && (place.Writing? ==>
                  OwnerPlace(t) == (if place.leaf >= c.leaves then Idle
                                    else NextPlace(place.line, place.leaf, place.sent, place.code, m.count,
                                                   c.answers(place.leaf, |s.history|))))
  {
    hide LineFor, Part, IsWritten, NextLevel, NextTexts, NextHistory, NextPlace;
  }

  lemma StepStaysWhole(c: Setting, s: State, m: Move)
    requires AreBusyRightly(c, s) && IsExclusive(s) && IsWhole(c, s) && IsCoded(c, s) && IsEnabled(c, s, m)
    ensures IsWhole(c, Step(c, s, m))
  {
    OwnerMoves(c, s, m);
    hide OwnerPlace, NextCaller, NextLevel, NextOwner, AreWhole, NextPlace, IsExclusive, AreCoded, Codes, FirstError;
    match s.callers[m.caller].place
    case Idle =>
    case Waiting(line) => BeginningStaysWhole(c.answers, s.texts, s.history, line);
    case Writing(line, leaf, sent, code) =>
      if leaf < c.leaves {
        WritingStaysWhole(c.answers, s.texts, s.history, line, leaf, sent, code, m.count);
      } else {
        LettingGoStaysWhole(c.answers, s.texts, s.history, s.callers[m.caller].place,
                            Entry(m.caller, |s.callers[m.caller].results|, line, code));
      }
  }

  /** Done with one more leaf, the caller holds the first error of those it is done with. */
  lemma NextStaysOnCourse(answers: Answers, n: nat, leaves: nat, line: string, leaf: nat, sent: nat, code: ErrorCode,
                          count: nat)
    requires leaf < leaves && IsOnCourse(answers, n, leaves, Writing(line, leaf, sent, code))
    ensures IsOnCourse(answers, n, leaves, NextPlace(line, leaf, sent, code, count, answers(leaf, n)))
  {
    var own := CodeOf(answers(leaf, n));
    FirstErrorOfConcat(Codes(answers, n, leaf), [own]);
    assert FirstError([own]) == own by {
      assert [own][1..] == [];
    }
  }

  lemma OneMoreCoded(answers: Answers, leaves: nat, history: seq<Entry>, place: Place, e: Entry)
    requires AreCoded(answers, leaves, history) && place.Writing? && place.leaf >= leaves && e.code == place.code
    requires IsOnCourse(answers, |history|, leaves, place)
    ensures AreCoded(answers, leaves, history + [e])
  {
    hide Codes, FirstError;
  }

  lemma StepStaysCoded(c: Setting, s: State, m: Move)
    requires AreBusyRightly(c, s) && IsExclusive(s) && IsCoded(c, s) && IsEnabled(c, s, m)
    ensures IsCoded(c, Step(c, s, m))
  {
    OwnerMoves(c, s, m);
    hide OwnerPlace, NextCaller, NextLevel, NextOwner, NextTexts, NextPlace, IsExclusive, AreCoded, Room;
    match s.callers[m.caller].place
    case Idle =>
    case Waiting(line) => assert Codes(c.answers, |s.history|, 0) == [];
    case Writing(line, leaf, sent, code) =>
      hide Codes, FirstError, IsOnCourse;
      if leaf < c.leaves {
        NextStaysOnCourse(c.answers, |s.history|, c.leaves, line, leaf, sent, code, m.count);
      } else {
        OneMoreCoded(c.answers, c.leaves, s.history, s.callers[m.caller].place,
                     Entry(m.caller, |s.callers[m.caller].results|, line, code));
        NobodyIsOnCourse(c.answers, |s.history| + 1, c.leaves);
      }
  }

  lemma NobodyIsOnCourse(answers: Answers, n: nat, leaves: nat)
    ensures IsOnCourse(answers, n, leaves, Idle)
  {
  }

  // ----- the history -----

  /** What a step does to a caller's finished requests and the history: either nothing is added and at most a
      request that did not pass is finished, or the caller's next one is, with a line of its own. */
  ghost predicate Records(before: Caller, after: Caller, program: seq<Request>, i: nat, history: seq<Entry>,
                          longer: seq<Entry>)
  {
    var n := |before.results|;
    && before.judged <= after.judged && |after.judged| <= |program|
    && before.results <= after.results && n <= |before.judged| && |after.results| <= |after.judged|
    && if longer == history then
         |after.results| == n ||
         (|after.results| == n + 1 && !IsWritten(program[n], after.judged[n]) &&
          after.results[n] == ResultWithout(program[n]))
       else
         && |after.results| == n + 1 && IsWritten(program[n], after.judged[n])
         && |longer| == |history| + 1 && longer[..|history|] == history
         && longer[|history|].caller == i && longer[|history|].index == n
         && IsLineOf(longer[|history|].line, program[n]) && longer[|history|].code == after.results[n]
  }

  lemma CallerRecords(caller: Caller, program: seq<Request>, i: nat, level: Level, history: seq<Entry>,
                      leaves: nat, a: Answer, m: Move)
    requires IsBusyRightly(caller, program, leaves) && CanMove(caller, program, true)
    ensures Records(caller, NextCaller(caller, program, level, leaves, a, m), program, i, history,
                    NextHistory(caller, i, history, leaves))
  {
    hide LineFor, IsWritten, IsLineOf, ResultWithout;
  }

  /** The entry is that of a finished call that passed, with its line and its result. */
  ghost predicate IsEntry(caller: Caller, program: seq<Request>, e: Entry) {
    && e.index < |caller.results| <= |caller.judged| <= |program|
    && IsWritten(program[e.index], caller.judged[e.index]) && IsLineOf(e.line, program[e.index])
    && caller.results[e.index] == e.code
  }

  ghost predicate AreEntries(programs: seq<seq<Request>>, callers: seq<Caller>, history: seq<Entry>) {
    forall e | e in history ::
      e.caller < |callers| == |programs| && IsEntry(callers[e.caller], programs[e.caller], e)
  }

  ghost predicate AreInOrder(history: seq<Entry>) {
    forall a, b | 0 <= a < b < |history| && history[a].caller == history[b].caller ::
      history[a].index < history[b].index
  }

  /** A finished request has its entry, or returned what a request without a line does. */
  ghost predicate IsAccounted(caller: Caller, program: seq<Request>, i: nat, k: nat, history: seq<Entry>) {
    k < |caller.results| <= |caller.judged| <= |program| ==>
      if IsWritten(program[k], caller.judged[k]) then IsRecorded(history, i, k)
      else caller.results[k] == ResultWithout(program[k])
  }

  ghost predicate AllAreRecorded(caller: Caller, program: seq<Request>, i: nat, history: seq<Entry>) {
    forall k: nat | k < |caller.results| :: IsAccounted(caller, program, i, k, history)
  }

  ghost predicate IsComplete(programs: seq<seq<Request>>, callers: seq<Caller>, history: seq<Entry>) {
    && |callers| == |programs|
    && AreEntries(programs, callers, history) && AreInOrder(history)
    && forall i | 0 <= i < |callers| :: AllAreRecorded(callers[i], programs[i], i, history)
  }

  lemma EntriesStay(programs: seq<seq<Request>>, callers: seq<Caller>, i: nat, after: Caller, history: seq<Entry>,
                    longer: seq<Entry>)
    requires AreEntries(programs, callers, history) && i < |callers| == |programs|
    requires Records(callers[i], after, programs[i], i, history, longer)
    ensures AreEntries(programs, callers[i := after], longer)
  {
    hide IsEntry, Records;
    forall e | e in history ensures IsEntry(callers[i := after][e.caller], programs[e.caller], e) {
      if e.caller == i {
        EntryStays(callers[i], after, programs[i], e, history, longer);
      }
    }
    LastIsEntry(callers[i], after, programs[i], i, history, longer);
  }

  lemma EntryStays(before: Caller, after: Caller, program: seq<Request>, e: Entry, history: seq<Entry>,
                   longer: seq<Entry>)
    requires IsEntry(before, program, e) && Records(before, after, program, e.caller, history, longer)
    ensures IsEntry(after, program, e)
  {
    hide IsWritten, IsLineOf;
  }

  lemma LastIsEntry(before: Caller, after: Caller, program: seq<Request>, i: nat, history: seq<Entry>,
                    longer: seq<Entry>)
    requires Records(before, after, program, i, history, longer)
    ensures forall e | e in longer && e !in history :: e.caller == i && IsEntry(after, program, e)
  {
    hide IsWritten, IsLineOf;
    if longer != history {
      assert longer == history + [longer[|history|]];
    }
  }

  lemma OrderStays(programs: seq<seq<Request>>, callers: seq<Caller>, i: nat, after: Caller, history: seq<Entry>,
                   longer: seq<Entry>)
    requires AreEntries(programs, callers, history) && AreInOrder(history) && i < |callers| == |programs|
    requires Records(callers[i], after, programs[i], i, history, longer)
    ensures AreInOrder(longer)
  {
    hide IsWritten, IsLineOf;
    if longer != history {
      assert forall a | 0 <= a < |history| :: longer[a] == history[a] && history[a] in history;
    }
  }

  lemma AtMostOneIsFinished(before: Caller, after: Caller, program: seq<Request>, i: nat, history: seq<Entry>,
                            longer: seq<Entry>)
    requires Records(before, after, program, i, history, longer)
    ensures |after.results| <= |before.results| + 1
  {
    hide IsWritten, IsLineOf, ResultWithout;
  }

  lemma OldStaysAccounted(before: Caller, after: Caller, program: seq<Request>, i: nat, k: nat, history: seq<Entry>,
                          longer: seq<Entry>)
    requires Records(before, after, program, i, history, longer)
    requires k < |before.results| && IsAccounted(before, program, i, k, history)
    ensures IsAccounted(after, program, i, k, longer)
  {
    RecordsStay(history, longer);
    hide IsWritten, IsLineOf, ResultWithout, IsRecorded;
    assert after.judged[k] == before.judged[k] && after.results[k] == before.results[k];
  }

  lemma NextIsAccounted(before: Caller, after: Caller, program: seq<Request>, i: nat, history: seq<Entry>,
                        longer: seq<Entry>)
    requires Records(before, after, program, i, history, longer)
    ensures IsAccounted(after, program, i, |before.results|, longer)
  {
    hide IsWritten, IsLineOf, ResultWithout;
    if longer != history {
      assert longer[|history|] in longer;
    }
  }

  lemma RecordingCoversMore(before: Caller, after: Caller, program: seq<Request>, i: nat, history: seq<Entry>,
                            longer: seq<Entry>)
    requires AllAreRecorded(before, program, i, history) && Records(before, after, program, i, history, longer)
    ensures AllAreRecorded(after, program, i, longer)
  {
    hide Records, IsAccounted;
    AtMostOneIsFinished(before, after, program, i, history, longer);
    forall k: nat | k < |after.results| ensures IsAccounted(after, program, i, k, longer) {
      if k < |before.results| {
        OldStaysAccounted(before, after, program, i, k, history, longer);
      } else {
        NextIsAccounted(before, after, program, i, history, longer);
      }
    }
  }

  lemma RecordsStay(history: seq<Entry>, longer: seq<Entry>)
    requires longer == history || (|longer| == |history| + 1 && longer[..|history|] == history)
    ensures forall j: nat, k: nat | IsRecorded(history, j, k) :: IsRecorded(longer, j, k)
    ensures forall caller, program, j: nat, k: nat | IsAccounted(caller, program, j, k, history) ::
              IsAccounted(caller, program, j, k, longer)
  {
    forall j: nat, k: nat | IsRecorded(history, j, k) ensures IsRecorded(longer, j, k) {
      var e :| e in history && e.caller == j && e.index == k;
      assert e in longer[..|history|] && e in longer;
    }
  }

  lemma RecordingStaysComplete(programs: seq<seq<Request>>, callers: seq<Caller>, i: nat, after: Caller,
                               history: seq<Entry>, longer: seq<Entry>)
    requires IsComplete(programs, callers, history) && i < |callers|
    requires Records(callers[i], after, programs[i], i, history, longer)
    ensures IsComplete(programs, callers[i := after], longer)
  {
    EntriesStay(programs, callers, i, after, history, longer);
    OrderStays(programs, callers, i, after, history, longer);
    RecordsStay(history, longer);
    forall j | 0 <= j < |callers| ensures AllAreRecorded(callers[i := after][j], programs[j], j, longer) {
      hide Records, IsAccounted;
      if j == i {
        RecordingCoversMore(callers[i], after, programs[i], i, history, longer);
      }
    }
  }

  lemma StepStaysComplete(c: Setting, s: State, m: Move)
    requires AreBusyRightly(c, s) && IsComplete(c.programs, s.callers, s.history) && IsEnabled(c, s, m)
    ensures IsComplete(c.programs, Step(c, s, m).callers, Step(c, s, m).history)
  {
    var caller, program := s.callers[m.caller], c.programs[m.caller];
    var a := AnswerAt(c, s, caller.place);
    assert IsBusyRightly(caller, program, c.leaves);
    hide NextCaller, NextLevel, NextOwner, NextTexts, NextHistory, NextOrder, IsBusyRightly, IsComplete, AnswerAt;
    CallerRecords(caller, program, m.caller, s.level, s.history, c.leaves, a, m);
    RecordingStaysComplete(c.programs, s.callers, m.caller,
                           NextCaller(caller, program, s.level, c.leaves, a, m), s.history,
                           NextHistory(caller, m.caller, s.history, c.leaves));
  }

  // ----- the threshold -----

  function RequestOf(programs: seq<seq<Request>>, j: Judgement): Option<Request> {
    if j.caller < |programs| && j.index < |programs[j.caller]| then Some(programs[j.caller][j.index]) else None
  }

  predicate IsSetting(programs: seq<seq<Request>>, j: Judgement) {
    RequestOf(programs, j).Some? && RequestOf(programs, j).value.SetLevel?
  }

  /** The level of the latest command of any caller, the first threshold when there is none. */
  function LatestLevel(programs: seq<seq<Request>>, order: seq<Judgement>, threshold: Level): Level {
    if order == [] then threshold
    else
      var last := order[|order| - 1];
      if IsSetting(programs, last) then RequestOf(programs, last).value.level
      else LatestLevel(programs, order[..|order| - 1], threshold)
  }

  lemma {:induction false} LatestIsLatest(programs: seq<seq<Request>>, order: seq<Judgement>, threshold: Level, p: nat)
    requires p < |order| && IsSetting(programs, order[p])
    requires forall q | p < q < |order| :: !IsSetting(programs, order[q])
    ensures LatestLevel(programs, order, threshold) == programs[order[p].caller][order[p].index].level
  {
    if p < |order| - 1 {
      LatestIsLatest(programs, order[..|order| - 1], threshold, p);
    }
  }

  lemma {:induction false} LatestIsFirst(programs: seq<seq<Request>>, order: seq<Judgement>, threshold: Level)
    requires forall q | 0 <= q < |order| :: !IsSetting(programs, order[q])
    ensures LatestLevel(programs, order, threshold) == threshold
  {
    if order != [] {
      LatestIsFirst(programs, order[..|order| - 1], threshold);
    }
  }

  /** The request was judged by the level of the latest command before it. */
  ghost predicate IsJudgedAt(c: Setting, callers: seq<Caller>, order: seq<Judgement>, p: nat)
    requires p < |order|
  {
    var j := order[p];
    && j.caller < |callers| && j.index < |callers[j.caller].judged|
    && callers[j.caller].judged[j.index] == LatestLevel(c.programs, order[..p], c.threshold)
  }

  ghost predicate AreJudged(c: Setting, callers: seq<Caller>, order: seq<Judgement>) {
    forall p | 0 <= p < |order| :: IsJudgedAt(c, callers, order, p)
  }

  ghost predicate IsJudged(c: Setting, s: State) {
    && s.level == LatestLevel(c.programs, s.order, c.threshold)
    && AreJudged(c, s.callers, s.order)
    && (forall i: nat, k: nat | i < |s.callers| && k < |s.callers[i].judged| :: Judgement(i, k) in s.order)
  }

  lemma JudgementStays(c: Setting, callers: seq<Caller>, i: nat, after: Caller, order: seq<Judgement>,
                       more: seq<Judgement>, p: nat)
    requires p < |order| && order <= more && i < |callers| && callers[i].judged <= after.judged
    requires IsJudgedAt(c, callers, order, p)
    ensures IsJudgedAt(c, callers[i := after], more, p)
  {
    assert more[..p] == order[..p];
  }

  /** What a step does to what a caller has been judged by. */
  lemma CallerIsJudged(caller: Caller, program: seq<Request>, level: Level, leaves: nat, a: Answer, m: Move)
    requires IsAt(caller, program) && CanMove(caller, program, true)
    ensures NextCaller(caller, program, level, leaves, a, m).judged ==
            if caller.place.Idle? then caller.judged + [level] else caller.judged
  {
    hide LineFor, IsWritten, ResultWithout, NextPlace;
  }

  lemma StepStaysJudged(c: Setting, s: State, m: Move)
    requires IsSound(c, s) && IsJudged(c, s) && IsEnabled(c, s, m)
    ensures IsJudged(c, Step(c, s, m))
  {
    MoverCanMove(c, s, m);
    var caller, program, a := s.callers[m.caller], c.programs[m.caller], AnswerAt(c, s, s.callers[m.caller].place);
    CallerIsJudged(caller, program, s.level, c.leaves, a, m);
    var next := NextCaller(caller, program, s.level, c.leaves, a, m);
    JudgingStaysJudged(c, s, m.caller, next, NextLevel(caller, program, s.level));
    hide NextCaller, NextLevel, NextOwner, NextTexts, NextHistory, IsJudgedAt, LatestLevel, IsAt;
  }

  lemma NewLevelIsLatest(c: Setting, caller: Caller, i: nat, level: Level, order: seq<Judgement>)
    requires level == LatestLevel(c.programs, order, c.threshold) && i < |c.programs|
    requires caller.place.Idle? ==> |caller.judged| < |c.programs[i]|
    ensures NextLevel(caller, c.programs[i], level) ==
            LatestLevel(c.programs, NextOrder(caller, i, order), c.threshold)
  {
    if caller.place.Idle? {
      var more := order + [Judgement(i, |caller.judged|)];
      assert more[..|order|] == order;
    }
  }

  lemma JudgementsStay(c: Setting, callers: seq<Caller>, i: nat, level: Level, order: seq<Judgement>,
                       now: seq<Caller>, more: seq<Judgement>)
    requires level == LatestLevel(c.programs, order, c.threshold) && i < |callers| == |now|
    requires AreJudged(c, callers, order) && now == callers[i := now[i]] && more == NextOrder(callers[i], i, order)
    requires now[i].judged == if callers[i].place.Idle? then callers[i].judged + [level] else callers[i].judged
    ensures AreJudged(c, now, more)
  {
    forall p | 0 <= p < |more| ensures IsJudgedAt(c, now, more, p) {
      if p < |order| {
        JudgementStays(c, callers, i, now[i], order, more, p);
      } else {
        assert more[..p] == order;
      }
    }
  }

  lemma JudgingStaysJudged(c: Setting, s: State, i: nat, after: Caller, level: Level)
    requires IsJudged(c, s) && i < |s.callers| == |c.programs|
    requires s.callers[i].place.Idle? ==> |s.callers[i].judged| < |c.programs[i]|
    requires after.judged ==
             if s.callers[i].place.Idle? then s.callers[i].judged + [s.level] else s.callers[i].judged
    requires level == NextLevel(s.callers[i], c.programs[i], s.level)
    ensures IsJudged(c, s.(level := level, callers := s.callers[i := after],
                           order := NextOrder(s.callers[i], i, s.order)))
  {
    NewLevelIsLatest(c, s.callers[i], i, s.level, s.order);
    hide NextLevel, LatestLevel, AreJudged;
    JudgementsStay(c, s.callers, i, s.level, s.order, s.callers[i := after], NextOrder(s.callers[i], i, s.order));
  }

  ghost predicate Invariant(c: Setting, s: State) {
    && IsJudged(c, s) && AreBusyRightly(c, s) && IsExclusive(s) && IsWhole(c, s) && IsCoded(c, s)
    && IsComplete(c.programs, s.callers, s.history)
  }

  lemma StepKeeps(c: Setting, s: State, m: Move)
    requires Invariant(c, s) && IsEnabled(c, s, m)
    ensures Invariant(c, Step(c, s, m))
  {
    hide Step, IsExclusive, IsWhole, IsComplete, IsCoded, IsJudged;
    StepStaysJudged(c, s, m);
    StepStaysBusyRightly(c, s, m);
    StepStaysExclusive(c, s, m);
    StepStaysWhole(c, s, m);
    StepStaysCoded(c, s, m);
    StepStaysComplete(c, s, m);
  }

  // ----- runs -----

  /** The state after some moves; none when a caller was to move that cannot. */
  ghost predicate IsRun(c: Setting, states: seq<State>, moves: seq<Move>) {
    && |states| == |moves| + 1 && states[0] == Start(c)
    && forall i {:trigger moves[i]} | 0 <= i < |moves| :: Moves(c, states[i], moves[i], states[i + 1])
  }

  predicate Moves(c: Setting, s: State, m: Move, t: State) {
    IsSound(c, s) && IsEnabled(c, s, m) && t == Step(c, s, m)
  }

  ghost predicate IsReachable(c: Setting, s: State) {
    exists states, moves :: IsRun(c, states, moves) && s == states[|moves|]
  }

  lemma StartIsInvariant(c: Setting)
    ensures Invariant(c, Start(c))
  {
  }

  lemma {:induction false} RunsKeep(c: Setting, states: seq<State>, moves: seq<Move>, n: nat)
    requires IsRun(c, states, moves) && n <= |moves|
    ensures Invariant(c, states[n])
  {
    StartIsInvariant(c);
    hide Invariant, Step, IsEnabled, IsSound, Start;
    if n > 0 {
      RunsKeep(c, states, moves, n - 1);
      assert Moves(c, states[n - 1], moves[n - 1], states[n]);
      StepKeeps(c, states[n - 1], moves[n - 1]);
    }
  }

  lemma ReachableStatesKeep(c: Setting, s: State)
    requires IsReachable(c, s)
    ensures Invariant(c, s)
  {
    hide Invariant, Moves, Start;
    var states, moves :| IsRun(c, states, moves) && s == states[|moves|];
    RunsKeep(c, states, moves, |moves|);
  }

  lemma LinesAreNewlineFree(line: string, request: Request)
    requires IsLineOf(line, request)
    ensures NoNewline(line)
  {
    var now :| LineFor(request, now) == line;
    LogRecord.RecordIsOneLine(LogRecord.Record(now, request.level, request.message));
  }

  lemma HistoryIsNewlineFree(c: Setting, s: State)
    requires Invariant(c, s)
    ensures forall l | l in LinesOf(s.history) :: NoNewline(l)
  {
    hide NoNewline, IsExclusive, IsWhole, IsCoded, IsJudged, IsLineOf, IsWritten;
    forall i | 0 <= i < |s.history| ensures NoNewline(s.history[i].line) {
      var e := s.history[i];
      assert e in s.history;
      LinesAreNewlineFree(e.line, c.programs[e.caller][e.index]);
    }
  }

  /** Whatever the callers do at the same time and whichever leaves fail, every leaf has got the same lines in the
      order of the lock, of each what it takes, and at most one line it has not been given all of yet. */
  lemma LeavesGetEveryLine(c: Setting, s: State, l: nat)
    requires IsReachable(c, s) && l < c.leaves
    ensures |s.texts| == c.leaves
    ensures s.texts[l] == Given(c.answers, l, s.history) + Begun(c.answers, |s.history|, OwnerPlace(s), l)
    ensures s.owner.None? ==> s.texts[l] == Given(c.answers, l, s.history)
  {
    ReachableStatesKeep(c, s);
    hide IsComplete, IsCoded, IsJudged;
  }

  /** A leaf that has failed on none of them takes them whole. */
  lemma {:induction false} GivenWhole(answers: Answers, l: nat, history: seq<Entry>)
    requires forall n: nat | n < |history| :: answers(l, n).Takes?
    ensures Given(answers, l, history) == Framed(LinesOf(history))
  {
    if history == [] {
      assert LinesOf(history) == [];
    } else {
      var shorter, last := history[..|history| - 1], history[|history| - 1];
      GivenWhole(answers, l, shorter);
      LinesOfOneMore(shorter, last);
      assert shorter + [last] == history;
      assert Frame(last.line)[..|Frame(last.line)|] == Frame(last.line);
    }
  }

  /** So the text of a leaf that has not failed can be cut back into exactly the lines of the history, and the one
      it has just got, whatever the other leaves do. */
  lemma LeavesHoldWholeLines(c: Setting, s: State, l: nat)
    requires IsReachable(c, s) && l < c.leaves
    requires forall n: nat | n <= |s.history| :: c.answers(l, n).Takes?
    ensures |s.texts| == c.leaves
    ensures var place := OwnerPlace(s);
            Lines(s.texts[l]) == LinesOf(s.history) + (if place.Writing? && l < place.leaf then [place.line] else [])
    ensures s.owner.None? ==> s.texts[l] == Framed(LinesOf(s.history))
  {
    LeavesGetEveryLine(c, s, l);
    GivenWhole(c.answers, l, s.history);
    ReachableStatesKeep(c, s);
    HistoryIsNewlineFree(c, s);
    var place := OwnerPlace(s);
    assert s.owner.Some? ==>
        IsBusyRightly(s.callers[s.owner.value], c.programs[s.owner.value], c.leaves);
    if place.Writing? {
      LinesAreNewlineFree(place.line, c.programs[s.owner.value][|s.callers[s.owner.value].judged| - 1]);
    }
    BegunIsOneLine(c.answers, |s.history|, place, l);
    hide Lines, Framed, Begun, NoNewline, IsBusyRightly, IsComplete, IsCoded, IsJudged, IsWhole, LinesOf, Given;
    CuttingUndoesFraming(LinesOf(s.history), Begun(c.answers, |s.history|, place, l));
  }

  lemma BegunIsOneLine(answers: Answers, n: nat, place: Place, l: nat)
    requires place.Writing? ==> NoNewline(place.line) && place.sent <= |place.line|
    requires answers(l, n).Takes?
    ensures Lines(Begun(answers, n, place, l)) == if place.Writing? && l < place.leaf then [place.line] else []
    ensures !place.Writing? ==> Begun(answers, n, place, l) == ""
  {
    NewlineNowhere("");
    if place.Writing? {
      if l < place.leaf {
        NewlineAt(place.line, "");
        assert place.line + "\n" + "" == Frame(place.line) == Frame(place.line)[..|Frame(place.line)|];
      } else if l == place.leaf {
        assert Begun(answers, n, place, l) == place.line[..place.sent];
        NewlineNowhere(place.line[..place.sent]);
      }
    }
  }

  /** The finished call of a request is at this place of the history. */
  predicate IsCallAt(history: seq<Entry>, caller: nat, index: nat, h: nat) {
    h < |history| && history[h].caller == caller && history[h].index == index
  }

  /** Every finished call returns what concerns it alone: a message that passed, the error of the first leaf in order
      that failed on its own line, none if none did; an invalid level, that error; anything else, none. */
  lemma CallsReturnTheirOwnFirstError(c: Setting, s: State, i: nat, k: nat)
    requires IsReachable(c, s) && i < |c.programs|
    ensures |s.callers| == |c.programs| && |s.callers[i].results| <= |s.callers[i].judged| <= |c.programs[i]|
    ensures k < |s.callers[i].results| && IsWritten(c.programs[i][k], s.callers[i].judged[k]) ==>
              exists h :: IsCallAt(s.history, i, k, h) &&
                          s.callers[i].results[k] == FirstError(Codes(c.answers, h, c.leaves))
    ensures k < |s.callers[i].results| && !IsWritten(c.programs[i][k], s.callers[i].judged[k]) ==>
              s.callers[i].results[k] == ResultWithout(c.programs[i][k])
  {
    ReachableStatesKeep(c, s);
    assert IsBusyRightly(s.callers[i], c.programs[i], c.leaves);
    hide IsWhole, IsOnCourse, IsLineOf, Codes, FirstError, IsReachable, IsWritten, IsExclusive, IsJudged;
    assert k < |s.callers[i].results| ==> IsAccounted(s.callers[i], c.programs[i], i, k, s.history);
    if k < |s.callers[i].results| && IsWritten(c.programs[i][k], s.callers[i].judged[k]) {
      RecordedCallReturns(c, s, i, k);
    }
  }

  lemma RecordedCallReturns(c: Setting, s: State, i: nat, k: nat)
    requires IsCoded(c, s) && IsComplete(c.programs, s.callers, s.history) && IsRecorded(s.history, i, k)
    ensures i < |s.callers| && k < |s.callers[i].results|
    ensures exists h :: IsCallAt(s.history, i, k, h) &&
                        s.callers[i].results[k] == FirstError(Codes(c.answers, h, c.leaves))
  {
    hide IsOnCourse, IsLineOf, IsWritten, Codes, FirstError, AllAreRecorded, AreInOrder;
    var e :| e in s.history && e.caller == i && e.index == k;
    var h :| 0 <= h < |s.history| && s.history[h] == e;
    assert IsCallAt(s.history, i, k, h);
  }

  /** Every message that passed the threshold it was judged by is a line of the history once its call is over, once
      only, formatted from it, those of a caller in the order of its calls; and no other line is. */
  lemma MessagesAreRecordedOnce(c: Setting, s: State, i: nat, k: nat)
    requires IsReachable(c, s) && i < |c.programs|
    ensures |s.callers| == |c.programs| && |s.callers[i].results| <= |s.callers[i].judged| <= |c.programs[i]|
    ensures k < |s.callers[i].results| ==>
              (IsWritten(c.programs[i][k], s.callers[i].judged[k]) <==> IsRecorded(s.history, i, k))
    ensures forall e | e in s.history && e.caller == i && e.index == k ::
              k < |s.callers[i].results| && IsLineOf(e.line, c.programs[i][k])
    ensures forall a, b | 0 <= a < b < |s.history| && s.history[a].caller == s.history[b].caller ::
              s.history[a].index < s.history[b].index
  {
    ReachableStatesKeep(c, s);
    assert IsBusyRightly(s.callers[i], c.programs[i], c.leaves);
    hide IsWhole, IsCoded, IsExclusive, IsJudged, IsLineOf, IsWritten, IsReachable;
    assert k < |s.callers[i].results| ==> IsAccounted(s.callers[i], c.programs[i], i, k, s.history);
  }

  /** The place of a request among all that have met the threshold, and what it met. */
  ghost predicate MetAt(c: Setting, s: State, i: nat, k: nat, p: nat) {
    && p < |s.order| && s.order[p] == Judgement(i, k) && i < |s.callers| && k < |s.callers[i].judged|
    && s.callers[i].judged[k] == LatestLevel(c.programs, s.order[..p], c.threshold)
  }

  /** Every request met the level of the latest command of any caller before it, and a message passed exactly when
      its level names one and is no lower. */
  lemma MessagesMeetTheLatestLevel(c: Setting, s: State, i: nat, k: nat)
    requires IsReachable(c, s) && i < |s.callers| && k < |s.callers[i].judged|
    ensures i < |c.programs| && k < |c.programs[i]|
    ensures exists p :: MetAt(c, s, i, k, p)
    ensures var request, met := c.programs[i][k], s.callers[i].judged[k];
            IsWritten(request, met) <==> request.Log? && request.level <= 4 && request.level as int >= met as int
  {
    ReachableStatesKeep(c, s);
    assert IsBusyRightly(s.callers[i], c.programs[i], c.leaves);
    hide IsWhole, IsCoded, IsComplete, IsExclusive, IsReachable, LatestLevel, IsLineOf;
    assert Judgement(i, k) in s.order;
    var p :| 0 <= p < |s.order| && s.order[p] == Judgement(i, k);
    assert IsJudgedAt(c, s.callers, s.order, p);
    assert MetAt(c, s, i, k, p);
  }

  /** The line of a message, the result of a request without one, and the frame. */
  lemma RequestsMean(level: Level, message: string, now: int, line: string)
    ensures LineFor(Log(level, message), now) == LogRecord.Format(LogRecord.Record(now, level, message))
    ensures forall met: Level :: IsWritten(Log(level, message), met) <==> level <= 4 && level >= met
    ensures ResultWithout(Log(level, message)) == if level > 4 then 22 else 0
    ensures ResultWithout(SetLevel(level)) == 0 && Frame(line) == line + "\n"
  {
  }

  /** The errors of the leaves on a line, in their order, and how much of it each takes. */
  lemma AnswersMean(line: string, at: nat, code: Code, answers: Answers, n: nat, k: nat)
    ensures CodeOf(Takes) == 0 && CodeOf(Stops(at, code)) == code
    ensures Handed(Takes, line) == line + "\n"
    ensures Handed(Stops(at, code), line) == if at <= |line| then (line + "\n")[..at] else line + "\n"
    ensures Codes(answers, n, k + 1) == Codes(answers, n, k) + [CodeOf(answers(k, n))] && Codes(answers, n, 0) == []
  {
    assert (line + "\n")[..|line| + 1] == line + "\n";
  }

  /** The lock never blocks everybody: until all calls are over some caller can move. */
  lemma SomeCallerCanMove(c: Setting, s: State, i: nat) returns (m: Move)
    requires IsReachable(c, s) && i < |s.callers| == |c.programs| && |s.callers[i].results| < |c.programs[i]|
    ensures IsSound(c, s) && IsEnabled(c, s, m)
  {
    ReachableStatesKeep(c, s);
    hide IsWhole, IsComplete, IsJudged, IsReachable;
    assert IsBusyRightly(s.callers[i], c.programs[i], c.leaves);
    m := Move(if s.owner.Some? then s.owner.value else i, 0, 1);
  }
}
