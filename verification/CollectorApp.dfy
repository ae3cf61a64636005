/** The collector's loop (collector/core/CollectorApp.cpp): receive, count, and report after a number of
    messages or at a deadline.  What the receiver returns is passed in, one entry a round. */
module CollectorApp {
  import opened LogLevel
  import opened LogRecord
  import S = Statistics

  type ErrorCode = nat

  /** A steady clock in nanoseconds: no reading is earlier than the one before. */
  class Clock {
    var last: nat

    method Now() returns (t: nat)
      modifies this
      ensures old(last) <= t == last
    {
      var reading: nat :| reading >= last;
      last, t := reading, reading;
    }

    /** Time spent waiting. */
    method Pass(atLeast: nat)
      modifies this
      ensures last >= old(last) + atLeast
    {
      var reading: nat :| reading >= last + atLeast;
      last := reading;
    }
  }

  // ----- waiting for the deadline -----

  /** std::chrono::ceil to milliseconds. */
  function CeilMillis(ns: int): int {
    -(-ns / NS_PER_MS)
  }

  function Clamp(x: int, low: int, high: int): int
    requires low <= high
  {
    if x < low then low else if x > high then high else x
  }

  function WaitFor(deadline: int, now: int, timeout: nat): (wait: int)
    ensures 0 <= wait <= timeout
  {
    Clamp(CeilMillis(deadline - now), 0, timeout)
  }

  /** A deadline set from an earlier reading is never further away than the timeout, so the upper bound never
      cuts the wait short, and a wait used up ends at the deadline or past it, by less than a millisecond if
      the deadline was still to come. */
  lemma WaitReachesTheDeadline(deadline: int, now: int, timeout: nat)
    requires deadline <= now + timeout * NS_PER_MS
    ensures CeilMillis(deadline - now) <= timeout
    ensures now + WaitFor(deadline, now, timeout) * NS_PER_MS >= deadline
    ensures deadline >= now ==> now + WaitFor(deadline, now, timeout) * NS_PER_MS < deadline + NS_PER_MS
  {
  }

  // ----- what a run of lines amounts to -----

  function NonEmpty(lines: seq<string>): nat {
    if lines == [] then 0 else NonEmpty(lines[..|lines| - 1]) + (if lines[|lines| - 1] == "" then 0 else 1)
  }

  /** The records among the lines, in order. */
  function Parsed(lines: seq<string>): seq<Record> {
    if lines == [] then []
    else
      var last := Parse(lines[|lines| - 1]);
      Parsed(lines[..|lines| - 1]) + (if last.Some? then [last.value] else [])
  }

  /** The lines that are printed: those that hold a record, as they came. */
  function Echoed(lines: seq<string>): seq<string> {
    if lines == [] then []
    else
      var last := lines[|lines| - 1];
      Echoed(lines[..|lines| - 1]) + (if Parse(last).Some? then [last] else [])
  }

  function Unparsed(lines: seq<string>): nat {
    if lines == [] then 0
    else
      var last := lines[|lines| - 1];
      Unparsed(lines[..|lines| - 1]) + (if last != "" && Parse(last).None? then 1 else 0)
  }

  lemma {:induction false} EveryLineIsCountedOnce(lines: seq<string>)
    ensures |Parsed(lines)| + Unparsed(lines) == NonEmpty(lines)
  {
    if lines != [] {
      EveryLineIsCountedOnce(lines[..|lines| - 1]);
    }
  }

  lemma OneMoreLine(lines: seq<string>, line: string)
    ensures var more := lines + [line];
            var record := Parse(line);
            && NonEmpty(more) == NonEmpty(lines) + (if line == "" then 0 else 1)
            && Parsed(more) == (if record.Some? then Parsed(lines) + [record.value] else Parsed(lines))
            && Echoed(more) == (if record.Some? then Echoed(lines) + [line] else Echoed(lines))
            && Unparsed(more) == Unparsed(lines) + (if line != "" && record.None? then 1 else 0)
  {
    assert (lines + [line])[..|lines|] == lines;
  }

  /** The counted records are those of the lines: same levels, same message lengths. */
  ghost predicate Matches(adds: seq<S.Entry>, records: seq<Record>) {
    |adds| == |records| &&
    forall i | 0 <= i < |adds| ::
      adds[i].level == records[i].level && adds[i].length == |records[i].message| && IsValidLevel(adds[i].level)
  }

  // ----- reports -----

  datatype Reason = AfterCount(count: nat) | OnTimeout | Final | Failure

  /** A report, the clock reading it was made at, and the lines consumed and drops seen by then. */
  datatype Report = Report(reason: Reason, shown: S.Snapshot, at: int, lines: seq<string>, drops: nat) {
    function Seen(): nat {
      shown.total + shown.malformed
    }

    predicate IsLast() {
      reason.Final? || reason.Failure?
    }
  }

  function SeenBefore(reports: seq<Report>, i: nat): nat
    requires i <= |reports|
  {
    if i == 0 then 0 else reports[i - 1].Seen()
  }

  /** Every report but the terminating one shows more than the one before, a report after a count names at
      least the configured count, and exactly the growth since the last report. */
  ghost predicate Grow(reports: seq<Report>, every: nat) {
    forall i | 0 <= i < |reports| ::
      && reports[i].Seen() >= SeenBefore(reports, i)
      && (!reports[i].IsLast() ==> reports[i].Seen() > SeenBefore(reports, i))
      && (reports[i].reason.AfterCount? ==>
            every <= reports[i].reason.count == reports[i].Seen() - SeenBefore(reports, i))
  }

  /** When the report before the i-th was made; the start of the run when there is none. */
  function TimeBefore(reports: seq<Report>, i: nat, start: int): int
    requires i <= |reports|
  {
    if i == 0 then start else reports[i - 1].at
  }

  /** Reports never go back in time, and one on timeout comes at least a timeout after whatever was before. */
  ghost predicate ArePaced(reports: seq<Report>, start: int, timeout: int) {
    forall i | 0 <= i < |reports| ::
      && reports[i].at >= TimeBefore(reports, i, start)
      && (reports[i].reason.OnTimeout? ==> reports[i].at >= TimeBefore(reports, i, start) + timeout)
  }

  /** A report on timeout comes at least a timeout after every report before it. */
  ghost predicate AreApart(reports: seq<Report>, timeout: int) {
    forall i, j | 0 <= i < j < |reports| && reports[j].reason.OnTimeout? :: reports[i].at + timeout <= reports[j].at
  }

  lemma OneMorePaced(reports: seq<Report>, report: Report, start: int, timeout: int)
    requires ArePaced(reports, start, timeout) && report.at >= TimeBefore(reports, |reports|, start)
    requires report.reason.OnTimeout? ==> report.at >= TimeBefore(reports, |reports|, start) + timeout
    ensures ArePaced(reports + [report], start, timeout)
    ensures TimeBefore(reports + [report], |reports| + 1, start) == report.at
  {
    hide TimeBefore;
    TimesOfPrefix(reports, report, start);
  }

  lemma TimesOfPrefix(reports: seq<Report>, report: Report, start: int)
    ensures forall i | 0 <= i <= |reports| :: TimeBefore(reports + [report], i, start) == TimeBefore(reports, i, start)
    ensures TimeBefore(reports + [report], |reports| + 1, start) == report.at
  {
  }

  lemma {:induction false} TimeoutReportsAreApart(reports: seq<Report>, start: int, timeout: nat, i: nat, j: nat)
    requires ArePaced(reports, start, timeout) && i < j < |reports|
    ensures reports[i].at <= reports[j].at
    ensures reports[j].reason.OnTimeout? ==> reports[i].at + timeout <= reports[j].at
    decreases j
  {
    if i < j - 1 {
      TimeoutReportsAreApart(reports, start, timeout, i, j - 1);
    }
    assert TimeBefore(reports, j, start) == reports[j - 1].at;
  }

  ghost predicate NoneIsLast(reports: seq<Report>) {
    forall i | 0 <= i < |reports| :: !reports[i].IsLast()
  }

  // ----- what a report shows -----

  function TotalLength(records: seq<Record>): nat {
    if records == [] then 0
    else TotalLength(records[..|records| - 1]) + |records[|records| - 1].message|
  }

  function PlacesAtLevel(records: seq<Record>, level: Level): set<int> {
    set i | 0 <= i < |records| && records[i].level == level
  }

  ghost predicate IsShortest(records: seq<Record>, length: nat) {
    if records == [] then length == 0
    else
      && (exists i :: 0 <= i < |records| && |records[i].message| == length)
      && (forall i | 0 <= i < |records| :: length <= |records[i].message|)
  }

  ghost predicate IsLongest(records: seq<Record>, length: nat) {
    if records == [] then length == 0
    else
      && (exists i :: 0 <= i < |records| && |records[i].message| == length)
      && (forall i | 0 <= i < |records| :: |records[i].message| <= length)
  }

  ghost predicate IsMean(records: seq<Record>, mean: real) {
    if records == [] then mean == 0.0 else mean * |records| as real == TotalLength(records) as real
  }

  /** The numbers shown are, one by one, those of the lines consumed and the drops seen. */
  ghost predicate Shows(shown: S.Snapshot, lines: seq<string>, drops: nat) {
    var records := Parsed(lines);
    && shown.total == |records| && shown.malformed == Unparsed(lines) + drops
    && |shown.byLevel| == 5
    && (forall level: Level | level < 5 :: shown.byLevel[level] == |PlacesAtLevel(records, level)|)
    && IsShortest(records, shown.minLength) && IsLongest(records, shown.maxLength)
    && IsMean(records, shown.averageLength)
  }

  /** Every report shows what had been consumed and seen by then. */
  ghost predicate AreTrue(reports: seq<Report>, lines: seq<string>, dropped: nat) {
    forall r | r in reports :: Shows(r.shown, r.lines, r.drops) && r.lines <= lines && r.drops <= dropped
  }

  lemma StillTrue(reports: seq<Report>, lines: seq<string>, more: seq<string>, dropped: nat, now: nat)
    requires AreTrue(reports, lines, dropped) && lines <= more && dropped <= now
    ensures AreTrue(reports, more, now)
  {
    hide Shows;
  }

  lemma OneMoreTrue(reports: seq<Report>, lines: seq<string>, dropped: nat, report: Report)
    requires AreTrue(reports, lines, dropped) && Shows(report.shown, lines, dropped)
    requires report.lines == lines && report.drops == dropped
    ensures AreTrue(reports + [report], lines, dropped)
  {
    hide Shows;
  }

  lemma {:induction false} MatchingSums(adds: seq<S.Entry>, records: seq<Record>)
    requires Matches(adds, records)
    ensures S.SumLengths(adds) == TotalLength(records)
  {
    if adds != [] {
      MatchingSums(adds[..|adds| - 1], records[..|records| - 1]);
    }
  }

  lemma MatchingCounts(adds: seq<S.Entry>, records: seq<Record>, level: Level)
    requires Matches(adds, records)
    ensures S.Count(adds, S.AtLevel(level)) == |PlacesAtLevel(records, level)|
  {
    S.CountIsCardinality(adds, S.AtLevel(level));
    assert S.PlacesOf(adds, S.AtLevel(level)) == PlacesAtLevel(records, level);
  }

  lemma MatchingExtremes(adds: seq<S.Entry>, records: seq<Record>, least: nat, most: nat)
    requires Matches(adds, records) && S.IsMinimum(adds, least) && S.IsMaximum(adds, most)
    ensures IsShortest(records, least) && IsLongest(records, most)
  {
    if adds != [] {
      var a :| a in adds && a.length == least;
      var i :| 0 <= i < |adds| && adds[i] == a;
      assert |records[i].message| == least;
      var b :| b in adds && b.length == most;
      var j :| 0 <= j < |adds| && adds[j] == b;
      assert |records[j].message| == most;
      forall k | 0 <= k < |records| ensures least <= |records[k].message| <= most {
        assert adds[k] in adds;
      }
    }
  }

  lemma MatchingMean(adds: seq<S.Entry>, records: seq<Record>, mean: real)
    requires Matches(adds, records) && S.IsAverage(adds, mean)
    ensures IsMean(records, mean)
  {
    MatchingSums(adds, records);
  }

  // ----- the loop -----

  /** One round: what the receiver hands over, its drop counter then, its error if it fails, and whether the
      call used up its whole wait. */
  datatype Round = Round(lines: seq<string>, dropped: nat, error: ErrorCode, waited: bool)

  function AllLines(rounds: seq<Round>): seq<string> {
    if rounds == [] then [] else AllLines(rounds[..|rounds| - 1]) + rounds[|rounds| - 1].lines
  }

  datatype ExitCode = Success | ReceiveFailed

  class CollectorApp {
    /** Messages between reports, and the timeout in milliseconds. */
    const every: nat
    const timeout: nat
    const clock: Clock
    const statistics: S.Statistics
    var sinceReport: nat
    var dropped: nat
    /** Every line consumed, every line printed and every report made. */
    ghost var lines: seq<string>
    ghost var echoed: seq<string>
    ghost var reports: seq<Report>
    /** The clock reading the first deadline was set from. */
    ghost var started: int

    ghost predicate Valid()
      reads this, clock, statistics, statistics.minutes, statistics.byLevel
    {
      && every > 0
      && statistics.Valid()
      && S.IsUpTo(statistics.adds, S.MinuteOf(clock.last))
      && Matches(statistics.adds, Parsed(lines))
      && statistics.malformed == Unparsed(lines) + dropped
      && echoed == Echoed(lines)
      && Seen() == SeenBefore(reports, |reports|) + sinceReport
      && Grow(reports, every)
      && ArePaced(reports, started, Timeout())
      && LastTime() <= clock.last
      && AreTrue(reports, lines, dropped)
    }

    function Timeout(): nat {
      timeout * NS_PER_MS
    }

    ghost function LastTime(): int
      reads this
    {
      TimeBefore(reports, |reports|, started)
    }

    /** A deadline lies a timeout after the last report or later, and at most a timeout ahead. */
    ghost predicate IsDeadline(deadline: int)
      reads this, clock
    {
      LastTime() + Timeout() <= deadline <= clock.last + Timeout()
    }

    ghost function Seen(): nat
      reads this, statistics
    {
      statistics.total + statistics.malformed
    }

    constructor (every: nat, timeout: nat)
      requires every > 0
      ensures Valid() && this.every == every && this.timeout == timeout
      ensures lines == [] && reports == [] && dropped == 0 && sinceReport == 0 && started == 0
      ensures fresh(clock) && fresh(statistics) && fresh(statistics.minutes) && fresh(statistics.byLevel)
    {
      this.every, this.timeout := every, timeout;
      clock := new Clock;
      statistics := new S.Statistics();
      sinceReport, dropped, lines, echoed, reports, started := 0, 0, [], [], [], 0;
    }

    /** Everything received is accounted for: records and malformed lines together are the non-empty lines and
        the dropped ones. */
    lemma NothingIsLost()
      requires Valid()
      ensures Seen() == NonEmpty(lines) + dropped
    {
      EveryLineIsCountedOnce(lines);
    }

    method ReadClock() returns (t: nat)
      requires Valid()
      modifies clock
      ensures Valid() && old(clock.last) <= t == clock.last
    {
      hide Parsed, Unparsed, Echoed, Grow, Matches, AreTrue;
      TimePasses(statistics.adds);
      t := clock.Now();
    }

    /** The receiver is being waited for. */
    method Wait(atLeast: nat)
      requires Valid()
      modifies clock
      ensures Valid() && clock.last >= old(clock.last) + atLeast
    {
      hide Parsed, Unparsed, Echoed, Grow, Matches, AreTrue;
      TimePasses(statistics.adds);
      clock.Pass(atLeast);
    }

    lemma TimePasses(adds: seq<S.Entry>)
      ensures forall a: nat, b: nat | a <= b && S.IsUpTo(adds, S.MinuteOf(a)) :: S.IsUpTo(adds, S.MinuteOf(b))
    {
      forall a: nat, b: nat | a <= b
        ensures S.MinuteOf(a) <= S.MinuteOf(b)
      {
      }
    }

    method Consume(line: string)
      requires Valid()
      modifies this`sinceReport, this`lines, this`echoed, clock, statistics, statistics.minutes, statistics.byLevel
      ensures Valid() && lines == old(lines) + [line] && clock.last >= old(clock.last)
    {
      hide Parse, Parsed, Unparsed, Echoed, Grow, S.BucketsHold, S.LevelsHold, S.IsMinimum, S.IsMaximum,
           S.NeverGoesBack, S.SumLengths, S.IsUpTo, S.MinuteOf, Matches, AreTrue;
      OneMoreLine(lines, line);
      StillTrue(reports, lines, lines + [line], dropped, dropped);
      if line == "" {
        EmptyIsNoRecord();
        lines := lines + [line];
        return;
      }
      var record := Parse(line);
      if record.None? {
        lines, sinceReport := lines + [line], sinceReport + 1;
        statistics.AddMalformed();
        return;
      }
      ParsedLevelIsValid(line);
      var now := ReadClock();
      ghost var entry := S.Entry(record.value.level, |record.value.message|, S.MinuteOf(now));
      OneMoreMatch(statistics.adds, Parsed(lines), entry, record.value);
      lines, sinceReport := lines + [line], sinceReport + 1;
      echoed := echoed + [line];
      statistics.Add(record.value.level, |record.value.message|, now);
    }

    lemma OneMoreMatch(adds: seq<S.Entry>, records: seq<Record>, entry: S.Entry, record: Record)
      requires Matches(adds, records) && IsValidLevel(record.level)
      requires entry.level == record.level && entry.length == |record.message|
      ensures Matches(adds + [entry], records + [record])
      ensures S.IsUpTo(adds, entry.minute) ==> S.IsUpTo(adds + [entry], entry.minute)
    {
    }

    lemma EmptyIsNoRecord()
      ensures Parse("").None?
    {
    }

    lemma ParsedLevelIsValid(line: string)
      requires Parse(line).Some?
      ensures IsValidLevel(Parse(line).value.level)
    {
      ParsedRecordIsStable(line);
    }

    method CountDropped(counter: nat)
      requires Valid() && dropped <= counter
      modifies this`sinceReport, this`dropped, statistics`malformed
      ensures Valid() && dropped == counter
    {
      hide Parsed, Unparsed, Echoed, Grow, S.BucketsHold, S.LevelsHold, S.IsMinimum, S.IsMaximum,
           S.NeverGoesBack, S.SumLengths, S.IsUpTo, S.MinuteOf, Matches, AreTrue;
      while dropped < counter
        invariant Valid() && dropped <= counter
        decreases counter - dropped
      {
        StillTrue(reports, lines, lines, dropped, dropped + 1);
        statistics.AddMalformed();
        sinceReport := sinceReport + 1;
        dropped := dropped + 1;
      }
    }

    method MakeReport(reason: Reason)
      requires Valid()
      requires !(reason.Final? || reason.Failure?) ==> sinceReport > 0
      requires reason.AfterCount? ==> every <= reason.count == sinceReport
      requires reason.OnTimeout? ==> clock.last >= LastTime() + Timeout()
      modifies this`sinceReport, this`reports, clock
      ensures Valid() && sinceReport == 0 && clock.last >= old(clock.last)
      ensures |reports| == |old(reports)| + 1 && reports[..|old(reports)|] == old(reports)
      ensures reports[|old(reports)|].reason == reason && reports[|old(reports)|].Seen() == Seen()
      ensures old(clock.last) <= reports[|old(reports)|].at == LastTime() == clock.last
      ensures reports[|old(reports)|].lines == lines && reports[|old(reports)|].drops == dropped
      ensures reports[|old(reports)|].shown.lastHour ==
              S.Count(statistics.adds, S.Since(S.MinuteOf(clock.last) - S.BUCKETS + 1))
    {
      hide Parsed, Unparsed, Echoed, Grow, S.BucketsHold, S.LevelsHold, S.IsMinimum, S.IsMaximum,
           S.NeverGoesBack, S.SumLengths, S.IsUpTo, S.MinuteOf, Matches, ArePaced, AreTrue, Shows;
      var now := ReadClock();
      var shown := statistics.TakeSnapshot(now);
      ghost var report := Report(reason, shown, now, lines, dropped);
      SnapshotShows(shown, statistics.adds, lines, dropped);
      OneMoreTrue(reports, lines, dropped, report);
      OneMoreReport(reports, report, every);
      OneMorePaced(reports, report, started, Timeout());
      reports := reports + [report];
      sinceReport := 0;
    }

    lemma SnapshotShows(shown: S.Snapshot, adds: seq<S.Entry>, lines: seq<string>, drops: nat)
      requires Matches(adds, Parsed(lines)) && shown.total == |adds| && shown.malformed == Unparsed(lines) + drops
      requires |shown.byLevel| == 5
      requires forall l: Level | l < 5 :: shown.byLevel[l] == S.Count(adds, S.AtLevel(l))
      requires S.IsMinimum(adds, shown.minLength) && S.IsMaximum(adds, shown.maxLength)
      requires S.IsAverage(adds, shown.averageLength)
      ensures Shows(shown, lines, drops)
    {
      hide Parsed, Unparsed, Matches, IsShortest, IsLongest, IsMean, S.IsMinimum, S.IsMaximum, S.IsAverage;
      MatchingExtremes(adds, Parsed(lines), shown.minLength, shown.maxLength);
      MatchingMean(adds, Parsed(lines), shown.averageLength);
      assert |adds| == |Parsed(lines)| by { MatchingLengths(adds, Parsed(lines)); }
      forall level: Level | level < 5
        ensures shown.byLevel[level] == |PlacesAtLevel(Parsed(lines), level)|
      {
        MatchingCounts(adds, Parsed(lines), level);
      }
    }

    lemma MatchingLengths(adds: seq<S.Entry>, records: seq<Record>)
      requires Matches(adds, records)
      ensures |adds| == |records|
    {
    }

    lemma SeenBeforeOfPrefix(reports: seq<Report>, report: Report)
      ensures forall i | 0 <= i <= |reports| :: SeenBefore(reports + [report], i) == SeenBefore(reports, i)
    {
    }

    lemma OneMoreReport(reports: seq<Report>, report: Report, every: nat)
      requires Grow(reports, every) && report.Seen() >= SeenBefore(reports, |reports|)
      requires !report.IsLast() ==> report.Seen() > SeenBefore(reports, |reports|)
      requires report.reason.AfterCount? ==>
                 every <= report.reason.count == report.Seen() - SeenBefore(reports, |reports|)
      ensures Grow(reports + [report], every)
    {
      hide SeenBefore;
      var more := reports + [report];
      SeenBeforeOfPrefix(reports, report);
      assert forall i | 0 <= i <= |reports| :: SeenBefore(more, i) == SeenBefore(reports, i);
    }

    /** One turn of the loop.  Afterwards fewer than `every` messages are unreported; none at all if the
        receiver used up its wait. */
    method RunRound(round: Round, deadline: int) returns (ok: bool, next: int)
      requires Valid() && IsDeadline(deadline) && dropped <= round.dropped
      modifies this`sinceReport, this`dropped, this`lines, this`echoed, this`reports
      modifies clock, statistics, statistics.minutes, statistics.byLevel
      ensures Valid() && old(reports) <= reports && clock.last >= old(clock.last)
      ensures ok <==> round.error == 0
      ensures ok ==> lines == old(lines) + round.lines && dropped == round.dropped && sinceReport < every
      ensures ok && round.waited ==> sinceReport == 0
      ensures ok ==> IsDeadline(next) && NoneIsLast(reports[|old(reports)|..])
      ensures ok ==> Renews(old(reports), reports, old(clock.last), clock.last, deadline, next)
      ensures !ok ==> lines == old(lines) && dropped == old(dropped)
      ensures !ok ==> |reports| == |old(reports)| + 1 && reports[|old(reports)|].reason == Failure
      ensures !ok ==> reports[|old(reports)|].Seen() == Seen()
      ensures !ok ==> reports[|old(reports)|].lines == lines && reports[|old(reports)|].drops == dropped
    {
      hide Valid, Grow, WaitFor;
      next := deadline;
      var now := ReadClock();
      var wait := WaitFor(deadline, now, timeout);
      WaitReachesTheDeadline(deadline, now, timeout);
      Wait(if round.waited then wait * NS_PER_MS else 0);
      if round.error != 0 {
        MakeReport(Failure);
        return false, next;
      }
      for i := 0 to |round.lines|
        invariant Valid() && lines == old(lines) + round.lines[..i]
        invariant dropped == old(dropped) && reports == old(reports)
        invariant clock.last >= now + (if round.waited then wait * NS_PER_MS else 0)
      {
        Consume(round.lines[i]);
      }
      CountDropped(round.dropped);
      next := ReportIfDue(deadline);
      return true, next;
    }

    /** What a turn does to the deadline, between two clock readings: as long as it has not passed, no report
        is made on timeout and only a report by count renews it; once it has passed it is renewed for sure. */
    ghost predicate Renews(before: seq<Report>, after: seq<Report>, from: int, to: int, deadline: int, next: int) {
      && |before| <= |after| <= |before| + 1
      && (|after| > |before| && after[|before|].reason.OnTimeout? ==> after[|before|].at >= deadline)
      && ((next == deadline && after == before && from < deadline) || next >= from + Timeout())
      && (after == before && to < deadline ==> next == deadline)
    }

    /** The count trigger, then the deadline trigger, which says nothing when nothing came in. */
    method ReportIfDue(deadline: int) returns (next: int)
      requires Valid() && IsDeadline(deadline)
      modifies this`sinceReport, this`reports, clock
      ensures Valid() && old(reports) <= reports && NoneIsLast(reports[|old(reports)|..])
      ensures sinceReport < every && clock.last >= old(clock.last)
      ensures old(clock.last) >= deadline ==> sinceReport == 0
      ensures old(sinceReport) == 0 ==> reports == old(reports)
      ensures old(sinceReport) >= every <==>
              |reports| > |old(reports)| && reports[|old(reports)|].reason == AfterCount(old(sinceReport))
      ensures IsDeadline(next) && Renews(old(reports), reports, old(clock.last), clock.last, deadline, next)
    {
      assert every > 0;
      hide Valid, Grow, Seen, IsDeadline, Renews, NoneIsLast;
      if sinceReport >= every {
        next := ReportCount(deadline);
      } else {
        next := ReportAtDeadline(deadline);
      }
    }

    method ReportCount(deadline: int) returns (next: int)
      requires Valid() && sinceReport >= every > 0
      modifies this`sinceReport, this`reports, clock
      ensures Valid() && old(reports) <= reports && sinceReport == 0 && clock.last >= old(clock.last)
      ensures |reports| == |old(reports)| + 1 && reports[|old(reports)|].reason == AfterCount(old(sinceReport))
      ensures NoneIsLast(reports[|old(reports)|..])
      ensures IsDeadline(next) && Renews(old(reports), reports, old(clock.last), clock.last, deadline, next)
    {
      hide Valid, Grow, Seen, S.Count;
      MakeReport(AfterCount(sinceReport));
      var now := ReadClock();
      next := now + timeout * NS_PER_MS;
    }

    method ReportAtDeadline(deadline: int) returns (next: int)
      requires Valid() && IsDeadline(deadline) && sinceReport < every
      modifies this`sinceReport, this`reports, clock
      ensures Valid() && old(reports) <= reports && sinceReport < every && clock.last >= old(clock.last)
      ensures old(clock.last) >= deadline ==> sinceReport == 0
      ensures old(sinceReport) == 0 ==> reports == old(reports)
      ensures |reports| > |old(reports)| ==> reports[|old(reports)|].reason == OnTimeout
      ensures NoneIsLast(reports[|old(reports)|..])
      ensures IsDeadline(next) && Renews(old(reports), reports, old(clock.last), clock.last, deadline, next)
    {
      hide Valid, Grow, Seen, S.Count;
      next := deadline;
      var now := ReadClock();
      if now >= next {
        if sinceReport > 0 {
          MakeReport(OnTimeout);
        }
        now := ReadClock();
        next := now + timeout * NS_PER_MS;
      }
    }

    /** The whole run: it stops after the given rounds, or at the first failure. */
    method Run(rounds: seq<Round>) returns (exit: ExitCode)
      requires Valid() && reports == [] && lines == []
      requires forall i | 0 <= i < |rounds| :: dropped <= rounds[i].dropped
      requires forall i, j | 0 <= i < j < |rounds| :: rounds[i].dropped <= rounds[j].dropped
      modifies this`sinceReport, this`dropped, this`lines, this`echoed, this`reports, this`started
      modifies clock, statistics, statistics.minutes, statistics.byLevel
      ensures Valid() && |reports| > 0 && started >= old(clock.last)
      ensures NoneIsLast(reports[..|reports| - 1])
      ensures exit == Success <==> forall i | 0 <= i < |rounds| :: rounds[i].error == 0
      ensures reports[|reports| - 1].reason == if exit == Success then Final else Failure
      ensures reports[|reports| - 1].Seen() == Seen()
      ensures AreApart(reports, Timeout())
      ensures forall r | r in reports :: Shows(r.shown, r.lines, r.drops)
      ensures reports[|reports| - 1].lines == lines && reports[|reports| - 1].drops == dropped
      ensures exit == Success ==> lines == AllLines(rounds)
      ensures exit == Success && rounds != [] ==> dropped == rounds[|rounds| - 1].dropped
    {
      hide Valid, Grow, IsDeadline, Seen, AreApart, Shows;
      var deadline := Begin();
      var ok := RunRounds(rounds, deadline);
      if !ok {
        ReportsAreRight();
        return ReceiveFailed;
      }
      MakeReport(Final);
      ReportsAreRight();
      return Success;
    }

    /** Reports show the truth and keep their distance. */
    lemma ReportsAreRight()
      requires Valid()
      ensures AreApart(reports, Timeout())
      ensures forall r | r in reports :: Shows(r.shown, r.lines, r.drops) && r.lines <= lines && r.drops <= dropped
    {
      forall i, j | 0 <= i < j < |reports| && reports[j].reason.OnTimeout?
        ensures reports[i].at + Timeout() <= reports[j].at
      {
        TimeoutReportsAreApart(reports, started, Timeout(), i, j);
      }
    }

    /** The loop of the run. */
    method RunRounds(rounds: seq<Round>, first: int) returns (ok: bool)
      requires Valid() && IsDeadline(first) && reports == [] && lines == []
      requires forall i | 0 <= i < |rounds| :: dropped <= rounds[i].dropped
      requires forall i, j | 0 <= i < j < |rounds| :: rounds[i].dropped <= rounds[j].dropped
      modifies this`sinceReport, this`dropped, this`lines, this`echoed, this`reports
      modifies clock, statistics, statistics.minutes, statistics.byLevel
      ensures Valid() && clock.last >= old(clock.last)
      ensures ok <==> forall i | 0 <= i < |rounds| :: rounds[i].error == 0
      ensures ok ==> NoneIsLast(reports) && lines == AllLines(rounds)
      ensures ok && rounds != [] ==> dropped == rounds[|rounds| - 1].dropped
      ensures !ok ==> |reports| > 0 && NoneIsLast(reports[..|reports| - 1])
      ensures !ok ==> reports[|reports| - 1].reason == Failure && reports[|reports| - 1].Seen() == Seen()
      ensures !ok ==> reports[|reports| - 1].lines == lines && reports[|reports| - 1].drops == dropped
    {
      hide Valid, Grow, Renews, IsDeadline, Seen;
      var deadline := first;
      for i := 0 to |rounds|
        invariant Valid() && NoneIsLast(reports) && IsDeadline(deadline) && clock.last >= old(clock.last)
        invariant forall j | i <= j < |rounds| :: dropped <= rounds[j].dropped
        invariant forall j | 0 <= j < i :: rounds[j].error == 0
        invariant lines == AllLines(rounds[..i]) && (i > 0 ==> dropped == rounds[i - 1].dropped)
      {
        assert rounds[..i + 1][..i] == rounds[..i];
        ghost var before := reports;
        ok, deadline := RunRound(rounds[i], deadline);
        if !ok {
          return false;
        }
        assert reports == before + reports[|before|..];
      }
      assert rounds[..|rounds|] == rounds;
      return true;
    }

    /** The first deadline. */
    method Begin() returns (deadline: int)
      requires Valid() && reports == []
      modifies this`started, clock
      ensures Valid() && IsDeadline(deadline) && old(clock.last) <= started == clock.last
    {
      hide Parsed, Unparsed, Echoed, Grow, Matches, AreTrue;
      var now := ReadClock();
      deadline := now + timeout * NS_PER_MS;
      started := now;
    }
  }
}
