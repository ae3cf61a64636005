/** The collector's counters (collector/core/Statistics.cpp).  Times are nanoseconds of the steady clock. */
module Statistics {
  import opened LogLevel

  const BUCKETS := 60
  const NS_PER_MINUTE := 60000000000

  datatype Bucket = Bucket(minute: int, count: nat)

  datatype Snapshot = Snapshot(total: nat, malformed: nat, byLevel: seq<nat>, lastHour: nat, minLength: nat,
                               maxLength: nat, averageLength: real)

  /** One counted record, as the history keeps it. */
  datatype Entry = Entry(level: Level, length: nat, minute: nat)

  function MinuteOf(now: nat): nat {
    now / NS_PER_MINUTE
  }

  function Slot(minute: nat): (b: nat)
    ensures b < BUCKETS
  {
    minute % BUCKETS
  }

  // ----- counting over the history -----

  function Count(adds: seq<Entry>, p: Entry -> bool): (n: nat)
    ensures n <= |adds|
  {
    if adds == [] then 0
    else Count(adds[..|adds| - 1], p) + (if p(adds[|adds| - 1]) then 1 else 0)
  }

  function AtMinute(minute: int): Entry -> bool {
    (a: Entry) => a.minute == minute
  }

  function AtLevel(level: Level): Entry -> bool {
    (a: Entry) => a.level == level
  }

  function Since(oldest: int): Entry -> bool {
    (a: Entry) => a.minute >= oldest
  }

  function SinceInSlot(oldest: int, b: nat): Entry -> bool {
    (a: Entry) => a.minute >= oldest && Slot(a.minute) == b
  }

  function SinceBelowSlot(oldest: int, b: nat): Entry -> bool {
    (a: Entry) => a.minute >= oldest && Slot(a.minute) < b
  }

  lemma {:induction false} CountAgrees(adds: seq<Entry>, p: Entry -> bool, q: Entry -> bool)
    requires forall a | a in adds :: p(a) == q(a)
    ensures Count(adds, p) == Count(adds, q)
  {
    if adds != [] {
      CountAgrees(adds[..|adds| - 1], p, q);
    }
  }

  lemma {:induction false} CountSplits(adds: seq<Entry>, p: Entry -> bool, q: Entry -> bool, r: Entry -> bool)
    requires forall a | a in adds :: (r(a) <==> p(a) || q(a)) && !(p(a) && q(a))
    ensures Count(adds, r) == Count(adds, p) + Count(adds, q)
  {
    if adds != [] {
      CountSplits(adds[..|adds| - 1], p, q, r);
    }
  }

  lemma {:induction false} CountNone(adds: seq<Entry>, p: Entry -> bool)
    requires forall a | a in adds :: !p(a)
    ensures Count(adds, p) == 0
  {
    if adds != [] {
      CountNone(adds[..|adds| - 1], p);
    }
  }

  /** The records a condition holds of, by their places. */
  function PlacesOf(adds: seq<Entry>, p: Entry -> bool): set<int> {
    set i | 0 <= i < |adds| && p(adds[i])
  }

  /** Counting is counting the places. */
  lemma {:induction false} CountIsCardinality(adds: seq<Entry>, p: Entry -> bool)
    ensures Count(adds, p) == |PlacesOf(adds, p)|
  {
    if adds == [] {
      assert PlacesOf(adds, p) == {};
    } else {
      var last := |adds| - 1;
      CountIsCardinality(adds[..last], p);
      assert PlacesOf(adds, p) == PlacesOf(adds[..last], p) + (if p(adds[last]) then {last} else {});
    }
  }

  /** What the last hour is: the minute of the reading and the fifty-nine before it. */
  lemma HourIs(now: nat, a: Entry, level: Level)
    ensures Since(MinuteOf(now) - BUCKETS + 1)(a) <==> a.minute > now / 60_000_000_000 - 60
    ensures AtLevel(level)(a) <==> a.level == level
    ensures BUCKETS == 60 && MinuteOf(now) == now / 60_000_000_000
  {
  }

  function SumLengths(adds: seq<Entry>): nat {
    if adds == [] then 0 else SumLengths(adds[..|adds| - 1]) + adds[|adds| - 1].length
  }

  /** The latest minute counted in a slot, -1 when there is none. */
  function LatestIn(adds: seq<Entry>, b: nat): int {
    if adds == [] then -1
    else if Slot(adds[|adds| - 1].minute) == b then adds[|adds| - 1].minute
    else LatestIn(adds[..|adds| - 1], b)
  }

  ghost predicate IsMinimum(adds: seq<Entry>, length: nat) {
    if adds == [] then length == 0
    else (exists a :: a in adds && a.length == length) && forall a | a in adds :: length <= a.length
  }

  ghost predicate IsMaximum(adds: seq<Entry>, length: nat) {
    if adds == [] then length == 0
    else (exists a :: a in adds && a.length == length) && forall a | a in adds :: a.length <= length
  }

  /** The number that, in place of each length, gives the same sum; zero for no record. */
  ghost predicate IsAverage(adds: seq<Entry>, average: real) {
    if adds == [] then average == 0.0 else IsShare(average, SumLengths(adds), |adds|)
  }

  /** `n` times the share is the sum. */
  predicate IsShare(share: real, sum: nat, n: nat) {
    share * n as real == sum as real
  }

  function Share(sum: nat, n: nat): (share: real)
    requires n > 0
    ensures IsShare(share, sum, n)
  {
    sum as real / n as real
  }

  predicate IsBetweenTimes(least: nat, sum: nat, most: nat, n: nat) {
    n * least <= sum <= n * most
  }

  lemma {:induction false} SumIsBounded(adds: seq<Entry>, least: nat, most: nat)
    requires forall a | a in adds :: least <= a.length <= most
    ensures IsBetweenTimes(least, SumLengths(adds), most, |adds|)
  {
    if adds != [] {
      var shorter, last := adds[..|adds| - 1], adds[|adds| - 1];
      assert last in adds;
      SumIsBounded(shorter, least, most);
      OneMoreTimes(|shorter|, least);
      OneMoreTimes(|shorter|, most);
      assert SumLengths(adds) == SumLengths(shorter) + last.length;
    }
  }

  lemma OneMoreTimes(n: nat, x: nat)
    ensures (n + 1) * x == n * x + x
  {
  }

  /** The average lies between the shortest and the longest length. */
  lemma AverageIsBetween(adds: seq<Entry>, least: nat, most: nat, average: real)
    requires IsMinimum(adds, least) && IsMaximum(adds, most) && IsAverage(adds, average)
    ensures least as real <= average <= most as real
  {
    if adds != [] {
      assert forall a | a in adds :: least <= a.length <= most;
      hide IsMinimum, IsMaximum, SumLengths, IsShare, IsBetweenTimes;
      SumIsBounded(adds, least, most);
      SharesAreBetween(least, SumLengths(adds), most, |adds|, average);
    }
  }

  lemma SharesAreBetween(least: nat, sum: nat, most: nat, n: nat, share: real)
    requires n > 0 && IsBetweenTimes(least, sum, most, n) && IsShare(share, sum, n)
    ensures least as real <= share <= most as real
  {
    ProductAsReal(least, n);
    ProductAsReal(most, n);
    NotLess(share, least as real, n as real);
    NotLess(most as real, share, n as real);
  }

  lemma ProductAsReal(x: nat, n: nat)
    ensures x as real * n as real == (n * x) as real
  {
  }

  lemma NotLess(a: real, b: real, n: real)
    requires n > 0.0 && a * n >= b * n
    ensures a >= b
  {
    assert (b - a) * n == b * n - a * n;
  }

  ghost predicate NeverGoesBack(adds: seq<Entry>) {
    forall i, j | 0 <= i < j < |adds| :: adds[i].minute <= adds[j].minute
  }

  ghost predicate IsUpTo(adds: seq<Entry>, minute: int) {
    forall a | a in adds :: a.minute <= minute
  }

  lemma {:induction false} LatestIsLatest(adds: seq<Entry>, b: nat)
    requires NeverGoesBack(adds)
    ensures forall a | a in adds && Slot(a.minute) == b :: a.minute <= LatestIn(adds, b)
    ensures LatestIn(adds, b) >= 0 ==> Slot(LatestIn(adds, b)) == b
    ensures LatestIn(adds, b) >= 0 ==> exists a :: a in adds && a.minute == LatestIn(adds, b)
    ensures LatestIn(adds, b) >= -1
    ensures LatestIn(adds, b) == -1 ==> forall a | a in adds :: Slot(a.minute) != b
  {
    if adds != [] {
      var shorter := adds[..|adds| - 1];
      LatestIsLatest(shorter, b);
      assert forall a | a in adds :: a in shorter || a == adds[|adds| - 1];
    }
  }

  /** Within an hour every slot stands for one minute only. */
  lemma SlotsAreDistinctInAnHour(x: nat, y: nat, now: int)
    requires now - BUCKETS + 1 <= x <= now && now - BUCKETS + 1 <= y <= now
    requires Slot(x) == Slot(y)
    ensures x == y
  {
  }

  /** A reused bucket still holds everything its slot counted in the last hour. */
  lemma BucketHoldsItsHour(adds: seq<Entry>, b: nat, now: int)
    requires NeverGoesBack(adds) && IsUpTo(adds, now)
    ensures var oldest := now - BUCKETS + 1;
            var latest := LatestIn(adds, b);
            Count(adds, SinceInSlot(oldest, b)) == if latest >= oldest then Count(adds, AtMinute(latest)) else 0
  {
    var oldest, latest := now - BUCKETS + 1, LatestIn(adds, b);
    LatestIsLatest(adds, b);
    if latest < oldest {
      CountNone(adds, SinceInSlot(oldest, b));
    } else if latest == -1 {
      CountNone(adds, SinceInSlot(oldest, b));
      CountNone(adds, AtMinute(-1));
    } else {
      forall a | a in adds ensures SinceInSlot(oldest, b)(a) == AtMinute(latest)(a) {
        if a.minute >= oldest && Slot(a.minute) == b {
          SlotsAreDistinctInAnHour(a.minute, latest, now);
        }
      }
      CountAgrees(adds, SinceInSlot(oldest, b), AtMinute(latest));
    }
  }

  /** A bucket is restarted only for a minute that has no record yet. */
  lemma NewMinute(adds: seq<Entry>, minute: nat)
    requires NeverGoesBack(adds) && IsUpTo(adds, minute)
    requires LatestIn(adds, Slot(minute)) != minute
    ensures Count(adds, AtMinute(minute)) == 0
  {
    LatestIsLatest(adds, Slot(minute));
    CountNone(adds, AtMinute(minute));
  }

  lemma NextSlot(adds: seq<Entry>, oldest: int, b: nat)
    ensures Count(adds, SinceBelowSlot(oldest, b + 1)) ==
            Count(adds, SinceBelowSlot(oldest, b)) + Count(adds, SinceInSlot(oldest, b))
  {
    CountSplits(adds, SinceBelowSlot(oldest, b), SinceInSlot(oldest, b), SinceBelowSlot(oldest, b + 1));
  }

  lemma AllSlots(adds: seq<Entry>, oldest: int)
    ensures Count(adds, SinceBelowSlot(oldest, 0)) == 0
    ensures Count(adds, SinceBelowSlot(oldest, BUCKETS)) == Count(adds, Since(oldest))
  {
    CountNone(adds, SinceBelowSlot(oldest, 0));
    CountAgrees(adds, SinceBelowSlot(oldest, BUCKETS), Since(oldest));
  }

  /** What one more record does to each derived number. */
  lemma AddCounts(adds: seq<Entry>, a: Entry, p: Entry -> bool)
    ensures Count(adds + [a], p) == Count(adds, p) + (if p(a) then 1 else 0)
    ensures forall b: nat :: LatestIn(adds + [a], b) == if Slot(a.minute) == b then a.minute else LatestIn(adds, b)
  {
    assert (adds + [a])[..|adds|] == adds;
  }

  lemma AddSum(adds: seq<Entry>, a: Entry)
    requires NeverGoesBack(adds) && IsUpTo(adds, a.minute)
    ensures SumLengths(adds + [a]) == SumLengths(adds) + a.length
    ensures NeverGoesBack(adds + [a])
  {
    assert (adds + [a])[..|adds|] == adds;
    assert forall i | 0 <= i < |adds| :: adds[i] in adds;
  }

  lemma AddMinMax(adds: seq<Entry>, a: Entry, least: nat, most: nat)
    requires IsMinimum(adds, least) && IsMaximum(adds, most)
    ensures IsMinimum(adds + [a], if adds == [] || a.length < least then a.length else least)
    ensures IsMaximum(adds + [a], if a.length > most then a.length else most)
  {
    var after := adds + [a];
    assert a in after && forall x | x in adds :: x in after;
    assert forall x | x in after :: x in adds || x == a;
  }

  /** The per-level counts of valid levels add up to the number of records. */
  lemma {:induction false} LevelsSumToTotal(adds: seq<Entry>)
    requires forall a | a in adds :: IsValidLevel(a.level)
    ensures Count(adds, AtLevel(DEBUG)) + Count(adds, AtLevel(INFO)) + Count(adds, AtLevel(WARN)) +
            Count(adds, AtLevel(ERROR)) + Count(adds, AtLevel(FATAL)) == |adds|
  {
    if adds != [] {
      LevelsSumToTotal(adds[..|adds| - 1]);
    }
  }

  ghost predicate BucketsHold(buckets: seq<Bucket>, adds: seq<Entry>) {
    && |buckets| == BUCKETS
    && forall b | 0 <= b < BUCKETS ::
         buckets[b] == Bucket(LatestIn(adds, b), Count(adds, AtMinute(LatestIn(adds, b))))
  }

  ghost predicate LevelsHold(counts: seq<nat>, adds: seq<Entry>) {
    |counts| == COUNT && forall l: Level | l < COUNT :: counts[l] == Count(adds, AtLevel(l))
  }

  lemma BucketsHoldOneMore(before: seq<Bucket>, adds: seq<Entry>, a: Entry)
    requires BucketsHold(before, adds) && NeverGoesBack(adds) && IsUpTo(adds, a.minute)
    ensures var slot := Slot(a.minute);
            var count := if before[slot].minute == a.minute then before[slot].count else 0;
            BucketsHold(before[slot := Bucket(a.minute, count + 1)], adds + [a])
  {
    var slot := Slot(a.minute);
    if before[slot].minute != a.minute {
      NewMinute(adds, a.minute);
    }
    forall b | 0 <= b < BUCKETS
      ensures LatestIn(adds + [a], b) == if slot == b then a.minute else LatestIn(adds, b)
      ensures b != slot ==> Count(adds + [a], AtMinute(LatestIn(adds, b))) == Count(adds, AtMinute(LatestIn(adds, b)))
    {
      AddCounts(adds, a, AtMinute(LatestIn(adds, b)));
      LatestIsLatest(adds, b);
    }
    AddCounts(adds, a, AtMinute(a.minute));
  }

  lemma LevelsHoldOneMore(before: seq<nat>, adds: seq<Entry>, a: Entry)
    requires LevelsHold(before, adds)
    ensures LevelsHold(if a.level < COUNT then before[a.level := before[a.level] + 1] else before, adds + [a])
  {
    forall l: Level | l < COUNT
      ensures Count(adds + [a], AtLevel(l)) == Count(adds, AtLevel(l)) + (if a.level == l then 1 else 0)
    {
      AddCounts(adds, a, AtLevel(l));
    }
  }

  // ----- the counters -----

  class Statistics {
    const minutes: array<Bucket>
    const byLevel: array<nat>
    var total: nat
    var malformed: nat
    var minLength: nat
    var maxLength: nat
    var totalLength: nat
    /** Every record counted so far. */
    ghost var adds: seq<Entry>

    ghost predicate Valid()
      reads this, minutes, byLevel
    {
      && NeverGoesBack(adds)
      && BucketsHold(minutes[..], adds)
      && LevelsHold(byLevel[..], adds)
      && total == |adds|
      && totalLength == SumLengths(adds)
      && IsMinimum(adds, minLength)
      && IsMaximum(adds, maxLength)
    }

    constructor ()
      ensures Valid() && adds == [] && malformed == 0
      ensures fresh(minutes) && fresh(byLevel)
    {
      minutes := new Bucket[BUCKETS](_ => Bucket(-1, 0));
      byLevel := new nat[COUNT](_ => 0);
      total, malformed, minLength, maxLength, totalLength, adds := 0, 0, 0, 0, 0, [];
    }

    method Add(level: Level, length: nat, now: nat)
      requires Valid() && IsUpTo(adds, MinuteOf(now))
      modifies this`total, this`minLength, this`maxLength, this`totalLength, this`adds, minutes, byLevel
      ensures Valid() && adds == old(adds) + [Entry(level, length, MinuteOf(now))]
    {
      hide BucketsHold, LevelsHold, IsMinimum, IsMaximum, NeverGoesBack, IsUpTo, SumLengths;
      ghost var a := Entry(level, length, MinuteOf(now));
      AddSum(adds, a);
      total := total + 1;
      CountLevel(level, a);
      totalLength := totalLength + length;
      AddMinMax(adds, a, minLength, maxLength);
      minLength := if total == 1 || length < minLength then length else minLength;
      maxLength := if length > maxLength then length else maxLength;
      CountMinute(MinuteOf(now), a);
      adds := adds + [a];
    }

    method CountLevel(level: Level, ghost a: Entry)
      requires LevelsHold(byLevel[..], adds) && a.level == level
      modifies byLevel
      ensures LevelsHold(byLevel[..], adds + [a])
    {
      hide Count;
      LevelsHoldOneMore(byLevel[..], adds, a);
      var index := level;
      if index < byLevel.Length {
        byLevel[index] := byLevel[index] + 1;
      }
    }

    /** The bucket of a minute is restarted when it still holds an earlier one. */
    method CountMinute(minute: nat, ghost a: Entry)
      requires BucketsHold(minutes[..], adds) && NeverGoesBack(adds) && IsUpTo(adds, minute) && a.minute == minute
      modifies minutes
      ensures BucketsHold(minutes[..], adds + [a])
    {
      BucketsHoldOneMore(minutes[..], adds, a);
      assert minutes.Length == BUCKETS;
      hide BucketsHold;
      ghost var before := minutes[..];
      var slot := Slot(minute);
      if minutes[slot].minute != minute {
        minutes[slot] := Bucket(minute, 0);
      }
      minutes[slot] := minutes[slot].(count := minutes[slot].count + 1);
      assert minutes[..] == before[slot := minutes[slot]];
    }

    method AddMalformed()
      requires Valid()
      modifies this`malformed
      ensures Valid() && malformed == old(malformed) + 1
    {
      malformed := malformed + 1;
    }

    /** The totals are those of the whole history, and the sixty reused buckets give exactly the records of
        the current minute and the fifty-nine before it. */
    method TakeSnapshot(now: nat) returns (s: Snapshot)
      requires Valid() && IsUpTo(adds, MinuteOf(now))
      ensures s.total == |adds| && s.malformed == malformed
      ensures |s.byLevel| == COUNT && forall l: Level | l < COUNT :: s.byLevel[l] == Count(adds, AtLevel(l))
      ensures IsAverage(adds, s.averageLength)
      ensures IsMinimum(adds, s.minLength) && IsMaximum(adds, s.maxLength)
      ensures s.lastHour == Count(adds, Since(MinuteOf(now) - BUCKETS + 1))
    {
      hide IsShare, Share;
      var oldest := MinuteOf(now) - BUCKETS + 1;
      var lastHour := 0;
      AllSlots(adds, oldest);
      for b := 0 to BUCKETS
        invariant lastHour == Count(adds, SinceBelowSlot(oldest, b))
      {
        NextSlot(adds, oldest, b);
        BucketHoldsItsHour(adds, b, MinuteOf(now));
        if minutes[b].minute >= oldest {
          lastHour := lastHour + minutes[b].count;
        }
      }
      var average := if total == 0 then 0.0 else Share(totalLength, total);
      s := Snapshot(total, malformed, byLevel[..], lastHour, minLength, maxLength, average);
    }
  }
}
