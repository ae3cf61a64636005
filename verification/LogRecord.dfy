/** The log line `YYYY-MM-DD hh:mm:ss.mmmZ [LEVEL] message` (logger/src/LogRecord.cpp).  Times are nanoseconds
    since the epoch, the tick of system_clock in libstdc++. */
module LogRecord {
  import opened Wrappers
  import opened Text
  import opened LogLevel
  import opened Calendar
  import opened Escaping

  const STAMP_SIZE := 24
  const UNKNOWN_STAMP := "0000-00-00 00:00:00.000Z"

  const NS_PER_MS := 1000000
  const NS_PER_SECOND := 1000000000

  /** The last instant of a 64-bit nanosecond clock, and the last millisecond it holds. */
  const MAX_TIME := 9223372036854775807
  const MAX_MILLIS := 9223372036854

  datatype Record = Record(time: int, level: Level, message: string)

  // ----- writing -----

  /** The seven numbers of a stamp as they are spelt. */
  datatype Fields = Fields(year: string, month: string, mday: string, hour: string, minute: string,
                           second: string, millis: string)
  {
    predicate Fit() {
      |year| == 4 && |month| == |mday| == |hour| == |minute| == |second| == 2 && |millis| == 3
    }

    function Date(): string {
      year + "-" + month + "-" + mday
    }

    function Clock(): string {
      hour + ":" + minute + ":" + second
    }

    function Text(): string {
      Date() + " " + Clock() + "." + millis + "Z"
    }
  }

  function StampText(parts: Tm, millis: nat): string {
    Fields(Printed(parts.year + 1900, 4), Printed(parts.mon + 1, 2), Printed(parts.mday, 2),
           Printed(parts.hour, 2), Printed(parts.min, 2), Printed(parts.sec, 2), Printed(millis, 3)).Text()
  }

  /** The printed stamp, or the unknown one when it does not come out at its fixed size. */
  function StampOf(seconds: int, millis: nat): string {
    var stamp := StampText(Gmtime(seconds), millis);
    if |stamp| == STAMP_SIZE then stamp else UNKNOWN_STAMP
  }

  function FormatStamp(time: int): string {
    var seconds := time / NS_PER_SECOND;
    var millis := (time - seconds * NS_PER_SECOND) / NS_PER_MS;
    StampOf(seconds, millis)
  }

  function Format(record: Record): string {
    FormatStamp(record.time) + " [" + LevelName(record.level) + "] " + Escape(record.message)
  }

  // ----- the stamps that are accepted, described by their content -----

  predicate FitsTemplateAt(line: string, i: nat)
    requires i < |line| && i < STAMP_SIZE
  {
    if IsDigit(UNKNOWN_STAMP[i]) then IsDigit(line[i]) else line[i] == UNKNOWN_STAMP[i]
  }

  predicate FitsTemplate(line: string) {
    |line| == STAMP_SIZE && forall i | 0 <= i < STAMP_SIZE :: FitsTemplateAt(line, i)
  }

  lemma TemplateDigits(line: string, from: nat, to: nat)
    requires FitsTemplate(line)
    requires from <= to <= STAMP_SIZE && AllDigits(UNKNOWN_STAMP[from..to])
    ensures AllDigits(line[from..to])
  {
    forall i | 0 <= i < to - from ensures IsDigit(line[from..to][i]) {
      assert IsDigit(UNKNOWN_STAMP[from..to][i]);
      assert FitsTemplateAt(line, from + i);
    }
  }

  lemma TemplateFields(line: string)
    requires FitsTemplate(line)
    ensures AllDigits(line[0..4]) && AllDigits(line[5..7]) && AllDigits(line[8..10])
    ensures AllDigits(line[11..13]) && AllDigits(line[14..16]) && AllDigits(line[17..19])
    ensures AllDigits(line[20..23])
  {
    TemplateDigits(line, 0, 4);
    TemplateDigits(line, 5, 7);
    TemplateDigits(line, 8, 10);
    TemplateDigits(line, 11, 13);
    TemplateDigits(line, 14, 16);
    TemplateDigits(line, 17, 19);
    TemplateDigits(line, 20, 23);
  }

  function StampFields(line: string): Tm
    requires FitsTemplate(line)
  {
    TemplateFields(line);
    Tm(NumberOf(line[0..4]) - 1900, NumberOf(line[5..7]) - 1, NumberOf(line[8..10]),
       NumberOf(line[11..13]), NumberOf(line[14..16]), NumberOf(line[17..19]))
  }

  function StampMillis(line: string): int
    requires FitsTemplate(line)
  {
    TemplateFields(line);
    NumberOf(line[20..23])
  }

  function StampSeconds(line: string): int
    requires FitsTemplate(line) && IsReal(StampFields(line))
  {
    SecondsSinceEpoch(StampFields(line))
  }

  /** Milliseconds since the epoch of a stamp that names a real time. */
  function InstantOf(line: string): int
    requires FitsTemplate(line) && IsReal(StampFields(line))
  {
    StampSeconds(line) * 1000 + StampMillis(line)
  }

  predicate IsValidStamp(line: string) {
    FitsTemplate(line) && IsReal(StampFields(line)) && 0 <= InstantOf(line) <= MAX_MILLIS
  }

  function ParseStamp(line: string): Option<int> {
    if IsValidStamp(line) then Some(InstantOf(line) * NS_PER_MS) else None
  }

  // ----- the program's stamp parser: normalise, then compare -----

  method ParseTimestamp(line: string) returns (time: Option<int>)
    ensures time == ParseStamp(line)
  {
    hide IsReal, InstantOf, StampFields, StampMillis, Timegm, Normalised, ParseInt;
    if |line| != STAMP_SIZE {
      return None;
    }
    for i := 0 to STAMP_SIZE
      invariant forall k | 0 <= k < i :: FitsTemplateAt(line, k)
    {
      var ok := if IsDigit(UNKNOWN_STAMP[i]) then IsDigit(line[i]) else UNKNOWN_STAMP[i] == line[i];
      if !ok {
        assert !FitsTemplateAt(line, i);
        return None;
      }
    }
    TemplateIntsParse(line);
    var year, month := ParseInt(line[0..4]), ParseInt(line[5..7]);
    var mday, hour := ParseInt(line[8..10]), ParseInt(line[11..13]);
    var minute, second := ParseInt(line[14..16]), ParseInt(line[17..19]);
    var millis := ParseInt(line[20..23]);
    if year.None? || month.None? || mday.None? || hour.None? || minute.None? || second.None? || millis.None? {
      return None;
    }

    var requested := Tm(year.value - 1900, month.value - 1, mday.value, hour.value, minute.value, second.value);
    var raw, parts := Timegm(requested), Normalised(requested);
    var stamp := raw * 1000 + millis.value;
    CompareAcceptsValidStamps(line);
    if stamp < 0 || stamp > MAX_MILLIS {
      return None;
    }
    if parts != requested {
      return None;
    }
    return Some(stamp * NS_PER_MS);
  }

  /** The range test and the comparison together accept exactly the valid stamps. */
  lemma CompareAcceptsValidStamps(line: string)
    requires FitsTemplate(line)
    ensures var requested := StampFields(line);
            var stamp := Timegm(requested) * 1000 + StampMillis(line);
            ParseStamp(line) ==
            if 0 <= stamp <= MAX_MILLIS && Normalised(requested) == requested then Some(stamp * NS_PER_MS) else None
  {
    hide IsReal, Timegm, Normalised, SecondsSinceEpoch, FitsTemplate, StampFields, StampMillis;
    var requested := StampFields(line);
    NormalisingFixesExactlyRealTimes(requested);
    if IsReal(requested) {
      TimegmOfRealTime(requested);
    }
  }

  lemma DigitsParse(text: string)
    requires AllDigits(text) && 0 < |text| <= 4
    ensures ParseInt(text) == Some(NumberOf(text))
    ensures NumberOf(text) < Pow10(|text|)
  {
    NumberIsBelowPower(text);
    assert Pow10(|text|) <= 10000 by {
      assert Pow10(1) == 10 && Pow10(2) == 100 && Pow10(3) == 1000 && Pow10(4) == 10000;
    }
    assert IsDigit(text[0]);
  }

  lemma TemplateIntsParse(line: string)
    requires FitsTemplate(line)
    ensures ParseInt(line[0..4]) == Some(StampFields(line).year + 1900)
    ensures ParseInt(line[5..7]) == Some(StampFields(line).mon + 1)
    ensures ParseInt(line[8..10]) == Some(StampFields(line).mday)
    ensures ParseInt(line[11..13]) == Some(StampFields(line).hour)
    ensures ParseInt(line[14..16]) == Some(StampFields(line).min)
    ensures ParseInt(line[17..19]) == Some(StampFields(line).sec)
    ensures ParseInt(line[20..23]) == Some(StampMillis(line))
    ensures 0 <= StampFields(line).year + 1900 < 10000
    ensures 0 <= StampMillis(line) < 1000
  {
    TemplateFields(line);
    DigitsParse(line[0..4]);
    DigitsParse(line[5..7]);
    DigitsParse(line[8..10]);
    DigitsParse(line[11..13]);
    DigitsParse(line[14..16]);
    DigitsParse(line[17..19]);
    DigitsParse(line[20..23]);
    assert Pow10(4) == 10000 && Pow10(3) == 1000;
  }

  // ----- stamps round trip -----

  lemma DateIsCutBack(f: Fields)
    requires f.Fit()
    ensures var date := f.Date();
            |date| == 10 && date[0..4] == f.year && date[4] == '-' && date[5..7] == f.month && date[7] == '-' &&
            date[8..10] == f.mday
  {
  }

  lemma ClockIsCutBack(f: Fields)
    requires f.Fit()
    ensures var clock := f.Clock();
            |clock| == 8 && clock[0..2] == f.hour && clock[2] == ':' && clock[3..5] == f.minute &&
            clock[5] == ':' && clock[6..8] == f.second
  {
  }

  lemma FieldsAreCutBack(f: Fields)
    requires f.Fit()
    ensures var line := f.Text();
            |line| == STAMP_SIZE && line[0..4] == f.year && line[5..7] == f.month && line[8..10] == f.mday &&
            line[11..13] == f.hour && line[14..16] == f.minute && line[17..19] == f.second &&
            line[20..23] == f.millis && line[4] == '-' && line[7] == '-' && line[10] == ' ' &&
            line[13] == ':' && line[16] == ':' && line[19] == '.' && line[23] == 'Z'
  {
    DateIsCutBack(f);
    ClockIsCutBack(f);
    var line, date, clock := f.Text(), f.Date(), f.Clock();
    assert |line| == STAMP_SIZE && line[0..10] == date && line[11..19] == clock && line[20..23] == f.millis;
    assert line[0..4] == date[0..4] && line[5..7] == date[5..7] && line[8..10] == date[8..10];
    assert line[11..13] == clock[0..2] && line[14..16] == clock[3..5] && line[17..19] == clock[6..8];
  }

  function CutFields(line: string): (f: Fields)
    requires |line| == STAMP_SIZE
    ensures f.Fit()
  {
    Fields(line[0..4], line[5..7], line[8..10], line[11..13], line[14..16], line[17..19], line[20..23])
  }

  lemma TemplateIsItsFields(line: string)
    requires FitsTemplate(line)
    ensures CutFields(line).Text() == line
  {
    assert FitsTemplateAt(line, 4) && FitsTemplateAt(line, 7) && FitsTemplateAt(line, 10) &&
           FitsTemplateAt(line, 13) && FitsTemplateAt(line, 16) && FitsTemplateAt(line, 19) &&
           FitsTemplateAt(line, 23);
    var f := CutFields(line);
    assert line[0..10] == f.Date() by {
      assert line[0..10] == line[0..4] + [line[4]] + line[5..7] + [line[7]] + line[8..10];
    }
    assert line[11..19] == f.Clock() by {
      assert line[11..19] == line[11..13] + [line[13]] + line[14..16] + [line[16]] + line[17..19];
    }
    assert line == line[0..10] + [line[10]] + line[11..19] + [line[19]] + line[20..23] + [line[23]];
  }

  lemma DigitFieldsFitTheTemplate(f: Fields)
    requires f.Fit()
    requires AllDigits(f.year) && AllDigits(f.month) && AllDigits(f.mday) && AllDigits(f.hour)
    requires AllDigits(f.minute) && AllDigits(f.second) && AllDigits(f.millis)
    ensures FitsTemplate(f.Text()) && CutFields(f.Text()) == f
  {
    FieldsAreCutBack(f);
    var line := f.Text();
    forall i | 0 <= i < STAMP_SIZE ensures FitsTemplateAt(line, i) {
      if i < 4 { assert line[i] == line[0..4][i]; }
      else if 5 <= i < 7 { assert line[i] == line[5..7][i - 5]; }
      else if 8 <= i < 10 { assert line[i] == line[8..10][i - 8]; }
      else if 11 <= i < 13 { assert line[i] == line[11..13][i - 11]; }
      else if 14 <= i < 16 { assert line[i] == line[14..16][i - 14]; }
      else if 17 <= i < 19 { assert line[i] == line[17..19][i - 17]; }
      else if 20 <= i < 23 { assert line[i] == line[20..23][i - 20]; }
    }
  }

  function PaddedFields(parts: Tm, millis: nat): (f: Fields)
    requires IsReal(parts) && 0 <= parts.year + 1900
    ensures f.Fit()
  {
    Fields(Padded(parts.year + 1900, 4), Padded(parts.mon + 1, 2), Padded(parts.mday, 2), Padded(parts.hour, 2),
           Padded(parts.min, 2), Padded(parts.sec, 2), Padded(millis, 3))
  }

  lemma SmallPowers()
    ensures Pow10(2) == 100 && Pow10(3) == 1000 && Pow10(4) == 10000
  {
    assert Pow10(1) == 10;
  }

  /** A four-digit year gives exactly the padded fields; any other year makes the text no valid stamp. */
  lemma StampTextOfYear(parts: Tm, millis: nat)
    requires IsReal(parts) && millis < 1000
    ensures 0 <= parts.year + 1900 < 10000 ==> StampText(parts, millis) == PaddedFields(parts, millis).Text()
    ensures parts.year + 1900 >= 10000 ==> |StampText(parts, millis)| > STAMP_SIZE
    ensures parts.year + 1900 < 0 ==> StampText(parts, millis)[0] == '-'
  {
    hide Printed, Padded, Pow10, IsLeap;
    SmallPowers();
    PrintedFits(parts.mon + 1, 2);
    PrintedFits(parts.mday, 2);
    PrintedFits(parts.hour, 2);
    PrintedFits(parts.min, 2);
    PrintedFits(parts.sec, 2);
    PrintedFits(millis, 3);
    if parts.year + 1900 >= 0 {
      PrintedFits(parts.year + 1900, 4);
    } else {
      NegativeStartsWithMinus(parts.year + 1900);
    }
  }

  lemma NegativeStartsWithMinus(n: int)
    requires n < 0
    ensures Printed(n, 4)[0] == '-'
  {
  }

  lemma PaddedFieldsReadBack(parts: Tm, millis: nat)
    requires IsReal(parts) && 0 <= parts.year + 1900 < 10000 && millis < 1000
    ensures var line := PaddedFields(parts, millis).Text();
            FitsTemplate(line) && StampFields(line) == parts && StampMillis(line) == millis
  {
    hide Padded, NumberOf, StampFields, StampMillis, FitsTemplate;
    var f := PaddedFields(parts, millis);
    SmallPowers();
    PaddedReadsBack(parts.year + 1900, 4);
    PaddedReadsBack(parts.mon + 1, 2);
    PaddedReadsBack(parts.mday, 2);
    PaddedReadsBack(parts.hour, 2);
    PaddedReadsBack(parts.min, 2);
    PaddedReadsBack(parts.sec, 2);
    PaddedReadsBack(millis, 3);
    NumericFieldsReadBack(f, parts, millis);
  }

  predicate Spells(digits: string, n: int) {
    AllDigits(digits) && NumberOf(digits) == n
  }

  lemma NumericFieldsReadBack(f: Fields, parts: Tm, millis: nat)
    requires f.Fit()
    requires Spells(f.year, parts.year + 1900) && Spells(f.month, parts.mon + 1) && Spells(f.mday, parts.mday)
    requires Spells(f.hour, parts.hour) && Spells(f.minute, parts.min) && Spells(f.second, parts.sec)
    requires Spells(f.millis, millis)
    ensures FitsTemplate(f.Text()) && StampFields(f.Text()) == parts && StampMillis(f.Text()) == millis
  {
    DigitFieldsFitTheTemplate(f);
    FieldsOfCut(f.Text());
  }

  lemma FieldsOfCut(line: string)
    requires FitsTemplate(line)
    ensures var f := CutFields(line);
            && AllDigits(f.year) && AllDigits(f.month) && AllDigits(f.mday) && AllDigits(f.hour)
            && AllDigits(f.minute) && AllDigits(f.second) && AllDigits(f.millis)
            && StampFields(line) == Tm(NumberOf(f.year) - 1900, NumberOf(f.month) - 1, NumberOf(f.mday),
                                       NumberOf(f.hour), NumberOf(f.minute), NumberOf(f.second))
            && StampMillis(line) == NumberOf(f.millis)
  {
    hide FitsTemplate, NumberOf, AllDigits;
    TemplateFields(line);
  }

  lemma UnknownStampIsInvalid()
    ensures !IsValidStamp(UNKNOWN_STAMP)
  {
    if FitsTemplate(UNKNOWN_STAMP) {
      assert UNKNOWN_STAMP[5..7] == "00";
      assert NumberOf("0") == 0;
      assert NumberOf("00") == 0;
    }
  }

  /** Years outside 0..9999 lie outside the clock. */
  lemma ClockYears(seconds: int)
    ensures Gmtime(seconds).year + 1900 < 0 ==> seconds < 0
    ensures Gmtime(seconds).year + 1900 >= 10000 ==> seconds * 1000 > MAX_MILLIS
  {
    var parts := Gmtime(seconds);
    RealDayLiesInItsYear(parts);
    assert 0 <= SecondOfDay(parts);
    if parts.year + 1900 < 0 {
      YearsAreOrdered(parts.year, 70);
    } else if parts.year > 8100 {
      YearsAreOrdered(8100, parts.year);
    }
  }

  lemma MillisecondSplit(time: int)
    ensures var seconds := time / NS_PER_SECOND;
            var millis := (time - seconds * NS_PER_SECOND) / NS_PER_MS;
            0 <= millis < 1000 && seconds * 1000 + millis == time / NS_PER_MS
  {
  }

  lemma FourDigitYearReadsBack(seconds: int, millis: nat)
    requires millis < 1000 && 0 <= Gmtime(seconds).year + 1900 < 10000
    ensures var line := StampOf(seconds, millis);
            FitsTemplate(line) && IsReal(StampFields(line)) && InstantOf(line) == seconds * 1000 + millis
  {
    hide StampText, PaddedFields, SecondsSinceEpoch, FitsTemplate, StampFields, StampMillis, Gmtime;
    var parts := Gmtime(seconds);
    StampTextOfYear(parts, millis);
    PaddedFieldsReadBack(parts, millis);
    FieldsAreCutBack(PaddedFields(parts, millis));
  }

  lemma OtherYearsAreInvalid(seconds: int, millis: nat)
    requires millis < 1000 && !(0 <= Gmtime(seconds).year + 1900 < 10000)
    ensures !IsValidStamp(StampOf(seconds, millis))
  {
    hide StampText, InstantOf, Gmtime;
    var parts := Gmtime(seconds);
    StampTextOfYear(parts, millis);
    UnknownStampIsInvalid();
    var line := StampText(parts, millis);
    if parts.year + 1900 < 0 && |line| == STAMP_SIZE {
      assert !FitsTemplateAt(line, 0);
    }
  }

  lemma StampReadsBack(seconds: int, millis: nat)
    requires millis < 1000
    ensures ParseStamp(StampOf(seconds, millis)) ==
            if 0 <= seconds * 1000 + millis <= MAX_MILLIS
            then Some((seconds * 1000 + millis) * NS_PER_MS) else None
  {
    hide StampOf, InstantOf, Gmtime, FitsTemplate, IsReal;
    ClockYears(seconds);
    if 0 <= Gmtime(seconds).year + 1900 < 10000 {
      FourDigitYearReadsBack(seconds, millis);
    } else {
      OtherYearsAreInvalid(seconds, millis);
    }
  }

  /** A printed stamp is read back, floored to the millisecond, exactly for the times from the epoch to the
      last millisecond of the clock. */
  lemma StampRoundTrip(time: int)
    ensures ParseStamp(FormatStamp(time)) ==
            if 0 <= time / NS_PER_MS <= MAX_MILLIS then Some(time / NS_PER_MS * NS_PER_MS) else None
  {
    hide StampOf, ParseStamp;
    MillisecondSplit(time);
    var seconds := time / NS_PER_SECOND;
    StampReadsBack(seconds, (time - seconds * NS_PER_SECOND) / NS_PER_MS);
  }

  lemma FieldsPrintTheLine(line: string)
    requires FitsTemplate(line) && IsReal(StampFields(line))
    ensures StampMillis(line) >= 0
    ensures StampOf(StampSeconds(line), StampMillis(line)) == line
  {
    hide FitsTemplate, SecondsSinceEpoch, StampText, PaddedFields;
    var parts := StampFields(line);
    TemplateIntsParse(line);
    RealTimeIsUnique(Gmtime(SecondsSinceEpoch(parts)), parts);
    StampTextOfYear(parts, StampMillis(line));
    FieldsArePrintedBack(line);
    TemplateIsItsFields(line);
  }

  lemma FormatOfMillis(seconds: int, millis: nat)
    requires millis < 1000
    ensures FormatStamp((seconds * 1000 + millis) * NS_PER_MS) == StampOf(seconds, millis)
  {
    hide StampOf;
    var time := (seconds * 1000 + millis) * NS_PER_MS;
    assert time / NS_PER_SECOND == seconds;
  }

  /** An accepted stamp is printed again byte for byte. */
  lemma AcceptedStampIsPrintedBack(line: string)
    requires IsValidStamp(line)
    ensures FormatStamp(ParseStamp(line).value) == line
  {
    hide StampOf, FormatStamp, StampSeconds, IsReal, FitsTemplate, StampFields, StampMillis;
    TemplateIntsParse(line);
    FormatOfMillis(StampSeconds(line), StampMillis(line));
    FieldsPrintTheLine(line);
  }

  lemma FieldsArePrintedBack(line: string)
    requires FitsTemplate(line) && IsReal(StampFields(line))
    ensures 0 <= StampFields(line).year + 1900 && 0 <= StampMillis(line)
    ensures PaddedFields(StampFields(line), StampMillis(line)) == CutFields(line)
  {
    hide Padded, NumberOf, FitsTemplateAt, IsReal;
    TemplateFields(line);
    ReadPrintsBack(line[0..4]);
    ReadPrintsBack(line[5..7]);
    ReadPrintsBack(line[8..10]);
    ReadPrintsBack(line[11..13]);
    ReadPrintsBack(line[14..16]);
    ReadPrintsBack(line[17..19]);
    ReadPrintsBack(line[20..23]);
  }

  /** The stamp, place by place: the date and time of day in UTC, each number most significant digit first. */
  lemma StampLayout(time: int)
    requires 0 <= Gmtime(time / 1000000000).year + 1900 < 10000
    ensures var tm, millis := Gmtime(time / 1000000000), time / 1000000 % 1000;
            FormatStamp(time) ==
            Padded(tm.year + 1900, 4) + "-" + Padded(tm.mon + 1, 2) + "-" + Padded(tm.mday, 2) + " " +
            Padded(tm.hour, 2) + ":" + Padded(tm.min, 2) + ":" + Padded(tm.sec, 2) + "." + Padded(millis, 3) + "Z"
  {
    hide StampOf, Padded, Gmtime;
    MillisOf(time);
    StampOfLayout(time / NS_PER_SECOND, time / 1000000 % 1000);
  }

  lemma MillisOf(time: int)
    ensures (time - time / NS_PER_SECOND * NS_PER_SECOND) / NS_PER_MS == time / 1000000 % 1000
  {
  }

  lemma StampOfLayout(seconds: int, millis: nat)
    requires 0 <= Gmtime(seconds).year + 1900 < 10000 && millis < 1000
    ensures var tm := Gmtime(seconds);
            StampOf(seconds, millis) ==
            Padded(tm.year + 1900, 4) + "-" + Padded(tm.mon + 1, 2) + "-" + Padded(tm.mday, 2) + " " +
            Padded(tm.hour, 2) + ":" + Padded(tm.min, 2) + ":" + Padded(tm.sec, 2) + "." + Padded(millis, 3) + "Z"
  {
    hide StampText, Padded, Gmtime, PaddedFields;
    StampTextOfYear(Gmtime(seconds), millis);
    LayoutOfPadded(Gmtime(seconds), millis);
  }

  lemma LayoutOfPadded(tm: Tm, millis: nat)
    requires IsReal(tm) && 0 <= tm.year + 1900
    ensures |PaddedFields(tm, millis).Text()| == STAMP_SIZE
    ensures PaddedFields(tm, millis).Text() ==
            Padded(tm.year + 1900, 4) + "-" + Padded(tm.mon + 1, 2) + "-" + Padded(tm.mday, 2) + " " +
            Padded(tm.hour, 2) + ":" + Padded(tm.min, 2) + ":" + Padded(tm.sec, 2) + "." + Padded(millis, 3) + "Z"
  {
    hide Padded, IsLeap;
    LayoutOfFields(PaddedFields(tm, millis));
  }

  lemma LayoutOfFields(f: Fields)
    requires f.Fit()
    ensures |f.Text()| == STAMP_SIZE
    ensures f.Text() == f.year + "-" + f.month + "-" + f.mday + " " + f.hour + ":" + f.minute + ":" + f.second + "." +
                        f.millis + "Z"
  {
  }

  /** A year of more than four digits cannot be shown. */
  lemma LateStampIsUnknown(time: int)
    requires Gmtime(time / 1000000000).year + 1900 >= 10000
    ensures FormatStamp(time) == "0000-00-00 00:00:00.000Z"
  {
    hide StampText, Gmtime;
    MillisecondSplit(time);
    var seconds := time / NS_PER_SECOND;
    StampTextOfYear(Gmtime(seconds), (time - seconds * NS_PER_SECOND) / NS_PER_MS);
  }

  lemma RecordLayout(record: Record)
    ensures Format(record) ==
            FormatStamp(record.time) + " [" + LevelName(record.level) + "] " + Escape(record.message)
  {
  }

  /** The clock holds signed 64-bit nanoseconds. */
  lemma ClockRange()
    ensures MAX_TIME == 0x7FFF_FFFF_FFFF_FFFF && MAX_MILLIS == MAX_TIME / 1000000
    ensures NS_PER_MS == 1_000_000 && NS_PER_SECOND == 1_000_000_000
    ensures STAMP_SIZE == |"2026-08-19 19:27:45.960Z"|
  {
  }

  // ----- reading a line -----

  function Parse(line: string): Option<Record> {
    if |line| < STAMP_SIZE then None else
      var time := ParseStamp(line[..STAMP_SIZE]);
      if time.None? then None else
        var rest := line[STAMP_SIZE..];
        if |rest| < 3 || rest[0] != ' ' || rest[1] != '[' then None else
          var close := Find(rest, ']', 2);
          if close == |rest| || close + 1 >= |rest| || rest[close + 1] != ' ' then None else
            var level := ParseLevel(rest[2..close]);
            if level.None? then None
            else Some(Record(time.value, level.value, Unescape(rest[close + 2..])))
  }

  function LineOf(stamp: string, name: string, text: string): string {
    stamp + " [" + name + "] " + text
  }

  lemma ParseOfParts(stamp: string, name: string, text: string)
    requires |stamp| == STAMP_SIZE && ']' !in name
    ensures Parse(LineOf(stamp, name, text)) ==
            if ParseStamp(stamp).Some? && ParseLevel(name).Some?
            then Some(Record(ParseStamp(stamp).value, ParseLevel(name).value, Unescape(text))) else None
  {
    var line := LineOf(stamp, name, text);
    assert line[..STAMP_SIZE] == stamp;
    var rest := line[STAMP_SIZE..];
    assert rest == " [" + name + "] " + text;
    var close := 2 + |name|;
    assert rest[2..close] == name;
    FindIsFirst(rest, ']', 2, close);
    assert rest[close + 2..] == text;
  }

  lemma LevelNamesHaveNoBracket(name: string)
    requires ParseLevel(name).Some?
    ensures ']' !in name
  {
    var level := ParseLevel(name).value;
    ParseLevelIsExact(name, level);
    NamesAreLetters(level);
    forall i | 0 <= i < |name| ensures name[i] != ']' {
      assert LevelName(level)[i] in LevelName(level);
      assert ToLower(LevelName(level)[i]) == ToLower(name[i]);
    }
  }

  ghost predicate IsLineOf(line: string, record: Record, stamp: string, name: string, text: string) {
    && line == LineOf(stamp, name, text)
    && ParseStamp(stamp) == Some(record.time)
    && ParseLevel(name) == Some(record.level)
    && Unescape(text) == record.message
  }

  /** A line is accepted exactly when it is a valid stamp, a level name in brackets and a text, and it yields
      what these three stand for. */
  lemma ParseIsExact(line: string, record: Record)
    ensures Parse(line) == Some(record) <==>
            exists stamp, name, text :: IsLineOf(line, record, stamp, name, text)
  {
    hide ParseStamp, ParseLevel, Unescape;
    if Parse(line) == Some(record) {
      var stamp, rest := line[..STAMP_SIZE], line[STAMP_SIZE..];
      var close := Find(rest, ']', 2);
      var name, text := rest[2..close], rest[close + 2..];
      assert rest == " [" + name + "] " + text;
      assert line == LineOf(stamp, name, text);
      assert IsLineOf(line, record, stamp, name, text);
    }
    if stamp, name, text :| IsLineOf(line, record, stamp, name, text) {
      LevelNamesHaveNoBracket(name);
      ParsedTimeIsInRange(stamp);
      ParseOfParts(stamp, name, text);
    }
  }

  // ----- records round trip -----

  /** A time as the log keeps it. */
  function FloorToMillis(time: int): int {
    time / NS_PER_MS * NS_PER_MS
  }

  predicate IsLoggable(record: Record) {
    IsValidLevel(record.level) && 0 <= record.time <= MAX_TIME
  }

  /** Writing a record and reading the line gives the record back, its time floored to milliseconds; this
      happens exactly for a valid level and a time between the epoch and the end of the clock. */
  lemma RecordRoundTrip(record: Record)
    ensures Parse(Format(record)) ==
            if IsValidLevel(record.level) && 0 <= record.time / NS_PER_MS <= MAX_MILLIS
            then Some(record.(time := FloorToMillis(record.time))) else None
    ensures IsLoggable(record) ==> Parse(Format(record)) == Some(record.(time := FloorToMillis(record.time)))
  {
    var stamp, name := FormatStamp(record.time), LevelName(record.level);
    NamesAreLetters(record.level);
    StampRoundTrip(record.time);
    LevelRoundTrip(record.level);
    EscapeRoundTrip(record.message);
    assert Format(record) == LineOf(stamp, name, Escape(record.message));
    ParseOfParts(stamp, name, Escape(record.message));
  }

  lemma ParsedTimeIsInRange(stamp: string)
    requires ParseStamp(stamp).Some?
    ensures |stamp| == STAMP_SIZE
    ensures var time := ParseStamp(stamp).value;
            0 <= time <= MAX_TIME && 0 <= time / NS_PER_MS <= MAX_MILLIS && FloorToMillis(time) == time
  {
    hide InstantOf, FitsTemplateAt, IsReal;
  }

  /** What is accepted once is stable: the record written again is read back unchanged. */
  lemma ParsedRecordIsStable(line: string)
    requires Parse(line).Some?
    ensures IsLoggable(Parse(line).value)
    ensures Parse(Format(Parse(line).value)) == Parse(line)
    ensures FormatStamp(Parse(line).value.time) == line[..STAMP_SIZE]
  {
    hide FormatStamp, ParseStamp, Unescape, ParseLevel, Format;
    var record := Parse(line).value;
    var rest := line[STAMP_SIZE..];
    ParseLevelIsExact(rest[2..Find(rest, ']', 2)], record.level);
    ParsedTimeIsInRange(line[..STAMP_SIZE]);
    RecordRoundTrip(record);
    ParsedStampIsPrintedBack(line[..STAMP_SIZE]);
  }

  // ----- which accepted lines the program can write -----

  /** The two parts of an accepted line after its stamp. */
  function NamePart(line: string): string
    requires Parse(line).Some?
  {
    line[STAMP_SIZE + 2..STAMP_SIZE + Find(line[STAMP_SIZE..], ']', 2)]
  }

  function TextPart(line: string): string
    requires Parse(line).Some?
  {
    line[STAMP_SIZE + Find(line[STAMP_SIZE..], ']', 2) + 2..]
  }

  ghost predicate CanBeWritten(line: string) {
    exists record :: Format(record) == line
  }

  lemma PartsMakeTheLine(line: string)
    requires Parse(line).Some?
    ensures var record := Parse(line).value;
            && line == LineOf(line[..STAMP_SIZE], NamePart(line), TextPart(line))
            && ParseLevel(NamePart(line)) == Some(record.level)
            && Unescape(TextPart(line)) == record.message
  {
    hide ParseStamp, ParseLevel, Unescape;
    var rest := line[STAMP_SIZE..];
    var close := Find(rest, ']', 2);
    assert rest[2..close] == NamePart(line) && rest[close + 2..] == TextPart(line);
    assert rest == " [" + NamePart(line) + "] " + TextPart(line);
  }

  lemma PartsOfLine(stamp: string, name: string, text: string)
    requires |stamp| == STAMP_SIZE && ']' !in name && Parse(LineOf(stamp, name, text)).Some?
    ensures NamePart(LineOf(stamp, name, text)) == name && TextPart(LineOf(stamp, name, text)) == text
  {
    hide ParseStamp, ParseLevel, Unescape;
    var line := LineOf(stamp, name, text);
    var rest := line[STAMP_SIZE..];
    assert rest == " [" + name + "] " + text;
    assert rest[2..2 + |name|] == name;
    FindIsFirst(rest, ']', 2, 2 + |name|);
  }

  lemma StampHasItsSize(time: int)
    ensures |FormatStamp(time)| == STAMP_SIZE
  {
    hide StampOf;
    MillisecondSplit(time);
    var seconds := time / NS_PER_SECOND;
    StampIsPrintable(seconds, (time - seconds * NS_PER_SECOND) / NS_PER_MS);
  }

  lemma WrittenPartsAreExact(record: Record)
    requires Parse(Format(record)).Some?
    ensures NamePart(Format(record)) == LevelName(Parse(Format(record)).value.level)
    ensures IsWellEscaped(TextPart(Format(record)))
  {
    hide FormatStamp, ParseStamp, Parse, Escape, Unescape, LevelName, NamePart, TextPart, IsWellEscaped;
    var stamp, name, text := FormatStamp(record.time), LevelName(record.level), Escape(record.message);
    StampHasItsSize(record.time);
    NamesAreLetters(record.level);
    assert Format(record) == LineOf(stamp, name, text);
    PartsOfLine(stamp, name, text);
    RecordRoundTrip(record);
    WellEscapedIsTheImage(text);
    assert Escape(record.message) == text;
  }

  /** Not every accepted line is one the program can write.  It is exactly when the level stands there in the
      spelling of its name and the text is well escaped; then the record it yields is written as this line. */
  lemma AcceptedLineCanBeWrittenIff(line: string)
    requires Parse(line).Some?
    ensures var record := Parse(line).value;
            var exact := NamePart(line) == LevelName(record.level) && IsWellEscaped(TextPart(line));
            (CanBeWritten(line) <==> exact) && (Format(record) == line <==> exact)
  {
    hide FormatStamp, ParseStamp, Parse, Escape, Unescape, NamePart, TextPart, IsWellEscaped, Format;
    var record := Parse(line).value;
    if other :| Format(other) == line {
      WrittenPartsAreExact(other);
    }
    if NamePart(line) == LevelName(record.level) && IsWellEscaped(TextPart(line)) {
      ExactPartsAreWritten(line);
    }
  }

  lemma ExactPartsAreWritten(line: string)
    requires Parse(line).Some?
    requires NamePart(line) == LevelName(Parse(line).value.level) && IsWellEscaped(TextPart(line))
    ensures Format(Parse(line).value) == line
  {
    PartsMakeTheLine(line);
    ParsedRecordIsStable(line);
    WellEscapedIsTheImage(TextPart(line));
    hide FormatStamp, ParseStamp, Parse, Escape, Unescape, NamePart, TextPart, IsWellEscaped, LevelName;
  }

  /** A line in lower case is accepted all the same, and the program never writes it. */
  lemma LowerCaseLevelIsAccepted(time: int, message: string)
    requires 0 <= time <= MAX_TIME
    ensures var line := LineOf(FormatStamp(time), "info", Escape(message));
            Parse(line) == Some(Record(FloorToMillis(time), INFO, message)) && !CanBeWritten(line)
  {
    var line := LineOf(FormatStamp(time), "info", Escape(message));
    StampHasItsSize(time);
    StampRoundTrip(time);
    ParseLevelIsExact("info", INFO);
    EscapeRoundTrip(message);
    hide FormatStamp, ParseStamp, Parse, Escape, Unescape, Format;
    ParseOfParts(FormatStamp(time), "info", Escape(message));
    PartsOfLine(FormatStamp(time), "info", Escape(message));
    AcceptedLineCanBeWrittenIff(line);
  }

  lemma ParsedStampIsPrintedBack(stamp: string)
    requires ParseStamp(stamp).Some?
    ensures FormatStamp(ParseStamp(stamp).value) == stamp
  {
    hide FormatStamp, InstantOf, FitsTemplate, IsReal;
    AcceptedStampIsPrintedBack(stamp);
  }

  /** A record is always one line of printable text, whatever its message holds. */
  lemma RecordIsOneLine(record: Record)
    ensures forall c | c in Format(record) :: !IsControl(c)
    ensures '\n' !in Format(record)
    ensures STAMP_SIZE + 4 + |LevelName(record.level)| + |record.message| <= |Format(record)|
    ensures |Format(record)| <= STAMP_SIZE + 4 + |LevelName(record.level)| + 4 * |record.message|
  {
    hide StampOf, Escape, LevelName;
    NamesAreLetters(record.level);
    EscapedTextIsPrintable(record.message);
    MillisecondSplit(record.time);
    var seconds := record.time / NS_PER_SECOND;
    StampIsPrintable(seconds, (record.time - seconds * NS_PER_SECOND) / NS_PER_MS);
  }

  lemma DigitsArePrintable(s: string)
    requires AllDigits(s)
    ensures forall c | c in s :: !IsControl(c)
  {
  }

  lemma PrintedIsPrintable(n: int, width: nat)
    ensures forall c | c in Printed(n, width) :: !IsControl(c)
  {
    var body := Decimal(if n < 0 then -n else n);
    DigitsArePrintable(body);
    assert forall k: nat :: AllDigits(Zeros(k));
  }

  lemma StampIsPrintable(seconds: int, millis: nat)
    ensures forall c | c in StampOf(seconds, millis) :: !IsControl(c)
    ensures |StampOf(seconds, millis)| == STAMP_SIZE
  {
    hide Printed, Gmtime;
    var parts := Gmtime(seconds);
    PrintedIsPrintable(parts.year + 1900, 4);
    PrintedIsPrintable(parts.mon + 1, 2);
    PrintedIsPrintable(parts.mday, 2);
    PrintedIsPrintable(parts.hour, 2);
    PrintedIsPrintable(parts.min, 2);
    PrintedIsPrintable(parts.sec, 2);
    PrintedIsPrintable(millis, 3);
  }
}
