/** Severity levels (logger/src/LogLevel.cpp).  A level is any value of the underlying byte; only the first
    five name one. */
module LogLevel {
  import opened Wrappers
  import opened Text

  type Level = l: nat | l < 256

  const DEBUG: Level := 0
  const INFO: Level := 1
  const WARN: Level := 2
  const ERROR: Level := 3
  const FATAL: Level := 4
  const COUNT: Level := 5

  predicate IsValidLevel(level: Level) {
    level < COUNT
  }

  const NAMES: seq<string> := ["DEBUG", "INFO", "WARN", "ERROR", "FATAL"]

  function LevelName(level: Level): string {
    if IsValidLevel(level) then NAMES[level] else "UNKNOWN"
  }

  /** The table search, from entry `i` on. */
  function SearchNames(str: string, i: nat): (r: Option<Level>)
    requires i <= COUNT
    ensures r.Some? ==> i <= r.value < COUNT && EqualsIgnoreCase(NAMES[r.value], str)
    ensures r.None? ==> forall k | i <= k < COUNT :: !EqualsIgnoreCase(NAMES[k], str)
    decreases COUNT - i
  {
    if i == COUNT then None
    else if EqualsIgnoreCase(NAMES[i], str) then Some(i)
    else SearchNames(str, i + 1)
  }

  function ParseLevel(str: string): (r: Option<Level>)
    ensures r.Some? ==> IsValidLevel(r.value)
  {
    SearchNames(str, 0)
  }

  lemma NamesDiffer(a: Level, b: Level, str: string)
    requires IsValidLevel(a) && IsValidLevel(b)
    requires EqualsIgnoreCase(NAMES[a], str) && EqualsIgnoreCase(NAMES[b], str)
    ensures a == b
  {
    assert ToLower(NAMES[a][0]) == ToLower(str[0]) == ToLower(NAMES[b][0]);
  }

  /** Parsing finds a level exactly when the text is its name in any mixture of cases. */
  lemma ParseLevelIsExact(str: string, level: Level)
    ensures ParseLevel(str) == Some(level) <==> IsValidLevel(level) && EqualsIgnoreCase(LevelName(level), str)
  {
    var r := ParseLevel(str);
    if IsValidLevel(level) && EqualsIgnoreCase(LevelName(level), str) {
      assert r.Some?;
      NamesDiffer(r.value, level, str);
    }
  }

  /** A name read back gives its level exactly when the level is valid. */
  lemma LevelRoundTrip(level: Level)
    ensures ParseLevel(LevelName(level)) == if IsValidLevel(level) then Some(level) else None
  {
    if IsValidLevel(level) {
      ParseLevelIsExact(LevelName(level), level);
    } else {
      assert forall k | 0 <= k < COUNT :: |NAMES[k]| < |"UNKNOWN"|;
    }
  }

  /** The names and their order. */
  lemma NamesInOrder(level: Level)
    ensures LevelName(level) == match level case 0 => "DEBUG" case 1 => "INFO" case 2 => "WARN" case 3 => "ERROR"
                                            case 4 => "FATAL" case _ => "UNKNOWN"
    ensures IsValidLevel(level) <==> level <= 4
  {
  }

  /** No name holds a bracket, a blank, a slash or a control character. */
  lemma NamesAreLetters(level: Level)
    ensures |LevelName(level)| > 0
    ensures forall c | c in LevelName(level) :: 'A' <= c <= 'Z'
  {
    assert LevelName(level) in NAMES + ["UNKNOWN"];
  }
}
