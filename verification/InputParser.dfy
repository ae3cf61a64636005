/** One line typed by the user (app/core/InputParser.cpp). */
module InputParser {
  import opened LogLevel

  datatype UserInput =
    | Message(level: Level, text: string)
    | LevelCommand(level: Level)
    | QuitCommand
    | HelpCommand
    | EmptyLine
    | Error(text: string)

  predicate IsBlank(c: char) {
    c == ' ' || c == '\t'
  }

  predicate AllBlank(s: string) {
    forall k | 0 <= k < |s| :: IsBlank(s[k])
  }

  /** No blank at either end. */
  predicate IsBare(s: string) {
    s != "" ==> !IsBlank(s[0]) && !IsBlank(s[|s| - 1])
  }

  function FirstOther(s: string, i: nat): (at: nat)
    requires i <= |s|
    ensures i <= at <= |s|
    ensures forall k | i <= k < at :: IsBlank(s[k])
    ensures at < |s| ==> !IsBlank(s[at])
    decreases |s| - i
  {
    if i < |s| && IsBlank(s[i]) then FirstOther(s, i + 1) else i
  }

  /** The end of the text before `end` without its trailing blanks. */
  function LastEnd(s: string, end: nat): (at: nat)
    requires end <= |s|
    ensures at <= end
    ensures forall k | at <= k < end :: IsBlank(s[k])
    ensures at > 0 ==> !IsBlank(s[at - 1])
  {
    if end > 0 && IsBlank(s[end - 1]) then LastEnd(s, end - 1) else end
  }

  function FirstBlank(s: string, i: nat): (at: nat)
    requires i <= |s|
    ensures i <= at <= |s|
    ensures forall k | i <= k < at :: !IsBlank(s[k])
    ensures at < |s| ==> IsBlank(s[at])
    decreases |s| - i
  {
    if i < |s| && !IsBlank(s[i]) then FirstBlank(s, i + 1) else i
  }

  function Trim(line: string): (r: string)
    ensures IsBare(r)
  {
    var first := FirstOther(line, 0);
    if first == |line| then ""
    else line[first..LastEnd(line, |line|)]
  }

  function SplitFirstWord(line: string): (string, string) {
    var end := FirstBlank(line, 0);
    (line[..end], line[end..])
  }

  function ParseCommand(line: string): UserInput {
    var (name, tail) := SplitFirstWord(line);
    if name == "/quit" then QuitCommand
    else if name == "/help" then HelpCommand
    else if name != "/level" then Error("unknown command: " + name + " (type /help)")
    else
      var argument := Trim(tail);
      if argument == "" then Error("usage: /level <name>")
      else
        var level := ParseLevel(argument);
        if level.None? then Error("unknown level: " + argument) else LevelCommand(level.value)
  }

  function ParseTrimmed(line: string, defaultLevel: Level): UserInput {
    if line == "" then EmptyLine
    else if line[0] == '/' then
      if |line| > 1 && line[1] == '/' then Message(defaultLevel, line[1..]) else ParseCommand(line)
    else
      var (word, tail) := SplitFirstWord(line);
      var level := ParseLevel(word);
      if level.None? then Message(defaultLevel, line)
      else
        var message := Trim(tail);
        if message == "" then Error("message text is missing") else Message(level.value, message)
  }

  function ParseUserInput(line: string, defaultLevel: Level): UserInput {
    ParseTrimmed(Trim(line), defaultLevel)
  }

  // ----- trimming -----

  /** `Trim` takes away exactly the surrounding blanks. */
  lemma TrimIs(left: string, core: string, right: string)
    requires AllBlank(left) && AllBlank(right) && IsBare(core)
    ensures Trim(left + core + right) == core
  {
    var s := left + core + right;
    if core != "" {
      assert s[|left|] == core[0] && s[|left| + |core| - 1] == core[|core| - 1];
      TrimsTo(s, |left|, |left| + |core|);
      assert s[|left|..|left| + |core|] == core;
    }
  }

  lemma TrimsTo(s: string, first: nat, last: nat)
    requires first < last <= |s|
    requires !IsBlank(s[first]) && !IsBlank(s[last - 1])
    requires forall k | 0 <= k < first :: IsBlank(s[k])
    requires forall k | last <= k < |s| :: IsBlank(s[k])
    ensures Trim(s) == s[first..last]
  {
    hide FirstOther, LastEnd;
    var f, l := FirstOther(s, 0), LastEnd(s, |s|);
    assert f == first && l == last;
  }

  lemma TrimOfBare(s: string)
    requires IsBare(s)
    ensures Trim(s) == s
  {
    TrimIs("", s, "");
    assert "" + s + "" == s;
  }

  /** Every line is its trimmed text with blanks around it. */
  lemma TrimSplits(s: string) returns (left: string, right: string)
    ensures AllBlank(left) && AllBlank(right) && s == left + Trim(s) + right
  {
    var first, last := FirstOther(s, 0), LastEnd(s, |s|);
    if first == |s| {
      left, right := s, "";
    } else {
      left, right := s[..first], s[last..];
      assert s == s[..first] + s[first..last] + s[last..];
    }
  }

  // ----- the input language -----

  /** Blanks around a line change nothing. */
  lemma SurroundingBlanksAreIgnored(left: string, line: string, right: string, defaultLevel: Level)
    requires AllBlank(left) && AllBlank(right)
    ensures ParseUserInput(left + line + right, defaultLevel) == ParseUserInput(line, defaultLevel)
  {
    hide Trim, ParseTrimmed;
    var l, r := TrimSplits(line);
    TrimIs(left + l, Trim(line), r + right);
    assert left + line + right == (left + l) + Trim(line) + (r + right);
  }

  lemma FirstBlankIs(s: string, at: nat)
    requires at <= |s| && (forall k | 0 <= k < at :: !IsBlank(s[k]))
    requires at < |s| ==> IsBlank(s[at])
    ensures FirstBlank(s, 0) == at
  {
  }

  /** Every level and every bare text can be typed together, whatever the default. */
  lemma ExplicitLevelIsReached(level: Level, text: string, defaultLevel: Level)
    requires IsValidLevel(level) && text != "" && IsBare(text)
    ensures ParseUserInput(LevelName(level) + " " + text, defaultLevel) == Message(level, text)
  {
    hide Trim, ParseLevel;
    var name := LevelName(level);
    var line := name + " " + text;
    NamesAreLetters(level);
    assert forall k | 0 <= k < |name| :: name[k] in name;
    hide LevelName;
    assert line[0] == name[0] && line[|line| - 1] == text[|text| - 1];
    TrimOfBare(line);
    assert forall k | 0 <= k < |name| :: line[k] == name[k];
    FirstBlankIs(line, |name|);
    assert line[..|name|] == name && line[|name|..] == " " + text;
    LevelRoundTrip(level);
    TrimIs(" ", text, "");
    assert " " + text + "" == " " + text;
  }

  /** A second slash in front of a text that starts with one makes it a message at the default level. */
  lemma DoubledSlashIsAMessage(text: string, defaultLevel: Level)
    requires text != "" && text[0] == '/' && IsBare(text)
    ensures ParseUserInput("/" + text, defaultLevel) == Message(defaultLevel, text)
  {
    var line := "/" + text;
    assert line[|line| - 1] == text[|text| - 1];
    TrimOfBare(line);
    assert line[1..] == text;
  }

  /** What is queued as a message is never empty and never starts or ends with a blank. */
  lemma MessagesAreBare(line: string, defaultLevel: Level)
    requires ParseUserInput(line, defaultLevel).Message?
    ensures var m := ParseUserInput(line, defaultLevel); m.text != "" && IsBare(m.text)
    ensures var m := ParseUserInput(line, defaultLevel); m.level == defaultLevel || IsValidLevel(m.level)
  {
    hide Trim, ParseLevel, FirstBlank;
    var t := Trim(line);
    if |t| > 1 && t[1] == '/' {
      assert t[1..][|t| - 2] == t[|t| - 1];
    }
  }

  /** The result depends on the default level. */
  predicate TakesDefault(line: string) {
    ParseUserInput(line, DEBUG) != ParseUserInput(line, INFO)
  }

  /** A line either is a message at whatever the default level is, or ignores it altogether. */
  lemma DefaultIsTakenOrIgnored(line: string, a: Level, b: Level)
    ensures TakesDefault(line) ==> ParseUserInput(line, a).Message? && ParseUserInput(line, a).level == a
    ensures TakesDefault(line) ==> ParseUserInput(line, b) == ParseUserInput(line, a).(level := b)
    ensures !TakesDefault(line) ==> ParseUserInput(line, a) == ParseUserInput(line, b)
  {
    hide Trim, ParseCommand, ParseLevel;
  }

  ghost predicate CanBeTypedAtDefault(text: string) {
    exists line :: TypesAtDefault(line, text)
  }

  predicate TypesAtDefault(line: string, text: string) {
    TakesDefault(line) && ParseUserInput(line, DEBUG) == Message(DEBUG, text)
  }

  /** Exactly these texts can be logged without naming a level: bare, not empty, and starting with a slash or
      with a word that names no level. */
  lemma DefaultTexts(text: string)
    ensures CanBeTypedAtDefault(text) <==>
            text != "" && IsBare(text) && (text[0] == '/' || ParseLevel(SplitFirstWord(text).0).None?)
  {
    hide Trim, ParseCommand, ParseLevel, FirstBlank;
    if text != "" && IsBare(text) && text[0] == '/' {
      DoubledSlashIsAMessage(text, DEBUG);
      DoubledSlashIsAMessage(text, INFO);
      assert TypesAtDefault("/" + text, text);
    } else if text != "" && IsBare(text) && ParseLevel(SplitFirstWord(text).0).None? {
      TrimOfBare(text);
      assert TypesAtDefault(text, text);
    }
    if line :| TypesAtDefault(line, text) {
      MessagesAreBare(line, DEBUG);
    }
  }

  // ----- commands -----

  lemma BlanksAre(c: char)
    ensures IsBlank(c) <==> c == ' ' || c == '\t'
  {
  }

  predicate IsWord(word: string) {
    word != "" && forall k | 0 <= k < |word| :: !IsBlank(word[k])
  }

  /** The first word ends at the first blank. */
  lemma FirstWordIs(word: string, tail: string)
    requires IsWord(word) && (tail == "" || IsBlank(tail[0]))
    ensures SplitFirstWord(word + tail) == (word, tail)
  {
    assert forall k | 0 <= k < |word| :: (word + tail)[k] == word[k];
    FirstBlankIs(word + tail, |word|);
    assert (word + tail)[..|word|] == word && (word + tail)[|word|..] == tail;
  }

  /** What each line that starts with a single slash comes to, whatever the default. */
  lemma CommandsAre(word: string, tail: string, defaultLevel: Level)
    requires IsWord(word) && word[0] == '/' && !(|word| > 1 && word[1] == '/')
    requires (tail == "" || IsBlank(tail[0])) && IsBare(word + tail)
    ensures var input := ParseUserInput(word + tail, defaultLevel);
            if word == "/quit" then input == QuitCommand
            else if word == "/help" then input == HelpCommand
            else if word != "/level" then input == Error("unknown command: " + word + " (type /help)")
            else if Trim(tail) == "" then input == Error("usage: /level <name>")
            else match ParseLevel(Trim(tail)) case Some(level) => input == LevelCommand(level)
                                              case None => input == Error("unknown level: " + Trim(tail))
  {
    var line := word + tail;
    TrimOfBare(line);
    FirstWordIs(word, tail);
    assert line[0] == word[0] && (|word| > 1 ==> line[1] == word[1]);
    assert |word| == 1 && |line| > 1 ==> line[1] == tail[0];
    hide Trim, ParseLevel, SplitFirstWord;
  }

  /** A level named after the command, with one blank or more between, becomes the default. */
  lemma NamedLevelIsSet(name: string, defaultLevel: Level)
    requires name != "" && IsBare(name) && ParseLevel(name).Some?
    ensures ParseUserInput("/level" + " " + name, defaultLevel) == LevelCommand(ParseLevel(name).value)
  {
    hide Trim, ParseUserInput, ParseLevel;
    TrimIs(" ", name, "");
    assert " " + name + "" == " " + name;
    assert "/level" + " " + name == "/level" + (" " + name);
    EndsBare("/level", " " + name);
    CommandsAre("/level", " " + name, defaultLevel);
  }

  lemma EndsBare(word: string, tail: string)
    requires word != "" && tail != "" && !IsBlank(word[0]) && !IsBlank(tail[|tail| - 1])
    ensures IsBare(word + tail)
  {
  }

  /** Every level can be made the default. */
  lemma EveryLevelCanBeSet(level: Level, defaultLevel: Level)
    requires IsValidLevel(level)
    ensures ParseUserInput("/level" + " " + LevelName(level), defaultLevel) == LevelCommand(level)
  {
    NamesAreLetters(level);
    assert forall k | 0 <= k < |LevelName(level)| :: LevelName(level)[k] in LevelName(level);
    LevelRoundTrip(level);
    hide LevelName, ParseLevel, ParseUserInput;
    NamedLevelIsSet(LevelName(level), defaultLevel);
  }

  /** A level without a text, and nothing at all. */
  lemma IncompleteLines(level: Level, defaultLevel: Level)
    requires IsValidLevel(level)
    ensures ParseUserInput(LevelName(level), defaultLevel) == Error("message text is missing")
    ensures ParseUserInput("", defaultLevel) == EmptyLine
  {
    var name := LevelName(level);
    NamesAreLetters(level);
    assert forall k | 0 <= k < |name| :: name[k] in name;
    LevelRoundTrip(level);
    hide LevelName, ParseLevel;
    TrimOfBare(name);
    TrimOfBare("");
    FirstWordIs(name, "");
    assert name + "" == name;
    hide Trim, SplitFirstWord;
  }
}
