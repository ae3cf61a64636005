/** The escaping of message text (logger/src/LogRecord.cpp, lines 62-97 and 166-215). */
module Escaping {
  import opened Text

  const BACKSLASH := '\\'

  /** The letter of a two-character escape, NUL when there is none. */
  function ShortEscape(c: char): char {
    match c
    case '\\' => '\\'
    case '\n' => 'n'
    case '\r' => 'r'
    case '\t' => 't'
    case _ => '\0'
  }

  function ShortUnescape(c: char): char {
    match c
    case '\\' => '\\'
    case 'n' => '\n'
    case 'r' => '\r'
    case 't' => '\t'
    case _ => '\0'
  }

  function HexValue(c: char): (v: int)
    ensures -1 <= v < 16
    ensures v >= 0 <==> '0' <= c <= '9' || 'A' <= c <= 'F' || 'a' <= c <= 'f'
  {
    if '0' <= c <= '9' then c as int - '0' as int
    else if 'A' <= c <= 'F' then c as int - 'A' as int + 10
    else if 'a' <= c <= 'f' then c as int - 'a' as int + 10
    else -1
  }

  const HEX_DIGITS := "0123456789ABCDEF"

  predicate IsControl(c: char) {
    c < 0x20 as char || c == 0x7F as char
  }

  function EscapeChar(c: char): string {
    if ShortEscape(c) != '\0' then [BACKSLASH, ShortEscape(c)]
    else if IsControl(c) then [BACKSLASH, 'x', HEX_DIGITS[c as int / 16], HEX_DIGITS[c as int % 16]]
    else [c]
  }

  function Escape(message: string): string {
    if message == "" then "" else EscapeChar(message[0]) + Escape(message[1..])
  }

  /** The first character an escaped text stands for, and how much of the text it takes. */
  datatype Unit = Unit(value: char, width: nat)

  function FirstUnit(text: string): (u: Unit)
    requires text != ""
    ensures 1 <= u.width <= |text|
  {
    if text[0] != BACKSLASH || |text| == 1 then Unit(text[0], 1)
    else if ShortUnescape(text[1]) != '\0' then Unit(ShortUnescape(text[1]), 2)
    else if text[1] == 'x' && |text| > 3 && HexValue(text[2]) >= 0 && HexValue(text[3]) >= 0 then
      Unit((HexValue(text[2]) * 16 + HexValue(text[3])) as char, 4)
    else Unit(text[0], 1)
  }

  function Unescape(text: string): string {
    if text == "" then "" else
      var u := FirstUnit(text);
      [u.value] + Unescape(text[u.width..])
  }

  // ----- the program's loops -----

  method EscapeMessage(message: string) returns (out: string)
    ensures out == Escape(message)
  {
    hide Escape, ShortEscape;
    out := "";
    for i := 0 to |message|
      invariant Escape(message) == out + Escape(message[i..])
    {
      var c := message[i];
      ghost var done := out;
      if ShortEscape(c) != '\0' {
        out := out + [BACKSLASH];
        out := out + [ShortEscape(c)];
      } else if IsControl(c) {
        out := out + "\\x";
        out := out + [HEX_DIGITS[c as int / 16]];
        out := out + [HEX_DIGITS[c as int % 16]];
      } else {
        out := out + [c];
      }
      assert out == done + EscapeChar(c);
      EscapeStep(message, i, done);
    }
    NothingIsLeft(message, out);
  }

  method UnescapeMessage(message: string) returns (out: string)
    ensures out == Unescape(message)
  {
    hide Unescape, HexValue, ShortUnescape;
    out := "";
    var i := 0;
    while i < |message|
      invariant i <= |message|
      invariant Unescape(message) == out + Unescape(message[i..])
    {
      UnescapeStep(message, i, out);
      if message[i] != BACKSLASH || i + 1 == |message| {
        out := out + [message[i]];
        i := i + 1;
        continue;
      }
      var plain := ShortUnescape(message[i + 1]);
      if plain != '\0' {
        out := out + [plain];
        i := i + 2;
        continue;
      }
      if message[i + 1] == 'x' && i + 3 < |message| {
        var high := HexValue(message[i + 2]);
        var low := HexValue(message[i + 3]);
        if high >= 0 && low >= 0 {
          out := out + [(high * 16 + low) as char];
          i := i + 4;
          continue;
        }
      }
      out := out + [message[i]];
      i := i + 1;
    }
    NothingIsLeft(message, out);
  }

  lemma NothingIsLeft(message: string, out: string)
    ensures out + Escape(message[|message|..]) == out
    ensures out + Unescape(message[|message|..]) == out
  {
  }

  lemma EscapeStep(message: string, i: nat, done: string)
    requires i < |message|
    ensures done + Escape(message[i..]) == (done + EscapeChar(message[i])) + Escape(message[i + 1..])
  {
    assert message[i..][1..] == message[i + 1..];
    Regroup(done, EscapeChar(message[i]), Escape(message[i + 1..]));
  }

  lemma UnescapeStep(message: string, i: nat, done: string)
    requires i < |message|
    ensures var u := FirstUnit(message[i..]);
            done + Unescape(message[i..]) == (done + [u.value]) + Unescape(message[i + u.width..])
  {
    var u := FirstUnit(message[i..]);
    assert message[i..][u.width..] == message[i + u.width..];
    Regroup(done, [u.value], Unescape(message[i + u.width..]));
  }

  // ----- unescaping undoes escaping -----

  lemma HexDigitsReadBack(d: int)
    requires 0 <= d < 16
    ensures HexValue(HEX_DIGITS[d]) == d
  {
  }

  /** The text of one escaped character is exactly the first unit, whatever follows it. */
  lemma EscapedCharIsOneUnit(c: char, rest: string)
    ensures FirstUnit(EscapeChar(c) + rest) == Unit(c, |EscapeChar(c)|)
  {
    if ShortEscape(c) == '\0' && IsControl(c) {
      HexDigitsReadBack(c as int / 16);
      HexDigitsReadBack(c as int % 16);
    }
  }

  lemma UnescapeAfterUnit(head: string, rest: string, c: char)
    requires head != "" && FirstUnit(head + rest) == Unit(c, |head|)
    ensures Unescape(head + rest) == [c] + Unescape(rest)
  {
    assert (head + rest)[|head|..] == rest;
  }

  /** Escaped text can be followed by anything without changing what it stands for. */
  lemma {:induction false} UnescapeUndoesEscape(s: string, rest: string)
    ensures Unescape(Escape(s) + rest) == s + Unescape(rest)
  {
    if s == "" {
      assert Escape(s) + rest == rest;
    } else {
      var head, tail := EscapeChar(s[0]), Escape(s[1..]);
      Regroup(head, tail, rest);
      EscapedCharIsOneUnit(s[0], tail + rest);
      UnescapeAfterUnit(head, tail + rest, s[0]);
      UnescapeUndoesEscape(s[1..], rest);
      Regroup([s[0]], s[1..], Unescape(rest));
      assert [s[0]] + s[1..] == s;
    }
  }

  lemma EscapeRoundTrip(s: string)
    ensures Unescape(Escape(s)) == s
  {
    UnescapeUndoesEscape(s, "");
    assert Escape(s) + "" == Escape(s);
  }

  lemma EscapeIsInjective(s: string, t: string)
    requires Escape(s) == Escape(t)
    ensures s == t
  {
    EscapeRoundTrip(s);
    EscapeRoundTrip(t);
  }

  // ----- what escaped text looks like -----

  lemma EscapedCharIsPrintable(c: char)
    ensures forall e | e in EscapeChar(c) :: !IsControl(e)
    ensures 1 <= |EscapeChar(c)| <= 4
  {
    assert forall i | 0 <= i < 16 :: !IsControl(HEX_DIGITS[i]);
  }

  lemma {:induction false} EscapedTextIsPrintable(s: string)
    ensures forall c | c in Escape(s) :: !IsControl(c)
    ensures |s| <= |Escape(s)| <= 4 * |s|
  {
    hide EscapeChar, IsControl;
    if s != "" {
      EscapedTextIsPrintable(s[1..]);
      EscapedCharIsPrintable(s[0]);
    }
  }

  lemma {:induction false} UnescapeNeverGrows(text: string)
    ensures |Unescape(text)| <= |text|
  {
    if text != "" {
      UnescapeNeverGrows(text[FirstUnit(text).width..]);
    }
  }

  /** One item of well-escaped text, described by its spelling alone. */
  predicate IsItem(u: string) {
    || (|u| == 1 && u[0] != BACKSLASH && !IsControl(u[0]))
    || (|u| == 2 && u[0] == BACKSLASH && u[1] in "\\nrt")
    || (|u| == 4 && u[..2] == "\\x" && u[2] in HEX_DIGITS && u[3] in HEX_DIGITS &&
        var code := HexValue(u[2]) * 16 + HexValue(u[3]);
        IsControl(code as char) && (code as char) !in "\n\r\t")
  }

  predicate StartsWithItem(text: string, width: nat) {
    width <= |text| && IsItem(text[..width])
  }

  predicate IsWellEscaped(text: string) {
    text == "" ||
    (StartsWithItem(text, 1) && IsWellEscaped(text[1..])) ||
    (StartsWithItem(text, 2) && IsWellEscaped(text[2..])) ||
    (StartsWithItem(text, 4) && IsWellEscaped(text[4..]))
  }

  lemma ItemIsEscapedChar(text: string, width: nat)
    requires 0 < width <= |text| && IsItem(text[..width])
    ensures FirstUnit(text).width == width
    ensures EscapeChar(FirstUnit(text).value) == text[..width]
  {
    var u := text[..width];
    var rest := text[width..];
    assert text == u + rest;
    if width == 1 {
      assert u == [u[0]];
    } else if width == 2 {
      assert u == [u[0], u[1]];
    } else {
      LongItemIsEscapedChar(u, rest);
    }
  }

  lemma LongItemIsEscapedChar(u: string, rest: string)
    requires |u| == 4 && IsItem(u)
    ensures FirstUnit(u + rest).width == 4
    ensures EscapeChar(FirstUnit(u + rest).value) == u
  {
    hide HexValue, EscapeChar;
    assert u[..2] == "\\x";
    assert u[0] == u[..2][0] == BACKSLASH && u[1] == u[..2][1] == 'x';
    UpperHexReadsBack(u[2]);
    UpperHexReadsBack(u[3]);
    var code := HexValue(u[2]) * 16 + HexValue(u[3]);
    assert FirstUnit(u + rest) == Unit(code as char, 4);
    ControlIsSpeltInHex(HexValue(u[2]), HexValue(u[3]));
  }

  lemma ControlIsSpeltInHex(high: int, low: int)
    requires 0 <= high < 16 && 0 <= low < 16
    requires var c := (high * 16 + low) as char; IsControl(c) && c !in "\n\r\t"
    ensures EscapeChar((high * 16 + low) as char) == [BACKSLASH, 'x', HEX_DIGITS[high], HEX_DIGITS[low]]
  {
  }

  lemma UpperHexReadsBack(c: char)
    requires c in HEX_DIGITS
    ensures 0 <= HexValue(c) < 16 && HEX_DIGITS[HexValue(c)] == c
  {
    var d :| 0 <= d < 16 && HEX_DIGITS[d] == c;
    HexDigitsReadBack(d);
  }

  lemma EscapedCharIsItem(c: char)
    ensures IsItem(EscapeChar(c))
  {
    var u := EscapeChar(c);
    if ShortEscape(c) == '\0' && IsControl(c) {
      HexDigitsReadBack(c as int / 16);
      HexDigitsReadBack(c as int % 16);
      assert u[..2] == "\\x";
    }
  }

  lemma {:induction false} EscapeIsWellEscaped(s: string)
    ensures IsWellEscaped(Escape(s))
  {
    if s != "" {
      var text := Escape(s);
      var head := EscapeChar(s[0]);
      EscapedCharIsItem(s[0]);
      EscapeIsWellEscaped(s[1..]);
      assert text[..|head|] == head && text[|head|..] == Escape(s[1..]);
      assert |head| == 1 || |head| == 2 || |head| == 4;
    }
  }

  lemma {:induction false} WellEscapedIsStable(text: string)
    requires IsWellEscaped(text)
    ensures Escape(Unescape(text)) == text
  {
    if text != "" {
      var width := if StartsWithItem(text, 1) && IsWellEscaped(text[1..]) then 1
                   else if StartsWithItem(text, 2) && IsWellEscaped(text[2..]) then 2 else 4;
      ItemIsEscapedChar(text, width);
      WellEscapedIsStable(text[width..]);
      var u := FirstUnit(text);
      assert Unescape(text) == [u.value] + Unescape(text[width..]);
      assert Escape(Unescape(text)) == EscapeChar(u.value) + Escape(Unescape(text[width..]));
      assert text == text[..width] + text[width..];
    }
  }

  /** The texts that survive unescaping and escaping again are exactly the well-escaped ones, and these are
      exactly the outputs of `Escape`. */
  lemma WellEscapedIsTheImage(text: string)
    ensures IsWellEscaped(text) <==> Escape(Unescape(text)) == text
    ensures IsWellEscaped(text) <==> exists s :: Escape(s) == text
  {
    if IsWellEscaped(text) {
      WellEscapedIsStable(text);
    }
    if s :| Escape(s) == text {
      EscapeIsWellEscaped(s);
    }
    if Escape(Unescape(text)) == text {
      EscapeIsWellEscaped(Unescape(text));
    }
  }

  // ----- the spelling -----

  /** How each character is spelt. */
  lemma EscapeSpelling(c: char)
    ensures Escape([c]) ==
            if c == '\\' then "\\\\" else if c == '\n' then "\\n" else if c == '\r' then "\\r"
            else if c == '\t' then "\\t"
            else if c as int < 32 || c as int == 127
            then "\\x" + [UpperHex(c as int / 16), UpperHex(c as int % 16)] else [c]
  {
    assert Escape([c]) == EscapeChar(c) + Escape([c][1..]) == EscapeChar(c);
    if IsControl(c) {
      DigitsAreUpperHex(c as int / 16);
      DigitsAreUpperHex(c as int % 16);
    }
  }

  /** The upper-case hexadecimal digit of a number. */
  function UpperHex(d: int): char
    requires 0 <= d < 16
  {
    if d < 10 then (48 + d) as char else (55 + d) as char
  }

  lemma DigitsAreUpperHex(d: int)
    requires 0 <= d < 16
    ensures HEX_DIGITS[d] == UpperHex(d)
  {
  }

  /** Text is escaped character by character. */
  lemma {:induction false} EscapeOfConcat(s: string, t: string)
    ensures Escape(s + t) == Escape(s) + Escape(t)
  {
    if s == "" {
      assert s + t == t;
    } else {
      assert (s + t)[1..] == s[1..] + t;
      EscapeOfConcat(s[1..], t);
      Regroup(EscapeChar(s[0]), Escape(s[1..]), Escape(t));
    }
  }

  predicate IsHex(c: char) {
    '0' <= c <= '9' || 'A' <= c <= 'F' || 'a' <= c <= 'f'
  }

  /** The value of a hexadecimal digit in either case. */
  lemma HexValues(c: char)
    ensures HexValue(c) >= 0 <==> IsHex(c)
    ensures '0' <= c <= '9' ==> HexValue(c) == c as int - 48
    ensures 'A' <= c <= 'F' ==> HexValue(c) == c as int - 55
    ensures 'a' <= c <= 'f' ==> HexValue(c) == c as int - 87
  {
  }

  /** Each escape reads as its character, and a backslash that begins none is kept. */
  lemma UnescapeSpelling(rest: string)
    ensures Unescape("") == "" && Unescape("\\") == "\\"
    ensures Unescape("\\\\" + rest) == "\\" + Unescape(rest) && Unescape("\\n" + rest) == "\n" + Unescape(rest)
    ensures Unescape("\\r" + rest) == "\r" + Unescape(rest) && Unescape("\\t" + rest) == "\t" + Unescape(rest)
  {
    UnitReads("\\\\", rest);
    UnitReads("\\n", rest);
    UnitReads("\\r", rest);
    UnitReads("\\t", rest);
  }

  lemma UnitReads(unit: string, rest: string)
    requires |unit| == 2 && unit[0] == BACKSLASH && ShortUnescape(unit[1]) != '\0'
    ensures Unescape(unit + rest) == [ShortUnescape(unit[1])] + Unescape(rest)
  {
    assert (unit + rest)[2..] == rest;
  }

  lemma HexUnescapes(high: char, low: char, rest: string)
    requires IsHex(high) && IsHex(low)
    ensures Unescape("\\x" + [high, low] + rest) ==
            [(HexValue(high) * 16 + HexValue(low)) as char] + Unescape(rest)
  {
    var text := "\\x" + [high, low] + rest;
    assert text[..4] == "\\x" + [high, low] && text[4..] == rest;
    assert text[0] == BACKSLASH && text[1] == 'x' && text[2] == high && text[3] == low;
  }

  lemma OtherTextIsKept(text: string)
    requires text != ""
    requires |text| > 1 && text[0] == '\\' ==> text[1] != '\\' && text[1] != 'n' && text[1] != 'r' && text[1] != 't'
    requires |text| > 3 && text[0] == '\\' && text[1] == 'x' ==> !IsHex(text[2]) || !IsHex(text[3])
    ensures Unescape(text) == [text[0]] + Unescape(text[1..])
  {
    FirstUnitIsKept(text);
    hide FirstUnit;
  }

  lemma FirstUnitIsKept(text: string)
    requires text != ""
    requires |text| > 1 && text[0] == '\\' ==> text[1] != '\\' && text[1] != 'n' && text[1] != 'r' && text[1] != 't'
    requires |text| > 3 && text[0] == '\\' && text[1] == 'x' ==> !IsHex(text[2]) || !IsHex(text[3])
    ensures FirstUnit(text) == Unit(text[0], 1)
  {
    if |text| > 3 {
      HexValues(text[2]);
      HexValues(text[3]);
    }
    hide HexValue, Unescape, Escape;
  }
}
