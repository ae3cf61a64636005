/** Text helpers (common/Text.hpp and the searches of std::string_view).  A byte is a `char` below 256;
    nothing here needs the bound, so every statement covers every string of bytes. */
module Text {
  import opened Wrappers

  lemma Regroup<T>(a: seq<T>, b: seq<T>, c: seq<T>)
    ensures (a + b) + c == a + (b + c)
  {
  }

  function Min(a: int, b: int): (least: int)
    ensures least <= a && least <= b && (least == a || least == b)
  {
    if a <= b then a else b
  }

  predicate IsDigit(c: char) {
    '0' <= c <= '9'
  }

  predicate AllDigits(s: string) {
    forall i | 0 <= i < |s| :: IsDigit(s[i])
  }

  function ToLower(c: char): (lower: char)
    ensures 'A' <= c <= 'Z' ==> lower as int == c as int + 32
    ensures !('A' <= c <= 'Z') ==> lower == c
  {
    if 'A' <= c <= 'Z' then c - 'A' + 'a' else c
  }

  predicate EqualsIgnoreCase(a: string, b: string) {
    |a| == |b| && forall i | 0 <= i < |a| :: ToLower(a[i]) == ToLower(b[i])
  }

  /** The first position of `c` at or after `from`; the length when there is none. */
  function Find(s: string, c: char, from: nat): (at: nat)
    requires from <= |s|
    ensures from <= at <= |s|
    ensures c !in s[from..at]
    ensures at < |s| ==> s[at] == c
    decreases |s| - from
  {
    if from == |s| || s[from] == c then from
    else
      var at := Find(s, c, from + 1);
      assert s[from..at] == [s[from]] + s[from + 1..at];
      at
  }

  /** The first position is the only one with nothing equal before it. */
  lemma {:induction false} FindIsFirst(s: string, c: char, from: nat, at: nat)
    requires from <= at <= |s|
    requires c !in s[from..at]
    requires at < |s| ==> s[at] == c
    ensures Find(s, c, from) == at
    decreases at - from
  {
    if from < at {
      assert s[from] in s[from..at];
      assert s[from + 1..at] == s[from..at][1..];
      FindIsFirst(s, c, from + 1, at);
    }
  }

  // ----- decimal numbers -----

  function DigitValue(c: char): int
    requires IsDigit(c)
  {
    c as int - '0' as int
  }

  function DigitChar(d: int): (c: char)
    requires 0 <= d < 10
    ensures IsDigit(c) && DigitValue(c) == d
  {
    '0' + d as char
  }

  /** The number a row of digits stands for. */
  function NumberOf(digits: string): (n: int)
    requires AllDigits(digits)
    ensures n >= 0
  {
    if digits == "" then 0
    else NumberOf(digits[..|digits| - 1]) * 10 + DigitValue(digits[|digits| - 1])
  }

  /** Digits are read with the most significant first. */
  lemma OneMoreDigit(digits: string, d: char)
    requires AllDigits(digits) && '0' <= d <= '9'
    ensures AllDigits(digits + [d]) && NumberOf(digits + [d]) == NumberOf(digits) * 10 + (d as int - 48)
    ensures NumberOf("") == 0
  {
    assert (digits + [d])[..|digits|] == digits;
  }

  const INT_MAX := 2147483647

  /** std::from_chars over the whole text for an `int`: an optional minus, then digits. */
  function ParseInt(text: string): Option<int> {
    var negative := text != "" && text[0] == '-';
    var digits := if negative then text[1..] else text;
    if digits == "" || !AllDigits(digits) then None
    else
      var value := if negative then -NumberOf(digits) else NumberOf(digits);
      if -INT_MAX - 1 <= value <= INT_MAX then Some(value) else None
  }

  /** Exactly the optional minus and one digit or more, within 32 bits, are read. */
  lemma ParseIntIsExact(digits: string)
    requires digits != "" && AllDigits(digits)
    ensures ParseInt(digits) == if NumberOf(digits) < 0x8000_0000 then Some(NumberOf(digits)) else None
    ensures ParseInt("-" + digits) == if NumberOf(digits) <= 0x8000_0000 then Some(-NumberOf(digits)) else None
  {
    assert ("-" + digits)[1..] == digits;
    assert digits[0] != '-';
  }

  lemma OtherTextIsNoInt(text: string)
    requires !(text != "" && AllDigits(text)) && !(|text| > 1 && text[0] == '-' && AllDigits(text[1..]))
    ensures ParseInt(text).None?
  {
  }

  function Pow10(k: nat): (p: int)
    ensures p >= 1
  {
    if k == 0 then 1 else 10 * Pow10(k - 1)
  }

  lemma {:induction false} NumberIsBelowPower(digits: string)
    requires AllDigits(digits)
    ensures NumberOf(digits) < Pow10(|digits|)
  {
    if digits != "" {
      NumberIsBelowPower(digits[..|digits| - 1]);
    }
  }

  /** Exactly `width` digits, the high ones cut off when the number is too long. */
  function Padded(n: nat, width: nat): (s: string)
    ensures |s| == width && AllDigits(s)
  {
    if width == 0 then "" else Padded(n / 10, width - 1) + [DigitChar(n % 10)]
  }

  /** Printing and reading at a fixed width are mutually inverse. */
  lemma {:induction false} PaddedReadsBack(n: nat, width: nat)
    requires n < Pow10(width)
    ensures NumberOf(Padded(n, width)) == n
  {
    if width > 0 {
      PaddedReadsBack(n / 10, width - 1);
      var s := Padded(n, width);
      assert s[..width - 1] == Padded(n / 10, width - 1);
    }
  }

  lemma {:induction false} ReadPrintsBack(digits: string)
    requires AllDigits(digits)
    ensures Padded(NumberOf(digits), |digits|) == digits
  {
    if digits != "" {
      var high := digits[..|digits| - 1];
      ReadPrintsBack(high);
      assert digits == high + [digits[|digits| - 1]];
    }
  }

  /** A number without leading zeros. */
  function Decimal(n: nat): (s: string)
    ensures |s| > 0 && AllDigits(s)
  {
    if n < 10 then [DigitChar(n)] else Decimal(n / 10) + [DigitChar(n % 10)]
  }

  function Zeros(k: nat): (s: string)
    ensures |s| == k && AllDigits(s)
  {
    seq(k, _ => '0')
  }

  /** `%0<width>d` of printf: the sign counts towards the width. */
  function Printed(n: int, width: nat): (s: string)
    ensures |s| >= width
  {
    var body := Decimal(if n < 0 then -n else n);
    var sign := if n < 0 then "-" else "";
    var used := |sign| + |body|;
    sign + Zeros(if used < width then width - used else 0) + body
  }

  /** A number that fits is printed at exactly the width; a larger one needs more. */
  lemma {:induction false} PrintedFits(n: nat, width: nat)
    requires width > 0
    ensures n < Pow10(width) ==> Printed(n, width) == Padded(n, width)
    ensures n >= Pow10(width) ==> |Printed(n, width)| > width
  {
    if n < 10 {
      assert Decimal(n) == [DigitChar(n)];
      SmallIsPadded(n, width);
      if width > 1 {
        assert Pow10(width) >= 10;
      }
    } else if width == 1 {
      assert Pow10(1) == 10;
    } else {
      PrintedFits(n / 10, width - 1);
      assert Decimal(n) == Decimal(n / 10) + [DigitChar(n % 10)];
      assert Printed(n, width) == Printed(n / 10, width - 1) + [DigitChar(n % 10)];
    }
  }

  lemma {:induction false} SmallIsPadded(n: nat, width: nat)
    requires n < 10 && width > 0
    ensures Padded(n, width) == Zeros(width - 1) + [DigitChar(n)]
  {
    if width > 1 {
      SmallIsPadded(0, width - 1);
      assert Zeros(width - 1) == Zeros(width - 2) + [DigitChar(0)];
    }
  }
}
