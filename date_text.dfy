/**
 * Due dates and their text form.
 *
 * A `LocalDateTime` carries no zone and no daylight-saving rule, so a due date is
 * modelled as a whole number of seconds since 1970-01-01T00:00 (negative before).
 * Java renders and parses it with the ISO-8601 local date-time grammar; that
 * grammar belongs to java.time, not to this program, and is stood in for here by
 * a signed decimal numeral. What the program needs from the pair is kept: the
 * text of a date parses back to the same date, it holds no tab and no white
 * space, and text that is not a date is refused.
 */
module DateText {
  import opened Wrappers

  /** Due dates, in seconds. */
  type DateTime = int

  const SECONDS_PER_MINUTE: int := 60
  const SECONDS_PER_DAY: int := 24 * 60 * 60

  predicate IsDigit(c: char) { '0' <= c <= '9' }

  function DigitChar(d: nat): (c: char)
    requires d < 10
    ensures IsDigit(c)
  {
    ('0' as int + d) as char
  }

  /** The decimal digits of `n`, most significant first, without leading zeros. */
  function Digits(n: nat): (s: string)
    ensures |s| >= 1
    ensures forall i :: 0 <= i < |s| ==> IsDigit(s[i])
  {
    if n < 10 then [DigitChar(n)] else Digits(n / 10) + [DigitChar(n % 10)]
  }

  /** The value of a string of decimal digits. */
  function DigitsValue(s: string): nat
    requires forall i :: 0 <= i < |s| ==> IsDigit(s[i])
  {
    if s == [] then 0
    else
      assert IsDigit(s[|s| - 1]);
      DigitsValue(s[..|s| - 1]) * 10 + (s[|s| - 1] as int - '0' as int)
  }

  lemma {:induction false} DigitsValueOfDigits(n: nat)
    ensures DigitsValue(Digits(n)) == n
  {
    if n >= 10 {
      DigitsValueOfDigits(n / 10);
      var s := Digits(n);
      assert s[..|s| - 1] == Digits(n / 10);
    }
  }

  /** The text of a due date (stands in for `LocalDateTime.toString`). */
  function Render(t: DateTime): string
  {
    if t < 0 then ['-'] + Digits(-t) else Digits(t)
  }

  /** Reads a due date (stands in for `LocalDateTime.parse`); `None` is a `DateTimeParseException`. */
  function Parse(s: string): (r: Option<DateTime>)
    ensures r.Some? ==> s != [] && (s[0] == '-' || IsDigit(s[0]))
  {
    if s != [] && s[0] == '-' && |s| >= 2 && (forall i :: 1 <= i < |s| ==> IsDigit(s[i])) then
      Some(0 - DigitsValue(s[1..]) as int)
    else if s != [] && forall i :: 0 <= i < |s| ==> IsDigit(s[i]) then
      Some(DigitsValue(s))
    else
      None
  }

  /** A numeral parses to its value. */
  lemma ParseNumeral(d: string)
    requires d != [] && forall i :: 0 <= i < |d| ==> IsDigit(d[i])
    ensures Parse(d) == Some(DigitsValue(d))
  {
    assert d[0] != '-' by {
      assert IsDigit(d[0]);
    }
  }

  /** A minus sign followed by a numeral parses to the negated value. */
  lemma ParseNegatedNumeral(d: string)
    requires d != [] && forall i :: 0 <= i < |d| ==> IsDigit(d[i])
    ensures Parse(['-'] + d) == Some(0 - DigitsValue(d))
  {
    var s := ['-'] + d;
    assert s[1..] == d;
    forall i | 1 <= i < |s| ensures IsDigit(s[i]) {
      assert s[i] == d[i - 1];
    }
  }

  /** The text of a date parses back to that date. */
  lemma ParseRender(t: DateTime)
    ensures Parse(Render(t)) == Some(t)
  {
    if t < 0 {
      ParseNegatedNumeral(Digits(-t));
      DigitsValueOfDigits(-t);
    } else {
      ParseNumeral(Digits(t));
      DigitsValueOfDigits(t);
    }
  }

  /** The text of a date is not empty and holds no tab, no line break and no white space at all. */
  lemma RenderIsPlain(t: DateTime)
    ensures |Render(t)| >= 1
    ensures forall i :: 0 <= i < |Render(t)| ==> Render(t)[i] > ' '
  {
  }

  /** A non-empty string of decimal digits. */
  predicate IsNumeral(s: string)
  {
    s != [] && forall i :: 0 <= i < |s| ==> IsDigit(s[i])
  }

  /** The texts that parse are exactly the numerals, with or without one leading minus sign. */
  lemma ParseAcceptsExactlyNumerals(s: string)
    ensures Parse(s).Some? <==> IsNumeral(s) || (s != [] && s[0] == '-' && IsNumeral(s[1..]))
  {
  }

  /** Two texts that are not dates, "not-a-date" and the empty text, are refused. */
  lemma NotADateIsRefused()
    ensures Parse("not-a-date") == None
    ensures Parse("") == None
  {
    assert !IsDigit("not-a-date"[0]);
  }
}
