/**
 * The timestamps of a record (`chrono::NaiveDateTime` at whole seconds), their
 * order, and the one text form the codec uses, `%Y-%m-%d %H:%M:%S`.
 */
module Timestamp {
  import opened Wrappers
  import opened Text

  datatype DateTime = DateTime(year: int, month: int, day: int, hour: int, minute: int, second: int)

  predicate IsLeapYear(y: int)
  {
    y % 4 == 0 && (y % 100 != 0 || y % 400 == 0)
  }

  /** Days in a month of the proleptic Gregorian calendar. */
  function DaysInMonth(y: int, m: int): int
  {
    if m == 2 then (if IsLeapYear(y) then 29 else 28)
    else if m == 4 || m == 6 || m == 9 || m == 11 then 30
    else 31
  }

  /**
   * A real calendar date and time of day, with a four-digit year. Second 60 is the leap
   * second that `%S` reads and writes; `NaiveDateTime` holds it as second 59 plus a whole
   * second of nanoseconds, so it orders after second 59 and before the next minute.
   */
  predicate Valid(t: DateTime)
  {
    && 0 <= t.year <= 9999
    && 1 <= t.month <= 12
    && 1 <= t.day <= DaysInMonth(t.year, t.month)
    && 0 <= t.hour < 24
    && 0 <= t.minute < 60
    && 0 <= t.second <= 60
  }

  type Timestamp = t: DateTime | Valid(t) witness DateTime(1970, 1, 1, 0, 0, 0)

  /** `a` is strictly earlier than `b`: date first, then time of day, as `NaiveDateTime`'s `Ord`. */
  predicate Before(a: DateTime, b: DateTime)
  {
    if a.year != b.year then a.year < b.year
    else if a.month != b.month then a.month < b.month
    else if a.day != b.day then a.day < b.day
    else if a.hour != b.hour then a.hour < b.hour
    else if a.minute != b.minute then a.minute < b.minute
    else a.second < b.second
  }

  /** `Before` is a strict total order. */
  lemma BeforeIsStrictTotalOrder(a: DateTime, b: DateTime, c: DateTime)
    ensures !Before(a, a)
    ensures Before(a, b) ==> !Before(b, a)
    ensures Before(a, b) && Before(b, c) ==> Before(a, c)
    ensures a == b || Before(a, b) || Before(b, a)
  {
  }

  /** The text `format("%Y-%m-%d %H:%M:%S")` gives for `t`: 19 characters, zero-padded fields. */
  function Format(t: Timestamp): (r: string)
    ensures |r| == 19
  {
    Padded(t.year, 4) + "-" + Padded(t.month, 2) + "-" + Padded(t.day, 2) + " "
    + Padded(t.hour, 2) + ":" + Padded(t.minute, 2) + ":" + Padded(t.second, 2)
  }

  /** The character positions of the digits in the fixed format. */
  predicate DigitsAt(s: string)
    requires |s| == 19
  {
    AllDigits(s[0..4]) && AllDigits(s[5..7]) && AllDigits(s[8..10])
    && AllDigits(s[11..13]) && AllDigits(s[14..16]) && AllDigits(s[17..19])
  }

  predicate HasShape(s: string)
  {
    |s| == 19 && s[4] == '-' && s[7] == '-' && s[10] == ' ' && s[13] == ':' && s[16] == ':' && DigitsAt(s)
  }

  /**
   * Reads a timestamp written in the fixed format with every field zero-padded, as
   * `NaiveDateTime::parse_from_str(s, "%Y-%m-%d %H:%M:%S")` does for such text, the leap
   * second included; `None` for text of another shape and for dates or times that do not
   * exist. chrono is more lenient than this, and this model does not follow it there: it
   * accepts numeric fields with fewer digits, skips white space before each numeric field
   * (so a leading space, as in a CSV field written after `, `, is accepted), lets the one
   * space of the format match any run of white space or none, and takes a sign on `%Y`.
   * The exact chrono version is not visible, so these rules are not modelled.
   */
  function Parse(s: string): (r: Option<Timestamp>)
    ensures r.Some? ==> HasShape(s)
  {
    if !HasShape(s) then None
    else
      var t := DateTime(DigitsValue(s[0..4]), DigitsValue(s[5..7]), DigitsValue(s[8..10]),
                        DigitsValue(s[11..13]), DigitsValue(s[14..16]), DigitsValue(s[17..19]));
      if Valid(t) then Some(t) else None
  }

  /** Where each field of a timestamp sits in its formatted text. */
  lemma FormatFields(t: Timestamp)
    ensures var s := Format(t);
      && s[4] == '-' && s[7] == '-' && s[10] == ' ' && s[13] == ':' && s[16] == ':'
      && s[0..4] == Padded(t.year, 4) && s[5..7] == Padded(t.month, 2) && s[8..10] == Padded(t.day, 2)
      && s[11..13] == Padded(t.hour, 2) && s[14..16] == Padded(t.minute, 2) && s[17..19] == Padded(t.second, 2)
  {
    var s := Format(t);
    assert s[0..4] == Padded(t.year, 4);
    assert s[5..7] == Padded(t.month, 2);
    assert s[8..10] == Padded(t.day, 2);
    assert s[11..13] == Padded(t.hour, 2);
    assert s[14..16] == Padded(t.minute, 2);
    assert s[17..19] == Padded(t.second, 2);
  }

  /** Text with the separators in place and the value of `t`'s fields in their digit columns parses to `t`. */
  lemma ParseFields(s: string, t: Timestamp)
    requires |s| == 19 && s[4] == '-' && s[7] == '-' && s[10] == ' ' && s[13] == ':' && s[16] == ':'
    requires DigitsAt(s)
    requires DigitsValue(s[0..4]) == t.year && DigitsValue(s[5..7]) == t.month && DigitsValue(s[8..10]) == t.day
    requires DigitsValue(s[11..13]) == t.hour && DigitsValue(s[14..16]) == t.minute
    requires DigitsValue(s[17..19]) == t.second
    ensures Parse(s) == Some(t)
  {
  }

  /** A field below 100, written with two digits, has its own value. */
  lemma TwoDigits(n: nat)
    requires n < 100
    ensures DigitsValue(Padded(n, 2)) == n
  {
    assert Pow10(2) == 100;
    PaddedValue(n, 2);
  }

  /** A year below 10000, written with four digits, has its own value. */
  lemma FourDigits(n: nat)
    requires n < 10000
    ensures DigitsValue(Padded(n, 4)) == n
  {
    assert Pow10(4) == 10000;
    PaddedValue(n, 4);
  }

  /** Each field of a timestamp, written zero-padded, has its own value. */
  lemma FieldValues(t: Timestamp)
    ensures DigitsValue(Padded(t.year, 4)) == t.year
    ensures DigitsValue(Padded(t.month, 2)) == t.month && DigitsValue(Padded(t.day, 2)) == t.day
    ensures DigitsValue(Padded(t.hour, 2)) == t.hour && DigitsValue(Padded(t.minute, 2)) == t.minute
    ensures DigitsValue(Padded(t.second, 2)) == t.second
  {
    FourDigits(t.year);
    TwoDigits(t.month);
    TwoDigits(t.day);
    TwoDigits(t.hour);
    TwoDigits(t.minute);
    TwoDigits(t.second);
  }

  /** Formatting a timestamp and parsing the text back gives the same timestamp. */
  lemma ParseFormat(t: Timestamp)
    ensures Parse(Format(t)) == Some(t)
  {
    FormatFields(t);
    FieldValues(t);
    ParseFields(Format(t), t);
  }

  /** A leap second is written as second `60`, which `%S` reads back as the same leap second. */
  lemma LeapSecondRoundTrip(t: Timestamp)
    requires t.second == 60
    ensures Format(t)[17..19] == "60"
    ensures Parse(Format(t)) == Some(t)
  {
    FormatFields(t);
    assert Padded(60, 2) == "60";
    ParseFormat(t);
  }

  lemma ShapePieces(s: string)
    requires HasShape(s)
    ensures s == s[0..4] + "-" + s[5..7] + "-" + s[8..10] + " " + s[11..13] + ":" + s[14..16] + ":" + s[17..19]
  {
  }

  /** Whatever text parses is exactly the formatted text of the timestamp it parses to. */
  lemma FormatParse(s: string)
    requires Parse(s).Some?
    ensures Format(Parse(s).value) == s
  {
    var t := Parse(s).value;
    assert t.year == DigitsValue(s[0..4]) && t.month == DigitsValue(s[5..7]) && t.day == DigitsValue(s[8..10]);
    assert t.hour == DigitsValue(s[11..13]) && t.minute == DigitsValue(s[14..16]) && t.second == DigitsValue(s[17..19]);
    ValuePadded(s[0..4]);
    ValuePadded(s[5..7]);
    ValuePadded(s[8..10]);
    ValuePadded(s[11..13]);
    ValuePadded(s[14..16]);
    ValuePadded(s[17..19]);
    ShapePieces(s);
  }

  /** The formatted text contains no field or record separator of the CSV format. */
  lemma FormatSeparators(t: Timestamp)
    ensures ',' !in Format(t) && '\n' !in Format(t)
    ensures IsDigit(Format(t)[18])
  {
    var s := Format(t);
    assert s[17..19] == Padded(t.second, 2);
  }
}
