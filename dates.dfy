/**
 * java.time.LocalDate as the event manager uses it: a (day, month, year)
 * value, ordering by isBefore, and the two patterns it formats with,
 * "dd/MM/yyyy" (stored files, table, CSV) and "yyyyMMdd" (backup names).
 * Parsing follows DateTimeFormatter.ofPattern("dd/MM/yyyy") with its default
 * SMART resolver.
 */
module Dates {
  import opened Wrappers
  import opened Text

  datatype Date = Date(day: nat, month: nat, year: nat)

  /** Year.MAX_VALUE. */
  const MaxYear: nat := 999999999

  predicate IsLeapYear(y: nat) {
    y % 4 == 0 && (y % 100 != 0 || y % 400 == 0)
  }

  function DaysInMonth(month: nat, year: nat): (n: nat)
    ensures 28 <= n <= 31
  {
    if month == 2 then (if IsLeapYear(year) then 29 else 28)
    else if month == 4 || month == 6 || month == 9 || month == 11 then 30
    else 31
  }

  /** The dates a LocalDate can hold (years before 1 are left out of the model). */
  predicate IsValid(d: Date) {
    1 <= d.year <= MaxYear && 1 <= d.month <= 12 && 1 <= d.day <= DaysInMonth(d.month, d.year)
  }

  /** LocalDate.isBefore: chronological order. */
  predicate IsBefore(a: Date, b: Date) {
    a.year < b.year
    || (a.year == b.year && (a.month < b.month || (a.month == b.month && a.day < b.day)))
  }

  /** Exactly one of: before, same day, after. */
  lemma Trichotomy(a: Date, b: Date)
    ensures IsBefore(a, b) || a == b || IsBefore(b, a)
    ensures !(IsBefore(a, b) && IsBefore(b, a))
    ensures !(IsBefore(a, b) && a == b)
  {
  }

  // ------------------------------------------------------------ formatting

  /**
   * The "yyyy" field: four digits, zero padded, up to 9999; a larger year is
   * printed in full behind a '+' (SignStyle.EXCEEDS_PAD).
   */
  function FormatYear(y: nat): string {
    if y <= 9999 then PadDigits(y, 4) else "+" + NatToString(y)
  }

  /** Pattern "dd/MM/yyyy". */
  function Format(d: Date): string {
    PadDigits(d.day, 2) + "/" + PadDigits(d.month, 2) + "/" + FormatYear(d.year)
  }

  /** Pattern "yyyyMMdd". */
  function FormatCompact(d: Date): string {
    FormatYear(d.year) + PadDigits(d.month, 2) + PadDigits(d.day, 2)
  }

  // --------------------------------------------------------------- parsing

  /**
   * The "yyyy" field in strict parsing: exactly four digits, or a '+'
   * followed by more than four (and at most nineteen) digits.
   */
  function ParseYear(t: string): Option<nat> {
    if |t| == 4 && AllDigits(t) then Some(DigitsValue(t))
    else if 6 <= |t| <= 20 && t[0] == '+' && AllDigits(t[1..]) then Some(DigitsValue(t[1..]))
    else None
  }

  /**
   * The SMART resolver: each field must lie in its range (day 1-31), and a
   * day past the end of the month is moved back to the month's last day.
   */
  function Resolve(day: nat, month: nat, year: nat): Option<Date> {
    if 1 <= year <= MaxYear && 1 <= month <= 12 && 1 <= day <= 31 then
      Some(Date(if day > DaysInMonth(month, year) then DaysInMonth(month, year) else day, month, year))
    else None
  }

  /** LocalDate.parse(s, ofPattern("dd/MM/yyyy")); None stands for DateTimeParseException. */
  function Parse(s: string): (r: Option<Date>)
    ensures r.Some? ==> IsValid(r.value)
  {
    if |s| < 10 || s[2] != '/' || s[5] != '/' || !AllDigits(s[..2]) || !AllDigits(s[3..5]) then None
    else
      match ParseYear(s[6..])
      case None => None
      case Some(y) => Resolve(DigitsValue(s[..2]), DigitsValue(s[3..5]), y)
  }

  lemma ParseFormatYear(y: nat)
    requires 1 <= y <= MaxYear
    ensures ParseYear(FormatYear(y)) == Some(y)
  {
    if y <= 9999 {
      PadDigitsValue(y, 4);
    } else {
      var t := FormatYear(y);
      NatToStringLength(y, 4);
      NatToStringLength(y, 9);
      NatToStringValue(y);
      assert t[1..] == NatToString(y);
    }
  }

  /** Every date a LocalDate can hold is read back by Parse from its own "dd/MM/yyyy" text. */
  lemma ParseFormat(d: Date)
    requires IsValid(d)
    ensures Parse(Format(d)) == Some(d)
  {
    var s := Format(d);
    var dd, mm, yy := PadDigits(d.day, 2), PadDigits(d.month, 2), FormatYear(d.year);
    assert s == dd + "/" + mm + "/" + yy;
    assert s[..2] == dd && s[3..5] == mm && s[6..] == yy;
    PadDigitsValue(d.day, 2);
    PadDigitsValue(d.month, 2);
    ParseFormatYear(d.year);
  }

  /** Distinct dates give distinct "yyyyMMdd" stamps, and equal dates equal ones. */
  lemma FormatCompactInjective(a: Date, b: Date)
    requires IsValid(a) && IsValid(b)
    ensures FormatCompact(a) == FormatCompact(b) <==> a == b
  {
    if FormatCompact(a) == FormatCompact(b) {
      var s := FormatCompact(a);
      var ya, yb := FormatYear(a.year), FormatYear(b.year);
      assert |ya| == |s| - 4 == |yb|;
      assert ya == s[..|s| - 4] == yb;
      assert PadDigits(a.month, 2) == s[|s| - 4..|s| - 2] == PadDigits(b.month, 2);
      assert PadDigits(a.day, 2) == s[|s| - 2..] == PadDigits(b.day, 2);
      ParseFormatYear(a.year);
      ParseFormatYear(b.year);
      PadDigitsValue(a.month, 2);
      PadDigitsValue(b.month, 2);
      PadDigitsValue(a.day, 2);
      PadDigitsValue(b.day, 2);
    }
  }

  /** A formatted date holds only digits, '/' and '+': none of the codec's separators. */
  lemma FormatCharacters(d: Date)
    ensures forall i :: 0 <= i < |Format(d)| ==> IsDigit(Format(d)[i]) || Format(d)[i] == '/' || Format(d)[i] == '+'
  {
  }
}
