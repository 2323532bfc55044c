/**
 * Calendar dates and timestamps: a date is a valid proleptic Gregorian
 * year/month/day triple (years 1 to 9999, as `datetime.date` allows), a
 * timestamp is a date plus the microsecond of that day.  Both are ordered
 * lexicographically, which is how `datetime` compares them.
 */
module Calendar {
  import opened Wrappers

  datatype CalendarDate = CalendarDate(year: int, month: int, day: int)

  predicate IsLeapYear(y: int) {
    y % 4 == 0 && (y % 100 != 0 || y % 400 == 0)
  }

  function DaysInMonth(y: int, m: int): int
    requires 1 <= m <= 12
  {
    if m == 2 then (if IsLeapYear(y) then 29 else 28)
    else if m == 4 || m == 6 || m == 9 || m == 11 then 30
    else 31
  }

  predicate ValidDate(d: CalendarDate) {
    1 <= d.year <= 9999 && 1 <= d.month <= 12 && 1 <= d.day <= DaysInMonth(d.year, d.month)
  }

  type Date = d: CalendarDate | ValidDate(d) witness CalendarDate(1, 1, 1)

  const MicrosPerDay: int := 86_400_000_000

  /** Microseconds since midnight: 00:00:00.000000 is 0, 23:59:59.999999 is MicrosPerDay - 1. */
  type TimeOfDay = n: int | 0 <= n < 86_400_000_000

  datatype Timestamp = Timestamp(date: Date, time: TimeOfDay)

  predicate DateBefore(a: Date, b: Date) {
    a.year < b.year
    || (a.year == b.year && a.month < b.month)
    || (a.year == b.year && a.month == b.month && a.day < b.day)
  }

  predicate DateAtMost(a: Date, b: Date) {
    a == b || DateBefore(a, b)
  }

  predicate TimestampAtMost(a: Timestamp, b: Timestamp) {
    DateBefore(a.date, b.date) || (a.date == b.date && a.time <= b.time)
  }

  /** `datetime.combine(d, time.min)` */
  function StartOfDay(d: Date): (t: Timestamp)
    ensures t.date == d && forall u: Timestamp :: u.date == d ==> TimestampAtMost(t, u)
  {
    Timestamp(d, 0)
  }

  /** `datetime.combine(d, time.max)` */
  function EndOfDay(d: Date): (t: Timestamp)
    ensures t.date == d && forall u: Timestamp :: u.date == d ==> TimestampAtMost(u, t)
  {
    Timestamp(d, MicrosPerDay - 1)
  }

  /** A timestamp lies at or after the first instant of day `d` exactly when its calendar day is not before `d`. */
  lemma StartOfDayBound(d: Date, t: Timestamp)
    ensures TimestampAtMost(StartOfDay(d), t) <==> DateAtMost(d, t.date)
  {
  }

  /** A timestamp lies at or before the last instant of day `d` exactly when its calendar day is not after `d`. */
  lemma EndOfDayBound(d: Date, t: Timestamp)
    ensures TimestampAtMost(t, EndOfDay(d)) <==> DateAtMost(t.date, d)
  {
  }

  // ---- ISO 8601 calendar date text, `date.isoformat()` ----

  function DigitChar(n: int): (c: char)
    requires 0 <= n < 10
    ensures '0' <= c <= '9'
  {
    ('0' as int + n) as char
  }

  function DigitValue(c: char): Option<int> {
    if '0' <= c <= '9' then Some(c as int - '0' as int) else None
  }

  function Pad2(n: int): (s: string)
    requires 0 <= n < 100
    ensures |s| == 2
  {
    [DigitChar(n / 10), DigitChar(n % 10)]
  }

  function Pad4(n: int): (s: string)
    requires 0 <= n < 10000
    ensures |s| == 4
  {
    Pad2(n / 100) + Pad2(n % 100)
  }

  function Parse2(s: string): Option<int>
    requires |s| == 2
  {
    match (DigitValue(s[0]), DigitValue(s[1]))
    case (Some(h), Some(l)) => Some(10 * h + l)
    case _ => None
  }

  function Parse4(s: string): Option<int>
    requires |s| == 4
  {
    match (Parse2(s[..2]), Parse2(s[2..]))
    case (Some(h), Some(l)) => Some(100 * h + l)
    case _ => None
  }

  /** `YYYY-MM-DD`, every field zero-padded. */
  function IsoFormat(d: Date): (s: string)
    ensures |s| == 10 && s[4] == '-' && s[7] == '-'
  {
    Pad4(d.year) + "-" + Pad2(d.month) + "-" + Pad2(d.day)
  }

  /** Reads back what IsoFormat writes; anything else, including an impossible date, is None. */
  function ParseIsoDate(s: string): Option<Date> {
    if |s| != 10 || s[4] != '-' || s[7] != '-' then None
    else
      match (Parse4(s[..4]), Parse2(s[5..7]), Parse2(s[8..]))
      case (Some(y), Some(m), Some(d)) =>
        if ValidDate(CalendarDate(y, m, d)) then Some(CalendarDate(y, m, d)) else None
      case _ => None
  }

  lemma Parse2Pad2(n: int)
    requires 0 <= n < 100
    ensures Parse2(Pad2(n)) == Some(n)
  {
  }

  lemma Parse4Pad4(n: int)
    requires 0 <= n < 10000
    ensures Parse4(Pad4(n)) == Some(n)
  {
    var s := Pad4(n);
    assert s[..2] == Pad2(n / 100) && s[2..] == Pad2(n % 100);
    Parse2Pad2(n / 100);
    Parse2Pad2(n % 100);
  }

  /** The ISO text of a date identifies it: parsing it gives the same date back. */
  lemma IsoRoundTrip(d: Date)
    ensures ParseIsoDate(IsoFormat(d)) == Some(d)
  {
    var s := IsoFormat(d);
    assert s[..4] == Pad4(d.year);
    assert s[5..7] == Pad2(d.month);
    assert s[8..] == Pad2(d.day);
    Parse4Pad4(d.year);
    Parse2Pad2(d.month);
    Parse2Pad2(d.day);
  }
}
