/**
 * Daily totals of the activity table and the yearly Eddington numbers.
 * Rows missing a start or a distance are dropped; the remaining rows are
 * grouped by the calendar day of their start, distances summed per day and
 * the sum truncated to whole kilometres; days come out in ascending order.
 */
module DailyTotals {
  import opened Wrappers
  import opened Calendar
  import opened ActivityTable
  import opened EddingtonNumbers

  /** The row survives `dropna(subset=["start", "distance_km"])`. */
  predicate Counted(a: Activity) {
    a.start.Some? && a.distanceKm.Some?
  }

  /** `start.date()` */
  function DayOf(a: Activity): Date
    requires a.start.Some?
  {
    a.start.value.date
  }

  /** `int(x)`: truncation toward zero. */
  function Trunc(x: real): (n: int)
    ensures x >= 0.0 ==> n as real <= x < n as real + 1.0
    ensures x < 0.0 ==> n as real - 1.0 < x <= n as real
  {
    if x >= 0.0 then x.Floor else -((-x).Floor)
  }

  /** Some counted row starts on day `d`. */
  predicate HasDay(records: seq<Activity>, d: Date) {
    exists i :: 0 <= i < |records| && Counted(records[i]) && DayOf(records[i]) == d
  }

  /** The summed distance of the counted rows starting on day `d`. */
  function DaySum(records: seq<Activity>, d: Date): real {
    if records == [] then 0.0
    else
      var a := records[|records| - 1];
      DaySum(records[..|records| - 1], d) + (if Counted(a) && DayOf(a) == d then a.distanceKm.value else 0.0)
  }

  datatype DayDistance = DayDistance(date: Date, km: real)

  predicate StrictlyAscending(days: seq<DayDistance>) {
    forall i, j :: 0 <= i < j < |days| ==> DateBefore(days[i].date, days[j].date)
  }

  function Dates(days: seq<DayDistance>): set<Date> {
    if days == [] then {} else {days[0].date} + Dates(days[1..])
  }

  /** The distance listed for day `d`, 0 when it is not listed. */
  function KmOn(days: seq<DayDistance>, d: Date): real {
    if days == [] then 0.0
    else (if days[0].date == d then days[0].km else 0.0) + KmOn(days[1..], d)
  }

  lemma {:induction false} AscendingHeadIsLeast(days: seq<DayDistance>, d: Date)
    requires StrictlyAscending(days) && days != []
    requires d in Dates(days[1..])
    ensures DateBefore(days[0].date, d)
    decreases |days|
  {
    if days[1].date != d {
      AscendingHeadIsLeast(days[1..], d);
    }
  }

  lemma {:induction false} KmOnAbsent(days: seq<DayDistance>, d: Date)
    requires d !in Dates(days)
    ensures KmOn(days, d) == 0.0
  {
    if days != [] {
      KmOnAbsent(days[1..], d);
    }
  }

  /** Adds `km` to day `d`, inserting the day in order when it is new. */
  function AddToDay(days: seq<DayDistance>, d: Date, km: real): (r: seq<DayDistance>)
    requires StrictlyAscending(days)
    ensures StrictlyAscending(r)
    ensures Dates(r) == Dates(days) + {d}
    ensures forall e :: KmOn(r, e) == KmOn(days, e) + (if e == d then km else 0.0)
    decreases |days|
  {
    if days == [] then [DayDistance(d, km)]
    else if DateBefore(d, days[0].date) then
      var r := [DayDistance(d, km)] + days;
      assert r[1..] == days;
      assert forall e <- Dates(days[1..]) :: DateBefore(days[0].date, e) by {
        forall e <- Dates(days[1..]) ensures DateBefore(days[0].date, e) {
          AscendingHeadIsLeast(days, e);
        }
      }
      r
    else if d == days[0].date then
      var r := [DayDistance(d, days[0].km + km)] + days[1..];
      assert r[1..] == days[1..];
      r
    else
      var rest := AddToDay(days[1..], d, km);
      var r := [days[0]] + rest;
      assert r[1..] == rest;
      assert forall e <- Dates(rest) :: DateBefore(days[0].date, e) by {
        forall e <- Dates(rest) ensures DateBefore(days[0].date, e) {
          if e != d {
            AscendingHeadIsLeast(days, e);
          }
        }
      }
      AscendingFromHead(r);
      r
  }

  lemma {:induction false} DatesIndex(days: seq<DayDistance>, i: int)
    requires 0 <= i < |days|
    ensures days[i].date in Dates(days)
  {
    if i > 0 {
      DatesIndex(days[1..], i - 1);
    }
  }

  lemma AscendingFromHead(r: seq<DayDistance>)
    requires r != [] && StrictlyAscending(r[1..])
    requires forall e <- Dates(r[1..]) :: DateBefore(r[0].date, e)
    ensures StrictlyAscending(r)
  {
    forall i, j | 0 <= i < j < |r|
      ensures DateBefore(r[i].date, r[j].date)
    {
      if i == 0 {
        DatesIndex(r[1..], j - 1);
      } else {
        assert r[i] == r[1..][i - 1] && r[j] == r[1..][j - 1];
      }
    }
  }

  /** `groupby("date")` with the distances summed per day. */
  function GroupByDate(records: seq<Activity>): (r: seq<DayDistance>)
    ensures StrictlyAscending(r)
    ensures forall d :: d in Dates(r) <==> HasDay(records, d)
    ensures forall d :: KmOn(r, d) == DaySum(records, d)
  {
    if records == [] then []
    else
      var n := |records| - 1;
      var a := records[n];
      var prefix := GroupByDate(records[..n]);
      var r := if Counted(a) then AddToDay(prefix, DayOf(a), a.distanceKm.value) else prefix;
      assert records[..n] + [a] == records;
      assert forall d :: HasDay(records, d) <==> HasDay(records[..n], d) || (Counted(a) && DayOf(a) == d) by {
        forall d ensures HasDay(records, d) <==> HasDay(records[..n], d) || (Counted(a) && DayOf(a) == d) {
          HasDaySnoc(records[..n], a, d);
        }
      }
      r
  }

  /** In an ascending list a listed day's entry is the whole distance of that day. */
  lemma {:induction false} KmOnListed(days: seq<DayDistance>, i: int)
    requires StrictlyAscending(days) && 0 <= i < |days|
    ensures KmOn(days, days[i].date) == days[i].km
    decreases |days|
  {
    if i == 0 {
      if days[0].date in Dates(days[1..]) {
        AscendingHeadIsLeast(days, days[0].date);
      }
      KmOnAbsent(days[1..], days[0].date);
    } else {
      assert days[1..][i - 1] == days[i];
      KmOnListed(days[1..], i - 1);
    }
  }

  datatype DayTotal = DayTotal(date: Date, km: int)

  predicate AscendingTotals(days: seq<DayTotal>) {
    forall i, j :: 0 <= i < j < |days| ==> DateBefore(days[i].date, days[j].date)
  }

  function TotalDates(days: seq<DayTotal>): set<Date> {
    set i | 0 <= i < |days| :: days[i].date
  }

  /**
   * The per-day totals in ascending day order: one entry per day some
   * counted row starts on, holding `int` of that day's summed distance.
   */
  function DailyDistances(records: seq<Activity>): (r: seq<DayTotal>)
    ensures AscendingTotals(r)
    ensures forall d :: d in TotalDates(r) <==> HasDay(records, d)
    ensures forall i :: 0 <= i < |r| ==> r[i].km == Trunc(DaySum(records, r[i].date))
  {
    var g := GroupByDate(records);
    var r := seq(|g|, i requires 0 <= i < |g| => DayTotal(g[i].date, Trunc(g[i].km)));
    forall i | 0 <= i < |r|
      ensures HasDay(records, r[i].date) && r[i].km == Trunc(DaySum(records, r[i].date))
    {
      DatesIndex(g, i);
      KmOnListed(g, i);
    }
    forall d | HasDay(records, d)
      ensures d in TotalDates(r)
    {
      var i := DatesMember(g, d);
      assert r[i].date == d;
    }
    r
  }

  lemma TotalDatesOfNonEmpty(days: seq<DayTotal>)
    ensures days != [] ==> days[0].date in TotalDates(days)
  {
  }

  /** The days after the first of an ascending list: all but the first day, each later than it. */
  lemma TotalDatesOfTail(a: seq<DayTotal>)
    requires AscendingTotals(a) && a != []
    ensures TotalDates(a[1..]) == TotalDates(a) - {a[0].date}
    ensures forall d <- TotalDates(a[1..]) :: DateBefore(a[0].date, d)
  {
    forall d | d in TotalDates(a[1..])
      ensures d in TotalDates(a) && DateBefore(a[0].date, d)
    {
      var k :| 0 <= k < |a| - 1 && a[1..][k].date == d;
      assert a[k + 1].date == d;
    }
    forall d | d in TotalDates(a) && d != a[0].date
      ensures d in TotalDates(a[1..])
    {
      var m :| 0 <= m < |a| && a[m].date == d;
      assert a[1..][m - 1] == a[m];
    }
  }

  /** Two ascending day lists with the same days and the same total per day are equal. */
  lemma {:induction false} AscendingTotalsUnique(a: seq<DayTotal>, b: seq<DayTotal>)
    requires AscendingTotals(a) && AscendingTotals(b)
    requires TotalDates(a) == TotalDates(b)
    requires forall i, j :: 0 <= i < |a| && 0 <= j < |b| && a[i].date == b[j].date ==> a[i].km == b[j].km
    ensures a == b
    decreases |a|
  {
    TotalDatesOfNonEmpty(a);
    TotalDatesOfNonEmpty(b);
    if a != [] {
      TotalDatesOfTail(a);
      TotalDatesOfTail(b);
      assert a[0].date == b[0].date;
      assert a[0] == b[0];
      forall i, j | 0 <= i < |a| - 1 && 0 <= j < |b| - 1 && a[1..][i].date == b[1..][j].date
        ensures a[1..][i].km == b[1..][j].km
      {
        assert a[1..][i] == a[i + 1] && b[1..][j] == b[j + 1];
      }
      AscendingTotalsUnique(a[1..], b[1..]);
      assert a == [a[0]] + a[1..] && b == [b[0]] + b[1..];
    }
  }

  lemma {:induction false} DatesMember(days: seq<DayDistance>, d: Date) returns (i: int)
    requires d in Dates(days)
    ensures 0 <= i < |days| && days[i].date == d
  {
    if days[0].date == d {
      i := 0;
    } else {
      var j := DatesMember(days[1..], d);
      i := j + 1;
    }
  }

  function Kms(days: seq<DayTotal>): (kms: seq<int>)
    ensures |kms| == |days| && forall i :: 0 <= i < |days| ==> kms[i] == days[i].km
  {
    seq(|days|, i requires 0 <= i < |days| => days[i].km)
  }

  // ---- yearly Eddington numbers ----

  /** The counted rows of year `y`, in table order. */
  function RecordsOfYear(records: seq<Activity>, y: int): (r: seq<Activity>) {
    if records == [] then []
    else
      var a := records[|records| - 1];
      RecordsOfYear(records[..|records| - 1], y) + (if Counted(a) && DayOf(a).year == y then [a] else [])
  }

  /** The years some counted row starts in. */
  function YearsOf(records: seq<Activity>): set<int> {
    set i | 0 <= i < |records| && Counted(records[i]) :: DayOf(records[i]).year
  }

  /** The days of year `y`, in the same order. */
  function DaysOfYear(days: seq<DayTotal>, y: int): (r: seq<DayTotal>)
    ensures forall x <- r :: x in days && x.date.year == y
    ensures forall x <- days :: x.date.year == y ==> x in r
  {
    if days == [] then []
    else
      assert forall x <- days :: x == days[0] || x in days[1..];
      (if days[0].date.year == y then [days[0]] else []) + DaysOfYear(days[1..], y)
  }

  lemma HeadBeforeRest(days: seq<DayTotal>)
    requires AscendingTotals(days) && days != []
    ensures forall x <- days[1..] :: DateBefore(days[0].date, x.date)
  {
    forall x <- days[1..] ensures DateBefore(days[0].date, x.date) {
      var k :| 0 <= k < |days| - 1 && days[1..][k] == x;
      assert days[k + 1] == x;
    }
  }

  /** A year's slice of an ascending list is ascending. */
  lemma {:induction false} DaysOfYearAscending(days: seq<DayTotal>, y: int)
    requires AscendingTotals(days)
    ensures AscendingTotals(DaysOfYear(days, y))
    decreases |days|
  {
    if days != [] {
      var rest := DaysOfYear(days[1..], y);
      DaysOfYearAscending(days[1..], y);
      if days[0].date.year == y {
        HeadBeforeRest(days);
        ConsAscendingTotals(days[0], rest);
      }
    }
  }

  lemma ConsAscendingTotals(h: DayTotal, rest: seq<DayTotal>)
    requires AscendingTotals(rest) && forall x <- rest :: DateBefore(h.date, x.date)
    ensures AscendingTotals([h] + rest)
  {
    var r := [h] + rest;
    forall i, j | 0 <= i < j < |r| ensures DateBefore(r[i].date, r[j].date) {
      assert r[j] == rest[j - 1] && r[j] in rest;
      if i > 0 {
        assert r[i] == rest[i - 1];
      }
    }
  }

  /**
   * `get_yearly_eddington`: for every year some counted row starts in, the
   * Eddington number of that year's daily totals; no other year.
   */
  function YearlyEddington(records: seq<Activity>): (r: map<int, nat>)
    ensures r.Keys == YearsOf(records)
    ensures forall y <- r.Keys :: IsEddingtonNumber(Kms(DailyDistances(RecordsOfYear(records, y))), r[y])
  {
    map y | y in YearsOf(records) :: EddingtonNumber(Kms(DailyDistances(RecordsOfYear(records, y))))
  }

  lemma {:induction false} HasDayOfYear(records: seq<Activity>, y: int, d: Date)
    ensures HasDay(RecordsOfYear(records, y), d) <==> HasDay(records, d) && d.year == y
  {
    if records != [] {
      var n := |records| - 1;
      var a := records[n];
      var prefix := RecordsOfYear(records[..n], y);
      var tail := if Counted(a) && DayOf(a).year == y then [a] else [];
      HasDayOfYear(records[..n], y, d);
      HasDaySnoc(records[..n], a, d);
      assert records[..n] + [a] == records;
      if tail == [] {
        assert prefix + tail == prefix;
      } else {
        HasDaySnoc(prefix, a, d);
      }
    }
  }

  lemma HasDaySnoc(records: seq<Activity>, a: Activity, d: Date)
    ensures HasDay(records + [a], d) <==> HasDay(records, d) || (Counted(a) && DayOf(a) == d)
  {
    var s := records + [a];
    if HasDay(s, d) {
      var i :| 0 <= i < |s| && Counted(s[i]) && DayOf(s[i]) == d;
      if i < |records| {
        assert records[i] == s[i];
      }
    }
    if HasDay(records, d) {
      var i :| 0 <= i < |records| && Counted(records[i]) && DayOf(records[i]) == d;
      assert s[i] == records[i];
    }
    if Counted(a) && DayOf(a) == d {
      assert s[|records|] == a;
    }
  }

  lemma {:induction false} DaySumOfYear(records: seq<Activity>, y: int, d: Date)
    ensures DaySum(RecordsOfYear(records, y), d) == if d.year == y then DaySum(records, d) else 0.0
  {
    if records != [] {
      var n := |records| - 1;
      var a := records[n];
      var prefix := RecordsOfYear(records[..n], y);
      DaySumOfYear(records[..n], y, d);
      if Counted(a) && DayOf(a).year == y {
        var s := prefix + [a];
        assert s[..|s| - 1] == prefix && s[|s| - 1] == a;
      } else {
        assert prefix + [] == prefix;
      }
    }
  }

  /** A day is listed in the year's slice exactly when it is listed and falls in the year. */
  lemma DaysOfYearTotalDates(all: seq<DayTotal>, y: int, d: Date)
    ensures d in TotalDates(DaysOfYear(all, y)) <==> d in TotalDates(all) && d.year == y
  {
    var b := DaysOfYear(all, y);
    if d in TotalDates(b) {
      var k :| 0 <= k < |b| && b[k].date == d;
      assert b[k] in b;
      var m :| 0 <= m < |all| && all[m] == b[k];
    }
    if d in TotalDates(all) && d.year == y {
      var m :| 0 <= m < |all| && all[m].date == d;
      assert all[m] in all;
      var k :| 0 <= k < |b| && b[k] == all[m];
    }
  }

  /** The year's own daily totals list the same days as the year's slice of all daily totals. */
  lemma DaysOfYearDates(records: seq<Activity>, y: int)
    ensures TotalDates(DailyDistances(RecordsOfYear(records, y))) == TotalDates(DaysOfYear(DailyDistances(records), y))
  {
    forall d ensures d in TotalDates(DailyDistances(RecordsOfYear(records, y))) <==> d in TotalDates(DaysOfYear(DailyDistances(records), y)) {
      HasDayOfYear(records, y, d);
      DaysOfYearTotalDates(DailyDistances(records), y, d);
    }
  }

  /** On a shared day, the year's own daily total and the one in the year's slice agree. */
  lemma DaysOfYearKms(records: seq<Activity>, y: int)
    ensures var a, b := DailyDistances(RecordsOfYear(records, y)), DaysOfYear(DailyDistances(records), y);
      forall i, j :: 0 <= i < |a| && 0 <= j < |b| && a[i].date == b[j].date ==> a[i].km == b[j].km
  {
    var all := DailyDistances(records);
    var a := DailyDistances(RecordsOfYear(records, y));
    var b := DaysOfYear(all, y);
    forall i, j | 0 <= i < |a| && 0 <= j < |b| && a[i].date == b[j].date
      ensures a[i].km == b[j].km
    {
      assert b[j] in b;
      var m :| 0 <= m < |all| && all[m] == b[j];
      DaySumOfYear(records, y, a[i].date);
    }
  }

  /**
   * Grouping one year's rows by day gives that year's slice of the daily
   * totals of all rows: the per-year and the whole-history computations see
   * the same days.
   */
  lemma DailyDistancesOfYear(records: seq<Activity>, y: int)
    ensures DailyDistances(RecordsOfYear(records, y)) == DaysOfYear(DailyDistances(records), y)
  {
    DaysOfYearDates(records, y);
    DaysOfYearKms(records, y);
    DaysOfYearAscending(DailyDistances(records), y);
    AscendingTotalsUnique(DailyDistances(RecordsOfYear(records, y)), DaysOfYear(DailyDistances(records), y));
  }

  /** Each year's Eddington number is that of the year's slice of the daily totals. */
  lemma YearlyEddingtonFromDailyTotals(records: seq<Activity>, y: int)
    requires y in YearsOf(records)
    ensures YearlyEddington(records)[y] == EddingtonNumber(Kms(DaysOfYear(DailyDistances(records), y)))
  {
    DailyDistancesOfYear(records, y);
  }
}
