/**
 * The Eddington table of the Eddington page: for every whole distance d
 * from 0 to the longest day, how many days total exactly d (`count`), how
 * many reach d (`total`, a reverse cumulative sum of `count`), how many are
 * missing for d (`missing = d - total`), and the Eddington number read off
 * the table as the last distance its total reaches.
 */
module EddingtonHistogram {
  import opened Wrappers
  import opened EddingtonNumbers

  datatype HistogramRow = HistogramRow(distanceKm: nat, count: nat, total: nat, missing: int)

  function MaxOf(s: seq<int>): (m: int)
    requires s != []
    ensures m in s && forall x <- s :: x <= m
  {
    if |s| == 1 then s[0]
    else
      var rest := MaxOf(s[1..]);
      assert forall x <- s :: x == s[0] || x in s[1..];
      if s[0] >= rest then s[0] else rest
  }

  /** `count[::-1].cumsum()[::-1]` */
  function ReverseCumsum(c: seq<nat>): (r: seq<nat>)
    ensures |r| == |c|
  {
    if c == [] then []
    else
      var rest := ReverseCumsum(c[1..]);
      [c[0] + (if rest == [] then 0 else rest[0])] + rest
  }

  /**
   * Summing the exact counts from `lo` up to the longest day `m` gives the
   * number of days that reach each distance.
   */
  lemma {:induction false} ReverseCumsumCounts(days: seq<int>, m: int, lo: int, c: seq<nat>)
    requires forall x <- days :: x <= m
    requires 0 <= lo <= m + 1 && |c| == m + 1 - lo
    requires forall j :: 0 <= j < |c| ==> c[j] == CountEqual(days, lo + j)
    ensures forall j :: 0 <= j < |c| ==> ReverseCumsum(c)[j] == CountAtLeast(days, lo + j)
    decreases |c|
  {
    if c != [] {
      var rest := ReverseCumsum(c[1..]);
      ReverseCumsumCounts(days, m, lo + 1, c[1..]);
      CountAtLeastSplit(days, lo);
      if rest == [] {
        NoneBeyond(days, m);
      }
      assert ReverseCumsum(c)[0] == CountAtLeast(days, lo);
      assert forall j :: 1 <= j < |c| ==> ReverseCumsum(c)[j] == rest[j - 1];
    }
  }

  /**
   * The table of the Eddington page.  With no days, `max` of the empty key
   * set raises; with only negative totals the range is empty and the frame
   * has no `count` column.  Both are None.
   */
  function Histogram(days: seq<int>): (r: Option<seq<HistogramRow>>)
    ensures r.None? <==> days == [] || MaxOf(days) < 0
    ensures r.Some? ==>
      && |r.value| == MaxOf(days) + 1
      && forall d :: 0 <= d < |r.value| ==>
        && r.value[d].distanceKm == d
        && r.value[d].count == CountEqual(days, d)
        && r.value[d].total == CountAtLeast(days, d)
        && r.value[d].missing == d - CountAtLeast(days, d)
  {
    if days == [] || MaxOf(days) < 0 then None
    else
      var m := MaxOf(days);
      var counts := seq(m + 1, d requires 0 <= d <= m => CountEqual(days, d));
      var totals := ReverseCumsum(counts);
      ReverseCumsumCounts(days, m, 0, counts);
      Some(seq(m + 1, d requires 0 <= d <= m => HistogramRow(d, counts[d], totals[d], d - totals[d])))
  }

  /** `eddington.loc[total >= distance_km]["distance_km"].iloc[-1]`: the last row whose total reaches its distance. */
  function LastReachedDistance(rows: seq<HistogramRow>): Option<int> {
    if rows == [] then None
    else
      var last := rows[|rows| - 1];
      if last.total >= last.distanceKm then Some(last.distanceKm)
      else LastReachedDistance(rows[..|rows| - 1])
  }

  /** Totals never grow with distance, and `missing` grows strictly. */
  lemma HistogramTotalsNonIncreasing(days: seq<int>, i: int, j: int)
    requires Histogram(days).Some?
    requires 0 <= i < j < |Histogram(days).value|
    ensures var rows := Histogram(days).value;
      rows[j].total <= rows[i].total && rows[i].missing < rows[j].missing
  {
    CountAtLeastAntitone(days, i, j);
  }

  /** With no negative day, the total at 0 km is the number of days. */
  lemma HistogramFirstTotal(days: seq<int>)
    requires Histogram(days).Some? && forall x <- days :: x >= 0
    ensures Histogram(days).value[0].total == |days|
  {
    AllReach(days, 0);
  }

  /** The rows whose total reaches their distance are exactly those up to the Eddington number. */
  lemma HistogramReachedRowsArePrefix(days: seq<int>, d: int)
    requires Histogram(days).Some?
    requires 0 <= d < |Histogram(days).value|
    ensures var row := Histogram(days).value[d]; row.total >= row.distanceKm <==> d <= EddingtonNumber(days)
  {
    var e := EddingtonNumber(days);
    if d <= e {
      CountAtLeastAntitone(days, d, e);
    } else {
      CountAtLeastAntitone(days, e + 1, d);
    }
  }

  lemma {:induction false} LastReachedIs(rows: seq<HistogramRow>, e: nat)
    requires e < |rows| && rows[e].total >= rows[e].distanceKm == e
    requires forall d :: e < d < |rows| ==> rows[d].total < rows[d].distanceKm
    ensures LastReachedDistance(rows) == Some(e)
    decreases |rows|
  {
    if |rows| - 1 != e {
      LastReachedIs(rows[..|rows| - 1], e);
    }
  }

  /** The Eddington number read off the table is the Eddington number of the days. */
  lemma HistogramEddingtonNumber(days: seq<int>)
    requires Histogram(days).Some?
    ensures LastReachedDistance(Histogram(days).value) == Some(EddingtonNumber(days))
  {
    var rows := Histogram(days).value;
    var e := EddingtonNumber(days);
    var m := MaxOf(days);
    if e > m {
      NoneBeyond(days, m);
      CountAtLeastAntitone(days, m + 1, e);
    }
    forall d | e < d < |rows|
      ensures rows[d].total < rows[d].distanceKm
    {
      HistogramReachedRowsArePrefix(days, d);
    }
    LastReachedIs(rows, e);
  }

  /** The rows handed to the page's table: the next ten distances past `en`, in order. */
  function EddingtonTable(rows: seq<HistogramRow>, en: int): (t: seq<HistogramRow>)
    ensures forall r <- t :: r in rows && en < r.distanceKm <= en + 10
    ensures forall r <- rows :: en < r.distanceKm <= en + 10 ==> r in t
  {
    if rows == [] then []
    else
      assert forall r <- rows :: r == rows[0] || r in rows[1..];
      (if en < rows[0].distanceKm <= en + 10 then [rows[0]] else []) + EddingtonTable(rows[1..], en)
  }

  /** `x` clamped to `0 .. n`. */
  function Clamp(x: int, n: nat): (c: nat)
    ensures c <= n
    ensures 0 <= x <= n ==> c == x
  {
    if x < 0 then 0 else if x > n then n else x
  }

  /**
   * On rows listing consecutive distances from `base`, the page's table is
   * the contiguous run of rows with distances `en + 1 .. en + 10`, in order.
   */
  lemma {:induction false} EddingtonTableOfRun(rows: seq<HistogramRow>, base: int, en: int)
    requires forall d :: 0 <= d < |rows| ==> rows[d].distanceKm == base + d
    ensures EddingtonTable(rows, en) == rows[Clamp(en + 1 - base, |rows|)..Clamp(en + 11 - base, |rows|)]
    decreases |rows|
  {
    if rows != [] {
      ShiftRun(rows, base);
      EddingtonTableOfRun(rows[1..], base + 1, en);
      EddingtonTableCons(rows, en);
      WindowStep(rows, base, en);
    }
  }

  /** The window of distances `en + 1 .. en + 10` over a run, taken one row at a time. */
  lemma WindowStep(rows: seq<HistogramRow>, base: int, en: int)
    requires rows != []
    ensures var n := |rows|;
      (if en < base <= en + 10 then [rows[0]] else []) + rows[1..][Clamp(en - base, n - 1)..Clamp(en + 10 - base, n - 1)]
      == rows[Clamp(en + 1 - base, n)..Clamp(en + 11 - base, n)]
  {
    var n := |rows|;
    var lo, hi := Clamp(en - base, n - 1), Clamp(en + 10 - base, n - 1);
    assert rows[1..][lo..hi] == rows[lo + 1..hi + 1];
    if base > en + 10 {
      assert lo == 0 && hi == 0;
      assert Clamp(en + 1 - base, n) == 0 && Clamp(en + 11 - base, n) == 0;
    } else if en < base {
      assert lo == 0 && Clamp(en + 1 - base, n) == 0 && Clamp(en + 11 - base, n) == hi + 1;
      assert rows[0..hi + 1] == [rows[0]] + rows[1..hi + 1];
    } else {
      assert Clamp(en + 1 - base, n) == lo + 1 && Clamp(en + 11 - base, n) == hi + 1;
    }
  }

  lemma EddingtonTableCons(rows: seq<HistogramRow>, en: int)
    requires rows != []
    ensures EddingtonTable(rows, en) == (if en < rows[0].distanceKm <= en + 10 then [rows[0]] else []) + EddingtonTable(rows[1..], en)
  {
  }

  /** The rows after the first list consecutive distances from the next base. */
  lemma ShiftRun(rows: seq<HistogramRow>, base: int)
    requires rows != [] && forall d :: 0 <= d < |rows| ==> rows[d].distanceKm == base + d
    ensures forall d :: 0 <= d < |rows| - 1 ==> rows[1..][d].distanceKm == base + 1 + d
  {
    forall d | 0 <= d < |rows| - 1 ensures rows[1..][d].distanceKm == base + 1 + d {
      assert rows[1..][d] == rows[d + 1];
    }
  }

  /**
   * The page's table holds the rows for the ten distances past the
   * Eddington number, as far as the histogram reaches, in ascending
   * distance order and each once.
   */
  lemma HistogramEddingtonTable(days: seq<int>)
    requires Histogram(days).Some?
    ensures var rows, e := Histogram(days).value, EddingtonNumber(days);
      && e < |rows|
      && EddingtonTable(rows, e) == rows[e + 1..if e + 11 <= |rows| then e + 11 else |rows|]
    ensures var t := EddingtonTable(Histogram(days).value, EddingtonNumber(days));
      forall i :: 0 <= i < |t| ==> t[i].distanceKm == EddingtonNumber(days) + 1 + i
  {
    var rows, e := Histogram(days).value, EddingtonNumber(days);
    assert forall d :: 0 <= d < |rows| ==> rows[d].distanceKm == 0 + d;
    HistogramEddingtonNumber(days);
    LastReachedBound(rows);
    EddingtonTableOfRun(rows, 0, e);
    var hi := Clamp(e + 11, |rows|);
    var t := rows[e + 1..hi];
    forall i | 0 <= i < |t| ensures t[i].distanceKm == e + 1 + i {
      assert t[i] == rows[e + 1 + i];
    }
  }

  /** A distance read off the rows is one of theirs. */
  lemma {:induction false} LastReachedBound(rows: seq<HistogramRow>)
    requires forall d :: 0 <= d < |rows| ==> rows[d].distanceKm == d
    ensures LastReachedDistance(rows).Some? ==> 0 <= LastReachedDistance(rows).value < |rows|
    decreases |rows|
  {
    if rows != [] && rows[|rows| - 1].total < rows[|rows| - 1].distanceKm {
      var init := rows[..|rows| - 1];
      assert forall d :: 0 <= d < |init| ==> init[d] == rows[d];
      LastReachedBound(init);
    }
  }

  /** Every distance in the page's table still misses at least one day. */
  lemma EddingtonTableStillMissing(days: seq<int>)
    requires Histogram(days).Some?
    ensures forall r <- EddingtonTable(Histogram(days).value, EddingtonNumber(days)) :: r.missing >= 1
  {
    var rows := Histogram(days).value;
    forall r <- EddingtonTable(rows, EddingtonNumber(days))
      ensures r.missing >= 1
    {
      var d :| 0 <= d < |rows| && rows[d] == r;
      HistogramReachedRowsArePrefix(days, d);
    }
  }

  /** Three days of 10 km: Eddington number 3, and three days reach 3 km. */
  lemma ThreeLongDays()
    ensures var rows := Histogram([10, 10, 10]).value;
      |rows| == 11 && rows[3].total == 3 && LastReachedDistance(rows) == Some(3)
  {
    var days := [10, 10, 10];
    assert MaxOf(days) == 10;
    assert CountAtLeast(days, 3) == 3 && CountAtLeast(days, 4) == 3;
    EddingtonNumberUnique(days, 3);
    HistogramEddingtonNumber(days);
  }
}
