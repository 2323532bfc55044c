/**
 * The Eddington number history: walking the daily totals in date order and
 * keeping the days that currently count towards the Eddington number
 * (`top_days`), one history point per day.  The loop is modelled as written,
 * against its fold `AsWrittenTopDays`, and corrected, against the reference
 * Eddington number of the days seen so far.
 */
module EddingtonHistory {
  import opened Wrappers
  import opened Calendar
  import opened EddingtonNumbers
  import opened ActivityTable
  import opened DailyTotals

  /** One point of the history: midnight of the day, and the number after it. */
  datatype HistoryEntry = HistoryEntry(at: Timestamp, eddingtonNumber: int)

  /** `top_days[0]` on an empty list. */
  datatype HistoryError = IndexError

  /** The invariant of `top_days` between days: ascending, and every kept day reaches the number of kept days. */
  predicate TopDaysInvariant(top: seq<int>) {
    SortedAscending(top) && forall x <- top :: x >= |top|
  }

  /** `while top_days[0] < len(top_days): top_days.pop(0)`; None when the list runs empty and indexing it raises. */
  function PopSmall(top: seq<int>): (r: Option<seq<int>>)
    ensures r.Some? ==> r.value != [] && r.value[0] >= |r.value|
    decreases |top|
  {
    if top == [] then None
    else if top[0] < |top| then PopSmall(top[1..])
    else Some(top)
  }

  /**
   * What the pop loop leaves: the suffix after dropping, one by one, heads
   * below the length at the time; None exactly when every element is
   * dropped in turn.  (Stated as a lemma so that other proofs unfolding
   * `PopSmall` do not carry these quantifiers.)
   */
  lemma {:induction false} PopSmallSpec(top: seq<int>)
    ensures var r := PopSmall(top);
      && (r.Some? ==> exists k :: 0 <= k < |top| && r.value == top[k..] && forall j :: 0 <= j < k ==> top[j] < |top| - j)
      && (r.None? <==> forall j :: 0 <= j < |top| ==> top[j] < |top| - j)
    decreases |top|
  {
    if top != [] {
      if top[0] < |top| {
        PopSmallSpec(top[1..]);
        PopSmallStep(top, PopSmall(top[1..]));
      } else {
        assert top[0..] == top;
      }
    }
  }

  /** Dropping one short head carries the suffix and the all-dropped condition over from the tail to the list. */
  lemma PopSmallStep(top: seq<int>, r: Option<seq<int>>)
    requires top != [] && top[0] < |top|
    requires r.Some? ==> exists k :: 0 <= k < |top| - 1 && r.value == top[1..][k..] && forall j :: 0 <= j < k ==> top[1..][j] < |top| - 1 - j
    requires r.None? <==> forall j :: 0 <= j < |top| - 1 ==> top[1..][j] < |top| - 1 - j
    ensures r.Some? ==> exists k :: 0 <= k < |top| && r.value == top[k..] && forall j :: 0 <= j < k ==> top[j] < |top| - j
    ensures r.None? <==> forall j :: 0 <= j < |top| ==> top[j] < |top| - j
  {
    if r.Some? {
      var k :| 0 <= k < |top| - 1 && r.value == top[1..][k..] && forall j :: 0 <= j < k ==> top[1..][j] < |top| - 1 - j;
      assert top[1..][k..] == top[k + 1..];
      forall j | 0 <= j < k + 1
        ensures top[j] < |top| - j
      {
        if j > 0 {
          assert top[j] == top[1..][j - 1];
        }
      }
    }
    if forall j :: 0 <= j < |top| - 1 ==> top[1..][j] < |top| - 1 - j {
      forall j | 0 <= j < |top|
        ensures top[j] < |top| - j
      {
        if j > 0 {
          assert top[j] == top[1..][j - 1];
        }
      }
    } else {
      var j :| 0 <= j < |top| - 1 && top[1..][j] >= |top| - 1 - j;
      assert top[j + 1] >= |top| - (j + 1);
    }
  }

  /** The day is kept when the list is empty or the day reaches the smallest kept day; otherwise it is dropped. */
  function AsWrittenAdmit(top: seq<int>, v: int): seq<int> {
    if top == [] then [v]
    else if v >= top[0] then SortAscending(top + [v])
    else top
  }

  /** After adding a day that reaches the smallest kept day, every day reaches the old count. */
  lemma AdmittedReachCount(top: seq<int>, v: int, s: seq<int>)
    requires TopDaysInvariant(top) && top != [] && v >= top[0]
    requires multiset(s) == multiset(top) + multiset{v}
    ensures forall x <- s :: x >= |top|
  {
    assert top[0] in top;
    forall x <- s ensures x >= |top| {
      assert x in multiset(s);
      assert x in multiset(top) || x == v;
    }
  }

  /** When the smallest of the new list falls short of its length, exactly that one day is dropped. */
  lemma DropOneShortDay(s: seq<int>, L: nat)
    requires SortedAscending(s) && |s| == L + 1 && L >= 1
    requires forall x <- s :: x >= L
    requires s[0] < L + 1
    ensures PopSmall(s) == Some(s[1..])
    ensures TopDaysInvariant(s[1..]) && multiset(s[1..]) <= multiset(s)
  {
    var t := s[1..];
    assert t[0] == s[1] && s[1] in s;
    assert PopSmall(t) == Some(t);
    assert multiset(t) <= multiset(s) by {
      assert s == [s[0]] + t;
    }
    assert forall x <- t :: x in s;
  }

  /**
   * Adding a day that reaches the smallest kept day, sorting, then dropping
   * the short days, keeps the invariant.
   */
  lemma AsWrittenStepAdmitted(top: seq<int>, v: int, s: seq<int>)
    requires TopDaysInvariant(top) && top != [] && v >= top[0]
    requires SortedAscending(s) && multiset(s) == multiset(top) + multiset{v} && |s| == |top| + 1
    ensures PopSmall(s).Some?
    ensures TopDaysInvariant(PopSmall(s).value) && multiset(PopSmall(s).value) <= multiset(top) + multiset{v}
    ensures |top| <= |PopSmall(s).value| <= |top| + 1
  {
    var L := |top|;
    AdmittedReachCount(top, v, s);
    assert s[0] in s;
    if s[0] >= L + 1 {
      assert PopSmall(s) == Some(s);
      assert forall x <- s :: x >= s[0];
    } else {
      DropOneShortDay(s, L);
    }
  }

  /**
   * One day of the loop as written keeps the invariant, fails exactly on a
   * first day below 1 km, and changes the number of kept days by at most one
   * (never lowering it once a day is kept).
   */
  lemma AsWrittenStep(top: seq<int>, v: int)
    requires TopDaysInvariant(top)
    ensures var r := PopSmall(AsWrittenAdmit(top, v));
      && (r.None? <==> top == [] && v < 1)
      && (r.Some? ==> TopDaysInvariant(r.value) && multiset(r.value) <= multiset(top) + multiset{v})
      && (r.Some? ==> |r.value| <= |top| + 1 && (top != [] ==> |top| <= |r.value|))
  {
    if top == [] {
      assert PopSmall([v]) == if v < 1 then PopSmall([]) else Some([v]);
    } else if v < top[0] {
      assert top[0] in top;
    } else {
      assert multiset(top + [v]) == multiset(top) + multiset{v};
      SortAscendingSpec(top + [v]);
      AsWrittenStepAdmitted(top, v, SortAscending(top + [v]));
    }
  }

  /**
   * The part of `AsWrittenStep` the fold needs; kept separate so that
   * unfolding the fold does not bring in the multiset facts.
   */
  lemma AsWrittenStepInvariant(top: seq<int>, v: int)
    requires TopDaysInvariant(top)
    ensures var r := PopSmall(AsWrittenAdmit(top, v));
      && (r.None? <==> top == [] && v < 1)
      && (r.Some? ==> TopDaysInvariant(r.value))
  {
    AsWrittenStep(top, v);
  }

  /**
   * The kept days after the first `n` daily totals, for the loop as written;
   * None once it has raised.
   */
  function AsWrittenTopDays(kms: seq<int>, n: nat): (r: Option<seq<int>>)
    requires n <= |kms|
    ensures r.None? <==> n > 0 && kms[0] < 1
    ensures r.Some? ==> TopDaysInvariant(r.value) && (r.value == [] <==> n == 0)
    decreases n
  {
    if n == 0 then Some([])
    else
      match AsWrittenTopDays(kms, n - 1)
      case None => None
      case Some(top) =>
        AsWrittenStepInvariant(top, kms[n - 1]);
        PopSmall(AsWrittenAdmit(top, kms[n - 1]))
  }

  lemma SubMultisetPlusOne(a: multiset<int>, b: multiset<int>, c: multiset<int>, v: int)
    requires a <= b + multiset{v} && b <= c
    ensures a <= c + multiset{v}
  {
  }

  /** One more day advances the fold by one step of the loop. */
  lemma AsWrittenTopDaysNext(kms: seq<int>, n: nat)
    requires n < |kms| && AsWrittenTopDays(kms, n).Some?
    ensures AsWrittenTopDays(kms, n + 1) == PopSmall(AsWrittenAdmit(AsWrittenTopDays(kms, n).value, kms[n]))
  {
  }

  lemma MultisetOfLongerPrefix(kms: seq<int>, n: nat)
    requires 0 < n <= |kms|
    ensures multiset(kms[..n]) == multiset(kms[..n - 1]) + multiset{kms[n - 1]}
  {
    assert kms[..n] == kms[..n - 1] + [kms[n - 1]];
  }

  /** One step of the fold keeps only days that were kept before, plus the new day. */
  lemma AsWrittenStepKeeps(kms: seq<int>, n: nat)
    requires 0 < n <= |kms| && AsWrittenTopDays(kms, n - 1).Some? && AsWrittenTopDays(kms, n).Some?
    requires multiset(AsWrittenTopDays(kms, n - 1).value) <= multiset(kms[..n - 1])
    ensures multiset(AsWrittenTopDays(kms, n).value) <= multiset(kms[..n])
  {
    var top := AsWrittenTopDays(kms, n - 1).value;
    AsWrittenTopDaysNext(kms, n - 1);
    AsWrittenStep(top, kms[n - 1]);
    MultisetOfLongerPrefix(kms, n);
    SubMultisetPlusOne(multiset(AsWrittenTopDays(kms, n).value), multiset(top), multiset(kms[..n - 1]), kms[n - 1]);
  }

  /** After the first day, each day leaves the count of kept days as it was or one higher. */
  lemma AsWrittenStepsByAtMostOne(kms: seq<int>, n: nat)
    requires 1 <= n < |kms| && AsWrittenTopDays(kms, n + 1).Some?
    ensures AsWrittenTopDays(kms, n).Some?
    ensures |AsWrittenTopDays(kms, n).value| <= |AsWrittenTopDays(kms, n + 1).value| <= |AsWrittenTopDays(kms, n).value| + 1
  {
    AsWrittenTopDaysNext(kms, n);
    AsWrittenStep(AsWrittenTopDays(kms, n).value, kms[n]);
  }

  /** The kept days are among the days seen. */
  lemma {:induction false} AsWrittenKeepsSeenDays(kms: seq<int>, n: nat)
    requires n <= |kms| && AsWrittenTopDays(kms, n).Some?
    ensures multiset(AsWrittenTopDays(kms, n).value) <= multiset(kms[..n])
    decreases n
  {
    if n > 0 {
      AsWrittenKeepsSeenDays(kms, n - 1);
      AsWrittenStepKeeps(kms, n);
    }
  }

  /** The loop as written never overstates: the kept days reach their own count, so the number is at least that. */
  lemma AsWrittenNeverOvercounts(kms: seq<int>, n: nat)
    requires n <= |kms| && AsWrittenTopDays(kms, n).Some?
    ensures |AsWrittenTopDays(kms, n).value| <= EddingtonNumber(kms[..n])
  {
    var top := AsWrittenTopDays(kms, n).value;
    AllReach(top, |top|);
    AsWrittenKeepsSeenDays(kms, n);
    CountAtLeastSubMultiset(top, kms[..n], |top|);
    ReachedIsAtMostEddington(kms[..n], |top|);
  }

  /** Totals 5, 1, 2 km: the loop as written keeps only the 5 km day, but two days reach 2 km. */
  lemma AsWrittenMissesLaterDays()
    ensures AsWrittenTopDays([5, 1, 2], 3) == Some([5])
    ensures EddingtonNumber([5, 1, 2]) == 2
  {
    var kms := [5, 1, 2];
    assert AsWrittenTopDays(kms, 1) == Some([5]);
    assert AsWrittenTopDays(kms, 2) == Some([5]);
    assert CountAtLeast(kms, 2) == 2 && CountAtLeast(kms, 3) == 1;
    EddingtonNumberUnique(kms, 2);
  }

  /**
   * One day of the loop as written: admit the day or not, then drop short
   * days, raising on an empty list.  Started from the kept days after the
   * first `n` totals, it gives those after the first `n + 1`.
   */
  method AsWrittenAddDay(ghost kms: seq<int>, ghost n: nat, top: seq<int>, v: int) returns (r: Option<seq<int>>)
    requires n < |kms| && AsWrittenTopDays(kms, n) == Some(top) && v == kms[n]
    ensures r == AsWrittenTopDays(kms, n + 1)
  {
    AsWrittenTopDaysNext(kms, n);
    var next := top;
    if |next| == 0 {
      next := [v];
    } else if v >= next[0] {
      next := SortAscending(next + [v]);
    }
    while next == [] || next[0] < |next|
      invariant PopSmall(next) == PopSmall(AsWrittenAdmit(top, v))
      decreases |next|
    {
      if next == [] {
        return None;
      }
      next := next[1..];
    }
    return Some(next);
  }

  /** The loop of `get_eddington_number_history` as written, over the daily totals in date order. */
  method HistoryOfDaysAsWritten(days: seq<DayTotal>) returns (r: Result<seq<HistoryEntry>, HistoryError>)
    ensures r.Failure? <==> days != [] && days[0].km < 1
    ensures r.Success? ==>
      && |r.value| == |days|
      && forall n :: 1 <= n <= |days| ==>
        && AsWrittenTopDays(Kms(days), n).Some?
        && r.value[n - 1] == HistoryEntry(StartOfDay(days[n - 1].date), |AsWrittenTopDays(Kms(days), n).value|)
    ensures r.Success? ==> forall n :: 1 <= n < |days| ==>
      r.value[n - 1].eddingtonNumber <= r.value[n].eddingtonNumber <= r.value[n - 1].eddingtonNumber + 1
  {
    var kms := Kms(days);
    var history: seq<HistoryEntry> := [];
    var top: seq<int> := [];
    var i := 0;
    while i < |days|
      invariant 0 <= i <= |days| && |history| == i
      invariant AsWrittenTopDays(kms, i) == Some(top)
      invariant forall n :: 1 <= n <= i ==>
        && AsWrittenTopDays(kms, n).Some?
        && history[n - 1] == HistoryEntry(StartOfDay(days[n - 1].date), |AsWrittenTopDays(kms, n).value|)
    {
      var next := AsWrittenAddDay(kms, i, top, days[i].km);
      if next.None? {
        return Failure(IndexError);
      }
      top := next.value;
      ghost var before := history;
      history := history + [HistoryEntry(StartOfDay(days[i].date), |top|)];
      forall n | 1 <= n <= i + 1
        ensures AsWrittenTopDays(kms, n).Some?
        ensures history[n - 1] == HistoryEntry(StartOfDay(days[n - 1].date), |AsWrittenTopDays(kms, n).value|)
      {
        if n <= i {
          assert history[n - 1] == before[n - 1];
        }
      }
      i := i + 1;
    }
    forall n | 1 <= n < |days|
      ensures history[n - 1].eddingtonNumber <= history[n].eddingtonNumber <= history[n - 1].eddingtonNumber + 1
    {
      AsWrittenStepsByAtMostOne(kms, n);
    }
    r := Success(history);
  }

  /**
   * `get_eddington_number_history` as written: it fails exactly when the
   * first day's total is below 1 km, and otherwise records the count of
   * kept days after each day.
   */
  method GetEddingtonNumberHistoryAsWritten(records: seq<Activity>) returns (r: Result<seq<HistoryEntry>, HistoryError>)
    ensures var days := DailyDistances(records);
      r.Failure? <==> days != [] && days[0].km < 1
    ensures var days := DailyDistances(records);
      r.Success? ==>
        && |r.value| == |days|
        && forall n :: 1 <= n <= |days| ==>
          && AsWrittenTopDays(Kms(days), n).Some?
          && r.value[n - 1] == HistoryEntry(StartOfDay(days[n - 1].date), |AsWrittenTopDays(Kms(days), n).value|)
    ensures var days := DailyDistances(records);
      r.Success? ==> forall n :: 1 <= n < |days| ==>
        r.value[n - 1].eddingtonNumber <= r.value[n].eddingtonNumber <= r.value[n - 1].eddingtonNumber + 1
  {
    r := HistoryOfDaysAsWritten(DailyDistances(records));
  }

  /**
   * Of an ascending list whose elements are those of `rest` and one more
   * value `v`, where every element of `rest` reaches `lo`, all but the first
   * element reach `lo`.
   */
  lemma AllButFirstReach(s: seq<int>, rest: seq<int>, v: int, lo: int)
    requires SortedAscending(s) && multiset(s) == multiset(rest) + multiset{v}
    requires forall x <- rest :: x >= lo
    ensures forall k :: 1 <= k < |s| ==> s[k] >= lo
  {
    assert s == [s[0]] + s[1..];
    assert multiset(s) == multiset{s[0]} + multiset(s[1..]);
    forall k | 1 <= k < |s|
      ensures s[k] >= lo
    {
      assert s[k] == s[1..][k - 1];
      assert s[k] in multiset(s[1..]);
      if s[0] == v {
        assert multiset(s[1..]) == multiset(s) - multiset{s[0]};
        assert multiset(s[1..]) == multiset(rest);
        assert s[k] in rest;
      } else {
        assert s[0] in multiset(s);
        assert s[0] in rest;
      }
    }
  }

  /**
   * The number of kept days is the Eddington number of all days seen when
   * every kept day reaches that count and every dropped day stays at or
   * below it.
   */
  lemma EddingtonFromTop(seen: seq<int>, top: seq<int>, popped: seq<int>)
    requires multiset(top) + multiset(popped) == multiset(seen)
    requires forall x <- top :: x >= |top|
    requires forall p <- popped :: p <= |top|
    ensures EddingtonNumber(seen) == |top|
  {
    var k := |top|;
    assert multiset(top + popped) == multiset(top) + multiset(popped);
    AllReach(top, k);
    CountAtLeastConcat(top, popped, k);
    CountAtLeastConcat(top, popped, k + 1);
    NoneBeyond(popped, k);
    CountAtLeastPermutation(top + popped, seen, k);
    CountAtLeastPermutation(top + popped, seen, k + 1);
    EddingtonNumberUnique(seen, k);
  }

  /** `top_days.append(distance); top_days.sort()` */
  method AppendAndSort(top: seq<int>, v: int) returns (s: seq<int>)
    ensures SortedAscending(s) && multiset(s) == multiset(top) + multiset{v} && |s| == |top| + 1
  {
    s := SortAscending(top + [v]);
    SortAscendingSpec(top + [v]);
    assert multiset(top + [v]) == multiset(top) + multiset{v};
  }

  /**
   * One day of the corrected loop: the day is always added, the list
   * sorted, and the smallest days dropped while they are shorter than the
   * number of kept days, stopping on an empty list.
   */
  method AddDay(top: seq<int>, v: int) returns (next: seq<int>, ghost dropped: seq<int>)
    requires TopDaysInvariant(top)
    ensures TopDaysInvariant(next) && |top| <= |next| <= |top| + 1
    ensures multiset(next) + multiset(dropped) == multiset(top) + multiset{v}
    ensures forall p <- dropped :: p <= |next|
  {
    next := AppendAndSort(top, v);
    AllButFirstReach(next, top, v, |top|);
    dropped := [];
    while next != [] && next[0] < |next|
      invariant SortedAscending(next) && |top| <= |next| <= |top| + 1
      invariant multiset(next) + multiset(dropped) == multiset(top) + multiset{v}
      invariant forall k :: 1 <= k < |next| ==> next[k] >= |top|
      invariant |next| == |top| ==> forall k :: 0 <= k < |next| ==> next[k] >= |top|
      invariant forall p <- dropped :: p <= |top|
      decreases |next|
    {
      DropFirst(next, |top|);
      dropped := dropped + [next[0]];
      next := next[1..];
    }
    AllReachFirst(next);
  }

  /** The days seen after one more day: the kept ones, the earlier dropped ones and the newly dropped ones. */
  lemma RegroupSeenDays(top: seq<int>, popped: seq<int>, next: seq<int>, dropped: seq<int>, v: int)
    requires multiset(next) + multiset(dropped) == multiset(top) + multiset{v}
    requires |top| <= |next| && (forall p <- popped :: p <= |top|) && forall p <- dropped :: p <= |next|
    ensures multiset(next) + multiset(popped + dropped) == multiset(top) + multiset(popped) + multiset{v}
    ensures forall p <- popped + dropped :: p <= |next|
  {
    assert multiset(popped + dropped) == multiset(popped) + multiset(dropped);
    calc {
      multiset(next) + multiset(popped + dropped);
      multiset(next) + multiset(dropped) + multiset(popped);
      multiset(top) + multiset{v} + multiset(popped);
    }
  }

  /** Dropping the first element of an ascending list. */
  lemma DropFirst(s: seq<int>, lo: int)
    requires SortedAscending(s) && s != []
    requires forall k :: 1 <= k < |s| ==> s[k] >= lo
    ensures SortedAscending(s[1..]) && forall k :: 0 <= k < |s| - 1 ==> s[1..][k] >= lo
    ensures multiset(s) == multiset{s[0]} + multiset(s[1..])
  {
    assert s == [s[0]] + s[1..];
  }

  /** In an ascending list whose first element reaches the length, every element does. */
  lemma AllReachFirst(s: seq<int>)
    requires SortedAscending(s) && (s == [] || s[0] >= |s|)
    ensures forall x <- s :: x >= |s|
  {
    forall x <- s ensures x >= |s| {
      var k :| 0 <= k < |s| && s[k] == x;
      assert s[0] <= s[k];
    }
  }

  /** The corrected loop over the daily totals in date order: each point is the Eddington number of the days so far. */
  method HistoryOfDays(days: seq<DayTotal>) returns (history: seq<HistoryEntry>)
    ensures |history| == |days|
    ensures forall i :: 0 <= i < |days| ==>
      history[i] == HistoryEntry(StartOfDay(days[i].date), EddingtonNumber(Kms(days)[..i + 1]))
  {
    var kms := Kms(days);
    history := [];
    var top: seq<int> := [];
    ghost var popped: seq<int> := [];
    var i := 0;
    while i < |days|
      invariant 0 <= i <= |days| && |history| == i
      invariant forall j :: 0 <= j < i ==>
        history[j] == HistoryEntry(StartOfDay(days[j].date), EddingtonNumber(kms[..j + 1]))
      invariant TopDaysInvariant(top)
      invariant multiset(top) + multiset(popped) == multiset(kms[..i])
      invariant forall p <- popped :: p <= |top|
    {
      var next, dropped := AddDay(top, days[i].km);
      MultisetOfLongerPrefix(kms, i + 1);
      RegroupSeenDays(top, popped, next, dropped, days[i].km);
      popped := popped + dropped;
      top := next;
      EddingtonFromTop(kms[..i + 1], top, popped);
      history := history + [HistoryEntry(StartOfDay(days[i].date), |top|)];
      i := i + 1;
    }
  }

  /**
   * `get_eddington_number_history` corrected: each point is the Eddington
   * number of all days up to and including it.
   */
  method GetEddingtonNumberHistory(records: seq<Activity>) returns (history: seq<HistoryEntry>)
    ensures var days := DailyDistances(records);
      && |history| == |days|
      && forall i :: 0 <= i < |days| ==>
        history[i] == HistoryEntry(StartOfDay(days[i].date), EddingtonNumber(Kms(days)[..i + 1]))
  {
    history := HistoryOfDays(DailyDistances(records));
  }

  /** From one day to the next the corrected history rises by at most one and never falls. */
  lemma HistoryStepsByAtMostOne(kms: seq<int>, i: int)
    requires 0 < i < |kms|
    ensures EddingtonNumber(kms[..i]) <= EddingtonNumber(kms[..i + 1]) <= EddingtonNumber(kms[..i]) + 1
  {
    assert kms[..i + 1] == kms[..i] + [kms[i]];
    EddingtonNumberOneMoreDay(kms[..i], kms[i]);
  }
}
