/**
 * The Eddington number of a collection of daily totals (whole kilometres):
 * the largest E such that at least E days reach E km.  A reference
 * definition by counting, the facts about counting it rests on, the two
 * sorts the source uses, and `get_eddington_number` both as written and
 * corrected.
 */
module EddingtonNumbers {
  import opened Wrappers

  /** The number of days whose total is at least `k`. */
  function CountAtLeast(days: seq<int>, k: int): (n: nat)
    ensures n <= |days|
  {
    if days == [] then 0 else (if days[0] >= k then 1 else 0) + CountAtLeast(days[1..], k)
  }

  /** No day reaches past the longest one. */
  lemma {:induction false} NoneBeyond(days: seq<int>, m: int)
    requires forall x <- days :: x <= m
    ensures CountAtLeast(days, m + 1) == 0
  {
    if days != [] {
      assert days[0] in days;
      assert forall x <- days[1..] :: x in days;
      NoneBeyond(days[1..], m);
    }
  }

  /** When every day reaches `k`, the count is the number of days. */
  lemma {:induction false} AllReach(days: seq<int>, k: int)
    requires forall x <- days :: x >= k
    ensures CountAtLeast(days, k) == |days|
  {
    if days != [] {
      assert days[0] in days;
      assert forall x <- days[1..] :: x in days;
      AllReach(days[1..], k);
    }
  }

  /** The number of days whose total is exactly `k`. */
  function CountEqual(days: seq<int>, k: int): (n: nat)
    ensures n <= |days|
  {
    if days == [] then 0 else (if days[0] == k then 1 else 0) + CountEqual(days[1..], k)
  }

  /** Reaching `k` means reaching exactly `k` or reaching `k + 1`. */
  lemma {:induction false} CountAtLeastSplit(days: seq<int>, k: int)
    ensures CountAtLeast(days, k) == CountEqual(days, k) + CountAtLeast(days, k + 1)
  {
    if days != [] {
      CountAtLeastSplit(days[1..], k);
    }
  }

  /** Fewer days reach a larger distance. */
  lemma {:induction false} CountAtLeastAntitone(days: seq<int>, j: int, k: int)
    requires j <= k
    ensures CountAtLeast(days, k) <= CountAtLeast(days, j)
  {
    if days != [] {
      CountAtLeastAntitone(days[1..], j, k);
    }
  }

  lemma {:induction false} CountAtLeastConcat(a: seq<int>, b: seq<int>, k: int)
    ensures CountAtLeast(a + b, k) == CountAtLeast(a, k) + CountAtLeast(b, k)
  {
    if a == [] {
      assert a + b == b;
    } else {
      assert (a + b)[1..] == a[1..] + b;
      CountAtLeastConcat(a[1..], b, k);
    }
  }

  /** Removing the day at position `j` removes exactly its own contribution. */
  lemma CountAtLeastRemove(b: seq<int>, j: nat, k: int)
    requires j < |b|
    ensures CountAtLeast(b, k) == CountAtLeast(b[..j] + b[j + 1..], k) + (if b[j] >= k then 1 else 0)
  {
    assert b == b[..j] + ([b[j]] + b[j + 1..]);
    CountAtLeastConcat(b[..j], [b[j]] + b[j + 1..], k);
    CountAtLeastConcat(b[..j], b[j + 1..], k);
    assert ([b[j]] + b[j + 1..])[1..] == b[j + 1..];
  }

  lemma SubMultisetMinusOne(a: multiset<int>, b: multiset<int>, v: int)
    requires a + multiset{v} <= b + multiset{v}
    ensures a <= b
  {
    forall x
      ensures a[x] <= b[x]
    {
      assert (a + multiset{v})[x] <= (b + multiset{v})[x];
    }
  }

  /** Counting respects sub-multisets: days kept from a collection cannot reach `k` more often. */
  lemma {:induction false} CountAtLeastSubMultiset(a: seq<int>, b: seq<int>, k: int)
    requires multiset(a) <= multiset(b)
    ensures CountAtLeast(a, k) <= CountAtLeast(b, k)
    decreases |a|
  {
    if a != [] {
      assert a[0] in multiset(b);
      var j :| 0 <= j < |b| && b[j] == a[0];
      var rest := b[..j] + b[j + 1..];
      assert b == b[..j] + [b[j]] + b[j + 1..];
      assert multiset(b) == multiset(rest) + multiset{a[0]};
      assert a == [a[0]] + a[1..];
      SubMultisetMinusOne(multiset(a[1..]), multiset(rest), a[0]);
      CountAtLeastSubMultiset(a[1..], rest, k);
      CountAtLeastRemove(b, j, k);
    }
  }

  /** The count depends only on the multiset of totals, not on their order. */
  lemma CountAtLeastPermutation(a: seq<int>, b: seq<int>, k: int)
    requires multiset(a) == multiset(b)
    ensures CountAtLeast(a, k) == CountAtLeast(b, k)
  {
    CountAtLeastSubMultiset(a, b, k);
    CountAtLeastSubMultiset(b, a, k);
  }

  /** `e` is the Eddington number of `days`: `e` days reach `e`, but not `e + 1` days reach `e + 1`. */
  predicate IsEddingtonNumber(days: seq<int>, e: int) {
    0 <= e && CountAtLeast(days, e) >= e && CountAtLeast(days, e + 1) < e + 1
  }

  /** The largest `e <= k` reached by `e` days. */
  function LargestReached(days: seq<int>, k: nat): (e: nat)
    ensures e <= k && CountAtLeast(days, e) >= e
    ensures forall j :: e < j <= k ==> CountAtLeast(days, j) < j
  {
    if k == 0 || CountAtLeast(days, k) >= k then k else LargestReached(days, k - 1)
  }

  /** The reference Eddington number. */
  function EddingtonNumber(days: seq<int>): (e: nat)
    ensures IsEddingtonNumber(days, e)
    ensures e <= |days|
  {
    LargestReached(days, |days|)
  }

  /** Any distance reached by that many days is at most the Eddington number. */
  lemma ReachedIsAtMostEddington(days: seq<int>, k: int)
    requires CountAtLeast(days, k) >= k
    ensures k <= EddingtonNumber(days)
  {
  }

  /** The Eddington number is the only value with its defining property. */
  lemma EddingtonNumberUnique(days: seq<int>, e: int)
    requires IsEddingtonNumber(days, e)
    ensures e == EddingtonNumber(days)
  {
    var n := EddingtonNumber(days);
    ReachedIsAtMostEddington(days, e);
    if e < n {
      CountAtLeastAntitone(days, e + 1, n);
    }
  }

  /** Reordering the days does not change the Eddington number. */
  lemma EddingtonNumberOrderIndependent(a: seq<int>, b: seq<int>)
    requires multiset(a) == multiset(b)
    ensures EddingtonNumber(a) == EddingtonNumber(b)
  {
    var e := EddingtonNumber(a);
    CountAtLeastPermutation(a, b, e);
    CountAtLeastPermutation(a, b, e + 1);
    EddingtonNumberUnique(b, e);
  }

  /** One more day never lowers the Eddington number and raises it by at most one. */
  lemma EddingtonNumberOneMoreDay(days: seq<int>, v: int)
    ensures EddingtonNumber(days) <= EddingtonNumber(days + [v]) <= EddingtonNumber(days) + 1
  {
    var e, e' := EddingtonNumber(days), EddingtonNumber(days + [v]);
    CountAtLeastConcat(days, [v], e);
    ReachedIsAtMostEddington(days + [v], e);
    CountAtLeastConcat(days, [v], e');
    if e' >= e + 2 {
      CountAtLeastAntitone(days, e + 1, e');
    }
  }

  /** A single day counts 1 exactly when it reaches 1 km. */
  lemma EddingtonNumberOfOneDay(d: int)
    ensures EddingtonNumber([d]) == if d >= 1 then 1 else 0
  {
    EddingtonNumberUnique([d], if d >= 1 then 1 else 0);
  }

  // ---- sorting ----

  predicate SortedDescending(s: seq<int>) {
    forall i, j :: 0 <= i < j < |s| ==> s[i] >= s[j]
  }

  predicate SortedAscending(s: seq<int>) {
    forall i, j :: 0 <= i < j < |s| ==> s[i] <= s[j]
  }

  /** A head no smaller than the first element keeps a descending list descending. */
  lemma ConsDescending(h: int, s: seq<int>)
    requires SortedDescending(s) && (s == [] || s[0] <= h)
    ensures SortedDescending([h] + s)
  {
    assert forall i :: 0 <= i < |s| ==> s[i] <= h by {
      assert forall i :: 0 <= i < |s| ==> s[i] <= s[0];
    }
  }

  /** A head no larger than the first element keeps an ascending list ascending. */
  lemma ConsAscending(h: int, s: seq<int>)
    requires SortedAscending(s) && (s == [] || h <= s[0])
    ensures SortedAscending([h] + s)
  {
    assert forall i :: 0 <= i < |s| ==> h <= s[i] by {
      assert forall i :: 0 <= i < |s| ==> s[0] <= s[i];
    }
  }

  lemma MultisetCons(h: int, s: seq<int>, rest: seq<int>, x: int)
    requires multiset(rest) == multiset(s) + multiset{x}
    ensures multiset([h] + rest) == multiset([h] + s) + multiset{x}
  {
  }

  function InsertDescending(x: int, s: seq<int>): (r: seq<int>)
    requires SortedDescending(s)
    ensures SortedDescending(r) && multiset(r) == multiset(s) + multiset{x} && |r| == |s| + 1
    ensures r[0] == x || (s != [] && r[0] == s[0])
  {
    if s == [] || x >= s[0] then
      ConsDescending(x, s);
      [x] + s
    else
      var rest := InsertDescending(x, s[1..]);
      assert s == [s[0]] + s[1..];
      ConsDescending(s[0], rest);
      MultisetCons(s[0], s[1..], rest, x);
      [s[0]] + rest
  }

  /** `sorted(xs, reverse=True)` */
  function SortDescending(s: seq<int>): (r: seq<int>)
    ensures SortedDescending(r) && multiset(r) == multiset(s) && |r| == |s|
  {
    if s == [] then []
    else
      assert s == [s[0]] + s[1..];
      InsertDescending(s[0], SortDescending(s[1..]))
  }

  /** Inserts `x` before the first element it does not exceed. */
  function InsertAscending(x: int, s: seq<int>): seq<int> {
    if s == [] || x <= s[0] then [x] + s
    else [s[0]] + InsertAscending(x, s[1..])
  }

  /** `list.sort()`, by insertion. */
  function SortAscending(s: seq<int>): seq<int> {
    if s == [] then [] else InsertAscending(s[0], SortAscending(s[1..]))
  }

  /**
   * Inserting into an ascending list keeps it ascending and adds exactly
   * the one element.  (Stated as lemmas rather than on the functions so
   * that unfolding the sort in other proofs stays cheap.)
   */
  lemma {:induction false} InsertAscendingSpec(x: int, s: seq<int>)
    requires SortedAscending(s)
    ensures var r := InsertAscending(x, s);
      && SortedAscending(r) && multiset(r) == multiset(s) + multiset{x} && |r| == |s| + 1
      && (r[0] == x || (s != [] && r[0] == s[0]))
  {
    if s == [] || x <= s[0] {
      ConsAscending(x, s);
    } else {
      var rest := InsertAscending(x, s[1..]);
      InsertAscendingSpec(x, s[1..]);
      assert s == [s[0]] + s[1..];
      ConsAscending(s[0], rest);
      MultisetCons(s[0], s[1..], rest, x);
    }
  }

  /** The sort gives an ascending permutation of its input. */
  lemma {:induction false} SortAscendingSpec(s: seq<int>)
    ensures var r := SortAscending(s);
      SortedAscending(r) && multiset(r) == multiset(s) && |r| == |s|
  {
    if s != [] {
      SortAscendingSpec(s[1..]);
      InsertAscendingSpec(s[0], SortAscending(s[1..]));
      assert s == [s[0]] + s[1..];
    }
  }

  /** In a descending list whose entry at `m` is below `v`, at most `m` days reach `v`. */
  lemma {:induction false} SortedCountBelow(t: seq<int>, m: nat, v: int)
    requires SortedDescending(t) && m < |t| && t[m] < v
    ensures CountAtLeast(t, v) <= m
  {
    if m == 0 {
      NoneReach(t, v);
    } else {
      SortedCountBelow(t[1..], m - 1, v);
    }
  }

  lemma {:induction false} NoneReach(t: seq<int>, v: int)
    requires SortedDescending(t) && t != [] && t[0] < v
    ensures CountAtLeast(t, v) == 0
  {
    if |t| > 1 {
      NoneReach(t[1..], v);
    }
  }

  /** In a descending list whose entry at `m - 1` reaches `v`, at least `m` days reach `v`. */
  lemma {:induction false} SortedCountAbove(t: seq<int>, m: nat, v: int)
    requires SortedDescending(t) && 1 <= m <= |t| && t[m - 1] >= v
    ensures CountAtLeast(t, v) >= m
  {
    if m > 1 {
      SortedCountAbove(t[1..], m - 1, v);
    }
  }

  // ---- get_eddington_number ----

  /**
   * `get_eddington_number` as written: one day reaching 1 km gives 1;
   * otherwise the first 1-based rank whose descending value is below the
   * rank gives rank - 1, and when there is no such rank the function falls
   * off its end and returns None.
   */
  method GetEddingtonNumberAsWritten(distances: seq<int>) returns (r: Option<int>)
    ensures r.Some? ==> r.value == EddingtonNumber(distances)
    ensures r.None? <==> |distances| != 1 && CountAtLeast(distances, |distances|) == |distances|
  {
    if |distances| == 1 {
      if distances[0] >= 1 {
        EddingtonNumberOfOneDay(distances[0]);
        return Some(1);
      }
      // the source's `else: 0` is an expression statement: control falls through
    }
    var sorted := SortDescending(distances);
    var n := |sorted|;
    var en := 1;
    while en <= n
      invariant 1 <= en <= n + 1
      invariant forall j :: 0 <= j < en - 1 ==> sorted[j] >= j + 1
    {
      if sorted[en - 1] < en {
        RankBelowValue(distances, sorted, en);
        SortedCountBelow(sorted, en - 1, en);
        CountAtLeastAntitone(sorted, en, n);
        CountAtLeastPermutation(sorted, distances, n);
        return Some(en - 1);
      }
      en := en + 1;
    }
    if n > 0 {
      SortedCountAbove(sorted, n, n);
      CountAtLeastPermutation(sorted, distances, n);
    }
    return None;
  }

  /**
   * The first rank `en` (1-based) whose descending value is below `en`
   * puts the Eddington number at `en - 1`.
   */
  lemma RankBelowValue(distances: seq<int>, sorted: seq<int>, en: int)
    requires SortedDescending(sorted) && multiset(sorted) == multiset(distances)
    requires 1 <= en <= |sorted| && sorted[en - 1] < en
    requires forall j :: 0 <= j < en - 1 ==> sorted[j] >= j + 1
    ensures EddingtonNumber(distances) == en - 1
  {
    SortedCountBelow(sorted, en - 1, en);
    if en > 1 {
      SortedCountAbove(sorted, en - 1, en - 1);
    }
    EddingtonNumberUnique(sorted, en - 1);
    EddingtonNumberOrderIndependent(sorted, distances);
  }

  /**
   * `get_eddington_number` corrected: the single-day branch returns 0 below
   * 1 km, and when every rank is reached the answer is the number of days.
   */
  method GetEddingtonNumber(distances: seq<int>) returns (e: nat)
    ensures e == EddingtonNumber(distances)
  {
    if |distances| == 1 {
      EddingtonNumberOfOneDay(distances[0]);
      return if distances[0] >= 1 then 1 else 0;
    }
    var sorted := SortDescending(distances);
    var n := |sorted|;
    var en := 1;
    while en <= n
      invariant 1 <= en <= n + 1
      invariant forall j :: 0 <= j < en - 1 ==> sorted[j] >= j + 1
    {
      if sorted[en - 1] < en {
        RankBelowValue(distances, sorted, en);
        return en - 1;
      }
      en := en + 1;
    }
    if n > 0 {
      SortedCountAbove(sorted, n, n);
    }
    EddingtonNumberUnique(sorted, n);
    EddingtonNumberOrderIndependent(sorted, distances);
    return n;
  }

  /** Three days of 10 km: every rank is reached, so the source returns None where the number is 3. */
  lemma AsWrittenFallsOffForThreeLongDays()
    ensures var d := [10, 10, 10]; |d| != 1 && CountAtLeast(d, |d|) == |d| && EddingtonNumber(d) == 3
  {
    var d := [10, 10, 10];
    assert CountAtLeast(d, 3) == 3;
    assert CountAtLeast(d, 4) == 3;
    EddingtonNumberUnique(d, 3);
  }
}
