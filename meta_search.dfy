/**
 * The activity search: a query of optional predicates (equipment, kind,
 * name pattern, first and last calendar day), the per-row mask it folds
 * into, the filtered table, and the query's two external forms (the view
 * handed to templates and the URL query string).
 */
module MetaSearch {
  import opened Wrappers
  import opened Calendar
  import opened UrlEncoding
  import opened ActivityTable

  datatype SearchQuery = SearchQuery(
    equipment: seq<string>,
    kind: seq<string>,
    name: Option<string>,
    nameCaseSensitive: bool,
    startBegin: Option<Date>,
    startEnd: Option<Date>)

  /** `SearchQuery()` with every field at its default. */
  const EmptyQuery: SearchQuery := SearchQuery([], [], None, false, None, None)

  /** Python truthiness of `name`: neither None nor the empty string. */
  predicate HasName(q: SearchQuery) {
    q.name.Some? && q.name.value != []
  }

  /** The `active` property: some filter field is set; the case flag alone does not count. */
  predicate Active(q: SearchQuery) {
    q.equipment != [] || q.kind != [] || HasName(q) || q.startBegin.Some? || q.startEnd.Some?
  }

  // ---- the view handed to templates ----

  function FormatOptionalDate(d: Option<Date>): (s: string)
    ensures s == [] <==> d.None?
    ensures d.Some? ==> ParseIsoDate(s) == Some(d.value)
  {
    match d
    case None => []
    case Some(date) => IsoRoundTrip(date); IsoFormat(date)
  }

  /** Reads a date field of the template view back. */
  function ParseOptionalDate(s: string): Option<Date> {
    if s == [] then None else ParseIsoDate(s)
  }

  datatype JinjaView = JinjaView(
    equipment: seq<string>,
    kind: seq<string>,
    name: string,
    nameCaseSensitive: bool,
    startBegin: string,
    startEnd: string,
    active: bool)

  /** `to_jinja`: an absent name or date shows as the empty string; nothing is lost otherwise. */
  function ToJinja(q: SearchQuery): (v: JinjaView)
    ensures v.equipment == q.equipment && v.kind == q.kind
    ensures v.nameCaseSensitive == q.nameCaseSensitive
    ensures v.name == [] <==> !HasName(q)
    ensures HasName(q) ==> v.name == q.name.value
    ensures ParseOptionalDate(v.startBegin) == q.startBegin
    ensures ParseOptionalDate(v.startEnd) == q.startEnd
    ensures v.active <==> Active(q)
  {
    JinjaView(
      q.equipment,
      q.kind,
      if q.name.Some? then q.name.value else [],
      q.nameCaseSensitive,
      FormatOptionalDate(q.startBegin),
      FormatOptionalDate(q.startEnd),
      Active(q))
  }

  // ---- the per-row predicates ----

  function LowerChar(c: char): char {
    if 'A' <= c <= 'Z' then (c as int - 'A' as int + 'a' as int) as char else c
  }

  function Lower(s: string): (r: string)
    ensures |r| == |s| && forall i :: 0 <= i < |s| ==> r[i] == LowerChar(s[i])
  {
    seq(|s|, i requires 0 <= i < |s| => LowerChar(s[i]))
  }

  /** `pattern` occurs in `text` starting at its first character or later. */
  predicate Contains(text: string, pattern: string)
    decreases |text|
  {
    pattern <= text || (text != [] && Contains(text[1..], pattern))
  }

  /** `pattern` occurs in `text` at position `i`. */
  predicate OccursAt(text: string, pattern: string, i: int) {
    0 <= i <= |text| - |pattern| && text[i..i + |pattern|] == pattern
  }

  /** Contains agrees with the positional definition of "occurs somewhere". */
  lemma {:induction false} ContainsIff(text: string, pattern: string)
    ensures Contains(text, pattern) <==> exists i :: OccursAt(text, pattern, i)
    decreases |text|
  {
    if pattern <= text {
      assert OccursAt(text, pattern, 0);
    }
    if text != [] {
      ContainsIff(text[1..], pattern);
      if exists i :: OccursAt(text[1..], pattern, i) {
        var i :| OccursAt(text[1..], pattern, i);
        assert text[i + 1..i + 1 + |pattern|] == text[1..][i..i + |pattern|];
        assert OccursAt(text, pattern, i + 1);
      }
      if exists i :: OccursAt(text, pattern, i) {
        var i :| OccursAt(text, pattern, i);
        if i > 0 {
          assert text[1..][i - 1..i - 1 + |pattern|] == text[i..i + |pattern|];
          assert OccursAt(text[1..], pattern, i - 1);
        } else {
          assert pattern <= text;
        }
      }
    } else {
      if exists i :: OccursAt(text, pattern, i) {
        var i :| OccursAt(text, pattern, i);
        assert pattern <= text;
      }
    }
  }

  /** `re.search(pattern, name, flags)` read as a literal substring search. */
  predicate NameMatches(pattern: string, name: string, caseSensitive: bool) {
    if caseSensitive then Contains(name, pattern) else Contains(Lower(name), Lower(pattern))
  }

  predicate EquipmentOk(q: SearchQuery, a: Activity) {
    q.equipment == [] || a.equipment in q.equipment
  }

  predicate KindOk(q: SearchQuery, a: Activity) {
    q.kind == [] || a.kind in q.kind
  }

  predicate NameOk(q: SearchQuery, a: Activity) {
    !HasName(q) || NameMatches(q.name.value, a.name, q.nameCaseSensitive)
  }

  /** `bound <= start`, which is False for a missing start. */
  predicate StartsNoEarlierThan(start: Option<Timestamp>, bound: Timestamp) {
    start.Some? && TimestampAtMost(bound, start.value)
  }

  /** `start <= bound`, which is False for a missing start. */
  predicate StartsNoLaterThan(start: Option<Timestamp>, bound: Timestamp) {
    start.Some? && TimestampAtMost(start.value, bound)
  }

  predicate BeginOk(q: SearchQuery, a: Activity) {
    q.startBegin.None? || StartsNoEarlierThan(a.start, StartOfDay(q.startBegin.value))
  }

  predicate EndOk(q: SearchQuery, a: Activity) {
    q.startEnd.None? || StartsNoLaterThan(a.start, EndOfDay(q.startEnd.value))
  }

  /** A row survives the query: every set field accepts it. */
  predicate Matches(q: SearchQuery, a: Activity) {
    EquipmentOk(q, a) && KindOk(q, a) && NameOk(q, a) && BeginOk(q, a) && EndOk(q, a)
  }

  /** The date bounds are whole calendar days, and a row without a start fails either bound. */
  lemma DateBoundsAreWholeDays(q: SearchQuery, a: Activity)
    ensures BeginOk(q, a) <==>
      q.startBegin.None? || (a.start.Some? && DateAtMost(q.startBegin.value, a.start.value.date))
    ensures EndOk(q, a) <==>
      q.startEnd.None? || (a.start.Some? && DateAtMost(a.start.value.date, q.startEnd.value))
  {
    if q.startBegin.Some? && a.start.Some? {
      StartOfDayBound(q.startBegin.value, a.start.value);
    }
    if q.startEnd.Some? && a.start.Some? {
      EndOfDayBound(q.startEnd.value, a.start.value);
    }
  }

  // ---- the filtered table ----

  /** The rows that match, in table order: the reference for `apply_search_query`. */
  function Filter(table: seq<Activity>, q: SearchQuery): seq<Activity> {
    if table == [] then []
    else
      var last := table[|table| - 1];
      Filter(table[..|table| - 1], q) + (if Matches(q, last) then [last] else [])
  }

  /** The positions of the matching rows, ascending. */
  ghost function MatchingPositions(table: seq<Activity>, q: SearchQuery): seq<nat> {
    if table == [] then []
    else
      var n := |table| - 1;
      MatchingPositions(table[..n], q) + (if Matches(q, table[n]) then [n] else [])
  }

  /**
   * The result is the subsequence of matching rows: row k of the result is
   * row positions[k] of the table, positions strictly increase, and a
   * position is chosen exactly when its row matches.  Rows are whole
   * records, so ids travel with them.
   */
  lemma {:induction false} FilterIsMatchingSubsequence(table: seq<Activity>, q: SearchQuery)
    ensures var r, p := Filter(table, q), MatchingPositions(table, q);
      && |r| == |p|
      && (forall k :: 0 <= k < |p| ==> p[k] < |table| && r[k] == table[p[k]])
      && (forall k, l :: 0 <= k < l < |p| ==> p[k] < p[l])
      && (forall i :: 0 <= i < |table| ==> (i in p <==> Matches(q, table[i])))
  {
    if table != [] {
      var n := |table| - 1;
      var front := table[..n];
      FilterIsMatchingSubsequence(front, q);
      var r0, p0 := Filter(front, q), MatchingPositions(front, q);
      assert forall i :: 0 <= i < n ==> front[i] == table[i];
      if Matches(q, table[n]) {
        assert Filter(table, q) == r0 + [table[n]];
        assert MatchingPositions(table, q) == p0 + [n];
      } else {
        assert Filter(table, q) == r0;
        assert MatchingPositions(table, q) == p0;
      }
    }
  }

  /** A row is in the result exactly when it is in the table and matches. */
  lemma FilterMembership(table: seq<Activity>, q: SearchQuery, a: Activity)
    ensures a in Filter(table, q) <==> a in table && Matches(q, a)
  {
    FilterIsMatchingSubsequence(table, q);
    var r, p := Filter(table, q), MatchingPositions(table, q);
    if a in r {
      var k :| 0 <= k < |r| && r[k] == a;
      assert p[k] in p;
    }
    if a in table && Matches(q, a) {
      var i :| 0 <= i < |table| && table[i] == a;
      assert i in p;
      var k :| 0 <= k < |p| && p[k] == i;
      assert r[k] == a;
    }
  }

  /** A query with no filter field set returns the whole table unchanged. */
  lemma {:induction false} InactiveQueryKeepsEveryRow(table: seq<Activity>, q: SearchQuery)
    requires !Active(q)
    ensures Filter(table, q) == table
  {
    if table != [] {
      InactiveQueryKeepsEveryRow(table[..|table| - 1], q);
    }
  }

  // ---- masks ----

  /** `_make_mask(index, default)`: one entry per row, all equal to `default`. */
  function MakeMask(n: nat, default: bool): (mask: seq<bool>)
    ensures |mask| == n && forall i :: 0 <= i < n ==> mask[i] == default
  {
    seq(n, _ => default)
  }

  /** `_filter_column`: entry i is set iff column[i] equals one of `values`. */
  method FilterColumn(column: seq<string>, values: seq<string>) returns (subMask: seq<bool>)
    ensures |subMask| == |column|
    ensures forall i :: 0 <= i < |column| ==> (subMask[i] <==> column[i] in values)
  {
    subMask := MakeMask(|column|, false);
    for k := 0 to |values|
      invariant |subMask| == |column|
      invariant forall i :: 0 <= i < |column| ==> (subMask[i] <==> column[i] in values[..k])
    {
      assert values[..k + 1] == values[..k] + [values[k]];
      subMask := seq(|column|, i requires 0 <= i < |column| => subMask[i] || column[i] == values[k]);
    }
    assert values[..|values|] == values;
  }

  function AndMasks(a: seq<bool>, b: seq<bool>): (r: seq<bool>)
    requires |a| == |b|
    ensures |r| == |a| && forall i :: 0 <= i < |a| ==> (r[i] <==> a[i] && b[i])
  {
    seq(|a|, i requires 0 <= i < |a| => a[i] && b[i])
  }

  function EquipmentColumn(table: seq<Activity>): (column: seq<string>)
    ensures |column| == |table| && forall i :: 0 <= i < |table| ==> column[i] == table[i].equipment
  {
    seq(|table|, i requires 0 <= i < |table| => table[i].equipment)
  }

  function KindColumn(table: seq<Activity>): (column: seq<string>)
    ensures |column| == |table| && forall i :: 0 <= i < |table| ==> column[i] == table[i].kind
  {
    seq(|table|, i requires 0 <= i < |table| => table[i].kind)
  }

  /** The list comprehension over the name column. */
  function NameMask(table: seq<Activity>, pattern: string, caseSensitive: bool): (m: seq<bool>)
    ensures |m| == |table|
    ensures forall i :: 0 <= i < |table| ==> m[i] == NameMatches(pattern, table[i].name, caseSensitive)
  {
    seq(|table|, i requires 0 <= i < |table| => NameMatches(pattern, table[i].name, caseSensitive))
  }

  /** `bound <= activity_meta["start"]` */
  function StartFromMask(table: seq<Activity>, bound: Timestamp): (m: seq<bool>)
    ensures |m| == |table|
    ensures forall i :: 0 <= i < |table| ==> m[i] == StartsNoEarlierThan(table[i].start, bound)
  {
    seq(|table|, i requires 0 <= i < |table| => StartsNoEarlierThan(table[i].start, bound))
  }

  /** `activity_meta["start"] <= bound` */
  function StartUntilMask(table: seq<Activity>, bound: Timestamp): (m: seq<bool>)
    ensures |m| == |table|
    ensures forall i :: 0 <= i < |table| ==> m[i] == StartsNoLaterThan(table[i].start, bound)
  {
    seq(|table|, i requires 0 <= i < |table| => StartsNoLaterThan(table[i].start, bound))
  }

  /** `if search_query.equipment: mask &= _filter_column(activity_meta["equipment"], ...)` */
  method AndEquipment(table: seq<Activity>, q: SearchQuery, mask: seq<bool>) returns (next: seq<bool>)
    requires |mask| == |table|
    ensures |next| == |table|
    ensures forall i :: 0 <= i < |table| ==> (next[i] <==> mask[i] && EquipmentOk(q, table[i]))
  {
    next := mask;
    if q.equipment != [] {
      var sub := FilterColumn(EquipmentColumn(table), q.equipment);
      next := AndMasks(mask, sub);
    }
  }

  /** `if search_query.kind: mask &= _filter_column(activity_meta["kind"], ...)` */
  method AndKind(table: seq<Activity>, q: SearchQuery, mask: seq<bool>) returns (next: seq<bool>)
    requires |mask| == |table|
    ensures |next| == |table|
    ensures forall i :: 0 <= i < |table| ==> (next[i] <==> mask[i] && KindOk(q, table[i]))
  {
    next := mask;
    if q.kind != [] {
      var sub := FilterColumn(KindColumn(table), q.kind);
      next := AndMasks(mask, sub);
    }
  }

  /** `if search_query.name: mask &= <name matches>` */
  method AndName(table: seq<Activity>, q: SearchQuery, mask: seq<bool>) returns (next: seq<bool>)
    requires |mask| == |table|
    ensures |next| == |table|
    ensures forall i :: 0 <= i < |table| ==> (next[i] <==> mask[i] && NameOk(q, table[i]))
  {
    next := mask;
    if HasName(q) {
      next := AndMasks(mask, NameMask(table, q.name.value, q.nameCaseSensitive));
    }
  }

  /** `if search_query.start_begin is not None: mask &= start_begin <= activity_meta["start"]` */
  method AndStartBegin(table: seq<Activity>, q: SearchQuery, mask: seq<bool>) returns (next: seq<bool>)
    requires |mask| == |table|
    ensures |next| == |table|
    ensures forall i :: 0 <= i < |table| ==> (next[i] <==> mask[i] && BeginOk(q, table[i]))
  {
    next := mask;
    if q.startBegin.Some? {
      next := AndMasks(mask, StartFromMask(table, StartOfDay(q.startBegin.value)));
    }
  }

  /** `if search_query.start_end is not None: mask &= activity_meta["start"] <= start_end` */
  method AndStartEnd(table: seq<Activity>, q: SearchQuery, mask: seq<bool>) returns (next: seq<bool>)
    requires |mask| == |table|
    ensures |next| == |table|
    ensures forall i :: 0 <= i < |table| ==> (next[i] <==> mask[i] && EndOk(q, table[i]))
  {
    next := mask;
    if q.startEnd.Some? {
      next := AndMasks(mask, StartUntilMask(table, EndOfDay(q.startEnd.value)));
    }
  }

  /** The mask `apply_search_query` builds: all true, then each set field's column mask ANDed in. */
  method SearchMask(table: seq<Activity>, q: SearchQuery) returns (mask: seq<bool>)
    ensures |mask| == |table|
    ensures forall i :: 0 <= i < |table| ==> (mask[i] <==> Matches(q, table[i]))
  {
    mask := MakeMask(|table|, true);
    mask := AndEquipment(table, q, mask);
    mask := AndKind(table, q, mask);
    mask := AndName(table, q, mask);
    mask := AndStartBegin(table, q, mask);
    mask := AndStartEnd(table, q, mask);
  }

  /** `apply_search_query`: the rows under a set mask entry, in table order, ids kept. */
  method ApplySearchQuery(table: seq<Activity>, q: SearchQuery) returns (result: seq<Activity>)
    ensures result == Filter(table, q)
  {
    var mask := SearchMask(table, q);
    result := [];
    for i := 0 to |table|
      invariant result == Filter(table[..i], q)
    {
      assert table[..i + 1][..i] == table[..i];
      if mask[i] {
        result := result + [table[i]];
      }
    }
    assert table[..|table|] == table;
  }

  // ---- the URL query string ----

  function Pairs(key: string, values: seq<string>): (ps: seq<(string, string)>)
    ensures |ps| == |values|
  {
    seq(|values|, i requires 0 <= i < |values| => (key, values[i]))
  }

  function NamePart(q: SearchQuery): seq<(string, string)> {
    if HasName(q) then [("name", q.name.value)] else []
  }

  function FlagPart(q: SearchQuery): seq<(string, string)> {
    if q.nameCaseSensitive then [("name_case_sensitive", "true")] else []
  }

  function BeginPart(q: SearchQuery): seq<(string, string)> {
    if q.startBegin.Some? then [("start_begin", IsoFormat(q.startBegin.value))] else []
  }

  function EndPart(q: SearchQuery): seq<(string, string)> {
    if q.startEnd.Some? then [("start_end", IsoFormat(q.startEnd.value))] else []
  }

  /** The (key, value) pairs `to_url_str` collects, in its fixed order. */
  function UrlPairs(q: SearchQuery): seq<(string, string)> {
    Pairs("equipment", q.equipment) + Pairs("kind", q.kind) + NamePart(q) + FlagPart(q) + BeginPart(q) + EndPart(q)
  }

  /** The pairs after the equipment and kind pairs. */
  function OptionalPairs(q: SearchQuery): seq<(string, string)> {
    NamePart(q) + (FlagPart(q) + (BeginPart(q) + EndPart(q)))
  }

  lemma Regroup<T>(e: seq<T>, k: seq<T>, n: seq<T>, f: seq<T>, b: seq<T>, x: seq<T>)
    ensures e + k + n + f + b + x == e + (k + (n + (f + (b + x))))
  {
  }

  lemma UrlPairsGrouped(q: SearchQuery)
    ensures UrlPairs(q) == Pairs("equipment", q.equipment) + (Pairs("kind", q.kind) + OptionalPairs(q))
  {
    Regroup(Pairs("equipment", q.equipment), Pairs("kind", q.kind), NamePart(q), FlagPart(q), BeginPart(q), EndPart(q));
  }

  function EncodePair(p: (string, string)): string {
    p.0 + "=" + Quote(p.1)
  }

  function EncodeAll(ps: seq<(string, string)>): (items: seq<string>)
    ensures |items| == |ps|
  {
    seq(|ps|, i requires 0 <= i < |ps| => EncodePair(ps[i]))
  }

  /** The query the URL string stands for: an empty name is the same as no name. */
  function Canonical(q: SearchQuery): SearchQuery {
    q.(name := if HasName(q) then q.name else None)
  }

  function ParsePair(item: string): Option<(string, string)> {
    var parts := Split(item, '=');
    if |parts| != 2 then None
    else
      match Unquote(parts[1])
      case Some(v) => Some((parts[0], v))
      case None => None
  }

  function AddPair(acc: SearchQuery, p: (string, string)): Option<SearchQuery> {
    var (key, value) := p;
    if key == "equipment" then Some(acc.(equipment := acc.equipment + [value]))
    else if key == "kind" then Some(acc.(kind := acc.kind + [value]))
    else if key == "name" then Some(acc.(name := Some(value)))
    else if key == "name_case_sensitive" then Some(acc.(nameCaseSensitive := value == "true"))
    else if key == "start_begin" then
      (match ParseIsoDate(value) case Some(d) => Some(acc.(startBegin := Some(d))) case None => None)
    else if key == "start_end" then
      (match ParseIsoDate(value) case Some(d) => Some(acc.(startEnd := Some(d))) case None => None)
    else None
  }

  function AddPairs(acc: SearchQuery, ps: seq<(string, string)>): Option<SearchQuery>
    decreases |ps|
  {
    if ps == [] then Some(acc)
    else
      match AddPair(acc, ps[0])
      case Some(next) => AddPairs(next, ps[1..])
      case None => None
  }

  function ParseItems(acc: SearchQuery, items: seq<string>): Option<SearchQuery>
    decreases |items|
  {
    if items == [] then Some(acc)
    else
      match ParsePair(items[0])
      case None => None
      case Some(p) =>
        match AddPair(acc, p)
        case Some(next) => ParseItems(next, items[1..])
        case None => None
  }

  /** Reads a query string back into a query: the inverse the URL form is meant to have. */
  function ParseQuery(s: string): Option<SearchQuery> {
    if s == [] then Some(EmptyQuery) else ParseItems(EmptyQuery, Split(s, '&'))
  }

  /** `to_url_str`: collect the pairs field by field, then join `key=quote_plus(value)` with `&`. */
  method ToUrlStr(q: SearchQuery) returns (s: string)
    ensures s == Join(EncodeAll(UrlPairs(q)), '&')
    ensures ParseQuery(s) == Some(Canonical(q))
  {
    var variables: seq<(string, string)> := [];
    for i := 0 to |q.equipment|
      invariant variables == Pairs("equipment", q.equipment[..i])
    {
      variables := variables + [("equipment", q.equipment[i])];
    }
    assert q.equipment[..|q.equipment|] == q.equipment;
    ghost var before := variables;
    for i := 0 to |q.kind|
      invariant variables == before + Pairs("kind", q.kind[..i])
    {
      variables := variables + [("kind", q.kind[i])];
    }
    assert q.kind[..|q.kind|] == q.kind;
    ghost var pairs := Pairs("equipment", q.equipment) + Pairs("kind", q.kind);
    assert variables == pairs;
    if HasName(q) {
      variables := variables + [("name", q.name.value)];
    }
    pairs := pairs + NamePart(q);
    assert variables == pairs;
    if q.nameCaseSensitive {
      variables := variables + [("name_case_sensitive", "true")];
    }
    pairs := pairs + FlagPart(q);
    assert variables == pairs;
    if q.startBegin.Some? {
      variables := variables + [("start_begin", IsoFormat(q.startBegin.value))];
    }
    pairs := pairs + BeginPart(q);
    assert variables == pairs;
    if q.startEnd.Some? {
      variables := variables + [("start_end", IsoFormat(q.startEnd.value))];
    }
    pairs := pairs + EndPart(q);
    assert variables == pairs == UrlPairs(q);
    s := Join(seq(|variables|, i requires 0 <= i < |variables| => EncodePair(variables[i])), '&');
    UrlRoundTrip(q);
  }

  // ---- the round trip of the URL form ----

  predicate KnownKey(key: string) {
    key in ["equipment", "kind", "name", "name_case_sensitive", "start_begin", "start_end"]
  }

  lemma ParseEncodedPair(p: (string, string))
    requires KnownKey(p.0)
    ensures ParsePair(EncodePair(p)) == Some(p)
  {
    QuoteHasNoSeparator(p.1);
    assert '=' !in p.0;
    SplitAtSeparator(p.0, '=', Quote(p.1));
    SplitNoSeparator(Quote(p.1), '=');
    UnquoteQuote(p.1);
  }

  lemma {:induction false} ParseEncodedItems(acc: SearchQuery, ps: seq<(string, string)>)
    requires forall p <- ps :: KnownKey(p.0)
    ensures ParseItems(acc, EncodeAll(ps)) == AddPairs(acc, ps)
    decreases |ps|
  {
    if ps != [] {
      assert ps[0] in ps;
      ParseEncodedPair(ps[0]);
      assert EncodeAll(ps)[1..] == EncodeAll(ps[1..]);
      match AddPair(acc, ps[0]) {
        case Some(next) =>
          assert forall p <- ps[1..] :: p in ps;
          ParseEncodedItems(next, ps[1..]);
        case None =>
      }
    }
  }

  lemma {:induction false} AddPairsAppend(acc: SearchQuery, a: seq<(string, string)>, b: seq<(string, string)>)
    ensures AddPairs(acc, a + b) ==
      match AddPairs(acc, a) case Some(mid) => AddPairs(mid, b) case None => None
    decreases |a|
  {
    if a != [] {
      assert (a + b)[0] == a[0] && (a + b)[1..] == a[1..] + b;
      match AddPair(acc, a[0]) {
        case Some(next) => AddPairsAppend(next, a[1..], b);
        case None =>
      }
    } else {
      assert a + b == b;
    }
  }

  lemma {:induction false} AddEquipmentPairs(acc: SearchQuery, es: seq<string>)
    ensures AddPairs(acc, Pairs("equipment", es)) == Some(acc.(equipment := acc.equipment + es))
    decreases |es|
  {
    if es != [] {
      assert Pairs("equipment", es)[1..] == Pairs("equipment", es[1..]);
      AddEquipmentPairs(acc.(equipment := acc.equipment + [es[0]]), es[1..]);
      assert acc.equipment + [es[0]] + es[1..] == acc.equipment + es;
    } else {
      assert acc.equipment + es == acc.equipment;
    }
  }

  lemma {:induction false} AddKindPairs(acc: SearchQuery, ks: seq<string>)
    ensures AddPairs(acc, Pairs("kind", ks)) == Some(acc.(kind := acc.kind + ks))
    decreases |ks|
  {
    if ks != [] {
      assert Pairs("kind", ks)[1..] == Pairs("kind", ks[1..]);
      AddKindPairs(acc.(kind := acc.kind + [ks[0]]), ks[1..]);
      assert acc.kind + [ks[0]] + ks[1..] == acc.kind + ks;
    } else {
      assert acc.kind + ks == acc.kind;
    }
  }

  lemma AddSinglePair(acc: SearchQuery, p: (string, string))
    ensures AddPairs(acc, [p]) == AddPair(acc, p)
  {
    match AddPair(acc, p) {
      case Some(next) => assert [p][1..] == [];
      case None =>
    }
  }

  lemma AddNamePart(acc: SearchQuery, q: SearchQuery)
    requires acc.name.None?
    ensures AddPairs(acc, if HasName(q) then [("name", q.name.value)] else []) ==
      Some(acc.(name := Canonical(q).name))
  {
    if HasName(q) {
      AddSinglePair(acc, ("name", q.name.value));
      assert "name" != "equipment" && "name" != "kind";
    }
  }

  lemma AddFlagPart(acc: SearchQuery, flag: bool)
    requires !acc.nameCaseSensitive
    ensures AddPairs(acc, if flag then [("name_case_sensitive", "true")] else []) ==
      Some(acc.(nameCaseSensitive := flag))
  {
    if flag {
      AddSinglePair(acc, ("name_case_sensitive", "true"));
      assert "name_case_sensitive" != "equipment" && "name_case_sensitive" != "kind" && "name_case_sensitive" != "name";
    }
  }

  lemma AddBeginPart(acc: SearchQuery, d: Option<Date>)
    requires acc.startBegin.None?
    ensures AddPairs(acc, if d.Some? then [("start_begin", IsoFormat(d.value))] else []) ==
      Some(acc.(startBegin := d))
  {
    if d.Some? {
      AddSinglePair(acc, ("start_begin", IsoFormat(d.value)));
      IsoRoundTrip(d.value);
      assert "start_begin" != "equipment" && "start_begin" != "kind" && "start_begin" != "name" && "start_begin" != "name_case_sensitive";
    }
  }

  lemma AddEndPart(acc: SearchQuery, d: Option<Date>)
    requires acc.startEnd.None?
    ensures AddPairs(acc, if d.Some? then [("start_end", IsoFormat(d.value))] else []) ==
      Some(acc.(startEnd := d))
  {
    if d.Some? {
      AddSinglePair(acc, ("start_end", IsoFormat(d.value)));
      IsoRoundTrip(d.value);
      assert "start_end" != "equipment" && "start_end" != "kind" && "start_end" != "name"
        && "start_end" != "name_case_sensitive" && "start_end" != "start_begin";
    }
  }

  lemma AddOptionalPairs(q: SearchQuery)
    ensures
      var acc := EmptyQuery.(equipment := q.equipment, kind := q.kind);
      AddPairs(acc, OptionalPairs(q)) == Some(Canonical(q))
  {
    var acc := EmptyQuery.(equipment := q.equipment, kind := q.kind);
    var namePart, flagPart, beginPart, endPart := NamePart(q), FlagPart(q), BeginPart(q), EndPart(q);
    var a1 := acc.(name := Canonical(q).name);
    var a2 := a1.(nameCaseSensitive := q.nameCaseSensitive);
    var a3 := a2.(startBegin := q.startBegin);
    AddNamePart(acc, q);
    AddPairsAppend(acc, namePart, flagPart + (beginPart + endPart));
    AddFlagPart(a1, q.nameCaseSensitive);
    AddPairsAppend(a1, flagPart, beginPart + endPart);
    AddBeginPart(a2, q.startBegin);
    AddPairsAppend(a2, beginPart, endPart);
    AddEndPart(a3, q.startEnd);
    assert a3.(startEnd := q.startEnd) == Canonical(q);
  }

  lemma AddAllPairs(q: SearchQuery)
    ensures AddPairs(EmptyQuery, UrlPairs(q)) == Some(Canonical(q))
  {
    UrlPairsGrouped(q);
    AddPairsAppend(EmptyQuery, Pairs("equipment", q.equipment), Pairs("kind", q.kind) + OptionalPairs(q));
    AddEquipmentPairs(EmptyQuery, q.equipment);
    var a1 := EmptyQuery.(equipment := q.equipment);
    assert [] + q.equipment == q.equipment;
    AddPairsAppend(a1, Pairs("kind", q.kind), OptionalPairs(q));
    AddKindPairs(a1, q.kind);
    assert [] + q.kind == q.kind;
    AddOptionalPairs(q);
  }

  lemma EncodedItemsSeparable(ps: seq<(string, string)>)
    requires forall p <- ps :: KnownKey(p.0)
    ensures forall x <- EncodeAll(ps) :: '&' !in x && x != []
  {
    var items := EncodeAll(ps);
    forall i | 0 <= i < |items|
      ensures '&' !in items[i] && items[i] != []
    {
      assert ps[i] in ps;
      EncodedPairSeparable(ps[i]);
    }
  }

  lemma EncodedPairSeparable(p: (string, string))
    requires KnownKey(p.0)
    ensures '&' !in EncodePair(p) && EncodePair(p) != []
  {
    QuoteHasNoSeparator(p.1);
    assert EncodePair(p)[|p.0|] == '=';
  }

  /** Reading the query string of a query back gives the query (an empty name reads as no name). */
  lemma UrlRoundTrip(q: SearchQuery)
    ensures ParseQuery(Join(EncodeAll(UrlPairs(q)), '&')) == Some(Canonical(q))
  {
    var ps := UrlPairs(q);
    var items := EncodeAll(ps);
    assert forall p <- ps :: KnownKey(p.0);
    EncodedItemsSeparable(ps);
    ParseEncodedItems(EmptyQuery, ps);
    AddAllPairs(q);
    if items == [] {
      assert ps == [];
      assert Canonical(q) == EmptyQuery;
    } else {
      SplitJoin(items, '&');
      assert Join(items, '&') != [] by {
        assert items[0] in items;
        if |items| > 1 {
          assert Join(items, '&') == items[0] + ['&'] + Join(items[1..], '&');
        }
      }
    }
  }

  // ---- the repository's own test scenarios ----

  const SampleTable: seq<Activity> := [
    Activity(1, "A", "X", "Test1", Some(Timestamp(CalendarDate(2024, 12, 24), 36_000_000_000)), None),
    Activity(2, "B", "X", "Test2", Some(Timestamp(CalendarDate(2025, 1, 1), 36_000_000_000)), None),
    Activity(3, "B", "Y", "Test3", None, None)
  ]

  /** The empty query keeps every row of the sample table, in order. */
  lemma SampleEmptyQuery()
    ensures Filter(SampleTable, EmptyQuery) == SampleTable
  {
    InactiveQueryKeepsEveryRow(SampleTable, EmptyQuery);
  }

  /** Equipment `B` keeps the rows with ids 2 and 3. */
  lemma SampleEquipmentQuery()
    ensures var r := Filter(SampleTable, EmptyQuery.(equipment := ["B"])); |r| == 2 && r[0].id == 2 && r[1].id == 3
  {
    var q := EmptyQuery.(equipment := ["B"]);
    var t := SampleTable;
    assert "A" != "B" by { assert "A"[0] != "B"[0]; }
    assert !EquipmentOk(q, t[0]) && EquipmentOk(q, t[1]) && EquipmentOk(q, t[2]);
    assert forall a :: KindOk(q, a) && NameOk(q, a) && BeginOk(q, a) && EndOk(q, a);
    assert t[..1][..0] == [];
    assert Filter(t[..1], q) == [];
    assert t[..2][..1] == t[..1];
    assert Filter(t[..2], q) == [t[1]];
    assert t[..3][..2] == t[..2] && t[..3] == t;
  }
}
