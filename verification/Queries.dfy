/** Reading a time range back: which tree answers, and what it returns. */
module Queries {
  import opened Metrics
  import opened Calendar
  import opened Tiers
  import opened Stages
  import opened Storage
  import Keys
  import Lex

  predicate ByTimestamp(rs: seq<Record>) {
    forall i, j :: 0 <= i < j < |rs| ==> rs[i].timestamp <= rs[j].timestamp
  }

  predicate ByKey(rs: seq<Record>) {
    forall i, j :: 0 <= i < j < |rs| ==> Lex.Lt(KeyOf(rs[i]), KeyOf(rs[j]))
  }

  predicate Found(t: KeyTree, kind: MetricType, start: u64, end: u64, r: Record) {
    KeyOf(r) in t && t[KeyOf(r)] == r && Keys.InScan(KeyOf(r), kind, start, end)
  }

  /** `rs` is what a range scan of `t` yields: every record in the key range once, in key order. */
  ghost predicate IsScan(rs: seq<Record>, t: KeyTree, kind: MetricType, start: u64, end: u64) {
    ByKey(rs) && forall r :: r in rs <==> Found(t, kind, start, end, r)
  }

  method ScanTree(t: KeyTree, kind: MetricType, start: u64, end: u64) returns (rs: seq<Record>)
    requires Keyed(t)
    ensures IsScan(rs, t, kind, start, end) && ByTimestamp(rs)
  {
    hide Keys.EncodeKey, Keys.RangeStart, Keys.RangeEnd, Lex.Le, KindOf;
    var keys := Range(t, Keys.RangeStart(kind, start), Keys.RangeEnd(kind, end));
    rs := RecordsAt(t, keys);
    ScanIsExact(t, kind, start, end, keys);
  }

  lemma ScanIsExact(t: KeyTree, kind: MetricType, start: u64, end: u64, keys: seq<Bytes>)
    requires Keyed(t) && Ascending(keys)
    requires forall k :: k in keys <==> k in t && Keys.InScan(k, kind, start, end)
    ensures IsScan(RecordsAt(t, keys), t, kind, start, end) && ByTimestamp(RecordsAt(t, keys))
  {
    hide Keys.EncodeKey, Keys.InScan, Lex.Le, KindOf;
    var rs := RecordsAt(t, keys);
    forall i | 0 <= i < |rs| ensures KeyOf(rs[i]) == keys[i] && Found(t, kind, start, end, rs[i]) {
      assert keys[i] in keys;
    }
    forall i | 0 <= i < |rs| ensures KindOf(rs[i].payload) == kind {
      assert Found(t, kind, start, end, rs[i]);
      var r := rs[i];
      Keys.RangeScanExact(kind, start, end, KindOf(r.payload), r.timestamp, r.appName);
    }
    forall i, j | 0 <= i < j < |rs| ensures rs[i].timestamp <= rs[j].timestamp {
      ScanOrder(rs[i], rs[j]);
    }
    forall r | Found(t, kind, start, end, r) ensures r in rs {
      assert KeyOf(r) in keys;
      var i :| 0 <= i < |keys| && keys[i] == KeyOf(r);
      assert rs[i] == r;
    }
  }

  /** The records of one second, in the order they are listed. */
  function AtTime(rs: seq<Record>, t: u64): seq<Record> {
    if rs == [] then []
    else AtTime(rs[..|rs| - 1], t) + (if rs[|rs| - 1].timestamp == t then [rs[|rs| - 1]] else [])
  }

  lemma {:induction false} AtTimeConcat(a: seq<Record>, b: seq<Record>, t: u64)
    ensures AtTime(a + b, t) == AtTime(a, t) + AtTime(b, t)
  {
    if b == [] {
      assert a + b == a;
    } else {
      assert (a + b)[..|a + b| - 1] == a + b[..|b| - 1];
      AtTimeConcat(a, b[..|b| - 1], t);
    }
  }

  lemma {:induction false} NoneAtTime(rs: seq<Record>, t: u64)
    requires forall i :: 0 <= i < |rs| ==> rs[i].timestamp != t
    ensures AtTime(rs, t) == []
  {
    if rs != [] {
      NoneAtTime(rs[..|rs| - 1], t);
    }
  }

  /** Placing a record before strictly later ones only keeps the order within each second. */
  lemma PlacedStably(sorted: seq<Record>, i: nat, r: Record, t: u64)
    requires i <= |sorted| && forall j :: i <= j < |sorted| ==> r.timestamp < sorted[j].timestamp
    ensures AtTime(sorted[..i] + [r] + sorted[i..], t) == AtTime(sorted + [r], t)
  {
    hide AtTime;
    var a, b := sorted[..i], sorted[i..];
    AtTimeConcat(a + [r], b, t);
    AtTimeConcat(a, [r], t);
    assert a + b == sorted;
    AtTimeConcat(sorted, [r], t);
    AtTimeConcat(a, b, t);
    if t == r.timestamp {
      NoneAtTime(b, t);
    } else {
      NoneAtTime([r], t);
    }
  }

  /** Insert into a sorted list from the right end, never past an equal timestamp. */
  method Place(sorted: seq<Record>, r: Record) returns (out: seq<Record>)
    requires ByTimestamp(sorted)
    ensures ByTimestamp(out) && multiset(out) == multiset(sorted) + multiset{r}
    ensures (forall j :: 0 <= j < |sorted| ==> sorted[j].timestamp <= r.timestamp) ==> out == sorted + [r]
    ensures forall t :: AtTime(out, t) == AtTime(sorted + [r], t)
  {
    hide AtTime;
    var i := |sorted|;
    while i > 0 && sorted[i - 1].timestamp > r.timestamp
      invariant 0 <= i <= |sorted|
      invariant forall j :: i <= j < |sorted| ==> r.timestamp < sorted[j].timestamp
    {
      i := i - 1;
    }
    out := sorted[..i] + [r] + sorted[i..];
    PlacedMultiset(sorted, i, r);
    forall t ensures AtTime(out, t) == AtTime(sorted + [r], t) {
      PlacedStably(sorted, i, r, t);
    }
  }

  /** Stable sort by timestamp: records of one second keep their order. */
  method SortByTimestamp(rs: seq<Record>) returns (out: seq<Record>)
    ensures ByTimestamp(out) && multiset(out) == multiset(rs)
    ensures forall t :: AtTime(out, t) == AtTime(rs, t)
    ensures ByTimestamp(rs) ==> out == rs
  {
    hide AtTime;
    out := [];
    for n := 0 to |rs|
      invariant ByTimestamp(out)
      invariant forall t :: AtTime(out, t) == AtTime(rs[..n], t)
      invariant multiset(out) == multiset(rs[..n])
      invariant ByTimestamp(rs) ==> out == rs[..n]
    {
      assert rs[..n + 1] == rs[..n] + [rs[n]];
      forall t ensures AtTime(out + [rs[n]], t) == AtTime(rs[..n + 1], t) {
        AtTimeConcat(out, [rs[n]], t);
        AtTimeConcat(rs[..n], [rs[n]], t);
      }
      out := Place(out, rs[n]);
    }
    assert rs[..|rs|] == rs;
  }

  const RAW_WINDOW: nat := 24 * 3600

  function Min(a: u64, b: u64): u64 { if a <= b then a else b }
  function Max(a: u64, b: u64): u64 { if a >= b then a else b }

  ghost predicate HasAny(t: KeyTree, kind: MetricType, start: u64, end: u64) {
    exists r :: Found(t, kind, start, end, r)
  }

  /** The tree that answers a query, and the range it is scanned over. */
  datatype Answer = Answer(tier: nat, from: u64, to: u64)

  /** The three boundaries of the fallback: the raw window, this month, and a year back. */
  function Boundary(now: u64, i: nat): u64
    requires i < 3
  {
    if i == 0 then SaturatingSub(now, RAW_WINDOW) else if i == 1 then StartOfMonth(now) else MonthsAgo(now, 12)
  }

  /** What tree `i` (daily, monthly, yearly) is scanned for. */
  function TierRange(now: u64, start: u64, end: u64, i: nat): (a: Answer)
    requires 1 <= i < 4
    ensures a.tier == i
  {
    Answer(i, if i < 3 then Max(start, Boundary(now, i)) else start,
           Min(end, SaturatingSub(Boundary(now, i - 1), 1)))
  }

  ghost predicate Answers(trees: seq<KeyTree>, now: u64, kind: MetricType, start: u64, end: u64, i: nat)
    requires |trees| == 4 && 1 <= i < 4
  {
    var a := TierRange(now, start, end, i);
    start < Boundary(now, i - 1) && HasAny(trees[i], kind, a.from, a.to)
  }

  /** The raw tree answers if it has anything in range; otherwise the first aggregate tree that does. */
  ghost function Route(trees: seq<KeyTree>, now: u64, kind: MetricType, start: u64, end: u64): (a: Answer)
    requires |trees| == 4
    ensures a.tier < 4
  {
    if HasAny(trees[0], kind, start, end) then Answer(0, start, end)
    else if Answers(trees, now, kind, start, end, 1) then TierRange(now, start, end, 1)
    else if Answers(trees, now, kind, start, end, 2) then TierRange(now, start, end, 2)
    else if Answers(trees, now, kind, start, end, 3) then TierRange(now, start, end, 3)
    else Answer(0, start, end)
  }

  lemma ScanEmptiness(rs: seq<Record>, t: KeyTree, kind: MetricType, start: u64, end: u64)
    requires IsScan(rs, t, kind, start, end)
    ensures rs != [] <==> HasAny(t, kind, start, end)
  {
    hide Found;
    if rs != [] {
      assert rs[0] in rs;
    }
  }

  // ----- What a query selects

  /** The trees of the storage layer hold these records. */
  ghost predicate Holds(trees: seq<KeyTree>, tiers: seq<Tree>) {
    |trees| == 4 == |tiers| && forall j :: 0 <= j < 4 ==> Keyed(trees[j]) && Abs(trees[j]) == tiers[j]
  }

  lemma FoundIff(t: KeyTree, kind: MetricType, start: u64, end: u64, r: Record)
    requires Keyed(t)
    ensures Found(t, kind, start, end, r) <==>
              IdOf(r) in Abs(t) && Abs(t)[IdOf(r)] == r.payload && Keys.InScan(KeyOfId(IdOf(r)), kind, start, end)
  {
    hide Keys.InScan, Keys.EncodeKey, Abs, Keyed, KindOf;
    AbsLookup(t, IdOf(r));
  }

  predicate Stored(t: Tree, kind: MetricType, r: Record) {
    KindOf(r.payload) == kind && IdOf(r) in t && t[IdOf(r)] == r.payload
  }

  /** What a scan of the raw tree yields for the query. */
  predicate InRaw(t: Tree, kind: MetricType, start: u64, end: u64, r: Record) {
    Stored(t, kind, r) && start <= r.timestamp <= end && (r.timestamp < end || Lex.Le(r.appName, Keys.TILDE))
  }

  /** What aggregate tree `i` has to offer: the records inside the query that lie below the tree's upper
      boundary and, unless it is the yearly tree, not below its lower one. */
  predicate InFallback(t: Tree, now: u64, kind: MetricType, start: u64, end: u64, i: nat, r: Record)
    requires 1 <= i < 4
  {
    && Stored(t, kind, r) && start <= r.timestamp <= end
    && r.timestamp < Boundary(now, i - 1) && (i < 3 ==> Boundary(now, i) <= r.timestamp)
    && ((r.timestamp < end && r.timestamp + 1 < Boundary(now, i - 1)) || Lex.Le(r.appName, Keys.TILDE))
  }

  ghost predicate RawHasAny(tiers: seq<Tree>, kind: MetricType, start: u64, end: u64)
    requires |tiers| == 4
  {
    exists r :: InRaw(tiers[0], kind, start, end, r)
  }

  ghost predicate FallbackHasAny(tiers: seq<Tree>, now: u64, kind: MetricType, start: u64, end: u64, i: nat)
    requires |tiers| == 4 && 1 <= i < 4
  {
    exists r :: InFallback(tiers[i], now, kind, start, end, i, r)
  }

  /** The raw tree has nothing, tree `i` has something, and no aggregate tree before it has. */
  ghost predicate FirstToOffer(tiers: seq<Tree>, now: u64, kind: MetricType, start: u64, end: u64, i: nat)
    requires |tiers| == 4 && 1 <= i < 4
  {
    && !RawHasAny(tiers, kind, start, end) && FallbackHasAny(tiers, now, kind, start, end, i)
    && forall j :: 1 <= j < i ==> !FallbackHasAny(tiers, now, kind, start, end, j)
  }

  ghost predicate NoneToOffer(tiers: seq<Tree>, now: u64, kind: MetricType, start: u64, end: u64)
    requires |tiers| == 4
  {
    !RawHasAny(tiers, kind, start, end) && forall i :: 1 <= i < 4 ==> !FallbackHasAny(tiers, now, kind, start, end, i)
  }

  /** Which tree answers: the raw tree if it has anything in range; otherwise the daily, monthly or yearly
      tree, the first that has anything to offer; and no other record comes back. */
  ghost predicate Selects(tiers: seq<Tree>, now: u64, kind: MetricType, start: u64, end: u64, results: seq<Record>)
    requires |tiers| == 4
  {
    && (RawHasAny(tiers, kind, start, end) ==>
          forall r :: r in results <==> InRaw(tiers[0], kind, start, end, r))
    && (forall i :: 1 <= i < 4 && FirstToOffer(tiers, now, kind, start, end, i) ==>
          forall r :: r in results <==> InFallback(tiers[i], now, kind, start, end, i, r))
    && (NoneToOffer(tiers, now, kind, start, end) ==> results == [])
  }

  lemma RawScanIff(t: KeyTree, kind: MetricType, start: u64, end: u64, r: Record)
    requires Keyed(t)
    ensures Found(t, kind, start, end, r) <==> InRaw(Abs(t), kind, start, end, r)
  {
    hide Keys.InScan, Keys.EncodeKey, Lex.Le, Abs, Keyed, KindOf, Found;
    FoundIff(t, kind, start, end, r);
    Keys.RangeScanExact(kind, start, end, KindOf(r.payload), r.timestamp, r.appName);
  }

  /** The fallback scan of a tree, consulted or not, yields what the tree has to offer. */
  lemma FallbackScanIff(t: KeyTree, now: u64, kind: MetricType, start: u64, end: u64, i: nat, r: Record)
    requires Keyed(t) && 1 <= i < 4
    ensures var a := TierRange(now, start, end, i);
      start < Boundary(now, i - 1) && Found(t, kind, a.from, a.to, r)
      <==> InFallback(Abs(t), now, kind, start, end, i, r)
  {
    hide Keys.InScan, Keys.EncodeKey, Lex.Le, Abs, Keyed, KindOf, Boundary, Found;
    var a := TierRange(now, start, end, i);
    FoundIff(t, kind, a.from, a.to, r);
    Keys.RangeScanExact(kind, a.from, a.to, KindOf(r.payload), r.timestamp, r.appName);
  }

  lemma HasAnyIff(trees: seq<KeyTree>, tiers: seq<Tree>, now: u64, kind: MetricType, start: u64, end: u64)
    requires Holds(trees, tiers)
    ensures HasAny(trees[0], kind, start, end) <==> RawHasAny(tiers, kind, start, end)
    ensures forall i :: 1 <= i < 4 ==>
              (Answers(trees, now, kind, start, end, i) <==> FallbackHasAny(tiers, now, kind, start, end, i))
  {
    hide Found, InRaw, InFallback, Keyed, Abs, Boundary, TierRange;
    forall r ensures Found(trees[0], kind, start, end, r) <==> InRaw(tiers[0], kind, start, end, r) {
      RawScanIff(trees[0], kind, start, end, r);
    }
    forall i | 1 <= i < 4
      ensures Answers(trees, now, kind, start, end, i) <==> FallbackHasAny(tiers, now, kind, start, end, i)
    {
      var a := TierRange(now, start, end, i);
      forall r
        ensures start < Boundary(now, i - 1) && Found(trees[i], kind, a.from, a.to, r)
          <==> InFallback(tiers[i], now, kind, start, end, i, r)
      {
        FallbackScanIff(trees[i], now, kind, start, end, i, r);
      }
    }
  }

  /** Routing a query selects as promised, for any trees. */
  lemma RouteSelects(trees: seq<KeyTree>, tiers: seq<Tree>, now: u64, kind: MetricType, start: u64, end: u64,
                     results: seq<Record>)
    requires Holds(trees, tiers)
    requires var a := Route(trees, now, kind, start, end); IsScan(results, trees[a.tier], kind, a.from, a.to)
    ensures Selects(tiers, now, kind, start, end, results)
  {
    hide Found, InRaw, InFallback, Keyed, Abs, Boundary, TierRange, HasAny, Answers, RawHasAny, FallbackHasAny;
    HasAnyIff(trees, tiers, now, kind, start, end);
    var a := Route(trees, now, kind, start, end);
    if a.tier == 0 {
      ScanEmptiness(results, trees[0], kind, start, end);
      forall r ensures r in results <==> InRaw(tiers[0], kind, start, end, r) {
        RawScanIff(trees[0], kind, start, end, r);
      }
    } else {
      assert Answers(trees, now, kind, start, end, a.tier);
      RouteAnswer(trees, now, kind, start, end);
      forall r ensures r in results <==> InFallback(tiers[a.tier], now, kind, start, end, a.tier, r) {
        FallbackScanIff(trees[a.tier], now, kind, start, end, a.tier, r);
      }
    }
  }

  lemma RouteAnswer(trees: seq<KeyTree>, now: u64, kind: MetricType, start: u64, end: u64)
    requires |trees| == 4
    ensures var a := Route(trees, now, kind, start, end);
      a.tier > 0 ==> start < Boundary(now, a.tier - 1) && a == TierRange(now, start, end, a.tier)
  {
    hide Boundary, TierRange, HasAny;
  }

  /** The boundaries at 13:00 on 2024-03-31: the day before, the first of March, and a year back. */
  lemma KnownBoundaries()
    ensures Boundary(1_711_890_000, 0) == 1_711_803_600
    ensures Boundary(1_711_890_000, 1) == 1_709_251_200
    ensures Boundary(1_711_890_000, 2) == 1_680_220_800
  {
    hide MonthBucket, SubtractMonths;
    KnownDates();
    KnownSubtractions();
  }

  /** The scans of one query: raw first, then daily, monthly and yearly while nothing has been found. */
  method ScanTiers(store: StorageLayer, now: u64, kind: MetricType, start: u64, end: u64)
    returns (results: seq<Record>)
    requires store.Valid()
    ensures var trees := [store.raw, store.daily, store.monthly, store.yearly];
      var a := Route(trees, now, kind, start, end);
      IsScan(results, trees[a.tier], kind, a.from, a.to)
    ensures ByTimestamp(results)
  {
    hide IsScan, HasAny, Boundary, Keyed, TierRange, ByTimestamp;
    ghost var trees := [store.raw, store.daily, store.monthly, store.yearly];
    results := ScanTree(store.raw, kind, start, end);
    ScanEmptiness(results, store.raw, kind, start, end);
    ghost var rawScan := results;
    if results == [] && start < Boundary(now, 0) {
      var a := TierRange(now, start, end, 1);
      results := ScanTree(store.daily, kind, a.from, a.to);
      ScanEmptiness(results, store.daily, kind, a.from, a.to);
    }
    if results == [] && start < Boundary(now, 1) {
      var a := TierRange(now, start, end, 2);
      results := ScanTree(store.monthly, kind, a.from, a.to);
      ScanEmptiness(results, store.monthly, kind, a.from, a.to);
    }
    if results == [] && start < Boundary(now, 2) {
      var a := TierRange(now, start, end, 3);
      results := ScanTree(store.yearly, kind, a.from, a.to);
      ScanEmptiness(results, store.yearly, kind, a.from, a.to);
    }
  }

  /** One query: what the scans yield, sorted by timestamp. */
  method GetMetricsByType(store: StorageLayer, now: u64, kind: MetricType, start: u64, end: u64)
    returns (results: seq<Record>)
    requires store.Valid()
    ensures var trees := [store.raw, store.daily, store.monthly, store.yearly];
      var a := Route(trees, now, kind, start, end);
      IsScan(results, trees[a.tier], kind, a.from, a.to)
    ensures Selects(store.Contents(), now, kind, start, end, results) && ByTimestamp(results)
  {
    hide IsScan, Route, Keyed, Abs, ByTimestamp, Selects;
    results := ScanTiers(store, now, kind, start, end);
    results := SortByTimestamp(results);
    ghost var trees := [store.raw, store.daily, store.monthly, store.yearly];
    RouteSelects(trees, store.Contents(), now, kind, start, end, results);
  }

  /** Right after a sweep at the same moment with the default windows, the fallback scan of a tree
      finds exactly the records of that tree inside the query and strictly below the tree's upper
      boundary; at the last second scanned, names sorting after `~` are missed. */
  lemma FallbackExact(tiers: seq<Tree>, now: u64, c: TieredConfig, kind: MetricType,
                      start: u64, end: u64, i: nat, id: Id)
    requires |tiers| == 4 && Quiet(tiers, CutsAt(now, c)) && c.rawHours == 24 && c.monthlyKeepMonths == 12
    requires 1 <= i < 4 && id in tiers[i] && id.kind == kind && start < Boundary(now, i - 1)
    ensures var a := TierRange(now, start, end, i);
      Keys.InScan(KeyOfId(id), kind, a.from, a.to) <==>
        start <= id.ts <= end && id.ts < Boundary(now, i - 1) && (id.ts < a.to || Lex.Le(id.app, Keys.TILDE))
  {
    hide Keys.InScan, Keys.EncodeKey, Lex.Le, StartOfMonth, MonthsAgo;
    var a := TierRange(now, start, end, i);
    Keys.RangeScanExact(kind, a.from, a.to, id.kind, id.ts, id.app);
    assert !Below(id, CutsAt(now, c)[i]);
    assert i < 3 ==> CutsAt(now, c)[i] == Boundary(now, i);
  }

  /** Whatever tree answers, nothing outside the query comes back. */
  lemma NothingOutside(trees: seq<KeyTree>, now: u64, kind: MetricType, start: u64, end: u64, r: Record)
    requires |trees| == 4
    requires var a := Route(trees, now, kind, start, end); Found(trees[a.tier], kind, a.from, a.to, r)
    ensures KindOf(r.payload) == kind && start <= r.timestamp <= end
  {
    hide Keys.InScan, Keys.EncodeKey, Boundary, HasAny, KindOf, Lex.Le;
    var a := Route(trees, now, kind, start, end);
    Keys.RangeScanExact(kind, a.from, a.to, KindOf(r.payload), r.timestamp, r.appName);
  }

  predicate DefaultWindows(c: TieredConfig) {
    c.rawHours == 24 && c.monthlyKeepMonths == 12
  }

  /** What a sweep leaves in an aggregate tree can be reached by some fallback scan of that tree exactly
      when a scan up to one second before the tree's upper boundary reaches it. */
  lemma ReachableIff(before: seq<Tree>, now: u64, c: TieredConfig, i: nat, id: Id)
    requires |before| == 4 && DefaultWindows(c) && 1 <= i < 4 && id in SweepTiers(before, CutsAt(now, c))[i]
    ensures (exists start, end :: ScanReaches(now, start, end, i, id)) <==> Below(id, Boundary(now, i - 1) - 1)
  {
    hide Keys.InScan, Keys.EncodeKey, Lex.Le, Boundary, CutsAt, SweepTiers;
    var tiers := SweepTiers(before, CutsAt(now, c));
    var b: int := Boundary(now, i - 1);
    SweepIsQuiet(before, CutsAt(now, c));
    if exists start, end :: ScanReaches(now, start, end, i, id) {
      var start, end :| ScanReaches(now, start, end, i, id);
      FallbackExact(tiers, now, c, id.kind, start, end, i, id);
    }
    if Below(id, b - 1) {
      FallbackExact(tiers, now, c, id.kind, id.ts, b - 1, i, id);
      assert ScanReaches(now, id.ts, b - 1, i, id);
    }
  }

  /** The fallback consults tree `i` for this query and its scan reaches the record. */
  predicate ScanReaches(now: u64, start: u64, end: u64, i: nat, id: Id)
    requires 1 <= i < 4
  {
    var a := TierRange(now, start, end, i);
    start < Boundary(now, i - 1) && Keys.InScan(KeyOfId(id), id.kind, a.from, a.to)
  }

  /** So no fallback scan reaches a record at the very second of a boundary, be it the raw window, the
      start of the month or a year back. The daily tree holds such a record only if the raw window
      reaches back no further than the start of the month. */
  lemma BoundarySecondHidden(before: seq<Tree>, now: u64, c: TieredConfig, i: nat, id: Id)
    requires |before| == 4 && DefaultWindows(c) && 1 <= i < 4 && id in SweepTiers(before, CutsAt(now, c))[i]
    requires id.ts == Boundary(now, i - 1)
    ensures forall start, end :: !ScanReaches(now, start, end, i, id)
    ensures i < 3 ==> Boundary(now, i) <= Boundary(now, i - 1)
  {
    hide ScanReaches, SweepTiers, Lex.Le;
    ReachableIff(before, now, c, i, id);
    SweepIsQuiet(before, CutsAt(now, c));
  }

  // ----- Whole queries

  /** The results are exactly the tree's records of that kind inside the range and below the tree's upper
      boundary; at the last second scanned, without names after `~`. */
  ghost predicate ExactAnswer(tiers: seq<Tree>, now: u64, kind: MetricType, start: u64, end: u64, tier: nat,
                              results: seq<Record>)
    requires |tiers| == 4 && tier < 4
  {
    && (tier == 0 ==> results == [])
    && (tier > 0 ==> forall r :: r in results <==>
          Stored(tiers[tier], kind, r) && start <= r.timestamp
          && Below(IdOf(r), Min(end, SaturatingSub(Boundary(now, tier - 1), 1))))
  }

  /** Right after a sweep, if the raw tree has nothing in range, a query returns exactly what the
      selected tree holds for it; if no tree is selected it returns nothing. */
  lemma SweptQueryExact(before: seq<Tree>, trees: seq<KeyTree>, now: u64, c: TieredConfig,
                        kind: MetricType, start: u64, end: u64, results: seq<Record>)
    requires |before| == 4 && DefaultWindows(c) && Holds(trees, SweepTiers(before, CutsAt(now, c)))
    requires !HasAny(trees[0], kind, start, end)
    requires var a := Route(trees, now, kind, start, end); IsScan(results, trees[a.tier], kind, a.from, a.to)
    ensures var a := Route(trees, now, kind, start, end);
      ExactAnswer(SweepTiers(before, CutsAt(now, c)), now, kind, start, end, a.tier, results)
  {
    hide Keys.InScan, Keys.EncodeKey, Lex.Le, Boundary, SweepTiers, HasAny, Found, CutsAt, Keyed, Abs, KindOf;
    var a, tiers := Route(trees, now, kind, start, end), SweepTiers(before, CutsAt(now, c));
    SweepIsQuiet(before, CutsAt(now, c));
    if a.tier == 0 {
      ScanEmptiness(results, trees[0], kind, start, end);
    } else {
      assert a == TierRange(now, start, end, a.tier) && start < Boundary(now, a.tier - 1);
      forall r ensures r in results <==>
        Stored(tiers[a.tier], kind, r) && start <= r.timestamp
        && Below(IdOf(r), Min(end, SaturatingSub(Boundary(now, a.tier - 1), 1)))
      {
        FoundIff(trees[a.tier], kind, a.from, a.to, r);
        Keys.RangeScanExact(kind, a.from, a.to, KindOf(r.payload), r.timestamp, r.appName);
        if Stored(tiers[a.tier], kind, r) {
          FallbackExact(tiers, now, c, kind, start, end, a.tier, IdOf(r));
        }
      }
    }
  }

  /** A sweep followed by a query at the same moment. */
  method SweepThenQuery(store: StorageLayer, now: u64, c: TieredConfig, kind: MetricType, start: u64, end: u64)
    returns (results: seq<Record>)
    requires store.Valid() && ValidConfig(c) && DefaultWindows(c)
    modifies store
    ensures store.Valid() && store.Contents() == SweepTiers(old(store.Contents()), CutsAt(now, c))
    ensures var trees := [store.raw, store.daily, store.monthly, store.yearly];
      var a := Route(trees, now, kind, start, end);
      && ByTimestamp(results)
      && (!HasAny(store.raw, kind, start, end) ==>
            ExactAnswer(store.Contents(), now, kind, start, end, a.tier, results))
  {
    hide IsScan, HasAny, Keyed, Route, ByTimestamp, SweepTiers, CutsAt, Abs, ExactAnswer, Aggregated, Deleted;
    ghost var before := store.Contents();
    var _ := store.CleanupTiered(now, c);
    results := GetMetricsByType(store, now, kind, start, end);
    ghost var trees := [store.raw, store.daily, store.monthly, store.yearly];
    assert Holds(trees, store.Contents());
    if !HasAny(store.raw, kind, start, end) {
      SweptQueryExact(before, trees, now, c, kind, start, end, results);
    }
  }

  /** A query with this range returns the record. */
  ghost predicate Returns(trees: seq<KeyTree>, now: u64, kind: MetricType, start: u64, end: u64, r: Record)
    requires |trees| == 4
  {
    var a := Route(trees, now, kind, start, end);
    Found(trees[a.tier], kind, a.from, a.to, r)
  }

  lemma EmptyHasNone(t: KeyTree, kind: MetricType, start: u64, end: u64)
    requires Keyed(t) && Abs(t) == map[]
    ensures !HasAny(t, kind, start, end)
  {
    hide Abs, Keyed, Found;
    if HasAny(t, kind, start, end) {
      var r :| Found(t, kind, start, end, r);
      FoundIff(t, kind, start, end, r);
    }
  }

  /** A store with one record, swept into an aggregate tree, gives it back to some query exactly when the
      record lies before the last second of that tree's range, or in it with a name up to `~`. */
  lemma LoneRecordFoundIff(trees: seq<KeyTree>, now: u64, c: TieredConfig, i: nat, id: Id, p: Payload)
    requires DefaultWindows(c) && 1 <= i < 4 && KindOf(p) == id.kind && LandsIn(id, CutsAt(now, c), i)
    requires Holds(trees, SweepTiers(Lone(0, id, p), CutsAt(now, c)))
    ensures (exists kind, start, end, r :: Returns(trees, now, kind, start, end, r))
      <==> Below(id, Boundary(now, i - 1) - 1)
  {
    hide CutsAt, Boundary, SweepTiers, Lex.Le, Holds, Returns, LandsIn;
    var p' := LoneRecordLands(id, p, CutsAt(now, c), i);
    LoneHeld(trees, i, id, p');
    assert id in SweepTiers(Lone(0, id, p), CutsAt(now, c))[i];
    ReachableIff(Lone(0, id, p), now, c, i, id);
    if exists start, end :: ScanReaches(now, start, end, i, id) {
      var start, end :| ScanReaches(now, start, end, i, id);
      LoneReturned(trees, now, start, end, i, id, p');
    }
    forall kind, start, end, r | Returns(trees, now, kind, start, end, r) ensures ScanReaches(now, start, end, i, id) {
      LoneReached(trees, now, kind, start, end, i, id, p', r);
    }
  }

  /** Only one of the trees is not empty. */
  ghost predicate OnlyOne(trees: seq<KeyTree>, i: nat, id: Id, p: Payload) {
    && |trees| == 4 && i < 4 && (forall j :: 0 <= j < 4 ==> Keyed(trees[j]))
    && Abs(trees[i]) == map[id := p] && forall j :: 0 <= j < 4 && j != i ==> Abs(trees[j]) == map[]
  }

  lemma LoneHeld(trees: seq<KeyTree>, i: nat, id: Id, p: Payload)
    requires i < 4 && Holds(trees, Lone(i, id, p))
    ensures OnlyOne(trees, i, id, p)
  {
    hide Keyed, Abs;
  }

  lemma LoneReturned(trees: seq<KeyTree>, now: u64, start: u64, end: u64, i: nat, id: Id, p: Payload)
    requires 1 <= i < 4 && OnlyOne(trees, i, id, p) && ScanReaches(now, start, end, i, id)
    ensures exists r :: Returns(trees, now, id.kind, start, end, r)
  {
    hide Keyed, Abs, Boundary, TierRange, Found, Keys.InScan;
    forall j, s, e | 0 <= j < 4 && j != i ensures !HasAny(trees[j], id.kind, s, e) {
      EmptyHasNone(trees[j], id.kind, s, e);
    }
    AbsWellTyped(trees[i]);
    assert KindOf(p) == id.kind;
    var r, a := Record(id.app, id.ts, p), TierRange(now, start, end, i);
    FoundIff(trees[i], id.kind, a.from, a.to, r);
    assert HasAny(trees[i], id.kind, a.from, a.to);
    assert Answers(trees, now, id.kind, start, end, i);
    assert Route(trees, now, id.kind, start, end) == a;
    assert Returns(trees, now, id.kind, start, end, r);
  }

  lemma LoneReached(trees: seq<KeyTree>, now: u64, kind: MetricType, start: u64, end: u64, i: nat,
                    id: Id, p: Payload, r: Record)
    requires 1 <= i < 4 && OnlyOne(trees, i, id, p) && Returns(trees, now, kind, start, end, r)
    ensures ScanReaches(now, start, end, i, id)
  {
    hide Keyed, Abs, Boundary, HasAny, Found, Keys.InScan, Lex.Le, Keys.EncodeKey;
    var a := Route(trees, now, kind, start, end);
    FoundIff(trees[a.tier], kind, a.from, a.to, r);
    assert a.tier == i && IdOf(r) == id;
    assert start < Boundary(now, i - 1) && a == TierRange(now, start, end, i);
    Keys.RangeScanExact(kind, a.from, a.to, id.kind, id.ts, id.app);
  }

  /** Such a store hides its record if it sits at the boundary second: it is kept, and no query at that
      moment returns anything. */
  lemma BoundaryRecordLost(trees: seq<KeyTree>, now: u64, c: TieredConfig, i: nat, id: Id, p: Payload)
    requires DefaultWindows(c) && 1 <= i < 4 && KindOf(p) == id.kind && LandsIn(id, CutsAt(now, c), i)
    requires Holds(trees, SweepTiers(Lone(0, id, p), CutsAt(now, c))) && id.ts == Boundary(now, i - 1)
    ensures forall kind, start, end, r :: !Returns(trees, now, kind, start, end, r)
    ensures Abs(trees[i]).Keys == {id}
  {
    hide CutsAt, Boundary, SweepTiers, Lex.Le, Returns, Keyed, Abs, LandsIn;
    LoneRecordFoundIff(trees, now, c, i, id, p);
    var p' := LoneRecordLands(id, p, CutsAt(now, c), i);
    assert Abs(trees[i]) == Lone(i, id, p')[i];
  }

  /** For example, at 13:00 on 2024-03-31 a record of 13:00 the day before goes to the daily tree. */
  lemma LostOnLastOfMarch(c: TieredConfig)
    requires DefaultWindows(c)
    ensures var now, id := 1_711_890_000, Id(Net, 1_711_803_600, [97]);
      id.ts == Boundary(now, 0) && LandsIn(id, CutsAt(now, c), 1)
  {
    hide StartOfMonth, MonthsAgo, Lex.Le;
    var id := Id(Net, 1_711_803_600, [97]);
    assert StartOfMonth(1_711_890_000) == 1_709_251_200 by {
      LastOfMarch();
    }
    PlainName();
  }

  lemma LastOfMarch()
    ensures StartOfMonth(1_711_890_000) == 1_709_251_200
  {
    hide MonthBucket;
    KnownDates();
  }

  lemma PlainName()
    ensures Lex.Le([97], Keys.TILDE)
  {}
}
