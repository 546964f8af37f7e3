/** A whole sweep as a function of the four trees: what it leaves, what it reports, what it loses. */
module Stages {
  import opened Metrics
  import opened Calendar
  import opened Aggregation
  import opened Tiers

  /** Raw records roll up by day, daily ones by month, monthly ones by year. */
  function StageBucket(stage: nat): Bucket
    requires stage < 3
  {
    if stage == 0 then Day else if stage == 1 then Month else Year
  }

  /** The calendar period of a stage: one day for the raw stage, one month for the daily stage, one year for
      the monthly stage. */
  predicate SamePeriod(stage: nat, a: nat, b: nat)
    requires stage < 3
  {
    if stage == 0 then DayOf(a) == DayOf(b)
    else if stage == 1 then MonthOfDay(DayOf(a)) == MonthOfDay(DayOf(b))
    else YearOfDay(DayOf(a)) == YearOfDay(DayOf(b))
  }

  lemma BucketIsPeriod(stage: nat, a: nat, b: nat)
    requires stage < 3
    ensures BucketOf(StageBucket(stage), a) == BucketOf(StageBucket(stage), b) <==> SamePeriod(stage, a, b)
  {
    hide DayBucket, MonthBucket, YearBucket, DayOf, MonthOfDay, YearOfDay;
    FloorsAreDates(a, b);
  }

  /** The consumed records of one series in one calendar period. */
  function PeriodGroup(s: Tree, cutoff: int, stage: nat, id: Id): set<Id>
    requires stage < 3
  {
    set j | j in s && Below(j, cutoff) && SameSeries(j, id) && SamePeriod(stage, j.ts, id.ts)
  }

  /** What a stage writes, in calendar terms: for each kind and app, one record per day, month or year that
      has a consumed record, under the key of the earliest, and combining all of that period. */
  lemma StageByCalendar(s: Tree, cutoff: int, stage: nat)
    requires stage < 3
    ensures var m := RolledUp(s, cutoff, StageBucket(stage));
      && (forall h, h' :: h in m && h' in m && SameSeries(h, h') && SamePeriod(stage, h.ts, h'.ts) ==> h == h')
      && (forall j :: j in s && Below(j, cutoff) ==>
            exists h :: h in m && SameSeries(h, j) && SamePeriod(stage, h.ts, j.ts) && h.ts <= j.ts)
      && (forall h :: h in m ==>
            && h in PeriodGroup(s, cutoff, stage, h)
            && m[h] == Aggregate(PayloadsAt(s, Chronological(PeriodGroup(s, cutoff, stage, h)))))
  {
    hide Below, BucketOf, SamePeriod, RolledUp, IsHead, Aggregate, Combined;
    var b := StageBucket(stage);
    var m := RolledUp(s, cutoff, b);
    forall h, h' | h in m && h' in m && SameSeries(h, h') && SamePeriod(stage, h.ts, h'.ts) ensures h == h' {
      BucketIsPeriod(stage, h.ts, h'.ts);
      OneHeadPerGroup(s, cutoff, b, Heads(s, cutoff, b), h', h);
      OneHeadPerGroup(s, cutoff, b, Heads(s, cutoff, b), h, h);
    }
    forall j | j in s && Below(j, cutoff)
      ensures exists h :: h in m && SameSeries(h, j) && SamePeriod(stage, h.ts, j.ts) && h.ts <= j.ts
    {
      PeriodHead(s, cutoff, stage, j);
    }
    forall h | h in m
      ensures h in PeriodGroup(s, cutoff, stage, h)
      ensures m[h] == Aggregate(PayloadsAt(s, Chronological(PeriodGroup(s, cutoff, stage, h))))
    {
      PeriodAggregate(s, cutoff, stage, h);
    }
  }

  lemma PeriodHead(s: Tree, cutoff: int, stage: nat, j: Id)
    requires stage < 3 && j in s && Below(j, cutoff)
    ensures exists h :: h in RolledUp(s, cutoff, StageBucket(stage)) && SameSeries(h, j)
              && SamePeriod(stage, h.ts, j.ts) && h.ts <= j.ts
  {
    hide Below, BucketOf, SamePeriod, RolledUp, Combined;
    var b := StageBucket(stage);
    EveryConsumedHasHead(s, cutoff, b, j);
    var h :| h in Heads(s, cutoff, b) && SameGroup(b, j, h);
    BucketIsPeriod(stage, h.ts, j.ts);
  }

  lemma PeriodAggregate(s: Tree, cutoff: int, stage: nat, h: Id)
    requires stage < 3 && h in RolledUp(s, cutoff, StageBucket(stage))
    ensures var m, g := RolledUp(s, cutoff, StageBucket(stage)), PeriodGroup(s, cutoff, stage, h);
      h in g && g <= s.Keys && m[h] == Aggregate(PayloadsAt(s, Chronological(g)))
  {
    hide Below, BucketOf, SamePeriod, RolledUp, Aggregate;
    var b := StageBucket(stage);
    assert IsHead(s, cutoff, b, h);
    RolledUpAt(s, cutoff, b, h);
    var g, g' := Group(s, cutoff, b, h), PeriodGroup(s, cutoff, stage, h);
    forall j ensures j in g <==> j in g' {
      BucketIsPeriod(stage, j.ts, h.ts);
    }
    assert g == g';
    assert h in g;
  }

  /** Stage `i`: write the aggregates into the next tree, then delete what they cover. */
  ghost function StageTiers(tiers: seq<Tree>, i: nat, cutoff: int): (r: seq<Tree>)
    requires |tiers| == 4 && i < 3
    ensures |r| == 4
  {
    tiers[i := Remaining(tiers[i], cutoff)][i + 1 := tiers[i + 1] + RolledUp(tiers[i], cutoff, StageBucket(i))]
  }

  function Expire(tiers: seq<Tree>, cutoff: int): (r: seq<Tree>)
    requires |tiers| == 4
    ensures |r| == 4
  {
    tiers[3 := Remaining(tiers[3], cutoff)]
  }

  /** The trees after `n` stages. */
  ghost function AfterStages(tiers: seq<Tree>, cuts: seq<int>, n: nat): (r: seq<Tree>)
    requires |tiers| == 4 && |cuts| == 4 && n <= 3
    ensures |r| == 4
  {
    if n == 0 then tiers else StageTiers(AfterStages(tiers, cuts, n - 1), n - 1, cuts[n - 1])
  }

  ghost function SweepTiers(tiers: seq<Tree>, cuts: seq<int>): (r: seq<Tree>)
    requires |tiers| == 4 && |cuts| == 4
    ensures |r| == 4
  {
    Expire(AfterStages(tiers, cuts, 3), cuts[3])
  }

  /** How many records stage `i` writes and deletes. */
  ghost function Aggregated(tiers: seq<Tree>, cuts: seq<int>, i: nat): nat
    requires |tiers| == 4 && |cuts| == 4 && i < 3
  {
    |Heads(AfterStages(tiers, cuts, i)[i], cuts[i], StageBucket(i))|
  }

  ghost function Deleted(tiers: seq<Tree>, cuts: seq<int>, i: nat): nat
    requires |tiers| == 4 && |cuts| == 4 && i < 4
  {
    |ConsumedIds(AfterStages(tiers, cuts, i)[i], cuts[i])|
  }

  /** How many records stage `i` finds under the keys of its aggregates in the next tree. */
  ghost function Overwritten(tiers: seq<Tree>, cuts: seq<int>, i: nat): nat
    requires |tiers| == 4 && |cuts| == 4 && i < 3
  {
    var t := AfterStages(tiers, cuts, i);
    |t[i + 1].Keys * Heads(t[i], cuts[i], StageBucket(i))|
  }

  // ----- Idempotence

  /** Nothing a sweep with these cutoffs would touch. */
  predicate Quiet(tiers: seq<Tree>, cuts: seq<int>)
    requires |tiers| == 4 && |cuts| == 4
  {
    forall i, id :: 0 <= i < 4 && id in tiers[i] ==> !Below(id, cuts[i])
  }

  lemma StageOnQuiet(tiers: seq<Tree>, i: nat, cutoff: int)
    requires |tiers| == 4 && i < 3
    requires forall id :: id in tiers[i] ==> !Below(id, cutoff)
    ensures ConsumedIds(tiers[i], cutoff) == {}
    ensures Heads(tiers[i], cutoff, StageBucket(i)) == {}
    ensures StageTiers(tiers, i, cutoff) == tiers
  {
    hide Below, BucketOf, Combined;
    var c := ConsumedIds(tiers[i], cutoff);
    assert c == {};
    assert tiers[i] - c == tiers[i];
    var m := RolledUp(tiers[i], cutoff, StageBucket(i));
    assert forall id :: id in m ==> IsHead(tiers[i], cutoff, StageBucket(i), id);
    assert m == map[];
    assert tiers[i + 1] + m == tiers[i + 1];
  }

  lemma SweepIsQuiet(tiers: seq<Tree>, cuts: seq<int>)
    requires |tiers| == 4 && |cuts| == 4
    ensures Quiet(SweepTiers(tiers, cuts), cuts)
  {
    hide Below, RolledUp;
    var t1 := StageTiers(tiers, 0, cuts[0]);
    var t2 := StageTiers(t1, 1, cuts[1]);
    var t3 := StageTiers(t2, 2, cuts[2]);
    assert AfterStages(tiers, cuts, 3) == t3 by {
      assert AfterStages(tiers, cuts, 1) == t1;
      assert AfterStages(tiers, cuts, 2) == t2;
    }
    var r := SweepTiers(tiers, cuts);
    assert r[0] == Remaining(tiers[0], cuts[0]);
    assert r[1] == Remaining(t1[1], cuts[1]);
    assert r[2] == Remaining(t2[2], cuts[2]);
    assert r[3] == Remaining(t3[3], cuts[3]);
  }

  /** A second sweep with the same cutoffs changes nothing and reports zeros. */
  lemma SweepIdempotent(tiers: seq<Tree>, cuts: seq<int>)
    requires |tiers| == 4 && |cuts| == 4
    ensures var r := SweepTiers(tiers, cuts);
      && SweepTiers(r, cuts) == r
      && (forall i :: 0 <= i < 3 ==> Aggregated(r, cuts, i) == 0)
      && (forall i :: 0 <= i < 4 ==> Deleted(r, cuts, i) == 0)
  {
    hide Below, RolledUp, SweepTiers, StageTiers, Remaining, Heads;
    var r := SweepTiers(tiers, cuts);
    SweepIsQuiet(tiers, cuts);
    QuietSweep(r, cuts);
  }

  lemma QuietSweep(r: seq<Tree>, cuts: seq<int>)
    requires |r| == 4 && |cuts| == 4 && Quiet(r, cuts)
    ensures SweepTiers(r, cuts) == r
    ensures forall i :: 0 <= i < 3 ==> Aggregated(r, cuts, i) == 0
    ensures forall i :: 0 <= i < 4 ==> Deleted(r, cuts, i) == 0
  {
    hide Below, RolledUp, StageTiers, Heads;
    StageOnQuiet(r, 0, cuts[0]);
    StageOnQuiet(r, 1, cuts[1]);
    StageOnQuiet(r, 2, cuts[2]);
    assert AfterStages(r, cuts, 0) == r && AfterStages(r, cuts, 1) == r;
    assert AfterStages(r, cuts, 2) == r && AfterStages(r, cuts, 3) == r;
    assert ConsumedIds(r[3], cuts[3]) == {};
    assert r[3] - {} == r[3];
  }

  // ----- Record counts

  predicate PairwiseDisjoint(tiers: seq<Tree>)
    requires |tiers| == 4
  {
    forall i, j :: 0 <= i < j < 4 ==> tiers[i].Keys !! tiers[j].Keys
  }

  function Live(tiers: seq<Tree>): nat
    requires |tiers| == 4
  {
    |tiers[0]| + |tiers[1]| + |tiers[2]| + |tiers[3]|
  }

  lemma StageKeepsDisjoint(tiers: seq<Tree>, i: nat, cutoff: int)
    requires |tiers| == 4 && i < 3 && PairwiseDisjoint(tiers)
    ensures PairwiseDisjoint(StageTiers(tiers, i, cutoff))
  {
    hide Below, BucketOf, Combined;
    var b := StageBucket(i);
    var r := StageTiers(tiers, i, cutoff);
    assert forall id :: id in RolledUp(tiers[i], cutoff, b) ==> IsHead(tiers[i], cutoff, b, id);
    forall a, c | 0 <= a < c < 4 ensures r[a].Keys !! r[c].Keys {
      assert tiers[a].Keys !! tiers[c].Keys;
      assert a != i ==> (a < i ==> tiers[a].Keys !! tiers[i].Keys) && (i < a ==> tiers[i].Keys !! tiers[a].Keys);
      assert c != i ==> (c < i ==> tiers[c].Keys !! tiers[i].Keys) && (i < c ==> tiers[i].Keys !! tiers[c].Keys);
    }
  }

  lemma StageCount(tiers: seq<Tree>, i: nat, cutoff: int)
    requires |tiers| == 4 && i < 3
    ensures var heads := Heads(tiers[i], cutoff, StageBucket(i));
      Live(StageTiers(tiers, i, cutoff)) ==
        Live(tiers) - |ConsumedIds(tiers[i], cutoff)| + |heads| - |tiers[i + 1].Keys * heads|
  {
    hide Heads, ConsumedIds, RolledUp, Live;
    var s, t := tiers[i], tiers[i + 1];
    var ids, m := ConsumedIds(s, cutoff), RolledUp(s, cutoff, StageBucket(i));
    ConsumedIsStored(s, cutoff);
    RemoveCount(s, ids);
    MergeCount(t, m);
    LiveReplace(tiers, i, s - ids, t + m);
  }

  lemma LiveReplace(tiers: seq<Tree>, i: nat, s: Tree, t: Tree)
    requires |tiers| == 4 && i < 3
    ensures Live(tiers[i := s][i + 1 := t]) == Live(tiers) - |tiers[i]| - |tiers[i + 1]| + |s| + |t|
  {}

  lemma ConsumedIsStored(s: Tree, cutoff: int)
    ensures ConsumedIds(s, cutoff) <= s.Keys
  {}

  lemma RemoveCount(s: Tree, ids: set<Id>)
    requires ids <= s.Keys
    ensures |s - ids| == |s| - |ids|
  {
    assert (s - ids).Keys == s.Keys - ids;
    assert |s.Keys - ids| == |s.Keys| - |ids|;
  }

  lemma MergeAssociative(t: Tree, x: Tree, y: Tree)
    ensures (t + x) + y == t + (x + y)
  {}

  lemma MergeCount(t: Tree, m: Tree)
    ensures |t + m| + |t.Keys * m.Keys| == |t| + |m.Keys|
  {
    assert (t + m).Keys == t.Keys + m.Keys;
    assert |t.Keys + m.Keys| + |t.Keys * m.Keys| == |t.Keys| + |m.Keys|;
  }

  /** What the sweep's report says the number of live records should drop to. */
  ghost function Reported(tiers: seq<Tree>, cuts: seq<int>): int
    requires |tiers| == 4 && |cuts| == 4
  {
    Live(tiers)
    - (Deleted(tiers, cuts, 0) - Aggregated(tiers, cuts, 0))
    - (Deleted(tiers, cuts, 1) - Aggregated(tiers, cuts, 1))
    - (Deleted(tiers, cuts, 2) - Aggregated(tiers, cuts, 2))
    - Deleted(tiers, cuts, 3)
  }

  /** For any trees, live records drop by what each stage deletes beyond what it writes, by the yearly
      records removed, and by the records an aggregate replaced. */
  lemma SweepAccounting(tiers: seq<Tree>, cuts: seq<int>)
    requires |tiers| == 4 && |cuts| == 4
    ensures Live(SweepTiers(tiers, cuts)) == Reported(tiers, cuts)
              - Overwritten(tiers, cuts, 0) - Overwritten(tiers, cuts, 1) - Overwritten(tiers, cuts, 2)
  {
    hide AfterStages, Aggregated, Deleted, Overwritten, Live, Expire;
    assert AfterStages(tiers, cuts, 0) == tiers by {
      NoStages(tiers, cuts);
    }
    StageAccounting(tiers, cuts, 0);
    StageAccounting(tiers, cuts, 1);
    StageAccounting(tiers, cuts, 2);
    ExpireAccounting(tiers, cuts);
  }

  lemma NoStages(tiers: seq<Tree>, cuts: seq<int>)
    requires |tiers| == 4 && |cuts| == 4
    ensures AfterStages(tiers, cuts, 0) == tiers
  {}

  lemma StageAccounting(tiers: seq<Tree>, cuts: seq<int>, i: nat)
    requires |tiers| == 4 && |cuts| == 4 && i < 3
    ensures Live(AfterStages(tiers, cuts, i + 1)) == Live(AfterStages(tiers, cuts, i))
              - Deleted(tiers, cuts, i) + Aggregated(tiers, cuts, i) - Overwritten(tiers, cuts, i)
  {
    hide StageTiers, Heads, ConsumedIds, Live;
    StageCount(AfterStages(tiers, cuts, i), i, cuts[i]);
  }

  lemma ExpireAccounting(tiers: seq<Tree>, cuts: seq<int>)
    requires |tiers| == 4 && |cuts| == 4
    ensures Live(SweepTiers(tiers, cuts)) == Live(AfterStages(tiers, cuts, 3)) - Deleted(tiers, cuts, 3)
  {
    hide AfterStages, ConsumedIds, Live, Expire;
    ExpireCount(AfterStages(tiers, cuts, 3), cuts[3]);
  }

  /** So the report balances exactly when no stage finds a record under the key of an aggregate. */
  lemma ReportBalancesIff(tiers: seq<Tree>, cuts: seq<int>)
    requires |tiers| == 4 && |cuts| == 4
    ensures Live(SweepTiers(tiers, cuts)) == Reported(tiers, cuts)
      <==> forall i :: 0 <= i < 3 ==> Overwritten(tiers, cuts, i) == 0
  {
    hide SweepTiers, Live, Reported, Overwritten;
    SweepAccounting(tiers, cuts);
  }

  lemma ExpireCount(tiers: seq<Tree>, cutoff: int)
    requires |tiers| == 4
    ensures Live(Expire(tiers, cutoff)) == Live(tiers) - |ConsumedIds(tiers[3], cutoff)|
  {
    hide ConsumedIds;
    ConsumedIsStored(tiers[3], cutoff);
    RemoveCount(tiers[3], ConsumedIds(tiers[3], cutoff));
  }

  /** Trees that share no record stay so, and a sweep of such trees reports a balance. */
  lemma DisjointBalances(tiers: seq<Tree>, cuts: seq<int>)
    requires |tiers| == 4 && |cuts| == 4 && PairwiseDisjoint(tiers)
    ensures PairwiseDisjoint(SweepTiers(tiers, cuts))
    ensures Live(SweepTiers(tiers, cuts)) == Reported(tiers, cuts)
  {
    hide StageTiers, Heads, ConsumedIds, Live, PairwiseDisjoint, Reported, Expire;
    forall n | 0 <= n <= 3 ensures PairwiseDisjoint(AfterStages(tiers, cuts, n)) {
      StagesKeepDisjoint(tiers, cuts, n);
    }
    forall i | 0 <= i < 3 ensures Overwritten(tiers, cuts, i) == 0 {
      NothingUnderHeads(AfterStages(tiers, cuts, i), i, cuts[i]);
    }
    ExpireKeepsDisjoint(AfterStages(tiers, cuts, 3), cuts[3]);
    ReportBalancesIff(tiers, cuts);
  }

  lemma {:induction false} StagesKeepDisjoint(tiers: seq<Tree>, cuts: seq<int>, n: nat)
    requires |tiers| == 4 && |cuts| == 4 && PairwiseDisjoint(tiers) && n <= 3
    ensures PairwiseDisjoint(AfterStages(tiers, cuts, n))
    decreases n
  {
    hide StageTiers, PairwiseDisjoint;
    if n > 0 {
      StagesKeepDisjoint(tiers, cuts, n - 1);
      StageKeepsDisjoint(AfterStages(tiers, cuts, n - 1), n - 1, cuts[n - 1]);
    }
  }

  lemma NothingUnderHeads(tiers: seq<Tree>, i: nat, cutoff: int)
    requires |tiers| == 4 && i < 3 && PairwiseDisjoint(tiers)
    ensures tiers[i + 1].Keys * Heads(tiers[i], cutoff, StageBucket(i)) == {}
  {
    hide IsHead;
    assert tiers[i].Keys !! tiers[i + 1].Keys;
  }

  lemma ExpireKeepsDisjoint(tiers: seq<Tree>, cutoff: int)
    requires |tiers| == 4 && PairwiseDisjoint(tiers)
    ensures PairwiseDisjoint(Expire(tiers, cutoff))
  {
    hide ConsumedIds;
    var r := Expire(tiers, cutoff);
    forall i, j | 0 <= i < j < 4 ensures r[i].Keys !! r[j].Keys {
      assert tiers[i].Keys !! tiers[j].Keys;
    }
  }

  // ----- What an overwrite costs

  /** With no assumption on the trees, a stage loses exactly the records of the next tree that sit
      under the key of some group's earliest record. */
  lemma StageExactLoss(q: Query, s: Tree, t: Tree, cutoff: int, b: Bucket)
    requires WellTyped(s)
    ensures var s', t' := Remaining(s, cutoff), t + RolledUp(s, cutoff, b);
      Total(q, s', s'.Keys) + Total(q, t', t'.Keys) + Total(q, t, t.Keys * Heads(s, cutoff, b))
      == Total(q, s, s.Keys) + Total(q, t, t.Keys)
  {
    hide Below, Total, RolledUp, Heads;
    var ids, heads, m := ConsumedIds(s, cutoff), Heads(s, cutoff, b), RolledUp(s, cutoff, b);
    var s', t' := s - ids, t + m;
    RollUpConserves(q, s, cutoff, b);
    TotalUnion(q, s, s.Keys - ids, ids);
    assert s.Keys - ids + ids == s.Keys && s'.Keys == s.Keys - ids;
    TotalAgree(q, s, s', s'.Keys);
    TotalUnion(q, t', t.Keys - heads, heads);
    assert t.Keys - heads + heads == t'.Keys;
    TotalAgree(q, t, t', t.Keys - heads);
    TotalAgree(q, m, t', heads);
    TotalUnion(q, t, t.Keys - heads, t.Keys * heads);
    assert t.Keys - heads + t.Keys * heads == t.Keys;
  }

  /** So a stage conserves a total exactly when the records it overwrites carry none of it. */
  lemma StageConservesIff(q: Query, s: Tree, t: Tree, cutoff: int, b: Bucket)
    requires WellTyped(s)
    ensures var s', t' := Remaining(s, cutoff), t + RolledUp(s, cutoff, b);
      Total(q, s', s'.Keys) + Total(q, t', t'.Keys) == Total(q, s, s.Keys) + Total(q, t, t.Keys)
      <==> forall id :: id in t && id in Heads(s, cutoff, b) ==> Weight(q, id, t[id]) == 0
  {
    hide Below, Total, RolledUp, Heads, Weight, Remaining;
    var over := t.Keys * Heads(s, cutoff, b);
    StageExactLoss(q, s, t, cutoff, b);
    if forall id :: id in over ==> Weight(q, id, t[id]) == 0 {
      TotalZero(q, t, over);
    } else {
      var id :| id in over && Weight(q, id, t[id]) != 0;
      TotalPick(q, t, over, id);
    }
  }

  /** A record inserted late, under the key of an aggregate already written, makes the next sweep
      forget that aggregate: 7 bytes sent become 1. */
  lemma LateInsertLoses(q: Query, id: Id, cutoff: int)
    requires q == Query(TxBytes, id.app, YearBucket(id.ts)) && id.kind == Net && Below(id, cutoff)
    ensures var s := map[id := NetPayload(NetworkData(1, 0, 0))];
      var t := map[id := NetPayload(NetworkData(7, 0, 0))];
      var s', t' := Remaining(s, cutoff), t + RolledUp(s, cutoff, Day);
      && Total(q, s, s.Keys) + Total(q, t, t.Keys) == 8
      && Total(q, s', s'.Keys) + Total(q, t', t'.Keys) == 1
  {
    hide Below, BucketOf, YearBucket, RolledUp, Remaining;
    var s := map[id := NetPayload(NetworkData(1, 0, 0))];
    var t := map[id := NetPayload(NetworkData(7, 0, 0))];
    assert s.Keys == {id} && t.Keys == {id};
    TotalPick(q, s, s.Keys, id);
    TotalPick(q, t, t.Keys, id);
    assert s.Keys - {id} == {} && t.Keys - {id} == {};
    assert IsHead(s, cutoff, Day, id);
    assert t.Keys * Heads(s, cutoff, Day) == t.Keys;
    StageExactLoss(q, s, t, cutoff, Day);
  }

  // ----- A store with one record

  /** One record, in tree `i`. */
  function Lone(i: nat, id: Id, p: Payload): (tiers: seq<Tree>)
    requires i < 4
    ensures |tiers| == 4
  {
    [map[], map[], map[], map[]][i := map[id := p]]
  }

  /** The first tree whose cutoff spares the record. */
  predicate LandsIn(id: Id, cuts: seq<int>, i: nat) {
    |cuts| == 4 && i < 4 && (forall j :: 0 <= j < i ==> Below(id, cuts[j])) && !Below(id, cuts[i])
  }

  lemma LoneStage(id: Id, p: Payload, i: nat, cutoff: int) returns (p': Payload)
    requires i < 3 && Below(id, cutoff)
    ensures StageTiers(Lone(i, id, p), i, cutoff) == Lone(i + 1, id, p')
    ensures KindOf(p') == KindOf(p) && EssenceOf(p') == EssenceOf(p)
  {
    hide Below, BucketOf, Aggregate, Combined, EssenceOf, KindOf;
    var s, b := Lone(i, id, p)[i], StageBucket(i);
    LoneHead(id, p, cutoff, b);
    p' := Aggregate([p]);
    AggregateSums(TxBytes, [p]);
    AggregateEssence([p]);
    assert Lone(i, id, p)[i + 1] + map[id := p'] == map[id := p'];
    var a, z := StageTiers(Lone(i, id, p), i, cutoff), Lone(i + 1, id, p');
    assert forall j :: 0 <= j < 4 ==> a[j] == z[j];
  }

  lemma LoneHead(id: Id, p: Payload, cutoff: int, b: Bucket)
    requires Below(id, cutoff)
    ensures var s := map[id := p];
      && Remaining(s, cutoff) == map[] && Heads(s, cutoff, b) == {id}
      && RolledUp(s, cutoff, b) == map[id := Aggregate([p])]
  {
    hide Below, BucketOf, Aggregate;
    var s := map[id := p];
    assert IsHead(s, cutoff, b, id);
    assert Remaining(s, cutoff) == map[];
    assert Heads(s, cutoff, b) == {id};
    var g := Group(s, cutoff, b, id);
    assert g == {id};
    assert Chronological(g) == [id] by {
      ChronologicalUnique([id], g);
    }
    assert PayloadsAt(s, [id]) == [p];
    RolledUpAt(s, cutoff, b, id);
  }

  lemma LoneStays(id: Id, p: Payload, i: nat, n: nat, cuts: seq<int>)
    requires i < 4 && n < 3 && |cuts| == 4 && (n == i ==> !Below(id, cuts[n]))
    ensures StageTiers(Lone(i, id, p), n, cuts[n]) == Lone(i, id, p)
  {
    hide Below, StageTiers;
    StageOnQuiet(Lone(i, id, p), n, cuts[n]);
  }

  /** A sweep carries a lone raw record to the first tree that keeps it. */
  lemma LoneRecordLands(id: Id, p: Payload, cuts: seq<int>, i: nat) returns (p': Payload)
    requires LandsIn(id, cuts, i)
    ensures SweepTiers(Lone(0, id, p), cuts) == Lone(i, id, p')
    ensures KindOf(p') == KindOf(p) && EssenceOf(p') == EssenceOf(p)
  {
    hide Below, StageTiers, Lone, EssenceOf, KindOf;
    p' := LoneAfter(id, p, cuts, i, 3);
    assert Remaining(Lone(i, id, p')[3], cuts[3]) == Lone(i, id, p')[3] by {
      LoneKept(id, p', cuts, i);
    }
  }

  lemma LoneKept(id: Id, p: Payload, cuts: seq<int>, i: nat)
    requires LandsIn(id, cuts, i)
    ensures Remaining(Lone(i, id, p)[3], cuts[3]) == Lone(i, id, p)[3]
  {
    hide Below;
    assert ConsumedIds(Lone(i, id, p)[3], cuts[3]) == {};
  }

  lemma {:induction false} LoneAfter(id: Id, p: Payload, cuts: seq<int>, i: nat, n: nat) returns (p': Payload)
    requires LandsIn(id, cuts, i) && n <= 3
    ensures AfterStages(Lone(0, id, p), cuts, n) == Lone(if n < i then n else i, id, p')
    ensures KindOf(p') == KindOf(p) && EssenceOf(p') == EssenceOf(p)
    decreases n
  {
    hide Below, StageTiers, Lone, EssenceOf, KindOf;
    if n == 0 {
      p' := p;
    } else {
      var q := LoneAfter(id, p, cuts, i, n - 1);
      if n - 1 < i {
        p' := LoneStage(id, q, n - 1, cuts[n - 1]);
      } else {
        p' := q;
        LoneStays(id, q, i, n - 1, cuts);
      }
    }
  }

  /** The same record once in the raw and once in the daily tree: what a crash between the two batches of
      a stage leaves behind, and what a late insert makes of a swept record. */
  function Twice(id: Id, p: Payload, older: Payload): (tiers: seq<Tree>)
    ensures |tiers| == 4
  {
    Lone(1, id, older)[0 := map[id := p]]
  }

  /** The next sweep forgets the older copy. */
  lemma TwiceSweptOnce(id: Id, p: Payload, older: Payload, cuts: seq<int>)
    requires |cuts| == 4 && Below(id, cuts[0])
    ensures SweepTiers(Twice(id, p, older), cuts) == SweepTiers(Lone(0, id, p), cuts)
  {
    hide Below, StageTiers, Remaining;
    var a, b := Twice(id, p, older), Lone(0, id, p);
    assert StageTiers(a, 0, cuts[0]) == StageTiers(b, 0, cuts[0]) by {
      TwiceStage(id, p, older, cuts[0]);
    }
    assert AfterStages(a, cuts, 0) == a && AfterStages(b, cuts, 0) == b;
    assert AfterStages(a, cuts, 1) == AfterStages(b, cuts, 1);
    assert AfterStages(a, cuts, 2) == AfterStages(b, cuts, 2);
    assert AfterStages(a, cuts, 3) == AfterStages(b, cuts, 3);
  }

  lemma TwiceStage(id: Id, p: Payload, older: Payload, cutoff: int)
    requires Below(id, cutoff)
    ensures StageTiers(Twice(id, p, older), 0, cutoff) == StageTiers(Lone(0, id, p), 0, cutoff)
  {
    hide Below, BucketOf, Aggregate, RolledUp, Remaining, Heads;
    LoneHead(id, p, cutoff, Day);
    var a, b := StageTiers(Twice(id, p, older), 0, cutoff), StageTiers(Lone(0, id, p), 0, cutoff);
    assert Twice(id, p, older)[0] == map[id := p] == Lone(0, id, p)[0];
    assert a[1] == map[id := older] + RolledUp(map[id := p], cutoff, Day) == b[1];
    assert forall j :: 0 <= j < 4 ==> a[j] == b[j];
  }

  /** In such a state two records are live and the sweep reports one written and one deleted by its first
      stage, yet only one is left: the report does not balance. */
  lemma TwiceUnbalances(id: Id, p: Payload, older: Payload, cuts: seq<int>, i: nat)
    requires 1 <= i && LandsIn(id, cuts, i)
    ensures var tiers := Twice(id, p, older);
      && Live(tiers) == 2 && Live(SweepTiers(tiers, cuts)) == 1
      && Aggregated(tiers, cuts, 0) == 1 == Deleted(tiers, cuts, 0)
      && Overwritten(tiers, cuts, 0) == 1 && Live(SweepTiers(tiers, cuts)) != Reported(tiers, cuts)
  {
    hide Below, SweepTiers, Reported, Live, Aggregated, Deleted, Overwritten, Twice, Lone, LandsIn;
    LandsPast(id, cuts, i);
    TwiceCounts(id, p, older, cuts);
    TwiceSweptOnce(id, p, older, cuts);
    var p' := LoneRecordLands(id, p, cuts, i);
    LoneLive(i, id, p');
    ReportBalancesIff(Twice(id, p, older), cuts);
  }

  lemma TwiceCounts(id: Id, p: Payload, older: Payload, cuts: seq<int>)
    requires |cuts| == 4 && Below(id, cuts[0])
    ensures var tiers := Twice(id, p, older);
      && Live(tiers) == 2 && Aggregated(tiers, cuts, 0) == 1 == Deleted(tiers, cuts, 0)
      && Overwritten(tiers, cuts, 0) == 1
  {
    hide Below, Heads, Live, AfterStages, Twice, RolledUp;
    var tiers := Twice(id, p, older);
    TwiceTrees(id, p, older);
    LoneHead(id, p, cuts[0], Day);
    NoStages(tiers, cuts);
    assert ConsumedIds(tiers[0], cuts[0]) == {id};
    assert tiers[1].Keys * {id} == {id};
  }

  lemma TwiceTrees(id: Id, p: Payload, older: Payload)
    ensures var tiers := Twice(id, p, older); Live(tiers) == 2 && tiers[0] == map[id := p] && tiers[1].Keys == {id}
  {
    assert |map[id := p]| == 1 == |map[id := older]|;
  }

  lemma LoneLive(i: nat, id: Id, p: Payload)
    requires i < 4
    ensures Live(Lone(i, id, p)) == 1
  {}

  /** From an empty store: insert, sweep, insert the same second again, sweep. The first record's bytes are
      gone, whatever they were. */
  lemma LateInsertForgets(id: Id, first: Payload, late: Payload, cuts: seq<int>)
    requires LandsIn(id, cuts, 1)
    ensures var swept := SweepTiers(Lone(0, id, first), cuts);
      var end := SweepTiers(swept[0 := map[id := late]], cuts);
      && swept[1].Keys == {id} == end[1].Keys
      && EssenceOf(swept[1][id]) == EssenceOf(first) && EssenceOf(end[1][id]) == EssenceOf(late)
      && Live(end) == 1
  {
    hide Below, SweepTiers, EssenceOf, LandsIn;
    var older := LoneRecordLands(id, first, cuts, 1);
    assert |cuts| == 4 && Below(id, cuts[0]) by {
      LandsPast(id, cuts, 1);
    }
    assert SweepTiers(Lone(0, id, first), cuts)[0 := map[id := late]] == Twice(id, late, older);
    TwiceSweptOnce(id, late, older, cuts);
    var p' := LoneRecordLands(id, late, cuts, 1);
    LoneLive(1, id, p');
  }

  lemma LandsPast(id: Id, cuts: seq<int>, i: nat)
    requires LandsIn(id, cuts, i) && i > 0
    ensures i < 4 && |cuts| == 4 && Below(id, cuts[0])
  {}
}
