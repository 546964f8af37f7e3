/** What becomes of the records ever inserted: in every reachable state each record that counts is a
    rollup of a definite stretch of them, and the stretches tile everything that has not expired. */
module History {
  import opened Metrics
  import opened Calendar
  import opened Aggregation
  import opened Tiers
  import opened Stages
  import opened Sweep

  // ----- Timelines

  ghost predicate OneSeries(ids: set<Id>) {
    forall x, y :: x in ids && y in ids ==> SameSeries(x, y)
  }

  ghost function InSeries(z: Series, ids: set<Id>): (r: set<Id>)
    ensures r <= ids
  {
    set id | id in ids && Belongs(z, id)
  }

  /** The payloads of a set of records in time order. */
  ghost function Timeline(t: Tree, ids: set<Id>): (ps: seq<Payload>)
    requires ids <= t.Keys
    ensures |ps| == |ids|
  {
    PayloadsAt(t, Chronological(ids))
  }

  lemma {:induction false} ChronologicalOrdered(ids: set<Id>)
    requires OneSeries(ids)
    ensures StrictlyOrdered(Chronological(ids))
    decreases ids
  {
    hide Chronological;
    if ids != {} {
      ChronologicalStep(ids);
      var e := Earliest(ids);
      ChronologicalOrdered(ids - {e});
      FirstIsBefore(ids, e, Chronological(ids - {e}));
    } else {
      assert |Chronological(ids)| == 0;
    }
  }

  lemma FirstIsBefore(ids: set<Id>, e: Id, rest: seq<Id>)
    requires IsEarliest(e, ids) && OneSeries(ids) && StrictlyOrdered(rest)
    requires forall id :: id in rest <==> id in ids - {e}
    ensures StrictlyOrdered([e] + rest)
  {
    forall i | 0 <= i < |rest| ensures e.ts < rest[i].ts {
      assert rest[i] in rest;
      assert SameSeries(e, rest[i]);
    }
  }

  lemma TimelineConcat(t: Tree, a: set<Id>, b: set<Id>)
    requires a <= t.Keys && b <= t.Keys && OneSeries(a + b)
    requires forall x, y :: x in a && y in b ==> x.ts < y.ts
    ensures a !! b && Timeline(t, a + b) == Timeline(t, a) + Timeline(t, b)
  {
    hide Chronological, StrictlyOrdered, PayloadsAt;
    assert OneSeries(a) && OneSeries(b);
    ChronologicalOrdered(a);
    ChronologicalOrdered(b);
    var p, q := Chronological(a), Chronological(b);
    OrderedConcat(p, q, a, b);
    ChronologicalUnique(p + q, a + b);
    PayloadsConcat(t, p, q);
  }

  lemma PayloadsConcat(t: Tree, p: seq<Id>, q: seq<Id>)
    requires (forall id :: id in p ==> id in t) && (forall id :: id in q ==> id in t)
    ensures PayloadsAt(t, p + q) == PayloadsAt(t, p) + PayloadsAt(t, q)
  {}

  lemma OrderedConcat(p: seq<Id>, q: seq<Id>, a: set<Id>, b: set<Id>)
    requires StrictlyOrdered(p) && StrictlyOrdered(q)
    requires (forall id :: id in p <==> id in a) && (forall id :: id in q <==> id in b)
    requires forall x, y :: x in a && y in b ==> x.ts < y.ts
    ensures StrictlyOrdered(p + q)
  {
    var w := p + q;
    forall i, j | 0 <= i < j < |w| ensures w[i].ts < w[j].ts {
      if i < |p| <= j {
        assert p[i] in p && q[j - |p|] in q;
      }
    }
  }

  lemma TimelineAgree(t: Tree, u: Tree, ids: set<Id>)
    requires ids <= t.Keys && ids <= u.Keys && forall id :: id in ids ==> t[id] == u[id]
    ensures Timeline(t, ids) == Timeline(u, ids)
  {
    hide Chronological;
    var s := Chronological(ids);
    assert forall i :: 0 <= i < |s| ==> s[i] in ids;
  }

  lemma TimelineFirst(t: Tree, ids: set<Id>)
    requires ids != {} && ids <= t.Keys
    ensures var e := Earliest(ids); Timeline(t, ids) == [t[e]] + Timeline(t, ids - {e})
  {
    hide Chronological;
    ChronologicalStep(ids);
  }

  lemma NoTimeline(t: Tree)
    ensures Timeline(t, {}) == []
  {}

  lemma OneTimeline(t: Tree, id: Id)
    requires id in t
    ensures Timeline(t, {id}) == [t[id]]
  {
    hide Chronological;
    TimelineFirst(t, {id});
    assert {id} - {id} == {};
  }

  // ----- The records that count, and what each stands for

  /** The store as one tree. Where two trees share a key the newer one counts: the older one's record is
      an aggregate whose source is still there. */
  function View(tiers: seq<Tree>): Tree
    requires |tiers| == 4
  {
    tiers[3] + tiers[2] + tiers[1] + tiers[0]
  }

  /** The newest tree that holds the record. */
  function TierOf(tiers: seq<Tree>, id: Id): (i: nat)
    requires |tiers| == 4 && id in View(tiers)
    ensures i < 4 && id in tiers[i] && View(tiers)[id] == tiers[i][id]
  {
    if id in tiers[0] then 0 else if id in tiers[1] then 1 else if id in tiers[2] then 2 else 3
  }

  /** What a live record stands for: everything ever inserted into its series from its own timestamp up
      to the next live record. */
  ghost function Segment(live: set<Id>, all: Tree, id: Id): (r: set<Id>)
    ensures r <= all.Keys
  {
    set x | x in all && SameSeries(x, id) && id.ts <= x.ts && UpTo(live, id, x)
  }

  ghost predicate UpTo(live: set<Id>, id: Id, x: Id) {
    forall k :: k in live && SameSeries(k, id) && id.ts < k.ts ==> x.ts < k.ts
  }

  ghost function Covered(live: set<Id>, all: Tree, ids: set<Id>): (r: set<Id>)
    ensures r <= all.Keys
  {
    set x | x in all && exists j :: j in ids && x in Segment(live, all, j)
  }

  /** The payload comes from exactly these raw payloads by some sequence of aggregations. */
  ghost predicate IsRollup(p: Payload, k: MetricType, ps: seq<Payload>) {
    exists r: Rollup :: WellFormed(r, k) && Eval(r, k) == p && Leaves(r) == ps
  }

  /** A raw record stands for itself, a daily one for records of one day, a monthly one for records of one
      month, a yearly one for records of one year. */
  predicate Spans(tier: nat, id: Id, x: Id)
    requires tier < 4
  {
    match tier
    case 0 => x == id
    case 1 => DayBucket(x.ts) == DayBucket(id.ts)
    case 2 => MonthBucket(x.ts) == MonthBucket(id.ts)
    case _ => YearBucket(x.ts) == YearBucket(id.ts)
  }

  /** The live record `id` is a rollup of its segment, the earliest record of which it is named after. */
  ghost predicate Backed(tiers: seq<Tree>, all: Tree, id: Id)
    requires |tiers| == 4 && id in View(tiers)
  {
    var raw := Segment(View(tiers).Keys, all, id);
    && id in raw
    && (forall x :: x in raw ==> Spans(TierOf(tiers, id), id, x))
    && IsRollup(View(tiers)[id], id.kind, Timeline(all, raw))
  }

  ghost predicate RawInv(db: Db, all: Tree)
    requires Shape(db)
  {
    && (forall id :: id in db.tiers[0] ==> id in all && all[id] == db.tiers[0][id])
    && (forall x :: x in all && x !in db.tiers[0] ==> Below(x, db.marks[0]) && Precedes(x, db.tiers[0]))
  }

  /** The raw tree holds what no sweep has consumed yet, and every live record is backed. */
  ghost predicate Provenance(db: Db, all: Tree)
    requires Shape(db)
  {
    RawInv(db, all) && forall id :: id in View(db.tiers) ==> Backed(db.tiers, all, id)
  }

  // ----- Segments

  ghost predicate IsLatest(id: Id, ids: set<Id>) {
    id in ids && forall j :: j in ids ==> j.ts <= id.ts
  }

  lemma {:induction false} LatestExists(ids: set<Id>)
    requires ids != {}
    ensures exists id :: IsLatest(id, ids)
    decreases ids
  {
    var x :| x in ids;
    if ids == {x} {
      assert IsLatest(x, ids);
    } else {
      LatestExists(ids - {x});
      var y :| IsLatest(y, ids - {x});
      assert IsLatest(if x.ts >= y.ts then x else y, ids);
    }
  }

  /** Everything inserted at or after some live record of its series lies in the segment of one. */
  lemma Owner(live: set<Id>, all: Tree, k: Id, x: Id) returns (j: Id)
    requires x in all && k in live && SameSeries(x, k) && k.ts <= x.ts
    ensures j in live && k.ts <= j.ts && x in Segment(live, all, j)
  {
    var before := set i | i in live && SameSeries(i, x) && i.ts <= x.ts;
    assert k in before;
    LatestExists(before);
    j :| IsLatest(j, before);
    forall i | i in live && SameSeries(i, j) && j.ts < i.ts ensures x.ts < i.ts {
      assert i !in before;
    }
  }

  /** No inserted record is counted twice. */
  lemma SegmentsDisjoint(live: set<Id>, all: Tree, i: Id, j: Id)
    requires i in live && j in live && i != j
    ensures Segment(live, all, i) !! Segment(live, all, j)
  {
    forall x | x in Segment(live, all, i) ensures x !in Segment(live, all, j) {
      assert UpTo(live, i, x) && (i.ts == j.ts && SameSeries(i, j) ==> i == j);
    }
  }

  /** A segment stays as it is if each live record that goes is preceded by one that stays. */
  lemma SegmentKept(live: set<Id>, live': set<Id>, all: Tree, k: Id)
    requires live' <= live
    requires forall m :: m in live && m !in live' && SameSeries(m, k) && k.ts < m.ts ==>
               exists h :: h in live' && SameSeries(h, k) && k.ts < h.ts <= m.ts
    ensures Segment(live', all, k) == Segment(live, all, k)
  {
    forall x | x in Segment(live', all, k) ensures UpTo(live, k, x) {
      forall m | m in live && SameSeries(m, k) && k.ts < m.ts ensures x.ts < m.ts {
        if m !in live' {
          var h :| h in live' && SameSeries(h, k) && k.ts < h.ts <= m.ts;
        }
      }
    }
    assert forall x :: x in Segment(live, all, k) ==> UpTo(live, k, x);
  }

  /** Every record of the tree comes before, or after, all records of the series in `s`. */
  predicate Apart(k: Id, s: Tree) {
    Precedes(k, s) || forall j :: j in s && SameSeries(j, k) ==> j.ts < k.ts
  }

  /** `live'` is what stays of `live` when the stage replaces what it consumes by the heads. */
  ghost predicate Replaces(live: set<Id>, live': set<Id>, s: Tree, cutoff: int, b: Bucket) {
    && s.Keys <= live
    && (forall k :: k in live && k !in s ==> Apart(k, s))
    && live' == live - ConsumedIds(s, cutoff) + Heads(s, cutoff, b)
  }

  lemma HeadOf(s: Tree, cutoff: int, b: Bucket, m: Id) returns (h: Id)
    requires m in s && Below(m, cutoff)
    ensures h in Heads(s, cutoff, b) && SameGroup(b, m, h) && h.ts <= m.ts && h in s && Below(h, cutoff)
  {
    hide Below, BucketOf;
    EveryConsumedHasHead(s, cutoff, b, m);
    h :| h in Heads(s, cutoff, b) && SameGroup(b, m, h);
  }

  lemma HeadsConsumed(live: set<Id>, live': set<Id>, s: Tree, cutoff: int, b: Bucket)
    requires Replaces(live, live', s, cutoff, b)
    ensures live' <= live
  {
    hide Below, BucketOf;
  }

  /** The segments of records the stage does not touch stay. */
  lemma UntouchedSegment(live: set<Id>, live': set<Id>, all: Tree, s: Tree, cutoff: int, b: Bucket, k: Id)
    requires Replaces(live, live', s, cutoff, b) && k in live && k !in ConsumedIds(s, cutoff)
    ensures Segment(live', all, k) == Segment(live, all, k)
  {
    hide Below, BucketOf, Heads, Segment;
    HeadsConsumed(live, live', s, cutoff, b);
    forall m | m in live && m !in live' && SameSeries(m, k) && k.ts < m.ts
      ensures exists h :: h in live' && SameSeries(h, k) && k.ts < h.ts <= m.ts
    {
      assert m in s && Below(m, cutoff);
      var h := HeadOf(s, cutoff, b, m);
      assert h in live' && SameSeries(h, k);
      assert k !in s by {
        if k in s {
          BelowIsDownward(m, k, cutoff);
        }
      }
      assert Apart(k, s);
    }
    SegmentKept(live, live', all, k);
  }

  /** One bucket of one series is an interval of time. */
  lemma BucketInterval(b: Bucket, x: nat, y: nat, z: nat)
    requires x <= y <= z && BucketOf(b, x) == BucketOf(b, z)
    ensures BucketOf(b, y) == BucketOf(b, x)
  {
    BucketsAreFloors(x, y);
    BucketsAreFloors(y, z);
  }

  /** The segment of an aggregate is what the segments of its group add up to. */
  lemma MergedSegment(live: set<Id>, live': set<Id>, all: Tree, s: Tree, cutoff: int, b: Bucket, h: Id)
    requires Replaces(live, live', s, cutoff, b) && h in Heads(s, cutoff, b)
    ensures Segment(live', all, h) == Covered(live, all, Group(s, cutoff, b, h))
  {
    hide Below, BucketOf;
    var g := Group(s, cutoff, b, h);
    forall x | x in Segment(live', all, h) ensures x in Covered(live, all, g) {
      MergedInto(live, live', all, s, cutoff, b, h, x);
    }
    forall x | x in Covered(live, all, g) ensures x in Segment(live', all, h) {
      var j :| j in g && x in Segment(live, all, j);
      MergedFrom(live, live', all, s, cutoff, b, h, j, x);
    }
  }

  lemma MergedInto(live: set<Id>, live': set<Id>, all: Tree, s: Tree, cutoff: int, b: Bucket, h: Id, x: Id)
    requires Replaces(live, live', s, cutoff, b) && h in Heads(s, cutoff, b) && x in Segment(live', all, h)
    ensures x in Covered(live, all, Group(s, cutoff, b, h))
  {
    hide Below, BucketOf;
    assert h in s && Below(h, cutoff) && h in live;
    var j := Owner(live, all, h, x);
    assert SameSeries(j, h);
    assert j in ConsumedIds(s, cutoff);
    var h' := HeadOf(s, cutoff, b, j);
    assert h' in live' && SameSeries(h', h);
    assert h'.ts <= h.ts;
    BucketInterval(b, h'.ts, h.ts, j.ts);
    assert j in Group(s, cutoff, b, h);
  }

  lemma MergedFrom(live: set<Id>, live': set<Id>, all: Tree, s: Tree, cutoff: int, b: Bucket, h: Id, j: Id, x: Id)
    requires Replaces(live, live', s, cutoff, b) && h in Heads(s, cutoff, b)
    requires j in Group(s, cutoff, b, h) && x in Segment(live, all, j)
    ensures x in Segment(live', all, h)
  {
    hide Below, BucketOf;
    HeadsConsumed(live, live', s, cutoff, b);
    assert IsHead(s, cutoff, b, h) && h.ts <= j.ts <= x.ts;
    forall k | k in live' && SameSeries(k, h) && h.ts < k.ts ensures x.ts < k.ts {
      assert j.ts < k.ts by {
        if k !in s {
          assert Apart(k, s);
        } else if k in Heads(s, cutoff, b) {
          GroupEndsBefore(s, cutoff, b, h, j, k);
        } else {
          BelowIsDownward(j, k, cutoff);
        }
      }
    }
  }

  /** A group ends before the next head of its series. */
  lemma GroupEndsBefore(s: Tree, cutoff: int, b: Bucket, h: Id, j: Id, k: Id)
    requires IsHead(s, cutoff, b, h) && IsHead(s, cutoff, b, k) && SameGroup(b, j, h) && SameSeries(k, h) && h.ts < k.ts
    ensures j.ts < k.ts
  {
    hide Below, BucketOf;
    assert !SameGroup(b, h, k);
    if k.ts <= j.ts {
      BucketInterval(b, h.ts, k.ts, j.ts);
    }
  }

  // ----- Rollups of rollups

  lemma {:induction false} EvalCons(r: Rollup, rs: seq<Rollup>, k: MetricType)
    requires WellFormed(r, k) && forall i :: 0 <= i < |rs| ==> WellFormed(rs[i], k)
    ensures var w := [r] + rs;
      && (forall i :: 0 <= i < |w| ==> WellFormed(w[i], k))
      && EvalAll(w, k) == [Eval(r, k)] + EvalAll(rs, k)
      && LeavesOf(w) == Leaves(r) + LeavesOf(rs)
    decreases |rs|
  {
    hide Eval, Leaves, WellFormed;
    var w := [r] + rs;
    if rs == [] {
      assert w[..|w| - 1] == [];
    } else {
      assert w[..|w| - 1] == [r] + rs[..|rs| - 1];
      EvalCons(r, rs[..|rs| - 1], k);
    }
  }

  /** Live records of one series, in time order, are rollups whose leaves in order are everything they
      stand for. */
  lemma {:induction false} Trace(view: Tree, all: Tree, ids: set<Id>, k: MetricType) returns (rs: seq<Rollup>)
    requires ids <= view.Keys && OneSeries(ids)
    requires forall id :: id in ids ==>
               id.kind == k && IsRollup(view[id], k, Timeline(all, Segment(view.Keys, all, id)))
    ensures |rs| == |ids| && forall i :: 0 <= i < |rs| ==> WellFormed(rs[i], k)
    ensures EvalAll(rs, k) == Timeline(view, ids)
    ensures LeavesOf(rs) == Timeline(all, Covered(view.Keys, all, ids))
    decreases ids
  {
    hide Timeline, WellFormed, Eval, Leaves, Segment;
    if ids == {} {
      rs := [];
      NoTimeline(view);
      NoTimeline(all);
      assert Covered(view.Keys, all, ids) == {};
    } else {
      var e := Earliest(ids);
      var rest := Trace(view, all, ids - {e}, k);
      var ps := Timeline(all, Segment(view.Keys, all, e));
      var r: Rollup :| WellFormed(r, k) && Eval(r, k) == view[e] && Leaves(r) == ps;
      rs := [r] + rest;
      EvalCons(r, rest, k);
      TimelineFirst(view, ids);
      CoveredFirst(view.Keys, all, ids, e);
      TimelineConcat(all, Segment(view.Keys, all, e), Covered(view.Keys, all, ids - {e}));
    }
  }

  lemma CoveredFirst(live: set<Id>, all: Tree, ids: set<Id>, e: Id)
    requires ids <= live && OneSeries(ids) && IsEarliest(e, ids)
    ensures var a, b := Segment(live, all, e), Covered(live, all, ids - {e});
      && Covered(live, all, ids) == a + b && OneSeries(a + b)
      && forall x, y :: x in a && y in b ==> x.ts < y.ts
  {
    var a, b := Segment(live, all, e), Covered(live, all, ids - {e});
    forall y | y in b ensures SameSeries(y, e) && forall x :: x in a ==> x.ts < y.ts {
      var j :| j in ids - {e} && y in Segment(live, all, j);
      assert SameSeries(j, e) && e.ts < j.ts;
    }
  }

  // ----- Every step keeps the provenance

  lemma RawSegment(db: Db, all: Tree, id: Id)
    requires Inv(db) && RawInv(db, all) && id in db.tiers[0]
    ensures Segment(View(db.tiers).Keys, all, id) == {id}
  {
    hide TreesInv, PcInv, Below;
    var live := View(db.tiers).Keys;
    forall x | x in Segment(live, all, id) ensures x == id {
      assert UpTo(live, id, x) && SameSeries(id, x);
      assert x !in db.tiers[0] ==> Precedes(x, db.tiers[0]);
      assert x in db.tiers[0] ==> x in live;
    }
  }

  lemma RawBacked(db: Db, all: Tree, id: Id)
    requires Inv(db) && RawInv(db, all) && WellTyped(db.tiers[0]) && id in db.tiers[0]
    ensures Backed(db.tiers, all, id)
  {
    hide TreesInv, PcInv, Below, Timeline;
    RawSegment(db, all, id);
    OneTimeline(all, id);
    var r := Leaf(all[id]);
    assert WellFormed(r, id.kind) && Eval(r, id.kind) == all[id] && Leaves(r) == [all[id]];
  }

  lemma BackedTransfer(tiers: seq<Tree>, tiers': seq<Tree>, all: Tree, all': Tree, id: Id)
    requires |tiers| == 4 && |tiers'| == 4 && id in View(tiers) && id in View(tiers')
    requires Backed(tiers, all, id)
    requires View(tiers')[id] == View(tiers)[id] && TierOf(tiers', id) == TierOf(tiers, id)
    requires Segment(View(tiers').Keys, all', id) == Segment(View(tiers).Keys, all, id)
    requires forall x :: x in Segment(View(tiers).Keys, all, id) ==> all'[x] == all[x]
    ensures Backed(tiers', all', id)
  {
    hide View, TierOf, Segment, Timeline, Spans;
    TimelineAgree(all, all', Segment(View(tiers).Keys, all, id));
  }

  lemma InsertKeepsSegment(db: Db, all: Tree, id: Id, p: Payload, k: Id)
    requires Inv(db) && RawInv(db, all) && Enabled(db, Insert(id, p)) && k in View(db.tiers) && k != id
    ensures var live := View(db.tiers).Keys;
      && Segment(live + {id}, all[id := p], k) == Segment(live, all, k)
      && id !in Segment(live, all, k)
  {
    hide TreesInv, PcInv, Below;
    var live := View(db.tiers).Keys;
    forall x | x in Segment(live, all, k) ensures x != id && UpTo(live + {id}, k, x) {
      assert x in db.tiers[0] ==> x in live;
      if x !in db.tiers[0] && SameSeries(id, k) {
        BelowIsDownward(x, id, db.marks[0]);
      }
    }
    forall x | x in Segment(live + {id}, all[id := p], k) ensures x in Segment(live, all, k) {
      assert id in live + {id};
      assert UpTo(live + {id}, k, x);
    }
  }

  lemma InsertKeepsRaw(db: Db, all: Tree, id: Id, p: Payload)
    requires Inv(db) && RawInv(db, all) && Enabled(db, Insert(id, p))
    ensures RawInv(Step(db, Insert(id, p)), all[id := p])
  {
    hide TreesInv, PcInv, Below;
    forall x | x in all && x !in db.tiers[0] && x != id ensures Precedes(x, db.tiers[0][id := p]) {
      assert Precedes(x, db.tiers[0]);
      if SameSeries(id, x) {
        BelowIsDownward(x, id, db.marks[0]);
      }
    }
  }

  lemma InsertKeepsProvenance(db: Db, all: Tree, id: Id, p: Payload)
    requires Inv(db) && Provenance(db, all) && Enabled(db, Insert(id, p))
    ensures Provenance(Step(db, Insert(id, p)), all[id := p])
  {
    hide TreesInv, PcInv, Below, RawInv, Backed, Segment;
    var db' := Step(db, Insert(id, p));
    InsertKeepsInv(db, id, p);
    InsertKeepsRaw(db, all, id, p);
    assert View(db'.tiers).Keys == View(db.tiers).Keys + {id};
    RawWellTyped(db');
    forall k | k in View(db'.tiers) ensures Backed(db'.tiers, all[id := p], k) {
      if k == id {
        RawBacked(db', all[id := p], id);
      } else {
        InsertKeepsSegment(db, all, id, p, k);
        BackedTransfer(db.tiers, db'.tiers, all, all[id := p], k);
      }
    }
  }

  lemma RawWellTyped(db: Db)
    requires Inv(db)
    ensures WellTyped(db.tiers[0])
  {}

  lemma BeginKeepsProvenance(db: Db, all: Tree, cuts: seq<int>)
    requires Inv(db) && Provenance(db, all) && Enabled(db, Begin(cuts))
    ensures Provenance(Step(db, Begin(cuts)), all)
  {
    hide TreesInv, PcInv, Below, Backed;
    forall x | x in all && x !in db.tiers[0] ensures Below(x, cuts[0]) {
      BelowMonotone(x, db.marks[0], cuts[0]);
    }
  }

  /** Writing aggregates changes nothing that counts. */
  lemma WriteKeepsView(db: Db)
    requires Inv(db) && db.pc.Busy? && db.pc.staged.Writes?
    ensures var tiers' := AdvanceStep(db).tiers;
      && View(tiers') == View(db.tiers) && tiers'[0] == db.tiers[0]
      && forall id :: id in View(db.tiers) ==> TierOf(tiers', id) == TierOf(db.tiers, id)
  {
    hide TreesInv, PcInv, Below, Heads, View, TierOf, WellTyped;
    BatchFacts(db);
    GrownView(db.tiers, db.pc.stage, db.pc.staged.batch);
  }

  /** Records written under keys the newer tree still holds do not show. */
  lemma GrownView(tiers: seq<Tree>, i: nat, batch: Tree)
    requires |tiers| == 4 && i < 3 && batch.Keys <= tiers[i].Keys
    ensures var tiers' := tiers[i + 1 := tiers[i + 1] + batch];
      && View(tiers') == View(tiers)
      && forall id :: id in View(tiers) ==> TierOf(tiers', id) == TierOf(tiers, id)
  {
    hide View, TierOf;
    var tiers' := tiers[i + 1 := tiers[i + 1] + batch];
    forall id ensures id in View(tiers') <==> id in View(tiers) {
      GrownAt(tiers, i, batch, id);
    }
    forall id | id in View(tiers)
      ensures View(tiers')[id] == View(tiers)[id] && TierOf(tiers', id) == TierOf(tiers, id)
    {
      GrownAt(tiers, i, batch, id);
    }
  }

  lemma GrownAt(tiers: seq<Tree>, i: nat, batch: Tree, id: Id)
    requires |tiers| == 4 && i < 3 && batch.Keys <= tiers[i].Keys
    ensures var tiers' := tiers[i + 1 := tiers[i + 1] + batch];
      && (id in View(tiers') <==> id in View(tiers))
      && (id in View(tiers) ==> View(tiers')[id] == View(tiers)[id] && TierOf(tiers', id) == TierOf(tiers, id))
  {
    assert id in batch ==> id in tiers[i];
  }

  lemma WriteKeepsProvenance(db: Db, all: Tree)
    requires Inv(db) && Provenance(db, all) && db.pc.Busy? && db.pc.staged.Writes?
    ensures Provenance(AdvanceStep(db), all)
  {
    hide TreesInv, PcInv, Below, Segment, Timeline, View, TierOf, IsRollup, Spans;
    WriteKeepsView(db);
    BatchFacts(db);
    forall id | id in View(db.tiers) ensures Backed(AdvanceStep(db).tiers, all, id) {
      BackedTransfer(db.tiers, AdvanceStep(db).tiers, all, all, id);
    }
  }

  /** During a stage its source shares no key with a newer tree, and other live records lie apart. */
  lemma SourceStandsApart(db: Db)
    requires Inv(db) && db.pc.Busy? && db.pc.stage < 3
    ensures var s := db.tiers[db.pc.stage];
      && (forall i :: 0 <= i < 4 && i != db.pc.stage && i != db.pc.stage + 1 ==> s.Keys !! db.tiers[i].Keys)
      && s.Keys <= View(db.tiers).Keys
      && (forall k :: k in View(db.tiers) && k !in s ==> Apart(k, s))
  {
    hide Below, BucketOf, RolledUp, WellTyped, Written;
    var stage, s := db.pc.stage, db.tiers[db.pc.stage];
    forall i | 0 <= i < 4 && i != stage && i != stage + 1
      ensures s.Keys !! db.tiers[i].Keys && forall k :: k in db.tiers[i] ==> Apart(k, s)
    {
      NewerOrOlder(db, i);
    }
    forall k | k in View(db.tiers) && k !in s ensures Apart(k, s) {
      var i := TierOf(db.tiers, k);
      if i == stage + 1 {
        assert Precedes(k, s) || IsHead(s, db.marks[stage], StageBucket(stage), k);
      }
    }
  }

  lemma NewerOrOlder(db: Db, i: nat)
    requires Inv(db) && db.pc.Busy? && db.pc.stage < 3 && i < 4 && i != db.pc.stage && i != db.pc.stage + 1
    ensures db.tiers[db.pc.stage].Keys !! db.tiers[i].Keys
    ensures forall k :: k in db.tiers[i] ==> Apart(k, db.tiers[db.pc.stage])
  {
    hide Below, BucketOf, RolledUp, WellTyped, Written, Adjacent, StageOutput;
    var stage, s := db.pc.stage, db.tiers[db.pc.stage];
    if i < stage {
      assert AllPrecede(s, db.tiers[i]) by {
        if i + 1 == stage {
          assert SettledAt(db.tiers, i);
        }
      }
      PrecedeMeansDisjoint(db.tiers[i], s);
      forall k | k in db.tiers[i] ensures Apart(k, s) {
        forall j | j in s && SameSeries(j, k) ensures j.ts < k.ts {
          assert Precedes(j, db.tiers[i]) && SameSeries(k, j);
        }
      }
    } else {
      assert AllPrecede(db.tiers[i], s);
      PrecedeMeansDisjoint(s, db.tiers[i]);
    }
  }

  /** A stage's deletion replaces what it consumed by the aggregates. */
  lemma DeleteChangesView(db: Db)
    requires Inv(db) && db.pc.Busy? && db.pc.staged.Removes? && db.pc.stage < 3
    ensures var stage := db.pc.stage; var s, mark := db.tiers[stage], db.marks[stage];
      var view, tiers' := View(db.tiers), AdvanceStep(db).tiers;
      && View(tiers') == (view - ConsumedIds(s, mark)) + StageOutput(db)
      && Replaces(view.Keys, View(tiers').Keys, s, mark, StageBucket(stage))
      && (forall id :: id in s ==> view[id] == s[id])
      && (forall id :: id in View(tiers') && id in StageOutput(db) ==> TierOf(tiers', id) == stage + 1)
      && (forall id :: id in View(tiers') && id !in StageOutput(db) ==> TierOf(tiers', id) == TierOf(db.tiers, id))
  {
    hide TreesInv, PcInv, Below, BucketOf, RolledUp, Heads, ConsumedIds, Apart, View, TierOf, AdvanceStep;
    var stage := db.pc.stage;
    var s, mark := db.tiers[stage], db.marks[stage];
    RemovalIsConsumption(db);
    SourceStandsApart(db);
    LeftoversAreOutput(db);
    ConsumedWithin(s, mark);
    OutputConsumed(db);
    MovedView(db.tiers, stage, ConsumedIds(s, mark), StageOutput(db));
  }

  lemma RemovalIsConsumption(db: Db)
    requires Inv(db) && db.pc.Busy? && db.pc.staged.Removes? && db.pc.stage < 3
    ensures db.pc.kind == KINDS
    ensures AdvanceStep(db).tiers ==
              db.tiers[db.pc.stage := db.tiers[db.pc.stage] - ConsumedIds(db.tiers[db.pc.stage], db.marks[db.pc.stage])]
  {
    hide TreesInv, StageOutput, ConsumedIds, Written;
  }

  /** Taking records out of a tree lets the next tree's records under the same keys show through. */
  lemma MovedView(tiers: seq<Tree>, i: nat, gone: set<Id>, output: Tree)
    requires |tiers| == 4 && i < 3 && output.Keys <= gone <= tiers[i].Keys
    requires forall j :: 0 <= j < 4 && j != i && j != i + 1 ==> tiers[i].Keys !! tiers[j].Keys
    requires tiers[i].Keys * tiers[i + 1].Keys == output.Keys
    requires forall id :: id in output ==> tiers[i + 1][id] == output[id]
    ensures var view, tiers' := View(tiers), tiers[i := tiers[i] - gone];
      && View(tiers') == (view - gone) + output
      && (forall id :: id in tiers[i] ==> id in view && view[id] == tiers[i][id])
      && (forall id :: id in View(tiers') && id in output ==> TierOf(tiers', id) == i + 1)
      && (forall id :: id in View(tiers') && id !in output ==> TierOf(tiers', id) == TierOf(tiers, id))
  {
    var view', tiers' := (View(tiers) - gone) + output, tiers[i := tiers[i] - gone];
    forall id ensures id in View(tiers') <==> id in view' {
      MovedAt(tiers, i, gone, output, id);
    }
    forall id | id in view' ensures View(tiers')[id] == view'[id] {
      MovedAt(tiers, i, gone, output, id);
    }
    forall id | id in View(tiers') ensures TierOf(tiers', id) == if id in output then i + 1 else TierOf(tiers, id) {
      MovedAt(tiers, i, gone, output, id);
    }
  }

  lemma MovedAt(tiers: seq<Tree>, i: nat, gone: set<Id>, output: Tree, id: Id)
    requires |tiers| == 4 && i < 3 && output.Keys <= gone <= tiers[i].Keys
    requires forall j :: 0 <= j < 4 && j != i && j != i + 1 ==> tiers[i].Keys !! tiers[j].Keys
    requires tiers[i].Keys * tiers[i + 1].Keys == output.Keys
    requires forall id :: id in output ==> tiers[i + 1][id] == output[id]
    ensures var view, tiers' := View(tiers), tiers[i := tiers[i] - gone];
      && (id in View(tiers') <==> id in output || (id in view && id !in gone))
      && (id in output ==> View(tiers')[id] == output[id] && TierOf(tiers', id) == i + 1)
      && (id in view && id !in gone ==> View(tiers')[id] == view[id] && TierOf(tiers', id) == TierOf(tiers, id))
  {
    assert id in tiers[i] && id in tiers[i + 1] <==> id in output;
    assert forall j :: 0 <= j < 4 && j != i && j != i + 1 && id in tiers[i] ==> id !in tiers[j];
  }

  lemma OutputConsumed(db: Db)
    requires Shape(db) && db.pc.Busy? && db.pc.stage < 3
    ensures StageOutput(db).Keys <= ConsumedIds(db.tiers[db.pc.stage], db.marks[db.pc.stage])
    ensures StageOutput(db).Keys == Heads(db.tiers[db.pc.stage], db.marks[db.pc.stage], StageBucket(db.pc.stage))
  {
    hide Below, BucketOf;
  }

  /** What the stage writes for a group is a rollup of everything the group stands for. */
  lemma GroupIsRollup(db: Db, all: Tree, h: Id)
    requires Inv(db) && Provenance(db, all) && db.pc.Busy? && db.pc.stage < 3 && h in StageOutput(db)
    requires forall id :: id in db.tiers[db.pc.stage] ==>
               id in View(db.tiers) && View(db.tiers)[id] == db.tiers[db.pc.stage][id]
    ensures var g := Group(db.tiers[db.pc.stage], db.marks[db.pc.stage], StageBucket(db.pc.stage), h);
      IsRollup(StageOutput(db)[h], h.kind, Timeline(all, Covered(View(db.tiers).Keys, all, g)))
  {
    hide Inv, Below, BucketOf, Segment, Timeline, View, TierOf, Group;
    hide StageOutput, Aggregate, RawInv, SameGroup, Covered, Spans, SameSeries;
    ShapeOf(db);
    var s, view := db.tiers[db.pc.stage], View(db.tiers);
    var g := Group(s, db.marks[db.pc.stage], StageBucket(db.pc.stage), h);
    HeadOfGroup(db, h);
    assert forall j :: j in g ==> Backed(db.tiers, all, j);
    var rs := Trace(view, all, g, h.kind);
    TimelineAgree(s, view, g);
    NodeOf(rs, h.kind, StageOutput(db)[h]);
  }

  lemma ShapeOf(db: Db)
    requires Inv(db)
    ensures Shape(db)
  {
    hide TreesInv, PcInv;
  }

  lemma NodeOf(rs: seq<Rollup>, k: MetricType, p: Payload)
    requires rs != [] && forall i :: 0 <= i < |rs| ==> WellFormed(rs[i], k)
    requires p == Aggregate(EvalAll(rs, k))
    ensures IsRollup(p, k, LeavesOf(rs))
  {
    hide Aggregate, EvalAll;
    var r := Node(rs);
    assert WellFormed(r, k) && Eval(r, k) == p && Leaves(r) == LeavesOf(rs);
  }

  /** After the deletion the segment of an aggregate is what its group stood for. */
  lemma HeadAppears(db: Db, all: Tree, h: Id)
    requires Inv(db) && db.pc.Busy? && db.pc.staged.Removes? && db.pc.stage < 3 && h in StageOutput(db)
    ensures var tiers' := AdvanceStep(db).tiers;
      var g := Group(db.tiers[db.pc.stage], db.marks[db.pc.stage], StageBucket(db.pc.stage), h);
      && h in View(tiers') && View(tiers')[h] == StageOutput(db)[h] && TierOf(tiers', h) == db.pc.stage + 1
      && Segment(View(tiers').Keys, all, h) == Covered(View(db.tiers).Keys, all, g)
  {
    hide TreesInv, PcInv, Below, BucketOf, StageOutput, Segment;
    hide View, TierOf, AdvanceStep, Replaces, Aggregate, Covered;
    DeleteChangesView(db);
    HeadOfGroup(db, h);
    MergedSegment(View(db.tiers).Keys, View(AdvanceStep(db).tiers).Keys, all,
                  db.tiers[db.pc.stage], db.marks[db.pc.stage], StageBucket(db.pc.stage), h);
  }

  lemma SourceInView(db: Db, h: Id)
    requires Inv(db) && db.pc.Busy? && db.pc.staged.Removes? && db.pc.stage < 3 && h in StageOutput(db)
    ensures h in Group(db.tiers[db.pc.stage], db.marks[db.pc.stage], StageBucket(db.pc.stage), h)
    ensures h in View(db.tiers)
    ensures forall id :: id in db.tiers[db.pc.stage] ==>
              id in View(db.tiers) && View(db.tiers)[id] == db.tiers[db.pc.stage][id]
  {
    hide TreesInv, PcInv, Below, BucketOf, StageOutput, View, TierOf, AdvanceStep, Replaces, Aggregate;
    DeleteChangesView(db);
    SourceStandsApart(db);
    HeadOfGroup(db, h);
  }

  lemma HeadBacked(db: Db, all: Tree, h: Id)
    requires Inv(db) && Provenance(db, all) && db.pc.Busy? && db.pc.staged.Removes? && db.pc.stage < 3
    requires h in StageOutput(db)
    ensures h in View(AdvanceStep(db).tiers) && Backed(AdvanceStep(db).tiers, all, h)
  {
    hide Inv, Below, BucketOf, StageOutput, Segment, Timeline, View;
    hide TierOf, AdvanceStep, IsRollup, Spans, RawInv, Group;
    ShapeOf(db);
    HeadAppears(db, all, h);
    SourceInView(db, h);
    GroupIsRollup(db, all, h);
    SpanMerges(db, all, h);
    assert Backed(db.tiers, all, h);
    assert h in Segment(View(db.tiers).Keys, all, h);
  }

  lemma HeadOfGroup(db: Db, h: Id)
    requires Inv(db) && db.pc.Busy? && db.pc.stage < 3 && h in StageOutput(db)
    ensures var s, mark, b := db.tiers[db.pc.stage], db.marks[db.pc.stage], StageBucket(db.pc.stage);
      var g := Group(s, mark, b, h);
      && h in g && g <= s.Keys && OneSeries(g) && h in Heads(s, mark, b)
      && (forall j :: j in g ==> j.kind == h.kind && SameGroup(b, j, h))
      && StageOutput(db)[h] == Aggregate(Timeline(s, g))
  {
    hide TreesInv, PcInv, Below, BucketOf, Aggregate;
    var s, mark, b := db.tiers[db.pc.stage], db.marks[db.pc.stage], StageBucket(db.pc.stage);
    assert IsHead(s, mark, b, h);
    RolledUpAt(s, mark, b, h);
  }

  lemma SpanMerges(db: Db, all: Tree, h: Id)
    requires Inv(db) && Provenance(db, all) && db.pc.Busy? && db.pc.stage < 3 && h in StageOutput(db)
    ensures var s, mark, b := db.tiers[db.pc.stage], db.marks[db.pc.stage], StageBucket(db.pc.stage);
      var g := Group(s, mark, b, h);
      forall x :: x in Covered(View(db.tiers).Keys, all, g) ==> Spans(db.pc.stage + 1, h, x)
  {
    hide TreesInv, PcInv, Below, BucketOf, RolledUp, Segment, Timeline, IsRollup, Spans;
    var stage, s, mark, b := db.pc.stage, db.tiers[db.pc.stage], db.marks[db.pc.stage], StageBucket(db.pc.stage);
    var g := Group(s, mark, b, h);
    SourceStandsApart(db);
    forall x | x in Covered(View(db.tiers).Keys, all, g) ensures Spans(stage + 1, h, x) {
      var j :| j in g && x in Segment(View(db.tiers).Keys, all, j);
      assert Backed(db.tiers, all, j);
      assert TierOf(db.tiers, j) == stage;
      assert Spans(stage, j, x);
      SpanOfGroup(stage, h, j, x);
    }
  }

  /** One day lies in one month, one month in one year. */
  lemma SpanOfGroup(stage: nat, h: Id, j: Id, x: Id)
    requires stage < 3 && Spans(stage, j, x) && SameGroup(StageBucket(stage), j, h)
    ensures Spans(stage + 1, h, x)
  {
    hide DayBucket, MonthBucket, YearBucket;
    BucketsNest(x.ts);
    BucketsNest(j.ts);
  }

  lemma DeleteKeepsRaw(db: Db, all: Tree)
    requires Inv(db) && RawInv(db, all) && db.pc.Busy? && db.pc.staged.Removes?
    ensures RawInv(AdvanceStep(db), all)
  {
    hide TreesInv, PcInv, Below, Precedes, AdvanceStep;
    RawAfterDelete(db);
    if db.pc.stage == 0 {
      RemainingPrecedes(db.tiers[0], all, db.marks[0]);
    }
  }

  lemma RawAfterDelete(db: Db)
    requires Inv(db) && db.pc.Busy? && db.pc.staged.Removes?
    ensures AdvanceStep(db).marks == db.marks
    ensures AdvanceStep(db).tiers[0] == if db.pc.stage == 0 then Remaining(db.tiers[0], db.marks[0]) else db.tiers[0]
  {
    hide TreesInv, StageOutput, SettledAt, Written, ConsumedIds;
  }

  /** What a deletion takes from the raw tree comes before what it leaves. */
  lemma RemainingPrecedes(raw: Tree, all: Tree, mark: int)
    requires forall x :: x in all && x !in raw ==> Below(x, mark) && Precedes(x, raw)
    ensures forall x :: x in all && x !in Remaining(raw, mark) ==> Below(x, mark) && Precedes(x, Remaining(raw, mark))
  {
    hide Below;
    var raw' := Remaining(raw, mark);
    forall x | x in all && x !in raw' ensures Below(x, mark) && Precedes(x, raw') {
      if x in raw {
        forall j | j in raw' && SameSeries(j, x) ensures x.ts < j.ts {
          BelowIsDownward(x, j, mark);
        }
      } else {
        assert Precedes(x, raw);
      }
    }
  }

  lemma DeleteKeepsProvenance(db: Db, all: Tree)
    requires Inv(db) && Provenance(db, all) && db.pc.Busy? && db.pc.staged.Removes? && db.pc.stage < 3
    ensures Provenance(AdvanceStep(db), all)
  {
    hide TreesInv, PcInv, Below, BucketOf, RolledUp, Segment, Timeline;
    hide View, TierOf, AdvanceStep, Backed, RawInv, Replaces;
    var stage := db.pc.stage;
    var s, mark := db.tiers[stage], db.marks[stage];
    var tiers, tiers' := db.tiers, AdvanceStep(db).tiers;
    DeleteKeepsRaw(db, all);
    DeleteChangesView(db);
    forall id | id in View(tiers') ensures Backed(tiers', all, id) {
      if id in StageOutput(db) {
        HeadBacked(db, all, id);
      } else {
        UntouchedSegment(View(tiers).Keys, View(tiers').Keys, all, s, mark, StageBucket(stage), id);
        BackedTransfer(tiers, tiers', all, all, id);
      }
    }
  }

  /** The last deletion takes the earliest records of each series. */
  lemma ExpireChangesView(db: Db)
    requires Inv(db) && db.pc.Busy? && db.pc.staged.Removes? && db.pc.stage == 3
    ensures var tiers' := AdvanceStep(db).tiers;
      && View(tiers') == View(db.tiers) - db.pc.staged.ids
      && db.pc.staged.ids <= View(db.tiers).Keys
      && (forall id :: id in View(tiers') ==> TierOf(tiers', id) == TierOf(db.tiers, id))
      && (forall k, m :: k in View(tiers') && m in db.pc.staged.ids && SameSeries(m, k) ==> m.ts < k.ts)
  {
    hide TreesInv, PcInv, Below, View, TierOf, AllPrecede;
    var y, ids, tiers' := db.tiers[3], db.pc.staged.ids, AdvanceStep(db).tiers;
    YearlyIsOldest(db);
    TrimmedView(db.tiers, ids);
    forall k, m | k in View(tiers') && m in ids && SameSeries(m, k) ensures m.ts < k.ts {
      var i := TierOf(tiers', k);
      if i == 3 {
        BelowIsDownward(m, k, db.marks[3]);
      } else {
        OlderThan(y, db.tiers[i], m, k);
      }
    }
  }

  lemma OlderThan(t: Tree, s: Tree, m: Id, k: Id)
    requires AllPrecede(t, s) && m in t && k in s && SameSeries(m, k)
    ensures m.ts < k.ts
  {
    assert Precedes(m, s) && SameSeries(k, m);
  }

  lemma YearlyIsOldest(db: Db)
    requires Inv(db) && db.pc.Busy? && db.pc.staged.Removes? && db.pc.stage == 3
    ensures forall i :: 0 <= i < 3 ==> AllPrecede(db.tiers[3], db.tiers[i]) && db.tiers[3].Keys !! db.tiers[i].Keys
    ensures db.pc.staged.ids <= db.tiers[3].Keys
    ensures forall id :: id in db.pc.staged.ids ==> Below(id, db.marks[3])
    ensures forall id :: id in db.tiers[3] && id !in db.pc.staged.ids ==> !Below(id, db.marks[3])
  {
    hide Below, WellTyped, Adjacent, AllPrecede;
    forall i | 0 <= i < 3 ensures AllPrecede(db.tiers[3], db.tiers[i]) && db.tiers[3].Keys !! db.tiers[i].Keys {
      assert i == 2 ==> SettledAt(db.tiers, 2);
      PrecedeMeansDisjoint(db.tiers[i], db.tiers[3]);
    }
  }

  lemma TrimmedView(tiers: seq<Tree>, gone: set<Id>)
    requires |tiers| == 4 && gone <= tiers[3].Keys && forall i :: 0 <= i < 3 ==> tiers[3].Keys !! tiers[i].Keys
    ensures var tiers' := tiers[3 := tiers[3] - gone];
      && View(tiers') == View(tiers) - gone && gone <= View(tiers).Keys
      && forall id :: id in View(tiers') ==> TierOf(tiers', id) == TierOf(tiers, id)
  {
    var tiers' := tiers[3 := tiers[3] - gone];
    assert tiers[3].Keys !! tiers[0].Keys && tiers[3].Keys !! tiers[1].Keys && tiers[3].Keys !! tiers[2].Keys;
    assert View(tiers').Keys == View(tiers).Keys - gone;
  }

  lemma ExpireKeepsProvenance(db: Db, all: Tree)
    requires Inv(db) && Provenance(db, all) && db.pc.Busy? && db.pc.staged.Removes? && db.pc.stage == 3
    ensures Provenance(AdvanceStep(db), all)
  {
    hide TreesInv, PcInv, Below, Segment, Timeline, View, TierOf, AdvanceStep, Backed, RawInv;
    var tiers, tiers' := db.tiers, AdvanceStep(db).tiers;
    DeleteKeepsRaw(db, all);
    ExpireChangesView(db);
    forall id | id in View(tiers') ensures Backed(tiers', all, id) {
      SegmentKept(View(tiers).Keys, View(tiers').Keys, all, id);
      BackedTransfer(tiers, tiers', all, all, id);
    }
  }

  lemma StepKeepsProvenance(db: Db, all: Tree, e: Event)
    requires Inv(db) && Provenance(db, all) && Enabled(db, e)
    ensures Inv(Step(db, e)) && Provenance(Step(db, e), Noted(all, e))
  {
    hide TreesInv, StageOutput, ConsumedIds, OfKind, RawInv, Backed, SettledAt, Written;
    StepKeepsInv(db, e);
    match e
    case Insert(id, p) => InsertKeepsProvenance(db, all, id, p);
    case Begin(cuts) => BeginKeepsProvenance(db, all, cuts);
    case Crash => SameTreesProvenance(db, Step(db, e), all);
    case Advance =>
      match db.pc.staged
      case Nothing => SameTreesProvenance(db, Step(db, e), all);
      case Writes(_) => WriteKeepsProvenance(db, all);
      case Removes(_) =>
        if db.pc.stage < 3 {
          DeleteKeepsProvenance(db, all);
        } else {
          ExpireKeepsProvenance(db, all);
        }
  }

  lemma SameTreesProvenance(db: Db, db': Db, all: Tree)
    requires Shape(db) && Shape(db') && db'.tiers == db.tiers && db'.marks == db.marks && Provenance(db, all)
    ensures Provenance(db', all)
  {}

  lemma {:induction false} RunKeepsProvenance(db: Db, all: Tree, es: seq<Event>)
    requires Inv(db) && Provenance(db, all) && ValidRun(db, es)
    ensures Inv(Exec(db, es)) && Provenance(Exec(db, es), Ledger(all, es))
    decreases |es|
  {
    hide Inv, Provenance, Step, Enabled;
    if es != [] {
      StepKeepsProvenance(db, all, es[0]);
      RunKeepsProvenance(Step(db, es[0]), Noted(all, es[0]), es[1..]);
    }
  }

  // ----- Every stored record explained

  lemma EmptyProvenance()
    ensures Inv(EMPTY) && Provenance(EMPTY, map[])
  {
    EmptyInv();
  }

  /** In every reachable state, after any inserts, sweeps, crashes and reruns, every live record is a
      rollup of exactly the records ever inserted from its own timestamp up to the next live record. */
  lemma RecordsAreRollups(es: seq<Event>, id: Id)
    requires ValidRun(EMPTY, es)
    requires Shape(Exec(EMPTY, es)) && id in View(Exec(EMPTY, es).tiers)
    ensures Backed(Exec(EMPTY, es).tiers, Ledger(map[], es), id)
  {
    hide Backed, Exec, ValidRun, RawInv, Ledger;
    EmptyProvenance();
    RunKeepsProvenance(EMPTY, map[], es);
  }

  /** Fusion in the store: a live record has the sums, last values and first values of one direct
      aggregation of everything it stands for, however sweeps split it. */
  lemma StoredFusion(tiers: seq<Tree>, all: Tree, id: Id)
    requires |tiers| == 4 && id in View(tiers) && Backed(tiers, all, id)
    ensures var ps := Timeline(all, Segment(View(tiers).Keys, all, id));
      ps != [] && EssenceOf(View(tiers)[id]) == EssenceOf(Aggregate(ps))
  {
    hide View, Segment, Timeline, TierOf, Spans, Aggregate, EssenceOf;
    var ps := Timeline(all, Segment(View(tiers).Keys, all, id));
    var r: Rollup :| WellFormed(r, id.kind) && Eval(r, id.kind) == View(tiers)[id] && Leaves(r) == ps;
    RollupFusion(r, id.kind);
  }

  /** Averages in the store: a live record stays between the bounds of the raw values it stands for, and
      has a reading exactly when one of them had. */
  lemma StoredHull(h: Hull, tiers: seq<Tree>, all: Tree, id: Id)
    requires |tiers| == 4 && id in View(tiers) && Backed(tiers, all, id)
    requires forall x :: x in Segment(View(tiers).Keys, all, id) ==> Within(h, all[x])
    ensures Within(h, View(tiers)[id])
    ensures HasReading(h, View(tiers)[id]) <==>
              exists x :: x in Segment(View(tiers).Keys, all, id) && HasReading(h, all[x])
  {
    hide View, Segment, Chronological, TierOf, Spans, Aggregate, Within, HasReading;
    var raw := Segment(View(tiers).Keys, all, id);
    var ids, ps := Chronological(raw), Timeline(all, raw);
    var r: Rollup :| WellFormed(r, id.kind) && Eval(r, id.kind) == View(tiers)[id] && Leaves(r) == ps;
    assert forall i :: 0 <= i < |ids| ==> ids[i] in raw && ps[i] == all[ids[i]];
    RollupHull(h, r, id.kind);
    forall x | x in raw && HasReading(h, all[x]) ensures AnyReading(h, ps) {
      assert x in ids;
      var i :| 0 <= i < |ids| && ids[i] == x;
      assert HasReading(h, ps[i]);
    }
    if AnyReading(h, ps) {
      var i :| 0 <= i < |ps| && HasReading(h, ps[i]);
      assert ids[i] in raw && HasReading(h, all[ids[i]]);
    }
  }

  /** Between sweeps every stored record is live. */
  lemma SettledView(db: Db, i: nat, id: Id)
    requires Inv(db) && Settled(db.tiers) && i < 4 && id in db.tiers[i]
    ensures id in View(db.tiers) && TierOf(db.tiers, id) == i && View(db.tiers)[id] == db.tiers[i][id]
  {
    hide TreesInv, PcInv, Settled;
    SettledIsDisjoint(db);
    assert forall j :: 0 <= j < i ==> db.tiers[j].Keys !! db.tiers[i].Keys;
  }

  /** When a sweep finishes, whatever came before, every record of every tree has the sums, last values
      and first values of aggregating at once everything ever inserted that it stands for: records of one
      day in the daily tree, of one month in the monthly, of one year in the yearly. */
  lemma CompletedSweepFuses(es: seq<Event>, i: nat, id: Id)
    requires ValidRun(EMPTY, es) && Exec(EMPTY, es).pc.Busy?
    requires ValidRun(EMPTY, es + [Advance]) && Exec(EMPTY, es + [Advance]).pc.Idle?
    requires Shape(Exec(EMPTY, es + [Advance])) && i < 4 && id in Exec(EMPTY, es + [Advance]).tiers[i]
    ensures var tiers, all := Exec(EMPTY, es + [Advance]).tiers, Ledger(map[], es + [Advance]);
      var raw := Segment(View(tiers).Keys, all, id);
      && id in raw && (forall x :: x in raw ==> SameSeries(x, id) && Spans(i, id, x))
      && |Timeline(all, raw)| > 0 && EssenceOf(tiers[i][id]) == EssenceOf(Aggregate(Timeline(all, raw)))
  {
    hide Exec, ValidRun, Ledger, Inv, View, TierOf, Timeline;
    hide Aggregate, EssenceOf, Spans, Settled, NetOfRun, StoredTotal, IsRollup;
    var run := es + [Advance];
    CompletedSweepAccounts(Query(TxBytes, [], 0), es);
    SettledView(Exec(EMPTY, run), i, id);
    RecordsAreRollups(run, id);
    StoredFusion(Exec(EMPTY, run).tiers, Ledger(map[], run), id);
  }

  // ----- Sums of averaged readings

  /** A group has at most as many records as were ever inserted for its app, kind and year. */
  lemma GroupIsSmall(z: Series, db: Db, all: Tree, h: Id)
    requires Inv(db) && Provenance(db, all) && db.pc.Busy? && db.pc.stage < 3 && h in StageOutput(db) && Belongs(z, h)
    ensures var g := Group(db.tiers[db.pc.stage], db.marks[db.pc.stage], StageBucket(db.pc.stage), h);
      g <= InSeries(z, all.Keys) && |g| <= |InSeries(z, all.Keys)|
  {
    hide Inv, StageOutput, Belongs, Below, View, TierOf, Timeline, Spans, IsRollup, BucketOf, RawInv;
    ShapeOf(db);
    HeadOfGroup(db, h);
    SourceStandsApart(db);
    var g := Group(db.tiers[db.pc.stage], db.marks[db.pc.stage], StageBucket(db.pc.stage), h);
    forall j | j in g ensures j in all && Belongs(z, j) {
      assert Backed(db.tiers, all, j);
      GroupBelongs(z, StageBucket(db.pc.stage), j, h);
    }
    SubsetCount(g, InSeries(z, all.Keys));
  }

  lemma SubsetCount(a: set<Id>, b: set<Id>)
    requires a <= b
    ensures |a| <= |b|
  {
    assert b == a + (b - a);
  }

  /** The records a stage is about to combine into `h`, oldest first. */
  ghost function GroupPayloads(db: Db, h: Id): seq<Payload>
    requires Shape(db) && db.pc.Busy? && db.pc.stage < 3
  {
    var s := db.tiers[db.pc.stage];
    Timeline(s, Group(s, db.marks[db.pc.stage], StageBucket(db.pc.stage), h))
  }

  lemma GroupFacts(hull: Hull, z: Series, db: Db, all: Tree, h: Id)
    requires Inv(db) && Provenance(db, all) && db.pc.Busy? && db.pc.stage < 3 && h in StageOutput(db) && Belongs(z, h)
    requires StoreWithin(hull, z, db.tiers)
    ensures AllWithin(hull, GroupPayloads(db, h)) && |GroupPayloads(db, h)| <= |InSeries(z, all.Keys)|
  {
    hide Inv, Provenance, Within, Belongs, StageOutput, Timeline, Below, BucketOf;
    ShapeOf(db);
    var s := db.tiers[db.pc.stage];
    var g := Group(s, db.marks[db.pc.stage], StageBucket(db.pc.stage), h);
    HeadOfGroup(db, h);
    GroupIsSmall(z, db, all, h);
    TimelineWithin(hull, z, s, g);
  }

  lemma RunGroupFacts(hull: Hull, z: Series, es: seq<Event>, h: Id)
    requires ValidRun(EMPTY, es)
    requires Shape(Exec(EMPTY, es)) && Exec(EMPTY, es).pc.Busy? && Exec(EMPTY, es).pc.stage < 3
    requires h in StageOutput(Exec(EMPTY, es)) && Belongs(z, h)
    requires forall e :: e in es && e.Insert? && Belongs(z, e.id) ==> Within(hull, e.payload)
    ensures AllWithin(hull, GroupPayloads(Exec(EMPTY, es), h))
    ensures |GroupPayloads(Exec(EMPTY, es), h)| <= |InSeries(z, Ledger(map[], es).Keys)|
  {
    hide Inv, Provenance, Exec, ValidRun, Ledger, Within, Belongs, StageOutput, GroupPayloads, AllWithin;
    EmptyProvenance();
    RunKeepsProvenance(EMPTY, map[], es);
    assert StoreWithin(hull, z, EMPTY.tiers);
    RunKeepsWithin(hull, z, EMPTY, es);
    GroupFacts(hull, z, Exec(EMPTY, es), Ledger(map[], es), h);
  }

  /** No sum behind an average exceeds the largest reading times the number of records ever inserted for
      that app, kind and year. */
  lemma ReadingsFit(z: Series, es: seq<Event>, h: Id, f: NatField, hi: nat)
    requires ValidRun(EMPTY, es)
    requires Shape(Exec(EMPTY, es)) && Exec(EMPTY, es).pc.Busy? && Exec(EMPTY, es).pc.stage < 3
    requires h in StageOutput(Exec(EMPTY, es)) && Belongs(z, h)
    requires forall e :: e in es && e.Insert? && Belongs(z, e.id) ==> Within(NatHull(f, 0, hi), e.payload)
    ensures NatTotal(Nats(f, GroupPayloads(Exec(EMPTY, es), h))) <= hi * |InSeries(z, Ledger(map[], es).Keys)|
  {
    hide Exec, ValidRun, Ledger, Within, Belongs, StageOutput, GroupPayloads;
    RunGroupFacts(NatHull(f, 0, hi), z, es, h);
    NatSumFits(f, GroupPayloads(Exec(EMPTY, es), h), hi, |InSeries(z, Ledger(map[], es).Keys)|);
  }

  /** The same for the signed battery current, in either direction. */
  lemma CurrentsFit(z: Series, es: seq<Event>, h: Id, peak: int)
    requires ValidRun(EMPTY, es) && peak >= 0
    requires Shape(Exec(EMPTY, es)) && Exec(EMPTY, es).pc.Busy? && Exec(EMPTY, es).pc.stage < 3
    requires h in StageOutput(Exec(EMPTY, es)) && Belongs(z, h)
    requires forall e :: e in es && e.Insert? && Belongs(z, e.id) ==> Within(CurrentHull(-peak, peak), e.payload)
    ensures var total := IntTotal(Currents(GroupPayloads(Exec(EMPTY, es), h)));
      var count := |InSeries(z, Ledger(map[], es).Keys)|;
      -(peak * count) <= total <= peak * count
  {
    hide Exec, ValidRun, Ledger, Within, Belongs, StageOutput, GroupPayloads;
    RunGroupFacts(CurrentHull(-peak, peak), z, es, h);
    CurrentSumFits(GroupPayloads(Exec(EMPTY, es), h), peak, |InSeries(z, Ledger(map[], es).Keys)|);
  }

  lemma TimelineWithin(h: Hull, z: Series, s: Tree, ids: set<Id>)
    requires TreeWithin(h, z, s) && ids <= s.Keys && forall id :: id in ids ==> Belongs(z, id)
    ensures AllWithin(h, Timeline(s, ids))
  {
    hide Within, Belongs, Chronological;
    var c := Chronological(ids);
    assert forall i :: 0 <= i < |c| ==> c[i] in ids;
  }

  lemma NatSumFits(f: NatField, ps: seq<Payload>, hi: nat, count: nat)
    requires AllWithin(NatHull(f, 0, hi), ps) && |ps| <= count
    ensures NatTotal(Nats(f, ps)) <= hi * count
  {
    hide NatTotal, NatReading;
    var vs := Nats(f, ps);
    assert forall i :: 0 <= i < |ps| ==> Within(NatHull(f, 0, hi), ps[i]);
    NatsBounded(f, ps, 0, hi);
    NatTotalBounds(vs, 0, hi);
    NatsCount(f, ps);
    MulMonotone(|vs|, count, hi);
  }

  lemma CurrentSumFits(ps: seq<Payload>, peak: int, count: nat)
    requires peak >= 0 && AllWithin(CurrentHull(-peak, peak), ps) && |ps| <= count
    ensures -(peak * count) <= IntTotal(Currents(ps)) <= peak * count
  {
    hide IntTotal, CurrentReading, Currents;
    var vs := Currents(ps);
    assert forall i :: 0 <= i < |ps| ==> Within(CurrentHull(-peak, peak), ps[i]);
    CurrentsFacts(ps, -peak, peak);
    IntTotalBounds(vs, -peak, peak);
    CurrentsCount(ps);
    BothWays(peak, |vs|, count);
  }

  lemma BothWays(peak: int, n: nat, count: nat)
    requires peak >= 0 && n <= count
    ensures -(peak * count) <= -peak * n && peak * n <= peak * count
  {
    MulMonotone(n, count, peak);
    assert -peak * n == -(peak * n);
  }

  lemma {:induction false} NatsCount(f: NatField, ps: seq<Payload>)
    ensures |Nats(f, ps)| <= |ps|
  {
    if ps != [] {
      NatsCount(f, ps[..|ps| - 1]);
    }
  }

  lemma {:induction false} CurrentsCount(ps: seq<Payload>)
    ensures |Currents(ps)| <= |ps|
  {
    if ps != [] {
      CurrentsCount(ps[..|ps| - 1]);
    }
  }

  lemma MulMonotone(a: nat, b: nat, m: nat)
    requires a <= b
    ensures m * a <= m * b
  {}

  // ----- A whole year

  function Summary(ps: seq<Payload>): Option<Essence> {
    if ps == [] then None else Some(JoinAll(ps))
  }

  /** All that the store tells about a year of a series: its live records joined in time order. */
  ghost function Story(z: Series, tiers: seq<Tree>): Option<Essence>
    requires |tiers| == 4
  {
    Summary(Timeline(View(tiers), InSeries(z, View(tiers).Keys)))
  }

  /** The inserted records of that year no older than its oldest live record. */
  ghost function Kept(z: Series, live: set<Id>, all: Tree): (r: set<Id>)
    ensures r <= all.Keys
  {
    set x | x in all && Belongs(z, x) && exists k :: k in live && Belongs(z, k) && k.ts <= x.ts
  }

  lemma YearBetween(z: Series, k: Id, j: Id, x: Id)
    requires Belongs(z, k) && Belongs(z, x) && SameSeries(j, k) && k.ts <= j.ts <= x.ts
    ensures Belongs(z, j)
  {
    hide YearBucket;
    BucketsAreFloors(k.ts, j.ts);
    BucketsAreFloors(j.ts, x.ts);
  }

  lemma SpansYear(z: Series, tier: nat, id: Id, x: Id)
    requires tier < 4 && Spans(tier, id, x) && SameSeries(x, id) && Belongs(z, id)
    ensures Belongs(z, x)
  {
    hide DayBucket, MonthBucket, YearBucket;
    BucketsNest(x.ts);
    BucketsNest(id.ts);
  }

  lemma KeptIsCovered(z: Series, db: Db, all: Tree)
    requires Shape(db) && Provenance(db, all)
    ensures var live := View(db.tiers).Keys; Kept(z, live, all) == Covered(live, all, InSeries(z, live))
  {
    hide Belongs, View, TierOf, Timeline, Spans, RawInv, IsRollup;
    var live := View(db.tiers).Keys;
    forall x | x in Kept(z, live, all) ensures x in Covered(live, all, InSeries(z, live)) {
      var k :| k in live && Belongs(z, k) && k.ts <= x.ts;
      SeriesAgree(z, x, k);
      var j := Owner(live, all, k, x);
      YearBetween(z, k, j, x);
    }
    forall x | x in Covered(live, all, InSeries(z, live)) ensures x in Kept(z, live, all) {
      var j :| j in InSeries(z, live) && x in Segment(live, all, j);
      assert Backed(db.tiers, all, j);
      SpansYear(z, TierOf(db.tiers, j), j, x);
    }
  }

  lemma SeriesAgree(z: Series, x: Id, k: Id)
    requires Belongs(z, x) && Belongs(z, k)
    ensures SameSeries(x, k) && x.kind == z.kind
  {
    hide YearBucket;
  }

  /** Joining what is stored of a year gives what joining the raw records it stands for gives. */
  lemma StoryIsRaw(z: Series, db: Db, all: Tree)
    requires Shape(db) && Provenance(db, all)
    ensures Story(z, db.tiers) == Summary(Timeline(all, Kept(z, View(db.tiers).Keys, all)))
  {
    hide Belongs, View, TierOf, Timeline, Spans, RawInv, IsRollup, Segment, JoinAll, Covered, Kept;
    var view := View(db.tiers);
    var ids := InSeries(z, view.Keys);
    forall x, y | x in ids && y in ids ensures SameSeries(x, y) && x.kind == z.kind {
      SeriesAgree(z, x, y);
    }
    assert forall id :: id in ids ==> Backed(db.tiers, all, id);
    var rs := Trace(view, all, ids, z.kind);
    KeptIsCovered(z, db, all);
    if rs != [] {
      RollupEssences(rs, z.kind);
    }
  }

  /** The last deletion spares the series. */
  predicate Spares(z: Series, db: Db, e: Event) {
    e.Advance? && db.pc.Busy? && db.pc.stage == 3 && db.pc.staged.Removes? ==>
      forall id :: id in db.pc.staged.ids ==> !Belongs(z, id)
  }

  /** What a step does to the live records of a year that it spares: only aggregated ones go, and an
      earlier one of the same year stays. */
  lemma LiveStep(z: Series, db: Db, e: Event)
    requires Inv(db) && Enabled(db, e) && Spares(z, db, e)
    ensures Shape(Step(db, e))
    ensures var live, live' := View(db.tiers).Keys, View(Step(db, e).tiers).Keys;
      && (forall k :: k in live' && !(e.Insert? && k == e.id) ==> k in live)
      && (e.Insert? ==> e.id in live')
      && (forall k :: k in live && Belongs(z, k) ==> exists h :: h in live' && Belongs(z, h) && h.ts <= k.ts)
  {
    hide TreesInv, StageOutput, ConsumedIds, OfKind, SettledAt, Written, Belongs, Below, WellTyped;
    StepKeepsInv(db, e);
    if e.Advance? && db.pc.staged.Writes? {
      WriteKeepsView(db);
    } else if e.Advance? && db.pc.staged.Removes? && db.pc.stage < 3 {
      DeleteLive(z, db);
    } else if e.Advance? && db.pc.staged.Removes? {
      ExpireChangesView(db);
    }
  }

  lemma DeleteLive(z: Series, db: Db)
    requires Inv(db) && db.pc.Busy? && db.pc.staged.Removes? && db.pc.stage < 3
    ensures var live, live' := View(db.tiers).Keys, View(AdvanceStep(db).tiers).Keys;
      && live' <= live
      && (forall k :: k in live && Belongs(z, k) ==> exists h :: h in live' && Belongs(z, h) && h.ts <= k.ts)
  {
    hide TreesInv, PcInv, StageOutput, Heads, Belongs, Below, View, TierOf, BucketOf, AdvanceStep;
    DeleteChangesView(db);
    var s, mark, b := db.tiers[db.pc.stage], db.marks[db.pc.stage], StageBucket(db.pc.stage);
    var live, live' := View(db.tiers).Keys, View(AdvanceStep(db).tiers).Keys;
    HeadsConsumed(live, live', s, mark, b);
    forall k | k in live && Belongs(z, k) ensures exists h :: h in live' && Belongs(z, h) && h.ts <= k.ts {
      if k !in live' {
        var h := HeadOf(s, mark, b, k);
        GroupBelongs(z, b, k, h);
      }
    }
  }

  lemma KeptStep(z: Series, db: Db, all: Tree, e: Event)
    requires Inv(db) && Enabled(db, e) && Spares(z, db, e) && RawInv(db, all)
    ensures Shape(Step(db, e))
    ensures Kept(z, View(Step(db, e).tiers).Keys, Noted(all, e)) ==
              Kept(z, View(db.tiers).Keys, all) + (if e.Insert? && Belongs(z, e.id) then {e.id} else {})
  {
    hide Inv, View, Step, Belongs, Enabled, Spares, Kept, RawInv;
    ShapeOf(db);
    LiveStep(z, db, e);
    var live, live' := View(db.tiers).Keys, View(Step(db, e).tiers).Keys;
    var a, b := Kept(z, live, all), Kept(z, live', Noted(all, e));
    forall x | x in a ensures x in b {
      StaysKept(z, live, live', all, e, x);
    }
    forall x | x in b && !(e.Insert? && x == e.id) ensures x in a {
      WasKept(z, db, live', all, e, x);
    }
    if e.Insert? {
      InsertIsKept(z, live', all, e);
    }
  }

  lemma StaysKept(z: Series, live: set<Id>, live': set<Id>, all: Tree, e: Event, x: Id)
    requires x in Kept(z, live, all)
    requires forall k :: k in live && Belongs(z, k) ==> exists h :: h in live' && Belongs(z, h) && h.ts <= k.ts
    ensures x in Kept(z, live', Noted(all, e))
  {
    hide Belongs;
    var k :| k in live && Belongs(z, k) && k.ts <= x.ts;
    var h :| h in live' && Belongs(z, h) && h.ts <= k.ts;
  }

  lemma WasKept(z: Series, db: Db, live': set<Id>, all: Tree, e: Event, x: Id)
    requires Inv(db) && Enabled(db, e) && RawInv(db, all)
    requires x in Kept(z, live', Noted(all, e)) && !(e.Insert? && x == e.id)
    requires forall k :: k in live' && !(e.Insert? && k == e.id) ==> k in View(db.tiers)
    ensures x in Kept(z, View(db.tiers).Keys, all)
  {
    hide Inv, View, Belongs, Enabled, RawInv;
    ShapeOf(db);
    var k :| k in live' && Belongs(z, k) && k.ts <= x.ts;
    if e.Insert? && k == e.id {
      LaterIsLive(z, db, all, e.id, e.payload, x);
      assert x in View(db.tiers);
    }
  }

  lemma InsertIsKept(z: Series, live': set<Id>, all: Tree, e: Event)
    requires e.Insert? && e.id in live'
    ensures e.id in Kept(z, live', Noted(all, e)) <==> Belongs(z, e.id)
  {
    hide Belongs;
  }

  /** Whatever was inserted later than a new record is still a raw record. */
  lemma LaterIsLive(z: Series, db: Db, all: Tree, id: Id, p: Payload, x: Id)
    requires Inv(db) && RawInv(db, all) && Enabled(db, Insert(id, p))
    requires x in all && Belongs(z, id) && Belongs(z, x) && id.ts <= x.ts
    ensures x in db.tiers[0] && x in View(db.tiers)
  {
    hide TreesInv, PcInv, Below, YearBucket;
    if x !in db.tiers[0] {
      BelowIsDownward(x, id, db.marks[0]);
    }
  }

  /** No step but an insert or an expiry changes what the store tells about a year. */
  lemma StepKeepsStory(z: Series, db: Db, all: Tree, e: Event)
    requires Inv(db) && Provenance(db, all) && Enabled(db, e) && Spares(z, db, e)
    requires e.Insert? ==> !Belongs(z, e.id)
    ensures Shape(Step(db, e)) && Story(z, Step(db, e).tiers) == Story(z, db.tiers)
  {
    hide TreesInv, PcInv, Story, Backed, RawInv, Kept, Enabled, Step, Summary, Timeline, Spares, View;
    StepKeepsProvenance(db, all, e);
    StoryIsRaw(z, db, all);
    StoryIsRaw(z, Step(db, e), Noted(all, e));
    KeptStep(z, db, all, e);
    var kept := Kept(z, View(db.tiers).Keys, all);
    KeptBelongs(z, View(db.tiers).Keys, all);
    TimelineAgree(all, Noted(all, e), kept);
  }

  lemma KeptBelongs(z: Series, live: set<Id>, all: Tree)
    ensures forall x :: x in Kept(z, live, all) ==> Belongs(z, x)
  {}

  /** No sweep of the run expires a record of the year. */
  ghost predicate SparedRun(z: Series, db: Db, es: seq<Event>)
    requires ValidRun(db, es)
    decreases |es|
  {
    es != [] ==> Spares(z, db, es[0]) && SparedRun(z, Step(db, es[0]), es[1..])
  }

  /** Everything inserted for the year still counts. */
  ghost predicate Whole(z: Series, tiers: seq<Tree>, all: Tree)
    requires |tiers| == 4
  {
    Kept(z, View(tiers).Keys, all) == InSeries(z, all.Keys)
  }

  lemma StepKeepsWhole(z: Series, db: Db, all: Tree, e: Event)
    requires Inv(db) && RawInv(db, all) && Enabled(db, e) && Spares(z, db, e) && Whole(z, db.tiers, all)
    ensures Shape(Step(db, e)) && Whole(z, Step(db, e).tiers, Noted(all, e))
  {
    hide TreesInv, PcInv, RawInv, Kept, Enabled, Step, Spares, View, Belongs;
    KeptStep(z, db, all, e);
    assert InSeries(z, Noted(all, e).Keys) ==
      InSeries(z, all.Keys) + (if e.Insert? && Belongs(z, e.id) then {e.id} else {});
  }

  lemma {:induction false} RunKeepsWhole(z: Series, db: Db, all: Tree, es: seq<Event>)
    requires Inv(db) && Provenance(db, all) && ValidRun(db, es) && SparedRun(z, db, es) && Whole(z, db.tiers, all)
    ensures Shape(Exec(db, es)) && Whole(z, Exec(db, es).tiers, Ledger(all, es))
    decreases |es|
  {
    hide TreesInv, PcInv, RawInv, Backed, Step, Enabled, Whole, Spares;
    if es != [] {
      StepKeepsWhole(z, db, all, es[0]);
      StepKeepsProvenance(db, all, es[0]);
      RunKeepsWhole(z, Step(db, es[0]), Noted(all, es[0]), es[1..]);
    }
  }

  /** Over every run, whatever order records arrive in and whatever sweeps, crashes and reruns fall
      between: joining all that is stored of a year gives the sums, last values and first values of
      joining everything inserted for that year. */
  lemma HistorySurvives(z: Series, db: Db, all: Tree, es: seq<Event>)
    requires Inv(db) && Provenance(db, all) && Whole(z, db.tiers, all)
    requires ValidRun(db, es) && SparedRun(z, db, es)
    ensures Shape(Exec(db, es))
    ensures var ledger := Ledger(all, es);
      Story(z, Exec(db, es).tiers) == Summary(Timeline(ledger, InSeries(z, ledger.Keys)))
  {
    hide TreesInv, PcInv, RawInv, Backed, Exec, ValidRun, SparedRun, Story, Summary, Timeline, Ledger, Kept, View;
    RunKeepsWhole(z, db, all, es);
    RunKeepsProvenance(db, all, es);
    StoryIsRaw(z, Exec(db, es), Ledger(all, es));
  }

  /** The yearly cutoffs in force stay before the year. */
  lemma {:induction false} RecentYearSpared(z: Series, db: Db, es: seq<Event>)
    requires Inv(db) && ValidRun(db, es) && db.marks[3] < z.year
    requires forall e :: e in es && e.Begin? ==> |e.cuts| == 4 && e.cuts[3] < z.year
    ensures SparedRun(z, db, es)
    decreases |es|
  {
    hide TreesInv, Belongs, StageOutput, OfKind, Written, SettledAt;
    if es != [] {
      StepKeepsInv(db, es[0]);
      if db.pc.Busy? && db.pc.staged.Removes? && db.pc.stage == 3 {
        forall id | id in db.pc.staged.ids ensures !Belongs(z, id) {
          NotInYear(z, id, db.marks[3]);
        }
      }
      RecentYearSpared(z, Step(db, es[0]), es[1..]);
    }
  }

  lemma NotInYear(z: Series, id: Id, cutoff: int)
    requires Below(id, cutoff) && cutoff < z.year
    ensures !Belongs(z, id)
  {
    hide YearBucket;
    BucketsAreFloors(id.ts, id.ts);
  }

  /** From an empty store, for every year that starts after the yearly cutoffs used. */
  lemma HistoryFromStart(z: Series, es: seq<Event>)
    requires ValidRun(EMPTY, es)
    requires forall e :: e in es && e.Begin? ==> |e.cuts| == 4 && e.cuts[3] < z.year
    ensures Shape(Exec(EMPTY, es))
    ensures var ledger := Ledger(map[], es);
      Story(z, Exec(EMPTY, es).tiers) == Summary(Timeline(ledger, InSeries(z, ledger.Keys)))
  {
    hide Exec, ValidRun, SparedRun, Story, Summary, Timeline, Ledger, Inv, Provenance, Belongs;
    EmptyProvenance();
    assert Whole(z, EMPTY.tiers, map[]);
    RecentYearSpared(z, EMPTY, es);
    HistorySurvives(z, EMPTY, map[], es);
  }

  /** Each record inserted for such a year is counted in exactly one live record. */
  lemma CountedOnce(z: Series, es: seq<Event>, x: Id)
    requires ValidRun(EMPTY, es)
    requires forall e :: e in es && e.Begin? ==> |e.cuts| == 4 && e.cuts[3] < z.year
    requires x in Ledger(map[], es) && Belongs(z, x)
    ensures Shape(Exec(EMPTY, es))
    ensures var live, all := View(Exec(EMPTY, es).tiers).Keys, Ledger(map[], es);
      exists id :: id in live && x in Segment(live, all, id) &&
        forall j :: j in live && j != id ==> x !in Segment(live, all, j)
  {
    hide Exec, ValidRun, SparedRun, Ledger, Inv, Provenance, Belongs, Segment, View;
    EmptyProvenance();
    assert Whole(z, EMPTY.tiers, map[]);
    RecentYearSpared(z, EMPTY, es);
    RunKeepsWhole(z, EMPTY, map[], es);
    var live, all := View(Exec(EMPTY, es).tiers).Keys, Ledger(map[], es);
    assert x in Kept(z, live, all);
    var k :| k in live && Belongs(z, k) && k.ts <= x.ts;
    SeriesAgree(z, x, k);
    var id := Owner(live, all, k, x);
    forall j | j in live && j != id ensures x !in Segment(live, all, j) {
      SegmentsDisjoint(live, all, id, j);
    }
  }

  // ----- Totals against the ledger

  /** What the last deletions of a run take from a total. */
  ghost function ExpiredBy(q: Query, db: Db, e: Event): nat
    requires Enabled(db, e)
  {
    if e.Advance? && db.pc.stage == 3 && db.pc.staged.Removes?
    then Total(q, db.tiers[3], db.pc.staged.ids * db.tiers[3].Keys)
    else 0
  }

  ghost function Expired(q: Query, db: Db, es: seq<Event>): nat
    requires ValidRun(db, es)
    decreases |es|
  {
    if es == [] then 0 else ExpiredBy(q, db, es[0]) + Expired(q, Step(db, es[0]), es[1..])
  }

  ghost function LedgerTotal(q: Query, all: Tree): nat {
    Total(q, all, all.Keys)
  }

  lemma NotedTotal(q: Query, all: Tree, id: Id, p: Payload)
    ensures LedgerTotal(q, all[id := p]) ==
              LedgerTotal(q, all) + Weight(q, id, p) - (if id in all then Weight(q, id, all[id]) else 0)
  {
    hide Weight, Total;
    var all' := all[id := p];
    TotalPick(q, all', all'.Keys, id);
    assert all'.Keys - {id} == all.Keys - {id};
    TotalAgree(q, all, all', all.Keys - {id});
    if id in all {
      TotalPick(q, all, all.Keys, id);
    } else {
      assert all.Keys - {id} == all.Keys;
    }
  }

  lemma NetIsLedger(q: Query, db: Db, all: Tree, e: Event)
    requires Inv(db) && RawInv(db, all) && Enabled(db, e)
    ensures NetOf(q, db, e) == LedgerTotal(q, Noted(all, e)) - LedgerTotal(q, all) - ExpiredBy(q, db, e)
  {
    hide TreesInv, PcInv, Weight, Total, LedgerTotal, Below;
    if e.Insert? {
      NotedTotal(q, all, e.id, e.payload);
    }
  }

  /** Conservation against the ledger, over every run: what counts in the store, plus what has expired, is
      the total of all that was ever inserted. */
  lemma {:induction false} LedgerBalances(q: Query, db: Db, all: Tree, es: seq<Event>)
    requires Inv(db) && Provenance(db, all) && ValidRun(db, es)
    ensures |Exec(db, es).tiers| == 4
    ensures LogicalTotal(q, Exec(db, es).tiers) + Expired(q, db, es) + LedgerTotal(q, all)
         == LogicalTotal(q, db.tiers) + LedgerTotal(q, Ledger(all, es))
    decreases |es|
  {
    hide TreesInv, PcInv, Step, Enabled, RawInv, Backed, LedgerTotal, LogicalTotal, ExpiredBy, Noted, NetOf;
    if es != [] {
      NetIsLedger(q, db, all, es[0]);
      StepConserves(q, db, es[0]);
      StepKeepsProvenance(db, all, es[0]);
      LedgerBalances(q, Step(db, es[0]), Noted(all, es[0]), es[1..]);
    }
  }

  /** From an empty store, in any settled state: what the four trees add up to, plus what has expired. */
  lemma StoredPlusExpired(q: Query, es: seq<Event>)
    requires ValidRun(EMPTY, es) && Shape(Exec(EMPTY, es)) && Settled(Exec(EMPTY, es).tiers)
    ensures StoredTotal(q, Exec(EMPTY, es).tiers) + Expired(q, EMPTY, es) == LedgerTotal(q, Ledger(map[], es))
  {
    hide Exec, ValidRun, Ledger, Inv, Provenance, StoredTotal, LogicalTotal, Expired, Settled;
    EmptyProvenance();
    LedgerBalances(q, EMPTY, map[], es);
    NothingStored(q);
    SettledTotals(q, Exec(EMPTY, es).tiers);
  }

  /** Crashes leave no trace in the totals: two runs that inserted the same records, one interrupted and
      rerun at whatever later moments, the other not, agree on stored plus expired once settled. */
  lemma CrashesLeaveTotals(q: Query, es: seq<Event>, es': seq<Event>)
    requires ValidRun(EMPTY, es) && Shape(Exec(EMPTY, es)) && Settled(Exec(EMPTY, es).tiers)
    requires ValidRun(EMPTY, es') && Shape(Exec(EMPTY, es')) && Settled(Exec(EMPTY, es').tiers)
    requires Ledger(map[], es) == Ledger(map[], es')
    ensures StoredTotal(q, Exec(EMPTY, es).tiers) + Expired(q, EMPTY, es)
         == StoredTotal(q, Exec(EMPTY, es').tiers) + Expired(q, EMPTY, es')
  {
    hide Exec, ValidRun, Ledger, StoredTotal, Expired, Settled, LedgerTotal;
    StoredPlusExpired(q, es);
    StoredPlusExpired(q, es');
  }
}
