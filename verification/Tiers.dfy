/** One tier of the store as a value: which records it holds, how a stage groups the old ones,
    and what their additive fields add up to. */
module Tiers {
  import opened Metrics
  import opened Calendar
  import opened Aggregation
  import Keys
  import Lex

  /** What identifies a record in a tree. */
  datatype Id = Id(kind: MetricType, ts: u64, app: Bytes)
  type Tree = map<Id, Payload>

  predicate WellTyped(t: Tree) {
    forall id :: id in t ==> KindOf(t[id]) == id.kind
  }

  /** The records a scan up to `cutoff` reaches: everything before it and, at the cutoff second
      itself, the names that do not sort after `~`. */
  predicate Below(id: Id, cutoff: int) {
    id.ts < cutoff || (id.ts == cutoff && Lex.Le(id.app, Keys.TILDE))
  }

  predicate SameSeries(a: Id, b: Id) {
    a.kind == b.kind && a.app == b.app
  }

  predicate SameGroup(b: Bucket, x: Id, y: Id) {
    SameSeries(x, y) && BucketOf(b, x.ts) == BucketOf(b, y.ts)
  }

  lemma BelowIsDownward(a: Id, b: Id, cutoff: int)
    requires SameSeries(a, b) && Below(a, cutoff) && !Below(b, cutoff)
    ensures a.ts < b.ts
  {}

  lemma BelowMonotone(id: Id, c: int, c': int)
    requires Below(id, c) && c <= c'
    ensures Below(id, c')
  {}

  /** One app's records of one kind in one calendar year. */
  datatype Series = Series(kind: MetricType, app: Bytes, year: nat)

  predicate Belongs(z: Series, id: Id) {
    id.kind == z.kind && id.app == z.app && YearBucket(id.ts) == z.year
  }

  /** No group crosses the end of a year. */
  lemma GroupBelongs(z: Series, b: Bucket, j: Id, h: Id)
    requires SameGroup(b, j, h)
    ensures Belongs(z, j) <==> Belongs(z, h)
  {
    SameBucketSameYear(b, j.ts, h.ts);
  }

  // ----- Stages

  function ConsumedIds(s: Tree, cutoff: int): set<Id> {
    set id | id in s && Below(id, cutoff)
  }

  /** The tree after its old records are deleted. */
  function Remaining(s: Tree, cutoff: int): Tree {
    s - ConsumedIds(s, cutoff)
  }

  /** The consumed records that share a bucket and a series with `id`. */
  function Group(s: Tree, cutoff: int, b: Bucket, id: Id): set<Id> {
    set j | j in s && Below(j, cutoff) && SameGroup(b, j, id)
  }

  /** `id` is the earliest record of its group, the one whose timestamp the aggregate takes. */
  predicate IsHead(s: Tree, cutoff: int, b: Bucket, id: Id) {
    id in s && Below(id, cutoff) && forall j :: j in s && SameGroup(b, j, id) ==> id.ts <= j.ts
  }

  ghost predicate IsEarliest(id: Id, ids: set<Id>) {
    id in ids && forall j :: j in ids ==> id.ts <= j.ts
  }

  lemma {:induction false} EarliestExists(ids: set<Id>)
    requires ids != {}
    ensures exists id :: IsEarliest(id, ids)
    decreases ids
  {
    var x :| x in ids;
    if ids == {x} {
      assert IsEarliest(x, ids);
    } else {
      EarliestExists(ids - {x});
      var y :| IsEarliest(y, ids - {x});
      assert IsEarliest(if x.ts <= y.ts then x else y, ids);
    }
  }

  ghost function Earliest(ids: set<Id>): (id: Id)
    requires ids != {}
    ensures IsEarliest(id, ids)
  {
    EarliestExists(ids);
    var id :| IsEarliest(id, ids);
    id
  }

  /** The members of a set of one series in time order. */
  ghost function Chronological(ids: set<Id>): (s: seq<Id>)
    ensures |s| == |ids|
    ensures forall id :: id in s <==> id in ids
    decreases ids
  {
    if ids == {} then [] else
      var e := Earliest(ids);
      [e] + Chronological(ids - {e})
  }

  predicate StrictlyOrdered(s: seq<Id>) {
    forall i, j :: 0 <= i < j < |s| ==> s[i].ts < s[j].ts
  }

  lemma ChronologicalStep(ids: set<Id>)
    requires ids != {}
    ensures Chronological(ids) == [Earliest(ids)] + Chronological(ids - {Earliest(ids)})
  {}

  lemma ListsTheRest(s: seq<Id>, ids: set<Id>)
    requires s != [] && StrictlyOrdered(s)
    requires forall id :: id in s <==> id in ids
    ensures IsEarliest(s[0], ids)
    ensures forall id :: id in s[1..] <==> id in ids - {s[0]}
  {
    forall id ensures id in s[1..] <==> id in ids - {s[0]} {
      if id in ids - {s[0]} {
        var j :| 0 <= j < |s| && s[j] == id;
        assert s[1..][j - 1] == id;
      }
    }
  }

  lemma EarliestIsFirst(s: seq<Id>, ids: set<Id>, e: Id)
    requires s != [] && StrictlyOrdered(s) && IsEarliest(e, ids)
    requires forall id :: id in s <==> id in ids
    ensures s[0] == e
  {
    var i :| 0 <= i < |s| && s[i] == e;
    assert s[0] in ids;
  }

  /** Any listing of a set by strictly increasing time is the chronological one. */
  lemma {:induction false} ChronologicalUnique(s: seq<Id>, ids: set<Id>)
    requires StrictlyOrdered(s)
    requires forall id :: id in s <==> id in ids
    ensures s == Chronological(ids)
    decreases |s|
  {
    hide Chronological, IsEarliest;
    if s == [] {
      assert ids == {};
    } else {
      ListsTheRest(s, ids);
      assert s[0] in ids;
      var e := Earliest(ids);
      EarliestIsFirst(s, ids, e);
      ChronologicalStep(ids);
      ChronologicalUnique(s[1..], ids - {e});
      assert s == [e] + s[1..];
    }
  }

  function PayloadsAt(s: Tree, ids: seq<Id>): (ps: seq<Payload>)
    requires forall id :: id in ids ==> id in s
    ensures |ps| == |ids|
  {
    seq(|ids|, i requires 0 <= i < |ids| => s[ids[i]])
  }

  /** The payload that replaces the group of `id`. */
  ghost function Combined(s: Tree, cutoff: int, b: Bucket, id: Id): Payload
    requires IsHead(s, cutoff, b, id)
  {
    var g := Group(s, cutoff, b, id);
    assert id in g;
    Aggregate(PayloadsAt(s, Chronological(g)))
  }

  ghost function Heads(s: Tree, cutoff: int, b: Bucket): set<Id> {
    set id | id in s && IsHead(s, cutoff, b, id)
  }

  /** Everything a stage writes: one aggregate per group, under the key of its earliest record. */
  ghost function RolledUp(s: Tree, cutoff: int, b: Bucket): (m: Tree)
    ensures m.Keys == Heads(s, cutoff, b)
  {
    map id | id in Heads(s, cutoff, b) :: Combined(s, cutoff, b, id)
  }

  ghost function OfKind(t: Tree, k: MetricType): Tree {
    map id | id in t && id.kind == k :: t[id]
  }

  lemma CombinedFacts(s: Tree, cutoff: int, b: Bucket, id: Id)
    requires WellTyped(s) && IsHead(s, cutoff, b, id)
    ensures var ps := PayloadsAt(s, Chronological(Group(s, cutoff, b, id)));
      && ps != [] && SameKind(ps, id.kind) && KindOf(ps[0]) == id.kind
      && Combined(s, cutoff, b, id) == Aggregate(ps)
  {
    hide Aggregate, Below, BucketOf;
    var g := Group(s, cutoff, b, id);
    assert id in g;
    var ids := Chronological(g);
    var ps := PayloadsAt(s, ids);
    forall i | 0 <= i < |ps| ensures KindOf(ps[i]) == id.kind {
      assert ids[i] in g;
    }
  }

  lemma RolledUpWellTyped(s: Tree, cutoff: int, b: Bucket)
    requires WellTyped(s)
    ensures WellTyped(RolledUp(s, cutoff, b))
  {
    hide Aggregate, Combined;
    var m := RolledUp(s, cutoff, b);
    forall id | id in m ensures KindOf(m[id]) == id.kind {
      CombinedFacts(s, cutoff, b, id);
      AggregateSums(TxBytes, PayloadsAt(s, Chronological(Group(s, cutoff, b, id))));
    }
  }

  lemma HeadsIgnoreLater(s: Tree, cutoff: int, b: Bucket, x: Id, p: Payload, id: Id)
    requires !Below(x, cutoff)
    ensures IsHead(s[x := p], cutoff, b, id) <==> IsHead(s, cutoff, b, id)
  {
    hide BucketOf, Below;
    if IsHead(s, cutoff, b, id) && SameGroup(b, x, id) {
      BelowIsDownward(id, x, cutoff);
    }
  }

  lemma CombinedIgnoresLater(s: Tree, cutoff: int, b: Bucket, x: Id, p: Payload, id: Id)
    requires !Below(x, cutoff) && IsHead(s, cutoff, b, id) && IsHead(s[x := p], cutoff, b, id)
    ensures Combined(s[x := p], cutoff, b, id) == Combined(s, cutoff, b, id)
  {
    hide Aggregate, BucketOf, Below, IsHead;
    var s', g := s[x := p], Group(s, cutoff, b, id);
    assert Group(s', cutoff, b, id) == g;
    var ids := Chronological(g);
    assert forall i :: 0 <= i < |ids| ==> ids[i] in g;
    assert PayloadsAt(s', ids) == PayloadsAt(s, ids);
  }

  lemma RolledUpAt(s: Tree, cutoff: int, b: Bucket, id: Id)
    requires IsHead(s, cutoff, b, id)
    ensures id in RolledUp(s, cutoff, b) && RolledUp(s, cutoff, b)[id] == Combined(s, cutoff, b, id)
  {
    hide Combined, BucketOf, Below;
  }

  /** Records a scan does not reach have no influence on what the stage writes. */
  lemma RolledUpIgnoresLater(s: Tree, cutoff: int, b: Bucket, x: Id, p: Payload)
    requires !Below(x, cutoff)
    ensures RolledUp(s[x := p], cutoff, b) == RolledUp(s, cutoff, b)
  {
    hide Combined, IsHead, Below, RolledUp;
    var m, m' := RolledUp(s, cutoff, b), RolledUp(s[x := p], cutoff, b);
    forall id ensures id in m <==> id in m' {
      HeadsIgnoreLater(s, cutoff, b, x, p, id);
      if IsHead(s, cutoff, b, id) {
        RolledUpAt(s, cutoff, b, id);
        RolledUpAt(s[x := p], cutoff, b, id);
      }
    }
    forall id | id in m ensures m[id] == m'[id] {
      HeadsIgnoreLater(s, cutoff, b, x, p, id);
      CombinedIgnoresLater(s, cutoff, b, x, p, id);
      RolledUpAt(s, cutoff, b, id);
      RolledUpAt(s[x := p], cutoff, b, id);
    }
  }

  // ----- Totals

  /** One additive field of one app in one calendar year. */
  datatype Query = Query(field: SumField, app: Bytes, year: nat)

  function Weight(q: Query, id: Id, p: Payload): nat {
    if id.app == q.app && YearBucket(id.ts) == q.year then Amount(q.field, p) else 0
  }

  ghost function Total(q: Query, t: Tree, ids: set<Id>): nat
    requires ids <= t.Keys
    decreases ids
  {
    if ids == {} then 0 else
      var id :| id in ids;
      Weight(q, id, t[id]) + Total(q, t, ids - {id})
  }

  lemma {:induction false} TotalPick(q: Query, t: Tree, ids: set<Id>, x: Id)
    requires ids <= t.Keys && x in ids
    ensures Total(q, t, ids) == Weight(q, x, t[x]) + Total(q, t, ids - {x})
    decreases ids
  {
    hide Weight;
    var id :| id in ids && Total(q, t, ids) == Weight(q, id, t[id]) + Total(q, t, ids - {id});
    if id != x {
      TotalPick(q, t, ids - {id}, x);
      TotalPick(q, t, ids - {x}, id);
      assert ids - {id} - {x} == ids - {x} - {id};
    }
  }

  lemma {:induction false} TotalUnion(q: Query, t: Tree, a: set<Id>, b: set<Id>)
    requires a <= t.Keys && b <= t.Keys && a !! b
    ensures Total(q, t, a + b) == Total(q, t, a) + Total(q, t, b)
    decreases a
  {
    hide Weight;
    if a == {} {
      assert a + b == b;
    } else {
      var x :| x in a;
      TotalPick(q, t, a, x);
      TotalPick(q, t, a + b, x);
      assert a + b - {x} == (a - {x}) + b;
      TotalUnion(q, t, a - {x}, b);
    }
  }

  /** A total depends only on the records it counts. */
  lemma {:induction false} TotalAgree(q: Query, t: Tree, u: Tree, ids: set<Id>)
    requires ids <= t.Keys && ids <= u.Keys
    requires forall id :: id in ids ==> t[id] == u[id]
    ensures Total(q, t, ids) == Total(q, u, ids)
    decreases ids
  {
    hide Weight;
    if ids != {} {
      var x :| x in ids;
      TotalPick(q, t, ids, x);
      TotalPick(q, u, ids, x);
      TotalAgree(q, t, u, ids - {x});
    }
  }

  lemma TotalSubset(q: Query, t: Tree, a: set<Id>, b: set<Id>)
    requires a <= b <= t.Keys
    ensures Total(q, t, a) <= Total(q, t, b)
  {
    TotalUnion(q, t, a, b - a);
    assert a + (b - a) == b;
  }

  /** Within one group all records count alike, so their total is the sum over their payloads. */
  lemma {:induction false} TotalOfGroup(q: Query, s: Tree, ids: set<Id>)
    requires ids <= s.Keys
    requires forall id :: id in ids ==> id.app == q.app && YearBucket(id.ts) == q.year
    ensures Total(q, s, ids) == SumOf(q.field, PayloadsAt(s, Chronological(ids)))
    decreases ids
  {
    hide Amount, YearBucket, Chronological, Total;
    if ids == {} {
      TotalZero(q, s, ids);
      assert PayloadsAt(s, Chronological(ids)) == [];
    } else {
      var e := Earliest(ids);
      ChronologicalStep(ids);
      TotalPick(q, s, ids, e);
      TotalOfGroup(q, s, ids - {e});
      var rest := PayloadsAt(s, Chronological(ids - {e}));
      assert PayloadsAt(s, Chronological(ids)) == [s[e]] + rest;
      SumOfCons(q.field, s[e], rest);
    }
  }

  lemma {:induction false} SumOfCons(f: SumField, p: Payload, ps: seq<Payload>)
    ensures SumOf(f, [p] + ps) == Amount(f, p) + SumOf(f, ps)
  {
    hide Amount;
    var w := [p] + ps;
    if ps == [] {
      assert w[..|w| - 1] == [];
    } else {
      assert w[..|w| - 1] == [p] + ps[..|ps| - 1];
      SumOfCons(f, p, ps[..|ps| - 1]);
    }
  }

  lemma {:induction false} TotalZero(q: Query, s: Tree, ids: set<Id>)
    requires ids <= s.Keys
    requires forall id :: id in ids ==> Weight(q, id, s[id]) == 0
    ensures Total(q, s, ids) == 0
    decreases ids
  {
    hide Weight;
    if ids != {} {
      var x :| x in ids;
      TotalPick(q, s, ids, x);
      TotalZero(q, s, ids - {x});
    }
  }

  /** The aggregate of a group weighs what the group weighs: same app, same calendar year, same sum. */
  lemma HeadWeight(q: Query, s: Tree, cutoff: int, b: Bucket, id: Id)
    requires WellTyped(s) && IsHead(s, cutoff, b, id)
    ensures Group(s, cutoff, b, id) <= s.Keys
    ensures Weight(q, id, Combined(s, cutoff, b, id)) == Total(q, s, Group(s, cutoff, b, id))
  {
    hide Aggregate, Amount, YearBucket, BucketOf, Below, Combined;
    var g := Group(s, cutoff, b, id);
    var ps := PayloadsAt(s, Chronological(g));
    CombinedFacts(s, cutoff, b, id);
    AggregateSums(q.field, ps);
    forall j | j in g ensures j.app == id.app && YearBucket(j.ts) == YearBucket(id.ts) {
      SameBucketSameYear(b, j.ts, id.ts);
    }
    if id.app == q.app && YearBucket(id.ts) == q.year {
      TotalOfGroup(q, s, g);
    } else {
      TotalZero(q, s, g);
    }
  }

  ghost function Members(s: Tree, cutoff: int, b: Bucket, heads: set<Id>): set<Id> {
    set j | j in s && Below(j, cutoff) && exists h :: h in heads && SameGroup(b, j, h)
  }

  lemma OneHeadPerGroup(s: Tree, cutoff: int, b: Bucket, heads: set<Id>, h: Id, j: Id)
    requires heads <= Heads(s, cutoff, b) && h in heads && SameGroup(b, j, h)
    ensures forall h' :: h' in heads && SameGroup(b, j, h') ==> h' == h
  {
    hide BucketOf, Below;
    forall h' | h' in heads && SameGroup(b, j, h') ensures h' == h {
      assert SameGroup(b, h, h') && SameGroup(b, h', h);
    }
  }

  lemma MembersSplit(s: Tree, cutoff: int, b: Bucket, heads: set<Id>, h: Id)
    requires heads <= Heads(s, cutoff, b) && h in heads
    ensures Members(s, cutoff, b, heads) == Group(s, cutoff, b, h) + Members(s, cutoff, b, heads - {h})
    ensures Group(s, cutoff, b, h) !! Members(s, cutoff, b, heads - {h})
  {
    hide BucketOf, Below, Heads;
    var g, rest := Group(s, cutoff, b, h), Members(s, cutoff, b, heads - {h});
    forall j | j in g ensures j !in rest {
      OneHeadPerGroup(s, cutoff, b, heads, h, j);
    }
  }

  lemma {:induction false} HeadsWeight(q: Query, s: Tree, cutoff: int, b: Bucket, heads: set<Id>)
    requires WellTyped(s) && heads <= Heads(s, cutoff, b)
    ensures Members(s, cutoff, b, heads) <= s.Keys
    ensures Total(q, RolledUp(s, cutoff, b), heads) == Total(q, s, Members(s, cutoff, b, heads))
    decreases heads
  {
    hide Weight, BucketOf, Below, Combined, RolledUp, IsHead, Group, WellTyped;
    var m := RolledUp(s, cutoff, b);
    if heads == {} {
      assert Members(s, cutoff, b, heads) == {};
    } else {
      var h :| h in heads;
      TotalPick(q, m, heads, h);
      RolledUpAt(s, cutoff, b, h);
      HeadWeight(q, s, cutoff, b, h);
      HeadsWeight(q, s, cutoff, b, heads - {h});
      MembersSplit(s, cutoff, b, heads, h);
      TotalUnion(q, s, Group(s, cutoff, b, h), Members(s, cutoff, b, heads - {h}));
    }
  }

  lemma EveryConsumedHasHead(s: Tree, cutoff: int, b: Bucket, j: Id)
    requires j in s && Below(j, cutoff)
    ensures exists h :: h in Heads(s, cutoff, b) && SameGroup(b, j, h)
  {
    hide BucketOf, Below;
    var g := Group(s, cutoff, b, j);
    assert j in g;
    var h := Earliest(g);
    forall x | x in s && SameGroup(b, x, h) ensures h.ts <= x.ts {
      if Below(x, cutoff) {
        assert x in g;
      } else {
        BelowIsDownward(h, x, cutoff);
      }
    }
    assert IsHead(s, cutoff, b, h);
    assert h in Heads(s, cutoff, b) && SameGroup(b, j, h);
  }

  /** A stage writes exactly the weight it will consume. */
  lemma RollUpConserves(q: Query, s: Tree, cutoff: int, b: Bucket)
    requires WellTyped(s)
    ensures Total(q, RolledUp(s, cutoff, b), Heads(s, cutoff, b)) == Total(q, s, ConsumedIds(s, cutoff))
  {
    hide Weight, BucketOf, Below, Combined, RolledUp, IsHead;
    var heads := Heads(s, cutoff, b);
    HeadsWeight(q, s, cutoff, b, heads);
    forall j | j in ConsumedIds(s, cutoff) ensures j in Members(s, cutoff, b, heads) {
      EveryConsumedHasHead(s, cutoff, b, j);
    }
    assert Members(s, cutoff, b, heads) == ConsumedIds(s, cutoff);
  }
}
