/** The storage layer over byte-keyed trees, proved to carry out the sweep of `Stages`. */
module Storage {
  import opened Metrics
  import opened Calendar
  import opened Aggregation
  import opened Tiers
  import opened Stages
  import Keys
  import Lex

  type KeyTree = map<Bytes, Record>

  function IdOf(r: Record): Id {
    Id(KindOf(r.payload), r.timestamp, r.appName)
  }

  function KeyOfId(id: Id): Bytes {
    Keys.EncodeKey(id.kind, id.ts, id.app)
  }

  function KeyOf(r: Record): Bytes {
    KeyOfId(IdOf(r))
  }

  /** Every entry sits under the key of its own record. */
  predicate Keyed(t: KeyTree) {
    forall k :: k in t ==> k == KeyOf(t[k])
  }

  /** The tree as records under their identities. */
  ghost function Abs(t: KeyTree): Tree
    requires Keyed(t)
  {
    map k | k in t :: IdOf(t[k]) := t[k].payload
  }

  lemma KeyOfIdInjective(a: Id, b: Id)
    requires KeyOfId(a) == KeyOfId(b)
    ensures a == b
  {
    Keys.EncodeInjective(a.kind, a.ts, a.app, b.kind, b.ts, b.app);
  }

  lemma AbsLookup(t: KeyTree, id: Id)
    requires Keyed(t)
    ensures id in Abs(t) <==> KeyOfId(id) in t
    ensures id in Abs(t) ==> t[KeyOfId(id)] == Record(id.app, id.ts, Abs(t)[id])
  {
    hide Keys.EncodeKey;
    if KeyOfId(id) in t {
      var r := t[KeyOfId(id)];
      KeyOfIdInjective(IdOf(r), id);
      assert IdOf(r) in Abs(t);
    }
  }

  lemma AbsWellTyped(t: KeyTree)
    requires Keyed(t)
    ensures WellTyped(Abs(t))
  {
    hide Keys.EncodeKey;
  }

  lemma AbsMerge(t: KeyTree, u: KeyTree)
    requires Keyed(t) && Keyed(u)
    ensures Keyed(t + u) && Abs(t + u) == Abs(t) + Abs(u)
  {
    hide Keys.EncodeKey, Abs, KindOf;
    var a, b := Abs(t + u), Abs(t) + Abs(u);
    forall id ensures id in a <==> id in b {
      AbsLookup(t + u, id);
      AbsLookup(t, id);
      AbsLookup(u, id);
    }
    forall id | id in a ensures a[id] == b[id] {
      AbsLookup(t + u, id);
      AbsLookup(t, id);
      AbsLookup(u, id);
    }
  }

  lemma AbsInsert(t: KeyTree, r: Record)
    requires Keyed(t)
    ensures Keyed(t[KeyOf(r) := r]) && Abs(t[KeyOf(r) := r]) == Abs(t)[IdOf(r) := r.payload]
  {
    hide Keys.EncodeKey, Abs, KindOf;
    var u := t[KeyOf(r) := r];
    var a, b := Abs(u), Abs(t)[IdOf(r) := r.payload];
    forall id ensures id in a <==> id in b {
      AbsLookup(u, id);
      AbsLookup(t, id);
      if KeyOfId(id) == KeyOf(r) {
        KeyOfIdInjective(id, IdOf(r));
      }
    }
    forall id | id in a ensures a[id] == b[id] {
      AbsLookup(u, id);
      AbsLookup(t, id);
      if KeyOfId(id) == KeyOf(r) {
        KeyOfIdInjective(id, IdOf(r));
      }
    }
  }

  // ----- Ordered scans

  predicate Ascending(keys: seq<Bytes>) {
    forall i, j :: 0 <= i < j < |keys| ==> Lex.Lt(keys[i], keys[j])
  }

  method MinKey(s: set<Bytes>) returns (m: Bytes)
    requires s != {}
    ensures m in s && forall k :: k in s ==> Lex.Le(m, k)
  {
    m :| m in s;
    Lex.Reflexive(m);
    var rest := s - {m};
    while rest != {}
      invariant rest <= s && m in s
      invariant forall k :: k in s && k !in rest ==> Lex.Le(m, k)
      decreases rest
    {
      var k :| k in rest;
      if !Lex.Le(m, k) {
        Lex.Total(m, k);
        forall j | j in s && j !in rest ensures Lex.Le(k, j) {
          Lex.Transitive(k, m, j);
        }
        Lex.Reflexive(k);
        m := k;
      }
      rest := rest - {k};
    }
  }

  /** An inclusive range scan: the keys between the bounds, in byte order. */
  method Range(t: KeyTree, lo: Bytes, hi: Bytes) returns (keys: seq<Bytes>)
    ensures Ascending(keys)
    ensures forall k :: k in keys <==> k in t && Lex.Le(lo, k) && Lex.Le(k, hi)
  {
    hide Lex.Le;
    var rest := set k | k in t && Lex.Le(lo, k) && Lex.Le(k, hi);
    ghost var all := rest;
    keys := [];
    while rest != {}
      invariant Ascending(keys) && rest <= all
      invariant forall k :: k in keys <==> k in all && k !in rest
      invariant forall i, k :: 0 <= i < |keys| && k in rest ==> Lex.Lt(keys[i], k)
      decreases rest
    {
      var m := MinKey(rest);
      keys := keys + [m];
      rest := rest - {m};
    }
  }

  function RecordsAt(t: KeyTree, keys: seq<Bytes>): (rs: seq<Record>)
    requires forall k :: k in keys ==> k in t
    ensures |rs| == |keys|
  {
    seq(|keys|, i requires 0 <= i < |keys| => t[keys[i]])
  }

  // ----- One kind of one stage

  /** `rs` are the records of one kind that a scan up to `cutoff` finds, in key order. */
  ghost predicate Scanned(t: KeyTree, kind: MetricType, cutoff: u64, rs: seq<Record>) {
    && (forall i :: 0 <= i < |rs| ==>
          KeyOf(rs[i]) in t && t[KeyOf(rs[i])] == rs[i] && KindOf(rs[i].payload) == kind && Below(IdOf(rs[i]), cutoff))
    && EachAppByTime(rs)
    && (forall k :: k in t && KindOf(t[k].payload) == kind && Below(IdOf(t[k]), cutoff) ==> t[k] in rs)
  }

  lemma ScanReaches(r: Record, kind: MetricType, cutoff: u64)
    ensures Keys.InScan(KeyOf(r), kind, 0, cutoff) <==> KindOf(r.payload) == kind && Below(IdOf(r), cutoff)
  {
    hide Keys.InScan, Keys.EncodeKey, KindOf, Lex.Le;
    Keys.RangeScanExact(kind, 0, cutoff, KindOf(r.payload), r.timestamp, r.appName);
  }

  lemma ScanOrder(r: Record, r': Record)
    requires Lex.Lt(KeyOf(r), KeyOf(r')) && KindOf(r.payload) == KindOf(r'.payload)
    ensures r.timestamp <= r'.timestamp
    ensures r.appName == r'.appName ==> r.timestamp < r'.timestamp
  {
    hide Keys.EncodeKey, Lex.Le;
    Keys.KeyOrder(KindOf(r.payload), r.timestamp, r.appName, r'.timestamp, r'.appName);
  }

  lemma RangeIsScan(t: KeyTree, kind: MetricType, cutoff: u64, keys: seq<Bytes>)
    requires Keyed(t) && Ascending(keys)
    requires forall k :: k in keys <==>
               k in t && Lex.Le(Keys.RangeStart(kind, 0), k) && Lex.Le(k, Keys.RangeEnd(kind, cutoff))
    ensures Scanned(t, kind, cutoff, RecordsAt(t, keys))
  {
    hide Keys.EncodeKey, Keys.RangeStart, Keys.RangeEnd, KindOf, Lex.Le, Below, EachAppByTime, Ascending;
    var rs := RecordsAt(t, keys);
    forall i | 0 <= i < |rs|
      ensures KeyOf(rs[i]) == keys[i] && keys[i] in t
      ensures KindOf(rs[i].payload) == kind && Below(IdOf(rs[i]), cutoff)
    {
      assert keys[i] in keys;
      ScanReaches(rs[i], kind, cutoff);
    }
    AscendingByTime(rs, keys, kind);
    forall k | k in t && KindOf(t[k].payload) == kind && Below(IdOf(t[k]), cutoff) ensures t[k] in rs {
      ScanReaches(t[k], kind, cutoff);
      assert k in keys;
      var i :| 0 <= i < |keys| && keys[i] == k;
      assert rs[i] == t[k];
    }
  }

  lemma AscendingByTime(rs: seq<Record>, keys: seq<Bytes>, kind: MetricType)
    requires Ascending(keys) && |rs| == |keys|
    requires forall i :: 0 <= i < |rs| ==> KeyOf(rs[i]) == keys[i] && KindOf(rs[i].payload) == kind
    ensures EachAppByTime(rs)
  {
    hide Keys.EncodeKey, KindOf, Lex.Le, KeyOf;
    forall i, j | 0 <= i < j < |rs| && rs[i].appName == rs[j].appName ensures rs[i].timestamp < rs[j].timestamp {
      ScanOrder(rs[i], rs[j]);
    }
  }

  type GroupKey = (nat, Bytes)

  function GroupOf(b: Bucket, r: Record): GroupKey {
    (BucketOf(b, r.timestamp), r.appName)
  }

  /** The records of `rs` that fall into one group, in their order. */
  function InGroup(rs: seq<Record>, b: Bucket, g: GroupKey): seq<Record> {
    if rs == [] then []
    else
      InGroup(rs[..|rs| - 1], b, g) + (if GroupOf(b, rs[|rs| - 1]) == g then [rs[|rs| - 1]] else [])
  }

  lemma {:induction false} InGroupMembers(rs: seq<Record>, b: Bucket, g: GroupKey)
    ensures forall r :: r in InGroup(rs, b, g) <==> r in rs && GroupOf(b, r) == g
  {
    hide BucketOf;
    if rs != [] {
      var init := rs[..|rs| - 1];
      InGroupMembers(init, b, g);
      assert rs == init + [rs[|rs| - 1]];
    }
  }

  predicate ByTime(rs: seq<Record>) {
    forall i, j :: 0 <= i < j < |rs| ==> rs[i].timestamp < rs[j].timestamp
  }

  predicate EachAppByTime(rs: seq<Record>) {
    forall i, j :: 0 <= i < j < |rs| && rs[i].appName == rs[j].appName ==> rs[i].timestamp < rs[j].timestamp
  }

  lemma ByTimeSnoc(rs: seq<Record>, last: Record)
    requires ByTime(rs) && forall i :: 0 <= i < |rs| ==> rs[i].timestamp < last.timestamp
    ensures ByTime(rs + [last])
  {}

  lemma {:induction false} InGroupOrder(rs: seq<Record>, b: Bucket, g: GroupKey)
    requires EachAppByTime(rs)
    ensures ByTime(InGroup(rs, b, g))
  {
    hide BucketOf;
    if rs != [] {
      var init, last := rs[..|rs| - 1], rs[|rs| - 1];
      InGroupOrder(init, b, g);
      var f := InGroup(init, b, g);
      InGroupMembers(init, b, g);
      if GroupOf(b, last) == g {
        forall i | 0 <= i < |f| ensures f[i].timestamp < last.timestamp {
          assert f[i] in init;
          var j :| 0 <= j < |init| && init[j] == f[i];
          assert rs[j] == f[i];
        }
        ByTimeSnoc(f, last);
      } else {
        assert InGroup(rs, b, g) == f;
      }
    }
  }

  lemma InGroupStep(rs: seq<Record>, n: nat, b: Bucket)
    requires n < |rs|
    ensures forall g :: InGroup(rs[..n + 1], b, g) ==
                        InGroup(rs[..n], b, g) + (if GroupOf(b, rs[n]) == g then [rs[n]] else [])
  {
    hide GroupOf;
    assert rs[..n + 1][..n] == rs[..n] && rs[..n + 1][n] == rs[n];
  }

  ghost function Ids(rs: seq<Record>): (ids: seq<Id>)
    ensures |ids| == |rs|
  {
    seq(|rs|, i requires 0 <= i < |rs| => IdOf(rs[i]))
  }

  /** A non-empty group starts with its head, lists it chronologically, and aggregates to what the
      stage must write for it. */
  lemma GroupMatchesHead(t: KeyTree, kind: MetricType, cutoff: u64, b: Bucket, rs: seq<Record>, g: GroupKey)
    requires Keyed(t) && Scanned(t, kind, cutoff, rs) && InGroup(rs, b, g) != []
    ensures var f := InGroup(rs, b, g); var h := IdOf(f[0]);
      && IsHead(Abs(t), cutoff, b, h) && h.kind == kind && GroupOf(b, f[0]) == g
      && Combined(Abs(t), cutoff, b, h) == Aggregate(Payloads(f))
  {
    hide Keys.EncodeKey, BucketOf, Below, Aggregate, KindOf, Abs, InGroup;
    var f := InGroup(rs, b, g);
    var s, h := Abs(t), IdOf(f[0]);
    InGroupMembers(rs, b, g);
    InGroupOrder(rs, b, g);
    var ids := Ids(f);
    forall i | 0 <= i < |f|
      ensures ids[i] in s && s[ids[i]] == f[i].payload && Below(ids[i], cutoff) && SameGroup(b, ids[i], h)
    {
      InGroupEntry(t, kind, cutoff, b, rs, g, i);
    }
    assert h in s && Below(h, cutoff) && h.kind == kind && GroupOf(b, f[0]) == g by {
      InGroupEntry(t, kind, cutoff, b, rs, g, 0);
    }
    forall j | j in s && Below(j, cutoff) && SameGroup(b, j, h) ensures j in ids {
      AbsLookup(t, j);
      var r := t[KeyOfId(j)];
      assert IdOf(r) == j by {
        KeyOfIdInjective(IdOf(r), j);
      }
      assert r in rs && r in f;
      var i :| 0 <= i < |f| && f[i] == r;
      assert ids[i] == j;
    }
    assert IsHead(s, cutoff, b, h) by {
      HeadFromList(s, cutoff, b, h, ids);
    }
    var grp := Group(s, cutoff, b, h);
    forall id ensures id in ids <==> id in grp {}
    ChronologicalUnique(ids, grp);
    assert PayloadsAt(s, ids) == Payloads(f);
  }

  lemma InGroupEntry(t: KeyTree, kind: MetricType, cutoff: u64, b: Bucket, rs: seq<Record>, g: GroupKey, i: nat)
    requires Keyed(t) && Scanned(t, kind, cutoff, rs) && i < |InGroup(rs, b, g)|
    ensures var f := InGroup(rs, b, g); var id := IdOf(f[i]);
      && GroupOf(b, f[i]) == g && f[i] in rs && id.kind == kind
      && id in Abs(t) && Abs(t)[id] == f[i].payload && Below(id, cutoff) && SameGroup(b, id, IdOf(f[0]))
  {
    hide Keys.EncodeKey, BucketOf, Below, KindOf, Abs, InGroup;
    InGroupMembers(rs, b, g);
    var f := InGroup(rs, b, g);
    assert f[i] in f && f[0] in f;
    var j :| 0 <= j < |rs| && rs[j] == f[i];
    var j0 :| 0 <= j0 < |rs| && rs[j0] == f[0];
    AbsLookup(t, IdOf(f[i]));
  }

  lemma HeadFromList(s: Tree, cutoff: int, b: Bucket, h: Id, ids: seq<Id>)
    requires ids != [] && ids[0] == h && StrictlyOrdered(ids) && h in s && Below(h, cutoff)
    requires forall j :: j in s && Below(j, cutoff) && SameGroup(b, j, h) ==> j in ids
    ensures IsHead(s, cutoff, b, h)
  {
    hide BucketOf, Below;
    forall j | j in s && SameGroup(b, j, h) ensures h.ts <= j.ts {
      if Below(j, cutoff) {
        var i :| 0 <= i < |ids| && ids[i] == j;
      } else {
        BelowIsDownward(h, j, cutoff);
      }
    }
  }

  /** Conversely, every head of the kind starts the group it belongs to. */
  lemma HeadStartsGroup(t: KeyTree, kind: MetricType, cutoff: u64, b: Bucket, rs: seq<Record>, h: Id)
    requires Keyed(t) && Scanned(t, kind, cutoff, rs) && IsHead(Abs(t), cutoff, b, h) && h.kind == kind
    ensures var f := InGroup(rs, b, (BucketOf(b, h.ts), h.app)); f != [] && IdOf(f[0]) == h
  {
    hide Keys.EncodeKey, BucketOf, Below, KindOf, Abs, InGroup, Combined, Aggregate;
    var g := (BucketOf(b, h.ts), h.app);
    AbsLookup(t, h);
    var r := t[KeyOfId(h)];
    KeyOfIdInjective(IdOf(r), h);
    InGroupMembers(rs, b, g);
    assert r in InGroup(rs, b, g);
    GroupMatchesHead(t, kind, cutoff, b, rs, g);
    var h' := IdOf(InGroup(rs, b, g)[0]);
    assert SameGroup(b, h', h) && SameGroup(b, h, h');
  }

  /** What the next tree receives for one kind: gather the groups in key order, then aggregate each
      under the timestamp of its first record. */
  method GatherKind(t: KeyTree, kind: MetricType, cutoff: u64, b: Bucket) returns (batch: KeyTree, written: nat)
    requires Keyed(t)
    ensures Keyed(batch) && written == |batch|
    ensures Abs(batch) == OfKind(RolledUp(Abs(t), cutoff, b), kind)
  {
    hide Keys.EncodeKey, Keys.RangeStart, Keys.RangeEnd, Abs, RolledUp, Scanned, InGroup, Keyed, Lex.Le;
    var keys := Range(t, Keys.RangeStart(kind, 0), Keys.RangeEnd(kind, cutoff));
    RangeIsScan(t, kind, cutoff, keys);
    var groups := GroupRecords(t, keys, b);
    batch, written := AggregateGroups(t, kind, cutoff, b, RecordsAt(t, keys), groups);
  }

  method GroupRecords(t: KeyTree, keys: seq<Bytes>, b: Bucket) returns (groups: map<GroupKey, seq<Record>>)
    requires forall k :: k in keys ==> k in t
    ensures forall g :: g in groups <==> InGroup(RecordsAt(t, keys), b, g) != []
    ensures forall g :: g in groups ==> groups[g] == InGroup(RecordsAt(t, keys), b, g)
  {
    hide InGroup, GroupOf;
    ghost var rs := RecordsAt(t, keys);
    groups := map[];
    NothingGrouped(rs, b);
    for n := 0 to |keys|
      invariant forall g :: g in groups <==> InGroup(rs[..n], b, g) != []
      invariant forall g :: g in groups ==> groups[g] == InGroup(rs[..n], b, g)
    {
      assert keys[n] in keys;
      var r := t[keys[n]];
      var g := GroupOf(b, r);
      InGroupStep(rs, n, b);
      groups := groups[g := (if g in groups then groups[g] else []) + [r]];
    }
    assert rs[..|keys|] == rs;
  }

  lemma NothingGrouped(rs: seq<Record>, b: Bucket)
    ensures forall g :: InGroup(rs[..0], b, g) == []
  {}

  method AggregateGroups(ghost t: KeyTree, kind: MetricType, ghost cutoff: u64, ghost b: Bucket,
                         ghost rs: seq<Record>, groups: map<GroupKey, seq<Record>>)
    returns (batch: KeyTree, written: nat)
    requires Keyed(t) && Scanned(t, kind, cutoff, rs)
    requires forall g :: g in groups <==> InGroup(rs, b, g) != []
    requires forall g :: g in groups ==> groups[g] == InGroup(rs, b, g)
    ensures Keyed(batch) && written == |batch|
    ensures Abs(batch) == OfKind(RolledUp(Abs(t), cutoff, b), kind)
  {
    hide Abs, RolledUp, InGroup, Keyed, Scanned, Replacement, KeyOf, Keys.EncodeKey, Replaced;
    batch, written := map[], 0;
    var pending := groups.Keys;
    assert Replaced(groups, pending, batch) by {
      NothingReplaced(groups);
    }
    while pending != {}
      invariant pending <= groups.Keys && written == |batch| && Replaced(groups, pending, batch)
      decreases pending
    {
      var g :| g in pending;
      var records := groups[g];
      var agg := AggregateRecords(records, records[0].timestamp);
      var key := Keys.EncodeKey(kind, agg.value.timestamp, g.1);
      FirstRecordKey(t, kind, cutoff, b, rs, g);
      forall g' | g' in groups && g' != g ensures KeyOf(groups[g'][0]) != key {
        DistinctGroupsDistinctKeys(t, kind, cutoff, b, rs, g, g');
      }
      OneMoreReplaced(groups, pending, batch, g);
      batch := batch[key := agg.value];
      written := written + 1;
      pending := pending - {g};
    }
    AllReplaced(b, rs, groups, batch);
    BatchMatches(t, kind, cutoff, b, rs, groups, batch);
  }

  /** The groups no longer pending have their replacement in the batch, and nothing else is there. */
  ghost predicate Replaced(groups: map<GroupKey, seq<Record>>, pending: set<GroupKey>, batch: KeyTree)
    requires forall g :: g in groups ==> groups[g] != []
  {
    && (forall k :: k in batch ==> exists g :: g in groups && g !in pending && k == KeyOf(groups[g][0]))
    && (forall g :: g in groups && g !in pending ==>
          KeyOf(groups[g][0]) in batch && batch[KeyOf(groups[g][0])] == Replacement(groups[g]))
  }

  lemma NothingReplaced(groups: map<GroupKey, seq<Record>>)
    requires forall g :: g in groups ==> groups[g] != []
    ensures Replaced(groups, groups.Keys, map[])
  {}

  lemma OneMoreReplaced(groups: map<GroupKey, seq<Record>>, pending: set<GroupKey>, batch: KeyTree, g: GroupKey)
    requires forall g :: g in groups ==> groups[g] != []
    requires Replaced(groups, pending, batch) && g in pending && g in groups
    requires forall g' :: g' in groups && g' != g ==> KeyOf(groups[g'][0]) != KeyOf(groups[g][0])
    ensures KeyOf(groups[g][0]) !in batch
    ensures Replaced(groups, pending - {g}, batch[KeyOf(groups[g][0]) := Replacement(groups[g])])
  {
    hide KeyOf, Replacement;
  }

  lemma AllReplaced(b: Bucket, rs: seq<Record>, groups: map<GroupKey, seq<Record>>, batch: KeyTree)
    requires forall g :: g in groups <==> InGroup(rs, b, g) != []
    requires forall g :: g in groups ==> groups[g] == InGroup(rs, b, g)
    requires Replaced(groups, {}, batch)
    ensures Batched(b, rs, groups, batch)
  {
    hide KeyOf, Replacement, InGroup;
  }

  lemma FirstRecordKey(t: KeyTree, kind: MetricType, cutoff: u64, b: Bucket, rs: seq<Record>, g: GroupKey)
    requires Keyed(t) && Scanned(t, kind, cutoff, rs) && InGroup(rs, b, g) != []
    ensures var f := InGroup(rs, b, g);
      && Keys.EncodeKey(kind, f[0].timestamp, g.1) == KeyOf(f[0])
      && Some(Record(f[0].appName, f[0].timestamp, Aggregate(Payloads(f)))) == Some(Replacement(f))
  {
    hide Keys.EncodeKey, BucketOf, Below, Aggregate, KindOf, Abs, IsHead, Combined, InGroup;
    GroupMatchesHead(t, kind, cutoff, b, rs, g);
  }

  /** The record written for a group. */
  function Replacement(rs: seq<Record>): Record
    requires rs != []
  {
    Record(rs[0].appName, rs[0].timestamp, Aggregate(Payloads(rs)))
  }

  lemma DistinctGroupsDistinctKeys(t: KeyTree, kind: MetricType, cutoff: u64, b: Bucket, rs: seq<Record>,
                                   g: GroupKey, g': GroupKey)
    requires Keyed(t) && Scanned(t, kind, cutoff, rs) && g != g'
    requires InGroup(rs, b, g) != [] && InGroup(rs, b, g') != []
    ensures KeyOf(InGroup(rs, b, g)[0]) != KeyOf(InGroup(rs, b, g')[0])
  {
    hide Keys.EncodeKey, BucketOf, Below, Aggregate, KindOf, Abs, IsHead, Combined, InGroup;
    GroupMatchesHead(t, kind, cutoff, b, rs, g);
    GroupMatchesHead(t, kind, cutoff, b, rs, g');
    var r, r' := InGroup(rs, b, g)[0], InGroup(rs, b, g')[0];
    if KeyOf(r) == KeyOf(r') {
      KeyOfIdInjective(IdOf(r), IdOf(r'));
    }
  }

  lemma ReplacementKey(t: KeyTree, kind: MetricType, cutoff: u64, b: Bucket, rs: seq<Record>, g: GroupKey)
    requires Keyed(t) && Scanned(t, kind, cutoff, rs) && InGroup(rs, b, g) != []
    ensures var f := InGroup(rs, b, g);
      && IdOf(Replacement(f)) == IdOf(f[0]) && IsHead(Abs(t), cutoff, b, IdOf(f[0]))
      && Replacement(f).payload == Combined(Abs(t), cutoff, b, IdOf(f[0]))
      && IdOf(f[0]) in OfKind(RolledUp(Abs(t), cutoff, b), kind)
  {
    hide Keys.EncodeKey, BucketOf, Below, Aggregate, Abs, InGroup, Combined;
    GroupMatchesHead(t, kind, cutoff, b, rs, g);
    AbsWellTyped(t);
    var h := IdOf(InGroup(rs, b, g)[0]);
    CombinedFacts(Abs(t), cutoff, b, h);
    AggregateSums(TxBytes, PayloadsAt(Abs(t), Chronological(Group(Abs(t), cutoff, b, h))));
    assert h in RolledUp(Abs(t), cutoff, b);
  }

  /** `groups` is the grouping of a scan, and `batch` holds one replacement per group. */
  ghost predicate Batched(b: Bucket, rs: seq<Record>, groups: map<GroupKey, seq<Record>>, batch: KeyTree) {
    && (forall g :: g in groups <==> InGroup(rs, b, g) != [])
    && (forall g :: g in groups ==> groups[g] == InGroup(rs, b, g))
    && (forall k :: k in batch ==> exists g :: g in groups && k == KeyOf(groups[g][0]))
    && (forall g :: g in groups ==>
          KeyOf(groups[g][0]) in batch && batch[KeyOf(groups[g][0])] == Replacement(groups[g]))
  }

  lemma BatchKeyed(t: KeyTree, kind: MetricType, cutoff: u64, b: Bucket, rs: seq<Record>,
                   groups: map<GroupKey, seq<Record>>, batch: KeyTree)
    requires Keyed(t) && Scanned(t, kind, cutoff, rs) && Batched(b, rs, groups, batch)
    ensures Keyed(batch)
  {
    hide Keys.EncodeKey, KindOf, Abs, InGroup, Combined, Replacement, IsHead, Scanned, OfKind, RolledUp;
    forall k | k in batch ensures k == KeyOf(batch[k]) {
      var g :| g in groups && k == KeyOf(groups[g][0]);
      ReplacementKey(t, kind, cutoff, b, rs, g);
    }
  }

  lemma BatchMatches(t: KeyTree, kind: MetricType, cutoff: u64, b: Bucket, rs: seq<Record>,
                     groups: map<GroupKey, seq<Record>>, batch: KeyTree)
    requires Keyed(t) && Scanned(t, kind, cutoff, rs) && Batched(b, rs, groups, batch)
    ensures Keyed(batch) && Abs(batch) == OfKind(RolledUp(Abs(t), cutoff, b), kind)
  {
    hide Keys.EncodeKey, KindOf, Abs, InGroup, Combined, Replacement, IsHead, Scanned, OfKind, RolledUp, Batched;
    BatchKeyed(t, kind, cutoff, b, rs, groups, batch);
    var got, want := Abs(batch), OfKind(RolledUp(Abs(t), cutoff, b), kind);
    forall id | id in got ensures id in want && got[id] == want[id] {
      BatchSound(t, kind, cutoff, b, rs, groups, batch, id);
    }
    forall id | id in want ensures id in got {
      BatchComplete(t, kind, cutoff, b, rs, groups, batch, id);
    }
  }

  lemma BatchSound(t: KeyTree, kind: MetricType, cutoff: u64, b: Bucket, rs: seq<Record>,
                   groups: map<GroupKey, seq<Record>>, batch: KeyTree, id: Id)
    requires Keyed(t) && Scanned(t, kind, cutoff, rs) && Batched(b, rs, groups, batch)
    requires Keyed(batch) && id in Abs(batch)
    ensures var want := OfKind(RolledUp(Abs(t), cutoff, b), kind); id in want && Abs(batch)[id] == want[id]
  {
    hide Keys.EncodeKey, KindOf, Abs, InGroup, Combined, IsHead, Scanned, RolledUp, Keyed, Replacement;
    AbsLookup(batch, id);
    var g :| g in groups && KeyOfId(id) == KeyOf(groups[g][0]);
    KeyOfIdInjective(id, IdOf(groups[g][0]));
    ReplacementKey(t, kind, cutoff, b, rs, g);
    RolledUpAt(Abs(t), cutoff, b, id);
  }

  lemma BatchComplete(t: KeyTree, kind: MetricType, cutoff: u64, b: Bucket, rs: seq<Record>,
                      groups: map<GroupKey, seq<Record>>, batch: KeyTree, id: Id)
    requires Keyed(t) && Scanned(t, kind, cutoff, rs) && Batched(b, rs, groups, batch)
    requires Keyed(batch) && id in OfKind(RolledUp(Abs(t), cutoff, b), kind)
    ensures id in Abs(batch)
  {
    hide Keys.EncodeKey, KindOf, Abs, InGroup, Combined, IsHead, Scanned, Keyed, Replacement, BucketOf;
    assert IsHead(Abs(t), cutoff, b, id) && id.kind == kind;
    HeadStartsGroup(t, kind, cutoff, b, rs, id);
    var g := (BucketOf(b, id.ts), id.app);
    assert g in groups;
    AbsLookup(batch, id);
  }

  // ----- A whole stage

  ghost function BeforeKind(output: Tree, n: nat): Tree {
    map id | id in output && KindIndex(id.kind) < n :: output[id]
  }

  lemma BeforeKindSplit(output: Tree, n: nat)
    requires n < |ALL_METRIC_TYPES|
    ensures BeforeKind(output, n).Keys !! OfKind(output, ALL_METRIC_TYPES[n]).Keys
    ensures BeforeKind(output, n) + OfKind(output, ALL_METRIC_TYPES[n]) == BeforeKind(output, n + 1)
  {
    hide KindIndex;
    forall k ensures k == ALL_METRIC_TYPES[n] <==> KindIndex(k) == n {
      KindAt(k, n);
    }
    var a := BeforeKind(output, n) + OfKind(output, ALL_METRIC_TYPES[n]);
    var b := BeforeKind(output, n + 1);
    assert a.Keys == b.Keys;
    assert forall id :: id in a ==> a[id] == b[id];
  }

  lemma BeforeKindStep(t: Tree, output: Tree, n: nat)
    requires n < |ALL_METRIC_TYPES|
    ensures (t + BeforeKind(output, n)) + OfKind(output, ALL_METRIC_TYPES[n]) == t + BeforeKind(output, n + 1)
    ensures |BeforeKind(output, n + 1)| == |BeforeKind(output, n)| + |OfKind(output, ALL_METRIC_TYPES[n])|
  {
    hide BeforeKind, OfKind;
    BeforeKindSplit(output, n);
    var x, y := BeforeKind(output, n), OfKind(output, ALL_METRIC_TYPES[n]);
    MergeCount(x, y);
    MergeAssociative(t, x, y);
  }

  lemma AllBeforeLast(output: Tree)
    ensures BeforeKind(output, |ALL_METRIC_TYPES|) == output
    ensures BeforeKind(output, 0) == map[]
  {}

  lemma {:induction false} AbsCard(t: KeyTree)
    requires Keyed(t)
    ensures |Abs(t)| == |t|
  {
    hide Keys.EncodeKey, KindOf;
    var ids := Abs(t).Keys;
    KeysOfIds(t, t.Keys);
    assert ids == set k | k in t.Keys :: IdOf(t[k]);
  }

  lemma {:induction false} KeysOfIds(t: KeyTree, keys: set<Bytes>)
    requires Keyed(t) && keys <= t.Keys
    ensures |set k | k in keys :: IdOf(t[k])| == |keys|
    decreases keys
  {
    hide Keys.EncodeKey, KindOf;
    var ids := set k | k in keys :: IdOf(t[k]);
    if keys != {} {
      var x :| x in keys;
      var rest := keys - {x};
      KeysOfIds(t, rest);
      var restIds := set k | k in rest :: IdOf(t[k]);
      assert ids == restIds + {IdOf(t[x])};
      assert IdOf(t[x]) !in restIds;
    } else {
      assert ids == {};
    }
  }

  /** Roll the old records of `source` up into `dest`, one atomic batch per kind. */
  method RollUp(source: KeyTree, dest: KeyTree, cutoff: u64, b: Bucket) returns (dest': KeyTree, written: nat)
    requires Keyed(source) && Keyed(dest)
    ensures Keyed(dest') && Abs(dest') == Abs(dest) + RolledUp(Abs(source), cutoff, b)
    ensures written == |Heads(Abs(source), cutoff, b)|
  {
    hide Abs, RolledUp, OfKind, Keyed, Heads, Progress;
    ghost var output := RolledUp(Abs(source), cutoff, b);
    NoProgressYet(dest, output);
    dest', written := dest, 0;
    for n := 0 to |ALL_METRIC_TYPES|
      invariant Progress(dest, dest', written, output, n)
    {
      var batch, count := GatherKind(source, ALL_METRIC_TYPES[n], cutoff, b);
      ProgressStep(dest, dest', written, batch, output, n);
      written := written + count;
      if written > 0 {
        dest' := dest' + batch;
      }
    }
    ProgressEnd(dest, dest', written, output);
  }

  /** The first `n` kinds of a stage's output are merged and counted. */
  ghost predicate Progress(dest: KeyTree, dest': KeyTree, written: nat, output: Tree, n: nat)
    requires Keyed(dest)
  {
    Keyed(dest') && Abs(dest') == Abs(dest) + BeforeKind(output, n) && written == |BeforeKind(output, n)|
  }

  lemma NoProgressYet(dest: KeyTree, output: Tree)
    requires Keyed(dest)
    ensures Progress(dest, dest, 0, output, 0)
  {
    hide Abs, Keyed;
    AllBeforeLast(output);
  }

  lemma ProgressStep(dest: KeyTree, dest': KeyTree, written: nat, batch: KeyTree, output: Tree, n: nat)
    requires n < |ALL_METRIC_TYPES| && Keyed(dest) && Keyed(batch) && Progress(dest, dest', written, output, n)
    requires Abs(batch) == OfKind(output, ALL_METRIC_TYPES[n])
    ensures Progress(dest, if written + |batch| > 0 then dest' + batch else dest', written + |batch|, output, n + 1)
  {
    hide Abs, OfKind, BeforeKind, Keyed;
    OneKindMore(dest, dest', batch, output, n);
  }

  lemma ProgressEnd(dest: KeyTree, dest': KeyTree, written: nat, output: Tree)
    requires Keyed(dest) && Progress(dest, dest', written, output, |ALL_METRIC_TYPES|)
    ensures Keyed(dest') && Abs(dest') == Abs(dest) + output && written == |output.Keys|
  {
    hide Abs, Keyed, BeforeKind;
    AllBeforeLast(output);
  }

  lemma OneKindMore(dest: KeyTree, dest': KeyTree, batch: KeyTree, output: Tree, n: nat)
    requires n < |ALL_METRIC_TYPES| && Keyed(dest) && Keyed(dest') && Keyed(batch)
    requires Abs(dest') == Abs(dest) + BeforeKind(output, n) && Abs(batch) == OfKind(output, ALL_METRIC_TYPES[n])
    ensures Keyed(dest' + batch) && Abs(dest' + batch) == Abs(dest) + BeforeKind(output, n + 1)
    ensures |BeforeKind(output, n + 1)| == |BeforeKind(output, n)| + |batch|
    ensures |batch| == 0 ==> dest' + batch == dest'
  {
    hide Abs, OfKind, BeforeKind, Keyed;
    AbsMerge(dest', batch);
    AbsCard(batch);
    BeforeKindStep(Abs(dest), output, n);
    if |batch| == 0 {
      assert batch == map[];
    }
  }

  /** Delete every record a scan up to the cutoff reaches, in one batch. */
  method DeleteBefore(t: KeyTree, cutoff: u64) returns (t': KeyTree, count: nat)
    requires Keyed(t)
    ensures Keyed(t') && Abs(t') == Remaining(Abs(t), cutoff)
    ensures count == |ConsumedIds(Abs(t), cutoff)|
  {
    hide Keys.EncodeKey, Keys.RangeStart, Keys.RangeEnd, Abs, KindOf, Below, Lex.Le;
    var doomed: seq<Bytes> := [];
    for n := 0 to |ALL_METRIC_TYPES|
      invariant forall k :: k in doomed <==>
                  k in t && KindIndex(KindOf(t[k].payload)) < n && Below(IdOf(t[k]), cutoff)
      invariant forall i, j :: 0 <= i < j < |doomed| ==> doomed[i] != doomed[j]
    {
      var kind := ALL_METRIC_TYPES[n];
      var keys := Range(t, Keys.RangeStart(kind, 0), Keys.RangeEnd(kind, cutoff));
      forall k ensures k in keys <==> k in t && KindIndex(KindOf(t[k].payload)) == n && Below(IdOf(t[k]), cutoff) {
        if k in t {
          ScanReaches(t[k], kind, cutoff);
          KindAt(KindOf(t[k].payload), n);
        }
      }
      assert forall i :: 0 <= i < |keys| ==> keys[i] in keys;
      assert forall i :: 0 <= i < |doomed| ==> doomed[i] in doomed;
      doomed := doomed + keys;
    }
    count := |doomed|;
    ghost var gone := set k | k in doomed;
    t' := t - (set k | k in doomed);
    DistinctCount(doomed);
    KeysOfIds(t, gone);
    RemovedIds(t, cutoff, gone);
  }

  lemma {:induction false} DistinctCount(s: seq<Bytes>)
    requires forall i, j :: 0 <= i < j < |s| ==> s[i] != s[j]
    ensures |set k | k in s| == |s|
  {
    if s != [] {
      var init, last := s[..|s| - 1], s[|s| - 1];
      DistinctCount(init);
      assert (set k | k in s) == (set k | k in init) + {last};
    }
  }

  lemma RemovedIds(t: KeyTree, cutoff: u64, gone: set<Bytes>)
    requires Keyed(t)
    requires forall k :: k in gone <==> k in t && Below(IdOf(t[k]), cutoff)
    ensures Keyed(t - gone) && Abs(t - gone) == Remaining(Abs(t), cutoff)
    ensures ConsumedIds(Abs(t), cutoff) == set k | k in gone :: IdOf(t[k])
  {
    hide Keys.EncodeKey, KindOf, Below;
    var a, b := Abs(t - gone), Remaining(Abs(t), cutoff);
    forall id ensures id in a <==> id in b {
      AbsLookup(t - gone, id);
      AbsLookup(t, id);
    }
    forall id | id in a ensures a[id] == b[id] {
      AbsLookup(t - gone, id);
      AbsLookup(t, id);
    }
  }

  // ----- The storage layer

  datatype TieredConfig = TieredConfig(rawHours: nat, monthlyKeepMonths: nat, yearlyKeepYears: nat)

  const U32_MAX: nat := 0xFFFF_FFFF

  predicate ValidConfig(c: TieredConfig) {
    c.rawHours * 3600 < U64_LIMIT && c.monthlyKeepMonths <= U32_MAX && c.yearlyKeepYears <= U32_MAX
  }

  function SaturatingSub(a: u64, b: nat): u64 {
    if b <= a then a - b else 0
  }

  function YearlyKeepMonths(c: TieredConfig): nat {
    if 12 * c.yearlyKeepYears <= U32_MAX then 12 * c.yearlyKeepYears else U32_MAX
  }

  function StartOfMonth(now: u64): u64 {
    BucketsAreFloors(now, now);
    MonthBucket(now)
  }

  function MonthsAgo(now: u64, months: nat): u64 {
    SubtractMonthsIsU64(now, months);
    SubtractMonths(now, months)
  }

  /** The cutoffs of a sweep at `now`, one per tree. */
  function CutsAt(now: u64, c: TieredConfig): (cuts: seq<u64>)
    ensures |cuts| == 4
  {
    [SaturatingSub(now, c.rawHours * 3600), StartOfMonth(now),
     MonthsAgo(now, c.monthlyKeepMonths), MonthsAgo(now, YearlyKeepMonths(c))]
  }

  /** As the clock advances, so do the cutoffs of the three rolling stages, provided the months kept
      do not reach back before 1970. */
  lemma CutsAdvance(now: u64, later: u64, c: TieredConfig)
    requires now <= later && Representable(later) && c.monthlyKeepMonths <= MonthsSinceEpoch(now)
    ensures forall i :: 0 <= i < 3 ==> CutsAt(now, c)[i] <= CutsAt(later, c)[i]
  {
    hide Representable, MonthBucket, SubtractMonths, MonthsSinceEpoch;
    BucketsAreFloors(now, later);
    SubtractMonthsMonotone(now, later, c.monthlyKeepMonths, c.monthlyKeepMonths);
  }

  /** Yearly records are kept at least as long as monthly ones, if configured so. */
  lemma CutsOrdered(now: u64, c: TieredConfig)
    requires Representable(now) && c.monthlyKeepMonths <= YearlyKeepMonths(c) <= MonthsSinceEpoch(now)
    ensures CutsAt(now, c)[3] <= CutsAt(now, c)[2] <= now
  {
    hide Representable, MonthBucket, SubtractMonths, MonthsSinceEpoch, YearlyKeepMonths;
    SubtractMonthsMonotone(now, now, YearlyKeepMonths(c), c.monthlyKeepMonths);
    SubtractMonthsEarlierIff(now, c.monthlyKeepMonths);
  }

  /** The cutoffs mean what the configuration says: hours back for raw records, the start of the month
      for daily ones, whole calendar months and years back for the others. */
  lemma CutsMeaning(now: u64, c: TieredConfig)
    requires Representable(now) && ValidConfig(c) && c.rawHours * 3600 <= now
    requires c.monthlyKeepMonths <= MonthsSinceEpoch(now) && 12 * c.yearlyKeepYears <= MonthsSinceEpoch(now)
    ensures var cuts := CutsAt(now, c);
      && cuts[0] + c.rawHours * 3600 == now
      && cuts[1] == MonthBucket(now)
      && MonthsSinceEpoch(cuts[2]) + c.monthlyKeepMonths == MonthsSinceEpoch(now)
      && MonthsSinceEpoch(cuts[3]) + 12 * c.yearlyKeepYears == MonthsSinceEpoch(now)
  {
    hide MonthBucket, SubtractMonths, MonthOfDay, MonthStart, YearStart, FallsOff;
    SubtractMonthsCount(now, c.monthlyKeepMonths);
    NeverFallsOff(now, 12 * c.yearlyKeepYears);
    YearsFit(now, c.yearlyKeepYears);
    SubtractMonthsCount(now, 12 * c.yearlyKeepYears);
  }

  /** Where the configuration exceeds the clock or 32 bits: the raw cutoff stops at zero, and the years kept
      count for at most 2^32 - 1 months. */
  lemma CutsSaturate(now: u64, c: TieredConfig)
    ensures c.rawHours * 3600 >= now ==> CutsAt(now, c)[0] == 0
    ensures 12 * c.yearlyKeepYears > 0xFFFF_FFFF ==> CutsAt(now, c)[3] == SubtractMonths(now, 0xFFFF_FFFF)
    ensures 12 * c.yearlyKeepYears <= 0xFFFF_FFFF ==> CutsAt(now, c)[3] == SubtractMonths(now, 12 * c.yearlyKeepYears)
  {
    hide SubtractMonths, MonthBucket;
  }

  lemma YearsFit(now: u64, years: nat)
    requires Representable(now) && 12 * years <= MonthsSinceEpoch(now)
    ensures 12 * years <= U32_MAX
  {
    hide MonthOfDay, YearStart, MonthsSinceEpoch;
    NeverFallsOff(now, 12 * years);
  }

  /** If the years kept reach before 1970, and not off the date library's range, the cutoff wraps and every
      sweep erases the whole yearly tree. */
  lemma YearlyTreeErased(tiers: seq<Tree>, now: u64, c: TieredConfig)
    requires |tiers| == 4 && Representable(now)
    requires YearlyKeepMonths(c) > MonthsSinceEpoch(now) && !FallsOff(now, YearlyKeepMonths(c))
    ensures forall id :: id in SweepTiers(tiers, CutsAt(now, c))[3] ==> !Representable(id.ts)
  {
    hide Representable, SubtractMonths, MonthsSinceEpoch, FallsOff, MonthBucket, SweepTiers;
    SubtractMonthsEarlierIff(now, YearlyKeepMonths(c));
    SweepIsQuiet(tiers, CutsAt(now, c));
  }

  datatype Report = Report(
    rawAggregated: nat, rawDeleted: nat,
    dailyAggregated: nat, dailyDeleted: nat,
    monthlyAggregated: nat, monthlyDeleted: nat,
    yearlyDeleted: nat)

  class StorageLayer {
    var raw: KeyTree
    var daily: KeyTree
    var monthly: KeyTree
    var yearly: KeyTree
    var lastCleanup: Option<u64>

    /** Every entry of every tree sits under the key of its own record. */
    ghost predicate Valid()
      reads this
    {
      Keyed(raw) && Keyed(daily) && Keyed(monthly) && Keyed(yearly)
    }

    ghost function Contents(): (tiers: seq<Tree>)
      requires Valid()
      reads this
      ensures |tiers| == 4
    {
      [Abs(raw), Abs(daily), Abs(monthly), Abs(yearly)]
    }

    constructor ()
      ensures Valid() && Contents() == [map[], map[], map[], map[]] && lastCleanup == None
    {
      raw, daily, monthly, yearly, lastCleanup := map[], map[], map[], map[], None;
      new;
      hide Abs, Keyed;
      AbsEmpty();
    }

    method InsertMetric(r: Record)
      requires Valid()
      modifies this`raw
      ensures Valid()
      ensures Contents() == old(Contents())[0 := old(Contents())[0][IdOf(r) := r.payload]]
    {
      hide Abs, Keyed, KeyOf;
      AbsInsert(raw, r);
      raw := raw[KeyOf(r) := r];
    }

    /** All records in one batch; of two with the same key, the later wins. */
    method InsertMetricsBatch(rs: seq<Record>)
      requires Valid()
      modifies this`raw
      ensures Valid()
      ensures Contents() == old(Contents())[0 := InsertAll(old(Contents())[0], rs)]
    {
      hide Abs, KeyOf, Keyed;
      var batch: KeyTree := map[];
      AbsEmpty();
      AbsMerge(raw, batch);
      assert raw + batch == raw;
      for n := 0 to |rs|
        invariant Valid() && Keyed(batch)
        invariant Abs(raw) + Abs(batch) == InsertAll(Abs(raw), rs[..n])
        invariant raw == old(raw) && daily == old(daily) && monthly == old(monthly) && yearly == old(yearly)
      {
        assert rs[..n + 1][..n] == rs[..n];
        AbsInsert(batch, rs[n]);
        batch := batch[KeyOf(rs[n]) := rs[n]];
      }
      assert rs[..|rs|] == rs;
      AbsMerge(raw, batch);
      raw := raw + batch;
    }

    method AggregateRawToDaily(now: u64, c: TieredConfig) returns (written: nat)
      requires Valid() && ValidConfig(c)
      modifies this`daily
      ensures Valid()
      ensures written == |Heads(old(Contents())[0], CutsAt(now, c)[0], Day)|
      ensures Contents() == old(Contents())
                [1 := old(Contents())[1] + RolledUp(old(Contents())[0], CutsAt(now, c)[0], Day)]
    {
      hide Abs, Keyed, RolledUp, Heads;
      var cutoff := SaturatingSub(now, c.rawHours * 3600);
      daily, written := RollUp(raw, daily, cutoff, Day);
    }

    method AggregateDailyToMonthly(now: u64, c: TieredConfig) returns (written: nat)
      requires Valid()
      modifies this`monthly
      ensures Valid()
      ensures written == |Heads(old(Contents())[1], CutsAt(now, c)[1], Month)|
      ensures Contents() == old(Contents())
                [2 := old(Contents())[2] + RolledUp(old(Contents())[1], CutsAt(now, c)[1], Month)]
    {
      hide Abs, Keyed, RolledUp, Heads;
      var cutoff := CutsAt(now, c)[1];
      monthly, written := RollUp(daily, monthly, cutoff, Month);
    }

    method AggregateMonthlyToYearly(now: u64, c: TieredConfig) returns (written: nat)
      requires Valid()
      modifies this`yearly
      ensures Valid()
      ensures written == |Heads(old(Contents())[2], CutsAt(now, c)[2], Year)|
      ensures Contents() == old(Contents())
                [3 := old(Contents())[3] + RolledUp(old(Contents())[2], CutsAt(now, c)[2], Year)]
    {
      hide Abs, Keyed, RolledUp, Heads;
      var cutoff := CutsAt(now, c)[2];
      yearly, written := RollUp(monthly, yearly, cutoff, Year);
    }

    /** Step 1: raw to daily, then delete the raw records covered. */
    method RollRaw(now: u64, c: TieredConfig) returns (aggregated: nat, deleted: nat)
      requires Valid() && ValidConfig(c)
      modifies this`raw, this`daily
      ensures Valid()
      ensures Contents() == StageTiers(old(Contents()), 0, CutsAt(now, c)[0])
      ensures aggregated == |Heads(old(Contents())[0], CutsAt(now, c)[0], StageBucket(0))|
      ensures deleted == |ConsumedIds(old(Contents())[0], CutsAt(now, c)[0])|
    {
      hide Abs, Keyed, RolledUp, Heads, CutsAt, ConsumedIds, Remaining, StageTiers;
      ghost var before := Contents();
      aggregated := AggregateRawToDaily(now, c);
      ghost var mid := Contents();
      raw, deleted := DeleteBefore(raw, CutsAt(now, c)[0]);
      assert Contents() == mid[0 := Abs(raw)];
      StageShape(before, 0, CutsAt(now, c)[0], Contents());
    }

    /** Step 2: daily to monthly, then delete the daily records covered. */
    method RollDaily(now: u64, c: TieredConfig) returns (aggregated: nat, deleted: nat)
      requires Valid() && ValidConfig(c)
      modifies this`daily, this`monthly
      ensures Valid()
      ensures Contents() == StageTiers(old(Contents()), 1, CutsAt(now, c)[1])
      ensures aggregated == |Heads(old(Contents())[1], CutsAt(now, c)[1], StageBucket(1))|
      ensures deleted == |ConsumedIds(old(Contents())[1], CutsAt(now, c)[1])|
    {
      hide Abs, Keyed, RolledUp, Heads, CutsAt, ConsumedIds, Remaining, StageTiers;
      ghost var before := Contents();
      aggregated := AggregateDailyToMonthly(now, c);
      ghost var mid := Contents();
      daily, deleted := DeleteBefore(daily, CutsAt(now, c)[1]);
      assert Contents() == mid[1 := Abs(daily)];
      StageShape(before, 1, CutsAt(now, c)[1], Contents());
    }

    /** Step 3: monthly to yearly, then delete the monthly records covered. */
    method RollMonthly(now: u64, c: TieredConfig) returns (aggregated: nat, deleted: nat)
      requires Valid() && ValidConfig(c)
      modifies this`monthly, this`yearly
      ensures Valid()
      ensures Contents() == StageTiers(old(Contents()), 2, CutsAt(now, c)[2])
      ensures aggregated == |Heads(old(Contents())[2], CutsAt(now, c)[2], StageBucket(2))|
      ensures deleted == |ConsumedIds(old(Contents())[2], CutsAt(now, c)[2])|
    {
      hide Abs, Keyed, RolledUp, Heads, CutsAt, ConsumedIds, Remaining, StageTiers;
      ghost var before := Contents();
      aggregated := AggregateMonthlyToYearly(now, c);
      ghost var mid := Contents();
      monthly, deleted := DeleteBefore(monthly, CutsAt(now, c)[2]);
      assert Contents() == mid[2 := Abs(monthly)];
      StageShape(before, 2, CutsAt(now, c)[2], Contents());
    }

    /** The whole pipeline: each stage aggregates and then deletes the same range; the yearly tree is
        trimmed last. */
    method CleanupTiered(now: u64, c: TieredConfig) returns (report: Report)
      requires Valid() && ValidConfig(c)
      modifies this
      ensures Valid() && lastCleanup == Some(now)
      ensures Contents() == SweepTiers(old(Contents()), CutsAt(now, c))
      ensures var t, cuts := old(Contents()), CutsAt(now, c);
        report == Report(Aggregated(t, cuts, 0), Deleted(t, cuts, 0),
                         Aggregated(t, cuts, 1), Deleted(t, cuts, 1),
                         Aggregated(t, cuts, 2), Deleted(t, cuts, 2), Deleted(t, cuts, 3))
    {
      hide Abs, Keyed, Heads, CutsAt, ConsumedIds, StageTiers;
      ghost var tiers := Contents();
      var cuts := CutsAt(now, c);
      assert AfterStages(tiers, cuts, 0) == tiers;
      var rawAggregated, rawDeleted := RollRaw(now, c);
      assert Contents() == AfterStages(tiers, cuts, 1);
      var dailyAggregated, dailyDeleted := RollDaily(now, c);
      assert Contents() == AfterStages(tiers, cuts, 2);
      var monthlyAggregated, monthlyDeleted := RollMonthly(now, c);
      assert Contents() == AfterStages(tiers, cuts, 3);
      var yearlyDeleted;
      yearly, yearlyDeleted := DeleteBefore(yearly, cuts[3]);
      lastCleanup := Some(now);
      report := Report(rawAggregated, rawDeleted, dailyAggregated, dailyDeleted,
                       monthlyAggregated, monthlyDeleted, yearlyDeleted);
    }
  }

  lemma StageShape(before: seq<Tree>, i: nat, cutoff: int, after: seq<Tree>)
    requires |before| == |after| == 4 && i < 3
    requires after[i] == Remaining(before[i], cutoff)
    requires after[i + 1] == before[i + 1] + RolledUp(before[i], cutoff, StageBucket(i))
    requires forall j :: 0 <= j < 4 && j != i && j != i + 1 ==> after[j] == before[j]
    ensures after == StageTiers(before, i, cutoff)
  {
    hide Remaining, RolledUp;
  }

  ghost function InsertAll(t: Tree, rs: seq<Record>): Tree {
    if rs == [] then t else InsertAll(t, rs[..|rs| - 1])[IdOf(rs[|rs| - 1]) := rs[|rs| - 1].payload]
  }

  /** Of several records with one key the last is stored. */
  lemma {:induction false} LastInsertWins(t: Tree, rs: seq<Record>, i: nat)
    requires i < |rs| && forall j :: i < j < |rs| ==> IdOf(rs[j]) != IdOf(rs[i])
    ensures IdOf(rs[i]) in InsertAll(t, rs) && InsertAll(t, rs)[IdOf(rs[i])] == rs[i].payload
    decreases |rs|
  {
    hide IdOf;
    var init := rs[..|rs| - 1];
    if i < |init| {
      assert forall j :: 0 <= j < |init| ==> init[j] == rs[j];
      LastInsertWins(t, init, i);
      assert IdOf(rs[|init|]) != IdOf(rs[i]);
    }
  }

  /** Keys no inserted record has stay as they were. */
  lemma {:induction false} OtherKeysStay(t: Tree, rs: seq<Record>, id: Id)
    requires forall i :: 0 <= i < |rs| ==> IdOf(rs[i]) != id
    ensures id in InsertAll(t, rs) <==> id in t
    ensures id in t ==> InsertAll(t, rs)[id] == t[id]
    decreases |rs|
  {
    hide IdOf;
    if rs != [] {
      OtherKeysStay(t, rs[..|rs| - 1], id);
    }
  }

  lemma AbsEmpty()
    ensures Keyed(map[]) && Abs(map[]) == map[]
  {}
}
