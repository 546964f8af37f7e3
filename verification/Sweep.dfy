/** The retention sweep as a state machine of atomic batches. Inserts may fall between any two of its
    micro-steps, and a crash may end it after any of them; a later sweep then starts over. */
module Sweep {
  import opened Metrics
  import opened Calendar
  import opened Aggregation
  import opened Tiers
  import opened Stages

  const KINDS: nat := 8

  /** What a scan has gathered but no batch has applied yet. */
  datatype Staged = Nothing | Writes(batch: Tree) | Removes(ids: set<Id>)

  /** Stage 0, 1, 2 aggregate one kind at a time and then delete; stage 3 only deletes. */
  datatype Pc = Idle | Busy(stage: nat, kind: nat, staged: Staged)

  /** `tiers` are the raw, daily, monthly and yearly trees; `marks` are the cutoffs, one per tier, of
      the sweep that started last. */
  datatype Db = Db(tiers: seq<Tree>, marks: seq<int>, pc: Pc)

  predicate Shape(db: Db) {
    && |db.tiers| == 4 && |db.marks| == 4
    && (db.pc.Busy? ==> db.pc.stage <= 3 && db.pc.kind <= KINDS && (db.pc.stage == 3 ==> db.pc.kind == KINDS))
  }

  const EMPTY: Db := Db([map[], map[], map[], map[]], [-1, -1, -1, -1], Idle)

  datatype Event =
    | Insert(id: Id, payload: Payload)
    | Begin(cuts: seq<int>)
    | Advance
    | Crash

  /** Inserts are newer than every raw cutoff used so far, and no sweep uses an earlier cutoff than
      one before it. */
  predicate Enabled(db: Db, e: Event) {
    Shape(db) &&
    match e
    case Insert(id, p) => KindOf(p) == id.kind && !Below(id, db.marks[0])
    case Begin(cuts) =>
      && db.pc.Idle? && |cuts| == 4
      && db.marks[0] <= cuts[0] && db.marks[1] <= cuts[1] && db.marks[2] <= cuts[2]
    case Advance => db.pc.Busy?
    case Crash => true
  }

  ghost function StageOutput(db: Db): Tree
    requires Shape(db) && db.pc.Busy? && db.pc.stage < 3
  {
    RolledUp(db.tiers[db.pc.stage], db.marks[db.pc.stage], StageBucket(db.pc.stage))
  }

  function NextStage(stage: nat): Pc {
    if stage < 2 then Busy(stage + 1, 0, Nothing)
    else if stage == 2 then Busy(3, KINDS, Nothing)
    else Idle
  }

  /** One micro-step: gather what the next batch will do, or apply it. */
  ghost function AdvanceStep(db: Db): (r: Db)
    requires Shape(db) && db.pc.Busy?
    ensures Shape(r)
  {
    var Busy(stage, kind, staged) := db.pc;
    match staged
    case Nothing =>
      if kind < KINDS
      then db.(pc := Busy(stage, kind, Writes(OfKind(StageOutput(db), ALL_METRIC_TYPES[kind]))))
      else db.(pc := Busy(stage, kind, Removes(ConsumedIds(db.tiers[stage], db.marks[stage]))))
    case Writes(batch) =>
      if stage < 3 && kind < KINDS
      then db.(tiers := db.tiers[stage + 1 := db.tiers[stage + 1] + batch], pc := Busy(stage, kind + 1, Nothing))
      else db
    case Removes(ids) =>
      db.(tiers := db.tiers[stage := db.tiers[stage] - ids], pc := NextStage(stage))
  }

  ghost function Step(db: Db, e: Event): Db
    requires Enabled(db, e)
  {
    match e
    case Insert(id, p) => db.(tiers := db.tiers[0 := db.tiers[0][id := p]])
    case Begin(cuts) => db.(marks := cuts, pc := Busy(0, 0, Nothing))
    case Advance => AdvanceStep(db)
    case Crash => db.(pc := Idle)
  }

  ghost predicate ValidRun(db: Db, es: seq<Event>)
    decreases |es|
  {
    es == [] || (Enabled(db, es[0]) && ValidRun(Step(db, es[0]), es[1..]))
  }

  ghost function Exec(db: Db, es: seq<Event>): Db
    requires ValidRun(db, es)
    decreases |es|
  {
    if es == [] then db else Exec(Step(db, es[0]), es[1..])
  }

  /** All the records ever inserted, a later one replacing an earlier one under the same key. */
  function Ledger(all: Tree, es: seq<Event>): Tree
    decreases |es|
  {
    if es == [] then all else Ledger(Noted(all, es[0]), es[1..])
  }

  function Noted(all: Tree, e: Event): Tree {
    if e.Insert? then all[e.id := e.payload] else all
  }

  // ----- The invariant

  /** `k` is earlier than every record of its series in `s`; in particular it is not in `s`. */
  predicate Precedes(k: Id, s: Tree) {
    forall j :: j in s && SameSeries(j, k) ==> k.ts < j.ts
  }

  predicate AllPrecede(t: Tree, s: Tree) {
    forall k :: k in t ==> Precedes(k, s)
  }

  /** Each record of tier `t` either precedes its series in the source `s`, or is a leftover aggregate
      that sits under the key of its source group's earliest record. */
  predicate Adjacent(s: Tree, t: Tree, mark: int, b: Bucket) {
    forall k :: k in t ==> Precedes(k, s) || IsHead(s, mark, b, k)
  }

  ghost predicate TreesInv(db: Db)
    requires Shape(db)
  {
    && (forall i :: 0 <= i < 4 ==> WellTyped(db.tiers[i]))
    && (forall i :: 0 <= i < 3 ==> Adjacent(db.tiers[i], db.tiers[i + 1], db.marks[i], StageBucket(i)))
    && (forall i, j :: 0 <= i && i + 2 <= j < 4 ==> AllPrecede(db.tiers[j], db.tiers[i]))
    && (forall i, k :: 1 <= i < 4 && k in db.tiers[i] ==> Below(k, db.marks[0]))
  }

  /** No tier holds a leftover of the stage that reads from the tier before it. */
  predicate SettledAt(tiers: seq<Tree>, i: nat)
    requires |tiers| == 4 && i < 3
  {
    AllPrecede(tiers[i + 1], tiers[i])
  }

  predicate Settled(tiers: seq<Tree>)
    requires |tiers| == 4
  {
    SettledAt(tiers, 0) && SettledAt(tiers, 1) && SettledAt(tiers, 2)
  }

  /** The aggregates of the first `kind` kinds are all in place. */
  ghost predicate Written(output: Tree, t: Tree, kind: nat) {
    forall id :: id in output && KindIndex(id.kind) < kind ==> id in t && t[id] == output[id]
  }

  ghost predicate PcInv(db: Db)
    requires Shape(db)
  {
    db.pc.Busy? ==>
      var Busy(stage, kind, staged) := db.pc;
      && (forall i :: 0 <= i < stage ==> SettledAt(db.tiers, i))
      && (stage < 3 ==> Written(StageOutput(db), db.tiers[stage + 1], kind))
      && (staged.Writes? ==> kind < KINDS && staged.batch == OfKind(StageOutput(db), ALL_METRIC_TYPES[kind]))
      && (staged.Removes? ==> kind == KINDS && staged.ids == ConsumedIds(db.tiers[stage], db.marks[stage]))
  }

  ghost predicate Inv(db: Db) {
    Shape(db) && TreesInv(db) && PcInv(db)
  }

  lemma EmptyInv()
    ensures Inv(EMPTY)
  {}

  // ----- How each kind of step treats the relations between trees

  lemma AdjacentAfterWrite(s: Tree, t: Tree, mark: int, b: Bucket, batch: Tree)
    requires Adjacent(s, t, mark, b) && batch.Keys <= Heads(s, mark, b)
    ensures Adjacent(s, t + batch, mark, b)
  {
    hide Below, BucketOf;
  }

  lemma AdjacentAfterGrowth(s: Tree, t: Tree, u: Tree, mark: int, b: Bucket, batch: Tree)
    requires Adjacent(t, u, mark, b) && AllPrecede(u, s) && batch.Keys <= s.Keys
    ensures Adjacent(t + batch, u, mark, b)
  {
    hide Below, BucketOf;
    forall k | k in u ensures Precedes(k, t + batch) || IsHead(t + batch, mark, b, k) {
      assert Precedes(k, s);
      if Precedes(k, t) {
        assert Precedes(k, t + batch);
      } else {
        assert IsHead(t, mark, b, k);
        assert IsHead(t + batch, mark, b, k);
      }
    }
  }

  lemma AdjacentAfterInsert(s: Tree, t: Tree, mark: int, b: Bucket, x: Id, p: Payload)
    requires Adjacent(s, t, mark, b) && !Below(x, mark)
    requires forall k :: k in t ==> Below(k, mark)
    ensures Adjacent(s[x := p], t, mark, b)
  {
    hide BucketOf, Below;
    forall k | k in t ensures Precedes(k, s[x := p]) || IsHead(s[x := p], mark, b, k) {
      if SameSeries(x, k) {
        BelowIsDownward(k, x, mark);
      }
      if Precedes(k, s) {
        assert Precedes(k, s[x := p]);
      } else {
        assert IsHead(s[x := p], mark, b, k);
      }
    }
  }

  lemma PrecedeAfterInsert(s: Tree, t: Tree, mark: int, x: Id, p: Payload)
    requires AllPrecede(t, s) && !Below(x, mark)
    requires forall k :: k in t ==> Below(k, mark)
    ensures AllPrecede(t, s[x := p])
  {
    hide Below;
    forall k, j | k in t && j in s[x := p] && SameSeries(j, k) ensures k.ts < j.ts {
      assert Precedes(k, s);
      if j == x {
        BelowIsDownward(k, x, mark);
      }
    }
  }

  lemma AdjacentAfterBegin(s: Tree, t: Tree, mark: int, mark': int, b: Bucket)
    requires Adjacent(s, t, mark, b) && mark <= mark'
    ensures Adjacent(s, t, mark', b)
  {
    hide BucketOf;
    forall k | k in t ensures Precedes(k, s) || IsHead(s, mark', b, k) {
      if !Precedes(k, s) {
        assert IsHead(s, mark, b, k);
      }
    }
  }

  /** Deleting what a stage consumed leaves no leftover: the aggregates now precede all that remains. */
  lemma SettledAfterDelete(s: Tree, t: Tree, mark: int, b: Bucket)
    requires Adjacent(s, t, mark, b)
    ensures AllPrecede(t, Remaining(s, mark))
  {
    hide BucketOf, Below;
    var s' := Remaining(s, mark);
    forall k, j | k in t && j in s' && SameSeries(j, k) ensures k.ts < j.ts {
      if !Precedes(k, s) {
        assert IsHead(s, mark, b, k);
        assert !Below(j, mark);
        BelowIsDownward(k, j, mark);
      }
    }
  }

  lemma SmallerDest(s: Tree, t: Tree, ids: set<Id>, mark: int, b: Bucket)
    ensures Adjacent(s, t, mark, b) ==> Adjacent(s, t - ids, mark, b)
    ensures AllPrecede(t, s) ==> AllPrecede(t - ids, s)
    ensures AllPrecede(s, t) ==> AllPrecede(s, t - ids)
  {
    hide BucketOf, Below, IsHead;
    if AllPrecede(s, t) {
      forall k | k in s ensures Precedes(k, t - ids) {
        assert Precedes(k, t);
      }
    }
  }

  lemma AdjacentFromPrecede(s: Tree, t: Tree, mark: int, b: Bucket)
    requires AllPrecede(t, s)
    ensures Adjacent(s, t, mark, b)
  {}

  lemma PrecedeMeansDisjoint(s: Tree, t: Tree)
    requires AllPrecede(t, s)
    ensures t.Keys !! s.Keys
  {
    forall k | k in t ensures k !in s {
      assert Precedes(k, s) && SameSeries(k, k);
    }
  }

  // ----- Every step keeps the invariant

  lemma InsertKeepsInv(db: Db, id: Id, p: Payload)
    requires Inv(db) && Enabled(db, Insert(id, p))
    ensures Inv(Step(db, Insert(id, p)))
  {
    hide Below, BucketOf, RolledUp, Adjacent, AllPrecede, WellTyped, ConsumedIds;
    var db' := Step(db, Insert(id, p));
    assert WellTyped(db'.tiers[0]) by {
      InsertWellTyped(db.tiers[0], id, p);
    }
    AdjacentAfterInsert(db.tiers[0], db.tiers[1], db.marks[0], Day, id, p);
    forall j | 2 <= j < 4 ensures AllPrecede(db'.tiers[j], db'.tiers[0]) {
      PrecedeAfterInsert(db.tiers[0], db.tiers[j], db.marks[0], id, p);
    }
    assert TreesInv(db');
    if db.pc.Busy? {
      if db.pc.stage > 0 {
        assert SettledAt(db.tiers, 0);
        PrecedeAfterInsert(db.tiers[0], db.tiers[1], db.marks[0], id, p);
        forall i | 0 <= i < db.pc.stage ensures SettledAt(db'.tiers, i) {
          assert SettledAt(db.tiers, i);
        }
        if db.pc.stage < 3 {
          assert StageOutput(db') == StageOutput(db);
        }
      } else {
        RolledUpIgnoresLater(db.tiers[0], db.marks[0], Day, id, p);
        ConsumedIgnoresLater(db.tiers[0], db.marks[0], id, p);
      }
    }
  }

  lemma InsertWellTyped(t: Tree, id: Id, p: Payload)
    requires WellTyped(t) && KindOf(p) == id.kind
    ensures WellTyped(t[id := p])
  {}

  lemma ConsumedIgnoresLater(s: Tree, mark: int, x: Id, p: Payload)
    requires !Below(x, mark)
    ensures ConsumedIds(s[x := p], mark) == ConsumedIds(s, mark)
  {}

  lemma BeginKeepsInv(db: Db, cuts: seq<int>)
    requires Inv(db) && Enabled(db, Begin(cuts))
    ensures Inv(Step(db, Begin(cuts)))
  {
    hide Below, BucketOf, RolledUp, Adjacent, AllPrecede, WellTyped;
    var db' := Step(db, Begin(cuts));
    forall i | 0 <= i < 3 ensures Adjacent(db'.tiers[i], db'.tiers[i + 1], db'.marks[i], StageBucket(i)) {
      AdjacentAfterBegin(db.tiers[i], db.tiers[i + 1], db.marks[i], cuts[i], StageBucket(i));
    }
    forall i, k | 1 <= i < 4 && k in db'.tiers[i] ensures Below(k, db'.marks[0]) {
      BelowMonotone(k, db.marks[0], cuts[0]);
    }
  }

  /** What the batch about to be written consists of. */
  lemma BatchFacts(db: Db)
    requires Inv(db) && db.pc.Busy? && db.pc.staged.Writes?
    ensures db.pc.stage < 3 && db.pc.kind < KINDS
    ensures db.pc.staged.batch.Keys <= Heads(db.tiers[db.pc.stage], db.marks[db.pc.stage], StageBucket(db.pc.stage))
    ensures db.pc.staged.batch.Keys <= db.tiers[db.pc.stage].Keys
    ensures WellTyped(db.pc.staged.batch)
    ensures forall k :: k in db.pc.staged.batch ==> Below(k, db.marks[0])
  {
    hide Below, BucketOf, Combined, Adjacent, AllPrecede;
    var stage := db.pc.stage;
    RolledUpWellTyped(db.tiers[stage], db.marks[stage], StageBucket(stage));
    assert forall k :: k in db.pc.staged.batch ==> IsHead(db.tiers[stage], db.marks[stage], StageBucket(stage), k);
  }

  lemma WriteKeepsTrees(db: Db)
    requires Inv(db) && db.pc.Busy? && db.pc.staged.Writes?
    ensures Shape(AdvanceStep(db)) && TreesInv(AdvanceStep(db))
  {
    hide Below, BucketOf, RolledUp, Adjacent, AllPrecede, WellTyped, OfKind, IsHead;
    BatchFacts(db);
    var Busy(stage, kind, staged) := db.pc;
    var batch, db' := staged.batch, AdvanceStep(db);
    var s, t := db.tiers[stage], db.tiers[stage + 1];
    MergeWellTyped(t, batch);
    AdjacentAfterWrite(s, t, db.marks[stage], StageBucket(stage), batch);
    if stage < 2 {
      AdjacentAfterGrowth(s, t, db.tiers[stage + 2], db.marks[stage + 1], StageBucket(stage + 1), batch);
    }
    forall i, j | 0 <= i && i + 2 <= j < 4 ensures AllPrecede(db'.tiers[j], db'.tiers[i]) {
      assert AllPrecede(db.tiers[j], db.tiers[i]);
      if j == stage + 1 {
        assert i + 2 <= stage ==> AllPrecede(s, db.tiers[i]);
        assert i + 1 == stage ==> SettledAt(db.tiers, i);
        PrecedeMerge(db.tiers[i], s, t, batch);
      } else if i == stage + 1 {
        PrecedeGrowth(s, t, db.tiers[j], batch);
      }
    }
  }

  lemma MergeWellTyped(t: Tree, batch: Tree)
    requires WellTyped(t) && WellTyped(batch)
    ensures WellTyped(t + batch)
  {}

  lemma PrecedeMerge(r: Tree, s: Tree, t: Tree, batch: Tree)
    requires AllPrecede(s, r) && AllPrecede(t, r) && batch.Keys <= s.Keys
    ensures AllPrecede(t + batch, r)
  {}

  lemma PrecedeGrowth(s: Tree, t: Tree, u: Tree, batch: Tree)
    requires AllPrecede(u, s) && AllPrecede(u, t) && batch.Keys <= s.Keys
    ensures AllPrecede(u, t + batch)
  {
    forall k | k in u ensures Precedes(k, t + batch) {
      assert Precedes(k, s) && Precedes(k, t);
    }
  }

  lemma WriteKeepsInv(db: Db)
    requires Inv(db) && db.pc.Busy? && db.pc.staged.Writes?
    ensures Inv(AdvanceStep(db))
  {
    hide Below, BucketOf, RolledUp, Adjacent, AllPrecede, WellTyped, IsHead, TreesInv;
    BatchFacts(db);
    WriteKeepsTrees(db);
    var Busy(stage, kind, staged) := db.pc;
    var db' := AdvanceStep(db);
    assert StageOutput(db') == StageOutput(db);
    forall i | 0 <= i < stage ensures SettledAt(db'.tiers, i) {
      assert SettledAt(db.tiers, i);
    }
    WrittenOneMore(StageOutput(db), db.tiers[stage + 1], kind);
  }

  lemma WrittenOneMore(output: Tree, t: Tree, kind: nat)
    requires kind < KINDS && Written(output, t, kind)
    ensures Written(output, t + OfKind(output, ALL_METRIC_TYPES[kind]), kind + 1)
  {}

  lemma DeleteKeepsInv(db: Db)
    requires Inv(db) && db.pc.Busy? && db.pc.staged.Removes?
    ensures Inv(AdvanceStep(db))
    ensures db.pc.stage < 3 ==> SettledAt(AdvanceStep(db).tiers, db.pc.stage)
    ensures db.pc.stage == 3 ==> Settled(AdvanceStep(db).tiers)
  {
    hide Below, BucketOf, RolledUp, Adjacent, AllPrecede, IsHead, ConsumedIds, WellTyped;
    var Busy(stage, kind, staged) := db.pc;
    var db' := AdvanceStep(db);
    var s, ids := db.tiers[stage], staged.ids;
    assert WellTyped(s - ids) by {
      ShrinkWellTyped(s, ids);
    }
    if stage < 3 {
      var t := db.tiers[stage + 1];
      SettledAfterDelete(s, t, db.marks[stage], StageBucket(stage));
      AdjacentFromPrecede(s - ids, t, db.marks[stage], StageBucket(stage));
    }
    if stage > 0 {
      SmallerDest(db.tiers[stage - 1], s, ids, db.marks[stage - 1], StageBucket(stage - 1));
      assert SettledAt(db.tiers, stage - 1);
    }
    forall i, j | 0 <= i && i + 2 <= j < 4 ensures AllPrecede(db'.tiers[j], db'.tiers[i]) {
      SmallerDest(db.tiers[i], db.tiers[j], ids, 0, Day);
      SmallerDest(db.tiers[j], db.tiers[i], ids, 0, Day);
    }
    forall i | 0 <= i < stage ensures SettledAt(db'.tiers, i) {
      assert SettledAt(db.tiers, i);
    }
    if stage < 2 {
      NothingWritten(db');
    }
  }

  lemma ShrinkWellTyped(t: Tree, ids: set<Id>)
    requires WellTyped(t)
    ensures WellTyped(t - ids)
  {}

  lemma NothingWritten(db: Db)
    requires Shape(db) && db.pc.Busy? && db.pc.stage < 3 && db.pc.kind == 0
    ensures Written(StageOutput(db), db.tiers[db.pc.stage + 1], 0)
  {}

  /** Every event, in every order, keeps the invariant. */
  lemma StepKeepsInv(db: Db, e: Event)
    requires Inv(db) && Enabled(db, e)
    ensures Inv(Step(db, e))
  {
    hide TreesInv, RolledUp, ConsumedIds, OfKind, SettledAt, Written, Below;
    match e
    case Insert(id, p) => InsertKeepsInv(db, id, p);
    case Begin(cuts) => BeginKeepsInv(db, cuts);
    case Crash => CrashKeepsInv(db);
    case Advance =>
      match db.pc.staged
      case Nothing => GatherKeepsInv(db);
      case Writes(_) => WriteKeepsInv(db);
      case Removes(_) => DeleteKeepsInv(db);
  }

  lemma CrashKeepsInv(db: Db)
    requires Inv(db)
    ensures Inv(Step(db, Crash))
  {
    hide Below, BucketOf, RolledUp, Adjacent, AllPrecede, WellTyped;
  }

  lemma GatherKeepsInv(db: Db)
    requires Inv(db) && db.pc.Busy? && db.pc.staged.Nothing?
    ensures Inv(AdvanceStep(db))
  {
    hide Below, BucketOf, RolledUp, Adjacent, AllPrecede, WellTyped, OfKind, ConsumedIds, Written;
    var db' := AdvanceStep(db);
    if db.pc.stage < 3 {
      assert StageOutput(db') == StageOutput(db);
    }
  }

  lemma {:induction false} RunKeepsInv(db: Db, es: seq<Event>)
    requires Inv(db) && ValidRun(db, es)
    ensures Inv(Exec(db, es))
    decreases |es|
  {
    hide Inv, Step, Enabled;
    if es != [] {
      StepKeepsInv(db, es[0]);
      RunKeepsInv(Step(db, es[0]), es[1..]);
    }
  }

  // ----- Conservation

  /** The records of a tier that count: leftovers, whose source records are still there, do not. */
  ghost function Fresh(tiers: seq<Tree>, i: nat): set<Id>
    requires |tiers| == 4 && i < 4
  {
    if i == 0 then tiers[0].Keys else tiers[i].Keys - tiers[i - 1].Keys
  }

  ghost function Share(q: Query, tiers: seq<Tree>, i: nat): nat
    requires |tiers| == 4 && i < 4
  {
    Total(q, tiers[i], Fresh(tiers, i))
  }

  /** What the store knows, each record counted once even while a sweep is under way. */
  ghost function LogicalTotal(q: Query, tiers: seq<Tree>): nat
    requires |tiers| == 4
  {
    Share(q, tiers, 0) + Share(q, tiers, 1) + Share(q, tiers, 2) + Share(q, tiers, 3)
  }

  /** What a reader finds by adding up all four trees. */
  ghost function StoredTotal(q: Query, tiers: seq<Tree>): nat
    requires |tiers| == 4
  {
    Total(q, tiers[0], tiers[0].Keys) + Total(q, tiers[1], tiers[1].Keys)
    + Total(q, tiers[2], tiers[2].Keys) + Total(q, tiers[3], tiers[3].Keys)
  }

  lemma SettledTotals(q: Query, tiers: seq<Tree>)
    requires |tiers| == 4 && Settled(tiers)
    ensures StoredTotal(q, tiers) == LogicalTotal(q, tiers)
  {
    hide AllPrecede, Total;
    PrecedeMeansDisjoint(tiers[0], tiers[1]);
    PrecedeMeansDisjoint(tiers[1], tiers[2]);
    PrecedeMeansDisjoint(tiers[2], tiers[3]);
    assert forall i :: 0 <= i < 4 ==> Fresh(tiers, i) == tiers[i].Keys;
  }

  /** What one event adds to (or takes from) the total: an insert brings its own weight minus that of
      a record it replaces, and the last deletion takes what it removes. */
  ghost function NetOf(q: Query, db: Db, e: Event): int
    requires Enabled(db, e)
  {
    match e
    case Insert(id, p) =>
      Weight(q, id, p) - (if id in db.tiers[0] then Weight(q, id, db.tiers[0][id]) else 0)
    case Advance =>
      if db.pc.stage == 3 && db.pc.staged.Removes?
      then var gone: int := Total(q, db.tiers[3], db.pc.staged.ids * db.tiers[3].Keys); -gone
      else 0
    case _ => 0
  }

  lemma InsertConserves(q: Query, db: Db, id: Id, p: Payload)
    requires Inv(db) && Enabled(db, Insert(id, p))
    ensures LogicalTotal(q, Step(db, Insert(id, p)).tiers)
         == LogicalTotal(q, db.tiers) + NetOf(q, db, Insert(id, p))
  {
    hide Weight, Total, Adjacent, AllPrecede, PcInv, Below;
    var r := db.tiers[0];
    var r' := r[id := p];
    var tiers' := db.tiers[0 := r'];
    assert id !in db.tiers[1];
    assert Fresh(tiers', 1) == Fresh(db.tiers, 1);
    assert Fresh(tiers', 2) == Fresh(db.tiers, 2);
    assert Fresh(tiers', 3) == Fresh(db.tiers, 3);
    TotalPick(q, r', r'.Keys, id);
    assert r'.Keys - {id} == r.Keys - {id};
    TotalAgree(q, r, r', r.Keys - {id});
    if id in r {
      TotalPick(q, r, r.Keys, id);
    } else {
      assert r.Keys - {id} == r.Keys;
    }
  }

  lemma WriteConserves(q: Query, db: Db)
    requires Inv(db) && db.pc.Busy? && db.pc.staged.Writes?
    ensures LogicalTotal(q, AdvanceStep(db).tiers) == LogicalTotal(q, db.tiers)
  {
    hide Weight, Total, Adjacent, AllPrecede, PcInv, Below, Heads, RolledUp, WellTyped;
    BatchFacts(db);
    var Busy(stage, kind, staged) := db.pc;
    var batch, tiers' := staged.batch, AdvanceStep(db).tiers;
    var s, t := db.tiers[stage], db.tiers[stage + 1];
    forall i | 0 <= i < 4 ensures Share(q, tiers', i) == Share(q, db.tiers, i) {
      if i == stage + 1 {
        assert Fresh(tiers', i) == Fresh(db.tiers, i);
        TotalAgree(q, t, t + batch, Fresh(db.tiers, i));
      } else if i == stage + 2 {
        PrecedeMeansDisjoint(s, db.tiers[i]);
        assert Fresh(tiers', i) == Fresh(db.tiers, i);
      } else {
        assert Fresh(tiers', i) == Fresh(db.tiers, i);
      }
    }
  }

  /** Just before a deletion, the records a tier shares with its source are exactly this stage's output. */
  lemma LeftoversAreOutput(db: Db)
    requires Inv(db) && db.pc.Busy? && db.pc.stage < 3 && db.pc.kind == KINDS
    ensures db.tiers[db.pc.stage].Keys * db.tiers[db.pc.stage + 1].Keys == StageOutput(db).Keys
    ensures forall id :: id in StageOutput(db) ==> db.tiers[db.pc.stage + 1][id] == StageOutput(db)[id]
  {
    hide Below, BucketOf, Combined;
    var stage := db.pc.stage;
    var s, t, output := db.tiers[stage], db.tiers[stage + 1], StageOutput(db);
    forall id | id in s && id in t ensures id in output {
      assert Precedes(id, s) || IsHead(s, db.marks[stage], StageBucket(stage), id);
      assert SameSeries(id, id);
    }
    forall id | id in output ensures id in s && id in t && t[id] == output[id] {
      assert KindIndex(id.kind) < KINDS;
      assert IsHead(s, db.marks[stage], StageBucket(stage), id);
    }
  }

  lemma FreshWhenSettled(db: Db)
    requires Inv(db) && db.pc.Busy?
    ensures Fresh(db.tiers, db.pc.stage) == db.tiers[db.pc.stage].Keys
  {
    hide AllPrecede, TreesInv, StageOutput, Written;
    if db.pc.stage > 0 {
      assert SettledAt(db.tiers, db.pc.stage - 1);
      PrecedeMeansDisjoint(db.tiers[db.pc.stage - 1], db.tiers[db.pc.stage]);
    }
  }

  lemma DeleteConserves(q: Query, db: Db)
    requires Inv(db) && db.pc.Busy? && db.pc.staged.Removes? && db.pc.stage < 3
    ensures LogicalTotal(q, AdvanceStep(db).tiers) == LogicalTotal(q, db.tiers)
  {
    hide Weight, Total, Adjacent, AllPrecede, Below, Heads, RolledUp, WellTyped, ConsumedIds, Written;
    var stage, ids := db.pc.stage, db.pc.staged.ids;
    var db' := AdvanceStep(db);
    var s, t, output := db.tiers[stage], db.tiers[stage + 1], StageOutput(db);
    DeleteKeepsInv(db);
    FreshWhenSettled(db);
    assert Fresh(db'.tiers, stage) == s.Keys - ids;
    ConsumedWithin(s, db.marks[stage]);
    TotalUnion(q, s, s.Keys - ids, ids);
    assert s.Keys - ids + ids == s.Keys;
    TotalAgree(q, s, s - ids, s.Keys - ids);
    LeftoversAreOutput(db);
    PrecedeMeansDisjoint(s - ids, t);
    assert Fresh(db'.tiers, stage + 1) == t.Keys == Fresh(db.tiers, stage + 1) + output.Keys;
    TotalUnion(q, t, Fresh(db.tiers, stage + 1), output.Keys);
    TotalAgree(q, t, output, output.Keys);
    RollUpConserves(q, s, db.marks[stage], StageBucket(stage));
    forall i | 0 <= i < 4 && i != stage && i != stage + 1 ensures Share(q, db'.tiers, i) == Share(q, db.tiers, i) {
      assert Fresh(db'.tiers, i) == Fresh(db.tiers, i);
    }
  }

  lemma ConsumedWithin(s: Tree, mark: int)
    ensures ConsumedIds(s, mark) <= s.Keys
  {}

  lemma ExpireConserves(q: Query, db: Db)
    requires Inv(db) && db.pc.Busy? && db.pc.staged.Removes? && db.pc.stage == 3
    ensures LogicalTotal(q, AdvanceStep(db).tiers) == LogicalTotal(q, db.tiers) + NetOf(q, db, Advance)
  {
    hide Weight, Total, Adjacent, AllPrecede, Below, WellTyped, ConsumedIds;
    var ids, y := db.pc.staged.ids, db.tiers[3];
    var tiers' := AdvanceStep(db).tiers;
    DeleteKeepsInv(db);
    FreshWhenSettled(db);
    assert Fresh(tiers', 3) == y.Keys - ids;
    ConsumedWithin(y, db.marks[3]);
    assert ids * y.Keys == ids;
    TotalUnion(q, y, y.Keys - ids, ids);
    assert y.Keys - ids + ids == y.Keys;
    TotalAgree(q, y, y - ids, y.Keys - ids);
    assert forall i :: 0 <= i < 3 ==> Fresh(tiers', i) == Fresh(db.tiers, i);
  }

  /** One step changes the total by exactly what the event says. */
  lemma StepConserves(q: Query, db: Db, e: Event)
    requires Inv(db) && Enabled(db, e)
    ensures LogicalTotal(q, Step(db, e).tiers) == LogicalTotal(q, db.tiers) + NetOf(q, db, e)
  {
    hide TreesInv, StageOutput, ConsumedIds, OfKind, LogicalTotal, Total, Weight, SettledAt, Written;
    match e
    case Insert(id, p) => InsertConserves(q, db, id, p);
    case Begin(_) =>
    case Crash =>
    case Advance =>
      if db.pc.staged.Writes? {
        WriteConserves(q, db);
      } else if db.pc.staged.Removes? {
        if db.pc.stage < 3 {
          DeleteConserves(q, db);
        } else {
          ExpireConserves(q, db);
        }
      }
  }

  ghost function NetOfRun(q: Query, db: Db, es: seq<Event>): int
    requires ValidRun(db, es)
    decreases |es|
  {
    if es == [] then 0 else NetOf(q, db, es[0]) + NetOfRun(q, Step(db, es[0]), es[1..])
  }

  /** Conservation over every run: inserts, sweeps, crashes and reruns in any order account for the
      total exactly. In any settled state that total is what the four trees add up to. */
  lemma {:induction false} RunConserves(q: Query, db: Db, es: seq<Event>)
    requires Inv(db) && ValidRun(db, es)
    ensures Inv(Exec(db, es))
    ensures LogicalTotal(q, Exec(db, es).tiers) == LogicalTotal(q, db.tiers) + NetOfRun(q, db, es)
    ensures Settled(Exec(db, es).tiers) ==>
              StoredTotal(q, Exec(db, es).tiers) == LogicalTotal(q, db.tiers) + NetOfRun(q, db, es)
    decreases |es|
  {
    hide Step, Enabled, TreesInv, PcInv, NetOf, LogicalTotal, StoredTotal, Settled;
    if es != [] {
      StepConserves(q, db, es[0]);
      StepKeepsInv(db, es[0]);
      RunConserves(q, Step(db, es[0]), es[1..]);
    } else if Settled(db.tiers) {
      SettledTotals(q, db.tiers);
    }
  }

  // ----- Completed sweeps

  lemma {:induction false} ExecAppend(db: Db, es: seq<Event>, e: Event)
    requires ValidRun(db, es + [e])
    ensures ValidRun(db, es) && Enabled(Exec(db, es), e)
    ensures Exec(db, es + [e]) == Step(Exec(db, es), e)
    decreases |es|
  {
    hide Step, Enabled;
    var w := es + [e];
    if es == [] {
      assert w == [e] && w[1..] == [];
      assert Exec(Step(db, e), w[1..]) == Step(db, e);
    } else {
      assert w[1..] == es[1..] + [e];
      ExecAppend(Step(db, es[0]), es[1..], e);
    }
  }

  /** Whatever came before (crashed sweeps, inserts between any two batches), the moment a sweep
      finishes, nothing is left over and the four trees add up to everything ever inserted, less what
      was replaced and what expired. */
  lemma CompletedSweepAccounts(q: Query, es: seq<Event>)
    requires ValidRun(EMPTY, es) && Exec(EMPTY, es).pc.Busy?
    requires ValidRun(EMPTY, es + [Advance]) && Exec(EMPTY, es + [Advance]).pc.Idle?
    ensures Inv(Exec(EMPTY, es + [Advance]))
    ensures Settled(Exec(EMPTY, es + [Advance]).tiers)
    ensures StoredTotal(q, Exec(EMPTY, es + [Advance]).tiers) == NetOfRun(q, EMPTY, es + [Advance])
  {
    hide TreesInv, PcInv, StageOutput, OfKind, ConsumedIds, Settled, StoredTotal, LogicalTotal, NetOfRun, Exec;
    EmptyInv();
    ExecAppend(EMPTY, es, Advance);
    RunKeepsInv(EMPTY, es);
    var db := Exec(EMPTY, es);
    assert db.pc.staged.Removes? && db.pc.stage == 3;
    DeleteKeepsInv(db);
    RunConserves(q, EMPTY, es + [Advance]);
    NothingStored(q);
  }

  lemma NothingStored(q: Query)
    ensures LogicalTotal(q, EMPTY.tiers) == 0
  {}

  /** Micro-steps until the sweep ends, if nothing interrupts it. */
  function StepsLeft(pc: Pc): int {
    match pc
    case Idle => 0
    case Busy(stage, kind, staged) =>
      (if stage < 3 then 18 * (3 - stage) - 2 * kind else 0)
      + 2 - (if staged.Nothing? then 0 else 1)
  }

  function Advances(n: nat): seq<Event> {
    seq(n, _ => Advance)
  }

  lemma AdvanceCounts(db: Db)
    requires Inv(db) && db.pc.Busy?
    ensures StepsLeft(AdvanceStep(db).pc) == StepsLeft(db.pc) - 1 >= 0
    ensures AdvanceStep(db).pc.Idle? <==> StepsLeft(db.pc) == 1
  {
    hide TreesInv, StageOutput, OfKind, ConsumedIds;
  }

  /** An undisturbed sweep runs to its end and leaves the trees settled. */
  lemma {:induction false} SweepTerminates(db: Db)
    requires Inv(db) && db.pc.Busy?
    ensures StepsLeft(db.pc) > 0
    ensures var es := Advances(StepsLeft(db.pc));
      && ValidRun(db, es) && Inv(Exec(db, es))
      && Exec(db, es).pc.Idle? && Exec(db, es).marks == db.marks && Settled(Exec(db, es).tiers)
    decreases StepsLeft(db.pc)
  {
    hide TreesInv, StageOutput, OfKind, ConsumedIds, Settled, SettledAt, Written;
    AdvanceCounts(db);
    StepKeepsInv(db, Advance);
    var db', n := AdvanceStep(db), StepsLeft(db.pc);
    var es := Advances(n);
    assert es[0] == Advance && es[1..] == Advances(n - 1);
    if n == 1 {
      assert es[1..] == [];
      DeleteKeepsInv(db);
    } else {
      SweepTerminates(db');
    }
  }

  // ----- Inserts survive

  lemma {:induction false} MarksGrow(db: Db, es: seq<Event>)
    requires ValidRun(db, es) && Shape(db)
    ensures Shape(Exec(db, es)) && db.marks[0] <= Exec(db, es).marks[0]
    decreases |es|
  {
    hide StageOutput, OfKind, ConsumedIds, Below;
    if es != [] {
      MarksGrow(Step(db, es[0]), es[1..]);
    }
  }

  lemma StepKeepsNew(db: Db, e: Event, id: Id)
    requires Inv(db) && Enabled(db, e) && id in db.tiers[0]
    requires !(e.Insert? && e.id == id) && !Below(id, db.marks[0])
    ensures id in Step(db, e).tiers[0] && Step(db, e).tiers[0][id] == db.tiers[0][id]
  {
    hide TreesInv, StageOutput, OfKind, Below;
  }

  /** A record newer than every raw cutoff stays in the raw tree, whatever sweeps and crashes happen. */
  lemma {:induction false} InsertSurvives(db: Db, es: seq<Event>, id: Id)
    requires Inv(db) && ValidRun(db, es) && id in db.tiers[0]
    requires forall e :: e in es ==> !(e.Insert? && e.id == id)
    requires Shape(Exec(db, es)) && !Below(id, Exec(db, es).marks[0])
    ensures id in Exec(db, es).tiers[0] && Exec(db, es).tiers[0][id] == db.tiers[0][id]
    decreases |es|
  {
    hide TreesInv, PcInv, Step, Enabled, Below;
    if es != [] {
      var db' := Step(db, es[0]);
      assert !Below(id, db.marks[0]) by {
        MarksGrow(db, es);
        if Below(id, db.marks[0]) {
          BelowMonotone(id, db.marks[0], Exec(db, es).marks[0]);
        }
      }
      StepKeepsNew(db, es[0], id);
      StepKeepsInv(db, es[0]);
      InsertSurvives(db', es[1..], id);
    }
  }

  // ----- Sums fit, averages stay in bounds

  /** Everything the inserts of a run bring in, replaced records included. */
  function Inflow(q: Query, es: seq<Event>): nat {
    if es == [] then 0
    else (if es[0].Insert? then Weight(q, es[0].id, es[0].payload) else 0) + Inflow(q, es[1..])
  }

  lemma {:induction false} NetAtMostInflow(q: Query, db: Db, es: seq<Event>)
    requires ValidRun(db, es)
    ensures NetOfRun(q, db, es) <= Inflow(q, es)
    decreases |es|
  {
    hide Step, Enabled, Weight;
    if es != [] {
      NetAtMostInflow(q, Step(db, es[0]), es[1..]);
    }
  }

  /** No sum a sweep ever computes exceeds what was inserted for that field, app and year: if the
      inserted volume fits in 64 bits, no addition in any aggregation overflows. */
  lemma AggregatesFit(q: Query, es: seq<Event>, h: Id)
    requires ValidRun(EMPTY, es)
    requires Exec(EMPTY, es).pc.Busy? && Shape(Exec(EMPTY, es)) && Exec(EMPTY, es).pc.stage < 3
    requires h in StageOutput(Exec(EMPTY, es)) && h.app == q.app && YearBucket(h.ts) == q.year
    ensures Amount(q.field, StageOutput(Exec(EMPTY, es))[h]) <= Inflow(q, es)
  {
    hide TreesInv, SettledAt, Written, Total, Below, YearBucket, Amount;
    hide Exec, NetOfRun, BucketOf, Aggregate, Combined, Inflow;
    EmptyInv();
    RunConserves(q, EMPTY, es);
    NothingStored(q);
    NetAtMostInflow(q, EMPTY, es);
    var db := Exec(EMPTY, es);
    var s := db.tiers[db.pc.stage];
    SourceWellTyped(db);
    var g := Group(s, db.marks[db.pc.stage], StageBucket(db.pc.stage), h);
    HeadWeight(q, s, db.marks[db.pc.stage], StageBucket(db.pc.stage), h);
    TotalSubset(q, s, g, s.Keys);
    FreshWhenSettled(db);
    assert Share(q, db.tiers, db.pc.stage) == Total(q, s, s.Keys);
  }

  lemma SourceWellTyped(db: Db)
    requires Inv(db) && db.pc.Busy?
    ensures WellTyped(db.tiers[db.pc.stage])
  {}

  predicate TreeWithin(h: Hull, z: Series, t: Tree) {
    forall id :: id in t && Belongs(z, id) ==> Within(h, t[id])
  }

  predicate StoreWithin(h: Hull, z: Series, tiers: seq<Tree>) {
    forall i :: 0 <= i < |tiers| ==> TreeWithin(h, z, tiers[i])
  }

  lemma RolledUpWithin(h: Hull, z: Series, s: Tree, cutoff: int, b: Bucket)
    requires WellTyped(s) && TreeWithin(h, z, s)
    ensures TreeWithin(h, z, RolledUp(s, cutoff, b))
  {
    hide Within, Combined, Below, BucketOf, RolledUp, IsHead, Belongs;
    var m := RolledUp(s, cutoff, b);
    forall id | id in m && Belongs(z, id) ensures Within(h, m[id]) {
      RolledUpAt(s, cutoff, b, id);
      CombinedWithin(h, z, s, cutoff, b, id);
    }
  }

  lemma CombinedWithin(h: Hull, z: Series, s: Tree, cutoff: int, b: Bucket, id: Id)
    requires WellTyped(s) && TreeWithin(h, z, s) && IsHead(s, cutoff, b, id) && Belongs(z, id)
    ensures Within(h, Combined(s, cutoff, b, id))
  {
    hide Within, Aggregate, Combined, Below, BucketOf, IsHead, KindOf, Belongs;
    CombinedFacts(s, cutoff, b, id);
    var g := Group(s, cutoff, b, id);
    var ids := Chronological(g);
    forall i | 0 <= i < |ids| ensures ids[i] in s && Belongs(z, ids[i]) {
      assert ids[i] in g;
      GroupBelongs(z, b, ids[i], id);
    }
    AggregateHull(h, PayloadsAt(s, ids));
  }

  lemma StepKeepsWithin(h: Hull, z: Series, db: Db, e: Event)
    requires Inv(db) && Enabled(db, e) && StoreWithin(h, z, db.tiers)
    requires e.Insert? && Belongs(z, e.id) ==> Within(h, e.payload)
    ensures StoreWithin(h, z, Step(db, e).tiers)
  {
    hide Within, RolledUp, Below, ConsumedIds, Belongs;
    if e.Advance? && db.pc.staged.Writes? {
      BatchFacts(db);
      var stage := db.pc.stage;
      RolledUpWithin(h, z, db.tiers[stage], db.marks[stage], StageBucket(stage));
      assert TreeWithin(h, z, db.pc.staged.batch);
      assert TreeWithin(h, z, db.tiers[stage + 1] + db.pc.staged.batch);
    }
  }

  /** Whatever bounds hold for the readings of one app, kind and year as inserted hold for its records
      in every tree in every reachable state, leftovers included. */
  lemma {:induction false} RunKeepsWithin(h: Hull, z: Series, db: Db, es: seq<Event>)
    requires Inv(db) && ValidRun(db, es) && StoreWithin(h, z, db.tiers)
    requires forall e :: e in es && e.Insert? && Belongs(z, e.id) ==> Within(h, e.payload)
    ensures StoreWithin(h, z, Exec(db, es).tiers)
    decreases |es|
  {
    hide Inv, Step, Enabled, Within, Belongs;
    if es != [] {
      StepKeepsWithin(h, z, db, es[0]);
      StepKeepsInv(db, es[0]);
      RunKeepsWithin(h, z, Step(db, es[0]), es[1..]);
    }
  }

  // ----- The undisturbed sweep is the function of the trees

  /** `n` micro-steps in a row. */
  ghost function AdvanceBy(db: Db, n: nat): (r: Db)
    requires Shape(db)
    ensures Shape(r)
    decreases n
  {
    if n == 0 || db.pc.Idle? then db else AdvanceBy(AdvanceStep(db), n - 1)
  }

  lemma {:induction false} AdvanceBySum(db: Db, m: nat, n: nat)
    requires Shape(db)
    ensures AdvanceBy(AdvanceBy(db, m), n) == AdvanceBy(db, m + n)
    decreases m
  {
    hide AdvanceStep;
    if m > 0 && db.pc.Busy? {
      AdvanceBySum(AdvanceStep(db), m - 1, n);
    }
  }

  ghost function FromKind(output: Tree, kind: nat): Tree {
    map id | id in output && KindIndex(id.kind) >= kind :: output[id]
  }

  lemma FromKindSplit(output: Tree, kind: nat)
    requires kind < KINDS
    ensures OfKind(output, ALL_METRIC_TYPES[kind]) + FromKind(output, kind + 1) == FromKind(output, kind)
  {
    hide KindIndex;
    forall k ensures k == ALL_METRIC_TYPES[kind] <==> KindIndex(k) == kind {
      KindAt(k, kind);
    }
    var a, b := OfKind(output, ALL_METRIC_TYPES[kind]) + FromKind(output, kind + 1), FromKind(output, kind);
    assert a.Keys == b.Keys;
    assert forall id :: id in a ==> a[id] == b[id];
  }

  lemma FromKindStep(t: Tree, output: Tree, kind: nat)
    requires kind < KINDS
    ensures (t + OfKind(output, ALL_METRIC_TYPES[kind])) + FromKind(output, kind + 1) == t + FromKind(output, kind)
  {
    hide OfKind, FromKind;
    FromKindSplit(output, kind);
    MergeAssociative(t, OfKind(output, ALL_METRIC_TYPES[kind]), FromKind(output, kind + 1));
  }

  /** The remaining kinds of a stage write the remaining part of its output. */
  lemma {:induction false} KindsRun(db: Db, kind: nat)
    requires Shape(db) && db.pc.Busy? && db.pc == Busy(db.pc.stage, kind, Nothing) && db.pc.stage < 3
    ensures var stage := db.pc.stage;
      AdvanceBy(db, 2 * (KINDS - kind)) ==
        db.(tiers := db.tiers[stage + 1 := db.tiers[stage + 1] + FromKind(StageOutput(db), kind)],
            pc := Busy(stage, KINDS, Nothing))
    decreases KINDS - kind
  {
    hide RolledUp, OfKind, FromKind, AdvanceStep, AdvanceBy;
    var stage, output := db.pc.stage, StageOutput(db);
    var t := db.tiers[stage + 1];
    if kind == KINDS {
      NoAdvance(db);
      assert t + FromKind(output, KINDS) == t by {
        NoKindLeft(output);
      }
    } else {
      KindRun(db, kind);
      var db2 := AdvanceBy(db, 2);
      KindsRun(db2, kind + 1);
      FromKindStep(t, output, kind);
      AdvanceBySum(db, 2, 2 * (KINDS - kind - 1));
    }
  }

  lemma NoAdvance(db: Db)
    requires Shape(db)
    ensures AdvanceBy(db, 0) == db
  {}

  lemma KindRun(db: Db, kind: nat)
    requires Shape(db) && db.pc.Busy? && db.pc == Busy(db.pc.stage, kind, Nothing) && db.pc.stage < 3 && kind < KINDS
    ensures var stage, batch := db.pc.stage, OfKind(StageOutput(db), ALL_METRIC_TYPES[kind]);
      && AdvanceBy(db, 2) ==
           db.(tiers := db.tiers[stage + 1 := db.tiers[stage + 1] + batch], pc := Busy(stage, kind + 1, Nothing))
      && StageOutput(AdvanceBy(db, 2)) == StageOutput(db)
  {
    hide RolledUp, OfKind, ConsumedIds;
    var db1 := AdvanceStep(db);
    assert AdvanceBy(db, 2) == AdvanceBy(db1, 1) == AdvanceStep(db1);
  }

  lemma NoKindLeft(output: Tree)
    ensures FromKind(output, KINDS) == map[]
  {}

  lemma AllKinds(output: Tree)
    ensures FromKind(output, 0) == output
  {}

  /** Eighteen micro-steps carry out one stage. */
  lemma StageRun(db: Db, stage: nat)
    requires Shape(db) && stage < 3 && db.pc == Busy(stage, 0, Nothing)
    ensures AdvanceBy(db, 18) ==
              db.(tiers := StageTiers(db.tiers, stage, db.marks[stage]), pc := NextStage(stage))
  {
    hide RolledUp, OfKind, FromKind, ConsumedIds, AdvanceStep, AdvanceBy;
    KindsRun(db, 0);
    AllKinds(StageOutput(db));
    var mid := AdvanceBy(db, 16);
    DeleteRun(mid, stage);
    AdvanceBySum(db, 16, 2);
    assert mid.tiers[stage] == db.tiers[stage];
  }

  lemma DeleteRun(db: Db, stage: nat)
    requires Shape(db) && stage <= 3 && db.pc == Busy(stage, KINDS, Nothing)
    ensures AdvanceBy(db, 2) ==
              db.(tiers := db.tiers[stage := Remaining(db.tiers[stage], db.marks[stage])], pc := NextStage(stage))
  {
    hide ConsumedIds, StageOutput;
    var db1 := AdvanceStep(db);
    assert AdvanceBy(db, 2) == AdvanceBy(db1, 1) == AdvanceStep(db1);
  }

  /** Started on any trees and left alone, the machine computes the sweep function in 56 micro-steps. */
  lemma SweepRun(db: Db, cuts: seq<int>)
    requires Enabled(db, Begin(cuts))
    ensures AdvanceBy(Step(db, Begin(cuts)), 56) == Db(SweepTiers(db.tiers, cuts), cuts, Idle)
  {
    hide StageTiers, AdvanceStep, AdvanceBy, Remaining;
    var db0 := Step(db, Begin(cuts));
    StageRun(db0, 0);
    var db1 := AdvanceBy(db0, 18);
    StageRun(db1, 1);
    var db2 := AdvanceBy(db1, 18);
    StageRun(db2, 2);
    var db3 := AdvanceBy(db2, 18);
    DeleteRun(db3, 3);
    AdvanceBySum(db0, 18, 18);
    AdvanceBySum(db0, 36, 18);
    AdvanceBySum(db0, 54, 2);
    assert AfterStages(db.tiers, cuts, 0) == db.tiers;
    assert AfterStages(db.tiers, cuts, 1) == db1.tiers;
    assert AfterStages(db.tiers, cuts, 2) == db2.tiers;
    assert AfterStages(db.tiers, cuts, 3) == db3.tiers;
  }

  /** Once a sweep has finished, and until one is cut short, no record is stored twice. By
      `DisjointBalances` the report of the next sweep then balances. */
  lemma SettledIsDisjoint(db: Db)
    requires Inv(db) && Settled(db.tiers)
    ensures PairwiseDisjoint(db.tiers)
  {
    hide AllPrecede, Adjacent, WellTyped, Below, PcInv;
    forall i, j | 0 <= i < j < 4 ensures db.tiers[i].Keys !! db.tiers[j].Keys {
      assert AllPrecede(db.tiers[j], db.tiers[i]) by {
        if j == i + 1 {
          assert SettledAt(db.tiers, i);
        }
      }
      PrecedeMeansDisjoint(db.tiers[i], db.tiers[j]);
    }
  }

  // ----- A rerun forgets what a crash left behind

  lemma {:induction false} AdvanceByKeepsInv(db: Db, n: nat)
    requires Inv(db)
    ensures Inv(AdvanceBy(db, n))
    decreases n
  {
    hide TreesInv, PcInv, AdvanceStep;
    if n > 0 && db.pc.Busy? {
      StepKeepsInv(db, Advance);
      AdvanceByKeepsInv(AdvanceStep(db), n - 1);
    }
  }

  /** The trees with every leftover aggregate removed. */
  function Scrubbed(tiers: seq<Tree>): (r: seq<Tree>)
    requires |tiers| == 4
    ensures |r| == 4
  {
    [tiers[0], tiers[1] - tiers[0].Keys, tiers[2] - tiers[1].Keys, tiers[3] - tiers[2].Keys]
  }

  /** Leftovers do not count. */
  lemma ScrubbedTotal(q: Query, tiers: seq<Tree>)
    requires |tiers| == 4
    ensures LogicalTotal(q, Scrubbed(tiers)) == LogicalTotal(q, tiers)
  {
    hide Total;
    var r := Scrubbed(tiers);
    forall i | 0 <= i < 4 ensures Share(q, r, i) == Share(q, tiers, i) {
      assert Fresh(r, i) == Fresh(tiers, i);
      TotalAgree(q, tiers[i], r[i], Fresh(tiers, i));
    }
  }

  /** At the start of a stage, each record its destination shares with its source will be overwritten. */
  lemma StageOverwrites(db: Db, stage: nat, earlier: Tree)
    requires Inv(db) && stage < 3 && db.pc == Busy(stage, 0, Nothing) && earlier.Keys <= db.tiers[stage].Keys
    ensures db.tiers[stage + 1] + StageOutput(db) == (db.tiers[stage + 1] - earlier.Keys) + StageOutput(db)
  {
    hide RolledUp, Below, BucketOf, PcInv, AllPrecede, WellTyped;
    var s, t, output := db.tiers[stage], db.tiers[stage + 1], StageOutput(db);
    forall k | k in t && k in earlier ensures k in output {
      assert Precedes(k, s) || IsHead(s, db.marks[stage], StageBucket(stage), k);
      assert SameSeries(k, k);
      RolledUpAt(s, db.marks[stage], StageBucket(stage), k);
    }
    var a, b := t + output, (t - earlier.Keys) + output;
    assert a.Keys == b.Keys;
    assert forall k :: k in a ==> a[k] == b[k];
  }

  /** The machine's state when stage `n` begins. */
  lemma StageStart(db: Db, cuts: seq<int>, n: nat)
    requires Inv(db) && Enabled(db, Begin(cuts)) && n < 3
    ensures Inv(Db(AfterStages(db.tiers, cuts, n), cuts, Busy(n, 0, Nothing)))
    ensures forall j :: n < j < 4 ==> AfterStages(db.tiers, cuts, n)[j] == db.tiers[j]
    ensures db.tiers[n].Keys <= AfterStages(db.tiers, cuts, n)[n].Keys
    decreases n
  {
    hide TreesInv, PcInv, RolledUp, Remaining, AdvanceBy;
    if n == 0 {
      StepKeepsInv(db, Begin(cuts));
    } else {
      StageStart(db, cuts, n - 1);
      var before := Db(AfterStages(db.tiers, cuts, n - 1), cuts, Busy(n - 1, 0, Nothing));
      AdvanceByKeepsInv(before, 18);
      StageRun(before, n - 1);
    }
  }

  lemma {:induction false} StagesForgetLeftovers(db: Db, cuts: seq<int>, n: nat)
    requires Inv(db) && Enabled(db, Begin(cuts)) && n <= 3
    ensures var a, b := AfterStages(db.tiers, cuts, n), AfterStages(Scrubbed(db.tiers), cuts, n);
      && (forall j :: 0 <= j <= n ==> a[j] == b[j])
      && (forall j :: n < j < 4 ==> b[j] == Scrubbed(db.tiers)[j])
      && (n == 3 ==> a == b)
  {
    hide TreesInv, PcInv, RolledUp, Remaining, Inv;
    if n > 0 {
      var m := n - 1;
      StagesForgetLeftovers(db, cuts, m);
      StageStart(db, cuts, m);
      var start := Db(AfterStages(db.tiers, cuts, m), cuts, Busy(m, 0, Nothing));
      StageOverwrites(start, m, db.tiers[m]);
      assert Scrubbed(db.tiers)[n] == db.tiers[n] - db.tiers[m].Keys;
    }
  }

  /** Crash recovery, exactly: a sweep that starts after any number of crashed ones ends with the same
      four trees as if the aggregates those left behind had never been written. */
  lemma RerunForgetsLeftovers(db: Db, cuts: seq<int>)
    requires Inv(db) && Enabled(db, Begin(cuts))
    ensures SweepTiers(db.tiers, cuts) == SweepTiers(Scrubbed(db.tiers), cuts)
  {
    hide Inv, StageTiers, Scrubbed, Remaining;
    StagesForgetLeftovers(db, cuts, 3);
  }

  /** A crash between the two batches of a stage leaves the same record in two trees, from an empty store
      in five events. By `TwiceUnbalances` the rerun's report does not balance. */
  lemma CrashLeavesTwice(id: Id, p: Payload, cuts: seq<int>)
    requires id.kind == Net && KindOf(p) == Net && |cuts| == 4 && Below(id, cuts[0])
    requires cuts[1] >= -1 && cuts[2] >= -1
    ensures var es := [Insert(id, p), Begin(cuts), Advance, Advance, Crash];
      ValidRun(EMPTY, es) && Exec(EMPTY, es) == Db(Twice(id, p, Aggregate([p])), cuts, Idle)
  {
    hide Aggregate, RolledUp, Lone;
    var db1 := Step(EMPTY, Insert(id, p));
    var db2 := Step(db1, Begin(cuts));
    assert db2 == Db(Lone(0, id, p), cuts, Busy(0, 0, Nothing)) by {
      LoneAt(id, p, map[]);
    }
    assert OfKind(StageOutput(db2), Net) == map[id := Aggregate([p])] by {
      FirstOutput(db2, id, p);
    }
    var db3 := AdvanceStep(db2);
    var db4 := AdvanceStep(db3);
    LoneAt(id, p, map[id := Aggregate([p])]);
    assert db4.tiers == Twice(id, p, Aggregate([p]));
    ExecOne(db4, [Crash]);
    ExecOne(db3, [Advance, Crash]);
    ExecOne(db2, [Advance, Advance, Crash]);
    ExecOne(db1, [Begin(cuts), Advance, Advance, Crash]);
    ExecOne(EMPTY, [Insert(id, p), Begin(cuts), Advance, Advance, Crash]);
  }

  lemma LoneAt(id: Id, p: Payload, daily: Tree)
    ensures Lone(0, id, p) == [map[id := p], map[], map[], map[]]
    ensures Lone(0, id, p)[1 := map[] + daily] == [map[id := p], daily, map[], map[]]
    ensures forall q :: Twice(id, p, q) == [map[id := p], map[id := q], map[], map[]]
  {
    assert map[] + daily == daily;
  }

  lemma FirstOutput(db: Db, id: Id, p: Payload)
    requires Shape(db) && db.pc == Busy(0, 0, Nothing) && db.tiers[0] == map[id := p]
    requires id.kind == Net && Below(id, db.marks[0])
    ensures OfKind(StageOutput(db), Net) == map[id := Aggregate([p])]
  {
    hide Below, Aggregate, RolledUp, Heads;
    LoneHead(id, p, db.marks[0], Day);
  }

  lemma ExecOne(db: Db, es: seq<Event>)
    requires es != [] && Enabled(db, es[0]) && ValidRun(Step(db, es[0]), es[1..])
    ensures ValidRun(db, es) && Exec(db, es) == Exec(Step(db, es[0]), es[1..])
  {}

  // ----- A rerun with the same cutoffs ends as if nothing had happened

  /** The stages already carried out have nothing left to do. */
  ghost predicate QuietBefore(db: Db)
    requires Shape(db)
  {
    db.pc.Busy? ==> forall j, id :: 0 <= j < db.pc.stage && id in db.tiers[j] ==> !Below(id, db.marks[j])
  }

  lemma {:induction false} StagesDone(tiers: seq<Tree>, cuts: seq<int>, n: nat)
    requires |tiers| == 4 && |cuts| == 4 && n <= 3
    requires forall j, id :: 0 <= j < n && id in tiers[j] ==> !Below(id, cuts[j])
    ensures AfterStages(tiers, cuts, n) == tiers
    decreases n
  {
    hide Below, StageTiers;
    if n > 0 {
      StagesDone(tiers, cuts, n - 1);
      StageOnQuiet(tiers, n - 1, cuts[n - 1]);
    }
  }

  lemma {:induction false} SameFromStage(a: seq<Tree>, b: seq<Tree>, cuts: seq<int>, n: nat, m: nat)
    requires |a| == 4 && |b| == 4 && |cuts| == 4 && n <= m <= 3
    requires AfterStages(a, cuts, n) == AfterStages(b, cuts, n)
    ensures AfterStages(a, cuts, m) == AfterStages(b, cuts, m)
    decreases m
  {
    hide StageTiers;
    if n < m {
      SameFromStage(a, b, cuts, n, m - 1);
    }
  }

  lemma WriteKeepsScrubbed(db: Db)
    requires Inv(db) && db.pc.Busy? && db.pc.staged.Writes?
    ensures Scrubbed(AdvanceStep(db).tiers) == Scrubbed(db.tiers)
  {
    hide Adjacent, AllPrecede, PcInv, Below, Heads, RolledUp, WellTyped;
    BatchFacts(db);
    var stage, batch, tiers' := db.pc.stage, db.pc.staged.batch, AdvanceStep(db).tiers;
    if stage < 2 {
      PrecedeMeansDisjoint(db.tiers[stage], db.tiers[stage + 2]);
    }
    var a, b := Scrubbed(tiers'), Scrubbed(db.tiers);
    assert forall i :: 0 <= i < 4 ==> a[i] == b[i];
  }

  lemma WriteKeepsTarget(db: Db)
    requires Inv(db) && db.pc.Busy? && db.pc.staged.Writes?
    ensures SweepTiers(AdvanceStep(db).tiers, db.marks) == SweepTiers(db.tiers, db.marks)
  {
    hide TreesInv, PcInv, SweepTiers, Scrubbed, AdvanceStep;
    WriteKeepsInv(db);
    WriteKeepsMarks(db);
    WriteKeepsScrubbed(db);
    RerunSame(db);
    RerunSame(AdvanceStep(db));
  }

  lemma WriteKeepsMarks(db: Db)
    requires Shape(db) && db.pc.Busy? && db.pc.staged.Writes?
    ensures AdvanceStep(db).marks == db.marks
  {}

  lemma RerunSame(db: Db)
    requires Inv(db)
    ensures SweepTiers(db.tiers, db.marks) == SweepTiers(Scrubbed(db.tiers), db.marks)
  {
    hide TreesInv, PcInv, SweepTiers, Scrubbed;
    CrashKeepsInv(db);
    RerunForgetsLeftovers(Step(db, Crash), db.marks);
  }

  lemma DeleteKeepsTarget(db: Db)
    requires Inv(db) && QuietBefore(db) && db.pc.Busy? && db.pc.staged.Removes?
    ensures SweepTiers(AdvanceStep(db).tiers, db.marks) == SweepTiers(db.tiers, db.marks)
    ensures QuietBefore(AdvanceStep(db))
  {
    hide TreesInv, Below, RolledUp, SettledAt, StageTiers;
    var stage, tiers, tiers', marks := db.pc.stage, db.tiers, AdvanceStep(db).tiers, db.marks;
    StagesDone(tiers, marks, stage);
    assert tiers' == tiers[stage := Remaining(tiers[stage], marks[stage])];
    if stage == 3 {
      SweepIdempotent(tiers, marks);
    } else {
      StageOfWritten(db);
      assert AfterStages(tiers, marks, stage + 1) == StageTiers(tiers, stage, marks[stage]) == tiers';
      StagesDone(tiers', marks, stage + 1);
      SameFromStage(tiers, tiers', marks, stage + 1, 3);
    }
  }

  lemma StageOfWritten(db: Db)
    requires Inv(db) && db.pc.Busy? && db.pc.staged.Removes? && db.pc.stage < 3
    ensures var stage := db.pc.stage;
      StageTiers(db.tiers, stage, db.marks[stage]) == db.tiers[stage := Remaining(db.tiers[stage], db.marks[stage])]
  {
    hide Below, RolledUp, Remaining, Heads, AllPrecede, Adjacent, WellTyped, ConsumedIds;
    LeftoversAreOutput(db);
    var t, output := db.tiers[db.pc.stage + 1], StageOutput(db);
    assert t + output == t;
  }

  lemma InsertKeepsTarget(tiers: seq<Tree>, cuts: seq<int>, id: Id, p: Payload, n: nat)
    requires |tiers| == 4 && |cuts| == 4 && n <= 3 && !Below(id, cuts[0])
    ensures var r := AfterStages(tiers, cuts, n);
      AfterStages(tiers[0 := tiers[0][id := p]], cuts, n) == r[0 := r[0][id := p]]
    decreases n
  {
    hide Below, RolledUp;
    var tiers' := tiers[0 := tiers[0][id := p]];
    if n == 1 {
      RolledUpIgnoresLater(tiers[0], cuts[0], Day, id, p);
      ConsumedIgnoresLater(tiers[0], cuts[0], id, p);
      assert AfterStages(tiers, cuts, 0) == tiers && AfterStages(tiers', cuts, 0) == tiers';
      assert Remaining(tiers'[0], cuts[0]) == Remaining(tiers[0], cuts[0])[id := p];
    } else if n > 1 {
      InsertKeepsTarget(tiers, cuts, id, p, n - 1);
    }
  }

  lemma StepKeepsTarget(db: Db, e: Event)
    requires Inv(db) && QuietBefore(db) && Enabled(db, e) && (e.Insert? || e.Advance?)
    ensures Step(db, e).marks == db.marks && QuietBefore(Step(db, e))
    ensures var r := SweepTiers(db.tiers, db.marks);
      SweepTiers(Step(db, e).tiers, db.marks) == r[0 := Noted(r[0], e)]
  {
    hide TreesInv, Below, AfterStages, StageOutput, OfKind, ConsumedIds, SettledAt, Written, Expire;
    var r := SweepTiers(db.tiers, db.marks);
    match e
    case Insert(id, p) =>
      InsertKeepsTarget(db.tiers, db.marks, id, p, 3);
      InsertBeforeExpiry(AfterStages(db.tiers, db.marks, 3), db.marks[3], id, p);
    case Advance =>
      assert r[0 := r[0]] == r;
      if db.pc.staged.Writes? {
        WriteKeepsTarget(db);
        BatchStage(db);
      } else if db.pc.staged.Removes? {
        DeleteKeepsTarget(db);
      }
  }

  lemma InsertBeforeExpiry(r: seq<Tree>, cutoff: int, id: Id, p: Payload)
    requires |r| == 4
    ensures Expire(r[0 := r[0][id := p]], cutoff) == Expire(r, cutoff)[0 := r[0][id := p]]
    ensures Expire(r, cutoff)[0] == r[0]
  {}

  lemma BatchStage(db: Db)
    requires Inv(db) && QuietBefore(db) && db.pc.Busy? && db.pc.staged.Writes?
    ensures AdvanceStep(db).marks == db.marks && QuietBefore(AdvanceStep(db))
  {
    hide TreesInv, Below, StageOutput, OfKind, SettledAt, Written;
  }

  lemma {:induction false} RunKeepsTarget(db: Db, es: seq<Event>)
    requires Inv(db) && QuietBefore(db) && ValidRun(db, es) && forall e :: e in es ==> e.Insert? || e.Advance?
    ensures |Exec(db, es).tiers| == 4
    ensures var r := SweepTiers(db.tiers, db.marks);
      SweepTiers(Exec(db, es).tiers, db.marks) == r[0 := Ledger(r[0], es)]
    decreases |es|
  {
    hide TreesInv, PcInv, Step, Enabled, SweepTiers, QuietBefore, Noted;
    if es != [] {
      assert es[0] in es;
      StepKeepsTarget(db, es[0]);
      StepKeepsInv(db, es[0]);
      RunKeepsTarget(Step(db, es[0]), es[1..]);
    }
  }

  /** Stop a sweep after any number of its batches, with any inserts between them, and sweep again with
      the same cutoffs: the four trees are exactly those of an uninterrupted sweep, plus the inserts. */
  lemma RerunAsUninterrupted(db: Db, cuts: seq<int>, es: seq<Event>)
    requires Inv(db) && Enabled(db, Begin(cuts)) && ValidRun(Step(db, Begin(cuts)), es)
    requires forall e :: e in es ==> e.Insert? || e.Advance?
    ensures |Exec(Step(db, Begin(cuts)), es).tiers| == 4
    ensures var r := SweepTiers(db.tiers, cuts);
      SweepTiers(Exec(Step(db, Begin(cuts)), es).tiers, cuts) == r[0 := Ledger(r[0], es)]
  {
    hide TreesInv, PcInv, SweepTiers, Exec, ValidRun, Ledger;
    StepKeepsInv(db, Begin(cuts));
    RunKeepsTarget(Step(db, Begin(cuts)), es);
  }
}
