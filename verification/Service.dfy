/** The storage layer in service: inserts and sweeps on the byte-keyed trees, at a clock that never goes
    back, are a run of the sweep machine, so all that holds of its runs holds of the class. */
module Service {
  import opened Metrics
  import opened Calendar
  import opened Tiers
  import opened Stages
  import opened Sweep
  import opened Storage
  import opened History

  datatype Op = Put(r: Record) | Clean(now: u64)

  /** The callers' side: records are newer than the raw cutoff of the last sweep, sweeps happen in time
      order, and the months kept do not reach before 1970. */
  predicate Orderly(last: Option<u64>, ops: seq<Op>, c: TieredConfig)
    decreases |ops|
  {
    ops != [] ==>
      match ops[0]
      case Put(r) => (last.Some? ==> !Below(IdOf(r), CutsAt(last.value, c)[0])) && Orderly(last, ops[1..], c)
      case Clean(now) =>
        && Representable(now) && c.monthlyKeepMonths <= MonthsSinceEpoch(now)
        && (last.Some? ==> last.value <= now) && Orderly(Some(now), ops[1..], c)
  }

  /** What the operations do to the trees. */
  ghost function TiersAfter(tiers: seq<Tree>, ops: seq<Op>, c: TieredConfig): (r: seq<Tree>)
    requires |tiers| == 4
    ensures |r| == 4
    decreases |ops|
  {
    if ops == [] then tiers
    else if ops[0].Put? then TiersAfter(tiers[0 := tiers[0][IdOf(ops[0].r) := ops[0].r.payload]], ops[1..], c)
    else TiersAfter(SweepTiers(tiers, CutsAt(ops[0].now, c)), ops[1..], c)
  }

  /** Carrying them out on the class. */
  method Serve(store: StorageLayer, ops: seq<Op>, c: TieredConfig)
    requires store.Valid() && ValidConfig(c)
    modifies store
    ensures store.Valid() && store.Contents() == TiersAfter(old(store.Contents()), ops, c)
  {
    hide SweepTiers, CutsAt, Abs, Keyed, Aggregated, Deleted;
    ghost var end := TiersAfter(store.Contents(), ops, c);
    assert ops[0..] == ops;
    for n := 0 to |ops|
      invariant store.Valid() && TiersAfter(store.Contents(), ops[n..], c) == end
    {
      assert ops[n..][0] == ops[n] && ops[n..][1..] == ops[n + 1..];
      match ops[n] {
        case Put(r) => store.InsertMetric(r);
        case Clean(now) => var _ := store.CleanupTiered(now, c);
      }
    }
    assert ops[|ops|..] == [];
  }

  // ----- The same operations as events

  function EventsOf(ops: seq<Op>, c: TieredConfig): seq<Event> {
    if ops == [] then [] else EventsOfOne(ops[0], c) + EventsOf(ops[1..], c)
  }

  function EventsOfOne(op: Op, c: TieredConfig): seq<Event> {
    match op
    case Put(r) => [Insert(IdOf(r), r.payload)]
    case Clean(now) => [Begin(CutsAt(now, c))] + Advances(56)
  }

  lemma {:induction false} RunConcat(db: Db, a: seq<Event>, b: seq<Event>)
    requires ValidRun(db, a) && ValidRun(Exec(db, a), b)
    ensures ValidRun(db, a + b) && Exec(db, a + b) == Exec(Exec(db, a), b)
    decreases |a|
  {
    hide Step, Enabled;
    if a == [] {
      assert a + b == b;
    } else {
      assert (a + b)[1..] == a[1..] + b;
      RunConcat(Step(db, a[0]), a[1..], b);
    }
  }

  lemma {:induction false} ExecAdvances(db: Db, n: nat)
    requires Shape(db) && ValidRun(db, Advances(n))
    ensures Exec(db, Advances(n)) == AdvanceBy(db, n)
    decreases n
  {
    hide AdvanceStep;
    if n > 0 {
      var es := Advances(n);
      assert es[0] == Advance && es[1..] == Advances(n - 1);
      ExecAdvances(AdvanceStep(db), n - 1);
    }
  }

  /** A sweep begun and left alone is a run that ends idle with the swept trees. */
  lemma CleanIsRun(db: Db, cuts: seq<int>)
    requires Inv(db) && Enabled(db, Begin(cuts))
    ensures var es := [Begin(cuts)] + Advances(56);
      ValidRun(db, es) && Exec(db, es) == Db(SweepTiers(db.tiers, cuts), cuts, Idle)
  {
    hide TreesInv, PcInv, SweepTiers, AdvanceBy, ValidRun, Exec;
    var es, db0 := [Begin(cuts)] + Advances(56), Step(db, Begin(cuts));
    StepKeepsInv(db, Begin(cuts));
    SweepTerminates(db0);
    SweepRun(db, cuts);
    ExecAdvances(db0, 56);
    assert es[1..] == Advances(56);
    ExecOne(db, es);
  }

  /** The marks the machine has after the last sweep. */
  function MarksOf(last: Option<u64>, c: TieredConfig): seq<int> {
    if last.None? then EMPTY.marks else CutsAt(last.value, c)
  }

  lemma CleanEnabled(db: Db, last: Option<u64>, now: u64, c: TieredConfig)
    requires Shape(db) && db.pc.Idle? && db.marks == MarksOf(last, c) && Representable(now)
    requires last.Some? ==> last.value <= now && c.monthlyKeepMonths <= MonthsSinceEpoch(last.value)
    ensures Enabled(db, Begin(CutsAt(now, c)))
  {
    hide CutsAt, Representable, MonthsSinceEpoch;
    if last.Some? {
      CutsAdvance(last.value, now, c);
    }
  }

  /** Every orderly sequence of operations is a valid run of the machine, which ends with the same trees. */
  lemma {:induction false} ServiceIsRun(db: Db, last: Option<u64>, ops: seq<Op>, c: TieredConfig)
    requires Inv(db) && db.pc.Idle? && db.marks == MarksOf(last, c) && Orderly(last, ops, c)
    requires last.Some? ==> c.monthlyKeepMonths <= MonthsSinceEpoch(last.value)
    ensures ValidRun(db, EventsOf(ops, c))
    ensures Exec(db, EventsOf(ops, c)).tiers == TiersAfter(db.tiers, ops, c) && Exec(db, EventsOf(ops, c)).pc.Idle?
    decreases |ops|
  {
    hide TreesInv, PcInv, SweepTiers, CutsAt, Representable, MonthsSinceEpoch, Below, Advances;
    if ops != [] {
      var op := ops[0];
      var one := EventsOfOne(op, c);
      var db' := OneOp(db, last, op, c);
      ServiceIsRun(db', if op.Clean? then Some(op.now) else last, ops[1..], c);
      RunConcat(db, one, EventsOf(ops[1..], c));
    }
  }

  lemma OneOp(db: Db, last: Option<u64>, op: Op, c: TieredConfig) returns (db': Db)
    requires Inv(db) && db.pc.Idle? && db.marks == MarksOf(last, c)
    requires last.Some? ==> c.monthlyKeepMonths <= MonthsSinceEpoch(last.value)
    requires op.Put? && last.Some? ==> !Below(IdOf(op.r), CutsAt(last.value, c)[0])
    requires op.Clean? ==> Representable(op.now) && (last.Some? ==> last.value <= op.now)
    ensures ValidRun(db, EventsOfOne(op, c)) && Exec(db, EventsOfOne(op, c)) == db'
    ensures Inv(db') && db'.pc.Idle? && db'.tiers == TiersAfter(db.tiers, [op], c)
    ensures db'.marks == MarksOf(if op.Clean? then Some(op.now) else last, c)
  {
    hide TreesInv, PcInv, SweepTiers, CutsAt, Representable, MonthsSinceEpoch, Advances;
    assert [op][1..] == [];
    if op.Put? {
      var e := Insert(IdOf(op.r), op.r.payload);
      db' := Step(db, e);
      StepKeepsInv(db, e);
      assert [e][1..] == [];
      ExecOne(db, [e]);
    } else {
      CleanEnabled(db, last, op.now, c);
      CleanIsRun(db, CutsAt(op.now, c));
      db' := Exec(db, EventsOfOne(op, c));
      RunKeepsInv(db, EventsOfOne(op, c));
    }
  }

  // ----- So what is inserted is what is stored

  /** All the records put, a later one replacing an earlier one under the same key. */
  function Puts(all: Tree, ops: seq<Op>): Tree
    decreases |ops|
  {
    if ops == [] then all
    else Puts(if ops[0].Put? then all[IdOf(ops[0].r) := ops[0].r.payload] else all, ops[1..])
  }

  lemma {:induction false} LedgerConcat(all: Tree, a: seq<Event>, b: seq<Event>)
    ensures Ledger(all, a + b) == Ledger(Ledger(all, a), b)
    decreases |a|
  {
    if a == [] {
      assert a + b == b;
    } else {
      assert (a + b)[1..] == a[1..] + b;
      LedgerConcat(Noted(all, a[0]), a[1..], b);
    }
  }

  lemma {:induction false} LedgerOfAdvances(all: Tree, n: nat)
    ensures Ledger(all, Advances(n)) == all
    decreases n
  {
    if n > 0 {
      assert Advances(n)[1..] == Advances(n - 1);
      LedgerOfAdvances(all, n - 1);
    }
  }

  lemma {:induction false} LedgerIsPuts(all: Tree, ops: seq<Op>, c: TieredConfig)
    ensures Ledger(all, EventsOf(ops, c)) == Puts(all, ops)
    decreases |ops|
  {
    hide CutsAt, Advances;
    if ops != [] {
      var one := EventsOfOne(ops[0], c);
      LedgerConcat(all, one, EventsOf(ops[1..], c));
      assert one[1..] == if ops[0].Put? then [] else Advances(56);
      LedgerOfAdvances(all, 56);
      LedgerIsPuts(Ledger(all, one), ops[1..], c);
    }
  }

  lemma {:induction false} BeginsAreCleans(ops: seq<Op>, c: TieredConfig, e: Event)
    requires e in EventsOf(ops, c) && e.Begin?
    ensures exists op :: op in ops && op.Clean? && e.cuts == CutsAt(op.now, c)
    decreases |ops|
  {
    hide CutsAt;
    if e in EventsOfOne(ops[0], c) {
      assert ops[0] in ops;
    } else {
      BeginsAreCleans(ops[1..], c, e);
    }
  }

  /** The storage layer itself, from an empty store: joining all it holds of a year gives the sums, last
      values and first values of everything put for that year. */
  lemma ServedHistory(z: Series, ops: seq<Op>, c: TieredConfig)
    requires Orderly(None, ops, c)
    requires forall op :: op in ops && op.Clean? ==> CutsAt(op.now, c)[3] < z.year
    ensures var puts := Puts(map[], ops);
      Story(z, TiersAfter([map[], map[], map[], map[]], ops, c)) == Summary(Timeline(puts, InSeries(z, puts.Keys)))
  {
    hide Inv, Exec, ValidRun, Story, Summary, Timeline, Ledger, Puts, TiersAfter, EventsOf, CutsAt, Orderly;
    EmptyInv();
    ServiceIsRun(EMPTY, None, ops, c);
    LedgerIsPuts(map[], ops, c);
    forall e | e in EventsOf(ops, c) && e.Begin? ensures |e.cuts| == 4 && e.cuts[3] < z.year {
      BeginsAreCleans(ops, c, e);
    }
    HistoryFromStart(z, EventsOf(ops, c));
  }
}
