/** The user-space collectors: each poll reads the cumulative kernel counters and emits what was added
    since the previous poll. */
module Collectors {
  import opened Metrics
  import opened Aggregation
  import opened Kernel

  /** The program's name for records whose process name is empty. */
  const UNKNOWN_APP: Bytes := [40, 117, 110, 107, 110, 111, 119, 110, 41]

  /** The position of the first zero byte, or the whole length. */
  function TextLength(c: seq<byte>): (n: nat)
    ensures n <= |c| && (forall i :: 0 <= i < n ==> c[i] != 0) && (n < |c| ==> c[n] == 0)
  {
    if c == [] || c[0] == 0 then 0 else 1 + TextLength(c[1..])
  }

  /** The app name of a process name; `decode` is the lossy conversion of its bytes to text. */
  function AppName(c: Comm, decode: Bytes -> Bytes): Bytes {
    var n := TextLength(c);
    if n == 0 then UNKNOWN_APP else decode(c[..n])
  }

  /** A process name as the kernel pads it: zeros after the first zero. */
  predicate ZeroPadded(c: Comm) {
    forall i :: TextLength(c) <= i < 16 ==> c[i] == 0
  }

  /** Zero-padded names that decode without loss, and are not spelled like the placeholder, keep
      distinct app names. */
  lemma AppNamesDistinct(c: Comm, c': Comm, decode: Bytes -> Bytes)
    requires ZeroPadded(c) && ZeroPadded(c') && AppName(c, decode) == AppName(c', decode)
    requires forall d :: d == c || d == c' ==> decode(d[..TextLength(d)]) == d[..TextLength(d)] != UNKNOWN_APP
    ensures c == c'
  {
    var n, n' := TextLength(c), TextLength(c');
    assert c[..n] == c'[..n'];
    assert n == n';
    forall i | 0 <= i < 16 ensures c[i] == c'[i] {
      if i < n {
        assert c[i] == c[..n][i] && c'[i] == c'[..n'][i];
      }
    }
  }

  // ----- One poll

  /** What iterating the kernel map yields: entries, any of which may fail to be read. */
  datatype Entry = Entry(comm: Comm, first: u64, second: u64) | ReadError

  type Snapshot = map<Bytes, (u64, u64)>

  function Previous(prev: Snapshot, app: Bytes): (u64, u64) {
    if app in prev then prev[app] else (0, 0)
  }

  /** What one app added since the previous poll. */
  datatype Delta = Delta(app: Bytes, first: u64, second: u64)

  function DeltaOf(prev: Snapshot, e: Entry, decode: Bytes -> Bytes): Delta
    requires e.Entry?
  {
    var app := AppName(e.comm, decode);
    Delta(app, SatSub(e.first, Previous(prev, app).0), SatSub(e.second, Previous(prev, app).1))
  }

  predicate Readable(es: seq<Entry>) {
    forall i :: 0 <= i < |es| ==> es[i].Entry?
  }

  /** The non-zero deltas, in iteration order. */
  function Deltas(prev: Snapshot, es: seq<Entry>, decode: Bytes -> Bytes): seq<Delta>
    requires Readable(es)
  {
    if es == [] then []
    else
      var d := DeltaOf(prev, es[|es| - 1], decode);
      Deltas(prev, es[..|es| - 1], decode) + (if d.first > 0 || d.second > 0 then [d] else [])
  }

  /** The counters read, by app name; of two entries with one name the later wins. */
  function SnapshotOf(es: seq<Entry>, decode: Bytes -> Bytes): Snapshot
    requires Readable(es)
  {
    if es == [] then map[]
    else
      var e := es[|es| - 1];
      SnapshotOf(es[..|es| - 1], decode)[AppName(e.comm, decode) := (e.first, e.second)]
  }

  function NetRecord(d: Delta, now: u64): Record {
    Record(d.app, now, NetPayload(NetworkData(d.first, d.second, 0)))
  }

  function DiskRecord(d: Delta, now: u64): Record {
    Record(d.app, now, DskPayload(DiskData(d.first, d.second, [])))
  }

  /** The share of all cores' capacity over the interval, in percent. */
  function UsagePercent(deltaNs: u64, capacityNs: u64): real {
    if capacityNs > 0 then deltaNs as real / capacityNs as real * 100.0 else 0.0
  }

  function CpuRecord(d: Delta, now: u64, capacityNs: u64): Record {
    Record(d.app, now, CpuPayload(CpuData(d.first, UsagePercent(d.first, capacityNs), 1)))
  }

  function Mapped<T, U>(f: T -> U, s: seq<T>): (r: seq<U>)
    ensures |r| == |s|
  {
    seq(|s|, i requires 0 <= i < |s| => f(s[i]))
  }

  /** What one more entry adds to the deltas and to the snapshot. */
  lemma PollStep(prev: Snapshot, es: seq<Entry>, decode: Bytes -> Bytes, n: nat)
    requires n < |es| && Readable(es[..n]) && es[n].Entry?
    ensures Readable(es[..n + 1])
    ensures SnapshotOf(es[..n + 1], decode)
         == SnapshotOf(es[..n], decode)[AppName(es[n].comm, decode) := (es[n].first, es[n].second)]
    ensures var d, ds := DeltaOf(prev, es[n], decode), Deltas(prev, es[..n], decode);
      Deltas(prev, es[..n + 1], decode) == if d.first > 0 || d.second > 0 then ds + [d] else ds
  {
    hide AppName, DeltaOf;
    assert es[..n + 1][..n] == es[..n];
    assert Deltas(prev, es[..n], decode) + [] == Deltas(prev, es[..n], decode);
  }

  lemma PollStart(prev: Snapshot, es: seq<Entry>, decode: Bytes -> Bytes)
    ensures Readable(es[..0]) && SnapshotOf(es[..0], decode) == map[] && Deltas(prev, es[..0], decode) == []
  {}

  lemma MappedSnoc<T, U>(f: T -> U, s: seq<T>, x: T)
    ensures Mapped(f, s + [x]) == Mapped(f, s) + [f(x)]
  {}

  class NetworkCollector {
    var prevState: Snapshot

    constructor ()
      ensures prevState == map[]
    {
      prevState := map[];
    }

    /** A poll either reads every entry, emits the deltas and remembers the counters, or fails on an
        unreadable entry and changes nothing. */
    method CollectNetwork(es: seq<Entry>, now: u64, decode: Bytes -> Bytes) returns (r: Option<seq<Record>>)
      modifies this
      ensures !Readable(es) ==> r == None && prevState == old(prevState)
      ensures Readable(es) ==>
                && prevState == SnapshotOf(es, decode)
                && r == Some(Mapped(d => NetRecord(d, now), Deltas(old(prevState), es, decode)))
    {
      hide AppName, Deltas, SnapshotOf, SatSub, Mapped;
      ghost var toRecord := d => NetRecord(d, now);
      PollStart(prevState, es, decode);
      var records, newState: Snapshot := [], map[];
      assert Mapped(toRecord, []) == [];
      for n := 0 to |es|
        invariant Readable(es[..n]) && prevState == old(prevState)
        invariant newState == SnapshotOf(es[..n], decode)
        invariant records == Mapped(toRecord, Deltas(prevState, es[..n], decode))
      {
        if es[n].ReadError? {
          return None;
        }
        PollStep(prevState, es, decode, n);
        MappedSnoc(toRecord, Deltas(prevState, es[..n], decode), DeltaOf(prevState, es[n], decode));
        var app := AppName(es[n].comm, decode);
        var (prevTx, prevRx) := Previous(prevState, app);
        var tx, rx := SatSub(es[n].first, prevTx), SatSub(es[n].second, prevRx);
        if tx > 0 || rx > 0 {
          records := records + [Record(app, now, NetPayload(NetworkData(tx, rx, 0)))];
        }
        newState := newState[app := (es[n].first, es[n].second)];
      }
      assert es[..|es|] == es;
      prevState := newState;
      r := Some(records);
    }
  }

  class DiskCollector {
    var prevRead: map<Bytes, u64>
    var prevWrite: map<Bytes, u64>

    /** The two maps always have the same keys. */
    ghost predicate Valid()
      reads this
    {
      prevRead.Keys == prevWrite.Keys
    }

    ghost function State(): Snapshot
      requires Valid()
      reads this
    {
      map app | app in prevRead :: (prevRead[app], prevWrite[app])
    }

    constructor ()
      ensures Valid() && State() == map[]
    {
      prevRead, prevWrite := map[], map[];
    }

    method CollectDisk(es: seq<Entry>, now: u64, decode: Bytes -> Bytes) returns (r: Option<seq<Record>>)
      requires Valid()
      modifies this
      ensures Valid()
      ensures !Readable(es) ==> r == None && State() == old(State())
      ensures Readable(es) ==>
                && State() == SnapshotOf(es, decode)
                && r == Some(Mapped(d => DiskRecord(d, now), Deltas(old(State()), es, decode)))
    {
      hide AppName, SatSub, Deltas, SnapshotOf, Mapped;
      ghost var toRecord, state := d => DiskRecord(d, now), State();
      PollStart(state, es, decode);
      var records := [];
      assert Mapped(toRecord, []) == [];
      var newRead: map<Bytes, u64>, newWrite: map<Bytes, u64> := map[], map[];
      for n := 0 to |es|
        invariant Readable(es[..n]) && prevRead == old(prevRead) && prevWrite == old(prevWrite)
        invariant newRead.Keys == newWrite.Keys == SnapshotOf(es[..n], decode).Keys
        invariant forall app :: app in newRead ==> SnapshotOf(es[..n], decode)[app] == (newRead[app], newWrite[app])
        invariant records == Mapped(toRecord, Deltas(state, es[..n], decode))
      {
        if es[n].ReadError? {
          return None;
        }
        PollStep(state, es, decode, n);
        MappedSnoc(toRecord, Deltas(state, es[..n], decode), DeltaOf(state, es[n], decode));
        var app := AppName(es[n].comm, decode);
        var prevR := if app in prevRead then prevRead[app] else 0;
        var prevW := if app in prevWrite then prevWrite[app] else 0;
        assert Previous(state, app) == (prevR, prevW);
        var deltaR, deltaW := SatSub(es[n].first, prevR), SatSub(es[n].second, prevW);
        if deltaR > 0 || deltaW > 0 {
          records := records + [Record(app, now, DskPayload(DiskData(deltaR, deltaW, [])))];
        }
        newRead, newWrite := newRead[app := es[n].first], newWrite[app := es[n].second];
      }
      assert es[..|es|] == es;
      prevRead, prevWrite := newRead, newWrite;
      r := Some(records);
    }
  }

  /** Iterating the CPU map: one counter per entry. */
  datatype CpuEntry = CpuEntry(comm: Comm, cpuTimeNs: u64) | CpuReadError

  /** A CPU entry as a pair of counters whose second is always zero. */
  function AsEntry(e: CpuEntry): Entry {
    if e.CpuReadError? then ReadError else Entry(e.comm, e.cpuTimeNs, 0)
  }

  function AsEntries(es: seq<CpuEntry>): (r: seq<Entry>)
    ensures |r| == |es|
  {
    seq(|es|, i requires 0 <= i < |es| => AsEntry(es[i]))
  }

  class CpuCollector {
    var prevState: map<Bytes, u64>
    const numCores: u64

    ghost function State(): Snapshot
      reads this
    {
      map app | app in prevState :: (prevState[app], 0)
    }

    constructor (cores: u64)
      ensures State() == map[] && numCores == cores
    {
      prevState, numCores := map[], cores;
    }

    /** All cores' time over the interval, up to the 64-bit ceiling. */
    function CapacityNs(intervalNs: u64): (capacity: u64)
      ensures capacity == Capped(intervalNs * numCores)
    {
      if intervalNs * numCores < U64_LIMIT then intervalNs * numCores else U64_LIMIT - 1
    }

    /** Entries named `swapper…` are read like all others: skipping them only skips the rest of the
        inner loop over ignored names. */
    method CollectCpu(es: seq<CpuEntry>, now: u64, intervalNs: u64, decode: Bytes -> Bytes)
      returns (r: Option<seq<Record>>)
      modifies this
      ensures !Readable(AsEntries(es)) ==> r == None && State() == old(State())
      ensures Readable(AsEntries(es)) ==>
                && State() == SnapshotOf(AsEntries(es), decode)
                && r == Some(Mapped(d => CpuRecord(d, now, CapacityNs(intervalNs)),
                                    Deltas(old(State()), AsEntries(es), decode)))
    {
      hide AppName, UsagePercent, CapacityNs, SatSub, Deltas, SnapshotOf, Mapped;
      ghost var all, state := AsEntries(es), State();
      var capacity := CapacityNs(intervalNs);
      ghost var toRecord := d => CpuRecord(d, now, capacity);
      PollStart(state, all, decode);
      var records, newState: map<Bytes, u64> := [], map[];
      assert Mapped(toRecord, []) == [];
      for n := 0 to |es|
        invariant Readable(all[..n]) && prevState == old(prevState)
        invariant newState.Keys == SnapshotOf(all[..n], decode).Keys
        invariant forall app :: app in newState ==> SnapshotOf(all[..n], decode)[app] == (newState[app], 0)
        invariant records == Mapped(toRecord, Deltas(state, all[..n], decode))
      {
        assert all[n] == AsEntry(es[n]);
        if es[n].CpuReadError? {
          return None;
        }
        PollStep(state, all, decode, n);
        MappedSnoc(toRecord, Deltas(state, all[..n], decode), DeltaOf(state, all[n], decode));
        var app := AppName(es[n].comm, decode);
        var prevNs := if app in prevState then prevState[app] else 0;
        assert Previous(state, app) == (prevNs, 0);
        NothingToSubtract();
        var deltaNs := SatSub(es[n].cpuTimeNs, prevNs);
        if deltaNs > 0 {
          records := records + [Record(app, now, CpuPayload(CpuData(deltaNs, UsagePercent(deltaNs, capacity), 1)))];
        }
        newState := newState[app := es[n].cpuTimeNs];
      }
      assert all[..|es|] == all;
      prevState := newState;
      r := Some(records);
    }
  }

  lemma NothingToSubtract()
    ensures SatSub(0, 0) == 0
  {}

  // ----- Every byte is reported exactly once

  /** The kernel map, the collector's snapshot, and everything emitted so far. */
  datatype World = World(counters: ByteMap, prev: Snapshot, emitted: seq<Delta>)

  const START: World := World(map[], map[], [])

  /** Kernel activity between polls leaves the map in some later state; polls succeed or fail. */
  datatype Event = Counted(counters: ByteMap) | Poll(order: seq<Comm>) | FailedPoll

  /** Entries never vanish and counters never fall. */
  predicate Grows(m: ByteMap, m': ByteMap) {
    forall c :: c in m ==> c in m' && m[c].first <= m'[c].first && m[c].second <= m'[c].second
  }

  /** Network and disk probes only grow their map. */
  lemma BumpGrows(m: ByteMap, c: Comm, a: u64, b: u64)
    ensures Grows(m, Bump(m, c, a, b))
  {}

  /** The CPU map as the collector reads it: the stamp is not reported. */
  function CpuCounters(m: CpuMap): ByteMap {
    map c | c in m :: ByteStats(m[c].cpuTimeNs, 0)
  }

  /** A context switch only grows the reported counters. */
  lemma SwitchGrows(m: CpuMap, prev: Comm, next: Comm, now: u64)
    ensures Grows(CpuCounters(m), CpuCounters(SwitchCpu(m, prev, next, now)))
  {
    forall c | c in CpuCounters(m)
      ensures c in SwitchCpu(m, prev, next, now) && m[c].cpuTimeNs <= SwitchCpu(m, prev, next, now)[c].cpuTimeNs
    {
      if c != prev && c != next {
        SwitchKeepsOthers(m, prev, next, now, c);
      }
    }
  }

  function Entries(m: ByteMap, order: seq<Comm>): (es: seq<Entry>)
    requires forall c :: c in order ==> c in m
    ensures |es| == |order| && Readable(es)
  {
    seq(|order|, i requires 0 <= i < |order| => Entry(order[i], m[order[i]].first, m[order[i]].second))
  }

  /** An iteration visits every entry once, in some order. */
  predicate Visits(order: seq<Comm>, m: ByteMap) {
    && (forall c :: c in order ==> c in m) && (forall c :: c in m ==> c in order)
    && (forall i, j :: 0 <= i < j < |order| ==> order[i] != order[j])
  }

  predicate Enabled(w: World, e: Event) {
    match e
    case Counted(m) => Grows(w.counters, m)
    case Poll(order) => Visits(order, w.counters)
    case FailedPoll => true
  }

  function Step(w: World, e: Event, decode: Bytes -> Bytes): World
    requires Enabled(w, e)
  {
    match e
    case Counted(m) => w.(counters := m)
    case Poll(order) =>
      var es := Entries(w.counters, order);
      World(w.counters, SnapshotOf(es, decode), w.emitted + Deltas(w.prev, es, decode))
    case FailedPoll => w
  }

  predicate ValidRun(w: World, es: seq<Event>, decode: Bytes -> Bytes)
    decreases |es|
  {
    es == [] || (Enabled(w, es[0]) && ValidRun(Step(w, es[0], decode), es[1..], decode))
  }

  function Exec(w: World, es: seq<Event>, decode: Bytes -> Bytes): World
    requires ValidRun(w, es, decode)
    decreases |es|
  {
    if es == [] then w else Exec(Step(w, es[0], decode), es[1..], decode)
  }

  /** What the emitted deltas of one app add up to. */
  function Reported(app: Bytes, ds: seq<Delta>): (nat, nat) {
    if ds == [] then (0, 0)
    else
      var (a, b) := Reported(app, ds[..|ds| - 1]);
      var d := ds[|ds| - 1];
      if d.app == app then (a + d.first, b + d.second) else (a, b)
  }

  lemma {:induction false} ReportedConcat(app: Bytes, xs: seq<Delta>, ys: seq<Delta>)
    ensures Reported(app, xs + ys) ==
              (Reported(app, xs).0 + Reported(app, ys).0, Reported(app, xs).1 + Reported(app, ys).1)
  {
    if ys == [] {
      assert xs + ys == xs;
    } else {
      assert (xs + ys)[..|xs + ys| - 1] == xs + ys[..|ys| - 1];
      ReportedConcat(app, xs, ys[..|ys| - 1]);
    }
  }

  /** Different process names have different app names. */
  predicate NamesDistinct(m: ByteMap, decode: Bytes -> Bytes) {
    forall c, d :: c in m && d in m && AppName(c, decode) == AppName(d, decode) ==> c == d
  }

  predicate EntryNamesDistinct(es: seq<Entry>, decode: Bytes -> Bytes)
    requires Readable(es)
  {
    forall i, j :: 0 <= i < j < |es| ==> AppName(es[i].comm, decode) != AppName(es[j].comm, decode)
  }

  lemma {:induction false} SnapshotOfOne(es: seq<Entry>, decode: Bytes -> Bytes, k: nat)
    requires Readable(es) && EntryNamesDistinct(es, decode) && k < |es|
    ensures var app := AppName(es[k].comm, decode);
      app in SnapshotOf(es, decode) && SnapshotOf(es, decode)[app] == (es[k].first, es[k].second)
  {
    hide AppName;
    var init := es[..|es| - 1];
    if k < |init| {
      assert init[k] == es[k];
      SnapshotOfOne(init, decode, k);
    }
  }

  /** With distinct names, one poll reports for an app the delta of its one entry. */
  lemma {:induction false} PollOfOne(prev: Snapshot, es: seq<Entry>, decode: Bytes -> Bytes, k: nat)
    requires Readable(es) && EntryNamesDistinct(es, decode) && k < |es|
    ensures Reported(AppName(es[k].comm, decode), Deltas(prev, es, decode)) ==
              (DeltaOf(prev, es[k], decode).first, DeltaOf(prev, es[k], decode).second)
  {
    hide AppName, Reported, SatSub, SnapshotOf;
    var init, last := es[..|es| - 1], es[|es| - 1];
    var app, d := AppName(es[k].comm, decode), DeltaOf(prev, last, decode);
    var tail := if d.first > 0 || d.second > 0 then [d] else [];
    assert Deltas(prev, es, decode) == Deltas(prev, init, decode) + tail;
    ReportedConcat(app, Deltas(prev, init, decode), tail);
    ReportedShort(app, tail);
    if k < |init| {
      assert init[k] == es[k];
      PollOfOne(prev, init, decode, k);
    } else {
      PollOfNone(prev, init, decode, app);
    }
  }

  lemma ReportedShort(app: Bytes, ds: seq<Delta>)
    requires |ds| <= 1
    ensures Reported(app, ds) ==
              if |ds| == 1 && ds[0].app == app then (ds[0].first as nat, ds[0].second as nat) else (0, 0)
  {
    if |ds| == 1 {
      assert ds[..0] == [];
    }
  }

  lemma {:induction false} PollOfNone(prev: Snapshot, es: seq<Entry>, decode: Bytes -> Bytes, app: Bytes)
    requires Readable(es) && forall i :: 0 <= i < |es| ==> AppName(es[i].comm, decode) != app
    ensures Reported(app, Deltas(prev, es, decode)) == (0, 0) && app !in SnapshotOf(es, decode)
  {
    hide AppName;
    if es != [] {
      var init, last := es[..|es| - 1], es[|es| - 1];
      PollOfNone(prev, init, decode, app);
      var d := DeltaOf(prev, last, decode);
      var tail := if d.first > 0 || d.second > 0 then [d] else [];
      ReportedConcat(app, Deltas(prev, init, decode), tail);
      ReportedShort(app, tail);
    }
  }

  /** What is reported for an app is what the snapshot remembers, and the counter has not fallen behind. */
  predicate InStep(w: World, decode: Bytes -> Bytes, c: Comm) {
    var app := AppName(c, decode);
    var (a, b) := Previous(w.prev, app);
    && Reported(app, w.emitted) == (a, b)
    && (c in w.counters ==> a <= w.counters[c].first && b <= w.counters[c].second)
    && (c !in w.counters ==> (a, b) == (0, 0))
  }

  lemma EntriesDistinct(m: ByteMap, order: seq<Comm>, decode: Bytes -> Bytes)
    requires Visits(order, m) && NamesDistinct(m, decode)
    ensures EntryNamesDistinct(Entries(m, order), decode)
  {
    hide AppName;
    assert forall i :: 0 <= i < |order| ==> order[i] in order;
  }

  lemma PollKeepsInStep(w: World, order: seq<Comm>, decode: Bytes -> Bytes, c: Comm)
    requires Visits(order, w.counters) && NamesDistinct(w.counters, decode) && InStep(w, decode, c) && c in w.counters
    ensures var w' := Step(w, Poll(order), decode); var app := AppName(c, decode);
      && InStep(w', decode, c)
      && Reported(app, w'.emitted) == (w.counters[c].first as nat, w.counters[c].second as nat)
  {
    hide AppName, Reported, Deltas, SnapshotOf, NamesDistinct;
    var es := Entries(w.counters, order);
    EntriesDistinct(w.counters, order, decode);
    var k :| 0 <= k < |order| && order[k] == c;
    PollOfOne(w.prev, es, decode, k);
    SnapshotOfOne(es, decode, k);
    ReportedConcat(AppName(c, decode), w.emitted, Deltas(w.prev, es, decode));
  }

  lemma PollIgnoresAbsent(w: World, order: seq<Comm>, decode: Bytes -> Bytes, c: Comm)
    requires Visits(order, w.counters) && InStep(w, decode, c)
    requires forall d :: d in w.counters ==> AppName(d, decode) != AppName(c, decode)
    ensures InStep(Step(w, Poll(order), decode), decode, c)
  {
    hide AppName, Reported, Deltas, SnapshotOf;
    var es := Entries(w.counters, order);
    assert forall i :: 0 <= i < |order| ==> order[i] in order;
    assert c !in w.counters;
    PollOfNone(w.prev, es, decode, AppName(c, decode));
    ReportedConcat(AppName(c, decode), w.emitted, Deltas(w.prev, es, decode));
  }

  lemma {:induction false} CountersGrow(w: World, es: seq<Event>, decode: Bytes -> Bytes)
    requires ValidRun(w, es, decode)
    ensures w.counters.Keys <= Exec(w, es, decode).counters.Keys
    decreases |es|
  {
    hide AppName, Entries, Deltas, SnapshotOf;
    if es != [] {
      CountersGrow(Step(w, es[0], decode), es[1..], decode);
    }
  }

  /** Over every interleaving of kernel events with successful and failed polls, the deltas emitted for
      an app add up to what its snapshot remembers, never more than its kernel counter. */
  lemma {:induction false} ExactlyOnce(w: World, es: seq<Event>, decode: Bytes -> Bytes, c: Comm)
    requires ValidRun(w, es, decode) && InStep(w, decode, c)
    requires c in Exec(w, es, decode).counters && NamesDistinct(Exec(w, es, decode).counters, decode)
    ensures InStep(Exec(w, es, decode), decode, c)
    decreases |es|
  {
    hide AppName, Reported, Deltas, SnapshotOf, Entries;
    if es != [] {
      var e, w' := es[0], Step(w, es[0], decode);
      CountersGrow(w, es, decode);
      if e.Poll? {
        if c in w.counters {
          PollKeepsInStep(w, e.order, decode, c);
        } else {
          PollIgnoresAbsent(w, e.order, decode, c);
        }
      } else if e.Counted? {
        assert InStep(w', decode, c);
      }
      ExactlyOnce(w', es[1..], decode, c);
    }
  }

  /** From the start of monitoring: right after any successful poll, what has been reported for an app
      is exactly its kernel counter. */
  lemma PollCatchesUp(es: seq<Event>, order: seq<Comm>, decode: Bytes -> Bytes, c: Comm)
    requires ValidRun(START, es, decode)
    requires var w := Exec(START, es, decode);
      Visits(order, w.counters) && NamesDistinct(w.counters, decode) && c in w.counters
    ensures var w := Exec(START, es, decode);
      Reported(AppName(c, decode), Step(w, Poll(order), decode).emitted)
      == (w.counters[c].first as nat, w.counters[c].second as nat)
  {
    hide AppName, Exec, ValidRun, Deltas, SnapshotOf, Entries;
    assert InStep(START, decode, c);
    ExactlyOnce(START, es, decode, c);
    PollKeepsInStep(Exec(START, es, decode), order, decode, c);
  }

  // ----- What the kernel does between polls

  /** A process moves bytes, or the collector polls. */
  datatype Activity = Moved(t: Transfer) | Polled(order: seq<Comm>) | PollFailed

  function AsEvent(w: World, a: Activity): Event {
    match a
    case Moved(t) => Counted(Bump(w.counters, t.comm, t.first, t.second))
    case Polled(order) => Poll(order)
    case PollFailed => FailedPoll
  }

  predicate ValidActs(w: World, acts: seq<Activity>, decode: Bytes -> Bytes)
    decreases |acts|
  {
    acts == [] ||
    (Enabled(w, AsEvent(w, acts[0])) && ValidActs(Step(w, AsEvent(w, acts[0]), decode), acts[1..], decode))
  }

  function ExecActs(w: World, acts: seq<Activity>, decode: Bytes -> Bytes): World
    requires ValidActs(w, acts, decode)
    decreases |acts|
  {
    if acts == [] then w else ExecActs(Step(w, AsEvent(w, acts[0]), decode), acts[1..], decode)
  }

  /** The transfers among the activity. */
  function Transfers(acts: seq<Activity>): seq<Transfer> {
    if acts == [] then []
    else (if acts[0].Moved? then [acts[0].t] else []) + Transfers(acts[1..])
  }

  lemma {:induction false} BumpAllCons(m: ByteMap, t: Transfer, ts: seq<Transfer>)
    ensures BumpAll(m, [t] + ts) == BumpAll(Bump(m, t.comm, t.first, t.second), ts)
    decreases |ts|
  {
    hide Bump;
    var w := [t] + ts;
    if ts == [] {
      assert w[..|w| - 1] == [];
    } else {
      assert w[..|w| - 1] == [t] + ts[..|ts| - 1];
      BumpAllCons(m, t, ts[..|ts| - 1]);
    }
  }

  /** Such a run is a run of growing counters, and its map has counted the transfers. */
  lemma {:induction false} ActsAreRun(w: World, acts: seq<Activity>, decode: Bytes -> Bytes) returns (es: seq<Event>)
    requires ValidActs(w, acts, decode)
    ensures ValidRun(w, es, decode) && Exec(w, es, decode) == ExecActs(w, acts, decode)
    ensures ExecActs(w, acts, decode).counters == BumpAll(w.counters, Transfers(acts))
    decreases |acts|
  {
    hide Bump, Entries, Deltas, SnapshotOf, Enabled;
    if acts == [] {
      es := [];
    } else {
      var e := AsEvent(w, acts[0]);
      var rest := ActsAreRun(Step(w, e, decode), acts[1..], decode);
      es := [e] + rest;
      assert es[1..] == rest;
      if acts[0].Moved? {
        BumpAllCons(w.counters, acts[0].t, Transfers(acts[1..]));
      } else {
        assert Transfers(acts) == Transfers(acts[1..]);
      }
    }
  }

  /** End to end for the byte counters: over every interleaving of transfers with polls, right after a
      successful poll what has been reported for a tracked process is everything it moved, up to the
      64-bit ceiling. */
  lemma EveryByteReported(acts: seq<Activity>, order: seq<Comm>, decode: Bytes -> Bytes, c: Comm)
    requires ValidActs(START, acts, decode)
    requires var w := ExecActs(START, acts, decode);
      Visits(order, w.counters) && NamesDistinct(w.counters, decode) && c in w.counters
    ensures var w := ExecActs(START, acts, decode);
      Reported(AppName(c, decode), Step(w, Poll(order), decode).emitted)
      == (Capped(SentBy(c, Transfers(acts))) as nat, Capped(ReceivedBy(c, Transfers(acts))) as nat)
  {
    hide AppName, Exec, ValidRun, Deltas, SnapshotOf, Entries;
    hide BumpAll, SentBy, ReceivedBy, Reported, ExecActs, ValidActs;
    var es := ActsAreRun(START, acts, decode);
    PollCatchesUp(es, order, decode, c);
    CountersExact(c, Transfers(acts));
  }

  // ----- The same for CPU time

  /** A CPU switches tasks, or the collector polls. */
  datatype CpuActivity = Switched(e: Switch) | CpuPolled(order: seq<Comm>) | CpuPollFailed

  /** The machine the probe observes, and the collector reading its map. */
  datatype CpuWorld = CpuWorld(machine: Machine, prev: Snapshot, emitted: seq<Delta>)

  function AsWorld(w: CpuWorld): World {
    World(CpuCounters(w.machine.stats), w.prev, w.emitted)
  }

  function AsCpuEvent(w: CpuWorld, a: CpuActivity): Event
    requires a.Switched? ==> Kernel.Enabled(w.machine, a.e)
  {
    match a
    case Switched(e) => Counted(CpuCounters(Kernel.Step(w.machine, e).stats))
    case CpuPolled(order) => Poll(order)
    case CpuPollFailed => FailedPoll
  }

  predicate CpuEnabled(w: CpuWorld, a: CpuActivity) {
    (a.Switched? ==> Kernel.Enabled(w.machine, a.e)) && Enabled(AsWorld(w), AsCpuEvent(w, a))
  }

  function CpuDo(w: CpuWorld, a: CpuActivity, decode: Bytes -> Bytes): CpuWorld
    requires CpuEnabled(w, a)
  {
    var w' := Step(AsWorld(w), AsCpuEvent(w, a), decode);
    CpuWorld(if a.Switched? then Kernel.Step(w.machine, a.e) else w.machine, w'.prev, w'.emitted)
  }

  predicate ValidCpuActs(w: CpuWorld, acts: seq<CpuActivity>, decode: Bytes -> Bytes)
    decreases |acts|
  {
    acts == [] || (CpuEnabled(w, acts[0]) && ValidCpuActs(CpuDo(w, acts[0], decode), acts[1..], decode))
  }

  function ExecCpuActs(w: CpuWorld, acts: seq<CpuActivity>, decode: Bytes -> Bytes): CpuWorld
    requires ValidCpuActs(w, acts, decode)
    decreases |acts|
  {
    if acts == [] then w else ExecCpuActs(CpuDo(w, acts[0], decode), acts[1..], decode)
  }

  function Switches(acts: seq<CpuActivity>): seq<Switch> {
    if acts == [] then []
    else (if acts[0].Switched? then [acts[0].e] else []) + Switches(acts[1..])
  }

  /** A poll never waits for the kernel: a switch is possible whenever the scheduler allows it. */
  lemma SwitchAlwaysEnabled(w: CpuWorld, e: Switch)
    requires Kernel.Enabled(w.machine, e)
    ensures CpuEnabled(w, Switched(e))
  {
    SwitchGrows(w.machine.stats, w.machine.running[e.cpu], e.next, e.at);
  }

  lemma {:induction false} CpuActsAreRun(w: CpuWorld, acts: seq<CpuActivity>, decode: Bytes -> Bytes)
    returns (es: seq<Event>)
    requires ValidCpuActs(w, acts, decode)
    ensures ValidRun(AsWorld(w), es, decode) && Exec(AsWorld(w), es, decode) == AsWorld(ExecCpuActs(w, acts, decode))
    ensures Kernel.ValidRun(w.machine, Switches(acts))
    ensures ExecCpuActs(w, acts, decode).machine == Kernel.Exec(w.machine, Switches(acts))
    decreases |acts|
  {
    hide Entries, Deltas, SnapshotOf, Enabled, Kernel.Step, Kernel.Enabled, CpuCounters;
    if acts == [] {
      es := [];
    } else {
      var e := AsCpuEvent(w, acts[0]);
      var rest := CpuActsAreRun(CpuDo(w, acts[0], decode), acts[1..], decode);
      es := [e] + rest;
      assert es[1..] == rest;
      if acts[0].Switched? {
        assert Switches(acts)[1..] == Switches(acts[1..]);
      } else {
        assert Switches(acts) == Switches(acts[1..]);
      }
    }
  }

  /** Over every interleaving of context switches on any number of CPUs with polls, the nanoseconds
      reported for a name never exceed the time it was on at least one CPU. */
  lemma ReportedWithinBusyTime(m: Machine, acts: seq<CpuActivity>, decode: Bytes -> Bytes, n: Comm)
    requires m.stats == map[] && ValidCpuActs(CpuWorld(m, map[], []), acts, decode)
    requires var w := ExecCpuActs(CpuWorld(m, map[], []), acts, decode);
      n in w.machine.stats && NamesDistinct(CpuCounters(w.machine.stats), decode)
    ensures Kernel.ValidRun(m, Switches(acts))
    ensures Reported(AppName(n, decode), ExecCpuActs(CpuWorld(m, map[], []), acts, decode).emitted).0
         <= BusyTime(n, m, Switches(acts))
  {
    hide AppName, Exec, ValidRun, Kernel.ValidRun, Kernel.Exec, BusyTime, ExecCpuActs, ValidCpuActs, Reported;
    var w0 := CpuWorld(m, map[], []);
    var es := CpuActsAreRun(w0, acts, decode);
    assert CpuCounters(m.stats) == map[];
    assert Reported(AppName(n, decode), []) == (0, 0) by {
      ReportedShort(AppName(n, decode), []);
    }
    ExactlyOnce(AsWorld(w0), es, decode, n);
    CreditIsSound(n, m, Switches(acts));
  }

  /** If moreover no two CPUs ever run the name at once and the map has room for it, then right after a
      successful poll everything but the slice still running has been reported. */
  lemma ReportedIsBusyTime(m: Machine, acts: seq<CpuActivity>, order: seq<Comm>, decode: Bytes -> Bytes, n: Comm)
    requires m.stats == map[] && n !in m.running && !IsCommEmpty(n)
    requires ValidCpuActs(CpuWorld(m, map[], []), acts, decode)
    requires Kernel.ValidRun(m, Switches(acts)) && ExclusiveRun(n, m, Switches(acts))
    requires var w := ExecCpuActs(CpuWorld(m, map[], []), acts, decode);
      && n in w.machine.stats && NamesDistinct(CpuCounters(w.machine.stats), decode)
      && CpuEnabled(w, CpuPolled(order))
    ensures var w := ExecCpuActs(CpuWorld(m, map[], []), acts, decode);
      var s := w.machine.stats[n];
      Reported(AppName(n, decode), CpuDo(w, CpuPolled(order), decode).emitted).0
      + (if s.lastSchedInNs > 0 then w.machine.clock - s.lastSchedInNs else 0)
      == BusyTime(n, m, Switches(acts))
  {
    hide AppName, Exec, ValidRun, Kernel.ValidRun, Kernel.Exec, BusyTime, ExecCpuActs;
    hide ValidCpuActs, Reported, Entries, Deltas, SnapshotOf, ExclusiveRun;
    var w0 := CpuWorld(m, map[], []);
    var es := CpuActsAreRun(w0, acts, decode);
    assert AsWorld(w0) == START;
    PollCatchesUp(es, order, decode, n);
    CreditIsExact(n, m, Switches(acts));
  }

  // ----- From deltas to records

  /** What the records of one app add up to in one additive field. */
  function AmountOf(f: SumField, app: Bytes, rs: seq<Record>): nat {
    if rs == [] then 0
    else
      AmountOf(f, app, rs[..|rs| - 1])
      + (if rs[|rs| - 1].appName == app then Amount(f, rs[|rs| - 1].payload) else 0)
  }

  function Half(d: Delta, second: bool): nat {
    if second then d.second else d.first
  }

  /** Records that carry the first or the second halves of deltas in an additive field, one for one. */
  predicate Carry(rs: seq<Record>, ds: seq<Delta>, f: SumField, second: bool) {
    && |rs| == |ds|
    && forall i :: 0 <= i < |rs| ==> rs[i].appName == ds[i].app && Amount(f, rs[i].payload) == Half(ds[i], second)
  }

  predicate Stamped(rs: seq<Record>, now: u64) {
    forall i :: 0 <= i < |rs| ==> rs[i].timestamp == now
  }

  /** A network record carries bytes sent and received, a disk record bytes read and written, a CPU record
      nanoseconds; all are stamped with the time of the poll. */
  lemma RecordsCarry(ds: seq<Delta>, now: u64, capacityNs: u64)
    ensures var net := Mapped(d => NetRecord(d, now), ds);
      && Carry(net, ds, TxBytes, false) && Carry(net, ds, RxBytes, true) && Stamped(net, now)
      && forall i :: 0 <= i < |net| ==> net[i].payload.NetPayload? && net[i].payload.net.connections == 0
    ensures var disk := Mapped(d => DiskRecord(d, now), ds);
      && Carry(disk, ds, ReadBytes, false) && Carry(disk, ds, WriteBytes, true) && Stamped(disk, now)
      && forall i :: 0 <= i < |disk| ==> disk[i].payload.DskPayload? && disk[i].payload.dsk.mountPoint == []
    ensures var cpu := Mapped(d => CpuRecord(d, now, capacityNs), ds);
      && Carry(cpu, ds, CpuNs, false) && Stamped(cpu, now)
      && forall i :: 0 <= i < |cpu| ==>
           && cpu[i].payload.CpuPayload? && cpu[i].payload.cpu.threadCount == 1
           && cpu[i].payload.cpu.cpuUsagePercent == UsagePercent(ds[i].first, capacityNs)
  {
    hide UsagePercent;
  }

  /** Records that carry deltas add up to what the deltas report. */
  lemma {:induction false} CarriedAmount(app: Bytes, rs: seq<Record>, ds: seq<Delta>, f: SumField, second: bool)
    requires Carry(rs, ds, f, second)
    ensures AmountOf(f, app, rs) == if second then Reported(app, ds).1 else Reported(app, ds).0
    decreases |rs|
  {
    hide Amount;
    if rs != [] {
      assert Carry(rs[..|rs| - 1], ds[..|ds| - 1], f, second);
      CarriedAmount(app, rs[..|rs| - 1], ds[..|ds| - 1], f, second);
    }
  }

  /** What several polls emit, one after the other. */
  lemma CarryConcat(rs: seq<Record>, ds: seq<Delta>, rs': seq<Record>, ds': seq<Delta>, f: SumField, second: bool)
    requires Carry(rs, ds, f, second) && Carry(rs', ds', f, second)
    ensures Carry(rs + rs', ds + ds', f, second)
  {
    hide Amount, Half;
  }

  /** End to end in records: right after a successful poll the records of a tracked process carry every byte
      it sent and received, or read and wrote, up to the 64-bit ceiling. */
  lemma EveryByteRecorded(acts: seq<Activity>, order: seq<Comm>, decode: Bytes -> Bytes, c: Comm,
                          rs: seq<Record>, f: SumField, second: bool)
    requires ValidActs(START, acts, decode)
    requires var w := ExecActs(START, acts, decode);
      && Visits(order, w.counters) && NamesDistinct(w.counters, decode) && c in w.counters
      && Carry(rs, Step(w, Poll(order), decode).emitted, f, second)
    ensures AmountOf(f, AppName(c, decode), rs) ==
              Capped(if second then ReceivedBy(c, Transfers(acts)) else SentBy(c, Transfers(acts)))
  {
    hide AppName, ExecActs, ValidActs, Carry, AmountOf, Reported, Step, SentBy, ReceivedBy;
    EveryByteReported(acts, order, decode, c);
    var ds := Step(ExecActs(START, acts, decode), Poll(order), decode).emitted;
    CarriedAmount(AppName(c, decode), rs, ds, f, second);
  }

  /** A process name is read up to its first zero byte; an empty one is called `(unknown)`. */
  lemma AppNameLaws(text: Bytes, c: Comm, decode: Bytes -> Bytes)
    requires 0 !in text
    ensures text != [] && text <= c && (|text| < 16 ==> c[|text|] == 0) ==> AppName(c, decode) == decode(text)
    ensures c[0] == 0 ==> Spells(AppName(c, decode), "(unknown)")
  {
    var n := TextLength(c);
    if text != [] && text <= c && (|text| < 16 ==> c[|text|] == 0) {
      assert forall i :: 0 <= i < |text| ==> c[i] == text[i] && text[i] in text;
      assert n == |text|;
      assert c[..n] == text;
    }
  }

  // ----- Names that are not distinct

  /** What the entries of one app name hold beyond a remembered pair, all added up. */
  function Excess(es: seq<Entry>, decode: Bytes -> Bytes, app: Bytes, base: (u64, u64)): (nat, nat)
    requires Readable(es)
  {
    if es == [] then (0, 0)
    else
      var (a, b) := Excess(es[..|es| - 1], decode, app, base);
      var e := es[|es| - 1];
      if AppName(e.comm, decode) == app then (a + SatSub(e.first, base.0), b + SatSub(e.second, base.1)) else (a, b)
  }

  /** Whatever the names: a poll reports for an app what each entry of that name holds beyond the one
      pair remembered for all of them. */
  lemma {:induction false} PollReports(prev: Snapshot, es: seq<Entry>, decode: Bytes -> Bytes, app: Bytes)
    requires Readable(es)
    ensures Reported(app, Deltas(prev, es, decode)) == Excess(es, decode, app, Previous(prev, app))
  {
    hide AppName, Reported, SatSub, Deltas, Previous;
    if es == [] {
      assert Deltas(prev, es, decode) == [] by {
        NoDeltas(prev, decode);
      }
      ReportedShort(app, []);
    } else {
      PollReports(prev, es[..|es| - 1], decode, app);
      OneMoreDelta(prev, es, decode, app);
    }
  }

  lemma NoDeltas(prev: Snapshot, decode: Bytes -> Bytes)
    ensures Deltas(prev, [], decode) == []
  {}

  lemma OneMoreDelta(prev: Snapshot, es: seq<Entry>, decode: Bytes -> Bytes, app: Bytes)
    requires es != [] && Readable(es)
    ensures var init, e, base := es[..|es| - 1], es[|es| - 1], Previous(prev, app);
      var (a, b) := Reported(app, Deltas(prev, init, decode));
      Reported(app, Deltas(prev, es, decode)) ==
        if AppName(e.comm, decode) == app then (a + SatSub(e.first, base.0), b + SatSub(e.second, base.1)) else (a, b)
  {
    hide AppName, Reported, SatSub;
    var init, d := es[..|es| - 1], DeltaOf(prev, es[|es| - 1], decode);
    var tail := if d.first > 0 || d.second > 0 then [d] else [];
    assert Deltas(prev, es, decode) == Deltas(prev, init, decode) + tail;
    ReportedConcat(app, Deltas(prev, init, decode), tail);
    ReportedShort(app, tail);
  }

  predicate NoneBeyond(es: seq<Entry>, decode: Bytes -> Bytes, app: Bytes, base: (u64, u64))
    requires Readable(es)
  {
    forall i :: 0 <= i < |es| && AppName(es[i].comm, decode) == app ==> es[i].first <= base.0 && es[i].second <= base.1
  }

  lemma {:induction false} NoExcessIff(es: seq<Entry>, decode: Bytes -> Bytes, app: Bytes, base: (u64, u64))
    requires Readable(es)
    ensures Excess(es, decode, app, base) == (0, 0) <==> NoneBeyond(es, decode, app, base)
  {
    hide AppName;
    if es != [] {
      var init := es[..|es| - 1];
      NoExcessIff(init, decode, app, base);
      assert forall i :: 0 <= i < |init| ==> init[i] == es[i];
    }
  }

  /** A poll is silent about an app exactly when no entry of that name holds more than is remembered. */
  lemma PollSilentIff(prev: Snapshot, es: seq<Entry>, decode: Bytes -> Bytes, app: Bytes)
    requires Readable(es)
    ensures Reported(app, Deltas(prev, es, decode)) == (0, 0) <==> NoneBeyond(es, decode, app, Previous(prev, app))
  {
    PollReports(prev, es, decode, app);
    NoExcessIff(es, decode, app, Previous(prev, app));
  }

  /** The last entry of its app name in iteration order. */
  predicate IsLastOfName(es: seq<Entry>, decode: Bytes -> Bytes, k: nat)
    requires Readable(es)
  {
    k < |es| && forall j :: k < j < |es| ==> AppName(es[j].comm, decode) != AppName(es[k].comm, decode)
  }

  /** The snapshot remembers the last entry of each name. */
  lemma {:induction false} SnapshotOfLast(es: seq<Entry>, decode: Bytes -> Bytes, k: nat)
    requires Readable(es) && IsLastOfName(es, decode, k)
    ensures Previous(SnapshotOf(es, decode), AppName(es[k].comm, decode)) == (es[k].first, es[k].second)
  {
    hide AppName;
    var init := es[..|es| - 1];
    if k < |init| {
      assert forall i :: 0 <= i < |init| ==> init[i] == es[i];
      SnapshotOfLast(init, decode, k);
      assert AppName(es[|init|].comm, decode) != AppName(es[k].comm, decode);
    }
  }

  /** Polling again although nothing moved is silent exactly when the entry read last holds the most. */
  lemma IdlePollSilentIff(es: seq<Entry>, decode: Bytes -> Bytes, k: nat)
    requires Readable(es) && IsLastOfName(es, decode, k)
    ensures var app := AppName(es[k].comm, decode);
      Reported(app, Deltas(SnapshotOf(es, decode), es, decode)) == (0, 0)
      <==> NoneBeyond(es, decode, app, (es[k].first, es[k].second))
  {
    hide AppName, NoneBeyond;
    SnapshotOfLast(es, decode, k);
    PollSilentIff(SnapshotOf(es, decode), es, decode, AppName(es[k].comm, decode));
  }

  lemma {:induction false} ExcessUpToLast(es: seq<Entry>, decode: Bytes -> Bytes, k: nat, base: (u64, u64))
    requires Readable(es) && IsLastOfName(es, decode, k)
    ensures Readable(es[..k])
    ensures var app := AppName(es[k].comm, decode); var (a, b) := Excess(es[..k], decode, app, base);
      Excess(es, decode, app, base) == (a + SatSub(es[k].first, base.0), b + SatSub(es[k].second, base.1))
  {
    hide AppName, SatSub;
    var init := es[..|es| - 1];
    if k == |init| {
      assert es[..k] == init;
    } else {
      assert forall i :: 0 <= i < |init| ==> init[i] == es[i];
      ExcessUpToLast(init, decode, k, base);
      assert init[..k] == es[..k];
      assert AppName(es[|init|].comm, decode) != AppName(es[k].comm, decode);
    }
  }

  /** Exactly when a poll keeps the tally of an app, so that what was remembered plus what is reported is
      what is remembered next: the entry read last has not fallen behind, and every other entry of that
      name holds no more than was remembered. */
  lemma PollTalliesIff(prev: Snapshot, es: seq<Entry>, decode: Bytes -> Bytes, k: nat)
    requires Readable(es) && IsLastOfName(es, decode, k)
    ensures var app := AppName(es[k].comm, decode); var (a, b) := Previous(prev, app);
      var (x, y) := Reported(app, Deltas(prev, es, decode));
      && Readable(es[..k])
      && ((a + x, b + y) == Previous(SnapshotOf(es, decode), app)
          <==> a <= es[k].first && b <= es[k].second && NoneBeyond(es[..k], decode, app, (a, b)))
  {
    hide AppName, Excess, NoneBeyond, SnapshotOf, Deltas, Reported;
    var app := AppName(es[k].comm, decode);
    var base := Previous(prev, app);
    PollReports(prev, es, decode, app);
    SnapshotOfLast(es, decode, k);
    ExcessUpToLast(es, decode, k, base);
    NoExcessIff(es[..k], decode, app, base);
  }

  /** What has been reported for each app is what its snapshot remembers. */
  predicate Tallied(w: World, decode: Bytes -> Bytes) {
    forall c :: c in w.counters ==> Reported(AppName(c, decode), w.emitted) == Previous(w.prev, AppName(c, decode))
  }

  predicate DistinctNames(names: set<Comm>, decode: Bytes -> Bytes) {
    forall c, d :: c in names && d in names && AppName(c, decode) == AppName(d, decode) ==> c == d
  }

  /** Exactly-once reporting over every run holds for a set of process names if and only if their app
      names are distinct. */
  lemma ExactlyOnceIff(names: set<Comm>, decode: Bytes -> Bytes)
    ensures DistinctNames(names, decode) <==>
              forall acts :: ValidActs(START, acts, decode) && ExecActs(START, acts, decode).counters.Keys <= names
                ==> Tallied(ExecActs(START, acts, decode), decode)
  {
    hide AppName, ValidActs, ExecActs, Reported;
    if DistinctNames(names, decode) {
      forall acts | ValidActs(START, acts, decode) && ExecActs(START, acts, decode).counters.Keys <= names
        ensures Tallied(ExecActs(START, acts, decode), decode)
      {
        DistinctTally(names, acts, decode);
      }
    } else {
      var c, d :| c in names && d in names && AppName(c, decode) == AppName(d, decode) && c != d;
      var acts := SharedNameBreaksTally(c, d, decode);
      assert ExecActs(START, acts, decode).counters.Keys <= names;
    }
  }

  lemma DistinctTally(names: set<Comm>, acts: seq<Activity>, decode: Bytes -> Bytes)
    requires DistinctNames(names, decode) && ValidActs(START, acts, decode)
    requires ExecActs(START, acts, decode).counters.Keys <= names
    ensures Tallied(ExecActs(START, acts, decode), decode)
  {
    hide AppName, ValidActs, ExecActs, Reported, ValidRun, Exec, BumpAll;
    var es := ActsAreRun(START, acts, decode);
    var w := ExecActs(START, acts, decode);
    forall c | c in w.counters ensures Reported(AppName(c, decode), w.emitted) == Previous(w.prev, AppName(c, decode)) {
      ReportedShort(AppName(c, decode), []);
      ExactlyOnce(START, es, decode, c);
    }
  }

  /** Two processes that share an app name and move one byte each are reported as two bytes, while one is
      remembered. */
  lemma SharedNameBreaksTally(c: Comm, d: Comm, decode: Bytes -> Bytes) returns (acts: seq<Activity>)
    requires c != d && AppName(c, decode) == AppName(d, decode)
    ensures ValidActs(START, acts, decode) && ExecActs(START, acts, decode).counters.Keys == {c, d}
    ensures !Tallied(ExecActs(START, acts, decode), decode)
  {
    hide AppName, Deltas, SnapshotOf, Reported, Entries, Tallied, Visits, TwoEntries;
    acts := [Moved(Transfer(c, 1, 0)), Moved(Transfer(d, 1, 0)), Polled([c, d])];
    var m := map[c := ByteStats(1, 0), d := ByteStats(1, 0)];
    var w1, w2 := World(map[c := ByteStats(1, 0)], map[], []), World(m, map[], []);
    PollOfTwo(c, d, decode);
    var w3 := Step(w2, Poll([c, d]), decode);
    ActsOne(START, acts, decode, w1);
    ActsOne(w1, acts[1..], decode, w2);
    assert acts[1..][1..] == [Polled([c, d])];
    ActsOne(w2, [Polled([c, d])], decode, w3);
  }

  lemma PollOfTwo(c: Comm, d: Comm, decode: Bytes -> Bytes)
    requires c != d && AppName(c, decode) == AppName(d, decode)
    ensures var w := World(map[c := ByteStats(1, 0), d := ByteStats(1, 0)], map[], []);
      && Visits([c, d], w.counters)
      && Step(w, Poll([c, d]), decode).counters == w.counters
      && !Tallied(Step(w, Poll([c, d]), decode), decode)
  {
    hide AppName, Deltas, SnapshotOf, Reported;
    var m := map[c := ByteStats(1, 0), d := ByteStats(1, 0)];
    var es := TwoEntries(c, 1, d, 1);
    assert Visits([c, d], m) by {
      assert [c, d][0] == c && [c, d][1] == d;
    }
    assert Entries(m, [c, d]) == es;
    PollTwice(c, d, decode, 1, 1);
    SnapshotOfLast(es, decode, 1);
    var w' := World(m, SnapshotOf(es, decode), [] + Deltas(map[], es, decode));
    assert w'.emitted == Deltas(map[], es, decode);
    assert c in w'.counters && Reported(AppName(c, decode), w'.emitted) != Previous(w'.prev, AppName(c, decode));
  }

  lemma ActsOne(w: World, acts: seq<Activity>, decode: Bytes -> Bytes, w': World)
    requires acts != [] && Enabled(w, AsEvent(w, acts[0])) && Step(w, AsEvent(w, acts[0]), decode) == w'
    ensures ValidActs(w', acts[1..], decode) ==> ValidActs(w, acts, decode)
    ensures ValidActs(w', acts[1..], decode) ==> ExecActs(w, acts, decode) == ExecActs(w', acts[1..], decode)
    ensures |acts| == 1 ==> ValidActs(w, acts, decode) && ExecActs(w, acts, decode) == w'
  {}

  /** `a`, a zero byte, then one more byte: all such names read as `a`. */
  function NamedA(x: byte): Comm {
    [97, 0, x, 0, 0, 0, 0, 0, 0, 0, 0, 0, 0, 0, 0, 0]
  }

  /** One poll's reading of two processes. */
  function TwoEntries(c: Comm, x: u64, d: Comm, y: u64): (es: seq<Entry>)
    ensures Readable(es)
  {
    [Entry(c, x, 0), Entry(d, y, 0)]
  }

  /** Two such processes share an app name however bytes are decoded. If the larger counter is read first,
      an idle poll reports the difference again, every time; if it is read last, nothing. */
  lemma SharedNameReportsTwice(decode: Bytes -> Bytes)
    ensures var c, d := NamedA(1), NamedA(2); var app := AppName(c, decode);
      var falling, rising := TwoEntries(c, 10, d, 4), TwoEntries(c, 4, d, 10);
      && c != d && app == AppName(d, decode)
      && Reported(app, Deltas(map[], falling, decode)) == (14, 0) == Reported(app, Deltas(map[], rising, decode))
      && Reported(app, Deltas(SnapshotOf(falling, decode), falling, decode)) == (6, 0)
      && Reported(app, Deltas(SnapshotOf(rising, decode), rising, decode)) == (0, 0)
  {
    hide AppName, Deltas, SnapshotOf, Reported, NamedA, TwoEntries;
    var c, d := NamedA(1), NamedA(2);
    ReadAsA(1, decode);
    ReadAsA(2, decode);
    assert c != d by {
      NamesDiffer(1, 2);
    }
    PollTwice(c, d, decode, 10, 4);
    PollTwice(c, d, decode, 4, 10);
  }

  lemma NamesDiffer(x: byte, y: byte)
    requires x != y
    ensures NamedA(x) != NamedA(y)
  {
    assert NamedA(x)[2] != NamedA(y)[2];
  }

  lemma ReadAsA(x: byte, decode: Bytes -> Bytes)
    ensures AppName(NamedA(x), decode) == decode([97])
  {
    var c := NamedA(x);
    assert TextLength(c) == 1;
    assert c[..1] == [97];
  }

  /** A first poll of two entries of one name, and an idle second one. */
  lemma PollTwice(c: Comm, d: Comm, decode: Bytes -> Bytes, x: u64, y: u64)
    requires AppName(c, decode) == AppName(d, decode)
    ensures var app := AppName(c, decode); var es := TwoEntries(c, x, d, y);
      && Reported(app, Deltas(map[], es, decode)) == (x + y, 0)
      && Reported(app, Deltas(SnapshotOf(es, decode), es, decode)) == (SatSub(x, y), 0)
  {
    hide AppName, Deltas, SnapshotOf, Reported, Excess;
    var app := AppName(c, decode);
    var es := [Entry(c, x, 0), Entry(d, y, 0)];
    SnapshotOfLast(es, decode, 1);
    PollReports(map[], es, decode, app);
    PollReports(SnapshotOf(es, decode), es, decode, app);
    ExcessOfTwo(c, d, decode, x, y, (0, 0));
    ExcessOfTwo(c, d, decode, x, y, (y, 0));
  }

  lemma ExcessOfTwo(c: Comm, d: Comm, decode: Bytes -> Bytes, x: u64, y: u64, base: (u64, u64))
    requires AppName(c, decode) == AppName(d, decode)
    ensures Excess([Entry(c, x, 0), Entry(d, y, 0)], decode, AppName(c, decode), base)
         == (SatSub(x, base.0) + SatSub(y, base.0), 0)
  {
    hide AppName;
    var es, one := [Entry(c, x, 0), Entry(d, y, 0)], [Entry(c, x, 0)];
    assert es[..1] == one && one[..0] == [];
    assert Excess([], decode, AppName(c, decode), base) == (0, 0);
    assert Excess(one, decode, AppName(c, decode), base) == (SatSub(x, base.0) as nat, 0);
  }

  /** Usage is the delta's share of the interval's capacity, so time within capacity stays within 100. */
  lemma UsageIsShare(deltaNs: u64, capacityNs: u64)
    ensures capacityNs > 0 ==> UsagePercent(deltaNs, capacityNs) * capacityNs as real == deltaNs as real * 100.0
    ensures capacityNs > 0 && deltaNs <= capacityNs ==> UsagePercent(deltaNs, capacityNs) <= 100.0
    ensures capacityNs == 0 ==> UsagePercent(deltaNs, capacityNs) == 0.0
  {
    if capacityNs == 0 {
      return;
    }
    var d, c := deltaNs as real, capacityNs as real;
    assert d / c * c == d;
    if deltaNs <= capacityNs {
      assert (c - d) / c >= 0.0;
      assert (c - d) / c == c / c - d / c;
    }
  }
}
