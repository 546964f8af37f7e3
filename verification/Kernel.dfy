/** The kernel-side probes: bounded maps keyed by process name, updated one event at a time, and the
    scheduler they observe. */
module Kernel {
  import opened Metrics

  type Comm = s: seq<byte> | |s| == 16 witness [0, 0, 0, 0, 0, 0, 0, 0, 0, 0, 0, 0, 0, 0, 0, 0]

  const MAX_ENTRIES: nat := 10_240

  predicate IsCommEmpty(c: Comm) {
    c[0] == 0
  }

  function SatAdd(a: u64, b: u64): u64 {
    if a + b < U64_LIMIT then a + b else U64_LIMIT - 1
  }

  function SatSub(a: u64, b: u64): u64 {
    if b <= a then a - b else 0
  }

  datatype CpuStats = CpuStats(cpuTimeNs: u64, lastSchedInNs: u64)
  type CpuMap = map<Comm, CpuStats>

  /** Two cumulative byte counters of one name: sent and received, or read and written. */
  datatype ByteStats = ByteStats(first: u64, second: u64)
  type ByteMap = map<Comm, ByteStats>

  // ----- What each probe does to its map

  function SwitchOut(m: CpuMap, prev: Comm, now: u64): CpuMap {
    if IsCommEmpty(prev) || prev !in m then m
    else
      var s := m[prev];
      var credited := if s.lastSchedInNs > 0 then SatAdd(s.cpuTimeNs, SatSub(now, s.lastSchedInNs)) else s.cpuTimeNs;
      m[prev := CpuStats(credited, 0)]
  }

  function SwitchIn(m: CpuMap, next: Comm, now: u64): CpuMap {
    if IsCommEmpty(next) then m
    else if next in m then m[next := CpuStats(m[next].cpuTimeNs, now)]
    else if |m| < MAX_ENTRIES then m[next := CpuStats(0, now)]
    else m
  }

  function SwitchCpu(m: CpuMap, prev: Comm, next: Comm, now: u64): CpuMap {
    SwitchIn(SwitchOut(m, prev, now), next, now)
  }

  /** Add to both counters of a name, creating its entry if there is room. */
  function Bump(m: ByteMap, c: Comm, a: u64, b: u64): ByteMap {
    if c in m then m[c := ByteStats(SatAdd(m[c].first, a), SatAdd(m[c].second, b))]
    else if |m| < MAX_ENTRIES then m[c := ByteStats(a, b)]
    else m
  }

  class KernelMaps {
    var cpuStats: CpuMap
    var networkStats: ByteMap
    var diskStats: ByteMap

    constructor ()
      ensures cpuStats == map[] && networkStats == map[] && diskStats == map[]
    {
      cpuStats, networkStats, diskStats := map[], map[], map[];
    }

    method SchedSwitch(now: u64, prev: Comm, next: Comm)
      modifies this`cpuStats
      ensures cpuStats == SwitchCpu(old(cpuStats), prev, next, now)
    {
      if !IsCommEmpty(prev) && prev in cpuStats {
        var s := cpuStats[prev];
        if s.lastSchedInNs > 0 {
          s := s.(cpuTimeNs := SatAdd(s.cpuTimeNs, SatSub(now, s.lastSchedInNs)));
        }
        cpuStats := cpuStats[prev := s.(lastSchedInNs := 0)];
      }
      if !IsCommEmpty(next) {
        if next in cpuStats {
          cpuStats := cpuStats[next := cpuStats[next].(lastSchedInNs := now)];
        } else if |cpuStats| < MAX_ENTRIES {
          cpuStats := cpuStats[next := CpuStats(0, now)];
        }
      }
    }

    /** Bytes handed to a TCP send. */
    method SendMsg(comm: Comm, size: u64)
      modifies this`networkStats
      ensures networkStats == Bump(old(networkStats), comm, size, 0)
    {
      if comm in networkStats {
        var s := networkStats[comm];
        networkStats := networkStats[comm := s.(first := SatAdd(s.first, size))];
      } else if |networkStats| < MAX_ENTRIES {
        networkStats := networkStats[comm := ByteStats(size, 0)];
      }
    }

    /** The result of a TCP receive; errors and empty reads leave no trace. */
    method RecvMsg(comm: Comm, result: i64)
      modifies this`networkStats
      ensures networkStats == if result <= 0 then old(networkStats) else Bump(old(networkStats), comm, 0, result)
    {
      if result <= 0 {
        return;
      }
      if comm in networkStats {
        var s := networkStats[comm];
        networkStats := networkStats[comm := s.(second := SatAdd(s.second, result))];
      } else if |networkStats| < MAX_ENTRIES {
        networkStats := networkStats[comm := ByteStats(0, result)];
      }
    }

    /** A block request handed to the device: `R` or `r` reads, `W` or `w` writes, anything else is
        neither but still opens an entry. */
    method BlockRqIssue(comm: Comm, bytes: u64, rwbs: byte)
      modifies this`diskStats
      ensures diskStats ==
                if bytes == 0 || IsCommEmpty(comm) then old(diskStats)
                else Bump(old(diskStats), comm, if IsRead(rwbs) then bytes else 0, if IsWrite(rwbs) then bytes else 0)
    {
      if bytes == 0 || IsCommEmpty(comm) {
        return;
      }
      if comm in diskStats {
        var s := diskStats[comm];
        if IsRead(rwbs) {
          diskStats := diskStats[comm := s.(first := SatAdd(s.first, bytes))];
        } else if IsWrite(rwbs) {
          diskStats := diskStats[comm := s.(second := SatAdd(s.second, bytes))];
        }
        assert IsRead(rwbs) || IsWrite(rwbs) || diskStats == old(diskStats)[comm := s];
      } else if |diskStats| < MAX_ENTRIES {
        var read, written := if IsRead(rwbs) then bytes else 0, if IsWrite(rwbs) then bytes else 0;
        diskStats := diskStats[comm := ByteStats(read, written)];
      }
    }
  }

  predicate IsRead(rwbs: byte) { rwbs == 82 || rwbs == 114 }
  predicate IsWrite(rwbs: byte) { rwbs == 87 || rwbs == 119 }

  /** The direction letters of a block request: `R` and `r` read, `W` and `w` write, nothing else does. */
  lemma Directions(b: byte)
    ensures IsRead(b) <==> b as int == 'R' as int || b as int == 'r' as int
    ensures IsWrite(b) <==> b as int == 'W' as int || b as int == 'w' as int
    ensures !(IsRead(b) && IsWrite(b))
  {}

  /** What a block request of a named process does to its counters, entry or not. */
  lemma RequestCounts(m: ByteMap, c: Comm, bytes: u64, letter: char)
    requires letter as int < 256 && (c in m || |m| < MAX_ENTRIES)
    ensures var b := letter as int as byte;
      var m' := Bump(m, c, if IsRead(b) then bytes else 0, if IsWrite(b) then bytes else 0);
      var (read, written) := if c in m then (m[c].first, m[c].second) else (0, 0);
      && c in m'
      && m'[c].first == (if letter == 'R' || letter == 'r' then Capped(read + bytes) else read)
      && m'[c].second == (if letter == 'W' || letter == 'w' then Capped(written + bytes) else written)
      && forall d :: d != c ==> (d in m' <==> d in m) && (d in m ==> m'[d] == m[d])
  {}

  /** A name that starts with a zero byte never gets a CPU entry. */
  lemma NamelessUntracked(m: CpuMap, prev: Comm, next: Comm, now: u64, c: Comm)
    requires c[0] == 0 && c !in m
    ensures c !in SwitchCpu(m, prev, next, now)
  {}

  // ----- The scheduler

  /** CPU `cpu` puts `next` in place of whatever it was running. */
  datatype Switch = Switch(cpu: nat, next: Comm, at: u64)

  /** Which name each CPU runs, the time of the last switch, and the probe's map. */
  datatype Machine = Machine(running: seq<Comm>, clock: u64, stats: CpuMap)

  predicate Enabled(m: Machine, e: Switch) {
    e.cpu < |m.running| && e.at > 0 && m.clock <= e.at
  }

  function Step(m: Machine, e: Switch): Machine
    requires Enabled(m, e)
  {
    Machine(m.running[e.cpu := e.next], e.at, SwitchCpu(m.stats, m.running[e.cpu], e.next, e.at))
  }

  predicate ValidRun(m: Machine, es: seq<Switch>)
    decreases |es|
  {
    es == [] || (Enabled(m, es[0]) && ValidRun(Step(m, es[0]), es[1..]))
  }

  function Exec(m: Machine, es: seq<Switch>): Machine
    requires ValidRun(m, es)
    decreases |es|
  {
    if es == [] then m else Exec(Step(m, es[0]), es[1..])
  }

  /** How long `n` was on at least one CPU between the start and the last switch. */
  function BusyTime(n: Comm, m: Machine, es: seq<Switch>): nat
    requires ValidRun(m, es)
    decreases |es|
  {
    if es == [] then 0
    else (if n in m.running then es[0].at - m.clock else 0) + BusyTime(n, Step(m, es[0]), es[1..])
  }

  /** What the map says about `n`: time credited, plus time since a pending stamp. */
  function Accounted(n: Comm, m: Machine): nat {
    if n !in m.stats then 0
    else
      var s := m.stats[n];
      s.cpuTimeNs + (if s.lastSchedInNs > 0 && s.lastSchedInNs <= m.clock then m.clock - s.lastSchedInNs else 0)
  }

  /** Only non-empty names have entries; a pending stamp lies in the past and means the name is on
      some CPU. */
  predicate StampsHonest(n: Comm, m: Machine) {
    n in m.stats ==>
      !IsCommEmpty(n) && (m.stats[n].lastSchedInNs > 0 ==> m.stats[n].lastSchedInNs <= m.clock && n in m.running)
  }

  lemma SwitchKeepsOthers(m: CpuMap, prev: Comm, next: Comm, now: u64, n: Comm)
    requires n != prev && n != next
    ensures n in SwitchCpu(m, prev, next, now) <==> n in m
    ensures n in m ==> SwitchCpu(m, prev, next, now)[n] == m[n]
  {}

  lemma StillRunning(m: Machine, e: Switch, n: Comm)
    requires Enabled(m, e) && n in m.running && n != m.running[e.cpu]
    ensures n in Step(m, e).running
  {
    var i :| 0 <= i < |m.running| && m.running[i] == n;
    assert Step(m, e).running[i] == n;
  }

  lemma NowRunning(m: Machine, e: Switch)
    requires Enabled(m, e)
    ensures e.next in Step(m, e).running
  {
    assert Step(m, e).running[e.cpu] == e.next;
  }

  /** One switch never credits a name with more than the time it just spent on some CPU. */
  lemma StepIsSound(n: Comm, m: Machine, e: Switch)
    requires Enabled(m, e) && StampsHonest(n, m)
    ensures StampsHonest(n, Step(m, e))
    ensures Accounted(n, Step(m, e)) <= Accounted(n, m) + (if n in m.running then e.at - m.clock else 0)
  {
    var prev := m.running[e.cpu];
    assert prev in m.running;
    if n == e.next {
      NowRunning(m, e);
    } else if n != prev {
      SwitchKeepsOthers(m.stats, prev, e.next, e.at, n);
      if n in m.running {
        StillRunning(m, e, n);
      }
    }
  }

  /** For any number of CPUs and any run, even when same-named tasks overwrite each other's stamp, a
      name is never credited with more time than it spent on at least one CPU. */
  lemma {:induction false} CreditIsSound(n: Comm, m: Machine, es: seq<Switch>)
    requires ValidRun(m, es) && StampsHonest(n, m)
    ensures Accounted(n, Exec(m, es)) <= Accounted(n, m) + BusyTime(n, m, es)
    ensures n in Exec(m, es).stats ==> Exec(m, es).stats[n].cpuTimeNs <= Accounted(n, m) + BusyTime(n, m, es)
    decreases |es|
  {
    hide Step, Enabled, StampsHonest, Accounted;
    if es != [] {
      StepIsSound(n, m, es[0]);
      CreditIsSound(n, Step(m, es[0]), es[1..]);
    } else {
      CreditWithinAccounted(n, m);
    }
  }

  lemma CreditWithinAccounted(n: Comm, m: Machine)
    ensures n in m.stats ==> m.stats[n].cpuTimeNs <= Accounted(n, m)
  {}

  // ----- When the accounting is exact

  /** No two CPUs run `n` at once. */
  predicate Exclusive(n: Comm, running: seq<Comm>) {
    forall i, j :: 0 <= i < j < |running| ==> !(running[i] == n && running[j] == n)
  }

  /** The probe can see `n`: it has a name, and an entry or room for one. */
  predicate Trackable(n: Comm, m: CpuMap) {
    !IsCommEmpty(n) && (n in m || |m| < MAX_ENTRIES)
  }

  predicate ExclusiveRun(n: Comm, m: Machine, es: seq<Switch>)
    requires ValidRun(m, es)
    decreases |es|
  {
    && Exclusive(n, m.running)
    && (es != [] ==>
          && (es[0].next == n ==> Trackable(n, SwitchOut(m.stats, m.running[es[0].cpu], es[0].at)))
          && ExclusiveRun(n, Step(m, es[0]), es[1..]))
  }

  /** The stamp of `n` is pending exactly while `n` runs. */
  predicate Synced(n: Comm, m: Machine) {
    && (n in m.running <==> n in m.stats && m.stats[n].lastSchedInNs > 0)
    && (n in m.stats ==> m.stats[n].lastSchedInNs <= m.clock && Accounted(n, m) <= m.clock)
  }

  lemma LeavesExclusive(n: Comm, m: Machine, e: Switch)
    requires Enabled(m, e) && Exclusive(n, m.running) && m.running[e.cpu] == n && e.next != n
    ensures n !in Step(m, e).running
  {}

  lemma StepIsExact(n: Comm, m: Machine, e: Switch)
    requires Enabled(m, e) && Exclusive(n, m.running) && Exclusive(n, Step(m, e).running) && !IsCommEmpty(n)
    requires Synced(n, m) && (e.next == n ==> Trackable(n, SwitchOut(m.stats, m.running[e.cpu], e.at)))
    ensures Synced(n, Step(m, e))
    ensures Accounted(n, Step(m, e)) == Accounted(n, m) + (if n in m.running then e.at - m.clock else 0)
  {
    var prev := m.running[e.cpu];
    assert prev in m.running;
    if n == e.next {
      NowRunning(m, e);
      if n != prev && n in m.running {
        StillOnAnother(n, m, e);
      }
    } else if n == prev {
      LeavesExclusive(n, m, e);
    } else {
      SwitchKeepsOthers(m.stats, prev, e.next, e.at, n);
      if n in m.running {
        StillRunning(m, e, n);
      }
      if n in Step(m, e).running {
        var i :| 0 <= i < |m.running| && Step(m, e).running[i] == n;
        assert m.running[i] == n;
      }
    }
  }

  /** A name scheduled in on a second CPU would break exclusivity. */
  lemma StillOnAnother(n: Comm, m: Machine, e: Switch)
    requires Enabled(m, e) && n in m.running && n == e.next && n != m.running[e.cpu]
    ensures !Exclusive(n, Step(m, e).running)
  {
    var i :| 0 <= i < |m.running| && m.running[i] == n;
    var r := Step(m, e).running;
    assert r[i] == n && r[e.cpu] == n;
    assert i < e.cpu ==> !(i < e.cpu < |r| ==> !(r[i] == n && r[e.cpu] == n));
  }

  /** If no two CPUs ever run the name at once and the map has room for it, the map accounts for its
      time on CPU exactly. */
  lemma {:induction false} CreditIsExact(n: Comm, m: Machine, es: seq<Switch>)
    requires ValidRun(m, es) && ExclusiveRun(n, m, es) && Synced(n, m) && !IsCommEmpty(n)
    ensures Synced(n, Exec(m, es))
    ensures Accounted(n, Exec(m, es)) == Accounted(n, m) + BusyTime(n, m, es)
    decreases |es|
  {
    hide Synced, Accounted, Trackable, IsCommEmpty;
    if es != [] {
      StepIsExact(n, m, es[0]);
      CreditIsExact(n, Step(m, es[0]), es[1..]);
    }
  }

  /** Exactness does need exclusivity: two tasks named `n`, on two CPUs from 10 to 30 and from 20 to
      40, are on CPU for 30 ns but credited with 10. */
  lemma OverlapLosesTime(n: Comm, idle: Comm)
    requires !IsCommEmpty(n) && n != idle
    ensures var m := Machine([idle, idle], 0, map[]);
      var es := [Switch(0, n, 10), Switch(1, n, 20), Switch(0, idle, 30), Switch(1, idle, 40)];
      && ValidRun(m, es) && BusyTime(n, m, es) == 30 && Accounted(n, Exec(m, es)) == 10
  {
    var m0 := Machine([idle, idle], 0, map[]);
    var a, b, c, d := Switch(0, n, 10), Switch(1, n, 20), Switch(0, idle, 30), Switch(1, idle, 40);
    var m1 := Step(m0, a);
    var m2 := Step(m1, b);
    var m3 := Step(m2, c);
    var m4 := Step(m3, d);
    assert m1.running == [n, idle] && m2.running == [n, n] && m3.running == [idle, n];
    assert m1.running[0] == n && m2.running[0] == n && m3.running[1] == n;
    assert m1.stats[n] == CpuStats(0, 10) && m2.stats[n] == CpuStats(0, 20);
    assert m3.stats[n] == CpuStats(10, 0) && m4.stats[n] == CpuStats(10, 0);
    RunOne(n, m4, [], []);
    RunOne(n, m3, [d], []);
    RunOne(n, m2, [c, d], [d]);
    RunOne(n, m1, [b, c, d], [c, d]);
    RunOne(n, m0, [a, b, c, d], [b, c, d]);
  }

  lemma RunOne(n: Comm, m: Machine, es: seq<Switch>, rest: seq<Switch>)
    requires es != [] ==> es == [es[0]] + rest && Enabled(m, es[0]) && ValidRun(Step(m, es[0]), rest)
    ensures ValidRun(m, es)
    ensures es == [] ==> Exec(m, es) == m && BusyTime(n, m, es) == 0
    ensures es != [] ==> Exec(m, es) == Exec(Step(m, es[0]), rest)
    ensures es != [] ==>
      BusyTime(n, m, es) == (if n in m.running then es[0].at - m.clock else 0) + BusyTime(n, Step(m, es[0]), rest)
  {
    hide Step, Enabled;
    if es != [] {
      assert es[1..] == rest;
    }
  }

  // ----- What is lost otherwise

  /** Judging by the schedule alone: since when the last thing that happened to `n` was being put on a
      CPU, or nothing if it was being taken off one. */
  function Armed(n: Comm, armed: Option<u64>, prev: Comm, e: Switch): Option<u64> {
    if e.next == n then Some(e.at) else if prev == n then None else armed
  }

  /** Time on CPU that goes uncredited, by the schedule alone: time that passes after one CPU has
      dropped `n` while another still runs it, and time before a second CPU picks `n` up. */
  function LostTime(n: Comm, m: Machine, armed: Option<u64>, es: seq<Switch>): int
    requires ValidRun(m, es)
    decreases |es|
  {
    if es == [] then 0
    else
      var e, prev := es[0], m.running[es[0].cpu];
      (if n in m.running && armed.None? then e.at - m.clock else 0)
      + (if e.next == n && prev != n && armed.Some? then e.at - armed.value else 0)
      + LostTime(n, Step(m, e), Armed(n, armed, prev, e), es[1..])
  }

  /** The map has an entry or room for `n` whenever `n` is put on a CPU. */
  predicate RoomFor(n: Comm, m: Machine, es: seq<Switch>)
    requires ValidRun(m, es)
    decreases |es|
  {
    es != [] ==>
      && (es[0].next == n ==> Trackable(n, SwitchOut(m.stats, m.running[es[0].cpu], es[0].at)))
      && RoomFor(n, Step(m, es[0]), es[1..])
  }

  /** The stamp in the map is what the schedule says. */
  predicate Mirrors(n: Comm, m: Machine, armed: Option<u64>) {
    && !IsCommEmpty(n)
    && (armed.Some? <==> n in m.stats && m.stats[n].lastSchedInNs > 0)
    && (armed.Some? ==> m.stats[n].lastSchedInNs == armed.value <= m.clock && n in m.running)
    && Accounted(n, m) <= m.clock
  }

  lemma StepLoses(n: Comm, m: Machine, armed: Option<u64>, e: Switch)
    requires Enabled(m, e) && Mirrors(n, m, armed)
    requires e.next == n ==> Trackable(n, SwitchOut(m.stats, m.running[e.cpu], e.at))
    ensures var prev := m.running[e.cpu];
      && Mirrors(n, Step(m, e), Armed(n, armed, prev, e))
      && Accounted(n, Step(m, e))
         + (if n in m.running && armed.None? then e.at - m.clock else 0)
         + (if e.next == n && prev != n && armed.Some? then e.at - armed.value else 0)
         == Accounted(n, m) + (if n in m.running then e.at - m.clock else 0)
  {
    var prev := m.running[e.cpu];
    assert prev in m.running;
    if n == e.next {
      NowRunning(m, e);
    } else if n != prev {
      SwitchKeepsOthers(m.stats, prev, e.next, e.at, n);
      if n in m.running {
        StillRunning(m, e, n);
      }
    }
  }

  /** For every schedule: time credited and pending plus time lost is exactly time on CPU. So the
      account is exact if and only if the schedule loses nothing. */
  lemma {:induction false} CreditLaw(n: Comm, m: Machine, armed: Option<u64>, es: seq<Switch>)
    requires ValidRun(m, es) && RoomFor(n, m, es) && Mirrors(n, m, armed)
    ensures Accounted(n, Exec(m, es)) + LostTime(n, m, armed, es) == Accounted(n, m) + BusyTime(n, m, es)
    ensures Accounted(n, Exec(m, es)) == Accounted(n, m) + BusyTime(n, m, es) <==> LostTime(n, m, armed, es) == 0
    decreases |es|
  {
    hide Mirrors, Accounted, Trackable, Armed;
    if es != [] {
      StepLoses(n, m, armed, es[0]);
      CreditLaw(n, Step(m, es[0]), Armed(n, armed, m.running[es[0].cpu], es[0]), es[1..]);
    }
  }

  // ----- One CPU

  /** What all names together have been credited with. */
  ghost function TotalCredit(m: CpuMap): nat
    decreases |m|
  {
    if m == map[] then 0 else
      var c :| c in m;
      m[c].cpuTimeNs + TotalCredit(m - {c})
  }

  lemma {:induction false} TotalCreditPick(m: CpuMap, x: Comm)
    requires x in m
    ensures TotalCredit(m) == m[x].cpuTimeNs + TotalCredit(m - {x})
    decreases |m|
  {
    var c :| c in m && TotalCredit(m) == m[c].cpuTimeNs + TotalCredit(m - {c});
    if c != x {
      TotalCreditPick(m - {c}, x);
      TotalCreditPick(m - {x}, c);
      assert m - {c} - {x} == m - {x} - {c};
    }
  }

  lemma TotalCreditUpdate(m: CpuMap, x: Comm, s: CpuStats)
    ensures TotalCredit(m[x := s]) == TotalCredit(m) - (if x in m then m[x].cpuTimeNs else 0) + s.cpuTimeNs
  {
    var m' := m[x := s];
    TotalCreditPick(m', x);
    if x in m {
      TotalCreditPick(m, x);
      assert m' - {x} == m - {x};
    } else {
      assert m' - {x} == m;
    }
  }

  /** On one CPU the running name alone has a pending stamp, and everything before that stamp, back to
      the first switch at `t0`, has been credited to someone. */
  ghost predicate OneCpu(m: Machine, t0: u64) {
    && |m.running| == 1 && !IsCommEmpty(m.running[0]) && m.running[0] in m.stats && t0 > 0
    && m.stats[m.running[0]].lastSchedInNs == m.clock
    && TotalCredit(m.stats) == m.clock - t0
    && forall c :: c in m.stats ==> m.stats[c].cpuTimeNs <= m.clock - t0
  }

  predicate RoomyRun(m: Machine, es: seq<Switch>)
    requires ValidRun(m, es)
    decreases |es|
  {
    es != [] ==>
      && Trackable(es[0].next, SwitchOut(m.stats, m.running[es[0].cpu], es[0].at))
      && RoomyRun(Step(m, es[0]), es[1..])
  }

  lemma OneCpuStep(m: Machine, e: Switch, t0: u64)
    requires Enabled(m, e) && OneCpu(m, t0) && t0 <= m.clock
    requires Trackable(e.next, SwitchOut(m.stats, m.running[e.cpu], e.at))
    ensures OneCpu(Step(m, e), t0) && t0 <= Step(m, e).clock
  {
    var prev := m.running[0];
    var s := m.stats[prev];
    var out := SwitchOut(m.stats, prev, e.at);
    TotalCreditUpdate(m.stats, prev, CpuStats(SatAdd(s.cpuTimeNs, e.at - m.clock), 0));
    assert out == m.stats[prev := CpuStats(s.cpuTimeNs + (e.at - m.clock), 0)];
    var credit := if e.next in out then out[e.next].cpuTimeNs else 0;
    TotalCreditUpdate(out, e.next, CpuStats(credit, e.at));
    assert Step(m, e).stats == out[e.next := CpuStats(credit, e.at)];
  }

  /** With one CPU, named tasks and room in the map, the credits of all names together add up to the
      time elapsed since the first switch. */
  lemma {:induction false} CreditsTileTime(m: Machine, es: seq<Switch>, t0: u64)
    requires ValidRun(m, es) && RoomyRun(m, es) && OneCpu(m, t0) && t0 <= m.clock
    ensures TotalCredit(Exec(m, es).stats) == Exec(m, es).clock - t0
    decreases |es|
  {
    hide TotalCredit, Trackable, SwitchCpu;
    if es != [] {
      OneCpuStep(m, es[0], t0);
      CreditsTileTime(Step(m, es[0]), es[1..], t0);
    }
  }

  /** The first switch on an empty map establishes that state. */
  lemma FirstSwitch(m: Machine, e: Switch)
    requires Enabled(m, e) && |m.running| == 1 && m.stats == map[] && !IsCommEmpty(e.next)
    ensures OneCpu(Step(m, e), e.at)
  {
    var s := CpuStats(0, e.at);
    TotalCreditUpdate(m.stats, e.next, s);
    assert Step(m, e).stats == m.stats[e.next := s];
  }

  // ----- Byte counters

  /** One counted transfer of a name. */
  datatype Transfer = Transfer(comm: Comm, first: u64, second: u64)

  function BumpAll(m: ByteMap, ts: seq<Transfer>): ByteMap {
    if ts == [] then m
    else
      var last := ts[|ts| - 1];
      Bump(BumpAll(m, ts[..|ts| - 1]), last.comm, last.first, last.second)
  }

  function SentBy(c: Comm, ts: seq<Transfer>): nat {
    if ts == [] then 0
    else SentBy(c, ts[..|ts| - 1]) + (if ts[|ts| - 1].comm == c then ts[|ts| - 1].first else 0)
  }

  function ReceivedBy(c: Comm, ts: seq<Transfer>): nat {
    if ts == [] then 0
    else ReceivedBy(c, ts[..|ts| - 1]) + (if ts[|ts| - 1].comm == c then ts[|ts| - 1].second else 0)
  }

  function Capped(n: nat): u64 {
    if n < U64_LIMIT then n else U64_LIMIT - 1
  }

  predicate Mentions(c: Comm, ts: seq<Transfer>) {
    exists i :: 0 <= i < |ts| && ts[i].comm == c
  }

  /** A name with an entry has counted every one of its transfers, up to the 64-bit ceiling; a name
      that moved bytes but has no entry met a map that is full for good. */
  lemma {:induction false} CountersExact(c: Comm, ts: seq<Transfer>)
    ensures c in BumpAll(map[], ts) ==>
              BumpAll(map[], ts)[c] == ByteStats(Capped(SentBy(c, ts)), Capped(ReceivedBy(c, ts)))
    ensures c !in BumpAll(map[], ts) && Mentions(c, ts) ==> |BumpAll(map[], ts)| >= 10_240
    ensures !Mentions(c, ts) ==> c !in BumpAll(map[], ts) && SentBy(c, ts) == 0 == ReceivedBy(c, ts)
  {
    if ts != [] {
      var init, last := ts[..|ts| - 1], ts[|ts| - 1];
      CountersExact(c, init);
      assert Mentions(c, ts) <==> Mentions(c, init) || last.comm == c by {
        if Mentions(c, init) {
          var i :| 0 <= i < |init| && init[i].comm == c;
          assert ts[i].comm == c;
        }
        if Mentions(c, ts) {
          var i :| 0 <= i < |ts| && ts[i].comm == c;
          assert i < |init| ==> init[i].comm == c;
        }
        assert ts[|ts| - 1] == last;
      }
    }
  }

  /** Every probe respects the size of its map. */
  lemma MapsStayBounded(m: CpuMap, b: ByteMap, prev: Comm, next: Comm, now: u64, x: u64, y: u64)
    requires |m| <= 10_240 && |b| <= 10_240
    ensures |SwitchCpu(m, prev, next, now)| <= 10_240
    ensures |Bump(b, next, x, y)| <= 10_240
  {
    var out := SwitchOut(m, prev, now);
    assert out.Keys == m.Keys;
    assert |out.Keys| == |m.Keys|;
    if next in out {
      assert SwitchIn(out, next, now).Keys == out.Keys;
    }
    if next in b {
      assert Bump(b, next, x, y).Keys == b.Keys;
      assert |Bump(b, next, x, y).Keys| == |b.Keys|;
    }
    assert |SwitchIn(out, next, now).Keys| == |SwitchIn(out, next, now)|;
  }
}
