/** Combining the records of one group into one record: additive fields are summed, readings are
    averaged, and categorical fields keep their last (or first) value. */
module Aggregation {
  import opened Metrics

  // ----- Additive fields

  datatype SumField = TxBytes | RxBytes | CpuNs | ReadBytes | WriteBytes | FocusMs

  function Amount(f: SumField, p: Payload): nat {
    match (f, p)
    case (TxBytes, NetPayload(d)) => d.txBytes
    case (RxBytes, NetPayload(d)) => d.rxBytes
    case (CpuNs, CpuPayload(d)) => d.cpuTimeNs
    case (ReadBytes, DskPayload(d)) => d.readBytes
    case (WriteBytes, DskPayload(d)) => d.writeBytes
    case (FocusMs, FocPayload(d)) => d.durationMs
    case _ => 0
  }

  function SumOf(f: SumField, ps: seq<Payload>): nat {
    if ps == [] then 0 else SumOf(f, ps[..|ps| - 1]) + Amount(f, ps[|ps| - 1])
  }

  // ----- Averaged fields

  datatype NatField =
    | Connections | Threads | Rss | Vms | Swap | Processes | VoltageUv
    | VramUsed | VramTotal | CoreClock | MemoryClock | ProcVram

  function NatReading(f: NatField, p: Payload): Option<nat> {
    match (f, p)
    case (Connections, NetPayload(d)) => Some(d.connections)
    case (Threads, CpuPayload(d)) => Some(d.threadCount)
    case (Rss, MemPayload(d)) => Some(d.rssBytes)
    case (Vms, MemPayload(d)) => Some(d.vmsBytes)
    case (Swap, MemPayload(d)) => Some(d.swapBytes)
    case (Processes, MemPayload(d)) => Some(d.processCount)
    case (VoltageUv, PwrPayload(d)) => d.batteryVoltageUv
    case (VramUsed, GpuPayload(d)) => d.vramUsedBytes
    case (VramTotal, GpuPayload(d)) => d.vramTotalBytes
    case (CoreClock, GpuPayload(d)) => d.coreClockMhz
    case (MemoryClock, GpuPayload(d)) => d.memoryClockMhz
    case (ProcVram, GpuProcPayload(d)) => d.vramUsedBytes
    case _ => None
  }

  datatype RealField =
    | CpuUsage | Watts | Battery | RaplPackage | RaplCore | FreqRatio | Brightness
    | GpuUsage | Temperature | PowerDraw | ProcUsage

  function RealReading(f: RealField, p: Payload): Option<real> {
    match (f, p)
    case (CpuUsage, CpuPayload(d)) => Some(d.cpuUsagePercent)
    case (Watts, PwrPayload(d)) => Some(d.wattUsage)
    case (Battery, PwrPayload(d)) => d.batteryPercent
    case (RaplPackage, PwrPayload(d)) => d.raplPackageWatts
    case (RaplCore, PwrPayload(d)) => d.raplCoreWatts
    case (FreqRatio, PwrPayload(d)) => d.avgCpuFreqRatio
    case (Brightness, PwrPayload(d)) => d.displayBrightness
    case (GpuUsage, GpuPayload(d)) => d.usagePercent
    case (Temperature, GpuPayload(d)) => d.temperatureCelsius
    case (PowerDraw, GpuPayload(d)) => d.powerDrawWatts
    case (ProcUsage, GpuProcPayload(d)) => d.usagePercent
    case _ => None
  }

  /** Battery current, the only signed reading: negative while discharging. */
  function CurrentReading(p: Payload): Option<int> {
    if p.PwrPayload? then p.pwr.batteryCurrentUa else None
  }

  function Present<T>(o: Option<T>): seq<T> {
    if o.Some? then [o.value] else []
  }

  function Nats(f: NatField, ps: seq<Payload>): seq<nat> {
    if ps == [] then [] else Nats(f, ps[..|ps| - 1]) + Present(NatReading(f, ps[|ps| - 1]))
  }

  function Reals(f: RealField, ps: seq<Payload>): seq<real> {
    if ps == [] then [] else Reals(f, ps[..|ps| - 1]) + Present(RealReading(f, ps[|ps| - 1]))
  }

  function Currents(ps: seq<Payload>): seq<int> {
    if ps == [] then [] else Currents(ps[..|ps| - 1]) + Present(CurrentReading(ps[|ps| - 1]))
  }

  function NatTotal(vs: seq<nat>): nat {
    if vs == [] then 0 else NatTotal(vs[..|vs| - 1]) + vs[|vs| - 1]
  }

  function RealTotal(vs: seq<real>): real {
    if vs == [] then 0.0 else RealTotal(vs[..|vs| - 1]) + vs[|vs| - 1]
  }

  function IntTotal(vs: seq<int>): int {
    if vs == [] then 0 else IntTotal(vs[..|vs| - 1]) + vs[|vs| - 1]
  }

  /** Rounding to nearest, halves up. */
  function RoundedDiv(a: nat, n: nat): nat
    requires n > 0
  {
    (2 * a + n) / (2 * n)
  }

  /** Signed division truncating toward zero. */
  function TruncatedDiv(a: int, n: nat): int
    requires n > 0
  {
    if a >= 0 then a / n else -((-a) / n)
  }

  function NatMean(vs: seq<nat>): Option<nat> {
    if vs == [] then None else Some(NatTotal(vs) / |vs|)
  }

  function RealMean(vs: seq<real>): Option<real> {
    if vs == [] then None else Some(RealTotal(vs) / (|vs| as real))
  }

  function IntMean(vs: seq<int>): Option<int> {
    if vs == [] then None else Some(TruncatedDiv(IntTotal(vs), |vs|))
  }

  // ----- Categorical fields

  function LastMount(ps: seq<Payload>): Bytes {
    if ps != [] && ps[|ps| - 1].DskPayload? then ps[|ps| - 1].dsk.mountPoint else []
  }

  function LastAppId(ps: seq<Payload>): Bytes {
    if ps != [] && ps[|ps| - 1].FocPayload? then ps[|ps| - 1].foc.appId else []
  }

  function LastCharging(ps: seq<Payload>): bool {
    if ps == [] then false
    else if ps[|ps| - 1].PwrPayload? then ps[|ps| - 1].pwr.charging
    else LastCharging(ps[..|ps| - 1])
  }

  /** The last known link kind; records that do not know it are skipped. */
  function LastWifi(ps: seq<Payload>): Option<bool> {
    if ps == [] then None
    else if ps[|ps| - 1].PwrPayload? && ps[|ps| - 1].pwr.isWifi.Some? then ps[|ps| - 1].pwr.isWifi
    else LastWifi(ps[..|ps| - 1])
  }

  function FirstGpu(ps: seq<Payload>): Option<(nat, GpuVendor)> {
    if ps == [] then None
    else
      var first := FirstGpu(ps[..|ps| - 1]);
      var last := ps[|ps| - 1];
      if first.None? && last.GpuPayload? then Some((last.gpu.gpuIndex, last.gpu.vendor)) else first
  }

  function LastGpuName(ps: seq<Payload>): Bytes {
    if ps != [] && ps[|ps| - 1].GpuPayload? then ps[|ps| - 1].gpu.name else []
  }

  /** The first non-zero GPU index; zero doubles as "not seen yet". */
  function ProcGpuIndex(ps: seq<Payload>): nat {
    if ps == [] then 0
    else
      var index := ProcGpuIndex(ps[..|ps| - 1]);
      var last := ps[|ps| - 1];
      if index == 0 && last.GpuProcPayload? then last.proc.gpuIndex else index
  }

  // ----- The aggregate

  function MeanDown(vs: seq<nat>, n: nat): nat
    requires n > 0
  {
    NatTotal(vs) / n
  }

  function MeanRounded(vs: seq<nat>, n: nat): nat
    requires n > 0
  {
    RoundedDiv(NatTotal(vs), n)
  }

  function MeanReal(vs: seq<real>, n: nat): real
    requires n > 0
  {
    RealTotal(vs) / (n as real)
  }

  function AggregatePower(ps: seq<Payload>): PowerData
    requires ps != []
  {
    PowerData(
      MeanReal(Reals(Watts, ps), |ps|),
      RealMean(Reals(Battery, ps)),
      LastCharging(ps),
      RealMean(Reals(RaplPackage, ps)),
      RealMean(Reals(RaplCore, ps)),
      IntMean(Currents(ps)),
      NatMean(Nats(VoltageUv, ps)),
      RealMean(Reals(FreqRatio, ps)),
      RealMean(Reals(Brightness, ps)),
      LastWifi(ps))
  }

  function AggregateGpu(ps: seq<Payload>): GpuData {
    var first := FirstGpu(ps);
    var (index, vendor) := if first.Some? then first.value else (0, Unknown);
    GpuData(
      index, vendor, LastGpuName(ps),
      RealMean(Reals(GpuUsage, ps)),
      NatMean(Nats(VramUsed, ps)),
      NatMean(Nats(VramTotal, ps)),
      RealMean(Reals(Temperature, ps)),
      RealMean(Reals(PowerDraw, ps)),
      NatMean(Nats(CoreClock, ps)),
      NatMean(Nats(MemoryClock, ps)))
  }

  function AggregateGpuProc(ps: seq<Payload>): GpuProcessData {
    GpuProcessData(ProcGpuIndex(ps), RealMean(Reals(ProcUsage, ps)), NatMean(Nats(ProcVram, ps)))
  }

  /** The payload that stands for a non-empty group; the first record decides the kind. */
  function Aggregate(ps: seq<Payload>): Payload
    requires ps != []
  {
    match ps[0]
    case NetPayload(_) =>
      NetPayload(NetworkData(SumOf(TxBytes, ps), SumOf(RxBytes, ps), MeanRounded(Nats(Connections, ps), |ps|)))
    case CpuPayload(_) =>
      CpuPayload(CpuData(SumOf(CpuNs, ps), MeanReal(Reals(CpuUsage, ps), |ps|), MeanRounded(Nats(Threads, ps), |ps|)))
    case MemPayload(_) =>
      MemPayload(MemoryData(MeanDown(Nats(Rss, ps), |ps|), MeanDown(Nats(Vms, ps), |ps|),
                            MeanDown(Nats(Swap, ps), |ps|), MeanRounded(Nats(Processes, ps), |ps|)))
    case DskPayload(_) =>
      DskPayload(DiskData(SumOf(ReadBytes, ps), SumOf(WriteBytes, ps), LastMount(ps)))
    case FocPayload(_) =>
      FocPayload(FocusData(LastAppId(ps), SumOf(FocusMs, ps)))
    case PwrPayload(_) =>
      PwrPayload(AggregatePower(ps))
    case GpuPayload(_) =>
      GpuPayload(AggregateGpu(ps))
    case GpuProcPayload(_) =>
      GpuProcPayload(AggregateGpuProc(ps))
  }

  predicate SameKind(ps: seq<Payload>, k: MetricType) {
    forall i :: 0 <= i < |ps| ==> KindOf(ps[i]) == k
  }

  /** The additive fields of an aggregate are the sums of its parts. */
  lemma {:induction false} AggregateSums(f: SumField, ps: seq<Payload>)
    requires ps != [] && SameKind(ps, KindOf(ps[0]))
    ensures KindOf(Aggregate(ps)) == KindOf(ps[0])
    ensures Amount(f, Aggregate(ps)) == SumOf(f, ps)
  {
    hide SumOf, AggregatePower, AggregateGpu, AggregateGpuProc, Nats, Reals, MeanDown, MeanRounded, MeanReal;
    if FieldKind(f) != KindOf(ps[0]) {
      NothingToSum(f, ps);
    }
  }

  /** The only kind of record that carries the field. */
  function FieldKind(f: SumField): MetricType {
    match f
    case TxBytes => Net
    case RxBytes => Net
    case CpuNs => Cpu
    case ReadBytes => Dsk
    case WriteBytes => Dsk
    case FocusMs => Foc
  }

  lemma {:induction false} NothingToSum(f: SumField, ps: seq<Payload>)
    requires forall i :: 0 <= i < |ps| ==> Amount(f, ps[i]) == 0
    ensures SumOf(f, ps) == 0
  {
    if ps != [] {
      NothingToSum(f, ps[..|ps| - 1]);
    }
  }

  // ----- Rollups of any depth

  /** How a stored record came about: a raw record, or an aggregate of earlier ones. */
  datatype Rollup = Leaf(payload: Payload) | Node(parts: seq<Rollup>)

  ghost predicate WellFormed(r: Rollup, k: MetricType) {
    match r
    case Leaf(p) => KindOf(p) == k
    case Node(parts) => parts != [] && forall i :: 0 <= i < |parts| ==> WellFormed(parts[i], k)
  }

  ghost function Leaves(r: Rollup): seq<Payload>
    decreases r, 1
  {
    match r
    case Leaf(p) => [p]
    case Node(parts) => LeavesOf(parts)
  }

  ghost function LeavesOf(rs: seq<Rollup>): seq<Payload>
    decreases rs, 0
  {
    if rs == [] then [] else LeavesOf(rs[..|rs| - 1]) + Leaves(rs[|rs| - 1])
  }

  ghost function Eval(r: Rollup, k: MetricType): (p: Payload)
    requires WellFormed(r, k)
    ensures KindOf(p) == k
    decreases r, 1
  {
    match r
    case Leaf(p) => p
    case Node(parts) =>
      var ps := EvalAll(parts, k);
      AggregateSums(TxBytes, ps);
      Aggregate(ps)
  }

  ghost function EvalAll(rs: seq<Rollup>, k: MetricType): (ps: seq<Payload>)
    requires forall i :: 0 <= i < |rs| ==> WellFormed(rs[i], k)
    ensures |ps| == |rs| && SameKind(ps, k)
    decreases rs, 0
  {
    if rs == [] then [] else EvalAll(rs[..|rs| - 1], k) + [Eval(rs[|rs| - 1], k)]
  }

  lemma {:induction false} LeavesSameKind(r: Rollup, k: MetricType)
    requires WellFormed(r, k)
    ensures Leaves(r) != [] && SameKind(Leaves(r), k)
    decreases r, 1
  {
    if r.Node? {
      LeavesOfSameKind(r.parts, k);
    }
  }

  lemma {:induction false} LeavesOfSameKind(rs: seq<Rollup>, k: MetricType)
    requires forall i :: 0 <= i < |rs| ==> WellFormed(rs[i], k)
    ensures SameKind(LeavesOf(rs), k)
    ensures rs != [] ==> LeavesOf(rs) != []
    decreases rs, 0
  {
    if rs != [] {
      LeavesOfSameKind(rs[..|rs| - 1], k);
      LeavesSameKind(rs[|rs| - 1], k);
    }
  }

  // ----- Fusion: summed, first-value and last-value fields forget the shape of the rollup

  /** What a payload keeps exactly through any number of tiers. */
  datatype Essence =
    | NetEssence(tx: nat, rx: nat)
    | CpuEssence(ns: nat)
    | MemEssence
    | DskEssence(read: nat, written: nat, mount: Bytes)
    | FocEssence(ms: nat, appId: Bytes)
    | PwrEssence(charging: bool, wifi: Option<bool>)
    | GpuEssence(index: nat, vendor: GpuVendor, name: Bytes)
    | GpuProcEssence(procIndex: nat)

  function EssenceOf(p: Payload): Essence {
    match p
    case NetPayload(d) => NetEssence(d.txBytes, d.rxBytes)
    case CpuPayload(d) => CpuEssence(d.cpuTimeNs)
    case MemPayload(_) => MemEssence
    case DskPayload(d) => DskEssence(d.readBytes, d.writeBytes, d.mountPoint)
    case FocPayload(d) => FocEssence(d.durationMs, d.appId)
    case PwrPayload(d) => PwrEssence(d.charging, d.isWifi)
    case GpuPayload(d) => GpuEssence(d.gpuIndex, d.vendor, d.name)
    case GpuProcPayload(d) => GpuProcEssence(d.gpuIndex)
  }

  /** Two consecutive stretches of one series, earlier first. */
  function Join(a: Essence, b: Essence): Essence {
    match (a, b)
    case (NetEssence(t, r), NetEssence(t', r')) => NetEssence(t + t', r + r')
    case (CpuEssence(n), CpuEssence(n')) => CpuEssence(n + n')
    case (DskEssence(r, w, _), DskEssence(r', w', m')) => DskEssence(r + r', w + w', m')
    case (FocEssence(d, _), FocEssence(d', i')) => FocEssence(d + d', i')
    case (PwrEssence(_, w), PwrEssence(c', w')) => PwrEssence(c', if w'.Some? then w' else w)
    case (GpuEssence(i, v, _), GpuEssence(_, _, n')) => GpuEssence(i, v, n')
    case (GpuProcEssence(i), GpuProcEssence(i')) => GpuProcEssence(if i == 0 then i' else i)
    case _ => a
  }

  function JoinAll(ps: seq<Payload>): Essence
    requires ps != []
  {
    if |ps| == 1 then EssenceOf(ps[0])
    else Join(JoinAll(ps[..|ps| - 1]), EssenceOf(ps[|ps| - 1]))
  }

  lemma {:induction false} AggregateEssence(ps: seq<Payload>)
    requires ps != [] && SameKind(ps, KindOf(ps[0]))
    ensures EssenceOf(Aggregate(ps)) == JoinAll(ps)
  {
    hide EssenceOf, Aggregate, Join;
    var init := ps[..|ps| - 1];
    if |ps| == 1 {
      EssenceOfOne(ps);
    } else {
      assert init[0] == ps[0];
      AggregateEssence(init);
      match ps[0]
      case PwrPayload(_) => EssenceOfMoreReadings(ps);
      case GpuPayload(_) => EssenceOfMoreReadings(ps);
      case GpuProcPayload(_) => EssenceOfMoreReadings(ps);
      case _ => EssenceOfMoreUse(ps);
    }
  }

  lemma EssenceOfOne(ps: seq<Payload>)
    requires |ps| == 1
    ensures EssenceOf(Aggregate(ps)) == EssenceOf(ps[0])
  {
    hide Nats, Reals, Currents, NatMean, RealMean, IntMean, MeanDown, MeanRounded, MeanReal;
    var init := ps[..0];
    assert forall f :: SumOf(f, ps) == SumOf(f, init) + Amount(f, ps[0]);
    assert LastWifi(init) == None && FirstGpu(init) == None && ProcGpuIndex(init) == 0;
  }

  /** One more network, CPU, memory, disk or focus record. */
  lemma EssenceOfMoreUse(ps: seq<Payload>)
    requires |ps| > 1 && SameKind(ps, KindOf(ps[0]))
    requires !ps[0].PwrPayload? && !ps[0].GpuPayload? && !ps[0].GpuProcPayload?
    ensures EssenceOf(Aggregate(ps)) == Join(EssenceOf(Aggregate(ps[..|ps| - 1])), EssenceOf(ps[|ps| - 1]))
  {
    hide Nats, Reals, MeanDown, MeanRounded, MeanReal, AggregatePower, AggregateGpu, AggregateGpuProc;
    assert ps[..|ps| - 1][0] == ps[0];
  }

  /** One more power or GPU record. */
  lemma EssenceOfMoreReadings(ps: seq<Payload>)
    requires |ps| > 1 && SameKind(ps, KindOf(ps[0]))
    requires ps[0].PwrPayload? || ps[0].GpuPayload? || ps[0].GpuProcPayload?
    ensures EssenceOf(Aggregate(ps)) == Join(EssenceOf(Aggregate(ps[..|ps| - 1])), EssenceOf(ps[|ps| - 1]))
  {
    hide Nats, Reals, Currents, NatMean, RealMean, IntMean, MeanReal, SumOf, MeanDown, MeanRounded;
    assert ps[..|ps| - 1][0] == ps[0];
    FirstGpuKnown(ps[..|ps| - 1]);
  }

  lemma FirstGpuKnown(ps: seq<Payload>)
    ensures ps != [] && ps[0].GpuPayload? ==> FirstGpu(ps).Some?
  {
    if |ps| > 1 {
      assert ps[..|ps| - 1][0] == ps[0];
    }
  }

  lemma {:induction false} JoinAllKind(ps: seq<Payload>, k: MetricType)
    requires ps != [] && SameKind(ps, k)
    ensures exists p :: KindOf(p) == k && EssenceOf(p) == JoinAll(ps)
  {
    AggregateSums(TxBytes, ps);
    AggregateEssence(ps);
  }

  lemma JoinAssociative(a: Payload, b: Payload, c: Payload)
    requires KindOf(a) == KindOf(b) == KindOf(c)
    ensures Join(Join(EssenceOf(a), EssenceOf(b)), EssenceOf(c))
         == Join(EssenceOf(a), Join(EssenceOf(b), EssenceOf(c)))
  {}

  lemma {:induction false} JoinAllConcat(xs: seq<Payload>, ys: seq<Payload>, k: MetricType)
    requires xs != [] && ys != [] && SameKind(xs, k) && SameKind(ys, k)
    ensures JoinAll(xs + ys) == Join(JoinAll(xs), JoinAll(ys))
    decreases |ys|
  {
    var n := |ys|;
    assert (xs + ys)[..|xs + ys| - 1] == xs + ys[..n - 1];
    if n == 1 {
      assert xs + ys[..0] == xs;
    } else {
      JoinAllConcat(xs, ys[..n - 1], k);
      JoinAllKind(xs, k);
      JoinAllKind(ys[..n - 1], k);
      var a :| KindOf(a) == k && EssenceOf(a) == JoinAll(xs);
      var b :| KindOf(b) == k && EssenceOf(b) == JoinAll(ys[..n - 1]);
      JoinAssociative(a, b, ys[n - 1]);
    }
  }

  /** Rolling up through any number of tiers, split in any way, gives the same sums, last values and
      first values as aggregating all the raw records at once. */
  lemma {:induction false} RollupFusion(r: Rollup, k: MetricType)
    requires WellFormed(r, k)
    ensures Leaves(r) != []
    ensures EssenceOf(Eval(r, k)) == EssenceOf(Aggregate(Leaves(r)))
  {
    LeavesSameKind(r, k);
    AggregateEssence(Leaves(r));
    RollupEssence(r, k);
  }

  lemma {:induction false} RollupEssence(r: Rollup, k: MetricType)
    requires WellFormed(r, k)
    ensures Leaves(r) != [] && EssenceOf(Eval(r, k)) == JoinAll(Leaves(r))
    decreases r, 1
  {
    LeavesSameKind(r, k);
    if r.Node? {
      RollupEssences(r.parts, k);
      AggregateEssence(EvalAll(r.parts, k));
    }
  }

  lemma {:induction false} RollupEssences(rs: seq<Rollup>, k: MetricType)
    requires rs != [] && forall i :: 0 <= i < |rs| ==> WellFormed(rs[i], k)
    ensures LeavesOf(rs) != [] && JoinAll(EvalAll(rs, k)) == JoinAll(LeavesOf(rs))
    decreases rs, 0
  {
    var init, last := rs[..|rs| - 1], rs[|rs| - 1];
    RollupEssence(last, k);
    LeavesSameKind(last, k);
    LeavesOfSameKind(rs, k);
    var ps := EvalAll(rs, k);
    if init == [] {
      assert ps == [Eval(last, k)];
      assert LeavesOf(rs) == Leaves(last);
    } else {
      RollupEssences(init, k);
      LeavesOfSameKind(init, k);
      assert ps[..|ps| - 1] == EvalAll(init, k);
      JoinAllConcat(LeavesOf(init), Leaves(last), k);
    }
  }

  // ----- Averages stay in the hull

  lemma {:induction false} NatTotalBounds(vs: seq<nat>, lo: nat, hi: nat)
    requires forall i :: 0 <= i < |vs| ==> lo <= vs[i] <= hi
    ensures lo * |vs| <= NatTotal(vs) <= hi * |vs|
  {
    if vs != [] {
      NatTotalBounds(vs[..|vs| - 1], lo, hi);
      assert lo * |vs| == lo * (|vs| - 1) + lo && hi * |vs| == hi * (|vs| - 1) + hi;
    }
  }

  lemma {:induction false} RealTotalBounds(vs: seq<real>, lo: real, hi: real)
    requires forall i :: 0 <= i < |vs| ==> lo <= vs[i] <= hi
    ensures lo * (|vs| as real) <= RealTotal(vs) <= hi * (|vs| as real)
  {
    if vs != [] {
      RealTotalBounds(vs[..|vs| - 1], lo, hi);
      assert |vs| as real == (|vs| - 1) as real + 1.0;
    }
  }

  lemma {:induction false} IntTotalBounds(vs: seq<int>, lo: int, hi: int)
    requires forall i :: 0 <= i < |vs| ==> lo <= vs[i] <= hi
    ensures lo * |vs| <= IntTotal(vs) <= hi * |vs|
  {
    if vs != [] {
      IntTotalBounds(vs[..|vs| - 1], lo, hi);
      assert lo * |vs| == lo * (|vs| - 1) + lo && hi * |vs| == hi * (|vs| - 1) + hi;
    }
  }

  lemma {:induction false} MulStep(x: int, y: int, n: nat)
    ensures x < y ==> x * n + n <= y * n
    decreases y - x
  {
    if x < y {
      MulStep(x, y - 1, n);
      assert y * n == (y - 1) * n + n;
    }
  }

  lemma DivModLaw(a: int, n: nat)
    requires n > 0
    ensures a == (a / n) * n + a % n && 0 <= a % n < n
  {}

  lemma DivBounds(a: int, n: nat, lo: int, hi: int)
    requires n > 0 && lo * n <= a <= hi * n
    ensures lo <= a / n <= hi
  {
    MulStep(a / n, lo, n);
    MulStep(hi, a / n, n);
    DivModLaw(a, n);
  }

  lemma RoundedDivBounds(a: nat, n: nat, lo: nat, hi: nat)
    requires n > 0 && lo * n <= a <= hi * n
    ensures lo <= RoundedDiv(a, n) <= hi
  {
    var b, m := 2 * a + n, 2 * n;
    MulStep(b / m, lo, m);
    MulStep(hi, b / m, m);
    DivModLaw(b, m);
    assert lo * m == 2 * (lo * n) && hi * m == 2 * (hi * n);
  }

  lemma TruncatedDivBounds(a: int, n: nat, lo: int, hi: int)
    requires n > 0 && lo * n <= a <= hi * n
    ensures lo <= TruncatedDiv(a, n) <= hi
  {
    if a >= 0 {
      DivBounds(a, n, lo, hi);
    } else {
      DivBounds(-a, n, -hi, -lo);
    }
  }

  lemma RealMulStep(x: real, y: real, n: real)
    requires n > 0.0
    ensures x < y ==> x * n < y * n
  {
    if x < y {
      assert (y - x) * n > 0.0;
    }
  }

  lemma RealDivBounds(a: real, n: real, lo: real, hi: real)
    requires n > 0.0 && lo * n <= a <= hi * n
    ensures lo <= a / n <= hi
  {
    assert (a / n) * n == a;
    RealMulStep(a / n, lo, n);
    RealMulStep(hi, a / n, n);
  }

  /** The rounded quotient is the nearest whole number, a half going up. */
  lemma RoundedDivNearest(a: nat, n: nat)
    requires n > 0
    ensures 2 * (RoundedDiv(a, n) * n) - n <= 2 * a < 2 * (RoundedDiv(a, n) * n) + n
  {
    var q := RoundedDiv(a, n);
    DivModLaw(2 * a + n, 2 * n);
    assert q * (2 * n) == 2 * (q * n);
  }

  /** Division that truncates toward zero: the floor above zero, and mirrored below it. */
  lemma TruncatedDivTowardZero(a: nat, n: nat)
    requires n > 0
    ensures TruncatedDiv(a, n) * n <= a < TruncatedDiv(a, n) * n + n
    ensures TruncatedDiv(0 - a, n) == 0 - TruncatedDiv(a, n)
  {
    DivModLaw(a, n);
  }

  predicate NatWithin(f: NatField, p: Payload, lo: nat, hi: nat) {
    NatReading(f, p).Some? ==> lo <= NatReading(f, p).value <= hi
  }

  predicate RealWithin(f: RealField, p: Payload, lo: real, hi: real) {
    RealReading(f, p).Some? ==> lo <= RealReading(f, p).value <= hi
  }

  predicate CurrentWithin(p: Payload, lo: int, hi: int) {
    CurrentReading(p).Some? ==> lo <= CurrentReading(p).value <= hi
  }

  lemma {:induction false} NatsBounded(f: NatField, ps: seq<Payload>, lo: nat, hi: nat)
    requires forall i :: 0 <= i < |ps| ==> NatWithin(f, ps[i], lo, hi)
    ensures forall i :: 0 <= i < |Nats(f, ps)| ==> lo <= Nats(f, ps)[i] <= hi
  {
    hide NatReading;
    if ps != [] {
      var init, last := ps[..|ps| - 1], ps[|ps| - 1];
      NatsBounded(f, init, lo, hi);
      assert NatWithin(f, last, lo, hi);
    }
  }

  lemma {:induction false} NatsPresence(f: NatField, ps: seq<Payload>)
    ensures Nats(f, ps) != [] <==> exists i :: 0 <= i < |ps| && NatReading(f, ps[i]).Some?
    ensures (forall i :: 0 <= i < |ps| ==> NatReading(f, ps[i]).Some?) ==> |Nats(f, ps)| == |ps|
  {
    hide NatReading;
    if ps != [] {
      var init := ps[..|ps| - 1];
      NatsPresence(f, init);
      assert forall i :: 0 <= i < |init| ==> ps[i] == init[i];
    }
  }

  lemma {:induction false} RealsBounded(f: RealField, ps: seq<Payload>, lo: real, hi: real)
    requires forall i :: 0 <= i < |ps| ==> RealWithin(f, ps[i], lo, hi)
    ensures forall i :: 0 <= i < |Reals(f, ps)| ==> lo <= Reals(f, ps)[i] <= hi
  {
    hide RealReading;
    if ps != [] {
      var init, last := ps[..|ps| - 1], ps[|ps| - 1];
      RealsBounded(f, init, lo, hi);
      assert RealWithin(f, last, lo, hi);
    }
  }

  lemma {:induction false} RealsPresence(f: RealField, ps: seq<Payload>)
    ensures Reals(f, ps) != [] <==> exists i :: 0 <= i < |ps| && RealReading(f, ps[i]).Some?
    ensures (forall i :: 0 <= i < |ps| ==> RealReading(f, ps[i]).Some?) ==> |Reals(f, ps)| == |ps|
  {
    hide RealReading;
    if ps != [] {
      var init := ps[..|ps| - 1];
      RealsPresence(f, init);
      assert forall i :: 0 <= i < |init| ==> ps[i] == init[i];
    }
  }

  lemma {:induction false} CurrentsFacts(ps: seq<Payload>, lo: int, hi: int)
    requires forall i :: 0 <= i < |ps| ==> CurrentWithin(ps[i], lo, hi)
    ensures forall i :: 0 <= i < |Currents(ps)| ==> lo <= Currents(ps)[i] <= hi
    ensures Currents(ps) != [] <==> exists i :: 0 <= i < |ps| && CurrentReading(ps[i]).Some?
  {
    hide CurrentReading;
    if ps != [] {
      var init := ps[..|ps| - 1];
      CurrentsFacts(init, lo, hi);
      assert CurrentWithin(ps[|ps| - 1], lo, hi);
      assert forall i :: 0 <= i < |init| ==> ps[i] == init[i];
    }
  }

  predicate IsRounded(f: NatField) {
    f.Connections? || f.Threads? || f.Processes?
  }

  /** The averaged natural reading of an aggregate, in terms of the readings it averages. */
  lemma AggregateNatReading(f: NatField, ps: seq<Payload>)
    requires ps != [] && SameKind(ps, KindOf(ps[0]))
    ensures Nats(f, ps) == [] ==> NatReading(f, Aggregate(ps)) == None
    ensures Nats(f, ps) != [] ==>
              NatReading(f, Aggregate(ps)) ==
              Some(if IsRounded(f) then RoundedDiv(NatTotal(Nats(f, ps)), |Nats(f, ps)|)
                   else NatTotal(Nats(f, ps)) / |Nats(f, ps)|)
  {
    hide NatTotal, RealTotal, Nats, Reals, Currents, SumOf, RoundedDiv;
    hide LastMount, LastAppId, LastWifi, LastCharging, FirstGpu, LastGpuName, ProcGpuIndex;
    NatsPresence(f, ps);
    if NatReading(f, ps[0]).None? && Nats(f, ps) != [] {
      var i :| 0 <= i < |ps| && NatReading(f, ps[i]).Some?;
    }
  }

  lemma AggregateRealReading(f: RealField, ps: seq<Payload>)
    requires ps != [] && SameKind(ps, KindOf(ps[0]))
    ensures Reals(f, ps) == [] ==> RealReading(f, Aggregate(ps)) == None
    ensures Reals(f, ps) != [] ==>
              RealReading(f, Aggregate(ps)) == Some(RealTotal(Reals(f, ps)) / (|Reals(f, ps)| as real))
  {
    hide NatTotal, RealTotal, Nats, Reals, Currents, SumOf, RoundedDiv;
    hide LastMount, LastAppId, LastWifi, LastCharging, FirstGpu, LastGpuName, ProcGpuIndex;
    RealsPresence(f, ps);
    if RealReading(f, ps[0]).None? && Reals(f, ps) != [] {
      var i :| 0 <= i < |ps| && RealReading(f, ps[i]).Some?;
    }
  }

  /** The averaged battery current: the readings' sum divided by their number, the remainder having the
      sum's sign; none without a reading. */
  lemma AggregateCurrentReading(ps: seq<Payload>)
    requires ps != [] && SameKind(ps, KindOf(ps[0]))
    ensures var n, sum, c := |Currents(ps)|, IntTotal(Currents(ps)), CurrentReading(Aggregate(ps));
      && (c.None? <==> n == 0)
      && (n > 0 && sum >= 0 ==> 0 <= sum - c.value * n < n)
      && (n > 0 && sum <= 0 ==> 0 - n < sum - c.value * n <= 0)
  {
    hide Currents, IntTotal, Nats, Reals, LastWifi, LastCharging, NatMean, RealMean, MeanReal, SumOf;
    hide MeanDown, MeanRounded, AggregateGpu, AggregateGpuProc, TruncatedDiv;
    var vs := Currents(ps);
    CurrentsPresence(ps);
    if vs != [] {
      var i :| 0 <= i < |ps| && CurrentReading(ps[i]).Some?;
      assert ps[0].PwrPayload?;
      TruncatedDivRemainder(IntTotal(vs), |vs|);
    }
  }

  lemma TruncatedDivRemainder(a: int, n: nat)
    requires n > 0
    ensures a >= 0 ==> 0 <= a - TruncatedDiv(a, n) * n < n
    ensures a <= 0 ==> 0 - n < a - TruncatedDiv(a, n) * n <= 0
  {
    if a >= 0 {
      DivModLaw(a, n);
    } else {
      DivModLaw(-a, n);
      assert TruncatedDiv(a, n) * n == -((-a) / n * n);
    }
  }

  lemma {:induction false} CurrentsPresence(ps: seq<Payload>)
    ensures Currents(ps) != [] <==> exists i :: 0 <= i < |ps| && CurrentReading(ps[i]).Some?
  {
    hide CurrentReading;
    if ps != [] {
      var init := ps[..|ps| - 1];
      CurrentsPresence(init);
      assert forall i :: 0 <= i < |init| ==> ps[i] == init[i];
    }
  }

  // ----- What the sums and lists of readings are

  /** Sums of no, one and joined lists. */
  lemma {:induction false} TotalsAdd(a: seq<nat>, b: seq<nat>, x: seq<real>, y: seq<real>, u: seq<int>, v: seq<int>)
    ensures NatTotal(a + b) == NatTotal(a) + NatTotal(b)
    ensures RealTotal(x + y) == RealTotal(x) + RealTotal(y)
    ensures IntTotal(u + v) == IntTotal(u) + IntTotal(v)
    ensures NatTotal([]) == 0 && RealTotal([]) == 0.0 && IntTotal([]) == 0
    ensures |a| == 1 ==> NatTotal(a) == a[0]
    ensures |x| == 1 ==> RealTotal(x) == x[0]
    ensures |u| == 1 ==> IntTotal(u) == u[0]
  {
    NatTotalAdds(a, b);
    RealTotalAdds(x, y);
    IntTotalAdds(u, v);
  }

  lemma {:induction false} NatTotalAdds(a: seq<nat>, b: seq<nat>)
    ensures NatTotal(a + b) == NatTotal(a) + NatTotal(b)
    decreases |b|
  {
    if b == [] {
      assert a + b == a;
    } else {
      assert (a + b)[..|a + b| - 1] == a + b[..|b| - 1];
      NatTotalAdds(a, b[..|b| - 1]);
    }
  }

  lemma {:induction false} RealTotalAdds(a: seq<real>, b: seq<real>)
    ensures RealTotal(a + b) == RealTotal(a) + RealTotal(b)
    decreases |b|
  {
    if b == [] {
      assert a + b == a;
    } else {
      assert (a + b)[..|a + b| - 1] == a + b[..|b| - 1];
      RealTotalAdds(a, b[..|b| - 1]);
    }
  }

  lemma {:induction false} IntTotalAdds(a: seq<int>, b: seq<int>)
    ensures IntTotal(a + b) == IntTotal(a) + IntTotal(b)
    decreases |b|
  {
    if b == [] {
      assert a + b == a;
    } else {
      assert (a + b)[..|a + b| - 1] == a + b[..|b| - 1];
      IntTotalAdds(a, b[..|b| - 1]);
    }
  }

  /** The readings of joined groups are the joined readings, and of one record its own if it has one. */
  lemma ReadingsJoin(f: NatField, g: RealField, ps: seq<Payload>, qs: seq<Payload>, p: Payload)
    ensures Nats(f, ps + qs) == Nats(f, ps) + Nats(f, qs) && Nats(f, [p]) == Present(NatReading(f, p))
    ensures Reals(g, ps + qs) == Reals(g, ps) + Reals(g, qs) && Reals(g, [p]) == Present(RealReading(g, p))
    ensures Currents(ps + qs) == Currents(ps) + Currents(qs) && Currents([p]) == Present(CurrentReading(p))
  {
    hide NatReading, RealReading, CurrentReading;
    NatsJoin(f, ps, qs);
    RealsJoin(g, ps, qs);
    CurrentsJoin(ps, qs);
    assert [p][..0] == [];
  }

  lemma {:induction false} NatsJoin(f: NatField, ps: seq<Payload>, qs: seq<Payload>)
    ensures Nats(f, ps + qs) == Nats(f, ps) + Nats(f, qs)
    decreases |qs|
  {
    hide NatReading;
    if qs == [] {
      assert ps + qs == ps;
    } else {
      assert (ps + qs)[..|ps + qs| - 1] == ps + qs[..|qs| - 1];
      NatsJoin(f, ps, qs[..|qs| - 1]);
    }
  }

  lemma {:induction false} RealsJoin(f: RealField, ps: seq<Payload>, qs: seq<Payload>)
    ensures Reals(f, ps + qs) == Reals(f, ps) + Reals(f, qs)
    decreases |qs|
  {
    hide RealReading;
    if qs == [] {
      assert ps + qs == ps;
    } else {
      assert (ps + qs)[..|ps + qs| - 1] == ps + qs[..|qs| - 1];
      RealsJoin(f, ps, qs[..|qs| - 1]);
    }
  }

  lemma {:induction false} CurrentsJoin(ps: seq<Payload>, qs: seq<Payload>)
    ensures Currents(ps + qs) == Currents(ps) + Currents(qs)
    decreases |qs|
  {
    hide CurrentReading;
    if qs == [] {
      assert ps + qs == ps;
    } else {
      assert (ps + qs)[..|ps + qs| - 1] == ps + qs[..|qs| - 1];
      CurrentsJoin(ps, qs[..|qs| - 1]);
    }
  }

  /** One aggregation keeps every averaged natural reading inside any bounds its parts share. */
  lemma AggregateNatWithin(f: NatField, ps: seq<Payload>, lo: nat, hi: nat)
    requires ps != [] && SameKind(ps, KindOf(ps[0]))
    requires forall i :: 0 <= i < |ps| ==> NatWithin(f, ps[i], lo, hi)
    ensures NatWithin(f, Aggregate(ps), lo, hi)
    ensures NatReading(f, Aggregate(ps)).Some? <==> exists i :: 0 <= i < |ps| && NatReading(f, ps[i]).Some?
  {
    hide NatReading, Aggregate, Nats, NatTotal;
    AggregateNatReading(f, ps);
    NatsBounded(f, ps, lo, hi);
    NatsPresence(f, ps);
    var vs := Nats(f, ps);
    if vs != [] {
      NatTotalBounds(vs, lo, hi);
      DivBounds(NatTotal(vs), |vs|, lo, hi);
      RoundedDivBounds(NatTotal(vs), |vs|, lo, hi);
    }
  }

  lemma AggregateRealWithin(f: RealField, ps: seq<Payload>, lo: real, hi: real)
    requires ps != [] && SameKind(ps, KindOf(ps[0]))
    requires forall i :: 0 <= i < |ps| ==> RealWithin(f, ps[i], lo, hi)
    ensures RealWithin(f, Aggregate(ps), lo, hi)
    ensures RealReading(f, Aggregate(ps)).Some? <==> exists i :: 0 <= i < |ps| && RealReading(f, ps[i]).Some?
  {
    hide RealReading, Aggregate, Reals, RealTotal;
    AggregateRealReading(f, ps);
    RealsBounded(f, ps, lo, hi);
    RealsPresence(f, ps);
    var vs := Reals(f, ps);
    if vs != [] {
      RealTotalBounds(vs, lo, hi);
      RealDivBounds(RealTotal(vs), |vs| as real, lo, hi);
    }
  }

  lemma AggregateCurrentWithin(ps: seq<Payload>, lo: int, hi: int)
    requires ps != [] && SameKind(ps, KindOf(ps[0]))
    requires forall i :: 0 <= i < |ps| ==> CurrentWithin(ps[i], lo, hi)
    ensures CurrentWithin(Aggregate(ps), lo, hi)
    ensures CurrentReading(Aggregate(ps)).Some? <==> exists i :: 0 <= i < |ps| && CurrentReading(ps[i]).Some?
  {
    CurrentsFacts(ps, lo, hi);
    var vs := Currents(ps);
    if vs != [] {
      IntTotalBounds(vs, lo, hi);
      TruncatedDivBounds(IntTotal(vs), |vs|, lo, hi);
    }
  }

  /** An averaged field together with bounds on it. */
  datatype Hull =
    | NatHull(nf: NatField, nlo: nat, nhi: nat)
    | RealHull(rf: RealField, rlo: real, rhi: real)
    | CurrentHull(clo: int, chi: int)

  /** The payload has no reading of the field, or one inside the bounds. */
  predicate Within(h: Hull, p: Payload) {
    match h
    case NatHull(f, lo, hi) => NatWithin(f, p, lo, hi)
    case RealHull(f, lo, hi) => RealWithin(f, p, lo, hi)
    case CurrentHull(lo, hi) => CurrentWithin(p, lo, hi)
  }

  predicate HasReading(h: Hull, p: Payload) {
    match h
    case NatHull(f, _, _) => NatReading(f, p).Some?
    case RealHull(f, _, _) => RealReading(f, p).Some?
    case CurrentHull(_, _) => CurrentReading(p).Some?
  }

  predicate AnyReading(h: Hull, ps: seq<Payload>) {
    exists i :: 0 <= i < |ps| && HasReading(h, ps[i])
  }

  predicate AllWithin(h: Hull, ps: seq<Payload>) {
    forall i :: 0 <= i < |ps| ==> Within(h, ps[i])
  }

  /** One aggregation stays inside any bounds its parts share, whatever the field and its rounding,
      and has a reading exactly when some part had one. */
  lemma AggregateHull(h: Hull, ps: seq<Payload>)
    requires ps != [] && SameKind(ps, KindOf(ps[0]))
    requires AllWithin(h, ps)
    ensures Within(h, Aggregate(ps))
    ensures HasReading(h, Aggregate(ps)) <==> AnyReading(h, ps)
  {
    hide NatReading, RealReading, CurrentReading, Aggregate;
    assert forall i :: 0 <= i < |ps| ==> Within(h, ps[i]);
    match h
    case NatHull(f, lo, hi) =>
      AggregateNatWithin(f, ps, lo, hi);
      assert forall i :: 0 <= i < |ps| ==> (HasReading(h, ps[i]) <==> NatReading(f, ps[i]).Some?);
    case RealHull(f, lo, hi) =>
      AggregateRealWithin(f, ps, lo, hi);
      assert forall i :: 0 <= i < |ps| ==> (HasReading(h, ps[i]) <==> RealReading(f, ps[i]).Some?);
    case CurrentHull(lo, hi) =>
      AggregateCurrentWithin(ps, lo, hi);
      assert forall i :: 0 <= i < |ps| ==> (HasReading(h, ps[i]) <==> CurrentReading(ps[i]).Some?);
  }

  /** Through any number of tiers, split in any way, an average stays between the least and the
      greatest raw value beneath it, and exists exactly when some raw value did. */
  lemma {:induction false} RollupHull(h: Hull, r: Rollup, k: MetricType)
    requires WellFormed(r, k) && AllWithin(h, Leaves(r))
    ensures Within(h, Eval(r, k))
    ensures HasReading(h, Eval(r, k)) <==> AnyReading(h, Leaves(r))
    decreases r, 1
  {
    hide Within, HasReading, Aggregate;
    if r.Node? {
      RollupHulls(h, r.parts, k);
      var ps := EvalAll(r.parts, k);
      AggregateHull(h, ps);
    } else {
      assert Leaves(r)[0] == r.payload;
    }
  }

  lemma {:induction false} RollupHulls(h: Hull, rs: seq<Rollup>, k: MetricType)
    requires forall i :: 0 <= i < |rs| ==> WellFormed(rs[i], k)
    requires AllWithin(h, LeavesOf(rs))
    ensures AllWithin(h, EvalAll(rs, k))
    ensures AnyReading(h, EvalAll(rs, k)) <==> AnyReading(h, LeavesOf(rs))
    decreases rs, 0
  {
    hide Within, HasReading, Aggregate;
    if rs != [] {
      var init, last := rs[..|rs| - 1], rs[|rs| - 1];
      var a, b := LeavesOf(init), Leaves(last);
      assert AllWithin(h, a) && AllWithin(h, b) by {
        assert forall i :: 0 <= i < |a| ==> a[i] == (a + b)[i];
        assert forall i :: 0 <= i < |b| ==> b[i] == (a + b)[|a| + i];
      }
      RollupHulls(h, init, k);
      RollupHull(h, last, k);
      AnyReadingConcat(h, a, b);
      AnyReadingConcat(h, EvalAll(init, k), [Eval(last, k)]);
      assert [Eval(last, k)][0] == Eval(last, k);
    }
  }

  lemma AnyReadingConcat(h: Hull, a: seq<Payload>, b: seq<Payload>)
    ensures AnyReading(h, a + b) <==> AnyReading(h, a) || AnyReading(h, b)
  {
    hide HasReading;
    var c := a + b;
    assert forall i :: 0 <= i < |a| ==> a[i] == c[i];
    assert forall i :: 0 <= i < |b| ==> b[i] == c[|a| + i];
    if AnyReading(h, c) {
      var i :| 0 <= i < |c| && HasReading(h, c[i]);
      assert i < |a| ==> HasReading(h, a[i]);
      assert i >= |a| ==> HasReading(h, b[i - |a|]);
    }
    if AnyReading(h, b) {
      var i :| 0 <= i < |b| && HasReading(h, b[i]);
      assert HasReading(h, c[|a| + i]);
    }
  }

  // ----- The arms that loop over the group

  function Payloads(rs: seq<Record>): (ps: seq<Payload>)
    ensures |ps| == |rs|
  {
    seq(|rs|, i requires 0 <= i < |rs| => rs[i].payload)
  }

  /** What one more record adds to each collected list. */
  lemma RealStep(f: RealField, rs: seq<Record>, n: nat)
    requires n < |rs|
    ensures var ps := Payloads(rs);
      Reals(f, ps[..n + 1]) == Reals(f, ps[..n]) + Present(RealReading(f, rs[n].payload))
  {
    hide RealReading, Present;
    OneMorePayload(rs, n);
  }

  lemma NatStep(f: NatField, rs: seq<Record>, n: nat)
    requires n < |rs|
    ensures var ps := Payloads(rs);
      Nats(f, ps[..n + 1]) == Nats(f, ps[..n]) + Present(NatReading(f, rs[n].payload))
  {
    hide NatReading, Present;
    OneMorePayload(rs, n);
  }

  lemma CurrentStep(rs: seq<Record>, n: nat)
    requires n < |rs|
    ensures var ps := Payloads(rs);
      Currents(ps[..n + 1]) == Currents(ps[..n]) + Present(CurrentReading(rs[n].payload))
  {
    hide CurrentReading, Present;
    OneMorePayload(rs, n);
  }

  lemma NothingYet(ps: seq<Payload>)
    ensures forall f :: Reals(f, ps[..0]) == []
    ensures forall f :: Nats(f, ps[..0]) == []
    ensures Currents(ps[..0]) == []
  {}

  lemma OneMorePayload(rs: seq<Record>, n: nat)
    requires n < |rs|
    ensures var ps := Payloads(rs); ps[..n + 1][..n] == ps[..n] && ps[..n + 1][n] == rs[n].payload
  {}

  method AggregatePowerLoop(rs: seq<Record>) returns (d: PowerData)
    requires rs != []
    ensures d == AggregatePower(Payloads(rs))
  {
    hide Reals, Nats, Currents, Payloads, MeanReal, RealMean, NatMean, IntMean;
    ghost var ps := Payloads(rs);
    NothingYet(ps);
    var watts, charging, wifi := [], false, None;
    var battery, package, core, freq, brightness := [], [], [], [], [];
    var currents, voltages := [], [];
    for n := 0 to |rs|
      invariant watts == Reals(Watts, ps[..n]) && battery == Reals(Battery, ps[..n])
      invariant package == Reals(RaplPackage, ps[..n]) && core == Reals(RaplCore, ps[..n])
      invariant freq == Reals(FreqRatio, ps[..n]) && brightness == Reals(Brightness, ps[..n])
      invariant currents == Currents(ps[..n]) && voltages == Nats(VoltageUv, ps[..n])
      invariant charging == LastCharging(ps[..n]) && wifi == LastWifi(ps[..n])
    {
      RealStep(Watts, rs, n);
      RealStep(Battery, rs, n);
      RealStep(RaplPackage, rs, n);
      RealStep(RaplCore, rs, n);
      RealStep(FreqRatio, rs, n);
      RealStep(Brightness, rs, n);
      NatStep(VoltageUv, rs, n);
      CurrentStep(rs, n);
      OneMorePayload(rs, n);
      if rs[n].payload.PwrPayload? {
        var p := rs[n].payload.pwr;
        watts := watts + [p.wattUsage];
        battery := battery + Present(p.batteryPercent);
        charging := p.charging;
        package := package + Present(p.raplPackageWatts);
        core := core + Present(p.raplCoreWatts);
        currents := currents + Present(p.batteryCurrentUa);
        voltages := voltages + Present(p.batteryVoltageUv);
        freq := freq + Present(p.avgCpuFreqRatio);
        brightness := brightness + Present(p.displayBrightness);
        if p.isWifi.Some? {
          wifi := p.isWifi;
        }
      }
    }
    assert ps[..|rs|] == ps;
    d := PowerData(
      MeanReal(watts, |rs|), RealMean(battery), charging, RealMean(package), RealMean(core),
      IntMean(currents), NatMean(voltages), RealMean(freq), RealMean(brightness), wifi);
  }

  method AggregateGpuLoop(rs: seq<Record>) returns (d: GpuData)
    requires rs != []
    ensures d == AggregateGpu(Payloads(rs))
  {
    hide Reals, Nats, Payloads, RealMean, NatMean, NatReading;
    ghost var ps := Payloads(rs);
    NothingYet(ps);
    var first: Option<(nat, GpuVendor)>, name: Bytes, usage := None, [], [];
    for n := 0 to |rs|
      invariant first == FirstGpu(ps[..n]) && name == LastGpuName(ps[..n])
      invariant usage == Reals(GpuUsage, ps[..n])
    {
      RealStep(GpuUsage, rs, n);
      OneMorePayload(rs, n);
      if rs[n].payload.GpuPayload? {
        var p := rs[n].payload.gpu;
        if first.None? {
          first := Some((p.gpuIndex, p.vendor));
        }
        name := p.name;
        usage := usage + Present(p.usagePercent);
      } else {
        name := [];
      }
    }
    assert ps[..|rs|] == ps;
    var index, vendor := 0, Unknown;
    if first.Some? {
      index, vendor := first.value.0, first.value.1;
    }
    var used, total, temperature, power, coreClock, memClock := GpuReadings(rs);
    d := GpuData(
      index, vendor, name, RealMean(usage), NatMean(used), NatMean(total), RealMean(temperature),
      RealMean(power), NatMean(coreClock), NatMean(memClock));
  }

  method GpuReadings(rs: seq<Record>)
    returns (used: seq<nat>, total: seq<nat>, temperature: seq<real>, power: seq<real>,
             coreClock: seq<nat>, memClock: seq<nat>)
    ensures var ps := Payloads(rs);
      && used == Nats(VramUsed, ps) && total == Nats(VramTotal, ps)
      && temperature == Reals(Temperature, ps) && power == Reals(PowerDraw, ps)
      && coreClock == Nats(CoreClock, ps) && memClock == Nats(MemoryClock, ps)
  {
    hide Reals, Nats, Payloads;
    ghost var ps := Payloads(rs);
    NothingYet(ps);
    used, total, temperature, power, coreClock, memClock := [], [], [], [], [], [];
    for n := 0 to |rs|
      invariant temperature == Reals(Temperature, ps[..n]) && power == Reals(PowerDraw, ps[..n])
      invariant used == Nats(VramUsed, ps[..n]) && total == Nats(VramTotal, ps[..n])
      invariant coreClock == Nats(CoreClock, ps[..n]) && memClock == Nats(MemoryClock, ps[..n])
    {
      RealStep(Temperature, rs, n);
      RealStep(PowerDraw, rs, n);
      NatStep(VramUsed, rs, n);
      NatStep(VramTotal, rs, n);
      NatStep(CoreClock, rs, n);
      NatStep(MemoryClock, rs, n);
      if rs[n].payload.GpuPayload? {
        var p := rs[n].payload.gpu;
        used := used + Present(p.vramUsedBytes);
        total := total + Present(p.vramTotalBytes);
        temperature := temperature + Present(p.temperatureCelsius);
        power := power + Present(p.powerDrawWatts);
        coreClock := coreClock + Present(p.coreClockMhz);
        memClock := memClock + Present(p.memoryClockMhz);
      }
    }
    assert ps[..|rs|] == ps;
  }

  method AggregateGpuProcLoop(rs: seq<Record>) returns (d: GpuProcessData)
    requires rs != []
    ensures d == AggregateGpuProc(Payloads(rs))
  {
    hide Reals, Nats, Payloads, RealMean, NatMean;
    ghost var ps := Payloads(rs);
    NothingYet(ps);
    var index: nat, usage, used := 0, [], [];
    for n := 0 to |rs|
      invariant index == ProcGpuIndex(ps[..n])
      invariant usage == Reals(ProcUsage, ps[..n]) && used == Nats(ProcVram, ps[..n])
    {
      RealStep(ProcUsage, rs, n);
      NatStep(ProcVram, rs, n);
      OneMorePayload(rs, n);
      if rs[n].payload.GpuProcPayload? {
        var p := rs[n].payload.proc;
        if index == 0 {
          index := p.gpuIndex;
        }
        usage := usage + Present(p.usagePercent);
        used := used + Present(p.vramUsedBytes);
      }
    }
    assert ps[..|rs|] == ps;
    d := GpuProcessData(index, RealMean(usage), NatMean(used));
  }

  /** The record that replaces a group: nothing for an empty one, otherwise the first record's name,
      the timestamp the caller picks, and the aggregate of the payloads. */
  method AggregateRecords(rs: seq<Record>, bucketTs: u64) returns (r: Option<Record>)
    ensures r == if rs == [] then None
                 else Some(Record(rs[0].appName, bucketTs, Aggregate(Payloads(rs))))
  {
    hide AggregatePower, AggregateGpu, AggregateGpuProc, SumOf, Nats, Reals, MeanDown, MeanRounded, MeanReal;
    if rs == [] {
      return None;
    }
    var payload;
    match rs[0].payload {
      case PwrPayload(_) =>
        var d := AggregatePowerLoop(rs);
        payload := PwrPayload(d);
      case GpuPayload(_) =>
        var d := AggregateGpuLoop(rs);
        payload := GpuPayload(d);
      case GpuProcPayload(_) =>
        var d := AggregateGpuProcLoop(rs);
        payload := GpuProcPayload(d);
      case _ =>
        payload := Aggregate(Payloads(rs));
    }
    r := Some(Record(rs[0].appName, bucketTs, payload));
  }
}
