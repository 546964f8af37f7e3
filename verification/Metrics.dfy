/** The metric vocabulary shared by collectors and storage: kinds, payloads and records.
    Floating-point fields are exact reals; text is the byte string it is stored as. */
module Metrics {
  newtype byte = x: int | 0 <= x < 256
  type Bytes = seq<byte>

  /** The bytes of an ASCII text. */
  predicate Spells(b: Bytes, text: string) {
    |b| == |text| && forall i :: 0 <= i < |b| ==> b[i] as int == text[i] as int
  }

  const U64_LIMIT: int := 0x1_0000_0000_0000_0000
  type u64 = x: int | 0 <= x < 0x1_0000_0000_0000_0000

  type i64 = x: int | -0x8000_0000_0000_0000 <= x < 0x8000_0000_0000_0000

  datatype Option<+T> = None | Some(value: T)

  /** Inserting one element anywhere adds it to the contents. */
  lemma PlacedMultiset<T>(s: seq<T>, i: nat, x: T)
    requires i <= |s|
    ensures multiset(s[..i] + [x] + s[i..]) == multiset(s) + multiset{x}
  {
    assert s == s[..i] + s[i..];
  }

  datatype MetricType = Net | Pwr | Foc | Cpu | Mem | Dsk | Gpu | GpuProc

  /** The order in which every sweep visits the kinds. */
  const ALL_METRIC_TYPES: seq<MetricType> := [Net, Pwr, Foc, Cpu, Mem, Dsk, Gpu, GpuProc]

  /** The position of a kind in `ALL_METRIC_TYPES`. */
  function KindIndex(k: MetricType): (i: nat)
    ensures i < |ALL_METRIC_TYPES| && ALL_METRIC_TYPES[i] == k
  {
    match k
    case Net => 0
    case Pwr => 1
    case Foc => 2
    case Cpu => 3
    case Mem => 4
    case Dsk => 5
    case Gpu => 6
    case GpuProc => 7
  }

  lemma KindAt(k: MetricType, i: nat)
    requires i < |ALL_METRIC_TYPES|
    ensures k == ALL_METRIC_TYPES[i] <==> KindIndex(k) == i
  {}

  datatype GpuVendor = Nvidia | Amd | Intel | Unknown

  datatype NetworkData = NetworkData(txBytes: nat, rxBytes: nat, connections: nat)

  datatype PowerData = PowerData(
    wattUsage: real,
    batteryPercent: Option<real>,
    charging: bool,
    raplPackageWatts: Option<real>,
    raplCoreWatts: Option<real>,
    batteryCurrentUa: Option<int>,
    batteryVoltageUv: Option<nat>,
    avgCpuFreqRatio: Option<real>,
    displayBrightness: Option<real>,
    isWifi: Option<bool>)

  datatype FocusData = FocusData(appId: Bytes, durationMs: nat)

  datatype CpuData = CpuData(cpuTimeNs: nat, cpuUsagePercent: real, threadCount: nat)

  datatype MemoryData = MemoryData(rssBytes: nat, vmsBytes: nat, swapBytes: nat, processCount: nat)

  datatype DiskData = DiskData(readBytes: nat, writeBytes: nat, mountPoint: Bytes)

  datatype GpuData = GpuData(
    gpuIndex: nat,
    vendor: GpuVendor,
    name: Bytes,
    usagePercent: Option<real>,
    vramUsedBytes: Option<nat>,
    vramTotalBytes: Option<nat>,
    temperatureCelsius: Option<real>,
    powerDrawWatts: Option<real>,
    coreClockMhz: Option<nat>,
    memoryClockMhz: Option<nat>)

  datatype GpuProcessData = GpuProcessData(
    gpuIndex: nat,
    usagePercent: Option<real>,
    vramUsedBytes: Option<nat>)

  datatype Payload =
    | NetPayload(net: NetworkData)
    | PwrPayload(pwr: PowerData)
    | FocPayload(foc: FocusData)
    | CpuPayload(cpu: CpuData)
    | MemPayload(mem: MemoryData)
    | DskPayload(dsk: DiskData)
    | GpuPayload(gpu: GpuData)
    | GpuProcPayload(proc: GpuProcessData)

  function KindOf(p: Payload): MetricType {
    match p
    case NetPayload(_) => Net
    case PwrPayload(_) => Pwr
    case FocPayload(_) => Foc
    case CpuPayload(_) => Cpu
    case MemPayload(_) => Mem
    case DskPayload(_) => Dsk
    case GpuPayload(_) => Gpu
    case GpuProcPayload(_) => GpuProc
  }

  datatype Record = Record(appName: Bytes, timestamp: u64, payload: Payload)
}
