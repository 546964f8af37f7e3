/** Attribution of power to apps: six weighted components per app, normalised over all apps and
    ranked. Floating-point values are exact reals; the logarithm is a parameter. */
module Power {
  import opened Metrics

  const CPU_WEIGHT: real := 0.40
  const GPU_WEIGHT: real := 0.20
  const DISPLAY_WEIGHT: real := 0.15
  const DISK_WEIGHT: real := 0.10
  const NET_WIFI_WEIGHT: real := 0.15
  const NET_ETH_WEIGHT: real := 0.05
  const NET_DEF_WEIGHT: real := 0.10
  const MEM_WEIGHT: real := 0.05

  datatype AppMetrics = AppMetrics(
    cpuPcts: seq<real>, gpuPcts: seq<real>, focusMs: nat, diskBytes: nat, netBytes: nat, memRss: seq<nat>)

  type Apps = seq<(Bytes, AppMetrics)>

  /** What one query knows beside the per-app metrics. */
  datatype Query = Query(
    windowMs: nat, raplWatts: Option<real>, freqRatio: Option<real>, brightness: Option<real>, isWifi: Option<bool>)

  datatype Components = Components(cpu: real, gpu: real, display: real, disk: real, net: real, mem: real)

  datatype AppPowerStats = AppPowerStats(
    appName: Bytes, powerPct: real, powerScore: real,
    cpuContribution: real, gpuContribution: real, displayContribution: real,
    diskContribution: real, netContribution: real, memContribution: real)

  // ----- Per-app figures

  function RealSum(s: seq<real>): real {
    if s == [] then 0.0 else RealSum(s[..|s| - 1]) + s[|s| - 1]
  }

  function NatSum(s: seq<nat>): nat {
    if s == [] then 0 else NatSum(s[..|s| - 1]) + s[|s| - 1]
  }

  function CpuAverage(m: AppMetrics): real {
    if m.cpuPcts == [] then 0.0 else RealSum(m.cpuPcts) / (|m.cpuPcts| as real)
  }

  function MaxFrom(x: real, s: seq<real>): real {
    if s == [] then x else
      var m := MaxFrom(x, s[..|s| - 1]);
      if s[|s| - 1] > m then s[|s| - 1] else m
  }

  function GpuMax(m: AppMetrics): real {
    MaxFrom(0.0, m.gpuPcts)
  }

  /** Focus time as a percentage of the window, at most 100. */
  function FocusPercent(focusMs: nat, windowMs: nat): real
    requires windowMs > 0
  {
    var f := focusMs as real / windowMs as real * 100.0;
    if f > 100.0 then 100.0 else f
  }

  /** Bytes on a logarithmic scale, as a percentage of the largest app. The divisor is never zero for
      a logarithm that increases from zero at one. */
  function LogPercent(log2: real -> real, bytes: nat, max: nat): real {
    if max > 0 && log2(max as real + 1.0) != 0.0
    then log2(bytes as real + 1.0) / log2(max as real + 1.0) * 100.0
    else 0.0
  }

  function MemAverage(m: AppMetrics): nat {
    if m.memRss == [] then 0 else NatSum(m.memRss) / |m.memRss|
  }

  function MemPercent(m: AppMetrics, total: nat): real {
    if total > 0 then MemAverage(m) as real / total as real * 100.0 else 0.0
  }

  // ----- Figures over all apps

  function MaxNat(a: nat, b: nat): nat { if a > b then a else b }

  /** The largest value, or 1 when there are no apps. */
  function MaxDisk(apps: Apps): nat {
    if apps == [] then 1
    else if |apps| == 1 then apps[0].1.diskBytes
    else MaxNat(MaxDisk(apps[..|apps| - 1]), apps[|apps| - 1].1.diskBytes)
  }

  function MaxNet(apps: Apps): nat {
    if apps == [] then 1
    else if |apps| == 1 then apps[0].1.netBytes
    else MaxNat(MaxNet(apps[..|apps| - 1]), apps[|apps| - 1].1.netBytes)
  }

  function TotalMem(apps: Apps): nat {
    if apps == [] then 0 else TotalMem(apps[..|apps| - 1]) + NatSum(apps[|apps| - 1].1.memRss)
  }

  function TotalCpu(apps: Apps): real {
    if apps == [] then 0.0 else TotalCpu(apps[..|apps| - 1]) + CpuAverage(apps[|apps| - 1].1)
  }

  /** What normalisation needs to know about the whole query. */
  datatype Totals = Totals(maxDisk: nat, maxNet: nat, mem: nat, cpu: real)

  function TotalsOf(apps: Apps): Totals {
    Totals(MaxDisk(apps), MaxNet(apps), TotalMem(apps), TotalCpu(apps))
  }

  // ----- Scores

  /** Measured watts shared by CPU use when available; otherwise a fixed weight, scaled by the squared
      frequency ratio when only that is known. */
  function CpuScore(q: Query, totalCpu: real, average: real): real {
    if q.raplWatts.Some? && totalCpu > 0.0 then q.raplWatts.value * (average / totalCpu)
    else if q.raplWatts.None? && q.freqRatio.Some? then CPU_WEIGHT * average * q.freqRatio.value * q.freqRatio.value
    else CPU_WEIGHT * average
  }

  function NetWeight(isWifi: Option<bool>): real {
    match isWifi
    case Some(true) => NET_WIFI_WEIGHT
    case Some(false) => NET_ETH_WEIGHT
    case None => NET_DEF_WEIGHT
  }

  function Brightness(q: Query): real {
    if q.brightness.Some? then q.brightness.value else 1.0
  }

  function ComponentsOf(q: Query, t: Totals, log2: real -> real, m: AppMetrics): Components
    requires q.windowMs > 0
  {
    Components(
      CpuScore(q, t.cpu, CpuAverage(m)),
      GPU_WEIGHT * GpuMax(m),
      DISPLAY_WEIGHT * FocusPercent(m.focusMs, q.windowMs) * Brightness(q),
      DISK_WEIGHT * LogPercent(log2, m.diskBytes, t.maxDisk),
      LogPercent(log2, m.netBytes, t.maxNet) * NetWeight(q.isWifi),
      MEM_WEIGHT * MemPercent(m, t.mem))
  }

  function Score(c: Components): real {
    c.cpu + c.gpu + c.display + c.disk + c.net + c.mem
  }

  function ScoreOf(q: Query, t: Totals, log2: real -> real, m: AppMetrics): real
    requires q.windowMs > 0
  {
    Score(ComponentsOf(q, t, log2, m))
  }

  function TotalScore(q: Query, t: Totals, log2: real -> real, apps: Apps): real
    requires q.windowMs > 0
  {
    if apps == [] then 0.0
    else TotalScore(q, t, log2, apps[..|apps| - 1]) + ScoreOf(q, t, log2, apps[|apps| - 1].1)
  }

  function Normalised(app: Bytes, c: Components, total: real): AppPowerStats {
    var score := Score(c);
    if total > 0.0 then
      if score > 0.0 then
        AppPowerStats(app, score / total * 100.0, score, c.cpu / score, c.gpu / score, c.display / score,
                      c.disk / score, c.net / score, c.mem / score)
      else AppPowerStats(app, score / total * 100.0, score, 0.0, 0.0, 0.0, 0.0, 0.0, 0.0)
    else AppPowerStats(app, 0.0, score, 0.0, 0.0, 0.0, 0.0, 0.0, 0.0)
  }

  /** The result row of one app within the whole query. */
  function StatOf(q: Query, log2: real -> real, apps: Apps, k: nat): AppPowerStats
    requires q.windowMs > 0 && k < |apps|
  {
    var t := TotalsOf(apps);
    Normalised(apps[k].0, ComponentsOf(q, t, log2, apps[k].1), TotalScore(q, t, log2, apps))
  }

  function Stats(q: Query, log2: real -> real, apps: Apps): (r: seq<AppPowerStats>)
    requires q.windowMs > 0
    ensures |r| == |apps|
  {
    seq(|apps|, k requires 0 <= k < |apps| => StatOf(q, log2, apps, k))
  }

  // ----- The computation

  predicate Descending(s: seq<AppPowerStats>) {
    forall i, j :: 0 <= i < j < |s| ==> s[i].powerPct >= s[j].powerPct
  }

  /** Insert from the right end, never past an equal percentage. */
  method PlaceDescending(sorted: seq<AppPowerStats>, x: AppPowerStats) returns (out: seq<AppPowerStats>)
    requires Descending(sorted)
    ensures Descending(out) && multiset(out) == multiset(sorted) + multiset{x}
  {
    var i := |sorted|;
    while i > 0 && sorted[i - 1].powerPct < x.powerPct
      invariant 0 <= i <= |sorted|
      invariant forall j :: i <= j < |sorted| ==> sorted[j].powerPct < x.powerPct
    {
      i := i - 1;
    }
    out := sorted[..i] + [x] + sorted[i..];
    PlacedMultiset(sorted, i, x);
  }

  method SortDescending(s: seq<AppPowerStats>) returns (out: seq<AppPowerStats>)
    ensures Descending(out) && multiset(out) == multiset(s)
  {
    out := [];
    for n := 0 to |s|
      invariant Descending(out) && multiset(out) == multiset(s[..n])
    {
      assert s[..n + 1] == s[..n] + [s[n]];
      out := PlaceDescending(out, s[n]);
    }
    assert s[..|s|] == s;
  }

  /** An empty window has no answer; otherwise one row per app, highest percentage first. */
  method ComputePowerStats(q: Query, log2: real -> real, apps: Apps) returns (r: seq<AppPowerStats>)
    ensures q.windowMs == 0 ==> r == []
    ensures q.windowMs > 0 ==> Descending(r) && multiset(r) == multiset(Stats(q, log2, apps))
  {
    hide ComponentsOf, Score, Normalised, TotalsOf;
    if q.windowMs == 0 {
      return [];
    }
    var t := TotalsOf(apps);
    var scored: seq<(Bytes, Components)> := [];
    var total := 0.0;
    for n := 0 to |apps|
      invariant |scored| == n && total == TotalScore(q, t, log2, apps[..n])
      invariant forall k :: 0 <= k < n ==> scored[k] == (apps[k].0, ComponentsOf(q, t, log2, apps[k].1))
    {
      var c := ComponentsOf(q, t, log2, apps[n].1);
      assert apps[..n + 1][..n] == apps[..n];
      total := total + Score(c);
      scored := scored + [(apps[n].0, c)];
    }
    assert apps[..|apps|] == apps;
    var final := [];
    for n := 0 to |scored|
      invariant |final| == n && forall k :: 0 <= k < n ==> final[k] == StatOf(q, log2, apps, k)
    {
      final := final + [Normalised(scored[n].0, scored[n].1, total)];
    }
    assert final == Stats(q, log2, apps);
    r := SortDescending(final);
  }

  // ----- Percentages sum to 100

  function SumPct(s: seq<AppPowerStats>): real {
    if s == [] then 0.0 else SumPct(s[..|s| - 1]) + s[|s| - 1].powerPct
  }

  lemma {:induction false} SumPctConcat(a: seq<AppPowerStats>, b: seq<AppPowerStats>)
    ensures SumPct(a + b) == SumPct(a) + SumPct(b)
  {
    if b == [] {
      assert a + b == a;
    } else {
      assert (a + b)[..|a + b| - 1] == a + b[..|b| - 1];
      SumPctConcat(a, b[..|b| - 1]);
    }
  }

  lemma Without(s: seq<AppPowerStats>, i: nat)
    requires i < |s|
    ensures var rest := s[..i] + s[i + 1..];
      SumPct(s) == s[i].powerPct + SumPct(rest) && multiset(rest) == multiset(s) - multiset{s[i]}
  {
    hide SumPct;
    var x := s[i];
    assert s == s[..i] + [x] + s[i + 1..];
    SumPctConcat(s[..i] + [x], s[i + 1..]);
    SumPctConcat(s[..i], [x]);
    SumPctConcat(s[..i], s[i + 1..]);
    SumPctOne(x);
  }

  lemma SumPctOne(x: AppPowerStats)
    ensures SumPct([x]) == x.powerPct
  {
    assert [x][..0] == [];
  }

  /** The sum does not depend on the order. */
  lemma {:induction false} SumPctPermuted(a: seq<AppPowerStats>, b: seq<AppPowerStats>)
    requires multiset(a) == multiset(b)
    ensures SumPct(a) == SumPct(b)
    decreases |a|
  {
    hide SumPct;
    if a == [] {
      assert |multiset(b)| == 0;
    } else {
      var i := Occurrence(a, b);
      Without(a, 0);
      Without(b, i);
      SumPctPermuted(a[..0] + a[1..], b[..i] + b[i + 1..]);
    }
  }

  lemma Occurrence(a: seq<AppPowerStats>, b: seq<AppPowerStats>) returns (i: nat)
    requires a != [] && multiset(a) == multiset(b)
    ensures i < |b| && b[i] == a[0]
  {
    assert a[0] in multiset(a);
    assert a[0] in b;
    i :| i < |b| && b[i] == a[0];
  }

  lemma PctOf(app: Bytes, c: Components, total: real)
    ensures Normalised(app, c, total).powerPct == if total > 0.0 then Score(c) / total * 100.0 else 0.0
  {}

  lemma {:induction false} PartialPctSum(q: Query, log2: real -> real, apps: Apps, n: nat)
    requires q.windowMs > 0 && n <= |apps|
    requires TotalScore(q, TotalsOf(apps), log2, apps) > 0.0
    ensures var t := TotalsOf(apps);
      SumPct(Stats(q, log2, apps)[..n]) == TotalScore(q, t, log2, apps[..n]) / TotalScore(q, t, log2, apps) * 100.0
  {
    hide TotalsOf, ComponentsOf, Score, Normalised;
    var t, stats := TotalsOf(apps), Stats(q, log2, apps);
    var total := TotalScore(q, t, log2, apps);
    if n > 0 {
      PartialPctSum(q, log2, apps, n - 1);
      assert stats[..n][..n - 1] == stats[..n - 1] && apps[..n][..n - 1] == apps[..n - 1];
      var c := ComponentsOf(q, t, log2, apps[n - 1].1);
      PctOf(apps[n - 1].0, c, total);
      RatioSum(TotalScore(q, t, log2, apps[..n - 1]), Score(c), total);
    }
  }

  lemma RatioSum(a: real, b: real, total: real)
    requires total > 0.0
    ensures a / total * 100.0 + b / total * 100.0 == (a + b) / total * 100.0
  {
    assert (a + b) / total == a / total + b / total;
  }

  /** With a positive total score the percentages of the ranked result add up to exactly 100. */
  lemma PercentagesSumTo100(q: Query, log2: real -> real, apps: Apps, r: seq<AppPowerStats>)
    requires q.windowMs > 0 && multiset(r) == multiset(Stats(q, log2, apps))
    requires TotalScore(q, TotalsOf(apps), log2, apps) > 0.0
    ensures SumPct(r) == 100.0
  {
    hide TotalsOf, ComponentsOf, Score, Normalised, TotalScore;
    var stats := Stats(q, log2, apps);
    SumPctPermuted(r, stats);
    PartialPctSum(q, log2, apps, |apps|);
    assert stats[..|apps|] == stats && apps[..|apps|] == apps;
  }

  function SumContributions(s: AppPowerStats): real {
    s.cpuContribution + s.gpuContribution + s.displayContribution
    + s.diskContribution + s.netContribution + s.memContribution
  }

  /** The six contributions of an app with a positive score add up to exactly 1, each being its own
      component's share of the score. */
  lemma ContributionsSumToOne(app: Bytes, c: Components, total: real)
    requires total > 0.0 && Score(c) > 0.0
    ensures SumContributions(Normalised(app, c, total)) == 1.0
    ensures var s := Normalised(app, c, total);
      && s.cpuContribution * s.powerScore == c.cpu && s.gpuContribution * s.powerScore == c.gpu
      && s.displayContribution * s.powerScore == c.display && s.diskContribution * s.powerScore == c.disk
      && s.netContribution * s.powerScore == c.net && s.memContribution * s.powerScore == c.mem
  {
    SixRatios(c.cpu, c.gpu, c.display, c.disk, c.net, c.mem);
  }

  lemma SixRatios(a: real, b: real, c: real, d: real, e: real, f: real)
    requires a + b + c + d + e + f > 0.0
    ensures var s := a + b + c + d + e + f; a / s + b / s + c / s + d / s + e / s + f / s == 1.0
  {
    var s := a + b + c + d + e + f;
    AddRatios(a, b, s);
    AddRatios(a + b, c, s);
    AddRatios(a + b + c, d, s);
    AddRatios(a + b + c + d, e, s);
    AddRatios(a + b + c + d + e, f, s);
  }

  lemma AddRatios(a: real, b: real, s: real)
    requires s > 0.0
    ensures a / s + b / s == (a + b) / s
  {}

  function SumCpuScores(q: Query, total: real, apps: Apps): real {
    if apps == [] then 0.0
    else SumCpuScores(q, total, apps[..|apps| - 1]) + CpuScore(q, total, CpuAverage(apps[|apps| - 1].1))
  }

  lemma {:induction false} RaplShares(q: Query, total: real, apps: Apps)
    requires q.raplWatts.Some? && total > 0.0
    ensures SumCpuScores(q, total, apps) == q.raplWatts.value * (TotalCpu(apps) / total)
  {
    hide CpuAverage;
    if apps != [] {
      var init, a := apps[..|apps| - 1], CpuAverage(apps[|apps| - 1].1);
      RaplShares(q, total, init);
      assert (TotalCpu(init) + a) / total == TotalCpu(init) / total + a / total;
    }
  }

  /** With a measured package power and some CPU use, the CPU components add up to the measurement. */
  lemma RaplConserved(q: Query, apps: Apps)
    requires q.raplWatts.Some? && TotalCpu(apps) > 0.0
    ensures SumCpuScores(q, TotalCpu(apps), apps) == q.raplWatts.value
  {
    hide TotalCpu, SumCpuScores;
    RaplShares(q, TotalCpu(apps), apps);
  }

  // ----- Dominance

  /** Zero at one and strictly increasing from there on. */
  ghost predicate LogLike(log2: real -> real) {
    log2(1.0) == 0.0 && forall x, y :: 1.0 <= x < y ==> log2(x) < log2(y)
  }

  predicate NonNegative(q: Query) {
    && (q.raplWatts.Some? ==> q.raplWatts.value >= 0.0)
    && (q.brightness.Some? ==> q.brightness.value >= 0.0)
  }

  lemma MulMonotone(w: real, a: real, b: real)
    requires w >= 0.0 && a <= b
    ensures w * a <= w * b && a * w <= b * w
  {
    assert w * (b - a) >= 0.0;
  }

  lemma DivMonotone(a: real, b: real, d: real)
    requires d > 0.0 && a <= b
    ensures a / d <= b / d
  {
    assert b / d - a / d == (b - a) / d;
    assert (b - a) / d >= 0.0;
  }

  lemma Associate(x: real, f: real)
    ensures x * f * f == (f * f) * x
  {}

  lemma ScaledMonotone(a: real, b: real, f: real)
    requires a <= b
    ensures CPU_WEIGHT * a * f * f <= CPU_WEIGHT * b * f * f
  {
    assert f * f >= 0.0;
    MulMonotone(f * f, CPU_WEIGHT * a, CPU_WEIGHT * b);
    Associate(CPU_WEIGHT * a, f);
    Associate(CPU_WEIGHT * b, f);
  }

  lemma SharedMonotone(w: real, total: real, a: real, b: real)
    requires w >= 0.0 && total > 0.0 && a <= b
    ensures w * (a / total) <= w * (b / total)
  {
    DivMonotone(a, b, total);
    MulMonotone(w, a / total, b / total);
  }

  lemma CpuScoreMonotone(q: Query, total: real, a: real, b: real)
    requires NonNegative(q) && a <= b
    ensures CpuScore(q, total, a) <= CpuScore(q, total, b)
  {
    if q.raplWatts.Some? && total > 0.0 {
      SharedMonotone(q.raplWatts.value, total, a, b);
    } else if q.raplWatts.None? && q.freqRatio.Some? {
      ScaledMonotone(a, b, q.freqRatio.value);
    }
  }

  lemma FocusMonotone(a: nat, b: nat, window: nat)
    requires window > 0 && a <= b
    ensures FocusPercent(a, window) <= FocusPercent(b, window)
  {
    DivMonotone(a as real, b as real, window as real);
  }

  lemma LogPercentMonotone(log2: real -> real, a: nat, b: nat, max: nat)
    requires LogLike(log2) && a <= b
    ensures LogPercent(log2, a, max) <= LogPercent(log2, b, max)
  {
    if max > 0 {
      assert log2(max as real + 1.0) > log2(1.0);
      assert a < b ==> log2(a as real + 1.0) < log2(b as real + 1.0);
      DivMonotone(log2(a as real + 1.0), log2(b as real + 1.0), log2(max as real + 1.0));
    }
  }

  lemma MemMonotone(a: AppMetrics, b: AppMetrics, total: nat)
    requires MemAverage(a) <= MemAverage(b)
    ensures MemPercent(a, total) <= MemPercent(b, total)
  {
    hide MemAverage;
    if total > 0 {
      DivMonotone(MemAverage(a) as real, MemAverage(b) as real, total as real);
    }
  }

  /** At least as high on CPU average, GPU maximum, focus, disk, network and memory average. */
  predicate Dominates(b: AppMetrics, a: AppMetrics) {
    && CpuAverage(a) <= CpuAverage(b) && GpuMax(a) <= GpuMax(b) && a.focusMs <= b.focusMs
    && a.diskBytes <= b.diskBytes && a.netBytes <= b.netBytes && MemAverage(a) <= MemAverage(b)
  }

  /** Each component rises with its own metric, whatever the other five do. */
  lemma ComponentsMonotone(q: Query, t: Totals, log2: real -> real, a: AppMetrics, b: AppMetrics)
    requires q.windowMs > 0 && NonNegative(q) && LogLike(log2)
    ensures var c, d := ComponentsOf(q, t, log2, a), ComponentsOf(q, t, log2, b);
      && (CpuAverage(a) <= CpuAverage(b) ==> c.cpu <= d.cpu)
      && (GpuMax(a) <= GpuMax(b) ==> c.gpu <= d.gpu)
      && (a.focusMs <= b.focusMs ==> c.display <= d.display)
      && (a.diskBytes <= b.diskBytes ==> c.disk <= d.disk)
      && (a.netBytes <= b.netBytes ==> c.net <= d.net)
      && (MemAverage(a) <= MemAverage(b) ==> c.mem <= d.mem)
  {
    hide CpuScore, CpuAverage, GpuMax, FocusPercent, LogPercent, MemPercent, MemAverage, LogLike, NetWeight, Brightness;
    if CpuAverage(a) <= CpuAverage(b) {
      CpuScoreMonotone(q, t.cpu, CpuAverage(a), CpuAverage(b));
    }
    if a.focusMs <= b.focusMs {
      FocusMonotone(a.focusMs, b.focusMs, q.windowMs);
      DisplayMonotone(q, FocusPercent(a.focusMs, q.windowMs), FocusPercent(b.focusMs, q.windowMs));
    }
    if a.diskBytes <= b.diskBytes {
      LogPercentMonotone(log2, a.diskBytes, b.diskBytes, t.maxDisk);
    }
    if a.netBytes <= b.netBytes {
      LogPercentMonotone(log2, a.netBytes, b.netBytes, t.maxNet);
      NetMonotone(q, LogPercent(log2, a.netBytes, t.maxNet), LogPercent(log2, b.netBytes, t.maxNet));
    }
    if MemAverage(a) <= MemAverage(b) {
      MemMonotone(a, b, t.mem);
    }
  }

  lemma NetMonotone(q: Query, a: real, b: real)
    requires a <= b
    ensures a * NetWeight(q.isWifi) <= b * NetWeight(q.isWifi)
  {
    MulMonotone(NetWeight(q.isWifi), a, b);
  }

  lemma DominanceScores(q: Query, t: Totals, log2: real -> real, a: AppMetrics, b: AppMetrics)
    requires q.windowMs > 0 && NonNegative(q) && LogLike(log2) && Dominates(b, a)
    ensures ScoreOf(q, t, log2, a) <= ScoreOf(q, t, log2, b)
  {
    hide ComponentsOf, LogLike, CpuAverage, GpuMax, MemAverage;
    ComponentsMonotone(q, t, log2, a, b);
  }

  lemma DisplayMonotone(q: Query, a: real, b: real)
    requires NonNegative(q) && a <= b
    ensures DISPLAY_WEIGHT * a * Brightness(q) <= DISPLAY_WEIGHT * b * Brightness(q)
  {
    MulMonotone(DISPLAY_WEIGHT, a, b);
    MulMonotone(Brightness(q), DISPLAY_WEIGHT * a, DISPLAY_WEIGHT * b);
  }

  /** Whichever CPU branch, brightness or network weight applies, an app that dominates another never
      gets a lower percentage in the same query. */
  lemma DominancePct(q: Query, log2: real -> real, apps: Apps, i: nat, j: nat)
    requires q.windowMs > 0 && NonNegative(q) && LogLike(log2) && i < |apps| && j < |apps|
    requires Dominates(apps[j].1, apps[i].1)
    ensures StatOf(q, log2, apps, i).powerPct <= StatOf(q, log2, apps, j).powerPct
  {
    hide TotalsOf, ComponentsOf, TotalScore, Normalised, Dominates, LogLike, Score;
    var t := TotalsOf(apps);
    var total := TotalScore(q, t, log2, apps);
    var a, b := ComponentsOf(q, t, log2, apps[i].1), ComponentsOf(q, t, log2, apps[j].1);
    DominanceScores(q, t, log2, apps[i].1, apps[j].1);
    PctOf(apps[i].0, a, total);
    PctOf(apps[j].0, b, total);
    if total > 0.0 {
      DivMonotone(Score(a), Score(b), total);
    }
  }

  // ----- Scales

  lemma {:induction false} MaxFromBounds(x: real, s: seq<real>)
    ensures MaxFrom(x, s) >= x && (MaxFrom(x, s) == x || MaxFrom(x, s) in s)
    ensures forall i :: 0 <= i < |s| ==> s[i] <= MaxFrom(x, s)
  {
    if s != [] {
      MaxFromBounds(x, s[..|s| - 1]);
    }
  }

  /** The GPU figure of an app is its largest reading, or zero if none is positive. */
  lemma GpuMaxIsLargest(m: AppMetrics)
    ensures forall i :: 0 <= i < |m.gpuPcts| ==> m.gpuPcts[i] <= GpuMax(m)
    ensures (forall i :: 0 <= i < |m.gpuPcts| ==> m.gpuPcts[i] <= 0.0) ==> GpuMax(m) == 0.0
    ensures (exists i :: 0 <= i < |m.gpuPcts| && m.gpuPcts[i] > 0.0) ==> GpuMax(m) in m.gpuPcts
  {
    MaxFromBounds(0.0, m.gpuPcts);
  }

  /** The documented weights: what an app at full scale on one metric scores for it. */
  lemma FullScaleScores(q: Query, t: Totals, log2: real -> real, m: AppMetrics)
    requires q.windowMs > 0 && LogLike(log2) && q.raplWatts.None? && q.freqRatio.None? && q.brightness.None?
    ensures var c := ComponentsOf(q, t, log2, m);
      && (CpuAverage(m) == 100.0 ==> c.cpu == 40.0)
      && (GpuMax(m) == 100.0 ==> c.gpu == 20.0)
      && (m.focusMs >= q.windowMs ==> c.display == 15.0)
      && (m.diskBytes == t.maxDisk > 0 ==> c.disk == 10.0)
      && (m.netBytes == t.maxNet > 0 ==>
            c.net == if q.isWifi == Some(true) then 15.0 else if q.isWifi == Some(false) then 5.0 else 10.0)
      && (MemAverage(m) == t.mem > 0 ==> c.mem == 5.0)
  {
    hide CpuAverage, GpuMax, MemAverage, LogPercent, LogLike, FocusPercent;
    FocusPercentFull(m.focusMs, q.windowMs);
    LogPercentFull(log2, t.maxDisk);
    LogPercentFull(log2, t.maxNet);
  }

  lemma FocusPercentFull(focusMs: nat, windowMs: nat)
    requires windowMs > 0
    ensures focusMs >= windowMs ==> FocusPercent(focusMs, windowMs) == 100.0
    ensures focusMs < windowMs ==> FocusPercent(focusMs, windowMs) * windowMs as real == focusMs as real * 100.0
  {
    var f, w := focusMs as real, windowMs as real;
    assert f / w * w == f && w / w == 1.0;
    if focusMs >= windowMs {
      DivMonotone(w, f, w);
    } else {
      DivMonotone(f, w, w);
    }
  }

  lemma LogPercentFull(log2: real -> real, max: nat)
    requires LogLike(log2)
    ensures max > 0 ==> LogPercent(log2, max, max) == 100.0
  {
    if max > 0 {
      var l := log2(max as real + 1.0);
      assert l > log2(1.0);
      assert l / l == 1.0;
    }
  }

  /** The scales of disk and network are the largest values over the apps. */
  lemma {:induction false} MaximaAreReached(apps: Apps)
    ensures apps == [] ==> MaxDisk(apps) == 1 == MaxNet(apps)
    ensures forall k :: 0 <= k < |apps| ==> apps[k].1.diskBytes <= MaxDisk(apps) && apps[k].1.netBytes <= MaxNet(apps)
    ensures apps != [] ==> exists k :: 0 <= k < |apps| && apps[k].1.diskBytes == MaxDisk(apps)
    ensures apps != [] ==> exists k :: 0 <= k < |apps| && apps[k].1.netBytes == MaxNet(apps)
  {
    if apps == [] {
      return;
    }
    var init, last := apps[..|apps| - 1], |apps| - 1;
    if init == [] {
      assert apps[0].1.diskBytes == MaxDisk(apps) && apps[0].1.netBytes == MaxNet(apps);
    } else {
      MaximaAreReached(init);
      assert forall k :: 0 <= k < last ==> init[k] == apps[k];
      var d :| 0 <= d < |init| && init[d].1.diskBytes == MaxDisk(init);
      var n :| 0 <= n < |init| && init[n].1.netBytes == MaxNet(init);
      assert apps[d].1.diskBytes == MaxDisk(init) && apps[n].1.netBytes == MaxNet(init);
      assert apps[if MaxDisk(init) > apps[last].1.diskBytes then d else last].1.diskBytes == MaxDisk(apps);
      assert apps[if MaxNet(init) > apps[last].1.netBytes then n else last].1.netBytes == MaxNet(apps);
    }
  }

  /** So no app exceeds full scale on either. */
  lemma AtMostFullScale(log2: real -> real, apps: Apps, k: nat)
    requires LogLike(log2) && k < |apps|
    ensures LogPercent(log2, apps[k].1.diskBytes, MaxDisk(apps)) <= 100.0
    ensures LogPercent(log2, apps[k].1.netBytes, MaxNet(apps)) <= 100.0
  {
    hide LogLike, MaxDisk, MaxNet;
    MaximaAreReached(apps);
    LogPercentMonotone(log2, apps[k].1.diskBytes, MaxDisk(apps), MaxDisk(apps));
    LogPercentMonotone(log2, apps[k].1.netBytes, MaxNet(apps), MaxNet(apps));
    LogPercentFull(log2, MaxDisk(apps));
    LogPercentFull(log2, MaxNet(apps));
  }

  // ----- What each figure is

  /** Disk and network count on a logarithmic scale relative to the largest app. */
  lemma LogScale(q: Query, t: Totals, log2: real -> real, m: AppMetrics)
    requires q.windowMs > 0 && LogLike(log2)
    ensures var c := ComponentsOf(q, t, log2, m);
      var weight := if q.isWifi == Some(true) then 15.0 else if q.isWifi == Some(false) then 5.0 else 10.0;
      && (t.maxDisk > 0 ==> c.disk * log2(t.maxDisk as real + 1.0) == 10.0 * log2(m.diskBytes as real + 1.0))
      && (t.maxDisk == 0 ==> c.disk == 0.0)
      && (t.maxNet > 0 ==> c.net * log2(t.maxNet as real + 1.0) == weight * log2(m.netBytes as real + 1.0))
      && (t.maxNet == 0 ==> c.net == 0.0)
  {
    hide CpuScore, CpuAverage, GpuMax, FocusPercent, MemPercent, LogPercent, LogLike;
    LogPercentScale(log2, m.diskBytes, t.maxDisk);
    LogPercentScale(log2, m.netBytes, t.maxNet);
    var p, l := LogPercent(log2, m.netBytes, t.maxNet), log2(t.maxNet as real + 1.0);
    var w := NetWeight(q.isWifi);
    assert p * w * l == w * (p * l);
    var x, y := LogPercent(log2, m.diskBytes, t.maxDisk), log2(t.maxDisk as real + 1.0);
    assert DISK_WEIGHT * x * y == DISK_WEIGHT * (x * y);
  }

  lemma LogPercentScale(log2: real -> real, bytes: nat, max: nat)
    requires LogLike(log2)
    ensures max > 0 ==> LogPercent(log2, bytes, max) * log2(max as real + 1.0) == 100.0 * log2(bytes as real + 1.0)
    ensures max == 0 ==> LogPercent(log2, bytes, max) == 0.0
  {
    if max > 0 {
      var b, l := log2(bytes as real + 1.0), log2(max as real + 1.0);
      assert l > log2(1.0);
      assert b / l * l == b;
      assert b / l * 100.0 * l == 100.0 * (b / l * l);
    }
  }

  /** With measured watts, an app's CPU component is its share of them by CPU use; without, forty percent of
      its CPU average, times the squared frequency ratio if that is known. */
  lemma CpuComponent(q: Query, t: Totals, log2: real -> real, m: AppMetrics)
    requires q.windowMs > 0
    ensures var cpu := ComponentsOf(q, t, log2, m).cpu;
      && (q.raplWatts.Some? && t.cpu > 0.0 ==> cpu * t.cpu == q.raplWatts.value * CpuAverage(m))
      && (q.raplWatts.None? && q.freqRatio.Some? ==>
            cpu * 5.0 == 2.0 * CpuAverage(m) * (q.freqRatio.value * q.freqRatio.value))
      && (q.raplWatts.None? && q.freqRatio.None? ==> cpu * 5.0 == 2.0 * CpuAverage(m))
      && (q.raplWatts.Some? && t.cpu <= 0.0 ==> cpu * 5.0 == 2.0 * CpuAverage(m))
  {
    hide CpuAverage, GpuMax, FocusPercent, MemPercent, LogPercent;
    var a := CpuAverage(m);
    if q.raplWatts.Some? && t.cpu > 0.0 {
      assert a / t.cpu * t.cpu == a;
      assert q.raplWatts.value * (a / t.cpu) * t.cpu == q.raplWatts.value * (a / t.cpu * t.cpu);
    } else if q.raplWatts.None? && q.freqRatio.Some? {
      var r := q.freqRatio.value;
      assert CPU_WEIGHT * a * r * r == CPU_WEIGHT * a * (r * r);
    }
  }

  /** The display component is the focused part of the window, at most all of it, times fifteen and the
      brightness; memory is the app's average relative to all memory samples together, times five; the GPU
      component is a fifth of the figure. */
  lemma OtherComponents(q: Query, t: Totals, log2: real -> real, m: AppMetrics)
    requires q.windowMs > 0
    ensures var c := ComponentsOf(q, t, log2, m);
      var focused := if m.focusMs < q.windowMs then m.focusMs else q.windowMs;
      && (q.brightness.None? ==> c.display * q.windowMs as real == 15.0 * focused as real)
      && (q.brightness.Some? ==> c.display * q.windowMs as real == 15.0 * focused as real * q.brightness.value)
      && (t.mem > 0 ==> c.mem * t.mem as real == 5.0 * MemAverage(m) as real) && (t.mem == 0 ==> c.mem == 0.0)
      && c.gpu * 5.0 == GpuMax(m)
  {
    hide CpuScore, CpuAverage, GpuMax, LogPercent, MemAverage, FocusPercent;
    FocusPercentFull(m.focusMs, q.windowMs);
    var f, w, b := FocusPercent(m.focusMs, q.windowMs), q.windowMs as real, Brightness(q);
    var focused := if m.focusMs < q.windowMs then m.focusMs else q.windowMs;
    assert f * w == focused as real * 100.0;
    assert DISPLAY_WEIGHT * f * b * w == DISPLAY_WEIGHT * (f * w) * b;
    if t.mem > 0 {
      var a, n := MemAverage(m) as real, t.mem as real;
      assert a / n * n == a;
      assert MEM_WEIGHT * (a / n * 100.0) * n == 5.0 * (a / n * n);
    }
  }

  lemma {:induction false} RealSumAdds(a: seq<real>, b: seq<real>)
    ensures RealSum(a + b) == RealSum(a) + RealSum(b)
    decreases |b|
  {
    if b == [] {
      assert a + b == a;
    } else {
      assert (a + b)[..|a + b| - 1] == a + b[..|b| - 1];
      RealSumAdds(a, b[..|b| - 1]);
    }
  }

  lemma {:induction false} NatSumAdds(a: seq<nat>, b: seq<nat>)
    ensures NatSum(a + b) == NatSum(a) + NatSum(b)
    decreases |b|
  {
    if b == [] {
      assert a + b == a;
    } else {
      assert (a + b)[..|a + b| - 1] == a + b[..|b| - 1];
      NatSumAdds(a, b[..|b| - 1]);
    }
  }

  /** The averages of an app, and the sums they and the totals rest on. */
  lemma AveragesAndTotals(m: AppMetrics, apps: Apps, more: Apps, app: Bytes)
    ensures m.cpuPcts == [] ==> CpuAverage(m) == 0.0
    ensures m.cpuPcts != [] ==> CpuAverage(m) * |m.cpuPcts| as real == RealSum(m.cpuPcts)
    ensures m.memRss == [] ==> MemAverage(m) == 0
    ensures m.memRss != [] ==> MemAverage(m) * |m.memRss| <= NatSum(m.memRss) < MemAverage(m) * |m.memRss| + |m.memRss|
    ensures TotalMem(apps + more) == TotalMem(apps) + TotalMem(more) && TotalMem([(app, m)]) == NatSum(m.memRss)
    ensures TotalCpu(apps + more) == TotalCpu(apps) + TotalCpu(more) && TotalCpu([(app, m)]) == CpuAverage(m)
    ensures TotalMem([]) == 0 && TotalCpu([]) == 0.0
    ensures |m.cpuPcts| == 1 ==> RealSum(m.cpuPcts) == m.cpuPcts[0]
    ensures |m.memRss| == 1 ==> NatSum(m.memRss) == m.memRss[0]
  {
    TotalsAddUp(apps, more);
    OneApp(app, m);
    if m.memRss != [] {
      WholeAverage(NatSum(m.memRss), |m.memRss|);
    }
  }

  lemma WholeAverage(a: nat, n: nat)
    requires n > 0
    ensures a / n * n <= a < a / n * n + n
  {}

  lemma OneApp(app: Bytes, m: AppMetrics)
    ensures TotalMem([(app, m)]) == NatSum(m.memRss) && TotalCpu([(app, m)]) == CpuAverage(m)
  {
    hide CpuAverage, NatSum;
    var one := [(app, m)];
    assert one[..0] == [];
  }

  lemma {:induction false} TotalsAddUp(apps: Apps, more: Apps)
    ensures TotalMem(apps + more) == TotalMem(apps) + TotalMem(more)
    ensures TotalCpu(apps + more) == TotalCpu(apps) + TotalCpu(more)
    decreases |more|
  {
    hide CpuAverage, NatSum;
    if more == [] {
      assert apps + more == apps;
    } else {
      assert (apps + more)[..|apps + more| - 1] == apps + more[..|more| - 1];
      TotalsAddUp(apps, more[..|more| - 1]);
    }
  }

  /** Each row names its app, carries its score and has its share of the total; without a positive total it
      has none. */
  lemma RowsAreShares(q: Query, log2: real -> real, apps: Apps, k: nat)
    requires q.windowMs > 0 && k < |apps|
    ensures var s, c := StatOf(q, log2, apps, k), ComponentsOf(q, TotalsOf(apps), log2, apps[k].1);
      var total := TotalScore(q, TotalsOf(apps), log2, apps);
      && s.appName == apps[k].0 && s.powerScore == c.cpu + c.gpu + c.display + c.disk + c.net + c.mem
      && (total > 0.0 ==> s.powerPct * total == 100.0 * s.powerScore)
      && (total <= 0.0 ==> s.powerPct == 0.0)
      && (total <= 0.0 || s.powerScore <= 0.0 ==> SumContributions(s) == 0.0)
  {
    hide ComponentsOf, TotalsOf, TotalScore;
    var score := StatOf(q, log2, apps, k).powerScore;
    var total := TotalScore(q, TotalsOf(apps), log2, apps);
    if total > 0.0 {
      assert score / total * total == score;
    }
  }
}
