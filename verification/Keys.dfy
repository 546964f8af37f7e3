/** Lexicographic order on byte strings, the order in which a tree keeps its keys. */
module Lex {
  import opened Metrics

  predicate Le(a: Bytes, b: Bytes) {
    a == [] || (b != [] && (a[0] < b[0] || (a[0] == b[0] && Le(a[1..], b[1..]))))
  }

  predicate Lt(a: Bytes, b: Bytes) {
    Le(a, b) && a != b
  }

  lemma {:induction false} Reflexive(a: Bytes)
    ensures Le(a, a)
  {
    if a != [] {
      Reflexive(a[1..]);
    }
  }

  lemma {:induction false} Antisymmetric(a: Bytes, b: Bytes)
    requires Le(a, b) && Le(b, a)
    ensures a == b
  {
    if a != [] {
      Antisymmetric(a[1..], b[1..]);
      assert a == [a[0]] + a[1..] && b == [b[0]] + b[1..];
    }
  }

  lemma {:induction false} Total(a: Bytes, b: Bytes)
    ensures Le(a, b) || Le(b, a)
  {
    if a != [] && b != [] && a[0] == b[0] {
      Total(a[1..], b[1..]);
    }
  }

  lemma {:induction false} Transitive(a: Bytes, b: Bytes, c: Bytes)
    requires Le(a, b) && Le(b, c)
    ensures Le(a, c)
  {
    if a != [] && a[0] == b[0] == c[0] {
      Transitive(a[1..], b[1..], c[1..]);
    }
  }

  /** Equal-length heads decide first; only when they agree do the tails count. */
  lemma {:induction false} Concat(a: Bytes, x: Bytes, b: Bytes, y: Bytes)
    requires |a| == |b|
    ensures Le(a + x, b + y) <==> (Lt(a, b) || (a == b && Le(x, y)))
  {
    if a == [] {
      assert a + x == x && b + y == y;
    } else {
      assert (a + x)[1..] == a[1..] + x && (b + y)[1..] == b[1..] + y;
      Concat(a[1..], x, b[1..], y);
      assert a == [a[0]] + a[1..] && b == [b[0]] + b[1..];
    }
  }
}

/** The storage key `{prefix}:{timestamp:020}:{app}` and the bounds of a range scan. */
module Keys {
  import opened Metrics
  import Lex

  const COLON: byte := 58
  const PLUS: byte := 43
  /** The single byte `~`, the tail of every upper scan bound. */
  const TILDE: Bytes := [126]

  function Prefix(k: MetricType): (p: Bytes)
    ensures |p| == 3 && COLON !in p
  {
    match k
    case Net => [110, 101, 116]
    case Pwr => [112, 119, 114]
    case Foc => [102, 111, 99]
    case Cpu => [99, 112, 117]
    case Mem => [109, 101, 109]
    case Dsk => [100, 115, 107]
    case Gpu => [103, 112, 117]
    case GpuProc => [103, 112, 99]
  }

  lemma PrefixInjective(a: MetricType, b: MetricType)
    requires Prefix(a) == Prefix(b)
    ensures a == b
  {
    assert Prefix(a)[0] == Prefix(b)[0] && Prefix(a)[1] == Prefix(b)[1] && Prefix(a)[2] == Prefix(b)[2];
  }

  function Pow10(w: nat): (p: nat)
    ensures p > 0
  {
    if w == 0 then 1 else 10 * Pow10(w - 1)
  }

  function Digit(d: nat): byte
    requires d < 10
  {
    (48 + d) as byte
  }

  /** `n` in decimal, zero-padded to width `w`. */
  function Decimal(n: nat, w: nat): (s: Bytes)
    requires n < Pow10(w)
    ensures |s| == w && COLON !in s
  {
    if w == 0 then [] else Decimal(n / 10, w - 1) + [Digit(n % 10)]
  }

  lemma {:induction false} DecimalInjective(n: nat, m: nat, w: nat)
    requires n < Pow10(w) && m < Pow10(w)
    ensures Decimal(n, w) == Decimal(m, w) <==> n == m
  {
    if w > 0 && Decimal(n, w) == Decimal(m, w) {
      assert Decimal(n, w)[..w - 1] == Decimal(n / 10, w - 1);
      assert Decimal(m, w)[..w - 1] == Decimal(m / 10, w - 1);
      assert Decimal(n, w)[w - 1] == Digit(n % 10) && Decimal(m, w)[w - 1] == Digit(m % 10);
      DecimalInjective(n / 10, m / 10, w - 1);
    }
  }

  /** Zero padding makes byte order agree with numeric order. */
  lemma {:induction false} DecimalOrder(n: nat, m: nat, w: nat)
    requires n < Pow10(w) && m < Pow10(w)
    ensures Lex.Le(Decimal(n, w), Decimal(m, w)) <==> n <= m
  {
    if w > 0 {
      var x, y := [Digit(n % 10)], [Digit(m % 10)];
      Lex.Concat(Decimal(n / 10, w - 1), x, Decimal(m / 10, w - 1), y);
      DecimalOrder(n / 10, m / 10, w - 1);
      DecimalInjective(n / 10, m / 10, w - 1);
      assert Lex.Le(x, y) <==> n % 10 <= m % 10 by {
        assert x[1..] == [] && y[1..] == [];
      }
    }
  }

  lemma TimestampsFit(ts: u64)
    ensures ts < Pow10(20)
  {
    assert Pow10(5) == 100_000;
    assert Pow10(10) == 100_000 * Pow10(5) by {
      assert Pow10(10) == 10 * Pow10(9) == 100 * Pow10(8) == 1000 * Pow10(7) == 10000 * Pow10(6);
    }
    assert Pow10(15) == 100_000 * Pow10(10) by {
      assert Pow10(15) == 10 * Pow10(14) == 100 * Pow10(13) == 1000 * Pow10(12) == 10000 * Pow10(11);
    }
    assert Pow10(20) == 100_000 * Pow10(15) by {
      assert Pow10(20) == 10 * Pow10(19) == 100 * Pow10(18) == 1000 * Pow10(17) == 10000 * Pow10(16);
    }
  }

  /** The 24 bytes before the second colon, plus that colon. */
  function Head(k: MetricType, ts: u64): (h: Bytes)
    ensures |h| == 25
  {
    TimestampsFit(ts);
    Prefix(k) + [COLON] + Decimal(ts, 20) + [COLON]
  }

  function EncodeKey(k: MetricType, ts: u64, app: Bytes): Bytes {
    Head(k, ts) + app
  }

  function RangeStart(k: MetricType, ts: u64): Bytes {
    Head(k, ts)
  }

  function RangeEnd(k: MetricType, ts: u64): Bytes {
    Head(k, ts) + TILDE
  }

  lemma HeadInjective(k: MetricType, ts: u64, k': MetricType, ts': u64)
    ensures Head(k, ts) == Head(k', ts') <==> k == k' && ts == ts'
  {
    hide Prefix, Decimal;
    TimestampsFit(ts);
    TimestampsFit(ts');
    if Head(k, ts) == Head(k', ts') {
      assert Head(k, ts)[..3] == Prefix(k) && Head(k', ts')[..3] == Prefix(k');
      assert Head(k, ts)[4..24] == Decimal(ts, 20) && Head(k', ts')[4..24] == Decimal(ts', 20);
      PrefixInjective(k, k');
      DecimalInjective(ts, ts', 20);
    }
  }

  /** Heads compare by prefix first and by timestamp within one prefix. */
  lemma HeadOrder(k: MetricType, ts: u64, k': MetricType, ts': u64)
    ensures Lex.Le(Head(k, ts), Head(k', ts')) <==>
              (Lex.Lt(Prefix(k), Prefix(k')) || (k == k' && ts <= ts'))
    ensures Head(k, ts) == Head(k', ts') <==> k == k' && ts == ts'
  {
    hide Prefix, Decimal, Lex.Le;
    HeadInjective(k, ts, k', ts');
    TimestampsFit(ts);
    TimestampsFit(ts');
    var d, d' := Decimal(ts, 20), Decimal(ts', 20);
    var tail, tail' := [COLON] + (d + [COLON]), [COLON] + (d' + [COLON]);
    assert Head(k, ts) == Prefix(k) + tail && Head(k', ts') == Prefix(k') + tail';
    Lex.Concat(Prefix(k), tail, Prefix(k'), tail');
    Lex.Concat([COLON], d + [COLON], [COLON], d' + [COLON]);
    Lex.Concat(d, [COLON], d', [COLON]);
    Lex.Reflexive([COLON]);
    DecimalOrder(ts, ts', 20);
    DecimalInjective(ts, ts', 20);
    if Prefix(k) == Prefix(k') {
      PrefixInjective(k, k');
    }
  }

  /** Distinct (kind, timestamp, app) triples never share a key. */
  lemma EncodeInjective(k: MetricType, ts: u64, app: Bytes, k': MetricType, ts': u64, app': Bytes)
    ensures EncodeKey(k, ts, app) == EncodeKey(k', ts', app') <==> k == k' && ts == ts' && app == app'
  {
    if EncodeKey(k, ts, app) == EncodeKey(k', ts', app') {
      assert EncodeKey(k, ts, app)[..25] == Head(k, ts) && EncodeKey(k, ts, app)[25..] == app;
      assert EncodeKey(k', ts', app')[..25] == Head(k', ts') && EncodeKey(k', ts', app')[25..] == app';
      HeadOrder(k, ts, k', ts');
    }
  }

  /** Within one kind, key order is time order, with the app name as tie-break. */
  lemma KeyOrder(k: MetricType, ts: u64, app: Bytes, ts': u64, app': Bytes)
    ensures Lex.Le(EncodeKey(k, ts, app), EncodeKey(k, ts', app')) <==>
              ts < ts' || (ts == ts' && Lex.Le(app, app'))
  {
    Lex.Concat(Head(k, ts), app, Head(k, ts'), app');
    HeadOrder(k, ts, k, ts');
  }

  predicate InScan(key: Bytes, k: MetricType, start: u64, end: u64) {
    Lex.Le(RangeStart(k, start), key) && Lex.Le(key, RangeEnd(k, end))
  }

  /** Exactly the keys a range scan returns. The upper bound is inclusive in time except that,
      at the very last second, names sorting after `~` are missed. */
  lemma RangeScanExact(k: MetricType, start: u64, end: u64, k': MetricType, ts: u64, app: Bytes)
    ensures InScan(EncodeKey(k', ts, app), k, start, end) <==>
              k' == k && start <= ts <= end && (ts < end || Lex.Le(app, TILDE))
  {
    var key := EncodeKey(k', ts, app);
    assert RangeStart(k, start) == Head(k, start) + [];
    Lex.Concat(Head(k, start), [], Head(k', ts), app);
    Lex.Concat(Head(k', ts), app, Head(k, end), TILDE);
    HeadOrder(k, start, k', ts);
    HeadOrder(k', ts, k, end);
    if InScan(key, k, start, end) && k != k' {
      assert Lex.Lt(Prefix(k), Prefix(k')) && Lex.Lt(Prefix(k'), Prefix(k));
      Lex.Antisymmetric(Prefix(k), Prefix(k'));
    }
    HeadOrder(k', ts, k, start);
  }

  datatype DecodeError = InvalidUtf8 | WrongPartCount(count: nat) | UnknownPrefix(prefix: Bytes) | InvalidTimestamp
  datatype Decoded = Ok(kind: MetricType, ts: u64, app: Bytes) | Err(error: DecodeError)

  /** The pieces of `s` between colons; one more piece than there are colons. */
  function Split(s: Bytes): (parts: seq<Bytes>)
    ensures |parts| >= 1
  {
    if s == [] then [[]]
    else
      var rest := Split(s[1..]);
      if s[0] == COLON then [[]] + rest else [[s[0]] + rest[0]] + rest[1..]
  }

  lemma {:induction false} SplitAt(a: Bytes, s: Bytes)
    requires COLON !in a
    ensures Split(a + [COLON] + s) == [a] + Split(s)
  {
    var w := a + [COLON] + s;
    if a == [] {
      assert w[1..] == s;
      assert Split(w) == [[]] + Split(s);
    } else {
      assert w[1..] == a[1..] + [COLON] + s;
      SplitAt(a[1..], s);
      assert a == [a[0]] + a[1..];
    }
  }

  lemma {:induction false} SplitPlain(a: Bytes)
    ensures |Split(a)| == 1 <==> COLON !in a
    ensures |Split(a)| == 1 ==> Split(a) == [a]
  {
    if a != [] {
      SplitPlain(a[1..]);
      assert a == [a[0]] + a[1..];
    }
  }

  /** The value of a run of ASCII digits, or nothing if some byte is not a digit. */
  function DigitsValue(s: Bytes): Option<nat> {
    if s == [] then Some(0)
    else
      var d := s[|s| - 1];
      var rest := DigitsValue(s[..|s| - 1]);
      if rest.None? || d < 48 || d > 57 then None else Some(10 * rest.value + (d as int - 48))
  }

  /** Unsigned parsing: an optional `+`, at least one digit, and a value below 2^64. */
  function ParseU64(s: Bytes): Option<u64> {
    var body := if s != [] && s[0] == PLUS then s[1..] else s;
    var v := DigitsValue(body);
    if body == [] || v.None? || v.value >= U64_LIMIT then None else Some(v.value)
  }

  lemma {:induction false} DecimalValue(n: nat, w: nat)
    requires n < Pow10(w)
    ensures DigitsValue(Decimal(n, w)) == Some(n)
  {
    if w > 0 {
      var s := Decimal(n, w);
      assert s[..|s| - 1] == Decimal(n / 10, w - 1);
      DecimalValue(n / 10, w - 1);
    }
  }

  /** The prefix table of the decoder, which has no entry for per-process GPU keys. */
  function KindFromPrefix(p: Bytes): Option<MetricType> {
    if p == Prefix(Net) then Some(Net)
    else if p == Prefix(Pwr) then Some(Pwr)
    else if p == Prefix(Foc) then Some(Foc)
    else if p == Prefix(Cpu) then Some(Cpu)
    else if p == Prefix(Mem) then Some(Mem)
    else if p == Prefix(Dsk) then Some(Dsk)
    else if p == Prefix(Gpu) then Some(Gpu)
    else None
  }

  function DecodeKey(raw: Bytes, validUtf8: bool): Decoded {
    if !validUtf8 then Err(InvalidUtf8)
    else
      var parts := Split(raw);
      if |parts| != 3 then Err(WrongPartCount(|parts|))
      else
        var kind := KindFromPrefix(parts[0]);
        if kind.None? then Err(UnknownPrefix(parts[0]))
        else
          var ts := ParseU64(parts[1]);
          if ts.None? then Err(InvalidTimestamp) else Ok(kind.value, ts.value, parts[2])
  }

  lemma SplitKey(k: MetricType, ts: u64, app: Bytes)
    ensures ts < Pow10(20)
    ensures Split(EncodeKey(k, ts, app)) == [Prefix(k), Decimal(ts, 20)] + Split(app)
  {
    hide Decimal, Prefix, Split;
    TimestampsFit(ts);
    var d := Decimal(ts, 20);
    var rest := d + [COLON] + app;
    assert EncodeKey(k, ts, app) == Prefix(k) + [COLON] + rest;
    SplitAt(Prefix(k), rest);
    SplitAt(d, app);
    assert [Prefix(k)] + ([d] + Split(app)) == [Prefix(k), d] + Split(app);
  }

  /** Decoding undoes encoding exactly for the seven kinds the decoder knows and for names without
      a colon; every other key is rejected. */
  lemma DecodeRoundTrip(k: MetricType, ts: u64, app: Bytes)
    ensures DecodeKey(EncodeKey(k, ts, app), true) == Ok(k, ts, app) <==> k != GpuProc && COLON !in app
    ensures k == GpuProc || COLON in app ==> DecodeKey(EncodeKey(k, ts, app), true).Err?
  {
    hide Decimal, Prefix, Split, KindFromPrefix, DigitsValue, EncodeKey, Pow10;
    SplitKey(k, ts, app);
    SplitPlain(app);
    DecimalValue(ts, 20);
    var d := Decimal(ts, 20);
    assert d[0] != PLUS by {
      FirstDigit(ts, 20);
    }
    if COLON !in app {
      var parts := Split(EncodeKey(k, ts, app));
      assert parts == [Prefix(k), d, app];
      if k == GpuProc {
        UnknownToDecoder();
      } else {
        KnownToDecoder(k);
      }
    }
  }

  lemma {:induction false} FirstDigit(n: nat, w: nat)
    requires n < Pow10(w) && w > 0
    ensures Decimal(n, w)[0] >= 48
  {
    if w > 1 {
      FirstDigit(n / 10, w - 1);
    }
  }

  lemma KnownToDecoder(k: MetricType)
    requires k != GpuProc
    ensures KindFromPrefix(Prefix(k)) == Some(k)
  {
    forall j | Prefix(k) == Prefix(j) ensures j == k {
      PrefixInjective(k, j);
    }
  }

  lemma UnknownToDecoder()
    ensures KindFromPrefix(Prefix(GpuProc)) == None
  {
    forall j | Prefix(GpuProc) == Prefix(j) ensures j == GpuProc {
      PrefixInjective(GpuProc, j);
    }
  }

  // ----- Texts and malformed keys

  /** The prefix of each kind, and the marks a key is built with. */
  lemma KnownTexts()
    ensures Spells(Prefix(Net), "net") && Spells(Prefix(Pwr), "pwr") && Spells(Prefix(Foc), "foc")
    ensures Spells(Prefix(Cpu), "cpu") && Spells(Prefix(Mem), "mem") && Spells(Prefix(Dsk), "dsk")
    ensures Spells(Prefix(Gpu), "gpu") && Spells(Prefix(GpuProc), "gpc")
    ensures Spells([COLON], ":") && Spells(TILDE, "~") && Spells([PLUS], "+")
  {}

  /** Numbers parse with or without a plus sign and leading zeros, if they fit in 64 bits; an empty text and
      one with any other byte do not. */
  lemma ParseLaws(n: nat, w: nat, s: Bytes)
    requires n < Pow10(w) && w > 0
    ensures ParseU64(Decimal(n, w)) == ParseU64([PLUS] + Decimal(n, w)) == if n < U64_LIMIT then Some(n) else None
    ensures ParseU64([]) == None && ParseU64([PLUS]) == None
    ensures (exists i :: 1 <= i < |s| && (s[i] < 48 || s[i] > 57)) ==> ParseU64(s) == None
  {
    hide Decimal, DigitsValue, Pow10;
    var d := Decimal(n, w);
    DecimalValue(n, w);
    FirstDigit(n, w);
    assert ([PLUS] + d)[1..] == d;
    assert [PLUS][1..] == [];
    if exists i :: 1 <= i < |s| && (s[i] < 48 || s[i] > 57) {
      var i :| 1 <= i < |s| && (s[i] < 48 || s[i] > 57);
      NotDigits(s, i);
      assert s[1..][i - 1] == s[i];
      NotDigits(s[1..], i - 1);
    }
  }

  lemma {:induction false} NotDigits(s: Bytes, i: nat)
    requires i < |s| && (s[i] < 48 || s[i] > 57)
    ensures DigitsValue(s) == None
  {
    if i < |s| - 1 {
      assert s[..|s| - 1][i] == s[i];
      NotDigits(s[..|s| - 1], i);
    }
  }

  function Joined(parts: seq<Bytes>): Bytes
    requires parts != []
  {
    if |parts| == 1 then parts[0] else parts[0] + [COLON] + Joined(parts[1..])
  }

  lemma {:induction false} SplitJoined(s: Bytes)
    ensures Joined(Split(s)) == s
    ensures forall i :: 0 <= i < |Split(s)| ==> COLON !in Split(s)[i]
  {
    if s != [] {
      var rest := Split(s[1..]);
      SplitJoined(s[1..]);
      assert s == [s[0]] + s[1..];
      if s[0] == COLON {
        assert Split(s)[1..] == rest;
      } else {
        var parts := [[s[0]] + rest[0]] + rest[1..];
        assert parts[1..] == rest[1..];
        assert forall i :: 1 <= i < |parts| ==> parts[i] == rest[i];
      }
    }
  }

  /** A key decodes to a triple exactly when it is the kind's prefix, a number and a name, separated by two
      colons and containing no other. */
  lemma DecodeExact(raw: Bytes, k: MetricType, ts: u64, app: Bytes)
    ensures DecodeKey(raw, true) == Ok(k, ts, app) <==>
              exists digits :: COLON !in digits && COLON !in app && k != GpuProc && ParseU64(digits) == Some(ts)
                && raw == Prefix(k) + [COLON] + digits + [COLON] + app
    ensures DecodeKey(raw, false).Err?
  {
    hide Prefix, Split, ParseU64, KindFromPrefix;
    if DecodeKey(raw, true) == Ok(k, ts, app) {
      var parts := Split(raw);
      SplitJoined(raw);
      assert KindFromPrefix(parts[0]) == Some(k) && parts[2] == app;
      PrefixOfKind(parts[0], k);
      ThreeJoined(parts);
    }
    forall digits | COLON !in digits && COLON !in app && k != GpuProc && ParseU64(digits) == Some(ts)
      && raw == Prefix(k) + [COLON] + digits + [COLON] + app
      ensures DecodeKey(raw, true) == Ok(k, ts, app)
    {
      var rest := digits + [COLON] + app;
      assert raw == Prefix(k) + [COLON] + rest;
      SplitAt(Prefix(k), rest);
      SplitAt(digits, app);
      SplitPlain(app);
      assert Split(raw) == [Prefix(k), digits, app];
      KnownToDecoder(k);
    }
  }

  lemma {:induction false} PartsCount(s: Bytes)
    ensures |Split(s)| == multiset(s)[COLON] + 1
  {
    if s != [] {
      PartsCount(s[1..]);
      assert s == [s[0]] + s[1..];
    }
  }

  /** Which error a malformed key gives: bytes that are no text, a wrong number of colons, an unknown prefix,
      a bad number, in that order. */
  lemma DecodeErrors(raw: Bytes, prefix: Bytes, digits: Bytes, app: Bytes)
    ensures DecodeKey(raw, false) == Err(InvalidUtf8)
    ensures multiset(raw)[COLON] != 2 ==> DecodeKey(raw, true) == Err(WrongPartCount(multiset(raw)[COLON] + 1))
    ensures COLON !in prefix && COLON !in digits && COLON !in app ==>
              var r := DecodeKey(prefix + [COLON] + digits + [COLON] + app, true);
              && (KindFromPrefix(prefix).None? ==> r == Err(UnknownPrefix(prefix)))
              && (KindFromPrefix(prefix).Some? && ParseU64(digits).None? ==> r == Err(InvalidTimestamp))
  {
    hide Split, ParseU64, KindFromPrefix;
    PartsCount(raw);
    if COLON !in prefix && COLON !in digits && COLON !in app {
      var rest := digits + [COLON] + app;
      assert prefix + [COLON] + digits + [COLON] + app == prefix + [COLON] + rest;
      SplitAt(prefix, rest);
      SplitAt(digits, app);
      SplitPlain(app);
      assert Split(prefix + [COLON] + rest) == [prefix, digits, app];
    }
  }

  lemma PrefixOfKind(p: Bytes, k: MetricType)
    requires KindFromPrefix(p) == Some(k)
    ensures p == Prefix(k) && k != GpuProc
  {
    hide Prefix;
  }

  lemma ThreeJoined(parts: seq<Bytes>)
    requires |parts| == 3
    ensures Joined(parts) == parts[0] + [COLON] + parts[1] + [COLON] + parts[2]
  {
    assert parts[1..][1..] == [parts[2]];
    assert Joined(parts[1..]) == parts[1] + [COLON] + parts[2];
  }
}
