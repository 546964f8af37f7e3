/** The focus tracker: one loop that turns focus changes into timed sessions. Instants are nanoseconds
    of a monotonic clock; each clock read of the loop is an input. */
module Focus {
  import opened Metrics
  import opened Aggregation

  const UNKNOWN: Bytes := [85, 110, 107, 110, 111, 119, 110]
  const FLATPAK_PREFIX: Bytes := [111, 114, 103, 46, 102, 108, 97, 116, 112, 97, 107, 46]
  const SNAP_PREFIX: Bytes := [115, 110, 97, 112, 46]
  const DOT: byte := 46
  const NANOS_PER_MILLI: nat := 1_000_000

  /** What follows the last dot, or everything if there is none. */
  function LastComponent(s: Bytes): Bytes {
    if DOT !in s then s else LastComponent(s[1..])
  }

  function NormalizeAppId(raw: Option<Bytes>): Bytes {
    if raw.None? || raw.value == [] then UNKNOWN
    else if FLATPAK_PREFIX <= raw.value then raw.value[|FLATPAK_PREFIX|..]
    else if SNAP_PREFIX <= raw.value then LastComponent(raw.value[|SNAP_PREFIX|..])
    else raw.value
  }

  datatype FocusState = FocusState(current: Option<Bytes>, start: nat)

  /** One turn of the loop, with the clock values it would read: the instant at which the session is
      measured, the wall clock if it can be read, and the instant at which the next session starts. */
  datatype Input =
    | Changed(raw: Option<Bytes>, measured: nat, wall: Option<u64>, restarted: nat)
    | Shutdown(measured: nat, wall: Option<u64>)
    | ListenerFailed(measured: nat, wall: Option<u64>)

  /** An emitted session: which app, from when to when, and the wall-clock stamp. */
  datatype Session = Session(app: Bytes, from: nat, to: nat, wall: u64)

  function FocusEvent(s: Session): Record
    requires s.from <= s.to
  {
    Record(s.app, s.wall, FocPayload(FocusData(s.app, (s.to - s.from) / NANOS_PER_MILLI)))
  }

  /** Does the loop end with this turn? A failed wall-clock read aborts it, except after the listener
      itself has failed. */
  predicate Ends(st: FocusState, i: Input) {
    match i
    case Changed(raw, _, wall, _) => st.current.Some? && st.current != Some(NormalizeAppId(raw)) && wall.None?
    case Shutdown(_, _) => true
    case ListenerFailed(_, _) => true
  }

  /** The session this turn closes, if any. */
  function Closed(st: FocusState, i: Input): Option<Session> {
    if st.current.None? then None
    else
      match i
      case Changed(raw, measured, wall, _) =>
        if st.current == Some(NormalizeAppId(raw)) || wall.None? then None
        else Some(Session(st.current.value, st.start, measured, wall.value))
      case Shutdown(measured, wall) =>
        if wall.None? then None else Some(Session(st.current.value, st.start, measured, wall.value))
      case ListenerFailed(measured, wall) =>
        Some(Session(st.current.value, st.start, measured, if wall.None? then 0 else wall.value))
  }

  function Next(st: FocusState, i: Input): FocusState {
    if i.Changed? && st.current != Some(NormalizeAppId(i.raw))
    then FocusState(Some(NormalizeAppId(i.raw)), i.restarted)
    else st
  }

  /** The sessions of a run, in order. */
  function Sessions(st: FocusState, ins: seq<Input>): seq<Session>
    decreases |ins|
  {
    if ins == [] then []
    else
      var closed := Closed(st, ins[0]);
      (if closed.Some? then [closed.value] else [])
      + (if Ends(st, ins[0]) then [] else Sessions(Next(st, ins[0]), ins[1..]))
  }

  /** Clock reads never go back: neither within a turn nor from turn to turn. */
  predicate ClockMonotone(last: nat, ins: seq<Input>)
    decreases |ins|
  {
    ins == [] ||
    (last <= ins[0].measured &&
     (ins[0].Changed? ==> ins[0].measured <= ins[0].restarted) &&
     ClockMonotone(if ins[0].Changed? then ins[0].restarted else ins[0].measured, ins[1..]))
  }

  /** The next session starts at the very instant the previous one was measured. */
  predicate Prompt(ins: seq<Input>) {
    forall i :: 0 <= i < |ins| && ins[i].Changed? ==> ins[i].measured == ins[i].restarted
  }

  // ----- The loop

  /** One event per session, in order, with the session's app and its length in milliseconds. */
  ghost predicate Reports(events: seq<Record>, ss: seq<Session>) {
    |events| == |ss| && forall i :: 0 <= i < |ss| ==> ss[i].from <= ss[i].to && events[i] == FocusEvent(ss[i])
  }

  lemma ReportsOneMore(events: seq<Record>, ss: seq<Session>, s: Session)
    requires Reports(events, ss) && s.from <= s.to
    ensures Reports(events + [FocusEvent(s)], ss + [s])
  {}

  lemma SessionsStep(st: FocusState, ins: seq<Input>, n: nat)
    requires n < |ins|
    ensures var closed := Closed(st, ins[n]);
      Sessions(st, ins[n..]) ==
        (if closed.Some? then [closed.value] else [])
        + (if Ends(st, ins[n]) then [] else Sessions(Next(st, ins[n]), ins[n + 1..]))
  {
    hide Closed, Ends, Next;
    assert ins[n..][0] == ins[n] && ins[n..][1..] == ins[n + 1..];
  }

  lemma ClockStep(clock: nat, ins: seq<Input>, n: nat)
    requires n < |ins| && ClockMonotone(clock, ins[n..])
    ensures clock <= ins[n].measured && (ins[n].Changed? ==> ins[n].measured <= ins[n].restarted)
    ensures ClockMonotone(if ins[n].Changed? then ins[n].restarted else ins[n].measured, ins[n + 1..])
  {
    assert ins[n..][0] == ins[n] && ins[n..][1..] == ins[n + 1..];
  }

  method Run(t0: nat, ins: seq<Input>) returns (events: seq<Record>)
    requires ClockMonotone(t0, ins)
    ensures Reports(events, Sessions(FocusState(None, t0), ins))
  {
    hide NormalizeAppId, Sessions, ClockMonotone, Reports, FocusEvent;
    var st := FocusState(None, t0);
    events := [];
    ghost var all, done, clock := Sessions(st, ins), [], t0;
    assert ins[0..] == ins;
    assert Reports([], []) by {
      NothingReported();
    }
    var n := 0;
    while n < |ins|
      invariant 0 <= n <= |ins| && st.start <= clock && ClockMonotone(clock, ins[n..])
      invariant all == done + Sessions(st, ins[n..]) && Reports(events, done)
    {
      SessionsStep(st, ins, n);
      ClockStep(clock, ins, n);
      match ins[n] {
        case Changed(raw, measured, wall, restarted) =>
          var app := NormalizeAppId(raw);
          if st.current != Some(app) {
            if st.current.Some? {
              if wall.None? {
                assert all == done;
                return;
              }
              var s := Session(st.current.value, st.start, measured, wall.value);
              ReportsOneMore(events, done, s);
              events, done := events + [FocusEvent(s)], done + [s];
            }
            st := FocusState(Some(app), restarted);
          }
          clock := restarted;
        case Shutdown(measured, wall) =>
          if st.current.Some? {
            if wall.None? {
              assert all == done;
              return;
            }
            var s := Session(st.current.value, st.start, measured, wall.value);
            ReportsOneMore(events, done, s);
            events, done := events + [FocusEvent(s)], done + [s];
          }
          assert all == done;
          return;
        case ListenerFailed(measured, wall) =>
          if st.current.Some? {
            var s := Session(st.current.value, st.start, measured, if wall.None? then 0 else wall.value);
            ReportsOneMore(events, done, s);
            events, done := events + [FocusEvent(s)], done + [s];
          }
          assert all == done;
          return;
      }
      n := n + 1;
    }
    assert ins[n..] == [];
    assert Sessions(st, []) == [] by {
      NoMoreSessions(st);
    }
    assert all == done;
  }

  lemma NothingReported()
    ensures Reports([], [])
  {}

  lemma NoMoreSessions(st: FocusState)
    ensures Sessions(st, []) == []
  {}

  // ----- Tiling

  function Duration(s: Session): int { s.to - s.from }

  function TotalDuration(ss: seq<Session>): int {
    if ss == [] then 0 else Duration(ss[0]) + TotalDuration(ss[1..])
  }

  /** In time order, never overlapping, each after `t`, and no app twice in a row. */
  predicate Tiles(t: nat, app: Option<Bytes>, ss: seq<Session>)
    decreases |ss|
  {
    ss == [] || (t <= ss[0].from <= ss[0].to && app != Some(ss[0].app) && Tiles(ss[0].to, Some(ss[0].app), ss[1..]))
  }

  lemma {:induction false} TilesRelax(t: nat, t': nat, app: Option<Bytes>, ss: seq<Session>)
    requires Tiles(t, app, ss) && t' <= t
    ensures Tiles(t', app, ss)
  {}

  /** Focus sessions tile the time after the first focus: disjoint, ordered, and consecutive ones name
      different apps. */
  lemma {:induction false} SessionsTile(st: FocusState, clock: nat, ins: seq<Input>, last: Option<Bytes>)
    requires ClockMonotone(clock, ins) && st.start <= clock
    requires st.current.Some? ==> last != st.current
    requires st.current.None? ==> last == None
    ensures Tiles(if st.current.Some? then st.start else 0, last, Sessions(st, ins))
    decreases |ins|
  {
    hide NormalizeAppId;
    if ins != [] {
      var i, closed, st' := ins[0], Closed(st, ins[0]), Next(st, ins[0]);
      var clock' := if i.Changed? then i.restarted else i.measured;
      var ss := Sessions(st, ins);
      if !Ends(st, i) {
        var last' := if closed.Some? then Some(closed.value.app) else last;
        SessionsTile(st', clock', ins[1..], last');
        var rest := Sessions(st', ins[1..]);
        if closed.Some? {
          assert ss == [closed.value] + rest;
          assert ss[1..] == rest;
          TilesRelax(st'.start, closed.value.to, last', rest);
        } else {
          assert ss == rest;
          if st.current.None? && st'.current.Some? {
            TilesRelax(st'.start, 0, last, rest);
          }
        }
      } else if closed.Some? {
        assert ss == [closed.value] && ss[1..] == [];
      } else {
        assert ss == [];
      }
    }
  }

  /** How far the emitted sessions reach: to the exit if it flushes the open session, otherwise (an exit
      that cannot read the wall clock, or none yet) to where the open session starts. */
  function Reached(st: FocusState, ins: seq<Input>): nat
    decreases |ins|
  {
    if ins == [] then st.start
    else if !Ends(st, ins[0]) then Reached(Next(st, ins[0]), ins[1..])
    else if Closed(st, ins[0]).Some? then ins[0].measured
    else st.start
  }

  /** From the moment an app has the focus, sessions start there, and together fill the time they reach
      at most; exactly, if each change reads one instant. */
  lemma {:induction false} SessionsReach(st: FocusState, clock: nat, ins: seq<Input>)
    requires st.current.Some? && ClockMonotone(clock, ins) && st.start <= clock
    ensures var ss, reached := Sessions(st, ins), Reached(st, ins);
      && 0 <= TotalDuration(ss) <= reached - st.start
      && (Prompt(ins) ==> TotalDuration(ss) == reached - st.start)
      && (ss != [] ==> ss[0].from == st.start && ss[|ss| - 1].to <= reached)
    decreases |ins|
  {
    hide NormalizeAppId, TotalDuration, Prompt, Closed, Ends, Next, Sessions, Reached, ClockMonotone;
    NoSessionsSum();
    if ins == [] {
      NoTurns(st);
    } else {
      TurnFacts(st, ins[0]);
      FirstTurn(st, clock, ins);
      var closed, st', rest := Closed(st, ins[0]), Next(st, ins[0]), ins[1..];
      if !Ends(st, ins[0]) {
        SessionsReach(st', ins[0].restarted, rest);
      }
      PromptLater(ins);
      if closed.Some? {
        SumOneMore(closed.value, if Ends(st, ins[0]) then [] else Sessions(st', rest));
      }
    }
  }

  lemma NoTurns(st: FocusState)
    ensures Sessions(st, []) == [] && Reached(st, []) == st.start
  {}

  /** A run as its first turn and the rest. */
  lemma FirstTurn(st: FocusState, clock: nat, ins: seq<Input>)
    requires ins != [] && ClockMonotone(clock, ins)
    ensures var closed, st', rest := Closed(st, ins[0]), Next(st, ins[0]), ins[1..];
      var ss := if Ends(st, ins[0]) then [] else Sessions(st', rest);
      && Sessions(st, ins) == (if closed.Some? then [closed.value] + ss else ss)
      && Reached(st, ins) ==
           (if !Ends(st, ins[0]) then Reached(st', rest) else if closed.Some? then ins[0].measured else st.start)
      && clock <= ins[0].measured
      && (ins[0].Changed? ==> ins[0].measured <= ins[0].restarted && ClockMonotone(ins[0].restarted, rest))
  {
    hide NormalizeAppId, Closed, Ends, Next;
  }

  lemma NoSessionsSum()
    ensures TotalDuration([]) == 0
  {}

  lemma SumOneMore(s: Session, ss: seq<Session>)
    ensures TotalDuration([s] + ss) == s.to - s.from + TotalDuration(ss)
    ensures var w := [s] + ss; w[|w| - 1] == if ss == [] then s else ss[|ss| - 1]
  {
    assert ([s] + ss)[1..] == ss;
  }

  /** What a turn does while an app has the focus. */
  lemma TurnFacts(st: FocusState, i: Input)
    requires st.current.Some?
    ensures var closed, st' := Closed(st, i), Next(st, i);
      && (closed.Some? ==> closed.value.from == st.start && closed.value.to == i.measured)
      && (!Ends(st, i) ==> i.Changed? && st'.current.Some? && (closed.None? ==> st' == st))
      && (!Ends(st, i) && closed.Some? ==> st'.start == i.restarted)
  {
    hide NormalizeAppId;
  }

  lemma PromptLater(ins: seq<Input>)
    requires ins != []
    ensures Prompt(ins) ==> Prompt(ins[1..])
    ensures Prompt(ins) && ins[0].Changed? ==> ins[0].measured == ins[0].restarted
  {
    var rest := ins[1..];
    assert forall i :: 0 <= i < |rest| ==> rest[i] == ins[i + 1];
  }

  /** An exit flushes the open session unless it needs a wall clock that cannot be read. */
  predicate Flushes(i: Input) {
    (i.Shutdown? && i.wall.Some?) || i.ListenerFailed?
  }

  /** Focus changes whose wall clock can be read, then an exit that flushes: sessions reach the exit. */
  lemma {:induction false} ReachesExit(st: FocusState, ins: seq<Input>)
    requires st.current.Some? && ins != [] && Flushes(ins[|ins| - 1])
    requires forall i :: 0 <= i < |ins| - 1 ==> ins[i].Changed? && ins[i].wall.Some?
    ensures Reached(st, ins) == ins[|ins| - 1].measured && Sessions(st, ins) != []
    ensures Sessions(st, ins)[|Sessions(st, ins)| - 1].to == ins[|ins| - 1].measured
    decreases |ins|
  {
    hide NormalizeAppId;
    if |ins| > 1 {
      var rest := ins[1..];
      assert forall i :: 0 <= i < |rest| ==> rest[i] == ins[i + 1];
      ReachesExit(Next(st, ins[0]), rest);
    }
  }

  function Millis(s: Session): nat
    requires s.from <= s.to
  {
    (s.to - s.from) / NANOS_PER_MILLI
  }

  function TotalMillis(ss: seq<Session>): nat
    requires forall i :: 0 <= i < |ss| ==> ss[i].from <= ss[i].to
  {
    if ss == [] then 0 else Millis(ss[0]) + TotalMillis(ss[1..])
  }

  /** Truncation to milliseconds loses less than one millisecond per session. */
  lemma {:induction false} MillisWithinOne(ss: seq<Session>)
    requires forall i :: 0 <= i < |ss| ==> ss[i].from <= ss[i].to
    ensures NANOS_PER_MILLI * TotalMillis(ss) <= TotalDuration(ss)
    ensures TotalDuration(ss) <= NANOS_PER_MILLI * TotalMillis(ss) + (NANOS_PER_MILLI - 1) * |ss|
  {
    if ss != [] {
      MillisWithinOne(ss[1..]);
    }
  }

  /** The last clock read of a run. */
  function LastInstant(ins: seq<Input>): nat
    requires ins != []
  {
    var i := ins[|ins| - 1];
    if i.Changed? then i.restarted else i.measured
  }

  /** However the run ends, aborted or not, sessions reach no further than its last turn. */
  lemma {:induction false} ReachedByLastTurn(st: FocusState, clock: nat, ins: seq<Input>)
    requires ClockMonotone(clock, ins) && st.start <= clock && ins != []
    ensures Reached(st, ins) <= LastInstant(ins)
    decreases |ins|
  {
    hide NormalizeAppId;
    var rest := ins[1..];
    LastClock(if ins[0].Changed? then ins[0].restarted else ins[0].measured, rest);
    if rest != [] {
      assert rest[|rest| - 1] == ins[|ins| - 1];
      if !Ends(st, ins[0]) {
        ReachedByLastTurn(Next(st, ins[0]), ins[0].restarted, rest);
      }
    }
  }

  lemma {:induction false} LastClock(clock: nat, ins: seq<Input>)
    requires ClockMonotone(clock, ins)
    ensures ins != [] ==> clock <= LastInstant(ins)
    decreases |ins|
  {
    if |ins| > 1 {
      var rest := ins[1..];
      assert rest[|rest| - 1] == ins[|ins| - 1];
      LastClock(if ins[0].Changed? then ins[0].restarted else ins[0].measured, rest);
    }
  }

  /** Over every run that starts with a focus change, with the clock never going back: sessions tile the
      time from the first focus to where they reach. Their milliseconds never exceed it, and when each
      change reads one instant they miss it by less than one millisecond per session. */
  lemma FocusTiling(t0: nat, ins: seq<Input>)
    requires ClockMonotone(t0, ins) && ins != [] && ins[0].Changed?
    ensures var ss, first := Sessions(FocusState(None, t0), ins), ins[0].restarted;
      var elapsed := Reached(FocusState(None, t0), ins) - first;
      && Tiles(0, None, ss) && (forall i :: 0 <= i < |ss| ==> ss[i].from <= ss[i].to)
      && (ss != [] ==> ss[0].from == first)
      && NANOS_PER_MILLI * TotalMillis(ss) <= elapsed <= LastInstant(ins) - first
      && (Prompt(ins) ==> elapsed <= NANOS_PER_MILLI * TotalMillis(ss) + (NANOS_PER_MILLI - 1) * |ss|)
  {
    hide NormalizeAppId, Tiles, TotalDuration, TotalMillis, Sessions, Reached, ClockMonotone, LastInstant, Prompt;
    var st := FocusState(None, t0);
    FirstTurn(st, t0, ins);
    ReachedByLastTurn(st, t0, ins);
    var ss := Sessions(st, ins);
    SessionsTile(st, t0, ins, None);
    TilesAreIntervals(0, None, ss);
    MillisWithinOne(ss);
    var st', rest := Next(st, ins[0]), ins[1..];
    assert ss == Sessions(st', rest);
    PromptLater(ins);
    SessionsReach(st', ins[0].restarted, rest);
  }

  /** So in a run that ends with a flush, session time is the time from the first focus to the exit. */
  lemma FocusToExit(t0: nat, ins: seq<Input>)
    requires ClockMonotone(t0, ins) && Complete(ins)
    ensures var ss, elapsed := Sessions(FocusState(None, t0), ins), ins[|ins| - 1].measured - ins[0].restarted;
      && ss != [] && ss[0].from == ins[0].restarted && ss[|ss| - 1].to == ins[|ins| - 1].measured
      && (forall i :: 0 <= i < |ss| ==> ss[i].from <= ss[i].to)
      && NANOS_PER_MILLI * TotalMillis(ss) <= elapsed
      && (Prompt(ins) ==> elapsed <= NANOS_PER_MILLI * TotalMillis(ss) + (NANOS_PER_MILLI - 1) * |ss|)
  {
    hide NormalizeAppId, TotalMillis, ClockMonotone, Prompt;
    var st, rest := FocusState(None, t0), ins[1..];
    assert forall i :: 0 <= i < |rest| ==> rest[i] == ins[i + 1];
    FocusTiling(t0, ins);
    ReachesExit(Next(st, ins[0]), rest);
    assert Sessions(st, ins) == Sessions(Next(st, ins[0]), rest);
  }

  /** A run that does not start with a focus change emits nothing. */
  lemma NoFocusNoSessions(t0: nat, ins: seq<Input>)
    requires ins == [] || !ins[0].Changed?
    ensures Sessions(FocusState(None, t0), ins) == []
  {}

  lemma {:induction false} TilesAreIntervals(t: nat, app: Option<Bytes>, ss: seq<Session>)
    requires Tiles(t, app, ss)
    ensures forall i :: 0 <= i < |ss| ==> ss[i].from <= ss[i].to
    decreases |ss|
  {
    if ss != [] {
      TilesAreIntervals(ss[0].to, Some(ss[0].app), ss[1..]);
      assert forall i :: 1 <= i < |ss| ==> ss[i] == ss[1..][i - 1];
    }
  }

  // ----- Which sessions there are

  function NameAt(ins: seq<Input>, i: nat): Bytes
    requires i < |ins| && ins[i].Changed?
  {
    NormalizeAppId(ins[i].raw)
  }

  /** Focus changes whose wall clock can be read, then an exit that flushes. */
  predicate Complete(ins: seq<Input>) {
    && |ins| >= 2 && Flushes(ins[|ins| - 1])
    && forall i :: 0 <= i < |ins| - 1 ==> ins[i].Changed? && ins[i].wall.Some?
  }

  /** The focus goes to another app than before. */
  predicate IsSwitch(ins: seq<Input>, i: nat)
    requires Complete(ins) && i < |ins| - 1
  {
    i == 0 || NameAt(ins, i) != NameAt(ins, i - 1)
  }

  /** The session that turn `i` opens and turn `j` closes. */
  predicate Between(ins: seq<Input>, s: Session, i: nat, j: nat)
    requires Complete(ins)
  {
    && i < j < |ins| && s.app == NameAt(ins, i)
    && s.from == ins[i].restarted && s.to == ins[j].measured
    && s.wall == if ins[j].wall.Some? then ins[j].wall.value else 0
  }

  /** Each session is opened by one of these turns and closed by the next, the last by the exit. */
  predicate OpenedBy(ins: seq<Input>, ss: seq<Session>, turns: seq<nat>)
    requires Complete(ins)
  {
    && |ss| == |turns|
    && forall k :: 0 <= k < |ss| ==> Between(ins, ss[k], turns[k], ClosedAt(ins, turns, k))
  }

  /** The turn that closes session `k`. */
  function ClosedAt(ins: seq<Input>, turns: seq<nat>, k: nat): nat
    requires Complete(ins)
  {
    if k + 1 < |turns| then turns[k + 1] else |ins| - 1
  }

  lemma OpenedByOneMore(ins: seq<Input>, s: Session, ss: seq<Session>, i: nat, turns: seq<nat>)
    requires Complete(ins) && OpenedBy(ins, ss, turns)
    requires Between(ins, s, i, if turns != [] then turns[0] else |ins| - 1)
    ensures OpenedBy(ins, [s] + ss, [i] + turns)
  {
    hide Between;
    var w, t := [s] + ss, [i] + turns;
    forall k | 0 <= k < |w| ensures Between(ins, w[k], t[k], ClosedAt(ins, t, k)) {
      assert k + 1 < |t| ==> t[k + 1] == turns[k];
      if k > 0 {
        assert w[k] == ss[k - 1] && t[k] == turns[k - 1];
        assert ClosedAt(ins, t, k) == ClosedAt(ins, turns, k - 1);
      }
    }
  }

  /** The turns from `n` on that switch to another app. */
  function SwitchesFrom(ins: seq<Input>, n: nat): (turns: seq<nat>)
    requires Complete(ins)
    ensures forall i :: i in turns <==> n <= i < |ins| - 1 && IsSwitch(ins, i)
    ensures forall k :: 0 <= k < |turns| - 1 ==> turns[k] < turns[k + 1]
    decreases |ins| - n
  {
    if n >= |ins| - 1 then []
    else
      var rest := SwitchesFrom(ins, n + 1);
      assert rest != [] ==> rest[0] in rest;
      if IsSwitch(ins, n) then [n] + rest else rest
  }

  lemma {:induction false} SessionsFrom(st: FocusState, ins: seq<Input>, p: nat, n: nat)
    requires Complete(ins) && p < n < |ins| && NameAt(ins, p) == NameAt(ins, n - 1)
    requires st == FocusState(Some(NameAt(ins, p)), ins[p].restarted)
    ensures OpenedBy(ins, Sessions(st, ins[n..]), [p] + SwitchesFrom(ins, n))
    decreases |ins| - n
  {
    hide NormalizeAppId, OpenedBy, Sessions, SwitchesFrom;
    SessionsStep(st, ins, n);
    SwitchesStep(ins, n);
    if n == |ins| - 1 {
      OpenedByOneMore(ins, Closed(st, ins[n]).value, [], p, []) by {
        NothingOpened(ins);
      }
    } else if IsSwitch(ins, n) {
      SessionsFrom(Next(st, ins[n]), ins, n, n + 1);
      var rest := Sessions(Next(st, ins[n]), ins[n + 1..]);
      OpenedByOneMore(ins, Closed(st, ins[n]).value, rest, p, [n] + SwitchesFrom(ins, n + 1));
    } else {
      SessionsFrom(st, ins, p, n + 1);
      assert Next(st, ins[n]) == st && !Ends(st, ins[n]) && Closed(st, ins[n]).None?;
      assert [] + Sessions(st, ins[n + 1..]) == Sessions(st, ins[n + 1..]);
    }
  }

  lemma NothingOpened(ins: seq<Input>)
    requires Complete(ins)
    ensures OpenedBy(ins, [], [])
  {}

  lemma SwitchesStep(ins: seq<Input>, n: nat)
    requires Complete(ins)
    ensures SwitchesFrom(ins, n) ==
              if n >= |ins| - 1 then []
              else if IsSwitch(ins, n) then [n] + SwitchesFrom(ins, n + 1)
              else SwitchesFrom(ins, n + 1)
  {}

  /** A complete run has exactly one session per switch of the focus: it names the app switched to, starts
      there, ends at the next switch or the exit, and carries the wall clock read at its end. */
  lemma SessionsAreSwitches(t0: nat, ins: seq<Input>)
    requires Complete(ins)
    ensures OpenedBy(ins, Sessions(FocusState(None, t0), ins), SwitchesFrom(ins, 0))
  {
    hide NormalizeAppId, OpenedBy, Sessions, SwitchesFrom;
    var st := FocusState(None, t0);
    assert ins[0..] == ins;
    SessionsStep(st, ins, 0);
    SwitchesStep(ins, 0);
    SessionsFrom(Next(st, ins[0]), ins, 0, 1);
    var rest := Sessions(Next(st, ins[0]), ins[1..]);
    assert [] + rest == rest;
  }

  // ----- The same in events

  /** Events carry their session's app, twice, its end stamp and its whole milliseconds. */
  lemma {:induction false} EventsCarry(events: seq<Record>, ss: seq<Session>)
    requires Reports(events, ss)
    ensures forall i :: 0 <= i < |ss| ==>
              && ss[i].from <= ss[i].to
              && events[i].appName == ss[i].app && events[i].timestamp == ss[i].wall
              && events[i].payload == FocPayload(FocusData(ss[i].app, (ss[i].to - ss[i].from) / 1_000_000))
    ensures SumOf(FocusMs, Payloads(events)) == TotalMillis(ss)
    decreases |ss|
  {
    if ss != [] {
      var init, last := ss[..|ss| - 1], ss[|ss| - 1];
      EventsCarry(events[..|ss| - 1], init);
      assert Payloads(events)[..|ss| - 1] == Payloads(events[..|ss| - 1]);
      TotalMillisSnoc(init, last);
      assert ss == init + [last];
    }
  }

  lemma {:induction false} TotalMillisSnoc(ss: seq<Session>, s: Session)
    requires s.from <= s.to && forall i :: 0 <= i < |ss| ==> ss[i].from <= ss[i].to
    ensures TotalMillis(ss + [s]) == TotalMillis(ss) + Millis(s)
  {
    if ss == [] {
      assert (ss + [s])[1..] == [];
    } else {
      assert (ss + [s])[1..] == ss[1..] + [s];
      TotalMillisSnoc(ss[1..], s);
    }
  }

  /** The emitted milliseconds of a complete run: never more than the time from the first focus to the exit,
      and less than one millisecond short per event when the two clock reads coincide. */
  lemma EventsTile(t0: nat, ins: seq<Input>, events: seq<Record>)
    requires ClockMonotone(t0, ins) && Complete(ins) && Reports(events, Sessions(FocusState(None, t0), ins))
    ensures var total, elapsed := SumOf(FocusMs, Payloads(events)), ins[|ins| - 1].measured - ins[0].restarted;
      && 1_000_000 * total <= elapsed
      && (Prompt(ins) ==> elapsed <= 1_000_000 * total + 999_999 * |events|)
  {
    hide NormalizeAppId, TotalMillis, ClockMonotone, Prompt, Sessions, SumOf, Payloads;
    EventsCarry(events, Sessions(FocusState(None, t0), ins));
    FocusToExit(t0, ins);
  }

  lemma {:induction false} LastComponentOf(a: Bytes, b: Bytes)
    requires DOT !in b
    ensures LastComponent(a + [DOT] + b) == b
  {
    var w := a + [DOT] + b;
    assert w[|a|] == DOT;
    if a == [] {
      assert w[1..] == b;
    } else {
      assert w[1..] == a[1..] + [DOT] + b;
      LastComponentOf(a[1..], b);
    }
  }

  lemma OneComponent(b: Bytes)
    requires DOT !in b
    ensures LastComponent(b) == b
  {}

  /** The texts the names are compared with. */
  lemma KnownTexts()
    ensures Spells(UNKNOWN, "Unknown") && Spells(FLATPAK_PREFIX, "org.flatpak.") && Spells(SNAP_PREFIX, "snap.")
    ensures DOT as int == '.' as int
  {}

  /** Flatpak names lose their prefix, snap names keep their last component, missing and empty names
      become `Unknown`, and every other name stays as it is. */
  lemma NormalizeLaws(x: Bytes, a: Bytes, b: Bytes)
    requires DOT !in b
    ensures NormalizeAppId(None) == UNKNOWN && NormalizeAppId(Some([])) == UNKNOWN
    ensures NormalizeAppId(Some(FLATPAK_PREFIX + x)) == x
    ensures NormalizeAppId(Some(SNAP_PREFIX + a + [DOT] + b)) == b && NormalizeAppId(Some(SNAP_PREFIX + b)) == b
    ensures x != [] && !(FLATPAK_PREFIX <= x) && !(SNAP_PREFIX <= x) ==> NormalizeAppId(Some(x)) == x
  {
    hide LastComponent;
    var s := SNAP_PREFIX + a + [DOT] + b;
    assert s[0] == 115 && FLATPAK_PREFIX[0] == 111;
    assert s[|SNAP_PREFIX|..] == a + [DOT] + b;
    LastComponentOf(a, b);
    var t := SNAP_PREFIX + b;
    assert t[0] == 115 && t[|SNAP_PREFIX|..] == b;
    assert LastComponent(b) == b by {
      OneComponent(b);
    }
    assert (FLATPAK_PREFIX + x)[|FLATPAK_PREFIX|..] == x;
  }
}
