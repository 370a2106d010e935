/** The cadence of the idle loop's periodic events, over any monotone clock. */
module LabCadence {
  import opened Text
  import opened Sequences
  import opened Sorting
  import opened LabTimeline
  import opened LabRun

  function IsEvent(name: string): Entry -> bool { (e: Entry) => e.event == name }

  ghost function Ticks(st: LoopState): seq<Entry> { Filter(st.entries, IsEvent("heartbeat_tick")) }

  ghost function WgChecks(st: LoopState): seq<Entry> { Filter(st.entries, IsEvent("wg_check")) }

  ghost predicate NonDecreasing(rs: seq<int>) {
    (forall i | 0 <= i < |rs| :: rs[i] >= 0) && forall i, j | 0 <= i <= j < |rs| :: rs[i] <= rs[j]
  }

  // Strictly increasing positive multiples of a period, the last one at the given time; zero
  // stands for none yet.
  ghost predicate Periodic(es: seq<Entry>, period: nat, last: int)
    requires period > 0
  {
    && (forall i | 0 <= i < |es| :: es[i].elapsed > 0 && es[i].elapsed % period == 0)
    && (forall i, j | 0 <= i < j < |es| :: es[i].elapsed < es[j].elapsed)
    && last == (if es == [] then 0 else es[|es| - 1].elapsed)
    && period * |es| <= last
  }

  ghost predicate Numbered(es: seq<Entry>) {
    forall i | 0 <= i < |es| :: es[i].detail == TickDetail(es[i].elapsed, i + 1)
  }

  lemma NextMultiple(last: int, t: int, period: nat)
    requires (period == 30 || period == 60) && last % period == 0 && t % period == 0 && t > last
    ensures t >= last + period
  {
    if period == 30 {
      assert last == 30 * (last / 30) && t == 30 * (t / 30);
    } else {
      assert last == 60 * (last / 60) && t == 60 * (t / 60);
    }
  }

  lemma PeriodicNext(es: seq<Entry>, e: Entry, period: nat, last: int)
    requires (period == 30 || period == 60) && Periodic(es, period, last)
    requires e.elapsed > last && e.elapsed > 0 && e.elapsed % period == 0
    ensures Periodic(es + [e], period, e.elapsed)
  {
    var all := es + [e];
    assert last % period == 0;
    NextMultiple(last, e.elapsed, period);
    forall i | 0 <= i < |es| ensures all[i].elapsed <= last {
      assert i < |es| - 1 ==> es[i].elapsed < es[|es| - 1].elapsed;
    }
  }

  // Selecting from the log after a turn, part by part.
  lemma TurnFilter(c: Config, st: LoopState, elapsed: int, p: Entry -> bool)
    ensures Filter(LoopStep(c, st, elapsed).entries, p) ==
            Filter(st.entries, p) + (Filter(TickPart(c, st, elapsed), p) + Filter(WgPart(c, st, elapsed), p)
                                     + Filter(BgpBfdPart(c, elapsed), p))
  {
    var tick, wg, rest := TickPart(c, st, elapsed), WgPart(c, st, elapsed), BgpBfdPart(c, elapsed);
    FilterAppend(st.entries, tick + wg + rest, p);
    FilterAppend(tick + wg, rest, p);
    FilterAppend(tick, wg, p);
  }

  lemma TicksTurn(c: Config, st: LoopState, elapsed: int)
    ensures Ticks(LoopStep(c, st, elapsed)) == Ticks(st) + TickPart(c, st, elapsed)
  {
    var p := IsEvent("heartbeat_tick");
    var tick := TickPart(c, st, elapsed);
    TurnFilter(c, st, elapsed, p);
    FilterAll(tick, p);
    FilterNone(WgPart(c, st, elapsed), p);
    FilterNone(BgpBfdPart(c, elapsed), p);
    assert tick + [] + [] == tick;
  }

  lemma WgTurn(c: Config, st: LoopState, elapsed: int)
    ensures WgChecks(LoopStep(c, st, elapsed)) == WgChecks(st) + WgPart(c, st, elapsed)
  {
    var q := IsEvent("wg_check");
    var wg := WgPart(c, st, elapsed);
    TurnFilter(c, st, elapsed, q);
    FilterNone(TickPart(c, st, elapsed), q);
    FilterAll(wg, q);
    FilterNone(BgpBfdPart(c, elapsed), q);
    assert [] + wg + [] == wg;
  }

  // One turn adds at most one tick and one WireGuard check.
  lemma TurnFilters(c: Config, st: LoopState, elapsed: int)
    ensures Ticks(LoopStep(c, st, elapsed)) == Ticks(st) + TickPart(c, st, elapsed)
    ensures WgChecks(LoopStep(c, st, elapsed)) == WgChecks(st) + WgPart(c, st, elapsed)
  {
    TicksTurn(c, st, elapsed);
    WgTurn(c, st, elapsed);
  }

  ghost predicate TickAt(st: LoopState, t: int) { exists e | e in Ticks(st) :: e.elapsed == t }

  // What every turn keeps.
  ghost predicate Cadence(c: Config, st: LoopState) {
    && Periodic(Ticks(st), 30, st.lastHeartbeat)
    && Numbered(Ticks(st))
    && |Ticks(st)| == st.ticks
    && Periodic(WgChecks(st), 60, st.lastWg)
    && (c.heartbeat ==> forall e | e in WgChecks(st) :: TickAt(st, e.elapsed))
  }

  lemma CadenceStep(c: Config, st: LoopState, elapsed: int)
    requires Cadence(c, st) && elapsed >= st.lastHeartbeat && elapsed >= st.lastWg
    ensures Cadence(c, LoopStep(c, st, elapsed))
  {
    var next := LoopStep(c, st, elapsed);
    TurnFilters(c, st, elapsed);
    if TickDue(c, st, elapsed) {
      PeriodicNext(Ticks(st), TickEntry(elapsed, st.ticks + 1), 30, st.lastHeartbeat);
    } else {
      assert Ticks(st) + [] == Ticks(st);
    }
    if WgDue(c, st, elapsed) {
      PeriodicNext(WgChecks(st), WgEntry(elapsed), 60, st.lastWg);
    } else {
      assert WgChecks(st) + [] == WgChecks(st);
    }
    if c.heartbeat {
      TicksCoverChecks(c, st, elapsed);
    }
  }

  lemma TickKept(c: Config, st: LoopState, elapsed: int, t: int)
    requires TickAt(st, t)
    ensures TickAt(LoopStep(c, st, elapsed), t)
  {
    TurnFilters(c, st, elapsed);
    var e :| e in Ticks(st) && e.elapsed == t;
    assert e in Ticks(LoopStep(c, st, elapsed));
  }

  lemma NewTick(c: Config, st: LoopState, elapsed: int)
    requires TickDue(c, st, elapsed)
    ensures TickAt(LoopStep(c, st, elapsed), elapsed)
  {
    TicksTurn(c, st, elapsed);
    var e := TickEntry(elapsed, st.ticks + 1);
    assert TickPart(c, st, elapsed) == [e];
    assert e in Ticks(LoopStep(c, st, elapsed));
  }

  lemma LastTick(st: LoopState)
    requires Periodic(Ticks(st), 30, st.lastHeartbeat) && st.lastHeartbeat > 0
    ensures TickAt(st, st.lastHeartbeat)
  {
    assert Ticks(st)[|Ticks(st)| - 1] in Ticks(st);
  }

  lemma DueTogether(c: Config, st: LoopState, elapsed: int)
    requires c.heartbeat && WgDue(c, st, elapsed)
    ensures elapsed > 0 && (TickDue(c, st, elapsed) || elapsed == st.lastHeartbeat)
  {
    EvenMinutes(elapsed / 60);
    assert elapsed == 60 * (elapsed / 60);
  }

  lemma EvenMinutes(k: int)
    ensures (60 * k) % 30 == 0
  {
    assert 60 * k == 30 * (2 * k);
  }

  // A WireGuard check falls on a tick made in the same turn or already made in that second.
  lemma CheckHasTick(c: Config, st: LoopState, elapsed: int)
    requires Periodic(Ticks(st), 30, st.lastHeartbeat) && c.heartbeat && WgDue(c, st, elapsed)
    ensures TickAt(LoopStep(c, st, elapsed), elapsed)
  {
    DueTogether(c, st, elapsed);
    if TickDue(c, st, elapsed) {
      NewTick(c, st, elapsed);
    } else {
      LastTick(st);
      TickKept(c, st, elapsed, elapsed);
    }
  }

  lemma TicksCoverChecks(c: Config, st: LoopState, elapsed: int)
    requires Cadence(c, st) && c.heartbeat
    ensures forall e | e in WgChecks(LoopStep(c, st, elapsed)) :: TickAt(LoopStep(c, st, elapsed), e.elapsed)
  {
    var next := LoopStep(c, st, elapsed);
    TurnFilters(c, st, elapsed);
    forall e | e in WgChecks(next) ensures TickAt(next, e.elapsed) {
      if e in WgChecks(st) {
        TickKept(c, st, elapsed, e.elapsed);
      } else {
        CheckHasTick(c, st, elapsed);
      }
    }
  }

  // Main result. Over any clock that never runs backwards: ticks come at strictly increasing
  // positive multiples of 30 s, numbered from 1, no more than one per elapsed 30 s; WireGuard
  // checks come at strictly increasing multiples of 60 s, each at the time of a tick when ticks
  // are on.
  lemma {:induction false} LoopCadence(c: Config, rs: seq<int>)
    requires NonDecreasing(rs)
    ensures Cadence(c, RunLoop(c, rs))
    ensures var last := if rs == [] then 0 else rs[|rs| - 1];
            RunLoop(c, rs).lastHeartbeat <= last && RunLoop(c, rs).lastWg <= last
    ensures var last := if rs == [] then 0 else rs[|rs| - 1];
            30 * |Ticks(RunLoop(c, rs))| <= last && 60 * |WgChecks(RunLoop(c, rs))| <= last
  {
    if rs != [] {
      var init, last := rs[..|rs| - 1], rs[|rs| - 1];
      LoopCadence(c, init);
      CadenceStep(c, RunLoop(c, init), last);
    }
  }

  // ----- which ticks and checks there are -----

  ghost predicate Rising(es: seq<Entry>) { forall i, j | 0 <= i < j < |es| :: es[i].elapsed < es[j].elapsed }

  // The times are, in ascending order, exactly the readings that are positive multiples of the period;
  // there are none when the switch is off.
  ghost predicate TimesOf(es: seq<Entry>, on: bool, rs: seq<int>, period: nat)
    requires period > 0
  {
    Rising(es) && forall t :: HasTime(es, t) <==> t in rs && on && t > 0 && t % period == 0
  }

  ghost predicate HasTime(es: seq<Entry>, t: int) { exists e | e in es :: e.elapsed == t }

  lemma HasTimeLast(es: seq<Entry>, e: Entry, t: int)
    ensures HasTime(es + [e], t) <==> HasTime(es, t) || e.elapsed == t
  {
    assert e in es + [e];
    if x :| x in es && x.elapsed == t { assert x in es + [e]; }
  }

  lemma LastLogged(es: seq<Entry>, period: nat, last: int)
    requires period > 0 && Periodic(es, period, last) && last > 0
    ensures HasTime(es, last)
  {
    assert es[|es| - 1] in es;
  }

  predicate DueAt(on: bool, t: int, period: nat)
    requires period > 0
  {
    on && t > 0 && t % period == 0
  }

  lemma TimesSame(es: seq<Entry>, on: bool, rs: seq<int>, t: int, period: nat)
    requires period > 0 && TimesOf(es, on, rs, period) && (DueAt(on, t, period) ==> HasTime(es, t))
    ensures TimesOf(es, on, rs + [t], period)
  {
    forall x ensures HasTime(es, x) <==> x in rs + [t] && DueAt(on, x, period) { AppendMember(rs, [t], x); }
  }

  lemma TimesOneMore(es: seq<Entry>, e: Entry, on: bool, rs: seq<int>, period: nat)
    requires period > 0 && TimesOf(es, on, rs, period) && DueAt(on, e.elapsed, period) && Rising(es + [e])
    ensures TimesOf(es + [e], on, rs + [e.elapsed], period)
  {
    forall x ensures HasTime(es + [e], x) <==> x in rs + [e.elapsed] && DueAt(on, x, period) {
      HasTimeLast(es, e, x);
      AppendMember(rs, [e.elapsed], x);
    }
  }

  lemma RisingNext(es: seq<Entry>, e: Entry, period: nat, last: int)
    requires period > 0 && Periodic(es, period, last) && e.elapsed > last
    ensures Rising(es + [e])
  {
    forall i | 0 <= i < |es| ensures es[i].elapsed <= last {
      assert i < |es| - 1 ==> es[i].elapsed < es[|es| - 1].elapsed;
    }
  }

  // A due reading is the last one already logged or adds its entry; any other adds none.
  lemma TimesNext(es: seq<Entry>, part: seq<Entry>, on: bool, rs: seq<int>, t: int, period: nat, last: int)
    requires (period == 30 || period == 60) && Periodic(es, period, last) && t >= last && TimesOf(es, on, rs, period)
    requires if DueAt(on, t, period) && t != last then |part| == 1 && part[0].elapsed == t else part == []
    ensures TimesOf(es + part, on, rs + [t], period)
  {
    if part == [] {
      assert es + part == es;
      if t == last && t > 0 { LastLogged(es, period, last); }
      TimesSame(es, on, rs, t, period);
    } else {
      assert part == [part[0]];
      RisingNext(es, part[0], period, last);
      TimesOneMore(es, part[0], on, rs, period);
    }
  }

  lemma {:induction false} TicksExactly(c: Config, rs: seq<int>)
    requires NonDecreasing(rs)
    ensures TimesOf(Ticks(RunLoop(c, rs)), c.heartbeat, rs, 30)
  {
    if rs == [] {
      assert Ticks(LOOP_START) == [];
    } else {
      var init, t := rs[..|rs| - 1], rs[|rs| - 1];
      TicksExactly(c, init);
      LoopCadence(c, init);
      LastReading(rs);
      TicksNext(c, RunLoop(c, init), init, t);
      assert rs == init + [t];
    }
  }

  lemma TicksNext(c: Config, st: LoopState, rs: seq<int>, t: int)
    requires Periodic(Ticks(st), 30, st.lastHeartbeat) && t >= st.lastHeartbeat
    requires TimesOf(Ticks(st), c.heartbeat, rs, 30)
    ensures TimesOf(Ticks(LoopStep(c, st, t)), c.heartbeat, rs + [t], 30)
  {
    TicksTurn(c, st, t);
    TimesNext(Ticks(st), TickPart(c, st, t), c.heartbeat, rs, t, 30, st.lastHeartbeat);
  }

  lemma {:induction false} ChecksExactly(c: Config, rs: seq<int>)
    requires NonDecreasing(rs)
    ensures TimesOf(WgChecks(RunLoop(c, rs)), c.wgCheck, rs, 60)
  {
    if rs == [] {
      assert WgChecks(LOOP_START) == [];
    } else {
      var init, t := rs[..|rs| - 1], rs[|rs| - 1];
      ChecksExactly(c, init);
      LoopCadence(c, init);
      LastReading(rs);
      ChecksNext(c, RunLoop(c, init), init, t);
      assert rs == init + [t];
    }
  }

  lemma ChecksNext(c: Config, st: LoopState, rs: seq<int>, t: int)
    requires Periodic(WgChecks(st), 60, st.lastWg) && t >= st.lastWg && TimesOf(WgChecks(st), c.wgCheck, rs, 60)
    ensures TimesOf(WgChecks(LoopStep(c, st, t)), c.wgCheck, rs + [t], 60)
  {
    WgTurn(c, st, t);
    TimesNext(WgChecks(st), WgPart(c, st, t), c.wgCheck, rs, t, 60, st.lastWg);
  }

  // What a tick and a check say.
  ghost predicate TickText(e: Entry, tick: nat) {
    e == Entry(e.elapsed, "heartbeat_tick", "heartbeat", "uptime=" + IntText(e.elapsed) + "s,tick=" + Decimal(tick))
  }

  ghost predicate CheckText(e: Entry) { e == Entry(e.elapsed, "wg_check", "wireguard", "periodic_60s_check") }

  lemma {:induction false} TickTexts(c: Config, rs: seq<int>)
    ensures var st := RunLoop(c, rs);
            |Ticks(st)| == st.ticks && forall i | 0 <= i < |Ticks(st)| :: TickText(Ticks(st)[i], i + 1)
  {
    if rs != [] {
      var init := rs[..|rs| - 1];
      TickTexts(c, init);
      TicksTurn(c, RunLoop(c, init), rs[|rs| - 1]);
    }
  }

  lemma {:induction false} CheckTexts(c: Config, rs: seq<int>)
    ensures forall e | e in WgChecks(RunLoop(c, rs)) :: CheckText(e)
  {
    if rs != [] {
      var init := rs[..|rs| - 1];
      CheckTexts(c, init);
      WgTurn(c, RunLoop(c, init), rs[|rs| - 1]);
    }
  }

  // Main result. Over any clock that never runs backwards: a tick, or a check, is logged for exactly
  // the seconds that are read and due, once each, in order and with these texts.
  lemma TicksAndChecksExactly(c: Config, rs: seq<int>)
    requires NonDecreasing(rs)
    ensures var ticks, checks := Ticks(RunLoop(c, rs)), WgChecks(RunLoop(c, rs));
            && TimesOf(ticks, c.heartbeat, rs, 30) && (forall i | 0 <= i < |ticks| :: TickText(ticks[i], i + 1))
            && TimesOf(checks, c.wgCheck, rs, 60) && (forall e | e in checks :: CheckText(e))
  {
    TicksExactly(c, rs);
    ChecksExactly(c, rs);
    TickTexts(c, rs);
    CheckTexts(c, rs);
  }

  lemma LastReading(rs: seq<int>)
    requires NonDecreasing(rs) && rs != []
    ensures var init, last := rs[..|rs| - 1], rs[|rs| - 1];
            NonDecreasing(init) && last >= (if init == [] then 0 else init[|init| - 1])
  {}

  // ----- the clock -----

  // int(time.monotonic() - start_time), where the clock is read once before the loop and then
  // once a turn.
  function Elapsed(clock: nat -> real, turn: nat): int { (TurnTime(clock, turn) - clock(0)).Floor }

  // The clock as a turn reads it.
  function TurnTime(clock: nat -> real, turn: nat): real { clock(turn + 1) }

  // The run reads this clock.
  ghost predicate Reads(world: World, clock: nat -> real) {
    forall k: nat :: world.seconds(k) == Elapsed(clock, k)
  }

  ghost predicate Monotone(clock: nat -> real) { forall i: nat, j: nat | i <= j :: clock(i) <= clock(j) }

  lemma ClockNonDecreasing(world: World, clock: nat -> real, n: nat)
    requires Reads(world, clock) && Monotone(clock)
    ensures NonDecreasing(Readings(world, n))
  {
    forall i, j | 0 <= i <= j < n ensures 0 <= world.seconds(i) <= world.seconds(j) {
      assert clock(0) <= clock(i + 1) <= clock(j + 1);
      FloorMonotone(clock(i + 1) - clock(0), clock(j + 1) - clock(0));
      FloorMonotone(0.0, clock(i + 1) - clock(0));
    }
  }

  lemma FloorMonotone(x: real, y: real)
    requires x <= y
    ensures x.Floor <= y.Floor
  {}

  // ----- how many samples -----

  // Between two turns the loop sleeps for at least the interval.
  ghost predicate Sleeps(clock: nat -> real, interval: int) {
    forall k: nat :: TurnTime(clock, k + 1) >= TurnTime(clock, k) + interval as real
  }

  lemma ElapsedAdvances(clock: nat -> real, interval: int, k: nat)
    requires Sleeps(clock, interval)
    ensures Elapsed(clock, k + 1) >= Elapsed(clock, k) + interval
  {
    assert TurnTime(clock, k + 1) >= TurnTime(clock, k) + interval as real;
    var x := clock(k + 1) - clock(0);
    FloorMonotone(x + interval as real, clock(k + 2) - clock(0));
    assert (x + interval as real).Floor == x.Floor + interval;
  }

  lemma {:induction false} ElapsedAtLeast(clock: nat -> real, interval: int, k: nat)
    requires Monotone(clock) && Sleeps(clock, interval)
    ensures Elapsed(clock, k) >= interval * k
  {
    if k == 0 {
      assert clock(0) <= clock(1);
      FloorMonotone(0.0, clock(1) - clock(0));
    } else {
      ElapsedAtLeast(clock, interval, k - 1);
      ElapsedAdvances(clock, interval, k - 1);
      assert interval * k == interval * (k - 1) + interval;
    }
  }

  function CeilDiv(a: int, b: int): int
    requires b > 0
  {
    (a + b - 1) / b
  }

  // With an interval of at least one second a completed loop takes at most
  // ceil(duration / interval) + 1 samples, and a single one if there is nothing to wait for.
  lemma SampleBound(c: Config, world: World, clock: nat -> real, n: nat)
    requires Reads(world, clock) && Monotone(clock) && Sleeps(clock, c.interval) && c.interval >= 1
    requires Finished(c, world, n)
    ensures 1 <= n <= (if c.duration <= 0 then 1 else CeilDiv(c.duration, c.interval) + 1)
  {
    if n >= 2 {
      assert world.seconds(n - 2) < c.duration;
      ElapsedAtLeast(clock, c.interval, n - 2);
      NonNegativeProduct(c.interval, n - 2);
      CeilAbove(c.duration, c.interval, n - 2);
    }
  }

  lemma NonNegativeProduct(a: int, b: int)
    requires a >= 0 && b >= 0
    ensures a * b >= 0
  {}

  lemma CancelFactor(b: int, d: int)
    requires b > 0 && b * d < b
    ensures d < 1
  {}

  lemma CeilAbove(a: int, b: int, m: nat)
    requires b > 0 && b * m < a
    ensures m + 1 <= CeilDiv(a, b)
  {
    var q, r := (a + b - 1) / b, (a + b - 1) % b;
    assert a + b - 1 == b * q + r;
    assert b * (m + 1 - q) == b * m + b - b * q;
    CancelFactor(b, m + 1 - q);
  }

  // The bound that makes the loop terminate: by turn max(duration, 0) the duration has passed.
  lemma TerminationBound(c: Config, world: World, clock: nat -> real)
    requires Reads(world, clock) && Monotone(clock) && Sleeps(clock, c.interval) && c.interval >= 1
    ensures world.seconds(if c.duration > 0 then c.duration else 0) >= c.duration
  {
    var k := if c.duration > 0 then c.duration else 0;
    ElapsedAtLeast(clock, c.interval, k);
    NonNegativeProduct(c.interval - 1, k);
    assert c.interval * k == (c.interval - 1) * k + k;
  }

  // ----- BGP and BFD events have no memory of the last second -----

  ghost function BgpEvents(st: LoopState): seq<Entry> { Filter(st.entries, IsEvent("bgp_maintenance")) }

  ghost function BfdEvents(st: LoopState): seq<Entry> { Filter(st.entries, IsEvent("bfd_tick")) }

  predicate TenthSecond(t: int) { t > 0 && t % 10 == 0 }

  // The readings that are due, every one of them.
  function Due(c: Config, rs: seq<int>): seq<int> { if c.bgpBfd then Filter(rs, TenthSecond) else [] }

  lemma BgpTurn(c: Config, st: LoopState, elapsed: int)
    ensures BgpEvents(LoopStep(c, st, elapsed)) ==
            BgpEvents(st) + (if c.bgpBfd && TenthSecond(elapsed) then [BgpEntry(elapsed)] else [])
  {
    var p := IsEvent("bgp_maintenance");
    TurnFilter(c, st, elapsed, p);
    FilterNone(TickPart(c, st, elapsed), p);
    FilterNone(WgPart(c, st, elapsed), p);
    BgpPart(c, elapsed);
  }

  lemma BgpPart(c: Config, elapsed: int)
    ensures Filter(BgpBfdPart(c, elapsed), IsEvent("bgp_maintenance")) ==
            if c.bgpBfd && TenthSecond(elapsed) then [BgpEntry(elapsed)] else []
  {
    FilterTwo(BgpEntry(elapsed), BfdEntry(elapsed), IsEvent("bgp_maintenance"));
  }

  lemma BfdTurn(c: Config, st: LoopState, elapsed: int)
    ensures BfdEvents(LoopStep(c, st, elapsed)) ==
            BfdEvents(st) + (if c.bgpBfd && TenthSecond(elapsed) then [BfdEntry(elapsed)] else [])
  {
    var p := IsEvent("bfd_tick");
    TurnFilter(c, st, elapsed, p);
    FilterNone(TickPart(c, st, elapsed), p);
    FilterNone(WgPart(c, st, elapsed), p);
    BfdPart(c, elapsed);
  }

  lemma BfdPart(c: Config, elapsed: int)
    ensures Filter(BgpBfdPart(c, elapsed), IsEvent("bfd_tick")) ==
            if c.bgpBfd && TenthSecond(elapsed) then [BfdEntry(elapsed)] else []
  {
    FilterTwo(BgpEntry(elapsed), BfdEntry(elapsed), IsEvent("bfd_tick"));
  }

  lemma DueNext(c: Config, rs: seq<int>, t: int)
    ensures Due(c, rs + [t]) == Due(c, rs) + (if c.bgpBfd && TenthSecond(t) then [t] else [])
  {
    FilterAppend(rs, [t], TenthSecond);
    FilterCons(t, [], TenthSecond);
  }

  lemma {:induction false} BgpExactly(c: Config, rs: seq<int>)
    ensures BgpEvents(RunLoop(c, rs)) == Map(Due(c, rs), BgpEntry)
  {
    if rs != [] {
      var init, last := rs[..|rs| - 1], rs[|rs| - 1];
      BgpExactly(c, init);
      BgpTurn(c, RunLoop(c, init), last);
      DueNext(c, init, last);
      assert rs == init + [last];
    }
  }

  lemma {:induction false} BfdExactly(c: Config, rs: seq<int>)
    ensures BfdEvents(RunLoop(c, rs)) == Map(Due(c, rs), BfdEntry)
  {
    if rs != [] {
      var init, last := rs[..|rs| - 1], rs[|rs| - 1];
      BfdExactly(c, init);
      BfdTurn(c, RunLoop(c, init), last);
      DueNext(c, init, last);
      assert rs == init + [last];
    }
  }

  // Main result. The BGP and the BFD events of any run are one each for every due reading,
  // repeated ones included.
  lemma BgpBfdExactly(c: Config, rs: seq<int>)
    ensures BgpEvents(RunLoop(c, rs)) == Map(Due(c, rs), BgpEntry)
    ensures BfdEvents(RunLoop(c, rs)) == Map(Due(c, rs), BfdEntry)
    ensures forall e | e in BgpEvents(RunLoop(c, rs)) ::
              e == Entry(e.elapsed, "bgp_maintenance", "bgp", "periodic_maintenance")
    ensures forall e | e in BfdEvents(RunLoop(c, rs)) :: e == Entry(e.elapsed, "bfd_tick", "bfd", "periodic_tick")
  {
    BgpExactly(c, rs);
    BfdExactly(c, rs);
  }

  ghost predicate Increasing(ts: seq<int>) { forall i, j | 0 <= i < j < |ts| :: ts[i] < ts[j] }

  // No second has two BGP events, or two BFD events, exactly when no two due turns fall in the
  // same second.
  lemma OncePerSecondIff(c: Config, rs: seq<int>)
    ensures Rising(BgpEvents(RunLoop(c, rs))) <==> Increasing(Due(c, rs))
    ensures Rising(BfdEvents(RunLoop(c, rs))) <==> Increasing(Due(c, rs))
  {
    BgpBfdExactly(c, rs);
    var ts, bgp, bfd := Due(c, rs), Map(Due(c, rs), BgpEntry), Map(Due(c, rs), BfdEntry);
    forall i | 0 <= i < |ts| ensures bgp[i].elapsed == ts[i] && bfd[i].elapsed == ts[i] {}
  }

  // With an interval of at least a second no two turns fall in the same second.
  lemma SecondsDiffer(world: World, clock: nat -> real, interval: int, n: nat)
    requires Reads(world, clock) && Sleeps(clock, interval) && interval >= 1
    ensures Increasing(Readings(world, n))
  {
    forall i, j | 0 <= i < j < n ensures world.seconds(i) < world.seconds(j) { LaterSecond(clock, interval, i, j); }
  }

  lemma {:induction false} FilterIncreasing(ts: seq<int>, p: int -> bool)
    requires Increasing(ts)
    ensures Increasing(Filter(ts, p))
  {
    if ts != [] {
      var tail := Filter(ts[1..], p);
      FilterIncreasing(ts[1..], p);
      forall k | 0 <= k < |tail| ensures ts[0] < tail[k] {
        FilterMembers(ts[1..], p, tail[k]);
        assert tail[k] in ts[1..];
      }
    }
  }

  // So then no second has two BGP events or two BFD events.
  lemma OncePerSecond(c: Config, world: World, clock: nat -> real, n: nat)
    requires Reads(world, clock) && Sleeps(clock, c.interval) && c.interval >= 1
    ensures Rising(BgpEvents(RunLoop(c, Readings(world, n)))) && Rising(BfdEvents(RunLoop(c, Readings(world, n))))
  {
    SecondsDiffer(world, clock, c.interval, n);
    FilterIncreasing(Readings(world, n), TenthSecond);
    OncePerSecondIff(c, Readings(world, n));
  }

  lemma {:induction false} LaterSecond(clock: nat -> real, interval: int, i: nat, j: nat)
    requires Sleeps(clock, interval) && interval >= 1 && i < j
    ensures Elapsed(clock, i) < Elapsed(clock, j)
  {
    ElapsedAdvances(clock, interval, j - 1);
    if i < j - 1 { LaterSecond(clock, interval, i, j - 1); }
  }

  // With an interval of zero they can: this clock stands still for two turns.
  function StandingClock(): nat -> real {
    (k: nat) => if k == 0 then 0.0 else if k <= 2 then 30.0 else 35.0
  }

  // A completed run of 35 s over it logs BGP twice in its thirtieth second, and a tick once.
  lemma SameSecondRepeats(c: Config, world: World)
    requires c.heartbeat && c.bgpBfd && c.interval == 0 && c.duration == 35 && Reads(world, StandingClock())
    ensures Monotone(StandingClock()) && Sleeps(StandingClock(), 0) && Finished(c, world, 3)
    ensures var st := RunLoop(c, Readings(world, 3));
            |Ticks(st)| == 1 && BgpEvents(st) == [BgpEntry(30), BgpEntry(30)]
  {
    StandingReadings(c, world);
    StandingTicks(c);
    StandingBgp(c);
  }

  lemma StandingTicks(c: Config)
    requires c.heartbeat
    ensures |Ticks(LoopStep(c, LoopStep(c, LoopStep(c, LOOP_START, 30), 30), 35))| == 1
  {
    var s1 := LoopStep(c, LOOP_START, 30);
    var s2 := LoopStep(c, s1, 30);
    TicksTurn(c, LOOP_START, 30);
    TicksTurn(c, s1, 30);
    TicksTurn(c, s2, 35);
  }

  lemma StandingBgp(c: Config)
    requires c.bgpBfd
    ensures BgpEvents(LoopStep(c, LoopStep(c, LoopStep(c, LOOP_START, 30), 30), 35)) == [BgpEntry(30), BgpEntry(30)]
  {
    var s1 := LoopStep(c, LOOP_START, 30);
    var s2 := LoopStep(c, s1, 30);
    BgpTurn(c, LOOP_START, 30);
    BgpTurn(c, s1, 30);
    BgpTurn(c, s2, 35);
  }

  lemma StandingReadings(c: Config, world: World)
    requires Reads(world, StandingClock())
    ensures RunLoop(c, Readings(world, 3)) == LoopStep(c, LoopStep(c, LoopStep(c, LOOP_START, 30), 30), 35)
  {
    assert world.seconds(0) == 30 && world.seconds(1) == 30 && world.seconds(2) == 35;
    LoopNext(c, world, 0);
    LoopNext(c, world, 1);
    LoopNext(c, world, 2);
    assert Readings(world, 0) == [];
  }
}
