/**
  The background probe loop over a timed schedule: how long each sleep and each probe takes and
  whether the probe succeeds is the schedule's choice, within the loop's own limits.
 */
module Monitor {
  import opened HealthHistory
  import opened Health
  import opened Wrappers

  datatype Timing = Timing(interval: real, timeout: real, jitter: bool)

  datatype Probe = Probe(duration: real, ok: bool)

  /** One turn of the loop: the random draw for the sleep, then one probe per dependency in order. */
  datatype Cycle = Cycle(random: real, probes: seq<Probe>)

  function SleepTime(t: Timing, random: real): real {
    if t.jitter then t.interval * (0.75 + 0.5 * random) else t.interval
  }

  /** The longest wait for one probe: its own timeout plus the loop's slack. */
  function ProbeLimit(t: Timing): real {
    t.timeout + 0.25
  }

  ghost predicate Possible(t: Timing, limit: real, deps: nat, cycle: Cycle) {
    && 0.0 <= cycle.random < 1.0 && |cycle.probes| == deps
    && forall k | 0 <= k < deps :: 0.0 <= cycle.probes[k].duration <= limit
  }

  function ProbeTime(probes: seq<Probe>): real {
    if probes == [] then 0.0 else ProbeTime(probes[..|probes| - 1]) + probes[|probes| - 1].duration
  }

  function Elapsed(t: Timing, cycles: seq<Cycle>): real {
    if cycles == [] then 0.0
    else
      var last := cycles[|cycles| - 1];
      Elapsed(t, cycles[..|cycles| - 1]) + SleepTime(t, last.random) + ProbeTime(last.probes)
  }

  type History = map<string, seq<Observation>>

  function Logged(h: History, name: string, probe: Probe): (h': History)
    requires name in h
    ensures h'.Keys == h.Keys
  {
    h[name := h[name] + [Observation(probe.ok, false)]]
  }

  function LogProbes(h: History, names: seq<string>, probes: seq<Probe>): History
    requires |probes| <= |names| && forall n | n in names :: n in h
    ensures LogProbes(h, names, probes).Keys == h.Keys
  {
    if probes == [] then h
    else
      var k := |probes| - 1;
      Logged(LogProbes(h, names, probes[..k]), names[k], probes[k])
  }

  function LogCycles(h: History, names: seq<string>, cycles: seq<Cycle>): History
    requires forall n | n in names :: n in h
    requires forall c | c in cycles :: |c.probes| == |names|
    ensures LogCycles(h, names, cycles).Keys == h.Keys
  {
    if cycles == [] then h
    else LogProbes(LogCycles(h, names, cycles[..|cycles| - 1]), names, cycles[|cycles| - 1].probes)
  }

  class DependencyMonitor {
    const health: DependencyHealth
    /** The dependencies with a URL, in the order they are probed. */
    const probed: seq<string>
    const timing: Timing
    var now: real

    constructor (health: DependencyHealth, probed: seq<string>, timing: Timing)
      ensures this.health == health && this.probed == probed && this.timing == timing && now == 0.0
    {
      this.health, this.probed, this.timing, now := health, probed, timing, 0.0;
    }

    ghost predicate Valid()
      reads this, health, health.states.Values
    {
      health.Valid() && forall n | n in probed :: n in health.history
    }

    method ProbeDependency(name: string, probe: Probe)
      requires Valid() && name in health.history
      modifies `now, health, health.states.Values
      ensures Valid()
      ensures now == old(now) + probe.duration
      ensures health.history == Logged(old(health.history), name, probe)
      ensures health.states[name].reason
           == if probe.ok then None
              else if probe.duration < timing.timeout + 0.25 then Some("probe_failed") else Some("probe_timeout")
      ensures (if probe.ok then health.states[name].lastSuccessAt else health.states[name].lastFailureAt) == Some(now)
    {
      now := now + probe.duration;
      var reason := if probe.duration >= ProbeLimit(timing) then "probe_timeout" else "probe_failed";
      health.Observe(name, Observation(probe.ok, false), reason, now);
    }

    method ProbeOnce(probes: seq<Probe>)
      requires Valid() && |probes| == |probed|
      modifies `now, health, health.states.Values
      ensures Valid()
      ensures now == old(now) + ProbeTime(probes)
      ensures health.history == LogProbes(old(health.history), probed, probes)
    {
      hide Logged, DependencyHealth.Valid;
      for k := 0 to |probes|
        invariant Valid()
        invariant now == old(now) + ProbeTime(probes[..k])
        invariant health.history == LogProbes(old(health.history), probed, probes[..k])
      {
        assert probes[..k + 1][..k] == probes[..k];
        ProbeDependency(probed[k], probes[k]);
      }
      assert probes[..|probes|] == probes;
    }

    /** The loop, over the turns it takes before it is stopped. */
    method Run(cycles: seq<Cycle>)
      requires Valid() && forall c | c in cycles :: |c.probes| == |probed|
      modifies `now, health, health.states.Values
      ensures Valid()
      ensures now == old(now) + Elapsed(timing, cycles)
      ensures health.history == LogCycles(old(health.history), probed, cycles)
    {
      hide DependencyHealth.Valid, LogProbes, ProbeTime, SleepTime;
      for i := 0 to |cycles|
        invariant Valid()
        invariant now == old(now) + Elapsed(timing, cycles[..i])
        invariant health.history == LogCycles(old(health.history), probed, cycles[..i])
      {
        assert cycles[..i + 1][..i] == cycles[..i];
        now := now + SleepTime(timing, cycles[i].random);
        ProbeOnce(cycles[i].probes);
      }
      assert cycles[..|cycles|] == cycles;
    }
  }

  // ------------------------------------------------------- status after a run

  lemma {:induction false} ReplayAppend(c: Config, start: Live, h: seq<Observation>, g: seq<Observation>)
    ensures Replay(c, start, h + g) == Replay(c, Replay(c, start, h), g)
  {
    if g == [] {
      assert h + g == h;
    } else {
      var n := |g| - 1;
      assert (h + g)[..|h + g| - 1] == h + g[..n];
      ReplayAppend(c, start, h, g[..n]);
    }
  }

  lemma {:induction false} FailuresTrip(c: Config, start: Live, g: seq<Observation>)
    requires forall k | 0 <= k < |g| :: !g[k].success
    ensures Replay(c, start, g).failures == start.failures + |g|
    ensures |g| >= c.fail ==> Replay(c, start, g).status.Unhealthy?
  {
    if g != [] {
      FailuresTrip(c, start, g[..|g| - 1]);
    }
  }

  lemma {:induction false} SuccessesRecover(c: Config, start: Live, g: seq<Observation>)
    requires forall k | 0 <= k < |g| :: g[k].success
    ensures var live := Replay(c, start, g);
      live.status.Healthy? || |g| == 0 || (|g| < c.recovery && live.successes >= |g|)
    ensures |g| >= c.recovery ==> Replay(c, start, g).status.Healthy?
  {
    if g != [] {
      SuccessesRecover(c, start, g[..|g| - 1]);
    }
  }

  /** What the loop records of dependency number `d`: its own probes, in order. */
  function Own(cycles: seq<Cycle>, d: nat): seq<Observation>
    requires forall c | c in cycles :: d < |c.probes|
  {
    seq(|cycles|, i requires 0 <= i < |cycles| => Observation(cycles[i].probes[d].ok, false))
  }

  lemma {:induction false} LogProbesOwn(h: History, names: seq<string>, probes: seq<Probe>, d: nat)
    requires |probes| <= |names| && (forall n | n in names :: n in h) && Distinct(names) && d < |names|
    ensures LogProbes(h, names, probes)[names[d]]
         == h[names[d]] + if d < |probes| then [Observation(probes[d].ok, false)] else []
  {
    if probes != [] {
      LogProbesOwn(h, names, probes[..|probes| - 1], d);
    }
  }

  lemma {:induction false} LogCyclesOwn(h: History, names: seq<string>, cycles: seq<Cycle>, d: nat)
    requires (forall n | n in names :: n in h) && Distinct(names) && d < |names|
    requires forall c | c in cycles :: |c.probes| == |names|
    ensures LogCycles(h, names, cycles)[names[d]] == h[names[d]] + Own(cycles, d)
  {
    hide LogProbes;
    if cycles != [] {
      var n := |cycles| - 1;
      LogCyclesOwn(h, names, cycles[..n], d);
      LogProbesOwn(LogCycles(h, names, cycles[..n]), names, cycles[n].probes, d);
      assert Own(cycles, d) == Own(cycles[..n], d) + [Observation(cycles[n].probes[d].ok, false)];
    }
  }

  // -------------------------------------------------------------- time bounds

  function Turns(n: nat, turn: real): real {
    n as real * turn
  }

  function DetectionBound(interval: real, timeout: real, failThreshold: nat): real {
    Turns(failThreshold, interval + timeout)
  }

  function RecoveryBound(interval: real, timeout: real, recoveryThreshold: nat): real {
    Turns(recoveryThreshold, interval + timeout)
  }

  function LongestSleep(t: Timing): real {
    if t.jitter then 1.25 * t.interval else t.interval
  }

  /** One turn with so many sequential probes takes at most this long. */
  function TurnLimit(t: Timing, limit: real, deps: nat): real {
    LongestSleep(t) + deps as real * limit
  }

  lemma {:induction false} ProbeTimeBound(probes: seq<Probe>, limit: real)
    requires forall k | 0 <= k < |probes| :: probes[k].duration <= limit
    ensures ProbeTime(probes) <= |probes| as real * limit
  {
    if probes != [] {
      ProbeTimeBound(probes[..|probes| - 1], limit);
    }
  }

  lemma {:induction false} ElapsedAtMost(t: Timing, turn: real, cycles: seq<Cycle>)
    requires forall k | 0 <= k < |cycles| :: SleepTime(t, cycles[k].random) + ProbeTime(cycles[k].probes) <= turn
    ensures Elapsed(t, cycles) <= Turns(|cycles|, turn)
  {
    hide SleepTime, ProbeTime;
    if cycles != [] {
      var n := |cycles| - 1;
      ElapsedAtMost(t, turn, cycles[..n]);
      assert (n + 1) as real * turn == n as real * turn + turn;
    }
  }

  lemma ScaleMonotone(factor: real, a: real, b: real)
    requires 0.0 <= factor && a <= b
    ensures factor * a <= factor * b
    ensures 0.0 < factor && a < b ==> factor * a < factor * b
  {
  }

  lemma TurnsMonotone(n: nat, a: real, b: real)
    requires a <= b
    ensures Turns(n, a) <= Turns(n, b)
    ensures n > 0 && a < b ==> Turns(n, a) < Turns(n, b)
  {
    ScaleMonotone(n as real, a, b);
  }

  lemma SleepAtMost(t: Timing, random: real)
    requires 0.0 <= t.interval && 0.0 <= random < 1.0
    ensures SleepTime(t, random) <= LongestSleep(t)
  {
    ScaleMonotone(t.interval, 0.75 + 0.5 * random, 1.25);
  }

  /** The turns of an undisturbed loop over the dependencies `names`, `limit` bounding each probe. */
  ghost predicate Undisturbed(t: Timing, limit: real, names: seq<string>, h: History, cycles: seq<Cycle>) {
    && 0.0 <= t.interval && Distinct(names) && (forall n | n in names :: n in h)
    && forall x | x in cycles :: Possible(t, limit, |names|, x)
  }

  /** Every probe of dependency number `d` has this outcome. */
  ghost predicate AllProbes(cycles: seq<Cycle>, d: nat, ok: bool) {
    forall x | x in cycles :: d < |x.probes| && x.probes[d].ok == ok
  }

  /** So many turns with so many sequential probes each take at most this long. */
  lemma ElapsedBound(t: Timing, limit: real, names: seq<string>, h: History, cycles: seq<Cycle>)
    requires Undisturbed(t, limit, names, h, cycles)
    ensures Elapsed(t, cycles) <= Turns(|cycles|, TurnLimit(t, limit, |names|))
  {
    hide Turns, TurnLimit;
    var turn := TurnLimit(t, limit, |names|);
    forall k | 0 <= k < |cycles|
      ensures SleepTime(t, cycles[k].random) + ProbeTime(cycles[k].probes) <= turn
    {
      TurnBound(t, limit, |names|, cycles[k]);
    }
    ElapsedAtMost(t, turn, cycles);
  }

  lemma TurnBound(t: Timing, limit: real, deps: nat, cycle: Cycle)
    requires 0.0 <= t.interval && Possible(t, limit, deps, cycle)
    ensures SleepTime(t, cycle.random) + ProbeTime(cycle.probes) <= TurnLimit(t, limit, deps)
  {
    SleepAtMost(t, cycle.random);
    ProbeTimeBound(cycle.probes, limit);
  }

  /**
    Detection: whatever was observed before, once every probe of dependency `d` fails it is
    UNHEALTHY after as many turns as the failure threshold, and these take at most this long.
   */
  lemma DetectionTime(
      c: Config, t: Timing, limit: real, names: seq<string>, h: History, cycles: seq<Cycle>, d: nat, start: Live)
    requires Undisturbed(t, limit, names, h, cycles) && d < |names|
    requires |cycles| == c.fail && AllProbes(cycles, d, false)
    ensures Replay(c, start, LogCycles(h, names, cycles)[names[d]]).status.Unhealthy?
    ensures Elapsed(t, cycles) <= Turns(c.fail, TurnLimit(t, limit, |names|))
  {
    hide Turns, TurnLimit;
    LogCyclesOwn(h, names, cycles, d);
    ReplayAppend(c, start, h[names[d]], Own(cycles, d));
    FailuresTrip(c, Replay(c, start, h[names[d]]), Own(cycles, d));
    ElapsedBound(t, limit, names, h, cycles);
  }

  /** Recovery: likewise with successes and the recovery threshold. */
  lemma RecoveryTime(
      c: Config, t: Timing, limit: real, names: seq<string>, h: History, cycles: seq<Cycle>, d: nat, start: Live)
    requires Undisturbed(t, limit, names, h, cycles) && d < |names|
    requires |cycles| == c.recovery && AllProbes(cycles, d, true)
    ensures Replay(c, start, LogCycles(h, names, cycles)[names[d]]).status.Healthy?
    ensures Elapsed(t, cycles) <= Turns(c.recovery, TurnLimit(t, limit, |names|))
  {
    hide Turns, TurnLimit;
    LogCyclesOwn(h, names, cycles, d);
    ReplayAppend(c, start, h[names[d]], Own(cycles, d));
    SuccessesRecover(c, Replay(c, start, h[names[d]]), Own(cycles, d));
    ElapsedBound(t, limit, names, h, cycles);
  }

  /**
    An outage that begins inside a turn, before or after that turn's own probe, is detected with one
    turn more.
   */
  lemma DetectionInsideTurn(
      c: Config, t: Timing, limit: real, names: seq<string>, h: History, first: Cycle, rest: seq<Cycle>, d: nat,
      start: Live)
    requires Undisturbed(t, limit, names, h, [first] + rest) && d < |names|
    requires |rest| == c.fail && AllProbes(rest, d, false)
    ensures Replay(c, start, LogCycles(h, names, [first] + rest)[names[d]]).status.Unhealthy?
    ensures Elapsed(t, [first] + rest) <= Turns(c.fail + 1, TurnLimit(t, limit, |names|))
  {
    hide Turns, TurnLimit;
    assert first in [first] + rest;
    var before := h[names[d]] + [Observation(first.probes[d].ok, false)];
    LogCyclesAfter(h, names, first, rest, d);
    ReplayAppend(c, start, before, Own(rest, d));
    FailuresTrip(c, Replay(c, start, before), Own(rest, d));
    ElapsedBound(t, limit, names, h, [first] + rest);
  }

  /** Recovery that begins inside a turn likewise. */
  lemma RecoveryInsideTurn(
      c: Config, t: Timing, limit: real, names: seq<string>, h: History, first: Cycle, rest: seq<Cycle>, d: nat,
      start: Live)
    requires Undisturbed(t, limit, names, h, [first] + rest) && d < |names|
    requires |rest| == c.recovery && AllProbes(rest, d, true)
    ensures Replay(c, start, LogCycles(h, names, [first] + rest)[names[d]]).status.Healthy?
    ensures Elapsed(t, [first] + rest) <= Turns(c.recovery + 1, TurnLimit(t, limit, |names|))
  {
    hide Turns, TurnLimit;
    assert first in [first] + rest;
    var before := h[names[d]] + [Observation(first.probes[d].ok, false)];
    LogCyclesAfter(h, names, first, rest, d);
    ReplayAppend(c, start, before, Own(rest, d));
    SuccessesRecover(c, Replay(c, start, before), Own(rest, d));
    ElapsedBound(t, limit, names, h, [first] + rest);
  }

  lemma LogCyclesAfter(h: History, names: seq<string>, first: Cycle, rest: seq<Cycle>, d: nat)
    requires (forall n | n in names :: n in h) && Distinct(names) && d < |names|
    requires forall c | c in [first] + rest :: |c.probes| == |names|
    ensures d < |first.probes| && forall c | c in rest :: d < |c.probes|
    ensures LogCycles(h, names, [first] + rest)[names[d]]
         == h[names[d]] + [Observation(first.probes[d].ok, false)] + Own(rest, d)
  {
    hide LogCycles;
    assert first in [first] + rest;
    LogCyclesOwn(h, names, [first] + rest, d);
    forall c | c in rest ensures c in [first] + rest {
    }
    assert Own([first] + rest, d) == [Observation(first.probes[d].ok, false)] + Own(rest, d);
  }

  // ----------------------------------------------------- the published bounds

  /** So many probes of one duration and outcome. */
  function Alike(limit: real, deps: nat, ok: bool): seq<Probe> {
    seq(deps, _ => Probe(limit, ok))
  }

  lemma {:induction false} AlikeTime(limit: real, deps: nat, ok: bool)
    ensures ProbeTime(Alike(limit, deps, ok)) == deps as real * limit
  {
    if deps > 0 {
      AlikeTime(limit, deps - 1, ok);
      assert Alike(limit, deps, ok)[..deps - 1] == Alike(limit, deps - 1, ok);
      assert deps as real * limit == (deps - 1) as real * limit + limit;
    }
  }

  lemma {:induction false} SteadyElapsed(t: Timing, cycle: Cycle, n: nat)
    ensures Elapsed(t, seq(n, _ => cycle)) == Turns(n, SleepTime(t, cycle.random) + ProbeTime(cycle.probes))
  {
    hide SleepTime, ProbeTime;
    var turn := SleepTime(t, cycle.random) + ProbeTime(cycle.probes);
    if n > 0 {
      SteadyElapsed(t, cycle, n - 1);
      assert seq(n, _ => cycle)[..n - 1] == seq(n - 1, _ => cycle);
      assert n as real * turn == (n - 1) as real * turn + turn;
    }
  }

  lemma SignOfFactor(x: real, y: real)
    requires y > 0.0
    ensures x * y > 0.0 <==> x > 0.0
  {
    if x <= 0.0 {
      assert x * y <= 0.0;
    }
  }

  lemma ShareBelowOne(part: real, whole: real)
    requires 0.0 < part < whole
    ensures 0.0 < part / whole < 1.0 && (part / whole) * whole == part
  {
    var share := part / whole;
    assert share * whole == part;
    assert (1.0 - share) * whole == whole - part;
    SignOfFactor(share, whole);
    SignOfFactor(1.0 - share, whole);
  }

  /** A draw with which the sleep comes as close to the longest one as required. */
  lemma DrawCloseToLongest(t: Timing, less: real) returns (random: real)
    requires 0.0 <= t.interval && less < LongestSleep(t)
    ensures 0.0 <= random < 1.0 && less < SleepTime(t, random)
  {
    var gap := LongestSleep(t) - less;
    if !t.jitter || t.interval <= gap {
      random := 0.0;
    } else {
      ShareBelowOne(gap, t.interval);
      var share := gap / t.interval;
      random := 1.0 - share;
      assert SleepTime(t, random) == 1.25 * t.interval - 0.5 * (share * t.interval);
    }
  }

  /** A run of so many turns that takes longer than the bound, whenever a turn can take longer than its share of it. */
  lemma LongRun(
      t: Timing, limit: real, names: seq<string>, h: History, n: nat, ok: bool, turn: real)
    returns (cycles: seq<Cycle>)
    requires 0.0 <= t.interval && 0.0 <= limit && names != [] && Distinct(names) && forall x | x in names :: x in h
    requires n > 0 && turn < TurnLimit(t, limit, |names|)
    ensures |cycles| == n && Undisturbed(t, limit, names, h, cycles)
    ensures forall d | 0 <= d < |names| :: AllProbes(cycles, d, ok)
    ensures Elapsed(t, cycles) > Turns(n, turn)
  {
    var deps := |names|;
    assert TurnLimit(t, limit, deps) == LongestSleep(t) + deps as real * limit;
    var random := DrawCloseToLongest(t, turn - deps as real * limit);
    var cycle := Cycle(random, Alike(limit, deps, ok));
    cycles := seq(n, _ => cycle);
    AlikeTime(limit, deps, ok);
    SteadyLonger(t, cycle, n, turn);
    hide Elapsed, SleepTime, ProbeTime, Turns;
  }

  lemma SteadyLonger(t: Timing, cycle: Cycle, n: nat, turn: real)
    requires n > 0 && SleepTime(t, cycle.random) + ProbeTime(cycle.probes) > turn
    ensures Elapsed(t, seq(n, _ => cycle)) > Turns(n, turn)
  {
    hide Elapsed, SleepTime, ProbeTime;
    SteadyElapsed(t, cycle, n);
    TurnsMonotone(n, turn, SleepTime(t, cycle.random) + ProbeTime(cycle.probes));
  }

  /** The bound for `n` turns holds of all runs exactly when no turn can take longer than its share of it. */
  lemma TurnsBoundExact(t: Timing, limit: real, names: seq<string>, h: History, n: nat, ok: bool, turn: real)
    requires 0.0 <= t.interval && 0.0 <= limit && names != [] && Distinct(names) && forall x | x in names :: x in h
    requires n > 0
    ensures (forall cycles | |cycles| == n && Undisturbed(t, limit, names, h, cycles) && AllProbes(cycles, 0, ok) ::
               Elapsed(t, cycles) <= Turns(n, turn))
       <==> TurnLimit(t, limit, |names|) <= turn
  {
    hide Elapsed, Undisturbed;
    if TurnLimit(t, limit, |names|) <= turn {
      TurnsMonotone(n, TurnLimit(t, limit, |names|), turn);
      forall cycles | |cycles| == n && Undisturbed(t, limit, names, h, cycles)
        ensures Elapsed(t, cycles) <= Turns(n, turn)
      {
        ElapsedBound(t, limit, names, h, cycles);
      }
    } else {
      var cycles := LongRun(t, limit, names, h, n, ok, turn);
      assert AllProbes(cycles, 0, ok);
    }
  }

  /**
    The published detection bound holds of every run, whatever the draws and probe times, if and only
    if the longest possible turn takes no longer than interval plus timeout.
   */
  lemma DetectionBoundExact(c: Config, t: Timing, limit: real, names: seq<string>, h: History)
    requires 0.0 <= t.interval && 0.0 <= limit && names != [] && Distinct(names) && forall x | x in names :: x in h
    ensures (forall cycles |
               |cycles| == c.fail && Undisturbed(t, limit, names, h, cycles) && AllProbes(cycles, 0, false) ::
               Elapsed(t, cycles) <= DetectionBound(t.interval, t.timeout, c.fail))
       <==> TurnLimit(t, limit, |names|) <= t.interval + t.timeout
  {
    hide Elapsed, Undisturbed, TurnLimit;
    TurnsBoundExact(t, limit, names, h, c.fail, false, t.interval + t.timeout);
  }

  /** Likewise the published recovery bound. */
  lemma RecoveryBoundExact(c: Config, t: Timing, limit: real, names: seq<string>, h: History)
    requires 0.0 <= t.interval && 0.0 <= limit && names != [] && Distinct(names) && forall x | x in names :: x in h
    ensures (forall cycles |
               |cycles| == c.recovery && Undisturbed(t, limit, names, h, cycles) && AllProbes(cycles, 0, true) ::
               Elapsed(t, cycles) <= RecoveryBound(t.interval, t.timeout, c.recovery))
       <==> TurnLimit(t, limit, |names|) <= t.interval + t.timeout
  {
    hide Elapsed, Undisturbed, TurnLimit;
    TurnsBoundExact(t, limit, names, h, c.recovery, true, t.interval + t.timeout);
  }

  /**
    The bound that does hold of the loop, and no smaller one: `n` turns take no longer than this in any
    run if and only if it allows for `n` of the longest sleeps and, for every dependency, `n` timeouts
    with a quarter of a second of slack.
   */
  lemma LongestRunExact(t: Timing, names: seq<string>, h: History, n: nat, ok: bool, bound: real)
    requires 0.0 <= t.interval && 0.0 <= t.timeout && names != [] && Distinct(names) && forall x | x in names :: x in h
    requires n > 0
    ensures (forall cycles |
               |cycles| == n && Undisturbed(t, ProbeLimit(t), names, h, cycles) && AllProbes(cycles, 0, ok) ::
               Elapsed(t, cycles) <= bound)
       <==> n as real * ((if t.jitter then 1.25 else 1.0) * t.interval + |names| as real * (t.timeout + 0.25)) <= bound
  {
    hide Elapsed, Undisturbed, AllProbes;
    var turn := bound / n as real;
    assert Turns(n, turn) == bound;
    TurnsBoundExact(t, ProbeLimit(t), names, h, n, ok, turn);
    ShareAtMost(n, TurnLimit(t, ProbeLimit(t), |names|), bound);
  }

  lemma ShareAtMost(n: nat, part: real, whole: real)
    requires n > 0
    ensures n as real * part <= whole <==> part <= whole / n as real
  {
    var share := whole / n as real;
    assert n as real * share == whole;
    if part <= share {
      ScaleMonotone(n as real, part, share);
    } else {
      ScaleMonotone(n as real, share, part);
    }
  }

  lemma {:induction false} ElapsedAtLeast(t: Timing, turn: real, cycles: seq<Cycle>)
    requires forall k | 0 <= k < |cycles| :: turn <= SleepTime(t, cycles[k].random) + ProbeTime(cycles[k].probes)
    ensures Turns(|cycles|, turn) <= Elapsed(t, cycles)
  {
    hide SleepTime, ProbeTime;
    if cycles != [] {
      var n := |cycles| - 1;
      ElapsedAtLeast(t, turn, cycles[..n]);
      assert (n + 1) as real * turn == n as real * turn + turn;
    }
  }

  lemma {:induction false} ProbeTimeNotNegative(probes: seq<Probe>)
    requires forall k | 0 <= k < |probes| :: 0.0 <= probes[k].duration
    ensures 0.0 <= ProbeTime(probes)
  {
    if probes != [] {
      ProbeTimeNotNegative(probes[..|probes| - 1]);
    }
  }

  lemma ShortestTurn(t: Timing, limit: real, deps: nat, cycle: Cycle)
    requires 0.0 <= t.interval && Possible(t, limit, deps, cycle)
    ensures (if t.jitter then 0.75 else 1.0) * t.interval <= SleepTime(t, cycle.random) + ProbeTime(cycle.probes)
  {
    ProbeTimeNotNegative(cycle.probes);
    ScaleMonotone(t.interval, 0.75, 0.75 + 0.5 * cycle.random);
  }

  lemma ShortestSlept(t: Timing, limit: real, names: seq<string>, h: History, cycles: seq<Cycle>)
    requires Undisturbed(t, limit, names, h, cycles)
    ensures Turns(|cycles|, (if t.jitter then 0.75 else 1.0) * t.interval) <= Elapsed(t, cycles)
  {
    hide Elapsed, SleepTime, Turns;
    var shortest := (if t.jitter then 0.75 else 1.0) * t.interval;
    forall k | 0 <= k < |cycles| ensures shortest <= SleepTime(t, cycles[k].random) + ProbeTime(cycles[k].probes) {
      ShortestTurn(t, limit, |names|, cycles[k]);
    }
    ElapsedAtLeast(t, shortest, cycles);
  }

  lemma FastestRun(t: Timing, limit: real, names: seq<string>, h: History, n: nat) returns (cycles: seq<Cycle>)
    requires 0.0 <= t.interval && 0.0 <= limit && Distinct(names) && forall x | x in names :: x in h
    ensures |cycles| == n && Undisturbed(t, limit, names, h, cycles)
    ensures Elapsed(t, cycles) == Turns(n, (if t.jitter then 0.75 else 1.0) * t.interval)
  {
    var cycle := Cycle(0.0, Alike(0.0, |names|, true));
    AlikeTime(0.0, |names|, true);
    assert SleepTime(t, 0.0) == (if t.jitter then 0.75 else 1.0) * t.interval;
    hide Elapsed, Turns, SleepTime, ProbeTime;
    SteadyElapsed(t, cycle, n);
    cycles := seq(n, _ => cycle);
  }

  /**
    Nor does the loop probe too often: `n` turns take at least so long in every run if and only if that is
    no more than `n` of the shortest sleeps, three quarters of the interval under jitter.
   */
  lemma ShortestRunExact(t: Timing, limit: real, names: seq<string>, h: History, n: nat, bound: real)
    requires 0.0 <= t.interval && 0.0 <= limit && Distinct(names) && forall x | x in names :: x in h
    ensures (forall cycles | |cycles| == n && Undisturbed(t, limit, names, h, cycles) :: bound <= Elapsed(t, cycles))
       <==> bound <= n as real * ((if t.jitter then 0.75 else 1.0) * t.interval)
  {
    var fastest := FastestRun(t, limit, names, h, n);
    hide Elapsed, Undisturbed;
    forall cycles: seq<Cycle> | |cycles| == n && Undisturbed(t, limit, names, h, cycles)
      ensures Turns(n, (if t.jitter then 0.75 else 1.0) * t.interval) <= Elapsed(t, cycles)
    {
      ShortestSlept(t, limit, names, h, cycles);
    }
  }

  /** While that is so, the published bounds also bound the time until the status has changed. */
  lemma PublishedBounds(
      c: Config, t: Timing, limit: real, names: seq<string>, h: History, cycles: seq<Cycle>, d: nat, start: Live)
    requires TurnLimit(t, limit, |names|) <= t.interval + t.timeout
    requires Undisturbed(t, limit, names, h, cycles) && d < |names|
    ensures |cycles| == c.fail && AllProbes(cycles, d, false) ==>
      && Replay(c, start, LogCycles(h, names, cycles)[names[d]]).status.Unhealthy?
      && Elapsed(t, cycles) <= DetectionBound(t.interval, t.timeout, c.fail)
    ensures |cycles| == c.recovery && AllProbes(cycles, d, true) ==>
      && Replay(c, start, LogCycles(h, names, cycles)[names[d]]).status.Healthy?
      && Elapsed(t, cycles) <= RecoveryBound(t.interval, t.timeout, c.recovery)
  {
    hide LogCycles, Elapsed, Replay, TurnLimit, AllProbes, Turns;
    if |cycles| == c.fail && AllProbes(cycles, d, false) {
      DetectionTime(c, t, limit, names, h, cycles, d, start);
      TurnsMonotone(c.fail, TurnLimit(t, limit, |names|), t.interval + t.timeout);
    }
    if |cycles| == c.recovery && AllProbes(cycles, d, true) {
      RecoveryTime(c, t, limit, names, h, cycles, d, start);
      TurnsMonotone(c.recovery, TurnLimit(t, limit, |names|), t.interval + t.timeout);
    }
  }

  lemma SlackExceedsShare(t: Timing, deps: nat)
    requires 0.0 <= t.interval && 0.0 <= t.timeout && deps > 0
    ensures TurnLimit(t, ProbeLimit(t), deps) > t.interval + t.timeout
  {
    assert deps as real * ProbeLimit(t) >= ProbeLimit(t);
  }

  /** With the loop's own slack on every probe neither published bound holds, with or without jitter. */
  lemma PublishedBoundsNeverHold(c: Config, t: Timing, names: seq<string>, h: History)
    requires 0.0 <= t.interval && 0.0 <= t.timeout && names != [] && Distinct(names) && forall x | x in names :: x in h
    ensures !forall cycles |
        |cycles| == c.fail && Undisturbed(t, ProbeLimit(t), names, h, cycles) && AllProbes(cycles, 0, false) ::
        Elapsed(t, cycles) <= DetectionBound(t.interval, t.timeout, c.fail)
    ensures !forall cycles |
        |cycles| == c.recovery && Undisturbed(t, ProbeLimit(t), names, h, cycles) && AllProbes(cycles, 0, true) ::
        Elapsed(t, cycles) <= RecoveryBound(t.interval, t.timeout, c.recovery)
  {
    SlackExceedsShare(t, |names|);
    DetectionBoundExact(c, t, ProbeLimit(t), names, h);
    RecoveryBoundExact(c, t, ProbeLimit(t), names, h);
    hide *;
  }

  lemma {:induction false} FewFailuresServe(c: Config, start: Live, g: seq<Observation>)
    requires start.status.Healthy? && start.failures == 0 && |g| < c.fail
    requires forall k | 0 <= k < |g| :: g[k] == Observation(false, false)
    ensures var live := Replay(c, start, g); !Refuses(live.status) && live.failures == |g|
  {
    if g != [] {
      FewFailuresServe(c, start, g[..|g| - 1]);
    }
  }

  /**
    Whenever a turn can take longer than its share of the published bound, for every threshold: a run in
    which the bound has passed before the probe that makes a healthy dependency UNHEALTHY.
   */
  lemma WorkAdmittedPastBound(c: Config, t: Timing, limit: real, names: seq<string>, h: History, start: Live)
    returns (cycles: seq<Cycle>)
    requires 0.0 <= t.interval && 0.0 <= limit && names != [] && Distinct(names) && forall x | x in names :: x in h
    requires TurnLimit(t, limit, |names|) > t.interval + t.timeout
    requires start.status.Healthy? && start.failures == 0
    ensures Undisturbed(t, limit, names, h, cycles)
    ensures |cycles| == c.fail && AllProbes(cycles, 0, false)
    ensures Elapsed(t, cycles) > DetectionBound(t.interval, t.timeout, c.fail)
    ensures !Refuses(Replay(c, start, Own(cycles[..c.fail - 1], 0)).status)
  {
    hide Elapsed, TurnLimit, Undisturbed, Replay, AllProbes;
    cycles := LongRun(t, limit, names, h, c.fail, false, t.interval + t.timeout);
    StillServing(c, start, cycles);
  }

  lemma StillServing(c: Config, start: Live, cycles: seq<Cycle>)
    requires |cycles| == c.fail && AllProbes(cycles, 0, false)
    requires start.status.Healthy? && start.failures == 0
    ensures forall x | x in cycles[..c.fail - 1] :: 0 < |x.probes|
    ensures !Refuses(Replay(c, start, Own(cycles[..c.fail - 1], 0)).status)
  {
    hide Replay;
    forall x | x in cycles[..c.fail - 1] ensures x in cycles {
    }
    FewFailuresServe(c, start, Own(cycles[..c.fail - 1], 0));
  }
}
