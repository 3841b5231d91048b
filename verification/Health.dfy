/** The dependency registry: mutable live states, and one cached readiness bit over all of them. */
module Health {
  import opened Wrappers
  import opened HealthHistory

  datatype ValueError = ValueError(message: string)

  /** Reasons are a closed set; anything else is reported as a failed probe. */
  function BoundedReason(reason: string): (r: string)
    ensures r in {"probe_failed", "probe_timeout", "serving_failure", "ping_failed"}
    ensures r != reason ==>
      r == "probe_failed" && reason !in {"probe_failed", "probe_timeout", "serving_failure", "ping_failed"}
  {
    if reason in {"probe_failed", "probe_timeout", "serving_failure", "ping_failed"} then reason else "probe_failed"
  }

  class LiveState {
    const name: string
    const classification: DependencyClass
    var status: Status
    var consecutiveFailures: nat
    var consecutiveSuccesses: nat
    var lastSuccessAt: Option<real>
    var lastFailureAt: Option<real>
    var reason: Option<string>

    constructor (name: string, classification: DependencyClass)
      ensures this.name == name && this.classification == classification
      ensures View() == Initial(classification)
      ensures lastSuccessAt.None? && reason.None?
    {
      this.name, this.classification := name, classification;
      status := if classification.MandatoryServing? then Unhealthy else Healthy;
      consecutiveFailures, consecutiveSuccesses := 0, 0;
      lastSuccessAt, lastFailureAt, reason := None, None, None;
    }

    function View(): Live
      reads this
    {
      Live(status, consecutiveFailures, consecutiveSuccesses, lastFailureAt.Some?)
    }

    method OnSuccess(c: Config, now: real)
      modifies this
      ensures View() == AfterSuccess(c, old(View()))
      ensures lastSuccessAt == Some(now) && lastFailureAt == old(lastFailureAt) && reason.None?
    {
      lastSuccessAt := Some(now);
      consecutiveFailures := 0;
      reason := None;
      if status.Healthy? {
        consecutiveSuccesses := 0;
        return;
      }
      if status.Suspect? {
        status := Healthy;
        consecutiveSuccesses := 0;
        return;
      }
      if status.Unhealthy? && lastFailureAt.None? {
        status := Healthy;
        consecutiveSuccesses := 0;
        return;
      }
      consecutiveSuccesses := consecutiveSuccesses + 1;
      if consecutiveSuccesses >= c.recovery {
        status := Healthy;
        consecutiveSuccesses := 0;
      } else {
        status := Recovering;
      }
    }

    method OnFailure(c: Config, now: real, serving: bool, why: string)
      modifies this
      ensures View() == AfterFailure(c, old(View()), serving)
      ensures lastFailureAt == Some(now) && lastSuccessAt == old(lastSuccessAt)
      ensures reason == Some(BoundedReason(why))
    {
      lastFailureAt := Some(now);
      consecutiveSuccesses := 0;
      reason := Some(BoundedReason(why));
      consecutiveFailures := consecutiveFailures + 1;
      if serving || consecutiveFailures >= c.fail {
        status := Unhealthy;
      } else if status.Healthy? {
        status := Suspect;
      } else if status.Recovering? {
        status := Unhealthy;
      }
    }
  }

  class DependencyHealth {
    const thresholds: Config
    /** The registered names in the order of registration, and the state of each. */
    const names: seq<string>
    const states: map<string, LiveState>
    var servingReady: bool
    /** Everything ever observed, per dependency. */
    ghost var history: map<string, seq<Observation>>

    static ghost predicate Table(names: seq<string>, states: map<string, LiveState>) {
      && (forall i | 0 <= i < |names| :: names[i] in states)
      && (forall n | n in states :: n in names && states[n].name == n)
      && (forall i, j | 0 <= i < j < |names| :: names[i] != names[j])
    }

    ghost predicate Registered() {
      Table(names, states)
    }

    predicate Mandatory(n: string)
      requires n in states
    {
      states[n].classification.MandatoryServing?
    }

    /** Every live state is its history replayed. */
    ghost predicate Tracked()
      reads this, states.Values
    {
      && Registered()
      && history.Keys == states.Keys
      && forall n | n in states ::
           states[n].View() == Replay(thresholds, Initial(states[n].classification), history[n])
    }

    ghost predicate Valid()
      reads this, states.Values
    {
      && Tracked()
      && (servingReady <==> forall n | n in states && Mandatory(n) :: !Refuses(states[n].status))
    }

    static ghost predicate Untouched(states: map<string, LiveState>)
      reads states.Values
    {
      forall n | n in states :: states[n].View() == Initial(states[n].classification)
    }

    /** Takes over the registered dependencies before anything was observed. */
    constructor (names: seq<string>, states: map<string, LiveState>, thresholds: Config)
      requires Table(names, states) && Untouched(states)
      ensures Valid() && this.thresholds == thresholds && this.names == names && this.states == states
      ensures history == map n | n in states :: []
    {
      this.names, this.states, this.thresholds := names, states, thresholds;
      history := map n | n in states :: [];
      new;
      hide Table, Untouched;
      NothingObserved();
      hide Tracked;
      servingReady := ComputeServingReady();
    }

    lemma NothingObserved()
      requires Registered() && Untouched(states)
      requires history.Keys == states.Keys && forall n | n in states :: history[n] == []
      ensures Tracked()
    {
    }

    static function If(wired: bool, name: string): seq<string> {
      if wired then [name] else []
    }

    static method Wire(postgres: bool, redis: bool, telemetry: bool)
      returns (names: seq<string>, states: map<string, LiveState>)
      ensures Table(names, states) && Untouched(states) && forall n | n in states :: fresh(states[n])
      ensures names == If(postgres, "postgres") + If(redis, "redis") + If(telemetry, "telemetry")
      ensures forall n | n in states :: states[n].classification.MandatoryServing? <==> n != "telemetry"
    {
      hide If, Table, Untouched;
      names, states := WireStores(postgres, redis);
      names, states := Register(telemetry, names, states, "telemetry", OptionalFailSoft);
    }

    static method WireStores(postgres: bool, redis: bool) returns (names: seq<string>, states: map<string, LiveState>)
      ensures Table(names, states) && Untouched(states) && forall n | n in states :: fresh(states[n])
      ensures names == If(postgres, "postgres") + If(redis, "redis")
      ensures forall n | n in states :: n in {"postgres", "redis"} && states[n].classification.MandatoryServing?
    {
      assert Table([], map[]) && Untouched(map[]);
      hide If, Table, Untouched;
      var first, wired := Register(postgres, [], map[], "postgres", MandatoryServing);
      assert first == If(postgres, "postgres") && wired.Keys <= {"postgres"};
      assert forall n | n in wired :: fresh(wired[n]) && wired[n].classification.MandatoryServing?;
      names, states := Register(redis, first, wired, "redis", MandatoryServing);
    }

    static method Register(
        wired: bool, names: seq<string>, states: map<string, LiveState>, name: string, class_: DependencyClass)
      returns (names': seq<string>, states': map<string, LiveState>)
      requires Table(names, states) && Untouched(states) && name !in states
      ensures Table(names', states') && Untouched(states')
      ensures names' == names + If(wired, name)
      ensures states'.Keys == states.Keys + if wired then {name} else {}
      ensures forall n | n in states' && n !in states :: fresh(states'[n]) && states'[n].classification == class_
      ensures forall n | n in states :: states'[n] == states[n]
    {
      names', states' := names, states;
      if wired {
        var live := new LiveState(name, class_);
        names', states' := names + [name], states[name := live];
      }
    }

    /** Registers what this process is wired to. Mandatory ones start unhealthy, so it starts not ready. */
    static method Create(postgres: bool, redis: bool, telemetry: bool, fail: int, recovery: int)
      returns (r: Result<DependencyHealth, ValueError>)
      ensures r.Failure? <==> fail < 1 || recovery < 1
      ensures r.Success? ==>
        && fresh(r.value) && (forall n | n in r.value.states :: fresh(r.value.states[n])) && r.value.Valid()
        && r.value.thresholds == Thresholds(fail, recovery)
        && r.value.names == If(postgres, "postgres") + If(redis, "redis") + If(telemetry, "telemetry")
        && forall n | n in r.value.states :: r.value.history[n] == [] && (r.value.Mandatory(n) <==> n != "telemetry")
    {
      hide If, Table, Untouched, DependencyHealth.Tracked;
      if fail < 1 {
        return Failure(ValueError("fail_threshold must be >= 1"));
      }
      if recovery < 1 {
        return Failure(ValueError("recovery_threshold must be >= 1"));
      }
      var names, states := Wire(postgres, redis, telemetry);
      var health := new DependencyHealth(names, states, Thresholds(fail, recovery));
      return Success(health);
    }

    method ComputeServingReady() returns (ready: bool)
      requires Registered()
      ensures ready <==> forall n | n in states && Mandatory(n) :: !Refuses(states[n].status)
    {
      for i := 0 to |names|
        invariant forall k | 0 <= k < i :: Mandatory(names[k]) ==> !Refuses(states[names[k]].status)
      {
        if Mandatory(names[i]) && Refuses(states[names[i]].status) {
          return false;
        }
      }
      return true;
    }

    /** One observation under the lock. An unregistered name is ignored. */
    method Observe(name: string, o: Observation, why: string, now: real)
      requires Valid()
      modifies this, states.Values
      ensures Valid()
      ensures history == if name in states then old(history)[name := old(history)[name] + [o]] else old(history)
      ensures forall n | n in states && n != name :: states[n].View() == old(states[n].View())
      ensures name !in states || !Mandatory(name) ==> servingReady == old(servingReady)
      ensures name in states ==> Noted(states[name], o, why, now)
      ensures name in states && o.success ==> states[name].lastFailureAt == old(states[name].lastFailureAt)
      ensures name in states && !o.success ==> states[name].lastSuccessAt == old(states[name].lastSuccessAt)
    {
      hide Replay, Initial, Noted;
      if name !in states {
        return;
      }
      Record(states[name], o, why, now);
      servingReady := ComputeServingReady();
    }

    /** The time of the observation is noted, and the reason of a failure. */
    static ghost predicate Noted(live: LiveState, o: Observation, why: string, now: real)
      reads live
    {
      if o.success then live.lastSuccessAt == Some(now) && live.reason.None?
      else live.lastFailureAt == Some(now) && live.reason == Some(BoundedReason(why))
    }

    method Record(live: LiveState, o: Observation, why: string, now: real)
      requires Tracked() && live.name in states && states[live.name] == live
      modifies `history, live
      ensures Tracked()
      ensures history == old(history)[live.name := old(history)[live.name] + [o]]
      ensures Noted(live, o, why, now)
      ensures if o.success then live.lastFailureAt == old(live.lastFailureAt)
              else live.lastSuccessAt == old(live.lastSuccessAt)
    {
      hide AfterSuccess, AfterFailure, Replay, Initial;
      ghost var before := history[live.name];
      ReplayPush(thresholds, Initial(live.classification), before, o);
      if o.success {
        live.OnSuccess(thresholds, now);
      } else {
        live.OnFailure(thresholds, now, o.serving, why);
      }
      history := history[live.name := before + [o]];
      forall n | n in states && n != live.name ensures states[n] != live {
        assert states[n].name == n;
      }
    }

    /**
      The cached bit is what the histories say: work is admitted if and only if no mandatory
      dependency is down. Optional ones do not matter.
     */
    method ServingReady() returns (ready: bool)
      requires Valid()
      ensures ready <==> forall n | n in states && Mandatory(n) :: !Down(thresholds, history[n])
    {
      forall n | n in states && Mandatory(n)
        ensures Refuses(states[n].status) <==> Down(thresholds, history[n])
      {
        StatusReadsHistory(thresholds, history[n]);
        assert states[n].View().status == states[n].status;
      }
      return servingReady;
    }

    /** The mandatory dependencies that are down, in order of registration, when admission is refused. */
    method Refusal() returns (down: Option<seq<string>>)
      requires Valid()
      ensures down.None? <==> servingReady
      ensures down.Some? ==> down.value != []
      ensures down.Some? ==>
        forall n :: n in down.value <==> (n in states && Mandatory(n) && Down(thresholds, history[n]))
    {
      if servingReady {
        return None;
      }
      var listed: seq<string> := [];
      for i := 0 to |names|
        invariant forall n :: n in listed <==> n in names[..i] && Mandatory(n) && Refuses(states[n].status)
      {
        if Mandatory(names[i]) && Refuses(states[names[i]].status) {
          listed := listed + [names[i]];
        }
      }
      assert names[..|names|] == names;
      forall n | n in states && Mandatory(n)
        ensures Refuses(states[n].status) <==> Down(thresholds, history[n])
      {
        StatusReadsHistory(thresholds, history[n]);
        assert states[n].View().status == states[n].status;
      }
      return Some(listed);
    }
  }
}
