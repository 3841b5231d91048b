/**
  One dependency as a function of what was observed of it: the transition function of the health
  registry, and what the status after a whole history of observations says about that history.
 */
module HealthHistory {

  datatype Status = Healthy | Suspect | Unhealthy | Recovering

  datatype DependencyClass = MandatoryServing | OptionalFailSoft | BackgroundOnly

  /** A probe, or an operation on the request path (`serving`), succeeded or failed. */
  datatype Observation = Observation(success: bool, serving: bool)

  datatype Thresholds = Thresholds(fail: nat, recovery: nat)

  type Config = c: Thresholds | 1 <= c.fail && 1 <= c.recovery witness Thresholds(2, 2)

  /** The part of a dependency's live state that transitions depend on. */
  datatype Live = Live(status: Status, failures: nat, successes: nat, everFailed: bool)

  function Initial(classification: DependencyClass): Live {
    Live(if classification.MandatoryServing? then Unhealthy else Healthy, 0, 0, false)
  }

  function AfterSuccess(c: Config, live: Live): Live {
    var cleared := live.(failures := 0);
    if live.status.Healthy? || live.status.Suspect? then cleared.(status := Healthy, successes := 0)
    else if live.status.Unhealthy? && !live.everFailed then cleared.(status := Healthy, successes := 0)
    else if live.successes + 1 >= c.recovery then cleared.(status := Healthy, successes := 0)
    else cleared.(status := Recovering, successes := live.successes + 1)
  }

  function AfterFailure(c: Config, live: Live, serving: bool): Live {
    var counted := live.(failures := live.failures + 1, successes := 0, everFailed := true);
    if serving || counted.failures >= c.fail then counted.(status := Unhealthy)
    else
      match live.status
      case Healthy => counted.(status := Suspect)
      case Recovering => counted.(status := Unhealthy)
      case _ => counted
  }

  function After(c: Config, live: Live, o: Observation): Live {
    if o.success then AfterSuccess(c, live) else AfterFailure(c, live, o.serving)
  }

  function Replay(c: Config, start: Live, history: seq<Observation>): Live {
    if history == [] then start
    else After(c, Replay(c, start, history[..|history| - 1]), history[|history| - 1])
  }

  lemma ReplayPush(c: Config, start: Live, history: seq<Observation>, o: Observation)
    ensures Replay(c, start, history + [o]) == After(c, Replay(c, start, history), o)
  {
    assert (history + [o])[..|history|] == history;
  }

  /** SUSPECT still admits work; UNHEALTHY and RECOVERING do not. */
  predicate Refuses(status: Status) {
    status.Unhealthy? || status.Recovering?
  }

  // ------------------------------------------------------- reading a history

  /** The failure at `i` takes the dependency out of service. */
  ghost predicate Trip(c: Config, h: seq<Observation>, i: nat)
    requires i < |h|
  {
    && !h[i].success
    && (h[i].serving || i == 0
        || (c.fail <= i + 1 && forall k | i + 1 - c.fail <= k <= i :: !h[k].success))
  }

  ghost predicate SuccessesFrom(h: seq<Observation>, from: nat, n: nat) {
    from + n <= |h| && forall k | from <= k < from + n :: h[k].success
  }

  /** Enough successes in a row came after `i`. */
  ghost predicate Recovered(c: Config, h: seq<Observation>, i: nat) {
    exists from | i < from :: SuccessesFrom(h, from, c.recovery)
  }

  /** Nothing was seen yet, or some trip was never followed by a recovery. */
  ghost predicate Down(c: Config, h: seq<Observation>) {
    h == [] || exists i | 0 <= i < |h| :: Trip(c, h, i) && !Recovered(c, h, i)
  }

  /** What the counters count, status by status. */
  ghost predicate Counted(c: Config, h: seq<Observation>, live: Live) {
    && live.failures <= |h| && live.successes <= |h|
    && (forall k | |h| - live.failures <= k < |h| :: !h[k].success)
    && (live.failures < |h| ==> h[|h| - 1 - live.failures].success)
    && (live.everFailed <==> exists k | 0 <= k < |h| :: !h[k].success)
    && SuccessesFrom(h, |h| - live.successes, live.successes)
    && match live.status
       case Healthy => live.failures == 0 == live.successes && h != []
       case Suspect => 0 < live.failures < c.fail && live.successes == 0
       case Unhealthy => live.successes == 0 && (h == [] || !h[|h| - 1].success)
       case Recovering =>
         && 0 < live.successes < c.recovery && live.failures == 0
         && live.successes < |h| && !h[|h| - 1 - live.successes].success
  }

  lemma {:induction false} CountersCount(c: Config, h: seq<Observation>)
    ensures Counted(c, h, Replay(c, Initial(MandatoryServing), h))
  {
    if h != [] {
      var n := |h| - 1;
      CountersCount(c, h[..n]);
      CountersStep(c, h[..n], h[n], Replay(c, Initial(MandatoryServing), h[..n]));
      assert h == h[..n] + [h[n]];
    }
  }

  lemma CountersStep(c: Config, h: seq<Observation>, o: Observation, live: Live)
    requires Counted(c, h, live)
    ensures Counted(c, h + [o], After(c, live, o))
  {
    var h', live' := h + [o], After(c, live, o);
    assert forall k | 0 <= k < |h| :: h'[k] == h[k];
    assert h'[|h|] == o;
  }

  // ------------------------------------------------- status and history agree

  lemma TripStays(c: Config, h: seq<Observation>, o: Observation, i: nat)
    requires i < |h|
    ensures Trip(c, h + [o], i) <==> Trip(c, h, i)
  {
    assert forall k | 0 <= k < |h| :: (h + [o])[k] == h[k];
  }

  /** One more observation completes a recovery only if it ends a run of successes. */
  lemma RecoveredStep(c: Config, h: seq<Observation>, o: Observation, i: nat)
    requires i <= |h|
    ensures Recovered(c, h + [o], i)
       <==> Recovered(c, h, i)
            || (i + c.recovery <= |h| && SuccessesFrom(h + [o], |h| + 1 - c.recovery, c.recovery))
  {
    var h' := h + [o];
    assert forall k | 0 <= k < |h| :: h'[k] == h[k];
    if Recovered(c, h', i) {
      var from: nat :| i < from && SuccessesFrom(h', from, c.recovery);
      if from + c.recovery <= |h| {
        assert SuccessesFrom(h, from, c.recovery);
      }
    }
    if Recovered(c, h, i) {
      var from: nat :| i < from && SuccessesFrom(h, from, c.recovery);
      assert SuccessesFrom(h', from, c.recovery);
    }
  }

  lemma {:induction false} StatusReadsHistory(c: Config, h: seq<Observation>)
    ensures Refuses(Replay(c, Initial(MandatoryServing), h).status) <==> Down(c, h)
  {
    if h != [] {
      var n := |h| - 1;
      var live := Replay(c, Initial(MandatoryServing), h[..n]);
      assert h == h[..n] + [h[n]];
      CountersCount(c, h[..n]);
      StatusReadsHistory(c, h[..n]);
      if h[n].success {
        SuccessStep(c, h[..n], h[n], live);
      } else {
        FailureStep(c, h[..n], h[n], live);
      }
    }
  }

  lemma FailureStep(c: Config, h: seq<Observation>, o: Observation, live: Live)
    requires !o.success && Counted(c, h, live) && (Refuses(live.status) <==> Down(c, h))
    ensures Refuses(After(c, live, o).status) <==> Down(c, h + [o])
  {
    var h' := h + [o];
    forall i: nat | i < |h| ensures Trip(c, h', i) <==> Trip(c, h, i) {
      TripStays(c, h, o, i);
    }
    forall i: nat | i <= |h| ensures Recovered(c, h', i) <==> Recovered(c, h, i) {
      RecoveredStep(c, h, o, i);
      assert h'[|h|] == o;
    }
    assert !Recovered(c, h, |h|);
    assert forall k | 0 <= k < |h| :: h'[k] == h[k];
    assert Trip(c, h', |h|) <==> o.serving || h == [] || live.failures + 1 >= c.fail by {
      if live.failures + 1 < c.fail <= |h| + 1 {
        assert h'[|h| - 1 - live.failures].success;
      }
    }
  }

  lemma SuccessStep(c: Config, h: seq<Observation>, o: Observation, live: Live)
    requires o.success && Counted(c, h, live) && (Refuses(live.status) <==> Down(c, h))
    ensures Refuses(After(c, live, o).status) <==> Down(c, h + [o])
  {
    var h' := h + [o];
    forall i: nat | i < |h| ensures Trip(c, h', i) <==> Trip(c, h, i) {
      TripStays(c, h, o, i);
    }
    assert !Trip(c, h', |h|);
    forall i: nat | i < |h|
      ensures Recovered(c, h', i)
         <==> (Recovered(c, h, i)
               || (i + c.recovery <= |h| && SuccessesFrom(h', |h| + 1 - c.recovery, c.recovery)))
    {
      RecoveredStep(c, h, o, i);
    }
    if Refuses(live.status) && h != [] {
      var last := |h| - 1 - live.successes;
      assert !h'[last].success;
      assert SuccessesFrom(h', |h| - live.successes, live.successes + 1);
    }
  }

  // ---------------------------------------------------------------- flapping

  function Ready(c: Config, h: seq<Observation>): bool {
    !Refuses(Replay(c, Initial(MandatoryServing), h).status)
  }

  /** How often a mandatory dependency went from not ready to ready. */
  function Recoveries(c: Config, h: seq<Observation>): nat {
    if h == [] then 0
    else
      var before := h[..|h| - 1];
      Recoveries(c, before) + if !Ready(c, before) && Ready(c, h) then 1 else 0
  }

  /** The first recovery takes one observation, each further one a failure and a full run of successes. */
  function FlapCost(c: Config, recoveries: nat): nat {
    if recoveries == 0 then 0 else 1 + (recoveries - 1) * (c.recovery + 1)
  }

  lemma FlapCostGrows(c: Config, k: nat)
    ensures FlapCost(c, k + 1) == if k == 0 then 1 else FlapCost(c, k) + c.recovery + 1
  {
    if k > 0 {
      assert k * (c.recovery + 1) == (k - 1) * (c.recovery + 1) + (c.recovery + 1);
    }
  }

  lemma {:induction false} FlapInvariant(c: Config, h: seq<Observation>)
    ensures var live := Replay(c, Initial(MandatoryServing), h);
      var k := Recoveries(c, h);
      && FlapCost(c, k) <= |h|
      && (k > 0 && Refuses(live.status) ==> FlapCost(c, k) + 1 + live.successes <= |h|)
  {
    if h != [] {
      var before := h[..|h| - 1];
      FlapInvariant(c, before);
      CountersCount(c, before);
      FlapCostGrows(c, Recoveries(c, before));
    }
  }

  /** A history with `k` recoveries is at least as long as their cost. */
  lemma FlapBound(c: Config, h: seq<Observation>)
    ensures Recoveries(c, h) >= 1 ==> |h| >= 1 + (Recoveries(c, h) - 1) * (c.recovery + 1)
  {
    FlapInvariant(c, h);
  }

  const GOOD := Observation(true, false)
  const LOST := Observation(false, true)

  /** The fastest flapping: recover at once, then lose a request and recover again, over and over. */
  function Flapping(c: Config, k: nat): seq<Observation>
    requires k >= 1
  {
    if k == 1 then [GOOD] else Flapping(c, k - 1) + [LOST] + seq(c.recovery, _ => GOOD)
  }

  lemma {:induction false} FlappingLength(c: Config, k: nat)
    requires k >= 1
    ensures |Flapping(c, k)| == FlapCost(c, k)
  {
    if k > 1 {
      FlappingLength(c, k - 1);
      FlapCostGrows(c, k - 1);
      hide FlapCost;
    }
  }

  /** The bound is attained for every number of recoveries. */
  lemma {:induction false} FlapBoundTight(c: Config, k: nat)
    requires k >= 1
    ensures Recoveries(c, Flapping(c, k)) == k && |Flapping(c, k)| == 1 + (k - 1) * (c.recovery + 1)
    ensures Ready(c, Flapping(c, k))
  {
    FlappingLength(c, k);
    if k == 1 {
      assert [GOOD][..0] == [];
      assert Replay(c, Initial(MandatoryServing), []) == Initial(MandatoryServing);
    } else {
      hide Replay, Recoveries;
      var h := Flapping(c, k - 1);
      FlapBoundTight(c, k - 1);
      LoseOnce(c, h);
      RecoverInFull(c, h + [LOST], c.recovery);
    }
  }

  /** A serving failure of a ready dependency costs one observation and recovers nothing. */
  lemma LoseOnce(c: Config, h: seq<Observation>)
    requires Ready(c, h)
    ensures var live := Replay(c, Initial(MandatoryServing), h + [LOST]);
      live.status.Unhealthy? && live.everFailed && live.successes == 0
    ensures Recoveries(c, h + [LOST]) == Recoveries(c, h) && !Ready(c, h + [LOST])
  {
    assert (h + [LOST])[..|h|] == h;
  }

  lemma {:induction false} RecoverInFull(c: Config, lost: seq<Observation>, n: nat)
    requires n <= c.recovery
    requires var live := Replay(c, Initial(MandatoryServing), lost);
      live.status.Unhealthy? && live.everFailed && live.successes == 0
    ensures var h := lost + seq(n, _ => GOOD);
      var live := Replay(c, Initial(MandatoryServing), h);
      if n < c.recovery
      then Refuses(live.status) && live.everFailed && live.successes == n && Recoveries(c, h) == Recoveries(c, lost)
      else live.status.Healthy? && Recoveries(c, h) == Recoveries(c, lost) + 1
  {
    var h := lost + seq(n, _ => GOOD);
    if n == 0 {
      assert h == lost;
    } else {
      RecoverInFull(c, lost, n - 1);
      assert h[..|h| - 1] == lost + seq(n - 1, _ => GOOD);
      assert h[|h| - 1] == GOOD;
    }
  }
}
