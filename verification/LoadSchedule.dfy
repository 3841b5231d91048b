/** The open-loop load generator's schedule: which connection fires when, and that nothing is missed or doubled. */
module LoadSchedule {

  /** The ideal arrivals of one process: `rate` a second, from `start` on. */
  function Arrival(start: real, rate: real, n: nat): real
    requires rate > 0.0
  {
    start + n as real / rate
  }

  /** How many arrivals fall before the deadline. */
  function Arrivals(start: real, rate: real, deadline: real): nat
    requires rate > 0.0
  {
    var room := (deadline - start) * rate;
    if room <= 0.0 then 0 else -(-room).Floor
  }

  lemma ArrivalsAreBefore(start: real, rate: real, deadline: real, n: nat)
    requires rate > 0.0
    ensures Arrival(start, rate, n) < deadline <==> n < Arrivals(start, rate, deadline)
  {
    var offset := n as real / rate;
    assert offset * rate == n as real;
    var room := (deadline - start) * rate;
    if offset < deadline - start {
      assert (deadline - start - offset) * rate > 0.0;
    } else {
      assert (offset - (deadline - start)) * rate >= 0.0;
    }
    assert Arrival(start, rate, n) < deadline <==> n as real < room;
  }

  /** The index of the k-th request of the connection at `offset`. */
  function Slot(offset: nat, connections: nat, k: nat): nat {
    offset + k * connections
  }

  /** Exactly the arrivals at this offset that fall before the deadline, in order. */
  ghost predicate FiresAt(
      ticks: seq<real>, start: real, rate: real, deadline: real, connections: nat, offset: nat)
    requires rate > 0.0
  {
    && (forall k | 0 <= k < |ticks| ::
          ticks[k] == Arrival(start, rate, Slot(offset, connections, k)) && ticks[k] < deadline)
    && Arrival(start, rate, Slot(offset, connections, |ticks|)) >= deadline
  }

  lemma ShareOfInterval(rate: real, c: real)
    requires rate > 0.0 && c > 0.0
    ensures (c / rate) / c == 1.0 / rate
  {
    var interval := c / rate;
    assert (1.0 / rate) * rate == 1.0;
    assert interval * rate == c;
    assert ((1.0 / rate) * c) * rate == c;
    assert (interval - (1.0 / rate) * c) * rate == 0.0;
    assert interval == (1.0 / rate) * c;
  }

  lemma FirstTick(start: real, rate: real, connections: nat, offset: nat)
    requires rate > 0.0 && connections > 0
    ensures var interval := connections as real / rate;
      start + offset as real * (interval / connections as real) == Arrival(start, rate, Slot(offset, connections, 0))
  {
    ShareOfInterval(rate, connections as real);
    assert offset as real * (1.0 / rate) == offset as real / rate;
  }

  lemma NextTick(start: real, rate: real, connections: nat, offset: nat, k: nat)
    requires rate > 0.0
    ensures Arrival(start, rate, Slot(offset, connections, k)) + connections as real / rate
         == Arrival(start, rate, Slot(offset, connections, k + 1))
  {
    var n, c := Slot(offset, connections, k), connections;
    assert Slot(offset, connections, k + 1) == n + c by {
      assert (k + 1) * c == k * c + c;
    }
    assert (n as real / rate + c as real / rate) * rate == (n + c) as real;
  }

  /** One connection: fire, then advance by a whole interval, until the deadline. */
  method OpenLoop(start: real, rate: real, deadline: real, connections: nat, offset: nat) returns (ticks: seq<real>)
    requires rate > 0.0 && connections > 0
    ensures FiresAt(ticks, start, rate, deadline, connections, offset)
  {
    hide Arrival, Slot;
    var interval := connections as real / rate;
    var tick := start + offset as real * (interval / connections as real);
    FirstTick(start, rate, connections, offset);
    ticks := [];
    ghost var last := Arrivals(start, rate, deadline);
    while tick < deadline
      invariant tick == Arrival(start, rate, Slot(offset, connections, |ticks|))
      invariant forall k | 0 <= k < |ticks| ::
        ticks[k] == Arrival(start, rate, Slot(offset, connections, k)) && ticks[k] < deadline
      decreases last - Slot(offset, connections, |ticks|)
    {
      NextTick(start, rate, connections, offset, |ticks|);
      SlotGrows(offset, connections, |ticks|);
      ArrivalsAreBefore(start, rate, deadline, Slot(offset, connections, |ticks|));
      ticks := ticks + [tick];
      tick := tick + interval;
    }
  }

  lemma SlotGrows(offset: nat, connections: nat, k: nat)
    requires connections > 0
    ensures Slot(offset, connections, k) < Slot(offset, connections, k + 1)
  {
    assert (k + 1) * connections == k * connections + connections;
  }

  /** All connections of one process, each at its own offset. */
  method Drive(start: real, rate: real, deadline: real, connections: nat) returns (schedules: seq<seq<real>>)
    requires rate > 0.0 && connections > 0
    ensures |schedules| == connections
    ensures forall o | 0 <= o < connections :: FiresAt(schedules[o], start, rate, deadline, connections, o)
  {
    hide FiresAt;
    schedules := [];
    for offset := 0 to connections
      invariant |schedules| == offset
      invariant forall o | 0 <= o < offset :: FiresAt(schedules[o], start, rate, deadline, connections, o)
    {
      var ticks := OpenLoop(start, rate, deadline, connections, offset);
      schedules := schedules + [ticks];
    }
  }

  /** A connection fires its k-th request exactly when that arrival falls before the deadline. */
  lemma FiresExactly(ticks: seq<real>, start: real, rate: real, deadline: real, connections: nat, offset: nat, k: nat)
    requires rate > 0.0 && connections > 0
    requires FiresAt(ticks, start, rate, deadline, connections, offset)
    ensures k < |ticks| <==> Slot(offset, connections, k) < Arrivals(start, rate, deadline)
  {
    hide Arrival, Arrivals;
    ArrivalsAreBefore(start, rate, deadline, Slot(offset, connections, |ticks|));
    if k < |ticks| {
      ArrivalsAreBefore(start, rate, deadline, Slot(offset, connections, k));
    } else {
      assert k * connections >= |ticks| * connections by {
        assert (k - |ticks|) * connections >= 0;
      }
    }
  }

  lemma MultipleIsFar(d: int, c: nat)
    ensures d >= 1 ==> d * c >= c
    ensures d <= -1 ==> d * c + c <= 0
  {
    if d >= 1 {
      assert (d - 1) * c >= 0;
    }
    if d <= -1 {
      assert (-1 - d) * c >= 0;
    }
  }

  lemma SlotIsDivMod(connections: nat, n: nat, offset: nat, k: nat)
    requires offset < connections
    ensures n == Slot(offset, connections, k) <==> offset == n % connections && k == n / connections
  {
    assert n == (n / connections) * connections + n % connections;
    MultipleIsFar(n / connections - k, connections);
    assert (n / connections - k) * connections == (n / connections) * connections - k * connections;
  }

  /**
    The connections of a process interleave exactly: arrival n is fired if and only if it falls before
    the deadline, at its ideal time, as request n / connections of connection n % connections, and by
    no other request of any connection.
   */
  lemma ExactInterleaving(
      schedules: seq<seq<real>>, start: real, rate: real, deadline: real, connections: nat, n: nat)
    requires rate > 0.0 && connections > 0 && |schedules| == connections
    requires forall o | 0 <= o < connections :: FiresAt(schedules[o], start, rate, deadline, connections, o)
    ensures n / connections < |schedules[n % connections]| <==> Arrival(start, rate, n) < deadline
    ensures Arrival(start, rate, n) < deadline ==>
      schedules[n % connections][n / connections] == Arrival(start, rate, n)
    ensures forall o, k | 0 <= o < connections && 0 <= k < |schedules[o]| ::
      schedules[o][k] == Arrival(start, rate, n) ==> o == n % connections && k == n / connections
  {
    var owner, turn := n % connections, n / connections;
    SlotIsDivMod(connections, n, owner, turn);
    FiresExactly(schedules[owner], start, rate, deadline, connections, owner, turn);
    ArrivalsAreBefore(start, rate, deadline, n);
    forall o, k | 0 <= o < connections && 0 <= k < |schedules[o]| && schedules[o][k] == Arrival(start, rate, n)
      ensures o == owner && k == turn
    {
      assert FiresAt(schedules[o], start, rate, deadline, connections, o);
      ArrivalInjective(start, rate, n, Slot(o, connections, k));
      SlotIsDivMod(connections, n, o, k);
    }
  }

  lemma ArrivalInjective(start: real, rate: real, n: nat, m: nat)
    requires rate > 0.0 && Arrival(start, rate, n) == Arrival(start, rate, m)
    ensures n == m
  {
    assert (n as real / rate) * rate == n as real;
    assert (m as real / rate) * rate == m as real;
  }

  /** The requests of all connections together. */
  function Fired(schedules: seq<seq<real>>): nat {
    if schedules == [] then 0 else Fired(schedules[..|schedules| - 1]) + |schedules[|schedules| - 1]|
  }

  /** How many of the first `n` arrivals belong to the first `c` connections. */
  function Owned(connections: nat, c: nat, n: nat): nat
    requires connections > 0
  {
    if n == 0 then 0 else Owned(connections, c, n - 1) + if (n - 1) % connections < c then 1 else 0
  }

  lemma {:induction false} OwnedByNext(connections: nat, c: nat, n: nat, turns: nat)
    requires c < connections
    requires forall k: nat :: k < turns <==> Slot(c, connections, k) < n
    ensures Owned(connections, c + 1, n) == Owned(connections, c, n) + turns
    decreases n
  {
    if n == 0 {
      assert !(Slot(c, connections, 0) < 0);
    } else {
      var owner, turn := (n - 1) % connections, (n - 1) / connections;
      SlotIsDivMod(connections, n - 1, owner, turn);
      forall k: nat ensures Slot(c, connections, k) == n - 1 <==> c == owner && k == turn {
        SlotIsDivMod(connections, n - 1, c, k);
      }
      if owner == c {
        assert Slot(c, connections, turn) < n;
        SlotGrows(c, connections, turn);
        OwnedByNext(connections, c, n - 1, turns - 1);
      } else {
        OwnedByNext(connections, c, n - 1, turns);
      }
    }
  }

  lemma {:induction false} OwnedByNoneAndAll(connections: nat, n: nat)
    requires connections > 0
    ensures Owned(connections, 0, n) == 0 && Owned(connections, connections, n) == n
  {
    if n > 0 {
      OwnedByNoneAndAll(connections, n - 1);
    }
  }

  lemma {:induction false} FiredIsOwned(
      schedules: seq<seq<real>>, start: real, rate: real, deadline: real, connections: nat, c: nat)
    requires rate > 0.0 && connections > 0 && |schedules| == connections && c <= connections
    requires forall o | 0 <= o < connections :: FiresAt(schedules[o], start, rate, deadline, connections, o)
    ensures Fired(schedules[..c]) == Owned(connections, c, Arrivals(start, rate, deadline))
  {
    hide FiresAt, Arrivals, Owned;
    var n := Arrivals(start, rate, deadline);
    if c == 0 {
      OwnedByNoneAndAll(connections, n);
    } else {
      FiredIsOwned(schedules, start, rate, deadline, connections, c - 1);
      assert schedules[..c][..c - 1] == schedules[..c - 1];
      var o := c - 1;
      var ticks := schedules[o];
      forall k: nat ensures k < |ticks| <==> Slot(o, connections, k) < n {
        FiresExactly(ticks, start, rate, deadline, connections, o, k);
      }
      OwnedByNext(connections, o, n, |ticks|);
    }
  }

  /** A process fires as many requests as there are arrivals before its deadline. */
  lemma NothingMissedOrDoubled(
      schedules: seq<seq<real>>, start: real, rate: real, deadline: real, connections: nat)
    requires rate > 0.0 && connections > 0 && |schedules| == connections
    requires forall o | 0 <= o < connections :: FiresAt(schedules[o], start, rate, deadline, connections, o)
    ensures Fired(schedules) == Arrivals(start, rate, deadline)
  {
    FiredIsOwned(schedules, start, rate, deadline, connections, connections);
    OwnedByNoneAndAll(connections, Arrivals(start, rate, deadline));
    assert schedules[..connections] == schedules;
  }
}
