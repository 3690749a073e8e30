/** `QueueModel`: one M/M/C queueing node. Customers in service sit on
    `counterList` as absolute completion times, kept sorted; customers waiting
    for a free counter sit on the FIFO `waitQ` with the service duration they
    will need. Time-weighted occupancy statistics are accumulated on every tick.

    The node's whole state is also available as a value (`NodeState`), and
    each mutating method is proved to follow a function on that value. */
module Queueing {
  import opened Times
  import opened Bisect
  import opened Occupancy

  /** The larger of two counts (Python's `max` on two ints). */
  function Max(a: nat, b: nat): (m: nat)
    ensures m >= a && m >= b && (m == a || m == b)
  {
    if a >= b then a else b
  }

  /** Occupancy statistics: the time integrals `lq` (queue length) and `lc`
      (customers in service), the largest lengths seen, and the time of the
      last flush. */
  datatype Stats = Stats(lq: real, lc: real, qmax: nat, cmax: nat, lastTick: real)

  /** `n * dt`, written as `n` additions of `dt` so that the solver never has
      to reason about a product of two unknowns where a flush is unfolded
      (see `WeightedIs`). */
  function Weighted(n: nat, dt: real): real
  {
    if n == 0 then 0.0 else Weighted(n - 1, dt) + dt
  }

  /** `Weighted` is the product. */
  lemma {:induction false} WeightedIs(n: nat, dt: real)
    ensures Weighted(n, dt) == n as real * dt
  {
    if n > 0 {
      WeightedIs(n - 1, dt);
      assert n as real * dt == (n - 1) as real * dt + dt;
    }
  }

  /** `update_stat(t)`: the time since the last flush, weighted by the queue
      length and by the number in service, is added to the integrals; the
      maxima are raised to the current lengths; the flush time becomes `t`. */
  function Flush(s: Stats, st: Station, t: real): (r: Stats)
    ensures r.lastTick == t
    ensures r.qmax >= s.qmax && r.qmax >= |st.waiting| && r.cmax >= s.cmax && r.cmax >= |st.counters|
    ensures r.qmax == s.qmax || r.qmax == |st.waiting|
    ensures r.cmax == s.cmax || r.cmax == |st.counters|
  {
    var dt := t - s.lastTick;
    Stats(s.lq + Weighted(|st.waiting|, dt), s.lc + Weighted(|st.counters|, dt),
          Max(s.qmax, |st.waiting|), Max(s.cmax, |st.counters|), t)
  }

  /** The integrals grow by the queue length and by the number in service,
      each times the time since the last flush. */
  lemma FlushSpec(s: Stats, st: Station, t: real)
    ensures Flush(s, st, t).lq - s.lq == |st.waiting| as real * (t - s.lastTick)
    ensures Flush(s, st, t).lc - s.lc == |st.counters| as real * (t - s.lastTick)
  {
    WeightedIs(|st.waiting|, t - s.lastTick);
    WeightedIs(|st.counters|, t - s.lastTick);
  }

  /** The integrals never decrease when time does not run backwards. */
  lemma FlushMonotone(s: Stats, st: Station, t: real)
    requires s.lastTick <= t
    ensures Flush(s, st, t).lq >= s.lq && Flush(s, st, t).lc >= s.lc
  {
    FlushSpec(s, st, t);
    var dt := t - s.lastTick;
    assert |st.waiting| as real * dt >= 0.0;
    assert |st.counters| as real * dt >= 0.0;
  }

  /** Everything a node holds: its occupancy, how many service durations it
      has drawn, and its statistics. */
  datatype NodeState = NodeState(st: Station, drawn: nat, stats: Stats)

  /** `enqueue(t, c)` on a node with `cap` counters drawing from `service`. */
  function NodeEnqueue(cap: nat, service: nat -> Duration, v: NodeState, t: real, c: nat): NodeState
  {
    NodeState(Admit(v.st, cap, t, Draws(service, v.drawn, c)), v.drawn + c, v.stats)
  }

  /** `tick(t)`: flush the statistics, then advance the occupancy; the second
      component is the number of customers that left. */
  function NodeTick(cap: nat, v: NodeState, t: real): (NodeState, nat)
  {
    var (st, out) := Advance(v.st, cap, t);
    (NodeState(st, v.drawn, Flush(v.stats, v.st, t)), out)
  }

  /** Admission keeps the node invariant, adds `c` residents and `c` draws,
      leaves the statistics alone and never changes who departs at `t`. */
  lemma NodeEnqueueSpec(cap: nat, service: nat -> Duration, v: NodeState, t: real, c: nat)
    requires Inv(v.st, cap)
    ensures var w := NodeEnqueue(cap, service, v, t, c);
      && Inv(w.st, cap)
      && Total(w.st) == Total(v.st) + c
      && w.drawn == v.drawn + c
      && w.stats == v.stats
      && Departed(w.st.counters, t) == Departed(v.st.counters, t)
      && (forall y :: y in w.st.counters ==> y in v.st.counters || y >= t)
      && (c == 0 ==> w == v)
  {
    AdmitInv(v.st, cap, t, Draws(service, v.drawn, c));
  }

  /** Admission at `t` adds no completion before a bound `lo <= t`. */
  lemma NodeEnqueueFloor(cap: nat, service: nat -> Duration, v: NodeState, t: real, c: nat, lo: real)
    requires Inv(v.st, cap) && NoneBefore(v.st.counters, lo) && lo <= t
    ensures NoneBefore(NodeEnqueue(cap, service, v, t, c).st.counters, lo)
  {
    var w := NodeEnqueue(cap, service, v, t, c);
    NodeEnqueueSpec(cap, service, v, t, c);
    forall x | 0 <= x < |w.st.counters| ensures w.st.counters[x] >= lo {
      assert w.st.counters[x] in w.st.counters;
      if w.st.counters[x] in v.st.counters {
        var y :| 0 <= y < |v.st.counters| && v.st.counters[y] == w.st.counters[x];
      }
    }
  }

  /** Admitting one customer never makes the node's `next_ev` later. */
  lemma HeadEnqueueDrops(cap: nat, service: nat -> Duration, v: NodeState, t: real)
    requires Inv(v.st, cap)
    ensures Le(Head(NodeEnqueue(cap, service, v, t, 1).st), Head(v.st))
  {
    var d := Draws(service, v.drawn, 1);
    assert d == [] + [d[0]];
    AdmitSnoc(v.st, cap, t, [], d[0]);
    HeadAdmitOne(v.st, cap, t, d[0]);
  }

  /** Two admissions at the same instant are one admission of both batches. */
  lemma NodeEnqueueTwice(cap: nat, service: nat -> Duration, v: NodeState, t: real, a: nat, b: nat)
    ensures NodeEnqueue(cap, service, NodeEnqueue(cap, service, v, t, a), t, b)
         == NodeEnqueue(cap, service, v, t, a + b)
  {
    var da := Draws(service, v.drawn, a);
    var db := Draws(service, v.drawn + a, b);
    var st := Admit(v.st, cap, t, da + db);
    var w := NodeEnqueue(cap, service, v, t, a);
    assert w.st == Admit(v.st, cap, t, da) && w.drawn == v.drawn + a && w.stats == v.stats;
    assert Admit(w.st, cap, t, db) == st by {
      AdmitConcat(v.st, cap, t, da, db);
    }
    assert Draws(service, v.drawn, a + b) == da + db by {
      DrawsConcat(service, v.drawn, a, b);
    }
  }

  /** A node step at `t` keeps the invariant and conserves customers; the
      customers that leave are exactly those that were to complete strictly
      before `t`; no remaining completion lies before `t`; the draws are
      untouched and the statistics are flushed. */
  lemma NodeTickSpec(cap: nat, v: NodeState, t: real)
    requires Inv(v.st, cap)
    ensures var (w, out) := NodeTick(cap, v, t);
      && Inv(w.st, cap)
      && Total(v.st) == Total(w.st) + out
      && out == Departed(v.st.counters, t)
      && NoneBefore(w.st.counters, t)
      && (forall y :: y in v.st.counters && y >= t ==> y in w.st.counters)
      && w.drawn == v.drawn
      && w.stats == Flush(v.stats, v.st, t)
  {
    var out := Departed(v.st.counters, t);
    AdvanceSpec(v.st, cap, t);
    var w := Advance(v.st, cap, t).0;
    forall y | y in v.st.counters && y >= t ensures y in w.counters {
      var k :| 0 <= k < |v.st.counters| && v.st.counters[k] == y;
      assert k >= out;
      assert y in multiset(v.st.counters[out..]) by {
        assert v.st.counters[out..][k - out] == y;
      }
    }
  }

  class QueueModel {
    /** Number of parallel counters (servers). */
    const numCounters: nat
    /** The service durations this node draws, in order: the `k`-th customer
        it admits needs `service(k)`. Stands in for the random variate. */
    const service: nat -> Duration
    /** How many durations have been drawn so far. */
    var drawn: nat

    /** Service durations owed to the waiting customers, oldest first. */
    var waitQ: seq<real>
    /** Completion times of the customers in service, ascending. */
    var counterList: seq<real>
    /** Time integral of the queue length. */
    var lq: real
    /** Time integral of the number of customers in service. */
    var lc: real
    /** Largest queue length seen at a tick. */
    var qmax: nat
    /** Largest number of busy counters seen at a tick. */
    var cmax: nat
    /** Time of the last statistics flush. */
    var lastTick: real

    /** The node's occupancy as a value. */
    function State(): Station
      reads this`counterList, this`waitQ
    {
      Station(counterList, waitQ)
    }

    /** The node's statistics as a value. */
    function Statistics(): Stats
      reads this`lq, this`lc, this`qmax, this`cmax, this`lastTick
    {
      Stats(lq, lc, qmax, cmax, lastTick)
    }

    /** The node's whole state as a value. */
    function Node(): NodeState
      reads this
    {
      NodeState(State(), drawn, Statistics())
    }

    /** The node invariant (see `Occupancy.Inv`). */
    predicate Valid()
      reads this`counterList, this`waitQ
    {
      Inv(State(), numCounters)
    }

    /** A fresh node with `numCounters` counters, empty lists and zero statistics. */
    constructor (numCounters: nat, service: nat -> Duration)
      ensures Valid()
      ensures this.numCounters == numCounters && this.service == service
      ensures Node() == NodeState(Station([], []), 0, Stats(0.0, 0.0, 0, 0, 0.0))
    {
      this.numCounters := numCounters;
      this.service := service;
      drawn := 0;
      waitQ := [];
      counterList := [];
      lq := 0.0;
      lc := 0.0;
      qmax := 0;
      cmax := 0;
      lastTick := 0.0;
    }

    /** Draws the service duration of the next customer. */
    method DesiredServiceTime() returns (d: Duration)
      modifies this`drawn
      ensures d == service(old(drawn)) && drawn == old(drawn) + 1
    {
      d := service(drawn);
      drawn := drawn + 1;
    }

    /** One arriving customer (the body of `enqueue`'s loop): it draws its
        duration and takes a free counter or joins the back of the queue. */
    method AdmitCustomer(t: real)
      modifies this`counterList, this`waitQ, this`drawn
      ensures drawn == old(drawn) + 1
      ensures State() == AdmitOne(old(State()), numCounters, t, service(old(drawn)))
    {
      if |counterList| < numCounters {
        var d := DesiredServiceTime();
        counterList := Insort(counterList, d + t);
      } else {
        var d := DesiredServiceTime();
        waitQ := waitQ + [d];
      }
    }

    /** `c` customers arrive at `t`. Each takes a free counter, completing at
        `t` plus its duration, or else joins the back of the queue carrying
        its duration only. */
    method Enqueue(t: real, c: nat)
      requires Valid()
      modifies this`counterList, this`waitQ, this`drawn
      ensures Valid()
      ensures Node() == NodeEnqueue(numCounters, service, old(Node()), t, c)
    {
      ghost var v0 := Node();
      ghost var ds := Draws(service, v0.drawn, c);
      for i := 0 to c
        invariant drawn == v0.drawn + i
        invariant State() == Admit(v0.st, numCounters, t, ds[..i])
      {
        DrawsAt(service, v0.drawn, c, i);
        AdmitCustomer(t);
        assert ds[..i + 1][..i] == ds[..i];
      }
      assert ds[..c] == ds;
      assert Valid() by {
        AdmitInv(v0.st, numCounters, t, Draws(service, v0.drawn, c));
      }
    }

    /** Folds the time since the last flush into the statistics. */
    method UpdateStat(t: real)
      modifies this`lq, this`lc, this`qmax, this`cmax, this`lastTick
      ensures Statistics() == Flush(old(Statistics()), State(), t)
    {
      ghost var r := Flush(Statistics(), State(), t);
      FlushSpec(Statistics(), State(), t);
      var dt := t - lastTick;
      lq := lq + |waitQ| as real * dt;
      lc := lc + |counterList| as real * dt;
      qmax := Max(qmax, |waitQ|);
      cmax := Max(cmax, |counterList|);
      lastTick := t;
      assert lq == r.lq && lc == r.lc && qmax == r.qmax && cmax == r.cmax && lastTick == r.lastTick;
    }

    /** One time step at `t`: statistics first, then every customer whose
        completion time is strictly before `t` leaves, then waiting
        customers, oldest first, take the free counters. Returns the number
        that left. */
    method Tick(t: real) returns (out: nat)
      requires Valid()
      modifies this`counterList, this`waitQ, this`lq, this`lc, this`qmax, this`cmax, this`lastTick
      ensures Valid()
      ensures (Node(), out) == NodeTick(numCounters, old(Node()), t)
    {
      ghost var v0 := Node();
      ghost var s0 := State();
      UpdateStat(t);
      assert Statistics() == Flush(v0.stats, s0, t);
      out := PopDeparted(t);
      RefillCounters(t);
      assert (State(), out) == Advance(s0, numCounters, t);
      assert Valid() by {
        AdvanceSpec(s0, numCounters, t);
      }
      assert Node() == NodeState(State(), v0.drawn, Flush(v0.stats, s0, t));
    }

    /** The pop loop of `tick`: completions strictly before `t` leave the
        front of the sorted counter list. */
    method PopDeparted(t: real) returns (out: nat)
      modifies this`counterList
      ensures out == Departed(old(counterList), t)
      ensures counterList == old(counterList)[out..]
    {
      ghost var cs0 := counterList;
      out := 0;
      while |counterList| > 0 && counterList[0] < t
        invariant out <= |cs0| && counterList == cs0[out..]
        invariant Departed(cs0, t) == out + Departed(counterList, t)
        decreases |counterList|
      {
        assert counterList[1..] == cs0[out + 1..];
        counterList := counterList[1..];
        out := out + 1;
      }
    }

    /** The refill loop of `tick`: waiting customers, oldest first, start
        service at `t` while a counter is free. */
    method RefillCounters(t: real)
      modifies this`counterList, this`waitQ
      ensures State() == Refill(old(State()), numCounters, t)
    {
      ghost var mid := State();
      while |counterList| < numCounters && |waitQ| > 0
        invariant Refill(State(), numCounters, t) == Refill(mid, numCounters, t)
        decreases |waitQ|
      {
        var d := waitQ[0];
        waitQ := waitQ[1..];
        counterList := Insort(counterList, d + t);
      }
    }

    /** `next_ev`: see `Occupancy.Head`. */
    function NextEv(): ExtReal
      reads this`counterList, this`waitQ
    {
      Head(State())
    }

    /** `getQl`: the current queue length; on a valid node a non-empty queue
        means that every counter is busy. */
    function GetQl(): (n: nat)
      reads this`counterList, this`waitQ
      ensures n == |State().waiting|
      ensures Valid() && n > 0 ==> |counterList| == numCounters
    {
      |waitQ|
    }

    /** Empties both lists and zeroes the statistics; the draws go on. */
    method Clear()
      modifies this`counterList, this`waitQ, this`lq, this`lc, this`qmax, this`cmax, this`lastTick
      ensures Valid()
      ensures Node() == NodeState(Station([], []), old(drawn), Stats(0.0, 0.0, 0, 0, 0.0))
    {
      waitQ := [];
      counterList := [];
      lq := 0.0;
      lc := 0.0;
      qmax := 0;
      cmax := 0;
      lastTick := 0.0;
    }
  }
}
