/** `Simulation`: a network of `QueueModel` nodes driven by an event clock.
    Customers arrive at node 0 from an arrival process; each clock pass ticks
    the nodes in order and routes departures (see `Routing`); the clock then
    jumps to just after the earliest pending event. Two networks exist: a
    chain of nodes, and the four-node fan-out/fan-in network whose arrivals
    are the superposition of two independent streams. */
module Network {
  import opened Times
  import opened Bisect
  import opened Occupancy
  import opened Queueing
  import opened Routing
  import opened Arrivals

  /** The default length of one run, in clock units. */
  const TotalTime: nat := 10000000
  /** The default number of runs. */
  const TotalTry: nat := 10

  /** What a run needs at its start, and what `clear` leaves: nothing
      pending before time 0, statistics flushed no later than 0 and
      non-negative. */
  predicate CleanStart(vs: seq<NodeState>)
  {
    forall j :: 0 <= j < |vs| ==>
      && NoneBefore(vs[j].st.counters, 0.0)
      && vs[j].stats.lastTick <= 0.0 && vs[j].stats.lq >= 0.0 && vs[j].stats.lc >= 0.0
  }

  /** Every node's statistics were last flushed no later than `x` and are
      non-negative. */
  predicate FlushedBy(vs: seq<NodeState>, x: real)
  {
    forall j :: 0 <= j < |vs| ==>
      vs[j].stats.lastTick <= x && vs[j].stats.lq >= 0.0 && vs[j].stats.lc >= 0.0
  }

  /** The time before which nothing is pending once the clock reads `tick`:
      one unit earlier, but never before 0. */
  function PrevTick(tick: int): real
  {
    if tick >= 1 then (tick - 1) as real else 0.0
  }

  /** A node as `clear` leaves it: both lists empty, statistics zero, the
      draws made so far kept. */
  function Cleared(v: NodeState): (w: NodeState)
    ensures w.st.counters == [] && w.st.waiting == [] && w.drawn == v.drawn
    ensures w.stats.lq == 0.0 && w.stats.lc == 0.0 && w.stats.lastTick == 0.0
  {
    NodeState(Station([], []), v.drawn, Stats(0.0, 0.0, 0, 0, 0.0))
  }

  /** The statistics of the first `m` nodes summed. */
  function SumLq(vs: seq<NodeState>, m: nat): real
    requires m <= |vs|
  {
    if m == 0 then 0.0 else SumLq(vs, m - 1) + vs[m - 1].stats.lq
  }

  function SumLc(vs: seq<NodeState>, m: nat): real
    requires m <= |vs|
  {
    if m == 0 then 0.0 else SumLc(vs, m - 1) + vs[m - 1].stats.lc
  }

  /** Non-negative integrals sum to non-negative totals. */
  lemma {:induction false} SumsNonNegative(vs: seq<NodeState>, m: nat)
    requires m <= |vs|
    requires forall j :: 0 <= j < |vs| ==> vs[j].stats.lq >= 0.0 && vs[j].stats.lc >= 0.0
    ensures SumLq(vs, m) >= 0.0 && SumLc(vs, m) >= 0.0
    decreases m
  {
    if m > 0 {
      SumsNonNegative(vs, m - 1);
    }
  }

  /** The clock rule `tick = int(next_ev) + 1` after a pass at `T`: `m` is
      the folded time, at most every node's `next_ev` and more than `T - 1`
      (at least `T` when nothing was pending before `T` at the start of the
      pass). The new tick is not earlier than `T`, is later when nothing was
      pending before `T`, and nothing is pending before the new tick minus 1. */
  lemma NextTick(topo: Topology, cfg: seq<Config>, vs: seq<NodeState>, T: int, m: real, settled: bool)
    requires WellFormed(topo, cfg, vs) && T >= 0
    requires forall j :: 0 <= j < |vs| ==> Le(Finite(m), Head(vs[j].st))
    requires m >= PrevTick(T) && (settled ==> m >= T as real)
    ensures Trunc(m) + 1 >= T && (settled ==> Trunc(m) + 1 > T)
    ensures AllFrom(vs, PrevTick(Trunc(m) + 1))
  {
    forall j | 0 <= j < |vs| ensures NoneBefore(vs[j].st.counters, PrevTick(Trunc(m) + 1)) {
      HeadBound(vs[j].st, m);
      assert Trunc(m) as real <= m;
    }
  }

  /** One round of `cal` on values. The pass at `T` takes `vs0` to `vs1`
      with folded time `ne`; the arrivals then change node 0 only, giving
      `vs2`, and fold into `ne'`; the next arrival `a` lies after `T`. The
      clock rule then never goes back, moves on when nothing before `T` was
      pending at the start, and leaves nothing pending before the new tick
      minus 1. */
  lemma ClockRound(topo: Topology, cfg: seq<Config>, vs0: seq<NodeState>, T: int,
                   vs1: seq<NodeState>, ne: ExtReal, vs2: seq<NodeState>, ne': ExtReal, a: real)
    requires WellFormed(topo, cfg, vs0) && T >= 0 && AllFrom(vs0, PrevTick(T))
    requires vs1 == Pass(topo, cfg, vs0, T as real, 0, Infinity, 0).0
    requires ne == Pass(topo, cfg, vs0, T as real, 0, Infinity, 0).1
    requires 0 < |vs1| == |vs2| && vs2 == vs1[0 := vs2[0]]
    requires WellFormed(topo, cfg, vs2)
    requires Le(ne', ne) && (ne' == ne || AtLeast(ne', T as real)) && Le(ne', Head(vs2[0].st))
    requires a > T as real
    ensures var m := Min(ne', Finite(a)).v;
      && T <= Trunc(m) + 1 && (AllFrom(vs0, T as real) ==> T < Trunc(m) + 1)
      && AllFrom(vs2, PrevTick(Trunc(m) + 1))
  {
    var t := T as real;
    var m := Min(ne', Finite(a));
    PassSpec(topo, cfg, vs0, t);
    PassFloor(topo, cfg, vs0, t, PrevTick(T));
    if AllFrom(vs0, t) {
      PassFloor(topo, cfg, vs0, t, t);
    }
    forall j | 0 <= j < |vs2| ensures Le(m, Head(vs2[j].st)) {
      if j == 0 {
        LeTrans(m, ne', Head(vs2[j].st));
      } else {
        LeTrans(ne', ne, Head(vs2[j].st));
        LeTrans(m, ne', Head(vs2[j].st));
      }
    }
    NextTick(topo, cfg, vs2, T, m.v, AllFrom(vs0, t));
  }

  /** What the arrivals after a pass at `t` rely on: the nodes are well
      formed, nothing is pending before `t`, and the folded time is at most
      node 0's `next_ev`. */
  lemma PassReady(topo: Topology, cfg: seq<Config>, vs0: seq<NodeState>, t: real, vs1: seq<NodeState>, ne: ExtReal)
    requires WellFormed(topo, cfg, vs0)
    requires vs1 == Pass(topo, cfg, vs0, t, 0, Infinity, 0).0
    requires ne == Pass(topo, cfg, vs0, t, 0, Infinity, 0).1
    ensures |vs1| == |vs0| && WellFormed(topo, cfg, vs1) && AllFrom(vs1, t)
    ensures |vs1| > 0 ==> Le(ne, Head(vs1[0].st))
  {
    PassSpec(topo, cfg, vs0, t);
    PassKeeps(topo, cfg, vs0, t);
  }

  /** One more arrival at node 0 extends the `k` already admitted there. */
  lemma EnqueueOneMore(c: Config, vs0: seq<NodeState>, t: real, k: nat, vs: seq<NodeState>, vs': seq<NodeState>)
    requires 0 < |vs0| && vs == vs0[0 := NodeEnqueue(c.cap, c.service, vs0[0], t, k)]
    requires vs' == vs[0 := NodeEnqueue(c.cap, c.service, vs[0], t, 1)]
    ensures vs' == vs0[0 := NodeEnqueue(c.cap, c.service, vs0[0], t, k + 1)]
  {
    NodeEnqueueTwice(c.cap, c.service, vs0[0], t, k, 1);
  }

  /** After a pass at `T` every node's statistics were flushed at `T` and
      stayed non-negative, and admissions do not touch them. */
  lemma RoundFlushed(topo: Topology, cfg: seq<Config>, vs0: seq<NodeState>, T: real, vs1: seq<NodeState>, vs2: seq<NodeState>)
    requires WellFormed(topo, cfg, vs0) && FlushedBy(vs0, T)
    requires vs1 == Pass(topo, cfg, vs0, T, 0, Infinity, 0).0
    requires 0 < |vs1| == |vs2| && vs2 == vs1[0 := vs2[0]] && vs2[0].stats == vs1[0].stats
    ensures FlushedBy(vs2, T)
  {
    PassSpec(topo, cfg, vs0, T);
    PassFlushes(topo, cfg, vs0, T);
  }

  /** A time average over a run of length `T`. */
  function Mean(x: real, T: nat): real
    requires T > 0
  {
    x / T as real
  }

  /** Averages of non-negative integrals: L is at least Lq, and Lq is not
      negative. */
  lemma MeanBounds(c: real, q: real, T: nat)
    requires c >= 0.0 && q >= 0.0 && T > 0
    ensures 0.0 <= Mean(q, T) <= Mean(c + q, T)
  {
    assert Mean(c + q, T) == Mean(c, T) + Mean(q, T);
  }

  /** L and Lq of a run of length `T` whose nodes end as `ws`: L sums both
      integrals over all nodes and Lq the queue integrals, each averaged over
      the run. */
  function RunMeans(ws: seq<NodeState>, T: nat): (real, real)
    requires T > 0
  {
    (Mean(SumLc(ws, |ws|) + SumLq(ws, |ws|), T), Mean(SumLq(ws, |ws|), T))
  }

  /** Averages of non-negative integrals: Lq is at least 0 and at most L. */
  lemma RunMeansBounds(ws: seq<NodeState>, T: nat)
    requires T > 0 && FlushedBy(ws, T as real)
    ensures 0.0 <= RunMeans(ws, T).1 <= RunMeans(ws, T).0
  {
    SumsNonNegative(ws, |ws|);
    MeanBounds(SumLc(ws, |ws|), SumLq(ws, |ws|), T);
  }

  // ---------------------------------------------------------------------------
  // A whole run on values

  /** What a run is made of: how departures are routed, what each node is
      built with, the gaps between arrivals with a positive lower bound on
      them, and the run length. */
  datatype Setup = Setup(topo: Topology, cfg: seq<Config>, gaps: nat -> Duration, minGap: real, totalTime: nat)

  /** A network the clock can drive: gaps bounded away from zero, well-formed
      nodes, and at least the node that receives the arrivals. */
  ghost predicate Net(p: Setup, vs: seq<NodeState>)
  {
    Gaps(p.gaps, p.minGap) && WellFormed(p.topo, p.cfg, vs) && |vs| >= 1
  }

  /** The clock rule `tick = int(min(next_ev, arrival)) + 1`. */
  function NextClock(ne: ExtReal, a: real): int
  {
    var m := Min(ne, Finite(a));
    Trunc(m.v) + 1
  }

  /** One round of `cal`'s outer loop at `tick`: a pass over the nodes, then
      every arrival due by `tick` joins node 0 at `tick` with node 0's
      `next_ev` folded in, then the clock rule. Yields the nodes, the state of
      the arrival process, the next arrival and the next tick. */
  function Round(p: Setup, vs: seq<NodeState>, s: Streams, a: real, tick: int)
    : (r: (seq<NodeState>, Streams, real, int))
    requires Net(p, vs) && (p.topo.FanOutFanIn? ==> a == MinReal(s.l1, s.l2))
    ensures |r.0| == |vs|
  {
    var t := tick as real;
    var (vs1, ne, _) := Pass(p.topo, p.cfg, vs, t, 0, Infinity, 0);
    var (s', a', k) := DueArrivals(p.topo, p.gaps, p.minGap, s, a, t);
    var vs2 := vs1[0 := NodeEnqueue(p.cfg[0].cap, p.cfg[0].service, vs1[0], t, k)];
    var ne' := if k == 0 then ne else Min(ne, Head(vs2[0].st));
    (vs2, s', a', NextClock(ne', a'))
  }

  /** A round keeps the network drivable and the arrival invariant; the next
      arrival lies after `tick`; the clock never goes back, and moves on when
      nothing before `tick` was pending at the start; nothing is pending
      before `tick`, nor before the new tick minus 1; statistics flushed by
      `tick` stay so. */
  lemma RoundSpec(p: Setup, vs: seq<NodeState>, s: Streams, a: real, tick: int)
    requires Net(p, vs) && (p.topo.FanOutFanIn? ==> a == MinReal(s.l1, s.l2))
    requires tick >= 0 && AllFrom(vs, PrevTick(tick))
    ensures var (vs', s', a', tick') := Round(p, vs, s, a, tick);
      && Net(p, vs')
      && (p.topo.FanOutFanIn? ==> a' == MinReal(s'.l1, s'.l2))
      && a' > tick as real
      && tick <= tick' && (AllFrom(vs, tick as real) ==> tick < tick')
      && AllFrom(vs', tick as real) && AllFrom(vs', PrevTick(tick'))
      && (FlushedBy(vs, tick as real) ==> FlushedBy(vs', tick as real))
  {
    var t := tick as real;
    var (vs1, ne, _) := Pass(p.topo, p.cfg, vs, t, 0, Infinity, 0);
    var (s', a', k) := DueArrivals(p.topo, p.gaps, p.minGap, s, a, t);
    var c := p.cfg[0];
    var w := NodeEnqueue(c.cap, c.service, vs1[0], t, k);
    var vs2 := vs1[0 := w];
    var ne' := if k == 0 then ne else Min(ne, Head(w.st));
    PassReady(p.topo, p.cfg, vs, t, vs1, ne);
    NodeEnqueueSpec(c.cap, c.service, vs1[0], t, k);
    NodeEnqueueFloor(c.cap, c.service, vs1[0], t, k, t);
    HeadFloor(w.st, t);
    assert WellFormed(p.topo, p.cfg, vs2);
    assert AllFrom(vs2, t);
    ClockRound(p.topo, p.cfg, vs, tick, vs1, ne, vs2, ne', a');
    if FlushedBy(vs, t) {
      RoundFlushed(p.topo, p.cfg, vs, t, vs1, vs2);
    }
  }

  /** What the outer loop of `cal` keeps at each `tick`. */
  ghost predicate RunReady(p: Setup, vs: seq<NodeState>, s: Streams, a: real, tick: int)
  {
    && Net(p, vs) && (p.topo.FanOutFanIn? ==> a == MinReal(s.l1, s.l2))
    && tick >= 0 && AllFrom(vs, PrevTick(tick))
  }

  /** A bound on the rounds the outer loop still takes from `tick`: two per
      tick left, one fewer once no completion before `tick` is pending. */
  function RoundsLeft(p: Setup, vs: seq<NodeState>, tick: int): int
  {
    2 * (p.totalTime - tick) + (if AllFrom(vs, tick as real) then 0 else 1)
  }

  /** Before the run length a round leaves the outer loop ready for the
      next one, with fewer rounds left. */
  lemma RoundReady(p: Setup, vs: seq<NodeState>, s: Streams, a: real, tick: int)
    requires RunReady(p, vs, s, a, tick) && tick < p.totalTime
    ensures var r := Round(p, vs, s, a, tick);
      RunReady(p, r.0, r.1, r.2, r.3) && RoundsLeft(p, r.0, r.3) < RoundsLeft(p, vs, tick)
  {
    RoundSpec(p, vs, s, a, tick);
  }

  /** The two-node chain of `RoundRepeatsTick`: one counter per node, unit
      service and inter-arrival times. */
  function RepeatSetup(): Setup
  {
    Setup(Chain, [Config(1, k => 1.0), Config(1, k => 1.0)], k => 1.0, 1.0, 100)
  }

  /** Its nodes: one customer in service in each, due at 5.3 and 5.7. */
  function RepeatNodes(): seq<NodeState>
  {
    var z := Stats(0.0, 0.0, 0, 0, 0.0);
    [NodeState(Station([5.3], []), 0, z), NodeState(Station([5.7], []), 0, z)]
  }

  /** Node 0's turn at 6: its customer leaves for the full node 1, and node
      1's completion at 5.7 is what `next_ev` holds afterwards. */
  lemma RepeatFirstStep()
    ensures var a := Step(Chain, RepeatSetup().cfg, RepeatNodes(), 6.0, 0, Infinity, 0);
      a.1 == Finite(5.7) && a.0[1].st == Station([5.7], [1.0])
  {
    var vs := RepeatNodes();
    var (v0, o0) := NodeTick(1, vs[0], 6.0);
    assert Departed([5.3], 6.0) == 1;
    assert o0 == 1 && v0.st == Station([], []);
    assert Dest(Chain, vs[0 := v0], 0) == Some(1);
    assert Draws(RepeatSetup().cfg[1].service, 0, 1) == [1.0];
  }

  /** Node 1's turn at 6: 5.7 leaves the network and the waiting customer
      takes the counter until 7, so `next_ev` stays at 5.7. */
  lemma RepeatSecondStep(vs: seq<NodeState>, gone: nat)
    requires |vs| == 2 && vs[1].st == Station([5.7], [1.0])
    ensures Step(Chain, RepeatSetup().cfg, vs, 6.0, 1, Finite(5.7), gone).1 == Finite(5.7)
  {
    var (v1, o1) := NodeTick(1, vs[1], 6.0);
    assert Departed([5.7], 6.0) == 1;
    assert v1.st == Station([7.0], []);
  }

  /** The pass at 6 ends with `next_ev` still at 5.7. */
  lemma RepeatPass()
    ensures Pass(Chain, RepeatSetup().cfg, RepeatNodes(), 6.0, 0, Infinity, 0).1 == Finite(5.7)
  {
    var cfg := RepeatSetup().cfg;
    var vs := RepeatNodes();
    var a := Step(Chain, cfg, vs, 6.0, 0, Infinity, 0);
    RepeatFirstStep();
    RepeatSecondStep(a.0, a.2);
    PassStep(Chain, cfg, vs, 6.0, 0, Infinity, 0);
    PassStep(Chain, cfg, a.0, 6.0, 1, a.1, a.2);
  }

  /** A round with no arrival due sets the clock from the pass alone. */
  lemma RoundNoArrival(p: Setup, vs: seq<NodeState>, s: Streams, a: real, tick: int)
    requires Net(p, vs) && (p.topo.FanOutFanIn? ==> a == MinReal(s.l1, s.l2))
    requires a > tick as real
    ensures Round(p, vs, s, a, tick).3 == NextClock(Pass(p.topo, p.cfg, vs, tick as real, 0, Infinity, 0).1, a)
  {
    var t := tick as real;
    var v0 := Pass(p.topo, p.cfg, vs, t, 0, Infinity, 0).0[0];
    assert NodeEnqueue(p.cfg[0].cap, p.cfg[0].service, v0, t, 0).st == v0.st;
  }

  /** The chain above is a state the outer loop accepts at tick 6. */
  lemma RepeatReady()
    ensures RunReady(RepeatSetup(), RepeatNodes(), Streams(0, 0.0, 0.0), 100.0, 6)
  {
  }

  /** The clock can read the same tick twice: in the chain above, at tick 6
      node 0's customer due at 5.3 moves into node 1, whose own customer due
      at 5.7 is folded into `next_ev` before node 1 ticks, so the next clock
      is `int(5.7) + 1 = 6` again. */
  lemma RoundRepeatsTick()
    ensures var s := Streams(0, 0.0, 0.0);
      RunReady(RepeatSetup(), RepeatNodes(), s, 100.0, 6)
      && Round(RepeatSetup(), RepeatNodes(), s, 100.0, 6).3 == 6
  {
    RepeatReady();
    RepeatPass();
    RoundNoArrival(RepeatSetup(), RepeatNodes(), Streams(0, 0.0, 0.0), 100.0, 6);
    assert Trunc(5.7) == 5;
  }

  /** The outer loop of `cal` from `tick` on: rounds while the clock is
      before the run length. Yields the nodes and the arrival process. It
      ends because the clock moves on at least every other round. */
  ghost function RunFrom(p: Setup, vs: seq<NodeState>, s: Streams, a: real, tick: int): (r: (seq<NodeState>, Streams))
    requires RunReady(p, vs, s, a, tick)
    ensures Net(p, r.0) && |r.0| == |vs|
    decreases RoundsLeft(p, vs, tick)
  {
    if tick >= p.totalTime then (vs, s)
    else
      RoundReady(p, vs, s, a, tick);
      var (vs', s', a', tick') := Round(p, vs, s, a, tick);
      RunFrom(p, vs', s', a', tick')
  }

  /** Before the run length the outer loop is one round followed by the
      loop from the new tick, and the round keeps what the loop needs. */
  lemma RunFromStep(p: Setup, vs: seq<NodeState>, s: Streams, a: real, tick: int)
    requires RunReady(p, vs, s, a, tick) && tick < p.totalTime
    ensures var (vs', s', a', tick') := Round(p, vs, s, a, tick);
      && RunReady(p, vs', s', a', tick')
      && RunFrom(p, vs, s, a, tick) == RunFrom(p, vs', s', a', tick')
      && tick <= tick' && (AllFrom(vs, tick as real) ==> tick < tick')
      && AllFrom(vs', tick as real)
      && RoundsLeft(p, vs', tick') < RoundsLeft(p, vs, tick)
  {
    RoundSpec(p, vs, s, a, tick);
  }

  /** At or after the run length the outer loop stops. */
  lemma RunFromDone(p: Setup, vs: seq<NodeState>, s: Streams, a: real, tick: int)
    requires RunReady(p, vs, s, a, tick) && tick >= p.totalTime
    ensures RunFrom(p, vs, s, a, tick) == (vs, s)
  {
  }

  /** Statistics flushed by `tick` and by the run length stay so over the
      outer loop. */
  lemma {:induction false} RunFromFlushed(p: Setup, vs: seq<NodeState>, s: Streams, a: real, tick: int)
    requires RunReady(p, vs, s, a, tick)
    requires FlushedBy(vs, tick as real) && FlushedBy(vs, p.totalTime as real)
    ensures FlushedBy(RunFrom(p, vs, s, a, tick).0, p.totalTime as real)
    decreases RoundsLeft(p, vs, tick)
  {
    if tick < p.totalTime {
      RoundSpec(p, vs, s, a, tick);
      var (vs', s', a', tick') := Round(p, vs, s, a, tick);
      RunFromFlushed(p, vs', s', a', tick');
    }
  }

  /** What `cal` needs at its start. */
  ghost predicate RunStart(p: Setup, vs: seq<NodeState>)
  {
    Net(p, vs) && p.totalTime > 0 && CleanStart(vs)
  }

  /** The end of `cal` on values: a last pass at the run length, then L
      sums both integrals over all nodes and Lq the queue integrals, each
      averaged over the run. */
  function Close(p: Setup, vs: seq<NodeState>): (r: (seq<NodeState>, real, real))
    requires WellFormed(p.topo, p.cfg, vs) && p.totalTime > 0
    ensures WellFormed(p.topo, p.cfg, r.0) && |r.0| == |vs|
  {
    var T := p.totalTime as real;
    PassKeeps(p.topo, p.cfg, vs, T);
    var ws := Pass(p.topo, p.cfg, vs, T, 0, Infinity, 0).0;
    var m := RunMeans(ws, p.totalTime);
    (ws, m.0, m.1)
  }

  /** After the last pass every node's statistics were flushed exactly at
      the run length and are non-negative, and Lq is at least 0 and at most
      L. */
  lemma CloseBounds(p: Setup, vs: seq<NodeState>)
    requires WellFormed(p.topo, p.cfg, vs) && p.totalTime > 0
    requires FlushedBy(vs, p.totalTime as real)
    ensures var (ws, l, lq) := Close(p, vs);
      && (forall j :: 0 <= j < |ws| ==> ws[j].stats.lastTick == p.totalTime as real)
      && FlushedBy(ws, p.totalTime as real)
      && 0.0 <= lq <= l
  {
    var T := p.totalTime as real;
    var ws := Pass(p.topo, p.cfg, vs, T, 0, Infinity, 0).0;
    assert Close(p, vs).0 == ws;
    PassFlushes(p.topo, p.cfg, vs, T);
    assert FlushedBy(ws, T);
    RunMeansBounds(ws, p.totalTime);
  }

  /** `cal` on values: the first arrival is drawn at time 0, the outer loop
      runs from tick 0, then the last pass. Yields the nodes, the arrival
      process, L and Lq. Every node's statistics were then flushed exactly at
      the run length and are non-negative, and Lq is at least 0 and at most
      L. */
  ghost function Run(p: Setup, vs: seq<NodeState>, s: Streams): (r: (seq<NodeState>, Streams, real, real))
    requires RunStart(p, vs)
    ensures Net(p, r.0) && |r.0| == |vs|
    ensures forall j :: 0 <= j < |r.0| ==> r.0[j].stats.lastTick == p.totalTime as real
    ensures FlushedBy(r.0, p.totalTime as real)
    ensures 0.0 <= r.3 <= r.2
  {
    var (s1, a1) := ArrivalNext(p.topo, p.gaps, s, 0.0);
    assert AllFrom(vs, PrevTick(0));
    var (vs2, s2) := RunFrom(p, vs, s1, a1, 0);
    RunFromFlushed(p, vs, s1, a1, 0);
    CloseBounds(p, vs2);
    var (vs3, l, lq) := Close(p, vs2);
    (vs3, s2, l, lq)
  }

  /** `Run` in terms of its parts: the loop from the first arrival, then
      `Close`; the loop leaves the statistics flushed by the run length. */
  lemma RunClose(p: Setup, vs: seq<NodeState>, s: Streams, s1: Streams, a1: real, vs2: seq<NodeState>, s2: Streams)
    requires RunStart(p, vs) && (s1, a1) == ArrivalNext(p.topo, p.gaps, s, 0.0)
    requires AllFrom(vs, PrevTick(0)) && (vs2, s2) == RunFrom(p, vs, s1, a1, 0)
    ensures Net(p, vs2) && FlushedBy(vs2, p.totalTime as real)
    ensures var c := Close(p, vs2); Run(p, vs, s) == (c.0, s2, c.1, c.2)
  {
    RunFromFlushed(p, vs, s1, a1, 0);
  }

  /** `clear` on every node. */
  function ClearAll(vs: seq<NodeState>): (ws: seq<NodeState>)
    ensures |ws| == |vs| && forall j :: 0 <= j < |vs| ==> ws[j] == Cleared(vs[j])
  {
    seq(|vs|, j requires 0 <= j < |vs| => Cleared(vs[j]))
  }

  /** `clear_cal`'s reset of the arrival process: the fan-out/fan-in
      network's streams are due at 0 again; the draws go on. */
  function ResetStreams(topo: Topology, s: Streams): (s': Streams)
    ensures s'.drawn == s.drawn
  {
    if topo.FanOutFanIn? then Streams(s.drawn, 0.0, 0.0) else s
  }

  /** A cleared network is drivable again and as a run needs it at its
      start. */
  lemma ClearedStart(p: Setup, vs: seq<NodeState>)
    requires Net(p, vs) && p.totalTime > 0
    ensures RunStart(p, ClearAll(vs))
  {
    var ws := ClearAll(vs);
    assert forall j :: 0 <= j < |ws| ==> ws[j].st == Station([], []);
  }

  /** One trial of `simulate` on values: `clear_cal`, then `cal`. */
  ghost function TrialRun(p: Setup, vs: seq<NodeState>, s: Streams): (r: (seq<NodeState>, Streams, real, real))
    requires Net(p, vs) && p.totalTime > 0
    ensures Net(p, r.0) && |r.0| == |vs|
    ensures 0.0 <= r.3 <= r.2
  {
    ClearedStart(p, vs);
    Run(p, ClearAll(vs), ResetStreams(p.topo, s))
  }

  /** `simulate` on values: `n` trials in a row, collecting each trial's L
      and Lq; every trial's Lq is at least 0 and at most its L. */
  ghost function Trials(p: Setup, vs: seq<NodeState>, s: Streams, n: nat): (r: (seq<NodeState>, Streams, seq<real>, seq<real>))
    requires Net(p, vs) && p.totalTime > 0
    ensures Net(p, r.0) && |r.2| == n && |r.3| == n
  {
    if n == 0 then (vs, s, [], [])
    else
      var r := Trials(p, vs, s, n - 1);
      var t := TrialRun(p, r.0, r.1);
      (t.0, t.1, r.2 + [t.2], r.3 + [t.3])
  }

  /** Every trial's Lq is at least 0 and at most its L: trial `k` of `n`. */
  lemma {:induction false} TrialsBounds(p: Setup, vs: seq<NodeState>, s: Streams, n: nat, k: nat)
    requires Net(p, vs) && p.totalTime > 0 && k < n
    ensures 0.0 <= Trials(p, vs, s, n).3[k] <= Trials(p, vs, s, n).2[k]
  {
    var r := Trials(p, vs, s, n - 1);
    var t := TrialRun(p, r.0, r.1);
    assert Trials(p, vs, s, n).2 == r.2 + [t.2] && Trials(p, vs, s, n).3 == r.3 + [t.3];
    if k < n - 1 {
      TrialsBounds(p, vs, s, n - 1, k);
    }
  }

  // ---------------------------------------------------------------------------
  // Conservation of customers over a run

  /** Nodes that agree on the first `m` places hold as many customers there. */
  lemma {:induction false} SumTotalPrefix(vs: seq<NodeState>, ws: seq<NodeState>, m: nat)
    requires m <= |vs| && m <= |ws| && forall k :: 0 <= k < m ==> vs[k] == ws[k]
    ensures SumTotal(vs, m) == SumTotal(ws, m)
    decreases m
  {
    if m > 0 {
      SumTotalPrefix(vs, ws, m - 1);
    }
  }

  /** Replacing node `j` changes the count by the difference of the two nodes. */
  lemma {:induction false} SumTotalSet(vs: seq<NodeState>, j: nat, v: NodeState, m: nat)
    requires j < m <= |vs|
    ensures SumTotal(vs[j := v], m) + Total(vs[j].st) == SumTotal(vs, m) + Total(v.st)
    decreases m
  {
    if j < m - 1 {
      SumTotalSet(vs, j, v, m - 1);
    } else {
      SumTotalPrefix(vs, vs[j := v], m - 1);
    }
  }

  /** A cleared network holds no customer. */
  lemma {:induction false} SumTotalCleared(vs: seq<NodeState>, m: nat)
    requires m <= |vs|
    ensures SumTotal(ClearAll(vs), m) == 0
    decreases m
  {
    if m > 0 {
      SumTotalCleared(vs, m - 1);
    }
  }

  /** The customers a round at `tick` takes in and lets out: those admitted
      to node 0 for the arrivals due by `tick`, and those leaving the
      network in its pass. */
  function RoundFlow(p: Setup, vs: seq<NodeState>, s: Streams, a: real, tick: int): (nat, nat)
    requires Net(p, vs) && (p.topo.FanOutFanIn? ==> a == MinReal(s.l1, s.l2))
  {
    var t := tick as real;
    (DueArrivals(p.topo, p.gaps, p.minGap, s, a, t).2, Pass(p.topo, p.cfg, vs, t, 0, Infinity, 0).2)
  }

  /** A round conserves customers: those inside afterwards plus those that
      left equal those inside before plus those admitted. */
  lemma RoundConserves(p: Setup, vs: seq<NodeState>, s: Streams, a: real, tick: int)
    requires Net(p, vs) && (p.topo.FanOutFanIn? ==> a == MinReal(s.l1, s.l2))
    ensures var f := RoundFlow(p, vs, s, a, tick);
      SumTotal(Round(p, vs, s, a, tick).0, |vs|) + f.1 == SumTotal(vs, |vs|) + f.0
  {
    var t := tick as real;
    var (vs1, ne, gone) := Pass(p.topo, p.cfg, vs, t, 0, Infinity, 0);
    var k := DueArrivals(p.topo, p.gaps, p.minGap, s, a, t).2;
    var c := p.cfg[0];
    var w := NodeEnqueue(c.cap, c.service, vs1[0], t, k);
    PassConserves(p.topo, p.cfg, vs, t);
    PassKeeps(p.topo, p.cfg, vs, t);
    NodeEnqueueSpec(c.cap, c.service, vs1[0], t, k);
    SumTotalSet(vs1, 0, w, |vs1|);
    assert Round(p, vs, s, a, tick).0 == vs1[0 := w];
  }

  /** The customers the outer loop of `cal` takes in and lets out from
      `tick` on, summed over its rounds. */
  ghost function RunFromFlow(p: Setup, vs: seq<NodeState>, s: Streams, a: real, tick: int): (nat, nat)
    requires RunReady(p, vs, s, a, tick)
    decreases RoundsLeft(p, vs, tick)
  {
    if tick >= p.totalTime then (0, 0)
    else
      RoundReady(p, vs, s, a, tick);
      var r := Round(p, vs, s, a, tick);
      var f := RoundFlow(p, vs, s, a, tick);
      var g := RunFromFlow(p, r.0, r.1, r.2, r.3);
      (f.0 + g.0, f.1 + g.1)
  }

  /** The outer loop conserves customers. */
  lemma {:induction false} RunFromConserves(p: Setup, vs: seq<NodeState>, s: Streams, a: real, tick: int)
    requires RunReady(p, vs, s, a, tick)
    ensures var f := RunFromFlow(p, vs, s, a, tick);
      SumTotal(RunFrom(p, vs, s, a, tick).0, |vs|) + f.1 == SumTotal(vs, |vs|) + f.0
    decreases RoundsLeft(p, vs, tick)
  {
    if tick < p.totalTime {
      RoundSpec(p, vs, s, a, tick);
      RunFromStep(p, vs, s, a, tick);
      RoundConserves(p, vs, s, a, tick);
      var r := Round(p, vs, s, a, tick);
      RunFromConserves(p, r.0, r.1, r.2, r.3);
    }
  }

  /** The customers a whole `cal` admits and lets out: those of the outer
      loop, and those leaving in the last pass at `totalTime`. */
  ghost function RunFlow(p: Setup, vs: seq<NodeState>, s: Streams): (nat, nat)
    requires RunStart(p, vs)
  {
    var (s1, a1) := ArrivalNext(p.topo, p.gaps, s, 0.0);
    assert AllFrom(vs, PrevTick(0));
    var f := RunFromFlow(p, vs, s1, a1, 0);
    var vs2 := RunFrom(p, vs, s1, a1, 0).0;
    (f.0, f.1 + Pass(p.topo, p.cfg, vs2, p.totalTime as real, 0, Infinity, 0).2)
  }

  /** `cal` conserves customers: those inside at the end plus those that
      left the network equal those inside at the start plus those admitted
      to node 0. */
  lemma RunConserves(p: Setup, vs: seq<NodeState>, s: Streams)
    requires RunStart(p, vs)
    ensures var f := RunFlow(p, vs, s);
      SumTotal(Run(p, vs, s).0, |vs|) + f.1 == SumTotal(vs, |vs|) + f.0
  {
    var (s1, a1) := ArrivalNext(p.topo, p.gaps, s, 0.0);
    assert AllFrom(vs, PrevTick(0));
    RunFromConserves(p, vs, s1, a1, 0);
    var vs2 := RunFrom(p, vs, s1, a1, 0).0;
    PassConserves(p.topo, p.cfg, vs2, p.totalTime as real);
    assert Run(p, vs, s).0 == Pass(p.topo, p.cfg, vs2, p.totalTime as real, 0, Infinity, 0).0;
  }

  /** In one trial of `simulate`, which starts from a cleared network, the
      customers admitted to node 0 are those that left the network plus
      those still inside at the end. */
  lemma TrialConserves(p: Setup, vs: seq<NodeState>, s: Streams)
    requires Net(p, vs) && p.totalTime > 0
    ensures (ClearedStart(p, vs);
      var f := RunFlow(p, ClearAll(vs), ResetStreams(p.topo, s));
      SumTotal(TrialRun(p, vs, s).0, |vs|) + f.1 == f.0)
  {
    ClearedStart(p, vs);
    RunConserves(p, ClearAll(vs), ResetStreams(p.topo, s));
    SumTotalCleared(vs, |vs|);
  }

  class Simulation {
    /** The nodes, in pass order. */
    const qs: seq<QueueModel>
    /** How departures are routed. */
    const topology: Topology
    /** Length of one run. */
    const totalTime: nat
    /** Number of runs. */
    const totalTry: nat
    /** The gaps between arrivals, in the order they are drawn. Stands in for
        the random variate. */
    const interArrival: nat -> Duration
    /** A positive lower bound on every gap. */
    const minGap: real
    /** How many gaps have been drawn so far. */
    var arrivalsDrawn: nat
    /** Next arrival of the first stream (fan-out/fan-in network only). */
    var l1: real
    /** Next arrival of the second stream (fan-out/fan-in network only). */
    var l2: real

    /** What each node is built with. */
    function Configs(): (cfg: seq<Config>)
      ensures |cfg| == |qs|
      ensures forall j :: 0 <= j < |qs| ==> cfg[j] == Config(qs[j].numCounters, qs[j].service)
    {
      seq(|qs|, j requires 0 <= j < |qs| => Config(qs[j].numCounters, qs[j].service))
    }

    /** Every node's state as a value. */
    function Snapshot(): (vs: seq<NodeState>)
      reads qs
      ensures |vs| == |qs|
      ensures forall j :: 0 <= j < |qs| ==> vs[j] == qs[j].Node()
    {
      seq(|qs|, j requires 0 <= j < |qs| reads qs => qs[j].Node())
    }

    /** The network's shape, distinct valid nodes, and the bounds the clock
        needs: a positive run length and gaps bounded away from zero. */
    ghost predicate Valid()
      reads this, qs
    {
      && |qs| >= 1
      && (topology.FanOutFanIn? ==> |qs| == 4)
      && (forall a, b :: 0 <= a < |qs| && 0 <= b < |qs| && a != b ==> qs[a] != qs[b])
      && (forall j :: 0 <= j < |qs| ==> qs[j].Valid())
      && totalTime > 0
      && Gaps(interArrival, minGap)
    }

    /** What a run of this simulation is made of. */
    function Params(): Setup
    {
      Setup(topology, Configs(), interArrival, minGap, totalTime)
    }

    /** The state of the arrival process as a value. */
    function ArrivalState(): Streams
      reads this`arrivalsDrawn, this`l1, this`l2
    {
      Streams(arrivalsDrawn, l1, l2)
    }

    /** The node values of a valid network form a network the clock can
        drive. */
    lemma ValidNetwork()
      requires Valid()
      ensures Net(Params(), Snapshot())
    {
    }

    /** A node's `next_ev` is that of its value. */
    lemma NextEvOf(j: nat)
      requires j < |qs|
      ensures qs[j].NextEv() == Head(Snapshot()[j].st)
    {
    }

    /** Node `i` ticks at `t`; the other nodes are untouched. */
    method TickNode(i: nat, t: real) returns (o: nat)
      requires Valid() && i < |qs|
      modifies qs[i]
      ensures Valid()
      ensures NodeTick(Configs()[i].cap, old(Snapshot())[i], t) == (Snapshot()[i], o)
      ensures Snapshot() == old(Snapshot())[i := Snapshot()[i]]
    {
      ghost var vs := Snapshot();
      ghost var v0 := qs[i].Node();
      assert Configs()[i].cap == qs[i].numCounters && vs[i] == v0;
      o := qs[i].Tick(t);
      ghost var v := qs[i].Node();
      forall j | 0 <= j < |qs| && j != i ensures qs[j].Node() == old(qs[j].Node()) && qs[j].Valid() {
        assert qs[j] != qs[i];
      }
      assert Snapshot() == vs[i := v];
    }

    /** `c` customers are admitted to node `j` at `t`; the other nodes are
        untouched. */
    method EnqueueNode(j: nat, t: real, c: nat)
      requires Valid() && j < |qs|
      modifies qs[j]
      ensures Valid()
      ensures Snapshot() == old(Snapshot())[j := NodeEnqueue(Configs()[j].cap, Configs()[j].service, old(Snapshot())[j], t, c)]
    {
      ghost var vs := Snapshot();
      qs[j].Enqueue(t, c);
      assert Snapshot() == vs[j := qs[j].Node()] by {
        forall k | 0 <= k < |qs| && k != j ensures qs[k].Node() == old(qs[k].Node()) {
          assert qs[k] != qs[j];
        }
      }
    }

    /** `tick` of the chain: every node ticks in order, and whoever leaves a
        node that has a successor is admitted there at once. Returns the
        folded `next_ev`. The pass is the one `Routing.Pass` describes. */
    method TickChain(t: real) returns (ne: ExtReal)
      requires Valid() && topology.Chain?
      modifies qs
      ensures Valid()
      ensures var (vs, e, _) := Pass(topology, Configs(), old(Snapshot()), t, 0, Infinity, 0);
        Snapshot() == vs && ne == e
    {
      ghost var vs0 := Snapshot();
      ghost var gone: nat := 0;
      ne := Infinity;
      for i := 0 to |qs|
        invariant Valid()
        invariant Pass(topology, Configs(), Snapshot(), t, i, ne, gone) == Pass(topology, Configs(), vs0, t, 0, Infinity, 0)
      {
        ghost var vs := Snapshot();
        ghost var (ne0, gone0) := (ne, gone);
        ne, gone := ChainTurn(i, t, ne, gone);
        PassStep(topology, Configs(), vs, t, i, ne0, gone0);
      }
    }

    /** Node `i`'s turn in the chain's `tick`. */
    method ChainTurn(i: nat, t: real, ne: ExtReal, ghost gone: nat) returns (ne': ExtReal, ghost gone': nat)
      requires Valid() && topology.Chain? && i < |qs|
      modifies qs
      ensures Valid()
      ensures Step(topology, Configs(), old(Snapshot()), t, i, ne, gone) == (Snapshot(), ne', gone')
    {
      ghost var vs := Snapshot();
      ne', gone' := ne, gone;
      var o := TickNode(i, t);
      ghost var vs1 := Snapshot();
      StepIs(topology, Configs(), vs, t, i, ne, gone, vs1[i], o);
      if o != 0 && |qs| > i + 1 {
        EnqueueNode(i + 1, t, o);
        NextEvOf(i + 1);
        ne' := Min(ne', qs[i + 1].NextEv());
        RouteForward(topology, Configs(), vs1, t, i, o, ne, gone);
      } else {
        gone' := gone' + o;
        RouteStays(topology, Configs(), vs1, t, i, o, ne, gone);
      }
      NextEvOf(i);
      ne' := Min(ne', qs[i].NextEv());
    }

    /** `tick` of the fan-out/fan-in network: node 0's departures go to
        whichever of nodes 1 and 2 has the shorter queue (node 1 on a tie),
        those of nodes 1 and 2 go to node 3, those of node 3 leave. */
    method TickFan(t: real) returns (ne: ExtReal)
      requires Valid() && topology.FanOutFanIn?
      modifies qs
      ensures Valid()
      ensures var (vs, e, _) := Pass(topology, Configs(), old(Snapshot()), t, 0, Infinity, 0);
        Snapshot() == vs && ne == e
    {
      ghost var vs0 := Snapshot();
      ghost var gone: nat := 0;
      ne := Infinity;
      for i := 0 to |qs|
        invariant Valid()
        invariant Pass(topology, Configs(), Snapshot(), t, i, ne, gone) == Pass(topology, Configs(), vs0, t, 0, Infinity, 0)
      {
        ghost var vs := Snapshot();
        ghost var (ne0, gone0) := (ne, gone);
        ne, gone := FanTurn(i, t, ne, gone);
        PassStep(topology, Configs(), vs, t, i, ne0, gone0);
      }
    }

    /** Node `i`'s turn in the fan-out/fan-in network's `tick`. */
    method FanTurn(i: nat, t: real, ne: ExtReal, ghost gone: nat) returns (ne': ExtReal, ghost gone': nat)
      requires Valid() && topology.FanOutFanIn? && i < |qs|
      modifies qs
      ensures Valid()
      ensures Step(topology, Configs(), old(Snapshot()), t, i, ne, gone) == (Snapshot(), ne', gone')
    {
      ghost var vs := Snapshot();
      ne', gone' := ne, gone;
      var o := TickNode(i, t);
      ghost var vs1 := Snapshot();
      StepIs(topology, Configs(), vs, t, i, ne, gone, vs1[i], o);
      if o != 0 {
        if i == 0 {
          var target := if qs[1].GetQl() > qs[2].GetQl() then 2 else 1;
          EnqueueNode(target, t, o);
          NextEvOf(target);
          ne' := Min(ne', qs[target].NextEv());
          RouteForward(topology, Configs(), vs1, t, i, o, ne, gone);
        } else if i != 3 {
          EnqueueNode(3, t, o);
          NextEvOf(3);
          ne' := Min(ne', qs[3].NextEv());
          RouteForward(topology, Configs(), vs1, t, i, o, ne, gone);
        } else {
          gone' := gone' + o;
          RouteStays(topology, Configs(), vs1, t, i, o, ne, gone);
        }
      } else {
        RouteStays(topology, Configs(), vs1, t, i, o, ne, gone);
      }
      NextEvOf(i);
      ne' := Min(ne', qs[i].NextEv());
    }

    /** One clock pass at `t`, for either network. */
    method Tick(t: real) returns (ne: ExtReal)
      requires Valid()
      modifies qs
      ensures Valid()
      ensures var (vs, e, _) := Pass(topology, Configs(), old(Snapshot()), t, 0, Infinity, 0);
        Snapshot() == vs && ne == e
    {
      if topology.Chain? {
        ne := TickChain(t);
      } else {
        ne := TickFan(t);
      }
    }

    /** `clear_cal`: every node is cleared (the draws go on), and the
        fan-out/fan-in network's two arrival streams are due at 0 again.
        Afterwards every node is as a run needs it at its start. */
    method ClearCal()
      requires Valid()
      modifies qs, this`l1, this`l2
      ensures Valid() && CleanStart(Snapshot())
      ensures Snapshot() == ClearAll(old(Snapshot()))
      ensures ArrivalState() == ResetStreams(topology, old(ArrivalState()))
    {
      for j := 0 to |qs|
        invariant Valid()
        invariant |Snapshot()| == |old(Snapshot())|
        invariant forall k :: 0 <= k < j ==> Snapshot()[k] == Cleared(old(Snapshot())[k])
        invariant forall k :: j <= k < |qs| ==> Snapshot()[k] == old(Snapshot())[k]
        invariant l1 == old(l1) && l2 == old(l2)
      {
        ClearNode(j);
      }
      if topology.FanOutFanIn? {
        l1 := 0.0;
        l2 := 0.0;
      }
    }

    /** Node `j` is cleared; the other nodes are untouched. */
    method ClearNode(j: nat)
      requires Valid() && j < |qs|
      modifies qs[j]
      ensures Valid()
      ensures Snapshot() == old(Snapshot())[j := Cleared(old(Snapshot())[j])]
    {
      ghost var vs := Snapshot();
      qs[j].Clear();
      assert Snapshot() == vs[j := qs[j].Node()] by {
        forall k | 0 <= k < |qs| && k != j ensures qs[k].Node() == old(qs[k].Node()) {
          assert qs[k] != qs[j];
        }
      }
    }

    /** `next_arrival` of the single-stream network: the next arrival
        follows `t` by the next drawn gap. */
    method NextArrivalChain(t: real) returns (a: real)
      requires Valid()
      modifies this`arrivalsDrawn
      ensures arrivalsDrawn == old(arrivalsDrawn) + 1
      ensures a == t + interArrival(old(arrivalsDrawn)) && a >= t + minGap
    {
      a := t + interArrival(arrivalsDrawn);
      arrivalsDrawn := arrivalsDrawn + 1;
    }

    /** `next_arrival` of the fan-out/fan-in network: the first stream due
        by `t` (the first one on a tie) is renewed from `t`, and the earlier
        of the two streams is the next arrival. */
    method NextArrivalFan(t: real) returns (a: real)
      requires Valid()
      modifies this`arrivalsDrawn, this`l1, this`l2
      ensures old(l1) <= t ==>
        l1 == t + interArrival(old(arrivalsDrawn)) && l2 == old(l2) && arrivalsDrawn == old(arrivalsDrawn) + 1
      ensures t < old(l1) && old(l2) <= t ==>
        l2 == t + interArrival(old(arrivalsDrawn)) && l1 == old(l1) && arrivalsDrawn == old(arrivalsDrawn) + 1
      ensures t < old(l1) && t < old(l2) ==>
        l1 == old(l1) && l2 == old(l2) && arrivalsDrawn == old(arrivalsDrawn)
      ensures a == MinReal(l1, l2)
    {
      if l1 <= t {
        l1 := t + interArrival(arrivalsDrawn);
        arrivalsDrawn := arrivalsDrawn + 1;
      } else if l2 <= t {
        l2 := t + interArrival(arrivalsDrawn);
        arrivalsDrawn := arrivalsDrawn + 1;
      }
      a := MinReal(l1, l2);
    }

    /** `next_arrival`, for either network. */
    method NextArrival(t: real) returns (a: real)
      requires Valid()
      modifies this`arrivalsDrawn, this`l1, this`l2
      ensures (ArrivalState(), a) == ArrivalNext(topology, interArrival, old(ArrivalState()), t)
    {
      if topology.Chain? {
        a := NextArrivalChain(t);
      } else {
        a := NextArrivalFan(t);
      }
    }

    /** The inner loop of `cal`: while the next arrival is due by `tick`, one
        customer is admitted to node 0 at `tick`, node 0's `next_ev` is folded
        into `ne`, and the next arrival is drawn from the one just admitted.
        Returns the first arrival after `tick`, the folded time, and (ghost)
        how many customers were admitted; all of it is as `DueArrivals`
        describes. */
    method AdmitArrivals(tick: real, arrival: real, ne: ExtReal) returns (arrival': real, ne': ExtReal, ghost k: nat)
      requires Valid()
      requires topology.FanOutFanIn? ==> arrival == MinReal(l1, l2)
      modifies qs[0], this`arrivalsDrawn, this`l1, this`l2
      ensures Valid()
      ensures (ArrivalState(), arrival', k) == DueArrivals(topology, interArrival, minGap, old(ArrivalState()), arrival, tick)
      ensures Snapshot() == old(Snapshot())[0 := NodeEnqueue(Configs()[0].cap, Configs()[0].service, old(Snapshot())[0], tick, k)]
      ensures ne' == if k == 0 then ne else Min(ne, Head(Snapshot()[0].st))
    {
      ghost var vs0 := Snapshot();
      ghost var cap, service := Configs()[0].cap, Configs()[0].service;
      ghost var R := DueArrivals(topology, interArrival, minGap, ArrivalState(), arrival, tick);
      arrival', ne', k := arrival, ne, 0;
      assert vs0 == vs0[0 := NodeEnqueue(cap, service, vs0[0], tick, 0)];
      while tick >= arrival'
        invariant Valid()
        invariant topology.FanOutFanIn? ==> arrival' == MinReal(l1, l2)
        invariant var r := DueArrivals(topology, interArrival, minGap, ArrivalState(), arrival', tick);
          r.0 == R.0 && r.1 == R.1 && r.2 + k == R.2
        invariant Snapshot() == vs0[0 := NodeEnqueue(cap, service, vs0[0], tick, k)]
        invariant ne' == if k == 0 then ne else Min(ne, Head(Snapshot()[0].st))
        decreases R.2 - k
      {
        arrival', ne' := AdmitDue(tick, arrival', ne, ne', vs0, k);
        k := k + 1;
      }
      ghost var r := DueArrivals(topology, interArrival, minGap, ArrivalState(), arrival', tick);
      assert r.2 == 0 && r.0 == ArrivalState() && r.1 == arrival';
      assert R.0 == ArrivalState() && R.1 == arrival' && R.2 == k;
    }

    /** The `k + 1`-th round of `AdmitArrivals`' loop, for an arrival `a` due
        by `tick`: one arrival fewer is left to admit, with the same outcome,
        and the admissions and the folded time extend to `k + 1`. */
    method AdmitDue(tick: real, a: real, ne: ExtReal, cur: ExtReal, ghost vs0: seq<NodeState>, ghost k: nat)
      returns (a': real, cur': ExtReal)
      requires Valid() && a <= tick && |vs0| == |qs|
      requires topology.FanOutFanIn? ==> a == MinReal(l1, l2)
      requires Snapshot() == vs0[0 := NodeEnqueue(Configs()[0].cap, Configs()[0].service, vs0[0], tick, k)]
      requires cur == if k == 0 then ne else Min(ne, Head(Snapshot()[0].st))
      modifies qs[0], this`arrivalsDrawn, this`l1, this`l2
      ensures Valid()
      ensures topology.FanOutFanIn? ==> a' == MinReal(l1, l2)
      ensures var r := DueArrivals(topology, interArrival, minGap, ArrivalState(), a', tick);
        var R := DueArrivals(topology, interArrival, minGap, old(ArrivalState()), a, tick);
        r.0 == R.0 && r.1 == R.1 && r.2 + 1 == R.2
      ensures Snapshot() == vs0[0 := NodeEnqueue(Configs()[0].cap, Configs()[0].service, vs0[0], tick, k + 1)]
      ensures cur' == Min(ne, Head(Snapshot()[0].st))
    {
      ghost var vs := Snapshot();
      DueArrivalsStep(topology, interArrival, minGap, ArrivalState(), a, tick);
      a', cur' := ArrivalTurn(tick, a, cur);
      EnqueueOneMore(Configs()[0], vs0, tick, k, vs, Snapshot());
      if k > 0 {
        MinFold(ne, Head(vs[0].st), Head(Snapshot()[0].st));
      }
    }

    /** One round of `cal`'s inner loop: one customer joins node 0 at `tick`,
        node 0's `next_ev` is folded into `ne`, and the next arrival is drawn
        from `a`. */
    method ArrivalTurn(tick: real, a: real, ne: ExtReal) returns (a': real, ne': ExtReal)
      requires Valid()
      modifies qs[0], this`arrivalsDrawn, this`l1, this`l2
      ensures Valid()
      ensures (ArrivalState(), a') == ArrivalNext(topology, interArrival, old(ArrivalState()), a)
      ensures Snapshot() == old(Snapshot())[0 := NodeEnqueue(Configs()[0].cap, Configs()[0].service, old(Snapshot())[0], tick, 1)]
      ensures ne' == Min(ne, Head(Snapshot()[0].st))
      ensures Le(Head(Snapshot()[0].st), Head(old(Snapshot())[0].st))
    {
      ne' := AdmitOne(tick, ne);
      a' := NextArrival(a);
    }

    /** One customer joins node 0 at `tick`, and node 0's `next_ev`, which
        cannot get later, is folded into `ne`. */
    method AdmitOne(tick: real, ne: ExtReal) returns (ne': ExtReal)
      requires Valid()
      modifies qs[0]
      ensures Valid()
      ensures Snapshot() == old(Snapshot())[0 := NodeEnqueue(Configs()[0].cap, Configs()[0].service, old(Snapshot())[0], tick, 1)]
      ensures ne' == Min(ne, Head(Snapshot()[0].st))
      ensures Le(Head(Snapshot()[0].st), Head(old(Snapshot())[0].st))
    {
      ghost var v := Snapshot()[0];
      EnqueueNode(0, tick, 1);
      HeadEnqueueDrops(Configs()[0].cap, Configs()[0].service, v, tick);
      NextEvOf(0);
      ne' := Min(ne, qs[0].NextEv());
    }

    /** `cal`: one run from time 0 to `totalTime`, as `Run` describes. The
        clock jumps from event to event: after each pass it moves to one past
        the integer part of the earliest pending completion or arrival. A last
        pass at `totalTime` flushes every node's statistics at `totalTime`; L
        sums both integrals over all nodes and Lq the queue integrals, each
        divided by `totalTime`. */
    method Cal() returns (l: real, lq: real)
      requires Valid() && CleanStart(Snapshot())
      modifies qs, this`arrivalsDrawn, this`l1, this`l2
      ensures Valid()
      ensures (Snapshot(), ArrivalState(), l, lq) == Run(Params(), old(Snapshot()), old(ArrivalState()))
      ensures forall j :: 0 <= j < |qs| ==> Snapshot()[j].stats.lastTick == totalTime as real
      ensures 0.0 <= lq <= l
    {
      ghost var p, vs0, s0 := Params(), Snapshot(), ArrivalState();
      ValidNetwork();
      var arrival := NextArrival(0.0);
      ghost var s1 := ArrivalState();
      assert Snapshot() == vs0;
      RunClock(arrival);
      ghost var vs2, s2 := Snapshot(), ArrivalState();
      RunClose(p, vs0, s0, s1, arrival, vs2, s2);
      l, lq := Conclude();
      assert ArrivalState() == s2;
    }

    /** The end of `cal` after its main loop: the last pass at `totalTime`
        and the averages, as `Close` describes; every node's statistics
        are then flushed exactly at `totalTime`, and Lq is at least 0 and
        at most L. */
    method Conclude() returns (l: real, lq: real)
      requires Valid() && FlushedBy(Snapshot(), totalTime as real)
      modifies qs
      ensures Valid()
      ensures (Snapshot(), l, lq) == Close(Params(), old(Snapshot()))
      ensures forall j :: 0 <= j < |qs| ==> Snapshot()[j].stats.lastTick == totalTime as real
      ensures 0.0 <= lq <= l
    {
      ghost var p, vs := Params(), Snapshot();
      ValidNetwork();
      CloseBounds(p, vs);
      Finish();
      l, lq := Averages();
      ghost var c := Close(p, vs);
      assert c.0 == Snapshot() && p.totalTime == totalTime;
      assert (c.1, c.2) == RunMeans(c.0, p.totalTime);
    }

    /** The main loop of `cal`, from tick 0 while the clock is before
        `totalTime`, as `RunFrom` describes; it ends. */
    method RunClock(arrival: real)
      requires Valid() && RunReady(Params(), Snapshot(), ArrivalState(), arrival, 0)
      modifies qs, this`arrivalsDrawn, this`l1, this`l2
      ensures Valid()
      ensures (Snapshot(), ArrivalState()) == RunFrom(Params(), old(Snapshot()), old(ArrivalState()), arrival, 0)
    {
      ghost var R := RunFrom(Params(), Snapshot(), ArrivalState(), arrival, 0);
      var tick: int := 0;
      var a := arrival;
      while tick < totalTime
        invariant Valid()
        invariant RunReady(Params(), Snapshot(), ArrivalState(), a, tick)
        invariant RunFrom(Params(), Snapshot(), ArrivalState(), a, tick) == R
        decreases RoundsLeft(Params(), Snapshot(), tick)
      {
        tick, a := ClockStep(tick, a);
      }
      RunFromDone(Params(), Snapshot(), ArrivalState(), a, tick);
      assert R == (Snapshot(), ArrivalState());
      assert R == RunFrom(Params(), old(Snapshot()), old(ArrivalState()), arrival, 0);
    }

    /** One round of the main loop of `cal`, before `totalTime`: the rest of
        the loop is the same from the new tick, the clock never goes back,
        and it moves on unless some completion before `tick` was still
        pending. */
    method ClockStep(tick: int, a: real) returns (tick': int, a': real)
      requires Valid() && RunReady(Params(), Snapshot(), ArrivalState(), a, tick) && tick < totalTime
      modifies qs, this`arrivalsDrawn, this`l1, this`l2
      ensures Valid() && RunReady(Params(), Snapshot(), ArrivalState(), a', tick')
      ensures RunFrom(Params(), Snapshot(), ArrivalState(), a', tick') == RunFrom(Params(), old(Snapshot()), old(ArrivalState()), a, tick)
      ensures tick <= tick' && (old(AllFrom(Snapshot(), tick as real)) ==> tick < tick')
      ensures AllFrom(Snapshot(), tick as real)
      ensures RoundsLeft(Params(), Snapshot(), tick') < old(RoundsLeft(Params(), Snapshot(), tick))
    {
      RunFromStep(Params(), Snapshot(), ArrivalState(), a, tick);
      tick', a' := CalRound(tick, a);
    }

    /** `simulate`: `totalTry` runs in a row, each from a cleared network,
        collecting every run's L and Lq, as `Trials` describes; each run's Lq
        is at least 0 and at most its L. */
    method Simulate() returns (ls: seq<real>, lqs: seq<real>)
      requires Valid()
      modifies qs, this`arrivalsDrawn, this`l1, this`l2
      ensures Valid()
      ensures (Snapshot(), ArrivalState(), ls, lqs) == Trials(Params(), old(Snapshot()), old(ArrivalState()), totalTry)
      ensures forall k :: 0 <= k < totalTry ==> 0.0 <= lqs[k] <= ls[k]
    {
      ghost var vs0, s0 := Snapshot(), ArrivalState();
      ValidNetwork();
      ls, lqs := [], [];
      for i := 0 to totalTry
        invariant Valid()
        invariant (Snapshot(), ArrivalState(), ls, lqs) == Trials(Params(), vs0, s0, i)
      {
        var l, lq := Trial();
        ls, lqs := ls + [l], lqs + [lq];
      }
      forall k | 0 <= k < totalTry ensures 0.0 <= lqs[k] <= ls[k] {
        TrialsBounds(Params(), vs0, s0, totalTry, k);
      }
    }

    /** One trial of `simulate`: `clear_cal`, then `cal`, as `TrialRun`
        describes. */
    method Trial() returns (l: real, lq: real)
      requires Valid()
      modifies qs, this`arrivalsDrawn, this`l1, this`l2
      ensures Valid()
      ensures (Snapshot(), ArrivalState(), l, lq) == TrialRun(Params(), old(Snapshot()), old(ArrivalState()))
    {
      ClearCal();
      l, lq := Cal();
    }

    /** The end of `cal`: L is the sum over the nodes of both integrals, Lq
        the sum of the queue integrals, each averaged over the run. */
    method Averages() returns (l: real, lq: real)
      requires totalTime > 0 && FlushedBy(Snapshot(), totalTime as real)
      ensures (l, lq) == RunMeans(Snapshot(), totalTime)
      ensures 0.0 <= lq <= l
    {
      var totalLc, totalLq := Totals();
      RunMeansBounds(Snapshot(), totalTime);
      l := Mean(totalLc + totalLq, totalTime);
      lq := Mean(totalLq, totalTime);
    }

    /** The last pass of `cal`, at `totalTime`. */
    method Finish()
      requires Valid()
      modifies qs
      ensures Valid()
      ensures Snapshot() == Close(Params(), old(Snapshot())).0
    {
      ValidNetwork();
      var _ := Tick(totalTime as real);
    }

    /** The sums of `getTotalLc` and of `getTotalLq` over the nodes. */
    method Totals() returns (totalLc: real, totalLq: real)
      ensures totalLc == SumLc(Snapshot(), |qs|) && totalLq == SumLq(Snapshot(), |qs|)
    {
      totalLc, totalLq := 0.0, 0.0;
      for j := 0 to |qs|
        invariant totalLc == SumLc(Snapshot(), j) && totalLq == SumLq(Snapshot(), j)
      {
        totalLc := totalLc + qs[j].lc;
        totalLq := totalLq + qs[j].lq;
      }
    }

    /** One round of `cal`'s outer loop at `tick`, as `Round` describes: a
        pass, the arrivals due, and the clock rule. */
    method CalRound(tick: int, arrival: real) returns (tick': int, arrival': real)
      requires Valid()
      requires topology.FanOutFanIn? ==> arrival == MinReal(l1, l2)
      modifies qs, this`arrivalsDrawn, this`l1, this`l2
      ensures Valid()
      ensures (Snapshot(), ArrivalState(), arrival', tick') == Round(Params(), old(Snapshot()), old(ArrivalState()), arrival, tick)
    {
      ValidNetwork();
      ghost var p, vs0, s0, t := Params(), Snapshot(), ArrivalState(), tick as real;
      var ne := Tick(tick as real);
      ghost var P := Pass(p.topo, p.cfg, vs0, t, 0, Infinity, 0);
      assert Snapshot() == P.0 && ne == P.1;
      var ne';
      ghost var k;
      arrival', ne', k := AdmitArrivals(tick as real, arrival, ne);
      assert (ArrivalState(), arrival', k) == DueArrivals(p.topo, p.gaps, p.minGap, s0, arrival, t);
      assert Snapshot() == P.0[0 := NodeEnqueue(p.cfg[0].cap, p.cfg[0].service, P.0[0], t, k)];
      var m := Min(ne', Finite(arrival'));
      tick' := Trunc(m.v) + 1;
      assert tick' == NextClock(ne', arrival');
    }

    /** A chain over the given nodes, with the default run length and
        number of runs. */
    constructor Chain(nodes: seq<QueueModel>, interArrival: nat -> Duration, minGap: real)
      requires |nodes| >= 1 && forall a, b :: 0 <= a < |nodes| && 0 <= b < |nodes| && a != b ==> nodes[a] != nodes[b]
      requires forall j :: 0 <= j < |nodes| ==> nodes[j].Valid()
      requires minGap > 0.0 && forall k :: interArrival(k) >= minGap
      ensures Valid()
      ensures qs == nodes && topology == Topology.Chain
      ensures totalTime == TotalTime && totalTry == TotalTry
      ensures arrivalsDrawn == 0 && l1 == 0.0 && l2 == 0.0
    {
      qs := nodes;
      topology := Topology.Chain;
      totalTime := TotalTime;
      totalTry := TotalTry;
      this.interArrival := interArrival;
      this.minGap := minGap;
      arrivalsDrawn := 0;
      l1 := 0.0;
      l2 := 0.0;
    }

    /** The fan-out/fan-in network: four fresh single-counter nodes drawing
        from the given service streams, both arrival streams due at 0. */
    constructor FanOutFanIn(services: seq<nat -> Duration>, interArrival: nat -> Duration, minGap: real)
      requires |services| == 4
      requires minGap > 0.0 && forall k :: interArrival(k) >= minGap
      ensures Valid() && topology == Topology.FanOutFanIn
      ensures |qs| == 4 && fresh(qs[0]) && fresh(qs[1]) && fresh(qs[2]) && fresh(qs[3])
      ensures totalTime == TotalTime && totalTry == TotalTry
      ensures forall j :: 0 <= j < 4 ==>
        && qs[j].numCounters == 1 && qs[j].service == services[j]
        && qs[j].Node() == NodeState(Station([], []), 0, Stats(0.0, 0.0, 0, 0, 0.0))
      ensures arrivalsDrawn == 0 && l1 == 0.0 && l2 == 0.0
    {
      var nodes := NewSingleCounterNodes(services);
      qs := nodes;
      topology := Topology.FanOutFanIn;
      totalTime := TotalTime;
      totalTry := TotalTry;
      this.interArrival := interArrival;
      this.minGap := minGap;
      arrivalsDrawn := 0;
      l1 := 0.0;
      l2 := 0.0;
    }
  }

  /** One fresh single-counter node per service stream, in order. */
  method NewSingleCounterNodes(services: seq<nat -> Duration>) returns (nodes: seq<QueueModel>)
    ensures |nodes| == |services|
    ensures forall a, b :: 0 <= a < |nodes| && 0 <= b < |nodes| && a != b ==> nodes[a] != nodes[b]
    ensures forall j :: 0 <= j < |nodes| ==>
      && fresh(nodes[j]) && nodes[j].Valid()
      && nodes[j].numCounters == 1 && nodes[j].service == services[j]
      && nodes[j].Node() == NodeState(Station([], []), 0, Stats(0.0, 0.0, 0, 0, 0.0))
  {
    nodes := [];
    for j := 0 to |services|
      invariant |nodes| == j
      invariant forall a, b :: 0 <= a < j && 0 <= b < j && a != b ==> nodes[a] != nodes[b]
      invariant forall k :: 0 <= k < j ==>
        && fresh(nodes[k]) && nodes[k].Valid()
        && nodes[k].numCounters == 1 && nodes[k].service == services[k]
        && nodes[k].Node() == NodeState(Station([], []), 0, Stats(0.0, 0.0, 0, 0, 0.0))
    {
      var q := new QueueModel(1, services[j]);
      nodes := nodes + [q];
    }
  }
}
