/** The arrival process of `cal`, as a function on values. The chain has one
    stream: each arrival follows the previous one by the next drawn gap. The
    fan-out/fan-in network superposes two streams `l1` and `l2`: asked at
    `t`, it renews the first stream that is due by `t` (the first one on a
    tie) from `t`, and reports the earlier of the two. The gaps are the
    successive values of a fixed sequence `gaps`, of which `drawn` have been
    used. */
module Arrivals {
  import opened Times
  import opened Routing

  /** The state of the arrival process: how many gaps have been drawn, and
      the next arrival of each of the two streams of the fan-out/fan-in
      network (unused by the chain). */
  datatype Streams = Streams(drawn: nat, l1: real, l2: real)

  /** Every gap is at least `minGap`, a positive bound. */
  ghost predicate Gaps(gaps: nat -> Duration, minGap: real)
  {
    minGap > 0.0 && forall k :: gaps(k) >= minGap
  }

  /** `next_arrival(t)`: the new state of the process and the next arrival. */
  function ArrivalNext(topo: Topology, gaps: nat -> Duration, s: Streams, t: real): (r: (Streams, real))
  {
    match topo
    case Chain => (Streams(s.drawn + 1, s.l1, s.l2), t + gaps(s.drawn))
    case FanOutFanIn =>
      var s' :=
        if s.l1 <= t then Streams(s.drawn + 1, t + gaps(s.drawn), s.l2)
        else if s.l2 <= t then Streams(s.drawn + 1, s.l1, t + gaps(s.drawn))
        else s;
      (s', MinReal(s'.l1, s'.l2))
  }

  /** The chain's next arrival is at least `minGap` after `t`. In the
      fan-out/fan-in network a gap is drawn exactly when one of the streams
      is due by `t`; the stream renewed is then at least `minGap` after `t`,
      the other is untouched, and the answer is always the earlier stream. */
  lemma ArrivalNextSpec(topo: Topology, gaps: nat -> Duration, minGap: real, s: Streams, t: real)
    requires Gaps(gaps, minGap)
    ensures var (s', a) := ArrivalNext(topo, gaps, s, t);
      && (topo.Chain? ==> s'.drawn == s.drawn + 1 && a >= t + minGap && s'.l1 == s.l1 && s'.l2 == s.l2)
      && (topo.FanOutFanIn? ==>
            && a == MinReal(s'.l1, s'.l2)
            && (s'.drawn == s.drawn + 1 <==> s.l1 <= t || s.l2 <= t)
            && (s'.drawn == s.drawn <==> t < s.l1 && t < s.l2)
            && (s.l1 <= t ==> s'.l1 >= t + minGap && s'.l2 == s.l2)
            && (t < s.l1 && s.l2 <= t ==> s'.l2 >= t + minGap && s'.l1 == s.l1)
            && (t < s.l1 && t < s.l2 ==> s' == s))
  {
    assert gaps(s.drawn) >= minGap;
  }

  /** How many more arrivals a stream whose next arrival is `x` can deliver
      up to `tick`, when consecutive arrivals are at least `gap` apart. */
  function Due(x: real, tick: real, gap: real): nat
    requires gap > 0.0
  {
    if x > tick then 0
    else
      var q := (tick - x) / gap;
      assert q >= 0.0;
      q.Floor + 1
  }

  /** Division by a positive number keeps the order. */
  lemma DivMono(a: real, b: real, g: real)
    requires a <= b && g > 0.0
    ensures a / g <= b / g
  {
    assert b / g - a / g == (b - a) / g;
  }

  /** Moving the numerator back by the divisor lowers the quotient by one. */
  lemma DivShift(a: real, g: real)
    requires g > 0.0
    ensures (a - g) / g == a / g - 1.0
  {
    assert (a - g) / g == a / g - g / g;
    assert g / g == 1.0;
  }

  /** A stream that moves on by at least `gap` has fewer arrivals due. */
  lemma DueDrops(x: real, x': real, tick: real, gap: real)
    requires gap > 0.0 && x <= tick && x' >= x + gap
    ensures Due(x', tick, gap) < Due(x, tick, gap)
  {
    if x' <= tick {
      var q := (tick - x) / gap;
      var q' := (tick - x') / gap;
      DivMono(tick - x', (tick - x) - gap, gap);
      DivShift(tick - x, gap);
      assert q' <= q - 1.0;
      assert q'.Floor <= (q - 1.0).Floor;
      assert (q - 1.0).Floor == q.Floor - 1;
    }
  }

  /** The arrivals still due by `tick`: of the one stream of the chain, of
      both streams of the fan-out/fan-in network. */
  function Pending(topo: Topology, s: Streams, a: real, tick: real, gap: real): nat
    requires gap > 0.0
  {
    if topo.Chain? then Due(a, tick, gap) else Due(s.l1, tick, gap) + Due(s.l2, tick, gap)
  }

  /** Drawing the next arrival from an arrival `a` due by `tick` leaves
      fewer arrivals due. */
  lemma DrawLowers(topo: Topology, gaps: nat -> Duration, minGap: real, s: Streams, a: real, tick: real)
    requires Gaps(gaps, minGap) && a <= tick
    requires topo.FanOutFanIn? ==> a == MinReal(s.l1, s.l2)
    ensures var (s', a') := ArrivalNext(topo, gaps, s, a);
      Pending(topo, s', a', tick, minGap) < Pending(topo, s, a, tick, minGap)
  {
    var (s', a') := ArrivalNext(topo, gaps, s, a);
    assert gaps(s.drawn) >= minGap;
    if topo.Chain? {
      DueDrops(a, a', tick, minGap);
    } else if s.l1 <= a {
      DueDrops(s.l1, s'.l1, tick, minGap);
    } else {
      DueDrops(s.l2, s'.l2, tick, minGap);
    }
  }

  /** The inner loop of `cal` on values: while the next arrival `a` is due
      by `tick`, one customer is admitted and the next arrival is drawn from
      `a`. Yields the final state of the process, the first arrival after
      `tick` and the number of customers admitted, which is the number of
      gaps drawn. */
  function DueArrivals(topo: Topology, gaps: nat -> Duration, minGap: real, s: Streams, a: real, tick: real)
    : (r: (Streams, real, nat))
    requires Gaps(gaps, minGap)
    requires topo.FanOutFanIn? ==> a == MinReal(s.l1, s.l2)
    ensures r.1 > tick
    ensures r.0.drawn == s.drawn + r.2
    ensures r.2 == 0 <==> a > tick
    ensures r.2 == 0 ==> r.0 == s && r.1 == a
    ensures topo.FanOutFanIn? ==> r.1 == MinReal(r.0.l1, r.0.l2) && r.0.l1 > tick && r.0.l2 > tick
    ensures topo.Chain? ==> r.0.l1 == s.l1 && r.0.l2 == s.l2
    decreases Pending(topo, s, a, tick, minGap)
  {
    if a > tick then (s, a, 0)
    else
      var (s', a') := ArrivalNext(topo, gaps, s, a);
      DrawLowers(topo, gaps, minGap, s, a, tick);
      var (s'', a'', k) := DueArrivals(topo, gaps, minGap, s', a', tick);
      (s'', a'', k + 1)
  }

  /** One round of the inner loop: drawing from an arrival `a` due by `tick`
      keeps the fan-out/fan-in invariant, and leaves one arrival fewer to
      admit with the same outcome. */
  lemma DueArrivalsStep(topo: Topology, gaps: nat -> Duration, minGap: real, s: Streams, a: real, tick: real)
    requires Gaps(gaps, minGap) && a <= tick
    requires topo.FanOutFanIn? ==> a == MinReal(s.l1, s.l2)
    ensures var (s', a') := ArrivalNext(topo, gaps, s, a);
      && (topo.FanOutFanIn? ==> a' == MinReal(s'.l1, s'.l2))
      && var r := DueArrivals(topo, gaps, minGap, s', a', tick);
         var R := DueArrivals(topo, gaps, minGap, s, a, tick);
         r.0 == R.0 && r.1 == R.1 && r.2 + 1 == R.2
  {
  }

  /** The chain's arrival times from `a` on, drawing from gap number `d`:
      the `i`-th later arrival adds the next `i` gaps. */
  function ChainTimes(gaps: nat -> Duration, d: nat, a: real, i: nat): real
    decreases i
  {
    if i == 0 then a else ChainTimes(gaps, d + 1, a + gaps(d), i - 1)
  }

  /** In the chain the loop admits exactly the arrivals due by `tick`: the
      `k` arrivals `a`, `a + gap`, ... up to `tick`, one customer each,
      stopping at the first arrival after `tick`. */
  lemma {:induction false} DueArrivalsChain(gaps: nat -> Duration, minGap: real, s: Streams, a: real, tick: real)
    requires Gaps(gaps, minGap)
    ensures var (s', a', k) := DueArrivals(Chain, gaps, minGap, s, a, tick);
      && a' == ChainTimes(gaps, s.drawn, a, k)
      && (forall i :: 0 <= i < k ==> ChainTimes(gaps, s.drawn, a, i) <= tick)
      && s' == Streams(s.drawn + k, s.l1, s.l2)
    decreases Due(a, tick, minGap)
  {
    if a <= tick {
      var s1 := Streams(s.drawn + 1, s.l1, s.l2);
      var a1 := a + gaps(s.drawn);
      assert gaps(s.drawn) >= minGap;
      DueDrops(a, a1, tick, minGap);
      DueArrivalsChain(gaps, minGap, s1, a1, tick);
      var (s', a', k) := DueArrivals(Chain, gaps, minGap, s, a, tick);
      assert (s', a', k - 1) == DueArrivals(Chain, gaps, minGap, s1, a1, tick);
      forall i | 0 <= i < k ensures ChainTimes(gaps, s.drawn, a, i) <= tick {
        if i > 0 {
          assert ChainTimes(gaps, s.drawn, a, i) == ChainTimes(gaps, s1.drawn, a1, i - 1);
        }
      }
    }
  }
}
