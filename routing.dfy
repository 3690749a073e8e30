/** One pass of the simulation clock over a network of nodes, as a function
    on node values. At time `t` the nodes are visited in index order; each
    node ticks, and the customers that left it are admitted, in one batch and
    at the same `t`, into the node the topology routes them to, before that
    node ticks in turn. The pass also folds every node's `next_ev` into a
    running minimum, and counts the customers that leave the network. */
module Routing {
  import opened Times
  import opened Bisect
  import opened Occupancy
  import opened Queueing

  /** `Chain`: node `i` feeds node `i + 1`, the last node feeds nobody.
      `FanOutFanIn`: four nodes; node 0 feeds whichever of nodes 1 and 2 has
      the shorter queue, nodes 1 and 2 feed node 3, node 3 feeds nobody. */
  datatype Topology = Chain | FanOutFanIn

  datatype Option<T> = None | Some(value: T)

  /** What a node is built with: its number of counters and its stream of
      service durations. */
  datatype Config = Config(cap: nat, service: nat -> Duration)

  /** The sizes agree and the fan-out topology has its four nodes. */
  predicate Shape(topo: Topology, cfg: seq<Config>, vs: seq<NodeState>)
  {
    |cfg| == |vs| && (topo.FanOutFanIn? ==> |vs| == 4)
  }

  /** `Shape`, and every node satisfies the node invariant. */
  predicate WellFormed(topo: Topology, cfg: seq<Config>, vs: seq<NodeState>)
  {
    Shape(topo, cfg, vs) && forall j :: 0 <= j < |vs| ==> Inv(vs[j].st, cfg[j].cap)
  }

  /** No pending completion in any node lies before `x`. */
  predicate AllFrom(vs: seq<NodeState>, x: real)
  {
    forall j :: 0 <= j < |vs| ==> NoneBefore(vs[j].st.counters, x)
  }

  /** The node that receives the customers leaving node `i`, if any. In the
      fan-out topology the choice for node 0 compares the current queue
      lengths of nodes 1 and 2, ties going to node 1. Routing only ever goes
      forward. */
  function Dest(topo: Topology, vs: seq<NodeState>, i: nat): (d: Option<nat>)
    requires i < |vs| && (topo.FanOutFanIn? ==> |vs| == 4)
    ensures d.Some? ==> i < d.value < |vs|
  {
    match topo
    case Chain => if |vs| > i + 1 then Some(i + 1) else None
    case FanOutFanIn =>
      if i == 0 then Some(if |vs[1].st.waiting| > |vs[2].st.waiting| then 2 else 1)
      else if i != 3 then Some(3)
      else None
  }

  /** Node `i`'s turn in the pass: it ticks, then its departures are routed
      (see `Route`). */
  function Step(topo: Topology, cfg: seq<Config>, vs: seq<NodeState>, t: real, i: nat, ne: ExtReal, gone: nat)
    : (r: (seq<NodeState>, ExtReal, nat))
    requires Shape(topo, cfg, vs) && i < |vs|
    ensures |r.0| == |vs|
  {
    var (v, o) := NodeTick(cfg[i].cap, vs[i], t);
    Route(topo, cfg, vs[i := v], t, i, o, ne, gone)
  }

  /** After node `i` has ticked and `o` customers left it: if `o` is not zero
      and there is a destination, the whole batch is admitted there at `t`
      and the destination's `next_ev` is folded in; then node `i`'s own
      `next_ev` is folded in. Customers with no destination leave the
      network (`gone`). */
  function Route(topo: Topology, cfg: seq<Config>, vs: seq<NodeState>, t: real, i: nat, o: nat, ne: ExtReal, gone: nat)
    : (r: (seq<NodeState>, ExtReal, nat))
    requires Shape(topo, cfg, vs) && i < |vs|
    ensures |r.0| == |vs|
  {
    var d := if o == 0 then None else Dest(topo, vs, i);
    match d
    case None => (vs, Min(ne, Head(vs[i].st)), gone + o)
    case Some(j) =>
      var w := NodeEnqueue(cfg[j].cap, cfg[j].service, vs[j], t, o);
      (vs[j := w], Min(Min(ne, Head(w.st)), Head(vs[i].st)), gone)
  }

  /** The pass from node `i` on. Started as `Pass(.., vs, t, 0, Infinity, 0)`
      it yields the new node values, the folded `next_ev` and the number of
      customers that left the network. */
  function Pass(topo: Topology, cfg: seq<Config>, vs: seq<NodeState>, t: real, i: nat, ne: ExtReal, gone: nat)
    : (r: (seq<NodeState>, ExtReal, nat))
    requires Shape(topo, cfg, vs) && i <= |vs|
    ensures |r.0| == |vs|
    decreases |vs| - i
  {
    if i == |vs| then (vs, ne, gone)
    else
      var (vs', ne', gone') := Step(topo, cfg, vs, t, i, ne, gone);
      Pass(topo, cfg, vs', t, i + 1, ne', gone')
  }

  /** The pass from `i` is node `i`'s turn followed by the pass from `i + 1`. */
  lemma PassStep(topo: Topology, cfg: seq<Config>, vs: seq<NodeState>, t: real, i: nat, ne: ExtReal, gone: nat)
    requires Shape(topo, cfg, vs) && i < |vs|
    ensures var (vs', ne', gone') := Step(topo, cfg, vs, t, i, ne, gone);
      Pass(topo, cfg, vs, t, i, ne, gone) == Pass(topo, cfg, vs', t, i + 1, ne', gone')
  {
  }

  // ---------------------------------------------------------------------------
  // The pass in closed form

  /** Customers node `j` leaves at `t`: its completions strictly before `t`. */
  function Out(vs: seq<NodeState>, t: real, k: nat): nat
    requires k < |vs|
  {
    Departed(vs[k].st.counters, t)
  }

  /** Customers routed into node `j` by the nodes before `i`. */
  function Inflow(topo: Topology, vs: seq<NodeState>, t: real, j: nat, i: nat): nat
    requires i <= |vs| && (topo.FanOutFanIn? ==> |vs| == 4)
  {
    if i == 0 then 0
    else Inflow(topo, vs, t, j, i - 1) + (if Dest(topo, vs, i - 1) == Some(j) then Out(vs, t, i - 1) else 0)
  }

  /** Customers that the nodes before `i` send out of the network. */
  function Exited(topo: Topology, vs: seq<NodeState>, t: real, i: nat): nat
    requires i <= |vs| && (topo.FanOutFanIn? ==> |vs| == 4)
  {
    if i == 0 then 0
    else Exited(topo, vs, t, i - 1) + (if Dest(topo, vs, i - 1).None? then Out(vs, t, i - 1) else 0)
  }

  /** Node `j` with its whole inflow of the pass admitted at `t`. */
  function Admitted(topo: Topology, cfg: seq<Config>, vs: seq<NodeState>, t: real, j: nat): NodeState
    requires Shape(topo, cfg, vs) && j < |vs|
  {
    NodeEnqueue(cfg[j].cap, cfg[j].service, vs[j], t, Inflow(topo, vs, t, j, |vs|))
  }

  /** Node `j` at the end of the pass: its inflow admitted, then ticked. */
  function Settled(topo: Topology, cfg: seq<Config>, vs: seq<NodeState>, t: real, j: nat): NodeState
    requires Shape(topo, cfg, vs) && j < |vs|
  {
    NodeTick(cfg[j].cap, Admitted(topo, cfg, vs, t, j), t).0
  }

  /** Only nodes before `j` feed node `j`, so its inflow is complete once the
      pass has reached it. */
  lemma {:induction false} InflowSettles(topo: Topology, vs: seq<NodeState>, t: real, j: nat, i: nat)
    requires j <= i <= |vs| && (topo.FanOutFanIn? ==> |vs| == 4)
    ensures Inflow(topo, vs, t, j, i) == Inflow(topo, vs, t, j, j)
    decreases i
  {
    if i > j {
      InflowSettles(topo, vs, t, j, i - 1);
    }
  }

  /** The state of the pass after the nodes before `i` have had their turn,
      stated against the values `vs0` at the start of the pass: those nodes
      hold their settled values `S` (see `PassFrom`), the others have
      received the inflow from the nodes before `i`, the exit count is that
      of the nodes before `i`, and the running minimum is at most the
      `next_ev` of every settled node. */
  predicate Stage(topo: Topology, cfg: seq<Config>, vs0: seq<NodeState>, t: real, i: nat,
                  vs: seq<NodeState>, ne: ExtReal, gone: nat, S: seq<NodeState>)
    requires Shape(topo, cfg, vs0) && i <= |vs0|
  {
    && |vs| == |vs0| && |S| == |vs0|
    && (forall j :: 0 <= j < i ==> vs[j] == S[j])
    && (forall j :: i <= j < |vs| ==>
          vs[j] == NodeEnqueue(cfg[j].cap, cfg[j].service, vs0[j], t, Inflow(topo, vs0, t, j, i)))
    && gone == Exited(topo, vs0, t, i)
    && (forall j :: 0 <= j < i ==> Le(ne, Head(vs[j].st)))
  }

  /** `Le` is transitive. */
  lemma LeTrans(a: ExtReal, b: ExtReal, c: ExtReal)
    requires Le(a, b) && Le(b, c)
    ensures Le(a, c)
  {
  }

  /** Node `i`'s turn in the pass computes on its start value: it ticks with
      its inflow admitted, the customers leaving are those of its start
      value, and its destination is the one chosen from the start values. */
  lemma StepFacts(topo: Topology, cfg: seq<Config>, vs0: seq<NodeState>, t: real, i: nat,
                  vs: seq<NodeState>, ne: ExtReal, gone: nat, S: seq<NodeState>)
    requires WellFormed(topo, cfg, vs0) && i < |vs0|
    requires Stage(topo, cfg, vs0, t, i, vs, ne, gone, S)
    ensures vs[i] == Admitted(topo, cfg, vs0, t, i)
    ensures NodeTick(cfg[i].cap, vs[i], t).1 == Out(vs0, t, i)
    ensures NodeTick(cfg[i].cap, vs[i], t).0 == Settled(topo, cfg, vs0, t, i)
    ensures Dest(topo, vs[i := Settled(topo, cfg, vs0, t, i)], i) == Dest(topo, vs0, i)
  {
    InflowSettles(topo, vs0, t, i, |vs0|);
    NodeEnqueueSpec(cfg[i].cap, cfg[i].service, vs0[i], t, Inflow(topo, vs0, t, i, i));
    NodeTickSpec(cfg[i].cap, vs[i], t);
    if topo.FanOutFanIn? && i == 0 {
      NodeEnqueueSpec(cfg[1].cap, cfg[1].service, vs0[1], t, 0);
      NodeEnqueueSpec(cfg[2].cap, cfg[2].service, vs0[2], t, 0);
    }
  }

  /** The bookkeeping half of `StepStage`: what a turn must produce for the
      stage to advance. */
  lemma StageAfter(topo: Topology, cfg: seq<Config>, vs0: seq<NodeState>, t: real, i: nat,
                   vs: seq<NodeState>, ne: ExtReal, gone: nat, S: seq<NodeState>,
                   vs': seq<NodeState>, ne': ExtReal, gone': nat)
    requires Shape(topo, cfg, vs0) && i < |vs0|
    requires Stage(topo, cfg, vs0, t, i, vs, ne, gone, S)
    requires |vs'| == |vs0| && vs'[i] == S[i]
    requires forall j :: 0 <= j < i ==> vs'[j] == vs[j]
    requires forall j :: i < j < |vs0| ==>
      vs'[j] == NodeEnqueue(cfg[j].cap, cfg[j].service, vs0[j], t, Inflow(topo, vs0, t, j, i + 1))
    requires gone' == Exited(topo, vs0, t, i + 1)
    requires Le(ne', ne) && Le(ne', Head(vs'[i].st))
    ensures Stage(topo, cfg, vs0, t, i + 1, vs', ne', gone', S)
  {
    forall j | 0 <= j < i + 1 ensures Le(ne', Head(vs'[j].st)) {
      if j < i {
        LeTrans(ne', ne, Head(vs[j].st));
      }
    }
  }

  /** One turn advances the stage by one node. */
  lemma StepStage(topo: Topology, cfg: seq<Config>, vs0: seq<NodeState>, t: real, i: nat,
                  vs: seq<NodeState>, ne: ExtReal, gone: nat, S: seq<NodeState>)
    requires WellFormed(topo, cfg, vs0) && i < |vs0|
    requires Stage(topo, cfg, vs0, t, i, vs, ne, gone, S)
    requires S[i] == Settled(topo, cfg, vs0, t, i)
    ensures var (vs', ne', gone') := Step(topo, cfg, vs, t, i, ne, gone);
      Stage(topo, cfg, vs0, t, i + 1, vs', ne', gone', S)
  {
    StepFacts(topo, cfg, vs0, t, i, vs, ne, gone, S);
    RouteStage(topo, cfg, vs0, t, i, vs, ne, gone, S, S[i]);
  }

  /** `StepStage` once node `i` has ticked into its settled value `v`. */
  lemma RouteStage(topo: Topology, cfg: seq<Config>, vs0: seq<NodeState>, t: real, i: nat,
                   vs: seq<NodeState>, ne: ExtReal, gone: nat, S: seq<NodeState>, v: NodeState)
    requires Shape(topo, cfg, vs0) && i < |vs0|
    requires Stage(topo, cfg, vs0, t, i, vs, ne, gone, S)
    requires v == S[i]
    requires Dest(topo, vs[i := v], i) == Dest(topo, vs0, i)
    ensures var (vs', ne', gone') := Route(topo, cfg, vs[i := v], t, i, Out(vs0, t, i), ne, gone);
      Stage(topo, cfg, vs0, t, i + 1, vs', ne', gone', S)
  {
    if Out(vs0, t, i) == 0 || Dest(topo, vs0, i).None? {
      RouteLeaves(topo, cfg, vs0, t, i, vs, ne, gone, S, v);
    } else {
      RouteOn(topo, cfg, vs0, t, i, vs, ne, gone, S, v);
    }
  }

  /** `RouteStage` when no customer moves on inside the network. */
  lemma RouteLeaves(topo: Topology, cfg: seq<Config>, vs0: seq<NodeState>, t: real, i: nat,
                    vs: seq<NodeState>, ne: ExtReal, gone: nat, S: seq<NodeState>, v: NodeState)
    requires Shape(topo, cfg, vs0) && i < |vs0|
    requires Stage(topo, cfg, vs0, t, i, vs, ne, gone, S)
    requires v == S[i]
    requires Dest(topo, vs[i := v], i) == Dest(topo, vs0, i)
    requires Out(vs0, t, i) == 0 || Dest(topo, vs0, i).None?
    ensures var (vs', ne', gone') := Route(topo, cfg, vs[i := v], t, i, Out(vs0, t, i), ne, gone);
      Stage(topo, cfg, vs0, t, i + 1, vs', ne', gone', S)
  {
    var o := Out(vs0, t, i);
    var vs1 := vs[i := v];
    assert Route(topo, cfg, vs1, t, i, o, ne, gone) == (vs1, Min(ne, Head(v.st)), gone + o);
    assert gone + o == Exited(topo, vs0, t, i + 1);
    forall j | i < j < |vs0|
      ensures Inflow(topo, vs0, t, j, i + 1) == Inflow(topo, vs0, t, j, i)
    {
    }
    StageAfter(topo, cfg, vs0, t, i, vs, ne, gone, S, vs1, Min(ne, Head(v.st)), gone + o);
  }

  /** `RouteStage` when the departures of node `i` move on to its destination. */
  lemma RouteOn(topo: Topology, cfg: seq<Config>, vs0: seq<NodeState>, t: real, i: nat,
                vs: seq<NodeState>, ne: ExtReal, gone: nat, S: seq<NodeState>, v: NodeState)
    requires Shape(topo, cfg, vs0) && i < |vs0|
    requires Stage(topo, cfg, vs0, t, i, vs, ne, gone, S)
    requires v == S[i]
    requires Dest(topo, vs[i := v], i) == Dest(topo, vs0, i)
    requires Out(vs0, t, i) != 0 && Dest(topo, vs0, i).Some?
    ensures var (vs', ne', gone') := Route(topo, cfg, vs[i := v], t, i, Out(vs0, t, i), ne, gone);
      Stage(topo, cfg, vs0, t, i + 1, vs', ne', gone', S)
  {
    var o := Out(vs0, t, i);
    var vs1 := vs[i := v];
    var k := Dest(topo, vs0, i).value;
    var c := Inflow(topo, vs0, t, k, i);
    var w := NodeEnqueue(cfg[k].cap, cfg[k].service, vs1[k], t, o);
    var ne' := Min(Min(ne, Head(w.st)), Head(v.st));
    assert Route(topo, cfg, vs1, t, i, o, ne, gone) == (vs1[k := w], ne', gone) by {
      RouteForward(topo, cfg, vs1, t, i, o, ne, gone);
    }
    assert forall j :: i < j < |vs0| ==>
        vs1[k := w][j] == NodeEnqueue(cfg[j].cap, cfg[j].service, vs0[j], t, Inflow(topo, vs0, t, j, i + 1)) by {
      PendingAfter(topo, cfg, vs0, t, i, vs1, k, w);
    }
    ExitedForward(topo, vs0, t, i);
    StageAfter(topo, cfg, vs0, t, i, vs, ne, gone, S, vs1[k := w], ne', gone);
  }

  /** A node that routes to another node adds nothing to the exits. */
  lemma ExitedForward(topo: Topology, vs: seq<NodeState>, t: real, i: nat)
    requires i < |vs| && (topo.FanOutFanIn? ==> |vs| == 4)
    requires Dest(topo, vs, i).Some?
    ensures Exited(topo, vs, t, i + 1) == Exited(topo, vs, t, i)
  {
  }

  /** The nodes after `i` once node `i` has passed its departures on to
      node `k`: each holds the inflow from the nodes up to `i`. */
  lemma PendingAfter(topo: Topology, cfg: seq<Config>, vs0: seq<NodeState>, t: real, i: nat,
                     vs: seq<NodeState>, k: nat, w: NodeState)
    requires Shape(topo, cfg, vs0) && i < |vs0| && |vs| == |vs0|
    requires forall j :: i < j < |vs| ==>
      vs[j] == NodeEnqueue(cfg[j].cap, cfg[j].service, vs0[j], t, Inflow(topo, vs0, t, j, i))
    requires Dest(topo, vs0, i) == Some(k)
    requires w == NodeEnqueue(cfg[k].cap, cfg[k].service, vs[k], t, Out(vs0, t, i))
    ensures forall j :: i < j < |vs0| ==>
      vs[k := w][j] == NodeEnqueue(cfg[j].cap, cfg[j].service, vs0[j], t, Inflow(topo, vs0, t, j, i + 1))
  {
    forall j | i < j < |vs0|
      ensures vs[k := w][j] == NodeEnqueue(cfg[j].cap, cfg[j].service, vs0[j], t, Inflow(topo, vs0, t, j, i + 1))
    {
      PendingAt(topo, cfg, vs0, t, i, vs, k, w, j);
    }
  }

  /** `PendingAfter` for one node `j` after `i`. */
  lemma PendingAt(topo: Topology, cfg: seq<Config>, vs0: seq<NodeState>, t: real, i: nat,
                  vs: seq<NodeState>, k: nat, w: NodeState, j: nat)
    requires Shape(topo, cfg, vs0) && i < j < |vs0| && |vs| == |vs0|
    requires vs[j] == NodeEnqueue(cfg[j].cap, cfg[j].service, vs0[j], t, Inflow(topo, vs0, t, j, i))
    requires Dest(topo, vs0, i) == Some(k)
    requires w == NodeEnqueue(cfg[k].cap, cfg[k].service, vs[k], t, Out(vs0, t, i))
    ensures vs[k := w][j] == NodeEnqueue(cfg[j].cap, cfg[j].service, vs0[j], t, Inflow(topo, vs0, t, j, i + 1))
  {
    if j == k {
      assert Inflow(topo, vs0, t, k, i + 1) == Inflow(topo, vs0, t, k, i) + Out(vs0, t, i);
      NodeEnqueueTwice(cfg[k].cap, cfg[k].service, vs0[k], t, Inflow(topo, vs0, t, k, i), Out(vs0, t, i));
    } else {
      assert Inflow(topo, vs0, t, j, i + 1) == Inflow(topo, vs0, t, j, i);
    }
  }

  /** A turn is the node's tick followed by the routing of its departures. */
  lemma StepIs(topo: Topology, cfg: seq<Config>, vs: seq<NodeState>, t: real, i: nat, ne: ExtReal, gone: nat,
               v: NodeState, o: nat)
    requires Shape(topo, cfg, vs) && i < |vs|
    requires NodeTick(cfg[i].cap, vs[i], t) == (v, o)
    ensures Step(topo, cfg, vs, t, i, ne, gone) == Route(topo, cfg, vs[i := v], t, i, o, ne, gone)
  {
  }

  /** The value of `Route` when nobody moves on inside the network. */
  lemma RouteStays(topo: Topology, cfg: seq<Config>, vs: seq<NodeState>, t: real, i: nat, o: nat, ne: ExtReal, gone: nat)
    requires Shape(topo, cfg, vs) && i < |vs|
    requires o == 0 || Dest(topo, vs, i).None?
    ensures Route(topo, cfg, vs, t, i, o, ne, gone) == (vs, Min(ne, Head(vs[i].st)), gone + o)
  {
  }

  /** The value of `Route` when the departures move on. */
  lemma RouteForward(topo: Topology, cfg: seq<Config>, vs: seq<NodeState>, t: real, i: nat, o: nat, ne: ExtReal, gone: nat)
    requires Shape(topo, cfg, vs) && i < |vs|
    requires o != 0 && Dest(topo, vs, i).Some?
    ensures var k := Dest(topo, vs, i).value;
      var w := NodeEnqueue(cfg[k].cap, cfg[k].service, vs[k], t, o);
      Route(topo, cfg, vs, t, i, o, ne, gone) == (vs[k := w], Min(Min(ne, Head(w.st)), Head(vs[i].st)), gone)
  {
  }

  /** The stage reached at the end of the pass. */
  lemma {:induction false} PassFrom(topo: Topology, cfg: seq<Config>, vs0: seq<NodeState>, t: real, i: nat,
                                    vs: seq<NodeState>, ne: ExtReal, gone: nat, S: seq<NodeState>)
    requires WellFormed(topo, cfg, vs0) && i <= |vs0|
    requires Stage(topo, cfg, vs0, t, i, vs, ne, gone, S)
    requires forall j :: i <= j < |S| ==> S[j] == Settled(topo, cfg, vs0, t, j)
    ensures var (vsF, neF, goneF) := Pass(topo, cfg, vs, t, i, ne, gone);
      Stage(topo, cfg, vs0, t, |vs0|, vsF, neF, goneF, S)
    decreases |vs0| - i
  {
    if i < |vs0| {
      StepStage(topo, cfg, vs0, t, i, vs, ne, gone, S);
      var (vs', ne', gone') := Step(topo, cfg, vs, t, i, ne, gone);
      PassFrom(topo, cfg, vs0, t, i + 1, vs', ne', gone', S);
    }
  }

  /** The pass in closed form: every node ends up as its start value with
      its whole inflow admitted at `t` and then ticked at `t`; the customers
      leaving the network are the departures of the nodes with no
      destination; the returned time is at most every node's `next_ev`. */
  lemma PassSpec(topo: Topology, cfg: seq<Config>, vs0: seq<NodeState>, t: real)
    requires WellFormed(topo, cfg, vs0)
    ensures var (vs, ne, gone) := Pass(topo, cfg, vs0, t, 0, Infinity, 0);
      && |vs| == |vs0|
      && (forall j :: 0 <= j < |vs| ==> vs[j] == Settled(topo, cfg, vs0, t, j))
      && gone == Exited(topo, vs0, t, |vs0|)
      && (forall j :: 0 <= j < |vs| ==> Le(ne, Head(vs[j].st)))
  {
    var S := seq(|vs0|, j requires 0 <= j < |vs0| => Settled(topo, cfg, vs0, t, j));
    forall j | 0 <= j < |vs0|
      ensures vs0[j] == NodeEnqueue(cfg[j].cap, cfg[j].service, vs0[j], t, Inflow(topo, vs0, t, j, 0))
    {
      NodeEnqueueSpec(cfg[j].cap, cfg[j].service, vs0[j], t, 0);
    }
    PassFrom(topo, cfg, vs0, t, 0, vs0, Infinity, 0, S);
  }

  // ---------------------------------------------------------------------------
  // What the pass does to each node and to the customers in the network

  /** Every node ends the pass valid, with no completion before `t`, having
      gained its inflow and lost its departures, having drawn one service
      duration per customer admitted, and with its statistics flushed at `t`
      over its occupancy as it stood after the admissions. */
  lemma SettledSpec(topo: Topology, cfg: seq<Config>, vs0: seq<NodeState>, t: real, j: nat)
    requires WellFormed(topo, cfg, vs0) && j < |vs0|
    ensures var s := Settled(topo, cfg, vs0, t, j);
      var n := Inflow(topo, vs0, t, j, |vs0|);
      && Inv(s.st, cfg[j].cap)
      && NoneBefore(s.st.counters, t)
      && Total(s.st) + Out(vs0, t, j) == Total(vs0[j].st) + n
      && s.drawn == vs0[j].drawn + n
      && s.stats == Flush(vs0[j].stats, Admitted(topo, cfg, vs0, t, j).st, t)
  {
    NodeEnqueueSpec(cfg[j].cap, cfg[j].service, vs0[j], t, Inflow(topo, vs0, t, j, |vs0|));
    NodeTickSpec(cfg[j].cap, Admitted(topo, cfg, vs0, t, j), t);
  }

  /** After the pass the network is well formed again and nothing in it
      completes before `t`. */
  lemma PassKeeps(topo: Topology, cfg: seq<Config>, vs0: seq<NodeState>, t: real)
    requires WellFormed(topo, cfg, vs0)
    ensures var vs := Pass(topo, cfg, vs0, t, 0, Infinity, 0).0;
      && WellFormed(topo, cfg, vs)
      && AllFrom(vs, t)
      && forall j :: 0 <= j < |vs| ==> vs[j].stats.lastTick == t
  {
    PassSpec(topo, cfg, vs0, t);
    forall j | 0 <= j < |vs0|
      ensures var s := Settled(topo, cfg, vs0, t, j);
        Inv(s.st, cfg[j].cap) && NoneBefore(s.st.counters, t) && s.stats.lastTick == t
    {
      SettledSpec(topo, cfg, vs0, t, j);
    }
  }

  /** Customers in the first `m` nodes. */
  function SumTotal(vs: seq<NodeState>, m: nat): nat
    requires m <= |vs|
  {
    if m == 0 then 0 else SumTotal(vs, m - 1) + Total(vs[m - 1].st)
  }

  /** Departures at `t` from the first `m` nodes. */
  function SumOut(vs: seq<NodeState>, t: real, m: nat): nat
    requires m <= |vs|
  {
    if m == 0 then 0 else SumOut(vs, t, m - 1) + Out(vs, t, m - 1)
  }

  /** Inflow from the nodes before `i` into the first `m` nodes. */
  function SumInflow(topo: Topology, vs: seq<NodeState>, t: real, i: nat, m: nat): nat
    requires i <= |vs| && m <= |vs| && (topo.FanOutFanIn? ==> |vs| == 4)
  {
    if m == 0 then 0 else SumInflow(topo, vs, t, i, m - 1) + Inflow(topo, vs, t, m - 1, i)
  }

  /** The departures of node `i` land in exactly one node, or none. */
  lemma {:induction false} SumInflowStep(topo: Topology, vs: seq<NodeState>, t: real, i: nat, m: nat)
    requires i < |vs| && m <= |vs| && (topo.FanOutFanIn? ==> |vs| == 4)
    ensures SumInflow(topo, vs, t, i + 1, m) == SumInflow(topo, vs, t, i, m)
      + (if Dest(topo, vs, i).Some? && Dest(topo, vs, i).value < m then Out(vs, t, i) else 0)
    decreases m
  {
    if m > 0 {
      SumInflowStep(topo, vs, t, i, m - 1);
    }
  }

  /** Before any node has had its turn nothing has flowed anywhere. */
  lemma {:induction false} SumInflowNone(topo: Topology, vs: seq<NodeState>, t: real, m: nat)
    requires m <= |vs| && (topo.FanOutFanIn? ==> |vs| == 4)
    ensures SumInflow(topo, vs, t, 0, m) == 0
    decreases m
  {
    if m > 0 {
      SumInflowNone(topo, vs, t, m - 1);
    }
  }

  /** What the nodes before `i` send out goes either to a node or out of the
      network. */
  lemma {:induction false} FlowBalance(topo: Topology, vs: seq<NodeState>, t: real, i: nat)
    requires i <= |vs| && (topo.FanOutFanIn? ==> |vs| == 4)
    ensures SumInflow(topo, vs, t, i, |vs|) + Exited(topo, vs, t, i) == SumOut(vs, t, i)
    decreases i
  {
    if i > 0 {
      FlowBalance(topo, vs, t, i - 1);
      SumInflowStep(topo, vs, t, i - 1, |vs|);
      var d := Dest(topo, vs, i - 1);
      assert d.Some? ==> d.value < |vs|;
      assert Exited(topo, vs, t, i) == Exited(topo, vs, t, i - 1) + (if d.None? then Out(vs, t, i - 1) else 0);
    } else {
      SumInflowNone(topo, vs, t, |vs|);
    }
  }

  /** Summing the per-node balance over the first `m` nodes. */
  lemma {:induction false} SumBalance(topo: Topology, vs0: seq<NodeState>, vs: seq<NodeState>, t: real, m: nat)
    requires |vs| == |vs0| && m <= |vs0| && (topo.FanOutFanIn? ==> |vs0| == 4)
    requires forall j :: 0 <= j < |vs0| ==>
      Total(vs[j].st) + Out(vs0, t, j) == Total(vs0[j].st) + Inflow(topo, vs0, t, j, |vs0|)
    ensures SumTotal(vs, m) + SumOut(vs0, t, m) == SumTotal(vs0, m) + SumInflow(topo, vs0, t, |vs0|, m)
    decreases m
  {
    if m > 0 {
      SumBalance(topo, vs0, vs, t, m - 1);
    }
  }

  /** The pass conserves customers: those in the network afterwards plus
      those that left it are those that were in it before. */
  lemma PassConserves(topo: Topology, cfg: seq<Config>, vs0: seq<NodeState>, t: real)
    requires WellFormed(topo, cfg, vs0)
    ensures var (vs, _, gone) := Pass(topo, cfg, vs0, t, 0, Infinity, 0);
      SumTotal(vs, |vs|) + gone == SumTotal(vs0, |vs0|)
  {
    PassSpec(topo, cfg, vs0, t);
    var vs := Pass(topo, cfg, vs0, t, 0, Infinity, 0).0;
    forall j | 0 <= j < |vs0|
      ensures Total(vs[j].st) + Out(vs0, t, j) == Total(vs0[j].st) + Inflow(topo, vs0, t, j, |vs0|)
    {
      SettledSpec(topo, cfg, vs0, t, j);
    }
    SumBalance(topo, vs0, vs, t, |vs0|);
    FlowBalance(topo, vs0, t, |vs0|);
  }

  /** In a chain each node receives the departures of its predecessor. */
  lemma {:induction false} ChainInflow(vs: seq<NodeState>, t: real, j: nat, i: nat)
    requires i <= |vs| && j < |vs|
    ensures Inflow(Chain, vs, t, j, i) == if 0 < j <= i then Out(vs, t, j - 1) else 0
    decreases i
  {
    if i > 0 {
      ChainInflow(vs, t, j, i - 1);
    }
  }

  /** In a chain only the departures of the last node leave the network. */
  lemma {:induction false} ChainExited(vs: seq<NodeState>, t: real, i: nat)
    requires i <= |vs|
    ensures Exited(Chain, vs, t, i) == if 0 < i == |vs| then Out(vs, t, i - 1) else 0
    decreases i
  {
    if i > 0 {
      ChainExited(vs, t, i - 1);
    }
  }

  /** In the fan-out/fan-in network node 0's departures go to node 2 when
      node 1's queue is strictly longer and to node 1 otherwise; nodes 1
      and 2 both feed node 3, whose departures leave the network. */
  lemma FanInflow(vs: seq<NodeState>, t: real)
    requires |vs| == 4
    ensures var toTwo := |vs[1].st.waiting| > |vs[2].st.waiting|;
      && Inflow(FanOutFanIn, vs, t, 0, 4) == 0
      && Inflow(FanOutFanIn, vs, t, 1, 4) == (if toTwo then 0 else Out(vs, t, 0))
      && Inflow(FanOutFanIn, vs, t, 2, 4) == (if toTwo then Out(vs, t, 0) else 0)
      && Inflow(FanOutFanIn, vs, t, 3, 4) == Out(vs, t, 1) + Out(vs, t, 2)
      && Exited(FanOutFanIn, vs, t, 4) == Out(vs, t, 3)
  {
    var toTwo := |vs[1].st.waiting| > |vs[2].st.waiting|;
    assert Dest(FanOutFanIn, vs, 0) == Some(if toTwo then 2 else 1);
    assert Dest(FanOutFanIn, vs, 1) == Some(3) && Dest(FanOutFanIn, vs, 2) == Some(3);
    assert Dest(FanOutFanIn, vs, 3) == None;
    assert Exited(FanOutFanIn, vs, t, 1) == 0;
    assert Exited(FanOutFanIn, vs, t, 2) == Exited(FanOutFanIn, vs, t, 1);
    assert Exited(FanOutFanIn, vs, t, 3) == Exited(FanOutFanIn, vs, t, 2);
    forall j | 0 <= j < 4
      ensures Inflow(FanOutFanIn, vs, t, j, 2) == (if (j == 1 && !toTwo) || (j == 2 && toTwo) then Out(vs, t, 0) else 0)
        + (if j == 3 then Out(vs, t, 1) else 0)
    {
      assert Inflow(FanOutFanIn, vs, t, j, 1) == (if (j == 1 && !toTwo) || (j == 2 && toTwo) then Out(vs, t, 0) else 0);
    }
    assert Inflow(FanOutFanIn, vs, t, 3, 3) == Out(vs, t, 1) + Out(vs, t, 2);
    assert Inflow(FanOutFanIn, vs, t, 1, 3) == Inflow(FanOutFanIn, vs, t, 1, 2);
    assert Inflow(FanOutFanIn, vs, t, 2, 3) == Inflow(FanOutFanIn, vs, t, 2, 2);
    assert Inflow(FanOutFanIn, vs, t, 0, 3) == 0;
  }

  /** A node none of whose completions lies before `lo` reports a `next_ev`
      of at least `lo`. */
  lemma HeadFloor(s: Station, lo: real)
    requires NoneBefore(s.counters, lo)
    ensures AtLeast(Head(s), lo)
  {
    if s.counters != [] {
      assert s.counters[0] >= lo;
    }
  }

  /** Conversely, a time at most a sorted node's `next_ev` is at most every
      pending completion of that node. */
  lemma HeadBound(s: Station, m: real)
    requires Sorted(s.counters) && Le(Finite(m), Head(s))
    ensures NoneBefore(s.counters, m)
  {
  }

  /** A turn keeps the floor `lo` on the running minimum and on the nodes
      still to come. */
  lemma RouteFloor(topo: Topology, cfg: seq<Config>, vs: seq<NodeState>, t: real, i: nat, o: nat,
                   ne: ExtReal, gone: nat, lo: real)
    requires Shape(topo, cfg, vs) && i < |vs| && lo <= t
    requires forall j :: i <= j < |vs| ==> Inv(vs[j].st, cfg[j].cap) && NoneBefore(vs[j].st.counters, lo)
    requires AtLeast(ne, lo)
    ensures var (vs', ne', _) := Route(topo, cfg, vs, t, i, o, ne, gone);
      && AtLeast(ne', lo)
      && forall j :: i < j < |vs'| ==> Inv(vs'[j].st, cfg[j].cap) && NoneBefore(vs'[j].st.counters, lo)
  {
    HeadFloor(vs[i].st, lo);
    var d := if o == 0 then None else Dest(topo, vs, i);
    if d.Some? {
      var k := d.value;
      var w := NodeEnqueue(cfg[k].cap, cfg[k].service, vs[k], t, o);
      NodeEnqueueSpec(cfg[k].cap, cfg[k].service, vs[k], t, o);
      NodeEnqueueFloor(cfg[k].cap, cfg[k].service, vs[k], t, o, lo);
      HeadFloor(w.st, lo);
    }
  }

  /** The pass from node `i` on keeps a floor `lo <= t` that the running
      minimum and every pending completion respect. */
  lemma {:induction false} PassFloorFrom(topo: Topology, cfg: seq<Config>, vs: seq<NodeState>, t: real, i: nat,
                                         ne: ExtReal, gone: nat, lo: real)
    requires Shape(topo, cfg, vs) && i <= |vs| && lo <= t
    requires forall j :: i <= j < |vs| ==> Inv(vs[j].st, cfg[j].cap) && NoneBefore(vs[j].st.counters, lo)
    requires AtLeast(ne, lo)
    ensures AtLeast(Pass(topo, cfg, vs, t, i, ne, gone).1, lo)
    decreases |vs| - i
  {
    if i < |vs| {
      var (v, o) := NodeTick(cfg[i].cap, vs[i], t);
      NodeTickSpec(cfg[i].cap, vs[i], t);
      var vs1 := vs[i := v];
      assert NoneBefore(v.st.counters, lo);
      RouteFloor(topo, cfg, vs1, t, i, o, ne, gone, lo);
      var (vs', ne', gone') := Route(topo, cfg, vs1, t, i, o, ne, gone);
      PassFloorFrom(topo, cfg, vs', t, i + 1, ne', gone', lo);
    }
  }

  /** When every pending completion is at least `lo` and `lo <= t`, the pass
      at `t` reports a time of at least `lo`: the clock never runs backwards
      past what is pending. */
  lemma PassFloor(topo: Topology, cfg: seq<Config>, vs0: seq<NodeState>, t: real, lo: real)
    requires WellFormed(topo, cfg, vs0) && AllFrom(vs0, lo) && lo <= t
    ensures AtLeast(Pass(topo, cfg, vs0, t, 0, Infinity, 0).1, lo)
  {
    PassFloorFrom(topo, cfg, vs0, t, 0, Infinity, 0, lo);
  }

  /** Statistics that are non-negative and flushed no later than `t` stay
      non-negative through the pass at `t`, which flushes every node at `t`. */
  lemma PassFlushes(topo: Topology, cfg: seq<Config>, vs0: seq<NodeState>, t: real)
    requires WellFormed(topo, cfg, vs0)
    requires forall j :: 0 <= j < |vs0| ==>
      vs0[j].stats.lastTick <= t && vs0[j].stats.lq >= 0.0 && vs0[j].stats.lc >= 0.0
    ensures var vs := Pass(topo, cfg, vs0, t, 0, Infinity, 0).0;
      forall j :: 0 <= j < |vs| ==>
        vs[j].stats.lastTick == t && vs[j].stats.lq >= vs0[j].stats.lq && vs[j].stats.lc >= vs0[j].stats.lc
  {
    PassSpec(topo, cfg, vs0, t);
    forall j | 0 <= j < |vs0|
      ensures var s := Settled(topo, cfg, vs0, t, j);
        s.stats.lastTick == t && s.stats.lq >= vs0[j].stats.lq && s.stats.lc >= vs0[j].stats.lc
    {
      SettledSpec(topo, cfg, vs0, t, j);
      FlushMonotone(vs0[j].stats, Admitted(topo, cfg, vs0, t, j).st, t);
    }
  }
}
