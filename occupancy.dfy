/** The occupancy of one queueing node as a value, and the three things that
    happen to it: customers arrive (`enqueue`), customers whose service is over
    leave, and waiting customers move onto free counters (`tick`). The class
    `Queueing.QueueModel` is proved to follow these functions step by step. */
module Occupancy {
  import opened Times
  import opened Bisect

  /** `counters`: absolute completion times of the customers in service.
      `waiting`: service durations still owed to the waiting customers, in
      arrival order; a waiting customer has no completion time yet. */
  datatype Station = Station(counters: seq<real>, waiting: seq<real>)

  /** Customers resident in the node, in service or waiting. */
  function Total(s: Station): nat
  {
    |s.counters| + |s.waiting|
  }

  /** Every duration in `ds` is non-negative. */
  predicate NonNegative(ds: seq<real>)
  {
    forall k :: 0 <= k < |ds| ==> ds[k] >= 0.0
  }

  /** The node invariant for `cap` counters: completion times sorted, no more
      customers in service than counters, nobody waits while a counter is
      free, and every owed duration is non-negative. */
  predicate Inv(s: Station, cap: nat)
  {
    && Sorted(s.counters)
    && |s.counters| <= cap
    && (|s.counters| < cap ==> s.waiting == [])
    && NonNegative(s.waiting)
  }

  /** No completion time lies before `x`. */
  predicate NoneBefore(cs: seq<real>, x: real)
  {
    forall k :: 0 <= k < |cs| ==> cs[k] >= x
  }

  /** `f(from), ..., f(from + n - 1)`: the durations drawn for `n` customers. */
  function Draws(f: nat -> Duration, from: nat, n: nat): (ds: seq<real>)
    ensures |ds| == n
    ensures NonNegative(ds)
  {
    if n == 0 then [] else Draws(f, from, n - 1) + [f(from + n - 1)]
  }

  /** The `k`-th draw of a batch is `f(from + k)`. */
  lemma {:induction false} DrawsAt(f: nat -> Duration, from: nat, n: nat, k: nat)
    requires k < n
    ensures Draws(f, from, n)[k] == f(from + k)
  {
    if k < n - 1 {
      DrawsAt(f, from, n - 1, k);
    }
  }

  /** Completion times of customers with durations `ds` starting service at `t`. */
  function Started(ds: seq<real>, t: real): (cs: seq<real>)
    ensures |cs| == |ds|
  {
    if ds == [] then [] else [ds[0] + t] + Started(ds[1..], t)
  }

  /** Customers with durations `ds` take counters at `t`, front first. */
  function InsortAll(cs: seq<real>, ds: seq<real>, t: real): seq<real>
    decreases |ds|
  {
    if ds == [] then cs else InsortAll(Insort(cs, ds[0] + t), ds[1..], t)
  }

  /** One customer arriving at `t` with required duration `d`: served at once
      when a counter is free, otherwise queued with its duration only. */
  function AdmitOne(s: Station, cap: nat, t: real, d: real): Station
  {
    if |s.counters| < cap then Station(Insort(s.counters, d + t), s.waiting)
    else Station(s.counters, s.waiting + [d])
  }

  /** Customers arriving at `t` with durations `ds`, admitted in order. */
  function Admit(s: Station, cap: nat, t: real, ds: seq<real>): Station
  {
    if ds == [] then s else AdmitOne(Admit(s, cap, t, ds[..|ds| - 1]), cap, t, ds[|ds| - 1])
  }

  /** Number of customers at the head of `cs` whose completion time is
      strictly before `t` (see `DepartedSpec`). */
  function Departed(cs: seq<real>, t: real): (n: nat)
    ensures n <= |cs|
  {
    if cs == [] || !(cs[0] < t) then 0 else 1 + Departed(cs[1..], t)
  }

  /** Waiting customers, front first, start service at `t` while a counter is free. */
  function Refill(s: Station, cap: nat, t: real): Station
    decreases |s.waiting|
  {
    if |s.counters| < cap && s.waiting != [] then
      Refill(Station(Insort(s.counters, s.waiting[0] + t), s.waiting[1..]), cap, t)
    else s
  }

  /** One `tick` at `t` (after the statistics are flushed): the departures
      leave, then the queue refills the counters. Also yields the departures. */
  function Advance(s: Station, cap: nat, t: real): (Station, nat)
  {
    var out := Departed(s.counters, t);
    (Refill(Station(s.counters[out..], s.waiting), cap, t), out)
  }

  /** `next_ev`: the earliest pending completion, or infinity when nobody is in service. */
  function Head(s: Station): (r: ExtReal)
    ensures r.Infinity? <==> s.counters == []
    ensures r.Finite? ==> r.v in s.counters
    ensures r.Finite? && Sorted(s.counters) ==> forall k :: 0 <= k < |s.counters| ==> r.v <= s.counters[k]
  {
    if |s.counters| > 0 then Finite(s.counters[0]) else Infinity
  }

  // ---------------------------------------------------------------------------
  // Inserting several completion times

  /** Inserting one more customer at the end of a batch. */
  lemma {:induction false} InsortAllSnoc(cs: seq<real>, ds: seq<real>, d: real, t: real)
    ensures InsortAll(cs, ds + [d], t) == Insort(InsortAll(cs, ds, t), d + t)
    decreases |ds|
  {
    if ds == [] {
      assert ([] + [d])[1..] == [];
    } else {
      assert (ds + [d])[0] == ds[0];
      assert (ds + [d])[1..] == ds[1..] + [d];
      InsortAllSnoc(Insort(cs, ds[0] + t), ds[1..], d, t);
    }
  }

  /** A batch insertion adds one entry per customer. */
  lemma {:induction false} InsortAllLength(cs: seq<real>, ds: seq<real>, t: real)
    ensures |InsortAll(cs, ds, t)| == |cs| + |ds|
    decreases |ds|
  {
    if ds != [] {
      InsortAllLength(Insort(cs, ds[0] + t), ds[1..], t);
    }
  }

  /** A batch insertion adds exactly the batch's completion times. */
  lemma {:induction false} InsortAllBag(cs: seq<real>, ds: seq<real>, t: real)
    ensures multiset(InsortAll(cs, ds, t)) == multiset(cs) + multiset(Started(ds, t))
    decreases |ds|
  {
    if ds != [] {
      var x := ds[0] + t;
      InsortBag(cs, x);
      InsortAllBag(Insort(cs, x), ds[1..], t);
      assert Started(ds, t) == [x] + Started(ds[1..], t);
    }
  }

  /** A batch insertion keeps a sorted list sorted. */
  lemma {:induction false} InsortAllSorted(cs: seq<real>, ds: seq<real>, t: real)
    requires Sorted(cs)
    ensures Sorted(InsortAll(cs, ds, t))
    decreases |ds|
  {
    if ds != [] {
      InsortSorted(cs, ds[0] + t);
      InsortAllSorted(Insort(cs, ds[0] + t), ds[1..], t);
    }
  }

  /** Customers starting at `t` with non-negative durations complete no earlier than `t`. */
  lemma {:induction false} InsortAllFrom(cs: seq<real>, ds: seq<real>, t: real)
    requires NonNegative(ds) && NoneBefore(cs, t)
    ensures NoneBefore(InsortAll(cs, ds, t), t)
    decreases |ds|
  {
    if ds != [] {
      var x := ds[0] + t;
      var cs' := Insort(cs, x);
      InsortMembers(cs, x);
      forall k | 0 <= k < |cs'| ensures cs'[k] >= t {
        assert cs'[k] in cs';
      }
      assert NonNegative(ds[1..]) by {
        forall k | 0 <= k < |ds[1..]| ensures ds[1..][k] >= 0.0 {
          assert ds[1..][k] == ds[k + 1];
        }
      }
      InsortAllFrom(cs', ds[1..], t);
    }
  }

  // ---------------------------------------------------------------------------
  // Admission

  /** Admitting one customer keeps the invariant, adds one resident, never
      completes anyone before `t`, and queues only when every counter is busy. */
  lemma AdmitOneInv(s: Station, cap: nat, t: real, d: real)
    requires Inv(s, cap) && d >= 0.0
    ensures var r := AdmitOne(s, cap, t, d);
      && Inv(r, cap)
      && Total(r) == Total(s) + 1
      && Departed(r.counters, t) == Departed(s.counters, t)
      && (forall y :: y in r.counters ==> y in s.counters || y >= t)
      && (r.waiting != s.waiting ==> |s.counters| == cap && r.waiting == s.waiting + [d])
  {
    if |s.counters| < cap {
      InsortSorted(s.counters, d + t);
      DepartedInsort(s.counters, d + t, t);
      InsortMembers(s.counters, d + t);
    } else {
      var w := s.waiting + [d];
      assert forall k :: 0 <= k < |w| ==> w[k] >= 0.0;
    }
  }

  /** Admitting one customer never makes the earliest completion later. */
  lemma HeadAdmitOne(s: Station, cap: nat, t: real, d: real)
    requires Sorted(s.counters)
    ensures Le(Head(AdmitOne(s, cap, t, d)), Head(s))
  {
    if |s.counters| < cap && s.counters != [] {
      var r := Insort(s.counters, d + t);
      InsortSorted(s.counters, d + t);
      InsortBag(s.counters, d + t);
      assert s.counters[0] in multiset(r);
      var k :| 0 <= k < |r| && r[k] == s.counters[0];
      assert r[0] <= r[k];
    }
  }

  /** Admitting a batch with non-negative durations keeps the invariant, adds
      exactly the batch to the residents, and adds no completion before `t`. */
  lemma {:induction false} AdmitInv(s: Station, cap: nat, t: real, ds: seq<real>)
    requires Inv(s, cap) && NonNegative(ds)
    ensures var r := Admit(s, cap, t, ds);
      && Inv(r, cap)
      && Total(r) == Total(s) + |ds|
      && Departed(r.counters, t) == Departed(s.counters, t)
      && (forall y :: y in r.counters ==> y in s.counters || y >= t)
    decreases |ds|
  {
    if ds != [] {
      var ds' := ds[..|ds| - 1];
      assert NonNegative(ds') by {
        forall k | 0 <= k < |ds'| ensures ds'[k] >= 0.0 {
          assert ds'[k] == ds[k];
        }
      }
      AdmitInv(s, cap, t, ds');
      AdmitOneInv(Admit(s, cap, t, ds'), cap, t, ds[|ds| - 1]);
    }
  }

  /** Two batches drawn back to back are one batch. */
  lemma {:induction false} DrawsConcat(f: nat -> Duration, from: nat, a: nat, b: nat)
    ensures Draws(f, from, a) + Draws(f, from + a, b) == Draws(f, from, a + b)
    decreases b
  {
    if b > 0 {
      DrawsConcat(f, from, a, b - 1);
    }
  }

  /** Admitting two batches one after the other is admitting their concatenation. */
  lemma {:induction false} AdmitConcat(s: Station, cap: nat, t: real, a: seq<real>, b: seq<real>)
    ensures Admit(Admit(s, cap, t, a), cap, t, b) == Admit(s, cap, t, a + b)
    decreases |b|
  {
    if b == [] {
      assert a + b == a;
    } else {
      var b' := b[..|b| - 1];
      AdmitConcat(s, cap, t, a, b');
      assert (a + b)[..|a + b| - 1] == a + b';
      assert (a + b)[|a + b| - 1] == b[|b| - 1];
    }
  }

  /** Closed form of admission: with `k` the number of free counters (at most
      the batch size), the first `k` customers take counters at `t` with
      completion `t + duration`, and the rest join the back of the queue,
      each storing only its duration. */
  lemma {:induction false} AdmitClosedForm(s: Station, cap: nat, t: real, ds: seq<real>)
    requires |s.counters| <= cap
    ensures Admit(s, cap, t, ds) == AdmitSplit(s, cap, t, ds)
    decreases |ds|
  {
    if ds == [] {
      assert ds[..0] == [] && ds[0..] == [];
    } else {
      var ds' := ds[..|ds| - 1];
      AdmitClosedForm(s, cap, t, ds');
      if |ds'| < cap - |s.counters| {
        AdmitStepFree(s, cap, t, ds);
      } else {
        AdmitStepFull(s, cap, t, ds);
      }
    }
  }

  /** The right-hand side of `AdmitClosedForm`. */
  function AdmitSplit(s: Station, cap: nat, t: real, ds: seq<real>): Station
    requires |s.counters| <= cap
  {
    var k := if |ds| < cap - |s.counters| then |ds| else cap - |s.counters|;
    Station(InsortAll(s.counters, ds[..k], t), s.waiting + ds[k..])
  }

  /** Admitting one more customer after a batch. */
  lemma AdmitSnoc(s: Station, cap: nat, t: real, ds: seq<real>, d: real)
    ensures Admit(s, cap, t, ds + [d]) == AdmitOne(Admit(s, cap, t, ds), cap, t, d)
  {
    assert (ds + [d])[..|ds|] == ds;
  }

  /** While the batch fits the free counters, all of it takes counters. */
  lemma SplitFree(s: Station, cap: nat, t: real, ds: seq<real>)
    requires |s.counters| + |ds| <= cap
    ensures AdmitSplit(s, cap, t, ds) == Station(InsortAll(s.counters, ds, t), s.waiting)
  {
    assert ds[..|ds|] == ds && ds[|ds|..] == [];
  }

  /** Inductive step of `AdmitClosedForm` while a counter is still free. */
  lemma AdmitStepFree(s: Station, cap: nat, t: real, ds: seq<real>)
    requires |s.counters| <= cap && ds != [] && |ds| - 1 < cap - |s.counters|
    requires Admit(s, cap, t, ds[..|ds| - 1]) == AdmitSplit(s, cap, t, ds[..|ds| - 1])
    ensures Admit(s, cap, t, ds) == AdmitSplit(s, cap, t, ds)
  {
    var ds' := ds[..|ds| - 1];
    var d := ds[|ds| - 1];
    assert ds == ds' + [d];
    SplitFree(s, cap, t, ds');
    SplitFree(s, cap, t, ds);
    var c' := InsortAll(s.counters, ds', t);
    InsortAllLength(s.counters, ds', t);
    AdmitSnoc(s, cap, t, ds', d);
    assert AdmitOne(Station(c', s.waiting), cap, t, d) == Station(Insort(c', d + t), s.waiting);
    InsortAllSnoc(s.counters, ds', d, t);
  }

  /** Inductive step of `AdmitClosedForm` once every counter is busy. */
  lemma AdmitStepFull(s: Station, cap: nat, t: real, ds: seq<real>)
    requires |s.counters| <= cap && ds != [] && |ds| - 1 >= cap - |s.counters|
    requires Admit(s, cap, t, ds[..|ds| - 1]) == AdmitSplit(s, cap, t, ds[..|ds| - 1])
    ensures Admit(s, cap, t, ds) == AdmitSplit(s, cap, t, ds)
  {
    var free := cap - |s.counters|;
    var ds' := ds[..|ds| - 1];
    var d := ds[|ds| - 1];
    assert ds == ds' + [d];
    assert ds[..free] == ds'[..free];
    var c' := InsortAll(s.counters, ds'[..free], t);
    InsortAllLength(s.counters, ds'[..free], t);
    var a' := Admit(s, cap, t, ds');
    assert a' == Station(c', s.waiting + ds'[free..]);
    AdmitSnoc(s, cap, t, ds', d);
    assert AdmitOne(a', cap, t, d) == Station(c', (s.waiting + ds'[free..]) + [d]);
    assert (s.waiting + ds'[free..]) + [d] == s.waiting + ds[free..] by {
      SliceSnoc(ds, free);
    }
  }

  /** Dropping the last element of a suffix. */
  lemma SliceSnoc(ds: seq<real>, i: nat)
    requires i < |ds|
    ensures ds[i..] == ds[..|ds| - 1][i..] + [ds[|ds| - 1]]
  {
  }

  // ---------------------------------------------------------------------------
  // Departures

  /** The departures are the completions strictly before `t` at the head of
      the list; on a sorted list every later completion is at or after `t`. */
  lemma {:induction false} DepartedSpec(cs: seq<real>, t: real)
    ensures var n := Departed(cs, t);
      && (forall k :: 0 <= k < n ==> cs[k] < t)
      && (Sorted(cs) ==> forall k :: n <= k < |cs| ==> cs[k] >= t)
  {
    if cs != [] && cs[0] < t {
      DepartedSpec(cs[1..], t);
      var n := Departed(cs, t);
      forall k | 0 <= k < n ensures cs[k] < t {
        if k > 0 {
          assert cs[k] == cs[1..][k - 1];
        }
      }
      if Sorted(cs) {
        assert Sorted(cs[1..]);
        forall k | n <= k < |cs| ensures cs[k] >= t {
          assert cs[k] == cs[1..][k - 1];
        }
      }
    }
  }

  /** `Departed` is determined by the boundary between the completions before
      `t` and the first one that is not. */
  lemma {:induction false} DepartedIs(cs: seq<real>, t: real, n: nat)
    requires n <= |cs|
    requires forall k :: 0 <= k < n ==> cs[k] < t
    requires n == |cs| || cs[n] >= t
    ensures Departed(cs, t) == n
  {
    if n > 0 {
      assert forall k :: 0 <= k < n - 1 ==> cs[1..][k] == cs[k + 1];
      DepartedIs(cs[1..], t, n - 1);
    }
  }

  /** A completion time at or after `t` does not change who departs at `t`. */
  lemma DepartedInsort(cs: seq<real>, x: real, t: real)
    requires Sorted(cs) && x >= t
    ensures Departed(Insort(cs, x), t) == Departed(cs, t)
  {
    var n := Departed(cs, t);
    var i := BisectRight(cs, x);
    DepartedSpec(cs, t);
    BisectRightSpec(cs, x);
    var r := Insort(cs, x);
    assert n <= i;
    assert r == cs[..i] + [x] + cs[i..];
    DepartedIs(r, t, n);
  }

  // ---------------------------------------------------------------------------
  // Refilling the counters

  /** Closed form of refilling: with `k` the number of free counters (at most
      the queue length), the first `k` waiting customers, in FIFO order, take
      counters with completion `t + duration`; the rest stay queued. */
  lemma {:induction false} RefillClosedForm(s: Station, cap: nat, t: real)
    requires |s.counters| <= cap
    ensures var k := if |s.waiting| < cap - |s.counters| then |s.waiting| else cap - |s.counters|;
      Refill(s, cap, t) == Station(InsortAll(s.counters, s.waiting[..k], t), s.waiting[k..])
    decreases |s.waiting|
  {
    var k := if |s.waiting| < cap - |s.counters| then |s.waiting| else cap - |s.counters|;
    if |s.counters| < cap && s.waiting != [] {
      var w := s.waiting;
      var s' := Station(Insort(s.counters, w[0] + t), w[1..]);
      RefillClosedForm(s', cap, t);
      var k' := if |s'.waiting| < cap - |s'.counters| then |s'.waiting| else cap - |s'.counters|;
      assert k' == k - 1;
      assert w[..k][0] == w[0] && w[..k][1..] == s'.waiting[..k'];
      assert s'.waiting[k'..] == w[k..];
    } else {
      assert k == 0;
      assert s.waiting[..0] == [] && s.waiting[0..] == s.waiting;
    }
  }

  /** Refilling establishes the invariant (afterwards every counter is busy
      or nobody waits), keeps the customers, and starts nobody before `t`. */
  lemma RefillInv(s: Station, cap: nat, t: real)
    requires Sorted(s.counters) && |s.counters| <= cap && NonNegative(s.waiting)
    ensures var r := Refill(s, cap, t);
      && Inv(r, cap)
      && Total(r) == Total(s)
      && multiset(s.counters) <= multiset(r.counters)
      && (NoneBefore(s.counters, t) ==> NoneBefore(r.counters, t))
  {
    var k := if |s.waiting| < cap - |s.counters| then |s.waiting| else cap - |s.counters|;
    RefillClosedForm(s, cap, t);
    RefillSplitInv(s.counters, s.waiting, k, cap, t);
  }

  /** `RefillInv` on the closed form: `k` waiting customers take counters. */
  lemma RefillSplitInv(cs: seq<real>, w: seq<real>, k: nat, cap: nat, t: real)
    requires Sorted(cs) && |cs| <= cap && NonNegative(w)
    requires k == if |w| < cap - |cs| then |w| else cap - |cs|
    ensures var r := Station(InsortAll(cs, w[..k], t), w[k..]);
      && Inv(r, cap)
      && Total(r) == |cs| + |w|
      && multiset(cs) <= multiset(r.counters)
      && (NoneBefore(cs, t) ==> NoneBefore(r.counters, t))
  {
    var c := InsortAll(cs, w[..k], t);
    InsortAllLength(cs, w[..k], t);
    InsortAllBag(cs, w[..k], t);
    InsortAllSorted(cs, w[..k], t);
    assert |c| == |cs| + k;
    assert |w[k..]| == |w| - k;
    assert NonNegative(w[..k]) by {
      forall j | 0 <= j < k ensures w[..k][j] >= 0.0 {
        assert w[..k][j] == w[j];
      }
    }
    assert NonNegative(w[k..]) by {
      forall j | 0 <= j < |w| - k ensures w[k..][j] >= 0.0 {
        assert w[k..][j] == w[k + j];
      }
    }
    if NoneBefore(cs, t) {
      InsortAllFrom(cs, w[..k], t);
    }
  }

  /** One node step at `t`: exactly the completions strictly before `t` leave
      (a prefix, since the list is sorted), the others stay in service,
      customers are conserved, the invariant still holds and no remaining
      completion lies before `t`. */
  lemma AdvanceSpec(s: Station, cap: nat, t: real)
    requires Inv(s, cap)
    ensures var (r, out) := Advance(s, cap, t);
      && Inv(r, cap)
      && Total(s) == Total(r) + out
      && out <= |s.counters|
      && (forall k :: 0 <= k < out ==> s.counters[k] < t)
      && (forall k :: out <= k < |s.counters| ==> s.counters[k] >= t)
      && multiset(s.counters[out..]) <= multiset(r.counters)
      && NoneBefore(r.counters, t)
  {
    var out := Departed(s.counters, t);
    DepartedSpec(s.counters, t);
    var mid := Station(s.counters[out..], s.waiting);
    assert Sorted(mid.counters) by {
      forall a, b | 0 <= a < b < |mid.counters| ensures mid.counters[a] <= mid.counters[b] {
        assert mid.counters[a] == s.counters[out + a] && mid.counters[b] == s.counters[out + b];
      }
    }
    assert NoneBefore(mid.counters, t) by {
      forall k | 0 <= k < |mid.counters| ensures mid.counters[k] >= t {
        assert mid.counters[k] == s.counters[out + k];
      }
    }
    RefillInv(mid, cap, t);
  }
}
