/** The part of Python's `bisect` module the queueing node relies on:
    `insort` (that is, `insort_right`) into a list kept in ascending order. */
module Bisect {

  /** Ascending order, duplicates allowed. */
  predicate Sorted(s: seq<real>)
  {
    forall i, j :: 0 <= i < j < |s| ==> s[i] <= s[j]
  }

  /** `bisect_right(s, x)`: on a sorted list, the position just after the last
      element that is `<= x` (see `BisectRightSpec`). */
  function BisectRight(s: seq<real>, x: real): (i: nat)
    ensures i <= |s|
  {
    if s == [] || x < s[0] then 0 else 1 + BisectRight(s[1..], x)
  }

  /** `insort(s, x)`: `x` inserted at `bisect_right(s, x)`, so that equal keys
      keep their insertion order. */
  function Insort(s: seq<real>, x: real): (r: seq<real>)
    ensures |r| == |s| + 1
  {
    var i := BisectRight(s, x);
    s[..i] + [x] + s[i..]
  }

  /** Everything before the bisection point is `<= x`; on a sorted list
      everything from it on is `> x`. */
  lemma {:induction false} BisectRightSpec(s: seq<real>, x: real)
    ensures var i := BisectRight(s, x);
      && (forall k :: 0 <= k < i ==> s[k] <= x)
      && (Sorted(s) ==> forall k :: i <= k < |s| ==> x < s[k])
  {
    if s != [] && !(x < s[0]) {
      BisectRightSpec(s[1..], x);
      var i := BisectRight(s, x);
      assert forall k :: 1 <= k < |s| ==> s[k] == s[1..][k - 1];
      assert forall k :: 0 <= k < i ==> s[k] <= x by {
        forall k | 0 <= k < i ensures s[k] <= x {
          if k > 0 {
            assert s[k] == s[1..][k - 1];
          }
        }
      }
    }
  }

  /** Insertion adds exactly `x` to the elements. */
  lemma InsortBag(s: seq<real>, x: real)
    ensures multiset(Insort(s, x)) == multiset(s) + multiset{x}
  {
    var i := BisectRight(s, x);
    assert s == s[..i] + s[i..];
  }

  /** The inserted list holds the old elements and `x`, nothing else. */
  lemma InsortMembers(s: seq<real>, x: real)
    ensures forall y :: y in Insort(s, x) ==> y in s || y == x
  {
    InsortBag(s, x);
    forall y | y in Insort(s, x) ensures y in s || y == x {
      assert y in multiset(Insort(s, x));
    }
  }

  /** Inserting keeps a sorted list sorted. */
  lemma InsortSorted(s: seq<real>, x: real)
    requires Sorted(s)
    ensures Sorted(Insort(s, x))
  {
    var i := BisectRight(s, x);
    BisectRightSpec(s, x);
    var r := Insort(s, x);
    assert r == s[..i] + [x] + s[i..];
    forall a, b | 0 <= a < b < |r|
      ensures r[a] <= r[b]
    {
      if b < i {
        assert r[a] == s[a] && r[b] == s[b];
      } else if b == i {
        assert r[a] == s[a] && r[b] == x;
      } else if a < i {
        assert r[a] == s[a] && r[b] == s[b - 1];
      } else if a == i {
        assert r[a] == x && r[b] == s[b - 1];
      } else {
        assert r[a] == s[a - 1] && r[b] == s[b - 1];
      }
    }
  }
}
