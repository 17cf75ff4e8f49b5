/**
 * The positions a group submits fetches for, and the orders in which `as_completed` can hand
 * those fetches back (main.py:232-246). A group is described here only by which of its rows
 * get a fetch (`flags`); a completion order is any arrangement of the flagged positions.
 */
module Completion {

  /** The flagged positions, in increasing order. */
  function Positions(flags: seq<bool>): seq<int> {
    if flags == [] then []
    else
      var init := Positions(flags[..|flags| - 1]);
      if flags[|flags| - 1] then init + [|flags| - 1] else init
  }

  /** How many positions are flagged. */
  function CountTrue(flags: seq<bool>): nat {
    if flags == [] then 0
    else CountTrue(flags[..|flags| - 1]) + (if flags[|flags| - 1] then 1 else 0)
  }

  /** The listed positions are exactly the flagged ones, each listed once. */
  lemma {:induction false} PositionsMembers(flags: seq<bool>)
    ensures |Positions(flags)| == CountTrue(flags)
    ensures forall x :: x in Positions(flags) <==> 0 <= x < |flags| && flags[x]
    ensures forall x :: multiset(Positions(flags))[x] <= 1
    decreases |flags|
  {
    if flags != [] {
      var n := |flags|;
      var init := flags[..n - 1];
      var d, di := Positions(flags), Positions(init);
      PositionsMembers(init);
      forall x ensures x in d <==> 0 <= x < n && flags[x] {
        if 0 <= x < n - 1 {
          assert init[x] == flags[x];
        }
      }
      if flags[n - 1] {
        var last := n - 1;
        assert d == di + [last];
        assert last !in di;
        forall x ensures multiset(d)[x] <= 1 {
          assert multiset(d)[x] == multiset(di)[x] + multiset([last])[x];
        }
      }
    }
  }

  lemma {:induction false} CountTrueAppend(a: seq<bool>, b: seq<bool>)
    ensures CountTrue(a + b) == CountTrue(a) + CountTrue(b)
    decreases |b|
  {
    if b == [] {
      assert a + b == a;
    } else {
      var binit := b[..|b| - 1];
      assert (a + b)[..|a + b| - 1] == a + binit;
      CountTrueAppend(a, binit);
    }
  }

  /** A sequence with the same elements as one that holds each element at most once lists the
      same elements, each once. */
  lemma SameElementsOnce(order: seq<int>, d: seq<int>)
    requires multiset(order) == multiset(d)
    requires forall x :: multiset(d)[x] <= 1
    ensures forall x :: x in order <==> x in d
    ensures forall i, j :: 0 <= i < j < |order| ==> order[i] != order[j]
  {
    forall x ensures x in order <==> x in d {
      assert x in order <==> x in multiset(order);
    }
    forall i, j | 0 <= i < j < |order| ensures order[i] != order[j] {
      var left, right := order[..j], order[j..];
      assert order == left + right;
      assert multiset(order)[order[j]] == multiset(left)[order[j]] + multiset(right)[order[j]];
      assert left[i] == order[i] && right[0] == order[j];
    }
  }

  /** A completion order: every flagged position once, in any order. */
  predicate IsCompletionOrder(order: seq<int>, flags: seq<bool>) {
    multiset(order) == multiset(Positions(flags))
  }

  /**
   * A completion order lists every flagged position once and nothing else, so it is as long as
   * there are flagged positions. `slot[p]` is where flagged position `p` comes in the order.
   */
  lemma CompletionOrderFacts(order: seq<int>, flags: seq<bool>) returns (slot: seq<int>)
    requires IsCompletionOrder(order, flags)
    ensures |slot| == |flags|
    ensures forall k :: 0 <= k < |order| ==> 0 <= order[k] < |flags| && flags[order[k]] && slot[order[k]] == k
    ensures forall p :: 0 <= p < |flags| && flags[p] ==> 0 <= slot[p] < |order| && order[slot[p]] == p
    ensures |order| == CountTrue(flags)
  {
    var d := Positions(flags);
    PositionsMembers(flags);
    SameElementsOnce(order, d);
    assert |order| == |multiset(order)| == |multiset(d)| == |d|;
    forall k | 0 <= k < |order| ensures 0 <= order[k] < |flags| && flags[order[k]] {
      assert order[k] in d;
    }
    slot := seq(|flags|, p requires 0 <= p < |flags| => if p in order then IndexOf(order, p) else 0);
    forall k | 0 <= k < |order| ensures slot[order[k]] == k {
      var j := IndexOf(order, order[k]);
      assert order[j] == order[k];
      assert !(j < k) && !(k < j);
    }
  }

  /** Where a listed value first appears. */
  function IndexOf(s: seq<int>, x: int): (i: int)
    requires x in s
    ensures 0 <= i < |s| && s[i] == x
  {
    if s[0] == x then 0 else 1 + IndexOf(s[1..], x)
  }
}
