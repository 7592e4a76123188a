/** Which operations a run order leaves out: exactly those downstream of a cycle. */
module Cycles {
  import opened Sequences
  import opened Models
  import opened RunOrder
  import opened ModelBuilding

  /** Operation `j` reads something that operation `i` writes. */
  ghost predicate Feeds(m: Model, i: nat, j: nat) {
    exists o :: o in OutputsOf(m, i) && o in InputsOf(m, j)
  }

  ghost predicate Path(m: Model, p: seq<nat>) {
    && p != []
    && (forall k :: 0 <= k < |p| ==> p[k] < |m.operations|)
    && (forall k, l :: 0 <= k < |p| && l == k + 1 && l < |p| ==> Feeds(m, p[k], p[l]))
  }

  /** A path that starts with a cycle and ends in `j`. */
  ghost predicate Lasso(m: Model, p: seq<nat>, knot: nat, j: nat) {
    Path(m, p) && 0 < knot < |p| && p[0] == p[knot] && p[|p|-1] == j
  }

  ghost predicate DownstreamOfCycle(m: Model, j: nat) {
    exists p, knot :: Lasso(m, p, knot, j)
  }

  ghost predicate Acyclic(m: Model) {
    forall j :: 0 <= j < |m.operations| ==> !DownstreamOfCycle(m, j)
  }

  lemma FeederComesEarlier(m: Model, order: seq<nat>, q: nat, i: nat) returns (r: nat)
    requires InRange(m) && WrittenOnce(m) && Topological(m, order)
    requires q < |order| && Feeds(m, i, order[q])
    ensures r < q && order[r] == i
  {
    var o :| o in OutputsOf(m, i) && o in InputsOf(m, order[q]);
    assert Ready(m, order[q], Outs(m, order[..q]));
    var w :| w in order[..q] && o in OutputsOf(m, w);
    UniqueWriter(m, i, w, o);
    r :| 0 <= r < q && order[r] == i;
  }

  /** Going back along a path goes back in the run order by at least as many places. */
  lemma {:induction false} PathGoesBack(m: Model, order: seq<nat>, p: seq<nat>, q: nat) returns (first: nat)
    requires InRange(m) && WrittenOnce(m) && Topological(m, order)
    requires Path(m, p) && q < |order| && p[|p|-1] == order[q]
    ensures first + |p| - 1 <= q && order[first] == p[0]
    decreases |p|
  {
    hide InRange, WrittenOnce, Topological, Feeds;
    if |p| == 1 {
      first := q;
    } else {
      var r := FeederComesEarlier(m, order, q, p[|p|-2]);
      first := PathGoesBack(m, order, p[..|p|-1], r);
    }
  }

  lemma NoLassoInOrder(m: Model, order: seq<nat>, p: seq<nat>, knot: nat, j: nat)
    requires InRange(m) && WrittenOnce(m) && Operations(m, order) && Topological(m, order)
    requires Lasso(m, p, knot, j)
    ensures j !in order
  {
    hide InRange, WrittenOnce, Topological, Feeds;
    if j in order {
      var q :| 0 <= q < |order| && order[q] == j;
      var tail, head := p[knot..], p[..knot+1];
      assert Path(m, tail) by {
        forall k, l | 0 <= k < |tail| && l == k + 1 && l < |tail| ensures Feeds(m, tail[k], tail[l]) {
          assert Feeds(m, p[knot + k], p[knot + l]);
        }
      }
      var a := PathGoesBack(m, order, tail, q);
      var b := PathGoesBack(m, order, head, a);
      assert false;
    }
  }

  /** An operation that was left out reads from another one that was left out. */
  lemma LeftOutWaits(m: Model, order: seq<nat>, j: nat) returns (i: nat)
    requires InRange(m) && WrittenOnce(m) && IsRunOrder(m, order)
    requires j < |m.operations| && j !in order
    ensures i < |m.operations| && i !in order && Feeds(m, i, j)
  {
    assert !Ready(m, j, Outs(m, order));
    var o :| o in InputsOf(m, j) && o < |m.operands| && IsDataflow(m.operands[o]) && o !in Outs(m, order);
    var w :| 0 <= w < |m.operations| && o in m.operations[w].outputs;
    i := w;
    assert o in OutputsOf(m, i);
  }

  lemma {:induction false} BackPath(m: Model, order: seq<nat>, j: nat, length: nat) returns (p: seq<nat>)
    requires InRange(m) && WrittenOnce(m) && IsRunOrder(m, order)
    requires j < |m.operations| && j !in order
    ensures Path(m, p) && |p| == length + 1 && p[length] == j
    decreases length
  {
    hide InRange, WrittenOnce, IsRunOrder, Feeds;
    if length == 0 {
      p := [j];
    } else {
      var i := LeftOutWaits(m, order, j);
      var init := BackPath(m, order, i, length - 1);
      p := init + [j];
    }
  }

  /** The sort drops an operation exactly when it is downstream of a cycle. */
  lemma LeftOutIffDownstreamOfCycle(m: Model, order: seq<nat>, j: nat)
    requires InRange(m) && WrittenOnce(m) && IsRunOrder(m, order) && j < |m.operations|
    ensures j !in order <==> DownstreamOfCycle(m, j)
  {
    hide InRange, WrittenOnce, Topological, Ready, Feeds;
    if j !in order {
      var p := BackPath(m, order, j, |m.operations|);
      if NoDup(p) {
        assert forall x :: x in p ==> x < |m.operations|;
        NoDupBounded(p, |m.operations|);
        assert false;
      }
      var a, b :| 0 <= a < b < |p| && p[a] == p[b];
      var q := p[a..];
      assert Path(m, q) by {
        forall k, l | 0 <= k < |q| && l == k + 1 && l < |q| ensures Feeds(m, q[k], q[l]) {
          assert Feeds(m, p[a + k], p[a + l]);
        }
      }
      assert Lasso(m, q, b - a, j);
    } else {
      forall p, knot | Lasso(m, p, knot, j) ensures false {
        NoLassoInOrder(m, order, p, knot, j);
      }
    }
  }

  /** The sort keeps every operation exactly when the graph has no cycle. */
  lemma CompleteIffAcyclic(m: Model, order: seq<nat>)
    requires InRange(m) && WrittenOnce(m) && IsRunOrder(m, order)
    ensures |order| == |m.operations| <==> Acyclic(m)
  {
    forall j | 0 <= j < |m.operations| ensures j in order <==> !DownstreamOfCycle(m, j) {
      LeftOutIffDownstreamOfCycle(m, order, j);
    }
    NoDupBounded(order, |m.operations|);
    if |order| == |m.operations| {
      forall j | 0 <= j < |m.operations| ensures j in order { NoDupFull(order, |m.operations|, j); }
    } else {
      assert Acyclic(m) ==> false by {
        if Acyclic(m) { AllPresent(order, |m.operations|); }
      }
    }
  }

  lemma {:induction false} AllPresent(order: seq<nat>, n: nat)
    requires forall j :: 0 <= j < n ==> j in order
    ensures |order| >= n
  {
    if n > 0 {
      assert n - 1 in order;
      var k :| 0 <= k < |order| && order[k] == n - 1;
      var rest := order[..k] + order[k+1..];
      forall j | 0 <= j < n - 1 ensures j in rest {
        assert j in order;
        var q :| 0 <= q < |order| && order[q] == j;
        if q < k { assert rest[q] == j; } else { assert rest[q - 1] == j; }
      }
      AllPresent(rest, n - 1);
    }
  }

  /** If some order runs everything listed in it, every run order contains all of it. */
  lemma {:induction false} RunOrderCovers(m: Model, order: seq<nat>, some: seq<nat>, n: nat)
    requires IsRunOrder(m, order) && Topological(m, some) && n <= |some|
    requires forall p :: 0 <= p < |some| ==> some[p] < |m.operations|
    ensures forall p :: 0 <= p < n ==> some[p] in order
  {
    if n > 0 {
      RunOrderCovers(m, order, some, n - 1);
      assert Ready(m, some[n-1], Outs(m, some[..n-1]));
      assert Outs(m, some[..n-1]) <= Outs(m, order);
    }
  }
}
