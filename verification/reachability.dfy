// Reachability in a directed graph given by its step relation. The parity
// checker walks four such graphs, each with a different strategy; what every
// walk must return is stated with `Reach`.
module Reachability {

  // `via` lists the nodes after `a` on a walk from `a` to `b`.
  ghost predicate Walk<N(!new)>(step: (N, N) -> bool, a: N, via: seq<N>, b: N)
    decreases |via|
  {
    if via == [] then a == b
    else step(a, via[0]) && Walk(step, via[0], via[1..], b)
  }

  ghost predicate Reach<N(!new)>(step: (N, N) -> bool, a: N, b: N) {
    exists via :: Walk(step, a, via, b)
  }

  lemma ReachSelf<N(!new)>(step: (N, N) -> bool, a: N)
    ensures Reach(step, a, a)
  {
    assert Walk(step, a, [], a);
  }

  lemma ReachFront<N(!new)>(step: (N, N) -> bool, a: N, b: N, c: N)
    requires step(a, b) && Reach(step, b, c)
    ensures Reach(step, a, c)
  {
    var via :| Walk(step, b, via, c);
    assert ([b] + via)[1..] == via;
    assert Walk(step, a, [b] + via, c);
  }

  lemma {:induction false} WalkAppend<N(!new)>(step: (N, N) -> bool, a: N, via: seq<N>, b: N, c: N)
    requires Walk(step, a, via, b) && step(b, c)
    ensures Walk(step, a, via + [c], c)
    decreases |via|
  {
    if via == [] {
      assert [c][1..] == [];
    } else {
      WalkAppend(step, via[0], via[1..], b, c);
      assert (via + [c])[1..] == via[1..] + [c];
    }
  }

  lemma ReachBack<N(!new)>(step: (N, N) -> bool, a: N, b: N, c: N)
    requires Reach(step, a, b) && step(b, c)
    ensures Reach(step, a, c)
  {
    var via :| Walk(step, a, via, b);
    WalkAppend(step, a, via, b, c);
  }

  // What is reached from elsewhere is reached by a last step.
  lemma LastStep<N(!new)>(step: (N, N) -> bool, a: N, b: N) returns (c: N)
    requires Reach(step, a, b) && a != b
    ensures step(c, b)
  {
    var via :| Walk(step, a, via, b);
    c := LastOfWalk(step, a, via, b);
  }

  lemma {:induction false} LastOfWalk<N(!new)>(step: (N, N) -> bool, a: N, via: seq<N>, b: N) returns (c: N)
    requires Walk(step, a, via, b) && via != []
    ensures step(c, b)
    decreases |via|
  {
    if |via| == 1 {
      c := a;
    } else {
      c := LastOfWalk(step, via[0], via[1..], b);
    }
  }

  // A walk may be restarted from any node it visits.
  lemma {:induction false} WalkSuffix<N(!new)>(step: (N, N) -> bool, a: N, via: seq<N>, b: N, i: nat)
    requires Walk(step, a, via, b) && i < |via|
    ensures Walk(step, via[i], via[i + 1..], b)
    decreases |via|
  {
    if i > 0 {
      WalkSuffix(step, via[0], via[1..], b, i - 1);
      assert via[1..][i..] == via[i + 1..];
    }
  }

  // A set that holds `a` and is closed under the step holds all `a` reaches.
  lemma {:induction false} ClosedHoldsWalk<N(!new)>(step: (N, N) -> bool, s: set<N>, a: N, via: seq<N>, b: N)
    requires a in s && Walk(step, a, via, b)
    requires forall x, y :: x in s && step(x, y) ==> y in s
    ensures b in s
    decreases |via|
  {
    if via != [] {
      ClosedHoldsWalk(step, s, via[0], via[1..], b);
    }
  }

  lemma ClosedHoldsReach<N(!new)>(step: (N, N) -> bool, s: set<N>, a: N, b: N)
    requires a in s && Reach(step, a, b)
    requires forall x, y :: x in s && step(x, y) ==> y in s
    ensures b in s
  {
    var via :| Walk(step, a, via, b);
    ClosedHoldsWalk(step, s, a, via, b);
  }

  // Whatever `a` reaches, it reaches by a walk that never comes back to `a`
  // and visits nothing new.
  lemma {:induction false} LeaveOnce<N(!new)>(step: (N, N) -> bool, a: N, via: seq<N>, b: N)
      returns (out: seq<N>)
    requires Walk(step, a, via, b)
    ensures Walk(step, a, out, b) && a !in out && |out| <= |via|
    ensures forall x :: x in out ==> x in via
    decreases |via|
  {
    if a in via {
      var i :| 0 <= i < |via| && via[i] == a;
      WalkSuffix(step, a, via, b, i);
      out := LeaveOnce(step, a, via[i + 1..], b);
    } else {
      out := via;
    }
  }
}
