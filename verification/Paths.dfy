/// Paths in a graph given by neighbour sets.
module Paths {
  import opened Laplacian
  import opened OperatorSeries

  ghost predicate Path(g: Adjacency, p: seq<nat>) {
    p != [] && forall i :: 0 <= i < |p| - 1 ==> p[i + 1] in Nbrs(g, p[i])
  }

  ghost predicate Joined(g: Adjacency, a: nat, b: nat) {
    exists p :: Path(g, p) && p[0] == a && p[|p| - 1] == b
  }

  ghost predicate Connected(g: Adjacency, n: nat) {
    forall a: nat, b: nat :: a < n && b < n ==> Joined(g, a, b)
  }

  lemma JoinedSelf(g: Adjacency, a: nat)
    ensures Joined(g, a, a)
  {
    assert Path(g, [a]);
  }

  lemma JoinedStep(g: Adjacency, a: nat, b: nat, c: nat)
    requires Joined(g, a, b) && c in Nbrs(g, b)
    ensures Joined(g, a, c)
  {
    var p :| Path(g, p) && p[0] == a && p[|p| - 1] == b;
    assert Path(g, p + [c]);
  }

  lemma {:induction false} JoinedAlong(g: Adjacency, a: nat, p: seq<nat>)
    requires Path(g, p) && Joined(g, a, p[0])
    ensures Joined(g, a, p[|p| - 1])
    decreases |p|
  {
    if |p| > 1 {
      assert p[1] in Nbrs(g, p[0]);
      JoinedStep(g, a, p[0], p[1]);
      assert Path(g, p[1..]);
      JoinedAlong(g, a, p[1..]);
    }
  }

  lemma {:induction false} JoinedBack(g: Adjacency, n: nat, p: seq<nat>)
    requires Simple(g, n) && Path(g, p)
    ensures Joined(g, p[|p| - 1], p[0])
    decreases |p|
  {
    if |p| == 1 {
      JoinedSelf(g, p[0]);
    } else {
      assert p[1] in Nbrs(g, p[0]);
      assert Path(g, p[1..]);
      JoinedBack(g, n, p[1..]);
      assert p[0] in Nbrs(g, p[1]);
      JoinedStep(g, p[|p| - 1], p[1], p[0]);
    }
  }

  lemma JoinedThrough(g: Adjacency, n: nat, hub: nat, a: nat, b: nat)
    requires Simple(g, n) && Joined(g, hub, a) && Joined(g, hub, b)
    ensures Joined(g, a, b)
  {
    var p :| Path(g, p) && p[0] == hub && p[|p| - 1] == a;
    JoinedBack(g, n, p);
    var q :| Path(g, q) && q[0] == hub && q[|q| - 1] == b;
    JoinedAlong(g, a, q);
  }

  lemma JoinedGrows(g: Adjacency, g': Adjacency, a: nat, b: nat)
    requires Joined(g, a, b) && forall i: nat :: Nbrs(g, i) <= Nbrs(g', i)
    ensures Joined(g', a, b)
  {
  }

  /// Paths do not leave a set closed under neighbours.
  lemma {:induction false} StaysInside(g: Adjacency, inside: set<nat>, p: seq<nat>)
    requires Path(g, p) && p[0] in inside && forall i :: i in inside ==> Nbrs(g, i) <= inside
    ensures p[|p| - 1] in inside
    decreases |p|
  {
    if |p| > 1 {
      assert p[1] in Nbrs(g, p[0]);
      assert Path(g, p[1..]);
      StaysInside(g, inside, p[1..]);
    }
  }

  /// A node without neighbours is joined only to itself.
  lemma IsolatedNotJoined(g: Adjacency, a: nat, b: nat)
    requires Nbrs(g, a) == {} && a != b
    ensures !Joined(g, a, b)
  {
    forall p | Path(g, p) && p[0] == a ensures p[|p| - 1] == a {
      StaysInside(g, {a}, p);
    }
  }

  /// The k-hop balls hold only joined nodes.
  lemma {:induction false} BallJoined(g: Adjacency, n: nat, s: nat, k: nat, i: nat)
    requires i in Ball(g, n, s, k)
    ensures Joined(g, s, i)
  {
    if k == 0 {
      JoinedSelf(g, s);
    } else if i in Ball(g, n, s, k - 1) {
      BallJoined(g, n, s, k - 1, i);
    } else {
      var j: nat :| j in Ball(g, n, s, k - 1) && i in Nbrs(g, j);
      BallJoined(g, n, s, k - 1, j);
      JoinedStep(g, s, j, i);
    }
  }
}
