/// Barabási–Albert generation (src/core/graph/topology.ts). The random source is a given sequence of
/// draws; generation is unfinished when it runs out.
module Topology {
  import opened Laplacian
  import opened GraphStates
  import opened Paths
  import opened Text

  // ---------- node names ----------

  function NodeName(i: nat): string {
    "node-" + Decimal(i)
  }

  function Names(n: nat): (ids: seq<string>)
    ensures |ids| == n && forall i :: 0 <= i < n ==> ids[i] == NodeName(i)
  {
    seq(n, i requires 0 <= i < n => NodeName(i))
  }

  lemma NamesDistinct(n: nat)
    ensures forall i, j :: 0 <= i < n && 0 <= j < n && Names(n)[i] == Names(n)[j] ==> i == j
  {
    forall i, j | 0 <= i < n && 0 <= j < n && Names(n)[i] == Names(n)[j] ensures i == j {
      assert NodeName(i)[5..] == Decimal(i) && NodeName(j)[5..] == Decimal(j);
      DecimalInjective(i, j);
    }
  }

  // ---------- degree-weighted picks ----------

  function Weight(degree: nat): nat {
    if degree > 1 then degree else 1
  }

  function WeightSum(degrees: seq<nat>, j: nat): nat
    requires j <= |degrees|
  {
    if j == 0 then 0 else WeightSum(degrees, j - 1) + Weight(degrees[j - 1])
  }

  /// Target j owns the positions in the interval of length Weight(degrees[j]) that follows the
  /// weights before it; a position of zero falls to target 0.
  ghost predicate Owns(degrees: seq<nat>, i: nat, position: real, j: nat)
    requires i <= |degrees|
  {
    && j < i
    && position <= WeightSum(degrees, j + 1) as real
    && (j > 0 ==> WeightSum(degrees, j) as real < position)
  }

  lemma {:induction false} WeightSumMonotone(degrees: seq<nat>, j: nat, k: nat)
    requires j <= k <= |degrees|
    ensures WeightSum(degrees, j) + (k - j) <= WeightSum(degrees, k)
    decreases k
  {
    if j < k {
      WeightSumMonotone(degrees, j, k - 1);
    }
  }

  /// The owner of a position is unique, so the pick inverts the cumulative weights.
  lemma OwnerUnique(degrees: seq<nat>, i: nat, position: real, j: nat, k: nat)
    requires i <= |degrees| && Owns(degrees, i, position, j) && Owns(degrees, i, position, k)
    ensures j == k
  {
    if j < k {
      WeightSumMonotone(degrees, j + 1, k);
    } else if k < j {
      WeightSumMonotone(degrees, k + 1, j);
    }
  }

  method Walk(degrees: seq<nat>, i: nat, start: real) returns (j: nat)
    requires 0 < i <= |degrees| && start <= WeightSum(degrees, i) as real
    ensures Owns(degrees, i, start, j)
  {
    var cursor := start;
    j := 0;
    while true
      invariant 0 <= j < i
      invariant cursor == start - WeightSum(degrees, j) as real
      invariant j > 0 ==> cursor > 0.0
      decreases i - j
    {
      cursor := cursor - Weight(degrees[j]) as real;
      if cursor <= 0.0 {
        return;
      }
      j := j + 1;
    }
  }

  method Pick(degrees: seq<nat>, i: nat, draw: real) returns (j: nat)
    requires 0 < i <= |degrees| && 0.0 <= draw < 1.0
    ensures WeightSum(degrees, i) > 0 && Owns(degrees, i, Position(draw, WeightSum(degrees, i)), j)
    ensures j < i && draw * Positions(degrees, i) as real <= Positions(degrees, j + 1) as real
    ensures j > 0 ==> Positions(degrees, j) as real < draw * Positions(degrees, i) as real
  {
    hide Position, Positions;
    var totalDegree := 0;
    for k := 0 to i
      invariant totalDegree == WeightSum(degrees, k)
    {
      totalDegree := totalDegree + Weight(degrees[k]);
    }
    WeightSumMonotone(degrees, 0, i);
    var start := Position(draw, totalDegree);
    j := Walk(degrees, i, start);
    PickedInPositions(degrees, i, draw, j);
  }

  lemma PickedInPositions(degrees: seq<nat>, i: nat, draw: real, j: nat)
    requires 0 < i <= |degrees| && 0.0 <= draw < 1.0
    requires WeightSum(degrees, i) > 0 && Owns(degrees, i, Position(draw, WeightSum(degrees, i)), j)
    ensures draw * Positions(degrees, i) as real <= Positions(degrees, j + 1) as real
    ensures j > 0 ==> Positions(degrees, j) as real < draw * Positions(degrees, i) as real
  {
    hide Positions, WeightSum;
    PositionIs(draw, WeightSum(degrees, i));
    PositionsAreWeights(degrees, i);
    PositionsAreWeights(degrees, j);
    PositionsAreWeights(degrees, j + 1);
    hide Position;
  }

  /// How many positions the first j nodes have: each as many as its degree, and one if that is zero.
  ghost function Positions(degrees: seq<nat>, j: nat): nat
    requires j <= |degrees|
  {
    if j == 0 then 0 else Positions(degrees, j - 1) + if degrees[j - 1] == 0 then 1 else degrees[j - 1]
  }

  lemma {:induction false} PositionsAreWeights(degrees: seq<nat>, j: nat)
    requires j <= |degrees|
    ensures Positions(degrees, j) == WeightSum(degrees, j)
  {
    if j > 0 {
      PositionsAreWeights(degrees, j - 1);
    }
  }

  /// The point of the cumulative weights that a draw selects.
  function Position(draw: real, total: nat): (r: real)
    requires 0.0 <= draw < 1.0 && total > 0
    ensures 0.0 <= r < total as real
  {
    draw * total as real
  }

  // ---------- the generated graph ----------

  /// Undirected edges, each as an increasing pair.
  ghost function Edges(g: Adjacency): set<(nat, nat)> {
    set a: nat, b: nat | a in g && b in g[a] && a < b :: (a, b)
  }

  /// Adding the edge {a, b} to the graph.
  ghost predicate Adds(g: Adjacency, g': Adjacency, a: nat, b: nat) {
    && g'.Keys == g.Keys
    && forall i: nat, j: nat {:trigger j in Nbrs(g', i)} :: j in Nbrs(g', i) <==>
         j in Nbrs(g, i) || (i == a && j == b) || (i == b && j == a)
  }

  lemma AddsEdge(g: Adjacency, g': Adjacency, a: nat, b: nat)
    requires Adds(g, g', a, b) && a in g && b in g && a < b && b !in Nbrs(g, a) && a !in Nbrs(g, b)
    ensures Edges(g') == Edges(g) + {(a, b)} && |Edges(g')| == |Edges(g)| + 1
    ensures forall i: nat :: |Nbrs(g', i)| == |Nbrs(g, i)| + if i == a || i == b then 1 else 0
    ensures forall i: nat :: Nbrs(g, i) <= Nbrs(g', i)
  {
    assert Edges(g') == Edges(g) + {(a, b)} by {
      forall i: nat, j: nat ensures (i, j) in Edges(g') <==> (i, j) in Edges(g) + {(a, b)} {
        assert j in Nbrs(g', i) <==> j in Nbrs(g, i) || (i == a && j == b) || (i == b && j == a);
      }
    }
    forall i: nat
      ensures |Nbrs(g', i)| == |Nbrs(g, i)| + if i == a || i == b then 1 else 0
      ensures Nbrs(g, i) <= Nbrs(g', i)
    {
      if i == a {
        assert Nbrs(g', i) == Nbrs(g, i) + {b};
      } else if i == b {
        assert Nbrs(g', i) == Nbrs(g, i) + {a};
      } else {
        assert Nbrs(g', i) == Nbrs(g, i);
      }
    }
  }

  /// The generator's side array holds the true degrees, and edges touch only the first i nodes.
  ghost predicate Tracks(g: Adjacency, degrees: seq<nat>, i: nat) {
    && (forall a :: 0 <= a < |degrees| ==> degrees[a] == |Nbrs(g, a)|)
    && (forall a: nat, b: nat {:trigger b in Nbrs(g, a)} :: b in Nbrs(g, a) ==> a < i && b < i)
  }

  // ---------- picks in terms of the graph ----------

  /// The sum of the degrees of the first j nodes, and the same with a node without edges counting as one.
  ghost function DegreeSum(g: Adjacency, j: nat): nat {
    if j == 0 then 0 else DegreeSum(g, j - 1) + |Nbrs(g, j - 1)|
  }

  ghost function PositionSum(g: Adjacency, j: nat): nat {
    if j == 0 then 0 else PositionSum(g, j - 1) + if Nbrs(g, j - 1) == {} then 1 else |Nbrs(g, j - 1)|
  }

  /// Node j is the one of the first i nodes that a draw falls to, each having as many positions as edges,
  /// and at least one.
  ghost predicate PickedBy(g: Adjacency, i: nat, draw: real, j: nat) {
    && j < i
    && draw * PositionSum(g, i) as real <= PositionSum(g, j + 1) as real
    && (j > 0 ==> PositionSum(g, j) as real < draw * PositionSum(g, i) as real)
  }

  lemma {:induction false} WeightsArePositions(g: Adjacency, degrees: seq<nat>, i: nat, j: nat)
    requires Tracks(g, degrees, i) && j <= |degrees|
    ensures WeightSum(degrees, j) == PositionSum(g, j)
  {
    if j > 0 {
      WeightsArePositions(g, degrees, i, j - 1);
      assert degrees[j - 1] == |Nbrs(g, j - 1)|;
    }
  }

  lemma NoWeight(degrees: seq<nat>)
    ensures WeightSum(degrees, 0) == 0
  {
  }

  lemma PositionIs(draw: real, total: nat)
    requires 0.0 <= draw < 1.0 && total > 0
    ensures Position(draw, total) == draw * total as real
  {
  }

  /// A pick from the side array is a pick from the graph it tracks.
  lemma ChosenIsPicked(g: Adjacency, degrees: seq<nat>, i: nat, draw: real, j: nat)
    requires Tracks(g, degrees, i) && 0 < i <= |degrees| && 0.0 <= draw < 1.0
    ensures Chosen(degrees, i, draw, j) <==> PickedBy(g, i, draw, j)
  {
    hide WeightSum, PositionSum, Tracks, Position;
    WeightsArePositions(g, degrees, i, i);
    WeightSumMonotone(degrees, 0, i);
    assert WeightSum(degrees, 0) == 0 by { NoWeight(degrees); }
    PositionIs(draw, WeightSum(degrees, i));
    if j < i {
      WeightsArePositions(g, degrees, i, j);
      WeightsArePositions(g, degrees, i, j + 1);
    }
  }

  /// The graph as it was when only the first k nodes had edges.
  ghost function Before(g: Adjacency, k: nat): Adjacency {
    map a | a in g :: EarlierOf(g, a, k)
  }

  ghost function EarlierOf(g: Adjacency, a: nat, k: nat): set<nat> {
    set b | b in Nbrs(g, a) && a < k && b < k
  }

  lemma BeforeNbrs(g: Adjacency, k: nat, a: nat)
    ensures Nbrs(Before(g, k), a) == EarlierOf(g, a, k)
  {
  }

  ghost predicate Within(g: Adjacency, i: nat) {
    forall a: nat, b: nat {:trigger b in Nbrs(g, a)} :: b in Nbrs(g, a) ==> a < i && b < i && a != b && a in Nbrs(g, b)
  }

  /// How many of the first j nodes are neighbours of k.
  ghost function CountBelow(s: set<nat>, j: nat): nat {
    if j == 0 then 0 else CountBelow(s, j - 1) + if j - 1 in s then 1 else 0
  }

  lemma {:induction false} CountAllBelow(s: set<nat>, j: nat)
    requires forall a :: a in s ==> a < j
    ensures CountBelow(s, j) == |s|
  {
    if j == 0 {
      assert s == {};
    } else {
      var front := s - {j - 1};
      CountAllBelow(front, j - 1);
      CountSame(s, front, j - 1);
      if j - 1 in s {
        assert s == front + {j - 1};
      } else {
        assert s == front;
      }
    }
  }

  lemma {:induction false} CountSame(s: set<nat>, t: set<nat>, j: nat)
    requires forall a :: a < j ==> (a in s <==> a in t)
    ensures CountBelow(s, j) == CountBelow(t, j)
  {
    if j > 0 {
      CountSame(s, t, j - 1);
    }
  }

  /// Taking the last node's edges away takes one from the degree of each of its neighbours.
  lemma {:induction false} DegreesDrop(g: Adjacency, k: nat, j: nat)
    requires Within(g, k + 1) && j <= k
    ensures DegreeSum(g, j) == DegreeSum(Before(g, k), j) + CountBelow(Nbrs(g, k), j)
  {
    if j > 0 {
      hide Within, EarlierOf, Before;
      DegreesDrop(g, k, j - 1);
      BeforeNbrs(g, k, j - 1);
      OneDrop(g, k, j - 1);
    }
  }

  lemma OneDrop(g: Adjacency, k: nat, a: nat)
    requires Within(g, k + 1) && a < k
    ensures |Nbrs(g, a)| == |EarlierOf(g, a, k)| + if a in Nbrs(g, k) then 1 else 0
  {
    assert a in Nbrs(g, k) <==> k in Nbrs(g, a);
    assert forall b :: b in Nbrs(g, a) ==> b < k + 1;
    if a in Nbrs(g, k) {
      assert Nbrs(g, a) == EarlierOf(g, a, k) + {k};
    } else {
      assert Nbrs(g, a) == EarlierOf(g, a, k);
    }
  }

  lemma EdgesDrop(g: Adjacency, k: nat)
    requires Within(g, k + 1)
    ensures |Edges(g)| == |Edges(Before(g, k))| + |Nbrs(g, k)|
  {
    var before, last := Edges(Before(g, k)), Pairs(Nbrs(g, k), k);
    hide Edges, Before, Within;
    forall e: (nat, nat)
      ensures e in Edges(g) <==> e in before || e in last
      ensures !(e in before && e in last)
    {
      var a, b := e.0, e.1;
      assert e == (a, b);
      EdgeIs(g, a, b);
      EdgeIs(Before(g, k), a, b);
      BeforeNbrs(g, k, a);
      WithinAt(g, k + 1, a, b);
      WithinAt(g, k + 1, b, a);
    }
    assert Edges(g) == before + last && before !! last;
    PairsCount(Nbrs(g, k), k);
  }

  lemma EdgeIs(g: Adjacency, a: nat, b: nat)
    ensures (a, b) in Edges(g) <==> b in Nbrs(g, a) && a < b
  {
  }

  lemma WithinAt(g: Adjacency, i: nat, a: nat, b: nat)
    requires Within(g, i)
    ensures b in Nbrs(g, a) ==> a < i && b < i && a != b && a in Nbrs(g, b)
  {
  }

  ghost function Pairs(s: set<nat>, k: nat): set<(nat, nat)> {
    set a | a in s :: (a, k)
  }

  lemma {:induction false} PairsCount(s: set<nat>, k: nat)
    ensures |Pairs(s, k)| == |s|
    decreases |s|
  {
    if s == {} {
      assert Pairs(s, k) == {};
    } else {
      var a :| a in s;
      PairsCount(s - {a}, k);
      assert Pairs(s, k) == Pairs(s - {a}, k) + {(a, k)} && (a, k) !in Pairs(s - {a}, k);
      assert |s| == |s - {a}| + 1;
    }
  }

  /// Handshake: the degrees sum to twice the number of edges.
  lemma {:induction false} Handshake(g: Adjacency, i: nat)
    requires Within(g, i)
    ensures DegreeSum(g, i) == 2 * |Edges(g)|
  {
    if i == 0 {
      assert forall a :: a in g ==> g[a] == {} by {
        forall a | a in g ensures g[a] == {} {
          assert forall b :: b !in Nbrs(g, a);
        }
      }
      assert Edges(g) == {};
    } else {
      var k := i - 1;
      BeforeWithin(g, k);
      Handshake(Before(g, k), k);
      DegreesDrop(g, k, k);
      CountAllBelow(Nbrs(g, k), k);
      EdgesDrop(g, k);
    }
  }

  lemma BeforeWithin(g: Adjacency, k: nat)
    requires Within(g, k + 1)
    ensures Within(Before(g, k), k)
    ensures forall a :: a in Nbrs(g, k) ==> a < k
  {
    forall a: nat, b: nat | b in Nbrs(Before(g, k), a) ensures a < k && b < k && a != b && a in Nbrs(Before(g, k), b) {
      BeforeNbrs(g, k, a);
      BeforeNbrs(g, k, b);
      assert b in Nbrs(g, a);
    }
  }

  lemma {:induction false} PositionsAreDegrees(g: Adjacency, j: nat)
    requires forall a :: 0 <= a < j ==> Nbrs(g, a) != {}
    ensures PositionSum(g, j) == DegreeSum(g, j)
  {
    if j > 0 {
      PositionsAreDegrees(g, j - 1);
    }
  }

  /// Preferential: where every node has an edge, a draw falls to node j exactly if it lies, scaled to twice the
  /// number of edges, in the stretch of the length of its degree that follows the degrees before it.
  lemma PickIsPreferential(g: Adjacency, i: nat, draw: real, j: nat)
    requires Within(g, i) && j < i && forall a :: 0 <= a < i ==> Nbrs(g, a) != {}
    ensures PickedBy(g, i, draw, j) <==>
      && draw * (2 * |Edges(g)|) as real <= (DegreeSum(g, j) + |Nbrs(g, j)|) as real
      && (j > 0 ==> DegreeSum(g, j) as real < draw * (2 * |Edges(g)|) as real)
  {
    hide Within, Edges, PositionSum, DegreeSum, PickedBy;
    Handshake(g, i);
    PositionsAreDegrees(g, i);
    PositionsAreDegrees(g, j + 1);
    PositionsAreDegrees(g, j);
    NextDegree(g, j);
    PickedInTerms(g, i, draw, j, 2 * |Edges(g)|, DegreeSum(g, j), DegreeSum(g, j) + |Nbrs(g, j)|);
  }

  lemma NextDegree(g: Adjacency, j: nat)
    ensures DegreeSum(g, j + 1) == DegreeSum(g, j) + |Nbrs(g, j)|
  {
  }

  lemma PickedInTerms(g: Adjacency, i: nat, draw: real, j: nat, total: nat, low: nat, high: nat)
    requires PositionSum(g, i) == total && PositionSum(g, j) == low && PositionSum(g, j + 1) == high && j < i
    ensures PickedBy(g, i, draw, j) <==> draw * total as real <= high as real && (j > 0 ==> low as real < draw * total as real)
  {
    hide PositionSum;
  }

  /// The earlier neighbours of node k are the wanted number of nodes, exactly those the given draws fall to in the
  /// graph before it, and no draw more was made than needed.
  ghost predicate PickedNode(g: Adjacency, k: nat, m: nat, draws: seq<real>) {
    && |EarlierOf(g, k, k + 1)| == (if m < k then m else k)
    && PickedExactly(Before(g, k), k, draws, EarlierOf(g, k, k + 1))
  }

  ghost predicate PickedBySome(g: Adjacency, k: nat, draws: seq<real>, j: nat) {
    exists d :: 0 <= d < |draws| && PickedBy(g, k, draws[d], j)
  }

  /// The targets are the nodes that draws fall to.
  ghost predicate FallTo(g: Adjacency, k: nat, draws: seq<real>, targets: set<nat>) {
    forall j :: j in targets <==> PickedBySome(g, k, draws, j)
  }

  /// The targets are the nodes that draws fall to, and the last draw falls to none of those before it.
  ghost predicate PickedExactly(g: Adjacency, k: nat, draws: seq<real>, targets: set<nat>) {
    && FallTo(g, k, draws, targets)
    && (draws != [] ==>
          var front, last := draws[..|draws| - 1], draws[|draws| - 1];
          forall j :: PickedBy(g, k, last, j) ==> !PickedBySome(g, k, front, j))
  }

  /// All draws fall to fewer nodes than wanted.
  ghost predicate Starved(g: Adjacency, k: nat, m: nat, draws: seq<real>) {
    exists targets: set<nat> :: |targets| < (if m < k then m else k) && FallTo(g, k, draws, targets)
  }

  /// The draws are used up in turn, from the first on: node seed + k gets those from cuts[k] to cuts[k + 1].
  ghost predicate InTurn(g: Adjacency, seed: nat, m: nat, draws: seq<real>, cuts: seq<nat>) {
    && cuts != [] && cuts[0] == 0
    && (forall k :: 0 <= k < |cuts| ==> cuts[k] <= |draws|)
    && forall k :: 0 <= k < |cuts| - 1 ==> cuts[k] <= cuts[k + 1] && PickedNode(g, seed + k, m, draws[cuts[k]..cuts[k + 1]])
  }

  /// Two graphs with the same edges among the first i nodes.
  ghost predicate SameBelow(g: Adjacency, g': Adjacency, i: nat) {
    && g'.Keys == g.Keys
    && forall a: nat, b: nat {:trigger b in Nbrs(g', a)} {:trigger b in Nbrs(g, a)} :: a < i && b < i ==> (b in Nbrs(g', a) <==> b in Nbrs(g, a))
  }

  lemma PickedStays(g: Adjacency, g': Adjacency, i: nat, k: nat, m: nat, draws: seq<real>)
    requires SameBelow(g, g', i) && k < i && PickedNode(g, k, m, draws)
    ensures PickedNode(g', k, m, draws)
  {
    forall a: nat ensures EarlierOf(g', a, k) == EarlierOf(g, a, k) {
    }
    assert Before(g', k) == Before(g, k);
    assert EarlierOf(g', k, k + 1) == EarlierOf(g, k, k + 1);
  }

  // ---------- the draws determine the graph ----------

  /// What generation from given draws makes: the seed clique, then node after node from the draws in turn, up to
  /// the last one or the first for which the draws do not suffice.
  ghost predicate Generated(g: Adjacency, n: nat, m: nat, draws: seq<real>, cuts: seq<nat>) {
    var seed := SeedSize(n, m);
    && AllJoined(g, seed) && InTurn(g, seed, m, draws, cuts) && |cuts| <= n - seed + 1
    && (|cuts| <= n - seed ==>
          var k := seed + |cuts| - 1;
          Before(g, k) == g && Starved(g, k, m, draws[cuts[|cuts| - 1]..]))
  }

  ghost predicate Fractions(draws: seq<real>) {
    forall d :: 0 <= d < |draws| ==> 0.0 <= draws[d] < 1.0
  }

  /// Every draw falls to some node.
  lemma FallsSomewhere(g: Adjacency, i: nat, draw: real) returns (j: nat)
    requires i > 0 && 0.0 <= draw < 1.0
    ensures PickedBy(g, i, draw, j)
  {
    hide PositionSum;
    ScaledBelow(draw, PositionSum(g, i));
    j := FallsBelow(g, draw * PositionSum(g, i) as real, i - 1);
  }

  lemma ScaledBelow(draw: real, total: nat)
    requires 0.0 <= draw < 1.0
    ensures draw * total as real <= total as real
  {
  }

  lemma {:induction false} FallsBelow(g: Adjacency, position: real, top: nat) returns (j: nat)
    requires position <= PositionSum(g, top + 1) as real
    ensures j <= top && position <= PositionSum(g, j + 1) as real && (j > 0 ==> PositionSum(g, j) as real < position)
  {
    hide PositionSum;
    j := top;
    if top > 0 && position <= PositionSum(g, top) as real {
      j := FallsBelow(g, position, top - 1);
    }
  }

  lemma SubsetSame<T>(a: set<T>, b: set<T>)
    requires a <= b && |a| == |b|
    ensures a == b
  {
    assert b == a + (b - a);
  }

  lemma SubsetSmaller<T>(a: set<T>, b: set<T>)
    requires a <= b
    ensures |a| <= |b|
  {
    assert b == a + (b - a);
  }

  /// From one start, only one number of draws yields exactly so many nodes.
  lemma SameCut(g: Adjacency, i: nat, draws: seq<real>, from: nat, next: nat, next': nat, targets: set<nat>, targets': set<nat>)
    requires i > 0 && Fractions(draws) && from <= next <= next' <= |draws|
    requires PickedExactly(g, i, draws[from..next], targets) && PickedExactly(g, i, draws[from..next'], targets')
    requires |targets| == |targets'|
    ensures next == next' && targets == targets'
  {
    hide PickedBy, PickedBySome;
    var used, used' := draws[from..next], draws[from..next'];
    forall j | PickedBySome(g, i, used, j) ensures PickedBySome(g, i, used', j) {
      MoreDraws(g, i, used, used', j);
    }
    SubsetSame(targets, targets');
    if next < next' {
      var front, last := used'[..|used'| - 1], used'[|used'| - 1];
      var j := FallsSomewhere(g, i, last);
      DrawnLast(g, i, used', j);
      MoreDraws(g, i, used, front, j);
    }
  }

  lemma MoreDraws(g: Adjacency, i: nat, draws: seq<real>, draws': seq<real>, j: nat)
    requires draws <= draws' && PickedBySome(g, i, draws, j)
    ensures PickedBySome(g, i, draws', j)
  {
    hide PickedBy;
    var d :| 0 <= d < |draws| && PickedBy(g, i, draws[d], j);
    assert draws'[d] == draws[d];
  }

  lemma DrawnLast(g: Adjacency, i: nat, draws: seq<real>, j: nat)
    requires draws != [] && PickedBy(g, i, draws[|draws| - 1], j)
    ensures PickedBySome(g, i, draws, j)
  {
    hide PickedBy;
  }

  lemma SeedSame(g: Adjacency, g': Adjacency, n: nat, seed: nat)
    requires Within(g, n) && Within(g', n) && g.Keys == g'.Keys && AllJoined(g, seed) && AllJoined(g', seed)
    ensures Before(g, seed) == Before(g', seed)
  {
    forall a | a in g ensures EarlierOf(g, a, seed) == EarlierOf(g', a, seed) {
      forall b: nat ensures b in EarlierOf(g, a, seed) <==> b in EarlierOf(g', a, seed) {
        SeedEdge(g, n, seed, a, b);
        SeedEdge(g', n, seed, a, b);
      }
    }
  }

  lemma SeedEdge(g: Adjacency, n: nat, seed: nat, a: nat, b: nat)
    requires Within(g, n) && AllJoined(g, seed)
    ensures b in EarlierOf(g, a, seed) <==> a < seed && b < seed && a != b
  {
    if a < seed && b < seed && a != b {
      assert a < b ==> b in Nbrs(g, a);
      assert b < a ==> a in Nbrs(g, b);
    }
  }

  lemma NextSame(g: Adjacency, g': Adjacency, n: nat, i: nat)
    requires Within(g, n) && Within(g', n) && g.Keys == g'.Keys
    requires Before(g, i) == Before(g', i) && EarlierOf(g, i, i + 1) == EarlierOf(g', i, i + 1)
    ensures Before(g, i + 1) == Before(g', i + 1)
  {
    var next := i + 1;
    forall a | a in g ensures EarlierOf(g, a, next) == EarlierOf(g', a, next) {
      BeforeNbrs(g, i, a);
      BeforeNbrs(g', i, a);
      forall b: nat ensures b in EarlierOf(g, a, next) <==> b in EarlierOf(g', a, next) {
        NextEdge(g, n, i, a, b);
        NextEdge(g', n, i, a, b);
      }
    }
  }

  lemma NextEdge(g: Adjacency, n: nat, i: nat, a: nat, b: nat)
    requires Within(g, n)
    ensures b in EarlierOf(g, a, i + 1) <==>
      if a == i then b in EarlierOf(g, i, i + 1) else if b == i then a in EarlierOf(g, i, i + 1) else b in EarlierOf(g, a, i)
  {
    WithinAt(g, n, a, b);
    WithinAt(g, n, b, a);
  }

  lemma SameStep(g: Adjacency, g': Adjacency, n: nat, i: nat, m: nat, draws: seq<real>, from: nat, next: nat, next': nat)
    requires Within(g, n) && Within(g', n) && g.Keys == g'.Keys && i > 0 && Fractions(draws)
    requires from <= next <= |draws| && from <= next' <= |draws| && Before(g, i) == Before(g', i)
    requires PickedNode(g, i, m, draws[from..next]) && PickedNode(g', i, m, draws[from..next'])
    ensures next == next' && Before(g, i + 1) == Before(g', i + 1)
  {
    var h, t, t' := Before(g, i), EarlierOf(g, i, i + 1), EarlierOf(g', i, i + 1);
    hide Within, PickedExactly, Before, EarlierOf;
    if next <= next' {
      SameCut(h, i, draws, from, next, next', t, t');
    } else {
      SameCut(h, i, draws, from, next', next, t', t);
    }
    NextSame(g, g', n, i);
  }

  /// After as many nodes both runs have used as many draws and made the same graph.
  lemma {:induction false} SameSoFar(g: Adjacency, g': Adjacency, n: nat, seed: nat, m: nat, draws: seq<real>, cuts: seq<nat>, cuts': seq<nat>, k: nat)
    requires Within(g, n) && Within(g', n) && g.Keys == g'.Keys && AllJoined(g, seed) && AllJoined(g', seed)
    requires Fractions(draws) && InTurn(g, seed, m, draws, cuts) && InTurn(g', seed, m, draws, cuts')
    requires k < |cuts| && k < |cuts'| && (seed == 0 ==> |cuts| == 1)
    ensures forall l :: 0 <= l <= k ==> cuts[l] == cuts'[l]
    ensures Before(g, seed + k) == Before(g', seed + k)
  {
    hide Within, AllJoined, PickedNode, Before, Fractions;
    if k == 0 {
      SeedSame(g, g', n, seed);
    } else {
      SameSoFar(g, g', n, seed, m, draws, cuts, cuts', k - 1);
      SameStep(g, g', n, seed + k - 1, m, draws, cuts[k - 1], cuts[k], cuts'[k]);
    }
  }

  /// A run cannot go on where the draws do not suffice.
  lemma StarvedStops(g: Adjacency, i: nat, m: nat, draws: seq<real>, from: nat, next: nat)
    requires from <= next <= |draws| && Starved(Before(g, i), i, m, draws[from..])
    ensures !PickedNode(g, i, m, draws[from..next])
  {
    hide PickedBy;
    if PickedNode(g, i, m, draws[from..next]) {
      var h := Before(g, i);
      var targets: set<nat> :| |targets| < (if m < i then m else i) && FallTo(h, i, draws[from..], targets);
      var t := EarlierOf(g, i, i + 1);
      forall j | j in t ensures j in targets {
        var d :| 0 <= d < next - from && PickedBy(h, i, draws[from..next][d], j);
        assert draws[from..][d] == draws[from..next][d];
      }
      SubsetSmaller(t, targets);
    }
  }

  lemma AllBefore(g: Adjacency, n: nat)
    requires Within(g, n)
    ensures Before(g, n) == g
  {
    forall a | a in g ensures EarlierOf(g, a, n) == g[a] {
      assert g[a] == Nbrs(g, a);
    }
  }

  /// The same draws make the same graph.
  lemma DrawsDetermine(g: Adjacency, g': Adjacency, n: nat, m: nat, draws: seq<real>, cuts: seq<nat>, cuts': seq<nat>)
    requires Within(g, n) && Within(g', n) && g.Keys == g'.Keys && Fractions(draws)
    requires Generated(g, n, m, draws, cuts) && Generated(g', n, m, draws, cuts')
    ensures g == g' && cuts == cuts'
  {
    hide Within, AllJoined, Starved, PickedNode, Before, SeedSize;
    if |cuts| <= |cuts'| {
      NotShorter(g, g', n, m, draws, cuts, cuts');
    } else {
      NotShorter(g', g, n, m, draws, cuts', cuts);
    }
  }

  lemma NotShorter(g: Adjacency, g': Adjacency, n: nat, m: nat, draws: seq<real>, cuts: seq<nat>, cuts': seq<nat>)
    requires Within(g, n) && Within(g', n) && g.Keys == g'.Keys && Fractions(draws)
    requires Generated(g, n, m, draws, cuts) && Generated(g', n, m, draws, cuts') && |cuts| <= |cuts'|
    ensures g == g' && cuts == cuts'
  {
    var seed, k := SeedSize(n, m), |cuts| - 1;
    hide Within, AllJoined, Starved, PickedNode, Before, SeedSize;
    SameSoFar(g, g', n, seed, m, draws, cuts, cuts', k);
    if k == n - seed {
      AllBefore(g, n);
      AllBefore(g', n);
    } else {
      if |cuts'| > |cuts| {
        StarvedStops(g', seed + k, m, draws, cuts'[k], cuts'[k + 1]);
      }
    }
  }

  ghost predicate HubJoined(g: Adjacency, i: nat) {
    forall a: nat :: a < i ==> Joined(g, 0, a)
  }

  /// `graph` holds n nodes named in order, and an index for each name.
  ghost predicate Named(graph: GraphState, n: nat)
    reads graph
  {
    && graph.Valid() && graph.nodeIds == Names(n)
    && forall a: nat :: a < n ==> Names(n)[a] in graph.idToIndex && graph.idToIndex[Names(n)[a]] == a
  }

  /// One `setConnection` with its two counter updates.
  method Connect(graph: GraphState, n: nat, degrees: array<nat>, a: nat, b: nat, ghost i: nat)
    requires Named(graph, n) && degrees.Length == n && a < b < n
    requires Tracks(graph.neighbors, degrees[..], i) && a < i && b < i && b !in Nbrs(graph.neighbors, a)
    modifies graph`neighbors, degrees
    ensures Named(graph, n) && Tracks(graph.neighbors, degrees[..], i)
    ensures Adds(old(graph.neighbors), graph.neighbors, a, b)
    ensures |Edges(graph.neighbors)| == old(|Edges(graph.neighbors)|) + 1
    ensures forall c: nat :: old(Nbrs(graph.neighbors, c)) <= Nbrs(graph.neighbors, c)
  {
    hide Edges, Tracks, Adds, Named;
    ghost var g, before := graph.neighbors, degrees[..];
    NamedFacts(graph, n, a, b);
    Join(graph, n, a, b);
    AddsEdge(g, graph.neighbors, a, b);
    degrees[a] := degrees[a] + 1;
    degrees[b] := degrees[b] + 1;
    TracksAdds(g, graph.neighbors, before, degrees[..], i, a, b);
  }

  method Join(graph: GraphState, n: nat, a: nat, b: nat)
    requires Named(graph, n) && a < b < n
    modifies graph`neighbors
    ensures Named(graph, n) && Adds(old(graph.neighbors), graph.neighbors, a, b)
  {
    ghost var g := graph.neighbors;
    assert Names(n)[a] == NodeName(a) && Names(n)[b] == NodeName(b);
    graph.SetConnection(NodeName(a), NodeName(b), true);
    forall c: nat, d: nat
      ensures d in Nbrs(graph.neighbors, c) <==> d in Nbrs(g, c) || (c == a && d == b) || (c == b && d == a)
    {
    }
  }

  lemma NamedFacts(graph: GraphState, n: nat, a: nat, b: nat)
    requires Named(graph, n) && a < n && b < n
    ensures a in graph.neighbors && b in graph.neighbors
    ensures b in Nbrs(graph.neighbors, a) <==> a in Nbrs(graph.neighbors, b)
  {
  }

  lemma TracksAdds(g: Adjacency, g': Adjacency, degrees: seq<nat>, degrees': seq<nat>, i: nat, a: nat, b: nat)
    requires Tracks(g, degrees, i) && Adds(g, g', a, b) && a < i && b < i
    requires forall c: nat :: |Nbrs(g', c)| == |Nbrs(g, c)| + if c == a || c == b then 1 else 0
    requires a < b < |degrees| && degrees' == degrees[a := degrees[a] + 1][b := degrees[b] + 1]
    ensures Tracks(g', degrees', i)
  {
  }

  // ---------- the seed clique ----------

  /// Edges of a clique on `size` nodes whose smaller end is below i.
  function CliqueRows(size: nat, i: nat): nat
    requires i <= size
  {
    if i == 0 then 0 else CliqueRows(size, i - 1) + (size - i)
  }

  lemma {:induction false} CliqueRowsClosed(size: nat, i: nat)
    requires i <= size
    ensures 2 * CliqueRows(size, i) == i * (2 * size - i - 1)
  {
    if i > 0 {
      CliqueRowsClosed(size, i - 1);
      assert i * (2 * size - i - 1) == (i - 1) * (2 * size - i) + 2 * (size - i);
    }
  }

  /// Among the first `size` nodes exactly the pairs before (i, j) in loop order are joined.
  ghost predicate CliqueUpTo(g: Adjacency, size: nat, i: nat, j: nat) {
    forall a: nat, b: nat {:trigger b in Nbrs(g, a)} :: a < b < size ==>
      (b in Nbrs(g, a) <==> a < i || (a == i && b < j))
  }

  method SeedClique(graph: GraphState, n: nat, degrees: array<nat>, size: nat)
    requires Named(graph, n) && degrees.Length == n && size <= n
    requires Tracks(graph.neighbors, degrees[..], 0) && |Edges(graph.neighbors)| == 0
    modifies graph`neighbors, degrees
    ensures Named(graph, n) && Tracks(graph.neighbors, degrees[..], size)
    ensures |Edges(graph.neighbors)| == CliqueRows(size, size)
    ensures HubJoined(graph.neighbors, size)
    ensures AllJoined(graph.neighbors, size)
  {
    for i := 0 to size
      invariant Named(graph, n) && Tracks(graph.neighbors, degrees[..], size)
      invariant CliqueUpTo(graph.neighbors, size, i, i + 1)
      invariant |Edges(graph.neighbors)| == CliqueRows(size, i)
    {
      for j := i + 1 to size
        invariant Named(graph, n) && Tracks(graph.neighbors, degrees[..], size)
        invariant CliqueUpTo(graph.neighbors, size, i, j)
        invariant |Edges(graph.neighbors)| == CliqueRows(size, i) + (j - i - 1)
      {
        Connect(graph, n, degrees, i, j, size);
      }
    }
    CliqueHub(graph.neighbors, n, size);
  }

  lemma CliqueHub(g: Adjacency, n: nat, size: nat)
    requires Simple(g, n) && CliqueUpTo(g, size, size, size + 1)
    ensures HubJoined(g, size)
  {
    forall a: nat | a < size ensures Joined(g, 0, a) {
      JoinedSelf(g, 0);
      if a > 0 {
        assert a in Nbrs(g, 0);
        JoinedStep(g, 0, 0, a);
      }
    }
  }

  // ---------- attaching a node ----------

  /// Draws until `count` different targets below i are picked, each the owner of some draw.
  method ChooseTargets(degrees: seq<nat>, i: nat, count: nat, draws: seq<real>, from: nat)
    returns (ok: bool, targets: set<nat>, next: nat)
    requires 0 < i <= |degrees| && from <= |draws|
    requires forall d :: 0 <= d < |draws| ==> 0.0 <= draws[d] < 1.0
    ensures from <= next <= |draws|
    ensures forall j :: j in targets ==> j < i
    ensures ok ==> |targets| == count
    ensures !ok ==> next == |draws| && |targets| < count
    ensures forall j :: j in targets ==> exists d :: from <= d < next && Chosen(degrees, i, draws[d], j)
    ensures forall d :: from <= d < next ==> FallsIn(degrees, i, draws[d], targets)
    ensures ok ==> LastIsNew(degrees, i, draws, from, next)
  {
    hide FallsIn, WeightSum, Position, LastIsNew;
    targets, next := {}, from;
    NoneDrawn(degrees, i, draws, from);
    while |targets| < count
      invariant from <= next <= |draws| && |targets| <= count
      invariant forall j :: j in targets ==> j < i
      invariant forall j :: j in targets ==> exists d :: from <= d < next && Chosen(degrees, i, draws[d], j)
      invariant forall d :: from <= d < next ==> FallsIn(degrees, i, draws[d], targets)
      invariant |targets| == count ==> LastIsNew(degrees, i, draws, from, next)
      decreases |draws| - next
    {
      if next == |draws| {
        return false, targets, next;
      }
      var j := Pick(degrees, i, draws[next]);
      assert Chosen(degrees, i, draws[next], j);
      FallsInMore(degrees, i, draws, from, next, targets, j);
      if j !in targets {
        NewIsNew(degrees, i, draws, from, next, targets, j);
      }
      targets := targets + {j};
      next := next + 1;
    }
    ok := true;
  }

  ghost predicate FallsIn(degrees: seq<nat>, i: nat, draw: real, targets: set<nat>)
    requires i <= |degrees|
  {
    exists j :: j in targets && Chosen(degrees, i, draw, j)
  }

  /// The last draw falls to no target of the others.
  ghost predicate LastIsNew(degrees: seq<nat>, i: nat, draws: seq<real>, from: nat, next: nat)
    requires i <= |degrees| && from <= next <= |draws|
  {
    next > from ==> forall j, d :: from <= d < next - 1 && Chosen(degrees, i, draws[next - 1], j) ==> !Chosen(degrees, i, draws[d], j)
  }

  lemma NoneDrawn(degrees: seq<nat>, i: nat, draws: seq<real>, from: nat)
    requires i <= |degrees| && from <= |draws|
    ensures LastIsNew(degrees, i, draws, from, from)
  {
  }

  lemma NewIsNew(degrees: seq<nat>, i: nat, draws: seq<real>, from: nat, next: nat, targets: set<nat>, j: nat)
    requires i <= |degrees| && from <= next < |draws| && Chosen(degrees, i, draws[next], j) && j !in targets
    requires forall d :: from <= d < next ==> FallsIn(degrees, i, draws[d], targets)
    ensures LastIsNew(degrees, i, draws, from, next + 1)
  {
    hide Chosen;
    forall l, d | from <= d < next && Chosen(degrees, i, draws[next], l) ensures !Chosen(degrees, i, draws[d], l) {
      ChosenOnce(degrees, i, draws[next], j, l);
      var k :| k in targets && Chosen(degrees, i, draws[d], k);
      if Chosen(degrees, i, draws[d], l) {
        ChosenOnce(degrees, i, draws[d], k, l);
      }
    }
  }

  lemma ChosenOnce(degrees: seq<nat>, i: nat, draw: real, j: nat, k: nat)
    requires i <= |degrees| && Chosen(degrees, i, draw, j) && Chosen(degrees, i, draw, k)
    ensures j == k
  {
    OwnerUnique(degrees, i, Position(draw, WeightSum(degrees, i)), j, k);
  }

  lemma FallsInMore(degrees: seq<nat>, i: nat, draws: seq<real>, from: nat, next: nat, targets: set<nat>, j: nat)
    requires i <= |degrees| && from <= next < |draws| && Chosen(degrees, i, draws[next], j)
    requires forall d :: from <= d < next ==> FallsIn(degrees, i, draws[d], targets)
    ensures forall d :: from <= d < next + 1 ==> FallsIn(degrees, i, draws[d], targets + {j})
  {
    hide Chosen;
    forall d | from <= d < next + 1 ensures FallsIn(degrees, i, draws[d], targets + {j}) {
      if d < next {
        var k :| k in targets && Chosen(degrees, i, draws[d], k);
        assert k in targets + {j};
      } else {
        assert j in targets + {j};
      }
    }
  }

  ghost predicate Chosen(degrees: seq<nat>, i: nat, draw: real, j: nat)
    requires i <= |degrees|
  {
    0.0 <= draw < 1.0 && WeightSum(degrees, i) > 0 && Owns(degrees, i, Position(draw, WeightSum(degrees, i)), j)
  }

  method Attach(graph: GraphState, n: nat, degrees: array<nat>, i: nat, targets: set<nat>)
    requires Named(graph, n) && degrees.Length == n && i < n
    requires Tracks(graph.neighbors, degrees[..], i)
    requires forall j :: j in targets ==> j < i
    modifies graph`neighbors, degrees
    ensures Named(graph, n) && Tracks(graph.neighbors, degrees[..], i + 1)
    ensures |Edges(graph.neighbors)| == old(|Edges(graph.neighbors)|) + |targets|
    ensures forall c: nat :: old(Nbrs(graph.neighbors, c)) <= Nbrs(graph.neighbors, c)
    ensures SameBelow(old(graph.neighbors), graph.neighbors, i)
    ensures Nbrs(graph.neighbors, i) == targets
    ensures targets == {} ==> graph.neighbors == old(graph.neighbors) && degrees[..] == old(degrees[..])
  {
    hide Edges, Tracks, Named;
    var rest := targets;
    TracksNext(graph.neighbors, degrees[..], i);
    while rest != {}
      invariant rest <= targets
      invariant Named(graph, n) && Tracks(graph.neighbors, degrees[..], i + 1)
      invariant Nbrs(graph.neighbors, i) == targets - rest
      invariant |Edges(graph.neighbors)| + |rest| == old(|Edges(graph.neighbors)|) + |targets|
      invariant forall c: nat :: old(Nbrs(graph.neighbors, c)) <= Nbrs(graph.neighbors, c)
      invariant SameBelow(old(graph.neighbors), graph.neighbors, i)
      invariant rest == targets ==> graph.neighbors == old(graph.neighbors) && degrees[..] == old(degrees[..])
      decreases rest
    {
      var target :| target in rest;
      AttachOne(graph, n, degrees, i, target, targets - rest);
      assert targets - (rest - {target}) == (targets - rest) + {target};
      rest := rest - {target};
    }
    assert targets - rest == targets;
  }

  lemma TracksNext(g: Adjacency, degrees: seq<nat>, i: nat)
    requires Tracks(g, degrees, i)
    ensures Tracks(g, degrees, i + 1) && Nbrs(g, i) == {}
  {
  }

  method AttachOne(graph: GraphState, n: nat, degrees: array<nat>, i: nat, target: nat, ghost joined: set<nat>)
    requires Named(graph, n) && degrees.Length == n && i < n
    requires Tracks(graph.neighbors, degrees[..], i + 1)
    requires target < i && Nbrs(graph.neighbors, i) == joined && target !in joined
    modifies graph`neighbors, degrees
    ensures Named(graph, n) && Tracks(graph.neighbors, degrees[..], i + 1)
    ensures |Edges(graph.neighbors)| == old(|Edges(graph.neighbors)|) + 1
    ensures forall c: nat :: old(Nbrs(graph.neighbors, c)) <= Nbrs(graph.neighbors, c)
    ensures SameBelow(old(graph.neighbors), graph.neighbors, i)
    ensures Nbrs(graph.neighbors, i) == joined + {target}
  {
    assert i !in Nbrs(graph.neighbors, target);
    Connect(graph, n, degrees, target, i, i + 1);
  }

  lemma HubJoinedGrows(g: Adjacency, g': Adjacency, i: nat)
    requires HubJoined(g, i) && forall c: nat :: Nbrs(g, c) <= Nbrs(g', c)
    ensures HubJoined(g', i)
  {
    forall a: nat | a < i ensures Joined(g', 0, a) {
      JoinedGrows(g, g', 0, a);
    }
  }

  lemma HubJoinedExtends(g: Adjacency, n: nat, i: nat, targets: set<nat>)
    requires Simple(g, n) && HubJoined(g, i) && Nbrs(g, i) == targets && targets != {}
    requires forall j :: j in targets ==> j < i
    ensures HubJoined(g, i + 1)
  {
    var t :| t in targets;
    assert t in Nbrs(g, i);
    JoinedStep(g, 0, t, i);
  }

  // ---------- the generator ----------

  function SeedSize(n: nat, m: nat): (size: nat)
    ensures size <= n && (size == n ==> n <= 2 || n <= m + 1)
    ensures size < n ==> size >= 2 && size >= m + 1 && (size == 2 || size == m + 1)
  {
    var wanted := if m + 1 > 2 then m + 1 else 2;
    if n < wanted then n else wanted
  }

  lemma NoEdges(g: Adjacency)
    requires forall i: nat :: Nbrs(g, i) == {}
    ensures Edges(g) == {}
  {
    assert forall i :: i in g ==> g[i] == Nbrs(g, i);
  }

  lemma HubIsConnected(g: Adjacency, n: nat)
    requires Simple(g, n) && HubJoined(g, n)
    ensures Connected(g, n)
  {
    forall a: nat, b: nat | a < n && b < n ensures Joined(g, a, b) {
      JoinedThrough(g, n, 0, a, b);
    }
  }

  lemma LonelyIsNotConnected(g: Adjacency, n: nat)
    requires n > 2 && Nbrs(g, 2) == {}
    ensures !Connected(g, n)
  {
    IsolatedNotJoined(g, 2, 0);
  }

  lemma TargetsPicked(g: Adjacency, degrees: seq<nat>, i: nat, draws: seq<real>, from: nat, next: nat, targets: set<nat>)
    requires Tracks(g, degrees, i) && 0 < i <= |degrees| && from <= next <= |draws|
    requires forall d :: 0 <= d < |draws| ==> 0.0 <= draws[d] < 1.0
    requires forall j :: j in targets ==> exists d :: from <= d < next && Chosen(degrees, i, draws[d], j)
    requires forall d :: from <= d < next ==> FallsIn(degrees, i, draws[d], targets)
    ensures FallTo(g, i, draws[from..next], targets)
  {
    hide Chosen, PickedBy, PickedBySome, FallsIn, Tracks;
    forall j ensures j in targets <==> PickedBySome(g, i, draws[from..next], j) {
      if j in targets {
        TargetIsPicked(g, degrees, i, draws, from, next, j);
      }
      if PickedBySome(g, i, draws[from..next], j) {
        PickedIsTarget(g, degrees, i, draws, from, next, targets, j);
      }
    }
  }

  lemma TargetIsPicked(g: Adjacency, degrees: seq<nat>, i: nat, draws: seq<real>, from: nat, next: nat, j: nat)
    requires Tracks(g, degrees, i) && 0 < i <= |degrees| && from <= next <= |draws|
    requires forall d :: 0 <= d < |draws| ==> 0.0 <= draws[d] < 1.0
    requires exists d :: from <= d < next && Chosen(degrees, i, draws[d], j)
    ensures PickedBySome(g, i, draws[from..next], j)
  {
    hide Chosen, PickedBy, Tracks;
    var d :| from <= d < next && Chosen(degrees, i, draws[d], j);
    ChosenIsPicked(g, degrees, i, draws[d], j);
    assert draws[from..next][d - from] == draws[d];
  }

  lemma PickedIsTarget(g: Adjacency, degrees: seq<nat>, i: nat, draws: seq<real>, from: nat, next: nat, targets: set<nat>, j: nat)
    requires Tracks(g, degrees, i) && 0 < i <= |degrees| && from <= next <= |draws|
    requires forall d :: 0 <= d < |draws| ==> 0.0 <= draws[d] < 1.0
    requires forall d :: from <= d < next ==> FallsIn(degrees, i, draws[d], targets)
    requires PickedBySome(g, i, draws[from..next], j)
    ensures j in targets
  {
    hide Chosen, PickedBy, Tracks;
    var used := draws[from..next];
    var d :| 0 <= d < |used| && PickedBy(g, i, used[d], j);
    assert used[d] == draws[from + d] && FallsIn(degrees, i, draws[from + d], targets);
    ChosenIsPicked(g, degrees, i, draws[from + d], j);
    var k :| k in targets && Chosen(degrees, i, draws[from + d], k);
    ChosenOnce(degrees, i, draws[from + d], j, k);
  }

  lemma LastPicked(g: Adjacency, degrees: seq<nat>, i: nat, draws: seq<real>, from: nat, next: nat, j: nat)
    requires Tracks(g, degrees, i) && 0 < i <= |degrees| && from < next <= |draws|
    requires forall d :: 0 <= d < |draws| ==> 0.0 <= draws[d] < 1.0
    requires LastIsNew(degrees, i, draws, from, next) && PickedBy(g, i, draws[next - 1], j)
    ensures !PickedBySome(g, i, draws[from..next][..next - from - 1], j)
  {
    hide Chosen, PickedBy, Tracks;
    var front := draws[from..next][..next - from - 1];
    ChosenIsPicked(g, degrees, i, draws[next - 1], j);
    if PickedBySome(g, i, front, j) {
      var d :| 0 <= d < |front| && PickedBy(g, i, front[d], j);
      assert front[d] == draws[from + d];
      ChosenIsPicked(g, degrees, i, draws[from + d], j);
    }
  }

  lemma TargetsPickedExactly(g: Adjacency, degrees: seq<nat>, i: nat, draws: seq<real>, from: nat, next: nat, targets: set<nat>)
    requires Tracks(g, degrees, i) && 0 < i <= |degrees| && from <= next <= |draws|
    requires forall d :: 0 <= d < |draws| ==> 0.0 <= draws[d] < 1.0
    requires FallTo(g, i, draws[from..next], targets)
    requires LastIsNew(degrees, i, draws, from, next)
    ensures PickedExactly(g, i, draws[from..next], targets)
  {
    hide PickedBySome, PickedBy, LastIsNew, Tracks;
    var used := draws[from..next];
    if used != [] {
      var last := used[|used| - 1];
      forall j | PickedBy(g, i, last, j) ensures !PickedBySome(g, i, used[..|used| - 1], j) {
        LastPicked(g, degrees, i, draws, from, next, j);
      }
    }
  }

  lemma TracksWithin(g: Adjacency, n: nat, degrees: seq<nat>, i: nat)
    requires Simple(g, n) && Tracks(g, degrees, i)
    ensures Within(g, i)
  {
  }

  lemma TracksFurther(g: Adjacency, degrees: seq<nat>, i: nat, n: nat)
    requires Tracks(g, degrees, i) && i <= n
    ensures Tracks(g, degrees, n)
  {
  }

  /// One turn of the outer loop: node i is attached to `targetCount` earlier nodes, unless the draws
  /// run out, in which case nothing changes.
  method Grow(graph: GraphState, n: nat, degrees: array<nat>, i: nat, targetCount: nat, draws: seq<real>, from: nat)
    returns (ok: bool, next: nat)
    requires Named(graph, n) && degrees.Length == n && 0 < i < n && from <= |draws|
    requires Tracks(graph.neighbors, degrees[..], i)
    requires forall d :: 0 <= d < |draws| ==> 0.0 <= draws[d] < 1.0
    modifies graph`neighbors, degrees
    ensures from <= next <= |draws| && Named(graph, n) && Tracks(graph.neighbors, degrees[..], i + 1)
    ensures ok ==> |Edges(graph.neighbors)| == old(|Edges(graph.neighbors)|) + targetCount
    ensures ok && targetCount > 0 && old(HubJoined(graph.neighbors, i)) ==> HubJoined(graph.neighbors, i + 1)
    ensures targetCount == 0 ==> graph.neighbors == old(graph.neighbors) && degrees[..] == old(degrees[..])
    ensures Tracks(graph.neighbors, degrees[..], n)
    ensures ok ==> |Nbrs(graph.neighbors, i)| == targetCount && (forall j :: j in Nbrs(graph.neighbors, i) ==> j < i)
    ensures ok ==> PickedExactly(old(graph.neighbors), i, draws[from..next], Nbrs(graph.neighbors, i))
    ensures ok ==> SameBelow(old(graph.neighbors), graph.neighbors, i) && Within(old(graph.neighbors), i)
    ensures !ok ==> graph.neighbors == old(graph.neighbors) && Within(graph.neighbors, i)
    ensures !ok ==> exists targets: set<nat> :: |targets| < targetCount && FallTo(graph.neighbors, i, draws[from..], targets)
  {
    hide Chosen, PickedBy, PickedBySome, PickedExactly, LastIsNew, FallsIn, FallTo, HubJoined, Edges, SameBelow, Tracks, Within, Simple;
    var targets;
    ok, targets, next := ChooseTargets(degrees[..], i, targetCount, draws, from);
    TracksWithin(graph.neighbors, n, degrees[..], i);
    TargetsPicked(graph.neighbors, degrees[..], i, draws, from, next, targets);
    if !ok {
      assert draws[from..next] == draws[from..];
      TracksFurther(graph.neighbors, degrees[..], i, i + 1);
      TracksFurther(graph.neighbors, degrees[..], i, n);
      return;
    }
    ghost var g := graph.neighbors;
    TargetsPickedExactly(g, degrees[..], i, draws, from, next, targets);
    Attach(graph, n, degrees, i, targets);
    TracksFurther(graph.neighbors, degrees[..], i + 1, n);
    if targetCount > 0 && HubJoined(g, i) {
      HubJoinedGrows(g, graph.neighbors, i);
      HubJoinedExtends(graph.neighbors, n, i, targets);
    }
  }

  /// Preferential attachment. At every point the side array holds the true degrees; if the draws
  /// suffice, the graph has s(s-1)/2 + (n-s)m edges for s = min(n, max(2, m+1)), and it is connected
  /// exactly when m >= 1 or there are at most two nodes.
  method BarabasiAlbert(graph: GraphState, n: nat, m: nat, draws: seq<real>)
    returns (finished: bool, degrees: array<nat>, ghost cuts: seq<nat>)
    requires forall d :: 0 <= d < |draws| ==> 0.0 <= draws[d] < 1.0
    modifies graph
    ensures Named(graph, n) && Simple(graph.neighbors, n)
    ensures degrees.Length == n && Tracks(graph.neighbors, degrees[..], n)
    ensures finished ==>
      2 * |Edges(graph.neighbors)| == SeedSize(n, m) * (SeedSize(n, m) - 1) + 2 * ((n - SeedSize(n, m)) * m)
    ensures finished ==> (Connected(graph.neighbors, n) <==> m >= 1 || n <= 2)
    ensures Generated(graph.neighbors, n, m, draws, cuts)
    ensures finished <==> |cuts| == n - SeedSize(n, m) + 1
  {
    hide InTurn, Starved, Before, PickedExactly, Edges, HubJoined, Connected, Tracks, Names, PickedNode, SameBelow, AllJoined, PickedBy, Within, Simple, CliqueRows;
    degrees := new nat[n](i => 0);
    var seedSize := SeedSize(n, m);
    StartNodes(graph, n, degrees, seedSize);
    var next: nat := 0;
    cuts := [0];
    NoCuts(graph.neighbors, seedSize, m, draws);
    for i := seedSize to n
      invariant Named(graph, n) && Tracks(graph.neighbors, degrees[..], i)
      invariant next <= |draws|
      invariant |Edges(graph.neighbors)| == CliqueRows(seedSize, seedSize) + (i - seedSize) * m
      invariant m >= 1 || n <= 2 ==> HubJoined(graph.neighbors, i)
      invariant m == 0 && n > 2 ==> Nbrs(graph.neighbors, 2) == {}
      invariant AllJoined(graph.neighbors, seedSize)
      invariant InTurn(graph.neighbors, seedSize, m, draws, cuts) && |cuts| == i - seedSize + 1 && cuts[|cuts| - 1] == next
    {
      var targetCount := if m < i then m else i;
      OneMoreRow(i - seedSize, m);
      ghost var g := graph.neighbors;
      var ok;
      ok, next := Grow(graph, n, degrees, i, targetCount, draws, next);
      if !ok {
        OutOfDraws(graph.neighbors, i, m, draws[cuts[|cuts| - 1]..]);
        return false, degrees, cuts;
      }
      PickedGrows(g, graph.neighbors, seedSize, i, m, draws, cuts, next);
      cuts := cuts + [next];
    }
    CliqueRowsClosed(seedSize, seedSize);
    if m >= 1 || n <= 2 {
      HubIsConnected(graph.neighbors, n);
    } else {
      LonelyIsNotConnected(graph.neighbors, n);
    }
    finished := true;
  }

  /// Every pair of the first `size` nodes is joined.
  ghost predicate AllJoined(g: Adjacency, size: nat) {
    forall a: nat, b: nat {:trigger b in Nbrs(g, a)} :: a < b < size ==> b in Nbrs(g, a)
  }

  lemma PickedGrows(g: Adjacency, g': Adjacency, seed: nat, i: nat, m: nat, draws: seq<real>, cuts: seq<nat>, next: nat)
    requires SameBelow(g, g', i) && seed <= i && Within(g, i) && AllJoined(g, seed)
    requires InTurn(g, seed, m, draws, cuts) && |cuts| == i - seed + 1 && cuts[|cuts| - 1] <= next <= |draws|
    requires |Nbrs(g', i)| == (if m < i then m else i) && forall j :: j in Nbrs(g', i) ==> j < i
    requires PickedExactly(g, i, draws[cuts[|cuts| - 1]..next], Nbrs(g', i))
    ensures AllJoined(g', seed) && InTurn(g', seed, m, draws, cuts + [next])
  {
    hide PickedNode, PickedExactly, Within;
    NewlyPicked(g, g', i, m, draws[cuts[|cuts| - 1]..next]);
    var cuts' := cuts + [next];
    forall k | 0 <= k < |cuts'| - 1 ensures cuts'[k] <= cuts'[k + 1] && PickedNode(g', seed + k, m, draws[cuts'[k]..cuts'[k + 1]]) {
      if k < |cuts| - 1 {
        PickedStays(g, g', i, seed + k, m, draws[cuts[k]..cuts[k + 1]]);
      }
    }
  }

  /// The node just attached was picked for.
  lemma NewlyPicked(g: Adjacency, g': Adjacency, i: nat, m: nat, draws: seq<real>)
    requires SameBelow(g, g', i) && Within(g, i)
    requires |Nbrs(g', i)| == (if m < i then m else i) && forall j :: j in Nbrs(g', i) ==> j < i
    requires PickedExactly(g, i, draws, Nbrs(g', i))
    ensures PickedNode(g', i, m, draws)
  {
    hide PickedExactly;
    forall a | a in g' ensures EarlierOf(g', a, i) == g[a] {
      assert g[a] == Nbrs(g, a);
      assert forall b :: b in Nbrs(g, a) ==> a < i && b < i;
    }
    assert Before(g', i) == g;
    assert EarlierOf(g', i, i + 1) == Nbrs(g', i);
  }

  lemma OutOfDraws(g: Adjacency, i: nat, m: nat, draws: seq<real>)
    requires Within(g, i)
    requires exists targets: set<nat> :: |targets| < (if m < i then m else i) && FallTo(g, i, draws, targets)
    ensures Starved(Before(g, i), i, m, draws) && Before(g, i) == g
  {
    forall a | a in g ensures EarlierOf(g, a, i) == g[a] {
      assert g[a] == Nbrs(g, a);
      assert forall b :: b in Nbrs(g, a) ==> a < i && b < i;
    }
    assert Before(g, i) == g;
  }

  lemma NoCuts(g: Adjacency, seed: nat, m: nat, draws: seq<real>)
    ensures InTurn(g, seed, m, draws, [0])
  {
  }

  lemma OneMoreRow(rows: nat, m: nat)
    ensures (rows + 1) * m == rows * m + m
  {
  }

  method StartNodes(graph: GraphState, n: nat, degrees: array<nat>, seedSize: nat)
    requires degrees.Length == n && seedSize <= n && forall a :: 0 <= a < n ==> degrees[a] == 0
    modifies graph, degrees
    ensures Named(graph, n) && Tracks(graph.neighbors, degrees[..], seedSize)
    ensures |Edges(graph.neighbors)| == CliqueRows(seedSize, seedSize)
    ensures HubJoined(graph.neighbors, seedSize)
    ensures AllJoined(graph.neighbors, seedSize)
    ensures seedSize <= 2 ==> Nbrs(graph.neighbors, 2) == {}
  {
    graph.SetNodes(Names(n));
    NamesDistinct(n);
    NoEdges(graph.neighbors);
    SeedClique(graph, n, degrees, seedSize);
  }
}
