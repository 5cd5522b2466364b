/// The mutable graph and its sparse amplitudes (src/core/graph/graph-state.ts).
module GraphStates {
  import opened RealSums
  import opened Laplacian
  import opened OperatorSeries
  import opened Paths

  const MAX_TERMS: nat := 18

  /// 10^-20: the source compares maxMagnitude * |coeff| with 10^-10; both sides are non-negative, so
  /// comparing their squares decides the same without square roots.
  const TOLERANCE_SQUARED: real := 0.00000000000000000001

  function NormSquared(c: Complex): real {
    c.re * c.re + c.im * c.im
  }

  /// The largest squared entry among the first m.
  function MaxSquared(x: seq<real>, m: nat): real
    requires m <= |x|
  {
    if m == 0 then 0.0
    else
      var r := MaxSquared(x, m - 1);
      if x[m - 1] * x[m - 1] > r then x[m - 1] * x[m - 1] else r
  }

  function MaxNorm(v: seq<Complex>, m: nat): real
    requires m <= |v|
  {
    if m == 0 then 0.0
    else
      var r := MaxNorm(v, m - 1);
      if NormSquared(v[m - 1]) > r then NormSquared(v[m - 1]) else r
  }

  function AddMul(a: Complex, c: Complex, x: Complex): Complex {
    Complex(a.re + (c.re * x.re - c.im * x.im), a.im + (c.re * x.im + c.im * x.re))
  }

  function Zeros(n: nat): (r: seq<real>)
  {
    seq(n, i => 0.0)
  }

  lemma {:induction false} MaxNormReal(v: seq<Complex>, m: nat)
    requires m <= |v| && Im(v) == Zeros(|v|)
    ensures MaxNorm(v, m) == MaxSquared(Re(v), m)
  {
    if m > 0 {
      assert v[m - 1].im == Im(v)[m - 1] == 0.0;
      MaxNormReal(v, m - 1);
    }
  }

  lemma LapZeros(g: Adjacency, n: nat)
    ensures Lap(g, Zeros(n)) == Zeros(n)
  {
    forall i | 0 <= i < n ensures LapAt(g, Zeros(n), i) == 0.0 {
      SumZero(n, Masked(Nbrs(g, i), Zeros(n)));
    }
  }

  lemma SumStart(g: Adjacency, n: nat, s: nat, t: real, i: nat)
    requires i < n
    ensures PartialSum(g, n, s, t, 0, i) == if i == s then Complex(1.0, 0.0) else Complex(0.0, 0.0)
  {
    CoeffZero(t);
    CutStep(g, n, s, CoeffRe(t), 0, i);
    CutStep(g, n, s, CoeffIm(t), 0, i);
    assert At(LapPower(g, n, s, 0), i) == if i == s then 1.0 else 0.0;
  }

  lemma SumStep(g: Adjacency, n: nat, s: nat, t: real, k: nat, i: nat)
    requires i < n && k > 0
    ensures var before, c, x := PartialSum(g, n, s, t, k - 1, i), Coeff(t, k), LapPower(g, n, s, k)[i];
            PartialSum(g, n, s, t, k, i) == AddMul(before, c, Complex(x, 0.0))
  {
    hide Coeff, LapPower, Cut;
    CutStep(g, n, s, CoeffRe(t), k, i);
    CutStep(g, n, s, CoeffIm(t), k, i);
  }

  /// Whether the loop stops after adding term k.
  predicate StopsAfter(g: Adjacency, n: nat, s: nat, t: real, k: nat) {
    MaxSquared(LapPower(g, n, s, k), n) * NormSquared(Coeff(t, k)) < TOLERANCE_SQUARED
  }

  lemma {:induction false} MaxSquaredIs(x: seq<real>, m: nat)
    requires m <= |x|
    ensures MaxSquared(x, m) >= 0.0 && forall i :: 0 <= i < m ==> x[i] * x[i] <= MaxSquared(x, m)
    ensures MaxSquared(x, m) == 0.0 || exists i :: 0 <= i < m && MaxSquared(x, m) == x[i] * x[i]
  {
    if m > 0 {
      MaxSquaredIs(x, m - 1);
    }
  }

  lemma SquareScales(c: Complex, x: real)
    ensures (c.re * x) * (c.re * x) + (c.im * x) * (c.im * x) == (x * x) * NormSquared(c)
  {
    assert (c.re * x) * (c.re * x) == (x * x) * (c.re * c.re);
    assert (c.im * x) * (c.im * x) == (x * x) * (c.im * c.im);
  }

  lemma ScaleBelow(a: real, b: real, norm: real)
    requires 0.0 <= a <= b && 0.0 <= norm && b * norm < TOLERANCE_SQUARED
    ensures a * norm < TOLERANCE_SQUARED
  {
    assert a * norm <= b * norm;
  }

  /// The stopping rule on the values: the loop stops after term k exactly if no entry moved by 10^-10 or
  /// more in absolute value.
  lemma StopsExactly(g: Adjacency, n: nat, s: nat, t: real, k: nat)
    requires k >= 1
    ensures StopsAfter(g, n, s, t, k) <==> forall i :: 0 <= i < n ==>
      var now, before := PartialSum(g, n, s, t, k, i), PartialSum(g, n, s, t, k - 1, i);
      (now.re - before.re) * (now.re - before.re) + (now.im - before.im) * (now.im - before.im) < 0.00000000000000000001
  {
    hide PartialSum, Coeff, LapPower, MaxSquared, NormSquared;
    var x, c := LapPower(g, n, s, k), Coeff(t, k);
    MaxSquaredIs(x, n);
    NormPositive(c);
    forall i | 0 <= i < n
      ensures var now, before := PartialSum(g, n, s, t, k, i), PartialSum(g, n, s, t, k - 1, i);
              (now.re - before.re) * (now.re - before.re) + (now.im - before.im) * (now.im - before.im) == (x[i] * x[i]) * NormSquared(c)
    {
      TermIs(g, n, s, t, k, i);
      SquareScales(c, x[i]);
    }
    if StopsAfter(g, n, s, t, k) {
      forall i | 0 <= i < n ensures (x[i] * x[i]) * NormSquared(c) < TOLERANCE_SQUARED {
        ScaleBelow(x[i] * x[i], MaxSquared(x, n), NormSquared(c));
      }
    }
  }

  lemma NormPositive(c: Complex)
    ensures NormSquared(c) >= 0.0
  {
  }

  /// Less than 10^-10 apart.
  ghost predicate Near(a: Complex, b: Complex) {
    (a.re - b.re) * (a.re - b.re) + (a.im - b.im) * (a.im - b.im) < 0.00000000000000000001
  }

  /// No entry moved by 10^-10 or more from the sum of k - 1 terms to that of k.
  ghost predicate Settled(g: Adjacency, n: nat, s: nat, t: real, k: nat)
    requires k >= 1
  {
    forall i :: 0 <= i < n ==> Near(PartialSum(g, n, s, t, k, i), PartialSum(g, n, s, t, k - 1, i))
  }

  /// The index of the last term added: the first k >= from that meets the tolerance, at most 18.
  function LastTerm(g: Adjacency, n: nat, s: nat, t: real, from: nat): (k: nat)
    requires 1 <= from <= MAX_TERMS
    ensures from <= k <= 18 && (k < 18 ==> Settled(g, n, s, t, k))
    ensures forall j :: from <= j < k ==> !Settled(g, n, s, t, j)
    decreases MAX_TERMS - from
  {
    SettlesExactly(g, n, s, t, from);
    if from == MAX_TERMS || StopsAfter(g, n, s, t, from) then from else LastTerm(g, n, s, t, from + 1)
  }

  lemma LastTermStep(g: Adjacency, n: nat, s: nat, t: real, k: nat)
    requires 1 <= k <= MAX_TERMS
    ensures LastTerm(g, n, s, t, k) == if k == MAX_TERMS || StopsAfter(g, n, s, t, k) then k else LastTerm(g, n, s, t, k + 1)
  {
  }

  /// What `amplitude` returns on the sparse path.
  function Amplitude(g: Adjacency, n: nat, i: nat, s: nat, t: real): Complex
    requires i < n && s < n
  {
    PartialSum(g, n, s, t, if t == 0.0 then 0 else LastTerm(g, n, s, t, 1), i)
  }

  /// The value of entry i at the first cut in which no entry moved by 10^-10 or more, or at cut 18.
  ghost predicate StoppedAt(g: Adjacency, n: nat, i: nat, s: nat, t: real, k: nat, amplitude: Complex) {
    && k >= 1 && amplitude == PartialSum(g, n, s, t, k, i)
    && (k == 18 || Settled(g, n, s, t, k))
    && forall j :: 1 <= j < k ==> !Settled(g, n, s, t, j)
  }

  /// The unit vector at time 0, and otherwise the first cut that has settled, or cut 18.
  ghost predicate Stopped(g: Adjacency, n: nat, i: nat, s: nat, t: real, amplitude: Complex) {
    if t == 0.0 then amplitude == Complex(if i == s then 1.0 else 0.0, 0.0)
    else exists k :: 1 <= k <= 18 && StoppedAt(g, n, i, s, t, k, amplitude)
  }

  /// What the loop returns, said on the values alone.
  lemma AmplitudeStops(g: Adjacency, n: nat, i: nat, s: nat, t: real)
    requires i < n && s < n
    ensures Stopped(g, n, i, s, t, Amplitude(g, n, i, s, t))
  {
    hide PartialSum, LastTerm, StoppedAt;
    if t == 0.0 {
      SeriesAtZero(g, n, s, 0, i);
    } else {
      LastTermStops(g, n, i, s, t);
    }
  }

  lemma LastTermStops(g: Adjacency, n: nat, i: nat, s: nat, t: real)
    ensures var k := LastTerm(g, n, s, t, 1); 1 <= k <= 18 && StoppedAt(g, n, i, s, t, k, PartialSum(g, n, s, t, k, i))
  {
    hide PartialSum, Settled, LastTerm;
  }

  lemma SettlesExactly(g: Adjacency, n: nat, s: nat, t: real, k: nat)
    requires k >= 1
    ensures StopsAfter(g, n, s, t, k) <==> Settled(g, n, s, t, k)
  {
    StopsExactly(g, n, s, t, k);
  }

  class GraphState {
    var nodeIds: seq<string>
    var idToIndex: map<string, nat>
    var neighbors: Adjacency

    ghost predicate Valid()
      reads this
    {
      && (forall i: nat :: i in neighbors <==> i < |nodeIds|)
      && (forall id :: id in idToIndex ==> idToIndex[id] < |nodeIds| && nodeIds[idToIndex[id]] == id)
      && (forall id :: id in nodeIds ==> id in idToIndex)
      && Simple(neighbors, |nodeIds|)
    }

    constructor ()
      ensures Valid() && nodeIds == [] && neighbors == map[]
    {
      nodeIds, idToIndex, neighbors := [], map[], map[];
    }

    /// `m` gives each id among the first `i` its last position there.
    static ghost predicate Indexes(m: map<string, nat>, ids: seq<string>, i: nat)
      requires i <= |ids|
    {
      && (forall k :: 0 <= k < i ==> ids[k] in m && k <= m[ids[k]])
      && (forall id :: id in m ==> m[id] < i && ids[m[id]] == id)
    }

    /// A repeated id keeps its last position; every position gets an empty neighbour set.
    method SetNodes(ids: seq<string>)
      modifies this
      ensures Valid() && nodeIds == ids && Indexes(idToIndex, ids, |ids|)
      ensures forall i: nat :: Nbrs(neighbors, i) == {}
    {
      nodeIds := ids;
      idToIndex, neighbors := map[], map[];
      for i := 0 to |ids|
        invariant nodeIds == ids && Indexes(idToIndex, ids, i)
        invariant forall k: nat :: k in neighbors <==> k < i
        invariant forall k :: k in neighbors ==> neighbors[k] == {}
      {
        idToIndex := idToIndex[ids[i] := i];
        neighbors := neighbors[i := {}];
      }
    }

    method AddNode(nodeId: string) returns (index: nat)
      requires Valid()
      modifies this
      ensures Valid() && nodeId in idToIndex && index == idToIndex[nodeId]
      ensures nodeIds == if nodeId in old(idToIndex) then old(nodeIds) else old(nodeIds) + [nodeId]
      ensures idToIndex == old(idToIndex)[nodeId := index]
      ensures forall i: nat :: Nbrs(neighbors, i) == old(Nbrs(neighbors, i))
    {
      if nodeId in idToIndex {
        return idToIndex[nodeId];
      }
      index := |nodeIds|;
      nodeIds := nodeIds + [nodeId];
      idToIndex := idToIndex[nodeId := index];
      neighbors := neighbors[index := {}];
      assert forall i: nat :: Nbrs(neighbors, i) == old(Nbrs(neighbors, i));
    }

    /// Unknown ids and self-loops are ignored; otherwise exactly the one undirected edge changes.
    method SetConnection(a: string, b: string, connected: bool)
      requires Valid()
      modifies this`neighbors
      ensures Valid() && neighbors.Keys == old(neighbors.Keys)
      ensures a in idToIndex && b in idToIndex && idToIndex[a] != idToIndex[b] ==>
        forall i: nat, j: nat {:trigger j in Nbrs(neighbors, i)} :: j in Nbrs(neighbors, i) <==>
          if {i, j} == {idToIndex[a], idToIndex[b]} then connected else j in old(Nbrs(neighbors, i))
      ensures !(a in idToIndex && b in idToIndex && idToIndex[a] != idToIndex[b]) ==> neighbors == old(neighbors)
    {
      if a !in idToIndex || b !in idToIndex || idToIndex[a] == idToIndex[b] {
        return;
      }
      var ai, bi := idToIndex[a], idToIndex[b];
      if connected {
        neighbors := neighbors[ai := neighbors[ai] + {bi}];
        neighbors := neighbors[bi := neighbors[bi] + {ai}];
      } else {
        neighbors := neighbors[ai := neighbors[ai] - {bi}];
        neighbors := neighbors[bi := neighbors[bi] - {ai}];
      }
      ghost var g := old(neighbors);
      forall i: nat, j: nat
        ensures j in Nbrs(neighbors, i) <==> if {i, j} == {ai, bi} then connected else j in Nbrs(g, i)
      {
      }
    }

    /// The inner loop: adds coeff * term to the accumulator and measures the term.
    static method AddTerm(accum: array<Complex>, term: array<Complex>, coeff: Complex) returns (max: real)
      requires accum.Length == term.Length && accum != term
      modifies accum
      ensures max == MaxNorm(term[..], term.Length)
      ensures forall i :: 0 <= i < accum.Length ==> accum[i] == AddMul(old(accum[i]), coeff, term[i])
    {
      hide AddMul, NormSquared;
      max := 0.0;
      for idx := 0 to accum.Length
        invariant max == MaxNorm(term[..], idx)
        invariant forall i :: 0 <= i < idx ==> accum[i] == AddMul(old(accum[i]), coeff, term[i])
        invariant forall i :: idx <= i < accum.Length ==> accum[i] == old(accum[i])
      {
        var squared := NormSquared(term[idx]);
        if squared > max {
          max := squared;
        }
        accum[idx] := AddMul(accum[idx], coeff, term[idx]);
      }
    }

    /// Term k of the series: the next power, the next coefficient, and the new partial sums.
    method NextTerm(term: array<Complex>, accum: array<Complex>, coeff: Complex, ghost s: nat, t: real, k: nat)
      returns (term': array<Complex>, coeff': Complex, max: real)
      requires Valid() && s < |nodeIds| == term.Length == accum.Length && term != accum && k > 0
      requires coeff == Coeff(t, k - 1)
      requires Re(term[..]) == LapPower(neighbors, |nodeIds|, s, k - 1) && Im(term[..]) == Zeros(|nodeIds|)
      requires forall i :: 0 <= i < |nodeIds| ==> accum[i] == PartialSum(neighbors, |nodeIds|, s, t, k - 1, i)
      modifies accum
      ensures fresh(term') && term'.Length == |nodeIds|
      ensures coeff' == Coeff(t, k)
      ensures Re(term'[..]) == LapPower(neighbors, |nodeIds|, s, k) && Im(term'[..]) == Zeros(|nodeIds|)
      ensures forall i :: 0 <= i < |nodeIds| ==> accum[i] == PartialSum(neighbors, |nodeIds|, s, t, k, i)
      ensures max == MaxSquared(LapPower(neighbors, |nodeIds|, s, k), |nodeIds|)
    {
      hide PartialSum, Coeff, Lap, Simple, AddMul, MaxNorm, MaxSquared, NextCoeff;
      var n := |nodeIds|;
      term' := ApplyLaplacianSparse(term, neighbors);
      LapZeros(neighbors, n);
      coeff' := NextCoeff(coeff, t, k);
      CoeffStep(t, k);
      max := AddTerm(accum, term', coeff');
      MaxNormReal(term'[..], n);
      forall i | 0 <= i < n ensures accum[i] == PartialSum(neighbors, n, s, t, k, i) {
        SumStep(neighbors, n, s, t, k, i);
        assert term'[i].re == Re(term'[..])[i] && term'[i].im == Im(term'[..])[i] == 0.0;
      }
    }

    /// The series loop: it adds terms until one meets the tolerance, at most 18 of them.
    method AmplitudeSparse(i: nat, s: nat, t: real) returns (amplitude: Complex)
      requires Valid() && i < |nodeIds| && s < |nodeIds|
      ensures amplitude == Amplitude(neighbors, |nodeIds|, i, s, t)
      ensures Stopped(neighbors, |nodeIds|, i, s, t, amplitude)
    {
      hide PartialSum, Coeff, LapPower, Simple, MaxSquared, NormSquared, LastTerm, Stopped;
      var n := |nodeIds|;
      ghost var g := neighbors;
      SumStart(g, n, s, t, i);
      AmplitudeStops(g, n, i, s, t);
      if t == 0.0 {
        return if i == s then Complex(1.0, 0.0) else Complex(0.0, 0.0);
      }
      var coeff := Complex(1.0, 0.0);
      var term := new Complex[n](index => if index == s then Complex(1.0, 0.0) else Complex(0.0, 0.0));
      var accum := new Complex[n](index => Complex(0.0, 0.0));
      accum[s] := Complex(1.0, 0.0);
      SeriesStart(g, n, s, t, term[..], accum[..]);
      for k := 1 to MAX_TERMS + 1
        invariant fresh(term) && fresh(accum) && term != accum && term.Length == accum.Length == n
        invariant coeff == Coeff(t, k - 1)
        invariant Re(term[..]) == LapPower(g, n, s, k - 1) && Im(term[..]) == Zeros(n)
        invariant forall idx :: 0 <= idx < n ==> accum[idx] == PartialSum(g, n, s, t, k - 1, idx)
        invariant LastTerm(g, n, s, t, 1) == if k <= MAX_TERMS then LastTerm(g, n, s, t, k) else MAX_TERMS
      {
        var max;
        term, coeff, max := NextTerm(term, accum, coeff, s, t, k);
        LastTermStep(g, n, s, t, k);
        if max * NormSquared(coeff) < TOLERANCE_SQUARED {
          return accum[i];
        }
      }
      return accum[i];
    }

    static lemma SeriesStart(g: Adjacency, n: nat, s: nat, t: real, term: seq<Complex>, accum: seq<Complex>)
      requires s < n == |term| == |accum|
      requires forall i :: 0 <= i < n ==> term[i] == accum[i] == if i == s then Complex(1.0, 0.0) else Complex(0.0, 0.0)
      ensures Coeff(t, 0) == Complex(1.0, 0.0)
      ensures Re(term) == LapPower(g, n, s, 0) && Im(term) == Zeros(n)
      ensures forall idx :: 0 <= idx < n ==> accum[idx] == PartialSum(g, n, s, t, 0, idx)
    {
      CoeffZero(t);
      forall idx | 0 <= idx < n ensures accum[idx] == PartialSum(g, n, s, t, 0, idx) {
        SumStart(g, n, s, t, idx);
      }
    }

    method GetAmplitude(i: int, s: int, t: real) returns (amplitude: Complex)
      requires Valid()
      ensures 0 <= i < |nodeIds| && 0 <= s < |nodeIds| ==> Stopped(neighbors, |nodeIds|, i, s, t, amplitude)
      ensures amplitude == if 0 <= i < |nodeIds| && 0 <= s < |nodeIds| then Amplitude(neighbors, |nodeIds|, i, s, t)
                           else Complex(0.0, 0.0)
    {
      if i < 0 || s < 0 || i >= |nodeIds| || s >= |nodeIds| {
        return Complex(0.0, 0.0);
      }
      amplitude := AmplitudeSparse(i, s, t);
    }
  }

  // ---------- what the amplitudes of a graph satisfy ----------

  function AmplitudesRe(g: Adjacency, n: nat, s: nat, t: real): nat -> real {
    (i: nat) => if i < n && s < n then Amplitude(g, n, i, s, t).re else 0.0
  }

  function AmplitudesIm(g: Adjacency, n: nat, s: nat, t: real): nat -> real {
    (i: nat) => if i < n && s < n then Amplitude(g, n, i, s, t).im else 0.0
  }

  /// All nodes of a source stop at the same term, so what the loop returns sums to exactly 1 + 0i
  /// over the nodes, whatever the time and wherever it stopped.
  lemma AmplitudesTotal(g: Adjacency, n: nat, s: nat, t: real)
    requires Simple(g, n) && s < n
    ensures Sum(n, AmplitudesRe(g, n, s, t)) == 1.0 && Sum(n, AmplitudesIm(g, n, s, t)) == 0.0
  {
    hide PartialSum, Simple;
    var k := if t == 0.0 then 0 else LastTerm(g, n, s, t, 1);
    SeriesTotal(g, n, s, t, k);
    SumEq(n, AmplitudesRe(g, n, s, t), SeriesRe(g, n, s, t, k));
    SumEq(n, AmplitudesIm(g, n, s, t), SeriesIm(g, n, s, t, k));
  }

  /// Nodes that no path joins to the source have amplitude exactly zero.
  lemma AmplitudeLocal(g: Adjacency, n: nat, i: nat, s: nat, t: real)
    requires Simple(g, n) && i < n && s < n && !Joined(g, s, i)
    ensures Amplitude(g, n, i, s, t) == Complex(0.0, 0.0)
  {
    var k := if t == 0.0 then 0 else LastTerm(g, n, s, t, 1);
    if i in Ball(g, n, s, k) {
      BallJoined(g, n, s, k, i);
    }
    SeriesLocal(g, n, s, t, k, i);
  }

  /// When both directions add the same number of terms, the amplitude is symmetric.
  lemma AmplitudeSymmetric(g: Adjacency, n: nat, i: nat, s: nat, t: real)
    requires Simple(g, n) && i < n && s < n
    requires t != 0.0 ==> LastTerm(g, n, s, t, 1) == LastTerm(g, n, i, t, 1)
    ensures Amplitude(g, n, i, s, t) == Amplitude(g, n, s, i, t)
  {
    SeriesSymmetric(g, n, s, i, t, if t == 0.0 then 0 else LastTerm(g, n, s, t, 1));
  }
}
