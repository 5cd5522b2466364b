/// The graph Laplacian, sparse and dense (src/core/graph/laplacian.ts).
module Laplacian {
  import opened RealSums

  datatype Complex = Complex(re: real, im: real)

  /// Neighbour sets by node index.
  type Adjacency = map<nat, set<nat>>

  function Nbrs(g: Adjacency, i: nat): set<nat> {
    if i in g then g[i] else {}
  }

  /// What every graph built through GraphState satisfies.
  ghost predicate Simple(g: Adjacency, n: nat) {
    && (forall i :: i in g ==> i < n)
    && (forall i: nat, j: nat {:trigger j in Nbrs(g, i)} :: j in Nbrs(g, i) ==> j < n && j != i && i in Nbrs(g, j))
  }

  function At(x: seq<real>, i: nat): real {
    if i < |x| then x[i] else 0.0
  }

  function Degree(g: Adjacency, i: nat): real {
    |Nbrs(g, i)| as real
  }

  function Edge(g: Adjacency, i: nat, j: nat): real {
    if j in Nbrs(g, i) then 1.0 else 0.0
  }

  /// The sum of a vector over a set of indices.
  function Over(s: set<nat>, x: seq<real>): real {
    Sum(|x|, Masked(s, x))
  }

  function Masked(s: set<nat>, x: seq<real>): nat -> real {
    (j: nat) => if j in s then At(x, j) else 0.0
  }

  /// Entry i of the Laplacian applied to a vector.
  function LapAt(g: Adjacency, x: seq<real>, i: nat): real {
    Degree(g, i) * At(x, i) - Over(Nbrs(g, i), x)
  }

  function Lap(g: Adjacency, x: seq<real>): (r: seq<real>)
    ensures |r| == |x| && forall i :: 0 <= i < |x| ==> r[i] == LapAt(g, x, i)
  {
    seq(|x|, i requires 0 <= i < |x| => LapAt(g, x, i))
  }

  function Dot(x: seq<real>, y: seq<real>): real {
    Sum(|x|, Products(x, y))
  }

  function Products(x: seq<real>, y: seq<real>): nat -> real {
    (i: nat) => At(x, i) * At(y, i)
  }

  function Total(x: seq<real>): real {
    Sum(|x|, Entries(x))
  }

  function Entries(x: seq<real>): nat -> real {
    (i: nat) => At(x, i)
  }

  // ---------- sums over sets ----------

  lemma OverEmpty(x: seq<real>)
    ensures Over({}, x) == 0.0
  {
    SumZero(|x|, Masked({}, x));
  }

  lemma OverAdd(s: set<nat>, j: nat, x: seq<real>)
    requires j !in s
    ensures Over(s + {j}, x) == Over(s, x) + At(x, j)
  {
    var d := (k: nat) => if k == j then At(x, j) else 0.0;
    SumLinear(|x|, 1.0, Masked(s, x), 1.0, d, Masked(s + {j}, x));
    if j < |x| {
      SumOne(|x|, j, d);
    } else {
      SumZero(|x|, d);
    }
  }

  lemma {:induction false} EdgeCount(s: set<nat>, n: nat)
    requires forall j :: j in s ==> j < n
    ensures Sum(n, (j: nat) => if j in s then 1.0 else 0.0) == |s| as real
  {
    if n == 0 {
      assert s == {};
    } else {
      var front := s - {n - 1};
      EdgeCount(front, n - 1);
      SumEq(n - 1, (j: nat) => if j in s then 1.0 else 0.0, (j: nat) => if j in front then 1.0 else 0.0);
      if n - 1 in s {
        assert s == front + {n - 1};
      } else {
        assert s == front;
      }
    }
  }

  /// The Laplacian entry as one sum over all indices.
  lemma LapAtSum(g: Adjacency, x: seq<real>, i: nat)
    requires Simple(g, |x|)
    ensures LapAt(g, x, i) == Sum(|x|, Differences(g, x, i))
  {
    var one := (j: nat) => if j in Nbrs(g, i) then 1.0 else 0.0;
    EdgeCount(Nbrs(g, i), |x|);
    SumLinear(|x|, At(x, i), one, -1.0, Masked(Nbrs(g, i), x), Differences(g, x, i));
  }

  function Differences(g: Adjacency, x: seq<real>, i: nat): nat -> real {
    (j: nat) => Edge(g, i, j) * (At(x, i) - At(x, j))
  }

  // ---------- the linear algebra ----------

  /// The terms of the double sum behind <x, Ly>.
  function Cross(g: Adjacency, x: seq<real>, y: seq<real>): (nat, nat) -> real {
    (i: nat, j: nat) => At(x, i) * Differences(g, y, i)(j)
  }

  lemma DotLapRow(g: Adjacency, x: seq<real>, y: seq<real>, i: nat)
    requires |x| == |y| && Simple(g, |x|)
    ensures At(x, i) * LapAt(g, y, i) == Inner(|x|, Cross(g, x, y))(i)
  {
    hide LapAt, Differences;
    LapAtSum(g, y, i);
    var c, d := Cross(g, x, y), Differences(g, y, i);
    var h := (j: nat) => c(i, j);
    assert forall j: nat :: h(j) == At(x, i) * d(j);
    SumScale(|x|, At(x, i), d, h);
  }

  lemma DotLap(g: Adjacency, x: seq<real>, y: seq<real>)
    requires |x| == |y| && Simple(g, |x|)
    ensures Dot(x, Lap(g, y)) == Sum(|x|, Inner(|x|, Cross(g, x, y)))
  {
    hide LapAt, Cross, Inner;
    var n := |x|;
    forall i: nat | i < n ensures At(x, i) * At(Lap(g, y), i) == Inner(n, Cross(g, x, y))(i) {
      DotLapRow(g, x, y, i);
    }
    SumEq(n, Products(x, Lap(g, y)), Inner(n, Cross(g, x, y)));
  }

  lemma EnergyTerm(g: Adjacency, x: seq<real>, y: seq<real>, i: nat, j: nat)
    requires Simple(g, |x|)
    ensures Energy(g, x, y)(i, j) == Cross(g, x, y)(i, j) + Cross(g, x, y)(j, i)
  {
    assert j in Nbrs(g, i) <==> i in Nbrs(g, j);
    var xi, xj, dy := At(x, i), At(x, j), At(y, i) - At(y, j);
    var d, d' := Differences(g, y, i)(j), Differences(g, y, j)(i);
    assert Cross(g, x, y)(i, j) == xi * d && Cross(g, x, y)(j, i) == xj * d';
    assert d == Edge(g, i, j) * dy && d' == -d;
  }

  lemma EnergyRow(g: Adjacency, x: seq<real>, y: seq<real>, i: nat)
    requires |x| == |y| && Simple(g, |x|)
    ensures var c := Cross(g, x, y);
            Inner(|x|, Energy(g, x, y))(i) == Inner(|x|, c)(i) + Inner(|x|, Flip(c))(i)
  {
    hide Cross, Energy;
    var c := Cross(g, x, y);
    forall j: nat ensures Energy(g, x, y)(i, j) == c(i, j) + Flip(c)(i, j) {
      EnergyTerm(g, x, y, i, j);
    }
    SumAdd(|x|, (j: nat) => c(i, j), (j: nat) => Flip(c)(i, j), (j: nat) => Energy(g, x, y)(i, j));
  }

  /// Twice <x, Ly> is the symmetric sum over all edges of the differences' products.
  lemma DotLapSymmetric(g: Adjacency, x: seq<real>, y: seq<real>)
    requires |x| == |y| && Simple(g, |x|)
    ensures 2.0 * Dot(x, Lap(g, y)) == Sum(|x|, Inner(|x|, Energy(g, x, y)))
  {
    hide Cross, Energy, Inner, Dot, Lap;
    var n, c := |x|, Cross(g, x, y);
    DotLap(g, x, y);
    SumSwap(n, n, c);
    forall i: nat ensures Inner(n, Energy(g, x, y))(i) == Inner(n, c)(i) + Inner(n, Flip(c))(i) {
      EnergyRow(g, x, y, i);
    }
    SumAdd(n, Inner(n, c), Inner(n, Flip(c)), Inner(n, Energy(g, x, y)));
  }

  function Energy(g: Adjacency, x: seq<real>, y: seq<real>): (nat, nat) -> real {
    (i: nat, j: nat) => Edge(g, i, j) * (At(x, i) - At(x, j)) * (At(y, i) - At(y, j))
  }

  /// The Laplacian of a simple graph is self-adjoint.
  lemma SelfAdjoint(g: Adjacency, x: seq<real>, y: seq<real>)
    requires |x| == |y| && Simple(g, |x|)
    ensures Dot(Lap(g, x), y) == Dot(x, Lap(g, y))
  {
    var n := |x|;
    DotLapSymmetric(g, x, y);
    DotLapSymmetric(g, y, x);
    forall i: nat | i < n ensures Inner(n, Energy(g, x, y))(i) == Inner(n, Energy(g, y, x))(i) {
      SumEq(n, (j: nat) => Energy(g, x, y)(i, j), (j: nat) => Energy(g, y, x)(i, j));
    }
    SumEq(n, Inner(n, Energy(g, x, y)), Inner(n, Energy(g, y, x)));
    SumEq(n, Products(Lap(g, x), y), Products(y, Lap(g, x)));
  }

  /// Its quadratic form is half the sum of squared differences over ordered pairs of neighbours,
  /// hence never negative.
  lemma PositiveSemidefinite(g: Adjacency, x: seq<real>)
    requires Simple(g, |x|)
    ensures Dot(x, Lap(g, x))
         == 0.5 * Sum(|x|, Inner(|x|, (i: nat, j: nat) => Edge(g, i, j) * ((At(x, i) - At(x, j)) * (At(x, i) - At(x, j)))))
    ensures Dot(x, Lap(g, x)) >= 0.0
  {
    var n := |x|;
    var sq := (i: nat, j: nat) => Edge(g, i, j) * ((At(x, i) - At(x, j)) * (At(x, i) - At(x, j)));
    DotLapSymmetric(g, x, x);
    forall i: nat | i < n ensures Inner(n, Energy(g, x, x))(i) == Inner(n, sq)(i) >= 0.0 {
      SumEq(n, (j: nat) => Energy(g, x, x)(i, j), (j: nat) => sq(i, j));
      SumNonNegative(n, (j: nat) => sq(i, j));
    }
    SumEq(n, Inner(n, Energy(g, x, x)), Inner(n, sq));
    SumNonNegative(n, Inner(n, sq));
  }

  /// The Laplacian conserves nothing but the total: its columns sum to zero.
  lemma LapTotal(g: Adjacency, x: seq<real>)
    requires Simple(g, |x|)
    ensures Total(Lap(g, x)) == 0.0
  {
    var n := |x|;
    var ones := seq(n, i => 1.0);
    SelfAdjoint(g, ones, x);
    DotLapSymmetric(g, ones, x);
    forall i: nat | i < n ensures Inner(n, Energy(g, ones, x))(i) == 0.0 {
      SumZero(n, (j: nat) => Energy(g, ones, x)(i, j));
    }
    SumZero(n, Inner(n, Energy(g, ones, x)));
    SumEq(n, Products(ones, Lap(g, x)), Entries(Lap(g, x)));
  }

  // ---------- sparse and dense code ----------

  function Re(v: seq<Complex>): (r: seq<real>)
  {
    seq(|v|, i requires 0 <= i < |v| => v[i].re)
  }

  function Im(v: seq<Complex>): (r: seq<real>)
  {
    seq(|v|, i requires 0 <= i < |v| => v[i].im)
  }

  function Entry(v: seq<Complex>, i: nat): Complex {
    if i < |v| then v[i] else Complex(0.0, 0.0)
  }

  /// One row of the sparse product: the neighbour set is consumed in whatever order it iterates.
  method SparseRow(vec: array<Complex>, nbrs: set<nat>, i: nat) returns (c: Complex)
    requires i < vec.Length
    ensures c.re == |nbrs| as real * vec[i].re - Over(nbrs, Re(vec[..]))
    ensures c.im == |nbrs| as real * vec[i].im - Over(nbrs, Im(vec[..]))
  {
    hide Over;
    var real_ := |nbrs| as real * vec[i].re;
    var imag := |nbrs| as real * vec[i].im;
    var rest := nbrs;
    ghost var re, im := Re(vec[..]), Im(vec[..]);
    ghost var real0, imag0 := real_, imag;
    OverEmpty(re);
    OverEmpty(im);
    assert nbrs - rest == {};
    while rest != {}
      invariant rest <= nbrs
      invariant real_ == real0 - Over(nbrs - rest, re)
      invariant imag == imag0 - Over(nbrs - rest, im)
      decreases rest
    {
      var j :| j in rest;
      OverAdd(nbrs - rest, j, re);
      OverAdd(nbrs - rest, j, im);
      assert nbrs - (rest - {j}) == (nbrs - rest) + {j};
      real_ := real_ - if j < vec.Length then vec[j].re else 0.0;
      imag := imag - if j < vec.Length then vec[j].im else 0.0;
      rest := rest - {j};
    }
    assert nbrs - rest == nbrs;
    c := Complex(real_, imag);
  }

  method ApplyLaplacianSparse(vec: array<Complex>, g: Adjacency) returns (out: array<Complex>)
    ensures fresh(out) && out.Length == vec.Length
    ensures Re(out[..]) == Lap(g, Re(vec[..])) && Im(out[..]) == Lap(g, Im(vec[..]))
  {
    var n := vec.Length;
    out := new Complex[n](i => Complex(0.0, 0.0));
    hide LapAt;
    ghost var re, im := Re(vec[..]), Im(vec[..]);
    for i := 0 to n
      invariant forall k :: 0 <= k < i ==>
        out[k].re == LapAt(g, re, k) && out[k].im == LapAt(g, im, k)
    {
      var nbrs := if i in g then g[i] else {};
      var c := SparseRow(vec, nbrs, i);
      out[i] := c;
    }
  }

  /// Entry (i, j) of the dense Laplacian.
  function DenseAt(g: Adjacency, i: nat, j: nat): real {
    if j in Nbrs(g, i) then -1.0 else if i == j then Degree(g, i) else 0.0
  }

  method BuildLaplacian(n: nat, g: Adjacency) returns (matrix: array2<real>)
    requires forall i: nat, j: nat :: j in Nbrs(g, i) ==> j < n
    ensures fresh(matrix) && matrix.Length0 == n && matrix.Length1 == n
    ensures forall i, j :: 0 <= i < n && 0 <= j < n ==> matrix[i, j] == DenseAt(g, i, j)
  {
    matrix := new real[n, n]((i, j) => 0.0);
    for i := 0 to n
      invariant forall a, b :: 0 <= a < i && 0 <= b < n ==> matrix[a, b] == DenseAt(g, a, b)
      invariant forall a, b :: i <= a < n && 0 <= b < n ==> matrix[a, b] == 0.0
    {
      var nbrs := if i in g then g[i] else {};
      matrix[i, i] := |nbrs| as real;
      var rest := nbrs;
      while rest != {}
        invariant rest <= nbrs
        invariant forall a, b :: 0 <= a < i && 0 <= b < n ==> matrix[a, b] == DenseAt(g, a, b)
        invariant forall a, b :: i < a < n && 0 <= b < n ==> matrix[a, b] == 0.0
        invariant forall b :: 0 <= b < n ==>
          matrix[i, b] == if b in nbrs - rest then -1.0 else if b == i then |nbrs| as real else 0.0
        decreases rest
      {
        var j :| j in rest;
        assert j in Nbrs(g, i);
        matrix[i, j] := -1.0;
        rest := rest - {j};
      }
    }
  }

  /// The dense matrix and the sparse operator are the same linear map.
  lemma DenseIsSparse(g: Adjacency, x: seq<real>, i: nat)
    requires i < |x| && Simple(g, |x|)
    ensures Sum(|x|, (j: nat) => DenseAt(g, i, j) * At(x, j)) == LapAt(g, x, i)
  {
    var n := |x|;
    var diag := (j: nat) => if j == i then Degree(g, i) * At(x, i) else 0.0;
    SumLinear(n, 1.0, diag, -1.0, Masked(Nbrs(g, i), x), (j: nat) => DenseAt(g, i, j) * At(x, j));
    SumOne(n, i, diag);
  }
}
