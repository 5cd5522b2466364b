/// The truncated operator series behind sparse amplitudes, and its laws
/// (src/core/graph/graph-state.ts, amplitudeSparse). All of them hold after any number of terms.
module OperatorSeries {
  import opened RealSums
  import opened Laplacian

  // ---------- complex scalars ----------

  function Mul(a: Complex, b: Complex): Complex {
    Complex(a.re * b.re - a.im * b.im, a.re * b.im + a.im * b.re)
  }

  function Scale(r: real, a: Complex): Complex {
    Complex(r * a.re, r * a.im)
  }

  function Power(a: Complex, k: nat): Complex {
    if k == 0 then Complex(1.0, 0.0) else Mul(Power(a, k - 1), a)
  }

  function Factorial(k: nat): (r: real)
    ensures r > 0.0
  {
    if k == 0 then 1.0 else k as real * Factorial(k - 1)
  }

  /// (-it)^k / k!
  function Coeff(t: real, k: nat): Complex {
    Scale(1.0 / Factorial(k), Power(Complex(0.0, -t), k))
  }

  /// The update the loop makes to its coefficient.
  function NextCoeff(c: Complex, t: real, k: nat): Complex
    requires k > 0
  {
    Complex(c.im * t / k as real, -c.re * t / k as real)
  }

  lemma CoeffStep(t: real, k: nat)
    requires k > 0
    ensures NextCoeff(Coeff(t, k - 1), t, k) == Coeff(t, k)
  {
  }

  // ---------- powers of the Laplacian on a unit vector ----------

  function Unit(n: nat, s: nat): (r: seq<real>)
  {
    seq(n, i => if i == s then 1.0 else 0.0)
  }

  /// L^k e_s
  function LapPower(g: Adjacency, n: nat, s: nat, k: nat): (r: seq<real>)
    ensures |r| == n
  {
    if k == 0 then Unit(n, s) else Lap(g, LapPower(g, n, s, k - 1))
  }

  /// Entry i of a combination of the powers, cut after the terms 0..k.
  function Cut(g: Adjacency, n: nat, s: nat, c: nat -> real, k: nat, i: nat): real {
    Sum(k + 1, Terms(g, n, s, c, i))
  }

  function Terms(g: Adjacency, n: nat, s: nat, c: nat -> real, i: nat): nat -> real {
    (j: nat) => c(j) * At(LapPower(g, n, s, j), i)
  }

  function CoeffRe(t: real): nat -> real {
    (j: nat) => Coeff(t, j).re
  }

  function CoeffIm(t: real): nat -> real {
    (j: nat) => Coeff(t, j).im
  }

  /// Entry i of sum over j <= k of (-it)^j / j! L^j e_s.
  function PartialSum(g: Adjacency, n: nat, s: nat, t: real, k: nat, i: nat): Complex {
    Complex(Cut(g, n, s, CoeffRe(t), k, i), Cut(g, n, s, CoeffIm(t), k, i))
  }

  // ---------- the series by its recurrence ----------

  /// The k-th term of entry i: what the k-th cut adds to the one before.
  function Term(g: Adjacency, n: nat, s: nat, t: real, k: nat, i: nat): Complex {
    var now := PartialSum(g, n, s, t, k, i);
    if k == 0 then now
    else
      var before := PartialSum(g, n, s, t, k - 1, i);
      Complex(now.re - before.re, now.im - before.im)
  }

  function TermRe(g: Adjacency, n: nat, s: nat, t: real, k: nat): seq<real> {
    seq(n, i requires 0 <= i < n => Term(g, n, s, t, k, i).re)
  }

  function TermIm(g: Adjacency, n: nat, s: nat, t: real, k: nat): seq<real> {
    seq(n, i requires 0 <= i < n => Term(g, n, s, t, k, i).im)
  }

  lemma TermIs(g: Adjacency, n: nat, s: nat, t: real, k: nat, i: nat)
    requires i < n
    ensures Term(g, n, s, t, k, i) == Complex(Coeff(t, k).re * LapPower(g, n, s, k)[i], Coeff(t, k).im * LapPower(g, n, s, k)[i])
  {
    hide Cut, LapPower, Coeff;
    CutStep(g, n, s, CoeffRe(t), k, i);
    CutStep(g, n, s, CoeffIm(t), k, i);
  }

  lemma LapScale(g: Adjacency, c: real, x: seq<real>, y: seq<real>, i: nat)
    requires |x| == |y| && forall j :: 0 <= j < |x| ==> y[j] == c * x[j]
    ensures LapAt(g, y, i) == c * LapAt(g, x, i)
  {
    hide Degree, Sum;
    SumScale(|x|, c, Masked(Nbrs(g, i), x), Masked(Nbrs(g, i), y));
    ScaleDifference(c, Degree(g, i), At(x, i), At(y, i), Over(Nbrs(g, i), x), Over(Nbrs(g, i), y));
  }

  lemma ScaleDifference(c: real, d: real, a: real, b: real, o: real, p: real)
    requires b == c * a && p == c * o
    ensures d * b - p == c * (d * a - o)
  {
    var e := d * a;
    assert d * b == c * e;
  }

  /// The terms are those of e^(-itL) applied to the source: the first is the unit vector, and k times the
  /// k-th is -it times the Laplacian of the one before.
  lemma SeriesRecurrence(g: Adjacency, n: nat, s: nat, t: real, k: nat, i: nat)
    requires i < n
    ensures PartialSum(g, n, s, t, 0, i) == Complex(if i == s then 1.0 else 0.0, 0.0)
    ensures k > 0 ==> k as real * Term(g, n, s, t, k, i).re == t * LapAt(g, TermIm(g, n, s, t, k - 1), i)
    ensures k > 0 ==> k as real * Term(g, n, s, t, k, i).im == -t * LapAt(g, TermRe(g, n, s, t, k - 1), i)
  {
    hide LapPower, Coeff, Term, LapAt, NextCoeff, PartialSum;
    SeriesStarts(g, n, s, t, i);
    if k > 0 {
      var x, c := LapPower(g, n, s, k - 1), Coeff(t, k - 1);
      TermIs(g, n, s, t, k, i);
      TermsAre(g, n, s, t, k - 1);
      LapScale(g, c.re, x, TermRe(g, n, s, t, k - 1), i);
      LapScale(g, c.im, x, TermIm(g, n, s, t, k - 1), i);
      NextPower(g, n, s, k, i);
      CoeffStep(t, k);
      NextTerms(c, Coeff(t, k), t, k, LapAt(g, x, i));
    }
  }

  lemma SeriesStarts(g: Adjacency, n: nat, s: nat, t: real, i: nat)
    requires i < n
    ensures PartialSum(g, n, s, t, 0, i) == Complex(if i == s then 1.0 else 0.0, 0.0)
  {
    TermIs(g, n, s, t, 0, i);
    CoeffZero(t);
    assert LapPower(g, n, s, 0)[i] == if i == s then 1.0 else 0.0;
  }

  lemma TermsAre(g: Adjacency, n: nat, s: nat, t: real, k: nat)
    ensures var x, c := LapPower(g, n, s, k), Coeff(t, k);
            && |TermRe(g, n, s, t, k)| == |TermIm(g, n, s, t, k)| == |x|
            && (forall j :: 0 <= j < |x| ==> TermRe(g, n, s, t, k)[j] == c.re * x[j])
            && (forall j :: 0 <= j < |x| ==> TermIm(g, n, s, t, k)[j] == c.im * x[j])
  {
    hide LapPower, Coeff, Term;
    var x, c := LapPower(g, n, s, k), Coeff(t, k);
    forall j {:trigger x[j]} | 0 <= j < n ensures Term(g, n, s, t, k, j) == Complex(c.re * x[j], c.im * x[j]) {
      TermIs(g, n, s, t, k, j);
    }
  }

  lemma NextPower(g: Adjacency, n: nat, s: nat, k: nat, i: nat)
    requires k > 0 && i < n
    ensures LapPower(g, n, s, k)[i] == LapAt(g, LapPower(g, n, s, k - 1), i)
  {
  }

  lemma NextTerms(c: Complex, d: Complex, t: real, k: nat, x: real)
    requires k > 0 && d == NextCoeff(c, t, k)
    ensures k as real * (d.re * x) == t * (c.im * x)
    ensures k as real * (d.im * x) == -t * (c.re * x)
  {
    var m := k as real;
    Reorder(m, d.re, t, c.im, x);
    Reorder(m, d.im, -t, c.re, x);
  }

  lemma Reorder(m: real, d: real, t: real, c: real, x: real)
    requires m != 0.0 && d == c * t / m
    ensures m * (d * x) == t * (c * x)
  {
    var e := c * t;
    assert m * d == e;
    assert m * (d * x) == e * x == t * (c * x);
  }

  // ---------- conservation ----------

  lemma UnitTotal(n: nat, s: nat)
    requires s < n
    ensures Total(Unit(n, s)) == 1.0
  {
    SumOne(n, s, Entries(Unit(n, s)));
  }

  lemma PowerTotal(g: Adjacency, n: nat, s: nat, k: nat)
    requires Simple(g, n) && s < n
    ensures Total(LapPower(g, n, s, k)) == if k == 0 then 1.0 else 0.0
  {
    if k == 0 {
      UnitTotal(n, s);
    } else {
      LapTotal(g, LapPower(g, n, s, k - 1));
    }
  }

  function CutAll(g: Adjacency, n: nat, s: nat, c: nat -> real, k: nat): nat -> real {
    (i: nat) => Cut(g, n, s, c, k, i)
  }

  lemma {:induction false} CutTotal(g: Adjacency, n: nat, s: nat, c: nat -> real, k: nat)
    requires Simple(g, n) && s < n
    ensures Sum(n, CutAll(g, n, s, c, k)) == c(0)
  {
    hide Simple, LapPower, Terms;
    var p := Entries(LapPower(g, n, s, k));
    var last := (i: nat) => c(k) * p(i);
    PowerTotal(g, n, s, k);
    SumScale(n, c(k), p, last);
    forall i: nat
      ensures CutAll(g, n, s, c, k)(i) == (if k == 0 then 0.0 else CutAll(g, n, s, c, k - 1)(i)) + last(i)
    {
      CutStep(g, n, s, c, k, i);
    }
    if k == 0 {
      SumEq(n, last, CutAll(g, n, s, c, 0));
    } else {
      CutTotal(g, n, s, c, k - 1);
      SumAdd(n, CutAll(g, n, s, c, k - 1), last, CutAll(g, n, s, c, k));
    }
  }

  lemma CutStep(g: Adjacency, n: nat, s: nat, c: nat -> real, k: nat, i: nat)
    ensures Cut(g, n, s, c, k, i)
         == (if k == 0 then 0.0 else Cut(g, n, s, c, k - 1, i)) + c(k) * At(LapPower(g, n, s, k), i)
  {
    hide LapPower;
    var f := Terms(g, n, s, c, i);
    assert Sum(k + 1, f) == Sum(k, f) + f(k);
  }

  function SeriesRe(g: Adjacency, n: nat, s: nat, t: real, k: nat): nat -> real {
    (i: nat) => PartialSum(g, n, s, t, k, i).re
  }

  function SeriesIm(g: Adjacency, n: nat, s: nat, t: real, k: nat): nat -> real {
    (i: nat) => PartialSum(g, n, s, t, k, i).im
  }

  /// However early the series stops, the amplitudes over all nodes sum to exactly 1 + 0i.
  lemma SeriesTotal(g: Adjacency, n: nat, s: nat, t: real, k: nat)
    requires Simple(g, n) && s < n
    ensures Sum(n, SeriesRe(g, n, s, t, k)) == 1.0
    ensures Sum(n, SeriesIm(g, n, s, t, k)) == 0.0
  {
    CutTotal(g, n, s, CoeffRe(t), k);
    CutTotal(g, n, s, CoeffIm(t), k);
    hide Cut, Coeff, Simple;
    SumEq(n, SeriesRe(g, n, s, t, k), CutAll(g, n, s, CoeffRe(t), k));
    SumEq(n, SeriesIm(g, n, s, t, k), CutAll(g, n, s, CoeffIm(t), k));
    CoeffZero(t);
  }

  lemma CoeffZero(t: real)
    ensures Coeff(t, 0) == Complex(1.0, 0.0)
  {
  }

  /// At t = 0 every cut of the series is the unit vector, which is what the shortcut returns.
  lemma SeriesAtZero(g: Adjacency, n: nat, s: nat, k: nat, i: nat)
    requires i < n
    ensures PartialSum(g, n, s, 0.0, k, i) == Complex(if i == s then 1.0 else 0.0, 0.0)
  {
    hide Lap, Coeff;
    CoeffZero(0.0);
    forall j: nat | j > 0 ensures CoeffRe(0.0)(j) == 0.0 && CoeffIm(0.0)(j) == 0.0 {
      CoeffStep(0.0, j);
    }
    SumOne(k + 1, 0, Terms(g, n, s, CoeffRe(0.0), i));
    SumOne(k + 1, 0, Terms(g, n, s, CoeffIm(0.0), i));
    assert At(LapPower(g, n, s, 0), i) == if i == s then 1.0 else 0.0;
  }

  // ---------- symmetry ----------

  lemma DotUnit(n: nat, s: nat, x: seq<real>)
    requires s < n == |x|
    ensures Dot(Unit(n, s), x) == x[s] == Dot(x, Unit(n, s))
  {
    SumOne(n, s, Products(Unit(n, s), x));
    SumOne(n, s, Products(x, Unit(n, s)));
  }

  /// <L^a e_s, L^b e_i> depends only on a + b.
  lemma {:induction false} ShiftPower(g: Adjacency, n: nat, s: nat, i: nat, a: nat, b: nat)
    requires Simple(g, n)
    ensures Dot(LapPower(g, n, s, a + b), LapPower(g, n, i, 0)) == Dot(LapPower(g, n, s, a), LapPower(g, n, i, b))
    decreases b
  {
    if b > 0 {
      ShiftPower(g, n, s, i, a + 1, b - 1);
      SelfAdjoint(g, LapPower(g, n, s, a), LapPower(g, n, i, b - 1));
    }
  }

  lemma PowerSymmetric(g: Adjacency, n: nat, s: nat, i: nat, k: nat)
    requires Simple(g, n) && s < n && i < n
    ensures LapPower(g, n, s, k)[i] == LapPower(g, n, i, k)[s]
  {
    ShiftPower(g, n, s, i, 0, k);
    DotUnit(n, i, LapPower(g, n, s, k));
    DotUnit(n, s, LapPower(g, n, i, k));
  }

  /// With equal numbers of terms, amplitudes are symmetric in source and target.
  lemma SeriesSymmetric(g: Adjacency, n: nat, s: nat, i: nat, t: real, k: nat)
    requires Simple(g, n) && s < n && i < n
    ensures PartialSum(g, n, s, t, k, i) == PartialSum(g, n, i, t, k, s)
  {
    hide LapPower, Simple, Coeff;
    forall j: nat ensures At(LapPower(g, n, s, j), i) == At(LapPower(g, n, i, j), s) {
      PowerSymmetric(g, n, s, i, j);
    }
    SumEq(k + 1, Terms(g, n, s, CoeffRe(t), i), Terms(g, n, i, CoeffRe(t), s));
    SumEq(k + 1, Terms(g, n, s, CoeffIm(t), i), Terms(g, n, i, CoeffIm(t), s));
  }

  // ---------- locality ----------

  /// Nodes at most k hops from s.
  ghost function Ball(g: Adjacency, n: nat, s: nat, k: nat): set<nat> {
    if k == 0 then {s}
    else
      var b := Ball(g, n, s, k - 1);
      b + set i: nat, j: nat | i in b && j in Nbrs(g, i) :: j
  }

  lemma {:induction false} PowerLocal(g: Adjacency, n: nat, s: nat, k: nat, i: nat)
    requires Simple(g, n) && i !in Ball(g, n, s, k)
    ensures At(LapPower(g, n, s, k), i) == 0.0
  {
    if k > 0 {
      hide LapPower;
      var x := LapPower(g, n, s, k - 1);
      PowerLocal(g, n, s, k - 1, i);
      forall j: nat ensures Masked(Nbrs(g, i), x)(j) == 0.0 {
        if j in Nbrs(g, i) {
          assert i in Nbrs(g, j);
          PowerLocal(g, n, s, k - 1, j);
        }
      }
      SumZero(n, Masked(Nbrs(g, i), x));
    }
  }

  lemma {:induction false} BallGrows(g: Adjacency, n: nat, s: nat, j: nat, k: nat)
    requires j <= k
    ensures Ball(g, n, s, j) <= Ball(g, n, s, k)
    decreases k - j
  {
    if j < k {
      BallGrows(g, n, s, j + 1, k);
    }
  }

  /// The amplitude is exactly zero at every node more than k hops away, so across components it is
  /// zero for every cut of the series.
  lemma SeriesLocal(g: Adjacency, n: nat, s: nat, t: real, k: nat, i: nat)
    requires Simple(g, n) && i !in Ball(g, n, s, k)
    ensures PartialSum(g, n, s, t, k, i) == Complex(0.0, 0.0)
  {
    hide LapPower, Simple, Coeff;
    forall j: nat | j <= k ensures At(LapPower(g, n, s, j), i) == 0.0 {
      BallGrows(g, n, s, j, k);
      PowerLocal(g, n, s, j, i);
    }
    SumZero(k + 1, Terms(g, n, s, CoeffRe(t), i));
    SumZero(k + 1, Terms(g, n, s, CoeffIm(t), i));
  }

  // ---------- growth ----------

  function RealPower(b: real, k: nat): real {
    if k == 0 then 1.0 else b * RealPower(b, k - 1)
  }

  lemma OverBound(s: set<nat>, x: seq<real>, m: real)
    requires forall j :: j in s ==> j < |x|
    requires forall j :: 0 <= j < |x| ==> Abs(x[j]) <= m
    ensures Abs(Over(s, x)) <= |s| as real * m
  {
    var one := (j: nat) => if j in s then 1.0 else 0.0;
    var cap := (j: nat) => m * one(j);
    EdgeCount(s, |x|);
    SumScale(|x|, m, one, cap);
    SumAbs(|x|, Masked(s, x), cap);
  }

  lemma AbsBound(d: real, x: real, o: real, m: real, max: real)
    requires 0.0 <= d <= max && 0.0 <= m && Abs(x) <= m && Abs(o) <= d * m
    ensures Abs(d * x - o) <= 2.0 * max * m
  {
    var dx, dm, mm := d * x, d * m, max * m;
    assert dm <= mm && dx <= dm && -dx <= dm;
    assert Abs(dx - o) <= mm + mm;
  }

  /// Entries of L^k e_s are at most (2 maxDegree)^k in absolute value.
  lemma {:induction false} PowerGrowth(g: Adjacency, n: nat, s: nat, k: nat, i: nat, max: nat)
    requires Simple(g, n) && i < n
    requires forall j: nat :: j < n ==> |Nbrs(g, j)| <= max
    ensures Abs(LapPower(g, n, s, k)[i]) <= RealPower(2.0 * max as real, k)
    ensures RealPower(2.0 * max as real, k) >= 0.0
  {
    if k > 0 {
      var x, m := LapPower(g, n, s, k - 1), RealPower(2.0 * max as real, k - 1);
      forall j | 0 <= j < n ensures Abs(x[j]) <= m && m >= 0.0 {
        PowerGrowth(g, n, s, k - 1, j, max);
      }
      assert Abs(x[i]) <= m;
      LapGrowth(g, x, i, m, max);
    }
  }

  lemma LapGrowth(g: Adjacency, x: seq<real>, i: nat, m: real, max: nat)
    requires Simple(g, |x|) && i < |x| && |Nbrs(g, i)| <= max && m >= 0.0
    requires forall j :: 0 <= j < |x| ==> Abs(x[j]) <= m
    ensures Abs(Lap(g, x)[i]) <= 2.0 * max as real * m
    ensures 2.0 * max as real * m >= 0.0
  {
    assert forall j :: j in Nbrs(g, i) ==> j < |x|;
    OverBound(Nbrs(g, i), x, m);
    AbsBound(Degree(g, i), x[i], Over(Nbrs(g, i), x), m, max as real);
  }
}
