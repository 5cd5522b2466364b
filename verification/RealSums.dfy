/// Finite sums of reals, and the handful of laws the graph results need.
module RealSums {
  function Sum(n: nat, f: nat -> real): real {
    if n == 0 then 0.0 else Sum(n - 1, f) + f(n - 1)
  }

  lemma {:induction false} SumEq(n: nat, f: nat -> real, g: nat -> real)
    requires forall i: nat :: i < n ==> f(i) == g(i)
    ensures Sum(n, f) == Sum(n, g)
  {
    if n > 0 {
      SumEq(n - 1, f, g);
    }
  }

  lemma {:induction false} SumZero(n: nat, f: nat -> real)
    requires forall i: nat :: i < n ==> f(i) == 0.0
    ensures Sum(n, f) == 0.0
  {
    if n > 0 {
      SumZero(n - 1, f);
    }
  }

  lemma {:induction false} SumOne(n: nat, s: nat, f: nat -> real)
    requires s < n && forall i: nat :: i < n && i != s ==> f(i) == 0.0
    ensures Sum(n, f) == f(s)
  {
    if s == n - 1 {
      SumZero(n - 1, f);
    } else {
      SumOne(n - 1, s, f);
    }
  }

  /// Linear combinations pass through sums.
  lemma {:induction false} SumLinear(n: nat, a: real, f: nat -> real, b: real, g: nat -> real, h: nat -> real)
    requires forall i: nat :: i < n ==> h(i) == a * f(i) + b * g(i)
    ensures Sum(n, h) == a * Sum(n, f) + b * Sum(n, g)
  {
    if n > 0 {
      SumLinear(n - 1, a, f, b, g, h);
      Distribute(a, Sum(n - 1, f), f(n - 1), b, Sum(n - 1, g), g(n - 1));
      assert h(n - 1) == a * f(n - 1) + b * g(n - 1);
    }
  }

  lemma Distribute(a: real, x: real, y: real, b: real, u: real, v: real)
    ensures a * (x + y) + b * (u + v) == (a * x + b * u) + (a * y + b * v)
  {
  }

  lemma {:induction false} SumScale(n: nat, a: real, f: nat -> real, h: nat -> real)
    requires forall i: nat :: i < n ==> h(i) == a * f(i)
    ensures Sum(n, h) == a * Sum(n, f)
  {
    if n > 0 {
      SumScale(n - 1, a, f, h);
    }
  }

  lemma {:induction false} SumAdd(n: nat, f: nat -> real, g: nat -> real, h: nat -> real)
    requires forall i: nat :: i < n ==> h(i) == f(i) + g(i)
    ensures Sum(n, h) == Sum(n, f) + Sum(n, g)
  {
    if n > 0 {
      SumAdd(n - 1, f, g, h);
    }
  }

  /// The inner sums of a double sum, as a function of the outer index.
  function Inner(k: nat, f: (nat, nat) -> real): nat -> real {
    (i: nat) => Sum(k, (j: nat) => f(i, j))
  }

  function Flip(f: (nat, nat) -> real): (nat, nat) -> real {
    (i: nat, j: nat) => f(j, i)
  }

  lemma {:induction false} SumSwap(n: nat, k: nat, f: (nat, nat) -> real)
    ensures Sum(n, Inner(k, f)) == Sum(k, Inner(n, Flip(f)))
  {
    if n == 0 {
      SumZero(k, Inner(0, Flip(f)));
    } else {
      SumSwap(n - 1, k, f);
      SumAdd(k, Inner(n - 1, Flip(f)), (j: nat) => f(n - 1, j), Inner(n, Flip(f)));
    }
  }

  lemma {:induction false} SumNonNegative(n: nat, f: nat -> real)
    requires forall i: nat :: i < n ==> f(i) >= 0.0
    ensures Sum(n, f) >= 0.0
  {
    if n > 0 {
      SumNonNegative(n - 1, f);
    }
  }

  function Abs(x: real): real {
    if x < 0.0 then -x else x
  }

  lemma {:induction false} SumAbs(n: nat, f: nat -> real, g: nat -> real)
    requires forall i: nat :: i < n ==> Abs(f(i)) <= g(i)
    ensures Abs(Sum(n, f)) <= Sum(n, g)
  {
    if n > 0 {
      SumAbs(n - 1, f, g);
    }
  }
}
