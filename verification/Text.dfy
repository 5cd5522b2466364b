/// Numbers as text, as template strings render them.
module Text {
  function Decimal(n: nat): (s: string)
    ensures s != ""
    decreases n
  {
    var digit := ('0' as int + n % 10) as char;
    if n < 10 then [digit] else Decimal(n / 10) + [digit]
  }

  function Integer(i: int): string {
    if i < 0 then "-" + Decimal(-i) else Decimal(i)
  }

  lemma {:induction false} DecimalInjective(a: nat, b: nat)
    requires Decimal(a) == Decimal(b)
    ensures a == b
    decreases a
  {
    var s := Decimal(a);
    assert s[|s| - 1] as int == '0' as int + a % 10 == '0' as int + b % 10;
    assert (a >= 10 <==> |s| > 1) && (b >= 10 <==> |s| > 1);
    if a >= 10 {
      assert s[..|s| - 1] == Decimal(a / 10) == Decimal(b / 10);
      DecimalInjective(a / 10, b / 10);
    }
  }

  lemma {:induction false} DecimalIsDigits(n: nat)
    ensures forall c :: c in Decimal(n) ==> '0' <= c <= '9'
    decreases n
  {
    if n >= 10 {
      DecimalIsDigits(n / 10);
    }
  }

  /// What a numeral means: its digits as powers of ten.
  function Value(s: string): int {
    if s == "" then 0 else 10 * Value(s[..|s| - 1]) + (s[|s| - 1] as int - 48)
  }

  /// The text of a number means this number and has no leading zero.
  lemma {:induction false} DecimalValue(n: nat)
    ensures Value(Decimal(n)) == n && (Decimal(n)[0] == '0' ==> n == 0)
    decreases n
  {
    var s := Decimal(n);
    if n < 10 {
      assert s[..0] == "";
    } else {
      DecimalValue(n / 10);
      assert s[..|s| - 1] == Decimal(n / 10);
    }
  }

  lemma IntegerHasNoColon(i: int)
    ensures ':' !in Integer(i)
  {
    DecimalIsDigits(if i < 0 then -i else i);
  }

  lemma IntegerInjective(a: int, b: int)
    requires Integer(a) == Integer(b)
    ensures a == b
  {
    var m, n := if a < 0 then -a else a, if b < 0 then -b else b;
    DecimalIsDigits(m);
    DecimalIsDigits(n);
    assert Decimal(m)[0] in Decimal(m) && Decimal(n)[0] in Decimal(n);
    if a < 0 && b < 0 {
      assert Integer(a)[1..] == Decimal(-a) && Integer(b)[1..] == Decimal(-b);
      DecimalInjective(-a, -b);
    } else if a >= 0 && b >= 0 {
      DecimalInjective(a, b);
    }
  }

  // ---------- texts joined by a separator ----------

  lemma NoneAfter(sep: char, a: string, b: string, k: nat)
    requires sep !in b && |a| < k < |a| + 1 + |b|
    ensures (a + [sep] + b)[k] != sep
  {
  }

  lemma NoneBefore(sep: char, a: string, b: string, k: nat)
    requires sep !in a && k < |a|
    ensures (a + [sep] + b)[k] != sep
  {
  }

  lemma SameParts(sep: char, a: string, b: string, c: string, d: string)
    requires |a| == |c| && a + [sep] + b == c + [sep] + d
    ensures a == c && b == d
  {
    var whole := a + [sep] + b;
    assert a == whole[..|a|] && c == whole[..|a|] && b == whole[|a| + 1..] && d == whole[|a| + 1..];
  }

  /// The part before the first separator and the part after it are determined.
  lemma SplitAtFirst(sep: char, a: string, b: string, c: string, d: string)
    requires sep !in a && sep !in c && a + [sep] + b == c + [sep] + d
    ensures a == c && b == d
  {
    if |a| < |c| {
      NoneBefore(sep, c, d, |a|);
    } else if |c| < |a| {
      NoneBefore(sep, a, b, |c|);
    }
    SameParts(sep, a, b, c, d);
  }

  /// The same for the last separator.
  lemma SplitAtLast(sep: char, a: string, b: string, c: string, d: string)
    requires sep !in b && sep !in d && a + [sep] + b == c + [sep] + d
    ensures a == c && b == d
  {
    if |a| < |c| {
      NoneAfter(sep, a, b, |c|);
    } else if |c| < |a| {
      NoneAfter(sep, c, d, |a|);
    }
    SameParts(sep, a, b, c, d);
  }
}
