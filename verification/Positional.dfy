/**
 Positional notation in an arbitrary base, most significant digit first.
 Bytes (base 256), hexadecimal (base 16) and decimal (base 10) are its three uses.
 */
module Positional {

  ghost predicate AllBelow(ds: seq<nat>, base: nat) {
    forall i :: 0 <= i < |ds| ==> ds[i] < base
  }

  function Pow(base: nat, k: nat): nat {
    if k == 0 then 1 else Pow(base, k - 1) * base
  }

  /** The number a digit sequence stands for. */
  function Value(ds: seq<nat>, base: nat): nat {
    if |ds| == 0 then 0 else Value(ds[..|ds| - 1], base) * base + ds[|ds| - 1]
  }

  /** The digits of n with no leading zero; zero has no digits. */
  function Digits(n: nat, base: nat): (ds: seq<nat>)
    requires 2 <= base
    ensures AllBelow(ds, base)
    ensures 0 < n ==> 0 < |ds| && ds[0] != 0
    ensures n == 0 ==> ds == []
    decreases n
  {
    if n == 0 then [] else
      DivModBounds(n, base);
      Digits(n / base, base) + [n % base]
  }

  lemma DivModBounds(n: nat, base: nat)
    requires 2 <= base
    ensures n == n / base * base + n % base
    ensures 0 <= n % base < base
    ensures 0 < n ==> n / base < n
  {
    var q := n / base;
    assert n == q * base + n % base;
    if 0 < q {
      assert q * base >= q * 2;
    }
  }

  lemma MulMonotone(a: int, b: int, base: nat)
    requires a <= b
    ensures a * base <= b * base
    ensures a < b ==> a * base + base <= b * base
  {
    var d := b - a;
    assert (a + d) * base == a * base + d * base;
    assert 0 < d ==> base <= d * base;
  }

  /** Two quotient and remainder splits of one number are the same. */
  lemma SplitUnique(q: int, r: nat, q': int, r': nat, base: nat)
    requires r < base && r' < base
    requires q * base + r == q' * base + r'
    ensures q == q' && r == r'
  {
    if q < q' {
      MulMonotone(q, q', base);
    } else if q' < q {
      MulMonotone(q', q, base);
    }
  }

  lemma DivModUnique(q: nat, r: nat, base: nat)
    requires r < base
    ensures (q * base + r) / base == q
    ensures (q * base + r) % base == r
  {
    var n := q * base + r;
    assert n == n / base * base + n % base;
    SplitUnique(q, r, n / base, n % base, base);
  }

  /** Printing and then reading gives the number back. */
  lemma {:induction false} ValueOfDigits(n: nat, base: nat)
    requires 2 <= base
    ensures Value(Digits(n, base), base) == n
    decreases n
  {
    if n != 0 {
      DivModBounds(n, base);
      ValueOfDigits(n / base, base);
      assert Digits(n, base)[..|Digits(n, base)| - 1] == Digits(n / base, base);
    }
  }

  /** Reading and then printing gives the digits back when they have no leading zero. */
  lemma {:induction false} DigitsOfValue(ds: seq<nat>, base: nat)
    requires 2 <= base && AllBelow(ds, base)
    requires 0 < |ds| ==> ds[0] != 0
    ensures Digits(Value(ds, base), base) == ds
    decreases |ds|
  {
    if |ds| != 0 {
      var front, last := ds[..|ds| - 1], ds[|ds| - 1];
      DigitsOfValue(front, base);
      DivModUnique(Value(front, base), last, base);
      if |front| == 0 {
        assert ds == [last];
        assert Value(front, base) * base == 0;
      } else {
        assert Value(front, base) != 0;
        assert Value(front, base) * base > 0;
      }
    }
  }

  lemma {:induction false} ValueBound(ds: seq<nat>, base: nat)
    requires AllBelow(ds, base)
    ensures Value(ds, base) < Pow(base, |ds|)
    decreases |ds|
  {
    if |ds| != 0 {
      var front := ds[..|ds| - 1];
      ValueBound(front, base);
      MulMonotone(Value(front, base), Pow(base, |front|), base);
    }
  }

  lemma ShiftSum(a: nat, p: nat, b: nat, base: nat)
    ensures (a * p + b) * base == a * (p * base) + b * base
  {
    assert (a * p + b) * base == (a * p) * base + b * base;
    assert (a * p) * base == a * (p * base);
  }

  /** Reading a concatenation. */
  lemma {:induction false} ValueOfConcat(a: seq<nat>, b: seq<nat>, base: nat)
    ensures Value(a + b, base) == Value(a, base) * Pow(base, |b|) + Value(b, base)
    decreases |b|
  {
    if |b| == 0 {
      assert a + b == a;
    } else {
      var front := b[..|b| - 1];
      assert (a + b)[..|a + b| - 1] == a + front;
      ValueOfConcat(a, front, base);
      ShiftSum(Value(a, base), Pow(base, |front|), Value(front, base), base);
    }
  }

  /** Two digit sequences of one length stand for one number only if they are the same. */
  lemma {:induction false} ValueInjective(a: seq<nat>, b: seq<nat>, base: nat)
    requires |a| == |b| && AllBelow(a, base) && AllBelow(b, base)
    requires Value(a, base) == Value(b, base)
    ensures a == b
    decreases |a|
  {
    if |a| != 0 {
      var n := |a| - 1;
      DivModUnique(Value(a[..n], base), a[n], base);
      DivModUnique(Value(b[..n], base), b[n], base);
      ValueInjective(a[..n], b[..n], base);
      assert a == a[..n] + [a[n]] && b == b[..n] + [b[n]];
    }
  }

  /** A number fits in k digits exactly when it is below base^k. */
  lemma {:induction false} DigitCount(n: nat, base: nat, k: nat)
    requires 2 <= base
    ensures |Digits(n, base)| <= k <==> n < Pow(base, k)
    decreases k
  {
    if n == 0 {
      PowPositive(base, k);
    } else if k != 0 {
      DivModBounds(n, base);
      DigitCount(n / base, base, k - 1);
      QuotientBelow(n / base, n % base, Pow(base, k - 1), base);
    }
  }

  lemma QuotientBelow(q: nat, r: nat, p: nat, base: nat)
    requires r < base
    ensures q < p <==> q * base + r < p * base
  {
    if q < p {
      MulMonotone(q, p, base);
    } else {
      MulMonotone(p, q, base);
    }
  }

  lemma {:induction false} PowPositive(base: nat, k: nat)
    requires 0 < base
    ensures 0 < Pow(base, k)
  {
    if k != 0 {
      PowPositive(base, k - 1);
    }
  }

  lemma DigitCountMonotone(m: nat, n: nat, base: nat)
    requires 2 <= base && m <= n
    ensures |Digits(m, base)| <= |Digits(n, base)|
  {
    DigitCount(n, base, |Digits(n, base)|);
    DigitCount(m, base, |Digits(n, base)|);
  }

  lemma {:induction false} ValueOfZeros(k: nat, base: nat)
    ensures Value(seq(k, i => 0), base) == 0
  {
    if k != 0 {
      assert seq(k, i => 0)[..k - 1] == seq(k - 1, i => 0);
      ValueOfZeros(k - 1, base);
    }
  }
}
