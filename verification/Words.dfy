/** Powers, and Go's bitwise operators on unsigned integers, given by their binary digits. */
module Words {
  function Pow(b: nat, e: nat): (p: nat)
    ensures b > 0 ==> p > 0
  {
    if e == 0 then 1 else b * Pow(b, e - 1)
  }

  lemma MulAssociative(a: nat, b: nat, c: nat)
    ensures a * (b * c) == (a * b) * c
  {
  }

  lemma {:induction false} PowAdd(b: nat, m: nat, n: nat)
    ensures Pow(b, m + n) == Pow(b, m) * Pow(b, n)
  {
    if m > 0 {
      PowAdd(b, m - 1, n);
      MulAssociative(b, Pow(b, m - 1), Pow(b, n));
    }
  }

  lemma MulNonNegative(a: nat, b: nat)
    ensures a * b >= 0
  {
  }

  lemma MulStep(a: int, b: int, d: int)
    requires d > 0
    ensures a < b ==> a * d + d <= b * d
  {
    if a < b {
      var e := b - a - 1;
      MulNonNegative(e, d);
      assert b * d == a * d + d + e * d;
    }
  }

  lemma DivModUnique(x: int, d: int, q: int, r: int)
    requires 0 <= r < d && x == q * d + r
    ensures x / d == q && x % d == r
  {
    MulStep(x / d, q, d);
    MulStep(q, x / d, d);
  }

  lemma SmallMod(a: nat, b: nat)
    requires a < b
    ensures a % b == a && a / b == 0
  {
  }

  /** Dividing in two steps is dividing once by the product. */
  lemma TwoSteps(x: nat, a: nat, b: nat, q: nat, r: nat, q': nat, r': nat)
    requires x == q * a + r && q == q' * b + r' && r < a && r' < b
    ensures 0 <= r + a * r' < a * b
    ensures x == q' * (a * b) + (r + a * r')
  {
    MulStep(r', b, a);
    MulNonNegative(a, r');
    calc {
      q * a;
      (q' * b + r') * a;
      (q' * b) * a + r' * a;
      { MulAssociative(q', b, a); }
      q' * (b * a) + a * r';
    }
  }

  lemma DivDiv(x: nat, a: nat, b: nat)
    requires a > 0 && b > 0
    ensures a * b > 0 && x / (a * b) == x / a / b
    ensures x % (a * b) == x % a + a * (x / a % b)
  {
    TwoSteps(x, a, b, x / a, x % a, x / a / b, x / a % b);
    DivModUnique(x, a * b, x / a / b, x % a + a * (x / a % b));
  }

  // ---- the operators &, | and ^, one binary digit at a time ----

  function And(a: nat, b: nat): nat {
    if a == 0 || b == 0 then 0 else (a % 2) * (b % 2) + 2 * And(a / 2, b / 2)
  }

  function Or(a: nat, b: nat): nat {
    if a == 0 then b else if b == 0 then a
    else (if a % 2 == 1 || b % 2 == 1 then 1 else 0) + 2 * Or(a / 2, b / 2)
  }

  function Xor(a: nat, b: nat): nat {
    if a == 0 then b else if b == 0 then a
    else (if a % 2 != b % 2 then 1 else 0) + 2 * Xor(a / 2, b / 2)
  }

  lemma AndHalf(a: nat, b: nat)
    ensures And(a, b) == (a % 2) * (b % 2) + 2 * And(a / 2, b / 2)
  {
  }

  lemma OrHalf(a: nat, b: nat)
    ensures Or(a, b) == (if a % 2 == 1 || b % 2 == 1 then 1 else 0) + 2 * Or(a / 2, b / 2)
  {
  }

  lemma MulTwo(a: nat, p: nat)
    ensures a * (2 * p) == 2 * (a * p)
  {
  }

  lemma HalfSplit(x: nat, hi: nat, lo: nat, p: nat)
    requires x == hi * (2 * p) + lo
    ensures x % 2 == lo % 2
    ensures x / 2 == hi * p + lo / 2
  {
    MulTwo(hi, p);
  }

  /** Both operators act on the high and the low digits separately. */
  lemma {:induction false} AndSplit(k: nat, x: nat, y: nat, a1: nat, a0: nat, b1: nat, b0: nat)
    requires x == a1 * Pow(2, k) + a0 && y == b1 * Pow(2, k) + b0
    requires a0 < Pow(2, k) && b0 < Pow(2, k)
    ensures And(x, y) == And(a1, b1) * Pow(2, k) + And(a0, b0)
  {
    if k > 0 {
      HalfSplit(x, a1, a0, Pow(2, k - 1));
      HalfSplit(y, b1, b0, Pow(2, k - 1));
      AndSplit(k - 1, x / 2, y / 2, a1, a0 / 2, b1, b0 / 2);
      AndHalf(x, y);
      AndHalf(a0, b0);
      MulTwo(And(a1, b1), Pow(2, k - 1));
    }
  }

  lemma {:induction false} OrSplit(k: nat, x: nat, y: nat, a1: nat, a0: nat, b1: nat, b0: nat)
    requires x == a1 * Pow(2, k) + a0 && y == b1 * Pow(2, k) + b0
    requires a0 < Pow(2, k) && b0 < Pow(2, k)
    ensures Or(x, y) == Or(a1, b1) * Pow(2, k) + Or(a0, b0)
  {
    if k > 0 {
      HalfSplit(x, a1, a0, Pow(2, k - 1));
      HalfSplit(y, b1, b0, Pow(2, k - 1));
      OrSplit(k - 1, x / 2, y / 2, a1, a0 / 2, b1, b0 / 2);
      OrHalf(x, y);
      OrHalf(a0, b0);
      MulTwo(Or(a1, b1), Pow(2, k - 1));
    }
  }

  lemma AndOnes(a: nat, p: nat)
    requires p > 0
    ensures And(a, 2 * p - 1) == a % 2 + 2 * And(a / 2, p - 1)
    ensures And(2 * p - 1, a) == a % 2 + 2 * And(p - 1, a / 2)
  {
    hide Pow;
    AndHalf(a, 2 * p - 1);
    AndHalf(2 * p - 1, a);
    assert (2 * p - 1) % 2 == 1 && (2 * p - 1) / 2 == p - 1;
  }

  /** Masking with k ones keeps the k low digits. */
  lemma {:induction false} AndMask(a: nat, k: nat)
    ensures And(a, Pow(2, k) - 1) == a % Pow(2, k)
    ensures And(Pow(2, k) - 1, a) == a % Pow(2, k)
  {
    if k > 0 {
      AndMask(a / 2, k - 1);
      AndMaskStep(a, Pow(2, k - 1));
    } else {
      assert a % 1 == 0;
    }
  }

  lemma AndMaskStep(a: nat, p: nat)
    requires p > 0 && And(a / 2, p - 1) == a / 2 % p && And(p - 1, a / 2) == a / 2 % p
    ensures And(a, 2 * p - 1) == a % (2 * p)
    ensures And(2 * p - 1, a) == a % (2 * p)
  {
    hide And;
    DivDiv(a, 2, p);
    AndOnes(a, p);
  }

  lemma {:induction false} AndAtMost(a: nat, b: nat)
    ensures And(a, b) <= b
  {
    if a > 0 && b > 0 {
      AndAtMost(a / 2, b / 2);
    }
  }

  lemma {:induction false} OrBound(a: nat, b: nat, k: nat)
    requires a < Pow(2, k) && b < Pow(2, k)
    ensures Or(a, b) < Pow(2, k)
  {
    if k > 0 && a > 0 && b > 0 {
      OrBound(a / 2, b / 2, k - 1);
    }
  }

  lemma AndZero(a: nat)
    ensures And(a, 0) == 0
  {
  }

  lemma OrZero(a: nat)
    ensures Or(a, 0) == a && Or(0, a) == a
  {
  }

  lemma {:induction false} XorBound(a: nat, b: nat, k: nat)
    requires a < Pow(2, k) && b < Pow(2, k)
    ensures Xor(a, b) < Pow(2, k)
  {
    if k > 0 && a > 0 && b > 0 {
      XorBound(a / 2, b / 2, k - 1);
    }
  }

  lemma {:induction false} XorCancels(a: nat, b: nat)
    ensures Xor(Xor(a, b), b) == a
    decreases a + b
  {
    hide Xor;
    XorZero(a);
    XorZero(b);
    if a == 0 {
      XorSelf(b);
    } else if b != 0 {
      XorCancels(a / 2, b / 2);
      XorHalf(Xor(a, b), b);
      XorHalf(a, b);
    }
  }

  lemma XorZero(a: nat)
    ensures Xor(a, 0) == a && Xor(0, a) == a
  {
  }

  lemma XorHalf(a: nat, b: nat)
    ensures Xor(a, b) == (if a % 2 != b % 2 then 1 else 0) + 2 * Xor(a / 2, b / 2)
  {
  }

  lemma {:induction false} XorSelf(a: nat)
    ensures Xor(a, a) == 0
  {
    if a != 0 {
      XorSelf(a / 2);
    }
  }
}
