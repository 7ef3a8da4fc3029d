/** The C operator `|` on unsigned numbers of any width. */
module Bits {

  function Pow2(k: nat): (p: nat)
    ensures p > 0
  {
    if k == 0 then 1 else 2 * Pow2(k - 1)
  }

  function BitOr(a: nat, b: nat): (r: nat)
    ensures r <= a + b && r >= a && r >= b
    decreases a + b
  {
    if a == 0 && b == 0 then 0
    else (if a % 2 == 1 || b % 2 == 1 then 1 else 0) + 2 * BitOr(a / 2, b / 2)
  }

  lemma {:induction false} OrZero(a: nat)
    ensures BitOr(a, 0) == a
  {
    if a > 0 { OrZero(a / 2); }
  }

  /** The lowest `k` bits of a number, and the bits above them. */
  function Low(a: nat, k: nat): (r: nat)
    ensures r < Pow2(k)
  {
    a % Pow2(k)
  }

  function High(a: nat, k: nat): nat
  {
    Divided(a, Pow2(k));
    a / Pow2(k)
  }

  lemma HalfBelow(a: nat, k: nat)
    requires k > 0
    ensures a < Pow2(k) <==> a / 2 < Pow2(k - 1)
    ensures Low(a, k) == a % 2 + 2 * Low(a / 2, k - 1) && High(a, k) == High(a / 2, k - 1)
  {
    var p, h := Pow2(k - 1), a / 2;
    Divided(h, p);
    assert a == (2 * p) * (h / p) + (a % 2 + 2 * (h % p)) by {
      Doubled(p, h / p);
    }
    Unique(a, 2 * p, h / p, a % 2 + 2 * (h % p));
  }

  lemma Divided(n: nat, d: nat)
    requires d > 0
    ensures n == d * (n / d) + n % d && 0 <= n % d < d && n / d >= 0
  {
  }

  lemma Smaller(n: nat, d: nat)
    requires d > 1 && n > 0
    ensures n / d < n
  {
    Divided(n, d);
    AtLeastTwice(d, n / d);
  }

  lemma AtLeastTwice(d: nat, q: nat)
    requires d >= 2
    ensures d * q >= 2 * q
  {
  }

  lemma Doubled(p: nat, q: nat)
    ensures (2 * p) * q == 2 * (p * q)
  {
  }

  lemma Unique(n: nat, d: nat, q: nat, r: nat)
    requires d > 0 && n == d * q + r && r < d
    ensures q == n / d && r == n % d
  {
    Divided(n, d);
    var q', r' := n / d, n % d;
    assert d * (q - q') == r' - r by { assert d * (q - q') == d * q - d * q'; }
    if q > q' {
      Bigger(d, q - q');
    } else if q < q' {
      assert d * (q' - q) == r - r' by { assert d * (q' - q) == d * q' - d * q; }
      Bigger(d, q' - q);
    }
  }

  lemma Bigger(d: nat, q: nat)
    requires q >= 1
    ensures d * q >= d
  {
  }

  lemma {:induction false} OrBelow(a: nat, b: nat, k: nat)
    requires a < Pow2(k) && b < Pow2(k)
    ensures BitOr(a, b) < Pow2(k)
    decreases k
  {
    if k > 0 {
      HalfBelow(a, k);
      HalfBelow(b, k);
      OrBelow(a / 2, b / 2, k - 1);
    }
  }

  /** The low `k` bits and the bits above them do not mix. */
  lemma {:induction false} OrSplits(a: nat, b: nat, k: nat)
    ensures Low(BitOr(a, b), k) == BitOr(Low(a, k), Low(b, k))
    ensures High(BitOr(a, b), k) == BitOr(High(a, k), High(b, k))
    decreases k
  {
    hide Low, High, Pow2;
    if k == 0 {
      NoBits(a);
      NoBits(b);
      NoBits(BitOr(a, b));
      OrZero(0);
    } else {
      hide BitOr;
      OrSplits(a / 2, b / 2, k - 1);
      OrHalves(a, b);
      HalfBelow(a, k);
      HalfBelow(b, k);
      HalfBelow(BitOr(a, b), k);
      OrStep(a % 2, b % 2, Low(a / 2, k - 1), Low(b / 2, k - 1));
    }
  }

  lemma NoBits(a: nat)
    ensures Low(a, 0) == 0 && High(a, 0) == a
  {
  }

  lemma OrHalves(a: nat, b: nat)
    ensures BitOr(a, b) / 2 == BitOr(a / 2, b / 2)
    ensures BitOr(a, b) % 2 == if a % 2 == 1 || b % 2 == 1 then 1 else 0
  {
  }

  lemma OrStep(a0: nat, b0: nat, a: nat, b: nat)
    requires a0 < 2 && b0 < 2
    ensures BitOr(a0 + 2 * a, b0 + 2 * b) == (if a0 == 1 || b0 == 1 then 1 else 0) + 2 * BitOr(a, b)
  {
    assert (a0 + 2 * a) / 2 == a && (b0 + 2 * b) / 2 == b;
  }

  /** Numbers without a common bit, split at bit `k`: the operator adds. */
  lemma OrAdds(high: nat, low: nat, k: nat)
    requires Low(high, k) == 0 && low < Pow2(k)
    ensures BitOr(high, low) == high + low
  {
    var p, r := Pow2(k), BitOr(high, low);
    OrSplits(high, low, k);
    OrZero(High(high, k));
    OrComm(0, low);
    OrZero(low);
    Divided(high, p);
    Divided(r, p);
    Unique(low, p, 0, low);
  }

  lemma {:induction false} OrComm(a: nat, b: nat)
    ensures BitOr(a, b) == BitOr(b, a)
    decreases a + b
  {
    if a > 0 || b > 0 { OrComm(a / 2, b / 2); }
  }

  lemma {:induction false} OrAssoc(a: nat, b: nat, c: nat)
    ensures BitOr(BitOr(a, b), c) == BitOr(a, BitOr(b, c))
    decreases a + b + c
  {
    if a == 0 {
      OrComm(0, b);
      OrZero(b);
      OrComm(0, BitOr(b, c));
      OrZero(BitOr(b, c));
    } else {
      OrAssoc(a / 2, b / 2, c / 2);
      OrHalves(a, b);
      OrHalves(b, c);
      OrHalves(BitOr(a, b), c);
      OrHalves(a, BitOr(b, c));
      hide BitOr;
      Parts(BitOr(BitOr(a, b), c));
      Parts(BitOr(a, BitOr(b, c)));
    }
  }

  lemma Parts(n: nat)
    ensures n == n % 2 + 2 * (n / 2)
  {
  }

  /** Bit `k` of the result is set exactly if it is set in one of the operands. */
  lemma {:induction false} OrBits(a: nat, b: nat, k: nat)
    ensures Bit(BitOr(a, b), k) <==> Bit(a, k) || Bit(b, k)
    decreases k
  {
    OrHalves(a, b);
    hide BitOr;
    if k > 0 {
      OrBits(a / 2, b / 2, k - 1);
    }
  }

  predicate Bit(a: nat, k: nat)
  {
    if k == 0 then a % 2 == 1 else Bit(a / 2, k - 1)
  }
}
