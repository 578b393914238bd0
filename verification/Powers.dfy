/** Powers of two, bitwise or on natural numbers, and the few facts about products and remainders
    that limb arithmetic needs. */
module Powers {
  function Pow2(n: nat): (p: nat)
    ensures p >= 1
  {
    if n == 0 then 1 else 2 * Pow2(n - 1)
  }

  lemma Pow2Zero()
    ensures Pow2(0) == 1
  {
  }

  lemma Pow2Next(n: nat)
    ensures Pow2(n + 1) == 2 * Pow2(n)
  {
  }

  lemma {:induction false} Pow2Add(m: nat, n: nat)
    ensures Pow2(m + n) == Pow2(m) * Pow2(n)
  {
    if m > 0 {
      Pow2Add(m - 1, n);
      assert Pow2(m + n) == 2 * (Pow2(m - 1) * Pow2(n)) == (2 * Pow2(m - 1)) * Pow2(n);
    }
  }

  lemma {:induction false} Pow2Mono(m: nat, n: nat)
    requires m <= n
    ensures Pow2(m) <= Pow2(n)
  {
    if m < n { Pow2Mono(m, n - 1); }
  }

  lemma Pow2Of32()
    ensures Pow2(32) == 0x1_0000_0000
  {
    assert Pow2(8) == 256;
    Pow2Add(8, 8);
    Pow2Add(16, 16);
  }

  // ---------------------------------------------------------- products and remainders

  lemma Distribute(a: int, b: int, c: int)
    ensures (a + b) * c == a * c + b * c && (a - b) * c == a * c - b * c
  {
  }

  lemma Associate(a: int, b: int, c: int)
    ensures a * (b * c) == (a * b) * c
  {
  }

  lemma ProductMono(a: int, b: int, c: int)
    requires a <= b && c >= 0
    ensures a * c <= b * c
  {
  }

  lemma ProductBound(a: int, b: int, n: int)
    requires 0 <= a <= n && 0 <= b <= n
    ensures 0 <= a * b <= n * n
  {
    ProductMono(a, n, b);
    ProductMono(b, n, n);
  }

  /** The remainder, as a name the solver does not look into. */
  ghost function Mod(x: int, m: int): (r: int)
    requires m > 0
    ensures 0 <= r < m
  {
    x % m
  }

  /** The quotient, likewise. */
  ghost function Quot(x: int, m: int): (q: int)
    requires m > 0
    ensures x >= 0 ==> 0 <= q <= x
  {
    if x >= 0 then QuotientFits(x, m); x / m else x / m
  }

  /** A number is its remainder if it differs from it by a multiple. */
  lemma IsRemainder(v: int, q: int, m: int, x: int)
    requires 0 <= v < m && v + q * m == x
    ensures v == x % m == Mod(x, m) && q == x / m == Quot(x, m)
  {
    var d := x / m - q;
    assert x == (x / m) * m + x % m;
    assert d * m == v - x % m by { assert (x / m - q) * m == (x / m) * m - q * m; }
    if d >= 1 { ProductMono(1, d, m); }
    if d <= -1 { ProductMono(d, -1, m); }
  }

  lemma QuotientFits(a: int, m: int)
    requires a >= 0 && m >= 1
    ensures 0 <= a / m <= a
  {
    var q := a / m;
    assert a == q * m + a % m;
    if q < 0 { ProductMono(q, -1, m); }
    if q > 0 { ProductMono(1, m, q); }
  }

  lemma QuotBounds(x: int, m: int, low: int, high: int)
    requires m > 0 && low * m <= x < high * m
    ensures low <= Quot(x, m) < high
  {
    var q := x / m;
    assert x == q * m + x % m;
    if q < low {
      ProductMono(q + 1, low, m);
      Distribute(q, 1, m);
    }
    if q >= high { ProductMono(high, q, m); }
  }

  lemma ModShift(x: int, q: int, m: int)
    requires m > 0
    ensures Mod(x, m) == Mod(x - q * m, m)
  {
    assert x == (x / m) * m + x % m;
    assert (x / m) * m - q * m == (x / m - q) * m;
    IsRemainder(x % m, x / m - q, m, x - q * m);
  }

  lemma ModSum(x: int, y: int, m: int)
    requires m > 0
    ensures Mod(x + Mod(y, m), m) == Mod(x + y, m)
  {
    assert y == (y / m) * m + y % m;
    ModShift(x + y, y / m, m);
  }

  lemma RemainderOf(q: int, m: int)
    requires m > 0
    ensures (q * m) % m == 0
  {
    IsRemainder(0, q, m, q * m);
  }

  // -------------------------------------------------------------------- bitwise or

  /** Bitwise or. */
  function Or(a: nat, b: nat): nat {
    if a == 0 && b == 0 then 0
    else 2 * Or(a / 2, b / 2) + if a % 2 == 1 || b % 2 == 1 then 1 else 0
  }

  lemma {:induction false} OrZero(a: nat)
    ensures Or(a, 0) == a && Or(0, a) == a
  {
    if a > 0 { OrZero(a / 2); }
  }

  /** Or-ing bits below position k into a number that has none there is adding them. */
  lemma {:induction false} OrDisjoint(a: nat, b: nat, k: nat)
    requires a % Pow2(k) == 0 && b < Pow2(k)
    ensures Or(a, b) == a + b && Or(b, a) == a + b
  {
    if k == 0 {
      OrZero(a);
    } else {
      HalfMultiple(a, k);
      OrDisjoint(a / 2, b / 2, k - 1);
    }
  }

  lemma HalfMultiple(a: nat, k: nat)
    requires k > 0 && a % Pow2(k) == 0
    ensures a % 2 == 0 && (a / 2) % Pow2(k - 1) == 0
  {
    var p, q := Pow2(k - 1), a / Pow2(k);
    assert a == q * (2 * p) == 2 * (q * p);
    assert a / 2 == q * p;
    RemainderOf(q, p);
  }

  /** Bits below and above position k do not meet. */
  lemma {:induction false} OrSplit(a: nat, r: nat, b: nat, s: nat, k: nat)
    requires r < Pow2(k) && s < Pow2(k)
    ensures Or(a * Pow2(k) + r, b * Pow2(k) + s) == Or(a, b) * Pow2(k) + Or(r, s)
  {
    hide Or, Pow2;
    Pow2Zero();
    if k == 0 {
      assert a * 1 == a && b * 1 == b;
      OrZero(0);
    } else {
      Pow2Next(k - 1);
      var p := Pow2(k - 1);
      OrSplit(a, r / 2, b, s / 2, k - 1);
      Twice(a, p);
      Twice(b, p);
      Twice(Or(a, b), p);
      OrSplitStep(a * p, r, b * p, s, Or(a, b) * p);
    }
  }

  lemma OrSplitStep(u: nat, r: nat, v: nat, s: nat, w: nat)
    requires Or(u + r / 2, v + s / 2) == w + Or(r / 2, s / 2)
    ensures Or(2 * u + r, 2 * v + s) == 2 * w + Or(r, s)
  {
    hide Or;
    OrHalves(u, r, v, s);
    OrHalves(0, r, 0, s);
  }

  lemma Twice(a: nat, p: nat)
    ensures a * (2 * p) == 2 * (a * p) && a * p >= 0
  {
  }

  lemma OrHalves(u: nat, r: nat, v: nat, s: nat)
    ensures Or(2 * u + r, 2 * v + s) == 2 * Or(u + r / 2, v + s / 2) + if r % 2 == 1 || s % 2 == 1 then 1 else 0
  {
    assert (2 * u + r) / 2 == u + r / 2 && (2 * v + s) / 2 == v + s / 2;
    if 2 * u + r == 0 && 2 * v + s == 0 {
      assert Or(u + r / 2, v + s / 2) == 0;
    }
  }

  // ------------------------------------------------------------ bitwise exclusive or

  /** Bitwise exclusive or. */
  function Xor(a: nat, b: nat): nat {
    if a == 0 && b == 0 then 0
    else 2 * Xor(a / 2, b / 2) + if a % 2 != b % 2 then 1 else 0
  }

  lemma {:induction false} XorZero(a: nat)
    ensures Xor(a, 0) == a && Xor(0, a) == a
  {
    if a > 0 { XorZero(a / 2); }
  }

  lemma {:induction false} XorSelf(a: nat)
    ensures Xor(a, a) == 0
  {
    if a > 0 { XorSelf(a / 2); }
  }

  lemma {:induction false} XorSame(a: nat, b: nat)
    requires Xor(a, b) == 0
    ensures a == b
  {
    if a > 0 || b > 0 { XorSame(a / 2, b / 2); }
  }

  lemma XorHalf(a: nat, b: nat)
    ensures Xor(a, b) / 2 == Xor(a / 2, b / 2) && Xor(a, b) % 2 == if a % 2 != b % 2 then 1 else 0
  {
  }

  lemma {:induction false} XorRegroup(a: nat, b: nat, c: nat, d: nat)
    ensures Xor(Xor(a, b), Xor(c, d)) == Xor(Xor(a, c), Xor(b, d))
    decreases a + b + c + d
  {
    if a + b + c + d > 0 {
      XorRegroup(a / 2, b / 2, c / 2, d / 2);
      XorHalf(a, b);
      XorHalf(c, d);
      XorHalf(a, c);
      XorHalf(b, d);
      XorHalf(Xor(a, b), Xor(c, d));
      XorHalf(Xor(a, c), Xor(b, d));
    }
  }

  lemma XorAssoc(a: nat, b: nat, c: nat)
    ensures Xor(Xor(a, b), c) == Xor(a, Xor(b, c))
  {
    XorZero(a);
    XorZero(c);
    XorRegroup(a, b, 0, c);
  }

  /** Taking the same thing away twice. */
  lemma XorUndo(a: nat, b: nat)
    ensures Xor(a, Xor(a, b)) == b && Xor(Xor(b, a), a) == b
  {
    XorZero(a);
    XorZero(b);
    XorSelf(a);
    XorRegroup(a, 0, a, b);
    XorRegroup(b, a, 0, a);
  }

  /** Bits below and above position k do not meet. */
  lemma {:induction false} XorSplit(a: nat, r: nat, b: nat, s: nat, k: nat)
    requires r < Pow2(k) && s < Pow2(k)
    ensures Xor(a * Pow2(k) + r, b * Pow2(k) + s) == Xor(a, b) * Pow2(k) + Xor(r, s)
    ensures Xor(r, s) < Pow2(k)
  {
    hide Xor, Pow2;
    Pow2Zero();
    if k == 0 {
      assert a * 1 == a && b * 1 == b;
      XorZero(0);
    } else {
      Pow2Next(k - 1);
      var p := Pow2(k - 1);
      XorSplit(a, r / 2, b, s / 2, k - 1);
      Twice(a, p);
      Twice(b, p);
      Twice(Xor(a, b), p);
      XorSplitStep(a * p, r, b * p, s, Xor(a, b) * p);
      XorHalf(r, s);
    }
  }

  lemma XorSplitStep(u: nat, r: nat, v: nat, s: nat, w: nat)
    requires Xor(u + r / 2, v + s / 2) == w + Xor(r / 2, s / 2)
    ensures Xor(2 * u + r, 2 * v + s) == 2 * w + Xor(r, s)
  {
    hide Xor;
    XorHalf(2 * u + r, 2 * v + s);
    XorHalf(r, s);
    assert (2 * u + r) / 2 == u + r / 2 && (2 * v + s) / 2 == v + s / 2;
  }
}
