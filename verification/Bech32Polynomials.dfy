/** What the Bech32 checksum means: PolyMod (src/bech32.cpp:130-216) is the remainder of a polynomial
    over GF(32) modulo the generator g(x).

    GF(32) is the field of the 5-bit values as polynomials in `a` over GF(2) modulo a^5 + a^3 + 1.
    A polynomial over it is the sequence of its coefficients, the highest power first. */
module Bech32Polynomials {
  import opened Powers
  import opened Bech32

  // -------------------------------------------------------------------------- GF(32)

  lemma SymbolsXor(a: Symbol, b: Symbol)
    ensures Xor(a, b) < 32
  {
    hide Xor, Pow2;
    Constants();
    XorSplit(0, a, 0, b, 5);
  }

  function Plus(a: Symbol, b: Symbol): Symbol {
    SymbolsXor(a, b);
    Xor(a, b)
  }

  /** Multiplication by a, where a^5 is a^3 + 1. */
  function TimesA(b: Symbol): Symbol {
    if b < 16 then 2 * b else Plus(2 * b - 32, 9)
  }

  /** The product: b times each power of a that c has, added up. */
  function Times(c: Symbol, b: Symbol): Symbol
    decreases c
  {
    if c == 0 then 0 else Plus(if c % 2 == 1 then b else 0, Times(c / 2, TimesA(b)))
  }

  lemma PlusZero(a: Symbol)
    ensures Plus(a, 0) == a && Plus(0, a) == a && Plus(a, a) == 0
  {
    XorZero(a);
    XorSelf(a);
  }

  lemma PlusRegroup(a: Symbol, b: Symbol, c: Symbol, d: Symbol)
    ensures Plus(Plus(a, b), Plus(c, d)) == Plus(Plus(a, c), Plus(b, d))
  {
    hide Xor;
    XorRegroup(a, b, c, d);
  }

  lemma {:induction false} TimesPlus(c: Symbol, d: Symbol, b: Symbol)
    ensures Times(Plus(c, d), b) == Plus(Times(c, b), Times(d, b))
    decreases c + d
  {
    hide Xor;
    XorHalf(c, d);
    PlusZero(b);
    PlusZero(0);
    PlusZero(Times(c, b));
    PlusZero(Times(d, b));
    if c > 0 && d > 0 {
      TimesPlus(c / 2, d / 2, TimesA(b));
      PlusRegroup(if c % 2 == 1 then b else 0, Times(c / 2, TimesA(b)), if d % 2 == 1 then b else 0, Times(d / 2, TimesA(b)));
      PlusZero(Plus(Times(c / 2, TimesA(b)), Times(d / 2, TimesA(b))));
      if Plus(c, d) == 0 { PlusZero(Times(c, b)); XorSame(c, d); }
    } else {
      PlusZero(c);
      PlusZero(d);
    }
  }

  /** The value of a bit of c0, given what it stands for. */
  function IfBit(c: Symbol, weight: nat, b: Symbol): Symbol
    requires weight > 0
  {
    if (c / weight) % 2 == 1 then b else 0
  }

  lemma TimesBits(c: Symbol, b: Symbol)
    ensures var b1 := TimesA(b); var b2 := TimesA(b1); var b3 := TimesA(b2); var b4 := TimesA(b3);
            Times(c, b) == Plus(Plus(Plus(Plus(IfBit(c, 1, b), IfBit(c, 2, b1)), IfBit(c, 4, b2)), IfBit(c, 8, b3)), IfBit(c, 16, b4))
  {
    hide Plus, TimesA, Times;
    Halves(c);
    var b1 := TimesA(b);
    var b2 := TimesA(b1);
    var b3 := TimesA(b2);
    var b4 := TimesA(b3);
    var t0, t1, t2, t3, t4 := IfBit(c, 1, b), IfBit(c, 2, b1), IfBit(c, 4, b2), IfBit(c, 8, b3), IfBit(c, 16, b4);
    TimesNext(c, b);
    TimesNext(c / 2, b1);
    TimesNext(c / 4, b2);
    TimesNext(c / 8, b3);
    TimesNext(c / 16, b4);
    TimesNone(TimesA(b4));
    PlusZero(t4);
    PlusAssoc(t2, t3, t4);
    PlusAssoc(t1, t2, Plus(t3, t4));
    PlusAssoc(Plus(t1, t2), t3, t4);
    PlusAssoc(t0, Plus(t1, t2), Plus(t3, t4));
    PlusAssoc(t0, t1, t2);
    PlusAssoc(Plus(Plus(t0, t1), t2), t3, t4);
  }

  lemma Halves(c: Symbol)
    ensures c / 2 / 2 == c / 4 && c / 4 / 2 == c / 8 && c / 8 / 2 == c / 16 && c / 16 / 2 == 0
  {
  }

  lemma TimesNext(c: Symbol, b: Symbol)
    ensures Times(c, b) == Plus(if c % 2 == 1 then b else 0, Times(c / 2, TimesA(b)))
  {
    hide TimesA, Plus;
    PlusZero(0);
  }

  lemma PlusAssoc(a: Symbol, b: Symbol, c: Symbol)
    ensures Plus(Plus(a, b), c) == Plus(a, Plus(b, c))
  {
    hide Xor;
    XorAssoc(a, b, c);
  }

  lemma XorApart(low: nat, high: nat, k: nat)
    requires low < Pow2(k)
    ensures Xor(low, high * Pow2(k)) == low + high * Pow2(k)
  {
    hide Xor, Pow2;
    XorSplit(0, low, high, 0, k);
    XorZero(high);
    XorZero(low);
  }

  lemma PowersOfA()
    ensures TimesA(1) == 2 && TimesA(2) == 4 && TimesA(4) == 8 && TimesA(8) == 16
    ensures Pow2(1) == 2 && Pow2(2) == 4 && Pow2(3) == 8 && Pow2(4) == 16
  {
  }

  lemma TimesOne(c: Symbol)
    ensures Times(c, 1) == c
  {
    hide Times, Xor, TimesA, Pow2;
    TimesBits(c, 1);
    PowersOfA();
    BitsSum(c);
    AddBits(IfBit(c, 1, 1), IfBit(c, 2, 2), IfBit(c, 4, 4), IfBit(c, 8, 8), IfBit(c, 16, 16));
  }

  lemma AddBits(t0: Symbol, t1: Symbol, t2: Symbol, t3: Symbol, t4: Symbol)
    requires t0 in {0, 1} && t1 in {0, 2} && t2 in {0, 4} && t3 in {0, 8} && t4 in {0, 16}
    ensures Plus(Plus(Plus(Plus(t0, t1), t2), t3), t4) == t0 + t1 + t2 + t3 + t4
  {
    hide Xor, Pow2;
    PowersOfA();
    XorApart(t0, t1 / 2, 1);
    XorApart(t0 + t1, t2 / 4, 2);
    XorApart(t0 + t1 + t2, t3 / 8, 3);
    XorApart(t0 + t1 + t2 + t3, t4 / 16, 4);
  }

  lemma BitsSum(c: Symbol)
    ensures IfBit(c, 1, 1) + IfBit(c, 2, 2) + IfBit(c, 4, 4) + IfBit(c, 8, 8) + IfBit(c, 16, 16) == c
  {
    assert c / 4 == c / 2 / 2 && c / 8 == c / 4 / 2 && c / 16 == c / 8 / 2;
  }

  // --------------------------------------------------------------------- polynomials

  type Poly = seq<Symbol>

  function Zeros(n: nat): (z: Poly)
    ensures |z| == n && forall i :: 0 <= i < n ==> z[i] == 0
  {
    seq(n, _ => 0)
  }

  function Sum(p: Poly, q: Poly): (r: Poly)
    requires |p| == |q|
    ensures |r| == |p| && forall i :: 0 <= i < |p| ==> r[i] == Plus(p[i], q[i])
  {
    seq(|p|, i requires 0 <= i < |p| => Plus(p[i], q[i]))
  }

  function Scaled(c: Symbol, p: Poly): (r: Poly)
    ensures |r| == |p| && forall i :: 0 <= i < |p| ==> r[i] == Times(c, p[i])
  {
    seq(|p|, i requires 0 <= i < |p| => Times(c, p[i]))
  }

  /** The generator, x^6 + {29}x^5 + {22}x^4 + {20}x^3 + {21}x^2 + {29}x + {18}. */
  const G: Poly := [1, 29, 22, 20, 21, 29, 18]

  /** q(x) * g(x): with q(x) = q'(x) * x + c this is q'(x) * g(x) * x + c * g(x). */
  function TimesG(q: Poly): (r: Poly)
    ensures |r| == |q| + 6
  {
    if q == [] then Zeros(6)
    else Sum(TimesG(q[..|q| - 1]) + [0], Zeros(|q| - 1) + Scaled(q[|q| - 1], G))
  }

  /** f(x) = q(x) * g(x) + r(x), where r(x) has six coefficients and so a lower degree than g(x). */
  ghost predicate Divides(f: Poly, q: Poly, r: Poly) {
    |r| == 6 && |f| == |q| + 6 && f == Sum(TimesG(q), Zeros(|q|) + r)
  }

  // ------------------------------------------------------------ remainders are unique

  lemma {:induction false} TimesGSum(p: Poly, q: Poly)
    requires |p| == |q|
    ensures TimesG(Sum(p, q)) == Sum(TimesG(p), TimesG(q))
  {
    hide Plus, Times;
    if p == [] {
      forall i | 0 <= i < 6 ensures Sum(TimesG(p), TimesG(q))[i] == 0 { PlusZero(0); }
    } else {
      var n := |p| - 1;
      TimesGSum(p[..n], q[..n]);
      assert Sum(p, q)[..n] == Sum(p[..n], q[..n]);
      forall i | 0 <= i < n + 7 ensures TimesG(Sum(p, q))[i] == Sum(TimesG(p), TimesG(q))[i] {
        TimesGAt(p, i);
        TimesGAt(q, i);
        TimesGAt(Sum(p, q), i);
        PlusZero(0);
        if i >= n { TimesPlus(p[n], q[n], G[i - n]); }
        var a, b := if i < n + 6 then TimesG(p[..n])[i] else 0, if i < n + 6 then TimesG(q[..n])[i] else 0;
        PlusRegroup(a, if i < n then 0 else Times(p[n], G[i - n]), b, if i < n then 0 else Times(q[n], G[i - n]));
      }
    }
  }

  lemma TimesGAt(q: Poly, i: nat)
    requires q != [] && i < |q| + 6
    ensures var n := |q| - 1;
            TimesG(q)[i] == Plus(if i < n + 6 then TimesG(q[..n])[i] else 0, if i < n then 0 else Times(q[n], G[i - n]))
  {
    hide Plus, Times;
  }

  /** g(x) is monic: a product with it that has no term of degree six or more is zero. */
  lemma {:induction false} NoLowMultiple(q: Poly)
    requires forall i :: 0 <= i < |q| ==> TimesG(q)[i] == 0
    ensures q == Zeros(|q|) && TimesG(q) == Zeros(|q| + 6)
  {
    hide Plus, Times;
    if q != [] {
      var n := |q| - 1;
      forall i | 0 <= i < n ensures TimesG(q[..n])[i] == 0 {
        TimesGAt(q, i);
        PlusZero(TimesG(q[..n])[i]);
      }
      NoLowMultiple(q[..n]);
      TimesGAt(q, n);
      TimesOne(q[n]);
      PlusZero(q[n]);
      assert q == q[..n] + [q[n]];
      forall i | 0 <= i < n + 7 ensures TimesG(q)[i] == 0 {
        TimesGAt(q, i);
        TimesNone(if i < n then 0 else G[i - n]);
        PlusZero(0);
      }
    }
  }

  lemma TimesNone(b: Symbol)
    ensures Times(0, b) == 0
  {
  }

  lemma SumZero(p: Poly, q: Poly)
    requires |p| == |q| && Sum(p, q) == Zeros(|p|)
    ensures p == q
  {
    forall i | 0 <= i < |p| ensures p[i] == q[i] {
      assert Plus(p[i], q[i]) == 0;
      XorSame(p[i], q[i]);
    }
  }

  /** Quotient and remainder are unique. */
  lemma RemainderUnique(f: Poly, q: Poly, r: Poly, q1: Poly, r1: Poly)
    requires Divides(f, q, r) && Divides(f, q1, r1)
    ensures q == q1 && r == r1
  {
    hide Plus, TimesG;
    var n := |q|;
    var d := Sum(q, q1);
    TimesGSum(q, q1);
    forall i | 0 <= i < n ensures TimesG(d)[i] == 0 {
      PlusZero(TimesG(q)[i]);
      PlusZero(TimesG(q1)[i]);
      assert f[i] == Plus(TimesG(q)[i], (Zeros(n) + r)[i]) && f[i] == Plus(TimesG(q1)[i], (Zeros(n) + r1)[i]);
    }
    NoLowMultiple(d);
    SumZero(q, q1);
    forall j | 0 <= j < 6 ensures r[j] == r1[j] {
      assert f[n + j] == Plus(TimesG(q)[n + j], (Zeros(n) + r)[n + j]) && f[n + j] == Plus(TimesG(q)[n + j], (Zeros(n) + r1)[n + j]);
      PlusCancel(TimesG(q)[n + j], r[j], r1[j]);
    }
  }

  lemma PlusCancel(a: Symbol, b: Symbol, c: Symbol)
    requires Plus(a, b) == Plus(a, c)
    ensures b == c
  {
    hide Xor;
    XorUndo(a, b);
    XorUndo(a, c);
  }

  // ------------------------------------------------------- one step of the checksum

  /** The coefficients packed into a remainder. */
  function Coefficients(c: nat): (p: Poly)
    ensures |p| == 6
  {
    Digits(c, 6)
  }

  lemma {:induction false} DigitsXor(a: nat, b: nat, n: nat)
    ensures Digits(Xor(a, b), n) == Sum(Digits(a, n), Digits(b, n))
  {
    hide Xor, Pow2;
    if n > 0 {
      Constants();
      XorParts(a, b, 5);
      DigitsXor(a / 32, b / 32, n - 1);
    }
  }

  lemma CoefficientsXor(a: nat, b: nat)
    ensures Coefficients(Xor(a, b)) == Sum(Coefficients(a), Coefficients(b))
  {
    DigitsXor(a, b, 6);
  }

  function ByA(p: Poly): (r: Poly)
    ensures |r| == |p| && forall i :: 0 <= i < |p| ==> r[i] == TimesA(p[i])
  {
    seq(|p|, i requires 0 <= i < |p| => TimesA(p[i]))
  }

  /** x^6 mod g(x), and a times what the constant before stands for. */
  const K0: Poly := [29, 22, 20, 21, 29, 18]
  const K1: Poly := [19, 5, 1, 3, 19, 13]
  const K2: Poly := [15, 10, 2, 6, 15, 26]
  const K3: Poly := [30, 20, 4, 12, 30, 29]
  const K4: Poly := [21, 1, 8, 24, 21, 19]

  lemma Packed0() ensures Coefficients(0x3b6a57b2) == K0 {}
  lemma Packed1() ensures Coefficients(0x26508e6d) == K1 {}
  lemma Packed2() ensures Coefficients(0x1ea119fa) == K2 {}
  lemma Packed3() ensures Coefficients(0x3d4233dd) == K3 {}
  lemma Packed4() ensures Coefficients(0x2a1462b3) == K4 {}

  lemma FirstConstants()
    ensures ByA(K0) == K1 && ByA(K1) == K2
  {
    assert TimesA(29) == 19 && TimesA(22) == 5 && TimesA(20) == 1 && TimesA(21) == 3 && TimesA(18) == 13;
    assert TimesA(19) == 15 && TimesA(5) == 10 && TimesA(1) == 2 && TimesA(3) == 6 && TimesA(13) == 26;
  }

  lemma LastConstants()
    ensures ByA(K2) == K3 && ByA(K3) == K4
  {
    assert TimesA(15) == 30 && TimesA(10) == 20 && TimesA(2) == 4 && TimesA(6) == 12 && TimesA(26) == 29;
    assert TimesA(30) == 21 && TimesA(20) == 1 && TimesA(4) == 8 && TimesA(12) == 24 && TimesA(29) == 19;
  }

  /** The five constants of PolyMod are x^6 mod g(x) times 1, a, a^2, a^3 and a^4. */
  lemma ConstantsAre()
    ensures G == [1] + Coefficients(0x3b6a57b2)
    ensures Coefficients(0x26508e6d) == ByA(Coefficients(0x3b6a57b2))
    ensures Coefficients(0x1ea119fa) == ByA(Coefficients(0x26508e6d))
    ensures Coefficients(0x3d4233dd) == ByA(Coefficients(0x1ea119fa))
    ensures Coefficients(0x2a1462b3) == ByA(Coefficients(0x3d4233dd))
  {
    hide Coefficients, TimesA;
    Packed0();
    Packed1();
    Packed2();
    Packed3();
    Packed4();
    FirstConstants();
    LastConstants();
  }

  lemma NoCoefficients()
    ensures Coefficients(0) == Zeros(6)
  {
  }

  lemma TermAt(c0: Symbol, bit: nat, weight: nat, k: nat, j: nat)
    requires weight == Pow2(bit) && j < 6
    ensures Coefficients(Term(c0, bit, k))[j] == IfBit(c0, weight, Coefficients(k)[j])
  {
    hide Coefficients, Pow2;
    HighIs(c0, bit);
    hide High;
    NoCoefficients();
  }

  /** The conditional additions of PolyMod add c0 times x^6 mod g(x). */
  lemma ReductionIs(c0: Symbol)
    ensures Coefficients(Reduction(c0)) == Scaled(c0, G[1..])
  {
    hide Coefficients, Times, TimesA, Plus, Xor, Term, Pow2, IfBit;
    var a, b, c, d, e := Term(c0, 0, 0x3b6a57b2), Term(c0, 1, 0x26508e6d), Term(c0, 2, 0x1ea119fa), Term(c0, 3, 0x3d4233dd), Term(c0, 4, 0x2a1462b3);
    CoefficientsXor(a, b);
    CoefficientsXor(Xor(a, b), c);
    CoefficientsXor(Xor(Xor(a, b), c), d);
    CoefficientsXor(Xor(Xor(Xor(a, b), c), d), e);
    ConstantsAre();
    PowersOfA();
    Pow2Zero();
    forall j | 0 <= j < 6 ensures Coefficients(Reduction(c0))[j] == Times(c0, G[1..][j]) {
      TermAt(c0, 0, 1, 0x3b6a57b2, j);
      TermAt(c0, 1, 2, 0x26508e6d, j);
      TermAt(c0, 2, 4, 0x1ea119fa, j);
      TermAt(c0, 3, 8, 0x3d4233dd, j);
      TermAt(c0, 4, 16, 0x2a1462b3, j);
      TimesBits(c0, G[1..][j]);
    }
  }

  lemma SplitAt(c: nat, p: nat)
    requires p > 0
    ensures c / (32 * p) == (c / 32) / p && (c % (32 * p)) / 32 == (c / 32) % p && (c % (32 * p)) % 32 == c % 32
  {
    var u, v := c / 32, c % 32;
    var q, r := u / p, u % p;
    assert u == q * p + r;
    assert c == 32 * (q * p + r) + v;
    Distribute(q * p, r, 32);
    Associate(q, p, 32);
    assert p * 32 == 32 * p;
    assert c == q * (32 * p) + (32 * r + v);
    IsRemainder(32 * r + v, q, 32 * p, c);
  }

  /** The first of n + 1 digits, and the others. */
  lemma {:induction false} DigitsTop(c: nat, n: nat)
    ensures Digits(c, n + 1) == [(c / Bound(n)) % 32] + Digits(c % Bound(n), n)
  {
    if n > 0 {
      SplitAt(c, Bound(n - 1));
      hide Bound;
      DigitsTop(c / 32, n - 1);
    }
  }

  lemma {:induction false} DigitsMore(m: nat, v: Symbol, n: nat)
    ensures Digits(m * 32 + v, n + 1) == Digits(m, n) + [v]
  {
  }

  /** Step is multiplication by x, plus v, modulo g(x). */
  lemma StepIs(c: nat, v: Symbol)
    requires c < REMAINDERS
    ensures Coefficients(Step(c, v)) == Sum(Coefficients(c)[1..] + [v], Scaled(Coefficients(c)[0], G[1..]))
  {
    hide Xor, Pow2, Reduction, Digits, Times, Plus;
    var m, c0 := c % LOW_25, c / LOW_25;
    Constants();
    XorSplit(m, 0, 0, v, 5);
    XorZero(m);
    XorZero(v);
    DigitsMore(m, v, 5);
    BoundIs();
    DigitsTop(c, 5);
    CoefficientsXor(m * 32 + v, Reduction(c0));
    ReductionIs(c0);
  }

  lemma BoundIs()
    ensures Bound(5) == LOW_25
  {
  }

  // ---------------------------------------------------- PolyMod computes the remainder

  /** The polynomial of a list of symbols, with the implicit 1 in front. */
  function WithOne(v: seq<Symbol>): Poly {
    [0, 0, 0, 0, 0, 1] + v
  }

  lemma FoldRange(v: seq<Symbol>)
    ensures Fold(1, v) < REMAINDERS
  {
    hide Step;
    if v != [] { StepRange(Fold(1, v[..|v| - 1]), v[|v| - 1]); }
  }

  /** If f(x) leaves r(x), then f(x) * x + v leaves r(x) * x + v reduced once. */
  lemma DividesNext(f: Poly, q: Poly, r: Poly, v: Symbol)
    requires Divides(f, q, r)
    ensures Divides(f + [v], q + [r[0]], Sum(r[1..] + [v], Scaled(r[0], G[1..])))
  {
    hide Plus, Times, TimesG;
    var n := |q|;
    var more, s := q + [r[0]], Sum(r[1..] + [v], Scaled(r[0], G[1..]));
    assert more[..n] == q;
    var total := Sum(TimesG(more), Zeros(n + 1) + s);
    forall i | 0 <= i < n + 7 ensures (f + [v])[i] == total[i] {
      TimesGAt(more, i);
      if i < n + 6 { assert f[i] == Plus(TimesG(q)[i], (Zeros(n) + r)[i]); }
      if i < n {
        PlusZero(TimesG(q)[i]);
      } else if i == n {
        TimesOne(r[0]);
        PlusZero(Plus(TimesG(q)[n], r[0]));
      } else {
        var t := Times(r[0], G[i - n]);
        PlusTwice(if i < n + 6 then TimesG(q)[i] else 0, t, if i < n + 6 then r[i - n] else v);
        PlusZero(v);
      }
    }
  }

  lemma PlusTwice(a: Symbol, t: Symbol, b: Symbol)
    ensures Plus(Plus(a, t), Plus(b, t)) == Plus(a, b)
  {
    hide Xor;
    PlusRegroup(a, t, b, t);
    PlusZero(t);
    PlusZero(Plus(a, b));
  }

  /** What PolyMod returns is a remainder modulo g(x). */
  lemma {:induction false} PolyModLeaves(v: seq<Symbol>) returns (q: Poly)
    ensures Divides(WithOne(v), q, Coefficients(Fold(1, v)))
  {
    hide Step, Times, Plus;
    if v == [] {
      q := [];
      OneAlone();
    } else {
      var n := |v| - 1;
      var before := PolyModLeaves(v[..n]);
      var r := Coefficients(Fold(1, v[..n]));
      FoldRange(v[..n]);
      StepIs(Fold(1, v[..n]), v[n]);
      DividesNext(WithOne(v[..n]), before, r, v[n]);
      q := before + [r[0]];
      assert WithOne(v[..n]) + [v[n]] == WithOne(v);
    }
  }

  lemma OneAlone()
    ensures Divides(WithOne([]), [], Coefficients(1))
  {
    var f := WithOne([]);
    assert Coefficients(1) == f;
    assert Zeros(0) + f == f;
    forall i | 0 <= i < 6 ensures Sum(TimesG([]), Zeros(0) + f)[i] == f[i] { PlusZero(f[i]); }
  }

  /** PolyMod is the remainder of the polynomial modulo g(x): six coefficients are left by some
      quotient exactly if they are the ones it returns. */
  lemma PolyModIsRemainder(v: seq<Symbol>, r: Poly)
    ensures (exists q :: Divides(WithOne(v), q, r)) <==> r == Coefficients(Fold(1, v))
  {
    hide Divides, Coefficients;
    var q := PolyModLeaves(v);
    if q1 :| Divides(WithOne(v), q1, r) {
      RemainderUnique(WithOne(v), q, Coefficients(Fold(1, v)), q1, r);
    }
  }

  // ------------------------------------------------------------ strings are code words

  /** What the polynomial of a whole string leaves: 1, or the constant of Bech32m. */
  function Final(encoding: Encoding): Poly {
    if encoding == BECH32 then [0, 0, 0, 0, 0, 1] else [21, 28, 16, 12, 5, 3]
  }

  /** The polynomial whose coefficients a human-readable part and symbols spell leaves the final
      remainder modulo g(x). */
  ghost predicate Codeword(encoding: Encoding, hrp: string, symbols: seq<Symbol>) {
    exists f, q :: Spelled(hrp, symbols, f) && Divides(WithOne(f), q, Final(encoding))
  }

  lemma PackedOne() ensures Coefficients(1) == [0, 0, 0, 0, 0, 1] {}
  lemma PackedFinal() ensures Coefficients(0x2bc830a3) == [21, 28, 16, 12, 5, 3] {}

  lemma FinalIs(encoding: Encoding)
    ensures Coefficients(EncodingConstant(encoding)) == Final(encoding)
  {
    hide Coefficients;
    PackedOne();
    PackedFinal();
  }

  lemma CoefficientsInjective(a: nat, b: nat)
    requires a < REMAINDERS && b < REMAINDERS && Coefficients(a) == Coefficients(b)
    ensures a == b
  {
    assert Bound(6) == REMAINDERS;
    hide Bound, Digits;
    DigitsAre(a, 6);
    DigitsAre(b, 6);
  }

  /** The source's comparison with a constant decides exactly that. */
  lemma VerifiesExactly(encoding: Encoding, hrp: string, symbols: seq<Symbol>)
    ensures Verifies(encoding, hrp, symbols) <==> Codeword(encoding, hrp, symbols)
  {
    hide Spelled, Divides, Fold, Coefficients, Final;
    FinalIs(encoding);
    forall f ensures Fold(1, f) == EncodingConstant(encoding) <==> exists q :: Divides(WithOne(f), q, Final(encoding)) {
      PolyModIsRemainder(f, Final(encoding));
      FoldRange(f);
      if Coefficients(Fold(1, f)) == Final(encoding) { CoefficientsInjective(Fold(1, f), EncodingConstant(encoding)); }
    }
  }

  /** Encode writes the human-readable part, the separator and the values with the one checksum that
      makes them a code word; and Decode accepts what does. */
  lemma EncodesCodeword(str: string, encoding: Encoding, hrp: string, values: seq<Symbol>)
    ensures Encodes(str, encoding, hrp, values) <==>
            exists sum :: |sum| == CHECKSUM_SIZE && Written(str, hrp, values + sum) && Codeword(encoding, hrp, values + sum)
  {
    hide Written, Verifies, Codeword;
    forall sum ensures Verifies(encoding, hrp, values + sum) <==> Codeword(encoding, hrp, values + sum) {
      VerifiesExactly(encoding, hrp, values + sum);
    }
  }
}
