/** Bech32 and Bech32m (src/bech32.cpp), the encodings of BIP 173 (section "Bech32") and BIP 350
    (section "Specification").

    Strings are sequences of characters; the words the checksum works on are natural numbers with
    bitwise exclusive or. */
module Bech32 {
  import opened Wrappers
  import opened Powers

  /** A 5-bit value. */
  type Symbol = x: int | 0 <= x < 32

  datatype Encoding = BECH32 | BECH32M
  datatype Decoded = Decoded(encoding: Encoding, hrp: string, data: seq<Symbol>)

  const CHECKSUM_SIZE := 6
  const SEPARATOR := '1'
  const LOW_25 := 0x200_0000
  const REMAINDERS := 0x4000_0000

  function EncodingConstant(encoding: Encoding): nat {
    if encoding == BECH32 then 1 else 0x2bc830a3
  }

  const CHARSET := "qpzry9x8gf2tvdw0s3jn54khce6mua7l"

  /** The character of CHARSET that stands for a symbol. */
  function Charset(v: Symbol): char {
    if v == 0 then 'q' else if v == 1 then 'p' else if v == 2 then 'z' else if v == 3 then 'r'
    else if v == 4 then 'y' else if v == 5 then '9' else if v == 6 then 'x' else if v == 7 then '8'
    else if v == 8 then 'g' else if v == 9 then 'f' else if v == 10 then '2' else if v == 11 then 't'
    else if v == 12 then 'v' else if v == 13 then 'd' else if v == 14 then 'w' else if v == 15 then '0'
    else if v == 16 then 's' else if v == 17 then '3' else if v == 18 then 'j' else if v == 19 then 'n'
    else if v == 20 then '5' else if v == 21 then '4' else if v == 22 then 'k' else if v == 23 then 'h'
    else if v == 24 then 'c' else if v == 25 then 'e' else if v == 26 then '6' else if v == 27 then 'm'
    else if v == 28 then 'u' else if v == 29 then 'a' else if v == 30 then '7'
    else 'l'
  }

  /** CHARSET_REV: upper and lower case alike. */
  function CharsetRev(c: char): int {
    if c == '0' then 15 else if c == '2' then 10 else if c == '3' then 17 else if c == '4' then 21
    else if c == '5' then 20 else if c == '6' then 26 else if c == '7' then 30 else if c == '8' then 7
    else if c == '9' then 5 else if c == 'a' || c == 'A' then 29 else if c == 'c' || c == 'C' then 24 else if c == 'd' || c == 'D' then 13
    else if c == 'e' || c == 'E' then 25 else if c == 'f' || c == 'F' then 9 else if c == 'g' || c == 'G' then 8 else if c == 'h' || c == 'H' then 23
    else if c == 'j' || c == 'J' then 18 else if c == 'k' || c == 'K' then 22 else if c == 'l' || c == 'L' then 31 else if c == 'm' || c == 'M' then 27
    else if c == 'n' || c == 'N' then 19 else if c == 'p' || c == 'P' then 1 else if c == 'q' || c == 'Q' then 0 else if c == 'r' || c == 'R' then 3
    else if c == 's' || c == 'S' then 16 else if c == 't' || c == 'T' then 11 else if c == 'u' || c == 'U' then 28 else if c == 'v' || c == 'V' then 12
    else if c == 'w' || c == 'W' then 14 else if c == 'x' || c == 'X' then 6 else if c == 'y' || c == 'Y' then 4 else if c == 'z' || c == 'Z' then 2
    else -1
  }

  function LowerCase(c: char): char {
    if 'A' <= c <= 'Z' then c - 'A' + 'a' else c
  }

  lemma CharsetIs(v: Symbol)
    ensures |CHARSET| == 32 && Charset(v) == CHARSET[v]
  {
  }

  lemma CharsetInverse(v: Symbol)
    ensures CharsetRev(Charset(v)) == v
  {
  }

  lemma CharsetPlain(v: Symbol)
    ensures Charset(v) != SEPARATOR && 33 <= Charset(v) as int <= 126 && LowerCase(Charset(v)) == Charset(v)
  {
  }

  lemma CharsetRevInverse(c: char)
    ensures CharsetRev(c) != -1 ==> 0 <= CharsetRev(c) < 32 && Charset(CharsetRev(c)) == LowerCase(c)
  {
  }

  lemma CharsetRevLower(c: char)
    ensures CharsetRev(c) == CharsetRev(LowerCase(c))
  {
  }

  // ------------------------------------------------------------------- the checksum

  /** The bits from position k on. */
  function High(a: nat, k: nat): nat {
    QuotientFits(a, Pow2(k));
    a / Pow2(k)
  }

  /** A constant that is added in if a bit of c0 is set. */
  function Term(c0: nat, bit: nat, k: nat): nat {
    if High(c0, bit) % 2 == 1 then k else 0
  }

  /** c0 times x^6 mod g(x). */
  function Reduction(c0: nat): nat {
    Xor(Xor(Xor(Xor(Term(c0, 0, 0x3b6a57b2), Term(c0, 1, 0x26508e6d)), Term(c0, 2, 0x1ea119fa)), Term(c0, 3, 0x3d4233dd)),
        Term(c0, 4, 0x2a1462b3))
  }

  /** c(x) * x + v mod g(x). */
  function Step(c: nat, v: Symbol): nat {
    Xor(Xor((c % LOW_25) * 32, v), Reduction(c / LOW_25))
  }

  /** The remainder after feeding in symbols from a given remainder. */
  function Fold(c: nat, s: seq<Symbol>): nat {
    if s == [] then c else Step(Fold(c, s[..|s| - 1]), s[|s| - 1])
  }

  /** PolyMod. */
  method PolyMod(v: seq<Symbol>) returns (c: nat)
    ensures c == Fold(1, v)
  {
    hide Xor, Pow2;
    c := 1;
    for i := 0 to |v|
      invariant c == Fold(1, v[..i])
    {
      assert v[..i + 1][..i] == v[..i];
      var c0 := c / LOW_25;
      c := AddReduction(Xor((c % LOW_25) * 32, v[i]), c0);
    }
    assert v[..|v|] == v;
  }

  /** The five conditional additions of PolyMod. */
  method AddReduction(start: nat, c0: nat) returns (c: nat)
    ensures c == Xor(start, Reduction(c0))
  {
    hide Xor, Pow2, Term;
    c := start;
    BitTests(c0);
    XorZero(c);
    if c0 % 2 == 1 { c := Xor(c, 0x3b6a57b2); }
    XorAssoc(start, Term(c0, 0, 0x3b6a57b2), Term(c0, 1, 0x26508e6d));
    XorZero(c);
    if (c0 / 2) % 2 == 1 { c := Xor(c, 0x26508e6d); }
    XorZero(c);
    if (c0 / 4) % 2 == 1 { c := Xor(c, 0x1ea119fa); }
    XorZero(c);
    if (c0 / 8) % 2 == 1 { c := Xor(c, 0x3d4233dd); }
    XorZero(c);
    if (c0 / 16) % 2 == 1 { c := Xor(c, 0x2a1462b3); }
    Gathered(start, c0);
  }

  lemma BitTests(c0: nat)
    ensures forall k: nat :: Term(c0, 0, k) == if c0 % 2 == 1 then k else 0
    ensures forall k: nat :: Term(c0, 1, k) == if (c0 / 2) % 2 == 1 then k else 0
    ensures forall k: nat :: Term(c0, 2, k) == if (c0 / 4) % 2 == 1 then k else 0
    ensures forall k: nat :: Term(c0, 3, k) == if (c0 / 8) % 2 == 1 then k else 0
    ensures forall k: nat :: Term(c0, 4, k) == if (c0 / 16) % 2 == 1 then k else 0
  {
    assert Pow2(0) == 1 && Pow2(1) == 2 && Pow2(2) == 4 && Pow2(3) == 8 && Pow2(4) == 16;
  }

  lemma Gathered(start: nat, c0: nat)
    ensures var a, b, c, d, e := Term(c0, 0, 0x3b6a57b2), Term(c0, 1, 0x26508e6d), Term(c0, 2, 0x1ea119fa), Term(c0, 3, 0x3d4233dd), Term(c0, 4, 0x2a1462b3);
            Xor(Xor(Xor(Xor(Xor(start, a), b), c), d), e) == Xor(start, Reduction(c0))
  {
    hide Xor, Term;
    var a, b, c, d, e := Term(c0, 0, 0x3b6a57b2), Term(c0, 1, 0x26508e6d), Term(c0, 2, 0x1ea119fa), Term(c0, 3, 0x3d4233dd), Term(c0, 4, 0x2a1462b3);
    XorAssoc(start, a, b);
    XorAssoc(start, Xor(a, b), c);
    XorAssoc(start, Xor(Xor(a, b), c), d);
    XorAssoc(start, Xor(Xor(Xor(a, b), c), d), e);
  }

  // ------------------------------------------------ the checksum is a linear function

  lemma XorParts(a: nat, b: nat, k: nat)
    ensures High(Xor(a, b), k) == Xor(High(a, k), High(b, k)) && Mod(Xor(a, b), Pow2(k)) == Xor(Mod(a, Pow2(k)), Mod(b, Pow2(k)))
  {
    var p := Pow2(k);
    hide Pow2, Xor;
    var q, r, t, u := High(a, k), Mod(a, p), High(b, k), Mod(b, p);
    assert a == q * p + r && b == t * p + u;
    hide High, Mod;
    XorSplit(q, r, t, u, k);
    IsRemainder(Xor(r, u), Xor(q, t), p, Xor(a, b));
    HighIs(Xor(a, b), k);
  }

  lemma HighIs(a: nat, k: nat)
    ensures High(a, k) == a / Pow2(k)
  {
  }

  lemma TermLinear(a: nat, b: nat, bit: nat, k: nat)
    ensures Term(Xor(a, b), bit, k) == Xor(Term(a, bit, k), Term(b, bit, k))
  {
    hide High, Xor;
    XorParts(a, b, bit);
    XorHalf(High(a, bit), High(b, bit));
    XorZero(k);
    XorZero(0);
    XorSelf(k);
  }

  lemma ReductionLinear(a: nat, b: nat)
    ensures Reduction(Xor(a, b)) == Xor(Reduction(a), Reduction(b))
  {
    hide Term, Xor;
    TermLinear(a, b, 0, 0x3b6a57b2);
    TermLinear(a, b, 1, 0x26508e6d);
    TermLinear(a, b, 2, 0x1ea119fa);
    TermLinear(a, b, 3, 0x3d4233dd);
    TermLinear(a, b, 4, 0x2a1462b3);
    var p, q, r, s := Term(a, 0, 0x3b6a57b2), Term(a, 1, 0x26508e6d), Term(a, 2, 0x1ea119fa), Term(a, 3, 0x3d4233dd);
    var t, u, v, w := Term(b, 0, 0x3b6a57b2), Term(b, 1, 0x26508e6d), Term(b, 2, 0x1ea119fa), Term(b, 3, 0x3d4233dd);
    XorRegroup(p, t, q, u);
    XorRegroup(Xor(p, q), Xor(t, u), r, v);
    XorRegroup(Xor(Xor(p, q), r), Xor(Xor(t, u), v), s, w);
    XorRegroup(Xor(Xor(Xor(p, q), r), s), Xor(Xor(Xor(t, u), v), w), Term(a, 4, 0x2a1462b3), Term(b, 4, 0x2a1462b3));
  }

  lemma Constants()
    ensures Pow2(5) == 32 && Pow2(25) == LOW_25 && Pow2(30) == REMAINDERS
  {
    assert Pow2(5) == 32;
    Pow2Add(5, 5);
    Pow2Add(10, 10);
    Pow2Add(20, 5);
    Pow2Add(25, 5);
  }

  lemma StepLinear(a: nat, v: Symbol, b: nat, w: Symbol)
    ensures Xor(v, w) < 32 && Step(Xor(a, b), Xor(v, w)) == Xor(Step(a, v), Step(b, w))
  {
    hide Xor, Pow2, Reduction;
    Constants();
    XorSplit(0, v, 0, w, 5);
    XorParts(a, b, 25);
    ReductionLinear(a / LOW_25, b / LOW_25);
    var x, y := a % LOW_25, b % LOW_25;
    XorSplit(x, 0, y, 0, 5);
    XorZero(0);
    XorRegroup(x * 32, y * 32, v, w);
    XorRegroup(Xor(x * 32, v), Xor(y * 32, w), Reduction(a / LOW_25), Reduction(b / LOW_25));
  }

  function XorAll(s: seq<Symbol>, t: seq<Symbol>): (r: seq<Symbol>)
    requires |s| == |t|
    ensures |r| == |s|
  {
    if s == [] then []
    else
      var n := |s| - 1;
      StepLinear(0, s[n], 0, t[n]);
      XorAll(s[..n], t[..n]) + [Xor(s[n], t[n])]
  }

  lemma {:induction false} FoldLinear(a: nat, s: seq<Symbol>, b: nat, t: seq<Symbol>)
    requires |s| == |t|
    ensures Fold(Xor(a, b), XorAll(s, t)) == Xor(Fold(a, s), Fold(b, t))
  {
    hide Step, Xor;
    if s != [] {
      var n := |s| - 1;
      FoldLinear(a, s[..n], b, t[..n]);
      StepLinear(Fold(a, s[..n]), s[n], Fold(b, t[..n]), t[n]);
      assert XorAll(s, t)[..n] == XorAll(s[..n], t[..n]);
    }
  }

  lemma {:induction false} FoldConcat(c: nat, s: seq<Symbol>, t: seq<Symbol>)
    ensures Fold(c, s + t) == Fold(Fold(c, s), t)
  {
    hide Step;
    if t == [] {
      assert s + t == s;
    } else {
      var n := |t| - 1;
      assert (s + t)[..|s| + n] == s + t[..n];
      FoldConcat(c, s, t[..n]);
    }
  }

  lemma XorBelow(a: nat, b: nat)
    requires a < REMAINDERS && b < REMAINDERS
    ensures Xor(a, b) < REMAINDERS
  {
    hide Xor, Pow2;
    Constants();
    XorSplit(0, a, 0, b, 30);
  }

  lemma ReductionRange(c0: nat)
    ensures Reduction(c0) < REMAINDERS
  {
    hide Xor, Pow2;
    var a, b, c, d, e := Term(c0, 0, 0x3b6a57b2), Term(c0, 1, 0x26508e6d), Term(c0, 2, 0x1ea119fa), Term(c0, 3, 0x3d4233dd), Term(c0, 4, 0x2a1462b3);
    XorBelow(a, b);
    XorBelow(Xor(a, b), c);
    XorBelow(Xor(Xor(a, b), c), d);
    XorBelow(Xor(Xor(Xor(a, b), c), d), e);
  }

  lemma StepRange(c: nat, v: Symbol)
    ensures Step(c, v) < REMAINDERS
  {
    hide Xor, Reduction;
    ReductionRange(c / LOW_25);
    XorBelow((c % LOW_25) * 32, v);
    XorBelow(Xor((c % LOW_25) * 32, v), Reduction(c / LOW_25));
  }

  // -------------------------------------------------- multiplying by x loses nothing

  /** The lowest coefficient of c0 times x^6 mod g(x). */
  function LowReduction(c0: nat): nat {
    Xor(Xor(Xor(Xor(Term(c0, 0, 18), Term(c0, 1, 13)), Term(c0, 2, 26)), Term(c0, 3, 29)), Term(c0, 4, 19))
  }

  lemma LowCoefficient(c0: nat)
    ensures Reduction(c0) % 32 == LowReduction(c0)
  {
    hide Xor, Pow2, Term, Mod;
    Constants();
    var a, b, c, d, e := Term(c0, 0, 0x3b6a57b2), Term(c0, 1, 0x26508e6d), Term(c0, 2, 0x1ea119fa), Term(c0, 3, 0x3d4233dd), Term(c0, 4, 0x2a1462b3);
    LowTerm(c0, 0, 0x3b6a57b2, 18);
    LowTerm(c0, 1, 0x26508e6d, 13);
    LowTerm(c0, 2, 0x1ea119fa, 26);
    LowTerm(c0, 3, 0x3d4233dd, 29);
    LowTerm(c0, 4, 0x2a1462b3, 19);
    ModIs(Reduction(c0));
    XorParts(a, b, 5);
    XorParts(Xor(a, b), c, 5);
    XorParts(Xor(Xor(a, b), c), d, 5);
    XorParts(Xor(Xor(Xor(a, b), c), d), e, 5);
  }

  lemma LowTerm(c0: nat, bit: nat, k: nat, low: nat)
    requires k % 32 == low
    ensures Mod(Term(c0, bit, k), 32) == Term(c0, bit, low)
  {
    hide High;
  }

  lemma ModIs(x: nat)
    ensures Mod(x, 32) == x % 32
  {
  }

  lemma LowNotZero(c0: nat)
    requires 0 < c0 < 32
    ensures LowReduction(c0) != 0
  {
    var a, b, c, d, e := Term(c0, 0, 18), Term(c0, 1, 13), Term(c0, 2, 26), Term(c0, 3, 29), Term(c0, 4, 19);
    assert a != 0 || b != 0 || c != 0 || d != 0 || e != 0 by { BitTests(c0); }
    if LowReduction(c0) == 0 { Independent(a, b, c, d, e); }
  }

  predicate Bit(x: nat, k: nat) {
    High(x, k) % 2 == 1
  }

  lemma BitOfXor(x: nat, y: nat, k: nat)
    ensures Bit(Xor(x, y), k) == (Bit(x, k) != Bit(y, k))
  {
    hide Xor, High;
    XorParts(x, y, k);
    XorHalf(High(x, k), High(y, k));
  }

  lemma BitsOf(x: nat)
    ensures Bit(x, 0) == (x % 2 == 1) && Bit(x, 1) == ((x / 2) % 2 == 1) && Bit(x, 2) == ((x / 4) % 2 == 1)
    ensures Bit(x, 3) == ((x / 8) % 2 == 1) && Bit(x, 4) == ((x / 16) % 2 == 1)
  {
    assert Pow2(0) == 1 && Pow2(1) == 2 && Pow2(2) == 4 && Pow2(3) == 8 && Pow2(4) == 16;
  }

  lemma ConstantBits()
    ensures !Bit(0, 0) && !Bit(0, 1) && !Bit(0, 2) && !Bit(0, 3) && !Bit(0, 4)
    ensures !Bit(18, 0) && Bit(18, 1) && !Bit(18, 2) && !Bit(18, 3) && Bit(18, 4)
    ensures Bit(13, 0) && !Bit(13, 1) && Bit(13, 2) && Bit(13, 3) && !Bit(13, 4)
    ensures !Bit(26, 0) && Bit(26, 1) && !Bit(26, 2) && Bit(26, 3) && Bit(26, 4)
    ensures Bit(29, 0) && !Bit(29, 1) && Bit(29, 2) && Bit(29, 3) && Bit(29, 4)
    ensures Bit(19, 0) && Bit(19, 1) && !Bit(19, 2) && !Bit(19, 3) && Bit(19, 4)
  {
    hide Bit;
    BitsOf(0);
    BitsOf(18);
    BitsOf(13);
    BitsOf(26);
    BitsOf(29);
    BitsOf(19);
  }

  /** The lowest coefficients of the five constants are linearly independent. */
  lemma Independent(a: nat, b: nat, c: nat, d: nat, e: nat)
    requires a in {0, 18} && b in {0, 13} && c in {0, 26} && d in {0, 29} && e in {0, 19}
    requires Xor(Xor(Xor(Xor(a, b), c), d), e) == 0
    ensures a == 0 && b == 0 && c == 0 && d == 0 && e == 0
  {
    hide Xor, Bit;
    ConstantBits();
    forall k: nat
      ensures Bit(0, k) == (((((Bit(a, k) != Bit(b, k)) != Bit(c, k)) != Bit(d, k))) != Bit(e, k))
    {
      BitOfXor(a, b, k);
      BitOfXor(Xor(a, b), c, k);
      BitOfXor(Xor(Xor(a, b), c), d, k);
      BitOfXor(Xor(Xor(Xor(a, b), c), d), e, k);
    }
  }

  /** Only the zero remainder is multiplied to zero. */
  lemma StepInjective(c: nat)
    requires c < REMAINDERS && Step(c, 0) == 0
    ensures c == 0
  {
    hide Xor, Reduction, LowReduction;
    var x, c0 := (c % LOW_25) * 32, c / LOW_25;
    XorZero(x);
    XorSame(x, Reduction(c0));
    LowCoefficient(c0);
    if c0 > 0 { LowNotZero(c0); }
    NoReduction();
  }

  lemma NoReduction()
    ensures Reduction(0) == 0
  {
  }

  lemma {:induction false} FoldZeros(c: nat, zeros: seq<Symbol>)
    requires c < REMAINDERS && (forall i :: 0 <= i < |zeros| ==> zeros[i] == 0)
    ensures Fold(c, zeros) < REMAINDERS && (Fold(c, zeros) == 0 ==> c == 0)
  {
    hide Step;
    if zeros != [] {
      var n := |zeros| - 1;
      FoldZeros(c, zeros[..n]);
      StepRange(Fold(c, zeros[..n]), 0);
      if Fold(c, zeros) == 0 { StepInjective(Fold(c, zeros[..n])); }
    }
  }

  // ------------------------------------------------------ six symbols are a remainder

  /** Symbols as the digits of a number. */
  function Number(s: seq<Symbol>): nat {
    if s == [] then 0 else Number(s[..|s| - 1]) * 32 + s[|s| - 1]
  }

  function Bound(n: nat): (b: nat)
    ensures b >= 1
  {
    if n == 0 then 1 else 32 * Bound(n - 1)
  }

  lemma {:induction false} NumberBound(s: seq<Symbol>)
    ensures Number(s) < Bound(|s|)
  {
    if s != [] { NumberBound(s[..|s| - 1]); }
  }

  lemma {:induction false} NumberInjective(s: seq<Symbol>, t: seq<Symbol>)
    requires |s| == |t| && Number(s) == Number(t)
    ensures s == t
  {
    if s != [] {
      var n := |s| - 1;
      NumberInjective(s[..n], t[..n]);
      assert s == s[..n] + [s[n]] && t == t[..n] + [t[n]];
    }
  }

  lemma SmallStep(c: nat, v: Symbol)
    requires c < LOW_25
    ensures Step(c, v) == c * 32 + v
  {
    hide Xor, Pow2, Reduction;
    Constants();
    NoReduction();
    XorSplit(c, 0, 0, v, 5);
    XorZero(c);
    XorZero(v);
    XorZero(c * 32 + v);
  }

  lemma {:induction false} BoundMono(m: nat, n: nat)
    requires m <= n
    ensures Bound(m) <= Bound(n)
  {
    if m < n { BoundMono(m, n - 1); }
  }

  /** Nothing overflows while the first six symbols are shifted in. */
  lemma {:induction false} FoldIsNumber(s: seq<Symbol>)
    requires |s| <= CHECKSUM_SIZE
    ensures Fold(0, s) == Number(s)
  {
    hide Step;
    if s != [] {
      var n := |s| - 1;
      FoldIsNumber(s[..n]);
      NumberBound(s[..n]);
      BoundMono(n, 5);
      assert Bound(5) == LOW_25;
      SmallStep(Number(s[..n]), s[n]);
    }
  }

  // ------------------------------------------------------------ what the checksum does

  const ZEROS: seq<Symbol> := [0, 0, 0, 0, 0, 0]

  lemma {:induction false} XorWithZeros(s: seq<Symbol>, zeros: seq<Symbol>)
    requires |s| == |zeros| && forall i :: 0 <= i < |zeros| ==> zeros[i] == 0
    ensures XorAll(zeros, s) == s
  {
    hide Xor;
    if s != [] {
      var n := |s| - 1;
      XorWithZeros(s[..n], zeros[..n]);
      XorZero(s[n]);
      assert s == s[..n] + [s[n]];
    }
  }

  /** Six final symbols are added to the remainder they meet. */
  lemma FinalSymbols(c: nat, s: seq<Symbol>)
    requires |s| == CHECKSUM_SIZE
    ensures Fold(c, s) == Xor(Fold(c, ZEROS), Number(s))
  {
    hide Step, Xor, Fold;
    XorZero(c);
    XorWithZeros(s, ZEROS);
    FoldLinear(c, ZEROS, 0, s);
    FoldIsNumber(s);
  }

  /** The symbols that bring a polynomial to a given remainder exist and are unique. */
  lemma ChecksumFits(enc: seq<Symbol>, s: seq<Symbol>, constant: nat)
    requires |s| == CHECKSUM_SIZE
    ensures Fold(1, enc + s) == constant <==> Number(s) == Xor(Fold(1, enc + ZEROS), constant)
  {
    hide Step, Xor, Fold;
    var c := Fold(1, enc);
    FoldConcat(1, enc, s);
    FoldConcat(1, enc, ZEROS);
    FinalSymbols(c, s);
    XorUndo(Fold(c, ZEROS), Number(s));
    XorUndo(Fold(c, ZEROS), constant);
  }

  /** Two symbol strings of equal length that differ only within six consecutive symbols have
      different remainders. */
  lemma BurstDetected(head: seq<Symbol>, a: seq<Symbol>, b: seq<Symbol>, tail: seq<Symbol>)
    requires |a| == |b| <= CHECKSUM_SIZE && a != b
    ensures Fold(1, head + a + tail) != Fold(1, head + b + tail)
  {
    hide Step, Xor, Fold;
    var c := Fold(1, head);
    FoldConcat(1, head, a);
    FoldConcat(1, head, b);
    FoldConcat(1, head + a, tail);
    FoldConcat(1, head + b, tail);
    var u, v := Fold(c, a), Fold(c, b);
    XorSelf(c);
    FoldLinear(c, a, c, b);
    FoldIsNumber(XorAll(a, b));
    DifferenceNotZero(a, b);
    XorSelfAll(tail);
    FoldLinear(u, tail, v, tail);
    NumberBound(XorAll(a, b));
    BoundMono(|a|, 6);
    assert Bound(6) == REMAINDERS;
    FoldZeros(Xor(u, v), XorAll(tail, tail));
    XorSelf(Fold(u, tail));
  }

  lemma {:induction false} XorSelfAll(s: seq<Symbol>)
    ensures forall i :: 0 <= i < |s| ==> XorAll(s, s)[i] == 0
  {
    hide Xor;
    if s != [] {
      XorSelfAll(s[..|s| - 1]);
      XorSelf(s[|s| - 1]);
    }
  }

  lemma {:induction false} DifferenceNotZero(a: seq<Symbol>, b: seq<Symbol>)
    requires |a| == |b| && a != b
    ensures Number(XorAll(a, b)) != 0
  {
    hide Xor;
    var n := |a| - 1;
    if a[n] == b[n] {
      assert a == a[..n] + [a[n]] && b == b[..n] + [b[n]];
      DifferenceNotZero(a[..n], b[..n]);
    } else if Xor(a[n], b[n]) == 0 {
      XorSame(a[n], b[n]);
    }
  }

  // ------------------------------------------------------------- checksums of strings

  predicate Ascii(s: string) {
    forall i :: 0 <= i < |s| ==> s[i] as int < 128
  }

  function HighParts(hrp: string): (r: seq<Symbol>)
    requires Ascii(hrp)
    ensures |r| == |hrp|
  {
    seq(|hrp|, i requires 0 <= i < |hrp| => hrp[i] as int / 32)
  }

  function LowParts(hrp: string): (r: seq<Symbol>)
    requires Ascii(hrp)
    ensures |r| == |hrp|
  {
    seq(|hrp|, i requires 0 <= i < |hrp| => hrp[i] as int % 32)
  }

  /** PreparePolynomialCoefficients. */
  function Prepared(hrp: string, values: seq<Symbol>): seq<Symbol>
    requires Ascii(hrp)
  {
    HighParts(hrp) + [0] + LowParts(hrp) + values
  }

  /** The coefficients one by one: the high parts of the human-readable part, a zero, its low parts, and
      the symbols. */
  ghost predicate Spelled(hrp: string, symbols: seq<Symbol>, f: seq<Symbol>) {
    && |f| == |hrp| + 1 + |hrp| + |symbols|
    && (forall i :: 0 <= i < |hrp| ==> f[i] == hrp[i] as int / 32)
    && f[|hrp|] == 0
    && (forall i :: 0 <= i < |hrp| ==> f[|hrp| + 1 + i] == hrp[i] as int % 32)
    && (forall i :: 0 <= i < |symbols| ==> f[|hrp| + 1 + |hrp| + i] == symbols[i])
  }

  /** The polynomial of a human-readable part and symbols, checksum included, leaves the constant. */
  ghost predicate Verifies(encoding: Encoding, hrp: string, symbols: seq<Symbol>) {
    exists f :: Spelled(hrp, symbols, f) && Fold(1, f) == EncodingConstant(encoding)
  }

  lemma PreparedSpelled(hrp: string, symbols: seq<Symbol>)
    requires Ascii(hrp)
    ensures forall f :: Spelled(hrp, symbols, f) <==> f == Prepared(hrp, symbols)
  {
    var p, n := Prepared(hrp, symbols), |hrp|;
    forall f | Spelled(hrp, symbols, f) ensures f == p {
      forall i | 0 <= i < |f| ensures f[i] == p[i] {
        if n < i <= n + n { assert f[n + 1 + (i - n - 1)] == hrp[i - n - 1] as int % 32; }
        if n + n < i { assert f[n + 1 + n + (i - n - 1 - n)] == symbols[i - n - 1 - n]; }
      }
    }
  }

  lemma VerifiesIf(encoding: Encoding, hrp: string, symbols: seq<Symbol>)
    requires Ascii(hrp)
    ensures Verifies(encoding, hrp, symbols) <==> Fold(1, Prepared(hrp, symbols)) == EncodingConstant(encoding)
  {
    hide Fold, Prepared, Spelled;
    PreparedSpelled(hrp, symbols);
    assert Spelled(hrp, symbols, Prepared(hrp, symbols));
  }

  method PreparePolynomialCoefficients(hrp: string, values: seq<Symbol>) returns (ret: seq<Symbol>)
    requires Ascii(hrp)
    ensures ret == Prepared(hrp, values) && Spelled(hrp, values, ret)
  {
    PreparedSpelled(hrp, values);
    ret := [];
    for i := 0 to |hrp|
      invariant ret == HighParts(hrp)[..i]
    {
      ret := ret + [hrp[i] as int / 32];
    }
    ret := ret + [0];
    for i := 0 to |hrp|
      invariant ret == HighParts(hrp) + [0] + LowParts(hrp)[..i]
    {
      ret := ret + [hrp[i] as int % 32];
    }
    ret := ret + values;
  }

  /** VerifyChecksum. */
  method VerifyChecksum(hrp: string, values: seq<Symbol>) returns (r: Option<Encoding>)
    requires Ascii(hrp)
    ensures forall e :: r == Some(e) <==> Verifies(e, hrp, values)
  {
    hide Fold, Verifies;
    forall e ensures Verifies(e, hrp, values) <==> Fold(1, Prepared(hrp, values)) == EncodingConstant(e) {
      VerifiesIf(e, hrp, values);
    }
    var enc := PreparePolynomialCoefficients(hrp, values);
    var check := PolyMod(enc);
    if check == EncodingConstant(BECH32) { return Some(BECH32); }
    if check == EncodingConstant(BECH32M) { return Some(BECH32M); }
    return None;
  }

  /** The low n digits of a number. */
  function Digits(m: nat, n: nat): (r: seq<Symbol>)
    ensures |r| == n
  {
    if n == 0 then [] else Digits(m / 32, n - 1) + [m % 32]
  }

  lemma {:induction false} DigitsAre(m: nat, n: nat)
    requires m < Bound(n)
    ensures Number(Digits(m, n)) == m
  {
    if n > 0 { DigitsAre(m / 32, n - 1); }
  }

  /** The remainder six zeros leave, with the constant added. */
  function ChecksumWord(encoding: Encoding, hrp: string, values: seq<Symbol>): nat
    requires Ascii(hrp)
  {
    Xor(Fold(1, Prepared(hrp, values) + ZEROS), EncodingConstant(encoding))
  }

  function Checksum(encoding: Encoding, hrp: string, values: seq<Symbol>): (r: seq<Symbol>)
    requires Ascii(hrp)
    ensures |r| == CHECKSUM_SIZE
  {
    Digits(ChecksumWord(encoding, hrp, values), CHECKSUM_SIZE)
  }

  /** CreateChecksum. */
  method CreateChecksum(encoding: Encoding, hrp: string, values: seq<Symbol>) returns (ret: seq<Symbol>)
    requires Ascii(hrp)
    ensures ret == Checksum(encoding, hrp, values)
    ensures forall s | |s| == CHECKSUM_SIZE :: Verifies(encoding, hrp, values + s) <==> s == ret
  {
    hide Fold, Xor, Bound, Verifies;
    var enc := PreparePolynomialCoefficients(hrp, values);
    enc := enc + ZEROS;
    var c := PolyMod(enc);
    var mod := Xor(c, EncodingConstant(encoding));
    ret := [];
    for i := 0 to CHECKSUM_SIZE
      invariant ret == Digits(Shifted(mod, 6 - i), i)
    {
      ShiftedStep(mod, 5 - i);
      ret := ret + [Shifted(mod, 5 - i) % 32];
    }
    ShiftedNone(mod);
    forall s | |s| == CHECKSUM_SIZE ensures Verifies(encoding, hrp, values + s) <==> s == ret {
      ChecksumVerifies(encoding, hrp, values, s);
    }
  }

  /** m >> (5 * k). */
  function Shifted(m: nat, k: nat): nat {
    QuotientFits(m, Bound(k));
    m / Bound(k)
  }

  lemma ShiftedStep(m: nat, k: nat)
    ensures Shifted(m, k) / 32 == Shifted(m, k + 1)
  {
    var p := Bound(k);
    assert Bound(k + 1) == 32 * p;
    hide Bound;
    var q, r := m / p, m % p;
    assert m == q * p + r;
    var h, l := q / 32, q % 32;
    assert q == 32 * h + l;
    Distribute(32 * h, l, p);
    Associate(h, 32, p);
    ProductMono(l + 1, 32, p);
    Distribute(l, 1, p);
    ProductMono(0, l, p);
    IsRemainder(l * p + r, h, 32 * p, m);
  }

  lemma ShiftedNone(m: nat)
    ensures Shifted(m, 0) == m
  {
  }

  /** The checksum makes the string verify, and no other six symbols do. */
  lemma ChecksumVerifies(encoding: Encoding, hrp: string, values: seq<Symbol>, s: seq<Symbol>)
    requires Ascii(hrp) && |s| == CHECKSUM_SIZE
    ensures Verifies(encoding, hrp, values + s) <==> s == Checksum(encoding, hrp, values)
  {
    hide Fold, Xor, Verifies;
    VerifiesIf(encoding, hrp, values + s);
    var enc, sum := Prepared(hrp, values), Checksum(encoding, hrp, values);
    assert Prepared(hrp, values + s) == enc + s;
    ChecksumFits(enc, s, EncodingConstant(encoding));
    WordRange(enc, encoding);
    DigitsAre(ChecksumWord(encoding, hrp, values), 6);
    if Number(s) == Number(sum) { NumberInjective(s, sum); }
  }

  lemma WordRange(enc: seq<Symbol>, encoding: Encoding)
    ensures Xor(Fold(1, enc + ZEROS), EncodingConstant(encoding)) < Bound(6)
  {
    hide Step, Xor;
    var all := enc + ZEROS;
    StepRange(Fold(1, all[..|all| - 1]), all[|all| - 1]);
    XorBelow(Fold(1, all), EncodingConstant(encoding));
    assert Bound(6) == REMAINDERS;
  }

  /** Two equally long lists of coefficients that differ, but only within six consecutive ones, leave
      different remainders. */
  lemma WindowDetected(f: seq<Symbol>, g: seq<Symbol>, at: nat)
    requires |f| == |g| && f != g && forall i :: 0 <= i < |f| && f[i] != g[i] ==> at <= i < at + CHECKSUM_SIZE
    ensures Fold(1, f) != Fold(1, g)
  {
    hide Fold;
    var lo := if at <= |f| then at else |f|;
    var hi := if at + CHECKSUM_SIZE <= |f| then at + CHECKSUM_SIZE else |f|;
    Parted(f, lo, hi);
    Parted(g, lo, hi);
    assert f[..lo] == g[..lo] && f[hi..] == g[hi..];
    BurstDetected(f[..lo], f[lo..hi], g[lo..hi], f[hi..]);
  }

  lemma Parted(f: seq<Symbol>, lo: nat, hi: nat)
    requires lo <= hi <= |f|
    ensures f == f[..lo] + f[lo..hi] + f[hi..]
  {
  }

  /** Equally long value strings that differ only within six consecutive symbols never both verify. */
  lemma ErrorBurst(hrp: string, s: seq<Symbol>, t: seq<Symbol>, at: nat, encoding: Encoding)
    requires Ascii(hrp) && |s| == |t| && s != t
    requires forall i :: 0 <= i < |s| && s[i] != t[i] ==> at <= i < at + CHECKSUM_SIZE
    ensures !(Verifies(encoding, hrp, s) && Verifies(encoding, hrp, t))
  {
    hide Fold;
    var before := |hrp| + 1 + |hrp|;
    forall f, g | Spelled(hrp, s, f) && Spelled(hrp, t, g) ensures Fold(1, f) != Fold(1, g) {
      forall i | 0 <= i < |f| && f[i] != g[i] ensures before + at <= i < before + at + CHECKSUM_SIZE {
        if i < before { PreparedSpelled(hrp, s); PreparedSpelled(hrp, t); }
        if i >= before { assert f[before + (i - before)] == s[i - before] && g[before + (i - before)] == t[i - before]; }
      }
      var k :| 0 <= k < |s| && s[k] != t[k];
      assert f[before + k] != g[before + k];
      WindowDetected(f, g, before + at);
    }
  }

  /** Equally long human-readable parts whose coefficients differ only within six consecutive ones never
      both verify with the same symbols. */
  lemma HrpBurst(g: string, h: string, symbols: seq<Symbol>, p: seq<Symbol>, q: seq<Symbol>, at: nat, encoding: Encoding)
    requires Ascii(g) && Ascii(h) && |g| == |h| && g != h && Spelled(g, symbols, p) && Spelled(h, symbols, q)
    requires forall i :: 0 <= i < |p| && p[i] != q[i] ==> at <= i < at + CHECKSUM_SIZE
    ensures !(Verifies(encoding, g, symbols) && Verifies(encoding, h, symbols))
  {
    hide Fold;
    var k :| 0 <= k < |g| && g[k] != h[k];
    assert p[k] == g[k] as int / 32 && q[k] == h[k] as int / 32;
    assert p[|g| + 1 + k] == g[k] as int % 32 && q[|g| + 1 + k] == h[k] as int % 32;
    WindowDetected(p, q, at);
    hide Spelled, Prepared;
    PreparedSpelled(g, symbols);
    PreparedSpelled(h, symbols);
  }

  lemma SpelledLength(hrp: string, symbols: seq<Symbol>, f: seq<Symbol>)
    requires Spelled(hrp, symbols, f)
    ensures |f| == |hrp| + 1 + |hrp| + |symbols|
  {
  }

  /** Where the coefficients of two human-readable parts differ, so do the parts. */
  lemma SpelledApart(g: string, h: string, symbols: seq<Symbol>, p: seq<Symbol>, q: seq<Symbol>, i: nat)
    requires |g| == |h| && Spelled(g, symbols, p) && Spelled(h, symbols, q) && i < |p|
    ensures p[i] != q[i] ==>
              var n := |g|;
              if i < n then g[i] as int / 32 != h[i] as int / 32
              else n < i <= n + n && g[i - n - 1] as int % 32 != h[i - n - 1] as int % 32
  {
    var n := |g|;
    if n < i <= n + n { assert p[n + 1 + (i - n - 1)] == g[i - n - 1] as int % 32 && q[n + 1 + (i - n - 1)] == h[i - n - 1] as int % 32; }
    if n + n < i { assert p[n + 1 + n + (i - n - 1 - n)] == symbols[i - n - 1 - n] == q[n + 1 + n + (i - n - 1 - n)]; }
  }

  /** So it is with human-readable parts that differ only within six consecutive characters, each
      replaced by one of the same block of 32. */
  lemma HrpTypo(g: string, h: string, symbols: seq<Symbol>, at: nat, encoding: Encoding)
    requires Ascii(g) && Ascii(h) && |g| == |h| && g != h
    requires forall i :: 0 <= i < |g| && g[i] != h[i] ==> at <= i < at + CHECKSUM_SIZE && g[i] as int / 32 == h[i] as int / 32
    ensures !(Verifies(encoding, g, symbols) && Verifies(encoding, h, symbols))
  {
    hide Spelled, Prepared, Verifies;
    var p, q := Prepared(g, symbols), Prepared(h, symbols);
    PreparedSpelled(g, symbols);
    PreparedSpelled(h, symbols);
    SpelledLength(g, symbols, p);
    SpelledLength(h, symbols, q);
    forall i | 0 <= i < |p| && p[i] != q[i] ensures |g| + 1 + at <= i < |g| + 1 + at + CHECKSUM_SIZE {
      SpelledApart(g, h, symbols, p, q, i);
    }
    HrpBurst(g, h, symbols, p, q, |g| + 1 + at, encoding);
  }

  // ------------------------------------------------------------------ encoded strings

  function Chars(values: seq<Symbol>): (r: string)
    ensures |r| == |values|
  {
    seq(|values|, i requires 0 <= i < |values| => Charset(values[i]))
  }

  function Encoded(encoding: Encoding, hrp: string, values: seq<Symbol>): string
    requires Ascii(hrp)
  {
    hrp + [SEPARATOR] + Chars(values + Checksum(encoding, hrp, values))
  }

  /** A string holds a human-readable part, the separator and symbols, character by character. */
  ghost predicate Written(str: string, hrp: string, symbols: seq<Symbol>) {
    && |str| == |hrp| + 1 + |symbols|
    && (forall i :: 0 <= i < |hrp| ==> str[i] == hrp[i])
    && str[|hrp|] == '1'
    && (forall i :: 0 <= i < |symbols| ==> str[|hrp| + 1 + i] == CHARSET[symbols[i]])
  }

  /** A string holds a human-readable part and values, and six more symbols with which they verify. */
  ghost predicate Encodes(str: string, encoding: Encoding, hrp: string, values: seq<Symbol>) {
    exists sum :: |sum| == CHECKSUM_SIZE && Written(str, hrp, values + sum) && Verifies(encoding, hrp, values + sum)
  }

  lemma WrittenIs(str: string, hrp: string, symbols: seq<Symbol>)
    ensures Written(str, hrp, symbols) <==> str == hrp + [SEPARATOR] + Chars(symbols)
  {
    hide Charset;
    var s := hrp + [SEPARATOR] + Chars(symbols);
    forall v: Symbol ensures Charset(v) == CHARSET[v] { CharsetIs(v); }
    if Written(str, hrp, symbols) {
      forall i | 0 <= i < |str| ensures str[i] == s[i] {
        if i > |hrp| { assert str[|hrp| + 1 + (i - |hrp| - 1)] == CHARSET[symbols[i - |hrp| - 1]]; }
      }
    }
  }

  /** There is exactly one such string. */
  lemma EncodesExactly(str: string, encoding: Encoding, hrp: string, values: seq<Symbol>)
    requires Ascii(hrp)
    ensures Encodes(str, encoding, hrp, values) <==> str == Encoded(encoding, hrp, values)
  {
    hide Written, Verifies, Checksum, Charset;
    var sum := Checksum(encoding, hrp, values);
    ChecksumVerifies(encoding, hrp, values, sum);
    WrittenIs(str, hrp, values + sum);
    if s :| |s| == CHECKSUM_SIZE && Written(str, hrp, values + s) && Verifies(encoding, hrp, values + s) {
      ChecksumVerifies(encoding, hrp, values, s);
    }
  }

  predicate NoUpperCase(s: string) {
    forall i :: 0 <= i < |s| ==> s[i] < 'A' || s[i] > 'Z'
  }

  /** Encode. The source asserts that the human-readable part has no upper case. */
  method Encode(encoding: Encoding, hrp: string, values: seq<Symbol>) returns (ret: string)
    requires NoUpperCase(hrp) && Ascii(hrp)
    ensures ret == Encoded(encoding, hrp, values) && Encodes(ret, encoding, hrp, values)
  {
    hide Checksum, Charset, Encodes, Verifies;
    ret := hrp + [SEPARATOR];
    for i := 0 to |values|
      invariant ret == hrp + [SEPARATOR] + Chars(values)[..i]
    {
      ret := ret + [Charset(values[i])];
    }
    var checksum := CreateChecksum(encoding, hrp, values);
    for i := 0 to |checksum|
      invariant ret == hrp + [SEPARATOR] + Chars(values) + Chars(checksum)[..i]
    {
      ret := ret + [Charset(checksum[i])];
    }
    assert Chars(values) + Chars(checksum) == Chars(values + checksum);
    EncodesExactly(ret, encoding, hrp, values);
  }

  // ------------------------------------------------------------------------ decoding

  predicate IsLower(c: char) {
    'a' <= c <= 'z'
  }

  predicate IsUpper(c: char) {
    'A' <= c <= 'Z'
  }

  /** Printable throughout, and not of mixed case. */
  ghost predicate CharactersOk(str: string) {
    && (forall i :: 0 <= i < |str| ==> 33 <= str[i] as int <= 126)
    && !((exists i :: 0 <= i < |str| && IsLower(str[i])) && (exists i :: 0 <= i < |str| && IsUpper(str[i])))
  }

  predicate NoneLower(str: string, n: nat)
    requires n <= |str|
  {
    forall k :: 0 <= k < n ==> !IsLower(str[k])
  }

  predicate NoneUpper(str: string, n: nat)
    requires n <= |str|
  {
    forall k :: 0 <= k < n ==> !IsUpper(str[k])
  }

  /** The first letter among the first n characters is lower case. */
  ghost predicate LowerFirst(str: string, n: nat)
    requires n <= |str|
  {
    exists j :: 0 <= j < n && IsLower(str[j]) && NoneUpper(str, j)
  }

  ghost predicate UpperFirst(str: string, n: nat)
    requires n <= |str|
  {
    exists j :: 0 <= j < n && IsUpper(str[j]) && NoneLower(str, j)
  }

  /** A character that is not printable, or not of the case of the first letter. */
  ghost predicate Offends(str: string, i: nat)
    requires i < |str|
  {
    || !(33 <= str[i] as int <= 126)
    || (IsLower(str[i]) && UpperFirst(str, i))
    || (IsUpper(str[i]) && LowerFirst(str, i))
  }

  lemma {:induction false} FirstCase(str: string, n: nat)
    requires n <= |str|
    ensures LowerFirst(str, n) || NoneLower(str, n) || UpperFirst(str, n)
    ensures LowerFirst(str, n) || NoneUpper(str, n) || UpperFirst(str, n)
    ensures !(LowerFirst(str, n) && UpperFirst(str, n))
  {
    if n > 0 { FirstCase(str, n - 1); }
  }

  /** A string is refused exactly if some character of it offends. */
  lemma OffendersDecide(str: string)
    ensures CharactersOk(str) <==> forall i :: 0 <= i < |str| ==> !Offends(str, i)
  {
    if (exists i :: 0 <= i < |str| && IsLower(str[i])) && (exists i :: 0 <= i < |str| && IsUpper(str[i])) {
      var i :| 0 <= i < |str| && IsLower(str[i]);
      var j :| 0 <= j < |str| && IsUpper(str[j]);
      FirstCase(str, |str|);
      if LowerFirst(str, |str|) {
        var first :| 0 <= first < |str| && IsLower(str[first]) && NoneUpper(str, first);
        assert LowerFirst(str, j) && Offends(str, j);
      } else {
        var first :| 0 <= first < |str| && IsUpper(str[first]) && NoneLower(str, first);
        assert UpperFirst(str, i) && Offends(str, i);
      }
    } else if i :| 0 <= i < |str| && !(33 <= str[i] as int <= 126) {
      assert Offends(str, i);
    }
  }

  /** CheckCharacters: reports exactly the positions that rule a string out, in order. */
  method CheckCharacters(str: string) returns (ok: bool, errors: seq<nat>)
    ensures ok <==> CharactersOk(str)
    ensures ok <==> errors == []
    ensures forall i :: i in errors <==> 0 <= i < |str| && Offends(str, i)
    ensures forall j, k :: 0 <= j < k < |errors| ==> errors[j] < errors[k]
  {
    var lower, upper := false, false;
    errors := [];
    for i := 0 to |str|
      invariant lower <==> LowerFirst(str, i)
      invariant upper <==> UpperFirst(str, i)
      invariant forall k :: k in errors <==> 0 <= k < i && Offends(str, k)
      invariant forall k :: 0 <= k < |errors| ==> errors[k] < i
      invariant forall j, k :: 0 <= j < k < |errors| ==> errors[j] < errors[k]
    {
      FirstCase(str, i);
      FirstCase(str, i + 1);
      var c := str[i];
      if 'a' <= c <= 'z' {
        if upper {
          errors := errors + [i];
        } else {
          lower := true;
        }
      } else if 'A' <= c <= 'Z' {
        if lower {
          errors := errors + [i];
        } else {
          upper := true;
        }
      } else if c as int < 33 || c as int > 126 {
        errors := errors + [i];
      }
    }
    ok := errors == [];
    OffendersDecide(str);
    assert errors != [] ==> errors[0] in errors;
  }

  function Lowered(str: string): (r: string)
    ensures |r| == |str| && forall i :: 0 <= i < |str| ==> r[i] == LowerCase(str[i])
    ensures forall i :: 0 <= i < |str| ==> r[i] as int == str[i] as int + if 'A' <= str[i] <= 'Z' then 32 else 0
  {
    seq(|str|, i requires 0 <= i < |str| => LowerCase(str[i]))
  }

  /** A string is the encoding of something, up to being all upper case, within the limit. */
  ghost predicate Accepts(str: string, limit: nat, d: Decoded) {
    && CharactersOk(str) && |str| <= limit
    && |d.hrp| >= 1 && Ascii(d.hrp) && Encodes(Lowered(str), d.encoding, d.hrp, d.data)
  }

  /** The last separator of a string stands at pos, or it has none. */
  ghost predicate LastSeparator(str: string, pos: int) {
    && -1 <= pos < |str| && (pos >= 0 ==> str[pos] == SEPARATOR)
    && forall i :: pos < i < |str| ==> str[i] != SEPARATOR
  }

  /** std::string::rfind. */
  method FindLastSeparator(str: string) returns (pos: int)
    ensures LastSeparator(str, pos)
  {
    pos := |str| - 1;
    while pos >= 0 && str[pos] != SEPARATOR
      invariant -1 <= pos < |str| && forall i :: pos < i < |str| ==> str[i] != SEPARATOR
    {
      pos := pos - 1;
    }
  }

  /** The values of the characters after pos, as far as they have any. */
  ghost predicate Reads(str: string, pos: nat, values: seq<Symbol>) {
    pos + 1 + |values| <= |str| && forall i :: 0 <= i < |values| ==> CharsetRev(str[pos + 1 + i]) == values[i]
  }

  /** Decode accepts exactly the strings that encode something, and returns what they encode. */
  method Decode(str: string, limit: nat) returns (r: Option<Decoded>)
    ensures forall d :: r == Some(d) <==> Accepts(str, limit, d)
  {
    hide Accepts, CharactersOk, CharsetRev, Verifies;
    var ok, _ := CheckCharacters(str);
    if !ok {
      forall d ensures !Accepts(str, limit, d) { NeedsCharacters(str, limit, d); }
      return None;
    }
    var pos := FindLastSeparator(str);
    if |str| > limit {
      forall d ensures !Accepts(str, limit, d) { NeedsCharacters(str, limit, d); }
      return None;
    }
    if pos == -1 || pos == 0 || pos + CHECKSUM_SIZE >= |str| {
      forall d ensures !Accepts(str, limit, d) { NeedsShape(str, limit, d, pos); }
      return None;
    }
    var values: seq<Symbol> := [];
    for i := 0 to |str| - 1 - pos
      invariant |values| == i && Reads(str, pos, values)
    {
      var rev := CharsetRev(str[i + pos + 1]);
      if rev == -1 {
        forall d ensures !Accepts(str, limit, d) { NeedsValues(str, limit, d, pos, i); }
        return None;
      }
      CharsetRevInverse(str[i + pos + 1]);
      values := values + [rev];
    }
    var hrp := Lowered(str[..pos]);
    HrpAscii(str, pos);
    var result := VerifyChecksum(hrp, values);
    var data, sum := values[..|values| - CHECKSUM_SIZE], values[|values| - CHECKSUM_SIZE..];
    assert values == data + sum;
    forall e ensures Accepts(str, limit, Decoded(e, hrp, data)) <==> result == Some(e) {
      AcceptedIf(str, limit, e, pos, values);
    }
    forall d | Accepts(str, limit, d) ensures d == Decoded(d.encoding, hrp, data) {
      AcceptedIs(str, limit, d, pos, values);
    }
    match result
    case None => return None;
    case Some(e) => return Some(Decoded(e, hrp, data));
  }

  lemma NeedsCharacters(str: string, limit: nat, d: Decoded)
    ensures Accepts(str, limit, d) ==> CharactersOk(str) && |str| <= limit
  {
  }

  lemma HrpAscii(str: string, pos: nat)
    requires CharactersOk(str) && pos <= |str|
    ensures Ascii(Lowered(str[..pos]))
  {
  }

  lemma LowerSeparator(c: char)
    ensures LowerCase(c) == SEPARATOR <==> c == SEPARATOR
  {
  }

  /** In an accepted string the last separator ends the human-readable part. */
  lemma NeedsShape(str: string, limit: nat, d: Decoded, pos: int)
    requires LastSeparator(str, pos)
    ensures Accepts(str, limit, d) ==>
              Ascii(d.hrp) && pos == |d.hrp| > 0 && |str| == pos + 1 + |d.data| + CHECKSUM_SIZE && Lowered(str[..pos]) == d.hrp &&
              Reads(str, pos, d.data + Checksum(d.encoding, d.hrp, d.data))
  {
    if Accepts(str, limit, d) {
      hide CharactersOk, Checksum, CharsetRev, Charset, LowerCase, LastSeparator, Reads, Encodes;
      EncodesExactly(Lowered(str), d.encoding, d.hrp, d.data);
      ShapeOf(str, d.hrp, d.data + Checksum(d.encoding, d.hrp, d.data), pos);
    }
  }

  lemma ShapeOf(str: string, hrp: string, values: seq<Symbol>, pos: int)
    requires LastSeparator(str, pos) && Lowered(str) == hrp + [SEPARATOR] + Chars(values)
    ensures pos == |hrp| && Lowered(str[..pos]) == hrp && Reads(str, pos, values)
  {
    hide CharsetRev, Charset, LowerCase;
    var n := |hrp|;
    forall i | 0 <= i < |values| ensures str[n + 1 + i] != SEPARATOR && CharsetRev(str[n + 1 + i]) == values[i] {
      SymbolAt(str, hrp, values, i);
    }
    assert pos == n by { SeparatorAt(str, hrp, values, pos); }
    assert Lowered(str[..n]) == hrp by { LoweredPrefix(str, hrp, n); }
  }

  lemma SymbolAt(str: string, hrp: string, values: seq<Symbol>, i: nat)
    requires Lowered(str) == hrp + [SEPARATOR] + Chars(values) && i < |values|
    ensures str[|hrp| + 1 + i] != SEPARATOR && CharsetRev(str[|hrp| + 1 + i]) == values[i]
  {
    hide CharsetRev, Charset, LowerCase;
    assert Lowered(str)[|hrp| + 1 + i] == Charset(values[i]);
    ReadsBack(str[|hrp| + 1 + i], values[i]);
  }

  lemma SeparatorAt(str: string, hrp: string, values: seq<Symbol>, pos: int)
    requires LastSeparator(str, pos) && Lowered(str) == hrp + [SEPARATOR] + Chars(values)
    ensures pos == |hrp|
  {
    hide CharsetRev, Charset, LowerCase;
    var n := |hrp|;
    assert str[n] == SEPARATOR by { LowerSeparator(str[n]); assert Lowered(str)[n] == SEPARATOR; }
    forall i | n < i < |str| ensures str[i] != SEPARATOR {
      SymbolAt(str, hrp, values, i - n - 1);
    }
  }

  lemma LoweredPrefix(str: string, hrp: string, n: nat)
    requires n == |hrp| <= |str| && hrp <= Lowered(str)
    ensures Lowered(str[..n]) == hrp
  {
    hide LowerCase;
  }

  lemma ReadsBack(c: char, v: Symbol)
    requires LowerCase(c) == Charset(v)
    ensures c != SEPARATOR && CharsetRev(c) == v
  {
    hide CharsetRev, Charset, LowerCase;
    LowerSeparator(c);
    CharsetPlain(v);
    CharsetInverse(v);
    CharsetRevLower(c);
  }

  lemma NeedsValues(str: string, limit: nat, d: Decoded, pos: nat, i: nat)
    requires LastSeparator(str, pos) && pos + 1 + i < |str|
    ensures Accepts(str, limit, d) ==> CharsetRev(str[pos + 1 + i]) != -1
  {
    hide Accepts, CharsetRev, Checksum;
    NeedsShape(str, limit, d, pos);
    if Accepts(str, limit, d) {
      var values := d.data + Checksum(d.encoding, d.hrp, d.data);
      assert CharsetRev(str[pos + 1 + i]) == values[i];
    }
  }

  lemma ReadsUnique(str: string, pos: nat, s: seq<Symbol>, t: seq<Symbol>)
    requires Reads(str, pos, s) && Reads(str, pos, t) && |s| == |t|
    ensures s == t
  {
    hide CharsetRev;
  }

  lemma AcceptedIs(str: string, limit: nat, d: Decoded, pos: nat, values: seq<Symbol>)
    requires Accepts(str, limit, d) && LastSeparator(str, pos) && Reads(str, pos, values) && |values| == |str| - 1 - pos >= CHECKSUM_SIZE
    ensures d.hrp == Lowered(str[..pos]) && d.data == values[..|values| - CHECKSUM_SIZE]
  {
    hide Accepts, CharsetRev, Checksum;
    NeedsShape(str, limit, d, pos);
    ReadsUnique(str, pos, values, d.data + Checksum(d.encoding, d.hrp, d.data));
  }

  /** With everything else in order, a string is accepted exactly if its checksum verifies. */
  lemma AcceptedIf(str: string, limit: nat, e: Encoding, pos: nat, values: seq<Symbol>)
    requires CharactersOk(str) && |str| <= limit && LastSeparator(str, pos) && 0 < pos
    requires Reads(str, pos, values) && |values| == |str| - 1 - pos >= CHECKSUM_SIZE && Ascii(Lowered(str[..pos]))
    ensures Accepts(str, limit, Decoded(e, Lowered(str[..pos]), values[..|values| - CHECKSUM_SIZE])) <==>
            Verifies(e, Lowered(str[..pos]), values)
  {
    hide CharactersOk, CharsetRev, Checksum, Verifies, Encodes, LowerCase, Charset;
    var hrp, n := Lowered(str[..pos]), |values| - CHECKSUM_SIZE;
    var data, sum := values[..n], values[n..];
    assert values == data + sum;
    ChecksumVerifies(e, hrp, data, sum);
    LowerSeparator(SEPARATOR);
    forall i | 0 <= i < |values| ensures Charset(values[i]) == LowerCase(str[pos + 1 + i]) {
      CharsetRevInverse(str[pos + 1 + i]);
    }
    assert Lowered(str) == hrp + [SEPARATOR] + Chars(values);
    var d := Decoded(e, hrp, data);
    EncodesExactly(Lowered(str), e, hrp, data);
    if Accepts(str, limit, d) {
      NeedsShape(str, limit, d, pos);
      ReadsUnique(str, pos, values, data + Checksum(e, hrp, data));
    }
  }

  /** Everything encoded from a non-empty printable lower-case part, '1' included, is accepted within
      the limit, as itself. */
  lemma EncodedAccepted(encoding: Encoding, hrp: string, values: seq<Symbol>, limit: nat)
    requires |hrp| >= 1 && NoUpperCase(hrp) && forall i :: 0 <= i < |hrp| ==> 33 <= hrp[i] as int <= 126
    requires |hrp| + 1 + |values| + CHECKSUM_SIZE <= limit
    ensures Accepts(Encoded(encoding, hrp, values), limit, Decoded(encoding, hrp, values))
  {
    hide Checksum, Charset, Encodes;
    var all, str := values + Checksum(encoding, hrp, values), Encoded(encoding, hrp, values);
    forall i | 0 <= i < |str| ensures 33 <= str[i] as int <= 126 && !IsUpper(str[i]) && LowerCase(str[i]) == str[i] {
      if i > |hrp| { CharsetPlain(all[i - |hrp| - 1]); }
    }
    assert Lowered(str) == str;
    EncodesExactly(str, encoding, hrp, values);
  }

  /** Decoding what was encoded gives it back. */
  method EncodeDecode(encoding: Encoding, hrp: string, values: seq<Symbol>, limit: nat) returns (r: Option<Decoded>)
    requires |hrp| >= 1 && NoUpperCase(hrp) && forall i :: 0 <= i < |hrp| ==> 33 <= hrp[i] as int <= 126
    requires |hrp| + 1 + |values| + CHECKSUM_SIZE <= limit
    ensures r == Some(Decoded(encoding, hrp, values))
  {
    hide Accepts, Encoded, Encodes;
    var str := Encode(encoding, hrp, values);
    EncodedAccepted(encoding, hrp, values, limit);
    r := Decode(str, limit);
  }
}
