/** The compact difficulty encoding (src/arith_uint256.cpp:175-216) and the work of a block
    (src/chain.cpp:131-144).

    A compact number is a 32-bit word: 8 bits of exponent, a sign bit and 23 bits of mantissa. It
    stands for mantissa * 256^(exponent - 3), rounded down. */
module Compact {
  import opened Powers
  import opened BaseUint

  const WIDTH := 8
  const SIGN_BIT := 0x80_0000
  const WORD := 0x100_0000

  // -------------------------------------------------------------- what it stands for

  function Exponent(c: Limb): nat {
    c / WORD
  }

  function Mantissa(c: Limb): nat {
    c % SIGN_BIT
  }

  predicate SignSet(c: Limb) {
    (c / SIGN_BIT) % 2 == 1
  }

  /** mantissa * 256^(exponent - 3), rounded down. */
  ghost function Magnitude(c: Limb): nat {
    Scaled(Mantissa(c), Exponent(c))
  }

  ghost function Scaled(mantissa: nat, exponent: nat): nat {
    (mantissa * Pow2(8 * exponent)) / WORD
  }

  /** How many bytes a number takes. */
  ghost function ByteLength(v: nat): nat {
    if v == 0 then 0 else 1 + ByteLength(v / 256)
  }

  /** The three leading bytes of a number, as one word. */
  ghost function Leading(v: nat): nat {
    Quot(v * WORD, Pow2(8 * ByteLength(v)))
  }

  /** The mantissa and the exponent of the compact form. */
  ghost function MantissaOf(v: nat): nat {
    if Leading(v) < SIGN_BIT then Leading(v) else Leading(v) / 256
  }

  ghost function ExponentOf(v: nat): nat {
    if Leading(v) < SIGN_BIT then ByteLength(v) else ByteLength(v) + 1
  }

  // ------------------------------------------------------------------- the methods

  /** SetCompact: the number, wrapped, and whether it is negative or does not fit in 256 bits. */
  method SetCompact(x: BaseUint, nCompact: Limb) returns (negative: bool, overflow: bool)
    requires x.pn.Length == WIDTH
    modifies x.pn
    ensures x.Value() == x.Wrapped(Magnitude(nCompact))
    ensures negative <==> SignSet(nCompact) && Magnitude(nCompact) != 0
    ensures overflow <==> Magnitude(nCompact) >= Pow2(256)
  {
    hide Pow2, Val, Weight, Mod;
    var nSize := nCompact / WORD;
    var nWord: Limb := nCompact % SIGN_BIT;
    if nSize <= 3 {
      SmallExponent(nWord, nSize);
      nWord := nWord / Pow2(8 * (3 - nSize));
      x.Set(nWord);
      SmallFits(x, nWord);
    } else {
      LargeExponent(nWord, nSize);
      x.Set(nWord);
      x.ShiftLeft(8 * (nSize - 3));
    }
    negative := nWord != 0 && (nCompact / SIGN_BIT) % 2 == 1;
    overflow := nWord != 0 && (nSize > 34 || (nWord > 0xff && nSize > 33) || (nWord > 0xffff && nSize > 32));
    if nSize > 3 { OverflowExact(nWord, nSize); }
  }

  lemma SmallExponent(m: nat, e: nat)
    requires e <= 3 && m < SIGN_BIT
    ensures Scaled(m, e) == m / Pow2(8 * (3 - e)) < SIGN_BIT && SIGN_BIT < Pow2(256)
  {
    Pow2Add(8 * e, 8 * (3 - e));
    Pow2Of24();
    Pow2Mono(24, 256);
    var p, q := Pow2(8 * e), Pow2(8 * (3 - e));
    hide Pow2;
    assert p * q == WORD;
    ScaleDown(m, p, q);
    QuotientFits(m, q);
  }

  lemma ScaleDown(m: int, p: int, q: int)
    requires m >= 0 && p > 0 && q > 0 && p * q == WORD
    ensures (m * p) / WORD == m / q
  {
    var h, l := m / q, m % q;
    assert m == h * q + l;
    Distribute(h * q, l, p);
    Associate(h, q, p);
    ProductMono(l + 1, q, p);
    Distribute(l, 1, p);
    ProductMono(0, l, p);
    IsRemainder(l * p, h, WORD, m * p);
  }

  lemma Pow2Of24()
    ensures Pow2(24) == WORD && Pow2(8) == 256 && Pow2(16) == 0x1_0000
  {
    assert Pow2(8) == 256;
    Pow2Add(8, 8);
    Pow2Add(8, 16);
  }

  lemma LargeExponent(m: nat, e: nat)
    requires e >= 3
    ensures Scaled(m, e) == m * Pow2(8 * (e - 3)) && Scaled(m, e) * WORD == m * Pow2(8 * e)
  {
    Pow2Add(8 * (e - 3), 24);
    Pow2Of24();
    assert 8 * e == 8 * (e - 3) + 24;
    var p := Pow2(8 * (e - 3));
    hide Pow2;
    Associate(m, p, WORD);
    IsRemainder(0, m * p, WORD, m * (p * WORD));
  }

  lemma SmallFits(x: BaseUint, v: nat)
    requires x.pn.Length == WIDTH && v < SIGN_BIT
    ensures x.Wrapped(v) == v
  {
    Pow2Mono(24, 256);
    Pow2Of24();
    hide Pow2;
    IsRemainder(v, 0, x.Modulus(), v);
  }

  /** The three thresholds of the overflow flag are exactly the ones where a mantissa leaves 256 bits. */
  lemma OverflowExact(m: nat, e: nat)
    requires m < SIGN_BIT && e > 3
    ensures (m != 0 && (e > 34 || (m > 0xff && e > 33) || (m > 0xffff && e > 32))) <==> m * Pow2(8 * (e - 3)) >= Pow2(256)
  {
    hide Pow2;
    var p := Pow2(8 * (e - 3));
    Pow2Of24();
    if e > 34 {
      Pow2Mono(256, 8 * (e - 3));
      if m >= 1 { ProductMono(1, m, p); }
    } else if e == 34 {
      Pow2Add(8, 248);
      Threshold(m, 256, p);
    } else if e == 33 {
      Pow2Add(16, 240);
      Threshold(m, 0x1_0000, p);
    } else {
      Pow2Add(24, 232);
      Pow2Mono(8 * (e - 3), 232);
      NeverReaches(m, p, Pow2(232));
    }
  }

  lemma NeverReaches(m: int, p: int, q: int)
    requires 0 <= m < WORD && 0 < p <= q
    ensures m * p < WORD * q
  {
    ProductMono(m + 1, WORD, p);
    Distribute(m, 1, p);
    ProductMono(p, q, WORD);
  }

  lemma Threshold(m: int, t: int, p: int)
    requires p > 0
    ensures m >= t <==> m * p >= t * p
  {
    if m >= t {
      ProductMono(t, m, p);
    } else {
      ProductMono(m + 1, t, p);
      Distribute(m, 1, p);
    }
  }

  /** GetCompact: the leading bytes and their place, shifted on by a byte if they would set the sign bit. */
  method GetCompact(x: BaseUint, fNegative: bool) returns (nCompact: Limb)
    requires x.pn.Length == WIDTH
    ensures Mantissa(nCompact) == MantissaOf(x.Value()) && Exponent(nCompact) == ExponentOf(x.Value())
    ensures SignSet(nCompact) <==> fNegative && MantissaOf(x.Value()) != 0
  {
    hide Pow2, Val, Weight, Leading, ByteLength, Or;
    var nSize, low := GetLeading(x);
    if (low / SIGN_BIT) % 2 == 1 {
      low := low / 256;
      nSize := nSize + 1;
    }
    nCompact := Pack(low, nSize, fNegative);
  }

  /** The end of GetCompact: mantissa, exponent and sign in one word. A zero has no sign. */
  method Pack(low: Limb, nSize: nat, fNegative: bool) returns (nCompact: Limb)
    requires low < SIGN_BIT && nSize < 256
    ensures Mantissa(nCompact) == low && Exponent(nCompact) == nSize && (SignSet(nCompact) <==> fNegative && low != 0)
  {
    hide Or;
    PackWord(nSize, low);
    nCompact := Or(low, nSize * WORD);
    if fNegative && nCompact % SIGN_BIT != 0 {
      PackSign(nSize, low);
      nCompact := Or(nCompact, SIGN_BIT);
    } else {
      OrZero(nCompact);
      nCompact := Or(nCompact, 0);
    }
  }

  method GetLeading(x: BaseUint) returns (nSize: nat, low: Limb)
    requires x.pn.Length == WIDTH
    ensures nSize == ByteLength(x.Value()) <= 32 && low == Leading(x.Value()) < WORD
  {
    hide Pow2, Val, Weight, Mod, Quot, Leading, ByteLength;
    ghost var v := x.Value();
    var bits := x.Bits();
    nSize := (bits + 7) / 8;
    BytesOfBits(v, bits);
    LeadingBytes(v);
    if nSize <= 3 {
      var low64 := x.GetLow64();
      SmallLeading(v);
      assert low64 == v;
      var shifted := (low64 as int) * Pow2(8 * (3 - nSize));
      assert shifted == Leading(v);
      low := shifted % BASE;
    } else {
      var bn := new BaseUint.Copy(x);
      bn.ShiftRight(8 * (nSize - 3));
      LargeLeading(v);
      var low64 := bn.GetLow64();
      assert low64 == Leading(v);
      low := low64 % BASE;
    }
  }

  lemma {:induction false} ByteLengthIs(v: nat)
    ensures v < Pow2(8 * ByteLength(v)) && (v > 0 ==> ByteLength(v) > 0 && v >= Pow2(8 * (ByteLength(v) - 1)))
  {
    if v > 0 {
      ByteLengthIs(v / 256);
      var n := ByteLength(v / 256);
      Pow2Of24();
      Pow2Add(8, 8 * n);
      if n > 0 { Pow2Add(8, 8 * (n - 1)); }
      hide Pow2;
      assert 8 * (n + 1) == 8 + 8 * n;
    }
  }

  lemma BytesOfBits(v: nat, bits: nat)
    requires if bits == 0 then v == 0 else Pow2(bits - 1) <= v < Pow2(bits)
    requires bits <= 256
    ensures (bits + 7) / 8 == ByteLength(v) <= 32
  {
    hide Pow2;
    var n, size := (bits + 7) / 8, ByteLength(v);
    ByteLengthIs(v);
    hide ByteLength;
    Pow2Mono(bits, 8 * n);
    if n > 0 { Pow2Mono(8 * (n - 1), bits - 1); }
    if size > n { Pow2Mono(8 * n, 8 * (size - 1)); }
    if n > size { Pow2Mono(8 * size, 8 * (n - 1)); }
  }

  /** The leading bytes are three, of which the first is not zero. */
  lemma LeadingBytes(v: nat)
    ensures Leading(v) < WORD && (v > 0 ==> Leading(v) >= 0x1_0000) && (v == 0 ==> Leading(v) == 0)
  {
    var size := ByteLength(v);
    ByteLengthIs(v);
    Pow2Of24();
    if v > 0 {
      Pow2Add(8, 8 * (size - 1));
      assert 8 * size == 8 + 8 * (size - 1);
    }
    hide Pow2, Quot;
    QuotBounds(v * WORD, Pow2(8 * size), if v > 0 then 0x1_0000 else 0, if v > 0 then WORD else 1);
  }

  lemma SmallLeading(v: nat)
    requires ByteLength(v) <= 3
    ensures v < WORD && Leading(v) == v * Pow2(8 * (3 - ByteLength(v))) < WORD
  {
    hide Quot, Pow2, ByteLength;
    var size := ByteLength(v);
    ByteLengthIs(v);
    LeadingBytes(v);
    Pow2Of24();
    Pow2Mono(8 * size, 24);
    Pow2Add(8 * size, 8 * (3 - size));
    SmallNumbers(v, Pow2(8 * size), Pow2(8 * (3 - size)));
  }

  lemma SmallNumbers(v: nat, p: nat, q: nat)
    requires p > 0 && p * q == WORD
    ensures Quot(v * WORD, p) == v * q
  {
    Associate(v, q, p);
    IsRemainder(0, v * q, p, v * WORD);
  }

  lemma LargeLeading(v: nat)
    requires 3 < ByteLength(v)
    ensures Leading(v) == Quot(v, Pow2(8 * (ByteLength(v) - 3)))
  {
    var size := ByteLength(v);
    hide ByteLength;
    Pow2Of24();
    Pow2Add(24, 8 * (size - 3));
    assert 8 * size == 24 + 8 * (size - 3);
    hide Pow2;
    CancelWord(v, Pow2(8 * (size - 3)));
  }

  lemma CancelWord(v: int, p: int)
    requires v >= 0 && p > 0
    ensures Quot(v * WORD, WORD * p) == Quot(v, p)
  {
    var q, r := v / p, v % p;
    assert v == q * p + r;
    assert v * WORD == r * WORD + q * (WORD * p) by {
      Distribute(q * p, r, WORD);
      Associate(q, p, WORD);
    }
    IsRemainder(r * WORD, q, WORD * p, v * WORD);
  }

  lemma PackWord(size: nat, low: nat)
    requires low < SIGN_BIT && size < 256
    ensures Or(low, size * WORD) == size * WORD + low
  {
    Pow2Of24();
    OrDisjoint(size * WORD, low, 24);
  }

  lemma PackSign(size: nat, low: nat)
    requires low < SIGN_BIT && size < 256
    ensures Or(size * WORD + low, SIGN_BIT) == size * WORD + SIGN_BIT + low
  {
    hide Pow2, Or;
    assert Pow2(23) == SIGN_BIT by {
      Pow2Of24();
      Pow2Next(23);
    }
    assert Pow2(1) == 2 by {
      Pow2Zero();
      Pow2Next(0);
    }
    OrSplit(2 * size, low, 1, 0, 23);
    OrDisjoint(2 * size, 1, 1);
    OrZero(low);
  }

  // ------------------------------------------------------------------ what it keeps

  lemma CompactParts(v: nat)
    ensures MantissaOf(v) < SIGN_BIT && (v > 0 ==> MantissaOf(v) >= 0x8000)
    ensures MantissaOf(v) == Quot(v * WORD, Pow2(8 * ExponentOf(v)))
  {
    LeadingBytes(v);
    var size := ByteLength(v);
    Pow2Of24();
    Pow2Add(8, 8 * size);
    hide Pow2, ByteLength;
    assert 8 * (size + 1) == 8 + 8 * size;
    if Leading(v) >= SIGN_BIT { QuotTwice(v * WORD, Pow2(8 * size)); }
  }

  lemma QuotTwice(x: int, p: int)
    requires x >= 0 && p > 0
    ensures Quot(x, p) / 256 == Quot(x, 256 * p)
  {
    var q, r := x / p, x % p;
    assert x == q * p + r;
    var h, l := q / 256, q % 256;
    assert q == 256 * h + l;
    Distribute(256 * h, l, p);
    Associate(h, 256, p);
    ProductMono(l + 1, 256, p);
    Distribute(l, 1, p);
    ProductMono(0, l, p);
    IsRemainder(l * p + r, h, 256 * p, x);
  }

  /** What the compact form of a number stands for. */
  ghost function Rounded(v: nat): nat {
    Scaled(MantissaOf(v), ExponentOf(v))
  }

  lemma ScaledExact(v: nat)
    ensures Rounded(v) * WORD == MantissaOf(v) * Pow2(8 * ExponentOf(v))
  {
    hide MantissaOf, ExponentOf, Pow2;
    var w, e := MantissaOf(v), ExponentOf(v);
    CompactParts(v);
    if e >= 3 {
      LargeExponent(w, e);
    } else {
      Pow2Of24();
      Pow2Add(8 * e, 24 - 8 * e);
      ExactNumbers(v, w, Pow2(8 * e), Pow2(24 - 8 * e));
    }
  }

  lemma ExactNumbers(v: int, w: int, p: int, q: int)
    requires v >= 0 && p > 0 && p * q == WORD && w == Quot(v * WORD, p)
    ensures w * p == v * WORD && ((w * p) / WORD) * WORD == w * p
  {
    Associate(v, q, p);
    IsRemainder(0, v * q, p, v * WORD);
  }

  /** Encoding rounds down, and loses less than one part in 2^15 of what is left. */
  lemma CompactLosesLittle(v: nat)
    ensures Rounded(v) <= v && (v > 0 ==> (v - Rounded(v)) * 0x8000 < Rounded(v))
  {
    hide MantissaOf, ExponentOf, Pow2, Scaled;
    ScaledExact(v);
    CompactParts(v);
    LossNumbers(v, Rounded(v), MantissaOf(v), Pow2(8 * ExponentOf(v)));
  }

  lemma LossNumbers(v: int, y: int, w: int, p: int)
    requires v >= 0 && p > 0 && w == Quot(v * WORD, p) && y * WORD == w * p && (v > 0 ==> w >= 0x8000)
    ensures y <= v && (v > 0 ==> (v - y) * 0x8000 < y)
  {
    var r := (v * WORD) % p;
    assert v * WORD == w * p + r;
    assert (v - y) * WORD == r < p;
    if v > 0 { ProductMono(0x8000, w, p); }
  }

  lemma ByteLengthUnique(v: nat, n: nat)
    requires n > 0 && Pow2(8 * (n - 1)) <= v < Pow2(8 * n)
    ensures ByteLength(v) == n
  {
    ByteLengthIs(v);
    var size := ByteLength(v);
    hide ByteLength, Pow2;
    if size > n { Pow2Mono(8 * n, 8 * (size - 1)); }
    if n > size { Pow2Mono(8 * size, 8 * (n - 1)); }
  }

  /** A number with given leading bytes. */
  lemma LeadingIs(y: nat, word: nat, n: nat)
    requires n > 0 && y * WORD == word * Pow2(8 * n) && 0x1_0000 <= word < WORD
    ensures ByteLength(y) == n && Leading(y) == word
  {
    Pow2Of24();
    Pow2Add(8, 8 * (n - 1));
    assert 8 * n == 8 + 8 * (n - 1);
    assert Pow2(8 * (n - 1)) <= y < Pow2(8 * n) by {
      hide Pow2;
      ProductMono(0x1_0000, word, Pow2(8 * n));
      ProductMono(word + 1, WORD, Pow2(8 * n));
      Distribute(word, 1, Pow2(8 * n));
    }
    ByteLengthUnique(y, n);
    hide Pow2, ByteLength, Quot;
    IsRemainder(0, word, Pow2(8 * n), y * WORD);
  }

  /** Encoding what an encoding stands for gives the same encoding. */
  lemma CompactStable(v: nat)
    ensures MantissaOf(Rounded(v)) == MantissaOf(v) && ExponentOf(Rounded(v)) == ExponentOf(v)
  {
    hide Rounded, Leading, ByteLength, Pow2;
    LeadingBytes(v);
    CompactParts(v);
    ScaledExact(v);
    CompactLosesLittle(v);
    ByteLengthIs(v);
    if v > 0 {
      StableLeading(Rounded(v), MantissaOf(v), ExponentOf(v));
    }
  }

  /** The leading bytes of a number given by mantissa and exponent. */
  lemma StableLeading(y: nat, w: nat, e: nat)
    requires y * WORD == w * Pow2(8 * e) && 0x8000 <= w < SIGN_BIT && e >= (if w >= 0x1_0000 then 1 else 2)
    ensures if w >= 0x1_0000 then ByteLength(y) == e && Leading(y) == w else ByteLength(y) == e - 1 && Leading(y) == w * 256
  {
    hide Leading, ByteLength, Pow2;
    if w >= 0x1_0000 {
      LeadingIs(y, w, e);
    } else {
      Pow2Of24();
      Pow2Add(8, 8 * (e - 1));
      assert 8 * e == 8 + 8 * (e - 1);
      Associate(w, 256, Pow2(8 * (e - 1)));
      LeadingIs(y, w * 256, e - 1);
    }
  }

  /** SetCompact undoes GetCompact up to that rounding: never negative, never overflowing. */
  method Recode(x: BaseUint) returns (nCompact: Limb, y: BaseUint, negative: bool, overflow: bool)
    requires x.pn.Length == WIDTH
    ensures fresh(y) && fresh(y.pn) && y.pn.Length == WIDTH
    ensures !negative && !overflow && y.Value() <= x.Value()
    ensures x.Value() > 0 ==> (x.Value() - y.Value()) * 0x8000 < y.Value()
    ensures MantissaOf(y.Value()) == Mantissa(nCompact) && ExponentOf(y.Value()) == Exponent(nCompact)
  {
    hide Val, Weight, MantissaOf, ExponentOf, Rounded, Pow2, Mod;
    ghost var v := x.Value();
    nCompact := GetCompact(x, false);
    y := new BaseUint(WIDTH);
    negative, overflow := SetCompact(y, nCompact);
    RoundedIs(v, nCompact);
    CompactLosesLittle(v);
    CompactStable(v);
    ValBound(x.pn[..]);
    WidthIs256(y);
    IsRemainder(Rounded(v), 0, y.Modulus(), Rounded(v));
  }

  lemma RoundedIs(v: nat, c: Limb)
    requires Mantissa(c) == MantissaOf(v) && Exponent(c) == ExponentOf(v)
    ensures Magnitude(c) == Rounded(v)
  {
  }

  lemma WidthIs256(x: BaseUint)
    requires x.pn.Length == WIDTH
    ensures x.Modulus() == Weight(WIDTH) == Pow2(256)
  {
  }

  // ------------------------------------------------------------------- block proof

  /** 2^256 / (target + 1), rounded down: the expected number of hashes for a target. */
  ghost function Work(target: nat): nat {
    Quot(Pow2(256), target + 1)
  }

  /** GetBlockProof: zero for a target that is negative, zero or too large, and the work otherwise. */
  method GetBlockProof(nBits: Limb) returns (proof: BaseUint)
    ensures fresh(proof) && fresh(proof.pn) && proof.pn.Length == WIDTH
    ensures proof.Value() ==
            if SignSet(nBits) || Magnitude(nBits) == 0 || Magnitude(nBits) >= Pow2(256) then 0 else Work(Magnitude(nBits))
  {
    hide Val, Weight, Pow2, Mod, Quot;
    ghost var t := Magnitude(nBits);
    var bnTarget := new BaseUint(WIDTH);
    WidthIs256(bnTarget);
    var fNegative, fOverflow := SetCompact(bnTarget, nBits);
    if !fOverflow { IsRemainder(t, 0, Pow2(256), t); }
    var isZero := bnTarget.EqualTo(0);
    if fNegative || fOverflow || isZero {
      proof := new BaseUint(WIDTH);
      return;
    }
    proof := bnTarget.Complement();
    var divisor := new BaseUint.Copy(bnTarget);
    divisor.AddAssign64(1);
    TargetLeavesRoom(nBits);
    IsRemainder(t + 1, 0, Pow2(256), t + 1);
    var ok := proof.DivAssign(divisor);
    proof.AddAssign64(1);
    WorkIs(t);
  }

  /** A target has at most 23 significant bits, so adding one never wraps. */
  lemma TargetLeavesRoom(c: Limb)
    requires Magnitude(c) < Pow2(256)
    ensures Magnitude(c) + 1 < Pow2(256)
  {
    hide Pow2, Scaled;
    var m, e := Mantissa(c), Exponent(c);
    if e <= 3 {
      SmallExponent(m, e);
    } else {
      LargeExponent(m, e);
      var k: nat := 8 * (e - 3) - 1;
      Pow2Next(k);
      Pow2Next(255);
      Twice(m, Pow2(k));
    }
  }

  /** The expression the source uses because 2^256 itself does not fit. */
  lemma WorkIs(t: nat)
    requires 1 <= t && t + 1 < Pow2(256)
    ensures Quot(Pow2(256) - 1 - t, t + 1) + 1 == Work(t) && Mod(Work(t), Pow2(256)) == Work(t)
  {
    hide Pow2;
    var m := Pow2(256);
    var q, r := (m - 1 - t) / (t + 1), (m - 1 - t) % (t + 1);
    assert m - 1 - t == q * (t + 1) + r;
    Distribute(q, 1, t + 1);
    IsRemainder(r, q + 1, t + 1, m);
    ProductMono(2, t + 1, q + 1);
    ProductMono(0, m - 1 - t, 1);
    QuotientFits(m - 1 - t, t + 1);
    IsRemainder(q + 1, 0, m, q + 1);
  }

  /** A larger target never yields more work. */
  lemma WorkMonotone(t: nat, u: nat)
    requires t <= u
    ensures Work(u) <= Work(t)
  {
    var m := Pow2(256);
    hide Pow2;
    var q, p := m / (u + 1), m / (t + 1);
    assert m == q * (u + 1) + m % (u + 1) && m == p * (t + 1) + m % (t + 1);
    QuotientFits(m, u + 1);
    if q > p {
      ProductMono(p + 1, q, t + 1);
      ProductMono(t + 1, u + 1, q);
      Distribute(p, 1, t + 1);
    }
  }
}
