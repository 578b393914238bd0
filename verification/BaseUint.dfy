/** Fixed-width unsigned big integers (src/arith_uint256.h, src/arith_uint256.cpp): limb loops against
    integer arithmetic modulo 2^BITS, for any number of 32-bit limbs.

    The unsigned 32- and 64-bit variables of the source are subset types, so that every
    assignment to one is also a proof that the computation does not leave its range. */
module BaseUint {
  import opened Powers

  const BASE := 0x1_0000_0000
  type Limb = x: int | 0 <= x < 0x1_0000_0000
  type Wide = x: int | 0 <= x < 0x1_0000_0000_0000_0000

  /** What limb i counts for. */
  ghost function Weight(i: nat): (w: nat)
    ensures w >= 1
  {
    Pow2(32 * i)
  }

  /** The number a sequence of limbs stands for, least significant first. */
  ghost function Val(s: seq<Limb>): nat {
    if s == [] then 0 else Val(s[..|s| - 1]) + s[|s| - 1] * Weight(|s| - 1)
  }

  // ------------------------------------------------------------ limbs and numbers

  lemma WeightNext(i: nat)
    ensures Weight(i + 1) == BASE * Weight(i)
  {
    Pow2Of32();
    Pow2Add(32, 32 * i);
    assert 32 * (i + 1) == 32 + 32 * i;
  }

  lemma WeightAdd(i: nat, j: nat)
    ensures Weight(i + j) == Weight(i) * Weight(j)
  {
    Pow2Add(32 * i, 32 * j);
    assert 32 * (i + j) == 32 * i + 32 * j;
  }

  lemma ValNext(s: seq<Limb>, i: nat)
    requires i < |s|
    ensures Val(s[..i + 1]) == Val(s[..i]) + s[i] * Weight(i)
  {
    assert s[..i + 1][..i] == s[..i];
  }

  lemma {:induction false} ValBound(s: seq<Limb>)
    ensures Val(s) < Weight(|s|)
  {
    if s != [] {
      var n := |s| - 1;
      ValBound(s[..n]);
      WeightNext(n);
      ProductMono(s[n], BASE - 1, Weight(n));
      assert (BASE - 1) * Weight(n) + Weight(n) == BASE * Weight(n);
    }
  }

  lemma {:induction false} ValUpdate(s: seq<Limb>, k: nat, v: Limb)
    requires k < |s|
    ensures Val(s[k := v]) == Val(s) + (v - s[k]) * Weight(k)
  {
    var n := |s| - 1;
    var t := s[k := v];
    if k == n {
      assert t[..n] == s[..n];
      assert v * Weight(n) == s[n] * Weight(n) + (v - s[n]) * Weight(n);
    } else {
      assert t[..n] == s[..n][k := v];
      ValUpdate(s[..n], k, v);
    }
  }

  lemma {:induction false} ValZero(s: seq<Limb>)
    requires forall i :: 0 <= i < |s| ==> s[i] == 0
    ensures Val(s) == 0
  {
    if s != [] { ValZero(s[..|s| - 1]); }
  }

  /** The first limb from the top that differs decides the order. */
  lemma {:induction false} ValLess(s: seq<Limb>, t: seq<Limb>, i: nat)
    requires |s| == |t| && i < |s| && s[i] < t[i]
    requires forall k :: i < k < |s| ==> s[k] == t[k]
    ensures Val(s) < Val(t)
  {
    var n := |s| - 1;
    if i == n {
      ValBound(s[..n]);
      ProductMono(s[n] + 1, t[n], Weight(n));
      assert (s[n] + 1) * Weight(n) == s[n] * Weight(n) + Weight(n);
    } else {
      ValLess(s[..n], t[..n], i);
    }
  }

  /** A wide sum splits into a limb and a carry to the next limb. */
  lemma DigitStep(n: int, w: int)
    requires n >= 0
    ensures (n % BASE) * w + (n / BASE) * (BASE * w) == n * w
  {
    var d, c := n % BASE, n / BASE;
    assert n == d + c * BASE;
    assert (d + c * BASE) * w == d * w + c * (BASE * w);
  }

  // ----------------------------------------------------------------- the class

  class BaseUint {
    const pn: array<Limb>

    ghost function Value(): nat
      reads pn
    {
      Val(pn[..])
    }

    /** 2^BITS. */
    ghost function Modulus(): nat {
      Weight(pn.Length)
    }

    /** A number modulo 2^BITS. */
    ghost function Wrapped(x: int): nat {
      Mod(x, Modulus())
    }

    constructor (width: nat)
      ensures fresh(pn) && pn.Length == width && Value() == 0
    {
      var limbs := new Limb[width](_ => 0);
      pn := limbs;
      new;
      ValZero(pn[..]);
    }

    constructor Copy(b: BaseUint)
      ensures fresh(pn) && pn.Length == b.pn.Length && pn[..] == b.pn[..]
    {
      var limbs := new Limb[b.pn.Length];
      for i := 0 to b.pn.Length
        invariant limbs[..i] == b.pn[..i]
      {
        limbs[i] := b.pn[i];
      }
      assert limbs[..] == limbs[..b.pn.Length] && b.pn[..] == b.pn[..b.pn.Length];
      pn := limbs;
    }

    method Assign(b: BaseUint)
      requires b.pn.Length == pn.Length
      modifies pn
      ensures pn[..] == old(b.pn[..])
    {
      if this != b {
        for i := 0 to pn.Length
          invariant pn[..i] == old(b.pn[..i]) && b.pn[i..] == old(b.pn[i..])
        {
          assert b.pn[i] == b.pn[i..][0] == old(b.pn[i..])[0];
          pn[i] := b.pn[i];
        }
        assert pn[..] == pn[..pn.Length] && old(b.pn[..]) == old(b.pn[..pn.Length]);
      }
    }

    /** operator+=: the sum modulo 2^BITS, also when both operands are the same object. */
    method AddAssign(b: BaseUint)
      requires b.pn.Length == pn.Length
      modifies pn
      ensures Value() == Wrapped(old(Value()) + old(b.Value()))
    {
      var carry: Wide := 0;
      ghost var x, y := pn[..], b.pn[..];
      for i := 0 to pn.Length
        invariant carry <= 1
        invariant forall k :: i <= k < pn.Length ==> pn[k] == x[k] && b.pn[k] == y[k]
        invariant Val(pn[..i]) + carry * Weight(i) == Val(x[..i]) + Val(y[..i])
      {
        var n: Wide := carry + pn[i] + b.pn[i];
        ghost var before := pn[..i];
        pn[i] := n % BASE;
        assert pn[..i] == before;
        ValNext(pn[..], i);
        ValNext(x, i);
        ValNext(y, i);
        AddStep(carry, x[i], y[i], n, i);
        assert pn[..][..i + 1] == pn[..i + 1] && pn[..][..i] == pn[..i];
        carry := n / BASE;
      }
      assert pn[..pn.Length] == pn[..] && x[..pn.Length] == x && y[..pn.Length] == y;
      ValBound(pn[..]);
      IsRemainder(Value(), carry, Modulus(), Val(x) + Val(y));
    }

    /** The value of a 64-bit number; wider limbs are cleared. */
    method Set(b: Wide)
      requires pn.Length >= 2
      modifies pn
      ensures Value() == b
    {
      pn[0] := b % BASE;
      pn[1] := b / BASE;
      for i := 2 to pn.Length
        invariant pn[0] == b % BASE && pn[1] == b / BASE
        invariant forall k :: 2 <= k < i ==> pn[k] == 0
      {
        pn[i] := 0;
      }
      ValOfTwo(pn[..]);
    }

    /** operator~. */
    method Complement() returns (ret: BaseUint)
      ensures fresh(ret) && fresh(ret.pn) && ret.pn.Length == pn.Length
      ensures ret.Value() == Modulus() - 1 - Value()
    {
      ret := new BaseUint(pn.Length);
      for i := 0 to pn.Length
        invariant forall k :: 0 <= k < i ==> ret.pn[k] == BASE - 1 - pn[k]
      {
        ret.pn[i] := BASE - 1 - pn[i];
      }
      ComplementVal(pn[..], ret.pn[..]);
    }

    /** operator++: counts up, and around at 2^BITS. */
    method Increment()
      modifies pn
      ensures Value() == Wrapped(old(Value()) + 1)
    {
      hide Mod;
      var i, done := 0, false;
      ghost var x := pn[..];
      assert Weight(0) == 1;
      while i < pn.Length && !done
        invariant 0 <= i <= pn.Length
        invariant Val(pn[..]) + (if done then 0 else Weight(i)) == Val(x) + 1
        decreases pn.Length - i, !done
      {
        ghost var before := pn[..];
        IncrementStep(before, i);
        pn[i] := (pn[i] + 1) % BASE;
        assert pn[..] == before[i := pn[i]];
        if pn[i] == 0 {
          i := i + 1;
        } else {
          done := true;
        }
      }
      ValBound(pn[..]);
      IsRemainder(Value(), if done then 0 else 1, Modulus(), Val(x) + 1);
    }

    /** operator--: counts down, and around at 0. */
    method Decrement()
      modifies pn
      ensures Value() == Wrapped(old(Value()) - 1)
    {
      hide Mod;
      var i, done := 0, false;
      ghost var x := pn[..];
      assert Weight(0) == 1;
      while i < pn.Length && !done
        invariant 0 <= i <= pn.Length
        invariant Val(pn[..]) - (if done then 0 else Weight(i)) == Val(x) - 1
        decreases pn.Length - i, !done
      {
        ghost var before := pn[..];
        DecrementStep(before, i);
        pn[i] := (pn[i] - 1) % BASE;
        assert pn[..] == before[i := pn[i]];
        if pn[i] == BASE - 1 {
          i := i + 1;
        } else {
          done := true;
        }
      }
      ValBound(pn[..]);
      IsRemainder(Value(), if done then 0 else -1, Modulus(), Val(x) - 1);
    }

    /** Unary operator-: the additive inverse modulo 2^BITS. */
    method Negate() returns (ret: BaseUint)
      ensures fresh(ret) && fresh(ret.pn) && ret.pn.Length == pn.Length
      ensures ret.Value() == Wrapped(0 - Value())
    {
      hide Mod;
      ret := Complement();
      ret.Increment();
      ModShift(Modulus() - Value(), 1, Modulus());
      assert 1 * Modulus() == Modulus();
    }

    /** operator-=: the difference modulo 2^BITS. */
    method SubAssign(b: BaseUint)
      requires b.pn.Length == pn.Length
      modifies pn
      ensures Value() == Wrapped(old(Value()) - old(b.Value()))
    {
      hide Mod, Val, Weight;
      ghost var x: int, y: int := Value(), b.Value();
      var negated := b.Negate();
      AddAssign(negated);
      ModSum(x, 0 - y, Modulus());
    }

    /** operator+= on a 64-bit number. */
    method AddAssign64(b64: Wide)
      requires pn.Length >= 2
      modifies pn
      ensures Value() == Wrapped(old(Value()) + b64)
    {
      var b := new BaseUint(pn.Length);
      b.Set(b64);
      AddAssign(b);
    }

    /** operator-= on a 64-bit number. */
    method SubAssign64(b64: Wide)
      requires pn.Length >= 2
      modifies pn
      ensures Value() == Wrapped(old(Value()) - b64)
    {
      var b := new BaseUint(pn.Length);
      b.Set(b64);
      SubAssign(b);
    }

    /** operator*= on a 32-bit number. */
    method MulAssign32(b32: Limb)
      modifies pn
      ensures Value() == Wrapped(old(Value()) * b32)
    {
      hide Val, Weight, Mod;
      var carry: Wide := 0;
      ghost var x := pn[..];
      assert pn[..0] == [] && x[..0] == [];
      ValNone();
      for i := 0 to pn.Length
        invariant carry < BASE
        invariant forall k :: i <= k < pn.Length ==> pn[k] == x[k]
        invariant Val(pn[..i]) + carry * Weight(i) == Val(x[..i]) * b32
      {
        WideProduct(carry, 0, b32, pn[i]);
        var n: Wide := carry + b32 * pn[i];
        ghost var before := pn[..i];
        pn[i] := n % BASE;
        assert pn[..i] == before && pn[..][..i + 1] == pn[..i + 1] && pn[..][..i] == pn[..i];
        ValNext(pn[..], i);
        ValNext(x, i);
        MulStep(carry, b32, x[i], n, i, Val(x[..i]));
        carry := n / BASE;
      }
      assert pn[..pn.Length] == pn[..] && x[..pn.Length] == x;
      ValBound(pn[..]);
      IsRemainder(Value(), carry, Modulus(), Val(x) * b32);
    }

    /** operator*=: the product modulo 2^BITS. */
    method MulAssign(b: BaseUint)
      requires b.pn.Length == pn.Length
      modifies pn
      ensures Value() == Wrapped(old(Value()) * old(b.Value()))
    {
      hide Val, Weight, Mod;
      var a := new BaseUint(pn.Length);
      ghost var x, y, q := pn[..], b.pn[..], 0;
      EmptyVal(x);
      for j := 0 to pn.Length
        invariant pn[..] == x && b.pn[..] == y
        invariant Val(a.pn[..]) + q * Weight(pn.Length) == Val(x[..j]) * Val(y)
      {
        ghost var start := Val(a.pn[..]);
        var carry := MulRow(a, b, j);
        ValNext(x, j);
        RowWraps(start, Val(a.pn[..]), carry, x[j], j, y, q, Val(x[..j]));
        q := q + carry + x[j] * Val(y[pn.Length - j..]);
      }
      assert x[..pn.Length] == x;
      ValBound(a.pn[..]);
      IsRemainder(Val(a.pn[..]), q, Weight(pn.Length), Val(x) * Val(y));
      Assign(a);
    }

    /** The inner loop of operator*=: adds limb j times b at position j, as far as it fits. */
    method MulRow(a: BaseUint, b: BaseUint, j: nat) returns (carry: Wide)
      requires a.pn.Length == b.pn.Length == pn.Length && j < pn.Length && a.pn != pn && a.pn != b.pn
      modifies a.pn
      ensures Val(a.pn[..]) + carry * Weight(pn.Length) ==
              old(Val(a.pn[..])) + (pn[j] * Weight(j)) * Val(b.pn[..][..pn.Length - j])
    {
      hide Val, Weight;
      carry := 0;
      ghost var y, start := b.pn[..], Val(a.pn[..]);
      EmptyVal(y);
      var i := 0;
      while i + j < pn.Length
        invariant 0 <= i <= pn.Length - j && 0 <= carry < BASE && b.pn[..] == y
        invariant Val(a.pn[..]) + carry * Weight(i + j) == start + (pn[j] * Weight(j)) * Val(y[..i])
      {
        WideProduct(carry, a.pn[i + j], pn[j], b.pn[i]);
        var n: Wide := carry + a.pn[i + j] + (pn[j] as int) * b.pn[i];
        ghost var before := a.pn[..];
        ValUpdate(before, i + j, n % BASE);
        ValNext(y, i);
        RowStep(carry, before[i + j], pn[j], y[i], n, i, j, Val(y[..i]));
        a.pn[i + j] := n % BASE;
        assert a.pn[..] == before[i + j := n % BASE];
        carry := n / BASE;
        i := i + 1;
      }
    }

    method Clear()
      modifies pn
      ensures forall k :: 0 <= k < pn.Length ==> pn[k] == 0
      ensures Value() == 0
    {
      for i := 0 to pn.Length
        invariant forall k :: 0 <= k < i ==> pn[k] == 0
      {
        pn[i] := 0;
      }
      ValZero(pn[..]);
    }

    /** operator<<=: times a power of two, modulo 2^BITS. */
    method ShiftLeft(shift: nat)
      modifies pn
      ensures Value() == Wrapped(old(Value()) * Pow2(shift))
    {
      hide Val, Weight, Mod, Pow2, Or, Staying, MovedOn, LeftLost, LeftShape;
      var a := new BaseUint.Copy(this);
      ghost var x, q := a.pn[..], 0;
      Clear();
      var k, bits := shift / 32, shift % 32;
      EmptyVal(x);
      LeftStart(pn[..], k, bits);
      for i := 0 to pn.Length
        invariant a.pn[..] == x
        invariant LeftShape(pn[..], i + k, bits)
        invariant Val(pn[..]) + q * Weight(pn.Length) == Val(x[..i]) * (Pow2(bits) * Weight(k))
      {
        ghost var before := pn[..];
        LeftOr(before, i + k, x[i], bits);
        if i + k + 1 < pn.Length && bits != 0 {
          pn[i + k + 1] := Or(pn[i + k + 1], MovedOn(a.pn[i], bits));
        }
        if i + k < pn.Length {
          pn[i + k] := Or(pn[i + k], Staying(a.pn[i], bits));
        }
        LeftStep(before, pn[..], x, i, k, bits);
        ValNext(x, i);
        Distribute(Val(x[..i]), x[i] * Weight(i), Pow2(bits) * Weight(k));
        Distribute(q, LeftLost(x[i], bits, i + k, pn.Length), Weight(pn.Length));
        q := q + LeftLost(x[i], bits, i + k, pn.Length);
      }
      assert x[..pn.Length] == x;
      ValBound(pn[..]);
      IsRemainder(Val(pn[..]), q, Weight(pn.Length), Val(x) * (Pow2(bits) * Weight(k)));
      ShiftAmount(shift);
    }

    /** operator>>=: the quotient by a power of two. */
    method ShiftRight(shift: nat)
      modifies pn
      ensures Value() == Quot(old(Value()), Pow2(shift))
    {
      hide Val, Weight, Quot, Pow2, Or, Kept, MovedDown, RightShape;
      var a := new BaseUint.Copy(this);
      ghost var x, rem := a.pn[..], 0;
      Clear();
      var k, bits := shift / 32, shift % 32;
      EmptyVal(x);
      RightStart(pn[..], k, bits);
      for i := 0 to pn.Length
        invariant a.pn[..] == x
        invariant RightShape(pn[..], i, k, bits)
        invariant Val(pn[..]) * (Pow2(bits) * Weight(k)) + rem == Val(x[..i])
        invariant 0 <= rem < if i <= k then Weight(i) else Pow2(bits) * Weight(k)
      {
        ghost var before := pn[..];
        RightOr(before, i, k, x[i], bits);
        if i - k - 1 >= 0 && bits != 0 {
          pn[i - k - 1] := Or(pn[i - k - 1], MovedDown(a.pn[i], bits));
        }
        if i - k >= 0 {
          pn[i - k] := Or(pn[i - k], Kept(a.pn[i], bits));
        }
        RightStep(before, pn[..], x, i, k, bits, rem);
        ValNext(x, i);
        rem := rem + RightLost(x[i], i, k, bits);
      }
      assert x[..pn.Length] == x;
      RightRemainder(pn.Length, k, bits, rem);
      ShiftAmount(shift);
      IsRemainder(rem, Val(pn[..]), Pow2(shift), Val(x));
    }

    /** bits: the position of the highest bit set plus one, or zero. */
    method Bits() returns (r: nat)
      ensures r <= 32 * pn.Length
      ensures if r == 0 then Value() == 0 else Pow2(r - 1) <= Value() < Pow2(r)
    {
      hide Pow2, Val;
      var pos := pn.Length - 1;
      while pos >= 0
        invariant -1 <= pos < pn.Length
        invariant forall k :: pos < k < pn.Length ==> pn[k] == 0
      {
        if pn[pos] != 0 {
          var nbits := TopBit(pn[pos]);
          HighestBit(pn[..], pos, nbits);
          return 32 * pos + nbits + 1;
        }
        pos := pos - 1;
      }
      ValZero(pn[..]);
      return 0;
    }

    /** Its inner loop: the highest bit of a limb that is not zero. */
    static method TopBit(limb: Limb) returns (nbits: nat)
      requires limb != 0
      ensures nbits < 32 && Pow2(nbits) <= limb < Pow2(nbits + 1)
    {
      hide Pow2;
      nbits := 31;
      Pow2Of32();
      while nbits > 0
        invariant 0 <= nbits <= 31 && limb < Pow2(nbits + 1)
      {
        if (limb / Pow2(nbits)) % 2 == 1 {
          BitSet(limb, nbits);
          return;
        }
        BitClear(limb, nbits);
        nbits := nbits - 1;
      }
      Pow2Zero();
      Pow2Next(0);
    }

    /** operator/=: the quotient. Division by zero throws, with the dividend already cleared. */
    method DivAssign(b: BaseUint) returns (ok: bool)
      requires b.pn.Length == pn.Length >= 2
      modifies pn
      ensures ok <==> old(b.Value()) != 0
      ensures Value() == if ok then Quot(old(Value()), old(b.Value())) else 0
    {
      hide Val, Weight, Quot, Mod, Pow2, Or, ClearBelow;
      var div := new BaseUint.Copy(b);
      var num := new BaseUint.Copy(this);
      ghost var n: int, d: int := Value(), b.Value();
      Set(0);
      var numBits := num.Bits();
      var divBits := div.Bits();
      if divBits == 0 {
        return false;
      }
      assert d >= 1;
      if divBits > numBits {
        TooSmall(n, d, numBits, divBits);
        return true;
      }
      var shift := numBits - divBits;
      div.ShiftLeft(shift);
      Aligned(n, d, numBits, divBits, pn.Length);
      AllClear(pn[..], shift + 1);
      while shift >= 0
        invariant fresh(num.pn) && fresh(div.pn) && num.pn != div.pn
        invariant num.pn.Length == div.pn.Length == pn.Length
        invariant -1 <= shift < 32 * pn.Length
        invariant shift >= 0 ==> div.Value() == d * Pow2(shift)
        invariant num.Value() < d * Pow2(shift + 1)
        invariant Value() * d + num.Value() == n
        invariant ClearBelow(pn[..], shift + 1)
        decreases shift
      {
        DivStep(num, div, shift, n, d);
        div.ShiftRight(1);
        Halves(d, shift);
        shift := shift - 1;
      }
      LastPower(d);
      IsRemainder(num.Value(), Value(), d, n);
      return true;
    }

    /** One round of operator/=: subtracts the shifted divisor if it fits and sets the bit of the quotient. */
    method DivStep(num: BaseUint, div: BaseUint, shift: nat, ghost n: int, ghost d: int)
      requires num.pn.Length == div.pn.Length == pn.Length && num.pn != div.pn && div.pn != pn && num.pn != pn
      requires shift < 32 * pn.Length && div.Value() == d * Pow2(shift) && num.Value() < d * Pow2(shift + 1)
      requires Value() * d + num.Value() == n && ClearBelow(pn[..], shift + 1)
      modifies pn, num.pn
      ensures num.Value() < d * Pow2(shift) && Value() * d + num.Value() == n && ClearBelow(pn[..], shift)
    {
      hide Val, Weight, Mod, Pow2, Or, ClearBelow;
      Halves(d, shift);
      StaysClear(pn[..], shift);
      ghost var q, r, s := Value(), num.Value(), pn[..];
      var order := num.CompareTo(div);
      if order >= 0 {
        ValBound(num.pn[..]);
        num.SubAssign(div);
        Fits(r, div.Value(), num.Modulus());
        SetBit(s, shift);
        pn[shift / 32] := Or(pn[shift / 32], Pow2(shift % 32));
        assert pn[..] == s[shift / 32 := pn[shift / 32]];
        QuotientStep(q, d, r, Pow2(shift), n);
      }
    }

    /** CompareTo: the order of the numbers. */
    method CompareTo(b: BaseUint) returns (r: int)
      requires b.pn.Length == pn.Length
      ensures r == if Value() < b.Value() then -1 else if Value() > b.Value() then 1 else 0
    {
      var i := pn.Length - 1;
      while i >= 0
        invariant -1 <= i < pn.Length
        invariant forall k :: i < k < pn.Length ==> pn[k] == b.pn[k]
      {
        if pn[i] < b.pn[i] {
          ValLess(pn[..], b.pn[..], i);
          return -1;
        }
        if pn[i] > b.pn[i] {
          ValLess(b.pn[..], pn[..], i);
          return 1;
        }
        i := i - 1;
      }
      assert pn[..] == b.pn[..];
      return 0;
    }

    /** EqualTo: equality with a 64-bit number. */
    method EqualTo(b: Wide) returns (r: bool)
      requires pn.Length >= 2
      ensures r <==> Value() == b
    {
      var i := pn.Length - 1;
      while i >= 2
        invariant 1 <= i < pn.Length
        invariant forall k :: i < k < pn.Length ==> pn[k] == 0
      {
        if pn[i] != 0 {
          AtLeastLimb(pn[..], i);
          Pow2Mono(64, 32 * i);
          Pow2Of64();
          return false;
        }
        i := i - 1;
      }
      ValOfTwo(pn[..]);
      if pn[1] != b / BASE {
        return false;
      }
      if pn[0] != b % BASE {
        return false;
      }
      return true;
    }

    /** GetLow64: the low 64 bits. */
    method GetLow64() returns (r: Wide)
      requires pn.Length >= 2
      ensures r == Value() % (BASE * BASE)
    {
      Pow2Of32();
      OrDisjoint(pn[1] * BASE, pn[0], 32);
      r := Or(pn[0], pn[1] * BASE);
      LowLimbs(pn[..]);
    }
  }

  lemma AddStep(carry: int, x: int, y: int, n: int, i: nat)
    requires n == carry + x + y && n >= 0
    ensures (n % BASE) * Weight(i) + (n / BASE) * Weight(i + 1) == carry * Weight(i) + x * Weight(i) + y * Weight(i)
  {
    WeightNext(i);
    DigitStep(n, Weight(i));
    assert (carry + x + y) * Weight(i) == carry * Weight(i) + x * Weight(i) + y * Weight(i);
  }

  lemma IncrementStep(s: seq<Limb>, i: nat)
    requires i < |s|
    ensures var d: Limb := (s[i] + 1) % BASE;
            Val(s) + Weight(i) == Val(s[i := d]) + if d == 0 then Weight(i + 1) else 0
  {
    hide Val, Weight;
    var d: Limb := (s[i] + 1) % BASE;
    ValUpdate(s, i, d);
    WeightNext(i);
    assert d - s[i] == if s[i] == BASE - 1 then 1 - BASE else 1;
    Distribute(1, BASE, Weight(i));
  }

  lemma DecrementStep(s: seq<Limb>, i: nat)
    requires i < |s|
    ensures var d: Limb := (s[i] - 1) % BASE;
            Val(s) - Weight(i) == Val(s[i := d]) - if d == BASE - 1 then Weight(i + 1) else 0
  {
    hide Val, Weight;
    var d: Limb := (s[i] - 1) % BASE;
    ValUpdate(s, i, d);
    WeightNext(i);
    assert d - s[i] == if s[i] == 0 then BASE - 1 else -1;
    Distribute(BASE, 1, Weight(i));
  }

  lemma Pow2Of64()
    ensures Pow2(64) == BASE * BASE
  {
    Pow2Of32();
    Pow2Add(32, 32);
  }

  lemma {:induction false} ValOfTwo(s: seq<Limb>)
    requires |s| >= 2 && forall k :: 2 <= k < |s| ==> s[k] == 0
    ensures Val(s) == s[0] + s[1] * BASE
  {
    if |s| == 2 {
      WeightNext(0);
      WeightZero();
      assert s[..1][..0] == [];
      hide Weight;
      assert Val(s[..1]) == s[0] * Weight(0);
    } else {
      ValOfTwo(s[..|s| - 1]);
    }
  }

  lemma {:induction false} ComplementVal(s: seq<Limb>, t: seq<Limb>)
    requires |s| == |t| && forall k :: 0 <= k < |s| ==> t[k] == BASE - 1 - s[k]
    ensures Val(t) == Weight(|s|) - 1 - Val(s)
  {
    if s == [] {
      WeightZero();
    } else {
      var n := |s| - 1;
      ComplementVal(s[..n], t[..n]);
      var u, v := Val(s[..n]), Val(t[..n]);
      assert Val(s) == u + s[n] * Weight(n) && Val(t) == v + t[n] * Weight(n);
      hide Val, Weight;
      WeightNext(n);
      ComplementNumbers(s[n], t[n], Weight(n));
    }
  }

  lemma ComplementNumbers(d: int, c: int, w: int)
    requires c == BASE - 1 - d
    ensures c * w + d * w + w == BASE * w
  {
    Distribute(BASE - 1, d, w);
    Distribute(BASE, 1, w);
  }

  /** carry + a + b * c fits in 64 bits. */
  lemma WideProduct(carry: int, a: int, b: Limb, c: Limb)
    requires 0 <= carry < BASE && 0 <= a < BASE
    ensures 0 <= b * c && carry + a + b * c < BASE * BASE
    ensures 0 <= (carry + a + b * c) / BASE < BASE
  {
    ProductBound(b, c, BASE - 1);
    var product := b * c;
    assert product <= 0xffff_fffe_0000_0001;
  }

  lemma MulStep(carry: int, b: int, x: int, n: int, i: nat, low: int)
    requires n == carry + b * x && n >= 0
    ensures (n % BASE) * Weight(i) + (n / BASE) * Weight(i + 1) - carry * Weight(i) + low * b == (low + x * Weight(i)) * b
  {
    WeightNext(i);
    var w := Weight(i);
    DigitStep(n, w);
    assert (carry + b * x) * w == carry * w + (x * w) * b;
    assert (low + x * w) * b == low * b + (x * w) * b;
  }

  lemma {:induction false} AtLeastLimb(s: seq<Limb>, i: nat)
    requires i < |s| && s[i] >= 1
    ensures Val(s) >= Weight(i)
  {
    var n := |s| - 1;
    if i == n {
      ProductMono(1, s[n], Weight(n));
    } else {
      AtLeastLimb(s[..n], i);
    }
  }

  lemma LimbMultiple(d: int, n: nat)
    requires n >= 2
    ensures d * Weight(n) == (d * Weight(n - 2)) * (BASE * BASE)
  {
    hide Weight;
    WeightNext(n - 2);
    WeightNext(n - 1);
    Associate(d, Weight(n - 2), BASE * BASE);
  }

  lemma SameLow(x: int, high: int)
    ensures (x + high * (BASE * BASE)) % (BASE * BASE) == x % (BASE * BASE)
  {
  }

  lemma {:induction false} LowLimbs(s: seq<Limb>)
    requires |s| >= 2
    ensures Val(s) % (BASE * BASE) == s[0] + s[1] * BASE
  {
    if |s| == 2 {
      ValOfTwo(s);
    } else {
      var n := |s| - 1;
      LowLimbs(s[..n]);
      assert Val(s) == Val(s[..n]) + s[n] * Weight(n);
      hide Val, Weight;
      LimbMultiple(s[n], n);
      SameLow(Val(s[..n]), s[n] * Weight(n - 2));
    }
  }

  lemma EmptyVal(s: seq<Limb>)
    ensures Val(s[..0]) == 0
  {
  }

  lemma {:induction false} ValSplit(s: seq<Limb>, i: nat)
    requires i <= |s|
    ensures Val(s) == Val(s[..i]) + Weight(i) * Val(s[i..])
    decreases |s|
  {
    hide Weight, Val;
    if i == |s| {
      assert s[..i] == s && s[i..] == [];
      ValNone();
    } else {
      var n := |s| - 1;
      ValSplit(s[..n], i);
      assert s[..n][..i] == s[..i] && s[..n][i..] == s[i..][..n - i];
      WeightAdd(i, n - i);
      var w, v, d := Weight(i), Weight(n - i), s[n];
      ValLast(s);
      ValLast(s[i..]);
      SplitNumbers(Val(s[i..][..n - i]), d, v, w);
    }
  }

  lemma ValNone()
    ensures Val([]) == 0
  {
  }

  lemma ValLast(s: seq<Limb>)
    requires s != []
    ensures Val(s) == Val(s[..|s| - 1]) + s[|s| - 1] * Weight(|s| - 1)
  {
  }

  lemma SplitNumbers(a: int, d: int, v: int, w: int)
    ensures w * (a + d * v) == w * a + d * (w * v)
  {
    Distribute(a, d * v, w);
    Associate(d, v, w);
  }

  /** One inner step of the product, in numbers. */
  lemma RowStep(carry: int, old0: int, x: int, y: int, n: int, i: nat, j: nat, low: int)
    requires n == carry + old0 + x * y && n >= 0
    ensures (n % BASE - old0) * Weight(i + j) + (n / BASE) * Weight(i + j + 1) - carry * Weight(i + j) ==
            (x * Weight(j)) * (low + y * Weight(i)) - (x * Weight(j)) * low
  {
    WeightNext(i + j);
    WeightAdd(i, j);
    hide Weight;
    var w, wi, wj := Weight(i + j), Weight(i), Weight(j);
    DigitStep(n, w);
    Distribute(n % BASE, old0, w);
    Distribute(carry + old0, x * y, w);
    Distribute(carry, old0, w);
    Distribute(low, y * wi, x * wj);
    FourProduct(x, y, wi, wj);
  }

  lemma FourProduct(x: int, y: int, u: int, v: int)
    ensures (x * y) * (u * v) == (x * v) * (y * u)
  {
    Associate(x * y, u, v);
    Associate(x, y, u);
    assert (x * (y * u)) * v == (x * v) * (y * u);
  }

  /** What a row leaves out counts for a multiple of 2^BITS. */
  lemma RowWraps(start: int, end: int, carry: int, x: int, j: nat, y: seq<Limb>, q: int, low: int)
    requires j < |y| && end + carry * Weight(|y|) == start + (x * Weight(j)) * Val(y[..|y| - j])
    requires start + q * Weight(|y|) == low * Val(y)
    ensures end + (q + carry + x * Val(y[|y| - j..])) * Weight(|y|) == (low + x * Weight(j)) * Val(y)
  {
    hide Weight, Val;
    ValSplit(y, |y| - j);
    WeightAdd(|y| - j, j);
    RowNumbers(start, end, carry, x, Weight(j), Weight(|y| - j), Val(y[..|y| - j]), Val(y[|y| - j..]), q, low, Val(y));
  }

  lemma RowNumbers(start: int, end: int, carry: int, x: int, v: int, u: int, a: int, b: int, q: int, low: int, y: int)
    requires y == a + u * b && end + carry * (u * v) == start + (x * v) * a && start + q * (u * v) == low * y
    ensures end + (q + carry + x * b) * (u * v) == (low + x * v) * y
  {
    var m := u * v;
    assert (q + carry + x * b) * m == q * m + carry * m + (x * b) * m by {
      Distribute(q + carry, x * b, m);
      Distribute(q, carry, m);
    }
    assert (low + x * v) * y == low * y + (x * v) * a + (x * v) * (u * b) by {
      Distribute(low, x * v, y);
      Distribute(a, u * b, x * v);
    }
    assert (x * b) * m == (x * v) * (u * b) by { FourProduct(x, b, u, v); }
  }

  // ------------------------------------------------------------------------- shifts

  lemma ShiftAmount(shift: nat)
    ensures Pow2(shift % 32) * Weight(shift / 32) == Pow2(shift)
  {
    Pow2Add(shift % 32, 32 * (shift / 32));
  }

  lemma SplitBase(bits: nat)
    requires bits < 32
    ensures Pow2(bits) * Pow2(32 - bits) == BASE
  {
    Pow2Add(bits, 32 - bits);
    Pow2Of32();
  }

  /** What a limb shifted left within itself leaves in its place: 32-bit a << bits. */
  function Staying(a: Limb, bits: nat): Limb {
    (a * Pow2(bits)) % BASE
  }

  /** What it moves on to the next limb: a >> (32 - bits). */
  function MovedOn(a: Limb, bits: nat): (r: Limb)
    requires bits < 32
  {
    QuotientFits(a, Pow2(32 - bits));
    a / Pow2(32 - bits)
  }

  lemma LeftParts(a: Limb, bits: nat)
    requires bits < 32
    ensures Staying(a, bits) + MovedOn(a, bits) * BASE == a * Pow2(bits) && Staying(a, bits) % Pow2(bits) == 0
    ensures Staying(a, bits) + Pow2(bits) <= BASE && 0 <= MovedOn(a, bits) < Pow2(bits)
  {
    var s, t := Pow2(bits), Pow2(32 - bits);
    SplitBase(bits);
    hide Pow2;
    PartsNumbers(a, s, t);
  }

  lemma PartsNumbers(a: int, s: int, t: int)
    requires s > 0 && t > 0 && s * t == BASE && 0 <= a < BASE
    ensures var low, high := (a * s) % BASE, a / t;
            low == (a % t) * s && low + high * BASE == a * s && low % s == 0 && low + s <= BASE && 0 <= high < s
  {
    var h, l := a / t, a % t;
    assert a == h * t + l;
    Distribute(h * t, l, s);
    Associate(h, t, s);
    assert a * s == l * s + h * BASE;
    ProductMono(l + 1, t, s);
    Distribute(l, 1, s);
    ProductMono(0, l, s);
    IsRemainder(l * s, h, BASE, a * s);
    RemainderOf(l, s);
    if h >= s { ProductMono(s, h, t); }
  }

  /** While shifting left: nothing above the position being filled, and only moved-on bits in it. */
  ghost predicate LeftShape(s: seq<Limb>, top: nat, bits: nat) {
    && (forall p :: top < p < |s| ==> s[p] == 0)
    && (top < |s| ==> s[top] < Pow2(bits))
  }

  lemma LeftStart(s: seq<Limb>, k: nat, bits: nat)
    requires forall p :: 0 <= p < |s| ==> s[p] == 0
    ensures LeftShape(s, k, bits)
  {
  }

  /** Both bitwise ors meet only clear bits. */
  lemma LeftOr(s: seq<Limb>, top: nat, a: Limb, bits: nat)
    requires LeftShape(s, top, bits) && bits < 32
    ensures top < |s| ==> Or(s[top], Staying(a, bits)) == s[top] + Staying(a, bits) < BASE
    ensures top + 1 < |s| ==> Or(s[top + 1], MovedOn(a, bits)) == MovedOn(a, bits)
    ensures bits == 0 ==> MovedOn(a, bits) == 0
    ensures top + 1 < |s| ==> s[top + 1] == 0
  {
    LeftParts(a, bits);
    OrZero(MovedOn(a, bits));
    if top < |s| { OrDisjoint(Staying(a, bits), s[top], bits); }
  }

  /** How many multiples of 2^BITS a limb loses when shifted to the given position. */
  ghost function LeftLost(a: Limb, bits: nat, top: nat, width: nat): int
    requires bits < 32
  {
    if top + 1 < width then 0
    else if top + 1 == width then MovedOn(a, bits)
    else (a * Pow2(bits)) * Weight(top - width)
  }

  lemma LeftNumbers(low: int, high: int, a: int, s: int, wi: int, wk: int, w: int)
    requires low + high * BASE == a * s && w == wi * wk
    ensures low * w + high * (BASE * w) == (a * wi) * (s * wk)
  {
    Distribute(low, high * BASE, w);
    Associate(high, BASE, w);
    FourProduct(a, s, wi, wk);
    assert (a * s) * (wi * wk) == (a * wi) * (s * wk) by { FourProduct(a, s, wk, wi); }
  }

  lemma LeftStep(before: seq<Limb>, after: seq<Limb>, x: seq<Limb>, i: nat, k: nat, bits: nat)
    requires |before| == |after| == |x| && i < |x| && bits < 32 && LeftShape(before, i + k, bits)
    requires i + k < |x| ==> after[i + k] == before[i + k] + Staying(x[i], bits)
    requires i + k + 1 < |x| ==> after[i + k + 1] == MovedOn(x[i], bits)
    requires forall p :: 0 <= p < |x| && p != i + k && p != i + k + 1 ==> after[p] == before[p]
    ensures LeftShape(after, i + 1 + k, bits)
    ensures Val(after) + LeftLost(x[i], bits, i + k, |x|) * Weight(|x|) ==
            Val(before) + (x[i] * Weight(i)) * (Pow2(bits) * Weight(k))
  {
    hide Weight, Val, Pow2, Staying, MovedOn;
    var top := i + k;
    LeftParts(x[i], bits);
    WeightAdd(i, k);
    WeightNext(top);
    LeftNumbers(Staying(x[i], bits), MovedOn(x[i], bits), x[i], Pow2(bits), Weight(i), Weight(k), Weight(top));
    if top < |x| {
      LeftWrite(before, after, top, Staying(x[i], bits));
    } else {
      assert after == before;
      WeightAdd(top - |x|, |x|);
      LostNumbers(x[i], Pow2(bits), Weight(top - |x|), Weight(|x|), Weight(i), Weight(k));
    }
  }

  lemma LeftWrite(before: seq<Limb>, after: seq<Limb>, top: nat, low: int)
    requires |before| == |after| && top < |before| && after[top] == before[top] + low
    requires forall p :: 0 <= p < |before| && p != top && p != top + 1 ==> after[p] == before[p]
    requires top + 1 < |before| ==> before[top + 1] == 0
    ensures Val(after) == Val(before) + low * Weight(top) + if top + 1 < |before| then after[top + 1] * Weight(top + 1) else 0
  {
    hide Val, Weight;
    ValUpdate(before, top, after[top]);
    var half := before[top := after[top]];
    if top + 1 < |before| {
      ValUpdate(half, top + 1, after[top + 1]);
      assert after == half[top + 1 := after[top + 1]];
    } else {
      assert after == half;
    }
  }

  lemma LostNumbers(a: int, s: int, over: int, m: int, wi: int, wk: int)
    requires over * m == wi * wk
    ensures ((a * s) * over) * m == (a * wi) * (s * wk)
  {
    Associate(a * s, over, m);
    FourProduct(a, s, wk, wi);
  }

  /** a >> bits. */
  function Kept(a: Limb, bits: nat): (r: Limb) {
    QuotientFits(a, Pow2(bits));
    a / Pow2(bits)
  }

  /** 32-bit a << (32 - bits). */
  function MovedDown(a: Limb, bits: nat): Limb
    requires bits < 32
  {
    (a * Pow2(32 - bits)) % BASE
  }

  lemma RightParts(a: Limb, bits: nat)
    requires bits < 32
    ensures var s, t := Pow2(bits), Pow2(32 - bits);
            && a == Kept(a, bits) * s + a % s && MovedDown(a, bits) == (a % s) * t
            && MovedDown(a, bits) % t == 0 && MovedDown(a, bits) + t <= BASE && Kept(a, bits) < t
  {
    hide Pow2;
    SplitBase(bits);
    PartsNumbers(a, Pow2(32 - bits), Pow2(bits));
  }

  /** While shifting right: nothing at or above the position being filled, and room in the one below. */
  ghost predicate RightShape(s: seq<Limb>, i: nat, k: nat, bits: nat)
    requires bits < 32
  {
    && (forall p :: 0 <= p < |s| && p >= i - k ==> s[p] == 0)
    && (k < i <= |s| ==> s[i - k - 1] < Pow2(32 - bits))
  }

  lemma RightStart(s: seq<Limb>, k: nat, bits: nat)
    requires bits < 32 && forall p :: 0 <= p < |s| ==> s[p] == 0
    ensures RightShape(s, 0, k, bits)
  {
  }

  lemma RightOr(s: seq<Limb>, i: nat, k: nat, a: Limb, bits: nat)
    requires bits < 32 && RightShape(s, i, k, bits) && i < |s|
    ensures k < i ==> Or(s[i - k - 1], MovedDown(a, bits)) == s[i - k - 1] + MovedDown(a, bits) < BASE
    ensures k <= i ==> Or(s[i - k], Kept(a, bits)) == Kept(a, bits)
    ensures bits == 0 ==> MovedDown(a, bits) == 0
    ensures k <= i ==> s[i - k] == 0
  {
    hide Pow2, Or, Kept, MovedDown;
    Pow2Zero();
    RightParts(a, bits);
    OrZero(Kept(a, bits));
    if k < i { OrDisjoint(MovedDown(a, bits), s[i - k - 1], 32 - bits); }
  }

  /** What a limb adds to the remainder. */
  ghost function RightLost(a: Limb, i: nat, k: nat, bits: nat): int {
    if i < k then a * Weight(i) else if i == k then (a % Pow2(bits)) * Weight(k) else 0
  }

  /** What a step of the right shift leaves to show, as numbers. */
  ghost predicate RightStepped(before: int, after: int, a: Limb, i: nat, k: nat, bits: nat, rem: int) {
    && after * (Pow2(bits) * Weight(k)) + RightLost(a, i, k, bits) == before * (Pow2(bits) * Weight(k)) + a * Weight(i)
    && 0 <= rem + RightLost(a, i, k, bits) < if i + 1 <= k then Weight(i + 1) else Pow2(bits) * Weight(k)
  }

  lemma RightStep(before: seq<Limb>, after: seq<Limb>, x: seq<Limb>, i: nat, k: nat, bits: nat, rem: int)
    requires |before| == |after| == |x| && i < |x| && bits < 32 && RightShape(before, i, k, bits)
    requires k < i ==> after[i - k - 1] == before[i - k - 1] + MovedDown(x[i], bits)
    requires k <= i ==> after[i - k] == Kept(x[i], bits)
    requires forall p :: 0 <= p < |x| && p != i - k && p != i - k - 1 ==> after[p] == before[p]
    requires 0 <= rem < if i <= k then Weight(i) else Pow2(bits) * Weight(k)
    ensures RightShape(after, i + 1, k, bits) && RightStepped(Val(before), Val(after), x[i], i, k, bits, rem)
  {
    hide Weight, Val, Pow2, Kept, MovedDown, RightStepped;
    RightParts(x[i], bits);
    if i < k {
      assert after == before;
      RightBefore(Val(before), x[i], i, k, bits, rem);
    } else if i == k {
      ValUpdate(before, 0, after[0]);
      assert after == before[0 := after[0]];
      WeightZero();
      RightAt(Val(before), x[i], k, bits, rem);
    } else {
      LeftWrite(before, after, i - k - 1, MovedDown(x[i], bits));
      RightAfter(Val(before), x[i], i, k, bits, rem);
    }
  }

  lemma RightBefore(v: int, a: Limb, i: nat, k: nat, bits: nat, rem: int)
    requires i < k && 0 <= rem < Weight(i)
    ensures RightStepped(v, v, a, i, k, bits, rem)
  {
    hide Weight, Pow2;
    WeightNext(i);
    LimbRoom(rem, a, Weight(i));
  }

  lemma RightAt(v: int, a: Limb, k: nat, bits: nat, rem: int)
    requires bits < 32 && 0 <= rem < Weight(k)
    ensures RightStepped(v, v + Kept(a, bits), a, k, k, bits, rem)
  {
    hide Weight, Pow2, Kept, MovedDown;
    RightParts(a, bits);
    RightFirst(v, Kept(a, bits), a, Pow2(bits), Weight(k), rem);
  }

  lemma RightAfter(v: int, a: Limb, i: nat, k: nat, bits: nat, rem: int)
    requires k < i && bits < 32 && 0 <= rem < Pow2(bits) * Weight(k)
    ensures RightStepped(v, v + MovedDown(a, bits) * Weight(i - k - 1) + Kept(a, bits) * Weight(i - k), a, i, k, bits, rem)
  {
    hide Weight, Pow2, Kept, MovedDown;
    RightParts(a, bits);
    SplitBase(bits);
    WeightNext(i - k - 1);
    WeightAdd(i - k, k);
    RightNumbers(v, Kept(a, bits), a, Pow2(bits), Pow2(32 - bits), Weight(i - k - 1), Weight(k));
  }

  lemma WeightZero()
    ensures Weight(0) == 1
  {
  }

  lemma LimbRoom(rem: int, a: Limb, w: int)
    requires 0 <= rem < w
    ensures 0 <= rem + a * w < BASE * w
  {
    ProductMono(a + 1, BASE, w);
    ProductMono(0, a, w);
    Distribute(a, 1, w);
  }

  lemma RightFirst(v: int, kept: int, a: int, s: int, w: int, rem: int)
    requires s > 0 && 0 <= rem < w && a == kept * s + a % s
    ensures (v + kept) * (s * w) + (a % s) * w == v * (s * w) + a * w
    ensures 0 <= rem + (a % s) * w < s * w
  {
    var r := a % s;
    Distribute(v, kept, s * w);
    Associate(kept, s, w);
    Distribute(kept * s, r, w);
    ProductMono(r + 1, s, w);
    ProductMono(0, r, w);
    Distribute(r, 1, w);
  }

  lemma RightNumbers(v: int, kept: int, a: int, s: int, t: int, w: int, wk: int)
    requires s > 0 && t > 0 && s * t == BASE && a == kept * s + a % s
    ensures (v + ((a % s) * t) * w + kept * (BASE * w)) * (s * wk) == v * (s * wk) + a * ((BASE * w) * wk)
  {
    var r, u := a % s, BASE * w;
    Distribute(v + (r * t) * w, kept * u, s * wk);
    Distribute(v, (r * t) * w, s * wk);
    assert (kept * u) * (s * wk) == (kept * s) * (u * wk) by { FourProduct(kept, u, s, wk); FourProduct(kept, s, u, wk); }
    assert ((r * t) * w) * (s * wk) == r * (u * wk) by {
      FourProduct(r * t, w, wk, s);
      Associate(r, t, s);
      Associate(r, BASE, w * wk);
      Associate(BASE, w, wk);
    }
    Distribute(kept * s, r, u * wk);
  }

  lemma RightRemainder(n: nat, k: nat, bits: nat, rem: int)
    requires 0 <= rem < if n <= k then Weight(n) else Pow2(bits) * Weight(k)
    ensures rem < Pow2(bits) * Weight(k)
  {
    if n <= k {
      Pow2Mono(32 * n, 32 * k);
      ProductMono(1, Pow2(bits), Weight(k));
    }
  }

  // --------------------------------------------------------------- the highest bit

  lemma BitSet(x: int, n: nat)
    requires 0 <= x && (x / Pow2(n)) % 2 == 1
    ensures x >= Pow2(n)
  {
    var p := Pow2(n);
    if x < p { IsRemainder(x, 0, p, x); }
  }

  lemma BitClear(x: int, n: nat)
    requires 0 <= x < Pow2(n + 1) && (x / Pow2(n)) % 2 == 0
    ensures x < Pow2(n)
  {
    var p := Pow2(n);
    if x >= p { IsRemainder(x - p, 1, p, x); }
  }

  lemma {:induction false} ZerosAbove(s: seq<Limb>, pos: nat)
    requires pos <= |s| && forall k :: pos <= k < |s| ==> s[k] == 0
    ensures Val(s) == Val(s[..pos])
  {
    if pos == |s| {
      assert s[..pos] == s;
    } else {
      var n := |s| - 1;
      ZerosAbove(s[..n], pos);
      assert s[..n][..pos] == s[..pos];
    }
  }

  lemma HighestBit(s: seq<Limb>, pos: nat, nbits: nat)
    requires pos < |s| && (forall k :: pos < k < |s| ==> s[k] == 0) && nbits < 32
    requires Pow2(nbits) <= s[pos] < Pow2(nbits + 1)
    ensures Pow2(32 * pos + nbits) <= Val(s) < Pow2(32 * pos + nbits + 1)
  {
    hide Val, Pow2;
    ZerosAbove(s, pos + 1);
    ValNext(s, pos);
    ValBound(s[..pos]);
    Pow2Add(nbits, 32 * pos);
    Pow2Add(nbits + 1, 32 * pos);
    assert 32 * pos + nbits == nbits + 32 * pos && 32 * pos + nbits + 1 == nbits + 1 + 32 * pos;
    BitNumbers(Val(s[..pos]), s[pos], Weight(pos), Pow2(nbits), Pow2(nbits + 1));
  }

  lemma BitNumbers(v: int, d: int, w: int, low: int, high: int)
    requires 0 <= v < w && low <= d < high
    ensures low * w <= v + d * w < high * w
  {
    ProductMono(low, d, w);
    ProductMono(d + 1, high, w);
    Distribute(d, 1, w);
  }

  // ----------------------------------------------------------------------- division

  /** No bit below position n is set. */
  ghost predicate ClearBelow(s: seq<Limb>, n: nat) {
    forall p :: 0 <= p < |s| ==> ClearLimb(s[p], p, n)
  }

  ghost predicate ClearLimb(a: Limb, p: nat, n: nat) {
    (32 * (p + 1) <= n ==> a == 0) && (p == n / 32 ==> a % Pow2(n % 32) == 0)
  }

  lemma AllClear(s: seq<Limb>, n: nat)
    requires Val(s) == 0
    ensures ClearBelow(s, n)
  {
    forall p | 0 <= p < |s| ensures ClearLimb(s[p], p, n) {
      if s[p] != 0 { AtLeastLimb(s, p); }
      RemainderOf(0, Pow2(n % 32));
    }
  }

  lemma TooSmall(n: int, d: int, numBits: nat, divBits: nat)
    requires divBits > numBits && d >= Pow2(divBits - 1) && if numBits == 0 then n == 0 else 0 <= n < Pow2(numBits)
    ensures Quot(n, d) == 0
  {
    Pow2Mono(numBits, divBits - 1);
    IsRemainder(n, 0, d, n);
  }

  /** The divisor can be shifted to align with the dividend without losing a bit. */
  lemma Aligned(n: int, d: int, numBits: nat, divBits: nat, width: nat)
    requires 0 < divBits <= numBits <= 32 * width
    requires Pow2(numBits - 1) <= n < Pow2(numBits) && Pow2(divBits - 1) <= d < Pow2(divBits)
    ensures var shift := numBits - divBits;
            && Mod(d * Pow2(shift), Weight(width)) == d * Pow2(shift) && n < d * Pow2(shift + 1)
  {
    var shift := numBits - divBits;
    Pow2Add(divBits, shift);
    Pow2Add(divBits - 1, shift + 1);
    Pow2Mono(numBits, 32 * width);
    hide Pow2;
    ProductMono(d, Pow2(divBits), Pow2(shift));
    ProductMono(d + 1, Pow2(divBits), Pow2(shift));
    Distribute(d, 1, Pow2(shift));
    ProductMono(Pow2(divBits - 1), d, Pow2(shift + 1));
    ProductMono(0, d, Pow2(shift));
    IsRemainder(d * Pow2(shift), 0, Weight(width), d * Pow2(shift));
  }

  lemma Halves(d: int, shift: nat)
    ensures d * Pow2(shift + 1) == 2 * (d * Pow2(shift)) && Pow2(1) == 2
    ensures shift > 0 ==> Quot(d * Pow2(shift), Pow2(1)) == d * Pow2(shift - 1)
  {
    assert Pow2(1) == 2;
    Associate(2, Pow2(shift), d);
    if shift > 0 {
      Associate(2, Pow2(shift - 1), d);
      IsRemainder(0, d * Pow2(shift - 1), 2, d * Pow2(shift));
    }
  }

  lemma LastPower(d: int)
    ensures d * Pow2(0) == d
  {
  }

  lemma Fits(r: int, d: int, m: int)
    requires 0 <= d <= r < m
    ensures Mod(r - d, m) == r - d
  {
    IsRemainder(r - d, 0, m, r - d);
  }

  lemma DoubleMultiple(a: int, p: int)
    requires p > 0 && a % (2 * p) == 0
    ensures a == (a / (2 * p)) * (2 * p) && a % p == 0 && (a + p) % p == 0
  {
    var q := a / (2 * p);
    assert a == q * (2 * p) + a % (2 * p);
    Associate(q, 2, p);
    assert a == (q * 2) * p;
    RemainderOf(q * 2, p);
    Distribute(q * 2, 1, p);
    RemainderOf(q * 2 + 1, p);
  }

  /** A limb clear up to and including a bit has room for that bit, and is clear below it with it. */
  lemma RoomForBit(a: Limb, j: nat)
    requires j < 32 && a % Pow2(j + 1) == 0
    ensures a % Pow2(j) == 0 && a + Pow2(j) < BASE && (a + Pow2(j)) % Pow2(j) == 0
    ensures Or(a, Pow2(j)) == a + Pow2(j)
  {
    hide Pow2, Or;
    var p, t := Pow2(j), Pow2(32 - j);
    Pow2Next(j);
    Pow2Next(31 - j);
    OrDisjoint(a, p, j + 1);
    DoubleMultiple(a, p);
    SplitBase(j);
    BitRoom(a, a / (2 * p), p, Pow2(31 - j));
  }

  lemma BitRoom(a: int, q: int, p: int, h: int)
    requires p > 0 && h > 0 && p * (2 * h) == BASE && a == q * (2 * p) && a < BASE
    ensures a + p < BASE
  {
    assert p * (2 * h) == h * (2 * p);
    if q >= h { ProductMono(h, q, 2 * p); }
    ProductMono(q + 1, h, 2 * p);
    Distribute(q, 1, 2 * p);
  }

  lemma LimbAt(a: Limb, shift: nat)
    requires ClearLimb(a, shift / 32, shift + 1)
    ensures a % Pow2(shift % 32 + 1) == 0
  {
    if (shift + 1) % 32 == 0 {
      RemainderOf(0, Pow2(shift % 32 + 1));
    } else {
      assert (shift + 1) / 32 == shift / 32 && (shift + 1) % 32 == shift % 32 + 1;
    }
  }

  lemma OtherLimb(a: Limb, p: nat, shift: nat)
    requires ClearLimb(a, p, shift + 1) && p != shift / 32
    ensures ClearLimb(a, p, shift)
  {
  }

  lemma SameLimb(a: Limb, shift: nat)
    requires a % Pow2(shift % 32) == 0
    ensures ClearLimb(a, shift / 32, shift)
  {
  }

  lemma SetBit(s: seq<Limb>, shift: nat)
    requires shift < 32 * |s| && ClearBelow(s, shift + 1)
    ensures Or(s[shift / 32], Pow2(shift % 32)) == s[shift / 32] + Pow2(shift % 32) < BASE
    ensures var a: Limb := s[shift / 32] + Pow2(shift % 32);
            Val(s[shift / 32 := a]) == Val(s) + Pow2(shift) && ClearBelow(s[shift / 32 := a], shift)
  {
    hide Pow2, Val, Weight, Or, ClearLimb;
    var i := shift / 32;
    LimbAt(s[i], shift);
    RoomForBit(s[i], shift % 32);
    var a: Limb := s[i] + Pow2(shift % 32);
    ValUpdate(s, i, a);
    ShiftAmount(shift);
    SameLimb(a, shift);
    forall p | 0 <= p < |s| && p != i ensures ClearLimb(s[p], p, shift) { OtherLimb(s[p], p, shift); }
  }

  lemma StaysClear(s: seq<Limb>, shift: nat)
    requires ClearBelow(s, shift + 1)
    ensures ClearBelow(s, shift)
  {
    hide Pow2, ClearLimb, Or;
    forall p | 0 <= p < |s| ensures ClearLimb(s[p], p, shift) {
      if p == shift / 32 {
        LimbAt(s[p], shift);
        RoomForBit(s[p], shift % 32);
        SameLimb(s[p], shift);
      } else {
        OtherLimb(s[p], p, shift);
      }
    }
  }

  lemma QuotientStep(q: int, d: int, r: int, p: int, n: int)
    requires q * d + r == n
    ensures (q + p) * d + (r - d * p) == n
  {
    Distribute(q, p, d);
  }
}
