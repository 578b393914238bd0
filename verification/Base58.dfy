/** Base58 (src/base58.cpp): radix conversion in place, in a buffer whose size is estimated.

    Both directions run the same inner loop, digits = digits * factor + carry, in different bases. */
module Base58 {
  import opened Wrappers
  import opened Powers

  type Byte = x: int | 0 <= x < 256

  // -------------------------------------------------------------- numbers in a base

  ghost function Pow(b: nat, n: nat): nat {
    if n == 0 then 1 else b * Pow(b, n - 1)
  }

  lemma {:induction false} PowPositive(b: nat, n: nat)
    requires b > 0
    ensures Pow(b, n) > 0
  {
    if n > 0 {
      PowPositive(b, n - 1);
      ProductMono(1, b, Pow(b, n - 1));
    }
  }

  lemma PowOne(b: nat)
    ensures Pow(b, 1) == b
  {
  }

  lemma {:induction false} PowAdd(b: nat, m: nat, n: nat)
    ensures Pow(b, m + n) == Pow(b, m) * Pow(b, n)
  {
    if m > 0 {
      PowAdd(b, m - 1, n);
      Associate(b, Pow(b, m - 1), Pow(b, n));
    }
  }

  lemma {:induction false} PowTimes(b: nat, m: nat, n: nat)
    ensures Pow(b, m * n) == Pow(Pow(b, m), n)
  {
    if n > 0 {
      PowTimes(b, m, n - 1);
      PowAdd(b, m, m * (n - 1));
      assert m * n == m + m * (n - 1);
    }
  }

  lemma {:induction false} PowMono(b: nat, m: nat, n: nat)
    requires b > 0 && m <= n
    ensures Pow(b, m) <= Pow(b, n)
  {
    if m < n {
      PowMono(b, m, n - 1);
      PowPositive(b, n - 1);
      ProductMono(1, b, Pow(b, n - 1));
    }
  }

  lemma {:induction false} PowBase(a: nat, b: nat, n: nat)
    requires a <= b
    ensures Pow(a, n) <= Pow(b, n)
  {
    if n > 0 {
      PowBase(a, b, n - 1);
      ProductMono(a, b, Pow(a, n - 1));
      ProductMono(Pow(a, n - 1), Pow(b, n - 1), b);
    }
  }

  lemma {:induction false} PowStrict(a: nat, b: nat, n: nat)
    requires a < b && n > 0
    ensures Pow(a, n) < Pow(b, n)
  {
    PowBase(a, b, n - 1);
    PowPositive(b, n - 1);
    ProductMono(a + 1, b, Pow(b, n - 1));
    Distribute(a, 1, Pow(b, n - 1));
    ProductMono(Pow(a, n - 1), Pow(b, n - 1), a);
  }

  lemma PowRoot(a: nat, b: nat, n: nat)
    requires n > 0 && Pow(a, n) <= Pow(b, n)
    ensures a <= b
  {
    hide Pow;
    if b < a { PowStrict(b, a, n); }
  }

  lemma Commute(a: nat, b: nat)
    ensures a * b == b * a && a * b >= 0
  {
  }

  /** If b^q fits in d^p, then so does b^n in d^s whenever s/n is at least p/q. */
  lemma EstimateSuffices(b: nat, d: nat, q: nat, p: nat, n: nat, s: nat)
    requires b > 0 && d > 0 && q > 0 && Pow(b, q) <= Pow(d, p) && p * n <= q * s
    ensures Pow(b, n) <= Pow(d, s)
  {
    hide Pow;
    assert Pow(Pow(b, n), q) <= Pow(d, p * n) by {
      Commute(n, q);
      PowTimes(b, n, q);
      PowTimes(b, q, n);
      PowBase(Pow(b, q), Pow(d, p), n);
      PowTimes(d, p, n);
    }
    assert Pow(d, p * n) <= Pow(Pow(d, s), q) by {
      Commute(s, q);
      Commute(p, n);
      PowMono(d, p * n, q * s);
      PowTimes(d, s, q);
    }
    PowRoot(Pow(b, n), Pow(d, s), q);
  }

  lemma Bytes8In11Digits()
    ensures Pow(256, 8) <= Pow(58, 11)
  {
    PowOne(256);
    PowOne(58);
    hide Pow;
    PowAdd(256, 1, 1);
    PowAdd(256, 2, 2);
    PowAdd(256, 4, 4);
    PowAdd(58, 1, 1);
    PowAdd(58, 2, 1);
    PowAdd(58, 2, 2);
    PowAdd(58, 4, 4);
    PowAdd(58, 8, 3);
  }

  lemma Digits71In52Bytes()
    ensures Pow(58, 71) <= Pow(256, 52)
  {
    Pow58To71();
    Pow256To52();
  }

  lemma Pow58To16()
    ensures Pow(58, 16) == 16400152899115243850138976256 && Pow(58, 4) == 11316496 && Pow(58, 3) == 195112
  {
    PowOne(58);
    hide Pow;
    PowAdd(58, 1, 1);
    PowAdd(58, 2, 1);
    PowAdd(58, 2, 2);
    PowAdd(58, 4, 4);
    PowAdd(58, 8, 8);
  }

  lemma Pow58To71()
    ensures Pow(58, 71) == 159730386663078066345306447337161584696769904898410078913243029577507397293846405390982563136983769384625594118558891106107392
  {
    hide Pow;
    Pow58To16();
    PowAdd(58, 16, 16);
    PowAdd(58, 32, 32);
    PowAdd(58, 64, 4);
    PowAdd(58, 68, 3);
  }

  lemma Pow256To16()
    ensures Pow(256, 16) == 340282366920938463463374607431768211456 && Pow(256, 4) == 4294967296
  {
    PowOne(256);
    hide Pow;
    PowAdd(256, 1, 1);
    PowAdd(256, 2, 2);
    PowAdd(256, 4, 4);
    PowAdd(256, 8, 8);
  }

  lemma Pow256To52()
    ensures Pow(256, 52) == 169230328010303641331690318856389386196071598838855992136870091590247882556495704531248437872567112920983350278405979725889536
  {
    hide Pow;
    Pow256To16();
    PowAdd(256, 16, 16);
    PowAdd(256, 32, 16);
    PowAdd(256, 48, 4);
  }

  // ------------------------------------------------------------------------- digits

  /** The number a sequence of digits stands for, most significant first. */
  ghost function Number(base: nat, s: seq<nat>): nat {
    if s == [] then 0 else Number(base, s[..|s| - 1]) * base + s[|s| - 1]
  }

  ghost predicate Below(base: nat, s: seq<nat>) {
    forall i :: 0 <= i < |s| ==> s[i] < base
  }

  ghost predicate Zeros(s: seq<nat>) {
    forall i :: 0 <= i < |s| ==> s[i] == 0
  }

  /** No leading zero. */
  ghost predicate Minimal(s: seq<nat>) {
    s != [] ==> s[0] != 0
  }

  /** The digits of a number, without leading zeros. */
  ghost function DigitsOf(base: nat, n: nat): seq<nat>
    requires base >= 2
    decreases n
  {
    if n == 0 then []
    else
      Shrinks(base, n);
      DigitsOf(base, n / base) + [n % base]
  }

  lemma Shrinks(base: nat, n: nat)
    requires base >= 2 && n > 0
    ensures 0 <= n / base < n && 0 <= n % base < base
  {
    var q := n / base;
    assert n == q * base + n % base;
    if q < 0 { ProductMono(q, -1, base); }
    if q > 0 { ProductMono(2, base, q); }
  }

  lemma {:induction false} NumberBound(base: nat, s: seq<nat>)
    requires base >= 2 && Below(base, s)
    ensures Number(base, s) < Pow(base, |s|)
  {
    if s != [] {
      var n := |s| - 1;
      NumberBound(base, s[..n]);
      ProductMono(Number(base, s[..n]) + 1, Pow(base, n), base);
      Distribute(Number(base, s[..n]), 1, base);
    }
  }

  lemma {:induction false} NumberSplit(base: nat, s: seq<nat>, j: nat)
    requires j <= |s|
    ensures Number(base, s) == Number(base, s[..j]) * Pow(base, |s| - j) + Number(base, s[j..])
  {
    if j == |s| {
      assert s[..j] == s;
    } else {
      var n := |s| - 1;
      NumberSplit(base, s[..n], j);
      assert s[..n][..j] == s[..j] && s[..n][j..] == s[j..][..n - j];
      var high, w, low := Number(base, s[..j]), Pow(base, n - j), Number(base, s[j..][..n - j]);
      assert Number(base, s[j..]) == low * base + s[n] && Pow(base, |s| - j) == base * w;
      hide Number, Pow;
      SplitStep(high, w, low, base);
    }
  }

  lemma SplitStep(high: nat, w: nat, low: nat, base: nat)
    ensures (high * w + low) * base == high * (base * w) + low * base
  {
    Distribute(high * w, low, base);
    Associate(high, w, base);
  }

  lemma {:induction false} NumberOfZeros(base: nat, s: seq<nat>)
    requires Zeros(s)
    ensures Number(base, s) == 0
  {
    if s != [] { NumberOfZeros(base, s[..|s| - 1]); }
  }

  lemma LeadingZeros(base: nat, s: seq<nat>, j: nat)
    requires j <= |s| && Zeros(s[..j])
    ensures Number(base, s) == Number(base, s[j..])
  {
    NumberSplit(base, s, j);
    NumberOfZeros(base, s[..j]);
  }

  /** A digit in front. */
  lemma NumberFront(base: nat, s: seq<nat>, j: nat)
    requires j < |s|
    ensures Number(base, s[j..]) == s[j] * Pow(base, |s| - j - 1) + Number(base, s[j + 1..])
  {
    NumberSplit(base, s[j..], 1);
    assert s[j..][..1] == [s[j]] && s[j..][1..] == s[j + 1..];
    assert Number(base, [s[j]]) == s[j];
  }

  /** A first digit that is not zero makes a number as large as its length allows at least. */
  lemma MinimalBound(base: nat, s: seq<nat>)
    requires base >= 2 && Below(base, s) && s != []
    ensures s[0] != 0 <==> Number(base, s) >= Pow(base, |s| - 1)
  {
    assert s[0..] == s;
    NumberFront(base, s, 0);
    NumberBound(base, s[1..]);
    if s[0] != 0 { ProductMono(1, s[0], Pow(base, |s| - 1)); }
  }

  /** Digits without a leading zero are the digits of their number. */
  lemma {:induction false} DigitsUnique(base: nat, s: seq<nat>)
    requires base >= 2 && Below(base, s) && Minimal(s)
    ensures DigitsOf(base, Number(base, s)) == s
  {
    if s != [] {
      var n := |s| - 1;
      DigitsUnique(base, s[..n]);
      IsRemainder(s[n], Number(base, s[..n]), base, Number(base, s));
      if n > 0 { MinimalBound(base, s[..n]); PowPositive(base, n - 1); ProductMono(1, Number(base, s[..n]), base); }
      assert Number(base, s) > 0;
      assert s == s[..n] + [s[n]];
    }
  }

  lemma AppendDigit(base: nat, front: seq<nat>, d: nat)
    requires Below(base, front) && d < base && Minimal(front) && (front == [] ==> d != 0)
    ensures Below(base, front + [d]) && Minimal(front + [d]) && Number(base, front + [d]) == Number(base, front) * base + d
  {
    assert (front + [d])[..|front|] == front;
  }

  lemma QuotientAndRest(base: nat, n: nat)
    requires base >= 2 && n > 0
    ensures n == (n / base) * base + n % base && (n / base == 0 ==> n % base != 0)
  {
  }

  lemma {:induction false} DigitsAre(base: nat, n: nat)
    requires base >= 2
    ensures Below(base, DigitsOf(base, n)) && Number(base, DigitsOf(base, n)) == n && Minimal(DigitsOf(base, n))
    decreases n
  {
    hide Number, Below, Minimal;
    if n == 0 {
      NoDigits(base);
    } else {
      Shrinks(base, n);
      QuotientAndRest(base, n);
      var q, d := n / base, n % base;
      DigitsAre(base, q);
      var front := DigitsOf(base, q);
      assert DigitsOf(base, n) == front + [d];
      hide DigitsOf;
      assert front == [] ==> q == 0 by { NoDigits(base); }
      AppendDigit(base, front, d);
    }
  }

  lemma NoDigits(base: nat)
    ensures Below(base, []) && Number(base, []) == 0 && Minimal([])
  {
  }

  // ----------------------------------------------------------------- the inner loop

  /** A buffer that holds a number in its last digits, of which the first is not zero. */
  ghost predicate Holds(base: nat, s: seq<nat>, length: nat, n: nat) {
    && length <= |s| && Below(base, s) && Zeros(s[..|s| - length]) && Number(base, s) == n
    && (length > 0 ==> n >= Pow(base, length - 1))
  }

  /** digits = digits * factor + ch. If the result fits, nothing is carried out of the buffer. */
  method MulAdd(b: array<nat>, base: nat, factor: nat, ch: nat, length: nat, ghost n: nat) returns (i: nat)
    requires base >= 2 && factor >= 1 && Holds(base, b[..], length, n) && n * factor + ch < Pow(base, b.Length)
    modifies b
    ensures Holds(base, b[..], i, n * factor + ch)
  {
    hide Number, Pow, Below, Zeros;
    ghost var o := b[..];
    var carry: nat := ch;
    i := 0;
    LoopStart(base, factor, o, ch);
    while (carry != 0 || i < length) && i != b.Length
      invariant 0 <= i <= b.Length && Below(base, b[..]) && b[..b.Length - i] == o[..b.Length - i]
      invariant Number(base, b[b.Length - i..]) + carry * Pow(base, i) == Number(base, o[b.Length - i..]) * factor + ch
      invariant i > length ==> Number(base, o[b.Length - i..]) * factor + ch >= Pow(base, i - 1)
      decreases b.Length - i
    {
      var at := b.Length - 1 - i;
      assert b[at] == b[..b.Length - i][at] == o[..b.Length - i][at] == o[at];
      ghost var before := b[..];
      var sum := carry + factor * b[at];
      LoopStep(base, factor, before, o, at, carry, sum, ch, length);
      b[at] := sum % base;
      assert b[..] == before[at := sum % base];
      assert b[at + 1..] == before[at + 1..] && b[..at] == before[..at] == o[..at];
      carry := sum / base;
      i := i + 1;
    }
    LoopEnd(base, factor, b[..], o, i, carry, ch, length, n);
    assert carry == 0;
  }

  lemma LoopStart(base: nat, factor: nat, o: seq<nat>, ch: nat)
    requires base >= 2
    ensures Number(base, o[|o|..]) == 0 && Pow(base, 0) == 1
  {
  }

  lemma LoopStep(base: nat, factor: nat, before: seq<nat>, o: seq<nat>, at: nat, carry: nat, sum: nat, ch: nat, length: nat)
    requires base >= 2 && at < |o| == |before| && Below(base, before) && before[at] == o[at] && before[..at] == o[..at]
    requires sum == carry + factor * before[at] && length <= |o| && Zeros(o[..|o| - length])
    requires var i := |o| - 1 - at;
             && Number(base, before[at + 1..]) + carry * Pow(base, i) == Number(base, o[at + 1..]) * factor + ch
             && (carry != 0 || i < length)
    ensures 0 <= sum % base < base && sum / base >= 0
    ensures var i, after := |o| - 1 - at, before[at := sum % base];
            && Below(base, after)
            && Number(base, after[at..]) + (sum / base) * Pow(base, i + 1) == Number(base, o[at..]) * factor + ch
            && (i + 1 > length ==> Number(base, o[at..]) * factor + ch >= Pow(base, i))
  {
    hide Number, Pow, Zeros;
    var i, after := |o| - 1 - at, before[at := sum % base];
    QuotientFits(sum, base);
    NumberFront(base, o, at);
    NumberFront(base, after, at);
    assert after[at + 1..] == before[at + 1..];
    PowNext(base, i);
    StepNumbers(sum, base, Pow(base, i), Number(base, before[at + 1..]), Number(base, o[at + 1..]), o[at], factor, carry, ch);
    if i >= length {
      ZeroAt(o[..|o| - length], at);
      PowPositive(base, i);
      ProductMono(1, carry, Pow(base, i));
    }
  }

  lemma PowNext(b: nat, n: nat)
    ensures Pow(b, n + 1) == b * Pow(b, n)
  {
  }

  lemma ZeroAt(s: seq<nat>, k: nat)
    requires Zeros(s) && k < |s|
    ensures s[k] == 0
  {
  }

  lemma StepNumbers(sum: nat, base: nat, w: nat, low: nat, was: nat, d: nat, factor: nat, carry: nat, ch: nat)
    requires base > 0 && sum == carry + factor * d && low + carry * w == was * factor + ch
    ensures (sum % base) * w + low + (sum / base) * (base * w) == (d * w + was) * factor + ch
  {
    CarryNumbers(sum, base, w);
    Distribute(d * w, was, factor);
    Associate(factor, d, w);
    Distribute(carry, factor * d, w);
  }

  lemma CarryNumbers(sum: nat, base: nat, w: nat)
    requires base > 0
    ensures (sum % base) * w + (sum / base) * (base * w) == sum * w
  {
    var r, q := sum % base, sum / base;
    assert sum == q * base + r;
    Distribute(q * base, r, w);
    Associate(q, base, w);
  }

  lemma LoopEnd(base: nat, factor: nat, s: seq<nat>, o: seq<nat>, i: nat, carry: nat, ch: nat, length: nat, n: nat)
    requires base >= 2 && factor >= 1 && Holds(base, o, length, n) && n * factor + ch < Pow(base, |o|)
    requires |s| == |o| && i <= |o| && Below(base, s) && s[..|o| - i] == o[..|o| - i]
    requires Number(base, s[|o| - i..]) + carry * Pow(base, i) == Number(base, o[|o| - i..]) * factor + ch
    requires i > length ==> Number(base, o[|o| - i..]) * factor + ch >= Pow(base, i - 1)
    requires (carry == 0 && i >= length) || i == |o|
    ensures carry == 0 && Holds(base, s, i, n * factor + ch)
  {
    var j := |o| - i;
    assert Zeros(o[..j]) by { assert forall k :: 0 <= k < j ==> o[..j][k] == o[..|o| - length][k]; }
    LeadingZeros(base, o, j);
    LeadingZeros(base, s, j);
    hide Number;
    if carry > 0 { ProductMono(1, carry, Pow(base, i)); }
    if i == length && i > 0 { ProductMono(1, factor, n); }
  }

  // ---------------------------------------------------------------------- characters

  const ALPHABET := "123456789ABCDEFGHJKLMN" + "PQRSTUVWXYZabcdefghijk" + "mnopqrstuvwxyz"

  /** The character of pszBase58 for a digit: alphanumeric, without 0, I, O and l. */
  function CharOf(d: int): char
    requires 0 <= d < 58
  {
    if d < 9 then '1' + d as char
    else if d < 17 then 'A' + (d - 9) as char
    else if d < 22 then 'J' + (d - 17) as char
    else if d < 33 then 'P' + (d - 22) as char
    else if d < 44 then 'a' + (d - 33) as char
    else 'm' + (d - 44) as char
  }

  /** mapBase58. */
  function DigitOf(c: char): (d: int)
    ensures -1 <= d < 58
  {
    if '1' <= c <= '9' then c as int - '1' as int
    else if 'A' <= c <= 'H' then 9 + (c as int - 'A' as int)
    else if 'J' <= c <= 'N' then 17 + (c as int - 'J' as int)
    else if 'P' <= c <= 'Z' then 22 + (c as int - 'P' as int)
    else if 'a' <= c <= 'k' then 33 + (c as int - 'a' as int)
    else if 'm' <= c <= 'z' then 44 + (c as int - 'm' as int)
    else -1
  }

  predicate IsSpace(c: char) {
    c == ' ' || 9 <= c as int <= 13
  }

  lemma CharIs(d: int)
    requires 0 <= d < 58
    ensures |ALPHABET| == 58 && CharOf(d) == ALPHABET[d]
  {
  }

  lemma CharInverse(d: int)
    requires 0 <= d < 58
    ensures DigitOf(CharOf(d)) == d && !IsSpace(CharOf(d)) && (CharOf(d) == '1' <==> d == 0) && CharOf(d) as int != 0
  {
  }

  lemma DigitInverse(c: char)
    ensures -1 <= DigitOf(c) < 58 && (DigitOf(c) != -1 ==> CharOf(DigitOf(c)) == c && !IsSpace(c)) && DigitOf('1') == 0
  {
  }

  ghost function Chars(ds: seq<nat>): (r: string)
    requires Below(58, ds)
    ensures |r| == |ds| && forall i :: 0 <= i < |ds| ==> r[i] == CharOf(ds[i])
  {
    seq(|ds|, i requires 0 <= i < |ds| => CharOf(ds[i]))
  }

  ghost function LeadingZeroCount(x: seq<nat>): (z: nat)
    ensures z <= |x| && Zeros(x[..z]) && (z < |x| ==> x[z] != 0)
  {
    if x == [] || x[0] != 0 then 0
    else
      var z := LeadingZeroCount(x[1..]);
      assert x[..z + 1] == [0] + x[1..][..z];
      z + 1
  }

  ghost function Repeat<T>(n: nat, v: T): (r: seq<T>)
    ensures |r| == n && forall i :: 0 <= i < n ==> r[i] == v
  {
    seq(n, _ => v)
  }

  /** A one for every leading zero byte, then the base 58 digits of the rest. */
  ghost function Encoded(x: seq<Byte>): string {
    var z := LeadingZeroCount(x);
    DigitsAre(58, Number(256, x[z..]));
    Repeat(z, '1') + Chars(DigitsOf(58, Number(256, x[z..])))
  }

  // ------------------------------------------------------------------------ encoding

  /** EncodeBase58. The buffer is always large enough. */
  method EncodeBase58(input: seq<Byte>) returns (str: string)
    ensures str == Encoded(input)
  {
    hide Number, Pow, DigitsOf, LeadingZeroCount, Holds;
    var zeroes := 0;
    while zeroes < |input| && input[zeroes] == 0
      invariant 0 <= zeroes <= |input| && Zeros(input[..zeroes])
    {
      zeroes := zeroes + 1;
    }
    ZerosCounted(input, zeroes);
    var b58, length := Convert(input[zeroes..]);
    ghost var n := Number(256, input[zeroes..]);
    HeldDigits(58, b58[..], length, n);
    DigitsAre(58, n);
    var it := SkipZeros(b58, b58.Length - length);
    assert b58[it..] == b58[..][it..];
    str := Translate(b58, it, zeroes);
  }

  method SkipZeros(b58: array<nat>, from: nat) returns (it: nat)
    requires from <= b58.Length
    ensures from <= it <= b58.Length && (forall k :: from <= k < it ==> b58[k] == 0) && (it < b58.Length ==> b58[it] != 0)
  {
    it := from;
    while it != b58.Length && b58[it] == 0
      invariant from <= it <= b58.Length && forall k :: from <= k < it ==> b58[k] == 0
    {
      it := it + 1;
    }
  }

  /** The end of EncodeBase58: ones for the leading zeros, then the digits as characters. */
  method Translate(b58: array<nat>, first: nat, zeroes: nat) returns (str: string)
    requires first <= b58.Length && Below(58, b58[first..])
    ensures str == Repeat(zeroes, '1') + Chars(b58[first..])
  {
    hide CharOf;
    str := [];
    for k := 0 to zeroes
      invariant str == Repeat(k, '1')
    {
      str := str + ['1'];
    }
    ghost var chars := Chars(b58[first..]);
    var it := first;
    while it != b58.Length
      invariant first <= it <= b58.Length
      invariant str == Repeat(zeroes, '1') + chars[..it - first]
    {
      assert b58[it] == b58[first..][it - first];
      str := str + [CharOf(b58[it])];
      it := it + 1;
    }
  }

  /** The conversion loop of EncodeBase58. */
  method Convert(rest: seq<Byte>) returns (b58: array<nat>, length: nat)
    ensures fresh(b58) && Holds(58, b58[..], length, Number(256, rest))
  {
    hide Number, Pow, Holds;
    var size := |rest| * 138 / 100 + 1;
    b58 := new nat[size](_ => 0);
    length := 0;
    HoldsNothing(58, b58[..]);
    NumberEmpty(256, rest);
    for k := 0 to |rest|
      invariant Holds(58, b58[..], length, Number(256, rest[..k]))
    {
      NextDigit(256, rest, k);
      FitsIn58(rest, k + 1);
      length := MulAdd(b58, 58, 256, rest[k], length, Number(256, rest[..k]));
    }
    assert rest[..|rest|] == rest;
  }

  lemma NumberEmpty(base: nat, s: seq<nat>)
    ensures Number(base, s[..0]) == 0
  {
  }

  lemma NextDigit(base: nat, s: seq<nat>, k: nat)
    requires k < |s|
    ensures Number(base, s[..k + 1]) == Number(base, s[..k]) * base + s[k]
  {
    assert s[..k + 1][..k] == s[..k];
  }

  lemma HoldsNothing(base: nat, s: seq<nat>)
    requires base > 0 && forall i :: 0 <= i < |s| ==> s[i] == 0
    ensures Holds(base, s, 0, 0)
  {
    NumberOfZeros(base, s);
  }

  /** 138/100 suffices: any number of bytes fits in the base 58 buffer sized for them. */
  lemma FitsIn58(s: seq<Byte>, k: nat)
    requires k <= |s|
    ensures Number(256, s[..k]) < Pow(58, |s| * 138 / 100 + 1)
  {
    hide Number, Pow;
    NumberBound(256, s[..k]);
    Bytes8In11Digits();
    EstimateSuffices(256, 58, 8, 11, k, |s| * 138 / 100 + 1);
  }

  /** 733/1000 suffices: any number of base 58 digits fits in the byte buffer sized for them. */
  lemma FitsIn256(s: seq<nat>, k: nat, room: nat)
    requires Below(58, s) && k <= |s| <= room
    ensures Number(58, s[..k]) < Pow(256, room * 733 / 1000 + 1)
  {
    hide Number, Pow;
    NumberBound(58, s[..k]);
    Digits71In52Bytes();
    EstimateSuffices(58, 256, 71, 52, k, room * 733 / 1000 + 1);
  }

  lemma {:induction false} ZerosCounted(x: seq<nat>, z: nat)
    requires z <= |x| && Zeros(x[..z]) && (z < |x| ==> x[z] != 0)
    ensures LeadingZeroCount(x) == z
  {
    if z > 0 {
      assert x[0] == x[..z][0] == 0;
      assert x[1..][..z - 1] == x[..z][1..];
      ZerosCounted(x[1..], z - 1);
    }
  }

  /** What a buffer holds are the digits of the number. */
  lemma HeldDigits(base: nat, s: seq<nat>, length: nat, n: nat)
    requires base >= 2 && Holds(base, s, length, n)
    ensures length <= |s| && Below(base, s) && s[|s| - length..] == DigitsOf(base, n) && Minimal(s[|s| - length..])
    ensures length > 0 ==> s[|s| - length] != 0
  {
    var ds := s[|s| - length..];
    LeadingZeros(base, s, |s| - length);
    if length > 0 { MinimalBound(base, ds); }
    DigitsUnique(base, ds);
  }

  // ------------------------------------------------------------------------ decoding

  ghost function SkipSpaces(s: string): (r: string)
    ensures |r| <= |s| && r == s[|s| - |r|..] && (r != [] ==> !IsSpace(r[0]))
  {
    if s != [] && IsSpace(s[0]) then SkipSpaces(s[1..]) else s
  }

  ghost function DropSpaces(s: string): (r: string)
    ensures r <= s && (r != [] ==> !IsSpace(r[|r| - 1]))
  {
    if s != [] && IsSpace(s[|s| - 1]) then DropSpaces(s[..|s| - 1]) else s
  }

  /** A string without the white space around it. */
  ghost function Trimmed(s: string): string {
    DropSpaces(SkipSpaces(s))
  }

  predicate NoNul(s: string) {
    forall i :: 0 <= i < |s| ==> s[i] as int != 0
  }

  /** A string that, without outer white space, is the encoding of x, which is not too long. */
  ghost predicate Accepts(str: string, maxLen: int, x: seq<Byte>) {
    NoNul(str) && Trimmed(str) == Encoded(x) && (x == [] || |x| <= maxLen)
  }

  /** The parts the decoder sees: white space, ones, other characters up to the next white space, and the rest. */
  datatype Parts = Parts(start: nat, ones: nat, end: nat)

  ghost predicate Splits(s: string, p: Parts) {
    && p.start <= p.start + p.ones <= p.end <= |s|
    && (forall i :: 0 <= i < p.start ==> IsSpace(s[i])) && (p.start < |s| ==> !IsSpace(s[p.start]))
    && (forall i :: p.start <= i < p.start + p.ones ==> s[i] == '1')
    && (p.start + p.ones < p.end ==> s[p.start + p.ones] != '1')
    && (forall i :: p.start + p.ones <= i < p.end ==> !IsSpace(s[i]))
    && (p.end < |s| ==> IsSpace(s[p.end]))
  }

  /** Every character after the ones is a digit, and only white space follows. */
  ghost predicate Good(s: string, p: Parts)
    requires Splits(s, p)
  {
    && (forall i :: p.start + p.ones <= i < p.end ==> DigitOf(s[i]) != -1)
    && (forall i :: p.end <= i < |s| ==> IsSpace(s[i]))
  }

  /** The digits of some characters. */
  ghost function DigitsAt(s: string, from: nat, end: nat): (ds: seq<nat>)
    requires from <= end <= |s| && forall i :: from <= i < end ==> DigitOf(s[i]) != -1
    ensures |ds| == end - from && Below(58, ds) && forall i :: 0 <= i < |ds| ==> ds[i] == DigitOf(s[from + i])
    decreases end
  {
    if from == end then [] else DigitsAt(s, from, end - 1) + [DigitOf(s[end - 1])]
  }

  ghost function Value(s: string, p: Parts): nat
    requires Splits(s, p) && Good(s, p)
  {
    Number(58, DigitsAt(s, p.start + p.ones, p.end))
  }

  /** The bytes a string with good parts stands for. */
  ghost function Bytes(s: string, p: Parts): (x: seq<Byte>)
    requires Splits(s, p) && Good(s, p)
  {
    DigitsAre(256, Value(s, p));
    AsBytes(Repeat(p.ones, 0) + DigitsOf(256, Value(s, p)))
  }

  ghost function AsBytes(s: seq<nat>): (r: seq<Byte>)
    requires Below(256, s)
    ensures |r| == |s| && forall i :: 0 <= i < |s| ==> r[i] == s[i]
  {
    seq(|s|, i requires 0 <= i < |s| => s[i])
  }

  lemma FindParts(s: string) returns (p: Parts)
    ensures Splits(s, p)
  {
    var start := 0;
    while start < |s| && IsSpace(s[start])
      invariant 0 <= start <= |s| && forall i :: 0 <= i < start ==> IsSpace(s[i])
    {
      start := start + 1;
    }
    var after := start;
    while after < |s| && s[after] == '1'
      invariant start <= after <= |s| && forall i :: start <= i < after ==> s[i] == '1'
    {
      after := after + 1;
    }
    var end := after;
    while end < |s| && !IsSpace(s[end])
      invariant after <= end <= |s| && forall i :: after <= i < end ==> !IsSpace(s[i])
      invariant after < end ==> s[after] != '1'
    {
      end := end + 1;
    }
    p := Parts(start, after - start, end);
  }

  lemma {:induction false} SkipSpacesIs(s: string, start: nat)
    requires start <= |s| && (forall i :: 0 <= i < start ==> IsSpace(s[i])) && (start < |s| ==> !IsSpace(s[start]))
    ensures SkipSpaces(s) == s[start..]
  {
    if start > 0 {
      SkipSpacesIs(s[1..], start - 1);
      assert s[1..][start - 1..] == s[start..];
    }
  }

  lemma {:induction false} DropSpacesIs(s: string, end: nat)
    requires end <= |s| && (forall i :: end <= i < |s| ==> IsSpace(s[i])) && (end > 0 ==> !IsSpace(s[end - 1]))
    ensures DropSpaces(s) == s[..end]
  {
    if end < |s| {
      DropSpacesIs(s[..|s| - 1], end);
      assert s[..|s| - 1][..end] == s[..end];
    } else {
      assert s[..end] == s;
    }
  }

  lemma {:induction false} DroppedAreSpaces(s: string)
    ensures forall i :: |DropSpaces(s)| <= i < |s| ==> IsSpace(s[i])
  {
    if s != [] && IsSpace(s[|s| - 1]) { DroppedAreSpaces(s[..|s| - 1]); }
  }

  lemma TrimmedGood(s: string, p: Parts)
    requires Splits(s, p) && forall i :: p.end <= i < |s| ==> IsSpace(s[i])
    ensures Trimmed(s) == s[p.start..p.end]
  {
    hide SkipSpaces, DropSpaces;
    SkipSpacesIs(s, p.start);
    LastNotSpace(s, p);
    DropFrom(s, p.start, p.end);
  }

  lemma LastNotSpace(s: string, p: Parts)
    requires Splits(s, p)
    ensures p.start <= p.end <= |s| && (p.start < p.end ==> !IsSpace(s[p.end - 1]))
  {
  }

  lemma DropFrom(s: string, start: nat, end: nat)
    requires start <= end <= |s| && (forall i :: end <= i < |s| ==> IsSpace(s[i])) && (start < end ==> !IsSpace(s[end - 1]))
    ensures DropSpaces(s[start..]) == s[start..end]
  {
    var t, n := s[start..], end - start;
    forall i | n <= i < |t| ensures IsSpace(t[i]) { assert t[i] == s[start + i]; }
    hide IsSpace;
    DropSpacesIs(t, n);
    assert t[..n] == s[start..end];
  }

  /** A trimmed string ends before the first inner white space, or contains it. */
  lemma TrimmedReaches(s: string, p: Parts)
    requires Splits(s, p)
    ensures |Trimmed(s)| <= p.end - p.start || IsSpace(Trimmed(s)[p.end - p.start])
    ensures forall i :: p.start + |Trimmed(s)| <= i < |s| ==> IsSpace(s[i])
  {
    hide Splits, Trimmed, DropSpaces, IsSpace;
    TrimmedIs(s, p);
    DropReaches(s, p.start, p.end);
  }

  lemma TrimmedIs(s: string, p: Parts)
    requires Splits(s, p)
    ensures p.start <= p.end <= |s| && (p.end < |s| ==> IsSpace(s[p.end])) && Trimmed(s) == DropSpaces(s[p.start..])
  {
    hide SkipSpaces, DropSpaces, IsSpace;
    SkipSpacesIs(s, p.start);
  }

  lemma DropReaches(s: string, start: nat, end: nat)
    requires start <= end <= |s| && (end < |s| ==> IsSpace(s[end]))
    ensures |DropSpaces(s[start..])| <= end - start || IsSpace(DropSpaces(s[start..])[end - start])
    ensures forall i :: start + |DropSpaces(s[start..])| <= i < |s| ==> IsSpace(s[i])
  {
    hide IsSpace;
    var t := s[start..];
    DroppedAreSpaces(t);
    var r := DropSpaces(t);
    hide DropSpaces;
    if |r| > end - start { assert r[end - start] == t[end - start] == s[end]; }
    forall i | start + |r| <= i < |s| ensures IsSpace(s[i]) { assert s[i] == t[i - start]; }
  }

  /** A trimmed string without inner white space is all there is. */
  lemma TrimmedPlain(s: string, p: Parts)
    requires Splits(s, p) && forall i :: 0 <= i < |Trimmed(s)| ==> !IsSpace(Trimmed(s)[i])
    ensures forall i :: p.end <= i < |s| ==> IsSpace(s[i])
  {
    hide Trimmed;
    TrimmedReaches(s, p);
  }

  lemma EncodedPlain(x: seq<Byte>)
    ensures forall i :: 0 <= i < |Encoded(x)| ==> !IsSpace(Encoded(x)[i])
  {
    var z := LeadingZeroCount(x);
    DigitsAre(58, Number(256, x[z..]));
    var ds := DigitsOf(58, Number(256, x[z..]));
    hide LeadingZeroCount, Number, DigitsOf, CharOf;
    forall i | 0 <= i < |Encoded(x)| ensures !IsSpace(Encoded(x)[i]) {
      if i >= z { CharInverse(ds[i - z]); }
    }
  }

  lemma EncodedIs(x: seq<Byte>, z: nat, n: nat)
    requires z == LeadingZeroCount(x) && n == Number(256, x[z..])
    ensures Below(58, DigitsOf(58, n)) && Encoded(x) == Repeat(z, '1') + Chars(DigitsOf(58, n))
    ensures Below(256, DigitsOf(256, n)) && x == AsBytes(Repeat(z, 0) + DigitsOf(256, n))
    ensures Minimal(DigitsOf(58, n))
  {
    hide DigitsOf, Number, LeadingZeroCount;
    DigitsAre(58, n);
    DigitsAre(256, n);
    var rest: seq<nat> := x[z..];
    DigitsUnique(256, rest);
    Reassembled(x, z, rest);
  }

  lemma Reassembled(x: seq<Byte>, z: nat, rest: seq<nat>)
    requires z <= |x| && Zeros(x[..z]) && rest == x[z..] && Below(256, rest)
    ensures x == AsBytes(Repeat(z, 0) + rest)
  {
    var made := Repeat(z, 0) + rest;
    forall i | 0 <= i < |x| ensures x[i] == made[i] {
      if i < z { assert x[..z][i] == 0; } else { assert x[i] == rest[i - z]; }
    }
  }

  /** Of an accepted string all parts are as the encoding makes them. */
  lemma AcceptedOnlyIf(s: string, p: Parts, x: seq<Byte>)
    requires Splits(s, p) && Trimmed(s) == Encoded(x)
    ensures Good(s, p) && Bytes(s, p) == x
  {
    hide Encoded, Trimmed, LeadingZeroCount, Number, DigitsOf, Splits, DigitOf, CharOf, Good;
    var z := LeadingZeroCount(x);
    var n := Number(256, x[z..]);
    EncodedIs(x, z, n);
    EncodedPlain(x);
    LastNotSpace(s, p);
    TrimmedPlain(s, p);
    TrimmedGood(s, p);
    BodyIs(s, p, z, DigitsOf(58, n));
    DigitsAre(58, n);
  }

  /** Ones and then digits that do not start with a zero: the decoder splits them just so. */
  lemma BodyIs(s: string, p: Parts, z: nat, ds: seq<nat>)
    requires Splits(s, p) && p.start <= p.end <= |s| && Below(58, ds) && Minimal(ds)
    requires s[p.start..p.end] == Repeat(z, '1') + Chars(ds) && forall i :: p.end <= i < |s| ==> IsSpace(s[i])
    ensures Good(s, p) && p.ones == z && DigitsAt(s, p.start + p.ones, p.end) == ds
  {
    hide DigitOf, CharOf, IsSpace, Splits;
    forall i | 0 <= i < |ds| ensures DigitOf(s[p.start + z + i]) == ds[i] && (s[p.start + z + i] == '1' <==> ds[i] == 0) {
      BodyDigit(s, p, z, ds, i);
    }
    forall i | p.start <= i < p.start + z ensures s[i] == '1' {
      assert s[p.start..p.end][i - p.start] == s[i];
    }
    OnesAre(s, p, z, ds);
    forall i | p.start + z <= i < p.end ensures DigitOf(s[i]) != -1 {
      assert DigitOf(s[p.start + z + (i - p.start - z)]) == ds[i - p.start - z];
    }
    assert Good(s, p);
    hide Good;
    var read := DigitsAt(s, p.start + z, p.end);
    forall i | 0 <= i < |ds| ensures read[i] == ds[i] {
      assert read[i] == DigitOf(s[p.start + z + i]);
    }
  }

  lemma BodyDigit(s: string, p: Parts, z: nat, ds: seq<nat>, i: nat)
    requires p.start <= p.end <= |s| && Below(58, ds) && i < |ds| && s[p.start..p.end] == Repeat(z, '1') + Chars(ds)
    ensures p.end == p.start + z + |ds| && DigitOf(s[p.start + z + i]) == ds[i] && (s[p.start + z + i] == '1' <==> ds[i] == 0)
  {
    hide DigitOf, CharOf;
    var body := s[p.start..p.end];
    assert body[z + i] == s[p.start + z + i] == CharOf(ds[i]);
    CharInverse(ds[i]);
  }

  lemma OnesAre(s: string, p: Parts, z: nat, ds: seq<nat>)
    requires Splits(s, p) && p.end == p.start + z + |ds|
    requires forall i :: p.start <= i < p.start + z ==> s[i] == '1'
    requires |ds| > 0 ==> s[p.start + z] != '1'
    ensures p.ones == z
  {
  }

  lemma FirstDigit(s: string, p: Parts)
    requires Splits(s, p) && Good(s, p)
    ensures p.start + p.ones <= p.end <= |s| && forall i :: p.start + p.ones <= i < p.end ==> DigitOf(s[i]) != -1
    ensures Minimal(DigitsAt(s, p.start + p.ones, p.end)) && forall i :: p.end <= i < |s| ==> IsSpace(s[i])
  {
    if p.start + p.ones < p.end { DigitInverse(s[p.start + p.ones]); }
  }

  /** Good parts are what the encoder makes of the bytes they stand for. */
  lemma AcceptedIf(s: string, p: Parts)
    requires Splits(s, p) && Good(s, p)
    ensures Trimmed(s) == Encoded(Bytes(s, p))
  {
    hide Trimmed, DigitsOf, Number, LeadingZeroCount, Encoded, Minimal, Splits, Good, DigitOf, IsSpace, CharOf;
    FirstDigit(s, p);
    var n := Value(s, p);
    var ds, x := DigitsAt(s, p.start + p.ones, p.end), Bytes(s, p);
    TrimmedGood(s, p);
    DigitsAre(256, n);
    DigitsUnique(58, ds);
    CountedBytes(x, p.ones, DigitsOf(256, n));
    EncodedIs(x, p.ones, n);
    BodyOf(s, p, ds);
  }

  lemma CountedBytes(x: seq<Byte>, z: nat, rest: seq<nat>)
    requires Below(256, rest) && Minimal(rest) && x == AsBytes(Repeat(z, 0) + rest)
    ensures LeadingZeroCount(x) == z && Number(256, x[z..]) == Number(256, rest)
  {
    var y: seq<nat> := x;
    assert y[z..] == rest;
    assert z < |y| ==> y[z] == rest[0];
    ZerosCounted(y, z);
  }

  lemma BodyOf(s: string, p: Parts, ds: seq<nat>)
    requires Splits(s, p) && Good(s, p) && ds == DigitsAt(s, p.start + p.ones, p.end)
    ensures s[p.start..p.end] == Repeat(p.ones, '1') + Chars(ds)
  {
    hide CharOf, DigitOf;
    var body, made := s[p.start..p.end], Repeat(p.ones, '1') + Chars(ds);
    forall i | 0 <= i < |body| ensures body[i] == made[i] {
      if i >= p.ones {
        DigitInverse(s[p.start + i]);
        assert ds[i - p.ones] == DigitOf(s[p.start + p.ones + (i - p.ones)]);
      }
    }
  }

  /** What is accepted, in terms of the parts. */
  lemma AcceptedExactly(s: string, maxLen: int, p: Parts, x: seq<Byte>)
    requires Splits(s, p) && NoNul(s)
    ensures Accepts(s, maxLen, x) <==> Good(s, p) && x == Bytes(s, p) && (x == [] || |x| <= maxLen)
  {
    hide Splits, Good, Bytes, Trimmed, Encoded;
    if Trimmed(s) == Encoded(x) { AcceptedOnlyIf(s, p, x); }
    if Good(s, p) { AcceptedIf(s, p); }
  }

  /** DecodeBase58 accepts exactly the encodings of byte strings that are not too long, up to white
      space around them. */
  method DecodeBase58(str: string, maxLen: int) returns (r: Option<seq<Byte>>)
    ensures forall x :: r == Some(x) <==> Accepts(str, maxLen, x)
  {
    hide Trimmed, Encoded;
    if !NoNul(str) {
      return None;
    }
    r := DecodeCString(str, maxLen);
  }

  /** The work on the C string. */
  method DecodeCString(str: string, maxLen: int) returns (r: Option<seq<Byte>>)
    requires NoNul(str)
    ensures forall x :: r == Some(x) <==> Accepts(str, maxLen, x)
  {
    hide Accepts, Good, Bytes, Splits, Value, Holds, DigitsOf, AsBytes, Repeat, Below, DigitOf, Trimmed, Encoded;
    ghost var p := FindParts(str);
    forall x ensures Accepts(str, maxLen, x) <==> Good(str, p) && x == Bytes(str, p) && (x == [] || |x| <= maxLen) {
      AcceptedExactly(str, maxLen, p, x);
    }
    var zeroes, psz := SkipOnes(str, maxLen, p);
    if zeroes > 0 && zeroes > maxLen {
      if Good(str, p) { BytesLength(str, p); }
      return None;
    }
    var ok, end, b256, length, n := ReadDigits(str, psz, zeroes, maxLen, p);
    if !ok {
      return None;
    }
    psz := SkipTrailing(str, end);
    if psz != |str| {
      GoodNeeds(str, p);
      return None;
    }
    AllGood(str, p);
    var vch := Output(b256, length, zeroes, n);
    BytesLength(str, p);
    return Some(vch);
  }

  method SkipTrailing(str: string, end: nat) returns (psz: nat)
    requires end <= |str|
    ensures end <= psz <= |str| && (psz == |str| <==> forall i :: end <= i < |str| ==> IsSpace(str[i]))
  {
    psz := end;
    while psz < |str| && IsSpace(str[psz])
      invariant end <= psz <= |str| && forall i :: end <= i < psz ==> IsSpace(str[i])
    {
      psz := psz + 1;
    }
  }

  /** Skips white space and counts the ones, but not beyond the limit. */
  method SkipOnes(str: string, maxLen: int, ghost p: Parts) returns (zeroes: nat, psz: nat)
    requires Splits(str, p)
    ensures zeroes <= p.ones && psz <= |str|
    ensures zeroes == 0 || zeroes <= maxLen ==> zeroes == p.ones && psz == p.start + p.ones
  {
    psz := 0;
    while psz < |str| && IsSpace(str[psz])
      invariant 0 <= psz <= p.start
    {
      psz := psz + 1;
    }
    assert psz == p.start;
    zeroes := 0;
    while psz < |str| && str[psz] == '1'
      invariant 0 <= zeroes <= p.ones && psz == p.start + zeroes && (zeroes == 0 || zeroes <= maxLen)
      decreases |str| - psz
    {
      zeroes := zeroes + 1;
      if zeroes > maxLen {
        return;
      }
      psz := psz + 1;
    }
  }

  lemma GoodNeeds(s: string, p: Parts)
    requires Splits(s, p)
    ensures Good(s, p) ==> forall i :: p.start + p.ones <= i < |s| ==> DigitOf(s[i]) != -1 || (i >= p.end && IsSpace(s[i]))
    ensures Good(s, p) ==> forall i :: p.end <= i < |s| ==> IsSpace(s[i])
    ensures Good(s, p) ==> forall i :: p.start + p.ones <= i < p.end ==> DigitOf(s[i]) != -1
  {
  }

  lemma AllGood(s: string, p: Parts)
    requires Splits(s, p) && (forall i :: p.start + p.ones <= i < p.end ==> DigitOf(s[i]) != -1)
    requires forall i :: p.end <= i < |s| ==> IsSpace(s[i])
    ensures Good(s, p)
  {
  }

  lemma BytesLength(s: string, p: Parts)
    requires Splits(s, p) && Good(s, p)
    ensures |Bytes(s, p)| == p.ones + |DigitsOf(256, Value(s, p))|
    ensures Below(256, DigitsOf(256, Value(s, p))) && Bytes(s, p) == AsBytes(Repeat(p.ones, 0) + DigitsOf(256, Value(s, p)))
  {
    DigitsAre(256, Value(s, p));
  }

  /** Takes one more character into the buffer. */
  method PushDigit(str: string, from: nat, k: nat, b256: array<nat>, length: nat) returns (i: nat)
    requires from <= k < |str| && forall j :: from <= j <= k ==> DigitOf(str[j]) != -1
    requires b256.Length == (|str| - from) * 733 / 1000 + 1
    requires Holds(256, b256[..], length, Number(58, DigitsAt(str, from, k)))
    modifies b256
    ensures Holds(256, b256[..], i, Number(58, DigitsAt(str, from, k + 1)))
  {
    hide Number, Pow, Holds, DigitOf;
    OneMore(str, from, k, |str| - from);
    i := MulAdd(b256, 256, 58, DigitOf(str[k]), length, Number(58, DigitsAt(str, from, k)));
  }

  /** The conversion loop of DecodeBase58. It gives up early only on strings that are not accepted. */
  method ReadDigits(str: string, from: nat, zeroes: nat, maxLen: int, ghost p: Parts)
    returns (ok: bool, end: nat, b256: array<nat>, length: nat, ghost n: nat)
    requires Splits(str, p) && from == p.start + p.ones && zeroes == p.ones && (zeroes == 0 || zeroes <= maxLen)
    ensures ok ==> end == p.end <= |str| && forall i :: from <= i < p.end ==> DigitOf(str[i]) != -1
    ensures ok ==> Holds(256, b256[..], length, n) && (Good(str, p) ==> n == Value(str, p))
    ensures ok && length + zeroes > 0 ==> length + zeroes <= maxLen
    ensures !ok && Good(str, p) ==> |Bytes(str, p)| > maxLen && Bytes(str, p) != []
  {
    hide Number, Pow, Holds, DigitOf, Good, Bytes, DigitsOf, Value;
    var size := (|str| - from) * 733 / 1000 + 1;
    b256 := new nat[size](_ => 0);
    length, end, n := 0, from, 0;
    HoldsNothing(256, b256[..]);
    NumberEmpty(58, []);
    while end < |str| && !IsSpace(str[end])
      invariant from <= end <= p.end && fresh(b256) && b256.Length == size
      invariant forall i :: from <= i < end ==> DigitOf(str[i]) != -1
      invariant Holds(256, b256[..], length, Number(58, DigitsAt(str, from, end)))
      invariant if end == from then length == 0 else length + zeroes <= maxLen
      decreases |str| - end
    {
      var carry := DigitOf(str[end]);
      if carry == -1 {
        GoodNeeds(str, p);
        return false, end, b256, length, n;
      }
      length := PushDigit(str, from, end, b256, length);
      end := end + 1;
      if length + zeroes > maxLen {
        if Good(str, p) {
          TooLong(str, p, end, b256[..], length);
        }
        return false, end, b256, length, n;
      }
    }
    n := Number(58, DigitsAt(str, from, end));
    ValueIs(str, p);
    return true, end, b256, length, n;
  }

  lemma ValueIs(s: string, p: Parts)
    requires Splits(s, p) && forall i :: p.start + p.ones <= i < p.end ==> DigitOf(s[i]) != -1
    ensures Good(s, p) ==> Value(s, p) == Number(58, DigitsAt(s, p.start + p.ones, p.end))
  {
  }

  lemma OneMore(s: string, from: nat, k: nat, room: nat)
    requires from <= k < |s| && room == |s| - from && forall i :: from <= i <= k ==> DigitOf(s[i]) != -1
    ensures Number(58, DigitsAt(s, from, k + 1)) == Number(58, DigitsAt(s, from, k)) * 58 + DigitOf(s[k])
    ensures Number(58, DigitsAt(s, from, k + 1)) < Pow(256, room * 733 / 1000 + 1)
  {
    var ds := DigitsAt(s, from, k + 1);
    assert ds == DigitsAt(s, from, k) + [DigitOf(s[k])];
    NextDigit(58, ds, k - from);
    assert ds[..k - from] == DigitsAt(s, from, k) && ds[..k - from + 1] == ds;
    hide Number, Pow;
    FitsIn256(ds, k + 1 - from, room);
  }

  /** Digits that are read later only make the number longer. */
  lemma TooLong(s: string, p: Parts, k: nat, buffer: seq<nat>, length: nat)
    requires Splits(s, p) && Good(s, p) && p.start + p.ones < k <= p.end
    requires Holds(256, buffer, length, Number(58, DigitsAt(s, p.start + p.ones, k)))
    ensures length > 0 && |Bytes(s, p)| >= p.ones + length
  {
    hide Number, Pow, Holds, DigitOf, Bytes, DigitsOf, IsSpace;
    var from := p.start + p.ones;
    var ds, all := DigitsAt(s, from, k), DigitsAt(s, from, p.end);
    assert ds == all[..k - from];
    FirstDigit(s, p);
    PrefixSmaller(58, all, k - from);
    BytesLength(s, p);
    MinimalBound(58, ds);
    PowPositive(58, |ds| - 1);
    HeldLength(256, buffer, length, Number(58, ds), Value(s, p));
  }

  lemma PrefixSmaller(base: nat, s: seq<nat>, k: nat)
    requires base > 0 && k <= |s|
    ensures Number(base, s[..k]) <= Number(base, s)
  {
    hide Number, Pow;
    NumberSplit(base, s, k);
    PowPositive(base, |s| - k);
    ProductMono(1, Pow(base, |s| - k), Number(base, s[..k]));
  }

  lemma HeldLength(base: nat, buffer: seq<nat>, length: nat, n: nat, v: nat)
    requires base >= 2 && Holds(base, buffer, length, n) && 0 < n <= v
    ensures 0 < length <= |DigitsOf(base, v)|
  {
    HeldDigits(base, buffer, length, n);
    DigitsAre(base, v);
    DigitsAre(base, n);
    var ds := DigitsOf(base, v);
    NumberBound(base, ds);
    hide DigitsOf, Pow, Number;
    if length > |ds| { PowMono(base, |ds|, length - 1); }
    assert length > 0 by { if length == 0 { NumberEmpty(base, []); } }
  }

  /** The end of DecodeBase58: zero bytes, then what the buffer holds. */
  method Output(b256: array<nat>, length: nat, zeroes: nat, ghost n: nat) returns (vch: seq<Byte>)
    requires Holds(256, b256[..], length, n)
    ensures Below(256, DigitsOf(256, n)) && vch == AsBytes(Repeat(zeroes, 0) + DigitsOf(256, n)) && |DigitsOf(256, n)| == length
  {
    hide Holds, DigitsOf, Minimal, Number;
    HeldDigits(256, b256[..], length, n);
    DigitsAre(256, n);
    vch := CopyOut(b256, b256.Length - length, zeroes);
    assert b256[b256.Length - length..] == b256[..][b256.Length - length..];
  }

  method CopyOut(b256: array<nat>, first: nat, zeroes: nat) returns (vch: seq<Byte>)
    requires first <= b256.Length && Below(256, b256[first..])
    ensures vch == AsBytes(Repeat(zeroes, 0) + b256[first..])
  {
    ghost var made := Repeat(zeroes, 0) + b256[first..];
    vch := [];
    for k := 0 to zeroes
      invariant |vch| == k && forall i :: 0 <= i < k ==> vch[i] == 0
    {
      vch := vch + [0];
    }
    var it := first;
    while it != b256.Length
      invariant first <= it <= b256.Length && |vch| == zeroes + it - first
      invariant forall i :: 0 <= i < |vch| ==> vch[i] == made[i]
    {
      assert b256[it] == b256[first..][it - first];
      vch := vch + [b256[it]];
      it := it + 1;
    }
  }

  // ------------------------------------------------------------------- round trips

  /** Every byte string within the limit is accepted back from its encoding. */
  lemma EncodedAccepted(x: seq<Byte>, maxLen: int)
    requires x == [] || |x| <= maxLen
    ensures Accepts(Encoded(x), maxLen, x)
  {
    EncodedPlain(x);
    var s := Encoded(x);
    var z := LeadingZeroCount(x);
    DigitsAre(58, Number(256, x[z..]));
    var ds := DigitsOf(58, Number(256, x[z..]));
    hide Encoded, LeadingZeroCount, DigitsOf, Number, CharOf;
    assert NoNul(s) by {
      forall i | 0 <= i < |s| ensures s[i] as int != 0 {
        if i >= z { CharInverse(ds[i - z]); }
      }
    }
    PlainTrimmed(s);
  }

  lemma PlainTrimmed(s: string)
    requires forall i :: 0 <= i < |s| ==> !IsSpace(s[i])
    ensures Trimmed(s) == s
  {
  }

  method EncodeDecode(x: seq<Byte>, maxLen: int) returns (r: Option<seq<Byte>>)
    requires x == [] || |x| <= maxLen
    ensures r == Some(x)
  {
    hide Accepts, Encoded;
    var str := EncodeBase58(x);
    EncodedAccepted(x, maxLen);
    r := DecodeBase58(str, maxLen);
  }

  /** Decoding and encoding again gives the string without the white space around it. */
  method DecodeEncode(str: string, maxLen: int) returns (r: Option<string>)
    ensures r.Some? ==> r.value == Trimmed(str)
    ensures r.None? ==> forall x :: !Accepts(str, maxLen, x)
  {
    hide Trimmed, Encoded;
    var x := DecodeBase58(str, maxLen);
    if x.None? {
      return None;
    }
    assert Accepts(str, maxLen, x.value);
    var again := EncodeBase58(x.value);
    return Some(again);
  }

  // ------------------------------------------------------------- with a hash check

  const INT_MAX := 0x7fff_ffff

  /** EncodeBase58Check: four bytes of the hash are appended. */
  method EncodeBase58Check(hash: seq<Byte> -> seq<Byte>, input: seq<Byte>) returns (str: string)
    requires |hash(input)| == 32
    ensures str == Encoded(input + hash(input)[..4])
  {
    var vch := input + hash(input)[..4];
    str := EncodeBase58(vch);
  }

  /** The limit DecodeBase58Check passes on. */
  function RaisedLimit(maxLen: int): int {
    if maxLen > INT_MAX - 4 then INT_MAX else maxLen + 4
  }

  /** DecodeBase58Check accepts exactly the checked encodings. */
  method DecodeBase58Check(hash: seq<Byte> -> seq<Byte>, str: string, maxLen: int) returns (r: Option<seq<Byte>>)
    requires forall x :: |hash(x)| == 32
    ensures forall x :: r == Some(x) <==> Accepts(str, RaisedLimit(maxLen), x + hash(x)[..4])
    ensures r.Some? && maxLen <= INT_MAX - 4 ==> |r.value| <= maxLen
  {
    hide Accepts;
    var vch := DecodeBase58(str, RaisedLimit(maxLen));
    forall x ensures Accepts(str, RaisedLimit(maxLen), x + hash(x)[..4]) <==> vch == Some(x + hash(x)[..4]) {}
    if vch.None? || |vch.value| < 4 {
      return None;
    }
    var n := |vch.value| - 4;
    var payload := vch.value[..n];
    if hash(payload)[..4] != vch.value[n..] {
      forall x ensures vch.value != x + hash(x)[..4] {
        if |x| == n { assert (x + hash(x)[..4])[..n] == x && (x + hash(x)[..4])[n..] == hash(x)[..4]; }
      }
      return None;
    }
    assert vch.value == payload + hash(payload)[..4];
    forall x ensures vch.value == x + hash(x)[..4] <==> x == payload {
      if |x| == n { assert (x + hash(x)[..4])[..n] == x; }
    }
    AcceptsLength(str, RaisedLimit(maxLen), vch.value);
    return Some(payload);
  }

  lemma AcceptsLength(str: string, maxLen: int, x: seq<Byte>)
    requires Accepts(str, maxLen, x) && x != []
    ensures |x| <= maxLen
  {
  }

  /** Decoding a checked encoding gives the payload back. */
  method CheckRoundTrip(hash: seq<Byte> -> seq<Byte>, input: seq<Byte>, maxLen: int) returns (r: Option<seq<Byte>>)
    requires (forall x :: |hash(x)| == 32) && |input| <= maxLen && |input| <= INT_MAX - 4
    ensures r == Some(input)
  {
    hide Accepts, Encoded;
    var str := EncodeBase58Check(hash, input);
    EncodedAccepted(input + hash(input)[..4], RaisedLimit(maxLen));
    r := DecodeBase58Check(hash, str, maxLen);
  }
}
