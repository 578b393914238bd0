/** The differential coding of transaction indexes (src/blockencodings.h:21-43): each value is written
    as its distance from the one after its predecessor. */
module DifferenceCoding {
  import opened Wrappers

  const UINT64_MAX := 0xffff_ffff_ffff_ffff
  const UINT16_MAX := 0xffff

  type Uint64 = x: int | 0 <= x < 0x1_0000_0000_0000_0000
  type Uint16 = x: int | 0 <= x < 0x1_0000

  class DifferenceFormatter {
    var shift: Uint64

    constructor ()
      ensures shift == 0
    {
      shift := 0;
    }

    /** Ser: refuses a value that does not exceed its predecessor. */
    method Ser(v: Uint16) returns (r: Option<Uint64>)
      modifies this
      ensures r == if v < old(shift) then None else Some(v - old(shift))
      ensures shift == if r.Some? then v + 1 else old(shift)
    {
      if v < shift || v >= UINT64_MAX {
        return None;
      }
      r := Some(v - shift);
      shift := v + 1;
    }

    /** Unser: refuses a sum that wraps or leaves the range of an index. */
    method Unser(n: Uint64) returns (r: Option<Uint16>)
      requires shift <= UINT16_MAX + 1
      modifies this
      ensures r == if old(shift) + n > UINT16_MAX then None else Some(old(shift) + n)
      ensures r.Some? ==> shift == r.value + 1
    {
      shift := (shift + n) % (UINT64_MAX + 1);
      if shift < n || shift >= UINT64_MAX || shift > UINT16_MAX {
        return None;
      }
      r := Some(shift);
      shift := shift + 1;
    }
  }

  /** The values a list of differences stands for. */
  ghost function Decoded(ds: seq<Uint64>, n: nat): int
    requires n <= |ds|
  {
    if n == 0 then -1 else Decoded(ds, n - 1) + 1 + ds[n - 1]
  }

  /** The least value that may follow the first i. */
  ghost function Next(vs: seq<Uint16>, i: nat): int
    requires i <= |vs|
  {
    if i == 0 then 0 else vs[i - 1] as int + 1
  }

  /** The differences of a list of values. */
  ghost predicate Differences(vs: seq<Uint16>, ds: seq<Uint64>) {
    |vs| == |ds| && forall i :: 0 <= i < |vs| ==> DiffersBy(vs, ds, i)
  }

  ghost predicate DiffersBy(vs: seq<Uint16>, ds: seq<Uint64>, i: nat)
    requires i < |vs| == |ds|
  {
    ds[i] + Next(vs, i) == vs[i]
  }

  ghost predicate Increasing(vs: seq<Uint16>) {
    forall i :: 0 <= i < |vs| ==> Next(vs, i) <= vs[i]
  }

  /** Writing a list: possible exactly if it is strictly increasing. */
  method Write(vs: seq<Uint16>) returns (r: Option<seq<Uint64>>)
    ensures r.Some? <==> Increasing(vs)
    ensures r.Some? ==> Differences(vs, r.value)
  {
    hide Differences, Increasing;
    var formatter := new DifferenceFormatter();
    var ds: seq<Uint64> := [];
    Nothing();
    for i := 0 to |vs|
      invariant formatter.shift == Next(vs, i)
      invariant Increasing(vs[..i]) && Differences(vs[..i], ds)
    {
      var d := formatter.Ser(vs[i]);
      if d.None? {
        NotIncreasing(vs, i);
        return None;
      }
      PrefixNext(vs, i);
      OneMore(vs[..i], ds, vs[i], d.value);
      assert vs[..i + 1] == vs[..i] + [vs[i]];
      ds := ds + [d.value];
    }
    assert vs[..|vs|] == vs;
    return Some(ds);
  }

  lemma NotIncreasing(vs: seq<Uint16>, i: nat)
    requires i < |vs| && vs[i] < Next(vs, i)
    ensures !Increasing(vs)
  {
  }

  /** Reading a list: possible exactly if all the values fit, and then the inverse of writing. */
  method Read(ds: seq<Uint64>) returns (r: Option<seq<Uint16>>)
    ensures r.Some? <==> Decoded(ds, |ds|) <= UINT16_MAX
    ensures r.Some? ==> Increasing(r.value) && Differences(r.value, ds)
  {
    hide Differences, Increasing, Next;
    var formatter := new DifferenceFormatter();
    var vs: seq<Uint16> := [];
    Nothing();
    for i := 0 to |ds|
      invariant |vs| == i && formatter.shift == Decoded(ds, i) + 1 == Next(vs, i) <= UINT16_MAX + 1
      invariant Increasing(vs) && Differences(vs, ds[..i])
    {
      var v := formatter.Unser(ds[i]);
      if v.None? {
        DecodedGrows(ds, i + 1, |ds|);
        return None;
      }
      OneMore(vs, ds[..i], v.value, ds[i]);
      assert ds[..i + 1] == ds[..i] + [ds[i]];
      vs := vs + [v.value];
    }
    assert ds[..|ds|] == ds;
    return Some(vs);
  }

  lemma Nothing()
    ensures Increasing([]) && Differences([], []) && Next([], 0) == 0
  {
  }

  lemma OneMore(vs: seq<Uint16>, ds: seq<Uint64>, v: Uint16, d: Uint64)
    requires Increasing(vs) && Differences(vs, ds) && d + Next(vs, |vs|) == v
    ensures Increasing(vs + [v]) && Differences(vs + [v], ds + [d]) && Next(vs + [v], |vs| + 1) == v as int + 1
  {
    var ws, es := vs + [v], ds + [d];
    forall i | 0 <= i < |ws| ensures DiffersBy(ws, es, i) && Next(ws, i) <= ws[i] {
      assert Next(ws, i) == Next(vs, i);
      if i < |vs| { assert DiffersBy(vs, ds, i); }
    }
  }

  lemma PrefixNext(vs: seq<Uint16>, n: nat)
    requires n <= |vs|
    ensures forall i :: 0 <= i <= n ==> Next(vs[..n], i) == Next(vs, i)
  {
  }

  lemma {:induction false} DecodedGrows(ds: seq<Uint64>, m: nat, n: nat)
    requires m <= n <= |ds|
    ensures Decoded(ds, m) <= Decoded(ds, n)
  {
    if m < n { DecodedGrows(ds, m, n - 1); }
  }

  /** A list is determined by its differences. */
  lemma DifferencesUnique(vs: seq<Uint16>, ws: seq<Uint16>, ds: seq<Uint64>)
    requires Differences(vs, ds) && Differences(ws, ds)
    ensures vs == ws
  {
    forall i | 0 <= i < |vs| ensures vs[i] == ws[i] {
      DecodedIs(vs, ds, i + 1);
      DecodedIs(ws, ds, i + 1);
    }
  }

  lemma {:induction false} DecodedIs(vs: seq<Uint16>, ds: seq<Uint64>, n: nat)
    requires Differences(vs, ds) && n <= |vs|
    ensures Decoded(ds, n) + 1 == Next(vs, n)
  {
    if n > 0 {
      DecodedIs(vs, ds, n - 1);
      assert DiffersBy(vs, ds, n - 1);
    }
  }

  /** Reading what was written gives it back. */
  method WriteRead(vs: seq<Uint16>) returns (r: Option<seq<Uint16>>)
    ensures r == if Increasing(vs) then Some(vs) else None
  {
    var ds := Write(vs);
    if ds.None? {
      return None;
    }
    DecodedIs(vs, ds.value, |vs|);
    r := Read(ds.value);
    DifferencesUnique(vs, r.value, ds.value);
  }
}
