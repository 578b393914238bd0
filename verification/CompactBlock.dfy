/** Compact block reconstruction (src/blockencodings.cpp, src/blockencodings.h), the receiving side of
    BIP 152 (sections "PrefilledTransaction", "HeaderAndShortIDs" and "Short transaction IDs").

    SipHash, the mempool and CheckBlock are parameters; so is whether a bucket of the short id
    table is overfull, which depends on the standard library. */
module CompactBlock {
  import opened Wrappers

  datatype Header = Header(nBits: nat, id: int)
  datatype Tx = Tx(wtxid: int, isNull: bool, body: int)
  /** A prefilled transaction: how many positions after the previous one, not counting that. */
  datatype Prefilled = Prefilled(index: nat, tx: Tx)
  datatype Compact = Compact(header: Header, nonce: nat, shortTxIds: seq<nat>, prefilledTxn: seq<Prefilled>)
  datatype Status = OK | INVALID | FAILED | CHECKBLOCK_FAILED
  datatype Check = Valid | Mutated | Bad

  /** The largest block weight over the smallest weight of a transaction. */
  const MAX_TXS := 184_000_000 / (4 * 460)
  const UINT16 := 0x1_0000

  type Slots = seq<Option<Tx>>
  type Hasher = (Header, nat, int) -> nat

  predicate NullHeader(h: Header) {
    h.nBits == 0
  }

  /** GetShortID: 48 bits of a keyed hash of the witness hash. */
  function ShortId(hash: Hasher, c: Compact, tx: Tx): nat {
    hash(c.header, c.nonce, tx.wtxid) % 0x1_0000_0000_0000
  }

  function TxCount(c: Compact): nat {
    |c.shortTxIds| + |c.prefilledTxn|
  }

  // ------------------------------------------------------------------- empty slots

  /** The empty positions among the first n, in order. */
  function EmptySlots(a: Slots, n: nat): seq<nat>
    requires n <= |a|
  {
    if n == 0 then [] else EmptySlots(a, n - 1) + if a[n - 1].None? then [n - 1] else []
  }

  lemma {:induction false} EmptySlotsAre(a: Slots, n: nat)
    requires n <= |a|
    ensures forall j :: j in EmptySlots(a, n) <==> 0 <= j < n && a[j].None?
    ensures forall i, k :: 0 <= i < k < |EmptySlots(a, n)| ==> EmptySlots(a, n)[i] < EmptySlots(a, n)[k]
  {
    if n > 0 {
      EmptySlotsAre(a, n - 1);
      var front := EmptySlots(a, n - 1);
      forall i | 0 <= i < |front| ensures front[i] < n - 1 { assert front[i] in front; }
    }
  }

  lemma {:induction false} EmptyGrow(a: Slots, m: nat, n: nat)
    requires m <= n <= |a|
    ensures EmptySlots(a, m) <= EmptySlots(a, n)
    ensures |EmptySlots(a, n)| <= |EmptySlots(a, m)| + (n - m)
  {
    if m < n { EmptyGrow(a, m, n - 1); }
  }

  lemma {:induction false} FillOne(a: Slots, k: nat, tx: Tx, n: nat)
    requires k < |a| && n <= |a| && a[k].None?
    ensures |EmptySlots(a[k := Some(tx)], n)| == |EmptySlots(a, n)| - if k < n then 1 else 0
  {
    if n > 0 { FillOne(a, k, tx, n - 1); }
  }

  // -------------------------------------------------------------------- prefilled

  /** The position of the i-th prefilled transaction, counting from 1; -1 before the first. */
  function PositionOf(ps: seq<Prefilled>, i: nat): int
    requires i <= |ps|
  {
    if i == 0 then -1 else PositionOf(ps, i - 1) + ps[i - 1].index + 1
  }

  predicate PrefilledOk(c: Compact, i: nat)
    requires i < |c.prefilledTxn|
  {
    && !c.prefilledTxn[i].tx.isNull
    && PositionOf(c.prefilledTxn, i + 1) < UINT16
    && PositionOf(c.prefilledTxn, i + 1) <= |c.shortTxIds| + i
  }

  /** Whether a compact block makes sense on its own. */
  predicate WellFormed(c: Compact) {
    && !NullHeader(c.header) && TxCount(c) > 0 && TxCount(c) <= MAX_TXS
    && forall i :: 0 <= i < |c.prefilledTxn| ==> PrefilledOk(c, i)
  }

  /** All positions empty but those of the first i prefilled transactions. */
  function Placed(c: Compact, i: nat): (a: Slots)
    requires i <= |c.prefilledTxn| && forall k :: 0 <= k < i ==> PrefilledOk(c, k)
    ensures |a| == TxCount(c)
  {
    if i == 0 then seq(TxCount(c), _ => None)
    else
      InRange(c, i);
      Placed(c, i - 1)[PositionOf(c.prefilledTxn, i) := Some(c.prefilledTxn[i - 1].tx)]
  }

  lemma {:induction false} PositionsGrow(ps: seq<Prefilled>, i: nat, k: nat)
    requires i <= k <= |ps|
    ensures PositionOf(ps, i) + (k - i) <= PositionOf(ps, k) && PositionOf(ps, i) >= i - 1
  {
    if i < k { PositionsGrow(ps, i, k - 1); } else if i > 0 { PositionsGrow(ps, i - 1, i - 1); }
  }

  lemma InRange(c: Compact, i: nat)
    requires 0 < i <= |c.prefilledTxn| && PrefilledOk(c, i - 1)
    ensures 0 <= PositionOf(c.prefilledTxn, i) < TxCount(c)
  {
    PositionsGrow(c.prefilledTxn, i, i);
  }

  /** Each prefilled transaction takes a position of its own, after the earlier ones. */
  lemma {:induction false} PlacedIs(c: Compact, i: nat)
    requires i <= |c.prefilledTxn| && forall k :: 0 <= k < i ==> PrefilledOk(c, k)
    ensures |EmptySlots(Placed(c, i), TxCount(c))| == TxCount(c) - i
    ensures forall j :: 0 <= j < TxCount(c) && PositionOf(c.prefilledTxn, i) < j ==> Placed(c, i)[j].None?
  {
    if i == 0 {
      AllEmpty(Placed(c, 0), TxCount(c));
    } else {
      PlacedIs(c, i - 1);
      InRange(c, i);
      FillOne(Placed(c, i - 1), PositionOf(c.prefilledTxn, i), c.prefilledTxn[i - 1].tx, TxCount(c));
    }
  }

  /** The k-th prefilled transaction is where it belongs. */
  ghost predicate InPlace(c: Compact, a: Slots, k: nat)
    requires k < |c.prefilledTxn|
  {
    0 <= PositionOf(c.prefilledTxn, k + 1) < |a| && a[PositionOf(c.prefilledTxn, k + 1)] == Some(c.prefilledTxn[k].tx)
  }

  lemma {:induction false} PlacedHolds(c: Compact, i: nat, k: nat)
    requires k < i <= |c.prefilledTxn| && forall j :: 0 <= j < i ==> PrefilledOk(c, j)
    ensures InPlace(c, Placed(c, i), k)
  {
    InRange(c, i);
    if k < i - 1 {
      PlacedHolds(c, i - 1, k);
      PositionsGrow(c.prefilledTxn, k + 1, i);
    }
  }

  lemma {:induction false} AllEmpty(a: Slots, n: nat)
    requires n <= |a| && forall j :: 0 <= j < n ==> a[j].None?
    ensures |EmptySlots(a, n)| == n
  {
    if n > 0 { AllEmpty(a, n - 1); }
  }

  function Base(c: Compact): (a: Slots)
    requires WellFormed(c)
    ensures |a| == TxCount(c)
  {
    Placed(c, |c.prefilledTxn|)
  }

  /** Where the i-th short id belongs: the i-th position that is not prefilled. */
  function SlotOf(c: Compact, i: nat): (j: nat)
    requires WellFormed(c) && i < |c.shortTxIds|
    ensures j < TxCount(c) && Base(c)[j].None?
  {
    PlacedIs(c, |c.prefilledTxn|);
    var slots := EmptySlots(Base(c), TxCount(c));
    EmptySlotsAre(Base(c), TxCount(c));
    assert slots[i] in slots;
    slots[i]
  }

  lemma SlotsDistinct(c: Compact, i: nat, k: nat)
    requires WellFormed(c) && i < k < |c.shortTxIds|
    ensures SlotOf(c, i) < SlotOf(c, k)
  {
    PlacedIs(c, |c.prefilledTxn|);
    EmptySlotsAre(Base(c), TxCount(c));
  }

  // ------------------------------------------------------- matching transactions to ids

  type Ids = map<nat, nat>

  /** The state of the scan over known transactions: what is in each position, which positions had a
      match, how many are filled that way, and whether the scan has stopped. */
  datatype Scan = Scan(available: Slots, have: seq<bool>, count: int, stopped: bool)

  /** The short ids lead to positions that are empty at first, each to its own. */
  ghost predicate IdsOk(ids: Ids, base: Slots) {
    && (forall id :: id in ids ==> ids[id] < |base| && base[ids[id]].None?)
    && (forall x, y :: x in ids && y in ids && ids[x] == ids[y] ==> x == y)
  }

  predicate Fits(ids: Ids, s: Scan) {
    |s.have| == |s.available| && forall id :: id in ids ==> ids[id] < |s.available|
  }

  /** One mempool transaction: a first match fills its position, a second one empties it for good. */
  function PoolStep(ids: Ids, id: nat, tx: Tx, s: Scan): (r: Scan)
    requires Fits(ids, s)
    ensures Fits(ids, r) && |r.available| == |s.available|
  {
    if s.stopped then s
    else
      var r :=
        if id !in ids then s
        else if !s.have[ids[id]] then s.(available := s.available[ids[id] := Some(tx)], have := s.have[ids[id] := true], count := s.count + 1)
        else if s.available[ids[id]].Some? then s.(available := s.available[ids[id] := None], count := s.count - 1)
        else s;
      r.(stopped := r.count == |ids|)
  }

  /** One extra transaction: as above, except that the same transaction again is no second match. */
  function ExtraStep(ids: Ids, id: nat, tx: Tx, s: Scan): (r: Scan)
    requires Fits(ids, s)
    ensures Fits(ids, r) && |r.available| == |s.available|
  {
    if s.stopped then s
    else
      var r :=
        if id !in ids then s
        else if !s.have[ids[id]] then s.(available := s.available[ids[id] := Some(tx)], have := s.have[ids[id] := true], count := s.count + 1)
        else if s.available[ids[id]].Some? && s.available[ids[id]].value.wtxid != tx.wtxid then
          s.(available := s.available[ids[id] := None], count := s.count - 1)
        else s;
      r.(stopped := r.count == |ids|)
  }

  function PoolScan(hash: Hasher, c: Compact, ids: Ids, pool: seq<Tx>, n: nat, s: Scan): (r: Scan)
    requires Fits(ids, s) && n <= |pool|
    ensures Fits(ids, r) && |r.available| == |s.available|
  {
    if n == 0 then s
    else PoolStep(ids, ShortId(hash, c, pool[n - 1]), pool[n - 1], PoolScan(hash, c, ids, pool, n - 1, s))
  }

  function ExtraScan(hash: Hasher, c: Compact, ids: Ids, extra: seq<Option<Tx>>, n: nat, s: Scan): (r: Scan)
    requires Fits(ids, s) && n <= |extra|
    ensures Fits(ids, r) && |r.available| == |s.available|
  {
    if n == 0 then s
    else
      var t := ExtraScan(hash, c, ids, extra, n - 1, s);
      match extra[n - 1]
      case None => t
      case Some(tx) => ExtraStep(ids, ShortId(hash, c, tx), tx, t)
  }

  /** The short ids whose position is filled. */
  ghost function FilledIds(ids: Ids, a: Slots): set<nat>
    requires forall id :: id in ids ==> ids[id] < |a|
  {
    set id | id in ids && a[ids[id]].Some?
  }

  ghost predicate From(tx: Tx, pool: seq<Tx>, extra: seq<Option<Tx>>) {
    tx in pool || Some(tx) in extra
  }

  ghost predicate SlotOk(hash: Hasher, c: Compact, ids: Ids, s: Scan, pool: seq<Tx>, extra: seq<Option<Tx>>, id: nat)
    requires Fits(ids, s) && id in ids
  {
    var j := ids[id];
    && (!s.have[j] ==> s.available[j].None?)
    && (s.available[j].Some? ==> ShortId(hash, c, s.available[j].value) == id && From(s.available[j].value, pool, extra))
  }

  /** What every step of the scan keeps: prefilled positions are untouched, other positions hold at
      most a known transaction with the right short id, and the count is exact. */
  ghost predicate ScanOk(hash: Hasher, c: Compact, ids: Ids, base: Slots, pool: seq<Tx>, extra: seq<Option<Tx>>, offset: int, s: Scan) {
    && Fits(ids, s) && |s.available| == |base|
    && (forall j :: 0 <= j < |base| && j !in ids.Values ==> s.available[j] == base[j])
    && (forall id :: id in ids ==> SlotOk(hash, c, ids, s, pool, extra, id))
    && s.count == offset + |FilledIds(ids, s.available)|
  }

  lemma FilledGrows(ids: Ids, a: Slots, id: nat, tx: Tx)
    requires (forall x :: x in ids ==> ids[x] < |a|) && id in ids && a[ids[id]].None?
    requires forall x :: x in ids && ids[x] == ids[id] ==> x == id
    ensures |FilledIds(ids, a[ids[id] := Some(tx)])| == |FilledIds(ids, a)| + 1
  {
    assert FilledIds(ids, a[ids[id] := Some(tx)]) == FilledIds(ids, a) + {id};
  }

  lemma FilledShrinks(ids: Ids, a: Slots, id: nat)
    requires (forall x :: x in ids ==> ids[x] < |a|) && id in ids && a[ids[id]].Some?
    requires forall x :: x in ids && ids[x] == ids[id] ==> x == id
    ensures |FilledIds(ids, a[ids[id] := None])| == |FilledIds(ids, a)| - 1
  {
    assert FilledIds(ids, a) == FilledIds(ids, a[ids[id] := None]) + {id};
  }

  /** The three ways a step can change one position. */
  lemma StepKeeps(hash: Hasher, c: Compact, ids: Ids, base: Slots, pool: seq<Tx>, extra: seq<Option<Tx>>, offset: int, s: Scan, r: Scan, id: nat, tx: Tx)
    requires IdsOk(ids, base) && ScanOk(hash, c, ids, base, pool, extra, offset, s) && id in ids
    requires ShortId(hash, c, tx) == id && From(tx, pool, extra)
    requires r.stopped == s.stopped
    requires || (!s.have[ids[id]] && r == s.(available := s.available[ids[id] := Some(tx)], have := s.have[ids[id] := true], count := s.count + 1))
             || (s.have[ids[id]] && s.available[ids[id]].Some? && r == s.(available := s.available[ids[id] := None], count := s.count - 1))
    ensures ScanOk(hash, c, ids, base, pool, extra, offset, r)
  {
    assert SlotOk(hash, c, ids, s, pool, extra, id);
    if !s.have[ids[id]] {
      FilledGrows(ids, s.available, id, tx);
    } else {
      FilledShrinks(ids, s.available, id);
    }
    hide ShortId, FilledIds;
    forall x | x in ids ensures SlotOk(hash, c, ids, r, pool, extra, x) {
      assert SlotOk(hash, c, ids, s, pool, extra, x);
    }
    assert ids[id] in ids.Values;
  }

  lemma StopKeeps(hash: Hasher, c: Compact, ids: Ids, base: Slots, pool: seq<Tx>, extra: seq<Option<Tx>>, offset: int, s: Scan, stopped: bool)
    requires ScanOk(hash, c, ids, base, pool, extra, offset, s)
    ensures ScanOk(hash, c, ids, base, pool, extra, offset, s.(stopped := stopped))
  {
    hide ShortId, FilledIds;
    forall x | x in ids ensures SlotOk(hash, c, ids, s.(stopped := stopped), pool, extra, x) {
      assert SlotOk(hash, c, ids, s, pool, extra, x);
    }
  }

  lemma {:induction false} PoolKeeps(hash: Hasher, c: Compact, ids: Ids, base: Slots, pool: seq<Tx>, extra: seq<Option<Tx>>, offset: int, s: Scan, n: nat)
    requires IdsOk(ids, base) && ScanOk(hash, c, ids, base, pool, extra, offset, s) && n <= |pool|
    ensures ScanOk(hash, c, ids, base, pool, extra, offset, PoolScan(hash, c, ids, pool, n, s))
  {
    hide ScanOk, ShortId, IdsOk;
    ScanFits(hash, c, ids, base, pool, extra, offset, s);
    if n > 0 {
      PoolKeeps(hash, c, ids, base, pool, extra, offset, s, n - 1);
      var t, tx := PoolScan(hash, c, ids, pool, n - 1, s), pool[n - 1];
      var id := ShortId(hash, c, tx);
      if !t.stopped {
        var r := PoolScan(hash, c, ids, pool, n, s).(stopped := false);
        if id in ids && (!t.have[ids[id]] || t.available[ids[id]].Some?) {
          StepKeeps(hash, c, ids, base, pool, extra, offset, t, r, id, tx);
        }
        StopKeeps(hash, c, ids, base, pool, extra, offset, r, r.count == |ids|);
      }
    }
  }

  lemma ScanFits(hash: Hasher, c: Compact, ids: Ids, base: Slots, pool: seq<Tx>, extra: seq<Option<Tx>>, offset: int, s: Scan)
    requires ScanOk(hash, c, ids, base, pool, extra, offset, s)
    ensures Fits(ids, s) && |s.available| == |base|
  {
  }

  lemma {:induction false} ExtraKeeps(hash: Hasher, c: Compact, ids: Ids, base: Slots, pool: seq<Tx>, extra: seq<Option<Tx>>, offset: int, s: Scan, n: nat)
    requires IdsOk(ids, base) && ScanOk(hash, c, ids, base, pool, extra, offset, s) && n <= |extra|
    ensures ScanOk(hash, c, ids, base, pool, extra, offset, ExtraScan(hash, c, ids, extra, n, s))
  {
    hide ScanOk, ShortId, IdsOk;
    ScanFits(hash, c, ids, base, pool, extra, offset, s);
    if n > 0 {
      ExtraKeeps(hash, c, ids, base, pool, extra, offset, s, n - 1);
      var t := ExtraScan(hash, c, ids, extra, n - 1, s);
      if extra[n - 1].Some? && !t.stopped {
        var tx := extra[n - 1].value;
        var id := ShortId(hash, c, tx);
        assert Some(tx) in extra;
        var r := ExtraScan(hash, c, ids, extra, n, s).(stopped := false);
        if id in ids && (!t.have[ids[id]] || (t.available[ids[id]].Some? && t.available[ids[id]].value.wtxid != tx.wtxid)) {
          StepKeeps(hash, c, ids, base, pool, extra, offset, t, r, id, tx);
        }
        StopKeeps(hash, c, ids, base, pool, extra, offset, r, r.count == |ids|);
      }
    }
  }

  // ------------------------------------------------------- which transaction is found

  ghost predicate PoolMatch(hash: Hasher, c: Compact, pool: seq<Tx>, id: nat, k: nat) {
    k < |pool| && ShortId(hash, c, pool[k]) == id
  }

  ghost predicate ExtraMatch(hash: Hasher, c: Compact, extra: seq<Option<Tx>>, id: nat, k: nat) {
    k < |extra| && extra[k].Some? && ShortId(hash, c, extra[k].value) == id
  }

  /** None of the first n mempool transactions has the short id. */
  ghost predicate NoPool(hash: Hasher, c: Compact, pool: seq<Tx>, n: nat, id: nat) {
    forall k: nat :: k < n ==> !PoolMatch(hash, c, pool, id, k)
  }

  /** The k-th is the only one of the first n mempool transactions that has it. */
  ghost predicate OnlyPool(hash: Hasher, c: Compact, pool: seq<Tx>, n: nat, id: nat, k: nat) {
    k < n && forall j: nat :: j < n ==> (PoolMatch(hash, c, pool, id, j) <==> j == k)
  }

  ghost predicate NoExtra(hash: Hasher, c: Compact, extra: seq<Option<Tx>>, n: nat, id: nat) {
    forall k: nat :: k < n ==> !ExtraMatch(hash, c, extra, id, k)
  }

  /** The k-th extra transaction is the first that has the short id. */
  ghost predicate FirstExtra(hash: Hasher, c: Compact, extra: seq<Option<Tx>>, id: nat, k: nat) {
    ExtraMatch(hash, c, extra, id, k) && NoExtra(hash, c, extra, k, id)
  }

  /** Those of the first n extra transactions that have it are the transaction with this witness hash. */
  ghost predicate Alike(hash: Hasher, c: Compact, extra: seq<Option<Tx>>, n: nat, id: nat, wtxid: int) {
    forall k: nat :: k < n && ExtraMatch(hash, c, extra, id, k) ==> extra[k].value.wtxid == wtxid
  }

  /** What a short id leads to if the scan goes on to the end: the only mempool transaction that has it,
      unless a different extra one has it too; else the only extra one. */
  ghost predicate FoundIn(hash: Hasher, c: Compact, pool: seq<Tx>, extra: seq<Option<Tx>>, id: nat, slot: Option<Tx>) {
    || (exists k: nat :: OnlyPool(hash, c, pool, |pool|, id, k) && slot == Some(pool[k]) && Alike(hash, c, extra, |extra|, id, pool[k].wtxid))
    || (NoPool(hash, c, pool, |pool|, id) &&
        exists k: nat :: FirstExtra(hash, c, extra, id, k) && slot == extra[k] && Alike(hash, c, extra, |extra|, id, extra[k].value.wtxid))
  }

  /** A known transaction without a rival is in its place, whether or not the scan stops early. Where
      there are rivals the position is empty, if some short id is unknown so that it cannot. */
  ghost predicate Found(hash: Hasher, c: Compact, pool: seq<Tx>, extra: seq<Option<Tx>>, id: nat, slot: Option<Tx>) {
    && (forall tx :: FoundIn(hash, c, pool, extra, id, Some(tx)) ==> slot == Some(tx))
    && (Unknown(hash, c, pool, extra, id) ==> slot.None?)
    && ((exists i :: 0 <= i < |c.shortTxIds| && Unknown(hash, c, pool, extra, c.shortTxIds[i])) ==>
          (slot.Some? <==> FoundIn(hash, c, pool, extra, id, slot)))
  }

  ghost predicate Unknown(hash: Hasher, c: Compact, pool: seq<Tx>, extra: seq<Option<Tx>>, id: nat) {
    NoPool(hash, c, pool, |pool|, id) && NoExtra(hash, c, extra, |extra|, id)
  }

  /** As long as the scan goes on, a position is filled exactly if one mempool transaction matches it. */
  lemma {:induction false} OnlyMatch(hash: Hasher, c: Compact, ids: Ids, pool: seq<Tx>, s: Scan, n: nat, id: nat)
    requires Fits(ids, s) && !s.stopped && id in ids && !s.have[ids[id]] && s.available[ids[id]].None?
    requires forall x :: x in ids && ids[x] == ids[id] ==> x == id
    requires n <= |pool| && (n > 0 ==> !PoolScan(hash, c, ids, pool, n - 1, s).stopped)
    ensures var r, j := PoolScan(hash, c, ids, pool, n, s), ids[id];
            && (r.have[j] <==> !NoPool(hash, c, pool, n, id))
            && (forall k: nat :: OnlyPool(hash, c, pool, n, id, k) ==> r.available[j] == Some(pool[k]))
            && (r.available[j].Some? ==> exists k: nat :: OnlyPool(hash, c, pool, n, id, k))
  {
    hide ShortId;
    if n > 0 {
      if n > 1 { NotStopped(hash, c, ids, pool, n - 1, s); }
      OnlyMatch(hash, c, ids, pool, s, n - 1, id);
      PoolNext(hash, c, pool, n - 1, n, id);
      hide NoPool, OnlyPool;
      var r, j := PoolScan(hash, c, ids, pool, n, s), ids[id];
      if r.available[j].Some? && ShortId(hash, c, pool[n - 1]) == id { assert OnlyPool(hash, c, pool, n, id, n - 1); }
    }
  }

  lemma PoolNext(hash: Hasher, c: Compact, pool: seq<Tx>, m: nat, n: nat, id: nat)
    requires n == m + 1 <= |pool|
    ensures NoPool(hash, c, pool, n, id) <==> NoPool(hash, c, pool, m, id) && ShortId(hash, c, pool[m]) != id
    ensures forall k: nat :: OnlyPool(hash, c, pool, n, id, k) <==>
              if ShortId(hash, c, pool[m]) == id then k == m && NoPool(hash, c, pool, m, id) else OnlyPool(hash, c, pool, m, id, k)
    ensures forall k: nat :: OnlyPool(hash, c, pool, m, id, k) ==> !NoPool(hash, c, pool, m, id)
  {
    hide ShortId;
    assert PoolMatch(hash, c, pool, id, m) <==> ShortId(hash, c, pool[m]) == id;
    forall k: nat ensures OnlyPool(hash, c, pool, n, id, k) <==>
              if ShortId(hash, c, pool[m]) == id then k == m && NoPool(hash, c, pool, m, id) else OnlyPool(hash, c, pool, m, id, k) {
      if OnlyPool(hash, c, pool, n, id, k) { assert PoolMatch(hash, c, pool, id, k); }
    }
    forall k: nat | OnlyPool(hash, c, pool, m, id, k) ensures !NoPool(hash, c, pool, m, id) {
      assert PoolMatch(hash, c, pool, id, k);
    }
  }

  lemma NotStopped(hash: Hasher, c: Compact, ids: Ids, pool: seq<Tx>, n: nat, s: Scan)
    requires Fits(ids, s) && 0 < n <= |pool| && !PoolScan(hash, c, ids, pool, n, s).stopped
    ensures !PoolScan(hash, c, ids, pool, n - 1, s).stopped
  {
  }

  lemma ExtraNext(hash: Hasher, c: Compact, extra: seq<Option<Tx>>, m: nat, n: nat, id: nat)
    requires n == m + 1 <= |extra|
    ensures NoExtra(hash, c, extra, n, id) <==> NoExtra(hash, c, extra, m, id) && !ExtraMatch(hash, c, extra, id, m)
    ensures forall w :: Alike(hash, c, extra, n, id, w) <==>
              Alike(hash, c, extra, m, id, w) && (ExtraMatch(hash, c, extra, id, m) ==> extra[m].value.wtxid == w)
    ensures NoExtra(hash, c, extra, m, id) ==> forall w :: Alike(hash, c, extra, m, id, w)
  {
    hide ShortId;
  }

  lemma ExtraNotStopped(hash: Hasher, c: Compact, ids: Ids, extra: seq<Option<Tx>>, n: nat, s: Scan)
    requires Fits(ids, s) && 0 < n <= |extra| && !ExtraScan(hash, c, ids, extra, n, s).stopped
    ensures !ExtraScan(hash, c, ids, extra, n - 1, s).stopped
  {
  }

  /** A position that had a match stays as it is, or is emptied by the first extra transaction that
      matches it and is different. */
  lemma {:induction false} ExtraRivals(hash: Hasher, c: Compact, ids: Ids, extra: seq<Option<Tx>>, s: Scan, n: nat, id: nat)
    requires Fits(ids, s) && !s.stopped && id in ids && s.have[ids[id]]
    requires forall x :: x in ids && ids[x] == ids[id] ==> x == id
    requires n <= |extra| && (n > 0 ==> !ExtraScan(hash, c, ids, extra, n - 1, s).stopped)
    ensures var r, j := ExtraScan(hash, c, ids, extra, n, s), ids[id];
            r.have[j] && r.available[j] ==
              if s.available[j].Some? && Alike(hash, c, extra, n, id, s.available[j].value.wtxid) then s.available[j] else None
  {
    hide ShortId;
    if n > 0 {
      if n > 1 { ExtraNotStopped(hash, c, ids, extra, n - 1, s); }
      ExtraRivals(hash, c, ids, extra, s, n - 1, id);
      ExtraNext(hash, c, extra, n - 1, n, id);
      hide Alike, NoExtra;
    }
  }

  /** A position without a match takes the first extra transaction that matches it, under the same rule. */
  lemma {:induction false} ExtraFirst(hash: Hasher, c: Compact, ids: Ids, extra: seq<Option<Tx>>, s: Scan, n: nat, id: nat)
    requires Fits(ids, s) && !s.stopped && id in ids && !s.have[ids[id]] && s.available[ids[id]].None?
    requires forall x :: x in ids && ids[x] == ids[id] ==> x == id
    requires n <= |extra| && (n > 0 ==> !ExtraScan(hash, c, ids, extra, n - 1, s).stopped)
    ensures var r, j := ExtraScan(hash, c, ids, extra, n, s), ids[id];
            && (NoExtra(hash, c, extra, n, id) ==> !r.have[j] && r.available[j].None?)
            && (forall k: nat :: FirstExtra(hash, c, extra, id, k) && k < n ==>
                  r.have[j] && r.available[j] == if Alike(hash, c, extra, n, id, extra[k].value.wtxid) then extra[k] else None)
  {
    hide ShortId;
    if n > 0 {
      if n > 1 { ExtraNotStopped(hash, c, ids, extra, n - 1, s); }
      ExtraFirst(hash, c, ids, extra, s, n - 1, id);
      ExtraNext(hash, c, extra, n - 1, n, id);
      hide Alike, NoExtra;
    }
  }

  /** Where a scan that stopped, stopped. */
  lemma {:induction false} PoolEnd(hash: Hasher, c: Compact, ids: Ids, pool: seq<Tx>, s: Scan, n: nat) returns (m: nat)
    requires Fits(ids, s) && !s.stopped && n <= |pool|
    ensures m <= n && PoolScan(hash, c, ids, pool, m, s) == PoolScan(hash, c, ids, pool, n, s)
    ensures m > 0 ==> !PoolScan(hash, c, ids, pool, m - 1, s).stopped
    ensures m < n ==> PoolScan(hash, c, ids, pool, m, s).stopped
    ensures PoolScan(hash, c, ids, pool, m, s).stopped ==> PoolScan(hash, c, ids, pool, m, s).count == |ids|
  {
    m := n;
    if n > 0 && PoolScan(hash, c, ids, pool, n - 1, s).stopped { m := PoolEnd(hash, c, ids, pool, s, n - 1); }
  }

  lemma {:induction false} ExtraEnd(hash: Hasher, c: Compact, ids: Ids, extra: seq<Option<Tx>>, s: Scan, n: nat) returns (m: nat)
    requires Fits(ids, s) && !s.stopped && n <= |extra|
    ensures m <= n && ExtraScan(hash, c, ids, extra, m, s) == ExtraScan(hash, c, ids, extra, n, s)
    ensures m > 0 ==> !ExtraScan(hash, c, ids, extra, m - 1, s).stopped
    ensures m < n ==> ExtraScan(hash, c, ids, extra, m, s).stopped
    ensures ExtraScan(hash, c, ids, extra, m, s).stopped ==> ExtraScan(hash, c, ids, extra, m, s).count == |ids|
  {
    m := n;
    if n > 0 && ExtraScan(hash, c, ids, extra, n - 1, s).stopped { m := ExtraEnd(hash, c, ids, extra, s, n - 1); }
  }

  /** It stops only when every position is filled. */
  lemma AllFilled(hash: Hasher, c: Compact, ids: Ids, base: Slots, pool: seq<Tx>, extra: seq<Option<Tx>>, count: int, s: Scan, id: nat)
    requires ScanOk(hash, c, ids, base, pool, extra, count, s) && count <= 0 && s.count == |ids| && id in ids
    ensures s.available[ids[id]].Some? && !Unknown(hash, c, pool, extra, id)
  {
    hide ShortId;
    var filled := FilledIds(ids, s.available);
    SubsetFull(filled, ids.Keys);
    assert |ids.Keys| == |ids|;
    assert id in filled;
    assert SlotOk(hash, c, ids, s, pool, extra, id);
    var tx := s.available[ids[id]].value;
    if tx in pool {
      var k :| 0 <= k < |pool| && pool[k] == tx;
      assert PoolMatch(hash, c, pool, id, k);
    } else {
      var k :| 0 <= k < |extra| && extra[k] == Some(tx);
      assert ExtraMatch(hash, c, extra, id, k);
    }
  }

  lemma {:induction false} SubsetFull(a: set<nat>, b: set<nat>)
    requires a <= b && |a| >= |b|
    ensures a == b
  {
    if x :| x in b && x !in a {
      SubsetBelow(a, b - {x});
    }
  }

  lemma {:induction false} SubsetBelow(a: set<nat>, b: set<nat>)
    requires a <= b
    ensures |a| <= |b|
  {
    if x :| x in a { SubsetBelow(a - {x}, b - {x}); }
  }

  /** Some short id belongs to no known transaction. */
  ghost predicate SomeUnknown(hash: Hasher, c: Compact, ids: Ids, pool: seq<Tx>, extra: seq<Option<Tx>>) {
    exists id :: id in ids && Unknown(hash, c, pool, extra, id)
  }

  /** The scan before it has seen anything. */
  ghost predicate Fresh(ids: Ids, base: Slots, s: Scan) {
    && IdsOk(ids, base) && Fits(ids, s) && s.available == base && !s.stopped && s.count <= 0
    && forall id :: id in ids ==> !s.have[ids[id]]
  }

  lemma FreshOk(hash: Hasher, c: Compact, ids: Ids, base: Slots, pool: seq<Tx>, extra: seq<Option<Tx>>, s: Scan)
    requires Fresh(ids, base, s)
    ensures ScanOk(hash, c, ids, base, pool, extra, s.count, s)
  {
    hide ShortId;
    assert FilledIds(ids, base) == {};
  }

  /** A short id, after the mempool. */
  lemma PoolFinds(hash: Hasher, c: Compact, ids: Ids, base: Slots, pool: seq<Tx>, extra: seq<Option<Tx>>, s: Scan, id: nat)
    requires Fresh(ids, base, s) && id in ids
    ensures var r, j := PoolScan(hash, c, ids, pool, |pool|, s), ids[id];
            && (NoPool(hash, c, pool, |pool|, id) ==> !r.have[j] && r.available[j].None?)
            && (forall k: nat :: OnlyPool(hash, c, pool, |pool|, id, k) ==> r.have[j] && r.available[j] == Some(pool[k]))
            && (SomeUnknown(hash, c, ids, pool, extra) ==> r.have[j] || NoPool(hash, c, pool, |pool|, id))
            && (SomeUnknown(hash, c, ids, pool, extra) ==> r.available[j].Some? ==> exists k: nat :: OnlyPool(hash, c, pool, |pool|, id, k))
  {
    hide ShortId, ScanOk, Unknown, PoolStep;
    var m := PoolEnd(hash, c, ids, pool, s, |pool|);
    OnlyMatch(hash, c, ids, pool, s, m, id);
    var r := PoolScan(hash, c, ids, pool, m, s);
    FreshOk(hash, c, ids, base, pool, extra, s);
    PoolKeeps(hash, c, ids, base, pool, extra, s.count, s, m);
    if r.stopped {
      forall x | x in ids ensures r.available[ids[x]].Some? && !Unknown(hash, c, pool, extra, x) {
        AllFilled(hash, c, ids, base, pool, extra, s.count, r, x);
      }
    }
    PoolPrefix(hash, c, pool, m, |pool|, id);
    hide NoPool, OnlyPool;
  }

  lemma PoolPrefix(hash: Hasher, c: Compact, pool: seq<Tx>, m: nat, n: nat, id: nat)
    requires m <= n <= |pool|
    ensures NoPool(hash, c, pool, n, id) ==> NoPool(hash, c, pool, m, id)
    ensures forall k: nat :: OnlyPool(hash, c, pool, n, id, k) ==> if k < m then OnlyPool(hash, c, pool, m, id, k) else NoPool(hash, c, pool, m, id)
    ensures forall k: nat :: OnlyPool(hash, c, pool, m, id, k) ==> !NoPool(hash, c, pool, m, id)
  {
    hide ShortId;
    forall k: nat | OnlyPool(hash, c, pool, m, id, k) ensures !NoPool(hash, c, pool, m, id) {
      assert PoolMatch(hash, c, pool, id, k);
    }
  }

  lemma ExtraPrefix(hash: Hasher, c: Compact, extra: seq<Option<Tx>>, m: nat, n: nat, id: nat)
    requires m <= n <= |extra|
    ensures NoExtra(hash, c, extra, n, id) ==> NoExtra(hash, c, extra, m, id)
    ensures forall w :: Alike(hash, c, extra, n, id, w) ==> Alike(hash, c, extra, m, id, w)
    ensures forall k: nat :: FirstExtra(hash, c, extra, id, k) && m <= k ==> NoExtra(hash, c, extra, m, id)
  {
    hide ShortId;
  }

  lemma {:induction false} FirstExists(hash: Hasher, c: Compact, extra: seq<Option<Tx>>, n: nat, id: nat)
    requires n <= |extra|
    ensures NoExtra(hash, c, extra, n, id) || exists k: nat :: FirstExtra(hash, c, extra, id, k) && k < n
  {
    hide ShortId;
    if n > 0 {
      FirstExists(hash, c, extra, n - 1, id);
      if NoExtra(hash, c, extra, n - 1, id) && ExtraMatch(hash, c, extra, id, n - 1) { assert FirstExtra(hash, c, extra, id, n - 1); }
    }
  }

  /** A short id that had a match, after the extra transactions. */
  lemma ExtraLeaves(hash: Hasher, c: Compact, ids: Ids, base: Slots, pool: seq<Tx>, extra: seq<Option<Tx>>, count: int, t: Scan, id: nat)
    requires IdsOk(ids, base) && ScanOk(hash, c, ids, base, pool, extra, count, t) && !t.stopped && count <= 0 && id in ids && t.have[ids[id]]
    ensures var r, j := ExtraScan(hash, c, ids, extra, |extra|, t), ids[id];
            var alike := t.available[j].Some? && Alike(hash, c, extra, |extra|, id, t.available[j].value.wtxid);
            && (alike ==> r.available[j] == t.available[j])
            && (SomeUnknown(hash, c, ids, pool, extra) ==> !alike ==> r.available[j].None?)
  {
    hide ShortId, ScanOk, Unknown, ExtraStep;
    ScanFits(hash, c, ids, base, pool, extra, count, t);
    var m := ExtraEnd(hash, c, ids, extra, t, |extra|);
    ExtraRivals(hash, c, ids, extra, t, m, id);
    ExtraStopped(hash, c, ids, base, pool, extra, count, t, m);
    ExtraPrefix(hash, c, extra, m, |extra|, id);
    hide Alike;
  }

  lemma ExtraStopped(hash: Hasher, c: Compact, ids: Ids, base: Slots, pool: seq<Tx>, extra: seq<Option<Tx>>, count: int, t: Scan, m: nat)
    requires IdsOk(ids, base) && ScanOk(hash, c, ids, base, pool, extra, count, t) && count <= 0 && m <= |extra|
    ensures var r := ExtraScan(hash, c, ids, extra, m, t);
            r.count == |ids| ==> !SomeUnknown(hash, c, ids, pool, extra) && forall x :: x in ids ==> r.available[ids[x]].Some?
  {
    hide ShortId, ScanOk, Unknown, ExtraStep;
    ScanFits(hash, c, ids, base, pool, extra, count, t);
    ExtraKeeps(hash, c, ids, base, pool, extra, count, t, m);
    var r := ExtraScan(hash, c, ids, extra, m, t);
    if r.count == |ids| {
      forall x | x in ids ensures r.available[ids[x]].Some? && !Unknown(hash, c, pool, extra, x) {
        AllFilled(hash, c, ids, base, pool, extra, count, r, x);
      }
    }
  }

  /** A short id that had none, after the extra transactions. */
  lemma ExtraFinds(hash: Hasher, c: Compact, ids: Ids, base: Slots, pool: seq<Tx>, extra: seq<Option<Tx>>, count: int, t: Scan, id: nat)
    requires IdsOk(ids, base) && ScanOk(hash, c, ids, base, pool, extra, count, t) && !t.stopped && count <= 0
    requires id in ids && !t.have[ids[id]] && t.available[ids[id]].None?
    ensures var slot := ExtraScan(hash, c, ids, extra, |extra|, t).available[ids[id]];
            && (NoExtra(hash, c, extra, |extra|, id) ==> slot.None?)
            && (forall k: nat :: FirstExtra(hash, c, extra, id, k) && Alike(hash, c, extra, |extra|, id, extra[k].value.wtxid) ==> slot == extra[k])
            && (SomeUnknown(hash, c, ids, pool, extra) ==> slot.Some? ==>
                  exists k: nat :: FirstExtra(hash, c, extra, id, k) && slot == extra[k] && Alike(hash, c, extra, |extra|, id, extra[k].value.wtxid))
  {
    hide ShortId, ScanOk, Unknown, ExtraStep;
    ScanFits(hash, c, ids, base, pool, extra, count, t);
    var m := ExtraEnd(hash, c, ids, extra, t, |extra|);
    ExtraFirst(hash, c, ids, extra, t, m, id);
    ExtraStopped(hash, c, ids, base, pool, extra, count, t, m);
    ExtraPrefix(hash, c, extra, m, |extra|, id);
    FirstExists(hash, c, extra, m, id);
    FirstInside(hash, c, extra, id);
    hide Alike, NoExtra, FirstExtra;
  }

  lemma FirstInside(hash: Hasher, c: Compact, extra: seq<Option<Tx>>, id: nat)
    ensures forall k: nat :: FirstExtra(hash, c, extra, id, k) ==> k < |extra| && extra[k].Some?
  {
  }

  /** Whatever the order in which the transactions come, the scan finds what there is to find. */
  lemma ScanFinds(hash: Hasher, c: Compact, ids: Ids, base: Slots, pool: seq<Tx>, extra: seq<Option<Tx>>, s: Scan, id: nat)
    requires Fresh(ids, base, s) && id in ids && forall x :: x in ids <==> x in c.shortTxIds
    ensures var t := PoolScan(hash, c, ids, pool, |pool|, s).(stopped := false);
            Found(hash, c, pool, extra, id, ExtraScan(hash, c, ids, extra, |extra|, t).available[ids[id]])
  {
    hide ShortId, ScanOk, NoPool, NoExtra, OnlyPool, FirstExtra, Alike, SomeUnknown, Found, PoolScan, ExtraScan, PoolStep;
    var p := PoolScan(hash, c, ids, pool, |pool|, s);
    var t := p.(stopped := false);
    FreshOk(hash, c, ids, base, pool, extra, s);
    PoolKeeps(hash, c, ids, base, pool, extra, s.count, s, |pool|);
    StopKeeps(hash, c, ids, base, pool, extra, s.count, p, false);
    PoolFinds(hash, c, ids, base, pool, extra, s, id);
    var slot := ExtraScan(hash, c, ids, extra, |extra|, t).available[ids[id]];
    if t.have[ids[id]] {
      ExtraLeaves(hash, c, ids, base, pool, extra, s.count, t, id);
      FoundFirst(hash, c, ids, pool, extra, id, t.available[ids[id]], slot);
    } else {
      HaveNone(hash, c, ids, base, pool, extra, s.count, t, id);
      ExtraFinds(hash, c, ids, base, pool, extra, s.count, t, id);
      FoundAfter(hash, c, ids, pool, extra, id, slot);
    }
  }

  lemma FoundFirst(hash: Hasher, c: Compact, ids: Ids, pool: seq<Tx>, extra: seq<Option<Tx>>, id: nat, before: Option<Tx>, slot: Option<Tx>)
    requires (forall x :: x in ids <==> x in c.shortTxIds) && !NoPool(hash, c, pool, |pool|, id)
    requires forall k: nat :: OnlyPool(hash, c, pool, |pool|, id, k) ==> before == Some(pool[k])
    requires SomeUnknown(hash, c, ids, pool, extra) ==> before.Some? ==> exists k: nat :: OnlyPool(hash, c, pool, |pool|, id, k)
    requires before.Some? && Alike(hash, c, extra, |extra|, id, before.value.wtxid) ==> slot == before
    requires SomeUnknown(hash, c, ids, pool, extra) ==> !(before.Some? && Alike(hash, c, extra, |extra|, id, before.value.wtxid)) ==> slot.None?
    ensures Found(hash, c, pool, extra, id, slot)
  {
    hide NoPool, NoExtra, OnlyPool, FirstExtra, Alike;
  }

  lemma FoundAfter(hash: Hasher, c: Compact, ids: Ids, pool: seq<Tx>, extra: seq<Option<Tx>>, id: nat, slot: Option<Tx>)
    requires (forall x :: x in ids <==> x in c.shortTxIds) && (forall k: nat :: !OnlyPool(hash, c, pool, |pool|, id, k))
    requires SomeUnknown(hash, c, ids, pool, extra) ==> NoPool(hash, c, pool, |pool|, id)
    requires NoExtra(hash, c, extra, |extra|, id) ==> slot.None?
    requires forall k: nat :: FirstExtra(hash, c, extra, id, k) && Alike(hash, c, extra, |extra|, id, extra[k].value.wtxid) ==> slot == extra[k]
    requires SomeUnknown(hash, c, ids, pool, extra) ==> slot.Some? ==>
               exists k: nat :: FirstExtra(hash, c, extra, id, k) && slot == extra[k] && Alike(hash, c, extra, |extra|, id, extra[k].value.wtxid)
    ensures Found(hash, c, pool, extra, id, slot)
  {
    FirstInside(hash, c, extra, id);
    hide NoPool, NoExtra, OnlyPool, FirstExtra, Alike;
  }

  lemma HaveNone(hash: Hasher, c: Compact, ids: Ids, base: Slots, pool: seq<Tx>, extra: seq<Option<Tx>>, count: int, s: Scan, id: nat)
    requires ScanOk(hash, c, ids, base, pool, extra, count, s) && id in ids && !s.have[ids[id]]
    ensures s.available[ids[id]].None?
  {
    hide ShortId;
    assert SlotOk(hash, c, ids, s, pool, extra, id);
  }

  // ------------------------------------------------------------------ reconstruction

  /** The ids of a compact block, each with its position. */
  ghost predicate IdsOf(c: Compact, ids: Ids)
    requires WellFormed(c)
  {
    && (forall i :: 0 <= i < |c.shortTxIds| ==> c.shortTxIds[i] in ids && ids[c.shortTxIds[i]] == SlotOf(c, i))
    && (forall id :: id in ids ==> id in c.shortTxIds)
  }

  ghost predicate DistinctIds(c: Compact) {
    forall i, k :: 0 <= i < k < |c.shortTxIds| ==> c.shortTxIds[i] != c.shortTxIds[k]
  }

  lemma IdsAreOk(c: Compact, ids: Ids)
    requires WellFormed(c) && IdsOf(c, ids)
    ensures IdsOk(ids, Base(c))
  {
    hide WellFormed, SlotOf, Base;
    forall id | id in ids ensures ids[id] < |Base(c)| && Base(c)[ids[id]].None? {
      var i :| 0 <= i < |c.shortTxIds| && c.shortTxIds[i] == id;
    }
    forall x, y | x in ids && y in ids && ids[x] == ids[y] ensures x == y {
      var i :| 0 <= i < |c.shortTxIds| && c.shortTxIds[i] == x;
      var k :| 0 <= k < |c.shortTxIds| && c.shortTxIds[k] == y;
      if i < k { SlotsDistinct(c, i, k); }
      if k < i { SlotsDistinct(c, k, i); }
    }
  }

  /** A compact block describes a list of transactions: the prefilled ones are in their places, and the
      short ids are those of the others, in order. */
  ghost predicate Describes(hash: Hasher, c: Compact, vtx: seq<Tx>)
    requires WellFormed(c)
  {
    && |vtx| == TxCount(c)
    && (forall j :: 0 <= j < |vtx| && Base(c)[j].Some? ==> Base(c)[j].value == vtx[j])
    && (forall i :: 0 <= i < |c.shortTxIds| ==> c.shortTxIds[i] == ShortId(hash, c, vtx[SlotOf(c, i)]))
  }

  /** No known transaction has the short id of a different transaction of the block. */
  ghost predicate NoCollision(hash: Hasher, c: Compact, vtx: seq<Tx>, pool: seq<Tx>, extra: seq<Option<Tx>>)
    requires WellFormed(c) && |vtx| == TxCount(c)
  {
    forall tx, i :: From(tx, pool, extra) && 0 <= i < |c.shortTxIds| && ShortId(hash, c, tx) == c.shortTxIds[i] ==>
      tx == vtx[SlotOf(c, i)]
  }

  /** Every position is empty or holds the block's transaction. */
  ghost predicate PartOf(a: Slots, vtx: seq<Tx>) {
    |a| == |vtx| && forall j :: 0 <= j < |a| ==> a[j].None? || a[j].value == vtx[j]
  }

  /** After the scan only transactions of the block are in place. */
  lemma ScannedIsPart(hash: Hasher, c: Compact, ids: Ids, vtx: seq<Tx>, pool: seq<Tx>, extra: seq<Option<Tx>>, offset: int, s: Scan)
    requires WellFormed(c) && IdsOf(c, ids) && Describes(hash, c, vtx) && NoCollision(hash, c, vtx, pool, extra)
    requires ScanOk(hash, c, ids, Base(c), pool, extra, offset, s)
    ensures PartOf(s.available, vtx)
  {
    hide WellFormed, Base, SlotOf, ShortId, FilledIds;
    forall j | 0 <= j < |vtx| ensures s.available[j].None? || s.available[j].value == vtx[j] {
      if j in ids.Values {
        var id :| id in ids && ids[id] == j;
        assert SlotOk(hash, c, ids, s, pool, extra, id);
        var i :| 0 <= i < |c.shortTxIds| && c.shortTxIds[i] == id;
        assert SlotOf(c, i) == j;
      }
    }
  }

  /** What the missing transactions fill in: the k-th empty position takes the k-th of them. */
  function Filled(a: Slots, missing: seq<Tx>, n: nat): (r: seq<Tx>)
    requires n <= |a| && |EmptySlots(a, n)| <= |missing|
    ensures |r| == n
  {
    if n == 0 then []
    else if a[n - 1].Some? then Filled(a, missing, n - 1) + [a[n - 1].value]
    else Filled(a, missing, n - 1) + [missing[|EmptySlots(a, n - 1)|]]
  }

  /** The transactions of the block that are not available, in order. */
  ghost function Missing(a: Slots, vtx: seq<Tx>, n: nat): (r: seq<Tx>)
    requires n <= |a| == |vtx|
    ensures |r| == |EmptySlots(a, n)|
  {
    if n == 0 then [] else Missing(a, vtx, n - 1) + if a[n - 1].None? then [vtx[n - 1]] else []
  }

  lemma {:induction false} MissingPrefix(a: Slots, vtx: seq<Tx>, m: nat, n: nat)
    requires m <= n <= |a| == |vtx|
    ensures Missing(a, vtx, m) <= Missing(a, vtx, n)
  {
    if m < n { MissingPrefix(a, vtx, m, n - 1); }
  }

  /** Filling in what is missing gives the block back. */
  lemma {:induction false} FilledIsBlock(a: Slots, vtx: seq<Tx>, n: nat)
    requires PartOf(a, vtx) && n <= |a|
    ensures |EmptySlots(a, n)| <= |Missing(a, vtx, |a|)| && Filled(a, Missing(a, vtx, |a|), n) == vtx[..n]
  {
    MissingPrefix(a, vtx, n, |a|);
    if n > 0 {
      FilledIsBlock(a, vtx, n - 1);
      assert Missing(a, vtx, n)[|EmptySlots(a, n - 1)|..] == if a[n - 1].None? then [vtx[n - 1]] else [];
      assert vtx[..n] == vtx[..n - 1] + [vtx[n - 1]];
    }
  }

  // ----------------------------------------------------------------------- the object

  /** The id table after the first n short ids. */
  function IdsUpTo(c: Compact, n: nat): Ids
    requires WellFormed(c) && n <= |c.shortTxIds|
  {
    if n == 0 then map[] else IdsUpTo(c, n - 1)[c.shortTxIds[n - 1] := SlotOf(c, n - 1)]
  }

  lemma {:induction false} IdsUpToHold(c: Compact, n: nat)
    requires WellFormed(c) && n <= |c.shortTxIds|
    ensures forall id :: id in IdsUpTo(c, n) <==> id in c.shortTxIds[..n]
    ensures forall id :: id in IdsUpTo(c, n) ==> IdsUpTo(c, n)[id] < TxCount(c)
  {
    hide SlotOf, WellFormed;
    if n > 0 {
      IdsUpToHold(c, n - 1);
      assert c.shortTxIds[..n] == c.shortTxIds[..n - 1] + [c.shortTxIds[n - 1]];
    }
  }

  ghost predicate DistinctUpTo(s: seq<nat>, n: nat) {
    n <= |s| && forall i, k :: 0 <= i < k < n ==> s[i] != s[k]
  }

  lemma DistinctNext(s: seq<nat>, n: nat)
    requires 0 < n <= |s|
    ensures DistinctUpTo(s, n) <==> DistinctUpTo(s, n - 1) && s[n - 1] !in s[..n - 1]
  {
    if s[n - 1] in s[..n - 1] {
      var i :| 0 <= i < n - 1 && s[..n - 1][i] == s[n - 1];
      assert s[i] == s[n - 1];
    } else {
      forall i | 0 <= i < n - 1 ensures s[i] != s[n - 1] { assert s[i] == s[..n - 1][i]; }
    }
  }

  lemma MapSize(m: Ids, id: nat, j: nat)
    ensures |m[id := j]| == |m| + if id in m then 0 else 1
  {
    if id in m {
      assert m[id := j].Keys == m.Keys;
    } else {
      assert m[id := j].Keys == m.Keys + {id};
    }
  }

  /** The table is as large as the list exactly if no short id occurs twice. */
  lemma {:induction false} IdsUpToSize(c: Compact, n: nat)
    requires WellFormed(c) && n <= |c.shortTxIds|
    ensures |IdsUpTo(c, n)| <= n && (|IdsUpTo(c, n)| == n <==> DistinctUpTo(c.shortTxIds, n))
  {
    hide SlotOf, WellFormed;
    if n > 0 {
      IdsUpToSize(c, n - 1);
      IdsUpToHold(c, n - 1);
      hide DistinctUpTo;
      DistinctNext(c.shortTxIds, n);
      MapSize(IdsUpTo(c, n - 1), c.shortTxIds[n - 1], SlotOf(c, n - 1));
    }
  }

  lemma {:induction false} IdsUpToLead(c: Compact, n: nat)
    requires WellFormed(c) && n <= |c.shortTxIds| && DistinctIds(c)
    ensures forall i :: 0 <= i < n ==> c.shortTxIds[i] in IdsUpTo(c, n) && IdsUpTo(c, n)[c.shortTxIds[i]] == SlotOf(c, i)
  {
    hide SlotOf, WellFormed;
    if n > 0 { IdsUpToLead(c, n - 1); }
  }

  lemma IdsUpToOf(c: Compact)
    requires WellFormed(c) && DistinctIds(c)
    ensures IdsOf(c, IdsUpTo(c, |c.shortTxIds|))
  {
    hide SlotOf, WellFormed;
    var n := |c.shortTxIds|;
    IdsUpToLead(c, n);
    IdsUpToHold(c, n);
    assert c.shortTxIds[..n] == c.shortTxIds;
  }

  /** The scan over all known transactions, from an initial count. */
  function Scanned(hash: Hasher, c: Compact, pool: seq<Tx>, extra: seq<Option<Tx>>, count: int): (s: Scan)
    requires WellFormed(c)
    ensures |s.available| == TxCount(c)
  {
    IdsUpToHold(c, |c.shortTxIds|);
    var ids := IdsUpTo(c, |c.shortTxIds|);
    var s := PoolScan(hash, c, ids, pool, |pool|, Start(c, count));
    ExtraScan(hash, c, ids, extra, |extra|, s.(stopped := false))
  }

  function Start(c: Compact, count: int): Scan
    requires WellFormed(c)
  {
    Scan(Base(c), seq(TxCount(c), _ => false), count, false)
  }

  /** Whatever the known transactions, the result obeys the invariant of the scan. */
  lemma ScannedOk(hash: Hasher, c: Compact, pool: seq<Tx>, extra: seq<Option<Tx>>, count: int)
    requires WellFormed(c) && DistinctIds(c)
    ensures ScanOk(hash, c, IdsUpTo(c, |c.shortTxIds|), Base(c), pool, extra, count, Scanned(hash, c, pool, extra, count))
  {
    var ids := IdsUpTo(c, |c.shortTxIds|);
    IdsUpToHold(c, |c.shortTxIds|);
    IdsUpToOf(c);
    IdsAreOk(c, ids);
    hide IdsUpTo, SlotOf, WellFormed;
    assert FilledIds(ids, Start(c, count).available) == {};
    assert ScanOk(hash, c, ids, Base(c), pool, extra, count, Start(c, count));
    hide ScanOk, Start, Base;
    PoolKeeps(hash, c, ids, Base(c), pool, extra, count, Start(c, count), |pool|);
    var s := PoolScan(hash, c, ids, pool, |pool|, Start(c, count));
    StopKeeps(hash, c, ids, Base(c), pool, extra, count, s, false);
    ExtraKeeps(hash, c, ids, Base(c), pool, extra, count, s.(stopped := false), |extra|);
  }

  /** With a counter that starts at zero, every short id leads to the transaction it belongs to. */
  lemma ScannedFinds(hash: Hasher, c: Compact, pool: seq<Tx>, extra: seq<Option<Tx>>, count: int, i: nat)
    requires WellFormed(c) && DistinctIds(c) && count <= 0 && i < |c.shortTxIds|
    ensures Found(hash, c, pool, extra, c.shortTxIds[i], Scanned(hash, c, pool, extra, count).available[SlotOf(c, i)])
  {
    var ids := IdsUpTo(c, |c.shortTxIds|);
    IdsUpToHold(c, |c.shortTxIds|);
    assert c.shortTxIds[..|c.shortTxIds|] == c.shortTxIds;
    IdsUpToOf(c);
    IdsAreOk(c, ids);
    hide IdsUpTo, SlotOf, WellFormed, Base, PoolScan, ExtraScan, Found;
    ScanFinds(hash, c, ids, Base(c), pool, extra, Start(c, count), c.shortTxIds[i]);
  }

  /** With one left over from earlier use that is as large as the number of short ids, it does not: the
      scan ends after one mempool transaction. */
  lemma StaleCountMisses(hash: Hasher, c: Compact, a: Tx, b: Tx, i: nat)
    requires WellFormed(c) && DistinctIds(c) && i < |c.shortTxIds|
    requires ShortId(hash, c, a) !in c.shortTxIds && ShortId(hash, c, b) == c.shortTxIds[i]
    ensures FoundIn(hash, c, [a, b], [], c.shortTxIds[i], Some(b))
    ensures Scanned(hash, c, [a, b], [], |c.shortTxIds|).available[SlotOf(c, i)].None?
  {
    var n, id := |c.shortTxIds|, c.shortTxIds[i];
    assert c.shortTxIds[..n] == c.shortTxIds;
    IdsUpToHold(c, n);
    IdsUpToSize(c, n);
    hide ShortId, IdsUpTo, SlotOf, WellFormed, Base;
    assert PoolMatch(hash, c, [a, b], id, 1) && !PoolMatch(hash, c, [a, b], id, 0);
    assert OnlyPool(hash, c, [a, b], 2, id, 1);
    var ids, s := IdsUpTo(c, n), Start(c, n);
    assert PoolScan(hash, c, ids, [a, b], 0, s) == s;
    assert PoolScan(hash, c, ids, [a, b], 1, s) == s.(stopped := true);
    assert PoolScan(hash, c, ids, [a, b], 2, s) == s.(stopped := true);
  }

  lemma PrefilledStay(hash: Hasher, c: Compact, ids: Ids, pool: seq<Tx>, extra: seq<Option<Tx>>, count: int, s: Scan)
    requires WellFormed(c) && IdsOk(ids, Base(c)) && ScanOk(hash, c, ids, Base(c), pool, extra, count, s)
    ensures forall k :: 0 <= k < |c.prefilledTxn| ==> InPlace(c, s.available, k)
  {
    hide SlotOk, FilledIds, Fits;
    forall k | 0 <= k < |c.prefilledTxn| ensures InPlace(c, s.available, k) {
      PlacedHolds(c, |c.prefilledTxn|, k);
    }
  }

  lemma ScannedAll(hash: Hasher, c: Compact, pool: seq<Tx>, extra: seq<Option<Tx>>, count: int)
    requires WellFormed(c) && DistinctIds(c)
    ensures var a := Scanned(hash, c, pool, extra, count).available;
            && (forall k :: 0 <= k < |c.prefilledTxn| ==> InPlace(c, a, k))
            && (count <= 0 ==> forall i :: 0 <= i < |c.shortTxIds| ==> Found(hash, c, pool, extra, c.shortTxIds[i], a[SlotOf(c, i)]))
  {
    hide IdsUpTo, SlotOf, WellFormed, Base, Scanned, Found, ScanOk, InPlace;
    ScannedOk(hash, c, pool, extra, count);
    IdsUpToOf(c);
    IdsAreOk(c, IdsUpTo(c, |c.shortTxIds|));
    PrefilledStay(hash, c, IdsUpTo(c, |c.shortTxIds|), pool, extra, count, Scanned(hash, c, pool, extra, count));
    if count <= 0 {
      forall i | 0 <= i < |c.shortTxIds| ensures Found(hash, c, pool, extra, c.shortTxIds[i], Scanned(hash, c, pool, extra, count).available[SlotOf(c, i)]) {
        ScannedFinds(hash, c, pool, extra, count, i);
      }
    }
  }

  class PartiallyDownloadedBlock {
    var header: Header
    var txnAvailable: Slots
    var prefilledCount: nat
    var mempoolCount: int
    var extraCount: int

    constructor ()
      ensures NullHeader(header) && txnAvailable == [] && prefilledCount == 0 && mempoolCount == 0 && extraCount == 0
    {
      header, txnAvailable, prefilledCount, mempoolCount, extraCount := Header(0, 0), [], 0, 0, 0;
    }

    /** InitData, on a compact block that passed the 16-bit guard on deserialisation
        (src/blockencodings.h:126-129). */
    method InitData(hash: Hasher, c: Compact, pool: seq<Tx>, extra: seq<Option<Tx>>, overfull: nat -> bool) returns (r: Status)
      requires TxCount(c) < UINT16
      modifies this
      ensures r == INVALID <==> !WellFormed(c) || !NullHeader(old(header)) || old(txnAvailable) != []
      ensures r == FAILED <==> r != INVALID && (!DistinctIds(c) || exists i :: 0 <= i < |c.shortTxIds| && overfull(i))
      ensures r != CHECKBLOCK_FAILED
      ensures r == OK ==> header == c.header && prefilledCount == |c.prefilledTxn|
      ensures r == OK ==> var s := Scanned(hash, c, pool, extra, old(mempoolCount));
                          txnAvailable == s.available && mempoolCount == s.count
      ensures r == OK ==> |txnAvailable| == TxCount(c) && forall k :: 0 <= k < |c.prefilledTxn| ==> InPlace(c, txnAvailable, k)
      ensures r == OK && old(mempoolCount) <= 0 ==>
                forall i :: 0 <= i < |c.shortTxIds| ==> Found(hash, c, pool, extra, c.shortTxIds[i], txnAvailable[SlotOf(c, i)])
    {
      hide WellFormed, Base, SlotOf, ShortId, IdsUpTo, DistinctIds, Found, InPlace;
      Formed(c);
      if NullHeader(c.header) || (|c.shortTxIds| == 0 && |c.prefilledTxn| == 0) {
        return INVALID;
      }
      if |c.shortTxIds| + |c.prefilledTxn| > MAX_TXS {
        return INVALID;
      }
      if !NullHeader(header) || txnAvailable != [] {
        return INVALID;
      }
      header := c.header;
      txnAvailable := seq(TxCount(c), _ => None);
      var ok := PlacePrefilled(c);
      if !ok {
        return INVALID;
      }
      prefilledCount := |c.prefilledTxn|;
      var ids;
      ok, ids := MapIds(c, overfull);
      if !ok {
        return FAILED;
      }
      IdsCount(c);
      if |ids| != |c.shortTxIds| {
        return FAILED;
      }
      IdsInRange(c);
      var have := seq(|txnAvailable|, _ => false);
      ghost var start := Start(c, mempoolCount);
      have := ScanPool(hash, c, ids, pool, have);
      ghost var scanned := PoolScan(hash, c, ids, pool, |pool|, start);
      ScanExtra(hash, c, ids, extra, have);
      ScannedAll(hash, c, pool, extra, old(mempoolCount));
      return OK;
    }

    /** The loop over the prefilled transactions. */
    method PlacePrefilled(c: Compact) returns (ok: bool)
      requires txnAvailable == seq(TxCount(c), _ => None)
      modifies this`txnAvailable
      ensures ok <==> forall i :: 0 <= i < |c.prefilledTxn| ==> PrefilledOk(c, i)
      ensures ok ==> txnAvailable == Placed(c, |c.prefilledTxn|)
    {
      var lastPrefilledIndex := -1;
      for i := 0 to |c.prefilledTxn|
        invariant lastPrefilledIndex == PositionOf(c.prefilledTxn, i)
        invariant forall k :: 0 <= k < i ==> PrefilledOk(c, k)
        invariant txnAvailable == Placed(c, i)
      {
        if c.prefilledTxn[i].tx.isNull {
          assert !PrefilledOk(c, i);
          return false;
        }
        lastPrefilledIndex := lastPrefilledIndex + c.prefilledTxn[i].index + 1;
        if lastPrefilledIndex > UINT16 - 1 {
          assert !PrefilledOk(c, i);
          return false;
        }
        if lastPrefilledIndex > |c.shortTxIds| + i {
          assert !PrefilledOk(c, i);
          return false;
        }
        assert PrefilledOk(c, i);
        InRange(c, i + 1);
        txnAvailable := txnAvailable[lastPrefilledIndex := Some(c.prefilledTxn[i].tx)];
      }
      return true;
    }

    /** The loop that maps short ids to positions. It never runs past the end, and no 16-bit value wraps. */
    method MapIds(c: Compact, overfull: nat -> bool) returns (ok: bool, ids: Ids)
      requires WellFormed(c) && TxCount(c) < UINT16 && txnAvailable == Base(c)
      ensures ok <==> forall i :: 0 <= i < |c.shortTxIds| ==> !overfull(i)
      ensures ok ==> ids == IdsUpTo(c, |c.shortTxIds|)
    {
      hide WellFormed, Base, SlotOf, EmptySlots;
      PlacedEmpty(c);
      NoneEmpty(txnAvailable);
      ids := map[];
      var indexOffset := 0;
      for i := 0 to |c.shortTxIds|
        invariant 0 <= indexOffset && i + indexOffset <= TxCount(c)
        invariant |EmptySlots(txnAvailable, i + indexOffset)| == i
        invariant forall k :: 0 <= k < i ==> !overfull(k)
        invariant ids == IdsUpTo(c, i)
      {
        indexOffset := SkipFilled(i, indexOffset);
        NextEmpty(c, i, i + indexOffset);
        ids := ids[c.shortTxIds[i] := (i + indexOffset) % UINT16];
        if overfull(i) {
          return false, ids;
        }
      }
      return true, ids;
    }

    /** Its inner loop: on to the next empty position. */
    method SkipFilled(i: nat, start: nat) returns (indexOffset: nat)
      requires |txnAvailable| < UINT16 && i + start <= |txnAvailable|
      requires |EmptySlots(txnAvailable, i + start)| == i < |EmptySlots(txnAvailable, |txnAvailable|)|
      ensures i + indexOffset < |txnAvailable| && txnAvailable[i + indexOffset].None?
      ensures |EmptySlots(txnAvailable, i + indexOffset)| == i
    {
      indexOffset := start;
      EmptyGrow(txnAvailable, i + indexOffset, |txnAvailable|);
      while txnAvailable[i + indexOffset].Some?
        invariant 0 <= indexOffset && i + indexOffset < |txnAvailable|
        invariant |EmptySlots(txnAvailable, i + indexOffset)| == i
        decreases |txnAvailable| - indexOffset
      {
        EmptyGrow(txnAvailable, i + indexOffset + 1, |txnAvailable|);
        indexOffset := (indexOffset + 1) % UINT16;
      }
    }

    /** The loop over the mempool. */
    method ScanPool(hash: Hasher, c: Compact, ids: Ids, pool: seq<Tx>, startHave: seq<bool>) returns (have: seq<bool>)
      requires Fits(ids, Scan(txnAvailable, startHave, mempoolCount, false))
      modifies this`txnAvailable, this`mempoolCount
      ensures var s := PoolScan(hash, c, ids, pool, |pool|, Scan(old(txnAvailable), startHave, old(mempoolCount), false));
              txnAvailable == s.available && have == s.have && mempoolCount == s.count
    {
      hide ShortId, PoolStep;
      have := startHave;
      ghost var start := Scan(txnAvailable, startHave, mempoolCount, false);
      var n := 0;
      while n < |pool|
        invariant 0 <= n <= |pool|
        invariant PoolScan(hash, c, ids, pool, n, start) == Scan(txnAvailable, have, mempoolCount, false)
      {
        have := MatchPool(ids, ShortId(hash, c, pool[n]), pool[n], have);
        n := n + 1;
        if mempoolCount == |ids| {
          PoolStays(hash, c, ids, pool, n, start);
          return;
        }
      }
    }

    /** One mempool transaction. */
    method MatchPool(ids: Ids, id: nat, tx: Tx, before: seq<bool>) returns (have: seq<bool>)
      requires Fits(ids, Scan(txnAvailable, before, mempoolCount, false))
      modifies this`txnAvailable, this`mempoolCount
      ensures PoolStep(ids, id, tx, Scan(old(txnAvailable), before, old(mempoolCount), false)) ==
              Scan(txnAvailable, have, mempoolCount, mempoolCount == |ids|)
    {
      have := before;
      if id in ids {
        var j := ids[id];
        if !have[j] {
          txnAvailable := txnAvailable[j := Some(tx)];
          have := have[j := true];
          mempoolCount := mempoolCount + 1;
        } else if txnAvailable[j].Some? {
          txnAvailable := txnAvailable[j := None];
          mempoolCount := mempoolCount - 1;
        }
      }
    }

    /** The loop over the extra transactions. */
    method ScanExtra(hash: Hasher, c: Compact, ids: Ids, extra: seq<Option<Tx>>, startHave: seq<bool>)
      requires Fits(ids, Scan(txnAvailable, startHave, mempoolCount, false))
      modifies this`txnAvailable, this`mempoolCount, this`extraCount
      ensures var s := ExtraScan(hash, c, ids, extra, |extra|, Scan(old(txnAvailable), startHave, old(mempoolCount), false));
              txnAvailable == s.available && mempoolCount == s.count
    {
      hide ShortId, ExtraStep;
      var have := startHave;
      ghost var start := Scan(txnAvailable, startHave, mempoolCount, false);
      var n := 0;
      while n < |extra|
        invariant 0 <= n <= |extra|
        invariant ExtraScan(hash, c, ids, extra, n, start) == Scan(txnAvailable, have, mempoolCount, false)
      {
        if extra[n].None? {
          n := n + 1;
          continue;
        }
        have := MatchExtra(ids, ShortId(hash, c, extra[n].value), extra[n].value, have);
        n := n + 1;
        if mempoolCount == |ids| {
          ExtraStays(hash, c, ids, extra, n, start);
          return;
        }
      }
    }

    /** One extra transaction. */
    method MatchExtra(ids: Ids, id: nat, tx: Tx, before: seq<bool>) returns (have: seq<bool>)
      requires Fits(ids, Scan(txnAvailable, before, mempoolCount, false))
      modifies this`txnAvailable, this`mempoolCount, this`extraCount
      ensures ExtraStep(ids, id, tx, Scan(old(txnAvailable), before, old(mempoolCount), false)) ==
              Scan(txnAvailable, have, mempoolCount, mempoolCount == |ids|)
      ensures extraCount - old(extraCount) == mempoolCount - old(mempoolCount)
    {
      have := before;
      if id in ids {
        var j := ids[id];
        if !have[j] {
          txnAvailable := txnAvailable[j := Some(tx)];
          have := have[j := true];
          mempoolCount := mempoolCount + 1;
          extraCount := extraCount + 1;
        } else if txnAvailable[j].Some? && txnAvailable[j].value.wtxid != tx.wtxid {
          txnAvailable := txnAvailable[j := None];
          mempoolCount := mempoolCount - 1;
          extraCount := extraCount - 1;
        }
      }
    }

    /** IsTxAvailable. */
    method IsTxAvailable(index: nat) returns (r: bool)
      requires NullHeader(header) || index < |txnAvailable|
      ensures r <==> !NullHeader(header) && txnAvailable[index].Some?
    {
      if NullHeader(header) {
        return false;
      }
      return txnAvailable[index].Some?;
    }

    /** FillBlock: takes exactly as many transactions as there are empty positions, in order. */
    method FillBlock(missing: seq<Tx>, check: (Header, seq<Tx>) -> Check) returns (r: Status, vtx: seq<Tx>)
      modifies this
      ensures var a := old(txnAvailable); var n := |EmptySlots(a, |a|)|;
              if NullHeader(old(header)) || |missing| != n then r == INVALID
              else
                && vtx == Filled(a, missing, |a|)
                && r == match check(old(header), vtx) { case Valid => OK case Mutated => FAILED case Bad => CHECKBLOCK_FAILED }
      ensures !NullHeader(old(header)) && |missing| >= |EmptySlots(old(txnAvailable), |old(txnAvailable)|)| ==>
                NullHeader(header) && txnAvailable == []
      ensures NullHeader(old(header)) ==> unchanged(this)
      ensures !NullHeader(old(header)) && |missing| < |EmptySlots(old(txnAvailable), |old(txnAvailable)|)| ==>
                && header == old(header) && |txnAvailable| == |old(txnAvailable)|
                && var gap := EmptySlots(old(txnAvailable), |old(txnAvailable)|)[|missing|];
                forall i :: 0 <= i < |txnAvailable| ==> txnAvailable[i] == if i < gap then None else old(txnAvailable)[i]
    {
      vtx := [];
      if NullHeader(header) {
        return INVALID, vtx;
      }
      ghost var a := txnAvailable;
      var offset := 0;
      for i := 0 to |txnAvailable|
        invariant |txnAvailable| == |a| && header == old(header)
        invariant forall j :: 0 <= j < |a| ==> txnAvailable[j] == if j < i then None else a[j]
        invariant offset == |EmptySlots(a, i)| <= |missing|
        invariant vtx == Filled(a, missing, i)
      {
        EmptyGrow(a, i + 1, |a|);
        if txnAvailable[i].None? {
          if |missing| <= offset {
            return INVALID, vtx;
          }
          vtx := vtx + [missing[offset]];
          offset := offset + 1;
        } else {
          vtx := vtx + [txnAvailable[i].value];
          txnAvailable := txnAvailable[i := None];
        }
      }
      var full := header;
      header := Header(0, 0);
      txnAvailable := [];
      if |missing| != offset {
        return INVALID, vtx;
      }
      match check(full, vtx)
      case Valid => return OK, vtx;
      case Mutated => return FAILED, vtx;
      case Bad => return CHECKBLOCK_FAILED, vtx;
    }
  }

  lemma Formed(c: Compact)
    ensures WellFormed(c) <==>
              && !NullHeader(c.header) && TxCount(c) > 0 && TxCount(c) <= MAX_TXS
              && forall i :: 0 <= i < |c.prefilledTxn| ==> PrefilledOk(c, i)
    ensures WellFormed(c) ==> Base(c) == Placed(c, |c.prefilledTxn|)
  {
  }

  lemma IdsCount(c: Compact)
    requires WellFormed(c)
    ensures |IdsUpTo(c, |c.shortTxIds|)| == |c.shortTxIds| <==> DistinctIds(c)
  {
    IdsUpToSize(c, |c.shortTxIds|);
  }

  lemma IdsInRange(c: Compact)
    requires WellFormed(c)
    ensures forall id :: id in IdsUpTo(c, |c.shortTxIds|) ==> IdsUpTo(c, |c.shortTxIds|)[id] < TxCount(c)
  {
    IdsUpToHold(c, |c.shortTxIds|);
  }

  lemma PlacedEmpty(c: Compact)
    requires WellFormed(c)
    ensures |EmptySlots(Base(c), TxCount(c))| == |c.shortTxIds|
  {
    PlacedIs(c, |c.prefilledTxn|);
  }

  lemma NoneEmpty(a: Slots)
    ensures EmptySlots(a, 0) == []
  {
  }

  /** The first empty position after i others is where the i-th short id belongs. */
  lemma NextEmpty(c: Compact, i: nat, j: nat)
    requires WellFormed(c) && i < |c.shortTxIds| && j < TxCount(c) && Base(c)[j].None? && |EmptySlots(Base(c), j)| == i
    ensures SlotOf(c, i) == j && |EmptySlots(Base(c), j + 1)| == i + 1
  {
    hide WellFormed, Base;
    PlacedEmpty(c);
    EmptyGrow(Base(c), j + 1, TxCount(c));
  }

  lemma {:induction false} PoolStays(hash: Hasher, c: Compact, ids: Ids, pool: seq<Tx>, n: nat, s: Scan)
    requires Fits(ids, s) && n <= |pool| && PoolScan(hash, c, ids, pool, n, s).stopped
    ensures PoolScan(hash, c, ids, pool, |pool|, s) == PoolScan(hash, c, ids, pool, n, s)
    decreases |pool| - n
  {
    if n < |pool| { PoolStays(hash, c, ids, pool, n + 1, s); }
  }

  lemma {:induction false} ExtraStays(hash: Hasher, c: Compact, ids: Ids, extra: seq<Option<Tx>>, n: nat, s: Scan)
    requires Fits(ids, s) && n <= |extra| && ExtraScan(hash, c, ids, extra, n, s).stopped
    ensures ExtraScan(hash, c, ids, extra, |extra|, s) == ExtraScan(hash, c, ids, extra, n, s)
    decreases |extra| - n
  {
    if n < |extra| { ExtraStays(hash, c, ids, extra, n + 1, s); }
  }

  // ---------------------------------------------------------------- the sending side

  /** CBlockHeaderAndShortTxIDs: the coinbase is prefilled, the rest are short ids. */
  method Shorten(hash: Hasher, header: Header, nonce: nat, vtx: seq<Tx>) returns (c: Compact)
    requires vtx != []
    ensures c.header == header && c.prefilledTxn == [Prefilled(0, vtx[0])] && |c.shortTxIds| == |vtx| - 1
    ensures forall i :: 1 <= i < |vtx| ==> c.shortTxIds[i - 1] == ShortId(hash, c, vtx[i])
  {
    hide ShortId;
    var key := Compact(header, nonce, [], []);
    var ids: seq<nat> := [];
    for i := 1 to |vtx|
      invariant |ids| == i - 1
      invariant forall k :: 1 <= k < i ==> ids[k - 1] == ShortId(hash, key, vtx[k])
    {
      ids := ids + [ShortId(hash, key, vtx[i])];
    }
    c := Compact(header, nonce, ids, [Prefilled(0, vtx[0])]);
    forall i | 1 <= i < |vtx| ensures ids[i - 1] == ShortId(hash, c, vtx[i]) { SameKey(hash, key, c, vtx[i]); }
  }

  lemma SameKey(hash: Hasher, a: Compact, b: Compact, tx: Tx)
    requires a.header == b.header && a.nonce == b.nonce
    ensures ShortId(hash, a, tx) == ShortId(hash, b, tx)
  {
  }

  lemma {:induction false} AllButFirst(a: Slots, n: nat)
    requires 1 <= n <= |a| && a[0].Some? && forall j :: 0 < j < n ==> a[j].None?
    ensures |EmptySlots(a, n)| == n - 1 && forall i :: 0 <= i < n - 1 ==> EmptySlots(a, n)[i] == i + 1
  {
    if n > 1 { AllButFirst(a, n - 1); }
  }

  /** What a sender makes of a block is well formed and describes it. */
  lemma ShortenedDescribes(hash: Hasher, c: Compact, vtx: seq<Tx>)
    requires vtx != [] && |vtx| < UINT16 && !NullHeader(c.header) && !vtx[0].isNull
    requires c.prefilledTxn == [Prefilled(0, vtx[0])] && |c.shortTxIds| == |vtx| - 1
    requires forall i :: 1 <= i < |vtx| ==> c.shortTxIds[i - 1] == ShortId(hash, c, vtx[i])
    ensures WellFormed(c) && Describes(hash, c, vtx)
  {
    hide ShortId;
    assert PositionOf(c.prefilledTxn, 0) == -1 && PositionOf(c.prefilledTxn, 1) == 0;
    assert PrefilledOk(c, 0);
    assert Base(c) == Placed(c, 0)[0 := Some(vtx[0])];
    AllButFirst(Base(c), |vtx|);
    forall i | 0 <= i < |c.shortTxIds| ensures SlotOf(c, i) == i + 1 {}
  }

  /** Receiving a compact block of a block, asking for what is not available and filling it in rebuilds
      the block exactly, unless the receiver has to fall back or a short id collides. */
  method Rebuild(hash: Hasher, c: Compact, pool: seq<Tx>, extra: seq<Option<Tx>>, overfull: nat -> bool,
                 check: (Header, seq<Tx>) -> Check, vtx: seq<Tx>)
    returns (initial: Status, final: Status, rebuilt: seq<Tx>)
    requires WellFormed(c) && TxCount(c) < UINT16 && Describes(hash, c, vtx) && NoCollision(hash, c, vtx, pool, extra)
    ensures initial == OK <==> DistinctIds(c) && forall i :: 0 <= i < |c.shortTxIds| ==> !overfull(i)
    ensures initial == OK ==> rebuilt == vtx && (final == OK <==> check(c.header, vtx) == Valid)
  {
    hide WellFormed, Describes, NoCollision, DistinctIds, Scanned, Filled;
    var partial := new PartiallyDownloadedBlock();
    initial := partial.InitData(hash, c, pool, extra, overfull);
    final, rebuilt := INVALID, [];
    if initial == OK {
      ghost var a := partial.txnAvailable;
      RebuildPart(hash, c, vtx, pool, extra);
      var missing: seq<Tx> := [];
      for i := 0 to |vtx|
        invariant partial.txnAvailable == a && partial.header == c.header
        invariant missing == Missing(a, vtx, i)
      {
        var available := partial.IsTxAvailable(i);
        if !available {
          missing := missing + [vtx[i]];
        }
      }
      FilledIsBlock(a, vtx, |a|);
      assert vtx[..|a|] == vtx;
      final, rebuilt := partial.FillBlock(missing, check);
    }
  }

  lemma RebuildPart(hash: Hasher, c: Compact, vtx: seq<Tx>, pool: seq<Tx>, extra: seq<Option<Tx>>)
    requires WellFormed(c) && DistinctIds(c) && Describes(hash, c, vtx) && NoCollision(hash, c, vtx, pool, extra)
    ensures PartOf(Scanned(hash, c, pool, extra, 0).available, vtx) && !NullHeader(c.header)
  {
    hide Scanned, IdsUpTo, ScanOk, Describes, NoCollision;
    ScannedOk(hash, c, pool, extra, 0);
    IdsUpToOf(c);
    ScannedIsPart(hash, c, IdsUpTo(c, |c.shortTxIds|), vtx, pool, extra, 0, Scanned(hash, c, pool, extra, 0));
  }
}
