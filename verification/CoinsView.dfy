/** The meaning of a stack of coin caches (src/coins.h, src/coins.cpp), on values.

    A view is either the coin database or a write-back cache on top of another
    view. Every operation of CCoinsViewCache is a function on views here; the
    class in CoinsViewCache.dfy performs the same operations in place and is
    proved to compute exactly these functions. This file proves that, over every
    run, the stack shows one flat map of unspent coins. */
module CoinsView {
  import opened Wrappers

  type Byte = b: int | 0 <= b < 256
  type Script = seq<Byte>
  type BlockHash = nat

  const NULL_HASH: BlockHash := 0
  const OP_RETURN: Byte := 0x6a
  const MAX_SCRIPT_SIZE := 10000

  datatype OutPoint = OutPoint(txid: nat, n: nat)

  datatype TxOut = TxOut(value: int, scriptPubKey: Script)

  datatype Coin = Coin(out: TxOut, height: nat, coinBase: bool) {
    /** A null output marks a coin that never existed or has been spent. */
    predicate IsSpent() {
      out.value == -1
    }

    predicate IsUnspendable() {
      (|out.scriptPubKey| > 0 && out.scriptPubKey[0] == OP_RETURN) || |out.scriptPubKey| > MAX_SCRIPT_SIZE
    }
  }

  /** What Coin::Clear leaves behind, and what a default entry holds. */
  const CLEARED := Coin(TxOut(-1, []), 0, false)

  /** One cached coin with its DIRTY and FRESH flags. */
  datatype Entry = Entry(coin: Coin, isDirty: bool, isFresh: bool) {
    predicate Flagged() {
      isDirty || isFresh
    }
  }

  type Entries = map<OutPoint, Entry>

  datatype View =
    | Database(coins: map<OutPoint, Coin>, best: BlockHash)
    | Cache(entries: Entries, hash: BlockHash, base: View)

  function Get<K, V>(m: map<K, V>, k: K): Option<V> {
    if k in m then Some(m[k]) else None
  }

  function Unspent(c: Coin): Option<Coin> {
    if c.IsSpent() then None else Some(c)
  }

  /** The unspent coin a view shows at an outpoint, if any. */
  function Visible(v: View, k: OutPoint): Option<Coin> {
    match v
    case Database(coins, _) => if k in coins then Unspent(coins[k]) else None
    case Cache(entries, _, base) => if k in entries then Unspent(entries[k].coin) else Visible(base, k)
  }

  /** What GetCoin answers. The database may hand out a spent coin; a cache never does. */
  function Answer(v: View, k: OutPoint): Option<Coin> {
    if v.Database? then Get(v.coins, k) else Visible(v, k)
  }

  function Support(v: View): set<OutPoint> {
    match v
    case Database(coins, _) => coins.Keys
    case Cache(entries, _, base) => entries.Keys + Support(base)
  }

  /** The flat map of unspent coins that a view stands for. */
  function Flat(v: View): map<OutPoint, Coin> {
    map k | k in Support(v) && Visible(v, k).Some? :: Visible(v, k).value
  }

  function BestBlock(v: View): BlockHash {
    match v
    case Database(_, best) => best
    case Cache(_, hash, base) => if hash == NULL_HASH then BestBlock(base) else hash
  }

  function Depth(v: View): nat {
    if v.Database? then 0 else 1 + Depth(v.base)
  }

  // ---------------------------------------------------------------- operations

  /** FetchCoin: pulls the coin into this cache and into every cache below that is asked. */
  function Fetch(v: View, k: OutPoint): View {
    match v
    case Database(_, _) => v
    case Cache(entries, hash, base) =>
      if k in entries then v
      else
        match Answer(base, k)
        case None => Cache(entries, hash, Fetch(base, k))
        case Some(c) => Cache(entries[k := Entry(c, false, c.IsSpent())], hash, Fetch(base, k))
  }

  /** GetBestBlock: remembers the hash found below in every cache that had none. */
  function FetchBest(v: View): View {
    match v
    case Database(_, _) => v
    case Cache(entries, hash, base) =>
      if hash == NULL_HASH then Cache(entries, BestBlock(base), FetchBest(base)) else v
  }

  function EntryOrNew(entries: Entries, k: OutPoint): Entry {
    if k in entries then entries[k] else Entry(CLEARED, false, false)
  }

  /** AddCoin throws when this cache itself holds an unspent coin that may not be overwritten. */
  predicate AddThrows(v: View, k: OutPoint, c: Coin, overwrite: bool)
    requires v.Cache?
  {
    !c.IsUnspendable() && !overwrite && !EntryOrNew(v.entries, k).coin.IsSpent()
  }

  function AddCoin(v: View, k: OutPoint, c: Coin, overwrite: bool): View
    requires v.Cache?
  {
    if c.IsUnspendable() || AddThrows(v, k, c, overwrite) then v
    else
      var before := EntryOrNew(v.entries, k);
      v.(entries := v.entries[k := Entry(c, true, before.isFresh || (!overwrite && !before.isDirty))])
  }

  /** SpendCoin's effect on a cache that has already fetched the coin. */
  function SpendFetched(v: View, k: OutPoint): View
    requires v.Cache?
  {
    if k !in v.entries then v
    else if v.entries[k].isFresh then v.(entries := v.entries - {k})
    else v.(entries := v.entries[k := Entry(CLEARED, true, false)])
  }

  function SpendCoin(v: View, k: OutPoint): View
    requires v.Cache?
  {
    SpendFetched(Fetch(v, k), k)
  }

  function Uncache(v: View, k: OutPoint): View
    requires v.Cache?
  {
    if k in v.entries && !v.entries[k].Flagged() then v.(entries := v.entries - {k}) else v
  }

  /** What BatchWrite makes of the parent's entry (if any) when the child holds the dirty entry c. */
  function MergeEntry(p: Option<Entry>, c: Entry): Option<Entry> {
    match p
    case None => if c.isFresh && c.coin.IsSpent() then None else Some(Entry(c.coin, true, c.isFresh))
    case Some(e) => if e.isFresh && c.coin.IsSpent() then None else Some(Entry(c.coin, true, e.isFresh))
  }

  function MergedAt(parent: Entries, child: Entries, k: OutPoint): Option<Entry> {
    if k in child && child[k].isDirty then MergeEntry(Get(parent, k), child[k]) else Get(parent, k)
  }

  function Merged(parent: Entries, child: Entries): Entries {
    map k | k in parent.Keys + child.Keys && MergedAt(parent, child, k).Some? :: MergedAt(parent, child, k).value
  }

  /** The same for a database, which holds no flags. */
  function WrittenAt(coins: map<OutPoint, Coin>, child: Entries, k: OutPoint): Option<Coin> {
    if k in child && child[k].isDirty then Unspent(child[k].coin) else Get(coins, k)
  }

  function Written(coins: map<OutPoint, Coin>, child: Entries): map<OutPoint, Coin> {
    map k | k in coins.Keys + child.Keys && WrittenAt(coins, child, k).Some? :: WrittenAt(coins, child, k).value
  }

  /** BatchWrite throws when a FRESH coin of the child is unspent in the parent. */
  ghost predicate WriteThrows(parent: View, child: Entries) {
    parent.Cache? &&
    exists k :: k in child && k in parent.entries &&
                child[k].isDirty && child[k].isFresh && !parent.entries[k].coin.IsSpent()
  }

  /** BatchWrite: the parent after the flagged entries of its child were written to it. */
  function WriteBack(parent: View, child: Entries, hash: BlockHash): View {
    match parent
    case Database(coins, _) => Database(Written(coins, child), hash)
    case Cache(entries, _, base) => Cache(Merged(entries, child), hash, base)
  }

  /** The child's entries after Sync: flagged spent ones are gone, the others are clean. */
  function Synced(entries: Entries): Entries {
    map k | k in entries && !(entries[k].Flagged() && entries[k].coin.IsSpent()) :: Entry(entries[k].coin, false, false)
  }

  function Sync(v: View): View
    requires v.Cache?
  {
    Cache(Synced(v.entries), v.hash, WriteBack(v.base, v.entries, v.hash))
  }

  function Flush(v: View): View
    requires v.Cache?
  {
    Cache(map[], v.hash, WriteBack(v.base, v.entries, v.hash))
  }

  // ----------------------------------------------------------------- invariant

  /** The five documented combinations of spent, DIRTY and FRESH. */
  predicate ValidState(e: Entry) {
    if e.coin.IsSpent() then e.isDirty != e.isFresh else e.isFresh ==> e.isDirty
  }

  /** What an entry promises about the view below its cache. */
  predicate EntryAgrees(e: Entry, below: Option<Coin>) {
    && ValidState(e)
    && (e.isFresh ==> below.None?)
    && (!e.isDirty ==> Unspent(e.coin) == below)
    && (e.isDirty && e.coin.IsSpent() ==> e.coin == CLEARED)
  }

  ghost predicate Inv(v: View) {
    v.Cache? ==>
      && Inv(v.base)
      && forall k :: k in v.entries ==> EntryAgrees(v.entries[k], Visible(v.base, k))
  }

  /** Two views that no reader can tell apart. */
  ghost predicate SameCoins(a: View, b: View) {
    forall k :: Visible(a, k) == Visible(b, k)
  }

  // ------------------------------------------------------ effect of each operation

  lemma {:induction false} VisibleInSupport(v: View, k: OutPoint)
    ensures Visible(v, k).Some? ==> k in Support(v)
  {
    if v.Cache? {
      VisibleInSupport(v.base, k);
    }
  }

  /** The flat map is determined by, and determines, what is visible. */
  lemma FlatIsVisible(v: View)
    ensures forall k :: Get(Flat(v), k) == Visible(v, k)
  {
    forall k ensures Get(Flat(v), k) == Visible(v, k) {
      VisibleInSupport(v, k);
    }
  }

  lemma SameCoinsSameFlat(a: View, b: View)
    requires SameCoins(a, b)
    ensures Flat(a) == Flat(b)
  {
    FlatIsVisible(a);
    FlatIsVisible(b);
    forall k ensures Get(Flat(a), k) == Get(Flat(b), k) {}
    assert forall k :: k in Flat(a) <==> Get(Flat(a), k).Some?;
  }

  /** Reading through any number of levels shows the same coins afterwards. */
  lemma {:induction false} FetchKeeps(v: View, k: OutPoint)
    requires Inv(v)
    ensures Inv(Fetch(v, k)) && SameCoins(v, Fetch(v, k))
    ensures Depth(Fetch(v, k)) == Depth(v) && BestBlock(Fetch(v, k)) == BestBlock(v)
    ensures v.Cache? ==> Fetch(v, k).Cache? && Fetch(v, k).hash == v.hash
    ensures v.Cache? && k !in Fetch(v, k).entries ==> Visible(v, k).None?
    ensures v.Cache? && k in Fetch(v, k).entries ==> Unspent(Fetch(v, k).entries[k].coin) == Visible(v, k)
  {
    if v.Cache? && k !in v.entries {
      FetchKeeps(v.base, k);
    }
  }

  /** Replacing the base by one that shows the same coins disturbs nothing above it. */
  lemma BaseReplaced(v: View, b: View)
    requires v.Cache? && Inv(v) && Inv(b) && SameCoins(v.base, b)
    ensures Inv(v.(base := b)) && SameCoins(v, v.(base := b))
  {
  }

  lemma AddKeeps(v: View, k: OutPoint, c: Coin, overwrite: bool)
    requires v.Cache? && Inv(v) && !c.IsSpent()
    requires overwrite || c.IsUnspendable() || Visible(v, k).None?
    ensures !AddThrows(v, k, c, overwrite)
    ensures Inv(AddCoin(v, k, c, overwrite))
    ensures forall j :: Visible(AddCoin(v, k, c, overwrite), j)
                        == if j == k && !c.IsUnspendable() then Some(c) else Visible(v, j)
  {
  }

  /** AddCoin keeps the cache invariant exactly when its caller tells the truth about
      overwriting: either an overwrite is allowed, or this cache already has an entry
      for the outpoint, or the view below shows no unspent coin there. */
  lemma AddCoinContractIsExact(v: View, k: OutPoint, c: Coin, overwrite: bool)
    requires v.Cache? && Inv(v) && !c.IsSpent() && !c.IsUnspendable()
    requires !AddThrows(v, k, c, overwrite)
    ensures Inv(AddCoin(v, k, c, overwrite)) <==> overwrite || k in v.entries || Visible(v.base, k).None?
  {
    var w := AddCoin(v, k, c, overwrite);
    assert w.entries[k].isFresh ==> (Inv(w) ==> Visible(w.base, k).None?);
  }

  /** Breaking that contract loses a spend: the coin that was hidden below comes back
      once the new coin is spent. */
  lemma MisusedAddResurrectsCoin(v: View, k: OutPoint, c: Coin)
    requires v.Cache? && Inv(v) && !c.IsSpent() && !c.IsUnspendable()
    requires k !in v.entries && Visible(v.base, k).Some?
    ensures Visible(SpendCoin(AddCoin(v, k, c, false), k), k) == Visible(v, k)
    ensures Visible(SpendCoin(AddCoin(v, k, c, true), k), k).None?
  {
    var asNew := AddCoin(v, k, c, false);
    assert Fetch(asNew, k) == asNew;
    var kept := AddCoin(v, k, c, true);
    assert Fetch(kept, k) == kept;
  }

  lemma SpendKeeps(v: View, k: OutPoint)
    requires v.Cache? && Inv(v)
    ensures Inv(SpendCoin(v, k)) && SpendCoin(v, k).Cache?
    ensures Depth(SpendCoin(v, k)) == Depth(v) && SpendCoin(v, k).hash == v.hash
    ensures forall j :: Visible(SpendCoin(v, k), j) == if j == k then None else Visible(v, j)
    ensures k in SpendCoin(v, k).entries <==> k in Fetch(v, k).entries && !Fetch(v, k).entries[k].isFresh
    ensures k in SpendCoin(v, k).entries ==> SpendCoin(v, k).entries[k].isDirty && SpendCoin(v, k).entries[k].coin.IsSpent()
    ensures forall j :: j != k ==> Get(SpendCoin(v, k).entries, j) == Get(Fetch(v, k).entries, j)
  {
    FetchKeeps(v, k);
    var f := Fetch(v, k);
    if k in f.entries && f.entries[k].isFresh {
      assert EntryAgrees(f.entries[k], Visible(f.base, k));
    }
  }

  lemma UncacheKeeps(v: View, k: OutPoint)
    requires v.Cache? && Inv(v)
    ensures Inv(Uncache(v, k)) && SameCoins(v, Uncache(v, k))
    ensures forall j :: Get(Uncache(v, k).entries, j) == if j == k && j in v.entries && !v.entries[j].isDirty && !v.entries[j].isFresh then None else Get(v.entries, j)
  {
  }

  lemma MergedIsPointwise(parent: Entries, child: Entries)
    ensures forall k :: Get(Merged(parent, child), k) == MergedAt(parent, child, k)
  {
  }

  lemma WrittenIsPointwise(coins: map<OutPoint, Coin>, child: Entries)
    ensures forall k :: Get(Written(coins, child), k) == WrittenAt(coins, child, k)
  {
  }

  lemma MergeEntryAgrees(p: Option<Entry>, c: Entry, below: Option<Coin>)
    requires p.Some? ==> EntryAgrees(p.value, below)
    requires EntryAgrees(c, if p.Some? then Unspent(p.value.coin) else below)
    requires c.isDirty
    ensures MergeEntry(p, c).Some? ==>
              && EntryAgrees(MergeEntry(p, c).value, below)
              && Unspent(MergeEntry(p, c).value.coin) == Unspent(c.coin)
    ensures MergeEntry(p, c).None? ==> below == Unspent(c.coin)
    ensures MergeEntry(p, c).None? <==> c.coin.IsSpent() && (if p.Some? then p.value.isFresh else c.isFresh)
    ensures MergeEntry(p, c).Some? ==>
              MergeEntry(p, c).value.isDirty && MergeEntry(p, c).value.isFresh == (if p.Some? then p.value.isFresh else c.isFresh)
  {
  }

  /** After BatchWrite the parent shows exactly what the child showed. */
  lemma WriteBackKeeps(v: View)
    requires v.Cache? && Inv(v)
    ensures Inv(WriteBack(v.base, v.entries, v.hash))
    ensures SameCoins(v, WriteBack(v.base, v.entries, v.hash))
    ensures Depth(WriteBack(v.base, v.entries, v.hash)) == Depth(v.base)
  {
    var w := WriteBack(v.base, v.entries, v.hash);
    match v.base
    case Database(coins, _) =>
      WrittenIsPointwise(coins, v.entries);
      forall k ensures Visible(v, k) == Visible(w, k) {
        assert Get(w.coins, k) == WrittenAt(coins, v.entries, k);
        if k in v.entries { assert EntryAgrees(v.entries[k], Visible(v.base, k)); }
      }
    case Cache(parent, _, below) =>
      MergedIsPointwise(parent, v.entries);
      forall k
        ensures Visible(v, k) == Visible(w, k)
        ensures k in w.entries ==> EntryAgrees(w.entries[k], Visible(below, k))
      {
        assert Get(w.entries, k) == MergedAt(parent, v.entries, k);
        if k in parent { assert EntryAgrees(parent[k], Visible(below, k)); }
        if k in v.entries {
          assert EntryAgrees(v.entries[k], Visible(v.base, k));
          if v.entries[k].isDirty {
            MergeEntryAgrees(Get(parent, k), v.entries[k], Visible(below, k));
          }
        }
      }
  }

  /** Sync leaves the view unchanged, makes the parent show the same coins, and leaves no flag set. */
  lemma SyncKeeps(v: View)
    requires v.Cache? && Inv(v)
    ensures Inv(Sync(v)) && SameCoins(v, Sync(v)) && SameCoins(v, Sync(v).base)
    ensures Depth(Sync(v)) == Depth(v)
    ensures forall k :: k in Sync(v).entries <==> k in v.entries && !(v.entries[k].coin.IsSpent() && v.entries[k].Flagged())
    ensures forall k :: k in Sync(v).entries ==> !Sync(v).entries[k].Flagged() && Sync(v).entries[k].coin == v.entries[k].coin
  {
    WriteBackKeeps(v);
    forall k
      ensures Visible(v, k) == Visible(Sync(v), k)
      ensures k in Sync(v).entries ==> EntryAgrees(Sync(v).entries[k], Visible(Sync(v).base, k))
    {
      if k in v.entries { assert EntryAgrees(v.entries[k], Visible(v.base, k)); }
      assert Visible(v, k) == Visible(Sync(v).base, k);
    }
  }

  /** Flush empties the cache, leaves the view unchanged and makes the parent show the same coins. */
  lemma FlushKeeps(v: View)
    requires v.Cache? && Inv(v)
    ensures Inv(Flush(v)) && SameCoins(v, Flush(v)) && SameCoins(v, Flush(v).base) && Flush(v).entries == map[]
    ensures Depth(Flush(v)) == Depth(v)
  {
    WriteBackKeeps(v);
  }

  lemma {:induction false} FetchBestKeeps(v: View)
    requires Inv(v)
    ensures Inv(FetchBest(v)) && SameCoins(v, FetchBest(v))
    ensures Depth(FetchBest(v)) == Depth(v) && BestBlock(FetchBest(v)) == BestBlock(v)
  {
    if v.Cache? {
      FetchBestKeeps(v.base);
    }
  }

  /** Writing back keeps the best block of the stack exactly when the cache knows its own
      hash, or its parent is a cache that agrees with the view below it. A cache that never
      asked for the best block pushes a null hash down and hides its parent's. */
  lemma WriteBackBestBlock(v: View)
    requires v.Cache? && (v.base.Database? ==> v.hash != NULL_HASH)
    ensures BestBlock(Flush(v)) == BestBlock(Sync(v))
    ensures BestBlock(Flush(v)) == BestBlock(v)
            <==> v.hash != NULL_HASH || BestBlock(v.base) == BestBlock(v.base.base)
    ensures v.hash != NULL_HASH ==> BestBlock(Flush(v).base) == BestBlock(Sync(v).base) == v.hash
  {
  }

  /** It does fail otherwise: over a cache that is at block h above a database at block g, an empty
      cache that never asked for the best block turns it back to g by writing nothing. */
  lemma UnaskedHashIsLost(h: BlockHash, g: BlockHash)
    requires h != NULL_HASH && h != g
    ensures var v := Cache(map[], NULL_HASH, Cache(map[], h, Database(map[], g)));
            Inv(v) && BestBlock(v) == h && BestBlock(Flush(v)) == BestBlock(Sync(v)) == g
  {
    var v := Cache(map[], NULL_HASH, Cache(map[], h, Database(map[], g)));
    assert Inv(v.base.base) && Inv(v.base);
    WriteBackBestBlock(v);
  }

  // ---------------------------------------------------------------------- runs

  datatype Op =
    | Read(depth: nat, k: OutPoint)
    | ReadBest(depth: nat)
    | Drop(depth: nat, k: OutPoint)
    | SyncAt(depth: nat)
    | FlushAt(depth: nat)
    | Add(k: OutPoint, c: Coin, overwrite: bool)
    | Spend(k: OutPoint)
    | SetBest(hash: BlockHash)

  /** Applies an operation to the cache `depth` levels below the top. */
  function StepAt(v: View, depth: nat, op: Op): View
    requires v.Cache?
    decreases depth
  {
    if depth > 0 then
      if v.base.Cache? then v.(base := StepAt(v.base, depth - 1, op)) else v
    else
      match op
      case Read(_, k) => Fetch(v, k)
      case ReadBest(_) => FetchBest(v)
      case Drop(_, k) => Uncache(v, k)
      case SyncAt(_) => Sync(v)
      case FlushAt(_) => Flush(v)
      case Add(k, c, overwrite) => AddCoin(v, k, c, overwrite)
      case Spend(k) => SpendCoin(v, k)
      case SetBest(h) => v.(hash := h)
  }

  function OpDepth(op: Op): nat {
    match op
    case Read(d, _) => d
    case ReadBest(d) => d
    case Drop(d, _) => d
    case SyncAt(d) => d
    case FlushAt(d) => d
    case _ => 0
  }

  function Step(v: View, op: Op): View
    requires v.Cache?
  {
    StepAt(v, OpDepth(op), op)
  }

  function Run(v: View, ops: seq<Op>): View
    requires v.Cache?
    ensures Run(v, ops).Cache?
    decreases |ops|
  {
    if ops == [] then v else Run(Step(v, ops[0]), ops[1..])
  }

  /** The reference: the same adds and spends on one flat map. Everything else is invisible. */
  function FlatStep(m: map<OutPoint, Coin>, op: Op): map<OutPoint, Coin> {
    match op
    case Add(k, c, _) => if c.IsUnspendable() then m else m[k := c]
    case Spend(k) => m - {k}
    case _ => m
  }

  /** The hash a reader of a column of hashes finds: the first that is set, or the last. */
  function BestOf(hashes: seq<BlockHash>): BlockHash
    requires hashes != []
  {
    if |hashes| == 1 || hashes[0] != NULL_HASH then hashes[0] else BestOf(hashes[1..])
  }

  /** The column after a reader remembered what it found in every place that was not set. */
  function Remembered(hashes: seq<BlockHash>): seq<BlockHash> {
    if |hashes| <= 1 || hashes[0] != NULL_HASH then hashes else [BestOf(hashes)] + Remembered(hashes[1..])
  }

  /** The reference for best blocks: one column of hashes, from the top cache down to the database.
      Setting changes the top, reading fills in, and a write copies a hash one level down. */
  function HashStep(hashes: seq<BlockHash>, depth: nat, op: Op): seq<BlockHash> {
    if |hashes| <= 1 then hashes
    else if depth > 0 then [hashes[0]] + HashStep(hashes[1..], depth - 1, op)
    else
      match op
      case SetBest(h) => hashes[0 := h]
      case ReadBest(_) => Remembered(hashes)
      case SyncAt(_) => hashes[1 := hashes[0]]
      case FlushAt(_) => hashes[1 := hashes[0]]
      case _ => hashes
  }

  /** What a stack of caches stands for: one map of unspent coins and one column of hashes. */
  datatype Ledger = Ledger(coins: map<OutPoint, Coin>, hashes: seq<BlockHash>)

  function LedgerStep(l: Ledger, op: Op): Ledger {
    Ledger(FlatStep(l.coins, op), HashStep(l.hashes, OpDepth(op), op))
  }

  function LedgerRun(l: Ledger, ops: seq<Op>): Ledger
    decreases |ops|
  {
    if ops == [] then l else LedgerRun(LedgerStep(l, ops[0]), ops[1..])
  }

  function Hashes(v: View): (hashes: seq<BlockHash>)
    ensures |hashes| == Depth(v) + 1
  {
    match v
    case Database(_, best) => [best]
    case Cache(_, hash, base) => [hash] + Hashes(base)
  }

  function LedgerOf(v: View): Ledger {
    Ledger(Flat(v), Hashes(v))
  }

  /** The caller's side of the contract, stated on the flat map alone. */
  predicate Permitted(m: map<OutPoint, Coin>, op: Op) {
    op.Add? ==> !op.c.IsSpent() && (op.overwrite || op.c.IsUnspendable() || op.k !in m)
  }

  predicate PermittedRun(m: map<OutPoint, Coin>, ops: seq<Op>)
    decreases |ops|
  {
    ops == [] || (Permitted(m, ops[0]) && PermittedRun(FlatStep(m, ops[0]), ops[1..]))
  }

  /** A write to the database without a best block, which its first assertion refuses. */
  predicate WritesNull(v: View, depth: nat, op: Op)
    requires v.Cache?
    decreases depth
  {
    if depth > 0 then v.base.Cache? && WritesNull(v.base, depth - 1, op)
    else (op.SyncAt? || op.FlushAt?) && v.base.Database? && v.hash == NULL_HASH
  }

  /** A run in which the caller keeps the contract and no database is written without a best block. */
  ghost predicate ProperRun(v: View, ops: seq<Op>)
    requires v.Cache?
    decreases |ops|
  {
    ops == [] ||
    (Permitted(Flat(v), ops[0]) && !WritesNull(v, OpDepth(ops[0]), ops[0]) && ProperRun(Step(v, ops[0]), ops[1..]))
  }

  lemma {:induction false} ProperIsPermitted(v: View, ops: seq<Op>)
    requires v.Cache? && Inv(v) && ProperRun(v, ops)
    ensures PermittedRun(Flat(v), ops)
    decreases |ops|
  {
    if ops != [] {
      StepRefines(v, ops[0]);
      ProperIsPermitted(Step(v, ops[0]), ops[1..]);
    }
  }

  /** What a caller is told. */
  datatype Told = Nothing | Coins(coin: Option<Coin>) | Hash(hash: BlockHash)

  /** The cache `depth` levels below the top, or what is as far down as it goes. */
  function Level(v: View, depth: nat): View {
    if depth == 0 || v.Database? then v else Level(v.base, depth - 1)
  }

  /** The answer of a read of a coin at the top or of the best block at any level, or the coin that a
      spend moves out. */
  function Reply(v: View, op: Op): Told
    requires v.Cache?
  {
    match op
    case Read(0, k) => Coins(Answer(v, k))
    case ReadBest(d) => if Level(v, d).Cache? then Hash(BestBlock(Level(v, d))) else Nothing
    case Spend(k) =>
      var f := Fetch(v, k);
      Coins(if k in f.entries then Unspent(f.entries[k].coin) else None)
    case _ => Nothing
  }

  function LedgerReply(l: Ledger, op: Op): Told {
    match op
    case Read(0, k) => Coins(Get(l.coins, k))
    case ReadBest(d) => if d + 1 < |l.hashes| then Hash(BestOf(l.hashes[d..])) else Nothing
    case Spend(k) => Coins(Get(l.coins, k))
    case _ => Nothing
  }

  function Replies(v: View, ops: seq<Op>): seq<Told>
    requires v.Cache?
    decreases |ops|
  {
    if ops == [] then [] else [Reply(v, ops[0])] + Replies(Step(v, ops[0]), ops[1..])
  }

  function LedgerReplies(l: Ledger, ops: seq<Op>): seq<Told>
    decreases |ops|
  {
    if ops == [] then [] else [LedgerReply(l, ops[0])] + LedgerReplies(LedgerStep(l, ops[0]), ops[1..])
  }

  // ----------------------------------------------------------- best blocks, level by level

  lemma {:induction false} BestIsFound(v: View)
    ensures BestBlock(v) == BestOf(Hashes(v))
  {
    if v.Cache? { BestIsFound(v.base); }
  }

  lemma {:induction false} LevelHashes(v: View, depth: nat)
    ensures Level(v, depth).Cache? <==> depth + 1 < |Hashes(v)|
    ensures depth < |Hashes(v)| ==> Hashes(Level(v, depth)) == Hashes(v)[depth..]
    decreases depth
  {
    if depth > 0 && v.Cache? { LevelHashes(v.base, depth - 1); }
  }

  lemma {:induction false} FetchHashes(v: View, k: OutPoint)
    ensures Hashes(Fetch(v, k)) == Hashes(v)
  {
    if v.Cache? { FetchHashes(v.base, k); }
  }

  lemma {:induction false} RememberedHashes(v: View)
    ensures Hashes(FetchBest(v)) == Remembered(Hashes(v))
  {
    if v.Cache? && v.hash == NULL_HASH {
      RememberedHashes(v.base);
      BestIsFound(v.base);
    }
  }

  lemma WriteBackHashes(v: View)
    requires v.Cache?
    ensures Hashes(Sync(v)) == Hashes(Flush(v)) == Hashes(v)[1 := v.hash]
  {
  }

  /** Every operation at every level does to the hashes what the column does. */
  lemma {:induction false} StepHashes(v: View, depth: nat, op: Op)
    requires v.Cache?
    ensures Hashes(StepAt(v, depth, op)) == HashStep(Hashes(v), depth, op)
    decreases depth
  {
    if depth > 0 {
      if v.base.Cache? {
        StepHashes(v.base, depth - 1, op);
      } else {
        assert Hashes(v)[1..] == [v.base.best];
      }
    } else {
      match op
      case Read(_, k) => FetchHashes(v, k);
      case Spend(k) => FetchHashes(v, k);
      case ReadBest(_) => RememberedHashes(v);
      case SyncAt(_) => WriteBackHashes(v);
      case FlushAt(_) => WriteBackHashes(v);
      case _ =>
    }
  }

  /** As long as nobody sets the null hash and no cache without a hash of its own is written down, the
      best block at the top is the one that was set last. */
  lemma {:induction false} BestIsLastSet(hashes: seq<BlockHash>, depth: nat, op: Op)
    requires |hashes| > 1 && (op.SetBest? ==> depth == 0 && op.hash != NULL_HASH)
    requires (op.SyncAt? || op.FlushAt?) && depth < |hashes| ==> hashes[depth] != NULL_HASH
    ensures BestOf(HashStep(hashes, depth, op)) == if op.SetBest? then op.hash else BestOf(hashes)
    decreases depth
  {
    var after := HashStep(hashes, depth, op);
    if depth > 0 {
      assert after[0] == hashes[0] && after[1..] == HashStep(hashes[1..], depth - 1, op);
      if |hashes| > 2 { BestIsLastSet(hashes[1..], depth - 1, op); }
    } else if op.ReadBest? {
      RememberedBest(hashes);
    }
  }

  lemma {:induction false} RememberedBest(hashes: seq<BlockHash>)
    requires hashes != []
    ensures BestOf(Remembered(hashes)) == BestOf(hashes)
  {
    if |hashes| > 1 && hashes[0] == NULL_HASH {
      RememberedBest(hashes[1..]);
      assert Remembered(hashes)[1..] == Remembered(hashes[1..]);
    }
  }

  /** The operation, performed `depth` levels below the top, hits one of the two logic errors. */
  ghost predicate ThrowsAt(v: View, depth: nat, op: Op)
    requires v.Cache?
    decreases depth
  {
    if depth > 0 then v.base.Cache? && ThrowsAt(v.base, depth - 1, op)
    else
      || (op.Add? && AddThrows(v, op.k, op.c, op.overwrite))
      || ((op.SyncAt? || op.FlushAt?) && WriteThrows(v.base, v.entries))
  }

  ghost predicate NeverThrows(v: View, ops: seq<Op>)
    requires v.Cache?
    decreases |ops|
  {
    ops == [] || (!ThrowsAt(v, OpDepth(ops[0]), ops[0]) && NeverThrows(Step(v, ops[0]), ops[1..]))
  }

  /** A truthful FRESH flag at every level means no write-back can find it misapplied. */
  lemma {:induction false} WriteBackNeverThrows(v: View, depth: nat, op: Op)
    requires v.Cache? && Inv(v) && !op.Add?
    ensures !ThrowsAt(v, depth, op)
    decreases depth
  {
    if depth > 0 && v.base.Cache? {
      WriteBackNeverThrows(v.base, depth - 1, op);
    }
  }

  /** View-preserving operations are invisible at whatever level they happen. */
  lemma {:induction false} QuietStepKeeps(v: View, depth: nat, op: Op)
    requires v.Cache? && Inv(v)
    requires op.Read? || op.ReadBest? || op.Drop? || op.SyncAt? || op.FlushAt?
    ensures Inv(StepAt(v, depth, op)) && SameCoins(v, StepAt(v, depth, op))
    ensures StepAt(v, depth, op).Cache? && Depth(StepAt(v, depth, op)) == Depth(v)
    decreases depth
  {
    if depth > 0 {
      if v.base.Cache? {
        QuietStepKeeps(v.base, depth - 1, op);
        BaseReplaced(v, StepAt(v.base, depth - 1, op));
      }
    } else {
      match op
      case Read(_, k) => FetchKeeps(v, k);
      case ReadBest(_) => FetchBestKeeps(v);
      case Drop(_, k) => UncacheKeeps(v, k);
      case SyncAt(_) => SyncKeeps(v);
      case FlushAt(_) => FlushKeeps(v);
    }
  }

  lemma AddRefines(v: View, k: OutPoint, c: Coin, overwrite: bool)
    requires v.Cache? && Inv(v) && Permitted(Flat(v), Add(k, c, overwrite))
    ensures !AddThrows(v, k, c, overwrite) && Inv(AddCoin(v, k, c, overwrite))
    ensures Flat(AddCoin(v, k, c, overwrite)) == FlatStep(Flat(v), Add(k, c, overwrite))
  {
    hide Flat, Inv, Visible, AddCoin;
    FlatIsVisible(v);
    FlatIsVisible(AddCoin(v, k, c, overwrite));
    assert Get(Flat(v), k) == Visible(v, k);
    AddKeeps(v, k, c, overwrite);
    SameMap(Flat(AddCoin(v, k, c, overwrite)), FlatStep(Flat(v), Add(k, c, overwrite)));
  }

  lemma SpendRefines(v: View, k: OutPoint)
    requires v.Cache? && Inv(v)
    ensures Inv(SpendCoin(v, k)) && SpendCoin(v, k).Cache? && Depth(SpendCoin(v, k)) == Depth(v)
    ensures Flat(SpendCoin(v, k)) == FlatStep(Flat(v), Spend(k)) && Reply(v, Spend(k)) == Coins(Get(Flat(v), k))
  {
    hide Flat, Inv, Visible, SpendCoin, Fetch;
    FlatIsVisible(v);
    FlatIsVisible(SpendCoin(v, k));
    FetchKeeps(v, k);
    SpendKeeps(v, k);
    assert Get(Flat(v), k) == Visible(v, k);
    SameMap(Flat(SpendCoin(v, k)), FlatStep(Flat(v), Spend(k)));
  }

  lemma ReadRefines(v: View, k: OutPoint)
    requires v.Cache? && Inv(v)
    ensures Answer(v, k) == Get(Flat(v), k)
  {
    FlatIsVisible(v);
    assert Get(Flat(v), k) == Visible(v, k);
  }

  lemma StepRefines(v: View, op: Op)
    requires v.Cache? && Inv(v) && Permitted(Flat(v), op)
    ensures Inv(Step(v, op)) && Step(v, op).Cache? && Depth(Step(v, op)) == Depth(v)
    ensures LedgerOf(Step(v, op)) == LedgerStep(LedgerOf(v), op)
    ensures Reply(v, op) == LedgerReply(LedgerOf(v), op)
    ensures !ThrowsAt(v, OpDepth(op), op)
  {
    hide Hashes, HashStep;
    StepHashes(v, OpDepth(op), op);
    match op
    case Add(k, c, overwrite) =>
      AddRefines(v, k, c, overwrite);
    case Spend(k) =>
      SpendRefines(v, k);
    case SetBest(h) =>
      assert SameCoins(v, Step(v, op));
      SameCoinsSameFlat(v, Step(v, op));
    case Read(_, k) =>
      QuietStepKeeps(v, OpDepth(op), op);
      WriteBackNeverThrows(v, OpDepth(op), op);
      SameCoinsSameFlat(v, Step(v, op));
      ReadRefines(v, k);
    case _ =>
      QuietStepKeeps(v, OpDepth(op), op);
      WriteBackNeverThrows(v, OpDepth(op), op);
      SameCoinsSameFlat(v, Step(v, op));
      BestRefines(v, op);
  }

  lemma BestRefines(v: View, op: Op)
    requires v.Cache? && !op.Read? && !op.Spend?
    ensures Reply(v, op) == LedgerReply(LedgerOf(v), op)
  {
    match op
    case ReadBest(d) =>
      LevelHashes(v, d);
      BestIsFound(Level(v, d));
    case _ =>
  }

  lemma SameMap<K, V>(a: map<K, V>, b: map<K, V>)
    requires forall k :: Get(a, k) == Get(b, k)
    ensures a == b
  {
    assert forall k :: k in a <==> Get(a, k).Some?;
    assert forall k :: k in b <==> Get(b, k).Some?;
  }

  /** The stack of caches refines one flat map and one column of hashes over every run: whatever
      mix of reads, evictions, syncs and flushes happens at whatever levels, the top shows the
      flat map with the same adds and spends applied, every level has the best block of the
      column, every reply is the one of the two, every flag stays truthful and neither logic
      error is ever raised. */
  lemma {:induction false} StackRefinesFlatMap(v: View, ops: seq<Op>)
    requires v.Cache? && Inv(v) && PermittedRun(Flat(v), ops)
    ensures Inv(Run(v, ops)) && Depth(Run(v, ops)) == Depth(v)
    ensures LedgerOf(Run(v, ops)) == LedgerRun(LedgerOf(v), ops)
    ensures Replies(v, ops) == LedgerReplies(LedgerOf(v), ops)
    ensures NeverThrows(v, ops)
    decreases |ops|
  {
    if ops != [] {
      StepRefines(v, ops[0]);
      StackRefinesFlatMap(Step(v, ops[0]), ops[1..]);
    }
  }
}
