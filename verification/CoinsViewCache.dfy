/** CCoinsViewCache in place (src/coins.cpp, src/coins.h): the entry map, the flagged
    list threaded through it, the memory counter and the best-block hash are fields
    that the methods rewrite. Every method is proved to perform the corresponding
    function on views of CoinsView.dfy and to keep the list and the counter exact. */
module CoinsViewCache {
  import opened Wrappers
  import opened Sequences
  import opened CoinsView
  import opened FlaggedList

  // -------------------------------------------------------------- memory accounting

  /** The sum that cachedCoinsUsage caches: the script memory of every cached coin. */
  ghost function TotalUsage(usage: Script -> nat, entries: Entries): nat {
    if entries == map[] then 0
    else
      var k :| k in entries;
      usage(entries[k].coin.out.scriptPubKey) + TotalUsage(usage, entries - {k})
  }

  lemma {:induction false} TotalUsageRemove(usage: Script -> nat, entries: Entries, k: OutPoint)
    requires k in entries
    ensures TotalUsage(usage, entries)
            == usage(entries[k].coin.out.scriptPubKey) + TotalUsage(usage, entries - {k})
    decreases |entries|
  {
    var p :| p in entries
             && TotalUsage(usage, entries)
                == usage(entries[p].coin.out.scriptPubKey) + TotalUsage(usage, entries - {p});
    if p != k {
      TotalUsageRemove(usage, entries - {p}, k);
      TotalUsageRemove(usage, entries - {k}, p);
      assert entries - {p} - {k} == entries - {k} - {p};
    }
  }

  lemma TotalUsageNone(usage: Script -> nat)
    ensures TotalUsage(usage, map[]) == 0
  {
  }

  lemma EntryIsValid(v: View, k: OutPoint)
    requires v.Cache? && Inv(v) && k in v.entries
    ensures ValidState(v.entries[k])
  {
    assert EntryAgrees(v.entries[k], Visible(v.base, k));
  }

  lemma TotalUsagePut(usage: Script -> nat, entries: Entries, k: OutPoint, e: Entry)
    ensures TotalUsage(usage, entries[k := e])
            == usage(e.coin.out.scriptPubKey)
               + TotalUsage(usage, entries)
               - if k in entries then usage(entries[k].coin.out.scriptPubKey) else 0
  {
    TotalUsageRemove(usage, entries[k := e], k);
    assert entries[k := e] - {k} == entries - {k};
    if k in entries {
      TotalUsageRemove(usage, entries, k);
    } else {
      assert entries - {k} == entries;
    }
  }

  // ------------------------------------------------------------------- the database

  /** The bottom of the stack: a CCoinsView that stores coins. */
  class CoinsDatabase {
    var coins: map<OutPoint, Coin>
    var best: BlockHash

    constructor (coins: map<OutPoint, Coin>, best: BlockHash)
      ensures this.coins == coins && this.best == best
    {
      this.coins, this.best := coins, best;
    }

    /** The loop of CCoinsViewDB::BatchWrite: a dirty spent coin is erased, any other dirty coin
        is stored. */
    method WriteFlagged(child: CoinsViewCache, willErase: bool, ghost theirs: Entries, ghost at: seq<OutPoint>)
      requires child.Sound() && child.Entries() == theirs && child.order == at && child.sentinelNext == LinkAt(at, 0)
      requires Distinct(at) && forall k :: k in at ==> k in theirs && theirs[k].Flagged()
      modifies this, child
      ensures best == old(best) && child.hashBlock == old(child.hashBlock)
      ensures PartlyWritten(old(coins), theirs, coins, at)
      ensures child.Passed(theirs, at, |at|, willErase)
    {
      hide WellLinked, TotalUsage, Synced, PartlyWritten, PartlySynced, Distinct;
      ghost var i := 0;
      var it := child.sentinelNext;
      WriteFresh(old(coins), theirs, at);
      while !it.ToSentinel?
        invariant i <= |at| && it == LinkAt(at, i) && best == old(best)
        invariant PartlyWritten(old(coins), theirs, coins, at[..i])
        invariant child.Passed(theirs, at, i, willErase) && child.hashBlock == old(child.hashBlock)
        decreases |at| - i
      {
        var k := it.key;
        ghost var now := coins;
        CursorAt(theirs, child.Entries(), at, i, willErase);
        assert k in child.cacheCoins && child.cacheCoins[k].entry == theirs[k];
        var e := child.cacheCoins[k].entry;
        if e.isDirty {
          coins := if e.coin.IsSpent() then coins - {k} else coins[k := e.coin];
        }
        WriteStep(old(coins), theirs, now, coins, at, i);
        it := child.Pass(k, willErase, false, theirs, at, i);
        i := i + 1;
      }
      assert at[..i] == at;
    }

    /** CCoinsViewDB::BatchWrite. */
    method BatchWrite(child: CoinsViewCache, willErase: bool, hashIn: BlockHash)
      requires child.base == OnDatabase(this) && child.Valid() && hashIn != NULL_HASH
      modifies this, child
      ensures coins == Written(old(coins), old(child.Entries())) && best == hashIn
      ensures WellLinked(child.Chain(), child.order) && child.hashBlock == old(child.hashBlock)
      ensures !willErase ==> child.Sound() && child.order == [] && child.Entries() == Synced(old(child.Entries()))
    {
      hide WellLinked, TotalUsage, Synced, Written, Inv, Visible;
      ghost var theirs, at := child.Entries(), child.order;
      CursorStarts(child.Chain(), at);
      WriteFlagged(child, willErase, theirs, at);
      WriteDone(old(coins), theirs, coins, at);
      if !willErase {
        assert at[..|at|] == at;
        SyncDone(theirs, child.Entries(), at);
      }
      best := hashIn;
    }
  }

  /** What a cache sits on. */
  datatype Base = OnDatabase(db: CoinsDatabase) | OnCache(cache: CoinsViewCache)

  // ---------------------------------------------------------------------- the cache

  class CoinsViewCache {
    const base: Base
    /** Memory taken by a script; an empty script takes none. */
    const usage: Script -> nat

    var cacheCoins: Nodes
    var sentinelNext: Link
    var sentinelPrev: Link
    var cachedCoinsUsage: nat
    var hashBlock: BlockHash

    /** The keys on the flagged list, in list order. */
    ghost var order: seq<OutPoint>
    /** The number of caches below, and every object of the stack from here down. */
    ghost const level: nat
    ghost const Repr: set<object>

    /** The stack below is a finite chain of distinct objects. */
    ghost predicate Stacked()
      decreases level
    {
      && usage([]) == 0
      && match base
         case OnDatabase(db) => Repr == {this, db}
         case OnCache(c) => c.level < level && this !in c.Repr && Repr == {this} + c.Repr && c.Stacked()
    }

    ghost function Chain(): Chain
      reads this
    {
      FlaggedList.Chain(cacheCoins, sentinelNext, sentinelPrev)
    }

    ghost function Entries(): Entries
      reads this
    {
      EntriesOf(cacheCoins)
    }

    /** The list and the counter of this cache are exact. */
    ghost predicate Sound()
      reads this
    {
      WellLinked(Chain(), order) && cachedCoinsUsage == TotalUsage(usage, Entries())
    }

    /** The view this cache stands for. */
    ghost function View(): View
      requires Stacked()
      reads Repr
      decreases level
    {
      Cache(Entries(), hashBlock, BaseView())
    }

    ghost function BaseView(): View
      requires Stacked()
      reads Repr - {this}
      decreases level, 0
    {
      match base
      case OnDatabase(db) => Database(db.coins, db.best)
      case OnCache(c) => c.View()
    }

    ghost predicate SoundBelow()
      requires Stacked()
      reads Repr - {this}
      decreases level
    {
      base.OnCache? ==> base.cache.Sound() && base.cache.SoundBelow()
    }

    ghost predicate Valid()
      reads Repr
    {
      Stacked() && Sound() && SoundBelow() && Inv(View())
    }

    /** An empty cache whose sentinel points at itself. */
    constructor (base: Base, usage: Script -> nat)
      requires usage([]) == 0
      requires base.OnCache? ==> base.cache.Valid()
      ensures Valid() && this.base == base && this.usage == usage
      ensures View() == Cache(map[], NULL_HASH, BaseView())
    {
      this.base, this.usage := base, usage;
      cacheCoins, sentinelNext, sentinelPrev := map[], ToSentinel, ToSentinel;
      cachedCoinsUsage, hashBlock, order := 0, NULL_HASH, [];
      level := if base.OnCache? then base.cache.level + 1 else 0;
      Repr := {this} + if base.OnCache? then base.cache.Repr else {base.db};
    }

    // ------------------------------------------------------------ flags and the list

    /** AddFlags: puts a so far unflagged entry at the end of the list, then sets the flags. */
    method AddFlags(k: OutPoint, setDirty: bool, setFresh: bool)
      requires WellLinked(Chain(), order) && k in cacheCoins && (setDirty || setFresh)
      modifies this`cacheCoins, this`sentinelNext, this`sentinelPrev, this`order
      ensures WellLinked(Chain(), order) && k in cacheCoins
      ensures cacheCoins[k].entry == WithFlags(old(cacheCoins[k].entry), setDirty, setFresh)
      ensures Entries() == old(Entries())[k := cacheCoins[k].entry]
    {
      var e := WithFlags(cacheCoins[k].entry, setDirty, setFresh);
      if !cacheCoins[k].entry.Flagged() {
        FlaggingKeeps(Chain(), order, k, e);
        var last := sentinelPrev;
        cacheCoins := cacheCoins[k := cacheCoins[k].(prev := last, next := ToSentinel)];
        sentinelPrev := ToEntry(k);
        if last.ToSentinel? {
          sentinelNext := ToEntry(k);
        } else {
          cacheCoins := cacheCoins[last.key := cacheCoins[last.key].(next := ToEntry(k))];
        }
        cacheCoins := cacheCoins[k := cacheCoins[k].(entry := e)];
        assert Chain() == Flagging(old(Chain()), k, e);
        order := order + [k];
      } else {
        RewritingKeeps(Chain(), order, k, e);
        cacheCoins := cacheCoins[k := cacheCoins[k].(entry := e)];
        assert Chain() == WithEntry(old(Chain()), k, e);
      }
    }

    /** The assignments of SetClean: the neighbours are linked to each other and the entry to nothing. */
    method Detach(k: OutPoint)
      requires k in cacheCoins && Reaches(Chain(), cacheCoins[k].next) && Reaches(Chain(), cacheCoins[k].prev)
      modifies this`cacheCoins, this`sentinelNext, this`sentinelPrev
      ensures Chain() == Cleaning(old(Chain()), k)
    {
      var prev, next := cacheCoins[k].prev, cacheCoins[k].next;
      if next.ToSentinel? {
        sentinelPrev := prev;
      } else {
        cacheCoins := cacheCoins[next.key := cacheCoins[next.key].(prev := prev)];
      }
      if prev.ToSentinel? {
        sentinelNext := next;
      } else {
        cacheCoins := cacheCoins[prev.key := cacheCoins[prev.key].(next := next)];
      }
      cacheCoins := cacheCoins[k := Node(Entry(cacheCoins[k].entry.coin, false, false), Null, Null)];
    }

    /** SetClean: takes a flagged entry off the list and clears its flags. */
    method SetClean(k: OutPoint)
      requires WellLinked(Chain(), order) && k in cacheCoins
      modifies this`cacheCoins, this`sentinelNext, this`sentinelPrev, this`order
      ensures WellLinked(Chain(), order) && k in cacheCoins
      ensures cacheCoins[k].entry == Entry(old(cacheCoins[k].entry.coin), false, false)
      ensures Entries() == old(Entries())[k := cacheCoins[k].entry]
      ensures old(order) != [] && old(order)[0] == k ==> order == old(order)[1..]
    {
      if !cacheCoins[k].entry.Flagged() {
        return;
      }
      hide WellLinked;
      ghost var i := FlaggedIndex(Chain(), order, k);
      CleaningKeeps(Chain(), order, i);
      Detach(k);
      order := Without(order, i);
    }

    /** Erasing a map node runs its destructor, which calls SetClean. */
    method Erase(k: OutPoint)
      requires WellLinked(Chain(), order) && k in cacheCoins
      modifies this`cacheCoins, this`sentinelNext, this`sentinelPrev, this`order
      ensures WellLinked(Chain(), order)
      ensures Entries() == old(Entries()) - {k}
      ensures old(order) != [] && old(order)[0] == k ==> order == old(order)[1..]
    {
      hide WellLinked;
      SetClean(k);
      DeletingKeeps(Chain(), order, k);
      cacheCoins := cacheCoins - {k};
    }

    /** Writes the cached data of an entry without touching its flags. */
    method SetCoin(k: OutPoint, c: Coin)
      requires WellLinked(Chain(), order) && k in cacheCoins
      modifies this`cacheCoins
      ensures WellLinked(Chain(), order) && k in cacheCoins
      ensures cacheCoins[k].entry == old(cacheCoins[k].entry).(coin := c)
      ensures Entries() == old(Entries())[k := cacheCoins[k].entry]
    {
      var e := cacheCoins[k].entry.(coin := c);
      RewritingKeeps(Chain(), order, k, e);
      cacheCoins := cacheCoins[k := cacheCoins[k].(entry := e)];
      assert Chain() == WithEntry(old(Chain()), k, e);
    }

    /** try_emplace: a default entry where there was none. */
    method Emplace(k: OutPoint)
      requires WellLinked(Chain(), order) && k !in cacheCoins
      modifies this`cacheCoins
      ensures WellLinked(Chain(), order) && k in cacheCoins
      ensures cacheCoins[k].entry == Entry(CLEARED, false, false)
      ensures Entries() == old(Entries())[k := cacheCoins[k].entry]
    {
      InsertingKeeps(Chain(), order, k, Entry(CLEARED, false, false));
      cacheCoins := cacheCoins[k := Node(Entry(CLEARED, false, false), Null, Null)];
      assert Chain() == old(Chain()).(nodes := cacheCoins);
    }

    function UsageAt(k: OutPoint): nat
      requires k in cacheCoins
      reads this
    {
      usage(cacheCoins[k].entry.coin.out.scriptPubKey)
    }

    // --------------------------------------------------------------------- reading

    /** base->GetCoin: may fill the caches below, never this one. */
    method BaseGetCoin(k: OutPoint) returns (r: Option<Coin>)
      requires Stacked() && SoundBelow() && Inv(BaseView())
      modifies Repr - {this}
      ensures SoundBelow() && BaseView() == Fetch(old(BaseView()), k)
      ensures r == Answer(old(BaseView()), k)
      decreases level, 0
    {
      match base
      case OnDatabase(db) =>
        r := Get(db.coins, k);
      case OnCache(c) =>
        r := c.GetCoin(k);
    }

    /** The part of FetchCoin after the base has answered for the freshly emplaced entry. */
    method Install(k: OutPoint, got: Option<Coin>, ghost before: Entries)
      requires usage([]) == 0 && WellLinked(Chain(), order) && k in cacheCoins && k !in before
      requires cacheCoins[k].entry == Entry(CLEARED, false, false) && Entries() == before[k := cacheCoins[k].entry]
      requires cachedCoinsUsage == TotalUsage(usage, before)
      modifies this
      ensures Sound() && hashBlock == old(hashBlock)
      ensures Entries() == if got.None? then before else before[k := Entry(got.value, false, got.value.IsSpent())]
    {
      hide WellLinked;
      match got
      case None =>
        DeletingKeeps(Chain(), order, k);
        cacheCoins := cacheCoins - {k};
        assert before[k := Entry(CLEARED, false, false)] - {k} == before;
        assert cacheCoins == old(cacheCoins) - {k};
      case Some(c) =>
        SetCoin(k, c);
        cachedCoinsUsage := cachedCoinsUsage + usage(c.out.scriptPubKey);
        if c.IsSpent() {
          AddFlags(k, false, true);
        }
        assert Entries() == before[k := Entry(c, false, c.IsSpent())];
        TotalUsagePut(usage, before, k, Entry(c, false, c.IsSpent()));
    }

    method FetchCoin(k: OutPoint) returns (found: bool)
      requires Valid()
      modifies Repr
      ensures Valid() && View() == Fetch(old(View()), k)
      ensures found <==> k in cacheCoins
      decreases level, 1
    {
      hide WellLinked, Visible, TotalUsage;
      if k in cacheCoins {
        return true;
      }
      FetchKeeps(View(), k);
      Emplace(k);
      var got := BaseGetCoin(k);
      Install(k, got, old(Entries()));
      found := k in cacheCoins;
    }

    method GetCoin(k: OutPoint) returns (r: Option<Coin>)
      requires Valid()
      modifies Repr
      ensures Valid() && View() == Fetch(old(View()), k)
      ensures r == Visible(old(View()), k)
      decreases level, 2
    {
      FetchKeeps(View(), k);
      var found := FetchCoin(k);
      r := if found then Unspent(cacheCoins[k].entry.coin) else None;
    }

    /** HaveCoin. */
    method HaveCoin(k: OutPoint) returns (have: bool)
      requires Valid()
      modifies Repr
      ensures Valid() && View() == Fetch(old(View()), k)
      ensures have <==> Visible(old(View()), k).Some?
    {
      FetchKeeps(View(), k);
      var found := FetchCoin(k);
      have := found && !cacheCoins[k].entry.coin.IsSpent();
    }

    // -------------------------------------------------------------------- changing

    /** Stores a new coin as DIRTY, and as FRESH if asked, and counts its memory. */
    method PutCoin(k: OutPoint, c: Coin, asFresh: bool)
      requires WellLinked(Chain(), order) && k in cacheCoins
      modifies this
      ensures WellLinked(Chain(), order) && k in cacheCoins && hashBlock == old(hashBlock)
      ensures cacheCoins[k].entry == Entry(c, true, old(cacheCoins[k].entry.isFresh) || asFresh)
      ensures Entries() == old(Entries())[k := cacheCoins[k].entry]
      ensures cachedCoinsUsage == old(cachedCoinsUsage) + usage(c.out.scriptPubKey)
    {
      hide WellLinked;
      SetCoin(k, c);
      AddFlags(k, true, false);
      if asFresh {
        AddFlags(k, false, true);
      }
      cachedCoinsUsage := cachedCoinsUsage + usage(c.out.scriptPubKey);
    }

    /** AddCoin. The throw leaves everything in place except the counter, from which the old
        coin has already been subtracted. An unannounced add over a coin that only the base shows
        is performed as well: list and counter stay exact, but FRESH no longer tells the truth. */
    method AddCoin(k: OutPoint, c: Coin, overwrite: bool) returns (threw: bool)
      requires Valid() && !c.IsSpent()
      modifies this
      ensures threw <==> AddThrows(old(View()), k, c, overwrite)
      ensures threw ==> View() == old(View()) && cachedCoinsUsage == old(cachedCoinsUsage) - old(UsageAt(k))
      ensures !threw ==> Sound() && SoundBelow() && View() == CoinsView.AddCoin(old(View()), k, c, overwrite)
      ensures !threw ==> (Valid() <==> overwrite || c.IsUnspendable() || k in old(cacheCoins) || Visible(BaseView(), k).None?)
    {
      hide WellLinked, Inv, Visible, TotalUsage;
      if c.IsUnspendable() {
        return false;
      }
      AddExactly(View(), k, c, overwrite);
      var inserted := k !in cacheCoins;
      if inserted {
        Emplace(k);
      } else {
        TotalUsageRemove(usage, Entries(), k);
        cachedCoinsUsage := cachedCoinsUsage - UsageAt(k);
      }
      var asFresh := false;
      if !overwrite {
        if !cacheCoins[k].entry.coin.IsSpent() {
          return true;
        }
        asFresh := !cacheCoins[k].entry.isDirty;
      }
      PutCoin(k, c, asFresh);
      ghost var before := EntryOrNew(old(Entries()), k);
      ghost var e := Entry(c, true, before.isFresh || (!overwrite && !before.isDirty));
      assert Entries() == old(Entries())[k := e];
      TotalUsagePut(usage, old(Entries()), k, e);
      threw := false;
    }

    /** The part of SpendCoin that clears the entry it found. */
    method SpendEntry(k: OutPoint)
      requires usage([]) == 0 && Sound() && k in cacheCoins
      modifies this
      ensures Sound() && hashBlock == old(hashBlock)
      ensures Entries() == if old(cacheCoins[k].entry.isFresh) then old(Entries()) - {k}
                           else old(Entries())[k := Entry(CLEARED, true, false)]
    {
      hide WellLinked;
      TotalUsageRemove(usage, Entries(), k);
      cachedCoinsUsage := cachedCoinsUsage - UsageAt(k);
      if cacheCoins[k].entry.isFresh {
        Erase(k);
      } else {
        AddFlags(k, true, false);
        SetCoin(k, CLEARED);
        TotalUsagePut(usage, old(Entries()), k, Entry(CLEARED, true, false));
        assert Entries() == old(Entries())[k := Entry(CLEARED, true, false)];
      }
    }

    /** SpendCoin. It reports success, and moves out whatever coin it found, even when the entry
        it found was already spent. */
    method SpendCoin(k: OutPoint) returns (ok: bool, moved: Coin)
      requires Valid()
      modifies Repr
      ensures Valid() && View() == CoinsView.SpendCoin(old(View()), k)
      ensures ok <==> k in Fetch(old(View()), k).entries
      ensures Unspent(moved) == Visible(old(View()), k)
      ensures ok ==> moved == Fetch(old(View()), k).entries[k].coin
    {
      hide WellLinked;
      SpendKeeps(View(), k);
      FetchKeeps(View(), k);
      ok := FetchCoin(k);
      moved := CLEARED;
      assert Unspent(CLEARED) == None;
      if ok {
        moved := cacheCoins[k].entry.coin;
        SpendEntry(k);
      }
    }

    method Uncache(k: OutPoint)
      requires Valid()
      modifies this
      ensures Valid() && View() == CoinsView.Uncache(old(View()), k)
    {
      hide WellLinked;
      UncacheKeeps(View(), k);
      if k in cacheCoins && !cacheCoins[k].entry.isDirty && !cacheCoins[k].entry.isFresh {
        TotalUsageRemove(usage, Entries(), k);
        cachedCoinsUsage := cachedCoinsUsage - UsageAt(k);
        Erase(k);
      }
    }

    // ---------------------------------------------------------------- writing back

    /** CoinsViewCacheCursor::NextAndMaybeErase on this cache: steps past the first flagged
        entry. When the caller is not going to wipe the map, a spent entry is erased and any
        other is taken off the list. */
    method NextAndMaybeErase(k: OutPoint, willErase: bool) returns (next: Link)
      requires WellLinked(Chain(), order) && k in cacheCoins && cacheCoins[k].entry.Flagged()
      requires !willErase ==> Sound() && order != [] && order[0] == k
      modifies this
      ensures next == old(cacheCoins[k].next) && hashBlock == old(hashBlock)
      ensures willErase ==> unchanged(this)
      ensures !willErase ==> Sound() && order == old(order)[1..]
      ensures !willErase ==>
                Entries() == if old(cacheCoins[k].entry.coin).IsSpent() then old(Entries()) - {k}
                             else old(Entries())[k := Entry(old(cacheCoins[k].entry.coin), false, false)]
    {
      next := cacheCoins[k].next;
      if !willErase {
        if cacheCoins[k].entry.coin.IsSpent() {
          TotalUsageRemove(usage, Entries(), k);
          cachedCoinsUsage := cachedCoinsUsage - UsageAt(k);
          Erase(k);
        } else {
          SetClean(k);
          TotalUsagePut(usage, old(Entries()), k, cacheCoins[k].entry);
        }
      }
    }

    /** What moving a coin out of an entry leaves behind: the amount stays, the script is gone. */
    method MoveOut(k: OutPoint)
      requires WellLinked(Chain(), order) && k in cacheCoins
      modifies this`cacheCoins
      ensures WellLinked(Chain(), order) && k in cacheCoins
      ensures cacheCoins[k].entry == MovedFrom(old(cacheCoins[k].entry))
      ensures Entries() == old(Entries())[k := cacheCoins[k].entry]
    {
      SetCoin(k, MovedFrom(cacheCoins[k].entry).coin);
    }

    /** One iteration of BatchWrite: takes over a dirty entry of the child. */
    method Absorb(k: OutPoint, c: Entry) returns (threw: bool, taken: bool)
      requires usage([]) == 0 && Sound() && c.isDirty
      modifies this
      ensures Sound() && hashBlock == old(hashBlock)
      ensures threw <==> k in old(cacheCoins) && c.isFresh && !old(cacheCoins[k].entry.coin).IsSpent()
      ensures !threw ==> Get(Entries(), k) == MergeEntry(old(Get(Entries(), k)), c)
      ensures !threw ==> forall j :: j != k ==> Get(Entries(), j) == old(Get(Entries(), j))
    {
      hide WellLinked, TotalUsage;
      threw, taken := false, false;
      if k !in cacheCoins {
        if !(c.isFresh && c.coin.IsSpent()) {
          Emplace(k);
          PutCoin(k, c.coin, c.isFresh);
          taken := true;
          TotalUsagePut(usage, old(Entries()), k, cacheCoins[k].entry);
          assert Entries() == old(Entries())[k := cacheCoins[k].entry];
        }
      } else if c.isFresh && !cacheCoins[k].entry.coin.IsSpent() {
        threw := true;
      } else {
        TotalUsageRemove(usage, Entries(), k);
        cachedCoinsUsage := cachedCoinsUsage - UsageAt(k);
        if cacheCoins[k].entry.isFresh && c.coin.IsSpent() {
          Erase(k);
        } else {
          PutCoin(k, c.coin, false);
          taken := true;
          TotalUsagePut(usage, old(Entries()), k, cacheCoins[k].entry);
        }
      }
    }

    /** How far a cursor over this cache has come: the entries at[..i] have been passed. With
        will_erase the map keeps its shape; otherwise the passed entries are already synced. */
    ghost predicate Passed(start: Entries, at: seq<OutPoint>, i: nat, willErase: bool)
      reads this
    {
      && i <= |at|
      && WellLinked(Chain(), order)
      && (willErase ==>
            && order == at
            && forall j :: i <= j < |at| ==> Get(Entries(), at[j]) == Get(start, at[j]))
      && (!willErase ==>
            Sound() && order == at[i..] && PartlySynced(start, Entries(), at[..i]))
    }

    /** One step of the cursor, with the coin moved out of the entry if the parent took it. */
    method Pass(k: OutPoint, willErase: bool, move: bool, ghost start: Entries, ghost at: seq<OutPoint>, ghost i: nat)
      returns (next: Link)
      requires Passed(start, at, i, willErase) && i < |at| && at[i] == k && k in cacheCoins && Distinct(at)
      requires k in start && cacheCoins[k].entry == start[k] && start[k].Flagged()
      requires move && !willErase ==> start[k].coin == CLEARED
      modifies this
      ensures Passed(start, at, i + 1, willErase) && next == LinkAt(at, i + 1) && hashBlock == old(hashBlock)
    {
      hide WellLinked, TotalUsage, Synced;
      ghost var before := Entries();
      if move {
        MoveOut(k);
        if !willErase {
          assert Entries() == before && Sound();
        }
      }
      NextLink(Chain(), order, if willErase then i else 0);
      next := NextAndMaybeErase(k, willErase);
      if !willErase {
        SyncStep(start, before, Entries(), at, i);
      }
    }

    /** The loop of BatchWrite, which walks the child's list while the cursor shortens it under
        our feet unless will_erase is set. */
    method WriteFlagged(child: CoinsViewCache, willErase: bool, ghost theirs: Entries, ghost at: seq<OutPoint>)
      requires child != this && usage([]) == 0 && Sound() && child.Sound()
      requires child.Entries() == theirs && child.order == at && child.sentinelNext == LinkAt(at, 0)
      requires Distinct(at) && forall k :: k in at ==> k in theirs && theirs[k].Flagged()
      requires CleanHandover(theirs, Entries())
      modifies this, child
      ensures Sound() && hashBlock == old(hashBlock) && child.hashBlock == old(child.hashBlock)
      ensures PartlyMerged(old(Entries()), theirs, Entries(), at)
      ensures child.Passed(theirs, at, |at|, willErase)
    {
      hide WellLinked, TotalUsage, Synced, PartlyMerged, PartlySynced, MergeEntry, Distinct;
      ghost var start := Entries();
      ghost var i := 0;
      var it := child.sentinelNext;
      CursorFresh(start, theirs, at);
      while !it.ToSentinel?
        invariant i <= |at| && it == LinkAt(at, i)
        invariant Sound() && hashBlock == old(hashBlock) && PartlyMerged(start, theirs, Entries(), at[..i])
        invariant child.Passed(theirs, at, i, willErase) && child.hashBlock == old(child.hashBlock)
        decreases |at| - i
      {
        var k := it.key;
        ghost var now := Entries();
        CursorAt(theirs, child.Entries(), at, i, willErase);
        UntilNow(start, theirs, now, at, i);
        assert k in child.cacheCoins && child.cacheCoins[k].entry == theirs[k];
        var e := child.cacheCoins[k].entry;
        var taken := false;
        if e.isDirty {
          var threw;
          threw, taken := Absorb(k, e);
          assert !threw;
        }
        MergeStep(start, theirs, now, Entries(), at, i);
        it := child.Pass(k, willErase, taken && (willErase || e.coin.IsSpent()), theirs, at, i);
        i := i + 1;
      }
      assert at[..i] == at;
    }

    /** BatchWrite: writes every flagged entry of the child cache into this one. */
    method BatchWrite(child: CoinsViewCache, willErase: bool, hashIn: BlockHash)
      requires child != this && child.base == OnCache(this) && child.Valid()
      modifies this, child
      ensures Sound() && hashBlock == hashIn
      ensures Entries() == Merged(old(Entries()), old(child.Entries()))
      ensures WellLinked(child.Chain(), child.order) && child.hashBlock == old(child.hashBlock)
      ensures !willErase ==> child.Sound() && child.order == [] && child.Entries() == Synced(old(child.Entries()))
    {
      hide WellLinked, TotalUsage, Synced, Merged, Inv, Visible;
      ghost var theirs, at := child.Entries(), child.order;
      Handover(child);
      WriteFlagged(child, willErase, theirs, at);
      MergeDone(old(Entries()), theirs, Entries(), at);
      if !willErase {
        assert at[..|at|] == at;
        SyncDone(theirs, child.Entries(), at);
      }
      hashBlock := hashIn;
    }

    /** base->BatchWrite(cursor over this cache). */
    method WriteToBase(willErase: bool)
      requires Valid() && (base.OnDatabase? ==> hashBlock != NULL_HASH)
      modifies Repr
      ensures Stacked() && SoundBelow() && hashBlock == old(hashBlock)
      ensures BaseView() == WriteBack(old(BaseView()), old(Entries()), old(hashBlock))
      ensures WellLinked(Chain(), order)
      ensures !willErase ==> Sound() && order == [] && Entries() == Synced(old(Entries()))
    {
      hide WellLinked, TotalUsage, Synced, Merged, Written, Inv, Visible;
      match base
      case OnDatabase(db) =>
        db.BatchWrite(this, willErase, hashBlock);
      case OnCache(c) =>
        assert c.Stacked();
        c.BatchWrite(this, willErase, hashBlock);
    }

    /** cacheCoins.clear(): every destructor takes its entry off the list. */
    method Clear()
      requires WellLinked(Chain(), order)
      modifies this`cacheCoins, this`sentinelNext, this`sentinelPrev, this`order
      ensures cacheCoins == map[] && order == [] && WellLinked(Chain(), order)
      ensures sentinelNext == ToSentinel && sentinelPrev == ToSentinel
    {
      while cacheCoins != map[]
        invariant WellLinked(Chain(), order)
        decreases |Entries()|
      {
        var k :| k in cacheCoins;
        ghost var before := Entries();
        Erase(k);
        assert k in before && |Entries().Keys| == |before.Keys - {k}|;
      }
      ListLength(Chain(), order);
    }

    /** Flush: pushes every change to the base and wipes this cache. */
    method Flush()
      requires Valid() && (base.OnDatabase? ==> hashBlock != NULL_HASH)
      modifies Repr
      ensures Valid() && View() == CoinsView.Flush(old(View()))
      ensures old(hashBlock) != NULL_HASH ==> BestBlock(View().base) == old(hashBlock)
      ensures order == [] && sentinelNext == ToSentinel
    {
      hide WellLinked, Inv, Visible, WriteBack, BestBlock;
      FlushKeeps(View());
      if hashBlock != NULL_HASH { WriteBackBestBlock(View()); }
      WriteToBase(true);
      Clear();
      cachedCoinsUsage := 0;
    }

    /** Sync: pushes every change to the base and keeps the unspent coins, now unflagged. The list
        is found empty, so the logic error that would report a leftover flag is unreachable. */
    method Sync()
      requires Valid() && (base.OnDatabase? ==> hashBlock != NULL_HASH)
      modifies Repr
      ensures Valid() && View() == CoinsView.Sync(old(View()))
      ensures old(hashBlock) != NULL_HASH ==> BestBlock(View().base) == old(hashBlock)
      ensures order == [] && sentinelNext == ToSentinel
    {
      hide TotalUsage, Inv, Visible, WriteBack, Synced, BestBlock;
      SyncKeeps(View());
      if hashBlock != NULL_HASH { WriteBackBestBlock(View()); }
      WriteToBase(false);
    }

    method GetBestBlock() returns (h: BlockHash)
      requires Valid()
      modifies Repr
      ensures Valid() && View() == FetchBest(old(View()))
      ensures h == BestBlock(old(View()))
      decreases level
    {
      hide WellLinked, TotalUsage, Visible;
      FetchBestKeeps(View());
      if hashBlock == NULL_HASH {
        match base
        case OnDatabase(db) =>
          hashBlock := db.best;
        case OnCache(c) =>
          assert c.Stacked() && Inv(BaseView()) && BaseView() == c.View();
          var below := c.GetBestBlock();
          hashBlock := below;
          assert BaseView() == FetchBest(old(BaseView()));
      }
      assert View() == FetchBest(old(View()));
      h := hashBlock;
    }

    method SetBestBlock(h: BlockHash)
      requires Valid()
      modifies this`hashBlock
      ensures Valid() && View() == old(View()).(hash := h)
    {
      hide WellLinked, TotalUsage;
      hashBlock := h;
    }

    // ------------------------------------------------------------------------- runs

    /** An operation on the cache at the top. */
    method PerformHere(op: Op) returns (reply: Told)
      requires Valid() && Permitted(Flat(View()), op) && !WritesNull(View(), 0, op)
      modifies Repr
      ensures Valid() && View() == StepAt(old(View()), 0, op)
      ensures op.Spend? || op.Read? ==> reply == Coins(Visible(old(View()), op.k))
      ensures op.ReadBest? ==> reply == Hash(BestBlock(old(View())))
      ensures !op.Spend? && !op.Read? && !op.ReadBest? ==> reply == Nothing
    {
      hide Sound, SoundBelow, Inv, CoinsView.AddCoin, CoinsView.SpendCoin, Fetch, Flat, Visible;
      reply := Nothing;
      match op
      case Read(_, k) =>
        var got := GetCoin(k);
        reply := Coins(got);
      case ReadBest(_) =>
        var h := GetBestBlock();
        reply := Hash(h);
      case Drop(_, k) => Uncache(k);
      case SyncAt(_) => Sync();
      case FlushAt(_) => Flush();
      case Add(k, c, overwrite) =>
        AddPermitted(View(), k, c, overwrite);
        var threw := AddCoin(k, c, overwrite);
      case Spend(k) =>
        var ok, moved := SpendCoin(k);
        reply := Coins(if moved.IsSpent() then None else Some(moved));
      case SetBest(h) => SetBestBlock(h);
    }

    /** An operation on the cache object `depth` levels below this one. The caches above it stay valid. */
    method PerformAt(depth: nat, op: Op) returns (reply: Told)
      requires Valid() && (op.Read? || op.ReadBest? || op.Drop? || op.SyncAt? || op.FlushAt?) && !WritesNull(View(), depth, op)
      modifies Repr
      ensures Valid() && View() == StepAt(old(View()), depth, op)
      ensures op.ReadBest? ==> reply == if Level(old(View()), depth).Cache? then Hash(BestBlock(Level(old(View()), depth))) else Nothing
      decreases depth
    {
      hide WellLinked, TotalUsage, Visible;
      reply := Nothing;
      if depth == 0 {
        reply := PerformHere(op);
      } else {
        QuietStepKeeps(View(), depth, op);
        match base
        case OnDatabase(db) =>
        case OnCache(c) =>
          assert c.Stacked() && Inv(BaseView()) && BaseView() == c.View();
          reply := c.PerformAt(depth - 1, op);
          assert Entries() == old(Entries()) && BaseView() == StepAt(old(BaseView()), depth - 1, op);
          assert View() == StepAt(old(View()), depth, op);
      }
    }

    method Perform(op: Op) returns (reply: Told)
      requires Valid() && Permitted(Flat(View()), op) && !WritesNull(View(), OpDepth(op), op)
      modifies Repr
      ensures Valid() && View() == Step(old(View()), op) && reply == Reply(old(View()), op)
    {
      hide Sound, SoundBelow, Inv, StepAt, Flat, Visible, Reply, LedgerReply;
      StepRefines(View(), op);
      RepliesVisible(View(), op);
      if OpDepth(op) == 0 {
        reply := PerformHere(op);
      } else {
        reply := PerformAt(OpDepth(op), op);
        if !op.ReadBest? { reply := Nothing; }
      }
    }

    /** Any run of operations on the top and on the cache objects below it: the whole stack of objects
        does what the views do, and every reply is the one of the flat map or the column of hashes. */
    method Run(ops: seq<Op>) returns (replies: seq<Told>)
      requires Valid() && ProperRun(View(), ops)
      modifies Repr
      ensures Valid() && View() == CoinsView.Run(old(View()), ops)
      ensures LedgerOf(View()) == LedgerRun(LedgerOf(old(View())), ops)
      ensures replies == LedgerReplies(LedgerOf(old(View())), ops)
    {
      hide Sound, SoundBelow, Inv, Step, LedgerOf, Reply, LedgerStep, LedgerReply, Permitted, WritesNull;
      ProperIsPermitted(View(), ops);
      StackRefinesFlatMap(View(), ops);
      replies := [];
      for i := 0 to |ops|
        invariant Valid() && ProperRun(View(), ops[i..])
        invariant CoinsView.Run(View(), ops[i..]) == CoinsView.Run(old(View()), ops)
        invariant replies + Replies(View(), ops[i..]) == Replies(old(View()), ops)
      {
        assert ops[i..][0] == ops[i] && ops[i..][1..] == ops[i + 1..];
        var reply := Perform(ops[i]);
        replies := replies + [reply];
      }
      assert ops[|ops|..] == [];
    }

    /** The link a node, or the sentinel, holds backwards and forwards. */
    function PrevOf(at: Link): Link
      reads this
    {
      if at.ToEntry? && at.key in cacheCoins then cacheCoins[at.key].prev
      else if at.ToSentinel? then sentinelPrev else Null
    }

    function NextOf(at: Link): Link
      reads this
    {
      if at.ToEntry? && at.key in cacheCoins then cacheCoins[at.key].next
      else if at.ToSentinel? then sentinelNext else Null
    }

    /** SanityCheck, with `ok` standing for all its assertions: they hold in every valid state. */
    method SanityCheck() returns (ok: bool)
      requires Valid()
      ensures ok
    {
      var counted, flagged := CheckEntries();
      var linked := CheckList();
      ListLength(Chain(), order);
      ok := linked == flagged && counted == cachedCoinsUsage;
    }

    /** The loop over the map: every state is one of the five, and the sums are taken. */
    method CheckEntries() returns (counted: nat, flagged: nat)
      requires Valid()
      ensures counted == cachedCoinsUsage
      ensures flagged == |set k | k in cacheCoins && cacheCoins[k].entry.Flagged()|
    {
      hide WellLinked, TotalUsage, Inv, Visible;
      counted, flagged := 0, 0;
      var todo := cacheCoins.Keys;
      assert Remaining(todo) == Entries();
      assert FlaggedIn({}) == {};
      while todo != {}
        invariant todo <= cacheCoins.Keys
        invariant counted + TotalUsage(usage, Remaining(todo)) == TotalUsage(usage, Entries())
        invariant flagged == |FlaggedIn(cacheCoins.Keys - todo)|
        decreases todo
      {
        var k :| k in todo;
        var e := cacheCoins[k].entry;
        EntryIsValid(View(), k);
        var attr := (if e.isDirty then 1 else 0) + (if e.isFresh then 2 else 0) + (if e.coin.IsSpent() then 4 else 0);
        assert attr != 2 && attr != 4 && attr != 7;
        TotalUsageRemove(usage, Remaining(todo), k);
        assert Remaining(todo) - {k} == Remaining(todo - {k});
        counted := counted + UsageAt(k);
        ghost var seen := FlaggedIn(cacheCoins.Keys - todo);
        assert FlaggedIn(cacheCoins.Keys - (todo - {k})) == if e.Flagged() then seen + {k} else seen;
        if e.isDirty || e.isFresh {
          flagged := flagged + 1;
        }
        todo := todo - {k};
      }
      TotalUsageNone(usage);
      assert Remaining(todo) == map[];
      assert FlaggedIn(cacheCoins.Keys - todo) == (set k | k in cacheCoins && cacheCoins[k].entry.Flagged());
    }

    ghost function FlaggedIn(keys: set<OutPoint>): set<OutPoint>
      reads this
    {
      set k | k in keys && k in cacheCoins && cacheCoins[k].entry.Flagged()
    }

    ghost function Remaining(todo: set<OutPoint>): Entries
      requires todo <= cacheCoins.Keys
      reads this
    {
      map k | k in todo :: cacheCoins[k].entry
    }

    /** The loop over the list: each node's neighbours point back at it and it is flagged. */
    method CheckList() returns (linked: nat)
      requires Valid()
      ensures linked == |order|
    {
      linked := 0;
      var it := sentinelNext;
      while !it.ToSentinel?
        invariant linked <= |order| && it == LinkAt(order, linked)
        decreases |order| - linked
      {
        NeighboursReached(Chain(), order, linked);
        assert PrevOf(NextOf(it)) == it && NextOf(PrevOf(it)) == it by {
          if linked + 1 < |order| { NeighboursReached(Chain(), order, linked + 1); }
          if linked > 0 { NeighboursReached(Chain(), order, linked - 1); }
        }
        assert it.key in order && cacheCoins[it.key].entry.Flagged();
        it := NextOf(it);
        linked := linked + 1;
      }
    }
  }

  /** The coins of the database part-way through taking over its child's. */
  ghost predicate PartlyWritten(start: map<OutPoint, Coin>, child: Entries, now: map<OutPoint, Coin>, done: seq<OutPoint>) {
    forall k :: Get(now, k) == if k in done then WrittenAt(start, child, k) else Get(start, k)
  }

  lemma WriteFresh(start: map<OutPoint, Coin>, child: Entries, at: seq<OutPoint>)
    ensures PartlyWritten(start, child, start, at[..0])
    ensures PartlySynced(child, child, at[..0])
  {
  }

  lemma WriteStep(start: map<OutPoint, Coin>, child: Entries, now: map<OutPoint, Coin>, after: map<OutPoint, Coin>,
                  at: seq<OutPoint>, i: nat)
    requires Distinct(at) && i < |at| && at[i] in child
    requires PartlyWritten(start, child, now, at[..i])
    requires after == if !child[at[i]].isDirty then now
                      else if child[at[i]].coin.IsSpent() then now - {at[i]}
                      else now[at[i] := child[at[i]].coin]
    ensures PartlyWritten(start, child, after, at[..i + 1])
  {
    assert at[..i + 1] == at[..i] + [at[i]];
    forall k ensures Get(after, k) == if k in at[..i + 1] then WrittenAt(start, child, k) else Get(start, k) {
      assert Get(now, k) == if k in at[..i] then WrittenAt(start, child, k) else Get(start, k);
    }
  }

  lemma WriteDone(start: map<OutPoint, Coin>, child: Entries, now: map<OutPoint, Coin>, at: seq<OutPoint>)
    requires PartlyWritten(start, child, now, at)
    requires forall k :: k in child ==> (child[k].Flagged() <==> k in at)
    requires forall k :: k in at ==> k in child
    ensures now == Written(start, child)
  {
    WrittenIsPointwise(start, child);
    forall k ensures Get(now, k) == Get(Written(start, child), k) {
      assert Get(now, k) == if k in at then WrittenAt(start, child, k) else Get(start, k);
    }
    SameMap(now, Written(start, child));
  }

  /** What a valid cache hands to the cache below it. */
  lemma Handover(child: CoinsViewCache)
    requires child.base.OnCache? && child.Valid()
    ensures child.Sound() && child.base.cache.Sound() && child.base.cache.usage([]) == 0
    ensures Distinct(child.order) && child.sentinelNext == LinkAt(child.order, 0)
    ensures forall k :: k in child.Entries() ==> (child.Entries()[k].Flagged() <==> k in child.order)
    ensures forall k :: k in child.order ==> k in child.Entries()
    ensures CleanHandover(child.Entries(), child.base.cache.Entries())
  {
    hide TotalUsage, Inv, Visible;
    CursorStarts(child.Chain(), child.order);
    var parent := child.base.cache;
    assert parent.Stacked();
    assert child.BaseView() == parent.View();
    assert parent.View() == Cache(parent.Entries(), parent.hashBlock, parent.BaseView());
    ChildEntries(child.View());
  }

  /** What the flags of a child's entries promise about the entries right below. */
  ghost predicate CleanHandover(child: Entries, parent: Entries) {
    && (forall k :: k in child && child[k].isFresh && k in parent ==> parent[k].coin.IsSpent())
    && (forall k :: k in child && child[k].isDirty && child[k].coin.IsSpent() ==> child[k].coin == CLEARED)
  }

  lemma ChildEntries(v: View)
    requires v.Cache? && v.base.Cache? && Inv(v)
    ensures CleanHandover(v.entries, v.base.entries)
  {
    forall k | k in v.entries
      ensures v.entries[k].isFresh && k in v.base.entries ==> v.base.entries[k].coin.IsSpent()
      ensures v.entries[k].isDirty && v.entries[k].coin.IsSpent() ==> v.entries[k].coin == CLEARED
    {
      assert EntryAgrees(v.entries[k], Visible(v.base, k));
    }
  }

  lemma CursorFresh(start: Entries, child: Entries, at: seq<OutPoint>)
    ensures PartlyMerged(start, child, start, at[..0])
    ensures PartlySynced(child, child, at[..0])
  {
  }

  /** The cursor finds every entry it has not passed as it was. */
  lemma CursorAt(start: Entries, now: Entries, at: seq<OutPoint>, i: nat, willErase: bool)
    requires Distinct(at) && i < |at| && at[i] in start
    requires willErase ==> Get(now, at[i]) == Get(start, at[i])
    requires !willErase ==> PartlySynced(start, now, at[..i])
    ensures at[i] in now && now[at[i]] == start[at[i]]
  {
    assert at[i] !in at[..i];
    assert Get(now, at[i]) == Get(start, at[i]);
  }

  lemma UntilNow(start: Entries, child: Entries, now: Entries, at: seq<OutPoint>, i: nat)
    requires Distinct(at) && i < |at|
    requires PartlyMerged(start, child, now, at[..i])
    ensures Get(now, at[i]) == Get(start, at[i])
  {
    assert at[i] !in at[..i];
  }

  /** The child's list as the cursor finds it: every flagged entry, each once. */
  lemma CursorStarts(c: Chain, at: seq<OutPoint>)
    requires WellLinked(c, at)
    ensures Distinct(at) && c.first == LinkAt(at, 0)
    ensures forall k :: k in EntriesOf(c.nodes) ==> (EntriesOf(c.nodes)[k].Flagged() <==> k in at)
    ensures forall k :: k in at ==> k in EntriesOf(c.nodes)
  {
  }

  /** The entries of a cache part-way through taking over its child's. */
  ghost predicate PartlyMerged(start: Entries, child: Entries, now: Entries, done: seq<OutPoint>) {
    forall k :: Get(now, k) == if k in done then MergedAt(start, child, k) else Get(start, k)
  }

  lemma MergeStep(start: Entries, child: Entries, now: Entries, after: Entries, at: seq<OutPoint>, i: nat)
    requires Distinct(at) && i < |at| && at[i] in child
    requires PartlyMerged(start, child, now, at[..i])
    requires Get(after, at[i]) == if child[at[i]].isDirty then MergeEntry(Get(now, at[i]), child[at[i]]) else Get(now, at[i])
    requires forall j :: j != at[i] ==> Get(after, j) == Get(now, j)
    ensures PartlyMerged(start, child, after, at[..i + 1])
  {
    assert at[..i + 1] == at[..i] + [at[i]];
    forall k ensures Get(after, k) == if k in at[..i + 1] then MergedAt(start, child, k) else Get(start, k) {
      assert Get(now, k) == if k in at[..i] then MergedAt(start, child, k) else Get(start, k);
    }
  }

  lemma MergeDone(start: Entries, child: Entries, now: Entries, at: seq<OutPoint>)
    requires PartlyMerged(start, child, now, at)
    requires forall k :: k in child ==> (child[k].Flagged() <==> k in at)
    requires forall k :: k in at ==> k in child
    ensures now == Merged(start, child)
  {
    MergedIsPointwise(start, child);
    forall k ensures Get(now, k) == Get(Merged(start, child), k) {
      assert Get(now, k) == if k in at then MergedAt(start, child, k) else Get(start, k);
    }
    SameMap(now, Merged(start, child));
  }

  lemma SyncDone(start: Entries, now: Entries, at: seq<OutPoint>)
    requires PartlySynced(start, now, at)
    requires forall k :: k in start ==> (start[k].Flagged() <==> k in at)
    requires forall k :: k in at ==> k in start
    ensures now == Synced(start)
  {
    forall k ensures Get(now, k) == Get(Synced(start), k) {
      assert Get(now, k) == if k in at then Get(Synced(start), k) else Get(start, k);
    }
    SameMap(now, Synced(start));
  }

  lemma NextLink(c: Chain, order: seq<OutPoint>, i: nat)
    requires WellLinked(c, order) && i < |order|
    ensures order[i] in c.nodes && c.nodes[order[i]].next == LinkAt(order, i + 1)
  {
    assert ThreadedAt(c.nodes, order, i);
  }

  /** The entries of a cache part-way through a sync. */
  ghost predicate PartlySynced(start: Entries, now: Entries, done: seq<OutPoint>) {
    forall k :: Get(now, k) == if k in done then Get(Synced(start), k) else Get(start, k)
  }

  lemma SyncStep(start: Entries, now: Entries, after: Entries, at: seq<OutPoint>, i: nat)
    requires Distinct(at) && i < |at| && at[i] in start && start[at[i]].Flagged()
    requires PartlySynced(start, now, at[..i])
    requires after == if start[at[i]].coin.IsSpent() then now - {at[i]}
                      else now[at[i] := Entry(start[at[i]].coin, false, false)]
    ensures PartlySynced(start, after, at[..i + 1])
  {
    assert at[..i + 1] == at[..i] + [at[i]];
    forall k ensures Get(after, k) == if k in at[..i + 1] then Get(Synced(start), k) else Get(start, k) {
      assert Get(now, k) == if k in at[..i] then Get(Synced(start), k) else Get(start, k);
    }
  }

  function MovedFrom(e: Entry): Entry {
    e.(coin := e.coin.(out := e.coin.out.(scriptPubKey := [])))
  }

  lemma AddExactly(v: View, k: OutPoint, c: Coin, overwrite: bool)
    requires v.Cache? && Inv(v) && !c.IsSpent() && !c.IsUnspendable()
    ensures !AddThrows(v, k, c, overwrite) ==>
              (Inv(CoinsView.AddCoin(v, k, c, overwrite)) <==> overwrite || k in v.entries || Visible(v.base, k).None?)
  {
    if !AddThrows(v, k, c, overwrite) {
      AddCoinContractIsExact(v, k, c, overwrite);
    }
  }

  lemma AddPermitted(v: View, k: OutPoint, c: Coin, overwrite: bool)
    requires v.Cache? && Inv(v) && Permitted(Flat(v), Add(k, c, overwrite))
    ensures !c.IsSpent() && !AddThrows(v, k, c, overwrite)
    ensures overwrite || c.IsUnspendable() || k in v.entries || Visible(v.base, k).None?
  {
    FlatIsVisible(v);
    assert Get(Flat(v), k) == Visible(v, k);
  }

  lemma RepliesVisible(v: View, op: Op)
    requires v.Cache? && Inv(v) && Permitted(Flat(v), op)
    ensures op.Spend? || (op.Read? && op.depth == 0) ==> Reply(v, op) == Coins(Visible(v, op.k))
    ensures op.ReadBest? ==> Reply(v, op) == if Level(v, op.depth).Cache? then Hash(BestBlock(Level(v, op.depth))) else Nothing
    ensures !op.Spend? && !op.ReadBest? && !(op.Read? && op.depth == 0) ==> Reply(v, op) == Nothing
  {
    StepRefines(v, op);
    FlatIsVisible(v);
    if op.Spend? || op.Read? { assert Get(Flat(v), op.k) == Visible(v, op.k); }
  }

  function WithFlags(e: Entry, setDirty: bool, setFresh: bool): Entry {
    e.(isDirty := e.isDirty || setDirty, isFresh := e.isFresh || setFresh)
  }
}
