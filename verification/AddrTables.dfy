/** The indexes of the address manager (src/addrman.cpp, src/addrman_impl.h), on values.

    Every entry is known by an id. Five structures describe the same set of entries:
    the info map, the address index, the random-order vector and the new and tried
    bucket tables; reference counts, totals and per-network counters are kept beside
    them. The functions here are the table updates of AddrManImpl, in the order the
    source performs them; AddrMan.dfy performs them in place. Hashing, network
    lookups and the clock are parameters. */
module AddrTables {
  import opened Wrappers
  import opened Sequences

  datatype Id = Id(n: int)
  /** A position in a bucket table: bucket and position in the bucket. */
  datatype Slot = Slot(bucket: nat, pos: nat)

  datatype NetAddr = NetAddr(bytes: seq<int>)
  datatype Service = Service(addr: NetAddr, port: nat)
  datatype Network = Ipv4 | Ipv6 | Onion | I2p | Cjdns | Internal | Unroutable

  const NEW_BUCKETS_PER_ADDRESS := 8

  /** What the manager is told by hashing, by the netgroup manager and by address inspection. */
  datatype Env = Env(
    newBuckets: nat,
    triedBuckets: nat,
    bucketSize: nat,
    newBucket: (Service, NetAddr) -> nat,
    triedBucket: Service -> nat,
    position: (Service, bool, nat) -> nat,
    network: Service -> Network,
    netClass: Service -> Network,
    valid: Service -> bool,
    routable: Service -> bool)

  ghost predicate EnvOk(env: Env) {
    && (forall s, a :: env.newBucket(s, a) < env.newBuckets)
    && (forall s :: env.triedBucket(s) < env.triedBuckets)
    && (forall s, n, b :: env.position(s, n, b) < env.bucketSize)
    && (forall s :: env.routable(s) ==> env.valid(s))
  }

  datatype AddrInfo = AddrInfo(
    service: Service,
    time: int,
    services: set<nat>,
    source: NetAddr,
    lastTry: int,
    lastCountAttempt: int,
    lastSuccess: int,
    attempts: int,
    refCount: int,
    inTried: bool,
    randomPos: int)

  datatype Count = Count(nNew: int, nTried: int)

  type Infos = map<Id, AddrInfo>
  type Table = map<Slot, Id>
  type Counts = map<Network, Count>

  datatype Tables = Tables(
    idCount: int,
    info: Infos,
    addr: map<Service, Id>,
    random: seq<Id>,
    nTried: int,
    nNew: int,
    news: Table,
    tried: Table,
    counts: Counts)

  const EMPTY := Tables(0, map[], map[], [], 0, 0, map[], map[], map[])

  // ------------------------------------------------------------------- placement

  function NewSlot(env: Env, s: Service, source: NetAddr): Slot {
    InBucket(env, s, env.newBucket(s, source))
  }

  /** Where an address sits in a given new bucket. */
  function InBucket(env: Env, s: Service, bucket: nat): Slot {
    Slot(bucket, env.position(s, true, bucket))
  }

  function TriedSlot(env: Env, s: Service): Slot {
    Slot(env.triedBucket(s), env.position(s, false, env.triedBucket(s)))
  }

  // -------------------------------------------------------------------- counters

  function CountAt(counts: Counts, net: Network): Count {
    if net in counts then counts[net] else Count(0, 0)
  }

  function Bump(counts: Counts, net: Network, dNew: int, dTried: int): Counts {
    counts[net := Count(CountAt(counts, net).nNew + dNew, CountAt(counts, net).nTried + dTried)]
  }

  // ---------------------------------------------------------------- table updates

  function NextId(t: Tables): Id {
    Id(t.idCount)
  }

  /** Create: a new id for an address that has none. */
  function Create(env: Env, t: Tables, a: AddrInfo): Tables {
    t.(idCount := t.idCount + 1,
       info := t.info[NextId(t) := a.(randomPos := |t.random|)],
       addr := t.addr[a.service := NextId(t)],
       random := t.random + [NextId(t)],
       nNew := t.nNew + 1,
       counts := Bump(t.counts, env.network(a.service), 1, 0))
  }

  /** SwapRandom: exchanges two elements of the random-order vector. */
  function SwapRandom(t: Tables, i: nat, j: nat): Tables
    requires i < |t.random| && j < |t.random| && t.random[i] in t.info && t.random[j] in t.info
  {
    if i == j then t
    else
      var a, b := t.random[i], t.random[j];
      var moved := t.info[a := t.info[a].(randomPos := j)];
      t.(info := moved[b := moved[b].(randomPos := i)],
         random := t.random[i := b][j := a])
  }

  predicate CanDelete(t: Tables, id: Id) {
    && id in t.info && 0 <= t.info[id].randomPos < |t.random|
    && t.random[t.info[id].randomPos] in t.info && t.random[|t.random| - 1] in t.info
  }

  function Delete(env: Env, t: Tables, id: Id): Tables
    requires CanDelete(t, id)
  {
    DropLast(env, SwapRandom(t, t.info[id].randomPos, |t.random| - 1), id)
  }

  /** The rest of Delete, once the entry is last in the random order. */
  function DropLast(env: Env, t: Tables, id: Id): Tables
    requires id in t.info && t.random != []
  {
    t.(counts := Bump(t.counts, env.network(t.info[id].service), -1, 0),
       random := t.random[..|t.random| - 1],
       addr := t.addr - {t.info[id].service},
       info := t.info - {id},
       nNew := t.nNew - 1)
  }

  /** Takes one occupied position of the new table away from the entry that holds it. */
  function Unlink(t: Tables, slot: Slot): Tables
    requires slot in t.news && t.news[slot] in t.info
  {
    var id := t.news[slot];
    t.(news := t.news - {slot},
       info := t.info[id := t.info[id].(refCount := t.info[id].refCount - 1)])
  }

  /** Gives an empty position of the new table to an entry. */
  function Link(t: Tables, slot: Slot, id: Id): Tables
    requires id in t.info
  {
    t.(news := t.news[slot := id],
       info := t.info[id := t.info[id].(refCount := t.info[id].refCount + 1)])
  }

  predicate CanClear(t: Tables, slot: Slot) {
    slot in t.news ==> t.news[slot] in t.info && CanDelete(Unlink(t, slot), t.news[slot])
  }

  /** ClearNew: frees a position; an entry that loses its last position is deleted. */
  function ClearNew(env: Env, t: Tables, slot: Slot): Tables
    requires CanClear(t, slot)
  {
    if slot !in t.news then t
    else
      var u := Unlink(t, slot);
      if u.info[t.news[slot]].refCount == 0 then Delete(env, u, t.news[slot]) else u
  }

  /** What MakeTried's first loop achieves: the entry gives up all its positions in the new table. */
  function Unreffed(t: Tables, id: Id): Tables
    requires id in t.info
  {
    t.(news := map s | s in t.news && t.news[s] != id :: t.news[s],
       info := t.info[id := t.info[id].(refCount := 0)])
  }

  /** The eviction in MakeTried, first half: the occupant of a tried position leaves the tried table. */
  function Demote(env: Env, t: Tables, slot: Slot): Tables
    requires slot in t.tried && t.tried[slot] in t.info
  {
    var id := t.tried[slot];
    t.(info := t.info[id := t.info[id].(inTried := false)],
       tried := t.tried - {slot},
       nTried := t.nTried - 1,
       counts := Bump(t.counts, env.network(t.info[id].service), 0, -1))
  }

  /** Second half: it re-enters the new table at the position of its primary source. */
  function Reenter(env: Env, t: Tables, id: Id, slot: Slot): Tables
    requires id in t.info
  {
    t.(info := t.info[id := t.info[id].(refCount := 1)],
       news := t.news[slot := id],
       nNew := t.nNew + 1,
       counts := Bump(t.counts, env.network(t.info[id].service), 1, 0))
  }

  predicate CanEvict(env: Env, t: Tables, slot: Slot) {
    && slot in t.tried && t.tried[slot] in t.info
    && var id := t.tried[slot];
       var home := NewSlot(env, t.info[id].service, t.info[id].source);
       CanClear(Demote(env, t, slot), home) && id in ClearNew(env, Demote(env, t, slot), home).info
  }

  function Evict(env: Env, t: Tables, slot: Slot): Tables
    requires CanEvict(env, t, slot)
  {
    var id := t.tried[slot];
    var home := NewSlot(env, t.info[id].service, t.info[id].source);
    Reenter(env, ClearNew(env, Demote(env, t, slot), home), id, home)
  }

  /** The end of MakeTried: the entry takes its position in the tried table. */
  function Promote(env: Env, t: Tables, id: Id, slot: Slot): Tables
    requires id in t.info
  {
    t.(tried := t.tried[slot := id],
       nTried := t.nTried + 1,
       info := t.info[id := t.info[id].(inTried := true)],
       counts := Bump(t.counts, env.network(t.info[id].service), 0, 1))
  }

  /** MakeTried up to the point where the entry counts as neither new nor tried. */
  function Withdrawn(env: Env, t: Tables, id: Id): Tables
    requires id in t.info
  {
    var u := Unreffed(t, id);
    u.(nNew := u.nNew - 1, counts := Bump(u.counts, env.network(t.info[id].service), -1, 0))
  }

  predicate CanMakeTried(env: Env, t: Tables, id: Id) {
    && id in t.info
    && var slot := TriedSlot(env, t.info[id].service);
       var w := Withdrawn(env, t, id);
       slot in w.tried ==> CanEvict(env, w, slot) && id in Evict(env, w, slot).info
  }

  function MakeTried(env: Env, t: Tables, id: Id): Tables
    requires CanMakeTried(env, t, id)
  {
    var slot := TriedSlot(env, t.info[id].service);
    var w := Withdrawn(env, t, id);
    Promote(env, if slot in w.tried then Evict(env, w, slot) else w, id, slot)
  }

  function SetInfo(t: Tables, id: Id, a: AddrInfo): Tables {
    t.(info := t.info[id := a])
  }

  // ------------------------------------------------------------------- invariant

  ghost predicate IdOk(t: Tables, id: Id)
    requires id in t.info
  {
    var a := t.info[id];
    && 0 <= id.n < t.idCount
    && a.service in t.addr && t.addr[a.service] == id
    && 0 <= a.randomPos < |t.random| && t.random[a.randomPos] == id
  }

  ghost predicate AddrOk(t: Tables, s: Service)
    requires s in t.addr
  {
    t.addr[s] in t.info && t.info[t.addr[s]].service == s
  }

  ghost predicate PosOk(t: Tables, i: nat)
    requires i < |t.random|
  {
    t.random[i] in t.info && t.info[t.random[i]].randomPos == i
  }

  /** The info map, the address index and the random-order vector are inverse to one another. */
  ghost predicate Indexed(t: Tables) {
    && t.idCount >= 0
    && (forall id :: id in t.info ==> IdOk(t, id))
    && (forall s :: s in t.addr ==> AddrOk(t, s))
    && (forall i :: 0 <= i < |t.random| ==> PosOk(t, i))
  }

  ghost function SlotsOf(table: Table, id: Id): set<Slot> {
    set s | s in table && table[s] == id
  }

  ghost predicate NewSlotOk(env: Env, t: Tables, s: Slot)
    requires s in t.news
  {
    && t.news[s] in t.info && !t.info[t.news[s]].inTried
    && s == InBucket(env, t.info[t.news[s]].service, s.bucket) && s.bucket < env.newBuckets
  }

  ghost predicate TriedSlotOk(env: Env, t: Tables, s: Slot)
    requires s in t.tried
  {
    t.tried[s] in t.info && t.info[t.tried[s]].inTried && s == TriedSlot(env, t.info[t.tried[s]].service)
  }

  ghost predicate RefsOk(env: Env, t: Tables, id: Id)
    requires id in t.info
  {
    var a := t.info[id];
    && a.refCount == |SlotsOf(t.news, id)|
    && (a.inTried ==> TriedSlot(env, a.service) in t.tried && t.tried[TriedSlot(env, a.service)] == id)
  }

  /** Every entry sits exactly where it belongs, and reference counts count its positions. */
  ghost predicate Placed(env: Env, t: Tables) {
    && (forall s :: s in t.news ==> NewSlotOk(env, t, s))
    && (forall s :: s in t.tried ==> TriedSlotOk(env, t, s))
    && (forall id :: id in t.info ==> RefsOk(env, t, id))
  }

  ghost predicate Known(info: Infos, ids: set<Id>) {
    forall id :: id in ids ==> id in info
  }

  ghost function OfNet(env: Env, info: Infos, ids: set<Id>, net: Network): set<Id>
    requires Known(info, ids)
  {
    set id | id in ids && env.network(info[id].service) == net
  }

  /** The counters are right if the entries in `news` count as new and those in `trieds` as tried. */
  ghost predicate Counted(env: Env, t: Tables, news: set<Id>, trieds: set<Id>) {
    && Known(t.info, news) && Known(t.info, trieds)
    && t.nNew == |news| && t.nTried == |trieds|
    && forall net :: CountAt(t.counts, net) == Count(|OfNet(env, t.info, news, net)|, |OfNet(env, t.info, trieds, net)|)
  }

  ghost function NewIds(info: Infos): set<Id> {
    set id | id in info && !info[id].inTried
  }

  ghost function TriedIds(info: Infos): set<Id> {
    set id | id in info && info[id].inTried
  }

  ghost predicate EntryOk(env: Env, a: AddrInfo) {
    && a.refCount <= NEW_BUCKETS_PER_ADDRESS
    && a.lastTry >= 0 && a.lastSuccess >= 0
    && (a.inTried ==> a.lastSuccess > 0)
    && env.routable(a.service)
  }

  ghost predicate Healthy(env: Env, t: Tables) {
    forall id :: id in t.info ==> EntryOk(env, t.info[id])
  }

  /** Everything but the counters. */
  ghost predicate Shaped(env: Env, t: Tables) {
    Indexed(t) && Placed(env, t) && Healthy(env, t)
  }

  /** The full invariant, except that the entries in `loose` may be in no table at all. */
  ghost predicate ConsistentBut(env: Env, t: Tables, loose: set<Id>) {
    && Shaped(env, t) && Counted(env, t, NewIds(t.info), TriedIds(t.info))
    && forall id :: id in t.info && id !in loose && !t.info[id].inTried ==> t.info[id].refCount >= 1
  }

  ghost predicate Consistent(env: Env, t: Tables) {
    ConsistentBut(env, t, {})
  }

  // --------------------------------------------- what does not matter to what

  /** Two info maps whose entries sit in the same places. */
  ghost predicate SamePlaces(a: Infos, b: Infos) {
    && (forall id :: id in a <==> id in b)
    && forall id :: id in a ==> a[id].service == b[id].service && a[id].inTried == b[id].inTried && a[id].refCount == b[id].refCount
  }

  lemma PlacedCongruent(env: Env, t: Tables, u: Tables)
    requires Placed(env, t) && u.news == t.news && u.tried == t.tried && SamePlaces(t.info, u.info)
    ensures Placed(env, u) && NewIds(u.info) == NewIds(t.info) && TriedIds(u.info) == TriedIds(t.info)
  {
    forall s | s in u.news ensures NewSlotOk(env, u, s) {
      assert NewSlotOk(env, t, s);
    }
    forall s | s in u.tried ensures TriedSlotOk(env, u, s) {
      assert TriedSlotOk(env, t, s);
    }
    forall id | id in u.info ensures RefsOk(env, u, id) {
      assert id in t.info && RefsOk(env, t, id);
    }
  }

  lemma CountedCongruent(env: Env, t: Tables, u: Tables, news: set<Id>, trieds: set<Id>)
    requires Counted(env, t, news, trieds)
    requires u.nNew == t.nNew && u.nTried == t.nTried && u.counts == t.counts
    requires forall id :: id in news || id in trieds ==> id in u.info && u.info[id].service == t.info[id].service
    ensures Counted(env, u, news, trieds)
  {
    forall net ensures CountAt(u.counts, net) == Count(|OfNet(env, u.info, news, net)|, |OfNet(env, u.info, trieds, net)|) {
      assert OfNet(env, u.info, news, net) == OfNet(env, t.info, news, net);
      assert OfNet(env, u.info, trieds, net) == OfNet(env, t.info, trieds, net);
    }
  }

  lemma IndexedCongruent(t: Tables, u: Tables)
    requires Indexed(t) && u.idCount == t.idCount && u.addr == t.addr && u.random == t.random
    requires forall id :: id in t.info <==> id in u.info
    requires forall id :: id in t.info ==> u.info[id].service == t.info[id].service && u.info[id].randomPos == t.info[id].randomPos
    ensures Indexed(u)
  {
    forall id | id in u.info ensures IdOk(u, id) {
      assert IdOk(t, id);
    }
    forall s | s in u.addr ensures AddrOk(u, s) {
      assert AddrOk(t, s);
    }
    forall i | 0 <= i < |u.random| ensures PosOk(u, i) {
      assert PosOk(t, i);
    }
  }

  // ------------------------------------------------------------ single consequences

  lemma CountedKnown(env: Env, t: Tables, news: set<Id>, trieds: set<Id>)
    requires Counted(env, t, news, trieds)
    ensures forall id :: id in news || id in trieds ==> id in t.info
  {
  }

  lemma IndexedAt(t: Tables, id: Id)
    requires Indexed(t) && id in t.info
    ensures IdOk(t, id) && t.random[|t.random| - 1] in t.info
  {
    assert IdOk(t, id) && PosOk(t, |t.random| - 1);
  }

  lemma IndexedPos(t: Tables, i: nat)
    requires Indexed(t) && i < |t.random|
    ensures PosOk(t, i) && t.random[i] in t.info
  {
  }

  lemma IndexedAddr(t: Tables, s: Service)
    requires Indexed(t) && s in t.addr
    ensures AddrOk(t, s)
  {
  }

  lemma SlotTaken(env: Env, t: Tables, slot: Slot)
    requires Placed(env, t) && slot in t.news
    ensures NewSlotOk(env, t, slot) && t.info[t.news[slot]].refCount >= 1
  {
    assert NewSlotOk(env, t, slot) && RefsOk(env, t, t.news[slot]);
    assert slot in SlotsOf(t.news, t.news[slot]);
  }

  lemma HealthyWith(env: Env, t: Tables, id: Id, a: AddrInfo)
    requires Healthy(env, t) && EntryOk(env, a)
    ensures Healthy(env, t.(info := t.info[id := a]))
  {
  }

  lemma HealthyAt(env: Env, t: Tables, id: Id)
    requires Healthy(env, t) && id in t.info
    ensures EntryOk(env, t.info[id])
  {
  }

  // -------------------------------------------------------------------- counting

  lemma OfNetChanged(env: Env, info: Infos, ids: set<Id>, id: Id, net: Network)
    requires Known(info, ids) && id in info && id !in ids
    ensures |OfNet(env, info, ids + {id}, net)| == |OfNet(env, info, ids, net)| + if net == env.network(info[id].service) then 1 else 0
  {
    var grown := OfNet(env, info, ids + {id}, net);
    if net == env.network(info[id].service) {
      assert grown == OfNet(env, info, ids, net) + {id};
    } else {
      assert grown == OfNet(env, info, ids, net);
    }
  }

  /** One entry starts to count as new. */
  lemma CountNew(env: Env, t: Tables, news: set<Id>, trieds: set<Id>, id: Id)
    requires Counted(env, t, news, trieds) && id in t.info && id !in news
    ensures Counted(env, t.(nNew := t.nNew + 1, counts := Bump(t.counts, env.network(t.info[id].service), 1, 0)), news + {id}, trieds)
  {
    hide OfNet;
    forall net { OfNetChanged(env, t.info, news, id, net); }
  }

  /** One entry stops counting as new. */
  lemma UncountNew(env: Env, t: Tables, news: set<Id>, trieds: set<Id>, id: Id)
    requires Counted(env, t, news, trieds) && id in t.info && id in news
    ensures Counted(env, t.(nNew := t.nNew - 1, counts := Bump(t.counts, env.network(t.info[id].service), -1, 0)), news - {id}, trieds)
  {
    hide OfNet;
    assert news - {id} + {id} == news;
    forall net { OfNetChanged(env, t.info, news - {id}, id, net); }
  }

  /** One entry starts to count as tried. */
  lemma CountTried(env: Env, t: Tables, news: set<Id>, trieds: set<Id>, id: Id)
    requires Counted(env, t, news, trieds) && id in t.info && id !in trieds
    ensures Counted(env, t.(nTried := t.nTried + 1, counts := Bump(t.counts, env.network(t.info[id].service), 0, 1)), news, trieds + {id})
  {
    hide OfNet;
    forall net { OfNetChanged(env, t.info, trieds, id, net); }
  }

  /** One entry stops counting as tried. */
  lemma UncountTried(env: Env, t: Tables, news: set<Id>, trieds: set<Id>, id: Id)
    requires Counted(env, t, news, trieds) && id in t.info && id in trieds
    ensures Counted(env, t.(nTried := t.nTried - 1, counts := Bump(t.counts, env.network(t.info[id].service), 0, -1)), news, trieds - {id})
  {
    hide OfNet;
    assert trieds - {id} + {id} == trieds;
    forall net { OfNetChanged(env, t.info, trieds - {id}, id, net); }
  }

  // ----------------------------------------------------------- each table update

  /** Changing anything about an entry but its address, place and position keeps every index. */
  lemma SetInfoKeeps(env: Env, t: Tables, id: Id, a: AddrInfo, news: set<Id>, trieds: set<Id>)
    requires Shaped(env, t) && Counted(env, t, news, trieds) && id in t.info
    requires a.service == t.info[id].service && a.inTried == t.info[id].inTried
    requires a.refCount == t.info[id].refCount && a.randomPos == t.info[id].randomPos
    requires EntryOk(env, a)
    ensures Shaped(env, SetInfo(t, id, a)) && Counted(env, SetInfo(t, id, a), news, trieds)
    ensures SamePlaces(t.info, SetInfo(t, id, a).info)
  {
    hide Placed, Counted, Indexed, Healthy, EntryOk;
    var u := SetInfo(t, id, a);
    CountedKnown(env, t, news, trieds);
    HealthyWith(env, t, id, a);
    PlacedCongruent(env, t, u);
    CountedCongruent(env, t, u, news, trieds);
    IndexedCongruent(t, u);
  }

  lemma CreateIndexed(env: Env, t: Tables, a: AddrInfo)
    requires Indexed(t) && a.service !in t.addr
    ensures Indexed(Create(env, t, a))
  {
    var u := Create(env, t, a);
    assert NextId(t) !in t.info by {
      assert NextId(t) in t.info ==> IdOk(t, NextId(t));
    }
    forall id | id in u.info ensures IdOk(u, id) {
      if id != NextId(t) { assert IdOk(t, id); }
    }
    forall s | s in u.addr ensures AddrOk(u, s) {
      if s != a.service { assert AddrOk(t, s); }
    }
    forall i | 0 <= i < |u.random| ensures PosOk(u, i) {
      if i < |t.random| { assert PosOk(t, i); }
    }
  }

  lemma CreatePlaced(env: Env, t: Tables, a: AddrInfo)
    requires Placed(env, t) && NextId(t) !in t.info && a.refCount == 0 && !a.inTried
    ensures Placed(env, Create(env, t, a))
  {
    hide TriedSlot, InBucket;
    var u := Create(env, t, a);
    forall s | s in u.news ensures NewSlotOk(env, u, s) && u.news[s] != NextId(t) {
      assert NewSlotOk(env, t, s);
    }
    forall s | s in u.tried ensures TriedSlotOk(env, u, s) {
      assert TriedSlotOk(env, t, s);
    }
    forall id | id in u.info ensures RefsOk(env, u, id) {
      if id == NextId(t) {
        assert SlotsOf(u.news, id) == {};
      } else {
        assert RefsOk(env, t, id);
      }
    }
  }

  lemma CreateKeeps(env: Env, t: Tables, a: AddrInfo, news: set<Id>, trieds: set<Id>)
    requires Shaped(env, t) && Counted(env, t, news, trieds)
    requires a.service !in t.addr && a.refCount == 0 && !a.inTried && EntryOk(env, a)
    ensures NextId(t) !in t.info
    ensures Shaped(env, Create(env, t, a)) && Counted(env, Create(env, t, a), news + {NextId(t)}, trieds)
  {
    assert NextId(t) !in t.info by {
      assert NextId(t) in t.info ==> IdOk(t, NextId(t));
    }
    hide Placed, Counted, Indexed, EntryOk;
    CreateIndexed(env, t, a);
    CreatePlaced(env, t, a);
    CreateCounted(env, t, a, news, trieds);
  }

  lemma CreateCounted(env: Env, t: Tables, a: AddrInfo, news: set<Id>, trieds: set<Id>)
    requires Counted(env, t, news, trieds) && NextId(t) !in t.info
    ensures Counted(env, Create(env, t, a), news + {NextId(t)}, trieds)
  {
    hide Counted;
    CountedKnown(env, t, news, trieds);
    var grown := t.(info := t.info[NextId(t) := a.(randomPos := |t.random|)]);
    CountedCongruent(env, t, grown, news, trieds);
    CountNew(env, grown, news, trieds, NextId(t));
    CountedCongruent(env, grown.(nNew := t.nNew + 1, counts := Bump(t.counts, env.network(a.service), 1, 0)),
                     Create(env, t, a), news + {NextId(t)}, trieds);
  }

  function Swapped(i: int, j: int, k: int): int {
    if k == i then j else if k == j then i else k
  }

  lemma SwapMoves(t: Tables, i: nat, j: nat, id: Id)
    requires Indexed(t) && i < |t.random| && j < |t.random| && id in t.info
    ensures t.random[i] in t.info && t.random[j] in t.info && id in SwapRandom(t, i, j).info
    ensures SwapRandom(t, i, j).info[id] == t.info[id].(randomPos := Swapped(i, j, t.info[id].randomPos))
  {
    assert PosOk(t, i) && PosOk(t, j) && IdOk(t, id);
  }

  lemma SwapOrder(t: Tables, i: nat, j: nat)
    requires i < |t.random| && j < |t.random| && t.random[i] in t.info && t.random[j] in t.info
    ensures |SwapRandom(t, i, j).random| == |t.random|
    ensures forall k :: 0 <= k < |t.random| ==> SwapRandom(t, i, j).random[k] == t.random[Swapped(i, j, k)]
    ensures forall id :: id in SwapRandom(t, i, j).info <==> id in t.info
  {
  }

  lemma SwapIdOk(t: Tables, i: nat, j: nat, id: Id)
    requires Indexed(t) && i < |t.random| && j < |t.random| && id in t.info
    ensures t.random[i] in t.info && t.random[j] in t.info
    ensures id in SwapRandom(t, i, j).info && IdOk(SwapRandom(t, i, j), id)
  {
    assert PosOk(t, i) && PosOk(t, j) && IdOk(t, id);
    SwapMoves(t, i, j, id);
    SwapOrder(t, i, j);
  }

  lemma SwapPosOk(t: Tables, i: nat, j: nat, k: nat)
    requires Indexed(t) && i < |t.random| && j < |t.random| && k < |t.random|
    ensures t.random[i] in t.info && t.random[j] in t.info
    ensures k < |SwapRandom(t, i, j).random| && PosOk(SwapRandom(t, i, j), k)
  {
    assert PosOk(t, i) && PosOk(t, j) && PosOk(t, Swapped(i, j, k));
    SwapMoves(t, i, j, t.random[Swapped(i, j, k)]);
    SwapOrder(t, i, j);
  }

  lemma SwapIndexed(t: Tables, i: nat, j: nat)
    requires Indexed(t) && i < |t.random| && j < |t.random|
    ensures t.random[i] in t.info && t.random[j] in t.info && Indexed(SwapRandom(t, i, j))
  {
    IndexedPos(t, i);
    IndexedPos(t, j);
    SwapOrder(t, i, j);
    SwapTables(t, i, j);
    var u := SwapRandom(t, i, j);
    hide SwapRandom, IdOk, PosOk, AddrOk, Swapped;
    forall id | id in u.info ensures IdOk(u, id) {
      SwapIdOk(t, i, j, id);
    }
    forall s | s in u.addr ensures AddrOk(u, s) {
      SwapAddrOk(t, i, j, s);
    }
    forall k | 0 <= k < |u.random| ensures PosOk(u, k) {
      SwapPosOk(t, i, j, k);
    }
  }

  lemma SwapAddrOk(t: Tables, i: nat, j: nat, s: Service)
    requires Indexed(t) && i < |t.random| && j < |t.random| && s in t.addr
    ensures t.random[i] in t.info && t.random[j] in t.info
    ensures s in SwapRandom(t, i, j).addr && AddrOk(SwapRandom(t, i, j), s)
  {
    hide Indexed, SwapRandom;
    IndexedPos(t, i);
    IndexedPos(t, j);
    IndexedAddr(t, s);
    SwapTables(t, i, j);
    SwapMoves(t, i, j, t.addr[s]);
  }

  lemma SwapPlaces(t: Tables, i: nat, j: nat)
    requires Indexed(t) && i < |t.random| && j < |t.random|
    ensures t.random[i] in t.info && t.random[j] in t.info && SamePlaces(t.info, SwapRandom(t, i, j).info)
  {
    hide Indexed, SwapRandom;
    IndexedPos(t, i);
    IndexedPos(t, j);
    SwapOrder(t, i, j);
    forall id | id in t.info
      ensures id in SwapRandom(t, i, j).info &&
              SwapRandom(t, i, j).info[id] == t.info[id].(randomPos := Swapped(i, j, t.info[id].randomPos))
    {
      SwapMoves(t, i, j, id);
    }
  }

  lemma SwapHealthy(env: Env, t: Tables, i: nat, j: nat)
    requires Indexed(t) && Healthy(env, t) && i < |t.random| && j < |t.random|
    ensures t.random[i] in t.info && t.random[j] in t.info && Healthy(env, SwapRandom(t, i, j))
  {
    assert PosOk(t, i) && PosOk(t, j);
    SwapOrder(t, i, j);
    hide SwapRandom;
    forall id | id in t.info ensures EntryOk(env, SwapRandom(t, i, j).info[id]) {
      SwapMoves(t, i, j, id);
      assert EntryOk(env, t.info[id]);
    }
  }

  lemma SwapKeeps(env: Env, t: Tables, i: nat, j: nat, news: set<Id>, trieds: set<Id>)
    requires Shaped(env, t) && Counted(env, t, news, trieds) && i < |t.random| && j < |t.random|
    ensures t.random[i] in t.info && t.random[j] in t.info
    ensures Shaped(env, SwapRandom(t, i, j)) && Counted(env, SwapRandom(t, i, j), news, trieds)
    ensures SamePlaces(t.info, SwapRandom(t, i, j).info)
  {
    hide Placed, Counted, Indexed, Healthy;
    CountedKnown(env, t, news, trieds);
    SwapPlaces(t, i, j);
    SwapIndexed(t, i, j);
    SwapHealthy(env, t, i, j);
    var u := SwapRandom(t, i, j);
    assert u == t.(info := u.info, random := u.random);
    hide SwapRandom;
    PlacedCongruent(env, t, u);
    CountedCongruent(env, t, u, news, trieds);
  }

  lemma DropIndexed(env: Env, t: Tables, id: Id)
    requires Indexed(t) && id in t.info && t.random != [] && t.info[id].randomPos == |t.random| - 1
    ensures Indexed(DropLast(env, t, id))
  {
    var u := DropLast(env, t, id);
    assert IdOk(t, id);
    forall k | k in u.info ensures IdOk(u, k) {
      assert IdOk(t, k);
    }
    forall s | s in u.addr ensures AddrOk(u, s) {
      assert AddrOk(t, s);
    }
    forall i | 0 <= i < |u.random| ensures PosOk(u, i) {
      assert PosOk(t, i);
    }
  }

  lemma DropPlaced(env: Env, t: Tables, id: Id)
    requires Placed(env, t) && id in t.info && t.random != [] && !t.info[id].inTried && t.info[id].refCount == 0
    ensures Placed(env, DropLast(env, t, id))
  {
    hide TriedSlot, InBucket;
    var u := DropLast(env, t, id);
    assert RefsOk(env, t, id);
    forall s | s in u.news ensures NewSlotOk(env, u, s) {
      assert NewSlotOk(env, t, s);
      assert s in t.news && t.news[s] == id ==> s in SlotsOf(t.news, id);
    }
    forall s | s in u.tried ensures TriedSlotOk(env, u, s) {
      assert TriedSlotOk(env, t, s);
    }
    forall k | k in u.info ensures RefsOk(env, u, k) {
      assert RefsOk(env, t, k);
    }
  }

  lemma DropCounted(env: Env, t: Tables, id: Id, news: set<Id>, trieds: set<Id>)
    requires Counted(env, t, news, trieds) && id in t.info && t.random != [] && id in news && id !in trieds
    ensures Counted(env, DropLast(env, t, id), news - {id}, trieds)
  {
    hide Counted;
    CountedKnown(env, t, news, trieds);
    UncountNew(env, t, news, trieds, id);
    CountedCongruent(env, t.(nNew := t.nNew - 1, counts := Bump(t.counts, env.network(t.info[id].service), -1, 0)),
                     DropLast(env, t, id), news - {id}, trieds);
  }

  /** Delete: an entry that is in neither table leaves every index. */
  lemma DeleteKeeps(env: Env, t: Tables, id: Id, news: set<Id>, trieds: set<Id>)
    requires Shaped(env, t) && Counted(env, t, news, trieds)
    requires id in t.info && !t.info[id].inTried && t.info[id].refCount == 0 && id in news && id !in trieds
    ensures CanDelete(t, id)
    ensures Shaped(env, Delete(env, t, id)) && Counted(env, Delete(env, t, id), news - {id}, trieds)
    ensures Delete(env, t, id).news == t.news && Delete(env, t, id).tried == t.tried
    ensures SamePlaces(t.info - {id}, Delete(env, t, id).info)
  {
    hide Indexed, Placed, Counted, Healthy, SwapRandom;
    IndexedAt(t, id);
    var pos, last := t.info[id].randomPos, |t.random| - 1;
    SwapKeeps(env, t, pos, last, news, trieds);
    SwapMoves(t, pos, last, id);
    var s := SwapRandom(t, pos, last);
    SwapTables(t, pos, last);
    DropKeeps(env, s, id, news, trieds);
    assert Delete(env, t, id) == DropLast(env, s, id);
  }

  lemma DropKeeps(env: Env, t: Tables, id: Id, news: set<Id>, trieds: set<Id>)
    requires Shaped(env, t) && Counted(env, t, news, trieds)
    requires id in t.info && t.random != [] && t.info[id].randomPos == |t.random| - 1
    requires !t.info[id].inTried && t.info[id].refCount == 0 && id in news && id !in trieds
    ensures Shaped(env, DropLast(env, t, id)) && Counted(env, DropLast(env, t, id), news - {id}, trieds)
  {
    DropHealthy(env, t, id);
    hide Indexed, Placed, Counted, Healthy;
    DropIndexed(env, t, id);
    DropPlaced(env, t, id);
    DropCounted(env, t, id, news, trieds);
  }

  lemma DropHealthy(env: Env, t: Tables, id: Id)
    requires Healthy(env, t) && id in t.info && t.random != []
    ensures Healthy(env, DropLast(env, t, id))
  {
  }

  lemma SwapTables(t: Tables, i: nat, j: nat)
    requires i < |t.random| && j < |t.random| && t.random[i] in t.info && t.random[j] in t.info
    ensures SwapRandom(t, i, j) == t.(info := SwapRandom(t, i, j).info, random := SwapRandom(t, i, j).random)
    ensures |SwapRandom(t, i, j).random| == |t.random|
  {
  }

  // ------------------------------------------------------------ the new table

  lemma SlotsUnlinked(table: Table, slot: Slot, id: Id)
    requires slot in table
    ensures SlotsOf(table - {slot}, id) == SlotsOf(table, id) - {slot}
    ensures table[slot] == id ==> |SlotsOf(table - {slot}, id)| == |SlotsOf(table, id)| - 1
    ensures table[slot] != id ==> SlotsOf(table - {slot}, id) == SlotsOf(table, id)
  {
  }

  lemma SlotsLinked(table: Table, slot: Slot, id: Id, other: Id)
    requires slot !in table
    ensures SlotsOf(table[slot := id], other) == if other == id then SlotsOf(table, id) + {slot} else SlotsOf(table, other)
    ensures |SlotsOf(table[slot := id], id)| == |SlotsOf(table, id)| + 1
  {
    assert SlotsOf(table[slot := id], id) == SlotsOf(table, id) + {slot};
  }

  lemma UnlinkPlaced(env: Env, t: Tables, slot: Slot)
    requires Placed(env, t) && slot in t.news
    ensures t.news[slot] in t.info && Placed(env, Unlink(t, slot)) && Unlink(t, slot).info[t.news[slot]].refCount >= 0
  {
    hide TriedSlot, InBucket, SlotsOf;
    assert NewSlotOk(env, t, slot);
    var u := Unlink(t, slot);
    forall s | s in u.news ensures NewSlotOk(env, u, s) {
      assert NewSlotOk(env, t, s);
    }
    forall s | s in u.tried ensures TriedSlotOk(env, u, s) {
      assert TriedSlotOk(env, t, s);
    }
    forall id | id in u.info ensures RefsOk(env, u, id) {
      assert RefsOk(env, t, id);
      SlotsUnlinked(t.news, slot, id);
    }
    assert RefsOk(env, u, t.news[slot]);
  }

  lemma UnlinkKeeps(env: Env, t: Tables, slot: Slot, news: set<Id>, trieds: set<Id>)
    requires Shaped(env, t) && Counted(env, t, news, trieds) && slot in t.news
    ensures t.news[slot] in t.info && !t.info[t.news[slot]].inTried && t.info[t.news[slot]].refCount >= 1
    ensures Shaped(env, Unlink(t, slot)) && Counted(env, Unlink(t, slot), news, trieds)
  {
    hide Placed, Counted, Indexed, Healthy;
    SlotTaken(env, t, slot);
    var id := t.news[slot];
    HealthyAt(env, t, id);
    CountedKnown(env, t, news, trieds);
    UnlinkPlaced(env, t, slot);
    HealthyWith(env, t, id, Unlink(t, slot).info[id]);
    HealthyInfo(env, t.(info := Unlink(t, slot).info), Unlink(t, slot));
    IndexedCongruent(t, Unlink(t, slot));
    CountedCongruent(env, t, Unlink(t, slot), news, trieds);
  }

  lemma HealthyInfo(env: Env, t: Tables, u: Tables)
    requires Healthy(env, t) && u.info == t.info
    ensures Healthy(env, u)
  {
  }

  lemma LinkPlaced(env: Env, t: Tables, slot: Slot, id: Id)
    requires Placed(env, t) && slot !in t.news && id in t.info && !t.info[id].inTried
    requires slot == InBucket(env, t.info[id].service, slot.bucket) && slot.bucket < env.newBuckets
    ensures Placed(env, Link(t, slot, id))
  {
    hide TriedSlot, InBucket, SlotsOf;
    var u := Link(t, slot, id);
    forall s | s in u.news ensures NewSlotOk(env, u, s) {
      if s != slot { assert NewSlotOk(env, t, s); }
    }
    forall s | s in u.tried ensures TriedSlotOk(env, u, s) {
      assert TriedSlotOk(env, t, s);
    }
    forall k | k in u.info ensures RefsOk(env, u, k) {
      assert RefsOk(env, t, k);
      SlotsLinked(t.news, slot, id, k);
    }
  }

  lemma LinkKeeps(env: Env, t: Tables, slot: Slot, id: Id, news: set<Id>, trieds: set<Id>)
    requires Shaped(env, t) && Counted(env, t, news, trieds) && slot !in t.news && id in t.info
    requires !t.info[id].inTried && t.info[id].refCount < NEW_BUCKETS_PER_ADDRESS
    requires slot == InBucket(env, t.info[id].service, slot.bucket) && slot.bucket < env.newBuckets
    ensures Shaped(env, Link(t, slot, id)) && Counted(env, Link(t, slot, id), news, trieds)
  {
    hide Placed, Counted, Indexed, Healthy;
    HealthyAt(env, t, id);
    CountedKnown(env, t, news, trieds);
    LinkPlaced(env, t, slot, id);
    HealthyWith(env, t, id, Link(t, slot, id).info[id]);
    HealthyInfo(env, t.(info := Link(t, slot, id).info), Link(t, slot, id));
    IndexedCongruent(t, Link(t, slot, id));
    CountedCongruent(env, t, Link(t, slot, id), news, trieds);
  }

  // -------------------------------------------------- who is affected by an update

  /** The same entry up to its position in the random order. */
  ghost predicate SamePlace(a: AddrInfo, b: AddrInfo) {
    a == b.(randomPos := a.randomPos)
  }

  /** All entries but the named ones stay, and stay where they are. */
  ghost predicate OnlyTouches(a: Infos, b: Infos, ids: set<Id>) {
    forall k :: k !in ids ==> (k in a <==> k in b) && (k in a && k in b ==> SamePlace(a[k], b[k]))
  }

  /** No entry appears, and none changes its address. */
  ghost predicate Retains(a: Infos, b: Infos) {
    forall k :: k in b ==> k in a && b[k].service == a[k].service
  }

  lemma DeleteTouches(env: Env, t: Tables, id: Id)
    requires Indexed(t) && id in t.info
    ensures CanDelete(t, id) && OnlyTouches(t.info, Delete(env, t, id).info, {id}) && id !in Delete(env, t, id).info
    ensures Delete(env, t, id).idCount == t.idCount && Retains(t.info, Delete(env, t, id).info)
  {
    hide Indexed;
    IndexedAt(t, id);
    var pos, last := t.info[id].randomPos, |t.random| - 1;
    SwapOrder(t, pos, last);
    var s := SwapRandom(t, pos, last);
    assert Delete(env, t, id) == DropLast(env, s, id);
    hide SwapRandom;
    forall k | k in t.info ensures k in s.info && SamePlace(t.info[k], s.info[k]) {
      SwapMoves(t, pos, last, k);
    }
  }

  /** The entry that loses its last position when a slot is cleared. */
  ghost function Victim(t: Tables, slot: Slot): set<Id> {
    if slot in t.news then {t.news[slot]} else {}
  }

  ghost function Orphan(t: Tables, slot: Slot): set<Id> {
    if slot in t.news && t.news[slot] in t.info && t.info[t.news[slot]].refCount == 1 then {t.news[slot]} else {}
  }

  lemma ClearNewShaped(env: Env, t: Tables, slot: Slot, news: set<Id>, trieds: set<Id>)
    requires Shaped(env, t) && Counted(env, t, news, trieds)
    requires slot in t.news ==> t.news[slot] in news && t.news[slot] !in trieds
    ensures CanClear(t, slot)
    ensures Shaped(env, ClearNew(env, t, slot)) && Counted(env, ClearNew(env, t, slot), news - Orphan(t, slot), trieds)
    ensures ClearNew(env, t, slot).news == t.news - {slot} && ClearNew(env, t, slot).tried == t.tried
  {
    hide Shaped, Counted, Delete;
    assert news - {} == news;
    if slot in t.news {
      UnlinkKeeps(env, t, slot, news, trieds);
      var id, u := t.news[slot], Unlink(t, slot);
      ShapedIndexed(env, u);
      DeletePossible(u, id);
      if u.info[id].refCount == 0 {
        DeleteKeeps(env, u, id, news, trieds);
      }
    } else {
      assert t.news - {slot} == t.news;
    }
  }

  lemma DeletePossible(t: Tables, id: Id)
    requires Indexed(t) && id in t.info
    ensures CanDelete(t, id)
  {
    IndexedAt(t, id);
  }

  /** ClearNew frees the position; only its occupant is affected, and it goes exactly when the
      position was its last. */
  lemma ClearNewKeeps(env: Env, t: Tables, slot: Slot, news: set<Id>, trieds: set<Id>)
    requires Shaped(env, t) && Counted(env, t, news, trieds)
    requires slot in t.news ==> t.news[slot] in news && t.news[slot] !in trieds
    ensures CanClear(t, slot)
    ensures Shaped(env, ClearNew(env, t, slot)) && Counted(env, ClearNew(env, t, slot), news - Orphan(t, slot), trieds)
    ensures ClearNew(env, t, slot).news == t.news - {slot} && ClearNew(env, t, slot).tried == t.tried
    ensures OnlyTouches(t.info, ClearNew(env, t, slot).info, Victim(t, slot))
    ensures ClearNew(env, t, slot).idCount == t.idCount && Retains(t.info, ClearNew(env, t, slot).info)
    ensures Spared(t, ClearNew(env, t, slot), slot)
  {
    hide Shaped, Counted, ClearNew, CanClear, Orphan;
    ClearNewShaped(env, t, slot, news, trieds);
    if slot in t.news {
      ShapedTaken(env, t, slot);
      UnlinkKeeps(env, t, slot, news, trieds);
      ShapedIndexed(env, Unlink(t, slot));
      ClearTouches(env, t, slot);
    } else {
      ClearNothing(env, t, slot);
    }
  }

  lemma ShapedTaken(env: Env, t: Tables, slot: Slot)
    requires Shaped(env, t) && slot in t.news
    ensures t.news[slot] in t.info && !t.info[t.news[slot]].inTried && t.info[t.news[slot]].refCount >= 1
  {
    SlotTaken(env, t, slot);
  }

  lemma ClearNothing(env: Env, t: Tables, slot: Slot)
    requires slot !in t.news && CanClear(t, slot)
    ensures ClearNew(env, t, slot) == t
  {
  }

  /** Clearing an occupied position touches its occupant alone. */
  lemma ClearTouches(env: Env, t: Tables, slot: Slot)
    requires slot in t.news && t.news[slot] in t.info && CanClear(t, slot) && Indexed(Unlink(t, slot))
    requires !t.info[t.news[slot]].inTried && t.info[t.news[slot]].refCount >= 1
    ensures OnlyTouches(t.info, ClearNew(env, t, slot).info, {t.news[slot]})
    ensures ClearNew(env, t, slot).idCount == t.idCount && Retains(t.info, ClearNew(env, t, slot).info)
    ensures Spared(t, ClearNew(env, t, slot), slot)
  {
    hide Delete, Indexed, CanClear, CanDelete;
    DeleteTouches(env, Unlink(t, slot), t.news[slot]);
  }

  /** What clearing a position left of its occupant: nothing if it was the last one, otherwise one
      reference less. */
  ghost predicate Spared(t: Tables, u: Tables, slot: Slot) {
    slot in t.news ==>
      var id := t.news[slot];
      && id in t.info && !t.info[id].inTried && t.info[id].refCount >= 1
      && (t.info[id].refCount == 1 ==> id !in u.info)
      && (t.info[id].refCount != 1 ==> id in u.info && u.info[id].refCount == t.info[id].refCount - 1 && !u.info[id].inTried)
  }

  lemma ShapedIndexed(env: Env, t: Tables)
    requires Shaped(env, t)
    ensures Indexed(t)
  {
  }

  // -------------------------------------------------------------- into the tried table

  lemma UnrefPlaced(env: Env, t: Tables, id: Id)
    requires Placed(env, t) && id in t.info
    ensures Placed(env, Unreffed(t, id)) && SlotsOf(Unreffed(t, id).news, id) == {}
  {
    hide TriedSlot, InBucket;
    var u := Unreffed(t, id);
    forall s | s in u.news ensures NewSlotOk(env, u, s) {
      assert NewSlotOk(env, t, s);
    }
    forall s | s in u.tried ensures TriedSlotOk(env, u, s) {
      assert TriedSlotOk(env, t, s);
    }
    forall k | k in u.info ensures RefsOk(env, u, k) {
      assert RefsOk(env, t, k);
      if k != id {
        assert SlotsOf(u.news, k) == SlotsOf(t.news, k);
      } else {
        assert SlotsOf(u.news, k) == {};
      }
    }
  }

  lemma WithdrawKeeps(env: Env, t: Tables, id: Id, news: set<Id>, trieds: set<Id>)
    requires Shaped(env, t) && Counted(env, t, news, trieds) && id in t.info && id in news
    ensures Shaped(env, Withdrawn(env, t, id)) && Counted(env, Withdrawn(env, t, id), news - {id}, trieds)
    ensures Withdrawn(env, t, id).info == t.info[id := t.info[id].(refCount := 0)] && Withdrawn(env, t, id).tried == t.tried
    ensures forall s :: s in Withdrawn(env, t, id).news ==> s in t.news && Withdrawn(env, t, id).news[s] == t.news[s] && t.news[s] != id
  {
    hide Placed, Counted, Indexed, Healthy;
    var u, w := Unreffed(t, id), Withdrawn(env, t, id);
    HealthyAt(env, t, id);
    CountedKnown(env, t, news, trieds);
    UnrefPlaced(env, t, id);
    PlacedCongruent(env, u, w);
    HealthyWith(env, t, id, u.info[id]);
    HealthyInfo(env, t.(info := u.info), w);
    IndexedCongruent(t, w);
    CountedCongruent(env, t, u, news, trieds);
    UncountNew(env, u, news, trieds, id);
  }

  lemma DemotePlaced(env: Env, t: Tables, slot: Slot)
    requires Placed(env, t) && slot in t.tried
    ensures t.tried[slot] in t.info && Placed(env, Demote(env, t, slot)) && t.info[t.tried[slot]].refCount == 0
  {
    hide TriedSlot, InBucket;
    assert TriedSlotOk(env, t, slot);
    var id := t.tried[slot];
    var u := Demote(env, t, slot);
    forall s | s in u.news ensures NewSlotOk(env, u, s) && u.news[s] != id {
      assert NewSlotOk(env, t, s);
    }
    forall s | s in u.tried ensures TriedSlotOk(env, u, s) {
      assert TriedSlotOk(env, t, s);
    }
    forall k | k in u.info ensures RefsOk(env, u, k) {
      assert RefsOk(env, t, k);
    }
    assert SlotsOf(u.news, id) == {};
    assert RefsOk(env, u, id);
  }

  lemma DemoteKeeps(env: Env, t: Tables, slot: Slot, news: set<Id>, trieds: set<Id>)
    requires Shaped(env, t) && Counted(env, t, news, trieds) && slot in t.tried && t.tried[slot] in trieds
    ensures t.tried[slot] in t.info && t.info[t.tried[slot]].inTried && t.info[t.tried[slot]].refCount == 0
    ensures Shaped(env, Demote(env, t, slot)) && Counted(env, Demote(env, t, slot), news, trieds - {t.tried[slot]})
    ensures slot == TriedSlot(env, t.info[t.tried[slot]].service)
  {
    hide Placed, Counted, Indexed, Healthy, TriedSlot;
    TriedTaken(env, t, slot);
    var id, u := t.tried[slot], Demote(env, t, slot);
    DemotePlaced(env, t, slot);
    HealthyAt(env, t, id);
    CountedKnown(env, t, news, trieds);
    HealthyWith(env, t, id, u.info[id]);
    HealthyInfo(env, t.(info := u.info), u);
    IndexedCongruent(t, u);
    UncountTried(env, t, news, trieds, id);
    CountedCongruent(env, t.(nTried := t.nTried - 1, counts := u.counts), u, news, trieds - {id});
  }

  lemma TriedTaken(env: Env, t: Tables, slot: Slot)
    requires Placed(env, t) && slot in t.tried
    ensures TriedSlotOk(env, t, slot)
  {
  }

  lemma ReenterKeeps(env: Env, t: Tables, id: Id, slot: Slot, news: set<Id>, trieds: set<Id>)
    requires Shaped(env, t) && Counted(env, t, news, trieds) && id in t.info && slot !in t.news && id !in news
    requires !t.info[id].inTried && t.info[id].refCount == 0
    requires slot == InBucket(env, t.info[id].service, slot.bucket) && slot.bucket < env.newBuckets
    ensures Shaped(env, Reenter(env, t, id, slot)) && Counted(env, Reenter(env, t, id, slot), news + {id}, trieds)
  {
    hide Placed, Counted, Indexed, Healthy, InBucket;
    var l, u := Link(t, slot, id), Reenter(env, t, id, slot);
    LinkKeeps(env, t, slot, id, news, trieds);
    CountNew(env, l, news, trieds, id);
    assert u == l.(nNew := l.nNew + 1, counts := Bump(l.counts, env.network(l.info[id].service), 1, 0));
    PlacedCongruent(env, l, u);
    IndexedCongruent(l, u);
    HealthyInfo(env, l, u);
  }

  lemma PromotePlaced(env: Env, t: Tables, id: Id, slot: Slot)
    requires Placed(env, t) && id in t.info && slot !in t.tried && t.info[id].refCount == 0
    requires slot == TriedSlot(env, t.info[id].service)
    ensures Placed(env, Promote(env, t, id, slot))
  {
    hide TriedSlot, InBucket;
    var u := Promote(env, t, id, slot);
    assert RefsOk(env, t, id);
    forall s | s in u.news ensures NewSlotOk(env, u, s) {
      assert NewSlotOk(env, t, s);
      assert t.news[s] == id ==> s in SlotsOf(t.news, id);
    }
    forall s | s in u.tried ensures TriedSlotOk(env, u, s) {
      if s != slot { assert TriedSlotOk(env, t, s); }
    }
    forall k | k in u.info ensures RefsOk(env, u, k) {
      assert RefsOk(env, t, k);
    }
  }

  lemma PromoteKeeps(env: Env, t: Tables, id: Id, slot: Slot, news: set<Id>, trieds: set<Id>)
    requires Shaped(env, t) && Counted(env, t, news, trieds) && id in t.info && slot !in t.tried && id !in trieds
    requires t.info[id].refCount == 0 && t.info[id].lastSuccess > 0
    requires slot == TriedSlot(env, t.info[id].service)
    ensures Shaped(env, Promote(env, t, id, slot)) && Counted(env, Promote(env, t, id, slot), news, trieds + {id})
  {
    hide Placed, Counted, Indexed, Healthy, TriedSlot;
    var u := Promote(env, t, id, slot);
    PromotePlaced(env, t, id, slot);
    HealthyAt(env, t, id);
    CountedKnown(env, t, news, trieds);
    HealthyWith(env, t, id, u.info[id]);
    HealthyInfo(env, t.(info := u.info), u);
    IndexedCongruent(t, u);
    CountTried(env, t, news, trieds, id);
    CountedCongruent(env, t.(nTried := t.nTried + 1, counts := u.counts), u, news, trieds + {id});
  }

  /** Every holder of a new position counts as new. */
  ghost predicate HoldersCount(t: Tables, news: set<Id>, trieds: set<Id>) {
    forall s :: s in t.news ==> t.news[s] in news && t.news[s] !in trieds
  }

  /** Where the occupant of a tried position goes when it is evicted. */
  function Home(env: Env, t: Tables, slot: Slot): Slot
    requires slot in t.tried && t.tried[slot] in t.info
  {
    NewSlot(env, t.info[t.tried[slot]].service, t.info[t.tried[slot]].source)
  }

  /** An eviction frees the tried position and finds the evicted entry its place in the new table,
      at the cost of whoever was there. */
  lemma EvictKeeps(env: Env, t: Tables, slot: Slot, news: set<Id>, trieds: set<Id>)
    requires EnvOk(env) && Shaped(env, t) && Counted(env, t, news, trieds) && HoldersCount(t, news, trieds)
    requires slot in t.tried && t.tried[slot] in trieds && t.tried[slot] !in news
    ensures CanEvict(env, t, slot) && t.tried[slot] in t.info && t.info[t.tried[slot]].inTried
    ensures Shaped(env, Evict(env, t, slot))
    ensures Counted(env, Evict(env, t, slot), news - Orphan(t, Home(env, t, slot)) + {t.tried[slot]}, trieds - {t.tried[slot]})
    ensures Evict(env, t, slot).tried == t.tried - {slot} && Evict(env, t, slot).idCount == t.idCount
    ensures t.tried[slot] in Evict(env, t, slot).info
            && Evict(env, t, slot).info[t.tried[slot]] .refCount == 1 && !Evict(env, t, slot).info[t.tried[slot]].inTried
    ensures OnlyTouches(t.info, Evict(env, t, slot).info, Victim(t, Home(env, t, slot)) + {t.tried[slot]})
    ensures Spared(t, Evict(env, t, slot), Home(env, t, slot)) && Retains(t.info, Evict(env, t, slot).info)
  {
    hide Shaped, Counted, ClearNew, NewSlot, TriedSlot;
    DemoteKeeps(env, t, slot, news, trieds);
    var id, d, home := t.tried[slot], Demote(env, t, slot), Home(env, t, slot);
    ClearNewKeeps(env, d, home, news, trieds - {id});
    var c := ClearNew(env, d, home);
    assert id !in Victim(d, home);
    assert Orphan(d, home) == Orphan(t, home);
    assert id in c.info && SamePlace(d.info[id], c.info[id]);
    HomeFits(env, d.info[id].service, d.info[id].source);
    ReenterKeeps(env, c, id, home, news - Orphan(t, home), trieds - {id});
  }

  lemma HomeFits(env: Env, s: Service, source: NetAddr)
    requires EnvOk(env)
    ensures NewSlot(env, s, source) == InBucket(env, s, NewSlot(env, s, source).bucket) && NewSlot(env, s, source).bucket < env.newBuckets
  {
  }

  lemma HoldersNew(env: Env, t: Tables)
    requires Shaped(env, t)
    ensures HoldersCount(t, NewIds(t.info), TriedIds(t.info))
    ensures forall s :: s in t.tried ==> t.tried[s] in TriedIds(t.info) && t.tried[s] !in NewIds(t.info)
  {
    forall s | s in t.news ensures t.news[s] in NewIds(t.info) && t.news[s] !in TriedIds(t.info) {
      assert NewSlotOk(env, t, s);
    }
    forall s | s in t.tried ensures t.tried[s] in TriedIds(t.info) && t.tried[s] !in NewIds(t.info) {
      assert TriedSlotOk(env, t, s);
    }
  }

  ghost predicate AllPlaced(t: Tables) {
    forall id :: id in t.info && !t.info[id].inTried ==> t.info[id].refCount >= 1
  }

  /** MakeTried into a free position. */
  lemma MakeTriedFree(env: Env, t: Tables, id: Id)
    requires EnvOk(env) && Consistent(env, t) && id in t.info && !t.info[id].inTried && t.info[id].lastSuccess > 0
    requires TriedSlot(env, t.info[id].service) !in t.tried
    ensures CanMakeTried(env, t, id) && Consistent(env, MakeTried(env, t, id))
    ensures MakeTried(env, t, id).tried == t.tried[TriedSlot(env, t.info[id].service) := id]
    ensures OnlyTouches(t.info, MakeTried(env, t, id).info, {id}) && MakeTried(env, t, id).idCount == t.idCount
    ensures id in MakeTried(env, t, id).info && SamePlace(t.info[id].(refCount := 0, inTried := true), MakeTried(env, t, id).info[id])
    ensures Retains(t.info, MakeTried(env, t, id).info)
  {
    hide Shaped, Counted, TriedSlot, Withdrawn;
    var news, trieds, slot := NewIds(t.info), TriedIds(t.info), TriedSlot(env, t.info[id].service);
    WithdrawKeeps(env, t, id, news, trieds);
    var w := Withdrawn(env, t, id);
    WithdrawCount(env, t, id);
    PromoteKeeps(env, w, id, slot, news - {id}, trieds);
    var g := MakeTried(env, t, id);
    assert g == Promote(env, w, id, slot);
    assert NewIds(g.info) == news - {id} && TriedIds(g.info) == trieds + {id};
  }

  /** What no operation undoes: ids are not reused, addresses keep theirs, and the tried table
      never loses an occupied position. */
  ghost predicate Grows(t: Tables, u: Tables) {
    && t.idCount <= u.idCount && t.nTried <= u.nTried
    && (forall k :: k in u.info ==> k.n >= t.idCount || (k in t.info && u.info[k].service == t.info[k].service))
    && (forall s :: s in t.tried ==> s in u.tried)
  }

  lemma WithdrawCount(env: Env, t: Tables, id: Id)
    requires id in t.info
    ensures Withdrawn(env, t, id).idCount == t.idCount
    ensures id in Withdrawn(env, t, id).info && Withdrawn(env, t, id).info[id] == t.info[id].(refCount := 0)
  {
  }

  /** Who counts as new and tried once `evicted` made room for `id`, given the tables `w` from which
      `id` has been withdrawn. */
  lemma ExchangedIds(w: Tables, g: Tables, id: Id, evicted: Id, home: Slot)
    requires id in w.info && evicted in w.info && id != evicted && !w.info[id].inTried && w.info[evicted].inTried
    requires Spared(w, g, home) && (home in w.news ==> w.news[home] != id && w.news[home] != evicted)
    requires forall k :: k in w.info && k != id && !w.info[k].inTried ==> w.info[k].refCount >= 1
    requires id in g.info && g.info[id].inTried
    requires evicted in g.info && !g.info[evicted].inTried && g.info[evicted].refCount == 1
    requires OnlyTouches(w.info, g.info, Victim(w, home) + {id, evicted})
    ensures AllPlaced(g)
    ensures TriedIds(g.info) == TriedIds(w.info) - {evicted} + {id}
    ensures NewIds(g.info) == NewIds(w.info) - {id} - Orphan(w, home) + {evicted}
  {
    var touched := Victim(w, home) + {id, evicted};
    forall k | k in g.info && !g.info[k].inTried ensures g.info[k].refCount >= 1 {
      if k !in touched { assert SamePlace(w.info[k], g.info[k]); }
    }
    forall k ensures k in TriedIds(g.info) <==> k in TriedIds(w.info) - {evicted} + {id} {
      if k !in touched && k in w.info { assert SamePlace(w.info[k], g.info[k]); }
    }
    forall k ensures k in NewIds(g.info) <==> k in NewIds(w.info) - {id} - Orphan(w, home) + {evicted} {
      if k !in touched && k in w.info { assert SamePlace(w.info[k], g.info[k]); }
    }
  }

  /** The exchange itself, from the tables `w` from which `id` has been withdrawn. */
  lemma ExchangeKeeps(env: Env, w: Tables, id: Id, slot: Slot, news: set<Id>, trieds: set<Id>)
    requires EnvOk(env) && Shaped(env, w) && Counted(env, w, news, trieds) && HoldersCount(w, news, trieds)
    requires slot in w.tried && w.tried[slot] in trieds && w.tried[slot] !in news && w.tried[slot] != id
    requires id in w.info && id !in news && id !in trieds && w.info[id].refCount == 0 && w.info[id].lastSuccess > 0
    requires slot == TriedSlot(env, w.info[id].service)
    ensures CanEvict(env, w, slot) && w.tried[slot] in w.info && w.info[w.tried[slot]].inTried && id in Evict(env, w, slot).info
    ensures var g := Promote(env, Evict(env, w, slot), id, slot);
            var evicted, home := w.tried[slot], Home(env, w, slot);
            && Shaped(env, g) && Counted(env, g, news - Orphan(w, home) + {evicted}, trieds - {evicted} + {id})
            && g.tried == w.tried[slot := id] && g.idCount == w.idCount
            && id in g.info && SamePlace(w.info[id].(inTried := true), g.info[id])
            && evicted in g.info && !g.info[evicted].inTried && g.info[evicted].refCount == 1
            && Spared(w, g, home) && OnlyTouches(w.info, g.info, Victim(w, home) + {id, evicted})
            && (home in w.news ==> w.news[home] != id && w.news[home] != evicted)
            && Retains(w.info, g.info)
  {
    hide Shaped, Counted, TriedSlot, Evict, ClearNew, Demote, NewSlot, Orphan, Promote;
    EvictKeeps(env, w, slot, news, trieds);
    var e, evicted, home := Evict(env, w, slot), w.tried[slot], Home(env, w, slot);
    assert id !in Victim(w, home) + {evicted};
    assert id in e.info && SamePlace(w.info[id], e.info[id]);
    PromoteKeeps(env, e, id, slot, news - Orphan(w, home) + {evicted}, trieds - {evicted});
    PromoteIs(env, e, id, slot);
  }

  lemma PromoteIs(env: Env, t: Tables, id: Id, slot: Slot)
    requires id in t.info
    ensures var u := Promote(env, t, id, slot);
            u.info == t.info[id := t.info[id].(inTried := true)] && u.tried == t.tried[slot := id] && u.idCount == t.idCount
  {
  }

  /** MakeTried into an occupied position: the occupant moves back to the new table. */
  lemma MakeTriedOccupied(env: Env, t: Tables, id: Id)
    requires EnvOk(env) && Consistent(env, t) && id in t.info && !t.info[id].inTried && t.info[id].lastSuccess > 0
    requires TriedSlot(env, t.info[id].service) in t.tried
    ensures CanMakeTried(env, t, id) && Consistent(env, MakeTried(env, t, id))
    ensures MakeTried(env, t, id).tried == t.tried[TriedSlot(env, t.info[id].service) := id]
    ensures MakeTried(env, t, id).idCount == t.idCount
    ensures id in MakeTried(env, t, id).info && SamePlace(t.info[id].(refCount := 0, inTried := true), MakeTried(env, t, id).info[id])
    ensures var evicted := t.tried[TriedSlot(env, t.info[id].service)];
            evicted in MakeTried(env, t, id).info && !MakeTried(env, t, id).info[evicted].inTried
    ensures Retains(t.info, MakeTried(env, t, id).info)
  {
    hide Shaped, Counted, TriedSlot, Withdrawn, Evict, ClearNew, Demote, NewSlot, Promote, Orphan, Victim, Spared, OnlyTouches;
    var news, trieds, slot := NewIds(t.info), TriedIds(t.info), TriedSlot(env, t.info[id].service);
    HoldersNew(env, t);
    WithdrawKeeps(env, t, id, news, trieds);
    WithdrawCount(env, t, id);
    var w := Withdrawn(env, t, id);
    ExchangeKeeps(env, w, id, slot, news - {id}, trieds);
    var g := Promote(env, Evict(env, w, slot), id, slot);
    assert NewIds(w.info) == news && TriedIds(w.info) == trieds;
    ExchangedIds(w, g, id, t.tried[slot], Home(env, w, slot));
    assert g == MakeTried(env, t, id);
  }

  /** The tried ids and the occupied tried positions correspond one to one. */
  lemma {:induction false} OneToOne(table: Table, ids: set<Id>)
    requires forall s :: s in table ==> table[s] in ids
    requires forall r, s :: r in table && s in table && table[r] == table[s] ==> r == s
    requires forall id :: id in ids ==> exists s :: s in table && table[s] == id
    ensures |table| == |ids|
    decreases |ids|
  {
    if ids != {} {
      var id :| id in ids;
      var s :| s in table && table[s] == id;
      forall other | other in ids - {id} ensures exists r :: r in table - {s} && (table - {s})[r] == other {
        var r :| r in table && table[r] == other;
        assert r in table - {s} && (table - {s})[r] == other;
      }
      OneToOne(table - {s}, ids - {id});
      assert table.Keys == (table - {s}).Keys + {s};
    } else {
      assert table.Keys == {};
    }
  }

  /** nTried is the number of occupied positions of the tried table. */
  lemma TriedCount(env: Env, t: Tables)
    requires Consistent(env, t)
    ensures t.nTried == |t.tried|
  {
    var ids := TriedIds(t.info);
    forall s | s in t.tried ensures t.tried[s] in ids { assert TriedSlotOk(env, t, s); }
    forall r, s | r in t.tried && s in t.tried && t.tried[r] == t.tried[s] ensures r == s {
      assert TriedSlotOk(env, t, r) && TriedSlotOk(env, t, s);
    }
    forall id | id in ids ensures exists s :: s in t.tried && t.tried[s] == id { assert RefsOk(env, t, id); }
    OneToOne(t.tried, ids);
  }

  lemma GrowsIf(env: Env, t: Tables, u: Tables)
    requires Consistent(env, t) && Consistent(env, u) && t.idCount <= u.idCount
    requires forall k :: k in u.info ==> k.n >= t.idCount || (k in t.info && u.info[k].service == t.info[k].service)
    requires forall s :: s in t.tried ==> s in u.tried
    ensures Grows(t, u)
  {
    TriedCount(env, t);
    TriedCount(env, u);
    assert t.tried.Keys <= u.tried.Keys;
    assert |u.tried.Keys| == |t.tried.Keys| + |u.tried.Keys - t.tried.Keys|;
  }

  lemma GrowsTrans(t: Tables, u: Tables, v: Tables)
    requires Grows(t, u) && Grows(u, v)
    ensures Grows(t, v)
  {
  }

  /** MakeTried keeps the invariant whether or not it has to evict. */
  lemma MakeTriedKeeps(env: Env, t: Tables, id: Id)
    requires EnvOk(env) && Consistent(env, t) && id in t.info && !t.info[id].inTried && t.info[id].lastSuccess > 0
    ensures CanMakeTried(env, t, id) && Consistent(env, MakeTried(env, t, id)) && Grows(t, MakeTried(env, t, id))
    ensures MakeTried(env, t, id).tried == t.tried[TriedSlot(env, t.info[id].service) := id]
    ensures id in MakeTried(env, t, id).info && SamePlace(t.info[id].(refCount := 0, inTried := true), MakeTried(env, t, id).info[id])
    ensures var slot := TriedSlot(env, t.info[id].service);
            slot in t.tried ==> t.tried[slot] in MakeTried(env, t, id).info && !MakeTried(env, t, id).info[t.tried[slot]].inTried
  {
    if TriedSlot(env, t.info[id].service) in t.tried {
      MakeTriedOccupied(env, t, id);
    } else {
      MakeTriedFree(env, t, id);
    }
    hide Consistent, MakeTried;
    GrowsIf(env, t, MakeTried(env, t, id));
  }

  /** The evicted entry is found in the new table where its first source puts it. */
  lemma EvictedGoesHome(env: Env, t: Tables, id: Id)
    requires EnvOk(env) && Consistent(env, t) && id in t.info && !t.info[id].inTried && t.info[id].lastSuccess > 0
    requires TriedSlot(env, t.info[id].service) in t.tried
    ensures CanMakeTried(env, t, id)
    ensures var evicted := t.tried[TriedSlot(env, t.info[id].service)];
            && evicted in t.info
            && var home := NewSlot(env, t.info[evicted].service, t.info[evicted].source);
               && home in MakeTried(env, t, id).news && MakeTried(env, t, id).news[home] == evicted
               && evicted in MakeTried(env, t, id).info && MakeTried(env, t, id).info[evicted].refCount == 1
  {
    hide Consistent, ClearNew, TriedSlot, NewSlot, CanMakeTried, CanClear;
    MakeTriedKeeps(env, t, id);
    var slot := TriedSlot(env, t.info[id].service);
    TriedKnown(env, t, slot);
    CanEvictThere(env, t, id);
  }

  lemma TriedKnown(env: Env, t: Tables, s: Slot)
    requires Consistent(env, t) && s in t.tried
    ensures t.tried[s] in t.info && t.info[t.tried[s]].inTried
  {
    assert TriedSlotOk(env, t, s);
  }

  lemma CanEvictThere(env: Env, t: Tables, id: Id)
    requires CanMakeTried(env, t, id) && TriedSlot(env, t.info[id].service) in t.tried
    ensures CanEvict(env, Withdrawn(env, t, id), TriedSlot(env, t.info[id].service))
    ensures id in Evict(env, Withdrawn(env, t, id), TriedSlot(env, t.info[id].service)).info
  {
  }

  // --------------------------------------------- consistency of whole operations

  /** Statistics may change freely as long as they stay healthy. */
  lemma StatsKeep(env: Env, t: Tables, id: Id, a: AddrInfo)
    requires Consistent(env, t) && id in t.info && EntryOk(env, a)
    requires a.service == t.info[id].service && a.inTried == t.info[id].inTried
    requires a.refCount == t.info[id].refCount && a.randomPos == t.info[id].randomPos
    ensures Consistent(env, SetInfo(t, id, a)) && Grows(t, SetInfo(t, id, a))
  {
    hide Shaped, Counted, EntryOk;
    SetInfoKeeps(env, t, id, a, NewIds(t.info), TriedIds(t.info));
    assert NewIds(SetInfo(t, id, a).info) == NewIds(t.info) && TriedIds(SetInfo(t, id, a).info) == TriedIds(t.info);
  }

  lemma SwapConsistent(env: Env, t: Tables, i: nat, j: nat)
    requires Consistent(env, t) && i < |t.random| && j < |t.random|
    ensures t.random[i] in t.info && t.random[j] in t.info
    ensures Consistent(env, SwapRandom(t, i, j)) && Grows(t, SwapRandom(t, i, j))
    ensures SamePlaces(t.info, SwapRandom(t, i, j).info)
  {
    hide Shaped, Counted, SwapRandom;
    SwapKeeps(env, t, i, j, NewIds(t.info), TriedIds(t.info));
    SwapTables(t, i, j);
    var u := SwapRandom(t, i, j);
    assert NewIds(u.info) == NewIds(t.info) && TriedIds(u.info) == TriedIds(t.info);
  }

  /** A created entry is in no table yet; everything else is in order. */
  lemma CreateLoose(env: Env, t: Tables, a: AddrInfo)
    requires Consistent(env, t) && a.service !in t.addr && a.refCount == 0 && !a.inTried && EntryOk(env, a)
    ensures NextId(t) !in t.info && ConsistentBut(env, Create(env, t, a), {NextId(t)})
  {
    hide Shaped, Counted, EntryOk;
    CreateKeeps(env, t, a, NewIds(t.info), TriedIds(t.info));
    var u := Create(env, t, a);
    assert NewIds(u.info) == NewIds(t.info) + {NextId(t)} && TriedIds(u.info) == TriedIds(t.info);
  }

  /** Deleting the one entry that is in no table restores full consistency. */
  lemma DeleteLoose(env: Env, t: Tables, id: Id)
    requires ConsistentBut(env, t, {id}) && id in t.info && !t.info[id].inTried && t.info[id].refCount == 0
    ensures CanDelete(t, id) && Consistent(env, Delete(env, t, id))
    ensures Retains(t.info, Delete(env, t, id).info) && Delete(env, t, id).tried == t.tried && Delete(env, t, id).idCount == t.idCount
    ensures OnlyTouches(t.info, Delete(env, t, id).info, {id})
  {
    hide Shaped, Counted, Delete;
    DeleteKeeps(env, t, id, NewIds(t.info), TriedIds(t.info));
    ShapedIndexed(env, t);
    DeleteTouches(env, t, id);
    var u := Delete(env, t, id);
    assert NewIds(u.info) == NewIds(t.info) - {id} && TriedIds(u.info) == TriedIds(t.info);
  }

  /** Giving the entry a position, cleared first if need be, restores full consistency. */
  lemma InsertKeeps(env: Env, t: Tables, id: Id, slot: Slot)
    requires ConsistentBut(env, t, {id}) && id in t.info && !t.info[id].inTried && t.info[id].refCount < NEW_BUCKETS_PER_ADDRESS
    requires slot == InBucket(env, t.info[id].service, slot.bucket) && slot.bucket < env.newBuckets
    requires slot in t.news ==> t.news[slot] != id
    ensures CanClear(t, slot) && id in ClearNew(env, t, slot).info
    ensures Consistent(env, Link(ClearNew(env, t, slot), slot, id))
    ensures var u := Link(ClearNew(env, t, slot), slot, id);
            Retains(t.info, u.info) && u.tried == t.tried && u.idCount == t.idCount && id in u.info && u.news[slot] == id
  {
    hide Shaped, Counted, ClearNew, InBucket, OnlyTouches;
    ClearedFor(env, t, id, slot);
    var c := ClearNew(env, t, slot);
    var u := Link(c, slot, id);
    LinkKeeps(env, c, slot, id, NewIds(c.info), TriedIds(c.info));
    assert NewIds(u.info) == NewIds(c.info) && TriedIds(u.info) == TriedIds(c.info);
    RefsNonNegative(env, c, id);
  }

  /** The entry gains a reference, the holder of the position is cleared, and no other entry changes. */
  lemma InsertTouches(env: Env, t: Tables, id: Id, slot: Slot)
    requires ConsistentBut(env, t, {id}) && id in t.info && !t.info[id].inTried && (slot in t.news ==> t.news[slot] != id)
    ensures CanClear(t, slot) && id in ClearNew(env, t, slot).info
    ensures var u := Link(ClearNew(env, t, slot), slot, id);
            SamePlace(t.info[id].(refCount := t.info[id].refCount + 1), u.info[id]) && OnlyTouches(t.info, u.info, Victim(t, slot) + {id})
  {
    hide ConsistentBut, Shaped, Counted, ClearNew;
    ClearedFor(env, t, id, slot);
  }

  /** Once the position is cleared, the entry that is to have it is the only one that may be in no table. */
  lemma ClearedFor(env: Env, t: Tables, id: Id, slot: Slot)
    requires ConsistentBut(env, t, {id}) && id in t.info && !t.info[id].inTried
    requires slot in t.news ==> t.news[slot] != id
    ensures CanClear(t, slot)
    ensures var c := ClearNew(env, t, slot);
            && Shaped(env, c) && Counted(env, c, NewIds(c.info), TriedIds(c.info))
            && c.news == t.news - {slot} && c.tried == t.tried && c.idCount == t.idCount && Retains(t.info, c.info)
            && id in c.info && SamePlace(t.info[id], c.info[id]) && OnlyTouches(t.info, c.info, Victim(t, slot))
            && forall k :: k in c.info && k != id && !c.info[k].inTried ==> c.info[k].refCount >= 1
  {
    hide Shaped, Counted, ClearNew, InBucket, Orphan;
    var news, trieds := NewIds(t.info), TriedIds(t.info);
    HoldersNew(env, t);
    ClearNewKeeps(env, t, slot, news, trieds);
    var c := ClearNew(env, t, slot);
    assert id in c.info && SamePlace(t.info[id], c.info[id]);
    ClearedIds(t, c, slot, id);
  }

  lemma RefsNonNegative(env: Env, t: Tables, id: Id)
    requires Shaped(env, t) && id in t.info
    ensures t.info[id].refCount >= 0
  {
    assert RefsOk(env, t, id);
  }

  lemma ClearedIds(t: Tables, c: Tables, slot: Slot, id: Id)
    requires OnlyTouches(t.info, c.info, Victim(t, slot)) && Spared(t, c, slot)
    requires forall k :: k in t.info && k != id && !t.info[k].inTried ==> t.info[k].refCount >= 1
    ensures NewIds(c.info) == NewIds(t.info) - Orphan(t, slot) && TriedIds(c.info) == TriedIds(t.info)
    ensures forall k :: k in c.info && k != id && !c.info[k].inTried ==> c.info[k].refCount >= 1
  {
    forall k
      ensures k in NewIds(c.info) <==> k in NewIds(t.info) - Orphan(t, slot)
      ensures k in TriedIds(c.info) <==> k in TriedIds(t.info)
      ensures k in c.info && k != id && !c.info[k].inTried ==> c.info[k].refCount >= 1
    {
      if k !in Victim(t, slot) && k in t.info { assert SamePlace(t.info[k], c.info[k]); }
    }
  }

  // ------------------------------------------------------------- the random order

  lemma RandomDistinct(env: Env, t: Tables)
    requires Consistent(env, t)
    ensures Distinct(t.random) && forall id :: id in t.info <==> id in t.random
  {
    assert Indexed(t);
    hide Consistent, Placed, Counted, Healthy;
    forall i, j | 0 <= i < j < |t.random| ensures t.random[i] != t.random[j] {
      assert PosOk(t, i) && PosOk(t, j);
    }
    forall id | id in t.info ensures id in t.random {
      assert IdOk(t, id);
    }
    forall id | id in t.random ensures id in t.info {
      var i :| 0 <= i < |t.random| && t.random[i] == id;
      assert PosOk(t, i);
    }
  }

  /** The eligible ids among those given, in order. */
  ghost function Picked(ids: seq<Id>, eligible: set<Id>): seq<Id> {
    if ids == [] then []
    else Picked(ids[..|ids| - 1], eligible) + if ids[|ids| - 1] in eligible then [ids[|ids| - 1]] else []
  }

  lemma PickNext(random: seq<Id>, n: nat, eligible: set<Id>)
    requires n < |random|
    ensures Picked(random[..n + 1], eligible) == Picked(random[..n], eligible) + if random[n] in eligible then [random[n]] else []
  {
    assert random[..n + 1][..n] == random[..n];
  }

  lemma {:induction false} PickedFrom(ids: seq<Id>, eligible: set<Id>)
    requires Distinct(ids)
    ensures Distinct(Picked(ids, eligible))
    ensures forall id :: id in Picked(ids, eligible) <==> id in ids && id in eligible
  {
    if ids != [] {
      var front, last := ids[..|ids| - 1], ids[|ids| - 1];
      PickedFrom(front, eligible);
      assert last !in front && ids == front + [last];
    }
  }

  lemma PickedCount(ids: seq<Id>, eligible: set<Id>, chosen: seq<Id>)
    requires Distinct(ids) && chosen == Picked(ids, eligible)
    ensures (forall i :: 0 <= i < |chosen| ==> chosen[i] in eligible) && Distinct(chosen)
    ensures |chosen| <= |eligible| && ((forall id :: id in eligible ==> id in ids) ==> |chosen| == |eligible|)
  {
    hide Distinct, Picked;
    PickedFrom(ids, eligible);
    DistinctSize(chosen);
    var picked := set id | id in chosen;
    assert picked <= eligible;
    assert |eligible| == |picked| + |eligible - picked|;
    if forall id :: id in eligible ==> id in ids {
      assert eligible - picked == {};
    }
  }
}
