/** CheckAddrman (src/addrman.cpp:1063-1166): the consistency check the address manager runs on
    itself, and what its verdict says about the invariant of AddrTables.dfy.

    The order in which an unordered map or a bucket table is walked decides which error code is
    reported first; the walks below pick their next element arbitrarily. */
module AddrManCheck {
  import opened Sequences
  import opened AddrTables

  // ---------------------------------------------------------- what the check demands

  ghost predicate EntryPasses(t: Tables, id: Id)
    requires id in t.info
  {
    var a := t.info[id];
    && (if a.inTried then a.lastSuccess != 0 && a.refCount == 0 else 1 <= a.refCount <= NEW_BUCKETS_PER_ADDRESS)
    && a.service in t.addr && t.addr[a.service] == id
    && 0 <= a.randomPos < |t.random| && t.random[a.randomPos] == id
    && a.lastTry >= 0 && a.lastSuccess >= 0
  }

  ghost predicate EntriesPass(t: Tables) {
    forall id :: id in t.info ==> EntryPasses(t, id)
  }

  ghost predicate TriedPasses(env: Env, t: Tables) {
    && (forall s :: s in t.tried ==> TriedSlotOk(env, t, s))
    && forall id :: id in TriedIds(t.info) ==> id in t.tried.Values
  }

  ghost predicate NewSlotPasses(env: Env, t: Tables, s: Slot)
    requires s in t.news
  {
    && t.news[s] in t.info && !t.info[t.news[s]].inTried
    && s == InBucket(env, t.info[t.news[s]].service, s.bucket)
  }

  ghost predicate NewsPass(env: Env, t: Tables) {
    && (forall s :: s in t.news ==> NewSlotPasses(env, t, s))
    && forall id :: id in NewIds(t.info) ==> t.info[id].refCount == |SlotsOf(t.news, id)|
  }

  ghost function Among(env: Env, info: Infos, ids: set<Id>, net: Network, inTried: bool): set<Id> {
    set id | id in ids && id in info && info[id].inTried == inTried && env.network(info[id].service) == net
  }

  /** How many entries of a set of ids count as new and as tried in one network. */
  ghost function LocalCount(env: Env, info: Infos, ids: set<Id>, net: Network): Count {
    Count(|Among(env, info, ids, net, false)|, |Among(env, info, ids, net, true)|)
  }

  ghost function NetworksOf(env: Env, info: Infos, ids: set<Id>): set<Network> {
    set id | id in ids && id in info :: env.network(info[id].service)
  }

  ghost predicate CountsPass(env: Env, t: Tables) {
    && |t.counts.Keys| >= |NetworksOf(env, t.info, t.info.Keys)|
    && forall net :: net in t.counts ==> t.counts[net] == LocalCount(env, t.info, t.info.Keys, net)
  }

  ghost predicate Passes(env: Env, t: Tables, keyIsNull: bool) {
    && |t.random| == t.nTried + t.nNew
    && EntriesPass(t)
    && |TriedIds(t.info)| == t.nTried && |NewIds(t.info)| == t.nNew
    && TriedPasses(env, t) && NewsPass(env, t)
    && !keyIsNull
    && CountsPass(env, t)
  }

  // ------------------------------------------------------------------- the check

  /** CheckAddrman: the code is 0 exactly when every demand is met. */
  method CheckAddrman(env: Env, t: Tables, keyIsNull: bool) returns (code: int)
    ensures code == 0 <==> Passes(env, t, keyIsNull)
    ensures code == -7 <==> |t.random| != t.nTried + t.nNew
    ensures code == -16 ==> keyIsNull
  {
    hide EntriesPass, TriedPasses, NewsPass, CountsPass;
    if |t.random| != t.nTried + t.nNew {
      return -7;
    }
    var setTried, mapNew, local;
    code, setTried, mapNew, local := CheckEntries(env, t);
    if code != 0 {
      return;
    }
    if |setTried| != t.nTried {
      return -9;
    }
    assert mapNew.Keys == NewIds(t.info);
    if |mapNew| != t.nNew {
      return -10;
    }
    var lost, left;
    code, lost := CheckTried(env, t, setTried);
    if code != 0 {
      return;
    }
    assert forall id :: id in mapNew ==> mapNew[id] >= 1 by { RefsCounted(t); }
    code, left := CheckNews(env, t, mapNew);
    if code != 0 {
      return;
    }
    if |lost| != 0 {
      assert lost != {};
      return -13;
    }
    if |left| != 0 {
      assert left != map[];
      return -15;
    }
    assert lost == {} && left == map[];
    if keyIsNull {
      return -16;
    }
    code := CheckCounts(env, t, local);
  }

  lemma RefsCounted(t: Tables)
    requires EntriesPass(t)
    ensures forall id :: id in NewIds(t.info) ==> t.info[id].refCount >= 1
  {
    forall id | id in NewIds(t.info) ensures t.info[id].refCount >= 1 { assert EntryPasses(t, id); }
  }

  method CheckEntries(env: Env, t: Tables)
    returns (code: int, setTried: set<Id>, mapNew: map<Id, int>, local: Counts)
    ensures code in {0, -1, -2, -3, -4, -5, -14, -6, -8}
    ensures code == 0 <==> EntriesPass(t)
    ensures code == 0 ==> setTried == TriedIds(t.info) && (forall id :: id in mapNew <==> id in NewIds(t.info))
    ensures code == 0 ==> forall id :: id in mapNew ==> mapNew[id] == t.info[id].refCount
    ensures code == 0 ==> local.Keys == NetworksOf(env, t.info, t.info.Keys)
    ensures code == 0 ==> forall net :: CountAt(local, net) == LocalCount(env, t.info, t.info.Keys, net)
  {
    hide LocalCount, NetworksOf;
    code, setTried, mapNew, local := 0, {}, map[], map[];
    ghost var done: set<Id> := {};
    var todo := t.info.Keys;
    NothingCounted(env, t.info);
    while todo != {}
      invariant done + todo == t.info.Keys && done !! todo
      invariant forall id :: id in done ==> EntryPasses(t, id)
      invariant forall id :: id in setTried <==> id in done && id in TriedIds(t.info)
      invariant forall id :: id in mapNew <==> id in done && id in NewIds(t.info)
      invariant forall id :: id in mapNew ==> mapNew[id] == t.info[id].refCount
      invariant local.Keys == NetworksOf(env, t.info, done)
      invariant forall net :: CountAt(local, net) == LocalCount(env, t.info, done, net)
    {
      var n :| n in todo;
      todo := todo - {n};
      var info := t.info[n];
      OneCounted(env, t.info, done, n, local);
      done := done + {n};
      if info.inTried {
        if info.lastSuccess == 0 { return -1, setTried, mapNew, local; }
        if info.refCount != 0 { return -2, setTried, mapNew, local; }
        setTried := setTried + {n};
        local := Bump(local, env.network(info.service), 0, 1);
      } else {
        if info.refCount < 0 || info.refCount > NEW_BUCKETS_PER_ADDRESS { return -3, setTried, mapNew, local; }
        if info.refCount == 0 { return -4, setTried, mapNew, local; }
        mapNew := mapNew[n := info.refCount];
        local := Bump(local, env.network(info.service), 1, 0);
      }
      if info.service !in t.addr || t.addr[info.service] != n { return -5, setTried, mapNew, local; }
      if info.randomPos < 0 || info.randomPos >= |t.random| || t.random[info.randomPos] != n {
        return -14, setTried, mapNew, local;
      }
      if info.lastTry < 0 { return -6, setTried, mapNew, local; }
      if info.lastSuccess < 0 { return -8, setTried, mapNew, local; }
    }
    assert done == t.info.Keys;
  }

  lemma NothingCounted(env: Env, info: Infos)
    ensures NetworksOf(env, info, {}) == {} && forall net :: LocalCount(env, info, {}, net) == Count(0, 0)
  {
    assert forall net, inTried :: Among(env, info, {}, net, inTried) == {};
  }

  lemma OneCounted(env: Env, info: Infos, done: set<Id>, n: Id, local: Counts)
    requires n in info && n !in done && local.Keys == NetworksOf(env, info, done)
    requires forall net :: CountAt(local, net) == LocalCount(env, info, done, net)
    ensures var net := env.network(info[n].service);
            var after := if info[n].inTried then Bump(local, net, 0, 1) else Bump(local, net, 1, 0);
            after.Keys == NetworksOf(env, info, done + {n}) &&
            forall other :: CountAt(after, other) == LocalCount(env, info, done + {n}, other)
  {
    var net := env.network(info[n].service);
    assert NetworksOf(env, info, done + {n}) == NetworksOf(env, info, done) + {net};
    forall other
      ensures LocalCount(env, info, done + {n}, other) ==
              var c := LocalCount(env, info, done, other);
              if other != net then c else if info[n].inTried then Count(c.nNew, c.nTried + 1) else Count(c.nNew + 1, c.nTried)
    {
      LocalCountGrows(env, info, done, n, other);
    }
    hide LocalCount, NetworksOf;
  }

  lemma AmongGrows(env: Env, info: Infos, done: set<Id>, n: Id, net: Network, inTried: bool)
    requires n in info && n !in done
    ensures |Among(env, info, done + {n}, net, inTried)| ==
            |Among(env, info, done, net, inTried)| +
            if info[n].inTried == inTried && net == env.network(info[n].service) then 1 else 0
  {
    var before, after := Among(env, info, done, net, inTried), Among(env, info, done + {n}, net, inTried);
    var counts := info[n].inTried == inTried && net == env.network(info[n].service);
    forall id ensures id in after <==> id in before || (id == n && counts) {}
    hide Among;
    if counts {
      assert after == before + {n};
    } else {
      assert after == before;
    }
  }

  lemma LocalCountGrows(env: Env, info: Infos, done: set<Id>, n: Id, net: Network)
    requires n in info && n !in done
    ensures LocalCount(env, info, done + {n}, net) ==
            var c := LocalCount(env, info, done, net);
            if net != env.network(info[n].service) then c
            else if info[n].inTried then Count(c.nNew, c.nTried + 1) else Count(c.nNew + 1, c.nTried)
  {
    hide Among;
    AmongGrows(env, info, done, n, net, false);
    AmongGrows(env, info, done, n, net, true);
  }

  method CheckTried(env: Env, t: Tables, all: set<Id>) returns (code: int, setTried: set<Id>)
    requires all == TriedIds(t.info)
    ensures code in {0, -11, -17, -18}
    ensures code != 0 ==> !TriedPasses(env, t)
    ensures code == 0 ==> (setTried == {} <==> TriedPasses(env, t))
  {
    code, setTried := 0, all;
    ghost var done: set<Slot> := {};
    var todo := t.tried.Keys;
    while todo != {}
      invariant done + todo == t.tried.Keys && done !! todo
      invariant forall s :: s in done ==> TriedSlotOk(env, t, s)
      invariant forall id :: id in setTried <==> id in all && !(exists s :: s in done && t.tried[s] == id)
    {
      var s :| s in todo;
      todo := todo - {s};
      var id := t.tried[s];
      if id !in setTried {
        assert !TriedSlotOk(env, t, s) by {
          if id in all {
            var r :| r in done && t.tried[r] == id;
            assert TriedSlotOk(env, t, r) && r != s;
          }
        }
        return -11, setTried;
      }
      if id !in t.info || env.triedBucket(t.info[id].service) != s.bucket { return -17, setTried; }
      if env.position(t.info[id].service, false, s.bucket) != s.pos { return -18, setTried; }
      setTried := setTried - {id};
      done := done + {s};
    }
    assert done == t.tried.Keys;
    assert setTried == {} <==> TriedPasses(env, t) by {
      if TriedPasses(env, t) {
        forall id | id in all ensures exists s :: s in done && t.tried[s] == id {
          assert id in t.tried.Values;
        }
      }
      if setTried == {} {
        forall id | id in TriedIds(t.info) ensures id in t.tried.Values {
          var s :| s in done && t.tried[s] == id;
          assert s in t.tried;
        }
      }
    }
  }

  ghost function SeenSlots(news: Table, done: set<Slot>, id: Id): set<Slot> {
    set s | s in done && s in news && news[s] == id
  }

  /** How many of the positions already walked an id holds. */
  ghost function Seen(news: Table, done: set<Slot>, id: Id): nat {
    |SeenSlots(news, done, id)|
  }

  /** mapNew holds what remains of each reference count once the walked positions are taken off. */
  ghost predicate Remaining(all: map<Id, int>, mapNew: map<Id, int>, news: Table, done: set<Slot>) {
    && (forall id :: id in all ==> Seen(news, done, id) <= all[id])
    && (forall id :: id in mapNew <==> id in all && Seen(news, done, id) < all[id])
    && (forall id :: id in mapNew ==> mapNew[id] == all[id] - Seen(news, done, id))
  }

  function CountDown(mapNew: map<Id, int>, id: Id): map<Id, int>
    requires id in mapNew
  {
    if mapNew[id] - 1 == 0 then mapNew - {id} else mapNew[id := mapNew[id] - 1]
  }

  method CheckNews(env: Env, t: Tables, all: map<Id, int>) returns (code: int, mapNew: map<Id, int>)
    requires forall id :: id in all <==> id in NewIds(t.info)
    requires forall id :: id in all ==> all[id] == t.info[id].refCount >= 1
    ensures code in {0, -12, -19}
    ensures code != 0 ==> !NewsPass(env, t)
    ensures code == 0 ==> (mapNew == map[] <==> NewsPass(env, t))
  {
    hide NewSlotPasses, NewsPass, Remaining, CountDown;
    code, mapNew := 0, all;
    ghost var done: set<Slot> := {};
    var todo := t.news.Keys;
    NothingSeen(all, t.news);
    while todo != {}
      invariant done + todo == t.news.Keys && done !! todo
      invariant forall s :: s in done ==> NewSlotPasses(env, t, s)
      invariant Remaining(all, mapNew, t.news, done)
    {
      var s :| s in todo;
      todo := todo - {s};
      var id := t.news[s];
      PositionMatters(env, t, s);
      if id !in mapNew {
        TooMany(env, t, done, s, all, mapNew);
        return -12, mapNew;
      }
      MustBeNew(all, mapNew, t.news, done, id);
      if id !in t.info || env.position(t.info[id].service, true, s.bucket) != s.pos {
        SlotFails(env, t, s);
        return -19, mapNew;
      }
      OneSeen(all, mapNew, t.news, done, s);
      mapNew := CountDown(mapNew, id);
      done := done + {s};
    }
    assert done == t.news.Keys;
    AllFound(env, t, all, mapNew);
  }

  lemma NothingSeen(all: map<Id, int>, news: Table)
    requires forall id :: id in all ==> all[id] >= 1
    ensures Remaining(all, all, news, {})
  {
    forall id ensures Seen(news, {}, id) == 0 {
      assert SeenSlots(news, {}, id) == {};
    }
  }

  lemma MustBeNew(all: map<Id, int>, mapNew: map<Id, int>, news: Table, done: set<Slot>, id: Id)
    requires Remaining(all, mapNew, news, done) && id in mapNew
    ensures id in all
  {
  }

  lemma SlotFails(env: Env, t: Tables, s: Slot)
    requires s in t.news && !NewSlotPasses(env, t, s)
    ensures !NewsPass(env, t)
  {
  }

  lemma OneSeen(all: map<Id, int>, mapNew: map<Id, int>, news: Table, done: set<Slot>, s: Slot)
    requires Remaining(all, mapNew, news, done) && s in news && s !in done && news[s] in mapNew
    ensures Remaining(all, CountDown(mapNew, news[s]), news, done + {s})
  {
    hide Seen;
    forall id ensures Seen(news, done + {s}, id) == Seen(news, done, id) + if news[s] == id then 1 else 0 {
      SeenGrows(news, done, s, id);
    }
  }

  lemma AllFound(env: Env, t: Tables, all: map<Id, int>, mapNew: map<Id, int>)
    requires forall id :: id in all <==> id in NewIds(t.info)
    requires forall id :: id in all ==> all[id] == t.info[id].refCount
    requires forall s :: s in t.news ==> NewSlotPasses(env, t, s)
    requires Remaining(all, mapNew, t.news, t.news.Keys)
    ensures mapNew == map[] <==> NewsPass(env, t)
  {
    hide NewSlotPasses, SlotsOf, Seen;
    forall id ensures Seen(t.news, t.news.Keys, id) == |SlotsOf(t.news, id)| {
      AllSeen(t.news, id);
    }
    if mapNew != map[] {
      var id :| id in mapNew;
      assert id in NewIds(t.info);
    } else {
      forall id | id in NewIds(t.info) ensures t.info[id].refCount == |SlotsOf(t.news, id)| {
        assert id in all && id !in mapNew;
      }
    }
  }

  lemma AllSeen(news: Table, id: Id)
    ensures Seen(news, news.Keys, id) == |SlotsOf(news, id)|
  {
    assert SeenSlots(news, news.Keys, id) == SlotsOf(news, id);
  }

  lemma PositionMatters(env: Env, t: Tables, s: Slot)
    requires s in t.news
    ensures NewSlotPasses(env, t, s) <==>
            t.news[s] in NewIds(t.info) && env.position(t.info[t.news[s]].service, true, s.bucket) == s.pos
  {
  }

  lemma SeenGrows(news: Table, done: set<Slot>, s: Slot, id: Id)
    requires s in news && s !in done
    ensures Seen(news, done + {s}, id) == Seen(news, done, id) + if news[s] == id then 1 else 0
  {
    var before := SeenSlots(news, done, id);
    var after := SeenSlots(news, done + {s}, id);
    if news[s] == id {
      assert after == before + {s};
    } else {
      assert after == before;
    }
  }

  lemma TooMany(env: Env, t: Tables, done: set<Slot>, s: Slot, all: map<Id, int>, mapNew: map<Id, int>)
    requires s in t.news && s !in done && done <= t.news.Keys
    requires forall id :: id in all <==> id in NewIds(t.info)
    requires forall id :: id in all ==> all[id] == t.info[id].refCount
    requires Remaining(all, mapNew, t.news, done) && t.news[s] !in mapNew
    ensures !NewsPass(env, t)
  {
    var id := t.news[s];
    if id in all {
      var held, seen := SlotsOf(t.news, id), SeenSlots(t.news, done, id);
      assert seen <= held - {s};
      assert |held - {s}| == |seen| + |held - {s} - seen|;
      assert |held| > all[id];
    } else {
      PositionMatters(env, t, s);
    }
  }

  method CheckCounts(env: Env, t: Tables, local: Counts) returns (code: int)
    requires local.Keys == NetworksOf(env, t.info, t.info.Keys)
    requires forall net :: CountAt(local, net) == LocalCount(env, t.info, t.info.Keys, net)
    ensures code in {0, -20, -21}
    ensures code == 0 <==> CountsPass(env, t)
  {
    hide LocalCount, NetworksOf;
    if |t.counts.Keys| < |local.Keys| {
      return -20;
    }
    var todo := t.counts.Keys;
    while todo != {}
      invariant todo <= t.counts.Keys
      invariant forall net :: net in t.counts && net !in todo ==> t.counts[net] == LocalCount(env, t.info, t.info.Keys, net)
    {
      var net :| net in todo;
      todo := todo - {net};
      if CountAt(local, net) != t.counts[net] {
        return -21;
      }
    }
    return 0;
  }

  // ------------------------------------------------- the check and the invariant

  /** What the invariant says and the check does not look at: ids below the counter, addresses that lead
      nowhere, buckets within the table, routability, and counters of networks that were never counted. */
  ghost predicate Unchecked(env: Env, t: Tables) {
    && t.idCount >= 0 && (forall id :: id in t.info ==> 0 <= id.n < t.idCount)
    && (forall s :: s in t.addr ==> AddrOk(t, s))
    && (forall s :: s in t.news ==> s.bucket < env.newBuckets)
    && (forall id :: id in t.info ==> env.routable(t.info[id].service))
    && (forall id :: id in t.info ==> env.network(t.info[id].service) in t.counts)
  }

  // The positions of a table with the given numbers of buckets and of positions in each.

  ghost function Row(bucket: nat, size: nat): set<Slot> {
    if size == 0 then {} else Row(bucket, size - 1) + {Slot(bucket, size - 1)}
  }

  ghost function Grid(buckets: nat, size: nat): set<Slot> {
    if buckets == 0 then {} else Grid(buckets - 1, size) + Row(buckets - 1, size)
  }

  lemma {:induction false} RowSize(bucket: nat, size: nat)
    ensures |Row(bucket, size)| == size
    ensures forall s :: s in Row(bucket, size) <==> s.bucket == bucket && s.pos < size
  {
    if size > 0 { RowSize(bucket, size - 1); }
  }

  lemma {:induction false} GridHolds(buckets: nat, size: nat)
    ensures forall s :: s in Grid(buckets, size) <==> s.bucket < buckets && s.pos < size
  {
    if buckets > 0 {
      GridHolds(buckets - 1, size);
      RowSize(buckets - 1, size);
    }
  }

  lemma GridStep(buckets: nat, size: nat)
    requires buckets > 0
    ensures |Grid(buckets, size)| == |Grid(buckets - 1, size)| + size
  {
    GridHolds(buckets - 1, size);
    RowSize(buckets - 1, size);
    assert Grid(buckets - 1, size) !! Row(buckets - 1, size);
  }

  lemma {:induction false} GridSize(buckets: nat, size: nat)
    ensures |Grid(buckets, size)| == buckets * size
  {
    if buckets > 0 {
      GridStep(buckets, size);
      hide Grid;
      GridSize(buckets - 1, size);
    }
  }

  lemma FullSubset(part: set<Slot>, whole: set<Slot>, s: Slot)
    requires part <= whole && |part| == |whole| && s in whole
    ensures s in part
  {
    assert |whole| == |part| + |whole - part|;
    assert |whole - part| == 0 ==> whole - part == {};
  }

  /** Where each entry says it stands in the random order. */
  ghost function ByPosition(t: Tables): Table {
    map s | s in Row(0, |t.random|) && s.pos < |t.random| && t.random[s.pos] in t.info && t.info[t.random[s.pos]].randomPos == s.pos
      :: t.random[s.pos]
  }

  /** As many entries as positions, each entry pointing at its own: then every position is pointed at. */
  lemma RandomFull(t: Tables, i: nat)
    requires EntriesPass(t) && |t.random| == |t.info.Keys| && i < |t.random|
    ensures PosOk(t, i)
  {
    var table := ByPosition(t);
    RowSize(0, |t.random|);
    hide Row;
    forall id | id in t.info.Keys ensures exists s :: s in table && table[s] == id {
      assert EntryPasses(t, id);
      var s := Slot(0, t.info[id].randomPos);
      assert s in table && table[s] == id;
    }
    OneToOne(table, t.info.Keys);
    FullSubset(table.Keys, Row(0, |t.random|), Slot(0, i));
    assert Slot(0, i) in table;
  }

  lemma CountsAgree(env: Env, t: Tables, net: Network)
    ensures Known(t.info, NewIds(t.info)) && Known(t.info, TriedIds(t.info))
    ensures LocalCount(env, t.info, t.info.Keys, net) ==
            Count(|OfNet(env, t.info, NewIds(t.info), net)|, |OfNet(env, t.info, TriedIds(t.info), net)|)
  {
    assert Among(env, t.info, t.info.Keys, net, false) == OfNet(env, t.info, NewIds(t.info), net);
    assert Among(env, t.info, t.info.Keys, net, true) == OfNet(env, t.info, TriedIds(t.info), net);
  }

  lemma EachNewOrTried(t: Tables)
    ensures |t.info.Keys| == |TriedIds(t.info)| + |NewIds(t.info)|
  {
    assert t.info.Keys == TriedIds(t.info) + NewIds(t.info);
  }

  /** Whatever passes, and is right where the check does not look, is consistent. */
  lemma PassingIsConsistent(env: Env, t: Tables)
    requires Passes(env, t, false) && Unchecked(env, t)
    ensures Consistent(env, t)
  {
    EachNewOrTried(t);
    PassingIndexed(env, t);
    PassingPlaced(env, t);
    PassingCounted(env, t);
    forall id | id in t.info
      ensures EntryOk(env, t.info[id]) && (!t.info[id].inTried ==> t.info[id].refCount >= 1)
    {
      assert EntryPasses(t, id);
    }
  }

  lemma PassingIndexed(env: Env, t: Tables)
    requires EntriesPass(t) && Unchecked(env, t) && |t.random| == |t.info.Keys|
    ensures Indexed(t)
  {
    forall id | id in t.info ensures IdOk(t, id) { assert EntryPasses(t, id); }
    forall i | 0 <= i < |t.random| ensures PosOk(t, i) { RandomFull(t, i); }
  }

  lemma PassingPlaced(env: Env, t: Tables)
    requires EntriesPass(t) && TriedPasses(env, t) && NewsPass(env, t) && Unchecked(env, t)
    ensures Placed(env, t)
  {
    forall s | s in t.news ensures NewSlotOk(env, t, s) { assert NewSlotPasses(env, t, s); }
    hide InBucket, TriedSlot;
    forall id | id in t.info ensures RefsOk(env, t, id) {
      if t.info[id].inTried {
        assert EntryPasses(t, id);
        assert SlotsOf(t.news, id) == {} by {
          forall s | s in t.news ensures t.news[s] != id { assert NewSlotOk(env, t, s); }
        }
        assert id in t.tried.Values;
        var s :| s in t.tried && t.tried[s] == id;
        assert TriedSlotOk(env, t, s);
      }
    }
  }

  lemma PassingCounted(env: Env, t: Tables)
    requires CountsPass(env, t) && Unchecked(env, t) && |TriedIds(t.info)| == t.nTried && |NewIds(t.info)| == t.nNew
    ensures Counted(env, t, NewIds(t.info), TriedIds(t.info))
  {
    forall net
      ensures CountAt(t.counts, net) ==
              Count(|OfNet(env, t.info, NewIds(t.info), net)|, |OfNet(env, t.info, TriedIds(t.info), net)|)
    {
      CountsAgree(env, t, net);
      if net !in t.counts {
        assert OfNet(env, t.info, NewIds(t.info), net) == {} && OfNet(env, t.info, TriedIds(t.info), net) == {};
      }
    }
  }

  lemma RandomSize(env: Env, t: Tables)
    requires Consistent(env, t)
    ensures |t.random| == |t.info.Keys|
  {
    hide Consistent, Distinct;
    RandomDistinct(env, t);
    DistinctSize(t.random);
    assert (set id | id in t.random) == t.info.Keys;
  }

  lemma ConsistentEntries(env: Env, t: Tables)
    requires Shaped(env, t) && forall id :: id in NewIds(t.info) ==> t.info[id].refCount >= 1
    ensures EntriesPass(t)
  {
    hide InBucket, TriedSlot, IdOk;
    forall id | id in t.info ensures EntryPasses(t, id) {
      assert EntryOk(env, t.info[id]);
      assert RefsOk(env, t, id);
      if t.info[id].inTried {
        assert SlotsOf(t.news, id) == {} by {
          forall s | s in t.news ensures t.news[s] != id { assert NewSlotOk(env, t, s); }
        }
      } else {
        assert id in NewIds(t.info);
      }
      IndexedAt(t, id);
      assert EntryPasses(t, id) by { EntryFits(env, t, id); }
    }
  }

  lemma EntryFits(env: Env, t: Tables, id: Id)
    requires id in t.info && IdOk(t, id) && EntryOk(env, t.info[id])
    requires if t.info[id].inTried then t.info[id].refCount == 0 else t.info[id].refCount >= 1
    ensures EntryPasses(t, id)
  {
  }

  lemma ConsistentSlots(env: Env, t: Tables)
    requires Placed(env, t)
    ensures TriedPasses(env, t) && NewsPass(env, t)
  {
    hide InBucket, TriedSlot;
    forall id | id in TriedIds(t.info) ensures id in t.tried.Values {
      assert RefsOk(env, t, id);
      assert TriedSlot(env, t.info[id].service) in t.tried;
    }
    forall s | s in t.news ensures NewSlotPasses(env, t, s) { assert NewSlotOk(env, t, s); }
    forall id | id in NewIds(t.info) ensures t.info[id].refCount == |SlotsOf(t.news, id)| { assert RefsOk(env, t, id); }
  }

  lemma ConsistentCounts(env: Env, t: Tables)
    requires Counted(env, t, NewIds(t.info), TriedIds(t.info))
    ensures CountsPass(env, t) && forall id :: id in t.info ==> env.network(t.info[id].service) in t.counts
  {
    forall net { CountsAgree(env, t, net); }
    var nets := NetworksOf(env, t.info, t.info.Keys);
    forall id | id in t.info ensures env.network(t.info[id].service) in t.counts {
      var net := env.network(t.info[id].service);
      assert id in OfNet(env, t.info, NewIds(t.info), net) || id in OfNet(env, t.info, TriedIds(t.info), net);
    }
    assert nets <= t.counts.Keys;
    assert |t.counts.Keys| == |nets| + |t.counts.Keys - nets|;
  }

  lemma ConsistentUnchecked(env: Env, t: Tables)
    requires Shaped(env, t) && forall id :: id in t.info ==> env.network(t.info[id].service) in t.counts
    ensures Unchecked(env, t)
  {
    hide InBucket, TriedSlot, RefsOk, TriedSlotOk;
    forall id | id in t.info ensures 0 <= id.n < t.idCount && env.routable(t.info[id].service) {
      assert IdOk(t, id) && EntryOk(env, t.info[id]);
    }
    forall s | s in t.news ensures s.bucket < env.newBuckets { assert NewSlotOk(env, t, s); }
  }

  /** A consistent manager passes, and is right where the check does not look. */
  lemma ConsistentPasses(env: Env, t: Tables)
    requires Consistent(env, t)
    ensures Passes(env, t, false) && Unchecked(env, t)
  {
    hide EntriesPass, TriedPasses, NewsPass, CountsPass, Unchecked, Counted, Indexed, Healthy, Placed;
    EachNewOrTried(t);
    RandomSize(env, t);
    ConsistentEntries(env, t);
    ConsistentSlots(env, t);
    ConsistentCounts(env, t);
    ConsistentUnchecked(env, t);
    assert |NewIds(t.info)| == t.nNew && |TriedIds(t.info)| == t.nTried by { CountedSizes(env, t, NewIds(t.info), TriedIds(t.info)); }
  }

  lemma CountedSizes(env: Env, t: Tables, news: set<Id>, trieds: set<Id>)
    requires Counted(env, t, news, trieds)
    ensures |news| == t.nNew && |trieds| == t.nTried
  {
  }

  // ------------------------------------------- each unchecked condition can be violated

  /** The check never compares ids with the counter they come from: a manager that would hand out an id
      again passes. */
  lemma StaleIdCountPasses(env: Env, t: Tables, id: Id)
    requires Passes(env, t, false) && id in t.info
    ensures var u := t.(idCount := 0);
            Passes(env, u, false) && !Consistent(env, u)
  {
    hide TriedPasses, NewsPass, EntriesPass, CountsPass, Placed, Counted, Healthy, Indexed;
    var u := t.(idCount := 0);
    SameButCounts(env, t, u);
    SameCounts(env, t, u);
    BadId(u, id);
  }

  lemma BadId(t: Tables, id: Id)
    requires id in t.info && t.idCount <= 0
    ensures !Indexed(t)
  {
    if Indexed(t) { IndexedAt(t, id); }
  }

  lemma BadAddr(t: Tables, s: Service)
    requires s in t.addr && !AddrOk(t, s)
    ensures !Indexed(t)
  {
  }

  lemma SameCounts(env: Env, t: Tables, u: Tables)
    requires CountsPass(env, t) && u.info == t.info && u.counts == t.counts
    ensures CountsPass(env, u)
  {
  }

  lemma SameSlots(env: Env, t: Tables, u: Tables)
    requires TriedPasses(env, t) && NewsPass(env, t) && u.info == t.info && u.tried == t.tried && u.news == t.news
    ensures TriedPasses(env, u) && NewsPass(env, u)
  {
    hide InBucket, TriedSlot;
    forall p | p in u.tried ensures TriedSlotOk(env, u, p) { assert TriedSlotOk(env, t, p); }
    forall p | p in u.news ensures NewSlotPasses(env, u, p) { assert NewSlotPasses(env, t, p); }
  }

  /** It looks up the address of every entry, not the entry of every address: an address that leads
      nowhere, or to the entry of another address, passes. */
  lemma StrayAddressPasses(env: Env, t: Tables, s: Service, id: Id)
    requires Passes(env, t, false) && s !in t.addr
    ensures var u := t.(addr := t.addr[s := id]);
            Passes(env, u, false) && !Consistent(env, u)
  {
    hide TriedPasses, NewsPass, CountsPass, Placed, Counted, Healthy, Indexed;
    var u := t.(addr := t.addr[s := id]);
    forall k | k in u.info ensures EntryPasses(u, k) { assert EntryPasses(t, k); }
    SameSlots(env, t, u);
    SameCounts(env, t, u);
    assert id in t.info ==> EntryPasses(t, id);
    BadAddr(u, s);
  }

  /** It relies on the new table having no buckets beyond its size, which in the source is a fixed array. */
  lemma OutsideBucketPasses(env: Env, t: Tables, id: Id, bucket: nat)
    requires Passes(env, t, false) && id in t.info && !t.info[id].inTried && t.info[id].refCount < NEW_BUCKETS_PER_ADDRESS
    requires bucket >= env.newBuckets && InBucket(env, t.info[id].service, bucket) !in t.news
    ensures var u := Link(t, InBucket(env, t.info[id].service, bucket), id);
            Passes(env, u, false) && !Consistent(env, u)
  {
    hide TriedPasses, NewsPass, CountsPass, Counted, Healthy, Indexed, Placed, TriedIds, NewIds;
    var slot := InBucket(env, t.info[id].service, bucket);
    var u := Link(t, slot, id);
    forall k | k in u.info ensures EntryPasses(u, k) { assert EntryPasses(t, k); }
    LinkedTables(env, t, slot, id);
    LinkedCounts(env, t, slot, id);
    BadSlot(env, u, slot);
  }

  lemma BadSlot(env: Env, t: Tables, s: Slot)
    requires s in t.news && s.bucket >= env.newBuckets
    ensures !Placed(env, t)
  {
    if Placed(env, t) { SlotInTable(env, t, s); }
  }

  lemma SlotInTable(env: Env, t: Tables, s: Slot)
    requires Placed(env, t) && s in t.news
    ensures s.bucket < env.newBuckets
  {
    assert NewSlotOk(env, t, s);
  }

  lemma LinkedTables(env: Env, t: Tables, slot: Slot, id: Id)
    requires TriedPasses(env, t) && NewsPass(env, t) && id in t.info && !t.info[id].inTried && slot !in t.news
    requires slot == InBucket(env, t.info[id].service, slot.bucket)
    ensures TriedPasses(env, Link(t, slot, id)) && NewsPass(env, Link(t, slot, id))
    ensures TriedIds(Link(t, slot, id).info) == TriedIds(t.info) && NewIds(Link(t, slot, id).info) == NewIds(t.info)
  {
    hide InBucket, TriedSlot, SlotsOf;
    var u := Link(t, slot, id);
    assert TriedIds(u.info) == TriedIds(t.info) && NewIds(u.info) == NewIds(t.info);
    assert TriedPasses(env, u) by {
      forall p | p in u.tried ensures TriedSlotOk(env, u, p) { assert TriedSlotOk(env, t, p); }
    }
    assert NewsPass(env, u) by {
      forall p | p in u.news ensures NewSlotPasses(env, u, p) { if p != slot { assert NewSlotPasses(env, t, p); } }
      forall k | k in NewIds(u.info) ensures u.info[k].refCount == |SlotsOf(u.news, k)| {
        assert k in NewIds(t.info);
        SlotsLinked(t.news, slot, id, k);
      }
    }
  }

  lemma LinkedCounts(env: Env, t: Tables, slot: Slot, id: Id)
    requires CountsPass(env, t) && id in t.info
    ensures CountsPass(env, Link(t, slot, id))
  {
    var u := Link(t, slot, id);
    assert u.info.Keys == t.info.Keys;
    assert NetworksOf(env, u.info, u.info.Keys) == NetworksOf(env, t.info, t.info.Keys);
    forall net ensures LocalCount(env, u.info, u.info.Keys, net) == LocalCount(env, t.info, t.info.Keys, net) {
      assert Among(env, u.info, u.info.Keys, net, false) == Among(env, t.info, t.info.Keys, net, false);
      assert Among(env, u.info, u.info.Keys, net, true) == Among(env, t.info, t.info.Keys, net, true);
    }
  }

  /** It never asks whether an address is routable, which AddSingle demands of every address it takes. */
  lemma UnroutablePasses(env: Env, t: Tables, id: Id)
    requires Passes(env, t, false) && id in t.info
    ensures var unroutable := env.(routable := _ => false);
            Passes(unroutable, t, false) && !Consistent(unroutable, t)
  {
    hide Placed, Counted, Indexed, EntriesPass, TriedPasses, NewsPass, CountsPass, Healthy;
    var e := env.(routable := _ => false);
    UnroutableTables(env, e, t);
    UnroutableCounts(env, e, t);
    BadEntry(e, t, id);
  }

  lemma BadEntry(env: Env, t: Tables, id: Id)
    requires id in t.info && !env.routable(t.info[id].service)
    ensures !Healthy(env, t)
  {
    if Healthy(env, t) { HealthyAt(env, t, id); }
  }

  lemma UnroutableTables(env: Env, e: Env, t: Tables)
    requires TriedPasses(env, t) && NewsPass(env, t) && e == env.(routable := e.routable)
    ensures TriedPasses(e, t) && NewsPass(e, t)
  {
    forall p | p in t.tried ensures TriedSlotOk(e, t, p) { assert TriedSlotOk(env, t, p); }
    forall p | p in t.news ensures NewSlotPasses(e, t, p) { assert NewSlotPasses(env, t, p); }
  }

  lemma UnroutableCounts(env: Env, e: Env, t: Tables)
    requires CountsPass(env, t) && e == env.(routable := e.routable)
    ensures CountsPass(e, t)
  {
    assert NetworksOf(e, t.info, t.info.Keys) == NetworksOf(env, t.info, t.info.Keys);
    forall net ensures LocalCount(e, t.info, t.info.Keys, net) == LocalCount(env, t.info, t.info.Keys, net) {
      assert Among(e, t.info, t.info.Keys, net, false) == Among(env, t.info, t.info.Keys, net, false);
      assert Among(e, t.info, t.info.Keys, net, true) == Among(env, t.info, t.info.Keys, net, true);
    }
  }

  /** The per-network test compares table sizes and then only the networks that were counted, so an
      all-zero counter can stand in for a missing one: entries of an uncounted network go unnoticed. */
  lemma UncountedNetworkPasses(env: Env, t: Tables, net: Network, other: Network)
    requires Passes(env, t, false) && NetworksOf(env, t.info, t.info.Keys) == {net} && other != net
    ensures var u := t.(counts := map[other := Count(0, 0)]);
            Passes(env, u, false) && !Counted(env, u, NewIds(u.info), TriedIds(u.info))
  {
    hide EntriesPass, TriedPasses, NewsPass, NetworksOf, Among;
    var u := t.(counts := map[other := Count(0, 0)]);
    SameButCounts(env, t, u);
    OtherNetwork(env, t.info, net, other);
    assert CountsPass(env, u);
    CountsAgree(env, u, net);
  }

  lemma OtherNetwork(env: Env, info: Infos, net: Network, other: Network)
    requires NetworksOf(env, info, info.Keys) == {net} && other != net
    ensures LocalCount(env, info, info.Keys, other) == Count(0, 0) && LocalCount(env, info, info.Keys, net) != Count(0, 0)
  {
    forall id | id in info ensures env.network(info[id].service) == net {
      assert env.network(info[id].service) in NetworksOf(env, info, info.Keys);
    }
    assert Among(env, info, info.Keys, other, false) == {} && Among(env, info, info.Keys, other, true) == {};
    assert net in NetworksOf(env, info, info.Keys);
    var id :| id in info && env.network(info[id].service) == net;
    assert id in Among(env, info, info.Keys, net, info[id].inTried);
  }

  lemma SameButCounts(env: Env, t: Tables, u: Tables)
    requires u == t.(counts := u.counts, idCount := u.idCount) && EntriesPass(t) && TriedPasses(env, t) && NewsPass(env, t)
    ensures EntriesPass(u) && TriedPasses(env, u) && NewsPass(env, u)
  {
    forall id | id in u.info ensures EntryPasses(u, id) { assert EntryPasses(t, id); }
    forall s | s in u.tried ensures TriedSlotOk(env, u, s) { assert TriedSlotOk(env, t, s); }
    forall s | s in u.news ensures NewSlotPasses(env, u, s) { assert NewSlotPasses(env, t, s); }
  }
}
