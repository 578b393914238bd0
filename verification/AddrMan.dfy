/** AddrManImpl in place (src/addrman.cpp): the five indexes, the counters and the
    collision set are fields that the methods rewrite. Each table update is proved to
    perform the function of AddrTables.dfy, and each public operation to keep the
    invariant that CheckAddrman checks, whatever the clock and the random numbers. */
module AddrMan {
  import opened Wrappers
  import opened Sequences
  import opened AddrTables

  const TRIED_COLLISION_SIZE := 10
  const MINUTE := 60
  const HOUR := 3600
  const DAY := 86400
  const HORIZON := 30 * DAY
  const RETRIES := 3
  const MAX_FAILURES := 10
  const MIN_FAIL := 7 * DAY
  const REPLACEMENT := 4 * HOUR
  const TEST_WINDOW := 40 * MINUTE

  /** AddrInfo::IsTerrible. */
  predicate IsTerrible(a: AddrInfo, now: int) {
    if now - a.lastTry <= MINUTE then false
    else
      || a.time > now + 10 * MINUTE
      || now - a.time > HORIZON
      || (a.lastSuccess == 0 && a.attempts >= RETRIES)
      || (now - a.lastSuccess > MIN_FAIL && a.attempts >= MAX_FAILURES)
  }

  /** A pending collision waits for an occupied tried position, as long as its entry lives. */
  ghost predicate CollisionOk(env: Env, t: Tables, id: Id) {
    id.n < t.idCount && (id in t.info ==> TriedSlot(env, t.info[id].service) in t.tried)
  }

  ghost predicate CollisionsOk(env: Env, t: Tables, ids: set<Id>) {
    |ids| <= TRIED_COLLISION_SIZE && forall id :: id in ids ==> CollisionOk(env, t, id)
  }

  lemma CollisionsKept(env: Env, t: Tables, u: Tables, ids: set<Id>)
    requires CollisionsOk(env, t, ids) && Grows(t, u)
    ensures CollisionsOk(env, u, ids)
  {
    hide TriedSlot;
    forall id | id in ids ensures CollisionOk(env, u, id) {
      assert CollisionOk(env, t, id);
    }
  }

  class AddrMan {
    const env: Env

    var nIdCount: int
    var mapInfo: Infos
    var mapAddr: map<Service, Id>
    var vRandom: seq<Id>
    var nTried: int
    var vvTried: Table
    var nNew: int
    var vvNew: Table
    var networkCounts: Counts
    var lastGood: int
    var triedCollisions: set<Id>

    ghost function Tables(): Tables
      reads this
    {
      AddrTables.Tables(nIdCount, mapInfo, mapAddr, vRandom, nTried, nNew, vvNew, vvTried, networkCounts)
    }

    ghost predicate Valid()
      reads this
    {
      EnvOk(env) && Consistent(env, Tables()) && CollisionsOk(env, Tables(), triedCollisions)
    }

    constructor (env: Env)
      requires EnvOk(env)
      ensures Valid() && Tables() == EMPTY && triedCollisions == {} && this.env == env
    {
      this.env := env;
      nIdCount, mapInfo, mapAddr, vRandom := 0, map[], map[], [];
      nTried, vvTried, nNew, vvNew, networkCounts := 0, map[], 0, map[], map[];
      lastGood, triedCollisions := 1, {};
    }

    // -------------------------------------------------------------- table updates

    method Create(a: AddrInfo) returns (id: Id)
      modifies this
      ensures Tables() == AddrTables.Create(env, old(Tables()), a) && id == NextId(old(Tables()))
      ensures lastGood == old(lastGood) && triedCollisions == old(triedCollisions)
    {
      id := Id(nIdCount);
      nIdCount := nIdCount + 1;
      mapInfo := mapInfo[id := a.(randomPos := |vRandom|)];
      mapAddr := mapAddr[a.service := id];
      vRandom := vRandom + [id];
      nNew := nNew + 1;
      networkCounts := Bump(networkCounts, env.network(a.service), 1, 0);
    }

    method SwapRandom(i: nat, j: nat)
      requires i < |vRandom| && j < |vRandom| && vRandom[i] in mapInfo && vRandom[j] in mapInfo
      modifies this`mapInfo, this`vRandom
      ensures Tables() == AddrTables.SwapRandom(old(Tables()), i, j)
    {
      if i == j {
        return;
      }
      var a, b := vRandom[i], vRandom[j];
      mapInfo := mapInfo[a := mapInfo[a].(randomPos := j)];
      mapInfo := mapInfo[b := mapInfo[b].(randomPos := i)];
      vRandom := vRandom[i := b];
      vRandom := vRandom[j := a];
    }

    method Delete(id: Id)
      requires CanDelete(Tables(), id) && !mapInfo[id].inTried && mapInfo[id].refCount == 0
      modifies this
      ensures Tables() == AddrTables.Delete(env, old(Tables()), id)
      ensures lastGood == old(lastGood) && triedCollisions == old(triedCollisions)
    {
      hide AddrTables.SwapRandom;
      SwapOrder(Tables(), mapInfo[id].randomPos, |vRandom| - 1);
      SwapRandom(mapInfo[id].randomPos, |vRandom| - 1);
      DropLast(id);
    }

    /** The rest of Delete, once the entry is last in the random order. */
    method DropLast(id: Id)
      requires id in mapInfo && vRandom != []
      modifies this
      ensures Tables() == AddrTables.DropLast(env, old(Tables()), id)
      ensures lastGood == old(lastGood) && triedCollisions == old(triedCollisions)
    {
      var service := mapInfo[id].service;
      networkCounts := Bump(networkCounts, env.network(service), -1, 0);
      vRandom := vRandom[..|vRandom| - 1];
      mapAddr := mapAddr - {service};
      mapInfo := mapInfo - {id};
      nNew := nNew - 1;
    }

    method ClearNew(slot: Slot)
      requires CanClear(Tables(), slot)
      requires slot in vvNew ==> mapInfo[vvNew[slot]].refCount > 0 && !mapInfo[vvNew[slot]].inTried
      modifies this
      ensures Tables() == AddrTables.ClearNew(env, old(Tables()), slot)
      ensures lastGood == old(lastGood) && triedCollisions == old(triedCollisions)
    {
      if slot in vvNew {
        var id := vvNew[slot];
        mapInfo := mapInfo[id := mapInfo[id].(refCount := mapInfo[id].refCount - 1)];
        vvNew := vvNew - {slot};
        assert Tables() == Unlink(old(Tables()), slot);
        if mapInfo[id].refCount == 0 {
          Delete(id);
        }
      }
    }

    /** The first loop of MakeTried: visits the new buckets, starting at the entry's own, and stops
        as soon as all references are gone. */
    method ClearAllNew(id: Id)
      requires EnvOk(env) && Placed(env, Tables()) && id in mapInfo
      requires !mapInfo[id].inTried && mapInfo[id].refCount >= 1
      modifies this`mapInfo, this`vvNew
      ensures Tables() == Unreffed(old(Tables()), id)
    {
      hide Placed, EnvOk, InBucket, SlotsOf, Freed, Visited, Unreffed;
      ghost var start := Tables();
      var service := mapInfo[id].service;
      var first := env.newBucket(service, mapInfo[id].source);
      BucketBound(env, service, mapInfo[id].source);
      ghost var freed: set<Slot> := {};
      NothingFreed(start, id);
      var n := 0;
      while n < env.newBuckets
        invariant n <= env.newBuckets
        invariant Freed(start, Tables(), id, freed)
        invariant id in mapInfo && mapInfo[id].service == service && mapInfo[id].refCount >= 1
        invariant forall m :: 0 <= m < n ==> Visited(env, start, id, freed, first, m)
      {
        var bucket := (first + n) % env.newBuckets;
        var slot := InBucket(env, service, bucket);
        VisitOne(env, start, Tables(), id, freed, first, n);
        if slot in vvNew && vvNew[slot] == id {
          FreeOne(start, Tables(), id, freed, slot);
          vvNew := vvNew - {slot};
          mapInfo := mapInfo[id := mapInfo[id].(refCount := mapInfo[id].refCount - 1)];
          StillVisited(env, start, id, freed, slot, first, n);
          freed := freed + {slot};
          if mapInfo[id].refCount == 0 {
            AllFreed(env, start, Tables(), id, freed);
            return;
          }
        }
        n := n + 1;
      }
      AllVisited(env, start, Tables(), id, freed, first);
      AllFreed(env, start, Tables(), id, freed);
    }

    /** The eviction in MakeTried: the occupant of a tried position goes back to the new table. */
    method EvictTried(slot: Slot)
      requires CanEvict(env, Tables(), slot)
      requires var home := Home(env, Tables(), slot);
               home in vvNew ==> vvNew[home] in mapInfo && vvNew[home] != vvTried[slot]
                                 && mapInfo[vvNew[home]].refCount > 0 && !mapInfo[vvNew[home]].inTried
      modifies this
      ensures Tables() == Evict(env, old(Tables()), slot)
      ensures lastGood == old(lastGood) && triedCollisions == old(triedCollisions)
    {
      hide AddrTables.ClearNew, NewSlot, CanClear, Demote, Reenter;
      DemoteKeepsInfo(env, Tables(), slot);
      var id := DemoteTried(slot);
      var home := NewSlot(env, mapInfo[id].service, mapInfo[id].source);
      ClearNew(home);
      ReenterNew(id, home);
    }

    /** Eviction, first half: the occupant leaves the tried table. */
    method DemoteTried(slot: Slot) returns (id: Id)
      requires slot in vvTried && vvTried[slot] in mapInfo
      modifies this
      ensures id == old(vvTried)[slot] && Tables() == Demote(env, old(Tables()), slot)
      ensures lastGood == old(lastGood) && triedCollisions == old(triedCollisions)
    {
      id := vvTried[slot];
      mapInfo := mapInfo[id := mapInfo[id].(inTried := false)];
      vvTried := vvTried - {slot};
      nTried := nTried - 1;
      networkCounts := Bump(networkCounts, env.network(mapInfo[id].service), 0, -1);
    }

    /** Second half: it takes a position of the new table. */
    method ReenterNew(id: Id, home: Slot)
      requires id in mapInfo
      modifies this
      ensures Tables() == Reenter(env, old(Tables()), id, home)
      ensures lastGood == old(lastGood) && triedCollisions == old(triedCollisions)
    {
      networkCounts := Bump(networkCounts, env.network(mapInfo[id].service), 1, 0);
      mapInfo := mapInfo[id := mapInfo[id].(refCount := 1)];
      vvNew := vvNew[home := id];
      nNew := nNew + 1;
    }

    /** The start of MakeTried: the entry leaves the new table and its counters. */
    method Withdraw(id: Id)
      requires EnvOk(env) && Placed(env, Tables()) && id in mapInfo
      requires !mapInfo[id].inTried && mapInfo[id].refCount >= 1
      modifies this
      ensures Tables() == Withdrawn(env, old(Tables()), id)
      ensures lastGood == old(lastGood) && triedCollisions == old(triedCollisions)
    {
      hide EnvOk, Unreffed, Placed;
      var service := mapInfo[id].service;
      ClearAllNew(id);
      nNew := nNew - 1;
      networkCounts := Bump(networkCounts, env.network(service), -1, 0);
    }

    /** The end of MakeTried: the entry takes its tried position. */
    method EnterTried(id: Id, slot: Slot)
      requires id in mapInfo
      modifies this
      ensures Tables() == Promote(env, old(Tables()), id, slot)
      ensures lastGood == old(lastGood) && triedCollisions == old(triedCollisions)
    {
      vvTried := vvTried[slot := id];
      nTried := nTried + 1;
      networkCounts := Bump(networkCounts, env.network(mapInfo[id].service), 0, 1);
      mapInfo := mapInfo[id := mapInfo[id].(inTried := true)];
    }

    /** MakeTried: moves an entry from the new table to the tried table. */
    method MakeTried(id: Id)
      requires EnvOk(env) && Consistent(env, Tables())
      requires id in mapInfo && !mapInfo[id].inTried && mapInfo[id].lastSuccess > 0
      modifies this
      ensures CanMakeTried(env, old(Tables()), id) && Tables() == AddrTables.MakeTried(env, old(Tables()), id)
      ensures lastGood == old(lastGood) && triedCollisions == old(triedCollisions)
    {
      hide Consistent, EnvOk, Withdrawn, Promote, Evict, CanEvict, TriedSlot, Home, Placed;
      MakeTriedKeeps(env, Tables(), id);
      MakeTriedReady(env, Tables(), id);
      var slot := TriedSlot(env, mapInfo[id].service);
      Withdraw(id);
      if slot in vvTried {
        EvictTried(slot);
      }
      EnterTried(id, slot);
    }

    // ----------------------------------------------------------- public operations

    /** Find: the id of an address, through the address index and the info map. */
    method Find(addr: Service) returns (id: Option<Id>)
      requires Valid()
      ensures id == if addr in mapAddr then Some(mapAddr[addr]) else None
      ensures id.Some? ==> id.value in mapInfo && mapInfo[id.value].service == addr && EntryOk(env, mapInfo[id.value])
    {
      if addr in mapAddr {
        FoundOk(env, Tables(), addr);
        return Some(mapAddr[addr]);
      }
      return None;
    }

    /** Changes the statistics of an entry, not its place. */
    method SetStats(id: Id, a: AddrInfo)
      requires Valid() && id in mapInfo && EntryOk(env, a)
      requires a.service == mapInfo[id].service && a.inTried == mapInfo[id].inTried
      requires a.refCount == mapInfo[id].refCount && a.randomPos == mapInfo[id].randomPos
      modifies this`mapInfo
      ensures Valid() && Tables() == SetInfo(old(Tables()), id, a) && Grows(old(Tables()), Tables())
    {
      hide Consistent, EnvOk, EntryOk, CollisionsOk, Grows;
      StatsKeep(env, Tables(), id, a);
      CollisionsKept(env, Tables(), SetInfo(Tables(), id, a), triedCollisions);
      mapInfo := mapInfo[id := a];
    }

    /** Attempt_: a failure is counted at most once since the last success anywhere. */
    method Attempt(addr: Service, countFailure: bool, time: int)
      requires Valid() && time >= 0
      modifies this`mapInfo
      ensures Valid() && Grows(old(Tables()), Tables())
      ensures OnlyStats(old(mapInfo), mapInfo, if addr in mapAddr then Some(mapAddr[addr]) else None)
      ensures addr in mapAddr && mapAddr[addr] in old(mapInfo) ==>
                var a := old(mapInfo)[mapAddr[addr]];
                var counted := countFailure && a.lastCountAttempt < lastGood;
                mapInfo[mapAddr[addr]] == a.(lastTry := time,
                                             lastCountAttempt := if counted then time else a.lastCountAttempt,
                                             attempts := a.attempts + if counted then 1 else 0)
    {
      hide Consistent, EnvOk, CollisionsOk, Grows;
      SameGrows(Tables());
      var found := Find(addr);
      if found.Some? {
        var id := found.value;
        var a := mapInfo[id].(lastTry := time);
        if countFailure && a.lastCountAttempt < lastGood {
          a := a.(lastCountAttempt := time, attempts := a.attempts + 1);
        }
        SetStats(id, a);
      }
    }

    /** Connected_. */
    method Connected(addr: Service, time: int)
      requires Valid() && time >= 0
      modifies this`mapInfo
      ensures Valid() && Grows(old(Tables()), Tables())
      ensures OnlyStats(old(mapInfo), mapInfo, if addr in mapAddr then Some(mapAddr[addr]) else None)
      ensures addr in mapAddr && mapAddr[addr] in old(mapInfo) ==>
                var a := old(mapInfo)[mapAddr[addr]];
                mapInfo[mapAddr[addr]] == a.(time := if time - a.time > 20 * MINUTE then time else a.time)
    {
      hide Consistent, EnvOk, CollisionsOk, Grows;
      SameGrows(Tables());
      var found := Find(addr);
      if found.Some? {
        var id := found.value;
        if time - mapInfo[id].time > 20 * MINUTE {
          SetStats(id, mapInfo[id].(time := time));
        }
      }
    }

    /** SetServices_. */
    method SetServices(addr: Service, services: set<nat>)
      requires Valid()
      modifies this`mapInfo
      ensures Valid() && Grows(old(Tables()), Tables())
      ensures OnlyStats(old(mapInfo), mapInfo, if addr in mapAddr then Some(mapAddr[addr]) else None)
      ensures addr in mapAddr && mapAddr[addr] in old(mapInfo) ==>
                mapInfo[mapAddr[addr]] == old(mapInfo)[mapAddr[addr]].(services := services)
    {
      hide Consistent, EnvOk, CollisionsOk, Grows;
      SameGrows(Tables());
      var found := Find(addr);
      if found.Some? {
        SetStats(found.value, mapInfo[found.value].(services := services));
      }
    }

    /** Good_: a connection succeeded. The entry moves to the tried table unless it is there already,
        or its position is taken and the occupant is to be tested first; then it joins the pending
        collisions, if there is room. */
    method Good(addr: Service, testBeforeEvict: bool, time: int) returns (moved: bool)
      requires Valid() && time > 0
      modifies this
      ensures Valid() && Grows(old(Tables()), Tables()) && lastGood == time
      ensures moved <==> addr in old(mapAddr) && var id := old(mapAddr)[addr];
                         id in old(mapInfo) && !old(mapInfo)[id].inTried
                         && (!testBeforeEvict || TriedSlot(env, addr) !in old(vvTried))
      ensures moved ==> InTriedSlot(env, Tables(), old(mapAddr)[addr])
      ensures Tables() == AfterGood(env, old(Tables()), addr, testBeforeEvict, time)
      ensures addr !in old(mapAddr) ==> Tables() == old(Tables())
      ensures addr in old(mapAddr) && old(mapAddr)[addr] in old(mapInfo) ==> var id := old(mapAddr)[addr];
                && id in mapInfo && mapInfo[id].lastSuccess == mapInfo[id].lastTry == time && mapInfo[id].attempts == 0
                && mapInfo[id].time == old(mapInfo)[id].time
                && (!moved ==> OnlyStats(old(mapInfo), mapInfo, Some(id)) && vvNew == old(vvNew) && vvTried == old(vvTried))
      ensures triedCollisions == old(triedCollisions) +
                if !moved && addr in old(mapAddr) && old(mapAddr)[addr] in old(mapInfo) && !old(mapInfo)[old(mapAddr)[addr]].inTried
                   && |old(triedCollisions)| < TRIED_COLLISION_SIZE
                then {old(mapAddr)[addr]} else {}
    {
      hide Consistent, EnvOk, CollisionsOk, Grows, TriedSlot, AddrTables.MakeTried, CanMakeTried;
      lastGood := time;
      moved := false;
      SameGrows(Tables());
      var found := Find(addr);
      if found.Some? {
        var id := found.value;
        SetStats(id, mapInfo[id].(lastSuccess := time, lastTry := time, attempts := 0));
        if !mapInfo[id].inTried {
          var slot := TriedSlot(env, addr);
          if testBeforeEvict && slot in vvTried {
            if |triedCollisions| < TRIED_COLLISION_SIZE {
              CollisionAdded(env, Tables(), triedCollisions, id);
              triedCollisions := triedCollisions + {id};
            }
          } else {
            ghost var before := Tables();
            MakeTriedKeeps(env, before, id);
            MakeTried(id);
            TriedHolder(env, Tables(), slot);
            CollisionsKept(env, before, Tables(), triedCollisions);
            GrowsTrans(old(Tables()), before, Tables());
            moved := true;
          }
        }
      }
    }

    /** The end of AddSingle: the entry gets the position if it is free or its holder can be
        overwritten; an entry that ends up with no position is deleted. */
    method PlaceNew(id: Id, slot: Slot, now: int) returns (inserted: bool)
      requires EnvOk(env) && ConsistentBut(env, Tables(), {id}) && id in mapInfo
      requires !mapInfo[id].inTried && mapInfo[id].refCount < NEW_BUCKETS_PER_ADDRESS
      requires slot == InBucket(env, mapInfo[id].service, slot.bucket) && slot.bucket < env.newBuckets
      modifies this
      ensures Consistent(env, Tables()) && Retains(old(mapInfo), mapInfo)
      ensures vvTried == old(vvTried) && nIdCount == old(nIdCount)
      ensures lastGood == old(lastGood) && triedCollisions == old(triedCollisions)
      ensures inserted ==> id in mapInfo && slot in vvNew && vvNew[slot] == id
      ensures inserted <==> Yields(old(Tables()), slot, id, now)
      ensures Tables() == AfterPlacing(env, old(Tables()), slot, id, now)
      ensures OnlyTouches(old(mapInfo), mapInfo, (if inserted then Victim(old(Tables()), slot) else {}) + {id})
      ensures inserted ==> SamePlace(old(mapInfo)[id].(refCount := old(mapInfo)[id].refCount + 1), mapInfo[id])
      ensures !inserted && old(mapInfo)[id].refCount > 0 ==> id in mapInfo && mapInfo[id] == old(mapInfo)[id]
    {
      hide EnvOk, AddrTables.ClearNew, AddrTables.Delete, InBucket, Shaped, Counted, IsTerrible;
      inserted := slot !in vvNew;
      if slot in vvNew {
        HolderOk(env, Tables(), slot);
      }
      if slot in vvNew && vvNew[slot] == id {
        return;
      }
      if !inserted {
        var holder := mapInfo[vvNew[slot]];
        inserted := IsTerrible(holder, now) || (holder.refCount > 1 && mapInfo[id].refCount == 0);
      }
      if inserted {
        InsertKeeps(env, Tables(), id, slot);
        InsertTouches(env, Tables(), id, slot);
        ClearNew(slot);
        mapInfo := mapInfo[id := mapInfo[id].(refCount := mapInfo[id].refCount + 1)];
        vvNew := vvNew[slot := id];
      } else if mapInfo[id].refCount == 0 {
        DeleteLoose(env, Tables(), id);
        Delete(id);
      } else {
        RefsNonNegative(env, Tables(), id);
      }
    }

    /** The part of AddSingle for a known address: refreshes time and services, then decides whether
        a further reference is worth trying. */
    method Refresh(id: Id, time: int, services: set<nat>, penalty: int, now: int, lucky: bool) returns (proceed: bool)
      requires Valid() && id in mapInfo && EntryOk(env, mapInfo[id])
      modifies this`mapInfo
      ensures Valid() && Grows(old(Tables()), Tables()) && OnlyStats(old(mapInfo), mapInfo, Some(id))
      ensures mapInfo == old(mapInfo)[id := Refreshed(old(mapInfo)[id], time, services, penalty, now)]
      ensures proceed <==> Proceeds(mapInfo[id], time, lucky)
    {
      hide EnvOk, Consistent, CollisionsOk, Grows;
      var updateInterval := if now - time < DAY then HOUR else DAY;
      var a := mapInfo[id];
      if a.time < time - updateInterval - penalty {
        a := a.(time := if time - penalty > 0 then time - penalty else 0);
      }
      a := a.(services := a.services + services);
      SetStats(id, a);
      proceed := !(time <= a.time || a.inTried || a.refCount == NEW_BUCKETS_PER_ADDRESS || (a.refCount > 0 && !lucky));
    }

    /** AddSingle: learns an address from a source. `lucky` is the outcome of the random test that
        makes further references ever less likely. */
    method AddSingle(addr: Service, time: int, services: set<nat>, source: NetAddr, timePenalty: int, now: int, lucky: bool)
      returns (added: bool)
      requires Valid()
      modifies this
      ensures Valid() && Grows(old(Tables()), Tables())
      ensures !env.routable(addr) ==> !added && Tables() == old(Tables())
      ensures added <==> Admits(env, old(Tables()), addr, time, source, timePenalty, now, lucky)
      ensures added ==> addr in mapAddr && NewSlot(env, addr, source) in vvNew && vvNew[NewSlot(env, addr, source)] == mapAddr[addr]
      ensures forall s :: s in mapAddr ==> s == addr || s in old(mapAddr)
      ensures Tables() == AfterAdding(env, old(Tables()), addr, time, services, source, timePenalty, now, lucky)
      // An address that was unknown and gets a position starts with what was announced and no history.
      ensures added && addr !in old(mapAddr) ==>
                && mapAddr[addr] in mapInfo
                && var a, heard := mapInfo[mapAddr[addr]], time - if addr.addr == source then 0 else timePenalty;
                   && a.service == addr && a.services == services && a.source == source && a.time == (if heard > 0 then heard else 0)
                   && a.lastTry == 0 && a.lastCountAttempt == 0 && a.lastSuccess == 0 && a.attempts == 0
                   && a.refCount == 1 && !a.inTried
      // A known one gains services, at most moves its time, and counts a position it gets.
      ensures env.routable(addr) && addr in old(mapAddr) ==>
                && old(mapAddr)[addr] in old(mapInfo) && old(mapAddr)[addr] in mapInfo
                && var a, b := old(mapInfo)[old(mapAddr)[addr]], mapInfo[old(mapAddr)[addr]];
                   var penalty := if addr.addr == source then 0 else timePenalty;
                   var stale := a.time < time - (if now - time < 86400 then 3600 else 86400) - penalty;
                   b == a.(services := a.services + services,
                           time := if !stale then a.time else if time - penalty > 0 then time - penalty else 0,
                           refCount := a.refCount + (if added then 1 else 0), randomPos := b.randomPos)
      // No other entry changes but the holder that has to give up the position.
      ensures forall k :: k in old(mapInfo) && (addr in old(mapAddr) ==> k != old(mapAddr)[addr])
                          && !(added && NewSlot(env, addr, source) in old(vvNew) && old(vvNew)[NewSlot(env, addr, source)] == k) ==>
                            k in mapInfo && SamePlace(old(mapInfo)[k], mapInfo[k])
      ensures lastGood == old(lastGood) && triedCollisions == old(triedCollisions)
    {
      hide EnvOk, Consistent, ConsistentBut, CollisionsOk, Grows, NewSlot, InBucket, IsTerrible, Retains, Enters, Admits, AfterPlacing, AfterPreparing, Candidate;
      SameGrows(Tables());
      if !env.routable(addr) {
        NotRoutable(env, Tables(), addr, time, source, timePenalty, now, lucky);
        return false;
      }
      var id := Prepare(addr, time, services, source, timePenalty, now, lucky);
      if id.None? {
        return false;
      }
      ghost var placed := Tables();
      HomeFits(env, addr, source);
      added := PlaceNew(id.value, NewSlot(env, addr, source), now);
      PlacedGrows(env, old(Tables()), placed, Tables(), id.value, addr);
      CollisionsKept(env, old(Tables()), Tables(), triedCollisions);
    }

    /** AddSingle up to the choice of a position: finds and refreshes the entry, or creates it. */
    method Prepare(addr: Service, time: int, services: set<nat>, source: NetAddr, timePenalty: int, now: int, lucky: bool)
      returns (id: Option<Id>)
      requires Valid() && env.routable(addr)
      modifies this
      ensures lastGood == old(lastGood) && triedCollisions == old(triedCollisions)
      ensures id.None? ==> Valid() && Grows(old(Tables()), Tables()) && mapAddr == old(mapAddr)
      ensures id.None? ==> !Admits(env, old(Tables()), addr, time, source, timePenalty, now, lucky)
      ensures Tables() == AfterPreparing(env, old(Tables()), addr, time, services, source, timePenalty, now)
      ensures id == Candidate(old(Tables()), addr, time, services, source, timePenalty, now, lucky)
      ensures vvNew == old(vvNew) && forall k :: k in old(mapInfo) && (addr in old(mapAddr) ==> k != old(mapAddr)[addr]) ==> k in mapInfo && mapInfo[k] == old(mapInfo)[k]
      ensures addr !in old(mapAddr) ==>
                id.Some? && id.value !in old(mapInfo) && id.value in mapInfo && mapInfo[id.value] == NewInfo(addr, time, services, source, PenaltyFor(addr, source, timePenalty)).(randomPos := mapInfo[id.value].randomPos)
      ensures addr in old(mapAddr) ==>
                && old(mapAddr)[addr] in old(mapInfo) && old(mapAddr)[addr] in mapInfo
                && (id.Some? ==> id.value == old(mapAddr)[addr] && mapInfo[id.value].refCount > 0)
                && mapInfo[old(mapAddr)[addr]] == Refreshed(old(mapInfo)[old(mapAddr)[addr]], time, services, PenaltyFor(addr, source, timePenalty), now)
      ensures id.Some? ==> ConsistentBut(env, Tables(), {id.value}) && Enters(old(Tables()), Tables(), id.value, addr)
      ensures id.Some? ==> id.value in mapInfo && mapInfo[id.value].service == addr
      ensures id.Some? ==> !mapInfo[id.value].inTried && mapInfo[id.value].refCount < NEW_BUCKETS_PER_ADDRESS
      ensures id.Some? ==> (Admits(env, old(Tables()), addr, time, source, timePenalty, now, lucky) <==>
                              Yields(Tables(), NewSlot(env, addr, source), id.value, now))
    {
      hide EnvOk, Consistent, ConsistentBut, CollisionsOk, Grows, NewSlot, IsTerrible, Enters, AddrTables.Create, GivesWay, Yields, RefreshedTime;
      NewHolders(env, Tables());
      var found := Find(addr);
      var penalty := if addr.addr == source then 0 else timePenalty;
      if found.Some? {
        NewReferenced(env, Tables(), found.value);
        var proceed := Refresh(found.value, time, services, penalty, now, lucky);
        if !proceed {
          return None;
        }
        RefreshedEnters(old(Tables()), Tables(), found.value);
        Loosen(env, Tables(), found.value);
        SameHolder(old(Tables()), Tables(), NewSlot(env, addr, source), found.value, found, now);
        return found;
      }
      var a := NewInfo(addr, time, services, source, penalty);
      CreateLoose(env, Tables(), a);
      CreatedEnters(env, Tables(), a);
      CreatedSame(env, Tables(), a);
      var created := Create(a);
      SameHolder(old(Tables()), Tables(), NewSlot(env, addr, source), created, None, now);
      return Some(created);
    }

    /** Add_: the addresses of one message, in order. */
    method Add(addrs: seq<(Service, int, set<nat>)>, source: NetAddr, timePenalty: int, now: int, lucky: nat -> bool)
      returns (added: bool)
      requires Valid()
      modifies this
      ensures Valid() && Grows(old(Tables()), Tables())
      ensures Tables() == AfterAll(env, old(Tables()), addrs, source, timePenalty, now, lucky, |addrs|)
      ensures forall s :: s in mapAddr ==> s in old(mapAddr) || Announced(addrs, |addrs|, s)
      ensures added <==> exists i :: 0 <= i < |addrs| && AdmitsAt(env, old(Tables()), addrs, source, timePenalty, now, lucky, i)
    {
      hide EnvOk, Consistent, CollisionsOk, Grows, Admits, AfterAdding, AfterAll;
      SameGrows(Tables());
      AfterNone(env, Tables(), addrs, source, timePenalty, now, lucky);
      var count := 0;
      for i := 0 to |addrs|
        invariant Valid() && Grows(old(Tables()), Tables()) && count >= 0
        invariant Tables() == AfterAll(env, old(Tables()), addrs, source, timePenalty, now, lucky, i)
        invariant count > 0 <==> exists j :: 0 <= j < i && AdmitsAt(env, old(Tables()), addrs, source, timePenalty, now, lucky, j)
        invariant forall s :: s in mapAddr ==> s in old(mapAddr) || Announced(addrs, i, s)
      {
        ghost var before := Tables();
        var one := AddSingle(addrs[i].0, addrs[i].1, addrs[i].2, source, timePenalty, now, lucky(i));
        AfterNext(env, old(Tables()), addrs, source, timePenalty, now, lucky, i);
        GrowsTrans(old(Tables()), before, Tables());
        assert one <==> AdmitsAt(env, old(Tables()), addrs, source, timePenalty, now, lucky, i);
        if one { count := count + 1; }
      }
      added := count > 0;
    }

    /** ResolveCollisions_: each pending collision is dropped, resolved in favour of the newcomer, or
        kept for later, in the order of their ids. `clock` gives the time read when an id is looked at. */
    method ResolveCollisions(clock: Id -> int) returns (ghost order: seq<Id>)
      requires Valid() && forall id :: clock(id) > 0
      modifies this
      ensures Valid() && Grows(old(Tables()), Tables())
      ensures Ascending(order) && forall id :: id in order <==> id in old(triedCollisions)
      ensures Tables() == AfterResolvingAll(env, old(Tables()), order, |order|, clock)
      ensures triedCollisions <= old(triedCollisions)
      ensures forall i :: 0 <= i < |order| ==> (order[i] in triedCollisions <==> !SettledAt(env, old(Tables()), order, i, clock))
      ensures forall id :: id in old(triedCollisions) && id !in old(mapInfo) ==> id !in triedCollisions
    {
      hide EnvOk, Consistent, CollisionsOk, Grows, TriedSlot, Settled, AfterResolving, AfterResolvingAll, Ascending, SettledAt;
      SameGrows(Tables());
      CollisionsBelow(env, Tables(), triedCollisions);
      NothingResolved(env, Tables(), clock);
      var todo := triedCollisions;
      order := [];
      while todo != {}
        invariant Valid() && Grows(old(Tables()), Tables())
        invariant todo <= triedCollisions <= old(triedCollisions)
        invariant Ascending(order) && (forall id :: id in order <==> id in old(triedCollisions) - todo)
        invariant forall id, k :: id in order && k in todo ==> id.n < k.n
        invariant Tables() == AfterResolvingAll(env, old(Tables()), order, |order|, clock)
        invariant Outcome(env, old(Tables()), order, clock, triedCollisions)
        invariant forall id :: id in triedCollisions && id !in todo ==> id in old(mapInfo) || id.n >= old(nIdCount)
        decreases todo
      {
        var id := Lowest(todo);
        ghost var before, done, pending := Tables(), order, triedCollisions;
        var erase := Resolve(id, clock(id));
        if id in before.info { NoneAppears(old(Tables()), before, id); }
        GrowsTrans(old(Tables()), before, Tables());
        if erase {
          FewerCollisions(env, Tables(), triedCollisions, id);
          triedCollisions := triedCollisions - {id};
        }
        todo := todo - {id};
        order := done + [id];
        ResolvingMore(env, old(Tables()), done, id, clock);
        OutcomeMore(env, old(Tables()), done, id, clock, pending, triedCollisions);
      }
    }

    /** One pending collision. */
    method Resolve(id: Id, now: int) returns (erase: bool)
      requires Valid() && now > 0
      modifies this
      ensures Valid() && Grows(old(Tables()), Tables()) && triedCollisions == old(triedCollisions)
      ensures erase <==> Settled(env, old(Tables()), id, now)
      ensures Tables() == AfterResolving(env, old(Tables()), id, now)
      ensures id !in old(mapInfo) || !erase ==> Tables() == old(Tables())
      ensures !erase ==> id in mapInfo && TriedSlot(env, mapInfo[id].service) in vvTried
      ensures id in old(mapInfo) ==>
                (MayReplace(env, old(Tables()), id, now) ==> erase && (!old(mapInfo)[id].inTried ==> InTriedSlot(env, Tables(), id)))
                && (!MayReplace(env, old(Tables()), id, now) ==> Tables() == old(Tables()))
    {
      hide EnvOk, Consistent, CollisionsOk, Grows, TriedSlot;
      SameGrows(Tables());
      erase := false;
      if id in mapInfo { KnownByAddress(env, Tables(), id); }
      if id !in mapInfo {
        erase := true;
      } else {
        var addr := mapInfo[id].service;
        var slot := TriedSlot(env, addr);
        if !env.valid(addr) {
          erase := true;
        } else if slot in vvTried {
          TriedHolder(env, Tables(), slot);
          var holder := mapInfo[vvTried[slot]];
          if now - holder.lastSuccess < REPLACEMENT {
            erase := true;
          } else if now - holder.lastTry < REPLACEMENT {
            if now - holder.lastTry > 60 {
              var _ := Good(addr, false, now);
              erase := true;
            }
          } else if now - mapInfo[id].lastSuccess > TEST_WINDOW {
            var _ := Good(addr, false, now);
            erase := true;
          }
        } else {
          var _ := Good(addr, false, now);
          erase := true;
        }
      }
    }

    /** SelectTriedCollision_: the tried entry that a pending newcomer competes with. The position it
        looks at is always occupied, so looking it up adds no entry to the info map. */
    method SelectTriedCollision(id: Id) returns (holder: Option<AddrInfo>)
      requires Valid() && (triedCollisions == {} || id in triedCollisions)
      modifies this`triedCollisions
      ensures Valid() && triedCollisions <= old(triedCollisions)
      ensures holder.Some? <==> id in old(triedCollisions) && id in mapInfo
      ensures holder.Some? ==>
                && triedCollisions == old(triedCollisions)
                && TriedSlot(env, mapInfo[id].service) in vvTried
                && vvTried[TriedSlot(env, mapInfo[id].service)] in mapInfo
                && holder.value == mapInfo[vvTried[TriedSlot(env, mapInfo[id].service)]] && holder.value.inTried
    {
      hide EnvOk, Consistent, TriedSlot;
      if triedCollisions == {} {
        return None;
      }
      if id !in mapInfo {
        FewerCollisions(env, Tables(), triedCollisions, id);
        triedCollisions := triedCollisions - {id};
        return None;
      }
      assert CollisionOk(env, Tables(), id);
      var slot := TriedSlot(env, mapInfo[id].service);
      TriedHolder(env, Tables(), slot);
      return Some(mapInfo[vvTried[slot]]);
    }

    /** One round of GetAddr_'s shuffle: some entry from the rest of the order comes to position n. */
    method Draw(n: nat) returns (id: Id)
      requires Valid() && n < |vRandom|
      modifies this`mapInfo, this`vRandom
      ensures Valid() && Grows(old(Tables()), Tables()) && SameButOrder(old(mapInfo), mapInfo)
      ensures |vRandom| == |old(vRandom)| && vRandom[..n] == old(vRandom)[..n]
      ensures id == vRandom[n] && id in mapInfo
    {
      hide EnvOk, Consistent, CollisionsOk, Grows, AddrTables.SwapRandom, SameButOrder;
      var r :| n <= r < |vRandom|;
      SwapConsistent(env, Tables(), n, r);
      SwapStep(env, Tables(), n, r);
      CollisionsKept(env, Tables(), AddrTables.SwapRandom(Tables(), n, r), triedCollisions);
      SwapRandom(n, r);
      id := vRandom[n];
    }

    /** GetAddr_: random distinct addresses that pass the filters, as many as the limits allow. The
        random order is reshuffled on the way; nothing else changes. */
    method GetAddr(maxAddresses: nat, maxPct: nat, network: Option<Network>, filtered: bool, now: int)
      returns (addresses: seq<Service>)
      requires Valid()
      modifies this`mapInfo, this`vRandom
      ensures Valid() && Grows(old(Tables()), Tables()) && SameButOrder(old(mapInfo), mapInfo)
      ensures |addresses| == Smaller(Limit(|vRandom|, maxAddresses, maxPct), |Eligible(env, old(mapInfo), network, filtered, now)|)
      ensures maxAddresses != 0 ==> |addresses| <= maxAddresses
      ensures maxPct != 0 ==> 100 * |addresses| <= maxPct * |vRandom|
      ensures Distinct(addresses)
      ensures forall i :: 0 <= i < |addresses| ==>
                addresses[i] in mapAddr && mapAddr[addresses[i]] in Eligible(env, old(mapInfo), network, filtered, now)
    {
      hide EnvOk, Consistent, CollisionsOk, Grows, SameButOrder, Limit, Eligible, IsTerrible, Picked, Named, Distinct;
      SameGrows(Tables());
      SameOrderSame(mapInfo);
      var limit := Limit(|vRandom|, maxAddresses, maxPct);
      LimitIs(|vRandom|, maxAddresses, maxPct);
      ghost var eligible := Eligible(env, mapInfo, network, filtered, now);
      ghost var chosen: seq<Id> := [];
      addresses := [];
      NamedNone(mapInfo, vRandom, eligible);
      var n := 0;
      while n < |vRandom| && |addresses| < limit
        invariant n <= |vRandom| == |old(vRandom)| && |addresses| <= limit
        invariant Valid() && Grows(old(Tables()), Tables())
        invariant SameButOrder(old(mapInfo), mapInfo)
        invariant chosen == Picked(vRandom[..n], eligible) && |chosen| == |addresses|
        invariant Named(mapInfo, chosen, addresses)
      {
        ghost var before := Tables();
        var id := Draw(n);
        GrowsTrans(old(Tables()), before, Tables());
        SameOrderTrans(old(mapInfo), before.info, mapInfo);
        NamedStill(before.info, mapInfo, chosen, addresses);
        PickNext(vRandom, n, eligible);
        EligibleSame(env, old(mapInfo), mapInfo, network, filtered, now, id);
        if (network.None? || env.netClass(mapInfo[id].service) == network.value) && !(IsTerrible(mapInfo[id], now) && filtered) {
          NamedNext(mapInfo, chosen, addresses, id);
          addresses := addresses + [mapInfo[id].service];
          chosen := chosen + [id];
        }
        n := n + 1;
      }
      EligibleKnown(env, old(mapInfo), mapInfo, network, filtered, now);
      PickedAll(env, Tables(), n, eligible, chosen);
      NamedDistinct(env, Tables(), chosen, addresses);
    }

    /** Any run of operations keeps the invariant; over it no tried position becomes empty, nTried never
        decreases and the collision set never exceeds its limit. */
    method Run(ops: seq<Op>)
      requires Valid() && forall i :: 0 <= i < |ops| ==> TimesOk(ops[i])
      modifies this
      ensures Valid() && Grows(old(Tables()), Tables()) && |triedCollisions| <= TRIED_COLLISION_SIZE
    {
      hide EnvOk, Consistent, Grows;
      SameGrows(Tables());
      for i := 0 to |ops|
        invariant Valid() && Grows(old(Tables()), Tables())
      {
        ghost var before := Tables();
        Perform(ops[i]);
        GrowsTrans(old(Tables()), before, Tables());
      }
    }

    method Perform(op: Op)
      requires Valid() && TimesOk(op)
      modifies this
      ensures Valid() && Grows(old(Tables()), Tables())
    {
      hide EnvOk, Consistent, CollisionsOk, Grows, OnlyStats, Settled, Distinct, SameButOrder, Eligible;
      SameGrows(Tables());
      match op
      case Add(addrs, source, timePenalty, now, lucky) => var _ := this.Add(addrs, source, timePenalty, now, lucky);
      case Good(addr, testBeforeEvict, time) => var _ := this.Good(addr, testBeforeEvict, time);
      case Attempt(addr, countFailure, time) => this.Attempt(addr, countFailure, time);
      case Connected(addr, time) => this.Connected(addr, time);
      case SetServices(addr, services) => this.SetServices(addr, services);
      case GetAddr(maxAddresses, maxPct, network, filtered, now) =>
        var _ := this.GetAddr(maxAddresses, maxPct, network, filtered, now);
      case ResolveCollisions(clock) => var _ := this.ResolveCollisions(clock);
      case SelectTriedCollision =>
        var id :| triedCollisions == {} || id in triedCollisions;
        var _ := this.SelectTriedCollision(id);
    }
  }

  /** The public operations, with what they are told by the clock and by chance. */
  datatype Op =
    | Add(addrs: seq<(Service, int, set<nat>)>, source: NetAddr, timePenalty: int, now: int, lucky: nat -> bool)
    | Good(addr: Service, testBeforeEvict: bool, time: int)
    | Attempt(addr: Service, countFailure: bool, time: int)
    | Connected(addr: Service, time: int)
    | SetServices(addr: Service, services: set<nat>)
    | GetAddr(maxAddresses: nat, maxPct: nat, network: Option<Network>, filtered: bool, now: int)
    | ResolveCollisions(clock: Id -> int)
    | SelectTriedCollision

  /** Times are counted from the epoch; a success is after it. */
  ghost predicate TimesOk(op: Op) {
    match op
    case Good(_, _, time) => time > 0
    case Attempt(_, _, time) => time >= 0
    case Connected(_, time) => time >= 0
    case ResolveCollisions(clock) => forall id :: clock(id) > 0
    case _ => true
  }

  lemma SameOrderSame(a: Infos)
    ensures SameButOrder(a, a)
  {
  }

  lemma SameOrderTrans(a: Infos, b: Infos, c: Infos)
    requires SameButOrder(a, b) && SameButOrder(b, c)
    ensures SameButOrder(a, c)
  {
    forall id | id in a ensures SamePlace(a[id], c[id]) {
      assert SamePlace(a[id], b[id]) && SamePlace(b[id], c[id]);
    }
  }

  lemma EligibleKnown(env: Env, a: Infos, b: Infos, network: Option<Network>, filtered: bool, now: int)
    requires SameButOrder(a, b)
    ensures forall id :: id in Eligible(env, a, network, filtered, now) ==> id in b
  {
  }

  function Smaller(a: nat, b: nat): nat { if a < b then a else b }

  /** How many addresses GetAddr may return; a limit of zero means none. */
  function Limit(size: nat, maxAddresses: nat, maxPct: nat): nat {
    var byPct := if maxPct != 0 then Smaller(maxPct, 100) * size / 100 else size;
    if maxAddresses != 0 then Smaller(byPct, maxAddresses) else byPct
  }

  /** A percentage bounds the share of all entries, a number the number; neither set means all. */
  lemma LimitIs(size: nat, maxAddresses: nat, maxPct: nat)
    ensures Limit(size, maxAddresses, maxPct) <= size
    ensures maxAddresses != 0 ==> Limit(size, maxAddresses, maxPct) <= maxAddresses
    ensures maxPct != 0 ==> 100 * Limit(size, maxAddresses, maxPct) <= maxPct * size
    ensures maxAddresses == 0 && (maxPct == 0 || maxPct >= 100) ==> Limit(size, maxAddresses, maxPct) == size
    ensures Limit(size, maxAddresses, maxPct) < size && Limit(size, maxAddresses, maxPct) != maxAddresses ==>
              maxPct != 0 && 100 * (Limit(size, maxAddresses, maxPct) + 1) > maxPct * size
  {
    if maxPct != 0 {
      var pct := Smaller(maxPct, 100);
      ShareBounds(pct, size);
      if maxPct < 100 { ShareGrows(maxPct, 100, size); } else { ShareGrows(100, maxPct, size); }
    }
  }

  lemma ShareGrows(a: nat, b: nat, size: nat)
    requires a <= b
    ensures a * size <= b * size
  {
  }

  lemma ShareBounds(pct: nat, size: nat)
    ensures 100 * (pct * size / 100) <= pct * size < 100 * (pct * size / 100) + 100
  {
  }

  /** When an entry is kept: it was tried within a minute; or it was seen within thirty days and not in
      the future, and it has had a success or fewer than three attempts, and a success within a week or
      fewer than ten. */
  lemma KeptExactly(a: AddrInfo, now: int)
    ensures !IsTerrible(a, now) <==>
              || now - a.lastTry <= 60
              || (now - 30 * 86400 <= a.time <= now + 600 && (a.lastSuccess != 0 || a.attempts < 3)
                  && (now - a.lastSuccess <= 7 * 86400 || a.attempts < 10))
  {
  }

  predicate Passes(env: Env, a: AddrInfo, network: Option<Network>, filtered: bool, now: int) {
    (network.None? || env.netClass(a.service) == network.value) && !(filtered && IsTerrible(a, now))
  }

  ghost function Eligible(env: Env, info: Infos, network: Option<Network>, filtered: bool, now: int): set<Id> {
    set id | id in info && Passes(env, info[id], network, filtered, now)
  }

  // ------------------------------------------------ what an operation makes of the tables

  /** PlaceNew. */
  ghost function AfterPlacing(env: Env, t: Tables, slot: Slot, id: Id, now: int): Tables
    requires id in t.info
  {
    if slot in t.news && t.news[slot] == id then t
    else if Yields(t, slot, id, now) then
      if CanClear(t, slot) && id in ClearNew(env, t, slot).info then Link(ClearNew(env, t, slot), slot, id) else t
    else if t.info[id].refCount == 0 && CanDelete(t, id) then Delete(env, t, id)
    else t
  }

  ghost function Refreshed(a: AddrInfo, time: int, services: set<nat>, penalty: int, now: int): AddrInfo {
    a.(time := RefreshedTime(a.time, time, penalty, now), services := a.services + services)
  }

  /** A refreshed entry goes on to claim another position. */
  predicate Proceeds(a: AddrInfo, time: int, lucky: bool) {
    time > a.time && !a.inTried && a.refCount != NEW_BUCKETS_PER_ADDRESS && (a.refCount > 0 ==> lucky)
  }

  function NewInfo(addr: Service, time: int, services: set<nat>, source: NetAddr, penalty: int): AddrInfo {
    AddrInfo(addr, if time - penalty > 0 then time - penalty else 0, services, source, 0, 0, 0, 0, 0, false, -1)
  }

  function PenaltyFor(addr: Service, source: NetAddr, timePenalty: int): int {
    if addr.addr == source then 0 else timePenalty
  }

  ghost function AfterPreparing(env: Env, t: Tables, addr: Service, time: int, services: set<nat>, source: NetAddr, timePenalty: int, now: int): Tables {
    var penalty := PenaltyFor(addr, source, timePenalty);
    if addr !in t.addr then Create(env, t, NewInfo(addr, time, services, source, penalty))
    else if t.addr[addr] !in t.info then t
    else SetInfo(t, t.addr[addr], Refreshed(t.info[t.addr[addr]], time, services, penalty, now))
  }

  /** The entry that AddSingle tries to place. */
  ghost function Candidate(t: Tables, addr: Service, time: int, services: set<nat>, source: NetAddr, timePenalty: int, now: int, lucky: bool): Option<Id> {
    if addr !in t.addr then Some(NextId(t))
    else if t.addr[addr] in t.info
            && Proceeds(Refreshed(t.info[t.addr[addr]], time, services, PenaltyFor(addr, source, timePenalty), now), time, lucky)
    then Some(t.addr[addr])
    else None
  }

  /** AddSingle. */
  ghost function AfterAdding(env: Env, t: Tables, addr: Service, time: int, services: set<nat>, source: NetAddr, timePenalty: int, now: int, lucky: bool): Tables {
    if !env.routable(addr) then t
    else
      var u := AfterPreparing(env, t, addr, time, services, source, timePenalty, now);
      match Candidate(t, addr, time, services, source, timePenalty, now, lucky)
      case None => u
      case Some(id) => if id in u.info then AfterPlacing(env, u, NewSlot(env, addr, source), id, now) else u
  }

  /** Add_, after the first n addresses. */
  ghost function AfterAll(env: Env, t: Tables, addrs: seq<(Service, int, set<nat>)>, source: NetAddr, timePenalty: int, now: int, lucky: nat -> bool, n: nat): Tables
    requires n <= |addrs|
  {
    if n == 0 then t
    else
      AfterAdding(env, AfterAll(env, t, addrs, source, timePenalty, now, lucky, n - 1),
                  addrs[n - 1].0, addrs[n - 1].1, addrs[n - 1].2, source, timePenalty, now, lucky(n - 1))
  }

  lemma AfterNone(env: Env, t: Tables, addrs: seq<(Service, int, set<nat>)>, source: NetAddr, timePenalty: int, now: int, lucky: nat -> bool)
    ensures AfterAll(env, t, addrs, source, timePenalty, now, lucky, 0) == t
  {
  }

  lemma AfterNext(env: Env, t: Tables, addrs: seq<(Service, int, set<nat>)>, source: NetAddr, timePenalty: int, now: int, lucky: nat -> bool, i: nat)
    requires i < |addrs|
    ensures AfterAll(env, t, addrs, source, timePenalty, now, lucky, i + 1) ==
            AfterAdding(env, AfterAll(env, t, addrs, source, timePenalty, now, lucky, i),
                        addrs[i].0, addrs[i].1, addrs[i].2, source, timePenalty, now, lucky(i))
  {
    hide AfterAdding;
  }

  /** The i-th address is admitted by the tables its predecessors left. */
  ghost predicate AdmitsAt(env: Env, t: Tables, addrs: seq<(Service, int, set<nat>)>, source: NetAddr, timePenalty: int, now: int, lucky: nat -> bool, i: nat)
    requires i < |addrs|
  {
    Admits(env, AfterAll(env, t, addrs, source, timePenalty, now, lucky, i), addrs[i].0, addrs[i].1, source, timePenalty, now, lucky(i))
  }

  ghost predicate Announced(addrs: seq<(Service, int, set<nat>)>, n: nat, s: Service)
    requires n <= |addrs|
  {
    exists i :: 0 <= i < n && addrs[i].0 == s
  }

  /** Good_. */
  ghost function AfterGood(env: Env, t: Tables, addr: Service, testBeforeEvict: bool, time: int): Tables {
    if addr !in t.addr || t.addr[addr] !in t.info then t
    else
      var id := t.addr[addr];
      var u := SetInfo(t, id, t.info[id].(lastSuccess := time, lastTry := time, attempts := 0));
      if u.info[id].inTried || (testBeforeEvict && TriedSlot(env, addr) in t.tried) || !CanMakeTried(env, u, id) then u
      else MakeTried(env, u, id)
  }

  /** One pending collision. */
  ghost function AfterResolving(env: Env, t: Tables, id: Id, now: int): Tables {
    if id in t.info && MayReplace(env, t, id, now) then AfterGood(env, t, t.info[id].service, false, now) else t
  }

  /** The first n of a list of pending collisions. */
  ghost function AfterResolvingAll(env: Env, t: Tables, ids: seq<Id>, n: nat, clock: Id -> int): Tables
    requires n <= |ids|
  {
    if n == 0 then t
    else AfterResolving(env, AfterResolvingAll(env, t, ids, n - 1, clock), ids[n - 1], clock(ids[n - 1]))
  }

  lemma {:induction false} ResolvingPrefix(env: Env, t: Tables, ids: seq<Id>, id: Id, n: nat, clock: Id -> int)
    requires n <= |ids|
    ensures AfterResolvingAll(env, t, ids + [id], n, clock) == AfterResolvingAll(env, t, ids, n, clock)
  {
    hide AfterResolving;
    if n > 0 { ResolvingPrefix(env, t, ids, id, n - 1, clock); }
  }

  lemma ResolvingMore(env: Env, t: Tables, ids: seq<Id>, id: Id, clock: Id -> int)
    ensures forall n :: 0 <= n <= |ids| ==> AfterResolvingAll(env, t, ids + [id], n, clock) == AfterResolvingAll(env, t, ids, n, clock)
    ensures AfterResolvingAll(env, t, ids + [id], |ids| + 1, clock) ==
            AfterResolving(env, AfterResolvingAll(env, t, ids, |ids|, clock), id, clock(id))
  {
    hide AfterResolving;
    forall n | 0 <= n <= |ids| ensures AfterResolvingAll(env, t, ids + [id], n, clock) == AfterResolvingAll(env, t, ids, n, clock) {
      ResolvingPrefix(env, t, ids, id, n, clock);
    }
  }

  predicate Ascending(ids: seq<Id>) {
    forall i, j :: 0 <= i < j < |ids| ==> ids[i].n < ids[j].n
  }

  lemma NothingResolved(env: Env, t: Tables, clock: Id -> int)
    ensures AfterResolvingAll(env, t, [], 0, clock) == t && Ascending([])
  {
  }

  /** The i-th collision is settled in the tables its predecessors left. */
  ghost predicate SettledAt(env: Env, t: Tables, ids: seq<Id>, i: nat, clock: Id -> int)
    requires i < |ids|
  {
    Settled(env, AfterResolvingAll(env, t, ids, i, clock), ids[i], clock(ids[i]))
  }

  ghost predicate Outcome(env: Env, t: Tables, ids: seq<Id>, clock: Id -> int, pending: set<Id>) {
    forall i :: 0 <= i < |ids| ==> (ids[i] in pending <==> !SettledAt(env, t, ids, i, clock))
  }

  lemma OutcomeMore(env: Env, t: Tables, ids: seq<Id>, id: Id, clock: Id -> int, before: set<Id>, after: set<Id>)
    requires Outcome(env, t, ids, clock, before) && Ascending(ids) && id in before
    requires forall k :: k in ids ==> k.n < id.n
    requires after == if Settled(env, AfterResolvingAll(env, t, ids, |ids|, clock), id, clock(id)) then before - {id} else before
    ensures Outcome(env, t, ids + [id], clock, after) && Ascending(ids + [id])
  {
    hide AfterResolvingAll, Settled;
    ResolvingMore(env, t, ids, id, clock);
    var more := ids + [id];
    forall i | 0 <= i < |more| ensures more[i] in after <==> !SettledAt(env, t, more, i, clock) {
      if i < |ids| {
        assert ids[i] in ids;
        assert SettledAt(env, t, more, i, clock) == SettledAt(env, t, ids, i, clock);
      }
    }
  }

  /** When a repeated announcement moves the time of an entry, and to when. */
  ghost function RefreshedTime(known: int, time: int, penalty: int, now: int): int {
    if known < time - (if now - time < DAY then HOUR else DAY) - penalty then (if time - penalty > 0 then time - penalty else 0)
    else known
  }

  /** The position is free, or its holder has to give way to an entry with so many references. */
  ghost predicate GivesWay(t: Tables, slot: Slot, id: Option<Id>, now: int) {
    slot in t.news ==>
      && Some(t.news[slot]) != id && t.news[slot] in t.info
      && (IsTerrible(t.info[t.news[slot]], now) || (t.info[t.news[slot]].refCount > 1 && id.None?))
  }

  /** Exactly when an announced address gets a position in the new table: it is routable, it is either
      unknown or fresh news of an entry that is not tried and not held eight times, and its position
      is free or gives way. */
  ghost predicate Admits(env: Env, t: Tables, addr: Service, time: int, source: NetAddr, timePenalty: int, now: int, lucky: bool) {
    var penalty := if addr.addr == source then 0 else timePenalty;
    var slot := NewSlot(env, addr, source);
    && env.routable(addr)
    && if addr !in t.addr then GivesWay(t, slot, None, now)
       else
         && t.addr[addr] in t.info
         && var a := t.info[t.addr[addr]];
            && RefreshedTime(a.time, time, penalty, now) < time && !a.inTried && a.refCount != NEW_BUCKETS_PER_ADDRESS && lucky
            && GivesWay(t, slot, Some(t.addr[addr]), now)
  }

  /** PlaceNew's test, on the tables it finds. */
  ghost predicate Yields(t: Tables, slot: Slot, id: Id, now: int)
    requires id in t.info
  {
    slot !in t.news ||
    (t.news[slot] != id && t.news[slot] in t.info &&
     (IsTerrible(t.info[t.news[slot]], now) || (t.info[t.news[slot]].refCount > 1 && t.info[id].refCount == 0)))
  }

  /** Refreshing or creating the entry does not change the outcome of the test. */
  lemma SameHolder(t: Tables, u: Tables, slot: Slot, id: Id, known: Option<Id>, now: int)
    requires u.news == t.news && (forall k :: k in t.info && k != id ==> k in u.info && u.info[k] == t.info[k])
    requires id in u.info && (if known.None? then id !in t.info && u.info[id].refCount == 0 else known == Some(id) && u.info[id].refCount >= 1)
    requires slot in t.news ==> t.news[slot] in t.info
    ensures GivesWay(t, slot, known, now) <==> Yields(u, slot, id, now)
  {
    hide IsTerrible;
  }

  lemma NotRoutable(env: Env, t: Tables, addr: Service, time: int, source: NetAddr, timePenalty: int, now: int, lucky: bool)
    requires !env.routable(addr)
    ensures !Admits(env, t, addr, time, source, timePenalty, now, lucky)
  {
  }

  lemma CreatedSame(env: Env, t: Tables, a: AddrInfo)
    requires NextId(t) !in t.info
    ensures var u := AddrTables.Create(env, t, a);
            u.news == t.news && NextId(t) in u.info && u.info[NextId(t)] == a.(randomPos := |t.random|) &&
            forall k :: k in t.info ==> k != NextId(t) && k in u.info && u.info[k] == t.info[k]
  {
  }

  lemma NewHolders(env: Env, t: Tables)
    requires Consistent(env, t)
    ensures forall s :: s in t.news ==> t.news[s] in t.info
  {
    forall s | s in t.news ensures t.news[s] in t.info { assert NewSlotOk(env, t, s); }
  }

  lemma NewReferenced(env: Env, t: Tables, id: Id)
    requires Consistent(env, t) && id in t.info
    ensures !t.info[id].inTried ==> t.info[id].refCount >= 1
  {
  }

  lemma DemoteKeepsInfo(env: Env, t: Tables, slot: Slot)
    requires slot in t.tried && t.tried[slot] in t.info
    ensures forall id :: id in t.info ==> id in Demote(env, t, slot).info && Demote(env, t, slot).info[id].(inTried := t.info[id].inTried) == t.info[id]
    ensures forall id :: id in t.info && id != t.tried[slot] ==> Demote(env, t, slot).info[id] == t.info[id]
    ensures Demote(env, t, slot).news == t.news
  {
  }

  ghost predicate SameButOrder(a: Infos, b: Infos) {
    && (forall id :: id in a <==> id in b)
    && forall id :: id in a ==> SamePlace(a[id], b[id])
  }

  lemma EligibleSame(env: Env, a: Infos, b: Infos, network: Option<Network>, filtered: bool, now: int, id: Id)
    requires SameButOrder(a, b) && id in b
    ensures id in Eligible(env, a, network, filtered, now) <==> Passes(env, b[id], network, filtered, now)
  {
    assert SamePlace(a[id], b[id]);
  }

  /** A swap behind the first n positions leaves the picks so far alone. */
  lemma SwapStep(env: Env, t: Tables, n: nat, r: nat)
    requires Consistent(env, t) && n <= r < |t.random|
    ensures t.random[n] in t.info && t.random[r] in t.info
    ensures var u := AddrTables.SwapRandom(t, n, r);
            && |u.random| == |t.random| && u.random[..n] == t.random[..n] && u.random[n] in u.info && u.addr == t.addr
            && SameButOrder(t.info, u.info)
  {
    hide Placed, Counted, Healthy;
    assert PosOk(t, n) && PosOk(t, r);
    SwapOrder(t, n, r);
    SwapTables(t, n, r);
    var u := AddrTables.SwapRandom(t, n, r);
    hide AddrTables.SwapRandom, Indexed;
    forall id | id in t.info ensures id in u.info && SamePlace(t.info[id], u.info[id]) {
      SwapMoves(t, n, r, id);
    }
    assert u.random[..n] == t.random[..n];
  }

  ghost predicate Named(info: Infos, chosen: seq<Id>, addresses: seq<Service>) {
    && |chosen| == |addresses|
    && forall i :: 0 <= i < |chosen| ==> chosen[i] in info && info[chosen[i]].service == addresses[i]
  }

  lemma NamedNone(info: Infos, random: seq<Id>, eligible: set<Id>)
    ensures Named(info, [], []) && Picked(random[..0], eligible) == []
  {
  }

  lemma NamedStill(a: Infos, b: Infos, chosen: seq<Id>, addresses: seq<Service>)
    requires Named(a, chosen, addresses) && SameButOrder(a, b)
    ensures Named(b, chosen, addresses)
  {
    forall i | 0 <= i < |chosen| ensures chosen[i] in b && b[chosen[i]].service == addresses[i] {
      assert SamePlace(a[chosen[i]], b[chosen[i]]);
    }
  }

  lemma NamedNext(info: Infos, chosen: seq<Id>, addresses: seq<Service>, id: Id)
    requires Named(info, chosen, addresses) && id in info
    ensures Named(info, chosen + [id], addresses + [info[id].service])
  {
  }

  lemma PrefixDistinct(ids: seq<Id>, n: nat)
    requires Distinct(ids) && n <= |ids|
    ensures Distinct(ids[..n])
  {
  }

  lemma PickedAll(env: Env, t: Tables, n: nat, eligible: set<Id>, chosen: seq<Id>)
    requires Consistent(env, t) && n <= |t.random| && chosen == Picked(t.random[..n], eligible)
    requires forall id :: id in eligible ==> id in t.info
    ensures (forall i :: 0 <= i < |chosen| ==> chosen[i] in eligible) && Distinct(chosen)
    ensures |chosen| <= |eligible| && (n == |t.random| ==> |chosen| == |eligible|)
  {
    hide Consistent, Distinct, Picked;
    RandomDistinct(env, t);
    PrefixDistinct(t.random, n);
    PickedCount(t.random[..n], eligible, chosen);
    if n == |t.random| {
      assert t.random[..n] == t.random;
    }
  }

  lemma NamedDistinct(env: Env, t: Tables, chosen: seq<Id>, addresses: seq<Service>)
    requires Consistent(env, t) && Named(t.info, chosen, addresses) && Distinct(chosen)
    ensures Distinct(addresses)
    ensures forall i :: 0 <= i < |addresses| ==> addresses[i] in t.addr && t.addr[addresses[i]] == chosen[i]
  {
    hide Consistent;
    forall i | 0 <= i < |addresses| ensures addresses[i] in t.addr && t.addr[addresses[i]] == chosen[i] {
      KnownByAddress(env, t, chosen[i]);
    }
  }

  /** The first element in the order of std::set. */
  method Lowest(ids: set<Id>) returns (id: Id)
    requires ids != {}
    ensures id in ids && forall k :: k in ids ==> id.n <= k.n
  {
    id :| id in ids;
    var todo := ids - {id};
    while todo != {}
      invariant id in ids && todo <= ids && forall k :: k in ids - todo ==> id.n <= k.n
      decreases todo
    {
      var k :| k in todo;
      if k.n < id.n { id := k; }
      todo := todo - {k};
    }
  }

  lemma CollisionsBelow(env: Env, t: Tables, ids: set<Id>)
    requires CollisionsOk(env, t, ids)
    ensures forall id :: id in ids ==> id.n < t.idCount
  {
    hide TriedSlot;
    forall id | id in ids ensures id.n < t.idCount { assert CollisionOk(env, t, id); }
  }

  lemma NoneAppears(t: Tables, u: Tables, id: Id)
    requires Grows(t, u) && id in u.info
    ensures id in t.info || id.n >= t.idCount
  {
  }

  /** A collision is over: the entry is gone or has no valid address, the holder of its position has
      just proved itself, or the entry takes the position. */
  ghost predicate Settled(env: Env, t: Tables, id: Id, now: int) {
    id in t.info ==>
      var slot := TriedSlot(env, t.info[id].service);
      || !env.valid(t.info[id].service) || MayReplace(env, t, id, now)
      || (slot in t.tried && t.tried[slot] in t.info && now - t.info[t.tried[slot]].lastSuccess < REPLACEMENT)
  }

  /** When a pending newcomer may take its tried position: the position is free, or its occupant has
      not succeeded for four hours and either failed between a minute and four hours ago or could
      not be tested while the newcomer waited forty minutes. */
  predicate MayReplace(env: Env, t: Tables, id: Id, now: int)
    requires id in t.info
  {
    var slot := TriedSlot(env, t.info[id].service);
    env.valid(t.info[id].service) &&
    (slot in t.tried && t.tried[slot] in t.info ==>
       var holder := t.info[t.tried[slot]];
       && now - holder.lastSuccess >= REPLACEMENT
       && (60 < now - holder.lastTry < REPLACEMENT
           || (now - holder.lastTry >= REPLACEMENT && now - t.info[id].lastSuccess > TEST_WINDOW)))
  }

  ghost predicate InTriedSlot(env: Env, t: Tables, id: Id) {
    id in t.info && t.info[id].inTried && TriedSlot(env, t.info[id].service) in t.tried
    && t.tried[TriedSlot(env, t.info[id].service)] == id
  }

  lemma FewerCollisions(env: Env, t: Tables, ids: set<Id>, id: Id)
    requires CollisionsOk(env, t, ids)
    ensures CollisionsOk(env, t, ids - {id})
  {
    assert |ids| == |ids - {id}| + |ids * {id}|;
  }

  lemma TriedHolder(env: Env, t: Tables, slot: Slot)
    requires Consistent(env, t) && slot in t.tried
    ensures t.tried[slot] in t.info && t.info[t.tried[slot]].inTried && slot == TriedSlot(env, t.info[t.tried[slot]].service)
  {
    assert TriedSlotOk(env, t, slot);
  }

  lemma HolderOk(env: Env, t: Tables, slot: Slot)
    requires Shaped(env, t) && slot in t.news
    ensures t.news[slot] in t.info && t.info[t.news[slot]].refCount >= 1 && !t.info[t.news[slot]].inTried
  {
    SlotTaken(env, t, slot);
  }

  lemma Loosen(env: Env, t: Tables, id: Id)
    requires Consistent(env, t) && id in t.info
    ensures ConsistentBut(env, t, {id}) && t.info[id].refCount <= NEW_BUCKETS_PER_ADDRESS
  {
    assert EntryOk(env, t.info[id]);
  }

  /** The tables `placed` are `t` with at most the entry `id` for `addr` added. */
  ghost predicate Enters(t: Tables, placed: Tables, id: Id, addr: Service) {
    && placed.tried == t.tried && t.idCount <= placed.idCount
    && id in placed.info && placed.info[id].service == addr && (id in t.info || id.n >= t.idCount)
    && (id in t.info ==> t.info[id].service == addr)
    && (forall k :: k in placed.info && k != id ==> k in t.info && placed.info[k].service == t.info[k].service)
  }

  lemma CreatedEnters(env: Env, t: Tables, a: AddrInfo)
    requires NextId(t) !in t.info
    ensures Enters(t, Create(env, t, a), NextId(t), a.service)
    ensures NextId(t) in Create(env, t, a).info && Create(env, t, a).info[NextId(t)] == a.(randomPos := |t.random|)
  {
  }

  lemma RefreshedEnters(t: Tables, u: Tables, id: Id)
    requires id in t.info && OnlyStats(t.info, u.info, Some(id)) && u.tried == t.tried && u.idCount == t.idCount
    ensures Enters(t, u, id, t.info[id].service)
  {
  }

  /** Placing an entry adds no address but its own and takes nothing from the tried table. */
  lemma PlacedGrows(env: Env, t: Tables, placed: Tables, u: Tables, id: Id, addr: Service)
    requires Consistent(env, t) && Consistent(env, u) && Retains(placed.info, u.info)
    requires Enters(t, placed, id, addr) && u.tried == placed.tried && placed.idCount == u.idCount
    ensures Grows(t, u) && (forall s :: s in u.addr ==> s == addr || s in t.addr)
    ensures id in u.info ==> addr in u.addr && u.addr[addr] == id
  {
    hide Consistent, Grows;
    if id in u.info { KnownByAddress(env, u, id); }
    forall s | s in u.addr && s != addr ensures s in t.addr {
      FoundOk(env, u, s);
      KnownByAddress(env, t, u.addr[s]);
    }
    GrowsIf(env, t, u);
  }

  lemma KnownByAddress(env: Env, t: Tables, id: Id)
    requires Consistent(env, t) && id in t.info
    ensures t.info[id].service in t.addr && t.addr[t.info[id].service] == id
  {
    assert IdOk(t, id);
  }

  lemma FoundOk(env: Env, t: Tables, addr: Service)
    requires Consistent(env, t) && addr in t.addr
    ensures t.addr[addr] in t.info && t.info[t.addr[addr]].service == addr && EntryOk(env, t.info[t.addr[addr]])
  {
    assert AddrOk(t, addr);
  }

  /** At most one entry changes, and it stays in its place. */
  ghost predicate OnlyStats(before: Infos, after: Infos, id: Option<Id>) {
    && (forall k :: k in before <==> k in after)
    && (forall k :: k in before && Some(k) != id ==> after[k] == before[k])
    && (id.Some? && id.value in before ==>
          var a, b := before[id.value], after[id.value];
          a.service == b.service && a.inTried == b.inTried && a.refCount == b.refCount && a.randomPos == b.randomPos)
  }

  lemma SameGrows(t: Tables)
    ensures Grows(t, t)
  {
  }

  lemma CollisionAdded(env: Env, t: Tables, ids: set<Id>, id: Id)
    requires Consistent(env, t) && CollisionsOk(env, t, ids) && |ids| < TRIED_COLLISION_SIZE
    requires id in t.info && TriedSlot(env, t.info[id].service) in t.tried
    ensures CollisionsOk(env, t, ids + {id})
  {
    hide TriedSlot, Counted, Placed, Healthy;
    IndexedAt(t, id);
    OneMoreId(ids, id);
  }

  lemma OneMoreId(ids: set<Id>, id: Id)
    ensures |ids + {id}| <= |ids| + 1
  {
    if id in ids { assert ids + {id} == ids; }
  }

  /** What MakeTried relies on along the way. */
  lemma MakeTriedReady(env: Env, t: Tables, id: Id)
    requires EnvOk(env) && Consistent(env, t) && id in t.info && !t.info[id].inTried && t.info[id].lastSuccess > 0
    ensures Placed(env, t) && t.info[id].refCount >= 1
    ensures id in Withdrawn(env, t, id).info && Withdrawn(env, t, id).info[id].service == t.info[id].service
    ensures var slot := TriedSlot(env, t.info[id].service); var w := Withdrawn(env, t, id);
            slot in w.tried ==>
              && CanEvict(env, w, slot) && w.tried[slot] in w.info
              && id in Evict(env, w, slot).info && Evict(env, w, slot).info[id].service == t.info[id].service
              && var home := Home(env, w, slot);
                 home in w.news ==> w.news[home] in w.info && w.news[home] != w.tried[slot]
                                    && w.info[w.news[home]].refCount > 0 && !w.info[w.news[home]].inTried
  {
    hide Counted, TriedSlot, Evict, NewSlot, Home, Placed, Indexed, Healthy;
    var news, trieds, slot := NewIds(t.info), TriedIds(t.info), TriedSlot(env, t.info[id].service);
    HoldersNew(env, t);
    WithdrawKeeps(env, t, id, news, trieds);
    var w := Withdrawn(env, t, id);
    if slot in w.tried {
      ExchangeKeeps(env, w, id, slot, news - {id}, trieds);
    }
  }

  lemma BucketBound(env: Env, s: Service, a: NetAddr)
    requires EnvOk(env)
    ensures env.newBucket(s, a) < env.newBuckets
  {
  }

  /** Looking at one bucket either frees the entry's position there or finds it has none. */
  lemma VisitOne(env: Env, start: Tables, now: Tables, id: Id, freed: set<Slot>, first: nat, n: nat)
    requires env.newBuckets > 0 && Freed(start, now, id, freed)
    ensures var slot := InBucket(env, now.info[id].service, (first + n) % env.newBuckets);
            && (!(slot in now.news && now.news[slot] == id) ==> Visited(env, start, id, freed, first, n))
            && Visited(env, start, id, freed + {slot}, first, n)
  {
  }

  lemma StillVisited(env: Env, start: Tables, id: Id, freed: set<Slot>, slot: Slot, first: nat, n: nat)
    requires forall m :: 0 <= m < n ==> Visited(env, start, id, freed, first, m)
    ensures forall m :: 0 <= m < n ==> Visited(env, start, id, freed + {slot}, first, m)
  {
    forall m | 0 <= m < n ensures Visited(env, start, id, freed + {slot}, first, m) {
      assert Visited(env, start, id, freed, first, m);
    }
  }

  /** The tables part-way through ClearAllNew: the positions in `freed` have been given up. */
  ghost predicate Freed(start: Tables, now: Tables, id: Id, freed: set<Slot>) {
    && id in start.info && freed <= SlotsOf(start.news, id)
    && now == start.(news := start.news - freed,
                     info := start.info[id := start.info[id].(refCount := start.info[id].refCount - |freed|)])
  }

  ghost predicate Visited(env: Env, start: Tables, id: Id, freed: set<Slot>, first: nat, m: nat) {
    env.newBuckets > 0 && id in start.info &&
    var slot := InBucket(env, start.info[id].service, (first + m) % env.newBuckets);
    slot in SlotsOf(start.news, id) ==> slot in freed
  }

  lemma NothingFreed(start: Tables, id: Id)
    requires id in start.info
    ensures Freed(start, start, id, {})
  {
    assert start.news - {} == start.news;
    assert start.info[id := start.info[id].(refCount := start.info[id].refCount - 0)] == start.info;
  }

  lemma FreeOne(start: Tables, now: Tables, id: Id, freed: set<Slot>, slot: Slot)
    requires Freed(start, now, id, freed) && slot in now.news && now.news[slot] == id && id in now.info
    ensures Freed(start, now.(news := now.news - {slot}, info := now.info[id := now.info[id].(refCount := now.info[id].refCount - 1)]),
                  id, freed + {slot})
  {
    assert start.news - freed - {slot} == start.news - (freed + {slot});
  }

  lemma AllVisited(env: Env, start: Tables, now: Tables, id: Id, freed: set<Slot>, first: nat)
    requires Placed(env, start) && first < env.newBuckets && Freed(start, now, id, freed)
    requires forall m :: 0 <= m < env.newBuckets ==> Visited(env, start, id, freed, first, m)
    ensures freed == SlotsOf(start.news, id)
  {
    forall s | s in SlotsOf(start.news, id) ensures s in freed {
      assert NewSlotOk(env, start, s);
      var m := if s.bucket >= first then s.bucket - first else s.bucket + env.newBuckets - first;
      WrapsTo(s.bucket, env.newBuckets);
      assert Visited(env, start, id, freed, first, m);
    }
  }

  lemma WrapsTo(b: nat, n: nat)
    requires b < n
    ensures b % n == b && (b + n) % n == b
  {
    assert (b + n) / n == 1 + b / n && b / n == 0;
  }

  lemma AllFreed(env: Env, start: Tables, now: Tables, id: Id, freed: set<Slot>)
    requires Freed(start, now, id, freed) && Placed(env, start)
    requires now.info[id].refCount == 0 || freed == SlotsOf(start.news, id)
    ensures now == Unreffed(start, id)
  {
    assert RefsOk(env, start, id);
    var held := SlotsOf(start.news, id);
    assert |held| == |freed| + |held - freed|;
    assert freed == held by { assert held - freed == {}; }
    FreedNews(start, id);
  }

  lemma FreedNews(t: Tables, id: Id)
    requires id in t.info
    ensures t.news - SlotsOf(t.news, id) == Unreffed(t, id).news
  {
    var left, news := t.news - SlotsOf(t.news, id), Unreffed(t, id).news;
    forall s ensures s in left <==> s in news {}
    forall s | s in left ensures left[s] == news[s] {}
  }
}
