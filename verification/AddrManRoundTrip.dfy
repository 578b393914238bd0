/** Reading back what was written: the same manager up to the numbering of its entries.

    Both tables, the reference counts and the counters come back, every entry comes back, and the
    reader's own consistency check passes. */
module AddrManRoundTrip {
  import opened Wrappers
  import opened Sequences
  import opened AddrTables
  import opened AddrManCheck
  import opened AddrManDisk

  // ------------------------------------------------------------ what is to be shown

  /** The same stored data in the same table; what is memory only starts afresh. */
  ghost predicate CopyOf(a: AddrInfo, b: AddrInfo) {
    && b.service == a.service && b.time == a.time && b.services == a.services && b.source == a.source
    && b.lastSuccess == a.lastSuccess && b.attempts == a.attempts && b.inTried == a.inTried
    && b.lastTry == 0 && b.lastCountAttempt == 0
  }

  /** Entry i of u is a copy of the entry of t called names[i], for i below n; u has no other entries. */
  ghost predicate Copied(t: Tables, u: Tables, names: seq<Id>, n: nat) {
    && n <= |names| && u.idCount == n
    && (forall id :: id in u.info <==> 0 <= id.n < n)
    && (forall i :: 0 <= i < n ==> names[i] in t.info && CopyOf(t.info[names[i]], u.info[Id(i)]))
  }

  /** A table that says the same as another once its ids are read as names. */
  ghost predicate SameTable(a: Table, b: Table, names: seq<Id>) {
    && (forall s :: s in a <==> s in b)
    && (forall s :: s in b ==> 0 <= b[s].n < |names| && names[b[s].n] == a[s])
  }

  ghost predicate SameManager(t: Tables, u: Tables, names: seq<Id>) {
    && Enumerates(names, t.info) && Copied(t, u, names, |names|)
    && SameTable(t.news, u.news, names) && SameTable(t.tried, u.tried, names)
    && (forall i :: 0 <= i < |names| ==> names[i] in t.info && t.info[names[i]].refCount == u.info[Id(i)].refCount)
    && u.nNew == t.nNew && u.nTried == t.nTried
    && forall net :: CountAt(u.counts, net) == CountAt(t.counts, net)
  }

  // ------------------------------------------------------------------ the entries

  ghost predicate Sound(env: Env, u: Tables) {
    Shaped(env, u) && Counted(env, u, NewIds(u.info), TriedIds(u.info))
  }

  lemma NothingLoaded(env: Env, t: Tables, names: seq<Id>)
    ensures Sound(env, EMPTY) && Copied(t, EMPTY, names, 0)
  {
    assert NewIds(EMPTY.info) == {} && TriedIds(EMPTY.info) == {};
    forall net ensures OfNet(env, EMPTY.info, {}, net) == {} {}
  }

  lemma SoundIndexed(env: Env, u: Tables)
    requires Sound(env, u)
    ensures Indexed(u) && Placed(env, u)
  {
  }

  /** The next entry's address is not known yet. */
  lemma NextIsFresh(t: Tables, u: Tables, names: seq<Id>, n: nat)
    requires Indexed(t) && Indexed(u) && Copied(t, u, names, n) && Distinct(names) && n < |names| && names[n] in t.info
    ensures t.info[names[n]].service !in u.addr
  {
    forall s | s in u.addr ensures s != t.info[names[n]].service {
      assert AddrOk(u, s);
      var i := u.addr[s].n;
      assert u.addr[s] == Id(i) && CopyOf(t.info[names[i]], u.info[Id(i)]);
      assert IdOk(t, names[i]) && IdOk(t, names[n]) && names[i] != names[n];
    }
  }

  lemma CopyHealthy(env: Env, a: AddrInfo)
    requires EntryOk(env, a)
    ensures EntryOk(env, FromDisk(ToDisk(a)))
  {
  }

  lemma CreateCopies(env: Env, t: Tables, u: Tables, names: seq<Id>, n: nat)
    requires Copied(t, u, names, n) && n < |names| && names[n] in t.info && !t.info[names[n]].inTried
    ensures Copied(t, Create(env, u, FromDisk(ToDisk(t.info[names[n]]))), names, n + 1)
  {
    var v := Create(env, u, FromDisk(ToDisk(t.info[names[n]])));
    assert NextId(u) == Id(n);
    forall i | 0 <= i < n + 1 ensures names[i] in t.info && CopyOf(t.info[names[i]], v.info[Id(i)]) {
      if i < n { assert CopyOf(t.info[names[i]], u.info[Id(i)]); }
    }
  }

  lemma LoadOneNew(env: Env, t: Tables, u: Tables, names: seq<Id>, n: nat)
    requires Consistent(env, t) && Distinct(names) && n < |names| && names[n] in t.info && !t.info[names[n]].inTried
    requires Sound(env, u) && Copied(t, u, names, n)
    ensures var v := Create(env, u, FromDisk(ToDisk(t.info[names[n]])));
            Sound(env, v) && Copied(t, v, names, n + 1)
  {
    hide Consistent, Sound, Copied, EntryOk, Indexed, Distinct;
    var a := FromDisk(ToDisk(t.info[names[n]]));
    EntriesHealthy(env, t, names[n]);
    CopyHealthy(env, t.info[names[n]]);
    SoundIndexed(env, u);
    NextIsFresh(t, u, names, n);
    CreateCopies(env, t, u, names, n);
    CreateSound(env, u, a);
  }

  lemma EntriesHealthy(env: Env, t: Tables, id: Id)
    requires Consistent(env, t) && id in t.info
    ensures EntryOk(env, t.info[id]) && Indexed(t) && Placed(env, t)
  {
  }

  lemma CreateSound(env: Env, u: Tables, a: AddrInfo)
    requires Sound(env, u) && a.service !in u.addr && a.refCount == 0 && !a.inTried && EntryOk(env, a)
    ensures Sound(env, Create(env, u, a)) && NextId(u) !in u.info
  {
    hide Shaped, Counted, EntryOk;
    CreateKeeps(env, u, a, NewIds(u.info), TriedIds(u.info));
    var v := Create(env, u, a);
    assert NewIds(v.info) == NewIds(u.info) + {NextId(u)} && TriedIds(v.info) == TriedIds(u.info);
  }

  /** The i-th stored entry is the one called names[m + i], of the given table. */
  ghost predicate StoredAs(t: Tables, names: seq<Id>, m: nat, entries: seq<DiskInfo>, i: nat, inTried: bool) {
    && i < |entries| && m + i < |names| && names[m + i] in t.info
    && t.info[names[m + i]].inTried == inTried && entries[i] == ToDisk(t.info[names[m + i]])
  }

  lemma {:induction false} LoadNewCopies(env: Env, t: Tables, names: seq<Id>, entries: seq<DiskInfo>, n: nat)
    requires Consistent(env, t) && Distinct(names) && n <= |entries| <= |names|
    requires forall i :: 0 <= i < |entries| ==> StoredAs(t, names, 0, entries, i, false)
    ensures Sound(env, LoadNew(env, entries, n)) && Copied(t, LoadNew(env, entries, n), names, n)
  {
    hide Consistent, Sound, Copied, Create;
    if n == 0 {
      NothingLoaded(env, t, names);
    } else {
      LoadNewCopies(env, t, names, entries, n - 1);
      assert StoredAs(t, names, 0, entries, n - 1, false);
      LoadOneNew(env, t, LoadNew(env, entries, n - 1), names, n - 1);
    }
  }

  /** No other tried entry has the same position. */
  lemma TriedPositionFree(env: Env, t: Tables, u: Tables, names: seq<Id>, n: nat)
    requires Placed(env, t) && Placed(env, u) && Copied(t, u, names, n) && Distinct(names) && n < |names|
    requires names[n] in t.info && t.info[names[n]].inTried
    ensures TriedSlot(env, t.info[names[n]].service) !in u.tried
  {
    hide TriedSlot;
    forall s | s in u.tried ensures s != TriedSlot(env, t.info[names[n]].service) {
      assert TriedSlotOk(env, u, s);
      var i := u.tried[s].n;
      assert u.tried[s] == Id(i) && CopyOf(t.info[names[i]], u.info[Id(i)]);
      assert RefsOk(env, t, names[i]) && RefsOk(env, t, names[n]) && names[i] != names[n];
    }
  }

  /** Taking in a tried entry is creating it, uncounting it as new and promoting it. */
  lemma AdmitIs(env: Env, u: Tables, a: AddrInfo)
    requires env.valid(a.service) && TriedSlot(env, a.service) !in u.tried && !a.inTried
    ensures var v := Create(env, u, a);
            var w := v.(nNew := v.nNew - 1, counts := Bump(v.counts, env.network(a.service), -1, 0));
            AdmitTried(env, u, a) == Promote(env, w, NextId(u), TriedSlot(env, a.service))
  {
    hide TriedSlot;
  }

  lemma AdmitSound(env: Env, u: Tables, a: AddrInfo)
    requires Sound(env, u) && a.service !in u.addr && a.refCount == 0 && !a.inTried && EntryOk(env, a)
    requires env.valid(a.service) && TriedSlot(env, a.service) !in u.tried && a.lastSuccess > 0
    ensures Sound(env, AdmitTried(env, u, a))
  {
    hide Shaped, Counted, EntryOk, TriedSlot, AdmitTried;
    AdmitIs(env, u, a);
    var id, slot := NextId(u), TriedSlot(env, a.service);
    CreateKeeps(env, u, a, NewIds(u.info), TriedIds(u.info));
    var v := Create(env, u, a);
    UncountNew(env, v, NewIds(u.info) + {id}, TriedIds(u.info), id);
    var w := v.(nNew := v.nNew - 1, counts := Bump(v.counts, env.network(a.service), -1, 0));
    assert NewIds(u.info) + {id} - {id} == NewIds(u.info);
    ShapedButCounts(env, v, w);
    PromoteKeeps(env, w, id, slot, NewIds(u.info), TriedIds(u.info));
    var x := Promote(env, w, id, slot);
    assert NewIds(x.info) == NewIds(u.info) && TriedIds(x.info) == TriedIds(u.info) + {id};
  }

  lemma ShapedButCounts(env: Env, v: Tables, w: Tables)
    requires Shaped(env, v) && w == v.(nNew := w.nNew, counts := w.counts)
    ensures Shaped(env, w)
  {
    hide Indexed, Placed, Healthy;
    IndexedCongruent(v, w);
    PlacedCongruent(env, v, w);
    HealthyInfo(env, v, w);
  }

  lemma AdmitCopies(env: Env, t: Tables, u: Tables, names: seq<Id>, n: nat)
    requires Copied(t, u, names, n) && n < |names| && names[n] in t.info && t.info[names[n]].inTried
    requires env.valid(t.info[names[n]].service) && TriedSlot(env, t.info[names[n]].service) !in u.tried
    ensures Copied(t, AdmitTried(env, u, FromDisk(ToDisk(t.info[names[n]]))), names, n + 1)
  {
    hide TriedSlot;
    var v := AdmitTried(env, u, FromDisk(ToDisk(t.info[names[n]])));
    assert NextId(u) == Id(n);
    forall i | 0 <= i < n + 1 ensures names[i] in t.info && CopyOf(t.info[names[i]], v.info[Id(i)]) {
      if i < n { assert CopyOf(t.info[names[i]], u.info[Id(i)]); }
    }
  }

  lemma LoadOneTried(env: Env, t: Tables, u: Tables, names: seq<Id>, n: nat)
    requires EnvOk(env) && Consistent(env, t) && Distinct(names) && n < |names| && names[n] in t.info && t.info[names[n]].inTried
    requires Sound(env, u) && Copied(t, u, names, n)
    ensures var v := AdmitTried(env, u, FromDisk(ToDisk(t.info[names[n]])));
            Sound(env, v) && Copied(t, v, names, n + 1) && v.news == u.news
  {
    hide Consistent, Sound, Copied, Indexed, Placed, Distinct, TriedSlot;
    var a := FromDisk(ToDisk(t.info[names[n]]));
    EntriesHealthy(env, t, names[n]);
    CopyHealthy(env, t.info[names[n]]);
    SoundIndexed(env, u);
    NextIsFresh(t, u, names, n);
    TriedPositionFree(env, t, u, names, n);
    AdmitCopies(env, t, u, names, n);
    AdmitSound(env, u, a);
  }

  lemma {:induction false} LoadTriedCopies(env: Env, t: Tables, u: Tables, names: seq<Id>, m: nat, entries: seq<DiskInfo>, n: nat)
    requires EnvOk(env) && Consistent(env, t) && Distinct(names) && n <= |entries| && m + |entries| == |names|
    requires forall i :: 0 <= i < |entries| ==> StoredAs(t, names, m, entries, i, true)
    requires Sound(env, u) && Copied(t, u, names, m)
    ensures var v := LoadTried(env, u, entries, n);
            Sound(env, v) && Copied(t, v, names, m + n) && v.news == u.news
  {
    hide EnvOk, Consistent, Sound, Copied, AdmitTried, Distinct;
    if n > 0 {
      LoadTriedCopies(env, t, u, names, m, entries, n - 1);
      assert StoredAs(t, names, m, entries, n - 1, true);
      LoadOneTried(env, t, LoadTried(env, u, entries, n - 1), names, m + n - 1);
    }
  }

  // ---------------------------------------------------------------- the references

  /** The occupied positions of the first m new buckets, in the order they are written. */
  ghost function AllSlots(news: Table, size: nat, m: nat): seq<Slot> {
    if m == 0 then [] else AllSlots(news, size, m - 1) + BucketSlots(news, m - 1, size)
  }

  /** Reference k stands for position k. */
  ghost predicate StandsFor(news: Table, ids: seq<Id>, r: Reference, s: Slot) {
    s in news && r.bucket == s.bucket && 0 <= r.index < |ids| && ids[r.index] == news[s]
  }

  ghost predicate Matches(news: Table, ids: seq<Id>, rs: seq<Reference>, slots: seq<Slot>) {
    |rs| == |slots| && forall k :: 0 <= k < |rs| ==> StandsFor(news, ids, rs[k], slots[k])
  }

  lemma {:induction false} BucketSlotsAre(news: Table, bucket: nat, n: nat)
    ensures Distinct(BucketSlots(news, bucket, n))
    ensures forall s :: s in BucketSlots(news, bucket, n) <==> s in news && s.bucket == bucket && s.pos < n
  {
    if n > 0 { BucketSlotsAre(news, bucket, n - 1); }
  }

  lemma {:induction false} AllSlotsAre(news: Table, size: nat, m: nat)
    ensures Distinct(AllSlots(news, size, m))
    ensures forall s :: s in AllSlots(news, size, m) <==> s in news && s.bucket < m && s.pos < size
  {
    if m > 0 {
      AllSlotsAre(news, size, m - 1);
      BucketSlotsAre(news, m - 1, size);
      hide BucketSlots;
      var front, row := AllSlots(news, size, m - 1), BucketSlots(news, m - 1, size);
      DistinctConcat(front, row);
    }
  }

  lemma DistinctConcat(a: seq<Slot>, b: seq<Slot>)
    requires Distinct(a) && Distinct(b) && forall s :: s in a ==> s !in b
    ensures Distinct(a + b)
  {
    forall i, j | 0 <= i < j < |a + b| ensures (a + b)[i] != (a + b)[j] {
      if i < |a| <= j { assert a[i] in a && b[j - |a|] in b; }
    }
  }

  lemma {:induction false} RowMatches(news: Table, ids: seq<Id>, bucket: nat, slots: seq<Slot>, row: seq<int>, n: nat)
    requires RowWritten(news, ids, slots, row) && n <= |row| && forall s :: s in slots ==> s.bucket == bucket
    ensures Matches(news, ids, RowReferences(bucket, row, n, |ids|), slots[..n])
  {
    if n > 0 {
      RowMatches(news, ids, bucket, slots, row, n - 1);
      assert slots[..n] == slots[..n - 1] + [slots[n - 1]];
    }
  }

  lemma NoneMatch(news: Table, ids: seq<Id>)
    ensures Matches(news, ids, [], [])
  {
  }

  lemma MatchesConcat(news: Table, ids: seq<Id>, a: seq<Reference>, x: seq<Slot>, b: seq<Reference>, y: seq<Slot>)
    requires Matches(news, ids, a, x) && Matches(news, ids, b, y)
    ensures Matches(news, ids, a + b, x + y)
  {
  }

  lemma BucketMatches(news: Table, ids: seq<Id>, bucket: nat, size: nat, row: seq<int>)
    requires RowWritten(news, ids, BucketSlots(news, bucket, size), row)
    ensures Matches(news, ids, RowReferences(bucket, row, |row|, |ids|), BucketSlots(news, bucket, size))
  {
    hide BucketSlots, RowReferences, Matches, RowWritten, Distinct;
    var slots := BucketSlots(news, bucket, size);
    BucketSlotsAre(news, bucket, size);
    RowLength(news, ids, slots, row);
    RowMatches(news, ids, bucket, slots, row, |row|);
    assert slots[..|row|] == slots;
  }

  lemma {:induction false} ReferencesMatch(news: Table, ids: seq<Id>, size: nat, buckets: seq<seq<int>>, m: nat)
    requires m <= |buckets|
    requires forall b :: 0 <= b < |buckets| ==> RowWritten(news, ids, BucketSlots(news, b, size), buckets[b])
    ensures Matches(news, ids, References(buckets, m, |ids|), AllSlots(news, size, m))
  {
    hide Matches, RowWritten, BucketSlots, RowReferences;
    if m == 0 {
      NoneMatch(news, ids);
    } else {
      ReferencesMatch(news, ids, size, buckets, m - 1);
      BucketMatches(news, ids, m - 1, size, buckets[m - 1]);
      MatchesConcat(news, ids, References(buckets, m - 1, |ids|), AllSlots(news, size, m - 1),
                    RowReferences(m - 1, buckets[m - 1], |buckets[m - 1]|, |ids|), BucketSlots(news, m - 1, size));
    }
  }

  lemma RowLength(news: Table, ids: seq<Id>, slots: seq<Slot>, row: seq<int>)
    requires RowWritten(news, ids, slots, row)
    ensures |row| == |slots|
  {
  }

  // ----------------------------------------------------------- restoring positions

  /** The first k of the given positions are held by the copies of their former holders, and no others. */
  ghost predicate Restored(t: Tables, u: Tables, names: seq<Id>, slots: seq<Slot>, k: nat) {
    && k <= |slots|
    && (forall s :: s in u.news <==> s in slots[..k])
    && (forall s :: s in u.news ==> s in t.news && 0 <= u.news[s].n < |names| && names[u.news[s].n] == t.news[s])
  }

  /** An entry whose references are not all restored yet has room for another. */
  lemma RoomLeft(env: Env, t: Tables, u: Tables, names: seq<Id>, slots: seq<Slot>, k: nat, id: Id)
    requires Placed(env, t) && Healthy(env, t) && Placed(env, u) && Restored(t, u, names, slots, k)
    requires k < |slots| && slots[k] in t.news && slots[k] !in u.news
    requires id in u.info && 0 <= id.n < |names| && names[id.n] == t.news[slots[k]]
    ensures u.info[id].refCount < NEW_BUCKETS_PER_ADDRESS
  {
    hide InBucket, TriedSlot;
    var s := slots[k];
    assert NewSlotOk(env, t, s);
    assert RefsOk(env, t, names[id.n]) && RefsOk(env, u, id) && EntryOk(env, t.info[names[id.n]]);
    var held, regained := SlotsOf(t.news, names[id.n]), SlotsOf(u.news, id);
    assert regained <= held - {s};
    assert |held - {s}| == |regained| + |held - {s} - regained|;
  }

  lemma RestoreOne(env: Env, t: Tables, u: Tables, names: seq<Id>, slots: seq<Slot>, k: nat, r: Reference)
    requires EnvOk(env) && Consistent(env, t) && Sound(env, u) && Copied(t, u, names, |names|)
    requires Restored(t, u, names, slots, k) && Distinct(slots) && k < |slots|
    requires StandsFor(t.news, names, r, slots[k])
    ensures Id(r.index) in u.info
    ensures Restore(env, u, r, true) == Link(u, slots[k], Id(r.index))
    ensures Sound(env, Restore(env, u, r, true)) && Copied(t, Restore(env, u, r, true), names, |names|)
    ensures Restored(t, Restore(env, u, r, true), names, slots, k + 1)
  {
    hide Counted, Indexed, Healthy, Restored, Distinct;
    var id, s := Id(r.index), slots[k];
    RestoredNot(t, u, names, slots, k);
    HolderOf(env, t, u, names, r, s);
    RoomLeft(env, t, u, names, slots, k, id);
    hide Consistent, Placed, InBucket;
    assert Restore(env, u, r, true) == Link(u, s, id);
    hide Restore;
    LinkSound(env, u, s, id);
    LinkCopied(t, u, names, s, id);
    LinkRestored(t, u, names, slots, k, id);
  }

  lemma RestoredNot(t: Tables, u: Tables, names: seq<Id>, slots: seq<Slot>, k: nat)
    requires Restored(t, u, names, slots, k) && Distinct(slots) && k < |slots|
    ensures slots[k] !in u.news
  {
  }

  /** The entry a reference names is the copy of the position's holder, and belongs there. */
  lemma HolderOf(env: Env, t: Tables, u: Tables, names: seq<Id>, r: Reference, s: Slot)
    requires EnvOk(env) && Placed(env, t) && Healthy(env, t) && Copied(t, u, names, |names|) && StandsFor(t.news, names, r, s)
    ensures Id(r.index) in u.info && !u.info[Id(r.index)].inTried && env.valid(u.info[Id(r.index)].service)
    ensures s == InBucket(env, u.info[Id(r.index)].service, r.bucket) && s.bucket < env.newBuckets
  {
    hide InBucket, TriedSlot;
    assert NewSlotOk(env, t, s) && EntryOk(env, t.info[t.news[s]]);
    assert CopyOf(t.info[names[r.index]], u.info[Id(r.index)]);
  }

  lemma LinkSound(env: Env, u: Tables, s: Slot, id: Id)
    requires Sound(env, u) && s !in u.news && id in u.info && !u.info[id].inTried && u.info[id].refCount < NEW_BUCKETS_PER_ADDRESS
    requires s == InBucket(env, u.info[id].service, s.bucket) && s.bucket < env.newBuckets
    ensures Sound(env, Link(u, s, id))
  {
    hide Shaped, Counted, InBucket;
    LinkKeeps(env, u, s, id, NewIds(u.info), TriedIds(u.info));
    var v := Link(u, s, id);
    assert NewIds(v.info) == NewIds(u.info) && TriedIds(v.info) == TriedIds(u.info);
  }

  lemma LinkCopied(t: Tables, u: Tables, names: seq<Id>, s: Slot, id: Id)
    requires Copied(t, u, names, |names|) && id in u.info
    ensures Copied(t, Link(u, s, id), names, |names|)
  {
    var v := Link(u, s, id);
    forall i | 0 <= i < |names| ensures names[i] in t.info && CopyOf(t.info[names[i]], v.info[Id(i)]) {
      assert CopyOf(t.info[names[i]], u.info[Id(i)]);
    }
  }

  lemma LinkRestored(t: Tables, u: Tables, names: seq<Id>, slots: seq<Slot>, k: nat, id: Id)
    requires Restored(t, u, names, slots, k) && k < |slots| && id in u.info
    requires slots[k] in t.news && 0 <= id.n < |names| && names[id.n] == t.news[slots[k]]
    ensures Restored(t, Link(u, slots[k], id), names, slots, k + 1)
  {
    assert slots[..k + 1] == slots[..k] + [slots[k]];
  }

  lemma NothingRestored(t: Tables, u: Tables, names: seq<Id>, slots: seq<Slot>)
    requires u.news == map[]
    ensures Restored(t, u, names, slots, 0)
  {
  }

  lemma MatchAt(news: Table, ids: seq<Id>, rs: seq<Reference>, slots: seq<Slot>, k: nat)
    requires Matches(news, ids, rs, slots) && k < |rs|
    ensures k < |slots| && StandsFor(news, ids, rs[k], slots[k])
  {
  }

  lemma {:induction false} RestoreAllCopies(env: Env, t: Tables, u: Tables, names: seq<Id>, slots: seq<Slot>, rs: seq<Reference>, n: nat)
    requires EnvOk(env) && Consistent(env, t) && Sound(env, u) && Copied(t, u, names, |names|) && u.news == map[]
    requires Matches(t.news, names, rs, slots) && Distinct(slots) && n <= |rs|
    requires forall k :: 0 <= k < |rs| ==> Id(rs[k].index) in u.info
    ensures var v := RestoreAll(env, u, rs, n, true);
            Sound(env, v) && Copied(t, v, names, |names|) && Restored(t, v, names, slots, n) && v.tried == u.tried
  {
    hide EnvOk, Consistent, Sound, Copied, Restore, Distinct, Matches, Restored, StandsFor;
    if n == 0 {
      NothingRestored(t, u, names, slots);
    } else {
      RestoreAllCopies(env, t, u, names, slots, rs, n - 1);
      MatchAt(t.news, names, rs, slots, n - 1);
      RestoreOne(env, t, RestoreAll(env, u, rs, n - 1, true), names, slots, n - 1, rs[n - 1]);
    }
  }

  // ------------------------------------------------------------------ the counters

  ghost function Numbers(n: nat): seq<Id> {
    seq(n, i => Id(i))
  }

  lemma {:induction false} PickedAlike(names: seq<Id>, a: set<Id>, b: set<Id>, n: nat)
    requires n <= |names| && forall i :: 0 <= i < |names| ==> (Id(i) in b <==> names[i] in a)
    ensures |Picked(names[..n], a)| == |Picked(Numbers(|names|)[..n], b)|
  {
    if n > 0 {
      PickedAlike(names, a, b, n - 1);
      PickNext(names, n - 1, a);
      PickNext(Numbers(|names|), n - 1, b);
    }
  }

  /** A set of ids and the set of their numbers are equally large. */
  lemma RenamedSize(names: seq<Id>, a: set<Id>, b: set<Id>)
    requires Distinct(names) && forall id :: id in a ==> id in names
    requires forall id :: id in b ==> 0 <= id.n < |names|
    requires forall i :: 0 <= i < |names| ==> (Id(i) in b <==> names[i] in a)
    ensures |a| == |b|
  {
    var n, numbers := |names|, Numbers(|names|);
    assert names[..n] == names && numbers[..n] == numbers;
    PickedAlike(names, a, b, n);
    PickedCount(names, a, Picked(names, a));
    assert Distinct(numbers);
    forall id | id in b ensures id in numbers { assert numbers[id.n] == id; }
    PickedCount(numbers, b, Picked(numbers, b));
  }

  lemma SameNet(env: Env, t: Tables, u: Tables, names: seq<Id>, net: Network, i: nat)
    requires Enumerates(names, t.info) && Copied(t, u, names, |names|) && i < |names|
    requires Known(t.info, NewIds(t.info)) && Known(t.info, TriedIds(t.info))
    requires Known(u.info, NewIds(u.info)) && Known(u.info, TriedIds(u.info))
    ensures Id(i) in OfNet(env, u.info, NewIds(u.info), net) <==> names[i] in OfNet(env, t.info, NewIds(t.info), net)
    ensures Id(i) in OfNet(env, u.info, TriedIds(u.info), net) <==> names[i] in OfNet(env, t.info, TriedIds(t.info), net)
  {
    assert CopyOf(t.info[names[i]], u.info[Id(i)]);
  }

  lemma SameCount(env: Env, t: Tables, u: Tables, names: seq<Id>, net: Network)
    requires Enumerates(names, t.info) && Copied(t, u, names, |names|)
    ensures Known(t.info, NewIds(t.info)) && Known(t.info, TriedIds(t.info))
    ensures Known(u.info, NewIds(u.info)) && Known(u.info, TriedIds(u.info))
    ensures |OfNet(env, t.info, NewIds(t.info), net)| == |OfNet(env, u.info, NewIds(u.info), net)|
    ensures |OfNet(env, t.info, TriedIds(t.info), net)| == |OfNet(env, u.info, TriedIds(u.info), net)|
  {
    hide CopyOf, Distinct;
    forall i | 0 <= i < |names|
      ensures Id(i) in OfNet(env, u.info, NewIds(u.info), net) <==> names[i] in OfNet(env, t.info, NewIds(t.info), net)
      ensures Id(i) in OfNet(env, u.info, TriedIds(u.info), net) <==> names[i] in OfNet(env, t.info, TriedIds(t.info), net)
    {
      SameNet(env, t, u, names, net, i);
    }
    RenamedSize(names, OfNet(env, t.info, NewIds(t.info), net), OfNet(env, u.info, NewIds(u.info), net));
    RenamedSize(names, OfNet(env, t.info, TriedIds(t.info), net), OfNet(env, u.info, TriedIds(u.info), net));
  }

  lemma SameTotals(env: Env, t: Tables, u: Tables, names: seq<Id>)
    requires Enumerates(names, t.info) && Copied(t, u, names, |names|)
    requires Counted(env, t, NewIds(t.info), TriedIds(t.info)) && Counted(env, u, NewIds(u.info), TriedIds(u.info))
    ensures u.nNew == t.nNew && u.nTried == t.nTried && forall net :: CountAt(u.counts, net) == CountAt(t.counts, net)
  {
    forall i | 0 <= i < |names|
      ensures Id(i) in NewIds(u.info) <==> names[i] in NewIds(t.info)
      ensures Id(i) in TriedIds(u.info) <==> names[i] in TriedIds(t.info)
    {
      assert CopyOf(t.info[names[i]], u.info[Id(i)]);
    }
    RenamedSize(names, NewIds(t.info), NewIds(u.info));
    RenamedSize(names, TriedIds(t.info), TriedIds(u.info));
    hide OfNet, Enumerates, Copied;
    forall net ensures CountAt(u.counts, net) == CountAt(t.counts, net) {
      SameCount(env, t, u, names, net);
    }
  }

  // ------------------------------------------------------------------ both tables

  lemma TriedStays(env: Env, t: Tables, u: Tables, names: seq<Id>, s: Slot)
    requires Placed(env, t) && Placed(env, u) && Copied(t, u, names, |names|) && s in u.tried
    ensures s in t.tried && 0 <= u.tried[s].n < |names| && names[u.tried[s].n] == t.tried[s]
  {
    hide TriedSlot, InBucket;
    assert TriedSlotOk(env, u, s);
    var i := u.tried[s].n;
    assert u.tried[s] == Id(i) && CopyOf(t.info[names[i]], u.info[Id(i)]);
    assert RefsOk(env, t, names[i]);
  }

  lemma PlacedTried(env: Env, t: Tables, s: Slot)
    requires Placed(env, t) && s in t.tried
    ensures TriedSlotOk(env, t, s)
  {
  }

  lemma PlacedRefs(env: Env, t: Tables, id: Id)
    requires Placed(env, t) && id in t.info
    ensures RefsOk(env, t, id)
  {
  }

  lemma TriedReturns(env: Env, t: Tables, u: Tables, names: seq<Id>, s: Slot)
    requires Placed(env, t) && Placed(env, u) && Enumerates(names, t.info) && Copied(t, u, names, |names|) && s in t.tried
    ensures s in u.tried
  {
    hide TriedSlot, Placed, Distinct, SlotsOf;
    PlacedTried(env, t, s);
    assert t.tried[s] in names;
    var i :| 0 <= i < |names| && names[i] == t.tried[s];
    assert CopyOf(t.info[names[i]], u.info[Id(i)]);
    PlacedRefs(env, u, Id(i));
  }

  lemma SameTried(env: Env, t: Tables, u: Tables, names: seq<Id>)
    requires Placed(env, t) && Placed(env, u) && Enumerates(names, t.info) && Copied(t, u, names, |names|)
    ensures SameTable(t.tried, u.tried, names)
  {
    hide Placed, Enumerates, Copied;
    forall s | s in u.tried ensures s in t.tried && 0 <= u.tried[s].n < |names| && names[u.tried[s].n] == t.tried[s] {
      TriedStays(env, t, u, names, s);
    }
    forall s | s in t.tried ensures s in u.tried {
      TriedReturns(env, t, u, names, s);
    }
  }

  lemma SameNews(env: Env, t: Tables, u: Tables, names: seq<Id>, slots: seq<Slot>)
    requires EnvOk(env) && Placed(env, t) && Restored(t, u, names, slots, |slots|)
    requires slots == AllSlots(t.news, env.bucketSize, env.newBuckets)
    ensures SameTable(t.news, u.news, names)
  {
    forall s | s in t.news ensures s.bucket < env.newBuckets && s.pos < env.bucketSize { assert NewSlotOk(env, t, s); }
    hide EnvOk, Placed, AllSlots, Distinct;
    AllSlotsAre(t.news, env.bucketSize, env.newBuckets);
    assert slots[..|slots|] == slots;
  }

  lemma SameSlots(a: Table, b: Table, names: seq<Id>, i: nat)
    requires SameTable(a, b, names) && Distinct(names) && i < |names|
    ensures SlotsOf(a, names[i]) == SlotsOf(b, Id(i))
  {
    forall s ensures s in SlotsOf(a, names[i]) <==> s in SlotsOf(b, Id(i)) {
      if s in b { assert b[s] == Id(b[s].n) && names[b[s].n] == a[s]; }
    }
  }

  lemma SameRefs(env: Env, t: Tables, u: Tables, names: seq<Id>, i: nat)
    requires Placed(env, t) && Placed(env, u) && Distinct(names) && Copied(t, u, names, |names|)
    requires SameTable(t.news, u.news, names) && i < |names|
    ensures names[i] in t.info && t.info[names[i]].refCount == u.info[Id(i)].refCount
  {
    hide TriedSlot, Placed, SameTable, Distinct, SlotsOf;
    assert CopyOf(t.info[names[i]], u.info[Id(i)]);
    PlacedRefs(env, t, names[i]);
    PlacedRefs(env, u, Id(i));
    SameSlots(t.news, u.news, names, i);
  }

  // -------------------------------------------------------------------- the totals

  lemma SlotsFit(slots: set<Slot>, buckets: nat, size: nat)
    requires forall s :: s in slots ==> s.bucket < buckets && s.pos < size
    ensures |slots| <= buckets * size
  {
    GridSize(buckets, size);
    hide Grid;
    GridHolds(buckets, size);
    var grid := Grid(buckets, size);
    assert slots <= grid;
    assert |grid| == |slots| + |grid - slots|;
  }

  lemma TriedTotalFits(env: Env, t: Tables)
    requires EnvOk(env) && Consistent(env, t)
    ensures t.nTried <= env.triedBuckets * env.bucketSize
  {
    TriedCount(env, t);
    forall s | s in t.tried ensures s.bucket < env.triedBuckets && s.pos < env.bucketSize { assert TriedSlotOk(env, t, s); }
    hide EnvOk, Consistent;
    SlotsFit(t.tried.Keys, env.triedBuckets, env.bucketSize);
  }

  /** A table whose positions hold every one of some ids has room for as many positions. */
  lemma {:induction false} HoldersFit(table: Table, ids: set<Id>)
    requires forall id :: id in ids ==> exists s :: s in table && table[s] == id
    ensures |ids| <= |table.Keys|
    decreases |ids|
  {
    if ids != {} {
      var id :| id in ids;
      var s :| s in table && table[s] == id;
      forall other | other in ids - {id} ensures exists r :: r in table - {s} && (table - {s})[r] == other {
        var r :| r in table && table[r] == other;
        assert r in table - {s} && (table - {s})[r] == other;
      }
      HoldersFit(table - {s}, ids - {id});
      assert table.Keys == (table - {s}).Keys + {s};
    }
  }

  lemma NewTotalFits(env: Env, t: Tables)
    requires EnvOk(env) && Consistent(env, t)
    ensures t.nNew <= env.newBuckets * env.bucketSize
  {
    forall id | id in NewIds(t.info) ensures exists s :: s in t.news && t.news[s] == id {
      assert RefsOk(env, t, id);
      assert SlotsOf(t.news, id) != {};
      var s :| s in SlotsOf(t.news, id);
    }
    forall s | s in t.news ensures s.bucket < env.newBuckets && s.pos < env.bucketSize { assert NewSlotOk(env, t, s); }
    assert t.nNew == |NewIds(t.info)|;
    hide EnvOk, Consistent;
    HoldersFit(t.news, NewIds(t.info));
    SlotsFit(t.news.Keys, env.newBuckets, env.bucketSize);
  }

  lemma FlipTwice(n: int)
    ensures FlipBit30(FlipBit30(n)) == n
  {
  }

  // --------------------------------------------------------------- the round trip

  lemma WrittenReadable(env: Env, t: Tables, order: seq<Id>, checksum: int, d: Disk)
    requires EnvOk(env) && Consistent(env, t) && Written(env, t, order, checksum, d)
    ensures Readable(env, d) && BucketsOf(d) == env.newBuckets && SameBucketing(env, d, checksum)
  {
    hide EnvOk, Consistent, EntriesWritten, RowWritten;
    NewTotalFits(env, t);
    TriedTotalFits(env, t);
    FlipTwice(env.newBuckets);
  }

  lemma NamesAre(env: Env, t: Tables, order: seq<Id>)
    requires Consistent(env, t) && Enumerates(order, t.info)
    ensures Enumerates(Names(t, order), t.info) && |Names(t, order)| == t.nNew + t.nTried
    ensures |Picked(order, Referenced(t.info))| == t.nNew
  {
    hide Consistent, Picked;
    WrittenTotals(env, t, order);
    ReferencedAreNew(env, t);
    PickedFrom(order, NewIds(t.info));
    PickedFrom(order, TriedIds(t.info));
    var a, b := Picked(order, NewIds(t.info)), Picked(order, TriedIds(t.info));
    forall i, j | 0 <= i < j < |a + b| ensures (a + b)[i] != (a + b)[j] {
      if i < |a| <= j { assert a[i] in a && b[j - |a|] in b; }
    }
    forall id ensures id in a + b <==> id in t.info {}
  }

  lemma StoredEntries(env: Env, t: Tables, order: seq<Id>, checksum: int, d: Disk)
    requires Consistent(env, t) && Enumerates(order, t.info) && Written(env, t, order, checksum, d)
    ensures forall i :: 0 <= i < |d.news| ==> StoredAs(t, Names(t, order), 0, d.news, i, false)
    ensures forall i :: 0 <= i < |d.trieds| ==> StoredAs(t, Names(t, order), t.nNew, d.trieds, i, true)
  {
    hide Consistent, Picked, RowWritten;
    NamesAre(env, t, order);
    ReferencedAreNew(env, t);
    PickedFrom(order, NewIds(t.info));
    PickedFrom(order, TriedIds(t.info));
    var a, b := Picked(order, NewIds(t.info)), Picked(order, TriedIds(t.info));
    forall i | 0 <= i < |d.news| ensures StoredAs(t, Names(t, order), 0, d.news, i, false) {
      assert a[i] in a && Names(t, order)[0 + i] == a[i];
    }
    forall i | 0 <= i < |d.trieds| ensures StoredAs(t, Names(t, order), t.nNew, d.trieds, i, true) {
      assert b[i] in b && Names(t, order)[t.nNew + i] == b[i];
    }
  }

  lemma EntriesRead(env: Env, t: Tables, order: seq<Id>, checksum: int, d: Disk)
    requires EnvOk(env) && Consistent(env, t) && Enumerates(order, t.info) && Written(env, t, order, checksum, d)
    ensures Readable(env, d) && Sound(env, Entries(env, d)) && Entries(env, d).news == map[]
    ensures Copied(t, Entries(env, d), Names(t, order), |Names(t, order)|)
  {
    var names := Names(t, order);
    hide EnvOk, Consistent, Names, Sound, Copied, EntriesWritten, RowWritten;
    WrittenReadable(env, t, order, checksum, d);
    NamesAre(env, t, order);
    StoredEntries(env, t, order, checksum, d);
    LoadNewCopies(env, t, names, d.news, d.nNew);
    LoadNewTotal(env, d.news, d.nNew);
    LoadTriedCopies(env, t, LoadNew(env, d.news, d.nNew), names, d.nNew, d.trieds, d.nTried);
  }

  lemma MatchesMore(news: Table, ids: seq<Id>, names: seq<Id>, rs: seq<Reference>, slots: seq<Slot>)
    requires Matches(news, ids, rs, slots) && ids <= names
    ensures Matches(news, names, rs, slots)
  {
    forall k | 0 <= k < |rs| ensures StandsFor(news, names, rs[k], slots[k]) {
      assert StandsFor(news, ids, rs[k], slots[k]);
    }
  }

  lemma ReferencesRead(env: Env, t: Tables, order: seq<Id>, checksum: int, d: Disk)
    requires EnvOk(env) && Consistent(env, t) && Enumerates(order, t.info) && Written(env, t, order, checksum, d)
    ensures Readable(env, d)
    ensures Matches(t.news, Names(t, order), StoredReferences(env, d), AllSlots(t.news, env.bucketSize, env.newBuckets))
  {
    hide EnvOk, Consistent, Matches, EntriesWritten, RowWritten, AllSlots, References;
    WrittenReadable(env, t, order, checksum, d);
    NamesAre(env, t, order);
    var ids := Picked(order, Referenced(t.info));
    ReferencesMatch(t.news, ids, env.bucketSize, d.buckets, env.newBuckets);
    MatchesMore(t.news, ids, Names(t, order), StoredReferences(env, d), AllSlots(t.news, env.bucketSize, env.newBuckets));
  }

  /** What a written file describes is sound, and a copy of what was written. */
  lemma LoadedCopies(env: Env, t: Tables, order: seq<Id>, checksum: int, d: Disk)
    requires EnvOk(env) && Consistent(env, t) && Enumerates(order, t.info) && Written(env, t, order, checksum, d)
    ensures Readable(env, d)
    ensures var u := Loaded(env, d, checksum);
            Sound(env, u) && Copied(t, u, Names(t, order), |Names(t, order)|) &&
            var slots := AllSlots(t.news, env.bucketSize, env.newBuckets);
            Restored(t, u, Names(t, order), slots, |slots|)
  {
    var slots := AllSlots(t.news, env.bucketSize, env.newBuckets);
    assert Distinct(slots) by { AllSlotsAre(t.news, env.bucketSize, env.newBuckets); }
    hide EnvOk, Consistent, Written, Names, Sound, Copied, Restored, AllSlots, Distinct, Loaded, Readable, Entries, StoredReferences;
    WrittenReadable(env, t, order, checksum, d);
    EntriesRead(env, t, order, checksum, d);
    ReferencesRead(env, t, order, checksum, d);
    var rs := StoredReferences(env, d);
    LoadedIs(env, d, checksum, rs);
    RestoreAllCopies(env, t, Entries(env, d), Names(t, order), slots, rs, |rs|);
  }

  /** A sound copy with all references restored is the same manager, and consistent. */
  lemma CopyIsSame(env: Env, t: Tables, u: Tables, names: seq<Id>, slots: seq<Slot>)
    requires EnvOk(env) && Consistent(env, t) && Enumerates(names, t.info)
    requires Sound(env, u) && Copied(t, u, names, |names|)
    requires slots == AllSlots(t.news, env.bucketSize, env.newBuckets) && Restored(t, u, names, slots, |slots|)
    ensures SameManager(t, u, names) && Consistent(env, u)
  {
    hide EnvOk, Counted, Placed, Indexed, Healthy, AllSlots, Restored, SameTable, Enumerates;
    SameNews(env, t, u, names, slots);
    SameTried(env, t, u, names);
    SameTotals(env, t, u, names);
    NamesDistinct(names, t.info);
    forall i | 0 <= i < |names| ensures names[i] in t.info && t.info[names[i]].refCount == u.info[Id(i)].refCount {
      SameRefs(env, t, u, names, i);
    }
    forall id | id in u.info && !u.info[id].inTried ensures u.info[id].refCount >= 1 {
      assert id == Id(id.n) && CopyOf(t.info[names[id.n]], u.info[Id(id.n)]);
    }
  }

  lemma NamesDistinct(names: seq<Id>, info: Infos)
    requires Enumerates(names, info)
    ensures Distinct(names)
  {
  }

  /** Writing a consistent manager and reading it back under the same checksum gives the same manager. */
  lemma RoundTrip(env: Env, t: Tables, order: seq<Id>, checksum: int, d: Disk)
    requires EnvOk(env) && Consistent(env, t) && Enumerates(order, t.info) && Written(env, t, order, checksum, d)
    ensures Readable(env, d)
    ensures var u := Loaded(env, d, checksum);
            SameManager(t, u, Names(t, order)) && Consistent(env, u) && Orphans(u.info) == {} && Passes(env, u, false)
  {
    hide EnvOk, Written, Enumerates, Names, Sound, Copied, Restored, AllSlots, SameManager, Loaded, Shaped, Counted;
    LoadedCopies(env, t, order, checksum, d);
    NamesAre(env, t, order);
    CopyIsSame(env, t, Loaded(env, d, checksum), Names(t, order), AllSlots(t.news, env.bucketSize, env.newBuckets));
    ConsistentPasses(env, Loaded(env, d, checksum));
  }

  /** The same, through the two procedures: reading back what Serialize wrote never fails. */
  method SaveAndLoad(env: Env, t: Tables, order: seq<Id>, checksum: int) returns (r: Result<Tables, LoadError>)
    requires EnvOk(env) && Consistent(env, t) && Enumerates(order, t.info)
    ensures r.Ok? && SameManager(t, r.value, Names(t, order)) && Consistent(env, r.value)
  {
    hide EnvOk, Consistent, Written, Enumerates, Names, SameManager, Loaded, Readable, Passes, Orphans, Pruned;
    var d := Serialize(env, t, order, checksum);
    RoundTrip(env, t, order, checksum, d);
    r := Unserialize(env, d, checksum, false);
  }
}
