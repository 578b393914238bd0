/** Writing the address manager to disk and reading it back (src/addrman.cpp:132-228, 230-399).

    The file is modelled field by field. Each list carries its own length, so reading past its end is
    the stream failure of a truncated file; the byte encoding of a field is not part of this model.
    Ids are not written: the reader numbers the entries afresh. */
module AddrManDisk {
  import opened Wrappers
  import opened Sequences
  import opened AddrTables
  import opened AddrManCheck

  /** What is stored of an entry. The rest is memory only. */
  datatype DiskInfo = DiskInfo(
    service: Service,
    time: int,
    services: set<nat>,
    source: NetAddr,
    lastSuccess: int,
    attempts: int)

  function ToDisk(a: AddrInfo): DiskInfo {
    DiskInfo(a.service, a.time, a.services, a.source, a.lastSuccess, a.attempts)
  }

  function FromDisk(d: DiskInfo): AddrInfo {
    AddrInfo(d.service, d.time, d.services, d.source, 0, 0, d.lastSuccess, d.attempts, 0, false, -1)
  }

  datatype Disk = Disk(
    format: nat,
    compat: nat,
    nNew: int,
    nTried: int,
    nUBuckets: int,
    news: seq<DiskInfo>,
    trieds: seq<DiskInfo>,
    buckets: seq<seq<int>>,
    checksum: int)

  const V1_DETERMINISTIC := 1
  const V2_ASMAP := 2
  const V4_MULTIPORT := 4
  const FILE_FORMAT := V4_MULTIPORT
  const INCOMPATIBILITY_BASE := 32
  const BIT_30 := 0x4000_0000

  /** Exclusive or with 1 << 30. */
  function FlipBit30(n: int): int {
    if (n / BIT_30) % 2 == 0 then n + BIT_30 else n - BIT_30
  }

  // --------------------------------------------------------------------- writing

  /** An order in which the id map is walked: every id once. */
  ghost predicate Enumerates(order: seq<Id>, info: Infos) {
    Distinct(order) && forall id :: id in order <==> id in info
  }

  ghost function Referenced(info: Infos): set<Id> {
    set id | id in info && info[id].refCount != 0
  }

  /** The ids in the order their entries are written: first the new ones, then the tried ones. */
  ghost function Names(t: Tables, order: seq<Id>): seq<Id> {
    Picked(order, Referenced(t.info)) + Picked(order, TriedIds(t.info))
  }

  /** The occupied positions of a new bucket below position n, in order. */
  function BucketSlots(news: Table, bucket: nat, n: nat): seq<Slot> {
    if n == 0 then []
    else BucketSlots(news, bucket, n - 1) + if Slot(bucket, n - 1) in news then [Slot(bucket, n - 1)] else []
  }

  /** A stored entry says what the entry in memory says, as far as it is stored. */
  ghost predicate Stores(d: DiskInfo, a: AddrInfo) {
    && d.service == a.service && d.time == a.time && d.services == a.services && d.source == a.source
    && d.lastSuccess == a.lastSuccess && d.attempts == a.attempts
  }

  ghost predicate EntriesWritten(info: Infos, ids: seq<Id>, entries: seq<DiskInfo>) {
    && |entries| == |ids|
    && forall i :: 0 <= i < |ids| ==> ids[i] in info && Stores(entries[i], info[ids[i]])
  }

  /** A list of indexes into the written new entries names the holders of the given positions. */
  ghost predicate RowWritten(news: Table, ids: seq<Id>, slots: seq<Slot>, row: seq<int>) {
    && |row| == |slots|
    && forall i :: 0 <= i < |row| ==> 0 <= row[i] < |ids| && slots[i] in news && ids[row[i]] == news[slots[i]]
  }

  ghost predicate Written(env: Env, t: Tables, order: seq<Id>, checksum: int, d: Disk) {
    && d.format == FILE_FORMAT && d.compat == INCOMPATIBILITY_BASE + V4_MULTIPORT
    && d.nNew == t.nNew && d.nTried == t.nTried && d.nUBuckets == FlipBit30(env.newBuckets)
    && EntriesWritten(t.info, Picked(order, Referenced(t.info)), d.news) && |d.news| == t.nNew
    && EntriesWritten(t.info, Picked(order, TriedIds(t.info)), d.trieds) && |d.trieds| == t.nTried
    && |d.buckets| == env.newBuckets
    && (forall b :: 0 <= b < |d.buckets| ==>
          RowWritten(t.news, Picked(order, Referenced(t.info)), BucketSlots(t.news, b, env.bucketSize), d.buckets[b]))
    && d.checksum == checksum
  }

  /** Serialize. Neither of its assertions on the totals can fail. */
  method Serialize(env: Env, t: Tables, order: seq<Id>, checksum: int) returns (d: Disk)
    requires Consistent(env, t) && Enumerates(order, t.info)
    ensures Written(env, t, order, checksum, d)
    ensures env.newBuckets < 0x4000_0000 ==> d.nUBuckets == env.newBuckets + 0x4000_0000
  {
    hide Consistent, Enumerates, RowWritten;
    WrittenTotals(env, t, order);
    KnownOrder(t.info, order);
    var news, index := WriteNew(t, order);
    var trieds := WriteTried(t, order);
    var buckets: seq<seq<int>> := [];
    for b := 0 to env.newBuckets
      invariant |buckets| == b
      invariant forall k :: 0 <= k < b ==>
                  RowWritten(t.news, Picked(order, Referenced(t.info)), BucketSlots(t.news, k, env.bucketSize), buckets[k])
    {
      HoldersIndexed(env, t, order, index);
      var row := WriteBucket(env, t.news, index, Picked(order, Referenced(t.info)), b);
      buckets := buckets + [row];
    }
    d := Disk(FILE_FORMAT, INCOMPATIBILITY_BASE + V4_MULTIPORT, t.nNew, t.nTried, FlipBit30(env.newBuckets),
              news, trieds, buckets, checksum);
  }

  lemma KnownOrder(info: Infos, order: seq<Id>)
    requires Enumerates(order, info)
    ensures Distinct(order) && forall i :: 0 <= i < |order| ==> order[i] in info
  {
  }

  ghost predicate IndexedBy(index: map<Id, int>, ids: seq<Id>) {
    forall i :: 0 <= i < |ids| ==> ids[i] in index && index[ids[i]] == i
  }

  /** The first loop: entries with references, and the number each id gets. */
  method WriteNew(t: Tables, order: seq<Id>) returns (news: seq<DiskInfo>, index: map<Id, int>)
    requires Distinct(order) && forall i :: 0 <= i < |order| ==> order[i] in t.info
    requires |Picked(order, Referenced(t.info))| == t.nNew
    ensures EntriesWritten(t.info, Picked(order, Referenced(t.info)), news)
    ensures IndexedBy(index, Picked(order, Referenced(t.info)))
  {
    news, index := [], map[];
    var nIds := 0;
    for k := 0 to |order|
      invariant nIds == |Picked(order[..k], Referenced(t.info))| <= k
      invariant EntriesWritten(t.info, Picked(order[..k], Referenced(t.info)), news)
      invariant IndexedBy(index, Picked(order[..k], Referenced(t.info)))
    {
      var id := order[k];
      PickNext(order, k, Referenced(t.info));
      PickedPrefix(order, k, Referenced(t.info));
      index := index[id := nIds];
      if t.info[id].refCount != 0 {
        assert nIds != t.nNew by { PickedFits(order, k, Referenced(t.info)); }
        news := news + [ToDisk(t.info[id])];
        nIds := nIds + 1;
      }
    }
    assert order[..|order|] == order;
  }

  method WriteTried(t: Tables, order: seq<Id>) returns (trieds: seq<DiskInfo>)
    requires Distinct(order) && forall i :: 0 <= i < |order| ==> order[i] in t.info
    requires |Picked(order, TriedIds(t.info))| == t.nTried
    ensures EntriesWritten(t.info, Picked(order, TriedIds(t.info)), trieds)
  {
    trieds := [];
    var nIds := 0;
    for k := 0 to |order|
      invariant nIds == |Picked(order[..k], TriedIds(t.info))| <= k
      invariant EntriesWritten(t.info, Picked(order[..k], TriedIds(t.info)), trieds)
    {
      var id := order[k];
      PickNext(order, k, TriedIds(t.info));
      if t.info[id].inTried {
        assert nIds != t.nTried by { PickedFits(order, k, TriedIds(t.info)); }
        trieds := trieds + [ToDisk(t.info[id])];
        nIds := nIds + 1;
      }
    }
    assert order[..|order|] == order;
  }

  /** The inner loops: the occupied positions of one bucket as indexes. */
  method WriteBucket(env: Env, news: Table, index: map<Id, int>, ghost ids: seq<Id>, b: nat) returns (row: seq<int>)
    requires IndexedBy(index, ids)
    requires forall s :: s in news ==> news[s] in index && news[s] in ids
    ensures RowWritten(news, ids, BucketSlots(news, b, env.bucketSize), row)
  {
    row := [];
    for i := 0 to env.bucketSize
      invariant RowWritten(news, ids, BucketSlots(news, b, i), row)
    {
      if Slot(b, i) in news {
        ghost var k :| 0 <= k < |ids| && ids[k] == news[Slot(b, i)];
        row := row + [index[news[Slot(b, i)]]];
      }
    }
  }

  /** Among a prefix, one id fewer than the whole picks at most all but one. */
  lemma {:induction false} PickedFits(order: seq<Id>, k: nat, eligible: set<Id>)
    requires k < |order| && order[k] in eligible
    ensures |Picked(order[..k], eligible)| < |Picked(order, eligible)|
  {
    PickNext(order, k, eligible);
    PickedGrows(order, k + 1, eligible);
  }

  lemma {:induction false} PickedGrows(order: seq<Id>, k: nat, eligible: set<Id>)
    requires k <= |order|
    ensures |Picked(order[..k], eligible)| <= |Picked(order, eligible)|
    decreases |order| - k
  {
    if k == |order| {
      assert order[..k] == order;
    } else {
      PickNext(order, k, eligible);
      PickedGrows(order, k + 1, eligible);
    }
  }

  /** The id at position k is not among those before it. */
  lemma PickedPrefix(order: seq<Id>, k: nat, eligible: set<Id>)
    requires Distinct(order) && k < |order|
    ensures order[k] !in Picked(order[..k], eligible)
  {
    PickedFrom(order[..k], eligible);
  }

  lemma HoldersIndexed(env: Env, t: Tables, order: seq<Id>, index: map<Id, int>)
    requires Consistent(env, t) && Enumerates(order, t.info) && IndexedBy(index, Picked(order, Referenced(t.info)))
    ensures forall s :: s in t.news ==> t.news[s] in index && t.news[s] in Picked(order, Referenced(t.info))
  {
    hide Picked;
    PickedFrom(order, Referenced(t.info));
    forall s | s in t.news ensures t.news[s] in index && t.news[s] in Picked(order, Referenced(t.info)) {
      SlotTaken(env, t, s);
      var ids := Picked(order, Referenced(t.info));
      var i :| 0 <= i < |ids| && ids[i] == t.news[s];
    }
  }

  lemma ReferencedAreNew(env: Env, t: Tables)
    requires Consistent(env, t)
    ensures Referenced(t.info) == NewIds(t.info)
  {
    hide Consistent, TriedPasses, NewsPass, CountsPass, Unchecked;
    ConsistentPasses(env, t);
    PassingReferenced(t);
  }

  lemma PassingReferenced(t: Tables)
    requires EntriesPass(t)
    ensures Referenced(t.info) == NewIds(t.info)
  {
    forall id | id in t.info ensures id in Referenced(t.info) <==> id in NewIds(t.info) {
      assert EntryPasses(t, id);
    }
  }

  /** As many entries are written as the totals say. */
  lemma WrittenTotals(env: Env, t: Tables, order: seq<Id>)
    requires Consistent(env, t) && Enumerates(order, t.info)
    ensures |Picked(order, Referenced(t.info))| == t.nNew && |Picked(order, TriedIds(t.info))| == t.nTried
  {
    ReferencedAreNew(env, t);
    CountedSizes(env, t, NewIds(t.info), TriedIds(t.info));
    hide Consistent, Picked;
    PickedCount(order, NewIds(t.info), Picked(order, NewIds(t.info)));
    PickedCount(order, TriedIds(t.info), Picked(order, TriedIds(t.info)));
  }

  // --------------------------------------------------------------------- reading

  datatype LoadError = Incompatible | Unsupported | BadNewTotal | BadTriedTotal | Truncated | Inconsistent(code: int)

  /** The number of new buckets a file says it has. */
  function BucketsOf(d: Disk): int {
    if d.format >= V1_DETERMINISTIC then FlipBit30(d.nUBuckets) else d.nUBuckets
  }

  /** Why a file cannot be read at all, in the order the reader finds out. */
  function Refusal(env: Env, d: Disk): Option<LoadError> {
    if d.compat < INCOMPATIBILITY_BASE then Some(Incompatible)
    else if d.compat - INCOMPATIBILITY_BASE > FILE_FORMAT then Some(Unsupported)
    else if d.nNew > env.newBuckets * env.bucketSize || d.nNew < 0 then Some(BadNewTotal)
    else if d.nTried > env.triedBuckets * env.bucketSize || d.nTried < 0 then Some(BadTriedTotal)
    else if d.nNew > |d.news| || d.nTried > |d.trieds| || BucketsOf(d) > |d.buckets| then Some(Truncated)
    else None
  }

  /** The manager after n new entries: each is created, in no bucket yet. */
  function LoadNew(env: Env, entries: seq<DiskInfo>, n: nat): Tables
    requires n <= |entries|
  {
    if n == 0 then EMPTY else Create(env, LoadNew(env, entries, n - 1), FromDisk(entries[n - 1]))
  }

  /** A tried entry is taken in if it is valid and its position is free, and lost otherwise. */
  function AdmitTried(env: Env, t: Tables, a: AddrInfo): Tables {
    var slot := TriedSlot(env, a.service);
    if env.valid(a.service) && slot !in t.tried then
      t.(idCount := t.idCount + 1,
         info := t.info[NextId(t) := a.(inTried := true, randomPos := |t.random|)],
         addr := t.addr[a.service := NextId(t)],
         random := t.random + [NextId(t)],
         nTried := t.nTried + 1,
         tried := t.tried[slot := NextId(t)],
         counts := Bump(t.counts, env.network(a.service), 0, 1))
    else t
  }

  function LoadTried(env: Env, t: Tables, entries: seq<DiskInfo>, n: nat): Tables
    requires n <= |entries|
  {
    if n == 0 then t else AdmitTried(env, LoadTried(env, t, entries, n - 1), FromDisk(entries[n - 1]))
  }

  /** A stored reference to a new entry: the bucket it was found in and the number of the entry. */
  datatype Reference = Reference(bucket: nat, index: int)

  function RowReferences(bucket: nat, row: seq<int>, n: nat, nNew: int): seq<Reference>
    requires n <= |row|
  {
    if n == 0 then []
    else RowReferences(bucket, row, n - 1, nNew) + if 0 <= row[n - 1] < nNew then [Reference(bucket, row[n - 1])] else []
  }

  function References(buckets: seq<seq<int>>, m: nat, nNew: int): seq<Reference>
    requires m <= |buckets|
  {
    if m == 0 then [] else References(buckets, m - 1, nNew) + RowReferences(m - 1, buckets[m - 1], |buckets[m - 1]|, nNew)
  }

  /** Gives an entry the position a reference stands for, or failing that the one of its primary source. */
  function Restore(env: Env, t: Tables, r: Reference, restoreBucketing: bool): Tables
    requires Id(r.index) in t.info
  {
    var id := Id(r.index);
    var a := t.info[id];
    var slot, home := InBucket(env, a.service, r.bucket), NewSlot(env, a.service, a.source);
    if !env.valid(a.service) || a.refCount >= NEW_BUCKETS_PER_ADDRESS then t
    else if restoreBucketing && slot !in t.news then Link(t, slot, id)
    else if home !in t.news then Link(t, home, id)
    else t
  }

  function RestoreAll(env: Env, t: Tables, rs: seq<Reference>, n: nat, restoreBucketing: bool): (u: Tables)
    requires n <= |rs| && forall k :: 0 <= k < n ==> Id(rs[k].index) in t.info
    ensures forall id :: id in u.info <==> id in t.info
  {
    if n == 0 then t
    else
      Restore(env, RestoreAll(env, t, rs, n - 1, restoreBucketing), rs[n - 1], restoreBucketing)
  }

  ghost predicate Readable(env: Env, d: Disk) {
    Refusal(env, d).None?
  }

  /** The entries of a file, before any reference is restored. */
  ghost function Entries(env: Env, d: Disk): Tables
    requires Readable(env, d)
  {
    LoadTried(env, LoadNew(env, d.news, d.nNew), d.trieds, d.nTried)
  }

  ghost function StoredReferences(env: Env, d: Disk): seq<Reference>
    requires Readable(env, d)
  {
    References(d.buckets, if BucketsOf(d) < 0 then 0 else BucketsOf(d), d.nNew)
  }

  predicate SameBucketing(env: Env, d: Disk, checksum: int) {
    BucketsOf(d) == env.newBuckets && (if d.format >= V2_ASMAP then d.checksum else 0) == checksum
  }

  /** The manager a file describes, before entries without a position are pruned. */
  ghost function Loaded(env: Env, d: Disk, checksum: int): Tables
    requires Readable(env, d)
  {
    LoadedSequential(env, d);
    ReferencesKnown(env, d);
    var rs := StoredReferences(env, d);
    RestoreAll(env, Entries(env, d), rs, |rs|, SameBucketing(env, d, checksum))
  }

  ghost function Orphans(info: Infos): set<Id> {
    set id | id in info && !info[id].inTried && info[id].refCount == 0
  }

  ghost function ServicesOf(info: Infos, ids: set<Id>): set<Service> {
    set id | id in ids && id in info :: info[id].service
  }

  /** The counters after the new entries `gone` have been taken off. */
  ghost predicate CountedWithout(env: Env, t: Tables, counts: Counts, gone: set<Id>) {
    && counts.Keys == t.counts.Keys + NetworksOf(env, t.info, gone)
    && forall net :: net in counts ==>
         counts[net] == Count(CountAt(t.counts, net).nNew - |Among(env, t.info, gone, net, false)|, CountAt(t.counts, net).nTried)
  }

  /** What deleting the entries `gone` leaves of the tables, in whatever order it is done: it decides
      everything but the random order, which stays inverse to the positions the entries record. */
  ghost predicate Without(env: Env, t: Tables, u: Tables, gone: set<Id>) {
    && (forall id :: id in u.info <==> id in t.info && id !in gone)
    && (forall id :: id in u.info ==> SamePlace(t.info[id], u.info[id]))
    && RandomOk(u)
    && u.addr == t.addr - ServicesOf(t.info, gone) && CountedWithout(env, t, u.counts, gone)
    && u.news == t.news && u.tried == t.tried && u.idCount == t.idCount
    && u.nTried == t.nTried && u.nNew == t.nNew - |gone|
  }

  /** Exactly the entries without a position are gone. */
  ghost predicate Pruned(env: Env, t: Tables, u: Tables) {
    Without(env, t, u, Orphans(t.info))
  }

  /** Numbered from 0 in the order of loading, which is also the random order. */
  ghost predicate Sequential(t: Tables) {
    && t.idCount == |t.random|
    && (forall id :: id in t.info <==> 0 <= id.n < t.idCount)
    && (forall i :: 0 <= i < |t.random| ==> t.random[i] == Id(i))
    && (forall id :: id in t.info ==> t.info[id].randomPos == id.n)
  }

  lemma CreateSequential(env: Env, t: Tables, a: AddrInfo)
    requires Sequential(t)
    ensures Sequential(Create(env, t, a)) && Create(env, t, a).idCount == t.idCount + 1
  {
    hide Bump;
    var u := Create(env, t, a);
    forall i | 0 <= i < |u.random| ensures u.random[i] == Id(i) {
      if i < |t.random| { assert t.random[i] == Id(i); }
    }
  }

  lemma {:induction false} LoadNewSequential(env: Env, entries: seq<DiskInfo>, n: nat)
    requires n <= |entries|
    ensures Sequential(LoadNew(env, entries, n)) && LoadNew(env, entries, n).idCount == n
  {
    if n > 0 {
      hide Sequential, Create;
      LoadNewSequential(env, entries, n - 1);
      CreateSequential(env, LoadNew(env, entries, n - 1), FromDisk(entries[n - 1]));
    }
  }

  lemma AdmitSequential(env: Env, t: Tables, a: AddrInfo)
    requires Sequential(t)
    ensures Sequential(AdmitTried(env, t, a)) && AdmitTried(env, t, a).idCount >= t.idCount
  {
    hide TriedSlot, Bump;
    var u := AdmitTried(env, t, a);
    forall i | 0 <= i < |u.random| ensures u.random[i] == Id(i) {
      if i < |t.random| { assert t.random[i] == Id(i); }
    }
  }

  lemma {:induction false} LoadTriedSequential(env: Env, t: Tables, entries: seq<DiskInfo>, n: nat)
    requires n <= |entries| && Sequential(t)
    ensures Sequential(LoadTried(env, t, entries, n)) && LoadTried(env, t, entries, n).idCount >= t.idCount
  {
    hide AdmitTried, Sequential;
    if n > 0 {
      LoadTriedSequential(env, t, entries, n - 1);
      AdmitSequential(env, LoadTried(env, t, entries, n - 1), FromDisk(entries[n - 1]));
    }
  }

  lemma LoadedSequential(env: Env, d: Disk)
    requires Readable(env, d)
    ensures Sequential(Entries(env, d)) && Entries(env, d).idCount >= d.nNew
  {
    hide Sequential;
    LoadNewSequential(env, d.news, d.nNew);
    LoadTriedSequential(env, LoadNew(env, d.news, d.nNew), d.trieds, d.nTried);
  }

  lemma {:induction false} RowInRange(bucket: nat, row: seq<int>, n: nat, nNew: int)
    requires n <= |row|
    ensures forall k :: 0 <= k < |RowReferences(bucket, row, n, nNew)| ==> 0 <= RowReferences(bucket, row, n, nNew)[k].index < nNew
  {
    if n > 0 { RowInRange(bucket, row, n - 1, nNew); }
  }

  lemma {:induction false} ReferencesInRange(buckets: seq<seq<int>>, m: nat, nNew: int)
    requires m <= |buckets|
    ensures forall k :: 0 <= k < |References(buckets, m, nNew)| ==> 0 <= References(buckets, m, nNew)[k].index < nNew
  {
    if m > 0 {
      ReferencesInRange(buckets, m - 1, nNew);
      RowInRange(m - 1, buckets[m - 1], |buckets[m - 1]|, nNew);
    }
  }

  lemma ReferencesKnown(env: Env, d: Disk)
    requires Readable(env, d)
    ensures forall k :: 0 <= k < |StoredReferences(env, d)| ==> Id(StoredReferences(env, d)[k].index) in Entries(env, d).info
  {
    LoadedSequential(env, d);
    hide Entries;
    ReferencesInRange(d.buckets, if BucketsOf(d) < 0 then 0 else BucketsOf(d), d.nNew);
  }

  // ------------------------------------------------- when the bucketing has changed

  /** A stored reference to a valid entry asks for the position of that entry's first source. */
  ghost predicate AsksFor(env: Env, info: Infos, r: Reference, s: Slot) {
    && Id(r.index) in info && env.valid(info[Id(r.index)].service)
    && s == NewSlot(env, info[Id(r.index)].service, info[Id(r.index)].source)
  }

  ghost predicate Asked(env: Env, info: Infos, rs: seq<Reference>, n: nat, s: Slot)
    requires n <= |rs|
  {
    exists k :: 0 <= k < n && AsksFor(env, info, rs[k], s)
  }

  /** The first of the references to ask for a position names its holder. */
  ghost predicate FirstToAsk(env: Env, info: Infos, rs: seq<Reference>, n: nat, s: Slot, id: Id)
    requires n <= |rs|
  {
    exists k :: 0 <= k < n && AsksFor(env, info, rs[k], s) && id == Id(rs[k].index) && !Asked(env, info, rs, k, s)
  }

  ghost predicate HoldsHome(env: Env, news: Table, a: AddrInfo, id: Id) {
    var home := NewSlot(env, a.service, a.source);
    home in news && news[home] == id
  }

  /** What restoring makes of entries that have no positions yet, when their old ones cannot be used. */
  ghost predicate Rehomed(env: Env, t: Tables, rs: seq<Reference>, n: nat, u: Tables)
    requires n <= |rs|
  {
    && (forall s :: s in u.news <==> Asked(env, t.info, rs, n, s))
    && (forall s :: s in u.news ==> FirstToAsk(env, t.info, rs, n, s, u.news[s]))
    && (forall id :: id in u.info <==> id in t.info)
    && (forall id :: id in t.info ==> u.info[id] == t.info[id].(refCount := if HoldsHome(env, u.news, t.info[id], id) then 1 else 0))
  }

  /** Under another bucketing every asked-for position goes to the first entry that asks, and an entry has
      one reference if it got its own position and none otherwise. */
  lemma {:induction false} RestoreRehomes(env: Env, t: Tables, rs: seq<Reference>, n: nat)
    requires n <= |rs| && t.news == map[] && (forall id :: id in t.info ==> t.info[id].refCount == 0)
    requires forall k :: 0 <= k < n ==> Id(rs[k].index) in t.info
    ensures Rehomed(env, t, rs, n, RestoreAll(env, t, rs, n, false))
  {
    hide NewSlot, Rehomed, Restore;
    if n == 0 {
      RehomedAtFirst(env, t, rs);
    } else {
      RestoreRehomes(env, t, rs, n - 1);
      RehomesOne(env, t, rs, n - 1, RestoreAll(env, t, rs, n - 1, false));
    }
  }

  lemma RehomedAtFirst(env: Env, t: Tables, rs: seq<Reference>)
    requires t.news == map[] && (forall id :: id in t.info ==> t.info[id].refCount == 0)
    ensures Rehomed(env, t, rs, 0, t)
  {
    hide NewSlot, AsksFor;
  }

  lemma RehomesOne(env: Env, t: Tables, rs: seq<Reference>, n: nat, u: Tables)
    requires n < |rs| && Id(rs[n].index) in t.info && Rehomed(env, t, rs, n, u) && Id(rs[n].index) in u.info
    ensures Rehomed(env, t, rs, n + 1, Restore(env, u, rs[n], false))
  {
    hide NewSlot, AsksFor, Restore, Asked, FirstToAsk;
    var id, v := Id(rs[n].index), Restore(env, u, rs[n], false);
    RestoresHome(env, t.info[id], u, rs[n]);
    AsksHome(env, t.info, rs[n]);
    AskedOneMore(env, t.info, rs, n);
    var home := NewSlot(env, t.info[id].service, t.info[id].source);
    if env.valid(t.info[id].service) && home !in u.news {
      RehomedLink(env, t, rs, n, u, home, id);
    } else {
      forall s | s in v.news ensures FirstToAsk(env, t.info, rs, n + 1, s, v.news[s]) {
        FirstStays(env, t.info, rs, n, s, v.news[s]);
      }
    }
  }

  lemma RestoresHome(env: Env, a: AddrInfo, u: Tables, r: Reference)
    requires Id(r.index) in u.info && u.info[Id(r.index)].refCount <= 1 && a == u.info[Id(r.index)].(refCount := a.refCount)
    ensures Restore(env, u, r, false) ==
            var home := NewSlot(env, a.service, a.source);
            if env.valid(a.service) && home !in u.news then Link(u, home, Id(r.index)) else u
  {
    hide NewSlot, InBucket;
  }

  lemma RehomedLink(env: Env, t: Tables, rs: seq<Reference>, n: nat, u: Tables, home: Slot, id: Id)
    requires n < |rs| && id == Id(rs[n].index) && id in t.info && id in u.info && Rehomed(env, t, rs, n, u)
    requires home !in u.news && home == NewSlot(env, t.info[id].service, t.info[id].source)
    requires forall s :: AsksFor(env, t.info, rs[n], s) <==> s == home
    ensures Rehomed(env, t, rs, n + 1, Link(u, home, id))
  {
    hide NewSlot, AsksFor, Asked, FirstToAsk;
    var v := Link(u, home, id);
    AskedOneMore(env, t.info, rs, n);
    forall s | s in v.news ensures FirstToAsk(env, t.info, rs, n + 1, s, v.news[s]) {
      if s == home { FirstHere(env, t.info, rs, n, s); } else { FirstStays(env, t.info, rs, n, s, v.news[s]); }
    }
    forall k | k in t.info ensures v.info[k] == t.info[k].(refCount := if HoldsHome(env, v.news, t.info[k], k) then 1 else 0) {
      LinkHolds(env, u, home, id, t.info[k], k);
    }
  }

  lemma LinkHolds(env: Env, u: Tables, home: Slot, id: Id, a: AddrInfo, k: Id)
    requires home !in u.news && id in u.info && k in u.info
    requires k == id ==> home == NewSlot(env, a.service, a.source)
    requires u.info[k] == a.(refCount := if HoldsHome(env, u.news, a, k) then 1 else 0)
    ensures var v := Link(u, home, id); v.info[k] == a.(refCount := if HoldsHome(env, v.news, a, k) then 1 else 0)
  {
    hide NewSlot;
  }

  lemma AskedOneMore(env: Env, info: Infos, rs: seq<Reference>, n: nat)
    requires n < |rs|
    ensures forall s :: Asked(env, info, rs, n + 1, s) <==> Asked(env, info, rs, n, s) || AsksFor(env, info, rs[n], s)
  {
    hide AsksFor;
  }

  lemma FirstStays(env: Env, info: Infos, rs: seq<Reference>, n: nat, s: Slot, id: Id)
    requires n < |rs| && FirstToAsk(env, info, rs, n, s, id)
    ensures FirstToAsk(env, info, rs, n + 1, s, id)
  {
    hide AsksFor;
  }

  lemma FirstHere(env: Env, info: Infos, rs: seq<Reference>, n: nat, s: Slot)
    requires n < |rs| && AsksFor(env, info, rs[n], s) && !Asked(env, info, rs, n, s)
    ensures FirstToAsk(env, info, rs, n + 1, s, Id(rs[n].index))
  {
    hide AsksFor, Asked;
  }

  lemma AsksHome(env: Env, info: Infos, r: Reference)
    requires Id(r.index) in info
    ensures var a := info[Id(r.index)];
            forall s :: AsksFor(env, info, r, s) <==> env.valid(a.service) && s == NewSlot(env, a.service, a.source)
  {
    hide NewSlot;
  }

  /** A file written under another bucket count or checksum: the entries it describes, each at the position
      of its first source unless an earlier one got that. */
  lemma LoadRehomes(env: Env, d: Disk, checksum: int)
    requires Readable(env, d) && !SameBucketing(env, d, checksum)
    ensures Rehomed(env, Entries(env, d), StoredReferences(env, d), |StoredReferences(env, d)|, Loaded(env, d, checksum))
  {
    ReferencesKnown(env, d);
    EntriesUnplaced(env, d);
    hide Entries, StoredReferences, Rehomed;
    RestoreRehomes(env, Entries(env, d), StoredReferences(env, d), |StoredReferences(env, d)|);
  }

  /** So a valid entry that some reference names, and whose position no other entry asks for, keeps exactly
      one reference: the one at the bucket of its first source. */
  lemma UncontestedKeepsOne(env: Env, d: Disk, checksum: int, k: nat)
    requires Readable(env, d) && !SameBucketing(env, d, checksum) && k < |StoredReferences(env, d)|
    requires
      var rs, info := StoredReferences(env, d), Entries(env, d).info;
      var id := Id(rs[k].index);
      && id in info && env.valid(info[id].service)
      && forall j :: 0 <= j < |rs| && AsksFor(env, info, rs[j], NewSlot(env, info[id].service, info[id].source)) ==> rs[j].index == rs[k].index
    ensures
      var id := Id(StoredReferences(env, d)[k].index);
      var a, u := Entries(env, d).info[id], Loaded(env, d, checksum);
      && id in u.info && u.info[id] == a.(refCount := 1)
      && forall s :: (s in u.news && u.news[s] == id) <==> s == NewSlot(env, a.service, a.source)
  {
    hide Readable, SameBucketing, StoredReferences, Entries, Loaded, NewSlot, AsksFor;
    LoadRehomes(env, d, checksum);
    var rs, info, u := StoredReferences(env, d), Entries(env, d).info, Loaded(env, d, checksum);
    AsksHome(env, info, rs[k]);
    var home := NewSlot(env, info[Id(rs[k].index)].service, info[Id(rs[k].index)].source);
    assert AsksFor(env, info, rs[k], home);
    assert Asked(env, info, rs, |rs|, home);
    assert FirstToAsk(env, info, rs, |rs|, home, u.news[home]);
    forall s | s in u.news && u.news[s] == Id(rs[k].index) ensures s == home {
      assert FirstToAsk(env, info, rs, |rs|, s, u.news[s]);
      var j :| 0 <= j < |rs| && AsksFor(env, info, rs[j], s) && u.news[s] == Id(rs[j].index);
      AsksHome(env, info, rs[j]);
    }
  }

  lemma {:induction false} NewUnplaced(env: Env, entries: seq<DiskInfo>, n: nat)
    requires n <= |entries|
    ensures var t := LoadNew(env, entries, n); t.news == map[] && forall id :: id in t.info ==> t.info[id].refCount == 0
  {
    if n > 0 { NewUnplaced(env, entries, n - 1); }
  }

  lemma {:induction false} TriedUnplaced(env: Env, t: Tables, entries: seq<DiskInfo>, n: nat)
    requires n <= |entries| && t.news == map[] && forall id :: id in t.info ==> t.info[id].refCount == 0
    ensures var u := LoadTried(env, t, entries, n); u.news == map[] && forall id :: id in u.info ==> u.info[id].refCount == 0
  {
    hide TriedSlot, Bump;
    if n > 0 { TriedUnplaced(env, t, entries, n - 1); }
  }

  lemma EntriesUnplaced(env: Env, d: Disk)
    requires Readable(env, d)
    ensures Entries(env, d).news == map[] && forall id :: id in Entries(env, d).info ==> Entries(env, d).info[id].refCount == 0
  {
    NewUnplaced(env, d.news, d.nNew);
    TriedUnplaced(env, LoadNew(env, d.news, d.nNew), d.trieds, d.nTried);
  }

  // --------------------------------------------------------------- the read loops

  /** Unserialize. A file that can be read yields exactly the entries it describes that have a position,
      unless these fail the final check; which of the two does not depend on the order of pruning. */
  method Unserialize(env: Env, d: Disk, checksum: int, keyIsNull: bool) returns (r: Result<Tables, LoadError>)
    ensures Refusal(env, d).Some? ==> r == Err(Refusal(env, d).value)
    ensures Readable(env, d) ==> exists u :: Pruned(env, Loaded(env, d, checksum), u)
    ensures Readable(env, d) ==> forall u :: Pruned(env, Loaded(env, d, checksum), u) ==> (r.Ok? <==> Passes(env, u, keyIsNull))
    ensures Readable(env, d) && r.Ok? ==> Pruned(env, Loaded(env, d, checksum), r.value)
    ensures Readable(env, d) && r.Err? ==> r.error.Inconsistent? && r.error.code != 0
    ensures Readable(env, d) && Orphans(Loaded(env, d, checksum).info) == {} && Passes(env, Loaded(env, d, checksum), keyIsNull) ==>
              r == Ok(Loaded(env, d, checksum))
  {
    if d.compat < INCOMPATIBILITY_BASE { return Err(Incompatible); }
    if d.compat - INCOMPATIBILITY_BASE > FILE_FORMAT { return Err(Unsupported); }
    if d.nNew > env.newBuckets * env.bucketSize || d.nNew < 0 { return Err(BadNewTotal); }
    if d.nTried > env.triedBuckets * env.bucketSize || d.nTried < 0 { return Err(BadTriedTotal); }
    hide Passes, Pruned, Orphans, Loaded, LoadNew, LoadTried, RandomOk;
    if d.nNew > |d.news| { return Err(Truncated); }
    var t := ReadNew(env, d);
    if d.nTried > |d.trieds| { return Err(Truncated); }
    LoadNewTotal(env, d.news, d.nNew);
    t := ReadTried(env, d, t);
    if BucketsOf(d) > |d.buckets| { return Err(Truncated); }
    var loaded := ReadTables(env, d, checksum, t);
    var u := Prune(env, loaded);
    forall v | Pruned(env, loaded, v) ensures Passes(env, u, keyIsNull) <==> Passes(env, v, keyIsNull) {
      PrunedAlike(env, loaded, u, v, keyIsNull);
    }
    var code := CheckAddrman(env, u, keyIsNull);
    r := if code != 0 then Err(Inconsistent(code)) else Ok(u);
  }

  method ReadTables(env: Env, d: Disk, checksum: int, entries: Tables) returns (loaded: Tables)
    requires Readable(env, d) && entries == Entries(env, d)
    ensures loaded == Loaded(env, d, checksum) && RandomOk(loaded)
  {
    var rs := ReadReferences(d, BucketsOf(d));
    assert rs == StoredReferences(env, d);
    hide Entries, StoredReferences, Readable, Loaded, RandomOk;
    LoadedIs(env, d, checksum, rs);
    var restoreBucketing := BucketsOf(d) == env.newBuckets && (if d.format >= V2_ASMAP then d.checksum else 0) == checksum;
    loaded := ReadPositions(env, entries, rs, restoreBucketing);
  }

  lemma LoadedIs(env: Env, d: Disk, checksum: int, rs: seq<Reference>)
    requires Readable(env, d) && rs == StoredReferences(env, d)
    ensures forall k :: 0 <= k < |rs| ==> Id(rs[k].index) in Entries(env, d).info
    ensures Loaded(env, d, checksum) == RestoreAll(env, Entries(env, d), rs, |rs|, SameBucketing(env, d, checksum))
    ensures RandomOk(Loaded(env, d, checksum))
  {
    LoadedSequential(env, d);
    ReferencesKnown(env, d);
    hide Entries, StoredReferences, Sequential, RandomOk;
    SequentialRandom(Entries(env, d));
    RestoreRandom(env, Entries(env, d), rs, |rs|, SameBucketing(env, d, checksum));
  }

  method ReadNew(env: Env, d: Disk) returns (t: Tables)
    requires 0 <= d.nNew <= |d.news|
    ensures t == LoadNew(env, d.news, d.nNew)
  {
    hide Sequential;
    t := EMPTY.(nNew := d.nNew);
    for n := 0 to d.nNew
      invariant t == LoadNew(env, d.news, n).(nNew := d.nNew, idCount := 0)
    {
      LoadNewSequential(env, d.news, n);
      var info := FromDisk(d.news[n]);
      t := t.(info := t.info[Id(n) := info.(randomPos := |t.random|)],
              addr := t.addr[info.service := Id(n)],
              random := t.random + [Id(n)],
              counts := Bump(t.counts, env.network(info.service), 1, 0));
    }
    LoadNewTotal(env, d.news, d.nNew);
    LoadNewSequential(env, d.news, d.nNew);
    t := t.(idCount := d.nNew);
  }

  lemma {:induction false} LoadNewTotal(env: Env, entries: seq<DiskInfo>, n: nat)
    requires n <= |entries|
    ensures LoadNew(env, entries, n).nNew == n && LoadNew(env, entries, n).nTried == 0
    ensures LoadNew(env, entries, n).news == map[] && LoadNew(env, entries, n).tried == map[]
  {
    if n > 0 { LoadNewTotal(env, entries, n - 1); }
  }

  method ReadTried(env: Env, d: Disk, start: Tables) returns (t: Tables)
    requires 0 <= d.nTried <= |d.trieds| && start.nTried == 0
    ensures t == LoadTried(env, start, d.trieds, d.nTried)
  {
    hide TriedSlot;
    t := start.(nTried := d.nTried);
    var nLost := 0;
    for n := 0 to d.nTried
      invariant t == LoadTried(env, start, d.trieds, n).(nTried := d.nTried)
      invariant LoadTried(env, start, d.trieds, n).nTried == n - nLost
    {
      var info := FromDisk(d.trieds[n]);
      var slot := TriedSlot(env, info.service);
      if env.valid(info.service) && slot !in t.tried {
        var id := Id(t.idCount);
        t := t.(random := t.random + [id],
                info := t.info[id := info.(randomPos := |t.random|, inTried := true)],
                addr := t.addr[info.service := id],
                tried := t.tried[slot := id],
                idCount := t.idCount + 1,
                counts := Bump(t.counts, env.network(info.service), 0, 1));
      } else {
        nLost := nLost + 1;
      }
    }
    t := t.(nTried := t.nTried - nLost);
  }

  method ReadReferences(d: Disk, nUBuckets: int) returns (rs: seq<Reference>)
    requires nUBuckets <= |d.buckets|
    ensures rs == References(d.buckets, if nUBuckets < 0 then 0 else nUBuckets, d.nNew)
  {
    rs := [];
    var bucket := 0;
    while bucket < nUBuckets
      invariant 0 <= bucket && (bucket <= nUBuckets || (bucket == 0 && nUBuckets < 0))
      invariant rs == References(d.buckets, bucket, d.nNew)
    {
      var row := d.buckets[bucket];
      for n := 0 to |row|
        invariant rs == References(d.buckets, bucket, d.nNew) + RowReferences(bucket, row, n, d.nNew)
      {
        if row[n] >= 0 && row[n] < d.nNew {
          rs := rs + [Reference(bucket, row[n])];
        }
      }
      bucket := bucket + 1;
    }
  }

  method ReadPositions(env: Env, start: Tables, rs: seq<Reference>, restoreBucketing: bool) returns (t: Tables)
    requires forall k :: 0 <= k < |rs| ==> Id(rs[k].index) in start.info
    ensures t == RestoreAll(env, start, rs, |rs|, restoreBucketing)
  {
    hide InBucket;
    t := start;
    for n := 0 to |rs|
      invariant t == RestoreAll(env, start, rs, n, restoreBucketing)
    {
      var r := rs[n];
      var id := Id(r.index);
      var info := t.info[id];
      if env.valid(info.service) && info.refCount < NEW_BUCKETS_PER_ADDRESS {
        var slot := InBucket(env, info.service, r.bucket);
        if restoreBucketing && slot !in t.news {
          t := Link(t, slot, id);
        } else {
          slot := NewSlot(env, info.service, info.source);
          if slot !in t.news {
            t := Link(t, slot, id);
          }
        }
      }
    }
  }

  // -------------------------------------------------------------------- pruning

  ghost predicate StandsAt(t: Tables, id: Id)
    requires id in t.info
  {
    0 <= t.info[id].randomPos < |t.random| && t.random[t.info[id].randomPos] == id
  }

  /** The id map and the random order are inverse to one another. */
  ghost predicate RandomOk(t: Tables) {
    && (forall id :: id in t.info ==> StandsAt(t, id))
    && forall i :: 0 <= i < |t.random| ==> PosOk(t, i)
  }

  lemma SequentialRandom(t: Tables)
    requires Sequential(t)
    ensures RandomOk(t)
  {
    forall i | 0 <= i < |t.random| ensures PosOk(t, i) { assert t.random[i] == Id(i); }
  }

  lemma {:induction false} RestoreRandom(env: Env, t: Tables, rs: seq<Reference>, n: nat, restoreBucketing: bool)
    requires n <= |rs| && (forall k :: 0 <= k < n ==> Id(rs[k].index) in t.info) && RandomOk(t)
    ensures RandomOk(RestoreAll(env, t, rs, n, restoreBucketing))
  {
    hide RandomOk, Restore;
    if n > 0 {
      RestoreRandom(env, t, rs, n - 1, restoreBucketing);
      RestoreOneRandom(env, RestoreAll(env, t, rs, n - 1, restoreBucketing), rs[n - 1], restoreBucketing);
    }
  }

  lemma RestoreOneRandom(env: Env, t: Tables, r: Reference, restoreBucketing: bool)
    requires Id(r.index) in t.info && RandomOk(t)
    ensures RandomOk(Restore(env, t, r, restoreBucketing))
  {
    hide InBucket;
    var u := Restore(env, t, r, restoreBucketing);
    forall id | id in u.info ensures StandsAt(u, id) { assert StandsAt(t, id); }
    forall i | 0 <= i < |u.random| ensures PosOk(u, i) { assert PosOk(t, i); }
  }

  lemma SwapMovesTo(t: Tables, i: nat, j: nat, id: Id)
    requires i < |t.random| && j < |t.random| && t.random[i] in t.info && t.random[j] in t.info
    requires PosOk(t, i) && PosOk(t, j) && id in t.info && StandsAt(t, id)
    ensures id in SwapRandom(t, i, j).info
    ensures SwapRandom(t, i, j).info[id] == t.info[id].(randomPos := Swapped(i, j, t.info[id].randomPos))
  {
  }

  lemma SwapRandomOk(t: Tables, i: nat, j: nat)
    requires RandomOk(t) && i < |t.random| && j < |t.random| && t.random[i] in t.info && t.random[j] in t.info
    ensures RandomOk(SwapRandom(t, i, j)) && OnlyTouches(t.info, SwapRandom(t, i, j).info, {})
  {
    hide SwapRandom;
    assert PosOk(t, i) && PosOk(t, j);
    SwapOrder(t, i, j);
    var u := SwapRandom(t, i, j);
    forall id | id in t.info
      ensures id in u.info && u.info[id] == t.info[id].(randomPos := Swapped(i, j, t.info[id].randomPos))
    {
      assert StandsAt(t, id);
      SwapMovesTo(t, i, j, id);
    }
    forall id | id in u.info ensures StandsAt(u, id) {
      assert StandsAt(t, id);
    }
    forall k | 0 <= k < |u.random| ensures PosOk(u, k) {
      assert PosOk(t, Swapped(i, j, k));
    }
  }

  lemma DropRandomOk(env: Env, t: Tables, id: Id)
    requires RandomOk(t) && id in t.info && t.random != [] && t.random[|t.random| - 1] == id
    ensures RandomOk(DropLast(env, t, id)) && OnlyTouches(t.info, DropLast(env, t, id).info, {id})
  {
    var u := DropLast(env, t, id);
    forall k | k in u.info ensures StandsAt(u, k) {
      assert StandsAt(t, k) && StandsAt(t, id) && PosOk(t, |t.random| - 1);
    }
    forall i | 0 <= i < |u.random| ensures PosOk(u, i) {
      assert PosOk(t, i) && PosOk(t, |t.random| - 1);
    }
  }

  lemma DeleteRandom(env: Env, t: Tables, id: Id)
    requires RandomOk(t) && id in t.info
    ensures CanDelete(t, id)
    ensures var u := Delete(env, t, id);
            RandomOk(u) && OnlyTouches(t.info, u.info, {id}) && id !in u.info &&
            u.news == t.news && u.tried == t.tried && u.nTried == t.nTried && u.nNew == t.nNew - 1 && u.idCount == t.idCount &&
            u.addr == t.addr - {t.info[id].service} && u.counts == Bump(t.counts, env.network(t.info[id].service), -1, 0)
  {
    hide RandomOk, SwapRandom, Bump, DropLast, CanDelete;
    Deletable(t, id);
    var pos, last := t.info[id].randomPos, |t.random| - 1;
    SwapOrder(t, pos, last);
    SwapRandomOk(t, pos, last);
    SwapTables(t, pos, last);
    var s := SwapRandom(t, pos, last);
    assert SamePlace(t.info[id], s.info[id]);
    DropRandomOk(env, s, id);
    DropIs(env, s, id);
  }

  lemma Deletable(t: Tables, id: Id)
    requires RandomOk(t) && id in t.info
    ensures CanDelete(t, id) && 0 <= t.info[id].randomPos < |t.random| && t.random[t.info[id].randomPos] == id
    ensures t.random[|t.random| - 1] in t.info
  {
    assert StandsAt(t, id) && PosOk(t, |t.random| - 1);
  }

  lemma DropIs(env: Env, t: Tables, id: Id)
    requires id in t.info && t.random != []
    ensures var u := DropLast(env, t, id);
            u == t.(counts := Bump(t.counts, env.network(t.info[id].service), -1, 0), random := u.random, addr := t.addr - {t.info[id].service},
                    info := t.info - {id}, nNew := t.nNew - 1)
  {
  }

  lemma NothingGone(env: Env, t: Tables)
    requires RandomOk(t)
    ensures Without(env, t, t, {})
  {
    hide RandomOk;
    NothingCounted(env, t.info);
    assert forall net :: Among(env, t.info, {}, net, false) == {};
    assert ServicesOf(t.info, {}) == {};
  }

  lemma CountsWithoutOne(env: Env, t: Tables, counts: Counts, gone: set<Id>, id: Id)
    requires CountedWithout(env, t, counts, gone) && id in t.info && id !in gone && !t.info[id].inTried
    ensures CountedWithout(env, t, Bump(counts, env.network(t.info[id].service), -1, 0), gone + {id})
  {
    var net := env.network(t.info[id].service);
    var after := Bump(counts, net, -1, 0);
    assert NetworksOf(env, t.info, gone + {id}) == NetworksOf(env, t.info, gone) + {net};
    forall other | other in after
      ensures after[other] ==
              Count(CountAt(t.counts, other).nNew - |Among(env, t.info, gone + {id}, other, false)|, CountAt(t.counts, other).nTried)
    {
      AmongGrows(env, t.info, gone, id, other, false);
      if other !in counts { NoneOfNetwork(env, t.info, gone, other); }
    }
  }

  lemma NoneOfNetwork(env: Env, info: Infos, ids: set<Id>, net: Network)
    requires net !in NetworksOf(env, info, ids)
    ensures Among(env, info, ids, net, false) == {}
  {
    assert forall id :: id in Among(env, info, ids, net, false) ==> env.network(info[id].service) in NetworksOf(env, info, ids);
  }

  lemma OneMoreGone(env: Env, t: Tables, u: Tables, gone: set<Id>, id: Id)
    requires Without(env, t, u, gone) && id in t.info && id !in gone && !t.info[id].inTried
    ensures CanDelete(u, id) && Without(env, t, Delete(env, u, id), gone + {id})
  {
    hide RandomOk, CountedWithout, Delete, CanDelete, Bump;
    DeleteRandom(env, u, id);
    CountsWithoutOne(env, t, u.counts, gone, id);
    assert SamePlace(t.info[id], u.info[id]);
    var v := Delete(env, u, id);
    assert ServicesOf(t.info, gone + {id}) == ServicesOf(t.info, gone) + {t.info[id].service};
    forall k | k in v.info ensures k in t.info && SamePlace(t.info[k], v.info[k]) {
      assert SamePlace(u.info[k], v.info[k]) && SamePlace(t.info[k], u.info[k]);
    }
  }

  /** The last loop: entries that were given no position are deleted, in any order. */
  method Prune(env: Env, t: Tables) returns (u: Tables)
    requires RandomOk(t)
    ensures Pruned(env, t, u)
    ensures Orphans(t.info) == {} ==> u == t
  {
    hide RandomOk, Without, Delete, CanDelete;
    u := t;
    var todo := set id | id in t.info && !t.info[id].inTried && t.info[id].refCount == 0;
    ghost var all := Orphans(t.info);
    assert todo == all;
    NothingGone(env, t);
    assert all - todo == {};
    while todo != {}
      invariant todo <= all && Without(env, t, u, all - todo)
      invariant all == {} ==> u == t
    {
      var id :| id in todo;
      OneMoreGone(env, t, u, all - todo, id);
      u := Delete(env, u, id);
      assert all - (todo - {id}) == (all - todo) + {id};
      todo := todo - {id};
    }
    assert all - todo == all;
  }

  // ------------------------------------- the order of pruning does not affect the check

  /** Tables that differ in the random order only. */
  ghost predicate Reordered(u: Tables, v: Tables) {
    && RandomOk(u) && RandomOk(v)
    && (forall id :: id in u.info <==> id in v.info)
    && (forall id :: id in u.info ==> SamePlace(u.info[id], v.info[id]))
    && v == u.(info := v.info, random := v.random)
  }

  lemma OrderSize(t: Tables)
    requires RandomOk(t)
    ensures |t.random| == |t.info.Keys|
  {
    forall i, j | 0 <= i < j < |t.random| ensures t.random[i] != t.random[j] {
      assert PosOk(t, i) && PosOk(t, j);
    }
    DistinctSize(t.random);
    forall id ensures id in t.info.Keys <==> id in t.random {
      if id in t.info { assert StandsAt(t, id); }
      if id in t.random {
        var i :| 0 <= i < |t.random| && t.random[i] == id;
        assert PosOk(t, i);
      }
    }
    assert (set id | id in t.random) == t.info.Keys;
  }

  lemma ReorderedEntries(u: Tables, v: Tables)
    requires Reordered(u, v) && EntriesPass(u)
    ensures EntriesPass(v)
  {
    forall id | id in v.info ensures EntryPasses(v, id) {
      assert EntryPasses(u, id) && SamePlace(u.info[id], v.info[id]) && StandsAt(v, id);
    }
  }

  lemma ReorderedTables(env: Env, u: Tables, v: Tables)
    requires Reordered(u, v)
    ensures TriedIds(u.info) == TriedIds(v.info) && NewIds(u.info) == NewIds(v.info)
    ensures TriedPasses(env, u) ==> TriedPasses(env, v)
    ensures NewsPass(env, u) ==> NewsPass(env, v)
  {
    hide RandomOk, InBucket, TriedSlot;
    assert forall id :: id in u.info ==> SamePlace(u.info[id], v.info[id]);
    if TriedPasses(env, u) {
      forall s | s in v.tried ensures TriedSlotOk(env, v, s) { assert TriedSlotOk(env, u, s); }
    }
    if NewsPass(env, u) {
      forall s | s in v.news ensures NewSlotPasses(env, v, s) { assert NewSlotPasses(env, u, s); }
    }
  }

  lemma ReorderedCounts(env: Env, u: Tables, v: Tables)
    requires Reordered(u, v) && CountsPass(env, u)
    ensures CountsPass(env, v)
  {
    hide RandomOk;
    assert u.info.Keys == v.info.Keys;
    assert forall id :: id in u.info ==> SamePlace(u.info[id], v.info[id]);
    assert NetworksOf(env, u.info, u.info.Keys) == NetworksOf(env, v.info, v.info.Keys);
    forall net ensures LocalCount(env, u.info, u.info.Keys, net) == LocalCount(env, v.info, v.info.Keys, net) {
      assert Among(env, u.info, u.info.Keys, net, false) == Among(env, v.info, v.info.Keys, net, false);
      assert Among(env, u.info, u.info.Keys, net, true) == Among(env, v.info, v.info.Keys, net, true);
    }
  }

  lemma ReorderedPasses(env: Env, u: Tables, v: Tables, keyIsNull: bool)
    requires Reordered(u, v) && Passes(env, u, keyIsNull)
    ensures Passes(env, v, keyIsNull)
  {
    hide RandomOk, EntriesPass, TriedPasses, NewsPass, CountsPass, TriedIds, NewIds;
    ReorderedEntries(u, v);
    ReorderedTables(env, u, v);
    ReorderedCounts(env, u, v);
    OrderSize(u);
    OrderSize(v);
    assert u.info.Keys == v.info.Keys;
  }

  lemma WithoutReordered(env: Env, t: Tables, u: Tables, v: Tables, gone: set<Id>)
    requires Without(env, t, u, gone) && Without(env, t, v, gone)
    ensures Reordered(u, v)
  {
    hide RandomOk;
    assert u.counts == v.counts;
    forall id | id in u.info ensures id in v.info && SamePlace(u.info[id], v.info[id]) {
      assert SamePlace(t.info[id], u.info[id]) && SamePlace(t.info[id], v.info[id]);
    }
  }

  lemma PrunedAlike(env: Env, t: Tables, u: Tables, v: Tables, keyIsNull: bool)
    requires Pruned(env, t, u) && Pruned(env, t, v)
    ensures Reordered(u, v) && (Passes(env, u, keyIsNull) <==> Passes(env, v, keyIsNull))
  {
    hide Without, Passes, Reordered;
    WithoutReordered(env, t, u, v, Orphans(t.info));
    WithoutReordered(env, t, v, u, Orphans(t.info));
    if Passes(env, u, keyIsNull) { ReorderedPasses(env, u, v, keyIsNull); }
    if Passes(env, v, keyIsNull) { ReorderedPasses(env, v, u, keyIsNull); }
  }
}
