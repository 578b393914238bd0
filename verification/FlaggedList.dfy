/** The intrusive list of flagged cache entries (src/coins.h).

    The entries of a cache live in a map and are threaded, through links stored in
    the entries themselves, on one circular doubly linked list that starts and ends
    at a sentinel. A link names the map key of the entry it points to. */
module FlaggedList {
  import opened Sequences
  import opened CoinsView

  datatype Link = Null | ToSentinel | ToEntry(key: OutPoint)

  /** A map node: the cached entry together with m_prev and m_next. */
  datatype Node = Node(entry: Entry, prev: Link, next: Link)

  type Nodes = map<OutPoint, Node>

  /** The node map and the sentinel's two links. */
  datatype Chain = Chain(nodes: Nodes, first: Link, last: Link)

  predicate Reaches(c: Chain, at: Link) {
    at.ToSentinel? || (at.ToEntry? && at.key in c.nodes)
  }

  function WithNext(c: Chain, at: Link, to: Link): Chain
    requires Reaches(c, at)
  {
    if at.ToSentinel? then c.(first := to)
    else c.(nodes := c.nodes[at.key := c.nodes[at.key].(next := to)])
  }

  function WithPrev(c: Chain, at: Link, to: Link): Chain
    requires Reaches(c, at)
  {
    if at.ToSentinel? then c.(last := to)
    else c.(nodes := c.nodes[at.key := c.nodes[at.key].(prev := to)])
  }

  function WithEntry(c: Chain, k: OutPoint, e: Entry): Chain
    requires k in c.nodes
  {
    c.(nodes := c.nodes[k := c.nodes[k].(entry := e)])
  }

  function EntriesOf(nodes: Nodes): Entries {
    map k | k in nodes :: nodes[k].entry
  }

  // ---------------------------------------------------------------- well-formedness

  /** The link that stands at position i of the circle; both ends are the sentinel. */
  function LinkAt(order: seq<OutPoint>, i: int): Link {
    if 0 <= i < |order| then ToEntry(order[i]) else ToSentinel
  }

  ghost predicate ThreadedAt(nodes: Nodes, order: seq<OutPoint>, i: nat)
    requires i < |order|
  {
    && order[i] in nodes
    && nodes[order[i]].prev == LinkAt(order, i - 1)
    && nodes[order[i]].next == LinkAt(order, i + 1)
  }

  ghost predicate Threaded(nodes: Nodes, order: seq<OutPoint>) {
    forall i :: 0 <= i < |order| ==> ThreadedAt(nodes, order, i)
  }

  /** Walking the links visits `order`, forwards and backwards, and nothing else is linked. */
  ghost predicate Circular(c: Chain, order: seq<OutPoint>) {
    && Distinct(order)
    && Threaded(c.nodes, order)
    && c.first == LinkAt(order, 0)
    && c.last == LinkAt(order, |order| - 1)
    && forall k :: k in c.nodes && k !in order ==> c.nodes[k].prev == Null && c.nodes[k].next == Null
  }

  /** The list holds exactly the flagged entries. */
  ghost predicate ListsFlagged(nodes: Nodes, order: seq<OutPoint>) {
    && (forall k :: k in order ==> k in nodes)
    && forall k :: k in nodes ==> (nodes[k].entry.Flagged() <==> k in order)
  }

  ghost predicate WellLinked(c: Chain, order: seq<OutPoint>) {
    Circular(c, order) && ListsFlagged(c.nodes, order)
  }

  // ------------------------------------------------------------------- link surgery

  /** The four assignments of AddFlags for an entry that carried no flag. */
  function Append(c: Chain, k: OutPoint): Chain
    requires k in c.nodes && Reaches(c, c.last)
  {
    var linked := c.(nodes := c.nodes[k := c.nodes[k].(prev := c.last, next := ToSentinel)], last := ToEntry(k));
    WithNext(linked, c.last, ToEntry(k))
  }

  lemma AppendThreads(c: Chain, order: seq<OutPoint>, k: OutPoint)
    requires Circular(c, order) && k in c.nodes && k !in order
    ensures Reaches(c, c.last)
    ensures Circular(Append(c, k), order + [k])
    ensures Append(c, k).nodes.Keys == c.nodes.Keys
    ensures forall j :: j in c.nodes ==> Append(c, k).nodes[j].entry == c.nodes[j].entry
  {
    if order != [] { assert ThreadedAt(c.nodes, order, |order| - 1); }
    var after, d := order + [k], Append(c, k);
    forall i | 0 <= i < |after| ensures ThreadedAt(d.nodes, after, i) {
      if i < |order| {
        assert ThreadedAt(c.nodes, order, i);
        assert i < |order| - 1 ==> order[i] != order[|order| - 1];
      }
    }
  }

  /** The assignments of SetClean: the neighbours close the gap and the entry is off the list. */
  function Unlink(c: Chain, k: OutPoint): Chain
    requires k in c.nodes && Reaches(c, c.nodes[k].next) && Reaches(c, c.nodes[k].prev)
  {
    var prev, next := c.nodes[k].prev, c.nodes[k].next;
    var d := WithNext(WithPrev(c, next, prev), prev, next);
    d.(nodes := d.nodes[k := d.nodes[k].(prev := Null, next := Null)])
  }

  function Without(order: seq<OutPoint>, i: nat): seq<OutPoint>
    requires i < |order|
  {
    order[..i] + order[i + 1..]
  }

  lemma UnlinkThreads(c: Chain, order: seq<OutPoint>, i: nat)
    requires Circular(c, order) && i < |order|
    ensures order[i] in c.nodes && Reaches(c, c.nodes[order[i]].next) && Reaches(c, c.nodes[order[i]].prev)
    ensures Circular(Unlink(c, order[i]), Without(order, i))
    ensures Unlink(c, order[i]).nodes.Keys == c.nodes.Keys
    ensures forall j :: j in c.nodes ==> Unlink(c, order[i]).nodes[j].entry == c.nodes[j].entry
  {
    NeighboursReached(c, order, i);
    UnlinkEntries(c, order[i]);
    UnlinkLoose(c, order, i);
    var after, d := Without(order, i), Unlink(c, order[i]);
    assert Threaded(d.nodes, after) by {
      hide Unlink, Without;
      forall m | 0 <= m < |after| ensures ThreadedAt(d.nodes, after, m) {
        UnlinkThreadedAt(c, order, i, m);
      }
    }
  }

  lemma UnlinkThreadedAt(c: Chain, order: seq<OutPoint>, i: nat, m: nat)
    requires Circular(c, order) && i < |order| && m < |Without(order, i)|
    requires order[i] in c.nodes && Reaches(c, c.nodes[order[i]].next) && Reaches(c, c.nodes[order[i]].prev)
    ensures ThreadedAt(Unlink(c, order[i]).nodes, Without(order, i), m)
  {
    WithoutLength(order, i);
    UnlinkOther(c, order, i, if m < i then m else m + 1);
    SkipLink(order, i, m);
  }

  lemma UnlinkEntries(c: Chain, k: OutPoint)
    requires k in c.nodes && Reaches(c, c.nodes[k].next) && Reaches(c, c.nodes[k].prev)
    ensures Unlink(c, k).nodes.Keys == c.nodes.Keys
    ensures forall j :: j in c.nodes ==> Unlink(c, k).nodes[j].entry == c.nodes[j].entry
  {
  }

  lemma WithoutLength(order: seq<OutPoint>, i: nat)
    requires i < |order|
    ensures |Without(order, i)| == |order| - 1
    ensures forall m :: 0 <= m < |order| - 1 ==> Without(order, i)[m] == order[if m < i then m else m + 1]
  {
  }

  lemma NeighboursReached(c: Chain, order: seq<OutPoint>, i: nat)
    requires Circular(c, order) && i < |order|
    ensures order[i] in c.nodes && Reaches(c, c.nodes[order[i]].next) && Reaches(c, c.nodes[order[i]].prev)
    ensures c.nodes[order[i]].prev == LinkAt(order, i - 1) && c.nodes[order[i]].next == LinkAt(order, i + 1)
  {
    assert ThreadedAt(c.nodes, order, i);
    if i > 0 { assert ThreadedAt(c.nodes, order, i - 1); }
    if i + 1 < |order| { assert ThreadedAt(c.nodes, order, i + 1); }
  }

  /** What unlinking position i does to the node at another position. */
  lemma UnlinkOther(c: Chain, order: seq<OutPoint>, i: nat, at: nat)
    requires Circular(c, order) && i < |order| && at < |order| && at != i
    requires order[i] in c.nodes && Reaches(c, c.nodes[order[i]].next) && Reaches(c, c.nodes[order[i]].prev)
    ensures order[at] in c.nodes && order[at] in Unlink(c, order[i]).nodes
    ensures Unlink(c, order[i]).nodes[order[at]].prev == if at == i + 1 then LinkAt(order, i - 1) else LinkAt(order, at - 1)
    ensures Unlink(c, order[i]).nodes[order[at]].next == if at + 1 == i then LinkAt(order, i + 1) else LinkAt(order, at + 1)
  {
    NeighboursReached(c, order, i);
    assert ThreadedAt(c.nodes, order, at);
    assert at != i + 1 && i + 1 < |order| ==> order[at] != order[i + 1];
    assert at + 1 != i && i > 0 ==> order[at] != order[i - 1];
  }

  lemma SkipLink(order: seq<OutPoint>, i: nat, m: nat)
    requires i < |order| && m < |order| - 1
    ensures LinkAt(Without(order, i), m - 1) ==
            if m == i then LinkAt(order, i - 1) else LinkAt(order, (if m < i then m else m + 1) - 1)
    ensures LinkAt(Without(order, i), m + 1) ==
            if m + 1 == i then LinkAt(order, i + 1) else LinkAt(order, (if m < i then m else m + 1) + 1)
  {
  }

  /** Nothing but the remaining positions is linked after an unlink. */
  lemma UnlinkLoose(c: Chain, order: seq<OutPoint>, i: nat)
    requires Circular(c, order) && i < |order|
    requires order[i] in c.nodes && Reaches(c, c.nodes[order[i]].next) && Reaches(c, c.nodes[order[i]].prev)
    ensures var d := Unlink(c, order[i]); var after := Without(order, i);
            && Distinct(after)
            && d.first == LinkAt(after, 0) && d.last == LinkAt(after, |after| - 1)
            && forall k :: k in d.nodes && k !in after ==> d.nodes[k].prev == Null && d.nodes[k].next == Null
  {
    var d, after := Unlink(c, order[i]), Without(order, i);
    NeighboursReached(c, order, i);
    forall k | k in d.nodes && k !in after ensures d.nodes[k].prev == Null && d.nodes[k].next == Null {
      if k != order[i] {
        KeepsOthers(order, i, k);
        assert i > 0 ==> order[i - 1] in order;
        assert i + 1 < |order| ==> order[i + 1] in order;
      }
    }
  }

  lemma KeepsOthers(order: seq<OutPoint>, i: nat, k: OutPoint)
    requires i < |order| && k != order[i]
    ensures k in Without(order, i) <==> k in order
  {
    if k in order {
      var j :| 0 <= j < |order| && order[j] == k;
      assert Without(order, i)[if j < i then j else j - 1] == k;
    }
  }

  lemma DropsOnce(order: seq<OutPoint>, i: nat)
    requires Distinct(order) && i < |order|
    ensures order[i] !in Without(order, i)
    ensures forall k :: k in Without(order, i) <==> k in order && k != order[i]
  {
    forall k ensures k in Without(order, i) <==> k in order && k != order[i] {
      if k != order[i] { KeepsOthers(order, i, k); }
    }
  }

  /** Deleting a node that is off the list leaves the circle alone. */
  lemma LooseNodeDeleted(c: Chain, order: seq<OutPoint>, k: OutPoint)
    requires Circular(c, order) && k !in order
    ensures Circular(c.(nodes := c.nodes - {k}), order)
  {
    forall i | 0 <= i < |order| ensures ThreadedAt(c.nodes - {k}, order, i) {
      assert ThreadedAt(c.nodes, order, i) && order[i] != k;
    }
  }

  /** So does adding one. */
  lemma LooseNodeAdded(c: Chain, order: seq<OutPoint>, k: OutPoint, e: Entry)
    requires Circular(c, order) && k !in order
    ensures Circular(c.(nodes := c.nodes[k := Node(e, Null, Null)]), order)
  {
    var nodes := c.nodes[k := Node(e, Null, Null)];
    forall i | 0 <= i < |order| ensures ThreadedAt(nodes, order, i) {
      assert ThreadedAt(c.nodes, order, i) && order[i] != k;
    }
  }

  /** And so does writing to the cached data of any node. */
  lemma EntryRewritten(c: Chain, order: seq<OutPoint>, k: OutPoint, e: Entry)
    requires Circular(c, order) && k in c.nodes
    ensures Circular(WithEntry(c, k, e), order)
  {
    forall i | 0 <= i < |order| ensures ThreadedAt(WithEntry(c, k, e).nodes, order, i) {
      assert ThreadedAt(c.nodes, order, i);
    }
  }

  /** The list is as long as there are flagged entries. */
  lemma ListLength(c: Chain, order: seq<OutPoint>)
    requires WellLinked(c, order)
    ensures |set k | k in c.nodes && c.nodes[k].entry.Flagged()| == |order|
    ensures |order| <= |c.nodes|
  {
    DistinctSize(order);
    var flagged := set k | k in c.nodes && c.nodes[k].entry.Flagged();
    assert flagged == set k | k in order;
    SubsetSize(flagged, c.nodes.Keys);
  }

  lemma SubsetSize<T>(a: set<T>, b: set<T>)
    requires a <= b
    ensures |a| <= |b|
  {
    assert |b| == |a| + |b - a|;
  }

  lemma FlaggedIndex(c: Chain, order: seq<OutPoint>, k: OutPoint) returns (i: nat)
    requires WellLinked(c, order) && k in c.nodes && c.nodes[k].entry.Flagged()
    ensures i < |order| && order[i] == k
  {
    i :| i < |order| && order[i] == k;
  }

  // ------------------------------------------------- the three updates of a cache

  /** AddFlags on an unflagged entry. */
  function Flagging(c: Chain, k: OutPoint, e: Entry): Chain
    requires k in c.nodes && Reaches(c, c.last)
  {
    WithEntry(Append(c, k), k, e)
  }

  lemma FlaggingKeeps(c: Chain, order: seq<OutPoint>, k: OutPoint, e: Entry)
    requires WellLinked(c, order) && k in c.nodes && !c.nodes[k].entry.Flagged() && e.Flagged()
    ensures Reaches(c, c.last)
    ensures WellLinked(Flagging(c, k, e), order + [k])
    ensures EntriesOf(Flagging(c, k, e).nodes) == EntriesOf(c.nodes)[k := e]
  {
    AppendThreads(c, order, k);
    EntryRewritten(Append(c, k), order + [k], k, e);
  }

  /** Rewriting the cached data without changing whether the entry is flagged. */
  lemma RewritingKeeps(c: Chain, order: seq<OutPoint>, k: OutPoint, e: Entry)
    requires WellLinked(c, order) && k in c.nodes && (c.nodes[k].entry.Flagged() <==> e.Flagged())
    ensures WellLinked(WithEntry(c, k, e), order)
    ensures EntriesOf(WithEntry(c, k, e).nodes) == EntriesOf(c.nodes)[k := e]
  {
    EntryRewritten(c, order, k, e);
  }

  /** SetClean on a flagged entry. */
  function Cleaning(c: Chain, k: OutPoint): Chain
    requires k in c.nodes && Reaches(c, c.nodes[k].next) && Reaches(c, c.nodes[k].prev)
  {
    WithEntry(Unlink(c, k), k, Entry(c.nodes[k].entry.coin, false, false))
  }

  lemma CleaningKeeps(c: Chain, order: seq<OutPoint>, i: nat)
    requires WellLinked(c, order) && i < |order|
    ensures order[i] in c.nodes && Reaches(c, c.nodes[order[i]].next) && Reaches(c, c.nodes[order[i]].prev)
    ensures WellLinked(Cleaning(c, order[i]), Without(order, i))
    ensures EntriesOf(Cleaning(c, order[i]).nodes) == EntriesOf(c.nodes)[order[i] := Entry(c.nodes[order[i]].entry.coin, false, false)]
    ensures order[i] !in Without(order, i)
  {
    UnlinkThreads(c, order, i);
    DropsOnce(order, i);
    EntryRewritten(Unlink(c, order[i]), Without(order, i), order[i], Entry(c.nodes[order[i]].entry.coin, false, false));
  }

  lemma DeletingKeeps(c: Chain, order: seq<OutPoint>, k: OutPoint)
    requires WellLinked(c, order) && k in c.nodes && !c.nodes[k].entry.Flagged()
    ensures WellLinked(c.(nodes := c.nodes - {k}), order)
    ensures EntriesOf(c.nodes - {k}) == EntriesOf(c.nodes) - {k}
  {
    LooseNodeDeleted(c, order, k);
  }

  lemma InsertingKeeps(c: Chain, order: seq<OutPoint>, k: OutPoint, e: Entry)
    requires WellLinked(c, order) && k !in c.nodes && !e.Flagged()
    ensures WellLinked(c.(nodes := c.nodes[k := Node(e, Null, Null)]), order)
    ensures EntriesOf(c.nodes[k := Node(e, Null, Null)]) == EntriesOf(c.nodes)[k := e]
  {
    LooseNodeAdded(c, order, k, e);
  }
}
