/** The block tree with its skip pointers, and the active chain (src/chain.cpp, src/chain.h).

    A tree is a set of index entries closed under pprev. What an ancestor is, is defined by the plain
    pprev walk; every method that uses skip pointers or stops early is held against it. */
module Chain {
  import opened Powers

  // ---------------------------------------------------------------- skip heights

  /** Bitwise and. */
  function And(a: nat, b: nat): nat {
    if a == 0 || b == 0 then 0
    else 2 * And(a / 2, b / 2) + if a % 2 == 1 && b % 2 == 1 then 1 else 0
  }

  /** n & (n - 1); for n == 0 the mask is all ones. */
  function InvertLowestOne(n: nat): nat {
    if n == 0 then 0 else And(n, n - 1)
  }

  lemma {:induction false} AndItself(n: nat)
    ensures And(n, n) == n
  {
    if n > 0 { AndItself(n / 2); }
  }

  /** The lowest one bit, and only that, is cleared. */
  lemma {:induction false} InvertsLowestOne(high: nat, k: nat)
    ensures InvertLowestOne((2 * high + 1) * Pow2(k)) == 2 * high * Pow2(k)
  {
    hide Pow2, And, InvertLowestOne;
    if k == 0 {
      Pow2Zero();
      InvertOdd(high);
    } else {
      InvertsLowestOne(high, k - 1);
      var p := Pow2(k - 1);
      Pow2Next(k - 1);
      Twice(2 * high + 1, p);
      Twice(2 * high, p);
      ProductMono(1, 2 * high + 1, p);
      InvertTwice((2 * high + 1) * p);
    }
  }

  lemma InvertOdd(high: nat)
    ensures InvertLowestOne(2 * high + 1) == 2 * high
  {
    if high > 0 { AndItself(high); }
  }

  lemma InvertTwice(m: nat)
    requires m > 0
    ensures InvertLowestOne(2 * m) == 2 * InvertLowestOne(m)
  {
    assert (2 * m - 1) / 2 == m - 1;
  }

  lemma {:induction false} InvertSmaller(n: nat)
    requires n > 0
    ensures InvertLowestOne(n) < n
  {
    AndBelow(n, n - 1);
  }

  lemma {:induction false} AndBelow(a: nat, b: nat)
    ensures And(a, b) <= b
  {
    if a > 0 && b > 0 { AndBelow(a / 2, b / 2); }
  }

  /** GetSkipHeight: always strictly lower than the height it is asked for. */
  function GetSkipHeight(height: int): (r: int)
    ensures if height >= 1 then 0 <= r < height else r == 0
  {
    if height < 2 then 0
    else if height % 2 == 1 then
      InvertSmaller(height - 1);
      var once := InvertLowestOne(height - 1);
      assert once > 0 ==> InvertLowestOne(once) < once by { if once > 0 { InvertSmaller(once); } }
      InvertLowestOne(once) + 1
    else
      InvertSmaller(height);
      InvertLowestOne(height)
  }

  /** The lowest one bit of n is bit k, and high is what stands above it. */
  ghost predicate LowestAt(n: nat, high: nat, k: nat) {
    n == (2 * high + 1) * Pow2(k)
  }

  /** m is n with its lowest one bit cleared. */
  ghost predicate Clears(n: nat, m: nat) {
    exists high: nat, k: nat :: LowestAt(n, high, k) && m == 2 * high * Pow2(k)
  }

  /** m is n with its two lowest one bits cleared, or the only one there is. */
  ghost predicate ClearsTwo(n: nat, m: nat) {
    exists once: nat :: Clears(n, once) && if once == 0 then m == 0 else Clears(once, m)
  }

  /** m is n with the two lowest one bits above its last cleared. */
  ghost predicate ClearsAbove(n: nat, m: nat) {
    n > 0 && m > 0 && ClearsTwo(n - 1, m - 1)
  }

  lemma {:induction false} LowestOne(n: nat) returns (high: nat, k: nat)
    requires n > 0
    ensures LowestAt(n, high, k)
  {
    hide Pow2;
    if n % 2 == 1 {
      Pow2Zero();
      high, k := n / 2, 0;
    } else {
      high, k := LowestOne(n / 2);
      Pow2Next(k);
      Twice(2 * high + 1, Pow2(k));
      k := k + 1;
    }
  }

  lemma ClearsExactly(n: nat)
    requires n > 0
    ensures forall m: nat :: Clears(n, m) <==> m == InvertLowestOne(n)
  {
    hide Pow2, InvertLowestOne;
    var high, k := LowestOne(n);
    InvertsLowestOne(high, k);
    assert Clears(n, 2 * high * Pow2(k));
    forall m: nat | Clears(n, m) ensures m == InvertLowestOne(n) {
      var h: nat, j: nat :| LowestAt(n, h, j) && m == 2 * h * Pow2(j);
      InvertsLowestOne(h, j);
    }
  }

  /** By parity: an even height loses its lowest one bit, an odd one keeps the last and loses
      the two above it. */
  lemma SkipHeightBits(height: int)
    ensures height < 2 ==> GetSkipHeight(height) == 0
    ensures height >= 2 && height % 2 == 0 ==> forall m: nat :: Clears(height, m) <==> m == GetSkipHeight(height)
    ensures height >= 2 && height % 2 == 1 ==> forall m: nat :: ClearsAbove(height, m) <==> m == GetSkipHeight(height)
  {
    hide InvertLowestOne, Clears;
    if height >= 2 {
      if height % 2 == 0 {
        ClearsExactly(height);
      } else {
        ClearsExactly(height - 1);
        var once := InvertLowestOne(height - 1);
        if once > 0 { ClearsExactly(once); } else { InvertZero(); }
        assert Clears(height - 1, once);
      }
    }
  }

  lemma InvertZero()
    ensures InvertLowestOne(0) == 0
  {
  }

  // -------------------------------------------------------------------- the tree

  ghost predicate LinkOk(tree: set<BlockIndex>, b: BlockIndex)
    reads tree`pprev, tree`nHeight, b`pprev, b`nHeight
  {
    && b.nHeight >= 0
    && if b.pprev == null then b.nHeight == 0 else b.pprev in tree && b.nHeight == b.pprev.nHeight + 1
  }

  ghost predicate Links(tree: set<BlockIndex>)
    reads tree`pprev, tree`nHeight
  {
    forall b :: b in tree ==> LinkOk(tree, b)
  }

  /** The block a plain walk along pprev reaches at the given height. */
  ghost function Ancestor(tree: set<BlockIndex>, b: BlockIndex, height: int): (r: BlockIndex)
    requires Links(tree) && b in tree && 0 <= height <= b.nHeight
    reads tree`pprev, tree`nHeight
    ensures r in tree && r.nHeight == height
    decreases b.nHeight
  {
    assert LinkOk(tree, b);
    if b.nHeight == height then b else Ancestor(tree, b.pprev, height)
  }

  ghost predicate SkipOk(tree: set<BlockIndex>, b: BlockIndex)
    requires Links(tree) && b in tree
    reads tree
  {
    assert LinkOk(tree, b);
    b.pskip != null ==> b.pskip == Ancestor(tree, b, GetSkipHeight(b.nHeight))
  }

  /** Heights count the steps to the root, and every skip pointer that is set leads to its ancestor. */
  ghost predicate Tree(tree: set<BlockIndex>)
    reads tree
  {
    Links(tree) && forall b :: b in tree ==> SkipOk(tree, b)
  }

  lemma TreeLinks(tree: set<BlockIndex>)
    requires Tree(tree)
    ensures Links(tree)
  {
  }

  lemma {:induction false} AncestorOfAncestor(tree: set<BlockIndex>, b: BlockIndex, middle: int, height: int)
    requires Links(tree) && b in tree && 0 <= height <= middle <= b.nHeight
    ensures Ancestor(tree, Ancestor(tree, b, middle), height) == Ancestor(tree, b, height)
    decreases b.nHeight
  {
    assert LinkOk(tree, b);
    if b.nHeight > middle { AncestorOfAncestor(tree, b.pprev, middle, height); }
  }

  class BlockIndex {
    var pprev: BlockIndex?
    var pskip: BlockIndex?
    var nHeight: int

    constructor ()
      ensures pprev == null && pskip == null && nHeight == 0
    {
      pprev, pskip, nHeight := null, null, 0;
    }

    /** GetAncestor: whichever skips it takes, it arrives where the plain walk does. */
    method GetAncestor(height: int, ghost tree: set<BlockIndex>) returns (r: BlockIndex?)
      requires Tree(tree) && this in tree
      ensures height > nHeight || height < 0 ==> r == null
      ensures 0 <= height <= nHeight ==> r == Ancestor(tree, this, height)
    {
      if height > nHeight || height < 0 {
        return null;
      }
      var pindexWalk: BlockIndex := this;
      var heightWalk := nHeight;
      while heightWalk > height
        invariant pindexWalk in tree && heightWalk == pindexWalk.nHeight >= height
        invariant Ancestor(tree, pindexWalk, height) == Ancestor(tree, this, height)
      {
        assert LinkOk(tree, pindexWalk) && SkipOk(tree, pindexWalk);
        var heightSkip := GetSkipHeight(heightWalk);
        var heightSkipPrev := GetSkipHeight(heightWalk - 1);
        if pindexWalk.pskip != null &&
           (heightSkip == height || (heightSkip > height && !(heightSkipPrev < heightSkip - 2 && heightSkipPrev >= height))) {
          AncestorOfAncestor(tree, pindexWalk, heightSkip, height);
          pindexWalk := pindexWalk.pskip;
          heightWalk := heightSkip;
        } else {
          assert pindexWalk.pprev != null;
          pindexWalk := pindexWalk.pprev;
          heightWalk := heightWalk - 1;
        }
      }
      return pindexWalk;
    }

    /** BuildSkip: afterwards the skip pointer of every block but a root is set, and to the right ancestor. */
    method BuildSkip(ghost tree: set<BlockIndex>)
      requires Tree(tree) && this in tree
      modifies this`pskip
      ensures Tree(tree) && (pprev != null ==> pskip == Ancestor(tree, this, GetSkipHeight(nHeight)))
      ensures pprev == null ==> pskip == old(pskip)
    {
      assert LinkOk(tree, this);
      if pprev != null {
        pskip := pprev.GetAncestor(GetSkipHeight(nHeight), tree);
        forall b | b in tree ensures SkipOk(tree, b) {
          if b != this { assert old(SkipOk(tree, b)); }
        }
      }
    }
  }

  /** Appending a block to a tree as AddToBlockIndex does (src/node/blockstorage.cpp:205-237): the
      old blocks keep their ancestors, the new one has those of its parent. */
  method Append(ghost tree: set<BlockIndex>, prev: BlockIndex?) returns (b: BlockIndex)
    requires Tree(tree) && (prev != null ==> prev in tree)
    ensures fresh(b) && Tree(tree + {b}) && Links(tree) && b.pprev == prev
    ensures prev != null ==> b.nHeight == prev.nHeight + 1 && b.pskip == Ancestor(tree + {b}, b, GetSkipHeight(b.nHeight))
    ensures forall c: BlockIndex, h: int :: c in tree && 0 <= h <= c.nHeight ==> Ancestor(tree + {b}, c, h) == Ancestor(tree, c, h)
  {
    hide GetSkipHeight, Ancestor, SkipOk;
    b := new BlockIndex();
    if prev != null {
      b.pprev := prev;
      b.nHeight := prev.nHeight + 1;
    }
    GrownTree(tree, b);
    if prev != null {
      b.BuildSkip(tree + {b});
    }
    forall c: BlockIndex, h: int | c in tree && 0 <= h <= c.nHeight
      ensures Ancestor(tree + {b}, c, h) == Ancestor(tree, c, h)
    {
      AncestorGrown(tree, b, c, h);
    }
  }

  lemma GrownTree(tree: set<BlockIndex>, b: BlockIndex)
    requires Tree(tree) && b !in tree && b.pskip == null
    requires if b.pprev == null then b.nHeight == 0 else b.pprev in tree && b.nHeight == b.pprev.nHeight + 1
    ensures Tree(tree + {b})
  {
    hide GetSkipHeight, Ancestor;
    GrownLinks(tree, b);
    forall c | c in tree + {b} ensures SkipOk(tree + {b}, c) {
      if c in tree {
        assert LinkOk(tree, c) && SkipOk(tree, c);
        AncestorGrown(tree, b, c, GetSkipHeight(c.nHeight));
      }
    }
  }

  lemma GrownLinks(tree: set<BlockIndex>, b: BlockIndex)
    requires Links(tree) && b !in tree
    requires if b.pprev == null then b.nHeight == 0 else b.pprev in tree && b.nHeight == b.pprev.nHeight + 1
    ensures Links(tree + {b})
  {
    forall c | c in tree + {b} ensures LinkOk(tree + {b}, c) {
      if c in tree { assert LinkOk(tree, c); } else { assert b.pprev != null ==> LinkOk(tree, b.pprev); }
    }
  }

  lemma {:induction false} AncestorGrown(tree: set<BlockIndex>, b: BlockIndex, c: BlockIndex, h: int)
    requires Links(tree) && Links(tree + {b}) && b !in tree && c in tree && 0 <= h <= c.nHeight
    ensures Ancestor(tree + {b}, c, h) == Ancestor(tree, c, h)
    decreases c.nHeight
  {
    assert LinkOk(tree, c);
    if c.nHeight > h { AncestorGrown(tree, b, c.pprev, h); }
  }

  // ------------------------------------------------------------- the active chain

  class Chain {
    var vChain: seq<BlockIndex?>

    constructor ()
      ensures vChain == []
    {
      vChain := [];
    }

    /** Every slot holds the tip's ancestor at that height. */
    ghost predicate Holds(tree: set<BlockIndex>, tip: BlockIndex)
      requires Links(tree) && tip in tree
      reads this, tree`pprev, tree`nHeight
    {
      && |vChain| == tip.nHeight + 1
      && forall h :: 0 <= h < |vChain| ==> vChain[h] == Ancestor(tree, tip, h)
    }

    /** An empty chain, or the ancestors of some tip. */
    ghost predicate Consistent(tree: set<BlockIndex>)
      requires Links(tree)
      reads this, tree`pprev, tree`nHeight
    {
      vChain == [] || exists tip :: tip in tree && Holds(tree, tip)
    }

    function At(nHeight: int): (r: BlockIndex?)
      reads this
    {
      if nHeight < 0 || nHeight >= |vChain| then null else vChain[nHeight]
    }

    predicate Contains(pindex: BlockIndex)
      reads this, pindex
    {
      At(pindex.nHeight) == pindex
    }

    function Height(): int
      reads this
    {
      |vChain| - 1
    }

    /** SetTip: although it stops at the first block already in place, every slot ends up right. */
    method SetTip(block: BlockIndex, ghost tree: set<BlockIndex>)
      requires Links(tree) && block in tree && Consistent(tree)
      modifies this
      ensures Holds(tree, block)
    {
      hide Ancestor, Links, Path, Prefixed;
      PathIs(tree, block);
      ghost var path, resized := Path(tree, block), Resized(vChain, block.nHeight + 1);
      OldInPlace(tree, vChain, block);
      var pindex: BlockIndex? := block;
      vChain := Resized(vChain, block.nHeight + 1);
      while pindex != null && vChain[pindex.nHeight] != pindex
        invariant |vChain| == |path|
        invariant pindex != null ==> OnPath(path, pindex)
        invariant forall h :: HeightOf(pindex) < h < |path| ==> vChain[h] == path[h]
        invariant forall h :: 0 <= h <= HeightOf(pindex) && h < |path| ==> vChain[h] == resized[h]
        decreases HeightOf(pindex)
      {
        vChain := vChain[pindex.nHeight := pindex];
        PathSteps(tree, block, pindex.nHeight);
        pindex := pindex.pprev;
      }
      if pindex != null {
        BelowInPlace(path, resized, pindex.nHeight);
      }
    }

    /** FindFork: the highest ancestor of a block on this chain, or none. */
    method FindFork(pindex: BlockIndex?, ghost tree: set<BlockIndex>) returns (r: BlockIndex?)
      requires Tree(tree) && (pindex != null ==> pindex in tree)
      ensures pindex == null ==> r == null
      ensures pindex != null && r != null ==>
                0 <= r.nHeight <= pindex.nHeight && r == Ancestor(tree, pindex, r.nHeight) && Contains(r)
      ensures pindex != null ==>
                forall h :: HeightOf(r) < h <= pindex.nHeight ==> !Contains(Path(tree, pindex)[h])
    {
      hide Ancestor, Tree, Path, Links;
      if pindex == null {
        return null;
      }
      TreeLinks(tree);
      PathIs(tree, pindex);
      ghost var path := Path(tree, pindex);
      r := pindex;
      if pindex.nHeight > Height() {
        r := pindex.GetAncestor(Height(), tree);
      }
      while r != null && !Contains(r)
        invariant r != null ==> OnPath(path, r)
        invariant forall h :: HeightOf(r) < h < |path| ==> !Contains(path[h])
        decreases HeightOf(r)
      {
        PathSteps(tree, pindex, r.nHeight);
        r := r.pprev;
      }
    }
  }

  function HeightOf(b: BlockIndex?): int
    reads if b == null then {} else {b}
  {
    if b == null then -1 else b.nHeight
  }

  /** All ancestors of a block, from its root to itself. */
  ghost function Path(tree: set<BlockIndex>, b: BlockIndex): (path: seq<BlockIndex>)
    requires Links(tree) && b in tree
    reads tree`pprev, tree`nHeight
    ensures |path| == b.nHeight + 1
    decreases b.nHeight
  {
    assert LinkOk(tree, b);
    if b.pprev == null then [b] else Path(tree, b.pprev) + [b]
  }

  ghost predicate Steps(path: seq<BlockIndex>, h: nat)
    requires h < |path|
    reads path
  {
    && path[h].nHeight == h
    && if h == 0 then path[h].pprev == null else path[h].pprev == path[h - 1] && path[h - 1].nHeight == h - 1
  }

  ghost predicate OnPath(path: seq<BlockIndex>, b: BlockIndex)
    reads b
  {
    0 <= b.nHeight < |path| && path[b.nHeight] == b
  }

  lemma {:induction false} PathIs(tree: set<BlockIndex>, b: BlockIndex)
    requires Links(tree) && b in tree
    ensures b.nHeight >= 0 && OnPath(Path(tree, b), b)
    ensures forall h :: 0 <= h <= b.nHeight ==> Path(tree, b)[h] == Ancestor(tree, b, h)
    decreases b.nHeight
  {
    assert LinkOk(tree, b);
    if b.pprev != null { PathIs(tree, b.pprev); }
  }

  lemma {:induction false} PathSteps(tree: set<BlockIndex>, b: BlockIndex, h: nat)
    requires Links(tree) && b in tree && h <= b.nHeight
    ensures Steps(Path(tree, b), h)
    decreases b.nHeight
  {
    assert LinkOk(tree, b);
    if b.pprev != null {
      var front := Path(tree, b.pprev);
      if h < b.nHeight {
        PathSteps(tree, b.pprev, h);
        assert Steps(front, h);
      } else {
        PathIs(tree, b.pprev);
        assert OnPath(front, b.pprev);
      }
    }
  }

  /** Up to and including h, the two agree. */
  ghost predicate Prefixed(path: seq<BlockIndex>, chain: seq<BlockIndex?>, h: nat) {
    h < |path| && h < |chain| && forall k :: 0 <= k <= h ==> chain[k] == path[k]
  }

  /** std::vector::resize: cut off or filled up with null. */
  function Resized(s: seq<BlockIndex?>, n: nat): (r: seq<BlockIndex?>)
    ensures |r| == n && forall i :: 0 <= i < n ==> r[i] == if i < |s| then s[i] else null
  {
    if n <= |s| then s[..n] else s + seq(n - |s|, _ => null)
  }

  lemma BelowInPlace(path: seq<BlockIndex>, chain: seq<BlockIndex?>, h: nat)
    requires Prefixed(path, chain, h)
    ensures forall k :: 0 <= k <= h ==> k < |path| && k < |chain| && chain[k] == path[k]
  {
  }

  /** Where a consistent chain agrees with the path of a block, it agrees everywhere below. */
  lemma OldInPlace(tree: set<BlockIndex>, before: seq<BlockIndex?>, block: BlockIndex)
    requires Links(tree) && block in tree
    requires before == [] || exists tip :: tip in tree && |before| == tip.nHeight + 1 &&
                                           forall h :: 0 <= h < |before| ==> before[h] == Ancestor(tree, tip, h)
    ensures var path, resized := Path(tree, block), Resized(before, block.nHeight + 1);
            forall h :: 0 <= h < |path| && resized[h] == path[h] ==> Prefixed(path, resized, h)
  {
    hide Ancestor, Path;
    PathIs(tree, block);
    var path, resized := Path(tree, block), Resized(before, block.nHeight + 1);
    forall h | 0 <= h < |path| && resized[h] == path[h] ensures Prefixed(path, resized, h) {
      var tip :| tip in tree && |before| == tip.nHeight + 1 && forall h :: 0 <= h < |before| ==> before[h] == Ancestor(tree, tip, h);
      forall k | 0 <= k <= h ensures resized[k] == path[k] {
        AncestorOfAncestor(tree, tip, h, k);
        AncestorOfAncestor(tree, block, h, k);
      }
    }
  }

  /** LastCommonAncestor: the highest block both descend from; none exactly when their roots differ. */
  method LastCommonAncestor(a: BlockIndex, b: BlockIndex, ghost tree: set<BlockIndex>) returns (r: BlockIndex?)
    requires Tree(tree) && a in tree && b in tree
    ensures a.nHeight >= 0 && b.nHeight >= 0
    ensures r == null <==> Ancestor(tree, a, 0) != Ancestor(tree, b, 0)
    ensures r != null ==> 0 <= r.nHeight <= a.nHeight && r.nHeight <= b.nHeight
    ensures r != null ==> r == Ancestor(tree, a, r.nHeight) == Ancestor(tree, b, r.nHeight)
    ensures forall h :: HeightOf(r) < h <= a.nHeight && h <= b.nHeight ==> Path(tree, a)[h] != Path(tree, b)[h]
  {
    hide Ancestor, Tree, Path, Links;
    TreeLinks(tree);
    PathIs(tree, a);
    PathIs(tree, b);
    var pa: BlockIndex?, pb: BlockIndex? := a, b;
    if a.nHeight > b.nHeight {
      pa := a.GetAncestor(b.nHeight, tree);
    } else if b.nHeight > a.nHeight {
      pb := b.GetAncestor(a.nHeight, tree);
    }
    r := StepTogether(a, b, pa, pb, tree);
    if r != null {
      AncestorOfAncestor(tree, a, r.nHeight, 0);
      AncestorOfAncestor(tree, b, r.nHeight, 0);
    } else {
      assert Path(tree, a)[0] != Path(tree, b)[0];
    }
  }

  /** Its loop: both walks go down in step until they meet, or both run out. */
  method StepTogether(a: BlockIndex, b: BlockIndex, startA: BlockIndex, startB: BlockIndex, ghost tree: set<BlockIndex>)
    returns (r: BlockIndex?)
    requires Links(tree) && a in tree && b in tree && startA.nHeight == startB.nHeight
    requires OnPath(Path(tree, a), startA) && OnPath(Path(tree, b), startB)
    ensures r != null ==> OnPath(Path(tree, a), r) && OnPath(Path(tree, b), r) && r.nHeight <= startA.nHeight
    ensures forall h :: HeightOf(r) < h <= startA.nHeight ==> Path(tree, a)[h] != Path(tree, b)[h]
  {
    hide Path, Links;
    ghost var pathA, pathB := Path(tree, a), Path(tree, b);
    var pa: BlockIndex?, pb: BlockIndex? := startA, startB;
    while pa != pb && pa != null && pb != null
      invariant HeightOf(pa) == HeightOf(pb) <= startA.nHeight && (pa == null <==> pb == null)
      invariant pa != null && pb != null ==> OnPath(pathA, pa) && OnPath(pathB, pb)
      invariant forall h :: HeightOf(pa) < h <= startA.nHeight ==> pathA[h] != pathB[h]
      decreases HeightOf(pa)
    {
      PathSteps(tree, a, pa.nHeight);
      PathSteps(tree, b, pb.nHeight);
      pa := pa.pprev;
      pb := pb.pprev;
    }
    assert pa == pb;
    return pa;
  }
}
