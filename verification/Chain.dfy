/** The block tree, its skip list and the active chain (`CBlockIndex`, `CChain`): fast ancestor
    and fork queries that agree with following `pprev`.
 */
module Chain {
  import opened SkipHeights

  /** A block index entry. `pprev` and `nHeight` are set once, when the entry is created. */
  class BlockIndex {
    const pprev: BlockIndex?
    const nHeight: nat
    var pskip: BlockIndex?

    constructor (pprev: BlockIndex?)
      ensures this.pprev == pprev && pskip == null
      ensures nHeight == if pprev == null then 0 else pprev.nHeight + 1
    {
      this.pprev := pprev;
      nHeight := if pprev == null then 0 else pprev.nHeight + 1;
      pskip := null;
    }

    /** Follow the skip list to the ancestor at `height`. When no skip pointer is missing, the number of
        steps depends only on the two heights, and `StepCountBound` bounds it. */
    method GetAncestor(height: int, ghost tree: set<BlockIndex>) returns (r: BlockIndex?, ghost steps: nat)
      requires this in tree && SkipTree(tree)
      ensures r == null <==> height < 0 || height > nHeight
      ensures r != null ==> r == Ancestor(this, height) && r.nHeight == height && r in tree
      ensures r != null && AllSkips(tree) ==> steps == StepCount(nHeight, height)
    {
      steps := 0;
      if height > nHeight || height < 0 { return null, 0; }
      var walk: BlockIndex := this;
      var heightWalk := nHeight;
      while heightWalk > height
        invariant height <= heightWalk == walk.nHeight <= nHeight
        invariant walk in tree && Ancestor(walk, height) == Ancestor(this, height)
        invariant Counted(steps, heightWalk, nHeight, height, tree)
      {
        ghost var from := walk;
        var heightSkip := GetSkipHeight(heightWalk);
        var heightSkipPrev := GetSkipHeight(heightWalk - 1);
        if walk.pskip != null && Follows(heightSkip, heightSkipPrev, height) {
          SkipLeads(walk, height, tree);
          walk := walk.pskip;
          heightWalk := heightSkip;
        } else {
          walk := walk.pprev;
          heightWalk := heightWalk - 1;
        }
        CountStep(from, heightSkip, heightSkipPrev, heightWalk, steps, nHeight, height, tree);
        steps := steps + 1;
      }
      CountEnd(steps, nHeight, height, tree);
      r := walk;
    }

    /** Set the skip pointer of a block that is being added to the tree. */
    method BuildSkip(ghost tree: set<BlockIndex>)
      requires SkipTree(tree) && this !in tree && pskip == null && Rooted(this) && (pprev == null || pprev in tree)
      modifies this`pskip
      ensures SkipTree(tree + {this})
      ensures pprev != null ==> pskip == Ancestor(this, GetSkipHeight(nHeight))
      ensures pprev == null ==> pskip == null
      ensures AllSkips(tree) ==> AllSkips(tree + {this})
    {
      if pprev != null {
        ghost var steps;
        pskip, steps := pprev.GetAncestor(GetSkipHeight(nHeight), tree);
      }
    }
  }

  /** Heights count the steps back to a block without predecessor. */
  ghost predicate Rooted(b: BlockIndex)
    decreases b.nHeight
  {
    if b.pprev == null then b.nHeight == 0
    else b.nHeight == b.pprev.nHeight + 1 && Rooted(b.pprev)
  }

  /** The reference: follow `pprev` until the height is reached. */
  ghost function Ancestor(b: BlockIndex, height: int): BlockIndex
    requires Rooted(b) && 0 <= height <= b.nHeight
    decreases b.nHeight
  {
    if height == b.nHeight then b else Ancestor(b.pprev, height)
  }

  /** Blocks closed under `pprev` whose skip pointers are unset or as `BuildSkip` sets them. */
  ghost predicate SkipTree(tree: set<BlockIndex>)
    reads tree
  {
    forall b :: b in tree ==>
      && Rooted(b) && (b.pprev == null || b.pprev in tree)
      && (b.pskip == null || b.pskip == Ancestor(b, GetSkipHeight(b.nHeight)))
  }

  /** Every block but the roots has its skip pointer. */
  ghost predicate AllSkips(tree: set<BlockIndex>)
    reads tree
  {
    forall b :: b in tree && b.pprev != null ==> b.pskip != null
  }

  lemma {:induction false} AncestorHeight(b: BlockIndex, h: nat)
    requires Rooted(b) && h <= b.nHeight
    ensures Ancestor(b, h).nHeight == h && Rooted(Ancestor(b, h))
    decreases b.nHeight
  {
    if h < b.nHeight { AncestorHeight(b.pprev, h); }
  }

  lemma {:induction false} AncestorOfAncestor(b: BlockIndex, g: nat, h: nat)
    requires Rooted(b) && h <= g <= b.nHeight
    ensures Ancestor(b, g).nHeight == g && Rooted(Ancestor(b, g))
    ensures Ancestor(Ancestor(b, g), h) == Ancestor(b, h)
    decreases b.nHeight
  {
    if g < b.nHeight { AncestorOfAncestor(b.pprev, g, h); }
  }

  lemma {:induction false} AncestorInTree(b: BlockIndex, h: nat, tree: set<BlockIndex>)
    requires b in tree && SkipTree(tree) && h <= b.nHeight
    ensures Ancestor(b, h) in tree
    decreases b.nHeight
  {
    if h < b.nHeight { AncestorInTree(b.pprev, h, tree); }
  }

  /** With any number of steps that a search for height h takes from w on, `steps` makes the number that
      it takes from `top` on. */
  ghost predicate Counted(steps: nat, w: nat, top: nat, h: nat, tree: set<BlockIndex>)
    reads tree
  {
    AllSkips(tree) ==> forall c: nat :: IsCount(c, w, h) ==> IsCount(steps + c, top, h)
  }

  lemma CountStep(b: BlockIndex, skip: nat, skipPrev: nat, next: nat, steps: nat, top: nat, h: nat, tree: set<BlockIndex>)
    requires b in tree && SkipTree(tree) && h < b.nHeight && Counted(steps, b.nHeight, top, h, tree)
    requires skip == GetSkipHeight(b.nHeight) && skipPrev == GetSkipHeight(b.nHeight - 1)
    requires next == if b.pskip != null && Follows(skip, skipPrev, h) then skip else b.nHeight - 1
    ensures Counted(steps + 1, next, top, h, tree)
  {
    if AllSkips(tree) {
      assert next == NextHeight(b.nHeight, h);
      forall c: nat | IsCount(c, next, h) ensures IsCount(steps + 1 + c, top, h) {
        OneMoreStep(c, b.nHeight, h);
        assert IsCount(steps + (c + 1), top, h);
      }
    }
  }

  lemma CountEnd(steps: nat, top: nat, h: nat, tree: set<BlockIndex>)
    requires Counted(steps, h, top, h, tree) && h <= top
    ensures AllSkips(tree) ==> steps == StepCount(top, h)
  {
    assert IsCount(0, h, h);
  }

  /** A skip pointer that is not below the searched height leads to a block with the same ancestor there. */
  lemma SkipLeads(b: BlockIndex, h: nat, tree: set<BlockIndex>)
    requires b in tree && SkipTree(tree) && b.pskip != null && h <= GetSkipHeight(b.nHeight)
    ensures b.pskip in tree && b.pskip.nHeight == GetSkipHeight(b.nHeight)
    ensures Ancestor(b, h) == Ancestor(b.pskip, h)
  {
    AncestorOfAncestor(b, GetSkipHeight(b.nHeight), h);
    AncestorInTree(b, GetSkipHeight(b.nHeight), tree);
  }

  /** Adding a block to a tree: `AddToBlockIndex` links it and calls `BuildSkip`. */
  method AddBlock(pprev: BlockIndex?, ghost tree: set<BlockIndex>) returns (b: BlockIndex)
    requires SkipTree(tree) && (pprev == null || pprev in tree)
    ensures fresh(b) && b.pprev == pprev && SkipTree(tree + {b})
    ensures pprev != null ==> b.pskip == Ancestor(b, GetSkipHeight(b.nHeight))
    ensures AllSkips(tree) ==> AllSkips(tree + {b})
  {
    b := new BlockIndex(pprev);
    b.BuildSkip(tree);
  }

  // ---------------------------------------------------------------------------------------
  // Common ancestors

  /** The reference for fork queries: the last common ancestor, or null for two blocks of
      different trees. */
  ghost function Lca(a: BlockIndex, b: BlockIndex): BlockIndex?
    requires Rooted(a) && Rooted(b)
    decreases a.nHeight + b.nHeight
  {
    if a == b then a
    else if a.nHeight > b.nHeight then Lca(a.pprev, b)
    else if b.nHeight > a.nHeight then Lca(a, b.pprev)
    else if a.pprev == null || b.pprev == null then null
    else Lca(a.pprev, b.pprev)
  }

  /** `Lca` is the highest block that is an ancestor of both. */
  lemma {:induction false} LcaHighest(a: BlockIndex, b: BlockIndex, h: nat)
    requires Rooted(a) && Rooted(b) && h <= a.nHeight && h <= b.nHeight
    ensures var r := Lca(a, b);
            Ancestor(a, h) == Ancestor(b, h) <==> r != null && h <= r.nHeight
    decreases a.nHeight + b.nHeight
  {
    if a == b {
    } else if a.nHeight > b.nHeight {
      LcaHighest(a.pprev, b, h);
    } else if b.nHeight > a.nHeight {
      LcaHighest(a, b.pprev, h);
    } else if h < a.nHeight {
      LcaHighest(a.pprev, b.pprev, h);
      LcaBelow(a.pprev, b.pprev);
    } else if a.pprev != null && b.pprev != null {
      LcaBelow(a.pprev, b.pprev);
    }
  }

  /** `Lca` is a common ancestor. */
  lemma {:induction false} LcaBelow(a: BlockIndex, b: BlockIndex)
    requires Rooted(a) && Rooted(b)
    ensures var r := Lca(a, b);
            r != null ==> r.nHeight <= a.nHeight && r.nHeight <= b.nHeight
                          && r == Ancestor(a, r.nHeight) && r == Ancestor(b, r.nHeight)
    decreases a.nHeight + b.nHeight
  {
    if a == b {
    } else if a.nHeight > b.nHeight {
      LcaBelow(a.pprev, b);
    } else if b.nHeight > a.nHeight {
      LcaBelow(a, b.pprev);
    } else if a.pprev != null && b.pprev != null {
      LcaBelow(a.pprev, b.pprev);
    }
  }

  /** Cutting one side down to an ancestor that is still above the fork changes nothing. */
  lemma {:induction false} LcaCut(a: BlockIndex, b: BlockIndex, h: nat)
    requires Rooted(a) && Rooted(b) && b.nHeight <= h <= a.nHeight
    ensures Rooted(Ancestor(a, h)) && Lca(Ancestor(a, h), b) == Lca(a, b)
    decreases a.nHeight
  {
    AncestorHeight(a, h);
    if h < a.nHeight { LcaCut(a.pprev, b, h); }
  }

  lemma {:induction false} LcaSymmetric(a: BlockIndex, b: BlockIndex)
    requires Rooted(a) && Rooted(b)
    ensures Lca(a, b) == Lca(b, a)
    decreases a.nHeight + b.nHeight
  {
    if a == b {
    } else if a.nHeight > b.nHeight {
      LcaSymmetric(a.pprev, b);
    } else if b.nHeight > a.nHeight {
      LcaSymmetric(a, b.pprev);
    } else if a.pprev != null && b.pprev != null {
      LcaSymmetric(a.pprev, b.pprev);
    }
  }

  /** `LastCommonAncestor`; its final assertion holds even for blocks of different trees. */
  method LastCommonAncestor(a: BlockIndex, b: BlockIndex, ghost tree: set<BlockIndex>) returns (r: BlockIndex?)
    requires a in tree && b in tree && SkipTree(tree)
    ensures r == Lca(a, b)
  {
    var pa: BlockIndex?, pb: BlockIndex? := a, b;
    ghost var steps;
    if a.nHeight > b.nHeight {
      LcaCut(a, b, b.nHeight);
      pa, steps := a.GetAncestor(b.nHeight, tree);
    } else if b.nHeight > a.nHeight {
      LcaSymmetric(a, b);
      LcaCut(b, a, a.nHeight);
      pb, steps := b.GetAncestor(a.nHeight, tree);
      LcaSymmetric(pb, a);
    }
    AncestorHeight(a, if b.nHeight < a.nHeight then b.nHeight else a.nHeight);
    AncestorHeight(b, if b.nHeight < a.nHeight then b.nHeight else a.nHeight);
    while pa != pb && pa != null && pb != null
      invariant (pa == null) == (pb == null)
      invariant pa != null ==> Rooted(pa) && Rooted(pb) && pa.nHeight == pb.nHeight && Lca(pa, pb) == Lca(a, b)
      invariant pa == null ==> Lca(a, b) == null
      decreases if pa == null then 0 else pa.nHeight + 1
    {
      pa, pb := pa.pprev, pb.pprev;
    }
    assert pa == pb;
    r := pa;
  }

  // ---------------------------------------------------------------------------------------
  // The active chain

  class CChain {
    var vChain: seq<BlockIndex?>

    /** The chain is the path to its last block. */
    ghost predicate Valid()
      reads this
    {
      vChain != [] ==> IsPathTo(vChain, vChain[|vChain| - 1])
    }

    constructor ()
      ensures vChain == []
    {
      vChain := [];
    }

    function Height(): int
      reads this
    {
      |vChain| - 1
    }

    function At(height: int): BlockIndex?
      reads this
    {
      if height < 0 || height >= |vChain| then null else vChain[height]
    }

    predicate Contains(b: BlockIndex)
      reads this
    {
      At(b.nHeight) == b
    }

    /** Write the path to `block`, stopping at the first block that is already in place. */
    method SetTip(block: BlockIndex)
      requires Valid() && Rooted(block)
      modifies this
      ensures Valid() && IsPathTo(vChain, block)
    {
      var pindex: BlockIndex? := block;
      var n := block.nHeight + 1;
      ghost var was := vChain;
      vChain := if n <= |vChain| then vChain[..n] else vChain + seq(n - |vChain|, _ => null);
      while pindex != null && vChain[pindex.nHeight] != pindex
        invariant |vChain| == n
        invariant pindex != null ==> Rooted(pindex) && pindex.nHeight < n && pindex == Ancestor(block, pindex.nHeight)
        invariant forall i :: (if pindex == null then 0 else pindex.nHeight + 1) <= i < n ==> vChain[i] == Ancestor(block, i)
        invariant pindex != null ==> forall i :: 0 <= i <= pindex.nHeight ==> vChain[i] == if i < |was| then was[i] else null
        decreases if pindex == null then 0 else pindex.nHeight + 1
      {
        vChain := vChain[pindex.nHeight := pindex];
        if pindex.pprev != null { AncestorOfAncestor(block, pindex.nHeight, pindex.nHeight - 1); }
        pindex := pindex.pprev;
      }
      if pindex != null {
        SharedPrefix(was, pindex, block);
      }
    }

    /** The last block of this chain that is an ancestor of `p`. */
    method FindFork(p: BlockIndex?, ghost tree: set<BlockIndex>) returns (r: BlockIndex?)
      requires Valid() && SkipTree(tree) && (p != null ==> p in tree)
      ensures p == null || vChain == [] ==> r == null
      ensures p != null && vChain != [] ==> r == Lca(vChain[|vChain| - 1], p)
    {
      if p == null { return null; }
      var pindex: BlockIndex? := p;
      if p.nHeight > Height() {
        ghost var steps;
        pindex, steps := p.GetAncestor(Height(), tree);
        if pindex != null { ForkCut(vChain[Height()], p); }
      }
      if vChain == [] { return pindex; }
      ghost var tip: BlockIndex := vChain[Height()];
      ghost var fork := Lca(tip, p);
      while pindex != null && !Contains(pindex)
        invariant pindex != null ==> pindex in tree && pindex.nHeight <= tip.nHeight && Lca(tip, pindex) == fork
        invariant pindex == null ==> fork == null
        decreases if pindex == null then 0 else pindex.nHeight + 1
      {
        NotContained(tip, pindex);
        pindex := pindex.pprev;
      }
      if pindex != null { LcaOfMember(tip, pindex); }
      r := pindex;
    }
  }

  ghost predicate IsPathTo(chain: seq<BlockIndex?>, tip: BlockIndex?) {
    && tip != null && Rooted(tip) && |chain| == tip.nHeight + 1
    && forall i :: 0 <= i < |chain| ==> chain[i] == Ancestor(tip, i)
  }

  /** Two paths that share a block share everything below it: the early stop of `SetTip` is safe. */
  lemma SharedPrefix(chain: seq<BlockIndex?>, p: BlockIndex, block: BlockIndex)
    requires chain != [] && IsPathTo(chain, chain[|chain| - 1])
    requires Rooted(block) && p.nHeight <= block.nHeight && p == Ancestor(block, p.nHeight)
    requires p.nHeight < |chain| && chain[p.nHeight] == p
    ensures forall i :: 0 <= i <= p.nHeight ==> chain[i] == Ancestor(block, i)
  {
    forall i: nat | i <= p.nHeight
      ensures chain[i] == Ancestor(block, i)
    {
      AncestorOfAncestor(chain[|chain| - 1], p.nHeight, i);
      AncestorOfAncestor(block, p.nHeight, i);
    }
  }

  lemma ForkCut(tip: BlockIndex, p: BlockIndex)
    requires Rooted(tip) && Rooted(p) && tip.nHeight <= p.nHeight
    ensures Rooted(Ancestor(p, tip.nHeight)) && Lca(tip, p) == Lca(tip, Ancestor(p, tip.nHeight))
  {
    LcaCut(p, tip, tip.nHeight);
    LcaSymmetric(tip, p);
    LcaSymmetric(tip, Ancestor(p, tip.nHeight));
  }

  lemma NotContained(tip: BlockIndex, p: BlockIndex)
    requires Rooted(tip) && Rooted(p) && p.nHeight <= tip.nHeight && Ancestor(tip, p.nHeight) != p
    ensures Lca(tip, p) == if p.pprev == null then null else Lca(tip, p.pprev)
  {
    LcaCut(tip, p, p.nHeight);
    AncestorHeight(tip, p.nHeight);
    if p.pprev != null {
      LcaCut(tip, p.pprev, p.nHeight - 1);
      AncestorOfAncestor(tip, p.nHeight, p.nHeight - 1);
    }
  }

  lemma LcaOfMember(tip: BlockIndex, p: BlockIndex)
    requires Rooted(tip) && Rooted(p) && p.nHeight <= tip.nHeight && Ancestor(tip, p.nHeight) == p
    ensures Lca(tip, p) == p
  {
    LcaCut(tip, p, p.nHeight);
  }
}
