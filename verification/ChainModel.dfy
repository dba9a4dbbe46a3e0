/** Block index entries as a tree, and ancestors in it. */
module ChainModel {
  import opened ChainHeights
  import ChainSteps
  import opened Powers

  class BlockIndex {
    const pprev: BlockIndex?
    const nHeight: nat
    const hash: nat
    /** The work in the chain up to and including this block. */
    const nChainWork: nat
    var pskip: BlockIndex?

    constructor (pprev: BlockIndex?, hash: nat, proof: nat)
      ensures this.pprev == pprev && this.hash == hash && pskip == null
      ensures nHeight == if pprev == null then 0 else pprev.nHeight + 1
      ensures nChainWork == (if pprev == null then 0 else pprev.nChainWork) + proof
    {
      this.pprev, this.hash, this.pskip := pprev, hash, null;
      this.nHeight := if pprev == null then 0 else pprev.nHeight + 1;
      this.nChainWork := (if pprev == null then 0 else pprev.nChainWork) + proof;
    }

    /**
     Follow pskip where that does not overshoot and pprev's pskip is no better; else follow pprev.
     Where all skip pointers are built, `steps` links are followed: fewer than the square of the
     number of bits of the height.
     */
    method GetAncestor(height: int, ghost blocks: set<BlockIndex>) returns (r: BlockIndex?, ghost steps: nat)
      requires this in blocks && Indexed(blocks)
      ensures r == if 0 <= height <= nHeight then Ancestor(this, height) else null
      ensures Built(blocks) ==> forall b: nat :: b >= 1 && nHeight < Pow(2, b) ==> steps <= WalkLimit(b)
    {
      hide And; hide GetSkipHeight; hide Pow; hide WalkLimit; hide Steps; hide TakesSkip; hide Ancestor;
      steps := 0;
      if height > nHeight || height < 0 {
        return null, 0;
      }
      forall b: nat | b >= 1 && nHeight < Pow(2, b) ensures Steps(nHeight, height) <= WalkLimit(b) {
        ChainSteps.WalkBound(b, nHeight, height);
      }
      var walk: BlockIndex := this;
      var heightWalk := nHeight;
      while heightWalk > height
        invariant walk in blocks && heightWalk == walk.nHeight >= height
        invariant Ancestor(walk, height) == Ancestor(this, height)
        invariant Built(blocks) ==> steps + Steps(heightWalk, height) == Steps(nHeight, height)
        decreases heightWalk
      {
        steps := steps + 1;
        ChainSteps.StepsNext(heightWalk, height);
        SkipTest(heightWalk, height);
        AncestorBack(walk, height);
        var heightSkip := GetSkipHeight(heightWalk);
        var heightSkipPrev := GetSkipHeight(heightWalk - 1);
        if walk.pskip != null
           && (heightSkip == height || (heightSkip > height && !(heightSkipPrev < heightSkip - 2 && heightSkipPrev >= height)))
        {
          AncestorIn(blocks, walk.pprev, heightSkip);
          AncestorChain(walk.pprev, heightSkip, height);
          walk := walk.pskip;
          heightWalk := heightSkip;
        } else {
          assert walk.pprev != null;
          walk := walk.pprev;
          heightWalk := heightWalk - 1;
        }
      }
      ChainSteps.NoStep(heightWalk, height);
      AncestorHere(walk);
      return walk, steps;
    }

    method BuildSkip(ghost blocks: set<BlockIndex>)
      requires this in blocks && Indexed(blocks)
      modifies this`pskip
      ensures Indexed(blocks)
      ensures pskip == if pprev == null then old(pskip) else Ancestor(this, GetSkipHeight(nHeight))
    {
      hide GetSkipHeight;
      if pprev != null {
        ghost var steps;
        pskip, steps := pprev.GetAncestor(GetSkipHeight(nHeight), blocks);
      }
    }
  }

  /** Heights count the links back to a genesis block. */
  ghost predicate Linked(b: BlockIndex)
    decreases b.nHeight
  {
    if b.pprev == null then b.nHeight == 0
    else b.nHeight == b.pprev.nHeight + 1 && Linked(b.pprev)
  }

  /** The block at a height, reached along pprev alone. */
  ghost function Ancestor(b: BlockIndex, height: nat): (r: BlockIndex)
    requires Linked(b) && height <= b.nHeight
    ensures Linked(r) && r.nHeight == height
    decreases b.nHeight
  {
    if height == b.nHeight then b else Ancestor(b.pprev, height)
  }

  lemma AncestorHere(b: BlockIndex)
    requires Linked(b)
    ensures Ancestor(b, b.nHeight) == b
  {
  }

  lemma AncestorBack(b: BlockIndex, height: nat)
    requires Linked(b) && height < b.nHeight
    ensures b.pprev != null && Linked(b.pprev) && b.pprev.nHeight == b.nHeight - 1
    ensures Ancestor(b.pprev, height) == Ancestor(b, height)
  {
  }

  lemma SkipTest(w: nat, t: nat)
    requires w > t
    ensures var s, p := GetSkipHeight(w), GetSkipHeight(w - 1);
            NextHeight(w, t) == if s == t || (s > t && !(p < s - 2 && p >= t)) then s else w - 1
  {
  }

  lemma {:induction false} AncestorChain(b: BlockIndex, mid: nat, height: nat)
    requires Linked(b) && height <= mid <= b.nHeight
    ensures Ancestor(Ancestor(b, mid), height) == Ancestor(b, height)
    decreases b.nHeight
  {
    if mid < b.nHeight {
      AncestorChain(b.pprev, mid, height);
    }
  }

  /** A set of entries closed under pprev, in which every pskip set leads where BuildSkip leads. */
  ghost predicate Indexed(blocks: set<BlockIndex>)
    reads blocks
  {
    forall b :: b in blocks ==>
      && Linked(b) && (b.pprev != null ==> b.pprev in blocks)
      && (b.pskip != null ==> b.pprev != null && b.pskip == Ancestor(b.pprev, GetSkipHeight(b.nHeight)))
  }

  /** No skip pointer is missing. */
  ghost predicate Built(blocks: set<BlockIndex>)
    reads blocks
  {
    forall b :: b in blocks && b.pprev != null ==> b.pskip != null
  }

  lemma {:induction false} AncestorIn(blocks: set<BlockIndex>, b: BlockIndex, height: nat)
    requires Indexed(blocks) && b in blocks && height <= b.nHeight
    ensures Ancestor(b, height) in blocks
    decreases b.nHeight
  {
    if height < b.nHeight {
      AncestorIn(blocks, b.pprev, height);
    }
  }

  /** All known headers, and the one with the most work behind it. */
  class BlockTree {
    var mapBlockIndex: map<nat, BlockIndex>
    var pindexBestHeader: BlockIndex?

    ghost predicate Valid()
      reads this, mapBlockIndex.Values
    {
      && Indexed(mapBlockIndex.Values) && Built(mapBlockIndex.Values)
      && (forall h :: h in mapBlockIndex ==> mapBlockIndex[h].hash == h)
      && (pindexBestHeader == null ==> mapBlockIndex == map[])
      && (pindexBestHeader != null ==>
            && pindexBestHeader in mapBlockIndex.Values
            && forall b :: b in mapBlockIndex.Values ==> b.nChainWork <= pindexBestHeader.nChainWork)
    }

    constructor ()
      ensures Valid() && mapBlockIndex == map[]
    {
      mapBlockIndex, pindexBestHeader := map[], null;
    }

    /** A known header is returned as it is; a new one joins the tree with its skip pointer built. */
    method AddToBlockIndex(hash: nat, hashPrevBlock: nat, proof: nat) returns (b: BlockIndex)
      requires Valid() && (hashPrevBlock == hash ==> hash in mapBlockIndex)
      modifies this
      ensures Valid() && hash in mapBlockIndex && mapBlockIndex[hash] == b && b.hash == hash
      ensures hash in old(mapBlockIndex) ==>
                mapBlockIndex == old(mapBlockIndex) && pindexBestHeader == old(pindexBestHeader)
      ensures hash !in old(mapBlockIndex) ==>
                && fresh(b) && mapBlockIndex == old(mapBlockIndex)[hash := b]
                && b.pprev == (if hashPrevBlock in mapBlockIndex then mapBlockIndex[hashPrevBlock] else null)
                && b.nChainWork == (if b.pprev == null then 0 else b.pprev.nChainWork) + proof
    {
      hide GetSkipHeight; hide Ancestor; hide Linked;
      if hash in mapBlockIndex {
        return mapBlockIndex[hash];
      }
      ghost var blocks := mapBlockIndex.Values;
      var prev: BlockIndex? := null;
      if hashPrevBlock in mapBlockIndex {
        prev := mapBlockIndex[hashPrevBlock];
        assert prev in blocks;
      }
      b := new BlockIndex(prev, hash, proof);
      NewLinked(b);
      mapBlockIndex := mapBlockIndex[hash := b];
      assert mapBlockIndex.Values == blocks + {b} by { ValuesGrow(old(mapBlockIndex), hash, b); }
      b.BuildSkip(mapBlockIndex.Values);
      if pindexBestHeader == null || pindexBestHeader.nChainWork < b.nChainWork {
        pindexBestHeader := b;
      }
    }
  }

  lemma NewLinked(b: BlockIndex)
    requires b.pprev == null ==> b.nHeight == 0
    requires b.pprev != null ==> b.nHeight == b.pprev.nHeight + 1 && Linked(b.pprev)
    ensures Linked(b)
  {
  }

  lemma ValuesGrow(m: map<nat, BlockIndex>, k: nat, v: BlockIndex)
    requires k !in m
    ensures m[k := v].Values == m.Values + {v}
  {
    var r := m[k := v];
    forall x | x in m.Values + {v} ensures x in r.Values {
      if x == v {
        assert r[k] == x;
      } else {
        var h :| h in m && m[h] == x;
        assert r[h] == x;
      }
    }
  }
}
