/** The active chain as an array of block index entries by height. */
module Chain {
  import opened Powers
  import opened ChainHeights
  import opened ChainModel

  class ActiveChain {
    var vChain: seq<BlockIndex?>

    /** Every block sits at its height and links to the one below. */
    ghost predicate Valid()
      reads this
    {
      forall i :: 0 <= i < |vChain| ==>
        vChain[i] != null && Linked(vChain[i]) && vChain[i].nHeight == i && (i > 0 ==> vChain[i].pprev == vChain[i - 1])
    }

    constructor ()
      ensures Valid() && vChain == []
    {
      vChain := [];
    }

    function Height(): int
      reads this
    {
      |vChain| - 1
    }

    function At(nHeight: int): BlockIndex?
      reads this
    {
      if nHeight < 0 || nHeight >= |vChain| then null else vChain[nHeight]
    }

    function Genesis(): BlockIndex?
      reads this
    {
      if |vChain| > 0 then vChain[0] else null
    }

    function Tip(): BlockIndex?
      reads this
    {
      if |vChain| > 0 then vChain[|vChain| - 1] else null
    }

    predicate Contains(b: BlockIndex)
      reads this
    {
      At(b.nHeight) == b
    }

    function Next(b: BlockIndex): BlockIndex?
      reads this
    {
      if Contains(b) then At(b.nHeight + 1) else null
    }

    /** Replace the chain; the walk back stops at the first block that is already in place. */
    method SetTip(tip: BlockIndex?)
      requires Valid() && (tip != null ==> Linked(tip))
      modifies this
      ensures Valid() && Tip() == tip
      ensures tip != null ==> Height() == tip.nHeight && forall i :: 0 <= i <= tip.nHeight ==> vChain[i] == Ancestor(tip, i)
    {
      if tip == null {
        vChain := [];
        return;
      }
      ghost var before := vChain;
      var n := tip.nHeight + 1;
      vChain := if n <= |vChain| then vChain[..n] else vChain + seq(n - |vChain|, _ => null);
      var pindex: BlockIndex? := tip;
      while pindex != null && vChain[pindex.nHeight] != pindex
        invariant |vChain| == n
        invariant pindex != null ==> Linked(pindex) && pindex.nHeight < n && Ancestor(tip, pindex.nHeight) == pindex
        invariant forall i :: 0 <= i < n && (pindex == null || pindex.nHeight < i) ==> vChain[i] == Ancestor(tip, i)
        invariant forall i :: 0 <= i < n && pindex != null && i <= pindex.nHeight ==>
            vChain[i] == if i < |before| then before[i] else null
        decreases if pindex == null then 0 else pindex.nHeight + 1
      {
        vChain := vChain[pindex.nHeight := pindex];
        AncestorStep(tip, pindex);
        pindex := pindex.pprev;
      }
      if pindex != null {
        PathBelow(before, pindex.nHeight);
        forall i | 0 <= i <= pindex.nHeight ensures vChain[i] == Ancestor(tip, i) {
          AncestorChain(tip, pindex.nHeight, i);
        }
      }
      AncestorPath(tip, vChain);
    }

    /** The highest block that `pindex` and this chain have in common. */
    method FindFork(pindex: BlockIndex?, ghost blocks: set<BlockIndex>) returns (r: BlockIndex?)
      requires Valid() && Indexed(blocks) && (pindex != null ==> pindex in blocks)
      ensures pindex == null ==> r == null
      ensures r != null ==> Contains(r) && r.nHeight <= pindex.nHeight && r == Ancestor(pindex, r.nHeight)
      ensures pindex != null ==>
          forall h :: 0 <= h <= pindex.nHeight && (r == null || r.nHeight < h) ==> !Contains(Ancestor(pindex, h))
    {
      hide Linked; hide Ancestor; hide Indexed;
      if pindex == null {
        return null;
      }
      IndexedLinked(blocks, pindex);
      SelfAncestor(pindex);
      r := pindex;
      if pindex.nHeight > Height() {
        ghost var steps;
        r, steps := pindex.GetAncestor(Height(), blocks);
      }
      while r != null && !Contains(r)
        invariant r != null ==> r.nHeight <= pindex.nHeight && r == Ancestor(pindex, r.nHeight) && Linked(r)
        invariant forall h :: 0 <= h <= pindex.nHeight && (r == null || r.nHeight < h) ==> !Contains(Ancestor(pindex, h))
        decreases if r == null then 0 else r.nHeight + 1
      {
        AncestorStep(pindex, r);
        r := r.pprev;
      }
    }

    /** An ancestor, by the array of the chain if the block is in it and by the skip list otherwise. */
    method StepBack(pindex: BlockIndex, nHeight: nat, ghost blocks: set<BlockIndex>) returns (r: BlockIndex)
      requires Valid() && Indexed(blocks) && pindex in blocks && nHeight <= pindex.nHeight
      ensures Linked(pindex) && r == Ancestor(pindex, nHeight)
    {
      hide Linked; hide Ancestor; hide Indexed;
      IndexedLinked(blocks, pindex);
      if Contains(pindex) {
        PathBelow(vChain, pindex.nHeight);
        r := At(nHeight);
      } else {
        var found; ghost var steps;
        found, steps := pindex.GetAncestor(nHeight, blocks);
        r := found;
      }
    }

    /**
     Hashes of ancestors at exactly the locator heights, down to the genesis block; without a block
     the tip is taken, and an empty chain gives an empty locator.
     */
    method GetLocator(block: BlockIndex?, ghost blocks: set<BlockIndex>) returns (vHave: seq<nat>)
      requires Valid() && Indexed(blocks) && (block != null ==> block in blocks)
      requires forall i :: 0 <= i < |vChain| ==> vChain[i] in blocks
      ensures block == null && vChain == [] ==> vHave == []
      ensures block != null || vChain != [] ==>
          var start: BlockIndex := if block != null then block else Tip();
          && Linked(start) && |vHave| > 0
          && (forall i :: 0 <= i < |vHave| ==> vHave[i] == Ancestor(start, LocatorHeight(start.nHeight, i)).hash)
          && (forall i :: 0 <= i < |vHave| ==> (LocatorHeight(start.nHeight, i) == 0 <==> i == |vHave| - 1))
    {
      hide Gap; hide Stride; hide LocatorHeight; hide Linked; hide Ancestor; hide Indexed;
      var nStep := 1;
      vHave := [];
      var pindex := block;
      if pindex == null {
        pindex := Tip();
      }
      if pindex == null {
        return;
      }
      ghost var start: BlockIndex := pindex;
      IndexedLinked(blocks, start);
      SelfAncestor(start);
      LocatorStart(start.nHeight);
      while true
        invariant pindex != null && pindex in blocks && Linked(start)
        invariant pindex == Ancestor(start, LocatorHeight(start.nHeight, |vHave|)) && nStep == Stride(|vHave| + 1)
        invariant forall i :: 0 <= i < |vHave| ==> vHave[i] == Ancestor(start, LocatorHeight(start.nHeight, i)).hash
        invariant forall i :: 0 <= i < |vHave| ==> LocatorHeight(start.nHeight, i) > 0
        decreases pindex.nHeight
      {
        vHave := vHave + [pindex.hash];
        if pindex.nHeight == 0 {
          break;
        }
        LocatorNext(start.nHeight, |vHave|);
        var nHeight := if pindex.nHeight - nStep > 0 then pindex.nHeight - nStep else 0;
        AncestorChain(start, pindex.nHeight, nHeight);
        AncestorIn(blocks, pindex, nHeight);
        pindex := StepBack(pindex, nHeight, blocks);
        if |vHave| > 10 {
          nStep := nStep * 2;
        }
      }
    }
  }

  lemma LocatorStart(top: nat)
    ensures LocatorHeight(top, 0) == top && Stride(1) == 1
  {
  }

  lemma LocatorNext(top: nat, n: nat)
    requires n >= 1
    ensures Stride(n + 1) == (if n > 10 then Stride(n) * 2 else Stride(n)) && Stride(n) >= 1
    ensures LocatorHeight(top, n) ==
            if LocatorHeight(top, n - 1) - Stride(n) > 0 then LocatorHeight(top, n - 1) - Stride(n) else 0
  {
    GapStep(n);
    if n == 11 {
      assert Pow(2, 1) == 2;
    }
  }

  /** Next on an ancestor path is pprev read backwards. */
  lemma AncestorStep(tip: BlockIndex, b: BlockIndex)
    requires Linked(tip) && b.nHeight <= tip.nHeight && Ancestor(tip, b.nHeight) == b
    ensures b.pprev == null ==> b.nHeight == 0
    ensures b.pprev != null ==>
      Linked(b.pprev) && b.pprev.nHeight == b.nHeight - 1 && Ancestor(tip, b.nHeight - 1) == b.pprev
  {
    if b.pprev != null {
      AncestorChain(tip, b.nHeight, b.nHeight - 1);
    }
  }

  lemma IndexedLinked(blocks: set<BlockIndex>, b: BlockIndex)
    requires Indexed(blocks) && b in blocks
    ensures Linked(b)
  {
  }

  lemma SelfAncestor(b: BlockIndex)
    requires Linked(b)
    ensures Ancestor(b, b.nHeight) == b
  {
  }

  /** A sequence of linked blocks holds the ancestors of each of its blocks. */
  lemma {:induction false} PathBelow(path: seq<BlockIndex?>, top: nat)
    requires top < |path|
    requires forall i :: 0 <= i < |path| ==>
      path[i] != null && Linked(path[i]) && path[i].nHeight == i && (i > 0 ==> path[i].pprev == path[i - 1])
    ensures forall i :: 0 <= i <= top ==> path[i] == Ancestor(path[top], i)
  {
    if top > 0 {
      PathBelow(path, top - 1);
    }
  }

  lemma AncestorPath(tip: BlockIndex, path: seq<BlockIndex?>)
    requires Linked(tip) && |path| == tip.nHeight + 1 && forall i :: 0 <= i < |path| ==> path[i] == Ancestor(tip, i)
    ensures forall i :: 0 <= i < |path| ==>
      path[i] != null && Linked(path[i]) && path[i].nHeight == i && (i > 0 ==> path[i].pprev == path[i - 1])
    ensures path[tip.nHeight] == tip
  {
    forall i | 0 < i < |path| ensures path[i].pprev == path[i - 1] {
      AncestorStep(tip, Ancestor(tip, i));
    }
  }

  /** A locator is logarithmic in the height of its block: 2^(length - 12) <= height - 10. */
  lemma LocatorLength(top: nat, n: nat)
    requires n > 0 && forall i :: 0 <= i < n ==> (LocatorHeight(top, i) == 0 <==> i == n - 1)
    ensures n <= top + 1 && (n >= 12 ==> top >= 10 && Pow(2, n - 12) <= top - 10)
  {
    if n >= 2 {
      assert LocatorHeight(top, n - 2) > 0;
      if n >= 3 { GapAtLeast(n - 2); }
      if n == 12 {
        assert Pow(2, 0) == 1;
      }
    }
  }

  lemma {:induction false} GapAtLeast(i: nat)
    ensures Gap(i) >= i
  {
    if i > 0 {
      GapAtLeast(i - 1);
      GapStep(i);
    }
  }

  /** Its heights strictly descend. */
  lemma LocatorDescends(top: nat, n: nat, i: nat)
    requires forall k :: 0 <= k < n ==> (LocatorHeight(top, k) == 0 <==> k == n - 1)
    requires i + 1 < n
    ensures LocatorHeight(top, i + 1) < LocatorHeight(top, i)
  {
    assert LocatorHeight(top, i) > 0;
    GapMono(i, i + 1);
  }

  /** The distance between neighbours: one for the first ten, then doubling, until genesis ends the list. */
  lemma LocatorGaps(top: nat, i: nat)
    requires LocatorHeight(top, i + 1) > 0
    ensures LocatorHeight(top, i) - LocatorHeight(top, i + 1) == if i <= 10 then 1 else Pow(2, i - 10)
    ensures LocatorHeight(top, 0) == top
  {
    GapStep(i + 1);
  }

  /**
   What a locator is for: wherever a peer's chain forks off, the first entry the peer knows lies below
   the fork by no more than the fork lies below the top.
   */
  lemma LocatorNear(top: nat, fork: nat) returns (i: nat)
    requires fork <= top
    ensures LocatorHeight(top, i) <= fork && fork - LocatorHeight(top, i) <= top - fork
    ensures forall k :: 0 <= k < i ==> LocatorHeight(top, k) > fork
  {
    hide Pow;
    i := 0;
    LocatorStart(top);
    while LocatorHeight(top, i) > fork
      invariant forall k :: 0 <= k < i ==> LocatorHeight(top, k) > fork
      decreases LocatorHeight(top, i)
    {
      GapStep(i + 1);
      i := i + 1;
    }
    if i > 0 {
      assert LocatorHeight(top, i - 1) > fork;
      GapStep(i);
      StrideBelowGap(i);
    }
  }

  lemma StrideBelowGap(i: nat)
    requires i >= 1
    ensures Stride(i) <= Gap(i - 1) + 1
  {
  }
}
