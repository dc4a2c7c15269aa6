/**
 The caches of blocks that are not on the main chain: a pool by hash, and an index by parent. Both the
 orphans and the side blocks of `internal/p2p/node.go` are kept so.
 */
module BlockPools {
  import opened WireTypes
  import opened ChainCfg
  import opened Ledger
  import opened Runs
  import opened ParentIndex
  import opened Lists

  type Pool = map<Hash, MsgBlock>
  type Index = map<Hash, seq<Hash>>

  function Parents(pool: Pool): map<Hash, Hash> {
    map h | h in pool :: pool[h].header.prevBlock
  }

  ghost predicate Keyed(p: Params, pool: Pool) {
    forall h :: h in pool ==> pool[h].header.Hashable() && BlockHash(p, pool[h].header) == h
  }

  /** Every block stands under its own hash, and the index lists each under its parent. */
  ghost predicate PoolOk(p: Params, pool: Pool, index: Index, pending: set<Hash>) {
    Keyed(p, pool) && Indexed(Parents(pool), index, pending)
  }

  lemma ParentsOfLess(pool: Pool, h: Hash)
    ensures Parents(pool - {h}) == Parents(pool) - {h}
    ensures h in pool ==> h in Parents(pool) && Parents(pool)[h] == pool[h].header.prevBlock
    ensures |pool - {h}| == if h in pool then |pool| - 1 else |pool|
  {
    assert (pool - {h}).Keys == pool.Keys - {h};
  }

  lemma RemoveBlock(p: Params, pool: Pool, index: Index, pending: set<Hash>, h: Hash)
    requires PoolOk(p, pool, index, pending) && h in pool && h !in pending
    ensures PoolOk(p, pool - {h}, Delisted(index, pool[h].header.prevBlock, h), pending)
    ensures |pool - {h}| == |pool| - 1
  {
    ParentsOfLess(pool, h);
    hide Indexed, Delisted, Parents;
    RemoveKeepsIndexed(Parents(pool), index, pending, h);
  }

  lemma ParentsOfMore(pool: Pool, h: Hash, block: MsgBlock)
    requires h !in pool
    ensures Parents(pool[h := block]) == Parents(pool)[h := block.header.prevBlock] && h !in Parents(pool)
  {
  }

  lemma OneMore<K, V>(m: map<K, V>, k: K, v: V)
    requires k !in m
    ensures |m[k := v]| == |m| + 1
  {
    assert m[k := v].Keys == m.Keys + {k};
  }

  lemma AddBlockToPool(p: Params, pool: Pool, index: Index, pending: set<Hash>, h: Hash, block: MsgBlock)
    requires PoolOk(p, pool, index, pending) && h !in pool && h !in pending
    requires block.header.Hashable() && BlockHash(p, block.header) == h
    ensures PoolOk(p, pool[h := block], Listed(index, block.header.prevBlock, h), pending)
    ensures |pool[h := block]| == |pool| + 1
  {
    ParentsOfMore(pool, h, block);
    OneMore(pool, h, block);
    hide Indexed, Listed, Parents;
    AddKeepsIndexed(Parents(pool), index, pending, h, block.header.prevBlock);
  }

  lemma TakeChildren(p: Params, pool: Pool, index: Index, pending: set<Hash>, prev: Hash)
    requires PoolOk(p, pool, index, pending)
    ensures PoolOk(p, pool, index - {prev}, pending + Elements(Children(index, prev)))
  {
    hide Indexed;
    TakeKeepsIndexed(Parents(pool), index, pending, prev);
  }

  lemma DropPending(p: Params, pool: Pool, index: Index, pending: set<Hash>, h: Hash)
    requires PoolOk(p, pool, index, pending + {h})
    ensures PoolOk(p, pool - {h}, index, pending)
    ensures |pool - {h}| <= |pool| && (h in pool ==> |pool - {h}| < |pool|)
  {
    ParentsOfLess(pool, h);
    hide Indexed, Parents;
    DropKeepsIndexed(Parents(pool), index, pending, h);
  }

  // ---- side branches ----

  /** Block `i` of a branch is in the pool; the first one builds on the main chain, each other one on the one before. */
  ghost predicate BranchStep(p: Params, pool: Pool, main: seq<MsgBlock>, branch: seq<MsgBlock>, i: nat)
    requires i < |branch|
  {
    var hash := BlockHash(p, branch[i].header);
    && hash in pool
    && pool[hash] == branch[i]
    && (i == 0 <==> FindByHash(p, main, branch[i].header.prevBlock).Some?)
    && (i > 0 ==> branch[i].header.prevBlock == BlockHash(p, branch[i - 1].header))
  }

  /** A branch from the main chain to the block with hash `tip`. */
  ghost predicate IsBranch(p: Params, pool: Pool, main: seq<MsgBlock>, branch: seq<MsgBlock>, tip: Hash) {
    && branch != []
    && BlockHash(p, branch[|branch| - 1].header) == tip
    && forall i :: 0 <= i < |branch| ==> BranchStep(p, pool, main, branch, i)
  }

  /** A branch meets no block twice: the walk back from any block of it is one and the same. */
  lemma {:induction false} BranchDoesNotRepeat(p: Params, pool: Pool, main: seq<MsgBlock>, branch: seq<MsgBlock>,
        tip: Hash, i: nat, j: nat)
    requires IsBranch(p, pool, main, branch, tip) && i < j < |branch|
    ensures BlockHash(p, branch[i].header) != BlockHash(p, branch[j].header)
  {
    assert BranchStep(p, pool, main, branch, i) && BranchStep(p, pool, main, branch, j);
    if i > 0 {
      BranchDoesNotRepeat(p, pool, main, branch, tip, i - 1, j - 1);
    }
  }

  /** There is at most one branch to a tip. */
  lemma BranchIsUnique(p: Params, pool: Pool, main: seq<MsgBlock>, a: seq<MsgBlock>, b: seq<MsgBlock>, tip: Hash)
    requires IsBranch(p, pool, main, a, tip) && IsBranch(p, pool, main, b, tip)
    ensures a == b
  {
    SuffixesAgree(p, pool, main, a, b, tip, |a| - 1);
  }

  /** Of two branches to the same tip, the last `i + 1` blocks agree; neither can end before the other. */
  lemma {:induction false} SuffixesAgree(p: Params, pool: Pool, main: seq<MsgBlock>, a: seq<MsgBlock>,
        b: seq<MsgBlock>, tip: Hash, i: nat)
    requires IsBranch(p, pool, main, a, tip) && IsBranch(p, pool, main, b, tip) && i < |a|
    ensures i < |b| && a[|a| - 1 - i] == b[|b| - 1 - i]
    ensures i == |a| - 1 ==> |b| == |a| && a == b
  {
    hide FindByHash;
    if i > 0 {
      SuffixesAgree(p, pool, main, a, b, tip, i - 1);
      assert BranchStep(p, pool, main, a, |a| - i) && BranchStep(p, pool, main, b, |b| - i);
    }
    assert BranchStep(p, pool, main, a, |a| - 1 - i) && BranchStep(p, pool, main, b, |b| - 1 - i);
    if i == |a| - 1 {
      forall k | 0 <= k < |a|
        ensures a[k] == b[k]
      {
        if k > 0 {
          SuffixesAgree(p, pool, main, a, b, tip, |a| - 1 - k);
        }
      }
    }
  }

  /** No two of these headers share a hash. */
  ghost predicate NoCollisions(p: Params, known: set<BlockHeader>) {
    forall a, b :: a in known && b in known && BlockHash(p, a) == BlockHash(p, b) ==> a == b
  }

  /** One of these headers is the parent, and is one lower. */
  ghost predicate HasLowerParent(p: Params, known: set<BlockHeader>, h: BlockHeader) {
    exists a :: a in known && BlockHash(p, a) == h.prevBlock && a.height + 1 == h.height
  }

  /** The header of each pooled block is known, and so is a parent of it that is one lower. */
  ghost predicate HeightsDescend(p: Params, pool: Pool, known: set<BlockHeader>) {
    forall h :: h in pool ==> pool[h].header in known && HasLowerParent(p, known, pool[h].header)
  }

  ghost predicate AllKnown(known: set<BlockHeader>, blocks: seq<MsgBlock>) {
    forall i :: 0 <= i < |blocks| ==> blocks[i].header in known
  }

  lemma DescendOnMore(p: Params, pool: Pool, known: set<BlockHeader>, more: set<BlockHeader>)
    requires HeightsDescend(p, pool, known) && known <= more
    ensures HeightsDescend(p, pool, more)
  {
    forall h | h in pool
      ensures HasLowerParent(p, more, pool[h].header)
    {
      var a :| a in known && BlockHash(p, a) == pool[h].header.prevBlock && a.height + 1 == pool[h].header.height;
    }
  }

  lemma DescendOnLess(p: Params, pool: Pool, less: Pool, known: set<BlockHeader>)
    requires HeightsDescend(p, pool, known) && forall h :: h in less ==> h in pool && less[h] == pool[h]
    ensures HeightsDescend(p, less, known)
  {
    hide HasLowerParent;
  }

  /** Without collisions, whatever known header hashes to the parent is one lower. */
  lemma ParentHeight(p: Params, known: set<BlockHeader>, h: BlockHeader, a: BlockHeader)
    requires NoCollisions(p, known) && HasLowerParent(p, known, h)
    requires a in known && BlockHash(p, a) == h.prevBlock
    ensures a.height + 1 == h.height
  {
  }

  /** A branch starts one above its fork point and climbs one by one. */
  lemma {:induction false} BranchClimbs(p: Params, pool: Pool, main: seq<MsgBlock>, branch: seq<MsgBlock>, tip: Hash,
        known: set<BlockHeader>, i: nat)
    requires IsBranch(p, pool, main, branch, tip) && i < |branch|
    requires NoCollisions(p, known) && HeightsDescend(p, pool, known) && AllKnown(known, main)
    requires forall k :: 0 <= k < |main| ==> main[k].header.height == k
    ensures FindByHash(p, main, branch[0].header.prevBlock).Some?
    ensures branch[i].header.height == FindByHash(p, main, branch[0].header.prevBlock).value + 1 + i
  {
    hide HasLowerParent, NoCollisions, FindByHash;
    assert BranchStep(p, pool, main, branch, i) && BranchStep(p, pool, main, branch, 0);
    if i > 0 {
      BranchClimbs(p, pool, main, branch, tip, known, i - 1);
      assert BranchStep(p, pool, main, branch, i - 1);
      ParentHeight(p, known, branch[i].header, branch[i - 1].header);
    } else {
      var fork := FindByHash(p, main, branch[0].header.prevBlock).value;
      ParentHeight(p, known, branch[0].header, main[fork].header);
    }
  }

  /** Every block of the branch is one higher than the one before, the first than the fork point. */
  ghost predicate Climbs(p: Params, main: seq<MsgBlock>, branch: seq<MsgBlock>)
    requires branch != []
  {
    var fork := FindByHash(p, main, branch[0].header.prevBlock);
    fork.Some? && forall i :: 0 <= i < |branch| ==> branch[i].header.height == fork.value + 1 + i
  }

  lemma WholeBranchClimbs(p: Params, pool: Pool, main: seq<MsgBlock>, branch: seq<MsgBlock>, tip: Hash,
        known: set<BlockHeader>)
    requires IsBranch(p, pool, main, branch, tip)
    requires NoCollisions(p, known) && HeightsDescend(p, pool, known) && AllKnown(known, main)
    requires forall k :: 0 <= k < |main| ==> main[k].header.height == k
    ensures Climbs(p, main, branch)
  {
    hide HeightsDescend, NoCollisions, FindByHash;
    forall i | 0 <= i < |branch|
      ensures FindByHash(p, main, branch[0].header.prevBlock).Some?
      ensures branch[i].header.height == FindByHash(p, main, branch[0].header.prevBlock).value + 1 + i
    {
      BranchClimbs(p, pool, main, branch, tip, known, i);
    }
    assert branch[0].header.height == FindByHash(p, main, branch[0].header.prevBlock).value + 1 + 0;
  }

  /** The hashes of a list of blocks. */
  function Hashes(p: Params, blocks: seq<MsgBlock>): set<Hash> {
    set b | b in blocks :: BlockHash(p, b.header)
  }

  lemma HashesSnoc(p: Params, blocks: seq<MsgBlock>, i: nat)
    requires i < |blocks|
    ensures Hashes(p, blocks[..i + 1]) == Hashes(p, blocks[..i]) + {BlockHash(p, blocks[i].header)}
  {
    assert blocks[..i + 1] == blocks[..i] + [blocks[i]];
  }

  /** The next block of a branch is still in the pool after those before it have been removed. */
  lemma NextToPrune(p: Params, pool: Pool, main: seq<MsgBlock>, branch: seq<MsgBlock>, tip: Hash, i: nat)
    requires IsBranch(p, pool, main, branch, tip) && i < |branch|
    ensures
      var h := BlockHash(p, branch[i].header);
      h in pool && pool[h] == branch[i] && h !in Hashes(p, branch[..i])
  {
    hide IsBranch;
    BranchIsPooled(p, pool, main, branch, tip, i);
    forall k | 0 <= k < i
      ensures BlockHash(p, branch[k].header) != BlockHash(p, branch[i].header)
    {
      BranchDoesNotRepeat(p, pool, main, branch, tip, k, i);
    }
  }

  // ---- the walk back from a tip ----

  /** The hash that the walk looks up after `i` steps. */
  function WalkAt(rev: seq<MsgBlock>, tip: Hash, i: nat): Hash
    requires i <= |rev|
  {
    if i == 0 then tip else rev[i - 1].header.prevBlock
  }

  ghost predicate WalkStep(p: Params, pool: Pool, main: seq<MsgBlock>, rev: seq<MsgBlock>, tip: Hash, i: nat)
    requires i < |rev|
  {
    && WalkAt(rev, tip, i) in pool
    && pool[WalkAt(rev, tip, i)] == rev[i]
    && FindByHash(p, main, rev[i].header.prevBlock).None?
  }

  /** The blocks met so far, tip first; none of them builds on the main chain. */
  ghost predicate Walk(p: Params, pool: Pool, main: seq<MsgBlock>, rev: seq<MsgBlock>, tip: Hash) {
    forall i :: 0 <= i < |rev| ==> WalkStep(p, pool, main, rev, tip, i)
  }

  lemma WalkFurther(p: Params, pool: Pool, main: seq<MsgBlock>, rev: seq<MsgBlock>, tip: Hash, block: MsgBlock)
    requires Walk(p, pool, main, rev, tip)
    requires WalkAt(rev, tip, |rev|) in pool && pool[WalkAt(rev, tip, |rev|)] == block
    requires FindByHash(p, main, block.header.prevBlock).None?
    ensures Walk(p, pool, main, rev + [block], tip)
    ensures WalkAt(rev + [block], tip, |rev| + 1) == block.header.prevBlock
  {
    var more := rev + [block];
    forall i | 0 <= i < |more|
      ensures WalkStep(p, pool, main, more, tip, i)
    {
      assert WalkAt(more, tip, i) == WalkAt(rev, tip, i);
      if i < |rev| {
        assert WalkStep(p, pool, main, rev, tip, i);
      }
    }
  }

  /** Every branch to the tip goes through the blocks of the walk, and past them. */
  lemma {:induction false} BranchFollowsWalk(p: Params, pool: Pool, main: seq<MsgBlock>, rev: seq<MsgBlock>,
        tip: Hash, branch: seq<MsgBlock>, i: nat)
    requires Walk(p, pool, main, rev, tip) && IsBranch(p, pool, main, branch, tip) && i <= |rev|
    ensures i < |branch|
    ensures BlockHash(p, branch[|branch| - 1 - i].header) == WalkAt(rev, tip, i)
  {
    if i > 0 {
      BranchFollowsWalk(p, pool, main, rev, tip, branch, i - 1);
      var k := |branch| - i;
      assert BranchStep(p, pool, main, branch, k) && WalkStep(p, pool, main, rev, tip, i - 1);
    }
  }

  lemma BranchIsPooled(p: Params, pool: Pool, main: seq<MsgBlock>, branch: seq<MsgBlock>, tip: Hash, i: nat)
    requires IsBranch(p, pool, main, branch, tip) && i < |branch|
    ensures BlockHash(p, branch[i].header) in pool && pool[BlockHash(p, branch[i].header)] == branch[i]
  {
    assert BranchStep(p, pool, main, branch, i);
  }

  /** The walk ran off the pool: there is no branch. */
  lemma NoBranchWithoutBlock(p: Params, pool: Pool, main: seq<MsgBlock>, rev: seq<MsgBlock>, tip: Hash)
    requires Walk(p, pool, main, rev, tip) && WalkAt(rev, tip, |rev|) !in pool
    ensures !exists branch :: IsBranch(p, pool, main, branch, tip)
  {
    if branch :| IsBranch(p, pool, main, branch, tip) {
      BranchFollowsWalk(p, pool, main, rev, tip, branch, |rev|);
      BranchIsPooled(p, pool, main, branch, tip, |branch| - 1 - |rev|);
    }
  }

  /** The walk came back to where it had been: there is no branch either. */
  lemma NoBranchThroughCycle(p: Params, pool: Pool, main: seq<MsgBlock>, rev: seq<MsgBlock>, tip: Hash, i: nat)
    requires Walk(p, pool, main, rev, tip) && i < |rev| && WalkAt(rev, tip, |rev|) == WalkAt(rev, tip, i)
    ensures !exists branch :: IsBranch(p, pool, main, branch, tip)
  {
    hide IsBranch, Walk;
    if branch :| IsBranch(p, pool, main, branch, tip) {
      BranchFollowsWalk(p, pool, main, rev, tip, branch, |rev|);
      BranchFollowsWalk(p, pool, main, rev, tip, branch, i);
      BranchDoesNotRepeat(p, pool, main, branch, tip, |branch| - 1 - |rev|, |branch| - 1 - i);
    }
  }

  lemma {:induction false} WalkDescends(p: Params, pool: Pool, main: seq<MsgBlock>, rev: seq<MsgBlock>, tip: Hash,
        known: set<BlockHeader>, i: nat, j: nat)
    requires Walk(p, pool, main, rev, tip) && NoCollisions(p, known) && HeightsDescend(p, pool, known)
    requires Keyed(p, pool)
    requires i <= j < |rev|
    ensures rev[j].header.height + (j - i) == rev[i].header.height
    decreases j - i
  {
    hide HasLowerParent, NoCollisions, FindByHash;
    if i < j {
      WalkDescends(p, pool, main, rev, tip, known, i, j - 1);
      assert WalkStep(p, pool, main, rev, tip, j - 1) && WalkStep(p, pool, main, rev, tip, j);
      ParentHeight(p, known, rev[j - 1].header, rev[j].header);
    }
  }

  /** Without collisions heights descend along parents, and a walk cannot come back to where it was. */
  lemma NoCycle(p: Params, pool: Pool, main: seq<MsgBlock>, rev: seq<MsgBlock>, tip: Hash,
        known: set<BlockHeader>, i: nat)
    requires Walk(p, pool, main, rev, tip) && NoCollisions(p, known) && HeightsDescend(p, pool, known)
    requires Keyed(p, pool) && i < |rev|
    ensures WalkAt(rev, tip, |rev|) != WalkAt(rev, tip, i)
  {
    hide HasLowerParent, NoCollisions, FindByHash;
    var n := |rev|;
    WalkDescends(p, pool, main, rev, tip, known, i, n - 1);
    assert WalkStep(p, pool, main, rev, tip, i) && WalkStep(p, pool, main, rev, tip, n - 1);
    if WalkAt(rev, tip, n) == WalkAt(rev, tip, i) {
      ParentHeight(p, known, rev[n - 1].header, rev[i].header);
    }
  }

  /** A walk that reached a block on top of the main chain, turned around, is a branch. */
  lemma WalkIsBranch(p: Params, pool: Pool, main: seq<MsgBlock>, rev: seq<MsgBlock>, tip: Hash, last: MsgBlock)
    requires Keyed(p, pool) && Walk(p, pool, main, rev, tip)
    requires WalkAt(rev, tip, |rev|) in pool && pool[WalkAt(rev, tip, |rev|)] == last
    requires FindByHash(p, main, last.header.prevBlock).Some?
    ensures IsBranch(p, pool, main, Reversed(rev + [last]), tip)
  {
    hide FindByHash, Reversed, BranchStep, Keyed, Walk;
    var full := rev + [last];
    forall i | 0 <= i < |full|
      ensures BranchStep(p, pool, main, Reversed(full), i)
    {
      WalkStepTurned(p, pool, main, rev, tip, last, i);
    }
    ReversedIndex(full, |full| - 1);
    FullWalk(p, pool, main, rev, tip, last, 0);
  }

  lemma WalkStepTurned(p: Params, pool: Pool, main: seq<MsgBlock>, rev: seq<MsgBlock>, tip: Hash, last: MsgBlock,
        i: nat)
    requires Keyed(p, pool) && Walk(p, pool, main, rev, tip)
    requires WalkAt(rev, tip, |rev|) in pool && pool[WalkAt(rev, tip, |rev|)] == last
    requires FindByHash(p, main, last.header.prevBlock).Some?
    requires i <= |rev|
    ensures BranchStep(p, pool, main, Reversed(rev + [last]), i)
  {
    hide FindByHash, Reversed, Keyed, Walk;
    var full := rev + [last];
    var n := |full|;
    FullWalk(p, pool, main, rev, tip, last, n - 1 - i);
    ReversedIndex(full, i);
    if i > 0 {
      ReversedIndex(full, i - 1);
      FullWalk(p, pool, main, rev, tip, last, n - i);
    }
  }

  lemma FullWalk(p: Params, pool: Pool, main: seq<MsgBlock>, rev: seq<MsgBlock>, tip: Hash, last: MsgBlock, i: nat)
    requires Keyed(p, pool) && Walk(p, pool, main, rev, tip) && i <= |rev|
    requires WalkAt(rev, tip, |rev|) in pool && pool[WalkAt(rev, tip, |rev|)] == last
    ensures
      var full := rev + [last];
      && BlockHash(p, full[i].header) == WalkAt(full, tip, i)
      && WalkAt(full, tip, i) in pool
      && pool[WalkAt(full, tip, i)] == full[i]
      && (i < |rev| ==> FindByHash(p, main, full[i].header.prevBlock).None?)
  {
    hide FindByHash;
    var full := rev + [last];
    assert WalkAt(full, tip, i) == WalkAt(rev, tip, i);
    if i < |rev| {
      assert WalkStep(p, pool, main, rev, tip, i);
    }
  }
}
