/**
 The block half of `internal/p2p/node.go`: what a node does with a block that a peer sends. The clock and
 the sender's best height are parameters; every locked section is one step.
 */
module Node {
  import opened Ints
  import opened WireTypes
  import opened ChainCfg
  import opened Ledger
  import opened ChainFacts
  import opened Runs
  import opened Blockchain
  import opened StoreFormat
  import opened BlockStore
  import opened ParentIndex
  import opened BlockPools
  import opened Lists
  import BlockTime
  import Merkle

  const MAX_ORPHANS := 128
  const MAX_ORPHAN_HEIGHT_GAP := 288

  /** A block that is parked until its parent arrives must look right on its own. */
  predicate OrphanCandidate(p: Params, tip: BlockHeader, block: MsgBlock, now: int) {
    && block.transactions != []
    && block.header.height > tip.height
    && block.header.height <= Wrap32(tip.height + MAX_ORPHAN_HEIGHT_GAP)
    && BlockTime.CheckBlockTimestamp(p, tip.timestamp, block.header.timestamp, now)
    && block.header.merkleRoot == Merkle.MerkleRoot(p.crypto, block.transactions)
    && CheckProofOfWork(p, block.header) == None
  }

  /** A side block must fit the block it builds on, which is on the main chain or in the side pool. */
  predicate SideCandidate(p: Params, tip: BlockHeader, prev: Option<MsgBlock>, block: MsgBlock, now: int)
    requires p.WellFormed()
    requires prev.Some? ==> prev.value.header.Hashable()
  {
    && block.transactions != []
    && block.header.height != 0
    && BlockTime.MiningOpen(p, now)
    && block.header.height <= Wrap32(tip.height + MAX_ORPHAN_HEIGHT_GAP)
    && prev.Some?
    && block.header.height == Wrap32(prev.value.header.height + 1)
    && BlockTime.CheckBlockTimestamp(p, prev.value.header.timestamp, block.header.timestamp, now)
    && block.header.bits == ExpectedBits(p, prev.value.header.timestamp, block.header.height)
    && block.header.merkleRoot == Merkle.MerkleRoot(p.crypto, block.transactions)
    && CheckProofOfWork(p, block.header) == None
  }

  datatype NodeError = BadOrphan | Rule(error: RuleError) | ReorgFailed(reason: ReorgError) | StoreFailed

  /** What a node does with a block, by where the block's parent is. */
  datatype Route = Known | Extends | Beside | Ahead

  /** The block with this hash, on the main chain or beside it. */
  function PrevOf(p: Params, s: State, sideBlocks: Pool, hash: Hash): Option<MsgBlock> {
    match FindByHash(p, s.blocks, hash)
    case Some(i) => Some(s.blocks[i])
    case None => if hash in sideBlocks then Some(sideBlocks[hash]) else None
  }

  function RouteOf(p: Params, s: State, sideBlocks: Pool, block: MsgBlock): Route
    requires s.blocks != []
  {
    var h := block.header;
    var height := |s.blocks| - 1;
    if h.height <= height then
      if BlockHash(p, s.blocks[h.height].header) == BlockHash(p, h) then Known else Beside
    else if h.prevBlock == BlockHash(p, Tip(s).header) && h.height == Wrap32(height + 1) then Extends
    else if PrevOf(p, s, sideBlocks, h.prevBlock).Some? then Beside
    else Ahead
  }

  /** A sender that claims a greater height is taken to send history, where the clock does not count. */
  predicate Historical(s: State, block: MsgBlock, peerBest: Option<uint32>) {
    peerBest.Some? && peerBest.value > |s.blocks| - 1 && block.header.height <= peerBest.value
  }

  /** The kept part of the old chain, what was taken off it (tip first), and what was put on. */
  ghost predicate Delta(before: seq<MsgBlock>, after: seq<MsgBlock>, disconnected: seq<MsgBlock>,
        connected: seq<MsgBlock>) {
    exists n: nat :: n <= |before| && DeltaAt(before, after, disconnected, connected, n)
  }

  ghost predicate DeltaAt(before: seq<MsgBlock>, after: seq<MsgBlock>, disconnected: seq<MsgBlock>,
        connected: seq<MsgBlock>, n: nat)
    requires n <= |before|
  {
    before == before[..n] + Reversed(disconnected) && after == before[..n] + connected
  }

  lemma ExtensionDelta(before: seq<MsgBlock>, connected: seq<MsgBlock>)
    ensures Delta(before, before + connected, [], connected)
  {
    assert before[..|before|] == before;
    assert before + Reversed<MsgBlock>([]) == before;
    assert DeltaAt(before, before + connected, [], connected, |before|);
  }

  ghost predicate SubPool(a: Pool, b: Pool) {
    forall h :: h in a ==> h in b && a[h] == b[h]
  }

  /** Every block of the list stood in the pool. */
  ghost predicate TakenFrom(p: Params, blocks: seq<MsgBlock>, pool: Pool) {
    forall i :: 0 <= i < |blocks| ==>
      BlockHash(p, blocks[i].header) in pool && pool[BlockHash(p, blocks[i].header)] == blocks[i]
  }

  lemma SubPoolTransitive(a: Pool, b: Pool, c: Pool)
    requires SubPool(a, b) && SubPool(b, c)
    ensures SubPool(a, c)
  {
  }

  lemma TakenAppend(p: Params, a: seq<MsgBlock>, b: seq<MsgBlock>, inner: Pool, pool: Pool)
    requires TakenFrom(p, a, pool) && TakenFrom(p, b, inner) && SubPool(inner, pool)
    ensures TakenFrom(p, a + b, pool)
  {
  }

  function Headers(blocks: seq<MsgBlock>): set<BlockHeader> {
    set b | b in blocks :: b.header
  }

  /** What is cached, the chain, and the headers known at one moment. */
  datatype Moment = Moment(blocks: seq<MsgBlock>, orphans: Pool, index: Index, known: set<BlockHeader>)

  /** The chain grew by `connected`, all taken from the orphans, and no orphan and no index entry was added. */
  ghost predicate Progress(p: Params, before: Moment, after: Moment, connected: seq<MsgBlock>) {
    && after.blocks == before.blocks + connected
    && TakenFrom(p, connected, before.orphans)
    && SubPool(after.orphans, before.orphans)
    && after.index.Keys <= before.index.Keys
    && after.known == before.known + Headers(connected)
  }

  lemma NoProgressYet(p: Params, m: Moment)
    ensures Progress(p, m, m, [])
  {
  }

  lemma ProgressFurther(p: Params, a: Moment, b: Moment, c: Moment, first: seq<MsgBlock>, more: seq<MsgBlock>)
    requires Progress(p, a, b, first) && Progress(p, b, c, more)
    ensures Progress(p, a, c, first + more)
  {
    TakenAppend(p, first, more, b.orphans, a.orphans);
    SubPoolTransitive(c.orphans, b.orphans, a.orphans);
    assert a.blocks + first + more == a.blocks + (first + more);
    hide TakenFrom, SubPool;
  }

  /** One orphan leaves the cache and becomes the tip. */
  lemma OneConnected(p: Params, before: Moment, after: Moment, h: Hash)
    requires h in before.orphans && BlockHash(p, before.orphans[h].header) == h
    requires after == Moment(before.blocks + [before.orphans[h]], before.orphans - {h}, before.index,
                        before.known + {before.orphans[h].header})
    ensures Progress(p, before, after, [before.orphans[h]])
  {
  }

  lemma OneDropped(p: Params, before: Moment, after: Moment, h: Hash)
    requires after == Moment(before.blocks, before.orphans - {h}, before.index, before.known)
    ensures Progress(p, before, after, [])
  {
  }

  lemma ChildrenTaken(p: Params, before: Moment, after: Moment, parent: Hash)
    requires after == Moment(before.blocks, before.orphans, before.index - {parent}, before.known)
    ensures Progress(p, before, after, [])
  {
  }

  lemma NotListedAgain(p: Params, before: Moment, after: Moment, connected: seq<MsgBlock>, parent: Hash)
    requires Progress(p, before, after, connected) && parent !in before.index
    ensures parent !in after.index
  {
  }

  /** A branch to the tip that the chain would switch to. */
  ghost predicate WinningBranchTo(p: Params, s: State, pool: Pool, tip: Hash, now: int)
    requires p.WellFormed() && Good(p, s)
  {
    exists b :: IsBranch(p, pool, s.blocks, b, tip) && Reorganized(p, s, b, now).Switched?
  }

  /**
   The chain switched to the one branch that leads to the tip, and the side pool forgot that branch and
   nothing else.
   */
  ghost predicate SwitchDone(p: Params, before: State, pool: Pool, after: State, left: Pool, tip: Hash,
      branch: seq<MsgBlock>, disconnected: seq<MsgBlock>, now: int)
    requires p.WellFormed() && Good(p, before)
  {
    && IsBranch(p, pool, before.blocks, branch, tip)
    && Reorganized(p, before, branch, now) == Switched(after)
    && Delta(before.blocks, after.blocks, disconnected, branch)
    && |after.blocks| > |before.blocks|
    && left == pool - Hashes(p, branch)
  }

  predicate Higher(s: State, branch: seq<MsgBlock>) {
    branch != [] && branch[|branch| - 1].header.height > |s.blocks| - 1
  }

  /** Why there is no switch: no branch leads higher, or the chain refuses it, or it wins and the store failed. */
  ghost predicate NotSwitched(p: Params, s: State, pool: Pool, tip: Hash, error: Option<NodeError>, now: int)
    requires p.WellFormed() && Good(p, s)
  {
    match error
    case None => !exists b :: IsBranch(p, pool, s.blocks, b, tip) && Higher(s, b)
    case Some(ReorgFailed(reason)) =>
      exists b :: IsBranch(p, pool, s.blocks, b, tip) && Higher(s, b) && Reorganized(p, s, b, now) == Failed(reason)
    case Some(StoreFailed) => WinningBranchTo(p, s, pool, tip, now)
    case Some(_) => false
  }

  predicate FitsBeside(p: Params, s: State, pool: Pool, block: MsgBlock, now: int)
    requires p.WellFormed() && s.blocks != []
  {
    var prev := PrevOf(p, s, pool, block.header.prevBlock);
    (prev.Some? ==> prev.value.header.Hashable()) && SideCandidate(p, Tip(s).header, prev, block, now)
  }

  function WithBlock(p: Params, pool: Pool, block: MsgBlock): Pool {
    var h := BlockHash(p, block.header);
    if h in pool then pool else pool[h := block]
  }

  /** A block beside the chain is ignored, or cached, or cached and then switched to. */
  ghost predicate SideOutcome(p: Params, before: State, pool: Pool, block: MsgBlock, now: int,
      connected: bool, branch: seq<MsgBlock>, disconnected: seq<MsgBlock>, error: Option<NodeError>, after: State,
        left: Pool)
    requires p.WellFormed() && Good(p, before) && before.blocks != []
  {
    if !FitsBeside(p, before, pool, block, now) then
      !connected && branch == [] && disconnected == [] && error == None && after == before && left == pool
    else if connected then
      error == None &&
        SwitchDone(p, before, WithBlock(p, pool, block), after, left, BlockHash(p, block.header), branch, disconnected,
          now)
    else
      && branch == [] && disconnected == [] && after == before && left == WithBlock(p, pool, block)
      && NotSwitched(p, before, WithBlock(p, pool, block), BlockHash(p, block.header), error, now)
  }

  function Extended(m: Moment, block: MsgBlock): Moment {
    m.(blocks := m.blocks + [block], known := m.known + {block.header})
  }

  /** A block on top of the tip is refused with the rule it breaks, or connected with the orphans that it releases. */
  ghost predicate ExtendOutcome(p: Params, before: Moment, s: State, block: MsgBlock, enforce: bool, now: int,
      connected: bool, added: seq<MsgBlock>, disconnected: seq<MsgBlock>, error: Option<NodeError>, after: Moment)
    requires p.WellFormed() && s.blocks != [] && Tip(s).header.Hashable()
  {
    match ValidateBlock(p, Tip(s).header, s.utxos, block, now, enforce)
    case Err(e) => !connected && error == Some(Rule(e)) && after == before
    case Ok(_) =>
      if connected then
        && error == None && disconnected == []
        && added != [] && added[0] == block
        && Progress(p, Extended(before, block), after, added[1..])
      else
        error == Some(StoreFailed) && after == before
  }

  lemma SideDelta(p: Params, before: State, pool: Pool, block: MsgBlock, now: int,
      connected: bool, branch: seq<MsgBlock>, disconnected: seq<MsgBlock>, error: Option<NodeError>, after: State,
        left: Pool)
    requires p.WellFormed() && Good(p, before) && before.blocks != []
    requires SideOutcome(p, before, pool, block, now, connected, branch, disconnected, error, after, left)
    ensures connected ==>
      error == None && Delta(before.blocks, after.blocks, disconnected, branch) && |after.blocks| > |before.blocks|
    ensures !connected ==> after == before && branch == [] && disconnected == []
  {
    hide Params.WellFormed, Good, Delta, IsBranch, Reorganized, Hashes, NotSwitched;
  }

  lemma CandidateHeight(p: Params, s: State, pool: Pool, block: MsgBlock, now: int)
    requires p.WellFormed() && s.blocks != [] && Keyed(p, pool)
    requires FitsBeside(p, s, pool, block, now)
    ensures
      var prev := PrevOf(p, s, pool, block.header.prevBlock);
      && prev.Some?
      && prev.value.header.Hashable()
      && BlockHash(p, prev.value.header) == block.header.prevBlock
      && block.header.height == prev.value.header.height + 1
  {
    hide Params.WellFormed, FindByHash, ExpectedBits, CheckProofOfWork, BlockTime.CheckBlockTimestamp,
      Merkle.MerkleRoot;
  }

  /** A block that fits beside the chain has a known parent that is one lower. */
  lemma CandidateDescends(p: Params, s: State, pool: Pool, known: set<BlockHeader>, block: MsgBlock, now: int)
    requires p.WellFormed() && s.blocks != [] && Keyed(p, pool)
    requires AllKnown(known, s.blocks) && HeightsDescend(p, pool, known)
    requires FitsBeside(p, s, pool, block, now)
    ensures HeightsDescend(p, WithBlock(p, pool, block), known + {block.header})
  {
    hide Params.WellFormed, FitsBeside, FindByHash, HasLowerParent;
    CandidateHeight(p, s, pool, block, now);
    var more := known + {block.header};
    var parent := PrevOf(p, s, pool, block.header.prevBlock).value.header;
    assert parent in more;
    assert HasLowerParent(p, more, block.header) by {
      IsLowerParent(p, more, parent, block.header);
    }
    DescendOnMore(p, pool, known, more);
  }

  lemma IsLowerParent(p: Params, known: set<BlockHeader>, a: BlockHeader, h: BlockHeader)
    requires a in known && BlockHash(p, a) == h.prevBlock && a.height + 1 == h.height
    ensures HasLowerParent(p, known, h)
  {
  }

  /** After a switch every block of the chain is one that was known before. */
  lemma KnownAfterSwitch(p: Params, before: State, pool: Pool, known: set<BlockHeader>, tip: Hash,
        branch: seq<MsgBlock>, now: int)
    requires p.WellFormed() && Good(p, before) && Reorganized(p, before, branch, now).Switched?
    requires IsBranch(p, pool, before.blocks, branch, tip)
    requires AllKnown(known, before.blocks) && HeightsDescend(p, pool, known)
    ensures AllKnown(known, Reorganized(p, before, branch, now).state.blocks)
  {
    hide Params.WellFormed, Good, Reorganized, FindByHash, IsBranch, HasLowerParent;
    SwitchReplacesTheTail(p, before, branch, now);
    forall i | 0 <= i < |branch|
      ensures branch[i].header in known
    {
      BranchIsPooled(p, pool, before.blocks, branch, tip, i);
    }
  }

  /**
   A node that stops while it switches finds one whole chain when it starts again. Until the new file has been
   renamed into place the old one loads to the chain before the switch; from then on, although the chain in
   memory is replaced only after that, the file loads to the chain and ledger that the switch leads to.
   */
  lemma CrashDuringSwitch(p: Params, c: LineCodec, s: State, branch: seq<MsgBlock>, now: int, later: int)
    requires p.WellFormed() && Good(p, s) && Reorganized(p, s, branch, now).Switched? && now <= later
    requires Faithful(c) && AllFit(s.blocks) && AllFit(branch)
    ensures s.blocks != []
    ensures ScanFile(p, c, FileOf(p, c, s.blocks[1..]), later) == Scan(s, |s.blocks| - 1)
    ensures
      var t := Reorganized(p, s, branch, now).state;
      t.blocks != [] && ScanFile(p, c, FileOf(p, c, Stored(t.blocks)), later) == Scan(t, |t.blocks| - 1)
  {
    hide Params.WellFormed, Good, Reorganized, FindByHash, Faithful, FileOf, ScanFile, Linked, Replaces,
      Stored, Lines;
    var t := Reorganized(p, s, branch, now).state;
    SwitchIsOpen(p, s, branch, now);
    SwitchReplacesTheTail(p, s, branch, now);
    GoodTip(p, t);
    StoredOfChain(p, t.blocks);
    LoadRestores(p, c, s, later);
    LoadRestores(p, c, t, later);
  }

  lemma SwitchIsOpen(p: Params, s: State, branch: seq<MsgBlock>, now: int)
    requires p.WellFormed() && Good(p, s) && Reorganized(p, s, branch, now).Switched?
    ensures forall later :: now <= later ==> BlockTime.MiningOpen(p, later)
  {
    hide Params.WellFormed, Good, Reorganized, FindByHash, AddAll, InTime;
    SwitchesExactlyWhen(p, s, branch, now);
    var fork := FindByHash(p, s.blocks, branch[0].header.prevBlock).value;
    StorableMeansOpen(p, PrefixState(p, s, fork + 1), branch, now, false);
  }

  lemma SwitchDelta(p: Params, s: State, branch: seq<MsgBlock>, now: int)
    requires p.WellFormed() && Good(p, s) && Reorganized(p, s, branch, now).Switched?
    ensures branch != []
    ensures
      var fork := FindByHash(p, s.blocks, branch[0].header.prevBlock);
      fork.Some? && Delta(s.blocks, Reorganized(p, s, branch, now).state.blocks, Reversed(s.blocks[fork.value + 1..]),
        branch)
    ensures |Reorganized(p, s, branch, now).state.blocks| > |s.blocks|
  {
    hide Params.WellFormed, Good, Reorganized, FindByHash, Reversed;
    SwitchReplacesTheTail(p, s, branch, now);
    var fork := FindByHash(p, s.blocks, branch[0].header.prevBlock).value;
    ReversedTwice(s.blocks[fork + 1..]);
    assert s.blocks[..fork + 1] + s.blocks[fork + 1..] == s.blocks;
    assert DeltaAt(s.blocks, Reorganized(p, s, branch, now).state.blocks, Reversed(s.blocks[fork + 1..]), branch,
      fork + 1);
  }

  lemma SwitchedDone(p: Params, before: State, pool: Pool, after: State, left: Pool, tip: Hash,
        branch: seq<MsgBlock>, disconnected: seq<MsgBlock>, now: int)
    requires p.WellFormed() && Good(p, before) && branch != []
    requires IsBranch(p, pool, before.blocks, branch, tip) && Reorganized(p, before, branch, now) == Switched(after)
    requires disconnected == match FindByHash(p, before.blocks, branch[0].header.prevBlock)
                             case None => []
                             case Some(fork) => Reversed(before.blocks[fork + 1..])
    requires left == pool - Hashes(p, branch)
    ensures SwitchDone(p, before, pool, after, left, tip, branch, disconnected, now)
  {
    hide Params.WellFormed, Good, IsBranch, Reorganized, Hashes, Delta, FindByHash, Reversed;
    SwitchDelta(p, before, branch, now);
  }

  /** What becomes of the branch to a tip decides both, whether it wins and why there is no switch. */
  lemma OnlyBranch(p: Params, s: State, pool: Pool, tip: Hash, branch: seq<MsgBlock>, now: int)
    requires p.WellFormed() && Good(p, s) && IsBranch(p, pool, s.blocks, branch, tip)
    ensures branch != []
    ensures WinningBranchTo(p, s, pool, tip, now) <==> Reorganized(p, s, branch, now).Switched?
    ensures !Higher(s, branch) ==> NotSwitched(p, s, pool, tip, None, now)
    ensures Higher(s, branch) && Reorganized(p, s, branch, now).Failed? ==>
      NotSwitched(p, s, pool, tip, Some(ReorgFailed(Reorganized(p, s, branch, now).error)), now)
    ensures Reorganized(p, s, branch, now).Switched? ==> NotSwitched(p, s, pool, tip, Some(StoreFailed), now)
  {
    assert branch != [];
    hide Params.WellFormed, Good, IsBranch, Reorganized, Higher;
    forall b | IsBranch(p, pool, s.blocks, b, tip)
      ensures b == branch
    {
      BranchIsUnique(p, pool, s.blocks, b, branch, tip);
    }
  }

  lemma DeclinedIsLow(p: Params, s: State, branch: seq<MsgBlock>, now: int)
    requires p.WellFormed() && Good(p, s) && Higher(s, branch)
    ensures !Reorganized(p, s, branch, now).Declined?
  {
    hide Params.WellFormed, Good, AddAll, FindByHash, Linked;
    GoodTip(p, s);
    HeightsArePositions(p, s.blocks, |s.blocks| - 1);
  }

  lemma NoBranchNoWin(p: Params, s: State, pool: Pool, tip: Hash, now: int)
    requires p.WellFormed() && Good(p, s)
    requires !exists b :: IsBranch(p, pool, s.blocks, b, tip)
    ensures !WinningBranchTo(p, s, pool, tip, now) && NotSwitched(p, s, pool, tip, None, now)
  {
    hide Params.WellFormed, Good, IsBranch, Reorganized;
  }

  lemma GrowthDelta(before: seq<MsgBlock>, block: MsgBlock, more: seq<MsgBlock>, after: seq<MsgBlock>)
    requires after == before + [block] + more
    ensures Delta(before, after, [], [block] + more) && |after| > |before|
  {
    assert after == before + ([block] + more);
    ExtensionDelta(before, [block] + more);
  }

  /** The block is cached; if the cache was full, one orphan made room for it. */
  ghost predicate Parked(p: Params, before: Pool, after: Pool, block: MsgBlock) {
    var h := BlockHash(p, block.header);
    if h in before then after == before
    else if |before| < MAX_ORPHANS then after == before[h := block]
    else exists victim :: victim in before && after == (before - {victim})[h := block]
  }

  /** No orphan is listed under any of these blocks. */
  ghost predicate NoneWaiting(p: Params, blocks: seq<MsgBlock>, index: Index) {
    forall i :: 0 <= i < |blocks| ==> BlockHash(p, blocks[i].header) !in index
  }

  lemma StillNoneWaiting(p: Params, before: Moment, after: Moment, blocks: seq<MsgBlock>, connected: seq<MsgBlock>)
    requires Progress(p, before, after, connected) && NoneWaiting(p, blocks, before.index) &&
      NoneWaiting(p, connected, after.index)
    ensures NoneWaiting(p, blocks + connected, after.index)
  {
    hide TakenFrom, SubPool;
  }

  lemma NoneWaitingForNothing(p: Params, index: Index)
    ensures NoneWaiting(p, [], index)
  {
  }

  lemma OneMoreNotWaiting(p: Params, block: MsgBlock, more: seq<MsgBlock>, index: Index)
    requires BlockHash(p, block.header) !in index && NoneWaiting(p, more, index)
    ensures NoneWaiting(p, [block] + more, index)
  {
  }

  /** No orphan has one of these blocks as its parent. */
  ghost predicate NoneWaitsFor(p: Params, orphans: Pool, blocks: seq<MsgBlock>) {
    forall h, i :: h in orphans && 0 <= i < |blocks| ==>
      orphans[h].header.prevBlock != BlockHash(p, blocks[i].header)
  }

  /** No orphan has a parent that the node holds, on the main chain or beside it. */
  ghost predicate ParentsUnknown(p: Params, orphans: Pool, blocks: seq<MsgBlock>, side: Pool) {
    NoneWaitsFor(p, orphans, blocks) && !exists hash :: hash in side && WaitedFor(orphans, hash)
  }

  ghost predicate WaitedFor(orphans: Pool, hash: Hash) {
    exists h :: h in orphans && orphans[h].header.prevBlock == hash
  }

  /** With an exact index, an index without entries for the blocks means just that. */
  lemma NoOrphanWaits(p: Params, pool: Pool, index: Index, blocks: seq<MsgBlock>)
    requires PoolOk(p, pool, index, {}) && NoneWaiting(p, blocks, index)
    ensures NoneWaitsFor(p, pool, blocks)
  {
    forall h | h in pool
      ensures pool[h].header.prevBlock in index
    {
      assert h in Parents(pool);
    }
  }

  lemma FewerWait(p: Params, orphans: Pool, fewer: Pool, blocks: seq<MsgBlock>, side: Pool)
    requires SubPool(fewer, orphans)
    ensures NoneWaitsFor(p, orphans, blocks) ==> NoneWaitsFor(p, fewer, blocks)
    ensures ParentsUnknown(p, orphans, blocks, side) ==> ParentsUnknown(p, fewer, blocks, side)
  {
    if ParentsUnknown(p, orphans, blocks, side) {
      forall hash | WaitedFor(fewer, hash)
        ensures WaitedFor(orphans, hash)
      {
        var h :| h in fewer && fewer[h].header.prevBlock == hash;
        assert h in orphans && orphans[h].header.prevBlock == hash;
      }
    }
  }

  lemma NoneWaitsForBoth(p: Params, orphans: Pool, a: seq<MsgBlock>, b: seq<MsgBlock>)
    ensures NoneWaitsFor(p, orphans, a + b) <==> NoneWaitsFor(p, orphans, a) && NoneWaitsFor(p, orphans, b)
  {
    var all := a + b;
    if NoneWaitsFor(p, orphans, all) {
      assert forall i :: 0 <= i < |a| ==> a[i] == all[i];
      assert forall i :: 0 <= i < |b| ==> b[i] == all[|a| + i];
    }
  }

  /** An extension takes from the cache whatever waited for the blocks that it adds. */
  lemma ExtendKeepsUnknown(p: Params, before: Moment, after: Moment, side: Pool, block: MsgBlock, added: seq<MsgBlock>)
    requires added != [] && added[0] == block && Progress(p, Extended(before, block), after, added[1..])
    requires NoneWaitsFor(p, after.orphans, added)
    ensures NoneWaitsFor(p, before.orphans, before.blocks) ==> NoneWaitsFor(p, after.orphans, after.blocks)
    ensures ParentsUnknown(p, before.orphans, before.blocks, side) ==>
      ParentsUnknown(p, after.orphans, after.blocks, side)
  {
    hide TakenFrom, SubPool, NoneWaitsFor, WaitedFor;
    assert after.blocks == before.blocks + added;
    FewerWait(p, before.orphans, after.orphans, before.blocks, side);
    NoneWaitsForBoth(p, after.orphans, before.blocks, added);
  }

  lemma NothingDisconnected(p: Params, before: Moment, s: State, block: MsgBlock, enforce: bool, now: int,
        connected: bool, added: seq<MsgBlock>, disconnected: seq<MsgBlock>, error: Option<NodeError>, after: Moment)
    requires p.WellFormed() && s.blocks != [] && Tip(s).header.Hashable()
    requires ExtendOutcome(p, before, s, block, enforce, now, connected, added, disconnected, error, after)
    ensures ExtendOutcome(p, before, s, block, enforce, now, connected, added, [], error, after)
  {
    hide Params.WellFormed, ValidateBlock, Progress, Extended;
  }

  lemma ExtensionKeepsUnknown(p: Params, before: Moment, s: State, side: Pool, block: MsgBlock, enforce: bool,
        now: int, connected: bool, added: seq<MsgBlock>, error: Option<NodeError>, after: Moment)
    requires p.WellFormed() && s.blocks != [] && Tip(s).header.Hashable()
    requires ExtendOutcome(p, before, s, block, enforce, now, connected, added, [], error, after)
    requires connected ==> NoneWaitsFor(p, after.orphans, added)
    ensures NoneWaitsFor(p, before.orphans, before.blocks) ==> NoneWaitsFor(p, after.orphans, after.blocks)
    ensures ParentsUnknown(p, before.orphans, before.blocks, side) ==>
      ParentsUnknown(p, after.orphans, after.blocks, side)
  {
    hide Params.WellFormed, ValidateBlock, Progress, Extended, NoneWaitsFor, ParentsUnknown;
    if connected {
      ExtendKeepsUnknown(p, before, after, side, block, added);
    }
  }

  /** A block is parked only when its parent is unknown. */
  lemma ParkKeepsUnknown(p: Params, s: State, orphans: Pool, after: Pool, side: Pool, block: MsgBlock)
    requires Parked(p, orphans, after, block) && PrevOf(p, s, side, block.header.prevBlock) == None
    ensures NoneWaitsFor(p, orphans, s.blocks) ==> NoneWaitsFor(p, after, s.blocks)
    ensures ParentsUnknown(p, orphans, s.blocks, side) ==> ParentsUnknown(p, after, s.blocks, side)
  {
    hide FindByHash;
    forall h | h in after
      ensures after[h] == block || (h in orphans && orphans[h] == after[h])
    {
    }
    if ParentsUnknown(p, orphans, s.blocks, side) {
      forall hash | WaitedFor(after, hash)
        ensures WaitedFor(orphans, hash) || hash == block.header.prevBlock
      {
        var h :| h in after && after[h].header.prevBlock == hash;
        assert after[h] == block || (h in orphans && orphans[h].header.prevBlock == hash);
      }
    }
  }

  /** A switch brings to the chain what was beside it, and nothing else. */
  lemma SwitchKeepsUnknown(p: Params, before: State, pool: Pool, orphans: Pool, after: State, left: Pool, tip: Hash,
        branch: seq<MsgBlock>, disconnected: seq<MsgBlock>, now: int)
    requires p.WellFormed() && Good(p, before)
    requires SwitchDone(p, before, pool, after, left, tip, branch, disconnected, now)
    ensures NoneWaitsFor(p, orphans, before.blocks) ==>
      (NoneWaitsFor(p, orphans, after.blocks) <==> NoneWaitsFor(p, orphans, branch))
    ensures ParentsUnknown(p, orphans, before.blocks, pool) ==> ParentsUnknown(p, orphans, after.blocks, left)
    ensures WaitedFor(orphans, tip) ==> !ParentsUnknown(p, orphans, after.blocks, left)
  {
    hide Params.WellFormed, Good, IsBranch, Reorganized, Hashes, NoneWaitsFor, WaitedFor;
    var n: nat :| n <= |before.blocks| && DeltaAt(before.blocks, after.blocks, disconnected, branch, n);
    assert before.blocks[..n] + before.blocks[n..] == before.blocks;
    NoneWaitsForBoth(p, orphans, before.blocks[..n], before.blocks[n..]);
    NoneWaitsForBoth(p, orphans, before.blocks[..n], branch);
    BranchFromPool(p, pool, before.blocks, orphans, branch, tip);
    assert forall hash :: hash in left ==> hash in pool;
  }

  lemma BranchFromPool(p: Params, pool: Pool, main: seq<MsgBlock>, orphans: Pool, branch: seq<MsgBlock>, tip: Hash)
    requires IsBranch(p, pool, main, branch, tip)
    ensures (!exists hash :: hash in pool && WaitedFor(orphans, hash)) ==> NoneWaitsFor(p, orphans, branch)
    ensures WaitedFor(orphans, tip) ==> !NoneWaitsFor(p, orphans, branch)
  {
    hide BranchStep;
    forall i | 0 <= i < |branch|
      ensures BlockHash(p, branch[i].header) in pool
    {
      BranchIsPooled(p, pool, main, branch, tip, i);
    }
  }

  /**
   A block that is kept beside the chain does not release the orphans that wait for it. That alone makes an
   orphan wait for a block that the node holds, on the chain or beside it; on the chain alone, a switch does so
   exactly when an orphan waits for a block of the branch.
   */
  lemma SideKeepsUnknownExactlyWhen(p: Params, before: State, pool: Pool, orphans: Pool, block: MsgBlock, now: int,
        connected: bool, branch: seq<MsgBlock>, disconnected: seq<MsgBlock>, error: Option<NodeError>, after: State,
        left: Pool)
    requires p.WellFormed() && Good(p, before) && before.blocks != []
    requires SideOutcome(p, before, pool, block, now, connected, branch, disconnected, error, after, left)
    ensures NoneWaitsFor(p, orphans, before.blocks) ==>
      (NoneWaitsFor(p, orphans, after.blocks) <==> !connected || NoneWaitsFor(p, orphans, branch))
    ensures ParentsUnknown(p, orphans, before.blocks, pool) ==>
      (ParentsUnknown(p, orphans, after.blocks, left) <==>
        !FitsBeside(p, before, pool, block, now) || !WaitedFor(orphans, BlockHash(p, block.header)))
  {
    hide Params.WellFormed, Good, SwitchDone, NotSwitched, FitsBeside, NoneWaitsFor, WaitedFor;
    var tip, cached := BlockHash(p, block.header), WithBlock(p, pool, block);
    assert forall hash :: hash in cached <==> hash in pool || hash == tip;
    if FitsBeside(p, before, pool, block, now) && connected {
      SwitchKeepsUnknown(p, before, cached, orphans, after, left, tip, branch, disconnected, now);
    }
  }

  /** What a node does with a block, in each of the four cases. */
  ghost predicate ConnectOutcome(p: Params, before: Moment, s: State, side: Pool, block: MsgBlock,
      peerBest: Option<uint32>, now: int, connected: bool, added: seq<MsgBlock>, disconnected: seq<MsgBlock>,
      error: Option<NodeError>, after: Moment, t: State, left: Pool)
    requires p.WellFormed() && Good(p, s) && s.blocks != [] && Tip(s).header.Hashable()
  {
    match RouteOf(p, s, side, block)
    case Known => !connected && error == None && after == before && left == side
    case Extends =>
      && ExtendOutcome(p, before, s, block, !Historical(s, block, peerBest), now,
           connected, added, disconnected, error, after)
      && (connected ==> NoneWaitsFor(p, after.orphans, added))
      && left == side
    case Ahead =>
      && !connected && left == side && after.blocks == before.blocks && after.known == before.known
      && (error == None <==> OrphanCandidate(p, Tip(s).header, block, now))
      && (error == None ==> Parked(p, before.orphans, after.orphans, block))
      && (error != None ==> after == before)
    case Beside =>
      && after.orphans == before.orphans
      && (after.known == before.known || after.known == before.known + {block.header})
      && SideOutcome(p, s, side, block, now, connected, added, disconnected, error, t, left)
  }

  /**
   Exactly when a step leaves no orphan behind whose parent the node holds. On the chain alone: unless a switch
   brings in a block that an orphan waits for. On the chain or beside it: unless the block is kept beside the
   chain and an orphan waits for it.
   */
  lemma ParentsUnknownExactlyWhen(p: Params, before: Moment, s: State, side: Pool, block: MsgBlock,
        peerBest: Option<uint32>, now: int, connected: bool, added: seq<MsgBlock>, disconnected: seq<MsgBlock>,
        error: Option<NodeError>, after: Moment, t: State, left: Pool)
    requires p.WellFormed() && Good(p, s) && s.blocks != [] && Tip(s).header.Hashable()
    requires before.blocks == s.blocks && after.blocks == t.blocks
    requires ConnectOutcome(p, before, s, side, block, peerBest, now,
               connected, added, disconnected, error, after, t, left)
    ensures NoneWaitsFor(p, before.orphans, before.blocks) ==>
      (NoneWaitsFor(p, after.orphans, after.blocks) <==>
        !(RouteOf(p, s, side, block).Beside? && connected) || NoneWaitsFor(p, before.orphans, added))
    ensures ParentsUnknown(p, before.orphans, before.blocks, side) ==>
      (ParentsUnknown(p, after.orphans, after.blocks, left) <==>
        !(RouteOf(p, s, side, block).Beside? && FitsBeside(p, s, side, block, now)) ||
        !WaitedFor(before.orphans, BlockHash(p, block.header)))
  {
    hide Params.WellFormed, Good, ExtendOutcome, SideOutcome, FitsBeside, OrphanCandidate, Parked, NoneWaitsFor,
      ParentsUnknown, WaitedFor, PrevOf, FindByHash, Historical;
    match RouteOf(p, s, side, block) {
      case Known =>
      case Extends =>
        NothingDisconnected(p, before, s, block, !Historical(s, block, peerBest), now, connected, added, disconnected,
          error, after);
        ExtensionKeepsUnknown(p, before, s, side, block, !Historical(s, block, peerBest), now, connected, added, error,
          after);
      case Ahead =>
        if error == None {
          ParkKeepsUnknown(p, s, before.orphans, after.orphans, side, block);
        }
      case Beside =>
        SideKeepsUnknownExactlyWhen(p, s, side, before.orphans, block, now, connected, added, disconnected, error, t,
          left);
    }
  }

  /** The loop that copies a list back to front. */
  method TurnAround(reversed: seq<MsgBlock>) returns (blocks: seq<MsgBlock>)
    ensures blocks == Reversed(reversed)
  {
    blocks := [];
    var i := |reversed|;
    while i > 0
      invariant 0 <= i <= |reversed|
      invariant blocks == Reversed(reversed[i..])
    {
      i := i - 1;
      ReversedCons(reversed[i], reversed[i + 1..]);
      assert reversed[i..] == [reversed[i]] + reversed[i + 1..];
      blocks := blocks + [reversed[i]];
    }
    assert reversed[0..] == reversed;
  }

  class P2PNode {
    const chain: Chain
    const store: Store?
    var orphans: Pool
    var orphansByPrev: Index
    var sideBlocks: Pool
    var sideByPrev: Index
    /** The headers of all blocks that have ever been on the chain or beside it. */
    ghost var known: set<BlockHeader>

    /** Every side block has a known parent that is one lower. */
    ghost predicate Recorded()
      reads this, chain
    {
      AllKnown(known, chain.blocks) && HeightsDescend(chain.params, sideBlocks, known)
    }

    /** As long as no write has failed, the store's file is exactly the chain without its genesis block. */
    ghost predicate StoreAgrees()
      reads this, chain, store
    {
      store != null && store.intact ==>
        chain.blocks != [] && store.Content() == FileOf(chain.params, store.codec, chain.blocks[1..])
    }

    /** The invariant while the orphans in `pending` are being connected. */
    ghost predicate Sound(pending: set<Hash>)
      reads this, chain, store
    {
      && chain.Valid()
      && (store != null ==> store.params == chain.params)
      && PoolOk(chain.params, orphans, orphansByPrev, pending)
      && |orphans| <= MAX_ORPHANS
      && PoolOk(chain.params, sideBlocks, sideByPrev, {})
      && Recorded()
      && StoreAgrees()
    }

    ghost predicate Valid()
      reads this, chain, store
    {
      Sound({})
    }

    constructor (chain: Chain, store: Store?)
      requires chain.Valid()
      requires store != null ==> store.params == chain.params
      requires store != null && store.intact ==>
        chain.blocks != [] && store.Content() == FileOf(chain.params, store.codec, chain.blocks[1..])
      ensures Valid() && this.chain == chain && this.store == store
      ensures orphans == map[] && sideBlocks == map[] && known == Headers(chain.blocks)
    {
      hide Chain.Valid, FileOf;
      known := Headers(chain.blocks);
      this.chain := chain;
      this.store := store;
      orphans, orphansByPrev, sideBlocks, sideByPrev := map[], map[], map[], map[];
    }

    // ---- orphans ----

    /** Drops the orphan that the map yields first. */
    method DropOrphan() returns (victim: Hash)
      requires Valid() && |orphans| > 0
      modifies this`orphans, this`orphansByPrev
      ensures Valid()
      ensures victim in old(orphans) && orphans == old(orphans) - {victim} && |orphans| < old(|orphans|)
    {
      hide PoolOk, AllKnown, HeightsDescend, FileOf, Chain.Valid, Children, Without;
      NotEmpty(orphans);
      victim :| victim in orphans;
      var prev := orphans[victim].header.prevBlock;
      OneLessCached(chain.params, orphans, orphansByPrev, victim);
      orphans := orphans - {victim};
      var rest := RemoveHash(Children(orphansByPrev, prev), victim);
      orphansByPrev := if |rest| == 0 then orphansByPrev - {prev} else orphansByPrev[prev := rest];
    }

    /** Parks a block. In a full cache some orphan, whichever the map yields first, makes room. */
    method AddOrphan(block: MsgBlock)
      requires Valid() && block.header.Hashable()
      modifies this`orphans, this`orphansByPrev
      ensures Valid()
      ensures Parked(chain.params, old(orphans), orphans, block)
    {
      hide PoolOk, AllKnown, HeightsDescend, FileOf, Chain.Valid, Parked, Children;
      ghost var before := orphans;
      var hash := BlockHash(chain.params, block.header);
      ParkedKnown(chain.params, before, block);
      if hash in orphans {
        return;
      }
      if |orphans| >= MAX_ORPHANS {
        var victim := DropOrphan();
        ParkedInFull(chain.params, before, block, victim);
      }
      OneMoreCached(chain.params, orphans, orphansByPrev, hash, block);
      orphans := orphans[hash := block];
      var parent := block.header.prevBlock;
      orphansByPrev := orphansByPrev[parent := Children(orphansByPrev, parent) + [hash]];
    }

    lemma OneLessCached(p: Params, pool: Pool, index: Index, h: Hash)
      requires PoolOk(p, pool, index, {}) && h in pool
      ensures |pool - {h}| == |pool| - 1
      ensures
        var prev := pool[h].header.prevBlock;
        var rest := Without(Children(index, prev), h);
        PoolOk(p, pool - {h}, if |rest| == 0 then index - {prev} else index[prev := rest], {})
    {
      hide PoolOk, Without, Children;
      RemoveBlock(p, pool, index, {}, h);
    }

    lemma OneMoreCached(p: Params, pool: Pool, index: Index, h: Hash, block: MsgBlock)
      requires PoolOk(p, pool, index, {}) && h !in pool && block.header.Hashable() && BlockHash(p, block.header) == h
      ensures |pool[h := block]| == |pool| + 1
      ensures
        var parent := block.header.prevBlock;
        PoolOk(p, pool[h := block], index[parent := Children(index, parent) + [h]], {})
    {
      hide PoolOk, Children;
      AddBlockToPool(p, pool, index, {}, h, block);
    }

    lemma ParkedKnown(p: Params, before: Pool, block: MsgBlock)
      ensures BlockHash(p, block.header) in before ==> Parked(p, before, before, block)
      ensures BlockHash(p, block.header) !in before && |before| < MAX_ORPHANS ==>
        Parked(p, before, before[BlockHash(p, block.header) := block], block)
    {
    }

    lemma ParkedInFull(p: Params, before: Pool, block: MsgBlock, victim: Hash)
      requires BlockHash(p, block.header) !in before && |before| >= MAX_ORPHANS && victim in before
      ensures Parked(p, before, (before - {victim})[BlockHash(p, block.header) := block], block)
    {
    }

    lemma OneRecordMore(p: Params, c: LineCodec, blocks: seq<MsgBlock>, block: MsgBlock)
      requires blocks != []
      ensures FileOf(p, c, (blocks + [block])[1..]) == FileOf(p, c, blocks[1..]) + LineOf(p, c, block)
    {
      hide FileOf, LineOf;
      FileOfSnoc(p, c, blocks[1..], block);
      assert (blocks + [block])[1..] == blocks[1..] + [block];
    }

    lemma NotEmpty(pool: Pool)
      requires |pool| > 0
      ensures exists h :: h in pool
    {
      assert pool.Keys != {};
    }

    // ---- extending the main chain ----

    /** Appends a block that has just been validated: first to the store, then to the chain. Only the store can fail. */
    method PersistAndAdd(block: MsgBlock, now: int, historical: bool) returns (ok: bool)
      requires chain.Valid() && (store != null ==> store.params == chain.params) && StoreAgrees() && Recorded()
      requires chain.blocks != [] && Tip(chain.Current()).header.Hashable()
      requires Ledger.AddBlock(chain.params, chain.Current(), block, now, !historical).Ok?
      modifies this`known, chain, store
      ensures chain.Valid() && StoreAgrees() && Recorded()
      ensures ok ==> chain.blocks == old(chain.blocks) + [block] && known == old(known) + {block.header}
      ensures !ok ==> chain.Current() == old(chain.Current()) && known == old(known) && store != null && !store.intact
      ensures store == null ==> ok
    {
      hide Params.WellFormed, Good, ValidateBlock, Next, FileOf, LineOf, HeightsDescend;
      if store != null {
        var appended := store.Append(block);
        if !appended {
          return false;
        }
        OneRecordMore(chain.params, store.codec, chain.blocks, block);
      }
      var refused: Option<RuleError>;
      if historical {
        refused := chain.AddStoredBlock(block, now);
      } else {
        refused := chain.AddBlock(block, now);
      }
      ghost var more := known + {block.header};
      DescendOnMore(chain.params, sideBlocks, known, more);
      known := more;
      ok := true;
    }

    ghost function Present(): Moment
      reads this, chain
    {
      Moment(chain.blocks, orphans, orphansByPrev, known)
    }

    /**
     Connects the parked children of a block that has just been connected, and theirs in turn. An orphan
     that does not validate, or cannot be stored, is dropped.
     */
    method ConnectOrphans(parentHash: Hash, now: int, ghost pending: set<Hash>) returns (connected: seq<MsgBlock>)
      requires Sound(pending)
      modifies this`orphans, this`orphansByPrev, this`known, chain, store
      ensures Sound(pending)
      ensures Progress(chain.params, old(Present()), Present(), connected)
      ensures NoneWaiting(chain.params, connected, orphansByPrev)
      ensures parentHash !in orphansByPrev && |orphans| <= old(|orphans|)
      decreases |orphans|, 1
    {
      hide PoolOk, HeightsDescend, Chain.Valid, Children, FileOf, Progress, NoneWaiting;
      var hashes := Children(orphansByPrev, parentHash);
      TakeChildren(chain.params, orphans, orphansByPrev, pending, parentHash);
      orphansByPrev := orphansByPrev - {parentHash};
      connected := [];
      ChildrenTaken(chain.params, old(Present()), Present(), parentHash);
      NoneWaitingForNothing(chain.params, orphansByPrev);
      assert hashes[0..] == hashes;
      assert Sound(pending + Elements(hashes));
      hide *;
      for i := 0 to |hashes|
        invariant Sound(pending + Elements(hashes[i..]))
        invariant Progress(chain.params, old(Present()), Present(), connected)
        invariant NoneWaiting(chain.params, connected, Present().index)
        invariant parentHash !in Present().index && |orphans| <= old(|orphans|)
      {
        PendingSplits(pending, hashes, i);
        ghost var before := Present();
        var more := ConnectOrphan(hashes[i], now, pending + Elements(hashes[i + 1..]));
        ProgressFurther(chain.params, old(Present()), before, Present(), connected, more);
        NotListedAgain(chain.params, before, Present(), more, parentHash);
        StillNoneWaiting(chain.params, before, Present(), connected, more);
        connected := connected + more;
      }
      assert hashes[|hashes|..] == [];
      assert pending + Elements<Hash>([]) == pending by {
        NoElements();
      }
    }

    /** One child: out of the cache, and onto the chain if it fits, its own children after it. */
    method ConnectOrphan(orphanHash: Hash, now: int, ghost pending: set<Hash>) returns (connected: seq<MsgBlock>)
      requires Sound(pending + {orphanHash})
      modifies this`orphans, this`orphansByPrev, this`known, chain, store
      ensures Sound(pending)
      ensures Progress(chain.params, old(Present()), Present(), connected)
      ensures NoneWaiting(chain.params, connected, orphansByPrev)
      ensures |orphans| <= old(|orphans|)
      decreases |orphans|, 0
    {
      hide PoolOk, HeightsDescend, Chain.Valid, ValidateBlock, FileOf, Next, Progress,
        NoneWaiting;
      ghost var p, start := chain.params, Present();
      connected := [];
      NoProgressYet(p, start);
      NoneWaitingForNothing(p, orphansByPrev);
      DropPending(p, orphans, orphansByPrev, pending, orphanHash);
      if orphanHash !in orphans {
        assert orphans - {orphanHash} == orphans;
        return;
      }
      var orphan := orphans[orphanHash];
      StandsUnderItsHash(p, orphans, orphansByPrev, pending + {orphanHash}, orphanHash);
      orphans := orphans - {orphanHash};
      OneDropped(p, start, Present(), orphanHash);
      var valid := chain.ValidateBlockAt(orphan, now, true);
      if valid.Err? {
        return;
      }
      var ok := PersistAndAdd(orphan, now, false);
      if !ok {
        return;
      }
      ghost var middle := Present();
      OneConnected(p, start, middle, orphanHash);
      var more := ConnectOrphans(orphanHash, now, pending);
      ProgressFurther(p, start, middle, Present(), [orphan], more);
      OneMoreNotWaiting(p, orphan, more, orphansByPrev);
      connected := [orphan] + more;
    }

    // ---- side branches ----

    /** Follows parents from a tip through the side pool until one is on the main chain. */
    method SideBranch(tipHash: Hash) returns (branch: seq<MsgBlock>, ok: bool, ghost cycled: bool)
      requires Valid()
      ensures ok ==> branch != [] && IsBranch(chain.params, sideBlocks, chain.blocks, branch, tipHash)
      ensures ok <==> exists b :: IsBranch(chain.params, sideBlocks, chain.blocks, b, tipHash)
      ensures NoCollisions(chain.params, known) ==> !cycled && (ok ==> Climbs(chain.params, chain.blocks, branch))
    {
      hide Chain.Valid, Indexed, HeightsDescend, AllKnown, NoCollisions, Climbs, IsBranch, Walk, FindByHash,
        StoreAgrees, Good, Linked, Params.WellFormed;
      var reversed: seq<MsgBlock> := [];
      var seen: set<Hash> := {};
      var hash := tipHash;
      var last: MsgBlock;
      assert Walk(chain.params, sideBlocks, chain.blocks, reversed, tipHash) by {
        NoWalkYet(chain.params, sideBlocks, chain.blocks, tipHash);
      }
      cycled := false;
      while true
        invariant Walk(chain.params, sideBlocks, chain.blocks, reversed, tipHash)
        invariant hash == WalkAt(reversed, tipHash, |reversed|)
        invariant forall h :: h in seen ==> exists i :: 0 <= i < |reversed| && h == WalkAt(reversed, tipHash, i)
        invariant seen <= sideBlocks.Keys
        decreases sideBlocks.Keys - seen
      {
        if hash in seen {
          ghost var i :| 0 <= i < |reversed| && hash == WalkAt(reversed, tipHash, i);
          NoBranchThroughCycle(chain.params, sideBlocks, chain.blocks, reversed, tipHash, i);
          if NoCollisions(chain.params, known) {
            NoCycle(chain.params, sideBlocks, chain.blocks, reversed, tipHash, known, i);
          }
          return [], false, true;
        }
        if hash !in sideBlocks {
          NoBranchWithoutBlock(chain.params, sideBlocks, chain.blocks, reversed, tipHash);
          return [], false, false;
        }
        var block := sideBlocks[hash];
        var parent, at := chain.BlockByHash(block.header.prevBlock);
        if parent.Some? {
          last := block;
          break;
        }
        WalkFurther(chain.params, sideBlocks, chain.blocks, reversed, tipHash, block);
        WalkAtPrefix(reversed, tipHash, block);
        seen := seen + {hash};
        reversed := reversed + [block];
        hash := block.header.prevBlock;
      }
      WalkIsBranch(chain.params, sideBlocks, chain.blocks, reversed, tipHash, last);
      reversed := reversed + [last];
      branch := TurnAround(reversed);
      assert |branch| == |reversed| > 0;
      if NoCollisions(chain.params, known) {
        chain.Shape();
        WholeBranchClimbs(chain.params, sideBlocks, chain.blocks, branch, tipHash, known);
      }
      ok := true;
    }

    /** Drops the blocks of a branch from the side pool and its index. */
    method PruneSideBranch(branch: seq<MsgBlock>, ghost main: seq<MsgBlock>, ghost tip: Hash)
      requires PoolOk(chain.params, sideBlocks, sideByPrev, {})
      requires IsBranch(chain.params, sideBlocks, main, branch, tip)
      modifies this`sideBlocks, this`sideByPrev
      ensures PoolOk(chain.params, sideBlocks, sideByPrev, {})
      ensures sideBlocks == old(sideBlocks) - Hashes(chain.params, branch)
    {
      hide *;
      ghost var p, pool := chain.params, sideBlocks;
      NoHashes(p, pool);
      assert branch[..0] == [];
      for i := 0 to |branch|
        invariant sideBlocks == pool - Hashes(p, branch[..i])
        invariant PoolOk(p, pool - Hashes(p, branch[..i]), sideByPrev, {})
      {
        var hash := BlockHash(chain.params, branch[i].header);
        var prev := branch[i].header.prevBlock;
        PruneStep(p, pool, sideByPrev, main, branch, tip, i);
        sideBlocks := sideBlocks - {hash};
        var rest := RemoveHash(Children(sideByPrev, prev), hash);
        sideByPrev := if |rest| == 0 then sideByPrev - {prev} else sideByPrev[prev := rest];
      }
      assert branch[..|branch|] == branch;
    }

    /** The blocks that a switch to the branch takes off, tip first. */
    method DisconnectedBlocks(branch: seq<MsgBlock>) returns (disconnected: seq<MsgBlock>)
      requires chain.Valid()
      ensures branch == [] ==> disconnected == []
      ensures branch != [] ==>
        disconnected == match FindByHash(chain.params, chain.blocks, branch[0].header.prevBlock)
                        case None => []
                        case Some(fork) => Reversed(chain.blocks[fork + 1..])
    {
      hide Chain.Valid, FindByHash, Params.WellFormed, Good, Linked, Reversed;
      chain.Shape();
      disconnected := [];
      if |branch| == 0 {
        return;
      }
      var fork, at := chain.BlockByHash(branch[0].header.prevBlock);
      if fork.None? {
        return;
      }
      var forkHeight: int := fork.value.header.height;
      var tipHeight := chain.Height();
      var height: int := tipHeight;
      NothingReversed<MsgBlock>();
      assert chain.blocks[height + 1..] == [];
      while height > forkHeight
        invariant forkHeight <= height < |chain.blocks|
        invariant disconnected == Reversed(chain.blocks[height + 1..])
        decreases height
      {
        var block := chain.BlockByHeight(height);
        ReversedCons(chain.blocks[height], chain.blocks[height + 1..]);
        assert chain.blocks[height..] == [chain.blocks[height]] + chain.blocks[height + 1..];
        disconnected := disconnected + [block.value];
        height := height - 1;
      }
    }

    /** What `Replace` has written for the chain's blocks is what the store should hold. */
    lemma ReplacedStoreAgrees()
      requires chain.Valid()
      requires store != null && store.intact ==>
        store.Content() == FileOf(chain.params, store.codec, Stored(chain.blocks))
      ensures StoreAgrees()
    {
      hide Chain.Valid, Good, Linked, Params.WellFormed, FileOf, Stored;
      chain.Shape();
      StoredOfChain(chain.params, chain.blocks);
    }

    /** Makes a switch that has been decided on: first in the store, then in memory, and last in the side pool. */
    method SwitchTo(branch: seq<MsgBlock>, blocks: seq<MsgBlock>, ghost tip: Hash, now: int) returns (ok: bool)
      requires Valid() && IsBranch(chain.params, sideBlocks, chain.blocks, branch, tip)
      requires chain.params.WellFormed() && Good(chain.params, chain.Current())
      requires
        var r := Reorganized(chain.params, chain.Current(), branch, now);
        r.Switched? && blocks == r.state.blocks
      modifies this`sideBlocks, this`sideByPrev, chain, store
      ensures Valid()
      ensures ok ==>
        && Switched(chain.Current()) == old(Reorganized(chain.params, chain.Current(), branch, now))
        && sideBlocks == old(sideBlocks) - Hashes(chain.params, branch)
      ensures !ok ==>
        && store != null
        && chain.Current() == old(chain.Current())
        && sideBlocks == old(sideBlocks) && sideByPrev == old(sideByPrev)
    {
      hide Chain.Valid, PoolOk, IsBranch, HeightsDescend, AllKnown, FileOf, Reorganized, Params.WellFormed, Good,
        Hashes,
        Next, Stored;
      ghost var p, before, pool := chain.params, chain.Current(), sideBlocks;
      if store != null {
        var replaced := store.Replace(blocks);
        if !replaced {
          return false;
        }
      }
      var switched, refused := chain.Reorganize(branch, now);
      ReplacedStoreAgrees();
      PruneSideBranch(branch, before.blocks, tip);
      KnownAfterSwitch(p, before, pool, known, tip, branch, now);
      LessThanPool(p, pool, branch, known);
      ok := true;
    }

    lemma LessThanPool(p: Params, pool: Pool, branch: seq<MsgBlock>, known: set<BlockHeader>)
      requires HeightsDescend(p, pool, known)
      ensures HeightsDescend(p, pool - Hashes(p, branch), known)
    {
      hide HeightsDescend, Hashes;
      DescendOnLess(p, pool, pool - Hashes(p, branch), known);
    }

    /** Switches to the branch that ends at `tipHash`, if there is one and it wins. The store is written first. */
    method TryReorganize(tipHash: Hash, now: int)
      returns (connected: bool, branch: seq<MsgBlock>, disconnected: seq<MsgBlock>, error: Option<NodeError>)
      requires Valid()
      modifies this`sideBlocks, this`sideByPrev, chain, store
      ensures Valid()
      ensures !connected ==>
        && chain.Current() == old(chain.Current())
        && sideBlocks == old(sideBlocks) && sideByPrev == old(sideByPrev)
        && branch == [] && disconnected == []
      ensures connected ==>
        error == None &&
          SwitchDone(chain.params, old(chain.Current()), old(sideBlocks), chain.Current(), sideBlocks, tipHash, branch,
            disconnected, now)
      ensures !connected ==> NotSwitched(chain.params, old(chain.Current()), old(sideBlocks), tipHash, error, now)
      ensures connected || error == Some(StoreFailed) <==>
        WinningBranchTo(chain.params, old(chain.Current()), old(sideBlocks), tipHash, now)
      ensures store == null ==> error != Some(StoreFailed)
    {
      hide Chain.Valid, PoolOk, IsBranch, HeightsDescend, AllKnown, FileOf, Delta, Reorganized, NoCollisions, Climbs,
        Params.WellFormed, Good, Hashes, Next, Linked, FindByHash, Reversed, WinningBranchTo, Stored, SwitchDone,
        NotSwitched;
      chain.Shape();
      ghost var p, before, pool := chain.params, chain.Current(), sideBlocks;
      var ok: bool;
      ghost var cycled: bool;
      branch, ok, cycled := SideBranch(tipHash);
      if !ok || |branch| == 0 {
        NoBranchNoWin(p, before, pool, tipHash, now);
        return false, [], [], None;
      }
      OnlyBranch(p, before, pool, tipHash, branch, now);
      var height := chain.Height();
      if branch[|branch| - 1].header.height <= height {
        DeclinesLowBranch(p, before, branch, now);
        return false, [], [], None;
      }
      DeclinedIsLow(p, before, branch, now);
      disconnected := DisconnectedBlocks(branch);
      var blocks, switches, failure := chain.ReorganizedBlocks(branch, now);
      if failure.Some? || !switches {
        return false, [], [], match failure case None => None case Some(e) => Some(ReorgFailed(e));
      }
      connected := SwitchTo(branch, blocks, tipHash, now);
      if !connected {
        return false, [], [], Some(StoreFailed);
      }
      SwitchedDone(p, before, pool, chain.Current(), sideBlocks, tipHash, branch, disconnected, now);
      error := None;
    }

    // ---- the entry point ----

    method SideOrMainBlock(hash: Hash) returns (prev: Option<MsgBlock>)
      requires Valid()
      ensures prev == PrevOf(chain.params, chain.Current(), sideBlocks, hash)
    {
      hide Chain.Valid, FindByHash, Indexed, HeightsDescend, StoreAgrees;
      var onMain, at := chain.BlockByHash(hash);
      if onMain.Some? {
        return onMain;
      }
      prev := if hash in sideBlocks then Some(sideBlocks[hash]) else None;
    }

    /** Keeps a block beside the main chain if it fits there, and switches to its branch if that wins. */
    method ConnectSideBlock(block: MsgBlock, now: int)
      returns (connected: bool, branch: seq<MsgBlock>, disconnected: seq<MsgBlock>, error: Option<NodeError>)
      requires Valid() && block.header.Hashable()
      modifies this`sideBlocks, this`sideByPrev, this`known, chain, store
      ensures Valid()
      ensures SideOutcome(chain.params, old(chain.Current()), old(sideBlocks), block, now,
        connected, branch, disconnected, error, chain.Current(), sideBlocks)
      ensures known == old(known) || known == old(known) + {block.header}
      ensures old(FitsBeside(chain.params, chain.Current(), sideBlocks, block, now)) ==>
        (connected || error == Some(StoreFailed) <==>
          WinningBranchTo(chain.params, old(chain.Current()),
            WithBlock(chain.params, old(sideBlocks), block), BlockHash(chain.params, block.header), now))
      ensures store == null ==> error != Some(StoreFailed)
    {
      hide Chain.Valid, PoolOk, IsBranch, HeightsDescend, FileOf, Params.WellFormed, Good,
        Linked, FindByHash, SideCandidate, SwitchDone, WinningBranchTo, PrevOf, NotSwitched;
      chain.Shape();
      ghost var p, before, pool := chain.params, chain.Current(), sideBlocks;
      var hash := BlockHash(chain.params, block.header);
      var prev := SideOrMainBlock(block.header.prevBlock);
      PrevIsHashable(block.header.prevBlock);
      if !SideCandidate(chain.params, chain.blocks[|chain.blocks| - 1].header, prev, block, now) {
        return false, [], [], None;
      }
      if hash !in sideBlocks {
        OneMoreCached(p, sideBlocks, sideByPrev, hash, block);
        PoolIsKeyed(p, sideBlocks, sideByPrev);
        CandidateDescends(p, before, sideBlocks, known, block, now);
        known := known + {block.header};
        var parent := block.header.prevBlock;
        sideBlocks := sideBlocks[hash := block];
        sideByPrev := sideByPrev[parent := Children(sideByPrev, parent) + [hash]];
      }
      connected, branch, disconnected, error := TryReorganize(hash, now);
    }

    /** Validates, stores and connects a block on top of the tip, and then the orphans that waited for it. */
    method ExtendTip(block: MsgBlock, historical: bool, now: int)
      returns (connected: bool, added: seq<MsgBlock>, error: Option<NodeError>)
      requires Valid() && block.header.Hashable()
      modifies this`orphans, this`orphansByPrev, this`known, chain, store
      ensures Valid()
      ensures old(chain.blocks != [] && Tip(chain.Current()).header.Hashable())
      ensures ExtendOutcome(chain.params, old(Present()), old(chain.Current()), block, !historical, now,
        connected, added, [], error, Present())
      ensures store == null ==> error != Some(StoreFailed)
      ensures !connected ==> chain.Current() == old(chain.Current()) && added == []
      ensures connected ==>
        && error == None
        && Delta(old(chain.blocks), chain.blocks, [], added)
        && |chain.blocks| > |old(chain.blocks)|
        && NoneWaitsFor(chain.params, orphans, added)
    {
      hide Chain.Valid, PoolOk, HeightsDescend, FileOf, Params.WellFormed, Good, Linked, Delta,
        ValidateBlock, Progress, NoneWaiting, NoneWaitsFor, Next;
      chain.Shape();
      ghost var before := chain.Current();
      var valid := chain.ValidateBlockAt(block, now, !historical);
      if valid.Err? {
        return false, [], Some(Rule(valid.error));
      }
      var ok := PersistAndAdd(block, now, historical);
      if !ok {
        return false, [], Some(StoreFailed);
      }
      ghost var extended := Present();
      var more := ConnectOrphans(BlockHash(chain.params, block.header), now, {});
      ProgressBlocks(chain.params, extended, Present(), more);
      OneMoreNotWaiting(chain.params, block, more, orphansByPrev);
      NoOrphanWaits(chain.params, orphans, orphansByPrev, [block] + more);
      GrowthDelta(before.blocks, block, more, chain.blocks);
      return true, [block] + more, None;
    }

    /** What a node does with a block from a peer that claims the height `peerBest`. */
    method ConnectBlock(block: MsgBlock, peerBest: Option<uint32>, now: int)
      returns (connected: bool, added: seq<MsgBlock>, disconnected: seq<MsgBlock>, error: Option<NodeError>)
      requires Valid() && block.header.Hashable()
      modifies this, chain, store
      ensures Valid()
      ensures !connected ==> chain.Current() == old(chain.Current()) && added == [] && disconnected == []
      ensures connected ==>
        && error == None
        && Delta(old(chain.blocks), chain.blocks, disconnected, added)
        && |chain.blocks| > |old(chain.blocks)|
      ensures ConnectOutcome(chain.params, old(Present()), old(chain.Current()), old(sideBlocks), block, peerBest, now,
        connected, added, disconnected, error, Present(), chain.Current(), sideBlocks)
      ensures store == null ==> error != Some(StoreFailed)
    {
      hide Chain.Valid, PoolOk, HeightsDescend, FileOf, Params.WellFormed, Good, Linked,
        FindByHash, OrphanCandidate, SwitchDone, Delta, ValidateBlock, Progress, PrevOf, NoneWaiting, Parked,
        ExtendOutcome, SideOutcome, FitsBeside, NoneWaitsFor, Sound;
      ChainIsValid();
      chain.Shape();
      ghost var p, before, pool := chain.params, chain.Current(), sideBlocks;
      var height := chain.Height();
      if block.header.height <= height {
        var existing := chain.BlockByHeight(block.header.height);
        if existing.Some? && BlockHash(chain.params, existing.value.header) == BlockHash(chain.params, block.header) {
          return false, [], [], None;
        }
        connected, added, disconnected, error := ConnectSideBlock(block, now);
        SideDelta(p, before, pool, block, now, connected, added, disconnected, error, chain.Current(), sideBlocks);
        return;
      }
      var tip := chain.blocks[|chain.blocks| - 1].header;
      if block.header.prevBlock != BlockHash(chain.params, tip) || block.header.height != Wrap32(height + 1) {
        var prev := SideOrMainBlock(block.header.prevBlock);
        if prev.Some? {
          connected, added, disconnected, error := ConnectSideBlock(block, now);
          SideDelta(p, before, pool, block, now, connected, added, disconnected, error, chain.Current(), sideBlocks);
          return;
        }
        if !OrphanCandidate(chain.params, tip, block, now) {
          return false, [], [], Some(BadOrphan);
        }
        AddOrphan(block);
        return false, [], [], None;
      }
      var historical := peerBest.Some? && peerBest.value > height && block.header.height <= peerBest.value;
      connected, added, error := ExtendTip(block, historical, now);
      disconnected := [];
    }

    lemma ChainIsValid()
      requires Valid()
      ensures chain.Valid()
    {
    }

    lemma PrevIsHashable(hash: Hash)
      requires Valid()
      ensures var prev := PrevOf(chain.params, chain.Current(), sideBlocks, hash);
              prev.Some? ==> prev.value.header.Hashable() && BlockHash(chain.params, prev.value.header) == hash
    {
      hide Chain.Valid, FindByHash, Indexed, HeightsDescend, Params.WellFormed, Good, StoreAgrees,
        Linked;
      chain.Shape();
    }

    /** As long as no write has failed, loading the store gives back the node's chain, blocks and ledger. */
    lemma StoreReloads(now: int)
      requires Valid() && store != null && store.intact
      requires Faithful(store.codec) && AllFit(chain.blocks)
      requires BlockTime.MiningOpen(chain.params, now) || |chain.blocks| == 1
      ensures chain.params.WellFormed()
      ensures ScanFile(chain.params, store.codec, store.Content(), now) == Scan(chain.Current(), |chain.blocks| - 1)
      ensures |Lines(store.Content())| == |chain.blocks| - 1
    {
      hide Chain.Valid, PoolOk, HeightsDescend, Params.WellFormed, Good, Linked, Faithful,
        AllFit, FileOf, ScanFile, Lines;
      chain.Shape();
      LoadRestores(chain.params, store.codec, chain.Current(), now);
    }

    lemma PendingSplits(pending: set<Hash>, hashes: seq<Hash>, i: nat)
      requires i < |hashes|
      ensures pending + Elements(hashes[i..]) == pending + Elements(hashes[i + 1..]) + {hashes[i]}
    {
      assert hashes[i..] == [hashes[i]] + hashes[i + 1..];
    }

    lemma NoWalkYet(p: Params, pool: Pool, main: seq<MsgBlock>, tip: Hash)
      ensures Walk(p, pool, main, [], tip)
    {
    }

    lemma PoolIsKeyed(p: Params, pool: Pool, index: Index)
      requires PoolOk(p, pool, index, {})
      ensures Keyed(p, pool)
    {
      hide Keyed, Indexed;
    }

    lemma NoElements()
      ensures Elements<Hash>([]) == {}
    {
    }

    lemma ProgressBlocks(p: Params, before: Moment, after: Moment, connected: seq<MsgBlock>)
      requires Progress(p, before, after, connected)
      ensures after.blocks == before.blocks + connected
    {
      hide TakenFrom, SubPool;
    }

    lemma NothingReversed<T>()
      ensures Reversed<T>([]) == []
    {
    }

    lemma NoHashes(p: Params, pool: Pool)
      ensures pool == pool - Hashes(p, [])
    {
    }

    lemma RemoveOneMore(pool: Pool, gone: set<Hash>, h: Hash)
      requires h in pool && h !in gone
      ensures h in pool - gone && (pool - gone)[h] == pool[h]
      ensures pool - gone - {h} == pool - (gone + {h})
    {
    }

    lemma PruneStep(p: Params, pool: Pool, index: Index, main: seq<MsgBlock>, branch: seq<MsgBlock>, tip: Hash, i: nat)
      requires IsBranch(p, pool, main, branch, tip) && i < |branch|
      requires PoolOk(p, pool - Hashes(p, branch[..i]), index, {})
      ensures
        var h := BlockHash(p, branch[i].header);
        var prev := branch[i].header.prevBlock;
        var rest := Without(Children(index, prev), h);
        && pool - Hashes(p, branch[..i]) - {h} == pool - Hashes(p, branch[..i + 1])
        && PoolOk(p, pool - Hashes(p, branch[..i + 1]), if |rest| == 0 then index - {prev} else index[prev := rest], {})
    {
      hide PoolOk, IsBranch, Hashes, Without, Children;
      var h := BlockHash(p, branch[i].header);
      NextToPrune(p, pool, main, branch, tip, i);
      HashesSnoc(p, branch, i);
      RemoveOneMore(pool, Hashes(p, branch[..i]), h);
      OneLessCached(p, pool - Hashes(p, branch[..i]), index, h);
    }

    lemma WalkAtPrefix(rev: seq<MsgBlock>, tip: Hash, block: MsgBlock)
      ensures forall i :: 0 <= i <= |rev| ==> WalkAt(rev + [block], tip, i) == WalkAt(rev, tip, i)
    {
    }

    lemma DeclinesLowBranch(p: Params, s: State, branch: seq<MsgBlock>, now: int)
      requires p.WellFormed() && Good(p, s) && branch != []
      requires branch[|branch| - 1].header.height <= |s.blocks| - 1
      ensures !Reorganized(p, s, branch, now).Switched?
    {
      hide Params.WellFormed, Good, Reorganized;
      if Reorganized(p, s, branch, now).Switched? {
        SwitchReplacesTheTail(p, s, branch, now);
      }
    }

    lemma StandsUnderItsHash(p: Params, pool: Pool, index: Index, pending: set<Hash>, h: Hash)
      requires PoolOk(p, pool, index, pending) && h in pool
      ensures BlockHash(p, pool[h].header) == h && pool[h].header.Hashable()
    {
      hide Indexed;
    }
  }
}
