/** `internal/blockchain/chain.go`: the chain object and its methods, proved against `Ledger` and `Runs`. */
module Blockchain {
  import opened Ints
  import opened WireTypes
  import opened ChainCfg
  import opened Ledger
  import opened ChainFacts
  import opened Runs
  import BlockTime
  import Compact
  import Conservation
  import Merkle
  import Subsidy

  // ---- validation loops ----

  method ValidateTxOutputs(tx: MsgTx) returns (r: Result<Amount, RuleError>)
    ensures r == CheckOutputs(tx)
  {
    if |tx.txOut| == 0 {
      return Err(NoOutputs);
    }
    var total: Amount := 0;
    for i := 0 to |tx.txOut|
      invariant OutputsFrom(tx.txOut, 0, 0) == OutputsFrom(tx.txOut, i, total)
    {
      var value := tx.txOut[i].value;
      if value < 0 {
        return Err(NegativeOutput);
      }
      if total > MAX_INT64 - value {
        return Err(OutputOverflow);
      }
      total := total + value;
    }
    r := Ok(total);
  }

  method ConnectTxOutputs(p: Params, tx: MsgTx, view: View, blockHeight: uint32, coinbase: bool) returns (next: View)
    ensures next == ConnectOutputs(p, tx, view, blockHeight, coinbase)
  {
    var txHash := p.crypto.txHash(tx);
    next := view;
    for i := 0 to |tx.txOut|
      invariant next == Connected(p, tx, view, blockHeight, coinbase, i)
    {
      if tx.txOut[i].value != 0 {
        next := next[OutPoint(txHash, Wrap32(i)) := UTXOEntry(tx.txOut[i], blockHeight, coinbase)];
      }
    }
  }

  method ValidateAndConnectRegularTx(p: Params, tx: MsgTx, view: View, spendHeight: uint32)
    returns (r: Result<Regular, RuleError>)
    ensures r == ConnectTx(p, tx, view, spendHeight)
  {
    hide OutputsFrom, ConnectOutputs, Wrap64;
    if |tx.txIn| == 0 {
      return Err(NoInputs);
    }
    var outputTotal := ValidateTxOutputs(tx);
    if outputTotal.Err? {
      return Err(outputTotal.error);
    }
    var spent: set<OutPoint> := {};
    var next := view;
    var inputTotal: Amount := 0;
    for i := 0 to |tx.txIn|
      invariant SpendFrom(p, tx, 0, {}, Spending(0, view), spendHeight) ==
        SpendFrom(p, tx, i, spent, Spending(inputTotal, next), spendHeight)
    {
      var outpoint := tx.txIn[i].previous;
      if outpoint in spent {
        return Err(DuplicateInput);
      }
      spent := spent + {outpoint};
      if outpoint !in next {
        return Err(MissingInput);
      }
      var prevOut := next[outpoint];
      if prevOut.coinbase && spendHeight < Wrap32(prevOut.blockHeight + p.coinbaseMaturity) {
        return Err(ImmatureCoinbase);
      }
      if !p.crypto.verify(tx, i, prevOut.txOut.pkScript) {
        return Err(BadSignature);
      }
      if inputTotal > Wrap64(MAX_INT64 - prevOut.txOut.value) {
        return Err(InputOverflow);
      }
      WrappedGuard(inputTotal, prevOut.txOut.value);
      inputTotal := inputTotal + prevOut.txOut.value;
      next := next - {outpoint};
    }
    if inputTotal < outputTotal.value {
      return Err(InsufficientInput);
    }
    var connected := ConnectTxOutputs(p, tx, next, spendHeight, false);
    r := Ok(Regular(inputTotal - outputTotal.value, connected));
  }

  /** The guard keeps the sum in 64 bits, whatever the sign of the value. */
  lemma WrappedGuard(total: Amount, value: int64)
    requires total <= Wrap64(MAX_INT64 - value)
    ensures 0 <= total + value <= MAX_INT64
  {
  }

  method ValidateRegularTransactions(p: Params, txs: seq<MsgTx>, view: View, spendHeight: uint32)
    returns (r: Result<Regular, RuleError>)
    ensures r == ConnectRegular(p, txs, view, spendHeight)
  {
    hide ConnectTx;
    var totalFees: Amount := 0;
    var next := view;
    for i := 0 to |txs|
      invariant ConnectRegularFrom(p, txs, 0, Regular(0, view), spendHeight) ==
        ConnectRegularFrom(p, txs, i, Regular(totalFees, next), spendHeight)
    {
      if txs[i].IsCoinbase() {
        return Err(ExtraCoinbase);
      }
      var one := ValidateAndConnectRegularTx(p, txs[i], next, spendHeight);
      if one.Err? {
        return Err(one.error);
      }
      if totalFees > MAX_INT64 - one.value.fees {
        return Err(FeeOverflow);
      }
      totalFees := totalFees + one.value.fees;
      next := one.value.view;
    }
    r := Ok(Regular(totalFees, next));
  }

  method CalcBlockOneTimeSplit(p: Params, height: uint32) returns (miner: int64, project: int64)
    requires p.WellFormed()
    ensures (miner, project) == Subsidy.OneTimeSplit(p, height)
  {
    var subsidy := Subsidy.CalcBlockSubsidy(p, height);
    Subsidy.ProductsFit(p, subsidy);
    miner := subsidy * p.minerRewardPercent / 100;
    project := subsidy - miner;
  }

  method ValidateAndConnectCoinbase(p: Params, block: MsgBlock, fees: Amount, view: View, blockHeight: uint32)
    returns (r: Result<View, RuleError>)
    requires p.WellFormed()
    ensures r ==
      match CheckCoinbase(p, block, fees)
      case Some(e) => Err(e)
      case None => Ok(ConnectOutputs(p, block.transactions[0], view, blockHeight, true))
  {
    hide Params.WellFormed, OutputsFrom, ConnectOutputs, Subsidy.OneTimeSplit, Wrap64, MsgTx.IsCoinbase;
    if |block.transactions| == 0 {
      return Err(NoTransactions);
    }
    var coinbase := block.transactions[0];
    if !coinbase.IsCoinbase() {
      return Err(NotCoinbase);
    }
    for i := 1 to |block.transactions|
      invariant forall j :: 1 <= j < i ==> !block.transactions[j].IsCoinbase()
    {
      if block.transactions[i].IsCoinbase() {
        return Err(ExtraCoinbase);
      }
    }
    if |coinbase.txOut| < 2 {
      return Err(TooFewCoinbaseOutputs);
    }
    var coinbaseTotal := ValidateTxOutputs(coinbase);
    if coinbaseTotal.Err? {
      return Err(coinbaseTotal.error);
    }
    var minerSubsidy, projectSubsidy := CalcBlockOneTimeSplit(p, block.header.height);
    var minerReward := Wrap64(minerSubsidy + fees);
    if minerReward < minerSubsidy {
      return Err(MinerRewardOverflow);
    }
    if coinbase.txOut[0].value != minerReward {
      return Err(WrongMinerReward);
    }
    if coinbase.txOut[1].value != projectSubsidy {
      return Err(WrongProjectSubsidy);
    }
    var expectedTotal := Wrap64(minerReward + projectSubsidy);
    if expectedTotal < minerReward {
      return Err(RewardOverflow);
    }
    if coinbaseTotal.value != expectedTotal {
      return Err(WrongCoinbaseTotal);
    }
    if coinbase.txOut[1].pkScript != p.projectPayoutScript {
      return Err(WrongProjectScript);
    }
    var next := ConnectTxOutputs(p, coinbase, view, blockHeight, true);
    r := Ok(next);
  }

  // ---- the chain object ----

  class Chain {
    const params: Params
    var blocks: seq<MsgBlock>
    var utxos: View

    /** The two fields as one value. */
    function Current(): State
      reads this
    {
      State(blocks, utxos)
    }

    /** The invariant: linked blocks from genesis, and the ledger of their replay. */
    ghost predicate Valid()
      reads this
    {
      params.WellFormed() && Good(params, Current())
    }

    constructor (params: Params)
      requires params.WellFormed()
      ensures Valid() && this.params == params && Current() == Genesis(params)
    {
      this.params := params;
      this.blocks := [params.genesisBlock];
      this.utxos := map[];
      new;
      GenesisIsGood(params);
    }

    lemma Shape()
      requires Valid()
      ensures params.WellFormed() && Good(params, Current()) && Linked(params, blocks)
      ensures blocks != [] && blocks[0] == params.genesisBlock
      ensures Tip(Current()).header.Hashable()
      ensures Tip(Current()).header.height == |blocks| - 1
      ensures forall i :: 0 <= i < |blocks| ==> blocks[i].header.Hashable() && blocks[i].header.height == i
    {
      hide Params.WellFormed, Replay, BlockFollows;
      GoodTip(params, Current());
      forall i | 0 <= i < |blocks|
        ensures blocks[i].header.height == i
      {
        HeightsArePositions(params, blocks, i);
      }
    }

    method Height() returns (height: uint32)
      requires Valid()
      ensures height == |blocks| - 1
    {
      Shape();
      height := blocks[|blocks| - 1].header.height;
    }

    method BlockByHeight(height: uint32) returns (r: Option<MsgBlock>)
      requires Valid()
      ensures r == if height < |blocks| then Some(blocks[height]) else None
    {
      if height >= |blocks| {
        return None;
      }
      r := Some(blocks[height]);
    }

    method BlockByHash(hash: Hash) returns (r: Option<MsgBlock>, ghost at: Option<nat>)
      requires Valid()
      ensures at == FindByHash(params, blocks, hash)
      ensures r == match FindByHash(params, blocks, hash) case None => None case Some(i) => Some(blocks[i])
    {
      hide Params.WellFormed, Good;
      at := None;
      for i := 0 to |blocks|
        invariant forall j :: 0 <= j < i ==> BlockHash(params, blocks[j].header) != hash
      {
        if BlockHash(params, blocks[i].header) == hash {
          FindByHashIs(params, blocks, hash, i);
          return Some(blocks[i]), Some(i);
        }
      }
      r := None;
    }

    method TotalSubsidy() returns (total: int64)
      requires Valid()
      ensures total == Conservation.TotalSubsidy(params, blocks)
      ensures Conservation.Sum(utxos) <= total <= Subsidy.TotalIssue(params)
    {
      hide Chain.Valid, Good, Linked, Conservation.Sum, Subsidy.TotalIssue, Subsidy.SupplyTo,
        Params.SubsidyShrinks, Params.DifficultyInRange, Params.GenesisIsAnchor, Conservation.AllPositive,
        Conservation.NeverRecreates;
      Shape();
      Conservation.ValueIsConserved(params, Current());
      Subsidy.SupplyBound(params, |blocks| - 1);
      Subsidy.IssueBound(params);
      assert blocks[..0] == [];
      assert params.SubsidyShrinks();
      total := 0;
      for i := 0 to |blocks|
        invariant total == Conservation.TotalSubsidy(params, blocks[..i])
      {
        NextTotal(params, blocks, i);
        var subsidy := Subsidy.CalcBlockSubsidy(params, blocks[i].header.height);
        total := total + subsidy;
      }
      assert blocks[..|blocks|] == blocks;
    }

    /** The entry at an outpoint, as `LookupUTXO` hands it out. */
    method LookupUTXO(outpoint: OutPoint) returns (r: Option<TxOut>)
      ensures r.Some? <==> outpoint in utxos
      ensures r.Some? ==> r.value == utxos[outpoint].txOut
    {
      if outpoint !in utxos {
        return None;
      }
      r := Some(utxos[outpoint].txOut);
    }

    method ValidateBlockAt(block: MsgBlock, now: int, enforceFutureLimit: bool) returns (r: Result<View, RuleError>)
      requires Valid()
      ensures blocks != [] && Tip(Current()).header.Hashable()
      ensures r == ValidateBlock(params, Tip(Current()).header, utxos, block, now, enforceFutureLimit)
    {
      Shape();
      hide Params.WellFormed, Good, Linked, ConnectRegular, CheckCoinbase, Merkle.MerkleRoot, Conservation.Sum;
      hide ExpectedBits, Compact.CompactToBig, HashToBig, BlockTime.MaxAllowedBlockTime;
      if |block.transactions| == 0 {
        return Err(NoTransactions);
      }
      var tip := blocks[|blocks| - 1].header;
      var expectedHeight := Wrap32(tip.height + 1);
      if block.header.height != expectedHeight {
        return Err(WrongHeight);
      }
      if !BlockTime.MiningOpen(params, now) {
        return Err(MiningClosed);
      }
      if block.header.prevBlock != BlockHash(params, tip) {
        return Err(WrongPrevBlock);
      }
      if enforceFutureLimit {
        if !BlockTime.TimestampIncreases(tip.timestamp, block.header.timestamp) {
          return Err(TimestampMustIncrease);
        }
        if !BlockTime.TimestampNotTooFar(params, tip.timestamp, block.header.timestamp, now) {
          return Err(TimestampTooFar);
        }
      } else if block.header.timestamp <= tip.timestamp {
        return Err(TimestampMustIncrease);
      }
      if block.header.bits != ExpectedBits(params, tip.timestamp, expectedHeight) {
        return Err(WrongBits);
      }
      var root := Merkle.CalcMerkleRoot(params.crypto, block.transactions);
      if block.header.merkleRoot != root {
        return Err(WrongMerkleRoot);
      }
      var work := CheckProofOfWork(params, block.header);
      if work.Some? {
        return Err(work.value);
      }
      var regular := ValidateRegularTransactions(params, block.transactions[1..], utxos, expectedHeight);
      if regular.Err? {
        return Err(regular.error);
      }
      r := ValidateAndConnectCoinbase(params, block, regular.value.fees, regular.value.view, expectedHeight);
    }

    /** Appends a valid block and its ledger, or leaves the chain untouched. */
    method AddBlock(block: MsgBlock, now: int) returns (r: Option<RuleError>)
      requires Valid()
      modifies this
      ensures Valid()
      ensures old(blocks != [] && Tip(Current()).header.Hashable())
      ensures match old(Ledger.AddBlock(params, Current(), block, now, true))
              case Err(e) => r == Some(e) && Current() == old(Current())
              case Ok(s) => r == None && Current() == s
      ensures Current() == old(Next(params, Current(), Add(block, now)))
    {
      hide Params.WellFormed, Good, ValidateBlock;
      var next := ValidateBlockAt(block, now, true);
      AddKeepsGood(params, Current(), block, now, true);
      if next.Err? {
        return Some(next.error);
      }
      blocks := blocks + [block];
      utxos := next.value;
      r := None;
    }

    /** The same without the limit on future times. */
    method AddStoredBlock(block: MsgBlock, now: int) returns (r: Option<RuleError>)
      requires Valid()
      modifies this
      ensures Valid()
      ensures old(blocks != [] && Tip(Current()).header.Hashable())
      ensures match old(Ledger.AddBlock(params, Current(), block, now, false))
              case Err(e) => r == Some(e) && Current() == old(Current())
              case Ok(s) => r == None && Current() == s
      ensures Current() == old(Next(params, Current(), AddStored(block, now)))
    {
      hide Params.WellFormed, Good, ValidateBlock;
      var next := ValidateBlockAt(block, now, false);
      AddKeepsGood(params, Current(), block, now, false);
      if next.Err? {
        return Some(next.error);
      }
      blocks := blocks + [block];
      utxos := next.value;
      r := None;
    }

    /** The fees that the transactions would pay in the next block, or why they cannot all go into it. */
    method CalcFees(txs: seq<MsgTx>) returns (r: Result<Amount, RuleError>)
      requires Valid()
      ensures r == Fees(params, Current(), txs)
    {
      Shape();
      hide Params.WellFormed, Good, ConnectRegular;
      var regular := ValidateRegularTransactions(params, txs, utxos, Wrap32(blocks[|blocks| - 1].header.height + 1));
      r := match regular case Err(e) => Err(e) case Ok(v) => Ok(v.fees);
    }

    /** The replay loop: adds blocks one by one and stops at the first that is refused. */
    method AddBlocks(more: seq<MsgBlock>, now: int) returns (r: Option<RuleError>)
      requires Valid()
      modifies this
      ensures Valid()
      ensures old(AddAll(params, Current(), more, now, true)).Err? ==>
        r == Some(old(AddAll(params, Current(), more, now, true)).error)
      ensures old(AddAll(params, Current(), more, now, true)).Ok? ==>
        r == None && Current() == old(AddAll(params, Current(), more, now, true)).value
    {
      hide Params.WellFormed, Good, Ledger.AddBlock, AddAll, Runs.Next;
      assert more[0..] == more;
      for i := 0 to |more|
        invariant Valid()
        invariant AddAll(params, Current(), more[i..], now, true) == old(AddAll(params, Current(), more, now, true))
      {
        assert more[i..][0] == more[i] && more[i..][1..] == more[i + 1..];
        AddAllStep(params, Current(), more[i..], now);
        var e := AddBlock(more[i], now);
        if e.Some? {
          return Some(e.value);
        }
      }
      assert more[|more|..] == [];
      AddAllNothing(params, Current(), now);
      r := None;
    }

    /** Builds the chain that the branch would lead to, on the side. */
    method ReorganizeCandidate(candidate: seq<MsgBlock>, now: int) returns (chain: Chain?, r: Reorg)
      requires Valid()
      ensures r == Reorganized(params, Current(), candidate, now)
      ensures r.Switched? ==> chain != null && fresh(chain) && chain.Current() == r.state
    {
      hide Chain.Valid, Params.WellFormed, Good, Linked, Ledger.AddBlock, AddAll, Runs.Next, FindByHash, Reorganized;
      Shape();
      GenesisIsGood(params);
      ReorganizedByCase(params, Current(), candidate, now);
      chain := null;
      if |candidate| == 0 {
        return null, Declined;
      }
      var first := candidate[0];
      var forkBlock, at := BlockByHash(first.header.prevBlock);
      if forkBlock.None? {
        return null, Failed(UnknownForkPoint);
      }
      var forkHeight: int := forkBlock.value.header.height;
      if first.header.height != Wrap32(forkHeight + 1) {
        return null, Failed(WrongStartHeight);
      }
      var height := Height();
      if candidate[|candidate| - 1].header.height <= height {
        return null, Declined;
      }
      var side := new Chain(params);
      var kept := blocks[1..forkHeight + 1];
      var replay := side.AddBlocks(kept, now);
      if replay.Some? {
        return null, Failed(Refused(replay.value));
      }
      var branch := side.AddBlocks(candidate, now);
      if branch.Some? {
        return null, Failed(Refused(branch.value));
      }
      chain := side;
      r := Switched(side.Current());
    }

    /** The blocks that a switch would lead to, without switching. */
    method ReorganizedBlocks(candidate: seq<MsgBlock>, now: int) returns (reorganized: seq<MsgBlock>, ok: bool,
          error: Option<ReorgError>)
      requires Valid()
      ensures match Reorganized(params, Current(), candidate, now)
              case Switched(s) => ok && error == None && reorganized == s.blocks
              case Declined => !ok && error == None
              case Failed(e) => !ok && error == Some(e)
    {
      hide Reorganized;
      var chain, outcome := ReorganizeCandidate(candidate, now);
      match outcome {
        case Declined => return [], false, None;
        case Failed(e) => return [], false, Some(e);
        case Switched(_) => return chain.blocks, true, None;
      }
    }

    /** Switches to the branch when it leads higher and everything on the way is valid; otherwise changes nothing. */
    method Reorganize(candidate: seq<MsgBlock>, now: int) returns (switched: bool, error: Option<ReorgError>)
      requires Valid()
      modifies this
      ensures Valid()
      ensures match old(Reorganized(params, Current(), candidate, now))
              case Switched(s) => switched && error == None && Current() == s
              case Declined => !switched && error == None && Current() == old(Current())
              case Failed(e) => !switched && error == Some(e) && Current() == old(Current())
      ensures Current() == old(Next(params, Current(), Runs.Reorganize(candidate, now)))
    {
      var chain, outcome := ReorganizeCandidate(candidate, now);
      hide Params.WellFormed, Good, Reorganized, Ledger.AddBlock;
      match outcome {
        case Declined => return false, None;
        case Failed(e) => return false, Some(e);
        case Switched(_) =>
          blocks := chain.blocks;
          utxos := chain.utxos;
          return true, None;
      }
    }
  }

  // ---- facts that the loops use ----

  lemma {:induction false} FindByHashIs(p: Params, blocks: seq<MsgBlock>, hash: Hash, i: nat)
    requires i < |blocks| && BlockHash(p, blocks[i].header) == hash
    requires forall j :: 0 <= j < i ==> BlockHash(p, blocks[j].header) != hash
    ensures FindByHash(p, blocks, hash) == Some(i)
  {
    if i > 0 {
      FindByHashIs(p, blocks[1..], hash, i - 1);
    }
  }

  lemma NextTotal(p: Params, blocks: seq<MsgBlock>, i: nat)
    requires p.WellFormed() && i < |blocks|
    ensures
      var next := Conservation.TotalSubsidy(p, blocks[..i]) + Subsidy.BlockSubsidy(p, blocks[i].header.height);
      Conservation.TotalSubsidy(p, blocks[..i + 1]) == next <= Conservation.TotalSubsidy(p, blocks)
  {
    hide Params.WellFormed, Subsidy.BlockSubsidy;
    PartialTotals(p, blocks, i + 1);
    assert blocks[..i + 1][..i] == blocks[..i];
  }

  lemma {:induction false} PartialTotals(p: Params, blocks: seq<MsgBlock>, n: nat)
    requires p.WellFormed() && n <= |blocks|
    ensures Conservation.TotalSubsidy(p, blocks[..n]) <= Conservation.TotalSubsidy(p, blocks)
    decreases |blocks|
  {
    hide Params.WellFormed, Subsidy.BlockSubsidy;
    if n < |blocks| {
      var front := blocks[..|blocks| - 1];
      PartialTotals(p, front, n);
      assert front[..n] == blocks[..n];
    } else {
      assert blocks[..n] == blocks;
    }
  }

  lemma AddAllStep(p: Params, s: State, blocks: seq<MsgBlock>, now: int)
    requires p.WellFormed() && Good(p, s) && blocks != []
    ensures s.blocks != [] && Tip(s).header.Hashable()
    ensures Ledger.AddBlock(p, s, blocks[0], now, true).Err? ==>
      AddAll(p, s, blocks, now, true) == Err(Ledger.AddBlock(p, s, blocks[0], now, true).error)
    ensures Ledger.AddBlock(p, s, blocks[0], now, true).Ok? ==>
      Good(p, Ledger.AddBlock(p, s, blocks[0], now, true).value)
    ensures Ledger.AddBlock(p, s, blocks[0], now, true).Ok? ==>
      AddAll(p, s, blocks, now, true) ==
        AddAll(p, Ledger.AddBlock(p, s, blocks[0], now, true).value, blocks[1..], now, true)
  {
    GoodTip(p, s);
    AddKeepsGood(p, s, blocks[0], now, true);
    hide Params.WellFormed, Good, Ledger.AddBlock;
  }

  lemma ReorganizedByCase(p: Params, s: State, candidate: seq<MsgBlock>, now: int)
    requires p.WellFormed() && Good(p, s)
    ensures s.blocks != [] && Good(p, Genesis(p))
    ensures candidate == [] ==> Reorganized(p, s, candidate, now) == Declined
    ensures candidate != [] ==>
      var fork := FindByHash(p, s.blocks, candidate[0].header.prevBlock);
      && (fork.None? ==> Reorganized(p, s, candidate, now) == Failed(UnknownForkPoint))
      && (fork.Some? && candidate[0].header.height != Wrap32(fork.value + 1) ==>
        Reorganized(p, s, candidate, now) == Failed(WrongStartHeight))
      && (fork.Some? && candidate[0].header.height == Wrap32(fork.value + 1) ==>
        if candidate[|candidate| - 1].header.height <= Tip(s).header.height
        then Reorganized(p, s, candidate, now) == Declined
        else Reorganized(p, s, candidate, now) == Replayed(p, s.blocks[1..fork.value + 1], candidate, now))
  {
    GoodTip(p, s);
    GenesisIsGood(p);
    hide Params.WellFormed, Good, AddAll, Ledger.AddBlock;
    if candidate != [] {
      var fork := FindByHash(p, s.blocks, candidate[0].header.prevBlock);
      if fork.Some? {
        AddAllAppend(p, Genesis(p), s.blocks[1..fork.value + 1], candidate, now, true);
      }
    }
  }

  /** The outcome of replaying the kept blocks and then the branch. */
  function Replayed(p: Params, kept: seq<MsgBlock>, candidate: seq<MsgBlock>, now: int): Reorg
    requires p.WellFormed() && Good(p, Genesis(p))
  {
    match AddAll(p, Genesis(p), kept, now, true)
    case Err(e) => Failed(Refused(e))
    case Ok(t) =>
      match AddAll(p, t, candidate, now, true)
      case Err(e) => Failed(Refused(e))
      case Ok(u) => Switched(u)
  }

  lemma AddAllNothing(p: Params, s: State, now: int)
    requires p.WellFormed() && Good(p, s)
    ensures AddAll(p, s, [], now, true) == Ok(s)
  {
  }

  /** The fees of a transaction list against the state of a chain. */
  function Fees(p: Params, s: State, txs: seq<MsgTx>): Result<Amount, RuleError>
    requires s.blocks != []
  {
    match ConnectRegular(p, txs, s.utxos, Wrap32(Tip(s).header.height + 1))
    case Err(e) => Err(e)
    case Ok(v) => Ok(v.fees)
  }
}
