/**
 The validation rules of `internal/blockchain/chain.go` as functions: what every check decides, in the
 order in which the code makes them, and the ledger that results. The methods are in `Blockchain`.
 */
module Ledger {
  import opened Ints
  import opened WireTypes
  import opened ChainCfg
  import BlockTime
  import Subsidy
  import Compact
  import Asert
  import Merkle
  import Radix

  datatype UTXOEntry = UTXOEntry(txOut: TxOut, blockHeight: uint32, coinbase: bool)

  type View = map<OutPoint, UTXOEntry>

  datatype RuleError =
    | NoTransactions | WrongHeight | MiningClosed | WrongPrevBlock
    | TimestampMustIncrease | TimestampTooFar | WrongBits | WrongMerkleRoot
    | TargetNotPositive | TargetAboveLimit | HeaderHasNoHash | HashAboveTarget
    | NotCoinbase | ExtraCoinbase | TooFewCoinbaseOutputs
    | NoOutputs | NegativeOutput | OutputOverflow
    | MinerRewardOverflow | WrongMinerReward | WrongProjectSubsidy | RewardOverflow | WrongCoinbaseTotal
    | WrongProjectScript
    | NoInputs | DuplicateInput | MissingInput | ImmatureCoinbase | BadSignature | InputOverflow | InsufficientInput
    | FeeOverflow

  // ---- transactions ----

  /** Adds up the outputs from the i-th on. */
  function OutputsFrom(outs: seq<TxOut>, i: nat, total: Amount): Result<Amount, RuleError>
    requires i <= |outs|
    decreases |outs| - i
  {
    if i == |outs| then Ok(total)
    else if outs[i].value < 0 then Err(NegativeOutput)
    else if total > MAX_INT64 - outs[i].value then Err(OutputOverflow)
    else OutputsFrom(outs, i + 1, total + outs[i].value)
  }

  function CheckOutputs(tx: MsgTx): Result<Amount, RuleError> {
    if tx.txOut == [] then Err(NoOutputs) else OutputsFrom(tx.txOut, 0, 0)
  }

  predicate Immature(p: Params, entry: UTXOEntry, spendHeight: uint32) {
    entry.coinbase && spendHeight < Wrap32(entry.blockHeight + p.coinbaseMaturity)
  }

  /** What the inputs so far have paid in, and the view without them. */
  datatype Spending = Spending(total: Amount, view: View)

  /** Consumes the inputs from the i-th on. */
  function SpendFrom(p: Params, tx: MsgTx, i: nat, spent: set<OutPoint>, acc: Spending,
        spendHeight: uint32): Result<Spending, RuleError>
    requires i <= |tx.txIn|
    decreases |tx.txIn| - i
  {
    if i == |tx.txIn| then Ok(acc)
    else
      var outpoint := tx.txIn[i].previous;
      if outpoint in spent then Err(DuplicateInput)
      else if outpoint !in acc.view then Err(MissingInput)
      else
        var entry := acc.view[outpoint];
        if Immature(p, entry, spendHeight) then Err(ImmatureCoinbase)
        else if !p.crypto.verify(tx, i, entry.txOut.pkScript) then Err(BadSignature)
        else if acc.total > Wrap64(MAX_INT64 - entry.txOut.value) then Err(InputOverflow)
        else SpendFrom(p, tx, i + 1, spent + {outpoint},
          Spending(acc.total + entry.txOut.value, acc.view - {outpoint}), spendHeight)
  }

  function OutPointAt(p: Params, tx: MsgTx, i: nat): OutPoint {
    OutPoint(p.crypto.txHash(tx), Wrap32(i))
  }

  /** The view after the first `k` outputs of `tx` have been added; outputs of value zero are not kept. */
  function Connected(p: Params, tx: MsgTx, view: View, blockHeight: uint32, coinbase: bool, k: nat): View
    requires k <= |tx.txOut|
  {
    if k == 0 then view
    else
      var before := Connected(p, tx, view, blockHeight, coinbase, k - 1);
      var out := tx.txOut[k - 1];
      if out.value == 0 then before
      else before[OutPointAt(p, tx, k - 1) := UTXOEntry(out, blockHeight, coinbase)]
  }

  function ConnectOutputs(p: Params, tx: MsgTx, view: View, blockHeight: uint32, coinbase: bool): View {
    Connected(p, tx, view, blockHeight, coinbase, |tx.txOut|)
  }

  /** Fees collected so far, and the view. */
  datatype Regular = Regular(fees: Amount, view: View)

  function ConnectTx(p: Params, tx: MsgTx, view: View, spendHeight: uint32): Result<Regular, RuleError> {
    if tx.txIn == [] then Err(NoInputs)
    else
      match CheckOutputs(tx)
      case Err(e) => Err(e)
      case Ok(outputTotal) =>
        match SpendFrom(p, tx, 0, {}, Spending(0, view), spendHeight)
        case Err(e) => Err(e)
        case Ok(spending) =>
          if spending.total < outputTotal then Err(InsufficientInput)
          else Ok(Regular(spending.total - outputTotal, ConnectOutputs(p, tx, spending.view, spendHeight, false)))
  }

  /** Connects the regular transactions from the i-th on. */
  function ConnectRegularFrom(p: Params, txs: seq<MsgTx>, i: nat, acc: Regular,
        spendHeight: uint32): Result<Regular, RuleError>
    requires i <= |txs|
    decreases |txs| - i
  {
    if i == |txs| then Ok(acc)
    else if txs[i].IsCoinbase() then Err(ExtraCoinbase)
    else
      match ConnectTx(p, txs[i], acc.view, spendHeight)
      case Err(e) => Err(e)
      case Ok(one) =>
        if acc.fees > MAX_INT64 - one.fees then Err(FeeOverflow)
        else ConnectRegularFrom(p, txs, i + 1, Regular(acc.fees + one.fees, one.view), spendHeight)
  }

  function ConnectRegular(p: Params, txs: seq<MsgTx>, view: View, spendHeight: uint32): Result<Regular, RuleError> {
    ConnectRegularFrom(p, txs, 0, Regular(0, view), spendHeight)
  }

  predicate HasExtraCoinbase(txs: seq<MsgTx>) {
    exists i :: 1 <= i < |txs| && txs[i].IsCoinbase()
  }

  /** The rules for the first transaction of a block that collected `fees`. */
  function CheckCoinbase(p: Params, block: MsgBlock, fees: Amount): Option<RuleError>
    requires p.WellFormed()
  {
    if block.transactions == [] then Some(NoTransactions)
    else
      var coinbase := block.transactions[0];
      if !coinbase.IsCoinbase() then Some(NotCoinbase)
      else if HasExtraCoinbase(block.transactions) then Some(ExtraCoinbase)
      else if |coinbase.txOut| < 2 then Some(TooFewCoinbaseOutputs)
      else
        match CheckOutputs(coinbase)
        case Err(e) => Some(e)
        case Ok(total) =>
          var (minerSubsidy, projectSubsidy) := Subsidy.OneTimeSplit(p, block.header.height);
          var minerReward := Wrap64(minerSubsidy + fees);
          if minerReward < minerSubsidy then Some(MinerRewardOverflow)
          else if coinbase.txOut[0].value != minerReward then Some(WrongMinerReward)
          else if coinbase.txOut[1].value != projectSubsidy then Some(WrongProjectSubsidy)
          else
            var expectedTotal := Wrap64(minerReward + projectSubsidy);
            if expectedTotal < minerReward then Some(RewardOverflow)
            else if total != expectedTotal then Some(WrongCoinbaseTotal)
            else if coinbase.txOut[1].pkScript != p.projectPayoutScript then Some(WrongProjectScript)
            else None
  }

  /** The ledger after a block: regular transactions first, the coinbase last. */
  function ConnectBlock(p: Params, block: MsgBlock, view: View, height: uint32): Result<View, RuleError>
    requires p.WellFormed()
    requires block.transactions != []
  {
    match ConnectRegular(p, block.transactions[1..], view, height)
    case Err(e) => Err(e)
    case Ok(regular) =>
      match CheckCoinbase(p, block, regular.fees)
      case Some(e) => Err(e)
      case None => Ok(ConnectOutputs(p, block.transactions[0], regular.view, height, true))
  }

  // ---- headers ----

  function BlockHash(p: Params, h: BlockHeader): Hash {
    p.crypto.headerHash(h)
  }

  function HashToBig(h: Hash): nat {
    Radix.Value(256, h)
  }

  function CheckProofOfWork(p: Params, h: BlockHeader): Option<RuleError> {
    var target := Compact.CompactToBig(h.bits);
    if target <= 0 then Some(TargetNotPositive)
    else if target > p.powLimit then Some(TargetAboveLimit)
    else if !h.Hashable() then Some(HeaderHasNoHash)
    else if HashToBig(BlockHash(p, h)) > target then Some(HashAboveTarget)
    else None
  }

  function ExpectedBits(p: Params, prevTime: uint32, nextHeight: uint32): uint32
    requires p.WellFormed()
  {
    Asert.CalcASERTNextBits(p, p.genesisBlock.header.bits, p.genesisBlock.header.timestamp, prevTime, nextHeight)
  }

  /** The checks that come before the merkle root; `enforce` adds the limit on future times. */
  function CheckHeader(p: Params, tip: BlockHeader, h: BlockHeader, now: int, enforce: bool): Option<RuleError>
    requires p.WellFormed() && tip.Hashable()
  {
    if h.height != Wrap32(tip.height + 1) then Some(WrongHeight)
    else if !BlockTime.MiningOpen(p, now) then Some(MiningClosed)
    else if h.prevBlock != BlockHash(p, tip) then Some(WrongPrevBlock)
    else if !BlockTime.TimestampIncreases(tip.timestamp, h.timestamp) then Some(TimestampMustIncrease)
    else if enforce && !BlockTime.TimestampNotTooFar(p, tip.timestamp, h.timestamp, now) then Some(TimestampTooFar)
    else if h.bits != ExpectedBits(p, tip.timestamp, h.height) then Some(WrongBits)
    else None
  }

  /** The ledger that results from appending `block` to a chain with this tip and ledger, or the first rule broken. */
  function ValidateBlock(p: Params, tip: BlockHeader, utxos: View, block: MsgBlock, now: int,
        enforce: bool): Result<View, RuleError>
    requires p.WellFormed() && tip.Hashable()
  {
    if block.transactions == [] then Err(NoTransactions)
    else
      match CheckHeader(p, tip, block.header, now, enforce)
      case Some(e) => Err(e)
      case None =>
        if block.header.merkleRoot != Merkle.MerkleRoot(p.crypto, block.transactions) then Err(WrongMerkleRoot)
        else
          match CheckProofOfWork(p, block.header)
          case Some(e) => Err(e)
          case None => ConnectBlock(p, block, utxos, block.header.height)
  }

  // ---- chains ----

  /** What a node keeps: the blocks from genesis to tip, and the unspent outputs. */
  datatype State = State(blocks: seq<MsgBlock>, utxos: View)

  /** A header that may follow another, clock aside. */
  predicate HeaderFollows(p: Params, tip: BlockHeader, h: BlockHeader)
    requires p.WellFormed() && tip.Hashable()
  {
    && h.height == Wrap32(tip.height + 1)
    && h.prevBlock == BlockHash(p, tip)
    && h.timestamp > tip.timestamp
    && h.bits == ExpectedBits(p, tip.timestamp, h.height)
    && CheckProofOfWork(p, h) == None
  }

  predicate BlockFollows(p: Params, tip: BlockHeader, block: MsgBlock)
    requires p.WellFormed() && tip.Hashable()
  {
    && block.transactions != []
    && HeaderFollows(p, tip, block.header)
    && block.header.merkleRoot == Merkle.MerkleRoot(p.crypto, block.transactions)
  }

  /** The ledger got by connecting the blocks after genesis one by one, starting from nothing. */
  function Replay(p: Params, blocks: seq<MsgBlock>): Option<View>
    requires p.WellFormed()
  {
    if |blocks| <= 1 then Some(map[])
    else
      var last := blocks[|blocks| - 1];
      match Replay(p, blocks[..|blocks| - 1])
      case None => None
      case Some(view) =>
        if last.transactions == [] then None
        else
          match ConnectBlock(p, last, view, last.header.height)
          case Err(_) => None
          case Ok(next) => Some(next)
  }

  predicate Linked(p: Params, blocks: seq<MsgBlock>)
    requires p.WellFormed()
  {
    && blocks != []
    && blocks[0] == p.genesisBlock
    && (forall i :: 0 <= i < |blocks| ==> blocks[i].header.Hashable())
    && (forall i :: 1 <= i < |blocks| ==> BlockFollows(p, blocks[i - 1].header, blocks[i]))
  }

  /** A chain of blocks that follow one another from genesis, with the ledger of their replay. */
  predicate Good(p: Params, s: State)
    requires p.WellFormed()
  {
    Linked(p, s.blocks) && Replay(p, s.blocks) == Some(s.utxos)
  }

  function Genesis(p: Params): State {
    State([p.genesisBlock], map[])
  }

  function Tip(s: State): MsgBlock
    requires s.blocks != []
  {
    s.blocks[|s.blocks| - 1]
  }

  /** Appends a valid block; anything else leaves the state as it is. */
  function AddBlock(p: Params, s: State, block: MsgBlock, now: int, enforce: bool): (r: Result<State, RuleError>)
    requires p.WellFormed() && s.blocks != [] && Tip(s).header.Hashable()
    ensures r.Ok? ==> r.value.blocks == s.blocks + [block]
  {
    match ValidateBlock(p, Tip(s).header, s.utxos, block, now, enforce)
    case Err(e) => Err(e)
    case Ok(view) => Ok(State(s.blocks + [block], view))
  }
}
