/** `internal/mining/miner.go`: block templates and the nonce search, against the rules that the chain applies. */
module Miner {
  import opened Ints
  import opened WireTypes
  import opened ChainCfg
  import opened Ledger
  import opened ChainFacts
  import opened Conservation
  import opened Blockchain
  import BlockTime
  import Merkle
  import Subsidy
  import WireCodec
  import WireIO

  datatype MiningError =
    | TimestampNotAfterTip
    | BadTransactions(error: RuleError)
    | NotSerializable
    | TooLarge
    | NonceSpaceExhausted

  const COINBASE_MESSAGE: seq<byte> := [0x50, 0x41, 0x43]

  function NewCoinbaseTx(height: uint32, message: seq<byte>, outputs: seq<TxOut>): (tx: MsgTx)
    ensures tx.IsCoinbase() && tx.txOut == outputs
  {
    MsgTx(1, [TxIn(OutPoint(ZERO_HASH, MAX_UINT32), WireCodec.LE(height, 4) + message, MAX_UINT32)], outputs, 0)
  }

  function EmptyHeader(): BlockHeader {
    BlockHeader(0, ZERO_HASH, ZERO_HASH, ZERO_HASH, 0, Zeros(6), 0, 0, 0, 0, 0, 0, 0, 0, 0, 0, Zeros(32), 0)
  }

  /** The length of a block's encoding, if it has one that fits 32 bits. */
  function SerializedSize(b: MsgBlock): Result<uint32, MiningError> {
    if !b.header.Hashable() || !WireCodec.BlockFits(b) then Err(NotSerializable)
    else if |WireCodec.BlockBytes(b)| > MAX_UINT32 then Err(TooLarge)
    else Ok(|WireCodec.BlockBytes(b)|)
  }

  method RefreshHeaderSize(b: MsgBlock) returns (r: Result<MsgBlock, MiningError>)
    ensures r == match SerializedSize(b)
                 case Err(e) => Err(e)
                 case Ok(size) => Ok(b.(header := b.header.(size := size)))
  {
    hide WireCodec.BlockBytes, WireCodec.BlockFits;
    // A slice of 2^64 elements does not exist, so this is only about the time.
    if !WireCodec.BlockFits(b) {
      return Err(NotSerializable);
    }
    var serialized := WireIO.SerializeBlock(b);
    if serialized.None? {
      return Err(NotSerializable);
    }
    if |serialized.value| > MAX_UINT32 {
      return Err(TooLarge);
    }
    r := Ok(b.(header := b.header.(size := |serialized.value|)));
  }

  /** The block before its size is filled in. */
  function Unsized(p: Params, s: State, minerScript: seq<byte>, timestamp: int64, txs: seq<MsgTx>,
        fees: Amount): MsgBlock
    requires p.WellFormed() && s.blocks != [] && Tip(s).header.Hashable()
  {
    var height := Wrap32(Tip(s).header.height + 1);
    var (minerSubsidy, projectSubsidy) := Subsidy.OneTimeSplit(p, height);
    var coinbase := NewCoinbaseTx(height, COINBASE_MESSAGE, [
      TxOut(Wrap64(minerSubsidy + fees), minerScript),
      TxOut(projectSubsidy, p.projectPayoutScript)]);
    var transactions := [coinbase] + txs;
    MsgBlock(
      EmptyHeader().(
        version := 1,
        prevBlock := BlockHash(p, Tip(s).header),
        timestamp := timestamp,
        bits := ExpectedBits(p, Tip(s).header.timestamp, height),
        height := height,
        merkleRoot := Merkle.MerkleRoot(p.crypto, transactions)),
      transactions)
  }

  function Candidate(p: Params, s: State, minerScript: seq<byte>, timestamp: int64,
        txs: seq<MsgTx>): Result<MsgBlock, MiningError>
    requires p.WellFormed() && s.blocks != [] && Tip(s).header.Hashable()
  {
    match Fees(p, s, txs)
    case Err(e) => Err(BadTransactions(e))
    case Ok(fees) =>
      var block := Unsized(p, s, minerScript, timestamp, txs, fees);
      match SerializedSize(block)
      case Err(e) => Err(e)
      case Ok(size) => Ok(block.(header := block.header.(size := size)))
  }

  function WithNonce(b: MsgBlock, nonce: uint32): MsgBlock {
    b.(header := b.header.(nonce := nonce))
  }

  predicate Solves(p: Params, b: MsgBlock, nonce: uint32) {
    CheckProofOfWork(p, WithNonce(b, nonce).header) == None
  }

  method NewCandidateWithTransactions(chain: Chain, minerScript: seq<byte>, timestamp: int64, txs: seq<MsgTx>)
    returns (r: Result<MsgBlock, MiningError>)
    requires chain.Valid()
    ensures chain.params.WellFormed() && chain.blocks != [] && Tip(chain.Current()).header.Hashable()
    ensures r == Candidate(chain.params, chain.Current(), minerScript, timestamp, txs)
  {
    hide Chain.Valid, Params.WellFormed, Good, Linked, Fees, SerializedSize, ExpectedBits, Merkle.MerkleRoot,
      Subsidy.OneTimeSplit, Subsidy.BlockSubsidy, Wrap64, NewCoinbaseTx, EmptyHeader, Zeros;
    chain.Shape();
    var tipHeight: int := chain.Height();
    var nextHeight := Wrap32(tipHeight + 1);
    var fees := chain.CalcFees(txs);
    if fees.Err? {
      return Err(BadTransactions(fees.error));
    }
    var minerSubsidy, projectSubsidy := CalcBlockOneTimeSplit(chain.params, nextHeight);
    var coinbase := NewCoinbaseTx(nextHeight, COINBASE_MESSAGE, [
      TxOut(Wrap64(minerSubsidy + fees.value), minerScript),
      TxOut(projectSubsidy, chain.params.projectPayoutScript)]);
    var tip := chain.blocks[|chain.blocks| - 1].header;
    var block := MsgBlock(
      EmptyHeader().(
        version := 1,
        prevBlock := BlockHash(chain.params, tip),
        timestamp := timestamp,
        bits := ExpectedBits(chain.params, tip.timestamp, nextHeight),
        height := nextHeight),
      [coinbase] + txs);
    var root := Merkle.CalcMerkleRoot(chain.params.crypto, block.transactions);
    block := block.(header := block.header.(merkleRoot := root));
    r := RefreshHeaderSize(block);
  }

  /** Tries nonces from zero on; a limit of zero means all of them. */
  method MineBlockWithTransactions(chain: Chain, minerScript: seq<byte>, timestamp: int64, txs: seq<MsgTx>,
        maxNonce: uint32)
    returns (r: Result<MsgBlock, MiningError>)
    requires chain.Valid()
    ensures chain.params.WellFormed() && Good(chain.params, chain.Current())
    ensures chain.blocks != [] && Tip(chain.Current()).header.Hashable()
    ensures
      var p, s := chain.params, chain.Current();
      var limit := if maxNonce == 0 then MAX_UINT32 else maxNonce;
      if timestamp <= Tip(s).header.timestamp then r == Err(TimestampNotAfterTip)
      else
        match Candidate(p, s, minerScript, timestamp, txs)
        case Err(e) => r == Err(e)
        case Ok(b) =>
          if r.Ok? then
            && r.value.header.nonce <= limit
            && r.value == WithNonce(b, r.value.header.nonce)
            && Solves(p, b, r.value.header.nonce)
            && forall n: uint32 :: n < r.value.header.nonce ==> !Solves(p, b, n)
          else
            && r.error == NonceSpaceExhausted
            && forall n: uint32 :: n <= limit ==> !Solves(p, b, n)
    ensures r.Ok? ==> forall now :: MinedVerdict(chain.params, chain.Current(), r.value, timestamp, now)
  {
    hide Good, Candidate, Ledger.AddBlock, CheckProofOfWork, Params.WellFormed, Linked, MinedVerdict;
    chain.Shape();
    if timestamp <= chain.blocks[|chain.blocks| - 1].header.timestamp {
      return Err(TimestampNotAfterTip);
    }
    var candidate := NewCandidateWithTransactions(chain, minerScript, timestamp, txs);
    if candidate.Err? {
      return Err(candidate.error);
    }
    var block := candidate.value;
    var limit := maxNonce;
    if limit == 0 {
      limit := MAX_UINT32;
    }
    var nonce: int := 0;
    while nonce <= limit
      invariant 0 <= nonce <= limit + 1
      invariant block.(header := block.header.(nonce := 0)) ==
        candidate.value.(header := candidate.value.header.(nonce := 0))
      invariant forall n: uint32 :: n < nonce ==> !Solves(chain.params, candidate.value, n)
    {
      block := WithNonce(block, nonce);
      assert block == WithNonce(candidate.value, nonce);
      if CheckProofOfWork(chain.params, block.header) == None {
        forall now
          ensures MinedVerdict(chain.params, chain.Current(), block, timestamp, now)
        {
          MinedBlockIsValid(chain.params, chain.Current(), minerScript, timestamp, txs, nonce, now);
        }
        return Ok(block);
      }
      if nonce == MAX_UINT32 {
        nonce := nonce + 1;
        break;
      }
      nonce := nonce + 1;
    }
    r := Err(NonceSpaceExhausted);
  }

  /** A stored block passes once mining is open, a fresh one also has to keep to the clock. */
  ghost predicate MinedVerdict(p: Params, s: State, block: MsgBlock, timestamp: int64, now: int)
    requires p.WellFormed() && s.blocks != [] && Tip(s).header.Hashable()
  {
    && (Ledger.AddBlock(p, s, block, now, false).Ok? <==> BlockTime.MiningOpen(p, now))
    && (Ledger.AddBlock(p, s, block, now, true).Ok? <==>
          BlockTime.MiningOpen(p, now) && BlockTime.TimestampNotTooFar(p, Tip(s).header.timestamp, timestamp, now))
  }

  lemma {:induction false} NoCoinbaseAmong(p: Params, txs: seq<MsgTx>, i: nat, acc: Regular, h: uint32)
    requires i <= |txs| && ConnectRegularFrom(p, txs, i, acc, h).Ok?
    ensures forall j :: i <= j < |txs| ==> !txs[j].IsCoinbase()
    decreases |txs| - i
  {
    hide ConnectTx, MsgTx.IsCoinbase;
    if i < |txs| {
      var one := ConnectTx(p, txs[i], acc.view, h).value;
      NoCoinbaseAmong(p, txs, i + 1, Regular(acc.fees + one.fees, one.view), h);
    }
  }

  /** Fees come out of the unspent outputs, so a reward of subsidy and fees fits 64 bits. */
  lemma FeesFit(p: Params, s: State, txs: seq<MsgTx>)
    requires p.WellFormed() && Good(p, s)
    ensures s.blocks != []
    ensures Fees(p, s, txs).Ok? ==> Fees(p, s, txs).value <= Sum(s.utxos) <= MAX_INT64 - p.baseSubsidy
  {
    hide Params.WellFormed, Good, Sum, ConnectRegularFrom, AllPositive;
    GoodTip(p, s);
    SupplyFits(p, s);
    ValueIsConserved(p, s);
    var h := Wrap32(Tip(s).header.height + 1);
    ConnectRegularSum(p, txs, 0, Regular(0, s.utxos), h);
    if Fees(p, s, txs).Ok? {
      SumNotNegative(ConnectRegular(p, txs, s.utxos, h).value.view);
    }
  }

  lemma TwoOutputs(a: TxOut, b: TxOut)
    requires a.value >= 0 && b.value >= 0 && a.value + b.value <= MAX_INT64
    ensures OutputsFrom([a, b], 0, 0) == Ok(a.value + b.value)
  {
    assert OutputsFrom([a, b], 2, a.value + b.value) == Ok(a.value + b.value);
  }

  lemma RewardFits(p: Params, height: uint32, fees: Amount)
    requires p.WellFormed() && fees <= MAX_INT64 - p.baseSubsidy
    ensures
      var (miner, project) := Subsidy.OneTimeSplit(p, height);
      && Wrap64(miner + fees) == miner + fees >= miner
      && miner + fees + project <= MAX_INT64
      && Wrap64(miner + fees + project) == miner + fees + project
  {
    SplitFits(p, height);
    assert p.SubsidyShrinks();
    var split := Subsidy.OneTimeSplit(p, height);
    var miner: int, project: int := split.0, split.1;
    hide *;
    WrapKeeps(miner + fees);
    WrapKeeps(miner + fees + project);
  }

  lemma WrapKeeps(x: int)
    requires 0 <= x <= MAX_INT64
    ensures Wrap64(x) == x
  {
  }

  /** A coinbase with these two outputs is the one that the chain demands. */
  lemma CoinbaseIsAsDemanded(p: Params, block: MsgBlock, minerScript: seq<byte>, fees: Amount)
    requires p.WellFormed() && fees <= MAX_INT64 - p.baseSubsidy
    requires block.transactions != [] && block.transactions[0].IsCoinbase() && !HasExtraCoinbase(block.transactions)
    requires
      var (miner, project) := Subsidy.OneTimeSplit(p, block.header.height);
      block.transactions[0].txOut == [TxOut(Wrap64(miner + fees), minerScript), TxOut(project, p.projectPayoutScript)]
    ensures CheckCoinbase(p, block, fees) == None
  {
    assert p.SubsidyShrinks();
    hide Params.WellFormed, Params.SubsidyShrinks, Subsidy.OneTimeSplit, OutputsFrom, MsgTx.IsCoinbase,
      HasExtraCoinbase, Wrap64;
    RewardFits(p, block.header.height, fees);
    var (miner, project) := Subsidy.OneTimeSplit(p, block.header.height);
    TwoOutputs(TxOut(Wrap64(miner + fees), minerScript), TxOut(project, p.projectPayoutScript));
  }

  lemma NoExtraCoinbase(first: MsgTx, txs: seq<MsgTx>)
    requires forall j :: 0 <= j < |txs| ==> !txs[j].IsCoinbase()
    ensures !HasExtraCoinbase([first] + txs)
  {
    hide MsgTx.IsCoinbase;
    assert forall i :: 1 <= i < |txs| + 1 ==> ([first] + txs)[i] == txs[i - 1];
  }

  /** Size and nonce play no part in what a block does to the ledger. */
  lemma LedgerIgnoresSizeAndNonce(p: Params, b: MsgBlock, view: View, size: uint32, nonce: uint32)
    requires p.WellFormed() && b.transactions != []
    ensures
      var c := b.(header := b.header.(size := size, nonce := nonce));
      ConnectBlock(p, c, view, c.header.height) == ConnectBlock(p, b, view, b.header.height)
  {
    hide Params.WellFormed, ConnectRegular, Subsidy.OneTimeSplit, CheckOutputs, HasExtraCoinbase, MsgTx.IsCoinbase,
      ConnectOutputs;
  }

  lemma UnsizedConnects(p: Params, s: State, minerScript: seq<byte>, timestamp: int64, txs: seq<MsgTx>, fees: Amount)
    requires p.WellFormed() && Good(p, s) && s.blocks != [] && Tip(s).header.Hashable()
    requires Fees(p, s, txs) == Ok(fees)
    ensures
      var b := Unsized(p, s, minerScript, timestamp, txs, fees);
      ConnectBlock(p, b, s.utxos, b.header.height).Ok?
  {
    hide Params.WellFormed, Good, ConnectRegularFrom, CheckCoinbase, Sum, ConnectOutputs, ExpectedBits,
      Merkle.MerkleRoot, Subsidy.OneTimeSplit;
    FeesFit(p, s, txs);
    NoCoinbaseAmong(p, txs, 0, Regular(0, s.utxos), Wrap32(Tip(s).header.height + 1));
    var block := Unsized(p, s, minerScript, timestamp, txs, fees);
    NoExtraCoinbase(block.transactions[0], txs);
    CoinbaseIsAsDemanded(p, block, minerScript, fees);
    assert block.transactions[1..] == txs;
  }

  /** Whatever the miner returns, the chain accepts: see `MinedVerdict` for when. */
  lemma MinedBlockIsValid(p: Params, s: State, minerScript: seq<byte>, timestamp: int64, txs: seq<MsgTx>,
        nonce: uint32, now: int)
    requires p.WellFormed() && Good(p, s) && s.blocks != [] && Tip(s).header.Hashable()
    requires timestamp > Tip(s).header.timestamp
    requires Candidate(p, s, minerScript, timestamp, txs).Ok?
    requires Solves(p, Candidate(p, s, minerScript, timestamp, txs).value, nonce)
    ensures MinedVerdict(p, s, WithNonce(Candidate(p, s, minerScript, timestamp, txs).value, nonce), timestamp, now)
  {
    hide Params.WellFormed, Good, Fees, SerializedSize, ConnectBlock, CheckProofOfWork, ExpectedBits,
      Merkle.MerkleRoot, Subsidy.OneTimeSplit, ValidateBlock;
    var fees := Fees(p, s, txs).value;
    var unsized := Unsized(p, s, minerScript, timestamp, txs, fees);
    var block := WithNonce(Candidate(p, s, minerScript, timestamp, txs).value, nonce);
    UnsizedConnects(p, s, minerScript, timestamp, txs, fees);
    LedgerIgnoresSizeAndNonce(p, unsized, s.utxos, block.header.size, nonce);
    AcceptanceRules(p, Tip(s).header, s.utxos, block, now, false);
    AcceptanceRules(p, Tip(s).header, s.utxos, block, now, true);
  }

  /** The size field of a mined block is the length of its own encoding. */
  lemma SizeFieldIsTheSize(p: Params, s: State, minerScript: seq<byte>, timestamp: int64, txs: seq<MsgTx>,
        nonce: uint32)
    requires p.WellFormed() && s.blocks != [] && Tip(s).header.Hashable()
    requires Candidate(p, s, minerScript, timestamp, txs).Ok?
    ensures
      var b := WithNonce(Candidate(p, s, minerScript, timestamp, txs).value, nonce);
      b.header.Hashable() && WireCodec.BlockFits(b) && b.header.size == |WireCodec.BlockBytes(b)|
  {
    hide Params.WellFormed, Fees, Unsized, WireCodec.TxsBytes, WireCodec.HeaderBytes, WireCodec.TxBytes;
  }
}
