/** Network parameters, and what the node relies on about them. Durations are in nanoseconds. */
module ChainCfg {
  import opened Ints
  import opened WireTypes

  const SECOND := 1_000_000_000

  datatype Params = Params(
    genesisBlock: MsgBlock,
    powLimit: nat,
    targetTimePerBlock: int64,
    asertHalfLife: int64,
    maxFutureBlockTime: int64,
    baseSubsidy: int64,
    mulSubsidy: int64,
    divSubsidy: int64,
    reductionInterval: int64,
    coinbaseMaturity: uint32,
    minerRewardPercent: int64,
    projectPayoutScript: seq<byte>,
    miningStartTime: int64,
    crypto: Crypto)
  {
    /** The subsidy shrinks at every reduction, and no product in the schedule leaves 64 bits. */
    predicate SubsidyShrinks() {
      && 0 <= baseSubsidy
      && 0 <= mulSubsidy < divSubsidy
      && 1 <= reductionInterval
      && baseSubsidy * mulSubsidy <= MAX_INT64
      && reductionInterval * divSubsidy * baseSubsidy <= MAX_INT64
      && 0 <= minerRewardPercent <= 100
      && baseSubsidy * minerRewardPercent <= MAX_INT64
    }

    /** The genesis block carries no coins and is old enough that heights stay far below 2^32. */
    predicate GenesisIsAnchor() {
      && genesisBlock.header.Hashable()
      && genesisBlock.header.height == 0
      && coinbaseMaturity <= genesisBlock.header.timestamp
      && |genesisBlock.transactions| == 1
      && genesisBlock.transactions[0].IsCoinbase()
      && forall i :: 0 <= i < |genesisBlock.transactions[0].txOut| ==>
        genesisBlock.transactions[0].txOut[i].value == 0
    }

    /** Hashes are 256-bit numbers, and so is the limit; block spacing is a matter of hours at most. */
    predicate DifficultyInRange() {
      && 0 < powLimit < Pow(256, 32)
      && targetTimePerBlock < 16384 * SECOND
    }

    predicate WellFormed() {
      && SubsidyShrinks()
      && GenesisIsAnchor()
      && DifficultyInRange()
    }
  }

  lemma GenesisFacts(p: Params)
    requires p.WellFormed()
    ensures p.genesisBlock.header.Hashable() && p.genesisBlock.header.height == 0
    ensures p.coinbaseMaturity <= p.genesisBlock.header.timestamp
  {
    hide Params.SubsidyShrinks, Params.DifficultyInRange;
  }

  /** The values that the main, test and simulation networks share are well-formed. */
  lemma SharedConstantsAreWellFormed(p: Params)
    requires p.targetTimePerBlock == 150 * SECOND
    requires p.powLimit == Pow(2, 224) - 1 || p.powLimit == Pow(2, 255) - 1
    requires p.baseSubsidy == 1_692_065_961 && p.mulSubsidy == 100 && p.divSubsidy == 101
    requires p.reductionInterval == 12_288 && p.minerRewardPercent == 95
    requires p.coinbaseMaturity == 100 || p.coinbaseMaturity == 2
    requires p.genesisBlock.header.timestamp == 1_780_304_400 && p.genesisBlock.header.height == 0
    requires exists script, scriptSig, prev ::
      p.genesisBlock.transactions ==
        [MsgTx(1, [TxIn(OutPoint(ZERO_HASH, MAX_UINT32), scriptSig, prev)], [TxOut(0, script)], 0)]
    ensures p.WellFormed()
  {
    assert p.SubsidyShrinks();
    hide Params.SubsidyShrinks;
    assert p.GenesisIsAnchor();
    hide Params.GenesisIsAnchor;
    LimitsAreHashes();
  }

  lemma LimitsAreHashes()
    ensures 1 < Pow(2, 224) < Pow(256, 32) && 1 < Pow(2, 255) < Pow(256, 32)
  {
    Pow256IsPow2(32);
    PowMonotone(2, 1, 224);
    PowMonotone(2, 224, 255);
    PowAdd(2, 255, 1);
    assert Pow(2, 1) == 2;
    hide Pow;
  }

  lemma {:induction false} Pow256IsPow2(k: nat)
    ensures Pow(256, k) == Pow(2, 8 * k)
  {
    if k > 0 {
      Pow256IsPow2(k - 1);
      PowAdd(2, 8, 8 * (k - 1));
      assert Pow(2, 8) == 256;
    }
  }
}
