/** What holds of every chain that validation built. */
module ChainFacts {
  import opened Ints
  import opened WireTypes
  import opened ChainCfg
  import opened Ledger
  import BlockTime

  /** Acceptance of a block, rule by rule, with the ledger that it leads to. */
  lemma AcceptanceRules(p: Params, tip: BlockHeader, utxos: View, block: MsgBlock, now: int, enforce: bool)
    requires p.WellFormed() && tip.Hashable()
    ensures ValidateBlock(p, tip, utxos, block, now, enforce).Ok? <==>
      && BlockTime.MiningOpen(p, now)
      && BlockFollows(p, tip, block)
      && (enforce ==> BlockTime.TimestampNotTooFar(p, tip.timestamp, block.header.timestamp, now))
      && ConnectBlock(p, block, utxos, block.header.height).Ok?
    ensures ValidateBlock(p, tip, utxos, block, now, enforce).Ok? ==>
      ValidateBlock(p, tip, utxos, block, now, enforce) == ConnectBlock(p, block, utxos, block.header.height)
  {
    hide ConnectBlock, CheckProofOfWork, ExpectedBits, Params.WellFormed;
  }

  lemma WorkMeansHashable(p: Params, h: BlockHeader)
    requires CheckProofOfWork(p, h) == None
    ensures h.Hashable()
  {
  }

  lemma ReplayStep(p: Params, blocks: seq<MsgBlock>, block: MsgBlock)
    requires p.WellFormed() && blocks != [] && block.transactions != []
    ensures Replay(p, blocks + [block]) ==
      match Replay(p, blocks)
      case None => None
      case Some(view) =>
        match ConnectBlock(p, block, view, block.header.height)
        case Err(_) => None
        case Ok(next) => Some(next)
  {
    hide ConnectBlock;
    assert (blocks + [block])[..|blocks|] == blocks;
  }

  lemma LinkedStep(p: Params, blocks: seq<MsgBlock>, block: MsgBlock)
    requires p.WellFormed() && Linked(p, blocks)
    requires BlockFollows(p, blocks[|blocks| - 1].header, block)
    ensures Linked(p, blocks + [block])
  {
    WorkMeansHashable(p, block.header);
    hide BlockFollows, Params.WellFormed;
    var all := blocks + [block];
    forall i | 1 <= i < |all|
      ensures BlockFollows(p, all[i - 1].header, all[i])
    {
      if i < |blocks| {
        assert all[i - 1] == blocks[i - 1] && all[i] == blocks[i];
      }
    }
  }

  lemma GenesisIsGood(p: Params)
    requires p.WellFormed()
    ensures Good(p, Genesis(p))
  {
  }

  lemma GoodTip(p: Params, s: State)
    requires p.WellFormed() && Good(p, s)
    ensures s.blocks != [] && s.blocks[0] == p.genesisBlock && Tip(s).header.Hashable()
    ensures Linked(p, s.blocks)
  {
    hide BlockFollows, Params.WellFormed, Replay;
  }

  /** Adding a block, with or without the limit on future times, keeps a chain good. */
  lemma AddKeepsGood(p: Params, s: State, block: MsgBlock, now: int, enforce: bool)
    requires p.WellFormed() && Good(p, s)
    ensures AddBlock(p, s, block, now, enforce).Ok? ==> Good(p, AddBlock(p, s, block, now, enforce).value)
  {
    AcceptanceRules(p, Tip(s).header, s.utxos, block, now, enforce);
    hide ValidateBlock, ConnectBlock, BlockFollows, Linked;
    assert Linked(p, s.blocks) && s.blocks != [];
    if AddBlock(p, s, block, now, enforce).Ok? {
      LinkedStep(p, s.blocks, block);
      FollowsHasTransactions(p, Tip(s).header, block);
      ReplayStep(p, s.blocks, block);
    }
  }

  lemma FollowsHasTransactions(p: Params, tip: BlockHeader, block: MsgBlock)
    requires p.WellFormed() && tip.Hashable() && BlockFollows(p, tip, block)
    ensures block.transactions != [] && HeaderFollows(p, tip, block.header)
  {
  }

  /** The ledger is a function of the blocks: however two nodes got to the same blocks, they agree. */
  lemma PathIndependence(p: Params, s: State, t: State)
    requires p.WellFormed() && Good(p, s) && Good(p, t)
    requires s.blocks == t.blocks
    ensures s == t
  {
    hide Replay;
  }

  lemma LinkedPrefix(p: Params, blocks: seq<MsgBlock>, n: nat)
    requires p.WellFormed() && Linked(p, blocks) && 0 < n <= |blocks|
    ensures Linked(p, blocks[..n])
  {
    hide BlockFollows, Params.WellFormed;
    var front := blocks[..n];
    forall i | 1 <= i < n
      ensures BlockFollows(p, front[i - 1].header, front[i])
    {
      assert front[i - 1] == blocks[i - 1] && front[i] == blocks[i];
    }
  }

  lemma {:induction false} ReplayPrefix(p: Params, blocks: seq<MsgBlock>, n: nat)
    requires p.WellFormed() && n <= |blocks| && Replay(p, blocks).Some?
    ensures Replay(p, blocks[..n]).Some?
    decreases |blocks|
  {
    hide ConnectBlock;
    if n < |blocks| {
      if |blocks| > 1 {
        var front := blocks[..|blocks| - 1];
        ReplayPrefix(p, front, n);
        assert front[..n] == blocks[..n];
      }
    } else {
      assert blocks[..n] == blocks;
    }
  }

  /** Every prefix of a good chain is itself a good chain. */
  function PrefixState(p: Params, s: State, n: nat): (t: State)
    requires p.WellFormed() && Good(p, s) && 0 < n <= |s.blocks|
    ensures Good(p, t) && t.blocks == s.blocks[..n]
  {
    LinkedPrefix(p, s.blocks, n);
    ReplayPrefix(p, s.blocks, n);
    State(s.blocks[..n], Replay(p, s.blocks[..n]).value)
  }

  lemma LinkedAt(p: Params, blocks: seq<MsgBlock>, i: nat)
    requires p.WellFormed() && Linked(p, blocks) && i < |blocks|
    ensures blocks[0] == p.genesisBlock && blocks[i].header.Hashable()
    ensures i > 0 ==>
      && blocks[i].header.height == Wrap32(blocks[i - 1].header.height + 1)
      && blocks[i].header.timestamp > blocks[i - 1].header.timestamp
  {
    hide Params.WellFormed, CheckProofOfWork, ExpectedBits;
    if i > 0 {
      assert BlockFollows(p, blocks[i - 1].header, blocks[i]);
    }
  }

  /**
   Heights never wrap: each block is at least a second later than the one before, and a block whose
   time does not fit 32 bits has no hash. So heights are positions, and a coinbase matures at a height
   that fits 32 bits too.
   */
  lemma {:induction false} HeightsArePositions(p: Params, blocks: seq<MsgBlock>, i: nat)
    requires p.WellFormed() && Linked(p, blocks) && i < |blocks|
    ensures blocks[i].header.height == i
    ensures blocks[i].header.timestamp >= p.genesisBlock.header.timestamp + i
    ensures i + p.coinbaseMaturity <= MAX_UINT32
  {
    hide Params.WellFormed, Linked;
    GenesisFacts(p);
    LinkedAt(p, blocks, i);
    if i > 0 {
      HeightsArePositions(p, blocks, i - 1);
    }
  }

  /** Another block always has a height of its own. */
  lemma NextHeight(p: Params, blocks: seq<MsgBlock>, h: BlockHeader)
    requires p.WellFormed() && Linked(p, blocks)
    requires h.height == Wrap32(blocks[|blocks| - 1].header.height + 1)
    requires h.timestamp > blocks[|blocks| - 1].header.timestamp && h.Hashable()
    ensures h.height == |blocks| <= MAX_UINT32
    ensures |blocks| + p.coinbaseMaturity <= MAX_UINT32
  {
    GenesisFacts(p);
    hide Params.WellFormed, BlockFollows;
    HeightsArePositions(p, blocks, |blocks| - 1);
  }

  lemma MaturityDoesNotWrap(p: Params, blocks: seq<MsgBlock>, entry: UTXOEntry, spendHeight: uint32)
    requires p.WellFormed() && Linked(p, blocks) && entry.blockHeight < |blocks|
    ensures Immature(p, entry, spendHeight) <==> entry.coinbase && spendHeight < entry.blockHeight + p.coinbaseMaturity
  {
    HeightsArePositions(p, blocks, entry.blockHeight);
  }

  /** A block that was once accepted on a chain is accepted there by the stored-block rules at any later time. */
  lemma AcceptedStaysStorable(p: Params, s: State, block: MsgBlock, now: int, enforce: bool, later: int)
    requires p.WellFormed() && Good(p, s) && now <= later
    requires AddBlock(p, s, block, now, enforce).Ok?
    ensures AddBlock(p, s, block, later, false) == AddBlock(p, s, block, now, enforce)
  {
    AcceptanceRules(p, Tip(s).header, s.utxos, block, now, enforce);
    AcceptanceRules(p, Tip(s).header, s.utxos, block, later, false);
    hide ValidateBlock, ConnectBlock, BlockFollows;
  }

  lemma HashableBlock(p: Params, s: State, n: nat)
    requires p.WellFormed() && Good(p, s) && n < |s.blocks|
    ensures s.blocks[n].header.Hashable()
  {
    hide Params.WellFormed, BlockFollows, Replay;
  }

  /** Each block of a good chain is accepted again, by the stored-block rules, on the chain before it. */
  lemma StoredAgain(p: Params, s: State, n: nat, now: int)
    requires p.WellFormed() && Good(p, s) && 1 <= n < |s.blocks|
    requires BlockTime.MiningOpen(p, now)
    ensures
      var t := PrefixState(p, s, n);
      t.blocks != [] && Tip(t).header.Hashable() &&
      AddBlock(p, t, s.blocks[n], now, false) == Ok(PrefixState(p, s, n + 1))
  {
    hide Params.WellFormed, Good, Replay, BlockFollows, ConnectBlock, ValidateBlock;
    var t, u := PrefixState(p, s, n), PrefixState(p, s, n + 1);
    var block := s.blocks[n];
    KeptBlock(p, s, n);
    FollowsHasTransactions(p, Tip(t).header, block);
    ReplayStep(p, t.blocks, block);
    AcceptanceRules(p, Tip(t).header, t.utxos, block, now, false);
  }

  lemma KeptBlock(p: Params, s: State, n: nat)
    requires p.WellFormed() && Good(p, s) && 1 <= n < |s.blocks|
    ensures
      var t, u := PrefixState(p, s, n), PrefixState(p, s, n + 1);
      && t.blocks != []
      && Tip(t).header.Hashable()
      && BlockFollows(p, Tip(t).header, s.blocks[n])
      && t.blocks + [s.blocks[n]] == u.blocks
      && Replay(p, t.blocks) == Some(t.utxos)
      && Replay(p, u.blocks) == Some(u.utxos)
  {
    hide Params.WellFormed, Replay, BlockFollows;
    var t, u := PrefixState(p, s, n), PrefixState(p, s, n + 1);
    GoodTip(p, t);
    assert Tip(t) == s.blocks[n - 1];
  }

  /**
   The full rules may reject later what they accepted before; they do so exactly when the time is then too
   far ahead.
   */
  lemma AcceptedAgainExactlyWhenNotTooFar(p: Params, s: State, block: MsgBlock, now: int, later: int)
    requires p.WellFormed() && Good(p, s) && now <= later
    requires AddBlock(p, s, block, now, true).Ok?
    ensures AddBlock(p, s, block, later, true).Ok? <==>
      BlockTime.TimestampNotTooFar(p, Tip(s).header.timestamp, block.header.timestamp, later)
  {
    AcceptanceRules(p, Tip(s).header, s.utxos, block, now, true);
    AcceptanceRules(p, Tip(s).header, s.utxos, block, later, true);
    hide ValidateBlock, ConnectBlock, BlockFollows;
  }

  lemma FirstThenRest<T>(a: seq<T>, b: seq<T>)
    requires b != []
    ensures a + [b[0]] + b[1..] == a + b
  {
  }

  /** Connecting blocks one after another, stopping at the first that is refused. */
  function AddAll(p: Params, s: State, blocks: seq<MsgBlock>, now: int, enforce: bool): (r: Result<State, RuleError>)
    requires p.WellFormed() && Good(p, s)
    ensures r.Ok? ==> Good(p, r.value) && r.value.blocks == s.blocks + blocks
    decreases |blocks|
  {
    if blocks == [] then Ok(s)
    else
      hide *;
      GoodTip(p, s);
      AddKeepsGood(p, s, blocks[0], now, enforce);
      FirstThenRest(s.blocks, blocks);
      match AddBlock(p, s, blocks[0], now, enforce)
      case Err(e) => Err(e)
      case Ok(t) =>
        AddAll(p, t, blocks[1..], now, enforce)
  }

  lemma {:induction false} AddAllAppend(p: Params, s: State, a: seq<MsgBlock>, b: seq<MsgBlock>, now: int,
        enforce: bool)
    requires p.WellFormed() && Good(p, s)
    ensures AddAll(p, s, a + b, now, enforce) ==
      match AddAll(p, s, a, now, enforce) case Err(e) => Err(e) case Ok(t) => AddAll(p, t, b, now, enforce)
    decreases |a|
  {
    GoodTip(p, s);
    hide AddBlock, Good, Params.WellFormed;
    if a == [] {
      assert a + b == b;
    } else {
      assert (a + b)[0] == a[0] && (a + b)[1..] == a[1..] + b;
      AddKeepsGood(p, s, a[0], now, enforce);
      match AddBlock(p, s, a[0], now, enforce) {
        case Err(_) =>
        case Ok(t) => AddAllAppend(p, t, a[1..], b, now, enforce);
      }
    }
  }

  /** From block `from` on, no time is further ahead than the clock allows after the block before. */
  predicate InTime(p: Params, blocks: seq<MsgBlock>, from: nat, now: int) {
    forall i :: from <= i < |blocks| && i > 0 ==> NotTooFar(p, blocks, i, now)
  }

  predicate NotTooFar(p: Params, blocks: seq<MsgBlock>, i: nat, now: int)
    requires 0 < i < |blocks|
  {
    BlockTime.TimestampNotTooFar(p, blocks[i - 1].header.timestamp, blocks[i].header.timestamp, now)
  }

  /** The full rules are the stored-block rules and the clock, which a block breaks with an error of its own. */
  lemma EnforcingAddsTheClock(p: Params, s: State, block: MsgBlock, now: int)
    requires p.WellFormed() && Good(p, s)
    ensures s.blocks != [] && Tip(s).header.Hashable()
    ensures AddBlock(p, s, block, now, true).Ok? <==>
      AddBlock(p, s, block, now, false).Ok? && NotTooFar(p, s.blocks + [block], |s.blocks|, now)
    ensures AddBlock(p, s, block, now, true).Ok? ==>
      AddBlock(p, s, block, now, true) == AddBlock(p, s, block, now, false)
    ensures AddBlock(p, s, block, now, false).Ok? && !NotTooFar(p, s.blocks + [block], |s.blocks|, now) ==>
      AddBlock(p, s, block, now, true) == Err(TimestampTooFar)
  {
    hide Params.WellFormed, Good, Linked, ConnectBlock, CheckProofOfWork, CheckHeader, BlockTime.TimestampNotTooFar;
    GoodTip(p, s);
    HeaderAndClock(p, Tip(s).header, block.header, now);
    assert (s.blocks + [block])[|s.blocks| - 1] == Tip(s);
  }

  lemma HeaderAndClock(p: Params, tip: BlockHeader, h: BlockHeader, now: int)
    requires p.WellFormed() && tip.Hashable()
    ensures CheckHeader(p, tip, h, now, true) == None <==>
      CheckHeader(p, tip, h, now, false) == None && BlockTime.TimestampNotTooFar(p, tip.timestamp, h.timestamp, now)
    ensures
      var inTime := BlockTime.TimestampNotTooFar(p, tip.timestamp, h.timestamp, now);
      CheckHeader(p, tip, h, now, false) == None && !inTime ==>
        CheckHeader(p, tip, h, now, true) == Some(TimestampTooFar)
  {
    hide Params.WellFormed, ExpectedBits, BlockTime.TimestampNotTooFar, BlockTime.MiningOpen;
  }

  /** So a list of blocks passes the full rules exactly when it can be stored and keeps to the clock throughout. */
  lemma {:induction false} ClockDecides(p: Params, s: State, blocks: seq<MsgBlock>, now: int)
    requires p.WellFormed() && Good(p, s) && AddAll(p, s, blocks, now, false).Ok?
    ensures s.blocks != []
    ensures InTime(p, s.blocks + blocks, |s.blocks|, now) ==>
      AddAll(p, s, blocks, now, true) == AddAll(p, s, blocks, now, false)
    ensures !InTime(p, s.blocks + blocks, |s.blocks|, now) ==> AddAll(p, s, blocks, now, true) == Err(TimestampTooFar)
    decreases |blocks|
  {
    hide Params.WellFormed, Good, AddBlock, NotTooFar;
    GoodTip(p, s);
    var all := s.blocks + blocks;
    if blocks != [] {
      var block, rest := blocks[0], blocks[1..];
      EnforcingAddsTheClock(p, s, block, now);
      AddKeepsGood(p, s, block, now, false);
      var t := AddBlock(p, s, block, now, false).value;
      ClockDecides(p, t, rest, now);
      FirstThenRest(s.blocks, blocks);
      SameStep(p, s.blocks + [block], all, |s.blocks|, now);
      InTimeSplits(p, all, |s.blocks|, now);
    }
  }

  lemma SameStep(p: Params, a: seq<MsgBlock>, b: seq<MsgBlock>, i: nat, now: int)
    requires 0 < i < |a| && a <= b
    ensures NotTooFar(p, a, i, now) <==> NotTooFar(p, b, i, now)
  {
  }

  lemma InTimeSplits(p: Params, blocks: seq<MsgBlock>, from: nat, now: int)
    requires 0 < from < |blocks|
    ensures InTime(p, blocks, from, now) <==> NotTooFar(p, blocks, from, now) && InTime(p, blocks, from + 1, now)
  {
    hide NotTooFar;
  }

  /** What the full rules accept can be stored as well. */
  lemma {:induction false} EnforcedIsStorable(p: Params, s: State, blocks: seq<MsgBlock>, now: int)
    requires p.WellFormed() && Good(p, s) && AddAll(p, s, blocks, now, true).Ok?
    ensures AddAll(p, s, blocks, now, false) == AddAll(p, s, blocks, now, true)
    decreases |blocks|
  {
    hide Params.WellFormed, Good, AddBlock, NotTooFar;
    GoodTip(p, s);
    if blocks != [] {
      EnforcingAddsTheClock(p, s, blocks[0], now);
      AddKeepsGood(p, s, blocks[0], now, true);
      EnforcedIsStorable(p, AddBlock(p, s, blocks[0], now, true).value, blocks[1..], now);
    }
  }

  /** The blocks of a chain, offered again from genesis by the stored-block rules, rebuild it once mining is open. */
  lemma {:induction false} KeptBlocksRebuild(p: Params, s: State, n: nat, now: int)
    requires p.WellFormed() && Good(p, s) && 1 <= n <= |s.blocks|
    requires BlockTime.MiningOpen(p, now) || n == 1
    ensures Good(p, Genesis(p)) && AddAll(p, Genesis(p), s.blocks[1..n], now, false) == Ok(PrefixState(p, s, n))
  {
    hide Params.WellFormed, Good, AddBlock, AddAll, Linked, Replay;
    GenesisIsGood(p);
    if n == 1 {
      GoodTip(p, s);
      NothingToAdd(p, Genesis(p), now, false);
      PathIndependence(p, PrefixState(p, s, 1), Genesis(p));
    } else {
      KeptBlocksRebuild(p, s, n - 1, now);
      StoredAgain(p, s, n - 1, now);
      var t := PrefixState(p, s, n - 1);
      assert s.blocks[1..n] == s.blocks[1..n - 1] + [s.blocks[n - 1]];
      AddAllAppend(p, Genesis(p), s.blocks[1..n - 1], [s.blocks[n - 1]], now, false);
      AddAllOne(p, t, s.blocks[n - 1], now, false);
    }
  }

  lemma NothingToAdd(p: Params, s: State, now: int, enforce: bool)
    requires p.WellFormed() && Good(p, s)
    ensures AddAll(p, s, [], now, enforce) == Ok(s)
  {
  }

  lemma AddAllOne(p: Params, s: State, block: MsgBlock, now: int, enforce: bool)
    requires p.WellFormed() && Good(p, s)
    ensures s.blocks != [] && Tip(s).header.Hashable()
    ensures AddAll(p, s, [block], now, enforce) == AddBlock(p, s, block, now, enforce)
  {
    GoodTip(p, s);
    AddKeepsGood(p, s, block, now, enforce);
    hide Params.WellFormed, Good, AddBlock;
    assert [block][1..] == [];
  }
}
