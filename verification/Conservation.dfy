/** Coins are neither created nor lost: the unspent outputs against the subsidies paid. */
module Conservation {
  import opened Ints
  import opened WireTypes
  import opened ChainCfg
  import opened Ledger
  import opened ChainFacts
  import Subsidy
  import BlockTime

  // ---- sums over a ledger ----

  ghost function Sum(v: View): int {
    if v == map[] then 0
    else
      var k :| k in v;
      v[k].txOut.value + Sum(v - {k})
  }

  lemma {:induction false} SumSplit(v: View, k: OutPoint)
    requires k in v
    ensures Sum(v) == v[k].txOut.value + Sum(v - {k})
    decreases |v|
  {
    var j :| j in v && Sum(v) == v[j].txOut.value + Sum(v - {j});
    if j != k {
      SumSplit(v - {j}, k);
      SumSplit(v - {k}, j);
      assert v - {j} - {k} == v - {k} - {j};
    }
  }

  lemma SumUpdate(v: View, k: OutPoint, e: UTXOEntry)
    ensures Sum(v[k := e]) == e.txOut.value + Sum(v - {k})
    ensures k !in v ==> v - {k} == v
  {
    SumSplit(v[k := e], k);
    assert v[k := e] - {k} == v - {k};
  }

  /** Outputs of value zero are never kept. */
  ghost predicate AllPositive(v: View) {
    forall k :: k in v ==> v[k].txOut.value > 0
  }

  lemma {:induction false} SumNotNegative(v: View)
    requires AllPositive(v)
    ensures Sum(v) >= 0
    decreases |v|
  {
    if v != map[] {
      var j :| j in v && Sum(v) == v[j].txOut.value + Sum(v - {j});
      SumNotNegative(v - {j});
    }
  }

  // ---- outputs ----

  /** What the outputs from the i-th on are worth. */
  function ValueFrom(outs: seq<TxOut>, i: nat): int
    requires i <= |outs|
    decreases |outs| - i
  {
    if i == |outs| then 0 else outs[i].value + ValueFrom(outs, i + 1)
  }

  ghost predicate NoneNegative(outs: seq<TxOut>, i: nat) {
    forall j :: i <= j < |outs| ==> outs[j].value >= 0
  }

  lemma {:induction false} ValueNotNegative(outs: seq<TxOut>, i: nat)
    requires i <= |outs| && NoneNegative(outs, i)
    ensures ValueFrom(outs, i) >= 0
    decreases |outs| - i
  {
    if i < |outs| {
      ValueNotNegative(outs, i + 1);
    }
  }

  /** The output check passes exactly when no value is negative and their sum fits 64 bits, and gives that sum. */
  lemma {:induction false} OutputsFromMeaning(outs: seq<TxOut>, i: nat, total: Amount)
    requires i <= |outs|
    ensures OutputsFrom(outs, i, total).Ok? <==> NoneNegative(outs, i) && total + ValueFrom(outs, i) <= MAX_INT64
    ensures OutputsFrom(outs, i, total).Ok? ==> OutputsFrom(outs, i, total).value == total + ValueFrom(outs, i)
    decreases |outs| - i
  {
    if i < |outs| && outs[i].value >= 0 {
      if NoneNegative(outs, i) {
        ValueNotNegative(outs, i + 1);
      }
      if total + outs[i].value <= MAX_INT64 {
        OutputsFromMeaning(outs, i + 1, total + outs[i].value);
      }
    }
  }

  /** Some output of `tx` lands on an outpoint that the ledger still holds at that moment. */
  ghost predicate Recreates(p: Params, tx: MsgTx, view: View, h: uint32, cb: bool) {
    exists i :: 0 <= i < |tx.txOut| && tx.txOut[i].value != 0 &&
      OutPointAt(p, tx, i) in Connected(p, tx, view, h, cb, i)
  }

  ghost predicate RecreatesBefore(p: Params, tx: MsgTx, view: View, h: uint32, cb: bool, k: nat)
    requires k <= |tx.txOut|
  {
    exists i :: 0 <= i < k && tx.txOut[i].value != 0 && OutPointAt(p, tx, i) in Connected(p, tx, view, h, cb, i)
  }

  lemma {:induction false} ConnectedSum(p: Params, tx: MsgTx, view: View, h: uint32, cb: bool, k: nat)
    requires k <= |tx.txOut| && NoneNegative(tx.txOut, 0) && AllPositive(view)
    ensures
      var after := Connected(p, tx, view, h, cb, k);
      && AllPositive(after)
      && Sum(after) <= Sum(view) + ValueFrom(tx.txOut, 0) - ValueFrom(tx.txOut, k)
      && (Sum(after) == Sum(view) + ValueFrom(tx.txOut, 0) - ValueFrom(tx.txOut, k)
          <==> !RecreatesBefore(p, tx, view, h, cb, k))
  {
    hide Sum, AllPositive;
    if k > 0 {
      ConnectedSum(p, tx, view, h, cb, k - 1);
      var before := Connected(p, tx, view, h, cb, k - 1);
      var out := tx.txOut[k - 1];
      assert ValueFrom(tx.txOut, k - 1) == out.value + ValueFrom(tx.txOut, k);
      RecreatesStep(p, tx, view, h, cb, k);
      hide RecreatesBefore, ValueFrom;
      if out.value != 0 {
        PutSum(before, OutPointAt(p, tx, k - 1), UTXOEntry(out, h, cb));
      }
    }
  }

  lemma RecreatesStep(p: Params, tx: MsgTx, view: View, h: uint32, cb: bool, k: nat)
    requires 0 < k <= |tx.txOut|
    ensures RecreatesBefore(p, tx, view, h, cb, k) <==>
      || RecreatesBefore(p, tx, view, h, cb, k - 1)
      || (tx.txOut[k - 1].value != 0 && OutPointAt(p, tx, k - 1) in Connected(p, tx, view, h, cb, k - 1))
  {
    hide Connected;
  }

  lemma PutSum(view: View, op: OutPoint, e: UTXOEntry)
    requires AllPositive(view) && e.txOut.value > 0
    ensures AllPositive(view[op := e])
    ensures Sum(view[op := e]) <= Sum(view) + e.txOut.value
    ensures Sum(view[op := e]) == Sum(view) + e.txOut.value <==> op !in view
  {
    SumUpdate(view, op, e);
    if op in view {
      SumSplit(view, op);
    }
  }

  lemma ConnectOutputsSum(p: Params, tx: MsgTx, view: View, h: uint32, cb: bool)
    requires NoneNegative(tx.txOut, 0) && AllPositive(view)
    ensures
      var after := ConnectOutputs(p, tx, view, h, cb);
      && AllPositive(after)
      && Sum(after) <= Sum(view) + ValueFrom(tx.txOut, 0)
      && (Sum(after) == Sum(view) + ValueFrom(tx.txOut, 0) <==> !Recreates(p, tx, view, h, cb))
  {
    ConnectedSum(p, tx, view, h, cb, |tx.txOut|);
  }

  // ---- transactions ----

  /** What the inputs take out of the ledger is what they count as paid in. */
  lemma WithoutOne(v: View, k: OutPoint)
    requires AllPositive(v) && k in v
    ensures Sum(v) == v[k].txOut.value + Sum(v - {k}) && Sum(v - {k}) >= 0 && AllPositive(v - {k})
    ensures v[k].txOut.value > 0
  {
    SumSplit(v, k);
    SumNotNegative(v - {k});
  }

  lemma {:induction false} SpendingSum(p: Params, tx: MsgTx, i: nat, spent: set<OutPoint>, acc: Spending, h: uint32)
    requires i <= |tx.txIn| && AllPositive(acc.view)
    ensures
      var r := SpendFrom(p, tx, i, spent, acc, h);
      r.Ok? ==> AllPositive(r.value.view) && Sum(r.value.view) + r.value.total == Sum(acc.view) + acc.total
    ensures Sum(acc.view) + acc.total <= MAX_INT64 ==> SpendFrom(p, tx, i, spent, acc, h) != Err(InputOverflow)
    decreases |tx.txIn| - i
  {
    hide AllPositive, Sum, Immature;
    if i < |tx.txIn| {
      var op := tx.txIn[i].previous;
      if op !in spent && op in acc.view {
        var entry := acc.view[op];
        WithoutOne(acc.view, op);
        if !Immature(p, entry, h) && p.crypto.verify(tx, i, entry.txOut.pkScript) &&
          acc.total <= MAX_INT64 - entry.txOut.value {
          SpendingSum(p, tx, i + 1, spent + {op}, Spending(acc.total + entry.txOut.value, acc.view - {op}), h);
        }
      }
    }
  }

  lemma CheckedOutputs(tx: MsgTx)
    requires CheckOutputs(tx).Ok?
    ensures NoneNegative(tx.txOut, 0) && CheckOutputs(tx).value == ValueFrom(tx.txOut, 0)
  {
    OutputsFromMeaning(tx.txOut, 0, 0);
  }

  ghost predicate TxRecreates(p: Params, tx: MsgTx, view: View, h: uint32) {
    var r := SpendFrom(p, tx, 0, {}, Spending(0, view), h);
    r.Ok? && Recreates(p, tx, r.value.view, h, false)
  }

  /** A regular transaction moves value from inputs to outputs and fee; none appears. */
  lemma ConnectTxSum(p: Params, tx: MsgTx, view: View, h: uint32)
    requires AllPositive(view) && ConnectTx(p, tx, view, h).Ok?
    ensures
      var one := ConnectTx(p, tx, view, h).value;
      && AllPositive(one.view)
      && Sum(one.view) + one.fees <= Sum(view)
      && (Sum(one.view) + one.fees == Sum(view) <==> !TxRecreates(p, tx, view, h))
  {
    CheckedOutputs(tx);
    SpendingSum(p, tx, 0, {}, Spending(0, view), h);
    var spending := SpendFrom(p, tx, 0, {}, Spending(0, view), h).value;
    ConnectOutputsSum(p, tx, spending.view, h, false);
    hide SpendFrom, CheckOutputs, ConnectOutputs, Sum, ValueFrom, Recreates;
  }

  ghost predicate RegularRecreates(p: Params, txs: seq<MsgTx>, i: nat, view: View, h: uint32)
    requires i <= |txs|
    decreases |txs| - i
  {
    i < |txs| && ConnectTx(p, txs[i], view, h).Ok? &&
    (TxRecreates(p, txs[i], view, h) || RegularRecreates(p, txs, i + 1, ConnectTx(p, txs[i], view, h).value.view, h))
  }

  lemma {:induction false} ConnectRegularSum(p: Params, txs: seq<MsgTx>, i: nat, acc: Regular, h: uint32)
    requires i <= |txs| && AllPositive(acc.view)
    ensures
      var r := ConnectRegularFrom(p, txs, i, acc, h);
      r.Ok? ==>
        && AllPositive(r.value.view)
        && Sum(r.value.view) + r.value.fees <= Sum(acc.view) + acc.fees
        && (Sum(r.value.view) + r.value.fees == Sum(acc.view) + acc.fees <==> !RegularRecreates(p, txs, i, acc.view, h))
    ensures Sum(acc.view) + acc.fees <= MAX_INT64 ==>
      ConnectRegularFrom(p, txs, i, acc, h) != Err(InputOverflow) &&
        ConnectRegularFrom(p, txs, i, acc, h) != Err(FeeOverflow)
    decreases |txs| - i
  {
    hide ConnectTx, TxRecreates, Sum;
    if i < |txs| && !txs[i].IsCoinbase() {
      NoInputOverflow(p, txs[i], acc.view, h);
      match ConnectTx(p, txs[i], acc.view, h) {
        case Err(_) =>
        case Ok(one) =>
          ConnectTxSum(p, txs[i], acc.view, h);
          SumNotNegative(one.view);
          if acc.fees <= MAX_INT64 - one.fees {
            ConnectRegularSum(p, txs, i + 1, Regular(acc.fees + one.fees, one.view), h);
          }
      }
    }
  }

  lemma NoInputOverflow(p: Params, tx: MsgTx, view: View, h: uint32)
    requires AllPositive(view)
    ensures Sum(view) <= MAX_INT64 ==> ConnectTx(p, tx, view, h) != Err(InputOverflow)
    ensures ConnectTx(p, tx, view, h) != Err(FeeOverflow)
  {
    SpendingSum(p, tx, 0, {}, Spending(0, view), h);
    OutputErrors(tx.txOut, 0, 0);
    SpendErrors(p, tx, 0, {}, Spending(0, view), h);
    hide SpendFrom, Sum;
  }

  lemma {:induction false} OutputErrors(outs: seq<TxOut>, i: nat, total: Amount)
    requires i <= |outs|
    ensures var r := OutputsFrom(outs, i, total); r.Ok? || r == Err(NegativeOutput) || r == Err(OutputOverflow)
    decreases |outs| - i
  {
    if i < |outs| && outs[i].value >= 0 && total <= MAX_INT64 - outs[i].value {
      OutputErrors(outs, i + 1, total + outs[i].value);
    }
  }

  lemma {:induction false} SpendErrors(p: Params, tx: MsgTx, i: nat, spent: set<OutPoint>, acc: Spending, h: uint32)
    requires i <= |tx.txIn|
    ensures var r := SpendFrom(p, tx, i, spent, acc, h);
      r.Ok? || r.error in {DuplicateInput, MissingInput, ImmatureCoinbase, BadSignature, InputOverflow}
    decreases |tx.txIn| - i
  {
    if i < |tx.txIn| {
      var op := tx.txIn[i].previous;
      if op !in spent && op in acc.view {
        var entry := acc.view[op];
        if acc.total <= Wrap64(MAX_INT64 - entry.txOut.value) {
          SpendErrors(p, tx, i + 1, spent + {op}, Spending(acc.total + entry.txOut.value, acc.view - {op}), h);
        }
      }
    }
  }

  // ---- blocks ----

  /** The guards against wrap-around see it exactly when the sum leaves 64 bits. */
  lemma WrapGuard(a: int, b: int)
    requires 0 <= a <= MAX_INT64 && 0 <= b <= MAX_INT64
    ensures Wrap64(a + b) >= a <==> a + b <= MAX_INT64
    ensures a + b <= MAX_INT64 ==> Wrap64(a + b) == a + b
  {
  }

  /** A coinbase that passes pays out exactly the subsidy and the fees. */
  lemma CoinbasePays(p: Params, block: MsgBlock, fees: Amount)
    requires p.WellFormed() && CheckCoinbase(p, block, fees) == None
    ensures block.transactions != [] && |block.transactions[0].txOut| >= 2
    ensures NoneNegative(block.transactions[0].txOut, 0)
    ensures ValueFrom(block.transactions[0].txOut, 0) == Subsidy.BlockSubsidy(p, block.header.height) + fees
    ensures block.transactions[0].txOut[1].value == Subsidy.OneTimeSplit(p, block.header.height).1
    ensures block.transactions[0].txOut[0].value == Subsidy.OneTimeSplit(p, block.header.height).0 + fees
  {
    hide Params.WellFormed, Params.SubsidyShrinks, CheckOutputs, ValueFrom, HasExtraCoinbase, Subsidy.OneTimeSplit,
      Subsidy.BlockSubsidy, Wrap64, MsgTx.IsCoinbase, NoneNegative;
    CheckedOutputs(block.transactions[0]);
    ShrinksWithin(p);
    var split := Subsidy.OneTimeSplit(p, block.header.height);
    WrapGuard(split.0, fees);
    if split.0 + fees <= MAX_INT64 {
      WrapGuard(split.0 + fees, split.1);
    }
  }

  ghost predicate BlockRecreates(p: Params, block: MsgBlock, view: View)
    requires block.transactions != []
  {
    var h := block.header.height;
    var r := ConnectRegular(p, block.transactions[1..], view, h);
    || RegularRecreates(p, block.transactions[1..], 0, view, h)
    || (r.Ok? && Recreates(p, block.transactions[0], r.value.view, h, true))
  }

  lemma ConnectBlockSum(p: Params, block: MsgBlock, view: View)
    requires p.WellFormed() && block.transactions != [] && AllPositive(view)
    requires ConnectBlock(p, block, view, block.header.height).Ok?
    ensures
      var after := ConnectBlock(p, block, view, block.header.height).value;
      && AllPositive(after)
      && Sum(after) <= Sum(view) + Subsidy.BlockSubsidy(p, block.header.height)
      && (Sum(after) == Sum(view) + Subsidy.BlockSubsidy(p, block.header.height) <==> !BlockRecreates(p, block, view))
  {
    var h := block.header.height;
    var regular := ConnectRegular(p, block.transactions[1..], view, h).value;
    ConnectRegularSum(p, block.transactions[1..], 0, Regular(0, view), h);
    CoinbasePays(p, block, regular.fees);
    ConnectOutputsSum(p, block.transactions[0], regular.view, h, true);
    hide Params.WellFormed, ConnectRegularFrom, CheckCoinbase, ConnectOutputs, Sum, ValueFrom, Recreates,
      RegularRecreates;
  }

  // ---- chains ----

  /** No block of the chain puts an output where an unspent one still stands. */
  ghost predicate NeverRecreates(p: Params, blocks: seq<MsgBlock>)
    requires p.WellFormed() && Replay(p, blocks).Some?
  {
    |blocks| <= 1 || (
      var front, last := blocks[..|blocks| - 1], blocks[|blocks| - 1];
      NeverRecreates(p, front) && !BlockRecreates(p, last, Replay(p, front).value))
  }

  /** The subsidies of a chain, block by block, as TotalSubsidy adds them up. */
  function TotalSubsidy(p: Params, blocks: seq<MsgBlock>): nat
    requires p.WellFormed()
  {
    if blocks == [] then 0
    else TotalSubsidy(p, blocks[..|blocks| - 1]) + Subsidy.BlockSubsidy(p, blocks[|blocks| - 1].header.height)
  }

  lemma {:induction false} ReplaySum(p: Params, blocks: seq<MsgBlock>)
    requires p.WellFormed() && Linked(p, blocks) && Replay(p, blocks).Some?
    ensures AllPositive(Replay(p, blocks).value)
    ensures Sum(Replay(p, blocks).value) <= TotalSubsidy(p, blocks)
    ensures Sum(Replay(p, blocks).value) == TotalSubsidy(p, blocks) <==> NeverRecreates(p, blocks)
    ensures TotalSubsidy(p, blocks) == Subsidy.SupplyTo(p, |blocks| - 1)
    decreases |blocks|
  {
    hide Params.WellFormed, ConnectBlock, Sum, BlockRecreates, Subsidy.BlockSubsidy, BlockFollows, AllPositive;
    LinkedNonempty(p, blocks);
    HeightsArePositions(p, blocks, |blocks| - 1);
    var front, last := blocks[..|blocks| - 1], blocks[|blocks| - 1];
    if |blocks| > 1 {
      LinkedPrefix(p, blocks, |blocks| - 1);
      hide Linked;
      ReplaySum(p, front);
      ConnectBlockSum(p, last, Replay(p, front).value);
    } else {
      assert front == [];
      NoSubsidyAtGenesis(p);
    }
  }

  lemma LinkedNonempty(p: Params, blocks: seq<MsgBlock>)
    requires p.WellFormed() && Linked(p, blocks)
    ensures blocks != []
  {
    hide BlockFollows, Params.WellFormed;
  }

  lemma NoSubsidyAtGenesis(p: Params)
    requires p.WellFormed()
    ensures Subsidy.BlockSubsidy(p, 0) == 0 && Sum(map[]) == 0 && AllPositive(map[])
  {
  }

  /**
   Conservation. The unspent outputs of a chain never exceed the subsidies paid by its blocks, and equal
   them exactly while no block re-creates an outpoint that is still unspent.
   */
  lemma ValueIsConserved(p: Params, s: State)
    requires p.WellFormed() && Good(p, s)
    ensures Sum(s.utxos) <= TotalSubsidy(p, s.blocks) == Subsidy.SupplyTo(p, |s.blocks| - 1)
    ensures Sum(s.utxos) == TotalSubsidy(p, s.blocks) <==> NeverRecreates(p, s.blocks)
    ensures AllPositive(s.utxos)
  {
    GoodTip(p, s);
    hide Linked, Params.WellFormed, Sum;
    ReplaySum(p, s.blocks);
  }

  /** No chain ever holds more coins than the whole issue, which fits 64 bits with a subsidy to spare. */
  lemma SupplyFits(p: Params, s: State)
    requires p.WellFormed() && Good(p, s)
    ensures 0 <= Sum(s.utxos) <= Subsidy.TotalIssue(p) <= MAX_INT64 - p.baseSubsidy
  {
    ValueIsConserved(p, s);
    SumNotNegative(s.utxos);
    Subsidy.SupplyBound(p, |s.blocks| - 1);
    Subsidy.IssueBound(p);
    hide *;
  }

  /** The exits that guard 64-bit sums of inputs, fees and rewards. */
  predicate IsOverflowExit(e: RuleError) {
    e == InputOverflow || e == FeeOverflow || e == MinerRewardOverflow || e == RewardOverflow
  }

  lemma SplitFits(p: Params, height: int)
    requires p.WellFormed()
    ensures
      var (miner, project) := Subsidy.OneTimeSplit(p, height);
      0 <= miner && 0 <= project && miner + project <= p.baseSubsidy
  {
    assert Subsidy.BlockSubsidy(p, height) <= p.baseSubsidy;
    hide Params.SubsidyShrinks, Subsidy.BlockSubsidy;
  }

  lemma CheckedErrors(tx: MsgTx)
    ensures CheckOutputs(tx).Err? ==> !IsOverflowExit(CheckOutputs(tx).error)
  {
    OutputErrors(tx.txOut, 0, 0);
    hide OutputsFrom;
  }

  lemma ShrinksWithin(p: Params)
    requires p.WellFormed()
    ensures p.SubsidyShrinks()
  {
  }

  lemma RewardDoesNotWrap(p: Params, height: int, fees: Amount)
    requires p.WellFormed() && fees <= MAX_INT64 - p.baseSubsidy
    ensures p.SubsidyShrinks()
    ensures
      var (miner, project) := Subsidy.OneTimeSplit(p, height);
      var reward := Wrap64(miner + fees);
      reward >= miner && Wrap64(reward + project) >= reward
  {
    hide Params.WellFormed, Params.SubsidyShrinks, Subsidy.OneTimeSplit, Subsidy.BlockSubsidy, Wrap64;
    SplitFits(p, height);
    ShrinksWithin(p);
    var split := Subsidy.OneTimeSplit(p, height);
    WrapGuard(split.0, fees);
    WrapGuard(Wrap64(split.0 + fees), split.1);
  }

  lemma CoinbaseGuards(p: Params, block: MsgBlock, fees: Amount)
    requires p.WellFormed() && fees <= MAX_INT64 - p.baseSubsidy
    ensures CheckCoinbase(p, block, fees).Some? ==> !IsOverflowExit(CheckCoinbase(p, block, fees).value)
  {
    hide *;
    RewardDoesNotWrap(p, block.header.height, fees);
    if block.transactions != [] {
      CheckedErrors(block.transactions[0]);
      CoinbaseErrors(p, block, fees);
    } else {
      NoCoinbaseError(p, block, fees);
    }
  }

  lemma NoCoinbaseError(p: Params, block: MsgBlock, fees: Amount)
    requires p.WellFormed() && block.transactions == []
    ensures CheckCoinbase(p, block, fees).Some? ==> !IsOverflowExit(CheckCoinbase(p, block, fees).value)
  {
    hide Params.WellFormed, Params.SubsidyShrinks;
  }

  lemma CoinbaseErrors(p: Params, block: MsgBlock, fees: Amount)
    requires p.WellFormed() && p.SubsidyShrinks() && block.transactions != []
    requires CheckOutputs(block.transactions[0]).Err? ==> !IsOverflowExit(CheckOutputs(block.transactions[0]).error)
    requires
      var (miner, project) := Subsidy.OneTimeSplit(p, block.header.height);
      var reward := Wrap64(miner + fees);
      reward >= miner && Wrap64(reward + project) >= reward
    ensures CheckCoinbase(p, block, fees).Some? ==> !IsOverflowExit(CheckCoinbase(p, block, fees).value)
  {
    hide Params.WellFormed, Params.SubsidyShrinks, CheckOutputs, HasExtraCoinbase, Subsidy.OneTimeSplit,
      Subsidy.BlockSubsidy, MsgTx.IsCoinbase, Wrap64;
  }

  lemma BlockGuards(p: Params, block: MsgBlock, view: View)
    requires p.WellFormed() && block.transactions != []
    requires AllPositive(view) && Sum(view) <= MAX_INT64 - p.baseSubsidy
    ensures
      var r := ConnectBlock(p, block, view, block.header.height);
      r.Err? ==> !IsOverflowExit(r.error)
  {
    var h := block.header.height;
    var txs := block.transactions[1..];
    assert p.baseSubsidy >= 0;
    hide Params.WellFormed, ConnectRegularFrom, CheckCoinbase, Sum, RegularRecreates, AllPositive;
    ConnectRegularSum(p, txs, 0, Regular(0, view), h);
    RegularErrors(p, txs, 0, Regular(0, view), h);
    var r := ConnectRegular(p, txs, view, h);
    if r.Ok? {
      SumNotNegative(r.value.view);
      CoinbaseGuards(p, block, r.value.fees);
    }
  }

  /** On a chain that validation built, the overflow exits for inputs, fees and rewards cannot be taken. */
  lemma OverflowExitsAreUnreachable(p: Params, s: State, block: MsgBlock, now: int, enforce: bool)
    requires p.WellFormed() && Good(p, s)
    ensures s.blocks != [] && Tip(s).header.Hashable()
    ensures
      var r := ValidateBlock(p, Tip(s).header, s.utxos, block, now, enforce);
      r.Err? ==> !IsOverflowExit(r.error)
  {
    hide Params.WellFormed, Good, Linked, ConnectBlock, Sum, CheckHeader, CheckProofOfWork, AllPositive,
      Subsidy.TotalIssue;
    GoodTip(p, s);
    HeaderErrors(p, Tip(s).header, block.header, now, enforce);
    ValueIsConserved(p, s);
    SupplyFits(p, s);
    if block.transactions != [] {
      BlockGuards(p, block, s.utxos);
    }
  }

  lemma HeaderErrors(p: Params, tip: BlockHeader, h: BlockHeader, now: int, enforce: bool)
    requires p.WellFormed() && tip.Hashable()
    ensures CheckHeader(p, tip, h, now, enforce).Some? ==> !IsOverflowExit(CheckHeader(p, tip, h, now, enforce).value)
    ensures CheckProofOfWork(p, h).Some? ==> !IsOverflowExit(CheckProofOfWork(p, h).value)
  {
    hide Params.WellFormed, ExpectedBits, BlockTime.MiningOpen, BlockTime.TimestampNotTooFar, HashToBig;
  }

  lemma {:induction false} RegularErrors(p: Params, txs: seq<MsgTx>, i: nat, acc: Regular, h: uint32)
    requires i <= |txs|
    ensures var r := ConnectRegularFrom(p, txs, i, acc, h);
      r.Err? ==> r.error != MinerRewardOverflow && r.error != RewardOverflow
    decreases |txs| - i
  {
    hide SpendFrom, OutputsFrom, ConnectOutputs;
    if i < |txs| && !txs[i].IsCoinbase() {
      OutputErrors(txs[i].txOut, 0, 0);
      SpendErrors(p, txs[i], 0, {}, Spending(0, acc.view), h);
      match ConnectTx(p, txs[i], acc.view, h) {
        case Err(_) =>
        case Ok(one) =>
          if acc.fees <= MAX_INT64 - one.fees {
            RegularErrors(p, txs, i + 1, Regular(acc.fees + one.fees, one.view), h);
          }
      }
    }
  }

  // ---- outputs connected again ----

  ghost predicate Writes(p: Params, tx: MsgTx, k: nat, op: OutPoint)
    requires k <= |tx.txOut|
  {
    exists i :: 0 <= i < k && tx.txOut[i].value != 0 && OutPointAt(p, tx, i) == op
  }

  /**
   What connecting leaves at an outpoint is decided by the outputs alone if one of them lands there, else by
   the ledger alone.
   */
  lemma {:induction false} ConnectedAgain(p: Params, tx: MsgTx, v: View, w: View, g: uint32, h: uint32, cb: bool,
        k: nat,
        op: OutPoint)
    requires k <= |tx.txOut|
    ensures
      var a, b := Connected(p, tx, v, g, cb, k), Connected(p, tx, w, h, cb, k);
      if Writes(p, tx, k, op) then op in a && op in b && a[op].txOut == b[op].txOut
      else (op in b <==> op in w) && (op in b ==> b[op] == w[op])
  {
    if k > 0 {
      ConnectedAgain(p, tx, v, w, g, h, cb, k - 1, op);
      assert Writes(p, tx, k, op) <==>
        Writes(p, tx, k - 1, op) || (tx.txOut[k - 1].value != 0 && OutPointAt(p, tx, k - 1) == op);
    }
  }

  lemma {:induction false} SumByValue(a: View, b: View)
    requires a.Keys == b.Keys && forall k :: k in a ==> a[k].txOut == b[k].txOut
    ensures Sum(a) == Sum(b)
    decreases |a|
  {
    if a != map[] {
      var k :| k in a;
      SumSplit(a, k);
      SumSplit(b, k);
      SumByValue(a - {k}, b - {k});
    } else {
      assert b == map[];
    }
  }

  /** Connecting the same outputs a second time adds nothing to the ledger's value. */
  lemma ReconnectKeepsSum(p: Params, tx: MsgTx, view: View, g: uint32, h: uint32, cb: bool)
    ensures
      var once := ConnectOutputs(p, tx, view, g, cb);
      Sum(ConnectOutputs(p, tx, once, h, cb)) == Sum(once)
  {
    hide Connected, Sum;
    var once := ConnectOutputs(p, tx, view, g, cb);
    var twice := ConnectOutputs(p, tx, once, h, cb);
    forall op
      ensures op in twice <==> op in once
      ensures op in twice ==> twice[op].txOut == once[op].txOut
    {
      ConnectedAgain(p, tx, view, once, g, h, cb, |tx.txOut|, op);
    }
    assert twice.Keys == once.Keys;
    SumByValue(once, twice);
  }

  /** The ledger ends with the tip's coinbase outputs. */
  lemma TipLedger(p: Params, s: State) returns (before: View, fees: Amount)
    requires p.WellFormed() && Good(p, s) && |s.blocks| > 1
    ensures Tip(s).transactions != [] && Tip(s).header.Hashable()
    ensures s.utxos == ConnectOutputs(p, Tip(s).transactions[0], before, Tip(s).header.height, true)
    ensures CheckCoinbase(p, Tip(s), fees) == None
    ensures |Tip(s).transactions| == 1 ==> fees == 0
  {
    hide Params.WellFormed, Linked, ConnectRegularFrom, CheckCoinbase, ConnectOutputs;
    GoodTip(p, s);
    var tip := Tip(s);
    var view := Replay(p, s.blocks[..|s.blocks| - 1]).value;
    var regular := ConnectRegular(p, tip.transactions[1..], view, tip.header.height).value;
    NoRegulars(p, tip.transactions[1..], view, tip.header.height);
    before, fees := regular.view, regular.fees;
  }

  lemma NoRegulars(p: Params, txs: seq<MsgTx>, view: View, h: uint32)
    ensures txs == [] ==> ConnectRegular(p, txs, view, h) == Ok(Regular(0, view))
  {
    hide ConnectTx;
  }

  /** The rules for a coinbase look at the block's transactions, at its height's subsidy, and at nothing else. */
  lemma SameCoinbaseVerdict(p: Params, a: MsgBlock, b: MsgBlock, fees: Amount)
    requires p.WellFormed() && a.transactions == b.transactions
    requires Subsidy.OneTimeSplit(p, a.header.height) == Subsidy.OneTimeSplit(p, b.header.height)
    ensures CheckCoinbase(p, a, fees) == CheckCoinbase(p, b, fees)
  {
    hide Params.WellFormed, Params.SubsidyShrinks, Subsidy.OneTimeSplit, CheckOutputs, HasExtraCoinbase,
      MsgTx.IsCoinbase,
      Wrap64;
  }

  /**
   Coins can be lost, because nothing in a coinbase ties it to its height. On a tip that holds only its
   coinbase, a block with that same transaction and the same subsidy meets every rule as soon as its header
   does, and the ledger is worth no more after it than before: its whole subsidy is lost.
   */
  lemma RepeatedCoinbaseIsAccepted(p: Params, s: State, block: MsgBlock, now: int)
    requires p.WellFormed() && Good(p, s) && |s.blocks| > 1 && Tip(s).header.Hashable()
    requires |Tip(s).transactions| == 1 && block.transactions == Tip(s).transactions
    requires Subsidy.OneTimeSplit(p, block.header.height) == Subsidy.OneTimeSplit(p, Tip(s).header.height)
    requires BlockTime.MiningOpen(p, now) && BlockFollows(p, Tip(s).header, block)
    ensures AddBlock(p, s, block, now, false).Ok?
    ensures AddBlock(p, s, block, now, true).Ok? <==>
      BlockTime.TimestampNotTooFar(p, Tip(s).header.timestamp, block.header.timestamp, now)
    ensures Sum(AddBlock(p, s, block, now, false).value.utxos) == Sum(s.utxos)
    ensures TotalSubsidy(p, AddBlock(p, s, block, now, false).value.blocks)
      == TotalSubsidy(p, s.blocks) + Subsidy.BlockSubsidy(p, block.header.height)
  {
    hide Params.WellFormed, Good, Linked, Sum, CheckCoinbase, Subsidy.OneTimeSplit, Subsidy.BlockSubsidy, ValidateBlock,
      ConnectRegularFrom, ConnectOutputs, BlockFollows, BlockTime.MiningOpen, BlockTime.TimestampNotTooFar;
    var before, fees := TipLedger(p, s);
    var cb, h := block.transactions[0], block.header.height;
    SameCoinbaseVerdict(p, Tip(s), block, 0);
    assert block.transactions[1..] == [];
    NoRegulars(p, [], s.utxos, h);
    AcceptanceRules(p, Tip(s).header, s.utxos, block, now, false);
    AcceptanceRules(p, Tip(s).header, s.utxos, block, now, true);
    ReconnectKeepsSum(p, cb, before, Tip(s).header.height, h, true);
    assert (s.blocks + [block])[..|s.blocks|] == s.blocks;
  }

  /**
   The same of any accepted block that holds nothing but the tip's coinbase: it adds no value, and its
   subsidy is lost.
   */
  lemma RepeatedCoinbaseLosesCoins(p: Params, s: State, block: MsgBlock, now: int, enforce: bool)
    requires p.WellFormed() && Good(p, s) && |s.blocks| > 1 && Tip(s).header.Hashable()
    requires Tip(s).transactions != [] && block.transactions == [Tip(s).transactions[0]]
    requires AddBlock(p, s, block, now, enforce).Ok?
    ensures Sum(AddBlock(p, s, block, now, enforce).value.utxos) == Sum(s.utxos)
    ensures TotalSubsidy(p, AddBlock(p, s, block, now, enforce).value.blocks)
      == TotalSubsidy(p, s.blocks) + Subsidy.BlockSubsidy(p, block.header.height)
  {
    hide Params.WellFormed, Good, Linked, Sum, CheckCoinbase, Subsidy.OneTimeSplit, Subsidy.BlockSubsidy, ValidateBlock,
      ConnectRegularFrom, ConnectOutputs, BlockFollows;
    var before, fees := TipLedger(p, s);
    var cb, h := block.transactions[0], block.header.height;
    assert block.transactions[1..] == [];
    NoRegulars(p, [], s.utxos, h);
    AcceptanceRules(p, Tip(s).header, s.utxos, block, now, enforce);
    ReconnectKeepsSum(p, cb, before, Tip(s).header.height, h, true);
    assert (s.blocks + [block])[..|s.blocks|] == s.blocks;
  }
}
