/**
 Blocks that share a header. A transaction list that fills the same full tree as a shorter one gives the
 same merkle root, so a block with the longer list has the header and the hash of the block with the shorter
 one, and the two cannot be told apart before their transactions are connected. Connecting tells them apart:
 the longer one never gets into a chain.
 */
module RepeatedTransaction {
  import opened Ints
  import opened WireTypes
  import opened ChainCfg
  import opened Ledger
  import opened ChainFacts
  import opened Runs
  import opened BlockPools
  import opened Node
  import Merkle
  import Subsidy

  /** `longer` is `block` with transactions from its end repeated, so that both lists fill the same full tree. */
  predicate LongerTwin(longer: MsgBlock, block: MsgBlock) {
    && block.transactions != []
    && |longer.transactions| > |block.transactions|
    && longer.header == block.header
    && Merkle.Padded(longer.transactions) == Merkle.Padded(block.transactions)
  }

  /** The root has room for a longer twin exactly when the number of transactions is not a power of two. */
  lemma TwinExistsExactlyWhen(block: MsgBlock)
    requires block.transactions != []
    ensures (exists longer :: LongerTwin(longer, block)) <==> !Merkle.PowerOfTwo(|block.transactions|)
  {
    var txs := block.transactions;
    Merkle.LongerExistsExactlyWhen(txs);
    hide Merkle.Padded, Merkle.Width, Merkle.PowerOfTwo;
    if !Merkle.PowerOfTwo(|txs|) {
      var more: seq<MsgTx> :| |more| > |txs| && Merkle.Padded(more) == Merkle.Padded(txs);
      assert LongerTwin(block.(transactions := more), block);
    }
    if longer :| LongerTwin(longer, block) {
      assert |longer.transactions| > |txs| && Merkle.Padded(longer.transactions) == Merkle.Padded(txs);
    }
  }

  ghost predicate IdentifiersDoNotCollide(c: Crypto, s: seq<MsgTx>, t: seq<MsgTx>) {
    forall i, j :: 0 <= i < |s| && 0 <= j < |t| && c.txHash(s[i]) == c.txHash(t[j]) ==> s[i] == t[j]
  }

  /** Twins are the only blocks that share a header, among lists with trees of one height and without collisions. */
  lemma OnlyTwinsShareAHeader(c: Crypto, a: MsgBlock, b: MsgBlock)
    requires a.transactions != [] && b.transactions != [] && a.header == b.header
    requires Merkle.Width(|a.transactions|) == Merkle.Width(|b.transactions|)
    requires Merkle.LevelsDoNotCollide(c, Merkle.TxHashes(c, a.transactions), Merkle.TxHashes(c, b.transactions))
    requires IdentifiersDoNotCollide(c, a.transactions, b.transactions)
    ensures Merkle.MerkleRoot(c, a.transactions) == Merkle.MerkleRoot(c, b.transactions) <==>
      a == b || LongerTwin(a, b) || LongerTwin(b, a)
  {
    hide Merkle.Width, Merkle.LevelsDoNotCollide, Merkle.MerkleRoot, Merkle.Source;
    var s, t := a.transactions, b.transactions;
    Merkle.RootCommitsToFullTree(c, s, t);
    if Merkle.Padded(s) == Merkle.Padded(t) {
      Merkle.SameTreeSameRoot(c, s, t);
    }
    if Merkle.Padded(Merkle.TxHashes(c, s)) == Merkle.Padded(Merkle.TxHashes(c, t)) {
      forall i | 0 <= i < Merkle.Width(|s|)
        ensures Merkle.Padded(s)[i] == Merkle.Padded(t)[i]
      {
        assert Merkle.Padded(Merkle.TxHashes(c, s))[i] == Merkle.Padded(Merkle.TxHashes(c, t))[i];
      }
      if |s| == |t| {
        Merkle.ShorterIsPrefix(s, t);
      }
    }
  }

  /** The checks for parking a block, and those for keeping it beside the chain, do not tell twins apart. */
  lemma CandidateChecksDoNotSeeIt(p: Params, tip: BlockHeader, prev: Option<MsgBlock>, longer: MsgBlock,
        block: MsgBlock, now: int)
    requires p.WellFormed() && LongerTwin(longer, block)
    requires prev.Some? ==> prev.value.header.Hashable()
    ensures BlockHash(p, longer.header) == BlockHash(p, block.header)
    ensures OrphanCandidate(p, tip, longer, now) <==> OrphanCandidate(p, tip, block, now)
    ensures SideCandidate(p, tip, prev, longer, now) <==> SideCandidate(p, tip, prev, block, now)
  {
    hide Params.WellFormed, ExpectedBits, CheckProofOfWork, Merkle.Padded;
    Merkle.SameTreeSameRoot(p.crypto, longer.transactions, block.transactions);
    hide Merkle.MerkleRoot;
  }

  // ---- connecting sees it ----

  /** The transactions that a longer twin repeats right behind the list. */
  function Tail(block: MsgBlock): (tail: seq<MsgTx>)
    requires 0 < |block.transactions| < Merkle.Width(|block.transactions|)
    ensures tail != []
  {
    block.transactions[Merkle.TailStart(|block.transactions|)..]
  }

  /**
   Some transaction of the tail spends no output of the tail. It can only be otherwise where identifiers name
   one another in a circle.
   */
  ghost predicate TailHasAFirst(p: Params, block: MsgBlock)
    requires 0 < |block.transactions| < Merkle.Width(|block.transactions|)
  {
    exists tx :: tx in Tail(block) && SpendsNoneOf(p, tx, Tail(block))
  }

  ghost predicate SpendsNoneOf(p: Params, tx: MsgTx, txs: seq<MsgTx>) {
    forall i, t :: 0 <= i < |tx.txIn| && t in txs ==> tx.txIn[i].previous.hash != p.crypto.txHash(t)
  }

  /** Identifiers can be ranked so that each transaction ranks above those that it spends from: there is no circle. */
  ghost predicate NoCircle(p: Params, txs: seq<MsgTx>, rank: Hash -> nat) {
    forall tx, i :: tx in txs && 0 <= i < |tx.txIn| ==> rank(tx.txIn[i].previous.hash) < rank(p.crypto.txHash(tx))
  }

  lemma {:induction false} LowestRank(p: Params, txs: seq<MsgTx>, rank: Hash -> nat) returns (tx: MsgTx)
    requires txs != []
    ensures tx in txs && forall t :: t in txs ==> rank(p.crypto.txHash(tx)) <= rank(p.crypto.txHash(t))
    decreases |txs|
  {
    tx := txs[0];
    if |txs| > 1 {
      var other := LowestRank(p, txs[1..], rank);
      if rank(p.crypto.txHash(other)) < rank(p.crypto.txHash(tx)) {
        tx := other;
      }
      assert txs == [txs[0]] + txs[1..];
    }
  }

  lemma NoCircleMeansAFirst(p: Params, block: MsgBlock, rank: Hash -> nat)
    requires 0 < |block.transactions| < Merkle.Width(|block.transactions|)
    requires NoCircle(p, Tail(block), rank)
    ensures TailHasAFirst(p, block)
  {
    hide Tail, Merkle.Width;
    var tx := LowestRank(p, Tail(block), rank);
    assert SpendsNoneOf(p, tx, Tail(block));
  }

  ghost predicate RepeatsATail(p: Params, longer: MsgBlock, block: MsgBlock) {
    && LongerTwin(longer, block)
    && |block.transactions| < Merkle.Width(|block.transactions|)
    && TailHasAFirst(p, block)
  }

  /** Transaction `a` spends no output of the transactions from `a` up to `b`. */
  ghost predicate SpendsBefore(p: Params, txs: seq<MsgTx>, a: nat, b: nat)
    requires a < b <= |txs|
  {
    forall i, k :: 0 <= i < |txs[a].txIn| && a <= k < b ==>
      txs[a].txIn[i].previous.hash != p.crypto.txHash(txs[k])
  }

  lemma {:induction false} SpendingRemoves(p: Params, tx: MsgTx, i: nat, spent: set<OutPoint>, acc: Spending, h: uint32,
        op: OutPoint)
    requires i <= |tx.txIn| && SpendFrom(p, tx, i, spent, acc, h).Ok?
    requires op !in acc.view || exists j :: i <= j < |tx.txIn| && tx.txIn[j].previous == op
    ensures op !in SpendFrom(p, tx, i, spent, acc, h).value.view
    decreases |tx.txIn| - i
  {
    if i < |tx.txIn| {
      var first := tx.txIn[i].previous;
      var next := Spending(acc.total + acc.view[first].txOut.value, acc.view - {first});
      SpendingRemoves(p, tx, i + 1, spent + {first}, next, h, op);
    }
  }

  lemma {:induction false} ConnectingAddsOwn(p: Params, tx: MsgTx, view: View, h: uint32, cb: bool, k: nat,
        op: OutPoint)
    requires k <= |tx.txOut| && op !in view && op.hash != p.crypto.txHash(tx)
    ensures op !in Connected(p, tx, view, h, cb, k)
  {
    if k > 0 {
      ConnectingAddsOwn(p, tx, view, h, cb, k - 1, op);
    }
  }

  /** Connecting a transaction that does not create an outpoint leaves it spent, and spends it if it is an input. */
  lemma StaysSpent(p: Params, tx: MsgTx, view: View, h: uint32, op: OutPoint)
    requires ConnectTx(p, tx, view, h).Ok? && op.hash != p.crypto.txHash(tx)
    requires op !in view || (tx.txIn != [] && tx.txIn[0].previous == op)
    ensures op !in ConnectTx(p, tx, view, h).value.view
  {
    hide CheckOutputs, Connected, SpendFrom;
    SpendingRemoves(p, tx, 0, {}, Spending(0, view), h, op);
    ConnectingAddsOwn(p, tx, SpendFrom(p, tx, 0, {}, Spending(0, view), h).value.view, h, false, |tx.txOut|, op);
  }

  lemma SpentInput(p: Params, tx: MsgTx, view: View, h: uint32)
    requires tx.txIn != [] && tx.txIn[0].previous !in view
    ensures ConnectTx(p, tx, view, h).Err?
  {
    hide CheckOutputs, Connected;
  }

  /** From where the outpoint is spent up to transaction `b`, nothing creates it again. */
  lemma {:induction false} StaysSpentUpTo(p: Params, txs: seq<MsgTx>, i: nat, b: nat, acc: Regular, h: uint32,
        op: OutPoint)
    requires i <= b < |txs| && op !in acc.view && txs[b].txIn != [] && txs[b].txIn[0].previous == op
    requires forall k :: i <= k < b ==> p.crypto.txHash(txs[k]) != op.hash
    ensures ConnectRegularFrom(p, txs, i, acc, h).Err?
    decreases b - i
  {
    hide ConnectTx, MsgTx.IsCoinbase;
    if i == b {
      SpentInput(p, txs[b], acc.view, h);
    } else if ConnectTx(p, txs[i], acc.view, h).Ok? {
      StaysSpent(p, txs[i], acc.view, h, op);
      var one := ConnectTx(p, txs[i], acc.view, h).value;
      if acc.fees <= MAX_INT64 - one.fees {
        StaysSpentUpTo(p, txs, i + 1, b, Regular(acc.fees + one.fees, one.view), h, op);
      }
    }
  }

  /** A transaction does not connect a second time when nothing in between creates its first input again. */
  lemma {:induction false} RegularsNotRepeated(p: Params, txs: seq<MsgTx>, i: nat, a: nat, b: nat, acc: Regular,
        h: uint32)
    requires i <= a < b < |txs| && txs[a] == txs[b] && SpendsBefore(p, txs, a, b)
    ensures ConnectRegularFrom(p, txs, i, acc, h).Err?
    decreases a - i
  {
    hide ConnectTx, MsgTx.IsCoinbase;
    if ConnectTx(p, txs[i], acc.view, h).Ok? {
      var one := ConnectTx(p, txs[i], acc.view, h).value;
      if acc.fees <= MAX_INT64 - one.fees {
        var next := Regular(acc.fees + one.fees, one.view);
        if i < a {
          RegularsNotRepeated(p, txs, i + 1, a, b, next, h);
        } else {
          HasInputs(p, txs[a], acc.view, h);
          var op := txs[a].txIn[0].previous;
          StaysSpent(p, txs[a], acc.view, h, op);
          StaysSpentUpTo(p, txs, i + 1, b, next, h, op);
        }
      }
    }
  }

  lemma HasInputs(p: Params, tx: MsgTx, view: View, h: uint32)
    requires ConnectTx(p, tx, view, h).Ok?
    ensures tx.txIn != []
  {
    hide SpendFrom, CheckOutputs, Connected;
  }

  lemma {:induction false} CoinbaseInside(p: Params, txs: seq<MsgTx>, i: nat, b: nat, acc: Regular, h: uint32)
    requires i <= b < |txs| && txs[b].IsCoinbase()
    ensures ConnectRegularFrom(p, txs, i, acc, h).Err?
    decreases b - i
  {
    hide ConnectTx, MsgTx.IsCoinbase;
    if i < b && ConnectTx(p, txs[i], acc.view, h).Ok? {
      var one := ConnectTx(p, txs[i], acc.view, h).value;
      if acc.fees <= MAX_INT64 - one.fees {
        CoinbaseInside(p, txs, i + 1, b, Regular(acc.fees + one.fees, one.view), h);
      }
    }
  }

  /** A block that holds a transaction twice connects to no ledger, unless something in between restores its inputs. */
  lemma BlockWithRepetition(p: Params, block: MsgBlock, a: nat, b: nat, view: View, h: uint32)
    requires p.WellFormed() && a < b < |block.transactions| && block.transactions[a] == block.transactions[b]
    requires SpendsBefore(p, block.transactions, a, b)
    ensures ConnectBlock(p, block, view, h).Err?
  {
    hide Params.WellFormed, ConnectRegularFrom, Subsidy.OneTimeSplit, CheckOutputs, MsgTx.IsCoinbase, HasExtraCoinbase;
    var txs, rest := block.transactions, block.transactions[1..];
    if a > 0 {
      assert forall k :: 1 <= k < |txs| ==> txs[k] == rest[k - 1];
      RegularsNotRepeated(p, rest, 0, a - 1, b - 1, Regular(0, view), h);
    } else if txs[0].IsCoinbase() {
      CoinbaseInside(p, rest, 0, b - 1, Regular(0, view), h);
    }
  }

  lemma TwinIsWider(longer: MsgBlock, block: MsgBlock)
    requires LongerTwin(longer, block)
    ensures |block.transactions| < Merkle.Width(|block.transactions|)
    ensures block.transactions < longer.transactions
    ensures |longer.transactions| <= Merkle.Width(|longer.transactions|) == Merkle.Width(|block.transactions|)
  {
    hide Merkle.Width, Merkle.Source;
    assert |Merkle.Padded(longer.transactions)| == |Merkle.Padded(block.transactions)|;
    Merkle.ShorterIsPrefix(block.transactions, longer.transactions);
  }

  /** In a longer twin, the positions of the tail and those behind the list hold transactions of the tail. */
  lemma TailStandsAgain(longer: MsgBlock, block: MsgBlock, k: nat)
    requires LongerTwin(longer, block) && |block.transactions| < Merkle.Width(|block.transactions|)
    requires
      var n := |block.transactions|;
      Merkle.TailStart(n) <= k < 2 * n - Merkle.TailStart(n) && k < |longer.transactions|
    ensures longer.transactions[k] in Tail(block)
  {
    hide Merkle.Width, Merkle.Source, Merkle.TailStart;
    TwinIsWider(longer, block);
    var txs, n, q := block.transactions, |block.transactions|, Merkle.TailStart(|block.transactions|);
    if k < n {
      assert longer.transactions[k] == txs[k] == txs[q..][k - q];
    } else {
      Merkle.SourceOfTail(n, k);
      Merkle.ShorterIsPrefix(txs, longer.transactions);
      assert longer.transactions[k] == txs[k - (n - q)] == txs[q..][k - n];
    }
  }

  /** Every transaction of the tail stands in a longer twin once more, behind the list. */
  lemma EachOfTheTailStandsAgain(longer: MsgBlock, block: MsgBlock, x: nat)
    requires LongerTwin(longer, block) && |block.transactions| < Merkle.Width(|block.transactions|)
    requires Merkle.TailStart(|block.transactions|) <= x < |block.transactions|
    ensures
      var n := |block.transactions|;
      exists y :: n <= y < |longer.transactions| && y < 2 * n - Merkle.TailStart(n) &&
        longer.transactions[y] == block.transactions[x]
  {
    hide Merkle.Width, Merkle.Source, Merkle.TailStart;
    TwinIsWider(longer, block);
    var n, m, q := |block.transactions|, |longer.transactions|, Merkle.TailStart(|block.transactions|);
    var place := x + (n - q);
    Merkle.SourceOfTail(n, place);
    Merkle.LongerFillsTail(n, m, place);
    assert Merkle.Padded(longer.transactions)[place] == Merkle.Padded(block.transactions)[place];
    assert longer.transactions[Merkle.Source(m, place)] == block.transactions[x];
  }

  /** The longer twin of a block connects to no ledger. */
  lemma TwinNeverConnects(p: Params, longer: MsgBlock, block: MsgBlock, view: View, h: uint32)
    requires p.WellFormed() && RepeatsATail(p, longer, block)
    ensures ConnectBlock(p, longer, view, h).Err?
  {
    hide *;
    var a, b := Repetition(p, longer, block);
    BlockWithRepetition(p, longer, a, b, view, h);
  }

  /** The first transaction of the tail that spends none of it, and where it stands again. */
  lemma Repetition(p: Params, longer: MsgBlock, block: MsgBlock) returns (a: nat, b: nat)
    requires RepeatsATail(p, longer, block)
    ensures a < b < |longer.transactions| && longer.transactions[a] == longer.transactions[b]
    ensures SpendsBefore(p, longer.transactions, a, b)
  {
    hide LongerTwin, Merkle.Width, Merkle.TailStart, SpendsNoneOf, SpendsBefore;
    TwinIsWider(longer, block);
    var txs, n, q := block.transactions, |block.transactions|, Merkle.TailStart(|block.transactions|);
    var tx :| tx in Tail(block) && SpendsNoneOf(p, tx, Tail(block));
    var at: nat :| at < n - q && Tail(block)[at] == tx;
    a := q + at;
    EachOfTheTailStandsAgain(longer, block, a);
    var y: nat :| n <= y < |longer.transactions| && y < 2 * n - q && longer.transactions[y] == txs[a];
    b := y;
    forall k | a <= k < b
      ensures longer.transactions[k] in Tail(block)
    {
      TailStandsAgain(longer, block, k);
    }
    SpendsNoneBetween(p, longer.transactions, a, b, Tail(block));
  }

  lemma SpendsNoneBetween(p: Params, txs: seq<MsgTx>, a: nat, b: nat, tail: seq<MsgTx>)
    requires a < b <= |txs| && SpendsNoneOf(p, txs[a], tail) && forall k :: a <= k < b ==> txs[k] in tail
    ensures SpendsBefore(p, txs, a, b)
  {
  }

  /** Nothing that is hashed for the two lists collides: identifiers, pairs, or an identifier and a pair. */
  ghost predicate NothingCollides(c: Crypto, s: seq<MsgTx>, t: seq<MsgTx>)
    requires s != [] && t != []
  {
    && IdentifiersDoNotCollide(c, s, t)
    && (forall d: nat ::
         Merkle.LevelsDoNotCollide(c, Merkle.TxHashes(c, s), Merkle.Passes(c, Merkle.TxHashes(c, t), d)))
    && !Merkle.IsFirstPair(c, c.txHash(s[0]), Merkle.TxHashes(c, t))
  }

  lemma SameRootSameHeight(c: Crypto, s: seq<MsgTx>, t: seq<MsgTx>)
    requires s != [] && t != [] && NothingCollides(c, s, t)
    requires Merkle.MerkleRoot(c, s) == Merkle.MerkleRoot(c, t)
    ensures Merkle.Width(|s|) >= Merkle.Width(|t|)
    ensures Merkle.LevelsDoNotCollide(c, Merkle.TxHashes(c, s), Merkle.TxHashes(c, t))
  {
    hide Merkle.LevelsDoNotCollide, Merkle.MerkleRoot, Merkle.Width, Merkle.IsFirstPair;
    assert Merkle.Passes(c, Merkle.TxHashes(c, t), 0) == Merkle.TxHashes(c, t);
    if Merkle.Width(|s|) < Merkle.Width(|t|) {
      Merkle.HigherTreeWithSameRoot(c, s, t);
    }
  }

  /** Of the blocks with one header and a root that matches it, at most one ever connects to a ledger. */
  lemma HeaderFixesTheBlock(p: Params, a: MsgBlock, b: MsgBlock, viewA: View, viewB: View, h: uint32)
    requires p.WellFormed() && a.transactions != [] && b.transactions != [] && a.header == b.header
    requires a.header.merkleRoot == Merkle.MerkleRoot(p.crypto, a.transactions)
    requires b.header.merkleRoot == Merkle.MerkleRoot(p.crypto, b.transactions)
    requires NothingCollides(p.crypto, a.transactions, b.transactions)
    requires NothingCollides(p.crypto, b.transactions, a.transactions)
    requires |a.transactions| < Merkle.Width(|a.transactions|) ==> TailHasAFirst(p, a)
    requires |b.transactions| < Merkle.Width(|b.transactions|) ==> TailHasAFirst(p, b)
    requires ConnectBlock(p, a, viewA, h).Ok? && ConnectBlock(p, b, viewB, h).Ok?
    ensures a == b
  {
    hide Params.WellFormed, ConnectBlock, LongerTwin, TailHasAFirst, Merkle.Width, Merkle.MerkleRoot,
      Merkle.LevelsDoNotCollide, Merkle.IsFirstPair;
    SameRootSameHeight(p.crypto, a.transactions, b.transactions);
    SameRootSameHeight(p.crypto, b.transactions, a.transactions);
    OnlyTwinsShareAHeader(p.crypto, a, b);
    if LongerTwin(a, b) {
      TwinIsWider(a, b);
      TwinNeverConnects(p, a, b, viewA, h);
    } else if LongerTwin(b, a) {
      TwinIsWider(b, a);
      TwinNeverConnects(p, b, a, viewB, h);
    }
  }

  lemma TwinIsNeverAdded(p: Params, s: State, longer: MsgBlock, block: MsgBlock, now: int, enforce: bool)
    requires p.WellFormed() && Good(p, s) && RepeatsATail(p, longer, block)
    ensures s.blocks != [] && Tip(s).header.Hashable()
    ensures Ledger.AddBlock(p, s, longer, now, enforce).Err?
  {
    hide Params.WellFormed, Good, ConnectBlock, ValidateBlock, BlockFollows, TailHasAFirst, Merkle.Width;
    GoodTip(p, s);
    AcceptanceRules(p, Tip(s).header, s.utxos, longer, now, enforce);
    TwinNeverConnects(p, longer, block, s.utxos, longer.header.height);
  }

  lemma {:induction false} ListWithTwinIsRefused(p: Params, s: State, blocks: seq<MsgBlock>, i: nat, block: MsgBlock,
        now: int, enforce: bool)
    requires p.WellFormed() && Good(p, s) && i < |blocks| && RepeatsATail(p, blocks[i], block)
    ensures AddAll(p, s, blocks, now, enforce).Err?
    decreases |blocks|
  {
    hide Params.WellFormed, Good, Ledger.AddBlock, RepeatsATail;
    GoodTip(p, s);
    AddKeepsGood(p, s, blocks[0], now, enforce);
    if i == 0 {
      TwinIsNeverAdded(p, s, blocks[0], block, now, enforce);
    } else if Ledger.AddBlock(p, s, blocks[0], now, enforce).Ok? {
      var t := Ledger.AddBlock(p, s, blocks[0], now, enforce).value;
      ListWithTwinIsRefused(p, t, blocks[1..], i - 1, block, now, enforce);
    }
  }

  /** A chain never switches to a branch that holds the longer twin of a block. */
  lemma BranchWithTwinIsRefused(p: Params, s: State, branch: seq<MsgBlock>, i: nat, block: MsgBlock, now: int)
    requires p.WellFormed() && Good(p, s) && i < |branch| && RepeatsATail(p, branch[i], block)
    ensures !Reorganized(p, s, branch, now).Switched?
  {
    hide Params.WellFormed, Good, AddAll, Linked, RepeatsATail, InTime, Reorganized;
    GoodTip(p, s);
    SwitchesExactlyWhen(p, s, branch, now);
    if Reorganized(p, s, branch, now).Switched? {
      var fork := FindByHash(p, s.blocks, branch[0].header.prevBlock).value;
      ListWithTwinIsRefused(p, PrefixState(p, s, fork + 1), branch, i, block, now, false);
    }
  }

  // ---- what is cached under a hash stays ----

  /**
   The side pool keeps the first block that it got under a hash. If that is a longer twin, it stays whatever
   is offered later, and no branch through this hash is switched to.
   */
  lemma CachedTwinStays(p: Params, before: State, pool: Pool, offered: MsgBlock, now: int, connected: bool,
        branch: seq<MsgBlock>, disconnected: seq<MsgBlock>, error: Option<NodeError>, after: State, left: Pool,
        h: Hash, block: MsgBlock)
    requires p.WellFormed() && Good(p, before) && before.blocks != []
    requires h in pool && RepeatsATail(p, pool[h], block) && BlockHash(p, block.header) == h
    requires SideOutcome(p, before, pool, offered, now, connected, branch, disconnected, error, after, left)
    ensures h in left && left[h] == pool[h]
    ensures connected ==> h !in Hashes(p, branch)
  {
    hide Params.WellFormed, Good, IsBranch, Reorganized, Delta, RepeatsATail, FitsBeside;
    var cached := WithBlock(p, pool, offered);
    assert h in cached && cached[h] == pool[h];
    if connected && h in Hashes(p, branch) {
      var b :| b in branch && BlockHash(p, b.header) == h;
      var i :| 0 <= i < |branch| && branch[i] == b;
      BranchIsPooled(p, cached, before.blocks, branch, BlockHash(p, offered.header), i);
      BranchWithTwinIsRefused(p, before, branch, i, block, now);
    }
  }
}
