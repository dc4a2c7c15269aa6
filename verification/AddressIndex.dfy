/**
 The address scan of `internal/rpcserver/server.go`: it recomputes the unspent outputs of one script from
 all blocks, coinbases first, while the chain connects coinbases last. Where the two agree is proved here.
 */
module AddressIndex {
  import opened Ints
  import opened WireTypes
  import opened ChainCfg
  import opened Ledger
  import opened ChainFacts
  import opened Blockchain
  import opened Mempool

  datatype Entry = Entry(value: int64, height: uint32, coinbase: bool, mature: bool, pending: bool)

  type Index = map<OutPoint, Entry>

  datatype Standing = OnChain(height: uint32, tip: uint32) | Waiting

  // ---- the scan ----

  function EntryOf(p: Params, tx: MsgTx, out: TxOut, at: Standing): Entry {
    match at
    case OnChain(height, tip) =>
      Entry(out.value, height, tx.IsCoinbase(),
        !tx.IsCoinbase() || Wrap32(tip + 1) >= Wrap32(height + p.coinbaseMaturity), false)
    case Waiting => Entry(out.value, 0, false, false, true)
  }

  function Forgotten(index: Index, tx: MsgTx, k: nat): Index
    requires k <= |tx.txIn|
  {
    if k == 0 then index else Forgotten(index, tx, k - 1) - {tx.txIn[k - 1].previous}
  }

  function Noted(p: Params, script: seq<byte>, index: Index, tx: MsgTx, at: Standing, k: nat): Index
    requires k <= |tx.txOut|
  {
    if k == 0 then index
    else
      var before := Noted(p, script, index, tx, at, k - 1);
      if tx.txOut[k - 1].pkScript != script then before
      else before[OutPointAt(p, tx, k - 1) := EntryOf(p, tx, tx.txOut[k - 1], at)]
  }

  function ScanTx(p: Params, script: seq<byte>, index: Index, tx: MsgTx, at: Standing): Index {
    Noted(p, script, Forgotten(index, tx, |tx.txIn|), tx, at, |tx.txOut|)
  }

  function ScanTxs(p: Params, script: seq<byte>, index: Index, txs: seq<MsgTx>, at: Standing): Index {
    if txs == [] then index
    else ScanTx(p, script, ScanTxs(p, script, index, txs[..|txs| - 1], at), txs[|txs| - 1], at)
  }

  function ScanBlocks(p: Params, script: seq<byte>, blocks: seq<MsgBlock>, tip: uint32): Index {
    if blocks == [] then map[]
    else
      var last := blocks[|blocks| - 1];
      ScanTxs(p, script, ScanBlocks(p, script, blocks[..|blocks| - 1], tip), last.transactions,
        OnChain(last.header.height, tip))
  }

  /** What the scan finds over chain and pool. */
  function Found(p: Params, s: State, script: seq<byte>, pool: seq<MsgTx>): Index
    requires s.blocks != []
  {
    ScanTxs(p, script, ScanBlocks(p, script, s.blocks, Tip(s).header.height), pool, Waiting)
  }

  method IndexTransaction(p: Params, script: seq<byte>, index: Index, tx: MsgTx, at: Standing) returns (next: Index)
    ensures next == ScanTx(p, script, index, tx, at)
  {
    hide EntryOf;
    next := index;
    for j := 0 to |tx.txIn|
      invariant next == Forgotten(index, tx, j)
    {
      next := next - {tx.txIn[j].previous};
    }
    for i := 0 to |tx.txOut|
      invariant next == Noted(p, script, Forgotten(index, tx, |tx.txIn|), tx, at, i)
    {
      if tx.txOut[i].pkScript == script {
        next := next[OutPoint(p.crypto.txHash(tx), Wrap32(i)) := EntryOf(p, tx, tx.txOut[i], at)];
      }
    }
  }

  method IndexTransactions(p: Params, script: seq<byte>, index: Index, txs: seq<MsgTx>, at: Standing)
    returns (next: Index)
    ensures next == ScanTxs(p, script, index, txs, at)
  {
    hide ScanTx;
    next := index;
    assert txs[..0] == [];
    for i := 0 to |txs|
      invariant next == ScanTxs(p, script, index, txs[..i], at)
    {
      assert txs[..i + 1][..i] == txs[..i];
      next := IndexTransaction(p, script, next, txs[i], at);
    }
    assert txs[..|txs|] == txs;
  }

  /** The outputs to one script, over the whole chain and then the mempool. */
  method AddressUTXOs(server: Server, script: seq<byte>) returns (utxos: Index)
    requires server.Valid()
    ensures server.chain.blocks != []
    ensures utxos == Found(server.chain.params, server.chain.Current(), script, server.mempool)
  {
    hide Chain.Valid, Params.WellFormed, Good, Linked, ScanTxs, Distinct;
    server.chain.Shape();
    var p, blocks := server.chain.params, server.chain.blocks;
    var tip := blocks[|blocks| - 1].header.height;
    utxos := map[];
    assert blocks[..0] == [];
    for i := 0 to |blocks|
      invariant utxos == ScanBlocks(p, script, blocks[..i], tip)
    {
      assert blocks[..i + 1][..i] == blocks[..i];
      utxos := IndexTransactions(p, script, utxos, blocks[i].transactions, OnChain(blocks[i].header.height, tip));
    }
    assert blocks[..|blocks|] == blocks;
    utxos := IndexTransactions(p, script, utxos, server.mempool, Waiting);
  }

  // ---- one transaction, one outpoint ----

  predicate Consumes(tx: MsgTx, op: OutPoint, k: nat)
    requires k <= |tx.txIn|
  {
    exists j :: 0 <= j < k && tx.txIn[j].previous == op
  }

  lemma {:induction false} ForgottenAt(index: Index, tx: MsgTx, k: nat, op: OutPoint)
    requires k <= |tx.txIn|
    ensures op in Forgotten(index, tx, k) <==> op in index && !Consumes(tx, op, k)
    ensures op in Forgotten(index, tx, k) ==> Forgotten(index, tx, k)[op] == index[op]
  {
    if k > 0 {
      ForgottenAt(index, tx, k - 1, op);
    }
  }

  predicate Pays(p: Params, tx: MsgTx, op: OutPoint, k: nat)
    requires k <= |tx.txOut|
  {
    op.hash == Id(p, tx) && op.index < k
  }

  lemma {:induction false} NotedAt(p: Params, script: seq<byte>, index: Index, tx: MsgTx, at: Standing, k: nat,
        op: OutPoint)
    requires k <= |tx.txOut| <= MAX_UINT32
    ensures
      var r := Noted(p, script, index, tx, at, k);
      if Pays(p, tx, op, k) && tx.txOut[op.index].pkScript == script then
        op in r && r[op] == EntryOf(p, tx, tx.txOut[op.index], at)
      else
        (op in r <==> op in index) && (op in r ==> r[op] == index[op])
  {
    hide EntryOf;
    if k > 0 {
      NotedAt(p, script, index, tx, at, k - 1, op);
    }
  }

  lemma {:induction false} ConnectedAt(p: Params, tx: MsgTx, view: View, h: uint32, cb: bool, k: nat, op: OutPoint)
    requires k <= |tx.txOut| <= MAX_UINT32
    ensures
      var r := Connected(p, tx, view, h, cb, k);
      if Pays(p, tx, op, k) && tx.txOut[op.index].value != 0 then
        op in r && r[op] == UTXOEntry(tx.txOut[op.index], h, cb)
      else
        (op in r <==> op in view) && (op in r ==> r[op] == view[op])
  {
    if k > 0 {
      ConnectedAt(p, tx, view, h, cb, k - 1, op);
    }
  }

  lemma ScanTxAt(p: Params, script: seq<byte>, index: Index, tx: MsgTx, at: Standing, op: OutPoint)
    requires |tx.txOut| <= MAX_UINT32
    ensures
      var r := ScanTx(p, script, index, tx, at);
      if Pays(p, tx, op, |tx.txOut|) && tx.txOut[op.index].pkScript == script then
        op in r && r[op] == EntryOf(p, tx, tx.txOut[op.index], at)
      else
        (op in r <==> op in index && !Consumes(tx, op, |tx.txIn|)) && (op in r ==> r[op] == index[op])
  {
    hide EntryOf, Noted, Forgotten, Pays, Consumes;
    ForgottenAt(index, tx, |tx.txIn|, op);
    NotedAt(p, script, Forgotten(index, tx, |tx.txIn|), tx, at, |tx.txOut|, op);
  }

  lemma {:induction false} SpendFromAt(p: Params, tx: MsgTx, i: nat, spent: set<OutPoint>, acc: Spending, h: uint32,
        op: OutPoint)
    requires i <= |tx.txIn| && SpendFrom(p, tx, i, spent, acc, h).Ok?
    ensures
      var r := SpendFrom(p, tx, i, spent, acc, h).value.view;
      var consumed := exists j :: i <= j < |tx.txIn| && tx.txIn[j].previous == op;
      && (op in r <==> op in acc.view && !consumed)
      && (op in r ==> r[op] == acc.view[op])
      && (consumed ==> op in acc.view)
    decreases |tx.txIn| - i
  {
    if i < |tx.txIn| {
      var first := tx.txIn[i].previous;
      var next := Spending(acc.total + acc.view[first].txOut.value, acc.view - {first});
      SpendFromAt(p, tx, i + 1, spent + {first}, next, h, op);
    }
  }

  lemma ConnectTxAt(p: Params, tx: MsgTx, view: View, h: uint32, op: OutPoint)
    requires |tx.txOut| <= MAX_UINT32 && ConnectTx(p, tx, view, h).Ok?
    ensures
      var r := ConnectTx(p, tx, view, h).value.view;
      if Pays(p, tx, op, |tx.txOut|) && tx.txOut[op.index].value != 0 then
        op in r && r[op] == UTXOEntry(tx.txOut[op.index], h, false)
      else
        (op in r <==> op in view && !Consumes(tx, op, |tx.txIn|)) && (op in r ==> r[op] == view[op])
    ensures Consumes(tx, op, |tx.txIn|) ==> op in view
  {
    hide SpendFrom, Connected, CheckOutputs, Pays;
    var spending := SpendFrom(p, tx, 0, {}, Spending(0, view), h).value;
    SpendFromAt(p, tx, 0, {}, Spending(0, view), h, op);
    ConnectedAt(p, tx, spending.view, h, false, |tx.txOut|, op);
  }

  // ---- agreement ----

  /** How the index shows an entry of the ledger: mature when the next block may spend it. */
  function Shown(p: Params, e: UTXOEntry, tip: uint32): Entry {
    Entry(e.txOut.value, e.blockHeight, e.coinbase, !Immature(p, e, Wrap32(tip + 1)), false)
  }

  /** At one outpoint, the index and the ledger say the same of this script, outputs of value zero aside. */
  ghost predicate Matches(p: Params, script: seq<byte>, tip: uint32, index: Index, view: View, op: OutPoint) {
    && (op in index && index[op].value != 0 <==> op in view && view[op].txOut.pkScript == script)
    && (op in index && index[op].value != 0 && op in view ==> index[op] == Shown(p, view[op], tip))
  }

  ghost predicate Agree(p: Params, script: seq<byte>, tip: uint32, index: Index, view: View) {
    forall op :: Matches(p, script, tip, index, view, op)
  }

  /** Agreement but for the outputs of one transaction. */
  ghost predicate AgreeExcept(p: Params, script: seq<byte>, tip: uint32, index: Index, view: View, id: Hash) {
    forall op: OutPoint :: op.hash != id ==> Matches(p, script, tip, index, view, op)
  }

  /** Every key belongs to a transaction in `seen`, and no index is the largest one. */
  ghost predicate Within<V>(m: map<OutPoint, V>, seen: set<Hash>) {
    forall op :: op in m ==> op.hash in seen && op.index < MAX_UINT32
  }

  ghost predicate SameFor(a: Index, b: Index, id: Hash) {
    forall op: OutPoint :: op.hash == id ==> SameAt(a, b, op)
  }

  ghost predicate SameAt(a: Index, b: Index, op: OutPoint) {
    (op in a <==> op in b) && (op in a ==> a[op] == b[op])
  }

  lemma EntryIsShown(p: Params, tx: MsgTx, out: TxOut, h: uint32, tip: uint32)
    ensures EntryOf(p, tx, out, OnChain(h, tip)) == Shown(p, UTXOEntry(out, h, tx.IsCoinbase()), tip)
  {
    hide MsgTx.IsCoinbase, Wrap32;
  }

  lemma RegularMatches(p: Params, script: seq<byte>, tip: uint32, index: Index, view: View, tx: MsgTx, h: uint32,
        op: OutPoint)
    requires |tx.txOut| <= MAX_UINT32 && ConnectTx(p, tx, view, h).Ok? && !tx.IsCoinbase()
    requires Matches(p, script, tip, index, view, op)
    requires op.hash == Id(p, tx) ==> op !in index && op !in view
    ensures Matches(p, script, tip, ScanTx(p, script, index, tx, OnChain(h, tip)),
      ConnectTx(p, tx, view, h).value.view, op)
  {
    hide ConnectTx, ScanTx, EntryOf, Shown, Consumes, MsgTx.IsCoinbase;
    ScanTxAt(p, script, index, tx, OnChain(h, tip), op);
    ConnectTxAt(p, tx, view, h, op);
    if Pays(p, tx, op, |tx.txOut|) {
      EntryIsShown(p, tx, tx.txOut[op.index], h, tip);
      EntryValue(p, tx, tx.txOut[op.index], OnChain(h, tip));
    }
  }

  lemma EntryValue(p: Params, tx: MsgTx, out: TxOut, at: Standing)
    ensures EntryOf(p, tx, out, at).value == out.value
  {
  }

  /** One regular transaction, connected and scanned. */
  lemma RegularAgrees(p: Params, script: seq<byte>, tip: uint32, index: Index, view: View, tx: MsgTx, h: uint32,
        seen: set<Hash>, id: Hash)
    requires |tx.txOut| <= MAX_UINT32 && ConnectTx(p, tx, view, h).Ok? && !tx.IsCoinbase()
    requires AgreeExcept(p, script, tip, index, view, id) && Within(view, seen) && Within(index, seen + {id})
    requires id !in seen && Id(p, tx) !in seen && Id(p, tx) != id
    ensures
      var next, after := ScanTx(p, script, index, tx, OnChain(h, tip)), ConnectTx(p, tx, view, h).value.view;
      && AgreeExcept(p, script, tip, next, after, id)
      && SameFor(next, index, id)
      && Within(after, seen + {Id(p, tx)})
      && Within(next, seen + {Id(p, tx)} + {id})
  {
    hide ConnectTx, ScanTx, EntryOf, Matches, MsgTx.IsCoinbase;
    var next, after := ScanTx(p, script, index, tx, OnChain(h, tip)), ConnectTx(p, tx, view, h).value.view;
    forall op: OutPoint
      ensures op.hash != id ==> Matches(p, script, tip, next, after, op)
      ensures op.hash == id ==> SameAt(next, index, op)
      ensures op in after ==> op.hash in seen + {Id(p, tx)} && op.index < MAX_UINT32
      ensures op in next ==> op.hash in seen + {Id(p, tx)} + {id} && op.index < MAX_UINT32
    {
      ScanTxAt(p, script, index, tx, OnChain(h, tip), op);
      ConnectTxAt(p, tx, view, h, op);
      if op.hash != id {
        RegularMatches(p, script, tip, index, view, tx, h, op);
      }
    }
  }

  ghost predicate FewOutputs(txs: seq<MsgTx>) {
    forall tx :: tx in txs ==> |tx.txOut| <= MAX_UINT32
  }

  lemma {:induction false} RegularsAgree(p: Params, script: seq<byte>, tip: uint32, first: Index, txs: seq<MsgTx>,
        i: nat, acc: Regular, h: uint32, seen: set<Hash>, id: Hash)
    requires i <= |txs| && ConnectRegularFrom(p, txs, i, acc, h).Ok?
    requires FewOutputs(txs) && Distinct(p, txs) && seen !! Ids(p, txs) && id !in seen && id !in Ids(p, txs)
    requires
      var index := ScanTxs(p, script, first, txs[..i], OnChain(h, tip));
      && AgreeExcept(p, script, tip, index, acc.view, id)
      && SameFor(index, first, id)
      && Within(acc.view, seen + Ids(p, txs[..i]))
      && Within(index, seen + Ids(p, txs[..i]) + {id})
    ensures
      var index, view := ScanTxs(p, script, first, txs, OnChain(h, tip)),
        ConnectRegularFrom(p, txs, i, acc, h).value.view;
      && AgreeExcept(p, script, tip, index, view, id)
      && SameFor(index, first, id)
      && Within(view, seen + Ids(p, txs))
      && Within(index, seen + Ids(p, txs) + {id})
    decreases |txs| - i
  {
    hide ConnectTx, ScanTx, AgreeExcept, SameFor, Within, MsgTx.IsCoinbase, Distinct, FewOutputs, Ids;
    if i < |txs| {
      var tx := txs[i];
      var index := ScanTxs(p, script, first, txs[..i], OnChain(h, tip));
      var one := ConnectTx(p, tx, acc.view, h).value;
      IdsStep(p, txs, i);
      RegularAgrees(p, script, tip, index, acc.view, tx, h, seen + Ids(p, txs[..i]), id);
      assert txs[..i + 1][..i] == txs[..i];
      assert seen + Ids(p, txs[..i]) + {Id(p, tx)} == seen + Ids(p, txs[..i + 1]);
      SameForStep(ScanTx(p, script, index, tx, OnChain(h, tip)), index, first, id);
      RegularsAgree(p, script, tip, first, txs, i + 1, Regular(acc.fees + one.fees, one.view), h, seen, id);
    } else {
      assert txs[..i] == txs;
    }
  }

  lemma SameForStep(a: Index, b: Index, c: Index, id: Hash)
    requires SameFor(a, b, id) && SameFor(b, c, id)
    ensures SameFor(a, c, id)
  {
    forall op: OutPoint | op.hash == id
      ensures SameAt(a, c, op)
    {
      assert SameAt(a, b, op) && SameAt(b, c, op);
    }
  }

  lemma IdsStep(p: Params, txs: seq<MsgTx>, i: nat)
    requires i < |txs| && Distinct(p, txs) && FewOutputs(txs)
    ensures Ids(p, txs[..i + 1]) == Ids(p, txs[..i]) + {Id(p, txs[i])}
    ensures Ids(p, txs[..i + 1]) <= Ids(p, txs)
    ensures Id(p, txs[i]) in Ids(p, txs) && Id(p, txs[i]) !in Ids(p, txs[..i])
    ensures |txs[i].txOut| <= MAX_UINT32
  {
    assert txs[..i + 1] == txs[..i] + [txs[i]];
    assert txs[i] in txs;
    forall tx | tx in txs[..i]
      ensures Id(p, tx) != Id(p, txs[i])
    {
      var j :| 0 <= j < i && txs[j] == tx;
    }
    forall tx | tx in txs[..i + 1]
      ensures tx in txs
    {
    }
  }

  // ---- blocks ----

  lemma {:induction false} ScanTxsCons(p: Params, script: seq<byte>, index: Index, tx: MsgTx, rest: seq<MsgTx>,
        at: Standing)
    ensures ScanTxs(p, script, index, [tx] + rest, at) == ScanTxs(p, script, ScanTx(p, script, index, tx, at), rest, at)
    decreases |rest|
  {
    hide ScanTx;
    var all := [tx] + rest;
    if rest == [] {
      assert all[..|all| - 1] == [];
    } else {
      assert all[..|all| - 1] == [tx] + rest[..|rest| - 1];
      ScanTxsCons(p, script, index, tx, rest[..|rest| - 1], at);
    }
  }

  /** The coinbase is scanned first; nothing else changes, for no one can hold the outpoint that it names. */
  lemma CoinbaseScanned(p: Params, script: seq<byte>, tip: uint32, index: Index, view: View, tx: MsgTx, at: Standing,
        seen: set<Hash>)
    requires |tx.txOut| <= MAX_UINT32 && tx.IsCoinbase()
    requires Agree(p, script, tip, index, view) && Within(index, seen)
    ensures
      var first := ScanTx(p, script, index, tx, at);
      AgreeExcept(p, script, tip, first, view, Id(p, tx)) && Within(first, seen + {Id(p, tx)})
  {
    var first := ScanTx(p, script, index, tx, at);
    forall op: OutPoint
      ensures op.hash != Id(p, tx) ==> Matches(p, script, tip, first, view, op)
      ensures op in first ==> op.hash in seen + {Id(p, tx)} && op.index < MAX_UINT32
    {
      assert Matches(p, script, tip, index, view, op);
      ScanTxAt(p, script, index, tx, at, op);
      hide ScanTx, EntryOf, Shown;
    }
  }

  lemma CoinbaseMatches(p: Params, script: seq<byte>, tip: uint32, before: Index, scanned: Index, view: View,
        tx: MsgTx, h: uint32, op: OutPoint)
    requires |tx.txOut| <= MAX_UINT32 && tx.IsCoinbase() && op.hash == Id(p, tx)
    requires op !in before && op !in view
    requires SameAt(scanned, ScanTx(p, script, before, tx, OnChain(h, tip)), op)
    ensures Matches(p, script, tip, scanned, ConnectOutputs(p, tx, view, h, true), op)
  {
    hide ScanTx, EntryOf, Shown, Connected, MsgTx.IsCoinbase;
    ScanTxAt(p, script, before, tx, OnChain(h, tip), op);
    ConnectedAt(p, tx, view, h, true, |tx.txOut|, op);
    if Pays(p, tx, op, |tx.txOut|) {
      EntryIsShown(p, tx, tx.txOut[op.index], h, tip);
      EntryValue(p, tx, tx.txOut[op.index], OnChain(h, tip));
    }
  }

  /** The coinbase is connected last, and closes the gap. */
  lemma CoinbaseConnected(p: Params, script: seq<byte>, tip: uint32, before: Index, scanned: Index, view: View,
        tx: MsgTx, h: uint32, seen: set<Hash>, more: set<Hash>)
    requires |tx.txOut| <= MAX_UINT32 && tx.IsCoinbase()
    requires AgreeExcept(p, script, tip, scanned, view, Id(p, tx))
    requires SameFor(scanned, ScanTx(p, script, before, tx, OnChain(h, tip)), Id(p, tx))
    requires Within(before, seen) && Within(view, more) && Id(p, tx) !in seen && Id(p, tx) !in more
    ensures Agree(p, script, tip, scanned, ConnectOutputs(p, tx, view, h, true))
    ensures Within(ConnectOutputs(p, tx, view, h, true), more + {Id(p, tx)})
  {
    hide ScanTx, EntryOf, Shown, Connected, MsgTx.IsCoinbase;
    var after := ConnectOutputs(p, tx, view, h, true);
    forall op: OutPoint
      ensures Matches(p, script, tip, scanned, after, op)
      ensures op in after ==> op.hash in more + {Id(p, tx)} && op.index < MAX_UINT32
    {
      ConnectedAt(p, tx, view, h, true, |tx.txOut|, op);
      if op.hash == Id(p, tx) {
        assert SameAt(scanned, ScanTx(p, script, before, tx, OnChain(h, tip)), op);
        CoinbaseMatches(p, script, tip, before, scanned, view, tx, h, op);
      } else {
        assert Matches(p, script, tip, scanned, view, op);
      }
    }
  }

  lemma BlockAgrees(p: Params, script: seq<byte>, tip: uint32, index: Index, view: View, block: MsgBlock,
        seen: set<Hash>)
    requires p.WellFormed() && block.transactions != []
    requires ConnectBlock(p, block, view, block.header.height).Ok?
    requires Agree(p, script, tip, index, view) && Within(index, seen) && Within(view, seen)
    requires Distinct(p, block.transactions) && FewOutputs(block.transactions) && seen !! Ids(p, block.transactions)
    ensures
      var next := ScanTxs(p, script, index, block.transactions, OnChain(block.header.height, tip));
      var after := ConnectBlock(p, block, view, block.header.height).value;
      && Agree(p, script, tip, next, after)
      && Within(next, seen + Ids(p, block.transactions))
      && Within(after, seen + Ids(p, block.transactions))
  {
    hide Params.WellFormed, ConnectRegularFrom, ScanTx, ScanTxs, ConnectOutputs, Agree, AgreeExcept, SameFor,
      Within, Distinct, FewOutputs, Ids, MsgTx.IsCoinbase;
    var h, cb, txs := block.header.height, block.transactions[0], block.transactions[1..];
    var at := OnChain(h, tip);
    var first := ScanTx(p, script, index, cb, at);
    var id := Id(p, cb);
    var regular := ConnectRegular(p, txs, view, h).value;
    CoinbasePassed(p, block, regular.fees);
    FirstAndRest(p, block.transactions);
    CoinbaseScanned(p, script, tip, index, view, cb, at, seen);
    assert block.transactions == [cb] + txs;
    ScanTxsCons(p, script, index, cb, txs, at);
    StartOfRegulars(p, script, first, txs, at, id, view, seen);
    RegularsAgree(p, script, tip, first, txs, 0, Regular(0, view), h, seen, id);
    CoinbaseConnected(p, script, tip, index, ScanTxs(p, script, first, txs, at), regular.view, cb, h, seen,
      seen + Ids(p, txs));
    assert seen + Ids(p, txs) + {id} == seen + Ids(p, block.transactions);
  }

  lemma CoinbasePassed(p: Params, block: MsgBlock, fees: Amount)
    requires p.WellFormed() && block.transactions != [] && CheckCoinbase(p, block, fees) == None
    ensures block.transactions[0].IsCoinbase()
  {
    hide Params.WellFormed, CheckOutputs, HasExtraCoinbase, MsgTx.IsCoinbase;
  }

  lemma FirstAndRest(p: Params, txs: seq<MsgTx>)
    requires txs != [] && Distinct(p, txs) && FewOutputs(txs)
    ensures |txs[0].txOut| <= MAX_UINT32 && FewOutputs(txs[1..]) && Distinct(p, txs[1..])
    ensures Id(p, txs[0]) in Ids(p, txs) && Id(p, txs[0]) !in Ids(p, txs[1..])
    ensures Ids(p, txs) == Ids(p, txs[1..]) + {Id(p, txs[0])}
  {
    assert txs == [txs[0]] + txs[1..];
    forall tx | tx in txs[1..]
      ensures Id(p, tx) != Id(p, txs[0])
    {
      var j :| 0 <= j < |txs| - 1 && txs[1..][j] == tx;
      assert txs[j + 1] == tx;
    }
  }

  lemma StartOfRegulars(p: Params, script: seq<byte>, first: Index, txs: seq<MsgTx>, at: Standing, id: Hash,
        view: View, seen: set<Hash>)
    requires Within(view, seen)
    ensures ScanTxs(p, script, first, txs[..0], at) == first && SameFor(first, first, id)
    ensures Ids(p, txs[..0]) == {} && seen + Ids(p, txs[..0]) == seen
  {
    assert txs[..0] == [];
  }

  // ---- chains ----

  function AllTxs(blocks: seq<MsgBlock>): seq<MsgTx> {
    if blocks == [] then [] else AllTxs(blocks[..|blocks| - 1]) + blocks[|blocks| - 1].transactions
  }

  lemma SplitTxs(p: Params, a: seq<MsgTx>, b: seq<MsgTx>)
    requires Distinct(p, a + b) && FewOutputs(a + b)
    ensures Distinct(p, a) && Distinct(p, b) && FewOutputs(a) && FewOutputs(b)
    ensures Ids(p, a) !! Ids(p, b) && Ids(p, a + b) == Ids(p, a) + Ids(p, b)
  {
    var all := a + b;
    forall i, j | 0 <= i < j < |a|
      ensures Id(p, a[i]) != Id(p, a[j])
    {
      assert all[i] == a[i] && all[j] == a[j];
    }
    forall i, j | 0 <= i < j < |b|
      ensures Id(p, b[i]) != Id(p, b[j])
    {
      assert all[|a| + i] == b[i] && all[|a| + j] == b[j];
    }
    forall i, j | 0 <= i < |a| && 0 <= j < |b|
      ensures Id(p, a[i]) != Id(p, b[j])
    {
      assert all[i] == a[i] && all[|a| + j] == b[j];
    }
  }

  /** The genesis block pays nothing, so its scan shows nothing of value. */
  lemma GenesisAgrees(p: Params, script: seq<byte>, tip: uint32)
    requires p.WellFormed() && FewOutputs(p.genesisBlock.transactions)
    ensures
      var index := ScanBlocks(p, script, [p.genesisBlock], tip);
      Agree(p, script, tip, index, map[]) && Within(index, Ids(p, AllTxs([p.genesisBlock])))
  {
    hide Params.SubsidyShrinks, Params.DifficultyInRange;
    var txs := p.genesisBlock.transactions;
    var tx := txs[0];
    var at := OnChain(p.genesisBlock.header.height, tip);
    assert txs == [tx] && [p.genesisBlock][..0] == [] && txs[..0] == [] && [] + txs == txs;
    var index := ScanTx(p, script, map[], tx, at);
    assert ScanBlocks(p, script, [], tip) == map[] && AllTxs([]) == [];
    assert ScanTxs(p, script, map[], [], at) == map[];
    assert ScanTxs(p, script, map[], txs, at) == index;
    assert ScanBlocks(p, script, [p.genesisBlock], tip) == index && AllTxs([p.genesisBlock]) == txs;
    hide ScanBlocks, ScanTxs, ScanTx, AllTxs;
    assert tx in txs;
    forall op: OutPoint
      ensures Matches(p, script, tip, index, map[], op)
      ensures op in index ==> op.hash in Ids(p, txs) && op.index < MAX_UINT32
    {
      ScanTxAt(p, script, map[], tx, at, op);
      if Pays(p, tx, op, |tx.txOut|) {
        EntryValue(p, tx, tx.txOut[op.index], at);
      }
    }
  }

  lemma {:induction false} ChainAgrees(p: Params, script: seq<byte>, tip: uint32, blocks: seq<MsgBlock>)
    requires p.WellFormed() && Linked(p, blocks) && Replay(p, blocks).Some?
    requires Distinct(p, AllTxs(blocks)) && FewOutputs(AllTxs(blocks))
    ensures
      var index := ScanBlocks(p, script, blocks, tip);
      && Agree(p, script, tip, index, Replay(p, blocks).value)
      && Within(index, Ids(p, AllTxs(blocks)))
      && Within(Replay(p, blocks).value, Ids(p, AllTxs(blocks)))
    decreases |blocks|
  {
    hide Params.WellFormed, BlockFollows, ConnectBlock, ScanTxs, Agree, Within, Distinct, FewOutputs, Ids;
    var front, last := blocks[..|blocks| - 1], blocks[|blocks| - 1];
    SplitTxs(p, AllTxs(front), last.transactions);
    if |blocks| > 1 {
      LinkedPrefix(p, blocks, |blocks| - 1);
      ChainAgrees(p, script, tip, front);
      BlockAgrees(p, script, tip, ScanBlocks(p, script, front, tip), Replay(p, front).value, last,
        Ids(p, AllTxs(front)));
    } else {
      assert blocks == [p.genesisBlock];
      GenesisAgrees(p, script, tip);
      NothingIsWithin(Ids(p, AllTxs(blocks)));
    }
  }

  lemma NothingIsWithin(seen: set<Hash>)
    ensures Within<UTXOEntry>(map[], seen)
  {
  }

  // ---- the mempool ----

  /** As the index shows an output: one of a waiting transaction has no height and is not mature yet. */
  function ShownWith(p: Params, e: UTXOEntry, tip: uint32, waiting: bool): Entry {
    if waiting then Entry(e.txOut.value, 0, false, false, true) else Shown(p, e, tip)
  }

  ghost predicate MatchesWith(p: Params, script: seq<byte>, tip: uint32, waiting: set<Hash>, index: Index, view: View,
        op: OutPoint) {
    && (op in index && index[op].value != 0 <==> op in view && view[op].txOut.pkScript == script)
    && (op in index && index[op].value != 0 && op in view ==>
          index[op] == ShownWith(p, view[op], tip, op.hash in waiting))
  }

  ghost predicate AgreeWith(p: Params, script: seq<byte>, tip: uint32, waiting: set<Hash>, index: Index, view: View) {
    forall op :: MatchesWith(p, script, tip, waiting, index, view, op)
  }

  /** One waiting transaction, connected and scanned. */
  lemma WaitingAgrees(p: Params, script: seq<byte>, tip: uint32, waiting: set<Hash>, index: Index, view: View,
        tx: MsgTx,
        h: uint32, seen: set<Hash>)
    requires |tx.txOut| <= MAX_UINT32 && ConnectTx(p, tx, view, h).Ok? && Id(p, tx) !in seen
    requires AgreeWith(p, script, tip, waiting, index, view) && Within(view, seen) && Within(index, seen)
    ensures
      var next, after := ScanTx(p, script, index, tx, Waiting), ConnectTx(p, tx, view, h).value.view;
      && AgreeWith(p, script, tip, waiting + {Id(p, tx)}, next, after)
      && Within(after, seen + {Id(p, tx)})
      && Within(next, seen + {Id(p, tx)})
  {
    hide ConnectTx, ScanTx, Consumes, Shown;
    var next, after := ScanTx(p, script, index, tx, Waiting), ConnectTx(p, tx, view, h).value.view;
    forall op: OutPoint
      ensures MatchesWith(p, script, tip, waiting + {Id(p, tx)}, next, after, op)
      ensures op in after ==> op.hash in seen + {Id(p, tx)} && op.index < MAX_UINT32
      ensures op in next ==> op.hash in seen + {Id(p, tx)} && op.index < MAX_UINT32
    {
      ScanTxAt(p, script, index, tx, Waiting, op);
      ConnectTxAt(p, tx, view, h, op);
      assert MatchesWith(p, script, tip, waiting, index, view, op);
    }
  }

  lemma {:induction false} PoolAgrees(p: Params, script: seq<byte>, tip: uint32, first: Index, txs: seq<MsgTx>, i: nat,
        acc: Regular, h: uint32, seen: set<Hash>)
    requires i <= |txs| && ConnectRegularFrom(p, txs, i, acc, h).Ok?
    requires FewOutputs(txs) && Distinct(p, txs) && seen !! Ids(p, txs)
    requires
      var index := ScanTxs(p, script, first, txs[..i], Waiting);
      && AgreeWith(p, script, tip, Ids(p, txs[..i]), index, acc.view)
      && Within(acc.view, seen + Ids(p, txs[..i]))
      && Within(index, seen + Ids(p, txs[..i]))
    ensures
      AgreeWith(p, script, tip, Ids(p, txs), ScanTxs(p, script, first, txs, Waiting),
        ConnectRegularFrom(p, txs, i, acc, h).value.view)
    decreases |txs| - i
  {
    hide ConnectTx, ScanTx, AgreeWith, Within, MsgTx.IsCoinbase, Distinct, FewOutputs, Ids;
    if i < |txs| {
      var tx := txs[i];
      var index := ScanTxs(p, script, first, txs[..i], Waiting);
      var one := ConnectTx(p, tx, acc.view, h).value;
      IdsStep(p, txs, i);
      WaitingAgrees(p, script, tip, Ids(p, txs[..i]), index, acc.view, tx, h, seen + Ids(p, txs[..i]));
      assert txs[..i + 1][..i] == txs[..i];
      assert seen + Ids(p, txs[..i]) + {Id(p, tx)} == seen + Ids(p, txs[..i + 1]);
      PoolAgrees(p, script, tip, first, txs, i + 1, Regular(acc.fees + one.fees, one.view), h, seen);
    } else {
      assert txs[..i] == txs;
    }
  }

  lemma NothingWaits(p: Params, script: seq<byte>, tip: uint32, index: Index, view: View, txs: seq<MsgTx>,
        seen: set<Hash>)
    requires Agree(p, script, tip, index, view)
    ensures ScanTxs(p, script, index, txs[..0], Waiting) == index
    ensures Ids(p, txs[..0]) == {} && seen + Ids(p, txs[..0]) == seen
    ensures AgreeWith(p, script, tip, Ids(p, txs[..0]), index, view)
  {
    hide Shown, Ids;
    assert txs[..0] == [];
    assert Ids(p, []) == {} by {
      NoIds(p);
    }
    forall op
      ensures MatchesWith(p, script, tip, {}, index, view, op)
    {
      assert Matches(p, script, tip, index, view, op);
    }
  }

  lemma NoIds(p: Params)
    ensures Ids(p, []) == {}
  {
  }

  /** The ledger once the whole pool has been connected as the next block would connect it. */
  function LedgerWith(p: Params, s: State, pool: seq<MsgTx>): View
    requires s.blocks != [] && Connects(p, s, pool)
  {
    ConnectRegular(p, pool, s.utxos, Wrap32(Tip(s).header.height + 1)).value.view
  }

  /**
   On a chain and a pool whose transactions have identifiers of their own, where the pool could go into the
   next block, the scan finds exactly the outputs of the script that are unspent once the pool is connected,
   outputs of value zero aside. Those of the pool's own transactions are shown as pending; of the chain's, it
   calls mature exactly those that the next block may spend.
   */
  lemma ScanAgreesWithLedger(p: Params, s: State, script: seq<byte>, pool: seq<MsgTx>, op: OutPoint)
    requires p.WellFormed() && Good(p, s) && s.blocks != [] && Connects(p, s, pool)
    requires Distinct(p, AllTxs(s.blocks) + pool) && FewOutputs(AllTxs(s.blocks) + pool)
    ensures
      var found, view := Found(p, s, script, pool), LedgerWith(p, s, pool);
      && (op in found && found[op].value != 0 <==> op in view && view[op].txOut.pkScript == script)
      && (op in found && found[op].value != 0 ==>
            found[op] == ShownWith(p, view[op], Tip(s).header.height, op.hash in Ids(p, pool)))
    ensures pool == [] ==> LedgerWith(p, s, pool) == s.utxos
  {
    hide Params.WellFormed, Linked, Replay, ScanBlocks, ScanTxs, ConnectRegularFrom, Distinct, FewOutputs, Ids,
      AgreeWith,
      Agree, Within, Shown;
    var tip := Tip(s).header.height;
    var index := ScanBlocks(p, script, s.blocks, tip);
    var h := Wrap32(Tip(s).header.height + 1);
    var seen := Ids(p, AllTxs(s.blocks));
    SplitTxs(p, AllTxs(s.blocks), pool);
    ChainAgrees(p, script, tip, s.blocks);
    NothingWaits(p, script, tip, index, s.utxos, pool, seen);
    PoolAgrees(p, script, tip, index, pool, 0, Regular(0, s.utxos), h, seen);
    OneMatches(p, script, tip, Ids(p, pool), Found(p, s, script, pool), LedgerWith(p, s, pool), op);
    NothingConnected(p, s.utxos, h);
  }

  lemma OneMatches(p: Params, script: seq<byte>, tip: uint32, waiting: set<Hash>, index: Index, view: View,
        op: OutPoint)
    requires AgreeWith(p, script, tip, waiting, index, view)
    ensures MatchesWith(p, script, tip, waiting, index, view, op)
  {
  }

  lemma NothingConnected(p: Params, view: View, h: uint32)
    ensures ConnectRegular(p, [], view, h) == Ok(Regular(0, view))
  {
  }
}
