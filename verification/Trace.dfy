/**
 The history of a chain, output by output. Flattened in connection order, an accepted chain is a list of
 creations and spendings; the ledger is what is created and not yet spent, and nothing is spent twice.
 */
module Trace {
  import opened Ints
  import opened WireTypes
  import opened ChainCfg
  import opened Ledger
  import opened ChainFacts
  import Conservation

  /** A transaction where it stands in the chain. */
  datatype Placed = Placed(tx: MsgTx, height: uint32, coinbase: bool)

  datatype Event =
    | Spend(outpoint: OutPoint, height: uint32)
    | Create(outpoint: OutPoint, entry: UTXOEntry)

  function Regulars(txs: seq<MsgTx>, height: uint32): (r: seq<Placed>)
    ensures |r| == |txs|
    ensures forall i :: 0 <= i < |r| ==> r[i] == Placed(txs[i], height, false)
  {
    if txs == [] then [] else [Placed(txs[0], height, false)] + Regulars(txs[1..], height)
  }

  /** The order in which a block's transactions reach the ledger: the coinbase comes last. */
  function BlockOrder(block: MsgBlock): seq<Placed> {
    if block.transactions == [] then []
    else
      Regulars(block.transactions[1..], block.header.height) +
      [Placed(block.transactions[0], block.header.height, true)]
  }

  function ChainOrder(blocks: seq<MsgBlock>): seq<Placed> {
    if |blocks| <= 1 then [] else ChainOrder(blocks[..|blocks| - 1]) + BlockOrder(blocks[|blocks| - 1])
  }

  function SpendsFrom(tx: MsgTx, height: uint32, i: nat): seq<Event>
    requires i <= |tx.txIn|
    decreases |tx.txIn| - i
  {
    if i == |tx.txIn| then [] else [Spend(tx.txIn[i].previous, height)] + SpendsFrom(tx, height, i + 1)
  }

  function Creates(p: Params, t: Placed, k: nat): seq<Event>
    requires k <= |t.tx.txOut|
  {
    if k == 0 then []
    else if t.tx.txOut[k - 1].value == 0 then Creates(p, t, k - 1)
    else Creates(p, t, k - 1) + [Create(OutPointAt(p, t.tx, k - 1), UTXOEntry(t.tx.txOut[k - 1], t.height, t.coinbase))]
  }

  /** A regular transaction spends its inputs and creates its outputs; a coinbase only creates. */
  function Events(p: Params, t: Placed): seq<Event> {
    (if t.coinbase then [] else SpendsFrom(t.tx, t.height, 0)) + Creates(p, t, |t.tx.txOut|)
  }

  function AllEvents(p: Params, placed: seq<Placed>): seq<Event> {
    if placed == [] then [] else AllEvents(p, placed[..|placed| - 1]) + Events(p, placed[|placed| - 1])
  }

  function Apply(view: View, e: Event): View {
    match e
    case Spend(op, _) => view - {op}
    case Create(op, entry) => view[op := entry]
  }

  function Run(view: View, es: seq<Event>): View {
    if es == [] then view else Apply(Run(view, es[..|es| - 1]), es[|es| - 1])
  }

  /** Every spending finds its output, mature. */
  ghost predicate Legal(p: Params, view: View, es: seq<Event>) {
    forall k :: 0 <= k < |es| && es[k].Spend? ==> Spendable(p, Run(view, es[..k]), es[k])
  }

  predicate Spendable(p: Params, view: View, e: Event)
    requires e.Spend?
  {
    e.outpoint in view && !Immature(p, view[e.outpoint], e.height)
  }

  // ---- concatenation ----

  lemma {:induction false} RunAppend(view: View, a: seq<Event>, b: seq<Event>)
    ensures Run(view, a + b) == Run(Run(view, a), b)
    decreases |b|
  {
    if b == [] {
      assert a + b == a;
    } else {
      var all := a + b;
      assert all[..|all| - 1] == a + b[..|b| - 1];
      RunAppend(view, a, b[..|b| - 1]);
    }
  }

  lemma LegalAppend(p: Params, view: View, a: seq<Event>, b: seq<Event>)
    requires Legal(p, view, a) && Legal(p, Run(view, a), b)
    ensures Legal(p, view, a + b)
  {
    hide Run, Spendable;
    var all := a + b;
    forall k | 0 <= k < |all| && all[k].Spend?
      ensures Spendable(p, Run(view, all[..k]), all[k])
    {
      if k < |a| {
        assert all[..k] == a[..k] && all[k] == a[k];
      } else {
        assert all[..k] == a + b[..k - |a|] && all[k] == b[k - |a|];
        RunAppend(view, a, b[..k - |a|]);
      }
    }
  }

  lemma {:induction false} AllEventsAppend(p: Params, a: seq<Placed>, b: seq<Placed>)
    ensures AllEvents(p, a + b) == AllEvents(p, a) + AllEvents(p, b)
    decreases |b|
  {
    hide Events;
    if b == [] {
      assert a + b == a;
    } else {
      var all := a + b;
      assert all[..|all| - 1] == a + b[..|b| - 1];
      AllEventsAppend(p, a, b[..|b| - 1]);
    }
  }

  lemma OneTransaction(p: Params, t: Placed)
    ensures AllEvents(p, [t]) == Events(p, t)
  {
    assert [t][..0] == [];
    assert AllEvents(p, []) == [];
  }

  // ---- validation is the run of a legal history ----

  lemma {:induction false} CreatesRun(p: Params, t: Placed, view: View, k: nat)
    requires k <= |t.tx.txOut|
    ensures Run(view, Creates(p, t, k)) == Connected(p, t.tx, view, t.height, t.coinbase, k)
    ensures forall i :: 0 <= i < |Creates(p, t, k)| ==> Creates(p, t, k)[i].Create?
  {
    if k > 0 {
      CreatesRun(p, t, view, k - 1);
      var es := Creates(p, t, k);
      if t.tx.txOut[k - 1].value != 0 {
        assert es[..|es| - 1] == Creates(p, t, k - 1);
      }
    }
  }

  lemma FirstEvent(p: Params, view: View, e: Event, rest: seq<Event>)
    requires e.Spend? ==> Spendable(p, view, e)
    requires Legal(p, Apply(view, e), rest)
    ensures Run(view, [e] + rest) == Run(Apply(view, e), rest)
    ensures Legal(p, view, [e] + rest)
  {
    assert [e][..0] == [];
    assert Run(view, [e]) == Apply(view, e);
    RunAppend(view, [e], rest);
    LegalAppend(p, view, [e], rest);
  }

  lemma {:induction false} SpendsRun(p: Params, tx: MsgTx, i: nat, spent: set<OutPoint>, acc: Spending, h: uint32)
    requires i <= |tx.txIn| && SpendFrom(p, tx, i, spent, acc, h).Ok?
    ensures Run(acc.view, SpendsFrom(tx, h, i)) == SpendFrom(p, tx, i, spent, acc, h).value.view
    ensures Legal(p, acc.view, SpendsFrom(tx, h, i))
    decreases |tx.txIn| - i
  {
    if i < |tx.txIn| {
      var op := tx.txIn[i].previous;
      var next := Spending(acc.total + acc.view[op].txOut.value, acc.view - {op});
      SpendsRun(p, tx, i + 1, spent + {op}, next, h);
      FirstEvent(p, acc.view, Spend(op, h), SpendsFrom(tx, h, i + 1));
    }
  }

  lemma TxRun(p: Params, tx: MsgTx, view: View, h: uint32)
    requires ConnectTx(p, tx, view, h).Ok?
    ensures
      var es := Events(p, Placed(tx, h, false));
      Run(view, es) == ConnectTx(p, tx, view, h).value.view && Legal(p, view, es)
  {
    var t := Placed(tx, h, false);
    var spending := SpendFrom(p, tx, 0, {}, Spending(0, view), h).value;
    SpendsRun(p, tx, 0, {}, Spending(0, view), h);
    CreatesRun(p, t, spending.view, |tx.txOut|);
    RunAppend(view, SpendsFrom(tx, h, 0), Creates(p, t, |tx.txOut|));
    LegalAppend(p, view, SpendsFrom(tx, h, 0), Creates(p, t, |tx.txOut|));
  }

  lemma {:induction false} RegularRun(p: Params, txs: seq<MsgTx>, i: nat, acc: Regular, h: uint32)
    requires i <= |txs| && ConnectRegularFrom(p, txs, i, acc, h).Ok?
    ensures
      var es := AllEvents(p, Regulars(txs[i..], h));
      Run(acc.view, es) == ConnectRegularFrom(p, txs, i, acc, h).value.view && Legal(p, acc.view, es)
    decreases |txs| - i
  {
    hide ConnectTx, Events, Legal;
    if i < |txs| {
      var one := ConnectTx(p, txs[i], acc.view, h).value;
      var t := Placed(txs[i], h, false);
      TxRun(p, txs[i], acc.view, h);
      RegularRun(p, txs, i + 1, Regular(acc.fees + one.fees, one.view), h);
      var rest := Regulars(txs[i + 1..], h);
      assert txs[i..][1..] == txs[i + 1..];
      assert Regulars(txs[i..], h) == [t] + rest;
      OneTransaction(p, t);
      AllEventsAppend(p, [t], rest);
      RunAppend(acc.view, Events(p, t), AllEvents(p, rest));
      LegalAppend(p, acc.view, Events(p, t), AllEvents(p, rest));
    } else {
      assert Regulars(txs[i..], h) == [];
      NothingIsLegal(p, acc.view);
    }
  }

  lemma NothingIsLegal(p: Params, view: View)
    ensures Run(view, []) == view && Legal(p, view, []) && AllEvents(p, []) == []
  {
  }

  lemma CoinbaseRun(p: Params, tx: MsgTx, view: View, h: uint32)
    ensures
      var es := Events(p, Placed(tx, h, true));
      Run(view, es) == ConnectOutputs(p, tx, view, h, true) && Legal(p, view, es)
  {
    var t := Placed(tx, h, true);
    CreatesRun(p, t, view, |tx.txOut|);
    assert [] + Creates(p, t, |tx.txOut|) == Creates(p, t, |tx.txOut|);
  }

  lemma BlockRun(p: Params, block: MsgBlock, view: View)
    requires p.WellFormed() && block.transactions != []
    requires ConnectBlock(p, block, view, block.header.height).Ok?
    ensures
      var es := AllEvents(p, BlockOrder(block));
      Run(view, es) == ConnectBlock(p, block, view, block.header.height).value && Legal(p, view, es)
  {
    hide Params.WellFormed, CheckCoinbase, ConnectRegularFrom, Events, Legal, ConnectOutputs, Run, AllEvents;
    var h, txs := block.header.height, block.transactions[1..];
    var regular := ConnectRegular(p, txs, view, h).value;
    var t := Placed(block.transactions[0], h, true);
    RegularRun(p, txs, 0, Regular(0, view), h);
    assert txs[0..] == txs;
    CoinbaseRun(p, block.transactions[0], regular.view, h);
    OneTransaction(p, t);
    AllEventsAppend(p, Regulars(txs, h), [t]);
    RunAppend(view, AllEvents(p, Regulars(txs, h)), Events(p, t));
    LegalAppend(p, view, AllEvents(p, Regulars(txs, h)), Events(p, t));
  }

  lemma {:induction false} ReplayRun(p: Params, blocks: seq<MsgBlock>)
    requires p.WellFormed() && Replay(p, blocks).Some?
    ensures Run(map[], AllEvents(p, ChainOrder(blocks))) == Replay(p, blocks).value
    ensures Legal(p, map[], AllEvents(p, ChainOrder(blocks)))
    decreases |blocks|
  {
    hide Params.WellFormed, ConnectBlock, BlockOrder, Legal, Run, AllEvents;
    if |blocks| > 1 {
      var front, last := blocks[..|blocks| - 1], blocks[|blocks| - 1];
      ReplayRun(p, front);
      BlockRun(p, last, Replay(p, front).value);
      var a, b := AllEvents(p, ChainOrder(front)), AllEvents(p, BlockOrder(last));
      AllEventsAppend(p, ChainOrder(front), BlockOrder(last));
      RunAppend(map[], a, b);
      LegalAppend(p, map[], a, b);
    } else {
      NothingIsLegal(p, map[]);
    }
  }

  // ---- no double spend ----

  function History(p: Params, blocks: seq<MsgBlock>): seq<Event> {
    AllEvents(p, ChainOrder(blocks))
  }

  /** Event `j` created what stands at `op` before event `k`, and nothing in between touched it. */
  ghost predicate LastTouch(es: seq<Event>, j: nat, k: nat, op: OutPoint, entry: UTXOEntry) {
    && j < k <= |es|
    && es[j] == Create(op, entry)
    && forall m :: j < m < k ==> es[m].outpoint != op
  }

  /** The ledger holds exactly what was created and not touched since. */
  lemma {:induction false} RunHolds(es: seq<Event>, op: OutPoint)
    ensures op in Run(map[], es) <==> exists j, entry :: LastTouch(es, j, |es|, op, entry)
    ensures op in Run(map[], es) ==> exists j :: LastTouch(es, j, |es|, op, Run(map[], es)[op])
    decreases |es|
  {
    if es != [] {
      var n := |es| - 1;
      var front := es[..n];
      RunHolds(front, op);
      if es[n].outpoint == op {
        if es[n].Create? {
          assert LastTouch(es, n, |es|, op, es[n].entry);
        } else {
          forall j: nat, entry
            ensures !LastTouch(es, j, |es|, op, entry)
          {
            assert es[n].outpoint == op && es[n].Spend?;
          }
        }
      } else {
        forall j: nat, entry
          ensures LastTouch(es, j, |es|, op, entry) <==> LastTouch(front, j, n, op, entry)
        {
          if j < n {
            assert es[j] == front[j];
            if LastTouch(front, j, n, op, entry) {
              forall m | j < m < |es| ensures es[m].outpoint != op { if m < n { assert es[m] == front[m]; } }
            }
            if LastTouch(es, j, |es|, op, entry) {
              forall m | j < m < n ensures front[m].outpoint != op { assert es[m] == front[m]; }
            }
          }
        }
      }
    }
  }

  lemma {:induction false} PlacedHeights(blocks: seq<MsgBlock>, t: Placed)
    requires t in ChainOrder(blocks)
    ensures exists i :: 1 <= i < |blocks| && t.height == blocks[i].header.height && t.tx in blocks[i].transactions
    decreases |blocks|
  {
    var n := |blocks| - 1;
    if t in ChainOrder(blocks[..n]) {
      PlacedHeights(blocks[..n], t);
    } else {
      assert t.height == blocks[n].header.height && t.tx in blocks[n].transactions;
    }
  }

  lemma {:induction false} CreatesOf(p: Params, t: Placed, k: nat, e: Event)
    requires k <= |t.tx.txOut| && e in Creates(p, t, k)
    ensures e.Create? && e.entry.blockHeight == t.height && e.entry.coinbase == t.coinbase
    ensures e.outpoint.hash == p.crypto.txHash(t.tx)
    ensures exists i :: 0 <= i < k && e.outpoint == OutPointAt(p, t.tx, i) && e.entry.txOut == t.tx.txOut[i]
  {
    if t.tx.txOut[k - 1].value == 0 || e in Creates(p, t, k - 1) {
      CreatesOf(p, t, k - 1, e);
    }
  }

  lemma {:induction false} SpendsOf(tx: MsgTx, h: uint32, i: nat, e: Event)
    requires i <= |tx.txIn| && e in SpendsFrom(tx, h, i)
    ensures e.Spend? && e.height == h
    decreases |tx.txIn| - i
  {
    if e in SpendsFrom(tx, h, i + 1) {
      SpendsOf(tx, h, i + 1, e);
    }
  }

  lemma {:induction false} EventOrigin(p: Params, placed: seq<Placed>, e: Event) returns (t: Placed)
    requires e in AllEvents(p, placed)
    ensures t in placed
    ensures e.Create? ==> e.entry.blockHeight == t.height && e.outpoint.hash == p.crypto.txHash(t.tx)
    decreases |placed|
  {
    var front := placed[..|placed| - 1];
    if e in AllEvents(p, front) {
      t := EventOrigin(p, front, e);
    } else {
      t := placed[|placed| - 1];
      if e in Creates(p, t, |t.tx.txOut|) {
        CreatesOf(p, t, |t.tx.txOut|, e);
      } else {
        SpendsOf(t.tx, t.height, 0, e);
      }
    }
  }

  /**
   No double spend. Every spending in the history of an accepted chain names an output that was created
   earlier and not consumed since, and a coinbase output only once it is mature.
   */
  lemma EverySpendHasItsCreation(p: Params, s: State, k: nat)
    requires p.WellFormed() && Good(p, s)
    requires k < |History(p, s.blocks)| && History(p, s.blocks)[k].Spend?
    ensures exists j, entry ::
      && LastTouch(History(p, s.blocks), j, k, History(p, s.blocks)[k].outpoint, entry)
      && (entry.coinbase ==> History(p, s.blocks)[k].height >= entry.blockHeight + p.coinbaseMaturity)
  {
    hide Params.WellFormed, BlockFollows, Replay, Run, AllEvents, ChainOrder;
    var es := History(p, s.blocks);
    var op := es[k].outpoint;
    ReplayRun(p, s.blocks);
    var view := Run(map[], es[..k]);
    assert Spendable(p, view, es[k]);
    RunHolds(es[..k], op);
    var j: nat :| LastTouch(es[..k], j, |es[..k]|, op, view[op]);
    var entry := view[op];
    assert LastTouch(es, j, k, op, entry);
    var t := EventOrigin(p, ChainOrder(s.blocks), es[j]);
    PlacedHeights(s.blocks, t);
    var i :| 1 <= i < |s.blocks| && t.height == s.blocks[i].header.height && t.tx in s.blocks[i].transactions;
    HeightsArePositions(p, s.blocks, i);
    MaturityDoesNotWrap(p, s.blocks, entry, es[k].height);
  }

  /** Between two spendings of one outpoint it was created anew. */
  lemma SpentTwiceMeansCreatedTwice(p: Params, s: State, i: nat, k: nat)
    requires p.WellFormed() && Good(p, s)
    requires i < k < |History(p, s.blocks)|
    requires History(p, s.blocks)[i].Spend? && History(p, s.blocks)[k].Spend?
    requires History(p, s.blocks)[i].outpoint == History(p, s.blocks)[k].outpoint
    ensures exists j | i < j < k ::
      History(p, s.blocks)[j].Create? && History(p, s.blocks)[j].outpoint == History(p, s.blocks)[k].outpoint
  {
    hide Params.WellFormed, Linked, Good, History;
    EverySpendHasItsCreation(p, s, k);
    var es := History(p, s.blocks);
    var j, entry :| LastTouch(es, j, k, es[k].outpoint, entry);
    assert i < j;
  }

  /** Every transaction of the chain has an identifier of its own, and few enough outputs to number them. */
  ghost predicate DistinctTransactions(p: Params, placed: seq<Placed>) {
    && (forall i, j :: 0 <= i < j < |placed| ==> p.crypto.txHash(placed[i].tx) != p.crypto.txHash(placed[j].tx))
    && (forall i :: 0 <= i < |placed| ==> |placed[i].tx.txOut| <= TWO_32)
  }

  lemma {:induction false} CreatesDistinct(p: Params, t: Placed, k: nat, a: nat, b: nat)
    requires k <= |t.tx.txOut| <= TWO_32 && a < b < |Creates(p, t, k)|
    ensures Creates(p, t, k)[a].outpoint != Creates(p, t, k)[b].outpoint
  {
    var es := Creates(p, t, k);
    var front := Creates(p, t, k - 1);
    if t.tx.txOut[k - 1].value == 0 || b < |front| {
      assert es[a] == front[a] && es[b] == front[b];
      CreatesDistinct(p, t, k - 1, a, b);
    } else {
      assert es[a] == front[a];
      CreatesOf(p, t, k - 1, front[a]);
    }
  }

  function PlacedIds(p: Params, placed: seq<Placed>): set<Hash> {
    set t | t in placed :: p.crypto.txHash(t.tx)
  }

  lemma SplitPlaced(p: Params, a: seq<Placed>, b: seq<Placed>)
    requires DistinctTransactions(p, a + b)
    ensures DistinctTransactions(p, a) && DistinctTransactions(p, b)
    ensures PlacedIds(p, a) !! PlacedIds(p, b) && PlacedIds(p, a + b) == PlacedIds(p, a) + PlacedIds(p, b)
  {
    var all := a + b;
    forall i, j | 0 <= i < j < |a|
      ensures p.crypto.txHash(a[i].tx) != p.crypto.txHash(a[j].tx)
    {
      assert all[i] == a[i] && all[j] == a[j];
    }
    forall i, j | 0 <= i < j < |b|
      ensures p.crypto.txHash(b[i].tx) != p.crypto.txHash(b[j].tx)
    {
      assert all[|a| + i] == b[i] && all[|a| + j] == b[j];
    }
    forall i, j | 0 <= i < |a| && 0 <= j < |b|
      ensures p.crypto.txHash(a[i].tx) != p.crypto.txHash(b[j].tx)
    {
      assert all[i] == a[i] && all[|a| + j] == b[j];
    }
    forall i | 0 <= i < |a|
      ensures |a[i].tx.txOut| <= TWO_32
    {
      assert all[i] == a[i];
    }
    forall i | 0 <= i < |b|
      ensures |b[i].tx.txOut| <= TWO_32
    {
      assert all[|a| + i] == b[i];
    }
  }

  lemma CreatedByAnother(p: Params, placed: seq<Placed>, e: Event, f: Event)
    requires DistinctTransactions(p, placed) && placed != []
    requires e in AllEvents(p, placed[..|placed| - 1]) && e.Create?
    requires f in Creates(p, placed[|placed| - 1], |placed[|placed| - 1].tx.txOut|) && f.Create?
    ensures e.outpoint != f.outpoint
  {
    hide AllEvents, Creates;
    var n := |placed| - 1;
    var u := EventOrigin(p, placed[..n], e);
    CreatesOf(p, placed[n], |placed[n].tx.txOut|, f);
    var i :| 0 <= i < n && placed[..n][i] == u;
    assert placed[i] == u;
  }

  function Spends(t: Placed): seq<Event> {
    if t.coinbase then [] else SpendsFrom(t.tx, t.height, 0)
  }

  /** A creation in the history is one of the last transaction's outputs, or happened before that transaction. */
  lemma CreationAt(p: Params, placed: seq<Placed>, x: nat)
    requires placed != [] && x < |AllEvents(p, placed)| && AllEvents(p, placed)[x].Create?
    ensures
      var front, t := placed[..|placed| - 1], placed[|placed| - 1];
      var before := |AllEvents(p, front)|;
      var creates := Creates(p, t, |t.tx.txOut|);
      if x < before then AllEvents(p, placed)[x] == AllEvents(p, front)[x]
      else
        var y := x - before - |Spends(t)|;
        0 <= y < |creates| && AllEvents(p, placed)[x] == creates[y]
  {
    var front, t := placed[..|placed| - 1], placed[|placed| - 1];
    var fs, spends := AllEvents(p, front), Spends(t);
    var creates := Creates(p, t, |t.tx.txOut|);
    assert AllEvents(p, placed) == fs + (spends + creates);
    NoSpendCreates(t);
    hide *;
    InThreeParts(fs, spends, creates, x);
  }

  lemma NoSpendCreates(t: Placed)
    ensures forall y :: 0 <= y < |Spends(t)| ==> !Spends(t)[y].Create?
  {
    hide SpendsFrom;
    forall y | 0 <= y < |Spends(t)|
      ensures !Spends(t)[y].Create?
    {
      SpendsOf(t.tx, t.height, 0, Spends(t)[y]);
    }
  }

  lemma InThreeParts<T>(a: seq<T>, b: seq<T>, c: seq<T>, x: nat)
    requires x < |a + (b + c)|
    ensures
      var at := (a + (b + c))[x];
      if x < |a| then at == a[x]
      else if x < |a| + |b| then at == b[x - |a|]
      else at == c[x - |a| - |b|]
  {
  }

  lemma FewOutputs(p: Params, t: Placed)
    requires DistinctTransactions(p, [t])
    ensures |t.tx.txOut| <= TWO_32
  {
    assert [t][0] == t;
  }

  lemma NoEvents(p: Params)
    ensures AllEvents(p, []) == []
  {
  }

  lemma {:induction false} CreationsDistinct(p: Params, placed: seq<Placed>, a: nat, b: nat)
    requires DistinctTransactions(p, placed)
    requires a < b < |AllEvents(p, placed)|
    requires AllEvents(p, placed)[a].Create? && AllEvents(p, placed)[b].Create?
    ensures AllEvents(p, placed)[a].outpoint != AllEvents(p, placed)[b].outpoint
    decreases |placed|
  {
    hide *;
    NoEvents(p);
    var n := |placed| - 1;
    var front, t := placed[..n], placed[n];
    assert placed == front + [t];
    SplitPlaced(p, front, [t]);
    FewOutputs(p, t);
    CreationAt(p, placed, a);
    CreationAt(p, placed, b);
    var before := |AllEvents(p, front)|;
    if b < before {
      CreationsDistinct(p, front, a, b);
    } else if a < before {
      CreatedByAnother(p, placed, AllEvents(p, placed)[a], AllEvents(p, placed)[b]);
    } else {
      var skipped := before + |Spends(t)|;
      CreatesDistinct(p, t, |t.tx.txOut|, a - skipped, b - skipped);
    }
  }

  /** With distinct transactions, no outpoint is consumed twice in the life of a chain. */
  lemma NothingIsSpentTwice(p: Params, s: State, i: nat, k: nat)
    requires p.WellFormed() && Good(p, s)
    requires DistinctTransactions(p, ChainOrder(s.blocks))
    requires i < k < |History(p, s.blocks)|
    requires History(p, s.blocks)[i].Spend? && History(p, s.blocks)[k].Spend?
    ensures History(p, s.blocks)[i].outpoint != History(p, s.blocks)[k].outpoint
  {
    hide Params.WellFormed, Linked, Good, AllEvents, ChainOrder, DistinctTransactions;
    var es := History(p, s.blocks);
    if es[i].outpoint == es[k].outpoint {
      SpentTwiceMeansCreatedTwice(p, s, i, k);
      var j :| i < j < k && es[j].Create? && es[j].outpoint == es[k].outpoint;
      EverySpendHasItsCreation(p, s, i);
      var j', entry :| LastTouch(es, j', i, es[i].outpoint, entry);
      CreationsDistinct(p, ChainOrder(s.blocks), j', j);
    }
  }

  // ---- with distinct transactions nothing is created anew ----

  /** Every outpoint of the ledger belongs to one of these transactions. */
  ghost predicate OutputsOf(view: View, ids: set<Hash>) {
    forall op :: op in view ==> op.hash in ids
  }

  lemma {:induction false} ConnectedOutputs(p: Params, tx: MsgTx, view: View, h: uint32, cb: bool, k: nat,
        ids: set<Hash>)
    requires k <= |tx.txOut| <= TWO_32 && OutputsOf(view, ids) && p.crypto.txHash(tx) !in ids
    ensures OutputsOf(Connected(p, tx, view, h, cb, k), ids + {p.crypto.txHash(tx)})
    ensures forall op :: op in Connected(p, tx, view, h, cb, k) && op.hash == p.crypto.txHash(tx) ==> op.index < k
  {
    if k > 0 {
      ConnectedOutputs(p, tx, view, h, cb, k - 1, ids);
    }
  }

  /** A transaction that is new to the ledger lands on no outpoint that it holds. */
  lemma NewTransactionRecreatesNothing(p: Params, tx: MsgTx, view: View, h: uint32, cb: bool, ids: set<Hash>)
    requires |tx.txOut| <= TWO_32 && OutputsOf(view, ids) && p.crypto.txHash(tx) !in ids
    ensures !Conservation.Recreates(p, tx, view, h, cb)
    ensures OutputsOf(ConnectOutputs(p, tx, view, h, cb), ids + {p.crypto.txHash(tx)})
  {
    ConnectedOutputs(p, tx, view, h, cb, |tx.txOut|, ids);
    forall i | 0 <= i < |tx.txOut|
      ensures OutPointAt(p, tx, i) !in Connected(p, tx, view, h, cb, i)
    {
      ConnectedOutputs(p, tx, view, h, cb, i, ids);
    }
  }

  lemma {:induction false} SpendingOutputs(p: Params, tx: MsgTx, i: nat, spent: set<OutPoint>, acc: Spending,
        h: uint32, ids: set<Hash>)
    requires i <= |tx.txIn| && SpendFrom(p, tx, i, spent, acc, h).Ok? && OutputsOf(acc.view, ids)
    ensures OutputsOf(SpendFrom(p, tx, i, spent, acc, h).value.view, ids)
    decreases |tx.txIn| - i
  {
    if i < |tx.txIn| {
      var op := tx.txIn[i].previous;
      SpendingOutputs(p, tx, i + 1, spent + {op}, Spending(acc.total + acc.view[op].txOut.value, acc.view - {op}), h,
        ids);
    }
  }

  lemma NewRegularRecreatesNothing(p: Params, tx: MsgTx, view: View, h: uint32, ids: set<Hash>)
    requires |tx.txOut| <= TWO_32 && OutputsOf(view, ids) && p.crypto.txHash(tx) !in ids &&
      ConnectTx(p, tx, view, h).Ok?
    ensures !Conservation.TxRecreates(p, tx, view, h)
    ensures OutputsOf(ConnectTx(p, tx, view, h).value.view, ids + {p.crypto.txHash(tx)})
  {
    hide SpendFrom, CheckOutputs, ConnectOutputs, OutputsOf, Conservation.Recreates;
    SpendingOutputs(p, tx, 0, {}, Spending(0, view), h, ids);
    var spending := SpendFrom(p, tx, 0, {}, Spending(0, view), h).value;
    NewTransactionRecreatesNothing(p, tx, spending.view, h, false, ids);
  }

  lemma {:induction false} NewRegularsRecreateNothing(p: Params, txs: seq<MsgTx>, i: nat, acc: Regular, h: uint32,
        ids: set<Hash>)
    requires i <= |txs| && ConnectRegularFrom(p, txs, i, acc, h).Ok?
    requires OutputsOf(acc.view, ids) && DistinctTransactions(p, Regulars(txs, h))
    requires forall j :: i <= j < |txs| ==> p.crypto.txHash(txs[j]) !in ids
    ensures !Conservation.RegularRecreates(p, txs, i, acc.view, h)
    ensures OutputsOf(ConnectRegularFrom(p, txs, i, acc, h).value.view, ids + PlacedIds(p, Regulars(txs, h)))
    decreases |txs| - i
  {
    hide ConnectTx, OutputsOf, Conservation.TxRecreates, MsgTx.IsCoinbase, Regulars;
    var placed := Regulars(txs, h);
    if i < |txs| {
      var one := ConnectTx(p, txs[i], acc.view, h).value;
      var id := p.crypto.txHash(txs[i]);
      assert placed[i].tx == txs[i] && placed[i] in placed;
      NewRegularRecreatesNothing(p, txs[i], acc.view, h, ids);
      forall j | i + 1 <= j < |txs|
        ensures p.crypto.txHash(txs[j]) !in ids + {id}
      {
        assert placed[j].tx == txs[j];
      }
      NewRegularsRecreateNothing(p, txs, i + 1, Regular(acc.fees + one.fees, one.view), h, ids + {id});
      assert ids + {id} + PlacedIds(p, placed) == ids + PlacedIds(p, placed);
    } else {
      MoreIds(acc.view, ids, PlacedIds(p, placed));
    }
  }

  lemma MoreIds(view: View, ids: set<Hash>, more: set<Hash>)
    requires OutputsOf(view, ids)
    ensures OutputsOf(view, ids + more)
  {
  }

  lemma NewBlockRecreatesNothing(p: Params, block: MsgBlock, view: View, ids: set<Hash>)
    requires p.WellFormed() && block.transactions != [] && ConnectBlock(p, block, view, block.header.height).Ok?
    requires OutputsOf(view, ids) && DistinctTransactions(p, BlockOrder(block)) &&
      ids !! PlacedIds(p, BlockOrder(block))
    ensures !Conservation.BlockRecreates(p, block, view)
    ensures OutputsOf(ConnectBlock(p, block, view, block.header.height).value, ids + PlacedIds(p, BlockOrder(block)))
  {
    hide Params.WellFormed, ConnectRegularFrom, CheckCoinbase, ConnectOutputs, OutputsOf, Regulars,
      Conservation.RegularRecreates, Conservation.Recreates;
    var h, txs, cb := block.header.height, block.transactions[1..], block.transactions[0];
    var regulars := Regulars(txs, h);
    var last := Placed(cb, h, true);
    SplitPlaced(p, regulars, [last]);
    forall j | 0 <= j < |txs|
      ensures p.crypto.txHash(txs[j]) !in ids
    {
      assert regulars[j].tx == txs[j] && regulars[j] in regulars;
    }
    NewRegularsRecreateNothing(p, txs, 0, Regular(0, view), h, ids);
    assert last in [last] && [last][0] == last;
    NewTransactionRecreatesNothing(p, cb, ConnectRegular(p, txs, view, h).value.view, h, true,
      ids + PlacedIds(p, regulars));
    assert ids + PlacedIds(p, regulars) + {p.crypto.txHash(cb)} == ids + PlacedIds(p, BlockOrder(block));
  }

  lemma {:induction false} DistinctMeansNeverRecreated(p: Params, blocks: seq<MsgBlock>)
    requires p.WellFormed() && Replay(p, blocks).Some? && DistinctTransactions(p, ChainOrder(blocks))
    ensures Conservation.NeverRecreates(p, blocks)
    ensures OutputsOf(Replay(p, blocks).value, PlacedIds(p, ChainOrder(blocks)))
    decreases |blocks|
  {
    hide Params.WellFormed, ConnectBlock, BlockOrder, OutputsOf, DistinctTransactions, Conservation.BlockRecreates;
    if |blocks| > 1 {
      var front, last := blocks[..|blocks| - 1], blocks[|blocks| - 1];
      SplitPlaced(p, ChainOrder(front), BlockOrder(last));
      DistinctMeansNeverRecreated(p, front);
      NewBlockRecreatesNothing(p, last, Replay(p, front).value, PlacedIds(p, ChainOrder(front)));
    } else {
      NoOutputsYet();
    }
  }

  lemma NoOutputsYet()
    ensures forall ids :: OutputsOf(map[], ids)
  {
  }

  /** On a chain whose transactions have identifiers of their own, value is conserved exactly. */
  lemma DistinctTransactionsConserveValue(p: Params, s: State)
    requires p.WellFormed() && Good(p, s) && DistinctTransactions(p, ChainOrder(s.blocks))
    ensures Conservation.Sum(s.utxos) == Conservation.TotalSubsidy(p, s.blocks)
  {
    hide Params.WellFormed, Linked, Conservation.Sum, ChainOrder, DistinctTransactions, Replay,
      Conservation.NeverRecreates;
    DistinctMeansNeverRecreated(p, s.blocks);
    Conservation.ValueIsConserved(p, s);
  }
}
