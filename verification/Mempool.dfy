/**
 The mempool of `internal/rpcserver/server.go`: transactions that could all go into the next block
 together, kept so as blocks come and go.
 */
module Mempool {
  import opened Ints
  import opened WireTypes
  import opened ChainCfg
  import opened Ledger
  import opened Blockchain

  datatype PoolError = CoinbaseRefused | DoesNotConnect(error: RuleError)

  // ---- lists of transactions that connect ----

  function Id(p: Params, tx: MsgTx): Hash {
    p.crypto.txHash(tx)
  }

  ghost predicate Distinct(p: Params, txs: seq<MsgTx>) {
    forall i, j :: 0 <= i < j < |txs| ==> Id(p, txs[i]) != Id(p, txs[j])
  }

  predicate Listed(p: Params, txs: seq<MsgTx>, id: Hash) {
    exists i :: 0 <= i < |txs| && Id(p, txs[i]) == id
  }

  predicate Connects(p: Params, s: State, txs: seq<MsgTx>)
    requires s.blocks != []
  {
    Fees(p, s, txs).Ok?
  }

  lemma {:induction false} ConnectRegularPrefix(p: Params, txs: seq<MsgTx>, n: nat, i: nat, acc: Regular, h: uint32)
    requires i <= n <= |txs| && ConnectRegularFrom(p, txs, i, acc, h).Ok?
    ensures ConnectRegularFrom(p, txs[..n], i, acc, h).Ok?
    decreases n - i
  {
    hide ConnectTx, MsgTx.IsCoinbase;
    if i < n {
      assert txs[..n][i] == txs[i];
      var one := ConnectTx(p, txs[i], acc.view, h).value;
      ConnectRegularPrefix(p, txs, n, i + 1, Regular(acc.fees + one.fees, one.view), h);
    }
  }

  /** What connects as a whole connects in every prefix. */
  lemma PrefixConnects(p: Params, s: State, txs: seq<MsgTx>, n: nat)
    requires s.blocks != [] && n <= |txs| && Connects(p, s, txs)
    ensures Connects(p, s, txs[..n])
  {
    hide ConnectRegularFrom;
    ConnectRegularPrefix(p, txs, n, 0, Regular(0, s.utxos), Wrap32(Tip(s).header.height + 1));
  }

  lemma FrontConnects(p: Params, s: State, txs: seq<MsgTx>, tx: MsgTx)
    requires s.blocks != []
    ensures Connects(p, s, txs + [tx]) ==> Connects(p, s, txs)
  {
    assert (txs + [tx])[..|txs|] == txs;
    hide Connects;
    if Connects(p, s, txs + [tx]) {
      PrefixConnects(p, s, txs + [tx], |txs|);
    }
  }

  lemma NothingConnects(p: Params, s: State)
    requires s.blocks != []
    ensures Connects(p, s, []) && Distinct(p, [])
  {
  }

  lemma DistinctSnoc(p: Params, txs: seq<MsgTx>, tx: MsgTx)
    requires Distinct(p, txs) && !Listed(p, txs, Id(p, tx))
    ensures Distinct(p, txs + [tx])
  {
  }

  // ---- accepting ----

  /** The pool after `tx` has been offered to it. */
  function Accepted(p: Params, s: State, pool: seq<MsgTx>, tx: MsgTx): seq<MsgTx>
    requires s.blocks != []
  {
    if !tx.IsCoinbase() && !Listed(p, pool, Id(p, tx)) && Connects(p, s, pool + [tx]) then pool + [tx] else pool
  }

  function AcceptedAll(p: Params, s: State, pool: seq<MsgTx>, txs: seq<MsgTx>): seq<MsgTx>
    requires s.blocks != []
  {
    if txs == [] then pool
    else Accepted(p, s, AcceptedAll(p, s, pool, txs[..|txs| - 1]), txs[|txs| - 1])
  }

  lemma {:induction false} AcceptedAllFacts(p: Params, s: State, pool: seq<MsgTx>, txs: seq<MsgTx>)
    requires s.blocks != [] && Distinct(p, pool)
    ensures Distinct(p, AcceptedAll(p, s, pool, txs))
    ensures pool <= AcceptedAll(p, s, pool, txs)
    ensures forall tx :: tx in AcceptedAll(p, s, pool, txs) ==> tx in pool || (tx in txs && !tx.IsCoinbase())
    decreases |txs|
  {
    hide Connects, MsgTx.IsCoinbase, Distinct, Listed;
    if txs != [] {
      var front, tx := txs[..|txs| - 1], txs[|txs| - 1];
      AcceptedAllFacts(p, s, pool, front);
      var before := AcceptedAll(p, s, pool, front);
      if !Listed(p, before, Id(p, tx)) {
        DistinctSnoc(p, before, tx);
      }
    }
  }

  lemma {:induction false} AcceptedAllSnoc(p: Params, s: State, pool: seq<MsgTx>, txs: seq<MsgTx>, tx: MsgTx)
    requires s.blocks != []
    ensures AcceptedAll(p, s, pool, txs + [tx]) == Accepted(p, s, AcceptedAll(p, s, pool, txs), tx)
  {
    hide Accepted;
    assert (txs + [tx])[..|txs|] == txs;
  }

  /** A pool that no longer connects takes in nothing at all. */
  lemma {:induction false} StalePoolAcceptsNothing(p: Params, s: State, pool: seq<MsgTx>, txs: seq<MsgTx>)
    requires s.blocks != [] && !Connects(p, s, pool)
    ensures AcceptedAll(p, s, pool, txs) == pool
    decreases |txs|
  {
    hide Connects;
    if txs != [] {
      var tx := txs[|txs| - 1];
      StalePoolAcceptsNothing(p, s, pool, txs[..|txs| - 1]);
      FrontConnects(p, s, pool, tx);
    }
  }

  // ---- revalidating ----

  /**
   What is left of a pool: transactions of included blocks go, and so does whatever no longer connects after
   those kept before it.
   */
  function Revalidated(p: Params, s: State, txs: seq<MsgTx>, included: set<Hash>): seq<MsgTx>
    requires s.blocks != []
  {
    if txs == [] then []
    else
      var front, tx := Revalidated(p, s, txs[..|txs| - 1], included), txs[|txs| - 1];
      if Id(p, tx) !in included && Connects(p, s, front + [tx]) then front + [tx] else front
  }

  /** The elements of `a` stand in `b` in the same order. */
  ghost predicate Subsequence<T>(a: seq<T>, b: seq<T>) {
    || a == []
    || (b != [] && a[|a| - 1] == b[|b| - 1] && Subsequence(a[..|a| - 1], b[..|b| - 1]))
    || (b != [] && Subsequence(a, b[..|b| - 1]))
  }

  lemma SubsequenceSkip<T>(a: seq<T>, b: seq<T>, x: T)
    requires Subsequence(a, b)
    ensures Subsequence(a, b + [x])
  {
    assert (b + [x])[..|b|] == b;
  }

  lemma SubsequenceSnoc<T>(a: seq<T>, b: seq<T>, x: T)
    requires Subsequence(a, b)
    ensures Subsequence(a + [x], b + [x])
  {
    assert (b + [x])[..|b|] == b && (a + [x])[..|a|] == a;
  }

  lemma {:induction false} SubsequenceMembers(p: Params, a: seq<MsgTx>, b: seq<MsgTx>)
    requires Subsequence(a, b)
    ensures forall tx :: tx in a ==> tx in b
    ensures forall id :: Listed(p, a, id) ==> Listed(p, b, id)
    decreases |b|
  {
    if a != [] {
      var fa, fb := a[..|a| - 1], b[..|b| - 1];
      assert a == fa + [a[|a| - 1]] && b == fb + [b[|b| - 1]];
      if a[|a| - 1] == b[|b| - 1] && Subsequence(fa, fb) {
        SubsequenceMembers(p, fa, fb);
        forall id | Listed(p, a, id)
          ensures Listed(p, b, id)
        {
          ListedLast(p, a, id);
          ListedLast(p, b, id);
        }
      } else {
        SubsequenceMembers(p, a, fb);
        forall id | Listed(p, a, id)
          ensures Listed(p, b, id)
        {
          ListedLast(p, b, id);
        }
      }
    }
  }

  lemma ListedLast(p: Params, txs: seq<MsgTx>, id: Hash)
    requires txs != []
    ensures Listed(p, txs, id) <==> Listed(p, txs[..|txs| - 1], id) || Id(p, txs[|txs| - 1]) == id
  {
    var front := txs[..|txs| - 1];
    if Listed(p, front, id) {
      var i :| 0 <= i < |front| && Id(p, front[i]) == id;
      assert txs[i] == front[i];
    }
    if Listed(p, txs, id) {
      var i :| 0 <= i < |txs| && Id(p, txs[i]) == id;
      assert i < |front| ==> front[i] == txs[i];
    }
  }

  /** Revalidation keeps the order, removes everything included, and leaves a pool that connects. */
  lemma {:induction false} RevalidatedFacts(p: Params, s: State, txs: seq<MsgTx>, included: set<Hash>)
    requires s.blocks != []
    ensures
      var kept := Revalidated(p, s, txs, included);
      && Subsequence(kept, txs)
      && Connects(p, s, kept)
      && (forall id :: Listed(p, kept, id) ==> id !in included)
      && (Distinct(p, txs) ==> Distinct(p, kept))
    decreases |txs|
  {
    hide Connects, Subsequence, Distinct, Listed;
    if txs == [] {
      NothingConnects(p, s);
      NothingListed(p);
    } else {
      var front, tx := txs[..|txs| - 1], txs[|txs| - 1];
      RevalidatedFacts(p, s, front, included);
      var kept := Revalidated(p, s, front, included);
      assert txs == front + [tx];
      SubsequenceSkip(kept, front, tx);
      SubsequenceSnoc(kept, front, tx);
      SubsequenceMembers(p, kept, front);
      DistinctFront(p, front, tx);
      if Id(p, tx) !in included && Connects(p, s, kept + [tx]) {
        forall id | Listed(p, kept + [tx], id)
          ensures id !in included
        {
          ListedLast(p, kept + [tx], id);
          assert (kept + [tx])[..|kept|] == kept;
        }
        if Distinct(p, txs) {
          DistinctSnoc(p, kept, tx);
        }
      }
    }
  }

  lemma NothingListed(p: Params)
    ensures forall id :: !Listed(p, [], id)
    ensures Subsequence<MsgTx>([], [])
  {
  }

  lemma DistinctFront(p: Params, front: seq<MsgTx>, tx: MsgTx)
    ensures Distinct(p, front + [tx]) ==> Distinct(p, front) && !Listed(p, front, Id(p, tx))
  {
    var txs := front + [tx];
    if Distinct(p, txs) {
      forall i, j | 0 <= i < j < |front|
        ensures Id(p, front[i]) != Id(p, front[j])
      {
        assert txs[i] == front[i] && txs[j] == front[j];
      }
      forall i | 0 <= i < |front|
        ensures Id(p, front[i]) != Id(p, tx)
      {
        assert txs[i] == front[i] && txs[|front|] == tx;
      }
    }
  }

  /** Revalidation changes nothing exactly when nothing is included and everything still connects. */
  lemma {:induction false} NothingToRevalidate(p: Params, s: State, txs: seq<MsgTx>, included: set<Hash>)
    requires s.blocks != []
    ensures Revalidated(p, s, txs, included) == txs <==>
      Connects(p, s, txs) && forall id :: Listed(p, txs, id) ==> id !in included
    decreases |txs|
  {
    hide Connects, Listed, Subsequence;
    RevalidatedFacts(p, s, txs, included);
    if txs != [] && Connects(p, s, txs) && forall id :: Listed(p, txs, id) ==> id !in included {
      var front, tx := txs[..|txs| - 1], txs[|txs| - 1];
      PrefixConnects(p, s, txs, |front|);
      forall id
        ensures Listed(p, txs, id) <==> Listed(p, front, id) || Id(p, tx) == id
      {
        ListedLast(p, txs, id);
      }
      NothingToRevalidate(p, s, front, included);
      assert front + [tx] == txs;
    }
  }

  /** Doing it again, for the same or fewer included transactions, changes nothing. */
  lemma RevalidationIsIdempotent(p: Params, s: State, txs: seq<MsgTx>, included: set<Hash>, again: set<Hash>)
    requires s.blocks != [] && again <= included
    ensures Revalidated(p, s, Revalidated(p, s, txs, included), again) == Revalidated(p, s, txs, included)
  {
    hide Connects, Revalidated, Distinct, Listed, Subsequence;
    RevalidatedFacts(p, s, txs, included);
    NothingToRevalidate(p, s, Revalidated(p, s, txs, included), again);
  }

  lemma RevalidatedSnoc(p: Params, s: State, txs: seq<MsgTx>, tx: MsgTx, included: set<Hash>)
    requires s.blocks != []
    ensures
      var front := Revalidated(p, s, txs, included);
      Revalidated(p, s, txs + [tx], included) ==
        if Id(p, tx) !in included && Connects(p, s, front + [tx]) then front + [tx] else front
  {
    hide Connects;
    assert (txs + [tx])[..|txs|] == txs;
  }

  lemma RevalidatedStep(p: Params, s: State, txs: seq<MsgTx>, i: nat, included: set<Hash>)
    requires s.blocks != [] && i < |txs|
    ensures
      var front, tx := Revalidated(p, s, txs[..i], included), txs[i];
      Revalidated(p, s, txs[..i + 1], included) ==
        if Id(p, tx) !in included && Connects(p, s, front + [tx]) then front + [tx] else front
  {
    hide Connects, Revalidated;
    assert txs[..i + 1] == txs[..i] + [txs[i]];
    RevalidatedSnoc(p, s, txs[..i], txs[i], included);
  }

  // ---- blocks that leave the chain ----

  function Ids(p: Params, txs: seq<MsgTx>): set<Hash> {
    set tx | tx in txs :: Id(p, tx)
  }

  function IdsOf(p: Params, blocks: seq<MsgBlock>): set<Hash> {
    set b, tx | b in blocks && tx in b.transactions :: Id(p, tx)
  }

  /** The regular transactions of a block that are not in `included`, up to the n-th transaction. */
  function ReturnedUpTo(p: Params, block: MsgBlock, included: set<Hash>, n: nat): seq<MsgTx>
    requires n <= |block.transactions|
  {
    if n <= 1 then []
    else if Id(p, block.transactions[n - 1]) in included then ReturnedUpTo(p, block, included, n - 1)
    else ReturnedUpTo(p, block, included, n - 1) + [block.transactions[n - 1]]
  }

  function ReturnedBy(p: Params, block: MsgBlock, included: set<Hash>): seq<MsgTx> {
    ReturnedUpTo(p, block, included, |block.transactions|)
  }

  /** The transactions to offer again when `disconnected` (tip first) leaves the chain, lowest block first. */
  function Returned(p: Params, disconnected: seq<MsgBlock>, included: set<Hash>): seq<MsgTx> {
    if disconnected == [] then []
    else Returned(p, disconnected[1..], included) + ReturnedBy(p, disconnected[0], included)
  }

  lemma {:induction false} ReturnedUpToMembers(p: Params, block: MsgBlock, included: set<Hash>, n: nat, tx: MsgTx)
    requires n <= |block.transactions|
    ensures tx in ReturnedUpTo(p, block, included, n) <==>
      Id(p, tx) !in included && exists i :: 1 <= i < n && block.transactions[i] == tx
  {
    if n > 1 {
      ReturnedUpToMembers(p, block, included, n - 1, tx);
    }
  }

  /** Offered again is exactly what the disconnected blocks held, save coinbases and what the new blocks include. */
  lemma {:induction false} ReturnedMembers(p: Params, disconnected: seq<MsgBlock>, included: set<Hash>, tx: MsgTx)
    ensures tx in Returned(p, disconnected, included) <==>
      Id(p, tx) !in included && exists k, i | 0 <= k < |disconnected| && 1 <= i < |disconnected[k].transactions| ::
        disconnected[k].transactions[i] == tx
    decreases |disconnected|
  {
    hide ReturnedUpTo;
    if disconnected != [] {
      var rest, first := disconnected[1..], disconnected[0];
      ReturnedMembers(p, rest, included, tx);
      ReturnedUpToMembers(p, first, included, |first.transactions|, tx);
      forall k, i | 0 <= k < |disconnected| && 1 <= i < |disconnected[k].transactions|
        ensures disconnected[k].transactions[i] ==
          (if k == 0 then first.transactions[i] else rest[k - 1].transactions[i])
      {
      }
      if k, i :| 0 <= k < |rest| && 1 <= i < |rest[k].transactions| && rest[k].transactions[i] == tx {
        assert disconnected[k + 1].transactions[i] == tx;
      }
      if i :| 1 <= i < |first.transactions| && first.transactions[i] == tx {
        assert disconnected[0].transactions[i] == tx;
      }
    }
  }

  // ---- when everything comes back ----

  /** What of `txs` a pool could take in at all: the regular ones that it does not list yet, each once. */
  function Fresh(p: Params, pool: seq<MsgTx>, txs: seq<MsgTx>): seq<MsgTx> {
    if txs == [] then []
    else
      var front, tx := Fresh(p, pool, txs[..|txs| - 1]), txs[|txs| - 1];
      if tx.IsCoinbase() || Listed(p, pool + front, Id(p, tx)) then front else front + [tx]
  }

  lemma {:induction false} FreshFacts(p: Params, pool: seq<MsgTx>, txs: seq<MsgTx>)
    ensures Distinct(p, pool) ==> Distinct(p, pool + Fresh(p, pool, txs))
    ensures forall tx :: tx in Fresh(p, pool, txs) ==> tx in txs
    ensures forall tx :: tx in txs && !tx.IsCoinbase() ==> Listed(p, pool + Fresh(p, pool, txs), Id(p, tx))
    decreases |txs|
  {
    hide MsgTx.IsCoinbase, Distinct, Listed;
    if txs == [] {
      assert pool + [] == pool;
    } else {
      var before, tx := txs[..|txs| - 1], txs[|txs| - 1];
      var front := Fresh(p, pool, before);
      FreshFacts(p, pool, before);
      assert txs == before + [tx];
      assert pool + (front + [tx]) == pool + front + [tx];
      ListedMore(p, pool + front, tx);
      if Distinct(p, pool) && !Listed(p, pool + front, Id(p, tx)) {
        DistinctSnoc(p, pool + front, tx);
      }
    }
  }

  lemma ListedMore(p: Params, txs: seq<MsgTx>, tx: MsgTx)
    ensures Listed(p, txs + [tx], Id(p, tx))
    ensures forall id :: Listed(p, txs, id) ==> Listed(p, txs + [tx], id)
  {
    var all := txs + [tx];
    assert all[|txs|] == tx;
    forall id | Listed(p, txs, id)
      ensures Listed(p, all, id)
    {
      var i :| 0 <= i < |txs| && Id(p, txs[i]) == id;
      assert all[i] == txs[i];
    }
  }

  lemma {:induction false} AcceptedConnects(p: Params, s: State, pool: seq<MsgTx>, txs: seq<MsgTx>)
    requires s.blocks != []
    ensures AcceptedAll(p, s, pool, txs) == pool || Connects(p, s, AcceptedAll(p, s, pool, txs))
    decreases |txs|
  {
    hide Connects, MsgTx.IsCoinbase, Listed;
    if txs != [] {
      AcceptedConnects(p, s, pool, txs[..|txs| - 1]);
    }
  }

  /** All that is new is taken in exactly when the pool and all of it connect together: one call of CalcFees tells. */
  lemma {:induction false} AllAcceptedExactlyWhen(p: Params, s: State, pool: seq<MsgTx>, txs: seq<MsgTx>)
    requires s.blocks != []
    ensures AcceptedAll(p, s, pool, txs) == pool + Fresh(p, pool, txs) <==>
      Fresh(p, pool, txs) == [] || Connects(p, s, pool + Fresh(p, pool, txs))
    decreases |txs|
  {
    hide Connects, MsgTx.IsCoinbase, Listed;
    var unseen := Fresh(p, pool, txs);
    assert pool + [] == pool;
    if txs != [] {
      var before, tx := txs[..|txs| - 1], txs[|txs| - 1];
      var front := Fresh(p, pool, before);
      AllAcceptedExactlyWhen(p, s, pool, before);
      AcceptedConnects(p, s, pool, txs);
      assert pool + (front + [tx]) == pool + front + [tx];
      FrontConnects(p, s, pool + front, tx);
      NewMeansLonger(pool, unseen);
    }
  }

  lemma NewMeansLonger<T>(a: seq<T>, b: seq<T>)
    ensures a + b == a <==> b == []
  {
    assert |a + b| == |a| + |b|;
  }

  lemma {:induction false} DistinctCount(p: Params, txs: seq<MsgTx>)
    requires Distinct(p, txs)
    ensures |Ids(p, txs)| == |txs|
    decreases |txs|
  {
    if txs != [] {
      var front, tx := txs[..|txs| - 1], txs[|txs| - 1];
      assert txs == front + [tx];
      DistinctFront(p, front, tx);
      DistinctCount(p, front);
      IdsSnoc(p, front, tx);
    }
  }

  lemma IdsSnoc(p: Params, front: seq<MsgTx>, tx: MsgTx)
    ensures Ids(p, front + [tx]) == Ids(p, front) + {Id(p, tx)}
    ensures Id(p, tx) in Ids(p, front) <==> Listed(p, front, Id(p, tx))
  {
    ListedIds(p, front);
  }

  lemma ListedIds(p: Params, txs: seq<MsgTx>)
    ensures forall id :: id in Ids(p, txs) <==> Listed(p, txs, id)
  {
    forall id
      ensures id in Ids(p, txs) <==> Listed(p, txs, id)
    {
      if Listed(p, txs, id) {
        var i :| 0 <= i < |txs| && Id(p, txs[i]) == id;
        assert txs[i] in txs;
      }
      if id in Ids(p, txs) {
        var tx :| tx in txs && Id(p, tx) == id;
        var i :| 0 <= i < |txs| && txs[i] == tx;
      }
    }
  }

  /** However offers turn out, a pool never ends up longer than if all that is new were taken in. */
  lemma AcceptedAtMostFresh(p: Params, s: State, pool: seq<MsgTx>, txs: seq<MsgTx>)
    requires s.blocks != [] && Distinct(p, pool)
    ensures |AcceptedAll(p, s, pool, txs)| <= |pool + Fresh(p, pool, txs)|
  {
    hide AcceptedAll, Fresh, Distinct, Listed, MsgTx.IsCoinbase;
    var taken, most := AcceptedAll(p, s, pool, txs), pool + Fresh(p, pool, txs);
    AcceptedAllFacts(p, s, pool, txs);
    FreshFacts(p, pool, txs);
    DistinctCount(p, taken);
    DistinctCount(p, most);
    ListedIds(p, most);
    assert Ids(p, taken) <= Ids(p, most);
    SubsetIsNoLarger(Ids(p, taken), Ids(p, most));
  }

  lemma SubsetIsNoLarger<T>(a: set<T>, b: set<T>)
    requires a <= b
    ensures |a| <= |b|
  {
    assert b == a + (b - a);
  }

  lemma {:induction false} SubsequenceOfSameLength<T>(a: seq<T>, b: seq<T>)
    requires Subsequence(a, b)
    ensures |a| <= |b| && (|a| == |b| ==> a == b)
    decreases |b|
  {
    if a != [] {
      var fa, fb := a[..|a| - 1], b[..|b| - 1];
      if a[|a| - 1] == b[|b| - 1] && Subsequence(fa, fb) {
        SubsequenceOfSameLength(fa, fb);
        assert a == fa + [a[|a| - 1]] && b == fb + [b[|b| - 1]];
      } else {
        SubsequenceOfSameLength(a, fb);
      }
    }
  }

  /**
   Exactly when a reorganization costs the pool nothing: the old pool, followed by everything new from the
   disconnected blocks, connects on the new chain, and none of the old pool is in the new blocks.
   */
  lemma EverythingComesBackExactlyWhen(p: Params, s: State, pool: seq<MsgTx>, disconnected: seq<MsgBlock>,
        included: set<Hash>)
    requires s.blocks != [] && Distinct(p, pool)
    ensures
      var offered := Returned(p, disconnected, included);
      var all := pool + Fresh(p, pool, offered);
      Revalidated(p, s, AcceptedAll(p, s, pool, offered), included) == all <==>
        Connects(p, s, all) && forall id :: Listed(p, pool, id) ==> id !in included
  {
    hide Connects, AcceptedAll, Revalidated, Distinct, Listed, Returned, Fresh, Subsequence;
    var offered := Returned(p, disconnected, included);
    var unseen := Fresh(p, pool, offered);
    var all := pool + unseen;
    var taken := AcceptedAll(p, s, pool, offered);
    AllAcceptedExactlyWhen(p, s, pool, offered);
    NothingToRevalidate(p, s, all, included);
    AcceptedAtMostFresh(p, s, pool, offered);
    RevalidatedFacts(p, s, taken, included);
    SubsequenceOfSameLength(Revalidated(p, s, taken, included), taken);
    FreshFacts(p, pool, offered);
    FreshIsNotIncluded(p, pool, unseen, disconnected, included);
    assert pool + [] == pool;
  }

  /** Revalidating a list keeps of its second part a subsequence, behind what it keeps of the first. */
  lemma {:induction false} RevalidatedAppend(p: Params, s: State, a: seq<MsgTx>, b: seq<MsgTx>, included: set<Hash>)
    returns (kept: seq<MsgTx>)
    requires s.blocks != []
    ensures Revalidated(p, s, a + b, included) == Revalidated(p, s, a, included) + kept && Subsequence(kept, b)
    decreases |b|
  {
    hide Connects, Revalidated, Subsequence;
    if b == [] {
      assert a + b == a;
      kept := [];
      NothingListed(p);
      assert Revalidated(p, s, a, included) + [] == Revalidated(p, s, a, included);
    } else {
      var front, tx := b[..|b| - 1], b[|b| - 1];
      var keptFront := RevalidatedAppend(p, s, a, front, included);
      assert a + b == a + front + [tx] && b == front + [tx];
      RevalidatedSnoc(p, s, a + front, tx, included);
      SubsequenceSkip(keptFront, front, tx);
      SubsequenceSnoc(keptFront, front, tx);
      var first := Revalidated(p, s, a, included);
      assert first + (keptFront + [tx]) == first + keptFront + [tx];
      kept :=
        if Id(p, tx) !in included && Connects(p, s, first + keptFront + [tx]) then keptFront + [tx] else keptFront;
    }
  }

  lemma {:induction false} SecondPartStays(p: Params, s: State, a: seq<MsgTx>, b: seq<MsgTx>, included: set<Hash>)
    requires s.blocks != [] && forall tx :: tx in b ==> Id(p, tx) !in included
    requires b == [] || Connects(p, s, Revalidated(p, s, a, included) + b)
    ensures Revalidated(p, s, a + b, included) == Revalidated(p, s, a, included) + b
    decreases |b|
  {
    hide Connects, Revalidated;
    var first := Revalidated(p, s, a, included);
    if b == [] {
      assert a + b == a && first + b == first;
    } else {
      var front, tx := b[..|b| - 1], b[|b| - 1];
      assert a + b == a + front + [tx] && b == front + [tx] && first + b == first + front + [tx];
      FrontConnects(p, s, first + front, tx);
      SecondPartStays(p, s, a, front, included);
      RevalidatedSnoc(p, s, a + front, tx, included);
    }
  }

  /**
   Exactly when everything new from the disconnected blocks stays, whatever becomes of the old entries: it
   must connect twice, behind the old pool as it was when it is offered, and behind what is left of that pool.
   */
  lemma NewSurvivesExactlyWhen(p: Params, s: State, pool: seq<MsgTx>, disconnected: seq<MsgBlock>, included: set<Hash>)
    requires s.blocks != [] && Distinct(p, pool)
    ensures
      var offered := Returned(p, disconnected, included);
      var unseen, left := Fresh(p, pool, offered), Revalidated(p, s, pool, included);
      Revalidated(p, s, AcceptedAll(p, s, pool, offered), included) == left + unseen <==>
        unseen == [] || (Connects(p, s, pool + unseen) && Connects(p, s, left + unseen))
  {
    hide Connects, AcceptedAll, Revalidated, Distinct, Listed, Returned, Fresh, Subsequence, MsgTx.IsCoinbase;
    var offered := Returned(p, disconnected, included);
    var unseen, left := Fresh(p, pool, offered), Revalidated(p, s, pool, included);
    var taken := AcceptedAll(p, s, pool, offered);
    AllAcceptedExactlyWhen(p, s, pool, offered);
    FreshFacts(p, pool, offered);
    RevalidatedFacts(p, s, taken, included);
    if unseen == [] || (Connects(p, s, pool + unseen) && Connects(p, s, left + unseen)) {
      OfferedIsNotIncluded(p, unseen, disconnected, included);
      SecondPartStays(p, s, pool, unseen, included);
    } else if Revalidated(p, s, taken, included) == left + unseen {
      AcceptedAllFacts(p, s, pool, offered);
      AcceptedAtMostFresh(p, s, pool, offered);
      var added := taken[|pool|..];
      assert taken == pool + added;
      var kept := RevalidatedAppend(p, s, pool, added, included);
      assert kept == unseen by {
        assert (left + kept)[|left|..] == kept && (left + unseen)[|left|..] == unseen;
      }
      SubsequenceOfSameLength(kept, added);
    }
  }

  lemma OfferedIsNotIncluded(p: Params, txs: seq<MsgTx>, disconnected: seq<MsgBlock>, included: set<Hash>)
    requires forall tx :: tx in txs ==> tx in Returned(p, disconnected, included)
    ensures forall tx :: tx in txs ==> Id(p, tx) !in included
  {
    hide Returned;
    forall tx | tx in txs
      ensures Id(p, tx) !in included
    {
      ReturnedMembers(p, disconnected, included, tx);
    }
  }

  lemma FreshIsNotIncluded(p: Params, pool: seq<MsgTx>, unseen: seq<MsgTx>, disconnected: seq<MsgBlock>,
        included: set<Hash>)
    requires forall tx :: tx in unseen ==> tx in Returned(p, disconnected, included)
    ensures (forall id :: Listed(p, pool + unseen, id) ==> id !in included) <==>
      forall id :: Listed(p, pool, id) ==> id !in included
  {
    hide Returned;
    OfferedIsNotIncluded(p, unseen, disconnected, included);
    ListedIds(p, pool);
    ListedIds(p, pool + unseen);
    hide Listed;
    forall id | id in Ids(p, pool + unseen)
      ensures id in Ids(p, pool) || id !in included
    {
      var tx :| tx in pool + unseen && Id(p, tx) == id;
    }
    assert Ids(p, pool) <= Ids(p, pool + unseen);
  }

  // ---- the server's half ----

  class Server {
    const chain: Chain
    var mempool: seq<MsgTx>

    /** The invariant: no transaction is in the pool twice. */
    ghost predicate Valid()
      reads this, chain
    {
      chain.Valid() && Distinct(chain.params, mempool)
    }

    constructor (chain: Chain)
      requires chain.Valid()
      ensures Valid() && this.chain == chain && mempool == []
    {
      this.chain := chain;
      mempool := [];
    }

    /** All transactions of the pool together could go into the next block. */
    ghost predicate JointlyValid()
      requires chain.blocks != []
      reads this, chain
    {
      Connects(chain.params, chain.Current(), mempool)
    }

    /** Takes a transaction in when it is new and connects after the whole pool. */
    method AcceptTransaction(tx: MsgTx) returns (accepted: bool, error: Option<PoolError>)
      requires Valid()
      modifies this
      ensures Valid() && chain.blocks != []
      ensures mempool == Accepted(chain.params, chain.Current(), old(mempool), tx)
      ensures accepted <==>
        !tx.IsCoinbase() && !Listed(chain.params, old(mempool), Id(chain.params, tx)) &&
        Connects(chain.params, chain.Current(), old(mempool) + [tx])
      ensures accepted ==> JointlyValid() && error == None
      ensures error == Some(CoinbaseRefused) <==> tx.IsCoinbase()
      ensures Listed(chain.params, old(mempool), Id(chain.params, tx)) && !tx.IsCoinbase() ==> error == None
    {
      hide Chain.Valid, Params.WellFormed, Good, Linked, Fees, MsgTx.IsCoinbase, Distinct, Connects, Listed, Id,
        Accepted;
      chain.Shape();
      AcceptedCases(chain.params, chain.Current(), mempool, tx);
      if tx.IsCoinbase() {
        return false, Some(CoinbaseRefused);
      }
      var txHash := Id(chain.params, tx);
      for i := 0 to |mempool|
        invariant mempool == old(mempool)
        invariant forall j :: 0 <= j < i ==> Id(chain.params, mempool[j]) != txHash
      {
        if Id(chain.params, mempool[i]) == txHash {
          ListedAt(chain.params, mempool, i);
          return false, None;
        }
      }
      NotListed(chain.params, mempool, txHash);
      var candidate := mempool + [tx];
      ConnectsIs(chain.params, chain.Current(), candidate);
      var fees := chain.CalcFees(candidate);
      if fees.Err? {
        return false, Some(DoesNotConnect(fees.error));
      }
      DistinctSnoc(chain.params, mempool, tx);
      mempool := candidate;
      return true, None;
    }

    method RevalidateMempool(included: set<Hash>)
      requires Valid()
      modifies this
      ensures Valid() && chain.blocks != []
      ensures mempool == Revalidated(chain.params, chain.Current(), old(mempool), included)
    {
      chain.Shape();
      ghost var p, s, pool := chain.params, chain.Current(), mempool;
      hide Chain.Valid, Params.WellFormed, Good, Linked, Fees, Distinct, Subsequence, Listed, Revalidated, Connects;
      RevalidatedFacts(p, s, pool, included);
      NothingRevalidated(p, s, included);
      if |mempool| == 0 {
        return;
      }
      var filtered := FilterMempool(included);
      mempool := filtered;
    }

    /** The loop: each transaction stays if it is not included and connects after those kept before it. */
    method FilterMempool(included: set<Hash>) returns (filtered: seq<MsgTx>)
      requires Valid() && chain.blocks != []
      ensures filtered == Revalidated(chain.params, chain.Current(), mempool, included)
    {
      ghost var p, s := chain.params, chain.Current();
      var txs := mempool;
      assert chain.Valid();
      NothingRevalidated(p, s, included);
      hide *;
      filtered := [];
      assert txs[..0] == [];
      for i := 0 to |txs|
        invariant filtered == Revalidated(p, s, txs[..i], included)
      {
        RevalidatedStep(p, s, txs, i, included);
        if Id(chain.params, txs[i]) !in included {
          var candidate := filtered + [txs[i]];
          ConnectsIs(p, s, candidate);
          var fees := chain.CalcFees(candidate);
          if fees.Ok? {
            filtered := candidate;
          }
        }
      }
      assert txs[..|txs|] == txs;
    }

    /** After a block has been connected the pool is valid on the new chain and holds nothing of that block. */
    method NotifyBlockConnected(block: MsgBlock)
      requires Valid()
      modifies this
      ensures Valid() && chain.blocks != []
      ensures mempool == Revalidated(chain.params, chain.Current(), old(mempool), Ids(chain.params, block.transactions))
      ensures JointlyValid()
      ensures Subsequence(mempool, old(mempool))
      ensures forall tx :: tx in block.transactions ==> !Listed(chain.params, mempool, Id(chain.params, tx))
    {
      chain.Shape();
      hide Chain.Valid, Params.WellFormed, Good, Linked, Connects, Revalidated, Distinct, Subsequence, Listed;
      RevalidatedFacts(chain.params, chain.Current(), mempool, Ids(chain.params, block.transactions));
      RevalidateMempool(Ids(chain.params, block.transactions));
    }

    /**
     After a reorganization the transactions of the blocks taken off are offered to the pool, lowest block
     first, and only then is the pool revalidated.
     */
    method NotifyChainReorganized(disconnected: seq<MsgBlock>, connected: seq<MsgBlock>)
      requires Valid()
      modifies this
      ensures Valid() && chain.blocks != []
      ensures
        var included := IdsOf(chain.params, connected);
        var offered := Returned(chain.params, disconnected, included);
        && mempool == Revalidated(chain.params, chain.Current(),
             AcceptedAll(chain.params, chain.Current(), old(mempool), offered), included)
        && (forall id :: Listed(chain.params, mempool, id) ==> id !in included)
        && (forall tx :: tx in mempool ==> tx in old(mempool) || tx in offered)
        && var all := old(mempool) + Fresh(chain.params, old(mempool), offered);
        (mempool == all <==>
          && Connects(chain.params, chain.Current(), all)
          && forall id :: Listed(chain.params, old(mempool), id) ==> id !in included)
      ensures JointlyValid()
    {
      chain.Shape();
      hide Chain.Valid, Params.WellFormed, Good, Linked, Connects, Revalidated, Distinct, Subsequence, Listed,
        Accepted, Fresh, IdsOf, Returned, ReturnedUpTo, MsgTx.IsCoinbase;
      ghost var p, s, pool := chain.params, chain.Current(), mempool;
      var included := IdsOf(chain.params, connected);
      ghost var offered: seq<MsgTx> := [];
      NothingReturned(p, included);
      var i := |disconnected|;
      while i > 0
        invariant Valid() && 0 <= i <= |disconnected|
        invariant offered == Returned(p, disconnected[i..], included)
        invariant mempool == AcceptedAll(p, s, pool, offered)
      {
        i := i - 1;
        ReturnedCons(p, disconnected, i, included);
        offered := offered + ReturnedBy(p, disconnected[i], included);
        ReturnBlock(disconnected[i], included, pool, Returned(p, disconnected[i + 1..], included));
      }
      assert disconnected[0..] == disconnected;
      AcceptedAllFacts(p, s, pool, offered);
      EverythingComesBackExactlyWhen(p, s, pool, disconnected, included);
      RevalidatedFacts(p, s, mempool, included);
      SubsequenceMembers(p, Revalidated(p, s, mempool, included), mempool);
      RevalidateMempool(included);
    }

    /** Offers the regular transactions of one block that are not in `included`. */
    method ReturnBlock(block: MsgBlock, included: set<Hash>, ghost pool: seq<MsgTx>, ghost before: seq<MsgTx>)
      requires Valid() && chain.blocks != []
      requires mempool == AcceptedAll(chain.params, chain.Current(), pool, before)
      modifies this
      ensures Valid()
      ensures mempool ==
        AcceptedAll(chain.params, chain.Current(), pool, before + ReturnedBy(chain.params, block, included))
    {
      hide Server.Valid, Chain.Valid, Connects, Accepted, AcceptedAll, ReturnedUpTo, Listed, MsgTx.IsCoinbase, Distinct;
      ghost var p, s := chain.params, chain.Current();
      NothingReturnedYet(p, block, included, before);
      for txIndex := 0 to |block.transactions|
        invariant Valid()
        invariant mempool == AcceptedAll(p, s, pool, before + ReturnedUpTo(p, block, included, txIndex))
      {
        var tx := block.transactions[txIndex];
        ReturnStep(p, s, pool, before, block, included, txIndex);
        if txIndex != 0 && Id(chain.params, tx) !in included {
          var accepted, error := AcceptTransaction(tx);
        }
      }
    }
  }

  lemma AcceptedCases(p: Params, s: State, pool: seq<MsgTx>, tx: MsgTx)
    requires s.blocks != []
    ensures Accepted(p, s, pool, tx) ==
      if !tx.IsCoinbase() && !Listed(p, pool, Id(p, tx)) && Connects(p, s, pool + [tx]) then pool + [tx] else pool
  {
  }

  lemma ListedAt(p: Params, txs: seq<MsgTx>, i: nat)
    requires i < |txs|
    ensures Listed(p, txs, Id(p, txs[i]))
  {
  }

  lemma NotListed(p: Params, txs: seq<MsgTx>, id: Hash)
    requires forall i :: 0 <= i < |txs| ==> Id(p, txs[i]) != id
    ensures !Listed(p, txs, id)
  {
  }

  lemma ConnectsIs(p: Params, s: State, txs: seq<MsgTx>)
    requires s.blocks != []
    ensures Connects(p, s, txs) <==> Fees(p, s, txs).Ok?
  {
  }

  lemma NothingRevalidated(p: Params, s: State, included: set<Hash>)
    requires s.blocks != []
    ensures Revalidated(p, s, [], included) == []
  {
  }

  lemma NothingReturnedYet(p: Params, block: MsgBlock, included: set<Hash>, before: seq<MsgTx>)
    ensures before + ReturnedUpTo(p, block, included, 0) == before
  {
  }

  lemma ReturnStep(p: Params, s: State, pool: seq<MsgTx>, before: seq<MsgTx>, block: MsgBlock, included: set<Hash>,
        i: nat)
    requires s.blocks != [] && i < |block.transactions|
    ensures
      var offered, tx := before + ReturnedUpTo(p, block, included, i), block.transactions[i];
      AcceptedAll(p, s, pool, before + ReturnedUpTo(p, block, included, i + 1)) ==
        if i == 0 || Id(p, tx) in included then AcceptedAll(p, s, pool, offered)
        else Accepted(p, s, AcceptedAll(p, s, pool, offered), tx)
  {
    hide Accepted, AcceptedAll;
    var returned, tx := ReturnedUpTo(p, block, included, i), block.transactions[i];
    AcceptedAllSnoc(p, s, pool, before + returned, tx);
    assert before + (returned + [tx]) == before + returned + [tx];
  }

  lemma NothingReturned(p: Params, included: set<Hash>)
    ensures Returned(p, [], included) == []
  {
  }

  lemma ReturnedCons(p: Params, disconnected: seq<MsgBlock>, i: nat, included: set<Hash>)
    requires i < |disconnected|
    ensures Returned(p, disconnected[i..], included) ==
      Returned(p, disconnected[i + 1..], included) + ReturnedBy(p, disconnected[i], included)
  {
    assert disconnected[i..][1..] == disconnected[i + 1..];
  }

  /** A pool that the reorganization made stale gets nothing back: it only shrinks. */
  lemma StalePoolGetsNothingBack(p: Params, s: State, pool: seq<MsgTx>, disconnected: seq<MsgBlock>,
        included: set<Hash>)
    requires s.blocks != [] && !Connects(p, s, pool)
    ensures Revalidated(p, s, AcceptedAll(p, s, pool, Returned(p, disconnected, included)), included) ==
      Revalidated(p, s, pool, included)
  {
    hide Connects, Revalidated, AcceptedAll, Returned;
    StalePoolAcceptsNothing(p, s, pool, Returned(p, disconnected, included));
  }
}
