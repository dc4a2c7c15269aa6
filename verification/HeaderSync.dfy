/** Header-first synchronization: `validateHeaderChain` of `internal/p2p/node.go` against the chain's own rules. */
module HeaderSync {
  import opened Ints
  import opened WireTypes
  import opened ChainCfg
  import opened Ledger
  import opened ChainFacts
  import opened Blockchain
  import BlockTime
  import Merkle

  /** The loop over the headers from the i-th on, with the height, hash and time that the next one must meet. */
  function HeadersFrom(p: Params, headers: seq<BlockHeader>, i: nat, expectedHeight: uint32, prevHash: Hash,
        prevTime: uint32, acc: seq<Hash>):
      Result<seq<Hash>, RuleError>
    requires p.WellFormed() && i <= |headers|
    decreases |headers| - i
  {
    if i == |headers| then Ok(acc)
    else
      var h := headers[i];
      if h.height < expectedHeight then HeadersFrom(p, headers, i + 1, expectedHeight, prevHash, prevTime, acc)
      else if h.height != expectedHeight then Err(WrongHeight)
      else if h.prevBlock != prevHash then Err(WrongPrevBlock)
      else if h.timestamp <= prevTime then Err(TimestampMustIncrease)
      else if h.bits != ExpectedBits(p, prevTime, h.height) then Err(WrongBits)
      else
        match CheckProofOfWork(p, h)
        case Some(e) => Err(e)
        case None =>
          WorkMeansHashable(p, h);
          var hash := BlockHash(p, h);
          HeadersFrom(p, headers, i + 1, Wrap32(expectedHeight + 1), hash, h.timestamp, acc + [hash])
  }

  function CheckHeaders(p: Params, tip: BlockHeader, headers: seq<BlockHeader>, now: int): Result<seq<Hash>, RuleError>
    requires p.WellFormed() && tip.Hashable()
  {
    if |headers| > 0 && !BlockTime.MiningOpen(p, now) then Err(MiningClosed)
    else HeadersFrom(p, headers, 0, Wrap32(tip.height + 1), BlockHash(p, tip), tip.timestamp, [])
  }

  method ValidateHeaderChain(chain: Chain, headers: seq<BlockHeader>,
        now: int) returns (r: Result<seq<Hash>, RuleError>)
    requires chain.Valid()
    ensures chain.blocks != [] && Tip(chain.Current()).header.Hashable()
    ensures r == CheckHeaders(chain.params, Tip(chain.Current()).header, headers, now)
  {
    hide Chain.Valid, Params.WellFormed, Good, Linked, ExpectedBits, CheckProofOfWork, BlockTime.MiningOpen;
    chain.Shape();
    var p := chain.params;
    var tip := chain.blocks[|chain.blocks| - 1].header;
    var expectedHeight := Wrap32(tip.height + 1);
    if |headers| > 0 && !BlockTime.MiningOpen(p, now) {
      return Err(MiningClosed);
    }
    var prevHash := BlockHash(p, tip);
    var prevTime: uint32 := tip.timestamp;
    var hashes: seq<Hash> := [];
    for i := 0 to |headers|
      invariant HeadersFrom(p, headers, 0, Wrap32(tip.height + 1), BlockHash(p, tip), tip.timestamp, [])
        == HeadersFrom(p, headers, i, expectedHeight, prevHash, prevTime, hashes)
    {
      var h := headers[i];
      if h.height >= expectedHeight {
        if h.height != expectedHeight {
          return Err(WrongHeight);
        }
        if h.prevBlock != prevHash {
          return Err(WrongPrevBlock);
        }
        if h.timestamp <= prevTime {
          return Err(TimestampMustIncrease);
        }
        if h.bits != ExpectedBits(p, prevTime, h.height) {
          return Err(WrongBits);
        }
        var work := CheckProofOfWork(p, h);
        if work.Some? {
          return Err(work.value);
        }
        WorkMeansHashable(p, h);
        var hash := BlockHash(p, h);
        hashes := hashes + [hash];
        prevHash := hash;
        prevTime := h.timestamp;
        var reached: int := expectedHeight;
        expectedHeight := Wrap32(reached + 1);
      }
    }
    r := Ok(hashes);
  }

  // ---- what it decides ----

  /** The headers that are not skipped: those at or above the height expected when they come up. */
  function Kept(headers: seq<BlockHeader>, expectedHeight: uint32): seq<BlockHeader> {
    if headers == [] then []
    else if headers[0].height < expectedHeight then Kept(headers[1..], expectedHeight)
    else [headers[0]] + Kept(headers[1..], Wrap32(expectedHeight + 1))
  }

  /** Each header may follow the one before it, the first one `tip`. */
  ghost predicate FollowOn(p: Params, tip: BlockHeader, headers: seq<BlockHeader>)
    requires p.WellFormed() && tip.Hashable()
    decreases |headers|
  {
    headers == [] ||
      (HeaderFollows(p, tip, headers[0]) && headers[0].Hashable() && FollowOn(p, headers[0], headers[1..]))
  }

  function Hashes(p: Params, headers: seq<BlockHeader>): (r: seq<Hash>)
    ensures |r| == |headers|
    ensures forall i :: 0 <= i < |r| ==> r[i] == BlockHash(p, headers[i])
  {
    if headers == [] then [] else [BlockHash(p, headers[0])] + Hashes(p, headers[1..])
  }

  lemma {:induction false} HeadersFromMeaning(p: Params, headers: seq<BlockHeader>, i: nat, tip: BlockHeader,
        acc: seq<Hash>)
    requires p.WellFormed() && tip.Hashable() && i <= |headers|
    ensures
      var kept := Kept(headers[i..], Wrap32(tip.height + 1));
      var r := HeadersFrom(p, headers, i, Wrap32(tip.height + 1), BlockHash(p, tip), tip.timestamp, acc);
      && (r.Ok? <==> FollowOn(p, tip, kept))
      && (r.Ok? ==> r.value == acc + Hashes(p, kept))
    decreases |headers| - i
  {
    hide Params.WellFormed, ExpectedBits, CheckProofOfWork;
    if i < |headers| {
      var h := headers[i];
      assert headers[i..][0] == h && headers[i..][1..] == headers[i + 1..];
      if h.height < Wrap32(tip.height + 1) {
        HeadersFromMeaning(p, headers, i + 1, tip, acc);
      } else if HeaderFollows(p, tip, h) {
        WorkMeansHashable(p, h);
        HeadersFromMeaning(p, headers, i + 1, h, acc + [BlockHash(p, h)]);
        KeptStep(p, headers, i, h, tip, acc);
      }
    }
  }

  lemma KeptStep(p: Params, headers: seq<BlockHeader>, i: nat, h: BlockHeader, tip: BlockHeader, acc: seq<Hash>)
    requires i < |headers| && h == headers[i] && h.height == Wrap32(tip.height + 1)
    ensures
      var rest := Kept(headers[i + 1..], Wrap32(h.height + 1));
      && Kept(headers[i..], Wrap32(tip.height + 1)) == [h] + rest
      && acc + [BlockHash(p, h)] + Hashes(p, rest) == acc + Hashes(p, [h] + rest)
  {
    hide Wrap32, Hashes;
    assert headers[i..][1..] == headers[i + 1..];
    HashesCons(p, h, Kept(headers[i + 1..], Wrap32(h.height + 1)), acc);
  }

  lemma HashesCons(p: Params, h: BlockHeader, rest: seq<BlockHeader>, acc: seq<Hash>)
    ensures acc + [BlockHash(p, h)] + Hashes(p, rest) == acc + Hashes(p, [h] + rest)
  {
    assert ([h] + rest)[1..] == rest;
  }

  /** Headers are accepted exactly when the kept ones follow on from the tip, and their hashes come back in order. */
  lemma HeadersAcceptedExactlyWhen(p: Params, tip: BlockHeader, headers: seq<BlockHeader>, now: int)
    requires p.WellFormed() && tip.Hashable()
    ensures
      var kept := Kept(headers, Wrap32(tip.height + 1));
      var r := CheckHeaders(p, tip, headers, now);
      && (r.Ok? <==> (headers == [] || BlockTime.MiningOpen(p, now)) && FollowOn(p, tip, kept))
      && (r.Ok? ==> r.value == Hashes(p, kept))
  {
    hide Params.WellFormed, HeadersFrom;
    HeadersFromMeaning(p, headers, 0, tip, []);
    assert headers[0..] == headers;
    assert [] + Hashes(p, Kept(headers, Wrap32(tip.height + 1))) == Hashes(p, Kept(headers, Wrap32(tip.height + 1)));
  }

  function HeadersOf(blocks: seq<MsgBlock>): (r: seq<BlockHeader>)
    ensures |r| == |blocks|
    ensures forall i :: 0 <= i < |r| ==> r[i] == blocks[i].header
  {
    if blocks == [] then [] else [blocks[0].header] + HeadersOf(blocks[1..])
  }

  /** The first accepted block's header follows the tip, and leads to a chain on which the rest is accepted. */
  lemma FirstStored(p: Params, s: State, blocks: seq<MsgBlock>, now: int) returns (t: State)
    requires p.WellFormed() && Good(p, s) && blocks != []
    requires AddAll(p, s, blocks, now, false).Ok?
    ensures s.blocks != [] && Tip(s).header.Hashable()
    ensures HeaderFollows(p, Tip(s).header, blocks[0].header) && BlockTime.MiningOpen(p, now)
    ensures Good(p, t) && t.blocks == s.blocks + [blocks[0]] && AddAll(p, t, blocks[1..], now, false).Ok?
  {
    GoodTip(p, s);
    AcceptanceRules(p, Tip(s).header, s.utxos, blocks[0], now, false);
    AddKeepsGood(p, s, blocks[0], now, false);
    hide Params.WellFormed, Good, HeaderFollows, ValidateBlock, Linked, ConnectBlock;
    t := Ledger.AddBlock(p, s, blocks[0], now, false).value;
  }

  lemma {:induction false} StoredBlocksFollowOn(p: Params, s: State, blocks: seq<MsgBlock>, now: int)
    requires p.WellFormed() && Good(p, s)
    requires AddAll(p, s, blocks, now, false).Ok?
    ensures s.blocks != [] && Tip(s).header.Hashable()
    ensures FollowOn(p, Tip(s).header, HeadersOf(blocks))
    ensures blocks == [] || BlockTime.MiningOpen(p, now)
    decreases |blocks|
  {
    GoodTip(p, s);
    hide Params.WellFormed, Good, HeaderFollows, Linked, AddAll;
    if blocks != [] {
      var t := FirstStored(p, s, blocks, now);
      StoredBlocksFollowOn(p, t, blocks[1..], now);
      assert HeadersOf(blocks)[1..] == HeadersOf(blocks[1..]);
      HeightOfFollower(p, Tip(s).header, blocks[0].header);
    }
  }

  lemma {:induction false} NothingSkipped(p: Params, tip: BlockHeader, headers: seq<BlockHeader>)
    requires p.WellFormed() && tip.Hashable() && FollowOn(p, tip, headers)
    ensures Kept(headers, Wrap32(tip.height + 1)) == headers
    decreases |headers|
  {
    hide Params.WellFormed, HeaderFollows, BlockHeader.Hashable;
    if headers != [] {
      HeightOfFollower(p, tip, headers[0]);
      NothingSkipped(p, headers[0], headers[1..]);
      assert headers == [headers[0]] + headers[1..];
    }
  }

  lemma HeightOfFollower(p: Params, tip: BlockHeader, h: BlockHeader)
    requires p.WellFormed() && tip.Hashable() && HeaderFollows(p, tip, h)
    ensures h.height == Wrap32(tip.height + 1) && h.Hashable()
  {
    WorkMeansHashable(p, h);
    hide Params.WellFormed;
  }

  /** Whatever list of blocks the chain would store, its headers pass first, with the same hashes in the same order. */
  lemma HeadersOfStoredBlocksPass(p: Params, s: State, blocks: seq<MsgBlock>, now: int)
    requires p.WellFormed() && Good(p, s)
    requires AddAll(p, s, blocks, now, false).Ok?
    ensures s.blocks != [] && Tip(s).header.Hashable()
    ensures CheckHeaders(p, Tip(s).header, HeadersOf(blocks), now) == Ok(Hashes(p, HeadersOf(blocks)))
  {
    hide Params.WellFormed, Good, AddAll, FollowOn, CheckHeaders;
    StoredBlocksFollowOn(p, s, blocks, now);
    NothingSkipped(p, Tip(s).header, HeadersOf(blocks));
    HeadersAcceptedExactlyWhen(p, Tip(s).header, HeadersOf(blocks), now);
  }

  /** What headers do not show: the merkle root and the transactions. */
  ghost predicate BodyPasses(p: Params, s: State, block: MsgBlock)
    requires p.WellFormed()
  {
    && block.transactions != []
    && block.header.merkleRoot == Merkle.MerkleRoot(p.crypto, block.transactions)
    && ConnectBlock(p, block, s.utxos, block.header.height).Ok?
  }

  /** A block whose header is accepted next is stored exactly when its body passes. */
  lemma AcceptedHeaderLeavesTheBody(p: Params, s: State, block: MsgBlock, now: int)
    requires p.WellFormed() && Good(p, s)
    ensures s.blocks != [] && Tip(s).header.Hashable()
    ensures Ledger.AddBlock(p, s, block, now, false).Ok? <==>
      && CheckHeaders(p, Tip(s).header, [block.header], now).Ok?
      && block.header.height == Wrap32(Tip(s).header.height + 1)
      && BodyPasses(p, s, block)
  {
    GoodTip(p, s);
    var tip := Tip(s).header;
    AcceptanceRules(p, tip, s.utxos, block, now, false);
    HeadersAcceptedExactlyWhen(p, tip, [block.header], now);
    assert [block.header][1..] == [];
    hide Params.WellFormed, Good, ValidateBlock, ConnectBlock, CheckHeaders, ExpectedBits;
    if block.header.height == Wrap32(tip.height + 1) {
      assert Kept([block.header], Wrap32(tip.height + 1)) == [block.header] + Kept([], Wrap32(block.header.height + 1));
      assert Kept([block.header], Wrap32(tip.height + 1)) == [block.header];
      if HeaderFollows(p, tip, block.header) {
        HeightOfFollower(p, tip, block.header);
        assert FollowOn(p, block.header, []);
      }
    }
  }
}
