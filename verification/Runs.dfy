/** The chain as a state machine: extensions and reorganizations in any order. */
module Runs {
  import opened Ints
  import opened WireTypes
  import opened ChainCfg
  import opened Ledger
  import opened ChainFacts
  import Conservation
  import BlockTime
  import Subsidy

  /** Position of the first block with this hash. */
  function FindByHash(p: Params, blocks: seq<MsgBlock>, hash: Hash): (r: Option<nat>)
    ensures r.Some? ==> r.value < |blocks| && BlockHash(p, blocks[r.value].header) == hash
    ensures r.Some? ==> forall i :: 0 <= i < r.value ==> BlockHash(p, blocks[i].header) != hash
    ensures r.None? ==> forall i :: 0 <= i < |blocks| ==> BlockHash(p, blocks[i].header) != hash
  {
    if blocks == [] then None
    else if BlockHash(p, blocks[0].header) == hash then Some(0)
    else
      match FindByHash(p, blocks[1..], hash)
      case None => None
      case Some(i) => Some(i + 1)
  }

  datatype ReorgError = UnknownForkPoint | WrongStartHeight | Refused(rule: RuleError)

  datatype Reorg = Declined | Failed(error: ReorgError) | Switched(state: State)

  /** What becomes of a chain that is offered the branch `candidate`: everything is replayed from genesis. */
  function Reorganized(p: Params, s: State, candidate: seq<MsgBlock>, now: int): (r: Reorg)
    requires p.WellFormed() && Good(p, s)
    ensures r.Switched? ==> Good(p, r.state)
  {
    if candidate == [] then Declined
    else
      GenesisIsGood(p);
      GoodTip(p, s);
      match FindByHash(p, s.blocks, candidate[0].header.prevBlock)
      case None => Failed(UnknownForkPoint)
      case Some(fork) =>
        HeightsArePositions(p, s.blocks, fork);
        if candidate[0].header.height != Wrap32(fork + 1) then Failed(WrongStartHeight)
        else if candidate[|candidate| - 1].header.height <= Tip(s).header.height then Declined
        else
          match AddAll(p, Genesis(p), s.blocks[1..fork + 1] + candidate, now, true)
          case Err(e) => Failed(Refused(e))
          case Ok(t) => Switched(t)
  }

  /** A switch keeps the chain up to the fork point, appends the whole branch, and makes it strictly higher. */
  lemma SwitchReplacesTheTail(p: Params, s: State, candidate: seq<MsgBlock>, now: int)
    requires p.WellFormed() && Good(p, s)
    requires Reorganized(p, s, candidate, now).Switched?
    ensures candidate != []
    ensures
      var t := Reorganized(p, s, candidate, now).state;
      var fork := FindByHash(p, s.blocks, candidate[0].header.prevBlock);
      && fork.Some?
      && t.blocks == s.blocks[..fork.value + 1] + candidate
      && |t.blocks| > |s.blocks|
      && Tip(t).header.height == |t.blocks| - 1 > Tip(s).header.height == |s.blocks| - 1
  {
    hide Params.WellFormed, Replay, BlockFollows, Ledger.AddBlock;
    GoodTip(p, s);
    var fork := FindByHash(p, s.blocks, candidate[0].header.prevBlock).value;
    var t := Reorganized(p, s, candidate, now).state;
    assert [s.blocks[0]] + (s.blocks[1..fork + 1] + candidate) == s.blocks[..fork + 1] + candidate;
    GoodTip(p, t);
    HeightsArePositions(p, s.blocks, |s.blocks| - 1);
    HeightsArePositions(p, t.blocks, |t.blocks| - 1);
  }

  /** The branch fits on the kept part of the chain, and is longer than the part that it replaces. */
  ghost predicate Replaces(p: Params, s: State, candidate: seq<MsgBlock>, fork: nat, now: int)
    requires p.WellFormed() && Good(p, s) && fork < |s.blocks|
  {
    && |candidate| > |s.blocks| - (fork + 1)
    && AddAll(p, PrefixState(p, s, fork + 1), candidate, now, false).Ok?
  }

  lemma StorableMeansOpen(p: Params, s: State, blocks: seq<MsgBlock>, now: int, enforce: bool)
    requires p.WellFormed() && Good(p, s) && blocks != [] && AddAll(p, s, blocks, now, enforce).Ok?
    ensures s.blocks != [] && blocks[0].header.height == Wrap32(Tip(s).header.height + 1)
    ensures BlockTime.MiningOpen(p, now)
  {
    GoodTip(p, s);
    AcceptanceRules(p, Tip(s).header, s.utxos, blocks[0], now, enforce);
    hide Params.WellFormed, Good, ValidateBlock, ConnectBlock, CheckProofOfWork, ExpectedBits, BlockTime.MiningOpen;
  }

  /** Replaying the kept blocks and a branch that fits on them: the clock alone decides. */
  lemma ReplayDecided(p: Params, s: State, candidate: seq<MsgBlock>, fork: nat, now: int)
    requires p.WellFormed() && Good(p, s) && fork < |s.blocks| && candidate != []
    requires AddAll(p, PrefixState(p, s, fork + 1), candidate, now, false).Ok?
    ensures Good(p, Genesis(p))
    ensures
      var replayed := AddAll(p, Genesis(p), s.blocks[1..fork + 1] + candidate, now, true);
      if InTime(p, s.blocks[..fork + 1] + candidate, 1, now)
      then replayed == AddAll(p, PrefixState(p, s, fork + 1), candidate, now, false)
      else replayed == Err(TimestampTooFar)
  {
    hide Params.WellFormed, Good, AddAll, InTime;
    GenesisIsGood(p);
    GoodTip(p, s);
    var kept := s.blocks[1..fork + 1];
    StorableMeansOpen(p, PrefixState(p, s, fork + 1), candidate, now, false);
    KeptBlocksRebuild(p, s, fork + 1, now);
    AddAllAppend(p, Genesis(p), kept, candidate, now, false);
    ClockDecides(p, Genesis(p), kept + candidate, now);
    assert [s.blocks[0]] + (kept + candidate) == s.blocks[..fork + 1] + candidate;
  }

  lemma BranchTipHeight(p: Params, s: State, candidate: seq<MsgBlock>, now: int, enforce: bool)
    requires p.WellFormed() && Good(p, s) && candidate != [] && AddAll(p, s, candidate, now, enforce).Ok?
    ensures candidate[|candidate| - 1].header.height == |s.blocks| + |candidate| - 1
  {
    hide Params.WellFormed, Good, Linked, AddAll;
    var t := AddAll(p, s, candidate, now, enforce).value;
    GoodTip(p, t);
    HeightsArePositions(p, t.blocks, |t.blocks| - 1);
    assert t.blocks[|t.blocks| - 1] == candidate[|candidate| - 1];
  }

  /**
   Exactly when a chain switches, in terms that can be checked beforehand: the branch leaves from a known
   block, can be stored on the chain up to there, is longer than what it replaces, and no block of the
   resulting chain, kept blocks included, is too far ahead of the block before it by the present clock.
   */
  lemma SwitchesExactlyWhen(p: Params, s: State, candidate: seq<MsgBlock>, now: int)
    requires p.WellFormed() && Good(p, s)
    ensures Reorganized(p, s, candidate, now).Switched? <==>
      && candidate != []
      && var fork := FindByHash(p, s.blocks, candidate[0].header.prevBlock);
      && fork.Some?
      && Replaces(p, s, candidate, fork.value, now)
      && InTime(p, s.blocks[..fork.value + 1] + candidate, 1, now)
    ensures Reorganized(p, s, candidate, now).Switched? ==>
      var fork := FindByHash(p, s.blocks, candidate[0].header.prevBlock).value;
      Ok(Reorganized(p, s, candidate, now).state) == AddAll(p, PrefixState(p, s, fork + 1), candidate, now, false)
  {
    hide Params.WellFormed, Good, AddAll, InTime, Linked, Reorganized, FindByHash, PrefixState;
    if Reorganized(p, s, candidate, now).Switched? {
      WinningBranchReplaces(p, s, candidate, now);
    }
    if candidate != [] {
      var fork := FindByHash(p, s.blocks, candidate[0].header.prevBlock);
      if fork.Some? && Replaces(p, s, candidate, fork.value, now) {
        ReplacingBranchWins(p, s, candidate, fork.value, now);
      }
    }
  }

  lemma ReplacingBranchWins(p: Params, s: State, candidate: seq<MsgBlock>, fork: nat, now: int)
    requires p.WellFormed() && Good(p, s) && fork < |s.blocks| && candidate != []
    requires FindByHash(p, s.blocks, candidate[0].header.prevBlock) == Some(fork)
    requires Replaces(p, s, candidate, fork, now)
    ensures Reorganized(p, s, candidate, now) ==
      if InTime(p, s.blocks[..fork + 1] + candidate, 1, now)
      then Switched(AddAll(p, PrefixState(p, s, fork + 1), candidate, now, false).value)
      else Failed(Refused(TimestampTooFar))
  {
    hide Params.WellFormed, Good, AddAll, InTime, Linked;
    GoodTip(p, s);
    GenesisIsGood(p);
    var t := PrefixState(p, s, fork + 1);
    ReplayDecided(p, s, candidate, fork, now);
    StorableMeansOpen(p, t, candidate, now, false);
    BranchTipHeight(p, t, candidate, now, false);
    HeightsArePositions(p, s.blocks, |s.blocks| - 1);
    HeightsArePositions(p, s.blocks, fork);
  }

  lemma WinningBranchReplaces(p: Params, s: State, candidate: seq<MsgBlock>, now: int)
    requires p.WellFormed() && Good(p, s) && Reorganized(p, s, candidate, now).Switched?
    ensures candidate != [] && FindByHash(p, s.blocks, candidate[0].header.prevBlock).Some?
    ensures Replaces(p, s, candidate, FindByHash(p, s.blocks, candidate[0].header.prevBlock).value, now)
  {
    hide Params.WellFormed, Good, AddAll, Linked, PrefixState;
    GoodTip(p, s);
    GenesisIsGood(p);
    SwitchReplacesTheTail(p, s, candidate, now);
    var fork := FindByHash(p, s.blocks, candidate[0].header.prevBlock).value;
    var kept := s.blocks[1..fork + 1];
    AddAllAppend(p, Genesis(p), kept, candidate, now, true);
    EnforcedIsStorable(p, Genesis(p), kept, now);
    var u := AddAll(p, Genesis(p), kept, now, true).value;
    StorableMeansOpen(p, u, candidate, now, true);
    EnforcedIsStorable(p, u, candidate, now);
    KeptBlocksRebuild(p, s, fork + 1, now);
  }

  /**
   A kept block can stop a switch that would otherwise be made. On every chain and for each of its blocks
   there is a clock reading, the one that puts the limit exactly on the time of the block before, at which
   no branch that keeps this block is switched to, however good it is.
   */
  lemma KeptBlockStopsTheSwitch(p: Params, s: State, i: nat, candidate: seq<MsgBlock>, fork: nat)
    requires p.WellFormed() && Good(p, s) && p.maxFutureBlockTime > 0
    requires 1 <= i <= fork < |s.blocks| && candidate != []
    requires FindByHash(p, s.blocks, candidate[0].header.prevBlock) == Some(fork)
    ensures
      var now := s.blocks[i - 1].header.timestamp * SECOND - p.maxFutureBlockTime;
      && !Reorganized(p, s, candidate, now).Switched?
      && (Replaces(p, s, candidate, fork, now) ==>
           Reorganized(p, s, candidate, now) == Failed(Refused(TimestampTooFar)))
  {
    hide Params.WellFormed, Good, AddAll, Linked, Reorganized, Replaces;
    GoodTip(p, s);
    LinkedAt(p, s.blocks, i);
    var now := s.blocks[i - 1].header.timestamp * SECOND - p.maxFutureBlockTime;
    var all := s.blocks[..fork + 1] + candidate;
    assert all[i] == s.blocks[i] && all[i - 1] == s.blocks[i - 1];
    assert !NotTooFar(p, all, i, now);
    SwitchesExactlyWhen(p, s, candidate, now);
    if Replaces(p, s, candidate, fork, now) {
      ReplacingBranchWins(p, s, candidate, fork, now);
    }
  }

  // ---- runs ----

  datatype Step =
    | Add(block: MsgBlock, now: int)
    | AddStored(block: MsgBlock, now: int)
    | Reorganize(candidate: seq<MsgBlock>, now: int)

  /** A step that is refused, or declined, changes nothing. */
  function Next(p: Params, s: State, step: Step): (t: State)
    requires p.WellFormed() && Good(p, s)
    ensures Good(p, t)
  {
    GoodTip(p, s);
    match step
    case Add(block, now) =>
      AddKeepsGood(p, s, block, now, true);
      (match Ledger.AddBlock(p, s, block, now, true) case Err(_) => s case Ok(t) => t)
    case AddStored(block, now) =>
      AddKeepsGood(p, s, block, now, false);
      (match Ledger.AddBlock(p, s, block, now, false) case Err(_) => s case Ok(t) => t)
    case Reorganize(candidate, now) =>
      (match Reorganized(p, s, candidate, now) case Declined => s case Failed(_) => s case Switched(t) => t)
  }

  function After(p: Params, steps: seq<Step>): (s: State)
    requires p.WellFormed()
    ensures Good(p, s)
  {
    if steps == [] then GenesisIsGood(p); Genesis(p)
    else Next(p, After(p, steps[..|steps| - 1]), steps[|steps| - 1])
  }

  /** A step either leaves the whole state alone or makes the chain strictly longer. */
  lemma StepGrowsOrKeeps(p: Params, s: State, step: Step)
    requires p.WellFormed() && Good(p, s)
    ensures Next(p, s, step) == s || |Next(p, s, step).blocks| > |s.blocks|
  {
    GoodTip(p, s);
    hide Params.WellFormed, Good, ValidateBlock, Reorganized;
    if step.Reorganize? {
      if Reorganized(p, s, step.candidate, step.now).Switched? {
        SwitchReplacesTheTail(p, s, step.candidate, step.now);
      }
    }
  }

  /** Over any run the tip never gets lower. */
  lemma {:induction false} TipNeverDrops(p: Params, steps: seq<Step>, n: nat)
    requires p.WellFormed() && n <= |steps|
    ensures |After(p, steps[..n]).blocks| <= |After(p, steps).blocks|
    decreases |steps|
  {
    hide Params.WellFormed, Good, Next;
    if n < |steps| {
      var front := steps[..|steps| - 1];
      TipNeverDrops(p, front, n);
      assert front[..n] == steps[..n];
      StepGrowsOrKeeps(p, After(p, front), steps[|steps| - 1]);
    } else {
      assert steps[..n] == steps;
    }
  }

  /** Two runs that end with the same blocks end with the same ledger, whatever detours they took. */
  lemma RunsAgree(p: Params, a: seq<Step>, b: seq<Step>)
    requires p.WellFormed()
    requires After(p, a).blocks == After(p, b).blocks
    ensures After(p, a) == After(p, b)
  {
    hide Params.WellFormed, Good, After;
    PathIndependence(p, After(p, a), After(p, b));
  }

  /** After any run the ledger holds at most the subsidies paid, and exactly those unless outpoints were re-created. */
  lemma RunsConserveValue(p: Params, steps: seq<Step>)
    requires p.WellFormed()
    ensures Conservation.Sum(After(p, steps).utxos) <= Conservation.TotalSubsidy(p, After(p, steps).blocks)
    ensures Replay(p, After(p, steps).blocks).Some?
    ensures Conservation.Sum(After(p, steps).utxos) == Conservation.TotalSubsidy(p, After(p, steps).blocks)
      <==> Conservation.NeverRecreates(p, After(p, steps).blocks)
    ensures Conservation.TotalSubsidy(p, After(p, steps).blocks) <= Subsidy.TotalIssue(p)
  {
    var s := After(p, steps);
    assert Good(p, s);
    Conservation.ValueIsConserved(p, s);
    Subsidy.SupplyBound(p, |s.blocks| - 1);
    hide *;
  }
}
