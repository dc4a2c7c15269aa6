/** The timestamp rules of `internal/consensus/time.go`, with the clock reading as a parameter. */
module BlockTime {
  import opened ChainCfg

  const FUTURE_CATCH_UP_STEP := SECOND

  /** The latest admissible time of a block, in nanoseconds. */
  function MaxAllowedBlockTime(p: Params, prevTimestamp: int, now: int): int {
    if p.maxFutureBlockTime <= 0 then
      prevTimestamp * SECOND + p.targetTimePerBlock
    else
      var maxTime := now + p.maxFutureBlockTime;
      if prevTimestamp * SECOND > maxTime then prevTimestamp * SECOND + FUTURE_CATCH_UP_STEP else maxTime
  }

  predicate TimestampIncreases(prevTimestamp: int, timestamp: int) {
    timestamp * SECOND > prevTimestamp * SECOND
  }

  predicate TimestampNotTooFar(p: Params, prevTimestamp: int, timestamp: int, now: int) {
    timestamp * SECOND <= MaxAllowedBlockTime(p, prevTimestamp, now)
  }

  predicate CheckBlockTimestamp(p: Params, prevTimestamp: int, timestamp: int, now: int) {
    TimestampIncreases(prevTimestamp, timestamp) && TimestampNotTooFar(p, prevTimestamp, timestamp, now)
  }

  predicate MiningOpen(p: Params, now: int) {
    p.miningStartTime == 0 || now >= p.miningStartTime * SECOND
  }

  /**
   Some whole second passes the timestamp check, except when the future limit falls within the one
   second after the previous block's time.
   */
  lemma SomeTimestampPasses(p: Params, prevTimestamp: int, now: int)
    ensures (exists t :: CheckBlockTimestamp(p, prevTimestamp, t, now)) <==>
      if p.maxFutureBlockTime <= 0 then p.targetTimePerBlock >= SECOND
      else !(prevTimestamp * SECOND <= now + p.maxFutureBlockTime < (prevTimestamp + 1) * SECOND)
  {
    if p.maxFutureBlockTime <= 0 && p.targetTimePerBlock >= SECOND {
      assert CheckBlockTimestamp(p, prevTimestamp, prevTimestamp + 1, now);
    }
    if p.maxFutureBlockTime > 0 &&
      !(prevTimestamp * SECOND <= now + p.maxFutureBlockTime < (prevTimestamp + 1) * SECOND) {
      assert CheckBlockTimestamp(p, prevTimestamp, prevTimestamp + 1, now);
    }
  }

  /** A timestamp that passes may fail half a second later: the check is not monotone in the clock. */
  lemma TimestampRuleNotMonotone(p: Params)
    requires p.maxFutureBlockTime == 7200 * SECOND
    ensures CheckBlockTimestamp(p, 10_000, 10_001, 2799 * SECOND + SECOND / 2)
    ensures !CheckBlockTimestamp(p, 10_000, 10_001, 2800 * SECOND)
  {
  }
}
