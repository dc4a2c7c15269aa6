/** The subsidy schedule of `internal/consensus/subsidy.go` and the supply that it adds up to. */
module Subsidy {
  import opened Ints
  import opened Arith
  import opened ChainCfg

  lemma ReducedShrinks(mul: nat, div: nat, s: nat)
    requires mul < div
    ensures s * mul / div >= 0
    ensures s > 0 ==> s * mul / div < s
    ensures div * (s * mul / div) <= mul * s
  {
    var q := s * mul / div;
    DivBounds(s * mul, div);
    MulLe(mul + 1, div, s);
    if s > 0 && q >= s {
      MulLe(s, q, div);
    }
  }

  function Reduced(p: Params, subsidy: nat): (r: nat)
    requires p.SubsidyShrinks()
    ensures subsidy > 0 ==> r < subsidy
  {
    ReducedShrinks(p.mulSubsidy, p.divSubsidy, subsidy);
    subsidy * p.mulSubsidy / p.divSubsidy
  }

  function SubsidyAfter(p: Params, reductions: nat): (s: nat)
    requires p.SubsidyShrinks()
    ensures s <= p.baseSubsidy
  {
    if reductions == 0 then p.baseSubsidy else Reduced(p, SubsidyAfter(p, reductions - 1))
  }

  function BlockSubsidy(p: Params, height: int): (s: nat)
    requires p.SubsidyShrinks()
    ensures s <= p.baseSubsidy
  {
    if height <= 0 then 0
    else
      QuotientFits(height, p.reductionInterval);
      SubsidyAfter(p, height / p.reductionInterval)
  }

  lemma ReducedZero(p: Params)
    requires p.SubsidyShrinks()
    ensures Reduced(p, 0) == 0
  {
  }

  lemma {:induction false} ZeroStaysZero(p: Params, i: nat, j: nat)
    requires p.SubsidyShrinks()
    requires i <= j && SubsidyAfter(p, i) == 0
    ensures SubsidyAfter(p, j) == 0
  {
    hide Reduced, Params.SubsidyShrinks;
    if i < j {
      ZeroStaysZero(p, i, j - 1);
      ReducedZero(p);
    }
  }

  lemma ProductsFit(p: Params, s: nat)
    requires p.SubsidyShrinks() && s <= p.baseSubsidy
    ensures s * p.mulSubsidy <= MAX_INT64
    ensures s * p.minerRewardPercent <= MAX_INT64
    ensures 0 <= s * p.minerRewardPercent / 100 <= s
  {
    assert p.baseSubsidy * p.mulSubsidy <= MAX_INT64 && p.baseSubsidy * p.minerRewardPercent <= MAX_INT64
      && 0 <= p.minerRewardPercent <= 100 && 0 <= p.mulSubsidy;
    hide *;
    MulLe(s, p.baseSubsidy, p.mulSubsidy);
    MulLe(s, p.baseSubsidy, p.minerRewardPercent);
    MulLe(0, p.minerRewardPercent, s);
    MulLe(p.minerRewardPercent, 100, s);
  }

  lemma ShrinkFacts(p: Params)
    requires p.SubsidyShrinks()
    ensures 0 <= p.baseSubsidy && 0 <= p.mulSubsidy < p.divSubsidy && 1 <= p.reductionInterval
  {
  }

  method CalcBlockSubsidy(p: Params, height: int64) returns (subsidy: int64)
    requires p.SubsidyShrinks()
    ensures subsidy == BlockSubsidy(p, height)
  {
    ShrinkFacts(p);
    hide Params.SubsidyShrinks, Reduced;
    if height <= 0 {
      return 0;
    }
    subsidy := p.baseSubsidy;
    QuotientFits(height, p.reductionInterval);
    var reductions: int64 := height / p.reductionInterval;
    var i: int64 := 0;
    while i < reductions && subsidy > 0
      invariant 0 <= i <= reductions
      invariant subsidy == SubsidyAfter(p, i)
    {
      ProductsFit(p, subsidy);
      ReducedIs(p, subsidy);
      subsidy := subsidy * p.mulSubsidy;
      subsidy := subsidy / p.divSubsidy;
      i := i + 1;
    }
    if i < reductions {
      ZeroStaysZero(p, i, reductions);
    }
  }

  lemma ReducedIs(p: Params, s: nat)
    requires p.SubsidyShrinks()
    ensures Reduced(p, s) == s * p.mulSubsidy / p.divSubsidy
    ensures p.divSubsidy * Reduced(p, s) <= p.mulSubsidy * s
  {
    ReducedShrinks(p.mulSubsidy, p.divSubsidy, s);
  }

  /** The miner and the project share; fees come on top of the first. */
  function OneTimeSplit(p: Params, height: int): (r: (int64, int64))
    requires p.SubsidyShrinks()
    ensures r.0 >= 0 && r.1 >= 0
    ensures r.0 + r.1 == BlockSubsidy(p, height)
  {
    var subsidy := BlockSubsidy(p, height);
    ProductsFit(p, subsidy);
    var miner := subsidy * p.minerRewardPercent / 100;
    (miner, subsidy - miner)
  }

  // ---- supply ----

  /** Sum of the subsidies of blocks 1 to `height`. */
  function SupplyTo(p: Params, height: nat): nat
    requires p.SubsidyShrinks()
  {
    if height == 0 then 0 else SupplyTo(p, height - 1) + BlockSubsidy(p, height)
  }

  /** Sum of the subsidies of the first `epochs` reduction intervals, one block from each. */
  function EpochSum(p: Params, epochs: nat): nat
    requires p.SubsidyShrinks()
  {
    if epochs == 0 then 0 else EpochSum(p, epochs - 1) + SubsidyAfter(p, epochs - 1)
  }

  /** How many reductions it takes until the subsidy is zero; the subsidy itself is the measure. */
  function ReductionsUntilZero(p: Params, subsidy: nat): nat
    requires p.SubsidyShrinks()
    decreases subsidy
  {
    if subsidy == 0 then 0 else 1 + ReductionsUntilZero(p, Reduced(p, subsidy))
  }

  function PaidEpochs(p: Params): nat
    requires p.SubsidyShrinks()
  {
    ReductionsUntilZero(p, p.baseSubsidy)
  }

  lemma {:induction false} RemainingEpochs(p: Params, k: nat)
    requires p.SubsidyShrinks()
    ensures k <= PaidEpochs(p) ==> k + ReductionsUntilZero(p, SubsidyAfter(p, k)) == PaidEpochs(p)
    ensures SubsidyAfter(p, k) > 0 <==> k < PaidEpochs(p)
  {
    hide Reduced, Params.SubsidyShrinks;
    if k > 0 {
      RemainingEpochs(p, k - 1);
      if k > PaidEpochs(p) {
        ZeroStaysZero(p, k - 1, k);
      }
    }
  }

  /** The whole issue: every block of every paid interval, less the genesis block, which pays nothing. */
  function TotalIssue(p: Params): int
    requires p.SubsidyShrinks()
  {
    p.reductionInterval * EpochSum(p, PaidEpochs(p)) - p.baseSubsidy
  }

  lemma SupplyStep(p: Params, h: nat, q: nat, r: nat)
    requires p.SubsidyShrinks()
    requires h > 0 && r < p.reductionInterval && h == p.reductionInterval * q + r
    ensures SupplyTo(p, h) == SupplyTo(p, h - 1) + SubsidyAfter(p, q)
  {
    DivIs(h, p.reductionInterval, q, r);
    hide Params.SubsidyShrinks, SubsidyAfter;
  }

  /** The supply at the block `r` places into interval `q`, interval by interval. */
  lemma {:induction false} SupplyClosedForm(p: Params, h: nat, q: nat, r: nat)
    requires p.SubsidyShrinks()
    requires r < p.reductionInterval && h == p.reductionInterval * q + r
    ensures SupplyTo(p, h) == p.reductionInterval * EpochSum(p, q) - p.baseSubsidy + (r + 1) * SubsidyAfter(p, q)
    decreases h
  {
    hide Reduced, Params.SubsidyShrinks;
    var n: int := p.reductionInterval;
    if h == 0 {
      assert q == 0 && r == 0 by {
        if q > 0 { MulLe(1, q, n); }
      }
    } else {
      SupplyStep(p, h, q, r);
      var s: int := SubsidyAfter(p, q);
      if r > 0 {
        SupplyClosedForm(p, h - 1, q, r - 1);
        hide *;
        MulAdd(s, r, 1);
      } else {
        assert q > 0;
        MulAdd(n, q - 1, 1);
        SupplyClosedForm(p, h - 1, q - 1, n - 1);
        var sum: int, t: int := EpochSum(p, q - 1), SubsidyAfter(p, q - 1);
        assert EpochSum(p, q) == sum + t;
        hide *;
        MulAdd(n, sum, t);
      }
    }
  }

  lemma {:induction false} EpochSumAfterZero(p: Params, k: nat, j: nat)
    requires p.SubsidyShrinks() && PaidEpochs(p) <= k <= j
    ensures EpochSum(p, j) == EpochSum(p, k)
  {
    hide SubsidyAfter, Params.SubsidyShrinks;
    if k < j {
      EpochSumAfterZero(p, k, j - 1);
      RemainingEpochs(p, j - 1);
    }
  }

  lemma {:induction false} EpochSumGrows(p: Params, k: nat, j: nat)
    requires p.SubsidyShrinks() && k <= j
    ensures EpochSum(p, k) <= EpochSum(p, j)
  {
    hide SubsidyAfter, Params.SubsidyShrinks;
    if k < j {
      EpochSumGrows(p, k, j - 1);
    }
  }

  /** While the subsidy is positive, the next epoch's blocks are still missing from the issue. */
  lemma EpochsLeft(p: Params, q: nat)
    requires p.SubsidyShrinks() && q < PaidEpochs(p)
    ensures EpochSum(p, q) + SubsidyAfter(p, q) <= EpochSum(p, PaidEpochs(p))
    ensures EpochSum(p, q) + SubsidyAfter(p, q) == EpochSum(p, PaidEpochs(p)) <==> q + 1 == PaidEpochs(p)
  {
    hide SubsidyAfter, PaidEpochs, Params.SubsidyShrinks;
    EpochSumGrows(p, q + 1, PaidEpochs(p));
    if q + 1 < PaidEpochs(p) {
      RemainingEpochs(p, q + 1);
      EpochSumGrows(p, q + 2, PaidEpochs(p));
    }
  }

  /** The supply never exceeds the issue, and equals it exactly from the last paid block on. */
  lemma SupplyBound(p: Params, height: nat)
    requires p.SubsidyShrinks()
    ensures SupplyTo(p, height) <= TotalIssue(p)
    ensures SupplyTo(p, height) == TotalIssue(p) <==> height >= p.reductionInterval * PaidEpochs(p) - 1
  {
    ShrinkFacts(p);
    var n: int, k: int, e: int := p.reductionInterval, PaidEpochs(p), EpochSum(p, PaidEpochs(p));
    QuotientFits(height, n);
    DivBounds(height, n);
    var q: int := height / n;
    var r: int := height - n * q;
    var s: int, sum: int := SubsidyAfter(p, q), EpochSum(p, q);
    assert TotalIssue(p) == n * e - p.baseSubsidy;
    hide *;
    SupplyClosedForm(p, height, q, r);
    RemainingEpochs(p, q);
    if q >= k {
      EpochSumAfterZero(p, k, q);
    } else {
      EpochsLeft(p, q);
    }
    SupplyArithmetic(n, q, r, k, s, sum, e);
  }

  lemma SupplyArithmetic(n: int, q: int, r: int, k: int, s: int, sum: int, e: int)
    requires 0 <= r < n && 0 <= s && 0 <= sum && 0 <= q && 0 <= k
    requires q >= k ==> s == 0 && sum == e
    requires q < k ==> s > 0 && sum + s <= e && (sum + s == e <==> q + 1 == k)
    ensures n * sum + (r + 1) * s <= n * e
    ensures n * sum + (r + 1) * s == n * e <==> n * q + r >= n * k - 1
  {
    if q >= k {
      MulLe(k, q, n);
    } else {
      MulAdd(n, sum, s);
      MulLe(sum + s, e, n);
      MulLe(r + 1, n, s);
      MulAdd(n, q, 1);
      if q + 1 < k {
        MulLe(q + 2, k, n);
        MulAdd(n, q, 2);
        MulLe(sum + s + 1, e, n);
        MulAdd(n, sum + s, 1);
      } else if r + 1 < n {
        MulLe(r + 2, n, s);
        MulAdd(s, r + 1, 1);
      }
    }
  }

  lemma {:induction false} EpochSumTelescopes(p: Params, k: nat)
    requires p.SubsidyShrinks()
    ensures (p.divSubsidy - p.mulSubsidy) * EpochSum(p, k) <= p.divSubsidy * (p.baseSubsidy - SubsidyAfter(p, k))
  {
    hide Reduced, Params.SubsidyShrinks;
    if k > 0 {
      EpochSumTelescopes(p, k - 1);
      var s: int, t: int := SubsidyAfter(p, k - 1), SubsidyAfter(p, k);
      assert t == Reduced(p, s);
      ReducedIs(p, s);
      assert EpochSum(p, k) == EpochSum(p, k - 1) + s;
      TelescopeStep(p.mulSubsidy, p.divSubsidy, p.baseSubsidy, s, t, EpochSum(p, k - 1));
    }
  }

  lemma TelescopeStep(m: int, d: int, b: int, s: int, t: int, sum: int)
    requires d * t <= m * s
    requires (d - m) * sum <= d * (b - s)
    ensures (d - m) * (sum + s) <= d * (b - t)
  {
    MulAdd(d - m, sum, s);
    MulAdd(s, d, m);
    MulAdd(d, b, t);
    MulAdd(d, b, s);
  }

  /** Closed-form bound; with 100/101 and interval 12288 it reads issue <= 101 * 12288 * base - base. */
  lemma IssueBound(p: Params)
    requires p.SubsidyShrinks()
    ensures (p.divSubsidy - p.mulSubsidy) * (TotalIssue(p) + p.baseSubsidy)
         <= p.reductionInterval * p.divSubsidy * p.baseSubsidy
    ensures 0 <= TotalIssue(p) <= MAX_INT64 - p.baseSubsidy
  {
    ShrinkFacts(p);
    EpochSumTelescopes(p, PaidEpochs(p));
    var n: int, d: int, m: int, b: int := p.reductionInterval, p.divSubsidy, p.mulSubsidy, p.baseSubsidy;
    var e: int := EpochSum(p, PaidEpochs(p));
    assert TotalIssue(p) == n * e - b && n * d * b <= MAX_INT64;
    SupplyBound(p, 0);
    hide *;
    var left: int := SubsidyAfter(p, PaidEpochs(p));
    MulLe(b - left, b, d);
    MulLe((d - m) * e, d * b, n);
    MulAssoc(d - m, n, e);
    MulAssoc(n, d, b);
    MulLe(0, e, n);
    MulLe(1, d - m, n * e);
  }

  /** The estimate terminates because the subsidy shrinks, never meets its overflow exit, and is the issue. */
  method EstimateTotalSubsidy(p: Params) returns (total: int64)
    requires p.SubsidyShrinks()
    ensures total == TotalIssue(p)
  {
    IssueBound(p);
    ShrinkFacts(p);
    total := 0;
    var subsidy: int64 := p.baseSubsidy;
    var blocksAtSubsidy: int64 := p.reductionInterval - 1;
    ghost var k: nat := 0;
    ghost var n: int := p.reductionInterval;
    hide Params.SubsidyShrinks, Reduced;
    while subsidy > 0
      invariant k <= PaidEpochs(p) && subsidy == SubsidyAfter(p, k)
      invariant blocksAtSubsidy == if k == 0 then n - 1 else n
      invariant total == if k == 0 then 0 else n * EpochSum(p, k) - p.baseSubsidy
      decreases subsidy
    {
      RemainingEpochs(p, k);
      EstimateStep(p, k);
      var add: int64 := subsidy * blocksAtSubsidy;
      if total > MAX_INT64 - add {
        assert false;
        return total;
      }
      total := total + add;
      ProductsFit(p, subsidy);
      ReducedIs(p, subsidy);
      subsidy := subsidy * p.mulSubsidy;
      subsidy := subsidy / p.divSubsidy;
      blocksAtSubsidy := p.reductionInterval;
      k := k + 1;
    }
    RemainingEpochs(p, k);
  }

  lemma EstimateStep(p: Params, k: nat)
    requires p.SubsidyShrinks() && k < PaidEpochs(p)
    ensures
      var n, s := p.reductionInterval, SubsidyAfter(p, k);
      && n * EpochSum(p, k + 1) == n * EpochSum(p, k) + s * n
      && n * EpochSum(p, k + 1) - p.baseSubsidy <= TotalIssue(p)
      && s * (n - 1) == s * n - s
      && 0 <= s * (n - 1) <= s * n
      && (k == 0 ==> n * EpochSum(p, k + 1) - p.baseSubsidy == s * (n - 1))
      && (k > 0 ==> n * EpochSum(p, k) - p.baseSubsidy >= 0)
  {
    ShrinkFacts(p);
    EpochsLeft(p, k);
    assert EpochSum(p, k + 1) == EpochSum(p, k) + SubsidyAfter(p, k);
    assert k == 0 ==> EpochSum(p, k) == 0 && SubsidyAfter(p, k) == p.baseSubsidy;
    var n: int, s: int, b: int := p.reductionInterval, SubsidyAfter(p, k), p.baseSubsidy;
    var sum: int, e: int := EpochSum(p, k), EpochSum(p, PaidEpochs(p));
    assert TotalIssue(p) == n * e - b;
    assert EpochSum(p, 1) == b;
    hide *;
    MulAdd(n, sum, s);
    MulLe(sum + s, e, n);
    MulAdd(s, n, 1);
    MulLe(0, n - 1, s);
    if k > 0 {
      EpochSumGrows(p, 1, k);
      MulLe(b, sum, n);
      MulLe(1, n, b);
    }
  }
}
