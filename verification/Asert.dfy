/** The ASERT difficulty rule of `internal/consensus/asert.go`. */
module Asert {
  import opened Ints
  import opened Arith
  import opened ChainCfg
  import opened Compact

  const RADIX := 0x1_0000
  const TWO_47 := 0x8000_0000_0000
  const TWO_48 := 0x1_0000_0000_0000

  /** 2 to the power `k`. */
  function Two(k: nat): (r: nat)
    ensures r > 0
  {
    PowPositive(2, k);
    Pow(2, k)
  }

  /** The cubic that stands for 2^(frac/65536), scaled by 65536. */
  function AsertFactor(frac: nat): nat {
    (195_766_423_245_049 * frac + 971_821_376 * Pow(frac, 2) + 5_127 * Pow(frac, 3) + TWO_47) / TWO_48 + RADIX
  }

  lemma {:induction false} PowOrder(x: nat, y: nat, k: nat)
    requires x <= y
    ensures Pow(x, k) <= Pow(y, k)
  {
    if k > 0 {
      PowOrder(x, y, k - 1);
      MulLeBoth(x, y, Pow(x, k - 1), Pow(y, k - 1));
    }
  }

  lemma FactorMonotone(x: nat, y: nat)
    requires x <= y
    ensures AsertFactor(x) <= AsertFactor(y)
  {
    PowOrder(x, y, 2);
    PowOrder(x, y, 3);
    hide Pow;
    DivMonotone(195_766_423_245_049 * x + 971_821_376 * Pow(x, 2) + 5_127 * Pow(x, 3) + TWO_47,
                195_766_423_245_049 * y + 971_821_376 * Pow(y, 2) + 5_127 * Pow(y, 3) + TWO_47, TWO_48);
  }

  /** Within one period the factor runs from 1 to just under 2. */
  lemma FactorRange(frac: nat)
    requires frac < RADIX
    ensures RADIX <= AsertFactor(frac) <= 2 * RADIX - 1
    ensures AsertFactor(0) == RADIX && AsertFactor(65_535) == 2 * RADIX - 1
  {
    FactorMonotone(0, frac);
    FactorMonotone(frac, 65_535);
    assert Pow(65_535, 2) == 4_294_836_225 && Pow(65_535, 3) == 65_535 * 4_294_836_225;
    assert Pow(0, 2) == 0 && Pow(0, 3) == 0;
    hide Pow;
  }

  /** Whole periods and the remaining fraction, as the code gets them from truncating divisions. */
  function ShiftsAndFrac(exponent: int): (r: (int, int))
  {
    var shifts := TruncDiv(exponent, RADIX);
    var frac := exponent - shifts * RADIX;
    if frac < 0 then (shifts - 1, frac + RADIX) else (shifts, frac)
  }

  lemma FloorDivision(exponent: int)
    ensures
      var (shifts, frac) := ShiftsAndFrac(exponent);
      0 <= frac < RADIX && exponent == shifts * RADIX + frac
  {
  }

  function Shifted(next: int, shifts: int): int {
    if shifts < 0 then next / Two(-shifts) else next * Two(shifts)
  }

  function ScaledTarget(anchorTarget: int, exponent: int): int {
    var (shifts, frac) := ShiftsAndFrac(exponent);
    FloorDivision(exponent);
    Shifted(anchorTarget * AsertFactor(frac) / RADIX, shifts)
  }

  /**
   How far the chain is from its schedule, in 1/65536 of a half-life. Every intermediate value has its
   64-bit type, so for 32-bit times and heights no step overflows.
   */
  function Exponent(p: Params, anchorTime: uint32, prevTime: uint32, nextHeight: uint32): int64
    requires p.DifficultyInRange() && nextHeight >= 1
    requires TruncDiv(p.targetTimePerBlock, SECOND) > 0 && TruncDiv(p.asertHalfLife, SECOND) > 0
  {
    var targetSpacing: int64 := TruncDiv(p.targetTimePerBlock, SECOND);
    var halfLife: int64 := TruncDiv(p.asertHalfLife, SECOND);
    var timeDiff: int64 := prevTime - anchorTime;
    var heightDiff: int64 := nextHeight - 1;
    MulLeBoth(0, heightDiff, 0, targetSpacing);
    MulLeBoth(heightDiff, 0xffff_fffe, targetSpacing, 16_383);
    var idealTime: int64 := heightDiff * targetSpacing;
    var offset: int64 := timeDiff - idealTime;
    var scaled: int64 := offset * RADIX;
    TruncFits(scaled, halfLife);
    TruncDiv(scaled, halfLife)
  }

  /** In unbounded arithmetic the same: the scaled distance from the ideal time, in half-lives. */
  lemma ExponentDoesNotOverflow(p: Params, anchorTime: uint32, prevTime: uint32, nextHeight: uint32)
    requires p.DifficultyInRange() && nextHeight >= 1
    requires TruncDiv(p.targetTimePerBlock, SECOND) > 0 && TruncDiv(p.asertHalfLife, SECOND) > 0
    ensures
      var spacing: int, halfLife: int := TruncDiv(p.targetTimePerBlock, SECOND), TruncDiv(p.asertHalfLife, SECOND);
      var ideal: int := (nextHeight - 1) * spacing;
      var scaled: int := (prevTime - anchorTime - ideal) * RADIX;
      && 0 <= ideal < MAX_INT64
      && -MAX_INT64 <= scaled <= MAX_INT64
      && Exponent(p, anchorTime, prevTime, nextHeight) == TruncDiv(scaled, halfLife)
  {
    var heightDiff: int, spacing: int := nextHeight - 1, TruncDiv(p.targetTimePerBlock, SECOND);
    MulLeBoth(0, heightDiff, 0, spacing);
    MulLeBoth(heightDiff, 0xffff_fffe, spacing, 16_383);
  }

  lemma TruncFits(x: int, n: int)
    requires n > 0
    ensures 0 <= x ==> 0 <= TruncDiv(x, n) <= x
    ensures x < 0 ==> x <= TruncDiv(x, n) <= 0
  {
    if x >= 0 {
      QuotientFits(x, n);
    } else {
      QuotientFits(-x, n);
    }
  }

  lemma TruncMonotone(x: int, y: int, n: int)
    requires x <= y && n > 0
    ensures TruncDiv(x, n) <= TruncDiv(y, n)
  {
    TruncFits(x, n);
    TruncFits(y, n);
    if x >= 0 {
      DivMonotone(x, y, n);
    } else if y < 0 {
      DivMonotone(-y, -x, n);
    }
  }

  function Target(p: Params, anchorTarget: int, anchorTime: uint32, prevTime: uint32, nextHeight: uint32): int
    requires p.DifficultyInRange() && nextHeight >= 1
  {
    if TruncDiv(p.targetTimePerBlock, SECOND) <= 0 || TruncDiv(p.asertHalfLife, SECOND) <= 0 then anchorTarget
    else ScaledTarget(anchorTarget, Exponent(p, anchorTime, prevTime, nextHeight))
  }

  function CalcASERTNextBits(p: Params, anchorBits: uint32, anchorTime: uint32, prevTime: uint32,
        nextHeight: uint32): uint32
    requires p.DifficultyInRange()
  {
    if nextHeight <= 1 then anchorBits
    else
      var target := Target(p, CompactToBig(anchorBits), anchorTime, prevTime, nextHeight);
      if target <= 0 then 1
      else BigToCompact(if target > p.powLimit then p.powLimit else target)
  }

  // ---- the exponential shape ----

  lemma ShiftedMonotone(x: int, y: int, shifts: int)
    requires x <= y
    ensures Shifted(x, shifts) <= Shifted(y, shifts)
  {
    if shifts < 0 {
      DivMonotone(x, y, Two(-shifts));
    } else {
      MulLe(x, y, Two(shifts));
    }
  }

  lemma DoubledIsOneMoreShift(x: int, shifts: int)
    ensures Shifted(2 * x, shifts) == Shifted(x, shifts + 1)
  {
    hide *;
    ShiftedIs(2 * x, shifts);
    ShiftedIs(x, shifts + 1);
    if shifts < 0 {
      var k := -shifts;
      TwoStep(k - 1);
      DivDiv(2 * x, 2, Two(k - 1));
      assert 2 * x / 2 == x;
      if k == 1 {
        TwoZero();
        assert x / 1 == x && x * 1 == x;
      }
    } else {
      TwoStep(shifts);
      MulAssoc(x, 2, Two(shifts));
    }
  }

  lemma ShiftedIs(x: int, shifts: int)
    ensures shifts < 0 ==> Shifted(x, shifts) == x / Two(-shifts)
    ensures shifts >= 0 ==> Shifted(x, shifts) == x * Two(shifts)
  {
  }

  lemma TwoStep(k: nat)
    ensures Two(k + 1) == 2 * Two(k)
  {
  }

  lemma TwoZero()
    ensures Two(0) == 1
  {
  }

  lemma {:induction false} ShiftsGrow(x: int, i: int, j: int)
    requires x >= 0 && i <= j
    ensures Shifted(x, i) <= Shifted(x, j)
    decreases j - i
  {
    hide *;
    if i < j {
      ShiftedMonotone(x, 2 * x, i);
      DoubledIsOneMoreShift(x, i);
      ShiftsGrow(x, i + 1, j);
    }
  }

  lemma FactorOfAnchor(a: int, frac: nat)
    requires a >= 0 && frac < RADIX
    ensures a <= a * AsertFactor(frac) / RADIX <= 2 * a
    ensures frac == 0 ==> a * AsertFactor(frac) / RADIX == a
  {
    FactorRange(frac);
    var f: int := AsertFactor(frac);
    hide *;
    MulLe(RADIX, f, a);
    MulLe(f, 2 * RADIX, a);
    DivMonotone(a * RADIX, a * f, RADIX);
    DivMonotone(a * f, 2 * a * RADIX, RADIX);
    MulDiv(a, RADIX);
    MulDiv(2 * a, RADIX);
  }

  lemma ScaledIs(a: int, exponent: int)
    ensures
      var (shifts, frac) := ShiftsAndFrac(exponent);
      0 <= frac < RADIX && ScaledTarget(a, exponent) == Shifted(a * AsertFactor(frac) / RADIX, shifts)
  {
    FloorDivision(exponent);
  }

  /** A chain further behind its schedule gets a target at least as large. */
  lemma ScaledMonotone(a: int, x: int, y: int)
    requires a >= 0 && x <= y
    ensures ScaledTarget(a, x) <= ScaledTarget(a, y)
  {
    var (s, f) := ShiftsAndFrac(x);
    var (t, g) := ShiftsAndFrac(y);
    FloorDivision(x);
    FloorDivision(y);
    assert s <= t && (s == t ==> f <= g);
    hide *;
    ScaledIs(a, x);
    ScaledIs(a, y);
    var u: int, v: int := a * AsertFactor(f) / RADIX, a * AsertFactor(g) / RADIX;
    if s == t {
      FactorMonotone(f, g);
      MulLe(AsertFactor(f), AsertFactor(g), a);
      DivMonotone(a * AsertFactor(f), a * AsertFactor(g), RADIX);
      ShiftedMonotone(u, v, s);
    } else {
      FactorOfAnchor(a, f);
      FactorOfAnchor(a, g);
      ShiftedMonotone(u, 2 * a, s);
      DoubledIsOneMoreShift(a, s);
      ShiftsGrow(a, s + 1, t);
      ShiftedMonotone(a, v, t);
    }
  }

  lemma ScaledOnSchedule(a: int)
    ensures ScaledTarget(a, 0) == a
  {
    assert ShiftsAndFrac(0) == (0, 0);
    FactorRange(0);
    TwoZero();
    assert a * RADIX / RADIX == a;
  }

  lemma ScaledSign(a: int, x: int)
    requires a <= 0
    ensures ScaledTarget(a, x) <= 0
  {
    var (s, f) := ShiftsAndFrac(x);
    ScaledIs(a, x);
    hide *;
    var factor: int := AsertFactor(f);
    MulLe(a, 0, factor);
    DivMonotone(a * factor, 0, RADIX);
    ShiftedMonotone(a * factor / RADIX, 0, s);
    ShiftedIs(0, s);
    if s < 0 {
      DivIs(0, Two(-s), 0, 0);
    }
  }

  /** The target of the aserti3-2d specification, which shifts once, by `shifts - 16`. */
  function SingleShift(a: int, exponent: int): int {
    var (shifts, frac) := ShiftsAndFrac(exponent);
    FloorDivision(exponent);
    var product := a * AsertFactor(frac);
    if shifts < 0 then product / (RADIX * Two(-shifts)) else product * Two(shifts) / RADIX
  }

  /**
   Shifting right by 16 first gives the same target when the remaining shift is to the right. When it is to
   the left, the low 16 bits are gone before they are moved up, and exactly what they would have become is
   missing.
   */
  lemma AgainstSingleShift(a: int, exponent: int)
    requires a >= 0
    ensures
      var (shifts, frac) := ShiftsAndFrac(exponent);
      && frac >= 0
      && SingleShift(a, exponent) - ScaledTarget(a, exponent) ==
           (if shifts < 0 then 0 else a * AsertFactor(frac) % RADIX * Two(shifts) / RADIX)
      && 0 <= SingleShift(a, exponent) - ScaledTarget(a, exponent) < (if shifts < 0 then 1 else Two(shifts))
  {
    var (s, f) := ShiftsAndFrac(exponent);
    ScaledIs(a, exponent);
    FloorDivision(exponent);
    var product: int := a * AsertFactor(f);
    assert SingleShift(a, exponent) == if s < 0 then product / (RADIX * Two(-s)) else product * Two(s) / RADIX;
    hide *;
    ShiftedIs(product / RADIX, s);
    if s < 0 {
      DivDiv(product, RADIX, Two(-s));
    } else {
      OneShiftOrTwo(product, Two(s));
    }
  }

  lemma OneShiftOrTwo(product: int, two: int)
    requires two > 0
    ensures product * two / RADIX - product / RADIX * two == product % RADIX * two / RADIX
    ensures 0 <= product % RADIX * two / RADIX < two
  {
    var q, low := product / RADIX, product % RADIX;
    assert product == RADIX * q + low && 0 <= low < RADIX;
    MulAdd(two, RADIX * q, low);
    MulAssoc(RADIX, q, two);
    assert product * two == RADIX * (q * two) + low * two;
    MulLe(0, low, two);
    MulLe(low + 1, RADIX, two);
    MulAdd(two, low, 1);
    LowBits(q * two, low * two, two);
  }

  lemma LowBits(high: int, low: int, two: int)
    requires 0 <= low < RADIX * two
    ensures (RADIX * high + low) / RADIX == high + low / RADIX
    ensures 0 <= low / RADIX < two
  {
  }

  /** So code and specification agree exactly when the bits lost early would have been lost anyway. */
  lemma AgreesWithSingleShiftExactlyWhen(a: int, exponent: int)
    requires a >= 0
    ensures
      var (shifts, frac) := ShiftsAndFrac(exponent);
      frac >= 0 &&
      (ScaledTarget(a, exponent) == SingleShift(a, exponent) <==>
        shifts < 0 || a * AsertFactor(frac) % RADIX * Two(shifts) < RADIX)
  {
    AgainstSingleShift(a, exponent);
    var (s, f) := ShiftsAndFrac(exponent);
    var low: int := a * AsertFactor(f) % RADIX;
    hide *;
    if s >= 0 {
      MulLe(0, low, Two(s));
      SmallQuotient(low * Two(s));
    }
  }

  lemma SmallQuotient(x: int)
    requires x >= 0
    ensures x / RADIX == 0 <==> x < RADIX
  {
  }

  /** They do not always: two and a half half-lives behind schedule, an anchor target of 1 gives 4 and not 5. */
  lemma DiffersFromSingleShift()
    ensures ScaledTarget(1, 163_840) == 4 && SingleShift(1, 163_840) == 5
  {
    assert ShiftsAndFrac(163_840) == (2, 32_768);
    assert Pow(32_768, 2) == 1_073_741_824 && Pow(32_768, 3) == 32_768 * 1_073_741_824;
    assert AsertFactor(32_768) == 92_674;
    assert Two(2) == 4;
  }

  /** They do for every anchor whose compact form has an exponent of at least five: its low 16 bits are zero. */
  lemma AgreesForLargeAnchors(bits: uint32, exponent: int)
    requires bits / 0x100_0000 >= 5 && CompactToBig(bits) >= 0
    ensures ScaledTarget(CompactToBig(bits), exponent) == SingleShift(CompactToBig(bits), exponent)
  {
    var a := CompactToBig(bits);
    AgreesWithSingleShiftExactlyWhen(a, exponent);
    var (s, f) := ShiftsAndFrac(exponent);
    var e, m, negative := SplitBits(bits);
    var factor: int, two: int := AsertFactor(f), if s < 0 then 1 else Two(s);
    PAdd(e - 5, 2);
    PSmall();
    assert Magnitude(e, m) == m * P(e - 3);
    var w: int := P(e - 5);
    assert a == m * (w * RADIX) || a == -(m * (w * RADIX));
    hide *;
    MulAssoc(m, w, RADIX);
    MultipleOfRadix(a, if a == m * w * RADIX then m * w else -(m * w), factor);
  }

  lemma MultipleOfRadix(a: int, q: int, factor: int)
    requires a == q * RADIX
    ensures a * factor % RADIX == 0
  {
    assert a * factor == q * factor * RADIX;
    hide *;
    RemainderOfMultiple(q * factor);
  }

  lemma RemainderOfMultiple(x: int)
    ensures x * RADIX % RADIX == 0
  {
  }

  // ---- the rule as a whole ----

  lemma ExponentOrder(p: Params, anchorTime: uint32, t: uint32, h: uint32, t': uint32, h': uint32)
    requires p.DifficultyInRange()
    requires TruncDiv(p.targetTimePerBlock, SECOND) > 0 && TruncDiv(p.asertHalfLife, SECOND) > 0
    requires t <= t' && 1 <= h' <= h
    ensures Exponent(p, anchorTime, t, h) <= Exponent(p, anchorTime, t', h')
  {
    var spacing: int, half: int := TruncDiv(p.targetTimePerBlock, SECOND), TruncDiv(p.asertHalfLife, SECOND);
    MulLe(h' - 1, h - 1, spacing);
    TruncMonotone((t - anchorTime - (h - 1) * spacing) * RADIX, (t' - anchorTime - (h' - 1) * spacing) * RADIX, half);
  }

  lemma TargetOrder(p: Params, a: int, anchorTime: uint32, t: uint32, h: uint32, t': uint32, h': uint32)
    requires p.DifficultyInRange() && a >= 0
    requires t <= t' && 1 <= h' <= h
    ensures Target(p, a, anchorTime, t, h) <= Target(p, a, anchorTime, t', h')
  {
    hide Exponent, ScaledTarget, Params.DifficultyInRange;
    if TruncDiv(p.targetTimePerBlock, SECOND) > 0 && TruncDiv(p.asertHalfLife, SECOND) > 0 {
      ExponentOrder(p, anchorTime, t, h, t', h');
      ScaledMonotone(a, Exponent(p, anchorTime, t, h), Exponent(p, anchorTime, t', h'));
    }
  }

  lemma LimitInRange(p: Params)
    requires p.DifficultyInRange()
    ensures InRange(p.powLimit)
  {
    assert Pow(256, 32) == P(32);
    PMonotone(32, 252);
  }

  lemma NonPositiveAnchor(p: Params, a: int, anchorTime: uint32, t: uint32, h: uint32)
    requires p.DifficultyInRange() && a <= 0 && h >= 1
    ensures Target(p, a, anchorTime, t, h) <= 0
  {
    hide ScaledTarget;
    if TruncDiv(p.targetTimePerBlock, SECOND) > 0 && TruncDiv(p.asertHalfLife, SECOND) > 0 {
      ScaledSign(a, Exponent(p, anchorTime, t, h));
    }
  }

  lemma BitsOfTarget(p: Params, anchorBits: uint32, anchorTime: uint32, t: uint32, h: uint32)
    requires p.DifficultyInRange() && h > 1
    ensures
      var target := Target(p, CompactToBig(anchorBits), anchorTime, t, h);
      var bits := CalcASERTNextBits(p, anchorBits, anchorTime, t, h);
      && (target <= 0 ==> bits == 1 && CompactToBig(bits) == 0)
      && (target > 0 ==> bits == BigToCompact(Capped(p, target)))
      && (target > 0 ==> 0 < CompactToBig(bits) <= Capped(p, target))
  {
    hide Target, BigToCompact, P;
    var target := Target(p, CompactToBig(anchorBits), anchorTime, t, h);
    if target > 0 {
      LimitInRange(p);
      EncodingRoundsDown(Capped(p, target));
    } else {
      BitsOneIsZero();
    }
  }

  lemma BitsOneIsZero()
    ensures CompactToBig(1) == 0
  {
    PSmall();
  }

  function Capped(p: Params, target: int): int {
    if target > p.powLimit then p.powLimit else target
  }

  /** A later previous block, or a lower height, never makes the next target smaller. */
  lemma NextTargetOrder(p: Params, anchorBits: uint32, anchorTime: uint32, t: uint32, h: uint32, t': uint32, h': uint32)
    requires p.DifficultyInRange()
    requires t <= t' && 1 < h' <= h
    ensures CompactToBig(CalcASERTNextBits(p, anchorBits, anchorTime, t, h))
         <= CompactToBig(CalcASERTNextBits(p, anchorBits, anchorTime, t', h'))
  {
    BitsOfTarget(p, anchorBits, anchorTime, t, h);
    BitsOfTarget(p, anchorBits, anchorTime, t', h');
    hide CalcASERTNextBits, Target, CompactToBig, BigToCompact, P, Params.DifficultyInRange;
    var a := CompactToBig(anchorBits);
    if a <= 0 {
      NonPositiveAnchor(p, a, anchorTime, t, h);
      NonPositiveAnchor(p, a, anchorTime, t', h');
    } else {
      TargetOrder(p, a, anchorTime, t, h, t', h');
      LimitInRange(p);
      var target, target' := Target(p, a, anchorTime, t, h), Target(p, a, anchorTime, t', h');
      if target > 0 {
        EncodingMonotone(Capped(p, target), Capped(p, target'));
      }
    }
  }

  /** Above height 1 the target never exceeds the limit, and it is zero only when the exact target is. */
  lemma NextTargetRange(p: Params, anchorBits: uint32, anchorTime: uint32, t: uint32, h: uint32)
    requires p.DifficultyInRange() && h > 1
    ensures 0 <= CompactToBig(CalcASERTNextBits(p, anchorBits, anchorTime, t, h)) <= p.powLimit
    ensures CompactToBig(CalcASERTNextBits(p, anchorBits, anchorTime, t, h)) == 0
      <==> Target(p, CompactToBig(anchorBits), anchorTime, t, h) <= 0
  {
    hide CalcASERTNextBits, Target, CompactToBig, BigToCompact;
    BitsOfTarget(p, anchorBits, anchorTime, t, h);
  }

  /** Exactly on schedule the next target is the anchor's. */
  lemma NextTargetOnSchedule(p: Params, anchorBits: uint32, anchorTime: uint32, t: uint32, h: uint32)
    requires p.DifficultyInRange() && h > 1
    requires 0 < CompactToBig(anchorBits) <= p.powLimit
    requires t - anchorTime == (h - 1) * TruncDiv(p.targetTimePerBlock, SECOND)
    ensures CompactToBig(CalcASERTNextBits(p, anchorBits, anchorTime, t, h)) == CompactToBig(anchorBits)
  {
    var a := CompactToBig(anchorBits);
    BitsOfTarget(p, anchorBits, anchorTime, t, h);
    hide CalcASERTNextBits, CompactToBig, BigToCompact, ScaledTarget;
    if TruncDiv(p.targetTimePerBlock, SECOND) > 0 && TruncDiv(p.asertHalfLife, SECOND) > 0 {
      assert TruncDiv(0, TruncDiv(p.asertHalfLife, SECOND)) == 0;
      assert Exponent(p, anchorTime, t, h) == 0;
      ScaledOnSchedule(a);
    }
    DecodedIsExact(anchorBits);
  }
}
