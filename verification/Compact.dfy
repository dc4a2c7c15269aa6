/** The compact form of proof-of-work targets, `internal/consensus/pow.go`. */
module Compact {
  import opened Ints
  import opened Arith

  /** 256 to the power `k`. */
  function P(k: nat): (r: nat)
    ensures r > 0
  {
    PowPositive(256, k);
    Pow(256, k)
  }

  lemma PStep(k: nat)
    ensures P(k + 1) == 256 * P(k)
  {
  }

  lemma PAdd(i: nat, j: nat)
    ensures P(i + j) == P(i) * P(j)
  {
    PowAdd(256, i, j);
  }

  lemma PMonotone(i: nat, j: nat)
    requires i <= j
    ensures P(i) <= P(j)
  {
    PowMonotone(256, i, j);
  }

  lemma PSmall()
    ensures P(0) == 1 && P(1) == 0x100 && P(2) == 0x1_0000 && P(3) == 0x100_0000
  {
    PStep(0);
    PStep(1);
    PStep(2);
  }

  /** Length of the big-endian byte form. */
  function ByteLen(n: nat): (len: nat)
    ensures n == 0 <==> len == 0
  {
    if n == 0 then 0 else 1 + ByteLen(n / 256)
  }

  lemma {:induction false} ByteLenBounds(n: nat)
    requires n > 0
    ensures P(ByteLen(n) - 1) <= n < P(ByteLen(n))
  {
    PSmall();
    if n >= 256 {
      ByteLenBounds(n / 256);
      PStep(ByteLen(n / 256));
      PStep(ByteLen(n / 256) - 1);
    }
  }

  /** The mantissa moved by whole bytes to where the exponent says. */
  function Magnitude(e: nat, m: nat): nat {
    if e <= 3 then m / P(3 - e) else m * P(e - 3)
  }

  function CompactToBig(compact: uint32): int {
    var mantissa := compact % 0x80_0000;
    var isNegative := compact / 0x80_0000 % 2 != 0;
    var exponent := compact / 0x100_0000;
    var magnitude: int := Magnitude(exponent, mantissa);
    if isNegative then -magnitude else magnitude
  }

  /** Exponent and mantissa of a positive number: its length, and its three leading bytes. */
  function Leading(n: nat): (r: (nat, nat))
    requires n > 0
  {
    var exponent := ByteLen(n);
    var mantissa := if exponent <= 3 then n * P(3 - exponent) else n / P(exponent - 3);
    (exponent, mantissa)
  }

  /** The same after a byte is given up so that bit 23, the sign, stays clear. */
  function Parts(n: nat): (r: (nat, nat))
    requires n > 0
  {
    var (exponent, mantissa) := Leading(n);
    if mantissa / 0x80_0000 % 2 != 0 then (exponent + 1, mantissa / 256) else (exponent, mantissa)
  }

  function Composed(exponent: nat, mantissa: nat, negative: bool): uint32 {
    exponent % 0x100 * 0x100_0000 + mantissa % 0x80_0000 + if negative then 0x80_0000 else 0
  }

  function BigToCompact(n: int): uint32 {
    if n == 0 then 0
    else
      var (exponent, mantissa) := Parts(if n < 0 then -n else n);
      Composed(exponent, mantissa, n < 0)
  }

  /** `n` lies in the window of width one mantissa step that starts at `m * 256^(e-3)`. */
  ghost predicate Window(n: nat, e: nat, m: nat) {
    && 0x8000 <= m < 0x80_0000
    && m * P(e) <= n * P(3) < (m + 1) * P(e)
  }

  /** Numbers whose exponent still fits its byte. */
  predicate InRange(n: nat) {
    n < 0x80_0000 * P(252)
  }

  lemma ShortWindow(n: nat, e: nat, m: nat)
    requires 0 < e <= 3 && P(e - 1) <= n < P(e) && m == n * P(3 - e)
    ensures 0x1_0000 <= m < 0x100_0000 && m * P(e) <= n * P(3) < (m + 1) * P(e)
  {
    hide P;
    PSmall();
    var k := P(3 - e);
    PAdd(3 - e, e);
    PAdd(3 - e, e - 1);
    MulLe(P(e - 1), n, k);
    MulLe(n + 1, P(e), k);
    MulAdd(k, n, 1);
    MulAssoc(n, k, P(e));
    MulAdd(P(e), m, 1);
  }

  lemma LongWindow(n: nat, e: nat, m: nat)
    requires e > 3 && P(e - 1) <= n < P(e) && m == n / P(e - 3)
    ensures 0x1_0000 <= m < 0x100_0000 && m * P(e) <= n * P(3) < (m + 1) * P(e)
  {
    hide P;
    PSmall();
    var k: int := P(e - 3);
    PAdd(2, e - 3);
    PAdd(3, e - 3);
    DivBounds(n, k);
    DivGreatest(n, k, P(2));
    if m >= P(3) {
      MulLe(P(3), m, k);
    }
    MulLe(k * m, n, P(3));
    MulLe(n + 1, k * m + k, P(3));
    MulAdd(P(3), n, 1);
    MulAdd(k, m, 1);
    MulAssoc(m, k, P(3));
    MulAssoc(m + 1, k, P(3));
  }

  lemma LeadingWindow(n: nat)
    requires n > 0
    ensures var (e, m) := Leading(n); 0x1_0000 <= m < 0x100_0000 && m * P(e) <= n * P(3) < (m + 1) * P(e)
  {
    var (e, m) := Leading(n);
    LeadingIs(n);
    ByteLenBounds(n);
    hide *;
    if e <= 3 {
      ShortWindow(n, e, m);
    } else {
      LongWindow(n, e, m);
    }
  }

  lemma LeadingIs(n: nat)
    requires n > 0
    ensures Leading(n).0 == ByteLen(n) > 0
    ensures Leading(n).0 <= 3 ==> Leading(n).1 == n * P(3 - ByteLen(n))
    ensures Leading(n).0 > 3 ==> Leading(n).1 == n / P(ByteLen(n) - 3)
  {
  }

  lemma DropByte(n: nat, e: nat, m: nat)
    requires 0x80_0000 <= m < 0x100_0000 && m * P(e) <= n * P(3) < (m + 1) * P(e)
    ensures Window(n, e + 1, m / 256)
  {
    PStep(e);
    hide P;
    var q := m / 256;
    MulLe(256 * q, m, P(e));
    MulLe(m + 1, 256 * q + 256, P(e));
    MulAssoc(q, 256, P(e));
    MulAssoc(q + 1, 256, P(e));
  }

  lemma PartsIs(n: nat)
    requires n > 0
    ensures
      var (e, m) := Leading(n);
      e > 0 && Parts(n) == if m / 0x80_0000 % 2 != 0 then (e + 1, m / 256) else (e, m)
  {
    hide P;
  }

  lemma PartsWindow(n: nat)
    requires n > 0
    ensures Window(n, Parts(n).0, Parts(n).1) && Parts(n).0 > 0
  {
    LeadingWindow(n);
    PartsIs(n);
    hide Leading, Parts, P;
    var (e, m) := Leading(n);
    if m >= 0x80_0000 {
      DropByte(n, e, m);
    }
  }

  /** Larger numbers have windows that start no earlier, so the encoding preserves order. */
  lemma WindowOrder(n: nat, e: nat, m: nat, n': nat, e': nat, m': nat)
    requires Window(n, e, m) && Window(n', e', m') && n <= n'
    ensures e * 0x100_0000 + m <= e' * 0x100_0000 + m'
  {
    hide P;
    MulLe(n, n', P(3));
    if e' < e {
      PMonotone(e' + 1, e);
      PStep(e');
      MulLe(0x8000, m, P(e));
      MulLe(256 * P(e'), P(e), 0x8000);
      MulLe(m' + 1, 0x80_0000, P(e'));
    } else if e == e' && m' < m {
      MulLe(m' + 1, m, P(e));
    }
  }

  lemma SameFields(e: int, m: int, f: int, n: int, s: int, t: int)
    requires e * 0x100_0000 + m + s == f * 0x100_0000 + n + t
    requires 0 <= m < 0x80_0000 && 0 <= n < 0x80_0000 && (s == 0 || s == 0x80_0000) && (t == 0 || t == 0x80_0000)
    ensures e == f && m == n
  {
  }

  lemma WindowUnique(n: nat, e: nat, m: nat)
    requires n > 0 && Window(n, e, m)
    ensures Parts(n) == (e, m)
  {
    hide P, Parts;
    PartsWindow(n);
    var (f, o) := Parts(n);
    assert 0x8000 <= o < 0x80_0000;
    hide Window;
    WindowOrder(n, e, m, n, f, o);
    WindowOrder(n, f, o, n, e, m);
    SameFields(e, m, f, o, 0, 0);
  }

  lemma RangeExponent(n: nat, e: nat, m: nat)
    requires InRange(n) && Window(n, e, m)
    ensures e <= 255
  {
    hide P;
    if e >= 256 {
      MulLe(n + 1, 0x80_0000 * P(252), P(3));
      PAdd(252, 3);
      PStep(255);
      MulAssoc(0x80_0000, P(252), P(3));
      PMonotone(256, e);
      MulLe(0x8000, m, P(e));
      MulLe(P(256), P(e), 0x8000);
    }
  }

  lemma CompactFields(e: int, m: int)
    requires 0 <= e <= 255 && 0 <= m < 0x80_0000
    ensures CompactToBig(e * 0x100_0000 + m) == Magnitude(e, m)
    ensures CompactToBig(e * 0x100_0000 + m + 0x80_0000) == 0 - Magnitude(e, m)
  {
    hide Magnitude;
    FieldsOf(e, m, 0);
    FieldsOf(e, m, 1);
  }

  lemma FieldsOf(e: int, m: int, sign: int)
    requires 0 <= e <= 255 && 0 <= m < 0x80_0000 && 0 <= sign <= 1
    ensures
      var c := e * 0x100_0000 + m + sign * 0x80_0000;
      c / 0x100_0000 == e && c / 0x80_0000 == 2 * e + sign && c % 0x80_0000 == m && (2 * e + sign) % 2 == sign
  {
  }

  lemma CompactOfParts(n: int, e: nat, m: nat)
    requires n > 0 && Parts(n) == (e, m) && e <= 255 && m < 0x80_0000
    ensures BigToCompact(n) == e * 0x100_0000 + m
    ensures BigToCompact(-n) == e * 0x100_0000 + m + 0x80_0000
  {
    hide Parts;
  }

  /** The encoding of a number in range, taken apart. */
  lemma EncodingOf(n: int)
    requires n > 0 && InRange(n)
    ensures
      var (e, m) := Parts(n);
      && Window(n, e, m) && 1 <= e <= 255
      && BigToCompact(n) == e * 0x100_0000 + m
      && BigToCompact(-n) == e * 0x100_0000 + m + 0x80_0000
      && CompactToBig(BigToCompact(n)) == Magnitude(e, m)
  {
    PartsWindow(n);
    var (e, m) := Parts(n);
    assert m < 0x80_0000;
    hide *;
    RangeExponent(n, e, m);
    CompactOfParts(n, e, m);
    CompactFields(e, m);
  }

  lemma MagnitudeOfWindow(n: nat, e: nat, m: nat)
    requires n > 0 && Window(n, e, m)
    ensures e <= 3 ==> m == n * P(3 - e) && Magnitude(e, m) == n
    ensures e > 3 ==> Magnitude(e, m) == m * P(e - 3) && m * P(e - 3) <= n < (m + 1) * P(e - 3)
  {
    hide P;
    if e <= 3 {
      var k := P(3 - e);
      PAdd(3 - e, e);
      MulAssoc(n, k, P(e));
      if m + 1 <= n * k { MulLe(m + 1, n * k, P(e)); }
      if n * k + 1 <= m { MulLe(n * k + 1, m, P(e)); MulAdd(P(e), n * k, 1); }
      MulDiv(n, k);
    } else {
      var k := P(e - 3);
      PAdd(e - 3, 3);
      MulAssoc(m, k, P(3));
      MulAssoc(m + 1, k, P(3));
      if n + 1 <= m * k { MulLe(n + 1, m * k, P(3)); MulAdd(P(3), n, 1); }
      if (m + 1) * k <= n { MulLe((m + 1) * k, n, P(3)); }
    }
  }

  /** Encoding rounds down, by less than one part in 2^15, and never to zero. */
  lemma EncodingRoundsDown(n: nat)
    requires n > 0 && InRange(n)
    ensures
      var d := CompactToBig(BigToCompact(n));
      0 < d <= n && 0x8000 * (n - d) < d
  {
    EncodingOf(n);
    var (e, m) := Parts(n);
    assert m >= 0x8000;
    hide *;
    MagnitudeOfWindow(n, e, m);
    if e > 3 {
      WithinOneStep(n, m, P(e - 3));
    }
  }

  lemma WithinOneStep(n: int, m: int, w: int)
    requires w > 0 && m >= 0x8000 && m * w <= n < (m + 1) * w
    ensures 0 < m * w && 0x8000 * (n - m * w) < m * w
  {
    MulLe(0x8000, m, w);
    MulAdd(w, m, 1);
  }

  lemma MagnitudeOrder(n: nat, e: nat, m: nat, n': nat, e': nat, m': nat)
    requires 0 < n <= n' && Window(n, e, m) && Window(n', e', m')
    ensures Magnitude(e, m) <= Magnitude(e', m')
  {
    MagnitudeOfWindow(n, e, m);
    MagnitudeOfWindow(n', e', m');
    WindowOrder(n, e, m, n', e', m');
    assert 0x8000 <= m < 0x80_0000 && 0x8000 <= m' < 0x80_0000;
    hide *;
    if e > 3 {
      if e < e' {
        PMonotone(e - 2, e' - 3);
        PStep(e - 3);
        MulLe(m, 0x80_0000, P(e - 3));
        MulLe(256 * P(e - 3), P(e' - 3), 0x8000);
        MulLe(0x8000, m', P(e' - 3));
      } else {
        MulLe(m, m', P(e - 3));
      }
    } else if e' > 3 {
      PSmall();
      PMonotone(1, e' - 3);
      MulLe(0x8000, m', P(e' - 3));
      MulLe(P(1), P(e' - 3), 0x8000);
      SmallMagnitude(n, e, m);
    }
  }

  /** Encoding preserves order, as 32-bit numbers and as the targets that they stand for. */
  lemma EncodingMonotone(n: nat, n': nat)
    requires 0 < n <= n' && InRange(n')
    ensures BigToCompact(n) <= BigToCompact(n')
    ensures CompactToBig(BigToCompact(n)) <= CompactToBig(BigToCompact(n'))
  {
    EncodingOf(n);
    EncodingOf(n');
    hide P, Parts, BigToCompact, CompactToBig, Magnitude, InRange, Window;
    var (e, m) := Parts(n);
    var (e', m') := Parts(n');
    WindowOrder(n, e, m, n', e', m');
    MagnitudeOrder(n, e, m, n', e', m');
  }

  lemma SmallMagnitude(n: nat, e: nat, m: nat)
    requires e <= 3 && m < 0x80_0000 && m == n * P(3 - e)
    ensures n < 0x80_0000
  {
    PSmall();
    PMonotone(0, 3 - e);
    MulLe(1, P(3 - e), n);
  }

  /** Below 2^23 nothing is lost. */
  lemma EncodingLossless(n: nat)
    requires 0 < n < 0x80_0000
    ensures InRange(n)
    ensures CompactToBig(BigToCompact(n)) == n
  {
    PMonotone(0, 252);
    PSmall();
    EncodingOf(n);
    var (e, m) := Parts(n);
    assert m >= 0x8000;
    hide *;
    MagnitudeOfWindow(n, e, m);
    if e > 3 {
      PMonotone(1, e - 3);
      MulLe(P(1), P(e - 3), m);
    }
  }

  lemma {:induction false} MultiplesInWindow(d: nat, w: nat, m: nat, q: nat)
    requires w > 0 && d == q * w && m * w <= d < (m + 1) * w
    ensures d == m * w
  {
    if q < m { MulLe(q + 1, m, w); MulAdd(w, q, 1); }
    if q > m { MulLe(m + 1, q, w); }
  }

  lemma ExponentNotAbove(d: int, M: nat, E: nat, m: nat, e: nat)
    requires E > 3 && M < 0x80_0000 && d == M * P(E - 3)
    requires e > 3 && m >= 0x8000 && m * P(e - 3) <= d
    ensures e <= E
  {
    hide P;
    if e > E {
      PMonotone(E - 2, e - 3);
      PStep(E - 3);
      MulLe(256 * P(E - 3), P(e - 3), 0x8000);
      MulLe(0x8000, m, P(e - 3));
      MulLe(M + 1, 0x80_0000, P(E - 3));
      MulAdd(P(E - 3), M, 1);
    }
  }

  lemma DecodedLarge(d: int, M: nat, E: nat)
    requires E > 3 && M < 0x80_0000 && d == M * P(E - 3) > 0 && InRange(d)
    ensures CompactToBig(BigToCompact(d)) == d
  {
    EncodingOf(d);
    var (e, m) := Parts(d);
    assert m >= 0x8000;
    hide *;
    MagnitudeOfWindow(d, e, m);
    if e > 3 {
      ExponentNotAbove(d, M, E, m, e);
      assert d == M * P(E - e) * P(e - 3) by {
        PAdd(E - e, e - 3);
        MulAssoc(M, P(E - e), P(e - 3));
      }
      MultiplesInWindow(d, P(e - 3), m, M * P(E - e));
    }
  }

  /** A target that came from compact bits is encoded without loss. */
  lemma DecodedIsExact(c: uint32)
    requires CompactToBig(c) > 0
    ensures InRange(CompactToBig(c))
    ensures CompactToBig(BigToCompact(CompactToBig(c))) == CompactToBig(c)
  {
    var M: int, E: int := c % 0x80_0000, c / 0x100_0000;
    var d := CompactToBig(c);
    assert d == Magnitude(E, M);
    MagnitudeInRange(E, M);
    if E <= 3 {
      assert d == M / P(3 - E);
      hide *;
      QuotientFits(M, P(3 - E));
      EncodingLossless(d);
    } else {
      assert d == M * P(E - 3);
      hide *;
      DecodedLarge(d, M, E);
    }
  }

  /** Bits that the encoder itself would write. */
  predicate Canonical(c: uint32) {
    var mantissa, exponent := c % 0x80_0000, c / 0x100_0000;
    || c == 0
    || (mantissa >= 0x8000 && exponent >= 1
        && (exponent == 1 ==> mantissa % 0x1_0000 == 0)
        && (exponent == 2 ==> mantissa % 0x100 == 0))
  }

  lemma CanonicalWindow(c: uint32)
    requires c != 0 && Canonical(c)
    ensures
      var mantissa, exponent := c % 0x80_0000, c / 0x100_0000;
      Magnitude(exponent, mantissa) > 0 && Window(Magnitude(exponent, mantissa), exponent, mantissa)
  {
    var m, e := c % 0x80_0000, c / 0x100_0000;
    if e <= 3 {
      SmallWindow(c);
    } else {
      LargeWindow(c);
    }
  }

  lemma SmallWindow(c: uint32)
    requires c != 0 && Canonical(c) && c / 0x100_0000 <= 3
    ensures
      var mantissa, exponent := c % 0x80_0000, c / 0x100_0000;
      Magnitude(exponent, mantissa) > 0 && Window(Magnitude(exponent, mantissa), exponent, mantissa)
  {
    var m, e := c % 0x80_0000, c / 0x100_0000;
    var d, k := Magnitude(e, m), P(3 - e);
    PSmall();
    assert d * k == m;
    PAdd(3 - e, e);
    MulAssoc(d, k, P(e));
    MulAdd(P(e), m, 1);
  }

  lemma LargeWindow(c: uint32)
    requires c != 0 && Canonical(c) && c / 0x100_0000 > 3
    ensures
      var mantissa, exponent := c % 0x80_0000, c / 0x100_0000;
      Magnitude(exponent, mantissa) > 0 && Window(Magnitude(exponent, mantissa), exponent, mantissa)
  {
    var m, e := c % 0x80_0000, c / 0x100_0000;
    PSmall();
    PAdd(e - 3, 3);
    MulAssoc(m, P(e - 3), P(3));
    MulLe(0x8000, m, P(e - 3));
    MulAdd(P(e), m, 1);
  }

  lemma MagnitudeInRange(e: nat, m: nat)
    requires e <= 255 && m < 0x80_0000
    ensures InRange(Magnitude(e, m))
  {
    PMonotone(0, 252);
    if e <= 3 {
      QuotientFits(m, P(3 - e));
      assert P(0) == 1;
    } else {
      PMonotone(e - 3, 252);
      MulLe(m + 1, 0x80_0000, P(e - 3));
      MulAdd(P(e - 3), m, 1);
      MulLe(P(e - 3), P(252), 0x80_0000);
    }
  }

  /** The three fields of 32 compact bits. */
  lemma SplitBits(c: uint32) returns (e: int, m: int, negative: bool)
    ensures 0 <= e <= 255 && 0 <= m < 0x80_0000
    ensures e == c / 0x100_0000 && m == c % 0x80_0000
    ensures c == e * 0x100_0000 + m + if negative then 0x80_0000 else 0
    ensures CompactToBig(c) == if negative then 0 - Magnitude(e, m) else Magnitude(e, m)
  {
    hide Magnitude;
    e, m, negative := c / 0x100_0000, c % 0x80_0000, c / 0x80_0000 % 2 != 0;
  }

  lemma CanonicalIsKept(c: uint32)
    requires Canonical(c)
    ensures BigToCompact(CompactToBig(c)) == c
  {
    if c != 0 {
      CanonicalWindow(c);
      hide *;
      var e, m, negative := SplitBits(c);
      var d: int := Magnitude(e, m);
      MagnitudeInRange(e, m);
      WindowUnique(d, e, m);
      EncodingOf(d);
    }
  }

  lemma ShortMantissa(d: nat, e: nat, m: nat)
    requires 1 <= e <= 3 && m == d * P(3 - e)
    ensures (e == 1 ==> m % 0x1_0000 == 0) && (e == 2 ==> m % 0x100 == 0)
  {
    hide P;
    PSmall();
  }

  lemma KeptIsCanonical(c: uint32)
    requires BigToCompact(CompactToBig(c)) == c
    ensures Canonical(c)
  {
    assert BigToCompact(0) == 0;
    hide BigToCompact, CompactToBig, Magnitude, P, Parts;
    var e, m, negative := SplitBits(c);
    var d: int := Magnitude(e, m);
    if d > 0 {
      MagnitudeInRange(e, m);
      EncodingOf(d);
      var (f, n) := Parts(d);
      assert n >= 0x8000 && n < 0x80_0000;
      SameFields(e, m, f, n, if negative then 0x80_0000 else 0, if negative then 0x80_0000 else 0);
      MagnitudeOfWindow(d, f, n);
      if f <= 3 {
        ShortMantissa(d, f, n);
      }
    }
  }

  /** BigToCompact inverts CompactToBig on the canonical bits, and on no others. */
  lemma InvertsExactlyOnCanonical(c: uint32)
    ensures BigToCompact(CompactToBig(c)) == c <==> Canonical(c)
  {
    hide *;
    if Canonical(c) {
      CanonicalIsKept(c);
    }
    if BigToCompact(CompactToBig(c)) == c {
      KeptIsCanonical(c);
    }
  }
}
