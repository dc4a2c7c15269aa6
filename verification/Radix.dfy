/** Positional notation in any base, most significant digit first. */
module Radix {
  import opened Arith

  function Value(b: nat, ds: seq<nat>): nat {
    if ds == [] then 0 else Value(b, ds[..|ds| - 1]) * b + ds[|ds| - 1]
  }

  function Digits(b: nat, n: nat): (ds: seq<nat>)
    requires b > 1
    ensures forall i :: 0 <= i < |ds| ==> ds[i] < b
    ensures ds != [] ==> ds[0] != 0
    ensures ds == [] <==> n == 0
    decreases n
  {
    if n == 0 then []
    else
      Quotient(n, b);
      Digits(b, n / b) + [n % b]
  }

  lemma Quotient(n: nat, b: nat)
    requires n > 0 && b > 1
    ensures 0 <= n / b < n
    ensures 0 < n < b ==> n / b == 0 && n % b == n
  {
    DivBounds(n, b);
    if n / b >= n {
      MulLe(n, n / b, b);
      MulLe(2, b, n);
    }
    QuotientFits(n, b);
    if n < b {
      DivIs(n, b, 0, n);
    }
  }

  lemma ValueSnoc(b: nat, ds: seq<nat>, d: nat)
    ensures Value(b, ds + [d]) == Value(b, ds) * b + d
  {
    assert (ds + [d])[..|ds|] == ds;
  }

  lemma DigitsStep(b: nat, n: nat)
    requires b > 1 && n > 0
    ensures n / b < n && n == n / b * b + n % b
    ensures Digits(b, n) == Digits(b, n / b) + [n % b]
  {
    Quotient(n, b);
    DivBounds(n, b);
  }

  /** Writing a number down and reading it gives the number. */
  lemma {:induction false} ValueOfDigits(b: nat, n: nat)
    requires b > 1
    ensures Value(b, Digits(b, n)) == n
    decreases n
  {
    if n == 0 {
      ValueOfNothing(b);
    } else {
      DigitsStep(b, n);
      hide Value, Digits;
      ValueOfDigits(b, n / b);
      ValueSnoc(b, Digits(b, n / b), n % b);
    }
  }

  lemma ValueOfNothing(b: nat)
    ensures Value(b, []) == 0
  {
  }

  lemma {:induction false} LeadingDigitCounts(b: nat, ds: seq<nat>)
    requires b > 1 && ds != [] && ds[0] != 0
    ensures Value(b, ds) > 0
  {
    if |ds| > 1 {
      LeadingDigitCounts(b, ds[..|ds| - 1]);
      MulLe(1, Value(b, ds[..|ds| - 1]), b);
    } else {
      assert ds[..0] == [];
      assert Value(b, ds) == Value(b, []) * b + ds[0];
    }
  }

  /** Reading digits without a leading zero and writing the number down gives the digits. */
  lemma {:induction false} DigitsOfValue(b: nat, ds: seq<nat>)
    requires b > 1
    requires forall i :: 0 <= i < |ds| ==> ds[i] < b
    requires ds != [] ==> ds[0] != 0
    ensures Digits(b, Value(b, ds)) == ds
  {
    if ds != [] {
      var front, last := ds[..|ds| - 1], ds[|ds| - 1];
      DigitsOfValue(b, front);
      LeadingDigitCounts(b, ds);
      DivIs(Value(b, ds), b, Value(b, front), last);
      assert ds == front + [last];
    }
  }

  /** Leading zeros do not change the value. */
  lemma {:induction false} LeadingZeros(b: nat, zeros: seq<nat>, ds: seq<nat>)
    requires forall i :: 0 <= i < |zeros| ==> zeros[i] == 0
    ensures Value(b, zeros + ds) == Value(b, ds)
    decreases |zeros| + |ds|
  {
    var all := zeros + ds;
    if ds != [] {
      LeadingZeros(b, zeros, ds[..|ds| - 1]);
      assert all[..|all| - 1] == zeros + ds[..|ds| - 1];
    } else if zeros != [] {
      LeadingZeros(b, zeros[..|zeros| - 1], []);
      assert all[..|all| - 1] == zeros[..|zeros| - 1] + [];
      assert 0 * b == 0;
    }
  }
}
