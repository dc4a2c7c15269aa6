/** Lists turned around. */
module Lists {
  function Reversed<T>(s: seq<T>): (r: seq<T>)
    ensures |r| == |s|
  {
    if s == [] then [] else [s[|s| - 1]] + Reversed(s[..|s| - 1])
  }

  lemma {:induction false} ReversedIndex<T>(s: seq<T>, i: nat)
    requires i < |s|
    ensures Reversed(s)[i] == s[|s| - 1 - i]
    decreases |s|
  {
    if i > 0 {
      ReversedIndex(s[..|s| - 1], i - 1);
    }
  }

  lemma {:induction false} ReversedCons<T>(x: T, s: seq<T>)
    ensures Reversed([x] + s) == Reversed(s) + [x]
    decreases |s|
  {
    var all := [x] + s;
    if s != [] {
      assert all[..|all| - 1] == [x] + s[..|s| - 1];
      ReversedCons(x, s[..|s| - 1]);
    } else {
      assert all == [x] && all[..0] == [];
    }
  }

  lemma {:induction false} ReversedTwice<T>(s: seq<T>)
    ensures Reversed(Reversed(s)) == s
    decreases |s|
  {
    if s != [] {
      ReversedTwice(s[..|s| - 1]);
      ReversedCons(s[|s| - 1], Reversed(s[..|s| - 1]));
    }
  }
}
