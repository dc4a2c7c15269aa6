/** The merkle root of a transaction list, and what it commits a header to. */
module Merkle {
  import opened Ints
  import opened WireTypes

  function TxHashes(c: Crypto, txs: seq<MsgTx>): (hashes: seq<Hash>)
    ensures |hashes| == |txs|
    ensures forall i :: 0 <= i < |txs| ==> hashes[i] == c.txHash(txs[i])
  {
    if txs == [] then [] else [c.txHash(txs[0])] + TxHashes(c, txs[1..])
  }

  /** Neighbours hashed in pairs; a last hash without a neighbour is paired with itself. */
  function NextLayer(c: Crypto, layer: seq<Hash>): (next: seq<Hash>)
    ensures |next| == (|layer| + 1) / 2
  {
    if layer == [] then []
    else if |layer| == 1 then [c.pairHash(layer[0], layer[0])]
    else [c.pairHash(layer[0], layer[1])] + NextLayer(c, layer[2..])
  }

  function Top(c: Crypto, layer: seq<Hash>): Hash
    requires layer != []
    decreases |layer|
  {
    if |layer| == 1 then layer[0] else Top(c, NextLayer(c, layer))
  }

  function MerkleRoot(c: Crypto, txs: seq<MsgTx>): Hash {
    if txs == [] then ZERO_HASH else Top(c, TxHashes(c, txs))
  }

  function From(layer: seq<Hash>, i: nat): seq<Hash> {
    if i <= |layer| then layer[i..] else []
  }

  lemma NextLayerFrom(c: Crypto, layer: seq<Hash>, i: nat)
    requires i < |layer|
    ensures NextLayer(c, From(layer, i)) ==
      [c.pairHash(layer[i], if i + 1 < |layer| then layer[i + 1] else layer[i])] + NextLayer(c, From(layer, i + 2))
  {
    if i + 1 < |layer| {
      assert layer[i..][2..] == layer[i + 2..];
    }
  }

  lemma FromEnds(c: Crypto, layer: seq<Hash>)
    ensures From(layer, 0) == layer
    ensures forall i :: i >= |layer| ==> NextLayer(c, From(layer, i)) == []
  {
  }

  /** One pass over a layer. */
  method HashPairs(c: Crypto, layer: seq<Hash>) returns (next: seq<Hash>)
    ensures next == NextLayer(c, layer)
  {
    FromEnds(c, layer);
    hide From, NextLayer;
    next := [];
    var i := 0;
    while i < |layer|
      invariant next + NextLayer(c, From(layer, i)) == NextLayer(c, layer)
    {
      var left := layer[i];
      var right := left;
      if i + 1 < |layer| {
        right := layer[i + 1];
      }
      NextLayerFrom(c, layer, i);
      next := next + [c.pairHash(left, right)];
      i := i + 2;
    }
    assert next + [] == next;
  }

  method CalcMerkleRoot(c: Crypto, txs: seq<MsgTx>) returns (root: Hash)
    ensures root == MerkleRoot(c, txs)
  {
    if |txs| == 0 {
      return ZERO_HASH;
    }
    var layer: seq<Hash> := [];
    for i := 0 to |txs|
      invariant layer == TxHashes(c, txs)[..i]
    {
      layer := layer + [c.txHash(txs[i])];
    }
    assert layer == TxHashes(c, txs);
    while |layer| > 1
      invariant layer != []
      invariant Top(c, layer) == MerkleRoot(c, txs)
      decreases |layer|
    {
      layer := HashPairs(c, layer);
    }
    root := layer[0];
  }

  // ---- what a root commits to ----

  /**
   The number of places at the foot of the full tree over `n` leaves: the least power of two that is not
   below `n`.
   */
  function Width(n: nat): (w: nat)
    requires n > 0
    ensures n <= w < 2 * n
  {
    if n == 1 then 1 else 2 * Width((n + 1) / 2)
  }

  /** Which leaf stands at place `i` of the full tree, when on every level whatever has no neighbour stands twice. */
  function Source(n: nat, i: nat): (k: nat)
    requires 0 < n && i < Width(n)
    ensures k < n
    ensures i < n ==> k == i
  {
    if n == 1 then 0
    else
      var k := 2 * Source((n + 1) / 2, i / 2) + i % 2;
      if k < n then k else k - 1
  }

  /** The foot of the full tree. */
  function Padded<T>(xs: seq<T>): (padded: seq<T>)
    requires xs != []
    ensures |padded| == Width(|xs|)
    ensures forall i :: 0 <= i < |padded| ==> padded[i] == xs[Source(|xs|, i)]
  {
    seq(Width(|xs|), i requires 0 <= i < Width(|xs|) => xs[Source(|xs|, i)])
  }

  lemma PaddedStartsWith<T>(xs: seq<T>)
    requires xs != []
    ensures xs <= Padded(xs)
  {
    assert Padded(xs)[..|xs|] == xs;
  }

  /** Lists that fill the same full tree differ in nothing but their length. */
  lemma ShorterIsPrefix<T>(xs: seq<T>, ys: seq<T>)
    requires xs != [] && ys != [] && Padded(xs) == Padded(ys) && |xs| <= |ys|
    ensures xs <= ys
    ensures forall k :: |xs| <= k < |ys| ==> ys[k] == xs[Source(|xs|, k)]
  {
    forall k | 0 <= k < |ys|
      ensures ys[k] == Padded(xs)[k] == xs[Source(|xs|, k)]
    {
      assert Source(|ys|, k) == k;
    }
    forall k | 0 <= k < |xs|
      ensures xs[k] == ys[k]
    {
      assert Source(|xs|, k) == k;
    }
  }

  lemma {:induction false} WidthOfWidth(n: nat)
    requires n > 0
    ensures Width(Width(n)) == Width(n)
  {
    if n > 1 {
      WidthOfWidth((n + 1) / 2);
      assert (Width(n) + 1) / 2 == Width((n + 1) / 2);
    }
  }

  ghost predicate PowerOfTwo(n: nat) {
    exists k: nat :: n == Pow(2, k)
  }

  /** The width is the least power of two that is not below `n`. */
  lemma {:induction false} WidthIsPower(n: nat) returns (k: nat)
    requires n > 0
    ensures Width(n) == Pow(2, k) && (k > 0 ==> Pow(2, k - 1) < n)
  {
    if n == 1 {
      k := 0;
    } else {
      var half := WidthIsPower((n + 1) / 2);
      k := half + 1;
    }
  }

  lemma {:induction false} WidthOfPower(k: nat)
    ensures Pow(2, k) > 0 && Width(Pow(2, k)) == Pow(2, k)
  {
    if k > 0 {
      WidthOfPower(k - 1);
      assert (Pow(2, k) + 1) / 2 == Pow(2, k - 1);
    }
  }

  lemma FullExactlyAtPowers(n: nat)
    requires n > 0
    ensures n < Width(n) <==> !PowerOfTwo(n)
  {
    var k := WidthIsPower(n);
    if PowerOfTwo(n) {
      var j: nat :| n == Pow(2, j);
      WidthOfPower(j);
    }
  }

  /** A longer list with the same full tree exists exactly when the length is not a power of two. */
  lemma LongerExistsExactlyWhen<T(!new)>(xs: seq<T>)
    requires xs != []
    ensures (exists ys: seq<T> :: |ys| > |xs| && Padded(ys) == Padded(xs)) <==> !PowerOfTwo(|xs|)
  {
    hide PowerOfTwo;
    FullExactlyAtPowers(|xs|);
    var full := Padded(xs);
    if |xs| < Width(|xs|) {
      WidthOfWidth(|xs|);
      forall i | 0 <= i < |full|
        ensures Padded(full)[i] == full[i]
      {
        assert Source(|full|, i) == i;
      }
      assert |full| > |xs| && Padded(full) == full;
    }
    if ys: seq<T> :| |ys| > |xs| && Padded(ys) == full {
      assert |ys| <= |Padded(ys)| == Width(|xs|);
    }
  }

  /** Where the part begins that stands again right behind a list. */
  function TailStart(n: nat): (q: nat)
    requires 0 < n < Width(n)
    ensures q < n
  {
    Source(n, n)
  }

  /** Behind a list its tail stands again, in order. */
  lemma {:induction false} SourceOfTail(n: nat, i: nat)
    requires 0 < n < Width(n) && n <= i < 2 * n - TailStart(n)
    ensures i < Width(n) && Source(n, i) == i - (n - TailStart(n))
  {
    var m := (n + 1) / 2;
    if n % 2 == 1 {
      assert Source(n, n) == n - 1;
    } else {
      assert n / 2 == m && Source(n, n) == 2 * Source(m, m);
      SourceOfTail(m, i / 2);
    }
  }

  /** The places of that tail are filled from positions behind the list in every longer list as well. */
  lemma {:induction false} LongerFillsTail(n: nat, m: nat, i: nat)
    requires 0 < n < Width(n) && n < m && n <= i < 2 * n - TailStart(n) && i < Width(m)
    ensures n <= Source(m, i) <= i
  {
    if n % 2 == 1 {
      assert Source(n, n) == n - 1;
    } else {
      var half := n / 2;
      assert (n + 1) / 2 == half && Source(n, n) == 2 * Source(half, half);
      LongerFillsTail(half, (m + 1) / 2, i / 2);
    }
  }

  /** The pair at place `i` of a layer. */
  function PairAt(layer: seq<Hash>, i: nat): (Hash, Hash)
    requires 2 * i < |layer|
  {
    (layer[2 * i], if 2 * i + 1 < |layer| then layer[2 * i + 1] else layer[2 * i])
  }

  lemma {:induction false} NextLayerAt(c: Crypto, layer: seq<Hash>, i: nat)
    requires 2 * i < |layer|
    ensures NextLayer(c, layer)[i] == c.pairHash(PairAt(layer, i).0, PairAt(layer, i).1)
  {
    if i > 0 {
      NextLayerAt(c, layer[2..], i - 1);
      assert PairAt(layer[2..], i - 1) == PairAt(layer, i);
    }
  }

  /** Two neighbouring places stand over one place of the next level. */
  lemma SourcePair(n: nat, j: nat)
    requires n > 1 && 2 * j < Width(n)
    ensures Width(n) == 2 * Width((n + 1) / 2) && j < Width((n + 1) / 2)
    ensures
      var k := Source((n + 1) / 2, j);
      && 2 * k < n
      && Source(n, 2 * j) == 2 * k
      && Source(n, 2 * j + 1) == if 2 * k + 1 < n then 2 * k + 1 else 2 * k
  {
    assert (2 * j) / 2 == j && (2 * j + 1) / 2 == j && (2 * j) % 2 == 0 && (2 * j + 1) % 2 == 1;
  }

  /** A place of the next full tree holds the hash of the two places below it. */
  lemma PaddedPair(c: Crypto, layer: seq<Hash>, j: nat)
    requires |layer| > 1 && 2 * j < Width(|layer|)
    ensures 2 * j + 1 < |Padded(layer)| && j < |Padded(NextLayer(c, layer))|
    ensures Source((|layer| + 1) / 2, j) * 2 < |layer|
    ensures
      var pair := PairAt(layer, Source((|layer| + 1) / 2, j));
      && pair == (Padded(layer)[2 * j], Padded(layer)[2 * j + 1])
      && Padded(NextLayer(c, layer))[j] == c.pairHash(pair.0, pair.1)
  {
    hide Width, Source, Padded, NextLayer;
    SourcePair(|layer|, j);
    NextLayerAt(c, layer, Source((|layer| + 1) / 2, j));
  }

  /** Lists that fill the same full tree have the same root. */
  lemma {:induction false} SameFootSameTop(c: Crypto, a: seq<Hash>, b: seq<Hash>)
    requires a != [] && b != [] && Padded(a) == Padded(b)
    ensures Top(c, a) == Top(c, b)
    decreases |a|
  {
    hide Padded, Source;
    if |a| == 1 || |b| == 1 {
      PaddedStartsWith(a);
      PaddedStartsWith(b);
    } else {
      var x, y := NextLayer(c, a), NextLayer(c, b);
      forall j | 0 <= j < Width(|x|)
        ensures Padded(x)[j] == Padded(y)[j]
      {
        PaddedPair(c, a, j);
        PaddedPair(c, b, j);
      }
      SameFootSameTop(c, x, y);
    }
  }

  /** No two different pairs, one of each layer, have the same hash. */
  ghost predicate PairsDoNotCollide(c: Crypto, a: seq<Hash>, b: seq<Hash>) {
    forall i, j :: 0 <= 2 * i < |a| && 0 <= 2 * j < |b| ==>
      var (x, y) := (PairAt(a, i), PairAt(b, j));
      c.pairHash(x.0, x.1) == c.pairHash(y.0, y.1) ==> x == y
  }

  /** The pairs that are hashed for the two lists do not collide, level by level. */
  ghost predicate LevelsDoNotCollide(c: Crypto, a: seq<Hash>, b: seq<Hash>)
    decreases |a|
  {
    |a| > 1 && |b| > 1 ==>
      PairsDoNotCollide(c, a, b) && LevelsDoNotCollide(c, NextLayer(c, a), NextLayer(c, b))
  }

  lemma PlacesAgree(c: Crypto, a: seq<Hash>, b: seq<Hash>, j: nat)
    requires |a| > 1 && |b| > 1 && 2 * j < Width(|a|) == Width(|b|) && PairsDoNotCollide(c, a, b)
    requires Padded(NextLayer(c, a)) == Padded(NextLayer(c, b))
    ensures 2 * j + 1 < |Padded(a)| == |Padded(b)|
    ensures Padded(a)[2 * j] == Padded(b)[2 * j] && Padded(a)[2 * j + 1] == Padded(b)[2 * j + 1]
  {
    hide Width, Source, Padded, NextLayer, PairAt, PairsDoNotCollide;
    PaddedPair(c, a, j);
    PaddedPair(c, b, j);
    OnePair(c, a, b, Source((|a| + 1) / 2, j), Source((|b| + 1) / 2, j));
  }

  lemma OnePlace(xs: seq<Hash>)
    requires |xs| == 1
    ensures Padded(xs) == xs
  {
  }

  /** Over trees of one height, equal roots mean equal full trees. */
  lemma {:induction false} SameTopSameFoot(c: Crypto, a: seq<Hash>, b: seq<Hash>)
    requires a != [] && b != [] && Width(|a|) == Width(|b|) && LevelsDoNotCollide(c, a, b)
    requires Top(c, a) == Top(c, b)
    ensures Padded(a) == Padded(b)
    decreases |a|
  {
    hide Padded, Source, NextLayer, PairsDoNotCollide;
    if |a| > 1 {
      SameTopSameFoot(c, NextLayer(c, a), NextLayer(c, b));
      hide *;
      forall i | 0 <= i < |Padded(a)|
        ensures Padded(a)[i] == Padded(b)[i]
      {
        PlacesAgree(c, a, b, i / 2);
        assert i == 2 * (i / 2) || i == 2 * (i / 2) + 1;
      }
    } else {
      OnePlace(a);
      OnePlace(b);
    }
  }

  lemma OnePair(c: Crypto, a: seq<Hash>, b: seq<Hash>, i: nat, j: nat)
    requires PairsDoNotCollide(c, a, b) && 2 * i < |a| && 2 * j < |b|
    requires c.pairHash(PairAt(a, i).0, PairAt(a, i).1) == c.pairHash(PairAt(b, j).0, PairAt(b, j).1)
    ensures PairAt(a, i) == PairAt(b, j)
  {
  }

  /**
   What a root commits to. Two lists that need equally many passes have the same root exactly when the
   identifiers fill the same full tree, unless two pairs that are hashed for them on one level collide.
   */
  lemma RootCommitsToFullTree(c: Crypto, s: seq<MsgTx>, t: seq<MsgTx>)
    requires s != [] && t != []
    ensures Padded(TxHashes(c, s)) == Padded(TxHashes(c, t)) ==> MerkleRoot(c, s) == MerkleRoot(c, t)
    ensures Width(|s|) == Width(|t|) && LevelsDoNotCollide(c, TxHashes(c, s), TxHashes(c, t)) ==>
      (MerkleRoot(c, s) == MerkleRoot(c, t) <==> Padded(TxHashes(c, s)) == Padded(TxHashes(c, t)))
  {
    hide Padded, LevelsDoNotCollide, Top;
    var a, b := TxHashes(c, s), TxHashes(c, t);
    if Padded(a) == Padded(b) {
      SameFootSameTop(c, a, b);
    }
    if Width(|s|) == Width(|t|) && LevelsDoNotCollide(c, a, b) && Top(c, a) == Top(c, b) {
      SameTopSameFoot(c, a, b);
    }
  }

  /** Among lists of one length, then, it commits to every identifier and to their order. */
  lemma RootCommitsToTransactions(c: Crypto, s: seq<MsgTx>, t: seq<MsgTx>)
    requires |s| == |t|
    requires LevelsDoNotCollide(c, TxHashes(c, s), TxHashes(c, t))
    ensures MerkleRoot(c, s) == MerkleRoot(c, t) <==> TxHashes(c, s) == TxHashes(c, t)
  {
    hide Padded, LevelsDoNotCollide, Top;
    if s != [] {
      RootCommitsToFullTree(c, s, t);
      if Padded(TxHashes(c, s)) == Padded(TxHashes(c, t)) {
        ShorterIsPrefix(TxHashes(c, s), TxHashes(c, t));
      }
    }
  }

  /** `d` passes over a layer. */
  function Passes(c: Crypto, layer: seq<Hash>, d: nat): (left: seq<Hash>)
    requires layer != []
    ensures left != []
    decreases d
  {
    if d == 0 || |layer| == 1 then layer else Passes(c, NextLayer(c, layer), d - 1)
  }

  lemma {:induction false} WidthsDouble(n: nat, m: nat)
    requires 0 < n && 0 < m && Width(n) < Width(m)
    ensures 2 * Width(n) <= Width(m)
  {
    if n > 1 {
      WidthsDouble((n + 1) / 2, (m + 1) / 2);
    }
  }

  /** The identifier is the hash of the first pair of some layer over the list. */
  ghost predicate IsFirstPair(c: Crypto, id: Hash, layer: seq<Hash>)
    requires layer != []
  {
    exists d: nat :: TopsPair(c, id, Passes(c, layer, d))
  }

  ghost predicate TopsPair(c: Crypto, id: Hash, layer: seq<Hash>) {
    |layer| > 1 && id == c.pairHash(layer[0], layer[1])
  }

  lemma FirstPair(c: Crypto, a: seq<Hash>, b: seq<Hash>)
    requires a != [] && |b| > 1 && Padded(a) == Padded(NextLayer(c, b))
    ensures IsFirstPair(c, a[0], b)
  {
    hide Padded;
    PaddedStartsWith(a);
    PaddedStartsWith(NextLayer(c, b));
    NextLayerAt(c, b, 0);
    assert TopsPair(c, a[0], Passes(c, b, 0));
  }

  lemma {:induction false} HigherTop(c: Crypto, a: seq<Hash>, b: seq<Hash>)
    requires a != [] && b != [] && Width(|a|) < Width(|b|) && Top(c, a) == Top(c, b)
    requires forall d: nat :: LevelsDoNotCollide(c, a, Passes(c, b, d))
    ensures IsFirstPair(c, a[0], b)
    decreases |b|
  {
    hide Padded, Source, NextLayer, LevelsDoNotCollide, TopsPair;
    var next := NextLayer(c, b);
    WidthsDouble(|a|, |b|);
    assert Passes(c, next, 0) == Passes(c, b, 1);
    if Width(|next|) == Width(|a|) {
      SameTopSameFoot(c, a, next);
      FirstPair(c, a, b);
    } else {
      forall d: nat
        ensures LevelsDoNotCollide(c, a, Passes(c, next, d))
      {
        assert Passes(c, next, d) == Passes(c, b, d + 1);
      }
      HigherTop(c, a, next);
      var d: nat :| TopsPair(c, a[0], Passes(c, next, d));
      assert Passes(c, next, d) == Passes(c, b, d + 1);
    }
  }

  /**
   Trees of different heights share a root only if pairs collide, or the first identifier of the lower one is
   itself the hash of a pair of the higher one.
   */
  lemma HigherTreeWithSameRoot(c: Crypto, s: seq<MsgTx>, t: seq<MsgTx>)
    requires s != [] && t != [] && Width(|s|) < Width(|t|) && MerkleRoot(c, s) == MerkleRoot(c, t)
    requires forall d: nat :: LevelsDoNotCollide(c, TxHashes(c, s), Passes(c, TxHashes(c, t), d))
    ensures IsFirstPair(c, c.txHash(s[0]), TxHashes(c, t))
  {
    hide LevelsDoNotCollide, Top, Passes;
    HigherTop(c, TxHashes(c, s), TxHashes(c, t));
  }

  /** The full tree over the transactions themselves gives the full tree over their identifiers. */
  lemma PaddedIdentifiers(c: Crypto, txs: seq<MsgTx>)
    requires txs != []
    ensures Padded(TxHashes(c, txs)) == TxHashes(c, Padded(txs))
  {
  }

  lemma SameTreeSameRoot(c: Crypto, s: seq<MsgTx>, t: seq<MsgTx>)
    requires s != [] && t != [] && Padded(s) == Padded(t)
    ensures MerkleRoot(c, s) == MerkleRoot(c, t)
  {
    hide Padded, Top;
    PaddedIdentifiers(c, s);
    PaddedIdentifiers(c, t);
    RootCommitsToFullTree(c, s, t);
  }

  lemma OneMoreThanOdd(n: nat, i: nat)
    requires n % 2 == 1 && n > 1 && i < Width(n)
    ensures Width(n + 1) == Width(n)
    ensures Source(n + 1, i) == Source(n, i) || (Source(n + 1, i) == n && Source(n, i) == n - 1)
  {
    assert (n + 2) / 2 == (n + 1) / 2;
  }

  /** The smallest case: repeating the last of an odd number of transactions leaves the root as it was. */
  lemma RepeatedLastTransaction(c: Crypto, txs: seq<MsgTx>)
    requires |txs| % 2 == 1 && |txs| > 1
    ensures MerkleRoot(c, txs + [txs[|txs| - 1]]) == MerkleRoot(c, txs)
  {
    hide Width, Source, MerkleRoot;
    var longer := txs + [txs[|txs| - 1]];
    OneMoreThanOdd(|txs|, 0);
    forall i | 0 <= i < Width(|txs|)
      ensures Padded(longer)[i] == Padded(txs)[i]
    {
      OneMoreThanOdd(|txs|, i);
    }
    SameTreeSameRoot(c, longer, txs);
  }
}
