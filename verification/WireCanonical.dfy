/**
 Which byte strings are encodings. The readers take more than the writers produce: an integer may be
 written longer than it needs to be. A string that decodes encodes back to itself exactly when every
 integer in it is as short as it can be.
 */
module WireCanonical {
  import opened Ints
  import opened WireTypes
  import opened WireCodec
  import opened WireRoundTrip

  // ---- integers ----

  lemma {:induction false} LEOfFromLE(s: seq<byte>)
    ensures LE(FromLE(s), |s|) == s
  {
    if s != [] {
      LEOfFromLE(s[1..]);
      var n := FromLE(s);
      assert n == s[0] + 256 * FromLE(s[1..]);
      assert n % 256 == s[0] && n / 256 == FromLE(s[1..]);
      assert s == [s[0]] + s[1..];
    }
  }

  lemma UintCanonical(s: seq<byte>, k: nat, n: nat, rest: seq<byte>)
    requires ParseUint(s, k) == Got(n, rest)
    ensures s == LE(n, k) + rest
  {
    LEOfFromLE(s[..k]);
    hide LE, FromLE;
    assert s == s[..k] + s[k..];
  }

  lemma Uint32Canonical(s: seq<byte>, n: uint32, rest: seq<byte>)
    requires ParseUint32(s) == Got(n, rest)
    ensures s == LE(n, 4) + rest
  {
    UintCanonical(s, 4, n, rest);
  }

  /** The integer at the front of `s` is written in the narrowest of the four forms that holds it. */
  predicate Shortest(s: seq<byte>) {
    match ParseVarInt(s)
    case Fail => false
    case Got(n, _) =>
      || s[0] < 0xfd
      || (s[0] == 0xfd && n >= 0xfd)
      || (s[0] == 0xfe && n > 0xffff)
      || (s[0] == 0xff && n > 0xffff_ffff)
  }

  /** What readVarInt takes is what writeVarInt writes exactly when it is the shortest form. */
  lemma VarIntCanonical(s: seq<byte>, n: uint64, rest: seq<byte>)
    requires ParseVarInt(s) == Got(n, rest)
    ensures s == VarInt(n) + rest <==> Shortest(s)
    ensures |VarInt(n)| + |rest| <= |s| && |rest| < |s|
  {
    Widths();
    assert s == [s[0]] + s[1..];
    if s[0] >= 0xfd {
      var k := if s[0] == 0xfd then 2 else if s[0] == 0xfe then 4 else 8;
      UintCanonical(s[1..], k, n, rest);
      assert s == [s[0]] + LE(n, k) + rest;
      hide LE, FromLE;
      assert (VarInt(n) + rest)[0] == VarInt(n)[0];
    }
  }

  lemma BackTogether<T>(s: seq<T>, k: nat)
    requires k <= |s|
    ensures s[..k] + s[k..] == s
  {
  }

  lemma VarBytesCanonical(s: seq<byte>, b: seq<byte>, rest: seq<byte>)
    requires ParseVarBytes(s) == Got(b, rest) && |s| <= MAX_INT64
    ensures |VarBytes(b)| + |rest| <= |s| && |b| + |rest| < |s|
    ensures s == VarBytes(b) + rest <==> Shortest(s)
  {
    hide VarInt, Shortest, ParseVarInt;
    var after := ParseVarInt(s).rest;
    VarIntCanonical(s, |b|, after);
    BackTogether(after, |b|);
    assert VarBytes(b) + rest == VarInt(|b|) + (b + rest);
  }

  // ---- inputs and outputs ----

  predicate ShortestIn(s: seq<byte>) {
    |s| >= 36 && Shortest(s[36..])
  }

  lemma InCanonical(s: seq<byte>, i: TxIn, rest: seq<byte>)
    requires ParseIn(s) == Got(i, rest) && |s| <= MAX_INT64
    ensures |i.signatureScript| <= MAX_INT64 && |InBytes(i)| + |rest| <= |s| && |rest| < |s|
    ensures s == InBytes(i) + rest <==> ShortestIn(s)
  {
    hide ParseUint32, ParseVarBytes, VarBytes, LE, Shortest;
    var s1 := s[32..];
    var s2 := ParseUint32(s1).rest;
    var s3 := ParseVarBytes(s2).rest;
    Uint32Canonical(s1, i.previous.index, s2);
    VarBytesCanonical(s2, i.signatureScript, s3);
    Uint32Canonical(s3, i.sequence, rest);
    var before := i.previous.hash + LE(i.previous.index, 4);
    assert s == before + s2 && s[36..] == s2;
    assert InBytes(i) + rest == before + (VarBytes(i.signatureScript) + s3);
    SameTail(before, s2, VarBytes(i.signatureScript) + s3);
  }

  lemma SameTail<T>(a: seq<T>, x: seq<T>, y: seq<T>)
    ensures a + x == a + y <==> x == y
  {
    if a + x == a + y {
      assert x == (a + x)[|a|..] && y == (a + y)[|a|..];
    }
  }

  predicate ShortestOut(s: seq<byte>) {
    |s| >= 8 && Shortest(s[8..])
  }

  lemma OutCanonical(s: seq<byte>, o: TxOut, rest: seq<byte>)
    requires ParseOut(s) == Got(o, rest) && |s| <= MAX_INT64
    ensures |o.pkScript| <= MAX_INT64 && |OutBytes(o)| + |rest| <= |s| && |rest| < |s|
    ensures s == OutBytes(o) + rest <==> ShortestOut(s)
  {
    hide ParseVarBytes, VarBytes, LE, FromLE, Shortest;
    var value := ParseUint64(s).value;
    var s1 := ParseUint64(s).rest;
    UintCanonical(s, 8, value, s1);
    VarBytesCanonical(s1, o.pkScript, rest);
    assert Unsigned64(o.value) == value;
    var before := LE(value, 8);
    assert s == before + s1 && s[8..] == s1;
    assert OutBytes(o) + rest == before + (VarBytes(o.pkScript) + rest);
    SameTail(before, s1, VarBytes(o.pkScript) + rest);
  }

  predicate ShortestIns(s: seq<byte>, n: nat) {
    n == 0 ||
    match ParseIn(s)
    case Fail => false
    case Got(_, rest) => ShortestIn(s) && ShortestIns(rest, n - 1)
  }

  lemma {:induction false} InsCanonical(s: seq<byte>, n: nat, acc: seq<TxIn>, all: seq<TxIn>, rest: seq<byte>)
    requires ParseIns(s, n, acc) == Got(all, rest) && |s| <= MAX_INT64
    ensures |all| == |acc| + n && all[..|acc|] == acc && n + |rest| <= |s|
    ensures forall i :: |acc| <= i < |all| ==> |all[i].signatureScript| <= MAX_INT64
    ensures |InsBytes(all[|acc|..])| + |rest| <= |s|
    ensures s == InsBytes(all[|acc|..]) + rest <==> ShortestIns(s, n)
    decreases n
  {
    hide ParseIn, InBytes, ShortestIn;
    if n == 0 {
      assert all[|acc|..] == [] && InsBytes([]) + rest == rest;
    } else {
      var first, s1 := ParseIn(s).value, ParseIn(s).rest;
      InCanonical(s, first, s1);
      InsCanonical(s1, n - 1, acc + [first], all, rest);
      var ins := all[|acc|..];
      assert all[..|acc| + 1][|acc|] == first && all[..|acc|] == all[..|acc| + 1][..|acc|];
      assert ins[0] == first && ins[1..] == all[|acc| + 1..];
      var after := InsBytes(ins[1..]) + rest;
      assert InsBytes(ins) + rest == InBytes(first) + after;
      if s == InsBytes(ins) + rest {
        InThenRest(first, after);
      }
    }
  }

  predicate ShortestOuts(s: seq<byte>, n: nat) {
    n == 0 ||
    match ParseOut(s)
    case Fail => false
    case Got(_, rest) => ShortestOut(s) && ShortestOuts(rest, n - 1)
  }

  lemma {:induction false} OutsCanonical(s: seq<byte>, n: nat, acc: seq<TxOut>, all: seq<TxOut>, rest: seq<byte>)
    requires ParseOuts(s, n, acc) == Got(all, rest) && |s| <= MAX_INT64
    ensures |all| == |acc| + n && all[..|acc|] == acc && n + |rest| <= |s|
    ensures forall i :: |acc| <= i < |all| ==> |all[i].pkScript| <= MAX_INT64
    ensures |OutsBytes(all[|acc|..])| + |rest| <= |s|
    ensures s == OutsBytes(all[|acc|..]) + rest <==> ShortestOuts(s, n)
    decreases n
  {
    hide ParseOut, OutBytes, ShortestOut;
    if n == 0 {
      assert all[|acc|..] == [] && OutsBytes([]) + rest == rest;
    } else {
      var first, s1 := ParseOut(s).value, ParseOut(s).rest;
      OutCanonical(s, first, s1);
      OutsCanonical(s1, n - 1, acc + [first], all, rest);
      var outs := all[|acc|..];
      assert all[..|acc| + 1][|acc|] == first && all[..|acc|] == all[..|acc| + 1][..|acc|];
      assert outs[0] == first && outs[1..] == all[|acc| + 1..];
      var after := OutsBytes(outs[1..]) + rest;
      assert OutsBytes(outs) + rest == OutBytes(first) + after;
      if s == OutsBytes(outs) + rest {
        OutThenRest(first, after);
      }
    }
  }

  // ---- transactions ----

  predicate ShortestOutputs(s: seq<byte>) {
    Shortest(s) && ShortestOuts(ParseVarInt(s).rest, ParseVarInt(s).value)
  }

  predicate ShortestInputs(s: seq<byte>) {
    && Shortest(s)
    && var (count, s1) := (ParseVarInt(s).value, ParseVarInt(s).rest);
    && ShortestIns(s1, count)
    && ParseIns(s1, count, []).Got?
    && ShortestOutputs(ParseIns(s1, count, []).rest)
  }

  /** Both counts and every script length are written in their shortest form. */
  predicate ShortestTx(s: seq<byte>) {
    |s| >= 4 && ShortestInputs(s[4..])
  }

  lemma OutputsCanonical(s: seq<byte>, version: int32, txIn: seq<TxIn>, tx: MsgTx, rest: seq<byte>)
    requires ParseTxOutputs(s, version, txIn) == Got(tx, rest) && |s| <= MAX_INT64
    ensures tx.version == version && tx.txIn == txIn && |tx.txOut| <= MAX_INT64
    ensures forall i :: 0 <= i < |tx.txOut| ==> |tx.txOut[i].pkScript| <= MAX_INT64
    ensures
      var encoded := VarInt(|tx.txOut|) + (OutsBytes(tx.txOut) + (LE(tx.lockTime, 4) + rest));
      |encoded| <= |s| && (s == encoded <==> ShortestOutputs(s))
  {
    hide ParseVarInt, ParseOuts, ParseUint32, Shortest, ShortestOuts, OutsBytes, VarInt, LE;
    var count, s1 := ParseVarInt(s).value, ParseVarInt(s).rest;
    var s2 := ParseOuts(s1, count, []).rest;
    VarIntCanonical(s, count, s1);
    OutsCanonical(s1, count, [], tx.txOut, s2);
    assert tx.txOut[0..] == tx.txOut;
    Uint32Canonical(s2, tx.lockTime, rest);
    if s == VarInt(|tx.txOut|) + (OutsBytes(tx.txOut) + s2) {
      VarIntThenRest(|tx.txOut|, OutsBytes(tx.txOut) + s2);
    }
  }

  lemma InputsCanonical(s: seq<byte>, version: int32, tx: MsgTx, rest: seq<byte>)
    requires ParseTxInputs(s, version) == Got(tx, rest) && |s| <= MAX_INT64
    ensures tx.version == version && Fits(tx)
    ensures
      var encoded := VarInt(|tx.txIn|) + (InsBytes(tx.txIn) +
        (VarInt(|tx.txOut|) + (OutsBytes(tx.txOut) + (LE(tx.lockTime, 4) + rest))));
      |encoded| <= |s| && (s == encoded <==> ShortestInputs(s))
  {
    hide ParseVarInt, ParseIns, ParseTxOutputs, Shortest, ShortestIns, ShortestOutputs, InsBytes, OutsBytes, VarInt, LE;
    var count, s1 := ParseVarInt(s).value, ParseVarInt(s).rest;
    var txIn, s2 := ParseIns(s1, count, []).value, ParseIns(s1, count, []).rest;
    VarIntCanonical(s, count, s1);
    InsCanonical(s1, count, [], txIn, s2);
    OutputsCanonical(s2, version, txIn, tx, rest);
    assert txIn[0..] == txIn;
    var after := VarInt(|tx.txOut|) + (OutsBytes(tx.txOut) + (LE(tx.lockTime, 4) + rest));
    if s == VarInt(|tx.txIn|) + (InsBytes(tx.txIn) + after) {
      VarIntThenRest(|tx.txIn|, InsBytes(tx.txIn) + after);
      InsThenRest(tx.txIn, after, []);
      assert [] + tx.txIn == tx.txIn;
    }
  }

  /** A string that decodes to a transaction is its encoding exactly when every integer in it is shortest. */
  lemma TxCanonical(s: seq<byte>, tx: MsgTx)
    requires ParseTx(s) == Some(tx) && |s| <= MAX_INT64
    ensures Fits(tx)
    ensures |TxBytes(tx)| <= |s|
    ensures TxBytes(tx) == s <==> ShortestTx(s)
  {
    hide ParseUint32, ParseTxInputs, ShortestInputs, InsBytes, OutsBytes, VarInt, LE;
    var version, s1 := ParseUint32(s).value, ParseUint32(s).rest;
    Uint32Canonical(s, version, s1);
    InputsCanonical(s1, Signed32(version), tx, []);
    assert Unsigned32(tx.version) == version;
    TxBytesInOrder(tx);
    var before := LE(version, 4);
    assert s[4..] == s1;
    SameTail(before, s1, VarInt(|tx.txIn|) + (InsBytes(tx.txIn) +
      (VarInt(|tx.txOut|) + (OutsBytes(tx.txOut) + (LE(tx.lockTime, 4) + [])))));
  }

  // ---- blocks ----

  predicate ShortestTxs(s: seq<byte>, n: nat) {
    n == 0 ||
    match ParseVarBytes(s)
    case Fail => false
    case Got(bytes, rest) => Shortest(s) && ShortestTx(bytes) && ShortestTxs(rest, n - 1)
  }

  /** The transaction count, every transaction's length, and every integer within are shortest. */
  predicate ShortestBlock(s: seq<byte>) {
    && |s| >= HEADER_BYTES
    && Shortest(s[HEADER_BYTES..])
    && ShortestTxs(ParseVarInt(s[HEADER_BYTES..]).rest, ParseVarInt(s[HEADER_BYTES..]).value)
  }

  lemma ParsedTxs(s: seq<byte>, n: nat, acc: seq<MsgTx>)
    requires n > 0 && ParseTxs(s, n, acc).Got?
    ensures
      && ParseVarBytes(s).Got?
      && ParseTx(ParseVarBytes(s).value).Some?
      && ParseTxs(s, n, acc) == ParseTxs(ParseVarBytes(s).rest, n - 1, acc + [ParseTx(ParseVarBytes(s).value).value])
  {
    hide ParseVarBytes, ParseTx;
  }

  ghost predicate TxsFit(txs: seq<MsgTx>) {
    forall i :: 0 <= i < |txs| ==> Fits(txs[i]) && |TxBytes(txs[i])| <= MAX_INT64
  }

  lemma TxsFitCons(tx: MsgTx, rest: seq<MsgTx>)
    requires Fits(tx) && |TxBytes(tx)| <= MAX_INT64 && TxsFit(rest)
    ensures TxsFit([tx] + rest) && TxsBytes([tx] + rest) == VarBytes(TxBytes(tx)) + TxsBytes(rest)
  {
    hide Fits, TxBytes, VarBytes;
    assert ([tx] + rest)[1..] == rest;
  }

  lemma OneTxCanonical(s: seq<byte>, bytes: seq<byte>, tx: MsgTx, rest: seq<byte>)
    requires ParseVarBytes(s) == Got(bytes, rest) && ParseTx(bytes) == Some(tx) && |s| <= MAX_INT64
    ensures Fits(tx) && |TxBytes(tx)| <= MAX_INT64 && |VarBytes(TxBytes(tx))| + |rest| <= |s| && |rest| < |s|
    ensures s == VarBytes(TxBytes(tx)) + rest <==> Shortest(s) && ShortestTx(bytes)
  {
    hide ParseVarBytes, ParseTx, Shortest, ShortestTx, Fits, TxBytes, VarBytes;
    VarBytesCanonical(s, bytes, rest);
    TxCanonical(bytes, tx);
    LongerBytes(TxBytes(tx), bytes);
    if s == VarBytes(TxBytes(tx)) + rest {
      VarBytesThenRest(TxBytes(tx), rest);
    }
  }

  lemma LongerBytes(a: seq<byte>, b: seq<byte>)
    requires |a| <= |b| <= MAX_INT64
    ensures |VarBytes(a)| <= |VarBytes(b)|
  {
  }

  lemma {:induction false} TxsCanonical(s: seq<byte>, n: nat, acc: seq<MsgTx>, all: seq<MsgTx>, rest: seq<byte>)
    requires ParseTxs(s, n, acc) == Got(all, rest) && |s| <= MAX_INT64
    ensures |all| == |acc| + n && all[..|acc|] == acc && n + |rest| <= |s| && TxsFit(all[|acc|..])
    ensures s == TxsBytes(all[|acc|..]) + rest <==> ShortestTxs(s, n)
    decreases n
  {
    hide ParseVarBytes, ParseTx, VarBytes, TxBytes, Shortest, ShortestTx, Fits;
    if n == 0 {
      assert all[|acc|..] == [] && TxsBytes([]) + rest == rest;
      NoTxs();
    } else {
      ParsedTxs(s, n, acc);
      var bytes, s1 := ParseVarBytes(s).value, ParseVarBytes(s).rest;
      var tx := ParseTx(bytes).value;
      OneTxCanonical(s, bytes, tx, s1);
      TxsCanonical(s1, n - 1, acc + [tx], all, rest);
      var txs := all[|acc|..];
      assert all[..|acc| + 1][|acc|] == tx && all[..|acc|] == all[..|acc| + 1][..|acc|];
      assert txs == [tx] + all[|acc| + 1..];
      TxsFitCons(tx, txs[1..]);
      var after := TxsBytes(txs[1..]) + rest;
      assert TxsBytes(txs) + rest == VarBytes(TxBytes(tx)) + after;
      if s == TxsBytes(txs) + rest {
        VarBytesThenRest(TxBytes(tx), after);
      }
    }
  }

  lemma NoTxs()
    ensures TxsFit([])
  {
  }

  lemma FieldBack(s: seq<byte>, at: nat, k: nat)
    requires at + k <= |s|
    ensures LE(Field(s, at, k), k) == s[at..at + k]
  {
    LEOfFromLE(s[at..at + k]);
  }

  lemma HeaderIdsAgain(s: seq<byte>)
    requires |s| >= HEADER_BYTES
    ensures HeaderIds(HeaderAt(s)) == s[0..100]
  {
    Widths();
    FieldBack(s, 0, 4);
    hide LE, Field;
    assert s[0..100] == s[0..4] + s[4..36] + s[36..68] + s[68..100];
  }

  lemma HeaderStakeAgain(s: seq<byte>)
    requires |s| >= HEADER_BYTES
    ensures HeaderStake(HeaderAt(s)) == s[100..116]
  {
    Widths();
    FieldBack(s, 100, 2);
    FieldBack(s, 108, 2);
    FieldBack(s, 112, 4);
    hide LE, Field;
    assert s[100..116] == s[100..102] + s[102..108] + s[108..110] + [s[110]] + [s[111]] + s[112..116];
  }

  lemma HeaderTargetAgain(s: seq<byte>)
    requires |s| >= HEADER_BYTES
    ensures HeaderTarget(HeaderAt(s)) == s[116..132]
  {
    Widths();
    FieldBack(s, 116, 4);
    FieldBack(s, 120, 8);
    FieldBack(s, 128, 4);
    hide LE, Field;
    assert s[116..132] == s[116..120] + s[120..128] + s[128..132];
  }

  lemma HeaderNonceAgain(s: seq<byte>)
    requires |s| >= HEADER_BYTES
    ensures HeaderNonce(HeaderAt(s)) == s[132..144]
  {
    Widths();
    FieldBack(s, 132, 4);
    FieldBack(s, 136, 4);
    FieldBack(s, 140, 4);
    hide LE, Field;
    assert s[132..144] == s[132..136] + s[136..140] + s[140..144];
  }

  lemma HeaderWorkAgain(s: seq<byte>)
    requires |s| >= HEADER_BYTES
    ensures HeaderWork(HeaderAt(s)) == s[116..144]
  {
    hide HeaderAt, HeaderTarget, HeaderNonce;
    HeaderTargetAgain(s);
    HeaderNonceAgain(s);
    assert s[116..144] == s[116..132] + s[132..144];
  }

  /** A header has no integer of variable length: its 180 bytes always come back. */
  lemma HeaderCanonical(s: seq<byte>)
    requires |s| >= HEADER_BYTES
    ensures HeaderBytes(HeaderAt(s)) == s[..HEADER_BYTES]
  {
    hide HeaderIds, HeaderStake, HeaderWork, HeaderAt, LE, Field;
    HeaderIdsAgain(s);
    HeaderStakeAgain(s);
    HeaderWorkAgain(s);
    HeaderTailAgain(s);
    assert s[..HEADER_BYTES] == s[0..100] + s[100..116] + s[116..144] + s[144..180];
  }

  lemma HeaderTailAgain(s: seq<byte>)
    requires |s| >= HEADER_BYTES
    ensures HeaderAt(s).extraData + LE(HeaderAt(s).stakeVersion, 4) == s[144..180]
  {
    FieldBack(s, 176, 4);
    hide LE, Field;
    assert s[144..180] == s[144..176] + s[176..180];
  }

  /** A string that decodes to a block is its encoding exactly when every integer in it is shortest. */
  lemma BlockCanonical(s: seq<byte>, b: MsgBlock)
    requires ParseBlock(s) == Some(b) && |s| <= MAX_INT64
    ensures b.header.Hashable() && BlockFits(b)
    ensures BlockBytes(b) == s <==> ShortestBlock(s)
  {
    hide ParseVarInt, ParseTxs, HeaderAt, HeaderBytes, VarInt, Shortest, ShortestTxs, TxBytes, Fits;
    var s1 := s[HEADER_BYTES..];
    var count, s2 := ParseVarInt(s1).value, ParseVarInt(s1).rest;
    HeaderCanonical(s);
    VarIntCanonical(s1, count, s2);
    TxsCanonical(s2, count, [], b.transactions, []);
    assert b.transactions[0..] == b.transactions;
    var before := HeaderBytes(b.header);
    assert s == before + s1;
    var encoded := VarInt(count) + TxsBytes(b.transactions);
    assert BlockBytes(b) == before + encoded;
    SameTail(before, s1, encoded);
    assert TxsBytes(b.transactions) + [] == TxsBytes(b.transactions);
    if s1 == encoded {
      VarIntThenRest(count, TxsBytes(b.transactions));
    }
  }
}
