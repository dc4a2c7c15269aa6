/**
 Reading back what was written gives the value written and consumes exactly its bytes. So the
 encodings are injective, and a digest of the encoding without collisions identifies what it hashes.
 */
module WireRoundTrip {
  import opened Ints
  import opened WireTypes
  import opened WireCodec

  lemma SplitAt<T>(a: seq<T>, b: seq<T>)
    ensures (a + b)[..|a|] == a
    ensures (a + b)[|a|..] == b
  {
  }

  lemma UintThenRest(n: nat, k: nat, rest: seq<byte>)
    requires n < Pow(256, k)
    ensures ParseUint(LE(n, k) + rest, k) == Got(n, rest)
  {
    SplitAt(LE(n, k), rest);
    FromLEOfLE(n, k);
  }

  lemma Uint32ThenRest(n: uint32, rest: seq<byte>)
    ensures ParseUint32(LE(n, 4) + rest) == Got(n, rest)
  {
    Widths();
    UintThenRest(n, 4, rest);
  }

  lemma MarkedThenRest(mark: byte, n: nat, k: nat, rest: seq<byte>)
    requires n < Pow(256, k)
    ensures ([mark] + LE(n, k) + rest)[0] == mark
    ensures ParseUint(([mark] + LE(n, k) + rest)[1..], k) == Got(n, rest)
  {
    hide LE, ParseUint, Pow;
    assert ([mark] + LE(n, k) + rest)[1..] == LE(n, k) + rest;
    UintThenRest(n, k, rest);
  }

  lemma VarIntThenRest(n: uint64, rest: seq<byte>)
    ensures ParseVarInt(VarInt(n) + rest) == Got(n, rest)
  {
    hide LE, ParseUint, Pow;
    Widths();
    if n < 0xfd {
      assert ([n] + rest)[1..] == rest;
    } else if n <= 0xffff {
      MarkedThenRest(0xfd, n, 2, rest);
    } else if n <= 0xffff_ffff {
      MarkedThenRest(0xfe, n, 4, rest);
    } else {
      MarkedThenRest(0xff, n, 8, rest);
    }
  }

  lemma VarBytesThenRest(b: seq<byte>, rest: seq<byte>)
    requires |b| <= MAX_INT64
    ensures ParseVarBytes(VarBytes(b) + rest) == Got(b, rest)
  {
    assert VarBytes(b) + rest == VarInt(|b|) + (b + rest);
    VarIntThenRest(|b|, b + rest);
    SplitAt(b, rest);
  }

  lemma InThenRest(i: TxIn, rest: seq<byte>)
    requires |i.signatureScript| <= MAX_INT64
    ensures ParseIn(InBytes(i) + rest) == Got(i, rest)
  {
    var s3 := LE(i.sequence, 4) + rest;
    var s2 := VarBytes(i.signatureScript) + s3;
    var s1 := LE(i.previous.index, 4) + s2;
    assert InBytes(i) + rest == i.previous.hash + s1;
    SplitAt(i.previous.hash, s1);
    Uint32ThenRest(i.previous.index, s2);
    VarBytesThenRest(i.signatureScript, s3);
    Uint32ThenRest(i.sequence, rest);
  }

  lemma OutThenRest(o: TxOut, rest: seq<byte>)
    requires |o.pkScript| <= MAX_INT64
    ensures ParseOut(OutBytes(o) + rest) == Got(o, rest)
  {
    var s1 := VarBytes(o.pkScript) + rest;
    assert OutBytes(o) + rest == LE(Unsigned64(o.value), 8) + s1;
    Widths();
    UintThenRest(Unsigned64(o.value), 8, s1);
    VarBytesThenRest(o.pkScript, rest);
  }

  lemma ParseInsStep(s: seq<byte>, n: nat, acc: seq<TxIn>, x: TxIn, rest: seq<byte>)
    requires n > 0 && ParseIn(s) == Got(x, rest)
    ensures ParseIns(s, n, acc) == ParseIns(rest, n - 1, acc + [x])
  {
    hide ParseIn;
  }

  lemma {:induction false} InsThenRest(ins: seq<TxIn>, rest: seq<byte>, acc: seq<TxIn>)
    requires forall i :: 0 <= i < |ins| ==> |ins[i].signatureScript| <= MAX_INT64
    ensures ParseIns(InsBytes(ins) + rest, |ins|, acc) == Got(acc + ins, rest)
    decreases |ins|
  {
    hide ParseIn, InBytes;
    if ins == [] {
      assert InsBytes(ins) + rest == rest && acc + ins == acc;
    } else {
      var s1 := InsBytes(ins[1..]) + rest;
      assert InsBytes(ins) + rest == InBytes(ins[0]) + s1;
      InThenRest(ins[0], s1);
      InsThenRest(ins[1..], rest, acc + [ins[0]]);
      ParseInsStep(InBytes(ins[0]) + s1, |ins|, acc, ins[0], s1);
      assert acc + [ins[0]] + ins[1..] == acc + ins;
    }
  }

  lemma ParseOutsStep(s: seq<byte>, n: nat, acc: seq<TxOut>, x: TxOut, rest: seq<byte>)
    requires n > 0 && ParseOut(s) == Got(x, rest)
    ensures ParseOuts(s, n, acc) == ParseOuts(rest, n - 1, acc + [x])
  {
    hide ParseOut;
  }

  lemma {:induction false} OutsThenRest(outs: seq<TxOut>, rest: seq<byte>, acc: seq<TxOut>)
    requires forall i :: 0 <= i < |outs| ==> |outs[i].pkScript| <= MAX_INT64
    ensures ParseOuts(OutsBytes(outs) + rest, |outs|, acc) == Got(acc + outs, rest)
    decreases |outs|
  {
    hide ParseOut, OutBytes;
    if outs == [] {
      assert OutsBytes(outs) + rest == rest && acc + outs == acc;
    } else {
      var s1 := OutsBytes(outs[1..]) + rest;
      assert OutsBytes(outs) + rest == OutBytes(outs[0]) + s1;
      OutThenRest(outs[0], s1);
      OutsThenRest(outs[1..], rest, acc + [outs[0]]);
      ParseOutsStep(OutBytes(outs[0]) + s1, |outs|, acc, outs[0], s1);
      assert acc + [outs[0]] + outs[1..] == acc + outs;
    }
  }

  lemma ParseTxOutputsStep(s: seq<byte>, tx: MsgTx, s1: seq<byte>, s2: seq<byte>, rest: seq<byte>)
    requires |tx.txOut| < TWO_64
    requires ParseVarInt(s) == Got(|tx.txOut|, s1)
    requires ParseOuts(s1, |tx.txOut|, []) == Got(tx.txOut, s2)
    requires ParseUint32(s2) == Got(tx.lockTime, rest)
    ensures ParseTxOutputs(s, tx.version, tx.txIn) == Got(tx, rest)
  {
    hide ParseVarInt, ParseOuts, ParseUint32;
  }

  lemma ParseTxInputsStep(s: seq<byte>, tx: MsgTx, s1: seq<byte>, s2: seq<byte>)
    requires |tx.txIn| < TWO_64
    requires ParseVarInt(s) == Got(|tx.txIn|, s1)
    requires ParseIns(s1, |tx.txIn|, []) == Got(tx.txIn, s2)
    ensures ParseTxInputs(s, tx.version) == ParseTxOutputs(s2, tx.version, tx.txIn)
  {
    hide ParseVarInt, ParseIns, ParseTxOutputs;
  }

  lemma ParseTxStep(s: seq<byte>, tx: MsgTx, s1: seq<byte>)
    requires ParseUint32(s) == Got(Unsigned32(tx.version), s1)
    requires ParseTxInputs(s1, tx.version) == Got(tx, [])
    ensures ParseTx(s) == Some(tx)
  {
    hide ParseUint32, ParseTxInputs;
  }

  lemma TxBytesInOrder(tx: MsgTx)
    requires Fits(tx)
    ensures TxBytes(tx) ==
      LE(Unsigned32(tx.version), 4) + (VarInt(|tx.txIn|) + (InsBytes(tx.txIn) +
      (VarInt(|tx.txOut|) + (OutsBytes(tx.txOut) + (LE(tx.lockTime, 4) + [])))))
  {
    hide LE, VarInt, InsBytes, OutsBytes;
  }

  /** DeserializeTx undoes Serialize. */
  lemma TxRoundTrip(tx: MsgTx)
    requires Fits(tx)
    ensures ParseTx(TxBytes(tx)) == Some(tx)
  {
    TxBytesInOrder(tx);
    hide *;
    var s5 := LE(tx.lockTime, 4) + [];
    var s4 := OutsBytes(tx.txOut) + s5;
    var s3 := VarInt(|tx.txOut|) + s4;
    var s2 := InsBytes(tx.txIn) + s3;
    var s1 := VarInt(|tx.txIn|) + s2;
    var s0 := LE(Unsigned32(tx.version), 4) + s1;
    Uint32ThenRest(Unsigned32(tx.version), s1);
    VarIntThenRest(|tx.txIn|, s2);
    InsThenRest(tx.txIn, s3, []);
    VarIntThenRest(|tx.txOut|, s4);
    OutsThenRest(tx.txOut, s5, []);
    Uint32ThenRest(tx.lockTime, []);
    assert [] + tx.txIn == tx.txIn && [] + tx.txOut == tx.txOut;
    ParseTxOutputsStep(s3, tx, s4, s5, []);
    ParseTxInputsStep(s1, tx, s2, s3);
    ParseTxStep(s0, tx, s1);
  }

  lemma SubSlice(s: seq<byte>, base: nat, part: seq<byte>, at: nat, k: nat)
    requires base + |part| <= |s| && at + k <= |part|
    requires s[base..base + |part|] == part
    ensures s[base + at..base + at + k] == part[at..at + k]
  {
    var x, y := s[base + at..base + at + k], part[at..at + k];
    forall i | 0 <= i < k
      ensures x[i] == y[i]
    {
      assert x[i] == s[base + at + i] == s[base..base + |part|][at + i];
    }
    assert x == y;
  }

  lemma FieldOf(s: seq<byte>, base: nat, part: seq<byte>, at: nat, k: nat, n: nat)
    requires n < Pow(256, k)
    requires base + |part| <= |s| && at + k <= |part|
    requires s[base..base + |part|] == part
    requires part[at..at + k] == LE(n, k)
    ensures Field(s, base + at, k) == n
  {
    SubSlice(s, base, part, at, k);
    FromLEOfLE(n, k);
  }

  lemma HeaderIdsFields(s: seq<byte>, h: BlockHeader)
    requires |s| >= HEADER_BYTES && s[0..100] == HeaderIds(h)
    ensures Field(s, 0, 4) == Unsigned32(h.version)
    ensures s[4..36] == h.prevBlock && s[36..68] == h.merkleRoot && s[68..100] == h.stakeRoot
  {
    var part := HeaderIds(h);
    Widths();
    FieldOf(s, 0, part, 0, 4, Unsigned32(h.version));
    SubSlice(s, 0, part, 4, 32);
    SubSlice(s, 0, part, 36, 32);
    SubSlice(s, 0, part, 68, 32);
  }

  lemma HeaderStakeFields(s: seq<byte>, h: BlockHeader)
    requires |s| >= HEADER_BYTES && s[100..116] == HeaderStake(h)
    ensures Field(s, 100, 2) == h.voteBits && s[102..108] == h.finalState && Field(s, 108, 2) == h.voters
    ensures s[110] == h.freshStake && s[111] == h.revocations && Field(s, 112, 4) == h.poolSize
  {
    hide LE, Field;
    var part := HeaderStake(h);
    Widths();
    assert part[0..2] == LE(h.voteBits, 2) && part[8..10] == LE(h.voters, 2) && part[12..16] == LE(h.poolSize, 4);
    FieldOf(s, 100, part, 0, 2, h.voteBits);
    FieldOf(s, 100, part, 8, 2, h.voters);
    FieldOf(s, 100, part, 12, 4, h.poolSize);
    SubSlice(s, 100, part, 2, 6);
    assert s[110] == part[10] && s[111] == part[11];
  }

  lemma HeaderWorkFields(s: seq<byte>, h: BlockHeader)
    requires h.Hashable()
    requires |s| >= HEADER_BYTES && s[116..144] == HeaderWork(h)
    ensures Field(s, 116, 4) == h.bits && Field(s, 120, 8) == Unsigned64(h.sBits)
    ensures Field(s, 128, 4) == h.height && Field(s, 132, 4) == h.size
    ensures Field(s, 136, 4) == h.timestamp && Field(s, 140, 4) == h.nonce
  {
    hide Field, HeaderTarget, HeaderNonce;
    SplitAt(HeaderTarget(h), HeaderNonce(h));
    assert s[116..132] == s[116..144][..16];
    assert s[132..144] == s[116..144][16..];
    HeaderTargetFields(s, h);
    HeaderNonceFields(s, h);
  }

  lemma HeaderTargetFields(s: seq<byte>, h: BlockHeader)
    requires |s| >= HEADER_BYTES && s[116..132] == HeaderTarget(h)
    ensures Field(s, 116, 4) == h.bits && Field(s, 120, 8) == Unsigned64(h.sBits) && Field(s, 128, 4) == h.height
  {
    hide LE, Field;
    Widths();
    var front := HeaderTarget(h);
    assert front[0..4] == LE(h.bits, 4) && front[4..12] == LE(Unsigned64(h.sBits), 8) &&
      front[12..16] == LE(h.height, 4);
    FieldOf(s, 116, front, 0, 4, h.bits);
    FieldOf(s, 116, front, 4, 8, Unsigned64(h.sBits));
    FieldOf(s, 116, front, 12, 4, h.height);
  }

  lemma HeaderNonceFields(s: seq<byte>, h: BlockHeader)
    requires h.Hashable()
    requires |s| >= HEADER_BYTES && s[132..144] == HeaderNonce(h)
    ensures Field(s, 132, 4) == h.size && Field(s, 136, 4) == h.timestamp && Field(s, 140, 4) == h.nonce
  {
    hide LE, Field;
    Widths();
    var back := HeaderNonce(h);
    assert back[0..4] == LE(h.size, 4) && back[4..8] == LE(h.timestamp, 4) && back[8..12] == LE(h.nonce, 4);
    FieldOf(s, 132, back, 0, 4, h.size);
    FieldOf(s, 132, back, 4, 4, h.timestamp);
    FieldOf(s, 132, back, 8, 4, h.nonce);
  }

  lemma HeaderThenRest(h: BlockHeader, rest: seq<byte>)
    requires h.Hashable()
    ensures ParseHeaderPrefix(HeaderBytes(h) + rest) == Got(h, rest)
  {
    hide HeaderIds, HeaderStake, HeaderWork, LE, FromLE;
    var s := HeaderBytes(h) + rest;
    var tail := h.extraData + LE(h.stakeVersion, 4);
    assert s == HeaderIds(h) + (HeaderStake(h) + (HeaderWork(h) + (tail + rest)));
    assert s[0..100] == HeaderIds(h) && s[100..116] == HeaderStake(h) && s[116..144] == HeaderWork(h);
    assert s[144..180] == tail && s[HEADER_BYTES..] == rest;
    HeaderIdsFields(s, h);
    HeaderStakeFields(s, h);
    HeaderWorkFields(s, h);
    Widths();
    FieldOf(s, 144, tail, 32, 4, h.stakeVersion);
    assert s[144..176] == tail[..32] == h.extraData;
  }

  /** DeserializeBlockHeader undoes Serialize for every header that serializes. */
  lemma HeaderRoundTrip(h: BlockHeader)
    requires h.Hashable()
    ensures ParseHeader(HeaderBytes(h)) == Some(h)
  {
    HeaderThenRest(h, []);
    assert HeaderBytes(h) + [] == HeaderBytes(h);
  }

  lemma ParseTxsStep(s: seq<byte>, n: nat, acc: seq<MsgTx>, bytes: seq<byte>, x: MsgTx, rest: seq<byte>)
    requires n > 0 && ParseVarBytes(s) == Got(bytes, rest) && ParseTx(bytes) == Some(x)
    ensures ParseTxs(s, n, acc) == ParseTxs(rest, n - 1, acc + [x])
  {
    hide ParseVarBytes, ParseTx;
  }

  lemma {:induction false} TxsThenRest(txs: seq<MsgTx>, rest: seq<byte>, acc: seq<MsgTx>)
    requires forall i :: 0 <= i < |txs| ==> Fits(txs[i]) && |TxBytes(txs[i])| <= MAX_INT64
    ensures ParseTxs(TxsBytes(txs) + rest, |txs|, acc) == Got(acc + txs, rest)
    decreases |txs|
  {
    hide TxBytes, VarBytes, ParseVarBytes, ParseTx, Fits;
    if txs == [] {
      assert TxsBytes(txs) + rest == rest && acc + txs == acc;
    } else {
      var bytes := TxBytes(txs[0]);
      var s1 := TxsBytes(txs[1..]) + rest;
      assert TxsBytes(txs) + rest == VarBytes(bytes) + s1;
      VarBytesThenRest(bytes, s1);
      TxRoundTrip(txs[0]);
      TxsThenRest(txs[1..], rest, acc + [txs[0]]);
      ParseTxsStep(VarBytes(bytes) + s1, |txs|, acc, bytes, txs[0], s1);
      assert acc + [txs[0]] + txs[1..] == acc + txs;
    }
  }

  lemma ParseBlockTxsStep(s: seq<byte>, b: MsgBlock, s1: seq<byte>)
    requires |b.transactions| < TWO_64
    requires ParseVarInt(s) == Got(|b.transactions|, s1)
    requires ParseTxs(s1, |b.transactions|, []) == Got(b.transactions, [])
    ensures ParseBlockTxs(s, b.header) == Some(b)
  {
    hide ParseVarInt, ParseTxs;
  }

  /** DeserializeBlock undoes Serialize, whatever the nesting and the widths of the counts. */
  lemma BlockRoundTrip(b: MsgBlock)
    requires b.header.Hashable() && BlockFits(b)
    ensures ParseBlock(BlockBytes(b)) == Some(b)
  {
    hide HeaderBytes, VarInt, TxsBytes, ParseHeaderPrefix, ParseVarInt, ParseTxs, ParseBlockTxs, Fits;
    var s2 := TxsBytes(b.transactions);
    var s1 := VarInt(|b.transactions|) + s2;
    BlockBytesSplit(b);
    HeaderThenRest(b.header, s1);
    VarIntThenRest(|b.transactions|, s2);
    AllTxsParse(b.transactions);
    ParseBlockTxsStep(s1, b, s2);
  }

  lemma BlockBytesSplit(b: MsgBlock)
    requires b.header.Hashable() && BlockFits(b)
    ensures BlockBytes(b) == HeaderBytes(b.header) + (VarInt(|b.transactions|) + TxsBytes(b.transactions))
  {
    hide HeaderBytes, VarInt, TxsBytes, Fits;
  }

  lemma AllTxsParse(txs: seq<MsgTx>)
    requires forall i :: 0 <= i < |txs| ==> Fits(txs[i]) && |TxBytes(txs[i])| <= MAX_INT64
    ensures ParseTxs(TxsBytes(txs), |txs|, []) == Got(txs, [])
  {
    hide Fits, TxBytes, TxsBytes, ParseTxs;
    TxsThenRest(txs, [], []);
    assert [] + txs == txs && TxsBytes(txs) + [] == TxsBytes(txs);
  }

  /** Different blocks have different encodings. */
  lemma BlockBytesInjective(a: MsgBlock, b: MsgBlock)
    requires a.header.Hashable() && BlockFits(a) && b.header.Hashable() && BlockFits(b)
    ensures BlockBytes(a) == BlockBytes(b) <==> a == b
  {
    BlockRoundTrip(a);
    BlockRoundTrip(b);
  }

  /**
   The reader accepts encodings that the writer never produces, so encode-after-decode is not the
   identity: the count 0 may also stand in three bytes.
   */
  lemma NonMinimalVarIntAccepted()
    ensures ParseVarInt([0xfd, 0, 0]) == Got(0, [])
    ensures VarInt(0) != [0xfd, 0, 0]
  {
    assert [0xfd, 0, 0][1..] == LE(0, 2) + [] by {
      assert LE(0, 2) == [0] + LE(0, 1) == [0] + ([0] + LE(0, 0));
    }
    Widths();
    UintThenRest(0, 2, []);
  }

  function TxDigest(digest: seq<byte> -> Hash, tx: MsgTx): Hash {
    if Fits(tx) then digest(TxBytes(tx)) else ZERO_HASH
  }

  function HeaderDigest(digest: seq<byte> -> Hash, h: BlockHeader): Hash {
    if h.Hashable() then digest(HeaderBytes(h)) else ZERO_HASH
  }

  /** Hashing as the node does it: one digest over the encoding of the transaction, header or pair. */
  function ByDigest(digest: seq<byte> -> Hash, verify: (MsgTx, nat, seq<byte>) -> bool): Crypto {
    Crypto(
      (tx: MsgTx) => TxDigest(digest, tx),
      (h: BlockHeader) => HeaderDigest(digest, h),
      (l: Hash, r: Hash) => digest(l + r),
      verify)
  }

  /** The digest gives two different byte strings the same hash. */
  predicate Collide(digest: seq<byte> -> Hash, a: seq<byte>, b: seq<byte>) {
    a != b && digest(a) == digest(b)
  }

  /** Two headers share a hash exactly when they are equal, or their encodings are two byte strings that collide. */
  lemma SharedHeaderHash(digest: seq<byte> -> Hash, verify: (MsgTx, nat, seq<byte>) -> bool, a: BlockHeader,
        b: BlockHeader)
    requires a.Hashable() && b.Hashable()
    ensures
      var c := ByDigest(digest, verify);
      c.headerHash(a) == c.headerHash(b) <==> a == b || Collide(digest, HeaderBytes(a), HeaderBytes(b))
  {
    HeaderRoundTrip(a);
    HeaderRoundTrip(b);
  }

  /** The same for transactions of any shape. */
  lemma SharedTxHash(digest: seq<byte> -> Hash, verify: (MsgTx, nat, seq<byte>) -> bool, s: MsgTx, t: MsgTx)
    requires Fits(s) && Fits(t)
    ensures
      var c := ByDigest(digest, verify);
      c.txHash(s) == c.txHash(t) <==> s == t || Collide(digest, TxBytes(s), TxBytes(t))
  {
    TxRoundTrip(s);
    TxRoundTrip(t);
  }

  /** And for the pairs of a merkle tree. */
  lemma SharedPairHash(digest: seq<byte> -> Hash, verify: (MsgTx, nat, seq<byte>) -> bool, a: (Hash, Hash),
        b: (Hash, Hash))
    ensures
      var c := ByDigest(digest, verify);
      c.pairHash(a.0, a.1) == c.pairHash(b.0, b.1) <==> a == b || Collide(digest, a.0 + a.1, b.0 + b.1)
  {
    if a.0 + a.1 == b.0 + b.1 {
      assert a.0 == (a.0 + a.1)[..32] && a.1 == (a.0 + a.1)[32..];
      assert b.0 == (b.0 + b.1)[..32] && b.1 == (b.0 + b.1)[32..];
    }
  }
}
