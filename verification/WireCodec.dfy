/**
 The byte format of transactions, headers and blocks: what each value is written as, and what a
 reader makes of an arbitrary byte string. The methods that write and read are in `WireIO`.
 */
module WireCodec {
  import opened Ints
  import opened WireTypes

  /** What is left to read after a value, or a failure. */
  datatype Parsed<+T> = Fail | Got(value: T, rest: seq<byte>)

  const HEADER_BYTES := 180

  // ---- integers ----

  function LE(n: nat, k: nat): (s: seq<byte>)
    ensures |s| == k
  {
    if k == 0 then [] else [n % 256] + LE(n / 256, k - 1)
  }

  function FromLE(s: seq<byte>): (n: nat)
    ensures n < Pow(256, |s|)
  {
    if s == [] then 0 else s[0] + 256 * FromLE(s[1..])
  }

  lemma {:induction false} FromLEOfLE(n: nat, k: nat)
    requires n < Pow(256, k)
    ensures FromLE(LE(n, k)) == n
  {
    if k > 0 {
      assert n / 256 < Pow(256, k - 1);
      FromLEOfLE(n / 256, k - 1);
      assert LE(n, k)[1..] == LE(n / 256, k - 1);
    }
  }

  lemma Widths()
    ensures Pow(256, 1) == 0x100 && Pow(256, 2) == 0x1_0000
    ensures Pow(256, 4) == TWO_32 && Pow(256, 8) == TWO_64
  {
    assert Pow(256, 4) == 256 * (256 * Pow(256, 2));
    assert Pow(256, 6) == 256 * (256 * Pow(256, 4));
    assert Pow(256, 8) == 256 * (256 * Pow(256, 6));
  }

  function Unsigned32(v: int32): uint32 {
    if v >= 0 then v else v + TWO_32
  }

  function Signed32(u: uint32): int32 {
    if u < 0x8000_0000 then u else u - TWO_32
  }

  function Unsigned64(v: int64): uint64 {
    if v >= 0 then v else v + TWO_64
  }

  function Signed64(u: uint64): int64 {
    if u <= MAX_INT64 then u else u - TWO_64
  }

  function ParseBytes(s: seq<byte>, k: nat): Parsed<seq<byte>> {
    if |s| < k then Fail else Got(s[..k], s[k..])
  }

  function ParseUint(s: seq<byte>, k: nat): (r: Parsed<nat>)
    ensures r.Got? ==> r.value < Pow(256, k)
  {
    if |s| < k then Fail else Got(FromLE(s[..k]), s[k..])
  }

  function ParseUint32(s: seq<byte>): Parsed<uint32> {
    Widths();
    match ParseUint(s, 4)
    case Fail => Fail
    case Got(n, rest) => Got(n, rest)
  }

  function ParseUint64(s: seq<byte>): Parsed<uint64> {
    Widths();
    match ParseUint(s, 8)
    case Fail => Fail
    case Got(n, rest) => Got(n, rest)
  }

  // ---- variable-length integers and byte strings ----

  function VarInt(n: uint64): seq<byte> {
    if n < 0xfd then [n]
    else if n <= 0xffff then [0xfd] + LE(n, 2)
    else if n <= 0xffff_ffff then [0xfe] + LE(n, 4)
    else [0xff] + LE(n, 8)
  }

  function ParseVarInt(s: seq<byte>): Parsed<uint64> {
    Widths();
    if s == [] then Fail
    else if s[0] < 0xfd then Got(s[0], s[1..])
    else
      match ParseUint(s[1..], if s[0] == 0xfd then 2 else if s[0] == 0xfe then 4 else 8)
      case Fail => Fail
      case Got(n, rest) => Got(n, rest)
  }

  function VarBytes(b: seq<byte>): seq<byte>
    requires |b| < TWO_64
  {
    VarInt(|b|) + b
  }

  function ParseVarBytes(s: seq<byte>): Parsed<seq<byte>> {
    match ParseVarInt(s)
    case Fail => Fail
    case Got(n, rest) => ParseBytes(rest, n)
  }

  // ---- transactions ----

  /** Lengths that a Go slice can have. */
  predicate Fits(tx: MsgTx) {
    && |tx.txIn| <= MAX_INT64
    && |tx.txOut| <= MAX_INT64
    && (forall i :: 0 <= i < |tx.txIn| ==> |tx.txIn[i].signatureScript| <= MAX_INT64)
    && (forall i :: 0 <= i < |tx.txOut| ==> |tx.txOut[i].pkScript| <= MAX_INT64)
  }

  function InBytes(i: TxIn): seq<byte>
    requires |i.signatureScript| <= MAX_INT64
  {
    i.previous.hash + LE(i.previous.index, 4) + VarBytes(i.signatureScript) + LE(i.sequence, 4)
  }

  function OutBytes(o: TxOut): seq<byte>
    requires |o.pkScript| <= MAX_INT64
  {
    LE(Unsigned64(o.value), 8) + VarBytes(o.pkScript)
  }

  function InsBytes(ins: seq<TxIn>): seq<byte>
    requires forall i :: 0 <= i < |ins| ==> |ins[i].signatureScript| <= MAX_INT64
  {
    if ins == [] then [] else InBytes(ins[0]) + InsBytes(ins[1..])
  }

  function OutsBytes(outs: seq<TxOut>): seq<byte>
    requires forall i :: 0 <= i < |outs| ==> |outs[i].pkScript| <= MAX_INT64
  {
    if outs == [] then [] else OutBytes(outs[0]) + OutsBytes(outs[1..])
  }

  function TxBytes(tx: MsgTx): seq<byte>
    requires Fits(tx)
  {
    LE(Unsigned32(tx.version), 4)
    + VarInt(|tx.txIn|) + InsBytes(tx.txIn)
    + VarInt(|tx.txOut|) + OutsBytes(tx.txOut)
    + LE(tx.lockTime, 4)
  }

  function ParseIn(s: seq<byte>): Parsed<TxIn> {
    match ParseBytes(s, 32)
    case Fail => Fail
    case Got(hash, s1) =>
      match ParseUint32(s1)
      case Fail => Fail
      case Got(index, s2) =>
        match ParseVarBytes(s2)
        case Fail => Fail
        case Got(script, s3) =>
          match ParseUint32(s3)
          case Fail => Fail
          case Got(sequence, s4) => Got(TxIn(OutPoint(hash, index), script, sequence), s4)
  }

  function ParseOut(s: seq<byte>): Parsed<TxOut> {
    match ParseUint64(s)
    case Fail => Fail
    case Got(value, s1) =>
      match ParseVarBytes(s1)
      case Fail => Fail
      case Got(script, s2) => Got(TxOut(Signed64(value), script), s2)
  }

  function ParseIns(s: seq<byte>, n: nat, acc: seq<TxIn>): Parsed<seq<TxIn>>
    decreases n
  {
    if n == 0 then Got(acc, s)
    else
      match ParseIn(s)
      case Fail => Fail
      case Got(i, rest) => ParseIns(rest, n - 1, acc + [i])
  }

  function ParseOuts(s: seq<byte>, n: nat, acc: seq<TxOut>): Parsed<seq<TxOut>>
    decreases n
  {
    if n == 0 then Got(acc, s)
    else
      match ParseOut(s)
      case Fail => Fail
      case Got(o, rest) => ParseOuts(rest, n - 1, acc + [o])
  }

  function ParseTxLockTime(s: seq<byte>, version: int32, txIn: seq<TxIn>, txOut: seq<TxOut>): Parsed<MsgTx> {
    match ParseUint32(s)
    case Fail => Fail
    case Got(lockTime, rest) => Got(MsgTx(version, txIn, txOut, lockTime), rest)
  }

  function ParseTxOutputs(s: seq<byte>, version: int32, txIn: seq<TxIn>): Parsed<MsgTx> {
    match ParseVarInt(s)
    case Fail => Fail
    case Got(count, s1) =>
      match ParseOuts(s1, count, [])
      case Fail => Fail
      case Got(txOut, rest) => ParseTxLockTime(rest, version, txIn, txOut)
  }

  function ParseTxInputs(s: seq<byte>, version: int32): Parsed<MsgTx> {
    match ParseVarInt(s)
    case Fail => Fail
    case Got(count, s1) =>
      match ParseIns(s1, count, [])
      case Fail => Fail
      case Got(txIn, rest) => ParseTxOutputs(rest, version, txIn)
  }

  /** A transaction at the front of `s`, before the check that nothing follows it. */
  function ParseTxPrefix(s: seq<byte>): Parsed<MsgTx> {
    match ParseUint32(s)
    case Fail => Fail
    case Got(version, rest) => ParseTxInputs(rest, Signed32(version))
  }

  function ParseTx(s: seq<byte>): Option<MsgTx> {
    match ParseTxPrefix(s)
    case Fail => None
    case Got(tx, rest) => if rest == [] then Some(tx) else None
  }

  // ---- headers ----

  function HeaderIds(h: BlockHeader): (s: seq<byte>)
    ensures |s| == 100
  {
    LE(Unsigned32(h.version), 4) + h.prevBlock + h.merkleRoot + h.stakeRoot
  }

  function HeaderStake(h: BlockHeader): (s: seq<byte>)
    ensures |s| == 16
  {
    LE(h.voteBits, 2) + h.finalState + LE(h.voters, 2) + [h.freshStake] + [h.revocations] + LE(h.poolSize, 4)
  }

  function HeaderTarget(h: BlockHeader): (s: seq<byte>)
    ensures |s| == 16
  {
    LE(h.bits, 4) + LE(Unsigned64(h.sBits), 8) + LE(h.height, 4)
  }

  function HeaderNonce(h: BlockHeader): (s: seq<byte>)
    requires h.Hashable()
    ensures |s| == 12
  {
    LE(h.size, 4) + LE(h.timestamp, 4) + LE(h.nonce, 4)
  }

  function HeaderWork(h: BlockHeader): (s: seq<byte>)
    requires h.Hashable()
    ensures |s| == 28
  {
    HeaderTarget(h) + HeaderNonce(h)
  }

  function HeaderBytes(h: BlockHeader): (s: seq<byte>)
    requires h.Hashable()
    ensures |s| == HEADER_BYTES
  {
    HeaderIds(h) + HeaderStake(h) + HeaderWork(h) + (h.extraData + LE(h.stakeVersion, 4))
  }

  function Field(s: seq<byte>, from: nat, k: nat): (n: nat)
    requires from + k <= |s|
    ensures n < Pow(256, k)
  {
    FromLE(s[from..from + k])
  }

  /** The header whose fields stand at their fixed places in the first 180 bytes. */
  function HeaderAt(s: seq<byte>): (h: BlockHeader)
    requires |s| >= HEADER_BYTES
    ensures h.Hashable()
  {
    Widths();
    BlockHeader(
      Signed32(Field(s, 0, 4)), s[4..36], s[36..68], s[68..100],
      Field(s, 100, 2), s[102..108], Field(s, 108, 2), s[110], s[111], Field(s, 112, 4),
      Field(s, 116, 4), Signed64(Field(s, 120, 8)), Field(s, 128, 4), Field(s, 132, 4),
      Field(s, 136, 4), Field(s, 140, 4), s[144..176], Field(s, 176, 4))
  }

  function ParseHeaderPrefix(s: seq<byte>): Parsed<BlockHeader> {
    if |s| < HEADER_BYTES then Fail else Got(HeaderAt(s), s[HEADER_BYTES..])
  }

  function ParseHeader(s: seq<byte>): Option<BlockHeader> {
    match ParseHeaderPrefix(s)
    case Fail => None
    case Got(h, rest) => if rest == [] then Some(h) else None
  }

  // ---- blocks ----

  predicate BlockFits(b: MsgBlock) {
    && |b.transactions| <= MAX_INT64
    && forall i :: 0 <= i < |b.transactions| ==>
      Fits(b.transactions[i]) && |TxBytes(b.transactions[i])| <= MAX_INT64
  }

  function TxsBytes(txs: seq<MsgTx>): seq<byte>
    requires forall i :: 0 <= i < |txs| ==> Fits(txs[i]) && |TxBytes(txs[i])| <= MAX_INT64
  {
    if txs == [] then [] else VarBytes(TxBytes(txs[0])) + TxsBytes(txs[1..])
  }

  function BlockBytes(b: MsgBlock): seq<byte>
    requires b.header.Hashable() && BlockFits(b)
  {
    HeaderBytes(b.header) + VarInt(|b.transactions|) + TxsBytes(b.transactions)
  }

  function ParseTxs(s: seq<byte>, n: nat, acc: seq<MsgTx>): Parsed<seq<MsgTx>>
    decreases n
  {
    if n == 0 then Got(acc, s)
    else
      match ParseVarBytes(s)
      case Fail => Fail
      case Got(bytes, rest) =>
        match ParseTx(bytes)
        case None => Fail
        case Some(tx) => ParseTxs(rest, n - 1, acc + [tx])
  }

  function ParseBlockTxs(s: seq<byte>, header: BlockHeader): Option<MsgBlock> {
    match ParseVarInt(s)
    case Fail => None
    case Got(count, s1) =>
      match ParseTxs(s1, count, [])
      case Fail => None
      case Got(txs, rest) => if rest == [] then Some(MsgBlock(header, txs)) else None
  }

  function ParseBlock(s: seq<byte>): Option<MsgBlock> {
    match ParseHeaderPrefix(s)
    case Fail => None
    case Got(header, rest) => ParseBlockTxs(rest, header)
  }
}
