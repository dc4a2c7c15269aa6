/** Blocks and transactions as `internal/wire` declares them. */
module WireTypes {
  import opened Ints

  function Zeros(n: nat): (z: seq<byte>)
    ensures |z| == n
    ensures forall i :: 0 <= i < n ==> z[i] == 0
  {
    if n == 0 then [] else [0] + Zeros(n - 1)
  }

  type Hash = h: seq<byte> | |h| == 32 witness Zeros(32)
  type Bytes32 = h: seq<byte> | |h| == 32 witness Zeros(32)
  type Bytes6 = h: seq<byte> | |h| == 6 witness Zeros(6)

  const ZERO_HASH: Hash := Zeros(32)

  datatype OutPoint = OutPoint(hash: Hash, index: uint32)

  datatype TxIn = TxIn(previous: OutPoint, signatureScript: seq<byte>, sequence: uint32)

  datatype TxOut = TxOut(value: int64, pkScript: seq<byte>)

  datatype MsgTx = MsgTx(version: int32, txIn: seq<TxIn>, txOut: seq<TxOut>, lockTime: uint32) {
    predicate IsCoinbase() {
      && |txIn| == 1
      && txIn[0].previous.hash == ZERO_HASH
      && txIn[0].previous.index == MAX_UINT32
    }
  }

  datatype BlockHeader = BlockHeader(
    version: int32,
    prevBlock: Hash,
    merkleRoot: Hash,
    stakeRoot: Hash,
    voteBits: uint16,
    finalState: Bytes6,
    voters: uint16,
    freshStake: byte,
    revocations: byte,
    poolSize: uint32,
    bits: uint32,
    sBits: int64,
    height: uint32,
    size: uint32,
    timestamp: int64,
    nonce: uint32,
    extraData: Bytes32,
    stakeVersion: uint32)
  {
    /** A header serializes, and so has a hash, only when its time fits the 32-bit field. */
    predicate Hashable() {
      0 <= timestamp <= MAX_UINT32
    }
  }

  datatype MsgBlock = MsgBlock(header: BlockHeader, transactions: seq<MsgTx>)

  /** The hash functions and the signature check, which stay uninterpreted. */
  datatype Crypto = Crypto(
    txHash: MsgTx -> Hash,
    headerHash: BlockHeader -> Hash,
    pairHash: (Hash, Hash) -> Hash,
    verify: (MsgTx, nat, seq<byte>) -> bool)
}
