/** The writers and readers of `internal/wire`, proved to implement the byte format of `WireCodec`. */
module WireIO {
  import opened Ints
  import opened WireTypes
  import opened WireCodec

  // ---- writing ----

  method WriteVarInt(val: uint64) returns (buf: seq<byte>)
    ensures buf == VarInt(val)
  {
    if val < 0xfd {
      buf := [val];
    } else if val <= 0xffff {
      buf := [0xfd];
      buf := buf + LE(val, 2);
    } else if val <= 0xffff_ffff {
      buf := [0xfe];
      buf := buf + LE(val, 4);
    } else {
      buf := [0xff];
      buf := buf + LE(val, 8);
    }
  }

  lemma {:induction false} InsBytesSnoc(ins: seq<TxIn>, i: TxIn)
    requires forall k :: 0 <= k < |ins| ==> |ins[k].signatureScript| <= MAX_INT64
    requires |i.signatureScript| <= MAX_INT64
    ensures InsBytes(ins + [i]) == InsBytes(ins) + InBytes(i)
  {
    hide InBytes;
    if ins == [] {
      assert (ins + [i])[1..] == [];
    } else {
      InsBytesSnoc(ins[1..], i);
      assert (ins + [i])[1..] == ins[1..] + [i];
    }
  }

  lemma {:induction false} OutsBytesSnoc(outs: seq<TxOut>, o: TxOut)
    requires forall k :: 0 <= k < |outs| ==> |outs[k].pkScript| <= MAX_INT64
    requires |o.pkScript| <= MAX_INT64
    ensures OutsBytes(outs + [o]) == OutsBytes(outs) + OutBytes(o)
  {
    hide OutBytes;
    if outs == [] {
      assert (outs + [o])[1..] == [];
    } else {
      OutsBytesSnoc(outs[1..], o);
      assert (outs + [o])[1..] == outs[1..] + [o];
    }
  }

  lemma {:induction false} TxsBytesSnoc(txs: seq<MsgTx>, tx: MsgTx)
    requires forall i :: 0 <= i < |txs| ==> Fits(txs[i]) && |TxBytes(txs[i])| <= MAX_INT64
    requires Fits(tx) && |TxBytes(tx)| <= MAX_INT64
    ensures TxsBytes(txs + [tx]) == TxsBytes(txs) + VarBytes(TxBytes(tx))
  {
    hide TxBytes, VarBytes, Fits;
    if txs == [] {
      assert (txs + [tx])[1..] == [];
    } else {
      TxsBytesSnoc(txs[1..], tx);
      assert (txs + [tx])[1..] == txs[1..] + [tx];
    }
  }

  lemma NoBytes()
    ensures InsBytes([]) == [] && OutsBytes([]) == []
  {
  }

  lemma OneMoreIn(ins: seq<TxIn>, i: nat)
    requires i < |ins| && forall k :: 0 <= k < |ins| ==> |ins[k].signatureScript| <= MAX_INT64
    ensures InsBytes(ins[..i + 1]) == InsBytes(ins[..i]) + InBytes(ins[i])
  {
    hide InBytes, InsBytes;
    InsBytesSnoc(ins[..i], ins[i]);
    assert ins[..i + 1] == ins[..i] + [ins[i]];
  }

  lemma OneMoreOut(outs: seq<TxOut>, i: nat)
    requires i < |outs| && forall k :: 0 <= k < |outs| ==> |outs[k].pkScript| <= MAX_INT64
    ensures OutsBytes(outs[..i + 1]) == OutsBytes(outs[..i]) + OutBytes(outs[i])
  {
    hide OutBytes, OutsBytes;
    OutsBytesSnoc(outs[..i], outs[i]);
    assert outs[..i + 1] == outs[..i] + [outs[i]];
  }

  method SerializeTx(tx: MsgTx) returns (buf: seq<byte>)
    requires Fits(tx)
    ensures buf == TxBytes(tx)
  {
    hide LE, InBytes, OutBytes, InsBytes, OutsBytes, VarInt;
    NoBytes();
    buf := LE(Unsigned32(tx.version), 4);
    var count := WriteVarInt(|tx.txIn|);
    buf := buf + count;
    ghost var head := buf;
    assert tx.txIn[..0] == [] && tx.txOut[..0] == [];
    for i := 0 to |tx.txIn|
      invariant buf == head + InsBytes(tx.txIn[..i])
    {
      buf := buf + InBytes(tx.txIn[i]);
      OneMoreIn(tx.txIn, i);
    }
    assert tx.txIn[..|tx.txIn|] == tx.txIn;
    count := WriteVarInt(|tx.txOut|);
    buf := buf + count;
    head := buf;
    for i := 0 to |tx.txOut|
      invariant buf == head + OutsBytes(tx.txOut[..i])
    {
      buf := buf + OutBytes(tx.txOut[i]);
      OneMoreOut(tx.txOut, i);
    }
    assert tx.txOut[..|tx.txOut|] == tx.txOut;
    buf := buf + LE(tx.lockTime, 4);
  }

  /** A header whose time does not fit 32 bits is refused; any other one is written in 180 bytes. */
  method SerializeHeader(h: BlockHeader) returns (r: Option<seq<byte>>)
    ensures r == if h.Hashable() then Some(HeaderBytes(h)) else None
  {
    hide LE;
    if h.timestamp < 0 || h.timestamp > MAX_UINT32 {
      return None;
    }
    var buf := LE(Unsigned32(h.version), 4);
    buf := buf + h.prevBlock;
    buf := buf + h.merkleRoot;
    buf := buf + h.stakeRoot;
    assert buf == HeaderIds(h);
    var stake := LE(h.voteBits, 2);
    stake := stake + h.finalState;
    stake := stake + LE(h.voters, 2);
    stake := stake + [h.freshStake];
    stake := stake + [h.revocations];
    stake := stake + LE(h.poolSize, 4);
    assert stake == HeaderStake(h);
    var work := LE(h.bits, 4);
    work := work + LE(Unsigned64(h.sBits), 8);
    work := work + LE(h.height, 4);
    work := work + LE(h.size, 4);
    work := work + LE(h.timestamp, 4);
    work := work + LE(h.nonce, 4);
    assert work == HeaderWork(h);
    buf := buf + stake + work;
    buf := buf + (h.extraData + LE(h.stakeVersion, 4));
    if |buf| != HEADER_BYTES {
      return None;
    }
    r := Some(buf);
  }

  method SerializeBlock(b: MsgBlock) returns (r: Option<seq<byte>>)
    requires BlockFits(b)
    ensures r == if b.header.Hashable() then Some(BlockBytes(b)) else None
  {
    hide HeaderBytes, TxBytes, VarInt, VarBytes;
    var header := SerializeHeader(b.header);
    if header.None? {
      return None;
    }
    var txs := b.transactions;
    var buf := header.value;
    var count := WriteVarInt(|txs|);
    buf := buf + count;
    ghost var head := buf;
    assert txs[..0] == [];
    for i := 0 to |txs|
      invariant buf == head + TxsBytes(txs[..i])
    {
      var bytes := SerializeTx(txs[i]);
      buf := buf + VarBytes(bytes);
      TxsBytesSnoc(txs[..i], txs[i]);
      assert txs[..i + 1] == txs[..i] + [txs[i]];
    }
    assert txs[..|txs|] == txs;
    r := Some(buf);
  }

  // ---- reading ----

  /** A reader over a byte string; `Rest` is what it has not read yet. */
  class Reader {
    const data: seq<byte>
    var pos: nat

    ghost predicate Valid()
      reads this
    {
      pos <= |data|
    }

    function Rest(): seq<byte>
      reads this
      requires Valid()
    {
      data[pos..]
    }

    constructor (data: seq<byte>)
      ensures Valid() && Rest() == data
    {
      this.data := data;
      this.pos := 0;
    }

    /** Reads exactly `k` bytes or fails; after a failure the position no longer matters. */
    method ReadFull(k: nat) returns (r: Option<seq<byte>>)
      requires Valid()
      modifies this
      ensures Valid()
      ensures r.None? <==> k > |data| - old(pos)
      ensures r.Some? ==> pos == old(pos) + k && r.value == data[old(pos)..pos]
    {
      if k > |data| - pos {
        pos := |data|;
        return None;
      }
      r := Some(data[pos..pos + k]);
      pos := pos + k;
    }

    /** The same two reads, related to the rest of the input. */
    method ReadBytes(k: nat) returns (r: Option<seq<byte>>)
      requires Valid()
      modifies this
      ensures Valid()
      ensures match ParseBytes(old(Rest()), k)
              case Fail => r == None
              case Got(b, rest) => r == Some(b) && Rest() == rest
    {
      r := ReadFull(k);
      if r.Some? {
        SliceOfDrop(data, old(pos), 0, k);
        assert data[pos..] == data[old(pos)..][k..];
      }
    }

    method ReadInteger(k: nat) returns (r: Option<nat>)
      requires Valid()
      modifies this
      ensures Valid()
      ensures match ParseUint(old(Rest()), k)
              case Fail => r == None
              case Got(n, rest) => r == Some(n) && Rest() == rest
    {
      r := ReadUint(k);
      if r.Some? {
        SliceOfDrop(data, old(pos), 0, k);
        assert data[pos..] == data[old(pos)..][k..];
      }
    }

    method ReadUint(k: nat) returns (r: Option<nat>)
      requires Valid()
      modifies this
      ensures Valid()
      ensures r.None? <==> k > |data| - old(pos)
      ensures r.Some? ==> pos == old(pos) + k && r.value == FromLE(data[old(pos)..pos]) < Pow(256, k)
    {
      var b := ReadFull(k);
      r := if b.None? then None else Some(FromLE(b.value));
    }

    method ReadVarInt() returns (r: Option<uint64>)
      requires Valid()
      modifies this
      ensures Valid()
      ensures match ParseVarInt(old(Rest()))
              case Fail => r == None
              case Got(n, rest) => r == Some(n) && Rest() == rest
    {
      Widths();
      hide FromLE;
      var prefix := ReadBytes(1);
      if prefix.None? {
        return None;
      }
      var p := prefix.value[0];
      if p < 0xfd {
        return Some(p);
      }
      var n: Option<nat>;
      if p == 0xfd {
        n := ReadInteger(2);
      } else if p == 0xfe {
        n := ReadInteger(4);
      } else {
        n := ReadInteger(8);
      }
      r := if n.None? then None else Some(n.value);
    }

    method ReadVarBytes() returns (r: Option<seq<byte>>)
      requires Valid()
      modifies this
      ensures Valid()
      ensures match ParseVarBytes(old(Rest()))
              case Fail => r == None
              case Got(b, rest) => r == Some(b) && Rest() == rest
    {
      hide ParseVarInt;
      var length := ReadVarInt();
      if length.None? {
        return None;
      }
      if length.value > |data| - pos {
        return None;
      }
      r := ReadBytes(length.value);
    }

    method ReadTxIn() returns (r: Option<TxIn>)
      requires Valid()
      modifies this
      ensures Valid()
      ensures match ParseIn(old(Rest()))
              case Fail => r == None
              case Got(i, rest) => r == Some(i) && Rest() == rest
    {
      hide ParseVarBytes, FromLE;
      Widths();
      var hash := ReadBytes(32);
      if hash.None? { return None; }
      var index := ReadInteger(4);
      if index.None? { return None; }
      var script := ReadVarBytes();
      if script.None? { return None; }
      var sequence := ReadInteger(4);
      if sequence.None? { return None; }
      r := Some(TxIn(OutPoint(hash.value, index.value), script.value, sequence.value));
    }

    method ReadTxOut() returns (r: Option<TxOut>)
      requires Valid()
      modifies this
      ensures Valid()
      ensures match ParseOut(old(Rest()))
              case Fail => r == None
              case Got(o, rest) => r == Some(o) && Rest() == rest
    {
      hide ParseVarBytes, FromLE;
      Widths();
      var value := ReadInteger(8);
      if value.None? { return None; }
      var script := ReadVarBytes();
      if script.None? { return None; }
      r := Some(TxOut(Signed64(value.value), script.value));
    }

    method ReadTxIns(count: uint64) returns (r: Option<seq<TxIn>>)
      requires Valid()
      modifies this
      ensures Valid()
      ensures match ParseIns(old(Rest()), count, [])
              case Fail => r == None
              case Got(ins, rest) => r == Some(ins) && Rest() == rest
    {
      hide ParseIn;
      var ins := [];
      var i := 0;
      while i < count
        invariant Valid() && i <= count
        invariant ParseIns(Rest(), count - i, ins) == ParseIns(old(Rest()), count, [])
      {
        var one := ReadTxIn();
        if one.None? { return None; }
        ins := ins + [one.value];
        i := i + 1;
      }
      r := Some(ins);
    }

    method ReadTxOuts(count: uint64) returns (r: Option<seq<TxOut>>)
      requires Valid()
      modifies this
      ensures Valid()
      ensures match ParseOuts(old(Rest()), count, [])
              case Fail => r == None
              case Got(outs, rest) => r == Some(outs) && Rest() == rest
    {
      hide ParseOut;
      var outs := [];
      var i := 0;
      while i < count
        invariant Valid() && i <= count
        invariant ParseOuts(Rest(), count - i, outs) == ParseOuts(old(Rest()), count, [])
      {
        var one := ReadTxOut();
        if one.None? { return None; }
        outs := outs + [one.value];
        i := i + 1;
      }
      r := Some(outs);
    }

    /** The version and the three hashes. */
    method ReadHeaderIds() returns (r: Option<(nat, Hash, Hash, Hash)>)
      requires Valid()
      modifies this
      ensures Valid()
      ensures r.None? <==> 100 > |data| - old(pos)
      ensures r.Some? ==>
        && pos == old(pos) + 100
        && r.value.0 == FromLE(data[old(pos)..old(pos) + 4]) < Pow(256, 4)
        && r.value.1 == data[old(pos) + 4..old(pos) + 36]
        && r.value.2 == data[old(pos) + 36..old(pos) + 68]
        && r.value.3 == data[old(pos) + 68..old(pos) + 100]
    {
      hide FromLE, Pow;
      var version := ReadUint(4);
      if version.None? { return None; }
      var prevBlock := ReadFull(32);
      if prevBlock.None? { return None; }
      var merkleRoot := ReadFull(32);
      if merkleRoot.None? { return None; }
      var stakeRoot := ReadFull(32);
      if stakeRoot.None? { return None; }
      r := Some((version.value, prevBlock.value, merkleRoot.value, stakeRoot.value));
    }

    /** The six fields that proof-of-stake chains used. */
    method ReadHeaderStake() returns (r: Option<(nat, Bytes6, nat, byte, byte, nat)>)
      requires Valid()
      modifies this
      ensures Valid()
      ensures r.None? <==> 16 > |data| - old(pos)
      ensures r.Some? ==>
        && pos == old(pos) + 16
        && r.value.0 == FromLE(data[old(pos)..old(pos) + 2]) < Pow(256, 2)
        && r.value.1 == data[old(pos) + 2..old(pos) + 8]
        && r.value.2 == FromLE(data[old(pos) + 8..old(pos) + 10]) < Pow(256, 2)
        && r.value.3 == data[old(pos) + 10]
        && r.value.4 == data[old(pos) + 11]
        && r.value.5 == FromLE(data[old(pos) + 12..old(pos) + 16]) < Pow(256, 4)
    {
      hide FromLE, Pow;
      var voteBits := ReadUint(2);
      if voteBits.None? { return None; }
      var finalState := ReadFull(6);
      if finalState.None? { return None; }
      var voters := ReadUint(2);
      if voters.None? { return None; }
      var freshStake := ReadFull(1);
      if freshStake.None? { return None; }
      var revocations := ReadFull(1);
      if revocations.None? { return None; }
      var poolSize := ReadUint(4);
      if poolSize.None? { return None; }
      r := Some((voteBits.value, finalState.value, voters.value, freshStake.value[0], revocations.value[0],
        poolSize.value));
    }

    /** Bits, sBits, height, size, timestamp and nonce. */
    method ReadHeaderWork() returns (r: Option<(nat, nat, nat, nat, nat, nat)>)
      requires Valid()
      modifies this
      ensures Valid()
      ensures r.None? <==> 28 > |data| - old(pos)
      ensures r.Some? ==>
        && pos == old(pos) + 28
        && r.value.0 == FromLE(data[old(pos)..old(pos) + 4]) < Pow(256, 4)
        && r.value.1 == FromLE(data[old(pos) + 4..old(pos) + 12]) < Pow(256, 8)
        && r.value.2 == FromLE(data[old(pos) + 12..old(pos) + 16]) < Pow(256, 4)
        && r.value.3 == FromLE(data[old(pos) + 16..old(pos) + 20]) < Pow(256, 4)
        && r.value.4 == FromLE(data[old(pos) + 20..old(pos) + 24]) < Pow(256, 4)
        && r.value.5 == FromLE(data[old(pos) + 24..old(pos) + 28]) < Pow(256, 4)
    {
      hide FromLE, Pow;
      var bits := ReadUint(4);
      if bits.None? { return None; }
      var sBits := ReadUint(8);
      if sBits.None? { return None; }
      var height := ReadUint(4);
      if height.None? { return None; }
      var size := ReadUint(4);
      if size.None? { return None; }
      var timestamp := ReadUint(4);
      if timestamp.None? { return None; }
      var nonce := ReadUint(4);
      if nonce.None? { return None; }
      r := Some((bits.value, sBits.value, height.value, size.value, timestamp.value, nonce.value));
    }

    /** Eighteen reads in field order; together they fail exactly when fewer than 180 bytes are left. */
    method ReadHeader() returns (r: Option<BlockHeader>)
      requires Valid()
      modifies this
      ensures Valid()
      ensures match ParseHeaderPrefix(old(Rest()))
              case Fail => r == None
              case Got(h, rest) => r == Some(h) && Rest() == rest
    {
      Widths();
      ghost var start := pos;
      hide FromLE, Pow;
      var ids := ReadHeaderIds();
      if ids.None? { return None; }
      var stake := ReadHeaderStake();
      if stake.None? { return None; }
      var work := ReadHeaderWork();
      if work.None? { return None; }
      var extraData := ReadFull(32);
      if extraData.None? { return None; }
      var stakeVersion := ReadUint(4);
      if stakeVersion.None? { return None; }
      r := Some(BlockHeader(
        Signed32(ids.value.0), ids.value.1, ids.value.2, ids.value.3,
        stake.value.0, stake.value.1, stake.value.2, stake.value.3, stake.value.4, stake.value.5,
        work.value.0, Signed64(work.value.1), work.value.2, work.value.3, work.value.4, work.value.5,
        extraData.value, stakeVersion.value));
      HeaderInPlace(data, start, r.value);
    }
  }

  predicate FieldsFrom(data: seq<byte>, at: nat, h: BlockHeader)
    requires at + HEADER_BYTES <= |data|
  {
    Widths();
    && h.version == Signed32(FromLE(data[at..at + 4]))
    && h.prevBlock == data[at + 4..at + 36]
    && h.merkleRoot == data[at + 36..at + 68]
    && h.stakeRoot == data[at + 68..at + 100]
    && h.voteBits == FromLE(data[at + 100..at + 102])
    && h.finalState == data[at + 102..at + 108]
    && h.voters == FromLE(data[at + 108..at + 110])
    && h.freshStake == data[at + 110]
    && h.revocations == data[at + 111]
    && h.poolSize == FromLE(data[at + 112..at + 116])
    && h.bits == FromLE(data[at + 116..at + 120])
    && h.sBits == Signed64(FromLE(data[at + 120..at + 128]))
    && h.height == FromLE(data[at + 128..at + 132])
    && h.size == FromLE(data[at + 132..at + 136])
    && h.timestamp == FromLE(data[at + 136..at + 140])
    && h.nonce == FromLE(data[at + 140..at + 144])
    && h.extraData == data[at + 144..at + 176]
    && h.stakeVersion == FromLE(data[at + 176..at + 180])
  }

  lemma SliceOfDrop(data: seq<byte>, at: nat, lo: nat, hi: nat)
    requires lo <= hi && at + hi <= |data|
    ensures data[at..][lo..hi] == data[at + lo..at + hi]
  {
  }

  lemma HeaderInPlace(data: seq<byte>, at: nat, h: BlockHeader)
    requires at + HEADER_BYTES <= |data|
    requires FieldsFrom(data, at, h)
    ensures ParseHeaderPrefix(data[at..]) == Got(h, data[at + HEADER_BYTES..])
  {
    hide FromLE, Pow;
    SliceOfDrop(data, at, 0, 4);
    SliceOfDrop(data, at, 4, 36);
    SliceOfDrop(data, at, 36, 68);
    SliceOfDrop(data, at, 68, 100);
    SliceOfDrop(data, at, 100, 102);
    SliceOfDrop(data, at, 102, 108);
    SliceOfDrop(data, at, 108, 110);
    SliceOfDrop(data, at, 112, 116);
    SliceOfDrop(data, at, 116, 120);
    SliceOfDrop(data, at, 120, 128);
    SliceOfDrop(data, at, 128, 132);
    SliceOfDrop(data, at, 132, 136);
    SliceOfDrop(data, at, 136, 140);
    SliceOfDrop(data, at, 140, 144);
    SliceOfDrop(data, at, 144, 176);
    SliceOfDrop(data, at, 176, 180);
    assert data[at..][HEADER_BYTES..] == data[at + HEADER_BYTES..];
  }

  method DeserializeTx(serialized: seq<byte>) returns (r: Option<MsgTx>)
    ensures r == ParseTx(serialized)
  {
    hide ParseVarInt, ParseIns, ParseOuts, FromLE;
    Widths();
    var reader := new Reader(serialized);
    var version := reader.ReadInteger(4);
    if version.None? { return None; }
    var inputs := reader.ReadVarInt();
    if inputs.None? { return None; }
    var txIn := reader.ReadTxIns(inputs.value);
    if txIn.None? { return None; }
    var outputs := reader.ReadVarInt();
    if outputs.None? { return None; }
    var txOut := reader.ReadTxOuts(outputs.value);
    if txOut.None? { return None; }
    var lockTime := reader.ReadInteger(4);
    if lockTime.None? { return None; }
    if reader.Rest() != [] { return None; }
    r := Some(MsgTx(Signed32(version.value), txIn.value, txOut.value, lockTime.value));
  }

  method DeserializeBlockHeader(serialized: seq<byte>) returns (r: Option<BlockHeader>)
    ensures r == ParseHeader(serialized)
  {
    hide HeaderAt;
    var reader := new Reader(serialized);
    var h := reader.ReadHeader();
    if h.None? || reader.Rest() != [] { return None; }
    r := h;
  }

  method DeserializeBlock(serialized: seq<byte>) returns (r: Option<MsgBlock>)
    ensures r == ParseBlock(serialized)
  {
    hide HeaderAt, ParseVarInt, ParseVarBytes, ParseTx;
    var reader := new Reader(serialized);
    var header := reader.ReadHeader();
    if header.None? { return None; }
    var count := reader.ReadVarInt();
    if count.None? { return None; }
    ghost var body := reader.Rest();
    var txs := [];
    var i := 0;
    while i < count.value
      invariant reader.Valid() && i <= count.value
      invariant ParseTxs(reader.Rest(), count.value - i, txs) == ParseTxs(body, count.value, [])
    {
      var bytes := reader.ReadVarBytes();
      if bytes.None? { return None; }
      var tx := DeserializeTx(bytes.value);
      if tx.None? { return None; }
      txs := txs + [tx.value];
      i := i + 1;
    }
    if reader.Rest() != [] { return None; }
    r := Some(MsgBlock(header.value, txs));
  }
}
