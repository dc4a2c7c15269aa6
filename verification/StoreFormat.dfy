/**
 The block file of `internal/blockstore/jsonl.go` as bytes: lines, records, and the scan that rebuilds a
 chain from them. The JSON text of a record is left to an abstract codec.
 */
module StoreFormat {
  import opened Ints
  import opened WireTypes
  import opened WireCodec
  import opened WireRoundTrip
  import opened ChainCfg
  import opened Ledger
  import opened ChainFacts
  import BlockTime

  const NEWLINE: byte := 10
  const RETURN: byte := 13

  /** One record: the height, and the bytes that its two hexadecimal fields stand for. */
  datatype BlockRecord = BlockRecord(height: uint32, hash: seq<byte>, block: seq<byte>)

  datatype LineCodec = LineCodec(marshal: BlockRecord -> seq<byte>, unmarshal: seq<byte> -> Option<BlockRecord>)

  /**
   What JSON objects on one line guarantee: they read back, hold no line ends, and cut short they do not
   read at all.
   */
  ghost predicate Faithful(c: LineCodec) {
    && (forall r :: c.unmarshal(c.marshal(r)) == Some(r))
    && (forall r :: c.marshal(r) != [] && NEWLINE !in c.marshal(r) && RETURN !in c.marshal(r))
    && (forall r, k :: 0 <= k < |c.marshal(r)| ==> c.unmarshal(c.marshal(r)[..k]) == None)
  }

  // ---- lines ----

  /** Length of the first line, its newline included. */
  function LineLen(s: seq<byte>): (n: nat)
    requires s != []
    ensures 0 < n <= |s|
  {
    if s[0] == NEWLINE || |s| == 1 then 1 else 1 + LineLen(s[1..])
  }

  function Lines(s: seq<byte>): (lines: seq<seq<byte>>)
    ensures forall i :: 0 <= i < |lines| ==> lines[i] != []
  {
    if s == [] then [] else [s[..LineLen(s)]] + Lines(s[LineLen(s)..])
  }

  function Concat(lines: seq<seq<byte>>): seq<byte> {
    if lines == [] then [] else lines[0] + Concat(lines[1..])
  }

  function TrimLineEnd(line: seq<byte>): seq<byte> {
    var a := if |line| > 0 && line[|line| - 1] == NEWLINE then line[..|line| - 1] else line;
    if |a| > 0 && a[|a| - 1] == RETURN then a[..|a| - 1] else a
  }

  lemma {:induction false} LineLenOf(body: seq<byte>, rest: seq<byte>)
    requires NEWLINE !in body
    ensures LineLen(body + [NEWLINE] + rest) == |body| + 1
  {
    var s := body + [NEWLINE] + rest;
    if body != [] {
      LineLenOf(body[1..], rest);
      assert s[1..] == body[1..] + [NEWLINE] + rest;
    }
  }

  lemma {:induction false} LineLenWhole(body: seq<byte>)
    requires body != [] && NEWLINE !in body
    ensures LineLen(body) == |body|
  {
    if |body| > 1 {
      LineLenWhole(body[1..]);
    }
  }

  lemma {:induction false} LineLenShape(s: seq<byte>)
    requires s != []
    ensures LineLen(s[..LineLen(s)]) == LineLen(s)
    ensures LineLen(s) < |s| ==> s[LineLen(s) - 1] == NEWLINE
    ensures forall t :: LineLen(s) < |s| ==> LineLen(s[..LineLen(s)] + t) == LineLen(s)
  {
    if s[0] != NEWLINE && |s| > 1 {
      LineLenShape(s[1..]);
      var n := LineLen(s);
      assert s[..n][1..] == s[1..][..n - 1];
      forall t | n < |s|
        ensures LineLen(s[..n] + t) == n
      {
        assert (s[..n] + t)[1..] == s[1..][..n - 1] + t;
      }
    } else {
      forall t | LineLen(s) < |s|
        ensures LineLen(s[..1] + t) == 1
      {
        assert (s[..1] + t)[0] == s[0];
      }
    }
  }

  lemma LinesCons(first: seq<byte>, tail: seq<byte>)
    requires first != []
    requires LineLen(first + tail) == |first|
    ensures Lines(first + tail) == [first] + Lines(tail)
  {
    assert (first + tail)[..|first|] == first && (first + tail)[|first|..] == tail;
  }

  lemma ConcatCons(first: seq<byte>, lines: seq<seq<byte>>)
    ensures Concat([first] + lines) == first + Concat(lines)
  {
    assert ([first] + lines)[1..] == lines;
  }

  /** The first `n` lines of a file are the lines of what is left when it is cut there. */
  lemma {:induction false} LinesOfPrefix(s: seq<byte>, n: nat)
    requires n <= |Lines(s)|
    ensures Lines(Concat(Lines(s)[..n])) == Lines(s)[..n]
    ensures Concat(Lines(s)[..n]) <= s
    ensures n == |Lines(s)| ==> Concat(Lines(s)[..n]) == s
    decreases |s|
  {
    if n == 0 {
      assert Lines(s)[..0] == [];
      if s == [] {
        assert Lines(s) == [];
      }
    } else {
      var len := LineLen(s);
      var first, rest := s[..len], s[len..];
      assert s == first + rest;
      LineLenShape(s);
      LinesCons(first, rest);
      LinesOfPrefix(rest, n - 1);
      var tail := Concat(Lines(rest)[..n - 1]);
      var kept := Lines(s)[..n];
      assert kept == [first] + Lines(rest)[..n - 1];
      ConcatCons(first, Lines(rest)[..n - 1]);
      if n == 1 {
        assert Lines(rest)[..0] == [];
        assert first + tail == first;
      }
      assert n > 1 ==> rest != [];
      hide Lines, Concat, LineLen;
      LinesCons(first, tail);
    }
  }

  // ---- records ----

  function RecordOf(p: Params, b: MsgBlock): BlockRecord {
    BlockRecord(b.header.height, BlockHash(p, b.header),
      if b.header.Hashable() && BlockFits(b) then BlockBytes(b) else [])
  }

  function LineOf(p: Params, c: LineCodec, b: MsgBlock): seq<byte> {
    c.marshal(RecordOf(p, b)) + [NEWLINE]
  }

  /** A record gives its block back only if the height and the hash that it states are the block's own. */
  function ParseBlockRecord(p: Params, c: LineCodec, line: seq<byte>): Option<MsgBlock> {
    match c.unmarshal(line)
    case None => None
    case Some(record) =>
      match ParseBlock(record.block)
      case None => None
      case Some(block) =>
        if block.header.height != record.height then None
        else if BlockHash(p, block.header) != record.hash then None
        else Some(block)
  }

  lemma RecordRoundTrip(p: Params, c: LineCodec, b: MsgBlock)
    requires Faithful(c) && b.header.Hashable() && BlockFits(b)
    ensures ParseBlockRecord(p, c, c.marshal(RecordOf(p, b))) == Some(b)
  {
    hide BlockBytes, ParseBlock, BlockFits;
    BlockRoundTrip(b);
  }

  lemma TrimmedLine(p: Params, c: LineCodec, b: MsgBlock)
    requires Faithful(c)
    ensures TrimLineEnd(LineOf(p, c, b)) == c.marshal(RecordOf(p, b))
    ensures forall k :: 0 <= k <= |c.marshal(RecordOf(p, b))| ==>
      TrimLineEnd(c.marshal(RecordOf(p, b))[..k]) == c.marshal(RecordOf(p, b))[..k]
  {
    hide RecordOf;
    var m := c.marshal(RecordOf(p, b));
    assert LineOf(p, c, b)[..|m|] == m;
    assert m[|m| - 1] in m;
    forall k | 0 <= k <= |m|
      ensures TrimLineEnd(m[..k]) == m[..k]
    {
      if k > 0 {
        assert m[..k][k - 1] == m[k - 1] && m[k - 1] in m;
      }
    }
  }

  // ---- scanning ----

  /** How far a scan got: the chain so far, and how many lines went into it. */
  datatype Scan = Scan(state: State, good: nat)

  /** Adds the block of each line from the i-th on, until a line does not parse or its block does not connect. */
  function ScanFrom(p: Params, c: LineCodec, lines: seq<seq<byte>>, i: nat, s: State, now: int): (r: Scan)
    requires p.WellFormed() && Good(p, s) && i <= |lines|
    ensures Good(p, r.state) && i <= r.good <= |lines|
    decreases |lines| - i
  {
    GoodTip(p, s);
    if i == |lines| then Scan(s, i)
    else
      match ParseBlockRecord(p, c, TrimLineEnd(lines[i]))
      case None => Scan(s, i)
      case Some(block) =>
        AddKeepsGood(p, s, block, now, false);
        match Ledger.AddBlock(p, s, block, now, false)
        case Err(_) => Scan(s, i)
        case Ok(t) => ScanFrom(p, c, lines, i + 1, t, now)
  }

  function ScanFile(p: Params, c: LineCodec, content: seq<byte>, now: int): (r: Scan)
    requires p.WellFormed()
    ensures Good(p, r.state) && r.good <= |Lines(content)|
  {
    GenesisIsGood(p);
    ScanFrom(p, c, Lines(content), 0, Genesis(p), now)
  }

  lemma {:induction false} ScanPrefix(p: Params, c: LineCodec, lines: seq<seq<byte>>, i: nat, s: State, now: int,
        n: nat)
    requires p.WellFormed() && Good(p, s) && i <= n <= |lines|
    requires n <= ScanFrom(p, c, lines, i, s, now).good
    ensures ScanFrom(p, c, lines[..n], i, s, now).good == n
    ensures n == ScanFrom(p, c, lines, i, s, now).good ==>
      ScanFrom(p, c, lines[..n], i, s, now).state == ScanFrom(p, c, lines, i, s, now).state
    decreases |lines| - i
  {
    GoodTip(p, s);
    hide Params.WellFormed, Good, ParseBlockRecord, TrimLineEnd, Ledger.AddBlock;
    if i < n {
      assert lines[..n][i] == lines[i];
      var block := ParseBlockRecord(p, c, TrimLineEnd(lines[i])).value;
      AddKeepsGood(p, s, block, now, false);
      ScanPrefix(p, c, lines, i + 1, Ledger.AddBlock(p, s, block, now, false).value, now, n);
    } else {
      ScanStopsAt(p, c, lines, i, s, now);
    }
  }

  lemma ScanStopsAt(p: Params, c: LineCodec, lines: seq<seq<byte>>, i: nat, s: State, now: int)
    requires p.WellFormed() && Good(p, s) && i <= |lines|
    ensures ScanFrom(p, c, lines, i, s, now).good == i ==> ScanFrom(p, c, lines, i, s, now).state == s
    ensures ScanFrom(p, c, lines[..i], i, s, now) == Scan(s, i)
  {
    GoodTip(p, s);
    hide Params.WellFormed, Good, ParseBlockRecord, TrimLineEnd, Ledger.AddBlock;
  }

  /** What Repair leaves: the lines before the first bad one. */
  function RepairedContent(p: Params, c: LineCodec, content: seq<byte>, now: int): seq<byte>
    requires p.WellFormed()
  {
    Concat(Lines(content)[..ScanFile(p, c, content, now).good])
  }

  /**
   The repaired file is a prefix of the old one, loads without error, and gives the chain reached before the
   bad line.
   */
  lemma RepairKeepsTheGoodPrefix(p: Params, c: LineCodec, content: seq<byte>, now: int)
    requires p.WellFormed()
    ensures
      var kept := RepairedContent(p, c, content, now);
      && kept <= content
      && Lines(kept) == Lines(content)[..ScanFile(p, c, content, now).good]
      && ScanFile(p, c, kept, now) == ScanFile(p, c, content, now)
      && (ScanFile(p, c, content, now).good == |Lines(content)| ==> kept == content)
  {
    GenesisIsGood(p);
    hide Params.WellFormed, Good, Lines, Concat;
    var n := ScanFile(p, c, content, now).good;
    LinesOfPrefix(content, n);
    ScanPrefix(p, c, Lines(content), 0, Genesis(p), now, n);
  }

  /** The first line that was not kept does not parse, or its block does not connect to the chain before it. */
  lemma {:induction false} FirstBadLine(p: Params, c: LineCodec, lines: seq<seq<byte>>, i: nat, s: State, now: int)
    requires p.WellFormed() && Good(p, s) && i <= |lines|
    ensures
      var r := ScanFrom(p, c, lines, i, s, now);
      r.good < |lines| ==>
        r.state.blocks != [] && Tip(r.state).header.Hashable() &&
        match ParseBlockRecord(p, c, TrimLineEnd(lines[r.good]))
        case None => true
        case Some(b) => Ledger.AddBlock(p, r.state, b, now, false).Err?
    decreases |lines| - i
  {
    GoodTip(p, s);
    hide Params.WellFormed, Good, ParseBlockRecord, TrimLineEnd, Ledger.AddBlock;
    if i < |lines| {
      match ParseBlockRecord(p, c, TrimLineEnd(lines[i])) {
        case None =>
        case Some(block) =>
          AddKeepsGood(p, s, block, now, false);
          match Ledger.AddBlock(p, s, block, now, false) {
            case Err(_) =>
            case Ok(t) => FirstBadLine(p, c, lines, i + 1, t, now);
          }
      }
    }
  }

  // ---- files written by the node ----

  /** The file of a chain that was stored block by block. */
  function FileOf(p: Params, c: LineCodec, blocks: seq<MsgBlock>): seq<byte> {
    if blocks == [] then [] else FileOf(p, c, blocks[..|blocks| - 1]) + LineOf(p, c, blocks[|blocks| - 1])
  }

  function LinesOf(p: Params, c: LineCodec, blocks: seq<MsgBlock>): (r: seq<seq<byte>>)
    ensures |r| == |blocks|
    ensures forall i :: 0 <= i < |r| ==> r[i] == LineOf(p, c, blocks[i])
  {
    if blocks == [] then [] else [LineOf(p, c, blocks[0])] + LinesOf(p, c, blocks[1..])
  }

  lemma FirstLine(p: Params, c: LineCodec, b: MsgBlock, rest: seq<byte>)
    requires Faithful(c)
    ensures Lines(LineOf(p, c, b) + rest) == [LineOf(p, c, b)] + Lines(rest)
  {
    hide RecordOf;
    var m := c.marshal(RecordOf(p, b));
    LineLenOf(m, rest);
    var s := LineOf(p, c, b) + rest;
    assert s[..|m| + 1] == LineOf(p, c, b) && s[|m| + 1..] == rest;
  }

  lemma {:induction false} FileOfCons(p: Params, c: LineCodec, blocks: seq<MsgBlock>)
    requires blocks != []
    ensures FileOf(p, c, blocks) == LineOf(p, c, blocks[0]) + FileOf(p, c, blocks[1..])
    decreases |blocks|
  {
    hide LineOf;
    if |blocks| > 1 {
      var front := blocks[..|blocks| - 1];
      FileOfCons(p, c, front);
      assert blocks[1..][..|blocks| - 2] == front[1..];
    } else {
      assert blocks[..0] == [] && blocks[1..] == [];
    }
  }

  lemma {:induction false} LinesOfFile(p: Params, c: LineCodec, blocks: seq<MsgBlock>, rest: seq<byte>)
    requires Faithful(c)
    ensures Lines(FileOf(p, c, blocks) + rest) == LinesOf(p, c, blocks) + Lines(rest)
    decreases |blocks|
  {
    hide LineOf, Faithful;
    if blocks == [] {
      assert FileOf(p, c, blocks) + rest == rest;
      assert LinesOf(p, c, blocks) + Lines(rest) == Lines(rest);
    } else {
      FileOfCons(p, c, blocks);
      var more := FileOf(p, c, blocks[1..]) + rest;
      assert FileOf(p, c, blocks) + rest == LineOf(p, c, blocks[0]) + more;
      FirstLine(p, c, blocks[0], more);
      LinesOfFile(p, c, blocks[1..], rest);
    }
  }

  predicate AllFit(blocks: seq<MsgBlock>) {
    forall i :: 0 <= i < |blocks| ==> BlockFits(blocks[i])
  }

  /** Scanning the stored blocks of a good chain adds them all, and goes on after them with that chain. */
  lemma {:induction false} ScanStored(p: Params, c: LineCodec, s: State, lines: seq<seq<byte>>, n: nat, now: int)
    requires p.WellFormed() && Good(p, s) && Faithful(c) && AllFit(s.blocks)
    requires BlockTime.MiningOpen(p, now) || |s.blocks| == 1
    requires 1 <= n <= |s.blocks| && |lines| >= |s.blocks| - 1
    requires forall i :: 1 <= i < |s.blocks| ==> lines[i - 1] == LineOf(p, c, s.blocks[i])
    ensures ScanFrom(p, c, lines, n - 1, PrefixState(p, s, n), now) == ScanFrom(p, c, lines, |s.blocks| - 1, s, now)
    decreases |s.blocks| - n
  {
    hide Params.WellFormed, Good, ParseBlockRecord, TrimLineEnd, Ledger.AddBlock, LineOf, RecordOf, Faithful, BlockFits;
    var t := PrefixState(p, s, n);
    if n == |s.blocks| {
      assert s.blocks[..n] == s.blocks;
      PathIndependence(p, t, s);
    } else {
      StoredAgain(p, s, n, now);
      GoodTip(p, s);
      HashableBlock(p, s, n);
      RecordRoundTrip(p, c, s.blocks[n]);
      TrimmedLine(p, c, s.blocks[n]);
      GoodTip(p, t);
      ScanStored(p, c, s, lines, n + 1, now);
    }
  }

  lemma ScanOfFile(p: Params, c: LineCodec, s: State, rest: seq<byte>, now: int)
    requires p.WellFormed() && Good(p, s) && Faithful(c) && AllFit(s.blocks)
    requires BlockTime.MiningOpen(p, now) || |s.blocks| == 1
    ensures s.blocks != []
    ensures Lines(FileOf(p, c, s.blocks[1..]) + rest) == LinesOf(p, c, s.blocks[1..]) + Lines(rest)
    ensures ScanFile(p, c, FileOf(p, c, s.blocks[1..]) + rest, now)
      == ScanFrom(p, c, LinesOf(p, c, s.blocks[1..]) + Lines(rest), |s.blocks| - 1, s, now)
  {
    hide Params.WellFormed, Good, Faithful, Lines, LineOf, ScanFrom, AllFit, Linked;
    GoodTip(p, s);
    GenesisIsGood(p);
    var lines := LinesOf(p, c, s.blocks[1..]) + Lines(rest);
    LinesOfFile(p, c, s.blocks[1..], rest);
    PathIndependence(p, PrefixState(p, s, 1), Genesis(p));
    ScanStored(p, c, s, lines, 1, now);
  }

  /** Load gives back exactly the chain, blocks and ledger, whose blocks were stored. */
  lemma LoadRestores(p: Params, c: LineCodec, s: State, now: int)
    requires p.WellFormed() && Good(p, s) && Faithful(c) && AllFit(s.blocks)
    requires BlockTime.MiningOpen(p, now) || |s.blocks| == 1
    ensures s.blocks != []
    ensures ScanFile(p, c, FileOf(p, c, s.blocks[1..]), now) == Scan(s, |s.blocks| - 1)
    ensures |Lines(FileOf(p, c, s.blocks[1..]))| == |s.blocks| - 1
  {
    hide Params.WellFormed, Good, Faithful, FileOf, LinesOf, AllFit;
    ScanOfFile(p, c, s, [], now);
    var file := FileOf(p, c, s.blocks[1..]);
    assert file + [] == file;
    assert LinesOf(p, c, s.blocks[1..]) + Lines([]) == LinesOf(p, c, s.blocks[1..]);
  }

  /**
   Crash safety. If the node stops at any point of appending the next block's record, Repair gives back the
   chain without the block or with it, and nothing else.
   */
  lemma CrashDuringAppend(p: Params, c: LineCodec, s: State, block: MsgBlock, k: nat, now: int)
    requires p.WellFormed() && Good(p, s) && Faithful(c) && AllFit(s.blocks) && BlockFits(block)
    requires s.blocks != [] && Tip(s).header.Hashable()
    requires Ledger.AddBlock(p, s, block, now, false).Ok?
    requires k <= |LineOf(p, c, block)|
    ensures
      var r := ScanFile(p, c, FileOf(p, c, s.blocks[1..]) + LineOf(p, c, block)[..k], now);
      if k < |LineOf(p, c, block)| - 1 then r.state == s
      else r.state == Ledger.AddBlock(p, s, block, now, false).value
  {
    hide Params.WellFormed, Good, FileOf, Ledger.AddBlock, BlockFits, ValidateBlock, RecordOf, ScanFile, Linked,
      AllFit, Faithful;
    var torn := LineOf(p, c, block)[..k];
    var lines := LinesOf(p, c, s.blocks[1..]) + Lines(torn);
    var n := |s.blocks| - 1;
    RecordHashable(p, s, block, now);
    AddKeepsGood(p, s, block, now, false);
    GoodTip(p, s);
    ScanOfFile(p, c, s, torn, now);
    TornLine(p, c, block, k);
    if k > 0 {
      assert lines[n] == torn && |lines| == n + 1;
      var t := Ledger.AddBlock(p, s, block, now, false).value;
      assert ScanFrom(p, c, lines, n + 1, t, now) == Scan(t, n + 1);
    }
  }

  /** A record cut short is no record; without its newline, or whole, it is the block's. */
  lemma TornLine(p: Params, c: LineCodec, block: MsgBlock, k: nat)
    requires Faithful(c) && block.header.Hashable() && BlockFits(block)
    requires k <= |LineOf(p, c, block)|
    ensures
      var torn := LineOf(p, c, block)[..k];
      && |LineOf(p, c, block)| > 1
      && Lines(torn) == (if k == 0 then [] else [torn])
      && (0 < k < |LineOf(p, c, block)| - 1 ==> ParseBlockRecord(p, c, TrimLineEnd(torn)) == None)
      && (k > 0 && k >= |LineOf(p, c, block)| - 1 ==> ParseBlockRecord(p, c, TrimLineEnd(torn)) == Some(block))
  {
    hide RecordOf, BlockFits, TrimLineEnd;
    var m := c.marshal(RecordOf(p, block));
    var torn := LineOf(p, c, block)[..k];
    TrimmedLine(p, c, block);
    RecordRoundTrip(p, c, block);
    if 0 < k <= |m| {
      assert torn == m[..k];
      assert NEWLINE !in torn;
      LineLenWhole(torn);
      assert torn + [] == torn;
      LinesCons(torn, []);
      assert m[..|m|] == m;
    } else if k > 0 {
      assert torn == LineOf(p, c, block);
      assert torn + [] == torn;
      FirstLine(p, c, block, []);
    }
  }

  lemma RecordHashable(p: Params, s: State, block: MsgBlock, now: int)
    requires p.WellFormed() && Good(p, s) && s.blocks != [] && Tip(s).header.Hashable()
    requires Ledger.AddBlock(p, s, block, now, false).Ok?
    ensures block.header.Hashable() && BlockTime.MiningOpen(p, now)
  {
    AcceptanceRules(p, Tip(s).header, s.utxos, block, now, false);
    FollowsHasTransactions(p, Tip(s).header, block);
    WorkMeansHashable(p, block.header);
    hide Params.WellFormed, Good, ValidateBlock;
  }
}
