/**
 `internal/blockstore/jsonl.go`: the store object. Any write may fail; what a failed one leaves behind is
 part of the model.
 */
module BlockStore {
  import opened Ints
  import opened WireTypes
  import opened ChainCfg
  import opened Ledger
  import opened ChainFacts
  import opened StoreFormat
  import opened Blockchain

  /** The blocks that `Replace` writes: all but those that call themselves genesis. */
  function Stored(blocks: seq<MsgBlock>): seq<MsgBlock> {
    if blocks == [] then []
    else
      var last := blocks[|blocks| - 1];
      if last.header.height == 0 then Stored(blocks[..|blocks| - 1]) else Stored(blocks[..|blocks| - 1]) + [last]
  }

  lemma {:induction false} StoredOfChain(p: Params, blocks: seq<MsgBlock>)
    requires p.WellFormed() && Linked(p, blocks)
    ensures blocks != [] && Stored(blocks) == blocks[1..]
    decreases |blocks|
  {
    hide Params.WellFormed, BlockFollows;
    HeightsArePositions(p, blocks, |blocks| - 1);
    if |blocks| > 1 {
      LinkedPrefix(p, blocks, |blocks| - 1);
      StoredOfChain(p, blocks[..|blocks| - 1]);
    } else {
      assert Stored(blocks[..0]) == [];
    }
  }

  lemma NoLines()
    ensures Concat([]) == []
  {
  }

  lemma LinesStartWith(content: seq<byte>)
    requires Lines(content) != []
    ensures content != []
    ensures
      var len := LineLen(content);
      0 < len <= |content| && Lines(content) == [content[..len]] + Lines(content[len..])
  {
  }

  lemma {:induction false} LinesFrom(content: seq<byte>, offset: nat, i: nat)
    requires i <= |Lines(content)| && offset == |Concat(Lines(content)[..i])|
    ensures offset <= |content| && Lines(content[offset..]) == Lines(content)[i..]
    decreases |content|
  {
    hide Concat, LineLen, Lines;
    LinesOfPrefix(content, i);
    if i == 0 {
      NoLines();
      assert Lines(content)[..0] == [] && content[0..] == content;
    } else {
      LinesStartWith(content);
      var len := LineLen(content);
      var first, rest := content[..len], content[len..];
      assert Lines(content)[..i] == [first] + Lines(rest)[..i - 1];
      assert Lines(content)[i..] == Lines(rest)[i - 1..];
      ConcatCons(first, Lines(rest)[..i - 1]);
      LinesFrom(rest, offset - len, i - 1);
      assert content[offset..] == rest[offset - len..];
    }
  }

  lemma NextLine(content: seq<byte>, offset: nat, i: nat)
    requires i <= |Lines(content)| && offset == |Concat(Lines(content)[..i])|
    ensures offset <= |content|
    ensures offset == |content| <==> i == |Lines(content)|
    ensures offset < |content| ==>
      var len := LineLen(content[offset..]);
      && Lines(content)[i] == content[offset..offset + len]
      && offset + len == |Concat(Lines(content)[..i + 1])|
  {
    LinesFrom(content, offset, i);
    if offset < |content| {
      var len := LineLen(content[offset..]);
      assert content[offset..][..len] == content[offset..offset + len];
      assert Lines(content)[i] == Lines(content[offset..])[0];
      assert Lines(content)[..i + 1] == Lines(content)[..i] + [Lines(content)[i]];
      ConcatSnoc(Lines(content)[..i], Lines(content)[i]);
    }
  }

  lemma {:induction false} ConcatSnoc(lines: seq<seq<byte>>, line: seq<byte>)
    ensures |Concat(lines + [line])| == |Concat(lines)| + |line|
  {
    if lines != [] {
      ConcatSnoc(lines[1..], line);
      assert (lines + [line])[1..] == lines[1..] + [line];
    } else {
      assert ([line])[1..] == [];
    }
  }

  class Store {
    const params: Params
    const codec: LineCodec
    var file: Option<seq<byte>>
    var backup: Option<seq<byte>>
    /** No write has failed since the file was last known to hold exactly the chain. */
    ghost var intact: bool

    function Content(): seq<byte>
      reads this
    {
      match file case None => [] case Some(bytes) => bytes
    }

    constructor (params: Params, codec: LineCodec)
      ensures this.params == params && this.codec == codec
      ensures file == None && backup == None && intact
    {
      this.params := params;
      this.codec := codec;
      file, backup, intact := None, None, true;
    }

    /** Rebuilds the chain line by line; `offset` is where the first bad line starts, or the end of the file. */
    method Load(now: int) returns (chain: Chain?, offset: nat)
      requires params.WellFormed()
      ensures
        var scan := ScanFile(params, codec, Content(), now);
        && offset == |Concat(Lines(Content())[..scan.good])|
        && (chain != null <==> scan.good == |Lines(Content())|)
        && (chain != null ==> fresh(chain) && chain.params == params && chain.Valid() && chain.Current() == scan.state)
    {
      hide Params.WellFormed, Good, Ledger.AddBlock, ParseBlockRecord, TrimLineEnd, Lines, LineLen, ScanFrom, ScanFile;
      GenesisIsGood(params);
      ScanStart(params, codec, Content(), now);
      var building := new Chain(params);
      offset := 0;
      ghost var content := Content();
      ghost var lines := Lines(content);
      if file.None? {
        NextLine(content, 0, 0);
        ScanStep(params, codec, lines, 0, building.Current(), now);
        return building, 0;
      }
      var data := file.value;
      ghost var i := 0;
      while true
        invariant fresh(building) && building.Valid() && building.params == params
        invariant i <= |lines| && offset == |Concat(lines[..i])| <= |data|
        invariant ScanFrom(params, codec, lines, i, building.Current(), now) == ScanFile(params, codec, content, now)
        decreases |lines| - i
      {
        NextLine(content, offset, i);
        ScanStep(params, codec, lines, i, building.Current(), now);
        if offset == |data| {
          break;
        }
        var line := data[offset..offset + LineLen(data[offset..])];
        var block := ParseBlockRecord(params, codec, TrimLineEnd(line));
        if block.None? {
          return null, offset;
        }
        var refused := building.AddStoredBlock(block.value, now);
        if refused.Some? {
          return null, offset;
        }
        offset := offset + |line|;
        i := i + 1;
      }
      chain := building;
    }

    /** Appends the block's record. A failed write may leave any part of it behind. */
    method Append(block: MsgBlock) returns (ok: bool)
      modifies this`file, this`intact
      ensures exists k | 0 <= k <= |LineOf(params, codec, block)| ::
        Content() == old(Content()) + LineOf(params, codec, block)[..k]
      ensures !block.header.Hashable() ==> !ok && Content() == old(Content())
      ensures ok ==> Content() == old(Content()) + LineOf(params, codec, block)
      ensures intact == (old(intact) && ok)
    {
      var line := LineOf(params, codec, block);
      ghost var before := Content();
      assert before + line[..0] == before;
      assert line[..|line|] == line;
      var available: bool := *;
      if !available {
        intact := false;
        return false;
      }
      if file.None? {
        file := Some([]);
      }
      if !block.header.Hashable() {
        intact := false;
        return false;
      }
      var written: nat :| written <= |line|;
      var synced: bool := *;
      file := Some(file.value + line[..written]);
      ok := written == |line| && synced;
      intact := intact && ok;
    }

    /** Writes a new file beside the old one and renames it into place, so that a failure leaves the old one. */
    method Replace(blocks: seq<MsgBlock>) returns (ok: bool)
      modifies this`file, this`intact
      ensures ok ==> Content() == FileOf(params, codec, Stored(blocks)) && intact
      ensures !ok ==> Content() == old(Content()) && intact == old(intact)
    {
      hide LineOf;
      var tmp: seq<byte> := [];
      assert blocks[..0] == [];
      for i := 0 to |blocks|
        invariant tmp == FileOf(params, codec, Stored(blocks[..i]))
        invariant file == old(file) && intact == old(intact)
      {
        assert blocks[..i + 1][..i] == blocks[..i];
        var block := blocks[i];
        if block.header.height != 0 {
          var written: bool := *;
          if !block.header.Hashable() || !written {
            return false;
          }
          FileOfSnoc(params, codec, Stored(blocks[..i]), block);
          tmp := tmp + LineOf(params, codec, block);
        }
      }
      assert blocks[..|blocks|] == blocks;
      var renamed: bool := *;
      if !renamed {
        return false;
      }
      file := Some(tmp);
      intact := true;
      ok := true;
    }

    /**
     Loads the chain; if a line is bad, keeps a backup, cuts the file before that line, and loads again. On
     success the file holds the lines before the first bad one, and the chain is what they build.
     */
    method Repair(now: int) returns (chain: Chain?, repaired: bool, truncatedAt: nat)
      requires params.WellFormed()
      modifies this
      ensures
        var scan := old(ScanFile(params, codec, Content(), now));
        if scan.good == old(|Lines(Content())|) then
          && chain != null && chain.Current() == scan.state
          && !repaired && file == old(file)
        else if chain != null then
          && repaired && chain.Current() == scan.state
          && Content() == old(RepairedContent(params, codec, Content(), now)) && truncatedAt == |Content()|
          && backup == old(file)
        else
          !repaired && file == old(file)
      ensures chain != null ==> fresh(chain) && chain.params == params && chain.Valid()
      ensures chain != null && repaired ==>
        chain.blocks != [] && (intact <==> Content() == FileOf(params, codec, chain.blocks[1..]))
    {
      hide Params.WellFormed, Good, Lines, Concat, ScanFile;
      RepairKeepsTheGoodPrefix(params, codec, Content(), now);
      var offset: nat;
      chain, offset := Load(now);
      if chain != null {
        return chain, false, 0;
      }
      var backedUp: bool := *;
      if !backedUp {
        return null, false, 0;
      }
      backup := file;
      var truncated: bool := *;
      if !truncated {
        return null, false, 0;
      }
      ghost var kept := RepairedContent(params, codec, Content(), now);
      NoBadLineInNothing(params, codec, now);
      assert file.Some?;
      assert file.value[..offset] == kept;
      file := Some(file.value[..offset]);
      var reloaded, end := Load(now);
      if reloaded == null {
        // The lines that were kept load again, so this exit is never taken.
        assert false;
      }
      GoodTip(params, reloaded.Current());
      intact := Content() == FileOf(params, codec, reloaded.blocks[1..]);
      return reloaded, true, offset;
    }
  }

  lemma ScanStart(p: Params, c: LineCodec, content: seq<byte>, now: int)
    requires p.WellFormed()
    ensures Good(p, Genesis(p))
    ensures ScanFile(p, c, content, now) == ScanFrom(p, c, Lines(content), 0, Genesis(p), now)
  {
    hide Params.WellFormed, Good, ScanFrom, Lines;
    GenesisIsGood(p);
  }

  lemma ScanStep(p: Params, c: LineCodec, lines: seq<seq<byte>>, i: nat, s: State, now: int)
    requires p.WellFormed() && Good(p, s) && i <= |lines|
    ensures s.blocks != [] && Tip(s).header.Hashable()
    ensures i == |lines| ==> ScanFrom(p, c, lines, i, s, now) == Scan(s, i)
    ensures i < |lines| ==>
      match ParseBlockRecord(p, c, TrimLineEnd(lines[i]))
      case None => ScanFrom(p, c, lines, i, s, now) == Scan(s, i)
      case Some(block) =>
        match Ledger.AddBlock(p, s, block, now, false)
        case Err(_) => ScanFrom(p, c, lines, i, s, now) == Scan(s, i)
        case Ok(t) => Good(p, t) && ScanFrom(p, c, lines, i, s, now) == ScanFrom(p, c, lines, i + 1, t, now)
  {
    hide Params.WellFormed, Good, Ledger.AddBlock, ParseBlockRecord, TrimLineEnd;
    GoodTip(p, s);
    if i < |lines| {
      var block := ParseBlockRecord(p, c, TrimLineEnd(lines[i]));
      if block.Some? {
        AddKeepsGood(p, s, block.value, now, false);
      }
    }
  }

  lemma FileOfSnoc(p: Params, c: LineCodec, blocks: seq<MsgBlock>, block: MsgBlock)
    ensures FileOf(p, c, blocks + [block]) == FileOf(p, c, blocks) + LineOf(p, c, block)
  {
    hide LineOf;
    assert (blocks + [block])[..|blocks|] == blocks;
  }

  lemma NoBadLineInNothing(p: Params, c: LineCodec, now: int)
    requires p.WellFormed()
    ensures Lines([]) == [] && ScanFile(p, c, [], now).good == 0
  {
  }
}
