/**
 What a torn write does to the records that come after it. `Append` writes wherever the file ends, so the
 question is whether the file ends where a line ends.
 */
module TornWrites {
  import opened Ints
  import opened WireTypes
  import opened WireCodec
  import opened ChainCfg
  import opened Ledger
  import opened ChainFacts
  import opened StoreFormat
  import BlockTime

  const TAB: byte := 9
  const SPACE: byte := 32

  predicate Blank(x: seq<byte>) {
    forall i :: 0 <= i < |x| ==> x[i] == SPACE || x[i] == TAB || x[i] == RETURN
  }

  /**
   What JSON guarantees besides: blanks are no record, and a record does not read with anything but blanks
   before it on its line. (A line feed is white space to JSON as well, but never stands before a record on
   the record's own line.)
   */
  ghost predicate OneRecordPerLine(c: LineCodec) {
    && (forall x :: Blank(x) ==> c.unmarshal(x) == None)
    && (forall r, k :: 0 < k <= |c.marshal(r)| ==> !Blank(c.marshal(r)[..k]))
    && (forall x, r :: NEWLINE !in x && !Blank(x) ==> c.unmarshal(x + c.marshal(r)) == None)
  }

  // ---- lines of a longer file ----

  predicate EndsLine(content: seq<byte>) {
    content == [] || content[|content| - 1] == NEWLINE
  }

  lemma {:induction false} LinesAfterLineEnd(content: seq<byte>, more: seq<byte>)
    requires EndsLine(content)
    ensures Lines(content + more) == Lines(content) + Lines(more)
    decreases |content|
  {
    NoLine();
    hide Lines, LineLen, EndsLine;
    if content == [] {
      assert content + more == more;
    } else {
      var n := LineLen(content);
      var first, rest := content[..n], content[n..];
      FirstLineStays(content, more);
      assert content == first + rest && content + more == first + (rest + more);
      LinesCons(first, rest);
      LinesCons(first, rest + more);
      LinesAfterLineEnd(rest, more);
    }
  }

  lemma FirstLineStays(content: seq<byte>, more: seq<byte>)
    requires content != [] && EndsLine(content)
    ensures LineLen(content + more) == LineLen(content) == LineLen(content[..LineLen(content)])
    ensures EndsLine(content[LineLen(content)..])
  {
    var n := LineLen(content);
    LineLenShape(content);
    if n < |content| {
      assert content + more == content[..n] + (content[n..] + more);
    } else {
      assert content[..n] == content;
      FullLine(content, more);
    }
  }

  /** A whole line is not lengthened by what follows it. */
  lemma {:induction false} FullLine(line: seq<byte>, more: seq<byte>)
    requires line != [] && LineLen(line) == |line| && line[|line| - 1] == NEWLINE
    ensures LineLen(line + more) == |line|
    decreases |line|
  {
    if |line| > 1 {
      FullLine(line[1..], more);
      assert (line + more)[1..] == line[1..] + more;
    }
  }

  /** A last line without its end is lengthened by what is written next. */
  lemma {:induction false} LinesInsideLine(content: seq<byte>, record: seq<byte>)
    requires !EndsLine(content) && NEWLINE !in record
    ensures Lines(content) != []
    ensures
      var n := |Lines(content)| - 1;
      var last := Lines(content)[n];
      && NEWLINE !in last
      && Lines(content + record + [NEWLINE]) == Lines(content)[..n] + [last + record + [NEWLINE]]
    decreases |content|
  {
    hide LineLen;
    var n := LineLen(content);
    var first, rest := content[..n], content[n..];
    LineLenShape(content);
    if n < |content| {
      assert content == first + rest && rest[|rest| - 1] == content[|content| - 1];
      LinesInsideLine(rest, record);
      Regrouped(first, rest, record, [NEWLINE]);
      LinesCons(first, rest + record + [NEWLINE]);
      FrontOfCons(first, Lines(rest));
    } else {
      assert content[..|content|] == content;
      LinesInsideOnlyLine(content, record);
    }
  }

  lemma Regrouped<T>(a: seq<T>, b: seq<T>, c: seq<T>, d: seq<T>)
    ensures a + b + c + d == a + (b + c + d)
  {
  }

  lemma FrontOfCons<T>(x: T, xs: seq<T>)
    requires xs != []
    ensures ([x] + xs)[..|xs|] == [x] + xs[..|xs| - 1] && ([x] + xs)[|xs|] == xs[|xs| - 1]
  {
  }

  lemma LinesInsideOnlyLine(content: seq<byte>, record: seq<byte>)
    requires !EndsLine(content) && LineLen(content) == |content| && NEWLINE !in record
    ensures Lines(content) == [content] && NEWLINE !in content
    ensures Lines(content + record + [NEWLINE]) == [content + record + [NEWLINE]]
  {
    var line := content + record + [NEWLINE];
    UnfinishedLine(content);
    LineLenOf(content + record, []);
    assert line + [] == line && content[..|content|] == content && content[|content|..] == [];
    LinesCons(line, []);
    assert Lines([]) == [];
  }

  lemma {:induction false} UnfinishedLine(s: seq<byte>)
    requires s != [] && LineLen(s) == |s| && s[|s| - 1] != NEWLINE
    ensures NEWLINE !in s
    decreases |s|
  {
    if |s| > 1 {
      UnfinishedLine(s[1..]);
      assert s == [s[0]] + s[1..];
    }
  }

  // ---- scans of a longer file ----

  lemma {:induction false} ScanExtends(p: Params, c: LineCodec, lines: seq<seq<byte>>, more: seq<seq<byte>>, i: nat,
        s: State, now: int)
    requires p.WellFormed() && Good(p, s) && i <= |lines|
    ensures
      var r := ScanFrom(p, c, lines, i, s, now);
      if r.good == |lines| then
        ScanFrom(p, c, lines + more, i, s, now) == ScanFrom(p, c, lines + more, |lines|, r.state, now)
      else ScanFrom(p, c, lines + more, i, s, now) == r
    decreases |lines| - i
  {
    GoodTip(p, s);
    hide Params.WellFormed, Good, ParseBlockRecord, TrimLineEnd, Ledger.AddBlock;
    if i < |lines| {
      assert (lines + more)[i] == lines[i];
      match ParseBlockRecord(p, c, TrimLineEnd(lines[i])) {
        case None =>
        case Some(block) =>
          AddKeepsGood(p, s, block, now, false);
          match Ledger.AddBlock(p, s, block, now, false) {
            case Err(_) =>
            case Ok(t) => ScanExtends(p, c, lines, more, i + 1, t, now);
          }
      }
    }
  }

  lemma {:induction false} ScanCounts(p: Params, c: LineCodec, lines: seq<seq<byte>>, i: nat, s: State, now: int)
    requires p.WellFormed() && Good(p, s) && i <= |lines|
    ensures |ScanFrom(p, c, lines, i, s, now).state.blocks| == |s.blocks| + ScanFrom(p, c, lines, i, s, now).good - i
    ensures s.blocks <= ScanFrom(p, c, lines, i, s, now).state.blocks
    decreases |lines| - i
  {
    hide Params.WellFormed, Good, ParseBlockRecord, TrimLineEnd, Ledger.AddBlock;
    GoodTip(p, s);
    if i < |lines| {
      match ParseBlockRecord(p, c, TrimLineEnd(lines[i])) {
        case None =>
        case Some(block) =>
          AddKeepsGood(p, s, block, now, false);
          match Ledger.AddBlock(p, s, block, now, false) {
            case Err(_) =>
            case Ok(t) => ScanCounts(p, c, lines, i + 1, t, now);
          }
      }
    }
  }

  /** Once a line is bad, nothing that is written after it is ever loaded. */
  lemma NothingLoadsAfterABadLine(p: Params, c: LineCodec, content: seq<byte>, more: seq<byte>, now: int)
    requires p.WellFormed() && EndsLine(content)
    requires ScanFile(p, c, content, now).good < |Lines(content)|
    ensures ScanFile(p, c, content + more, now) == ScanFile(p, c, content, now)
  {
    hide Params.WellFormed, Good, Lines, ScanFrom, EndsLine;
    GenesisIsGood(p);
    LinesAfterLineEnd(content, more);
    ScanExtends(p, c, Lines(content), Lines(more), 0, Genesis(p), now);
  }

  // ---- one more record ----

  lemma NewLineOf(p: Params, c: LineCodec, block: MsgBlock)
    requires Faithful(c)
    ensures NEWLINE !in c.marshal(RecordOf(p, block)) && c.marshal(RecordOf(p, block)) != []
    ensures Lines(LineOf(p, c, block)) == [LineOf(p, c, block)]
  {
    hide RecordOf;
    FirstLine(p, c, block, []);
    assert LineOf(p, c, block) + [] == LineOf(p, c, block);
  }

  /** A record behind anything but blanks is no record. */
  lemma SharedLine(p: Params, c: LineCodec, before: seq<byte>, block: MsgBlock)
    requires Faithful(c) && OneRecordPerLine(c) && NEWLINE !in before && !Blank(before)
    ensures ParseBlockRecord(p, c, TrimLineEnd(before + c.marshal(RecordOf(p, block)) + [NEWLINE])) == None
  {
    hide RecordOf, Blank;
    var m := c.marshal(RecordOf(p, block));
    var line := before + m + [NEWLINE];
    assert line[..|line| - 1] == before + m;
    assert m[|m| - 1] in m;
    assert TrimLineEnd(line) == before + m;
  }

  lemma ParsedIsNotBlank(p: Params, c: LineCodec, line: seq<byte>)
    requires OneRecordPerLine(c) && ParseBlockRecord(p, c, TrimLineEnd(line)).Some?
    ensures !Blank(line)
  {
    hide ParseBlock, Blank, TrimLineEnd;
    TrimmedBlank(line);
  }

  lemma TrimmedBlank(line: seq<byte>)
    ensures Blank(line) ==> Blank(TrimLineEnd(line))
  {
  }

  /** The i-th line of a scan that got past it was a record. */
  lemma {:induction false} ScannedLineParses(p: Params, c: LineCodec, lines: seq<seq<byte>>, i: nat, s: State, now: int,
        k: nat)
    requires p.WellFormed() && Good(p, s) && i <= k < |lines| && k < ScanFrom(p, c, lines, i, s, now).good
    ensures ParseBlockRecord(p, c, TrimLineEnd(lines[k])).Some?
    decreases |lines| - i
  {
    hide Params.WellFormed, Good, ParseBlockRecord, TrimLineEnd, Ledger.AddBlock;
    GoodTip(p, s);
    if i < k {
      var block := ParseBlockRecord(p, c, TrimLineEnd(lines[i])).value;
      AddKeepsGood(p, s, block, now, false);
      ScannedLineParses(p, c, lines, i + 1, Ledger.AddBlock(p, s, block, now, false).value, now, k);
    }
  }

  /** Behind a line end, a valid block's record loads. */
  lemma AppendedAfterLineEnd(p: Params, c: LineCodec, content: seq<byte>, block: MsgBlock, now: int)
    requires p.WellFormed() && Faithful(c) && BlockFits(block) && EndsLine(content)
    requires ScanFile(p, c, content, now).good == |Lines(content)|
    ensures
      var r := ScanFile(p, c, content, now);
      r.state.blocks != [] && Tip(r.state).header.Hashable() &&
      (Ledger.AddBlock(p, r.state, block, now, false).Ok? ==>
        ScanFile(p, c, content + LineOf(p, c, block), now) ==
          Scan(Ledger.AddBlock(p, r.state, block, now, false).value, r.good + 1))
  {
    hide Params.WellFormed, Good, Lines, LineOf, EndsLine, Faithful, BlockFits, ValidateBlock, TrimLineEnd,
      ParseBlockRecord,
      RecordOf;
    GenesisIsGood(p);
    var r := ScanFile(p, c, content, now);
    GoodTip(p, r.state);
    var line := LineOf(p, c, block);
    LinesAfterLineEnd(content, line);
    NewLineOf(p, c, block);
    ScanExtends(p, c, Lines(content), [line], 0, Genesis(p), now);
    if Ledger.AddBlock(p, r.state, block, now, false).Ok? {
      RecordHashable(p, r.state, block, now);
      AddKeepsGood(p, r.state, block, now, false);
      RecordRoundTrip(p, c, block);
      TrimmedLine(p, c, block);
      OneLineScan(p, c, Lines(content), line, block, r.state, now);
    }
  }

  lemma OneLineScan(p: Params, c: LineCodec, lines: seq<seq<byte>>, line: seq<byte>, block: MsgBlock, s: State,
        now: int)
    requires p.WellFormed() && Good(p, s) && s.blocks != [] && Tip(s).header.Hashable()
    requires ParseBlockRecord(p, c, TrimLineEnd(line)) == Some(block) && Ledger.AddBlock(p, s, block, now, false).Ok?
    ensures ScanFrom(p, c, lines + [line], |lines|, s, now)
      == Scan(Ledger.AddBlock(p, s, block, now, false).value, |lines| + 1)
  {
    hide Params.WellFormed, Good, ParseBlockRecord, TrimLineEnd, Ledger.AddBlock;
    AddKeepsGood(p, s, block, now, false);
    assert (lines + [line])[|lines|] == line;
  }

  /** Behind the end of a last line that was cut off, it takes that line's block with it. */
  lemma AppendedInsideLine(p: Params, c: LineCodec, content: seq<byte>, block: MsgBlock, now: int)
    requires p.WellFormed() && Faithful(c) && OneRecordPerLine(c) && !EndsLine(content)
    requires ScanFile(p, c, content, now).good == |Lines(content)|
    ensures |Lines(content)| > 0
    ensures
      var r := ScanFile(p, c, content + LineOf(p, c, block), now);
      r.good == |Lines(content)| - 1 && |r.state.blocks| == |Lines(content)|
  {
    hide Params.WellFormed, Good, Lines, EndsLine, Faithful, OneRecordPerLine, TrimLineEnd, ParseBlockRecord, RecordOf,
      ScanFrom, Blank;
    GenesisIsGood(p);
    var m := c.marshal(RecordOf(p, block));
    NewLineOf(p, c, block);
    LinesInsideLine(content, m);
    var lines := Lines(content);
    var n := |lines| - 1;
    assert content + m + [NEWLINE] == content + LineOf(p, c, block);
    ScannedLineParses(p, c, lines, 0, Genesis(p), now, n);
    ParsedIsNotBlank(p, c, lines[n]);
    SharedLine(p, c, lines[n], block);
    ScanPrefix(p, c, lines, 0, Genesis(p), now, n);
    var bad := lines[n] + m + [NEWLINE];
    ScanExtends(p, c, lines[..n], [bad], 0, Genesis(p), now);
    ScanCounts(p, c, lines[..n], 0, Genesis(p), now);
    StopsAtBadLine(p, c, lines[..n], bad, ScanFrom(p, c, lines[..n], 0, Genesis(p), now).state, now);
  }

  lemma StopsAtBadLine(p: Params, c: LineCodec, lines: seq<seq<byte>>, bad: seq<byte>, s: State, now: int)
    requires p.WellFormed() && Good(p, s) && ParseBlockRecord(p, c, TrimLineEnd(bad)) == None
    ensures ScanFrom(p, c, lines + [bad], |lines|, s, now) == Scan(s, |lines|)
  {
    hide Params.WellFormed, Good, ParseBlockRecord, TrimLineEnd, Ledger.AddBlock;
    assert (lines + [bad])[|lines|] == bad;
  }

  /**
   A clean file takes another record exactly when it is empty or ends in a newline. Otherwise the record is
   lost, and so is the block that stood in the last line.
   */
  lemma AppendLoadsExactlyAfterLineEnd(p: Params, c: LineCodec, content: seq<byte>, block: MsgBlock, now: int)
    requires p.WellFormed() && Faithful(c) && OneRecordPerLine(c) && BlockFits(block)
    requires ScanFile(p, c, content, now).good == |Lines(content)|
    ensures
      var s := ScanFile(p, c, content, now).state;
      var after := ScanFile(p, c, content + LineOf(p, c, block), now).state;
      s.blocks != [] && Tip(s).header.Hashable() &&
      (Ledger.AddBlock(p, s, block, now, false).Ok? ==>
        && (after == Ledger.AddBlock(p, s, block, now, false).value <==> EndsLine(content))
        && (!EndsLine(content) ==> |after.blocks| == |s.blocks| - 1))
  {
    hide Params.WellFormed, Good, Lines, LineOf, EndsLine, Faithful, OneRecordPerLine, BlockFits, ValidateBlock,
      ScanFrom;
    GenesisIsGood(p);
    GoodTip(p, ScanFile(p, c, content, now).state);
    ScanCounts(p, c, Lines(content), 0, Genesis(p), now);
    if EndsLine(content) {
      AppendedAfterLineEnd(p, c, content, block, now);
    } else {
      AppendedInsideLine(p, c, content, block, now);
    }
  }

  // ---- every tear ----

  lemma {:induction false} FileEndsLine(p: Params, c: LineCodec, blocks: seq<MsgBlock>)
    ensures EndsLine(FileOf(p, c, blocks))
  {
    hide RecordOf;
  }

  /** The file after the record of `block` was torn at byte `k`. */
  function Torn(p: Params, c: LineCodec, s: State, block: MsgBlock, k: nat): seq<byte>
    requires s.blocks != [] && k <= |LineOf(p, c, block)|
  {
    FileOf(p, c, s.blocks[1..]) + LineOf(p, c, block)[..k]
  }

  /** What Repair makes of it: a part of the record goes, the record without its newline stays as it is. */
  lemma RepairedTear(p: Params, c: LineCodec, s: State, block: MsgBlock, k: nat, now: int)
    requires p.WellFormed() && Good(p, s) && Faithful(c) && AllFit(s.blocks) && BlockFits(block)
    requires s.blocks != [] && Tip(s).header.Hashable()
    requires Ledger.AddBlock(p, s, block, now, false).Ok?
    requires k <= |LineOf(p, c, block)|
    ensures
      var n := |LineOf(p, c, block)| - 1;
      && RepairedContent(p, c, Torn(p, c, s, block, k), now) ==
           (if k < n then FileOf(p, c, s.blocks[1..]) else Torn(p, c, s, block, k))
      && (EndsLine(RepairedContent(p, c, Torn(p, c, s, block, k), now)) <==> k != n)
  {
    hide Params.WellFormed, Good, FileOf, ValidateBlock, BlockFits, RecordOf, Linked, AllFit, Faithful, Lines,
      Concat, ScanFrom,
      TrimLineEnd, ParseBlockRecord;
    var line, file := LineOf(p, c, block), FileOf(p, c, s.blocks[1..]);
    var n := |line| - 1;
    var torn := line[..k];
    RecordHashable(p, s, block, now);
    TornLine(p, c, block, k);
    ScanOfFile(p, c, s, torn, now);
    var lines := LinesOf(p, c, s.blocks[1..]) + Lines(torn);
    FileEndsLine(p, c, s.blocks[1..]);
    RepairKeepsTheGoodPrefix(p, c, file + torn, now);
    TornScan(p, c, s, block, k, now);
    WholeFile(p, c, s, torn);
    if k >= n {
      TornEnd(p, c, s, block, k);
    } else if k == 0 {
      assert file + torn == file;
    }
  }

  lemma TornScan(p: Params, c: LineCodec, s: State, block: MsgBlock, k: nat, now: int)
    requires p.WellFormed() && Good(p, s) && Faithful(c) && AllFit(s.blocks) && BlockFits(block)
    requires s.blocks != [] && Tip(s).header.Hashable()
    requires Ledger.AddBlock(p, s, block, now, false).Ok?
    requires k <= |LineOf(p, c, block)|
    ensures ScanFile(p, c, Torn(p, c, s, block, k), now) ==
      if k < |LineOf(p, c, block)| - 1 then Scan(s, |s.blocks| - 1)
      else Scan(Ledger.AddBlock(p, s, block, now, false).value, |s.blocks|)
  {
    hide Params.WellFormed, Good, FileOf, ValidateBlock, BlockFits, RecordOf, Linked, AllFit, Faithful, ScanFile,
      TrimLineEnd, ParseBlockRecord, Lines;
    var torn := LineOf(p, c, block)[..k];
    RecordHashable(p, s, block, now);
    ScanOfFile(p, c, s, torn, now);
    TornLine(p, c, block, k);
    var stored := LinesOf(p, c, s.blocks[1..]);
    if k == 0 {
      assert stored + [] == stored;
      ScanStopsAt(p, c, stored, |stored|, s, now);
    } else if k < |LineOf(p, c, block)| - 1 {
      StopsAtBadLine(p, c, stored, torn, s, now);
    } else {
      OneLineScan(p, c, stored, torn, block, s, now);
    }
  }

  lemma WholeFile(p: Params, c: LineCodec, s: State, torn: seq<byte>)
    requires Faithful(c) && s.blocks != []
    ensures
      var file := FileOf(p, c, s.blocks[1..]);
      && |Lines(file)| == |s.blocks| - 1
      && Lines(file + torn) == Lines(file) + Lines(torn)
      && Concat(Lines(file + torn)[..|s.blocks| - 1]) == file
      && Concat(Lines(file + torn)) == file + torn
  {
    hide Faithful, Lines, Concat, LineOf;
    var file := FileOf(p, c, s.blocks[1..]);
    LinesOfFile(p, c, s.blocks[1..], []);
    LinesOfFile(p, c, s.blocks[1..], torn);
    assert file + [] == file && Lines([]) == [] by {
      NoLine();
    }
    assert Lines(file) == LinesOf(p, c, s.blocks[1..]);
    LinesOfPrefix(file, |Lines(file)|);
    LinesOfPrefix(file + torn, |Lines(file + torn)|);
    assert Lines(file)[..|Lines(file)|] == Lines(file);
    assert Lines(file + torn)[..|Lines(file + torn)|] == Lines(file + torn);
    assert Lines(file + torn)[..|Lines(file)|] == Lines(file);
  }

  lemma NoLine()
    ensures Lines([]) == []
  {
  }

  lemma TornEnd(p: Params, c: LineCodec, s: State, block: MsgBlock, k: nat)
    requires Faithful(c) && s.blocks != []
    requires |LineOf(p, c, block)| - 1 <= k <= |LineOf(p, c, block)|
    ensures EndsLine(Torn(p, c, s, block, k)) <==> k == |LineOf(p, c, block)|
  {
    hide FileOf, RecordOf;
    var m := c.marshal(RecordOf(p, block));
    assert m[|m| - 1] in m;
    var torn := LineOf(p, c, block)[..k];
    assert torn[|torn| - 1] == if k == |m| then m[|m| - 1] else NEWLINE;
  }

  /** A record that lands on what is left of a torn one is lost, and so is the torn one's block. */
  lemma TornRecordSwallowsTheNext(p: Params, c: LineCodec, s: State, block: MsgBlock, k: nat, next: MsgBlock, now: int)
    requires p.WellFormed() && Good(p, s) && Faithful(c) && OneRecordPerLine(c) && AllFit(s.blocks)
    requires BlockTime.MiningOpen(p, now) || |s.blocks| == 1
    requires s.blocks != [] && 0 < k < |LineOf(p, c, block)|
    ensures
      var file := Torn(p, c, s, block, k) + LineOf(p, c, next);
      ScanFile(p, c, file, now) == Scan(s, |s.blocks| - 1) && |Lines(file)| == |s.blocks|
  {
    hide Params.WellFormed, Good, Linked, FileOf, RecordOf, AllFit, Faithful, OneRecordPerLine, Lines, ScanFile,
      ScanFrom,
      TrimLineEnd, ParseBlockRecord;
    var rest := LineOf(p, c, block)[..k] + LineOf(p, c, next);
    assert Torn(p, c, s, block, k) + LineOf(p, c, next) == FileOf(p, c, s.blocks[1..]) + rest;
    ScanOfFile(p, c, s, rest, now);
    TornStart(p, c, block, k, next);
    StopsAtBadLine(p, c, LinesOf(p, c, s.blocks[1..]), rest, s, now);
  }

  /**
   Tear, repair, append. Whatever the byte at which a record was torn, the next block that is valid on the
   repaired chain loads afterwards, except when nothing but the torn record's newline was missing; then
   neither of the two blocks loads.
   */
  lemma AppendAfterRepairedTear(p: Params, c: LineCodec, s: State, block: MsgBlock, k: nat, next: MsgBlock, now: int)
    requires p.WellFormed() && Good(p, s) && Faithful(c) && OneRecordPerLine(c)
    requires AllFit(s.blocks) && BlockFits(block) && BlockFits(next)
    requires s.blocks != [] && Tip(s).header.Hashable()
    requires Ledger.AddBlock(p, s, block, now, false).Ok?
    requires k <= |LineOf(p, c, block)|
    ensures
      var t := ScanFile(p, c, Torn(p, c, s, block, k), now).state;
      var repaired := RepairedContent(p, c, Torn(p, c, s, block, k), now);
      var reloaded := ScanFile(p, c, repaired + LineOf(p, c, next), now).state;
      t.blocks != [] && Tip(t).header.Hashable() &&
      (Ledger.AddBlock(p, t, next, now, false).Ok? ==>
        && (reloaded == Ledger.AddBlock(p, t, next, now, false).value <==> k != |LineOf(p, c, block)| - 1)
        && (k == |LineOf(p, c, block)| - 1 ==> reloaded == s))
  {
    hide Params.WellFormed, Good, Linked, FileOf, ValidateBlock, BlockFits, RecordOf, AllFit, Faithful,
      OneRecordPerLine, Lines,
      Concat, ScanFrom, ScanFile, EndsLine, RepairedContent, Torn, LineOf;
    var torn := Torn(p, c, s, block, k);
    var kept := RepairedContent(p, c, torn, now);
    GoodTip(p, ScanFile(p, c, torn, now).state);
    RepairedTear(p, c, s, block, k, now);
    RepairIsClean(p, c, torn, now);
    TornScan(p, c, s, block, k, now);
    AppendLoadsExactlyAfterLineEnd(p, c, kept, next, now);
    if k == |LineOf(p, c, block)| - 1 {
      RecordHashable(p, s, block, now);
      NewLineOf(p, c, block);
      LongerThanItsNewline(p, c, block);
      TornRecordSwallowsTheNext(p, c, s, block, k, next, now);
    }
  }

  lemma LongerThanItsNewline(p: Params, c: LineCodec, block: MsgBlock)
    requires Faithful(c)
    ensures |LineOf(p, c, block)| > 1
  {
    hide RecordOf;
  }

  lemma RepairIsClean(p: Params, c: LineCodec, content: seq<byte>, now: int)
    requires p.WellFormed()
    ensures
      var kept := RepairedContent(p, c, content, now);
      && ScanFile(p, c, kept, now).state == ScanFile(p, c, content, now).state
      && ScanFile(p, c, kept, now).good == |Lines(kept)|
  {
    hide Params.WellFormed, Good, Lines, Concat, ScanFrom, ScanFile, RepairedContent;
    RepairKeepsTheGoodPrefix(p, c, content, now);
  }

  /**
   Without a repair the node writes on behind the tear. A block that is valid on its chain then loads, in a
   file without a bad line, exactly when nothing of the torn record had been written.
   */
  lemma AppendOntoTear(p: Params, c: LineCodec, s: State, block: MsgBlock, k: nat, next: MsgBlock, now: int)
    requires p.WellFormed() && Good(p, s) && Faithful(c) && OneRecordPerLine(c)
    requires AllFit(s.blocks) && BlockFits(block) && BlockFits(next)
    requires s.blocks != [] && Tip(s).header.Hashable()
    requires Ledger.AddBlock(p, s, block, now, false).Ok? && Ledger.AddBlock(p, s, next, now, false).Ok?
    requires k <= |LineOf(p, c, block)|
    ensures
      var file := Torn(p, c, s, block, k) + LineOf(p, c, next);
      var r := ScanFile(p, c, file, now);
      && (r == Scan(Ledger.AddBlock(p, s, next, now, false).value, |Lines(file)|) <==> k == 0)
      && (0 < k < |LineOf(p, c, block)| ==> r == Scan(s, |s.blocks| - 1) && r.good < |Lines(file)|)
      && (k == |LineOf(p, c, block)| ==>
           r == Scan(Ledger.AddBlock(p, s, block, now, false).value, |s.blocks|) && r.good < |Lines(file)|)
  {
    hide Params.WellFormed, Good, Linked, FileOf, ValidateBlock, BlockFits, RecordOf, AllFit, Faithful,
      OneRecordPerLine, Lines,
      ScanFile, ScanFrom, TrimLineEnd, ParseBlockRecord, Blank;
    var line, record := LineOf(p, c, block), LineOf(p, c, next);
    var rest := line[..k] + record;
    var file := FileOf(p, c, s.blocks[1..]);
    assert Torn(p, c, s, block, k) + record == file + rest;
    var stored := LinesOf(p, c, s.blocks[1..]);
    RecordHashable(p, s, block, now);
    RecordHashable(p, s, next, now);
    ScanOfFile(p, c, s, rest, now);
    NewLineOf(p, c, next);
    RecordRoundTrip(p, c, next);
    TrimmedLine(p, c, next);
    if k == 0 {
      assert line[..k] == [] && rest == record;
      OneLineScan(p, c, stored, record, next, s, now);
    } else if k < |line| {
      TornRecordSwallowsTheNext(p, c, s, block, k, next, now);
    } else {
      assert line[..k] == line;
      assert rest == line + record;
      assert stored + ([line] + [record]) == stored + [line, record];
      FirstLine(p, c, block, record);
      RecordRoundTrip(p, c, block);
      TrimmedLine(p, c, block);
      SecondIsRefused(p, s, block, next, now);
      TwoLineScan(p, c, stored, line, block, record, next, s, now);
    }
  }

  /** What is left of a torn record starts a line that will never be a record. */
  lemma TornStart(p: Params, c: LineCodec, block: MsgBlock, k: nat, next: MsgBlock)
    requires Faithful(c) && OneRecordPerLine(c) && 0 < k < |LineOf(p, c, block)|
    ensures
      var line := LineOf(p, c, block)[..k] + LineOf(p, c, next);
      Lines(line) == [line] && ParseBlockRecord(p, c, TrimLineEnd(line)) == None
  {
    hide RecordOf, Blank, ParseBlockRecord, TrimLineEnd;
    var m, torn := c.marshal(RecordOf(p, block)), LineOf(p, c, block)[..k];
    var n := c.marshal(RecordOf(p, next));
    assert torn == m[..k];
    var line := torn + LineOf(p, c, next);
    assert line == torn + n + [NEWLINE];
    SharedLine(p, c, torn, next);
    assert NEWLINE !in torn + n;
    LineLenOf(torn + n, []);
    assert line + [] == line;
    LinesCons(line, []);
    NoLine();
  }

  lemma SecondIsRefused(p: Params, s: State, block: MsgBlock, next: MsgBlock, now: int)
    requires p.WellFormed() && Good(p, s) && s.blocks != [] && Tip(s).header.Hashable()
    requires Ledger.AddBlock(p, s, block, now, false).Ok? && Ledger.AddBlock(p, s, next, now, false).Ok?
    ensures
      var t := Ledger.AddBlock(p, s, block, now, false).value;
      t.blocks != [] && Tip(t).header.Hashable() && Ledger.AddBlock(p, t, next, now, false).Err?
  {
    hide Params.WellFormed, Good, Linked, ConnectBlock, CheckProofOfWork, ExpectedBits, BlockTime.MiningOpen;
    AddKeepsGood(p, s, block, now, false);
    var t := Ledger.AddBlock(p, s, block, now, false).value;
    GoodTip(p, t);
    AcceptanceRules(p, Tip(s).header, s.utxos, block, now, false);
    AcceptanceRules(p, Tip(s).header, s.utxos, next, now, false);
    AcceptanceRules(p, Tip(t).header, t.utxos, next, now, false);
  }

  lemma TwoLineScan(p: Params, c: LineCodec, lines: seq<seq<byte>>, line: seq<byte>, block: MsgBlock, record: seq<byte>,
        next: MsgBlock, s: State, now: int)
    requires p.WellFormed() && Good(p, s) && s.blocks != [] && Tip(s).header.Hashable()
    requires ParseBlockRecord(p, c, TrimLineEnd(line)) == Some(block) && Ledger.AddBlock(p, s, block, now, false).Ok?
    requires ParseBlockRecord(p, c, TrimLineEnd(record)) == Some(next)
    requires
      var t := Ledger.AddBlock(p, s, block, now, false).value;
      t.blocks != [] && Tip(t).header.Hashable() && Ledger.AddBlock(p, t, next, now, false).Err?
    ensures ScanFrom(p, c, lines + [line, record], |lines|, s, now)
      == Scan(Ledger.AddBlock(p, s, block, now, false).value, |lines| + 1)
  {
    hide Params.WellFormed, Good, ParseBlockRecord, TrimLineEnd, Ledger.AddBlock;
    AddKeepsGood(p, s, block, now, false);
    var all := lines + [line, record];
    assert all[|lines|] == line && all[|lines| + 1] == record;
    var t := Ledger.AddBlock(p, s, block, now, false).value;
    assert ScanFrom(p, c, all, |lines| + 1, t, now) == Scan(t, |lines| + 1);
  }

  // ---- such codecs exist ----

  const ZERO: byte := 48
  const ONE: byte := 49
  const OPENING: byte := 123
  const CLOSING: byte := 125

  function Unary(n: nat): (u: seq<byte>)
    ensures u != []
  {
    if n == 0 then [ZERO] else [ONE] + Unary(n - 1)
  }

  function Text(ns: seq<nat>): seq<byte> {
    if ns == [] then [] else Unary(ns[0]) + Text(ns[1..])
  }

  function Braced(r: BlockRecord): seq<byte> {
    [OPENING] + Text([r.height, |r.hash|] + r.hash + r.block) + [CLOSING]
  }

  /** White space between JSON values, line feeds included. */
  predicate White(x: seq<byte>) {
    forall i :: 0 <= i < |x| ==> x[i] == SPACE || x[i] == TAB || x[i] == RETURN || x[i] == NEWLINE
  }

  ghost predicate Holds(x: seq<byte>, r: BlockRecord) {
    exists a, b :: White(a) && White(b) && x == a + Braced(r) + b
  }

  /** Like a JSON reader, it passes over white space on both sides of a record. */
  ghost function Unbraced(x: seq<byte>): Option<BlockRecord> {
    if r :| Holds(x, r) then Some(r) else None
  }

  lemma {:induction false} UnaryEnds(a: nat, b: nat, x: seq<byte>, y: seq<byte>)
    requires Unary(a) + x == Unary(b) + y
    ensures a == b && x == y
  {
    var s, t := Unary(a) + x, Unary(b) + y;
    assert s[0] == Unary(a)[0] && t[0] == Unary(b)[0];
    if a > 0 && b > 0 {
      assert s[1..] == Unary(a - 1) + x && t[1..] == Unary(b - 1) + y;
      UnaryEnds(a - 1, b - 1, x, y);
    } else {
      assert s[1..] == x && t[1..] == y;
    }
  }

  lemma {:induction false} TextInjective(a: seq<nat>, b: seq<nat>)
    requires Text(a) == Text(b)
    ensures a == b
  {
    if a != [] && b != [] {
      UnaryEnds(a[0], b[0], Text(a[1..]), Text(b[1..]));
      TextInjective(a[1..], b[1..]);
      assert a == [a[0]] + a[1..] && b == [b[0]] + b[1..];
    }
  }

  ghost predicate Binary(x: seq<byte>) {
    forall i :: 0 <= i < |x| ==> x[i] == ZERO || x[i] == ONE
  }

  lemma {:induction false} UnaryIsBinary(n: nat)
    ensures Binary(Unary(n))
  {
    if n > 0 {
      UnaryIsBinary(n - 1);
    }
  }

  lemma {:induction false} TextIsBinary(ns: seq<nat>)
    ensures Binary(Text(ns))
  {
    if ns != [] {
      UnaryIsBinary(ns[0]);
      TextIsBinary(ns[1..]);
      hide Unary;
    }
  }

  lemma BracedInjective(r: BlockRecord, q: BlockRecord)
    requires Braced(r) == Braced(q)
    ensures r == q
  {
    hide Text;
    var a, b := [r.height, |r.hash|] + r.hash + r.block, [q.height, |q.hash|] + q.hash + q.block;
    assert Text(a) == Braced(r)[1..|Braced(r)| - 1] == Text(b);
    TextInjective(a, b);
    assert a[0] == r.height && a[1] == |r.hash| && b[0] == q.height && b[1] == |q.hash|;
    assert r.hash == a[2..2 + |r.hash|] == q.hash;
    assert r.block == a[2 + |r.hash|..] == q.block;
  }

  /** The opening brace stands first and nowhere else, the closing one last and nowhere else. */
  lemma BracedShape(r: BlockRecord)
    ensures |Braced(r)| >= 2 && Braced(r)[0] == OPENING && Braced(r)[|Braced(r)| - 1] == CLOSING
    ensures forall i :: 0 < i < |Braced(r)| ==> Braced(r)[i] != OPENING
    ensures forall i :: 0 <= i < |Braced(r)| - 1 ==> Braced(r)[i] != CLOSING
    ensures NEWLINE !in Braced(r) && RETURN !in Braced(r)
  {
    hide Text;
    TextIsBinary([r.height, |r.hash|] + r.hash + r.block);
  }

  lemma OneBrace(a: seq<byte>, m: seq<byte>, b: seq<byte>, brace: byte, at: nat)
    requires White(a) && White(b) && (brace == OPENING || brace == CLOSING)
    requires at < |m| && forall i :: 0 <= i < |m| ==> (m[i] == brace <==> i == at)
    ensures
      var x := a + m + b;
      forall i :: 0 <= i < |x| ==> (x[i] == brace <==> i == |a| + at)
  {
    var x := a + m + b;
    forall i | 0 <= i < |x|
      ensures x[i] == brace <==> i == |a| + at
    {
      if i < |a| {
        assert x[i] == a[i];
      } else if i < |a| + |m| {
        assert x[i] == m[i - |a|];
      } else {
        assert x[i] == b[i - |a| - |m|];
      }
    }
  }

  lemma MiddlePart<T>(a: seq<T>, m: seq<T>, b: seq<T>)
    ensures (a + m + b)[..|a|] == a && (a + m + b)[|a|..|a| + |m|] == m
  {
  }

  /** In a string that holds a record the braces stand once each, and show where the record is. */
  lemma HeldShape(x: seq<byte>, r: BlockRecord) returns (at: nat)
    requires Holds(x, r)
    ensures at + |Braced(r)| <= |x| && x[at..at + |Braced(r)|] == Braced(r) && White(x[..at])
    ensures forall i :: 0 <= i < |x| ==> (x[i] == OPENING <==> i == at)
    ensures forall i :: 0 <= i < |x| ==> (x[i] == CLOSING <==> i == at + |Braced(r)| - 1)
    ensures OPENING in x && CLOSING in x
  {
    hide Braced, White;
    BracedShape(r);
    var a, b :| White(a) && White(b) && x == a + Braced(r) + b;
    at := |a|;
    OneBrace(a, Braced(r), b, OPENING, 0);
    OneBrace(a, Braced(r), b, CLOSING, |Braced(r)| - 1);
    MiddlePart(a, Braced(r), b);
    assert x[at] == OPENING && x[at + |Braced(r)| - 1] == CLOSING;
  }

  lemma UnbracedOf(a: seq<byte>, r: BlockRecord, b: seq<byte>)
    requires White(a) && White(b)
    ensures Unbraced(a + Braced(r) + b) == Some(r)
  {
    hide Braced, White;
    var x := a + Braced(r) + b;
    assert Holds(x, r);
    var q := Unbraced(x).value;
    var i := HeldShape(x, r);
    var j := HeldShape(x, q);
    OneRecord(x, r, q, i, j);
    BracedInjective(r, q);
  }

  lemma OneRecord(x: seq<byte>, r: BlockRecord, q: BlockRecord, i: nat, j: nat)
    requires i + |Braced(r)| <= |x| && x[i..i + |Braced(r)|] == Braced(r)
    requires j + |Braced(q)| <= |x| && x[j..j + |Braced(q)|] == Braced(q)
    requires forall k :: 0 <= k < |x| ==> (x[k] == OPENING <==> k == i)
    requires forall k :: 0 <= k < |x| ==> (x[k] == CLOSING <==> k == i + |Braced(r)| - 1)
    ensures Braced(r) == Braced(q)
  {
    hide Braced;
    BracedShape(q);
    assert x[j] == Braced(q)[0] && x[j + |Braced(q)| - 1] == Braced(q)[|Braced(q)| - 1];
  }

  /**
   The assumptions on the codec are met by some codec, so nothing that rests on them is empty; and by one that
   passes over white space around a record, line feeds included, as a JSON reader does.
   */
  lemma CodecExists()
    ensures exists c ::
      && Faithful(c)
      && OneRecordPerLine(c)
      && forall a, r, b :: White(a) && White(b) ==> c.unmarshal(a + c.marshal(r) + b) == Some(r)
  {
    hide Braced, Unbraced, White;
    var c := LineCodec(Braced, Unbraced);
    forall a, r, b | White(a) && White(b)
      ensures c.unmarshal(a + c.marshal(r) + b) == Some(r)
    {
      UnbracedOf(a, r, b);
    }
    BracedIsFaithful(c);
    BracedIsOnePerLine(c);
  }

  lemma BracedIsFaithful(c: LineCodec)
    requires c == LineCodec(Braced, Unbraced)
    ensures Faithful(c)
  {
    hide Braced, Unbraced;
    forall r
      ensures Unbraced(Braced(r)) == Some(r)
      ensures Braced(r) != [] && NEWLINE !in Braced(r) && RETURN !in Braced(r)
    {
      UnbracedOf([], r, []);
      assert [] + Braced(r) + [] == Braced(r);
      BracedShape(r);
    }
    forall r, k | 0 <= k < |Braced(r)|
      ensures Unbraced(Braced(r)[..k]) == None
    {
      CutIsNotBraced(r, k);
    }
  }

  lemma BracedIsOnePerLine(c: LineCodec)
    requires c == LineCodec(Braced, Unbraced)
    ensures OneRecordPerLine(c)
  {
    hide Braced, Unbraced;
    forall x | Blank(x)
      ensures Unbraced(x) == None
    {
      BlankIsNotBraced(x);
    }
    forall r, k | 0 < k <= |Braced(r)|
      ensures !Blank(Braced(r)[..k])
    {
      BracedShape(r);
      assert Braced(r)[..k][0] == OPENING;
    }
    forall x, r | NEWLINE !in x && !Blank(x)
      ensures Unbraced(x + Braced(r)) == None
    {
      ShiftedIsNotBraced(x, r);
    }
  }

  lemma CutIsNotBraced(r: BlockRecord, k: nat)
    requires k < |Braced(r)|
    ensures Unbraced(Braced(r)[..k]) == None
  {
    hide Braced, White, Holds;
    BracedShape(r);
    var cut := Braced(r)[..k];
    assert CLOSING !in cut;
    if q :| Holds(cut, q) {
      var at := HeldShape(cut, q);
    }
  }

  lemma BlankIsNotBraced(x: seq<byte>)
    requires Blank(x)
    ensures Unbraced(x) == None
  {
    hide Braced, White, Holds;
    assert OPENING !in x;
    if q :| Holds(x, q) {
      var at := HeldShape(x, q);
    }
  }

  lemma ShiftedIsNotBraced(x: seq<byte>, r: BlockRecord)
    requires NEWLINE !in x && !Blank(x)
    ensures Unbraced(x + Braced(r)) == None
  {
    hide Braced, Holds;
    assert !White(x);
    if q :| Holds(x + Braced(r), q) {
      ShiftIsWhite(x, r, q);
    }
  }

  lemma ShiftIsWhite(x: seq<byte>, r: BlockRecord, q: BlockRecord)
    requires Holds(x + Braced(r), q)
    ensures White(x)
  {
    hide Braced, Holds, White;
    BracedShape(r);
    var all := x + Braced(r);
    assert all[|x|] == OPENING;
    var at := HeldShape(all, q);
    assert all[..at] == x;
  }
}
