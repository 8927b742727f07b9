/** The HEX file object: loading, merging, adding data, and saving through either printer. */
module HexFile {
  import opened Wrappers
  import opened Ascending
  import opened HexRecord
  import opened MemoryImage
  import opened HexLoader
  import opened HexPrinter
  import opened HexRoundTrip
  import opened HexRuns
  import HexText

  const EOF_RECORD := Record(0, 0, END_OF_FILE, [])

  /** The records a save writes: block form when there are blocks, byte form otherwise. */
  function SavedRecords(file: Contents): (rs: seq<Record>)
  {
    (if file.blocks != map[] then Print(Items(file.blocks)) else Print(AllRuns(file.data)))
    + [EOF_RECORD]
  }

  /** The text a save writes; an empty file object writes nothing. */
  function SavedText(file: Contents): (text: Option<string>)
  {
    if file.data == map[] && file.blocks == map[] then None
    else Some(HexText.JoinLines(Lines(SavedRecords(file))))
  }

  function AddData(file: Contents, at: nat, bytes: seq<byte>): (r: Contents)
  {
    file.(data := Write(file.data, at, bytes), blocks := file.blocks[at := bytes])
  }

  function Merge(file: Contents, other: Contents): (r: Contents)
  {
    file.(data := file.data + other.data, blocks := file.blocks + other.blocks)
  }

  // ---- the object ----------------------------------------------------------------------------

  class IntelHexFile {
    var data: map<nat, byte>
    var blocks: map<nat, seq<byte>>
    var start: nat

    ghost function Contents(): (c: Contents)
      reads this
    {
      HexLoader.Contents(data, blocks, start)
    }

    constructor ()
      ensures Contents() == EMPTY
    {
      data, blocks, start := map[], map[], 0;
    }

    /** Store bytes one by one in the byte view. */
    method StoreBytes(at: nat, bytes: seq<byte>)
      modifies this`data
      ensures data == Write(old(data), at, bytes)
    {
      for i := 0 to |bytes|
        invariant data == Write(old(data), at, bytes[..i])
      {
        data := data[at + i := bytes[i]];
        assert bytes[..i + 1][..i] == bytes[..i];
      }
      assert bytes[..|bytes|] == bytes;
    }

    method Load(text: string)
      modifies this
      ensures Contents() == LoadText(old(Contents()), text)
    {
      var lines := HexText.ReadLines(text);
      var base := 0;
      ghost var begin := Loading(Contents(), 0, false);
      for i := 0 to |lines|
        invariant Loading(Contents(), base, false) == ApplyAll(begin, Records(lines[..i]))
      {
        assert lines[..i + 1] == lines[..i] + [lines[i]];
        RecordsAppend(lines[..i], [lines[i]]);
        RecordsOfOne(lines[i]);
        match FromLine(lines[i]) {
          case None =>
            assert Records(lines[..i + 1]) == Records(lines[..i]);
          case Some(r) =>
            ghost var before := Loading(Contents(), base, false);
            ApplyAllAppend(begin, Records(lines[..i]), [r]);
            ApplyOne(before, r);
            if r.kind == END_OF_FILE {
              LoadStops(begin, lines, i);
              return;
            }
            base := LoadRecord(base, r);
        }
      }
      assert lines[..|lines|] == lines;
    }

    method LoadRecord(base: nat, r: Record) returns (base': nat)
      requires r.kind != END_OF_FILE
      modifies this
      ensures Loading(Contents(), base', false) == Apply(Loading(old(Contents()), base, false), r)
    {
      base' := base;
      if r.kind == DATA {
        StoreBytes(base + r.address, r.data);
        if r.data != [] {
          blocks := blocks[base + r.address := r.data];
        }
      } else if r.kind == EXTENDED_SEGMENT {
        base' := BigEndian(r.data) * 16;
      } else if r.kind == EXTENDED_LINEAR {
        base' := BigEndian(r.data) * 0x1_0000;
      } else if r.kind == START_LINEAR {
        start := BigEndian(r.data);
      }
    }

    /** The other file wins, byte by byte and block by block; so two files whose views agree give one
        whose views agree exactly when the block maps conserve the image. */
    method MergeWith(other: IntelHexFile)
      modifies this
      ensures Contents() == Merge(old(Contents()), old(other.Contents()))
      ensures forall x: nat :: At(data, x) == if x in old(other.data) then At(old(other.data), x) else At(old(data), x)
      ensures old(Coherent(data, blocks)) && old(Coherent(other.data, other.blocks)) ==>
                (data == Flatten(blocks) <==> Conserves(old(blocks), old(other.blocks)))
    {
      hide Flatten;
      if Coherent(data, blocks) && Coherent(other.data, other.blocks) {
        MergeExact(blocks, other.blocks);
      }
      data, blocks := data + other.data, blocks + other.blocks;
    }

    method AddDataAtAddress(at: nat, bytes: seq<byte>)
      modifies this
      ensures Contents() == AddData(old(Contents()), at, bytes)
      ensures old(Coherent(data, blocks)) ==>
                (data == Flatten(blocks) <==> Conserves(old(blocks), map[at := bytes]))
    {
      hide Flatten;
      if Coherent(data, blocks) {
        UpdateExact(blocks, at, bytes);
      }
      StoreBytes(at, bytes);
      blocks := blocks[at := bytes];
    }

    /** `lines.append(record.to_hex_line())`; `next` names the records emitted by then. */
    static method Emit(lines: seq<string>, ghost rs: seq<Record>, r: Record, ghost next: seq<Record>)
      returns (lines': seq<string>)
      requires lines == Lines(rs) && next == rs + [r]
      ensures lines' == Lines(next)
    {
      lines' := lines + [r.ToLine()];
      assert next[..|next| - 1] == rs;
    }

    /** The extended address record both printers emit when the page changes. */
    static method EmitPage(lines: seq<string>, ghost items: seq<Block>, current: Option<nat>, page: nat)
      returns (lines': seq<string>)
      requires lines == Lines(Print(items)) && current == LastPage(items) && page < LIMIT
      ensures lines' == Lines(Begun(items, page))
    {
      lines' := lines;
      if current != Some(page) && page > 0xFFFF {
        lines' := Emit(lines, Print(items), PageRecord(page), Begun(items, page));
      } else {
        assert Begun(items, page) == Print(items);
      }
    }

    /** The chunk loop of the block printer. */
    static method EmitChunks(lines: seq<string>, ghost rs: seq<Record>, at: nat, bytes: seq<byte>)
      returns (lines': seq<string>)
      requires lines == Lines(rs)
      ensures lines' == Lines(rs + DataRecords(Pieces(Block(at, bytes))))
    {
      hide Lines, Piece, Covered, DataRecords, DataRecord, PiecesUpTo, PieceCount, Record.ToLine;
      lines' := lines;
      var offset := 0;
      ghost var k, b := 0, Block(at, bytes);
      ghost var emitted := rs;
      NoneEmitted(rs, b);
      while offset < |bytes|
        invariant k <= PieceCount(|bytes|) && offset == Covered(b, k)
        invariant emitted == rs + DataRecords(PiecesUpTo(b, k)) && lines' == Lines(emitted)
      {
        var size := if |bytes| - offset < CHUNK then |bytes| - offset else CHUNK;
        var r := Record(size, Low(at + offset), DATA, bytes[offset..offset + size]);
        AllCovered(b, k);
        ChunkIsPiece(b, k, offset, size);
        EmittedNext(rs, b, k);
        ghost var next := emitted + [r];
        lines' := Emit(lines', emitted, r, next);
        offset, k, emitted := offset + size, k + 1, next;
      }
      AllCovered(b, k);
      assert emitted == rs + DataRecords(Pieces(b));
    }

    /** The block printer: one pass over the blocks in address order. */
    method MemoryBlockLines() returns (lines: seq<string>)
      ensures lines == Lines(Print(Items(blocks)))
    {
      assert Lines(Print([])) == [];
      hide Lines, Print, Begun, Page, PiecesUpTo, PieceCount;
      lines := [];
      var keys := Sorted(blocks.Keys);
      ghost var items := Items(blocks);
      var current: Option<nat> := None;
      for i := 0 to |keys|
        invariant lines == Lines(Print(items[..i])) && current == LastPage(items[..i])
      {
        var page := Page(keys[i]);
        lines := EmitPage(lines, items[..i], current, page);
        lines := EmitChunks(lines, Begun(items[..i], page), keys[i], blocks[keys[i]]);
        current := Some(page);
        PrintNext(items, i);
      }
      assert items[..|keys|] == items;
    }

    /** The inner loop of the byte printer: gather the run that starts at index `begin`. */
    static method GatherRun(data: map<nat, byte>, keys: seq<nat>, begin: nat) returns (bytes: seq<byte>, i: nat)
      requires begin < |keys| && AllIn(keys, data)
      ensures begin < i == begin + RunLength(keys, begin, 0) <= |keys|
      ensures bytes == RunAt(data, keys, begin).bytes
    {
      RunProgress(keys, begin);
      GatheredIsRun(data, keys, begin);
      bytes, i := [], begin;
      var count := 0;
      hide RunLength, Gather, AllIn, Page, RunAt, Extends;
      while i < |keys| && count < CHUNK && keys[i] == keys[begin] + count && Page(keys[i]) == Page(keys[begin])
        invariant i == begin + count && count <= CHUNK && i <= |keys|
        invariant bytes == Gather(data, keys, begin, count)
        invariant RunLength(keys, begin, count) == RunLength(keys, begin, 0)
      {
        GatherNext(data, keys, begin, count);
        RunGoesOn(keys, begin, count);
        bytes := bytes + [data[keys[i]]];
        count, i := count + 1, i + 1;
      }
      RunStops(keys, begin, count);
    }

    /** One turn of the byte printer's outer loop: the page record if due, and one run. */
    static method EmitRun(data: map<nat, byte>, keys: seq<nat>, i: nat, lines: seq<string>,
                          current: Option<nat>, ghost runs: seq<Block>)
      returns (lines': seq<string>, i': nat, ghost runs': seq<Block>)
      requires i < |keys| && AllIn(keys, data) && Splits(runs, data, keys, i)
      requires lines == Lines(Print(runs)) && current == LastPage(runs)
      ensures i < i' <= |keys| && Splits(runs', data, keys, i')
      ensures lines' == Lines(Print(runs')) && LastPage(runs') == Some(Page(keys[i]))
    {
      hide *;
      var page, low := Page(keys[i]), Low(keys[i]);
      lines' := EmitPage(lines, runs, current, page);
      var bytes;
      bytes, i' := GatherRun(data, keys, i);
      runs' := RunsNext(runs, data, keys, i);
      lines' := Emit(lines', Begun(runs, page), Record(|bytes|, low, DATA, bytes), Print(runs'));
    }

    /** The outer loop of the byte printer over the sorted addresses. */
    static method RunLines(data: map<nat, byte>, keys: seq<nat>) returns (lines: seq<string>)
      requires AllIn(keys, data)
      ensures lines == Lines(Print(Runs(data, keys, 0)))
    {
      assert Lines(Print([])) == [] && LastPage([]) == None;
      hide *;
      lines := [];
      var current: Option<nat> := None;
      ghost var runs: seq<Block> := [];
      var i := 0;
      SplitsStart(data, keys);
      while i < |keys|
        invariant i <= |keys|
        invariant lines == Lines(Print(runs)) && current == LastPage(runs)
        invariant Splits(runs, data, keys, i)
        decreases |keys| - i
      {
        var page := Page(keys[i]);
        lines, i, runs := EmitRun(data, keys, i, lines, current, runs);
        current := Some(page);
      }
      SplitsEnd(runs, data, keys);
    }

    /** The byte printer: consecutive addresses grouped into records of at most sixteen bytes. */
    method IndividualByteLines() returns (lines: seq<string>)
      ensures lines == Lines(Print(AllRuns(data)))
    {
      lines := RunLines(data, Sorted(data.Keys));
    }

    /** What a save writes to the file, if anything. */
    method Save() returns (text: Option<string>)
      ensures text == SavedText(Contents())
    {
      if data == map[] && blocks == map[] {
        return None;
      }
      var lines;
      if blocks != map[] {
        lines := MemoryBlockLines();
      } else {
        lines := IndividualByteLines();
      }
      ghost var printed := if blocks != map[] then Print(Items(blocks)) else Print(AllRuns(data));
      lines := Emit(lines, printed, EOF_RECORD, SavedRecords(Contents()));
      text := Some(HexText.JoinLines(lines));
    }

    /** `set_memory_dict`: the block map is taken as given and the byte view rebuilt from it in the
        order the dictionary lists its blocks. */
    method SetMemory(memory: seq<Block>)
      modifies this
      ensures Contents() == HexLoader.Contents(Overlay(memory), BlockMap(memory), old(start))
    {
      data, blocks := map[], BlockMap(memory);
      for i := 0 to |memory|
        invariant data == Overlay(memory[..i]) && blocks == BlockMap(memory) && start == old(start)
      {
        StoreBytes(memory[i].at, memory[i].bytes);
        assert memory[..i + 1][..i] == memory[..i];
      }
      assert memory[..|memory|] == memory;
    }
  }

  // ---- lemmas for the object -----------------------------------------------------------------

  lemma RecordsOfOne(line: string)
    ensures Records([line]) == match FromLine(line) { case Some(r) => [r] case None => [] }
  {
    assert [line][..0] == [];
  }

  lemma ApplyOne(l: Loading, r: Record)
    ensures ApplyAll(l, [r]) == Apply(l, r)
  {
    assert [r][..0] == [];
  }

  /** Once an End of File record has been applied, the remaining lines change nothing. */
  lemma LoadStops(l: Loading, lines: seq<string>, i: nat)
    requires i < |lines| && ApplyAll(l, Records(lines[..i + 1])).done
    ensures ApplyAll(l, Records(lines)) == ApplyAll(l, Records(lines[..i + 1]))
  {
    hide Records, ApplyAll, Apply;
    assert lines == lines[..i + 1] + lines[i + 1..];
    RecordsAppend(lines[..i + 1], lines[i + 1..]);
    ApplyAllAppend(l, Records(lines[..i + 1]), Records(lines[i + 1..]));
    ApplyAllDone(ApplyAll(l, Records(lines[..i + 1])), Records(lines[i + 1..]));
  }

  lemma NoneEmitted(rs: seq<Record>, b: Block)
    ensures Covered(b, 0) == 0 && rs == rs + DataRecords(PiecesUpTo(b, 0))
  {
  }

  lemma ChunkIsPiece(b: Block, k: nat, offset: nat, size: nat)
    requires k < PieceCount(|b.bytes|) && offset == Covered(b, k) < |b.bytes|
    requires size == if |b.bytes| - offset < CHUNK then |b.bytes| - offset else CHUNK
    ensures DataRecord(Piece(b, k)) == Record(size, Low(b.at + offset), DATA, b.bytes[offset..offset + size])
    ensures offset + size == Covered(b, k + 1)
  {
  }

  lemma AllCovered(b: Block, k: nat)
    requires k <= PieceCount(|b.bytes|)
    ensures Covered(b, k) == |b.bytes| <==> k == PieceCount(|b.bytes|)
  {
  }

  lemma EmittedNext(rs: seq<Record>, b: Block, k: nat)
    requires k < PieceCount(|b.bytes|)
    ensures rs + DataRecords(PiecesUpTo(b, k)) + [DataRecord(Piece(b, k))]
         == rs + DataRecords(PiecesUpTo(b, k + 1))
  {
    DataRecordsSnoc(PiecesUpTo(b, k), Piece(b, k));
    Assoc(rs, DataRecords(PiecesUpTo(b, k)), [DataRecord(Piece(b, k))]);
  }

  /** Everything printed up to the data records of the next block. */
  function Begun(items: seq<Block>, page: nat): (rs: seq<Record>)
    requires page < LIMIT
  {
    Print(items) + PageChange(LastPage(items), page)
  }

  lemma PrintNext(items: seq<Block>, i: nat)
    requires i < |items|
    ensures Begun(items[..i], Page(items[i].at)) + DataRecords(Pieces(items[i])) == Print(items[..i + 1])
    ensures LastPage(items[..i + 1]) == Some(Page(items[i].at))
  {
    assert items[..i + 1] == items[..i] + [items[i]];
    PrintSnoc(items[..i], items[i]);
  }

  /** The runs found so far and those from index `i` on are all the runs. */
  ghost predicate Splits(runs: seq<Block>, m: map<nat, byte>, keys: seq<nat>, i: nat)
    requires i <= |keys| && AllIn(keys, m)
  {
    runs + Runs(m, keys, i) == Runs(m, keys, 0)
  }

  lemma SplitsStart(m: map<nat, byte>, keys: seq<nat>)
    requires AllIn(keys, m)
    ensures Splits([], m, keys, 0)
  {
  }

  lemma SplitsEnd(runs: seq<Block>, m: map<nat, byte>, keys: seq<nat>)
    requires AllIn(keys, m) && Splits(runs, m, keys, |keys|)
    ensures runs == Runs(m, keys, 0)
  {
    assert runs + [] == runs;
  }

  lemma RunsNext(runs: seq<Block>, m: map<nat, byte>, keys: seq<nat>, i: nat) returns (next: seq<Block>)
    requires i < |keys| && AllIn(keys, m) && Splits(runs, m, keys, i)
    ensures i + RunLength(keys, i, 0) <= |keys| && Splits(next, m, keys, i + RunLength(keys, i, 0))
    ensures var bytes := RunAt(m, keys, i).bytes;
            Print(next) == Begun(runs, Page(keys[i])) + [Record(|bytes|, Low(keys[i]), DATA, bytes)]
    ensures LastPage(next) == Some(Page(keys[i]))
  {
    next := runs + [RunAt(m, keys, i)];
    RunProgress(keys, i);
    PrintPiece(runs, RunAt(m, keys, i));
    Assoc(runs, [RunAt(m, keys, i)], Runs(m, keys, i + RunLength(keys, i, 0)));
  }
}
