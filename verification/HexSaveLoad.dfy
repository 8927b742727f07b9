/** Whole files: what a save writes, loaded again, and what merging and patching do to it. */
module HexSaveLoad {
  import opened Wrappers
  import opened Ascending
  import opened HexRecord
  import opened MemoryImage
  import opened HexLoader
  import opened HexPrinter
  import opened HexRoundTrip
  import opened HexRuns
  import opened HexFile
  import HexText

  lemma LoadPrintedText(rs: seq<Record>)
    requires AllPrintable(rs) && !ApplyAll(FRESH, rs).done
    ensures LoadText(EMPTY, HexText.JoinLines(Lines(rs + [EOF_RECORD]))) == ApplyAll(FRESH, rs).file
  {
    RecordsOfText(rs + [EOF_RECORD]);
    assert (rs + [EOF_RECORD])[..|rs + [EOF_RECORD]| - 1] == rs;
  }

  /** The object that loading a saved block form gives. */
  lemma LoadSavedBlocks(file: Contents)
    requires file.blocks != map[]
    ensures SavedText(file).Some?
    ensures LoadText(EMPTY, SavedText(file).value) == ApplyAll(FRESH, Print(Items(file.blocks))).file
  {
    var items := Items(file.blocks);
    PrintIsPrintable(items);
    LoadPrinted(items);
    LoadPrintedText(Print(items));
  }

  lemma LoadSavedBytes(file: Contents)
    requires file.blocks == map[] && file.data != map[]
    ensures SavedText(file).Some?
    ensures LoadText(EMPTY, SavedText(file).value) == ApplyAll(FRESH, Print(AllRuns(file.data))).file
  {
    var runs := AllRuns(file.data);
    PrintIsPrintable(runs);
    LoadPrinted(runs);
    LoadPrintedText(Print(runs));
  }

  lemma ItemsDisjoint(blocks: map<nat, seq<byte>>)
    requires Disjoint(blocks) && forall s :: s in blocks ==> blocks[s] != []
    ensures DisjointBlocks(Items(blocks)) && NoneEmpty(Items(blocks))
  {
    ItemsAscend(blocks);
  }

  /** Every block's chunks start in the block's own page, below 2^32. */
  predicate BlocksInPage(blocks: map<nat, seq<byte>>) {
    forall s :: s in blocks ==> InPage(Block(s, blocks[s]))
  }

  lemma ItemsInPage(blocks: map<nat, seq<byte>>)
    ensures BlocksInPage(blocks) <==> AllInPage(Items(blocks))
  {
    ItemsAscend(blocks);
    var items := Items(blocks);
    if AllInPage(items) {
      forall s | s in blocks
        ensures InPage(Block(s, blocks[s]))
      {
        var i :| 0 <= i < |items| && items[i] == Block(s, blocks[s]);
      }
    } else {
      var i :| 0 <= i < |items| && !InPage(items[i]);
      assert items[i] == Block(items[i].at, blocks[items[i].at]);
    }
  }

  // ---- main results --------------------------------------------------------------------------

  /** Saving a coherent file and loading the text gives back the bytes if and only if every chunk
      lies in its block's page. */
  lemma SaveLoadExact(file: Contents)
    requires Coherent(file.data, file.blocks) && file.blocks != map[]
    ensures SavedText(file).Some?
    ensures LoadText(EMPTY, SavedText(file).value).data == file.data <==> BlocksInPage(file.blocks)
  {
    LoadSavedBlocks(file);
    ItemsDisjoint(file.blocks);
    ItemsInPage(file.blocks);
    LoadPrintedExact(Items(file.blocks));
  }

  /** The byte form saves and loads exactly the maps with all addresses below 2^32. */
  lemma SaveLoadBytesExact(file: Contents)
    requires file.blocks == map[] && file.data != map[]
    ensures SavedText(file).Some?
    ensures LoadText(EMPTY, SavedText(file).value).data == file.data
       <==> forall x :: x in file.data ==> x < LIMIT
  {
    LoadSavedBytes(file);
    BytePrinterExact(file.data);
  }

  /** Saving any file whose blocks stay in their pages, overlapping or not, and loading the text gives
      back the byte view if and only if the two views agree. */
  lemma SaveLoadAgrees(file: Contents)
    requires file.blocks != map[] && BlocksInPage(file.blocks)
    ensures SavedText(file).Some?
    ensures LoadText(EMPTY, SavedText(file).value).data == file.data <==> file.data == Flatten(file.blocks)
  {
    var s :| s in file.blocks;
    LoadSavedInPage(file, s);
  }

  predicate BlocksNonEmpty(blocks: map<nat, seq<byte>>) {
    forall s :: s in blocks ==> blocks[s] != []
  }

  lemma ItemsNonEmpty(blocks: map<nat, seq<byte>>)
    requires BlocksNonEmpty(blocks)
    ensures NoneEmpty(Items(blocks)) && AscendingBlocks(Items(blocks))
    ensures blocks != map[] ==> Items(blocks) != []
  {
    ItemsAscend(blocks);
    if blocks != map[] {
      var s :| s in blocks;
      assert Block(s, blocks[s]) in Items(blocks);
    }
  }

  /** The text of a list of printable records, read back, tells the records. */
  lemma SameTextSameRecords(rs: seq<Record>, others: seq<Record>)
    requires AllPrintable(rs) && AllPrintable(others)
    requires HexText.JoinLines(Lines(rs)) == HexText.JoinLines(Lines(others))
    ensures rs == others
  {
    hide Lines, Records;
    RecordsOfText(rs);
    RecordsOfText(others);
  }

  lemma SameSaveSamePrint(items: seq<Block>, others: seq<Block>)
    ensures HexText.JoinLines(Lines(Print(items) + [EOF_RECORD]))
         == HexText.JoinLines(Lines(Print(others) + [EOF_RECORD]))
       <==> Print(items) == Print(others)
  {
    hide Lines, Print;
    var a, b := Print(items) + [EOF_RECORD], Print(others) + [EOF_RECORD];
    if HexText.JoinLines(Lines(a)) == HexText.JoinLines(Lines(b)) {
      PrintIsPrintable(items);
      PrintIsPrintable(others);
      SameTextSameRecords(a, b);
      assert a[..|a| - 1] == Print(items) && b[..|b| - 1] == Print(others);
    }
  }

  /** The blocks of a loaded save: the chunks of the saved blocks. */
  lemma LoadedSave(file: Contents)
    requires file.blocks != map[] && BlocksNonEmpty(file.blocks) && BlocksInPage(file.blocks)
    ensures SavedText(file).Some?
    ensures var again := LoadText(EMPTY, SavedText(file).value).blocks;
            && Items(again) == Reloaded(Items(file.blocks))
            && again != map[] && BlocksNonEmpty(again) && BlocksInPage(again)
  {
    hide SavedText, LoadText, ApplyAll, Print, Items, Reloaded, ChunksInOrder, BlocksInPage, AllInPage, NoneEmpty,
      AllSmall, AscendingBlocks, BlocksNonEmpty;
    var items := Items(file.blocks);
    LoadSavedBlocks(file);
    ItemsNonEmpty(file.blocks);
    ItemsInPage(file.blocks);
    PrintIsFixedPoint(items);
    ReloadedAre(items);
    var again := LoadText(EMPTY, SavedText(file).value).blocks;
    ItemsInPage(again);
    PrintedBlocksRemain(items);
    ItemsTell(again);
  }

  lemma ItemsTell(blocks: map<nat, seq<byte>>)
    requires NoneEmpty(Items(blocks))
    ensures BlocksNonEmpty(blocks)
  {
    hide Items;
    ItemsAscend(blocks);
    forall s | s in blocks
      ensures blocks[s] != []
    {
      var i :| 0 <= i < |Items(blocks)| && Items(blocks)[i] == Block(s, blocks[s]);
    }
  }

  /** Saving what was loaded from a saved text writes the same text exactly when the chunks of the
      blocks are in order; disjoint blocks always are. */
  lemma SaveLoadSave(file: Contents)
    requires file.blocks != map[] && BlocksNonEmpty(file.blocks) && BlocksInPage(file.blocks)
    ensures SavedText(file).Some? && NoneEmpty(Items(file.blocks))
    ensures SavedText(LoadText(EMPTY, SavedText(file).value)) == SavedText(file) <==> ChunksInOrder(Items(file.blocks))
    ensures Disjoint(file.blocks) ==> ChunksInOrder(Items(file.blocks))
  {
    var items := Items(file.blocks);
    LoadedSave(file);
    ItemsNonEmpty(file.blocks);
    ItemsInPage(file.blocks);
    if Disjoint(file.blocks) {
      ItemsDisjoint(file.blocks);
      DisjointInOrder(items);
    }
    hide LoadText, Print, Items, Reloaded, ChunksInOrder, BlocksInPage, Lines;
    PrintIsFixedPoint(items);
    SameSaveSamePrint(items, Reloaded(items));
  }

  /** The second pass writes the same text in any case. */
  lemma SecondPassNormalises(file: Contents)
    requires file.blocks != map[] && BlocksNonEmpty(file.blocks) && BlocksInPage(file.blocks)
    ensures SavedText(file).Some? && SavedText(LoadText(EMPTY, SavedText(file).value)).Some?
    ensures var once := LoadText(EMPTY, SavedText(file).value);
            SavedText(LoadText(EMPTY, SavedText(once).value)) == SavedText(once)
  {
    LoadedSave(file);
    ItemsNonEmpty(file.blocks);
    ItemsInPage(file.blocks);
    hide SavedText, LoadText, Print, Items, Reloaded, ChunksInOrder, BlocksInPage;
    var once := LoadText(EMPTY, SavedText(file).value);
    ReloadedAre(Items(file.blocks));
    SmallInOrder(Reloaded(Items(file.blocks)));
    SaveLoadSave(once);
  }

  lemma PrintedBlocksRemain(items: seq<Block>)
    requires items != [] && AllInPage(items) && NoneEmpty(items) && AscendingBlocks(items)
    ensures ApplyAll(FRESH, Print(items)).file.blocks != map[]
  {
    hide AllPieces, Print, ApplyAll, PieceCount, Piece, BlockMap, AllInPage, AscendingBlocks;
    LoadPrintedInPage(items);
    PieceCountPositive(items[0]);
    var n := PieceIn(items, 0, 0);
    SomeBlockKept(AllPieces(items));
  }

  lemma SomeBlockKept(stored: seq<Block>)
    requires stored != []
    ensures BlockMap(stored) != map[]
  {
    assert stored[|stored| - 1].at in BlockMap(stored);
  }

  lemma PieceCountPositive(b: Block)
    requires b.bytes != []
    ensures PieceCount(|b.bytes|) > 0
  {
  }

  lemma {:induction false} LoadedNonEmpty(rs: seq<Record>)
    ensures BlocksNonEmpty(ApplyAll(FRESH, rs).file.blocks)
  {
    if rs != [] {
      LoadedNonEmpty(rs[..|rs| - 1]);
    }
  }

  /** For every text, whatever its lines and however its data records overlap, if the blocks stay in
      their pages: the first save keeps the bytes exactly when the records keep the order of the
      starts, a load and save repeats it exactly when the chunks are in order, and the second load
      and save is repeated in any case. */
  lemma LoadSaveNormalises(text: string)
    requires LoadText(EMPTY, text).blocks != map[] && BlocksInPage(LoadText(EMPTY, text).blocks)
    ensures var file := LoadText(EMPTY, text);
            && SavedText(file).Some? && NoneEmpty(Items(file.blocks))
            && var once := LoadText(EMPTY, SavedText(file).value);
            && (once.data == file.data <==> OrderIsKept(Stores(FRESH, Records(HexText.ReadLines(text)))))
            && (SavedText(once) == SavedText(file) <==> ChunksInOrder(Items(file.blocks)))
            && SavedText(once).Some?
            && SavedText(LoadText(EMPTY, SavedText(once).value)) == SavedText(once)
  {
    var rs, file := Records(HexText.ReadLines(text)), LoadText(EMPTY, text);
    assert file == ApplyAll(FRESH, rs).file;
    hide SavedText, LoadText, Items, Flatten, BlocksInPage, OrderIsKept, Stores, Records, ApplyAll, ChunksInOrder;
    LoadedNonEmpty(rs);
    LoadAgreesExactly(rs);
    SaveLoadAgrees(file);
    SaveLoadSave(file);
    SecondPassNormalises(file);
  }

  /** Records that keep clear of each other keep that order, and the chunks of what they store are in
      order: one pass normalises. */
  lemma ClearTextNormalises(text: string)
    requires RecordsKeepClear(FRESH, Records(HexText.ReadLines(text)))
    requires LoadText(EMPTY, text).blocks != map[] && BlocksInPage(LoadText(EMPTY, text).blocks)
    ensures SavedText(LoadText(EMPTY, text)).Some?
    ensures var saved := SavedText(LoadText(EMPTY, text)).value;
            && LoadText(EMPTY, saved).data == LoadText(EMPTY, text).data
            && SavedText(LoadText(EMPTY, saved)) == Some(saved)
  {
    EmptyCoherent();
    LoadIsCoherent(FRESH, Records(HexText.ReadLines(text)));
    SaveLoadExact(LoadText(EMPTY, text));
    SaveLoadSave(LoadText(EMPTY, text));
  }

  lemma EmptyCoherent()
    ensures Coherent(EMPTY.data, EMPTY.blocks)
  {
    assert Items(map[]) == [];
  }

  /** A patch shorter than the block at its own start truncates that block: the byte just after the
      patch is still in the byte view but gone from the saved file. */
  lemma ShorterPatchTruncates(file: Contents, at: nat, bytes: seq<byte>)
    requires Coherent(file.data, file.blocks) && at in file.blocks && |file.blocks[at]| > |bytes|
    requires BlocksInPage(file.blocks[at := bytes])
    ensures At(file.data, at + |bytes|).Some?
    ensures At(AddData(file, at, bytes).data, at + |bytes|) == At(file.data, at + |bytes|)
    ensures SavedText(AddData(file, at, bytes)).Some?
    ensures At(LoadText(EMPTY, SavedText(AddData(file, at, bytes)).value).data, at + |bytes|) == None
  {
    UpdateLosesTail(file.blocks, at, bytes);
    AddKeepsTail(file, at, bytes);
    LoadSavedInPage(AddData(file, at, bytes), at);
  }

  lemma AddKeepsTail(file: Contents, at: nat, bytes: seq<byte>)
    ensures At(AddData(file, at, bytes).data, at + |bytes|) == At(file.data, at + |bytes|)
  {
    WriteAt(file.data, at, bytes, at + |bytes|);
  }

  /** What a save of blocks in their pages loads back to, whether or not they overlap. */
  lemma LoadSavedInPage(file: Contents, s: nat)
    requires s in file.blocks && BlocksInPage(file.blocks)
    ensures SavedText(file).Some?
    ensures LoadText(EMPTY, SavedText(file).value).data == Flatten(file.blocks)
  {
    LoadSavedBlocks(file);
    ItemsAscend(file.blocks);
    ItemsInPage(file.blocks);
    LoadPrintedInPage(Items(file.blocks));
  }

  const TWO_BYTES: map<nat, seq<byte>> := map[0 := [1, 2]]

  lemma TwoBytes()
    ensures Disjoint(TWO_BYTES) && (forall s :: s in TWO_BYTES ==> TWO_BYTES[s] != [])
    ensures 0 in TWO_BYTES && |TWO_BYTES[0]| == 2
    ensures BlocksInPage(TWO_BYTES[0 := [9]])
  {
  }

  /** A concrete file where that happens: two bytes at address zero, the first one patched. */
  lemma TruncationExample()
    ensures var patched := AddData(Contents(Flatten(TWO_BYTES), TWO_BYTES, 0), 0, [9]);
            SavedText(patched).Some?
            && At(LoadText(EMPTY, SavedText(patched).value).data, 1) != At(patched.data, 1)
  {
    hide SavedText, LoadText, AddData, Flatten, BlocksInPage, At;
    TwoBytes();
    var file, bytes: seq<byte> := Contents(Flatten(TWO_BYTES), TWO_BYTES, 0), [9];
    assert 0 + |bytes| == 1;
    ShorterPatchTruncates(file, 0, bytes);
  }

  /** A save writes no start address, so a loaded save has the file's start address exactly when that
      is zero. */
  lemma StartAddressExact(file: Contents)
    requires SavedText(file).Some?
    ensures LoadText(EMPTY, SavedText(file).value).start == file.start <==> file.start == 0
  {
    if file.blocks != map[] {
      LoadSavedBlocks(file);
      LoadPrinted(Items(file.blocks));
    } else {
      LoadSavedBytes(file);
      LoadPrinted(AllRuns(file.data));
    }
  }

  // ---- files that show the exceptions --------------------------------------------------------

  /** With a start address other than zero. */
  lemma StartAddressExample()
    ensures var file := Contents(Flatten(TWO_BYTES), TWO_BYTES, 5);
            SavedText(file).Some? && LoadText(EMPTY, SavedText(file).value).start != file.start
  {
    hide SavedText, LoadText, Flatten;
    LoadSavedBlocksThere();
    StartAddressExact(Contents(Flatten(TWO_BYTES), TWO_BYTES, 5));
  }

  lemma LoadSavedBlocksThere()
    ensures SavedText(Contents(Flatten(TWO_BYTES), TWO_BYTES, 5)).Some?
  {
    assert 0 in TWO_BYTES;
    hide Flatten;
  }

  /** A block of 32 bytes at 0xFFF0: its second chunk belongs to the next page. */
  lemma PageCrossingExample(bytes: seq<byte>)
    requires |bytes| == 32
    ensures var blocks := map[0xFFF0 := bytes];
            var file := Contents(Flatten(blocks), blocks, 0);
            SavedText(file).Some? && LoadText(EMPTY, SavedText(file).value).data != file.data
  {
    var blocks: map<nat, seq<byte>> := map[0xFFF0 := bytes];
    assert 0xFFF0 in blocks && !InPage(Block(0xFFF0, blocks[0xFFF0]));
    hide SavedText, LoadText, Flatten, InPage;
    SaveLoadExact(Contents(Flatten(blocks), blocks, 0));
  }
}
