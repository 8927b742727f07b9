/** Loading what was printed gives back the image, exactly when every chunk lies in its block's
    64 KiB page; and printing the reloaded blocks gives the same records again. */
module HexRoundTrip {
  import opened Wrappers
  import opened HexRecord
  import opened MemoryImage
  import opened HexLoader
  import opened HexPrinter

  /** The block starts below 2^32 and each of its chunks starts in the page where the block does. */
  predicate InPage(b: Block) {
    b.at < LIMIT && (b.bytes != [] ==> b.at % PAGE + 16 * (PieceCount(|b.bytes|) - 1) < PAGE)
  }

  predicate AllInPage(items: seq<Block>) {
    forall i :: 0 <= i < |items| ==> InPage(items[i])
  }

  predicate NoneEmpty(items: seq<Block>) {
    forall i :: 0 <= i < |items| ==> items[i].bytes != []
  }

  lemma PageOf(a: nat)
    requires a < LIMIT
    ensures Page(a) == a / PAGE * PAGE
  {
    assert a / PAGE < PAGE;
  }

  /** Below 2^32 the loader's base is the page of the last block. */
  lemma {:induction false} BaseIsPage(items: seq<Block>)
    requires AscendingBlocks(items) && items != [] && items[|items| - 1].at < LIMIT
    ensures BaseAfter(items) == Page(items[|items| - 1].at)
  {
    var before, last := items[..|items| - 1], items[|items| - 1];
    if before != [] {
      BaseIsPage(before);
      PageOf(before[|before| - 1].at);
      PageOf(last.at);
    }
  }

  // ---- pieces that stay home -----------------------------------------------------------------

  lemma MoveHome(b: Block, k: nat)
    requires InPage(b) && k < PieceCount(|b.bytes|)
    ensures MoveOne(Piece(b, k), Page(b.at)) == Piece(b, k)
  {
    PageOf(b.at);
    SameQuotient(b.at, 16 * k);
  }

  lemma SameQuotient(a: nat, d: nat)
    requires a % PAGE + d < PAGE
    ensures a / PAGE * PAGE + (a + d) % PAGE == a + d
  {
    assert a + d == a / PAGE * PAGE + (a % PAGE + d);
  }

  lemma {:induction false} PlacedHome(items: seq<Block>)
    requires AscendingBlocks(items) && AllInPage(items)
    ensures Placed(items) == AllPieces(items)
  {
    if items != [] {
      var before, last := items[..|items| - 1], items[|items| - 1];
      PlacedHome(before);
      BaseIsPage(items);
      forall k | 0 <= k < PieceCount(|last.bytes|)
        ensures MoveOne(Pieces(last)[k], Page(last.at)) == Pieces(last)[k]
      {
        MoveHome(last, k);
      }
      assert Move(Pieces(last), Page(last.at)) == Pieces(last);
    }
  }

  lemma {:induction false} WriteAppend(m: map<nat, byte>, at: nat, a: seq<byte>, b: seq<byte>)
    ensures Write(Write(m, at, a), at + |a|, b) == Write(m, at, a + b)
  {
    if b == [] {
      assert a + b == a;
    } else {
      WriteAppend(m, at, a, b[..|b| - 1]);
      assert (a + b)[..|a + b| - 1] == a + b[..|b| - 1];
    }
  }

  /** Octets of a block in its first `k` pieces. */
  function Covered(b: Block, k: nat): (n: nat)
    ensures n <= |b.bytes|
  {
    if 16 * k <= |b.bytes| then 16 * k else |b.bytes|
  }

  /** Those octets. */
  function Head(b: Block, k: nat): (bytes: seq<byte>)
  {
    b.bytes[..Covered(b, k)]
  }

  lemma PieceExtends(b: Block, k: nat)
    requires k < PieceCount(|b.bytes|)
    ensures Piece(b, k).at == b.at + Covered(b, k)
    ensures Head(b, k) + Piece(b, k).bytes == Head(b, k + 1)
  {
  }

  lemma OverlayNextPiece(placed: seq<Block>, m: map<nat, byte>, b: Block, k: nat)
    requires k < PieceCount(|b.bytes|)
    requires Overlay(placed) == Write(m, b.at, Head(b, k))
    ensures Overlay(placed + [Piece(b, k)]) == Write(m, b.at, Head(b, k + 1))
  {
    hide Overlay, Write;
    var p, head := Piece(b, k), Head(b, k);
    calc {
      Overlay(placed + [p]);
      { OverlaySnoc(placed, p); }
      Write(Write(m, b.at, head), p.at, p.bytes);
      { PieceExtends(b, k); assert p.at == b.at + |head|; }
      Write(Write(m, b.at, head), b.at + |head|, p.bytes);
      { WriteAppend(m, b.at, head, p.bytes); }
      Write(m, b.at, head + p.bytes);
      { PieceExtends(b, k); }
      Write(m, b.at, Head(b, k + 1));
    }
  }

  lemma OverlayNoPieces(before: seq<Block>, b: Block)
    ensures Overlay(before + PiecesUpTo(b, 0)) == Write(Overlay(before), b.at, Head(b, 0))
  {
    hide Overlay;
    assert before + PiecesUpTo(b, 0) == before;
  }

  lemma {:induction false} OverlayPiecesUpTo(before: seq<Block>, b: Block, k: nat)
    requires k <= PieceCount(|b.bytes|)
    ensures Overlay(before + PiecesUpTo(b, k)) == Write(Overlay(before), b.at, Head(b, k))
  {
    hide Overlay, Write, Head, Piece, PieceCount;
    if k == 0 {
      OverlayNoPieces(before, b);
    } else {
      var j := k - 1;
      OverlayPiecesUpTo(before, b, j);
      OverlayNextPiece(before + PiecesUpTo(b, j), Overlay(before), b, j);
      Assoc(before, PiecesUpTo(b, j), [Piece(b, j)]);
    }
  }

  /** Storing the pieces of a block one by one stores the block. */
  lemma OverlayPieces(before: seq<Block>, b: Block)
    ensures Overlay(before + Pieces(b)) == Write(Overlay(before), b.at, b.bytes)
  {
    OverlayPiecesUpTo(before, b, PieceCount(|b.bytes|));
    assert Head(b, PieceCount(|b.bytes|)) == b.bytes;
  }

  lemma {:induction false} OverlayAllPieces(items: seq<Block>)
    ensures Overlay(AllPieces(items)) == Overlay(items)
  {
    if items != [] {
      OverlayAllPieces(items[..|items| - 1]);
      OverlayPieces(AllPieces(items[..|items| - 1]), items[|items| - 1]);
    }
  }

  // ---- pieces that stray ---------------------------------------------------------------------

  lemma {:induction false} PlacedFrom(items: seq<Block>, p: Block) returns (j: nat, k: nat)
    requires p in Placed(items)
    ensures j < |items| && k < PieceCount(|items[j].bytes|)
    ensures p == MoveOne(Piece(items[j], k), BaseAfter(items[..j + 1]))
  {
    hide Placed, Pieces, Move, MoveOne, BaseAfter, PieceCount, Piece;
    PlacedIn(items, p);
    var n := |items| - 1;
    if p in Placed(items[..n]) {
      j, k := PlacedFrom(items[..n], p);
      PrefixOfPrefix(items, n, j + 1);
    } else {
      j := n;
      k := MovedFrom(items[n], BaseAfter(items), p);
      PrefixOfPrefix(items, n + 1, n + 1);
    }
  }

  lemma PrefixOfPrefix<T>(s: seq<T>, n: nat, k: nat)
    requires k <= n <= |s|
    ensures s[..n][..k] == s[..k] && s[..|s|] == s
  {
  }

  lemma PlacedIn(items: seq<Block>, p: Block)
    requires p in Placed(items)
    ensures items != []
    ensures var last := items[|items| - 1];
            p in Placed(items[..|items| - 1]) || p in Move(Pieces(last), BaseAfter(items))
  {
    hide Pieces, Move, BaseAfter;
  }

  lemma MovedFrom(b: Block, base: nat, p: Block) returns (k: nat)
    requires p in Move(Pieces(b), base)
    ensures k < PieceCount(|b.bytes|) && p == MoveOne(Piece(b, k), base)
  {
    k :| 0 <= k < |Pieces(b)| && Move(Pieces(b), base)[k] == p;
  }

  lemma PieceAbove(b: Block, k: nat)
    requires k < PieceCount(|b.bytes|)
    ensures b.at <= Piece(b, k).at
  {
  }

  lemma BaseBelow(at: nat, address: nat, base: nat)
    requires at <= address && base % PAGE == 0 && base < LIMIT
    requires at < LIMIT ==> base == at / PAGE * PAGE
    ensures base <= address / PAGE * PAGE && address == address / PAGE * PAGE + address % PAGE
  {
    if at >= LIMIT {
      assert address / PAGE >= PAGE;
    }
  }

  lemma WholePages(a: nat, b: nat)
    requires a % PAGE == 0 && b % PAGE == 0 && b <= a
    ensures b == a || b + PAGE <= a
  {
  }

  lemma BaseOf(items: seq<Block>, j: nat)
    requires AscendingBlocks(items) && j < |items| && items[j].at < LIMIT
    ensures BaseAfter(items[..j + 1]) == items[j].at / PAGE * PAGE
  {
    hide BaseAfter, Page;
    assert AscendingBlocks(items[..j + 1]);
    BaseIsPage(items[..j + 1]);
    PageOf(items[j].at);
  }

  lemma PlacedAt(p: Block, base: nat)
    requires base % PAGE == 0 && base <= p.at / PAGE * PAGE
    ensures MoveOne(p, base) == p || MoveOne(p, base).at + PAGE <= p.at
  {
    WholePages(p.at / PAGE * PAGE, base);
  }

  /** A piece is never placed above its own address, and a strayed one is a whole page below. */
  lemma PlacedLow(items: seq<Block>, j: nat, k: nat)
    requires AscendingBlocks(items) && j < |items| && k < PieceCount(|items[j].bytes|)
    ensures var p, base := Piece(items[j], k), BaseAfter(items[..j + 1]);
            MoveOne(p, base) == p || MoveOne(p, base).at + PAGE <= p.at
  {
    var p, base := Piece(items[j], k), BaseAfter(items[..j + 1]);
    PieceAbove(items[j], k);
    hide Piece, PieceCount, BaseAfter, MoveOne, AscendingBlocks;
    if items[j].at < LIMIT {
      BaseOf(items, j);
    }
    BaseBelow(items[j].at, p.at, base);
    PlacedAt(p, base);
  }

  /** The last piece of a block that is not in its page strays. */
  lemma LastPieceStrays(items: seq<Block>, j: nat)
    requires AscendingBlocks(items) && j < |items| && items[j].bytes != [] && !InPage(items[j])
    ensures var p := Piece(items[j], PieceCount(|items[j].bytes|) - 1);
            MoveOne(p, BaseAfter(items[..j + 1])) != p
  {
    var b := items[j];
    var p, base := Piece(b, PieceCount(|b.bytes|) - 1), BaseAfter(items[..j + 1]);
    if b.at < LIMIT {
      BaseIsPage(items[..j + 1]);
      PageOf(b.at);
      assert base + PAGE <= p.at;
    }
  }

  /** The last block that is not in its page loses the first address of its last piece. */
  lemma StrayIsMissed(items: seq<Block>, j: nat)
    requires DisjointBlocks(items) && NoneEmpty(items)
    requires j < |items| && !InPage(items[j])
    requires forall i :: j < i < |items| ==> InPage(items[i])
    ensures items[j].Covers(Piece(items[j], PieceCount(|items[j].bytes|) - 1).at)
    ensures At(Overlay(Placed(items)), Piece(items[j], PieceCount(|items[j].bytes|) - 1).at) == None
  {
    var x := Piece(items[j], PieceCount(|items[j].bytes|) - 1).at;
    assert AscendingBlocks(items);
    if At(Overlay(Placed(items)), x).Some? {
      var i := OverlayFrom(Placed(items), x);
      var l, k := PlacedFrom(items, Placed(items)[i]);
      StrayDoesNotReach(items, j, l, k);
    }
  }

  lemma StrayDoesNotReach(items: seq<Block>, j: nat, l: nat, k: nat)
    requires DisjointBlocks(items) && NoneEmpty(items) && AscendingBlocks(items)
    requires j < |items| && !InPage(items[j])
    requires forall i :: j < i < |items| ==> InPage(items[i])
    requires l < |items| && k < PieceCount(|items[l].bytes|)
    ensures !MoveOne(Piece(items[l], k), BaseAfter(items[..l + 1])).Covers(
              Piece(items[j], PieceCount(|items[j].bytes|) - 1).at)
  {
    var x := Piece(items[j], PieceCount(|items[j].bytes|) - 1).at;
    PlacedLow(items, l, k);
    if l > j {
      BaseIsPage(items[..l + 1]);
      MoveHome(items[l], k);
      assert items[j].End() <= items[l].at;
    } else if l < j {
      assert items[l].End() <= items[j].at;
    } else if k == PieceCount(|items[j].bytes|) - 1 {
      LastPieceStrays(items, j);
    }
  }

  lemma {:induction false} LastOutside(items: seq<Block>) returns (j: nat)
    requires !AllInPage(items)
    ensures j < |items| && !InPage(items[j])
    ensures forall i :: j < i < |items| ==> InPage(items[i])
  {
    j := |items| - 1;
    if InPage(items[j]) {
      j := LastOutside(items[..j]);
    }
  }

  // ---- main results --------------------------------------------------------------------------

  /** Blocks in address order whose chunks lie in their pages are loaded back byte for byte, even
      when they overlap: the later block wins, as in the byte view. */
  lemma LoadPrintedInPage(items: seq<Block>)
    requires AscendingBlocks(items) && AllInPage(items)
    ensures ApplyAll(FRESH, Print(items)).file.data == Overlay(items)
    ensures ApplyAll(FRESH, Print(items)).file.blocks == BlockMap(AllPieces(items))
  {
    LoadPrinted(items);
    PlacedHome(items);
    OverlayAllPieces(items);
  }

  /** For disjoint blocks that condition is exact. */
  lemma LoadPrintedExact(items: seq<Block>)
    requires DisjointBlocks(items) && NoneEmpty(items)
    ensures ApplyAll(FRESH, Print(items)).file.data == Overlay(items) <==> AllInPage(items)
  {
    assert AscendingBlocks(items);
    if AllInPage(items) {
      LoadPrintedInPage(items);
    } else {
      var j := LastOutside(items);
      LoadPrinted(items);
      StrayIsMissed(items, j);
      OverlayCovers(items, j, Piece(items[j], PieceCount(|items[j].bytes|) - 1).at);
    }
  }

  // ---- the textual fixed point ---------------------------------------------------------------

  lemma PiecesOfPiece(p: Block)
    requires p.bytes != [] && |p.bytes| <= CHUNK
    ensures Pieces(p) == [p]
  {
    assert Piece(p, 0).bytes == p.bytes;
    OnePiece(p);
  }

  lemma PieceInPage(b: Block, k: nat)
    requires InPage(b) && k < PieceCount(|b.bytes|)
    ensures Page(Piece(b, k).at) == Page(b.at)
  {
    PageOf(b.at);
    SameQuotient(b.at, 16 * k);
    PageOf(Piece(b, k).at);
  }

  lemma PrintPiece(before: seq<Block>, p: Block)
    requires p.bytes != [] && |p.bytes| <= CHUNK
    ensures Print(before + [p]) == Print(before) + PageChange(LastPage(before), Page(p.at)) + [DataRecord(p)]
    ensures LastPage(before + [p]) == Some(Page(p.at))
  {
    PrintSnoc(before, p);
    PiecesOfPiece(p);
    assert Piece(p, 0) == p;
    OnePiece(p);
  }

  lemma PrintNextPiece(before: seq<Block>, p: Block)
    requires p.bytes != [] && |p.bytes| <= CHUNK && LastPage(before) == Some(Page(p.at))
    ensures Print(before + [p]) == Print(before) + [DataRecord(p)]
  {
    PrintPiece(before, p);
  }

  lemma DataRecordsSnoc(ps: seq<Block>, p: Block)
    ensures DataRecords(ps + [p]) == DataRecords(ps) + [DataRecord(p)]
  {
    assert (ps + [p])[..|ps + [p]| - 1] == ps;
  }

  lemma PrintFirstPiece(before: seq<Block>, b: Block)
    requires InPage(b) && b.bytes != []
    ensures Print(before + PiecesUpTo(b, 1))
         == Print(before) + PageChange(LastPage(before), Page(b.at)) + DataRecords(PiecesUpTo(b, 1))
    ensures LastPage(before + PiecesUpTo(b, 1)) == Some(Page(b.at))
  {
    hide Print, Piece, PiecesUpTo, DataRecords, Page;
    var p := Piece(b, 0);
    PrintPiece(before, p);
    OnePiece(b);
    PieceInPage(b, 0);
  }

  lemma OnePiece(b: Block)
    requires b.bytes != []
    ensures PiecesUpTo(b, 1) == [Piece(b, 0)]
    ensures DataRecords(PiecesUpTo(b, 1)) == [DataRecord(Piece(b, 0))]
  {
    assert PiecesUpTo(b, 1) == PiecesUpTo(b, 0) + [Piece(b, 0)];
    DataRecordsSnoc([], Piece(b, 0));
  }

  lemma PrintOnePieceMore(before: seq<Block>, shown: seq<Record>, b: Block, k: nat)
    requires InPage(b) && 1 <= k < PieceCount(|b.bytes|)
    requires Print(before + PiecesUpTo(b, k)) == shown + DataRecords(PiecesUpTo(b, k))
    requires LastPage(before + PiecesUpTo(b, k)) == Some(Page(b.at))
    ensures Print(before + PiecesUpTo(b, k + 1)) == shown + DataRecords(PiecesUpTo(b, k + 1))
    ensures LastPage(before + PiecesUpTo(b, k + 1)) == Some(Page(b.at))
  {
    hide Print, DataRecords, DataRecord, Page, PageChange, Piece;
    var p, ps := Piece(b, k), PiecesUpTo(b, k);
    PieceInPage(b, k);
    calc {
      Print(before + (ps + [p]));
      { Assoc(before, ps, [p]); }
      Print(before + ps + [p]);
      { PrintNextPiece(before + ps, p); }
      shown + DataRecords(ps) + [DataRecord(p)];
      { DataRecordsSnoc(ps, p); }
      shown + DataRecords(ps + [p]);
    }
    assert (before + (ps + [p]))[|before + (ps + [p])| - 1] == p;
  }

  /** Printing the pieces of a block as blocks of their own prints what the block prints. */
  lemma {:induction false} PrintPiecesUpTo(before: seq<Block>, b: Block, k: nat)
    requires InPage(b) && 1 <= k <= PieceCount(|b.bytes|)
    ensures Print(before + PiecesUpTo(b, k))
         == Print(before) + PageChange(LastPage(before), Page(b.at)) + DataRecords(PiecesUpTo(b, k))
    ensures LastPage(before + PiecesUpTo(b, k)) == Some(Page(b.at))
  {
    if k == 1 {
      PrintFirstPiece(before, b);
    } else {
      var j := k - 1;
      PrintPiecesUpTo(before, b, j);
      PrintOnePieceMore(before, Print(before) + PageChange(LastPage(before), Page(b.at)), b, j);
    }
  }

  lemma PrintPieces(before: seq<Block>, b: Block)
    requires InPage(b) && b.bytes != []
    ensures Print(before + Pieces(b))
         == Print(before) + PageChange(LastPage(before), Page(b.at)) + DataRecords(Pieces(b))
    ensures LastPage(before + Pieces(b)) == Some(Page(b.at))
  {
    PrintPiecesUpTo(before, b, PieceCount(|b.bytes|));
  }

  lemma {:induction false} PrintAllPieces(items: seq<Block>)
    requires AllInPage(items) && NoneEmpty(items)
    ensures Print(AllPieces(items)) == Print(items)
    ensures LastPage(AllPieces(items)) == LastPage(items)
  {
    if items != [] {
      PrintAllPieces(items[..|items| - 1]);
      PrintPieces(AllPieces(items[..|items| - 1]), items[|items| - 1]);
    }
  }

  lemma AscendingAppend(ps: seq<Block>, qs: seq<Block>, at: nat)
    requires AscendingBlocks(ps) && forall i :: 0 <= i < |ps| ==> ps[i].at < at
    requires forall k :: 0 <= k < |qs| ==> qs[k].at == at + 16 * k
    ensures AscendingBlocks(ps + qs)
  {
  }

  /** Where the last chunk of a block starts. */
  function LastChunk(b: Block): (at: nat)
    requires b.bytes != []
  {
    b.at + 16 * (PieceCount(|b.bytes|) - 1)
  }

  /** Every block starts behind the start of the last chunk of each block before it.  Disjoint blocks
      are in order, and so are blocks that overlap by less than a chunk. */
  predicate ChunksInOrder(items: seq<Block>)
    requires NoneEmpty(items)
  {
    forall i, j :: 0 <= i < j < |items| ==> LastChunk(items[i]) < items[j].at
  }

  lemma DisjointInOrder(items: seq<Block>)
    requires DisjointBlocks(items) && NoneEmpty(items)
    ensures ChunksInOrder(items)
  {
    forall i, j | 0 <= i < j < |items|
      ensures LastChunk(items[i]) < items[j].at
    {
      LastChunkInside(items[i]);
    }
  }

  lemma LastChunkInside(b: Block)
    requires b.bytes != []
    ensures b.at <= LastChunk(b) < b.End() && LastChunk(b) == Piece(b, PieceCount(|b.bytes|) - 1).at
  {
  }

  lemma {:induction false} PieceFrom(items: seq<Block>, n: nat) returns (j: nat, k: nat)
    requires n < |AllPieces(items)|
    ensures j < |items| && k < PieceCount(|items[j].bytes|) && AllPieces(items)[n] == Piece(items[j], k)
  {
    hide PieceCount, Piece, PiecesUpTo;
    var before := items[..|items| - 1];
    if n < |AllPieces(before)| {
      j, k := PieceFrom(before, n);
    } else {
      j, k := |before|, n - |AllPieces(before)|;
    }
  }

  lemma {:induction false} PieceIn(items: seq<Block>, j: nat, k: nat) returns (n: nat)
    requires j < |items| && k < PieceCount(|items[j].bytes|)
    ensures n < |AllPieces(items)| && AllPieces(items)[n] == Piece(items[j], k)
  {
    hide PieceCount, Piece, PiecesUpTo;
    var before, last := items[..|items| - 1], items[|items| - 1];
    if j < |before| {
      n := PieceIn(before, j, k);
    } else {
      n := |AllPieces(before)| + k;
      assert Pieces(last)[k] == Piece(last, k);
    }
  }

  lemma PieceBounds(b: Block, k: nat)
    requires k < PieceCount(|b.bytes|)
    ensures b.bytes != [] && b.at <= Piece(b, k).at <= LastChunk(b) && Piece(b, k).at == b.at + 16 * k
  {
  }

  /** The chunks of all blocks ascend exactly when the blocks' chunks are in order. */
  lemma {:induction false} PiecesAscendExactly(items: seq<Block>)
    requires NoneEmpty(items)
    ensures AscendingBlocks(AllPieces(items)) <==> ChunksInOrder(items)
  {
    if items != [] {
      var before, last := items[..|items| - 1], items[|items| - 1];
      PiecesAscendExactly(before);
      assert AllPieces(items) == AllPieces(before) + Pieces(last) && items == before + [last];
      if ChunksInOrder(items) {
        LastBlockFits(before, last);
      }
      if AscendingBlocks(AllPieces(items)) {
        LastBlockInOrder(before, last);
      }
    }
  }

  lemma LastBlockFits(before: seq<Block>, last: Block)
    requires NoneEmpty(before) && last.bytes != [] && AscendingBlocks(AllPieces(before))
    requires forall i :: 0 <= i < |before| ==> LastChunk(before[i]) < last.at
    ensures AscendingBlocks(AllPieces(before) + Pieces(last))
  {
    hide LastChunk, AllPieces, PieceCount;
    forall n | 0 <= n < |AllPieces(before)|
      ensures AllPieces(before)[n].at < last.at
    {
      var j, k := PieceFrom(before, n);
      PieceBounds(before[j], k);
    }
    forall k | 0 <= k < |Pieces(last)|
      ensures Pieces(last)[k].at == last.at + 16 * k
    {
      PieceBounds(last, k);
    }
    hide Pieces;
    AscendingAppend(AllPieces(before), Pieces(last), last.at);
  }

  lemma AscendingSplit(ps: seq<Block>, qs: seq<Block>)
    requires AscendingBlocks(ps + qs) && qs != []
    ensures AscendingBlocks(ps) && forall n :: 0 <= n < |ps| ==> ps[n].at < qs[0].at
  {
    assert forall n :: 0 <= n < |ps| ==> (ps + qs)[n] == ps[n];
    assert (ps + qs)[|ps|] == qs[0];
  }

  lemma FirstPiece(b: Block)
    requires b.bytes != []
    ensures Pieces(b) != [] && Pieces(b)[0].at == b.at
  {
    PieceBounds(b, 0);
  }

  lemma LastBlockInOrder(before: seq<Block>, last: Block)
    requires NoneEmpty(before) && last.bytes != [] && AscendingBlocks(AllPieces(before) + Pieces(last))
    ensures AscendingBlocks(AllPieces(before))
    ensures forall i :: 0 <= i < |before| ==> LastChunk(before[i]) < last.at
  {
    FirstPiece(last);
    hide AllPieces, Pieces, PieceCount, Piece, LastChunk;
    AscendingSplit(AllPieces(before), Pieces(last));
    forall i | 0 <= i < |before|
      ensures LastChunk(before[i]) < last.at
    {
      LastChunkInside(before[i]);
      var n := PieceIn(before, i, PieceCount(|before[i].bytes|) - 1);
      assert AllPieces(before)[n].at < Pieces(last)[0].at;
    }
  }

  predicate AllSmall(items: seq<Block>) {
    forall i :: 0 <= i < |items| ==> |items[i].bytes| <= CHUNK
  }

  lemma {:induction false} SmallPieces(items: seq<Block>)
    requires NoneEmpty(items) && AllSmall(items)
    ensures AllPieces(items) == items
  {
    hide Pieces;
    if items != [] {
      var before, last := items[..|items| - 1], items[|items| - 1];
      SmallPieces(before);
      PiecesOfPiece(last);
      assert items == before + [last];
    }
  }

  lemma SmallInOrder(items: seq<Block>)
    requires NoneEmpty(items) && AllSmall(items) && AscendingBlocks(items)
    ensures ChunksInOrder(items)
  {
    hide AllPieces;
    SmallPieces(items);
    PiecesAscendExactly(items);
  }

  /** What a save's blocks become when it is loaded: their chunks, by address. */
  function Reloaded(items: seq<Block>): (again: seq<Block>)
  {
    Items(BlockMap(AllPieces(items)))
  }

  lemma ReloadedAre(items: seq<Block>)
    requires NoneEmpty(items) && AllInPage(items)
    ensures AscendingBlocks(Reloaded(items)) && NoneEmpty(Reloaded(items)) && AllSmall(Reloaded(items))
    ensures AllInPage(Reloaded(items))
  {
    hide Items, BlockMap, AllPieces, InPage;
    ItemsAscend(BlockMap(AllPieces(items)));
    forall i | 0 <= i < |Reloaded(items)|
      ensures var b := Reloaded(items)[i]; b.bytes != [] && |b.bytes| <= CHUNK && InPage(b)
    {
      var n := SurvivorOf(AllPieces(items), Reloaded(items)[i].at);
      var j, k := PieceFrom(items, n);
      PieceStaysInPage(items[j], k);
    }
  }

  lemma PieceStaysInPage(b: Block, k: nat)
    requires InPage(b) && k < PieceCount(|b.bytes|)
    ensures InPage(Piece(b, k))
  {
    PieceInPage(b, k);
    PageOf(b.at);
    PageOf(b.at + 16 * k);
  }

  lemma SamePrintSamePlaces(items: seq<Block>, others: seq<Block>)
    requires Print(items) == Print(others)
    ensures Placed(items) == Placed(others)
  {
    hide Print, Placed, Stores;
    PrintedStores(items);
    PrintedStores(others);
  }

  /** Printing, loading and printing again gives the same records exactly when the chunks are in
      order; for overlaps beyond that the second printing sorts them. */
  lemma PrintIsFixedPoint(items: seq<Block>)
    requires AscendingBlocks(items) && NoneEmpty(items) && AllInPage(items)
    ensures Items(ApplyAll(FRESH, Print(items)).file.blocks) == Reloaded(items)
    ensures Print(Reloaded(items)) == Print(items) <==> ChunksInOrder(items)
  {
    hide Print, Placed, AllPieces, Items, BlockMap, ChunksInOrder, AllInPage;
    LoadPrintedInPage(items);
    PiecesAscendExactly(items);
    PrintAllPieces(items);
    if ChunksInOrder(items) {
      ItemsOfBlockMap(AllPieces(items));
    } else if Print(Reloaded(items)) == Print(items) {
      ReloadedAre(items);
      SamePrintSamePlaces(Reloaded(items), items);
      PlacedHome(items);
      PlacedHome(Reloaded(items));
      SmallPieces(Reloaded(items));
    }
  }

  /** The second printing is always a fixed point. */
  lemma SecondPrintIsFixedPoint(items: seq<Block>)
    requires AscendingBlocks(items) && NoneEmpty(items) && AllInPage(items)
    ensures Print(Reloaded(Reloaded(items))) == Print(Reloaded(items))
  {
    hide Reloaded, ChunksInOrder, Print;
    ReloadedAre(items);
    SmallInOrder(Reloaded(items));
    PrintIsFixedPoint(Reloaded(items));
  }
}
