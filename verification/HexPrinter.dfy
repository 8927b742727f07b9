/** Printing blocks: an Extended Linear Address record whenever the 64 KiB page changes, then data
    records of at most sixteen octets. */
module HexPrinter {
  import opened Wrappers
  import opened HexRecord
  import opened MemoryImage
  import opened HexLoader

  const CHUNK := 16
  const PAGE := 0x1_0000
  const LIMIT := 0x1_0000_0000

  /** `address & 0xFFFF0000`. */
  function Page(address: nat): (p: nat)
    ensures p < LIMIT && p % PAGE == 0
  {
    address / PAGE % PAGE * PAGE
  }

  /** `address & 0xFFFF`. */
  function Low(address: nat): (a: nat)
    ensures a < PAGE
  {
    address % PAGE
  }

  function PieceCount(n: nat): (k: nat) {
    (n + 15) / 16
  }

  /** The `k`-th chunk of a block. */
  function Piece(b: Block, k: nat): (p: Block)
    requires k < PieceCount(|b.bytes|)
    ensures p.bytes != [] && |p.bytes| <= CHUNK && p.End() <= b.End()
  {
    var stop := if 16 * k + 16 <= |b.bytes| then 16 * k + 16 else |b.bytes|;
    Block(b.at + 16 * k, b.bytes[16 * k..stop])
  }

  /** The first `k` chunks of a block. */
  function PiecesUpTo(b: Block, k: nat): (ps: seq<Block>)
    requires k <= PieceCount(|b.bytes|)
    ensures |ps| == k && forall i :: 0 <= i < k ==> ps[i] == Piece(b, i)
  {
    if k == 0 then [] else PiecesUpTo(b, k - 1) + [Piece(b, k - 1)]
  }

  function Pieces(b: Block): (ps: seq<Block>)
  {
    PiecesUpTo(b, PieceCount(|b.bytes|))
  }

  function DataRecord(p: Block): (r: Record)
    ensures |p.bytes| <= CHUNK ==> r.Printable()
  {
    Record(|p.bytes|, Low(p.at), DATA, p.bytes)
  }

  function DataRecords(ps: seq<Block>): (rs: seq<Record>)
  {
    if ps == [] then [] else DataRecords(ps[..|ps| - 1]) + [DataRecord(ps[|ps| - 1])]
  }

  function PageRecord(page: nat): (r: Record)
    requires page < LIMIT
    ensures r.Printable()
  {
    Record(2, 0, EXTENDED_LINEAR, [page / PAGE / 256, page / PAGE % 256])
  }

  /** The page of the block printed last; `None` before the first. */
  function LastPage(items: seq<Block>): (page: Option<nat>)
  {
    if items == [] then None else Some(Page(items[|items| - 1].at))
  }

  /** The extended address record, if one is due: page zero never gets one. */
  function PageChange(previous: Option<nat>, page: nat): (rs: seq<Record>)
    requires page < LIMIT
  {
    if previous == Some(page) || page <= 0xFFFF then [] else [PageRecord(page)]
  }

  /** The records printed for blocks in the given order. */
  function Print(items: seq<Block>): (rs: seq<Record>)
  {
    if items == [] then []
    else
      var before, last := items[..|items| - 1], items[|items| - 1];
      Print(before) + PageChange(LastPage(before), Page(last.at)) + DataRecords(Pieces(last))
  }

  lemma PrintSnoc(before: seq<Block>, b: Block)
    ensures Print(before + [b])
         == Print(before) + PageChange(LastPage(before), Page(b.at)) + DataRecords(Pieces(b))
  {
    assert (before + [b])[..|before + [b]| - 1] == before;
  }

  // ---- where a loader puts the pieces --------------------------------------------------------

  /** The extended address in force after loading what was printed. */
  function BaseAfter(items: seq<Block>): (base: nat)
    ensures base < LIMIT && base % PAGE == 0
  {
    if items == [] then 0
    else
      var before, page := items[..|items| - 1], Page(items[|items| - 1].at);
      if LastPage(before) == Some(page) || page <= 0xFFFF then BaseAfter(before) else page
  }

  function MoveOne(p: Block, base: nat): (moved: Block)
  {
    Block(base + p.at % PAGE, p.bytes)
  }

  function Move(ps: seq<Block>, base: nat): (moved: seq<Block>)
    ensures |moved| == |ps| && forall i :: 0 <= i < |ps| ==> moved[i] == MoveOne(ps[i], base)
  {
    if ps == [] then [] else Move(ps[..|ps| - 1], base) + [MoveOne(ps[|ps| - 1], base)]
  }

  /** The pieces at the addresses where loading stores them. */
  function Placed(items: seq<Block>): (ps: seq<Block>)
  {
    if items == [] then []
    else Placed(items[..|items| - 1]) + Move(Pieces(items[|items| - 1]), BaseAfter(items))
  }

  /** The pieces at the addresses where they belong. */
  function AllPieces(items: seq<Block>): (ps: seq<Block>)
  {
    if items == [] then [] else AllPieces(items[..|items| - 1]) + Pieces(items[|items| - 1])
  }

  // ---- printed records parse back ------------------------------------------------------------

  function Lines(rs: seq<Record>): (lines: seq<string>)
  {
    if rs == [] then [] else Lines(rs[..|rs| - 1]) + [rs[|rs| - 1].ToLine()]
  }

  predicate AllPrintable(rs: seq<Record>) {
    forall i :: 0 <= i < |rs| ==> rs[i].Printable()
  }

  lemma {:induction false} DataIsPrintable(ps: seq<Block>)
    requires forall i :: 0 <= i < |ps| ==> |ps[i].bytes| <= CHUNK
    ensures AllPrintable(DataRecords(ps))
  {
    if ps != [] {
      DataIsPrintable(ps[..|ps| - 1]);
    }
  }

  lemma PrintableAppend(a: seq<Record>, b: seq<Record>)
    requires AllPrintable(a) && AllPrintable(b)
    ensures AllPrintable(a + b)
  {
  }

  lemma {:induction false} PrintIsPrintable(items: seq<Block>)
    ensures AllPrintable(Print(items))
  {
    if items != [] {
      var before, last := items[..|items| - 1], items[|items| - 1];
      var change := PageChange(LastPage(before), Page(last.at));
      PrintIsPrintable(before);
      DataIsPrintable(Pieces(last));
      assert AllPrintable(change);
      hide AllPrintable, PageChange, DataRecords, Pieces;
      PrintableAppend(Print(before), change);
      PrintableAppend(Print(before) + change, DataRecords(Pieces(last)));
    }
  }

  lemma RecordsOfNext(lines: seq<string>, line: string, r: Record)
    requires FromLine(line + "\n") == Some(r)
    ensures Records(HexText.Terminated(lines + [line])) == Records(HexText.Terminated(lines)) + [r]
  {
    var all := HexText.Terminated(lines + [line]);
    HexText.TerminatedSnoc(lines, line);
    assert all[..|all| - 1] == HexText.Terminated(lines);
  }

  lemma {:induction false} RecordsOfLines(rs: seq<Record>)
    requires AllPrintable(rs)
    ensures Records(HexText.Terminated(Lines(rs))) == rs
  {
    if rs != [] {
      var before, last := rs[..|rs| - 1], rs[|rs| - 1];
      assert Lines(rs) == Lines(before) + [last.ToLine()] && rs == before + [last];
      hide Lines, FromLine, Records, HexText.Terminated, Record.ToLine, Record.Printable;
      assert forall i :: 0 <= i < |before| ==> before[i] == rs[i];
      RecordsOfLines(before);
      RecordRoundTrip(last);
      RecordsOfNext(Lines(before), last.ToLine(), last);
    }
  }

  lemma {:induction false} LinesHaveNoEnds(rs: seq<Record>)
    requires AllPrintable(rs)
    ensures forall line :: line in Lines(rs) ==> '\n' !in line
  {
    if rs != [] {
      LinesHaveNoEnds(rs[..|rs| - 1]);
      RecordRoundTrip(rs[|rs| - 1]);
    }
  }

  /** A text of printed records is read back as those records. */
  lemma RecordsOfText(rs: seq<Record>)
    requires AllPrintable(rs)
    ensures Records(HexText.ReadLines(HexText.JoinLines(Lines(rs)))) == rs
  {
    LinesHaveNoEnds(rs);
    HexText.ReadJoined(Lines(rs));
    RecordsOfLines(rs);
  }

  // ---- loading what was printed --------------------------------------------------------------

  function Loaded(ps: seq<Block>, base: nat): (l: Loading)
  {
    Loading(Contents(Overlay(ps), BlockMap(ps), 0), base, false)
  }

  lemma LoadDataRecord(before: seq<Block>, p: Block, base: nat)
    requires p.bytes != []
    ensures Apply(Loaded(before, base), DataRecord(p)) == Loaded(before + [MoveOne(p, base)], base)
  {
    var after := before + [MoveOne(p, base)];
    assert after[..|after| - 1] == before;
  }

  lemma {:induction false} LoadDataRecords(before: seq<Block>, ps: seq<Block>, base: nat)
    requires forall i :: 0 <= i < |ps| ==> ps[i].bytes != []
    ensures ApplyAll(Loaded(before, base), DataRecords(ps)) == Loaded(before + Move(ps, base), base)
  {
    if ps == [] {
      assert before + [] == before;
    } else {
      var initial, p := ps[..|ps| - 1], ps[|ps| - 1];
      LoadDataRecords(before, initial, base);
      LoadDataRecord(before + Move(initial, base), p, base);
      Assoc(before, Move(initial, base), [MoveOne(p, base)]);
    }
  }

  lemma LoadPageChange(l: Loading, previous: Option<nat>, page: nat)
    requires !l.done && page < LIMIT && page % PAGE == 0
    ensures ApplyAll(l, PageChange(previous, page))
         == if previous == Some(page) || page <= 0xFFFF then l else l.(base := page)
  {
    var high, low := page / PAGE / 256, page / PAGE % 256;
    assert BigEndian([high, low]) == 256 * BigEndian([high]) + low by {
      assert [high, low][..1] == [high];
    }
    assert BigEndian([high]) == high;
    var r := PageRecord(page);
    assert [r][..0] == [];
    assert ApplyAll(l, [r]) == Apply(l, r);
  }

  lemma {:induction false} DataRecordsStore(l: Loading, ps: seq<Block>)
    requires !l.done && forall i :: 0 <= i < |ps| ==> ps[i].bytes != []
    ensures Stores(l, DataRecords(ps)) == Move(ps, l.base)
    ensures ApplyAll(l, DataRecords(ps)).base == l.base && !ApplyAll(l, DataRecords(ps)).done
  {
    if ps != [] {
      var before, p := ps[..|ps| - 1], ps[|ps| - 1];
      DataRecordsStore(l, before);
      OneRecordStores(ApplyAll(l, DataRecords(before)), p);
      hide DataRecord, Store, Apply, MoveOne;
      var rs := DataRecords(before) + [DataRecord(p)];
      assert rs[..|rs| - 1] == DataRecords(before);
    }
  }

  lemma OneRecordStores(l: Loading, p: Block)
    requires !l.done && p.bytes != []
    ensures Store(l, DataRecord(p)) == [MoveOne(p, l.base)]
    ensures Apply(l, DataRecord(p)).base == l.base && !Apply(l, DataRecord(p)).done
  {
    hide Write;
  }

  lemma PageChangeStores(l: Loading, previous: Option<nat>, page: nat)
    requires page < LIMIT
    ensures Stores(l, PageChange(previous, page)) == []
  {
    var r := PageRecord(page);
    assert [r][..0] == [];
  }

  /** Whatever the blocks, loading their printed records stores exactly the placed pieces. */
  lemma {:induction false} LoadPrinted(items: seq<Block>)
    ensures ApplyAll(FRESH, Print(items)) == Loaded(Placed(items), BaseAfter(items))
  {
    if items != [] {
      var before, last := items[..|items| - 1], items[|items| - 1];
      LoadPrinted(before);
      var change, pieces := PageChange(LastPage(before), Page(last.at)), Pieces(last);
      ApplyAllAppend(FRESH, Print(before) + change, DataRecords(pieces));
      ApplyAllAppend(FRESH, Print(before), change);
      LoadPageChange(Loaded(Placed(before), BaseAfter(before)), LastPage(before), Page(last.at));
      LoadDataRecords(Placed(before), pieces, BaseAfter(items));
    }
  }

  // ---- what is stored, in order --------------------------------------------------------------

  /** The printed records store exactly the placed pieces, in order; so whoever prints the same records
      places the same pieces. */
  lemma {:induction false} PrintedStores(items: seq<Block>)
    ensures Stores(FRESH, Print(items)) == Placed(items)
  {
    hide Stores, Print, Placed;
    if items == [] {
      NothingStored();
    } else {
      var before, last := items[..|items| - 1], items[|items| - 1];
      PrintedStores(before);
      PrintedStoresNext(before, last);
      assert items == before + [last];
    }
  }

  lemma NothingStored()
    ensures Stores(FRESH, Print([])) == Placed([])
  {
  }

  lemma PrintedStoresNext(before: seq<Block>, last: Block)
    requires Stores(FRESH, Print(before)) == Placed(before)
    ensures Stores(FRESH, Print(before + [last])) == Placed(before + [last])
  {
    var items := before + [last];
    assert items[..|items| - 1] == before;
    PrintSnoc(before, last);
    assert Placed(items) == Placed(before) + Move(Pieces(last), BaseAfter(items));
    hide Print, Placed, Stores, ApplyAll, Page, PageChange, DataRecords, PiecesUpTo, PieceCount, Move;
    var change, data := PageChange(LastPage(before), Page(last.at)), DataRecords(Pieces(last));
    LoadPrinted(before);
    var l := ApplyAll(FRESH, Print(before));
    StoresAppend(FRESH, Print(before) + change, data);
    StoresAppend(FRESH, Print(before), change);
    PageChangeStores(l, LastPage(before), Page(last.at));
    ApplyAllAppend(FRESH, Print(before), change);
    LoadPageChange(l, LastPage(before), Page(last.at));
    DataRecordsStore(ApplyAll(l, change), Pieces(last));
    assert Placed(before) + [] == Placed(before);
  }
}
