/** The text of one HEX file, character by character. */
module HexExample {
  import opened Wrappers
  import opened Ascending
  import opened HexRecord
  import opened MemoryImage
  import opened HexLoader
  import opened HexPrinter
  import opened HexFile
  import HexText

  lemma NoOctets()
    ensures HexText.OfBytes([]) == ""
  {
  }

  lemma OneMore(b: byte, rest: seq<byte>, text: string, all: seq<byte>, longer: string)
    requires HexText.OfBytes(rest) == text && all == [b] + rest
    requires longer == [HexText.Digit(b / 16), HexText.Digit(b % 16)] + text
    ensures HexText.OfBytes(all) == longer
  {
    HexText.FormatByte(b);
    assert all[1..] == rest;
  }

  lemma SumOfFew(bs: seq<byte>)
    requires |bs| <= 2
    ensures |bs| == 0 ==> Sum(bs) == 0
    ensures |bs| == 1 ==> Sum(bs) == bs[0]
    ensures |bs| == 2 ==> Sum(bs) == bs[0] as int + bs[1] as int
  {
    if |bs| == 2 {
      assert bs[..1][..0] == [];
      assert Sum(bs[..1]) == bs[0];
    } else if |bs| == 1 {
      assert bs[..0] == [];
    }
  }

  lemma EofLineOctets()
    ensures HexText.OfBytes([0x00, 0x00, 0x00, 0x01, 0xFF]) == "00000001FF"
  {
    hide HexText.OfBytes;
    NoOctets();
    OneMore(0xFF, [], "", [0xFF], "FF");
    OneMore(0x01, [0xFF], "FF", [0x01, 0xFF], "01FF");
    OneMore(0x00, [0x01, 0xFF], "01FF", [0x00, 0x01, 0xFF], "0001FF");
    OneMore(0x00, [0x00, 0x01, 0xFF], "0001FF", [0x00, 0x00, 0x01, 0xFF], "000001FF");
    OneMore(0x00, [0x00, 0x00, 0x01, 0xFF], "000001FF", [0x00, 0x00, 0x00, 0x01, 0xFF], "00000001FF");
  }

  lemma EofLineEncoded()
    ensures EOF_RECORD.Encoded() == [0x00, 0x00, 0x00, 0x01, 0xFF]
  {
    var data: seq<byte> := [];
    SumOfFew(data);
    hide Sum, HexText.Format;
    assert EOF_RECORD.data == data;
  }

  lemma EofLine()
    ensures EOF_RECORD.ToLine() == ":00000001FF"
  {
    hide HexText.OfBytes, Record.Encoded, Record.ToLine;
    EofLineEncoded();
    ToLineEncodes(EOF_RECORD);
    EofLineOctets();
  }

  lemma PageOneLineOctets()
    ensures HexText.OfBytes([0x02, 0x00, 0x00, 0x04, 0x00, 0x01, 0xF9]) == "020000040001F9"
  {
    hide HexText.OfBytes;
    NoOctets();
    OneMore(0xF9, [], "", [0xF9], "F9");
    OneMore(0x01, [0xF9], "F9", [0x01, 0xF9], "01F9");
    OneMore(0x00, [0x01, 0xF9], "01F9", [0x00, 0x01, 0xF9], "0001F9");
    OneMore(0x04, [0x00, 0x01, 0xF9], "0001F9", [0x04, 0x00, 0x01, 0xF9], "040001F9");
    OneMore(0x00, [0x04, 0x00, 0x01, 0xF9], "040001F9", [0x00, 0x04, 0x00, 0x01, 0xF9], "00040001F9");
    OneMore(0x00, [0x00, 0x04, 0x00, 0x01, 0xF9], "00040001F9", [0x00, 0x00, 0x04, 0x00, 0x01, 0xF9], "0000040001F9");
    OneMore(0x02, [0x00, 0x00, 0x04, 0x00, 0x01, 0xF9], "0000040001F9",
            [0x02, 0x00, 0x00, 0x04, 0x00, 0x01, 0xF9], "020000040001F9");
  }

  lemma PageOneLineEncoded()
    ensures PageRecord(0x1_0000).Encoded() == [0x02, 0x00, 0x00, 0x04, 0x00, 0x01, 0xF9]
  {
    var data: seq<byte> := [0x00, 0x01];
    SumOfFew(data);
    hide Sum, HexText.Format;
    assert PageRecord(0x1_0000).data == data;
  }

  lemma PageOneLine()
    ensures PageRecord(0x1_0000).ToLine() == ":020000040001F9"
  {
    hide HexText.OfBytes, Record.Encoded, Record.ToLine;
    PageOneLineEncoded();
    ToLineEncodes(PageRecord(0x1_0000));
    PageOneLineOctets();
  }

  lemma OneByteLineOctets()
    ensures HexText.OfBytes([0x01, 0x00, 0x00, 0x00, 0xAA, 0x55]) == "01000000AA55"
  {
    hide HexText.OfBytes;
    NoOctets();
    OneMore(0x55, [], "", [0x55], "55");
    OneMore(0xAA, [0x55], "55", [0xAA, 0x55], "AA55");
    OneMore(0x00, [0xAA, 0x55], "AA55", [0x00, 0xAA, 0x55], "00AA55");
    OneMore(0x00, [0x00, 0xAA, 0x55], "00AA55", [0x00, 0x00, 0xAA, 0x55], "0000AA55");
    OneMore(0x00, [0x00, 0x00, 0xAA, 0x55], "0000AA55", [0x00, 0x00, 0x00, 0xAA, 0x55], "000000AA55");
    OneMore(0x01, [0x00, 0x00, 0x00, 0xAA, 0x55], "000000AA55", [0x01, 0x00, 0x00, 0x00, 0xAA, 0x55], "01000000AA55");
  }

  lemma OneByteLineEncoded()
    ensures DataRecord(Block(0x1_0000, [0xAA])).Encoded() == [0x01, 0x00, 0x00, 0x00, 0xAA, 0x55]
  {
    var data: seq<byte> := [0xAA];
    SumOfFew(data);
    hide Sum, HexText.Format;
    assert DataRecord(Block(0x1_0000, [0xAA])).data == data;
  }

  lemma OneByteLine()
    ensures DataRecord(Block(0x1_0000, [0xAA])).ToLine() == ":01000000AA55"
  {
    hide HexText.OfBytes, Record.Encoded, Record.ToLine;
    OneByteLineEncoded();
    ToLineEncodes(DataRecord(Block(0x1_0000, [0xAA])));
    OneByteLineOctets();
  }

  lemma OneByteRecords(at: nat, b: byte)
    requires at == 0x1_0000
    ensures Print(Items(map[at := [b]])) == [PageRecord(at), DataRecord(Block(at, [b]))]
  {
    OneItem(at, b);
    OnePiece(at, b);
    PrintSnoc([], Block(at, [b]));
    hide Items, Pieces, PageRecord, DataRecord;
    assert [] + [Block(at, [b])] == [Block(at, [b])];
    assert [DataRecord(Block(at, [b]))][..0] == [];
  }

  lemma OneItem(at: nat, b: byte)
    ensures Items(map[at := [b]]) == [Block(at, [b])]
  {
    var blocks: map<nat, seq<byte>> := map[at := [b]];
    SortedUnique([at], Sorted(blocks.Keys));
  }

  lemma OnePiece(at: nat, b: byte)
    ensures Pieces(Block(at, [b])) == [Block(at, [b])]
  {
    var block := Block(at, [b]);
    assert PieceCount(1) == 1;
    assert Piece(block, 0) == block;
  }

  lemma LinesNext(rs: seq<Record>, r: Record)
    ensures Lines(rs + [r]) == Lines(rs) + [r.ToLine()]
  {
    assert (rs + [r])[..|rs + [r]| - 1] == rs;
  }

  lemma JoinedFirst(line: string, rest: seq<string>)
    ensures HexText.JoinLines([line] + rest) == line + "\n" + HexText.JoinLines(rest)
  {
    assert ([line] + rest)[1..] == rest;
  }

  lemma ThreeLines(a: Record, b: Record, c: Record)
    ensures HexText.JoinLines(Lines([a, b, c]))
         == a.ToLine() + "\n" + (b.ToLine() + "\n" + (c.ToLine() + "\n" + ""))
  {
    hide Record.ToLine;
    LinesNext([], a);
    LinesNext([a], b);
    LinesNext([a, b], c);
    hide Lines;
    assert [] + [a] == [a] && [a] + [b] == [a, b] && [a, b] + [c] == [a, b, c];
    JoinedFirst(c.ToLine(), []);
    JoinedFirst(b.ToLine(), [c.ToLine()]);
    JoinedFirst(a.ToLine(), [b.ToLine(), c.ToLine()]);
    hide HexText.JoinLines;
    assert [c.ToLine()] + [] == [c.ToLine()] && [b.ToLine()] + [c.ToLine()] == [b.ToLine(), c.ToLine()];
    assert [a.ToLine()] + [b.ToLine(), c.ToLine()] == [a.ToLine(), b.ToLine(), c.ToLine()];
    NoLines();
  }

  lemma NoLines()
    ensures Lines([]) == [] && HexText.JoinLines([]) == ""
  {
  }

  /** The text that is written for one byte above the first page. */
  lemma SavedTextExample()
    ensures var blocks: map<nat, seq<byte>> := map[0x1_0000 := [0xAA]];
            SavedText(Contents(Flatten(blocks), blocks, 0))
            == Some(":020000040001F9" + "\n" + (":01000000AA55" + "\n" + (":00000001FF" + "\n" + "")))
  {
    EofLine();
    PageOneLine();
    OneByteLine();
    OneByteRecords(0x1_0000, 0xAA);
    ThreeLines(PageRecord(0x1_0000), DataRecord(Block(0x1_0000, [0xAA])), EOF_RECORD);
    hide Print, PageRecord, DataRecord, Items, Lines, HexText.JoinLines, Record.ToLine, Flatten;
    assert [PageRecord(0x1_0000), DataRecord(Block(0x1_0000, [0xAA]))] + [EOF_RECORD]
        == [PageRecord(0x1_0000), DataRecord(Block(0x1_0000, [0xAA])), EOF_RECORD];
  }
}
