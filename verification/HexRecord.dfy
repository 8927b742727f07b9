/** One Intel HEX record: byte count, 16-bit address, type, data and checksum (general record
    format of Intel's "Hexadecimal Object File Format Specification", Revision A). */
module HexRecord {
  import opened Wrappers
  import HexText

  const DATA: nat := 0
  const END_OF_FILE: nat := 1
  const EXTENDED_SEGMENT: nat := 2
  const EXTENDED_LINEAR: nat := 4
  const START_LINEAR: nat := 5

  /** The four attributes hold whatever the constructor was given; `Printable` says when they fit
      the fields of the format. */
  datatype Record = Record(count: nat, address: nat, kind: nat, data: seq<byte>) {

    predicate Printable() {
      count == |data| && count < 256 && address < 0x1_0000 && kind < 256
    }

    function Checksum(): (c: byte) {
      Complement(count + address / 256 + address % 256 + kind + Sum(data))
    }

    function Header(): (text: string) {
      HexText.Format(count, 2) + HexText.Format(address, 4) + HexText.Format(kind, 2)
    }

    function ToLine(): (line: string) {
      ":" + (Header() + HexText.OfBytes(data) + HexText.Format(Checksum(), 2))
    }

    /** The octets a printed line encodes, checksum included. */
    ghost function Encoded(): (bs: seq<byte>)
      requires Printable()
    {
      [count, address / 256, address % 256, kind] + data + [Checksum()]
    }
  }

  /** `(0x100 - (sum & 0xFF)) & 0xFF`. */
  function Complement(sum: nat): (c: byte) {
    (0x100 - sum % 256) % 256
  }

  function Sum(bs: seq<byte>): (n: nat)
  {
    if bs == [] then 0 else Sum(bs[..|bs| - 1]) + bs[|bs| - 1]
  }

  /** A slice with both ends clamped to the string, as the source's slices are. */
  function Slice(s: string, i: nat, j: nat): (t: string)
    requires i <= j
  {
    if |s| <= i then "" else if |s| <= j then s[i..] else s[i..j]
  }

  /** `from_line`; `None` stands for the error the source raises. */
  function FromLine(text: string): (r: Option<Record>)
  {
    FromStripped(HexText.Strip(text))
  }

  /** The parse proper.  Anything after the checksum digits is ignored, as in the source. */
  function FromStripped(line: string): (r: Option<Record>)
  {
    if line == "" || line[0] != ':' then None
    else
      var count :- HexText.Parse(Slice(line, 1, 3));
      var address :- HexText.Parse(Slice(line, 3, 7));
      var kind :- HexText.Parse(Slice(line, 7, 9));
      var data :- HexText.ToBytes(Slice(line, 9, 9 + 2 * count));
      var checksum :- HexText.Parse(Slice(line, 9 + 2 * count, 11 + 2 * count));
      var record := Record(count, address, kind, data);
      if checksum == record.Checksum() then Some(record) else None
  }

  // ---- lower case --------------------------------------------------------------------------

  lemma SliceLower(s: string, i: nat, j: nat)
    requires i <= j
    ensures Slice(HexText.ToLower(s), i, j) == HexText.ToLower(Slice(s, i, j))
  {
  }

  lemma ParseSliceLower(s: string, i: nat, j: nat)
    requires i <= j
    ensures HexText.Parse(Slice(HexText.ToLower(s), i, j)) == HexText.Parse(Slice(s, i, j))
    ensures HexText.ToBytes(Slice(HexText.ToLower(s), i, j)) == HexText.ToBytes(Slice(s, i, j))
  {
    SliceLower(s, i, j);
    HexText.ParseLower(Slice(s, i, j));
    HexText.ToBytesLower(Slice(s, i, j));
  }

  lemma StrippedLower(line: string)
    ensures FromStripped(HexText.ToLower(line)) == FromStripped(line)
  {
    assert line != "" ==> (HexText.Lower(line[0]) == ':' <==> line[0] == ':');
    hide Slice, HexText.Parse, HexText.ToBytes, HexText.Lower, HexText.ToLower, Record.Checksum;
    ParseSliceLower(line, 1, 3);
    ParseSliceLower(line, 3, 7);
    ParseSliceLower(line, 7, 9);
    if line != "" && line[0] == ':' {
      var count := HexText.Parse(Slice(line, 1, 3));
      if count.Some? {
        ParseSliceLower(line, 9, 9 + 2 * count.value);
        ParseSliceLower(line, 9 + 2 * count.value, 11 + 2 * count.value);
      }
    }
  }

  /** The parser does not care about the case of the digits. */
  lemma FromLineLower(line: string)
    ensures FromLine(HexText.ToLower(line)) == FromLine(line)
  {
    HexText.StripLower(line);
    StrippedLower(HexText.Strip(line));
  }

  // ---- sums --------------------------------------------------------------------------------

  lemma {:induction false} SumAppend(a: seq<byte>, b: seq<byte>)
    ensures Sum(a + b) == Sum(a) + Sum(b)
  {
    if b == [] {
      assert a + b == a;
    } else {
      assert (a + b)[..|a + b| - 1] == a + b[..|b| - 1];
      SumAppend(a, b[..|b| - 1]);
    }
  }

  lemma SumUpdate(bs: seq<byte>, k: nat, b: byte)
    requires k < |bs|
    ensures Sum(bs[k := b]) == Sum(bs) - bs[k] + b
  {
    assert bs == bs[..k] + [bs[k]] + bs[k + 1..];
    assert bs[k := b] == bs[..k] + [b] + bs[k + 1..];
    SumAppend(bs[..k] + [bs[k]], bs[k + 1..]);
    SumAppend(bs[..k], [bs[k]]);
    SumAppend(bs[..k] + [b], bs[k + 1..]);
    SumAppend(bs[..k], [b]);
  }

  lemma SumSplit(bs: seq<byte>)
    requires |bs| >= 5
    ensures Sum(bs) == bs[0] + bs[1] + bs[2] + bs[3] + Sum(bs[4..|bs| - 1]) + bs[|bs| - 1]
  {
    var head, data := [bs[0], bs[1], bs[2], bs[3]], bs[4..|bs| - 1];
    assert bs[..|bs| - 1] == head + data;
    SumAppend(head, data);
    SumOfFour(bs[0], bs[1], bs[2], bs[3]);
  }

  lemma SumOfFour(a: byte, b: byte, c: byte, d: byte)
    ensures Sum([a, b, c, d]) == a + b + c + d
  {
    SumAppend([a, b], [c, d]);
    SumOfTwo(a, b);
    SumOfTwo(c, d);
    assert [a, b] + [c, d] == [a, b, c, d];
  }

  lemma SumOfTwo(a: byte, b: byte)
    ensures Sum([a, b]) == a + b
  {
    var one: seq<byte> := [a];
    assert one[..0] == [] && [a, b][..1] == one;
    assert Sum(one) == a;
  }

  // ---- lines as encoded octets -------------------------------------------------------------

  /** The text of a line that encodes the octets `bs`. */
  function LineOf(bs: seq<byte>): (line: string)
  {
    ":" + HexText.OfBytes(bs)
  }

  lemma ToLineEncodes(r: Record)
    requires r.Printable()
    ensures r.ToLine() == LineOf(r.Encoded())
  {
    var head := [r.count, r.address / 256, r.address % 256, r.kind];
    HeaderEncodes(r);
    HexText.OfBytesAppend(head + r.data, [r.Checksum()]);
    HexText.OfBytesAppend(head, r.data);
    OfOneByte(r.Checksum());
  }

  lemma HeaderEncodes(r: Record)
    requires r.Printable()
    ensures r.Header() == HexText.OfBytes([r.count, r.address / 256, r.address % 256, r.kind])
  {
    HexText.FormatWord(r.address);
    OfFourBytes(r.count, r.address / 256, r.address % 256, r.kind);
  }

  lemma OfOneByte(a: byte)
    ensures HexText.OfBytes([a]) == HexText.Format(a, 2)
  {
  }

  lemma OfFourBytes(a: byte, b: byte, c: byte, d: byte)
    ensures HexText.OfBytes([a, b, c, d])
         == HexText.Format(a, 2) + HexText.Format(b, 2) + HexText.Format(c, 2) + HexText.Format(d, 2)
  {
    assert [a, b, c, d] == [a] + [b] + [c] + [d];
    HexText.OfBytesAppend([a] + [b] + [c], [d]);
    HexText.OfBytesAppend([a] + [b], [c]);
    HexText.OfBytesAppend([a], [b]);
    OfOneByte(a);
    OfOneByte(b);
    OfOneByte(c);
    OfOneByte(d);
  }

  /** A line of octets is its own stripped form, with or without a line end. */
  lemma StripLineOf(bs: seq<byte>)
    ensures HexText.Strip(LineOf(bs)) == LineOf(bs)
    ensures HexText.Strip(LineOf(bs) + "\n") == LineOf(bs)
    ensures '\n' !in LineOf(bs)
  {
    var line := LineOf(bs);
    HexText.OfBytesDigits(bs);
    assert line[|line| - 1] == ':' || line[|line| - 1] in HexText.OfBytes(bs);
    var ended := line + "\n";
    assert HexText.TrimRight(ended) == HexText.TrimRight(ended[..|ended| - 1]);
    assert ended[..|ended| - 1] == line;
  }

  /** A sequence of octets shaped like a record: the first octet counts the data octets. */
  predicate Framed(bs: seq<byte>) {
    |bs| >= 5 && bs[0] == |bs| - 5
  }

  function Word(high: byte, low: byte): (w: nat) {
    256 * high + low
  }

  /** The record that framed octets spell, checksum left out. */
  function Decoded(bs: seq<byte>): (r: Record)
    requires Framed(bs)
  {
    Record(bs[0], Word(bs[1], bs[2]), bs[3], bs[4..|bs| - 1])
  }

  lemma HeaderFields(bs: seq<byte>)
    requires Framed(bs)
    ensures HexText.Parse(Slice(LineOf(bs), 1, 3)) == Some(bs[0])
    ensures HexText.Parse(Slice(LineOf(bs), 3, 7)) == Some(Word(bs[1], bs[2]))
    ensures HexText.Parse(Slice(LineOf(bs), 7, 9)) == Some(bs[3])
  {
    LineField(bs, 0, 1);
    LineField(bs, 1, 3);
    LineField(bs, 3, 4);
    assert bs[0..1] == [bs[0]] && bs[1..3] == [bs[1], bs[2]] && bs[3..4] == [bs[3]];
    HexText.ParseByte(bs[0]);
    HexText.ParseWord(bs[1], bs[2]);
    HexText.ParseByte(bs[3]);
  }

  lemma PayloadFields(bs: seq<byte>)
    requires Framed(bs)
    ensures HexText.ToBytes(Slice(LineOf(bs), 9, 2 * |bs| - 1)) == Some(bs[4..|bs| - 1])
    ensures HexText.Parse(Slice(LineOf(bs), 2 * |bs| - 1, 2 * |bs| + 1)) == Some(bs[|bs| - 1])
  {
    hide HexText.ToBytes, HexText.Parse, HexText.OfBytes, LineOf, Slice;
    var n := |bs|;
    LineField(bs, 4, n - 1);
    LineField(bs, n - 1, n);
    assert bs[n - 1..n] == [bs[n - 1]];
    HexText.BytesRoundTrip(bs[4..n - 1]);
    HexText.ParseByte(bs[n - 1]);
  }

  lemma WordSplits(high: byte, low: byte)
    ensures Word(high, low) / 256 == high && Word(high, low) % 256 == low
  {
  }

  lemma ChecksumOf(count: nat, high: byte, low: byte, kind: nat, data: seq<byte>)
    ensures Record(count, Word(high, low), kind, data).Checksum() == Complement(count + high + low + kind + Sum(data))
  {
    WordSplits(high, low);
    hide Word, Complement, Sum;
  }

  lemma DecodedChecksum(bs: seq<byte>)
    requires Framed(bs)
    ensures Decoded(bs).Checksum() == Complement(bs[0] + bs[1] + bs[2] + bs[3] + Sum(bs[4..|bs| - 1]))
  {
    hide Sum, Word, Complement, Record.Checksum;
    ChecksumOf(bs[0], bs[1], bs[2], bs[3], bs[4..|bs| - 1]);
  }

  lemma ChecksumDecides(bs: seq<byte>)
    requires Framed(bs)
    ensures bs[|bs| - 1] == Decoded(bs).Checksum() <==> Sum(bs) % 256 == 0
  {
    hide Sum, Word, Complement, Record.Checksum, Decoded;
    SumSplit(bs);
    DecodedChecksum(bs);
    ChecksumCloses(bs[0] + bs[1] + bs[2] + bs[3] + Sum(bs[4..|bs| - 1]), bs[|bs| - 1], Sum(bs));
  }

  lemma FromStrippedLine(bs: seq<byte>)
    requires Framed(bs)
    ensures FromStripped(LineOf(bs)) == if bs[|bs| - 1] == Decoded(bs).Checksum() then Some(Decoded(bs)) else None
  {
    HeaderFields(bs);
    PayloadFields(bs);
    LineStarts(bs);
    hide HexText.Parse, HexText.ToBytes, Slice, LineOf, Word, Record.Checksum;
  }

  /** The parser decides exactly by the checksum sum: a line of framed octets is accepted if and
      only if they sum to zero modulo 256. */
  lemma FromLineOf(bs: seq<byte>)
    requires Framed(bs)
    ensures FromLine(LineOf(bs)) == FromLine(LineOf(bs) + "\n")
    ensures FromLine(LineOf(bs)) == if Sum(bs) % 256 == 0 then Some(Decoded(bs)) else None
  {
    StripLineOf(bs);
    FromStrippedLine(bs);
    ChecksumDecides(bs);
    hide FromStripped, HexText.Strip, LineOf, Sum, Record.Checksum, Decoded;
  }

  lemma LineStarts(bs: seq<byte>)
    ensures LineOf(bs) != "" && LineOf(bs)[0] == ':'
  {
  }

  lemma LineField(bs: seq<byte>, i: nat, j: nat)
    requires i <= j <= |bs|
    ensures Slice(LineOf(bs), 1 + 2 * i, 1 + 2 * j) == HexText.OfBytes(bs[i..j])
  {
    HexText.OfBytesSlice(bs, i, j);
    assert LineOf(bs)[1 + 2 * i..1 + 2 * j] == HexText.OfBytes(bs)[2 * i..2 * j];
  }

  lemma ChecksumCloses(total: nat, last: byte, sum: nat)
    requires sum == total + last
    ensures last == Complement(total) <==> sum % 256 == 0
  {
  }

  // ---- main results ------------------------------------------------------------------------

  lemma EncodedIsFramed(r: Record)
    requires r.Printable()
    ensures Framed(r.Encoded()) && Decoded(r.Encoded()) == r
  {
    assert r.Encoded()[4..|r.Encoded()| - 1] == r.data;
  }

  /** All the octets of a printed record, checksum included, sum to zero modulo 256. */
  lemma EncodedSumsToZero(r: Record)
    requires r.Printable()
    ensures Sum(r.Encoded()) % 256 == 0
  {
    EncodedIsFramed(r);
    ChecksumDecides(r.Encoded());
  }

  /** Parsing a printed record, read back with or without its line end, gives the record. */
  lemma RecordRoundTrip(r: Record)
    requires r.Printable()
    ensures FromLine(r.ToLine()) == Some(r)
    ensures FromLine(r.ToLine() + "\n") == Some(r)
    ensures '\n' !in r.ToLine()
  {
    ToLineEncodes(r);
    EncodedIsFramed(r);
    EncodedSumsToZero(r);
    FromLineOf(r.Encoded());
    StripLineOf(r.Encoded());
  }

  /** Changing the value of any one octet after the byte count -- address, type, data or checksum
      -- makes the parser reject the line. */
  lemma AlteredOctetRejected(r: Record, k: nat, b: byte)
    requires r.Printable()
    requires 1 <= k < |r.Encoded()| && b != r.Encoded()[k]
    ensures FromLine(LineOf(r.Encoded()[k := b])) == None
  {
    var bs := r.Encoded();
    EncodedIsFramed(r);
    EncodedSumsToZero(r);
    SumUpdate(bs, k, b);
    ShiftedSum(Sum(bs), b - bs[k], Sum(bs[k := b]));
    FromLineOf(bs[k := b]);
  }

  lemma ShiftedSum(sum: int, change: int, sum': int)
    requires sum % 256 == 0 && sum' == sum + change
    ensures sum' % 256 == 0 <==> change % 256 == 0
    ensures change % 256 == 0 && -256 < change < 256 ==> change == 0
  {
  }
}
