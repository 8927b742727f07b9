/** ISP serial frames: header, header checksum, command, CRC, and END/ESC byte stuffing with the
    byte values of RFC 1055; and a receiver that recovers every frame from the byte stream. */
module IspFrame {
  import opened Wrappers
  import opened Crc16

  type Bytes = seq<bv8>

  const HEADER: bv8 := 0x52
  const END: bv8 := 0xC0
  const ESC: bv8 := 0xDB
  const ESC_END: bv8 := 0xDC
  const ESC_ESC: bv8 := 0xDD

  // ---- building a frame ----------------------------------------------------------------------

  function Sum(data: Bytes): (n: nat)
  {
    if data == [] then 0 else Sum(data[..|data| - 1]) + data[|data| - 1] as nat
  }

  /** `~sum & 0xFF`. */
  function Checksum(data: Bytes): (c: bv8)
  {
    (255 - Sum(data) % 256) as bv8
  }

  lemma Complement(n: nat)
    ensures (n + (255 - n % 256)) % 256 == 255
  {
  }

  /** Adding the checksum to the summed bytes gives 255 modulo 256. */
  lemma ChecksumCloses(data: Bytes)
    ensures (Sum(data) + Checksum(data) as nat) % 256 == 255
  {
    hide Sum;
    OctetBack(255 - Sum(data) % 256);
    Complement(Sum(data));
  }

  method CalculateChecksum(data: Bytes) returns (c: bv8)
    ensures c == Checksum(data)
  {
    var sum: nat := 0;
    for i := 0 to |data|
      invariant sum == Sum(data[..i])
    {
      sum := sum + data[i] as nat;
      assert data[..i + 1][..i] == data[..i];
    }
    assert data[..|data|] == data;
    c := (255 - sum % 256) as bv8;
  }

  /** `n.to_bytes(2, "big")`. */
  function LengthBytes(n: nat): (bs: Bytes)
    requires n < 0x1_0000
    ensures |bs| == 2
  {
    [(n / 256) as bv8, (n % 256) as bv8]
  }

  lemma LengthBigEndian(n: nat)
    requires n < 0x1_0000
    ensures 256 * (LengthBytes(n)[0] as nat) + LengthBytes(n)[1] as nat == n
  {
    OctetBack(n / 256);
    OctetBack(n % 256);
  }

  /** The frame before stuffing: header, sequence number, length, checksum, command, CRC. */
  function Covered(seqNo: bv8, cmd: Bytes): (bs: Bytes)
    requires |cmd| < 0x1_0000
    ensures |bs| == 5 + |cmd|
  {
    var head := [HEADER, seqNo] + LengthBytes(|cmd|);
    head + [Checksum(head[1..])] + cmd
  }

  function Plain(seqNo: bv8, cmd: Bytes): (bs: Bytes)
    requires |cmd| < 0x1_0000
    ensures |bs| == 7 + |cmd|
  {
    Covered(seqNo, cmd) + CrcBytes(Crc(Covered(seqNo, cmd)))
  }

  function StuffByte(b: bv8): (bs: Bytes)
  {
    if b == END then [ESC, ESC_END] else if b == ESC then [ESC, ESC_ESC] else [b]
  }

  function Stuff(bs: Bytes): (s: Bytes)
  {
    if bs == [] then [] else Stuff(bs[..|bs| - 1]) + StuffByte(bs[|bs| - 1])
  }

  /** The first byte is sent as it is. */
  function Encode(bs: Bytes): (frame: Bytes)
    requires bs != []
  {
    [END] + ([bs[0]] + Stuff(bs[1..])) + [END]
  }

  method EncodeIspCmd(bs: Bytes) returns (frame: Bytes)
    requires bs != []
    ensures frame == Encode(bs)
  {
    frame := [bs[0]];
    for i := 1 to |bs|
      invariant frame == [bs[0]] + Stuff(bs[1..i])
    {
      StuffNext(bs, i, [bs[0]]);
      if bs[i] == END {
        frame := frame + [ESC, ESC_END];
      } else if bs[i] == ESC {
        frame := frame + [ESC, ESC_ESC];
      } else {
        frame := frame + [bs[i]];
      }
    }
    assert bs[1..|bs|] == bs[1..];
    frame := [END] + frame + [END];
  }

  lemma StuffNext(bs: Bytes, i: nat, before: Bytes)
    requires 1 <= i < |bs|
    ensures before + Stuff(bs[1..i + 1]) == before + Stuff(bs[1..i]) + StuffByte(bs[i])
  {
    assert bs[1..i + 1][..i - 1] == bs[1..i];
    Assoc(before, Stuff(bs[1..i]), StuffByte(bs[i]));
  }

  /** The frame of a command; a sequence number or a length that does not fit its field is an error. */
  function Frame(seqNo: nat, cmd: Bytes): (frame: Option<Bytes>)
  {
    if seqNo >= 256 || |cmd| >= 0x1_0000 then None else Some(Encode(Plain(seqNo as bv8, cmd)))
  }

  method CreateIspFrame(seqNo: nat, cmd: Bytes) returns (frame: Option<Bytes>)
    ensures frame == Frame(seqNo, cmd)
  {
    if seqNo >= 256 || |cmd| >= 0x1_0000 {
      return None;
    }
    var plain := [HEADER, seqNo as bv8] + LengthBytes(|cmd|);
    var checksum := CalculateChecksum(plain[1..]);
    plain := plain + [checksum] + cmd;
    var crc := CalculateCrc16(plain);
    plain := plain + CrcBytes(crc);
    var encoded := EncodeIspCmd(plain);
    frame := Some(encoded);
  }

  lemma ExampleCrc()
    ensures Crc([0x52, 0x01, 0x00, 0x02, 0xFC, 0xC0, 0xDB]) == 0x2903
  {
    var d: seq<bv8> := [];
    FedSnoc(d, 0x52, 0xFFFF, 0x9B47);
    d := d + [0x52];
    FedSnoc(d, 0x01, 0x9B47, 0x65F3);
    d := d + [0x01];
    FedSnoc(d, 0x00, 0x65F3, 0xCF03);
    d := d + [0x00];
    FedSnoc(d, 0x02, 0xCF03, 0x0BE1);
    d := d + [0x02];
    FedSnoc(d, 0xFC, 0x0BE1, 0x7EF8);
    d := d + [0xFC];
    FedSnoc(d, 0xC0, 0x7EF8, 0xBE15);
    d := d + [0xC0];
    FedSnoc(d, 0xDB, 0xBE15, 0x2903);
    d := d + [0xDB];
    assert d == [0x52, 0x01, 0x00, 0x02, 0xFC, 0xC0, 0xDB];
  }

  lemma ExampleSum()
    ensures Sum([0x01, 0x00, 0x02]) == 3
  {
    var three: Bytes, two: Bytes, one: Bytes := [0x01, 0x00, 0x02], [0x01, 0x00], [0x01];
    assert three[..2] == two && two[..1] == one && one[..0] == [];
    assert Sum(one) == 1;
    assert Sum(two) == 1;
  }

  lemma ExampleChecksum()
    ensures Checksum([0x01, 0x00, 0x02]) == 0xFC
  {
    ExampleSum();
    hide Sum;
    assert 255 - 3 % 256 == 252;
  }

  lemma {:induction false} StuffAppend(a: Bytes, b: Bytes)
    ensures Stuff(a + b) == Stuff(a) + Stuff(b)
  {
    if b == [] {
      assert a + b == a;
    } else {
      hide StuffByte;
      var n := |b| - 1;
      assert (a + b)[..|a + b| - 1] == a + b[..n];
      StuffAppend(a, b[..n]);
      Assoc(Stuff(a), Stuff(b[..n]), StuffByte(b[n]));
    }
  }

  lemma {:induction false} StuffPlain(bs: Bytes)
    requires END !in bs && ESC !in bs
    ensures Stuff(bs) == bs
  {
    if bs != [] {
      var before, b := bs[..|bs| - 1], bs[|bs| - 1];
      assert bs == before + [b] && b in bs && forall x :: x in before ==> x in bs;
      assert StuffByte(b) == [b];
      hide StuffByte;
      StuffPlain(before);
    }
  }

  lemma StuffSpecials()
    ensures Stuff([0xC0, 0xDB]) == [0xDB, 0xDC, 0xDB, 0xDD]
  {
    var both: Bytes, first: Bytes := [0xC0, 0xDB], [0xC0];
    assert both[..1] == first && first[..0] == [];
    assert Stuff(first) == [0xDB, 0xDC];
  }

  lemma ExampleStuffed()
    ensures Stuff([0x01, 0x00, 0x02, 0xFC, 0xC0, 0xDB, 0x29, 0x03])
         == [0x01, 0x00, 0x02, 0xFC, 0xDB, 0xDC, 0xDB, 0xDD, 0x29, 0x03]
  {
    hide Stuff;
    var front: Bytes, middle: Bytes, back: Bytes := [0x01, 0x00, 0x02, 0xFC], [0xC0, 0xDB], [0x29, 0x03];
    StuffPlain(front);
    StuffSpecials();
    StuffPlain(back);
    StuffAppend(front, middle);
    StuffAppend(front + middle, back);
    assert front + middle + back == [0x01, 0x00, 0x02, 0xFC, 0xC0, 0xDB, 0x29, 0x03];
  }

  lemma ExampleCovered()
    ensures Covered(1, [0xC0, 0xDB]) == [0x52, 0x01, 0x00, 0x02, 0xFC, 0xC0, 0xDB]
  {
    ExampleChecksum();
    hide Checksum;
    assert LengthBytes(2) == [0x00, 0x02];
    assert ([HEADER, 1] + LengthBytes(2))[1..] == [0x01, 0x00, 0x02];
  }

  lemma ExamplePlain()
    ensures Plain(1, [0xC0, 0xDB]) == [0x52, 0x01, 0x00, 0x02, 0xFC, 0xC0, 0xDB, 0x29, 0x03]
  {
    ExampleCovered();
    ExampleCrc();
    hide Covered, Crc;
    assert CrcBytes(0x2903) == [0x29, 0x03];
  }

  lemma ExampleEncoded()
    ensures Encode([0x52, 0x01, 0x00, 0x02, 0xFC, 0xC0, 0xDB, 0x29, 0x03])
         == [0xC0, 0x52, 0x01, 0x00, 0x02, 0xFC, 0xDB, 0xDC, 0xDB, 0xDD, 0x29, 0x03, 0xC0]
  {
    ExampleStuffed();
    hide Stuff;
    var bs: Bytes := [0x52, 0x01, 0x00, 0x02, 0xFC, 0xC0, 0xDB, 0x29, 0x03];
    assert bs[1..] == [0x01, 0x00, 0x02, 0xFC, 0xC0, 0xDB, 0x29, 0x03];
  }

  /** The octets of one frame: sequence number 1 and a command of the two bytes that need an escape. */
  lemma FrameExample()
    ensures Frame(1, [0xC0, 0xDB])
         == Some([0xC0, 0x52, 0x01, 0x00, 0x02, 0xFC, 0xDB, 0xDC, 0xDB, 0xDD, 0x29, 0x03, 0xC0])
  {
    ExamplePlain();
    ExampleEncoded();
    hide Plain, Encode;
    var seqNo: nat, one: bv8 := 1, 1;
    VectorBack(one);
    assert one as nat == seqNo;
    assert seqNo as bv8 == one;
  }

  // ---- a receiver ----------------------------------------------------------------------------

  datatype Message = Message(seqNo: nat, cmd: Bytes)

  /** The non-empty pieces between END bytes; `piece` has been received so far. */
  function Split(stream: Bytes, piece: Bytes): (pieces: seq<Bytes>)
    decreases |stream|
  {
    if stream == [] then (if piece == [] then [] else [piece])
    else if stream[0] != END then Split(stream[1..], piece + [stream[0]])
    else (if piece == [] then [] else [piece]) + Split(stream[1..], [])
  }

  function Unstuff(s: Bytes): (bs: Option<Bytes>)
  {
    if s == [] then Some([])
    else if s[0] == END then None
    else if s[0] != ESC then
      var rest :- Unstuff(s[1..]);
      Some([s[0]] + rest)
    else if |s| >= 2 && (s[1] == ESC_END || s[1] == ESC_ESC) then
      var rest :- Unstuff(s[2..]);
      Some([if s[1] == ESC_END then END else ESC] + rest)
    else None
  }

  /** Every field is verified: header, checksum, length, and that the CRC leaves no remainder. */
  function Parse(bs: Bytes): (m: Option<Message>)
  {
    if |bs| < 7 || |bs| - 7 >= 0x1_0000 || bs[0] != HEADER then None
    else if bs[4] != Checksum(bs[1..4]) || bs[2..4] != LengthBytes(|bs| - 7) || Crc(bs) != 0 then None
    else Some(Message(bs[1] as nat, bs[5..|bs| - 2]))
  }

  function Receive(piece: Bytes): (m: Option<Message>)
  {
    var bs :- Unstuff(piece);
    Parse(bs)
  }

  function ReceiveAll(pieces: seq<Bytes>): (ms: seq<Option<Message>>)
  {
    if pieces == [] then [] else [Receive(pieces[0])] + ReceiveAll(pieces[1..])
  }

  // ---- stuffing ------------------------------------------------------------------------------

  /** No END byte is left inside a frame. */
  lemma {:induction false} StuffHidesEnd(bs: Bytes)
    ensures END !in Stuff(bs)
  {
    if bs != [] {
      StuffHidesEnd(bs[..|bs| - 1]);
    }
  }

  lemma {:induction false} StuffCons(b: bv8, rest: Bytes)
    ensures Stuff([b] + rest) == StuffByte(b) + Stuff(rest)
  {
    var bs := [b] + rest;
    if rest == [] {
      assert bs[..0] == [];
    } else {
      assert bs[..|bs| - 1] == [b] + rest[..|rest| - 1];
      StuffCons(b, rest[..|rest| - 1]);
      Assoc(StuffByte(b), Stuff(rest[..|rest| - 1]), StuffByte(rest[|rest| - 1]));
    }
  }

  lemma UnstuffByte(b: bv8, s: Bytes)
    ensures Unstuff(StuffByte(b) + s)
         == match Unstuff(s) { case None => None case Some(rest) => Some([b] + rest) }
  {
    var all := StuffByte(b) + s;
    assert all[|StuffByte(b)|..] == s;
  }

  lemma {:induction false} UnstuffStuff(bs: Bytes)
    ensures Unstuff(Stuff(bs)) == Some(bs)
  {
    if bs != [] {
      assert bs == [bs[0]] + bs[1..];
      StuffCons(bs[0], bs[1..]);
      UnstuffStuff(bs[1..]);
      UnstuffByte(bs[0], Stuff(bs[1..]));
    }
  }

  lemma {:induction false} StuffUnstuff(s: Bytes)
    requires Unstuff(s).Some?
    ensures Stuff(Unstuff(s).value) == s
  {
    if s != [] {
      var n := if s[0] == ESC then 2 else 1;
      StuffUnstuff(s[n..]);
      var rest := Unstuff(s[n..]).value;
      StuffCons(Unstuff(s).value[0], rest);
      assert s == s[..n] + s[n..];
    }
  }

  /** Un-stuffing succeeds on exactly the stuffed strings, so stuffing is one-to-one. */
  lemma UnstuffExactly(s: Bytes, bs: Bytes)
    ensures Unstuff(s) == Some(bs) <==> s == Stuff(bs)
  {
    hide Stuff, Unstuff;
    UnstuffStuff(bs);
    if Unstuff(s).Some? {
      StuffUnstuff(s);
    }
  }

  // ---- frames --------------------------------------------------------------------------------

  lemma PlainStart(seqNo: bv8, cmd: Bytes)
    requires |cmd| < 0x1_0000
    ensures Plain(seqNo, cmd)[0] == HEADER
    ensures Encode(Plain(seqNo, cmd)) == [END] + Stuff(Plain(seqNo, cmd)) + [END]
  {
    var bs := Plain(seqNo, cmd);
    assert bs == [HEADER] + bs[1..];
    StuffCons(HEADER, bs[1..]);
  }

  lemma PlainFields(seqNo: bv8, cmd: Bytes)
    requires |cmd| < 0x1_0000
    ensures var bs := Plain(seqNo, cmd);
            && bs[1] == seqNo && bs[2..4] == LengthBytes(|cmd|) && bs[4] == Checksum(bs[1..4])
            && bs[5..|bs| - 2] == cmd
  {
    hide Checksum, Crc, LengthBytes;
    var length := LengthBytes(|cmd|);
    var head := [HEADER, seqNo] + length;
    var bs := Plain(seqNo, cmd);
    assert Covered(seqNo, cmd)[..4] == head && bs[..4] == head;
    assert head[1..] == bs[1..4] && head[2..] == length;
    assert bs[2..4] == head[2..];
  }

  lemma ParsePlain(seqNo: nat, cmd: Bytes)
    requires seqNo < 256 && |cmd| < 0x1_0000
    ensures Parse(Plain(seqNo as bv8, cmd)) == Some(Message(seqNo, cmd))
  {
    hide Plain, Covered, Crc, CrcBytes, Checksum, LengthBytes;
    var covered := Covered(seqNo as bv8, cmd);
    PlainFields(seqNo as bv8, cmd);
    PlainStart(seqNo as bv8, cmd);
    PlainIsCovered(seqNo as bv8, cmd);
    ResidueExact(covered, CrcBytes(Crc(covered)));
    OctetBack(seqNo);
  }

  lemma PlainIsCovered(seqNo: bv8, cmd: Bytes)
    requires |cmd| < 0x1_0000
    ensures Plain(seqNo, cmd) == Covered(seqNo, cmd) + CrcBytes(Crc(Covered(seqNo, cmd)))
  {
  }

  lemma {:induction false} SplitPiece(body: Bytes, rest: Bytes, piece: Bytes)
    requires END !in body && piece + body != []
    ensures Split(body + [END] + rest, piece) == [piece + body] + Split(rest, [])
    decreases body
  {
    var stream := body + [END] + rest;
    if body == [] {
      assert stream[1..] == rest && piece + body == piece;
    } else {
      assert stream[0] in body;
      assert stream[1..] == body[1..] + [END] + rest;
      SplitPiece(body[1..], rest, piece + [body[0]]);
      assert piece + [body[0]] + body[1..] == piece + body;
    }
  }

  lemma SplitFrame(body: Bytes, rest: Bytes)
    requires END !in body && body != []
    ensures Split([END] + body + [END] + rest, []) == [body] + Split(rest, [])
  {
    var stream := [END] + body + [END] + rest;
    assert stream[1..] == body + [END] + rest;
    SplitPiece(body, rest, []);
    assert [] + body == body;
  }

  predicate Sendable(m: Message) {
    m.seqNo < 256 && |m.cmd| < 0x1_0000
  }

  /** The frames of some messages, one after the other. */
  function Stream(ms: seq<Message>): (s: Bytes)
    requires forall i :: 0 <= i < |ms| ==> Sendable(ms[i])
  {
    if ms == [] then [] else assert Sendable(ms[0]); Frame(ms[0].seqNo, ms[0].cmd).value + Stream(ms[1..])
  }

  function Delivered(ms: seq<Message>): (r: seq<Option<Message>>)
  {
    if ms == [] then [] else [Some(ms[0])] + Delivered(ms[1..])
  }

  lemma FrameReceived(m: Message, rest: Bytes)
    requires Sendable(m)
    ensures var pieces := Split(Frame(m.seqNo, m.cmd).value + rest, []);
            pieces != [] && Receive(pieces[0]) == Some(m) && pieces[1..] == Split(rest, [])
  {
    hide Plain, Parse, Stuff, Unstuff, Encode;
    var bs := Plain(m.seqNo as bv8, m.cmd);
    PlainStart(m.seqNo as bv8, m.cmd);
    StuffHidesEnd(bs);
    UnstuffStuff(bs);
    StuffKeepsContent(bs);
    SplitFrame(Stuff(bs), rest);
    ParsePlain(m.seqNo, m.cmd);
  }

  lemma StuffKeepsContent(bs: Bytes)
    requires bs != []
    ensures Stuff(bs) != []
  {
  }

  /** Whatever is sent, the receiver gets exactly those messages, in order: the frames neither run
      together nor split, and every checksum, length and CRC verifies. */
  lemma {:induction false} StreamDecodes(ms: seq<Message>)
    requires forall i :: 0 <= i < |ms| ==> Sendable(ms[i])
    ensures ReceiveAll(Split(Stream(ms), [])) == Delivered(ms)
  {
    if ms != [] {
      hide Frame, Receive, Split;
      FrameReceived(ms[0], Stream(ms[1..]));
      StreamDecodes(ms[1..]);
    }
  }

  /** A frame whose bits, before stuffing, differ from those sent only within sixteen consecutive places, or
      in an odd number of places, is not accepted as any message. */
  lemma CorruptedRejected(seqNo: nat, cmd: Bytes, got: Bytes, i: nat, n: nat)
    requires seqNo < 256 && |cmd| < 0x1_0000
    requires var sent := Plain(seqNo as bv8, cmd);
             && |got| == |sent| && got != sent
             && ((n <= 16 && DifferWithin(MessageBits(got), MessageBits(sent), i, n))
                 || Differences(MessageBits(got), MessageBits(sent)) % 2 == 1)
    ensures Receive(Stuff(got)) == None
  {
    hide Plain, Covered, Crc, CrcBytes, Stuff, Unstuff, DifferWithin, MessageBits, Differences;
    var sent := Plain(seqNo as bv8, cmd);
    UnstuffStuff(got);
    PlainIsCovered(seqNo as bv8, cmd);
    ResidueExact(Covered(seqNo as bv8, cmd), CrcBytes(Crc(Covered(seqNo as bv8, cmd))));
    ErrorsDetected(got, sent, i, n);
  }

  // ---- errors on the wire --------------------------------------------------------------------

  lemma StuffAround(p: Bytes, x: bv8, q: Bytes)
    ensures Stuff(p + [x] + q) == Stuff(p) + StuffByte(x) + Stuff(q)
  {
    StuffAppend(p + [x], q);
    StuffAppend(p, [x]);
    assert [x][..0] == [];
  }

  predicate IsSpecial(b: bv8) { b == END || b == ESC }

  /** One ordinary byte on the wire that arrives as another ordinary byte: rejected, wherever it
      stands. */
  lemma WireByteRejected(seqNo: nat, cmd: Bytes, p: Bytes, x: bv8, q: Bytes, got: bv8)
    requires seqNo < 256 && |cmd| < 0x1_0000 && Plain(seqNo as bv8, cmd) == p + [x] + q
    requires !IsSpecial(x) && !IsSpecial(got) && got != x
    ensures Stuff(Plain(seqNo as bv8, cmd)) == Stuff(p) + [x] + Stuff(q)
    ensures Receive(Stuff(p) + [got] + Stuff(q)) == None
  {
    hide Plain, Stuff, Receive, DifferWithin, MessageBits;
    StuffAround(p, x, q);
    StuffAround(p, got, q);
    var sent, received := p + [x] + q, p + [got] + q;
    assert sent[|p|] == x && received[|p|] == got;
    WindowOfTwo(p, [got], [x], q);
    CorruptedRejected(seqNo, cmd, received, 8 * |p|, 8);
  }

  lemma LengthTold(n: nat, k: nat)
    requires n < 0x1_0000 && k < 0x1_0000 && LengthBytes(n) == LengthBytes(k)
    ensures n == k
  {
    hide LengthBytes;
    LengthBigEndian(n);
    LengthBigEndian(k);
  }

  /** A byte on the wire that arrives as END cuts the frame in two, and what is in front of the cut is
      rejected wherever it is. */
  lemma CutRejected(seqNo: nat, cmd: Bytes, p: Bytes, x: bv8, q: Bytes)
    requires seqNo < 256 && |cmd| < 0x1_0000 && Plain(seqNo as bv8, cmd) == p + [x] + q
    ensures Receive(Stuff(p)) == None
  {
    hide Plain, Crc, Checksum, LengthBytes, Stuff, Unstuff;
    UnstuffStuff(p);
    PlainFields(seqNo as bv8, cmd);
    var sent := Plain(seqNo as bv8, cmd);
    if |p| >= 7 && |p| - 7 < 0x1_0000 {
      assert p[2..4] == sent[2..4];
      if LengthBytes(|p| - 7) == LengthBytes(|cmd|) {
        LengthTold(|p| - 7, |cmd|);
      }
    }
  }

  /** What follows stuffed bytes is un-stuffed on its own. */
  lemma {:induction false} UnstuffAfter(p: Bytes, s: Bytes)
    ensures Unstuff(Stuff(p) + s) == match Unstuff(s) { case None => None case Some(rest) => Some(p + rest) }
  {
    if p == [] {
      assert Stuff(p) + s == s;
      assert Unstuff(s).Some? ==> p + Unstuff(s).value == Unstuff(s).value;
    } else {
      hide Stuff, Unstuff, StuffByte;
      var tail := p[1..];
      assert p == [p[0]] + tail;
      StuffCons(p[0], tail);
      Assoc(StuffByte(p[0]), Stuff(tail), s);
      UnstuffByte(p[0], Stuff(tail) + s);
      UnstuffAfter(tail, s);
      if Unstuff(s).Some? {
        Assoc([p[0]], tail, Unstuff(s).value);
      }
    }
  }

  /** With the first four bytes as sent, a wrong number of bytes is noticed. */
  lemma WrongLengthRejected(seqNo: nat, cmd: Bytes, got: Bytes)
    requires seqNo < 256 && |cmd| < 0x1_0000 && |got| >= 4
    requires var sent := Plain(seqNo as bv8, cmd); |got| != |sent| && got[..4] == sent[..4]
    ensures Parse(got) == None
  {
    hide Plain, Crc, Checksum, LengthBytes;
    var sent := Plain(seqNo as bv8, cmd);
    PlainFields(seqNo as bv8, cmd);
    assert got[2..4] == got[..4][2..] && sent[2..4] == sent[..4][2..];
    if |got| >= 7 && |got| - 7 < 0x1_0000 && LengthBytes(|got| - 7) == LengthBytes(|cmd|) {
      LengthTold(|got| - 7, |cmd|);
    }
  }

  /** Which byte of the frame the wire carries at `i`. */
  lemma {:induction false} WireAt(bs: Bytes, i: nat) returns (k: nat)
    requires i < |Stuff(bs)|
    ensures k < |bs| && |Stuff(bs[..k])| <= i < |Stuff(bs[..k])| + |StuffByte(bs[k])|
  {
    var n := |bs| - 1;
    if i >= |Stuff(bs[..n])| {
      k := n;
    } else {
      k := WireAt(bs[..n], i);
      assert bs[..n][..k] == bs[..k];
    }
  }

  lemma WireBehind(bs: Bytes, k: nat, j: nat)
    requires k < j <= |bs|
    ensures |Stuff(bs[..k])| + |StuffByte(bs[k])| <= |Stuff(bs[..j])|
  {
    hide StuffByte, Stuff;
    assert bs[..j] == bs[..k] + [bs[k]] + bs[k + 1..j];
    StuffAround(bs[..k], bs[k], bs[k + 1..j]);
  }

  predicate IsEscape(b: bv8) { b == ESC_END || b == ESC_ESC }

  /** A wrong second byte of an escape pair: the other escape, or none. */
  lemma SecondOfPairRejected(seqNo: nat, cmd: Bytes, p: Bytes, x: bv8, q: Bytes, got: bv8)
    requires seqNo < 256 && |cmd| < 0x1_0000 && Plain(seqNo as bv8, cmd) == p + [x] + q
    requires IsSpecial(x) && got != StuffByte(x)[1]
    ensures Receive(Stuff(p) + [ESC, got] + Stuff(q)) == None
  {
    hide Plain, Stuff, Parse, DifferWithin, MessageBits;
    var tail := [ESC, got] + Stuff(q);
    assert Stuff(p) + [ESC, got] + Stuff(q) == Stuff(p) + tail;
    UnstuffAfter(p, tail);
    if IsEscape(got) {
      var other := if got == ESC_END then END else ESC;
      StuffAround(p, other, q);
      var sent, received := p + [x] + q, p + [other] + q;
      assert sent[|p|] == x && received[|p|] == other;
      WindowOfTwo(p, [other], [x], q);
      CorruptedRejected(seqNo, cmd, received, 8 * |p|, 8);
    }
  }

  lemma FirstOfPairRejected(seqNo: nat, cmd: Bytes, p: Bytes, x: bv8, q: Bytes, got: bv8)
    requires seqNo < 256 && |cmd| < 0x1_0000 && Plain(seqNo as bv8, cmd) == p + [x] + q && |p| >= 4
    requires IsSpecial(x) && !IsSpecial(got)
    ensures Receive(Stuff(p) + [got, StuffByte(x)[1]] + Stuff(q)) == None
  {
    hide Plain, Stuff, Unstuff, Parse;
    var second := StuffByte(x)[1];
    var received := p + [got] + ([second] + q);
    StuffAround(p, got, [second] + q);
    StuffCons(second, q);
    assert Stuff(p) + [got, second] + Stuff(q) == Stuff(p) + [got] + ([second] + Stuff(q));
    UnstuffStuff(received);
    assert received[..4] == p[..4] == (p + [x] + q)[..4];
    WrongLengthRejected(seqNo, cmd, received);
  }

  /** A lone ESC in front of stuffed bytes is an error or takes one of them for the second of a pair. */
  lemma EscSwallows(q: Bytes)
    ensures Unstuff([ESC] + Stuff(q)).Some? ==> |Unstuff([ESC] + Stuff(q)).value| == |q|
  {
    if q != [] {
      var rest := Stuff(q[1..]);
      assert q == [q[0]] + q[1..];
      StuffCons(q[0], q[1..]);
      UnstuffStuff(q[1..]);
      hide Stuff;
      SwallowedOne(q[0], rest);
    }
  }

  lemma SwallowedOne(b: bv8, rest: Bytes)
    requires Unstuff(rest).Some?
    ensures var r := Unstuff([ESC] + (StuffByte(b) + rest)); r.Some? ==> |r.value| == 1 + |Unstuff(rest).value|
  {
    var s := [ESC] + (StuffByte(b) + rest);
    if !IsSpecial(b) {
      assert s[2..] == rest;
    }
  }

  lemma OrdinaryToEscRejected(seqNo: nat, cmd: Bytes, p: Bytes, x: bv8, q: Bytes)
    requires seqNo < 256 && |cmd| < 0x1_0000 && Plain(seqNo as bv8, cmd) == p + [x] + q && |p| >= 4
    ensures Receive(Stuff(p) + [ESC] + Stuff(q)) == None
  {
    hide Plain, Stuff, Parse;
    var tail := [ESC] + Stuff(q);
    assert Stuff(p) + [ESC] + Stuff(q) == Stuff(p) + tail;
    UnstuffAfter(p, tail);
    if Unstuff(tail).Some? {
      var received := p + Unstuff(tail).value;
      EscSwallows(q);
      assert received[..4] == p[..4] == (p + [x] + q)[..4];
      WrongLengthRejected(seqNo, cmd, received);
    }
  }

  /** Errors that cannot change the number of bytes received, or that come behind the length field. */
  predicate Covers(sent: Bytes, i: nat, got: bv8)
    requires |sent| >= 4 && i < |Stuff(sent)|
  {
    i >= |Stuff(sent[..4])| || (Stuff(sent)[i] != ESC && got != ESC)
  }

  /** Any one byte of a frame's wire form that arrives as another one: as END it cuts the frame, and the
      part in front is rejected; as anything else the frame is rejected, unless an ESC came or went in
      front of the checksum, where the length field itself may be misread. */
  lemma AnyWireByteRejected(seqNo: nat, cmd: Bytes, i: nat, got: bv8)
    requires seqNo < 256 && |cmd| < 0x1_0000
    requires var wire := Stuff(Plain(seqNo as bv8, cmd)); i < |wire| && got != wire[i]
    ensures var wire := Stuff(Plain(seqNo as bv8, cmd));
            if got == END then Receive(wire[..i]) == None
            else Covers(Plain(seqNo as bv8, cmd), i, got) ==> Receive(wire[i := got]) == None
  {
    hide Plain, Receive, Stuff;
    var sent := Plain(seqNo as bv8, cmd);
    var wire := Stuff(sent);
    var k := WireAt(sent, i);
    var p, x, q := sent[..k], sent[k], sent[k + 1..];
    assert sent == p + [x] + q;
    StuffAround(p, x, q);
    if i >= |Stuff(sent[..4])| && k < 4 {
      WireBehind(sent, k, 4);
    }
    var at := i - |Stuff(p)|;
    if !IsSpecial(x) {
      assert wire[..i] == Stuff(p) && wire[i := got] == Stuff(p) + [got] + Stuff(q);
      if got == END {
        CutRejected(seqNo, cmd, p, x, q);
      } else if got != ESC {
        WireByteRejected(seqNo, cmd, p, x, q, got);
      } else if k >= 4 {
        OrdinaryToEscRejected(seqNo, cmd, p, x, q);
      }
    } else if at == 0 {
      assert wire[..i] == Stuff(p) && wire[i := got] == Stuff(p) + [got, StuffByte(x)[1]] + Stuff(q);
      if got == END {
        CutRejected(seqNo, cmd, p, x, q);
      } else if k >= 4 {
        FirstOfPairRejected(seqNo, cmd, p, x, q, got);
      }
    } else {
      assert wire[..i] == Stuff(p) + [ESC] && wire[i := got] == Stuff(p) + [ESC, got] + Stuff(q);
      HalfPairRejected(p);
      if got != END {
        SecondOfPairRejected(seqNo, cmd, p, x, q, got);
      }
    }
  }

  lemma HalfPairRejected(p: Bytes)
    ensures Receive(Stuff(p) + [ESC]) == None
  {
    hide Stuff, Parse;
    UnstuffAfter(p, [ESC]);
  }

  lemma FramePatched(wire: Bytes, i: nat, got: bv8, rest: Bytes)
    requires i < |wire|
    ensures ([END] + wire + [END])[i + 1 := got] + rest == [END] + wire[i := got] + [END] + rest
  {
  }

  /** Such an error stays in its frame: whatever follows is received as without it. */
  lemma ErrorStaysInFrame(seqNo: nat, cmd: Bytes, i: nat, got: bv8, rest: Bytes)
    requires seqNo < 256 && |cmd| < 0x1_0000
    requires var sent := Plain(seqNo as bv8, cmd);
             i < |Stuff(sent)| && got != Stuff(sent)[i] && got != END && Covers(sent, i, got)
    ensures var frame := Frame(seqNo, cmd).value;
            && i + 1 < |frame|
            && ReceiveAll(Split(frame[i + 1 := got] + rest, [])) == [None] + ReceiveAll(Split(rest, []))
  {
    AnyWireByteRejected(seqNo, cmd, i, got);
    hide Plain, Receive, Stuff, Split, Covers, Encode;
    var sent := Plain(seqNo as bv8, cmd);
    var wire := Stuff(sent);
    var frame := Frame(seqNo, cmd).value;
    PlainStart(seqNo as bv8, cmd);
    StuffHidesEnd(sent);
    FramePatched(wire, i, got, rest);
    SplitFrame(wire[i := got], rest);
  }
}
