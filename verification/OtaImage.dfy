/** The signed update container: page alignment, the trailer with length and signature, the header
    in front, and a reader that recovers payload and signature from the file. */
module OtaImage {
  import opened Wrappers

  type Bytes = seq<byte>

  const PAGE: nat := 256
  const HEADER_SIZE: nat := 48
  const SIGNATURE_ID: Bytes := [0x53, 0x4E, 0xBF, 0x58]
  const LOAD_ADDRESS: nat := 0x8000

  // ---- numbers as octets ---------------------------------------------------------------------

  predicate FitsIn(n: nat, k: nat)
  {
    if k == 0 then n == 0 else FitsIn(n / 256, k - 1)
  }

  /** `n.to_bytes(k, "little")`. */
  function ToLittle(n: nat, k: nat): (bs: Bytes)
    ensures |bs| == k
  {
    if k == 0 then [] else [n % 256] + ToLittle(n / 256, k - 1)
  }

  function FromLittle(bs: Bytes): (n: nat)
  {
    if bs == [] then 0 else bs[0] + 256 * FromLittle(bs[1..])
  }

  lemma {:induction false} LittleRoundTrip(n: nat, k: nat)
    requires FitsIn(n, k)
    ensures FromLittle(ToLittle(n, k)) == n
  {
    if k > 0 {
      LittleRoundTrip(n / 256, k - 1);
      assert ToLittle(n, k)[1..] == ToLittle(n / 256, k - 1);
    }
  }

  /** The first octet is the lowest. */
  lemma FromLittleFour(a: byte, b: byte, c: byte, d: byte)
    ensures FromLittle([a, b, c, d]) == a + 0x100 * b + 0x1_0000 * c + 0x100_0000 * d
  {
    var four: Bytes, three: Bytes, two: Bytes, one: Bytes := [a, b, c, d], [b, c, d], [c, d], [d];
    assert four[1..] == three && three[1..] == two && two[1..] == one && one[1..] == [];
    assert FromLittle(one) == d;
    assert FromLittle(two) == c + 256 * d;
    assert FromLittle(three) == b + 256 * c + 0x1_0000 * d;
  }

  lemma FitsInFour(n: nat)
    ensures FitsIn(n, 4) <==> n < 0x1_0000_0000
  {
    assert FitsIn(n, 4) == FitsIn(n / 256, 3) == FitsIn(n / 256 / 256, 2)
        == FitsIn(n / 256 / 256 / 256, 1) == FitsIn(n / 256 / 256 / 256 / 256, 0);
  }

  // ---- alignment -----------------------------------------------------------------------------

  function Repeat(b: byte, n: nat): (bs: Bytes)
    ensures |bs| == n && forall i :: 0 <= i < n ==> bs[i] == b
  {
    seq(n, i => b)
  }

  /** Pad `bs` so that `length` becomes a multiple of the page size. */
  function Align(bs: Bytes, length: nat): (aligned: Bytes)
    ensures |bs| <= |aligned| < |bs| + PAGE && aligned[..|bs|] == bs
    ensures forall i :: |bs| <= i < |aligned| ==> aligned[i] == 0xFF
    ensures (length + |aligned| - |bs|) % PAGE == 0
  {
    var padding := if PAGE - length % PAGE == PAGE then 0 else PAGE - length % PAGE;
    bs + Repeat(0xFF, padding)
  }

  /** The signed form of some bytes that start `offset` bytes into the file: padding to a page, the
      mark, the length and the signature on a page of their own. */
  function Signed(data: Bytes, signature: Bytes, offset: nat): (r: Option<Bytes>)
  {
    if !FitsIn(|data|, 4) then None
    else
      var t := Align(data, |data| + offset) + SIGNATURE_ID + ToLittle(|data|, 4) + signature;
      Some(Align(t, |t| + offset))
  }

  /** The last page, and from it the payload and the signature. */
  function Recover(signed: Bytes): (r: Option<(Bytes, Bytes)>)
  {
    if |signed| < PAGE || signed[|signed| - PAGE..][..4] != SIGNATURE_ID then None
    else
      var page := signed[|signed| - PAGE..];
      var n := FromLittle(page[4..8]);
      if n > |signed| then None else Some((signed[..n], page[8..72]))
  }

  lemma AlignedLength(n: nat, pad: nat)
    requires n % PAGE == 0 && pad < PAGE && (n + 72 + pad) % PAGE == 0
    ensures 72 + pad == PAGE
  {
  }

  /** The last page of a signed form is the mark, the length and the signature, and then padding. */
  lemma SignedPage(data: Bytes, signature: Bytes, offset: nat)
    requires FitsIn(|data|, 4) && |signature| == 64
    ensures var body, aligned := Signed(data, signature, offset).value, Align(data, |data| + offset);
            && |body| == |aligned| + PAGE
            && body[..|aligned|] == aligned
            && body[|aligned|..][..72] == SIGNATURE_ID + ToLittle(|data|, 4) + signature
  {
    var aligned := Align(data, |data| + offset);
    var trailer := SIGNATURE_ID + ToLittle(|data|, 4) + signature;
    var t := aligned + SIGNATURE_ID + ToLittle(|data|, 4) + signature;
    assert t == aligned + trailer;
    var body := Align(t, |t| + offset);
    AlignedLength(|aligned| + offset, |body| - |t|);
    assert body[..|t|] == t;
    assert body[..|aligned|] == t[..|aligned|] == aligned;
    assert body[|aligned|..][..72] == body[..|t|][|aligned|..] == trailer;
  }

  lemma PageFields(page: Bytes, mark: Bytes, size: Bytes, signature: Bytes)
    requires |mark| == |size| == 4 && |signature| == 64 && |page| >= 72 && page[..72] == mark + size + signature
    ensures page[..4] == mark && page[4..8] == size && page[8..72] == signature
  {
    var head := mark + size + signature;
    assert page[..4] == page[..72][..4] == head[..4];
    assert page[4..8] == page[..72][4..8] == head[4..8];
    assert page[8..72] == page[..72][8..] == head[8..];
  }

  lemma SignedFillsPages(data: Bytes, signature: Bytes, offset: nat)
    requires FitsIn(|data|, 4) && |signature| == 64
    ensures var body := Signed(data, signature, offset).value;
            (offset + |body|) % PAGE == 0 && |body| >= PAGE && (offset + |body| - PAGE) % PAGE == 0
  {
    SignedPage(data, signature, offset);
    hide ToLittle, FitsIn;
    var body := Signed(data, signature, offset).value;
    OnePageLess(offset + |body|);
  }

  lemma OnePageLess(n: nat)
    ensures n >= PAGE ==> (n - PAGE) % PAGE == n % PAGE
  {
  }

  lemma SignedHoldsPayload(data: Bytes, signature: Bytes, offset: nat)
    requires FitsIn(|data|, 4) && |signature| == 64
    ensures var body := Signed(data, signature, offset).value;
            |data| <= |body| && body[..|data|] == data
  {
    var aligned := Align(data, |data| + offset);
    SignedPage(data, signature, offset);
    hide Signed, FitsIn, ToLittle;
    var body := Signed(data, signature, offset).value;
    PrefixOf(body, aligned, data);
  }

  lemma PrefixOf(body: Bytes, aligned: Bytes, data: Bytes)
    requires |data| <= |aligned| <= |body| && body[..|aligned|] == aligned && aligned[..|data|] == data
    ensures body[..|data|] == data
  {
    assert body[..|data|] == body[..|aligned|][..|data|];
  }

  /** Payload and signature are recovered from every signed form, for every payload length; form and
      trailer start and end on page boundaries of the file. */
  lemma SignedRecovers(data: Bytes, signature: Bytes, offset: nat)
    requires FitsIn(|data|, 4) && |signature| == 64
    ensures Signed(data, signature, offset).Some?
    ensures var body := Signed(data, signature, offset).value;
            && Recover(body) == Some((data, signature))
            && (offset + |body|) % PAGE == 0 && |body| >= PAGE && (offset + |body| - PAGE) % PAGE == 0
            && |data| <= |body| && body[..|data|] == data
  {
    SignedPage(data, signature, offset);
    SignedFillsPages(data, signature, offset);
    SignedHoldsPayload(data, signature, offset);
    hide Align, Signed, FitsIn, ToLittle, FromLittle;
    var body, size := Signed(data, signature, offset).value, ToLittle(|data|, 4);
    PageFields(body[|body| - PAGE..], SIGNATURE_ID, size, signature);
    LittleRoundTrip(|data|, 4);
  }

  // ---- the signature in DER ------------------------------------------------------------------

  /** An ECDSA signature: a SEQUENCE of two INTEGERs (section 8.3 of ITU-T X.690, section 2.2.3 of
      RFC 3279), all lengths in short form. */
  function Der(r: Bytes, s: Bytes): (der: Bytes)
    requires |r| <= 33 && |s| <= 33
  {
    [0x30, 4 + |r| + |s|, 0x02, |r|] + r + [0x02, |s|] + s
  }

  /** Slices clamp to the string, as the source's do. */
  function Slice(bs: Bytes, i: nat, j: nat): (t: Bytes)
    requires i <= j
  {
    if |bs| <= i then [] else if |bs| <= j then bs[i..] else bs[i..j]
  }

  function Reversed(bs: Bytes): (r: Bytes)
    ensures |r| == |bs| && forall i :: 0 <= i < |bs| ==> r[i] == bs[|bs| - 1 - i]
  {
    seq(|bs|, i requires 0 <= i < |bs| => bs[|bs| - 1 - i])
  }

  /** `None` stands for the index error the source raises on a short string. */
  function ExtractKey(der: Bytes): (key: Option<Bytes>)
  {
    if |der| <= 3 then None
    else
      var start := if der[3] == 32 then 4 else 5;
      var end := start + 32;
      if |der| <= end + 1 then None
      else
        var start2 := if der[end + 1] == 32 then end + 2 else end + 3;
        Some(Reversed(Slice(der, start, end)) + Reversed(Slice(der, start2, start2 + 32)))
  }

  /** An INTEGER of at most 33 octets, 33 only with the zero that keeps it positive. */
  predicate IsInteger(n: Bytes) {
    1 <= |n| <= 33 && (|n| == 33 ==> n[0] == 0)
  }

  /** Its 32-octet big-endian value. */
  function Fixed(n: Bytes): (v: Bytes)
    requires IsInteger(n)
    ensures |v| == 32
  {
    if |n| == 33 then n[1..] else Repeat(0, 32 - |n|) + n
  }

  function Expected(r: Bytes, s: Bytes): (key: Bytes)
    requires IsInteger(r) && IsInteger(s)
  {
    Reversed(Fixed(r)) + Reversed(Fixed(s))
  }

  lemma DerAt(r: Bytes, s: Bytes)
    requires IsInteger(r) && IsInteger(s)
    ensures var der := Der(r, s);
            && |der| == 6 + |r| + |s| && der[3] == |r|
            && (forall i :: 0 <= i < |r| ==> der[4 + i] == r[i])
            && der[4 + |r|] == 2 && der[5 + |r|] == |s|
            && (forall i :: 0 <= i < |s| ==> der[6 + |r| + i] == s[i])
  {
    var head: Bytes := [0x30, 4 + |r| + |s|, 0x02, |r|];
    var mid: Bytes := [0x02, |s|];
    assert Der(r, s) == head + r + mid + s;
  }

  lemma FullIntegersRead(r: Bytes, s: Bytes)
    requires IsInteger(r) && IsInteger(s) && |r| >= 32 && |s| >= 32
    ensures ExtractKey(Der(r, s)) == Some(Expected(r, s))
  {
    hide Der, Fixed, Slice;
    var der := Der(r, s);
    DerAt(r, s);
    var start := if |r| == 32 then 4 else 5;
    var start2 := if |s| == 32 then start + 34 else start + 35;
    SliceIsFixed(der, 4, r);
    SliceIsFixed(der, 6 + |r|, s);
  }

  lemma SliceIsFixed(der: Bytes, at: nat, n: Bytes)
    requires IsInteger(n) && |n| >= 32 && at + |n| <= |der|
    requires forall i :: 0 <= i < |n| ==> der[at + i] == n[i]
    ensures var start := if |n| == 32 then at else at + 1;
            Slice(der, start, start + 32) == Fixed(n)
  {
    assert der[at..at + |n|] == n;
  }

  lemma ShortSecondMisread(r: Bytes, s: Bytes)
    requires IsInteger(r) && IsInteger(s) && |r| >= 32 && |s| < 32
    ensures ExtractKey(Der(r, s)) != Some(Expected(r, s))
  {
    hide Der;
    var der := Der(r, s);
    DerAt(r, s);
    var start := if |r| == 32 then 4 else 5;
    assert |Slice(der, start + 35, start + 67)| < 32;
    assert |Expected(r, s)| == 64;
  }

  /** The remainder of `i` by `k`. */
  function Rem(i: nat, k: nat): (m: nat)
    requires k > 0
    ensures m < k
  {
    if i < k then i else Rem(i - k, k)
  }

  lemma {:induction false} RemNext(i: nat, k: nat)
    requires k >= 2 && Rem(i, k) == 0
    ensures Rem(i + 1, k) == 1
  {
    if i >= k {
      RemNext(i - k, k);
    }
  }

  /** If a short first integer were read as its value, its octets would repeat with a period that
      the tag and length behind them break. */
  lemma {:induction false} Periodic(r: Bytes, k: nat, i: nat)
    requires k >= 2 && i < |r|
    requires forall j :: 1 <= j < k && j < |r| ==> r[j] == 0
    requires forall j :: k <= j < |r| ==> r[j] == r[j - k]
    ensures r[i] == if Rem(i, k) == 0 then r[0] else 0
    decreases i
  {
    if i >= k {
      Periodic(r, k, i - k);
    }
  }

  lemma ShortFirstMisread(r: Bytes, s: Bytes)
    requires IsInteger(r) && IsInteger(s) && |r| < 32
    ensures ExtractKey(Der(r, s)) != Some(Expected(r, s))
  {
    hide Der, Fixed;
    var der := Der(r, s);
    DerAt(r, s);
    if |der| > 38 {
      var got := Slice(der, 5, 37);
      var start2 := if der[38] == 32 then 39 else 40;
      ShortDiffers(r, s, got);
      HalvesDiffer(got, Fixed(r), Reversed(Slice(der, start2, start2 + 32)), Reversed(Fixed(s)));
    }
  }

  lemma HalvesDiffer(a: Bytes, b: Bytes, c: Bytes, d: Bytes)
    requires a != b && |a| == |b|
    ensures Reversed(a) + c != Reversed(b) + d
  {
    var i :| 0 <= i < |a| && a[i] != b[i];
    assert (Reversed(a) + c)[|a| - 1 - i] == a[i] && (Reversed(b) + d)[|a| - 1 - i] == b[i];
  }

  lemma ShortDiffers(r: Bytes, s: Bytes, got: Bytes)
    requires IsInteger(r) && IsInteger(s) && |r| < 32 && |got| == 32
    requires forall j :: 0 <= j < |r| - 1 ==> got[j] == r[j + 1]
    requires got[|r| - 1] == 2 && got[|r|] == |s|
    ensures got != Fixed(r)
  {
    if forall j :: 0 <= j < |r| - 1 ==> Fixed(r)[j] == r[j + 1] {
      FixedBreaks(r);
    }
  }

  /** A short integer's value that continues as its encoding does cannot be followed by the tag and a
      length. */
  lemma FixedBreaks(r: Bytes)
    requires IsInteger(r) && |r| < 32
    requires forall j :: 0 <= j < |r| - 1 ==> Fixed(r)[j] == r[j + 1]
    ensures Fixed(r)[|r| - 1] != 2 || Fixed(r)[|r|] == 0
  {
    var got := Fixed(r);
    var n := |r|;
    var k := 33 - n;
    assert forall j :: 0 <= j < 32 - n ==> got[j] == 0;
    assert forall j :: 32 - n <= j < 32 ==> got[j] == r[j - (32 - n)];
    forall j | 1 <= j < k && j < n
      ensures r[j] == 0
    {
      assert r[j] == got[j - 1];
    }
    forall j | k <= j < n
      ensures r[j] == r[j - k]
    {
      assert r[j] == got[j - 1];
    }
    if n >= k {
      Periodic(r, k, n - k);
      assert got[n - 1] == r[n - k];
      assert got[n] == r[n - k + 1];
      if got[n - 1] == 2 && Rem(n - k, k) == 0 {
        RemNext(n - k, k);
        Periodic(r, k, n - k + 1);
      }
    }
  }

  /** The extraction is right exactly for integers of 32 octets or of 33 with the leading zero; an
      integer whose leading octets are zero, and so left out of the encoding, is misread. */
  lemma ExtractKeyExact(r: Bytes, s: Bytes)
    requires IsInteger(r) && IsInteger(s)
    ensures ExtractKey(Der(r, s)) == Some(Expected(r, s)) <==> |r| >= 32 && |s| >= 32
  {
    hide ExtractKey, Der, Expected;
    if |r| < 32 {
      ShortFirstMisread(r, s);
    } else if |s| < 32 {
      ShortSecondMisread(r, s);
    } else {
      FullIntegersRead(r, s);
    }
  }

  /** An integer of 31 octets followed by one of 32. */
  lemma ShortIntegerExample()
    ensures var r, s := Repeat(1, 31), Repeat(1, 32);
            IsInteger(r) && IsInteger(s) && ExtractKey(Der(r, s)) != Some(Expected(r, s))
  {
    hide ExtractKey, Der, Expected;
    ExtractKeyExact(Repeat(1, 31), Repeat(1, 32));
  }

  // ---- the whole file ------------------------------------------------------------------------

  /** What the run gets from elsewhere: the 16 bytes of system information found in the binary, the
      initial vector, the CRC-32 of the body. */
  datatype Fields = Fields(info: Bytes, crc: nat, option: nat, uncompressed: nat, vector: Bytes)

  function Header(f: Fields, length: nat): (h: Option<Bytes>)
  {
    if !FitsIn(f.crc, 4) || !FitsIn(LOAD_ADDRESS + length, 4) then None
    else if !FitsIn(f.option, 1) || !FitsIn(f.uncompressed, 3) then None
    else
      Some(f.info + ToLittle(f.crc, 4) + ToLittle(LOAD_ADDRESS, 4) + ToLittle(LOAD_ADDRESS + length, 4)
           + ToLittle(f.option, 1) + ToLittle(f.uncompressed, 3) + f.vector)
  }

  /** The compressed and signed form of an update file. */
  function Container(payload: Bytes, der: Bytes, f: Fields): (file: Option<Bytes>)
  {
    var key :- ExtractKey(der);
    var body :- Signed(payload, key, HEADER_SIZE);
    var header :- Header(f, |body|);
    Some(header + body)
  }

  lemma SizeFailsFirst(payload: Bytes, der: Bytes, f: Fields)
    requires !FitsIn(|payload|, 4)
    ensures Container(payload, der, f) == None
  {
  }

  /** What a loader reads from the header: start and end address. */
  function Addresses(file: Bytes): (a: (nat, nat))
    requires |file| >= HEADER_SIZE
  {
    (FromLittle(file[20..24]), FromLittle(file[24..28]))
  }

  /** The header, field by field. */
  predicate HeaderHolds(file: Bytes, f: Fields, length: nat) {
    && |file| == 48 + length
    && file[..16] == f.info && FromLittle(file[16..20]) == f.crc
    && Addresses(file) == (0x8000, 0x8000 + length)
    && file[28] == f.option && FromLittle(file[29..32]) == f.uncompressed && file[32..48] == f.vector
  }

  lemma HeaderReads(f: Fields, length: nat, body: Bytes)
    requires |f.info| == 16 && |f.vector| == 16 && Header(f, length).Some? && |body| == length
    ensures |Header(f, length).value| == 48 && HeaderHolds(Header(f, length).value + body, f, length)
  {
    hide ToLittle, FitsIn, FromLittle;
    var h := Header(f, length).value;
    var crc, start, end := ToLittle(f.crc, 4), ToLittle(LOAD_ADDRESS, 4), ToLittle(LOAD_ADDRESS + length, 4);
    var option, uncompressed := ToLittle(f.option, 1), ToLittle(f.uncompressed, 3);
    HeaderParts(f.info, crc, start, end, option, uncompressed, f.vector, body);
    FitsInFour(LOAD_ADDRESS);
    LittleRoundTrip(f.crc, 4);
    LittleRoundTrip(LOAD_ADDRESS, 4);
    LittleRoundTrip(LOAD_ADDRESS + length, 4);
    LittleRoundTrip(f.uncompressed, 3);
    OneOctet(f.option);
  }

  lemma OneOctet(n: nat)
    requires FitsIn(n, 1)
    ensures ToLittle(n, 1) == [n]
  {
    assert FitsIn(n / 256, 0);
  }

  lemma HeaderParts(a: Bytes, b: Bytes, c: Bytes, d: Bytes, e: Bytes, g: Bytes, h: Bytes, body: Bytes)
    requires |a| == 16 && |b| == 4 && |c| == 4 && |d| == 4 && |e| == 1 && |g| == 3 && |h| == 16
    ensures var file := a + b + c + d + e + g + h + body;
            && |file| == 48 + |body| && file[..16] == a && file[16..20] == b && file[20..24] == c
            && file[24..28] == d && file[28] == e[0] && file[29..32] == g && file[32..48] == h
  {
  }

  /** The last page of the file: the mark, the payload's length, the signature, and padding. */
  predicate TrailerHolds(file: Bytes, size: nat, key: Bytes)
    requires |file| >= 256
  {
    var page := file[|file| - 256..];
    && page[..4] == [0x53, 0x4E, 0xBF, 0x58] && FromLittle(page[4..8]) == size && page[8..72] == key
    && forall i :: 72 <= i < 256 ==> page[i] == 0xFF
  }

  /** The whole file: header, payload, padding to a page, and the trailer on a page of its own. */
  predicate Holds(file: Bytes, payload: Bytes, key: Bytes, f: Fields) {
    var n := |payload|;
    && |file| % 256 == 0 && 48 + n + 256 <= |file| < 48 + n + 512
    && HeaderHolds(file, f, |file| - 48)
    && file[48..48 + n] == payload
    && (forall i :: 48 + n <= i < |file| - 256 ==> file[i] == 0xFF)
    && TrailerHolds(file, n, key)
  }

  /** Full-size integers: 32 octets, or 33 with the leading zero. */
  predicate FullSize(r: Bytes, s: Bytes) {
    IsInteger(r) && IsInteger(s) && |r| >= 32 && |s| >= 32
  }

  lemma ExpectedLength(r: Bytes, s: Bytes)
    requires IsInteger(r) && IsInteger(s)
    ensures |Expected(r, s)| == 64
  {
  }

  /** For every payload and every signature with full-size integers the file is determined to the last
      byte; a reader of the last page recovers payload and signature. */
  lemma ContainerRecovers(payload: Bytes, r: Bytes, s: Bytes, f: Fields)
    requires FullSize(r, s)
    requires |f.info| == 16 && |f.vector| == 16 && Container(payload, Der(r, s), f).Some?
    ensures var file := Container(payload, Der(r, s), f).value;
            && Holds(file, payload, Expected(r, s), f)
            && Recover(file[48..]) == Some((payload, Expected(r, s)))
  {
    hide ExtractKey, Der, Header, Recover, Addresses, Signed, Fixed, FitsIn, HeaderHolds, TrailerHolds, Expected;
    FullIntegersRead(r, s);
    ExpectedLength(r, s);
    var key := Expected(r, s);
    SignedFits(payload, key);
    SignedRecovers(payload, key, HEADER_SIZE);
    var body := Signed(payload, key, HEADER_SIZE).value;
    HeaderReads(f, |body|, body);
    var header := Header(f, |body|).value;
    SignedLayout(payload, key, header);
    assert (header + body)[48..] == body;
  }

  /** Where the parts of a signed form stand behind a header. */
  lemma SignedLayout(payload: Bytes, key: Bytes, header: Bytes)
    requires FitsIn(|payload|, 4) && |key| == 64 && |header| == 48
    ensures Signed(payload, key, HEADER_SIZE).Some?
    ensures var file, n := header + Signed(payload, key, HEADER_SIZE).value, |payload|;
            && |file| % 256 == 0 && 48 + n + 256 <= |file| < 48 + n + 512
            && file[48..48 + n] == payload
            && (forall i :: 48 + n <= i < |file| - 256 ==> file[i] == 0xFF)
            && TrailerHolds(file, n, key)
  {
    hide FitsIn, ToLittle, FromLittle;
    var n, size := |payload|, ToLittle(|payload|, 4);
    var aligned := Align(payload, n + HEADER_SIZE);
    var body := Signed(payload, key, HEADER_SIZE).value;
    var file := header + body;
    SignedPage(payload, key, HEADER_SIZE);
    SignedFillsPages(payload, key, HEADER_SIZE);
    SignedPadded(payload, key, HEADER_SIZE);
    hide Signed, Align;
    LittleRoundTrip(n, 4);
    var page := body[|aligned|..];
    assert file[|file| - 256..] == page;
    PageFields(page, SIGNATURE_ID, size, key);
    assert file[48..48 + n] == body[..n] == aligned[..n];
    forall i | 48 + n <= i < |file| - 256
      ensures file[i] == 0xFF
    {
      assert file[i] == body[i - 48] == body[..|aligned|][i - 48];
    }
  }

  lemma SignedPadded(data: Bytes, signature: Bytes, offset: nat)
    requires FitsIn(|data|, 4) && |signature| == 64
    ensures var body, aligned := Signed(data, signature, offset).value, Align(data, |data| + offset);
            && (forall i :: |data| <= i < |aligned| ==> aligned[i] == 0xFF)
            && |body| == |aligned| + 256 && forall i :: |aligned| + 72 <= i < |body| ==> body[i] == 0xFF
  {
    hide ToLittle, FitsIn;
    SignedPage(data, signature, offset);
  }

  /** A file is written exactly when every number fits its field and the signature is long enough to be
      taken apart. */
  predicate Written(payload: Bytes, der: Bytes, f: Fields) {
    && |payload| < 0x1_0000_0000 && ExtractKey(der).Some?
    && (var body := Signed(payload, ExtractKey(der).value, 48);
        body.Some? && 0x8000 + |body.value| < 0x1_0000_0000)
    && f.crc < 0x1_0000_0000 && f.option < 0x100 && f.uncompressed < 0x100_0000
  }

  lemma FitsInLess(n: nat)
    ensures FitsIn(n, 1) <==> n < 0x100
    ensures FitsIn(n, 3) <==> n < 0x100_0000
    ensures FitsIn(n, 4) <==> n < 0x1_0000_0000
  {
    FitsInFour(n);
    assert FitsIn(n, 1) == FitsIn(n / 256, 0);
    assert FitsIn(n, 3) == FitsIn(n / 256, 2) == FitsIn(n / 256 / 256, 1) == FitsIn(n / 256 / 256 / 256, 0);
  }

  lemma ContainerMeets(payload: Bytes, der: Bytes, f: Fields)
    ensures var file := Container(payload, der, f);
            && (file.Some? <==> Written(payload, der, f))
            && (file.Some? && |f.info| == 16 && |f.vector| == 16 ==>
                  forall r, s :: FullSize(r, s) && der == Der(r, s) ==> Holds(file.value, payload, Expected(r, s), f))
  {
    WrittenExactly(payload, der, f);
    hide Container, Written, Holds, Der, Expected;
    if Container(payload, der, f).Some? && |f.info| == 16 && |f.vector| == 16 {
      forall r, s | FullSize(r, s) && der == Der(r, s)
        ensures Holds(Container(payload, der, f).value, payload, Expected(r, s), f)
      {
        ContainerRecovers(payload, r, s, f);
      }
    }
  }

  lemma WrittenExactly(payload: Bytes, der: Bytes, f: Fields)
    ensures Container(payload, der, f).Some? <==> Written(payload, der, f)
  {
    hide ExtractKey, FitsIn, ToLittle;
    FitsInLess(|payload|);
    FitsInLess(f.crc);
    FitsInLess(f.option);
    FitsInLess(f.uncompressed);
    var key := ExtractKey(der);
    if key.Some? && FitsIn(|payload|, 4) {
      FitsInLess(LOAD_ADDRESS + |Signed(payload, key.value, HEADER_SIZE).value|);
    }
  }

  lemma SignedFits(payload: Bytes, key: Bytes)
    requires Signed(payload, key, HEADER_SIZE).Some?
    ensures FitsIn(|payload|, 4)
  {
  }

  method GenerateContainer(payload: Bytes, der: Bytes, f: Fields) returns (file: Option<Bytes>)
    ensures file == Container(payload, der, f)
    ensures file.Some? <==> Written(payload, der, f)
    ensures file.Some? && |f.info| == 16 && |f.vector| == 16 ==>
              forall r, s :: FullSize(r, s) && der == Der(r, s) ==> Holds(file.value, payload, Expected(r, s), f)
  {
    ContainerMeets(payload, der, f);
    hide Holds, Written, Expected, Der;
    if !FitsIn(|payload|, 4) {
      SizeFailsFirst(payload, der, f);
      return None;
    }
    var size := |payload|;
    var output := Align(payload, size + HEADER_SIZE);
    output := output + SIGNATURE_ID + ToLittle(size, 4);
    var key := ExtractKey(der);
    if key == None {
      return None;
    }
    output := Align(output + key.value, |output + key.value| + HEADER_SIZE);
    var header := Header(f, |output|);
    if header == None {
      return None;
    }
    file := Some(header.value + output);
  }
}
