/** Hexadecimal text: the formats `{:02X}` and `{:04X}`, strict digit parsing, `bytes.fromhex`,
    `str.strip` and splitting a text file into lines. */
module HexText {
  import opened Wrappers

  function Digit(n: nat): (c: char)
    requires n < 16
  {
    if n < 10 then (48 + n) as char else (55 + n) as char
  }

  /** The value of one hexadecimal digit, in either case. */
  function DigitValue(c: char): (v: Option<nat>)
    ensures v.Some? ==> v.value < 16
  {
    if '0' <= c <= '9' then Some(c as int - 48)
    else if 'A' <= c <= 'F' then Some(c as int - 55)
    else if 'a' <= c <= 'f' then Some(c as int - 87)
    else None
  }

  lemma DigitRoundTrip(n: nat)
    requires n < 16
    ensures DigitValue(Digit(n)) == Some(n)
  {
  }

  /** Upper-case hexadecimal, zero-padded to at least `width` digits. */
  function Format(n: nat, width: nat): (s: string)
    decreases n, width
  {
    if n == 0 && width == 0 then ""
    else Format(n / 16, if width == 0 then 0 else width - 1) + [Digit(n % 16)]
  }

  function DigitsValue(s: string): (v: Option<nat>)
  {
    if s == "" then Some(0)
    else
      var high :- DigitsValue(s[..|s| - 1]);
      var low :- DigitValue(s[|s| - 1]);
      Some(16 * high + low)
  }

  /** `int(s, 16)` on strict digits: the empty string is an error. */
  function Parse(s: string): (v: Option<nat>)
  {
    if s == "" then None else DigitsValue(s)
  }

  lemma DigitsValueSnoc(s: string, high: nat, n: nat)
    requires DigitsValue(s) == Some(high) && n < 16
    ensures DigitsValue(s + [Digit(n)]) == Some(16 * high + n)
  {
    DigitRoundTrip(n);
    assert (s + [Digit(n)])[..|s + [Digit(n)]| - 1] == s;
  }

  lemma {:induction false} ParseFormat(n: nat, width: nat)
    ensures DigitsValue(Format(n, width)) == Some(n)
    decreases n, width
  {
    if n != 0 || width != 0 {
      var w := if width == 0 then 0 else width - 1;
      ParseFormat(n / 16, w);
      DigitsValueSnoc(Format(n / 16, w), n / 16, n % 16);
    }
  }

  lemma FormatByte(b: byte)
    ensures Format(b, 2) == [Digit(b / 16), Digit(b % 16)]
  {
    assert Format(b / 16, 1) == Format(0, 0) + [Digit(b / 16)];
  }

  lemma FormatWord(n: nat)
    requires n < 0x1_0000
    ensures Format(n, 4) == Format(n / 256, 2) + Format(n % 256, 2)
  {
    var m := n / 16;
    assert Format(n, 4) == Format(m, 3) + [Digit(n % 16)];
    assert Format(m, 3) == Format(m / 16, 2) + [Digit(m % 16)];
    assert m / 16 == n / 256 && m % 16 == n % 256 / 16 && n % 256 % 16 == n % 16;
    FormatByte(n % 256);
  }

  // ---- lower case --------------------------------------------------------------------------

  function LowerDigit(n: nat): (c: char)
    requires n < 16
  {
    if n < 10 then '0' + n as char else 'a' + (n - 10) as char
  }

  /** The sixteen digits, in both cases, have their values. */
  lemma DigitsAre(n: nat)
    requires n < 16
    ensures "0123456789ABCDEF"[n] == Digit(n) && "0123456789abcdef"[n] == LowerDigit(n)
    ensures DigitValue("0123456789ABCDEF"[n]) == DigitValue("0123456789abcdef"[n]) == Some(n)
  {
  }

  function Lower(c: char): (d: char)
  {
    if 'A' <= c <= 'Z' then (c as int + 32) as char else c
  }

  /** `s.lower()`, for ASCII letters. */
  function ToLower(s: string): (t: string)
    ensures |t| == |s| && forall i :: 0 <= i < |s| ==> t[i] == Lower(s[i])
  {
    seq(|s|, i requires 0 <= i < |s| => Lower(s[i]))
  }

  /** Lower-case hexadecimal, as `hex` prints it, zero-padded to at least `width` digits. */
  function LowerFormat(n: nat, width: nat): (s: string)
    decreases n, width
  {
    if n == 0 && width == 0 then ""
    else LowerFormat(n / 16, if width == 0 then 0 else width - 1) + [LowerDigit(n % 16)]
  }

  lemma DigitLowered(n: nat)
    requires n < 16
    ensures LowerDigit(n) == Lower(Digit(n))
  {
  }

  lemma {:induction false} LowerFormatIs(n: nat, width: nat)
    ensures LowerFormat(n, width) == ToLower(Format(n, width))
    decreases n, width
  {
    if n != 0 || width != 0 {
      hide Lower, Digit, LowerDigit;
      LowerFormatIs(n / 16, if width == 0 then 0 else width - 1);
      DigitLowered(n % 16);
    }
  }

  lemma DigitOfLower(c: char)
    ensures DigitValue(Lower(c)) == DigitValue(c)
  {
  }

  lemma {:induction false} DigitsOfLower(s: string)
    ensures DigitsValue(ToLower(s)) == DigitsValue(s)
  {
    if s != "" {
      hide DigitValue, Lower;
      var n := |s| - 1;
      DigitsOfLower(s[..n]);
      DigitOfLower(s[n]);
      assert ToLower(s)[..n] == ToLower(s[..n]);
    }
  }

  /** A number is the same number in lower case. */
  lemma ParseLower(s: string)
    ensures Parse(ToLower(s)) == Parse(s)
  {
    DigitsOfLower(s);
  }

  /** Two digits for every byte, in order. */
  function OfBytes(bs: seq<byte>): (s: string)
    ensures |s| == 2 * |bs|
  {
    if bs == [] then "" else FormatByte(bs[0]); Format(bs[0], 2) + OfBytes(bs[1..])
  }

  /** `bytes.fromhex` on strict digits: an odd length or a foreign character is an error. */
  function ToBytes(s: string): (bs: Option<seq<byte>>)
  {
    if s == "" then Some([])
    else if |s| == 1 then None
    else
      var high :- DigitValue(s[0]);
      var low :- DigitValue(s[1]);
      var rest :- ToBytes(s[2..]);
      var b: byte := 16 * high + low;
      Some([b] + rest)
  }

  /** The digits may be in lower case. */
  lemma {:induction false} ToBytesLower(s: string)
    ensures ToBytes(ToLower(s)) == ToBytes(s)
  {
    if |s| >= 2 {
      hide DigitValue, Lower;
      DigitOfLower(s[0]);
      DigitOfLower(s[1]);
      ToBytesLower(s[2..]);
      assert ToLower(s)[2..] == ToLower(s[2..]);
    }
  }

  lemma {:induction false} BytesRoundTrip(bs: seq<byte>)
    ensures ToBytes(OfBytes(bs)) == Some(bs)
  {
    if bs != [] {
      FormatByte(bs[0]);
      DigitRoundTrip(bs[0] / 16);
      DigitRoundTrip(bs[0] % 16);
      BytesRoundTrip(bs[1..]);
      assert OfBytes(bs)[2..] == OfBytes(bs[1..]);
      assert bs == [bs[0]] + bs[1..];
    }
  }

  lemma {:induction false} OfBytesAppend(a: seq<byte>, b: seq<byte>)
    ensures OfBytes(a + b) == OfBytes(a) + OfBytes(b)
  {
    if a == [] {
      assert a + b == b;
    } else {
      assert (a + b)[1..] == a[1..] + b;
      OfBytesAppend(a[1..], b);
    }
  }

  /** A slice of the text of some bytes is the text of the slice. */
  lemma OfBytesSlice(bs: seq<byte>, i: nat, j: nat)
    requires i <= j <= |bs|
    ensures OfBytes(bs)[2 * i..2 * j] == OfBytes(bs[i..j])
  {
    hide OfBytes;
    var a, b, c := bs[..i], bs[i..j], bs[j..];
    ThreeParts(bs, i, j);
    OfBytesAppend(a + b, c);
    OfBytesAppend(a, b);
    SliceAt(OfBytes(bs), OfBytes(a), OfBytes(b), OfBytes(c), 2 * i, 2 * j);
  }

  lemma ThreeParts(bs: seq<byte>, i: nat, j: nat)
    requires i <= j <= |bs|
    ensures bs == bs[..i] + bs[i..j] + bs[j..]
  {
  }

  lemma SliceAt(s: string, a: string, b: string, c: string, i: nat, j: nat)
    requires s == a + b + c && i == |a| && j == |a| + |b|
    ensures s[i..j] == b
  {
    SliceMiddle(a, b, c);
  }

  lemma SliceMiddle(a: string, b: string, c: string)
    ensures (a + b + c)[|a|..|a| + |b|] == b
  {
  }

  lemma ParseByte(b: byte)
    ensures Parse(OfBytes([b])) == Some(b)
  {
    assert OfBytes([b]) == Format(b, 2);
    ParseFormat(b, 2);
  }

  lemma ParseWord(high: byte, low: byte)
    ensures Parse(OfBytes([high, low])) == Some(256 * high + low)
  {
    var n := 256 * high + low;
    assert n / 256 == high && n % 256 == low;
    FormatWord(n);
    assert [high, low][1..] == [low];
    assert OfBytes([high, low]) == Format(high, 2) + OfBytes([low]) == Format(n, 4);
    ParseFormat(n, 4);
  }

  /** Every character printed for bytes is an upper-case digit. */
  lemma {:induction false} OfBytesDigits(bs: seq<byte>)
    ensures forall c :: c in OfBytes(bs) ==> '0' <= c <= '9' || 'A' <= c <= 'F'
  {
    if bs != [] {
      FormatByte(bs[0]);
      OfBytesDigits(bs[1..]);
    }
  }

  // ---- lines -------------------------------------------------------------------------------

  predicate IsSpace(c: char)
  {
    c == ' ' || '\t' <= c <= '\r' || 0x1C as char <= c <= 0x1F as char
  }

  /** Tab, line feed, vertical tab, form feed and carriage return; the four separators; the blank. */
  lemma SpacesAre(c: char)
    ensures IsSpace(c) <==> c as int in {9, 10, 11, 12, 13, 28, 29, 30, 31, 32}
  {
  }

  function TrimLeft(s: string): (t: string)
    ensures t == "" || !IsSpace(t[0])
  {
    if s == "" || !IsSpace(s[0]) then s else TrimLeft(s[1..])
  }

  function TrimRight(s: string): (t: string)
    ensures t == "" || !IsSpace(t[|t| - 1])
  {
    if s == "" || !IsSpace(s[|s| - 1]) then s else TrimRight(s[..|s| - 1])
  }

  /** `str.strip` for ASCII white space. */
  function Strip(s: string): (t: string)
  {
    TrimRight(TrimLeft(s))
  }

  lemma {:induction false} TrimLeftLower(s: string)
    ensures TrimLeft(ToLower(s)) == ToLower(TrimLeft(s))
  {
    if s != "" && IsSpace(s[0]) {
      assert ToLower(s)[1..] == ToLower(s[1..]);
      TrimLeftLower(s[1..]);
    } else {
      assert s != "" ==> IsSpace(Lower(s[0])) == IsSpace(s[0]);
    }
  }

  lemma {:induction false} TrimRightLower(s: string)
    ensures TrimRight(ToLower(s)) == ToLower(TrimRight(s))
  {
    var n := |s| - 1;
    if s != "" && IsSpace(s[n]) {
      assert ToLower(s)[..n] == ToLower(s[..n]);
      TrimRightLower(s[..n]);
    } else {
      assert s != "" ==> IsSpace(Lower(s[n])) == IsSpace(s[n]);
    }
  }

  lemma StripLower(s: string)
    ensures Strip(ToLower(s)) == ToLower(Strip(s))
  {
    TrimLeftLower(s);
    TrimRightLower(TrimLeft(s));
  }

  /** Lines of a text file, each with its line end, as `readlines` returns them. */
  function ReadLines(text: string): (lines: seq<string>)
  {
    SplitLines(text, 0)
  }

  /** `SplitLines(text, n)`: the first `n` characters are known to hold no line end. */
  function SplitLines(text: string, n: nat): (lines: seq<string>)
    requires n <= |text|
    decreases |text|, |text| - n
  {
    if n == |text| then (if text == "" then [] else [text])
    else if text[n] == '\n' then [text[..n + 1]] + SplitLines(text[n + 1..], 0)
    else SplitLines(text, n + 1)
  }

  function AllLower(lines: seq<string>): (r: seq<string>)
    ensures |r| == |lines| && forall i :: 0 <= i < |lines| ==> r[i] == ToLower(lines[i])
  {
    seq(|lines|, i requires 0 <= i < |lines| => ToLower(lines[i]))
  }

  lemma {:induction false} SplitLower(text: string, n: nat)
    requires n <= |text|
    ensures SplitLines(ToLower(text), n) == AllLower(SplitLines(text, n))
    decreases |text|, |text| - n
  {
    if n < |text| {
      assert Lower(text[n]) == '\n' <==> text[n] == '\n';
      if text[n] == '\n' {
        SplitLower(text[n + 1..], 0);
        assert ToLower(text)[n + 1..] == ToLower(text[n + 1..]);
        assert ToLower(text)[..n + 1] == ToLower(text[..n + 1]);
      } else {
        SplitLower(text, n + 1);
      }
    }
  }

  /** Every line followed by a line end, as the writer emits them. */
  function JoinLines(lines: seq<string>): (text: string)
  {
    if lines == [] then "" else lines[0] + "\n" + JoinLines(lines[1..])
  }

  function Terminated(lines: seq<string>): (r: seq<string>)
    ensures |r| == |lines|
    ensures forall i :: 0 <= i < |lines| ==> r[i] == lines[i] + "\n"
  {
    seq(|lines|, i requires 0 <= i < |lines| => lines[i] + "\n")
  }

  lemma TerminatedSnoc(lines: seq<string>, line: string)
    ensures Terminated(lines + [line]) == Terminated(lines) + [line + "\n"]
  {
  }

  lemma TerminatedCons(line: string, lines: seq<string>)
    ensures Terminated([line] + lines) == [line + "\n"] + Terminated(lines)
  {
  }

  lemma {:induction false} SplitFirst(line: string, rest: string, n: nat)
    requires '\n' !in line && n <= |line|
    ensures SplitLines(line + "\n" + rest, n) == [line + "\n"] + SplitLines(rest, 0)
    decreases |line| - n
  {
    var text := line + "\n" + rest;
    if n == |line| {
      assert text[..n + 1] == line + "\n";
      assert text[n + 1..] == rest;
    } else {
      assert text[n] == line[n];
      SplitFirst(line, rest, n + 1);
    }
  }

  /** Reading back what was written gives the written lines, whatever they hold. */
  lemma {:induction false} ReadJoined(lines: seq<string>)
    requires forall l :: l in lines ==> '\n' !in l
    ensures ReadLines(JoinLines(lines)) == Terminated(lines)
  {
    if lines != [] {
      assert lines == [lines[0]] + lines[1..];
      SplitFirst(lines[0], JoinLines(lines[1..]), 0);
      ReadJoined(lines[1..]);
      TerminatedCons(lines[0], lines[1..]);
    }
  }
}
