/** Patching tokens into a HEX file: token definitions and values as text, and the patched image. */
module TokensPatch {
  import opened Wrappers
  import opened MemoryImage
  import opened HexLoader
  import opened HexRoundTrip
  import opened HexFile
  import opened HexSaveLoad
  import HexText

  /** A definition's two texts, `address` and `size`. */
  datatype TokenDef = TokenDef(address: string, size: string)

  /** One entry of the token data file. */
  datatype TokenValue = TokenValue(name: string, value: string, kind: string)

  /** What a patch run leaves in the output file. */
  datatype Outcome = Rejected | NothingWritten | Written(text: string)

  // ---- token texts ---------------------------------------------------------------------------

  /** `int(s, 16)`: white space around it and one `0x` in front are allowed. */
  function ParseHexInt(s: string): (n: Option<nat>)
  {
    var t := HexText.Strip(s);
    if |t| >= 2 && t[0] == '0' && (t[1] == 'x' || t[1] == 'X') then HexText.Parse(t[2..]) else HexText.Parse(t)
  }

  function DecimalValue(s: string): (n: Option<nat>)
  {
    if s == "" then Some(0)
    else
      var high :- DecimalValue(s[..|s| - 1]);
      if '0' <= s[|s| - 1] <= '9' then Some(10 * high + (s[|s| - 1] as int - 48)) else None
  }

  /** `int(s)`: white space around it and one sign in front are allowed. */
  function ParseInt(s: string): (n: Option<int>)
  {
    var t := HexText.Strip(s);
    var signed := t != "" && (t[0] == '-' || t[0] == '+');
    var digits := if signed then t[1..] else t;
    if digits == "" then None
    else
      var n: int :- DecimalValue(digits);
      Some(if signed && t[0] == '-' then -n else n)
  }

  /** `s.replace(' ', '')`. */
  function RemoveSpaces(s: string): (t: string)
  {
    if s == "" then ""
    else if s[0] == ' ' then RemoveSpaces(s[1..])
    else [s[0]] + RemoveSpaces(s[1..])
  }

  /** `s.replace('0x', '')`: every `0x`, found from the left. */
  function RemovePrefixes(s: string): (t: string)
  {
    if s == "" then ""
    else if |s| >= 2 && s[0] == '0' && s[1] == 'x' then RemovePrefixes(s[2..])
    else [s[0]] + RemovePrefixes(s[1..])
  }

  /** `value.encode('ascii')`. */
  function EncodeAscii(s: string): (bs: Option<seq<byte>>)
  {
    if s == "" then Some([])
    else if s[0] as int >= 128 then None
    else
      var rest :- EncodeAscii(s[1..]);
      var b: byte := s[0] as int;
      Some([b] + rest)
  }

  function ParseHexBytes(value: string): (bs: Option<seq<byte>>)
  {
    var digits := RemovePrefixes(RemoveSpaces(value));
    if |digits| % 2 != 0 then None else HexText.ToBytes(digits)
  }

  function ParseTokenValue(value: string, kind: string): (bs: Option<seq<byte>>)
  {
    if kind == "hex" then ParseHexBytes(value)
    else if kind == "int" then
      var n :- ParseInt(value);
      if n < 0 || n > 255 then None
      else
        var b: byte := n;
        Some([b])
    else if kind == "ascii" then EncodeAscii(value)
    else None
  }

  /** The text of a key in the token data file: the first byte carries the prefix. */
  function BytesToHex(bs: seq<byte>): (s: string)
  {
    if bs == [] then "" else "0x" + HexText.Format(bs[0], 2) + SpacedBytes(bs[1..])
  }

  function SpacedBytes(bs: seq<byte>): (s: string)
  {
    if bs == [] then "" else " " + HexText.Format(bs[0], 2) + SpacedBytes(bs[1..])
  }

  lemma {:induction false} RemoveSpacesAppend(a: string, b: string)
    ensures RemoveSpaces(a + b) == RemoveSpaces(a) + RemoveSpaces(b)
  {
    if a == "" {
      assert a + b == b;
    } else {
      assert (a + b)[1..] == a[1..] + b;
      RemoveSpacesAppend(a[1..], b);
    }
  }

  lemma {:induction false} RemoveSpacesPlain(s: string)
    requires ' ' !in s
    ensures RemoveSpaces(s) == s
  {
    if s != "" {
      RemoveSpacesPlain(s[1..]);
    }
  }

  lemma {:induction false} RemovePrefixesPlain(s: string)
    requires 'x' !in s
    ensures RemovePrefixes(s) == s
  {
    if s != "" {
      assert |s| >= 2 ==> s[1] in s;
      RemovePrefixesPlain(s[1..]);
    }
  }

  lemma FormatPlain(b: byte)
    ensures ' ' !in HexText.Format(b, 2)
  {
    HexText.FormatByte(b);
  }

  lemma {:induction false} SpacedBytesUnspaced(bs: seq<byte>)
    ensures RemoveSpaces(SpacedBytes(bs)) == HexText.OfBytes(bs)
  {
    if bs != [] {
      hide HexText.Format;
      var b, rest := HexText.Format(bs[0], 2), SpacedBytes(bs[1..]);
      SpacedBytesUnspaced(bs[1..]);
      FormatPlain(bs[0]);
      RemoveSpacesPlain(b);
      assert RemoveSpaces(" ") == "";
      RemoveSpacesAppend(" " + b, rest);
      RemoveSpacesAppend(" ", b);
    }
  }

  lemma KeyTextUnspaced(bs: seq<byte>)
    requires bs != []
    ensures RemoveSpaces(BytesToHex(bs)) == "0x" + HexText.OfBytes(bs)
  {
    hide HexText.Format;
    var b, rest := HexText.Format(bs[0], 2), SpacedBytes(bs[1..]);
    FormatPlain(bs[0]);
    RemoveSpacesPlain("0x" + b);
    RemoveSpacesAppend("0x" + b, rest);
    SpacedBytesUnspaced(bs[1..]);
    Assoc("0x", b, HexText.OfBytes(bs[1..]));
  }

  /** The key text one tool prints is parsed by the other to the same bytes: dropping the spaces
      and the prefix never drops a digit. */
  lemma KeyTextRoundTrip(bs: seq<byte>)
    ensures ParseTokenValue(BytesToHex(bs), "hex") == Some(bs)
  {
    if bs != [] {
      var digits := HexText.OfBytes(bs);
      KeyTextUnspaced(bs);
      HexText.OfBytesDigits(bs);
      RemovePrefixesPlain(digits);
      assert ("0x" + digits)[2..] == digits;
      HexText.BytesRoundTrip(bs);
    }
  }

  /** A prefix stands at place `i` of the text. */
  predicate PrefixAt(s: string, i: nat) {
    i + 1 < |s| && s[i] == '0' && s[i + 1] == 'x'
  }

  lemma {:induction false} RemovePrefixesShortens(s: string)
    ensures |RemovePrefixes(s)| <= |s|
  {
    if s == "" {
    } else if PrefixAt(s, 0) {
      RemovePrefixesShortens(s[2..]);
    } else {
      RemovePrefixesShortens(s[1..]);
    }
  }

  /** The stripping leaves a text alone exactly when no zero in it stands before an `x`. */
  lemma {:induction false} StrippedExactly(s: string)
    ensures RemovePrefixes(s) == s <==> forall i: nat :: !PrefixAt(s, i)
  {
    if s == "" {
    } else if PrefixAt(s, 0) {
      RemovePrefixesShortens(s[2..]);
    } else {
      StrippedExactly(s[1..]);
      assert forall i: nat :: PrefixAt(s[1..], i) <==> PrefixAt(s, i + 1);
      assert forall i: nat :: PrefixAt(s, i) ==> i > 0 && PrefixAt(s[1..], i - 1);
      assert RemovePrefixes(s) == s <==> RemovePrefixes(s[1..]) == s[1..];
    }
  }

  /** What dropping spaces and prefixes is meant to do to a value: each word, a stretch between spaces,
      may carry one prefix in front.  `front` says that a word starts here. */
  function WordDigits(value: string, front: bool): (digits: string)
  {
    if value == "" then ""
    else if value[0] == ' ' then WordDigits(value[1..], true)
    else if front && PrefixAt(value, 0) then WordDigits(value[2..], false)
    else [value[0]] + WordDigits(value[1..], false)
  }

  /** A zero at `i` stands before an x at `j`, next to it or across spaces, and the two are not the
      prefix of a word. */
  predicate StrayPrefix(value: string, front: bool, i: nat, j: nat) {
    && i < j < |value| && value[i] == '0' && value[j] == 'x'
    && (forall k :: i < k < j ==> value[k] == ' ')
    && !(j == i + 1 && (if i == 0 then front else value[i - 1] == ' '))
  }

  ghost predicate OnlyWordPrefixes(value: string, front: bool) {
    forall i: nat, j: nat :: !StrayPrefix(value, front, i, j)
  }

  lemma OnlyWordPrefixesBehind(value: string, front: bool)
    requires value != "" && forall j: nat :: !StrayPrefix(value, front, 0, j)
    ensures OnlyWordPrefixes(value, front) <==> OnlyWordPrefixes(value[1..], value[0] == ' ')
  {
    var rest, f := value[1..], value[0] == ' ';
    forall i: nat, j: nat
      ensures StrayPrefix(value, front, i + 1, j + 1) <==> StrayPrefix(rest, f, i, j)
    {
      assert forall k :: 0 <= k < |rest| ==> rest[k] == value[k + 1];
      if StrayPrefix(rest, f, i, j) {
        assert forall k :: i + 1 < k < j + 1 ==> value[k] == rest[k - 1];
      }
    }
    if !OnlyWordPrefixes(value, front) {
      var i: nat, j: nat :| StrayPrefix(value, front, i, j);
      assert i > 0 && StrayPrefix(rest, f, i - 1, j - 1);
    }
  }

  /** Where the first character that is not a space stands. */
  lemma {:induction false} FirstUnspaced(s: string) returns (at: nat)
    requires RemoveSpaces(s) != ""
    ensures at < |s| && s[at] == RemoveSpaces(s)[0] && forall k :: 0 <= k < at ==> s[k] == ' '
    ensures s[at] != ' '
  {
    if s[0] != ' ' {
      at := 0;
    } else {
      var behind := FirstUnspaced(s[1..]);
      at := behind + 1;
    }
  }

  lemma {:induction false} UnspacedAt(s: string, at: nat)
    requires at < |s| && s[at] != ' ' && forall k :: 0 <= k < at ==> s[k] == ' '
    ensures RemoveSpaces(s) != "" && RemoveSpaces(s)[0] == s[at]
  {
    if at > 0 {
      UnspacedAt(s[1..], at - 1);
    }
  }

  lemma NothingInFront(value: string, front: bool)
    requires value != "" && (value[0] == '0' ==> RemoveSpaces(value[1..]) == "" || RemoveSpaces(value[1..])[0] != 'x')
    ensures forall j: nat :: !StrayPrefix(value, front, 0, j)
  {
    forall j: nat
      ensures !StrayPrefix(value, front, 0, j)
    {
      if StrayPrefix(value, front, 0, j) {
        assert value[1..][j - 1] == value[j];
        UnspacedAt(value[1..], j - 1);
      }
    }
  }

  lemma KeptInFront(value: string)
    requires value != "" && value[0] != ' '
    requires value[0] == '0' ==> RemoveSpaces(value[1..]) == "" || RemoveSpaces(value[1..])[0] != 'x'
    ensures var left := RemovePrefixes(RemoveSpaces(value));
            left != "" && left[0] == value[0] && left[1..] == RemovePrefixes(RemoveSpaces(value[1..]))
  {
    assert RemoveSpaces(value)[1..] == RemoveSpaces(value[1..]);
  }

  lemma NothingStray(front: bool)
    ensures OnlyWordPrefixes("", front)
  {
  }

  lemma StrayAt(value: string, front: bool, j: nat)
    requires 0 < j < |value| && value[0] == '0' && value[j] == 'x' && !(front && PrefixAt(value, 0))
    requires forall k :: 0 <= k < j - 1 ==> value[1..][k] == ' '
    ensures !OnlyWordPrefixes(value, front)
  {
    assert forall k :: 0 < k < j ==> value[k] == value[1..][k - 1];
    assert StrayPrefix(value, front, 0, j);
  }

  lemma FrontPrefix(value: string)
    requires PrefixAt(value, 0)
    ensures RemovePrefixes(RemoveSpaces(value)) == RemovePrefixes(RemoveSpaces(value[2..]))
    ensures OnlyWordPrefixes(value, true) <==> OnlyWordPrefixes(value[2..], false)
  {
    var rest := value[1..];
    assert RemoveSpaces(value) == "0x" + RemoveSpaces(value[2..]) by {
      RemoveSpacesPlain("0x");
      RemoveSpacesAppend("0x", value[2..]);
      assert value == "0x" + value[2..];
    }
    assert RemoveSpaces(value)[2..] == RemoveSpaces(value[2..]);
    assert rest[1..] == value[2..];
    OnlyWordPrefixesBehind(value, true);
    NothingInFront(rest, false);
    OnlyWordPrefixesBehind(rest, false);
  }

  lemma {:induction false} DigitsExact(value: string, front: bool)
    ensures |RemovePrefixes(RemoveSpaces(value))| <= |WordDigits(value, front)|
    ensures RemovePrefixes(RemoveSpaces(value)) == WordDigits(value, front) <==> OnlyWordPrefixes(value, front)
    decreases |value|
  {
    hide OnlyWordPrefixes, StrayPrefix;
    if value == "" {
      NothingStray(front);
    } else if value[0] == ' ' {
      DigitsExact(value[1..], true);
      NothingInFront(value, front);
      OnlyWordPrefixesBehind(value, front);
    } else if front && PrefixAt(value, 0) {
      DigitsExact(value[2..], false);
      FrontPrefix(value);
    } else {
      var rest := value[1..];
      DigitsExact(rest, false);
      if value[0] == '0' && RemoveSpaces(rest) != "" && RemoveSpaces(rest)[0] == 'x' {
        var at := FirstUnspaced(rest);
        StrayAt(value, front, at + 1);
        assert RemoveSpaces(value)[2..] == RemoveSpaces(rest)[1..];
      } else {
        KeptInFront(value);
        assert WordDigits(value, front)[1..] == WordDigits(rest, false);
        NothingInFront(value, front);
        OnlyWordPrefixesBehind(value, front);
      }
    }
  }

  /** The digits left of a value are those of its words, each less one prefix in front, exactly when no
      zero stands before an x elsewhere, be it across spaces. */
  lemma WordPrefixesExact(value: string)
    ensures RemovePrefixes(RemoveSpaces(value)) == WordDigits(value, true) <==> OnlyWordPrefixes(value, true)
  {
    DigitsExact(value, true);
  }

  /** Bytes printed as words, each with its own prefix. */
  function PrefixedBytes(bs: seq<byte>): (s: string)
  {
    if bs == [] then "" else "0x" + HexText.Format(bs[0], 2) + " " + PrefixedBytes(bs[1..])
  }

  lemma OneSpace(s: string)
    ensures RemoveSpaces(" " + s) == RemoveSpaces(s)
  {
    assert (" " + s)[1..] == s;
  }

  lemma OnePrefixed(b: string, rest: string)
    requires |b| == 2 && 'x' !in b && (rest != "" ==> rest[0] == '0')
    ensures RemovePrefixes("0x" + b + rest) == b + RemovePrefixes(rest)
  {
    var t, u := b + rest, [b[1]] + rest;
    assert b[0] in b && b[1] in b;
    assert ("0x" + b + rest)[2..] == t && t[1..] == u && u[1..] == rest;
    assert RemovePrefixes(u) == [b[1]] + RemovePrefixes(rest);
    assert RemovePrefixes(t) == [b[0]] + RemovePrefixes(u);
  }

  lemma {:induction false} PrefixedDigits(bs: seq<byte>)
    ensures RemovePrefixes(RemoveSpaces(PrefixedBytes(bs))) == HexText.OfBytes(bs)
    ensures RemoveSpaces(PrefixedBytes(bs)) != "" ==> RemoveSpaces(PrefixedBytes(bs))[0] == '0'
  {
    if bs != [] {
      hide HexText.Format, RemoveSpaces, RemovePrefixes;
      var b, rest := HexText.Format(bs[0], 2), PrefixedBytes(bs[1..]);
      PrefixedDigits(bs[1..]);
      FormatPlain(bs[0]);
      RemoveSpacesPlain("0x" + b);
      OneSpace(rest);
      RemoveSpacesAppend("0x" + b, " " + rest);
      assert "0x" + b + " " + rest == "0x" + b + (" " + rest);
      HexText.FormatByte(bs[0]);
      OnePrefixed(b, RemoveSpaces(rest));
    }
  }

  /** Such a text is parsed to the bytes. */
  lemma PrefixedRoundTrip(bs: seq<byte>)
    ensures ParseTokenValue(PrefixedBytes(bs), "hex") == Some(bs)
  {
    PrefixedDigits(bs);
    HexText.BytesRoundTrip(bs);
    hide PrefixedBytes, RemovePrefixes, RemoveSpaces, HexText.OfBytes, HexText.ToBytes;
  }

  lemma InnerPrefixDigits()
    ensures RemovePrefixes(RemoveSpaces("10x5")) == RemovePrefixes(RemoveSpaces("10 x5")) == "15"
  {
    assert "10x5"[1..] == "0x5" && "0x5"[2..] == "5" && "5"[1..] == "";
    assert RemovePrefixes("0x5") == "5";
    assert RemovePrefixes("10x5") == "15";
    RemoveSpacesPlain("10x5");
    RemoveSpacesPlain("10");
    RemoveSpacesPlain("x5");
    OneSpace("x5");
    RemoveSpacesAppend("10", " x5");
    assert "10 x5" == "10" + " x5";
  }

  lemma InnerPrefixWords()
    ensures WordDigits("10x5", true) == "10x5" && WordDigits("10 x5", true) == "10x5"
  {
    assert "10 x5"[1..] == "0 x5" && "0 x5"[1..] == " x5" && " x5"[1..] == "x5";
    assert "10x5"[1..] == "0x5" && "0x5"[1..] == "x5" && "x5"[1..] == "5" && "5"[1..] == "";
  }

  /** Values with a zero before an x inside a word, or across a space, are not refused but read as
      another one. */
  lemma InnerPrefixExample()
    ensures ParseTokenValue("10x5", "hex") == Some([0x15]) && ParseTokenValue("10 x5", "hex") == Some([0x15])
    ensures WordDigits("10x5", true) == "10x5" && WordDigits("10 x5", true) == "10x5"
  {
    InnerPrefixWords();
    InnerPrefixDigits();
    hide RemoveSpaces, RemovePrefixes, WordDigits;
    var bs: seq<byte> := [0x15];
    HexText.FormatByte(0x15);
    assert bs[1..] == [] && HexText.OfBytes(bs) == "15";
    HexText.BytesRoundTrip(bs);
  }

  // ---- other token texts ---------------------------------------------------------------------

  /** An ASCII token has one byte for each character, its code, and is refused exactly when some
      character is not ASCII. */
  lemma {:induction false} AsciiExact(s: string)
    ensures EncodeAscii(s).Some? <==> forall i :: 0 <= i < |s| ==> s[i] as int < 128
    ensures EncodeAscii(s).Some? ==>
              && |EncodeAscii(s).value| == |s|
              && forall i :: 0 <= i < |s| ==> EncodeAscii(s).value[i] == s[i] as int
  {
    if s != "" {
      AsciiExact(s[1..]);
      assert forall i :: 1 <= i < |s| ==> s[i] == s[1..][i - 1];
    }
  }

  function Decimal(n: nat): (s: string)
    ensures s != "" && forall c :: c in s ==> '0' <= c <= '9'
  {
    var last := [(48 + n % 10) as char];
    if n < 10 then last else Decimal(n / 10) + last
  }

  lemma {:induction false} DecimalParsed(n: nat)
    ensures DecimalValue(Decimal(n)) == Some(n)
  {
    var last := [(48 + n % 10) as char];
    if n < 10 {
      assert Decimal(n)[..|Decimal(n)| - 1] == "";
    } else {
      DecimalParsed(n / 10);
      assert Decimal(n)[..|Decimal(n)| - 1] == Decimal(n / 10);
    }
  }

  lemma {:induction false} TrimRightDone(s: string)
    requires s == "" || !HexText.IsSpace(s[|s| - 1])
    ensures HexText.TrimRight(s) == s
  {
  }

  /** A decimal number is one byte if it is at most 255 and refused otherwise. */
  lemma IntTokenExact(n: nat)
    ensures ParseTokenValue(Decimal(n), "int") == if n < 256 then Some([n]) else None
  {
    var s := Decimal(n);
    assert s[0] in s && s[|s| - 1] in s;
    DecimalParsed(n);
    TrimRightDone(s);
  }

  lemma SignParsed(sign: char, digits: string, n: nat)
    requires (sign == '-' || sign == '+') && DecimalValue(digits) == Some(n)
    requires digits != "" && !HexText.IsSpace(digits[|digits| - 1])
    ensures ParseInt([sign] + digits).Some?
    ensures ParseInt([sign] + digits).value == (if sign == '-' then -1 else 1) * n
  {
    var s := [sign] + digits;
    assert s[|s| - 1] == digits[|digits| - 1] && s[1..] == digits;
    TrimRightDone(s);
    hide HexText.TrimRight, DecimalValue;
  }

  /** A sign in front is read: with a minus only zero is left of the values that fit a byte. */
  lemma SignedIntToken(n: nat)
    ensures ParseTokenValue("-" + Decimal(n), "int") == if n == 0 then Some([0]) else None
    ensures ParseTokenValue("+" + Decimal(n), "int") == if n < 256 then Some([n]) else None
  {
    var s := Decimal(n);
    assert s[|s| - 1] in s;
    DecimalParsed(n);
    hide Decimal, DecimalValue, ParseInt;
    SignParsed('-', s, n);
    SignParsed('+', s, n);
  }

  /** An address or size printed with its prefix is read back. */
  lemma HexIntParsed(n: nat, width: nat)
    requires width > 0
    ensures ParseHexInt("0x" + HexText.Format(n, width)) == Some(n)
  {
    var s := "0x" + HexText.Format(n, width);
    HexText.ParseFormat(n, width);
    assert HexText.Format(n, width)[|HexText.Format(n, width)| - 1] == HexText.Digit(n % 16);
    assert s[|s| - 1] == HexText.Digit(n % 16);
    TrimRightDone(s);
    assert HexText.Strip(s) == s && s[2..] == HexText.Format(n, width);
  }

  /** The case of an address or size, its prefix included, does not matter. */
  lemma HexIntLower(s: string)
    ensures ParseHexInt(HexText.ToLower(s)) == ParseHexInt(s)
  {
    var t := HexText.Strip(s);
    HexText.StripLower(s);
    HexText.ParseLower(t);
    if |t| >= 2 {
      HexText.ParseLower(t[2..]);
      assert HexText.ToLower(t)[2..] == HexText.ToLower(t[2..]);
    }
  }

  lemma PrefixLower(digits: string)
    ensures HexText.ToLower("0x" + digits) == "0x" + HexText.ToLower(digits)
  {
  }

  /** So is one in lower case, as the token generator writes them. */
  lemma LowerHexIntParsed(n: nat, width: nat)
    requires width > 0
    ensures ParseHexInt("0x" + HexText.LowerFormat(n, width)) == Some(n)
  {
    hide ParseHexInt, HexText.Format, HexText.LowerFormat, HexText.ToLower;
    HexText.LowerFormatIs(n, width);
    HexIntParsed(n, width);
    HexIntLower("0x" + HexText.Format(n, width));
    PrefixLower(HexText.Format(n, width));
  }

  lemma HexDigitsExample()
    ensures HexText.DigitsValue("100fe02a") == Some(0x100fe02a)
  {
    assert "100fe02a"[..7] == "100fe02" && "100fe02"[..6] == "100fe0" && "100fe0"[..5] == "100fe";
    assert "100fe"[..4] == "100f" && "100f"[..3] == "100" && "100"[..2] == "10" && "10"[..1] == "1" && "1"[..0] == "";
    assert HexText.DigitsValue("100") == Some(0x100);
    assert HexText.DigitsValue("100fe") == Some(0x100fe);
    assert HexText.DigitsValue("100fe02") == Some(0x100fe02);
  }

  /** A token address of the T32CZ20B. */
  lemma TokenAddressExample()
    ensures ParseHexInt("0x100fe02a") == Some(0x100fe02a)
  {
    HexDigitsExample();
    TrimRightDone("0x100fe02a");
    assert "0x100fe02a"[2..] == "100fe02a";
  }

  lemma {:induction false} SpacesLower(s: string)
    ensures RemoveSpaces(HexText.ToLower(s)) == HexText.ToLower(RemoveSpaces(s))
  {
    if s != "" {
      assert HexText.ToLower(s)[1..] == HexText.ToLower(s[1..]);
      SpacesLower(s[1..]);
    }
  }

  lemma {:induction false} PrefixesLower(s: string)
    requires 'X' !in s
    ensures RemovePrefixes(HexText.ToLower(s)) == HexText.ToLower(RemovePrefixes(s))
  {
    if s != "" {
      assert HexText.ToLower(s)[1..] == HexText.ToLower(s[1..]);
      if PrefixAt(s, 0) {
        assert HexText.ToLower(s)[2..] == HexText.ToLower(s[2..]);
        PrefixesLower(s[2..]);
      } else {
        assert |s| >= 2 ==> s[1] in s;
        PrefixesLower(s[1..]);
      }
    }
  }

  lemma {:induction false} SpacesKeep(s: string, c: char)
    requires c != ' '
    ensures c in RemoveSpaces(s) <==> c in s
  {
    if s != "" {
      assert s == [s[0]] + s[1..];
      SpacesKeep(s[1..], c);
    }
  }

  lemma {:induction false} PrefixesKeep(s: string)
    ensures 'X' in RemovePrefixes(s) <==> 'X' in s
  {
    if s == "" {
    } else if PrefixAt(s, 0) {
      assert s == ['0', 'x'] + s[2..];
      PrefixesKeep(s[2..]);
    } else {
      assert s == [s[0]] + s[1..];
      PrefixesKeep(s[1..]);
    }
  }

  lemma {:induction false} NoDigitRefused(s: string)
    requires 'X' in s
    ensures HexText.ToBytes(s) == None
  {
    if |s| >= 2 && HexText.DigitValue(s[0]).Some? && HexText.DigitValue(s[1]).Some? {
      assert s == [s[0], s[1]] + s[2..];
      NoDigitRefused(s[2..]);
    }
  }

  /** A hex value may be in lower case, and a capital X in it is always refused. */
  lemma HexValueLower(value: string)
    ensures 'X' !in value ==> ParseTokenValue(HexText.ToLower(value), "hex") == ParseTokenValue(value, "hex")
    ensures 'X' in value ==> ParseTokenValue(value, "hex") == None
  {
    var digits := RemovePrefixes(RemoveSpaces(value));
    SpacesKeep(value, 'X');
    SpacesLower(value);
    HexText.ToBytesLower(digits);
    if 'X' in value {
      PrefixesKeep(RemoveSpaces(value));
      NoDigitRefused(digits);
    } else {
      PrefixesLower(RemoveSpaces(value));
    }
  }

  // ---- resolving tokens ----------------------------------------------------------------------

  /** The block a known token asks for, unless a text does not parse or the value is too long. */
  function Resolve(def: TokenDef, v: TokenValue): (b: Option<Block>)
  {
    var at :- ParseHexInt(def.address);
    var size :- ParseHexInt(def.size);
    var bytes :- ParseTokenValue(v.value, v.kind);
    if |bytes| > size then None else Some(Block(at, bytes))
  }

  /** A definition with address and size in hex, as the generator writes them, puts the value's bytes at
      the address, unless they are more than the size. */
  lemma DefinitionResolves(at: nat, w: nat, size: nat, w': nat, v: TokenValue, bytes: seq<byte>)
    requires w > 0 && w' > 0 && ParseTokenValue(v.value, v.kind) == Some(bytes)
    ensures Resolve(TokenDef("0x" + HexText.LowerFormat(at, w), "0x" + HexText.LowerFormat(size, w')), v)
         == if |bytes| <= size then Some(Block(at, bytes)) else None
  {
    LowerHexIntParsed(at, w);
    LowerHexIntParsed(size, w');
    hide ParseHexInt, HexText.LowerFormat, ParseTokenValue;
  }

  /** A value of a type that is none of the three is refused. */
  lemma OtherKindRefused(value: string, kind: string)
    requires kind !in {"hex", "int", "ascii"}
    ensures ParseTokenValue(value, kind) == None
  {
  }

  /** All the blocks in file order: unknown names are skipped, any error is final. */
  function ResolveAll(defs: map<string, TokenDef>, vs: seq<TokenValue>): (bs: Option<seq<Block>>)
  {
    if vs == [] then Some([])
    else
      var before :- ResolveAll(defs, vs[..|vs| - 1]);
      var v := vs[|vs| - 1];
      if v.name !in defs then Some(before)
      else
        var b :- Resolve(defs[v.name], v);
        Some(before + [b])
  }

  function PatchAll(file: Contents, tokens: seq<Block>): (r: Contents)
  {
    if tokens == [] then file
    else
      var last := tokens[|tokens| - 1];
      AddData(PatchAll(file, tokens[..|tokens| - 1]), last.at, last.bytes)
  }

  function Saved(file: Contents): (o: Outcome)
  {
    match SavedText(file) {
      case None => NothingWritten
      case Some(text) => Written(text)
    }
  }

  function Patched(text: string, tokens: seq<Block>): (o: Outcome)
  {
    Saved(PatchAll(LoadText(EMPTY, text), tokens))
  }

  lemma {:induction false} ResolveFails(defs: map<string, TokenDef>, vs: seq<TokenValue>, i: nat)
    requires i < |vs| && vs[i].name in defs && Resolve(defs[vs[i].name], vs[i]) == None
    ensures ResolveAll(defs, vs) == None
  {
    if i < |vs| - 1 {
      ResolveFails(defs, vs[..|vs| - 1], i);
    }
  }

  lemma ResolveNext(defs: map<string, TokenDef>, vs: seq<TokenValue>, i: nat)
    requires i < |vs| && ResolveAll(defs, vs[..i]).Some?
    ensures ResolveAll(defs, vs[..i + 1])
         == var tokens, v := ResolveAll(defs, vs[..i]).value, vs[i];
            if v.name !in defs then Some(tokens)
            else match Resolve(defs[v.name], v) { case None => None case Some(b) => Some(tokens + [b]) }
  {
    assert vs[..i + 1][..i] == vs[..i];
  }

  /** A run is rejected exactly when some token that is defined does not resolve. */
  lemma {:induction false} RejectedExactly(defs: map<string, TokenDef>, vs: seq<TokenValue>)
    ensures ResolveAll(defs, vs) == None
       <==> exists i :: 0 <= i < |vs| && vs[i].name in defs && Resolve(defs[vs[i].name], vs[i]) == None
  {
    if i :| 0 <= i < |vs| && vs[i].name in defs && Resolve(defs[vs[i].name], vs[i]) == None {
      ResolveFails(defs, vs, i);
    } else if vs != [] {
      var before := vs[..|vs| - 1];
      assert forall i :: 0 <= i < |before| ==> before[i] == vs[i];
      RejectedExactly(defs, before);
    }
  }

  /** The values that have a definition, in file order. */
  function Defined(defs: map<string, TokenDef>, vs: seq<TokenValue>): (r: seq<TokenValue>)
    ensures forall v :: v in r <==> v in vs && v.name in defs
  {
    if vs == [] then []
    else
      var before, v := Defined(defs, vs[..|vs| - 1]), vs[|vs| - 1];
      assert vs == vs[..|vs| - 1] + [v];
      if v.name in defs then before + [v] else before
  }

  /** Each of them gives one block, its own, in the same order. */
  lemma {:induction false} ResolvedInOrder(defs: map<string, TokenDef>, vs: seq<TokenValue>)
    requires ResolveAll(defs, vs).Some?
    ensures var tokens, known := ResolveAll(defs, vs).value, Defined(defs, vs);
            && |tokens| == |known|
            && forall i :: 0 <= i < |known| ==> Resolve(defs[known[i].name], known[i]) == Some(tokens[i])
  {
    if vs != [] {
      hide Resolve;
      ResolvedInOrder(defs, vs[..|vs| - 1]);
    }
  }

  /** A run that resolves every token is not rejected, and one that patches anything writes a file. */
  lemma PatchedWrites(text: string, defs: map<string, TokenDef>, vs: seq<TokenValue>)
    ensures ResolveAll(defs, vs).Some? ==> Patched(text, ResolveAll(defs, vs).value) != Rejected
    ensures ResolveAll(defs, vs).Some? && ResolveAll(defs, vs).value != [] ==>
              Patched(text, ResolveAll(defs, vs).value).Written?
  {
    hide ResolveAll, LoadText;
    if ResolveAll(defs, vs).Some? && ResolveAll(defs, vs).value != [] {
      var tokens := ResolveAll(defs, vs).value;
      PatchHasBlock(LoadText(EMPTY, text), tokens);
    }
  }

  lemma PatchHasBlock(file: Contents, tokens: seq<Block>)
    requires tokens != []
    ensures PatchAll(file, tokens).blocks != map[] && SavedText(PatchAll(file, tokens)).Some?
  {
    var last := tokens[|tokens| - 1];
    assert last.at in PatchAll(file, tokens).blocks;
  }

  method PatchMultipleTokens(text: string, defs: map<string, TokenDef>, vs: seq<TokenValue>)
    returns (outcome: Outcome)
    ensures outcome == match ResolveAll(defs, vs) {
              case None => Rejected
              case Some(tokens) => Patched(text, tokens)
            }
    ensures outcome == Rejected <==>
              exists i :: 0 <= i < |vs| && vs[i].name in defs && Resolve(defs[vs[i].name], vs[i]) == None
    ensures outcome == NothingWritten ==> ResolveAll(defs, vs) == Some([])
  {
    RejectedExactly(defs, vs);
    PatchedWrites(text, defs, vs);
    hide Resolve, AddData, LoadText, SavedText;
    var file := new IntelHexFile();
    file.Load(text);
    ghost var loaded, tokens := file.Contents(), [];
    for i := 0 to |vs|
      invariant ResolveAll(defs, vs[..i]) == Some(tokens)
      invariant file.Contents() == PatchAll(loaded, tokens)
    {
      var v := vs[i];
      ResolveNext(defs, vs, i);
      if v.name in defs {
        var token := Resolve(defs[v.name], v);
        if token == None {
          ResolveFails(defs, vs, i);
          return Rejected;
        }
        file.AddDataAtAddress(token.value.at, token.value.bytes);
        PatchNext(loaded, tokens, token.value);
        tokens := tokens + [token.value];
      }
    }
    assert vs[..|vs|] == vs;
    var saved := file.Save();
    outcome := if saved == None then NothingWritten else Written(saved.value);
  }

  lemma PatchNext(file: Contents, tokens: seq<Block>, b: Block)
    ensures PatchAll(file, tokens + [b]) == AddData(PatchAll(file, tokens), b.at, b.bytes)
  {
    assert (tokens + [b])[..|tokens + [b]| - 1] == tokens;
  }

  /** The single patch, with the size check that applies when the address came from a token. */
  method PatchHexFile(text: string, at: nat, bytes: seq<byte>, size: Option<nat>) returns (outcome: Outcome)
    ensures outcome == if size.Some? && |bytes| > size.value then Rejected
                       else Patched(text, [Block(at, bytes)])
    ensures outcome.Written? <==> !(size.Some? && |bytes| > size.value)
  {
    PatchHasBlock(LoadText(EMPTY, text), [Block(at, bytes)]);
    PatchNext(LoadText(EMPTY, text), [], Block(at, bytes));
    hide AddData, LoadText, SavedText;
    var file := new IntelHexFile();
    file.Load(text);
    if size.Some? && |bytes| > size.value {
      return Rejected;
    }
    file.AddDataAtAddress(at, bytes);
    var saved := file.Save();
    outcome := if saved == None then NothingWritten else Written(saved.value);
  }

  // ---- the patched image ---------------------------------------------------------------------

  /** Token ranges that share no address and no start. */
  predicate Apart(tokens: seq<Block>) {
    forall i, j :: 0 <= i < j < |tokens| ==>
      && tokens[i].at != tokens[j].at
      && (tokens[i].End() <= tokens[j].at || tokens[j].End() <= tokens[i].at)
  }

  lemma WrittenOver(a: map<nat, byte>, b: map<nat, byte>, c: map<nat, byte>, last: Block, x: nat)
    requires At(a, x) == At(b + c, x)
    ensures At(Write(a, last.at, last.bytes), x) == At(b + Write(c, last.at, last.bytes), x)
  {
    hide Write;
    WriteAt(a, last.at, last.bytes, x);
    WriteAt(c, last.at, last.bytes, x);
  }

  lemma {:induction false} PatchAllBlocks(file: Contents, tokens: seq<Block>)
    ensures PatchAll(file, tokens).blocks == file.blocks + BlockMap(tokens)
  {
    if tokens == [] {
      assert file.blocks + map[] == file.blocks;
    } else {
      PatchAllBlocks(file, tokens[..|tokens| - 1]);
    }
  }

  lemma {:induction false} PatchAllData(file: Contents, tokens: seq<Block>, x: nat)
    ensures At(PatchAll(file, tokens).data, x) == At(file.data + Overlay(tokens), x)
  {
    hide Write, At;
    if tokens == [] {
      assert file.data + map[] == file.data;
    } else {
      var before, last := tokens[..|tokens| - 1], tokens[|tokens| - 1];
      PatchAllData(file, before, x);
      WrittenOver(PatchAll(file, before).data, file.data, Overlay(before), last, x);
    }
  }

  /** Patching puts the tokens over both views, a later token over an earlier one. */
  lemma PatchAllViews(file: Contents, tokens: seq<Block>)
    ensures PatchAll(file, tokens).blocks == file.blocks + BlockMap(tokens)
    ensures PatchAll(file, tokens).data == file.data + Overlay(tokens)
  {
    hide At, PatchAll, Overlay;
    PatchAllBlocks(file, tokens);
    forall x: nat
      ensures At(PatchAll(file, tokens).data, x) == At(file.data + Overlay(tokens), x)
    {
      PatchAllData(file, tokens, x);
    }
    SameView(PatchAll(file, tokens).data, file.data + Overlay(tokens));
  }

  lemma ApartDisjoint(tokens: seq<Block>)
    requires Apart(tokens)
    ensures Disjoint(BlockMap(tokens))
  {
    hide BlockMap;
    var over := BlockMap(tokens);
    forall s, t | s in over && t in over && s < t
      ensures s + |over[s]| <= t
    {
      var i := SurvivorOf(tokens, s);
      var j := SurvivorOf(tokens, t);
    }
  }

  /** The byte a disjoint token list asks for, if any token covers the address. */
  lemma ApartAt(tokens: seq<Block>, i: nat, x: nat)
    requires Apart(tokens) && i < |tokens| && tokens[i].Covers(x)
    ensures At(Overlay(tokens), x) == Some(tokens[i].bytes[x - tokens[i].at])
    ensures At(Flatten(BlockMap(tokens)), x) == Some(tokens[i].bytes[x - tokens[i].at])
  {
    hide At, Flatten, Overlay;
    OverlayLast(tokens, x, i);
    SurvivorIn(tokens, i);
    ApartDisjoint(tokens);
    assert Holds(BlockMap(tokens), tokens[i].at, x);
    FlattenDisjoint(BlockMap(tokens), tokens[i].at, x);
  }

  lemma ApartFlatten(tokens: seq<Block>)
    requires Apart(tokens)
    ensures Flatten(BlockMap(tokens)) == Overlay(tokens)
  {
    hide Flatten, Overlay, At;
    var over := BlockMap(tokens);
    forall x: nat
      ensures At(Flatten(over), x) == At(Overlay(tokens), x)
    {
      if i :| 0 <= i < |tokens| && tokens[i].Covers(x) {
        ApartAt(tokens, i, x);
      } else {
        NotCovered(tokens, x);
      }
    }
    SameView(Flatten(over), Overlay(tokens));
  }

  lemma NotCovered(tokens: seq<Block>, x: nat)
    requires Apart(tokens) && forall i :: 0 <= i < |tokens| ==> !tokens[i].Covers(x)
    ensures At(Overlay(tokens), x) == None && At(Flatten(BlockMap(tokens)), x) == None
  {
    hide Flatten, Overlay;
    if At(Overlay(tokens), x).Some? {
      var i := OverlayFrom(tokens, x);
      assert false;
    }
    FlattenDomain(BlockMap(tokens), x);
    forall s: nat
      ensures !Holds(BlockMap(tokens), s, x)
    {
      if Holds(BlockMap(tokens), s, x) {
        var i := SurvivorOf(tokens, s);
      }
    }
  }

  /** End to end: for a coherent file and disjoint tokens, with every block of the result in its
      page, loading the patched output gives the token bytes over the original image exactly when
      the block maps conserve it. */
  lemma PatchedLoadsExactly(file: Contents, tokens: seq<Block>)
    requires Coherent(file.data, file.blocks) && Apart(tokens) && tokens != []
    requires BlocksInPage(file.blocks + BlockMap(tokens))
    ensures Saved(PatchAll(file, tokens)).Written?
    ensures LoadText(EMPTY, Saved(PatchAll(file, tokens)).text).data == file.data + Overlay(tokens)
       <==> Conserves(file.blocks, BlockMap(tokens))
  {
    hide Flatten, LoadText, SavedText, BlocksInPage, Overlay;
    var over := BlockMap(tokens);
    PatchAllViews(file, tokens);
    SurvivorIn(tokens, 0);
    ApartDisjoint(tokens);
    ApartFlatten(tokens);
    assert tokens[0].at in PatchAll(file, tokens).blocks;
    LoadSavedInPage(PatchAll(file, tokens), tokens[0].at);
    MergeExact(file.blocks, over);
  }

  /** The patched file's views as one storing after the other: the file's blocks, then the tokens. */
  lemma PatchAllStores(file: Contents, tokens: seq<Block>)
    requires file.data == Flatten(file.blocks)
    ensures PatchAll(file, tokens).data == Overlay(Items(file.blocks) + tokens)
    ensures PatchAll(file, tokens).blocks == BlockMap(Items(file.blocks) + tokens)
  {
    hide Items, Overlay, BlockMap;
    FlattenItems(file.blocks);
    PatchOver(file, Items(file.blocks), tokens);
  }

  lemma ItemsKeep(blocks: map<nat, seq<byte>>, s: nat)
    ensures s in BlockMap(Items(blocks)) <==> s in blocks
    ensures s in blocks ==> BlockMap(Items(blocks))[s] == blocks[s]
  {
    hide Items, BlockMap;
    var items := Items(blocks);
    ItemsAscend(blocks);
    if s in blocks {
      var i :| 0 <= i < |items| && items[i] == Block(s, blocks[s]);
      SurvivorIn(items, i);
    }
    if s in BlockMap(items) {
      var i := SurvivorOf(items, s);
    }
  }

  lemma FlattenItems(blocks: map<nat, seq<byte>>)
    ensures Flatten(blocks) == Overlay(Items(blocks)) && BlockMap(Items(blocks)) == blocks
  {
    hide Items, BlockMap;
    forall s: nat
      ensures s in BlockMap(Items(blocks)) <==> s in blocks
      ensures s in blocks ==> BlockMap(Items(blocks))[s] == blocks[s]
    {
      ItemsKeep(blocks, s);
    }
  }

  lemma {:induction false} PatchOver(file: Contents, stored: seq<Block>, tokens: seq<Block>)
    requires file.data == Overlay(stored) && file.blocks == BlockMap(stored)
    ensures PatchAll(file, tokens).data == Overlay(stored + tokens)
    ensures PatchAll(file, tokens).blocks == BlockMap(stored + tokens)
  {
    if tokens == [] {
      assert stored + [] == stored;
    } else {
      hide Overlay, BlockMap, Write;
      var before, last := tokens[..|tokens| - 1], tokens[|tokens| - 1];
      PatchOver(file, stored, before);
      Assoc(stored, before, [last]);
      assert tokens == before + [last];
      OverlaySnoc(stored + before, last);
      BlockMapSnoc(stored + before, last);
    }
  }

  /** For any tokens, overlapping or not, over any file whose views agree, with every block of the
      result in its page: loading the patched output gives the token bytes over the original image, a
      later token winning, exactly when the tokens keep the order of the starts. */
  lemma PatchedLoadsAlways(file: Contents, tokens: seq<Block>)
    requires file.data == Flatten(file.blocks) && tokens != []
    requires BlocksInPage(file.blocks + BlockMap(tokens))
    ensures Saved(PatchAll(file, tokens)).Written?
    ensures LoadText(EMPTY, Saved(PatchAll(file, tokens)).text).data == file.data + Overlay(tokens)
       <==> OrderIsKept(Items(file.blocks) + tokens)
  {
    hide Flatten, LoadText, SavedText, BlocksInPage, Overlay, BlockMap, Items, PatchAll, OrderIsKept;
    PatchHasBlock(file, tokens);
    PatchAllViews(file, tokens);
    PatchAllStores(file, tokens);
    SaveLoadAgrees(PatchAll(file, tokens));
    ViewsAgreeExactly(Items(file.blocks) + tokens);
  }

  /** The condition a user can read off the definitions: each token keeps clear of every block or
      replaces one of exactly its start and length. */
  predicate Fits(blocks: map<nat, seq<byte>>, token: Block) {
    forall s :: s in blocks ==>
      || (s == token.at && |blocks[s]| == |token.bytes|)
      || s + |blocks[s]| <= token.at || token.End() <= s
  }

  lemma FittingConserves(blocks: map<nat, seq<byte>>, tokens: seq<Block>)
    requires Apart(tokens) && forall i :: 0 <= i < |tokens| ==> Fits(blocks, tokens[i])
    requires forall i :: 0 <= i < |tokens| ==> tokens[i].bytes != []
    ensures Conserves(blocks, BlockMap(tokens))
  {
    hide BlockMap;
    var over := BlockMap(tokens);
    forall x: nat
      ensures ConservesAt(blocks, over, x)
    {
      forall s: nat | Holds(blocks, s, x)
        ensures s in over ==> Holds(over, s, x)
        ensures forall t: nat :: Holds(over, t, x) ==> t == s
      {
        forall t: nat | t in over && (t == s || Holds(over, t, x))
          ensures t == s && |over[t]| == |blocks[s]|
        {
          var i := SurvivorOf(tokens, t);
          assert Fits(blocks, tokens[i]);
        }
      }
    }
  }

  /** Fitting tokens patch end to end: their bytes at their addresses, the original byte, or its
      absence, everywhere else. */
  lemma PatchedBytes(file: Contents, tokens: seq<Block>, x: nat)
    requires Coherent(file.data, file.blocks) && Apart(tokens) && tokens != []
    requires forall i :: 0 <= i < |tokens| ==> Fits(file.blocks, tokens[i])
    requires forall i :: 0 <= i < |tokens| ==> tokens[i].bytes != []
    requires BlocksInPage(file.blocks + BlockMap(tokens))
    ensures Saved(PatchAll(file, tokens)).Written?
    ensures var loaded := LoadText(EMPTY, Saved(PatchAll(file, tokens)).text).data;
            && (forall i :: 0 <= i < |tokens| && tokens[i].Covers(x) ==>
                  At(loaded, x) == Some(tokens[i].bytes[x - tokens[i].at]))
            && ((forall i :: 0 <= i < |tokens| ==> !tokens[i].Covers(x)) ==> At(loaded, x) == At(file.data, x))
  {
    hide LoadText, Saved, Overlay, Coherent, BlocksInPage, Fits;
    FittingConserves(file.blocks, tokens);
    PatchedLoadsExactly(file, tokens);
    if i :| 0 <= i < |tokens| && tokens[i].Covers(x) {
      forall j | 0 <= j < |tokens| && tokens[j].Covers(x)
        ensures At(file.data + Overlay(tokens), x) == Some(tokens[j].bytes[x - tokens[j].at])
      {
        ApartAt(tokens, j, x);
      }
    } else {
      NotCovered(tokens, x);
    }
  }
}
