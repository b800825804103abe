/** Numbers as digits and registry data as text: the conversions the file formats share. */
module ValueFormat {
  import opened Text

  datatype Option<+T> = None | Some(value: T)

  newtype uint32 = x: int | 0 <= x < 0x1_0000_0000
  newtype uint64 = x: int | 0 <= x < 0x1_0000_0000_0000_0000

  datatype RegistryValue = RegistryValue(name: wstring, kind: uint32, data: seq<byte>)

  const REG_NONE: uint32 := 0
  const REG_SZ: uint32 := 1
  const REG_EXPAND_SZ: uint32 := 2
  const REG_BINARY: uint32 := 3
  const REG_DWORD: uint32 := 4
  const REG_DWORD_BIG_ENDIAN: uint32 := 5
  const REG_LINK: uint32 := 6
  const REG_MULTI_SZ: uint32 := 7
  const REG_QWORD: uint32 := 11

  // ----- digits

  function LowerHexDigit(d: int): wchar
    requires 0 <= d < 16
  {
    if d < 10 then (0x30 + d) as wchar else (0x61 + d - 10) as wchar
  }

  function UpperHexDigit(d: int): wchar
    requires 0 <= d < 16
  {
    if d < 10 then (0x30 + d) as wchar else (0x41 + d - 10) as wchar
  }

  /** Value of a hexadecimal digit of either case, -1 for any other unit. */
  function HexDigitValue(c: wchar): (v: int)
    ensures -1 <= v < 16
  {
    if 0x30 <= c <= 0x39 then c as int - 0x30
    else if 0x61 <= c <= 0x66 then c as int - 0x61 + 10
    else if 0x41 <= c <= 0x46 then c as int - 0x41 + 10
    else -1
  }

  lemma HexDigitsRead(d: int)
    requires 0 <= d < 16
    ensures HexDigitValue(UpperHexDigit(d)) == d && HexDigitValue(LowerHexDigit(d)) == d
  {}

  predicate AllDigits(text: wstring) {
    forall i :: 0 <= i < |text| ==> IsDigit(text[i])
  }

  /** The number a digit string spells. */
  function DecimalValue(text: wstring): nat
    requires AllDigits(text)
  {
    if text == [] then 0 else DecimalValue(text[..|text| - 1]) * 10 + (text[|text| - 1] as int - 0x30)
  }

  /** std::to_wstring of an unsigned number. */
  function ToDecimal(n: nat): (text: wstring)
    ensures text != [] && AllDigits(text)
  {
    if n < 10 then [(0x30 + n) as wchar] else ToDecimal(n / 10) + [(0x30 + n % 10) as wchar]
  }

  /** std::to_wstring of a signed number. */
  function ToSigned(n: int): wstring {
    if n < 0 then [MINUS] + ToDecimal(-n) else ToDecimal(n)
  }

  lemma {:induction false} DecimalRoundTrip(n: nat)
    ensures DecimalValue(ToDecimal(n)) == n
  {
    if n >= 10 {
      DecimalRoundTrip(n / 10);
      var text := ToDecimal(n);
      assert text[..|text| - 1] == ToDecimal(n / 10);
    } else {
      assert ToDecimal(n)[..0] == [];
    }
  }

  // ----- bytes as hexadecimal text

  function HexPair(b: byte): wstring {
    [LowerHexDigit(b as int / 16), LowerHexDigit(b as int % 16)]
  }

  /** Bytes as digit pairs with a separator between them. */
  function ToHex(data: seq<byte>, separator: wstring): wstring {
    if data == [] then []
    else if |data| == 1 then HexPair(data[0])
    else HexPair(data[0]) + separator + ToHex(data[1..], separator)
  }

  predicate IsHexFiller(c: wchar) {
    c == SPACE || c == TAB || c == CR || c == LF || c == COMMA || c == SEMICOLON || c == MINUS
  }

  /** The byte reader: digits pair up, fillers are skipped and an `0x` prefix is forgotten.
      `high` is the pending digit or -1, `afterZero` says whether the previous unit was '0'. */
  function ParseHexRun(text: wstring, afterZero: bool, high: int, out: seq<byte>): Option<seq<byte>>
    requires -1 <= high < 16
    decreases |text|
  {
    if text == [] then if high < 0 then Some(out) else None
    else
      var c := text[0];
      var v := HexDigitValue(c);
      var zero := c == 0x30;
      if v < 0 then
        if IsHexFiller(c) then ParseHexRun(text[1..], zero, high, out)
        else if (c == 0x78 || c == 0x58) && high == 0 && afterZero then ParseHexRun(text[1..], zero, -1, out)
        else None
      else if high < 0 then ParseHexRun(text[1..], zero, v, out)
      else ParseHexRun(text[1..], zero, -1, out + [(high * 16 + v) as byte])
  }

  function ParseHex(text: wstring): Option<seq<byte>> {
    ParseHexRun(text, false, -1, [])
  }

  lemma HexPairParses(b: byte, rest: wstring, afterZero: bool, out: seq<byte>)
    ensures ParseHexRun(HexPair(b) + rest, afterZero, -1, out) == ParseHexRun(rest, b as int % 16 == 0, -1, out + [b])
  {
    var text := HexPair(b) + rest;
    assert text[1..] == [HexPair(b)[1]] + rest && text[1..][1..] == rest;
  }

  lemma {:induction false} FillersParse(fillers: wstring, rest: wstring, afterZero: bool, out: seq<byte>)
    requires forall i :: 0 <= i < |fillers| ==> IsHexFiller(fillers[i])
    ensures ParseHexRun(fillers + rest, afterZero, -1, out) == ParseHexRun(rest, fillers == [] && afterZero, -1, out)
    decreases |fillers|
  {
    if fillers == [] {
      assert fillers + rest == rest;
    } else {
      assert (fillers + rest)[1..] == fillers[1..] + rest;
      FillersParse(fillers[1..], rest, false, out);
    }
  }

  lemma EndOfHex(afterZero: bool, out: seq<byte>)
    ensures ParseHexRun([], afterZero, -1, out) == Some(out)
  {}

  /** Printed bytes read back, whatever filler separates them. */
  lemma {:induction false} HexRunRoundTrip(data: seq<byte>, separator: wstring, afterZero: bool, out: seq<byte>)
    requires forall i :: 0 <= i < |separator| ==> IsHexFiller(separator[i])
    ensures ParseHexRun(ToHex(data, separator), afterZero, -1, out) == Some(out + data)
    decreases |data|
  {
    hide ParseHexRun, HexPair, IsHexFiller;
    if data == [] {
      EndOfHex(afterZero, out);
      assert out + data == out;
    } else {
      var low := data[0] as int % 16 == 0;
      var rest := if |data| == 1 then [] else separator + ToHex(data[1..], separator);
      assert ToHex(data, separator) == HexPair(data[0]) + rest;
      HexPairParses(data[0], rest, afterZero, out);
      if |data| == 1 {
        EndOfHex(low, out + data);
        assert data == [data[0]];
      } else {
        FillersParse(separator, ToHex(data[1..], separator), low, out + [data[0]]);
        HexRunRoundTrip(data[1..], separator, separator == [] && low, out + [data[0]]);
        assert out + [data[0]] + data[1..] == out + data;
      }
    }
  }

  lemma HexRoundTrip(data: seq<byte>, separator: wstring)
    requires forall i :: 0 <= i < |separator| ==> IsHexFiller(separator[i])
    ensures ParseHex(ToHex(data, separator)) == Some(data)
  {
    HexRunRoundTrip(data, separator, false, []);
    assert [] + data == data;
  }

  // ----- numbers in hexadecimal

  /** `%x`: lower-case digits without leading zeros. */
  function HexText(n: nat): (text: wstring)
    ensures text != [] && AllHex(text)
  {
    if n < 16 then [LowerHexDigit(n)] else HexText(n / 16) + [LowerHexDigit(n % 16)]
  }

  /** `%0*x`: lower-case digits, zero-padded to `width`. */
  function PaddedHex(n: nat, width: nat): (text: wstring)
    ensures AllHex(text)
    ensures |text| == if |HexText(n)| < width then width else |HexText(n)|
  {
    var digits := HexText(n);
    if |digits| < width then seq(width - |digits|, _ => 0x30 as wchar) + digits else digits
  }

  predicate AllHex(text: wstring) {
    forall i :: 0 <= i < |text| ==> HexDigitValue(text[i]) >= 0
  }

  function HexValue(text: wstring): nat
    requires AllHex(text)
  {
    if text == [] then 0 else HexValue(text[..|text| - 1]) * 16 + HexDigitValue(text[|text| - 1])
  }

  lemma {:induction false} HexTextValue(n: nat)
    ensures HexValue(HexText(n)) == n
  {
    HexDigitsRead(n % 16);
    if n < 16 {
      HexDigitsRead(n);
      assert HexText(n)[..0] == [];
    } else {
      HexTextValue(n / 16);
      assert HexText(n)[..|HexText(n)| - 1] == HexText(n / 16);
    }
  }

  lemma {:induction false} ZerosAddNothing(zeros: wstring, digits: wstring)
    requires (forall i :: 0 <= i < |zeros| ==> zeros[i] == 0x30) && AllHex(digits)
    ensures AllHex(zeros + digits) && HexValue(zeros + digits) == HexValue(digits)
    decreases |zeros| + |digits|
  {
    var all := zeros + digits;
    if all != [] {
      var head := all[..|all| - 1];
      if digits == [] {
        assert head == zeros[..|zeros| - 1] + [];
        ZerosAddNothing(zeros[..|zeros| - 1], []);
      } else {
        assert head == zeros + digits[..|digits| - 1];
        ZerosAddNothing(zeros, digits[..|digits| - 1]);
      }
    }
  }

  lemma PaddedHexValue(n: nat, width: nat)
    ensures HexValue(PaddedHex(n, width)) == n
  {
    hide HexText, HexValue;
    HexTextValue(n);
    var digits := HexText(n);
    if |digits| < width {
      ZerosAddNothing(seq(width - |digits|, _ => 0x30 as wchar), digits);
    }
  }

  function Power16(k: nat): nat {
    if k == 0 then 1 else 16 * Power16(k - 1)
  }

  /** The C runtime's number reader on a text without its leading space and sign: the digits of the base
      from the front, after an optional 0x when the base is 16. */
  function DigitRun(text: wstring, base: nat): (n: nat)
    ensures n <= |text|
    ensures forall i :: 0 <= i < n ==> 0 <= HexDigitValue(text[i]) < base
    ensures n < |text| ==> !(0 <= HexDigitValue(text[n]) < base)
  {
    if text != [] && 0 <= HexDigitValue(text[0]) < base then DigitRun(text[1..], base) + 1 else 0
  }

  function RunValue(text: wstring, base: nat): nat
    requires base == 10 || base == 16
    requires forall i :: 0 <= i < |text| ==> 0 <= HexDigitValue(text[i]) < base
  {
    if text == [] then 0 else RunValue(text[..|text| - 1], base) * base + HexDigitValue(text[|text| - 1])
  }

  function SkipSpace(text: wstring): (n: nat)
    ensures n <= |text|
  {
    if text != [] && IsSpace(text[0]) then SkipSpace(text[1..]) + 1 else 0
  }

  /** wcstoull on a whole text: None unless it reads to the end (or to a NUL) without overflow. */
  function WcsToUll(text: wstring, base: nat): Option<uint64>
    requires base == 10 || base == 16
  {
    var terminator := Find(text, NUL, 0);
    var t := if terminator == -1 then text else text[..terminator];
    var space := SkipSpace(t);
    var sign := space < |t| && (t[space] == MINUS || t[space] == PLUS);
    var at := space + if sign then 1 else 0;
    var prefix := base == 16 && at + 2 < |t| && t[at] == 0x30 && (t[at + 1] == 0x78 || t[at + 1] == 0x58)
      && HexDigitValue(t[at + 2]) >= 0;
    var from := at + if prefix then 2 else 0;
    var n := DigitRun(t[from..], base);
    if n == 0 then if t == [] then Some(0) else None
    else if from + n < |t| then None
    else
      var v := RunValue(t[from..][..n], base);
      if v >= 0x1_0000_0000_0000_0000 then None
      else if sign && t[space] == MINUS && v > 0 then Some((0x1_0000_0000_0000_0000 - v) as uint64)
      else Some(v as uint64)
  }

  /** A number of base 10 or 16, or of base 16 behind a 0x of its own. */
  function ParseUnsignedNumber(text: wstring, base: nat): Option<uint64>
    requires base == 10 || base == 16
  {
    var digits := TrimWhitespace(text);
    if digits == [] || digits[0] == MINUS || digits[0] == PLUS then None
    else if |digits| > 2 && digits[0] == 0x30 && (digits[1] == 0x78 || digits[1] == 0x58) then WcsToUll(digits[2..], 16)
    else WcsToUll(digits, base)
  }

  lemma DigitsHaveNoGaps(text: wstring)
    requires text != [] && AllHex(text)
    ensures Find(text, NUL, 0) == -1 && SkipSpace(text) == 0 && DigitRun(text, 16) == |text|
    ensures text[0] != MINUS && text[0] != PLUS && IsTrimmed(text)
    ensures |text| > 1 ==> text[1] != 0x78 && text[1] != 0x58
  {
    assert HexDigitValue(text[0]) >= 0 && HexDigitValue(text[|text| - 1]) >= 0;
    if |text| > 1 { assert HexDigitValue(text[1]) >= 0; }
  }

  lemma {:induction false} RunIsHexValue(text: wstring)
    requires AllHex(text)
    ensures RunValue(text, 16) == HexValue(text)
    decreases |text|
  {
    if text != [] { RunIsHexValue(text[..|text| - 1]); }
  }

  lemma HexDigitsParse(text: wstring)
    requires text != [] && AllHex(text) && HexValue(text) < 0x1_0000_0000_0000_0000
    ensures WcsToUll(text, 16) == Some(HexValue(text) as uint64)
  {
    hide *;
    DigitsHaveNoGaps(text);
    RunIsHexValue(text);
    WholeRun(text);
  }

  /** A text that is one run of digits. */
  lemma WholeRun(text: wstring)
    requires text != [] && Find(text, NUL, 0) == -1 && SkipSpace(text) == 0 && DigitRun(text, 16) == |text|
    requires text[0] != MINUS && text[0] != PLUS && (|text| > 1 ==> text[1] != 0x78 && text[1] != 0x58)
    ensures RunValue(text, 16) < 0x1_0000_0000_0000_0000 ==> WcsToUll(text, 16) == Some(RunValue(text, 16) as uint64)
  {
    hide RunValue, DigitRun, SkipSpace, Find, HexDigitValue;
    assert text[0..] == text && text[..|text|] == text;
  }

  lemma UnfoldNumber(digits: wstring, base: nat)
    requires base == 10 || base == 16
    requires IsTrimmed(digits) && digits != [] && digits[0] != MINUS && digits[0] != PLUS
    ensures ParseUnsignedNumber(digits, base) ==
              if |digits| > 2 && digits[0] == 0x30
                && (digits[1] == 0x78 || digits[1] == 0x58) then WcsToUll(digits[2..], 16)
              else WcsToUll(digits, base)
  {
    TrimmedIsUnchanged(digits);
    hide WcsToUll, TrimWhitespace;
  }

  lemma HexNumberParses(text: wstring)
    requires text != [] && AllHex(text) && HexValue(text) < 0x1_0000_0000_0000_0000
    ensures ParseUnsignedNumber(text, 16) == Some(HexValue(text) as uint64)
  {
    hide *;
    HexDigitsParse(text);
    DigitsHaveNoGaps(text);
    UnfoldNumber(text, 16);
  }

  lemma PrefixedFacts(text: wstring)
    requires text != [] && AllHex(text)
    ensures IsTrimmed([0x30, 0x78] + text) && ([0x30, 0x78] + text)[2..] == text
  {
    assert HexDigitValue(text[|text| - 1]) >= 0;
  }

  lemma PrefixedHexParses(text: wstring, base: nat)
    requires text != [] && AllHex(text) && HexValue(text) < 0x1_0000_0000_0000_0000
    requires base == 10 || base == 16
    ensures ParseUnsignedNumber([0x30, 0x78] + text, base) == Some(HexValue(text) as uint64)
  {
    hide *;
    HexDigitsParse(text);
    PrefixedFacts(text);
    PrefixIsNoSign();
    UnfoldNumber([0x30, 0x78] + text, base);
  }

  lemma PrefixIsNoSign()
    ensures MINUS != 0x30 && PLUS != 0x30
  {}

  // ----- data

  /** Little-endian number in the first `width` bytes. */
  function ReadUnsigned(data: seq<byte>, width: nat): (n: nat)
    requires width <= |data|
  {
    if width == 0 then 0 else data[0] as nat + 256 * ReadUnsigned(data[1..], width - 1)
  }

  function UnsignedBytes(n: nat, width: nat): (data: seq<byte>)
    ensures |data| == width
  {
    if width == 0 then [] else [(n % 256) as byte] + UnsignedBytes(n / 256, width - 1)
  }

  lemma {:induction false} BytesOfNumber(data: seq<byte>)
    ensures UnsignedBytes(ReadUnsigned(data, |data|), |data|) == data
    ensures ReadUnsigned(data, |data|) < Power16(2 * |data|)
  {
    if data != [] {
      BytesOfNumber(data[1..]);
      assert Power16(2 * |data|) == 16 * (16 * Power16(2 * |data[1..]|));
    }
  }

  /** UTF-16 text as little-endian bytes with a terminating NUL. */
  function StringData(text: wstring): (data: seq<byte>)
    ensures |data| == 2 * |text| + 2
  {
    if text == [] then [0, 0]
    else [(text[0] as int % 256) as byte, (text[0] as int / 256) as byte] + StringData(text[1..])
  }

  function Units(data: seq<byte>): (text: wstring)
    requires |data| % 2 == 0
    ensures 2 * |text| == |data|
  {
    if data == [] then [] else [(data[0] as int + 256 * data[1] as int) as wchar] + Units(data[2..])
  }

  function DropTrailingNuls(text: wstring): (r: wstring)
    ensures r <= text
  {
    if text != [] && text[|text| - 1] == NUL then DropTrailingNuls(text[..|text| - 1]) else text
  }

  function DecodeString(data: seq<byte>): Option<wstring> {
    if |data| % 2 != 0 then None
    else
      var text := DropTrailingNuls(Units(data));
      if NUL in text then None else Some(text)
  }
}
