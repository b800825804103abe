/** The pieces of a .reg line: quoted names, the assignment sign, and the data of a value. */
module RegSyntax {
  import opened Text
  import opened ValueFormat

  // ----- quoted text

  function Escape(text: wstring): wstring {
    if text == [] then []
    else (if text[0] == BACKSLASH || text[0] == DQUOTE then [BACKSLASH, text[0]] else [text[0]]) + Escape(text[1..])
  }

  method EscapeText(text: wstring) returns (output: wstring)
    ensures output == Escape(text)
  {
    output := [];
    for i := 0 to |text|
      invariant output + Escape(text[i..]) == Escape(text)
    {
      assert text[i..][0] == text[i] && text[i..][1..] == text[i + 1..];
      ghost var before := output;
      if text[i] == BACKSLASH || text[i] == DQUOTE {
        output := output + [BACKSLASH];
      }
      output := output + [text[i]];
      EscapeStep(before, text[i], Escape(text[i + 1..]));
    }
    assert output + Escape(text[|text|..]) == output;
  }

  lemma EscapeStep(out: wstring, c: wchar, rest: wstring)
    ensures ((out + [BACKSLASH]) + [c]) + rest == out + ([BACKSLASH, c] + rest)
    ensures (out + [c]) + rest == out + ([c] + rest)
  {}

  function Unescaped(letter: wchar): wchar {
    if letter == 0x6E then LF
    else if letter == 0x72 then CR else if letter == 0x74 then TAB else if letter == 0x30 then NUL else letter
  }

  predicate IsBlankUnit(c: wchar) {
    c == SPACE || c == TAB
  }

  predicate AllBlank(text: wstring) {
    forall i :: 0 <= i < |text| ==> IsBlankUnit(text[i])
  }

  /** Reads behind the opening quote; only blanks may follow the closing one. */
  function QuotedRest(text: wstring, escaped: bool, out: wstring): Option<wstring>
    decreases |text|
  {
    if text == [] then None
    else if escaped then QuotedRest(text[1..], false, out + [Unescaped(text[0])])
    else if text[0] == BACKSLASH then QuotedRest(text[1..], true, out)
    else if text[0] == DQUOTE then if AllBlank(text[1..]) then Some(out) else None
    else QuotedRest(text[1..], false, out + [text[0]])
  }

  function Quoted(text: wstring): Option<wstring> {
    if text == [] || text[0] != DQUOTE then None else QuotedRest(text[1..], false, [])
  }

  method ParseQuoted(text: wstring) returns (output: Option<wstring>)
    ensures output == Quoted(text)
  {
    if text == [] || text[0] != DQUOTE {
      return None;
    }
    var out: wstring := [];
    var escaped := false;
    for index := 1 to |text|
      invariant QuotedRest(text[index..], escaped, out) == Quoted(text)
    {
      var character := text[index];
      assert text[index..][0] == character && text[index..][1..] == text[index + 1..];
      if escaped {
        out := out + [Unescaped(character)];
        escaped := false;
      } else if character == BACKSLASH {
        escaped := true;
      } else if character == DQUOTE {
        for rest := index + 1 to |text|
          invariant forall k :: index + 1 <= k < rest ==> IsBlankUnit(text[k])
        {
          if text[rest] != SPACE && text[rest] != TAB {
            assert !IsBlankUnit(text[index + 1..][rest - index - 1]);
            return None;
          }
        }
        return Some(out);
      } else {
        out := out + [character];
      }
    }
    return None;
  }

  lemma {:induction false} QuotedRestOfEscape(text: wstring, out: wstring)
    ensures QuotedRest(Escape(text) + [DQUOTE], false, out) == Some(out + text)
    decreases |text|
  {
    if text == [] {
      assert Escape(text) + [DQUOTE] == [DQUOTE] && out + text == out;
    } else {
      var rest := Escape(text[1..]) + [DQUOTE];
      QuotedRestOfEscape(text[1..], out + [text[0]]);
      hide QuotedRest;
      assert out + [text[0]] + text[1..] == out + text;
      var unit := if text[0] == BACKSLASH || text[0] == DQUOTE then [BACKSLASH, text[0]] else [text[0]];
      ConcatAssoc(unit, Escape(text[1..]), [DQUOTE]);
    }
  }

  /** Escaping and quoting is undone by the reader, for any text. */
  lemma QuotedRoundTrip(text: wstring)
    ensures Quoted([DQUOTE] + Escape(text) + [DQUOTE]) == Some(text)
  {
    QuotedRestOfEscape(text, []);
    assert ([DQUOTE] + Escape(text) + [DQUOTE])[1..] == Escape(text) + [DQUOTE];
    assert [] + text == text;
  }

  // ----- the assignment sign

  /** Position of the unescaped closing quote at or after i, -1 if there is none. */
  function ClosingQuote(text: wstring, i: nat, escaped: bool): (r: int)
    ensures r == -1 || i <= r < |text|
    decreases |text| - i
  {
    if i >= |text| then -1
    else if escaped then ClosingQuote(text, i + 1, false)
    else if text[i] == BACKSLASH then ClosingQuote(text, i + 1, true)
    else if text[i] == DQUOTE then i
    else ClosingQuote(text, i + 1, false)
  }

  function AssignmentAt(text: wstring): (r: int)
    ensures r == -1 || 0 <= r < |text|
  {
    if text == [] || text[0] != DQUOTE then Find(text, EQUALS, 0)
    else
      var close := ClosingQuote(text, 1, false);
      if close == -1 then -1 else Find(text, EQUALS, close + 1)
  }

  method FindAssignment(text: wstring) returns (r: int)
    ensures r == AssignmentAt(text)
  {
    if text == [] || text[0] != DQUOTE {
      return Find(text, EQUALS, 0);
    }
    var escaped := false;
    for index := 1 to |text|
      invariant ClosingQuote(text, index, escaped) == ClosingQuote(text, 1, false)
    {
      var character := text[index];
      if escaped {
        escaped := false;
      } else if character == BACKSLASH {
        escaped := true;
      } else if character == DQUOTE {
        return Find(text, EQUALS, index + 1);
      }
    }
    return -1;
  }

  lemma {:induction false} ClosingQuoteOfEscape(before: wstring, text: wstring, after: wstring)
    ensures ClosingQuote(before + Escape(text) + ([DQUOTE] + after), |before|, false) == |before| + |Escape(text)|
    decreases |text|
  {
    var all := before + Escape(text) + ([DQUOTE] + after);
    if text == [] {
      assert all[|before|] == DQUOTE;
    } else {
      var unit := if text[0] == BACKSLASH || text[0] == DQUOTE then [BACKSLASH, text[0]] else [text[0]];
      assert all == (before + unit) + Escape(text[1..]) + ([DQUOTE] + after);
      assert all[|before|] == unit[0];
      if |unit| == 2 { assert all[|before| + 1] == unit[1]; }
      ClosingQuoteOfEscape(before + unit, text[1..], after);
    }
  }

  // ----- names and data

  function NamePrefix(name: wstring): wstring {
    if name == [] then [AT, EQUALS] else [DQUOTE] + Escape(name) + [DQUOTE, EQUALS]
  }

  predicate HasBreak(text: wstring) {
    CR in text || LF in text
  }

  /** Whether the value is written as a quoted string. */
  predicate IsQuotable(v: RegistryValue) {
    v.kind == REG_SZ && DecodeString(v.data).Some? && StringData(DecodeString(v.data).value) == v.data
    && !HasBreak(DecodeString(v.data).value)
  }

  function HexPrefix(kind: uint32): wstring {
    if kind == REG_BINARY then W("hex:") else W("hex(") + HexText(kind as nat) + W("):")
  }

  /** The data of a value as one logical line. */
  function DataText(v: RegistryValue): wstring {
    if IsQuotable(v) then [DQUOTE] + Escape(DecodeString(v.data).value) + [DQUOTE]
    else if v.kind == REG_DWORD && |v.data| == 4 then W("dword:") + PaddedHex(ReadUnsigned(v.data, 4), 8)
    else HexPrefix(v.kind) + ToHex(v.data, [COMMA])
  }

  /** Type and bytes of a data text; what ANSI files keep as ANSI is converted by the reader. */
  function ParsedData(text: wstring): Option<(uint32, seq<byte>)>
    requires text != []
  {
    if text[0] == DQUOTE then
      var s := Quoted(text);
      if s.None? then None else Some((REG_SZ, StringData(s.value)))
    else if StartsWithInsensitive(text, W("dword:")) then
      var n := ParseUnsignedNumber(text[6..], 16);
      if n.None? || n.value > 0xFFFF_FFFF then None else Some((REG_DWORD, UnsignedBytes(n.value as nat, 4)))
    else if !StartsWithInsensitive(text, W("hex")) then None
    else HexData(text, Find(text, COLON, 0), Find(text, LPAREN, 0), Find(text, RPAREN, 0))
  }

  /** Hexadecimal data behind the colon, its type between the parentheses in front of it. */
  function HexData(text: wstring, colon: int, open: int, close: int): Option<(uint32, seq<byte>)>
    requires -1 <= colon < |text| && -1 <= open < |text| && -1 <= close < |text|
  {
    if colon == -1 then None
    else if open != -1 && close != -1 && close > open && close < colon then
      var kind := ParseUnsignedNumber(text[open + 1..close], 16);
      if kind.None? || kind.value > 0xFFFF_FFFF then None
      else WithKind(kind.value as uint32, ParseHex(text[colon + 1..]))
    else if colon != 3 then None
    else WithKind(REG_BINARY, ParseHex(text[4..]))
  }

  function WithKind(kind: uint32, data: Option<seq<byte>>): Option<(uint32, seq<byte>)> {
    if data.None? then None else Some((kind, data.value))
  }

  // ----- the data round trip

  lemma StartsWithItself(prefix: wstring, rest: wstring)
    ensures StartsWithInsensitive(prefix + rest, prefix)
  {
    assert (prefix + rest)[..|prefix|] == prefix;
  }

  lemma DwordRoundTrip(data: seq<byte>)
    requires |data| == 4
    ensures ParsedData(W("dword:") + PaddedHex(ReadUnsigned(data, 4), 8)) == Some((REG_DWORD, data))
  {
    hide *;
    var n := ReadUnsigned(data, 4);
    var digits := PaddedHex(n, 8);
    BytesOfNumber(data);
    DwordBound(n);
    PaddedHexValue(n, 8);
    HexNumberParses(digits);
    StartsWithItself(W("dword:"), digits);
    DwordText(digits);
    UnfoldDword(W("dword:") + digits);
  }

  lemma DwordBound(n: nat)
    requires n < Power16(8)
    ensures n < 0x1_0000_0000
  {
    assert Power16(8) == 16 * (16 * (16 * (16 * Power16(4))));
    assert Power16(4) == 16 * (16 * (16 * (16 * Power16(0))));
  }

  lemma DwordText(digits: wstring)
    ensures var text := W("dword:") + digits;
            text != [] && text[0] != DQUOTE && |text| >= 6 && text[6..] == digits
  {}

  lemma UnfoldDword(text: wstring)
    requires text != [] && text[0] != DQUOTE && StartsWithInsensitive(text, W("dword:"))
    ensures var n := ParseUnsignedNumber(text[6..], 16);
            ParsedData(text) == if n.None? || n.value > 0xFFFF_FFFF then None
                                else Some((REG_DWORD, UnsignedBytes(n.value as nat, 4)))
  {
    assert text[..6][0] == text[0];
    hide ParseUnsignedNumber, UnsignedBytes;
  }

  predicate IsHexDataUnit(c: wchar) {
    HexDigitValue(c) >= 0 || c == COMMA
  }

  lemma {:induction false} HexDataUnits(data: seq<byte>)
    ensures forall i :: 0 <= i < |ToHex(data, [COMMA])| ==> IsHexDataUnit(ToHex(data, [COMMA])[i])
  {
    if data != [] {
      HexDigitsRead(data[0] as int / 16);
      HexDigitsRead(data[0] as int % 16);
      HexDataUnits(data[1..]);
    }
  }

  lemma HexIsNoDword(text: wstring)
    requires text != [] && text[0] == 0x68
    ensures !StartsWithInsensitive(text, W("dword:"))
  {
    if |text| >= 6 { assert UpperUnit(text[..6][0]) != UpperUnit(W("dword:")[0]); }
  }

  lemma UnfoldHex(text: wstring)
    requires text != [] && text[0] == 0x68 && StartsWithInsensitive(text, W("hex"))
    ensures ParsedData(text) == HexData(text, Find(text, COLON, 0), Find(text, LPAREN, 0), Find(text, RPAREN, 0))
  {
    HexIsNoDword(text);
    hide StartsWithInsensitive, W, Find, HexData, ParseUnsignedNumber, ParseHex;
  }

  lemma UnfoldTyped(text: wstring, colon: int, open: int, close: int, kind: uint32, data: seq<byte>)
    requires 0 <= open < close < colon < |text|
    requires ParseUnsignedNumber(text[open + 1..close], 16) == Some(kind as uint64)
             && ParseHex(text[colon + 1..]) == Some(data)
    ensures HexData(text, colon, open, close) == Some((kind, data))
  {
    hide ParseUnsignedNumber, ParseHex;
  }

  lemma UnfoldBinary(text: wstring, close: int, data: seq<byte>)
    requires |text| > 3 && -1 <= close < |text| && ParseHex(text[4..]) == Some(data)
    ensures HexData(text, 3, -1, close) == Some((REG_BINARY, data))
  {
    hide ParseHex;
  }

  lemma BinaryText(h: wstring)
    requires forall i :: 0 <= i < |h| ==> IsHexDataUnit(h[i])
    ensures var text := W("hex:") + h;
            && |text| >= 4 && text[0] == 0x68 && StartsWithInsensitive(text, W("hex"))
            && Find(text, COLON, 0) == 3 && Find(text, LPAREN, 0) == -1 && text[4..] == h
  {
    var text := W("hex:") + h;
    assert text[..3] == W("hex");
    assert forall i :: 4 <= i < |text| ==> IsHexDataUnit(text[i]);
    assert text[3] == COLON;
  }

  lemma TypedText(x: wstring, h: wstring)
    requires AllHex(x)
    ensures var text := W("hex(") + x + W("):") + h;
            && |text| >= 6 && text[0] == 0x68 && StartsWithInsensitive(text, W("hex"))
            && Find(text, LPAREN, 0) == 3 && Find(text, RPAREN, 0) == 4 + |x| && Find(text, COLON, 0) == 5 + |x|
            && text[4..4 + |x|] == x && text[6 + |x|..] == h
  {
    var text := W("hex(") + x + W("):") + h;
    assert text[..3] == W("hex");
    assert text[4..4 + |x|] == x;
    assert forall i :: 4 <= i < 4 + |x| ==> text[i] == x[i - 4] && HexDigitValue(text[i]) >= 0;
    assert text[3] == LPAREN && text[4 + |x|] == RPAREN && text[5 + |x|] == COLON;
  }

  lemma HexDataRoundTrip(kind: uint32, data: seq<byte>)
    ensures ParsedData(HexPrefix(kind) + ToHex(data, [COMMA])) == Some((kind, data))
  {
    hide *;
    var h := ToHex(data, [COMMA]);
    HexDataUnits(data);
    CommaIsFiller();
    HexRoundTrip(data, [COMMA]);
    HexPrefixIs(kind);
    if kind == REG_BINARY {
      var text := W("hex:") + h;
      BinaryText(h);
      UnfoldHex(text);
      UnfoldBinary(text, Find(text, RPAREN, 0), data);
    } else {
      var x := HexText(kind as nat);
      HexTextValue(kind as nat);
      HexNumberParses(x);
      var text := W("hex(") + x + W("):") + h;
      TypedText(x, h);
      UnfoldHex(text);
      UnfoldTyped(text, 5 + |x|, 3, 4 + |x|, kind, data);
    }
  }

  lemma CommaIsFiller()
    ensures IsHexFiller(COMMA)
  {}

  lemma HexPrefixIs(kind: uint32)
    ensures HexPrefix(kind) == if kind == REG_BINARY then W("hex:") else W("hex(") + HexText(kind as nat) + W("):")
  {}

  lemma StringDataRoundTrip(text: wstring)
    ensures ParsedData([DQUOTE] + Escape(text) + [DQUOTE]) == Some((REG_SZ, StringData(text)))
  {
    QuotedRoundTrip(text);
    hide Quoted, StringData, Escape;
  }

  /** The data text of every value is read back as its type and bytes. */
  lemma DataRoundTrip(v: RegistryValue)
    ensures DataText(v) != [] && ParsedData(DataText(v)) == Some((v.kind, v.data))
  {
    hide StartsWithInsensitive, ParsedData, Escape, W, HexPrefix;
    if IsQuotable(v) {
      StringDataRoundTrip(DecodeString(v.data).value);
    } else if v.kind == REG_DWORD && |v.data| == 4 {
      DwordRoundTrip(v.data);
    } else {
      HexDataRoundTrip(v.kind, v.data);
      HexPrefixIs(v.kind);
    }
  }
}
