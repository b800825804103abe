/** Records of escaped fields: tabs between fields, a line feed after each record, lone surrogates spelled out. */
module EscapedFields {
  import opened Text
  import opened ValueFormat

  // ----- escaping

  /** A surrogate without its other half next to it. */
  predicate IsLone(text: wstring, i: nat)
    requires i < |text|
  {
    || (IsHighSurrogate(text[i]) && (i + 1 == |text| || !IsLowSurrogate(text[i + 1])))
    || (IsLowSurrogate(text[i]) && (i == 0 || !IsHighSurrogate(text[i - 1])))
  }

  /** The letter written after a backslash for a unit that has one, 0 for the others. */
  function EscapeCode(c: wchar): wchar {
    if c == BACKSLASH then BACKSLASH
    else if c == TAB then 0x74
    else if c == CR then 0x72
    else if c == LF then 0x6E
    else 0
  }

  function HexEscape(c: wchar): wstring {
    [BACKSLASH, 0x75, UpperHexDigit(c as int / 4096), UpperHexDigit(c as int / 256 % 16),
     UpperHexDigit(c as int / 16 % 16), UpperHexDigit(c as int % 16)]
  }

  function EscapeUnit(text: wstring, i: nat): wstring
    requires i < |text|
  {
    if EscapeCode(text[i]) != 0 then [BACKSLASH, EscapeCode(text[i])]
    else if IsLone(text, i) then HexEscape(text[i])
    else [text[i]]
  }

  function EscapeFrom(text: wstring, i: nat): wstring
    requires i <= |text|
    decreases |text| - i
  {
    if i == |text| then [] else EscapeUnit(text, i) + EscapeFrom(text, i + 1)
  }

  function Escape(text: wstring): wstring {
    EscapeFrom(text, 0)
  }

  /** One unit at a time. */
  lemma UnfoldUnit(text: wstring, i: nat)
    requires i < |text|
    ensures EscapeFrom(text, i) == EscapeUnit(text, i) + EscapeFrom(text, i + 1)
    ensures var c := text[i];
            && (c >= SPACE && c != BACKSLASH && (c < 0xD800 || c > 0xDFFF) ==> EscapeUnit(text, i) == [c])
            && EscapeUnit(text, i) == if EscapeCode(c) != 0 then [BACKSLASH, EscapeCode(c)]
                                      else if IsLone(text, i) then HexEscape(c) else [c]
  {
    if text[i] < 0xD800 || text[i] > 0xDFFF { NotSurrogateNotLone(text, i); }
    hide IsLone, HexEscape;
  }

  lemma NothingEscaped(text: wstring)
    ensures EscapeFrom(text, |text|) == [] && text[|text|..] == []
  {}

  method AppendEscaped(output: wstring, text: wstring) returns (out: wstring)
    ensures out == output + Escape(text)
  {
    hide IsLone, HexEscape, EscapeUnit, EscapeFrom, EscapeCode;
    out := output;
    var start := 0;
    var index := 0;
    ghost var done := output;
    while index < |text|
      invariant start <= index <= |text|
      invariant out + text[start..index] == done
      invariant done + EscapeFrom(text, index) == output + Escape(text)
    {
      var character := text[index];
      UnfoldUnit(text, index);
      ConcatAssoc(done, EscapeUnit(text, index), EscapeFrom(text, index + 1));
      PendingGrows(out, text, start, index);
      done := done + EscapeUnit(text, index);
      if character >= SPACE && character != BACKSLASH && (character < 0xD800 || character > 0xDFFF) {
        index := index + 1;
        continue;
      }
      var code := EscapeCode(character);
      var lone := IsLone(text, index);
      if code == 0 && !lone {
        index := index + 1;
        continue;
      }
      out := out + text[start..index];
      if code != 0 {
        out := out + [BACKSLASH, code];
      } else {
        out := out + HexEscape(character);
      }
      start := index + 1;
      index := index + 1;
      assert out + text[start..index] == out;
    }
    NothingEscaped(text);
    assert text[start..index] == text[start..];
    out := out + text[start..];
  }

  lemma NotSurrogateNotLone(text: wstring, i: nat)
    requires i < |text| && (text[i] < 0xD800 || text[i] > 0xDFFF)
    ensures !IsLone(text, i)
  {}

  // ----- unescaping

  /** The unit a backslash letter stands for, 0 for the others. */
  function DecodedUnit(letter: wchar): wchar {
    if letter == 0x74 then TAB
    else if letter == 0x72 then CR
    else if letter == 0x6E then LF
    else if letter == BACKSLASH then BACKSLASH
    else 0
  }

  /** Value of four hexadecimal digits, -1 when one is not a digit. */
  function FourHex(text: wstring): int
    requires |text| == 4
  {
    var a, b, c, d := HexDigitValue(text[0]), HexDigitValue(text[1]), HexDigitValue(text[2]), HexDigitValue(text[3]);
    if a < 0 || b < 0 || c < 0 || d < 0 then -1 else ((a * 16 + b) * 16 + c) * 16 + d
  }

  /** The surrogate spelled by `\uXXXX` at the front, or -1. */
  function SpelledSurrogate(text: wstring): (v: int)
    requires |text| >= 2
    ensures v != -1 ==> |text| >= 6 && 0xD800 <= v <= 0xDFFF
  {
    if text[1] == 0x75 && |text| >= 6 then
      var v := FourHex(text[2..6]);
      if 0xD800 <= v <= 0xDFFF then v else -1
    else -1
  }

  function Unescape(text: wstring): wstring
    decreases |text|
  {
    if text == [] then []
    else if text[0] != BACKSLASH then [text[0]] + Unescape(text[1..])
    else if |text| == 1 then text
    else if DecodedUnit(text[1]) != 0 then [DecodedUnit(text[1])] + Unescape(text[2..])
    else
      var v := SpelledSurrogate(text);
      if v != -1 then [v as wchar] + Unescape(text[6..]) else [text[0]] + Unescape(text[1..])
  }

  lemma {:induction false} UnescapePlain(plain: wstring, rest: wstring)
    requires BACKSLASH !in plain
    ensures Unescape(plain + rest) == plain + Unescape(rest)
    decreases |plain|
  {
    if plain == [] {
      assert plain + rest == rest;
    } else {
      assert (plain + rest)[1..] == plain[1..] + rest;
      UnescapePlain(plain[1..], rest);
      assert [plain[0]] + (plain[1..] + Unescape(rest)) == plain + Unescape(rest);
    }
  }

  method ReadHex(text: wstring, slash: nat) returns (value: int)
    requires slash + 1 < |text|
    ensures value == if text[slash + 1] == 0x75 && slash + 6 <= |text| then FourHex(text[slash + 2..slash + 6]) else -1
  {
    value := if text[slash + 1] == 0x75 && slash + 6 <= |text| then 0 else -1;
    if value < 0 {
      return;
    }
    ghost var four := text[slash + 2..slash + 6];
    var index := slash + 2;
    while index < slash + 6 && value >= 0
      invariant slash + 2 <= index <= slash + 6
      invariant index == slash + 2 ==> value == 0
      invariant index == slash + 3 ==> value == HexDigitValue(four[0])
      invariant value < 0 ==> FourHex(four) == -1
      invariant value >= 0 && index == slash + 4 ==>
                  HexDigitValue(four[0]) >= 0 && HexDigitValue(four[1]) >= 0
                    && value == HexDigitValue(four[0]) * 16 + HexDigitValue(four[1])
      invariant value >= 0 && index == slash + 5 ==>
                  && HexDigitValue(four[0]) >= 0 && HexDigitValue(four[1]) >= 0 && HexDigitValue(four[2]) >= 0
                  && value == (HexDigitValue(four[0]) * 16 + HexDigitValue(four[1])) * 16 + HexDigitValue(four[2])
      invariant value >= -1 && (value >= 0 && index == slash + 6 ==> value == FourHex(four))
    {
      var digit := HexDigitValue(text[index]);
      assert text[index] == four[index - slash - 2];
      value := if digit < 0 then -1 else value * 16 + digit;
      index := index + 1;
    }
  }

  lemma UnfoldEscape(tail: wstring)
    requires |tail| >= 2 && tail[0] == BACKSLASH
    ensures var v := if tail[1] == 0x75 && 6 <= |tail| then FourHex(tail[2..6]) else -1;
            Unescape(tail) ==
              if DecodedUnit(tail[1]) != 0 then [DecodedUnit(tail[1])] + Unescape(tail[2..])
              else if 0xD800 <= v <= 0xDFFF then [v as wchar] + Unescape(tail[6..])
              else [BACKSLASH] + Unescape(tail[1..])
  {}

  /** What the backslash at `slash` stands for and where reading goes on behind it. */
  function EscapeAt(text: wstring, slash: nat): (r: (wstring, nat))
    requires slash + 1 < |text|
    ensures slash < r.1 <= |text|
  {
    var decoded := DecodedUnit(text[slash + 1]);
    var v := if text[slash + 1] == 0x75 && slash + 6 <= |text| then FourHex(text[slash + 2..slash + 6]) else -1;
    if decoded != 0 then ([decoded], slash + 2)
    else if 0xD800 <= v <= 0xDFFF then ([v as wchar], slash + 6)
    else ([BACKSLASH], slash + 1)
  }

  lemma UnescapeAt(out: wstring, text: wstring, start: nat, slash: nat)
    requires start <= slash && slash + 1 < |text| && text[slash] == BACKSLASH && BACKSLASH !in text[start..slash]
    ensures var (added, next) := EscapeAt(text, slash);
            ((out + text[start..slash]) + added) + Unescape(text[next..]) == out + Unescape(text[start..])
  {
    hide *;
    var tail, plain := text[slash..], text[start..slash];
    var (added, next) := EscapeAt(text, slash);
    Behind(text, slash);
    UnfoldEscape(tail);
    EscapeAdds(text, slash);
    assert Unescape(tail) == added + Unescape(text[next..]);
    assert text[start..] == plain + tail;
    UnescapePlain(plain, tail);
    ConcatThree(out, plain, added, Unescape(text[next..]));
  }

  lemma Behind(text: wstring, slash: nat)
    requires slash + 1 < |text|
    ensures var tail := text[slash..];
            && tail[0] == text[slash] && tail[1] == text[slash + 1]
            && tail[1..] == text[slash + 1..] && tail[2..] == text[slash + 2..]
            && (slash + 6 <= |text| ==> tail[2..6] == text[slash + 2..slash + 6] && tail[6..] == text[slash + 6..])
  {}

  lemma EscapeAdds(text: wstring, slash: nat)
    requires slash + 1 < |text|
    ensures var decoded := DecodedUnit(text[slash + 1]);
            var v := if text[slash + 1] == 0x75 && slash + 6 <= |text| then FourHex(text[slash + 2..slash + 6]) else -1;
            && (decoded != 0 ==> EscapeAt(text, slash) == ([decoded], slash + 2))
            && (decoded == 0 && 0xD800 <= v <= 0xDFFF ==> EscapeAt(text, slash) == ([v as wchar], slash + 6))
            && (decoded == 0 && !(0xD800 <= v <= 0xDFFF) ==> EscapeAt(text, slash) == ([BACKSLASH], slash + 1))
  {}

  lemma UnescapeEnd(text: wstring, start: nat, slash: int)
    requires start <= |text| && slash == Find(text, BACKSLASH, start) && (slash == -1 || slash + 1 == |text|)
    ensures Unescape(text[start..]) == text[start..]
  {
    var plain := if slash == -1 then text[start..] else text[start..slash];
    var rest := if slash == -1 then [] else [BACKSLASH];
    assert text[start..] == plain + rest;
    UnescapePlain(plain, rest);
  }

  method AppendUnescaped(output: wstring, text: wstring) returns (out: wstring)
    ensures out == output + Unescape(text)
  {
    hide *;
    out := output;
    var start := 0;
    var slash := Find(text, BACKSLASH, 0);
    assert text[0..] == text;
    while slash != -1 && slash + 1 < |text|
      invariant start <= |text| && slash == Find(text, BACKSLASH, start)
      invariant out + Unescape(text[start..]) == output + Unescape(text)
      decreases |text| - start
    {
      UnescapeAt(out, text, start, slash);
      ghost var plain, read := out + text[start..slash], EscapeAt(text, slash);
      var decoded := DecodedUnit(text[slash + 1]);
      if decoded == 0 {
        var value := ReadHex(text, slash);
        var surrogate := 0xD800 <= value <= 0xDFFF;
        PendingGrows(out, text, start, slash);
        out := out + text[start..slash + if surrogate then 0 else 1];
        if surrogate {
          out := out + [value as wchar];
        }
        start := slash + if surrogate then 6 else 1;
      } else {
        out := out + text[start..slash];
        out := out + [decoded];
        start := slash + 2;
      }
      assert out == plain + read.0 && start == read.1 by { EscapeAdds(text, slash); }
      slash := Find(text, BACKSLASH, start);
    }
    UnescapeEnd(text, start, slash);
    out := out + text[start..];
  }

  lemma ConcatThree(a: wstring, b: wstring, c: wstring, d: wstring)
    ensures a + (b + (c + d)) == ((a + b) + c) + d
  {}

  // ----- what escaping promises

  lemma FourDigits(n: int)
    requires 0 <= n < 0x1_0000
    ensures 0 <= n / 4096 < 16
    ensures n == ((n / 4096 * 16 + n / 256 % 16) * 16 + n / 16 % 16) * 16 + n % 16
  {
    var a := n / 16;
    var b := a / 16;
    assert b == n / 256 && b / 16 == n / 4096;
  }

  lemma HexEscapeIsSpelled(c: wchar, rest: wstring)
    requires IsHighSurrogate(c) || IsLowSurrogate(c)
    ensures SpelledSurrogate(HexEscape(c) + rest) == c as int
  {
    var text := HexEscape(c) + rest;
    var n := c as int;
    FourDigits(n);
    HexDigitsRead(n / 4096);
    HexDigitsRead(n / 256 % 16);
    HexDigitsRead(n / 16 % 16);
    HexDigitsRead(n % 16);
    hide HexDigitValue, UpperHexDigit;
    assert text[2..6] == HexEscape(c)[2..6];
    assert FourHex(text[2..6]) == n;
  }

  lemma {:induction false} UnescapeEscapeFrom(text: wstring, i: nat)
    requires i <= |text|
    ensures Unescape(EscapeFrom(text, i)) == text[i..]
    decreases |text| - i
  {
    if i < |text| {
      UnescapeEscapeFrom(text, i + 1);
      var unit, rest := EscapeUnit(text, i), EscapeFrom(text, i + 1);
      if EscapeCode(text[i]) != 0 {
        assert (unit + rest)[2..] == rest;
      } else if IsLone(text, i) {
        HexEscapeIsSpelled(text[i], rest);
        assert (unit + rest)[6..] == rest;
      } else {
        assert (unit + rest)[1..] == rest;
      }
      assert text[i..] == [text[i]] + text[i + 1..];
    }
  }

  /** Any text comes back, lone surrogates included. */
  lemma EscapeRoundTrip(text: wstring)
    ensures Unescape(Escape(text)) == text
  {
    UnescapeEscapeFrom(text, 0);
    assert text[0..] == text;
  }

  predicate IsFieldUnit(c: wchar) {
    c != TAB && c != CR && c != LF
  }

  lemma {:induction false} EscapeFromIsClean(text: wstring, i: nat)
    requires i <= |text|
    ensures forall k :: 0 <= k < |EscapeFrom(text, i)| ==> IsFieldUnit(EscapeFrom(text, i)[k])
    decreases |text| - i
  {
    if i < |text| {
      EscapeFromIsClean(text, i + 1);
      forall k | 0 <= k < |EscapeUnit(text, i)| ensures IsFieldUnit(EscapeUnit(text, i)[k]) {}
    }
  }

  lemma {:induction false} PlainPrefixWellFormed(plain: wstring, rest: wstring)
    requires (forall k :: 0 <= k < |plain| ==> !IsHighSurrogate(plain[k]) && !IsLowSurrogate(plain[k]))
             && IsWellFormedUtf16(rest)
    ensures IsWellFormedUtf16(plain + rest)
    decreases |plain|
  {
    if plain == [] {
      assert plain + rest == rest;
    } else {
      assert (plain + rest)[1..] == plain[1..] + rest;
      PlainPrefixWellFormed(plain[1..], rest);
    }
  }

  lemma PairWellFormed(high: wchar, low: wchar, rest: wstring)
    requires IsHighSurrogate(high) && IsLowSurrogate(low) && IsWellFormedUtf16(rest)
    ensures IsWellFormedUtf16([high] + ([low] + rest))
  {
    assert ([high] + ([low] + rest))[2..] == rest;
  }

  lemma {:induction false} EscapeFromIsWellFormed(text: wstring, i: nat)
    requires i <= |text|
    requires i == |text| || !IsLowSurrogate(text[i]) || IsLone(text, i)
    ensures IsWellFormedUtf16(EscapeFrom(text, i))
    decreases |text| - i
  {
    if i < |text| {
      hide IsWellFormedUtf16;
      if EscapeCode(text[i]) == 0 && !IsLone(text, i) && IsHighSurrogate(text[i]) {
        EscapeFromIsWellFormed(text, i + 2);
        assert EscapeUnit(text, i + 1) == [text[i + 1]];
        PairWellFormed(text[i], text[i + 1], EscapeFrom(text, i + 2));
      } else {
        EscapeFromIsWellFormed(text, i + 1);
        PlainPrefixWellFormed(EscapeUnit(text, i), EscapeFrom(text, i + 1));
      }
    }
  }

  /** Every escaped field is well-formed UTF-16 without the units that structure the file. */
  lemma EscapedFieldIsStorable(text: wstring)
    ensures IsWellFormedUtf16(Escape(text))
    ensures forall k :: 0 <= k < |Escape(text)| ==> IsFieldUnit(Escape(text)[k])
  {
    EscapeFromIsWellFormed(text, 0);
    EscapeFromIsClean(text, 0);
  }

  // ----- lines and records

  predicate IsBreak(c: wchar) {
    c == CR || c == LF
  }

  /** Position of the first line break at or after `start`, or -1. */
  function FindBreak(text: wstring, start: nat): (r: int)
    ensures r == -1 || (start <= r < |text| && IsBreak(text[r]))
    ensures forall i :: start <= i < (if r == -1 then |text| else r) ==> !IsBreak(text[i])
    decreases |text| - start
  {
    if start >= |text| then -1 else if IsBreak(text[start]) then start else FindBreak(text, start + 1)
  }

  /** Units a line break at `end` takes: a CR and LF together are one. */
  function BreakLength(text: wstring, end: nat): (n: nat)
    requires end < |text|
    ensures 1 <= n && end + n <= |text|
  {
    if text[end] == CR && end + 1 < |text| && text[end + 1] == LF then 2 else 1
  }

  /** The lines of a file, the last one without a break if there is none. */
  function LinesOf(content: wstring): seq<wstring>
    decreases |content|
  {
    if content == [] then []
    else
      var end := FindBreak(content, 0);
      if end == -1 then [content] else [content[..end]] + LinesOf(content[end + BreakLength(content, end)..])
  }

  lemma UnfoldLines(content: wstring)
    requires content != []
    ensures var end := FindBreak(content, 0);
            LinesOf(content) == if end == -1 then [content]
                                else [content[..end]] + LinesOf(content[end + BreakLength(content, end)..])
  {
    hide FindBreak, BreakLength, IsBreak;
  }

  lemma BreakLengthShift(content: wstring, start: nat, end: nat)
    requires start <= end < |content|
    ensures BreakLength(content[start..], end - start) == BreakLength(content, end)
  {}

  lemma FirstLine(content: wstring, start: nat)
    requires start < |content|
    ensures var end := FindBreak(content, start);
            LinesOf(content[start..]) ==
              if end == -1 then [content[start..]]
              else [content[start..end]] + LinesOf(content[end + BreakLength(content, end)..])
  {
    hide *;
    var end := FindBreak(content, start);
    UnfoldLines(content[start..]);
    if end != -1 {
      BreakLengthShift(content, start, end);
      SliceShift(content, start, end);
      SliceShift(content, start, end + BreakLength(content, end));
    }
  }

  method Lines(content: wstring) returns (lines: seq<wstring>)
    ensures lines == LinesOf(content)
  {
    hide *;
    lines := [];
    var start := 0;
    assert content[0..] == content;
    while start < |content|
      invariant start <= |content|
      invariant lines + LinesOf(content[start..]) == LinesOf(content)
    {
      var end := FindBreak(content, start);
      FirstLine(content, start);
      if end == -1 {
        lines := lines + [content[start..]];
        return;
      }
      ConcatAssoc(lines, [content[start..end]], LinesOf(content[end + BreakLength(content, end)..]));
      lines := lines + [content[start..end]];
      start := end + BreakLength(content, end);
    }
    NoLines(content);
  }

  lemma NoLines(content: wstring)
    ensures LinesOf(content[|content|..]) == []
  {}

  /** Escaped fields with tabs between them. */
  function Joined(fields: seq<wstring>): wstring {
    if fields == [] then []
    else if |fields| == 1 then Escape(fields[0])
    else Escape(fields[0]) + ([TAB] + Joined(fields[1..]))
  }

  function Record(fields: seq<wstring>): wstring {
    Joined(fields) + [LF]
  }

  method AppendRecord(output: wstring, fields: seq<wstring>) returns (out: wstring)
    ensures out == output + Record(fields)
  {
    hide Escape;
    out := output;
    var first := true;
    for i := 0 to |fields|
      invariant first == (i == 0)
      invariant i < |fields| ==> out + (if i == 0 then [] else [TAB]) + Joined(fields[i..]) == output + Joined(fields)
      invariant i == |fields| ==> out == output + Joined(fields)
    {
      assert fields[i..][1..] == fields[i + 1..];
      if !first {
        out := out + [TAB];
      } else {
        assert fields[0..] == fields && out + [] == out;
      }
      ConcatThree(out, Escape(fields[i]), [TAB], Joined(fields[i + 1..]));
      out := AppendEscaped(out, fields[i]);
      first := false;
    }
    ConcatAssoc(output, Joined(fields), [LF]);
    out := out + [LF];
  }

  /** The fields of a line: cut at the tabs, then unescaped. */
  function Decoded(line: wstring): (fields: seq<wstring>)
    ensures fields != []
    decreases |line|
  {
    var separator := Find(line, TAB, 0);
    if separator == -1 then [Unescape(line)]
    else [Unescape(line[..separator])] + Decoded(line[separator + 1..])
  }

  lemma UnfoldDecoded(line: wstring)
    ensures var t := Find(line, TAB, 0);
            Decoded(line) == if t == -1 then [Unescape(line)] else [Unescape(line[..t])] + Decoded(line[t + 1..])
  {
    hide Find, Unescape;
  }

  lemma FirstField(line: wstring, start: nat)
    requires start <= |line|
    ensures var separator := Find(line, TAB, start);
            Decoded(line[start..]) ==
              if separator == -1 then [Unescape(line[start..])]
              else [Unescape(line[start..separator])] + Decoded(line[separator + 1..])
  {
    hide *;
    UnfoldDecoded(line[start..]);
    FindShift(line, TAB, start);
    var separator := Find(line, TAB, start);
    if separator != -1 {
      SliceShift(line, start, separator);
      SliceShift(line, start, separator + 1);
    }
  }

  method DecodeRecord(line: wstring) returns (fields: seq<wstring>)
    ensures fields == Decoded(line)
  {
    hide *;
    fields := [];
    var start := 0;
    assert line[0..] == line;
    while true
      invariant start <= |line| && fields + Decoded(line[start..]) == Decoded(line)
      decreases |line| - start
    {
      var separator := Find(line, TAB, start);
      FirstField(line, start);
      var text := if separator == -1 then line[start..] else line[start..separator];
      var field := AppendUnescaped([], text);
      assert field == Unescape(text);
      if separator == -1 {
        fields := fields + [field];
        return;
      }
      ConcatAssoc(fields, [field], Decoded(line[separator + 1..]));
      fields := fields + [field];
      start := separator + 1;
    }
  }

  lemma {:induction false} JoinedIsClean(fields: seq<wstring>)
    ensures forall k :: 0 <= k < |Joined(fields)| ==> !IsBreak(Joined(fields)[k])
  {
    if fields != [] {
      EscapedFieldIsStorable(fields[0]);
      JoinedIsClean(fields[1..]);
    }
  }

  lemma DecodeOne(head: wstring, rest: wstring)
    requires TAB !in head
    ensures Decoded(head) == [Unescape(head)]
    ensures Decoded(head + ([TAB] + rest)) == [Unescape(head)] + Decoded(rest)
  {
    var line := head + ([TAB] + rest);
    UnfoldDecoded(line);
    UnfoldDecoded(head);
    hide Unescape, Find, Decoded;
    assert line[|head|] == TAB;
    assert forall i :: 0 <= i < |head| ==> line[i] == head[i];
    assert Find(line, TAB, 0) == |head|;
    assert line[..|head|] == head && line[|head| + 1..] == rest;
  }

  lemma {:induction false} DecodeJoined(fields: seq<wstring>)
    requires fields != []
    ensures Decoded(Joined(fields)) == fields
  {
    hide Unescape, Escape, Decoded;
    assert Unescape(Escape(fields[0])) == fields[0] by { EscapeRoundTrip(fields[0]); }
    assert TAB !in Escape(fields[0]) by { EscapedFieldIsStorable(fields[0]); }
    DecodeOne(Escape(fields[0]), Joined(fields[1..]));
    if |fields| > 1 {
      DecodeJoined(fields[1..]);
    }
    assert fields == [fields[0]] + fields[1..];
  }

  /** A file is its records one after the other. */
  function FileOf(records: seq<seq<wstring>>): wstring {
    if records == [] then [] else Record(records[0]) + FileOf(records[1..])
  }

  function DecodedLines(lines: seq<wstring>): seq<seq<wstring>> {
    if lines == [] then [] else [Decoded(lines[0])] + DecodedLines(lines[1..])
  }

  /** A record of no field is stored like a record of one empty field. */
  function Stored(records: seq<seq<wstring>>): (r: seq<seq<wstring>>)
    ensures |r| == |records|
    ensures forall i :: 0 <= i < |records| ==> r[i] == if records[i] == [] then [[]] else records[i]
  {
    seq(|records|, i requires 0 <= i < |records| => if records[i] == [] then [[]] else records[i])
  }

  lemma LinesOfRecord(fields: seq<wstring>, rest: wstring)
    ensures LinesOf(Record(fields) + rest) == [Joined(fields)] + LinesOf(rest)
  {
    JoinedIsClean(fields);
    hide Joined;
    var content, line := Record(fields) + rest, Joined(fields);
    assert content[|line|] == LF;
    assert forall i :: 0 <= i < |line| ==> content[i] == line[i];
    assert FindBreak(content, 0) == |line|;
    assert content[..|line|] == line && content[|line| + 1..] == rest;
  }

  lemma DecodeRecordLine(fields: seq<wstring>)
    ensures Decoded(Joined(fields)) == if fields == [] then [[]] else fields
  {
    if fields != [] { DecodeJoined(fields); }
  }

  lemma StoredCons(records: seq<seq<wstring>>)
    requires records != []
    ensures Stored(records) == [if records[0] == [] then [[]] else records[0]] + Stored(records[1..])
  {}

  lemma {:induction false} ReadBack(records: seq<seq<wstring>>)
    ensures DecodedLines(LinesOf(FileOf(records))) == Stored(records)
  {
    if records != [] {
      hide Decoded, LinesOf, Joined, Record, DecodedLines, Stored;
      LinesOfRecord(records[0], FileOf(records[1..]));
      DecodeRecordLine(records[0]);
      ReadBack(records[1..]);
      StoredCons(records);
    }
  }

  /** The file format keeps a list of records exactly when every record has a field. */
  lemma RecordsRoundTrip(records: seq<seq<wstring>>)
    ensures DecodedLines(LinesOf(FileOf(records))) == records <==> (forall i :: 0 <= i < |records| ==> records[i] != [])
  {
    ReadBack(records);
    if i :| 0 <= i < |records| && records[i] == [] {
      assert Stored(records)[i] == [[]];
    }
  }

  // ----- numbers

  method ParseUnsigned(text: wstring, maximum: uint64) returns (value: Option<uint64>)
    ensures value.Some? <==> text != [] && AllDigits(text) && DecimalValue(text) <= maximum as nat
    ensures value.Some? ==> value.value as nat == DecimalValue(text)
  {
    if text == [] {
      return None;
    }
    var result: uint64 := 0;
    for i := 0 to |text|
      invariant AllDigits(text[..i]) && DecimalValue(text[..i]) == result as nat <= maximum as nat
    {
      var character := text[i];
      assert text[..i + 1][..i] == text[..i];
      if character < 0x30 || character > 0x39 {
        return None;
      }
      var digit := (character - 0x30) as uint64;
      if digit > maximum || result > (maximum - digit) / 10 {
        if AllDigits(text) {
          DecimalPrefix(text, i + 1);
        }
        return None;
      }
      result := result * 10 + digit;
    }
    assert text[..|text|] == text;
    return Some(result);
  }

  lemma {:induction false} DecimalPrefix(text: wstring, n: nat)
    requires n <= |text| && AllDigits(text)
    ensures AllDigits(text[..n]) && DecimalValue(text[..n]) <= DecimalValue(text)
    decreases |text|
  {
    if n == |text| {
      assert text[..n] == text;
    } else {
      assert text[..|text| - 1][..n] == text[..n];
      DecimalPrefix(text[..|text| - 1], n);
    }
  }
}
