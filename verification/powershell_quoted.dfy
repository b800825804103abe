/** Quoted strings and numbers are read as what they were written for. */
module PowerShellQuoted {
  import opened Text
  import opened ValueFormat
  import opened PowerShellLexer
  import opened PowerShellWriter
  import opened PowerShellPieces

  // ----- single quotes

  lemma DoubledUnitReads(text: wstring, i: nat, c: wchar, value: wstring)
    requires HasAt(text, i, DoubledOf(c))
    ensures SingleQuotedFrom(text, i, value) == SingleQuotedFrom(text, i + |DoubledOf(c)|, value + [c])
  {
    HasAtUnit(text, i, DoubledOf(c));
    if IsSingleQuote(c) { HasAtUnit(text, i + 1, DoubledOf(c)[1..]); }
    hide IsSingleQuote;
  }

  lemma {:induction false} DoubledReads(text: wstring, i: nat, s: wstring, value: wstring)
    requires HasAt(text, i, Doubled(s))
    ensures SingleQuotedFrom(text, i, value) == SingleQuotedFrom(text, i + |Doubled(s)|, value + s)
    decreases |s|
  {
    hide SingleQuotedFrom, DoubledOf;
    if s == [] {
      assert value + s == value;
    } else {
      var init, c := s[..|s| - 1], s[|s| - 1];
      HasAtSplit(text, i, Doubled(init), DoubledOf(c));
      DoubledReads(text, i, init, value);
      DoubledUnitReads(text, i + |Doubled(init)|, c, value + init);
      assert value + init + [c] == value + s;
    }
  }

  lemma QuoteCloses(text: wstring, i: nat, value: wstring)
    requires i < |text| && text[i] == SQUOTE && !IsSingleQuote(At(text, i + 1))
    ensures SingleQuotedFrom(text, i, value) == Some((value, i))
  {}

  lemma SingleDispatch(text: wstring, st: Lexer, value: wstring, end: nat)
    requires st.index < |text| && text[st.index] == SQUOTE
             && SingleQuotedFrom(text, st.index + 1, []) == Some((value, end))
    ensures LexToken(text, st) == Some(Push(st, Plain(String, value), end + 1))
  {
    hide LexWord, LexDouble, LexVariable, LexPunct, LexParameter, NumberToken, TypeEnd, SingleQuotedFrom;
  }

  lemma PlainStands(text: wstring, st: Lexer, mode: Mode, p: Piece)
    requires p.Quoted? && IsPlain(p.text) && Stands(text, st, mode, p)
    ensures var n := |Doubled(p.text)|;
            && |PieceText(p)| == n + 2 && st.index < |text| && text[st.index] == SQUOTE
               && HasAt(text, st.index + 1, Doubled(p.text))
            && st.index + 1 + n < |text| && text[st.index + 1 + n] == SQUOTE
               && !IsSingleQuote(At(text, st.index + n + 2))
    ensures PieceTokens(p) == [Plain(String, p.text)]
  {
    hide IsSingleQuote, IsDoubleQuote, JoinsLines, Doubled;
    var d := Doubled(p.text);
    ConcatAssoc([SQUOTE], d, [SQUOTE]);
    HasAtSplit(text, st.index, [SQUOTE], d + [SQUOTE]);
    HasAtUnit(text, st.index, [SQUOTE]);
    HasAtSplit(text, st.index + 1, d, [SQUOTE]);
    HasAtUnit(text, st.index + 1 + |d|, [SQUOTE]);
  }

  lemma PlainQuotedReads(text: wstring, st: Lexer, mode: Mode, p: Piece)
    requires p.Quoted? && IsPlain(p.text) && Stands(text, st, mode, p)
    ensures Reads(text, st, Behind(st, p))
  {
    hide *;
    PlainStands(text, st, mode, p);
    var n := |Doubled(p.text)|;
    DoubledReads(text, st.index + 1, p.text, []);
    QuoteCloses(text, st.index + 1 + n, [] + p.text);
    assert [] + p.text == p.text;
    NoGap(text, st) by { QuotesStart(); }
    SingleDispatch(text, st, p.text, st.index + 1 + n);
    PushedIs(st, p, Plain(String, p.text), st.index + n + 2);
    TokenReads(text, st, Behind(st, p));
  }

  lemma QuotesStart()
    ensures SQUOTE in [DOLLAR, MINUS, LPAREN, RPAREN, COMMA, EQUALS, DOT, COLON, AT, LBRACKET, SQUOTE, DQUOTE]
    ensures DQUOTE in [DOLLAR, MINUS, LPAREN, RPAREN, COMMA, EQUALS, DOT, COLON, AT, LBRACKET, SQUOTE, DQUOTE]
  {}

  // ----- double quotes

  lemma EscapeEnds(text: wstring, i: nat, c: wchar)
    requires HasAt(text, i, EscapeOf(c))
    ensures DoubleQuotedEnd(text, i) == DoubleQuotedEnd(text, i + |EscapeOf(c)|)
  {
    HasAtUnit(text, i, EscapeOf(c));
    hide EscapeOf, IsDoubleQuote;
  }

  lemma {:induction false} EscapedEnds(text: wstring, i: nat, s: wstring)
    requires HasAt(text, i, Escaped(s))
    ensures DoubleQuotedEnd(text, i) == DoubleQuotedEnd(text, i + |Escaped(s)|)
    decreases |s|
  {
    hide DoubleQuotedEnd, EscapeOf;
    if s != [] {
      var init, c := s[..|s| - 1], s[|s| - 1];
      HasAtSplit(text, i, Escaped(init), EscapeOf(c));
      EscapedEnds(text, i, init);
      EscapeEnds(text, i + |Escaped(init)|, c);
    }
  }

  lemma EscapeBody(text: wstring, i: nat, end: nat, c: wchar)
    requires HasAt(text, i, EscapeOf(c)) && i + |EscapeOf(c)| <= end <= |text|
    ensures DoubleQuotedBody(text, i, end) == EscapeOf(c) + DoubleQuotedBody(text, i + |EscapeOf(c)|, end)
  {
    HasAtUnit(text, i, EscapeOf(c));
    if |EscapeOf(c)| == 2 {
      HasAtUnit(text, i + 1, EscapeOf(c)[1..]);
      assert EscapeOf(c) == [BACKTICK, text[i + 1]];
    }
    hide EscapeOf, IsDoubleQuote;
  }

  lemma {:induction false} EscapedBody(text: wstring, i: nat, end: nat, s: wstring)
    requires HasAt(text, i, Escaped(s)) && i + |Escaped(s)| <= end <= |text|
    ensures DoubleQuotedBody(text, i, end) == Escaped(s) + DoubleQuotedBody(text, i + |Escaped(s)|, end)
    decreases |s|
  {
    hide DoubleQuotedBody, EscapeOf;
    if s == [] {
      assert Escaped(s) == [];
    } else {
      var init, c := s[..|s| - 1], s[|s| - 1];
      HasAtSplit(text, i, Escaped(init), EscapeOf(c));
      EscapedBody(text, i, end, init);
      EscapeBody(text, i + |Escaped(init)|, end, c);
      ConcatAssoc(Escaped(init), EscapeOf(c), DoubleQuotedBody(text, i + |Escaped(s)|, end));
    }
  }

  lemma EscapePart(body: wstring, i: nat, done: seq<Part>, current: wstring, c: wchar)
    requires HasAt(body, i, EscapeOf(c)) && (c >= SPACE || IsEscapable(c))
    ensures PartsFrom(body, i, done, current) == PartsFrom(body, i + |EscapeOf(c)|, done, current + [c])
  {
    HasAtUnit(body, i, EscapeOf(c));
    if |EscapeOf(c)| == 2 { HasAtUnit(body, i + 1, EscapeOf(c)[1..]); }
    hide EscapeOf, IsDoubleQuote, EscapedUnit, Find, NameEnd;
  }

  predicate IsWritten(s: wstring) {
    forall i :: 0 <= i < |s| ==> s[i] >= SPACE || IsEscapable(s[i])
  }

  lemma {:induction false} EscapedPart(body: wstring, i: nat, done: seq<Part>, current: wstring, s: wstring)
    requires HasAt(body, i, Escaped(s)) && IsWritten(s)
    ensures PartsFrom(body, i, done, current) == PartsFrom(body, i + |Escaped(s)|, done, current + s)
    decreases |s|
  {
    hide PartsFrom, EscapeOf, IsEscapable;
    if s == [] {
      assert current + s == current;
    } else {
      var init, c := s[..|s| - 1], s[|s| - 1];
      HasAtSplit(body, i, Escaped(init), EscapeOf(c));
      EscapedPart(body, i, done, current, init);
      EscapePart(body, i + |Escaped(init)|, done, current + init, c);
      assert current + init + [c] == current + s;
    }
  }

  lemma EscapedParts(s: wstring)
    requires IsWritten(s)
    ensures ExpandableParts(Escaped(s)) == Some([Part(false, s)])
  {
    hide Escaped, IsWritten;
    HasAtAll(Escaped(s));
    EscapedPart(Escaped(s), 0, [], [], s);
    assert [] + s == s;
    assert [] + [Part(false, s)] == [Part(false, s)];
  }

  lemma DoubleStands(text: wstring, st: Lexer, mode: Mode, p: Piece)
    requires p.Quoted? && !IsPlain(p.text) && Stands(text, st, mode, p)
    ensures var n := |Escaped(p.text)|;
            && |PieceText(p)| == n + 2 && st.index < |text| && text[st.index] == DQUOTE
               && HasAt(text, st.index + 1, Escaped(p.text))
            && st.index + 1 + n < |text| && text[st.index + 1 + n] == DQUOTE
               && !IsDoubleQuote(At(text, st.index + n + 2))
    ensures IsWritten(p.text) && PieceTokens(p) == [Token(String, [], [Part(false, p.text)], 0, false)]
  {
    hide IsSingleQuote, IsDoubleQuote, JoinsLines, Escaped, IsEscapable;
    var d := Escaped(p.text);
    ConcatAssoc([DQUOTE], d, [DQUOTE]);
    HasAtSplit(text, st.index, [DQUOTE], d + [DQUOTE]);
    HasAtUnit(text, st.index, [DQUOTE]);
    HasAtSplit(text, st.index + 1, d, [DQUOTE]);
    HasAtUnit(text, st.index + 1 + |d|, [DQUOTE]);
  }

  lemma DoubleCloses(text: wstring, i: nat)
    requires i < |text| && text[i] == DQUOTE && !IsDoubleQuote(At(text, i + 1))
    ensures DoubleQuotedEnd(text, i) == i && DoubleQuotedBody(text, i, i) == []
  {}

  lemma DoubleDispatch(text: wstring, st: Lexer, end: nat, s: wstring)
    requires st.index < |text| && text[st.index] == DQUOTE && DoubleQuotedEnd(text, st.index + 1) == end < |text|
    requires ExpandableParts(DoubleQuotedBody(text, st.index + 1, end)) == Some([Part(false, s)])
    ensures LexToken(text, st) == Some(Push(st, Token(String, [], [Part(false, s)], 0, false), end + 1))
  {
    hide LexWord, LexVariable, LexPunct, LexParameter, NumberToken, TypeEnd, SingleQuotedFrom, ExpandableParts;
    hide DoubleQuotedBody, DoubleQuotedEnd;
  }

  lemma DoubleQuotedReads(text: wstring, st: Lexer, mode: Mode, p: Piece)
    requires p.Quoted? && !IsPlain(p.text) && Stands(text, st, mode, p)
    ensures Reads(text, st, Behind(st, p))
  {
    hide *;
    DoubleStands(text, st, mode, p);
    var s := p.text;
    var end := st.index + 1 + |Escaped(s)|;
    EscapedEnds(text, st.index + 1, s);
    EscapedBody(text, st.index + 1, end, s);
    DoubleCloses(text, end);
    assert Escaped(s) + [] == Escaped(s);
    EscapedParts(s);
    NoGap(text, st) by { QuotesStart(); }
    DoubleDispatch(text, st, end, s);
    PushedIs(st, p, Token(String, [], [Part(false, s)], 0, false), end + 1);
    TokenReads(text, st, Behind(st, p));
  }

  lemma QuotedReads(text: wstring, st: Lexer, mode: Mode, p: Piece)
    requires p.Quoted? && Stands(text, st, mode, p)
    ensures Reads(text, st, Behind(st, p))
  {
    hide *;
    if IsPlain(p.text) { PlainQuotedReads(text, st, mode, p); } else { DoubleQuotedReads(text, st, mode, p); }
  }

  // ----- numbers

  lemma {:induction false} DigitsEndIs(text: wstring, i: nat, digits: wstring)
    requires HasAt(text, i, digits) && AllHex(digits) && HexDigitValue(At(text, i + |digits|)) < 0
    ensures DigitsEnd(text, i, true) == i + |digits|
    decreases |digits|
  {
    hide HexDigitValue;
    if digits != [] {
      HasAtUnit(text, i, digits);
      DigitsEndIs(text, i + 1, digits[1..]);
    }
  }

  lemma NumberDispatch(text: wstring, st: Lexer)
    requires st.index < |text| && text[st.index] == 0x30 && !st.member
    ensures LexToken(text, st) == var number :=
      NumberToken(text, st.index); if number.None? then None else Some(Push(st, number.value.0, number.value.1))
    ensures LexGap(text, st) == None
  {
    hide LexWord, LexDouble, LexVariable, LexPunct, LexParameter, NumberToken, TypeEnd, SingleQuotedFrom;
  }

  lemma ConcatOnce(a: wstring, b: wstring, c: wstring, piece: wstring)
    requires piece == (a + b) + c
    ensures piece == a + (b + c) && |piece| == |a| + |b| + |c|
  {}

  /** Where the parts of a written number stand. */
  lemma NumberStands(text: wstring, st: Lexer, mode: Mode, p: Piece, digits: wstring)
    requires p.HexNumber? && Stands(text, st, mode, p) && digits == PaddedHex(p.value, p.width)
    ensures st.index + 2 < |text| && text[st.index] == 0x30 && text[st.index + 1] == 0x78
            && HasAt(text, st.index + 2, digits)
    ensures digits != [] && AllHex(digits) && |PieceText(p)| == 2 + |digits| + (if p.long then 1 else 0)
    ensures At(text, st.index + 2 + |digits|) == if p.long then 0x4C else At(text, st.index + |PieceText(p)|)
    ensures !IsIdentifier(At(text, st.index + |PieceText(p)|)) && !st.member && p.value < 0x1_0000_0000_0000_0000
    ensures text[st.index..st.index + |PieceText(p)|] == PieceText(p)
  {
    hide IsIdentifier, JoinsLines, PaddedHex;
    assert digits != [] by { PaddedLength(p.value, p.width); }
    var long: wstring := if p.long then [0x4C] else [];
    ConcatOnce(HEX_MARK, digits, long, PieceText(p));
    HasAtSplit(text, st.index, HEX_MARK, digits + long);
    HasAtUnit(text, st.index, HEX_MARK);
    HasAtUnit(text, st.index + 1, HEX_MARK[1..]);
    HasAtSplit(text, st.index + 2, digits, long);
    if p.long { HasAtUnit(text, st.index + 2 + |digits|, long); }
  }

  lemma PaddedLength(value: nat, width: nat)
    ensures PaddedHex(value, width) != []
  {}

  lemma NumberTokenIs(text: wstring, start: nat, digits: wstring, end: nat, long: bool)
    requires start + 2 < |text| && text[start] == 0x30 && text[start + 1] == 0x78 && HasAt(text, start + 2, digits)
    requires digits != [] && AllHex(digits) && HexValue(digits) < 0x1_0000_0000_0000_0000
    requires At(text, start + 2 + |digits|) == (if long then 0x4C
                                                else
                                                  At(text, end)) && end == start + 2 + |digits|
                                                    + (if long then 1 else 0)
    requires !IsIdentifier(At(text, end))
    ensures end <= |text| && NumberToken(text, start)
            == Some((NumberOf(text[start..end], HexValue(digits) as uint64, true, long, false), end))
  {
    hide *;
    var last := start + 2 + |digits|;
    NumberEnds(text, start, digits, end, long);
    PrefixedHexParses(digits, 10);
    assert HEX_MARK == [0x30, 0x78] && text[start + 2..last] == digits by { MarkIs(text, start + 2, digits); }
    NumberUnfolds(text, start, last, end);
  }

  lemma MarkIs(text: wstring, at: nat, digits: wstring)
    requires HasAt(text, at, digits)
    ensures HEX_MARK == [0x30, 0x78] && at + |digits| <= |text| && text[at..at + |digits|] == digits
  {}

  lemma NumberEnds(text: wstring, start: nat, digits: wstring, end: nat, long: bool)
    requires start + 2 < |text| && text[start] == 0x30 && text[start + 1] == 0x78 && HasAt(text, start + 2, digits)
    requires digits != [] && AllHex(digits)
    requires At(text, start + 2 + |digits|) == (if long then 0x4C
                                                else
                                                  At(text, end)) && end == start + 2 + |digits|
                                                    + (if long then 1 else 0)
    requires !IsIdentifier(At(text, end))
    ensures var last := start + 2 + |digits|;
            && IsHexMark(text, SignEnd(text, start)) && DigitsStart(text, start) == start + 2
               && DigitsEnd(text, start + 2, true) == last <= |text|
            && SuffixEnd(text, last) == end && end > start + 2 && (end > last <==> long) && text[start] != MINUS
  {
    var last := start + 2 + |digits|;
    DigitsEndIs(text, start + 2, digits);
    hide DigitsEnd, AllHex, HexDigitValue;
  }

  lemma NumberUnfolds(text: wstring, start: nat, last: nat, end: nat)
    requires start < |text| && start + 2 <= last <= |text|
    requires IsHexMark(text, SignEnd(text, start)) && DigitsStart(text, start) == start + 2
             && DigitsEnd(text, start + 2, true) == last
    requires SuffixEnd(text, last) == end && end > start + 2 && text[start] != MINUS && !IsIdentifier(At(text, end))
    requires ParseUnsignedNumber(HEX_MARK + text[start + 2..last], 10).Some?
    ensures NumberToken(text, start) ==
              Some((NumberOf(text[start..end], ParseUnsignedNumber(HEX_MARK + text[start + 2..last], 10).value, true,
                             end > last, false), end))
  {
    hide ParseUnsignedNumber, DigitsEnd, DigitsStart, SuffixEnd, IsHexMark, SignEnd, IsIdentifier, NumberOf;
  }

  lemma NumberReads(text: wstring, st: Lexer, mode: Mode, p: Piece)
    requires p.HexNumber? && Stands(text, st, mode, p)
    ensures Reads(text, st, Behind(st, p))
  {
    hide *;
    var digits := PaddedHex(p.value, p.width);
    NumberStands(text, st, mode, p, digits);
    PaddedHexValue(p.value, p.width);
    var end := st.index + |PieceText(p)|;
    NumberTokenIs(text, st.index, digits, end, p.long);
    NumberDispatch(text, st);
    var token := NumberOf(PieceText(p), p.value as uint64, true, p.long, false);
    assert PieceTokens(p) == [token] by { NumberTokens(p); }
    PushedIs(st, p, token, end);
    TokenReads(text, st, Behind(st, p));
  }

  lemma NumberTokens(p: Piece)
    requires p.HexNumber? && p.value < 0x1_0000_0000_0000_0000
    ensures PieceTokens(p) == [NumberOf(PieceText(p), p.value as uint64, true, p.long, false)]
  {
    hide PieceText, NumberOf;
  }
}
