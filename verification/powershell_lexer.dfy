/** The tokens of a PowerShell script. */
module PowerShellLexer {
  import opened Text
  import opened ValueFormat

  predicate IsSingleQuote(c: wchar) {
    c == SQUOTE || 0x2018 <= c <= 0x201B
  }

  predicate IsDoubleQuote(c: wchar) {
    c == DQUOTE || 0x201C <= c <= 0x201E
  }

  predicate IsIdentifier(c: wchar) {
    IsLetter(c) || IsDigit(c) || c == UNDERSCORE
  }

  datatype Kind = End | Newline | String | Number | Variable | Parameter | Type | Word | Punct

  /** A piece of an expandable string: text, or the name of a variable. */
  datatype Part = Part(isVariable: bool, text: wstring)

  datatype Token = Token(kind: Kind, text: wstring, parts: seq<Part>, number: int, wide: bool)

  function Plain(kind: Kind, text: wstring): Token {
    Token(kind, text, [], 0, false)
  }

  /** The unit at a position, NUL behind the end. */
  function At(text: wstring, i: nat): wchar {
    if i < |text| then text[i] else NUL
  }

  // ----- expandable strings

  /** What a backtick and a unit stand for. */
  function EscapedUnit(c: wchar): wchar {
    if c == 0x30 then NUL
    else if c == 0x61 then 0x07
    else if c == 0x62 then 0x08
    else if c == 0x65 then 0x1B
    else if c == 0x66 then 0x0C
    else if c == 0x6E then LF
    else if c == 0x72 then CR
    else if c == 0x74 then TAB
    else if c == 0x76 then 0x0B
    else c
  }

  /** The end of a variable name: identifier units, and a colon before one. */
  function NameEnd(text: wstring, i: nat): (r: nat)
    ensures i <= r && (i <= |text| ==> r <= |text|)
    decreases |text| - i
  {
    if i < |text| && (IsIdentifier(text[i]) || (text[i] == COLON && IsIdentifier(At(text, i + 1)))) then
      NameEnd(text, i + 1) else i
  }

  function PartsFrom(body: wstring, i: nat, done: seq<Part>, current: wstring): Option<seq<Part>>
    decreases |body| - i
  {
    if i >= |body| then Some(done + [Part(false, current)])
    else
      var c, more := body[i], i + 1 < |body|;
      if c == BACKTICK && more then PartsFrom(body, i + 2, done, current + [EscapedUnit(body[i + 1])])
      else if c == DOLLAR && more && body[i + 1] == LPAREN then None
      else if c == DOLLAR && more && body[i + 1] == LBRACE then
        var close := Find(body, RBRACE, i + 1);
        if close == -1 then None
        else PartsFrom(body, close + 1, done + [Part(false, current), Part(true, body[i + 2..close])], [])
      else if c == DOLLAR && more && IsIdentifier(body[i + 1]) then
        var end := NameEnd(body, i + 1);
        PartsFrom(body, end, done + [Part(false, current), Part(true, body[i + 1..end])], [])
      else PartsFrom(body, i + 1, done, current + [c])
  }

  /** Text and variables of an expandable string; subexpressions are refused. */
  function ExpandableParts(body: wstring): Option<seq<Part>> {
    PartsFrom(body, 0, [], [])
  }

  method ReadParts(body: wstring) returns (parts: Option<seq<Part>>)
    ensures parts == ExpandableParts(body)
  {
    hide Find, NameEnd, EscapedUnit;
    var done: seq<Part> := [];
    var current: wstring := [];
    var i := 0;
    while i < |body|
      invariant PartsFrom(body, i, done, current) == ExpandableParts(body)
      decreases |body| - i
    {
      var c, more := body[i], i + 1 < |body|;
      if c == BACKTICK && more {
        current := current + [EscapedUnit(body[i + 1])];
        i := i + 2;
      } else if c == DOLLAR && more && body[i + 1] == LPAREN {
        return None;
      } else if c == DOLLAR && more && body[i + 1] == LBRACE {
        var close := Find(body, RBRACE, i + 1);
        if close == -1 {
          return None;
        }
        done := done + [Part(false, current), Part(true, body[i + 2..close])];
        current := [];
        i := close + 1;
      } else if c == DOLLAR && more && IsIdentifier(body[i + 1]) {
        var end := NameEnd(body, i + 1);
        done := done + [Part(false, current), Part(true, body[i + 1..end])];
        current := [];
        i := end;
      } else {
        current := current + [c];
        i := i + 1;
      }
    }
    parts := Some(done + [Part(false, current)]);
  }

  // ----- quoted strings

  /** The inside of a single-quoted string from `i` on: a doubled quote is one, a single one ends it. */
  function SingleQuotedFrom(text: wstring, i: nat, value: wstring): (r: Option<(wstring, nat)>)
    ensures r.Some? ==> i <= r.value.1 < |text|
    decreases |text| - i
  {
    if i >= |text| then None
    else if IsSingleQuote(text[i]) then
      if IsSingleQuote(At(text, i + 1)) then SingleQuotedFrom(text, i + 2, value + [At(text, i + 1)])
      else Some((value, i))
    else SingleQuotedFrom(text, i + 1, value + [text[i]])
  }

  method ReadSingleQuoted(text: wstring, start: nat) returns (read: Option<(wstring, nat)>)
    ensures read == SingleQuotedFrom(text, start, [])
  {
    hide IsSingleQuote;
    var i := start;
    var value: wstring := [];
    while true
      invariant SingleQuotedFrom(text, i, value) == SingleQuotedFrom(text, start, [])
      decreases |text| - i
    {
      if i >= |text| {
        return None;
      }
      if IsSingleQuote(text[i]) && !IsSingleQuote(At(text, i + 1)) {
        return Some((value, i));
      }
      if IsSingleQuote(text[i]) {
        i := i + 1;
      }
      value := value + [At(text, i)];
      i := i + 1;
    }
  }

  /** The position of the closing quote of a double-quoted string, or one behind the end. */
  function DoubleQuotedEnd(text: wstring, i: nat): (r: nat)
    ensures i <= r
    decreases |text| - i
  {
    if i >= |text| then i
    else if text[i] == BACKTICK then DoubleQuotedEnd(text, i + 2)
    else if IsDoubleQuote(text[i]) && IsDoubleQuote(At(text, i + 1)) then DoubleQuotedEnd(text, i + 2)
    else if IsDoubleQuote(text[i]) then i
    else DoubleQuotedEnd(text, i + 1)
  }

  /** The inside with every doubled quote and escape led by a backtick. */
  function DoubleQuotedBody(text: wstring, i: nat, end: nat): wstring
    requires end <= |text|
    decreases end - i
  {
    if i >= end then []
    else if (text[i] == BACKTICK || IsDoubleQuote(text[i])) && i + 1 < end then
      [BACKTICK, text[i + 1]] + DoubleQuotedBody(text, i + 2, end)
    else [text[i]] + DoubleQuotedBody(text, i + 1, end)
  }

  method ReadDoubleQuoted(text: wstring, start: nat) returns (body: Option<wstring>, end: nat)
    ensures end == DoubleQuotedEnd(text, start)
    ensures body == if end >= |text| then None else Some(DoubleQuotedBody(text, start, end))
  {
    hide IsDoubleQuote;
    end := start;
    while end < |text| && (text[end] == BACKTICK || !IsDoubleQuote(text[end]) || IsDoubleQuote(At(text, end + 1)))
      invariant start <= end && DoubleQuotedEnd(text, end) == DoubleQuotedEnd(text, start)
      decreases |text| - end
    {
      end := end + if text[end] == BACKTICK || IsDoubleQuote(text[end]) then 2 else 1;
    }
    assert DoubleQuotedEnd(text, end) == end;
    if end >= |text| {
      return None, end;
    }
    var out: wstring := [];
    var position := start;
    assert [] + DoubleQuotedBody(text, start, end) == DoubleQuotedBody(text, start, end);
    while position < end
      invariant position <= end
      invariant out + DoubleQuotedBody(text, position, end) == DoubleQuotedBody(text, start, end)
      decreases end - position
    {
      if (text[position] == BACKTICK || IsDoubleQuote(text[position])) && position + 1 < end {
        ConcatAssoc(out, [BACKTICK, text[position + 1]], DoubleQuotedBody(text, position + 2, end));
        out := out + [BACKTICK, text[position + 1]];
        position := position + 2;
      } else {
        ConcatAssoc(out, [text[position]], DoubleQuotedBody(text, position + 1, end));
        out := out + [text[position]];
        position := position + 1;
      }
    }
    assert out + [] == out;
    body := Some(out);
  }

  // ----- other tokens

  function LineEnd(text: wstring, i: nat): (r: nat)
    ensures i <= r
    decreases |text| - i
  {
    if i < |text| && text[i] != LF then LineEnd(text, i + 1) else i
  }

  function CommentEnd(text: wstring, i: nat): (r: int)
    ensures r == -1 || i <= r < |text|
    decreases |text| - i
  {
    if i >= |text| then -1
    else if text[i] == HASH && At(text, i + 1) == GREATER then i
    else CommentEnd(text, i + 1)
  }

  /** The bracket that closes a type name, or -1. */
  function TypeEnd(text: wstring, i: nat, nesting: int): (r: int)
    ensures r == -1 || i <= r < |text|
    decreases |text| - i
  {
    if i >= |text| then -1
    else
      var n := nesting + if text[i] == LBRACKET then 1 else if text[i] == RBRACKET then -1 else 0;
      if n == 0 then i else TypeEnd(text, i + 1, n)
  }

  function IdentifierEnd(text: wstring, i: nat): (r: nat)
    ensures i <= r && (i <= |text| ==> r <= |text|)
    decreases |text| - i
  {
    if i < |text| && IsIdentifier(text[i]) then IdentifierEnd(text, i + 1) else i
  }

  function DigitsEnd(text: wstring, i: nat, hex: bool): (r: nat)
    ensures i <= r && (i <= |text| ==> r <= |text|)
    decreases |text| - i
  {
    if i < |text| && (if hex then HexDigitValue(text[i]) >= 0 else IsDigit(text[i])) then DigitsEnd(text, i + 1, hex)
    else i
  }

  predicate IsHexMark(text: wstring, at: nat) {
    At(text, at) == 0x30 && (At(text, at + 1) == 0x78 || At(text, at + 1) == 0x58)
  }

  function SignEnd(text: wstring, start: nat): nat {
    if At(text, start) == MINUS then start + 1 else start
  }

  /** Where the digits of a number start: behind a sign and a hexadecimal mark. */
  function DigitsStart(text: wstring, start: nat): (r: nat)
    requires start < |text|
    ensures start <= r <= |text|
  {
    if IsHexMark(text, SignEnd(text, start)) then SignEnd(text, start) + 2 else SignEnd(text, start)
  }

  function SuffixEnd(text: wstring, last: nat): (r: nat)
    requires last <= |text|
    ensures last <= r <= |text|
  {
    if At(text, last) == 0x6C || At(text, last) == 0x4C then last + 1 else last
  }

  /** The number that digits, sign and suffix spell; hexadecimal numbers up to 32 bits are signed ints. */
  function NumberOf(text: wstring, value: uint64, hex: bool, suffix: bool, negative: bool): Token {
    var v := value as int;
    var wide := suffix || (if hex then v > 0xFFFF_FFFF else v > 0x7FFF_FFFF);
    var signed := if hex && !wide then SignedInt(v) else SignedLong(v);
    Token(Number, text, [], if negative then -signed else signed, wide)
  }

  const HEX_MARK: wstring := [0x30, 0x78]

  /** A number token from `start` on, and where it ends. */
  function NumberToken(text: wstring, start: nat): (r: Option<(Token, nat)>)
    requires start < |text|
    ensures r.Some? ==> start < r.value.1 <= |text|
  {
    hide ParseUnsignedNumber;
    var hex := IsHexMark(text, SignEnd(text, start));
    var digits := DigitsStart(text, start);
    var last := DigitsEnd(text, digits, hex);
    var end := SuffixEnd(text, last);
    if end == digits || IsIdentifier(At(text, end)) then None
    else
      var value := ParseUnsignedNumber((if hex then HEX_MARK else []) + text[digits..last], 10);
      if value.None? then None
      else Some((NumberOf(text[start..end], value.value, hex, end > last, text[start] == MINUS), end))
  }

  function SignedInt(v: int): int {
    if v % 0x1_0000_0000 < 0x8000_0000 then v % 0x1_0000_0000 else v % 0x1_0000_0000 - 0x1_0000_0000
  }

  function SignedLong(v: int): int {
    if v % 0x1_0000_0000_0000_0000 < 0x8000_0000_0000_0000 then v % 0x1_0000_0000_0000_0000
    else v % 0x1_0000_0000_0000_0000 - 0x1_0000_0000_0000_0000
  }

  const WORD_STOPS := W("(){},;|=\"'`$")

  function WordEnd(text: wstring, i: nat, member: bool): (r: nat)
    ensures i <= r && (i <= |text| ==> r <= |text|)
    decreases |text| - i
  {
    if i >= |text| || IsSpace(text[i]) || text[i] in WORD_STOPS || (member && !IsIdentifier(text[i]))
       || (text[i] == COLON && At(text, i + 1) == COLON) || IsSingleQuote(text[i]) || IsDoubleQuote(text[i]) then
    i
    else WordEnd(text, i + 1, member)
  }

  const PUNCTS := W("(){},=|!")

  // ----- the tokens

  /** Where the tokenizer is: position, tokens, open parentheses, the end of the last token, and whether a member name
      follows. */
  datatype Lexer = Lexer(index: nat, tokens: seq<Token>, depth: int, lastEnd: int, member: bool)

  function Skip(st: Lexer, index: nat): Lexer {
    st.(index := index, member := false)
  }

  function Push(st: Lexer, token: Token, index: nat): Lexer {
    st.(index := index, tokens := st.tokens + [token], lastEnd := index, member := false)
  }

  predicate JoinsLines(tokens: seq<Token>) {
    tokens != [] && tokens[|tokens| - 1].kind == Punct
      && (tokens[|tokens| - 1].text == W("|") || tokens[|tokens| - 1].text == W(","))
  }

  /** Blanks, line ends and comments; None when a token starts here. */
  function LexGap(text: wstring, st: Lexer): (r: Option<Option<Lexer>>)
    requires st.index < |text|
    ensures r.Some? && r.value.Some? ==> r.value.value.index > st.index
  {
    var i, c := st.index, text[st.index];
    if c == SPACE || c == TAB || c == CR || c == 0xFEFF then Some(Some(Skip(st, i + 1)))
    else if c == BACKTICK && At(text, i + 1) == LF then Some(Some(Skip(st, i + 2)))
    else if c == BACKTICK && At(text, i + 1) == CR && At(text, i + 2) == LF then Some(Some(Skip(st, i + 3)))
    else if c == LF || c == SEMICOLON then
      if st.depth == 0 && !(c == LF && JoinsLines(st.tokens)) then
        Some(Some(Skip(st, i + 1).(tokens := st.tokens + [Plain(Newline, [])])))
      else Some(Some(Skip(st, i + 1)))
    else if c == HASH then Some(Some(Skip(st, LineEnd(text, i + 1))))
    else if c == LESS && At(text, i + 1) == HASH then
      var close := CommentEnd(text, i + 2);
      Some(if close == -1 then None else Some(Skip(st, close + 2)))
    else None
  }

  function LexDouble(text: wstring, st: Lexer): (r: Option<Lexer>)
    requires st.index < |text|
    ensures r.Some? ==> r.value.index > st.index
  {
    var end := DoubleQuotedEnd(text, st.index + 1);
    if end >= |text| then None
    else
      var parts := ExpandableParts(DoubleQuotedBody(text, st.index + 1, end));
      if parts.None? then None else Some(Push(st, Token(String, [], parts.value, 0, false), end + 1))
  }

  function LexVariable(text: wstring, st: Lexer): (r: Option<Lexer>)
    requires st.index < |text|
    ensures r.Some? ==> r.value.index > st.index
  {
    var i := st.index + 1;
    if At(text, i) == LBRACE then
      var close := Find(text, RBRACE, i);
      if close == -1 then None else Some(Push(st, Plain(Variable, text[i + 1..close]), close + 1))
    else Some(Push(st, Plain(Variable, text[i..NameEnd(text, i)]), NameEnd(text, i)))
  }

  function LexPunct(text: wstring, st: Lexer): (r: Lexer)
    requires st.index < |text|
    ensures r.index > st.index
  {
    var c := text[st.index];
    Push(st, Plain(Punct, [c]), st.index + 1).(depth := st.depth + if c == LPAREN then 1
                                                                   else if c == RPAREN then -1 else 0)
  }

  function LexWord(text: wstring, st: Lexer): (r: Option<Lexer>)
    requires st.index < |text|
    ensures r.Some? ==> r.value.index > st.index
  {
    var end := WordEnd(text, st.index, st.member);
    if end == st.index then None else Some(Push(st, Plain(Word, text[st.index..end]), end))
  }

  function LexParameter(text: wstring, st: Lexer): (r: Lexer)
    requires st.index < |text|
    ensures r.index > st.index
  {
    var end := IdentifierEnd(text, st.index + 1);
    var last := if At(text, end) == COLON then end + 1 else end;
    Push(st, Plain(Parameter, text[st.index + 1..last]), last)
  }

  /** One token; here-strings are outside the model. */
  function LexToken(text: wstring, st: Lexer): (r: Option<Lexer>)
    requires st.index < |text|
    ensures r.Some? ==> r.value.index > st.index
  {
    var i, c := st.index, text[st.index];
    var next := At(text, i + 1);
    if c == AT && (IsSingleQuote(next) || IsDoubleQuote(next))
      && (At(text, i + 2) == LF || At(text, i + 2) == CR) then None
    else if IsSingleQuote(c) then
      var read := SingleQuotedFrom(text, i + 1, []);
      if read.None? then None else Some(Push(st, Plain(String, read.value.0), read.value.1 + 1))
    else if IsDoubleQuote(c) then LexDouble(text, st)
    else if c == DOLLAR then LexVariable(text, st)
    else if c == LBRACKET then
      var end := TypeEnd(text, i + 1, 1);
      if end == -1 then None else Some(Push(st, Plain(Type, TrimWhitespace(text[i + 1..end])), end + 1))
    else if c == AT && next == LPAREN then Some(Push(st, Plain(Punct, W("@(")), i + 2).(depth := st.depth + 1))
    else if c == COLON && next == COLON then Some(Push(st, Plain(Punct, W("::")), i + 2).(member := true))
    else if c == DOT && st.lastEnd == i
      && st.tokens != [] then Some(Push(st, Plain(Punct, W(".")), i + 1).(member := true))
    else if c in PUNCTS then Some(LexPunct(text, st))
    else if c == MINUS && IsLetter(next) then Some(LexParameter(text, st))
    else if !st.member && (IsDigit(c) || (c == MINUS && IsDigit(next))) then
      var number := NumberToken(text, i);
      if number.None? then None else Some(Push(st, number.value.0, number.value.1))
    else LexWord(text, st)
  }

  function LexFrom(text: wstring, st: Lexer): Option<seq<Token>>
    decreases |text| - st.index
  {
    if st.index >= |text| then Some(st.tokens + [Plain(Newline, []), Plain(End, [])])
    else
      var gap := LexGap(text, st);
      var after := if gap.Some? then gap.value else LexToken(text, st);
      if after.None? then None else LexFrom(text, after.value)
  }

  const LEXER_START := Lexer(0, [], 0, -1, false)

  function Tokens(text: wstring): Option<seq<Token>> {
    LexFrom(text, LEXER_START)
  }

  method Tokenize(text: wstring) returns (tokens: Option<seq<Token>>)
    ensures tokens == Tokens(text)
  {
    hide LexGap, LexDouble, LexVariable, LexPunct, LexWord, LexParameter, SingleQuotedFrom, ExpandableParts, TypeEnd;
    hide TrimWhitespace, NumberToken,
      IsSingleQuote, IsDoubleQuote, LexToken;
    var st := LEXER_START;
    while st.index < |text|
      invariant LexFrom(text, st) == Tokens(text)
      decreases |text| - st.index
    {
      var gap := LexGap(text, st);
      if gap.Some? {
        if gap.value.None? {
          return None;
        }
        st := gap.value.value;
        continue;
      }
      var after := ReadToken(text, st);
      if after.None? {
        return None;
      }
      st := after.value;
    }
    tokens := Some(st.tokens + [Plain(Newline, []), Plain(End, [])]);
  }

  /** One token, its quoted strings read by their loops. */
  method ReadToken(text: wstring, st: Lexer) returns (after: Option<Lexer>)
    requires st.index < |text|
    ensures after == LexToken(text, st)
  {
    hide LexVariable, LexPunct, LexWord, LexParameter, SingleQuotedFrom, ExpandableParts, TypeEnd, TrimWhitespace;
    hide NumberToken,
      DoubleQuotedEnd, DoubleQuotedBody, W;
    var c, next := text[st.index], At(text, st.index + 1);
    var isHereString := c == AT && (IsSingleQuote(next) || IsDoubleQuote(next))
      && (At(text, st.index + 2) == LF || At(text, st.index + 2) == CR);
    if !isHereString && IsSingleQuote(c) {
      var read := ReadSingleQuoted(text, st.index + 1);
      if read.None? {
        return None;
      }
      return Some(Push(st, Plain(String, read.value.0), read.value.1 + 1));
    }
    if !isHereString && IsDoubleQuote(c) {
      var body, end := ReadDoubleQuoted(text, st.index + 1);
      if body.None? {
        return None;
      }
      var parts := ReadParts(body.value);
      if parts.None? {
        return None;
      }
      return Some(Push(st, Token(String, [], parts.value, 0, false), end + 1));
    }
    after := LexToken(text, st);
  }
}
