/** Written pieces of a script and the tokens they are read as. */
module PowerShellPieces {
  import opened Text
  import opened ValueFormat
  import opened PowerShellLexer
  import opened PowerShellWriter

  /** A piece of a written line. */
  datatype Piece =
    | Blank(unit: wchar)
    | Remark(text: wstring)
    | Feed
    | Var(name: wstring)
    | Name(text: wstring)
    | Option(name: wstring)
    | Mark(unit: wchar)
    | Access
    | Scope
    | ListStart
    | TypeName(name: wstring, isArray: bool)
    | Quoted(text: wstring)
    | HexNumber(value: nat, width: nat, long: bool)

  function PieceText(p: Piece): wstring {
    match p
    case Blank(c) => [c]
    case Remark(text) => [HASH] + text
    case Feed => [LF]
    case Var(name) => [DOLLAR] + name
    case Name(text) => text
    case Option(name) => [MINUS] + name
    case Mark(c) => [c]
    case Access => [DOT]
    case Scope => [COLON, COLON]
    case ListStart => [AT, LPAREN]
    case TypeName(name, isArray) => [LBRACKET] + TypeText(name, isArray) + [RBRACKET]
    case Quoted(text) => QuotedText(text)
    case HexNumber(value, width, long) => Hex(value, width) + if long then [0x4C] else []
  }

  function TypeText(name: wstring, isArray: bool): wstring {
    name + if isArray then [LBRACKET, RBRACKET] else []
  }

  function QuotedToken(text: wstring): Token {
    if IsPlain(text) then Plain(String, text) else Token(String, [], [Part(false, text)], 0, false)
  }

  /** The tokens of a piece. */
  function PieceTokens(p: Piece): seq<Token> {
    match p
    case Blank(_) => []
    case Remark(_) => []
    case Feed => [Plain(Newline, [])]
    case Var(name) => [Plain(Variable, name)]
    case Name(text) => [Plain(Word, text)]
    case Option(name) => [Plain(Parameter, name)]
    case Mark(c) => [Plain(Punct, [c])]
    case Access => [Plain(Punct, W("."))]
    case Scope => [Plain(Punct, W("::"))]
    case ListStart => [Plain(Punct, W("@("))]
    case TypeName(name, isArray) => [Plain(Type, TypeText(name, isArray))]
    case Quoted(text) => [QuotedToken(text)]
    case HexNumber(value, width, long) =>
      [NumberOf(PieceText(p), (value % 0x1_0000_0000_0000_0000) as uint64, true, long, false)]
  }

  // ----- what may stand where

  /** What the next piece depends on: open parentheses, whether a token ends here, whether a member name follows,
      and whether a line end is joined. */
  datatype Mode = Mode(depth: int, touching: bool, member: bool, joins: bool)

  predicate AreIdentifiers(text: wstring) {
    text != [] && forall i :: 0 <= i < |text| ==> IsIdentifier(text[i])
  }

  predicate IsBare(c: wchar) {
    IsIdentifier(c) || c == MINUS
  }

  predicate AreBare(text: wstring) {
    text != [] && IsLetter(text[0]) && forall i :: 0 <= i < |text| ==> IsBare(text[i])
  }

  predicate IsTypeName(name: wstring) {
    name != [] && forall i :: 0 <= i < |name| ==> IsIdentifier(name[i]) || name[i] == DOT
  }

  /** Whether the piece is read as its tokens in this mode, with `next` behind it. */
  predicate Fits(mode: Mode, p: Piece, next: wchar) {
    match p
    case Blank(c) => c == SPACE || c == CR
    case Remark(text) => LF !in text && next == LF
    case Feed => mode.depth == 0 && !mode.joins
    case Var(name) => AreIdentifiers(name) && !IsIdentifier(next) && next != COLON
    case Name(text) =>
      if mode.member then AreIdentifiers(text) && IsLetter(text[0]) && !IsIdentifier(next)
      else AreBare(text) && next == SPACE
    case Option(name) => AreIdentifiers(name) && IsLetter(name[0]) && next == SPACE
    case Mark(c) => c == LPAREN || c == RPAREN || c == COMMA || c == EQUALS
    case Access => mode.touching
    case Scope => true
    case ListStart => true
    case TypeName(name, _) => IsTypeName(name)
    case Quoted(text) => Literal(text).Some? && !IsSingleQuote(next) && !IsDoubleQuote(next)
    case HexNumber(value, _, _) => value < 0x1_0000_0000_0000_0000 && !mode.member && !IsIdentifier(next)
  }

  function After(mode: Mode, p: Piece): Mode {
    match p
    case Blank(_) => mode.(touching := false, member := false)
    case Remark(_) => mode.(touching := false, member := false)
    case Feed => Mode(mode.depth, false, false, false)
    case Mark(c) => Mode(mode.depth + if c == LPAREN then 1 else if c == RPAREN then -1 else 0, true, false, c == COMMA)
    case ListStart => Mode(mode.depth + 1, true, false, false)
    case _ => Mode(mode.depth, true, p.Access? || p.Scope?, false)
  }

  predicate Matches(st: Lexer, mode: Mode) {
    && st.depth == mode.depth && st.member == mode.member
    && (mode.touching ==> st.lastEnd == st.index && st.tokens != [])
    && JoinsLines(st.tokens) == mode.joins
  }

  /** The lexer behind a piece. */
  function Behind(st: Lexer, p: Piece): Lexer {
    var index := st.index + |PieceText(p)|;
    var tokens := st.tokens + PieceTokens(p);
    if p.Blank? || p.Remark? || p.Feed? then Lexer(index, tokens, st.depth, st.lastEnd, false)
    else
      Lexer(index, tokens, st.depth + (if p.ListStart? || p == Mark(LPAREN) then 1
                                       else if p == Mark(RPAREN) then -1 else 0), index,
            p.Access? || p.Scope?)
  }

  lemma BehindMatches(st: Lexer, mode: Mode, p: Piece, next: wchar)
    requires Matches(st, mode) && Fits(mode, p, next)
    ensures Matches(Behind(st, p), After(mode, p))
  {
    MarksJoin();
    hide W, IsIdentifier, IsTypeName, Literal, Hex, QuotedText, SignedInt, SignedLong, AreIdentifiers, AreBare;
    hide IsSingleQuote, IsDoubleQuote;
    var t := Behind(st, p).tokens;
    if p.Blank? || p.Remark? {
      assert t == st.tokens;
    } else {
      assert t[|t| - 1] == PieceTokens(p)[0];
    }
  }

  lemma MarksJoin()
    ensures W("|") == [BAR] && W(",") == [COMMA] && W(".")[0] == DOT && W("::")[0] == COLON && W("@(")[0] == AT
    ensures [COMMA][0] == COMMA && [BAR][0] == BAR
  {}

  // ----- one piece

  /** The text is read from one lexer on as from a later one on. */
  predicate Reads(text: wstring, st: Lexer, later: Lexer) {
    LexFrom(text, st) == LexFrom(text, later)
  }

  lemma GapReads(text: wstring, st: Lexer, after: Lexer)
    requires st.index < |text| && LexGap(text, st) == Some(Some(after))
    ensures Reads(text, st, after)
  {
    hide LexGap, LexToken;
  }

  lemma TokenReads(text: wstring, st: Lexer, after: Lexer)
    requires st.index < |text| && LexGap(text, st) == None && LexToken(text, st) == Some(after)
    ensures Reads(text, st, after)
  {
    hide LexGap, LexToken;
  }

  lemma NoGap(text: wstring, st: Lexer)
    requires st.index < |text|
    requires var c := text[st.index];
             IsIdentifier(c) || c in [DOLLAR, MINUS, LPAREN, RPAREN, COMMA, EQUALS, DOT, COLON, AT, LBRACKET, SQUOTE,
                                      DQUOTE]
    ensures LexGap(text, st) == None
  {}

  /** A piece stands at the lexer and fits there. */
  predicate Stands(text: wstring, st: Lexer, mode: Mode, p: Piece) {
    HasAt(text, st.index, PieceText(p)) && Matches(st, mode) && Fits(mode, p, At(text, st.index + |PieceText(p)|))
  }

  lemma BlankReads(text: wstring, st: Lexer, mode: Mode, p: Piece)
    requires p.Blank? && Stands(text, st, mode, p)
    ensures Reads(text, st, Behind(st, p))
  {
    HasAtUnit(text, st.index, [p.unit]);
    NothingAround(st.tokens);
    GapReads(text, st, Behind(st, p)) by { hide LexFrom, JoinsLines; }
  }

  lemma FeedReads(text: wstring, st: Lexer, mode: Mode, p: Piece)
    requires p.Feed? && Stands(text, st, mode, p)
    ensures Reads(text, st, Behind(st, p))
  {
    HasAtUnit(text, st.index, [LF]);
    GapReads(text, st, Behind(st, p)) by { hide LexFrom, JoinsLines; }
  }

  lemma {:induction false} LineEndIs(text: wstring, i: nat, rest: wstring)
    requires HasAt(text, i, rest) && LF !in rest && At(text, i + |rest|) == LF
    ensures LineEnd(text, i) == i + |rest|
    decreases |rest|
  {
    if rest != [] {
      HasAtUnit(text, i, rest);
      LineEndIs(text, i + 1, rest[1..]);
    }
  }

  lemma RemarkReads(text: wstring, st: Lexer, mode: Mode, p: Piece)
    requires p.Remark? && Stands(text, st, mode, p)
    ensures Reads(text, st, Behind(st, p))
  {
    HasAtSplit(text, st.index, [HASH], p.text);
    HasAtUnit(text, st.index, [HASH]);
    LineEndIs(text, st.index + 1, p.text);
    NothingAround(st.tokens);
    GapReads(text, st, Behind(st, p)) by { hide LexFrom, LineEnd, JoinsLines; }
  }

  lemma {:induction false} NameEndIs(text: wstring, i: nat, name: wstring)
    requires HasAt(text, i, name) && forall k :: 0 <= k < |name| ==> IsIdentifier(name[k])
    requires !IsIdentifier(At(text, i + |name|)) && At(text, i + |name|) != COLON
    ensures NameEnd(text, i) == i + |name|
    decreases |name|
  {
    hide IsIdentifier;
    if name != [] {
      HasAtUnit(text, i, name);
      NameEndIs(text, i + 1, name[1..]);
    }
  }

  lemma VarReads(text: wstring, st: Lexer, mode: Mode, p: Piece)
    requires p.Var? && Stands(text, st, mode, p)
    ensures Reads(text, st, Behind(st, p))
  {
    hide LexFrom, LexGap, LexToken, JoinsLines, NameEnd, HasAt, Matches;
    HasAtSplit(text, st.index, [DOLLAR], p.name);
    HasAtUnit(text, st.index, [DOLLAR]);
    HasAtUnit(text, st.index + 1, p.name);
    NameEndIs(text, st.index + 1, p.name);
    NoGap(text, st);
    assert At(text, st.index + 1) != LBRACE;
    DollarDispatch(text, st);
    TokenReads(text, st, Behind(st, p)) by { hide LexFrom, LexGap, LexToken, JoinsLines, NameEnd, IsIdentifier,
                                            Matches; }
  }

  lemma DollarDispatch(text: wstring, st: Lexer)
    requires st.index < |text| && text[st.index] == DOLLAR
    ensures LexToken(text, st) == LexVariable(text, st)
  {
    hide LexWord, LexDouble, LexVariable, LexPunct, LexParameter, NumberToken, TypeEnd;
  }

  lemma {:induction false} WordEndIs(text: wstring, i: nat, word: wstring, member: bool)
    requires HasAt(text, i, word)
    requires forall k :: 0 <= k < |word| ==> if member then IsIdentifier(word[k]) else IsBare(word[k])
    requires i + |word| == |text| || if member then !IsIdentifier(At(text, i + |word|))
                                     else At(text, i + |word|) == SPACE
    ensures WordEnd(text, i, member) == i + |word|
    decreases |word|
  {
    if word != [] {
      HasAtUnit(text, i, word);
      WordEndIs(text, i + 1, word[1..], member) by { hide IsIdentifier, IsBare; }
      hide IsIdentifier, IsSpace, WORD_STOPS, IsSingleQuote, IsDoubleQuote, IsBare;
    } else {
      assert IsSpace(SPACE);
    }
  }

  lemma LetterDispatch(text: wstring, st: Lexer)
    requires st.index < |text| && IsLetter(text[st.index])
    ensures LexToken(text, st) == LexWord(text, st)
  {
    hide LexWord, LexDouble, LexVariable, LexPunct, LexParameter, NumberToken, TypeEnd;
  }

  lemma NameReads(text: wstring, st: Lexer, mode: Mode, p: Piece)
    requires p.Name? && Stands(text, st, mode, p)
    ensures Reads(text, st, Behind(st, p))
  {
    hide LexFrom, LexGap, LexToken, WordEnd;
    assert p.text != [] && IsLetter(p.text[0]) by { hide IsLetter; }
    HasAtUnit(text, st.index, p.text);
    NoGap(text, st);
    LetterDispatch(text, st);
    WordEndIs(text, st.index, p.text, st.member) by { hide IsIdentifier, IsBare, IsLetter; }
    TokenReads(text, st, Behind(st, p)) by { hide LexFrom, LexGap, LexToken, WordEnd, IsIdentifier, Matches, IsBare; }
  }

  lemma {:induction false} IdentifierEndIs(text: wstring, i: nat, name: wstring)
    requires HasAt(text, i, name) && forall k :: 0 <= k < |name| ==> IsIdentifier(name[k])
    requires !IsIdentifier(At(text, i + |name|))
    ensures IdentifierEnd(text, i) == i + |name|
    decreases |name|
  {
    hide IsIdentifier;
    if name != [] {
      HasAtUnit(text, i, name);
      IdentifierEndIs(text, i + 1, name[1..]);
    }
  }

  lemma MinusDispatch(text: wstring, st: Lexer)
    requires st.index < |text| && text[st.index] == MINUS && IsLetter(At(text, st.index + 1))
    ensures LexToken(text, st) == Some(LexParameter(text, st))
  {
    hide LexWord, LexDouble, LexVariable, LexPunct, LexParameter, NumberToken, TypeEnd;
  }

  lemma OptionReads(text: wstring, st: Lexer, mode: Mode, p: Piece)
    requires p.Option? && Stands(text, st, mode, p)
    ensures Reads(text, st, Behind(st, p))
  {
    hide LexFrom, LexGap, LexToken, IdentifierEnd, HasAt, Matches;
    HasAtSplit(text, st.index, [MINUS], p.name);
    HasAtUnit(text, st.index, [MINUS]);
    HasAtUnit(text, st.index + 1, p.name);
    IdentifierEndIs(text, st.index + 1, p.name);
    NoGap(text, st);
    MinusDispatch(text, st);
    TokenReads(text, st, Behind(st, p)) by { hide LexFrom, LexGap, LexToken, IdentifierEnd, IsIdentifier, Matches; }
  }

  lemma MarkDispatch(text: wstring, st: Lexer)
    requires st.index < |text| && text[st.index] in [LPAREN, RPAREN, COMMA, EQUALS]
    ensures LexToken(text, st) == Some(LexPunct(text, st))
  {
    assert PUNCTS[0] == LPAREN && PUNCTS[1] == RPAREN && PUNCTS[4] == COMMA && PUNCTS[5] == EQUALS;
    hide LexWord, LexDouble, LexVariable, LexPunct, LexParameter, NumberToken, TypeEnd, PUNCTS;
  }

  lemma MarkReads(text: wstring, st: Lexer, mode: Mode, p: Piece)
    requires p.Mark? && Stands(text, st, mode, p)
    ensures Reads(text, st, Behind(st, p))
  {
    hide LexFrom, LexGap, LexToken, Matches, HasAt;
    HasAtUnit(text, st.index, [p.unit]);
    NoGap(text, st);
    MarkDispatch(text, st);
    TokenReads(text, st, Behind(st, p)) by { hide LexFrom, LexGap, LexToken, Matches; }
  }

  lemma AccessReads(text: wstring, st: Lexer, mode: Mode, p: Piece)
    requires p.Access? && Stands(text, st, mode, p)
    ensures Reads(text, st, Behind(st, p))
  {
    hide LexFrom, LexGap, JoinsLines, LexWord, LexDouble, LexVariable, LexPunct, LexParameter, NumberToken, TypeEnd, W;
    HasAtUnit(text, st.index, [DOT]);
    NoGap(text, st);
    TokenReads(text, st, Behind(st, p));
  }

  lemma ScopeReads(text: wstring, st: Lexer, mode: Mode, p: Piece)
    requires p.Scope? && Stands(text, st, mode, p)
    ensures Reads(text, st, Behind(st, p))
  {
    HasAtUnit(text, st.index, [COLON, COLON]);
    HasAtUnit(text, st.index + 1, [COLON, COLON][1..]);
    NoGap(text, st);
    TokenReads(text, st, Behind(st, p)) by {
      hide LexFrom, LexGap, JoinsLines, LexWord, LexDouble, LexVariable, LexPunct, LexParameter, NumberToken, TypeEnd;
      hide W;
    }
  }

  lemma ListStartReads(text: wstring, st: Lexer, mode: Mode, p: Piece)
    requires p.ListStart? && Stands(text, st, mode, p)
    ensures Reads(text, st, Behind(st, p))
  {
    HasAtUnit(text, st.index, [AT, LPAREN]);
    HasAtUnit(text, st.index + 1, [AT, LPAREN][1..]);
    NoGap(text, st);
    TokenReads(text, st, Behind(st, p)) by {
      hide LexFrom, LexGap, JoinsLines, LexWord, LexDouble, LexVariable, LexPunct, LexParameter, NumberToken, TypeEnd;
      hide W;
    }
  }

  lemma {:induction false} TypeEndSkips(text: wstring, i: nat, name: wstring)
    requires HasAt(text, i, name) && LBRACKET !in name && RBRACKET !in name
    ensures TypeEnd(text, i, 1) == TypeEnd(text, i + |name|, 1)
    decreases |name|
  {
    if name != [] {
      HasAtUnit(text, i, name);
      TypeEndSkips(text, i + 1, name[1..]);
    }
  }

  lemma TypeNameFacts(name: wstring, isArray: bool)
    requires IsTypeName(name)
    ensures LBRACKET !in name && RBRACKET !in name && TrimWhitespace(TypeText(name, isArray)) == TypeText(name, isArray)
  {
    assert forall i :: 0 <= i < |name| ==> !IsSpace(name[i]) && name[i] != LBRACKET && name[i] != RBRACKET;
    hide IsIdentifier;
    var t := TypeText(name, isArray);
    assert t[0] == name[0] && (t[|t| - 1] == RBRACKET || t[|t| - 1] == name[|name| - 1]);
    TrimmedIsUnchanged(t);
  }

  lemma TypeEndIs(text: wstring, i: nat, name: wstring, isArray: bool)
    requires HasAt(text, i, TypeText(name, isArray) + [RBRACKET]) && LBRACKET !in name && RBRACKET !in name
    ensures TypeEnd(text, i, 1) == i + |TypeText(name, isArray)|
    ensures text[i..i + |TypeText(name, isArray)|] == TypeText(name, isArray)
  {
    var t := TypeText(name, isArray);
    HasAtSplit(text, i, t, [RBRACKET]);
    HasAtUnit(text, i + |t|, [RBRACKET]);
    HasAtSplit(text, i, name, if isArray then [LBRACKET, RBRACKET] else []);
    TypeEndSkips(text, i, name);
    if isArray {
      HasAtUnit(text, i + |name|, [LBRACKET, RBRACKET]);
      HasAtUnit(text, i + |name| + 1, [LBRACKET, RBRACKET][1..]);
      var at := i + |name|;
      assert TypeEnd(text, at, 1) == TypeEnd(text, at + 1, 2) == TypeEnd(text, at + 2, 1) == at + 2;
    } else {
      assert TypeEnd(text, i + |t|, 1) == i + |t|;
    }
  }

  lemma BracketDispatch(text: wstring, st: Lexer, end: nat)
    requires st.index < |text| && text[st.index] == LBRACKET && TypeEnd(text, st.index + 1, 1) == end
    ensures LexToken(text, st) == Some(Push(st, Plain(Type, TrimWhitespace(text[st.index + 1..end])), end + 1))
  {
    hide LexWord, LexDouble, LexVariable, LexPunct, LexParameter, NumberToken, TypeEnd, TrimWhitespace;
  }

  lemma PushedIs(st: Lexer, p: Piece, token: Token, index: nat)
    requires p.TypeName? || p.Quoted? || p.HexNumber? || p.Var? || p.Name?
    requires PieceTokens(p) == [token] && index == st.index + |PieceText(p)|
    ensures Push(st, token, index) == Behind(st, p)
  {
    hide PieceTokens, PieceText;
  }

  lemma TypeStands(text: wstring, st: Lexer, mode: Mode, p: Piece)
    requires p.TypeName? && Stands(text, st, mode, p)
    ensures st.index < |text| && text[st.index] == LBRACKET
    ensures HasAt(text, st.index + 1, TypeText(p.name, p.isArray) + [RBRACKET]) && IsTypeName(p.name)
    ensures PieceTokens(p) == [Plain(Type, TypeText(p.name, p.isArray))]
    ensures |PieceText(p)| == 2 + |TypeText(p.name, p.isArray)|
  {
    hide TypeText, IsTypeName, JoinsLines;
    var t := TypeText(p.name, p.isArray);
    ConcatAssoc([LBRACKET], t, [RBRACKET]);
    HasAtSplit(text, st.index, [LBRACKET], t + [RBRACKET]);
    HasAtUnit(text, st.index, [LBRACKET]);
  }

  lemma TypeReads(text: wstring, st: Lexer, mode: Mode, p: Piece)
    requires p.TypeName? && Stands(text, st, mode, p)
    ensures Reads(text, st, Behind(st, p))
  {
    hide *;
    TypeStands(text, st, mode, p);
    TypeNameFacts(p.name, p.isArray);
    TypeEndIs(text, st.index + 1, p.name, p.isArray);
    var t := TypeText(p.name, p.isArray);
    var end := st.index + 1 + |t|;
    NoGap(text, st) by { BracketStarts(); }
    BracketDispatch(text, st, end);
    PushedIs(st, p, Plain(Type, t), end + 1);
    TokenReads(text, st, Behind(st, p));
  }

  lemma BracketStarts()
    ensures LBRACKET in [DOLLAR, MINUS, LPAREN, RPAREN, COMMA, EQUALS, DOT, COLON, AT, LBRACKET, SQUOTE, DQUOTE]
  {}
}
