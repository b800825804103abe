/** The lines of a script as pieces: their text, and the tokens they are read as. */
module PowerShellLines {
  import opened Text
  import opened ValueFormat
  import opened PowerShellLexer
  import opened PowerShellPieces
  import opened PowerShellQuoted

  // ----- lists of pieces

  function Flat(pieces: seq<Piece>): wstring {
    if pieces == [] then [] else PieceText(pieces[0]) + Flat(pieces[1..])
  }

  function TokensOf(pieces: seq<Piece>): seq<Token> {
    if pieces == [] then [] else PieceTokens(pieces[0]) + TokensOf(pieces[1..])
  }

  function AfterAll(mode: Mode, pieces: seq<Piece>): Mode
    decreases |pieces|
  {
    if pieces == [] then mode else AfterAll(After(mode, pieces[0]), pieces[1..])
  }

  /** The unit that the pieces start with, or `last` behind them. */
  function FirstUnit(pieces: seq<Piece>, last: wchar): wchar {
    if Flat(pieces) == [] then last else Flat(pieces)[0]
  }

  /** Every piece fits where it stands, with `last` behind the last one. */
  predicate FitAll(mode: Mode, pieces: seq<Piece>, last: wchar)
    decreases |pieces|
  {
    pieces == [] || (Fits(mode, pieces[0], FirstUnit(pieces[1..], last))
                     && FitAll(After(mode, pieces[0]), pieces[1..], last))
  }

  lemma {:induction false} FlatConcat(a: seq<Piece>, b: seq<Piece>)
    ensures Flat(a + b) == Flat(a) + Flat(b) && TokensOf(a + b) == TokensOf(a) + TokensOf(b)
    decreases |a|
  {
    hide PieceText, PieceTokens;
    if a == [] {
      assert a + b == b;
    } else {
      assert (a + b)[1..] == a[1..] + b;
      FlatConcat(a[1..], b);
      ConcatAssoc(PieceText(a[0]), Flat(a[1..]), Flat(b));
      ConcatAssoc(PieceTokens(a[0]), TokensOf(a[1..]), TokensOf(b));
    }
  }

  lemma FirstOfConcat(a: seq<Piece>, b: seq<Piece>, last: wchar)
    ensures FirstUnit(a + b, last) == FirstUnit(a, FirstUnit(b, last))
  {
    FlatConcat(a, b);
    hide Flat;
  }

  lemma {:induction false} FitConcat(mode: Mode, a: seq<Piece>, b: seq<Piece>, last: wchar)
    requires FitAll(mode, a, FirstUnit(b, last)) && FitAll(AfterAll(mode, a), b, last)
    ensures FitAll(mode, a + b, last) && AfterAll(mode, a + b) == AfterAll(AfterAll(mode, a), b)
    decreases |a|
  {
    hide Fits, After, FirstUnit;
    if a == [] {
      assert a + b == b;
    } else {
      assert (a + b)[1..] == a[1..] + b;
      FirstOfConcat(a[1..], b, last);
      FitConcat(After(mode, a[0]), a[1..], b, last);
    }
  }

  // ----- reading them

  function BehindAll(st: Lexer, pieces: seq<Piece>): Lexer
    decreases |pieces|
  {
    if pieces == [] then st else BehindAll(Behind(st, pieces[0]), pieces[1..])
  }

  lemma PieceReads(text: wstring, st: Lexer, mode: Mode, p: Piece)
    requires Stands(text, st, mode, p)
    ensures Reads(text, st, Behind(st, p))
  {
    hide *;
    match p
    case Blank(_) => BlankReads(text, st, mode, p);
    case Remark(_) => RemarkReads(text, st, mode, p);
    case Feed => FeedReads(text, st, mode, p);
    case Var(_) => VarReads(text, st, mode, p);
    case Name(_) => NameReads(text, st, mode, p);
    case Option(_) => OptionReads(text, st, mode, p);
    case Mark(_) => MarkReads(text, st, mode, p);
    case Access => AccessReads(text, st, mode, p);
    case Scope => ScopeReads(text, st, mode, p);
    case ListStart => ListStartReads(text, st, mode, p);
    case TypeName(_, _) => TypeReads(text, st, mode, p);
    case Quoted(_) => QuotedReads(text, st, mode, p);
    case HexNumber(_, _, _) => NumberReads(text, st, mode, p);
  }

  lemma FirstUnitAt(text: wstring, i: nat, pieces: seq<Piece>)
    requires HasAt(text, i, Flat(pieces))
    ensures FirstUnit(pieces, At(text, i + |Flat(pieces)|)) == At(text, i)
  {
    if Flat(pieces) != [] { HasAtUnit(text, i, Flat(pieces)); }
    hide Flat;
  }

  lemma BehindIs(st: Lexer, p: Piece)
    ensures Behind(st, p).index == st.index + |PieceText(p)| && Behind(st, p).tokens == st.tokens + PieceTokens(p)
  {
    hide PieceText, PieceTokens;
  }

  /** Pieces that fit are read as their tokens, whatever they are. */
  lemma {:induction false} PiecesRead(text: wstring, st: Lexer, mode: Mode, pieces: seq<Piece>)
    requires HasAt(text, st.index, Flat(pieces)) && Matches(st, mode)
    requires FitAll(mode, pieces, At(text, st.index + |Flat(pieces)|))
    ensures Reads(text, st, BehindAll(st, pieces)) && Matches(BehindAll(st, pieces), AfterAll(mode, pieces))
    ensures BehindAll(st, pieces).index == st.index + |Flat(pieces)|
            && BehindAll(st, pieces).tokens == st.tokens + TokensOf(pieces)
    decreases |pieces|
  {
    hide Fits, After, Behind, Matches, PieceText, PieceTokens, HasAt, FirstUnit, LexFrom;
    if pieces == [] {
      NothingAround(st.tokens);
    } else {
      var p, rest := pieces[0], pieces[1..];
      HasAtSplit(text, st.index, PieceText(p), Flat(rest));
      FirstUnitAt(text, st.index + |PieceText(p)|, rest);
      assert Stands(text, st, mode, p);
      PieceReads(text, st, mode, p);
      BehindMatches(st, mode, p, At(text, st.index + |PieceText(p)|));
      BehindIs(st, p);
      PiecesRead(text, Behind(st, p), After(mode, p), rest);
      ConcatAssoc(st.tokens, PieceTokens(p), TokensOf(rest));
    }
  }

  const LINE_MODE := Mode(0, false, false, false)

  /** A script of pieces that fit is read as their tokens and the end. */
  lemma ScriptReads(pieces: seq<Piece>)
    requires FitAll(LINE_MODE, pieces, NUL)
    ensures Tokens(Flat(pieces)) == Some(TokensOf(pieces) + [Plain(Newline, []), Plain(End, [])])
  {
    var text := Flat(pieces);
    HasAtAll(text);
    StartMatches();
    hide FitAll, Matches, AfterAll;
    PiecesRead(text, LEXER_START, LINE_MODE, pieces) by { hide LexFrom; }
    var end := BehindAll(LEXER_START, pieces);
    assert [] + TokensOf(pieces) == TokensOf(pieces);
  }

  lemma StartMatches()
    ensures Matches(LEXER_START, LINE_MODE)
  {}
}
