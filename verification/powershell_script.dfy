/** A whole rendered script as pieces, and as the tokens it is read as. */
module PowerShellScript {
  import opened Text
  import opened ValueFormat
  import opened Operations
  import opened KeyPaths
  import opened PowerShellLexer
  import opened PowerShellWriter
  import opened PowerShellPieces
  import opened PowerShellLines
  import opened PowerShellLayout
  import opened PowerShellLineTexts
  import opened PowerShellLineFits
  import opened PowerShellScriptReads

  // ----- the lines in front

  const PREFERENCE_NAME := W("ErrorActionPreference")
  const STOP_NAME := W("Stop")
  const REMARK := W("Requires ") + W("-RunAsAdministrator")

  const REQUIRES_PIECES: seq<Piece> := [Remark(REMARK + [CR]), Feed]
  const STOP_PIECES: seq<Piece> :=
    [Var(PREFERENCE_NAME), Blank(SPACE), Mark(EQUALS), Blank(SPACE)] + ([Quoted(STOP_NAME)] + END)
  const COMMAND_PIECES: seq<Piece> := [Name(W("Add-Type")), Blank(SPACE), Option(W("Namespace")), Blank(SPACE)]
  const NAME_PIECES: seq<Piece> := [Name(W("RegKit")), Blank(SPACE), Option(W("Name")), Blank(SPACE)]
  const MEMBER_PIECES: seq<Piece> := [Name(W("Native")), Blank(SPACE), Option(W("MemberDefinition")), Blank(SPACE)]
  const HELPER_PIECES: seq<Piece> := COMMAND_PIECES + (NAME_PIECES + (MEMBER_PIECES + ([Quoted(DEFINITION)] + END)))

  /** No control characters and no single quotes. */
  predicate IsSafe(text: wstring) {
    forall i :: 0 <= i < |text| ==> text[i] >= SPACE && !IsSingleQuote(text[i])
  }

  lemma SafeConcat(a: wstring, b: wstring)
    requires IsSafe(a) && IsSafe(b)
    ensures IsSafe(a + b)
  {
    hide IsSingleQuote;
  }

  /** A literal of visible ASCII characters. */
  lemma LiteralIsSafe(s: string)
    requires forall i :: 0 <= i < |s| ==> ' ' <= s[i] <= '~' && s[i] != '\''
    ensures IsSafe(W(s))
  {}

  lemma FourSafe(a: wstring, b: wstring, c: wstring, d: wstring)
    requires IsSafe(a) && IsSafe(b) && IsSafe(c) && IsSafe(d)
    ensures IsSafe(a + (b + c)) && IsSafe(a + (b + (c + d)))
  {
    hide IsSafe;
    SafeConcat(b, c);
    SafeConcat(a, b + c);
    SafeConcat(c, d);
    SafeConcat(b, c + d);
    SafeConcat(a, b + (c + d));
  }

  lemma ImportIsSafe()
    ensures IsSafe(IMPORT_TEXT)
  {
    hide IsSafe, W;
    var a, b, c := "[DllImport(\"advapi32.dll\", ", "CharSet = CharSet.Unicode)] ", "static extern int RegSetValueExW(";
    LiteralIsSafe(a);
    LiteralIsSafe(b);
    LiteralIsSafe(c);
    FourSafe(W(a), W(b), W(c), W(c));
  }

  lemma ParametersAreSafe()
    ensures IsSafe(PARAMETER_TEXT)
  {
    hide IsSafe, W;
    var a, b, c, d := "Microsoft.Win32.SafeHandles.", "SafeRegistryHandle key, ",
      "string name, int reserved, int type, ", "byte[] data, int size); ";
    LiteralIsSafe(a);
    LiteralIsSafe(b);
    LiteralIsSafe(c);
    LiteralIsSafe(d);
    FourSafe(W(a), W(b), W(c), W(d));
  }

  lemma MethodStartIsSafe()
    ensures IsSafe(W("public static void SetValue(")) && IsSafe(W("Microsoft.Win32.RegistryKey key, "))
  {
    hide IsSafe, W;
    LiteralIsSafe("public static void SetValue(");
    LiteralIsSafe("Microsoft.Win32.RegistryKey key, ");
  }

  lemma MethodEndIsSafe()
    ensures IsSafe(W("string name, int type, byte[] data) ")) && IsSafe(W("{ int status = RegSetValueExW("))
  {
    hide IsSafe, W;
    LiteralIsSafe("string name, int type, byte[] data) ");
    LiteralIsSafe("{ int status = RegSetValueExW(");
  }

  lemma MethodIsSafe()
    ensures IsSafe(METHOD_TEXT)
  {
    hide IsSafe, W;
    MethodStartIsSafe();
    MethodEndIsSafe();
    FourSafe(W("public static void SetValue("), W("Microsoft.Win32.RegistryKey key, "),
             W("string name, int type, byte[] data) "), W("{ int status = RegSetValueExW("));
  }

  lemma StatementStartIsSafe()
    ensures IsSafe(W("key.Handle, name, 0, type, data, ")) && IsSafe(W("data.Length); if (status != 0) "))
  {
    hide IsSafe, W;
    LiteralIsSafe("key.Handle, name, 0, type, data, ");
    LiteralIsSafe("data.Length); if (status != 0) ");
  }

  lemma StatementEndIsSafe()
    ensures IsSafe(W("throw new System.ComponentModel.")) && IsSafe(W("Win32Exception(status); }"))
  {
    hide IsSafe, W;
    LiteralIsSafe("throw new System.ComponentModel.");
    LiteralIsSafe("Win32Exception(status); }");
  }

  lemma StatementIsSafe()
    ensures IsSafe(STATEMENT_TEXT)
  {
    hide IsSafe, W;
    StatementStartIsSafe();
    StatementEndIsSafe();
    FourSafe(W("key.Handle, name, 0, type, data, "), W("data.Length); if (status != 0) "),
             W("throw new System.ComponentModel."), W("Win32Exception(status); }"));
  }

  lemma DefinitionIsSafe()
    ensures IsSafe(DEFINITION)
  {
    hide IsSafe, IMPORT_TEXT, PARAMETER_TEXT, METHOD_TEXT, STATEMENT_TEXT;
    ImportIsSafe();
    ParametersAreSafe();
    MethodIsSafe();
    StatementIsSafe();
    FourSafe(IMPORT_TEXT, PARAMETER_TEXT, METHOD_TEXT, STATEMENT_TEXT);
  }

  lemma SafeIsQuoted(text: wstring)
    requires IsSafe(text)
    ensures Literal(text) == Some([SQUOTE] + text + [SQUOTE]) && PieceText(Quoted(text)) == [SQUOTE] + text + [SQUOTE]
    ensures IsPlain(text)
  {
    PlainLiteral(text) by { hide IsSingleQuote; }
    hide Doubled, Escaped;
  }

  lemma RequiresLiteral()
    ensures REQUIRES == [HASH] + REMARK
  {
    assert W("#Requires ") == [HASH] + W("Requires ");
    hide W;
  }

  lemma StopLiteral()
    ensures W("'Stop'") == [SQUOTE] + STOP_NAME + [SQUOTE]
  {}

  lemma PreferenceLiteral()
    ensures W("$ErrorActionPreference = ") == [DOLLAR] + (PREFERENCE_NAME + ([SPACE] + ([EQUALS] + [SPACE])))
  {
    hide W;
    TwoLiterals("$ErrorActionPreference = ", "$", "ErrorActionPreference = ");
    TwoLiterals("ErrorActionPreference = ", "ErrorActionPreference", " = ");
  }

  lemma AddTypeLiteral()
    ensures W("Add-Type -Namespace RegKit ")
            == (W("Add-Type") + ([SPACE] + ([MINUS] + W("Namespace") + [SPACE]))) + (W("RegKit") + [SPACE])
  {}

  lemma NameLiteral()
    ensures W("-Name Native ") == ([MINUS] + W("Name") + [SPACE]) + (W("Native") + [SPACE])
  {}

  lemma MemberLiteral()
    ensures W("-MemberDefinition ") == [MINUS] + W("MemberDefinition") + [SPACE]
  {}

  lemma FrontFits()
    ensures AreIdentifiers(PREFERENCE_NAME) && LF !in REMARK + [CR]
  {}

  lemma HelperNamesFit()
    ensures AreBare(W("Add-Type")) && AreBare(W("RegKit")) && AreBare(W("Native"))
    ensures IsMemberName(W("Namespace")) && IsMemberName(W("Name")) && IsMemberName(W("MemberDefinition"))
  {}

  lemma RequiresReads(last: wchar)
    ensures Flat(REQUIRES_PIECES) == REQUIRES + CRLF
    ensures FitAll(LINE_MODE, REQUIRES_PIECES, last) && AfterAll(LINE_MODE, REQUIRES_PIECES) == LINE_MODE
  {
    RequiresLiteral();
    FrontFits();
    FixedTexts();
    Heads();
    hide FitAll, AfterAll, Flat, REMARK, REQUIRES, W, PieceText;
    Two(Remark(REMARK + [CR]), Feed);
    assert PieceText(Remark(REMARK + [CR])) == [HASH] + (REMARK + [CR]) by { RemarkText(); }
    assert [HASH] + (REMARK + [CR]) + [LF] == [HASH] + REMARK + [CR, LF];
    assert Head(Feed) == LF by { FeedHead(); }
    FitTwo(LINE_MODE, Remark(REMARK + [CR]), Feed, last);
  }

  lemma RemarkText()
    ensures PieceText(Remark(REMARK + [CR])) == [HASH] + (REMARK + [CR])
  {
    hide REMARK;
  }

  lemma FeedHead()
    ensures Head(Feed) == LF
  {}

  lemma QuotedEndFits(text: wstring, last: wchar)
    requires IsSafe(text)
    ensures var tail := [Quoted(text)] + END; FitAll(LINE_MODE, tail, last) && AfterAll(LINE_MODE, tail) == LINE_MODE
    ensures Flat([Quoted(text)] + END) == [SQUOTE] + text + [SQUOTE] + CRLF
  {
    SafeIsQuoted(text);
    EndFits(last);
    EndStarts(last);
    StopFacts(CR);
    EndText();
    hide FitAll, AfterAll, Flat, FirstUnit, END, PieceText, Literal, IsSingleQuote, IsDoubleQuote, IsSafe, W;
    FitOne(LINE_MODE, Quoted(text), CR);
    FitConcat(LINE_MODE, [Quoted(text)], END, last);
    FlatConcat([Quoted(text)], END);
    One(Quoted(text));
  }

  lemma StopReads(last: wchar)
    ensures Flat(STOP_PIECES) == STOP + CRLF
    ensures FitAll(LINE_MODE, STOP_PIECES, last) && AfterAll(LINE_MODE, STOP_PIECES) == LINE_MODE
  {
    StopLiteral();
    PreferenceLiteral();
    FrontFits();
    FixedTexts();
    var assign := [Var(PREFERENCE_NAME), Blank(SPACE), Mark(EQUALS), Blank(SPACE)];
    assert PieceText(Var(PREFERENCE_NAME)) == [DOLLAR] + PREFERENCE_NAME;
    hide FitAll, AfterAll, Flat, FirstUnit, END, W, PREFERENCE_NAME, STOP_NAME, AreIdentifiers, IsSafe, PieceText;
    QuotedEndFits(STOP_NAME, last);
    AssignFits(PREFERENCE_NAME, FirstUnit([Quoted(STOP_NAME)] + END, last));
    FitConcat(LINE_MODE, assign, [Quoted(STOP_NAME)] + END, last);
    FlatConcat(assign, [Quoted(STOP_NAME)] + END);
    Four(Var(PREFERENCE_NAME), Blank(SPACE), Mark(EQUALS), Blank(SPACE));
    ConcatAssoc([DOLLAR], PREFERENCE_NAME, [SPACE] + ([EQUALS] + [SPACE]));
    ConcatAssoc(W("$ErrorActionPreference = "), W("'Stop'"), CRLF);
  }

  /** A word and the parameter behind it. */
  lemma WordReads(word: wstring, option: wstring, last: wchar)
    requires AreBare(word) && IsMemberName(option)
    ensures var pieces := [Name(word), Blank(SPACE), Option(option), Blank(SPACE)];
            && FitAll(LINE_MODE, pieces, last) && AfterAll(LINE_MODE, pieces) == LINE_MODE
            && Flat(pieces) == word + ([SPACE] + ([MINUS] + option + [SPACE]))
  {
    Heads();
    FixedTexts();
    assert PieceText(Name(word)) == word && PieceText(Option(option)) == [MINUS] + option;
    hide FitAll, AfterAll, Flat, PieceText, AreBare, AreIdentifiers, IsLetter;
    Four(Name(word), Blank(SPACE), Option(option), Blank(SPACE));
    FitFour(LINE_MODE, Name(word), Blank(SPACE), Option(option), Blank(SPACE), last);
  }

  lemma HelperReads(last: wchar)
    ensures Flat(HELPER_PIECES) == HELPER + CRLF
    ensures FitAll(LINE_MODE, HELPER_PIECES, last) && AfterAll(LINE_MODE, HELPER_PIECES) == LINE_MODE
  {
    AddTypeLiteral();
    NameLiteral();
    MemberLiteral();
    HelperNamesFit();
    DefinitionIsSafe();
    hide FitAll, AfterAll, Flat, FirstUnit, END, W, AreBare, IsMemberName, IsSafe, PieceText, DEFINITION;
    var tail := [Quoted(DEFINITION)] + END;
    QuotedEndFits(DEFINITION, last);
    WordReads(W("Native"), W("MemberDefinition"), FirstUnit(tail, last));
    FitConcat(LINE_MODE, MEMBER_PIECES, tail, last);
    WordReads(W("RegKit"), W("Name"), FirstUnit(MEMBER_PIECES + tail, last));
    FitConcat(LINE_MODE, NAME_PIECES, MEMBER_PIECES + tail, last);
    WordReads(W("Add-Type"), W("Namespace"), FirstUnit(NAME_PIECES + (MEMBER_PIECES + tail), last));
    FitConcat(LINE_MODE, COMMAND_PIECES, NAME_PIECES + (MEMBER_PIECES + tail), last);
    FlatConcat(COMMAND_PIECES, NAME_PIECES + (MEMBER_PIECES + tail));
    FlatConcat(NAME_PIECES, MEMBER_PIECES + tail);
    FlatConcat(MEMBER_PIECES, tail);
    HelperParts(W("Add-Type") + ([SPACE] + ([MINUS] + W("Namespace") + [SPACE])), W("RegKit"), [MINUS] + W("Name")
                + [SPACE], W("Native"),
                [MINUS] + W("MemberDefinition") + [SPACE], [SQUOTE] + DEFINITION + [SQUOTE], CRLF);
  }

  lemma HelperParts(a: wstring, b: wstring, c: wstring, d: wstring, e: wstring, f: wstring, g: wstring)
    ensures a + ((b + ([SPACE] + c)) + ((d + ([SPACE] + e)) + (f + g)))
            == ((a + (b + [SPACE])) + ((c + (d + [SPACE])) + e) + f) + g
  {}

  // ----- the lines of the operations

  function BodyPieces(ops: seq<Operation>, current: Option<wstring>): seq<Piece> {
    if ops == [] then []
    else
      var op := ops[0];
      if Fault(op).Some? then BodyPieces(ops[1..], current)
      else if op.RemoveKey? then LinePieces(op) + BodyPieces(ops[1..], None)
      else
        (if current == Some(op.path) then []
         else OpenPieces(op.path)) + (LinePieces(op) + BodyPieces(ops[1..], Some(op.path)))
  }

  lemma SubIsLiteral(op: Operation)
    requires Fault(op).None?
    ensures Literal(SubPath(op.path)).Some?
  {
    hide Literal, SubPath;
  }

  lemma {:induction false} BodyReads(ops: seq<Operation>, current: Option<wstring>, last: wchar)
    requires AreNormalized(ops)
    ensures Flat(BodyPieces(ops, current)) == Body(ops, current)
    ensures FitAll(LINE_MODE, BodyPieces(ops, current), last)
            && AfterAll(LINE_MODE, BodyPieces(ops, current)) == LINE_MODE
    decreases |ops|
  {
    hide FitAll, AfterAll, Flat, FirstUnit, Fault, LineOf, LinePieces, OpenLine, OpenPieces, Normalized;
    if ops == [] {
      NoPieces();
      NothingFits(LINE_MODE, last);
    } else {
      var op, rest := ops[0], ops[1..];
      var next := if Fault(op).Some? then current else if op.RemoveKey? then None else Some(op.path);
      assert AreNormalized(rest);
      BodyReads(rest, next, last);
      if Fault(op).None? {
        LineThenBody(op, BodyPieces(rest, next), Body(rest, next), last);
        if !op.RemoveKey? && current != Some(op.path) {
          OpenThenBody(op, LinePieces(op) + BodyPieces(rest, next), LineOf(op) + Body(rest, next), last);
        } else {
          NothingAround(LinePieces(op) + BodyPieces(rest, next));
          NothingAround(LineOf(op) + Body(rest, next));
        }
      }
    }
  }

  lemma LineThenBody(op: Operation, pieces: seq<Piece>, text: wstring, last: wchar)
    requires Normalized(op.path) && Fault(op).None?
    requires Flat(pieces) == text && FitAll(LINE_MODE, pieces, last) && AfterAll(LINE_MODE, pieces) == LINE_MODE
    ensures var all := LinePieces(op) + pieces;
            Flat(all) == LineOf(op) + text && FitAll(LINE_MODE, all, last) && AfterAll(LINE_MODE, all) == LINE_MODE
  {
    hide *;
    LineText(op);
    LineFits(op, FirstUnit(pieces, last));
    FitConcat(LINE_MODE, LinePieces(op), pieces, last);
    FlatConcat(LinePieces(op), pieces);
  }

  lemma OpenThenBody(op: Operation, pieces: seq<Piece>, text: wstring, last: wchar)
    requires Normalized(op.path) && Fault(op).None?
    requires Flat(pieces) == text && FitAll(LINE_MODE, pieces, last) && AfterAll(LINE_MODE, pieces) == LINE_MODE
    ensures var all := OpenPieces(op.path) + pieces;
            Flat(all) == OpenLine(op.path) + text && FitAll(LINE_MODE, all, last)
              && AfterAll(LINE_MODE, all) == LINE_MODE
  {
    hide *;
    SubIsLiteral(op);
    OpenText(op.path);
    OpenFits(op.path, FirstUnit(pieces, last));
    FitConcat(LINE_MODE, OpenPieces(op.path), pieces, last);
    FlatConcat(OpenPieces(op.path), pieces);
  }

  // ----- the script

  function FrontPieces(admin: bool, native: bool): seq<Piece> {
    (if admin then REQUIRES_PIECES else []) + (STOP_PIECES + if native then HELPER_PIECES else [])
  }

  function ScriptPieces(ops: seq<Operation>, adminCheck: bool): seq<Piece> {
    FrontPieces(adminCheck && NeedsAdmin(ops), NeedsNative(ops)) + BodyPieces(ops, None)
  }

  lemma FrontReads(admin: bool, native: bool, last: wchar)
    ensures var pieces := FrontPieces(admin, native);
            && FitAll(LINE_MODE, pieces, last) && AfterAll(LINE_MODE, pieces) == LINE_MODE
            && Flat(pieces) == (if admin then REQUIRES + CRLF
                                else []) + ((STOP + CRLF) + (if native then HELPER + CRLF else []))
  {
    hide FitAll, AfterAll, Flat, FirstUnit, REQUIRES_PIECES, STOP_PIECES, HELPER_PIECES, REQUIRES, STOP, HELPER, W;
    NoPieces();
    NothingFits(LINE_MODE, last);
    var helper := if native then HELPER_PIECES else [];
    HelperReads(last);
    StopReads(FirstUnit(helper, last));
    FitConcat(LINE_MODE, STOP_PIECES, helper, last);
    FlatConcat(STOP_PIECES, helper);
    RequiresReads(FirstUnit(STOP_PIECES + helper, last));
    if admin {
      FitConcat(LINE_MODE, REQUIRES_PIECES, STOP_PIECES + helper, last);
      FlatConcat(REQUIRES_PIECES, STOP_PIECES + helper);
    } else {
      NothingAround(STOP_PIECES + helper);
      NothingAround(Flat(STOP_PIECES + helper));
    }
  }

  /** A rendered script is read as the tokens of its pieces. */
  lemma ScriptIsTokens(ops: seq<Operation>, adminCheck: bool)
    requires AreNormalized(ops)
    ensures Tokens(Rendered(ops, adminCheck))
            == Some(TokensOf(ScriptPieces(ops, adminCheck)) + [Plain(Newline, []), Plain(End, [])])
  {
    var admin, native := adminCheck && NeedsAdmin(ops), NeedsNative(ops);
    var front, body := FrontPieces(admin, native), BodyPieces(ops, None);
    hide FitAll, AfterAll, Flat, FirstUnit, REQUIRES, STOP, HELPER, FrontPieces, BodyPieces, Body, TokensOf, Tokens;
    hide NeedsAdmin, NeedsNative,
      AreNormalized;
    BodyReads(ops, None, NUL);
    FrontReads(admin, native, FirstUnit(body, NUL));
    FitConcat(LINE_MODE, front, body, NUL);
    FlatConcat(front, body);
    ScriptReads(front + body);
    ScriptParts(if admin then REQUIRES + CRLF
                else [], STOP + CRLF, if native then HELPER + CRLF else [], Body(ops, None));
  }

  lemma ScriptParts(a: wstring, b: wstring, c: wstring, d: wstring)
    ensures (a + (b + c)) + d == a + b + c + d
  {}
}
