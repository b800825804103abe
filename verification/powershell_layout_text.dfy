/** The pieces of a line spell the line that the writer writes. */
module PowerShellLineTexts {
  import opened Text
  import opened ValueFormat
  import opened Operations
  import opened KeyPaths
  import opened PowerShellLexer
  import opened PowerShellRoots
  import opened PowerShellWriter
  import opened PowerShellPieces
  import opened PowerShellLines
  import opened PowerShellLayout

  // ----- literals of the writer, split where the pieces are

  lemma KeyLiterals()
    ensures W("$key = ") == [DOLLAR] + (KEY_NAME + ([SPACE] + ([EQUALS] + [SPACE])))
    ensures W("$key, ") == [DOLLAR] + (KEY_NAME + ([COMMA] + [SPACE]))
    ensures W(", ") == [COMMA] + [SPACE]
  {}

  lemma FalseLiteral()
    ensures W(", $false)") == [COMMA] + ([SPACE] + ([DOLLAR] + (FALSE_NAME + [RPAREN])))
  {}

  lemma CallLiterals()
    ensures W(".CreateSubKey(") == [DOT] + (W("CreateSubKey") + [LPAREN])
    ensures W(".DeleteSubKeyTree(") == [DOT] + (W("DeleteSubKeyTree") + [LPAREN])
  {}

  lemma DeleteLiteral()
    ensures W("$key.DeleteValue(") == [DOLLAR] + (KEY_NAME + ([DOT] + (W("DeleteValue") + [LPAREN])))
  {}

  lemma SetLiterals()
    ensures W("$key.SetValue(") == [DOLLAR] + (KEY_NAME + ([DOT] + (W("SetValue") + [LPAREN])))
    ensures W(", '") == [COMMA] + ([SPACE] + [SQUOTE]) && W("')") == [SQUOTE] + [RPAREN]
  {}

  lemma TwoLiterals(s: string, a: string, b: string)
    requires s == a + b
    ensures W(s) == W(a) + W(b)
  {}

  lemma NativeLiteral()
    ensures W("[RegKit.Native]::SetValue(")
            == [LBRACKET] + (NATIVE_NAME + ([RBRACKET] + ([COLON, COLON] + (W("SetValue") + [LPAREN]))))
  {
    hide W;
    TwoLiterals("[RegKit.Native]::SetValue(", "[RegKit.Native]", "::SetValue(");
    Bracketed("[RegKit.Native]", "RegKit.Native");
    var call := [COLON, COLON] + (W("SetValue") + [LPAREN]);
    ConcatAssoc([LBRACKET], NATIVE_NAME + [RBRACKET], call);
    ConcatAssoc(NATIVE_NAME, [RBRACKET], call);
  }

  lemma RegistryLiteral()
    ensures W("[Microsoft.Win32.Registry]") == [LBRACKET] + (REGISTRY_NAME + [RBRACKET])
  {
    hide W;
    Bracketed("[Microsoft.Win32.Registry]", "Microsoft.Win32.Registry");
  }

  // ----- fragments

  lemma RootPiecesText(path: wstring)
    ensures Flat(RootPieces(path)) == RootText(path)
  {
    RegistryLiteral();
    FixedTexts();
    hide W, Flat, PropertyFrom, RootPart;
    var property := PropertyFrom(RootPart(path), 0);
    Three(TypeName(REGISTRY_NAME, false), Scope, Name(property));
    assert REGISTRY_NAME + [] == REGISTRY_NAME;
    ConcatAssoc([LBRACKET] + (REGISTRY_NAME + [RBRACKET]), [COLON, COLON], property);
    ConcatAssoc([LBRACKET], REGISTRY_NAME, [RBRACKET]);
  }

  lemma CallPiecesText(member: wstring, text: wstring)
    ensures Flat(CallPieces(member, text)) == [DOT] + (member + ([LPAREN] + QuotedText(text)))
  {
    FixedTexts();
    hide Flat, QuotedText;
    Four(Access, Name(member), Mark(LPAREN), Quoted(text));
  }

  lemma EndText()
    ensures Flat(END) == CRLF && Flat(NEXT) == W(", ") && Flat(NO_THROW) == W(", $false)")
  {
    FixedTexts();
    FalseLiteral();
    KeyLiterals();
    hide Flat, W;
    Two(Blank(CR), Feed);
    assert [CR] + [LF] == [CR, LF];
    Two(Mark(COMMA), Blank(SPACE));
    Four(Mark(COMMA), Blank(SPACE), Var(FALSE_NAME), Mark(RPAREN));
    ConcatAssoc([DOLLAR], FALSE_NAME, [RPAREN]);
  }

  lemma KeyPieceText()
    ensures Flat([Var(KEY_NAME)]) == [DOLLAR] + KEY_NAME
    ensures Flat([Var(KEY_NAME), Blank(SPACE), Mark(EQUALS), Blank(SPACE)]) == W("$key = ")
  {
    FixedTexts();
    KeyLiterals();
    hide Flat, W;
    One(Var(KEY_NAME));
    Four(Var(KEY_NAME), Blank(SPACE), Mark(EQUALS), Blank(SPACE));
    ConcatAssoc([DOLLAR], KEY_NAME, [SPACE] + ([EQUALS] + [SPACE]));
  }

  lemma {:induction false} UndoubledText(text: wstring)
    requires forall i :: 0 <= i < |text| ==> !IsSingleQuote(text[i])
    ensures Doubled(text) == text
    decreases |text|
  {
    hide IsSingleQuote;
    if text != [] {
      UndoubledText(text[..|text| - 1]);
    }
  }

  /** A text of identifiers is quoted as it is. */
  lemma PlainLiteral(text: wstring)
    requires IsPlain(text) && forall i :: 0 <= i < |text| ==> !IsSingleQuote(text[i])
    ensures Literal(text) == Some([SQUOTE] + text + [SQUOTE]) && PieceText(Quoted(text)) == [SQUOTE] + text + [SQUOTE]
  {
    UndoubledText(text);
    hide IsSingleQuote, Doubled;
  }

  predicate IsKindName(kind: wstring) {
    kind in [W("String"), W("ExpandString"), W("MultiString"), W("DWord"), W("QWord"), W("Binary"), W("None")]
  }

  lemma FormKind(value: RegistryValue)
    requires DotNetValue(value).Some?
    ensures IsKindName(DotNetValue(value).value.kind)
  {
    hide ByteArray, LiteralList, Literal, AreLiteral, DecodeString, StringData, MultiStrings.MultiStringItems;
    hide MultiStrings.MultiStringData, Hex, W, ReadUnsigned;
  }

  predicate IsWordText(text: wstring) {
    IsPlain(text) && forall i :: 0 <= i < |text| ==> !IsSingleQuote(text[i])
  }

  lemma WordIsPlain(s: string)
    requires forall i :: 0 <= i < |s| ==> 'A' <= s[i] <= 'z'
    ensures IsWordText(W(s))
  {}

  lemma KindIsPlain(kind: wstring)
    requires IsKindName(kind)
    ensures IsWordText(kind)
  {
    hide IsWordText, W;
    WordIsPlain("String");
    WordIsPlain("ExpandString");
    WordIsPlain("MultiString");
    WordIsPlain("DWord");
    WordIsPlain("QWord");
    WordIsPlain("Binary");
    WordIsPlain("None");
  }

  lemma KindPiecesText(kind: wstring)
    requires IsKindName(kind)
    ensures Flat(KindPieces(kind)) == W(", '") + (kind + W("')"))
  {
    KindIsPlain(kind);
    PlainLiteral(kind);
    FixedTexts();
    SetLiterals();
    hide *;
    Four(Mark(COMMA), Blank(SPACE), Quoted(kind), Mark(RPAREN));
    KindPiecesAre(kind);
    KindParts(kind);
  }

  lemma KindPiecesAre(kind: wstring)
    ensures KindPieces(kind) == [Mark(COMMA), Blank(SPACE), Quoted(kind), Mark(RPAREN)]
  {}

  lemma KindParts(kind: wstring)
    ensures [COMMA] + ([SPACE] + ([SQUOTE] + kind + [SQUOTE] + [RPAREN]))
            == [COMMA] + ([SPACE] + [SQUOTE]) + (kind + ([SQUOTE] + [RPAREN]))
  {}

  // ----- lines

  lemma OpenText(path: wstring)
    ensures Flat(OpenPieces(path)) == OpenLine(path)
  {
    var sub := SubPath(path);
    var call := if sub == [] then [] else CallPieces(W("CreateSubKey"), sub) + [Mark(RPAREN)];
    RootPiecesText(path);
    CallPiecesText(W("CreateSubKey"), sub);
    EndText();
    KeyPieceText();
    CallLiterals();
    FixedTexts();
    hide W, Flat, RootPieces, CallPieces, SubPath, QuotedText, RootText, PieceText, END;
    FlatConcat([Var(KEY_NAME), Blank(SPACE), Mark(EQUALS), Blank(SPACE)], RootPieces(path) + (call + END));
    FlatConcat(RootPieces(path), call + END);
    FlatConcat(call, END);
    FlatConcat(CallPieces(W("CreateSubKey"), sub), [Mark(RPAREN)]);
    One(Mark(RPAREN));
    NoPieces();
    CallParts(W("CreateSubKey"), QuotedText(sub), [RPAREN]);
  }

  lemma CallParts(member: wstring, text: wstring, close: wstring)
    ensures [DOT] + (member + ([LPAREN] + text)) + close == ([DOT] + (member + [LPAREN])) + text + close
  {}

  lemma RemoveKeyText(path: wstring)
    ensures Flat(RemoveKeyPieces(path)) == RemoveKeyLine(path)
  {
    var member, sub := W("DeleteSubKeyTree"), SubPath(path);
    RootPiecesText(path);
    CallPiecesText(member, sub);
    EndText();
    CallLiterals();
    hide W, Flat, RootPieces, CallPieces, SubPath, QuotedText, RootText, PieceText, END, NO_THROW;
    FlatConcat(RootPieces(path), CallPieces(member, sub) + (NO_THROW + END));
    FlatConcat(CallPieces(member, sub), NO_THROW + END);
    FlatConcat(NO_THROW, END);
    RemoveParts(RootText(path), member, QuotedText(sub), W(", $false)"), CRLF);
  }

  lemma RemoveParts(root: wstring, member: wstring, text: wstring, rest: wstring, end: wstring)
    ensures root + ([DOT] + (member + ([LPAREN] + text)) + (rest + end))
            == root + ([DOT] + (member + [LPAREN])) + text + rest + end
  {}

  lemma MemberParts(key: wstring, member: wstring, text: wstring, rest: wstring)
    ensures ([DOLLAR] + key) + ([DOT] + (member + ([LPAREN] + text)) + rest)
            == ([DOLLAR] + (key + ([DOT] + (member + [LPAREN])))) + (text + rest)
  {}

  lemma RemoveValueText(name: wstring)
    ensures Flat(RemoveValuePieces(name)) == RemoveValueLine(name)
  {
    var member := W("DeleteValue");
    CallPiecesText(member, name);
    EndText();
    KeyPieceText();
    DeleteLiteral();
    hide W, Flat, CallPieces, QuotedText, PieceText, END, NO_THROW;
    FlatConcat([Var(KEY_NAME)], CallPieces(member, name) + (NO_THROW + END));
    FlatConcat(CallPieces(member, name), NO_THROW + END);
    FlatConcat(NO_THROW, END);
    MemberParts(KEY_NAME, member, QuotedText(name), W(", $false)") + CRLF);
  }

  lemma ManagedText(value: RegistryValue)
    requires DotNetValue(value).Some?
    ensures Flat(ManagedPieces(value, DotNetValue(value).value.kind))
            == ManagedLine(value.name, DotNetValue(value).value)
  {
    var member, form := W("SetValue"), DotNetValue(value).value;
    CallPiecesText(member, value.name);
    EndText();
    KeyPieceText();
    SetLiterals();
    ExpressionText(value);
    FormKind(value);
    KindPiecesText(form.kind);
    hide W, Flat, CallPieces, QuotedText, PieceText, END, NEXT, ExpressionPieces, KindPieces, DotNetValue;
    var tail := KindPieces(form.kind) + END;
    FlatConcat([Var(KEY_NAME)], CallPieces(member, value.name) + (NEXT + (ExpressionPieces(value) + tail)));
    FlatConcat(CallPieces(member, value.name), NEXT + (ExpressionPieces(value) + tail));
    FlatConcat(NEXT, ExpressionPieces(value) + tail);
    FlatConcat(ExpressionPieces(value), tail);
    FlatConcat(KindPieces(form.kind), END);
    MemberParts(KEY_NAME, member, QuotedText(value.name), W(", ")
                + (form.expression + (W(", '") + (form.kind + W("')")) + CRLF)));
    ManagedParts(W("$key.SetValue("), QuotedText(value.name), W(", "), form.expression, W(", '"), form.kind, W("')"),
                 CRLF);
  }

  lemma ManagedParts(a: wstring, b: wstring, c: wstring, d: wstring, e: wstring, f: wstring, g: wstring, h: wstring)
    ensures a + (b + (c + (d + (e + (f + g) + h)))) == a + b + c + d + e + f + g + h
  {}

  lemma NativeParts(a: wstring, b: wstring, c: wstring, d: wstring, e: wstring, f: wstring, g: wstring, h: wstring)
    ensures a + ((b + c) + ((d + e) + (d + (f + (g + h))))) == a + b + c + d + e + d + f + g + h
  {}

  lemma NativeHeadText()
    ensures Flat([TypeName(NATIVE_NAME, false), Scope, Name(W("SetValue")), Mark(LPAREN)])
            == W("[RegKit.Native]::SetValue(")
  {
    NativeLiteral();
    FixedTexts();
    hide Flat, W;
    Four(TypeName(NATIVE_NAME, false), Scope, Name(W("SetValue")), Mark(LPAREN));
    assert NATIVE_NAME + [] == NATIVE_NAME;
    var rest := [COLON, COLON] + (W("SetValue") + [LPAREN]);
    assert [LBRACKET] + NATIVE_NAME + [RBRACKET] + rest == [LBRACKET] + (NATIVE_NAME + ([RBRACKET] + rest));
  }

  lemma NativeArguments(value: RegistryValue)
    requires Literal(value.name).Some?
    ensures Flat([Var(KEY_NAME), Mark(COMMA), Blank(SPACE), Quoted(value.name)]) == W("$key, ") + QuotedText(value.name)
    ensures Flat([Mark(COMMA), Blank(SPACE), HexNumber(value.kind as nat, 1, false)])
            == W(", ") + Hex(value.kind as nat, 1)
  {
    hide *;
    var q, h := QuotedText(value.name), Hex(value.kind as nat, 1);
    FixedTexts();
    KeyLiterals();
    NumberIs(value.kind as nat, 1);
    VarText(KEY_NAME);
    QuotedTextIs(value.name);
    Four(Var(KEY_NAME), Mark(COMMA), Blank(SPACE), Quoted(value.name));
    Three(Mark(COMMA), Blank(SPACE), HexNumber(value.kind as nat, 1, false));
    ConcatAssoc([COMMA], [SPACE], h);
  }

  lemma VarText(name: wstring)
    ensures PieceText(Var(name)) == [DOLLAR] + name
  {}

  lemma QuotedTextIs(text: wstring)
    ensures PieceText(Quoted(text)) == QuotedText(text)
  {
    hide QuotedText;
  }

  lemma NativeText(value: RegistryValue)
    requires Literal(value.name).Some?
    ensures Flat(NativePieces(value)) == NativeLine(value)
  {
    var head := [TypeName(NATIVE_NAME, false), Scope, Name(W("SetValue")), Mark(LPAREN)];
    var key := [Var(KEY_NAME), Mark(COMMA), Blank(SPACE), Quoted(value.name)];
    var kind := [Mark(COMMA), Blank(SPACE), HexNumber(value.kind as nat, 1, false)];
    var bytes := BytePieces(value.data);
    var close := [Mark(RPAREN)] + END;
    NativeHeadText();
    NativeArguments(value);
    EndText();
    FixedTexts();
    BytesText(value.data);
    NativePiecesAre(value, head, key, kind, bytes, close);
    hide *;
    FlatConcat(head, key + (kind + (NEXT + (bytes + close))));
    FlatConcat(key, kind + (NEXT + (bytes + close)));
    FlatConcat(kind, NEXT + (bytes + close));
    FlatConcat(NEXT, bytes + close);
    FlatConcat(bytes, close);
    FlatConcat([Mark(RPAREN)], END);
    One(Mark(RPAREN));
    var q, h := QuotedText(value.name), Hex(value.kind as nat, 1);
    NativeParts(W("[RegKit.Native]::SetValue("), W("$key, "), q, W(", "), h, ByteArray(value.data), [RPAREN], CRLF);
  }

  lemma NativePiecesAre(value: RegistryValue, head: seq<Piece>, key: seq<Piece>, kind: seq<Piece>, bytes: seq<Piece>,
      close: seq<Piece>)
    requires head == [TypeName(NATIVE_NAME, false), Scope, Name(W("SetValue")), Mark(LPAREN)]
    requires key == [Var(KEY_NAME), Mark(COMMA), Blank(SPACE), Quoted(value.name)]
    requires kind == [Mark(COMMA), Blank(SPACE), HexNumber(value.kind as nat, 1, false)]
    requires bytes == BytePieces(value.data) && close == [Mark(RPAREN)] + END
    ensures NativePieces(value) == head + (key + (kind + (NEXT + (bytes + close))))
    ensures var q, h := QuotedText(value.name), Hex(value.kind as nat, 1);
            NativeLine(value) == W("[RegKit.Native]::SetValue(") + W("$key, ") + q + W(", ") + h + W(", ")
              + ByteArray(value.data) + [RPAREN] + CRLF
  {
    hide W, BytePieces, QuotedText, Hex, ByteArray;
  }

  /** The pieces of an operation's line spell it. */
  lemma LineText(op: Operation)
    requires Fault(op).None?
    ensures Flat(LinePieces(op)) == LineOf(op)
  {
    match op
    case Key(_) => NoPieces();
    case RemoveKey(path) => RemoveKeyText(path);
    case RemoveValue(_, name) => RemoveValueText(name);
    case SetValue(_, value) =>
      hide ManagedPieces, NativePieces, ManagedLine, NativeLine, Flat, DotNetValue, Literal, SubPath;
      if DotNetValue(value).Some? { ManagedText(value); } else { NativeText(value); }
  }
}
