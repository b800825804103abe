/** A rendered script is read as the tokens of its lines. */
module PowerShellScriptReads {
  import opened Text
  import opened ValueFormat
  import opened Operations
  import opened KeyPaths
  import opened PowerShellLexer
  import opened PowerShellWriter
  import opened PowerShellPieces
  import opened PowerShellLines
  import opened PowerShellLayout
  import opened PowerShellLineTexts
  import opened PowerShellLineFits

  // ----- what fragments start with

  lemma ListStarts(a: Piece, tail: seq<Piece>, rest: seq<Piece>, last: wchar)
    requires PieceText(a) != []
    ensures FirstUnit([a] + tail + rest, last) == Head(a)
  {
    assert [a] + tail + rest == [a] + (tail + rest);
    StartsWith(a, tail + rest, last);
    hide FirstUnit;
  }

  lemma Starts(rest: seq<Piece>, member: wstring, text: wstring, last: wchar)
    ensures FirstUnit(END + rest, last) == CR && FirstUnit(NEXT + rest, last) == COMMA
            && FirstUnit(NO_THROW + rest, last) == COMMA
    ensures FirstUnit(CallPieces(member, text) + rest, last) == DOT && FirstUnit(KindPieces(text) + rest, last) == COMMA
    ensures FirstUnit([Mark(RPAREN)] + rest, last) == RPAREN
  {
    Heads();
    hide FirstUnit, PieceText;
    ListStarts(Blank(CR), [Feed], rest, last);
    assert END == [Blank(CR)] + [Feed];
    ListStarts(Mark(COMMA), [Blank(SPACE)], rest, last);
    assert NEXT == [Mark(COMMA)] + [Blank(SPACE)];
    ListStarts(Mark(COMMA), [Blank(SPACE), Var(FALSE_NAME), Mark(RPAREN)], rest, last);
    assert NO_THROW == [Mark(COMMA)] + [Blank(SPACE), Var(FALSE_NAME), Mark(RPAREN)];
    ListStarts(Access, [Name(member), Mark(LPAREN), Quoted(text)], rest, last);
    assert CallPieces(member, text) == [Access] + [Name(member), Mark(LPAREN), Quoted(text)];
    ListStarts(Mark(COMMA), [Blank(SPACE), Quoted(text), Mark(RPAREN)], rest, last);
    assert KindPieces(text) == [Mark(COMMA)] + [Blank(SPACE), Quoted(text), Mark(RPAREN)];
    StartsWith(Mark(RPAREN), rest, last);
  }

  lemma EndStarts(last: wchar)
    ensures FirstUnit(END, last) == CR
  {
    Starts([], [], [], last);
    assert END + [] == END;
  }

  // ----- lines

  lemma KeyFits(last: wchar)
    requires last == DOT
    ensures FitAll(LINE_MODE, [Var(KEY_NAME)], last) && AfterAll(LINE_MODE, [Var(KEY_NAME)]) == Inside(0)
  {
    NamesFit();
    StopFacts(last);
    FitOne(LINE_MODE, Var(KEY_NAME), last) by { hide AreIdentifiers, KEY_NAME; }
    hide FitAll, AfterAll, KEY_NAME;
  }

  lemma AssignFits(name: wstring, last: wchar)
    requires AreIdentifiers(name)
    ensures var a := [Var(name), Blank(SPACE), Mark(EQUALS), Blank(SPACE)];
            FitAll(LINE_MODE, a, last) && AfterAll(LINE_MODE, a) == Mode(0, false, false, false)
  {
    Heads();
    assert !IsIdentifier(SPACE);
    hide FitAll, AfterAll, AreIdentifiers, PieceText, IsIdentifier;
    FitFour(LINE_MODE, Var(name), Blank(SPACE), Mark(EQUALS), Blank(SPACE), last);
  }

  lemma CreateFits(sub: wstring, last: wchar)
    requires Literal(sub).Some?
    ensures var call := if sub == [] then [] else CallPieces(W("CreateSubKey"), sub) + [Mark(RPAREN)];
            && FitAll(Inside(0), call + END, last) && AfterAll(Inside(0), call + END) == LINE_MODE
            && IsStop(FirstUnit(call + END, last))
  {
    var member := W("CreateSubKey");
    EndFits(last);
    EndStarts(last);
    if sub == [] {
      assert [] + END == END;
    } else {
      MembersFit();
      Starts(END, member, sub, last);
      Starts([Mark(RPAREN)] + END, member, sub, last);
      CloseFits(CR);
      hide FitAll, AfterAll, FirstUnit, CallPieces, END, Literal, IsMemberName;
      CallFits(0, member, sub, RPAREN);
      FitConcat(Inside(1), [Mark(RPAREN)], END, last);
      FitConcat(Inside(0), CallPieces(member, sub), [Mark(RPAREN)] + END, last);
      ConcatAssoc(CallPieces(member, sub), [Mark(RPAREN)], END);
    }
  }

  lemma OpenFits(path: wstring, last: wchar)
    requires Normalized(path) && Literal(SubPath(path)).Some?
    ensures FitAll(LINE_MODE, OpenPieces(path), last) && AfterAll(LINE_MODE, OpenPieces(path)) == LINE_MODE
  {
    var sub := SubPath(path);
    var call := if sub == [] then [] else CallPieces(W("CreateSubKey"), sub) + [Mark(RPAREN)];
    NamesFit();
    CreateFits(sub, last);
    hide FitAll, AfterAll, FirstUnit, CallPieces, END, Literal, Normalized, RootPieces, SubPath, IsStop, AreIdentifiers;
    hide IsTypeName, W;
    var rest := RootPieces(path) + (call + END);
    AssignFits(KEY_NAME, FirstUnit(rest, last));
    RootFits(Mode(0, false, false, false), path, FirstUnit(call + END, last));
    FitConcat(Mode(0, false, false, false), RootPieces(path), call + END, last);
    FitConcat(LINE_MODE, [Var(KEY_NAME), Blank(SPACE), Mark(EQUALS), Blank(SPACE)], rest, last);
  }

  lemma RemoveTailFits(member: wstring, text: wstring, last: wchar)
    requires IsMemberName(member) && Literal(text).Some?
    ensures var tail := CallPieces(member, text) + (NO_THROW + END);
            FitAll(Inside(0), tail, last) && AfterAll(Inside(0), tail) == LINE_MODE && FirstUnit(tail, last) == DOT
  {
    EndFits(last);
    EndStarts(last);
    NoThrowFits(CR);
    Starts(END, member, text, last);
    Starts(NO_THROW + END, member, text, last);
    hide FitAll, AfterAll, FirstUnit, CallPieces, END, NO_THROW, Literal, IsMemberName;
    CallFits(0, member, text, COMMA);
    FitConcat(Inside(1), NO_THROW, END, last);
    FitConcat(Inside(0), CallPieces(member, text), NO_THROW + END, last);
  }

  lemma RemoveKeyFits(path: wstring, last: wchar)
    requires Normalized(path) && Literal(SubPath(path)).Some?
    ensures FitAll(LINE_MODE, RemoveKeyPieces(path), last) && AfterAll(LINE_MODE, RemoveKeyPieces(path)) == LINE_MODE
  {
    MembersFit();
    RemoveTailFits(W("DeleteSubKeyTree"), SubPath(path), last);
    hide FitAll, AfterAll, FirstUnit, CallPieces, END, NO_THROW, Literal, IsMemberName, Normalized, RootPieces, SubPath;
    hide W;
    RootFits(LINE_MODE, path, DOT);
    FitConcat(LINE_MODE, RootPieces(path), CallPieces(W("DeleteSubKeyTree"), SubPath(path)) + (NO_THROW + END), last);
  }

  lemma RemoveValueFits(name: wstring, last: wchar)
    requires Literal(name).Some?
    ensures FitAll(LINE_MODE, RemoveValuePieces(name), last)
            && AfterAll(LINE_MODE, RemoveValuePieces(name)) == LINE_MODE
  {
    MembersFit();
    RemoveTailFits(W("DeleteValue"), name, last);
    KeyFits(DOT);
    hide FitAll, AfterAll, FirstUnit, CallPieces, END, NO_THROW, Literal, IsMemberName, W;
    FitConcat(LINE_MODE, [Var(KEY_NAME)], CallPieces(W("DeleteValue"), name) + (NO_THROW + END), last);
  }

  lemma KindTailFits(kind: wstring, last: wchar)
    requires IsKindName(kind)
    ensures var tail := KindPieces(kind) + END;
            FitAll(Inside(1), tail, last) && AfterAll(Inside(1), tail) == LINE_MODE && FirstUnit(tail, last) == COMMA
  {
    hide *;
    EndFits(last);
    EndStarts(last);
    KindFits(1, kind, CR);
    ZeroInside();
    FitConcat(Inside(1), KindPieces(kind), END, last);
    Starts(END, [], kind, last);
  }

  lemma ZeroInside()
    ensures Inside(1 - 1) == Inside(0) && Inside(0 + 1) == Inside(1) && !AfterComma(1).member
            && AfterComma(1).depth == 1 && IsStop(COMMA)
  {}

  lemma DataFits(value: RegistryValue, kind: wstring, last: wchar)
    requires DotNetValue(value).Some? && IsKindName(kind)
    ensures var arguments := NEXT + (ExpressionPieces(value) + (KindPieces(kind) + END));
            FitAll(Inside(1), arguments, last) && AfterAll(Inside(1), arguments) == LINE_MODE
              && FirstUnit(arguments, last) == COMMA
  {
    hide *;
    var tail := KindPieces(kind) + END;
    KindTailFits(kind, last);
    ZeroInside();
    ExpressionFits(AfterComma(1), value, COMMA);
    FitConcat(AfterComma(1), ExpressionPieces(value), tail, last);
    var data := ExpressionPieces(value) + tail;
    NextFits(1, FirstUnit(data, last));
    FitConcat(Inside(1), NEXT, data, last);
    Starts(data, [], kind, last);
  }

  lemma ManagedFits(value: RegistryValue, last: wchar)
    requires Literal(value.name).Some? && DotNetValue(value).Some?
    ensures var pieces := ManagedPieces(value, DotNetValue(value).value.kind);
            FitAll(LINE_MODE, pieces, last) && AfterAll(LINE_MODE, pieces) == LINE_MODE
  {
    hide *;
    var kind, member := DotNetValue(value).value.kind, W("SetValue");
    MembersFit();
    FormKind(value);
    KeyFits(DOT);
    ZeroInside();
    DataFits(value, kind, last);
    var arguments := NEXT + (ExpressionPieces(value) + (KindPieces(kind) + END));
    CallFits(0, member, value.name, COMMA);
    FitConcat(Inside(0), CallPieces(member, value.name), arguments, last);
    Starts(arguments, member, value.name, last);
    FitConcat(LINE_MODE, [Var(KEY_NAME)], CallPieces(member, value.name) + arguments, last);
    assert ManagedPieces(value, kind) == [Var(KEY_NAME)] + (CallPieces(member, value.name) + arguments) by {
      ManagedPiecesAre(value, kind);
    }
  }

  lemma ManagedPiecesAre(value: RegistryValue, kind: wstring)
    ensures ManagedPieces(value, kind) ==
              [Var(KEY_NAME)] + (CallPieces(W("SetValue"), value.name)
                                 + (NEXT + (ExpressionPieces(value) + (KindPieces(kind) + END))))
  {
    hide W, CallPieces, ExpressionPieces, KindPieces;
  }

  lemma NativeHeadFits(last: wchar)
    ensures var head := [TypeName(NATIVE_NAME, false), Scope, Name(W("SetValue")), Mark(LPAREN)];
            FitAll(LINE_MODE, head, last) && AfterAll(LINE_MODE, head) == Inside(1)
  {
    NamesFit();
    MembersFit();
    Heads();
    assert !IsIdentifier(LPAREN);
    hide FitAll, AfterAll, IsTypeName, NATIVE_NAME, IsIdentifier, IsLetter, W;
    assert PieceText(Name(W("SetValue"))) == W("SetValue");
    FitFour(LINE_MODE, TypeName(NATIVE_NAME, false), Scope, Name(W("SetValue")), Mark(LPAREN), last);
  }

  lemma NativeArgumentsFit(value: RegistryValue)
    requires Literal(value.name).Some?
    ensures var key := [Var(KEY_NAME), Mark(COMMA), Blank(SPACE), Quoted(value.name)];
            FitAll(Inside(1), key, COMMA) && AfterAll(Inside(1), key) == Inside(1)
    ensures var kind := [Mark(COMMA), Blank(SPACE), HexNumber(value.kind as nat, 1, false)];
            FitAll(Inside(1), kind, COMMA) && AfterAll(Inside(1), kind) == Inside(1)
  {
    NamesFit();
    Heads();
    StopFacts(COMMA);
    SolidTexts(Quoted(value.name));
    SolidTexts(HexNumber(value.kind as nat, 1, false));
    hide FitAll, AfterAll, IsTypeName, KEY_NAME, IsIdentifier, AreIdentifiers, Literal, IsSingleQuote, IsDoubleQuote;
    hide PieceText;
    FitFour(Inside(1), Var(KEY_NAME), Mark(COMMA), Blank(SPACE), Quoted(value.name), COMMA);
    FitThree(Inside(1), Mark(COMMA), Blank(SPACE), HexNumber(value.kind as nat, 1, false), COMMA);
  }

  lemma NativeFits(value: RegistryValue, last: wchar)
    requires Literal(value.name).Some?
    ensures FitAll(LINE_MODE, NativePieces(value), last) && AfterAll(LINE_MODE, NativePieces(value)) == LINE_MODE
  {
    hide FitAll, AfterAll, FirstUnit, Literal, W, BytePieces, NativePieces, PieceText;
    var head := [TypeName(NATIVE_NAME, false), Scope, Name(W("SetValue")), Mark(LPAREN)];
    var key := [Var(KEY_NAME), Mark(COMMA), Blank(SPACE), Quoted(value.name)];
    var kind := [Mark(COMMA), Blank(SPACE), HexNumber(value.kind as nat, 1, false)];
    var bytes := BytePieces(value.data);
    var close := [Mark(RPAREN)] + END;
    NativePiecesAre(value, head, key, kind, bytes, close);
    EndFits(last);
    EndStarts(last);
    CloseFits(CR);
    NativeArgumentsFit(value);
    Heads();
    hide END, NEXT;
    FitConcat(Inside(1), [Mark(RPAREN)], END, last);
    BytesFit(AfterComma(1), value.data, FirstUnit(close, last));
    FitConcat(AfterComma(1), bytes, close, last);
    NextFits(1, FirstUnit(bytes + close, last));
    FitConcat(Inside(1), NEXT, bytes + close, last);
    Starts(bytes + close, [], [], last);
    FitConcat(Inside(1), kind, NEXT + (bytes + close), last);
    assert kind == [Mark(COMMA)] + [Blank(SPACE), HexNumber(value.kind as nat, 1, false)];
    ListStarts(Mark(COMMA), [Blank(SPACE), HexNumber(value.kind as nat, 1, false)], NEXT + (bytes + close), last);
    FitConcat(Inside(1), key, kind + (NEXT + (bytes + close)), last);
    var rest := key + (kind + (NEXT + (bytes + close)));
    NativeHeadFits(FirstUnit(rest, last));
    FitConcat(LINE_MODE, head, rest, last);
  }

  lemma LineFits(op: Operation, last: wchar)
    requires Normalized(op.path) && Fault(op).None?
    ensures FitAll(LINE_MODE, LinePieces(op), last) && AfterAll(LINE_MODE, LinePieces(op)) == LINE_MODE
  {
    match op
    case Key(_) => NothingFits(LINE_MODE, last);
    case RemoveKey(path) =>
      hide Literal, FitAll, AfterAll, RemoveKeyPieces, Normalized, SubPath;
      RemoveKeyFits(path, last);
    case RemoveValue(_, name) =>
      hide Literal, FitAll, AfterAll, RemoveValuePieces, Normalized, SubPath;
      RemoveValueFits(name, last);
    case SetValue(_, value) =>
      hide Literal, FitAll, AfterAll, ManagedPieces, NativePieces, DotNetValue, Normalized, SubPath;
      if DotNetValue(value).Some? { ManagedFits(value, last); } else { NativeFits(value, last); }
  }
}
