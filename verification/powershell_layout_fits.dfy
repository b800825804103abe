/** The pieces of a line are read one by one: each fits where it stands. */
module PowerShellLineFits {
  import opened Text
  import opened ValueFormat
  import opened KeyPaths
  import opened MultiStrings
  import opened PowerShellLexer
  import opened PowerShellRoots
  import opened PowerShellWriter
  import opened PowerShellPieces
  import opened PowerShellLines
  import opened PowerShellLayout
  import opened PowerShellLineTexts

  /** Behind a token, with this many parentheses open. */
  function Inside(depth: int): Mode {
    Mode(depth, true, false, false)
  }

  /** Behind a comma and a blank. */
  function AfterComma(depth: int): Mode {
    Mode(depth, false, false, true)
  }

  /** A unit that ends numbers, names and quoted strings. */
  predicate IsStop(c: wchar) {
    c == COMMA || c == RPAREN || c == CR || c == DOT
  }

  lemma StopFacts(c: wchar)
    requires IsStop(c)
    ensures !IsIdentifier(c) && !IsSingleQuote(c) && !IsDoubleQuote(c)
  {}

  lemma Heads()
    ensures Head(Mark(COMMA)) == COMMA && Head(Mark(LPAREN)) == LPAREN && Head(Mark(RPAREN)) == RPAREN
            && Head(Mark(EQUALS)) == EQUALS
    ensures Head(Blank(SPACE)) == SPACE && Head(Blank(CR)) == CR && Head(Scope) == COLON && Head(Access) == DOT
    ensures PieceText(Mark(COMMA)) != [] && PieceText(Mark(LPAREN)) != [] && PieceText(Mark(RPAREN)) != []
            && PieceText(Mark(EQUALS)) != []
    ensures PieceText(Blank(SPACE)) != [] && PieceText(Blank(CR)) != [] && PieceText(Scope) != []
            && PieceText(Access) != [] && PieceText(Feed) != []
    ensures PieceText(ListStart) != []
  {}

  lemma SolidTexts(p: Piece)
    requires p.Quoted? ==> Literal(p.text).Some?
    requires p.Quoted? || p.HexNumber? || p.Var? || p.TypeName?
    ensures PieceText(p) != []
  {
    hide Doubled, Escaped, PaddedHex, TypeText;
  }

  // ----- names

  lemma NamesFit()
    ensures AreIdentifiers(KEY_NAME) && AreIdentifiers(FALSE_NAME)
    ensures IsTypeName(REGISTRY_NAME) && IsTypeName(NATIVE_NAME) && IsTypeName(BYTE_NAME) && IsTypeName(STRING_NAME)
  {}

  predicate IsMemberName(name: wstring) {
    AreIdentifiers(name) && IsLetter(name[0])
  }

  lemma MembersFit()
    ensures IsMemberName(W("CreateSubKey")) && IsMemberName(W("DeleteSubKeyTree")) && IsMemberName(W("DeleteValue"))
            && IsMemberName(W("SetValue"))
  {}

  lemma PropertyFits(path: wstring)
    requires Normalized(path)
    ensures IsMemberName(PropertyFrom(RootPart(path), 0))
    ensures exists i: nat :: i < BROWSABLE_ROOTS && ROOTS[i].name == RootPart(path)
  {
    NormalizedShape(path);
    var i: nat :| i < BROWSABLE_ROOTS && ROOTS[i].name == RootPart(path);
    RootOfProperty(i);
    PropertyIsName(i);
  }

  lemma PropertyIsName(i: nat)
    requires i < BROWSABLE_ROOTS
    ensures IsMemberName(PROPERTIES[i])
  {}

  // ----- fragments

  lemma EndFits(last: wchar)
    ensures FitAll(Inside(0), END, last) && AfterAll(Inside(0), END) == LINE_MODE
  {
    Heads();
    FitTwo(Inside(0), Blank(CR), Feed, last) by { hide PieceText; }
    hide FitAll, AfterAll;
  }

  lemma NextFits(depth: int, last: wchar)
    ensures FitAll(Inside(depth), NEXT, last) && AfterAll(Inside(depth), NEXT) == AfterComma(depth)
  {
    Heads();
    FitTwo(Inside(depth), Mark(COMMA), Blank(SPACE), last) by { hide PieceText; }
    hide FitAll, AfterAll;
  }

  lemma NoThrowFits(last: wchar)
    ensures FitAll(Inside(1), NO_THROW, last) && AfterAll(Inside(1), NO_THROW) == Inside(0)
  {
    Heads();
    NamesFit();
    StopFacts(RPAREN);
    SolidTexts(Var(FALSE_NAME));
    FitFour(Inside(1), Mark(COMMA), Blank(SPACE), Var(FALSE_NAME), Mark(RPAREN), last) by { hide PieceText,
          AreIdentifiers, IsIdentifier; }
    hide FitAll, AfterAll;
  }

  lemma CloseFits(last: wchar)
    ensures FitAll(Inside(1), [Mark(RPAREN)], last) && AfterAll(Inside(1), [Mark(RPAREN)]) == Inside(0)
  {
    FitOne(Inside(1), Mark(RPAREN), last);
    hide FitAll, AfterAll;
  }

  lemma MemberFits(mode: Mode, name: Piece, member: wstring, last: wchar)
    requires name.TypeName? && IsTypeName(name.name) && IsMemberName(member) && !IsIdentifier(last)
    ensures FitAll(mode, [name, Scope, Name(member)], last)
            && AfterAll(mode, [name, Scope, Name(member)]) == Inside(mode.depth)
  {
    Heads();
    assert PieceText(Name(member)) == member;
    hide FitAll, AfterAll, IsTypeName, IsIdentifier, IsLetter, PieceText;
    FitThree(mode, name, Scope, Name(member), last);
  }

  lemma RootFits(mode: Mode, path: wstring, last: wchar)
    requires Normalized(path) && IsStop(last)
    ensures FitAll(mode, RootPieces(path), last) && AfterAll(mode, RootPieces(path)) == Inside(mode.depth)
  {
    var property := PropertyFrom(RootPart(path), 0);
    PropertyFits(path);
    NamesFit();
    Heads();
    StopFacts(last);
    MemberFits(mode, TypeName(REGISTRY_NAME, false), property, last) by {
      hide PropertyFrom, RootPart, Normalized, IsIdentifier, IsLetter, FitAll, AfterAll, REGISTRY_NAME, IsTypeName;
      hide NATIVE_NAME, BYTE_NAME,
        STRING_NAME, PieceText, ROOTS, AreIdentifiers;
    }
    hide FitAll, AfterAll, PropertyFrom, RootPart, REGISTRY_NAME, PieceText;
  }

  lemma CallFits(depth: int, member: wstring, text: wstring, last: wchar)
    requires IsMemberName(member) && Literal(text).Some? && IsStop(last)
    ensures FitAll(Inside(depth), CallPieces(member, text), last)
            && AfterAll(Inside(depth), CallPieces(member, text)) == Inside(depth + 1)
  {
    Heads();
    StopFacts(last);
    SolidTexts(Quoted(text));
    assert !IsIdentifier(LPAREN);
    hide IsIdentifier, IsLetter, FitAll, AfterAll, Literal, IsSingleQuote, IsDoubleQuote;
    assert PieceText(Name(member)) == member;
    FitFour(Inside(depth), Access, Name(member), Mark(LPAREN), Quoted(text), last);
  }

  lemma KindFits(depth: int, kind: wstring, last: wchar)
    requires IsKindName(kind)
    ensures FitAll(Inside(depth), KindPieces(kind), last)
            && AfterAll(Inside(depth), KindPieces(kind)) == Inside(depth - 1)
  {
    KindIsPlain(kind);
    PlainLiteral(kind);
    Heads();
    StopFacts(RPAREN);
    SolidTexts(Quoted(kind));
    hide FitAll, AfterAll, Literal, IsSingleQuote, IsDoubleQuote, PieceText, IsKindName, IsPlain;
    FitFour(Inside(depth), Mark(COMMA), Blank(SPACE), Quoted(kind), Mark(RPAREN), last);
  }

  // ----- expressions

  lemma {:induction false} ItemsFit(mode: Mode, items: seq<wstring>, last: wchar)
    requires !mode.member && AreLiteral(items) && IsStop(last)
    ensures FitAll(mode, ItemPieces(items), last)
    ensures AfterAll(mode, ItemPieces(items)) == if items == [] then mode else Inside(mode.depth)
    decreases |items|
  {
    hide FitAll, AfterAll, Literal, IsSingleQuote, IsDoubleQuote, IsIdentifier;
    StopFacts(last);
    if items == [] {
      NothingFits(mode, last);
    } else if |items| == 1 {
      FitOne(mode, Quoted(items[0]), last);
    } else {
      var init, text := items[..|items| - 1], items[|items| - 1];
      assert forall i :: 0 <= i < |init| ==> init[i] == items[i];
      var tail := [Mark(COMMA), Blank(SPACE), Quoted(text)];
      ItemsFit(mode, init, COMMA);
      Heads();
      SolidTexts(Quoted(text));
      FitThree(Inside(mode.depth), Mark(COMMA), Blank(SPACE), Quoted(text), last);
      StartsWith(Mark(COMMA), [Blank(SPACE), Quoted(text)], last);
      FitConcat(mode, ItemPieces(init), tail, last);
    }
  }

  lemma NothingFits(mode: Mode, last: wchar)
    ensures FitAll(mode, [], last) && AfterAll(mode, []) == mode && FirstUnit([], last) == last
  {}

  /** What pieces start with. */
  lemma StartsWith(a: Piece, rest: seq<Piece>, last: wchar)
    requires PieceText(a) != []
    ensures FirstUnit([a] + rest, last) == Head(a)
  {
    assert ([a] + rest)[1..] == rest;
    hide PieceText;
  }

  lemma {:induction false} NumbersFit(mode: Mode, data: seq<byte>, last: wchar)
    requires !mode.member && data != [] && IsStop(last)
    ensures FitAll(mode, NumberPieces(data), last) && AfterAll(mode, NumberPieces(data)) == Inside(mode.depth)
    decreases |data|
  {
    StopFacts(last);
    hide FitAll, AfterAll, IsIdentifier, Hex;
    if |data| == 1 {
      FitOne(mode, HexNumber(data[0] as nat, 2, false), last);
    } else {
      var init, n := data[..|data| - 1], data[|data| - 1] as nat;
      NumbersFit(mode, init, COMMA);
      Heads();
      SolidTexts(HexNumber(n, 2, false));
      FitTwo(Inside(mode.depth), Mark(COMMA), HexNumber(n, 2, false), last);
      StartsWith(Mark(COMMA), [HexNumber(n, 2, false)], last);
      FitConcat(mode, NumberPieces(init), [Mark(COMMA), HexNumber(n, 2, false)], last);
    }
  }

  /** A list in parentheses behind its type. */
  lemma WrappedFits(mode: Mode, head: seq<Piece>, inner: seq<Piece>, last: wchar)
    requires !mode.member && FitAll(mode, head, FirstUnit(inner, RPAREN)) && FitAll(AfterAll(mode, head), inner, RPAREN)
    requires var after := AfterAll(AfterAll(mode, head), inner); after.depth == mode.depth + 1
    ensures FitAll(mode, head + inner + [Mark(RPAREN)], last)
            && AfterAll(mode, head + inner + [Mark(RPAREN)]) == Inside(mode.depth)
  {
    var after := AfterAll(AfterAll(mode, head), inner);
    Heads();
    StartsWith(Mark(RPAREN), [], last);
    assert [Mark(RPAREN)] + [] == [Mark(RPAREN)];
    FitOne(after, Mark(RPAREN), last);
    hide FitAll, AfterAll, FirstUnit;
    FitConcat(mode, head, inner, RPAREN);
    FitConcat(mode, head + inner, [Mark(RPAREN)], last);
  }

  /** A type name before the opening of its list. */
  lemma TypeOpens(mode: Mode, name: wstring, start: Piece, last: wchar)
    requires IsTypeName(name) && !mode.member && (start == ListStart || start == Mark(LPAREN))
    ensures FitAll(mode, [TypeName(name, true), start], last)
            && AfterAll(mode, [TypeName(name, true), start]) == Inside(mode.depth + 1)
  {
    Heads();
    hide FitAll, AfterAll, IsTypeName, PieceText;
    FitTwo(mode, TypeName(name, true), start, last);
  }

  lemma BytesFit(mode: Mode, data: seq<byte>, last: wchar)
    requires !mode.member
    ensures FitAll(mode, BytePieces(data), last) && AfterAll(mode, BytePieces(data)) == Inside(mode.depth)
  {
    hide *;
    NamesFit();
    InsideIs(mode.depth + 1);
    var t := TypeName(BYTE_NAME, true);
    var inner := if data == [] then [ListStart] else [Mark(LPAREN)] + NumberPieces(data);
    BytePiecesAre(data, inner);
    if data == [] {
      TypeOpens(mode, BYTE_NAME, ListStart, FirstUnit([], RPAREN));
      NothingFits(Inside(mode.depth + 1), RPAREN);
      NothingAround([t, ListStart]);
      assert [t] + [ListStart] == [t, ListStart];
      WrappedFits(mode, [t, ListStart], [], last);
    } else {
      TypeOpens(mode, BYTE_NAME, Mark(LPAREN), FirstUnit(NumberPieces(data), RPAREN));
      RparenStops();
      NumbersFit(Inside(mode.depth + 1), data, RPAREN);
      WrappedFits(mode, [t, Mark(LPAREN)], NumberPieces(data), last);
      OpenListParts(t, Mark(LPAREN), NumberPieces(data));
    }
  }

  lemma InsideIs(depth: int)
    ensures Inside(depth) == Mode(depth, true, false, false)
  {}

  lemma RparenStops()
    ensures IsStop(RPAREN)
  {}

  lemma OpenListParts(a: Piece, b: Piece, inner: seq<Piece>)
    ensures [a] + ([b] + inner) == [a, b] + inner
  {}

  lemma ListFits(mode: Mode, items: seq<wstring>, last: wchar)
    requires !mode.member && AreLiteral(items)
    ensures FitAll(mode, ListPieces(items), last) && AfterAll(mode, ListPieces(items)) == Inside(mode.depth)
  {
    hide *;
    NamesFit();
    InsideIs(mode.depth + 1);
    RparenStops();
    TypeOpens(mode, STRING_NAME, ListStart, FirstUnit(ItemPieces(items), RPAREN));
    ItemsFit(Inside(mode.depth + 1), items, RPAREN);
    WrappedFits(mode, [TypeName(STRING_NAME, true), ListStart], ItemPieces(items), last);
    ListPiecesAre(items);
  }

  lemma ListPiecesAre(items: seq<wstring>)
    ensures ListPieces(items) == [TypeName(STRING_NAME, true), ListStart] + ItemPieces(items) + [Mark(RPAREN)]
  {
    hide STRING_NAME;
  }

  lemma ExpressionFits(mode: Mode, value: RegistryValue, last: wchar)
    requires !mode.member && DotNetValue(value).Some? && IsStop(last)
    ensures FitAll(mode, ExpressionPieces(value), last) && AfterAll(mode, ExpressionPieces(value)) == Inside(mode.depth)
  {
    StopFacts(last);
    hide FitAll, AfterAll, ListPieces, BytePieces, ByteArray, LiteralList, Literal, AreLiteral, DecodeString;
    hide StringData, MultiStringItems,
      MultiStringData, Hex, W, ReadUnsigned, IsIdentifier, IsSingleQuote, IsDoubleQuote;
    if value.kind == REG_SZ || value.kind == REG_EXPAND_SZ {
      FitOne(mode, Quoted(DecodeString(value.data).value), last);
    } else if value.kind == REG_MULTI_SZ {
      ListFits(mode, MultiStringItems(value.data), last);
    } else if value.kind == REG_DWORD || value.kind == REG_QWORD {
      var width := WidthOf(value.kind);
      var n := ReadUnsigned(value.data, width);
      NumberBound(value.data, width);
      FitOne(mode, HexNumber(n, width * 2, value.kind == REG_QWORD), last);
    } else {
      BytesFit(mode, value.data, last);
    }
  }

  lemma NumberBound(data: seq<byte>, width: nat)
    requires |data| == width && (width == 4 || width == 8)
    ensures ReadUnsigned(data, width) < (if width == 4 then 0x1_0000_0000 else 0x1_0000_0000_0000_0000)
  {
    BytesOfNumber(data);
    PowerFacts();
  }

  lemma PowerFacts()
    ensures Power16(8) == 0x1_0000_0000 && Power16(16) == 0x1_0000_0000_0000_0000
  {
    assert Power16(4) == 0x1_0000;
    assert Power16(8) == 0x1_0000_0000;
    assert Power16(12) == 0x1_0000_0000_0000;
  }
}
