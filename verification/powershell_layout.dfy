/** Every line the script writer writes, laid out in pieces. */
module PowerShellLayout {
  import opened Text
  import opened ValueFormat
  import opened Operations
  import opened KeyPaths
  import opened MultiStrings
  import opened PowerShellRoots
  import opened PowerShellWriter
  import opened PowerShellPieces
  import opened PowerShellLines

  // ----- the pieces of expressions

  const STRING_NAME := W("string")
  const BYTE_NAME := W("byte")

  function ItemPieces(items: seq<wstring>): seq<Piece> {
    if items == [] then []
    else if |items| == 1 then [Quoted(items[0])]
    else ItemPieces(items[..|items| - 1]) + [Mark(COMMA), Blank(SPACE), Quoted(items[|items| - 1])]
  }

  function NumberPieces(data: seq<byte>): seq<Piece> {
    if data == [] then []
    else if |data| == 1 then [HexNumber(data[0] as nat, 2, false)]
    else NumberPieces(data[..|data| - 1]) + [Mark(COMMA), HexNumber(data[|data| - 1] as nat, 2, false)]
  }

  function BytePieces(data: seq<byte>): seq<Piece> {
    [TypeName(BYTE_NAME, true)] + (if data == [] then [ListStart]
                                   else [Mark(LPAREN)] + NumberPieces(data)) + [Mark(RPAREN)]
  }

  function ListPieces(items: seq<wstring>): seq<Piece> {
    [TypeName(STRING_NAME, true), ListStart] + ItemPieces(items) + [Mark(RPAREN)]
  }

  /** The expression of a value that .NET stores. */
  function ExpressionPieces(value: RegistryValue): seq<Piece> {
    if value.kind == REG_SZ || value.kind == REG_EXPAND_SZ then
      var text := DecodeString(value.data);
      [Quoted(if text.Some? then text.value else [])]
    else if value.kind == REG_MULTI_SZ then ListPieces(MultiStringItems(value.data))
    else if value.kind == REG_DWORD || value.kind == REG_QWORD then
      [HexNumber(if |value.data| == WidthOf(value.kind) then ReadUnsigned(value.data, WidthOf(value.kind))
                 else 0, WidthOf(value.kind) * 2,
                 value.kind == REG_QWORD)]
    else BytePieces(value.data)
  }

  // ----- the pieces of lines

  const KEY_NAME := W("key")
  const FALSE_NAME := W("false")
  const END: seq<Piece> := [Blank(CR), Feed]
  const NEXT: seq<Piece> := [Mark(COMMA), Blank(SPACE)]
  const NO_THROW: seq<Piece> := [Mark(COMMA), Blank(SPACE), Var(FALSE_NAME), Mark(RPAREN)]
  const REGISTRY_NAME := W("Microsoft.Win32.Registry")
  const NATIVE_NAME := W("RegKit.Native")

  function RootPieces(path: wstring): seq<Piece> {
    [TypeName(REGISTRY_NAME, false), Scope, Name(PropertyFrom(RootPart(path), 0))]
  }

  function CallPieces(member: wstring, text: wstring): seq<Piece> {
    [Access, Name(member), Mark(LPAREN), Quoted(text)]
  }

  function OpenPieces(path: wstring): seq<Piece> {
    [Var(KEY_NAME), Blank(SPACE), Mark(EQUALS), Blank(SPACE)]
    + (RootPieces(path) + ((if SubPath(path) == [] then []
                            else CallPieces(W("CreateSubKey"), SubPath(path)) + [Mark(RPAREN)]) + END))
  }

  function RemoveKeyPieces(path: wstring): seq<Piece> {
    RootPieces(path) + (CallPieces(W("DeleteSubKeyTree"), SubPath(path)) + (NO_THROW + END))
  }

  function RemoveValuePieces(name: wstring): seq<Piece> {
    [Var(KEY_NAME)] + (CallPieces(W("DeleteValue"), name) + (NO_THROW + END))
  }

  function KindPieces(kind: wstring): seq<Piece> {
    [Mark(COMMA), Blank(SPACE), Quoted(kind), Mark(RPAREN)]
  }

  function ManagedPieces(value: RegistryValue, kind: wstring): seq<Piece> {
    [Var(KEY_NAME)] + (CallPieces(W("SetValue"), value.name)
                       + (NEXT + (ExpressionPieces(value) + (KindPieces(kind) + END))))
  }

  function NativePieces(value: RegistryValue): seq<Piece> {
    [TypeName(NATIVE_NAME, false), Scope, Name(W("SetValue")), Mark(LPAREN)]
    + ([Var(KEY_NAME), Mark(COMMA), Blank(SPACE), Quoted(value.name)]
       + ([Mark(COMMA), Blank(SPACE), HexNumber(value.kind as nat, 1, false)]
          + (NEXT + (BytePieces(value.data) + ([Mark(RPAREN)] + END)))))
  }

  function LinePieces(op: Operation): seq<Piece> {
    match op
    case Key(_) => []
    case RemoveKey(path) => RemoveKeyPieces(path)
    case RemoveValue(_, name) => RemoveValuePieces(name)
    case SetValue(_, value) =>
      var form := DotNetValue(value);
      if form.Some? then ManagedPieces(value, form.value.kind) else NativePieces(value)
  }

  // ----- short lists

  lemma One(a: Piece)
    ensures Flat([a]) == PieceText(a) && TokensOf([a]) == PieceTokens(a)
  {
    hide PieceText, PieceTokens;
    assert [a][1..] == [];
    assert PieceText(a) + [] == PieceText(a) && PieceTokens(a) + [] == PieceTokens(a);
  }

  lemma Two(a: Piece, b: Piece)
    ensures Flat([a, b]) == PieceText(a) + PieceText(b) && TokensOf([a, b]) == PieceTokens(a) + PieceTokens(b)
  {
    hide PieceText, PieceTokens, Flat, TokensOf;
    assert [a, b] == [a] + [b];
    FlatConcat([a], [b]);
    One(a);
    One(b);
  }

  lemma Three(a: Piece, b: Piece, c: Piece)
    ensures Flat([a, b, c]) == PieceText(a) + (PieceText(b) + PieceText(c))
    ensures TokensOf([a, b, c]) == PieceTokens(a) + (PieceTokens(b) + PieceTokens(c))
  {
    hide PieceText, PieceTokens, Flat, TokensOf;
    assert [a, b, c] == [a] + [b, c];
    FlatConcat([a], [b, c]);
    One(a);
    Two(b, c);
  }

  lemma Four(a: Piece, b: Piece, c: Piece, d: Piece)
    ensures Flat([a, b, c, d]) == PieceText(a) + (PieceText(b) + (PieceText(c) + PieceText(d)))
    ensures TokensOf([a, b, c, d]) == PieceTokens(a) + (PieceTokens(b) + (PieceTokens(c) + PieceTokens(d)))
  {
    hide PieceText, PieceTokens, Flat, TokensOf;
    assert [a, b, c, d] == [a] + [b, c, d];
    FlatConcat([a], [b, c, d]);
    One(a);
    Three(b, c, d);
  }

  function Head(p: Piece): wchar {
    if PieceText(p) == [] then NUL else PieceText(p)[0]
  }

  lemma FitOne(mode: Mode, a: Piece, last: wchar)
    requires Fits(mode, a, last)
    ensures FitAll(mode, [a], last) && AfterAll(mode, [a]) == After(mode, a)
  {
    hide Fits, After;
    assert [a][1..] == [];
    assert FirstUnit([], last) == last;
  }

  /** A piece before others that fit. */
  lemma FitBefore(mode: Mode, a: Piece, b: Piece, rest: seq<Piece>, last: wchar)
    requires PieceText(b) != [] && Fits(mode, a, Head(b)) && FitAll(After(mode, a), [b] + rest, last)
    ensures FitAll(mode, [a] + ([b] + rest), last)
            && AfterAll(mode, [a] + ([b] + rest)) == AfterAll(After(mode, a), [b] + rest)
  {
    var all := [b] + rest;
    assert ([a] + all)[1..] == all && all[1..] == rest;
    assert FirstUnit(all, last) == Head(b) by { hide Fits, After, FitAll, AfterAll; }
    hide Fits, After, Head, PieceText, FirstUnit;
  }

  lemma FitTwo(mode: Mode, a: Piece, b: Piece, last: wchar)
    requires PieceText(b) != [] && Fits(mode, a, Head(b)) && Fits(After(mode, a), b, last)
    ensures FitAll(mode, [a, b], last) && AfterAll(mode, [a, b]) == After(After(mode, a), b)
  {
    hide *;
    FitOne(After(mode, a), b, last);
    assert [a, b] == [a] + ([b] + []) && [b] + [] == [b];
    FitBefore(mode, a, b, [], last);
  }

  lemma FitThree(mode: Mode, a: Piece, b: Piece, c: Piece, last: wchar)
    requires PieceText(b) != [] && PieceText(c) != []
    requires Fits(mode, a, Head(b)) && Fits(After(mode, a), b, Head(c)) && Fits(After(After(mode, a), b), c, last)
    ensures FitAll(mode, [a, b, c], last) && AfterAll(mode, [a, b, c]) == After(After(After(mode, a), b), c)
  {
    hide *;
    FitTwo(After(mode, a), b, c, last);
    assert [a, b, c] == [a] + ([b] + [c]) && [b] + [c] == [b, c];
    FitBefore(mode, a, b, [c], last);
  }

  lemma FitFour(mode: Mode, a: Piece, b: Piece, c: Piece, d: Piece, last: wchar)
    requires PieceText(b) != [] && PieceText(c) != [] && PieceText(d) != []
    requires Fits(mode, a, Head(b)) && Fits(After(mode, a), b, Head(c)) && Fits(After(After(mode, a), b), c, Head(d))
    requires Fits(After(After(After(mode, a), b), c), d, last)
    ensures FitAll(mode, [a, b, c, d], last)
            && AfterAll(mode, [a, b, c, d]) == After(After(After(After(mode, a), b), c), d)
  {
    hide *;
    FitThree(After(mode, a), b, c, d, last);
    assert [a, b, c, d] == [a] + ([b] + [c, d]) && [b] + [c, d] == [b, c, d];
    FitBefore(mode, a, b, [c, d], last);
  }

  // ----- the text of expressions

  lemma {:induction false} ItemsText(items: seq<wstring>)
    requires AreLiteral(items)
    ensures Flat(ItemPieces(items)) == LiteralList(items)
    decreases |items|
  {
    hide Literal, Flat, PieceText;
    if items == [] {
      NoPieces();
    } else if |items| == 1 {
      One(Quoted(items[0]));
      QuotedIs(items[0]);
    } else {
      var init, last := items[..|items| - 1], items[|items| - 1];
      assert forall i :: 0 <= i < |init| ==> init[i] == items[i];
      ItemsText(init);
      FlatConcat(ItemPieces(init), [Mark(COMMA), Blank(SPACE), Quoted(last)]);
      Three(Mark(COMMA), Blank(SPACE), Quoted(last));
      QuotedIs(last);
      MarkIs(COMMA);
      assert LiteralList(init) + ([COMMA] + ([SPACE] + Literal(last).value))
        == LiteralList(init) + [COMMA, SPACE] + Literal(last).value;
    }
  }

  lemma NoPieces()
    ensures Flat([]) == [] && TokensOf([]) == []
  {}

  lemma QuotedIs(text: wstring)
    requires Literal(text).Some?
    ensures PieceText(Quoted(text)) == Literal(text).value
  {
    hide Literal;
  }

  lemma MarkIs(c: wchar)
    ensures PieceText(Mark(c)) == [c] && PieceText(Blank(SPACE)) == [SPACE]
  {}

  lemma {:induction false} NumbersText(data: seq<byte>)
    ensures Flat(NumberPieces(data)) == ByteList(data)
    decreases |data|
  {
    hide Flat, Hex, PieceText;
    if data == [] {
      NoPieces();
    } else if |data| == 1 {
      One(HexNumber(data[0] as nat, 2, false));
      NumberIs(data[0] as nat, 2);
    } else {
      var init, last := data[..|data| - 1], data[|data| - 1] as nat;
      NumbersText(init);
      FlatConcat(NumberPieces(init), [Mark(COMMA), HexNumber(last, 2, false)]);
      Two(Mark(COMMA), HexNumber(last, 2, false));
      NumberIs(last, 2);
      MarkIs(COMMA);
      ConcatAssoc(ByteList(init), [COMMA], Hex(last, 2));
    }
  }

  lemma NumberIs(value: nat, width: nat)
    ensures PieceText(HexNumber(value, width, false)) == Hex(value, width)
    ensures PieceText(HexNumber(value, width, true)) == Hex(value, width) + [0x4C]
  {
    hide Hex;
    assert Hex(value, width) + [] == Hex(value, width);
  }

  lemma Bracketed(s: string, inside: string)
    requires s == ['['] + inside + [']']
    ensures W(s) == [LBRACKET] + (W(inside) + [RBRACKET])
  {}

  lemma TypeTexts()
    ensures PieceText(TypeName(BYTE_NAME, true)) == BYTES && PieceText(TypeName(STRING_NAME, true)) == STRINGS
  {
    hide W;
    Bracketed("[byte[]]", "byte[]");
    Bracketed("[string[]]", "string[]");
    ConcatAssoc([LBRACKET], BYTE_NAME + [LBRACKET, RBRACKET], [RBRACKET]);
    ConcatAssoc([LBRACKET], STRING_NAME + [LBRACKET, RBRACKET], [RBRACKET]);
  }

  lemma FixedTexts()
    ensures PieceText(ListStart) == [AT, LPAREN] && PieceText(Scope) == [COLON, COLON] && PieceText(Access) == [DOT]
    ensures PieceText(Blank(SPACE)) == [SPACE] && PieceText(Blank(CR)) == [CR] && PieceText(Feed) == [LF]
    ensures PieceText(Mark(COMMA)) == [COMMA] && PieceText(Mark(LPAREN)) == [LPAREN]
            && PieceText(Mark(RPAREN)) == [RPAREN]
    ensures PieceText(Mark(EQUALS)) == [EQUALS]
  {}

  lemma BytesText(data: seq<byte>)
    ensures Flat(BytePieces(data)) == ByteArray(data)
  {
    hide *;
    TypeTexts();
    FixedTexts();
    NumbersText(data);
    var inner := if data == [] then [ListStart] else [Mark(LPAREN)] + NumberPieces(data);
    BytePiecesAre(data, inner);
    FlatConcat([TypeName(BYTE_NAME, true)] + inner, [Mark(RPAREN)]);
    FlatConcat([TypeName(BYTE_NAME, true)], inner);
    One(TypeName(BYTE_NAME, true));
    One(ListStart);
    One(Mark(LPAREN));
    One(Mark(RPAREN));
    FlatConcat([Mark(LPAREN)], NumberPieces(data));
    ConcatAssoc(BYTES, [LPAREN], ByteList(data));
    assert BYTES + [AT, LPAREN] + [RPAREN] == BYTES + [AT, LPAREN, RPAREN];
  }

  lemma BytePiecesAre(data: seq<byte>, inner: seq<Piece>)
    requires inner == if data == [] then [ListStart] else [Mark(LPAREN)] + NumberPieces(data)
    ensures BytePieces(data) == [TypeName(BYTE_NAME, true)] + inner + [Mark(RPAREN)]
    ensures ByteArray(data) == if data == [] then BYTES + [AT, LPAREN, RPAREN]
                               else BYTES + [LPAREN] + ByteList(data) + [RPAREN]
  {
    hide NumberPieces, ByteList, BYTES, BYTE_NAME;
  }

  lemma ListText(items: seq<wstring>)
    requires AreLiteral(items)
    ensures Flat(ListPieces(items)) == STRINGS + [AT, LPAREN] + LiteralList(items) + [RPAREN]
  {
    TypeTexts();
    FixedTexts();
    hide Flat, ItemPieces, LiteralList, AreLiteral, PieceText, STRINGS, STRING_NAME;
    ItemsText(items);
    FlatConcat([TypeName(STRING_NAME, true), ListStart] + ItemPieces(items), [Mark(RPAREN)]);
    FlatConcat([TypeName(STRING_NAME, true), ListStart], ItemPieces(items));
    Two(TypeName(STRING_NAME, true), ListStart);
    One(Mark(RPAREN));
  }

  lemma ExpressionText(value: RegistryValue)
    requires DotNetValue(value).Some?
    ensures Flat(ExpressionPieces(value)) == DotNetValue(value).value.expression
  {
    hide Flat, ListPieces, BytePieces, ByteArray, LiteralList, Literal, AreLiteral, DecodeString, StringData;
    hide MultiStringItems, MultiStringData,
      Hex, W, PieceText, ReadUnsigned;
    if value.kind == REG_SZ || value.kind == REG_EXPAND_SZ {
      var text := DecodeString(value.data).value;
      One(Quoted(text));
      QuotedIs(text);
    } else if value.kind == REG_MULTI_SZ {
      ListText(MultiStringItems(value.data));
    } else if value.kind == REG_DWORD || value.kind == REG_QWORD {
      var width := WidthOf(value.kind);
      var n := ReadUnsigned(value.data, width);
      NumberIs(n, width * 2);
      One(HexNumber(n, width * 2, value.kind == REG_QWORD));
      assert Hex(n, width * 2) + [] == Hex(n, width * 2);
    } else {
      BytesText(value.data);
    }
  }
}
