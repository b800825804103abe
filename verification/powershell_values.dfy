/** The expression of a value evaluates to an item that gives the value's type and bytes back. */
module PowerShellValues {
  import opened Text
  import opened ValueFormat
  import opened Operations
  import opened MultiStrings
  import opened PowerShellLexer
  import opened PowerShellItems
  import opened PowerShellGrammar
  import opened PowerShellEvaluation
  import opened PowerShellWriter
  import opened PowerShellPieces
  import opened PowerShellLines
  import opened PowerShellLayout
  import opened PowerShellLineFits

  // ----- the tokens of lists

  function QuotedTokens(items: seq<wstring>): seq<Token> {
    seq(|items|, i requires 0 <= i < |items| => QuotedToken(items[i]))
  }

  function HexToken(n: nat, width: nat, long: bool): Token {
    NumberOf(PieceText(HexNumber(n, width, long)), (n % 0x1_0000_0000_0000_0000) as uint64, true, long, false)
  }

  function NumberTokens(data: seq<byte>): seq<Token> {
    seq(|data|, i requires 0 <= i < |data| => HexToken(data[i] as nat, 2, false))
  }

  lemma MarkTokens()
    ensures PieceTokens(Mark(COMMA)) == [COMMA_SIGN] && PieceTokens(Mark(RPAREN)) == [CLOSE_SIGN]
            && PieceTokens(Mark(LPAREN)) == [OPEN_SIGN]
    ensures PieceTokens(ListStart) == [LIST_SIGN] && PieceTokens(Access) == [DOT_SIGN]
            && PieceTokens(Scope) == [SCOPE_SIGN]
    ensures PieceTokens(Blank(SPACE)) == [] && PieceTokens(Blank(CR)) == [] && PieceTokens(Feed) == [Plain(Newline, [])]
  {
    assert W(".") == [DOT];
  }

  lemma JoinedMore(tokens: seq<Token>, token: Token)
    ensures Joined([token]) == [token] && Joined([]) == []
    ensures tokens != [] ==> Joined(tokens + [token]) == Joined(tokens) + [COMMA_SIGN, token]
  {
    assert (tokens + [token])[..|tokens|] == tokens;
    hide COMMA_SIGN;
  }

  lemma LastItem(items: seq<wstring>)
    requires items != []
    ensures var init, last := items[..|items| - 1], items[|items| - 1];
            && QuotedTokens(items) == QuotedTokens(init) + [QuotedToken(last)] && |QuotedTokens(init)| == |init|
            && ItemPieces(items) == if |items| == 1 then [Quoted(last)]
                                    else ItemPieces(init) + [Mark(COMMA), Blank(SPACE), Quoted(last)]
  {
    hide QuotedToken;
  }

  lemma {:induction false} ItemTokens(items: seq<wstring>)
    ensures TokensOf(ItemPieces(items)) == Joined(QuotedTokens(items))
    decreases |items|
  {
    if items == [] {
      NoPieces();
    } else {
      var init, last := items[..|items| - 1], items[|items| - 1];
      LastItem(items);
      TokenOfQuoted(last);
      JoinedMore(QuotedTokens(init), QuotedToken(last));
      MarkTokens();
      hide TokensOf, PieceTokens, QuotedToken, ItemPieces, QuotedTokens, Joined, COMMA_SIGN;
      if |items| == 1 {
        One(Quoted(last));
        NothingAdded(QuotedTokens(init), QuotedToken(last));
      } else {
        ItemTokens(init);
        Three(Mark(COMMA), Blank(SPACE), Quoted(last));
        FlatConcat(ItemPieces(init), [Mark(COMMA), Blank(SPACE), Quoted(last)]);
        assert [COMMA_SIGN] + ([] + [QuotedToken(last)]) == [COMMA_SIGN, QuotedToken(last)];
      }
    }
  }

  lemma NothingAdded(tokens: seq<Token>, token: Token)
    ensures |tokens| == 0 ==> tokens + [token] == [token]
  {}

  lemma TokenOfQuoted(text: wstring)
    ensures PieceTokens(Quoted(text)) == [QuotedToken(text)]
  {
    hide QuotedToken;
  }

  lemma TokenOfNumber(n: nat, width: nat, long: bool)
    ensures PieceTokens(HexNumber(n, width, long)) == [HexToken(n, width, long)]
  {
    hide PieceText, NumberOf;
  }

  lemma LastByte(data: seq<byte>)
    requires data != []
    ensures var init, last := data[..|data| - 1], data[|data| - 1] as nat;
            && NumberTokens(data) == NumberTokens(init) + [HexToken(last, 2, false)] && |NumberTokens(init)| == |init|
            && NumberPieces(data) == if |data| == 1 then [HexNumber(last, 2, false)]
                                     else NumberPieces(init) + [Mark(COMMA), HexNumber(last, 2, false)]
  {
    hide HexToken;
  }

  lemma {:induction false} ByteTokens(data: seq<byte>)
    ensures TokensOf(NumberPieces(data)) == Joined(NumberTokens(data))
    decreases |data|
  {
    if data == [] {
      NoPieces();
    } else {
      var init, last := data[..|data| - 1], data[|data| - 1] as nat;
      LastByte(data);
      TokenOfNumber(last, 2, false);
      JoinedMore(NumberTokens(init), HexToken(last, 2, false));
      MarkTokens();
      hide TokensOf, PieceTokens, HexToken, NumberPieces, NumberTokens, Joined, COMMA_SIGN;
      if |data| == 1 {
        One(HexNumber(last, 2, false));
        NothingAdded(NumberTokens(init), HexToken(last, 2, false));
      } else {
        ByteTokens(init);
        Two(Mark(COMMA), HexNumber(last, 2, false));
        FlatConcat(NumberPieces(init), [Mark(COMMA), HexNumber(last, 2, false)]);
        assert [COMMA_SIGN] + [HexToken(last, 2, false)] == [COMMA_SIGN, HexToken(last, 2, false)];
      }
    }
  }

  /** The number that a hexadecimal token of 32 or 64 bits stands for. */
  function HexItem(n: nat, long: bool): Item {
    Num(if long then SignedLong(n) else SignedInt(n), long)
  }

  lemma NumberIsSimple(n: nat, width: nat, long: bool)
    requires n < 0x1_0000_0000 || (long && n < 0x1_0000_0000_0000_0000)
    ensures IsSimple(HexToken(n, width, long), HexItem(n, long))
  {
    hide PieceText, SignedInt, SignedLong;
  }

  lemma QuotedIsSimple(text: wstring)
    ensures IsSimple(QuotedToken(text), Str(text))
  {
    hide IsPlain;
  }

  lemma ByteIsSimple(data: seq<byte>, i: nat)
    requires i < |data|
    ensures |NumberTokens(data)| == |data| == |ByteItems(data)| && IsSimple(NumberTokens(data)[i], ByteItems(data)[i])
  {
    NumberIsSimple(data[i] as nat, 2, false);
    hide HexToken, IsSimple;
  }

  lemma BytesAreSimple(data: seq<byte>)
    ensures AreSimple(NumberTokens(data), ByteItems(data))
  {
    forall i | 0 <= i < |data|
      ensures |NumberTokens(data)| == |data| == |ByteItems(data)| && IsSimple(NumberTokens(data)[i], ByteItems(data)[i])
    {
      ByteIsSimple(data, i);
    }
    hide IsSimple, HexToken, NumberTokens, ByteItems;
    BytesFacts(data);
  }

  lemma ItemsAreSimple(items: seq<wstring>)
    ensures AreSimple(QuotedTokens(items), StrItems(items))
  {
    forall i | 0 <= i < |items| ensures IsSimple(QuotedTokens(items)[i], StrItems(items)[i]) {
      QuotedIsSimple(items[i]);
      hide QuotedToken, IsSimple;
    }
    hide IsSimple, QuotedToken;
  }

  // ----- casts of lists

  lemma BytesOfItems(data: seq<byte>)
    ensures ByteElements(ByteItems(data)) == Some(data)
    ensures forall cast :: BytesOf(Many(ByteItems(data), cast)) == Some(data)
  {
    var items := ByteItems(data);
    forall i | 0 <= i < |items| ensures ByteOf(items[i]) == Some(data[i]) {}
    hide ByteOf;
    assert ByteElements(items).value == data;
    forall cast ensures BytesOf(Many(items, cast)) == Some(data) { assert BytesOf(Many(items, cast)).value == data; }
  }

  lemma TextsOfItems(texts: seq<wstring>)
    ensures TextsOf(StrItems(texts)) == Some(texts)
  {
    var items := StrItems(texts);
    assert AreTexts(items);
    assert TextsOf(items).value == texts;
  }

  lemma TypesOfLists()
    ensures TypeText(BYTE_NAME, true) == BYTE_ARRAY && TypeText(STRING_NAME, true) == STRING_ARRAY
    ensures ShortType(BYTE_ARRAY) == BYTE_ARRAY && ShortType(STRING_ARRAY) == STRING_ARRAY
    ensures BYTE_ARRAY != W("void") && STRING_ARRAY != W("void") && BYTE_ARRAY != STRING_ARRAY
  {
    assert |W("void")| == 4 && |BYTE_ARRAY| == 6 && |STRING_ARRAY| == 8;
    assert ToLower(BYTE_ARRAY) == BYTE_ARRAY && ToLower(STRING_ARRAY) == STRING_ARRAY;
    assert UpperUnit(STRING_ARRAY[..7][1]) != UpperUnit(SYSTEM[1]);
  }

  lemma CastBytes(value: Item, data: seq<byte>)
    requires Elements(value) == ByteItems(data)
    ensures Cast(BYTE_ARRAY, value) == Some(Many(ByteItems(data), BYTE_ARRAY))
  {
    TypesOfLists();
    BytesOfItems(data);
    hide ShortType, ByteElements, W, BYTE_ARRAY, STRING_ARRAY;
  }

  lemma CastTexts(value: Item, texts: seq<wstring>)
    requires Elements(value) == StrItems(texts)
    ensures Cast(STRING_ARRAY, value) == Some(Many(StrItems(texts), STRING_ARRAY))
  {
    TypesOfLists();
    TextsOfItems(texts);
    hide ShortType, TextsOf, W, BYTE_ARRAY, STRING_ARRAY;
  }

  // ----- expressions

  lemma BytePieceTokens(data: seq<byte>)
    ensures TokensOf(BytePieces(data)) ==
              if data == [] then [Plain(Type, BYTE_ARRAY), LIST_SIGN] + [CLOSE_SIGN]
              else [Plain(Type, BYTE_ARRAY), OPEN_SIGN] + (Joined(NumberTokens(data)) + [CLOSE_SIGN])
  {
    hide *;
    var inner := if data == [] then [ListStart] else [Mark(LPAREN)] + NumberPieces(data);
    BytePiecesAre(data, inner);
    ByteTokens(data);
    MarkTokens();
    TypesOfLists();
    TypeToken(BYTE_NAME);
    FlatConcat([TypeName(BYTE_NAME, true)] + inner, [Mark(RPAREN)]);
    FlatConcat([TypeName(BYTE_NAME, true)], inner);
    FlatConcat([Mark(LPAREN)], NumberPieces(data));
    One(TypeName(BYTE_NAME, true));
    One(ListStart);
    One(Mark(LPAREN));
    One(Mark(RPAREN));
    TokenParts(Plain(Type, BYTE_ARRAY), OPEN_SIGN, Joined(NumberTokens(data)), CLOSE_SIGN);
    TokenParts(Plain(Type, BYTE_ARRAY), LIST_SIGN, [], CLOSE_SIGN);
  }

  lemma TypeToken(name: wstring)
    ensures PieceTokens(TypeName(name, true)) == [Plain(Type, TypeText(name, true))]
  {}

  lemma TokenParts(a: Token, b: Token, c: seq<Token>, d: Token)
    ensures [a] + ([b] + c) + [d] == [a, b] + (c + [d]) && ([a] + [b]) + [d] == [a, b] + [d]
  {}

  lemma ListPieceTokens(items: seq<wstring>)
    ensures TokensOf(ListPieces(items))
            == [Plain(Type, STRING_ARRAY), LIST_SIGN] + (Joined(QuotedTokens(items)) + [CLOSE_SIGN])
  {
    hide *;
    ItemTokens(items);
    MarkTokens();
    TypesOfLists();
    TypeToken(STRING_NAME);
    ListPiecesAre(items);
    FlatConcat([TypeName(STRING_NAME, true), ListStart] + ItemPieces(items), [Mark(RPAREN)]);
    FlatConcat([TypeName(STRING_NAME, true), ListStart], ItemPieces(items));
    Two(TypeName(STRING_NAME, true), ListStart);
    One(Mark(RPAREN));
    TokenParts(Plain(Type, STRING_ARRAY), LIST_SIGN, Joined(QuotedTokens(items)), CLOSE_SIGN);
    assert [Plain(Type, STRING_ARRAY)] + [LIST_SIGN] == [Plain(Type, STRING_ARRAY), LIST_SIGN];
    ConcatAssoc([Plain(Type, STRING_ARRAY), LIST_SIGN], Joined(QuotedTokens(items)), [CLOSE_SIGN]);
  }

  lemma EmptyTypedList(ts: seq<Token>, st: State, depth: nat, name: wstring, item: Item)
    requires depth + 2 < DEPTH_LIMIT && HasTokens(ts, st.position, [Plain(Type, name), LIST_SIGN] + [CLOSE_SIGN])
    requires EndsValue(Peek(ts, st.position + 3)) && Cast(name, Many([], [])) == Some(item)
    ensures Unary(ts, st, depth, false) == Some((item, Step(st, 3)))
  {
    var all := [Plain(Type, name), LIST_SIGN] + [CLOSE_SIGN];
    HasTokenAt(ts, st.position, all, 0);
    HasTokenAt(ts, st.position, all, 1);
    HasTokenAt(ts, st.position, all, 2);
    hide Parenthesized, Unary, Cast, EndsValue, LIST_SIGN, CLOSE_SIGN, OPEN_SIGN, HasTokens;
    EmptyParenthesized(ts, Step(st, 2), depth + 2);
    CastList(ts, st, depth, name, true, Many([], []), Step(st, 3), item);
  }

  lemma TwoThen(ts: seq<Token>, i: nat, a: Token, b: Token, rest: seq<Token>)
    requires HasTokens(ts, i, [a, b] + rest)
    ensures i + 1 < |ts| && ts[i] == a && ts[i + 1] == b && HasTokens(ts, i + 2, rest)
  {
    HasTokensSplit(ts, i, [a, b], rest);
    HasTokenAt(ts, i, [a, b], 0);
    HasTokenAt(ts, i, [a, b], 1);
  }

  /** A typed list of simple tokens. */
  lemma TypedList(ts: seq<Token>, st: State, depth: nat, name: wstring, asList: bool, tokens: seq<Token>,
      items: seq<Item>, item: Item)
    requires depth + 2 < DEPTH_LIMIT && AreSimple(tokens, items) && tokens != []
    requires forall k :: 0 <= k < |items| ==> items[k].Str? || items[k].Num?
    requires HasTokens(ts, st.position, [Plain(Type, name), if asList then LIST_SIGN
                                                            else OPEN_SIGN] + (Joined(tokens) + [CLOSE_SIGN]))
    requires EndsValue(Peek(ts, st.position + 3 + |Joined(tokens)|))
    requires forall value :: Elements(value) == items ==> Cast(name, value) == Some(item)
    ensures Unary(ts, st, depth, false) == Some((item, Step(st, 3 + |Joined(tokens)|)))
  {
    hide *;
    TwoThen(ts, st.position, Plain(Type, name), if asList then LIST_SIGN else OPEN_SIGN, Joined(tokens) + [CLOSE_SIGN]);
    JoinedLength(tokens);
    var inside, after := Step(st, 2), Step(st, 3 + |Joined(tokens)|);
    TypedParts(ts, st, inside, after, tokens);
    ListParenthesized(ts, inside, tokens, items, depth + 2, asList);
    CastList(ts, st, depth, name, asList, Parenthesized(ts, inside, depth + 2, asList).value.0, after, item);
  }

  lemma TypedParts(ts: seq<Token>, st: State, inside: State, after: State, tokens: seq<Token>)
    requires inside == Step(st, 2) && HasTokens(ts, st.position + 2, Joined(tokens) + [CLOSE_SIGN])
             && |Joined(tokens)| == 2 * |tokens| - 1
    requires after == Step(st, 3 + |Joined(tokens)|)
    ensures ListStands(ts, inside.position, tokens) && after == Step(inside, 2 * |tokens|)
    ensures inside.position == st.position + 2 && after.position == st.position + 3 + |Joined(tokens)|
  {
    hide Joined;
  }

  lemma BytesFacts(data: seq<byte>)
    ensures |NumberTokens(data)| == |ByteItems(data)| == |data|
            && forall k :: 0 <= k < |data| ==> ByteItems(data)[k].Num?
  {
    hide HexToken;
  }

  lemma BytesUnary(ts: seq<Token>, st: State, depth: nat, data: seq<byte>)
    requires depth + 2 < DEPTH_LIMIT && HasTokens(ts, st.position, TokensOf(BytePieces(data)))
    requires EndsValue(Peek(ts, st.position + |TokensOf(BytePieces(data))|))
    ensures Unary(ts, st, depth, false)
            == Some((Many(ByteItems(data), BYTE_ARRAY), Step(st, |TokensOf(BytePieces(data))|)))
  {
    BytePieceTokens(data);
    BytesAreSimple(data);
    BytesFacts(data);
    var tokens, items := NumberTokens(data), ByteItems(data);
    hide Unary, Cast, Joined, EndsValue, AreSimple, TokensOf, BytePieces, HasTokens, BYTE_ARRAY, CLOSE_SIGN, OPEN_SIGN;
    hide LIST_SIGN, NumberTokens, ByteItems;
    if data == [] {
      assert items == [];
      CastBytes(Many([], []), data);
      EmptyTypedList(ts, st, depth, BYTE_ARRAY, Many(items, BYTE_ARRAY));
    } else {
      forall value | Elements(value) == items ensures Cast(BYTE_ARRAY, value) == Some(Many(items, BYTE_ARRAY)) {
        CastBytes(value, data);
      }
      hide Elements;
      TypedList(ts, st, depth, BYTE_ARRAY, false, tokens, items, Many(items, BYTE_ARRAY));
    }
  }

  lemma TextsFacts(texts: seq<wstring>)
    ensures |QuotedTokens(texts)| == |StrItems(texts)| == |texts|
            && forall k :: 0 <= k < |texts| ==> StrItems(texts)[k].Str?
    ensures Joined([]) == [] && [] + [CLOSE_SIGN] == [CLOSE_SIGN]
  {
    hide QuotedToken;
  }

  lemma ListUnary(ts: seq<Token>, st: State, depth: nat, texts: seq<wstring>)
    requires depth + 2 < DEPTH_LIMIT && HasTokens(ts, st.position, TokensOf(ListPieces(texts)))
    requires EndsValue(Peek(ts, st.position + |TokensOf(ListPieces(texts))|))
    ensures Unary(ts, st, depth, false)
            == Some((Many(StrItems(texts), STRING_ARRAY), Step(st, |TokensOf(ListPieces(texts))|)))
  {
    ListPieceTokens(texts);
    ItemsAreSimple(texts);
    TextsFacts(texts);
    var tokens, items := QuotedTokens(texts), StrItems(texts);
    hide Unary, Cast, Joined, EndsValue, AreSimple, TokensOf, ListPieces, HasTokens, STRING_ARRAY, CLOSE_SIGN;
    hide OPEN_SIGN, LIST_SIGN, QuotedTokens, StrItems;
    if texts == [] {
      assert items == [] && tokens == [];
      CastTexts(Many([], []), texts);
      EmptyTypedList(ts, st, depth, STRING_ARRAY, Many(items, STRING_ARRAY));
    } else {
      forall value | Elements(value) == items ensures Cast(STRING_ARRAY, value) == Some(Many(items, STRING_ARRAY)) {
        CastTexts(value, texts);
      }
      hide Elements;
      TypedList(ts, st, depth, STRING_ARRAY, true, tokens, items, Many(items, STRING_ARRAY));
    }
  }

  // ----- data

  /** The low bytes of a number depend on its value modulo their range only. */
  lemma {:induction false} LowBytes(a: nat, b: nat, width: nat, k: nat)
    requires a == b + k * Power16(2 * width)
    ensures UnsignedBytes(a, width) == UnsignedBytes(b, width)
    decreases width
  {
    if width > 0 {
      var p := Power16(2 * (width - 1));
      assert Power16(2 * width) == 16 * (16 * p);
      Scaled(k, p);
      assert a / 256 == b / 256 + k * p && a % 256 == b % 256;
      LowBytes(a / 256, b / 256, width - 1, k);
    }
  }

  lemma Scaled(k: nat, p: nat)
    ensures k * (16 * (16 * p)) == 256 * (k * p)
  {}

  lemma WrappedInt(n: nat)
    requires n < 0x1_0000_0000
    ensures Wrapped(SignedInt(n)) == (if n < 0x8000_0000 then n else n + 0xFFFF_FFFF * 0x1_0000_0000)
    ensures -0x8000_0000 <= SignedInt(n) <= 0x7FFF_FFFF
  {}

  lemma DwordBytes(data: seq<byte>)
    requires |data| == 4
    ensures UnsignedBytes(Wrapped(SignedInt(ReadUnsigned(data, 4))), 4) == data
  {
    var n := ReadUnsigned(data, 4);
    NumberBound(data, 4);
    BytesOfNumber(data);
    PowerFacts();
    WrappedInt(n);
    hide ReadUnsigned, UnsignedBytes, Wrapped, SignedInt, Power16;
    if n >= 0x8000_0000 { LowBytes(Wrapped(SignedInt(n)), n, 4, 0xFFFF_FFFF); }
  }

  lemma QwordBytes(data: seq<byte>)
    requires |data| == 8
    ensures UnsignedBytes(Wrapped(SignedLong(ReadUnsigned(data, 8))), 8) == data
  {
    hide *;
    NumberBound(data, 8);
    BytesOfNumber(data);
    WrappedLong(ReadUnsigned(data, 8));
  }

  lemma WrappedLong(n: nat)
    requires n < 0x1_0000_0000_0000_0000
    ensures Wrapped(SignedLong(n)) == n
  {}

  /** The item that a value's expression evaluates to. */
  function ValueItem(value: RegistryValue): Item {
    if value.kind == REG_SZ || value.kind == REG_EXPAND_SZ then
      var text := DecodeString(value.data);
      Str(if text.Some? then text.value else [])
    else if value.kind == REG_MULTI_SZ then Many(StrItems(MultiStringItems(value.data)), STRING_ARRAY)
    else if value.kind == REG_DWORD || value.kind == REG_QWORD then
      HexItem(if |value.data| == WidthOf(value.kind) then ReadUnsigned(value.data, WidthOf(value.kind))
              else 0, value.kind == REG_QWORD)
    else Many(ByteItems(value.data), BYTE_ARRAY)
  }

  /** A piece that is one simple token. */
  lemma PieceUnary(ts: seq<Token>, st: State, depth: nat, p: Piece, token: Token, item: Item)
    requires depth < DEPTH_LIMIT && PieceTokens(p) == [token] && IsSimple(token, item)
             && HasTokens(ts, st.position, TokensOf([p]))
    requires EndsValue(Peek(ts, st.position + |TokensOf([p])|))
    ensures |TokensOf([p])| == 1 && Unary(ts, st, depth, false) == Some((item, Step(st, 1)))
  {
    hide Unary, EndsValue, TokensOf, PieceTokens, HasTokens, IsSimple;
    One(p);
    HasTokenAt(ts, st.position, [token], 0);
    SimpleUnary(ts, st, depth, item);
  }

  lemma NumberUnary(ts: seq<Token>, st: State, depth: nat, n: nat, width: nat, long: bool)
    requires depth < DEPTH_LIMIT && (n < 0x1_0000_0000 || (long && n < 0x1_0000_0000_0000_0000))
    requires HasTokens(ts, st.position, TokensOf([HexNumber(n, width, long)]))
             && EndsValue(Peek(ts, st.position + |TokensOf([HexNumber(n, width, long)])|))
    ensures |TokensOf([HexNumber(n, width, long)])| == 1
            && Unary(ts, st, depth, false) == Some((HexItem(n, long), Step(st, 1)))
  {
    hide *;
    TokenOfNumber(n, width, long);
    NumberIsSimple(n, width, long);
    PieceUnary(ts, st, depth, HexNumber(n, width, long), HexToken(n, width, long), HexItem(n, long));
  }

  lemma QuotedUnary(ts: seq<Token>, st: State, depth: nat, text: wstring)
    requires depth < DEPTH_LIMIT && HasTokens(ts, st.position, TokensOf([Quoted(text)]))
             && EndsValue(Peek(ts, st.position + |TokensOf([Quoted(text)])|))
    ensures |TokensOf([Quoted(text)])| == 1 && Unary(ts, st, depth, false) == Some((Str(text), Step(st, 1)))
  {
    hide *;
    TokenOfQuoted(text);
    QuotedIsSimple(text);
    PieceUnary(ts, st, depth, Quoted(text), QuotedToken(text), Str(text));
  }

  /** The pieces and the item of each kind of value. */
  lemma ValueForms(value: RegistryValue)
    requires DotNetValue(value).Some?
    ensures value.kind in [REG_SZ, REG_EXPAND_SZ, REG_MULTI_SZ, REG_DWORD, REG_QWORD, REG_BINARY, REG_NONE]
    ensures value.kind == REG_SZ || value.kind == REG_EXPAND_SZ ==>
              var text := DecodeString(value.data);
              text.Some? && ExpressionPieces(value) == [Quoted(text.value)] && ValueItem(value) == Str(text.value)
    ensures value.kind == REG_MULTI_SZ ==>
              var texts := MultiStringItems(value.data);
              ExpressionPieces(value) == ListPieces(texts) && ValueItem(value) == Many(StrItems(texts), STRING_ARRAY)
    ensures value.kind == REG_DWORD || value.kind == REG_QWORD ==>
              && |value.data| == WidthOf(value.kind)
              && (var n := ReadUnsigned(value.data, WidthOf(value.kind));
                  && ExpressionPieces(value) == [HexNumber(n, WidthOf(value.kind) * 2, value.kind == REG_QWORD)]
                  && ValueItem(value) == HexItem(n, value.kind == REG_QWORD))
    ensures value.kind == REG_BINARY || value.kind == REG_NONE ==>
              ExpressionPieces(value) == BytePieces(value.data)
                && ValueItem(value) == Many(ByteItems(value.data), BYTE_ARRAY)
  {
    hide ListPieces, BytePieces, ByteArray, LiteralList, Literal, AreLiteral, DecodeString, StringData;
    hide MultiStringItems, MultiStringData, Hex, W,
      ReadUnsigned, HexItem, STRING_ARRAY, BYTE_ARRAY, StrItems, ByteItems;
  }

  lemma ExpressionUnary(ts: seq<Token>, st: State, depth: nat, value: RegistryValue)
    requires depth + 2 < DEPTH_LIMIT && DotNetValue(value).Some?
             && HasTokens(ts, st.position, TokensOf(ExpressionPieces(value)))
    requires EndsValue(Peek(ts, st.position + |TokensOf(ExpressionPieces(value))|))
    ensures Unary(ts, st, depth, false) == Some((ValueItem(value), Step(st, |TokensOf(ExpressionPieces(value))|)))
  {
    hide *;
    ValueForms(value);
    if value.kind == REG_SZ || value.kind == REG_EXPAND_SZ {
      QuotedUnary(ts, st, depth, DecodeString(value.data).value);
    } else if value.kind == REG_MULTI_SZ {
      ListUnary(ts, st, depth, MultiStringItems(value.data));
    } else if value.kind == REG_DWORD || value.kind == REG_QWORD {
      var width := WidthOf(value.kind);
      ValueBound(value);
      NumberUnary(ts, st, depth, ReadUnsigned(value.data, width), width * 2, value.kind == REG_QWORD);
    } else {
      BytesUnary(ts, st, depth, value.data);
    }
  }

  lemma ValueBound(value: RegistryValue)
    requires value.kind == REG_DWORD || value.kind == REG_QWORD
    requires |value.data| == WidthOf(value.kind)
    ensures var n := ReadUnsigned(value.data, WidthOf(value.kind));
            if value.kind == REG_QWORD then n < 0x1_0000_0000_0000_0000 else n < 0x1_0000_0000
  {
    NumberBound(value.data, WidthOf(value.kind));
    hide ReadUnsigned;
  }

  // ----- kinds

  /** The kind word of a type, in lower case. */
  function KindWord(kind: uint32): wstring {
    if kind == REG_SZ then KIND_STRING
    else if kind == REG_EXPAND_SZ then KIND_EXPAND
    else if kind == REG_MULTI_SZ then KIND_MULTI
    else if kind == REG_DWORD then KIND_DWORD
    else if kind == REG_QWORD then KIND_QWORD
    else if kind == REG_BINARY then KIND_BINARY
    else KIND_NONE
  }

  lemma KindsLower()
    ensures ToLower(W("String")) == KIND_STRING && ToLower(W("ExpandString")) == KIND_EXPAND
            && ToLower(W("MultiString")) == KIND_MULTI
    ensures ToLower(W("DWord")) == KIND_DWORD && ToLower(W("QWord")) == KIND_QWORD
    ensures ToLower(W("Binary")) == KIND_BINARY && ToLower(W("None")) == KIND_NONE
  {}

  /** The kind words are told apart. */
  lemma KindsDiffer()
    ensures |KIND_STRING| == 6 && |KIND_EXPAND| == 12 && |KIND_MULTI| == 11 && |KIND_DWORD| == 5 && |KIND_QWORD| == 5
    ensures |KIND_BINARY| == 6 && |KIND_NONE| == 4 && |KIND_UNKNOWN| == 7
    ensures KIND_STRING[0] == 0x73 && KIND_BINARY[0] == 0x62 && KIND_DWORD[0] == 0x64 && KIND_QWORD[0] == 0x71
  {}

  lemma FormIs(value: RegistryValue)
    requires DotNetValue(value).Some?
    ensures ToLower(DotNetValue(value).value.kind) == KindWord(value.kind)
    ensures value.kind in [REG_SZ, REG_EXPAND_SZ, REG_MULTI_SZ, REG_DWORD, REG_QWORD, REG_BINARY, REG_NONE]
    ensures value.kind == REG_SZ || value.kind == REG_EXPAND_SZ ==>
              DecodeString(value.data).Some? && StringData(DecodeString(value.data).value) == value.data
    ensures value.kind == REG_MULTI_SZ ==> MultiStringData(MultiStringItems(value.data)) == value.data
    ensures value.kind == REG_DWORD || value.kind == REG_QWORD ==> |value.data| == WidthOf(value.kind)
  {
    KindsLower();
    hide ByteArray, LiteralList, Literal, AreLiteral, DecodeString, StringData, MultiStringItems, MultiStringData, Hex;
    hide W, ReadUnsigned, ToLower;
  }

  lemma StringIsBack(value: RegistryValue)
    requires DotNetValue(value).Some? && (value.kind == REG_SZ || value.kind == REG_EXPAND_SZ)
    ensures DataOf(ValueItem(value), KindWord(value.kind)) == Some((value.kind, value.data))
  {
    FormIs(value);
    KindsDiffer();
    hide DotNetValue, DecodeString, StringData, KIND_STRING, KIND_EXPAND;
  }

  lemma MultiIsBack(value: RegistryValue)
    requires DotNetValue(value).Some? && value.kind == REG_MULTI_SZ
    ensures DataOf(ValueItem(value), KindWord(value.kind)) == Some((value.kind, value.data))
  {
    hide DotNetValue, MultiStringItems, MultiStringData, TextsOf, StrItems, KIND_STRING, KIND_EXPAND, KIND_MULTI;
    hide KIND_DWORD, KIND_QWORD, KIND_BINARY,
      KIND_NONE, KIND_UNKNOWN, STRING_ARRAY;
    FormIs(value);
    KindsDiffer();
    TextsOfItems(MultiStringItems(value.data));
  }

  lemma NumberIsBack(value: RegistryValue)
    requires DotNetValue(value).Some? && (value.kind == REG_DWORD || value.kind == REG_QWORD)
    ensures DataOf(ValueItem(value), KindWord(value.kind)) == Some((value.kind, value.data))
  {
    hide DotNetValue, ReadUnsigned, KIND_STRING, KIND_EXPAND, KIND_MULTI, KIND_DWORD, KIND_QWORD, KIND_BINARY;
    hide KIND_NONE, KIND_UNKNOWN, Wrapped, SignedInt,
      SignedLong, UnsignedBytes;
    FormIs(value);
    KindsDiffer();
    if value.kind == REG_DWORD {
      NumberBound(value.data, 4);
      WrappedInt(ReadUnsigned(value.data, 4));
      DwordBytes(value.data);
    } else {
      QwordBytes(value.data);
    }
  }

  lemma BinaryIsBack(value: RegistryValue)
    requires DotNetValue(value).Some? && (value.kind == REG_BINARY || value.kind == REG_NONE)
    ensures DataOf(ValueItem(value), KindWord(value.kind)) == Some((value.kind, value.data))
  {
    FormIs(value);
    KindsDiffer();
    BytesOfItems(value.data);
    hide DotNetValue, BytesOf, ByteItems, KIND_STRING, KIND_EXPAND, KIND_MULTI, KIND_DWORD, KIND_QWORD, KIND_BINARY;
    hide KIND_NONE, KIND_UNKNOWN, BYTE_ARRAY;
  }

  /** The item gives the type and the bytes back. */
  lemma DataIsBack(value: RegistryValue)
    requires DotNetValue(value).Some?
    ensures DataOf(ValueItem(value), ToLower(DotNetValue(value).value.kind)) == Some((value.kind, value.data))
  {
    hide *;
    FormIs(value);
    if value.kind == REG_SZ || value.kind == REG_EXPAND_SZ {
      StringIsBack(value);
    } else if value.kind == REG_MULTI_SZ {
      MultiIsBack(value);
    } else if value.kind == REG_DWORD || value.kind == REG_QWORD {
      NumberIsBack(value);
    } else {
      BinaryIsBack(value);
    }
  }

  /** A value that .NET stores is set again as it was. */
  lemma SetIsBack(path: wstring, value: RegistryValue)
    requires DotNetValue(value).Some?
    ensures SetOf(path, value.name, ValueItem(value), DotNetValue(value).value.kind) == Some(SetValue(path, value))
  {
    DataIsBack(value);
    FormIs(value);
    KindsDiffer();
    hide DotNetValue, DataOf, ToLower, ValueItem, KIND_STRING, KIND_EXPAND, KIND_MULTI, KIND_DWORD, KIND_QWORD;
    hide KIND_BINARY, KIND_NONE, DecodeString,
      MultiStringItems;
  }

  /** The native call sets any type and any bytes. */
  lemma NativeIsBack(path: wstring, value: RegistryValue)
    ensures NativeSet([OpenKey(path), Str(value.name), HexItem(value.kind as nat, false),
                       Many(ByteItems(value.data), BYTE_ARRAY)])
            == Some(SetValue(path, value))
  {
    BytesOfItems(value.data);
    hide BytesOf, ByteItems, BYTE_ARRAY;
  }
}
