/** The lines that set values, run. */
module PowerShellValueRuns {
  import opened Text
  import opened ValueFormat
  import opened Operations
  import opened PowerShellLexer
  import opened PowerShellItems
  import opened PowerShellGrammar
  import opened PowerShellEvaluation
  import opened PowerShellWriter
  import opened PowerShellPieces
  import opened PowerShellLines
  import opened PowerShellLayout
  import opened PowerShellLineTexts
  import opened PowerShellScriptReads
  import opened PowerShellValues
  import opened PowerShellStatements
  import opened PowerShellLineRuns

  /** One more argument, with a comma behind it. */
  lemma MoreArguments(ts: seq<Token>, st: State, depth: nat, arguments: seq<Item>, item: Item, count: nat)
    requires st.position < |ts| && depth <= DEPTH_LIMIT && ts[st.position].kind != Punct
    requires Unary(ts, st, depth, false) == Some((item, Step(st, count))) && Peek(ts, st.position + count) == COMMA_SIGN
    ensures st.position + count < |ts|
    ensures CallRest(ts, st, depth, arguments) == CallRest(ts, Step(st, count + 1), depth, arguments + [item])
  {
    hide Unary, CallRest, COMMA_SIGN;
    CallStep(ts, st, depth, arguments, item, Step(st, count));
  }

  lemma LastArgument(ts: seq<Token>, st: State, depth: nat, arguments: seq<Item>, item: Item, count: nat)
    requires st.position < |ts| && depth <= DEPTH_LIMIT && ts[st.position].kind != Punct
    requires Unary(ts, st, depth, false) == Some((item, Step(st, count))) && Peek(ts, st.position + count) == CLOSE_SIGN
    ensures st.position + count < |ts|
            && CallRest(ts, st, depth, arguments) == Some((arguments + [item], Step(st, count + 1)))
  {
    hide Unary, CallRest, CLOSE_SIGN;
    CallLast(ts, st, depth, arguments, item, Step(st, count));
  }

  // ----- SetValue

  lemma ManagedTokens(value: RegistryValue, kind: wstring)
    ensures var data := TokensOf(ExpressionPieces(value));
            TokensOf(ManagedPieces(value, kind)) ==
              [KEY_TOKEN] + (CallTokens(W("SetValue"), value.name)
                             + ([COMMA_SIGN] + (data + ([COMMA_SIGN, QuotedToken(kind), CLOSE_SIGN] + [NEWLINE]))))
  {
    hide *;
    var member := W("SetValue");
    var tail := KindPieces(kind) + END;
    var arguments := ExpressionPieces(value) + tail;
    FragmentTokens([], member, value.name);
    TailTokens(kind);
    ManagedPiecesAre(value, kind);
    FlatConcat([Var(KEY_NAME)], CallPieces(member, value.name) + (NEXT + arguments));
    FlatConcat(CallPieces(member, value.name), NEXT + arguments);
    FlatConcat(NEXT, arguments);
    FlatConcat(ExpressionPieces(value), tail);
    FlatConcat(KindPieces(kind), END);
  }

  /** An expression starts with a token that is no sign. */
  lemma ExpressionStarts(value: RegistryValue)
    requires DotNetValue(value).Some?
    ensures var tokens := TokensOf(ExpressionPieces(value)); tokens != [] && tokens[0].kind != Punct
  {
    ValueForms(value);
    ListPieceTokens(MultiStrings.MultiStringItems(value.data));
    BytePieceTokens(value.data);
    if value.kind == REG_SZ || value.kind == REG_EXPAND_SZ {
      var text := DecodeString(value.data).value;
      One(Quoted(text));
      TokenOfQuoted(text);
    } else if value.kind == REG_DWORD || value.kind == REG_QWORD {
      var n := ReadUnsigned(value.data, WidthOf(value.kind));
      One(HexNumber(n, WidthOf(value.kind) * 2, value.kind == REG_QWORD));
      TokenOfNumber(n, WidthOf(value.kind) * 2, value.kind == REG_QWORD);
    }
    hide DotNetValue, TokensOf, ExpressionPieces, ListPieces, BytePieces, PieceTokens, PieceText, DecodeString;
    hide ReadUnsigned, Joined, IsPlain, SignedInt,
      SignedLong, MultiStrings.MultiStringItems, LIST_SIGN, OPEN_SIGN, CLOSE_SIGN, BYTE_ARRAY, STRING_ARRAY,
        NumberTokens, QuotedTokens;
  }

  /** What stands where in the line. */
  lemma ManagedStands(ts: seq<Token>, i: nat, value: RegistryValue, kind: wstring)
    requires HasTokens(ts, i, TokensOf(ManagedPieces(value, kind)))
    ensures var data := TokensOf(ExpressionPieces(value));
            var n := |data|;
            && i + n + 9 < |ts| && |TokensOf(ManagedPieces(value, kind))| == n + 10
            && ts[i] == KEY_TOKEN && ts[i + 1] == DOT_SIGN && ts[i + 2] == Plain(Word, W("SetValue"))
               && ts[i + 3] == OPEN_SIGN
            && HasTokens(ts, i + 4, [QuotedToken(value.name), COMMA_SIGN]) && HasTokens(ts, i + 6, data)
            && ts[i + 6 + n] == COMMA_SIGN && HasTokens(ts, i + 7 + n, [QuotedToken(kind), CLOSE_SIGN])
               && ts[i + 9 + n] == NEWLINE
  {
    var data := TokensOf(ExpressionPieces(value));
    var head := [KEY_TOKEN, DOT_SIGN, Plain(Word, W("SetValue")), OPEN_SIGN];
    ManagedTokens(value, kind);
    hide TokensOf, ManagedPieces, ExpressionPieces, QuotedToken, HasTokens, KEY_TOKEN, DOT_SIGN, OPEN_SIGN, COMMA_SIGN;
    hide CLOSE_SIGN, NEWLINE, W;
    ManagedShape(head, [QuotedToken(value.name), COMMA_SIGN], data, [COMMA_SIGN], [QuotedToken(kind), CLOSE_SIGN],
                 [NEWLINE], value.name, kind);
    Split6(ts, i, head, [QuotedToken(value.name), COMMA_SIGN], data, [COMMA_SIGN], [QuotedToken(kind), CLOSE_SIGN],
           [NEWLINE]);
    HasTokenAt(ts, i, head, 0);
    HasTokenAt(ts, i, head, 1);
    HasTokenAt(ts, i, head, 2);
    HasTokenAt(ts, i, head, 3);
    HasTokenAt(ts, i + 6 + |data|, [COMMA_SIGN], 0);
    HasTokenAt(ts, i + 9 + |data|, [NEWLINE], 0);
  }

  lemma ManagedShape(a: seq<Token>, b: seq<Token>, c: seq<Token>, d: seq<Token>, e: seq<Token>, f: seq<Token>,
      name: wstring, kind: wstring)
    requires a == [KEY_TOKEN, DOT_SIGN, Plain(Word, W("SetValue")), OPEN_SIGN] && b == [QuotedToken(name), COMMA_SIGN]
    requires d == [COMMA_SIGN] && e == [QuotedToken(kind), CLOSE_SIGN] && f == [NEWLINE]
    ensures [KEY_TOKEN] + (CallTokens(W("SetValue"), name)
                           + ([COMMA_SIGN] + (c + ([COMMA_SIGN, QuotedToken(kind), CLOSE_SIGN] + [NEWLINE]))))
            == a + (b + (c + (d + (e + f))))
  {
    hide QuotedToken, KEY_TOKEN, DOT_SIGN, OPEN_SIGN, COMMA_SIGN, CLOSE_SIGN, NEWLINE, W;
    assert [KEY_TOKEN] + CallTokens(W("SetValue"), name) + [COMMA_SIGN] == a + b;
    assert [COMMA_SIGN, QuotedToken(kind), CLOSE_SIGN] == d + e;
  }

  lemma Split6(ts: seq<Token>, i: nat, a: seq<Token>, b: seq<Token>, c: seq<Token>, d: seq<Token>, e: seq<Token>,
      f: seq<Token>)
    requires HasTokens(ts, i, a + (b + (c + (d + (e + f)))))
    ensures HasTokens(ts, i, a) && HasTokens(ts, i + |a|, b) && HasTokens(ts, i + |a| + |b|, c)
            && HasTokens(ts, i + |a| + |b| + |c|, d)
    ensures HasTokens(ts, i + |a| + |b| + |c| + |d|, e) && HasTokens(ts, i + |a| + |b| + |c| + |d| + |e|, f)
  {
    hide HasTokens;
    HasTokensSplit(ts, i, a, b + (c + (d + (e + f))));
    HasTokensSplit(ts, i + |a|, b, c + (d + (e + f)));
    HasTokensSplit(ts, i + |a| + |b|, c, d + (e + f));
    HasTokensSplit(ts, i + |a| + |b| + |c|, d, e + f);
    HasTokensSplit(ts, i + |a| + |b| + |c| + |d|, e, f);
  }

  lemma CommaEnds()
    ensures EndsValue(COMMA_SIGN) && EndsValue(CLOSE_SIGN) && EndsValue(NEWLINE) && COMMA_SIGN.kind == Punct
  {}

  lemma QuotedMore(ts: seq<Token>, st: State, arguments: seq<Item>, text: wstring)
    requires HasTokens(ts, st.position, [QuotedToken(text), COMMA_SIGN])
    ensures st.position + 2 <= |ts|
            && CallRest(ts, st, 1, arguments) == CallRest(ts, Step(st, 2), 1, arguments + [Str(text)])
  {
    hide *;
    OneIsShallow();
    StepIs(st, 2);
    FirstArgument(ts, st, 1, text, COMMA_SIGN) by { CommaEnds(); }
    PeekIs(ts, st.position + 1);
    MoreArguments(ts, st, 1, arguments, Str(text), 1);
  }

  lemma QuotedLast(ts: seq<Token>, st: State, arguments: seq<Item>, text: wstring)
    requires HasTokens(ts, st.position, [QuotedToken(text), CLOSE_SIGN])
    ensures st.position + 2 <= |ts| && CallRest(ts, st, 1, arguments) == Some((arguments + [Str(text)], Step(st, 2)))
  {
    hide *;
    OneIsShallow();
    FirstArgument(ts, st, 1, text, CLOSE_SIGN) by { CommaEnds(); }
    PeekIs(ts, st.position + 1);
    LastArgument(ts, st, 1, arguments, Str(text), 1);
  }

  lemma DataMore(ts: seq<Token>, st: State, arguments: seq<Item>, value: RegistryValue)
    requires DotNetValue(value).Some? && HasTokens(ts, st.position, TokensOf(ExpressionPieces(value)))
    requires var n := |TokensOf(ExpressionPieces(value))|; st.position + n < |ts| && ts[st.position + n] == COMMA_SIGN
    ensures var n := |TokensOf(ExpressionPieces(value))|;
            CallRest(ts, st, 1, arguments) == CallRest(ts, Step(st, n + 1), 1, arguments + [ValueItem(value)])
  {
    hide *;
    var n := |TokensOf(ExpressionPieces(value))|;
    OneIsShallow();
    CommaEnds();
    StepIs(st, n + 1);
    ExpressionStarts(value);
    HasTokenAt(ts, st.position, TokensOf(ExpressionPieces(value)), 0);
    PeekIs(ts, st.position + n);
    ExpressionUnary(ts, st, 1, value);
    MoreArguments(ts, st, 1, arguments, ValueItem(value), n);
  }

  lemma ManagedFirst(ts: seq<Token>, st: State, value: RegistryValue)
    requires HasTokens(ts, st.position, [QuotedToken(value.name), COMMA_SIGN]) && DotNetValue(value).Some?
    requires var n := |TokensOf(ExpressionPieces(value))|;
             HasTokens(ts, st.position + 2, TokensOf(ExpressionPieces(value))) && st.position + 2 + n < |ts|
               && ts[st.position + 2 + n] == COMMA_SIGN
    ensures var n := |TokensOf(ExpressionPieces(value))|;
            CallRest(ts, st, 1, []) == CallRest(ts, Step(st, n + 3), 1, [Str(value.name), ValueItem(value)])
  {
    hide *;
    var n := |TokensOf(ExpressionPieces(value))|;
    StepTwice(st, 2, n + 1);
    ThreeItems(Str(value.name), ValueItem(value), Nothing);
    QuotedMore(ts, st, [], value.name);
    DataMore(ts, Step(st, 2), [Str(value.name)], value);
  }

  /** The arguments and what closes them. */
  lemma ManagedTail(ts: seq<Token>, i: nat, value: RegistryValue, kind: wstring)
    requires HasTokens(ts, i, TokensOf(ManagedPieces(value, kind)))
    ensures var n := |TokensOf(ExpressionPieces(value))|;
            && i + n + 9 < |ts| && HasTokens(ts, i + 4, [QuotedToken(value.name), COMMA_SIGN])
               && HasTokens(ts, i + 6, TokensOf(ExpressionPieces(value)))
            && ts[i + 6 + n] == COMMA_SIGN && HasTokens(ts, i + 7 + n, [QuotedToken(kind), CLOSE_SIGN])
  {
    hide *;
    ManagedStands(ts, i, value, kind);
  }

  /** The arguments of SetValue. */
  lemma ManagedArguments(ts: seq<Token>, st: State, value: RegistryValue, kind: wstring)
    requires DotNetValue(value).Some? && st.position >= 4
             && HasTokens(ts, st.position - 4, TokensOf(ManagedPieces(value, kind)))
    ensures var n := |TokensOf(ExpressionPieces(value))|;
            st.position <= |ts| && CallRest(ts, st, 1, [])
              == Some(([Str(value.name), ValueItem(value), Str(kind)], Step(st, n + 5)))
  {
    hide *;
    var n := |TokensOf(ExpressionPieces(value))|;
    ManagedTail(ts, st.position - 4, value, kind);
    StepTwice(st, n + 3, 2);
    ThreeItems(Str(value.name), ValueItem(value), Str(kind));
    ManagedFirst(ts, st, value);
    QuotedLast(ts, Step(st, n + 3), [Str(value.name), ValueItem(value)], kind);
  }

  lemma ThreeItems(a: Item, b: Item, c: Item)
    ensures [] + [a] == [a] && [a] + [b] == [a, b] && [a, b] + [c] == [a, b, c]
  {}

  lemma ManagedRuns(ts: seq<Token>, st: State, path: wstring, value: RegistryValue)
    requires DotNetValue(value).Some?
             && HasTokens(ts, st.position, TokensOf(ManagedPieces(value, DotNetValue(value).value.kind)))
    requires KEY_NAME in st.variables && st.variables[KEY_NAME] == OpenKey(path)
    ensures Runs(ts, st, |TokensOf(ManagedPieces(value, DotNetValue(value).value.kind))|, st.variables,
                 [SetValue(path, value)])
  {
    hide *;
    var kind, n := DotNetValue(value).value.kind, |TokensOf(ExpressionPieces(value))|;
    var arguments := [Str(value.name), ValueItem(value), Str(kind)];
    ManagedStands(ts, st.position, value, kind);
    StepIs(st, 1);
    StepIs(st, 4);
    StepIs(st, n + 9);
    StepIs(Step(st, 1), 3);
    StepIs(Step(st, 4), n + 5);
    ManagedArguments(ts, Step(st, 4), value, kind);
    SetIsBack(path, value);
    SetCalls(path, value.name, ValueItem(value), kind, SetValue(path, value));
    SetValueLower();
    CommaEnds();
    NewlineAt(ts, st.position + n + 9);
    OneIsShallow();
    CallOnKey(ts, Step(st, 1), 1, path, W("SetValue"), arguments, Step(st, n + 9), Nothing, [SetValue(path, value)]);
    KeyUnary(ts, st, path, Nothing, Step(st, n + 9).(output := st.output + [SetValue(path, value)]));
    KeyTokenIs();
    ValueLineRuns(ts, st, n + 9, Nothing, [SetValue(path, value)]);
  }

  // ----- the native helper

  lemma NativeTokens(value: RegistryValue)
    ensures var bytes := TokensOf(BytePieces(value.data));
            TokensOf(NativePieces(value)) ==
              [Plain(Type, NATIVE_TYPE_NAME), SCOPE_SIGN, Plain(Word, W("SetValue")), OPEN_SIGN]
              + ([KEY_TOKEN, COMMA_SIGN, QuotedToken(value.name)]
                 + ([COMMA_SIGN, HexToken(value.kind as nat, 1, false)]
                    + ([COMMA_SIGN] + (bytes + ([CLOSE_SIGN] + [NEWLINE])))))
  {
    hide *;
    var head := [TypeName(NATIVE_NAME, false), Scope, Name(W("SetValue")), Mark(LPAREN)];
    var key := [Var(KEY_NAME), Mark(COMMA), Blank(SPACE), Quoted(value.name)];
    var kind := [Mark(COMMA), Blank(SPACE), HexNumber(value.kind as nat, 1, false)];
    var bytes, close := BytePieces(value.data), [Mark(RPAREN)] + END;
    NativePiecesAre(value, head, key, kind, bytes, close);
    TailTokens([]);
    NativeParts(value);
    FlatConcat(head, key + (kind + (NEXT + (bytes + close))));
    FlatConcat(key, kind + (NEXT + (bytes + close)));
    FlatConcat(kind, NEXT + (bytes + close));
    FlatConcat(NEXT, bytes + close);
    FlatConcat(bytes, close);
    FlatConcat([Mark(RPAREN)], END);
  }

  lemma NativeParts(value: RegistryValue)
    ensures TokensOf([TypeName(NATIVE_NAME, false), Scope, Name(W("SetValue")), Mark(LPAREN)]) ==
              [Plain(Type, NATIVE_TYPE_NAME), SCOPE_SIGN, Plain(Word, W("SetValue")), OPEN_SIGN]
    ensures TokensOf([Var(KEY_NAME), Mark(COMMA), Blank(SPACE), Quoted(value.name)])
            == [KEY_TOKEN, COMMA_SIGN, QuotedToken(value.name)]
    ensures TokensOf([Mark(COMMA), Blank(SPACE), HexNumber(value.kind as nat, 1, false)])
            == [COMMA_SIGN, HexToken(value.kind as nat, 1, false)]
  {
    hide *;
    TokenOfNames(W("SetValue"));
    TokenOfQuoted(value.name);
    TokenOfNumber(value.kind as nat, 1, false);
    MarkTokens();
    KeyPieceToken();
    Four(TypeName(NATIVE_NAME, false), Scope, Name(W("SetValue")), Mark(LPAREN));
    Four(Var(KEY_NAME), Mark(COMMA), Blank(SPACE), Quoted(value.name));
    Three(Mark(COMMA), Blank(SPACE), HexNumber(value.kind as nat, 1, false));
    ListOfTokens(Plain(Type, NATIVE_TYPE_NAME), SCOPE_SIGN, Plain(Word, W("SetValue")), OPEN_SIGN);
    ListOfTokens(KEY_TOKEN, COMMA_SIGN, QuotedToken(value.name), OPEN_SIGN);
    ListOfTokens(COMMA_SIGN, HexToken(value.kind as nat, 1, false), OPEN_SIGN, OPEN_SIGN);
  }

  lemma KeyPieceToken()
    ensures PieceTokens(Var(KEY_NAME)) == [KEY_TOKEN]
  {
    hide KEY_NAME;
  }

  lemma ListOfTokens(a: Token, b: Token, c: Token, d: Token)
    ensures [a] + ([b] + ([c] + [d])) == [a, b, c, d] && [a] + ([b] + ([] + [c])) == [a, b, c]
            && [a] + ([] + [b]) == [a, b]
  {}

  lemma NativeStands(ts: seq<Token>, i: nat, value: RegistryValue)
    requires HasTokens(ts, i, TokensOf(NativePieces(value)))
    ensures var bytes := TokensOf(BytePieces(value.data));
            var m := |bytes|;
            && i + m + 11 < |ts| && |TokensOf(NativePieces(value))| == m + 12
            && HasTokens(ts, i, [Plain(Type, NATIVE_TYPE_NAME), SCOPE_SIGN, Plain(Word, W("SetValue")), OPEN_SIGN])
            && ts[i + 4] == KEY_TOKEN && ts[i + 5] == COMMA_SIGN
               && HasTokens(ts, i + 6, [QuotedToken(value.name), COMMA_SIGN])
            && ts[i + 8] == HexToken(value.kind as nat, 1, false) && ts[i + 9] == COMMA_SIGN
            && HasTokens(ts, i + 10, bytes) && ts[i + 10 + m] == CLOSE_SIGN && ts[i + 11 + m] == NEWLINE
  {
    hide *;
    var bytes := TokensOf(BytePieces(value.data));
    var head := [Plain(Type, NATIVE_TYPE_NAME), SCOPE_SIGN, Plain(Word, W("SetValue")), OPEN_SIGN];
    var q, h := QuotedToken(value.name), HexToken(value.kind as nat, 1, false);
    NativeTokens(value);
    NativeShape(head, q, h, bytes);
    Split6(ts, i, head, [KEY_TOKEN, COMMA_SIGN], [q, COMMA_SIGN], [h, COMMA_SIGN], bytes, [CLOSE_SIGN, NEWLINE]);
    HasTokenAt(ts, i + 4, [KEY_TOKEN, COMMA_SIGN], 0);
    HasTokenAt(ts, i + 4, [KEY_TOKEN, COMMA_SIGN], 1);
    HasTokenAt(ts, i + 8, [h, COMMA_SIGN], 0);
    HasTokenAt(ts, i + 8, [h, COMMA_SIGN], 1);
    HasTokenAt(ts, i + 10 + |bytes|, [CLOSE_SIGN, NEWLINE], 0);
    HasTokenAt(ts, i + 10 + |bytes|, [CLOSE_SIGN, NEWLINE], 1);
  }

  lemma NativeShape(head: seq<Token>, q: Token, h: Token, bytes: seq<Token>)
    ensures head + ([KEY_TOKEN, COMMA_SIGN, q]
                    + ([COMMA_SIGN, h] + ([COMMA_SIGN] + (bytes + ([CLOSE_SIGN] + [NEWLINE])))))
            == head + ([KEY_TOKEN, COMMA_SIGN]
                       + ([q, COMMA_SIGN] + ([h, COMMA_SIGN] + (bytes + [CLOSE_SIGN, NEWLINE]))))
  {
    hide KEY_TOKEN, COMMA_SIGN, CLOSE_SIGN, NEWLINE;
    assert [KEY_TOKEN, COMMA_SIGN, q] + ([COMMA_SIGN, h] + ([COMMA_SIGN] + (bytes + ([CLOSE_SIGN] + [NEWLINE]))))
        == [KEY_TOKEN, COMMA_SIGN] + ([q, COMMA_SIGN] + ([h, COMMA_SIGN] + (bytes + [CLOSE_SIGN, NEWLINE])));
  }

  lemma BytesStart(data: seq<byte>)
    ensures var tokens := TokensOf(BytePieces(data)); tokens != [] && tokens[0].kind == Type
  {
    BytePieceTokens(data);
    hide TokensOf, BytePieces, Joined, NumberTokens, LIST_SIGN, OPEN_SIGN, CLOSE_SIGN, BYTE_ARRAY;
  }

  lemma KindToken(kind: uint32)
    ensures IsSimple(HexToken(kind as nat, 1, false), HexItem(kind as nat, false))
            && HexToken(kind as nat, 1, false).kind == Number
  {
    NumberIsSimple(kind as nat, 1, false);
    hide PieceText, SignedInt, SignedLong;
  }

  lemma KeyMore(ts: seq<Token>, st: State, path: wstring, arguments: seq<Item>)
    requires st.position + 1 < |ts| && ts[st.position] == KEY_TOKEN && ts[st.position + 1] == COMMA_SIGN
    requires KEY_NAME in st.variables && st.variables[KEY_NAME] == OpenKey(path)
    ensures CallRest(ts, st, 1, arguments) == CallRest(ts, Step(st, 2), 1, arguments + [OpenKey(path)])
  {
    hide *;
    OneIsShallow();
    CommaEnds();
    KeyTokenIs();
    KeyValue(st.variables, path);
    StepIs(st, 2);
    PeekIs(ts, st.position + 1);
    VariableUnary(ts, st, 1, KEY_NAME, OpenKey(path));
    MoreArguments(ts, st, 1, arguments, OpenKey(path), 1);
  }

  lemma KindMore(ts: seq<Token>, st: State, kind: uint32, arguments: seq<Item>)
    requires st.position + 1 < |ts| && ts[st.position] == HexToken(kind as nat, 1, false)
             && ts[st.position + 1] == COMMA_SIGN
    ensures CallRest(ts, st, 1, arguments) == CallRest(ts, Step(st, 2), 1, arguments + [HexItem(kind as nat, false)])
  {
    hide *;
    OneIsShallow();
    CommaEnds();
    KindToken(kind);
    StepIs(st, 2);
    PeekIs(ts, st.position + 1);
    SimpleUnary(ts, st, 1, HexItem(kind as nat, false));
    MoreArguments(ts, st, 1, arguments, HexItem(kind as nat, false), 1);
  }

  lemma BytesLast(ts: seq<Token>, st: State, data: seq<byte>, arguments: seq<Item>)
    requires HasTokens(ts, st.position, TokensOf(BytePieces(data)))
    requires var m := |TokensOf(BytePieces(data))|; st.position + m < |ts| && ts[st.position + m] == CLOSE_SIGN
    ensures var m := |TokensOf(BytePieces(data))|;
            CallRest(ts, st, 1, arguments) == Some((arguments + [Many(ByteItems(data), BYTE_ARRAY)], Step(st, m + 1)))
  {
    hide *;
    var m := |TokensOf(BytePieces(data))|;
    OneIsShallow();
    CommaEnds();
    BytesStart(data);
    HasTokenAt(ts, st.position, TokensOf(BytePieces(data)), 0);
    PeekIs(ts, st.position + m);
    BytesUnary(ts, st, 1, data);
    LastArgument(ts, st, 1, arguments, Many(ByteItems(data), BYTE_ARRAY), m);
  }

  lemma NativeFirst(ts: seq<Token>, st: State, path: wstring, name: wstring)
    requires st.position + 1 < |ts| && ts[st.position] == KEY_TOKEN && ts[st.position + 1] == COMMA_SIGN
    requires HasTokens(ts, st.position + 2, [QuotedToken(name), COMMA_SIGN])
    requires KEY_NAME in st.variables && st.variables[KEY_NAME] == OpenKey(path)
    ensures st.position + 4 <= |ts|
            && CallRest(ts, st, 1, []) == CallRest(ts, Step(st, 4), 1, [OpenKey(path), Str(name)])
  {
    hide *;
    StepTwice(st, 2, 2);
    ThreeItems(OpenKey(path), Str(name), Nothing);
    KeyMore(ts, st, path, []);
    QuotedMore(ts, Step(st, 2), [OpenKey(path)], name);
  }

  lemma NativeLast(ts: seq<Token>, st: State, value: RegistryValue, arguments: seq<Item>)
    requires st.position + 1 < |ts| && ts[st.position] == HexToken(value.kind as nat, 1, false)
             && ts[st.position + 1] == COMMA_SIGN
    requires HasTokens(ts, st.position + 2, TokensOf(BytePieces(value.data)))
    requires var m := |TokensOf(BytePieces(value.data))|;
             st.position + 2 + m < |ts| && ts[st.position + 2 + m] == CLOSE_SIGN
    ensures var m := |TokensOf(BytePieces(value.data))|;
            CallRest(ts, st, 1, arguments) ==
              Some(((arguments + [HexItem(value.kind as nat, false)])
                    + [Many(ByteItems(value.data), BYTE_ARRAY)], Step(st, m + 3)))
  {
    hide *;
    var m := |TokensOf(BytePieces(value.data))|;
    StepTwice(st, 2, m + 1);
    KindMore(ts, st, value.kind, arguments);
    BytesLast(ts, Step(st, 2), value.data, arguments + [HexItem(value.kind as nat, false)]);
  }

  lemma NativeArgumentsRead(ts: seq<Token>, st: State, path: wstring, value: RegistryValue)
    requires st.position >= 4 && HasTokens(ts, st.position - 4, TokensOf(NativePieces(value)))
    requires KEY_NAME in st.variables && st.variables[KEY_NAME] == OpenKey(path)
    ensures var m := |TokensOf(BytePieces(value.data))|;
            && st.position <= |ts|
            && CallRest(ts, st, 1, []) ==
                 Some(([OpenKey(path), Str(value.name), HexItem(value.kind as nat, false),
                        Many(ByteItems(value.data), BYTE_ARRAY)], Step(st, m + 7)))
  {
    hide *;
    var m := |TokensOf(BytePieces(value.data))|;
    NativeStands(ts, st.position - 4, value);
    StepTwice(st, 4, m + 3);
    NativeFirst(ts, st, path, value.name);
    NativeLast(ts, Step(st, 4), value, [OpenKey(path), Str(value.name)]);
    FourItems(OpenKey(path), Str(value.name), HexItem(value.kind as nat, false),
              Many(ByteItems(value.data), BYTE_ARRAY));
  }

  lemma FourItems(a: Item, b: Item, c: Item, d: Item)
    ensures [a, b] + [c] == [a, b, c] && [a, b, c] + [d] == [a, b, c, d]
  {}

  lemma NativeRuns(ts: seq<Token>, st: State, path: wstring, value: RegistryValue)
    requires HasTokens(ts, st.position, TokensOf(NativePieces(value))) && KEY_NAME in st.variables
             && st.variables[KEY_NAME] == OpenKey(path)
    ensures Runs(ts, st, |TokensOf(NativePieces(value))|, st.variables, [SetValue(path, value)])
  {
    hide *;
    var m := |TokensOf(BytePieces(value.data))|;
    var arguments := [OpenKey(path), Str(value.name), HexItem(value.kind as nat, false),
                      Many(ByteItems(value.data), BYTE_ARRAY)];
    var head := [Plain(Type, NATIVE_TYPE_NAME), SCOPE_SIGN, Plain(Word, W("SetValue")), OPEN_SIGN];
    var op := SetValue(path, value);
    NativeStands(ts, st.position, value);
    HasTokenAt(ts, st.position, head, 0);
    HasTokenAt(ts, st.position, head, 1);
    StepIs(st, 4);
    StepIs(st, m + 11);
    StepIs(Step(st, 4), m + 7);
    NativeArgumentsRead(ts, Step(st, 4), path, value);
    NativeIsBack(path, value);
    OneIsShallow();
    CommaEnds();
    NewlineAt(ts, st.position + m + 11);
    var after := Step(st, m + 11);
    NativePrimary(ts, st, 1, arguments, after, op);
    var done := after.(output := st.output + [op]);
    StaticUnary(ts, st, 0, Nothing, done);
    NoCallOnKey(ts, done, 1, Nothing);
    TypeKind();
    ValueLineRuns(ts, st, m + 11, Nothing, [op]);
  }

  lemma TypeKind()
    ensures Plain(Type, NATIVE_TYPE_NAME).kind == Type
  {
    hide NATIVE_TYPE_NAME;
  }
}
