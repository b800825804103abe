/** Every written line, run as a statement, does what its operation says. */
module PowerShellStatements {
  import opened Text
  import opened ValueFormat
  import opened Operations
  import opened KeyPaths
  import opened PowerShellLexer
  import opened PowerShellItems
  import opened PowerShellRoots
  import opened PowerShellGrammar
  import opened PowerShellEvaluation
  import opened PowerShellWriter
  import opened PowerShellPieces
  import opened PowerShellLines
  import opened PowerShellLayout
  import opened PowerShellLineTexts
  import opened PowerShellValues

  const NEWLINE := Plain(Newline, [])
  const EQUALS_SIGN := Sign(EQUALS_TEXT)

  // ----- statements

  lemma NewlineFacts()
    ensures EndsValue(NEWLINE) && !Is(NEWLINE, Punct, COMMA_TEXT) && !Is(NEWLINE, Punct, BAR_TEXT)
            && Is(EQUALS_SIGN, Punct, EQUALS_TEXT)
  {}

  lemma RunGoes(ts: seq<Token>, st: State, next: State)
    requires st.position <= |ts| && Peek(ts, st.position).kind != End && Peek(ts, st.position).kind != Newline
    requires Statement(ts, st) == Some(Go(next)) && Peek(ts, next.position).kind == Newline
    ensures next.position < |ts| && RunFrom(ts, st) == RunFrom(ts, Step(next, 1))
  {
    hide Statement;
  }

  lemma NewlineRuns(ts: seq<Token>, st: State)
    requires st.position < |ts| && ts[st.position] == NEWLINE
    ensures RunFrom(ts, st) == RunFrom(ts, Step(st, 1))
  {
    hide Statement;
  }

  lemma UnaryIsExpression(ts: seq<Token>, st: State, item: Item, after: State)
    requires st.position <= |ts| && Unary(ts, st, 0, false) == Some((item, after))
             && Peek(ts, after.position) == NEWLINE
    ensures Expression(ts, st, 0, false) == Some((item, after))
  {
    NewlineFacts();
    hide Unary, ExpressionRest, Is;
  }

  lemma AssignStatement(ts: seq<Token>, st: State, name: wstring, item: Item, after: State)
    requires st.position + 2 < |ts| && ts[st.position] == Plain(Variable, name)
             && IsPunct(ts, st.position + 1, EQUALS_TEXT)
    requires ts[st.position + 2].kind != Word && ToLower(name) != W("null")
    requires Expression(ts, Step(st, 2), 0, false) == Some((item, after))
    ensures Statement(ts, st) == Some(Go(after.(variables := after.variables[ToLower(name) := item])))
  {
    hide Expression, Command, ToLower, EqualsInsensitive, W, Pipeline;
  }

  lemma AssignRuns(ts: seq<Token>, st: State, name: wstring, item: Item, after: State)
    requires st.position + 2 < |ts| && ts[st.position] == Plain(Variable, name) && ts[st.position + 1] == EQUALS_SIGN
    requires ts[st.position + 2].kind != Word && ToLower(name) != W("null")
    requires Unary(ts, Step(st, 2), 0, false) == Some((item, after)) && Peek(ts, after.position) == NEWLINE
    ensures after.position < |ts|
    ensures RunFrom(ts, st) == RunFrom(ts, Step(after.(variables := after.variables[ToLower(name) := item]), 1))
  {
    NewlineFacts();
    UnaryIsExpression(ts, Step(st, 2), item, after);
    var next := after.(variables := after.variables[ToLower(name) := item]);
    AssignStatement(ts, st, name, item, after);
    hide Statement, RunFrom, ToLower, EqualsInsensitive, W, Unary, Expression;
    RunGoes(ts, st, next);
  }

  lemma StartsValue(ts: seq<Token>, i: nat)
    requires i + 1 < |ts| && (ts[i].kind == Type || (ts[i].kind == Variable && ts[i + 1] == DOT_SIGN))
    ensures !IsWord(ts, i, W("exit")) && !IsWord(ts, i, W("return")) && !IsWord(ts, i, W("if")) && !IsAssignment(ts, i)
    ensures Peek(ts, i).kind != Word && Peek(ts, i).kind != End && Peek(ts, i).kind != Newline
  {
    SignsDiffer();
    hide EqualsInsensitive, W;
  }

  lemma NoPipe(ts: seq<Token>, st: State)
    requires st.position <= |ts| && Peek(ts, st.position) == NEWLINE
    ensures Pipeline(ts, st) == Some(st)
  {
    NewlineFacts();
    hide Is;
  }

  lemma PlainStatement(ts: seq<Token>, st: State, item: Item, after: State)
    requires st.position <= |ts| && after.position <= |ts|
    requires !IsWord(ts, st.position, W("exit")) && !IsWord(ts, st.position, W("return"))
             && !IsWord(ts, st.position, W("if"))
    requires !IsAssignment(ts, st.position) && Peek(ts, st.position).kind != Word
    requires Expression(ts, st, 0, false) == Some((item, after)) && Pipeline(ts, after) == Some(after)
    ensures Statement(ts, st) == Some(Go(after))
  {
    hide Expression, Command, Pipeline, IsWord, IsAssignment, W, ToLower;
  }

  lemma NewlineStands(ts: seq<Token>, i: nat)
    requires Peek(ts, i) == NEWLINE
    ensures i < |ts| && Peek(ts, i).kind == Newline
  {}

  lemma ValueRuns(ts: seq<Token>, st: State, item: Item, after: State)
    requires st.position + 1 < |ts|
    requires ts[st.position].kind == Type || (ts[st.position].kind == Variable && ts[st.position + 1] == DOT_SIGN)
    requires Unary(ts, st, 0, false) == Some((item, after)) && Peek(ts, after.position) == NEWLINE
    ensures after.position < |ts| && RunFrom(ts, st) == RunFrom(ts, Step(after, 1))
  {
    hide *;
    UnaryIsExpression(ts, st, item, after);
    NewlineStands(ts, after.position);
    NoPipe(ts, after);
    StartsValue(ts, st.position);
    PlainStatement(ts, st, item, after);
    RunGoes(ts, st, after);
  }

  // ----- the tokens of fragments

  function RootTokens(path: wstring): seq<Token> {
    [Plain(Type, ROOT_TYPE_NAME), SCOPE_SIGN, Plain(Word, PropertyFrom(RootPart(path), 0))]
  }

  function CallTokens(member: wstring, text: wstring): seq<Token> {
    [DOT_SIGN, Plain(Word, member), OPEN_SIGN, QuotedToken(text)]
  }

  const FALSE_TOKEN := Plain(Variable, FALSE_NAME)
  const KEY_TOKEN := Plain(Variable, KEY_NAME)

  lemma TokenOfNames(name: wstring)
    ensures PieceTokens(TypeName(REGISTRY_NAME, false)) == [Plain(Type, ROOT_TYPE_NAME)]
            && PieceTokens(Name(name)) == [Plain(Word, name)]
    ensures PieceTokens(TypeName(NATIVE_NAME, false)) == [Plain(Type, NATIVE_TYPE_NAME)]
  {
    hide W;
    assert REGISTRY_NAME + [] == REGISTRY_NAME && NATIVE_NAME + [] == NATIVE_NAME;
  }

  lemma FragmentTokens(path: wstring, member: wstring, text: wstring)
    ensures TokensOf(RootPieces(path)) == RootTokens(path)
    ensures TokensOf(CallPieces(member, text)) == CallTokens(member, text)
  {
    hide TokensOf, PieceTokens, QuotedToken, PropertyFrom, RootPart, W, ROOT_TYPE_NAME, REGISTRY_NAME;
    MarkTokens();
    TokenOfQuoted(text);
    var property := PropertyFrom(RootPart(path), 0);
    TokenOfNames(property);
    TokenOfNames(member);
    Three(TypeName(REGISTRY_NAME, false), Scope, Name(property));
    Four(Access, Name(member), Mark(LPAREN), Quoted(text));
  }

  lemma TokenOfVar(name: wstring)
    ensures PieceTokens(Var(name)) == [Plain(Variable, name)]
  {}

  lemma VariableTokens()
    ensures FALSE_TOKEN == Plain(Variable, FALSE_NAME) && KEY_TOKEN == Plain(Variable, KEY_NAME)
            && NEWLINE == Plain(Newline, [])
    ensures END == [Blank(CR), Feed] && NEXT == [Mark(COMMA), Blank(SPACE)]
    ensures NO_THROW == [Mark(COMMA), Blank(SPACE), Var(FALSE_NAME), Mark(RPAREN)]
  {
    hide FALSE_NAME, KEY_NAME;
  }

  lemma TailTokens(kind: wstring)
    ensures TokensOf(END) == [NEWLINE] && TokensOf(NEXT) == [COMMA_SIGN]
            && TokensOf(NO_THROW) == [COMMA_SIGN, FALSE_TOKEN, CLOSE_SIGN]
    ensures TokensOf(KindPieces(kind)) == [COMMA_SIGN, QuotedToken(kind), CLOSE_SIGN]
            && TokensOf([Mark(RPAREN)]) == [CLOSE_SIGN]
    ensures TokensOf([Var(KEY_NAME)]) == [KEY_TOKEN]
  {
    hide *;
    MarkTokens();
    TokenOfQuoted(kind);
    VariableTokens();
    TokenOfVar(FALSE_NAME);
    TokenOfVar(KEY_NAME);
    Two(Blank(CR), Feed);
    Two(Mark(COMMA), Blank(SPACE));
    Four(Mark(COMMA), Blank(SPACE), Var(FALSE_NAME), Mark(RPAREN));
    Four(Mark(COMMA), Blank(SPACE), Quoted(kind), Mark(RPAREN));
    KindPiecesAre(kind);
    One(Mark(RPAREN));
    One(Var(KEY_NAME));
  }

  lemma AssignTokens(name: wstring)
    ensures TokensOf([Var(name), Blank(SPACE), Mark(EQUALS), Blank(SPACE)]) == [Plain(Variable, name), EQUALS_SIGN]
  {
    MarkTokens();
    assert PieceTokens(Var(name)) == [Plain(Variable, name)] && PieceTokens(Mark(EQUALS)) == [EQUALS_SIGN];
    hide TokensOf, PieceTokens;
    Four(Var(name), Blank(SPACE), Mark(EQUALS), Blank(SPACE));
    assert [Plain(Variable, name)] + ([] + ([EQUALS_SIGN] + [])) == [Plain(Variable, name), EQUALS_SIGN];
  }

  // ----- calls on keys

  lemma MembersLower()
    ensures ToLower(W("CreateSubKey")) == CREATE_SUB_KEY && ToLower(W("DeleteSubKeyTree")) == DELETE_TREE
    ensures ToLower(W("DeleteValue")) == DELETE_VALUE && ToLower(W("SetValue")) == SET_VALUE
  {}

  lemma MembersDiffer()
    ensures |CREATE_SUB_KEY| == 12 && |OPEN_SUB_KEY| == 10 && |SET_VALUE| == 8 && |DELETE_VALUE| == 11
            && |DELETE_TREE| == 16
    ensures |DELETE_SUB_KEY| == 12
  {}

  lemma KeyCalls(path: wstring, text: wstring)
    ensures KeyCall(path, CREATE_SUB_KEY, [Str(text)])
            == Some((OpenKey(CallPath(path, text)), [Key(CallPath(path, text))]))
    ensures KeyCall(path, DELETE_TREE, [Str(text), Num(0, false)]) == Some((Nothing, [RemoveKey(CallPath(path, text))]))
    ensures KeyCall(path, DELETE_VALUE, [Str(text), Num(0, false)]) == Some((Nothing, [RemoveValue(path, text)]))
  {
    MembersDiffer();
    hide CREATE_SUB_KEY, OPEN_SUB_KEY, SET_VALUE, DELETE_VALUE, DELETE_TREE, DELETE_SUB_KEY, SetCall, CallPath, W;
  }

  lemma SetCalls(path: wstring, name: wstring, item: Item, kind: wstring, op: Operation)
    requires SetOf(path, name, item, kind) == Some(op)
    ensures KeyCall(path, SET_VALUE, [Str(name), item, Str(kind)]) == Some((Nothing, [op]))
  {
    MembersDiffer();
    hide CREATE_SUB_KEY, OPEN_SUB_KEY, SET_VALUE, DELETE_VALUE, DELETE_TREE, DELETE_SUB_KEY, CallPath, W, SetOf;
  }

  /** The root and the path below it make up a normalised path. */
  lemma PathOfParts(path: wstring)
    requires Normalized(path)
    ensures CallPath(RootPart(path), SubPath(path)) == path
    ensures SubPath(path) == [] <==> path == RootPart(path)
  {
    NormalizedShape(path);
    StrippedEnd(path);
    hide StripSeparators, Normalized;
    var split := Find(path, BACKSLASH, 0);
    if split != -1 {
      TailAt(path, split);
      assert path == path[..split] + path[split..];
      ConcatAssoc(path[..split], [BACKSLASH], path[split + 1..]);
    }
  }

  /** A quoted argument before a sign. */
  lemma FirstArgument(ts: seq<Token>, st: State, depth: nat, text: wstring, next: Token)
    requires depth < DEPTH_LIMIT && HasTokens(ts, st.position, [QuotedToken(text), next])
             && (next == COMMA_SIGN || next == CLOSE_SIGN)
    ensures st.position + 1 < |ts| && ts[st.position].kind == String && ts[st.position + 1] == next
    ensures Unary(ts, st, depth, false) == Some((Str(text), Step(st, 1)))
  {
    HasTokenAt(ts, st.position, [QuotedToken(text), next], 0);
    HasTokenAt(ts, st.position, [QuotedToken(text), next], 1);
    QuotedIsSimple(text);
    hide Unary, IsSimple, IsPlain, HasTokens, COMMA_SIGN, CLOSE_SIGN;
    SimpleUnary(ts, st, depth, Str(text));
  }

  lemma FalseValue(variables: Variables)
    ensures VariableValue(ToLower(FALSE_NAME), variables) == Some(Num(0, false))
  {
    assert ToLower(FALSE_NAME) == W("false") && |W("true")| == 4;
  }

  lemma KeyValue(variables: Variables, path: wstring)
    requires KEY_NAME in variables && variables[KEY_NAME] == OpenKey(path)
    ensures VariableValue(ToLower(KEY_NAME), variables) == Some(OpenKey(path))
  {
    KeyLower();
    hide KEY_NAME, W;
  }

  lemma KeyLower()
    ensures ToLower(KEY_NAME) == KEY_NAME && KEY_NAME != W("true") && KEY_NAME != W("false") && KEY_NAME != W("null")
  {
    assert |KEY_NAME| == 3 && |W("true")| == 4 && |W("false")| == 5 && |W("null")| == 4;
  }

  /** `('text', $false)` */
  lemma NoThrowArguments(ts: seq<Token>, st: State, depth: nat, text: wstring)
    requires depth < DEPTH_LIMIT && HasTokens(ts, st.position, [QuotedToken(text), COMMA_SIGN, FALSE_TOKEN, CLOSE_SIGN])
    ensures st.position + 4 <= |ts| && CallRest(ts, st, depth, []) == Some(([Str(text), Num(0, false)], Step(st, 4)))
  {
    hide Unary, QuotedToken, HasTokens, COMMA_SIGN, CLOSE_SIGN, CallRest, VariableValue;
    var all := [QuotedToken(text), COMMA_SIGN, FALSE_TOKEN, CLOSE_SIGN];
    assert all == [QuotedToken(text), COMMA_SIGN] + [FALSE_TOKEN, CLOSE_SIGN];
    HasTokensSplit(ts, st.position, [QuotedToken(text), COMMA_SIGN], [FALSE_TOKEN, CLOSE_SIGN]);
    HasTokenAt(ts, st.position, all, 2);
    HasTokenAt(ts, st.position, all, 3);
    FirstArgument(ts, st, depth, text, COMMA_SIGN);
    FalseValue(st.variables);
    hide FALSE_NAME;
    VariableUnary(ts, Step(st, 2), depth, FALSE_NAME, Num(0, false));
    CallStep(ts, st, depth, [], Str(text), Step(st, 1));
    assert [] + [Str(text)] == [Str(text)] && [Str(text)] + [Num(0, false)] == [Str(text), Num(0, false)];
    CallLast(ts, Step(st, 2), depth, [Str(text)], Num(0, false), Step(st, 3));
  }

  /** `.member('text', $false)` on a key, at the end of a line. */
  lemma NoThrowCall(ts: seq<Token>, st: State, depth: nat, path: wstring, member: wstring, text: wstring, op: Operation)
    requires depth < DEPTH_LIMIT
             && HasTokens(ts, st.position, CallTokens(member, text) + [COMMA_SIGN, FALSE_TOKEN, CLOSE_SIGN] + [NEWLINE])
    requires KeyCall(path, ToLower(member), [Str(text), Num(0, false)]) == Some((Nothing, [op]))
    ensures st.position + 7 < |ts| && ts[st.position] == DOT_SIGN && ts[st.position + 7] == NEWLINE
    ensures Postfix(ts, st, depth, OpenKey(path)) == Some((Nothing, Step(st, 7).(output := st.output + [op])))
  {
    hide *;
    NoThrowStands(ts, st.position, member, text);
    StepIs(st, 3);
    StepIs(st, 7);
    StepIs(Step(st, 3), 4);
    DepthIs();
    NoThrowArguments(ts, Step(st, 3), depth, text);
    PeekIs(ts, st.position + 7);
    assert EndsValue(NEWLINE) by { NewlineFacts(); }
    CallOnKey(ts, st, depth, path, member, [Str(text), Num(0, false)], Step(st, 7), Nothing, [op]);
  }

  lemma NoThrowStands(ts: seq<Token>, i: nat, member: wstring, text: wstring)
    requires HasTokens(ts, i, CallTokens(member, text) + [COMMA_SIGN, FALSE_TOKEN, CLOSE_SIGN] + [NEWLINE])
    ensures i + 7 < |ts| && ts[i] == DOT_SIGN && ts[i + 1] == Plain(Word, member) && ts[i + 2] == OPEN_SIGN
            && ts[i + 7] == NEWLINE
    ensures HasTokens(ts, i + 3, [QuotedToken(text), COMMA_SIGN, FALSE_TOKEN, CLOSE_SIGN])
  {
    var head, arguments := [DOT_SIGN, Plain(Word, member), OPEN_SIGN],
      [QuotedToken(text), COMMA_SIGN, FALSE_TOKEN, CLOSE_SIGN];
    assert CallTokens(member, text) + [COMMA_SIGN, FALSE_TOKEN, CLOSE_SIGN] + [NEWLINE]
      == head + (arguments + [NEWLINE]);
    hide QuotedToken, HasTokens, COMMA_SIGN, CLOSE_SIGN, OPEN_SIGN, DOT_SIGN, FALSE_TOKEN, NEWLINE, CallTokens;
    HasTokensSplit(ts, i, head, arguments + [NEWLINE]);
    HasTokensSplit(ts, i + 3, arguments, [NEWLINE]);
    HasTokenAt(ts, i, head, 0);
    HasTokenAt(ts, i, head, 1);
    HasTokenAt(ts, i, head, 2);
    HasTokenAt(ts, i + 7, [NEWLINE], 0);
  }

  /** `$key` in front of a call. */
  lemma KeyUnary(ts: seq<Token>, st: State, path: wstring, item: Item, after: State)
    requires st.position + 1 < |ts| && ts[st.position] == KEY_TOKEN && ts[st.position + 1] == DOT_SIGN
    requires KEY_NAME in st.variables && st.variables[KEY_NAME] == OpenKey(path)
    requires Postfix(ts, Step(st, 1), 1, OpenKey(path)) == Some((item, after))
    ensures Unary(ts, st, 0, false) == Some((item, after))
  {
    KeyValue(st.variables, path);
    assert Primary(ts, st, 1, false) == Some((OpenKey(path), Step(st, 1))) by {
      hide VariableValue, StaticMember, Parenthesized, Interpolated, KEY_NAME, ToLower;
    }
    hide Primary, Postfix, KEY_NAME, DOT_SIGN;
  }
}
