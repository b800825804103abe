/** The lines of a script, run one after the other. */
module PowerShellLineRuns {
  import opened Text
  import opened ValueFormat
  import opened Operations
  import opened KeyPaths
  import opened PowerShellLexer
  import opened PowerShellItems
  import opened PowerShellRoots
  import opened PowerShellGrammar
  import opened PowerShellEvaluation
  import opened PowerShellWriter
  import opened PowerShellPieces
  import opened PowerShellLines
  import opened PowerShellLayout
  import opened PowerShellLineFits
  import opened PowerShellStatements

  /** Running from here is running behind `count` tokens, with these variables and operations added. */
  predicate Runs(ts: seq<Token>, st: State, count: nat, variables: Variables, ops: seq<Operation>) {
    && st.position + count <= |ts|
    && RunFrom(ts, st) == RunFrom(ts, State(st.position + count, variables, st.output + ops))
  }

  lemma ValueLineRuns(ts: seq<Token>, st: State, count: nat, item: Item, ops: seq<Operation>)
    requires st.position + 1 < |ts|
    requires ts[st.position].kind == Type || (ts[st.position].kind == Variable && ts[st.position + 1] == DOT_SIGN)
    requires Unary(ts, st, 0, false) == Some((item, Step(st, count).(output := st.output + ops)))
             && Peek(ts, st.position + count) == NEWLINE
    ensures Runs(ts, st, count + 1, st.variables, ops)
  {
    hide Unary, RunFrom, NEWLINE, DOT_SIGN;
    ValueRuns(ts, st, item, Step(st, count).(output := st.output + ops));
  }

  lemma AssignLineRuns(ts: seq<Token>, st: State, count: nat, name: wstring, item: Item, ops: seq<Operation>)
    requires st.position + 2 < |ts| && ts[st.position] == Plain(Variable, name) && ts[st.position + 1] == EQUALS_SIGN
    requires ts[st.position + 2].kind != Word && ToLower(name) != W("null")
    requires Unary(ts, Step(st, 2), 0, false) == Some((item, Step(st, count).(output := st.output + ops)))
             && Peek(ts, st.position + count) == NEWLINE
    ensures Runs(ts, st, count + 1, st.variables[ToLower(name) := item], ops)
  {
    hide Unary, RunFrom, NEWLINE, EQUALS_SIGN, W, ToLower;
    AssignRuns(ts, st, name, item, Step(st, count).(output := st.output + ops));
  }

  lemma RootValue(ts: seq<Token>, st: State, depth: nat, path: wstring)
    requires Normalized(path) && depth <= DEPTH_LIMIT && HasTokens(ts, st.position, RootTokens(path))
    ensures st.position + 3 <= |ts| && ts[st.position].kind == Type && IsPunct(ts, st.position + 1, SCOPE_TEXT)
    ensures Primary(ts, st, depth, false) == Some((OpenKey(RootPart(path)), Step(st, 3)))
  {
    hide Primary, HasTokens, PROPERTIES, ROOT_TYPE_NAME, SCOPE_SIGN, PropertyFrom, RootPart, Normalized, RootTokens, W;
    hide IsPunct;
    PropertyFits(path);
    var i: nat :| i < BROWSABLE_ROOTS && ROOTS[i].name == RootPart(path);
    hide ROOTS;
    RootOfProperty(i);
    RootTokensAre(path);
    HasTokenAt(ts, st.position, RootTokens(path), 0);
    RootPrimary(ts, st, depth, i);
  }

  lemma RootTokensAre(path: wstring)
    ensures RootTokens(path) == [Plain(Type, ROOT_TYPE_NAME), SCOPE_SIGN, Plain(Word, PropertyFrom(RootPart(path), 0))]
    ensures RootTokens(path)[0].kind == Type
  {
    hide PropertyFrom, RootPart, ROOT_TYPE_NAME, SCOPE_SIGN;
  }

  // ----- removals

  lemma RemoveKeyTokens(path: wstring)
    ensures TokensOf(RemoveKeyPieces(path)) ==
              RootTokens(path) + (CallTokens(W("DeleteSubKeyTree"), SubPath(path))
                                  + [COMMA_SIGN, FALSE_TOKEN, CLOSE_SIGN] + [NEWLINE])
  {
    var member := W("DeleteSubKeyTree");
    FragmentTokens(path, member, SubPath(path));
    TailTokens([]);
    hide TokensOf, RootTokens, CallTokens, RootPieces, CallPieces, SubPath, NO_THROW, END, W, COMMA_SIGN, FALSE_TOKEN;
    hide CLOSE_SIGN, NEWLINE;
    FlatConcat(RootPieces(path), CallPieces(member, SubPath(path)) + (NO_THROW + END));
    FlatConcat(CallPieces(member, SubPath(path)), NO_THROW + END);
    FlatConcat(NO_THROW, END);
    ConcatAssoc(CallTokens(member, SubPath(path)), [COMMA_SIGN, FALSE_TOKEN, CLOSE_SIGN], [NEWLINE]);
  }

  lemma RemoveKeyRuns(ts: seq<Token>, st: State, path: wstring)
    requires Normalized(path) && HasTokens(ts, st.position, TokensOf(RemoveKeyPieces(path)))
    ensures Runs(ts, st, |TokensOf(RemoveKeyPieces(path))|, st.variables, [RemoveKey(path)])
  {
    hide *;
    var member, sub, root := W("DeleteSubKeyTree"), SubPath(path), RootPart(path);
    var tail := CallTokens(member, sub) + [COMMA_SIGN, FALSE_TOKEN, CLOSE_SIGN] + [NEWLINE];
    RemoveKeyTokens(path);
    HasTokensSplit(ts, st.position, RootTokens(path), tail);
    TokenCounts(path, member, sub);
    KeyCalls(root, sub);
    MembersLower();
    PathOfParts(path);
    StepIs(st, 3);
    StepIs(st, 10);
    StepIs(Step(st, 3), 7);
    RootValue(ts, st, 1, path) by { OneIsShallow(); }
    NoThrowCall(ts, Step(st, 3), 1, root, member, sub, RemoveKey(path)) by { OneIsShallow(); }
    StaticUnary(ts, st, 0, OpenKey(root), Step(st, 3)) by { OneIsShallow(); }
    NewlineAt(ts, st.position + 10);
    ValueLineRuns(ts, st, 10, Nothing, [RemoveKey(path)]);
  }

  lemma OneIsShallow()
    ensures 3 < DEPTH_LIMIT
  {}

  lemma NewlineAt(ts: seq<Token>, i: nat)
    requires i < |ts| && ts[i] == NEWLINE
    ensures Peek(ts, i) == NEWLINE
  {}

  lemma TokenCounts(path: wstring, member: wstring, text: wstring)
    ensures |RootTokens(path)| == 3 && |CallTokens(member, text)| == 4
  {
    hide QuotedToken;
  }

  lemma RemoveValueTokens(name: wstring)
    ensures TokensOf(RemoveValuePieces(name)) ==
              [KEY_TOKEN] + (CallTokens(W("DeleteValue"), name) + [COMMA_SIGN, FALSE_TOKEN, CLOSE_SIGN] + [NEWLINE])
  {
    var member := W("DeleteValue");
    FragmentTokens([], member, name);
    TailTokens([]);
    hide TokensOf, CallTokens, CallPieces, NO_THROW, END, W, COMMA_SIGN, FALSE_TOKEN, CLOSE_SIGN, NEWLINE, KEY_TOKEN;
    FlatConcat([Var(KEY_NAME)], CallPieces(member, name) + (NO_THROW + END));
    FlatConcat(CallPieces(member, name), NO_THROW + END);
    FlatConcat(NO_THROW, END);
    ConcatAssoc(CallTokens(member, name), [COMMA_SIGN, FALSE_TOKEN, CLOSE_SIGN], [NEWLINE]);
  }

  lemma RemoveValueRuns(ts: seq<Token>, st: State, path: wstring, name: wstring)
    requires HasTokens(ts, st.position, TokensOf(RemoveValuePieces(name))) && KEY_NAME in st.variables
             && st.variables[KEY_NAME] == OpenKey(path)
    ensures Runs(ts, st, |TokensOf(RemoveValuePieces(name))|, st.variables, [RemoveValue(path, name)])
  {
    hide *;
    var member := W("DeleteValue");
    var tail := CallTokens(member, name) + [COMMA_SIGN, FALSE_TOKEN, CLOSE_SIGN] + [NEWLINE];
    RemoveValueTokens(name);
    HasTokensSplit(ts, st.position, [KEY_TOKEN], tail);
    HasTokenAt(ts, st.position, [KEY_TOKEN], 0);
    TokenCounts([], member, name);
    KeyCalls(path, name);
    MembersLower();
    StepIs(st, 1);
    StepIs(st, 8);
    StepIs(Step(st, 1), 7);
    NoThrowCall(ts, Step(st, 1), 1, path, member, name, RemoveValue(path, name)) by { OneIsShallow(); }
    KeyUnary(ts, st, path, Nothing, Step(st, 8).(output := st.output + [RemoveValue(path, name)]));
    KeyTokenIs();
    NewlineAt(ts, st.position + 8);
    ValueLineRuns(ts, st, 8, Nothing, [RemoveValue(path, name)]);
  }

  lemma KeyTokenIs()
    ensures KEY_TOKEN == Plain(Variable, KEY_NAME) && KEY_TOKEN.kind == Variable
  {
    hide KEY_NAME;
  }

  // ----- opening a key

  lemma OpenTokens(path: wstring)
    ensures var call := if SubPath(path) == [] then [] else CallTokens(W("CreateSubKey"), SubPath(path)) + [CLOSE_SIGN];
            TokensOf(OpenPieces(path)) == [KEY_TOKEN, EQUALS_SIGN] + (RootTokens(path) + (call + [NEWLINE]))
  {
    var member, sub := W("CreateSubKey"), SubPath(path);
    var pieces := if sub == [] then [] else CallPieces(member, sub) + [Mark(RPAREN)];
    FragmentTokens(path, member, sub);
    TailTokens([]);
    AssignTokens(KEY_NAME);
    NoPieces();
    hide TokensOf, RootTokens, CallTokens, RootPieces, CallPieces, SubPath, END, W, EQUALS_SIGN, CLOSE_SIGN, NEWLINE;
    hide KEY_NAME;
    FlatConcat([Var(KEY_NAME), Blank(SPACE), Mark(EQUALS), Blank(SPACE)], RootPieces(path) + (pieces + END));
    FlatConcat(RootPieces(path), pieces + END);
    FlatConcat(pieces, END);
    FlatConcat(CallPieces(member, sub), [Mark(RPAREN)]);
  }

  /** What opening a key adds. */
  function Created(path: wstring): seq<Operation> {
    if SubPath(path) == [] then [] else [Key(path)]
  }

  /** `.CreateSubKey('sub')` on a root, or nothing, at the end of a line. */
  lemma CreateCall(ts: seq<Token>, st: State, path: wstring)
    requires Normalized(path)
    requires var call := if SubPath(path) == [] then []
                         else CallTokens(W("CreateSubKey"), SubPath(path)) + [CLOSE_SIGN];
             HasTokens(ts, st.position, call + [NEWLINE])
    ensures var count := if SubPath(path) == [] then 0 else 5;
            && st.position + count < |ts| && ts[st.position + count] == NEWLINE
            && Postfix(ts, st, 1, OpenKey(RootPart(path)))
               == Some((OpenKey(path), Step(st, count).(output := st.output + Created(path))))
  {
    hide *;
    var member, sub, root := W("CreateSubKey"), SubPath(path), RootPart(path);
    PathOfParts(path);
    CreatedIs(path);
    if sub == [] {
      NothingAround([NEWLINE]);
      HasTokenAt(ts, st.position, [NEWLINE], 0);
      OneIsShallow();
      NewlineAt(ts, st.position);
      NewlineEnds();
      StepIs(st, 0);
      NoCallOnKey(ts, st, 1, OpenKey(path));
      NothingAround(st.output);
    } else {
      CreateTokens(ts, st.position, member, sub);
      CreateSub(ts, st, root, sub);
    }
  }

  lemma NewlineEnds()
    ensures EndsValue(NEWLINE)
  {}

  lemma CreatedIs(path: wstring)
    ensures Created(path) == if SubPath(path) == [] then [] else [Key(path)]
  {
    hide SubPath;
  }

  /** `.CreateSubKey('sub')` */
  lemma CreateSub(ts: seq<Token>, st: State, root: wstring, sub: wstring)
    requires st.position + 5 < |ts| && ts[st.position] == DOT_SIGN
             && ts[st.position + 1] == Plain(Word, W("CreateSubKey"))
    requires ts[st.position + 2] == OPEN_SIGN && ts[st.position + 5] == NEWLINE
             && HasTokens(ts, st.position + 3, [QuotedToken(sub), CLOSE_SIGN])
    ensures Postfix(ts, st, 1, OpenKey(root))
            == Some((OpenKey(CallPath(root, sub)), Step(st, 5).(output := st.output + [Key(CallPath(root, sub))])))
  {
    hide *;
    var full := CallPath(root, sub);
    KeyCalls(root, sub);
    MembersLower();
    OneIsShallow();
    NewlineEnds();
    StepIs(st, 3);
    StepIs(st, 4);
    StepIs(st, 5);
    StepIs(Step(st, 3), 1);
    StepIs(Step(st, 4), 1);
    FirstArgument(ts, Step(st, 3), 1, sub, CLOSE_SIGN);
    PeekIs(ts, st.position + 4);
    PeekIs(ts, st.position + 5);
    CallLast(ts, Step(st, 3), 1, [], Str(sub), Step(st, 4));
    OneItem(Str(sub));
    CallOnKey(ts, st, 1, root, W("CreateSubKey"), [Str(sub)], Step(st, 5), OpenKey(full), [Key(full)]);
  }

  lemma OneItem(item: Item)
    ensures [] + [item] == [item]
  {}

  lemma CreateTokens(ts: seq<Token>, i: nat, member: wstring, sub: wstring)
    requires HasTokens(ts, i, CallTokens(member, sub) + [CLOSE_SIGN] + [NEWLINE])
    ensures i + 5 < |ts| && ts[i] == DOT_SIGN && ts[i + 1] == Plain(Word, member) && ts[i + 2] == OPEN_SIGN
            && ts[i + 5] == NEWLINE
    ensures HasTokens(ts, i + 3, [QuotedToken(sub), CLOSE_SIGN])
  {
    var head, argument := [DOT_SIGN, Plain(Word, member), OPEN_SIGN], [QuotedToken(sub), CLOSE_SIGN];
    assert CallTokens(member, sub) + [CLOSE_SIGN] + [NEWLINE] == head + (argument + [NEWLINE]);
    HasTokensSplit(ts, i, head, argument + [NEWLINE]);
    HasTokensSplit(ts, i + 3, argument, [NEWLINE]);
    HasTokenAt(ts, i, head, 0);
    HasTokenAt(ts, i, head, 1);
    HasTokenAt(ts, i, head, 2);
    HasTokenAt(ts, i + 5, [NEWLINE], 0);
    hide QuotedToken;
  }

  lemma OpenRuns(ts: seq<Token>, st: State, path: wstring)
    requires Normalized(path) && HasTokens(ts, st.position, TokensOf(OpenPieces(path)))
    ensures Runs(ts, st, |TokensOf(OpenPieces(path))|, st.variables[KEY_NAME := OpenKey(path)], Created(path))
  {
    hide *;
    var root := RootPart(path);
    var call := if SubPath(path) == [] then [] else CallTokens(W("CreateSubKey"), SubPath(path)) + [CLOSE_SIGN];
    var count := if SubPath(path) == [] then 0 else 5;
    OpenTokens(path);
    HasTokensSplit(ts, st.position, [KEY_TOKEN, EQUALS_SIGN], RootTokens(path) + (call + [NEWLINE]));
    HasTokensSplit(ts, st.position + 2, RootTokens(path), call + [NEWLINE]);
    HasTokenAt(ts, st.position, [KEY_TOKEN, EQUALS_SIGN], 0);
    HasTokenAt(ts, st.position, [KEY_TOKEN, EQUALS_SIGN], 1);
    TokenCounts(path, W("CreateSubKey"), SubPath(path));
    StepIs(st, 2);
    StepIs(st, 5);
    StepIs(Step(st, 2), 3);
    StepIs(st, 5 + count);
    StepIs(Step(st, 5), count);
    RootValue(ts, Step(st, 2), 1, path) by { OneIsShallow(); }
    CreateCall(ts, Step(st, 5), path);
    StaticUnary(ts, Step(st, 2), 0, OpenKey(root), Step(st, 5)) by { OneIsShallow(); }
    KeyTokenIs();
    KeyLower();
    NewlineAt(ts, st.position + 5 + count);
    AssignLineRuns(ts, st, 5 + count, KEY_NAME, OpenKey(path), Created(path));
  }
}
