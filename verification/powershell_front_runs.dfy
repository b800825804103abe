/** The lines in front of the operations, run: they add none. */
module PowerShellFrontRuns {
  import opened Text
  import opened ValueFormat
  import opened PowerShellLexer
  import opened PowerShellItems
  import opened PowerShellGrammar
  import opened PowerShellEvaluation
  import opened PowerShellWriter
  import opened PowerShellPieces
  import opened PowerShellLines
  import opened PowerShellLayout
  import opened PowerShellValues
  import opened PowerShellStatements
  import opened PowerShellLineRuns
  import opened PowerShellValueRuns
  import opened PowerShellScript

  // ----- tokens

  lemma RequiresTokens()
    ensures TokensOf(REQUIRES_PIECES) == [NEWLINE]
  {
    MarkTokens();
    hide TokensOf, REMARK;
    Two(Remark(REMARK + [CR]), Feed);
  }

  lemma StopTokens()
    ensures TokensOf(STOP_PIECES) == [Plain(Variable, PREFERENCE_NAME), EQUALS_SIGN, QuotedToken(STOP_NAME), NEWLINE]
  {
    AssignTokens(PREFERENCE_NAME);
    TokenOfQuoted(STOP_NAME);
    TailTokens([]);
    hide TokensOf, PieceTokens, QuotedToken, PREFERENCE_NAME, STOP_NAME, EQUALS_SIGN, NEWLINE, END;
    FlatConcat([Var(PREFERENCE_NAME), Blank(SPACE), Mark(EQUALS), Blank(SPACE)], [Quoted(STOP_NAME)] + END);
    FlatConcat([Quoted(STOP_NAME)], END);
    One(Quoted(STOP_NAME));
    ListOfTokens(Plain(Variable, PREFERENCE_NAME), EQUALS_SIGN, QuotedToken(STOP_NAME), NEWLINE);
    var q := QuotedToken(STOP_NAME);
    assert [Plain(Variable, PREFERENCE_NAME), EQUALS_SIGN] + ([q] + [NEWLINE])
      == [Plain(Variable, PREFERENCE_NAME), EQUALS_SIGN, q, NEWLINE];
  }

  lemma WordTokens(word: wstring, option: wstring)
    ensures TokensOf([Name(word), Blank(SPACE), Option(option), Blank(SPACE)])
            == [Plain(Word, word), Plain(Parameter, option)]
  {
    MarkTokens();
    assert PieceTokens(Name(word)) == [Plain(Word, word)] && PieceTokens(Option(option)) == [Plain(Parameter, option)];
    hide TokensOf, PieceTokens;
    Four(Name(word), Blank(SPACE), Option(option), Blank(SPACE));
    assert [Plain(Word, word)] + ([] + ([Plain(Parameter, option)] + []))
      == [Plain(Word, word), Plain(Parameter, option)];
  }

  lemma HelperTokens()
    ensures TokensOf(HELPER_PIECES) ==
              [Plain(Word, W("Add-Type")), Plain(Parameter, W("Namespace"))]
                + ([Plain(Word, W("RegKit")), Plain(Parameter, W("Name"))]
              + ([Plain(Word, W("Native")), Plain(Parameter, W("MemberDefinition"))]
                 + ([QuotedToken(DEFINITION)] + [NEWLINE])))
  {
    WordTokens(W("Add-Type"), W("Namespace"));
    WordTokens(W("RegKit"), W("Name"));
    WordTokens(W("Native"), W("MemberDefinition"));
    TokenOfQuoted(DEFINITION);
    TailTokens([]);
    hide TokensOf, PieceTokens, QuotedToken, NEWLINE, END, W, DEFINITION;
    FlatConcat(COMMAND_PIECES, NAME_PIECES + (MEMBER_PIECES + ([Quoted(DEFINITION)] + END)));
    FlatConcat(NAME_PIECES, MEMBER_PIECES + ([Quoted(DEFINITION)] + END));
    FlatConcat(MEMBER_PIECES, [Quoted(DEFINITION)] + END);
    FlatConcat([Quoted(DEFINITION)], END);
    One(Quoted(DEFINITION));
  }

  // ----- running them

  lemma RequiresRuns(ts: seq<Token>, st: State)
    requires HasTokens(ts, st.position, TokensOf(REQUIRES_PIECES))
    ensures Runs(ts, st, |TokensOf(REQUIRES_PIECES)|, st.variables, [])
  {
    RequiresTokens();
    HasTokenAt(ts, st.position, [NEWLINE], 0);
    assert st.output + [] == st.output;
    hide RunFrom, TokensOf, NEWLINE, HasTokens;
    NewlineRuns(ts, st);
  }

  lemma PreferenceLower()
    ensures ToLower(PREFERENCE_NAME) != W("null") && ToLower(PREFERENCE_NAME) != KEY_NAME
  {
    assert |PREFERENCE_NAME| == 21 && |W("null")| == 4 && |KEY_NAME| == 3;
  }

  lemma StopRuns(ts: seq<Token>, st: State)
    requires HasTokens(ts, st.position, TokensOf(STOP_PIECES))
    ensures Runs(ts, st, |TokensOf(STOP_PIECES)|, st.variables[ToLower(PREFERENCE_NAME) := Str(STOP_NAME)], [])
  {
    hide *;
    var all := [Plain(Variable, PREFERENCE_NAME), EQUALS_SIGN, QuotedToken(STOP_NAME), NEWLINE];
    StopTokens();
    HasTokenAt(ts, st.position, all, 0);
    HasTokenAt(ts, st.position, all, 1);
    HasTokenAt(ts, st.position, all, 2);
    HasTokenAt(ts, st.position, all, 3);
    QuotedIsSimple(STOP_NAME);
    QuotedIsString(STOP_NAME);
    PreferenceLower();
    CommaEnds();
    OneIsShallow();
    StepIs(st, 2);
    StepIs(st, 3);
    StepIs(Step(st, 2), 1);
    PeekIs(ts, st.position + 3);
    SimpleUnary(ts, Step(st, 2), 0, Str(STOP_NAME));
    NoOutput(st);
    AssignLineRuns(ts, st, 3, PREFERENCE_NAME, Str(STOP_NAME), []);
  }

  lemma NoOutput(st: State)
    ensures st.output + [] == st.output && String != Word
  {}

  lemma QuotedIsString(text: wstring)
    ensures QuotedToken(text).kind == String
  {
    hide IsPlain;
  }

  /** A word or a string as the value of a parameter. */
  predicate IsArgument(token: Token, item: Item) {
    (token.kind == Word && item == Str(token.text)) || (token.kind == String && IsSimple(token, item))
  }

  lemma ArgumentPrimary(ts: seq<Token>, st: State, depth: nat, item: Item)
    requires st.position < |ts| && depth <= DEPTH_LIMIT && IsArgument(ts[st.position], item)
    ensures Primary(ts, st, depth, true) == Some((item, Step(st, 1)))
  {
    var token := ts[st.position];
    if token.kind == String && token.parts != [] {
      OnePart(token.parts[0].text, st.variables);
      assert token.parts == [Part(false, token.parts[0].text)];
    }
    hide Interpolated, StaticMember, Parenthesized;
  }

  lemma ArgumentExpression(ts: seq<Token>, st: State, item: Item)
    requires st.position < |ts| && IsArgument(ts[st.position], item) && Peek(ts, st.position + 1).kind != Punct
    ensures Expression(ts, st, 0, true) == Some((item, Step(st, 1)))
  {
    hide IsSimple, ExpressionRest, Primary;
    ArgumentPrimary(ts, st, 1, item);
    assert Unary(ts, st, 0, true) == Some((item, Step(st, 1)));
    hide Unary;
  }

  /** A parameter and its value. */
  lemma ParameterRuns(ts: seq<Token>, st: State, name: wstring, item: Item)
    requires st.position + 1 < |ts| && ts[st.position] == Plain(Parameter, name)
             && IsArgument(ts[st.position + 1], item)
    requires Peek(ts, st.position + 2).kind != Punct
    requires !HasColon(name) && ParameterName(name) != W("whatif") && !IsSwitch(ParameterName(name))
    ensures st.position + 2 <= |ts| && Arguments(ts, st, 0) == Arguments(ts, Step(st, 2), 0)
  {
    hide Expression, IsArgument, ParameterName, HasColon, IsSwitch, W, EndsArguments, Unary;
    ArgumentExpression(ts, Step(st, 1), item);
    ParameterGoesOn(ts, st.position);
  }

  lemma ParameterGoesOn(ts: seq<Token>, i: nat)
    requires Peek(ts, i).kind == Parameter
    ensures !EndsArguments(ts, i)
  {}

  lemma ParameterNames()
    ensures var n := W("Namespace"); !HasColon(n) && ParameterName(n) != W("whatif") && !IsSwitch(ParameterName(n))
    ensures var n := W("Name"); !HasColon(n) && ParameterName(n) != W("whatif") && !IsSwitch(ParameterName(n))
    ensures var n := W("MemberDefinition");
            !HasColon(n) && ParameterName(n) != W("whatif") && !IsSwitch(ParameterName(n))
  {
    SwitchLengths(W("Namespace"));
    SwitchLengths(W("Name"));
    SwitchLengths(W("MemberDefinition"));
    hide IsSwitch, HasColon, ParameterName;
  }

  lemma SwitchLengths(name: wstring)
    requires |ParameterName(name)| == |name| && (|name| == 9 || |name| == 4 || |name| == 16)
    ensures ParameterName(name) != W("whatif") && !IsSwitch(ParameterName(name))
  {
    assert |W("force")| == 5 && |W("recurse")| == 7 && |W("confirm")| == 7 && |W("passthru")| == 8
      && |W("verbose")| == 7 && |W("whatif")| == 6;
    hide ParameterName;
  }

  lemma AddTypeIsIgnored()
    ensures IsIgnored(ToLower(W("Add-Type"))) && |W("Add-Type")| == 8
  {
    assert ToLower(W("Add-Type")) == W("add-type");
  }

  lemma CommandStatement(ts: seq<Token>, st: State, name: wstring, after: State)
    requires st.position < |ts| && ts[st.position] == Plain(Word, name) && |name| == 8
    requires Command(ts, st, 0) == Some(after)
    ensures Statement(ts, st) == Some(Go(after))
  {
    assert |W("exit")| == 4 && |W("return")| == 6 && |W("if")| == 2;
    hide Command, W;
  }

  lemma CommandRuns(ts: seq<Token>, st: State, name: wstring, after: State)
    requires st.position < |ts| && ts[st.position] == Plain(Word, name) && IsIgnored(ToLower(name))
    requires Arguments(ts, Step(st, 1), 0) == Some(after) && Peek(ts, after.position) == NEWLINE
    ensures Command(ts, st, 0) == Some(after)
  {
    NewlineFacts();
    assert Pipeline(ts, after) == Some(after) by { hide Is; }
    hide Arguments, IsIgnored, ToLower, Pipeline;
  }

  lemma ArgumentsEnd(ts: seq<Token>, st: State)
    requires st.position <= |ts| && Peek(ts, st.position) == NEWLINE
    ensures Arguments(ts, st, 0) == Some(st)
  {}

  lemma HelperStands(ts: seq<Token>, i: nat)
    requires HasTokens(ts, i, TokensOf(HELPER_PIECES))
    ensures i + 7 < |ts| && |TokensOf(HELPER_PIECES)| == 8
    ensures ts[i] == Plain(Word, W("Add-Type")) && ts[i + 1] == Plain(Parameter, W("Namespace"))
            && ts[i + 2] == Plain(Word, W("RegKit"))
    ensures ts[i + 3] == Plain(Parameter, W("Name")) && ts[i + 4] == Plain(Word, W("Native"))
    ensures ts[i + 5] == Plain(Parameter, W("MemberDefinition")) && ts[i + 6] == QuotedToken(DEFINITION)
            && ts[i + 7] == NEWLINE
  {
    hide *;
    var a, b := [Plain(Word, W("Add-Type")), Plain(Parameter, W("Namespace"))],
      [Plain(Word, W("RegKit")), Plain(Parameter, W("Name"))];
    var c, d := [Plain(Word, W("Native")), Plain(Parameter, W("MemberDefinition"))], [QuotedToken(DEFINITION)]
      + [NEWLINE];
    HelperTokens();
    HasTokensSplit(ts, i, a, b + (c + d));
    HasTokensSplit(ts, i + 2, b, c + d);
    HasTokensSplit(ts, i + 4, c, d);
    HasTokenAt(ts, i, a, 0);
    HasTokenAt(ts, i, a, 1);
    HasTokenAt(ts, i + 2, b, 0);
    HasTokenAt(ts, i + 2, b, 1);
    HasTokenAt(ts, i + 4, c, 0);
    HasTokenAt(ts, i + 4, c, 1);
    HasTokenAt(ts, i + 6, d, 0);
    HasTokenAt(ts, i + 6, d, 1);
  }

  lemma WordIsArgument(text: wstring)
    ensures IsArgument(Plain(Word, text), Str(text)) && IsArgument(QuotedToken(text), Str(text))
    ensures Plain(Parameter, text).kind != Punct && NEWLINE.kind != Punct
  {
    QuotedIsSimple(text);
    QuotedIsString(text);
    hide QuotedToken, IsSimple;
  }

  /** A parameter whose name is no switch. */
  predicate TakesValue(name: wstring) {
    !HasColon(name) && ParameterName(name) != W("whatif") && !IsSwitch(ParameterName(name))
  }

  lemma ThreeParameters(ts: seq<Token>, st: State, a: wstring, b: wstring, c: wstring, x: Item, y: Item, z: Item)
    requires st.position + 6 < |ts| && TakesValue(a) && TakesValue(b) && TakesValue(c)
    requires ts[st.position] == Plain(Parameter, a) && IsArgument(ts[st.position + 1], x)
    requires ts[st.position + 2] == Plain(Parameter, b) && IsArgument(ts[st.position + 3], y)
    requires ts[st.position + 4] == Plain(Parameter, c) && IsArgument(ts[st.position + 5], z)
             && ts[st.position + 6] == NEWLINE
    ensures Arguments(ts, st, 0) == Some(Step(st, 6))
  {
    hide IsArgument, HasColon, ParameterName, IsSwitch, W, Arguments;
    ParameterRuns(ts, st, a, x);
    ParameterRuns(ts, Step(st, 2), b, y);
    ParameterRuns(ts, Step(st, 4), c, z);
    ArgumentsEnd(ts, Step(st, 6));
  }

  lemma HelperArguments(ts: seq<Token>, st: State)
    requires st.position >= 1 && HasTokens(ts, st.position - 1, TokensOf(HELPER_PIECES))
    ensures st.position <= |ts| && Arguments(ts, st, 0) == Some(Step(st, 6))
  {
    hide IsArgument, HasColon, ParameterName, IsSwitch, W, Arguments, DEFINITION, QuotedToken, TokensOf, HELPER_PIECES;
    hide HasTokens;
    HelperStands(ts, st.position - 1);
    ParameterNames();
    WordIsArgument(W("RegKit"));
    WordIsArgument(W("Native"));
    WordIsArgument(DEFINITION);
    hide Step;
    ThreeParameters(ts, st, W("Namespace"), W("Name"), W("MemberDefinition"), Str(W("RegKit")), Str(W("Native")),
                    Str(DEFINITION));
  }

  lemma HelperRuns(ts: seq<Token>, st: State)
    requires HasTokens(ts, st.position, TokensOf(HELPER_PIECES))
    ensures Runs(ts, st, |TokensOf(HELPER_PIECES)|, st.variables, [])
  {
    hide HasTokens, TokensOf, HELPER_PIECES, Arguments, IsIgnored, ToLower, W, RunFrom, Command, Statement, QuotedToken;
    hide DEFINITION;
    HelperStands(ts, st.position);
    AddTypeIsIgnored();
    HelperArguments(ts, Step(st, 1));
    assert st.output + [] == st.output;
    CommandRuns(ts, st, W("Add-Type"), Step(st, 7));
    CommandStatement(ts, st, W("Add-Type"), Step(st, 7));
    RunGoes(ts, st, Step(st, 7));
  }
}
