/** What the interpreter makes of the tokens of written expressions. */
module PowerShellEvaluation {
  import opened Text
  import opened ValueFormat
  import opened Operations
  import opened KeyPaths
  import opened PowerShellLexer
  import opened PowerShellItems
  import opened PowerShellRoots
  import opened PowerShellGrammar

  // ----- tokens in the list

  predicate HasTokens(ts: seq<Token>, i: nat, piece: seq<Token>) {
    i + |piece| <= |ts| && ts[i..i + |piece|] == piece
  }

  lemma HasTokensSplit(ts: seq<Token>, i: nat, a: seq<Token>, b: seq<Token>)
    requires HasTokens(ts, i, a + b)
    ensures HasTokens(ts, i, a) && HasTokens(ts, i + |a|, b)
  {
    var all := ts[i..i + |a + b|];
    assert ts[i..i + |a|] == all[..|a|] == a;
    assert ts[i + |a|..i + |a| + |b|] == all[|a|..] == b;
  }

  lemma HasTokenAt(ts: seq<Token>, i: nat, piece: seq<Token>, k: nat)
    requires HasTokens(ts, i, piece) && k < |piece|
    ensures i + k < |ts| && ts[i + k] == piece[k] && Peek(ts, i + k) == piece[k]
  {
    assert ts[i..i + |piece|][k] == ts[i + k];
  }

  lemma StepIs(st: State, n: nat)
    ensures Step(st, n) == State(st.position + n, st.variables, st.output)
  {}

  lemma StepTwice(st: State, m: nat, n: nat)
    ensures Step(Step(st, m), n) == Step(st, m + n) && Step(st, m).position == st.position + m
  {}

  lemma PeekIs(ts: seq<Token>, i: nat)
    requires i < |ts|
    ensures Peek(ts, i) == ts[i]
  {}

  /** A punctuation token. */
  function Sign(text: wstring): Token {
    Plain(Punct, text)
  }

  const COMMA_SIGN := Sign(COMMA_TEXT)
  const OPEN_SIGN := Sign(OPEN_TEXT)
  const CLOSE_SIGN := Sign(CLOSE_TEXT)
  const DOT_SIGN := Sign(DOT_TEXT)
  const LIST_SIGN := Sign(LIST_TEXT)
  const SCOPE_SIGN := Sign(SCOPE_TEXT)

  /** The signs are told apart. */
  lemma SignsDiffer()
    ensures Is(COMMA_SIGN, Punct, COMMA_TEXT) && !Is(COMMA_SIGN, Punct, CLOSE_TEXT) && !Is(COMMA_SIGN, Punct, DOT_TEXT)
    ensures Is(CLOSE_SIGN, Punct, CLOSE_TEXT) && !Is(CLOSE_SIGN, Punct, COMMA_TEXT) && !Is(CLOSE_SIGN, Punct, DOT_TEXT)
    ensures Is(OPEN_SIGN, Punct, OPEN_TEXT) && Is(DOT_SIGN, Punct, DOT_TEXT) && !Is(DOT_SIGN, Punct, COMMA_TEXT)
    ensures !Is(DOT_SIGN, Punct, EQUALS_TEXT) && OPEN_TEXT != LIST_TEXT
  {
    assert |LIST_TEXT| == 2;
    assert UpperUnit(COMMA_TEXT[0]) == COMMA && UpperUnit(CLOSE_TEXT[0]) == RPAREN && UpperUnit(DOT_TEXT[0]) == DOT
      && UpperUnit(EQUALS_TEXT[0]) == EQUALS;
  }

  lemma ScopeSign()
    ensures Is(SCOPE_SIGN, Punct, SCOPE_TEXT) && !Is(OPEN_SIGN, Punct, SCOPE_TEXT) && !Is(LIST_SIGN, Punct, SCOPE_TEXT)
  {
    assert SCOPE_TEXT[0] == COLON && LIST_TEXT[0] == AT && |SCOPE_TEXT| == 2;
    assert UpperUnit(LIST_TEXT[0]) != UpperUnit(SCOPE_TEXT[0]);
  }

  /** A token that ends a value. */
  predicate EndsValue(token: Token) {
    token == COMMA_SIGN || token == CLOSE_SIGN || token.kind == Newline
  }

  lemma NoCallBehind(ts: seq<Token>, i: nat)
    requires EndsValue(Peek(ts, i))
    ensures !IsPunct(ts, i, DOT_TEXT)
  {
    SignsDiffer();
  }

  // ----- single tokens

  /** A token that is a value by itself. */
  predicate IsSimple(token: Token, item: Item) {
    || (token.kind == Number && item == Num(token.number, token.wide))
    || (token.kind == String && token.parts == [] && item == Str(token.text))
    || (token.kind == String && |token.parts| == 1 && token.parts[0] == Part(false, token.parts[0].text)
        && item == Str(token.parts[0].text))
  }

  lemma OnePart(text: wstring, variables: Variables)
    ensures Interpolated([Part(false, text)], variables) == Some(text)
  {
    var parts := [Part(false, text)];
    assert parts[..0] == [];
    assert [] + text == text;
  }

  lemma SimplePrimary(ts: seq<Token>, st: State, depth: nat, item: Item)
    requires st.position < |ts| && depth <= DEPTH_LIMIT && IsSimple(ts[st.position], item)
    ensures Primary(ts, st, depth, false) == Some((item, Step(st, 1)))
  {
    var token := ts[st.position];
    if token.kind == String && token.parts != [] {
      OnePart(token.parts[0].text, st.variables);
      assert token.parts == [Part(false, token.parts[0].text)];
    }
    hide Interpolated, StaticMember, Parenthesized;
  }

  lemma PrimaryThenEnd(ts: seq<Token>, st: State, depth: nat, item: Item, after: State)
    requires st.position < |ts| && depth < DEPTH_LIMIT && ts[st.position].kind != Type
    requires Primary(ts, st, depth + 1, false) == Some((item, after)) && EndsValue(Peek(ts, after.position))
    ensures Unary(ts, st, depth, false) == Some((item, after))
  {
    NoCallBehind(ts, after.position);
    hide Primary, IsPunct, EndsValue, Cast;
    assert Postfix(ts, after, depth + 1, item) == Some((item, after));
  }

  lemma SimpleUnary(ts: seq<Token>, st: State, depth: nat, item: Item)
    requires st.position < |ts| && depth < DEPTH_LIMIT && IsSimple(ts[st.position], item)
             && EndsValue(Peek(ts, st.position + 1))
    ensures Unary(ts, st, depth, false) == Some((item, Step(st, 1)))
  {
    SimplePrimary(ts, st, depth + 1, item);
    hide Primary, EndsValue;
    PrimaryThenEnd(ts, st, depth, item, Step(st, 1));
  }

  lemma VariableUnary(ts: seq<Token>, st: State, depth: nat, name: wstring, item: Item)
    requires st.position < |ts| && depth < DEPTH_LIMIT && ts[st.position] == Plain(Variable, name)
    requires VariableValue(ToLower(name), st.variables) == Some(item) && EndsValue(Peek(ts, st.position + 1))
    ensures Unary(ts, st, depth, false) == Some((item, Step(st, 1)))
  {
    assert Primary(ts, st, depth + 1, false) == Some((item, Step(st, 1))) by {
      hide VariableValue, StaticMember, Parenthesized, Interpolated;
    }
    hide Primary, EndsValue;
    PrimaryThenEnd(ts, st, depth, item, Step(st, 1));
  }

  // ----- lists

  /** Tokens with a comma between them. */
  function Joined(tokens: seq<Token>): seq<Token> {
    if tokens == [] then []
    else if |tokens| == 1 then tokens
    else Joined(tokens[..|tokens| - 1]) + [COMMA_SIGN, tokens[|tokens| - 1]]
  }

  lemma {:induction false} JoinedLength(tokens: seq<Token>)
    requires tokens != []
    ensures |Joined(tokens)| == 2 * |tokens| - 1
    decreases |tokens|
  {
    if |tokens| > 1 { JoinedLength(tokens[..|tokens| - 1]); }
  }

  lemma {:induction false} JoinedAt(tokens: seq<Token>, k: nat)
    requires k < |tokens|
    ensures |Joined(tokens)| == 2 * |tokens| - 1 && Joined(tokens)[2 * k] == tokens[k]
    ensures k + 1 < |tokens| ==> Joined(tokens)[2 * k + 1] == COMMA_SIGN
    decreases |tokens|
  {
    JoinedLength(tokens);
    if |tokens| > 1 {
      JoinedLength(tokens[..|tokens| - 1]);
      if k < |tokens| - 1 { JoinedAt(tokens[..|tokens| - 1], k); }
    }
  }

  predicate AreSimple(tokens: seq<Token>, items: seq<Item>) {
    |tokens| == |items| && forall k :: 0 <= k < |tokens| ==> IsSimple(tokens[k], items[k])
  }

  /** The comma list stands at a position, with a closing parenthesis behind it. */
  predicate ListStands(ts: seq<Token>, i: nat, tokens: seq<Token>) {
    HasTokens(ts, i, Joined(tokens) + [CLOSE_SIGN])
  }

  lemma ListTokens(ts: seq<Token>, i: nat, tokens: seq<Token>, k: nat)
    requires ListStands(ts, i, tokens) && k < |tokens|
    ensures i + 2 * k + 1 < |ts| && ts[i + 2 * k] == tokens[k]
    ensures ts[i + 2 * k + 1] == if k + 1 < |tokens| then COMMA_SIGN else CLOSE_SIGN
  {
    hide Joined;
    JoinedAt(tokens, k);
    HasTokenAt(ts, i, Joined(tokens) + [CLOSE_SIGN], 2 * k);
    HasTokenAt(ts, i, Joined(tokens) + [CLOSE_SIGN], 2 * k + 1);
  }

  lemma ListItem(ts: seq<Token>, i: nat, tokens: seq<Token>, items: seq<Item>, k: nat, st: State, depth: nat)
    requires ListStands(ts, i, tokens) && AreSimple(tokens, items) && k < |tokens| && st.position == i + 2 * k
             && depth < DEPTH_LIMIT
    ensures st.position < |ts| && Unary(ts, st, depth, false) == Some((items[k], Step(st, 1)))
    ensures Peek(ts, st.position + 1) == if k + 1 < |tokens| then COMMA_SIGN else CLOSE_SIGN
  {
    ListTokens(ts, i, tokens, k);
    assert IsSimple(tokens[k], items[k]);
    hide ListStands, IsSimple, Unary;
    SimpleUnary(ts, st, depth, items[k]);
  }

  lemma {:induction false} ListRest(ts: seq<Token>, i: nat, tokens: seq<Token>, items: seq<Item>, k: nat, st: State,
      depth: nat)
    requires ListStands(ts, i, tokens) && AreSimple(tokens, items) && 0 < k <= |tokens| && depth < DEPTH_LIMIT
    requires st.position == i + 2 * k - 1 && st.position <= |ts|
    ensures i + 2 * |tokens| - 1 <= |ts|
    ensures ExpressionRest(ts, st, depth, false, items[..k])
            == Some((Many(items, []), st.(position := i + 2 * |tokens| - 1)))
    decreases |tokens| - k
  {
    hide *;
    ListTokens(ts, i, tokens, k - 1);
    AllItems(tokens, items);
    if k == |tokens| {
      DepthIs();
      RestEnds(ts, st, depth, items);
    } else {
      StepIs(st, 1);
      StepIs(st, 2);
      StepIs(Step(st, 1), 1);
      DepthIs();
      ListItem(ts, i, tokens, items, k, Step(st, 1), depth);
      RestStep(ts, st, depth, items[..k], items[k]);
      NextPrefix(items, k);
      ListRest(ts, i, tokens, items, k + 1, Step(st, 2), depth);
    }
  }

  lemma NextPrefix(items: seq<Item>, k: nat)
    requires k < |items|
    ensures items[..k] + [items[k]] == items[..k + 1]
  {}

  lemma DepthIs()
    ensures DEPTH_LIMIT == 256
  {}

  lemma RestEnds(ts: seq<Token>, st: State, depth: nat, items: seq<Item>)
    requires st.position < |ts| && depth <= DEPTH_LIMIT && ts[st.position] == CLOSE_SIGN
    ensures ExpressionRest(ts, st, depth, false, items) == Some((Many(items, []), st))
  {
    SignsDiffer();
  }

  lemma RestStep(ts: seq<Token>, st: State, depth: nat, items: seq<Item>, item: Item)
    requires st.position < |ts| && depth <= DEPTH_LIMIT && ts[st.position] == COMMA_SIGN
    requires Unary(ts, Step(st, 1), depth, false) == Some((item, Step(st, 2)))
    ensures st.position + 2 <= |ts|
            && ExpressionRest(ts, st, depth, false, items)
               == ExpressionRest(ts, Step(st, 2), depth, false, items + [item])
  {
    SignsDiffer();
    hide Unary;
  }

  lemma AllItems(tokens: seq<Token>, items: seq<Item>)
    requires AreSimple(tokens, items)
    ensures |tokens| == |items| && items[..|items|] == items
  {}

  /** The value of a comma list: the item itself when there is one. */
  function ListValue(items: seq<Item>): Item
    requires items != []
  {
    if |items| == 1 then items[0] else Many(items, [])
  }

  lemma ListExpression(ts: seq<Token>, st: State, tokens: seq<Token>, items: seq<Item>, depth: nat)
    requires ListStands(ts, st.position, tokens) && AreSimple(tokens, items) && tokens != [] && depth < DEPTH_LIMIT
    ensures st.position + 2 * |tokens| - 1 <= |ts|
    ensures Expression(ts, st, depth, false) == Some((ListValue(items), Step(st, 2 * |tokens| - 1)))
  {
    hide *;
    DepthIs();
    AllItems(tokens, items);
    ListItem(ts, st.position, tokens, items, 0, st, depth);
    StepIs(st, 1);
    StepIs(st, 2 * |tokens| - 1);
    ListValueIs(items);
    if |tokens| == 1 {
      ExpressionOne(ts, st, depth, items[0]);
    } else {
      ListTokens(ts, st.position, tokens, 0);
      ListRest(ts, st.position, tokens, items, 1, Step(st, 1), depth);
      FirstPrefix(items);
      ExpressionMore(ts, st, depth, items[0]);
    }
  }

  lemma FirstPrefix(items: seq<Item>)
    requires items != []
    ensures items[..1] == [items[0]]
  {}

  lemma ListValueIs(items: seq<Item>)
    requires items != []
    ensures ListValue(items) == if |items| == 1 then items[0] else Many(items, [])
  {}

  lemma ExpressionOne(ts: seq<Token>, st: State, depth: nat, item: Item)
    requires st.position + 1 <= |ts| && depth <= DEPTH_LIMIT
    requires Unary(ts, st, depth, false) == Some((item, Step(st, 1))) && Peek(ts, st.position + 1) == CLOSE_SIGN
    ensures Expression(ts, st, depth, false) == Some((item, Step(st, 1)))
  {
    SignsDiffer();
    hide Unary, ExpressionRest, Is;
  }

  lemma ExpressionMore(ts: seq<Token>, st: State, depth: nat, item: Item)
    requires st.position + 1 < |ts| && depth <= DEPTH_LIMIT
    requires Unary(ts, st, depth, false) == Some((item, Step(st, 1))) && ts[st.position + 1] == COMMA_SIGN
    ensures Expression(ts, st, depth, false) == ExpressionRest(ts, Step(st, 1), depth, false, [item])
  {
    SignsDiffer();
    hide Unary, ExpressionRest, Is;
  }

  /** A comma list in parentheses, or in `@( )`. */
  lemma ListParenthesized(ts: seq<Token>, st: State, tokens: seq<Token>, items: seq<Item>, depth: nat, asList: bool)
    requires ListStands(ts, st.position, tokens) && AreSimple(tokens, items) && tokens != [] && depth < DEPTH_LIMIT
    requires forall k :: 0 <= k < |items| ==> items[k].Str? || items[k].Num?
    ensures var r := Parenthesized(ts, st, depth, asList);
            r.Some? && Elements(r.value.0) == items && r.value.1 == Step(st, 2 * |tokens|)
  {
    hide ListStands, Expression, CLOSE_SIGN, COMMA_SIGN;
    AllItems(tokens, items);
    ListTokens(ts, st.position, tokens, 0);
    ListTokens(ts, st.position, tokens, |tokens| - 1);
    ListExpression(ts, st, tokens, items, depth);
    assert IsSimple(tokens[0], items[0]);
    assert Elements(ListValue(items)) == items
      && Listed(ListValue(items)) == (if |items| == 1 then Many(items, []) else ListValue(items)) by {
      assert |items| == 1 ==> [items[0]] == items;
    }
    hide ListStands, AreSimple, Expression, ListValue, Listed, CLOSE_SIGN, COMMA_SIGN, IsSimple;
    ValueCloses(ts, st, depth, asList, ListValue(items), Step(st, 2 * |tokens| - 1));
  }

  /** A value in parentheses. */
  lemma ValueCloses(ts: seq<Token>, st: State, depth: nat, asList: bool, value: Item, after: State)
    requires st.position < |ts| && depth <= DEPTH_LIMIT
             && (ts[st.position].kind == String || ts[st.position].kind == Number)
    requires Expression(ts, st, depth, false) == Some((value, after)) && Peek(ts, after.position) == CLOSE_SIGN
    ensures Parenthesized(ts, st, depth, asList) == Some((if asList then Listed(value) else value, Step(after, 1)))
  {
    SignsDiffer();
    hide Expression, Listed;
  }

  lemma EmptyParenthesized(ts: seq<Token>, st: State, depth: nat)
    requires st.position < |ts| && ts[st.position] == CLOSE_SIGN && depth <= DEPTH_LIMIT
    ensures Parenthesized(ts, st, depth, true) == Some((Many([], []), Step(st, 1)))
  {
    SignsDiffer();
    hide Expression, Is;
  }

  /** A list behind a cast. */
  lemma CastList(ts: seq<Token>, st: State, depth: nat, name: wstring, asList: bool, value: Item, after: State,
      item: Item)
    requires st.position + 1 < |ts| && depth + 1 < DEPTH_LIMIT
    requires ts[st.position] == Plain(Type, name) && ts[st.position + 1] == (if asList then LIST_SIGN else OPEN_SIGN)
    requires Parenthesized(ts, Step(st, 2), depth + 2, asList) == Some((value, after))
             && EndsValue(Peek(ts, after.position))
    requires Cast(name, value) == Some(item)
    ensures Unary(ts, st, depth, false) == Some((item, after))
  {
    hide *;
    DepthIs();
    var inner := Step(st, 1);
    StepIs(st, 1);
    StepIs(st, 2);
    StepIs(inner, 1);
    ListIsNoScope(ts, st.position + 1, asList);
    PlainIs(Type, name);
    ListPrimary(ts, inner, depth + 2, asList, value, after);
    PrimaryThenEnd(ts, inner, depth + 1, value, after);
    UnaryCasts(ts, st, depth, inner, value, after, item);
  }

  lemma PlainIs(kind: Kind, text: wstring)
    ensures Plain(kind, text).kind == kind && Plain(kind, text).text == text
  {}

  lemma ListIsNoScope(ts: seq<Token>, i: nat, asList: bool)
    requires i < |ts| && ts[i] == (if asList then LIST_SIGN else OPEN_SIGN)
    ensures !IsPunct(ts, i, SCOPE_TEXT) && ts[i].kind == Punct && Punct != Type
  {
    ScopeSign();
    hide LIST_TEXT, SCOPE_TEXT, OPEN_TEXT;
  }

  lemma ListPrimary(ts: seq<Token>, st: State, depth: nat, asList: bool, value: Item, after: State)
    requires st.position < |ts| && depth <= DEPTH_LIMIT && ts[st.position] == (if asList then LIST_SIGN else OPEN_SIGN)
    requires Parenthesized(ts, Step(st, 1), depth, asList) == Some((value, after))
    ensures Primary(ts, st, depth, false) == Some((value, after))
  {
    SignsDiffer();
    hide Parenthesized, StaticMember, Interpolated, VariableValue, Is;
  }

  lemma UnaryCasts(ts: seq<Token>, st: State, depth: nat, inner: State, value: Item, after: State, item: Item)
    requires st.position + 1 < |ts| && depth < DEPTH_LIMIT && inner == Step(st, 1)
    requires ts[st.position].kind == Type && !IsPunct(ts, st.position + 1, SCOPE_TEXT)
    requires Unary(ts, inner, depth + 1, false) == Some((value, after))
             && Cast(ts[st.position].text, value) == Some(item)
    ensures Unary(ts, st, depth, false) == Some((item, after))
  {
    hide Primary, Postfix, Cast, IsPunct;
  }

  // ----- calls

  lemma CallStep(ts: seq<Token>, st: State, depth: nat, arguments: seq<Item>, item: Item, after: State)
    requires st.position < |ts| && depth <= DEPTH_LIMIT && ts[st.position].kind != Punct
    requires Unary(ts, st, depth, false) == Some((item, after)) && Peek(ts, after.position) == COMMA_SIGN
    ensures after.position < |ts|
            && CallRest(ts, st, depth, arguments) == CallRest(ts, Step(after, 1), depth, arguments + [item])
  {
    SignsDiffer();
    hide Unary;
  }

  lemma CallLast(ts: seq<Token>, st: State, depth: nat, arguments: seq<Item>, item: Item, after: State)
    requires st.position < |ts| && depth <= DEPTH_LIMIT && ts[st.position].kind != Punct
    requires Unary(ts, st, depth, false) == Some((item, after)) && Peek(ts, after.position) == CLOSE_SIGN
    ensures after.position < |ts| && CallRest(ts, st, depth, arguments) == Some((arguments + [item], Step(after, 1)))
  {
    SignsDiffer();
    hide Unary;
    assert CallRest(ts, after, depth, arguments + [item]) == Some((arguments + [item], Step(after, 1)));
  }

  /** A call on a key, its arguments already read. */
  lemma CallOnKey(ts: seq<Token>, st: State, depth: nat, path: wstring, member: wstring, arguments: seq<Item>,
      after: State, result: Item, ops: seq<Operation>)
    requires st.position + 2 < |ts| && depth <= DEPTH_LIMIT
    requires ts[st.position] == DOT_SIGN && ts[st.position + 1] == Plain(Word, member)
             && ts[st.position + 2] == OPEN_SIGN
    requires CallRest(ts, Step(st, 3), depth, []) == Some((arguments, after)) && EndsValue(Peek(ts, after.position))
    requires KeyCall(path, ToLower(member), arguments) == Some((result, ops))
    ensures Postfix(ts, st, depth, OpenKey(path)) == Some((result, after.(output := after.output + ops)))
  {
    hide CallRest, KeyCall, Is, EndsValue;
    SignsDiffer();
    NoCallBehind(ts, after.position);
    assert CallArguments(ts, Step(st, 2), depth) == Some((arguments, after));
    var done := after.(output := after.output + ops);
    assert Postfix(ts, done, depth, result) == Some((result, done));
  }

  lemma NoCallOnKey(ts: seq<Token>, st: State, depth: nat, item: Item)
    requires st.position <= |ts| && depth <= DEPTH_LIMIT && EndsValue(Peek(ts, st.position))
    ensures Postfix(ts, st, depth, item) == Some((item, st))
  {
    NoCallBehind(ts, st.position);
    hide EndsValue;
  }

  const ROOT_TYPE_NAME := W("Microsoft.Win32.Registry")
  const NATIVE_TYPE_NAME := W("RegKit.Native")

  lemma TypeNamesLower()
    ensures ToLower(ROOT_TYPE_NAME) == REGISTRY_TYPE && ToLower(NATIVE_TYPE_NAME) == NATIVE_TYPE
    ensures |NATIVE_TYPE| == 13 && |REGISTRY_TYPE| == 24 && |VALUE_KIND| == 33 && |HIVE_TYPE| == 28 && |VIEW_TYPE| == 28
            && |KEY_TYPE| == 27
  {}

  /** A root key. */
  lemma RootPrimary(ts: seq<Token>, st: State, depth: nat, i: nat)
    requires i < BROWSABLE_ROOTS && depth <= DEPTH_LIMIT
    requires HasTokens(ts, st.position, [Plain(Type, ROOT_TYPE_NAME), SCOPE_SIGN, Plain(Word, PROPERTIES[i])])
    ensures st.position + 3 <= |ts| && IsPunct(ts, st.position + 1, SCOPE_TEXT)
    ensures Primary(ts, st, depth, false) == Some((OpenKey(ROOTS[i].name), Step(st, 3)))
  {
    var piece := [Plain(Type, ROOT_TYPE_NAME), SCOPE_SIGN, Plain(Word, PROPERTIES[i])];
    RootOfProperty(i);
    hide ROOTS, PROPERTIES, Plain, ROOT_TYPE_NAME, SCOPE_SIGN, HasTokens, Primary, StaticMember, Peek, RootFrom;
    hide PropertyFrom, ToLower, W;
    HasTokenAt(ts, st.position, piece, 0);
    HasTokenAt(ts, st.position, piece, 1);
    HasTokenAt(ts, st.position, piece, 2);
    PlainIs(Type, ROOT_TYPE_NAME);
    ScopeStands(ts, st.position + 1);
    RootMember(ts, Step(st, 1), depth, PROPERTIES[i], ROOTS[i].name);
    TypePrimary(ts, st, depth);
  }

  lemma RootMember(ts: seq<Token>, st: State, depth: nat, property: wstring, root: wstring)
    requires st.position + 1 < |ts| && depth <= DEPTH_LIMIT && IsPunct(ts, st.position, SCOPE_TEXT)
    requires ts[st.position + 1] == Plain(Word, property) && RootFrom(ToLower(property), 0) == Some(root)
    ensures StaticMember(ts, st, depth, ROOT_TYPE_NAME) == Some((OpenKey(root), Step(st, 2)))
  {
    TypeNamesLower();
    hide ToLower, IsPunct, NATIVE_TYPE_NAME, ROOT_TYPE_NAME, REGISTRY_TYPE, NATIVE_TYPE, VALUE_KIND, HIVE_TYPE;
    hide VIEW_TYPE, KEY_TYPE, SET_VALUE, NativeSet,
      W, CallArguments, BaseKey, RootFrom;
  }

  /** A static type in front of a member is a value, not a cast. */
  lemma StaticUnary(ts: seq<Token>, st: State, depth: nat, item: Item, after: State)
    requires st.position + 1 < |ts| && depth < DEPTH_LIMIT && IsPunct(ts, st.position + 1, SCOPE_TEXT)
    requires Primary(ts, st, depth + 1, false) == Some((item, after))
    ensures after.position <= |ts| && Unary(ts, st, depth, false) == Postfix(ts, after, depth + 1, item)
  {
    hide Primary, Postfix, IsPunct;
  }

  /** The native helper's call. */
  lemma NativePrimary(ts: seq<Token>, st: State, depth: nat, arguments: seq<Item>, after: State, op: Operation)
    requires depth <= DEPTH_LIMIT
    requires HasTokens(ts, st.position,
                       [Plain(Type, NATIVE_TYPE_NAME), SCOPE_SIGN, Plain(Word, W("SetValue")), OPEN_SIGN])
    requires st.position + 4 <= |ts| && CallRest(ts, Step(st, 4), depth, []) == Some((arguments, after))
             && NativeSet(arguments) == Some(op)
    ensures IsPunct(ts, st.position + 1, SCOPE_TEXT)
    ensures Primary(ts, st, depth, false) == Some((Nothing, after.(output := after.output + [op])))
  {
    var piece := [Plain(Type, NATIVE_TYPE_NAME), SCOPE_SIGN, Plain(Word, W("SetValue")), OPEN_SIGN];
    hide *;
    HasTokenAt(ts, st.position, piece, 0);
    HasTokenAt(ts, st.position, piece, 1);
    HasTokenAt(ts, st.position, piece, 2);
    HasTokenAt(ts, st.position, piece, 3);
    PlainIs(Type, NATIVE_TYPE_NAME);
    StepIs(st, 1);
    StepIs(st, 3);
    StepIs(st, 4);
    StepIs(Step(st, 1), 2);
    StepIs(Step(st, 3), 1);
    ScopeStands(ts, st.position + 1);
    CallStarts(ts, Step(st, 3), depth, arguments, after);
    NativeMember(ts, Step(st, 1), depth, arguments, after, op);
    TypePrimary(ts, st, depth);
  }

  lemma ScopeStands(ts: seq<Token>, i: nat)
    requires i < |ts| && ts[i] == SCOPE_SIGN
    ensures IsPunct(ts, i, SCOPE_TEXT)
  {
    ScopeSign();
    hide SCOPE_TEXT;
  }

  lemma CallStarts(ts: seq<Token>, st: State, depth: nat, arguments: seq<Item>, after: State)
    requires st.position < |ts| && depth <= DEPTH_LIMIT && ts[st.position] == OPEN_SIGN
    requires CallRest(ts, Step(st, 1), depth, []) == Some((arguments, after))
    ensures CallArguments(ts, st, depth) == Some((arguments, after))
  {
    SignsDiffer();
    hide CallRest, Is;
  }

  lemma NativeMember(ts: seq<Token>, st: State, depth: nat, arguments: seq<Item>, after: State, op: Operation)
    requires st.position + 2 <= |ts| && depth <= DEPTH_LIMIT && IsPunct(ts, st.position, SCOPE_TEXT)
    requires st.position + 1 < |ts| && ts[st.position + 1] == Plain(Word, W("SetValue"))
    requires CallArguments(ts, Step(st, 2), depth) == Some((arguments, after)) && NativeSet(arguments) == Some(op)
    ensures StaticMember(ts, st, depth, NATIVE_TYPE_NAME) == Some((Nothing, after.(output := after.output + [op])))
  {
    TypeNamesLower();
    SetValueLower();
    hide ToLower, IsPunct, NATIVE_TYPE_NAME, REGISTRY_TYPE, NATIVE_TYPE, VALUE_KIND, HIVE_TYPE, VIEW_TYPE, KEY_TYPE;
    hide SET_VALUE, NativeSet, W, CallArguments,
      BaseKey, RootFrom;
  }

  lemma TypePrimary(ts: seq<Token>, st: State, depth: nat)
    requires st.position < |ts| && depth <= DEPTH_LIMIT && ts[st.position].kind == Type
    ensures Primary(ts, st, depth, false) == StaticMember(ts, Step(st, 1), depth, ts[st.position].text)
  {
    hide StaticMember, Parenthesized, Interpolated, VariableValue;
  }

  lemma SetValueLower()
    ensures ToLower(W("SetValue")) == SET_VALUE
  {}
}
