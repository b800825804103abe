/** What a tokenized script means: the statements, expressions and calls of the interpreter as functions of its
    state. */
module PowerShellGrammar {
  import opened Text
  import opened ValueFormat
  import opened Operations
  import opened PowerShellLexer
  import opened PowerShellItems
  import opened PowerShellRoots

  datatype State = State(position: nat, variables: Variables, output: seq<Operation>)

  /** Nesting of expressions the interpreter allows. */
  const DEPTH_LIMIT := 256

  // ----- tokens

  /** The token at a position; the list ends in an end token. */
  function Peek(ts: seq<Token>, i: nat): Token {
    if i < |ts| then ts[i] else Plain(End, [])
  }

  predicate Is(token: Token, kind: Kind, text: wstring) {
    token.kind == kind && EqualsInsensitive(token.text, text)
  }

  predicate IsPunct(ts: seq<Token>, i: nat, text: wstring) {
    Is(Peek(ts, i), Punct, text)
  }

  predicate IsWord(ts: seq<Token>, i: nat, text: wstring) {
    Is(Peek(ts, i), Word, text)
  }

  function Step(st: State, count: nat): State {
    st.(position := st.position + count)
  }

  const COMMA_TEXT: wstring := [COMMA]
  const OPEN_TEXT: wstring := [LPAREN]
  const CLOSE_TEXT: wstring := [RPAREN]
  const END_TEXT: wstring := [RBRACE]
  const DOT_TEXT: wstring := [DOT]
  const BAR_TEXT: wstring := [BAR]
  const EQUALS_TEXT: wstring := [EQUALS]
  const SCOPE_TEXT := W("::")
  const LIST_TEXT := W("@(")

  function Expect(ts: seq<Token>, st: State, text: wstring): (r: Option<State>)
    requires st.position <= |ts|
    ensures r.Some? ==> st.position < r.value.position <= |ts| && r.value == Step(st, 1)
  {
    if IsPunct(ts, st.position, text) then Some(Step(st, 1)) else None
  }

  /** The member name behind a dot or a double colon, in lower case. */
  function TakeMember(ts: seq<Token>, st: State): (r: Option<(wstring, State)>)
    requires st.position <= |ts|
    ensures r.Some? ==> st.position < r.value.1.position <= |ts|
  {
    if Peek(ts, st.position + 1).kind == Word then Some((ToLower(Peek(ts, st.position + 1).text), Step(st, 2)))
    else None
  }

  /** `| Out-Null`, any number of times. */
  function Pipeline(ts: seq<Token>, st: State): (r: Option<State>)
    requires st.position <= |ts|
    ensures r.Some? ==> st.position <= r.value.position <= |ts|
    decreases |ts| - st.position
  {
    if !IsPunct(ts, st.position, BAR_TEXT) then Some(st)
    else if !IsWord(ts, st.position + 1, W("Out-Null")) then None
    else Pipeline(ts, Step(st, 2))
  }

  // ----- members

  const REGISTRY_TYPE := W("microsoft.win32.registry")
  const HIVE_TYPE := W("microsoft.win32.registryhive")
  const VIEW_TYPE := W("microsoft.win32.registryview")
  const KEY_TYPE := W("microsoft.win32.registrykey")
  const NATIVE_TYPE := W("regkit.native")

  /** RegKit.Native.SetValue: a key, a name, a type number and bytes; the type wraps to 32 bits. */
  function NativeSet(arguments: seq<Item>): Option<Operation> {
    if |arguments| != 4 || !arguments[0].OpenKey? || !arguments[2].Num? then None
    else
      var name, data := TextOf(arguments[1]), BytesOf(arguments[3]);
      if name.None? || data.None? then None
      else
        Some(SetValue(arguments[0].path,
                      RegistryValue(name.value, (arguments[2].number % 0x1_0000_0000) as uint32, data.value)))
  }

  /** RegistryKey.OpenBaseKey of a hive, in the default view. */
  function BaseKey(arguments: seq<Item>): Option<Item> {
    if arguments == [] || (|arguments| > 1 && !EqualsInsensitive(ItemText(arguments[1]), W("Default"))) then None
    else
      var root := RootFrom(ItemText(arguments[0]), 0);
      if root.None? then None else Some(OpenKey(root.value))
  }

  /** The text field of an item, empty where it has none. */
  function ItemText(item: Item): wstring {
    match item
    case Str(text) => text
    case OpenKey(path) => path
    case _ => []
  }

  /** The path a call with these arguments means. */
  function CallPath(path: wstring, sub: wstring): wstring {
    if sub == [] then path else path + [BACKSLASH] + sub
  }

  const CREATE_SUB_KEY := W("createsubkey")
  const OPEN_SUB_KEY := W("opensubkey")
  const SET_VALUE := W("setvalue")
  const DELETE_VALUE := W("deletevalue")
  const DELETE_TREE := W("deletesubkeytree")
  const DELETE_SUB_KEY := W("deletesubkey")

  /** A call on a key: its result and the operations it adds. */
  function KeyCall(path: wstring, member: wstring, arguments: seq<Item>): Option<(Item, seq<Operation>)> {
    var text := if arguments == [] then Some([]) else TextOf(arguments[0]);
    if text.None? then None
    else
      var sub := text.value;
      var full := CallPath(path, sub);
      if member == CREATE_SUB_KEY then Some((OpenKey(full), [Key(full)]))
      else if member == OPEN_SUB_KEY then Some((OpenKey(full), []))
      else if member == SET_VALUE && (|arguments| == 2 || |arguments| == 3) then SetCall(path, sub, arguments)
      else if member == DELETE_VALUE then Some((Nothing, [RemoveValue(path, sub)]))
      else if member == DELETE_TREE || member == DELETE_SUB_KEY then Some((Nothing, [RemoveKey(full)]))
      else if member == W("close") || member == W("dispose") || member == W("flush") then Some((Nothing, []))
      else None
  }

  function SetCall(path: wstring, name: wstring, arguments: seq<Item>): Option<(Item, seq<Operation>)>
    requires |arguments| == 2 || |arguments| == 3
  {
    var kind := if |arguments| == 3 then TextOf(arguments[2]) else Some([]);
    if kind.None? then None
    else
      var op := SetOf(path, name, arguments[1], kind.value);
      if op.None? then None else Some((Nothing, [op.value]))
  }

  // ----- commands

  /** Commands that change no registry; the others are outside the model. */
  predicate IsIgnored(name: wstring) {
    name in [W("out-null"), W("write-host"), W("write-output"), W("write-verbose"), W("write-warning"),
             W("set-strictmode"), W("add-type"),
             W("clear-host"), W("start-sleep"), W("test-path")]
  }

  predicate IsSwitch(name: wstring) {
    name in [W("force"), W("recurse"), W("confirm"), W("passthru"), W("verbose"), W("whatif")]
  }

  predicate EndsArguments(ts: seq<Token>, i: nat) {
    var token := Peek(ts, i);
    token.kind == Newline || token.kind == End || Is(token, Punct, BAR_TEXT) || Is(token, Punct, CLOSE_TEXT)
      || Is(token, Punct, END_TEXT)
  }

  // ----- expressions

  function Expression(ts: seq<Token>, st: State, depth: nat, asArgument: bool): (r: Option<(Item, State)>)
    requires st.position <= |ts| && depth <= DEPTH_LIMIT
    ensures r.Some? ==> st.position < r.value.1.position <= |ts|
    decreases DEPTH_LIMIT - depth, 2, |ts| - st.position
  {
    var first := Unary(ts, st, depth, asArgument);
    if first.None? || !IsPunct(ts, first.value.1.position, COMMA_TEXT) then first
    else ExpressionRest(ts, first.value.1, depth, asArgument, [first.value.0])
  }

  /** The list from its second item on. */
  function ExpressionRest(ts: seq<Token>, st: State, depth: nat, asArgument: bool,
      items: seq<Item>): (r: Option<(Item, State)>)
    requires st.position <= |ts| && depth <= DEPTH_LIMIT
    ensures r.Some? ==> st.position <= r.value.1.position <= |ts|
    decreases DEPTH_LIMIT - depth, 1, |ts| - st.position
  {
    if !IsPunct(ts, st.position, COMMA_TEXT) then Some((Many(items, []), st))
    else
      var next := Unary(ts, Step(st, 1), depth, asArgument);
      if next.None? then None else ExpressionRest(ts, next.value.1, depth, asArgument, items + [next.value.0])
  }

  function Unary(ts: seq<Token>, st: State, depth: nat, asArgument: bool): (r: Option<(Item, State)>)
    requires st.position <= |ts| && depth <= DEPTH_LIMIT
    ensures r.Some? ==> st.position < r.value.1.position <= |ts|
    decreases DEPTH_LIMIT - depth, 0, |ts| - st.position
  {
    if depth + 1 > DEPTH_LIMIT then None
    else if Peek(ts, st.position).kind == Type && !IsPunct(ts, st.position + 1, SCOPE_TEXT) then
      var inner := Unary(ts, Step(st, 1), depth + 1, asArgument);
      if inner.None? then None
      else
        var item := Cast(Peek(ts, st.position).text, inner.value.0);
        if item.None? then None else Some((item.value, inner.value.1))
    else
      var primary := Primary(ts, st, depth + 1, asArgument);
      if primary.None? then None else Postfix(ts, primary.value.1, depth + 1, primary.value.0)
  }

  function VariableValue(name: wstring, variables: Variables): Option<Item> {
    if name == W("true") || name == W("false") then Some(Num(if name == W("true") then 1 else 0, false))
    else if name == W("null") then Some(Nothing)
    else if name in variables then Some(variables[name])
    else None
  }

  function Primary(ts: seq<Token>, st: State, depth: nat, asArgument: bool): (r: Option<(Item, State)>)
    requires st.position <= |ts| && depth <= DEPTH_LIMIT
    ensures r.Some? ==> st.position < r.value.1.position <= |ts|
    decreases DEPTH_LIMIT - depth, 6, |ts| - st.position
  {
    var token, after := Peek(ts, st.position), Step(st, 1);
    match token.kind
    case String =>
      var text := if token.parts == [] then Some(token.text) else Interpolated(token.parts, st.variables);
      if text.None? then None else Some((Str(text.value), after))
    case Number => Some((Num(token.number, token.wide), after))
    case Variable =>
      var value := VariableValue(ToLower(token.text), st.variables);
      if value.None? then None else Some((value.value, after))
    case Word => if asArgument then Some((Str(token.text), after)) else None
    case Type => StaticMember(ts, after, depth, token.text)
    case Punct => if token.text == OPEN_TEXT
      || token.text == LIST_TEXT then Parenthesized(ts, after, depth, token.text == LIST_TEXT) else None
    case _ => None
  }

  /** The list that `@(` makes of a value. */
  function Listed(value: Item): Item {
    if value.Many? then value else if value.Nothing? then Many([], []) else Many([value], [])
  }

  /** A value in parentheses; a missing one is nothing. */
  function Parenthesized(ts: seq<Token>, st: State, depth: nat, asList: bool): (r: Option<(Item, State)>)
    requires st.position <= |ts| && depth <= DEPTH_LIMIT
    ensures r.Some? ==> st.position < r.value.1.position <= |ts|
    decreases DEPTH_LIMIT - depth, 5, |ts| - st.position
  {
    var value :=
      if Peek(ts, st.position).kind == Word then
        var command := Command(ts, st, depth);
        if command.None? then None else Some((Nothing, command.value))
      else if IsPunct(ts, st.position, CLOSE_TEXT) then Some((Nothing, st))
      else Expression(ts, st, depth, false);
    if value.None? then None
    else
      var closed := Expect(ts, value.value.1, CLOSE_TEXT);
      if closed.None? then None else Some((if asList then Listed(value.value.0) else value.value.0, closed.value))
  }

  function CallArguments(ts: seq<Token>, st: State, depth: nat): (r: Option<(seq<Item>, State)>)
    requires st.position <= |ts| && depth <= DEPTH_LIMIT
    ensures r.Some? ==> st.position < r.value.1.position <= |ts|
    decreases DEPTH_LIMIT - depth, 2, |ts| - st.position
  {
    var inside := Expect(ts, st, OPEN_TEXT);
    if inside.None? then None else CallRest(ts, inside.value, depth, [])
  }

  /** The arguments from the next one on. */
  function CallRest(ts: seq<Token>, st: State, depth: nat, arguments: seq<Item>): (r: Option<(seq<Item>, State)>)
    requires st.position <= |ts| && depth <= DEPTH_LIMIT
    ensures r.Some? ==> st.position < r.value.1.position <= |ts|
    decreases DEPTH_LIMIT - depth, 1, |ts| - st.position
  {
    if IsPunct(ts, st.position, CLOSE_TEXT) then Some((arguments, Step(st, 1)))
    else
      var next := Unary(ts, st, depth, false);
      if next.None? then None
      else if IsPunct(ts, next.value.1.position, CLOSE_TEXT) then
        CallRest(ts, next.value.1, depth, arguments + [next.value.0])
      else
        var comma := Expect(ts, next.value.1, COMMA_TEXT);
        if comma.None? then None else CallRest(ts, comma.value, depth, arguments + [next.value.0])
  }

  function StaticMember(ts: seq<Token>, st: State, depth: nat, typeName: wstring): (r: Option<(Item, State)>)
    requires st.position <= |ts| && depth <= DEPTH_LIMIT
    ensures r.Some? ==> st.position < r.value.1.position <= |ts|
    decreases DEPTH_LIMIT - depth, 5, |ts| - st.position
  {
    var lower := ToLower(typeName);
    var taken := if IsPunct(ts, st.position, SCOPE_TEXT) then TakeMember(ts, st) else None;
    if taken.None? then None
    else
      var member, after := taken.value.0, taken.value.1;
      if lower == REGISTRY_TYPE then
        var root := RootFrom(member, 0);
        if root.None? then None else Some((OpenKey(root.value), after))
      else if lower == VALUE_KIND || lower == HIVE_TYPE || lower == VIEW_TYPE then Some((Str(member), after))
      else if (lower == KEY_TYPE && member == W("openbasekey")) || (lower == NATIVE_TYPE && member == SET_VALUE) then
        var called := CallArguments(ts, after, depth);
        if called.None? then None else StaticCall(lower == NATIVE_TYPE, called.value.0, called.value.1)
      else None
  }

  function StaticCall(native: bool, arguments: seq<Item>, st: State): (r: Option<(Item, State)>)
    ensures r.Some? ==> r.value.1.position == st.position
  {
    if native then
      var op := NativeSet(arguments);
      if op.None? then None else Some((Nothing, st.(output := st.output + [op.value])))
    else
      var base := BaseKey(arguments);
      if base.None? then None else Some((base.value, st))
  }

  /** The calls behind a value. */
  function Postfix(ts: seq<Token>, st: State, depth: nat, item: Item): (r: Option<(Item, State)>)
    requires st.position <= |ts| && depth <= DEPTH_LIMIT
    ensures r.Some? ==> st.position <= r.value.1.position <= |ts|
    decreases DEPTH_LIMIT - depth, 5, |ts| - st.position
  {
    if !IsPunct(ts, st.position, DOT_TEXT) then Some((item, st))
    else
      var taken := TakeMember(ts, st);
      if taken.None? || !item.OpenKey? then None
      else
        var called := CallArguments(ts, taken.value.1, depth);
        if called.None? then None
        else
          var result := KeyCall(item.path, taken.value.0, called.value.0);
          if result.None? then None
          else
            var after := called.value.1;
            Postfix(ts, after.(output := after.output + result.value.1), depth, result.value.0)
  }

  /** A command that changes nothing; its arguments are evaluated. */
  function Command(ts: seq<Token>, st: State, depth: nat): (r: Option<State>)
    requires st.position <= |ts| && depth <= DEPTH_LIMIT && Peek(ts, st.position).kind == Word
    ensures r.Some? ==> st.position < r.value.position <= |ts|
    decreases DEPTH_LIMIT - depth, 4, |ts| - st.position
  {
    var arguments := Arguments(ts, Step(st, 1), depth);
    if arguments.None? then None
    else
      var piped := Pipeline(ts, arguments.value);
      if piped.None? || !IsIgnored(ToLower(Peek(ts, st.position).text)) then None else piped
  }

  function ParameterName(text: wstring): wstring {
    var lower := ToLower(text);
    if lower != [] && lower[|lower| - 1] == COLON then lower[..|lower| - 1] else lower
  }

  predicate HasColon(text: wstring) {
    text != [] && text[|text| - 1] == COLON
  }

  function Arguments(ts: seq<Token>, st: State, depth: nat): (r: Option<State>)
    requires st.position <= |ts| && depth <= DEPTH_LIMIT
    ensures r.Some? ==> st.position <= r.value.position <= |ts|
    decreases DEPTH_LIMIT - depth, 3, |ts| - st.position
  {
    var token := Peek(ts, st.position);
    if EndsArguments(ts, st.position) then Some(st)
    else if token.kind != Parameter then
      var value := Expression(ts, st, depth, true);
      if value.None? then None else Arguments(ts, value.value.1, depth)
    else
      var name := ParameterName(token.text);
      if name == W("whatif") then None
      else if HasColon(token.text) then
        var value := Unary(ts, Step(st, 1), depth, true);
        if value.None? then None else Arguments(ts, value.value.1, depth)
      else if IsSwitch(name) then Arguments(ts, Step(st, 1), depth)
      else
        var value := Expression(ts, Step(st, 1), depth, true);
        if value.None? then None else Arguments(ts, value.value.1, depth)
  }

  // ----- statements

  datatype Flow = Go(state: State) | Leave(state: State)

  predicate IsAssignment(ts: seq<Token>, i: nat) {
    Peek(ts, i).kind == Variable && IsPunct(ts, i + 1, EQUALS_TEXT)
  }

  function Assign(st: State, name: wstring, value: Item): State {
    if name == W("null") then st else st.(variables := st.variables[name := value])
  }

  /** One statement; conditional blocks are outside the model. */
  function Statement(ts: seq<Token>, st: State): (r: Option<Flow>)
    requires st.position <= |ts|
    ensures r.Some? && r.value.Go? ==> st.position < r.value.state.position <= |ts|
  {
    if IsWord(ts, st.position, W("exit")) || IsWord(ts, st.position, W("return")) then Some(Leave(st))
    else if IsWord(ts, st.position, W("if")) then None
    else if IsAssignment(ts, st.position) then
      var after, name := Step(st, 2), ToLower(Peek(ts, st.position).text);
      if Peek(ts, after.position).kind == Word then
        var command := Command(ts, after, 0);
        if command.None? then None else Some(Go(Assign(command.value, name, Nothing)))
      else
        var value := Expression(ts, after, 0, false);
        if value.None? then None else Some(Go(Assign(value.value.1, name, value.value.0)))
    else if Peek(ts, st.position).kind == Word then
      var command := Command(ts, st, 0);
      if command.None? then None else Some(Go(command.value))
    else
      var value := Expression(ts, st, 0, false);
      if value.None? then None
      else
        var piped := Pipeline(ts, value.value.1);
        if piped.None? then None else Some(Go(piped.value))
  }

  /** The statements from a position on: the operations, or None where the script can't be read. */
  function RunFrom(ts: seq<Token>, st: State): Option<seq<Operation>>
    requires st.position <= |ts|
    decreases |ts| - st.position
  {
    if Peek(ts, st.position).kind == End then Some(st.output)
    else if Peek(ts, st.position).kind == Newline then RunFrom(ts, Step(st, 1))
    else
      var flow := Statement(ts, st);
      if flow.None? then None
      else if flow.value.Leave? then Some(flow.value.state.output)
      else
        var next := flow.value.state;
        if Peek(ts, next.position).kind == Newline || Peek(ts, next.position).kind == End then RunFrom(ts, next)
        else None
  }

  const START := State(0, map[], [])

  function Meaning(ts: seq<Token>): Option<seq<Operation>> {
    RunFrom(ts, START)
  }
}
