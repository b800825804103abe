/** Running a script: the interpreter as it moves over its tokens and adds operations. */
module PowerShellInterpreter {
  import opened Text
  import opened ValueFormat
  import opened Operations
  import opened PowerShellLexer
  import opened PowerShellItems
  import opened PowerShellRoots
  import opened PowerShellGrammar

  class Interpreter {
    const tokens: seq<Token>
    var position: nat
    var variables: Variables
    var output: seq<Operation>
    var depth: nat

    constructor (tokens: seq<Token>)
      ensures this.tokens == tokens && Now() == START && depth == 0
    {
      this.tokens := tokens;
      position, variables, output, depth := 0, map[], [], 0;
    }

    function Now(): State
      reads this
    {
      State(position, variables, output)
    }

    predicate Ready()
      reads this
    {
      position <= |tokens| && depth <= DEPTH_LIMIT
    }

    /** The result is what the grammar gives; where it gives none, the run is over. */
    predicate Gives(item: Option<Item>, meant: Option<(Item, State)>)
      reads this
    {
      if meant.None? then item.None? else item == Some(meant.value.0) && Now() == meant.value.1
    }

    predicate Goes(ok: bool, meant: Option<State>)
      reads this
    {
      if meant.None? then !ok else ok && Now() == meant.value
    }

    method Expect(text: wstring) returns (ok: bool)
      requires Ready()
      modifies this`position
      ensures Goes(ok, PowerShellGrammar.Expect(tokens, old(Now()), text))
    {
      ok := IsPunct(tokens, position, text);
      if ok {
        position := position + 1;
      }
    }

    method TakeMember() returns (member: Option<wstring>)
      requires Ready()
      modifies this`position
      ensures var meant := PowerShellGrammar.TakeMember(tokens, old(Now()));
              if meant.None? then member.None? else member == Some(meant.value.0) && Now() == meant.value.1
    {
      position := position + 1;
      if Peek(tokens, position).kind != Word {
        return None;
      }
      member := Some(ToLower(Peek(tokens, position).text));
      position := position + 1;
    }

    method Pipeline() returns (ok: bool)
      requires Ready()
      modifies this`position
      ensures Goes(ok, PowerShellGrammar.Pipeline(tokens, old(Now())))
    {
      hide IsPunct, IsWord;
      ghost var st := Now();
      while IsPunct(tokens, position, BAR_TEXT)
        invariant position <= |tokens|
                  && PowerShellGrammar.Pipeline(tokens, Now()) == PowerShellGrammar.Pipeline(tokens, st)
        decreases |tokens| - position
      {
        position := position + 1;
        if !IsWord(tokens, position, W("Out-Null")) {
          return false;
        }
        WordIsToken(tokens, position, W("Out-Null"));
        position := position + 1;
      }
      ok := true;
    }

    method Expression(asArgument: bool) returns (item: Option<Item>)
      requires Ready()
      modifies this
      ensures Gives(item, PowerShellGrammar.Expression(tokens, old(Now()), old(depth), asArgument))
      ensures item.Some? ==> depth == old(depth)
      decreases DEPTH_LIMIT - depth, 2, |tokens| - position
    {
      hide PowerShellGrammar.Unary, IsPunct;
      item := Unary(asArgument);
      if item.None? || !IsPunct(tokens, position, COMMA_TEXT) {
        return;
      }
      var items := [item.value];
      ghost var first := Now();
      while IsPunct(tokens, position, COMMA_TEXT)
        invariant Ready() && depth == old(depth) && position >= first.position
        invariant ExpressionRest(tokens, Now(), depth, asArgument, items)
                  == ExpressionRest(tokens, first, depth, asArgument, [item.value])
        decreases |tokens| - position
      {
        CommaIsToken(tokens, position);
        position := position + 1;
        var next := Unary(asArgument);
        if next.None? {
          return None;
        }
        items := items + [next.value];
      }
      item := Some(Many(items, []));
    }

    method Unary(asArgument: bool) returns (item: Option<Item>)
      requires Ready()
      modifies this
      ensures Gives(item, PowerShellGrammar.Unary(tokens, old(Now()), old(depth), asArgument))
      ensures item.Some? ==> depth == old(depth)
      decreases DEPTH_LIMIT - depth, 0, |tokens| - position
    {
      hide PowerShellGrammar.Primary, PowerShellGrammar.Postfix, Cast, IsPunct;
      depth := depth + 1;
      if depth > DEPTH_LIMIT {
        return None;
      }
      if Peek(tokens, position).kind == Type && !IsPunct(tokens, position + 1, SCOPE_TEXT) {
        var name := Peek(tokens, position).text;
        position := position + 1;
        item := Unary(asArgument);
        if item.None? {
          return;
        }
        item := ReadCast(name, item.value);
      } else {
        item := Primary(asArgument);
        if item.None? {
          return;
        }
        item := Postfix(item.value);
      }
      if item.Some? {
        depth := depth - 1;
      }
    }

    method Primary(asArgument: bool) returns (item: Option<Item>)
      requires Ready()
      modifies this
      ensures Gives(item, PowerShellGrammar.Primary(tokens, old(Now()), old(depth), asArgument))
      ensures item.Some? ==> depth == old(depth)
      decreases DEPTH_LIMIT - depth, 6, |tokens| - position
    {
      hide PowerShellGrammar.StaticMember, PowerShellGrammar.Parenthesized, Interpolated, VariableValue;
      var token := Peek(tokens, position);
      if token.kind == End {
        return None;
      }
      position := position + 1;
      match token.kind
      case String =>
        var text := Some(token.text);
        if token.parts != [] {
          text := Interpolate(token.parts, variables);
        }
        item := if text.None? then None else Some(Str(text.value));
      case Number => item := Some(Num(token.number, token.wide));
      case Variable => item := VariableValue(ToLower(token.text), variables);
      case Word => item := if asArgument then Some(Str(token.text)) else None;
      case Type => item := StaticMember(token.text);
      case Punct =>
        if token.text != OPEN_TEXT && token.text != LIST_TEXT {
          return None;
        }
        item := Parenthesized(token.text == LIST_TEXT);
      case _ => item := None;
    }

    method Parenthesized(asList: bool) returns (item: Option<Item>)
      requires Ready()
      modifies this
      ensures Gives(item, PowerShellGrammar.Parenthesized(tokens, old(Now()), old(depth), asList))
      ensures item.Some? ==> depth == old(depth)
      decreases DEPTH_LIMIT - depth, 5, |tokens| - position
    {
      hide PowerShellGrammar.Expression, PowerShellGrammar.Command, IsPunct;
      var value := Nothing;
      if Peek(tokens, position).kind == Word {
        var ran := Command();
        if !ran {
          return None;
        }
      } else if !IsPunct(tokens, position, CLOSE_TEXT) {
        var read := Expression(false);
        if read.None? {
          return None;
        }
        value := read.value;
      }
      var closed := Expect(CLOSE_TEXT);
      if !closed {
        return None;
      }
      item := Some(if asList then Listed(value) else value);
    }

    method CallArguments() returns (arguments: Option<seq<Item>>)
      requires Ready()
      modifies this
      ensures var meant := PowerShellGrammar.CallArguments(tokens, old(Now()), old(depth));
              if meant.None? then arguments.None?
              else arguments == Some(meant.value.0) && Now() == meant.value.1 && depth == old(depth)
      decreases DEPTH_LIMIT - depth, 2, |tokens| - position
    {
      hide PowerShellGrammar.Unary, IsPunct;
      var started := Expect(OPEN_TEXT);
      if !started {
        return None;
      }
      var read: seq<Item> := [];
      ghost var first := Now();
      while !IsPunct(tokens, position, CLOSE_TEXT)
        invariant Ready() && depth == old(depth)
        invariant CallRest(tokens, Now(), depth, read) == CallRest(tokens, first, depth, [])
        decreases |tokens| - position
      {
        var next := Unary(false);
        if next.None? {
          return None;
        }
        if !IsPunct(tokens, position, CLOSE_TEXT) {
          var comma := Expect(COMMA_TEXT);
          if !comma {
            return None;
          }
        }
        read := read + [next.value];
      }
      position := position + 1;
      arguments := Some(read);
    }

    method StaticMember(typeName: wstring) returns (item: Option<Item>)
      requires Ready()
      modifies this
      ensures Gives(item, PowerShellGrammar.StaticMember(tokens, old(Now()), old(depth), typeName))
      ensures item.Some? ==> depth == old(depth)
      decreases DEPTH_LIMIT - depth, 5, |tokens| - position
    {
      hide PowerShellGrammar.CallArguments, PowerShellGrammar.TakeMember, IsPunct, NativeSet, BaseKey, ToLower, W;
      var lower := ToLower(typeName);
      if !IsPunct(tokens, position, SCOPE_TEXT) {
        return None;
      }
      var member := TakeMember();
      if member.None? {
        return None;
      }
      if lower == REGISTRY_TYPE {
        var root := RootFrom(member.value, 0);
        return if root.None? then None else Some(OpenKey(root.value));
      }
      if lower == VALUE_KIND || lower == HIVE_TYPE || lower == VIEW_TYPE {
        return Some(Str(member.value));
      }
      if !((lower == KEY_TYPE && member.value == W("openbasekey"))
           || (lower == NATIVE_TYPE && member.value == SET_VALUE)) {
        return None;
      }
      var arguments := CallArguments();
      if arguments.None? {
        return None;
      }
      if lower != NATIVE_TYPE {
        return BaseKey(arguments.value);
      }
      var operation := NativeSet(arguments.value);
      if operation.None? {
        return None;
      }
      output := output + [operation.value];
      item := Some(Nothing);
    }

    method Postfix(value: Item) returns (item: Option<Item>)
      requires Ready()
      modifies this
      ensures Gives(item, PowerShellGrammar.Postfix(tokens, old(Now()), old(depth), value))
      ensures item.Some? ==> depth == old(depth)
      decreases DEPTH_LIMIT - depth, 5, |tokens| - position
    {
      hide PowerShellGrammar.CallArguments, PowerShellGrammar.TakeMember, IsPunct, KeyCall;
      var current := value;
      ghost var first := Now();
      while IsPunct(tokens, position, DOT_TEXT)
        invariant Ready() && depth == old(depth) && position >= first.position
        invariant PowerShellGrammar.Postfix(tokens, Now(), depth, current)
                  == PowerShellGrammar.Postfix(tokens, first, depth, value)
        decreases |tokens| - position
      {
        var member := TakeMember();
        if member.None? || !current.OpenKey? {
          return None;
        }
        var arguments := CallArguments();
        if arguments.None? {
          return None;
        }
        var called := KeyCall(current.path, member.value, arguments.value);
        if called.None? {
          return None;
        }
        output := output + called.value.1;
        current := called.value.0;
      }
      item := Some(current);
    }

    method Command() returns (ok: bool)
      requires Ready() && Peek(tokens, position).kind == Word
      modifies this
      ensures Goes(ok, PowerShellGrammar.Command(tokens, old(Now()), old(depth))) && (ok ==> depth == old(depth))
      decreases DEPTH_LIMIT - depth, 4, |tokens| - position
    {
      hide PowerShellGrammar.Arguments, PowerShellGrammar.Pipeline, IsIgnored, ToLower;
      var name := ToLower(Peek(tokens, position).text);
      position := position + 1;
      ok := Arguments();
      if !ok {
        return;
      }
      ok := Pipeline();
      ok := ok && IsIgnored(name);
    }

    method Arguments() returns (ok: bool)
      requires Ready()
      modifies this
      ensures Goes(ok, PowerShellGrammar.Arguments(tokens, old(Now()), old(depth))) && (ok ==> depth == old(depth))
      decreases DEPTH_LIMIT - depth, 3, |tokens| - position
    {
      hide PowerShellGrammar.Expression, PowerShellGrammar.Unary, EndsArguments, ParameterName, HasColon, IsSwitch, W;
      ghost var first := Now();
      while !EndsArguments(tokens, position)
        invariant Ready() && depth == old(depth) && position >= first.position
        invariant PowerShellGrammar.Arguments(tokens, Now(), depth) == PowerShellGrammar.Arguments(tokens, first, depth)
        decreases |tokens| - position
      {
        var token := Peek(tokens, position);
        var value: Option<Item> := Some(Nothing);
        if token.kind != Parameter {
          value := Expression(true);
        } else {
          position := position + 1;
          var name := ParameterName(token.text);
          if name == W("whatif") {
            return false;
          }
          if HasColon(token.text) {
            value := Unary(true);
          } else if !IsSwitch(name) {
            value := Expression(true);
          }
        }
        if value.None? {
          return false;
        }
      }
      ok := true;
    }

    /** One statement; `leave` when the script ends there. */
    method Statement() returns (ok: bool, leave: bool)
      requires Ready() && depth == 0
      modifies this
      ensures var meant := PowerShellGrammar.Statement(tokens, old(Now()));
              if meant.None? then !ok
              else ok && depth == 0 && (leave <==> meant.value.Leave?) && Now() == meant.value.state
    {
      hide PowerShellGrammar.Expression, PowerShellGrammar.Command, PowerShellGrammar.Pipeline, IsWord, IsPunct, W;
      hide ToLower;
      ok, leave := true, false;
      if IsWord(tokens, position, W("exit")) || IsWord(tokens, position, W("return")) {
        leave := true;
        return;
      }
      if IsWord(tokens, position, W("if")) {
        return false, false;
      }
      if IsAssignment(tokens, position) {
        AssignmentIsTokens(tokens, position);
        var name := ToLower(Peek(tokens, position).text);
        position := position + 2;
        var value := Nothing;
        if Peek(tokens, position).kind == Word {
          ok := Command();
        } else {
          var read := Expression(false);
          ok := read.Some?;
          value := if ok then read.value else value;
        }
        if ok && name != W("null") {
          variables := variables[name := value];
        }
        return;
      }
      if Peek(tokens, position).kind == Word {
        ok := Command();
        return;
      }
      var read := Expression(false);
      if read.None? {
        return false, false;
      }
      ok := Pipeline();
    }

    /** The whole script; the output is complete when it succeeds. */
    method Run() returns (ok: bool)
      requires Now() == START && depth == 0
      modifies this
      ensures ok <==> Meaning(tokens).Some?
      ensures ok ==> Meaning(tokens) == Some(output)
    {
      hide PowerShellGrammar.Statement;
      while Peek(tokens, position).kind != End
        invariant Ready() && depth == 0
        invariant RunFrom(tokens, Now()) == Meaning(tokens)
        decreases |tokens| - position
      {
        if Peek(tokens, position).kind == Newline {
          position := position + 1;
          continue;
        }
        var done, leave := Statement();
        if !done || leave {
          return done;
        }
        if Peek(tokens, position).kind != Newline && Peek(tokens, position).kind != End {
          return false;
        }
      }
      ok := true;
    }
  }

  lemma CommaIsToken(ts: seq<Token>, i: nat)
    requires IsPunct(ts, i, COMMA_TEXT)
    ensures i < |ts|
  {}

  lemma WordIsToken(ts: seq<Token>, i: nat, text: wstring)
    requires IsWord(ts, i, text)
    ensures i < |ts|
  {}

  lemma AssignmentIsTokens(ts: seq<Token>, i: nat)
    requires IsAssignment(ts, i)
    ensures i + 1 < |ts|
  {}

  /** The operations of a script, None when it is refused. */
  function PowerShellOperations(content: wstring): Option<seq<Operation>> {
    var tokens := Tokens(content);
    if tokens.None? then None else Meaning(tokens.value)
  }

  method ParsePowerShell(content: wstring) returns (output: Option<seq<Operation>>)
    ensures output == PowerShellOperations(content)
  {
    hide Tokens, Meaning;
    var tokens := Tokenize(content);
    if tokens.None? {
      return None;
    }
    var interpreter := new Interpreter(tokens.value);
    var ok := interpreter.Run();
    output := if ok then Some(interpreter.output) else None;
  }
}
