/** The batch script reader: reg.exe commands, variables and scopes become operations. */
module BatchReader {
  import opened Text
  import opened ValueFormat
  import opened Operations
  import opened KeyPaths
  import opened RegExe
  import opened BatchSyntax

  // ----- one reg command

  const ADD := W("add")
  const DELETE := W("delete")
  const QUERY := W("query")

  /** The data of an add command: its type defaults to REG_SZ. */
  function AddedData(options: Options): Option<(uint32, seq<byte>)> {
    var kind := if options.typeText == [] then Some(REG_SZ) else ParseType(options.typeText);
    if kind.None? then None
    else
      var data := BuildData(kind.value, options.data, options.separator);
      if data.None? then None else Some((kind.value, data.value))
  }

  /** The operations of `reg add` and `reg delete`; other verbs, the 32-bit view and /va are refused. */
  function ApplyReg(args: seq<wstring>): Option<seq<Operation>> {
    var add := args != [] && EqualsInsensitive(args[0], ADD);
    if !add && (args == [] || !EqualsInsensitive(args[0], DELETE)) then None
    else
      var parsed := ParseOptions(args, 1, if add then Add else Other);
      if parsed.None? || |parsed.value.1| != 1 then None
      else
        var options, path := parsed.value.0, NormalizeKeyPath(parsed.value.1[0]);
        if path.None? || options.view == Wow32 || options.allValues then None
        else
          var name := if options.defaultValue then [] else options.valueName;
          if !add then Some([if options.hasValue then RemoveValue(path.value, name) else RemoveKey(path.value)])
          else
            var data := AddedData(options);
            if data.None? then None
            else
              var operation := SetValue(path.value, RegistryValue(name, data.value.0, data.value.1));
              Some(if options.hasValue then [operation] else [Key(path.value), operation])
  }

  method ReadRegCommand(args: seq<wstring>) returns (operations: Option<seq<Operation>>)
    ensures operations == ApplyReg(args)
  {
    hide ParseOptions, NormalizeKeyPath, AddedData;
    var add := args != [] && EqualsInsensitive(args[0], ADD);
    if !add && (args == [] || !EqualsInsensitive(args[0], DELETE)) {
      return None;
    }
    var parsed := ReadOptions(args, 1, if add then Add else Other);
    if parsed.None? {
      return None;
    }
    var (options, positional) := parsed.value;
    if |positional| != 1 {
      return None;
    }
    var path := Normalize(positional[0]);
    if path.None? || options.view == Wow32 || options.allValues {
      return None;
    }
    var name := if options.defaultValue then [] else options.valueName;
    if !add {
      return Some([if options.hasValue then RemoveValue(path.value, name) else RemoveKey(path.value)]);
    }
    var data := AddedData(options);
    if data.None? {
      return None;
    }
    var output: seq<Operation> := [];
    if !options.hasValue {
      output := output + [Key(path.value)];
    }
    var operation := SetValue(path.value, RegistryValue(name, data.value.0, data.value.1));
    output := output + [operation];
    assert output == if options.hasValue then [operation] else [Key(path.value), operation];
    operations := Some(output);
  }

  function RegArguments(command: Command): seq<wstring> {
    var args := Arguments(command.text);
    if args == [] then [] else args[1..]
  }

  const OR_ELSE := [BAR, BAR]
  const AND_THEN := [AMP, AMP]

  /** The three commands that create a key without changing its values. */
  predicate IsEnsureKey(commands: seq<Command>, first: nat) {
    && |commands| == first + 3
    && commands[first + 1].separator == OR_ELSE && commands[first + 2].separator == AND_THEN
    && (var query, add, remove :=
      RegArguments(commands[first]), RegArguments(commands[first + 1]), RegArguments(commands[first + 2]);
        && |query| == 2 && |add| == 3 && |remove| == 4
        && EqualsInsensitive(add[0], ADD) && add[1] == query[1] && IsSwitch(add[2], W("f"))
        && EqualsInsensitive(remove[0], DELETE) && remove[1] == query[1]
        && IsSwitch(remove[2], W("ve")) && IsSwitch(remove[3], W("f")))
  }

  // ----- commands

  /** Variables, whether `!` expands, the scopes around, and the operations so far. */
  datatype Env = Env(variables: Variables, delayed: bool, scopes: seq<(Variables, bool)>, output: seq<Operation>)

  datatype Outcome = Failed | Exited(output: seq<Operation>) | Running(env: Env, stop: bool)

  const FRESH := Env(map[], false, [], [])

  /** Leading `@` and blanks are no part of a command. */
  function StripAt(text: wstring): (r: wstring)
    ensures |r| <= |text|
  {
    if text != [] && (text[0] == AT || IsBlank(text[0])) then StripAt(text[1..]) else text
  }

  function FirstBlank(text: wstring, at: nat): (r: int)
    ensures r == -1 || at <= r < |text|
    decreases |text| - at
  {
    if at >= |text| then -1 else if IsBlank(text[at]) then at else FirstBlank(text, at + 1)
  }

  function LastQuote(text: wstring): (r: int)
    ensures -1 <= r < |text|
  {
    if text == [] then -1 else if text[|text| - 1] == DQUOTE then |text| - 1 else LastQuote(text[..|text| - 1])
  }

  predicate ContainsFrom(text: wstring, needle: wstring, at: nat)
    decreases |text| - at
  {
    at + |needle| <= |text| && (EqualsInsensitive(text[at..at + |needle|], needle)
                                || ContainsFrom(text, needle, at + 1))
  }

  predicate ContainsInsensitive(text: wstring, needle: wstring) {
    ContainsFrom(text, needle, 0)
  }

  /** `set name=value`, with or without quotes around it. */
  function SetVariable(rest: wstring, env: Env): Outcome {
    var trimmed := TrimWhitespace(rest);
    if trimmed != [] && trimmed[0] == SLASH then Failed
    else
      var last := LastQuote(trimmed);
      var assignment :=
        if trimmed != [] && trimmed[0] == DQUOTE then trimmed[1..if last >= 1 then last else |trimmed|] else trimmed;
      var equals := Find(assignment, EQUALS, 0);
      if equals > 0 then
        Running(env.(variables := env.variables[ToLower(assignment[..equals]) := assignment[equals + 1..]]), false)
      else Running(env, false)
  }

  function EnterScope(rest: wstring, env: Env): Env {
    env.(scopes := env.scopes + [(env.variables, env.delayed)],
         delayed := ContainsInsensitive(rest, W("enabledelayedexpansion"))
                    || (env.delayed && !ContainsInsensitive(rest, W("disabledelayedexpansion"))))
  }

  function LeaveScope(env: Env): Env {
    if env.scopes == [] then env
    else
      var (variables, delayed) := env.scopes[|env.scopes| - 1];
      env.(variables := variables, delayed := delayed, scopes := env.scopes[..|env.scopes| - 1])
  }

  const REG := W("reg")

  predicate IsRegVerb(verb: wstring) {
    verb == REG || verb == W("reg.exe") || EndsWithInsensitive(verb, W("\\reg.exe"))
  }

  /** Commands that change no registry. */
  predicate IsHarmless(verb: wstring, rest: wstring) {
    || StartsWithInsensitive(verb, W("echo")) || verb == W("title") || verb == W("cls") || verb == W("color")
    || verb == W("pause") || verb == W("chcp") || verb == W("timeout")
    || (verb == W("net") && EqualsInsensitive(TrimWhitespace(rest), W("session"))) || verb == []
  }

  function RunReg(commands: seq<Command>, at: nat, rest: wstring, env: Env): Outcome {
    var args := Arguments(rest);
    if args != [] && EqualsInsensitive(args[0], QUERY) then
      var path := NormalizeKeyPath(if |args| > 1 then args[1] else []);
      if !IsEnsureKey(commands, at) || path.None? then Failed
      else Running(env.(output := env.output + [Key(path.value)]), true)
    else
      var applied := ApplyReg(args);
      if applied.None? then Failed else Running(env.(output := env.output + applied.value), false)
  }

  function CommandText(command: Command): wstring {
    StripAt(TrimWhitespace(command.text))
  }

  function VerbOf(command: wstring): wstring {
    var space := FirstBlank(command, 0);
    ToLower(if space == -1 then command else command[..space])
  }

  function RestOf(command: wstring): wstring {
    var space := FirstBlank(command, 0);
    if space == -1 then [] else command[space + 1..]
  }

  function RunCommand(commands: seq<Command>, at: nat, env: Env): Outcome
    requires at < |commands|
  {
    var command := CommandText(commands[at]);
    var verb, rest := VerbOf(command), RestOf(command);
    if env.delayed && (IsRegVerb(verb) || verb == W("set")) && BANG in command then Failed
    else if IsRegVerb(verb) then RunReg(commands, at, rest, env)
    else if verb == W("set") then SetVariable(rest, env)
    else if verb == W("setlocal") then Running(EnterScope(rest, env), false)
    else if verb == W("endlocal") then Running(LeaveScope(env), false)
    else if verb == W("exit") then Exited(env.output)
    else if IsHarmless(verb, rest) then Running(env, false)
    else Failed
  }

  /** The commands of a line up to one that only runs when another fails. */
  function RunCommands(commands: seq<Command>, at: nat, env: Env): Outcome
    decreases |commands| - at
  {
    if at >= |commands| || commands[at].separator == OR_ELSE then Running(env, true)
    else
      var outcome := RunCommand(commands, at, env);
      if !outcome.Running? || outcome.stop then outcome else RunCommands(commands, at + 1, outcome.env)
  }

  predicate IsWord(text: wstring, word: wstring) {
    StartsWithInsensitive(text, word) && (|text| == |word| || IsBlank(text[|word|]))
  }

  /** Labels and remarks are skipped. */
  predicate IsSkipped(text: wstring) {
    text == [] || text[0] == COLON || IsWord(text, W("rem"))
  }

  function RunText(text: wstring, env: Env): Outcome {
    if IsSkipped(text) then Running(env, true)
    else
      var expanded := Expanded(text, env.variables);
      if expanded.None? then Failed
      else
        var commands := Commands(expanded.value);
        if commands.None? then Failed else RunCommands(commands.value, 0, env)
  }

  // ----- lines

  function LinesFrom(content: wstring, start: nat): seq<wstring>
    requires start <= |content|
    decreases |content| - start
  {
    var end := Find(content, LF, start);
    if end == -1 then [StripCr(content[start..])] else [StripCr(content[start..end])] + LinesFrom(content, end + 1)
  }

  /** A line and those that carets join to it, and the index behind them. */
  function JoinedLine(lines: seq<wstring>, index: nat, line: wstring): (r: (wstring, nat))
    ensures index < r.1
    decreases |lines| - index
  {
    if line != [] && line[|line| - 1] == CARET && index + 1 < |lines| then
    JoinedLine(lines, index + 1, line[..|line| - 1] + lines[index + 1])
    else (line, index + 1)
  }

  function RunLine(line: wstring, env: Env): Outcome {
    RunText(StripAt(TrimWhitespace(line)), env)
  }

  function RunLines(lines: seq<wstring>, index: nat, env: Env): Option<seq<Operation>>
    decreases |lines| - index
  {
    if index >= |lines| then Some(env.output)
    else
      var (line, next) := JoinedLine(lines, index, lines[index]);
      match RunLine(line, env)
      case Failed => None
      case Exited(output) => Some(output)
      case Running(after, _) => RunLines(lines, next, after)
  }

  /** The operations of a batch script, or None when it does something else. */
  function BatchOperations(content: wstring): Option<seq<Operation>> {
    RunLines(LinesFrom(content, 0), 0, FRESH)
  }

  // ----- the loops

  lemma UnfoldLines(content: wstring, start: nat)
    requires start <= |content|
    ensures var end := Find(content, LF, start);
            LinesFrom(content, start) ==
              if end == -1 then [StripCr(content[start..])]
              else [StripCr(content[start..end])] + LinesFrom(content, end + 1)
  {}

  method SplitLines(content: wstring) returns (lines: seq<wstring>)
    ensures lines == LinesFrom(content, 0)
  {
    hide Find, StripCr, LinesFrom;
    lines := [];
    var start := 0;
    while true
      invariant start <= |content|
      invariant lines + LinesFrom(content, start) == LinesFrom(content, 0)
      decreases |content| - start
    {
      UnfoldLines(content, start);
      var end := Find(content, LF, start);
      var line := StripCr(if end == -1 then content[start..] else content[start..end]);
      if end == -1 {
        lines := lines + [line];
        return;
      }
      ConcatAssoc(lines, [line], LinesFrom(content, end + 1));
      lines := lines + [line];
      start := end + 1;
    }
  }

  method RunRegCommand(commands: seq<Command>, at: nat, rest: wstring, env: Env) returns (outcome: Outcome)
    ensures outcome == RunReg(commands, at, rest, env)
  {
    hide IsEnsureKey, ApplyReg, NormalizeKeyPath, Arguments;
    var args := SplitArguments(rest);
    if args != [] && EqualsInsensitive(args[0], QUERY) {
      var path := Normalize(if |args| > 1 then args[1] else []);
      if !IsEnsureKey(commands, at) || path.None? {
        return Failed;
      }
      return Running(env.(output := env.output + [Key(path.value)]), true);
    }
    var applied := ReadRegCommand(args);
    if applied.None? {
      return Failed;
    }
    return Running(env.(output := env.output + applied.value), false);
  }

  method RunOneCommand(commands: seq<Command>, at: nat, env: Env) returns (outcome: Outcome)
    requires at < |commands|
    ensures outcome == RunCommand(commands, at, env)
  {
    hide RunReg, SetVariable, EnterScope, LeaveScope, IsHarmless, IsRegVerb, CommandText, VerbOf, RestOf;
    var command := CommandText(commands[at]);
    var verb, rest := VerbOf(command), RestOf(command);
    if env.delayed && (IsRegVerb(verb) || verb == W("set")) && BANG in command {
      return Failed;
    }
    if IsRegVerb(verb) {
      outcome := RunRegCommand(commands, at, rest, env);
    } else {
      outcome :=
        if verb == W("set") then SetVariable(rest, env)
        else if verb == W("setlocal") then Running(EnterScope(rest, env), false)
        else if verb == W("endlocal") then Running(LeaveScope(env), false)
        else if verb == W("exit") then Exited(env.output)
        else if IsHarmless(verb, rest) then Running(env, false)
        else Failed;
    }
  }

  method RunAll(commands: seq<Command>, start: Env) returns (outcome: Outcome)
    ensures outcome == RunCommands(commands, 0, start)
  {
    hide RunCommand;
    var env := start;
    for at := 0 to |commands|
      invariant RunCommands(commands, at, env) == RunCommands(commands, 0, start)
    {
      if commands[at].separator == OR_ELSE {
        break;
      }
      outcome := RunOneCommand(commands, at, env);
      if !outcome.Running? || outcome.stop {
        return;
      }
      env := outcome.env;
    }
    return Running(env, true);
  }

  method RunOneLine(line: wstring, env: Env) returns (outcome: Outcome)
    ensures outcome == RunLine(line, env)
  {
    hide IsSkipped, Expanded, Commands, RunCommands;
    var text := StripAt(TrimWhitespace(line));
    if IsSkipped(text) {
      return Running(env, true);
    }
    var expanded := ExpandPercents(text, env.variables);
    if expanded.None? {
      return Failed;
    }
    var commands := SplitCommands(expanded.value);
    if commands.None? {
      return Failed;
    }
    outcome := RunAll(commands.value, env);
  }

  method ParseBatch(content: wstring) returns (operations: Option<seq<Operation>>)
    ensures operations == BatchOperations(content)
  {
    hide RunLine, LinesFrom;
    var lines := SplitLines(content);
    var env := FRESH;
    var index := 0;
    while index < |lines|
      invariant RunLines(lines, index, env) == BatchOperations(content)
      decreases |lines| - index
    {
      var line := lines[index];
      ghost var first: nat := index;
      while line != [] && line[|line| - 1] == CARET && index + 1 < |lines|
        invariant first <= index < |lines| && JoinedLine(lines, index, line) == JoinedLine(lines, first, lines[first])
        decreases |lines| - index
      {
        line := line[..|line| - 1];
        index := index + 1;
        line := line + lines[index];
      }
      index := index + 1;
      var outcome := RunOneLine(line, env);
      match outcome {
        case Failed => return None;
        case Exited(output) => return Some(output);
        case Running(after, _) => env := after;
      }
    }
    operations := Some(env.output);
  }
}
