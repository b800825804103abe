/** The layers a batch line goes through: quoting, percent expansion, command splitting and argument splitting. */
module BatchSyntax {
  import opened Text
  import opened ValueFormat

  predicate IsBlank(c: wchar) {
    c == SPACE || c == TAB
  }

  function Backslashes(n: nat): (r: wstring)
    ensures |r| == n && forall i :: 0 <= i < n ==> r[i] == BACKSLASH
  {
    seq(n, _ => BACKSLASH)
  }

  // ----- quoting

  /** A unit inside quotes: quotes double, and percents too where a batch line will halve them. */
  function Doubled(c: wchar, percents: bool): wstring {
    if c == DQUOTE || (percents && c == PERCENT) then [c, c] else [c]
  }

  /** The rest of a quoted text from `index` on, with `slashes` backslashes pending, and its closing quote. */
  function QuotedRest(text: wstring, index: nat, slashes: nat, percents: bool): wstring
    requires index <= |text|
    decreases |text| - index
  {
    if index == |text| then Backslashes(2 * slashes) + [DQUOTE]
    else if text[index] == BACKSLASH then QuotedRest(text, index + 1, slashes + 1, percents)
    else
      Backslashes(if text[index] == DQUOTE then 2 * slashes
                  else slashes) + (Doubled(text[index], percents) + QuotedRest(text, index + 1, 0, percents))
  }

  /** A text as reg.exe reads it. */
  function Quoted(text: wstring, percents: bool): wstring {
    [DQUOTE] + QuotedRest(text, 0, 0, percents)
  }

  method Quote(text: wstring) returns (output: wstring)
    ensures output == Quoted(text, true)
  {
    hide Backslashes;
    output := [DQUOTE];
    var slashes := 0;
    for index := 0 to |text|
      invariant slashes >= 0 && output + QuotedRest(text, index, slashes, true) == Quoted(text, true)
    {
      var character := text[index];
      if character == BACKSLASH {
        slashes := slashes + 1;
        continue;
      }
      var run := Backslashes(if character == DQUOTE then slashes * 2 else slashes);
      Appended(output, run, character, Doubled(character, true), QuotedRest(text, index + 1, 0, true));
      output := output + run;
      slashes := 0;
      if character == DQUOTE || character == PERCENT {
        output := output + [character];
      }
      output := output + [character];
    }
    ConcatAssoc(output, Backslashes(slashes * 2), [DQUOTE]);
    output := output + Backslashes(slashes * 2);
    output := output + [DQUOTE];
  }

  lemma Appended(output: wstring, run: wstring, c: wchar, units: wstring, rest: wstring)
    ensures output + (run + (units + rest)) == output + run + units + rest
    ensures output + run + [c] + [c] == output + run + [c, c]
  {}

  // ----- percent expansion

  type Variables = map<wstring, wstring>

  /** Expands `%name%` and `%%`; batch arguments and unknown variables can't be resolved. */
  function ExpandFrom(line: wstring, index: nat, variables: Variables, output: wstring): Option<wstring>
    decreases |line| - index
  {
    if index >= |line| then Some(output)
    else if line[index] != PERCENT then ExpandFrom(line, index + 1, variables, output + [line[index]])
    else
      var more := index + 1 < |line|;
      if more && line[index + 1] == PERCENT then ExpandFrom(line, index + 2, variables, output + [PERCENT])
      else if more && (IsDigit(line[index + 1]) || line[index + 1] == TILDE || line[index + 1] == STAR) then None
      else
        var close := Find(line, PERCENT, index + 1);
        if close == -1 then ExpandFrom(line, index + 1, variables, output)
        else
          var name := ToLower(line[index + 1..close]);
          if name !in variables then None else ExpandFrom(line, close + 1, variables, output + variables[name])
  }

  function Expanded(line: wstring, variables: Variables): Option<wstring> {
    ExpandFrom(line, 0, variables, [])
  }

  method ExpandPercents(line: wstring, variables: Variables) returns (expanded: Option<wstring>)
    ensures expanded == Expanded(line, variables)
  {
    hide Find;
    var output: wstring := [];
    var index := 0;
    while index < |line|
      invariant ExpandFrom(line, index, variables, output) == Expanded(line, variables)
      decreases |line| - index
    {
      if line[index] != PERCENT {
        output := output + [line[index]];
      } else if index + 1 < |line| && line[index + 1] == PERCENT {
        output := output + [PERCENT];
        index := index + 1;
      } else if index + 1 < |line|
        && (IsDigit(line[index + 1]) || line[index + 1] == TILDE || line[index + 1] == STAR) {
        return None;
      } else {
        var close := Find(line, PERCENT, index + 1);
        if close != -1 {
          var name := ToLower(line[index + 1..close]);
          if name !in variables {
            return None;
          }
          output := output + variables[name];
          index := close;
        }
      }
      index := index + 1;
    }
    expanded := Some(output);
  }

  // ----- command splitting

  /** A command and the separator in front of it. */
  datatype Command = Command(text: wstring, separator: wstring)

  const REDIRECT_STOPS := W(" &|<>()")

  function SpaceEnd(line: wstring, index: nat): (r: nat)
    ensures index <= r && (index <= |line| ==> r <= |line|)
    decreases |line| - index
  {
    if index < |line| && line[index] == SPACE then SpaceEnd(line, index + 1) else index
  }

  function TargetEnd(line: wstring, index: nat): (r: nat)
    ensures index <= r && (index <= |line| ==> r <= |line|)
    decreases |line| - index
  {
    if index < |line| && line[index] !in REDIRECT_STOPS then TargetEnd(line, index + 1) else index
  }

  /** The position behind a redirection that starts at `index`. */
  function RedirectEnd(line: wstring, index: nat): (r: nat)
    ensures index < r
  {
    var next := if index + 1 < |line| && line[index + 1] == GREATER then index + 2 else index + 1;
    if next < |line| && line[next] == AMP then next + 2 else TargetEnd(line, SpaceEnd(line, next))
  }

  /** A handle number before a redirection belongs to the redirection. */
  function WithoutHandle(text: wstring): wstring {
    if text != [] && IsDigit(text[|text| - 1]) && (|text| == 1 || text[|text| - 2] == SPACE) then text[..|text| - 1]
    else text
  }

  function Pushed(command: Command, c: wchar): Command {
    command.(text := command.text + [c])
  }

  /** Splits at `&`, `&&` and `||` outside quotes and drops redirections, carets and parentheses. */
  function CommandsFrom(line: wstring, index: nat, quoted: bool, done: seq<Command>,
      last: Command): Option<seq<Command>>
    decreases |line| - index
  {
    if index >= |line| then Some(done + [last])
    else
      var c := line[index];
      if c == DQUOTE || quoted then CommandsFrom(line, index + 1, quoted != (c == DQUOTE), done, Pushed(last, c))
      else if c == CARET then
        if index + 1 < |line| then CommandsFrom(line, index + 2, false, done, Pushed(last, line[index + 1]))
        else CommandsFrom(line, index + 1, false, done, last)
      else if c == AMP || c == BAR then
        var double := index + 1 < |line| && line[index + 1] == c;
        if c == BAR && !double then None
        else
          CommandsFrom(line, index + if double then 2
                                     else 1, false, done + [last], Command([], if double then [c, c] else [c]))
      else if c == LPAREN || c == RPAREN then CommandsFrom(line, index + 1, false, done, last)
      else if c == GREATER || c == LESS then
        CommandsFrom(line, RedirectEnd(line, index), false, done, last.(text := WithoutHandle(last.text)))
      else CommandsFrom(line, index + 1, false, done, Pushed(last, c))
  }

  function Commands(line: wstring): Option<seq<Command>> {
    CommandsFrom(line, 0, false, [], Command([], []))
  }

  method SkipRedirect(line: wstring, index: nat) returns (next: nat)
    ensures next == RedirectEnd(line, index)
  {
    next := index + 1;
    if next < |line| && line[next] == GREATER {
      next := next + 1;
    }
    if next < |line| && line[next] == AMP {
      next := next + 2;
      return;
    }
    ghost var from: nat := next;
    while next < |line| && line[next] == SPACE
      invariant SpaceEnd(line, next) == SpaceEnd(line, from)
      decreases |line| - next
    {
      next := next + 1;
    }
    ghost var target: nat := next;
    while next < |line| && line[next] !in REDIRECT_STOPS
      invariant TargetEnd(line, next) == TargetEnd(line, target)
      decreases |line| - next
    {
      next := next + 1;
    }
  }

  method SplitCommands(line: wstring) returns (commands: Option<seq<Command>>)
    ensures commands == Commands(line)
  {
    hide RedirectEnd;
    var done: seq<Command> := [];
    var last := Command([], []);
    var quoted := false;
    var index := 0;
    while index < |line|
      invariant CommandsFrom(line, index, quoted, done, last) == Commands(line)
      decreases |line| - index
    {
      var character := line[index];
      if character == DQUOTE || quoted {
        quoted := quoted != (character == DQUOTE);
        last := Pushed(last, character);
        index := index + 1;
      } else if character == CARET {
        if index + 1 < |line| {
          index := index + 1;
          last := Pushed(last, line[index]);
        }
        index := index + 1;
      } else if character == AMP || character == BAR {
        var separator := [character];
        if index + 1 < |line| && line[index + 1] == character {
          index := index + 1;
          separator := [character, character];
        }
        if separator == [BAR] {
          return None;
        }
        done, last := done + [last], Command([], separator);
        index := index + 1;
      } else if character == LPAREN || character == RPAREN {
        index := index + 1;
      } else if character == GREATER || character == LESS {
        last := last.(text := WithoutHandle(last.text));
        index := SkipRedirect(line, index);
      } else {
        last := Pushed(last, character);
        index := index + 1;
      }
    }
    commands := Some(done + [last]);
  }

  // ----- argument splitting

  function SlashEnd(text: wstring, index: nat): (r: nat)
    requires index <= |text|
    ensures index <= r <= |text| && (forall i :: index <= i < r ==> text[i] == BACKSLASH)
            && (r < |text| ==> text[r] != BACKSLASH)
    decreases |text| - index
  {
    if index < |text| && text[index] == BACKSLASH then SlashEnd(text, index + 1) else index
  }

  function BlankEnd(text: wstring, index: nat): (r: nat)
    requires index <= |text|
    ensures index <= r <= |text| && (r < |text| ==> !IsBlank(text[r]))
    decreases |text| - index
  {
    if index < |text| && IsBlank(text[index]) then BlankEnd(text, index + 1) else index
  }

  /** One argument from `index` on, and where it ends: backslashes halve before a quote, an odd one escapes it,
      and two quotes inside quotes are one. */
  function ArgumentFrom(text: wstring, index: nat, quoted: bool, arg: wstring): (r: (wstring, nat))
    requires index <= |text|
    ensures index <= r.1 <= |text| && (index < |text| && !IsBlank(text[index]) ==> index < r.1)
    decreases |text| - index
  {
    if index == |text| || (!quoted && IsBlank(text[index])) then (arg, index)
    else
      var end := SlashEnd(text, index);
      var slashes := end - index;
      if end < |text| && text[end] == DQUOTE then
        if slashes % 2 != 0 then ArgumentFrom(text, end + 1, quoted, arg + Backslashes(slashes / 2) + [DQUOTE])
        else if quoted && end + 1 < |text| && text[end + 1] == DQUOTE then
          ArgumentFrom(text, end + 2, quoted, arg + Backslashes(slashes / 2) + [DQUOTE])
        else ArgumentFrom(text, end + 1, !quoted, arg + Backslashes(slashes / 2))
      else if end < |text| && (quoted || !IsBlank(text[end])) then
        ArgumentFrom(text, end + 1, quoted, arg + Backslashes(slashes) + [text[end]])
      else if end == index then (arg, index)
      else ArgumentFrom(text, end, quoted, arg + Backslashes(slashes))
  }

  function ArgumentsFrom(text: wstring, index: nat): seq<wstring>
    requires index <= |text|
    decreases |text| - index
  {
    var start := BlankEnd(text, index);
    if start == |text| then []
    else
      var (arg, next) := ArgumentFrom(text, start, false, []);
      [arg] + ArgumentsFrom(text, next)
  }

  /** The arguments of a command, split as the C runtime does. */
  function Arguments(text: wstring): seq<wstring> {
    ArgumentsFrom(text, 0)
  }

  method SkipSlashes(text: wstring, start: nat) returns (index: nat)
    requires start <= |text|
    ensures index == SlashEnd(text, start)
  {
    index := start;
    while index < |text| && text[index] == BACKSLASH
      invariant start <= index <= |text| && SlashEnd(text, index) == SlashEnd(text, start)
      decreases |text| - index
    {
      index := index + 1;
    }
  }

  /** One round of the loop. */
  lemma UnfoldArgument(text: wstring, index: nat, quoted: bool, arg: wstring)
    requires index < |text| && (quoted || !IsBlank(text[index]))
    ensures var end := SlashEnd(text, index);
            var slashes: nat := end - index;
            var half, all := arg + Backslashes(slashes / 2), arg + Backslashes(slashes);
            ArgumentFrom(text, index, quoted, arg) ==
              if end < |text| && text[end] == DQUOTE then
                if slashes % 2 != 0 then ArgumentFrom(text, end + 1, quoted, half + [DQUOTE])
                else if quoted && end + 1 < |text|
                  && text[end + 1] == DQUOTE then ArgumentFrom(text, end + 2, quoted, half + [DQUOTE])
                else ArgumentFrom(text, end + 1, !quoted, half)
              else if end < |text| && (quoted || !IsBlank(text[end])) then
                ArgumentFrom(text, end + 1, quoted, all + [text[end]])
              else ArgumentFrom(text, end, quoted, all)
  {}

  method ReadArgument(text: wstring, start: nat) returns (arg: wstring, index: nat)
    requires start <= |text|
    ensures (arg, index) == ArgumentFrom(text, start, false, [])
  {
    hide Backslashes, SlashEnd, ArgumentFrom;
    arg, index := [], start;
    var quoted := false;
    while index < |text| && (quoted || !IsBlank(text[index]))
      invariant index <= |text|
      invariant ArgumentFrom(text, index, quoted, arg) == ArgumentFrom(text, start, false, [])
      decreases |text| - index
    {
      UnfoldArgument(text, index, quoted, arg);
      var from := index;
      index := SkipSlashes(text, index);
      var slashes: nat := index - from;
      if index < |text| && text[index] == DQUOTE {
        arg := arg + Backslashes(slashes / 2);
        if slashes % 2 != 0 || (quoted && index + 1 < |text| && text[index + 1] == DQUOTE) {
          arg := arg + [DQUOTE];
          index := index + if slashes % 2 != 0 then 1 else 2;
          continue;
        }
        quoted := !quoted;
        index := index + 1;
        continue;
      }
      arg := arg + Backslashes(slashes);
      if index < |text| && (quoted || !IsBlank(text[index])) {
        arg := arg + [text[index]];
        index := index + 1;
      }
    }
    EndOfArgument(text, index, quoted, arg);
  }

  lemma EndOfArgument(text: wstring, index: nat, quoted: bool, arg: wstring)
    requires index == |text| || (index < |text| && !quoted && IsBlank(text[index]))
    ensures ArgumentFrom(text, index, quoted, arg) == (arg, index)
  {}

  method SplitArguments(text: wstring) returns (args: seq<wstring>)
    ensures args == Arguments(text)
  {
    hide ArgumentFrom;
    args := [];
    var index := 0;
    while true
      invariant index <= |text|
      invariant args + ArgumentsFrom(text, index) == Arguments(text)
      decreases |text| - index
    {
      ghost var from: nat := index;
      while index < |text| && IsBlank(text[index])
        invariant from <= index <= |text| && BlankEnd(text, index) == BlankEnd(text, from)
        decreases |text| - index
      {
        index := index + 1;
      }
      if index >= |text| {
        return;
      }
      var arg, next := ReadArgument(text, index);
      ConcatAssoc(args, [arg], ArgumentsFrom(text, next));
      args := args + [arg];
      index := next;
    }
  }
}
