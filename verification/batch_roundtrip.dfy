/** A rendered batch script is read back as the operations it holds, and does what the kept operations do. */
module BatchRoundTrip {
  import opened Text
  import opened ValueFormat
  import opened Operations
  import opened KeyPaths
  import opened MultiStrings
  import opened RegExe
  import opened BatchSyntax
  import opened BatchLayers
  import opened BatchPieces
  import opened BatchReader
  import opened BatchWriter
  import opened BatchLines
  import opened BatchRuns
  import opened BatchKeyLine

  // ----- texts of lines

  function Flat(lines: seq<wstring>): wstring {
    if lines == [] then [] else lines[0] + [CR, LF] + Flat(lines[1..])
  }

  predicate AreLines(lines: seq<wstring>) {
    forall i :: 0 <= i < |lines| ==> LF !in lines[i]
  }

  lemma {:induction false} LinesOfFlat(content: wstring, start: nat, lines: seq<wstring>)
    requires AreLines(lines) && start <= |content| && content[start..] == Flat(lines)
    ensures LinesFrom(content, start) == lines + [[]]
    decreases |lines|
  {
    hide LinesFrom;
    if lines == [] {
      EndOfLines(content, start);
    } else {
      var line := lines[0];
      assert HasAt(content, start, line + [CR, LF] + Flat(lines[1..]));
      HasAtSplit(content, start, line + [CR, LF], Flat(lines[1..]));
      FirstLine(content, start, line);
      var next := start + |line| + 2;
      assert content[next..] == Flat(lines[1..]) by { TailFollows(content, start, line + [CR, LF], Flat(lines[1..])); }
      LinesOfFlat(content, next, lines[1..]);
      assert lines + [[]] == [line] + (lines[1..] + [[]]);
    }
  }

  lemma TailFollows(content: wstring, start: nat, a: wstring, b: wstring)
    requires start <= |content| && content[start..] == a + b
    ensures start + |a| <= |content| && content[start + |a|..] == b
  {
    assert content[start + |a|..] == content[start..][|a|..];
  }

  lemma EndOfLines(content: wstring, start: nat)
    requires start <= |content| && content[start..] == []
    ensures LinesFrom(content, start) == [[]]
  {
    assert Find(content, LF, start) == -1;
  }

  lemma FirstLine(content: wstring, start: nat, line: wstring)
    requires LF !in line && HasAt(content, start, line + [CR, LF])
    ensures start + |line| + 2 <= |content|
    ensures LinesFrom(content, start) == [line] + LinesFrom(content, start + |line| + 2)
  {
    HasAtSplit(content, start, line, [CR, LF]);
    HasAtUnit(content, start + |line|, [CR, LF]);
    HasAtUnit(content, start + |line| + 1, [CR, LF][1..]);
    assert forall k :: start <= k < start + |line| ==> content[k] == line[k - start] by {
      forall k | start <= k < start + |line| ensures content[k] == line[k - start] {
        assert content[start..start + |line|][k - start] == content[k];
      }
    }
    var end := Find(content, LF, start);
    assert end == start + |line| + 1;
    assert content[start..end] == line + [CR];
    assert (line + [CR])[..|line|] == line;
    UnfoldLines(content, start);
  }

  lemma {:induction false} FlatConcat(a: seq<wstring>, b: seq<wstring>)
    ensures Flat(a + b) == Flat(a) + Flat(b)
    decreases |a|
  {
    if a == [] {
      assert a + b == b;
    } else {
      assert (a + b)[1..] == a[1..] + b;
      FlatConcat(a[1..], b);
      ConcatAssoc(a[0] + [CR, LF], Flat(a[1..]), Flat(b));
    }
  }

  lemma FlatOne(line: wstring)
    ensures Flat([line]) == line + [CR, LF]
  {
    assert [line][1..] == [];
    assert line + [CR, LF] + [] == line + [CR, LF];
  }

  function LinesOf(ops: seq<Operation>): seq<wstring> {
    if ops == [] then [] else LinesOf(ops[..|ops| - 1]) + [LineOf(ops[|ops| - 1])]
  }

  lemma {:induction false} LinesTextIsFlat(ops: seq<Operation>)
    ensures LinesText(ops) == Flat(LinesOf(ops))
    decreases |ops|
  {
    hide LineOf;
    if ops != [] {
      var before, line := ops[..|ops| - 1], LineOf(ops[|ops| - 1]);
      LinesTextIsFlat(before);
      FlatConcat(LinesOf(before), [line]);
      FlatOne(line);
      ConcatAssoc(LinesText(before), line, [CR, LF]);
    }
  }

  // ----- lines hold no line break

  predicate NoBreak(text: wstring) {
    LF !in text
  }

  lemma {:induction false} RestHasNoBreak(text: wstring, index: nat, slashes: nat)
    requires index <= |text| && NoBreak(text)
    ensures NoBreak(QuotedRest(text, index, slashes, true))
    decreases |text| - index
  {
    if index < |text| {
      RestHasNoBreak(text, index + 1, if text[index] == BACKSLASH then slashes + 1 else 0);
    }
  }

  lemma QuotedHasNoBreak(text: wstring)
    requires NoBreak(text)
    ensures NoBreak(Quoted(text, true))
  {
    RestHasNoBreak(text, 0, 0);
    hide QuotedRest;
  }

  lemma ShortHasNoBreak(path: wstring)
    requires NoBreak(path)
    ensures NoBreak(Abbreviated(path))
  {
    var split := Find(path, BACKSLASH, 0);
    var root := if split == -1 then path else path[..split];
    var index := FindRoot(root, BROWSABLE_ROOTS);
    if index >= 0 { RootHasNoBreak(index); }
    hide FindRoot, Find, W;
    assert NoBreak(AbbreviatedRoot(root));
    if split != -1 { assert NoBreak(path[split + 1..]); }
  }

  lemma RootHasNoBreak(index: nat)
    requires index < BROWSABLE_ROOTS
    ensures NoBreak(ROOTS[index].abbreviation)
  {}

  lemma NoBreakConcat(a: wstring, b: wstring)
    requires NoBreak(a) && NoBreak(b)
    ensures NoBreak(a + b)
  {}

  lemma LiteralsHaveNoBreak()
    ensures NoBreak(W("reg query ")) && NoBreak(W(" >nul 2>&1 || (reg add ")) && NoBreak(W(" /f >nul && reg delete "))
            && NoBreak(W(" /ve /f >nul)"))
    ensures NoBreak(W("reg delete ")) && NoBreak(W(" /f >nul 2>&1")) && NoBreak(W(" ")) && NoBreak(W("/ve"))
            && NoBreak(W("/v "))
    ensures NoBreak(W("reg add ")) && NoBreak(W(" /t ")) && NoBreak(W(" /s ")) && NoBreak(W(" /d "))
            && NoBreak(W(" /f >nul"))
  {}

  lemma {:induction false} SeparatorHasNoBreak(items: seq<wstring>, separator: wstring, candidate: nat)
    requires candidate <= |SEPARATORS| && NoBreak(separator)
    ensures NoBreak(PickFrom(items, separator, candidate))
    decreases |SEPARATORS| - candidate
  {
    hide IsUnused;
    if candidate < |SEPARATORS| {
      SeparatorHasNoBreak(items, [SEPARATORS[candidate]], candidate + 1);
    }
  }

  lemma FormHasNoBreak(value: RegistryValue)
    requires BatchData(value).Some?
    ensures NoBreak(BatchData(value).value.0) && NoBreak(BatchData(value).value.1)
  {
    assert NoBreak(DEFAULT_SEPARATOR);
    if value.kind == REG_MULTI_SZ { SeparatorHasNoBreak(MultiStringItems(value.data), DEFAULT_SEPARATOR, 0); }
    hide BuildData, ReadUnsigned, HexText, MultiStringItems, JoinItems, PickFrom, ToHex, DecodeString, W;
  }

  /** Names and data without line breaks make lines without line breaks. */
  lemma LineHasNoBreak(op: Operation)
    requires NameFault(op).None? && (op.SetValue? ==> BatchData(op.value).Some?)
    ensures NoBreak(LineOf(op))
  {
    assert NoBreak(op.path) && NoBreak(NameOf(op)) by { NamesHaveNoBreak(op); }
    LiteralsHaveNoBreak();
    ShortHasNoBreak(op.path);
    QuotedHasNoBreak(Abbreviated(op.path));
    if NameOf(op) != [] { QuotedHasNoBreak(NameOf(op)); }
    if op.SetValue? {
      FormHasNoBreak(op.value);
      QuotedHasNoBreak(BatchData(op.value).value.0);
      QuotedHasNoBreak(BatchData(op.value).value.1);
      BatchDataHolds(op.value);
      TypeNameParses(op.value.kind);
      assert NoBreak(TypeName(op.value.kind).value) by { WordHasNoBreak(TypeName(op.value.kind).value); }
    }
    hide NoBreak, W, Quoted, Abbreviated, BatchData, TypeName, NameFault, IsPlainWord, ParseType, HasLineBreak;
    forall a, b | NoBreak(a) && NoBreak(b) ensures NoBreak(a + b) { NoBreakConcat(a, b); }
    assert NoBreak([]) by { NothingBreaks(); }
  }

  lemma NothingBreaks()
    ensures NoBreak([])
  {}

  lemma WordHasNoBreak(w: wstring)
    requires IsPlainWord(w)
    ensures NoBreak(w)
  {}

  lemma NamesHaveNoBreak(op: Operation)
    requires NameFault(op).None?
    ensures NoBreak(op.path) && NoBreak(NameOf(op))
  {
    hide HasLongName, IsPadded;
  }

  // ----- running the lines

  /** An operation that a script may hold. */
  predicate IsWritable(op: Operation) {
    Normalized(op.path) && NameFault(op).None? && (op.SetValue? ==> BatchData(op.value).Some?)
  }

  lemma OperationRuns(op: Operation, env: Env)
    requires IsWritable(op) && IsPlainEnv(env)
    ensures RunLine(LineOf(op), env) == Running(env.(output := env.output + [op]), true)
  {
    hide RunLine, KeyLine, RemoveKeyLine, RemoveValueLine, ValueLine, Normalized, NameFault, BatchData;
    match op
    case Key(path) => KeyRuns(path, env);
    case RemoveKey(path) => RemoveKeyRuns(path, env);
    case RemoveValue(path, name) => RemoveValueRuns(path, name, env);
    case SetValue(path, value) => ValueRuns(path, value, env);
  }

  predicate EndsInCaret(line: wstring) {
    line != [] && line[|line| - 1] == CARET
  }

  lemma LineEnds(op: Operation)
    requires op.SetValue? ==> BatchData(op.value).Some?
    ensures !EndsInCaret(LineOf(op))
  {
    if op.SetValue? { BatchDataHolds(op.value); }
    hide W, Quoted, KeyText, NameText, SeparatorText, BatchData, TypeName;
  }

  lemma StepLines(lines: seq<wstring>, index: nat, env: Env, after: Env, stop: bool)
    requires index < |lines| && !EndsInCaret(lines[index]) && RunLine(lines[index], env) == Running(after, stop)
    ensures RunLines(lines, index, env) == RunLines(lines, index + 1, after)
  {
    hide RunLine;
    assert JoinedLine(lines, index, lines[index]) == (lines[index], index + 1);
  }

  predicate AreWritable(ops: seq<Operation>) {
    forall i :: 0 <= i < |ops| ==> IsWritable(ops[i])
  }

  lemma {:induction false} LinesOfAt(ops: seq<Operation>, i: nat)
    requires i < |ops|
    ensures |LinesOf(ops)| == |ops| && LinesOf(ops)[i] == LineOf(ops[i])
    decreases |ops|
  {
    hide LineOf;
    LinesOfLength(ops[..|ops| - 1]);
    if i < |ops| - 1 { LinesOfAt(ops[..|ops| - 1], i); }
  }

  lemma {:induction false} LinesOfLength(ops: seq<Operation>)
    ensures |LinesOf(ops)| == |ops|
    decreases |ops|
  {
    hide LineOf;
    if ops != [] { LinesOfLength(ops[..|ops| - 1]); }
  }

  /** The lines of operations from `i` on, behind any others, add the operations. */
  lemma {:induction false} LinesRun(before: seq<wstring>, ops: seq<Operation>, i: nat, env: Env)
    requires AreWritable(ops) && i <= |ops| && IsPlainEnv(env)
    ensures RunLines(before + LinesOf(ops) + [[]], |before| + i, env) == Some(env.output + ops[i..])
    decreases |ops| - i
  {
    hide RunLines, LinesOf, LineOf, RunLine, IsWritable, EndsInCaret;
    var lines := before + LinesOf(ops) + [[]];
    LinesOfLength(ops);
    if i == |ops| {
      assert lines[|before| + i] == [];
      EmptyLineRuns(env);
      StepLines(lines, |before| + i, env, env, true);
      NoLines(lines, |before| + i + 1, env);
      assert env.output + ops[i..] == env.output;
    } else {
      LinesOfAt(ops, i);
      assert lines[|before| + i] == LineOf(ops[i]);
      OperationRuns(ops[i], env);
      WritableData(ops[i]);
      LineEnds(ops[i]);
      var after := env.(output := env.output + [ops[i]]);
      StepLines(lines, |before| + i, env, after, true);
      LinesRun(before, ops, i + 1, after);
      assert env.output + [ops[i]] + ops[i + 1..] == env.output + ops[i..];
    }
  }

  lemma WritableData(op: Operation)
    requires IsWritable(op)
    ensures op.SetValue? ==> BatchData(op.value).Some?
  {}

  lemma NoLines(lines: seq<wstring>, index: nat, env: Env)
    requires index >= |lines|
    ensures RunLines(lines, index, env) == Some(env.output)
  {}

  lemma EmptyLineRuns(env: Env)
    ensures RunLine([], env) == Running(env, true) && !EndsInCaret([])
  {
    assert TrimWhitespace([]) == [];
  }

  // ----- the lines in front

  const ECHO_LINE := W("@echo off")
  const CODE_PAGE_LINE := W("chcp 65001 >nul")

  /** A text that starts with its verb. */
  lemma VerbIs(text: wstring, verb: wstring, rest: wstring)
    requires text == verb + [SPACE] + rest && verb != [] && ToLower(verb) == verb
    requires forall i :: 0 <= i < |verb| ==> !IsBlank(verb[i])
    ensures VerbOf(text) == verb && RestOf(text) == rest
  {
    FirstBlankIs(text, 0, |verb|);
    assert text[..|verb|] == verb && text[|verb| + 1..] == rest;
  }

  lemma {:induction false} FirstBlankIs(text: wstring, at: nat, blank: nat)
    requires at <= blank < |text| && IsBlank(text[blank]) && forall i :: at <= i < blank ==> !IsBlank(text[i])
    ensures FirstBlank(text, at) == blank
    decreases blank - at
  {
    if at < blank { FirstBlankIs(text, at + 1, blank); }
  }

  /** Verbs that start with none of r, s, e and are no path to reg.exe. */
  lemma OtherVerb(verb: wstring)
    requires 0 < |verb| < 8 && verb[0] != 0x72 && verb[0] != 0x73 && (verb[0] != 0x65 || verb == W("echo"))
    ensures !IsRegVerb(verb) && verb != W("set") && verb != W("setlocal") && verb != W("endlocal") && verb != W("exit")
  {
    assert W("reg")[0] == 0x72 && W("reg.exe")[0] == 0x72 && W("set")[0] == 0x73 && W("setlocal")[0] == 0x73;
    assert W("endlocal")[0] == 0x65 && W("exit")[0] == 0x65 && W("exit")[1] == 0x78 && W("echo")[1] == 0x63;
    assert |W("\\reg.exe")| == 8 && |W("endlocal")| == 8;
  }

  lemma HarmlessRuns(command: Command, verb: wstring, rest: wstring, commands: seq<Command>, env: Env)
    requires commands != [] && commands[0] == command && command.separator != OR_ELSE && IsPlainEnv(env)
    requires |commands| == 1 || commands[1].separator == OR_ELSE
    requires VerbOf(CommandText(command)) == verb && RestOf(CommandText(command)) == rest && IsHarmless(verb, rest)
    requires !IsRegVerb(verb) && verb != W("set") && verb != W("setlocal") && verb != W("endlocal") && verb != W("exit")
    ensures RunCommands(commands, 0, env) == Running(env, true)
  {
    hide VerbOf, RestOf, CommandText, IsHarmless, IsRegVerb, W;
    assert RunCommand(commands, 0, env) == Running(env, false);
    assert RunCommands(commands, 1, env) == Running(env, true);
  }

  /** A line in front of the operations. */
  lemma FrontLineRuns(line: wstring, text: wstring, raw: wstring, commands: seq<Command>, verb: wstring, rest: wstring,
      env: Env)
    requires StripAt(TrimWhitespace(line)) == text && !IsSkipped(text) && IsPlainEnv(env) && PERCENT !in text
    requires Commands(text) == Some(commands) && commands != [] && commands[0].separator == []
    requires |commands| == 1 || commands[1].separator == OR_ELSE
    requires VerbOf(CommandText(commands[0])) == verb && RestOf(CommandText(commands[0])) == rest
             && IsHarmless(verb, rest)
    requires !IsRegVerb(verb) && verb != W("set") && verb != W("setlocal") && verb != W("endlocal") && verb != W("exit")
    ensures RunLine(line, env) == Running(env, true)
  {
    hide IsHarmless, IsRegVerb, VerbOf, RestOf, CommandText, W, Commands, StripAt, TrimWhitespace, IsSkipped;
    hide RunCommands, Expanded, Expands;
    ExpandsPlain(text);
    ExpandsWhole(text, text);
    HarmlessRuns(commands[0], verb, rest, commands, env);
  }

  lemma EchoRuns(env: Env)
    requires IsPlainEnv(env)
    ensures RunLine(ECHO_LINE, env) == Running(env, true)
  {
    var text, commands := W("echo off"), [Command(W("echo off"), [])];
    EchoText();
    InertPlain(text);
    hide IsInert, IsHarmless, IsRegVerb, IsSkipped;
    PlainSplits(text);
    OtherVerb(W("echo"));
    FrontLineRuns(ECHO_LINE, text, text, commands, W("echo"), W("off"), env);
  }

  lemma PlainSplits(text: wstring)
    requires IsInert(text)
    ensures Commands(text) == Some([Command(text, [])])
  {
    hide *;
    HasAtAll(text);
    CommandsStart(text);
    SplitInert(text, 0, text, [], Command([], []));
    SplitEnd(text, [], Command(text, []));
    OneCommand(Command(text, []));
    assert [] + text == text;
  }

  /** A text that is neither stripped nor skipped. */
  lemma FrontText(text: wstring)
    requires text != [] && !IsSpace(text[0]) && !IsSpace(text[|text| - 1])
    requires text[0] != AT && text[0] != COLON && UpperUnit(text[0]) != 0x52
    ensures StripAt(TrimWhitespace(text)) == text && !IsSkipped(text)
  {
    TrimmedIsUnchanged(text);
    if |text| >= 3 { assert text[..3][0] == text[0]; }
    assert UpperUnit(W("rem")[0]) == 0x52;
    hide TrimWhitespace;
  }

  lemma EchoText()
    ensures var text := W("echo off");
            && StripAt(TrimWhitespace(ECHO_LINE)) == text && !IsSkipped(text) && PERCENT !in text
            && CommandText(Command(text, [])) == text && VerbOf(text) == W("echo") && RestOf(text) == W("off")
            && IsHarmless(W("echo"), W("off"))
               && (forall i :: 0 <= i < |text| ==> text[i] != DQUOTE && !IsActive(text[i]))
  {
    var text := W("echo off");
    EchoUnits();
    FrontText(text);
    VerbIs(text, W("echo"), W("off"));
    TrimmedIsUnchanged(ECHO_LINE);
    hide W, TrimWhitespace, VerbOf, RestOf, IsHarmless, IsSkipped;
  }

  lemma EchoUnits()
    ensures var text := W("echo off");
            && text != [] && !IsSpace(text[0]) && !IsSpace(text[|text| - 1]) && text[0] == 0x65
            && text == W("echo") + [SPACE] + W("off") && ToLower(W("echo")) == W("echo")
            && (forall i :: 0 <= i < |W("echo")| ==> !IsBlank(W("echo")[i]))
            && PERCENT !in text && (forall i :: 0 <= i < |text| ==> text[i] != DQUOTE && !IsActive(text[i]))
            && ECHO_LINE != [] && ECHO_LINE[0] == AT && ECHO_LINE[1..] == text && IsTrimmed(ECHO_LINE)
  {}

  lemma CodePageRuns(env: Env)
    requires IsPlainEnv(env)
    ensures RunLine(CODE_PAGE_LINE, env) == Running(env, true)
  {
    var q, text := W("chcp 65001"), CODE_PAGE_LINE;
    CodePageUnits();
    FrontText(text);
    FrontText(q);
    VerbIs(q, W("chcp"), W("65001"));
    InertPlain(q);
    hide IsInert, IsHarmless, IsRegVerb, IsSkipped, StripAt, TrimWhitespace, VerbOf, RestOf, W, Commands;
    QuietSplits(q);
    OtherVerb(W("chcp"));
    CodePageTrims(q);
    assert IsHarmless(W("chcp"), W("65001")) by { CodePageIsHarmless(); }
    FrontLineRuns(text, text, text, [Command(q + [SPACE], [])], W("chcp"), W("65001"), env);
  }

  lemma CodePageIsHarmless()
    ensures IsHarmless(W("chcp"), W("65001"))
  {}

  lemma CodePageUnits()
    ensures var q, text := W("chcp 65001"), CODE_PAGE_LINE;
            && text == q + QUIET && text[0] == 0x63 && q[0] == 0x63 && text != [] && q != []
            && !IsSpace(text[|text| - 1]) && !IsSpace(q[|q| - 1]) && PERCENT !in text
            && q == W("chcp") + [SPACE] + W("65001") && ToLower(W("chcp")) == W("chcp")
            && (forall i :: 0 <= i < |W("chcp")| ==> !IsBlank(W("chcp")[i]))
            && (forall i :: 0 <= i < |q| ==> q[i] != DQUOTE && !IsActive(q[i]))
            && |W("chcp")| == 4 && W("chcp")[0] == 0x63
  {}

  /** A space behind a solid text is trimmed away. */
  lemma CodePageTrims(q: wstring)
    requires q != [] && !IsSpace(q[0]) && !IsSpace(q[|q| - 1]) && q[0] != AT
    ensures CommandText(Command(q + [SPACE], [])) == q && CommandText(Command(q + [SPACE, SPACE, SPACE], [])) == q
  {
    TrailingSpaces(q, [SPACE]);
    TrailingSpaces(q, [SPACE, SPACE, SPACE]);
  }

  lemma TrailingSpaces(q: wstring, spaces: wstring)
    requires q != [] && !IsSpace(q[0]) && !IsSpace(q[|q| - 1]) && q[0] != AT
    requires forall i :: 0 <= i < |spaces| ==> spaces[i] == SPACE
    ensures StripAt(TrimWhitespace(q + spaces)) == q
  {
    var all := q + spaces;
    assert SolidStart(all, 0) == 0;
    SolidEndIs(all, |q|, |all|);
    assert all[..|q|] == q;
  }

  // ----- the administrator check

  const ADMIN_TEST := W("net session >nul 2>&1 || (")
  const ADMIN_ECHO := W("echo Run this script ") + W("as administrator ")
  const ADMIN_EXIT := W(" exit /b 1")

  lemma AdminPieces()
    ensures ADMIN_LINE == ADMIN_TEST + (ADMIN_ECHO + ([AMP] + (ADMIN_EXIT + [RPAREN])))
    ensures ADMIN_TEST == W("net session") + (SILENT + ([SPACE] + ([BAR, BAR] + ([SPACE] + [LPAREN]))))
    ensures |W("net session")| == 11 && |SILENT| == 10 && |ADMIN_TEST| == 26 && |ADMIN_ECHO| == 38 && |ADMIN_EXIT| == 10
  {
    assert W("& exit /b 1)") == [AMP] + (ADMIN_EXIT + [RPAREN]);
  }

  lemma AdminParts(line: wstring)
    requires line == ADMIN_LINE
    ensures var q := W("net session");
            && HasAt(line, 0, q) && HasAt(line, 11, [SPACE]) && HasAt(line, 12, TO_NUL) && TargetStops(line, 16)
               && HasAt(line, 16, [SPACE])
            && HasAt(line, 17, ERR_TO_OUT) && HasAt(line, 21, [SPACE]) && HasAt(line, 22, [BAR, BAR])
               && HasAt(line, 24, [SPACE])
            && HasAt(line, 25, [LPAREN]) && HasAt(line, 26, ADMIN_ECHO) && HasAt(line, 64, [AMP])
               && HasAt(line, 65, ADMIN_EXIT)
            && HasAt(line, 75, [RPAREN]) && |line| == 76 && |q| == 11 && |ADMIN_ECHO| == 38 && |ADMIN_EXIT| == 10
  {
    hide HasAt, W, ADMIN_LINE, ADMIN_TEST, ADMIN_ECHO, ADMIN_EXIT, SILENT;
    var q := W("net session");
    var t4 := [AMP] + (ADMIN_EXIT + [RPAREN]);
    var t2 := [SPACE] + ([BAR, BAR] + ([SPACE] + [LPAREN]));
    AdminPieces();
    HasAtAll(line);
    HasAtSplit(line, 0, ADMIN_TEST, ADMIN_ECHO + t4);
    HasAtSplit(line, 0, q, SILENT + t2);
    HasAtSplit(line, 11, SILENT, t2);
    SilentParts(line, 11);
    HasAtSplit(line, 21, [SPACE], [BAR, BAR] + ([SPACE] + [LPAREN]));
    HasAtSplit(line, 22, [BAR, BAR], [SPACE] + [LPAREN]);
    HasAtSplit(line, 24, [SPACE], [LPAREN]);
    HasAtSplit(line, 26, ADMIN_ECHO, t4);
    HasAtSplit(line, 64, [AMP], ADMIN_EXIT + [RPAREN]);
    HasAtSplit(line, 65, ADMIN_EXIT, [RPAREN]);
  }

  lemma SplitSingle(line: wstring, i: nat, done: seq<Command>, last: Command)
    requires HasAt(line, i, [AMP]) && (i + 1 < |line| ==> line[i + 1] != AMP)
    ensures CommandsFrom(line, i, false, done, last)
            == CommandsFrom(line, i + 1, false, done + [last], Command([], [AMP]))
  {
    HasAtUnit(line, i, [AMP]);
  }

  lemma AdminInert()
    ensures IsInert(W("net session")) && IsInert(ADMIN_ECHO) && IsInert(ADMIN_EXIT) && IsInert([SPACE])
    ensures ADMIN_EXIT != [] && ADMIN_EXIT[0] != AMP
  {
    hide IsInert;
    InertPlain(W("net session"));
    InertPlain(W("echo Run this script "));
    InertPlain(W("as administrator "));
    InertConcat(W("echo Run this script "), W("as administrator "));
    InertPlain(ADMIN_EXIT);
    InertPlain([SPACE]);
  }

  lemma SpacesGrow(q: wstring)
    ensures [] + q == q && q + [SPACE] + [SPACE] + [SPACE] == q + [SPACE, SPACE, SPACE]
    ensures EndsInSpace(q + [SPACE]) && EndsInSpace(q + [SPACE] + [SPACE])
    ensures [] + ADMIN_EXIT == ADMIN_EXIT && [] + [SPACE] == [SPACE]
  {}

  /** The test for administrator rights, up to the alternative. */
  lemma AdminTests(line: wstring, q: wstring)
    requires line == ADMIN_LINE && q == W("net session")
    ensures CommandsFrom(line, 0, false, [], Command([], []))
            == CommandsFrom(line, 24, false, [Command(q + [SPACE, SPACE, SPACE], [])], Command([], [BAR, BAR]))
  {
    hide *;
    AdminParts(line);
    AdminInert();
    SpacesGrow(q);
    SplitInert(line, 0, q, [], Command([], []));
    SplitInert(line, 11, [SPACE], [], Command(q, []));
    SplitNul(line, 12, [], Command(q + [SPACE], []));
    SplitInert(line, 16, [SPACE], [], Command(q + [SPACE], []));
    SplitErr(line, 17, [], Command(q + [SPACE] + [SPACE], []));
    SplitInert(line, 21, [SPACE], [], Command(q + [SPACE] + [SPACE], []));
    var first := Command(q + [SPACE, SPACE, SPACE], []);
    SplitDouble(line, 22, BAR, [], first);
    OneCommand(first);
  }

  lemma AdminSplits()
    ensures Commands(ADMIN_LINE) == Some([Command(W("net session") + [SPACE, SPACE, SPACE], []),
                                          Command([SPACE] + ADMIN_ECHO, OR_ELSE), Command(ADMIN_EXIT, [AMP])])
  {
    hide *;
    var line, q := ADMIN_LINE, W("net session");
    AdminParts(line);
    AdminInert();
    SpacesGrow(q);
    SeparatorsAre();
    CommandsStart(line);
    var first := Command(q + [SPACE, SPACE, SPACE], []);
    AdminTests(line, q);
    SplitInert(line, 24, [SPACE], [first], Command([], [BAR, BAR]));
    SplitParen(line, 25, LPAREN, [first], Command([SPACE], [BAR, BAR]));
    SplitInert(line, 26, ADMIN_ECHO, [first], Command([SPACE], [BAR, BAR]));
    var second := Command([SPACE] + ADMIN_ECHO, [BAR, BAR]);
    HasAtFirst(line, 65, ADMIN_EXIT);
    SplitSingle(line, 64, [first], second);
    SplitInert(line, 65, ADMIN_EXIT, [first] + [second], Command([], [AMP]));
    SplitParen(line, 75, RPAREN, [first] + [second], Command(ADMIN_EXIT, [AMP]));
    SplitEnd(line, [first] + [second], Command(ADMIN_EXIT, [AMP]));
    assert [first] + [second] + [Command(ADMIN_EXIT, [AMP])] == [first, second, Command(ADMIN_EXIT, [AMP])];
  }

  lemma HasAtFirst(text: wstring, i: nat, piece: wstring)
    requires HasAt(text, i, piece) && piece != []
    ensures i < |text| && text[i] == piece[0]
  {
    HasAtUnit(text, i, piece);
  }

  /** The first and last unit of the line, and the units it has none of. */
  lemma AdminLineUnits()
    ensures ADMIN_LINE != [] && ADMIN_LINE[0] == 0x6E && ADMIN_LINE[|ADMIN_LINE| - 1] == RPAREN
    ensures PERCENT !in ADMIN_LINE && LF !in ADMIN_LINE
  {
    AdminPartUnits();
    var a, b, c, d := W("net session >nul 2>&1 || ("), W("echo Run this script "), W("as administrator "),
      W("& exit /b 1)");
    hide W;
    assert ADMIN_LINE == a + b + c + d;
  }

  lemma AdminPartUnits()
    ensures var a := W("net session >nul 2>&1 || ("); a != [] && a[0] == 0x6E && PERCENT !in a && LF !in a
    ensures PERCENT !in W("echo Run this script ") && LF !in W("echo Run this script ")
    ensures PERCENT !in W("as administrator ") && LF !in W("as administrator ")
    ensures var d := W("& exit /b 1)"); d != [] && d[|d| - 1] == RPAREN && PERCENT !in d && LF !in d
  {}

  lemma AdminUnits()
    ensures var q := W("net session");
            && q != [] && q[0] == 0x6E && !IsSpace(q[|q| - 1])
            && q == W("net") + [SPACE] + W("session") && ToLower(W("net")) == W("net")
            && (forall i :: 0 <= i < |W("net")| ==> !IsBlank(W("net")[i]))
            && |W("net")| == 3 && W("net")[0] == 0x6E
  {}

  lemma SessionIsHarmless()
    ensures IsHarmless(W("net"), W("session"))
  {
    assert W("session")[0] == 0x73 && W("session")[|W("session")| - 1] == 0x6E;
    TrimmedIsUnchanged(W("session"));
    assert EqualsInsensitive(W("session"), W("session"));
    hide TrimWhitespace;
  }

  lemma AdminRuns(env: Env)
    requires IsPlainEnv(env)
    ensures RunLine(ADMIN_LINE, env) == Running(env, true)
  {
    hide IsHarmless, IsRegVerb, IsSkipped, StripAt, TrimWhitespace, VerbOf, RestOf, W, Commands, ADMIN_LINE, ADMIN_ECHO;
    hide ADMIN_EXIT;
    var q, text := W("net session"), ADMIN_LINE;
    AdminUnits();
    AdminLineUnits();
    FrontText(text);
    FrontText(q);
    VerbIs(q, W("net"), W("session"));
    OtherVerb(W("net"));
    SessionIsHarmless();
    AdminSplits();
    CodePageTrims(q);
    var commands := [Command(q + [SPACE, SPACE, SPACE], []), Command([SPACE] + ADMIN_ECHO, OR_ELSE),
                     Command(ADMIN_EXIT, [AMP])];
    FrontLineRuns(text, text, text, commands, W("net"), W("session"), env);
  }

  // ----- the script

  function FrontLines(ascii: bool, admin: bool): seq<wstring> {
    [ECHO_LINE] + (if ascii then [] else [CODE_PAGE_LINE]) + (if admin then [ADMIN_LINE] else [])
  }

  lemma FrontFlat(ascii: bool, admin: bool)
    ensures Flat(FrontLines(ascii, admin)) == ECHO_OFF + (if ascii then []
                                                          else CODE_PAGE) + (if admin then ADMIN_CHECK else [])
    ensures AreLines(FrontLines(ascii, admin))
  {
    FrontLiterals();
    hide W, Flat;
    var none: seq<wstring> := [];
    assert Flat(none) == [] by { FlatNone(); }
    FlatOne(ECHO_LINE);
    FlatOne(CODE_PAGE_LINE);
    FlatOne(ADMIN_LINE);
    var a, b := [ECHO_LINE], if ascii then none else [CODE_PAGE_LINE];
    FlatConcat(a, b);
    FlatConcat(a + b, if admin then [ADMIN_LINE] else none);
  }

  lemma FlatNone()
    ensures Flat([]) == []
  {}

  lemma FrontLiterals()
    ensures ECHO_OFF == ECHO_LINE + [CR, LF] && CODE_PAGE == CODE_PAGE_LINE + [CR, LF]
            && ADMIN_CHECK == ADMIN_LINE + [CR, LF]
    ensures LF !in ECHO_LINE && LF !in CODE_PAGE_LINE && LF !in ADMIN_LINE
    ensures !EndsInCaret(ECHO_LINE) && !EndsInCaret(CODE_PAGE_LINE) && !EndsInCaret(ADMIN_LINE)
  {
    AdminLineUnits();
    hide ADMIN_LINE;
  }

  /** The front lines change nothing. */
  lemma FrontRuns(ascii: bool, admin: bool, rest: seq<wstring>)
    ensures RunLines(FrontLines(ascii, admin) + rest, 0, FRESH)
            == RunLines(FrontLines(ascii, admin) + rest, |FrontLines(ascii, admin)|, FRESH)
  {
    FrontLiterals();
    hide W, RunLine, RunLines, EndsInCaret;
    var lines := FrontLines(ascii, admin) + rest;
    EchoRuns(FRESH);
    CodePageRuns(FRESH);
    AdminRuns(FRESH);
    StepLines(lines, 0, FRESH, FRESH, true);
    if !ascii { StepLines(lines, 1, FRESH, FRESH, true); }
    if admin { StepLines(lines, if ascii then 1 else 2, FRESH, FRESH, true); }
  }

  lemma LinesAreLines(front: seq<wstring>, ops: seq<Operation>)
    requires AreLines(front) && AreWritable(ops)
    ensures AreLines(front + LinesOf(ops))
  {
    hide LinesOf, LineOf, IsWritable;
    LinesOfLength(ops);
    forall i | 0 <= i < |front + LinesOf(ops)| ensures LF !in (front + LinesOf(ops))[i] {
      if i >= |front| {
        LinesOfAt(ops, i - |front|);
        assert IsWritable(ops[i - |front|]);
        WritableNames(ops[i - |front|]);
        LineHasNoBreak(ops[i - |front|]);
      }
    }
  }

  lemma WritableNames(op: Operation)
    requires IsWritable(op)
    ensures NameFault(op).None? && (op.SetValue? ==> BatchData(op.value).Some?)
            && (NoBreak(LineOf(op)) ==> LF !in LineOf(op))
  {}

  /** A script of writable operations is read back as those operations. */
  lemma ScriptIsReadBack(ops: seq<Operation>, admin: bool)
    requires AreWritable(ops)
    ensures BatchOperations(Script(LinesText(ops), admin)) == Some(ops)
  {
    hide Flat, LinesOf, LinesText, LinesFrom, RunLines, IsAscii, AreWritable, AreLines;
    var body := LinesText(ops);
    var front := FrontLines(IsAscii(body), admin);
    FrontFlat(IsAscii(body), admin);
    LinesTextIsFlat(ops);
    FlatConcat(front, LinesOf(ops));
    LinesAreLines(front, ops);
    var script := Script(body, admin);
    assert script == Flat(front + LinesOf(ops)) by { ScriptIs(body, admin); }
    assert script[0..] == script;
    LinesOfFlat(script, 0, front + LinesOf(ops));
    FrontRuns(IsAscii(body), admin, LinesOf(ops) + [[]]);
    ConcatAssoc(front, LinesOf(ops), [[]]);
    LinesRun(front, ops, 0, FRESH);
    assert [] + ops[0..] == ops;
  }

  lemma ScriptIs(body: wstring, admin: bool)
    ensures Script(body, admin) == ECHO_OFF + (if IsAscii(body) then []
                                               else CODE_PAGE) + (if admin then ADMIN_CHECK else []) + body
  {}
}
