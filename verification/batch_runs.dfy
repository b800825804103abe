/** What the batch reader makes of each line the writer produces. */
module BatchRuns {
  import opened Text
  import opened ValueFormat
  import opened Operations
  import opened KeyPaths
  import opened RegExe
  import opened RegExeOptions
  import opened BatchSyntax
  import opened BatchLayers
  import opened BatchPieces
  import opened BatchReader
  import opened BatchWriter
  import opened BatchLines

  // ----- arguments

  lemma ShortIsNoSwitch(path: wstring)
    requires Normalized(path)
    ensures !LooksLikeSwitch(Abbreviated(path))
  {
    NormalizedShape(path);
    var i: nat :| i < BROWSABLE_ROOTS && ROOTS[i].name == RootPart(path);
    hide *;
    RootIsFound(i);
    AbbreviatedByParts(path, i);
    ShortRootStarts(i, RestPart(path));
  }

  lemma ShortRootStarts(i: nat, rest: wstring)
    requires i < BROWSABLE_ROOTS
    ensures !LooksLikeSwitch(ROOTS[i].abbreviation + rest)
  {
    assert ROOTS[i].abbreviation[0] == 0x48;
    hide W;
  }

  /** The parsing after the key and the name; `n` is the index behind them. */
  function Named(key: wstring, name: wstring): Parsing {
    var p := UNPARSED.(positional := [key]);
    if name == [] then
      var q := Counted(p, W("ve"), 1);
      q.(options := q.options.(defaultValue := true, hasValue := true))
    else
      var q := Counted(p, [0x76], 1);
      q.(options := q.options.(valueName := name, hasValue := true))
  }

  lemma ParseNamed(args: seq<wstring>, key: wstring, name: wstring, verb: Verb)
    requires verb != Query && |args| > 1 && args[1] == key && !LooksLikeSwitch(key)
    requires |args| >= 2 + |NameArgs(name)| && args[2..2 + |NameArgs(name)|] == NameArgs(name)
    ensures ParseFrom(args, 1, UNPARSED, verb) == ParseFrom(args, 2 + |NameArgs(name)|, Named(key, name), verb)
  {
    hide ParseFrom;
    StepPositional(args, 1, UNPARSED, verb);
    assert UNPARSED.positional + [key] == [key];
    var p := UNPARSED.(positional := [key]);
    assert args[2] == args[2..2 + |NameArgs(name)|][0];
    if name == [] {
      StepDefault(args, 2, p, verb);
    } else {
      assert args[3] == args[2..2 + |NameArgs(name)|][1];
      StepTaking(args, 2, p, verb, 0x76);
    }
  }

  /** The units of switches a name does not use up. */
  lemma NamedIsNew(key: wstring, name: wstring, c: wchar)
    requires c == 0x74 || c == 0x73 || c == 0x64 || c == 0x66
    ensures IsNew(Named(key, name), c)
  {
    hide W;
  }

  /** Key, type, separator and data of an add command. */
  function Typed(p: Parsing, kind: wstring): Parsing {
    var q := Counted(p, [0x74], 0);
    q.(options := q.options.(typeText := kind))
  }

  function Separated(p: Parsing, separator: wstring): Parsing {
    if separator == DEFAULT_SEPARATOR then p
    else
      var q := Counted(p, [0x73], 0);
      q.(options := q.options.(separator := separator))
  }

  function WithData(p: Parsing, data: wstring): Parsing {
    var q := Counted(p, [0x64], 0);
    q.(options := q.options.(data := data, hasData := true))
  }

  function Forced(p: Parsing): Parsing {
    var q := Counted(p, [0x66], 0);
    q.(options := q.options.(force := true))
  }

  lemma TypedIsNew(p: Parsing, kind: wstring, c: wchar)
    requires IsNew(p, c) && c != 0x74
    ensures IsNew(Typed(p, kind), c)
  {
    assert [0x74 as wchar][0] != [c][0];
  }

  lemma SeparatedIsNew(p: Parsing, separator: wstring, c: wchar)
    requires IsNew(p, c) && c != 0x73
    ensures IsNew(Separated(p, separator), c)
  {
    assert [0x73 as wchar][0] != [c][0];
  }

  lemma WithDataIsNew(p: Parsing, data: wstring, c: wchar)
    requires IsNew(p, c) && c != 0x64
    ensures IsNew(WithData(p, data), c)
  {
    assert [0x64 as wchar][0] != [c][0];
  }

  /** The arguments behind the name of an add command. */
  predicate HasTail(args: seq<wstring>, i: nat, kind: wstring, separator: wstring, data: wstring) {
    && |args| == i + 5 + |SeparatorArgs(separator)|
    && args[i] == W("/t") && args[i + 1] == kind
    && (separator != DEFAULT_SEPARATOR ==> args[i + 2] == W("/s") && args[i + 3] == separator)
    && args[|args| - 3] == W("/d") && args[|args| - 2] == data && args[|args| - 1] == W("/f")
  }

  lemma StepTyped(args: seq<wstring>, i: nat, p: Parsing)
    requires i + 1 < |args| && args[i] == [SLASH, 0x74] && IsNew(p, 0x74)
    ensures ParseFrom(args, i, p, Add) == ParseFrom(args, i + 2, Typed(p, args[i + 1]), Add)
  {
    hide ParseFrom, IsNew;
    StepTaking(args, i, p, Add, 0x74);
  }

  lemma StepSeparated(args: seq<wstring>, i: nat, p: Parsing)
    requires i + 1 < |args| && args[i] == [SLASH, 0x73] && IsNew(p, 0x73) && args[i + 1] != DEFAULT_SEPARATOR
    ensures ParseFrom(args, i, p, Add) == ParseFrom(args, i + 2, Separated(p, args[i + 1]), Add)
  {
    hide ParseFrom, IsNew, W;
    StepTaking(args, i, p, Add, 0x73);
  }

  lemma StepWithData(args: seq<wstring>, i: nat, p: Parsing)
    requires i + 1 < |args| && args[i] == [SLASH, 0x64] && IsNew(p, 0x64)
    ensures ParseFrom(args, i, p, Add) == ParseFrom(args, i + 2, WithData(p, args[i + 1]), Add)
  {
    hide ParseFrom, IsNew;
    StepTaking(args, i, p, Add, 0x64);
  }

  lemma ParseTail(args: seq<wstring>, i: nat, p: Parsing, kind: wstring, separator: wstring, data: wstring)
    requires HasTail(args, i, kind, separator, data)
    requires IsNew(p, 0x74) && IsNew(p, 0x73) && IsNew(p, 0x64) && IsNew(p, 0x66)
    ensures ParseFrom(args, i, p, Add) == Some(Forced(WithData(Separated(Typed(p, kind), separator), data)))
  {
    hide IsNew, Typed, WithData, ParseFrom, W;
    StepTyped(args, i, p);
    var p1 := Typed(p, kind);
    TypedIsNew(p, kind, 0x73);
    TypedIsNew(p, kind, 0x64);
    TypedIsNew(p, kind, 0x66);
    if separator != DEFAULT_SEPARATOR { StepSeparated(args, i + 2, p1); }
    var p2 := Separated(p1, separator);
    SeparatedIsNew(p1, separator, 0x64);
    SeparatedIsNew(p1, separator, 0x66);
    StepWithData(args, |args| - 3, p2);
    WithDataIsNew(p2, data, 0x66);
    StepForce(args, |args| - 1, WithData(p2, data), Add);
    EndOfArgs(args, Forced(WithData(p2, data)));
  }

  lemma EndOfArgs(args: seq<wstring>, p: Parsing)
    ensures forall verb: Verb :: ParseFrom(args, |args|, p, verb) == Some(p)
  {}

  /** All that an add command says about its value. */
  function AddOptions(key: wstring, name: wstring, kind: wstring, separator: wstring, data: wstring): Options {
    Forced(WithData(Separated(Typed(Named(key, name), kind), separator), data)).options
  }

  lemma AddOptionsSay(key: wstring, name: wstring, kind: wstring, separator: wstring, data: wstring)
    ensures var o := AddOptions(key, name, kind, separator, data);
            && o.hasValue && (o.defaultValue <==> name == []) && (name != [] ==> o.valueName == name)
            && o.typeText == kind && o.separator == separator && o.data == data && o.view == Wow64 && !o.allValues
            && (W("s") in o.switches ==> separator != DEFAULT_SEPARATOR)
    ensures (if AddOptions(key, name, kind, separator, data).defaultValue then []
             else AddOptions(key, name, kind, separator, data).valueName) == name
    ensures Forced(WithData(Separated(Typed(Named(key, name), kind), separator), data)).positional == [key]
  {
    assert [0x73 as wchar][0] != [0x74 as wchar][0] && [0x73 as wchar][0] != [0x64 as wchar][0]
      && [0x73 as wchar][0] != [0x66 as wchar][0];
    assert [0x73 as wchar][0] != [0x76 as wchar][0];
    hide W;
  }

  // ----- type names

  lemma TypesDiffer(r: nat, j: nat)
    requires r < |TYPES| && j < |TYPES| && r != j
    ensures !EqualsInsensitive(TYPES[r].name, TYPES[j].name)
  {
    TypeUnitsDiffer(r, j);
    hide W;
  }

  lemma TypeUnitsDiffer(r: nat, j: nat)
    requires r < |TYPES| && j < |TYPES| && r != j
    ensures var a, b := TYPES[r].name, TYPES[j].name;
            |a| > 4 && (|a| == |b| ==> UpperUnit(a[4]) != UpperUnit(b[4]))
  {}

  lemma TypeIsFound(r: nat)
    requires r < |TYPES|
    ensures TypeNamed(TYPES[r].name, 0) == r
  {
    forall j: nat | j < r ensures !EqualsInsensitive(TYPES[r].name, TYPES[j].name) { TypesDiffer(r, j); }
    assert EqualsInsensitive(TYPES[r].name, TYPES[r].name);
    hide EqualsInsensitive, W;
  }

  /** The name of a type is read as that type. */
  lemma TypeNameParses(kind: uint32)
    requires TypeName(kind).Some?
    ensures TypeName(kind).value != [] && ParseType(TypeName(kind).value) == Some(kind)
    ensures IsPlainWord(TypeName(kind).value)
  {
    var r := FirstOfKind(kind, 0);
    TypeIsFound(r);
    TypesArePlain(r);
    hide W, TypeNamed, IsPlainWord;
  }

  lemma TypesArePlain(r: nat)
    requires r < |TYPES|
    ensures TYPES[r].name != [] && IsPlainWord(TYPES[r].name)
  {
    hide IsPlainWord;
    LiteralIsPlain("REG_SZ");
    LiteralIsPlain("REG_MULTI_SZ");
    LiteralIsPlain("REG_EXPAND_SZ");
    LiteralIsPlain("REG_DWORD");
    LiteralIsPlain("REG_DWORD_LITTLE_ENDIAN");
    LiteralIsPlain("REG_DWORD_BIG_ENDIAN");
    LiteralIsPlain("REG_QWORD");
    LiteralIsPlain("REG_QWORD_LITTLE_ENDIAN");
    LiteralIsPlain("REG_BINARY");
    LiteralIsPlain("REG_NONE");
    LiteralIsPlain("REG_LINK");
  }

  // ----- reg commands

  lemma IsAddOrDelete()
    ensures EqualsInsensitive(ADD, ADD) && !EqualsInsensitive(ADD, QUERY) && !EqualsInsensitive(DELETE, QUERY)
    ensures !EqualsInsensitive(DELETE, ADD) && EqualsInsensitive(DELETE, DELETE) && EqualsInsensitive(QUERY, QUERY)
  {}

  /** Reading the options of an add command that names its type and data. */
  lemma AddParses(args: seq<wstring>, key: wstring, name: wstring, kind: wstring, separator: wstring, data: wstring)
    requires |args| > 1 && args[1] == key && !LooksLikeSwitch(key)
    requires |args| >= 2 + |NameArgs(name)| && args[2..2 + |NameArgs(name)|] == NameArgs(name)
    requires HasTail(args, 2 + |NameArgs(name)|, kind, separator, data)
    requires ParseType(kind).Some? && kind != []
             && (separator != DEFAULT_SEPARATOR ==> ParseType(kind) == Some(REG_MULTI_SZ))
    ensures ParseOptions(args, 1, Add) == Some((AddOptions(key, name, kind, separator, data), [key]))
  {
    ParseNamed(args, key, name, Add);
    NamedIsNew(key, name, 0x74);
    NamedIsNew(key, name, 0x73);
    NamedIsNew(key, name, 0x64);
    NamedIsNew(key, name, 0x66);
    ParseTail(args, 2 + |NameArgs(name)|, Named(key, name), kind, separator, data);
    AddOptionsSay(key, name, kind, separator, data);
    hide HasTail, Named, Typed, Separated, WithData, Forced, ParseFrom, ParseType, W;
  }

  lemma ApplyAdd(args: seq<wstring>, path: wstring, value: RegistryValue, kind: wstring, separator: wstring,
      data: wstring)
    requires Normalized(path)
    requires |args| > 1 && args[0] == ADD && args[1] == Abbreviated(path)
    requires |args| >= 2 + |NameArgs(value.name)| && args[2..2 + |NameArgs(value.name)|] == NameArgs(value.name)
    requires HasTail(args, 2 + |NameArgs(value.name)|, kind, separator, data)
    requires ParseType(kind) == Some(value.kind) && kind != []
             && (separator != DEFAULT_SEPARATOR ==> value.kind == REG_MULTI_SZ)
    requires BuildData(value.kind, data, separator) == Some(value.data)
    ensures ApplyReg(args) == Some([SetValue(path, value)])
  {
    hide *;
    ShortIsNoSwitch(path);
    AbbreviatedNormalizes(path);
    IsAddOrDelete();
    AddParses(args, Abbreviated(path), value.name, kind, separator, data);
    AddOptionsSay(Abbreviated(path), value.name, kind, separator, data);
    var o := AddOptions(Abbreviated(path), value.name, kind, separator, data);
    AddedDataIs(o, value.kind, value.data);
    ApplyAddIs(args, o, Abbreviated(path), path, value);
  }

  lemma AddedDataIs(o: Options, kind: uint32, data: seq<byte>)
    requires o.typeText != [] && ParseType(o.typeText) == Some(kind)
             && BuildData(kind, o.data, o.separator) == Some(data)
    ensures AddedData(o) == Some((kind, data))
  {
    hide ParseType, BuildData;
  }

  lemma ApplyAddIs(args: seq<wstring>, o: Options, key: wstring, path: wstring, value: RegistryValue)
    requires args != [] && EqualsInsensitive(args[0], ADD) && ParseOptions(args, 1, Add) == Some((o, [key]))
    requires NormalizeKeyPath(key) == Some(path) && o.view == Wow64 && !o.allValues && o.hasValue
    requires (if o.defaultValue then []
              else o.valueName) == value.name && AddedData(o) == Some((value.kind, value.data))
    ensures ApplyReg(args) == Some([SetValue(path, value)])
  {
    hide EqualsInsensitive, ParseOptions, NormalizeKeyPath, AddedData, W;
    assert RegistryValue(value.name, value.kind, value.data) == value;
  }

  /** Reading the options of a delete command. */
  lemma DeleteParses(args: seq<wstring>, key: wstring, name: Option<wstring>)
    requires |args| > 1 && args[1] == key && !LooksLikeSwitch(key)
    requires name.Some? ==>
               |args| == 3 + |NameArgs(name.value)| && args[2..2 + |NameArgs(name.value)|] == NameArgs(name.value)
    requires name.None? ==> |args| == 3
    requires args[|args| - 1] == W("/f")
    ensures var o := Forced(if name.None? then UNPARSED.(positional := [key]) else Named(key, name.value)).options;
            && ParseOptions(args, 1, Other) == Some((o, [key]))
            && o.view == Wow64 && !o.allValues && (o.hasValue <==> name.Some?)
            && (name.Some? ==> (if o.defaultValue then [] else o.valueName) == name.value)
  {
    hide ParseFrom, W, LooksLikeSwitch, NameArgs;
    var p := UNPARSED.(positional := [key]);
    if name.None? {
      StepPositional(args, 1, UNPARSED, Other);
      assert UNPARSED.positional + [key] == [key];
    } else {
      ParseNamed(args, key, name.value, Other);
      NamedIsNew(key, name.value, 0x66);
      p := Named(key, name.value);
    }
    StepForce(args, |args| - 1, p, Other);
    ParseEnds(args, Forced(p), Other);
  }

  lemma ParseEnds(args: seq<wstring>, p: Parsing, verb: Verb)
    ensures ParseFrom(args, |args|, p, verb) == Some(p)
  {}

  lemma ApplyDelete(args: seq<wstring>, path: wstring, name: Option<wstring>)
    requires Normalized(path)
    requires |args| > 1 && args[0] == DELETE && args[1] == Abbreviated(path)
    requires name.Some? ==>
               |args| == 3 + |NameArgs(name.value)| && args[2..2 + |NameArgs(name.value)|] == NameArgs(name.value)
    requires name.None? ==> |args| == 3
    requires args[|args| - 1] == W("/f")
    ensures ApplyReg(args) == Some([if name.Some? then RemoveValue(path, name.value) else RemoveKey(path)])
  {
    hide *;
    ShortIsNoSwitch(path);
    AbbreviatedNormalizes(path);
    IsAddOrDelete();
    DeleteParses(args, Abbreviated(path), name);
    ApplyDeleteIs(args, Forced(if name.None? then UNPARSED.(positional := [Abbreviated(path)])
                               else Named(Abbreviated(path), name.value)).options,
                  Abbreviated(path), path, name);
  }

  lemma ApplyDeleteIs(args: seq<wstring>, o: Options, key: wstring, path: wstring, name: Option<wstring>)
    requires args != [] && EqualsInsensitive(args[0], DELETE) && !EqualsInsensitive(args[0], ADD)
    requires ParseOptions(args, 1, Other) == Some((o, [key])) && NormalizeKeyPath(key) == Some(path)
    requires o.view == Wow64 && !o.allValues && (o.hasValue <==> name.Some?)
    requires name.Some? ==> (if o.defaultValue then [] else o.valueName) == name.value
    ensures ApplyReg(args) == Some([if name.Some? then RemoveValue(path, name.value) else RemoveKey(path)])
  {
    hide EqualsInsensitive, ParseOptions, NormalizeKeyPath, AddedData, W;
  }

  // ----- lines

  /** Texts that start like a reg command and have no space around them. */
  predicate IsRegText(text: wstring) {
    |text| > 4 && text[..4] == W("reg ") && !IsSpace(text[|text| - 1])
  }

  lemma RegTextFacts(text: wstring)
    requires IsRegText(text)
    ensures StripAt(TrimWhitespace(text)) == text && !IsSkipped(text)
    ensures FirstBlank(text, 0) == 3 && VerbOf(text) == REG && text[..3] == REG
  {
    assert text[..4][0] == text[0] && text[..4][1] == text[1] && text[..4][2] == text[2] && text[..4][3] == text[3];
    assert W("reg ")[0] == 0x72 && W("reg ")[1] == 0x65 && W("reg ")[2] == 0x67 && W("reg ")[3] == SPACE;
    TrimmedIsUnchanged(text);
    assert FirstBlank(text, 3) == 3;
    assert FirstBlank(text, 2) == 3;
    assert FirstBlank(text, 1) == 3;
    assert text[..3] == REG;
    assert ToLower(REG) == REG;
  }

  lemma SpacesTrim(text: wstring, spaces: wstring)
    requires IsRegText(text) && forall i :: 0 <= i < |spaces| ==> spaces[i] == SPACE
    ensures StripAt(TrimWhitespace(text + spaces)) == text
  {
    var all := text + spaces;
    assert text[..4][0] == text[0] && W("reg ")[0] == 0x72;
    assert all[0] == text[0] && all[|text| - 1] == text[|text| - 1];
    assert SolidStart(all, 0) == 0;
    SolidEndIs(all, |text|, |all|);
    assert all[..|text|] == text;
  }

  lemma {:induction false} SolidEndIs(text: wstring, solid: nat, end: nat)
    requires 0 < solid <= end <= |text| && !IsSpace(text[solid - 1])
    requires forall k :: solid <= k < end ==> IsSpace(text[k])
    ensures SolidEnd(text, 0, end) == solid
    decreases end
  {
    if solid < end { SolidEndIs(text, solid, end - 1); }
  }

  /** The environment while a rendered script runs. */
  predicate IsPlainEnv(env: Env) {
    env.variables == map[] && !env.delayed
  }

  /** A line that is one reg command. */
  lemma RunsRegCommand(line: wstring, raw: wstring, q: wstring, spaces: wstring, args: seq<wstring>,
      ops: seq<Operation>, env: Env)
    requires IsRegText(line) && IsRegText(q) && Expands(line, raw) && IsPlainEnv(env)
    requires Commands(raw) == Some([Command(q + spaces, [])]) && forall i :: 0 <= i < |spaces| ==> spaces[i] == SPACE
    requires Yields(q, [REG] + args) && args != [] && !EqualsInsensitive(args[0], QUERY)
    requires ApplyReg(args) == Some(ops)
    ensures RunLine(line, env) == Running(env.(output := env.output + ops), true)
  {
    hide *;
    RegTextFacts(line);
    RegTextFacts(q);
    RegTextLength(q);
    SpacesTrim(q, spaces);
    ExpandsWhole(line, raw);
    YieldsWhole(q, [REG] + args);
    RegIsWord();
    ArgumentsBehindVerb(q, REG, args);
    RegIsVerb();
    RestIs(q);
    OneCommandRuns(q, q + spaces, args, ops, env);
    LineRuns(line, raw, [Command(q + spaces, [])], env);
  }

  lemma RegTextLength(text: wstring)
    requires IsRegText(text)
    ensures |text| > 4 && IsBlank(text[3])
  {
    assert text[3] == text[..4][3] == W("reg ")[3];
  }

  lemma RestIs(q: wstring)
    requires FirstBlank(q, 0) == 3
    ensures RestOf(q) == q[4..]
  {}

  lemma OneCommandRuns(q: wstring, text: wstring, args: seq<wstring>, ops: seq<Operation>, env: Env)
    requires StripAt(TrimWhitespace(text)) == q && VerbOf(q) == REG && IsRegVerb(REG) && IsPlainEnv(env)
    requires Arguments(RestOf(q)) == args && args != [] && !EqualsInsensitive(args[0], QUERY)
    requires ApplyReg(args) == Some(ops)
    ensures RunCommands([Command(text, [])], 0, env) == Running(env.(output := env.output + ops), true)
  {
    hide StripAt, TrimWhitespace, VerbOf, RestOf, IsRegVerb, Arguments, EqualsInsensitive, ApplyReg, IsHarmless, W;
    var commands := [Command(text, [])];
    assert RunCommand(commands, 0, env) == Running(env.(output := env.output + ops), false);
    assert RunCommands(commands, 1, env.(output := env.output + ops))
      == Running(env.(output := env.output + ops), true);
  }

  lemma LineRuns(line: wstring, raw: wstring, commands: seq<Command>, env: Env)
    requires StripAt(TrimWhitespace(line)) == line && !IsSkipped(line) && IsPlainEnv(env)
    requires Expanded(line, map[]) == Some(raw) && Commands(raw) == Some(commands)
    ensures RunLine(line, env) == RunCommands(commands, 0, env)
  {
    hide StripAt, TrimWhitespace, IsSkipped, Expanded, Commands, RunCommands;
  }

  lemma RegIsWord()
    ensures IsWordText(REG) && |REG| == 3
  {}

  lemma RegIsVerb()
    ensures IsRegVerb(REG)
  {}

  // ----- the writer's lines

  predicate StartsReg(text: wstring) {
    |text| > 4 && text[..4] == W("reg ")
  }

  lemma StartsRegConcat(a: wstring, b: wstring)
    requires StartsReg(a)
    ensures StartsReg(a + b)
  {
    assert (a + b)[..4] == a[..4];
  }

  lemma VerbsStartReg()
    ensures StartsReg(W("reg add ")) && StartsReg(W("reg delete ")) && StartsReg(W("reg query "))
  {}

  lemma EndsSolid(a: wstring, b: wstring)
    requires StartsReg(a) && b != [] && !IsSpace(b[|b| - 1])
    ensures IsRegText(a + b)
  {
    assert (a + b)[..4] == a[..4];
  }

  lemma TailsEndSolid()
    ensures W(" /f") != [] && !IsSpace(W(" /f")[|W(" /f")| - 1])
    ensures QUIET != [] && !IsSpace(QUIET[|QUIET| - 1]) && SILENT != [] && !IsSpace(SILENT[|SILENT| - 1])
    ensures PERCENT !in QUIET && PERCENT !in SILENT
  {}

  /** A forced command whose output goes to nul, and perhaps its errors too. */
  lemma RunsForced(p: wstring, q: wstring, args: seq<wstring>, silent: bool, ops: seq<Operation>, env: Env)
    requires Piece(p, q, [REG] + args) && StartsReg(p) && StartsReg(q) && IsPlainEnv(env)
    requires args != [] && !EqualsInsensitive(args[0], QUERY) && ApplyReg(args + [W("/f")]) == Some(ops)
    ensures RunLine(p + W(" /f") + (if silent then SILENT
                                    else QUIET), env) == Running(env.(output := env.output + ops), true)
  {
    hide *;
    var tail := if silent then SILENT else QUIET;
    var p1, q1 := p + W(" /f"), q + W(" /f");
    CommandWithForce(p, q, [REG] + args);
    PieceParts(p1, q1, [REG] + args + [W("/f")]);
    TailsEndSolid();
    ExpandsPlain(tail);
    ExpandsConcat(p1, q1, tail, tail);
    StartsRegConcat(p, W(" /f"));
    EndsSolid(q, W(" /f"));
    EndsSolid(p1, tail);
    ConcatAssoc([REG], args, [W("/f")]);
    if silent { SilentSplits(q1); } else { QuietSplits(q1); }
    RunsRegCommand(p1 + tail, q1 + tail, q1, if silent then [SPACE, SPACE] else [SPACE], args + [W("/f")], ops, env);
  }

  lemma PieceParts(p: wstring, q: wstring, args: seq<wstring>)
    requires Piece(p, q, args)
    ensures Expands(p, q) && IsInert(q) && Yields(q, args)
  {}

  lemma TailOf(head: wstring)
    ensures head + W(" /f >nul") == head + W(" /f") + QUIET && head + W(" /f >nul 2>&1") == head + W(" /f") + SILENT
  {
    Starts();
    ConcatAssoc(head, W(" /f"), QUIET);
    ConcatAssoc(head, W(" /f"), SILENT);
  }

  lemma RemoveKeyRuns(path: wstring, env: Env)
    requires Normalized(path) && IsPlainEnv(env)
    ensures RunLine(RemoveKeyLine(path), env) == Running(env.(output := env.output + [RemoveKey(path)]), true)
  {
    hide *;
    var verb, key := W("reg delete "), Abbreviated(path);
    PieceStarts();
    BlankEnds();
    VerbsStartReg();
    PieceHead(verb, [REG, DELETE], path);
    StartsRegConcat(verb, KeyText(path));
    StartsRegConcat(verb, RawKey(path));
    var args := [DELETE, key];
    assert [REG, DELETE] + [key] == [REG] + args;
    assert args + [W("/f")] == [DELETE, key, W("/f")];
    ApplyDelete(args + [W("/f")], path, None);
    IsAddOrDelete();
    RunsForced(verb + KeyText(path), verb + RawKey(path), args, true, [RemoveKey(path)], env);
    TailOf(verb + KeyText(path));
    RemoveKeyLineIs(path);
  }

  lemma RemoveKeyLineIs(path: wstring)
    ensures RemoveKeyLine(path) == W("reg delete ") + KeyText(path) + W(" /f >nul 2>&1")
  {}

  lemma RemoveValueLineIs(path: wstring, name: wstring)
    ensures RemoveValueLine(path, name)
            == W("reg delete ") + KeyText(path) + W(" ") + NameText(name) + W(" /f >nul 2>&1")
  {}

  /** Positions of the arguments of a delete command for a value. */
  lemma DeleteArgs(key: wstring, names: seq<wstring>)
    ensures var args := [DELETE, key] + names + [W("/f")];
            && |args| == 3 + |names| && args[0] == DELETE && args[1] == key && args[2..2 + |names|] == names
               && args[|args| - 1] == W("/f")
    ensures [REG, DELETE] + [key] + [] + names == [REG] + ([DELETE, key] + names)
    ensures ([DELETE, key] + names)[0] == DELETE
  {}

  lemma RemoveValueRuns(path: wstring, name: wstring, env: Env)
    requires Normalized(path) && IsPlainEnv(env)
    ensures RunLine(RemoveValueLine(path, name), env)
            == Running(env.(output := env.output + [RemoveValue(path, name)]), true)
  {
    hide *;
    var verb, key := W("reg delete "), Abbreviated(path);
    PieceStarts();
    BlankEnds();
    VerbsStartReg();
    PieceNamed(verb, [REG, DELETE], path, name);
    var p, q := verb + KeyText(path) + W(" ") + NameText(name), verb + RawKey(path) + W(" ") + RawName(name);
    StartsRegConcat(verb, KeyText(path));
    StartsRegConcat(verb + KeyText(path), W(" "));
    StartsRegConcat(verb + KeyText(path) + W(" "), NameText(name));
    StartsRegConcat(verb, RawKey(path));
    StartsRegConcat(verb + RawKey(path), W(" "));
    StartsRegConcat(verb + RawKey(path) + W(" "), RawName(name));
    DeleteArgs(key, NameArgs(name));
    ApplyDelete([DELETE, key] + NameArgs(name) + [W("/f")], path, Some(name));
    IsAddOrDelete();
    RunsForced(p, q, [DELETE, key] + NameArgs(name), true, [RemoveValue(path, name)], env);
    TailOf(p);
    RemoveValueLineIs(path, name);
  }

  /** The arguments of an add command behind the name. */
  function TailArgs(kind: wstring, separator: wstring, data: wstring): seq<wstring> {
    [W("/t")] + [kind] + SeparatorArgs(separator) + [W("/d")] + [data]
  }

  lemma TailArgsAre(kind: wstring, separator: wstring, data: wstring)
    ensures var t := TailArgs(kind, separator, data) + [W("/f")];
            && |t| == 5 + |SeparatorArgs(separator)| && t[0] == W("/t") && t[1] == kind
            && (separator != DEFAULT_SEPARATOR ==> t[2] == W("/s") && t[3] == separator)
            && t[|t| - 3] == W("/d") && t[|t| - 2] == data && t[|t| - 1] == W("/f")
  {
    hide W;
  }

  lemma Regrouped(head: seq<wstring>, names: seq<wstring>, kind: wstring, separator: wstring, data: wstring)
    ensures head + names + [W("/t")] + [kind] + SeparatorArgs(separator) + [W("/d")] + [data]
            == head + names + TailArgs(kind, separator, data)
  {
    hide *;
    var t, s, d := [W("/t")], SeparatorArgs(separator), [W("/d")];
    var all := head + names;
    TailArgsIs(kind, separator, data);
  }

  lemma TailArgsIs(kind: wstring, separator: wstring, data: wstring)
    ensures TailArgs(kind, separator, data) == [W("/t")] + [kind] + SeparatorArgs(separator) + [W("/d")] + [data]
  {}

  lemma HeadTail(key: wstring, name: wstring, kind: wstring, separator: wstring, data: wstring)
    ensures var names, args := NameArgs(name), [ADD, key] + NameArgs(name) + TailArgs(kind, separator, data)
            + [W("/f")];
            && |args| >= 2 + |names| && args[0] == ADD && args[1] == key && args[2..2 + |names|] == names
            && HasTail(args, 2 + |names|, kind, separator, data)
  {
    hide W, NameArgs, TailArgs, SeparatorArgs;
    var tail := TailArgs(kind, separator, data) + [W("/f")];
    TailArgsAre(kind, separator, data);
    ConcatAssoc([ADD, key] + NameArgs(name), TailArgs(kind, separator, data), [W("/f")]);
    var args, i := [ADD, key] + NameArgs(name) + tail, 2 + |NameArgs(name)|;
    assert args[i] == tail[0] && args[i + 1] == tail[1] && args[i + (|tail| - 3)] == tail[|tail| - 3];
    assert args[i + (|tail| - 2)] == tail[|tail| - 2] && args[i + (|tail| - 1)] == tail[|tail| - 1];
    if separator != DEFAULT_SEPARATOR { assert args[i + 2] == tail[2] && args[i + 3] == tail[3]; }
  }

  /** Positions of the arguments of an add command. */
  lemma AddArgs(key: wstring, name: wstring, kind: wstring, separator: wstring, data: wstring)
    ensures var args := [ADD, key] + NameArgs(name) + TailArgs(kind, separator, data);
            && [REG, ADD] + [key] + [] + NameArgs(name) + [W("/t")] + [kind] + SeparatorArgs(separator) + [W("/d")]
               + [data] == [REG] + args
            && args[0] == ADD
  {
    hide *;
    var names, tail := NameArgs(name), TailArgs(kind, separator, data);
    assert [REG, ADD] + [key] + [] == [REG] + [ADD, key];
    Regrouped([REG, ADD] + [key] + [], names, kind, separator, data);
    ConcatAssoc([REG], [ADD, key], names);
    ConcatAssoc([REG], [ADD, key] + names, tail);
    assert ([ADD, key] + names + tail)[0] == ADD;
  }

  lemma ValueHeadStarts(path: wstring, value: RegistryValue, kind: wstring, data: wstring, separator: wstring)
    ensures StartsReg(ValueHead(path, value, kind, data, separator))
            && StartsReg(RawValueHead(path, value, kind, data, separator))
  {
    VerbsStartReg();
    hide W, StartsReg, Quoted, KeyText, RawKey, NameText, RawName, SeparatorText, RawSeparator;
    forall a, b | StartsReg(a) ensures StartsReg(a + b) { StartsRegConcat(a, b); }
  }

  lemma ValueLineIs(path: wstring, value: RegistryValue)
    requires BatchData(value).Some? && TypeName(value.kind).Some?
    ensures var (data, separator) := BatchData(value).value;
            ValueLine(path, value) == ValueHead(path, value, TypeName(value.kind).value, data, separator)
              + W(" /f >nul")
  {
    hide BatchData, TypeName, W, Quoted, KeyText, NameText, SeparatorText;
  }

  /** Data that a batch line can hold: its type has a name and its text gives the data back. */
  lemma BatchDataHolds(value: RegistryValue)
    requires BatchData(value).Some?
    ensures var (data, separator) := BatchData(value).value;
            BuildData(value.kind, data, separator) == Some(value.data)
              && (separator != DEFAULT_SEPARATOR ==> value.kind == REG_MULTI_SZ)
            && !HasLineBreak(data)
    ensures TypeName(value.kind).Some?
  {
    KindsAreNamed(value.kind);
    hide BuildData, HasLineBreak, TypeName, W;
  }

  lemma KindsAreNamed(kind: uint32)
    requires kind == REG_SZ || kind == REG_EXPAND_SZ || kind == REG_NONE || kind == REG_MULTI_SZ || IsNumberKind(kind)
             || kind == REG_BINARY
    ensures TypeName(kind).Some?
  {
    hide W;
    var i := if kind == REG_SZ then 0
             else if kind == REG_MULTI_SZ then 1 else if kind == REG_EXPAND_SZ then 2 else if kind == REG_DWORD then 3
             else if kind == REG_DWORD_BIG_ENDIAN then 5
             else if kind == REG_QWORD then 6 else if kind == REG_BINARY then 8 else 9;
    assert TYPES[i].kind == kind;
  }

  lemma ValueRuns(path: wstring, value: RegistryValue, env: Env)
    requires Normalized(path) && IsPlainEnv(env) && BatchData(value).Some?
    ensures RunLine(ValueLine(path, value), env) == Running(env.(output := env.output + [SetValue(path, value)]), true)
  {
    hide *;
    var (data, separator) := BatchData(value).value;
    BatchDataHolds(value);
    var kind, key := TypeName(value.kind).value, Abbreviated(path);
    TypeNameParses(value.kind);
    PieceValue(path, value, kind, data, separator);
    var p, q := ValueHead(path, value, kind, data, separator), RawValueHead(path, value, kind, data, separator);
    ValueHeadStarts(path, value, kind, data, separator);
    AddArgs(key, value.name, kind, separator, data);
    HeadTail(key, value.name, kind, separator, data);
    var args := [ADD, key] + NameArgs(value.name) + TailArgs(kind, separator, data);
    ApplyAdd(args + [W("/f")], path, value, kind, separator, data);
    ValueArgsAre(path, value.name, kind, data, separator);
    IsAddOrDelete();
    RunsForced(p, q, args, false, [SetValue(path, value)], env);
    TailOf(p);
    ValueLineIs(path, value);
  }

  lemma ValueArgsAre(path: wstring, name: wstring, kind: wstring, data: wstring, separator: wstring)
    ensures ValueArgs(path, name, kind, data, separator)
            == [REG, ADD] + [Abbreviated(path)] + [] + NameArgs(name) + [W("/t")] + [kind] + SeparatorArgs(separator)
              + [W("/d")] + [data]
  {}
}
