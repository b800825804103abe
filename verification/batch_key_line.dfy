/** The line that creates a key without touching its values, read back. */
module BatchKeyLine {
  import opened Text
  import opened ValueFormat
  import opened Operations
  import opened KeyPaths
  import opened RegExe
  import opened RegExeOptions
  import opened BatchSyntax
  import opened BatchPieces
  import opened BatchReader
  import opened BatchWriter
  import opened BatchLines
  import opened BatchRuns

  const TO_ADD := W(" >nul 2>&1 || (reg add ")
  const TO_DELETE := W(" /f >nul && reg delete ")
  const TO_END := W(" /ve /f >nul)")

  function RawKeyLine(key: wstring): wstring {
    W("reg query ") + key + TO_ADD + key + TO_DELETE + key + TO_END
  }

  function QueryText(key: wstring): wstring {
    W("reg query ") + key
  }

  function AddText(key: wstring): wstring {
    [SPACE] + W("reg add ") + key + W(" /f ") + [SPACE]
  }

  function DeleteText(key: wstring): wstring {
    W(" reg delete ") + key + W(" /ve /f ")
  }

  const SPACES := [SPACE, SPACE, SPACE]

  lemma InertTexts()
    ensures IsInert([SPACE]) && IsInert(W("reg query ")) && IsInert(W("reg add ")) && IsInert(W(" reg delete "))
    ensures IsInert(W(" /f ")) && IsInert(W(" /ve /f "))
  {
    hide IsInert;
    InertPlain([SPACE]);
    InertPlain(W("reg query "));
    InertPlain(W("reg add "));
    InertPlain(W(" reg delete "));
    InertPlain(W(" /f "));
    InertPlain(W(" /ve /f "));
  }

  lemma ToAddParts(line: wstring, i: nat)
    requires HasAt(line, i, TO_ADD)
    ensures HasAt(line, i, [SPACE]) && HasAt(line, i + 1, TO_NUL) && TargetStops(line, i + 5)
            && HasAt(line, i + 5, [SPACE])
    ensures HasAt(line, i + 6, ERR_TO_OUT) && HasAt(line, i + 10, [SPACE]) && HasAt(line, i + 11, [BAR, BAR])
    ensures HasAt(line, i + 13, [SPACE]) && HasAt(line, i + 14, [LPAREN]) && HasAt(line, i + 15, W("reg add "))
            && |TO_ADD| == 23
  {
    var tail := [SPACE] + ([LPAREN] + W("reg add "));
    var middle := [SPACE] + ([BAR, BAR] + tail);
    assert TO_ADD == SILENT + middle;
    HasAtSplit(line, i, SILENT, middle);
    SilentParts(line, i);
    HasAtSplit(line, i + 10, [SPACE], [BAR, BAR] + tail);
    HasAtSplit(line, i + 11, [BAR, BAR], tail);
    HasAtSplit(line, i + 13, [SPACE], [LPAREN] + W("reg add "));
    HasAtSplit(line, i + 14, [LPAREN], W("reg add "));
  }

  lemma ToDeleteParts(line: wstring, i: nat)
    requires HasAt(line, i, TO_DELETE)
    ensures HasAt(line, i, W(" /f ")) && HasAt(line, i + 4, TO_NUL) && TargetStops(line, i + 8)
            && HasAt(line, i + 8, [SPACE])
    ensures HasAt(line, i + 9, [AMP, AMP]) && HasAt(line, i + 11, W(" reg delete ")) && |TO_DELETE| == 23
    ensures |W(" /f ")| == 4 && |W(" reg delete ")| == 12
  {
    var tail := [SPACE] + ([AMP, AMP] + W(" reg delete "));
    assert TO_DELETE == W(" /f ") + (TO_NUL + tail);
    HasAtSplit(line, i, W(" /f "), TO_NUL + tail);
    HasAtSplit(line, i + 4, TO_NUL, tail);
    HasAtSplit(line, i + 8, [SPACE], [AMP, AMP] + W(" reg delete "));
    HasAtSplit(line, i + 9, [AMP, AMP], W(" reg delete "));
    HasAtUnit(line, i + 8, [SPACE]);
    assert REDIRECT_STOPS[0] == SPACE;
  }

  lemma ToEndParts(line: wstring, i: nat)
    requires HasAt(line, i, TO_END)
    ensures HasAt(line, i, W(" /ve /f ")) && HasAt(line, i + 8, TO_NUL) && TargetStops(line, i + 12)
            && HasAt(line, i + 12, [RPAREN])
    ensures |W(" /ve /f ")| == 8 && |TO_END| == 13
  {
    assert TO_END == W(" /ve /f ") + (TO_NUL + [RPAREN]);
    HasAtSplit(line, i, W(" /ve /f "), TO_NUL + [RPAREN]);
    HasAtSplit(line, i + 8, TO_NUL, [RPAREN]);
    HasAtUnit(line, i + 12, [RPAREN]);
    assert REDIRECT_STOPS[6] == RPAREN;
  }

  /** Where the six parts of the line are. */
  lemma LineParts(key: wstring)
    ensures var line, k, a := RawKeyLine(key), |key|, |W("reg query ")|;
            && HasAt(line, 0, QueryText(key)) && HasAt(line, a + k, TO_ADD) && HasAt(line, a + k + 23, key)
            && HasAt(line, a + 2 * k + 23, TO_DELETE) && HasAt(line, a + 2 * k + 46, key)
               && HasAt(line, a + 3 * k + 46, TO_END)
            && |line| == a + 3 * k + 59 && |QueryText(key)| == a + k
  {
    hide *;
    var line := RawKeyLine(key);
    var r1 := QueryText(key);
    var r2 := r1 + TO_ADD;
    var r3 := r2 + key;
    var r4 := r3 + TO_DELETE;
    var r5 := r4 + key;
    PartLengths(key);
    HasAtAll(line);
    HasAtSplit(line, 0, r5, TO_END);
    HasAtSplit(line, 0, r4, key);
    HasAtSplit(line, 0, r3, TO_DELETE);
    HasAtSplit(line, 0, r2, key);
    HasAtSplit(line, 0, r1, TO_ADD);
  }

  lemma PartLengths(key: wstring)
    ensures RawKeyLine(key) == QueryText(key) + TO_ADD + key + TO_DELETE + key + TO_END
    ensures |QueryText(key)| == |W("reg query ")| + |key| && |TO_ADD| == 23 && |TO_DELETE| == 23 && |TO_END| == 13
  {}

  lemma TextSteps(key: wstring)
    ensures [] + QueryText(key) == QueryText(key) && [] + [SPACE] == [SPACE]
    ensures QueryText(key) + [SPACE] + [SPACE] + [SPACE] == QueryText(key) + SPACES
    ensures EndsInSpace(QueryText(key) + [SPACE]) && EndsInSpace(QueryText(key) + [SPACE] + [SPACE])
    ensures EndsInSpace([SPACE] + W("reg add ") + key + W(" /f ")) && EndsInSpace(DeleteText(key))
    ensures [] + W(" reg delete ") == W(" reg delete ")
  {
    assert EndsInSpace(W(" /f ")) && EndsInSpace(W(" /ve /f "));
    hide W;
  }

  /** The three commands of the line. */
  function EnsureCommands(key: wstring): seq<Command> {
    [Command(QueryText(key) + SPACES, []), Command(AddText(key), OR_ELSE), Command(DeleteText(key), AND_THEN)]
  }

  /** From the query up to the add command. */
  lemma SplitToAdd(line: wstring, key: wstring, i: nat)
    requires HasAt(line, 0, QueryText(key)) && i == |QueryText(key)| && HasAt(line, i, TO_ADD)
             && IsInert(QueryText(key))
    ensures CommandsFrom(line, 0, false, [], Command([], []))
            == CommandsFrom(line, i + 23, false, [Command(QueryText(key) + SPACES, [])],
                            Command([SPACE] + W("reg add "), OR_ELSE))
  {
    hide *;
    var q := QueryText(key);
    InertTexts();
    ToAddParts(line, i);
    TextSteps(key);
    SplitInert(line, 0, q, [], Command([], []));
    SplitInert(line, i, [SPACE], [], Command(q, []));
    SplitNul(line, i + 1, [], Command(q + [SPACE], []));
    SplitInert(line, i + 5, [SPACE], [], Command(q + [SPACE], []));
    SplitErr(line, i + 6, [], Command(q + [SPACE] + [SPACE], []));
    SplitInert(line, i + 10, [SPACE], [], Command(q + [SPACE] + [SPACE], []));
    SplitDouble(line, i + 11, BAR, [], Command(q + SPACES, []));
    var done := [Command(q + SPACES, [])];
    OneCommand(done[0]);
    SplitInert(line, i + 13, [SPACE], done, Command([], [BAR, BAR]));
    SplitParen(line, i + 14, LPAREN, done, Command([SPACE], [BAR, BAR]));
    SplitInert(line, i + 15, W("reg add "), done, Command([SPACE], [BAR, BAR]));
    SeparatorsAre();
  }

  lemma SeparatorsAre()
    ensures OR_ELSE == [BAR, BAR] && AND_THEN == [AMP, AMP] && (AMP == BAR || AMP == AMP)
  {}

  /** From the add command up to the delete command. */
  lemma SplitToDelete(line: wstring, key: wstring, i: nat, done: seq<Command>)
    requires HasAt(line, i, key) && HasAt(line, i + |key|, TO_DELETE) && IsInert(key)
    ensures CommandsFrom(line, i, false, done, Command([SPACE] + W("reg add "), OR_ELSE))
            == CommandsFrom(line, i + |key| + 23, false, done
                            + [Command(AddText(key), OR_ELSE)], Command(W(" reg delete "), AND_THEN))
  {
    hide *;
    var j := i + |key|;
    InertTexts();
    ToDeleteParts(line, j);
    TextSteps(key);
    SeparatorsAre();
    AddTextIs(key);
    var t := [SPACE] + W("reg add ");
    SplitInert(line, i, key, done, Command(t, OR_ELSE));
    SplitInert(line, j, W(" /f "), done, Command(t + key, OR_ELSE));
    SplitNul(line, j + 4, done, Command(t + key + W(" /f "), OR_ELSE));
    SplitInert(line, j + 8, [SPACE], done, Command(t + key + W(" /f "), OR_ELSE));
    SplitDouble(line, j + 9, AMP, done, Command(AddText(key), OR_ELSE));
    SplitInert(line, j + 11, W(" reg delete "), done + [Command(AddText(key), OR_ELSE)], Command([], [AMP, AMP]));
  }

  lemma AddTextIs(key: wstring)
    ensures AddText(key) == [SPACE] + W("reg add ") + key + W(" /f ") + [SPACE]
    ensures DeleteText(key) == W(" reg delete ") + key + W(" /ve /f ")
  {}

  /** From the delete command to the end. */
  lemma SplitToEnd(line: wstring, key: wstring, i: nat, done: seq<Command>)
    requires HasAt(line, i, key) && HasAt(line, i + |key|, TO_END) && |line| == i + |key| + 13 && IsInert(key)
    ensures CommandsFrom(line, i, false, done, Command(W(" reg delete "), AND_THEN))
            == Some(done + [Command(DeleteText(key), AND_THEN)])
  {
    hide *;
    var j := i + |key|;
    InertTexts();
    ToEndParts(line, j);
    TextSteps(key);
    AddTextIs(key);
    SplitInert(line, i, key, done, Command(W(" reg delete "), AND_THEN));
    SplitInert(line, j, W(" /ve /f "), done, Command(W(" reg delete ") + key, AND_THEN));
    SplitNul(line, j + 8, done, Command(DeleteText(key), AND_THEN));
    SplitParen(line, j + 12, RPAREN, done, Command(DeleteText(key), AND_THEN));
    SplitEnd(line, done, Command(DeleteText(key), AND_THEN));
  }

  lemma KeyLineSplits(key: wstring)
    requires IsInert(key)
    ensures Commands(RawKeyLine(key)) == Some(EnsureCommands(key))
  {
    hide *;
    var line, k, a := RawKeyLine(key), |key|, |W("reg query ")|;
    LineParts(key);
    InertTexts();
    InertConcat(W("reg query "), key);
    QueryTextIs(key);
    CommandsStart(line);
    SplitToAdd(line, key, a + k);
    var done := [Command(QueryText(key) + SPACES, [])];
    SplitToDelete(line, key, a + k + 23, done);
    SplitToEnd(line, key, a + 2 * k + 46, done + [Command(AddText(key), OR_ELSE)]);
    EnsureCommandsAre(key);
  }

  lemma QueryTextIs(key: wstring)
    ensures QueryText(key) == W("reg query ") + key
  {}

  lemma EnsureCommandsAre(key: wstring)
    ensures [Command(QueryText(key) + SPACES, [])] + [Command(AddText(key), OR_ELSE)]
            + [Command(DeleteText(key), AND_THEN)] == EnsureCommands(key)
  {}

  // ----- what it means

  lemma SpacedWords()
    ensures [SPACE] + W("reg add ") == [SPACE] + (W("reg") + [SPACE] + (W("add") + [SPACE]))
    ensures W(" reg delete ") == [SPACE] + W("reg delete ")
            && W(" /ve /f ") == [SPACE] + VE + [SPACE] + (W("/f") + [SPACE])
    ensures W(" /f ") == [SPACE] + W("/f") + [SPACE] && SPACES == [SPACE] + ([SPACE] + [SPACE])
    ensures StartsBlank(W(" /f ")) && StartsBlank(W(" /ve /f ")) && EndsBlank(W(" reg delete "))
            && EndsBlank(W("reg add "))
    ensures StartsBlank(SPACES) && StartsBlank([SPACE]) && EndsBlank([SPACE]) && EndsBlank([SPACE] + W("reg add "))
            && EndsBlank([SPACE] + VE + [SPACE])
    ensures W("reg add ") != [] && W(" /f ") != [] && W(" /ve /f ") != [] && W("reg delete ") != []
  {}

  /** The blanks around a piece add no arguments. */
  lemma YieldsLiterals()
    ensures Yields([SPACE] + W("reg add "), [REG, ADD]) && Yields(W(" reg delete "), [REG, DELETE])
    ensures Yields(W(" /f "), [W("/f")]) && Yields(W(" /ve /f "), [VE, W("/f")]) && Yields(SPACES, [])
  {
    hide *;
    SpacedWords();
    PieceStarts();
    WordsArePlain();
    PieceParts(W("reg add "), W("reg add "), [REG, ADD]);
    PieceParts(W("reg delete "), W("reg delete "), [REG, DELETE]);
    YieldsBlank();
    YieldsConcat([SPACE], [], W("reg add "), [REG, ADD]);
    YieldsConcat([SPACE], [], W("reg delete "), [REG, DELETE]);
    PieceSpaced(W("/f"));
    PieceSpaced(VE);
    PieceParts([SPACE] + W("/f") + [SPACE], [SPACE] + W("/f") + [SPACE], [W("/f")]);
    PieceParts(W("/f") + [SPACE], W("/f") + [SPACE], [W("/f")]);
    PieceParts([SPACE] + VE + [SPACE], [SPACE] + VE + [SPACE], [VE]);
    EndsBlankConcat(W("/f"), [SPACE]);
    YieldsConcat([SPACE] + VE + [SPACE], [VE], W("/f") + [SPACE], [W("/f")]);
    var none: seq<wstring> := [];
    assert none + none == none;
    YieldsConcat([SPACE], none, [SPACE], none);
    EndsBlankConcat([SPACE], [SPACE]);
    YieldsConcat([SPACE], none, [SPACE] + [SPACE], none);
    ArgLists();
  }

  lemma ArgLists()
    ensures [] + [REG, ADD] == [REG, ADD] && [] + [REG, DELETE] == [REG, DELETE] && [VE] + [W("/f")] == [VE, W("/f")]
  {}

  lemma EnsureArguments(text: wstring)
    ensures var key := Quoted(text, false);
            && RegArguments(Command(QueryText(key) + SPACES, [])) == [QUERY, text]
            && RegArguments(Command(AddText(key), OR_ELSE)) == [ADD, text, W("/f")]
            && RegArguments(Command(DeleteText(key), AND_THEN)) == [DELETE, text, VE, W("/f")]
            && Yields(QueryText(key), [REG, QUERY, text])
  {
    hide *;
    var key := Quoted(text, false);
    YieldsLiterals();
    SpacedWords();
    BlankEnds();
    PieceStarts();
    PieceParts(W("reg query "), W("reg query "), [REG, QUERY]);
    YieldsQuoted(text);
    PieceQuoted(text);
    YieldsConcat(W("reg query "), [REG, QUERY], key, [text]);
    QueryTextIs(key);
    YieldsConcat(QueryText(key), [REG, QUERY] + [text], SPACES, []);
    YieldsWhole(QueryText(key) + SPACES, [REG, QUERY] + [text] + []);
    AddTextIs(key);
    YieldsConcat([SPACE] + W("reg add "), [REG, ADD], key, [text]);
    YieldsConcat([SPACE] + W("reg add ") + key, [REG, ADD] + [text], W(" /f "), [W("/f")]);
    YieldsBlank();
    YieldsConcat([SPACE] + W("reg add ") + key + W(" /f "), [REG, ADD] + [text] + [W("/f")], [SPACE], []);
    YieldsWhole(AddText(key), [REG, ADD] + [text] + [W("/f")] + []);
    YieldsConcat(W(" reg delete "), [REG, DELETE], key, [text]);
    YieldsConcat(W(" reg delete ") + key, [REG, DELETE] + [text], W(" /ve /f "), [VE, W("/f")]);
    YieldsWhole(DeleteText(key), [REG, DELETE] + [text] + [VE, W("/f")]);
    RegArgumentsAre(QueryText(key) + SPACES, [], [REG, QUERY] + [text] + []);
    RegArgumentsAre(AddText(key), OR_ELSE, [REG, ADD] + [text] + [W("/f")] + []);
    RegArgumentsAre(DeleteText(key), AND_THEN, [REG, DELETE] + [text] + [VE, W("/f")]);
    ArgTails(text);
  }

  lemma RegArgumentsAre(text: wstring, separator: wstring, args: seq<wstring>)
    requires Arguments(text) == args && args != []
    ensures RegArguments(Command(text, separator)) == args[1..]
  {}

  lemma ArgTails(text: wstring)
    ensures [REG, QUERY] + [text] == [REG, QUERY, text] && ([REG, QUERY] + [text] + [])[1..] == [QUERY, text]
    ensures ([REG, ADD] + [text] + [W("/f")] + [])[1..] == [ADD, text, W("/f")]
    ensures ([REG, DELETE] + [text] + [VE, W("/f")])[1..] == [DELETE, text, VE, W("/f")]
  {}

  lemma SwitchesAreRead()
    ensures IsSwitch(W("/f"), W("f")) && IsSwitch(VE, W("ve"))
  {}

  lemma EnsureKeyHolds(text: wstring)
    ensures IsEnsureKey(EnsureCommands(Quoted(text, false)), 0)
  {
    EnsureArguments(text);
    SwitchesAreRead();
    IsAddOrDelete();
    hide RegArguments, IsSwitch, EqualsInsensitive, QueryText, AddText, DeleteText, Quoted, W, Yields;
  }

  lemma RunsEnsure(key: wstring, text: wstring, path: wstring, env: Env)
    requires IsEnsureKey(EnsureCommands(key), 0) && NormalizeKeyPath(text) == Some(path) && IsPlainEnv(env)
    requires var q := QueryText(key);
             StripAt(TrimWhitespace(q + SPACES)) == q && VerbOf(q) == REG && Arguments(RestOf(q)) == [QUERY, text]
    requires IsRegVerb(REG) && EqualsInsensitive(QUERY, QUERY)
    ensures RunCommands(EnsureCommands(key), 0, env) == Running(env.(output := env.output + [Key(path)]), true)
  {
    hide IsEnsureKey, NormalizeKeyPath, StripAt, TrimWhitespace, VerbOf, RestOf, Arguments, IsRegVerb;
    hide EqualsInsensitive, ApplyReg, IsHarmless,
      QueryText, AddText, DeleteText, W;
    var commands := EnsureCommands(key);
    assert RunCommand(commands, 0, env) == Running(env.(output := env.output + [Key(path)]), true);
  }

  lemma KeyLineExpands(path: wstring)
    ensures Expands(KeyLine(path), RawKeyLine(RawKey(path)))
    ensures IsRegText(KeyLine(path)) && IsRegText(QueryText(RawKey(path)))
  {
    hide Expands, IsRegText, StartsReg, Quoted;
    var p, q := KeyText(path), RawKey(path);
    ExpandsQuoted(Abbreviated(path));
    VerbsStartReg();
    ExpandsPlain(W("reg query "));
    ExpandsPlain(TO_ADD);
    ExpandsPlain(TO_DELETE);
    ExpandsPlain(TO_END);
    hide W, KeyText, RawKey, Abbreviated;
    var verb := W("reg query ");
    ExpandsConcat(verb, verb, p, q);
    ExpandsConcat(verb + p, verb + q, TO_ADD, TO_ADD);
    ExpandsConcat(verb + p + TO_ADD, verb + q + TO_ADD, p, q);
    ExpandsConcat(verb + p + TO_ADD + p, verb + q + TO_ADD + q, TO_DELETE, TO_DELETE);
    ExpandsConcat(verb + p + TO_ADD + p + TO_DELETE, verb + q + TO_ADD + q + TO_DELETE, p, q);
    ExpandsConcat(verb + p + TO_ADD + p + TO_DELETE + p, verb + q + TO_ADD + q + TO_DELETE + q, TO_END, TO_END);
    StartsRegConcat(verb, p);
    StartsRegConcat(verb + p, TO_ADD);
    StartsRegConcat(verb + p + TO_ADD, p);
    StartsRegConcat(verb + p + TO_ADD + p, TO_DELETE);
    StartsRegConcat(verb + p + TO_ADD + p + TO_DELETE, p);
    EndsSolid(verb + p + TO_ADD + p + TO_DELETE + p, TO_END);
    KeyEndsSolid(path);
    EndsSolid(verb, q);
  }

  lemma KeyEndsSolid(path: wstring)
    ensures RawKey(path) != [] && !IsSpace(RawKey(path)[|RawKey(path)| - 1])
  {
    QuotedEndsInQuote(Abbreviated(path));
    hide Quoted, Abbreviated;
  }

  lemma SpacesAreSpaces()
    ensures forall i :: 0 <= i < |SPACES| ==> SPACES[i] == SPACE
  {}

  /** Reading the line back gives the key operation. */
  lemma KeyRuns(path: wstring, env: Env)
    requires Normalized(path) && IsPlainEnv(env)
    ensures RunLine(KeyLine(path), env) == Running(env.(output := env.output + [Key(path)]), true)
  {
    hide *;
    var key, text := RawKey(path), Abbreviated(path);
    RawKeyIs(path);
    KeyLineExpands(path);
    QuotedIsInert(text);
    KeyLineSplits(key);
    EnsureKeyHolds(text);
    EnsureArguments(text);
    AbbreviatedNormalizes(path);
    RegTextFacts(KeyLine(path));
    RegTextFacts(QueryText(key));
    SpacesAreSpaces();
    SpacesTrim(QueryText(key), SPACES);
    RegIsWord();
    RegIsVerb();
    IsAddOrDelete();
    YieldsWhole(QueryText(key), [REG, QUERY, text]);
    RegTextLength(QueryText(key));
    ArgumentsBehindVerb(QueryText(key), REG, [QUERY, text]);
    RestIs(QueryText(key));
    RunsEnsure(key, text, path, env);
    ExpandsWhole(KeyLine(path), RawKeyLine(key));
    LineRuns(KeyLine(path), RawKeyLine(key), EnsureCommands(key), env);
  }

  lemma RawKeyIs(path: wstring)
    ensures RawKey(path) == Quoted(Abbreviated(path), false)
  {}
}
