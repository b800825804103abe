/** The lines of a batch script, read back one at a time. */
module BatchLines {
  import opened Text
  import opened ValueFormat
  import opened KeyPaths
  import opened RegExe
  import opened RegExeOptions
  import opened BatchSyntax
  import opened BatchLayers
  import opened BatchPieces
  import opened BatchReader
  import opened BatchWriter

  // ----- pieces of lines

  /** p expands to q, which the splitter takes over and which adds the arguments. */
  ghost predicate Piece(p: wstring, q: wstring, args: seq<wstring>) {
    Expands(p, q) && IsInert(q) && Yields(q, args)
  }

  lemma PieceConcat(p0: wstring, q0: wstring, a0: seq<wstring>, p1: wstring, q1: wstring, a1: seq<wstring>)
    requires Piece(p0, q0, a0) && Piece(p1, q1, a1)
    requires q1 != [] && (EndsBlank(q0) || StartsBlank(q1))
    ensures Piece(p0 + p1, q0 + q1, a0 + a1)
  {
    hide Expands, IsInert, Yields;
    ExpandsConcat(p0, q0, p1, q1);
    InertConcat(q0, q1);
    YieldsConcat(q0, a0, q1, a1);
  }

  lemma PieceQuoted(text: wstring)
    ensures Piece(Quoted(text, true), Quoted(text, false), [text])
    ensures Quoted(text, false) != [] && !StartsBlank(Quoted(text, false)) && !EndsBlank(Quoted(text, false))
  {
    hide Expands, IsInert, Yields;
    ExpandsQuoted(text);
    YieldsQuoted(text);
    QuotedEndsInQuote(text);
    assert IsInert(Quoted(text, false)) by { QuotedIsInert(text); }
  }

  lemma QuotedIsInert(text: wstring)
    ensures IsInert(Quoted(text, false))
  {
    QuotedPasses(text);
  }

  predicate IsPlainWord(w: wstring) {
    w != []
    && forall i :: 0 <= i < |w| ==>
         !IsBlank(w[i]) && w[i] != DQUOTE && w[i] != BACKSLASH && w[i] != PERCENT && w[i] != LF && !IsActive(w[i])
  }

  lemma PieceWord(w: wstring)
    requires IsPlainWord(w)
    ensures Piece(w, w, [w])
  {
    InertPlain(w);
    ExpandsPlain(w);
    YieldsWord(w);
  }

  lemma PieceSpace()
    ensures Piece([SPACE], [SPACE], [])
  {
    InertPlain([SPACE]);
    ExpandsPlain([SPACE]);
    YieldsBlank();
  }

  /** A word between spaces. */
  lemma PieceSpaced(w: wstring)
    requires IsPlainWord(w)
    ensures Piece([SPACE] + w, [SPACE] + w, [w])
    ensures Piece(w + [SPACE], w + [SPACE], [w])
    ensures Piece([SPACE] + w + [SPACE], [SPACE] + w + [SPACE], [w])
  {
    hide Piece;
    PieceSpace();
    PieceWord(w);
    PieceConcat([SPACE], [SPACE], [], w, w, [w]);
    PieceConcat(w, w, [w], [SPACE], [SPACE], []);
    assert [] + [w] == [w];
    PieceConcat([SPACE] + w, [SPACE] + w, [w], [SPACE], [SPACE], []);
    assert [] + [w] == [w] && [w] + [] == [w];
  }

  lemma PieceTwoWords(a: wstring, b: wstring)
    requires IsPlainWord(a) && IsPlainWord(b)
    ensures Piece(a + [SPACE] + (b + [SPACE]), a + [SPACE] + (b + [SPACE]), [a, b])
  {
    hide Piece;
    PieceSpaced(a);
    PieceSpaced(b);
    PieceConcat(a + [SPACE], a + [SPACE], [a], b + [SPACE], b + [SPACE], [b]);
    assert [a] + [b] == [a, b];
  }

  lemma LiteralIsPlain(s: string)
    requires |s| > 0
    requires forall i :: 0 <= i < |s| ==> 'A' <= s[i] <= 'Z' || 'a' <= s[i] <= 'z' || s[i] == '_' || s[i] == '/'
    ensures IsPlainWord(W(s))
  {}

  lemma WordsArePlain()
    ensures IsPlainWord(REG) && IsPlainWord(ADD) && IsPlainWord(DELETE) && IsPlainWord(QUERY)
    ensures IsPlainWord(W("/v")) && IsPlainWord(VE) && IsPlainWord(W("/t")) && IsPlainWord(W("/s"))
            && IsPlainWord(W("/d")) && IsPlainWord(W("/f"))
  {
    hide IsPlainWord;
    LiteralIsPlain("reg");
    LiteralIsPlain("add");
    LiteralIsPlain("delete");
    LiteralIsPlain("query");
    LiteralIsPlain("/v");
    LiteralIsPlain("/ve");
    LiteralIsPlain("/t");
    LiteralIsPlain("/s");
    LiteralIsPlain("/d");
    LiteralIsPlain("/f");
  }

  lemma Starts()
    ensures W("reg add ") == REG + [SPACE] + (ADD + [SPACE])
    ensures W("reg delete ") == REG + [SPACE] + (DELETE + [SPACE])
    ensures W("reg query ") == REG + [SPACE] + (QUERY + [SPACE])
    ensures W(" ") == [SPACE] && W(" /t ") == [SPACE] + W("/t") + [SPACE] && W(" /s ") == [SPACE] + W("/s") + [SPACE]
    ensures W(" /d ") == [SPACE] + W("/d") + [SPACE] && W(" /f") == [SPACE] + W("/f") && W("/v ") == W("/v") + [SPACE]
    ensures W(" /f >nul") == W(" /f") + W(" >nul") && W(" /f >nul 2>&1") == W(" /f") + W(" >nul 2>&1")
  {}

  lemma PieceStarts()
    ensures Piece(W("reg add "), W("reg add "), [REG, ADD])
    ensures Piece(W("reg delete "), W("reg delete "), [REG, DELETE])
    ensures Piece(W("reg query "), W("reg query "), [REG, QUERY])
  {
    hide Piece;
    WordsArePlain();
    Starts();
    hide W;
    PieceTwoWords(REG, ADD);
    PieceTwoWords(REG, DELETE);
    PieceTwoWords(REG, QUERY);
  }

  lemma PieceSwitches()
    ensures Piece(W(" "), W(" "), [])
    ensures Piece(W(" /t "), W(" /t "), [W("/t")]) && Piece(W(" /s "), W(" /s "), [W("/s")])
            && Piece(W(" /d "), W(" /d "), [W("/d")])
    ensures Piece(W(" /f"), W(" /f"), [W("/f")]) && Piece(W("/v "), W("/v "), [W("/v")]) && Piece(VE, VE, [VE])
  {
    hide Piece;
    WordsArePlain();
    Starts();
    hide W;
    PieceSpace();
    PieceSpaced(W("/t"));
    PieceSpaced(W("/s"));
    PieceSpaced(W("/d"));
    PieceSpaced(W("/f"));
    PieceSpaced(W("/v"));
    PieceWord(VE);
  }

  lemma BlankEnds()
    ensures EndsBlank(W("reg add ")) && EndsBlank(W("reg delete ")) && EndsBlank(W("reg query "))
    ensures StartsBlank(W(" ")) && EndsBlank(W(" ")) && StartsBlank(W(" /t ")) && EndsBlank(W(" /t "))
    ensures StartsBlank(W(" /s ")) && EndsBlank(W(" /s ")) && StartsBlank(W(" /d ")) && EndsBlank(W(" /d "))
    ensures StartsBlank(W(" /f")) && EndsBlank(W("/v ")) && VE != []
  {}

  lemma EndsBlankConcat(a: wstring, b: wstring)
    ensures EndsBlank(b) ==> EndsBlank(a + b)
    ensures StartsBlank(a) ==> StartsBlank(a + b)
  {}

  // ----- names, separators and the command up to its last switch

  function RawName(name: wstring): wstring {
    if name == [] then W("/ve") else W("/v ") + Quoted(name, false)
  }

  function NameArgs(name: wstring): seq<wstring> {
    if name == [] then [VE] else [W("/v"), name]
  }

  lemma PieceName(name: wstring)
    ensures Piece(NameText(name), RawName(name), NameArgs(name)) && RawName(name) != []
  {
    hide Piece, Quoted;
    PieceSwitches();
    BlankEnds();
    if name != [] {
      PieceQuoted(name);
      PieceConcat(W("/v "), W("/v "), [W("/v")], Quoted(name, true), Quoted(name, false), [name]);
      assert [W("/v")] + [name] == [W("/v"), name];
    }
  }

  function RawSeparator(separator: wstring): wstring {
    if separator == DEFAULT_SEPARATOR then [] else W(" /s ") + Quoted(separator, false)
  }

  function SeparatorArgs(separator: wstring): seq<wstring> {
    if separator == DEFAULT_SEPARATOR then [] else [W("/s"), separator]
  }

  /** The separator behind a text that is an argument of its own. */
  lemma PieceSeparator(p: wstring, q: wstring, args: seq<wstring>, separator: wstring)
    requires Piece(p, q, args)
    ensures Piece(p + SeparatorText(separator), q + RawSeparator(separator), args + SeparatorArgs(separator))
  {
    hide Piece, Quoted;
    if separator == DEFAULT_SEPARATOR {
      assert p + [] == p && q + [] == q && args + [] == args;
    } else {
      PieceSwitches();
      BlankEnds();
      PieceQuoted(separator);
      PieceConcat(W(" /s "), W(" /s "), [W("/s")], Quoted(separator, true), Quoted(separator, false), [separator]);
      EndsBlankConcat(W(" /s "), Quoted(separator, false));
      assert [W("/s")] + [separator] == [W("/s"), separator];
      PieceConcat(p, q, args, W(" /s ") + Quoted(separator, true), W(" /s ")
                  + Quoted(separator, false), [W("/s"), separator]);
    }
  }

  function RawKey(path: wstring): wstring {
    Quoted(Abbreviated(path), false)
  }

  /** A command word and the key. */
  lemma PieceHead(verb: wstring, args: seq<wstring>, path: wstring)
    requires Piece(verb, verb, args) && EndsBlank(verb)
    ensures Piece(verb + KeyText(path), verb + RawKey(path), args + [Abbreviated(path)])
  {
    hide Piece, Quoted, EndsBlank, StartsBlank, Abbreviated;
    PieceQuoted(Abbreviated(path));
    PieceConcat(verb, verb, args, KeyText(path), RawKey(path), [Abbreviated(path)]);
  }

  /** A command, the key and a name. */
  lemma PieceNamed(verb: wstring, args: seq<wstring>, path: wstring, name: wstring)
    requires Piece(verb, verb, args) && EndsBlank(verb)
    ensures Piece(verb + KeyText(path) + W(" ") + NameText(name), verb + RawKey(path) + W(" ") + RawName(name),
                  args + [Abbreviated(path)] + [] + NameArgs(name))
  {
    hide Piece, KeyText, RawKey, NameText, RawName, NameArgs, Abbreviated;
    PieceHead(verb, args, path);
    PieceSwitches();
    BlankEnds();
    PieceName(name);
    hide W, EndsBlank, StartsBlank;
    var p, q, a := verb + KeyText(path), verb + RawKey(path), args + [Abbreviated(path)];
    assert W(" ") != [] by { SpaceIsText(); }
    PieceConcat(p, q, a, W(" "), W(" "), []);
    EndsBlankConcat(q, W(" "));
    PieceConcat(p + W(" "), q + W(" "), a + [], NameText(name), RawName(name), NameArgs(name));
  }

  lemma SpaceIsText()
    ensures W(" ") != []
  {}

  function RawValueHead(path: wstring, value: RegistryValue, kind: wstring, data: wstring, separator: wstring): wstring
  {
    W("reg add ") + RawKey(path) + W(" ") + RawName(value.name) + W(" /t ") + kind + RawSeparator(separator)
    + W(" /d ") + Quoted(data, false)
  }

  function ValueHead(path: wstring, value: RegistryValue, kind: wstring, data: wstring, separator: wstring): wstring {
    W("reg add ") + KeyText(path) + W(" ") + NameText(value.name) + W(" /t ") + kind + SeparatorText(separator)
    + W(" /d ") + Quoted(data, true)
  }

  function ValueArgs(path: wstring, name: wstring, kind: wstring, data: wstring, separator: wstring): seq<wstring> {
    [REG, ADD] + [Abbreviated(path)] + [] + NameArgs(name) + [W("/t")] + [kind] + SeparatorArgs(separator) + [W("/d")]
      + [data]
  }

  lemma PieceValue(path: wstring, value: RegistryValue, kind: wstring, data: wstring, separator: wstring)
    requires IsPlainWord(kind)
    ensures Piece(ValueHead(path, value, kind, data, separator), RawValueHead(path, value, kind, data, separator),
                  ValueArgs(path, value.name, kind, data, separator))
  {
    hide Piece, KeyText, RawKey, NameText, RawName, NameArgs, SeparatorText, RawSeparator, SeparatorArgs, Abbreviated;
    hide Quoted, IsPlainWord;
    PieceStarts();
    PieceSwitches();
    BlankEnds();
    hide W, EndsBlank, StartsBlank;
    PieceNamed(W("reg add "), [REG, ADD], path, value.name);
    PieceWord(kind);
    PieceQuoted(data);
    var p := W("reg add ") + KeyText(path) + W(" ") + NameText(value.name);
    var q := W("reg add ") + RawKey(path) + W(" ") + RawName(value.name);
    var a := [REG, ADD] + [Abbreviated(path)] + [] + NameArgs(value.name);
    PieceConcat(p, q, a, W(" /t "), W(" /t "), [W("/t")]);
    EndsBlankConcat(q, W(" /t "));
    var p1, q1, a1 := p + W(" /t "), q + W(" /t "), a + [W("/t")];
    assert kind != [] by { WordIsText(kind); }
    PieceConcat(p1, q1, a1, kind, kind, [kind]);
    PieceSeparator(p1 + kind, q1 + kind, a1 + [kind], separator);
    var p2, q2, a2 := p1 + kind + SeparatorText(separator), q1 + kind + RawSeparator(separator), a1 + [kind]
      + SeparatorArgs(separator);
    PieceConcat(p2, q2, a2, W(" /d "), W(" /d "), [W("/d")]);
    EndsBlankConcat(q2, W(" /d "));
    PieceConcat(p2 + W(" /d "), q2 + W(" /d "), a2 + [W("/d")], Quoted(data, true), Quoted(data, false), [data]);
  }

  lemma WordIsText(w: wstring)
    requires IsPlainWord(w)
    ensures w != []
  {}

  // ----- a whole command

  /** A piece, its last switch, and the redirections behind it. */
  lemma CommandWithForce(p: wstring, q: wstring, args: seq<wstring>)
    requires Piece(p, q, args)
    ensures Piece(p + W(" /f"), q + W(" /f"), args + [W("/f")])
  {
    hide Piece;
    PieceSwitches();
    BlankEnds();
    PieceConcat(p, q, args, W(" /f"), W(" /f"), [W("/f")]);
  }

  const QUIET := W(" >nul")
  const SILENT := W(" >nul 2>&1")

  lemma QuietParts(q: wstring)
    ensures var line := q + QUIET;
            HasAt(line, 0, q) && HasAt(line, |q|, [SPACE]) && HasAt(line, |q| + 1, TO_NUL) && |line| == |q| + 5
  {
    var line := q + QUIET;
    HasAtAll(line);
    HasAtSplit(line, 0, q, QUIET);
    assert QUIET == [SPACE] + TO_NUL;
    HasAtSplit(line, |q|, [SPACE], TO_NUL);
  }

  lemma SpaceIsInert()
    ensures IsInert([SPACE])
  {
    InertPlain([SPACE]);
  }

  lemma OneCommand(command: Command)
    ensures [] + [command] == [command]
  {}

  lemma EndsInSpaces(q: wstring)
    ensures [] + q == q && q + [SPACE] + [SPACE] == q + [SPACE, SPACE]
    ensures EndsInSpace(q + [SPACE]) && EndsInSpace(q + [SPACE, SPACE])
  {}

  lemma CommandsStart(line: wstring)
    ensures Commands(line) == CommandsFrom(line, 0, false, [], Command([], []))
  {}

  /** A command whose output is redirected is one command, with a space or two behind it. */
  lemma QuietSplits(q: wstring)
    requires IsInert(q)
    ensures Commands(q + QUIET) == Some([Command(q + [SPACE], [])])
  {
    hide *;
    var line := q + QUIET;
    QuietParts(q);
    SpaceIsInert();
    EndsInSpaces(q);
    CommandsStart(line);
    SplitInert(line, 0, q, [], Command([], []));
    SplitInert(line, |q|, [SPACE], [], Command(q, []));
    SplitNul(line, |q| + 1, [], Command(q + [SPACE], []));
    SplitEnd(line, [], Command(q + [SPACE], []));
    OneCommand(Command(q + [SPACE], []));
  }

  lemma SilentSplits(q: wstring)
    requires IsInert(q)
    ensures Commands(q + SILENT) == Some([Command(q + [SPACE, SPACE], [])])
  {
    hide *;
    var line := q + SILENT;
    SilentHead(q);
    SilentParts(line, |q|);
    SpaceIsInert();
    EndsInSpaces(q);
    CommandsStart(line);
    SplitInert(line, 0, q, [], Command([], []));
    SplitInert(line, |q|, [SPACE], [], Command(q, []));
    SplitNul(line, |q| + 1, [], Command(q + [SPACE], []));
    SplitInert(line, |q| + 5, [SPACE], [], Command(q + [SPACE], []));
    SplitErr(line, |q| + 6, [], Command(q + [SPACE, SPACE], []));
    SplitEnd(line, [], Command(q + [SPACE, SPACE], []));
    OneCommand(Command(q + [SPACE, SPACE], []));
  }

  lemma SilentHead(q: wstring)
    ensures HasAt(q + SILENT, 0, q) && HasAt(q + SILENT, |q|, SILENT) && |q + SILENT| == |q| + 10
  {
    HasAtAll(q + SILENT);
    HasAtSplit(q + SILENT, 0, q, SILENT);
  }

  lemma SilentParts(line: wstring, i: nat)
    requires HasAt(line, i, SILENT)
    ensures HasAt(line, i, [SPACE]) && HasAt(line, i + 1, TO_NUL) && TargetStops(line, i + 5)
    ensures HasAt(line, i + 5, [SPACE]) && HasAt(line, i + 6, ERR_TO_OUT)
  {
    assert SILENT == [SPACE] + (TO_NUL + ([SPACE] + ERR_TO_OUT));
    HasAtSplit(line, i, [SPACE], TO_NUL + ([SPACE] + ERR_TO_OUT));
    HasAtSplit(line, i + 1, TO_NUL, [SPACE] + ERR_TO_OUT);
    HasAtSplit(line, i + 5, [SPACE], ERR_TO_OUT);
    HasAtUnit(line, i + 5, [SPACE]);
    assert REDIRECT_STOPS[0] == SPACE;
  }
}
