/** The .reg reader: physical lines are joined to logical ones, and each logical line adds operations. */
module RegReader {
  import opened Text
  import opened ValueFormat
  import opened Operations
  import opened RegSyntax

  /** Turns the ANSI bytes that REGEDIT4 files keep for strings into UTF-16 bytes; any code page. */
  type CodePage = seq<byte> -> seq<byte>

  /** What logical lines build up. */
  datatype Handler = Handler(ansi: bool, inKey: bool, path: wstring, output: seq<Operation>)

  /** The reader between two physical lines. */
  datatype Reader = Reader(logical: wstring, continuing: bool, quoted: bool, escaped: bool, handler: Handler)

  const EDITOR := W("Windows Registry Editor")
  const REGEDIT4 := W("REGEDIT4")

  function Section(h: Handler, inside: wstring): Option<Handler> {
    var path := TrimWhitespace(inside);
    var removed := path != [] && path[0] == MINUS;
    var target := if removed then TrimWhitespace(path[1..]) else path;
    if target == [] then None
    else Some(h.(inKey := !removed, path := target,
                 output := h.output + [if removed then RemoveKey(target) else Key(target)]))
  }

  function DataOf(cp: CodePage, ansi: bool, text: wstring): Option<(uint32, seq<byte>)>
    requires text != []
  {
    var parsed := ParsedData(text);
    if parsed.None? then None
    else
      var (kind, data) := parsed.value;
      var hex := text[0] != DQUOTE && !StartsWithInsensitive(text, W("dword:"));
      if ansi && hex && (kind == REG_SZ || kind == REG_EXPAND_SZ || kind == REG_MULTI_SZ) then Some((kind, cp(data)))
      else Some((kind, data))
  }

  function Assignment(cp: CodePage, h: Handler, nameText: wstring, dataText: wstring): Option<Handler> {
    if nameText == [] || dataText == [] then None
    else
      var name := if nameText == [AT] then Some([]) else Quoted(nameText);
      if name.None? then None
      else if dataText == [MINUS] then Some(h.(output := h.output + [RemoveValue(h.path, name.value)]))
      else
        var data := DataOf(cp, h.ansi, dataText);
        if data.None? then None
        else Some(h.(output := h.output + [SetValue(h.path, RegistryValue(name.value, data.value.0, data.value.1))]))
  }

  /** Blank lines, comments and the first line of the file. */
  predicate IsIgnored(line: wstring) {
    line == [] || line[0] == SEMICOLON || StartsWithInsensitive(line, EDITOR)
  }

  predicate IsSection(line: wstring) {
    line != [] && line[0] == LBRACKET && line[|line| - 1] == RBRACKET
  }

  function HandleLine(cp: CodePage, h: Handler, line: wstring): Option<Handler> {
    if IsIgnored(line) then Some(h)
    else if StartsWithInsensitive(line, REGEDIT4) then Some(h.(ansi := true))
    else if IsSection(line) && |line| >= 2 then Section(h, line[1..|line| - 1])
    else if !h.inKey then None
    else
      var equals := AssignmentAt(line);
      if equals == -1 then None
      else Assignment(cp, h, TrimWhitespace(line[..equals]), TrimWhitespace(line[equals + 1..]))
  }

  /** One logical line. */
  function Handle(cp: CodePage, h: Handler, raw: wstring): Option<Handler> {
    HandleLine(cp, h, TrimWhitespace(raw))
  }

  // ----- physical lines

  function StripBlanks(text: wstring): (r: wstring)
    ensures |r| <= |text| && r == text[|text| - |r|..]
    ensures r != [] ==> !IsBlankUnit(r[0])
  {
    if text != [] && IsBlankUnit(text[0]) then StripBlanks(text[1..]) else text
  }

  function DropBlanks(text: wstring): (r: wstring)
    ensures |r| <= |text| && r == text[..|r|]
    ensures r != [] ==> !IsBlankUnit(r[|r| - 1])
  {
    if text != [] && IsBlankUnit(text[|text| - 1]) then DropBlanks(text[..|text| - 1]) else text
  }

  /** Follows quotes and, inside them, backslashes. */
  function ScanQuotes(units: wstring, quoted: bool, escaped: bool): (bool, bool)
    decreases |units|
  {
    if units == [] then (quoted, escaped)
    else if escaped then ScanQuotes(units[1..], quoted, false)
    else if quoted && units[0] == BACKSLASH then ScanQuotes(units[1..], quoted, true)
    else if units[0] == DQUOTE then ScanQuotes(units[1..], !quoted, escaped)
    else ScanQuotes(units[1..], quoted, escaped)
  }

  /** Quotes count except on section and comment lines. */
  predicate CountsQuotes(logical: wstring, quoted: bool) {
    quoted || (var solid := StripBlanks(logical); solid != [] && solid[0] != LBRACKET && solid[0] != SEMICOLON)
  }

  function Idle(h: Handler): Reader {
    Reader([], false, false, false, h)
  }

  /** The reader after joining a physical line to the logical one, with quotes followed. */
  function Joined(st: Reader, physical: wstring): Reader {
    var added := if st.continuing then StripBlanks(physical) else physical;
    var logical := st.logical + added;
    var (quoted, escaped) := if CountsQuotes(logical, st.quoted) then ScanQuotes(added, st.quoted, st.escaped)
                             else (st.quoted, st.escaped);
    Reader(logical, st.continuing, quoted, escaped, st.handler)
  }

  /** Whether the line break inside quotes is a wrap that other exporters write. */
  predicate IsWrap(logical: wstring, tail: wstring) {
    logical != [] && logical[|logical| - 1] == BACKSLASH && |tail| >= 2 && tail[0] == SPACE && tail[1] == SPACE
  }

  /** What the reader does with a joined line: the state to go on with and the rest of the content. */
  function Settle(cp: CodePage, st: Reader, hasNewline: bool, tail: wstring): Option<(Reader, wstring)> {
    if st.quoted && hasNewline then
      if IsWrap(st.logical, tail) then
        Some((st.(logical := st.logical[..|st.logical| - 1], escaped := !st.escaped, continuing := false), tail[2..]))
      else Some((st.(logical := st.logical + [LF], continuing := false), tail))
    else
      var logical := DropBlanks(st.logical);
      if !st.quoted && logical != [] && logical[|logical| - 1] == BACKSLASH then
        Some((st.(logical := logical[..|logical| - 1], continuing := true), tail))
      else
        var handled := Handle(cp, st.handler, logical);
        if handled.None? then None else Some((Idle(handled.value), tail))
  }

  function ReadFrom(cp: CodePage, content: wstring, st: Reader): Option<seq<Operation>>
    decreases |content|
  {
    if content == [] then
      if st.logical == [] then Some(st.handler.output)
      else
        var handled := Handle(cp, st.handler, st.logical);
        if handled.None? then None else Some(handled.value.output)
    else
      var end := Find(content, LF, 0);
      var physical := if end == -1 then content else content[..end];
      var tail := if end == -1 then [] else content[end + 1..];
      var settled := Settle(cp, Joined(st, StripCr(physical)), end != -1, tail);
      if settled.None? then None else ReadFrom(cp, settled.value.1, settled.value.0)
  }

  const START := Handler(false, false, [], [])

  /** The operations of a .reg file, or None when an entry can't be read. */
  function Parsed(cp: CodePage, content: wstring): Option<seq<Operation>> {
    ReadFrom(cp, content, Idle(START))
  }

  // ----- the loop

  method ScanFrom(logical: wstring, scanned: nat, quoted: bool, escaped: bool) returns (q: bool, e: bool)
    requires scanned <= |logical|
    ensures (q, e) == ScanQuotes(logical[scanned..], quoted, escaped)
  {
    q, e := quoted, escaped;
    for index := scanned to |logical|
      invariant ScanQuotes(logical[index..], q, e) == ScanQuotes(logical[scanned..], quoted, escaped)
    {
      assert logical[index..][0] == logical[index] && logical[index..][1..] == logical[index + 1..];
      if e {
        e := false;
      } else if q && logical[index] == BACKSLASH {
        e := true;
      } else if logical[index] == DQUOTE {
        q := !q;
      }
    }
    assert logical[|logical|..] == [];
  }

  /** One physical line from `start` on, in the terms of the loop. */
  lemma UnfoldRead(cp: CodePage, content: wstring, start: nat, st: Reader)
    requires start < |content|
    ensures var end := Find(content, LF, start);
            var physical := if end == -1 then content[start..] else content[start..end];
            var tail := if end == -1 then [] else content[end + 1..];
            var settled := Settle(cp, Joined(st, StripCr(physical)), end != -1, tail);
            ReadFrom(cp, content[start..], st) == if settled.None? then None
                                                  else ReadFrom(cp, settled.value.1, settled.value.0)
  {
    hide *;
    var end := Find(content, LF, start);
    UnfoldReadStep(cp, content[start..], st);
    FindShift(content, LF, start);
    if end != -1 {
      SliceShift(content, start, end);
      SliceShift(content, start, end + 1);
    }
  }

  lemma UnfoldReadStep(cp: CodePage, content: wstring, st: Reader)
    requires content != []
    ensures var end := Find(content, LF, 0);
            var physical := if end == -1 then content else content[..end];
            var tail := if end == -1 then [] else content[end + 1..];
            var settled := Settle(cp, Joined(st, StripCr(physical)), end != -1, tail);
            ReadFrom(cp, content, st) == if settled.None? then None else ReadFrom(cp, settled.value.1, settled.value.0)
  {
    hide Settle, Joined, StripCr, Find, Handle;
  }

  /** Appends a physical line to the logical one and follows its quotes. */
  method JoinLine(st: Reader, physical: wstring) returns (joined: Reader)
    ensures joined == Joined(st, physical)
  {
    hide ScanQuotes, StripBlanks;
    var added := if st.continuing then StripBlanks(physical) else physical;
    var scanned := |st.logical|;
    var logical := st.logical + added;
    assert logical[scanned..] == added;
    var quoted, escaped := st.quoted, st.escaped;
    if CountsQuotes(logical, quoted) {
      quoted, escaped := ScanFrom(logical, scanned, quoted, escaped);
    }
    joined := Reader(logical, st.continuing, quoted, escaped, st.handler);
  }

  /** Decides what the joined line is: the inside of a quoted text, a continued line, or a whole one. */
  method SettleLine(cp: CodePage, st: Reader, hasNewline: bool, content: wstring, start: nat)
    returns (next: Option<Reader>, from: nat)
    requires start <= |content|
    ensures from <= |content| && start <= from
    ensures var settled := Settle(cp, st, hasNewline, content[start..]);
            (next.None? <==> settled.None?) && (next.Some? ==> settled == Some((next.value, content[from..])))
  {
    hide Handle, DropBlanks;
    from := start;
    var logical := st.logical;
    if st.quoted && hasNewline {
      if logical != [] && logical[|logical| - 1] == BACKSLASH && start + 2 <= |content| && content[start] == SPACE
        && content[start + 1] == SPACE {
        assert content[start..][2..] == content[start + 2..];
        return Some(Reader(logical[..|logical| - 1], false, st.quoted, !st.escaped, st.handler)), start + 2;
      }
      return Some(Reader(logical + [LF], false, st.quoted, st.escaped, st.handler)), start;
    }
    logical := DropBlanks(logical);
    if !st.quoted && logical != [] && logical[|logical| - 1] == BACKSLASH {
      return Some(Reader(logical[..|logical| - 1], true, st.quoted, st.escaped, st.handler)), start;
    }
    var handled := Handle(cp, st.handler, logical);
    next := if handled.None? then None else Some(Idle(handled.value));
  }

  method ParseOperations(cp: CodePage, content: wstring) returns (operations: Option<seq<Operation>>)
    ensures operations == Parsed(cp, content)
  {
    hide Find, Handle, ReadFrom, Settle, Joined;
    var st := Idle(START);
    var start := 0;
    assert content[0..] == content;
    while start < |content|
      invariant start <= |content|
      invariant ReadFrom(cp, content[start..], st) == Parsed(cp, content)
      decreases |content| - start
    {
      UnfoldRead(cp, content, start, st);
      var end := Find(content, LF, start);
      var hasNewline := end != -1;
      if !hasNewline {
        end := |content|;
        AllOf(content, start);
      }
      var physical := content[start..end];
      if physical != [] && physical[|physical| - 1] == CR {
        physical := physical[..|physical| - 1];
      }
      start := if hasNewline then end + 1 else |content|;
      var joined := JoinLine(st, physical);
      var next;
      next, start := SettleLine(cp, joined, hasNewline, content, start);
      if next.None? {
        return None;
      }
      st := next.value;
    }
    AtEnd(cp, content, st);
    if st.logical == [] {
      return Some(st.handler.output);
    }
    var handled := Handle(cp, st.handler, st.logical);
    if handled.None? {
      return None;
    }
    return Some(handled.value.output);
  }

  lemma AllOf(content: wstring, start: nat)
    requires start <= |content|
    ensures content[start..|content|] == content[start..] && content[|content|..] == []
  {}

  lemma AtEnd(cp: CodePage, content: wstring, st: Reader)
    ensures ReadFrom(cp, content[|content|..], st) ==
              if st.logical == [] then Some(st.handler.output)
              else if Handle(cp, st.handler, st.logical).None? then None
              else Some(Handle(cp, st.handler, st.logical).value.output)
  {}
}
