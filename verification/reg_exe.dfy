/** The arguments and data forms of reg.exe. */
module RegExe {
  import opened Text
  import opened ValueFormat
  import opened MultiStrings

  datatype Verb = Add | Query | Other

  datatype View = Native | Wow32 | Wow64

  /** What the switches of a command say. */
  datatype Options = Options(
    valueName: wstring, data: wstring, typeText: wstring, separator: wstring, hasValue: bool, defaultValue: bool,
    allValues: bool, recurse: bool, force: bool, hasData: bool, find: wstring, hasFind: bool, keysOnly: bool,
    dataOnly: bool, valueNames: bool, caseSensitive: bool, exact: bool, verbose: bool, compareOutput: wchar,
    view: View, switches: seq<wstring>)

  const DEFAULT_SEPARATOR := W("\\0")

  const NO_OPTIONS := Options(
    [], [], [], DEFAULT_SEPARATOR, false, false, false, false, false, false, [], false, false, false, false, false,
    false, false, 0x64, Wow64, [])

  predicate IsSwitch(text: wstring, name: wstring) {
    text != [] && (text[0] == SLASH || text[0] == MINUS) && EqualsInsensitive(text[1..], name)
  }

  predicate LooksLikeSwitch(text: wstring) {
    text != [] && (text[0] == SLASH || text[0] == MINUS)
  }

  /** Options, positional arguments, and how many selectors, views and outputs were given. */
  datatype Parsing = Parsing(options: Options, positional: seq<wstring>, selectors: nat, views: nat, outputs: nat)

  const UNPARSED := Parsing(NO_OPTIONS, [], 0, 0, 0)

  /** A switch may be given once, and only one of each group. */
  function Entered(p: Parsing, arg: wstring): Option<Parsing>
    requires arg != []
  {
    var name := ToLower(arg[1..]);
    var selectors := p.selectors + if name == W("v") || name == W("ve") || name == W("va") then 1 else 0;
    var views := p.views + if W("reg:") <= name then 1 else 0;
    var outputs := p.outputs + if name == W("oa") || name == W("od") || name == W("os") || name == W("on") then 1
                               else 0;
    if name in p.options.switches || selectors > 1 || views > 1 || outputs > 1 then None
    else Some(Parsing(p.options.(switches := p.options.switches + [name]), p.positional, selectors, views, outputs))
  }

  /** What the argument at `i` sets; the flag says whether the next argument is its own. */
  function Taken(args: seq<wstring>, i: nat, p: Parsing, verb: Verb): Option<(Parsing, bool)>
    requires i < |args|
  {
    var arg, o := args[i], p.options;
    var more := i + 1 < |args|;
    if IsSwitch(arg, W("v")) && verb == Query && (!more || LooksLikeSwitch(args[i + 1])) then
      Some((p.(options := o.(valueNames := true)), false))
    else if IsSwitch(arg, W("v")) then
      if more then Some((p.(options := o.(valueName := args[i + 1], hasValue := true)), true)) else None
    else if IsSwitch(arg, W("ve")) then Some((p.(options := o.(defaultValue := true, hasValue := true)), false))
    else if IsSwitch(arg, W("va")) then Some((p.(options := o.(allValues := true)), false))
    else if IsSwitch(arg, W("t")) then
      if more then Some((p.(options := o.(typeText := args[i + 1])), true)) else None
    else if IsSwitch(arg, W("d")) && verb == Query then Some((p.(options := o.(dataOnly := true)), false))
    else if IsSwitch(arg, W("d")) then
      if more then Some((p.(options := o.(data := args[i + 1], hasData := true)), true)) else None
    else if IsSwitch(arg, W("s")) && verb == Add then
      if more then Some((p.(options := o.(separator := args[i + 1])), true)) else None
    else if IsSwitch(arg, W("s")) then Some((p.(options := o.(recurse := true)), false))
    else if IsSwitch(arg, W("se")) && verb == Query then
      if more then Some((p.(options := o.(separator := args[i + 1])), true)) else None
    else if IsSwitch(arg, W("f")) && verb == Query then
      if more then Some((p.(options := o.(find := args[i + 1], hasFind := true)), true)) else None
    else if IsSwitch(arg, W("f")) || IsSwitch(arg, W("y")) then Some((p.(options := o.(force := true)), false))
    else if verb == Query && IsSwitch(arg, W("k")) then Some((p.(options := o.(keysOnly := true)), false))
    else if verb == Query && IsSwitch(arg, W("c")) then Some((p.(options := o.(caseSensitive := true)), false))
    else if verb == Query && IsSwitch(arg, W("e")) then Some((p.(options := o.(exact := true)), false))
    else if verb == Query && IsSwitch(arg, W("z")) then Some((p.(options := o.(verbose := true)), false))
    else if IsSwitch(arg, W("oa")) || IsSwitch(arg, W("od")) || IsSwitch(arg, W("os")) || IsSwitch(arg, W("on")) then
      Some((p.(options := o.(compareOutput := LowerUnit(arg[2]))), false))
    else if IsSwitch(arg, W("reg:32")) then Some((p.(options := o.(view := Wow32)), false))
    else if IsSwitch(arg, W("reg:64")) then Some((p.(options := o.(view := Wow64)), false))
    else if LooksLikeSwitch(arg) then None
    else Some((p.(positional := p.positional + [arg]), false))
  }

  function ParseFrom(args: seq<wstring>, i: nat, p: Parsing, verb: Verb): Option<Parsing>
    decreases |args| - i
  {
    if i >= |args| then Some(p)
    else
      var entered := if LooksLikeSwitch(args[i]) then Entered(p, args[i]) else Some(p);
      if entered.None? then None
      else
        var taken := Taken(args, i, entered.value, verb);
        if taken.None? then None else ParseFrom(args, if taken.value.1 then i + 2 else i + 1, taken.value.0, verb)
  }

  /** /s only goes with REG_MULTI_SZ. */
  predicate SeparatorMisused(options: Options, verb: Verb) {
    verb == Add && W("s") in options.switches
    && (var kind := if options.typeText == [] then Some(REG_SZ)
                    else ParseType(options.typeText); kind.Some? && kind.value != REG_MULTI_SZ)
  }

  function ParseOptions(args: seq<wstring>, first: nat, verb: Verb): Option<(Options, seq<wstring>)> {
    var p := ParseFrom(args, first, UNPARSED, verb);
    if p.None? || SeparatorMisused(p.value.options, verb) then None else Some((p.value.options, p.value.positional))
  }

  method ReadOptions(args: seq<wstring>, first: nat, verb: Verb) returns (parsed: Option<(Options, seq<wstring>)>)
    ensures parsed == ParseOptions(args, first, verb)
  {
    hide Taken, Entered, ParseType;
    var p := UNPARSED;
    var i := first;
    while i < |args|
      invariant ParseFrom(args, i, p, verb) == ParseFrom(args, first, UNPARSED, verb)
      decreases |args| - i
    {
      if LooksLikeSwitch(args[i]) {
        var entered := Entered(p, args[i]);
        if entered.None? {
          return None;
        }
        p := entered.value;
      }
      var taken := Taken(args, i, p, verb);
      if taken.None? {
        return None;
      }
      p := taken.value.0;
      i := if taken.value.1 then i + 2 else i + 1;
    }
    if SeparatorMisused(p.options, verb) {
      return None;
    }
    return Some((p.options, p.positional));
  }

  // ----- types

  datatype ValueType = ValueType(name: wstring, kind: uint32)

  const TYPES: seq<ValueType> := [
    ValueType(W("REG_SZ"), REG_SZ),
    ValueType(W("REG_MULTI_SZ"), REG_MULTI_SZ),
    ValueType(W("REG_EXPAND_SZ"), REG_EXPAND_SZ),
    ValueType(W("REG_DWORD"), REG_DWORD),
    ValueType(W("REG_DWORD_LITTLE_ENDIAN"), REG_DWORD),
    ValueType(W("REG_DWORD_BIG_ENDIAN"), REG_DWORD_BIG_ENDIAN),
    ValueType(W("REG_QWORD"), REG_QWORD),
    ValueType(W("REG_QWORD_LITTLE_ENDIAN"), REG_QWORD),
    ValueType(W("REG_BINARY"), REG_BINARY),
    ValueType(W("REG_NONE"), REG_NONE),
    ValueType(W("REG_LINK"), REG_LINK)
  ]

  /** Index of the first type of that name, or -1. */
  function TypeNamed(text: wstring, index: nat): (r: int)
    requires index <= |TYPES|
    ensures r == -1 || (index <= r < |TYPES| && EqualsInsensitive(text, TYPES[r].name))
    ensures forall i :: index <= i < (if r == -1 then |TYPES| else r) ==> !EqualsInsensitive(text, TYPES[i].name)
    decreases |TYPES| - index
  {
    if index == |TYPES| then -1
    else if EqualsInsensitive(text, TYPES[index].name) then index else TypeNamed(text, index + 1)
  }

  /** Digits up to 0x80000000, or None; leading zeros count like any digit. */
  function TypeNumber(digits: wstring, i: nat, number: nat): Option<nat>
    requires i <= |digits|
    decreases |digits| - i
  {
    if i == |digits| then Some(number)
    else if !IsDigit(digits[i]) || number * 10 + (digits[i] as int - 0x30) > 0x8000_0000 then None
    else TypeNumber(digits, i + 1, number * 10 + (digits[i] as int - 0x30))
  }

  /** A type by its name, or as a signed 32-bit decimal number. */
  function ParseType(text: wstring): Option<uint32> {
    var named := TypeNamed(text, 0);
    if named >= 0 then Some(TYPES[named].kind)
    else
      var negative := text != [] && text[0] == MINUS;
      var digits := text[if negative || (text != [] && text[0] == PLUS) then 1 else 0..];
      var number := TypeNumber(digits, 0, 0);
      if number.None? || digits == [] || number.value > (if negative then 0x8000_0000 else 0x7FFF_FFFF) then None
      else Some(((if negative then 0x1_0000_0000 - number.value else number.value) % 0x1_0000_0000) as uint32)
  }

  function FirstOfKind(kind: uint32, index: nat): (r: int)
    requires index <= |TYPES|
    ensures r == -1 || (index <= r < |TYPES| && TYPES[r].kind == kind)
    decreases |TYPES| - index
  {
    if index == |TYPES| then -1 else if TYPES[index].kind == kind then index else FirstOfKind(kind, index + 1)
  }

  /** The name reg.exe has for a type; None where only a display label exists. */
  function TypeName(kind: uint32): Option<wstring> {
    var r := FirstOfKind(kind, 0);
    if r == -1 then None else Some(TYPES[r].name)
  }

  // ----- data

  predicate OccursAt(text: wstring, pattern: wstring, i: nat) {
    i + |pattern| <= |text| && text[i..i + |pattern|] == pattern
  }

  /** Position of the first `pattern` at or behind `start`, or -1. */
  function FindText(text: wstring, pattern: wstring, start: nat): (r: int)
    ensures r == -1 || (start <= r && OccursAt(text, pattern, r))
    ensures forall i: nat :: start <= i && (r == -1 || i < r) ==> !OccursAt(text, pattern, i)
    decreases |text| - start
  {
    if start + |pattern| > |text| then -1
    else if OccursAt(text, pattern, start) then start
    else FindText(text, pattern, start + 1)
  }

  /** The pieces of the text from `start` on; an empty separator separates nothing. */
  function Pieces(text: wstring, separator: wstring, start: nat): seq<wstring>
    requires start <= |text|
    decreases |text| - start
  {
    var end := if separator == [] then -1 else FindText(text, separator, start);
    if end == -1 then [text[start..]] else [text[start..end]] + Pieces(text, separator, end + |separator|)
  }

  /** The items of multi-string text: an empty last piece is dropped, and only a single item may be empty. */
  function TextItems(text: wstring, separator: wstring): Option<seq<wstring>> {
    var all := if text == [] then [] else Pieces(text, separator, 0);
    var items := if all != [] && all[|all| - 1] == [] then all[..|all| - 1] else all;
    if |items| > 1 && [] in items then None else Some(items)
  }

  function BuildNumber(kind: uint32, text: wstring): Option<seq<byte>> {
    var trimmed := TrimWhitespace(text);
    var number := ParseUnsignedNumber(if trimmed != [] && trimmed[0] == PLUS then trimmed[1..] else trimmed, 10);
    if number.None? || (kind != REG_QWORD && number.value > 0xFFFF_FFFF) then None
    else Some(UnsignedBytes(number.value as nat, if kind == REG_QWORD then 8 else 4))
  }

  function BuildBinary(text: wstring): Option<seq<byte>> {
    if !AllHex(text) then None else ParseHex(if |text| % 2 != 0 then [0x30] + text else text)
  }

  /** The data that reg.exe stores for a text. */
  function BuildData(kind: uint32, text: wstring, separator: wstring): Option<seq<byte>> {
    if kind == REG_MULTI_SZ then
      var items := TextItems(text, separator);
      if items.None? then None else Some(MultiStringData(items.value))
    else if kind == REG_DWORD || kind == REG_DWORD_BIG_ENDIAN || kind == REG_QWORD then BuildNumber(kind, text)
    else if kind == REG_BINARY then BuildBinary(text)
    else Some(StringData(text))
  }

  lemma UnfoldPieces(text: wstring, separator: wstring, start: nat)
    requires start <= |text|
    ensures var end := if separator == [] then -1 else FindText(text, separator, start);
            Pieces(text, separator, start) == if end == -1 then [text[start..]]
                                              else [text[start..end]] + Pieces(text, separator, end + |separator|)
  {
    hide FindText;
  }

  method SplitPieces(text: wstring, separator: wstring) returns (pieces: seq<wstring>)
    ensures pieces == Pieces(text, separator, 0)
  {
    hide FindText, Pieces;
    pieces := [];
    var start := 0;
    while true
      invariant start <= |text|
      invariant pieces + Pieces(text, separator, start) == Pieces(text, separator, 0)
      decreases |text| - start
    {
      UnfoldPieces(text, separator, start);
      var end := if separator == [] then -1 else FindText(text, separator, start);
      if end == -1 {
        pieces := pieces + [text[start..]];
        return;
      }
      ConcatAssoc(pieces, [text[start..end]], Pieces(text, separator, end + |separator|));
      pieces := pieces + [text[start..end]];
      start := end + |separator|;
    }
  }

  method SplitItems(text: wstring, separator: wstring) returns (items: Option<seq<wstring>>)
    ensures items == TextItems(text, separator)
  {
    hide Pieces;
    var pieces: seq<wstring> := [];
    if text != [] {
      pieces := SplitPieces(text, separator);
    }
    if pieces != [] && pieces[|pieces| - 1] == [] {
      pieces := pieces[..|pieces| - 1];
    }
    var index := 0;
    while index < |pieces|
      invariant 0 <= index <= |pieces|
      invariant |pieces| > 1 ==> forall i :: 0 <= i < index ==> pieces[i] != []
    {
      if pieces[index] == [] && |pieces| > 1 {
        return None;
      }
      index := index + 1;
    }
    items := Some(pieces);
  }
}
