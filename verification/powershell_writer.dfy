/** Writing operations as a PowerShell script. */
module PowerShellWriter {
  import opened Text
  import opened ValueFormat
  import opened Operations
  import opened KeyPaths
  import opened MultiStrings
  import opened PowerShellLexer
  import opened PowerShellRoots

  const CRLF: wstring := [CR, LF]

  // ----- literals

  /** No control character. */
  predicate IsPlain(text: wstring) {
    forall i :: 0 <= i < |text| ==> text[i] >= SPACE
  }

  /** The control characters that have a backtick escape. */
  predicate IsEscapable(c: wchar) {
    c == NUL || c == TAB || c == CR || c == LF
  }

  function EscapeOf(c: wchar): wstring {
    if c == NUL then [BACKTICK, 0x30]
    else if c == TAB then [BACKTICK, 0x74]
    else if c == CR then [BACKTICK, 0x72]
    else if c == LF then [BACKTICK, 0x6E]
    else if c == BACKTICK || c == DOLLAR || IsDoubleQuote(c) then [BACKTICK, c]
    else [c]
  }

  function Escaped(text: wstring): wstring {
    if text == [] then [] else Escaped(text[..|text| - 1]) + EscapeOf(text[|text| - 1])
  }

  function DoubledOf(c: wchar): wstring {
    if IsSingleQuote(c) then [c, c] else [c]
  }

  /** Every single quote twice. */
  function Doubled(text: wstring): wstring {
    if text == [] then [] else Doubled(text[..|text| - 1]) + DoubledOf(text[|text| - 1])
  }

  /** A quoted string; None for control characters without an escape. */
  function Literal(text: wstring): Option<wstring> {
    if IsPlain(text) then Some([SQUOTE] + Doubled(text) + [SQUOTE])
    else if exists i :: 0 <= i < |text| && text[i] < SPACE && !IsEscapable(text[i]) then None
    else Some([DQUOTE] + Escaped(text) + [DQUOTE])
  }

  /** The first units of a literal, between its quotes. */
  function BetweenQuotes(text: wstring, plain: bool): wstring {
    if plain then Doubled(text) else Escaped(text)
  }

  function UnitText(c: wchar, plain: bool): wstring {
    if plain then DoubledOf(c) else EscapeOf(c)
  }

  lemma InsideStep(out: wstring, quote: wchar, text: wstring, i: nat, plain: bool)
    requires i < |text| && out == [quote] + BetweenQuotes(text[..i], plain)
    ensures out + UnitText(text[i], plain) == [quote] + BetweenQuotes(text[..i + 1], plain)
  {
    hide DoubledOf, EscapeOf;
    assert text[..i + 1][..i] == text[..i] && text[..i + 1][i] == text[i];
    ConcatAssoc([quote], BetweenQuotes(text[..i], plain), UnitText(text[i], plain));
  }

  lemma LiteralParts(text: wstring, plain: bool)
    ensures text[..|text|] == text && BetweenQuotes(text[..0], plain) == []
    ensures plain && IsPlain(text) ==> Literal(text) == Some([SQUOTE] + BetweenQuotes(text, plain) + [SQUOTE])
    ensures !plain && !IsPlain(text) && (forall i :: 0 <= i < |text| ==> text[i] >= SPACE || IsEscapable(text[i])) ==>
              Literal(text) == Some([DQUOTE] + BetweenQuotes(text, plain) + [DQUOTE])
    ensures (exists i :: 0 <= i < |text| && text[i] < SPACE && !IsEscapable(text[i])) ==> Literal(text) == None
  {
    assert text[..|text|] == text;
    hide IsEscapable;
  }

  method WriteLiteral(text: wstring) returns (output: Option<wstring>)
    ensures output == Literal(text)
  {
    hide IsDoubleQuote, IsSingleQuote, BetweenQuotes, Literal;
    var plain := forall i :: 0 <= i < |text| ==> text[i] >= SPACE;
    var quote := if plain then SQUOTE else DQUOTE;
    var out := [quote];
    LiteralParts(text, plain);
    for i := 0 to |text|
      invariant out == [quote] + BetweenQuotes(text[..i], plain)
      invariant plain || forall j :: 0 <= j < i ==> text[j] >= SPACE || IsEscapable(text[j])
    {
      var c := text[i];
      InsideStep(out, quote, text, i, plain);
      if plain {
        if IsSingleQuote(c) {
          out := out + [c];
        }
        out := out + [c];
        continue;
      }
      if IsEscapable(c) {
        var code := if c == NUL then 0x30 else if c == TAB then 0x74 else if c == CR then 0x72 else 0x6E;
        out := out + [BACKTICK];
        out := out + [code];
        continue;
      }
      if c < SPACE {
        return None;
      }
      if c == BACKTICK || c == DOLLAR || IsDoubleQuote(c) {
        out := out + [BACKTICK];
      }
      out := out + [c];
    }
    output := Some(out + [quote]);
  }

  // ----- values

  /** `0x` and the number in hexadecimal, at least `width` digits. */
  function Hex(value: nat, width: nat): wstring {
    HEX_MARK + PaddedHex(value, width)
  }

  /** Numbers with a comma between them. */
  function ByteList(data: seq<byte>): wstring {
    if data == [] then []
    else if |data| == 1 then Hex(data[0] as nat, 2)
    else ByteList(data[..|data| - 1]) + [COMMA] + Hex(data[|data| - 1] as nat, 2)
  }

  const BYTES := W("[byte[]]")
  const STRINGS := W("[string[]]")

  function ByteArray(data: seq<byte>): wstring {
    if data == [] then BYTES + [AT, LPAREN, RPAREN] else BYTES + [LPAREN] + ByteList(data) + [RPAREN]
  }

  method WriteByteArray(data: seq<byte>) returns (text: wstring)
    ensures text == ByteArray(data)
  {
    hide PaddedHex, W;
    if data == [] {
      return BYTES + [AT, LPAREN, RPAREN];
    }
    text := BYTES + [LPAREN];
    assert text + [] == text;
    for index := 0 to |data|
      invariant text == BYTES + [LPAREN] + ByteList(data[..index])
    {
      assert data[..index + 1][..index] == data[..index] && data[..index + 1][index] == data[index];
      assert index == 0 ==> text + [] + Hex(data[0] as nat, 2) == BYTES + [LPAREN] + Hex(data[0] as nat, 2);
      ConcatAssoc(BYTES + [LPAREN], ByteList(data[..index]), [COMMA]);
      ConcatAssoc(BYTES + [LPAREN], ByteList(data[..index]) + [COMMA], Hex(data[index] as nat, 2));
      text := text + (if index == 0 then [] else [COMMA]) + Hex(data[index] as nat, 2);
    }
    assert data[..|data|] == data;
    text := text + [RPAREN];
  }

  function LiteralList(items: seq<wstring>): wstring {
    if items == [] then []
    else
      var last := Literal(items[|items| - 1]);
      if last.None? then []
      else if |items| == 1 then last.value
      else LiteralList(items[..|items| - 1]) + [COMMA, SPACE] + last.value
  }

  predicate AreLiteral(items: seq<wstring>) {
    forall i :: 0 <= i < |items| ==> Literal(items[i]).Some?
  }

  datatype Form = Form(expression: wstring, kind: wstring)

  function WidthOf(kind: uint32): nat {
    if kind == REG_DWORD then 4 else 8
  }

  /** The expression and the kind that .NET stores as exactly the data; None when there is none. */
  function DotNetValue(value: RegistryValue): Option<Form> {
    if value.kind == REG_SZ || value.kind == REG_EXPAND_SZ then
      var text := DecodeString(value.data);
      if text.None? || StringData(text.value) != value.data || Literal(text.value).None? then None
      else Some(Form(Literal(text.value).value, if value.kind == REG_SZ then W("String") else W("ExpandString")))
    else if value.kind == REG_MULTI_SZ then
      var items := MultiStringItems(value.data);
      if MultiStringData(items) != value.data || !AreLiteral(items) then None
      else Some(Form(STRINGS + [AT, LPAREN] + LiteralList(items) + [RPAREN], W("MultiString")))
    else if value.kind == REG_DWORD || value.kind == REG_QWORD then
      var width := WidthOf(value.kind);
      if |value.data| != width then None
      else
        Some(Form(Hex(ReadUnsigned(value.data, width), width * 2) + (if value.kind == REG_QWORD then [0x4C] else []),
                  if value.kind == REG_DWORD then W("DWord") else W("QWord")))
    else if value.kind == REG_BINARY || value.kind == REG_NONE then
      Some(Form(ByteArray(value.data), if value.kind == REG_BINARY then W("Binary") else W("None")))
    else None
  }

  // ----- lines

  /** The path below the root. */
  function SubPath(path: wstring): wstring {
    var split := Find(path, BACKSLASH, 0);
    if split == -1 then [] else path[split + 1..]
  }

  const REGISTRY := W("[Microsoft.Win32.Registry]") + [COLON, COLON]

  function RootText(path: wstring): wstring {
    REGISTRY + PropertyFrom(RootPart(path), 0)
  }

  function QuotedText(text: wstring): wstring {
    if Literal(text).Some? then Literal(text).value else []
  }

  function OpenLine(path: wstring): wstring {
    W("$key = ") + RootText(path) + (if SubPath(path) == [] then []
                                     else W(".CreateSubKey(") + QuotedText(SubPath(path)) + [RPAREN]) + CRLF
  }

  function RemoveKeyLine(path: wstring): wstring {
    RootText(path) + W(".DeleteSubKeyTree(") + QuotedText(SubPath(path)) + W(", $false)") + CRLF
  }

  function RemoveValueLine(name: wstring): wstring {
    W("$key.DeleteValue(") + QuotedText(name) + W(", $false)") + CRLF
  }

  function ManagedLine(name: wstring, form: Form): wstring {
    W("$key.SetValue(") + QuotedText(name) + W(", ") + form.expression + W(", '") + form.kind + W("')") + CRLF
  }

  function NativeLine(value: RegistryValue): wstring {
    W("[RegKit.Native]::SetValue(") + W("$key, ") + QuotedText(value.name) + W(", ") + Hex(value.kind as nat, 1)
      + W(", ") + ByteArray(value.data)
    + [RPAREN] + CRLF
  }

  function ValueLine(value: RegistryValue): wstring {
    var form := DotNetValue(value);
    if form.Some? then ManagedLine(value.name, form.value) else NativeLine(value)
  }

  /** The line of an operation on the open key. */
  function LineOf(op: Operation): wstring {
    match op
    case Key(_) => []
    case RemoveKey(path) => RemoveKeyLine(path)
    case RemoveValue(_, name) => RemoveValueLine(name)
    case SetValue(_, value) => ValueLine(value)
  }

  datatype Reason = ControlCharacters | RootKey

  /** An operation without a line, and why it has none. */
  datatype Skip = Skip(operation: Operation, reason: Reason)

  /** Why an operation is skipped. */
  function Fault(op: Operation): Option<Reason> {
    if Literal(SubPath(op.path)).None? || Literal(NameOf(op)).None? then Some(ControlCharacters)
    else if op.RemoveKey? && SubPath(op.path) == [] then Some(RootKey)
    else None
  }

  predicate IsNative(op: Operation) {
    Fault(op).None? && op.SetValue? && DotNetValue(op.value).None?
  }

  // ----- the script

  /** The lines of the operations; `current` is the path in `$key`. */
  function Body(ops: seq<Operation>, current: Option<wstring>): wstring {
    if ops == [] then []
    else
      var op := ops[0];
      if Fault(op).Some? then Body(ops[1..], current)
      else if op.RemoveKey? then LineOf(op) + Body(ops[1..], None)
      else (if current == Some(op.path) then [] else OpenLine(op.path)) + (LineOf(op) + Body(ops[1..], Some(op.path)))
  }

  function Skipped(ops: seq<Operation>): seq<Skip> {
    if ops == [] then []
    else
      var last := ops[|ops| - 1];
      Skipped(ops[..|ops| - 1]) + if Fault(last).Some? then [Skip(last, Fault(last).value)] else []
  }

  const REQUIRES := W("#Requires ") + W("-RunAsAdministrator")
  const STOP := W("$ErrorActionPreference = ") + W("'Stop'")

  const IMPORT_TEXT: wstring :=
    W("[DllImport(\"advapi32.dll\", ") + (W("CharSet = CharSet.Unicode)] ") + W("static extern int RegSetValueExW("))
  const PARAMETER_TEXT: wstring :=
    W("Microsoft.Win32.SafeHandles.")
      + (W("SafeRegistryHandle key, ") + (W("string name, int reserved, int type, ") + W("byte[] data, int size); ")))
  const METHOD_TEXT: wstring :=
    W("public static void SetValue(")
      + (W("Microsoft.Win32.RegistryKey key, ")
         + (W("string name, int type, byte[] data) ") + W("{ int status = RegSetValueExW(")))
  const STATEMENT_TEXT: wstring :=
    W("key.Handle, name, 0, type, data, ")
      + (W("data.Length); if (status != 0) ")
         + (W("throw new System.ComponentModel.") + W("Win32Exception(status); }")))

  /** The C# that the native helper compiles. */
  const DEFINITION: wstring := IMPORT_TEXT + (PARAMETER_TEXT + (METHOD_TEXT + STATEMENT_TEXT))

  const HELPER: wstring := W("Add-Type -Namespace RegKit ") + (W("-Name Native ") + W("-MemberDefinition "))
    + ([SQUOTE] + DEFINITION + [SQUOTE])

  predicate NeedsNative(ops: seq<Operation>) {
    exists i :: 0 <= i < |ops| && IsNative(ops[i])
  }

  function Script(body: wstring, admin: bool, native: bool): wstring {
    (if admin then REQUIRES + CRLF else []) + (STOP + CRLF) + (if native then HELPER + CRLF else []) + body
  }

  function Rendered(ops: seq<Operation>, adminCheck: bool): wstring {
    Script(Body(ops, None), adminCheck && NeedsAdmin(ops), NeedsNative(ops))
  }

  lemma UnfoldBody(ops: seq<Operation>, current: Option<wstring>)
    requires ops != []
    ensures Body(ops, current) ==
              var op := ops[0];
              if Fault(op).Some? then Body(ops[1..], current)
              else if op.RemoveKey? then LineOf(op) + Body(ops[1..], None)
              else
                (if current == Some(op.path) then []
                 else OpenLine(op.path)) + (LineOf(op) + Body(ops[1..], Some(op.path)))
  {
    hide Fault, LineOf, OpenLine;
  }

  /** What the loop appends for operation i is what the body has there. */
  lemma BodyStep(body: wstring, ops: seq<Operation>, i: nat, current: Option<wstring>)
    requires i < |ops|
    ensures var op, all := ops[i], body + Body(ops[i..], current);
            && (Fault(op).Some? ==> body + Body(ops[i + 1..], current) == all)
            && (Fault(op).None? && op.RemoveKey? ==> (body + LineOf(op)) + Body(ops[i + 1..], None) == all)
            && (Fault(op).None? && !op.RemoveKey? ==>
                  ((body + (if current == Some(op.path) then []
                            else OpenLine(op.path))) + LineOf(op)) + Body(ops[i + 1..], Some(op.path)) == all)
  {
    hide Fault, LineOf, OpenLine, Body;
    var op, rest := ops[i], ops[i..];
    assert rest[0] == op && rest[1..] == ops[i + 1..];
    UnfoldBody(rest, current);
    var open := if current == Some(op.path) then [] else OpenLine(op.path);
    ConcatAssoc(body, LineOf(op), Body(ops[i + 1..], None));
    ConcatAssoc(body + open, LineOf(op), Body(ops[i + 1..], Some(op.path)));
    ConcatAssoc(body, open, LineOf(op) + Body(ops[i + 1..], Some(op.path)));
  }

  lemma RenderedIs(ops: seq<Operation>, adminCheck: bool)
    ensures Rendered(ops, adminCheck) ==
              (if adminCheck && NeedsAdmin(ops) then REQUIRES + CRLF
               else []) + (STOP + CRLF) + (if NeedsNative(ops) then HELPER + CRLF else [])
              + Body(ops, None)
  {
    hide Body, NeedsAdmin, NeedsNative, REQUIRES, STOP, HELPER;
  }

  lemma SkippedStep(ops: seq<Operation>, i: nat)
    requires i < |ops|
    ensures Skipped(ops[..i + 1]) == Skipped(ops[..i]) + if Fault(ops[i]).Some? then [Skip(ops[i], Fault(ops[i]).value)]
                                                         else []
  {
    hide Fault;
    assert ops[..i + 1][..i] == ops[..i];
  }

  lemma BodyEnd(body: wstring, ops: seq<Operation>, current: Option<wstring>)
    ensures body + Body(ops[|ops|..], current) == body
    ensures Skipped(ops[..|ops|]) == Skipped(ops) && NeedsNative(ops[..|ops|]) == NeedsNative(ops)
  {
    assert ops[..|ops|] == ops;
  }

  method RenderPowerShell(operations: seq<Operation>, adminCheck: bool) returns (script: wstring, skipped: seq<Skip>)
    ensures script == Rendered(operations, adminCheck)
    ensures skipped == Skipped(operations)
  {
    hide Fault, LineOf, OpenLine, Body, Skipped, IsNative, NeedsNative, NeedsAdmin, W, HELPER, STOP, REQUIRES, Literal;
    hide SubPath, DotNetValue,
      Rendered, Script, CRLF;
    var body: wstring := [];
    var native := false;
    var current: Option<wstring> := None;
    skipped := [];
    BodyStart(operations);
    NothingAround(Body(operations, None));
    for i := 0 to |operations|
      invariant body + Body(operations[i..], current) == Body(operations, None)
      invariant native <==> NeedsNative(operations[..i])
      invariant skipped == Skipped(operations[..i])
    {
      var operation := operations[i];
      BodyStep(body, operations, i, current);
      SkippedStep(operations, i);
      NativeStep(operations, i);
      var subLiteral := Literal(SubPath(operation.path));
      var name := Literal(NameOf(operation));
      if subLiteral.None? || name.None? {
        skipped := skipped + [Skip(operation, ControlCharacters)];
        continue;
      }
      if operation.RemoveKey? {
        if SubPath(operation.path) == [] {
          skipped := skipped + [Skip(operation, RootKey)];
          continue;
        }
        body := body + LineOf(operation);
        current := None;
        continue;
      }
      assert body + [] == body;
      if current.None? || current.value != operation.path {
        body := body + OpenLine(operation.path);
        current := Some(operation.path);
      }
      body := body + LineOf(operation);
      if operation.SetValue? && DotNetValue(operation.value).None? {
        native := true;
      }
    }
    BodyEnd(body, operations, current);
    RenderedIs(operations, adminCheck);
    var admin := adminCheck && NeedsAdmin(operations);
    script := (if admin then REQUIRES + CRLF else []) + (STOP + CRLF) + (if native then HELPER + CRLF else []) + body;
  }

  lemma BodyStart(ops: seq<Operation>)
    ensures ops[0..] == ops && ops[..0] == [] && Skipped([]) == [] && !NeedsNative([])
  {}

  lemma NativeStep(ops: seq<Operation>, i: nat)
    requires i < |ops|
    ensures var op := ops[i];
            && (Fault(op) == if Literal(SubPath(op.path)).None?
                || Literal(NameOf(op)).None? then Some(ControlCharacters)
                             else if op.RemoveKey? && SubPath(op.path) == [] then Some(RootKey)
                             else None)
            && (NeedsNative(ops[..i + 1])
                <==> NeedsNative(ops[..i]) || (Fault(op).None? && op.SetValue? && DotNetValue(op.value).None?))
  {
    hide Literal, SubPath, DotNetValue, Fault;
    assert ops[..i + 1] == ops[..i] + [ops[i]];
    if NeedsNative(ops[..i]) {
      var j :| 0 <= j < i && IsNative(ops[..i][j]);
      assert ops[..i + 1][j] == ops[..i][j];
    }
    if IsNative(ops[i]) { assert IsNative(ops[..i + 1][i]); }
    if NeedsNative(ops[..i + 1]) && !IsNative(ops[i]) {
      var j :| 0 <= j < i + 1 && IsNative(ops[..i + 1][j]);
      assert ops[..i][j] == ops[..i + 1][j];
    }
    FaultIs(ops[i]);
  }

  lemma FaultIs(op: Operation)
    ensures Fault(op) == if Literal(SubPath(op.path)).None? || Literal(NameOf(op)).None? then Some(ControlCharacters)
                         else if op.RemoveKey? && SubPath(op.path) == [] then Some(RootKey)
                         else None
  {
    hide Literal, SubPath;
  }
}
