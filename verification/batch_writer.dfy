/** Writing operations as a batch script of reg.exe commands. */
module BatchWriter {
  import opened Text
  import opened ValueFormat
  import opened Operations
  import opened KeyPaths
  import opened MultiStrings
  import opened RegExe
  import opened BatchSyntax

  const MAX_COMMAND_LINE := 8191

  predicate HasLineBreak(text: wstring) {
    CR in text || LF in text || NUL in text
  }

  predicate IsPadded(text: wstring) {
    text != [] && (IsSpace(text[0]) || IsSpace(text[|text| - 1]))
  }

  /** A part of the path exceeds the registry limit for names. */
  predicate HasLongNameFrom(path: wstring, start: nat)
    requires start <= |path| + 1
    decreases |path| + 1 - start
  {
    start <= |path|
    && (var found := Find(path, BACKSLASH, start);
        var end := if found == -1 then |path| else found;
        end - start > 254 || HasLongNameFrom(path, end + 1))
  }

  predicate HasLongName(path: wstring) {
    HasLongNameFrom(path, 0)
  }

  // ----- values

  predicate IsUnused(items: seq<wstring>, candidate: wstring) {
    forall i :: 0 <= i < |items| ==> FindText(items[i], candidate, 0) == -1
  }

  const SEPARATORS := W("|;,~#@$*+=")

  /** The first separator that no item contains, or the last one there is. */
  function PickFrom(items: seq<wstring>, separator: wstring, candidate: nat): wstring
    requires candidate <= |SEPARATORS|
    decreases |SEPARATORS| - candidate
  {
    if IsUnused(items, separator) || candidate == |SEPARATORS| then separator
    else PickFrom(items, [SEPARATORS[candidate]], candidate + 1)
  }

  function PickSeparator(items: seq<wstring>): wstring {
    PickFrom(items, DEFAULT_SEPARATOR, 0)
  }

  function JoinItems(items: seq<wstring>, separator: wstring): wstring {
    if items == [] then []
    else if |items| == 1 then items[0]
    else items[0] + separator + JoinItems(items[1..], separator)
  }

  predicate IsNumberKind(kind: uint32) {
    kind == REG_DWORD || kind == REG_DWORD_BIG_ENDIAN || kind == REG_QWORD
  }

  function NumberWidth(kind: uint32): nat {
    if kind == REG_QWORD then 8 else 4
  }

  /** The text and the separator that should give the data back. */
  function DataForm(value: RegistryValue): Option<(wstring, wstring)> {
    if value.kind == REG_SZ || value.kind == REG_EXPAND_SZ || value.kind == REG_NONE then
      var text := DecodeString(value.data);
      if text.None? then None else Some((text.value, DEFAULT_SEPARATOR))
    else if value.kind == REG_MULTI_SZ then
      var items := MultiStringItems(value.data);
      var separator := PickSeparator(items);
      Some((if items == [[]] then separator else JoinItems(items, separator), separator))
    else if IsNumberKind(value.kind) then
      if |value.data| != NumberWidth(value.kind) then None
      else Some((W("0x") + HexText(ReadUnsigned(value.data, NumberWidth(value.kind))), DEFAULT_SEPARATOR))
    else if value.kind == REG_BINARY then Some((ToHex(value.data, []), DEFAULT_SEPARATOR))
    else None
  }

  /** The same, but only if reg.exe would store exactly the data. */
  function BatchData(value: RegistryValue): Option<(wstring, wstring)> {
    var form := DataForm(value);
    if form.None? || HasLineBreak(form.value.0)
      || BuildData(value.kind, form.value.0, form.value.1) != Some(value.data) then None
    else form
  }

  // ----- lines

  const CRLF := [CR, LF]

  function KeyText(path: wstring): wstring {
    Quoted(Abbreviated(path), true)
  }

  function NameText(name: wstring): wstring {
    if name == [] then W("/ve") else W("/v ") + Quoted(name, true)
  }

  function KeyLine(path: wstring): wstring {
    W("reg query ") + KeyText(path) + W(" >nul 2>&1 || (reg add ") + KeyText(path) + W(" /f >nul && reg delete ")
    + KeyText(path) + W(" /ve /f >nul)")
  }

  function RemoveKeyLine(path: wstring): wstring {
    W("reg delete ") + KeyText(path) + W(" /f >nul 2>&1")
  }

  function RemoveValueLine(path: wstring, name: wstring): wstring {
    W("reg delete ") + KeyText(path) + W(" ") + NameText(name) + W(" /f >nul 2>&1")
  }

  function SeparatorText(separator: wstring): wstring {
    if separator == DEFAULT_SEPARATOR then [] else W(" /s ") + Quoted(separator, true)
  }

  /** A value line; empty when reg.exe can't write the data. */
  function ValueLine(path: wstring, value: RegistryValue): wstring {
    var form, kind := BatchData(value), TypeName(value.kind);
    if form.None? || kind.None? then []
    else
      W("reg add ") + KeyText(path) + W(" ") + NameText(value.name) + W(" /t ") + kind.value
        + SeparatorText(form.value.1)
      + W(" /d ") + Quoted(form.value.0, true) + W(" /f >nul")
  }

  function LineOf(op: Operation): wstring {
    match op
    case Key(path) => KeyLine(path)
    case RemoveKey(path) => RemoveKeyLine(path)
    case RemoveValue(path, name) => RemoveValueLine(path, name)
    case SetValue(path, value) => ValueLine(path, value)
  }

  // ----- what is skipped

  datatype Reason = LineBreak | Padded | LongName | RootKey | DataType | TooLong | InvalidUtf16

  /** An operation without a line, and why it has none. */
  datatype Skip = Skip(operation: Operation, reason: Reason)

  /** What is wrong with the names of an operation. */
  function NameFault(op: Operation): Option<Reason> {
    if HasLineBreak(op.path) || HasLineBreak(NameOf(op)) then Some(LineBreak)
    else if IsPadded(op.path) || IsPadded(NameOf(op)) then Some(Padded)
    else if HasLongName(op.path) then Some(LongName)
    else None
  }

  /** What is wrong with an operation or its line. */
  function Fault(op: Operation): Option<Reason> {
    if NameFault(op).Some? then NameFault(op)
    else if op.RemoveKey? && BACKSLASH !in op.path then Some(RootKey)
    else if op.SetValue? && BatchData(op.value).None? then Some(DataType)
    else if |LineOf(op)| > MAX_COMMAND_LINE then Some(TooLong)
    else if !IsWellFormedUtf16(LineOf(op)) then Some(InvalidUtf16)
    else None
  }

  /** A key line waits for the next operation when that one creates the key as well. */
  predicate IsDeferred(ops: seq<Operation>, i: nat)
    requires i < |ops|
  {
    && ops[i].Key? && NameFault(ops[i]).None? && i + 1 < |ops|
    && (ops[i + 1].Key? || ops[i + 1].SetValue?) && IsUnderKey(ops[i + 1].path, ops[i].path)
  }

  /** The operations with a line, the one that waits, and the skipped ones. */
  datatype Plan = Plan(emitted: seq<Operation>, pending: seq<Operation>, skipped: seq<Skip>)

  function PlanStep(ops: seq<Operation>, i: nat, plan: Plan): Plan
    requires i < |ops|
  {
    if IsDeferred(ops, i) then plan.(pending := [ops[i]])
    else if Fault(ops[i]).Some? then
      Plan(plan.emitted + plan.pending, [], plan.skipped + [Skip(ops[i], Fault(ops[i]).value)])
    else Plan(plan.emitted + [ops[i]], [], plan.skipped)
  }

  /** After the first `i` operations. */
  function Planned(ops: seq<Operation>, i: nat): Plan
    requires i <= |ops|
  {
    if i == 0 then Plan([], [], []) else PlanStep(ops, i - 1, Planned(ops, i - 1))
  }

  /** The operations the script holds a line for. */
  function Emitted(ops: seq<Operation>): seq<Operation> {
    Planned(ops, |ops|).emitted
  }

  /** The operations without a line, each with its reason. */
  function Skipped(ops: seq<Operation>): seq<Skip> {
    Planned(ops, |ops|).skipped
  }

  function LinesText(ops: seq<Operation>): wstring {
    if ops == [] then [] else LinesText(ops[..|ops| - 1]) + LineOf(ops[|ops| - 1]) + CRLF
  }

  predicate IsAscii(text: wstring) {
    forall i :: 0 <= i < |text| ==> text[i] < 0x80
  }

  const ECHO_OFF := W("@echo off\r\n")
  const CODE_PAGE := W("chcp 65001 >nul\r\n")
  const ADMIN_LINE := W("net session >nul 2>&1 || (") + W("echo Run this script ") + W("as administrator ")
    + W("& exit /b 1)")
  const ADMIN_CHECK := ADMIN_LINE + CRLF

  function Script(body: wstring, admin: bool): wstring {
    ECHO_OFF + (if IsAscii(body) then [] else CODE_PAGE) + (if admin then ADMIN_CHECK else []) + body
  }

  /** The batch script of the operations. */
  function Rendered(ops: seq<Operation>, adminCheck: bool): wstring {
    Script(LinesText(Emitted(ops)), adminCheck && NeedsAdmin(ops))
  }

  // ----- the loop

  method PickUnused(items: seq<wstring>) returns (separator: wstring)
    ensures separator == PickSeparator(items)
  {
    hide IsUnused;
    separator := DEFAULT_SEPARATOR;
    var candidate := 0;
    while candidate < |SEPARATORS| && !IsUnused(items, separator)
      invariant 0 <= candidate <= |SEPARATORS|
      invariant PickFrom(items, separator, candidate) == PickSeparator(items)
      decreases |SEPARATORS| - candidate
    {
      separator := [SEPARATORS[candidate]];
      candidate := candidate + 1;
    }
  }

  /** The line of an operation and what is wrong with it; a deferred key is neither checked for length nor encoding. */
  method RenderLine(ops: seq<Operation>, i: nat) returns (line: wstring, reason: Option<Reason>, deferred: bool)
    requires i < |ops|
    ensures deferred <==> IsDeferred(ops, i)
    ensures !deferred ==> reason == Fault(ops[i])
    ensures deferred || reason.None? ==> line == LineOf(ops[i])
  {
    hide HasLongName, HasLineBreak, IsPadded, BatchData, LineOf, IsWellFormedUtf16, IsUnderKey;
    var operation := ops[i];
    line, reason, deferred := LineOf(operation), None, false;
    if HasLineBreak(operation.path) || HasLineBreak(NameOf(operation)) {
      reason := Some(LineBreak);
    } else if IsPadded(operation.path) || IsPadded(NameOf(operation)) {
      reason := Some(Padded);
    } else if HasLongName(operation.path) {
      reason := Some(LongName);
    } else if operation.Key? {
      if i + 1 < |ops| && !ops[i + 1].RemoveKey? && !ops[i + 1].RemoveValue?
        && IsUnderKey(ops[i + 1].path, operation.path) {
        deferred := true;
        return;
      }
    } else if operation.RemoveKey? {
      if BACKSLASH !in operation.path {
        reason := Some(RootKey);
      }
    } else if operation.SetValue? && BatchData(operation.value).None? {
      reason := Some(DataType);
    }
    if reason.None? && |line| > MAX_COMMAND_LINE {
      reason := Some(TooLong);
    }
    if reason.None? && !IsWellFormedUtf16(line) {
      reason := Some(InvalidUtf16);
    }
  }

  method RenderBatch(operations: seq<Operation>, adminCheck: bool) returns (script: wstring, skipped: seq<Skip>)
    ensures script == Rendered(operations, adminCheck)
    ensures skipped == Skipped(operations)
  {
    hide LineOf, IsDeferred, Fault, NeedsAdmin, IsAscii, LinesText;
    var body: wstring := [];
    var pendingKey: wstring := [];
    skipped := [];
    LinesTextEmpty();
    for index := 0 to |operations|
      invariant var plan := Planned(operations, index);
                body == LinesText(plan.emitted) && pendingKey == LinesText(plan.pending) && skipped == plan.skipped
    {
      ghost var plan := Planned(operations, index);
      var operation := operations[index];
      var line, reason, deferred := RenderLine(operations, index);
      if deferred {
        LinesTextOne(operation);
        pendingKey := line + CRLF;
        continue;
      }
      if reason.Some? {
        skipped := skipped + [Skip(operation, reason.value)];
        LinesTextConcat(plan.emitted, plan.pending);
        body := body + pendingKey;
        pendingKey := [];
        continue;
      }
      pendingKey := [];
      LinesTextGrows(plan.emitted, operation);
      body := body + line + CRLF;
    }
    NothingPending(operations);
    var ascii := IsAscii(body);
    script := ECHO_OFF + (if ascii then []
                          else CODE_PAGE) + (if adminCheck && NeedsAdmin(operations) then ADMIN_CHECK else []) + body;
  }

  lemma LinesTextEmpty()
    ensures LinesText([]) == []
  {}

  lemma LinesTextGrows(ops: seq<Operation>, op: Operation)
    ensures LinesText(ops + [op]) == LinesText(ops) + LineOf(op) + CRLF
  {
    hide LineOf;
    assert (ops + [op])[..|ops|] == ops;
  }

  lemma LinesTextOne(op: Operation)
    ensures LinesText([op]) == LineOf(op) + CRLF
  {
    hide LineOf;
    assert [op][..0] == [];
    assert [] + LineOf(op) == LineOf(op);
  }

  lemma {:induction false} LinesTextConcat(a: seq<Operation>, b: seq<Operation>)
    ensures LinesText(a + b) == LinesText(a) + LinesText(b)
    decreases |b|
  {
    hide LineOf;
    if b == [] {
      assert a + b == a;
      assert LinesText(a) + [] == LinesText(a);
    } else {
      assert (a + b)[..|a + b| - 1] == a + b[..|b| - 1];
      LinesTextConcat(a, b[..|b| - 1]);
      var line := LineOf(b[|b| - 1]);
      assert LinesText(a) + LinesText(b[..|b| - 1]) + line + CRLF
        == LinesText(a) + (LinesText(b[..|b| - 1]) + line + CRLF);
    }
  }

  /** The last operation never waits. */
  lemma NothingPending(ops: seq<Operation>)
    ensures Planned(ops, |ops|).pending == []
  {
    hide Fault, NameFault;
  }
}
