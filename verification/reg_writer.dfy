/** The .reg writer. */
module RegWriter {
  import opened Text
  import opened ValueFormat
  import opened Operations
  import opened RegSyntax

  const CRLF: wstring := [CR, LF]
  const HEX_LINE_LIMIT := 77

  /** The bytes of hexadecimal data, wrapped once a physical line reaches the limit; `line` units stand in it
      already. */
  function HexBody(data: seq<byte>, line: nat): wstring
    decreases |data|
  {
    if data == [] then []
    else if |data| == 1 then HexPair(data[0])
    else if line + 3 >= HEX_LINE_LIMIT then
      HexPair(data[0]) + ([COMMA, BACKSLASH] + (CRLF + ([SPACE, SPACE] + HexBody(data[1..], 2))))
    else HexPair(data[0]) + ([COMMA] + HexBody(data[1..], line + 3))
  }

  method AppendHexLine(output: wstring, prefix: wstring, data: seq<byte>) returns (out: wstring)
    ensures out == output + prefix + HexBody(data, |prefix|) + CRLF
  {
    out := output + prefix;
    var line: nat := |prefix|;
    assert data[0..] == data;
    for index := 0 to |data|
      invariant index < |data| || data == []
      invariant out + HexBody(data[index..], line) == output + prefix + HexBody(data, |prefix|)
    {
      HexStep(out, data, index, line);
      out := out + HexPair(data[index]);
      if index + 1 == |data| {
        break;
      }
      out := out + [COMMA];
      line := line + 3;
      if line >= HEX_LINE_LIMIT {
        out := out + [BACKSLASH, CR, LF, SPACE, SPACE];
        line := 2;
      }
    }
    assert data == [] ==> data[0..] == [] && out + [] == out;
    out := out + CRLF;
  }

  lemma HexStep(out: wstring, data: seq<byte>, index: nat, line: nat)
    requires index < |data|
    ensures index + 1 == |data| ==> out + HexPair(data[index]) == out + HexBody(data[index..], line)
    ensures index + 1 < |data| && line + 3 < HEX_LINE_LIMIT ==>
              ((out + HexPair(data[index])) + [COMMA]) + HexBody(data[index + 1..], line + 3)
                == out + HexBody(data[index..], line)
    ensures index + 1 < |data| && line + 3 >= HEX_LINE_LIMIT ==>
              (((out + HexPair(data[index])) + [COMMA]) + [BACKSLASH, CR, LF, SPACE, SPACE])
                + HexBody(data[index + 1..], 2)
              == out + HexBody(data[index..], line)
  {
    hide HexBody, HexPair;
    var rest := data[index..];
    assert rest[0] == data[index] && rest[1..] == data[index + 1..];
    UnfoldHexBody(rest, line);
    WrapText(out, HexPair(data[index]), HexBody(data[index + 1..], 2));
    CommaText(out, HexPair(data[index]), HexBody(data[index + 1..], line + 3));
  }

  lemma WrapText(out: wstring, pair: wstring, rest: wstring)
    ensures (((out + pair) + [COMMA]) + [BACKSLASH, CR, LF, SPACE, SPACE]) + rest
            == out + (pair + ([COMMA, BACKSLASH] + (CRLF + ([SPACE, SPACE] + rest))))
  {}

  lemma CommaText(out: wstring, pair: wstring, rest: wstring)
    ensures ((out + pair) + [COMMA]) + rest == out + (pair + ([COMMA] + rest))
  {}

  lemma UnfoldHexBody(data: seq<byte>, line: nat)
    requires data != []
    ensures HexBody(data, line) ==
              if |data| == 1 then HexPair(data[0])
              else if line + 3 >= HEX_LINE_LIMIT then
                HexPair(data[0]) + ([COMMA, BACKSLASH] + (CRLF + ([SPACE, SPACE] + HexBody(data[1..], 2))))
              else HexPair(data[0]) + ([COMMA] + HexBody(data[1..], line + 3))
  {}

  /** Whether the data is written as hexadecimal bytes. */
  predicate IsHex(v: RegistryValue) {
    !IsQuotable(v) && !(v.kind == REG_DWORD && |v.data| == 4)
  }

  /** What follows the name, before the line break. */
  function ValueTail(v: RegistryValue): wstring {
    if IsHex(v) then HexPrefix(v.kind) + HexBody(v.data, |NamePrefix(v.name) + HexPrefix(v.kind)|) else DataText(v)
  }

  function ValueText(v: RegistryValue): wstring {
    NamePrefix(v.name) + ValueTail(v) + CRLF
  }

  method AppendValue(output: wstring, value: RegistryValue) returns (out: wstring)
    ensures out == output + ValueText(value)
  {
    hide Escape, HexBody, HexPrefix, NamePrefix, W, PaddedHex, DecodeString, StringData;
    var name := NamePrefix(value.name);
    var text := DecodeString(value.data);
    if value.kind == REG_SZ && text.Some? && StringData(text.value) == value.data && !HasBreak(text.value) {
      var escaped := EscapeText(text.value);
      out := output + (name + ([DQUOTE] + escaped + [DQUOTE]) + CRLF);
    } else if value.kind == REG_DWORD && |value.data| == 4 {
      out := output + (name + (W("dword:") + PaddedHex(ReadUnsigned(value.data, 4), 8)) + CRLF);
    } else {
      out := AppendHexLine(output, name + HexPrefix(value.kind), value.data);
      assert out == output + (name + (HexPrefix(value.kind) + HexBody(value.data, |name + HexPrefix(value.kind)|))
                              + CRLF);
    }
  }

  const REG_HEADER: wstring := W("Windows Registry Editor Version 5.00") + CRLF + CRLF

  /** A blank line in front of everything but the first section. */
  function Gap(written: bool): wstring {
    if written then CRLF else []
  }

  // ----- the order of the values of a section

  /** The default value comes first, the others by name ignoring case. */
  predicate IsBefore(a: wstring, b: wstring) {
    if (a == []) != (b == []) then a == [] else CompareInsensitive(a, b) < 0
  }

  /** Behind everything that it does not come before. */
  function InsertValue(value: RegistryValue, sorted: seq<RegistryValue>): seq<RegistryValue> {
    if sorted == [] then [value]
    else if !IsBefore(value.name, sorted[|sorted| - 1].name) then sorted + [value]
    else InsertValue(value, sorted[..|sorted| - 1]) + [sorted[|sorted| - 1]]
  }

  function SortedValues(values: seq<RegistryValue>): seq<RegistryValue> {
    if values == [] then [] else InsertValue(values[|values| - 1], SortedValues(values[..|values| - 1]))
  }

  predicate ValuesAreSorted(values: seq<RegistryValue>) {
    forall i, j :: 0 <= i < j < |values| ==> !IsBefore(values[j].name, values[i].name)
  }

  lemma BeforeIsOrder(a: wstring, b: wstring, c: wstring)
    ensures !(IsBefore(a, b) && IsBefore(b, a))
    ensures !IsBefore(b, a) && !IsBefore(c, b) ==> !IsBefore(c, a)
  {
    CompareAntisymmetric(a, b);
    CompareAntisymmetric(b, a);
    CompareAntisymmetric(b, c);
    CompareAntisymmetric(c, b);
    CompareAntisymmetric(a, c);
    CompareAntisymmetric(c, a);
    CompareTransitive(a, b, c);
    hide CompareInsensitive;
  }

  lemma UnfoldInsertValue(value: RegistryValue, sorted: seq<RegistryValue>)
    requires sorted != []
    ensures var before, last := sorted[..|sorted| - 1], sorted[|sorted| - 1];
            InsertValue(value, sorted) == if !IsBefore(value.name, last.name) then sorted + [value]
                                          else InsertValue(value, before) + [last]
  {
    hide IsBefore;
  }

  lemma {:induction false} InsertedValues(value: RegistryValue, sorted: seq<RegistryValue>)
    requires ValuesAreSorted(sorted)
    ensures ValuesAreSorted(InsertValue(value, sorted))
            && multiset(InsertValue(value, sorted)) == multiset(sorted) + multiset{value}
    decreases |sorted|
  {
    hide IsBefore, InsertValue;
    if sorted == [] {
      assert InsertValue(value, sorted) == [value] by { InsertFirst(value); }
    } else {
      var before, last := sorted[..|sorted| - 1], sorted[|sorted| - 1];
      UnfoldInsertValue(value, sorted);
      assert sorted == before + [last];
      assert forall i :: 0 <= i < |before| ==> before[i] == sorted[i];
      if !IsBefore(value.name, last.name) {
        forall i | 0 <= i < |sorted| ensures !IsBefore(value.name, sorted[i].name) {
          BeforeIsOrder(sorted[i].name, last.name, value.name);
        }
      } else {
        InsertedValues(value, before);
        BeforeIsOrder(value.name, last.name, value.name);
        forall i | 0 <= i < |InsertValue(value, before)|
          ensures !IsBefore(last.name, InsertValue(value, before)[i].name)
        {
          assert InsertValue(value, before)[i] in multiset(InsertValue(value, before));
        }
      }
    }
  }

  lemma InsertFirst(value: RegistryValue)
    ensures InsertValue(value, []) == [value]
  {}

  /** The sorted values are those of the section, each in its place. */
  lemma {:induction false} SortedValuesAreSorted(values: seq<RegistryValue>)
    ensures ValuesAreSorted(SortedValues(values)) && multiset(SortedValues(values)) == multiset(values)
    decreases |values|
  {
    hide IsBefore, InsertValue;
    if values != [] {
      var before, last := values[..|values| - 1], values[|values| - 1];
      SortedValuesAreSorted(before);
      InsertedValues(last, SortedValues(before));
      assert values == before + [last];
    }
  }

  class Writer {
    var output: wstring

    /** Whether anything follows the header. */
    predicate Written()
      reads this
    {
      |output| > |REG_HEADER|
    }

    constructor ()
      ensures output == REG_HEADER
    {
      output := REG_HEADER;
    }

    method AppendKeyHeader(prefix: wstring, path: wstring)
      modifies this
      ensures output == old(output) + Gap(old(Written())) + prefix + path + ([RBRACKET] + CRLF)
    {
      assert output + [] == output;
      if |output| > |REG_HEADER| {
        output := output + CRLF;
      }
      output := output + prefix + path + ([RBRACKET] + CRLF);
    }

    method AppendRemovedKey(path: wstring)
      modifies this
      ensures output == old(output) + Gap(old(Written())) + [LBRACKET, MINUS] + path + ([RBRACKET] + CRLF)
    {
      AppendKeyHeader([LBRACKET, MINUS], path);
    }

    method AppendValueLine(value: RegistryValue)
      modifies this
      ensures output == old(output) + ValueText(value)
    {
      output := AppendValue(output, value);
    }

    method AppendRemovedValue(name: wstring)
      modifies this
      ensures output == old(output) + (NamePrefix(name) + ([MINUS] + CRLF))
    {
      output := output + (NamePrefix(name) + ([MINUS] + CRLF));
    }

    /** A section and its values, in the order given or sorted by name. */
    method AppendKey(path: wstring, values: seq<RegistryValue>, sorted: bool)
      modifies this
      ensures output == old(output) + Gap(old(Written())) + [LBRACKET] + path + ([RBRACKET] + CRLF)
                        + ValuesText(if sorted then SortedValues(values) else values)
    {
      AppendKeyHeader([LBRACKET], path);
      ghost var head := output;
      var ordered := if sorted then SortedValues(values) else values;
      for i := 0 to |ordered|
        invariant output == head + ValuesText(ordered[..i])
      {
        ValuesTextLast(ordered, i);
        ConcatAssoc(head, ValuesText(ordered[..i]), ValueText(ordered[i]));
        AppendValueLine(ordered[i]);
      }
      assert ordered[..|ordered|] == ordered;
    }

    method Finish() returns (text: wstring)
      modifies this
      ensures text == old(output) + Gap(old(Written())) && output == []
    {
      assert output + [] == output;
      text := if |output| > |REG_HEADER| then output + CRLF else output;
      output := [];
    }
  }

  function ValuesText(values: seq<RegistryValue>): wstring {
    if values == [] then [] else ValuesText(values[..|values| - 1]) + ValueText(values[|values| - 1])
  }

  lemma ValuesTextLast(values: seq<RegistryValue>, i: nat)
    requires i < |values|
    ensures ValuesText(values[..i + 1]) == ValuesText(values[..i]) + ValueText(values[i])
  {
    hide ValueText;
    assert values[..i + 1][..i] == values[..i];
  }

  // ----- whole files

  function SectionText(path: wstring): wstring {
    [LBRACKET] + path + ([RBRACKET] + CRLF)
  }

  function RemovedText(path: wstring): wstring {
    [LBRACKET, MINUS] + path + ([RBRACKET] + CRLF)
  }

  /** The line of an operation inside its section. */
  function OperationText(op: Operation): wstring {
    match op
    case SetValue(_, v) => ValueText(v)
    case RemoveValue(_, name) => NamePrefix(name) + ([MINUS] + CRLF)
    case _ => []
  }

  /** Everything behind the header; `current` is the open section. */
  function Body(ops: seq<Operation>, current: Option<wstring>, written: bool): wstring
    decreases |ops|
  {
    if ops == [] then Gap(written)
    else if ops[0].RemoveKey? then Gap(written) + (RemovedText(ops[0].path) + Body(ops[1..], None, true))
    else if current == Some(ops[0].path) then OperationText(ops[0]) + Body(ops[1..], current, written)
    else Gap(written) + (SectionText(ops[0].path) + (OperationText(ops[0]) + Body(ops[1..], Some(ops[0].path), true)))
  }

  function RegText(ops: seq<Operation>): wstring {
    REG_HEADER + Body(ops, None, false)
  }

  lemma UnfoldBody(ops: seq<Operation>, current: Option<wstring>, written: bool)
    requires ops != []
    ensures Body(ops, current, written) ==
              if ops[0].RemoveKey? then Gap(written) + (RemovedText(ops[0].path) + Body(ops[1..], None, true))
              else if current == Some(ops[0].path) then OperationText(ops[0]) + Body(ops[1..], current, written)
              else
                Gap(written) + (SectionText(ops[0].path)
                                + (OperationText(ops[0]) + Body(ops[1..], Some(ops[0].path), true)))
  {
    hide OperationText, SectionText, RemovedText, Gap;
  }

  /** What the writer appends for operation i is what the file's text has there. */
  lemma FiveParts(out: wstring, gap: wstring, open: wstring, path: wstring, close: wstring, rest: wstring)
    ensures (out + gap + open + path + close) + rest == out + (gap + ((open + path + close) + rest))
  {}

  lemma BodyStep(out: wstring, ops: seq<Operation>, i: nat, current: Option<wstring>, written: bool)
    requires i < |ops|
    ensures var op, all := ops[i], out + Body(ops[i..], current, written);
            && (op.RemoveKey? ==>
                  (out + Gap(written) + [LBRACKET, MINUS] + op.path + ([RBRACKET] + CRLF))
                    + Body(ops[i + 1..], None, true) == all)
            && (!op.RemoveKey? && current == Some(op.path) ==>
                  (out + OperationText(op)) + Body(ops[i + 1..], current, written) == all)
            && (!op.RemoveKey? && current != Some(op.path) ==>
                  ((out + Gap(written) + [LBRACKET] + op.path + ([RBRACKET] + CRLF) + []) + OperationText(op))
                    + Body(ops[i + 1..], Some(op.path), true) == all)
  {
    hide OperationText, Body;
    var rest := ops[i..];
    assert rest[0] == ops[i] && rest[1..] == ops[i + 1..];
    UnfoldBody(rest, current, written);
    FiveParts(out, Gap(written), [LBRACKET, MINUS], ops[i].path, [RBRACKET] + CRLF, Body(ops[i + 1..], None, true));
    FiveParts(out, Gap(written), [LBRACKET], ops[i].path, [RBRACKET] + CRLF, OperationText(ops[i])
              + Body(ops[i + 1..], Some(ops[i].path), true));
    var head := out + Gap(written) + [LBRACKET] + ops[i].path + ([RBRACKET] + CRLF);
    assert head + [] == head;
    ConcatAssoc(head, OperationText(ops[i]), Body(ops[i + 1..], Some(ops[i].path), true));
    ConcatAssoc(out, OperationText(ops[i]), Body(ops[i + 1..], current, written));
  }

  lemma BodyEnd(out: wstring, ops: seq<Operation>, current: Option<wstring>, written: bool)
    ensures out + Body(ops[|ops|..], current, written) == out + Gap(written)
  {}

  method RenderReg(operations: seq<Operation>) returns (text: wstring)
    ensures text == RegText(operations)
  {
    hide ValueText, NamePrefix, Body, REG_HEADER, Gap;
    var writer := new Writer();
    var current: Option<wstring> := None;
    assert operations[0..] == operations;
    for i := 0 to |operations|
      invariant fresh(writer)
      invariant |writer.output| >= |REG_HEADER| && (current.Some? ==> writer.Written())
      invariant writer.output + Body(operations[i..], current, writer.Written()) == RegText(operations)
    {
      var operation := operations[i];
      BodyStep(writer.output, operations, i, current, writer.Written());
      if operation.RemoveKey? {
        writer.AppendRemovedKey(operation.path);
        current := None;
        continue;
      }
      assert operation.Key? ==> forall x: wstring :: x + OperationText(operation) == x;
      if current.None? || current.value != operation.path {
        writer.AppendKey(operation.path, [], true);
        current := Some(operation.path);
      }
      if operation.SetValue? {
        writer.AppendValueLine(operation.value);
      } else if operation.RemoveValue? {
        writer.AppendRemovedValue(operation.name);
      }
    }
    BodyEnd(writer.output, operations, current, writer.Written());
    text := writer.Finish();
  }
}
