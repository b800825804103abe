/** The values of the script interpreter, and how they become registry data. */
module PowerShellItems {
  import opened Text
  import opened ValueFormat
  import opened Operations
  import opened MultiStrings
  import opened PowerShellLexer

  datatype Item =
    | Nothing
    | Str(text: wstring)
    | Num(number: int, wide: bool)
    | Many(items: seq<Item>, cast: wstring)
    | OpenKey(path: wstring)

  type Variables = map<wstring, Item>

  function Elements(item: Item): seq<Item> {
    if item.Many? then item.items else [item]
  }

  function TextOf(item: Item): Option<wstring> {
    if item.Num? then Some(ToSigned(item.number))
    else if item.Str? then Some(item.text)
    else None
  }

  predicate IsByte(item: Item) {
    item.Num? && 0 <= item.number <= 0xFF
  }

  predicate AreBytes(items: seq<Item>) {
    forall i :: 0 <= i < |items| ==> IsByte(items[i])
  }

  function BytesOf(item: Item): Option<seq<byte>> {
    var elements := Elements(item);
    if AreBytes(elements) then Some(seq(|elements|, i requires 0 <= i < |elements| => elements[i].number as byte))
    else None
  }

  method ReadBytes(item: Item) returns (bytes: Option<seq<byte>>)
    ensures bytes == BytesOf(item)
  {
    var elements := Elements(item);
    var read: seq<byte> := [];
    for i := 0 to |elements|
      invariant |read| == i && forall j :: 0 <= j < i ==> IsByte(elements[j]) && read[j] == elements[j].number as byte
    {
      if !elements[i].Num? || elements[i].number < 0 || elements[i].number > 0xFF {
        return None;
      }
      read := read + [elements[i].number as byte];
    }
    bytes := Some(read);
    assert AreBytes(elements) && read == BytesOf(item).value;
  }

  predicate AreTexts(items: seq<Item>) {
    forall i :: 0 <= i < |items| ==> TextOf(items[i]).Some?
  }

  function TextsOf(items: seq<Item>): Option<seq<wstring>> {
    if AreTexts(items) then Some(seq(|items|, i requires 0 <= i < |items| => TextOf(items[i]).value)) else None
  }

  method ReadTexts(items: seq<Item>) returns (texts: Option<seq<wstring>>)
    ensures texts == TextsOf(items)
  {
    hide TextOf;
    var read: seq<wstring> := [];
    for i := 0 to |items|
      invariant |read| == i && forall j :: 0 <= j < i ==> TextOf(items[j]) == Some(read[j])
    {
      var text := TextOf(items[i]);
      if text.None? {
        return None;
      }
      read := read + [text.value];
    }
    texts := Some(read);
    assert AreTexts(items) && read == TextsOf(items).value;
  }

  // ----- casts

  const SYSTEM := W("system.")
  const BYTE_ARRAY := W("byte[]")
  const STRING_ARRAY := W("string[]")
  const VALUE_KIND := W("microsoft.win32.registryvaluekind")

  /** A type name in lower case, without the namespace of the built-in types. */
  function ShortType(name: wstring): wstring {
    var lower := ToLower(name);
    if StartsWithInsensitive(lower, SYSTEM) then lower[7..] else lower
  }

  function StrItems(texts: seq<wstring>): seq<Item> {
    seq(|texts|, i requires 0 <= i < |texts| => Str(texts[i]))
  }

  function ByteItems(bytes: seq<byte>): seq<Item> {
    seq(|bytes|, i requires 0 <= i < |bytes| => Num(bytes[i] as int, false))
  }

  /** The one byte that an element is, or holds. */
  function ByteOf(item: Item): Option<byte> {
    var bytes := BytesOf(item);
    if bytes.Some? && |bytes.value| == 1 then Some(bytes.value[0]) else None
  }

  function ByteElements(items: seq<Item>): Option<seq<byte>> {
    if forall i :: 0 <= i < |items| ==> ByteOf(items[i]).Some? then
    Some(seq(|items|, i requires 0 <= i < |items| => ByteOf(items[i]).value))
    else None
  }

  method ReadByteElements(items: seq<Item>) returns (bytes: Option<seq<byte>>)
    ensures bytes == ByteElements(items)
  {
    hide BytesOf;
    var read: seq<byte> := [];
    for i := 0 to |items|
      invariant |read| == i && forall j :: 0 <= j < i ==> ByteOf(items[j]) == Some(read[j])
    {
      var element := ReadBytes(items[i]);
      if element.None? || |element.value| != 1 {
        assert ByteOf(items[i]).None?;
        return None;
      }
      read := read + [element.value[0]];
    }
    bytes := Some(read);
    assert (forall i :: 0 <= i < |items| ==> ByteOf(items[i]).Some?) && read == ByteElements(items).value;
  }

  /** A cast to a number type; None for any other. */
  function NumberCast(kind: wstring, value: Item): Option<Item> {
    if !value.Num? then None
    else if kind == W("int") || kind == W("int32") then
      if -0x8000_0000 <= value.number <= 0x7FFF_FFFF then Some(Num(value.number, false)) else None
    else if kind == W("long") || kind == W("int64") || kind == W("uint32") || kind == W("uint64")
      || kind == W("ulong") then Some(Num(value.number, true))
    else None
  }

  function Cast(name: wstring, value: Item): Option<Item> {
    var kind := ShortType(name);
    if kind == W("void") then Some(Nothing)
    else if kind == STRING_ARRAY then
      var texts := TextsOf(Elements(value));
      if texts.None? then None else Some(Many(StrItems(texts.value), kind))
    else if kind == BYTE_ARRAY then
      var bytes := ByteElements(Elements(value));
      if bytes.None? then None else Some(Many(ByteItems(bytes.value), kind))
    else if kind == W("string") then
      if TextOf(value).None? then None else Some(Str(TextOf(value).value))
    else if kind == VALUE_KIND then Some(value)
    else NumberCast(kind, value)
  }

  method ReadCast(name: wstring, value: Item) returns (item: Option<Item>)
    ensures item == Cast(name, value)
  {
    hide ShortType, TextsOf, ByteElements, TextOf, NumberCast, W;
    var kind := ShortType(name);
    if kind != W("void") && kind == STRING_ARRAY {
      var texts := ReadTexts(Elements(value));
      return if texts.None? then None else Some(Many(StrItems(texts.value), kind));
    }
    if kind != W("void") && kind != STRING_ARRAY && kind == BYTE_ARRAY {
      var bytes := ReadByteElements(Elements(value));
      return if bytes.None? then None else Some(Many(ByteItems(bytes.value), kind));
    }
    item := Cast(name, value);
  }

  // ----- values

  const KIND_STRING := W("string")
  const KIND_EXPAND := W("expandstring")
  const KIND_DWORD := W("dword")
  const KIND_QWORD := W("qword")
  const KIND_BINARY := W("binary")
  const KIND_UNKNOWN := W("unknown")
  const KIND_NONE := W("none")
  const KIND_MULTI := W("multistring")

  /** The kind that the data has by itself, empty when there is none. */
  function InferredKind(data: Item): wstring {
    if data.Str? then KIND_STRING
    else if data.Num? then if data.wide then KIND_QWORD else KIND_DWORD
    else if data.Many? && data.cast == BYTE_ARRAY then KIND_BINARY
    else if data.Many? && data.cast == STRING_ARRAY then KIND_MULTI
    else []
  }

  function Wrapped(n: int): nat {
    n % 0x1_0000_0000_0000_0000
  }

  /** The number of a DWORD or QWORD value; negative ints wrap. */
  function NumberOfData(data: Item, qword: bool): Option<nat> {
    if data.Str? then
      var parsed := ParseUnsignedNumber(data.text, 10);
      if parsed.None? || (!qword && parsed.value as int > 0xFFFF_FFFF) then None else Some(parsed.value as nat)
    else if data.Num? then
      if !qword && (data.number < -0x8000_0000 || data.number > 0xFFFF_FFFF) then None else Some(Wrapped(data.number))
    else None
  }

  /** Type and bytes of a value of the given kind. */
  function DataOf(data: Item, kind: wstring): Option<(uint32, seq<byte>)> {
    if kind == KIND_STRING || kind == KIND_EXPAND then
      if TextOf(data).None? then None
      else Some((if kind == KIND_STRING then REG_SZ else REG_EXPAND_SZ, StringData(TextOf(data).value)))
    else if kind == KIND_DWORD || kind == KIND_QWORD then
      var number := NumberOfData(data, kind == KIND_QWORD);
      if number.None? then None
      else
        Some((if kind == KIND_QWORD then REG_QWORD
              else REG_DWORD, UnsignedBytes(number.value, if kind == KIND_QWORD then 8 else 4)))
    else if kind == KIND_BINARY || kind == KIND_UNKNOWN || kind == KIND_NONE then
      if BytesOf(data).None? then None
      else Some((if kind == KIND_NONE then REG_NONE else REG_BINARY, BytesOf(data).value))
    else if kind == KIND_MULTI then
      var texts := TextsOf(Elements(data));
      if texts.None? then None else Some((REG_MULTI_SZ, MultiStringData(texts.value)))
    else None
  }

  /** The operation that sets a value; an empty kind is inferred. */
  function SetOf(path: wstring, name: wstring, data: Item, kind: wstring): Option<Operation> {
    var lower := ToLower(kind);
    var stored := DataOf(data, if lower == [] then InferredKind(data) else lower);
    if stored.None? then None else Some(SetValue(path, RegistryValue(name, stored.value.0, stored.value.1)))
  }

  // ----- interpolated strings

  function PartText(part: Part, variables: Variables): Option<wstring> {
    if !part.isVariable then Some(part.text)
    else
      var name := ToLower(part.text);
      if name in variables && (variables[name].Str? || variables[name].Num?) then TextOf(variables[name]) else None
  }

  function Interpolated(parts: seq<Part>, variables: Variables): Option<wstring> {
    if parts == [] then Some([])
    else
      var before, last := Interpolated(parts[..|parts| - 1], variables), PartText(parts[|parts| - 1], variables);
      if before.None? || last.None? then None else Some(before.value + last.value)
  }

  method Interpolate(parts: seq<Part>, variables: Variables) returns (text: Option<wstring>)
    ensures text == Interpolated(parts, variables)
  {
    hide PartText;
    var read: wstring := [];
    for i := 0 to |parts|
      invariant Interpolated(parts[..i], variables) == Some(read)
    {
      assert parts[..i + 1][..i] == parts[..i];
      var part := PartText(parts[i], variables);
      if part.None? {
        NothingInterpolated(parts, i, variables);
        return None;
      }
      read := read + part.value;
    }
    assert parts[..|parts|] == parts;
    text := Some(read);
  }

  lemma {:induction false} NothingInterpolated(parts: seq<Part>, i: nat, variables: Variables)
    requires i < |parts| && PartText(parts[i], variables).None?
    ensures Interpolated(parts, variables).None?
    decreases |parts|
  {
    hide PartText;
    if i < |parts| - 1 { NothingInterpolated(parts[..|parts| - 1], i, variables); }
  }
}
