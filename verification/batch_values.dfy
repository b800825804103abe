/** Which values a batch script can hold. */
module BatchValues {
  import opened Text
  import opened ValueFormat
  import opened MultiStrings
  import opened RegExe
  import opened BatchWriter

  // ----- numbers and bytes

  lemma HexHasNoBreak(text: wstring)
    requires AllHex(text)
    ensures !HasLineBreak(text) && !HasLineBreak([0x30, 0x78] + text)
  {
    assert forall c: wchar :: c in text ==> HexDigitValue(c) >= 0;
  }

  lemma NumberIsBuilt(kind: uint32, data: seq<byte>)
    requires IsNumberKind(kind) && |data| == NumberWidth(kind)
    ensures BuildNumber(kind, [0x30, 0x78] + HexText(ReadUnsigned(data, |data|))) == Some(data)
  {
    hide HexText, UnsignedBytes, ReadUnsigned, ParseUnsignedNumber, HexValue, TrimWhitespace;
    var n := ReadUnsigned(data, |data|);
    BytesOfNumber(data);
    HexTextValue(n);
    assert n < if kind == REG_QWORD then 0x1_0000_0000_0000_0000 else 0x1_0000_0000 by { Powers(); }
    PrefixedHexParses(HexText(n), 10);
    PrefixedFacts(HexText(n));
    TrimmedIsUnchanged([0x30, 0x78] + HexText(n));
  }

  lemma Powers()
    ensures Power16(16) == 0x1_0000_0000_0000_0000 && Power16(8) == 0x1_0000_0000
  {
    assert Power16(4) == 0x1_0000;
    assert Power16(8) == 0x1_0000 * 0x1_0000;
    assert Power16(12) == 0x1_0000 * 0x1_0000 * 0x1_0000;
    assert Power16(16) == 0x1_0000 * 0x1_0000 * 0x1_0000 * 0x1_0000;
  }

  lemma {:induction false} HexOfBytes(data: seq<byte>)
    ensures AllHex(ToHex(data, [])) && |ToHex(data, [])| == 2 * |data|
    decreases |data|
  {
    if data != [] {
      HexDigitsRead(data[0] as int / 16);
      HexDigitsRead(data[0] as int % 16);
      HexOfBytes(data[1..]);
    }
  }

  lemma BytesAreBuilt(data: seq<byte>)
    ensures BuildBinary(ToHex(data, [])) == Some(data) && !HasLineBreak(ToHex(data, []))
  {
    HexOfBytes(data);
    HexHasNoBreak(ToHex(data, []));
    HexRoundTrip(data, []);
    hide ToHex, AllHex, ParseHex;
  }

  // ----- strings

  lemma StringDecodes(text: wstring)
    requires NUL !in text
    ensures DecodeString(StringData(text)) == Some(text)
  {
    UnitsOfString(text);
    assert (text + [NUL])[..|text|] == text;
    assert DropTrailingNuls(text + [NUL]) == DropTrailingNuls(text);
    assert DropTrailingNuls(text) == text;
  }

  // ----- multi-strings

  /** No proper end of the separator is a start of it. */
  predicate IsBorderless(separator: wstring) {
    |separator| == 1 || (|separator| == 2 && separator[0] != separator[1])
  }

  lemma {:induction false} FindIs(text: wstring, pattern: wstring, start: nat, at: nat)
    requires start <= at && OccursAt(text, pattern, at)
    requires forall i: nat :: start <= i < at ==> !OccursAt(text, pattern, i)
    ensures FindText(text, pattern, start) == at
  {
    hide OccursAt;
    var r := FindText(text, pattern, start);
    assert r == -1 || at < r ==> !OccursAt(text, pattern, at);
  }

  /** The separator never straddles the end of an item. */
  lemma OccursInside(text: wstring, start: nat, item: wstring, separator: wstring, i: nat)
    requires HasAt(text, start, item + separator) && IsBorderless(separator)
    requires start <= i < start + |item| && OccursAt(text, separator, i)
    ensures OccursAt(item, separator, i - start)
  {
    UnitsAt(text, start, item + separator);
    UnitsAt(text, i, separator);
    assert i + |separator| <= start + |item| by {
      assert |separator| == 2 ==> text[i + 1] == separator[1];
    }
    assert item[i - start..i - start + |separator|] == separator;
  }

  /** An item that holds no separator ends at the separator behind it. */
  lemma ItemEnds(text: wstring, start: nat, item: wstring, separator: wstring)
    requires HasAt(text, start, item + separator) && IsBorderless(separator) && FindText(item, separator, 0) == -1
    ensures FindText(text, separator, start) == start + |item|
  {
    HasAtSplit(text, start, item, separator);
    var at := start + |item|;
    forall i: nat | start <= i < at ensures !OccursAt(text, separator, i) {
      assert !OccursAt(item, separator, i - start);
      if OccursAt(text, separator, i) {
        OccursInside(text, start, item, separator, i);
        assert false;
      }
    }
    hide OccursAt;
    FindIs(text, separator, start, at) by { HasAtOccurs(text, separator, at); }
  }

  lemma HasAtOccurs(text: wstring, pattern: wstring, i: nat)
    requires HasAt(text, i, pattern)
    ensures OccursAt(text, pattern, i)
  {}

  lemma UnitsAt(text: wstring, i: nat, piece: wstring)
    requires HasAt(text, i, piece)
    ensures forall k :: 0 <= k < |piece| ==> text[i + k] == piece[k]
    ensures forall k :: i <= k < i + |piece| ==> text[k] == piece[k - i]
  {
    forall k | 0 <= k < |piece| ensures text[i + k] == piece[k] { assert text[i..i + |piece|][k] == text[i + k]; }
  }

  lemma UnfoldPieces(text: wstring, separator: wstring, start: nat)
    requires start <= |text| && separator != []
    ensures var end := FindText(text, separator, start);
            Pieces(text, separator, start) ==
              if end == -1 then [text[start..]] else [text[start..end]] + Pieces(text, separator, end + |separator|)
  {}

  /** Joined items are split into the same items. */
  lemma {:induction false} JoinSplits(text: wstring, start: nat, items: seq<wstring>, separator: wstring)
    requires items != [] && IsBorderless(separator) && IsUnused(items, separator)
    requires start <= |text| && text[start..] == JoinItems(items, separator)
    ensures Pieces(text, separator, start) == items
    decreases |items|
  {
    hide Pieces, FindText, HasAt;
    assert FindText(items[0], separator, 0) == -1;
    UnfoldPieces(text, separator, start);
    if |items| == 1 {
      NothingFound(text, start, items[0], separator);
      assert items == [items[0]];
    } else {
      var item, rest := items[0], JoinItems(items[1..], separator);
      assert text[start..] == item + separator + rest;
      TailParts(text, start, item + separator, rest);
      ItemEnds(text, start, item, separator);
      HasAtItem(text, start, item, separator);
      JoinSplits(text, start + |item| + |separator|, items[1..], separator);
      assert items == [item] + items[1..];
    }
  }

  lemma TailParts(text: wstring, start: nat, a: wstring, b: wstring)
    requires start <= |text| && text[start..] == a + b
    ensures HasAt(text, start, a) && start + |a| <= |text| && text[start + |a|..] == b
  {
    assert text[start..start + |a|] == text[start..][..|a|];
    assert text[start + |a|..] == text[start..][|a|..];
  }

  lemma HasAtItem(text: wstring, start: nat, item: wstring, separator: wstring)
    requires HasAt(text, start, item + separator)
    ensures start + |item| <= |text| && text[start..start + |item|] == item
  {
    HasAtSplit(text, start, item, separator);
  }

  lemma NothingFound(text: wstring, start: nat, item: wstring, separator: wstring)
    requires start <= |text| && text[start..] == item && FindText(item, separator, 0) == -1
    ensures FindText(text, separator, start) == -1
  {
    var r := FindText(text, separator, start);
    if r >= 0 {
      assert item[r - start..r - start + |separator|] == text[r..r + |separator|];
      assert OccursAt(item, separator, r - start);
      assert false;
    }
  }

  /** Pieces never hold the separator. */
  lemma {:induction false} PiecesAreFree(text: wstring, separator: wstring, start: nat)
    requires start <= |text| && separator != []
    ensures IsUnused(Pieces(text, separator, start), separator)
    decreases |text| - start
  {
    hide FindText, IsUnused, Pieces;
    UnfoldPieces(text, separator, start);
    var end := FindText(text, separator, start);
    if end == -1 {
      SliceIsFree(text, separator, start, |text|);
      assert text[start..|text|] == text[start..];
      NothingHeld(separator);
      OneMoreFree(text[start..], [], separator);
      assert [text[start..]] + [] == [text[start..]];
    } else {
      SliceIsFree(text, separator, start, end);
      PiecesAreFree(text, separator, end + |separator|);
      OneMoreFree(text[start..end], Pieces(text, separator, end + |separator|), separator);
    }
  }

  lemma NothingHeld(separator: wstring)
    ensures IsUnused([], separator)
  {}

  lemma OneMoreFree(piece: wstring, rest: seq<wstring>, separator: wstring)
    requires FindText(piece, separator, 0) == -1 && IsUnused(rest, separator)
    ensures IsUnused([piece] + rest, separator)
  {
    hide FindText;
  }

  lemma SliceIsFree(text: wstring, separator: wstring, start: nat, end: nat)
    requires start <= end <= |text| && separator != []
    requires forall i: nat :: start <= i < end ==> !OccursAt(text, separator, i)
    ensures FindText(text[start..end], separator, 0) == -1
  {
    hide FindText;
    var item := text[start..end];
    var r := FindText(item, separator, 0);
    if r >= 0 {
      OccursInSlice(text, separator, start, end, r);
      assert false;
    }
  }

  lemma OccursInSlice(text: wstring, pattern: wstring, start: nat, end: nat, r: nat)
    requires start <= end <= |text| && OccursAt(text[start..end], pattern, r)
    ensures OccursAt(text, pattern, start + r)
  {
    var slice := text[start..end];
    forall k | 0 <= k < |pattern| ensures text[start + r + k] == pattern[k] {
      assert slice[r..r + |pattern|][k] == slice[r + k];
    }
    assert text[start + r..start + r + |pattern|] == pattern;
  }

  lemma {:induction false} JoinKeepsUnits(items: seq<wstring>, separator: wstring, c: wchar)
    requires c !in separator
    ensures c in JoinItems(items, separator) <==> exists i :: 0 <= i < |items| && c in items[i]
    decreases |items|
  {
    if |items| == 1 {
      assert items == [items[0]];
    } else if items != [] {
      JoinKeepsUnits(items[1..], separator, c);
      if i :| 0 <= i < |items| && c in items[i] {
        if i > 0 { assert c in items[1..][i - 1]; }
      }
      if i :| 0 <= i < |items| - 1 && c in items[1..][i] { assert c in items[i + 1]; }
    }
  }

  lemma SeparatorFacts(items: seq<wstring>)
    ensures var separator := PickSeparator(items);
            IsBorderless(separator) && separator != [] && !HasLineBreak(separator)
  {
    assert IsBorderless(DEFAULT_SEPARATOR);
    SeparatorHasNoBreak(items, DEFAULT_SEPARATOR, 0);
  }

  lemma {:induction false} SeparatorHasNoBreak(items: seq<wstring>, separator: wstring, candidate: nat)
    requires candidate <= |SEPARATORS| && !HasLineBreak(separator)
    ensures !HasLineBreak(PickFrom(items, separator, candidate))
    decreases |SEPARATORS| - candidate
  {
    hide IsUnused;
    if candidate < |SEPARATORS| {
      SeparatorHasNoBreak(items, [SEPARATORS[candidate]], candidate + 1);
    }
  }

  /** The text of a multi-string. */
  function ItemsText(items: seq<wstring>, separator: wstring): wstring {
    if items == [[]] then separator else JoinItems(items, separator)
  }

  lemma ItemsTextSplits(items: seq<wstring>, separator: wstring)
    requires ArePlainItems(items) || items == [[]]
    requires IsBorderless(separator) && IsUnused(items, separator)
    ensures TextItems(ItemsText(items, separator), separator) == Some(items)
  {
    var text := ItemsText(items, separator);
    hide Pieces, FindText, IsUnused;
    if items == [[]] {
      OnlySeparator(separator);
      var all: seq<wstring> := [[], []];
      assert all[..1] == items;
    } else if items != [] {
      assert text[0..] == text;
      JoinSplits(text, 0, items, separator);
      assert text != [] by { JoinNotEmpty(items, separator); }
      assert items[|items| - 1] != [];
      assert [] !in items;
    }
  }

  lemma JoinNotEmpty(items: seq<wstring>, separator: wstring)
    requires items != [] && items[0] != []
    ensures JoinItems(items, separator) != []
  {}

  lemma OnlySeparator(separator: wstring)
    requires separator != []
    ensures Pieces(separator, separator, 0) == [[], []]
  {
    assert OccursAt(separator, separator, 0);
    assert FindText(separator, separator, 0) == 0;
    assert FindText(separator, separator, |separator|) == -1;
    assert separator[|separator|..] == [] && separator[0..0] == [];
    UnfoldPieces(separator, separator, 0);
    UnfoldPieces(separator, separator, |separator|);
  }

  predicate HasNoBreaks(items: seq<wstring>) {
    forall i :: 0 <= i < |items| ==> !HasLineBreak(items[i])
  }

  lemma BreaksOfText(items: seq<wstring>, separator: wstring)
    requires !HasLineBreak(separator)
    ensures HasLineBreak(ItemsText(items, separator)) <==> !HasNoBreaks(items)
  {
    JoinKeepsUnits(items, separator, CR);
    JoinKeepsUnits(items, separator, LF);
    JoinKeepsUnits(items, separator, NUL);
    hide JoinItems;
    if items == [[]] { assert !HasLineBreak(items[0]); }
    if !HasNoBreaks(items) {
      var i :| 0 <= i < |items| && HasLineBreak(items[i]);
    }
  }

  /** The values a batch script can hold. */
  ghost predicate CanHold(value: RegistryValue) {
    var data := value.data;
    if value.kind == REG_SZ || value.kind == REG_EXPAND_SZ || value.kind == REG_NONE then
      exists text :: data == StringData(text) && !HasLineBreak(text)
    else if value.kind == REG_MULTI_SZ then
      var items := MultiStringItems(data);
      data == MultiStringData(items) && HasNoBreaks(items) && IsUnused(items, PickSeparator(items))
    else if IsNumberKind(value.kind) then |data| == NumberWidth(value.kind)
    else value.kind == REG_BINARY
  }

  lemma {:induction false} StoredItemsAreFilled(text: wstring, at: nat)
    requires at <= |text|
    ensures [] !in ItemsFrom(text, at)
    decreases |text| - at
  {
    hide Find, ItemsFrom;
    ItemsUnfold(text, at);
    if at < |text| && text[at] != NUL {
      var end := Find(text, NUL, at);
      if end != -1 {
        StoredItemsAreFilled(text, end + 1);
      }
    }
  }

  lemma ItemsUnfold(text: wstring, at: nat)
    requires at <= |text|
    ensures var end := Find(text, NUL, at);
            ItemsFrom(text, at) ==
              if at == |text| || text[at] == NUL then []
              else if end == -1 then [text[at..]]
              else [text[at..end]] + ItemsFrom(text, end + 1)
    ensures at < |text| && text[at] != NUL ==> Find(text, NUL, at) == -1 || Find(text, NUL, at) > at
  {
    hide Find;
  }

  lemma ItemsArePlain(data: seq<byte>)
    requires HasNoBreaks(MultiStringItems(data))
    ensures ArePlainItems(MultiStringItems(data)) || MultiStringItems(data) == [[]]
  {
    var items := MultiStringItems(data);
    if items != [[]] {
      if |data| % 2 == 0 { StoredItemsAreFilled(Units(data), 0); }
      hide ItemsFrom, MultiStringData;
      assert forall i :: 0 <= i < |items| ==> !HasLineBreak(items[i]);
    }
  }

  lemma {:induction false} PiecesHoldNoNul(text: wstring, separator: wstring, start: nat)
    requires start <= |text| && NUL !in text
    ensures forall i :: 0 <= i < |Pieces(text, separator, start)| ==> NUL !in Pieces(text, separator, start)[i]
    decreases |text| - start
  {
    hide FindText;
    var end := if separator == [] then -1 else FindText(text, separator, start);
    if end != -1 { PiecesHoldNoNul(text, separator, end + |separator|); }
  }

  lemma TextItemsFacts(text: wstring, separator: wstring)
    requires NUL !in text && separator != [] && TextItems(text, separator).Some?
    ensures var items := TextItems(text, separator).value;
            (ArePlainItems(items) || items == [[]]) && IsUnused(items, separator)
  {
    PiecesHoldNoNul(text, separator, 0);
    PiecesAreFree(text, separator, 0);
    hide Pieces, FindText;
  }

  lemma MultiStringHolds(value: RegistryValue)
    requires value.kind == REG_MULTI_SZ
    ensures BatchData(value).Some? <==> CanHold(value)
  {
    var items := MultiStringItems(value.data);
    var separator := PickSeparator(items);
    var text := ItemsText(items, separator);
    SeparatorFacts(items);
    BreaksOfText(items, separator);
    assert DataForm(value) == Some((text, separator));
    hide DataForm, PickSeparator, ItemsText, TextItems, HasNoBreaks, IsUnused, MultiStringItems;
    if CanHold(value) {
      ItemsArePlain(value.data);
      ItemsTextSplits(items, separator);
    }
    if BatchData(value).Some? {
      TextItemsFacts(text, separator);
      var stored := TextItems(text, separator).value;
      assert value.data == MultiStringData(stored);
      StoredAgain(stored);
    }
  }

  lemma StoredAgain(items: seq<wstring>)
    requires ArePlainItems(items) || items == [[]]
    ensures MultiStringItems(MultiStringData(items)) == items
  {
    if ArePlainItems(items) { ItemsRoundTrip(items); }
  }

  lemma StringHolds(value: RegistryValue)
    requires value.kind == REG_SZ || value.kind == REG_EXPAND_SZ || value.kind == REG_NONE
    ensures BatchData(value).Some? <==> CanHold(value)
  {
    hide StringData, DecodeString;
    if CanHold(value) {
      var text :| value.data == StringData(text) && !HasLineBreak(text);
      StringDecodes(text);
    }
  }

  /** A value is written exactly when its type is one of eight, its bytes are the ones the type's text form gives,
      and the text has no line break. */
  lemma BatchHoldsExactly(value: RegistryValue)
    ensures BatchData(value).Some? <==> CanHold(value)
  {
    if value.kind == REG_SZ || value.kind == REG_EXPAND_SZ || value.kind == REG_NONE {
      StringHolds(value);
    } else if value.kind == REG_MULTI_SZ {
      MultiStringHolds(value);
    } else if IsNumberKind(value.kind) {
      NumberHolds(value);
    } else if value.kind == REG_BINARY {
      BytesAreBuilt(value.data);
    }
    hide BuildNumber, BuildBinary, HexText, ToHex, ReadUnsigned, HasLineBreak, W;
  }

  lemma NumberHolds(value: RegistryValue)
    requires IsNumberKind(value.kind)
    ensures BatchData(value).Some? <==> CanHold(value)
  {
    hide BuildNumber, HexText, ReadUnsigned, HasLineBreak, W, IsNumberKind;
    assert IsNumberKind(value.kind) ==> CanHold(value) == (|value.data| == NumberWidth(value.kind)) by {
      NumberKinds(value);
    }
    if |value.data| == NumberWidth(value.kind) {
      NumberIsBuilt(value.kind, value.data);
      HexHasNoBreak(HexText(ReadUnsigned(value.data, |value.data|)));
      NumberForm(value);
    } else {
      NumberKinds(value);
    }
  }

  lemma NumberKinds(value: RegistryValue)
    requires IsNumberKind(value.kind)
    ensures CanHold(value) == (|value.data| == NumberWidth(value.kind))
    ensures |value.data| != NumberWidth(value.kind) ==> DataForm(value).None?
  {
    hide HexText, ReadUnsigned, W, NumberWidth;
  }

  lemma NumberForm(value: RegistryValue)
    requires IsNumberKind(value.kind) && |value.data| == NumberWidth(value.kind)
    ensures var text := [0x30, 0x78] + HexText(ReadUnsigned(value.data, |value.data|));
            && DataForm(value) == Some((text, DEFAULT_SEPARATOR))
            && BuildData(value.kind, text, DEFAULT_SEPARATOR) == BuildNumber(value.kind, text)
  {
    assert W("0x") == [0x30, 0x78];
    hide HexText, ReadUnsigned, W, BuildNumber;
  }
}
