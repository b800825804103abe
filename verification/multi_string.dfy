/** REG_MULTI_SZ data: items that end in NUL, and a NUL behind the last one. */
module MultiStrings {
  import opened Text
  import opened ValueFormat

  /** Items up to an empty one or the end. */
  function ItemsFrom(text: wstring, at: nat): seq<wstring>
    requires at <= |text|
    decreases |text| - at
  {
    if at == |text| || text[at] == NUL then []
    else
      var end := Find(text, NUL, at);
      if end == -1 then [text[at..]] else [text[at..end]] + ItemsFrom(text, end + 1)
  }

  function StoredItems(data: seq<byte>): seq<wstring> {
    if |data| % 2 != 0 then [] else ItemsFrom(Units(data), 0)
  }

  method ReadItems(data: seq<byte>) returns (items: seq<wstring>)
    ensures items == StoredItems(data)
  {
    hide Find, Units;
    items := [];
    if |data| % 2 != 0 {
      return;
    }
    var text := Units(data);
    var current := 0;
    while current < |text| && text[current] != NUL
      invariant current <= |text|
      invariant items + ItemsFrom(text, current) == ItemsFrom(text, 0)
      decreases |text| - current
    {
      var end := Find(text, NUL, current);
      if end == -1 {
        items := items + [text[current..]];
        return;
      }
      ConcatAssoc(items, [text[current..end]], ItemsFrom(text, end + 1));
      items := items + [text[current..end]];
      current := end + 1;
    }
  }

  /** Every item with its NUL. */
  function MultiText(items: seq<wstring>): wstring {
    if items == [] then [] else items[0] + [NUL] + MultiText(items[1..])
  }

  function MultiStringData(items: seq<wstring>): seq<byte> {
    StringData(MultiText(items))
  }

  /** The items of the data; a single empty item is told from none. */
  function MultiStringItems(data: seq<byte>): seq<wstring> {
    if data == MultiStringData([[]]) then [[]] else StoredItems(data)
  }

  predicate ArePlainItems(items: seq<wstring>) {
    forall i :: 0 <= i < |items| ==> items[i] != [] && NUL !in items[i]
  }

  lemma UnfoldUnits(data: seq<byte>)
    requires |data| % 2 == 0 && data != []
    ensures Units(data) == [(data[0] as int + 256 * data[1] as int) as wchar] + Units(data[2..])
  {}

  lemma UnitOfPair(data: seq<byte>, low: byte, high: byte, rest: seq<byte>)
    requires |rest| % 2 == 0 && |data| == |rest| + 2 && data[0] == low && data[1] == high && data[2..] == rest
    ensures Units(data) == [(low as int + 256 * high as int) as wchar] + Units(rest)
  {
    hide Units;
    UnfoldUnits(data);
  }

  /** One unit as two bytes, and back. */
  lemma UnitOfBytes(c: wchar, rest: seq<byte>)
    requires |rest| % 2 == 0
    ensures Units([(c as int % 256) as byte, (c as int / 256) as byte] + rest) == [c] + Units(rest)
  {
    hide Units;
    var low, high := (c as int % 256) as byte, (c as int / 256) as byte;
    UnitOfPair([low, high] + rest, low, high, rest);
  }

  lemma UnfoldStringData(text: wstring)
    ensures text == [] ==> StringData(text) == [0, 0]
    ensures text != [] ==>
              StringData(text) == [(text[0] as int % 256) as byte, (text[0] as int / 256) as byte]
                + StringData(text[1..])
  {}

  lemma NoUnits()
    ensures Units([]) == [] && [0, 0] + [] == [0 as byte, 0]
  {}

  lemma {:induction false} UnitsOfString(text: wstring)
    ensures Units(StringData(text)) == text + [NUL]
    decreases |text|
  {
    hide Units, StringData;
    UnfoldStringData(text);
    if text == [] {
      NoUnits();
      UnitOfBytes(NUL, []);
      assert [NUL] + [] == [] + [NUL];
    } else {
      UnitOfBytes(text[0], StringData(text[1..]));
      UnitsOfString(text[1..]);
      assert [text[0]] + (text[1..] + [NUL]) == text + [NUL];
    }
  }

  /** One item at `at`, then the rest. */
  lemma ItemAt(text: wstring, at: nat, item: wstring)
    requires item != [] && NUL !in item
    requires at + |item| < |text| && text[at..at + |item|] == item && text[at + |item|] == NUL
    ensures ItemsFrom(text, at) == [item] + ItemsFrom(text, at + |item| + 1)
  {
    assert forall i :: at <= i < at + |item| ==> text[i] == item[i - at] by {
      forall i | at <= i < at + |item| ensures text[i] == item[i - at] {
        assert text[at..at + |item|][i - at] == text[i];
      }
    }
    assert text[at] == item[0];
    var end := Find(text, NUL, at);
    assert end == at + |item|;
  }

  lemma {:induction false} ItemsRead(before: wstring, items: seq<wstring>)
    requires ArePlainItems(items)
    ensures ItemsFrom(before + MultiText(items) + [NUL], |before|) == items
    decreases |items|
  {
    hide ItemsFrom;
    var text := before + MultiText(items) + [NUL];
    if items == [] {
      ItemsEnd(text, |before|);
    } else {
      var item := items[0];
      ItemPlace(before, item, MultiText(items[1..]));
      ItemAt(text, |before|, item);
      ItemsRead(before + item + [NUL], items[1..]);
      assert items == [item] + items[1..];
    }
  }

  lemma ItemsEnd(text: wstring, at: nat)
    requires at < |text| && text[at] == NUL
    ensures ItemsFrom(text, at) == []
  {}

  lemma ItemPlace(before: wstring, item: wstring, rest: wstring)
    ensures var text := before + (item + [NUL] + rest) + [NUL];
            && |before| + |item| < |text| && text[|before|..|before| + |item|] == item && text[|before| + |item|] == NUL
            && text == before + item + [NUL] + rest + [NUL]
  {}

  /** Items without NULs and empty items survive being stored. */
  lemma ItemsRoundTrip(items: seq<wstring>)
    requires ArePlainItems(items)
    ensures MultiStringItems(MultiStringData(items)) == items
  {
    hide *;
    UnitsOfString(MultiText(items));
    UnitsOfString(MultiText([[]]));
    ItemsRead([], items);
    EmptyItemText();
    NotTwoNuls(items);
    StoredFacts(MultiText(items));
    NothingAround(MultiText(items));
    UnfoldItems(items);
  }

  /** The text of plain items does not start as the text of a single empty one does. */
  lemma NotTwoNuls(items: seq<wstring>)
    requires ArePlainItems(items)
    ensures MultiText(items) + [NUL] != [NUL, NUL]
  {
    if items == [] {
      assert MultiText(items) + [NUL] == [NUL];
    } else {
      assert (MultiText(items) + [NUL])[0] == items[0][0];
    }
  }

  lemma StoredFacts(text: wstring)
    ensures var data := StringData(text); |data| % 2 == 0 && StoredItems(data) == ItemsFrom(Units(data), 0)
  {
    hide StringData, Units, ItemsFrom;
  }

  lemma UnfoldItems(items: seq<wstring>)
    ensures MultiStringData(items) == StringData(MultiText(items))
            && MultiStringData([[]]) == StringData(MultiText([[]]))
    ensures var data := MultiStringData(items);
            MultiStringItems(data) == if data == MultiStringData([[]]) then [[]] else StoredItems(data)
  {
    hide StringData, MultiText, StoredItems;
  }

  lemma EmptyItemText()
    ensures MultiText([[]]) + [NUL] == [NUL, NUL]
  {}
}
