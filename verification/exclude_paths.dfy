/** The list of excluded paths as one line of text: joined with commas, quoted where needed, and split again. */
module ExcludePaths {
  import opened Text

  predicate AreSpaces(text: wstring) {
    forall i :: 0 <= i < |text| ==> text[i] == SPACE
  }

  function DropLeadingSpaces(text: wstring): wstring {
    if text != [] && text[0] == SPACE then DropLeadingSpaces(text[1..]) else text
  }

  function DropTrailingSpaces(text: wstring): wstring {
    if text != [] && text[|text| - 1] == SPACE then DropTrailingSpaces(text[..|text| - 1]) else text
  }

  // ----- splitting

  /** Ends an item; a quoted one keeps its spaces, an empty one is dropped. */
  function Finished(items: seq<wstring>, current: wstring, kept: bool): seq<wstring> {
    var item := if kept then current else DropTrailingSpaces(DropLeadingSpaces(current));
    if item == [] then items else items + [item]
  }

  predicate IsSeparator(c: wchar) {
    c == CR || c == LF || c == SEMICOLON || c == COMMA
  }

  function SplitFrom(text: wstring, i: nat, items: seq<wstring>, current: wstring, quoted: bool,
      kept: bool): seq<wstring>
    decreases |text| - i
  {
    if i >= |text| then Finished(items, current, kept)
    else
      var ch := text[i];
      if quoted then
        if ch != DQUOTE then SplitFrom(text, i + 1, items, current + [ch], true, kept)
        else if i + 1 < |text| && text[i + 1] == DQUOTE then
          SplitFrom(text, i + 2, items, current + [DQUOTE], true, kept)
        else SplitFrom(text, i + 1, items, current, false, kept)
      else if IsSeparator(ch) then SplitFrom(text, i + 1, Finished(items, current, kept), [], false, false)
      else if ch == DQUOTE && !kept && AreSpaces(current) then SplitFrom(text, i + 1, items, [], true, true)
      else if !kept || ch != SPACE then SplitFrom(text, i + 1, items, current + [ch], false, kept)
      else SplitFrom(text, i + 1, items, current, false, kept)
  }

  function Split(text: wstring): seq<wstring> {
    SplitFrom(text, 0, [], [], false, false)
  }

  method SplitExcludePaths(text: wstring) returns (items: seq<wstring>)
    ensures items == Split(text)
  {
    hide Finished, AreSpaces;
    items := [];
    var current: wstring := [];
    var quoted, kept := false, false;
    var i := 0;
    while i < |text|
      invariant SplitFrom(text, i, items, current, quoted, kept) == Split(text)
      decreases |text| - i
    {
      var ch := text[i];
      if quoted {
        if ch != DQUOTE {
          current := current + [ch];
        } else if i + 1 < |text| && text[i + 1] == DQUOTE {
          current := current + [DQUOTE];
          i := i + 1;
        } else {
          quoted := false;
        }
      } else if IsSeparator(ch) {
        items := Finished(items, current, kept);
        current, kept := [], false;
      } else if ch == DQUOTE && !kept && AreSpaces(current) {
        current := [];
        quoted, kept := true, true;
      } else if !kept || ch != SPACE {
        current := current + [ch];
      }
      i := i + 1;
    }
    items := Finished(items, current, kept);
  }

  // ----- joining

  predicate IsPlain(item: wstring) {
    && (forall i :: 0 <= i < |item| ==> !IsSeparator(item[i]) && item[i] != DQUOTE)
    && (item != [] ==> item[0] != SPACE && item[|item| - 1] != SPACE)
  }

  function Escaped(item: wstring): wstring {
    if item == [] then []
    else (if item[0] == DQUOTE then [DQUOTE, DQUOTE] else [item[0]]) + Escaped(item[1..])
  }

  function Part(item: wstring): wstring {
    if IsPlain(item) then item else [DQUOTE] + Escaped(item) + [DQUOTE]
  }

  function NonEmpty(items: seq<wstring>): seq<wstring> {
    if items == [] then []
    else if items[|items| - 1] == [] then NonEmpty(items[..|items| - 1])
    else NonEmpty(items[..|items| - 1]) + [items[|items| - 1]]
  }

  function Parts(items: seq<wstring>): wstring {
    if items == [] then []
    else if |items| == 1 then Part(items[0])
    else Parts(items[..|items| - 1]) + [COMMA, SPACE] + Part(items[|items| - 1])
  }

  function Joined(items: seq<wstring>): wstring {
    Parts(NonEmpty(items))
  }

  method AppendItem(start: wstring, item: wstring) returns (out: wstring)
    ensures out == start + Part(item)
  {
    if IsPlain(item) {
      return start + item;
    }
    out := start + [DQUOTE];
    for i := 0 to |item|
      invariant out + Escaped(item[i..]) == start + [DQUOTE] + Escaped(item)
    {
      assert item[i..][0] == item[i] && item[i..][1..] == item[i + 1..];
      ghost var rest := Escaped(item[i + 1..]);
      assert out + ([DQUOTE, DQUOTE] + rest) == out + [DQUOTE] + [DQUOTE] + rest;
      assert out + ([item[i]] + rest) == out + [item[i]] + rest;
      if item[i] == DQUOTE {
        out := out + [DQUOTE];
      }
      out := out + [item[i]];
    }
    assert item[|item|..] == [];
    assert out + Escaped([]) == out;
    ConcatAssoc(start, [DQUOTE], Escaped(item));
    ConcatAssoc(start, [DQUOTE] + Escaped(item), [DQUOTE]);
    out := out + [DQUOTE];
  }

  method JoinExcludePaths(items: seq<wstring>) returns (out: wstring)
    ensures out == Joined(items)
  {
    hide Part;
    out := [];
    for i := 0 to |items|
      invariant out == Parts(NonEmpty(items[..i]))
    {
      assert items[..i + 1][..i] == items[..i];
      if items[i] == [] {
        continue;
      }
      ghost var before := NonEmpty(items[..i]);
      PartsEmpty(before);
      NonEmptyItems(items[..i]);
      if out != [] {
        out := out + [COMMA, SPACE];
      }
      out := AppendItem(out, items[i]);
    }
    assert items[..|items|] == items;
  }

  lemma {:induction false} NonEmptyItems(items: seq<wstring>)
    ensures [] !in NonEmpty(items)
    decreases |items|
  {
    if items != [] { NonEmptyItems(items[..|items| - 1]); }
  }

  lemma PartIsThere(item: wstring)
    requires item != []
    ensures Part(item) != []
  {}

  /** The text is empty only when there is no item. */
  lemma PartsEmpty(items: seq<wstring>)
    ensures [] !in items ==> (Parts(items) == [] <==> items == [])
  {
    hide Part;
    if |items| == 1 && items[0] != [] { PartIsThere(items[0]); }
  }

  // ----- there and back

  lemma {:induction false} PlainRun(text: wstring, i: nat, item: wstring, items: seq<wstring>, current: wstring)
    requires HasAt(text, i, item) && forall k :: 0 <= k < |item| ==> !IsSeparator(item[k]) && item[k] != DQUOTE
    ensures SplitFrom(text, i, items, current, false, false)
            == SplitFrom(text, i + |item|, items, current + item, false, false)
    decreases |item|
  {
    if item == [] {
      assert current + item == current;
    } else {
      HasAtUnit(text, i, item);
      PlainRun(text, i + 1, item[1..], items, current + [item[0]]);
      assert current + [item[0]] + item[1..] == current + item;
    }
  }

  lemma {:induction false} QuotedRun(text: wstring, i: nat, item: wstring, items: seq<wstring>, current: wstring)
    requires HasAt(text, i, Escaped(item) + [DQUOTE])
             && (i + |Escaped(item)| + 1 < |text| ==> text[i + |Escaped(item)| + 1] != DQUOTE)
    ensures SplitFrom(text, i, items, current, true, true)
            == SplitFrom(text, i + |Escaped(item)| + 1, items, current + item, false, true)
    decreases |item|
  {
    hide HasAt;
    if item == [] {
      assert Escaped(item) + [DQUOTE] == [DQUOTE];
      HasAtUnit(text, i, [DQUOTE]);
      assert current + item == current;
    } else {
      var head := if item[0] == DQUOTE then [DQUOTE, DQUOTE] else [item[0]];
      var rest := Escaped(item[1..]) + [DQUOTE];
      assert Escaped(item) + [DQUOTE] == head + rest;
      HasAtSplit(text, i, head, rest);
      HasAtUnit(text, i, head);
      if |head| == 2 { HasAtUnit(text, i + 1, head[1..]); }
      QuotedRun(text, i + |head|, item[1..], items, current + [item[0]]);
      assert current + [item[0]] + item[1..] == current + item;
    }
  }

  lemma {:induction false} PlainTrims(spaces: wstring, item: wstring)
    requires AreSpaces(spaces) && IsPlain(item)
    ensures DropTrailingSpaces(DropLeadingSpaces(spaces + item)) == item
    decreases |spaces|
  {
    if spaces == [] {
      assert spaces + item == item;
    } else {
      assert (spaces + item)[1..] == spaces[1..] + item;
      PlainTrims(spaces[1..], item);
    }
  }

  /** What stands behind an item: nothing or a comma. */
  predicate ItemEnds(text: wstring, i: nat) {
    i == |text| || (i < |text| && text[i] == COMMA)
  }

  /** One item, behind at most some spaces. */
  lemma OneItem(text: wstring, i: nat, item: wstring, items: seq<wstring>, spaces: wstring)
    requires item != [] && HasAt(text, i, Part(item)) && ItemEnds(text, i + |Part(item)|) && AreSpaces(spaces)
    ensures var end := i + |Part(item)|;
            SplitFrom(text, i, items, spaces, false, false)
            == if end == |text| then items + [item] else SplitFrom(text, end + 1, items + [item], [], false, false)
  {
    if IsPlain(item) { PlainItem(text, i, item, items, spaces); } else { QuotedItem(text, i, item, items, spaces); }
  }

  lemma PlainItem(text: wstring, i: nat, item: wstring, items: seq<wstring>, spaces: wstring)
    requires IsPlain(item) && item != [] && HasAt(text, i, item) && ItemEnds(text, i + |item|) && AreSpaces(spaces)
    ensures var end := i + |item|;
            SplitFrom(text, i, items, spaces, false, false)
            == if end == |text| then items + [item] else SplitFrom(text, end + 1, items + [item], [], false, false)
  {
    PlainUnits(item);
    hide *;
    PlainRun(text, i, item, items, spaces);
    PlainTrims(spaces, item);
  }

  lemma PlainUnits(item: wstring)
    requires IsPlain(item)
    ensures forall k :: 0 <= k < |item| ==> !IsSeparator(item[k]) && item[k] != DQUOTE
  {}

  lemma QuotedItem(text: wstring, i: nat, item: wstring, items: seq<wstring>, spaces: wstring)
    requires item != [] && HasAt(text, i, [DQUOTE] + Escaped(item) + [DQUOTE]) && AreSpaces(spaces)
    requires ItemEnds(text, i + |Escaped(item)| + 2)
    ensures var end := i + |Escaped(item)| + 2;
            SplitFrom(text, i, items, spaces, false, false)
            == if end == |text| then items + [item] else SplitFrom(text, end + 1, items + [item], [], false, false)
  {
    CommaIsNoQuote(text, i + |Escaped(item)| + 2);
    hide *;
    var rest := Escaped(item) + [DQUOTE];
    ConcatAssoc([DQUOTE], Escaped(item), [DQUOTE]);
    HasAtSplit(text, i, [DQUOTE], rest);
    HasAtUnit(text, i, [DQUOTE]);
    QuotedRun(text, i + 1, item, items, []);
    assert [] + item == item;
  }

  lemma CommaIsNoQuote(text: wstring, end: nat)
    requires ItemEnds(text, end)
    ensures end < |text| ==> text[end] != DQUOTE
  {}

  /** The text of a list, item by item: what is read before the last part is the list before the last item. */
  lemma {:induction false} PartsSplit(text: wstring, items: seq<wstring>)
    requires items != [] && [] !in items && HasAt(text, 0, Parts(items)) && ItemEnds(text, |Parts(items)|)
    ensures var end := |Parts(items)|;
            Split(text) == if end == |text| then items else SplitFrom(text, end + 1, items, [], false, false)
    decreases |items|
  {
    hide SplitFrom, Part;
    var last := items[|items| - 1];
    if |items| == 1 {
      assert AreSpaces([]);
      OneItem(text, 0, last, [], []);
      assert [] + [last] == items;
    } else {
      var before, head := items[..|items| - 1], Parts(items[..|items| - 1]);
      HasAtSplit(text, 0, head + [COMMA, SPACE], Part(last));
      HasAtSplit(text, 0, head, [COMMA, SPACE]);
      HasAtUnit(text, |head|, [COMMA, SPACE]);
      HasAtUnit(text, |head| + 1, [COMMA, SPACE][1..]);
      PartsSplit(text, before);
      SpaceTaken(text, |head| + 1, before);
      assert AreSpaces([SPACE]);
      OneItem(text, |head| + 2, last, before, [SPACE]);
      assert before + [last] == items;
    }
  }

  lemma SpaceTaken(text: wstring, i: nat, items: seq<wstring>)
    requires i < |text| && text[i] == SPACE
    ensures SplitFrom(text, i, items, [], false, false) == SplitFrom(text, i + 1, items, [SPACE], false, false)
  {
    assert [] + [SPACE] == [SPACE];
  }

  /** Joining and splitting gives back the items that are not empty, whatever they hold. */
  lemma JoinedSplits(items: seq<wstring>)
    ensures Split(Joined(items)) == NonEmpty(items)
  {
    var list, text := NonEmpty(items), Joined(items);
    NonEmptyItems(items);
    if list != [] {
      HasAtAll(text);
      hide SplitFrom, Parts;
      PartsSplit(text, list);
    }
  }
}
