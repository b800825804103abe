/** Comparing two keys: names are found through a sorted index, every difference gives a line. */
module CompareKeys {
  import opened Text
  import opened ValueFormat
  import opened RegistryKeys

  // ----- the name index

  /** Every position once, in the order of the names. */
  predicate IsOrder(names: seq<wstring>, order: seq<nat>) {
    && |order| == |names| && (forall k :: 0 <= k < |order| ==> order[k] < |names|)
    && (forall i :: 0 <= i < |names| ==> i in order)
    && (forall a, b :: 0 <= a < b < |order| ==> CompareInsensitive(names[order[a]], names[order[b]]) <= 0)
  }

  /** The order of the first `n` positions. */
  predicate IsOrderOf(names: seq<wstring>, order: seq<nat>, n: nat)
    requires n <= |names|
  {
    && |order| == n && (forall k :: 0 <= k < n ==> order[k] < n) && (forall i :: 0 <= i < n ==> i in order)
    && (forall a, b :: 0 <= a < b < n ==> CompareInsensitive(names[order[a]], names[order[b]]) <= 0)
  }

  lemma NotLessTransitive(a: wstring, b: wstring, c: wstring)
    ensures CompareInsensitive(a, b) <= 0 && CompareInsensitive(b, c) <= 0 ==> CompareInsensitive(a, c) <= 0
  {
    CompareTransitive(a, b, c);
    hide CompareInsensitive;
  }

  lemma GreaterIsLess(a: wstring, b: wstring)
    ensures CompareInsensitive(a, b) > 0 ==> CompareInsensitive(b, a) < 0
  {
    CompareAntisymmetric(b, a);
    hide CompareInsensitive;
  }

  /** Where a name goes: behind everything that is not larger. */
  method Place(names: seq<wstring>, order: seq<nat>, n: nat) returns (at: nat)
    requires n < |names| && IsOrderOf(names, order, n)
    ensures at <= n
    ensures forall k :: 0 <= k < at ==> CompareInsensitive(names[order[k]], names[n]) <= 0
    ensures forall k :: at <= k < n ==> CompareInsensitive(names[n], names[order[k]]) <= 0
  {
    hide CompareInsensitive;
    at := n;
    while at > 0 && CompareInsensitive(names[order[at - 1]], names[n]) > 0
      invariant 0 <= at <= n
      invariant forall k :: at <= k < n ==> CompareInsensitive(names[n], names[order[k]]) <= 0
    {
      GreaterIsLess(names[order[at - 1]], names[n]);
      at := at - 1;
    }
    forall k | 0 <= k < at ensures CompareInsensitive(names[order[k]], names[n]) <= 0 {
      if k < at - 1 { NotLessTransitive(names[order[k]], names[order[at - 1]], names[n]); }
    }
  }

  method SortNames(names: seq<wstring>) returns (order: seq<nat>)
    ensures IsOrder(names, order)
  {
    hide CompareInsensitive;
    order := [];
    for n := 0 to |names|
      invariant IsOrderOf(names, order, n)
    {
      var at := Place(names, order, n);
      ghost var before := order;
      order := order[..at] + [n] + order[at..];
      PlacedIsOrder(names, before, order, n, at);
    }
  }

  lemma PlacedIsOrder(names: seq<wstring>, before: seq<nat>, order: seq<nat>, n: nat, at: nat)
    requires n < |names| && IsOrderOf(names, before, n) && at <= n && order == before[..at] + [n] + before[at..]
    requires forall k :: 0 <= k < at ==> CompareInsensitive(names[before[k]], names[n]) <= 0
    requires forall k :: at <= k < n ==> CompareInsensitive(names[n], names[before[k]]) <= 0
    ensures IsOrderOf(names, order, n + 1)
  {
    hide CompareInsensitive;
    assert forall k :: 0 <= k < |order| ==>
      order[k] == if k < at then before[k] else if k == at then n else before[k - 1];
    forall i | 0 <= i < n + 1 ensures i in order {
      if i == n {
        assert order[at] == n;
      } else {
        assert i in before;
        var k :| 0 <= k < n && before[k] == i;
        assert order[if k < at then k else k + 1] == i;
      }
    }
  }

  /** The first position whose name is not less; what is found has the name asked for. */
  method FindName(names: seq<wstring>, order: seq<nat>, name: wstring) returns (found: int)
    requires IsOrder(names, order)
    ensures -1 <= found < |names|
    ensures found >= 0 ==> EqualsInsensitive(names[found], name)
    ensures found == -1 ==> forall i :: 0 <= i < |names| ==> !EqualsInsensitive(names[i], name)
  {
    hide CompareInsensitive, EqualsInsensitive;
    var low, high := 0, |order|;
    while low < high
      invariant 0 <= low <= high <= |order|
      invariant forall k :: 0 <= k < low ==> CompareInsensitive(names[order[k]], name) < 0
      invariant forall k :: high <= k < |order| ==> CompareInsensitive(names[order[k]], name) >= 0
    {
      var middle := (low + high) / 2;
      if CompareInsensitive(names[order[middle]], name) < 0 {
        forall k | low <= k <= middle ensures CompareInsensitive(names[order[k]], name) < 0 {
          if k < middle { CompareTransitive(names[order[k]], names[order[middle]], name); }
        }
        low := middle + 1;
      } else {
        forall k | middle <= k < high ensures CompareInsensitive(names[order[k]], name) >= 0 {
          if k > middle { CompareTransitive(names[order[middle]], names[order[k]], name); }
        }
        high := middle;
      }
    }
    if low < |order| && CompareInsensitive(names[order[low]], name) == 0 {
      CompareZeroIsEquals(names[order[low]], name);
      return order[low];
    }
    forall i | 0 <= i < |names| ensures !EqualsInsensitive(names[i], name) {
      assert i in order;
      var k :| 0 <= k < |order| && order[k] == i;
      CompareZeroIsEquals(names[i], name);
      if k > low { CompareTransitive(names[order[low]], names[order[k]], name); }
    }
    found := -1;
  }

  // ----- lines

  /** '=' equal, '<' left only or different, '>' right only or different. */
  datatype Line = Line(mark: wchar, path: seq<wstring>, value: Option<RegistryValue>)

  predicate IsPrinted(output: wchar, line: Line) {
    var equal := line.mark == EQUALS;
    !(output == 0x6E || (output == 0x64 && equal) || (output == 0x73 && !equal))
  }

  function Printed(output: wchar, lines: seq<Line>): seq<Line> {
    if lines == [] then []
    else if IsPrinted(output, lines[|lines| - 1]) then Printed(output, lines[..|lines| - 1]) + [lines[|lines| - 1]]
    else Printed(output, lines[..|lines| - 1])
  }

  predicate AllEqual(lines: seq<Line>) {
    forall i :: 0 <= i < |lines| ==> lines[i].mark == EQUALS
  }

  lemma {:induction false} PrintedConcat(output: wchar, a: seq<Line>, b: seq<Line>)
    ensures Printed(output, a + b) == Printed(output, a) + Printed(output, b)
    decreases |b|
  {
    hide IsPrinted;
    if b == [] {
      assert a + b == a;
    } else {
      assert (a + b)[..|a + b| - 1] == a + b[..|b| - 1];
      PrintedConcat(output, a, b[..|b| - 1]);
    }
  }

  lemma AllEqualConcat(a: seq<Line>, b: seq<Line>)
    ensures AllEqual(a + b) <==> AllEqual(a) && AllEqual(b)
  {
    if AllEqual(a + b) {
      assert forall i :: 0 <= i < |a| ==> a[i] == (a + b)[i];
      assert forall i :: 0 <= i < |b| ==> b[i] == (a + b)[|a| + i];
    }
  }

  function SelectValues(values: seq<RegistryValue>, filter: Option<wstring>): seq<RegistryValue> {
    if filter.None? then values
    else if values == [] then []
    else if EqualsInsensitive(values[|values| - 1].name, filter.value) then
      SelectValues(values[..|values| - 1], filter) + [values[|values| - 1]]
    else SelectValues(values[..|values| - 1], filter)
  }

  function ValueLine(left: seq<RegistryValue>, right: seq<RegistryValue>, l: seq<wstring>, r: seq<wstring>,
      i: nat): seq<Line>
    requires i < |left|
  {
    var value, j := left[i], ValueIndex(right, left[i].name);
    if j >= 0 && right[j].kind == value.kind && right[j].data == value.data then [Line(EQUALS, l, Some(value))]
    else if j >= 0 then [Line(LESS, l, Some(value)), Line(GREATER, r, Some(right[j]))]
    else [Line(LESS, l, Some(value))]
  }

  function ValueLines(left: seq<RegistryValue>, right: seq<RegistryValue>, l: seq<wstring>, r: seq<wstring>,
      n: nat): seq<Line>
    requires n <= |left|
  {
    if n == 0 then [] else ValueLines(left, right, l, r, n - 1) + ValueLine(left, right, l, r, n - 1)
  }

  function RightValueLines(left: seq<RegistryValue>, right: seq<RegistryValue>, r: seq<wstring>, n: nat): seq<Line>
    requires n <= |right|
  {
    if n == 0 then []
    else RightValueLines(left, right, r, n - 1)
         + if ValueIndex(left, right[n - 1].name) == -1 then [Line(GREATER, r, Some(right[n - 1]))] else []
  }

  /** Shared subkeys in the left order, each with everything below it. */
  function SharedLines(left: Key, right: Key, l: seq<wstring>, r: seq<wstring>, filter: Option<wstring>,
      n: nat): seq<Line>
    requires n <= |left.children|
    decreases left, n
  {
    if n == 0 then []
    else
      var before, child := SharedLines(left, right, l, r, filter, n - 1), left.children[n - 1];
      var j := IndexOf(right.children, child.name);
      if j == -1 then before
      else
        before + ([Line(EQUALS, l + [child.name], None)]
                  + KeyLines(child, right.children[j], l + [child.name], r + [child.name], filter, true))
  }

  /** Subkeys of one side that the other side lacks. */
  function OneSidedLines(mark: wchar, keys: seq<Key>, other: seq<Key>, path: seq<wstring>, n: nat): seq<Line>
    requires n <= |keys|
  {
    if n == 0 then []
    else OneSidedLines(mark, keys, other, path, n - 1)
         + if IndexOf(other, keys[n - 1].name) == -1 then [Line(mark, path + [keys[n - 1].name], None)] else []
  }

  /** All lines of a comparison, whichever are printed. */
  function KeyLines(left: Key, right: Key, l: seq<wstring>, r: seq<wstring>, filter: Option<wstring>,
      recurse: bool): seq<Line>
    decreases left, |left.children| + 1
  {
    var lv, rv := SelectValues(left.values, filter), SelectValues(right.values, filter);
    var values := ValueLines(lv, rv, l, r, |lv|) + RightValueLines(lv, rv, r, |rv|);
    if !recurse then values
    else
      values + (SharedLines(left, right, l, r, filter, |left.children|)
                + (OneSidedLines(LESS, left.children, right.children, l, |left.children|)
                   + OneSidedLines(GREATER, right.children, left.children, r, |right.children|)))
  }

  // ----- the comparison

  predicate HasDistinctNames(key: Key) {
    && HasDistinctValues(key.values) && HasDistinctChildren(key.children)
    && forall i :: 0 <= i < |key.children| ==> HasDistinctNames(key.children[i])
  }

  function ValueNames(values: seq<RegistryValue>): (names: seq<wstring>)
    ensures |names| == |values| && forall i :: 0 <= i < |values| ==> names[i] == values[i].name
  {
    seq(|values|, i requires 0 <= i < |values| => values[i].name)
  }

  function KeyNames(keys: seq<Key>): (names: seq<wstring>)
    ensures |names| == |keys| && forall i :: 0 <= i < |keys| ==> names[i] == keys[i].name
  {
    seq(|keys|, i requires 0 <= i < |keys| => keys[i].name)
  }

  /** Where names are distinct the index finds what a search from the front finds. */
  lemma FoundIsValueIndex(values: seq<RegistryValue>, name: wstring, found: int)
    requires HasDistinctValues(values) && -1 <= found < |values|
    requires found >= 0 ==> EqualsInsensitive(values[found].name, name)
    requires found == -1 ==> forall i :: 0 <= i < |values| ==> !EqualsInsensitive(values[i].name, name)
    ensures found == ValueIndex(values, name)
  {
    hide EqualsInsensitive, ValueIndex;
    var r := ValueIndex(values, name);
    if r >= 0 && found >= 0 && r != found {
      NamesMeet2(values[r].name, values[found].name, name);
    }
  }

  lemma NamesMeet2(a: wstring, b: wstring, name: wstring)
    requires EqualsInsensitive(a, name) && EqualsInsensitive(b, name)
    ensures EqualsInsensitive(a, b) && EqualsInsensitive(b, a)
  {
    EqualsInsensitiveIsEqualLower(a, name);
    EqualsInsensitiveIsEqualLower(b, name);
    EqualsInsensitiveIsEqualLower(a, b);
    EqualsInsensitiveIsEqualLower(b, a);
  }

  lemma FoundIsIndexOf(keys: seq<Key>, name: wstring, found: int)
    requires HasDistinctChildren(keys) && -1 <= found < |keys|
    requires found >= 0 ==> EqualsInsensitive(keys[found].name, name)
    requires found == -1 ==> forall i :: 0 <= i < |keys| ==> !EqualsInsensitive(keys[i].name, name)
    ensures found == IndexOf(keys, name)
  {
    hide EqualsInsensitive, IndexOf;
    var r := IndexOf(keys, name);
    if r >= 0 && found >= 0 && r != found {
      NamesMeet2(keys[r].name, keys[found].name, name);
    }
  }

  lemma {:induction false} SelectedAreDistinct(values: seq<RegistryValue>, filter: Option<wstring>)
    requires HasDistinctValues(values)
    ensures HasDistinctValues(SelectValues(values, filter))
    ensures forall i :: 0 <= i < |SelectValues(values, filter)| ==> SelectValues(values, filter)[i] in values
    decreases |values|
  {
    hide EqualsInsensitive;
    if filter.Some? && values != [] {
      var before := values[..|values| - 1];
      SelectedAreDistinct(before, filter);
      var kept := SelectValues(before, filter);
      forall i | 0 <= i < |kept| ensures !EqualsInsensitive(kept[i].name, values[|values| - 1].name) {
        assert kept[i] in before;
      }
    }
  }

  /** The result of a comparison and its printed lines. */
  class Compare {
    const output: wchar
    var differs: bool
    var printed: seq<Line>

    /** Whether every key can be read. */
    const readable: bool

    constructor (output: wchar, readable: bool)
      ensures this.output == output && this.readable == readable && !differs && printed == []
    {
      this.output, this.readable, differs, printed := output, readable, false, [];
    }

    method AddLine(line: Line)
      modifies this
      ensures printed == old(printed) + Printed(output, [line]) && differs == (old(differs) || !AllEqual([line]))
    {
      assert [line][..0] == [];
      differs := differs || line.mark != EQUALS;
      if IsPrinted(output, line) {
        printed := printed + [line];
      }
      assert old(printed) + [] == old(printed);
    }
  }

  /** The state of a comparison after more lines. */
  predicate Extended(output: wchar, before: seq<Line>, differed: bool, after: seq<Line>, differs: bool,
      lines: seq<Line>)
  {
    after == before + Printed(output, lines) && differs == (differed || !AllEqual(lines))
  }

  lemma ExtendedTwice(output: wchar, p: seq<Line>, d: bool, a: seq<Line>, p1: seq<Line>, d1: bool, b: seq<Line>,
      p2: seq<Line>, d2: bool)
    requires Extended(output, p, d, p1, d1, a) && Extended(output, p1, d1, p2, d2, b)
    ensures Extended(output, p, d, p2, d2, a + b)
  {
    PrintedConcat(output, a, b);
    AllEqualConcat(a, b);
    ConcatAssoc(p, Printed(output, a), Printed(output, b));
    hide Printed, AllEqual;
  }

  lemma ExtendedThrice(output: wchar, p: seq<Line>, d: bool, a: seq<Line>, p1: seq<Line>, d1: bool, b: seq<Line>,
      p2: seq<Line>, d2: bool, c: seq<Line>,
                       p3: seq<Line>, d3: bool)
    requires Extended(output, p, d, p1, d1, a) && Extended(output, p1, d1, p2, d2, b)
             && Extended(output, p2, d2, p3, d3, c)
    ensures Extended(output, p, d, p3, d3, a + (b + c))
  {
    hide Extended;
    ExtendedTwice(output, p1, d1, b, p2, d2, c, p3, d3);
    ExtendedTwice(output, p, d, a, p1, d1, b + c, p3, d3);
  }

  lemma SharedLinesStep(left: Key, right: Key, l: seq<wstring>, r: seq<wstring>, filter: Option<wstring>, i: nat)
    requires i < |left.children|
    ensures SharedLines(left, right, l, r, filter, i + 1) ==
              var before, child := SharedLines(left, right, l, r, filter, i), left.children[i];
              var j := IndexOf(right.children, child.name);
              if j == -1 then before
              else
                before + ([Line(EQUALS, l + [child.name], None)]
                          + KeyLines(child, right.children[j], l + [child.name], r + [child.name], filter, true))
  {
    hide KeyLines, IndexOf;
  }

  lemma NoSharedLines(left: Key, right: Key, l: seq<wstring>, r: seq<wstring>, filter: Option<wstring>)
    ensures SharedLines(left, right, l, r, filter, 0) == []
  {}

  lemma ExtendedNot(output: wchar, p: seq<Line>, d: bool)
    ensures Extended(output, p, d, p, d, [])
  {
    assert p + [] == p;
  }

  /** Adds lines one by one. */
  method AddLines(compare: Compare, lines: seq<Line>)
    modifies compare
    ensures Extended(compare.output, old(compare.printed), old(compare.differs), compare.printed, compare.differs,
                     lines)
  {
    hide Printed, AllEqual, Extended;
    ghost var p, d := compare.printed, compare.differs;
    ExtendedNot(compare.output, p, d);
    assert lines[..0] == [];
    for i := 0 to |lines|
      invariant Extended(compare.output, p, d, compare.printed, compare.differs, lines[..i])
    {
      ghost var p1, d1 := compare.printed, compare.differs;
      compare.AddLine(lines[i]);
      ExtendedOnce(compare.output, p1, d1, compare.printed, compare.differs, lines[i]);
      ExtendedTwice(compare.output, p, d, lines[..i], p1, d1, [lines[i]], compare.printed, compare.differs);
      assert lines[..i + 1] == lines[..i] + [lines[i]];
    }
    assert lines[..|lines|] == lines;
  }

  lemma ExtendedOnce(output: wchar, p: seq<Line>, d: bool, p1: seq<Line>, d1: bool, line: Line)
    requires p1 == p + Printed(output, [line]) && d1 == (d || !AllEqual([line]))
    ensures Extended(output, p, d, p1, d1, [line])
  {}

  lemma ValueLinesStep(left: seq<RegistryValue>, right: seq<RegistryValue>, l: seq<wstring>, r: seq<wstring>, i: nat)
    ensures i < |left| ==>
              ValueLines(left, right, l, r, i + 1) == ValueLines(left, right, l, r, i) + ValueLine(left, right, l, r, i)
    ensures i < |right| ==>
              RightValueLines(left, right, r, i + 1) ==
                RightValueLines(left, right, r, i)
                  + if ValueIndex(left, right[i].name) == -1 then [Line(GREATER, r, Some(right[i]))] else []
    ensures ValueLines(left, right, l, r, 0) == [] && RightValueLines(left, right, r, 0) == []
  {
    hide ValueLine, ValueIndex;
  }

  /** The values on the left, in their order. */
  method CompareLeftValues(compare: Compare, left: seq<RegistryValue>, right: seq<RegistryValue>, l: seq<wstring>,
      r: seq<wstring>)
    requires HasDistinctValues(right)
    modifies compare
    ensures Extended(compare.output, old(compare.printed), old(compare.differs), compare.printed, compare.differs,
                     ValueLines(left, right, l, r, |left|))
  {
    hide Printed, AllEqual, Extended, IsOrder, EqualsInsensitive, HasDistinctValues, ValueLines;
    ghost var p, d, output := compare.printed, compare.differs, compare.output;
    ExtendedNot(output, p, d);
    ValueLinesStep(left, right, l, r, 0);
    var rightNames := ValueNames(right);
    var rightOrder := SortNames(rightNames);
    for i := 0 to |left|
      invariant Extended(output, p, d, compare.printed, compare.differs, ValueLines(left, right, l, r, i))
    {
      ghost var p1, d1 := compare.printed, compare.differs;
      var value := left[i];
      var j := FindName(rightNames, rightOrder, value.name);
      FoundIsValueIndex(right, value.name, j);
      var lines := [Line(LESS, l, Some(value))];
      if j >= 0 && right[j].kind == value.kind && right[j].data == value.data {
        lines := [Line(EQUALS, l, Some(value))];
      } else if j >= 0 {
        lines := [Line(LESS, l, Some(value)), Line(GREATER, r, Some(right[j]))];
      }
      AddLines(compare, lines);
      ValueLinesStep(left, right, l, r, i);
      ExtendedTwice(output, p, d, ValueLines(left, right, l, r, i), p1, d1, lines, compare.printed, compare.differs);
    }
  }

  /** The values that are on the right only. */
  method CompareRightValues(compare: Compare, left: seq<RegistryValue>, right: seq<RegistryValue>, r: seq<wstring>)
    requires HasDistinctValues(left)
    modifies compare
    ensures Extended(compare.output, old(compare.printed), old(compare.differs), compare.printed, compare.differs,
                     RightValueLines(left, right, r, |right|))
  {
    hide Printed, AllEqual, Extended, IsOrder, EqualsInsensitive, HasDistinctValues, RightValueLines;
    ghost var p, d, output := compare.printed, compare.differs, compare.output;
    ExtendedNot(output, p, d);
    ValueLinesStep(left, right, r, r, 0);
    var leftNames := ValueNames(left);
    var leftOrder := SortNames(leftNames);
    for i := 0 to |right|
      invariant Extended(output, p, d, compare.printed, compare.differs, RightValueLines(left, right, r, i))
    {
      ghost var p1, d1, before := compare.printed, compare.differs, RightValueLines(left, right, r, i);
      var j := FindName(leftNames, leftOrder, right[i].name);
      FoundIsValueIndex(left, right[i].name, j);
      var lines: seq<Line> := [];
      if j == -1 {
        lines := [Line(GREATER, r, Some(right[i]))];
      }
      AddLines(compare, lines);
      ValueLinesStep(left, right, r, r, i);
      ExtendedTwice(output, p, d, before, p1, d1, lines, compare.printed, compare.differs);
    }
  }

  method CompareValues(compare: Compare, left: seq<RegistryValue>, right: seq<RegistryValue>, l: seq<wstring>,
      r: seq<wstring>)
    requires HasDistinctValues(left) && HasDistinctValues(right)
    modifies compare
    ensures Extended(compare.output, old(compare.printed), old(compare.differs), compare.printed, compare.differs,
                     ValueLines(left, right, l, r, |left|) + RightValueLines(left, right, r, |right|))
  {
    hide *;
    ghost var p, d, output := compare.printed, compare.differs, compare.output;
    CompareLeftValues(compare, left, right, l, r);
    ghost var p1, d1 := compare.printed, compare.differs;
    CompareRightValues(compare, left, right, r);
    ExtendedTwice(output, p, d, ValueLines(left, right, l, r, |left|), p1, d1, RightValueLines(left, right, r, |right|),
                  compare.printed, compare.differs);
  }

  /** Lines for the subkeys of one side that the other side lacks. */
  method CompareOneSided(compare: Compare, mark: wchar, keys: seq<Key>, other: seq<Key>, order: seq<nat>,
      path: seq<wstring>)
    requires HasDistinctChildren(other) && IsOrder(KeyNames(other), order)
    modifies compare
    ensures Extended(compare.output, old(compare.printed), old(compare.differs), compare.printed, compare.differs,
                     OneSidedLines(mark, keys, other, path, |keys|))
  {
    hide Printed, AllEqual, Extended, IsOrder, EqualsInsensitive, HasDistinctChildren;
    ghost var p, d, output := compare.printed, compare.differs, compare.output;
    ExtendedNot(output, p, d);
    for i := 0 to |keys|
      invariant Extended(output, p, d, compare.printed, compare.differs, OneSidedLines(mark, keys, other, path, i))
    {
      ghost var p1, d1, before := compare.printed, compare.differs, OneSidedLines(mark, keys, other, path, i);
      var j := FindName(KeyNames(other), order, keys[i].name);
      FoundIsIndexOf(other, keys[i].name, j);
      var lines: seq<Line> := [];
      if j == -1 {
        lines := [Line(mark, path + [keys[i].name], None)];
      }
      AddLines(compare, lines);
      ExtendedTwice(output, p, d, before, p1, d1, lines, compare.printed, compare.differs);
    }
  }

  /** The shared subkeys in the left order, each compared with everything below it. */
  method CompareShared(compare: Compare, left: Key, right: Key, order: seq<nat>, l: seq<wstring>, r: seq<wstring>,
      filter: Option<wstring>)
    returns (ok: bool)
    requires HasDistinctNames(left) && HasDistinctNames(right) && IsOrder(KeyNames(right.children), order)
    modifies compare
    decreases left, 0
    ensures ok ==>
              Extended(compare.output, old(compare.printed), old(compare.differs), compare.printed, compare.differs,
                            SharedLines(left, right, l, r, filter, |left.children|))
    ensures compare.readable ==> ok
  {
    hide Printed, AllEqual, Extended, IsOrder, EqualsInsensitive, KeyLines, SharedLines, SelectValues;
    ghost var p0, d0, output := compare.printed, compare.differs, compare.output;
    var rightNames := KeyNames(right.children);
    ExtendedNot(output, p0, d0);
    NoSharedLines(left, right, l, r, filter);
    for i := 0 to |left.children|
      invariant Extended(output, p0, d0, compare.printed, compare.differs, SharedLines(left, right, l, r, filter, i))
    {
      ghost var p1, d1, before := compare.printed, compare.differs, SharedLines(left, right, l, r, filter, i);
      var child := left.children[i];
      var j := FindName(rightNames, order, child.name);
      FoundIsIndexOf(right.children, child.name, j);
      if j >= 0 {
        var line := Line(EQUALS, l + [child.name], None);
        AddLines(compare, [line]);
        ghost var p2, d2 := compare.printed, compare.differs;
        var compared := CompareTrees(compare, child, right.children[j], l + [child.name], r
                                     + [child.name], filter, true, false);
        if !compared {
          return false;
        }
        ghost var below := KeyLines(child, right.children[j], l + [child.name], r + [child.name], filter, true);
        ExtendedThrice(output, p0, d0, before, p1, d1, [line], p2, d2, below, compare.printed, compare.differs);
      }
      SharedLinesStep(left, right, l, r, filter, i);
    }
    ok := true;
  }

  /** Compares two keys; a key that can't be read, or a named value that one side lacks, ends it. */
  method CompareTrees(compare: Compare, left: Key, right: Key, l: seq<wstring>, r: seq<wstring>,
      filter: Option<wstring>, recurse: bool, top: bool)
    returns (ok: bool)
    requires HasDistinctNames(left) && HasDistinctNames(right)
    modifies compare
    decreases left, 1
    ensures ok && top && filter.Some? ==>
              SelectValues(left.values, filter) != [] && SelectValues(right.values, filter) != []
    ensures ok ==>
              Extended(compare.output, old(compare.printed), old(compare.differs), compare.printed, compare.differs,
                            KeyLines(left, right, l, r, filter, recurse))
    ensures compare.readable
            && (top && filter.Some? ==>
                  SelectValues(left.values, filter) != [] && SelectValues(right.values, filter) != [])
            ==> ok
  {
    hide Printed, AllEqual, Extended, IsOrder, EqualsInsensitive, ValueLines, RightValueLines, OneSidedLines;
    hide SelectValues, HasDistinctValues,
      KeyLines, SharedLines;
    var unread: bool := *;
    if unread && !compare.readable {
      return false;
    }
    var leftValues, rightValues := SelectValues(left.values, filter), SelectValues(right.values, filter);
    SelectedAreDistinct(left.values, filter);
    SelectedAreDistinct(right.values, filter);
    if top && filter.Some? && (leftValues == [] || rightValues == []) {
      return false;
    }
    ghost var p, d, output := compare.printed, compare.differs, compare.output;
    CompareValues(compare, leftValues, rightValues, l, r);
    ghost var values := ValueLines(leftValues, rightValues, l, r, |leftValues|)
      + RightValueLines(leftValues, rightValues, r, |rightValues|);
    UnfoldKeyLines(left, right, l, r, filter, recurse);
    if !recurse {
      return true;
    }
    ghost var p0, d0 := compare.printed, compare.differs;
    var leftOrder := SortNames(KeyNames(left.children));
    var rightOrder := SortNames(KeyNames(right.children));
    ok := CompareShared(compare, left, right, rightOrder, l, r, filter);
    if !ok {
      return;
    }
    ghost var shared := SharedLines(left, right, l, r, filter, |left.children|);
    ghost var p1, d1 := compare.printed, compare.differs;
    CompareOneSided(compare, LESS, left.children, right.children, rightOrder, l);
    ghost var p2, d2 := compare.printed, compare.differs;
    CompareOneSided(compare, GREATER, right.children, left.children, leftOrder, r);
    ghost var less, greater := OneSidedLines(LESS, left.children, right.children, l, |left.children|),
                               OneSidedLines(GREATER, right.children, left.children, r, |right.children|);
    ExtendedThrice(output, p0, d0, shared, p1, d1, less, p2, d2, greater, compare.printed, compare.differs);
    ExtendedTwice(output, p, d, values, p0, d0, shared + (less + greater), compare.printed, compare.differs);
  }

  lemma UnfoldKeyLines(left: Key, right: Key, l: seq<wstring>, r: seq<wstring>, filter: Option<wstring>, recurse: bool)
    ensures var lv, rv := SelectValues(left.values, filter), SelectValues(right.values, filter);
            var values := ValueLines(lv, rv, l, r, |lv|) + RightValueLines(lv, rv, r, |rv|);
            KeyLines(left, right, l, r, filter, recurse) ==
              if !recurse then values
              else
                values + (SharedLines(left, right, l, r, filter, |left.children|)
                          + (OneSidedLines(LESS, left.children, right.children, l, |left.children|)
                             + OneSidedLines(GREATER, right.children, left.children, r, |right.children|)))
  {
    hide ValueLines, RightValueLines, SharedLines, OneSidedLines, SelectValues;
  }

  // ----- equality of trees

  /** A key as maps from lower-case names. */
  datatype CaseTree = CaseTree(values: map<wstring, (uint32, seq<byte>)>, children: map<wstring, CaseTree>)

  function ValueMap(values: seq<RegistryValue>): map<wstring, (uint32, seq<byte>)> {
    if values == [] then map[]
    else
      var last := values[|values| - 1];
      ValueMap(values[..|values| - 1])[ToLower(last.name) := (last.kind, last.data)]
  }

  function AsTree(key: Key): CaseTree
    decreases key, |key.children| + 1
  {
    CaseTree(ValueMap(key.values), ChildMap(key, |key.children|))
  }

  function ChildMap(key: Key, n: nat): map<wstring, CaseTree>
    requires n <= |key.children|
    decreases key, n
  {
    if n == 0 then map[] else ChildMap(key, n - 1)[ToLower(key.children[n - 1].name) := AsTree(key.children[n - 1])]
  }

  lemma {:induction false} ValueMapAt(values: seq<RegistryValue>)
    requires HasDistinctValues(values)
    ensures forall i :: 0 <= i < |values| ==>
              ToLower(values[i].name) in ValueMap(values)
                && ValueMap(values)[ToLower(values[i].name)] == (values[i].kind, values[i].data)
    ensures forall k :: k in ValueMap(values) ==> exists i :: 0 <= i < |values| && ToLower(values[i].name) == k
    decreases |values|
  {
    hide EqualsInsensitive, ToLower;
    if values != [] {
      var before, last := values[..|values| - 1], values[|values| - 1];
      assert forall i :: 0 <= i < |before| ==> before[i] == values[i];
      ValueMapAt(before);
      forall i | 0 <= i < |before| ensures ToLower(values[i].name) != ToLower(last.name) {
        EqualsInsensitiveIsEqualLower(values[i].name, last.name);
      }
      forall k | k in ValueMap(values) ensures exists i :: 0 <= i < |values| && ToLower(values[i].name) == k {
        if k in ValueMap(before) {
          var i :| 0 <= i < |before| && ToLower(before[i].name) == k;
          assert ToLower(values[i].name) == k;
        } else {
          assert ToLower(values[|values| - 1].name) == k;
        }
      }
    }
  }

  /** Searching by name is looking up the lower-case name. */
  lemma ValueIndexIsLookup(values: seq<RegistryValue>, name: wstring)
    requires HasDistinctValues(values)
    ensures ValueIndex(values, name) >= 0 <==> ToLower(name) in ValueMap(values)
    ensures var j := ValueIndex(values, name);
            j >= 0 ==> ValueMap(values)[ToLower(name)] == (values[j].kind, values[j].data)
  {
    ValueMapAt(values);
    hide EqualsInsensitive, ToLower, ValueMap, HasDistinctValues;
    var j := ValueIndex(values, name);
    if j >= 0 { EqualsInsensitiveIsEqualLower(values[j].name, name); }
    if ToLower(name) in ValueMap(values) {
      var i :| 0 <= i < |values| && ToLower(values[i].name) == ToLower(name);
      EqualsInsensitiveIsEqualLower(values[i].name, name);
    }
  }

  /** A value that the other side has just so. */
  predicate IsShared(left: seq<RegistryValue>, right: seq<RegistryValue>, i: nat)
    requires i < |left|
  {
    var j := ValueIndex(right, left[i].name);
    j >= 0 && right[j].kind == left[i].kind && right[j].data == left[i].data
  }

  lemma {:induction false} ValueLinesEqual(left: seq<RegistryValue>, right: seq<RegistryValue>, l: seq<wstring>,
      r: seq<wstring>, n: nat)
    requires n <= |left|
    ensures AllEqual(ValueLines(left, right, l, r, n)) <==> forall i :: 0 <= i < n ==> IsShared(left, right, i)
    decreases n
  {
    hide ValueIndex, AllEqual;
    if n == 0 {
      NoLinesEqual();
    } else {
      ValueLinesEqual(left, right, l, r, n - 1);
      AllEqualConcat(ValueLines(left, right, l, r, n - 1), ValueLine(left, right, l, r, n - 1));
      ValueLineEqual(left, right, l, r, n - 1);
    }
  }

  lemma NoLinesEqual()
    ensures AllEqual([])
  {}

  lemma ValueLineEqual(left: seq<RegistryValue>, right: seq<RegistryValue>, l: seq<wstring>, r: seq<wstring>, i: nat)
    requires i < |left|
    ensures AllEqual(ValueLine(left, right, l, r, i)) <==> IsShared(left, right, i)
  {
    hide ValueIndex;
    var line := ValueLine(left, right, l, r, i);
    assert line[0].mark == EQUALS <==> IsShared(left, right, i);
  }

  lemma {:induction false} RightValueLinesEqual(left: seq<RegistryValue>, right: seq<RegistryValue>, r: seq<wstring>,
      n: nat)
    requires n <= |right|
    ensures AllEqual(RightValueLines(left, right, r, n))
            <==> forall i :: 0 <= i < n ==> ValueIndex(left, right[i].name) >= 0
    decreases n
  {
    hide ValueIndex, AllEqual;
    if n == 0 {
      NoLinesEqual();
    } else {
      RightValueLinesEqual(left, right, r, n - 1);
      var last := if ValueIndex(left, right[n - 1].name) == -1 then [Line(GREATER, r, Some(right[n - 1]))] else [];
      AllEqualConcat(RightValueLines(left, right, r, n - 1), last);
      NoLinesEqual();
      OneLineEqual(Line(GREATER, r, Some(right[n - 1])));
    }
  }

  lemma OneLineEqual(line: Line)
    ensures AllEqual([line]) <==> line.mark == EQUALS
  {
    assert [line][0] == line;
  }

  lemma ValuesEqual(left: seq<RegistryValue>, right: seq<RegistryValue>, l: seq<wstring>, r: seq<wstring>)
    requires HasDistinctValues(left) && HasDistinctValues(right)
    ensures AllEqual(ValueLines(left, right, l, r, |left|) + RightValueLines(left, right, r, |right|))
            <==> ValueMap(left) == ValueMap(right)
  {
    AllEqualConcat(ValueLines(left, right, l, r, |left|), RightValueLines(left, right, r, |right|));
    ValueLinesEqual(left, right, l, r, |left|);
    RightValueLinesEqual(left, right, r, |right|);
    SharedIsSameMap(left, right);
  }

  function LowerValueNames(values: seq<RegistryValue>): (names: seq<wstring>)
    ensures |names| == |values| && forall i :: 0 <= i < |values| ==> names[i] == ToLower(values[i].name)
  {
    seq(|values|, i requires 0 <= i < |values| => ToLower(values[i].name))
  }

  function LowerKeyNames(keys: seq<Key>): (names: seq<wstring>)
    ensures |names| == |keys| && forall i :: 0 <= i < |keys| ==> names[i] == ToLower(keys[i].name)
  {
    seq(|keys|, i requires 0 <= i < |keys| => ToLower(keys[i].name))
  }

  /** The keys of a map, listed. */
  predicate Lists<V>(m: map<wstring, V>, names: seq<wstring>) {
    (forall i :: 0 <= i < |names| ==> names[i] in m) && forall k :: k in m ==> k in names
  }

  predicate Within<V(==)>(a: map<wstring, V>, b: map<wstring, V>, names: seq<wstring>)
    requires Lists(a, names)
  {
    forall i :: 0 <= i < |names| ==> names[i] in b && b[names[i]] == a[names[i]]
  }

  lemma MapsAgree<V>(a: map<wstring, V>, b: map<wstring, V>, ka: seq<wstring>, kb: seq<wstring>)
    requires Lists(a, ka) && Lists(b, kb)
    ensures a == b <==> Within(a, b, ka) && AllIn(a, kb)
  {
    if Within(a, b, ka) && AllIn(a, kb) {
      assert forall k :: k in a ==> k in ka && k in b && b[k] == a[k];
      assert forall k :: k in b ==> k in kb && k in a;
    }
  }

  lemma ValueMapLists(values: seq<RegistryValue>)
    requires HasDistinctValues(values)
    ensures Lists(ValueMap(values), LowerValueNames(values))
    ensures forall i :: 0 <= i < |values| ==>
              ValueMap(values)[LowerValueNames(values)[i]] == (values[i].kind, values[i].data)
  {
    ValueMapAt(values);
    hide ToLower, ValueMap, HasDistinctValues, EqualsInsensitive;
    var names, m := LowerValueNames(values), ValueMap(values);
    assert |names| == |values| && forall i :: 0 <= i < |values| ==> names[i] == ToLower(values[i].name);
    hide LowerValueNames;
    forall i | 0 <= i < |values| ensures names[i] in m && m[names[i]] == (values[i].kind, values[i].data) {
      assert ToLower(values[i].name) in m;
    }
    forall k | k in m ensures k in names {
      var i :| 0 <= i < |values| && ToLower(values[i].name) == k;
      assert names[i] == k;
    }
  }

  predicate AllShared(left: seq<RegistryValue>, right: seq<RegistryValue>) {
    forall i :: 0 <= i < |left| ==> IsShared(left, right, i)
  }

  predicate AllFound(left: seq<RegistryValue>, right: seq<RegistryValue>) {
    forall i :: 0 <= i < |right| ==> ValueIndex(left, right[i].name) >= 0
  }

  predicate AllIn<V>(m: map<wstring, V>, names: seq<wstring>) {
    forall i :: 0 <= i < |names| ==> names[i] in m
  }

  lemma SharedIsWithin(left: seq<RegistryValue>, right: seq<RegistryValue>)
    requires HasDistinctValues(left) && HasDistinctValues(right) && Lists(ValueMap(left), LowerValueNames(left))
    requires forall i :: 0 <= i < |left| ==> ValueMap(left)[LowerValueNames(left)[i]] == (left[i].kind, left[i].data)
    ensures AllShared(left, right) <==> Within(ValueMap(left), ValueMap(right), LowerValueNames(left))
    ensures AllFound(left, right) <==> AllIn(ValueMap(left), LowerValueNames(right))
  {
    hide ValueIndex, ValueMap, ToLower, HasDistinctValues, Lists;
    var a, b, ka, kb := ValueMap(left), ValueMap(right), LowerValueNames(left), LowerValueNames(right);
    forall i | 0 <= i < |left|
      ensures IsShared(left, right, i) <==> ka[i] in b && b[ka[i]] == (left[i].kind, left[i].data)
    {
      ValueIndexIsLookup(right, left[i].name);
    }
    forall i | 0 <= i < |right| ensures ValueIndex(left, right[i].name) >= 0 <==> kb[i] in a {
      ValueIndexIsLookup(left, right[i].name);
    }
    hide IsShared;
  }

  lemma SharedIsSameMap(left: seq<RegistryValue>, right: seq<RegistryValue>)
    requires HasDistinctValues(left) && HasDistinctValues(right)
    ensures AllShared(left, right) && AllFound(left, right) <==> ValueMap(left) == ValueMap(right)
  {
    hide *;
    ValueMapLists(left);
    ValueMapLists(right);
    SharedIsWithin(left, right);
    MapsAgree(ValueMap(left), ValueMap(right), LowerValueNames(left), LowerValueNames(right));
  }

  lemma {:induction false} ChildMapAt(key: Key, n: nat)
    requires n <= |key.children| && HasDistinctChildren(key.children)
    ensures forall i :: 0 <= i < n ==>
              ToLower(key.children[i].name) in ChildMap(key, n)
                && ChildMap(key, n)[ToLower(key.children[i].name)] == AsTree(key.children[i])
    ensures forall k :: k in ChildMap(key, n) ==> exists i :: 0 <= i < n && ToLower(key.children[i].name) == k
    decreases n
  {
    hide EqualsInsensitive, AsTree;
    if n > 0 {
      ChildMapAt(key, n - 1);
      forall i | 0 <= i < n - 1 ensures ToLower(key.children[i].name) != ToLower(key.children[n - 1].name) {
        EqualsInsensitiveIsEqualLower(key.children[i].name, key.children[n - 1].name);
      }
    }
  }

  lemma IndexIsLookup(key: Key, name: wstring)
    requires HasDistinctChildren(key.children)
    ensures IndexOf(key.children, name) >= 0 <==> ToLower(name) in ChildMap(key, |key.children|)
    ensures var j := IndexOf(key.children, name);
            j >= 0 ==> ChildMap(key, |key.children|)[ToLower(name)] == AsTree(key.children[j])
  {
    ChildMapAt(key, |key.children|);
    hide EqualsInsensitive, ToLower, ChildMap, AsTree, HasDistinctChildren;
    var j := IndexOf(key.children, name);
    if j >= 0 { EqualsInsensitiveIsEqualLower(key.children[j].name, name); }
    if ToLower(name) in ChildMap(key, |key.children|) {
      var i :| 0 <= i < |key.children| && ToLower(key.children[i].name) == ToLower(name);
      EqualsInsensitiveIsEqualLower(key.children[i].name, name);
    }
  }

  lemma {:induction false} OneSidedEqual(mark: wchar, keys: seq<Key>, other: seq<Key>, path: seq<wstring>, n: nat)
    requires n <= |keys| && mark != EQUALS
    ensures AllEqual(OneSidedLines(mark, keys, other, path, n))
            <==> forall i :: 0 <= i < n ==> IndexOf(other, keys[i].name) >= 0
    decreases n
  {
    hide IndexOf, AllEqual;
    if n == 0 {
      NoLinesEqual();
    } else {
      OneSidedEqual(mark, keys, other, path, n - 1);
      var last := if IndexOf(other, keys[n - 1].name) == -1 then [Line(mark, path + [keys[n - 1].name], None)] else [];
      AllEqualConcat(OneSidedLines(mark, keys, other, path, n - 1), last);
      NoLinesEqual();
      OneLineEqual(Line(mark, path + [keys[n - 1].name], None));
    }
  }

  /** A subkey that the other side has with the same content, if it has it. */
  predicate IsSameBelow(left: Key, right: Key, i: nat)
    requires i < |left.children|
  {
    var j := IndexOf(right.children, left.children[i].name);
    j >= 0 ==> AsTree(left.children[i]) == AsTree(right.children[j])
  }

  lemma {:induction false} SharedEqual(left: Key, right: Key, l: seq<wstring>, r: seq<wstring>, n: nat)
    requires n <= |left.children| && HasDistinctNames(left) && HasDistinctNames(right)
    ensures AllEqual(SharedLines(left, right, l, r, None, n))
            <==> forall i :: 0 <= i < n ==> IsSameBelow(left, right, i)
    decreases left, n
  {
    hide IndexOf, AllEqual, AsTree, KeyLines;
    if n == 0 {
      NoLinesEqual();
    } else {
      SharedEqual(left, right, l, r, n - 1);
      var child := left.children[n - 1];
      var j := IndexOf(right.children, child.name);
      if j >= 0 {
        var line, below := Line(EQUALS, l + [child.name], None),
          KeyLines(child, right.children[j], l + [child.name], r + [child.name], None, true);
        EqualExactlyWhenSame(child, right.children[j], l + [child.name], r + [child.name]);
        AllEqualConcat([line], below);
        OneLineEqual(line);
        AllEqualConcat(SharedLines(left, right, l, r, None, n - 1), [line] + below);
        assert AllEqual(below) <==> IsSameBelow(left, right, n - 1);
        assert SharedLines(left, right, l, r, None, n)
          == SharedLines(left, right, l, r, None, n - 1) + ([line] + below);
      } else {
        assert IsSameBelow(left, right, n - 1);
      }
    }
  }

  /** No line shows a difference exactly when the keys are the same maps of values and subkeys, case aside. */
  lemma {:induction false} EqualExactlyWhenSame(left: Key, right: Key, l: seq<wstring>, r: seq<wstring>)
    requires HasDistinctNames(left) && HasDistinctNames(right)
    ensures AllEqual(KeyLines(left, right, l, r, None, true)) <==> AsTree(left) == AsTree(right)
    decreases left, |left.children| + 1
  {
    hide KeyLines, AllEqual, ValueLines, RightValueLines, SharedLines, OneSidedLines, ValueMap, ChildMap, IsSameBelow;
    hide IndexOf;
    var n, m := |left.children|, |right.children|;
    SharedEqual(left, right, l, r, n);
    ValuesEqual(left.values, right.values, l, r);
    OneSidedEqual(LESS, left.children, right.children, l, n);
    OneSidedEqual(GREATER, right.children, left.children, r, m);
    UnfoldKeyLines(left, right, l, r, None, true);
    ChildrenEqual(left, right);
    hide HasDistinctNames;
    var values := ValueLines(left.values, right.values, l, r, |left.values|)
      + RightValueLines(left.values, right.values, r, |right.values|);
    var shared := SharedLines(left, right, l, r, None, n);
    var less, greater := OneSidedLines(LESS, left.children, right.children, l, n),
      OneSidedLines(GREATER, right.children, left.children, r, m);
    assert SelectValues(left.values, None) == left.values && SelectValues(right.values, None) == right.values;
    AllEqualConcat(less, greater);
    AllEqualConcat(shared, less + greater);
    AllEqualConcat(values, shared + (less + greater));
  }

  predicate AllSameBelow(left: Key, right: Key) {
    forall i :: 0 <= i < |left.children| ==> IsSameBelow(left, right, i)
  }

  predicate AllKeysFound(keys: seq<Key>, other: seq<Key>) {
    forall i :: 0 <= i < |keys| ==> IndexOf(other, keys[i].name) >= 0
  }

  lemma SameBelowIsWithin(left: Key, right: Key)
    requires HasDistinctNames(left) && HasDistinctNames(right)
    requires var a := ChildMap(left, |left.children|);
             Lists(a, LowerKeyNames(left.children))
             && forall i :: 0 <= i < |left.children| ==> a[LowerKeyNames(left.children)[i]] == AsTree(left.children[i])
    ensures var a, b := ChildMap(left, |left.children|), ChildMap(right, |right.children|);
            && (AllSameBelow(left, right) && AllKeysFound(left.children, right.children)
                <==> Within(a, b, LowerKeyNames(left.children)))
            && (AllKeysFound(right.children, left.children) <==> AllIn(a, LowerKeyNames(right.children)))
  {
    hide IndexOf, ChildMap, AsTree, ToLower, HasDistinctChildren, Lists;
    var a, b := ChildMap(left, |left.children|), ChildMap(right, |right.children|);
    var ka, kb := LowerKeyNames(left.children), LowerKeyNames(right.children);
    forall i | 0 <= i < |left.children|
      ensures IndexOf(right.children, left.children[i].name) >= 0 <==> ka[i] in b
      ensures ka[i] in b ==> (IsSameBelow(left, right, i) <==> b[ka[i]] == AsTree(left.children[i]))
    {
      IndexIsLookup(right, left.children[i].name);
    }
    forall i | 0 <= i < |right.children| ensures IndexOf(left.children, right.children[i].name) >= 0 <==> kb[i] in a {
      IndexIsLookup(left, right.children[i].name);
    }
    hide IsSameBelow;
  }

  lemma ChildrenEqual(left: Key, right: Key)
    requires HasDistinctNames(left) && HasDistinctNames(right)
    ensures AllSameBelow(left, right) && AllKeysFound(left.children, right.children)
            && AllKeysFound(right.children, left.children)
            <==> ChildMap(left, |left.children|) == ChildMap(right, |right.children|)
  {
    hide *;
    ChildMapLists(left);
    ChildMapLists(right);
    SameBelowIsWithin(left, right);
    MapsAgree(ChildMap(left, |left.children|), ChildMap(right, |right.children|), LowerKeyNames(left.children),
              LowerKeyNames(right.children));
  }

  lemma ChildMapLists(key: Key)
    requires HasDistinctNames(key)
    ensures var m := ChildMap(key, |key.children|);
            && Lists(m, LowerKeyNames(key.children))
            && forall i :: 0 <= i < |key.children| ==> m[LowerKeyNames(key.children)[i]] == AsTree(key.children[i])
  {
    hide ToLower, ChildMap, AsTree, HasDistinctChildren, EqualsInsensitive;
    var m, names := ChildMap(key, |key.children|), LowerKeyNames(key.children);
    forall k | k in m ensures k in names {
      var i := ChildMapKey(key, k);
      assert names[i] == k;
    }
    forall i | 0 <= i < |names| ensures names[i] in m && m[names[i]] == AsTree(key.children[i]) {
      ChildMapEntry(key, i);
    }
  }

  lemma ChildMapKey(key: Key, k: wstring) returns (i: nat)
    requires HasDistinctChildren(key.children) && k in ChildMap(key, |key.children|)
    ensures i < |key.children| && ToLower(key.children[i].name) == k
  {
    ChildMapAt(key, |key.children|);
    hide ToLower, ChildMap, AsTree, HasDistinctChildren;
    i :| 0 <= i < |key.children| && ToLower(key.children[i].name) == k;
  }

  lemma ChildMapEntry(key: Key, i: nat)
    requires HasDistinctChildren(key.children) && i < |key.children|
    ensures var m, k := ChildMap(key, |key.children|), ToLower(key.children[i].name);
            k in m && m[k] == AsTree(key.children[i])
  {
    ChildMapAt(key, |key.children|);
    hide ToLower, ChildMap, AsTree, HasDistinctChildren;
  }

  /** The command as a whole: recursively, without a value filter, readable keys are reported different exactly when
      they
      are not the same maps of values and subkeys, whichever lines are printed. */
  method CompareCommand(left: Key, right: Key, output: wchar, readable: bool) returns (differs: Option<bool>)
    requires HasDistinctNames(left) && HasDistinctNames(right)
    ensures readable ==> differs.Some?
    ensures differs.Some? ==> (differs.value <==> AsTree(left) != AsTree(right))
  {
    var compare := new Compare(output, readable);
    var compared := CompareTrees(compare, left, right, [left.name], [right.name], None, true, true);
    if !compared {
      return None;
    }
    EqualExactlyWhenSame(left, right, [left.name], [right.name]);
    differs := Some(compare.differs);
  }
}
