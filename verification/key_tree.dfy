/** One level of the key tree, merged in place with the subkeys that were read. */
module KeyTree {
  import opened Text
  import opened KeyPaths

  type NodeId = nat

  datatype Node = Node(subkey: wstring, simulated: bool)

  /** A tree item: its text, the stored node it refers to, and the items below it. */
  datatype Item = Item(text: wstring, node: NodeId, children: seq<Item>)

  datatype Entry = Entry(name: wstring, text: wstring, simulated: bool)

  // ----- labels and their order

  const NULL_SYMBOL: wchar := 0x2400

  /** NULs in a name are shown as a symbol. */
  function DisplayName(name: wstring): (r: wstring)
    ensures |r| == |name| && forall i :: 0 <= i < |r| ==> r[i] == if name[i] == NUL then NULL_SYMBOL else name[i]
  {
    seq(|name|, i requires 0 <= i < |name| => if name[i] == NUL then NULL_SYMBOL else name[i])
  }

  const TEXT_LENGTH := 511

  /** The text of an item as the control returns it into a buffer of 512 units. */
  function ItemText(item: Item): wstring {
    if |item.text| <= TEXT_LENGTH then item.text else item.text[..TEXT_LENGTH]
  }

  predicate EntriesAreSorted(entries: seq<Entry>) {
    forall i, j :: 0 <= i < j < |entries| ==> CompareInsensitive(entries[i].text, entries[j].text) <= 0
  }

  /** Behind everything that is not larger. */
  function InsertEntry(entry: Entry, sorted: seq<Entry>): seq<Entry> {
    if sorted == [] then [entry]
    else if CompareInsensitive(sorted[|sorted| - 1].text, entry.text) <= 0 then sorted + [entry]
    else InsertEntry(entry, sorted[..|sorted| - 1]) + [sorted[|sorted| - 1]]
  }

  function SortEntries(entries: seq<Entry>): seq<Entry> {
    if entries == [] then [] else InsertEntry(entries[|entries| - 1], SortEntries(entries[..|entries| - 1]))
  }

  lemma LessOrEqual(a: wstring, b: wstring, c: wstring)
    ensures CompareInsensitive(a, b) <= 0 && CompareInsensitive(b, c) <= 0 ==> CompareInsensitive(a, c) <= 0
    ensures CompareInsensitive(a, b) > 0 ==> CompareInsensitive(b, a) <= 0
  {
    CompareTransitive(a, b, c);
    CompareAntisymmetric(b, a);
    hide CompareInsensitive;
  }

  lemma UnfoldInsert(entry: Entry, sorted: seq<Entry>)
    ensures InsertEntry(entry, sorted) ==
              if sorted == [] then [entry]
              else
                var before, last := sorted[..|sorted| - 1], sorted[|sorted| - 1];
                if CompareInsensitive(last.text, entry.text) <= 0 then sorted + [entry]
                else InsertEntry(entry, before) + [last]
  {
    hide CompareInsensitive;
  }

  lemma {:induction false} InsertMembers(entry: Entry, sorted: seq<Entry>)
    ensures multiset(InsertEntry(entry, sorted)) == multiset(sorted) + multiset{entry}
    ensures forall i :: 0 <= i < |InsertEntry(entry, sorted)| ==>
              InsertEntry(entry, sorted)[i] == entry || InsertEntry(entry, sorted)[i] in sorted
    decreases |sorted|
  {
    hide CompareInsensitive, InsertEntry;
    UnfoldInsert(entry, sorted);
    if sorted != [] && CompareInsensitive(sorted[|sorted| - 1].text, entry.text) > 0 {
      var before := sorted[..|sorted| - 1];
      InsertMembers(entry, before);
      assert sorted == before + [sorted[|sorted| - 1]];
    }
  }

  lemma {:induction false} InsertKeepsOrder(entry: Entry, sorted: seq<Entry>)
    requires EntriesAreSorted(sorted)
    ensures EntriesAreSorted(InsertEntry(entry, sorted))
    decreases |sorted|
  {
    hide CompareInsensitive;
    if sorted != [] {
      var before, last := sorted[..|sorted| - 1], sorted[|sorted| - 1];
      assert forall i :: 0 <= i < |before| ==> before[i] == sorted[i];
      if CompareInsensitive(last.text, entry.text) <= 0 {
        forall i | 0 <= i < |sorted| ensures CompareInsensitive(sorted[i].text, entry.text) <= 0 {
          if i < |sorted| - 1 { LessOrEqual(sorted[i].text, last.text, entry.text); }
        }
      } else {
        InsertKeepsOrder(entry, before);
        InsertMembers(entry, before);
        LessOrEqual(last.text, entry.text, last.text);
      }
    }
  }

  lemma {:induction false} SortedEntries(entries: seq<Entry>)
    ensures EntriesAreSorted(SortEntries(entries)) && multiset(SortEntries(entries)) == multiset(entries)
    decreases |entries|
  {
    hide CompareInsensitive, InsertEntry;
    if entries != [] {
      var before, last := entries[..|entries| - 1], entries[|entries| - 1];
      SortedEntries(before);
      InsertKeepsOrder(last, SortEntries(before));
      InsertMembers(last, SortEntries(before));
      assert entries == before + [last];
    }
  }

  // ----- references

  /** The nodes an item and everything below it refer to. */
  function Refs(item: Item): set<NodeId>
    decreases item, 0
  {
    {item.node} + ForestRefs(item.children)
  }

  function ForestRefs(items: seq<Item>): set<NodeId>
    decreases items, 1
  {
    if items == [] then {} else Refs(items[0]) + ForestRefs(items[1..])
  }

  lemma {:induction false} ForestConcat(a: seq<Item>, b: seq<Item>)
    ensures ForestRefs(a + b) == ForestRefs(a) + ForestRefs(b)
    decreases |a|
  {
    hide Refs;
    if a == [] {
      assert a + b == b;
    } else {
      assert (a + b)[0] == a[0] && (a + b)[1..] == a[1..] + b;
      ForestConcat(a[1..], b);
    }
  }

  lemma ForestOne(item: Item)
    ensures ForestRefs([item]) == Refs(item)
  {
    assert [item][1..] == [];
  }

  lemma {:induction false} ForestHas(items: seq<Item>, i: nat)
    requires i < |items|
    ensures Refs(items[i]) <= ForestRefs(items)
    decreases |items|
  {
    hide Refs;
    if i > 0 {
      assert items[1..][i - 1] == items[i];
      ForestHas(items[1..], i - 1);
    }
  }

  /** No node is shown twice among the siblings and what is below them. */
  predicate AreApart(items: seq<Item>) {
    forall i, j :: 0 <= i < j < |items| ==> Refs(items[i]) !! Refs(items[j])
  }

  lemma {:induction false} ApartFromForest(item: Item, items: seq<Item>)
    requires forall i :: 0 <= i < |items| ==> Refs(item) !! Refs(items[i])
    ensures Refs(item) !! ForestRefs(items)
    decreases |items|
  {
    hide Refs;
    if items != [] {
      assert forall i :: 0 <= i < |items| - 1 ==> items[1..][i] == items[i + 1];
      ApartFromForest(item, items[1..]);
    }
  }

  /** The node ids of an item, those below it first. */
  function Collected(item: Item): (r: seq<NodeId>)
    ensures forall id :: id in r <==> id in Refs(item)
    decreases item, 0
  {
    CollectedAll(item.children) + [item.node]
  }

  function CollectedAll(items: seq<Item>): (r: seq<NodeId>)
    ensures forall id :: id in r <==> id in ForestRefs(items)
    decreases items, 1
  {
    if items == [] then [] else Collected(items[0]) + CollectedAll(items[1..])
  }

  // ----- the merge

  function Order(text: wstring, entries: seq<Entry>, index: nat): int
    requires index <= |entries|
  {
    if index == |entries| then -1 else CompareInsensitive(text, entries[index].text)
  }

  predicate StrictlySortedEntries(entries: seq<Entry>) {
    forall i, j :: 0 <= i < j < |entries| ==> CompareInsensitive(entries[i].text, entries[j].text) < 0
  }

  predicate StrictlySortedItems(items: seq<Item>) {
    forall i, j :: 0 <= i < j < |items| ==> CompareInsensitive(ItemText(items[i]), ItemText(items[j])) < 0
  }

  /** An item stands for an entry: made for it, or kept because its text compares equal. */
  predicate Shows(item: Item, entry: Entry) {
    item.text == entry.text || CompareInsensitive(ItemText(item), entry.text) == 0
  }

  /** What the first entries and the first old siblings have become: every pair that meets is kept, none is missed. */
  predicate PairsKept(old_items: seq<Item>, oc: nat, entries: seq<Entry>, index: nat, done: seq<Item>)
    requires oc <= |old_items| && index <= |entries| && |done| == index
  {
    && (forall k, j ::
          0 <= k < oc && 0 <= j < index && CompareInsensitive(ItemText(old_items[k]), entries[j].text) == 0 ==>
            done[j] == old_items[k])
    && (forall k, j :: 0 <= k < oc && index <= j < |entries| ==>
          CompareInsensitive(ItemText(old_items[k]), entries[j].text) != 0)
    && (forall k, j :: oc <= k < |old_items| && 0 <= j < index ==>
          CompareInsensitive(ItemText(old_items[k]), entries[j].text) != 0)
  }

  lemma PairStart(old_items: seq<Item>, entries: seq<Entry>)
    ensures PairsKept(old_items, 0, entries, 0, [])
  {}

  lemma PairDeleted(old_items: seq<Item>, oc: nat, entries: seq<Entry>, index: nat, done: seq<Item>)
    requires oc < |old_items| && index <= |entries| && |done| == index && PairsKept(old_items, oc, entries, index, done)
    requires StrictlySortedEntries(entries) && Order(ItemText(old_items[oc]), entries, index) < 0
    ensures PairsKept(old_items, oc + 1, entries, index, done)
  {
    hide CompareInsensitive, ItemText;
    var text := ItemText(old_items[oc]);
    forall j | index <= j < |entries| ensures CompareInsensitive(text, entries[j].text) != 0 {
      if j > index { CompareTransitive(text, entries[index].text, entries[j].text); }
    }
  }

  lemma PairMet(old_items: seq<Item>, oc: nat, entries: seq<Entry>, index: nat, done: seq<Item>)
    requires oc < |old_items| && index < |entries| && |done| == index && PairsKept(old_items, oc, entries, index, done)
    requires StrictlySortedEntries(entries) && StrictlySortedItems(old_items)
             && CompareInsensitive(ItemText(old_items[oc]), entries[index].text) == 0
    ensures PairsKept(old_items, oc + 1, entries, index + 1, done + [old_items[oc]])
  {
    hide CompareInsensitive, ItemText;
    var text := ItemText(old_items[oc]);
    forall j | index < j < |entries| ensures CompareInsensitive(text, entries[j].text) != 0 {
      CompareTransitive(text, entries[index].text, entries[j].text);
    }
    forall k | oc < k < |old_items| ensures CompareInsensitive(ItemText(old_items[k]), entries[index].text) != 0 {
      LaterIsGreater(text, ItemText(old_items[k]), entries[index].text);
    }
  }

  lemma LaterIsGreater(a: wstring, b: wstring, c: wstring)
    requires CompareInsensitive(a, b) < 0 && CompareInsensitive(a, c) >= 0
    ensures CompareInsensitive(b, c) != 0
  {
    CompareAntisymmetric(a, b);
    CompareAntisymmetric(a, c);
    CompareAntisymmetric(c, a);
    CompareTransitive(a, b, c);
    hide CompareInsensitive;
  }

  lemma PairInserted(old_items: seq<Item>, oc: nat, entries: seq<Entry>, index: nat, done: seq<Item>, item: Item)
    requires oc <= |old_items| && index < |entries| && |done| == index && PairsKept(old_items, oc, entries, index, done)
    requires StrictlySortedItems(old_items)
             && (oc < |old_items| ==> CompareInsensitive(ItemText(old_items[oc]), entries[index].text) > 0)
    ensures PairsKept(old_items, oc, entries, index + 1, done + [item])
  {
    hide CompareInsensitive, ItemText;
    forall k | oc <= k < |old_items| ensures CompareInsensitive(ItemText(old_items[k]), entries[index].text) != 0 {
      if k > oc { LaterIsGreater(ItemText(old_items[oc]), ItemText(old_items[k]), entries[index].text); }
    }
  }

  class RegistryTree {
    /** The items below one parent, and all stored nodes. */
    var siblings: seq<Item>
    var nodes: map<NodeId, Node>
    var next: NodeId

    /** Ids are never reused, and every shown node is stored. */
    predicate Valid()
      reads this
    {
      && (forall id :: id in nodes ==> id < next) && ForestRefs(siblings) <= nodes.Keys && AreApart(siblings)
    }

    constructor (siblings: seq<Item>, nodes: map<NodeId, Node>, next: NodeId)
      requires (forall id :: id in nodes ==> id < next) && ForestRefs(siblings) <= nodes.Keys && AreApart(siblings)
      ensures Valid() && this.siblings == siblings && this.nodes == nodes
    {
      this.siblings, this.nodes, this.next := siblings, nodes, next;
    }

    method StoreNode(node: Node) returns (id: NodeId)
      requires forall id :: id in nodes ==> id < next
      modifies this`nodes, this`next
      ensures id == old(next) && id !in old(nodes) && next == id + 1
      ensures nodes == old(nodes)[id := node]
    {
      id := next;
      nodes := nodes[id := node];
      next := next + 1;
    }

    /** The first level of a parent that shows nothing yet: every entry is put in front, from the last to the first. */
    method FillEmpty(parent: wstring, entries: seq<Entry>)
      requires Valid() && siblings == []
      modifies this
      ensures Valid() && AreNew(parent, siblings, entries, old(next), nodes)
      ensures nodes.Keys == old(nodes.Keys) + ForestRefs(siblings)
      ensures forall id :: id in old(nodes) ==> nodes[id] == old(nodes)[id]
    {
      hide Refs, ForestRefs;
      NoRefs();
      var i := |entries|;
      assert entries[|entries|..] == [];
      while i > 0
        invariant 0 <= i <= |entries|
        invariant Valid() && AreNew(parent, siblings, entries[i..], old(next), nodes)
        invariant nodes.Keys == old(nodes.Keys) + ForestRefs(siblings) && old(next) <= next
        invariant forall id :: id in old(nodes) ==> nodes[id] == old(nodes)[id]
      {
        i := i - 1;
        ghost var before, shown := siblings, nodes;
        var id := StoreNode(Node(JoinSubkey(parent, entries[i].name), entries[i].simulated));
        siblings := [Item(entries[i].text, id, [])] + siblings;
        NewInFront(before, shown.Keys, Item(entries[i].text, id, []));
        assert entries[i..][0] == entries[i] && entries[i..][1..] == entries[i + 1..];
      }
      assert entries[0..] == entries;
    }

    /** Walks the shown items and the entries side by side: what has gone is deleted, what meets is kept, what is new is
        inserted. */
    method Merge(parent: wstring, entries: seq<Entry>)
      requires Valid()
      modifies this
      ensures Valid() && |siblings| == |entries|
      ensures forall i :: 0 <= i < |entries| ==> Shows(siblings[i], entries[i])
      ensures forall i :: 0 <= i < |entries| ==>
                siblings[i].node in nodes && nodes[siblings[i].node].simulated == entries[i].simulated
      ensures forall i :: 0 <= i < |entries| ==>
                IsPlaced(parent, siblings[i], entries[i], old(siblings), old(nodes), nodes)
      ensures SubkeysStay(old(nodes), nodes)
      ensures nodes.Keys == old(nodes.Keys) - (ForestRefs(old(siblings)) - ForestRefs(siblings)) + ForestRefs(siblings)
      ensures forall id :: id in old(nodes) && id !in ForestRefs(old(siblings)) ==>
                id in nodes && nodes[id] == old(nodes)[id]
      ensures (StrictlySortedItems(old(siblings)) && StrictlySortedEntries(entries))
              ==> PairsKept(old(siblings), |old(siblings)|, entries, |entries|, siblings)
    {
      hide Refs, ForestRefs, CompareInsensitive, ItemText, PairsKept, StrictlySortedItems, StrictlySortedEntries;
      hide AreApart, Shows, JoinSubkey;
      hide Going, IsPlaced, SubkeysStay;
      ghost var m := Progress(siblings, nodes, 0, entries, {}, {});
      ghost var strict := StrictlySortedItems(siblings) && StrictlySortedEntries(entries);
      var released: seq<NodeId> := [];
      var index := 0;
      GoesOn(parent, strict, m, next);
      while index < |siblings| || index < |entries|
        invariant 0 <= index <= |entries| && index <= |siblings|
        invariant m.before == old(siblings) && m.stored == old(nodes) && m.entries == entries
        invariant Going(parent, strict, m, index, siblings, nodes, next, released)
        decreases |m.before| - m.oc + |entries| - index
      {
        GoingFacts(parent, strict, m, index, siblings, nodes, next, released);
        var order := 1;
        if index < |siblings| {
          order := Order(ItemText(siblings[index]), entries, index);
        }
        if order < 0 {
          var child := siblings[index];
          GoesDeleting(parent, strict, m, index, siblings, nodes, next, released);
          released := released + Collected(child);
          siblings := siblings[..index] + siblings[index + 1..];
          m := m.(gone := m.gone + Refs(child), oc := m.oc + 1);
        } else if order == 0 {
          var id := siblings[index].node;
          GoesKeeping(parent, strict, m, index, siblings, nodes, next, released);
          nodes := nodes[id := nodes[id].(simulated := entries[index].simulated)];
          m := m.(oc := m.oc + 1);
          index := index + 1;
        } else {
          var node := Node(JoinSubkey(parent, entries[index].name), entries[index].simulated);
          GoesInserting(parent, strict, m, index, siblings, nodes, next, released, node);
          var id := StoreNode(node);
          siblings := siblings[..index] + [Item(entries[index].text, id, [])] + siblings[index..];
          m := m.(made := m.made + {id});
          index := index + 1;
        }
      }
      GoesEnd(parent, strict, m, index, siblings, nodes, next, released);
      ghost var all := nodes;
      Release(released);
      PlacedAtEnd(parent, m, siblings, all, nodes);
    }

    /** Shows the subkeys that were read and those a trace adds: afterwards the items stand for the sorted entries one
        by one,
        and exactly the nodes of deleted subtrees are freed. */
    method AddChildren(parent: wstring, children: seq<wstring>, virtuals: seq<wstring>) returns (entries: seq<Entry>)
      requires Valid()
      modifies this
      ensures EntriesAreSorted(entries)
              && multiset(entries) == multiset(EntriesOf(children, false) + EntriesOf(virtuals, true))
      ensures Valid() && |siblings| == |entries|
      ensures forall i :: 0 <= i < |entries| ==> Shows(siblings[i], entries[i])
      ensures forall i :: 0 <= i < |entries| ==>
                siblings[i].node in nodes && nodes[siblings[i].node].simulated == entries[i].simulated
      ensures forall i :: 0 <= i < |entries| ==>
                IsPlaced(parent, siblings[i], entries[i], old(siblings), old(nodes), nodes)
      ensures SubkeysStay(old(nodes), nodes)
      ensures nodes.Keys == old(nodes.Keys) - (ForestRefs(old(siblings)) - ForestRefs(siblings)) + ForestRefs(siblings)
      ensures forall id :: id in old(nodes) && id !in ForestRefs(old(siblings)) ==>
                id in nodes && nodes[id] == old(nodes)[id]
      ensures (StrictlySortedItems(old(siblings)) && StrictlySortedEntries(entries))
              ==> PairsKept(old(siblings), |old(siblings)|, entries, |entries|, siblings)
    {
      hide ForestRefs, Refs, SortEntries, CompareInsensitive, ItemText, AreApart;
      entries := EntriesOf(children, false) + EntriesOf(virtuals, true);
      SortedEntries(entries);
      entries := SortEntries(entries);
      if siblings == [] {
        NoRefs();
        FillEmpty(parent, entries);
      } else {
        Merge(parent, entries);
      }
    }

    /** Frees the nodes of deleted items. */
    method Release(released: seq<NodeId>)
      modifies this`nodes
      ensures nodes.Keys == old(nodes.Keys) - (set id | id in released)
      ensures forall id :: id in nodes ==> nodes[id] == old(nodes)[id]
    {
      for i := 0 to |released|
        invariant nodes.Keys == old(nodes.Keys) - (set id | id in released[..i])
        invariant forall id :: id in nodes ==> nodes[id] == old(nodes)[id]
      {
        assert released[..i + 1] == released[..i] + [released[i]];
        nodes := nodes - {released[i]};
      }
      assert released[..|released|] == released;
    }
  }

  /** How far a merge is: what was shown and stored, the old items walked, and the nodes gone and made. */
  datatype Progress = Progress(
    before: seq<Item>, stored: map<NodeId, Node>, oc: nat, entries: seq<Entry>, gone: set<NodeId>, made: set<NodeId>)

  /** What is still to be walked is what was there. */
  ghost predicate IsAligned(m: Progress, index: nat, siblings: seq<Item>) {
    index <= |m.entries| && m.oc <= |m.before| && index <= |siblings| && siblings[index..] == m.before[m.oc..]
  }

  /** The nodes that are shown, stored and to be freed. */
  ghost predicate KeepsRefs(m: Progress, siblings: seq<Item>, nodes: map<NodeId, Node>, next: NodeId,
      released: seq<NodeId>)
  {
    && ForestRefs(m.before) <= m.stored.Keys && (forall id :: id in nodes ==> id < next)
    && AreApart(siblings) && ForestRefs(siblings) == (ForestRefs(m.before) - m.gone) + m.made
    && m.gone <= ForestRefs(m.before) && (forall id :: id in released <==> id in m.gone)
    && m.made !! m.stored.Keys && nodes.Keys == m.stored.Keys + m.made
  }

  /** The items in front stand for their entries, and nodes that are not shown here are as they were. */
  ghost predicate ShowsEntries(m: Progress, index: nat, siblings: seq<Item>, nodes: map<NodeId, Node>)
    requires index <= |m.entries| && index <= |siblings|
  {
    && (forall i :: 0 <= i < index ==> Shows(siblings[i], m.entries[i]))
    && (forall i :: 0 <= i < index ==>
          siblings[i].node in nodes && nodes[siblings[i].node].simulated == m.entries[i].simulated)
    && (forall id :: id in m.stored && id !in ForestRefs(m.before) ==> id in nodes && nodes[id] == m.stored[id])
  }

  ghost predicate Merging(m: Progress, index: nat, siblings: seq<Item>, nodes: map<NodeId, Node>, next: NodeId,
      released: seq<NodeId>)
  {
    IsAligned(m, index, siblings) && KeepsRefs(m, siblings, nodes, next, released)
      && ShowsEntries(m, index, siblings, nodes)
  }

  /** An item below `parent` is one that was shown, its node under the subkey it had, or a new one for the entry. */
  predicate IsPlaced(parent: wstring, item: Item, entry: Entry, before: seq<Item>, stored: map<NodeId, Node>,
      nodes: map<NodeId, Node>)
  {
    && item.node in nodes
    && if item.node in stored then item in before && nodes[item.node].subkey == stored[item.node].subkey
       else item.text == entry.text && item.children == [] && nodes[item.node].subkey == JoinSubkey(parent, entry.name)
  }

  predicate SubkeysStay(stored: map<NodeId, Node>, nodes: map<NodeId, Node>) {
    forall id :: id in stored && id in nodes ==> nodes[id].subkey == stored[id].subkey
  }

  predicate ArePlaced(parent: wstring, m: Progress, index: nat, siblings: seq<Item>, nodes: map<NodeId, Node>)
    requires index <= |siblings| && index <= |m.entries|
  {
    SubkeysStay(m.stored, nodes)
      && forall i :: 0 <= i < index ==> IsPlaced(parent, siblings[i], m.entries[i], m.before, m.stored, nodes)
  }

  /** An item that is kept stays in place; a mark on its node changes no subkey. */
  lemma KeptIsPlaced(parent: wstring, m: Progress, index: nat, siblings: seq<Item>, nodes: map<NodeId, Node>,
      simulated: bool)
    requires index < |siblings| && index < |m.entries| && ArePlaced(parent, m, index, siblings, nodes)
    requires siblings[index] in m.before && siblings[index].node in nodes && siblings[index].node in m.stored
    ensures var id := siblings[index].node;
            ArePlaced(parent, m, index + 1, siblings, nodes[id := nodes[id].(simulated := simulated)])
  {
    hide JoinSubkey;
  }

  /** A new item is placed under its own subkey, and the ones before it stay. */
  lemma NewIsPlaced(parent: wstring, m: Progress, index: nat, siblings: seq<Item>, nodes: map<NodeId, Node>, item: Item,
      node: Node)
    requires index <= |siblings| && index < |m.entries| && ArePlaced(parent, m, index, siblings, nodes)
    requires item.node !in nodes && item.node !in m.stored && item == Item(m.entries[index].text, item.node, [])
    requires node.subkey == JoinSubkey(parent, m.entries[index].name)
    ensures ArePlaced(parent, m, index + 1, siblings[..index] + [item] + siblings[index..], nodes[item.node := node])
  {
    hide JoinSubkey;
    var after := siblings[..index] + [item] + siblings[index..];
    assert forall i :: 0 <= i < index ==> after[i] == siblings[i];
  }

  /** Items in front stay in place whatever happens behind them. */
  lemma PlacedBefore(parent: wstring, m: Progress, n: Progress, index: nat, siblings: seq<Item>, others: seq<Item>,
      nodes: map<NodeId, Node>)
    requires index <= |siblings| && index <= |m.entries| && ArePlaced(parent, m, index, siblings, nodes)
    requires n.before == m.before && n.stored == m.stored && n.entries == m.entries && index <= |others|
             && others[..index] == siblings[..index]
    ensures ArePlaced(parent, n, index, others, nodes)
  {
    hide IsPlaced, SubkeysStay;
    assert forall i :: 0 <= i < index ==> others[i] == others[..index][i] == siblings[i];
  }

  /** Freeing nodes that no item shows leaves every item in place. */
  lemma PlacedAtEnd(parent: wstring, m: Progress, siblings: seq<Item>, nodes: map<NodeId, Node>,
      left: map<NodeId, Node>)
    requires |siblings| == |m.entries| && ArePlaced(parent, m, |siblings|, siblings, nodes)
    requires (forall id :: id in left ==> id in nodes && left[id] == nodes[id])
             && forall i :: 0 <= i < |siblings| ==> siblings[i].node in left
    ensures SubkeysStay(m.stored, left)
    ensures forall i :: 0 <= i < |siblings| ==> IsPlaced(parent, siblings[i], m.entries[i], m.before, m.stored, left)
  {
    hide JoinSubkey;
  }

  lemma MergeStarts(m: Progress, next: NodeId)
    requires (forall id :: id in m.stored ==> id < next) && ForestRefs(m.before) <= m.stored.Keys && AreApart(m.before)
    requires m.oc == 0 && m.gone == {} && m.made == {}
    ensures Merging(m, 0, m.before, m.stored, next, [])
  {
    hide ForestRefs, AreApart;
  }

  lemma MergingFacts(m: Progress, index: nat, siblings: seq<Item>, nodes: map<NodeId, Node>, next: NodeId,
      released: seq<NodeId>)
    requires Merging(m, index, siblings, nodes, next, released)
    ensures m.oc <= |m.before| && (forall id :: id in nodes ==> id < next) && |siblings| - index == |m.before| - m.oc
    ensures index < |siblings| ==>
              siblings[index] == m.before[m.oc] && siblings[index].node in nodes && siblings[index].node in m.stored
    ensures next !in nodes && next !in m.stored
  {
    hide ForestRefs, AreApart;
    assert |siblings[index..]| == |m.before[m.oc..]|;
    if index < |siblings| {
      assert siblings[index..][0] == siblings[index];
      ItemRefs(siblings, index);
      ForestHas(m.before, m.oc);
    }
  }

  lemma MergeDeletes(m: Progress, index: nat, siblings: seq<Item>, nodes: map<NodeId, Node>, next: NodeId,
      released: seq<NodeId>)
    requires Merging(m, index, siblings, nodes, next, released) && index < |siblings|
    ensures var child := siblings[index];
            Merging(m.(gone := m.gone + Refs(child), oc := m.oc + 1), index, siblings[..index]
                    + siblings[index + 1..], nodes, next,
                    released + Collected(child))
  {
    MergingFacts(m, index, siblings, nodes, next, released);
    hide ForestRefs, AreApart, Refs, Shows, KeepsRefs;
    var child, after := siblings[index], siblings[..index] + siblings[index + 1..];
    DeletedRefs(m, index, siblings, nodes, next, released);
    assert after[index..] == m.before[m.oc + 1..] by {
      assert siblings[index..][1..] == siblings[index + 1..] && m.before[m.oc..][1..] == m.before[m.oc + 1..];
    }
    assert forall i :: 0 <= i < index ==> after[i] == siblings[i];
  }

  lemma DeletedRefs(m: Progress, index: nat, siblings: seq<Item>, nodes: map<NodeId, Node>, next: NodeId,
      released: seq<NodeId>)
    requires KeepsRefs(m, siblings, nodes, next, released) && index < |siblings| && m.oc < |m.before|
             && siblings[index] == m.before[m.oc]
    ensures var child := siblings[index];
            KeepsRefs(m.(gone := m.gone + Refs(child), oc := m.oc + 1), siblings[..index]
                      + siblings[index + 1..], nodes, next,
                      released + Collected(child))
  {
    DeleteAt(siblings, index);
    ForestHas(m.before, m.oc);
    hide ForestRefs, AreApart, Refs;
    var child := siblings[index];
    assert Refs(child) !! m.made;
  }

  lemma MergeKeeps(m: Progress, index: nat, siblings: seq<Item>, nodes: map<NodeId, Node>, next: NodeId,
      released: seq<NodeId>)
    requires Merging(m, index, siblings, nodes, next, released) && index < |siblings| && index < |m.entries|
    requires Shows(siblings[index], m.entries[index])
    ensures siblings[index].node in nodes
    ensures var id := siblings[index].node;
            Merging(m.(oc := m.oc + 1), index
                    + 1, siblings, nodes[id := nodes[id].(simulated := m.entries[index].simulated)], next, released)
  {
    MergingFacts(m, index, siblings, nodes, next, released);
    ItemRefs(siblings, index);
    ForestHas(m.before, m.oc);
    hide ForestRefs, AreApart, Refs, Shows;
    var id := siblings[index].node;
    var changed := nodes[id := nodes[id].(simulated := m.entries[index].simulated)];
    assert siblings[index + 1..] == m.before[m.oc + 1..] by {
      assert siblings[index..][1..] == siblings[index + 1..] && m.before[m.oc..][1..] == m.before[m.oc + 1..];
    }
    assert changed.Keys == nodes.Keys;
    assert id in ForestRefs(m.before);
  }

  lemma MergeInserts(m: Progress, index: nat, siblings: seq<Item>, nodes: map<NodeId, Node>, next: NodeId,
      released: seq<NodeId>, item: Item, node: Node)
    requires Merging(m, index, siblings, nodes, next, released) && index < |m.entries|
    requires item == Item(m.entries[index].text, next, []) && node.simulated == m.entries[index].simulated
    ensures Merging(m.(made := m.made + {next}), index + 1, siblings[..index] + [item]
                    + siblings[index..], nodes[next := node], next + 1, released)
  {
    hide ForestRefs, AreApart, Shows, KeepsRefs;
    NewShows(item, m.entries[index]);
    var after := siblings[..index] + [item] + siblings[index..];
    InsertedRefs(m, index, siblings, nodes, next, released, item, node);
    MergingFacts(m, index, siblings, nodes, next, released);
  }

  lemma NewShows(item: Item, entry: Entry)
    requires item.text == entry.text
    ensures Shows(item, entry)
  {}

  lemma InsertedRefs(m: Progress, index: nat, siblings: seq<Item>, nodes: map<NodeId, Node>, next: NodeId,
      released: seq<NodeId>, item: Item, node: Node)
    requires KeepsRefs(m, siblings, nodes, next, released) && index <= |siblings| && item.node == next
             && item.children == []
    ensures KeepsRefs(m.(made := m.made + {next}), siblings[..index] + [item]
                      + siblings[index..], nodes[next := node], next + 1, released)
  {
    assert ForestRefs(siblings) <= nodes.Keys;
    InsertAt(siblings, index, item);
    hide ForestRefs, AreApart;
    assert nodes[next := node].Keys == nodes.Keys + {next};
  }

  lemma MergeEnds(m: Progress, index: nat, siblings: seq<Item>, nodes: map<NodeId, Node>, next: NodeId,
      released: seq<NodeId>)
    requires Merging(m, index, siblings, nodes, next, released) && index == |siblings| == |m.entries|
    ensures m.oc == |m.before| && AreApart(siblings) && (forall id :: id in nodes ==> id < next)
    ensures var left := nodes.Keys - (set id | id in released);
            && left == m.stored.Keys - (ForestRefs(m.before) - ForestRefs(siblings)) + ForestRefs(siblings)
               && ForestRefs(siblings) <= left
            && (forall i :: 0 <= i < index ==>
                  siblings[i].node in left && nodes[siblings[i].node].simulated == m.entries[i].simulated)
            && (forall id :: id in m.stored && id !in ForestRefs(m.before) ==> id in left && nodes[id] == m.stored[id])
    ensures forall i :: 0 <= i < index ==> Shows(siblings[i], m.entries[i])
  {
    forall i | 0 <= i < |siblings| ensures siblings[i].node in ForestRefs(siblings) { ItemRefs(siblings, i); }
    MergingFacts(m, index, siblings, nodes, next, released);
    hide ForestRefs, AreApart, Refs, Shows;
  }

  /** What holds all along a merge. */
  ghost predicate Going(parent: wstring, strict: bool, m: Progress, index: nat, siblings: seq<Item>,
      nodes: map<NodeId, Node>, next: NodeId, released: seq<NodeId>)
  {
    && Merging(m, index, siblings, nodes, next, released) && ArePlaced(parent, m, index, siblings, nodes)
    && (strict ==>
          StrictlySortedItems(m.before) && StrictlySortedEntries(m.entries)
            && PairsKept(m.before, m.oc, m.entries, index, siblings[..index]))
  }

  lemma GoesOn(parent: wstring, strict: bool, m: Progress, next: NodeId)
    requires (forall id :: id in m.stored ==> id < next) && ForestRefs(m.before) <= m.stored.Keys && AreApart(m.before)
    requires m.oc == 0 && m.gone == {} && m.made == {}
             && (strict ==> StrictlySortedItems(m.before) && StrictlySortedEntries(m.entries))
    ensures Going(parent, strict, m, 0, m.before, m.stored, next, [])
  {
    hide ForestRefs, AreApart, Merging, PairsKept, StrictlySortedItems, StrictlySortedEntries;
    MergeStarts(m, next);
    PairStart(m.before, m.entries);
    assert m.before[..0] == [];
  }

  lemma GoingFacts(parent: wstring, strict: bool, m: Progress, index: nat, siblings: seq<Item>,
      nodes: map<NodeId, Node>, next: NodeId, released: seq<NodeId>)
    requires Going(parent, strict, m, index, siblings, nodes, next, released)
    ensures index <= |m.entries| && index <= |siblings| && m.oc <= |m.before| && |siblings| - index == |m.before| - m.oc
    ensures index < |siblings| ==> siblings[index] == m.before[m.oc] && siblings[index].node in nodes
    ensures forall id :: id in nodes ==> id < next
  {
    MergingFacts(m, index, siblings, nodes, next, released);
    hide *;
  }

  lemma GoesDeleting(parent: wstring, strict: bool, m: Progress, index: nat, siblings: seq<Item>,
      nodes: map<NodeId, Node>, next: NodeId, released: seq<NodeId>)
    requires Going(parent, strict, m, index, siblings, nodes, next, released)
    requires index < |siblings| && index <= |m.entries| && Order(ItemText(siblings[index]), m.entries, index) < 0
    ensures var child := siblings[index];
            Going(parent, strict, m.(gone := m.gone + Refs(child), oc := m.oc + 1), index, siblings[..index]
                  + siblings[index + 1..], nodes, next,
                  released + Collected(child))
  {
    hide Merging, ArePlaced, PairsKept, StrictlySortedItems, StrictlySortedEntries, Order, ItemText, Refs;
    var child, others := siblings[index], siblings[..index] + siblings[index + 1..];
    var n := m.(gone := m.gone + Refs(child), oc := m.oc + 1);
    MergingFacts(m, index, siblings, nodes, next, released);
    if strict { PairDeleted(m.before, m.oc, m.entries, index, siblings[..index]); }
    MergeDeletes(m, index, siblings, nodes, next, released);
    assert others[..index] == siblings[..index];
    PlacedBefore(parent, m, n, index, siblings, others, nodes);
  }

  lemma GoesKeeping(parent: wstring, strict: bool, m: Progress, index: nat, siblings: seq<Item>,
      nodes: map<NodeId, Node>, next: NodeId, released: seq<NodeId>)
    requires Going(parent, strict, m, index, siblings, nodes, next, released)
    requires index < |siblings| && index < |m.entries| && Order(ItemText(siblings[index]), m.entries, index) == 0
    ensures siblings[index].node in nodes
    ensures var id := siblings[index].node;
            Going(parent, strict, m.(oc := m.oc + 1), index
                  + 1, siblings, nodes[id := nodes[id].(simulated := m.entries[index].simulated)], next, released)
  {
    hide Merging, ArePlaced, PairsKept, StrictlySortedItems, StrictlySortedEntries, ItemText, CompareInsensitive;
    MergingFacts(m, index, siblings, nodes, next, released);
    var id := siblings[index].node;
    if strict { PairMet(m.before, m.oc, m.entries, index, siblings[..index]); }
    MergeKeeps(m, index, siblings, nodes, next, released);
    KeptIsPlaced(parent, m, index, siblings, nodes, m.entries[index].simulated);
    assert siblings[..index + 1] == siblings[..index] + [siblings[index]];
    PlacedBefore(parent, m, m.(oc := m.oc + 1), index
                 + 1, siblings, siblings, nodes[id := nodes[id].(simulated := m.entries[index].simulated)]);
  }

  lemma GoesInserting(parent: wstring, strict: bool, m: Progress, index: nat, siblings: seq<Item>,
      nodes: map<NodeId, Node>, next: NodeId, released: seq<NodeId>, node: Node)
    requires Going(parent, strict, m, index, siblings, nodes, next, released)
    requires index <= |siblings| && index < |m.entries|
             && (index < |siblings| ==> Order(ItemText(siblings[index]), m.entries, index) > 0)
    requires node == Node(JoinSubkey(parent, m.entries[index].name), m.entries[index].simulated)
    ensures Going(parent, strict, m.(made := m.made + {next}), index + 1,
                  siblings[..index] + [Item(m.entries[index].text, next, [])]
                    + siblings[index..], nodes[next := node], next + 1, released)
  {
    hide Merging, ArePlaced, PairsKept, StrictlySortedItems, StrictlySortedEntries, ItemText, CompareInsensitive;
    hide JoinSubkey;
    var item := Item(m.entries[index].text, next, []);
    var after, n := siblings[..index] + [item] + siblings[index..], m.(made := m.made + {next});
    MergingFacts(m, index, siblings, nodes, next, released);
    if strict { PairInserted(m.before, m.oc, m.entries, index, siblings[..index], item); }
    MergeInserts(m, index, siblings, nodes, next, released, item, node);
    NewIsPlaced(parent, m, index, siblings, nodes, item, node);
    assert after[..index + 1] == siblings[..index] + [item];
    PlacedBefore(parent, m, n, index + 1, after, after, nodes[next := node]);
  }

  lemma GoesEnd(parent: wstring, strict: bool, m: Progress, index: nat, siblings: seq<Item>, nodes: map<NodeId, Node>,
      next: NodeId, released: seq<NodeId>)
    requires Going(parent, strict, m, index, siblings, nodes, next, released) && index == |siblings| == |m.entries|
    ensures AreApart(siblings) && (forall id :: id in nodes ==> id < next)
            && ArePlaced(parent, m, index, siblings, nodes)
    ensures var left := nodes.Keys - (set id | id in released);
            && left == m.stored.Keys - (ForestRefs(m.before) - ForestRefs(siblings)) + ForestRefs(siblings)
               && ForestRefs(siblings) <= left
            && (forall i :: 0 <= i < index ==>
                  siblings[i].node in left && nodes[siblings[i].node].simulated == m.entries[i].simulated)
            && (forall id :: id in m.stored && id !in ForestRefs(m.before) ==> id in left && nodes[id] == m.stored[id])
    ensures forall i :: 0 <= i < index ==> Shows(siblings[i], m.entries[i])
    ensures strict ==> PairsKept(m.before, |m.before|, m.entries, |m.entries|, siblings)
  {
    MergeEnds(m, index, siblings, nodes, next, released);
    assert siblings[..index] == siblings;
    hide Merging, ArePlaced, PairsKept, StrictlySortedItems, StrictlySortedEntries, Shows, ForestRefs, AreApart;
  }

  function EntriesOf(names: seq<wstring>, simulated: bool): (entries: seq<Entry>)
    ensures |entries| == |names|
    ensures forall i :: 0 <= i < |names| ==> entries[i] == Entry(names[i], DisplayName(names[i]), simulated)
  {
    seq(|names|, i requires 0 <= i < |names| => Entry(names[i], DisplayName(names[i]), simulated))
  }

  /** Whatever was shown before, the texts are those of the sorted entries, letter case aside, as long as the shown
      texts fit the buffer. */
  lemma ShownTextsAreEntries(items: seq<Item>, entries: seq<Entry>, i: nat)
    requires i < |items| == |entries| && Shows(items[i], entries[i]) && |items[i].text| <= TEXT_LENGTH
    ensures EqualsInsensitive(items[i].text, entries[i].text)
  {
    CompareZeroIsEquals(items[i].text, entries[i].text);
    hide CompareInsensitive;
  }

  function JoinSubkey(parent: wstring, name: wstring): wstring {
    if parent == [] then name else Join(parent, name)
  }

  /** Items made for entries, each with a new node of its own. */
  predicate AreNew(parent: wstring, items: seq<Item>, entries: seq<Entry>, first: NodeId, nodes: map<NodeId, Node>) {
    && |items| == |entries|
    && forall i :: 0 <= i < |items| ==>
        && items[i].text == entries[i].text && items[i].children == [] && items[i].node >= first
           && items[i].node in nodes
        && nodes[items[i].node] == Node(JoinSubkey(parent, entries[i].name), entries[i].simulated)
  }

  lemma NoRefs()
    ensures ForestRefs([]) == {}
  {}

  lemma LeafRefs(item: Item)
    requires item.children == []
    ensures Refs(item) == {item.node}
  {}

  lemma NewInFront(items: seq<Item>, shown: set<NodeId>, item: Item)
    requires AreApart(items) && ForestRefs(items) <= shown && item.children == [] && item.node !in shown
    ensures AreApart([item] + items) && ForestRefs([item] + items) == {item.node} + ForestRefs(items)
  {
    hide Refs, ForestRefs;
    LeafRefs(item);
    ForestOne(item);
    ForestConcat([item], items);
    var all := [item] + items;
    forall i, j | 0 <= i < j < |all| ensures Refs(all[i]) !! Refs(all[j]) {
      ForestHas(items, j - 1);
      if i > 0 { assert all[i] == items[i - 1] && all[j] == items[j - 1]; }
    }
  }

  lemma ItemRefs(items: seq<Item>, i: nat)
    requires i < |items| && AreApart(items)
    ensures items[i].node in Refs(items[i]) && Refs(items[i]) <= ForestRefs(items)
    ensures forall k :: 0 <= k < |items| && k != i ==> items[k].node != items[i].node
  {
    ForestHas(items, i);
    forall k | 0 <= k < |items| && k != i ensures items[k].node != items[i].node {
      assert items[k].node in Refs(items[k]) && items[i].node in Refs(items[i]);
    }
  }

  lemma SplitRefs(items: seq<Item>, i: nat)
    requires i < |items|
    ensures ForestRefs(items) == ForestRefs(items[..i]) + Refs(items[i]) + ForestRefs(items[i + 1..])
  {
    hide Refs, ForestRefs;
    ForestConcat(items[..i] + [items[i]], items[i + 1..]);
    ForestConcat(items[..i], [items[i]]);
    ForestOne(items[i]);
    assert items == items[..i] + [items[i]] + items[i + 1..];
  }

  /** Deleting an item takes its references and no others. */
  lemma DeleteAt(items: seq<Item>, i: nat)
    requires i < |items| && AreApart(items)
    ensures var r := items[..i] + items[i + 1..];
            && AreApart(r) && ForestRefs(r) == ForestRefs(items) - Refs(items[i]) && Refs(items[i]) <= ForestRefs(items)
            && r[i..] == items[i..][1..] && r[..i] == items[..i]
  {
    hide Refs, ForestRefs;
    SplitRefs(items, i);
    ForestConcat(items[..i], items[i + 1..]);
    ApartFromForest(items[i], items[..i]);
    ApartFromForest(items[i], items[i + 1..]);
  }

  lemma InsertedApart(items: seq<Item>, i: nat, item: Item)
    requires i <= |items| && AreApart(items) && Refs(item) !! ForestRefs(items)
    ensures AreApart(items[..i] + [item] + items[i..])
  {
    hide Refs, ForestRefs;
    var r := items[..i] + [item] + items[i..];
    assert forall k :: 0 <= k < |r| ==> r[k] == if k < i then items[k] else if k == i then item else items[k - 1];
    forall k | 0 <= k < |items| ensures Refs(item) !! Refs(items[k]) { ForestHas(items, k); }
  }

  lemma InsertAt(items: seq<Item>, i: nat, item: Item)
    requires i <= |items| && AreApart(items) && item.children == [] && item.node !in ForestRefs(items)
    ensures var r := items[..i] + [item] + items[i..];
            && AreApart(r) && ForestRefs(r) == ForestRefs(items) + {item.node} && r[i + 1..] == items[i..]
               && r[..i + 1] == items[..i] + [item]
  {
    hide Refs, ForestRefs, AreApart;
    LeafRefs(item);
    ForestOne(item);
    ForestConcat(items[..i] + [item], items[i..]);
    ForestConcat(items[..i], [item]);
    ForestConcat(items[..i], items[i..]);
    assert items[..i] + items[i..] == items;
    InsertedApart(items, i, item);
  }
}
