/** A tree of keys as a registry of paths: what the snapshot routines do to it, whether they go through or fail. */
module RegistryTrees {
  import opened Text
  import opened ValueFormat
  import opened RegistryKeys
  import opened KeySnapshots
  import opened RegistryEffect
  import opened KeyViews
  import Steps = UndoSteps
  import opened UndoRegions

  // ----- the registry of a tree

  function ValuesOf(values: seq<RegistryValue>): Values {
    if values == [] then map[]
    else
      var last := values[|values| - 1];
      ValuesOf(values[..|values| - 1])[ToLower(last.name) := (last.kind, last.data)]
  }

  /** The path of a child. */
  function Below(path: wstring, name: wstring): wstring {
    path + [BACKSLASH] + ToLower(name)
  }

  function Spelled(root: wstring, path: Path): wstring
    decreases |path|
  {
    if path == [] then root else Spelled(Below(root, path[0]), path[1..])
  }

  /** The registry of a key at a path, with all below it. */
  function RegistryOf(key: Key, path: wstring): Registry
    decreases key, 1
  {
    ChildrenOf(key, |key.children|, path)[path := ValuesOf(key.values)]
  }

  function ChildrenOf(key: Key, count: nat, path: wstring): Registry
    requires count <= |key.children|
    decreases key, 0, count
  {
    if count == 0 then map[]
    else
      var child := key.children[count - 1];
      ChildrenOf(key, count - 1, path) + RegistryOf(child, Below(path, child.name))
  }

  // ----- changes below one path

  /** Two registries that differ at most at and below a path. */
  ghost predicate SameBeside(p: wstring, a: Registry, b: Registry) {
    forall k :: !Under(p, k) ==> At(a, k) == At(b, k)
  }

  lemma {:induction false} SpelledIsUnder(root: wstring, path: Path)
    ensures Under(root, Spelled(root, path))
    decreases |path|
  {
    if path != [] {
      SpelledIsUnder(Below(root, path[0]), path[1..]);
      UnderTransitive(root, Below(root, path[0]), Spelled(root, path));
    }
    hide Under;
  }

  lemma {:induction false} KeysAreUnder(key: Key, path: wstring, k: wstring)
    requires k in RegistryOf(key, path)
    ensures Under(path, k)
    decreases key, 1
  {
    hide Under, ToLower;
    if k != path { ChildKeysAreUnder(key, |key.children|, path, k); } else { UnderItself(path); }
  }

  lemma UnderItself(p: wstring)
    ensures Under(p, p)
  {}

  lemma {:induction false} ChildKeysAreUnder(key: Key, count: nat, path: wstring, k: wstring)
    requires count <= |key.children| && k in ChildrenOf(key, count, path)
    ensures Under(path, k) && k != path
    decreases key, 0, count
  {
    hide Under, ToLower, RegistryOf;
    var child := key.children[count - 1];
    if k in RegistryOf(child, Below(path, child.name)) {
      KeysAreUnder(child, Below(path, child.name), k);
      UnderTransitive(path, Below(path, child.name), k);
      if k == path { UnderAntisymmetric(path, Below(path, child.name)); }
    } else {
      ChildKeysAreUnder(key, count - 1, path, k);
    }
  }

  /** Names that are equal ignoring case spell the same. */
  lemma SameSpelling(path: wstring, a: wstring, b: wstring)
    requires EqualsInsensitive(a, b)
    ensures Below(path, a) == Below(path, b)
  {
    EqualsInsensitiveIsEqualLower(a, b);
  }

  lemma BesideMerge(p: wstring, a: Registry, b: Registry, c: Registry, d: Registry)
    requires SameBeside(p, a, b) && SameBeside(p, c, d)
    ensures SameBeside(p, a + c, b + d)
  {
    hide Under;
  }

  lemma BesideItself(p: wstring, a: Registry)
    ensures SameBeside(p, a, a)
  {}

  /** One child changed: the rest of the children are as they were. */
  lemma {:induction false} ChildrenBeside(a: Key, b: Key, count: nat, path: wstring, p: wstring)
    requires count <= |a.children| && count <= |b.children|
    requires forall j :: 0 <= j < count ==> a.children[j].name == b.children[j].name
    requires forall j :: 0 <= j < count ==>
               var under := Below(path, a.children[j].name);
               SameBeside(p, RegistryOf(a.children[j], under), RegistryOf(b.children[j], under))
    ensures SameBeside(p, ChildrenOf(a, count, path), ChildrenOf(b, count, path))
    decreases count
  {
    hide SameBeside, RegistryOf, Below;
    if count == 0 {
      BesideItself(p, map[]);
    } else {
      ChildrenBeside(a, b, count - 1, path, p);
      var under := Below(path, a.children[count - 1].name);
      BesideMerge(p, ChildrenOf(a, count - 1, path), ChildrenOf(b, count - 1, path),
                  RegistryOf(a.children[count - 1], under), RegistryOf(b.children[count - 1], under));
    }
  }

  lemma BesideValues(p: wstring, a: Registry, b: Registry, path: wstring, values: Values)
    requires SameBeside(p, a, b)
    ensures SameBeside(p, a[path := values], b[path := values])
  {
    hide Under;
  }

  /** A key put in the place of another of its name changes nothing beside it. */
  lemma {:induction false} PutIsBeside(key: Key, path: Path, other: Key, root: wstring)
    requires Exists(key, path) && other.name == Get(key, path).name
    ensures SameBeside(Spelled(root, path), RegistryOf(key, root), RegistryOf(Put(key, path, other), root))
    decreases |path|
  {
    hide SameBeside, RegistryOf, Below, Under, EqualsInsensitive;
    if path == [] {
      WholeIsBeside(key, other, root);
    } else {
      var i := IndexOf(key.children, path[0]);
      UnfoldPath(key, path, other);
      var child, after := key.children[i], Put(key, path, other);
      var changed := Put(child, path[1..], other);
      PutKeepsName(child, path[1..], other);
      SameSpelling(root, child.name, path[0]);
      PutIsBeside(child, path[1..], other, Below(root, child.name));
      forall j | 0 <= j < |key.children|
        ensures var under := Below(root, key.children[j].name);
                SameBeside(Spelled(root, path), RegistryOf(key.children[j], under),
                           RegistryOf(after.children[j], under))
      {
        if j != i { BesideItself(Spelled(root, path), RegistryOf(key.children[j], Below(root, key.children[j].name))); }
      }
      ChildrenBeside(key, after, |key.children|, root, Spelled(root, path));
      BesideValues(Spelled(root, path), ChildrenOf(key, |key.children|, root), ChildrenOf(after, |key.children|, root),
                   root, ValuesOf(key.values));
      RegistryIs(key, root);
      RegistryIs(after, root);
    }
  }

  lemma RegistryIs(key: Key, path: wstring)
    ensures RegistryOf(key, path) == ChildrenOf(key, |key.children|, path)[path := ValuesOf(key.values)]
  {}

  lemma WholeIsBeside(a: Key, b: Key, path: wstring)
    ensures SameBeside(path, RegistryOf(a, path), RegistryOf(b, path))
  {
    hide RegistryOf, Under;
    forall k | !Under(path, k) ensures k !in RegistryOf(a, path) && k !in RegistryOf(b, path) {
      if k in RegistryOf(a, path) { KeysAreUnder(a, path, k); }
      if k in RegistryOf(b, path) { KeysAreUnder(b, path, k); }
    }
  }

  // ----- what stands at and below the path

  /** The subkeys have names of their own, none of them with a backslash. */
  predicate IsNamed(key: Key) {
    HasDistinctChildren(key.children) && forall i :: 0 <= i < |key.children| ==> BACKSLASH !in key.children[i].name
  }

  predicate IsWellNamed(key: Key) {
    IsNamed(key) && forall i :: 0 <= i < |key.children| ==> IsWellNamed(key.children[i])
  }

  /** Nothing is below two children. */
  lemma ChildrenAreApart(path: wstring, a: wstring, b: wstring, k: wstring)
    requires BACKSLASH !in a && BACKSLASH !in b && Under(Below(path, a), k) && Under(Below(path, b), k)
    ensures EqualsInsensitive(a, b)
  {
    var p, q := Below(path, a), Below(path, b);
    UnderChain(p, q, k);
    if Under(p, q) { NotAbove(path, ToLower(a), ToLower(b)); } else { NotAbove(path, ToLower(b), ToLower(a)); }
    assert ToLower(a) == p[|path| + 1..] == q[|path| + 1..] == ToLower(b);
    EqualsInsensitiveIsEqualLower(a, b);
  }

  /** A name without backslash is not below another one. */
  lemma NotAbove(path: wstring, a: wstring, b: wstring)
    requires BACKSLASH !in b && Under(path + [BACKSLASH] + a, path + [BACKSLASH] + b)
    ensures path + [BACKSLASH] + a == path + [BACKSLASH] + b
  {}

  /** No child reaches k. */
  lemma {:induction false} ChildrenNone(key: Key, count: nat, path: wstring, k: wstring)
    requires count <= |key.children| && forall j :: 0 <= j < count ==> !Under(Below(path, key.children[j].name), k)
    ensures At(ChildrenOf(key, count, path), k) == None
    decreases count
  {
    hide Under, Below, RegistryOf;
    if count > 0 {
      var child := key.children[count - 1];
      ChildrenNone(key, count - 1, path, k);
      if k in RegistryOf(child, Below(path, child.name)) { KeysAreUnder(child, Below(path, child.name), k); }
    }
  }

  /** What is below a child is that child's. */
  lemma {:induction false} ChildrenAt(key: Key, count: nat, path: wstring, k: wstring, i: nat)
    requires IsNamed(key) && i < count <= |key.children| && Under(Below(path, key.children[i].name), k)
    ensures At(ChildrenOf(key, count, path), k) == At(RegistryOf(key.children[i], Below(path, key.children[i].name)), k)
    decreases count
  {
    hide Under, Below, RegistryOf, EqualsInsensitive;
    var last := key.children[count - 1];
    if i == count - 1 {
      forall j | 0 <= j < i ensures !Under(Below(path, key.children[j].name), k) {
        if Under(Below(path, key.children[j].name), k) { ChildrenAreApart(path, key.children[j].name, last.name, k); }
      }
      ChildrenNone(key, i, path, k);
    } else {
      ChildrenAt(key, count - 1, path, k, i);
      if k in RegistryOf(last, Below(path, last.name)) {
        KeysAreUnder(last, Below(path, last.name), k);
        ChildrenAreApart(path, key.children[i].name, last.name, k);
      }
    }
  }

  /** A key of the registry: the root, or one of a child, or none. */
  lemma ViewOf(key: Key, path: wstring, k: wstring, i: int)
    requires IsNamed(key) && -1 <= i < |key.children|
    requires if i >= 0 then Under(Below(path, key.children[i].name), k)
             else forall j :: 0 <= j < |key.children| ==> !Under(Below(path, key.children[j].name), k)
    ensures At(RegistryOf(key, path), k)
            == if i >= 0 then At(RegistryOf(key.children[i], Below(path, key.children[i].name)), k)
               else if k == path then Some(ValuesOf(key.values)) else None
  {
    hide Under, Below, IsNamed, RegistryOf, ChildrenOf;
    RegistryIs(key, path);
    if i >= 0 {
      ChildrenAt(key, |key.children|, path, k, i);
      ChildIsDeeper(path, key.children[i].name, k);
    } else {
      ChildrenNone(key, |key.children|, path, k);
    }
  }

  lemma ChildIsDeeper(path: wstring, name: wstring, k: wstring)
    requires Under(Below(path, name), k)
    ensures Under(path, k) && k != path
  {
    UnderTransitive(path, Below(path, name), k);
    if k == path { UnderAntisymmetric(path, Below(path, name)); }
  }

  /** A tree in which the key at a path is another one, seen key by key. */
  lemma {:induction false} PutAt(key: Key, path: Path, other: Key, root: wstring, k: wstring)
    requires IsWellNamed(key) && Exists(key, path) && other.name == Get(key, path).name
    ensures var p := Spelled(root, path);
            At(RegistryOf(Put(key, path, other), root), k)
            == if Under(p, k) then At(RegistryOf(other, p), k) else At(RegistryOf(key, root), k)
    decreases |path|
  {
    hide RegistryOf, Below, Under, EqualsInsensitive, At;
    var p := Spelled(root, path);
    PutIsBeside(key, path, other, root);
    if path == [] {
    } else if Under(p, k) {
      var i := IndexOf(key.children, path[0]);
      UnfoldPath(key, path, other);
      var child, after := key.children[i], Put(key, path, other);
      PutKeepsName(child, path[1..], other);
      SameSpelling(root, child.name, path[0]);
      PutAt(child, path[1..], other, Below(root, child.name), k);
      SpelledIsUnder(Below(root, path[0]), path[1..]);
      UnderTransitive(Below(root, child.name), p, k);
      assert IsNamed(after) by { SameNames(key, after); }
      ViewOf(after, root, k, i);
    }
  }

  lemma SameNames(a: Key, b: Key)
    requires IsNamed(a) && |a.children| == |b.children|
    requires forall j :: 0 <= j < |a.children| ==> a.children[j].name == b.children[j].name
    ensures IsNamed(b)
  {
    hide EqualsInsensitive;
  }

  // ----- the same key at another path

  /** A key's registry is the same at every path. */
  lemma {:induction false} ShiftedAt(key: Key, p: wstring, q: wstring, c: wstring)
    ensures At(RegistryOf(key, p + q), p + c) == At(RegistryOf(key, q), c)
    decreases key, 1
  {
    hide RegistryOf, ChildrenOf;
    RegistryIs(key, p + q);
    RegistryIs(key, q);
    ShiftedChildren(key, |key.children|, p, q, c);
    SamePlace(p, q, c);
  }

  lemma SamePlace(p: wstring, q: wstring, c: wstring)
    ensures p + q == p + c <==> q == c
  {
    assert (p + q)[|p|..] == q && (p + c)[|p|..] == c;
  }

  lemma {:induction false} ShiftedChildren(key: Key, count: nat, p: wstring, q: wstring, c: wstring)
    requires count <= |key.children|
    ensures At(ChildrenOf(key, count, p + q), p + c) == At(ChildrenOf(key, count, q), c)
    decreases key, 0, count
  {
    hide RegistryOf, ToLower;
    if count > 0 {
      var child := key.children[count - 1];
      ShiftedChildren(key, count - 1, p, q, c);
      ShiftedAt(child, p, Below(q, child.name), c);
      assert p + Below(q, child.name) == Below(p + q, child.name);
    }
  }

  /** A tree's registry, to be put somewhere. */
  function ContentOf(key: Key): Steps.Content {
    RegistryOf(key, [])
  }

  lemma ContentIs(key: Key)
    ensures Steps.IsContent(ContentOf(key))
  {
    hide RegistryOf, Under;
    forall c | c in ContentOf(key) ensures Under([], c) { KeysAreUnder(key, [], c); }
  }

  lemma ContentAt(key: Key, p: wstring, k: wstring)
    requires p <= k
    ensures At(RegistryOf(key, p), k) == At(ContentOf(key), k[|p|..])
  {
    hide RegistryOf;
    ShiftedAt(key, p, [], k[|p|..]);
    assert p + [] == p && p + k[|p|..] == k;
  }

  // ----- the three changes of a tree

  lemma GraftedView(reg: Registry, p: wstring, content: Steps.Content, k: wstring)
    requires Steps.IsContent(content)
    ensures At(Steps.Grafted(reg, p, content), k)
            == if Under(p, k) && k[|p|..] in content then At(content, k[|p|..]) else At(reg, k)
  {
    Steps.GraftedAt(reg, p, content, k);
    hide Steps.Grafted, Under;
  }

  /** The key at the path has another content. */
  lemma PutReplaces(key: Key, path: Path, other: Key, root: wstring)
    requires IsWellNamed(key) && Exists(key, path) && other.name == Get(key, path).name
    ensures RegistryOf(Put(key, path, other), root)
            == Steps.Replaced(RegistryOf(key, root), Spelled(root, path), ContentOf(other))
  {
    hide RegistryOf, Under, Put, Get, Exists, Steps.Grafted, IsWellNamed, Steps.IsContent, ContentOf;
    var p, reg := Spelled(root, path), RegistryOf(key, root);
    var after, wanted := RegistryOf(Put(key, path, other), root), Steps.Replaced(reg, p, ContentOf(other));
    ContentIs(other);
    forall k ensures At(after, k) == At(wanted, k) {
      PutAt(key, path, other, root, k);
      GraftedView(Delete(reg, p), p, ContentOf(other), k);
      if Under(p, k) {
        Steps.UnderPrefix(p, k);
        ContentAt(other, p, k);
      }
    }
    SameEverywhere(after, wanted);
  }

  /** The child that reaches k, or -1. */
  function Reaching(children: seq<Key>, path: wstring, k: wstring): (r: int)
    ensures -1 <= r < |children|
    ensures if r >= 0 then Under(Below(path, children[r].name), k)
            else forall j :: 0 <= j < |children| ==> !Under(Below(path, children[j].name), k)
  {
    if children == [] then -1
    else if Under(Below(path, children[|children| - 1].name), k) then |children| - 1
    else Reaching(children[..|children| - 1], path, k)
  }

  /** A child is added to a key. */
  lemma ChildIsGrafted(key: Key, child: Key, path: wstring)
    requires IsNamed(key) && BACKSLASH !in child.name && IndexOf(key.children, child.name) == -1
    ensures IsNamed(Child(key, child))
    ensures RegistryOf(Child(key, child), path)
            == Steps.Grafted(RegistryOf(key, path), Below(path, child.name), ContentOf(child))
  {
    hide RegistryOf, Under, Below, Steps.Grafted, EqualsInsensitive, Steps.IsContent, ContentOf, IsNamed;
    var q, reg, n := Below(path, child.name), RegistryOf(key, path), |key.children|;
    var after, wanted := RegistryOf(Child(key, child), path), Steps.Grafted(reg, q, ContentOf(child));
    AddedIsNamed(key, child);
    ContentIs(child);
    forall k ensures At(after, k) == At(wanted, k) {
      GraftedView(reg, q, ContentOf(child), k);
      var i := Reaching(key.children, path, k);
      ViewOf(key, path, k, i);
      if Under(q, k) {
        if i >= 0 { NamedApart(key, child, path, k, i); }
        ViewOf(Child(key, child), path, k, n);
        ChildIsDeeper(path, child.name, k);
        Steps.UnderPrefix(q, k);
        ContentAt(child, q, k);
      } else {
        ViewOf(Child(key, child), path, k, i);
      }
    }
    SameEverywhere(after, wanted);
  }

  lemma NamedApart(key: Key, child: Key, path: wstring, k: wstring, i: nat)
    requires IsNamed(key) && BACKSLASH !in child.name && IndexOf(key.children, child.name) == -1 && i < |key.children|
    requires Under(Below(path, child.name), k)
    ensures !Under(Below(path, key.children[i].name), k)
  {
    hide Under, Below, EqualsInsensitive;
    if Under(Below(path, key.children[i].name), k) { ChildrenAreApart(path, key.children[i].name, child.name, k); }
  }

  lemma AddedIsNamed(key: Key, child: Key)
    requires IsNamed(key) && BACKSLASH !in child.name && IndexOf(key.children, child.name) == -1
    ensures IsNamed(Child(key, child))
  {
    hide EqualsInsensitive;
  }

  /** A child is removed from a key. */
  lemma ChildIsDeleted(key: Key, name: wstring, path: wstring)
    requires IsNamed(key) && IndexOf(key.children, name) >= 0
    ensures IsNamed(WithoutChild(key, name))
    ensures RegistryOf(WithoutChild(key, name), path) == Delete(RegistryOf(key, path), Below(path, name))
  {
    var i := IndexOf(key.children, name);
    var rest := WithoutChild(key, name);
    SameSpelling(path, key.children[i].name, name);
    hide RegistryOf, Under, Below, Delete, EqualsInsensitive, IsNamed, IndexOf, WithoutChild, At;
    var after, wanted := RegistryOf(rest, path), Delete(RegistryOf(key, path), Below(path, name));
    forall k ensures At(after, k) == At(wanted, k) { RemovedAt(key, path, k, i); }
    SameEverywhere(after, wanted);
  }

  lemma RemovedAt(key: Key, path: wstring, k: wstring, i: nat)
    requires IsNamed(key) && i < |key.children| && IsNamed(key.(children := RemoveAt(key.children, i)))
    ensures At(RegistryOf(key.(children := RemoveAt(key.children, i)), path), k)
            == At(Delete(RegistryOf(key, path), Below(path, key.children[i].name)), k)
  {
    hide RegistryOf, Under, Below, EqualsInsensitive, IsNamed;
    var rest := key.(children := RemoveAt(key.children, i));
    if Under(Below(path, key.children[i].name), k) {
      SiblingsApart(key, path, k, i);
      ViewOf(rest, path, k, -1);
      ChildIsDeeper(path, key.children[i].name, k);
    } else {
      var j := Reaching(key.children, path, k);
      ViewOf(key, path, k, j);
      ViewOf(rest, path, k, if j < i then j else j - 1);
    }
  }

  lemma SiblingsApart(key: Key, path: wstring, k: wstring, i: nat)
    requires IsNamed(key) && i < |key.children| && Under(Below(path, key.children[i].name), k)
    ensures forall j :: 0 <= j < |key.children| && j != i ==> !Under(Below(path, key.children[j].name), k)
  {
    hide Under, Below, EqualsInsensitive;
    forall j | 0 <= j < |key.children| && j != i ensures !Under(Below(path, key.children[j].name), k) {
      if Under(Below(path, key.children[j].name), k) {
        ChildrenAreApart(path, key.children[i].name, key.children[j].name, k);
        ChildrenAreApart(path, key.children[j].name, key.children[i].name, k);
      }
    }
  }

  lemma {:induction false} SpelledBelow(root: wstring, path: Path, name: wstring)
    ensures Spelled(root, path + [name]) == Below(Spelled(root, path), name)
    decreases |path|
  {
    hide Below;
    if path == [] {
      assert (path + [name])[1..] == [];
    } else {
      assert (path + [name])[1..] == path[1..] + [name];
      SpelledBelow(Below(root, path[0]), path[1..], name);
    }
  }

  lemma {:induction false} WellNamedAt(key: Key, path: Path)
    requires IsWellNamed(key) && Exists(key, path)
    ensures IsNamed(Get(key, path))
    decreases |path|
  {
    hide IsNamed, EqualsInsensitive;
    if path != [] { WellNamedAt(key.children[IndexOf(key.children, path[0])], path[1..]); }
  }

  /** A change below a key of the tree is that change of its registry. */
  lemma PutGrafts(key: Key, parent: Path, child: Key, root: wstring)
    requires IsWellNamed(key) && Exists(key, parent) && BACKSLASH !in child.name
             && IndexOf(Get(key, parent).children, child.name) == -1
    ensures var q := Spelled(root, parent + [child.name]);
            RegistryOf(Put(key, parent, Child(Get(key, parent), child)), root)
              == Steps.Grafted(RegistryOf(key, root), q, ContentOf(child))
  {
    var p, above := Spelled(root, parent), Get(key, parent);
    var other := Child(above, child);
    PutBack(key, parent);
    WellNamedAt(key, parent);
    SpelledBelow(root, parent, child.name);
    ChildIsGrafted(above, child, p);
    ContentIs(child);
    hide RegistryOf, Under, Below, Put, Get, Exists, Steps.Grafted, IsWellNamed, IsNamed, Steps.IsContent, ContentOf;
    hide EqualsInsensitive;
    var q, reg := Below(p, child.name), RegistryOf(key, root);
    var after, wanted := RegistryOf(Put(key, parent, other), root), Steps.Grafted(reg, q, ContentOf(child));
    forall k ensures At(after, k) == At(wanted, k) {
      PutAt(key, parent, other, root, k);
      PutAt(key, parent, above, root, k);
      GraftedView(reg, q, ContentOf(child), k);
      GraftedView(RegistryOf(above, p), q, ContentOf(child), k);
      if Under(q, k) { ChildIsDeeper(p, child.name, k); }
    }
    SameEverywhere(after, wanted);
  }

  lemma PutDeletes(key: Key, parent: Path, name: wstring, root: wstring)
    requires IsWellNamed(key) && Exists(key, parent) && IndexOf(Get(key, parent).children, name) >= 0
    ensures var q := Spelled(root, parent + [name]);
            RegistryOf(Put(key, parent, WithoutChild(Get(key, parent), name)), root) == Delete(RegistryOf(key, root), q)
  {
    var p, above := Spelled(root, parent), Get(key, parent);
    var other := WithoutChild(above, name);
    PutBack(key, parent);
    WellNamedAt(key, parent);
    SpelledBelow(root, parent, name);
    ChildIsDeleted(above, name, p);
    hide RegistryOf, Under, Below, Put, Get, Exists, Delete, IsWellNamed, IsNamed, EqualsInsensitive;
    var q, reg := Below(p, name), RegistryOf(key, root);
    var after, wanted := RegistryOf(Put(key, parent, other), root), Delete(reg, q);
    forall k ensures At(after, k) == At(wanted, k) {
      PutAt(key, parent, other, root, k);
      PutAt(key, parent, above, root, k);
      if Under(q, k) { ChildIsDeeper(p, name, k); }
    }
    SameEverywhere(after, wanted);
  }

  // ----- replays on the tree

  /** A replayed step does what redoing or undoing it means, or fails and leaves what it may. */
  ghost predicate Replayed(step: Steps.Step, isRedo: bool, ok: bool, before: Registry, after: Registry) {
    if ok then after == (if isRedo then Steps.Forward(step, before) else Steps.Backward(step, before))
    else MayLeave(step, false, before, after)
  }

  lemma BesideMayBeLeft(step: Steps.Step, p: wstring, a: Registry, b: Registry)
    requires SameBeside(p, a, b)
             && forall place: Place :: Under(p, place.path) && place != KeyAt(p) ==> Touches(step, place)
    requires Touches(step, KeyAt(p)) || (p in a && p in b)
    ensures MayLeave(step, false, a, b)
  {
    hide Under, Touches;
    forall place: Place | !Touches(step, place) ensures SameAt(a, b, place) {
      if place != KeyAt(p) { assert At(a, place.path) == At(b, place.path); }
    }
  }

  lemma {:induction false} SameChildren(a: Key, b: Key, count: nat, path: wstring)
    requires a.children == b.children && count <= |a.children|
    ensures ChildrenOf(a, count, path) == ChildrenOf(b, count, path)
    decreases count
  {
    hide RegistryOf;
    if count > 0 { SameChildren(a, b, count - 1, path); }
  }

  /** A key filled from a snapshot. */
  function Filled(s: KeySnapshot): Key {
    Key(s.name, [], [], false, StoredAll([], s.values), KeysOf(s, |s.children|))
  }

  lemma FilledContent(key: Key, s: KeySnapshot)
    requires key.values == StoredAll([], s.values) && key.children == KeysOf(s, |s.children|)
    ensures ContentOf(key) == ContentOf(Filled(s))
  {
    hide KeysOf, StoredAll, ChildrenOf;
    SameChildren(key, Filled(s), |key.children|, []);
  }

  lemma RootIsThere(key: Key, path: wstring)
    ensures path in RegistryOf(key, path)
  {}

  /** The key at the path is there before and after it is replaced. */
  lemma ReplacedIsThere(key: Key, path: Path, other: Key, root: wstring)
    requires IsWellNamed(key) && Exists(key, path) && other.name == Get(key, path).name
    ensures Spelled(root, path) in RegistryOf(Put(key, path, other), root)
  {
    var p := Spelled(root, path);
    hide RegistryOf, Put, Get, Exists, IsWellNamed;
    PutAt(key, path, other, root, p);
    RootIsThere(other, p);
    UnderItself(p);
  }

  method ReplayReplace(store: Store, path: Path, s: KeySnapshot, isRedo: bool, ghost root: wstring,
      ghost step: Steps.Step)
    returns (ok: bool)
    requires Exists(store.root, path) && IsWellNamed(store.root)
    requires step.ReplaceKey? && ToLower(step.key) == Spelled(root, path)
    requires ContentOf(Filled(s)) == if isRedo then step.after else step.before
    modifies store
    ensures Replayed(step, isRedo, ok, RegistryOf(old(store.root), root), RegistryOf(store.root, root))
  {
    hide RegistryOf, Put, Get, Exists, IsWellNamed, ContentOf, Spelled, Steps.Replaced, Filled, ToLower, KeysOf;
    hide StoredAll, SameBeside;
    ghost var before, p := store.root, Spelled(root, path);
    ghost var made;
    ok, made := store.ReplaceKey(path, s);
    PutBack(before, path);
    if ok {
      FilledContent(made, s);
      PutReplaces(before, path, made, root);
    } else {
      PutIsBeside(before, path, made, root);
      ReplacedIsThere(before, path, Get(before, path), root);
      ReplacedIsThere(before, path, made, root);
      BesideMayBeLeft(step, p, RegistryOf(before, root), RegistryOf(store.root, root));
    }
  }

  /** Undoing the creation of a key, or redoing its deletion. */
  method ReplayDelete(store: Store, parent: Path, name: wstring, isRedo: bool, ghost root: wstring,
      ghost step: Steps.Step)
    returns (ok: bool)
    requires IsWellNamed(store.root)
    requires if isRedo then step.DeleteKey? else step.CreateKey?
    requires Steps.Child(step.parent, step.name) == Spelled(root, parent + [name])
    modifies store
    ensures Replayed(step, isRedo, ok, RegistryOf(old(store.root), root), RegistryOf(store.root, root))
  {
    hide RegistryOf, Put, Get, Exists, IsWellNamed, Spelled, Steps.Child, SameBeside, Delete;
    ghost var before, q := store.root, Spelled(root, parent + [name]);
    ghost var left;
    ok, left := store.DeleteKey(parent, name);
    if ok {
      PutDeletes(before, parent, name, root);
    } else {
      if store.root != before {
        BelowIsChild(before, parent, name);
        PutIsBeside(before, parent + [name], left, root);
      } else {
        BesideItself(q, RegistryOf(before, root));
      }
      BesideMayBeLeft(step, q, RegistryOf(before, root), RegistryOf(store.root, root));
    }
  }

  /** Undoing the deletion of a key, or redoing its creation. */
  method ReplayRestore(store: Store, parent: Path, s: KeySnapshot, isRedo: bool, ghost root: wstring,
      ghost step: Steps.Step)
    returns (ok: bool)
    requires IsWellNamed(store.root) && BACKSLASH !in s.name
    requires if isRedo then step.CreateKey? else step.DeleteKey?
    requires Steps.Child(step.parent, step.name) == Spelled(root, parent + [s.name])
             && step.snapshot == ContentOf(KeyOf(s))
    modifies store
    ensures Replayed(step, isRedo, ok, RegistryOf(old(store.root), root), RegistryOf(store.root, root))
  {
    hide RegistryOf, Put, Get, Exists, IsWellNamed, Spelled, Steps.Child, SameBeside, Steps.Grafted, KeyOf, ContentOf;
    ghost var before, q := store.root, Spelled(root, parent + [s.name]);
    ghost var made;
    ok, made := store.RestoreKey(parent, s);
    KeyKeepsName(s);
    if ok || store.root != before { PutGrafts(before, parent, made, root); }
    if !ok {
      if store.root != before {
        GraftIsBeside(RegistryOf(before, root), q, made);
      } else {
        BesideItself(q, RegistryOf(before, root));
      }
      BesideMayBeLeft(step, q, RegistryOf(before, root), RegistryOf(store.root, root));
    }
  }

  lemma GraftIsBeside(reg: Registry, q: wstring, child: Key)
    ensures SameBeside(q, reg, Steps.Grafted(reg, q, ContentOf(child)))
  {
    ContentIs(child);
    hide Steps.Grafted, ContentOf, Under, Steps.IsContent;
    forall k | !Under(q, k) ensures At(reg, k) == At(Steps.Grafted(reg, q, ContentOf(child)), k) {
      GraftedView(reg, q, ContentOf(child), k);
    }
  }
}
