/** Snapshots of keys, restored into a registry whose operations may fail. */
module KeySnapshots {
  import opened Text
  import opened ValueFormat
  import opened RegistryKeys

  datatype KeySnapshot = KeySnapshot(
    name: wstring, className: wstring, linkTarget: wstring, isVolatile: bool, values: seq<RegistryValue>,
    children: seq<KeySnapshot>, complete: bool)

  type Path = seq<wstring>

  // ----- the tree

  predicate Exists(key: Key, path: Path)
    decreases |path|
  {
    path == [] || (var i := IndexOf(key.children, path[0]); i >= 0 && Exists(key.children[i], path[1..]))
  }

  function Get(key: Key, path: Path): Key
    requires Exists(key, path)
    decreases |path|
  {
    if path == [] then key else Get(key.children[IndexOf(key.children, path[0])], path[1..])
  }

  /** The tree with another key at a path. */
  function Put(key: Key, path: Path, other: Key): Key
    requires Exists(key, path)
    decreases |path|
  {
    if path == [] then other
    else
      var i := IndexOf(key.children, path[0]);
      key.(children := key.children[i := Put(key.children[i], path[1..], other)])
  }

  lemma IndexIs(children: seq<Key>, name: wstring, i: nat)
    requires i < |children| && EqualsInsensitive(children[i].name, name)
    requires forall j :: 0 <= j < i ==> !EqualsInsensitive(children[j].name, name)
    ensures IndexOf(children, name) == i
  {
    hide IndexOf, EqualsInsensitive;
    var r := IndexOf(children, name);
    assert r == i by { assert EqualsInsensitive(children[i].name, name); }
  }

  lemma {:induction false} PutKeepsName(key: Key, path: Path, other: Key)
    requires Exists(key, path) && other.name == Get(key, path).name
    ensures Put(key, path, other).name == key.name
  {}

  lemma UnfoldPath(key: Key, path: Path, other: Key)
    requires path != [] && Exists(key, path)
    ensures var i := IndexOf(key.children, path[0]);
            && 0 <= i < |key.children| && Exists(key.children[i], path[1..])
            && Get(key, path) == Get(key.children[i], path[1..])
            && Put(key, path, other) == key.(children := key.children[i := Put(key.children[i], path[1..], other)])
  {
    hide IndexOf;
  }

  lemma FoldPath(key: Key, path: Path)
    requires path != [] && var i := IndexOf(key.children, path[0]); i >= 0 && Exists(key.children[i], path[1..])
    ensures Exists(key, path)
  {
    hide IndexOf;
  }

  lemma NoPath(key: Key, other: Key)
    ensures Exists(key, []) && Get(key, []) == key && Put(key, [], other) == other
  {}

  /** A child of the same name in the place of the first one of that name. */
  lemma ReplacedIndex(children: seq<Key>, name: wstring, child: Key)
    requires IndexOf(children, name) >= 0 && child.name == children[IndexOf(children, name)].name
    ensures IndexOf(children[IndexOf(children, name) := child], name) == IndexOf(children, name)
  {
    hide EqualsInsensitive, IndexOf;
    var i := IndexOf(children, name);
    var changed := children[i := child];
    assert forall j :: 0 <= j < i ==> changed[j] == children[j];
    IndexIs(changed, name, i);
  }

  /** A key put under its own name is found there, and putting again replaces it. */
  lemma {:induction false} PutAgain(key: Key, path: Path, other: Key, third: Key)
    requires Exists(key, path) && other.name == Get(key, path).name
    ensures Exists(Put(key, path, other), path) && Get(Put(key, path, other), path) == other
    ensures Put(Put(key, path, other), path, third) == Put(key, path, third)
    decreases |path|
  {
    hide *;
    if path == [] {
      NoPath(key, other);
      NoPath(key, third);
      NoPath(other, third);
    } else {
      var i := IndexOf(key.children, path[0]);
      UnfoldPath(key, path, other);
      UnfoldPath(key, path, third);
      var child := key.children[i];
      PutAgain(child, path[1..], other, third);
      PutKeepsName(child, path[1..], other);
      ReplacedIndex(key.children, path[0], Put(child, path[1..], other));
      FoldPath(Put(key, path, other), path);
      UnfoldPath(Put(key, path, other), path, third);
    }
  }

  lemma PutIsFound(key: Key, path: Path, other: Key)
    requires Exists(key, path) && other.name == Get(key, path).name
    ensures Exists(Put(key, path, other), path) && Get(Put(key, path, other), path) == other
    ensures forall third :: Put(Put(key, path, other), path, third) == Put(key, path, third)
  {
    hide *;
    PutAgain(key, path, other, key);
    forall third ensures Put(Put(key, path, other), path, third) == Put(key, path, third) {
      PutAgain(key, path, other, third);
    }
  }

  lemma {:induction false} PutBack(key: Key, path: Path)
    requires Exists(key, path)
    ensures Put(key, path, Get(key, path)) == key
    decreases |path|
  {
    if path != [] {
      var i := IndexOf(key.children, path[0]);
      PutBack(key.children[i], path[1..]);
    }
  }

  // ----- values and children

  /** A value replaces the one of its name or is added. */
  function Stored(values: seq<RegistryValue>, value: RegistryValue): seq<RegistryValue> {
    var i := ValueIndex(values, value.name);
    if i >= 0 then values[i := value] else values + [value]
  }

  function StoredAll(values: seq<RegistryValue>, more: seq<RegistryValue>): seq<RegistryValue> {
    if more == [] then values else Stored(StoredAll(values, more[..|more| - 1]), more[|more| - 1])
  }

  function RemoveAt<T>(items: seq<T>, i: nat): seq<T>
    requires i < |items|
  {
    items[..i] + items[i + 1..]
  }

  lemma StoredNew(values: seq<RegistryValue>, value: RegistryValue)
    requires forall i :: 0 <= i < |values| ==> !EqualsInsensitive(values[i].name, value.name)
    ensures Stored(values, value) == values + [value]
  {
    hide EqualsInsensitive;
  }

  lemma {:induction false} DistinctAreStored(more: seq<RegistryValue>)
    requires HasDistinctValues(more)
    ensures StoredAll([], more) == more
    decreases |more|
  {
    hide EqualsInsensitive, Stored;
    if more != [] {
      var before, last := more[..|more| - 1], more[|more| - 1];
      assert forall i :: 0 <= i < |before| ==> before[i] == more[i];
      DistinctAreStored(before);
      StoredNew(before, last);
      assert before + [last] == more;
    }
  }

  // ----- what a snapshot says

  predicate IsLink(s: KeySnapshot) {
    s.linkTarget != []
  }

  /** The key that restoring a snapshot makes; a link has no content of its own. */
  function KeyOf(s: KeySnapshot): Key
    decreases s, |s.children| + 1
  {
    if IsLink(s) then Key(s.name, s.className, s.linkTarget, s.isVolatile, [], [])
    else Key(s.name, s.className, [], s.isVolatile, StoredAll([], s.values), KeysOf(s, |s.children|))
  }

  /** The keys of the first `count` children. */
  function KeysOf(s: KeySnapshot, count: nat): (keys: seq<Key>)
    requires count <= |s.children|
    ensures |keys| == count
    decreases s, count
  {
    if count == 0 then []
    else
      assert s.children[count - 1] in s.children;
      KeysOf(s, count - 1) + [KeyOf(s.children[count - 1])]
  }

  function Child(key: Key, child: Key): Key {
    key.(children := key.children + [child])
  }

  function WithoutChild(key: Key, name: wstring): Key {
    var i := IndexOf(key.children, name);
    if i == -1 then key else key.(children := RemoveAt(key.children, i))
  }

  lemma AddedChildIsRemoved(key: Key, child: Key)
    requires IndexOf(key.children, child.name) == -1
    ensures WithoutChild(Child(key, child), child.name) == key
    ensures IndexOf(Child(key, child).children, child.name) == |key.children|
  {
    var all := key.children + [child];
    assert EqualsInsensitive(child.name, child.name);
    hide EqualsInsensitive;
    assert forall j :: 0 <= j < |key.children| ==> all[j] == key.children[j];
    IndexIs(all, child.name, |key.children|);
    assert RemoveAt(all, |key.children|) == key.children;
  }

  lemma AddedChildIsReplaced(key: Key, child: Key, other: Key)
    requires IndexOf(key.children, child.name) == -1 && other.name == child.name
    ensures var all := Child(key, child).children;
            var i := IndexOf(all, child.name);
            i >= 0 && all[i] == child && Child(key, child).(children := all[i := other]) == Child(key, other)
  {
    AddedChildIsRemoved(key, child);
    assert (key.children + [child])[|key.children| := other] == key.children + [other];
  }

  /** Same key but for its content. */
  predicate SameHead(a: Key, b: Key) {
    a.name == b.name && a.className == b.className && a.linkTarget == b.linkTarget && a.isVolatile == b.isVolatile
  }

  /** What a deletion that failed half-way leaves of a key: its values, and the last of its subkeys, the first of them
      perhaps in part. */
  predicate Remains(left: Key, key: Key)
    decreases left
  {
    var gone := |key.children| - |left.children|;
    && SameHead(left, key) && left.values == key.values && gone >= 0
    && (left.children != [] ==>
          left.children[1..] == key.children[gone + 1..] && Remains(left.children[0], key.children[gone]))
  }

  // ----- the registry and the routines over it

  /** What a snapshot needs so that its content can be made: children with names of their own, all the way down. */
  predicate CanFill(s: KeySnapshot)
    decreases s, 0
  {
    HasDistinctChildren(KeysOf(s, |s.children|)) && forall i :: 0 <= i < |s.children| ==> CanRestore(s.children[i])
  }

  predicate CanRestore(s: KeySnapshot)
    decreases s, 1
  {
    s.name != [] && (IsLink(s) || CanFill(s))
  }

  class Store {
    var root: Key

    /** Whether every operation that the tree allows is done, or at least every deletion. */
    const serves: bool
    const deletes: bool

    constructor (initial: Key, serves: bool, deletes: bool)
      ensures root == initial && this.serves == serves && this.deletes == deletes
    {
      root, this.serves, this.deletes := initial, serves, deletes;
    }

    /** Any operation may be refused; then nothing changes. */
    method SetValue(path: Path, value: RegistryValue) returns (ok: bool)
      modifies this
      ensures !ok ==> root == old(root)
      ensures ok ==> Exists(old(root), path)
      ensures ok ==>
                var key := Get(old(root), path); root == Put(old(root), path, key.(values := Stored(key.values, value)))
      ensures serves && Exists(old(root), path) ==> ok
    {
      var refused: bool := *;
      if (refused && !serves) || !Exists(root, path) {
        return false;
      }
      var key := Get(root, path);
      root := Put(root, path, key.(values := Stored(key.values, value)));
      ok := true;
    }

    method DeleteValue(path: Path, name: wstring) returns (ok: bool)
      modifies this
      ensures !ok ==> root == old(root)
      ensures ok ==> Exists(old(root), path) && ValueIndex(Get(old(root), path).values, name) >= 0
      ensures ok ==> var key := Get(old(root), path);
                     root == Put(old(root), path, key.(values := RemoveAt(key.values, ValueIndex(key.values, name))))
      ensures serves && Exists(old(root), path) && ValueIndex(Get(old(root), path).values, name) >= 0 ==> ok
    {
      var refused: bool := *;
      if (refused && !serves) || !Exists(root, path) || ValueIndex(Get(root, path).values, name) == -1 {
        return false;
      }
      var key := Get(root, path);
      root := Put(root, path, key.(values := RemoveAt(key.values, ValueIndex(key.values, name))));
      ok := true;
    }

    /** A key or a link; a name that is taken is refused. */
    method CreateKey(parent: Path, name: wstring, className: wstring, linkTarget: wstring, isVolatile: bool)
      returns (ok: bool)
      modifies this
      ensures !ok ==> root == old(root)
      ensures ok ==> name != [] && Exists(old(root), parent) && IndexOf(Get(old(root), parent).children, name) == -1
      ensures ok ==>
                root == Put(old(root), parent,
                            Child(Get(old(root), parent), Key(name, className, linkTarget, isVolatile, [], [])))
      ensures serves && name != [] && Exists(old(root), parent)
              && IndexOf(Get(old(root), parent).children, name) == -1 ==>
                ok
    {
      var refused: bool := *;
      if (refused && !serves) || name == [] || !Exists(root, parent)
        || IndexOf(Get(root, parent).children, name) != -1 {
        return false;
      }
      root := Put(root, parent, Child(Get(root, parent), Key(name, className, linkTarget, isVolatile, [], [])));
      ok := true;
    }

    /** A key is deleted after the keys below it, the first ones first; when one is refused, the ones before it are
        gone. */
    method DeleteTree(key: Key) returns (ok: bool, left: Key)
      decreases key
      ensures !ok ==> Remains(left, key)
      ensures serves || deletes ==> ok
    {
      left := key;
      for i := 0 to |key.children|
        invariant left == key.(children := key.children[i..])
      {
        var child;
        ok, child := DeleteTree(key.children[i]);
        if !ok {
          left := key.(children := [child] + key.children[i + 1..]);
          return;
        }
        left := key.(children := key.children[i + 1..]);
      }
      var refused: bool := *;
      ok := !refused || serves || deletes;
    }

    /** Deletes a key with all below it; `left` is the key that is still there when that fails half-way. */
    method DeleteKey(parent: Path, name: wstring) returns (ok: bool, ghost left: Key)
      modifies this
      ensures ok || root != old(root) ==>
                Exists(old(root), parent) && IndexOf(Get(old(root), parent).children, name) >= 0
      ensures ok ==> root == Put(old(root), parent, WithoutChild(Get(old(root), parent), name))
      ensures !ok && root != old(root) ==>
                var children := Get(old(root), parent).children;
                var i := IndexOf(children, name);
                Remains(left, children[i])
                  && root == Put(old(root), parent, Get(old(root), parent).(children := children[i := left]))
      ensures (serves || deletes) && Exists(old(root), parent)
              && IndexOf(Get(old(root), parent).children, name) >= 0 ==>
                ok
    {
      left := root;
      if !Exists(root, parent) || IndexOf(Get(root, parent).children, name) == -1 {
        return false, left;
      }
      var key := Get(root, parent);
      var i := IndexOf(key.children, name);
      var rest;
      ok, rest := DeleteTree(key.children[i]);
      left := rest;
      root := Put(root, parent, if ok then WithoutChild(key, name) else key.(children := key.children[i := rest]));
    }

    /** Security and time stamps are outside the tree, but writing them may fail. */
    method WriteAttributes(path: Path) returns (ok: bool)
      ensures serves ==> ok
    {
      ok := *;
      ok := ok || serves;
    }

    /** Values and subkeys of a key, or nothing. */
    method EnumKey(path: Path, withContent: bool) returns (key: Option<Key>)
      ensures key.Some? ==>
                Exists(root, path) && key.value == if withContent then Get(root, path)
                                                   else Get(root, path).(values := [], children := [])
      ensures serves && Exists(root, path) ==> key.Some?
    {
      var refused: bool := *;
      if (refused && !serves) || !Exists(root, path) {
        return None;
      }
      key := Some(if withContent then Get(root, path) else Get(root, path).(values := [], children := []));
    }

    /** The values of a snapshot, one by one. */
    method FillValues(path: Path, values: seq<RegistryValue>) returns (ok: bool, ghost made: Key)
      requires Exists(root, path)
      modifies this
      ensures SameHead(made, Get(old(root), path)) && made.children == Get(old(root), path).children
              && root == Put(old(root), path, made)
      ensures ok ==> made.values == StoredAll(Get(old(root), path).values, values)
      ensures serves ==> ok
    {
      hide Stored, Put, Exists, Get;
      ghost var before, key := root, Get(root, path);
      made := key;
      PutBack(before, path);
      for i := 0 to |values|
        invariant SameHead(made, key) && root == Put(before, path, made)
        invariant made.values == StoredAll(key.values, values[..i]) && made.children == key.children
      {
        PutIsFound(before, path, made);
        assert values[..i + 1][..i] == values[..i];
        ok := SetValue(path, values[i]);
        if !ok {
          return;
        }
        made := made.(values := Stored(made.values, values[i]));
      }
      assert values[..|values|] == values;
      ok := true;
    }

    /** Values and children of a snapshot, into a key that is there. */
    method Fill(path: Path, s: KeySnapshot) returns (ok: bool, ghost made: Key)
      requires Exists(root, path)
      modifies this
      decreases s, 0
      ensures SameHead(made, Get(old(root), path)) && root == Put(old(root), path, made)
      ensures ok ==> made.values == StoredAll(Get(old(root), path).values, s.values)
      ensures ok ==> made.children == Get(old(root), path).children + KeysOf(s, |s.children|)
      ensures serves && Get(old(root), path).children == [] && CanFill(s) ==> ok
    {
      hide Stored, KeyOf, Put, Exists, Get, HasDistinctChildren, StoredAll;
      ghost var before, key := root, Get(root, path);
      ok, made := FillValues(path, s.values);
      if !ok {
        return;
      }
      assert key.children + KeysOf(s, 0) == key.children;
      for i := 0 to |s.children|
        invariant SameHead(made, key) && root == Put(before, path, made)
        invariant made.values == StoredAll(key.values, s.values) && made.children == key.children + KeysOf(s, i)
      {
        PutIsFound(before, path, made);
        assert s.children[i] in s.children;
        ghost var child: Key;
        ghost var created;
        if CanFill(s) { ChildIsNew(s, i); }
        assert made.children == [] + KeysOf(s, i) == KeysOf(s, i) || key.children != [];
        ok, created, child := Restore(path, s.children[i]);
        if created { made := Child(made, child); }
        if !ok {
          return;
        }
        ConcatAssoc(key.children, KeysOf(s, i), [KeyOf(s.children[i])]);
      }
      ok := true;
    }

    /** Creates the key of a snapshot; `created` says whether a key was made, whole or in part. */
    method Restore(parent: Path, s: KeySnapshot) returns (ok: bool, created: bool, ghost made: Key)
      modifies this
      decreases s, 1
      ensures ok ==> created && made == KeyOf(s)
      ensures !created ==> root == old(root)
      ensures created ==>
                Exists(old(root), parent) && IndexOf(Get(old(root), parent).children, s.name) == -1
                  && made.name == s.name
      ensures created ==> root == Put(old(root), parent, Child(Get(old(root), parent), made))
      ensures serves && CanRestore(s) && Exists(old(root), parent)
              && IndexOf(Get(old(root), parent).children, s.name) == -1 ==>
                ok
    {
      hide Stored, StoredAll, Put, Exists, Get;
      ok, created, made := false, false, KeyOf(s);
      if s.name == [] {
        return;
      }
      ok := CreateKey(parent, s.name, s.className, s.linkTarget, s.isVolatile);
      if !ok {
        return;
      }
      created := true;
      made := Key(s.name, s.className, s.linkTarget, s.isVolatile, [], []);
      ghost var before := old(root);
      if !IsLink(s) {
        ChildIsThere(before, parent, made);
        ghost var filled;
        ok, filled := Fill(parent + [s.name], s);
        ChildIsReplaced(before, parent, made, filled);
        made := filled;
        if !ok {
          return;
        }
      }
      ok := WriteAttributes(parent + [s.name]);
    }

    /** A snapshot is restored as it is, or not at all: after a failure the key that was begun is deleted again. */
    method RestoreKey(parent: Path, s: KeySnapshot) returns (ok: bool, ghost made: Key)
      modifies this
      ensures ok ==> s.complete && made == KeyOf(s)
      ensures !ok && deletes ==> root == old(root)
      ensures ok || root != old(root) ==>
                && Exists(old(root), parent) && IndexOf(Get(old(root), parent).children, s.name) == -1
                   && made.name == s.name
                && root == Put(old(root), parent, Child(Get(old(root), parent), made))
      ensures serves && s.complete && CanRestore(s) && Exists(old(root), parent)
              && IndexOf(Get(old(root), parent).children, s.name) == -1 ==>
                ok
    {
      hide Put, Exists, Get, KeyOf, WithoutChild, CanRestore;
      ok, made := false, KeyOf(s);
      if !s.complete {
        return;
      }
      var created;
      ok, created, made := Restore(parent, s);
      if ok {
        return;
      }
      if created {
        ghost var before, key := old(root), Get(old(root), parent);
        PutIsFound(before, parent, Child(key, made));
        AddedChildIsRemoved(key, made);
        PutBack(before, parent);
        var deleted, left := DeleteKey(parent, s.name);
        if !deleted && root != Put(before, parent, Child(key, made)) {
          AddedChildIsReplaced(key, made, left);
          made := left;
        }
      }
    }

    /** Empties a key and fills it from a snapshot; nothing outside the key changes, whatever fails. */
    method ReplaceKey(path: Path, s: KeySnapshot) returns (ok: bool, ghost made: Key)
      requires Exists(root, path)
      modifies this
      ensures SameHead(made, Get(old(root), path)) && root == Put(old(root), path, made)
      ensures ok ==> made.values == StoredAll([], s.values) && made.children == KeysOf(s, |s.children|)
      ensures serves && CanFill(s) ==> ok
    {
      hide Put, Exists, Get, StoredAll, KeysOf, CanFill;
      ghost var before, key := root, Get(root, path);
      made := key;
      PutBack(before, path);
      var listed := EnumKey(path, true);
      if listed.None? {
        return false, made;
      }
      var values, children := listed.value.values, listed.value.children;
      for i := 0 to |values|
        invariant SameHead(made, key) && root == Put(before, path, made)
        invariant made.values == values[i..] && made.children == children
      {
        PutIsFound(before, path, made);
        FirstValue(values, i);
        ok := DeleteValue(path, values[i].name);
        if !ok {
          return;
        }
        made := made.(values := values[i + 1..]);
      }
      for i := 0 to |children|
        invariant SameHead(made, key) && root == Put(before, path, made)
        invariant made.values == [] && made.children == children[i..]
      {
        PutIsFound(before, path, made);
        FirstChild(children, i);
        ghost var left;
        ok, left := DeleteKey(path, children[i].name);
        if !ok {
          if root != Put(before, path, made) { made := made.(children := made.children[0 := left]); }
          return;
        }
        made := made.(children := children[i + 1..]);
      }
      PutIsFound(before, path, made);
      ghost var filled;
      ok, filled := Fill(path, s);
      assert [] + KeysOf(s, |s.children|) == KeysOf(s, |s.children|);
      made := filled;
      if ok {
        ok := WriteAttributes(path);
      }
    }

    /** A snapshot of a key; it is complete only if every key below could be read. */
    method Capture(path: Path) returns (s: KeySnapshot)
      requires Exists(root, path) && IsSound(Get(root, path))
      decreases Get(root, path)
      ensures s.name == if path == [] then [] else path[|path| - 1]
      ensures s.complete ==> IsExact(s) && KeyOf(s) == Get(root, path).(name := s.name)
      ensures serves ==> s.complete
    {
      hide Exists, Get, KeyOf, KeysOf, EqualsInsensitive;
      ghost var key := Get(root, path);
      var name := if path == [] then [] else path[|path| - 1];
      s := KeySnapshot(name, [], [], false, [], [], true);
      var link := ReadLink(path);
      s := s.(linkTarget := link);
      var listed := EnumKey(path, link == []);
      if listed.None? {
        return s.(complete := false);
      }
      s := s.(className := listed.value.className, isVolatile := listed.value.isVolatile, values :=
        listed.value.values);
      var names := listed.value.children;
      NoKeys(s);
      for i := 0 to |names|
        invariant s == KeySnapshot(name, key.className, key.linkTarget, key.isVolatile, listed.value.values, s.children,
                                   s.complete)
        invariant |s.children| == i
        invariant s.complete ==>
                    (forall j :: 0 <= j < i ==> IsExact(s.children[j])) && KeysOf(s, i) == key.children[..i]
        invariant serves ==> s.complete
      {
        ChildIsFound(root, path, i);
        var child := Capture(path + [names[i].name]);
        ghost var was := s;
        s := s.(children := s.children + [child], complete := s.complete && child.complete);
        if s.complete { KeysGrow(was, s, child); }
        assert key.children[..i + 1] == key.children[..i] + [key.children[i]];
      }
      if s.complete { CapturedKey(s, key); }
    }

    method ReadLink(path: Path) returns (target: wstring)
      requires Exists(root, path)
      ensures target == Get(root, path).linkTarget
    {
      target := Get(root, path).linkTarget;
    }
  }

  // ----- facts the routines use

  /** Names tell values and children apart, and a link holds nothing. */
  predicate IsSound(key: Key) {
    && HasDistinctValues(key.values) && HasDistinctChildren(key.children)
    && (key.linkTarget != [] ==> key.values == [] && key.children == [])
    && (forall i :: 0 <= i < |key.children| ==> key.children[i].name != [] && IsSound(key.children[i]))
  }

  /** Complete all the way down, and nothing the registry would not keep. */
  predicate IsExact(s: KeySnapshot) {
    && s.complete && HasDistinctValues(s.values) && (IsLink(s) ==> s.values == [] && s.children == [])
    && HasDistinctChildren(KeysOf(s, |s.children|))
    && (forall i :: 0 <= i < |s.children| ==> s.children[i].name != [] && IsExact(s.children[i]))
  }

  /** A child is reached through its parent. */
  lemma {:induction false} BelowIsChild(key: Key, path: Path, name: wstring)
    requires Exists(key, path) && IndexOf(Get(key, path).children, name) >= 0
    ensures Exists(key, path + [name])
    ensures var parent := Get(key, path);
            var i := IndexOf(parent.children, name);
            && Get(key, path + [name]) == parent.children[i]
            && forall other ::
                 Put(key, path + [name], other) == Put(key, path, parent.(children := parent.children[i := other]))
    decreases |path|
  {
    hide EqualsInsensitive;
    if path == [] {
      assert (path + [name])[1..] == [];
    } else {
      assert (path + [name])[1..] == path[1..] + [name] && (path + [name])[0] == path[0];
      BelowIsChild(key.children[IndexOf(key.children, path[0])], path[1..], name);
    }
  }

  /** A child that was just added is there. */
  lemma ChildIsThere(before: Key, parent: Path, child: Key)
    requires Exists(before, parent) && IndexOf(Get(before, parent).children, child.name) == -1
    ensures var after := Put(before, parent, Child(Get(before, parent), child));
            Exists(after, parent + [child.name]) && Get(after, parent + [child.name]) == child
  {
    hide Put, Exists, Get, IndexOf;
    var key := Get(before, parent);
    PutIsFound(before, parent, Child(key, child));
    AddedChildIsRemoved(key, child);
    BelowIsChild(Put(before, parent, Child(key, child)), parent, child.name);
  }

  /** Changing the child that was just added is adding the changed child. */
  lemma ChildIsReplaced(before: Key, parent: Path, child: Key, other: Key)
    requires Exists(before, parent) && IndexOf(Get(before, parent).children, child.name) == -1
    ensures var after := Put(before, parent, Child(Get(before, parent), child));
            && Exists(after, parent + [child.name])
            && Put(after, parent + [child.name], other) == Put(before, parent, Child(Get(before, parent), other))
  {
    hide Put, Exists, Get, IndexOf;
    var key := Get(before, parent);
    var after := Put(before, parent, Child(key, child));
    PutIsFound(before, parent, Child(key, child));
    AddedChildIsRemoved(key, child);
    BelowIsChild(after, parent, child.name);
    var i := |key.children|;
    assert Child(key, child).children[i := other] == key.children + [other];
    assert Child(key, child).(children := key.children + [other]) == Child(key, other);
  }

  lemma FirstValue(values: seq<RegistryValue>, i: nat)
    requires i < |values|
    ensures ValueIndex(values[i..], values[i].name) == 0 && RemoveAt(values[i..], 0) == values[i + 1..]
  {
    assert EqualsInsensitive(values[i].name, values[i].name);
  }

  lemma FirstChild(children: seq<Key>, i: nat)
    requires i < |children|
    ensures IndexOf(children[i..], children[i].name) == 0 && RemoveAt(children[i..], 0) == children[i + 1..]
  {
    assert EqualsInsensitive(children[i].name, children[i].name);
  }

  lemma ChildIsFound(root: Key, path: Path, i: nat)
    requires Exists(root, path) && IsSound(Get(root, path)) && i < |Get(root, path).children|
    ensures var child := Get(root, path).children[i];
            && Exists(root, path + [child.name]) && Get(root, path + [child.name]) == child && IsSound(child)
  {
    hide Exists, Get;
    var children := Get(root, path).children;
    IndexIs(children, children[i].name, i) by {
      assert EqualsInsensitive(children[i].name, children[i].name);
      hide EqualsInsensitive;
    }
    BelowIsChild(root, path, children[i].name);
  }

  lemma NoKeys(s: KeySnapshot)
    ensures KeysOf(s, 0) == []
  {}

  /** The keys of the first children do not depend on the others. */
  lemma {:induction false} SameKeys(a: KeySnapshot, b: KeySnapshot, count: nat)
    requires count <= |a.children| && count <= |b.children| && a.children[..count] == b.children[..count]
    ensures KeysOf(a, count) == KeysOf(b, count)
    decreases count
  {
    hide KeyOf;
    if count > 0 {
      assert a.children[count - 1] == a.children[..count][count - 1]
        && b.children[count - 1] == b.children[..count][count - 1];
      assert a.children[..count - 1] == a.children[..count][..count - 1]
        && b.children[..count - 1] == b.children[..count][..count - 1];
      SameKeys(a, b, count - 1);
    }
  }

  lemma KeysGrow(was: KeySnapshot, s: KeySnapshot, child: KeySnapshot)
    requires s.children == was.children + [child]
    ensures KeysOf(s, |s.children|) == KeysOf(was, |was.children|) + [KeyOf(child)]
  {
    hide KeyOf;
    SameKeys(was, s, |was.children|);
  }

  lemma CapturedKey(s: KeySnapshot, key: Key)
    requires IsSound(key) && s.complete
    requires s.className == key.className && s.linkTarget == key.linkTarget && s.isVolatile == key.isVolatile
    requires s.values == if key.linkTarget == [] then key.values else []
    requires forall j :: 0 <= j < |s.children| ==> IsExact(s.children[j])
    requires KeysOf(s, |s.children|) == key.children
    ensures IsExact(s) && KeyOf(s) == key.(name := s.name)
  {
    forall j | 0 <= j < |s.children| ensures s.children[j].name != [] {
      KeysAre(s, |s.children|, j);
      KeyKeepsName(s.children[j]);
      assert IsSound(key.children[j]) && key.children[j].name != [];
    }
    hide KeysOf, EqualsInsensitive, StoredAll;
    DistinctAreStored(s.values);
  }

  lemma KeyKeepsName(s: KeySnapshot)
    ensures KeyOf(s).name == s.name
  {}

  lemma {:induction false} KeysAre(s: KeySnapshot, count: nat, j: nat)
    requires j < count <= |s.children|
    ensures KeysOf(s, count)[j] == KeyOf(s.children[j])
    decreases count
  {
    hide KeyOf;
    if j < count - 1 { KeysAre(s, count - 1, j); }
  }

  // ----- what follows

  /** An exact snapshot is determined by the key it makes: capturing a restored key gives the snapshot back. */
  lemma {:induction false} ExactIsDetermined(a: KeySnapshot, b: KeySnapshot)
    requires IsExact(a) && IsExact(b) && KeyOf(a) == KeyOf(b)
    ensures a == b
    decreases a
  {
    DistinctAreStored(a.values);
    DistinctAreStored(b.values);
    hide KeysOf, KeyOf, StoredAll, EqualsInsensitive;
    assert IsLink(a) <==> IsLink(b);
    if !IsLink(a) {
      forall j | 0 <= j < |a.children| ensures a.children[j] == b.children[j] {
        KeysAre(a, |a.children|, j);
        KeysAre(b, |b.children|, j);
        ExactIsDetermined(a.children[j], b.children[j]);
      }
      assert a.children == b.children;
    }
  }

  lemma {:induction false} ExactKeyIsSound(s: KeySnapshot)
    requires IsExact(s)
    ensures IsSound(KeyOf(s))
    decreases s
  {
    DistinctAreStored(s.values);
    hide KeysOf, KeyOf, StoredAll, EqualsInsensitive;
    if !IsLink(s) {
      forall j | 0 <= j < |s.children|
        ensures KeysOf(s, |s.children|)[j].name != [] && IsSound(KeysOf(s, |s.children|)[j])
      {
        KeysAre(s, |s.children|, j);
        KeyKeepsName(s.children[j]);
        ExactKeyIsSound(s.children[j]);
      }
    }
  }

  /** An exact snapshot with a name can be restored. */
  lemma {:induction false} ExactCanFill(s: KeySnapshot)
    requires IsExact(s)
    ensures CanFill(s)
    decreases s
  {
    forall i | 0 <= i < |s.children| ensures CanRestore(s.children[i]) {
      assert s.children[i] in s.children;
      ExactCanFill(s.children[i]);
    }
  }

  /** Restoring an exact snapshot and capturing the new key gives the same snapshot; where nothing is refused both
      succeed. */
  method RestoreThenCapture(store: Store, parent: Path, s: KeySnapshot) returns (restored: bool, captured: KeySnapshot)
    requires IsExact(s) && s.name != []
    modifies store
    ensures restored && captured.complete ==> captured == s
    ensures store.serves && Exists(old(store.root), parent)
            && IndexOf(Get(old(store.root), parent).children, s.name) == -1 ==>
              restored && captured == s
  {
    hide Put, Exists, Get, KeyOf;
    ExactCanFill(s);
    ghost var made;
    restored, made := store.RestoreKey(parent, s);
    captured := s.(complete := false);
    if restored {
      KeyKeepsName(s);
      ChildIsThere(old(store.root), parent, made);
      ExactKeyIsSound(s);
      captured := store.Capture(parent + [s.name]);
      assert KeyOf(s).(name := s.name) == KeyOf(s);
      if captured.complete { ExactIsDetermined(captured, s); }
    }
  }

  /** The next child's name is free among the children made before it. */
  lemma ChildIsNew(s: KeySnapshot, i: nat)
    requires CanFill(s) && i < |s.children|
    ensures IndexOf(KeysOf(s, i), s.children[i].name) == -1 && CanRestore(s.children[i])
  {
    hide EqualsInsensitive, KeysOf, KeyOf;
    var keys := KeysOf(s, |s.children|);
    KeysAre(s, |s.children|, i);
    KeyKeepsName(s.children[i]);
    forall j | 0 <= j < i ensures !EqualsInsensitive(KeysOf(s, i)[j].name, s.children[i].name) {
      KeysAre(s, |s.children|, j);
      KeysAre(s, i, j);
      assert !EqualsInsensitive(keys[j].name, keys[i].name);
    }
  }

  /** q spells the path or one above it, case aside. */
  predicate IsAbove(q: Path, path: Path) {
    |q| <= |path| && forall i :: 0 <= i < |q| ==> EqualsInsensitive(q[i], path[i])
  }

  lemma AboveCons(q: Path, path: Path)
    requires q != [] && path != [] && EqualsInsensitive(q[0], path[0]) && IsAbove(q[1..], path[1..])
    ensures IsAbove(q, path)
  {
    hide EqualsInsensitive;
    forall i | 0 <= i < |q| ensures EqualsInsensitive(q[i], path[i]) {
      if i > 0 { assert q[i] == q[1..][i - 1] && path[i] == path[1..][i - 1]; }
    }
  }

  lemma NamesMeet(child: wstring, a: wstring, b: wstring)
    requires EqualsInsensitive(child, a) && EqualsInsensitive(child, b)
    ensures EqualsInsensitive(a, b)
  {
    EqualsInsensitiveIsEqualLower(child, a);
    EqualsInsensitiveIsEqualLower(child, b);
    EqualsInsensitiveIsEqualLower(a, b);
  }

  /** A changed list of children leads a name to the same child unless the change is that child. */
  lemma IndexFrame(children: seq<Key>, changed: seq<Key>, name: wstring)
    requires |children| <= |changed| && forall j :: 0 <= j < |children| ==> changed[j].name == children[j].name
    requires IndexOf(children, name) >= 0
    ensures IndexOf(changed, name) == IndexOf(children, name)
  {
    hide EqualsInsensitive;
    IndexIs(changed, name, IndexOf(children, name));
  }

  /** Adding a child leaves every key elsewhere as it was: siblings, their content, and everything not above them. */
  lemma {:induction false} AddingIsLocal(before: Key, parent: Path, child: Key, q: Path)
    requires Exists(before, parent) && Exists(before, q) && !IsAbove(q, parent)
    ensures var after := Put(before, parent, Child(Get(before, parent), child));
            Exists(after, q) && Get(after, q) == Get(before, q)
    decreases |parent|
  {
    hide EqualsInsensitive, IndexOf;
    assert q != [];
    var j := IndexOf(before.children, q[0]);
    if parent == [] {
      IndexFrame(before.children, before.children + [child], q[0]);
    } else {
      var i := IndexOf(before.children, parent[0]);
      var inner := before.children[i];
      PutKeepsName(inner, parent[1..], Child(Get(inner, parent[1..]), child));
      var changed := before.children[i := Put(inner, parent[1..], Child(Get(inner, parent[1..]), child))];
      IndexFrame(before.children, changed, q[0]);
      if i == j {
        NamesMeet(inner.name, q[0], parent[0]);
        if IsAbove(q[1..], parent[1..]) { AboveCons(q, parent); }
        AddingIsLocal(inner, parent[1..], child, q[1..]);
      }
    }
  }
}
