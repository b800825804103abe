/** Paths of keys: root names, their short forms, and the order of keys and the keys below them. */
module KeyPaths {
  import opened Text
  import opened ValueFormat
  import opened Operations
  import opened RegistryEffect

  datatype RootNames = RootNames(name: wstring, abbreviation: wstring)

  /** The roots in the order of the table; only the first five are browsable. */
  const ROOTS: seq<RootNames> := [
    RootNames(W("HKEY_CLASSES_ROOT"), W("HKCR")),
    RootNames(W("HKEY_CURRENT_USER"), W("HKCU")),
    RootNames(W("HKEY_LOCAL_MACHINE"), W("HKLM")),
    RootNames(W("HKEY_USERS"), W("HKU")),
    RootNames(W("HKEY_CURRENT_CONFIG"), W("HKCC")),
    RootNames(W("HKEY_PERFORMANCE_DATA"), W("HKPD")),
    RootNames(W("HKEY_PERFORMANCE_TEXT"), []),
    RootNames(W("HKEY_PERFORMANCE_NLSTEXT"), [])
  ]

  const BROWSABLE_ROOTS := 5

  predicate IsNameOf(name: wstring, root: RootNames) {
    EqualsInsensitive(name, root.name) || EqualsInsensitive(name, root.abbreviation)
  }

  /** Index of the first root from `index` on that `name` names, -1 if none below `count`. */
  function FindRootFrom(name: wstring, count: nat, index: nat): (r: int)
    requires index <= count <= |ROOTS|
    ensures r == -1 || (index <= r < count && IsNameOf(name, ROOTS[r]))
    ensures r == -1 ==> forall i :: index <= i < count ==> !IsNameOf(name, ROOTS[i])
    ensures forall i :: index <= i < r ==> !IsNameOf(name, ROOTS[i])
    decreases count - index
  {
    if index == count then -1
    else if IsNameOf(name, ROOTS[index]) then index
    else FindRootFrom(name, count, index + 1)
  }

  function FindRoot(name: wstring, count: nat): (r: int)
    requires count <= |ROOTS|
    ensures -1 <= r < count
  {
    if name == [] then -1 else FindRootFrom(name, count, 0)
  }

  method SearchRoot(name: wstring, count: nat) returns (r: int)
    requires count <= |ROOTS|
    ensures r == FindRoot(name, count)
  {
    hide IsNameOf;
    var index := 0;
    while index < count && name != []
      invariant 0 <= index <= count
      invariant name != [] ==> FindRootFrom(name, count, index) == FindRootFrom(name, count, 0)
      decreases count - index
    {
      if IsNameOf(name, ROOTS[index]) {
        return index;
      }
      index := index + 1;
    }
    r := -1;
  }

  // ----- normalised and abbreviated paths

  function StripSeparators(text: wstring): (r: wstring)
    ensures r <= text && (r != [] ==> r[|r| - 1] != BACKSLASH)
  {
    if text != [] && text[|text| - 1] == BACKSLASH then StripSeparators(text[..|text| - 1]) else text
  }

  /** The path under its full root name, or None when it names no browsable root. */
  function NormalizeKeyPath(path: wstring): Option<wstring> {
    var text := StripSeparators(path);
    var split := Find(text, BACKSLASH, 0);
    var root := FindRoot(if split == -1 then text else text[..split], |ROOTS|);
    if root < 0 || root >= BROWSABLE_ROOTS then None
    else Some(ROOTS[root].name + if split == -1 then [] else text[split..])
  }

  method Normalize(path: wstring) returns (normalized: Option<wstring>)
    ensures normalized == NormalizeKeyPath(path)
  {
    hide FindRoot, Find;
    var text := path;
    while text != [] && text[|text| - 1] == BACKSLASH
      invariant StripSeparators(text) == StripSeparators(path)
    {
      text := text[..|text| - 1];
    }
    assert text == StripSeparators(path);
    var split := Find(text, BACKSLASH, 0);
    var root := SearchRoot(if split == -1 then text else text[..split], |ROOTS|);
    if root < 0 || root >= BROWSABLE_ROOTS {
      return None;
    }
    var output := ROOTS[root].name;
    assert output + [] == output;
    if split != -1 {
      output := output + text[split..];
    }
    return Some(output);
  }

  function Join(root: wstring, rest: wstring): wstring {
    if rest == [] then root else root + [BACKSLASH] + rest
  }

  function AbbreviatedRoot(root: wstring): wstring {
    var index := FindRoot(root, BROWSABLE_ROOTS);
    if index >= 0 then ROOTS[index].abbreviation else root
  }

  /** The path with the short form of its root. */
  function Abbreviated(path: wstring): wstring {
    var split := Find(path, BACKSLASH, 0);
    var root := if split == -1 then path else path[..split];
    var rest := if split == -1 then [] else path[split + 1..];
    Join(AbbreviatedRoot(root), rest)
  }

  predicate Normalized(path: wstring) {
    NormalizeKeyPath(path) == Some(path)
  }

  predicate AreNormalized(ops: seq<Operation>) {
    forall i :: 0 <= i < |ops| ==> Normalized(ops[i].path)
  }

  /** The short and full names of the browsable roots tell them apart and contain no backslash. */
  lemma RootIsFound(i: nat)
    requires i < BROWSABLE_ROOTS
    ensures FindRoot(ROOTS[i].name, BROWSABLE_ROOTS) == i
    ensures FindRoot(ROOTS[i].name, |ROOTS|) == i && FindRoot(ROOTS[i].abbreviation, |ROOTS|) == i
  {
    forall j: nat | j < BROWSABLE_ROOTS && j != i
      ensures !IsNameOf(ROOTS[i].name, ROOTS[j]) && !IsNameOf(ROOTS[i].abbreviation, ROOTS[j])
    {
      RootsDiffer(i, j);
    }
    hide IsNameOf;
    assert IsNameOf(ROOTS[i].name, ROOTS[i]) by { NamesItself(i); }
    assert IsNameOf(ROOTS[i].abbreviation, ROOTS[i]) by { NamesItself(i); }
    assert ROOTS[i].name != [] && ROOTS[i].abbreviation != [];
  }

  lemma NamesItself(i: nat)
    requires i < |ROOTS|
    ensures IsNameOf(ROOTS[i].name, ROOTS[i]) && IsNameOf(ROOTS[i].abbreviation, ROOTS[i])
  {}

  lemma RootsDiffer(i: nat, j: nat)
    requires i < BROWSABLE_ROOTS && j < BROWSABLE_ROOTS && i != j
    ensures !IsNameOf(ROOTS[i].name, ROOTS[j]) && !IsNameOf(ROOTS[i].abbreviation, ROOTS[j])
  {
    var a, b := ROOTS[i], ROOTS[j];
    NamesDiffer(i, j);
    hide W;
  }

  lemma NamesDiffer(i: nat, j: nat)
    requires i < BROWSABLE_ROOTS && j < BROWSABLE_ROOTS && i != j
    ensures var a, b := ROOTS[i], ROOTS[j];
            && (|a.name| == |b.name| ==> UpperUnit(a.name[6]) != UpperUnit(b.name[6]))
            && |a.name| > 6 && |a.abbreviation| < |b.name|
            && (|a.abbreviation| == |b.abbreviation| ==>
                  || UpperUnit(a.abbreviation[2]) != UpperUnit(b.abbreviation[2])
                  || UpperUnit(a.abbreviation[3]) != UpperUnit(b.abbreviation[3]))
            && |a.name| > |b.abbreviation|
  {}

  lemma RootsAreSolid(i: nat)
    requires i < BROWSABLE_ROOTS
    ensures BACKSLASH !in ROOTS[i].name && BACKSLASH !in ROOTS[i].abbreviation
    ensures ROOTS[i].name != [] && ROOTS[i].abbreviation != []
  {}

  /** Shape of a normalised path: a full root name, alone or before a backslash, and no backslash at the end. */
  lemma NormalizedShape(path: wstring)
    requires Normalized(path)
    ensures StripSeparators(path) == path
    ensures exists i: nat :: i < BROWSABLE_ROOTS && ROOTS[i].name == RootPart(path)
  {
    hide FindRoot;
    var text := StripSeparators(path);
    var split := Find(text, BACKSLASH, 0);
    var root := FindRoot(if split == -1 then text else text[..split], |ROOTS|);
    var name := ROOTS[root].name;
    RootsAreSolid(root);
    assert path == name + if split == -1 then [] else text[split..];
    assert path[|path| - 1] != BACKSLASH by {
      if split == -1 { assert path[|path| - 1] == name[|name| - 1]; } else {
        assert path[|path| - 1] == text[|text| - 1];
      }
    }
    assert text == path;
  }

  function RootPart(path: wstring): wstring {
    var split := Find(path, BACKSLASH, 0);
    if split == -1 then path else path[..split]
  }

  function RestPart(path: wstring): wstring {
    var split := Find(path, BACKSLASH, 0);
    if split == -1 then [] else path[split..]
  }

  lemma NormalizeByParts(path: wstring, root: nat)
    requires StripSeparators(path) == path && root < BROWSABLE_ROOTS && FindRoot(RootPart(path), |ROOTS|) == root
    ensures NormalizeKeyPath(path) == Some(ROOTS[root].name + RestPart(path))
  {
    hide FindRoot, Find, StripSeparators;
  }

  lemma AbbreviatedByParts(path: wstring, root: nat)
    requires StripSeparators(path) == path && root < BROWSABLE_ROOTS
             && FindRoot(RootPart(path), BROWSABLE_ROOTS) == root
    ensures Abbreviated(path) == ROOTS[root].abbreviation + RestPart(path)
  {
    StrippedEnd(path);
    hide FindRoot, StripSeparators, W;
    JoinRest(ROOTS[root].abbreviation, path);
    hide Join;
  }

  lemma JoinRest(root: wstring, path: wstring)
    requires path != [] ==> path[|path| - 1] != BACKSLASH
    ensures var split := Find(path, BACKSLASH, 0);
            Join(root, if split == -1 then [] else path[split + 1..]) == root + RestPart(path)
  {
    hide Find;
    var split := Find(path, BACKSLASH, 0);
    if split != -1 {
      TailAt(path, split);
      ConcatAssoc(root, [BACKSLASH], path[split + 1..]);
    } else {
      assert root + [] == root;
    }
  }

  lemma TailAt(path: wstring, split: nat)
    requires split < |path| && path[split] == BACKSLASH && path[|path| - 1] != BACKSLASH
    ensures path[split..] == [BACKSLASH] + path[split + 1..] && path[split + 1..] != []
  {}

  /** A solid root before a rest that is empty or starts with a backslash. */
  lemma PartsOf(root: wstring, rest: wstring)
    requires BACKSLASH !in root && (rest != [] ==> rest[0] == BACKSLASH)
    ensures RootPart(root + rest) == root && RestPart(root + rest) == rest
  {
    var split := Find(root + rest, BACKSLASH, 0);
    if rest == [] { assert root + rest == root; } else { assert (root + rest)[|root|..] == rest; }
    if split != -1 { assert |(root + rest)[..split]| == split; }
  }

  lemma PartsJoin(path: wstring)
    ensures RootPart(path) + RestPart(path) == path && (RestPart(path) != [] ==> RestPart(path)[0] == BACKSLASH)
  {}

  /** A normalised path survives being abbreviated and normalised again. */
  lemma AbbreviatedNormalizes(path: wstring)
    requires Normalized(path)
    ensures NormalizeKeyPath(Abbreviated(path)) == Some(path)
  {
    NormalizedShape(path);
    var i: nat :| i < BROWSABLE_ROOTS && ROOTS[i].name == RootPart(path);
    hide *;
    RootIsFound(i);
    RootsAreSolid(i);
    PartsJoin(path);
    AbbreviatedByParts(path, i);
    var abbreviation, rest := ROOTS[i].abbreviation, RestPart(path);
    PartsOf(abbreviation, rest);
    StrippedEnd(path);
    StrippedAlready(abbreviation + rest);
    NormalizeByParts(abbreviation + rest, i);
  }

  /** Normalising twice changes nothing more. */
  lemma NormalizeIsIdempotent(path: wstring)
    requires NormalizeKeyPath(path).Some?
    ensures Normalized(NormalizeKeyPath(path).value)
  {
    hide FindRoot, Find, W, StripSeparators, RootPart, RestPart, NormalizeKeyPath;
    var text := StripSeparators(path);
    NormalizeUnfolds(path);
    var i: nat :| i < BROWSABLE_ROOTS && NormalizeKeyPath(path) == Some(ROOTS[i].name + RestPart(text));
    var name, rest := ROOTS[i].name, RestPart(text);
    RootIsFound(i);
    RootsAreSolid(i);
    PartsJoin(text);
    PartsOf(name, rest);
    if rest == [] {
      assert name + rest == name;
    } else {
      assert text != [] by { assert RootPart(text) + rest == text; }
    }
    StrippedAlready(name + rest);
    NormalizeByParts(name + rest, i);
  }

  lemma NormalizeUnfolds(path: wstring)
    requires NormalizeKeyPath(path).Some?
    ensures var text := StripSeparators(path);
            && (exists i: nat :: i < BROWSABLE_ROOTS && NormalizeKeyPath(path) == Some(ROOTS[i].name + RestPart(text)))
            && (text != [] ==> text[|text| - 1] != BACKSLASH)
  {
    hide FindRoot, Find, W;
    var text := StripSeparators(path);
    var i := FindRoot(RootPart(text), |ROOTS|);
    assert NormalizeKeyPath(path) == Some(ROOTS[i].name + RestPart(text));
  }

  lemma StrippedEnd(path: wstring)
    requires StripSeparators(path) == path
    ensures path != [] ==> path[|path| - 1] != BACKSLASH
  {}

  lemma StrippedAlready(path: wstring)
    requires path != [] && path[|path| - 1] != BACKSLASH
    ensures StripSeparators(path) == path
  {}

  // ----- keys below keys

  predicate IsUnderKey(path: wstring, parent: wstring) {
    StartsWithInsensitive(path, parent) && (|path| == |parent| || path[|parent|] == BACKSLASH)
  }

  lemma UnderKeyIsUnder(path: wstring, parent: wstring)
    requires IsUnderKey(path, parent)
    ensures Under(ToLower(parent), ToLower(path))
  {
    var p, q := ToLower(parent), ToLower(path);
    EqualsInsensitiveIsEqualLower(path[..|parent|], parent);
    assert q[..|p|] == ToLower(path[..|parent|]);
    if |path| == |parent| { assert q == q[..|p|]; }
  }

  const CURRENT_USER := W("HKEY_CURRENT_USER")

  /** Scripts that leave HKEY_CURRENT_USER need an administrator. */
  predicate NeedsAdmin(ops: seq<Operation>) {
    exists i :: 0 <= i < |ops| && !IsUnderKey(ops[i].path, CURRENT_USER)
  }
}
