/** What a rendered PowerShell script does to a registry. */
module PowerShellMeaning {
  import opened Text
  import opened ValueFormat
  import opened Operations
  import opened RegistryEffect
  import opened OpenedKeys
  import opened KeyPaths
  import opened PowerShellWriter
  import opened PowerShellInterpreter
  import opened PowerShellStatements
  import opened PowerShellLineRuns
  import opened PowerShellRoundTrip

  /** The operations that are not skipped. */
  function KeptOps(ops: seq<Operation>): seq<Operation> {
    if ops == [] then [] else (if Fault(ops[0]).Some? then [] else [ops[0]]) + KeptOps(ops[1..])
  }

  /** A registry that has the root keys. */
  predicate HasRoots(reg: Registry) {
    forall i :: 0 <= i < BROWSABLE_ROOTS ==> ToLower(ROOTS[i].name) in reg
  }

  lemma RootsRemain(reg: Registry, later: Registry)
    requires reg.Keys <= later.Keys
    ensures HasRoots(reg) ==> HasRoots(later)
  {
    hide ROOTS, ToLower;
  }

  /** A root key has no key above it. */
  lemma RootExists(reg: Registry, path: wstring)
    requires HasRoots(reg) && Normalized(path) && SubPath(path) == []
    ensures Exists(reg, path)
  {
    PathOfParts(path);
    NormalizedShape(path);
    var i: nat :| i < BROWSABLE_ROOTS && ROOTS[i].name == RootPart(path);
    RootsAreSolid(i);
    assert ToLower(path) in reg;
    assert BACKSLASH !in ToLower(path) by { LowerIsSolid(path); }
    hide Normalized, RootPart, SubPath, ROOTS, ToLower;
    forall a | a in Ancestors(ToLower(path)) ensures a in reg { assert Under(a, ToLower(path)); }
  }

  lemma LowerIsSolid(text: wstring)
    requires BACKSLASH !in text
    ensures BACKSLASH !in ToLower(text)
  {
    forall i | 0 <= i < |text| ensures ToLower(text)[i] != BACKSLASH { assert text[i] != BACKSLASH; }
  }

  /** Deleting a key below a root keeps the roots. */
  lemma RootsStay(reg: Registry, path: wstring)
    requires HasRoots(reg) && Normalized(path) && SubPath(path) != []
    ensures HasRoots(Delete(reg, ToLower(path)))
  {
    PathOfParts(path);
    forall i | 0 <= i < BROWSABLE_ROOTS ensures ToLower(ROOTS[i].name) in Delete(reg, ToLower(path)) {
      RootsAreSolid(i);
      RootIsNotUnder(path, ROOTS[i].name);
      hide ROOTS, Normalized, SubPath, RootPart, ToLower;
    }
    hide ROOTS, Normalized, SubPath, RootPart, ToLower;
  }

  lemma RootIsNotUnder(path: wstring, root: wstring)
    requires BACKSLASH !in root && CallsPath(path)
    ensures !Under(ToLower(path), ToLower(root))
  {
    LowerIsSolid(root);
    var split := Find(path, BACKSLASH, 0);
    assert ToLower(path)[split] == BACKSLASH;
    if Under(ToLower(path), ToLower(root)) {
      assert ToLower(root)[split] == ToLower(path)[split] by { PrefixUnit(ToLower(path), ToLower(root), split); }
    }
  }

  predicate CallsPath(path: wstring) {
    Find(path, BACKSLASH, 0) >= 0
  }

  lemma PrefixUnit(p: wstring, q: wstring, i: nat)
    requires Under(p, q) && i < |p|
    ensures i < |q| && q[i] == p[i]
  {
    if q != p { assert q[..|p|][i] == q[i]; }
  }

  /** The key of an operation, opened before or not; a root key is there already. */
  lemma KeyOpens(op: Operation, current: Option<wstring>, reg: Registry)
    requires Normalized(op.path) && HasRoots(reg) && (current.Some? ==> Exists(reg, current.value))
    ensures Replay(if current == Some(op.path) then [] else Created(op.path), reg) == Create(reg, ToLower(op.path))
  {
    var key := Key(op.path);
    ReplayFew(key, key, reg);
    if current == Some(op.path) {
      CreateExisting(reg, op.path);
    } else if SubPath(op.path) == [] {
      RootExists(reg, op.path);
      CreateExisting(reg, op.path);
    }
    hide Exists, Create, ToLower, HasRoots, Normalized, SubPath;
  }

  lemma RemoveKeeps(op: Operation, reg: Registry)
    requires Normalized(op.path) && HasRoots(reg) && op.RemoveKey? && Fault(op).None?
    ensures Replay([op], reg) == Apply(op, reg) && HasRoots(Apply(op, reg)) && OpeningOne(op) == [op] && Own(op) == [op]
  {
    hide HasRoots, Delete, ToLower, Normalized, SubPath, Fault, Replay;
    NoRootRemoved(op);
    RootsStay(reg, op.path);
    ReplayFew(op, op, reg);
  }

  lemma NoRootRemoved(op: Operation)
    requires op.RemoveKey? && Fault(op).None?
    ensures SubPath(op.path) != []
  {
    hide Literal, SubPath;
  }

  lemma UnfoldKept(ops: seq<Operation>)
    requires ops != []
    ensures KeptOps(ops) == if Fault(ops[0]).Some? then KeptOps(ops[1..]) else [ops[0]] + KeptOps(ops[1..])
    ensures Fault(ops[0]).None? ==> Opening(KeptOps(ops)) == OpeningOne(ops[0]) + Opening(KeptOps(ops[1..]))
  {
    hide Fault, OpeningOne;
    NothingAround(KeptOps(ops[1..]));
    assert ([ops[0]] + KeptOps(ops[1..]))[1..] == KeptOps(ops[1..]);
  }

  lemma {:induction false} ReadBackMeans(ops: seq<Operation>, current: Option<wstring>, reg: Registry)
    requires AreNormalized(ops) && HasRoots(reg) && (current.Some? ==> Exists(reg, current.value))
    ensures Replay(ReadBack(ops, current), reg) == Replay(Opening(KeptOps(ops)), reg)
    decreases |ops|
  {
    hide *;
    if ops == [] {
      NothingHeld(current);
      NothingKept();
    } else {
      var op, rest := ops[0], ops[1..];
      UnfoldReadBack(ops, current);
      UnfoldKept(ops);
      HeadIsNormalized(ops);
      if Fault(op).Some? {
        ReadBackMeans(rest, current, reg);
      } else if op.RemoveKey? {
        RemoveKeeps(op, reg);
        ReplayConcat([op], ReadBack(rest, None), reg);
        ReplayConcat([op], Opening(KeptOps(rest)), reg);
        ReadBackMeans(rest, None, Apply(op, reg));
      } else {
        var opens := if current == Some(op.path) then [] else Created(op.path);
        KeyOpens(op, current, reg);
        OpenThenOwn(op, opens, reg);
        RootsRemain(reg, Replay(opens + Own(op), reg));
        ConcatAssoc(opens, Own(op), ReadBack(rest, Some(op.path)));
        ReplayConcat(opens + Own(op), ReadBack(rest, Some(op.path)), reg);
        ReplayConcat(OpeningOne(op), Opening(KeptOps(rest)), reg);
        ReadBackMeans(rest, Some(op.path), Replay(opens + Own(op), reg));
      }
    }
  }

  lemma NothingKept()
    ensures Opening(KeptOps([])) == []
  {}

  /** On a registry with its root keys the script does what the operations that are not skipped do, each removal of
      a value after creating its key. */
  lemma PowerShellKeepsMeaning(ops: seq<Operation>, adminCheck: bool, reg: Registry)
    requires AreNormalized(ops) && HasRoots(reg)
    ensures PowerShellOperations(Rendered(ops, adminCheck)).Some?
    ensures Replay(PowerShellOperations(Rendered(ops, adminCheck)).value, reg) == Replay(Opening(KeptOps(ops)), reg)
  {
    hide *;
    PowerShellIsReadBack(ops, adminCheck);
    ReadBackMeans(ops, None, reg);
  }
}
