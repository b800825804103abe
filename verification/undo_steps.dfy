/** The steps the program records, on a registry: each is taken back exactly where it was recorded. */
module UndoSteps {
  import opened Text
  import opened ValueFormat
  import opened RegistryEffect
  import Sessions = UndoSessions

  /** A key and what is below it, by the rest of the path. */
  type Content = map<wstring, Values>

  datatype Step =
    | CreateKey(parent: wstring, name: wstring, snapshot: Content)
    | DeleteKey(parent: wstring, name: wstring, snapshot: Content)
    | RenameKey(parent: wstring, name: wstring, newName: wstring)
    | ReplaceKey(key: wstring, before: Content, after: Content)
    | CreateValue(key: wstring, name: wstring, value: RegistryValue)
    | DeleteValue(key: wstring, was: RegistryValue)
    | ModifyValue(key: wstring, was: RegistryValue, now: RegistryValue)
    | RenameValue(key: wstring, name: wstring, newName: wstring)

  function Child(parent: wstring, name: wstring): wstring {
    ToLower(parent + [BACKSLASH] + name)
  }

  /** What a snapshot of the key p holds. */
  function Captured(reg: Registry, p: wstring): (r: Content)
    ensures forall c :: c in r <==> p + c in reg && Under(p, p + c)
    ensures forall c :: c in r ==> r[c] == reg[p + c]
  {
    assert forall k :: Under(p, k) ==> p + k[|p|..] == k;
    var r := map k | k in reg && Under(p, k) :: k[|p|..] := reg[k];
    assert forall c :: (p + c)[|p|..] == c;
    r
  }

  /** Every path of a snapshot is the key's own or one below it. */
  predicate IsContent(content: Content) {
    forall c :: c in content ==> Under([], c)
  }

  /** The snapshot put back at p. */
  function Grafted(reg: Registry, p: wstring, content: Content): (r: Registry)
    ensures forall k :: k in r <==> k in reg || (p <= k && k[|p|..] in content)
    ensures forall k :: k in r ==> r[k] == if p <= k && k[|p|..] in content then content[k[|p|..]] else reg[k]
  {
    assert forall c :: (p + c)[|p|..] == c;
    var put := map c | c in content :: p + c := content[c];
    assert forall k :: p <= k ==> p + k[|p|..] == k;
    assert forall k :: k in put <==> p <= k && k[|p|..] in content;
    reg + put
  }

  function Replaced(reg: Registry, p: wstring, content: Content): Registry {
    Grafted(Delete(reg, p), p, content)
  }

  function Renamed(reg: Registry, p: wstring, q: wstring): Registry {
    Grafted(Delete(reg, p), q, Captured(reg, p))
  }

  function WithValue(reg: Registry, key: wstring, v: RegistryValue): Registry {
    Alter(reg, ToLower(key), (vs: Values) => vs[ToLower(v.name) := (v.kind, v.data)])
  }

  function WithoutValue(reg: Registry, key: wstring, name: wstring): Registry {
    Alter(reg, ToLower(key), (vs: Values) => vs - {ToLower(name)})
  }

  function Moved(vs: Values, a: wstring, b: wstring): Values {
    if a in vs then (vs - {a})[b := vs[a]] else vs
  }

  function WithRenamed(reg: Registry, key: wstring, name: wstring, newName: wstring): Registry {
    Alter(reg, ToLower(key), (vs: Values) => Moved(vs, ToLower(name), ToLower(newName)))
  }

  /** A redo that goes through. */
  function Forward(step: Step, reg: Registry): Registry {
    match step
    case CreateKey(parent, name, snapshot) => Grafted(reg, Child(parent, name), snapshot)
    case DeleteKey(parent, name, _) => Delete(reg, Child(parent, name))
    case RenameKey(parent, name, newName) => Renamed(reg, Child(parent, name), Child(parent, newName))
    case ReplaceKey(key, _, after) => Replaced(reg, ToLower(key), after)
    case CreateValue(key, _, value) => WithValue(reg, key, value)
    case DeleteValue(key, was) => WithoutValue(reg, key, was.name)
    case ModifyValue(key, _, now) => WithValue(reg, key, now)
    case RenameValue(key, name, newName) => WithRenamed(reg, key, name, newName)
  }

  /** An undo that goes through. */
  function Backward(step: Step, reg: Registry): Registry {
    match step
    case CreateKey(parent, name, _) => Delete(reg, Child(parent, name))
    case DeleteKey(parent, name, snapshot) => Grafted(reg, Child(parent, name), snapshot)
    case RenameKey(parent, name, newName) => Renamed(reg, Child(parent, newName), Child(parent, name))
    case ReplaceKey(key, before, _) => Replaced(reg, ToLower(key), before)
    case CreateValue(key, name, _) => WithoutValue(reg, key, name)
    case DeleteValue(key, was) => WithValue(reg, key, was)
    case ModifyValue(key, was, _) => WithValue(reg, key, was)
    case RenameValue(key, name, newName) => WithRenamed(reg, key, newName, name)
  }

  predicate NothingUnder(reg: Registry, p: wstring) {
    forall k :: k in reg ==> !Under(p, k)
  }

  /** The key holds exactly this value under its name. */
  predicate Holds(reg: Registry, key: wstring, v: RegistryValue) {
    ToLower(key) in reg && ToLower(v.name) in reg[ToLower(key)]
      && reg[ToLower(key)][ToLower(v.name)] == (v.kind, v.data)
  }

  /** The key exists and has no value of that name. */
  predicate Lacks(reg: Registry, key: wstring, name: wstring) {
    ToLower(key) in reg && ToLower(name) !in reg[ToLower(key)]
  }

  /** What the program has checked or captured when it records a step: names are free, snapshots and old values are
      those of the registry before the change. */
  predicate Recorded(step: Step, reg: Registry) {
    match step
    case CreateKey(parent, name, snapshot) => NothingUnder(reg, Child(parent, name)) && IsContent(snapshot)
    case DeleteKey(parent, name, snapshot) => snapshot == Captured(reg, Child(parent, name))
    case RenameKey(parent, name, newName) => NothingUnder(Delete(reg, Child(parent, name)), Child(parent, newName))
    case ReplaceKey(key, before, after) => before == Captured(reg, ToLower(key)) && IsContent(after)
    case CreateValue(key, name, value) => ToLower(name) == ToLower(value.name) && Lacks(reg, key, name)
    case DeleteValue(key, was) => Holds(reg, key, was)
    case ModifyValue(key, was, now) => ToLower(was.name) == ToLower(now.name) && Holds(reg, key, was)
    case RenameValue(key, name, newName) => ToLower(name) == ToLower(newName) || Lacks(reg, key, newName)
  }

  lemma UnderPrefix(p: wstring, k: wstring)
    ensures Under(p, k) <==> p <= k && Under([], k[|p|..])
  {
    if p <= k && k != p { assert k[|p|..] != []; }
  }

  /** The key k after a snapshot is put back at p. */
  lemma GraftedAt(reg: Registry, p: wstring, content: Content, k: wstring)
    requires IsContent(content)
    ensures k in Grafted(reg, p, content) <==> k in reg || (Under(p, k) && k[|p|..] in content)
    ensures k in Grafted(reg, p, content) ==>
              Grafted(reg, p, content)[k] == if Under(p, k) && k[|p|..] in content then content[k[|p|..]] else reg[k]
  {
    UnderPrefix(p, k);
    hide Under;
  }

  lemma CapturedAt(reg: Registry, p: wstring, k: wstring)
    requires Under(p, k)
    ensures k[|p|..] in Captured(reg, p) <==> k in reg
    ensures k in reg ==> Captured(reg, p)[k[|p|..]] == reg[k]
  {
    assert p + k[|p|..] == k;
    hide Under;
  }

  /** A snapshot put back at a free place, and taken away again. */
  lemma GraftDeleted(reg: Registry, p: wstring, content: Content)
    requires NothingUnder(reg, p) && IsContent(content)
    ensures Delete(Grafted(reg, p, content), p) == reg
  {
    hide Under, IsContent, Grafted;
    var r := Delete(Grafted(reg, p, content), p);
    forall k ensures k in r <==> k in reg { GraftedAt(reg, p, content, k); }
    forall k | k in reg ensures r[k] == reg[k] { GraftedAt(reg, p, content, k); }
  }

  /** A key deleted, and its snapshot put back. */
  lemma DeletedGraft(reg: Registry, p: wstring)
    ensures Grafted(Delete(reg, p), p, Captured(reg, p)) == reg
  {
    hide Under, IsContent, Grafted, Captured, Delete;
    CapturedIsContent(reg, p);
    var r := Grafted(Delete(reg, p), p, Captured(reg, p));
    forall k ensures k in r <==> k in reg { ReturnedAt(reg, p, k); }
    forall k | k in reg ensures r[k] == reg[k] { ReturnedAt(reg, p, k); }
  }

  lemma ReturnedAt(reg: Registry, p: wstring, k: wstring)
    ensures var r := Grafted(Delete(reg, p), p, Captured(reg, p));
            (k in r <==> k in reg) && (k in reg ==> r[k] == reg[k])
  {
    CapturedIsContent(reg, p);
    GraftedAt(Delete(reg, p), p, Captured(reg, p), k);
    if Under(p, k) { CapturedAt(reg, p, k); }
    hide *;
  }

  lemma CapturedIsContent(reg: Registry, p: wstring)
    ensures IsContent(Captured(reg, p))
  {
    forall c | c in Captured(reg, p) ensures Under([], c) {
      UnderPrefix(p, p + c);
      assert (p + c)[|p|..] == c;
    }
  }

  /** A snapshot put at a free place is what is captured there. */
  lemma GraftCaptured(reg: Registry, p: wstring, content: Content)
    requires NothingUnder(reg, p) && IsContent(content)
    ensures Captured(Grafted(reg, p, content), p) == content
  {
    var r := Grafted(reg, p, content);
    forall c ensures c in Captured(r, p) <==> c in content {
      UnderPrefix(p, p + c);
      assert (p + c)[|p|..] == c;
    }
    forall c | c in content ensures Captured(r, p)[c] == content[c] { assert (p + c)[|p|..] == c; }
    hide Under;
  }

  lemma NothingLeft(reg: Registry, p: wstring)
    ensures NothingUnder(Delete(reg, p), p)
  {}

  lemma RenamedBack(reg: Registry, p: wstring, q: wstring)
    requires NothingUnder(Delete(reg, p), q)
    ensures Renamed(Renamed(reg, p, q), q, p) == reg
  {
    hide NothingUnder, IsContent, Grafted, Captured, Delete;
    CapturedIsContent(reg, p);
    GraftDeleted(Delete(reg, p), q, Captured(reg, p));
    GraftCaptured(Delete(reg, p), q, Captured(reg, p));
    DeletedGraft(reg, p);
  }

  lemma ReplacedBack(reg: Registry, p: wstring, content: Content)
    requires IsContent(content)
    ensures Replaced(Replaced(reg, p, content), p, Captured(reg, p)) == reg
  {
    hide NothingUnder, IsContent, Grafted, Captured, Delete;
    NothingLeft(reg, p);
    GraftDeleted(Delete(reg, p), p, content);
    DeletedGraft(reg, p);
  }

  lemma AlterTwice(reg: Registry, p: wstring, f: Values -> Values, g: Values -> Values)
    requires p in reg ==> g(f(reg[p])) == reg[p]
    ensures Alter(Alter(reg, p, f), p, g) == reg
  {}

  lemma MovedBack(vs: Values, a: wstring, b: wstring)
    requires a == b || b !in vs
    ensures Moved(Moved(vs, a, b), b, a) == vs
  {
    if a in vs {
      var there := Moved(vs, a, b);
      assert b in there && there[b] == vs[a];
      assert (there - {b})[a := vs[a]] == vs;
    }
  }

  /** A step is undone exactly, at the registry it was recorded on. */
  lemma StepIsUndone(step: Step, reg: Registry)
    requires Recorded(step, reg)
    ensures Backward(step, Forward(step, reg)) == reg
  {
    hide Grafted, Captured, Delete, Alter, ToLower, Moved, NothingUnder, IsContent;
    match step
    case CreateKey(parent, name, snapshot) => GraftDeleted(reg, Child(parent, name), snapshot);
    case DeleteKey(parent, name, _) => DeletedGraft(reg, Child(parent, name));
    case RenameKey(parent, name, newName) => RenamedBack(reg, Child(parent, name), Child(parent, newName));
    case ReplaceKey(key, _, after) => ReplacedBack(reg, ToLower(key), after);
    case CreateValue(key, name, value) => CreatedBack(reg, key, name, value);
    case DeleteValue(key, was) => SetBack(reg, key, was);
    case ModifyValue(key, was, now) => ModifiedBack(reg, key, was, now);
    case RenameValue(key, name, newName) => NameBack(reg, key, name, newName);
  }

  lemma CreatedBack(reg: Registry, key: wstring, name: wstring, value: RegistryValue)
    requires ToLower(name) == ToLower(value.name) && Lacks(reg, key, name)
    ensures WithoutValue(WithValue(reg, key, value), key, name) == reg
  {
    hide ToLower;
    var p, n, vs := ToLower(key), ToLower(name), reg[ToLower(key)];
    assert vs[n := (value.kind, value.data)] - {n} == vs;
    AlterTwice(reg, p, (vs: Values) => vs[ToLower(value.name) := (value.kind, value.data)], (vs: Values) => vs
               - {ToLower(name)});
  }

  lemma SetBack(reg: Registry, key: wstring, was: RegistryValue)
    requires Holds(reg, key, was)
    ensures WithValue(WithoutValue(reg, key, was.name), key, was) == reg
  {
    hide ToLower;
    var p, n, vs := ToLower(key), ToLower(was.name), reg[ToLower(key)];
    assert (vs - {n})[n := (was.kind, was.data)] == vs;
    AlterTwice(reg, p, (vs: Values) => vs
               - {ToLower(was.name)}, (vs: Values) => vs[ToLower(was.name) := (was.kind, was.data)]);
  }

  lemma ModifiedBack(reg: Registry, key: wstring, was: RegistryValue, after: RegistryValue)
    requires ToLower(was.name) == ToLower(after.name) && Holds(reg, key, was)
    ensures WithValue(WithValue(reg, key, after), key, was) == reg
  {
    hide ToLower;
    var p, n, vs := ToLower(key), ToLower(was.name), reg[ToLower(key)];
    assert vs[n := (after.kind, after.data)][n := (was.kind, was.data)] == vs;
    AlterTwice(reg, p, (vs: Values) => vs[ToLower(after.name) := (after.kind, after.data)],
               (vs: Values) => vs[ToLower(was.name) := (was.kind, was.data)]);
  }

  lemma NameBack(reg: Registry, key: wstring, name: wstring, newName: wstring)
    requires ToLower(name) == ToLower(newName) || Lacks(reg, key, newName)
    ensures WithRenamed(WithRenamed(reg, key, name, newName), key, newName, name) == reg
  {
    hide ToLower, Moved;
    var p, a, b := ToLower(key), ToLower(name), ToLower(newName);
    if p in reg { MovedBack(reg[p], a, b); }
    AlterTwice(reg, p, (vs: Values) => Moved(vs, ToLower(name), ToLower(newName)),
               (vs: Values) => Moved(vs, ToLower(newName), ToLower(name)));
  }

  // ----- runs

  /** Every step of a change is recorded on the registry the steps before it left. */
  ghost predicate AllRecorded(steps: seq<Step>, reg: Registry) {
    forall i :: 0 <= i < |steps| ==> Recorded(steps[i], Sessions.Replay(Forward, reg, steps[..i]))
  }
}
