/** Sessions on a registry in which any step may fail half-way: what a failure can touch, and that nothing else is ever
    off. */
module UndoRegions {
  import opened Text
  import opened ValueFormat
  import opened RegistryEffect
  import opened UndoSteps
  import UndoStacks

  // ----- places

  /** A key of the registry, or a value of a key. */
  datatype Place = KeyAt(path: wstring) | ValueAt(path: wstring, name: wstring)

  function Look(reg: Registry, path: wstring, name: wstring): Option<(uint32, seq<byte>)> {
    if path in reg && name in reg[path] then Some(reg[path][name]) else None
  }

  predicate SameAt(a: Registry, b: Registry, place: Place) {
    match place
    case KeyAt(path) => path in a <==> path in b
    case ValueAt(path, name) => Look(a, path, name) == Look(b, path, name)
  }

  ghost predicate AgreeOutside(region: Place -> bool, a: Registry, b: Registry) {
    forall place :: !region(place) ==> SameAt(a, b, place)
  }

  /** A region that holds a key holds its values. */
  ghost predicate IsRegion(region: Place -> bool) {
    forall path, name :: region(KeyAt(path)) ==> region(ValueAt(path, name))
  }

  /** The same place below another key. */
  function Shifted(place: Place, p: wstring, q: wstring): Place
    requires Under(p, place.path)
  {
    place.(path := q + place.path[|p|..])
  }

  ghost predicate MovesWithin(region: Place -> bool, p: wstring, q: wstring) {
    forall place: Place :: Under(p, place.path) && region(place) ==> region(Shifted(place, p, q))
  }

  /** Steps that move things move them neither into the region nor out of it. */
  ghost predicate Respects(region: Place -> bool, step: Step) {
    match step
    case RenameKey(parent, name, newName) =>
      && MovesWithin(region, Child(parent, name), Child(parent, newName))
      && MovesWithin(region, Child(parent, newName), Child(parent, name))
    case RenameValue(key, name, newName) =>
      region(ValueAt(ToLower(key), ToLower(name))) <==> region(ValueAt(ToLower(key), ToLower(newName)))
    case _ => true
  }

  lemma Agreeing(region: Place -> bool, a: Registry, b: Registry, place: Place)
    requires AgreeOutside(region, a, b) && !region(place)
    ensures SameAt(a, b, place)
  {}

  lemma AgreeBack(region: Place -> bool, a: Registry, b: Registry)
    requires AgreeOutside(region, a, b)
    ensures AgreeOutside(region, b, a)
  {
    forall place | !region(place) ensures SameAt(b, a, place) { Agreeing(region, a, b, place); }
  }

  lemma AgreeVia(region: Place -> bool, a: Registry, b: Registry, c: Registry)
    requires AgreeOutside(region, a, b) && AgreeOutside(region, b, c)
    ensures AgreeOutside(region, a, c)
  {
    forall place | !region(place) ensures SameAt(a, c, place) {
      Agreeing(region, a, b, place);
      Agreeing(region, b, c, place);
    }
  }

  /** Registries that agree everywhere are the same. */
  lemma AgreeEverywhere(region: Place -> bool, a: Registry, b: Registry)
    requires AgreeOutside(region, a, b) && forall place :: !region(place)
    ensures a == b
  {
    forall k ensures k in a <==> k in b { Agreeing(region, a, b, KeyAt(k)); }
    forall k | k in a ensures a[k] == b[k] {
      assert k in b;
      forall n ensures n in a[k] <==> n in b[k] { Agreeing(region, a, b, ValueAt(k, n)); }
      forall n | n in a[k] ensures a[k][n] == b[k][n] { Agreeing(region, a, b, ValueAt(k, n)); }
    }
  }

  // ----- steps respect regions

  /** Outside a region a value agrees, and so does its key. */
  lemma PlaceDecides(region: Place -> bool, a: Registry, b: Registry, place: Place)
    requires IsRegion(region) && AgreeOutside(region, a, b) && !region(place)
    ensures place.path in a <==> place.path in b
    ensures place.ValueAt? ==> Look(a, place.path, place.name) == Look(b, place.path, place.name)
  {
    Agreeing(region, a, b, place);
    if place.ValueAt? { assert !region(KeyAt(place.path)); }
    Agreeing(region, a, b, KeyAt(place.path));
  }

  lemma GraftAgrees(region: Place -> bool, a: Registry, b: Registry, p: wstring, content: Content)
    requires AgreeOutside(region, a, b)
    ensures AgreeOutside(region, Grafted(a, p, content), Grafted(b, p, content))
  {
    hide Grafted;
    forall place | !region(place) ensures SameAt(Grafted(a, p, content), Grafted(b, p, content), place) {
      Agreeing(region, a, b, place);
    }
  }

  lemma DeleteAgrees(region: Place -> bool, a: Registry, b: Registry, p: wstring)
    requires AgreeOutside(region, a, b)
    ensures AgreeOutside(region, Delete(a, p), Delete(b, p))
  {
    hide Delete, Under;
    forall place | !region(place) ensures SameAt(Delete(a, p), Delete(b, p), place) {
      Agreeing(region, a, b, place);
    }
  }

  /** A key of a registry in which p was moved to q. */
  lemma RenamedAt(reg: Registry, p: wstring, q: wstring, k: wstring)
    ensures var moved := Under(q, k) && p + k[|q|..] in reg;
            && (k in Renamed(reg, p, q) <==> moved || (k in reg && !Under(p, k)))
            && (k in Renamed(reg, p, q) ==> Renamed(reg, p, q)[k] == if moved then reg[p + k[|q|..]] else reg[k])
  {
    CapturedIsContent(reg, p);
    GraftedAt(Delete(reg, p), q, Captured(reg, p), k);
    if Under(q, k) {
      UnderPrefix(q, k);
      UnderPrefix(p, p + k[|q|..]);
      assert (p + k[|q|..])[|p|..] == k[|q|..];
    }
    hide Grafted, Under, Delete;
  }

  /** The place a moved one comes from lies outside, too. */
  lemma SourceIsOutside(region: Place -> bool, p: wstring, q: wstring, place: Place)
    requires MovesWithin(region, p, q) && !region(place) && Under(q, place.path)
    ensures !region(place.(path := p + place.path[|q|..]))
  {
    var from := place.(path := p + place.path[|q|..]);
    UnderPrefix(q, place.path);
    UnderPrefix(p, from.path);
    assert from.path[|p|..] == place.path[|q|..];
    assert Shifted(from, p, q) == place;
    hide Under;
  }

  lemma RenameAgrees(region: Place -> bool, a: Registry, b: Registry, p: wstring, q: wstring)
    requires IsRegion(region) && AgreeOutside(region, a, b) && MovesWithin(region, p, q)
    ensures AgreeOutside(region, Renamed(a, p, q), Renamed(b, p, q))
  {
    hide Renamed, Under, MovesWithin, AgreeOutside, IsRegion;
    forall place | !region(place) ensures SameAt(Renamed(a, p, q), Renamed(b, p, q), place) {
      RenamedAt(a, p, q, place.path);
      RenamedAt(b, p, q, place.path);
      PlaceDecides(region, a, b, place);
      if Under(q, place.path) {
        UnderPrefix(q, place.path);
        SourceIsOutside(region, p, q, place);
        PlaceDecides(region, a, b, place.(path := p + place.path[|q|..]));
      }
    }
    AgreeIs(region, Renamed(a, p, q), Renamed(b, p, q));
  }

  lemma AgreeIs(region: Place -> bool, a: Registry, b: Registry)
    requires forall place :: !region(place) ==> SameAt(a, b, place)
    ensures AgreeOutside(region, a, b)
  {}

  lemma ValuesAgree(region: Place -> bool, a: Registry, b: Registry, p: wstring, f: Values -> Values)
    requires IsRegion(region) && AgreeOutside(region, a, b)
    requires forall n :: !region(ValueAt(p, n)) && p in a && p in b ==>
               (n in f(a[p]) <==> n in f(b[p])) && (n in f(a[p]) ==> f(a[p])[n] == f(b[p])[n])
    ensures AgreeOutside(region, Alter(a, p, f), Alter(b, p, f))
  {
    hide AgreeOutside, IsRegion, Alter;
    forall place | !region(place) ensures SameAt(Alter(a, p, f), Alter(b, p, f), place) {
      PlaceDecides(region, a, b, place);
    }
    AgreeIs(region, Alter(a, p, f), Alter(b, p, f));
  }

  lemma SetAgrees(region: Place -> bool, a: Registry, b: Registry, key: wstring, v: RegistryValue)
    requires IsRegion(region) && AgreeOutside(region, a, b)
    ensures AgreeOutside(region, WithValue(a, key, v), WithValue(b, key, v))
  {
    hide AgreeOutside, IsRegion, ToLower;
    var p := ToLower(key);
    forall n | !region(ValueAt(p, n)) && p in a && p in b ensures Look(a, p, n) == Look(b, p, n) {
      PlaceDecides(region, a, b, ValueAt(p, n));
    }
    ValuesAgree(region, a, b, p, (vs: Values) => vs[ToLower(v.name) := (v.kind, v.data)]);
  }

  lemma UnsetAgrees(region: Place -> bool, a: Registry, b: Registry, key: wstring, name: wstring)
    requires IsRegion(region) && AgreeOutside(region, a, b)
    ensures AgreeOutside(region, WithoutValue(a, key, name), WithoutValue(b, key, name))
  {
    hide AgreeOutside, IsRegion, ToLower;
    var p := ToLower(key);
    forall n | !region(ValueAt(p, n)) && p in a && p in b ensures Look(a, p, n) == Look(b, p, n) {
      PlaceDecides(region, a, b, ValueAt(p, n));
    }
    ValuesAgree(region, a, b, p, (vs: Values) => vs - {ToLower(name)});
  }

  lemma MoveAgrees(region: Place -> bool, a: Registry, b: Registry, key: wstring, name: wstring, newName: wstring)
    requires IsRegion(region) && AgreeOutside(region, a, b)
    requires region(ValueAt(ToLower(key), ToLower(name))) <==> region(ValueAt(ToLower(key), ToLower(newName)))
    ensures AgreeOutside(region, WithRenamed(a, key, name, newName), WithRenamed(b, key, name, newName))
  {
    hide AgreeOutside, IsRegion, ToLower;
    var p := ToLower(key);
    forall n | !region(ValueAt(p, n)) && p in a && p in b ensures Look(a, p, n) == Look(b, p, n) {
      PlaceDecides(region, a, b, ValueAt(p, n));
    }
    if p in a && p in b {
      forall n | !region(ValueAt(p, n))
        ensures var x, y := Moved(a[p], ToLower(name), ToLower(newName)), Moved(b[p], ToLower(name), ToLower(newName));
                (n in x <==> n in y) && (n in x ==> x[n] == y[n])
      {
        assert Look(a, p, n) == Look(b, p, n);
        if n == ToLower(newName) { assert Look(a, p, ToLower(name)) == Look(b, p, ToLower(name)); }
      }
    }
    ValuesAgree(region, a, b, p, (vs: Values) => Moved(vs, ToLower(name), ToLower(newName)));
  }

  /** Redoing and undoing a step keep agreement outside a region it respects. */
  lemma StepAgrees(region: Place -> bool, a: Registry, b: Registry, step: Step)
    requires IsRegion(region) && AgreeOutside(region, a, b) && Respects(region, step)
    ensures AgreeOutside(region, Forward(step, a), Forward(step, b))
    ensures AgreeOutside(region, Backward(step, a), Backward(step, b))
  {
    hide IsRegion, AgreeOutside, MovesWithin, Grafted, Renamed, Delete, WithValue, WithoutValue, WithRenamed, ToLower;
    match step
    case CreateKey(parent, name, snapshot) =>
      GraftAgrees(region, a, b, Child(parent, name), snapshot);
      DeleteAgrees(region, a, b, Child(parent, name));
    case DeleteKey(parent, name, snapshot) =>
      GraftAgrees(region, a, b, Child(parent, name), snapshot);
      DeleteAgrees(region, a, b, Child(parent, name));
    case RenameKey(parent, name, newName) =>
      RenameAgrees(region, a, b, Child(parent, name), Child(parent, newName));
      RenameAgrees(region, a, b, Child(parent, newName), Child(parent, name));
    case ReplaceKey(key, before, after) =>
      DeleteAgrees(region, a, b, ToLower(key));
      GraftAgrees(region, Delete(a, ToLower(key)), Delete(b, ToLower(key)), ToLower(key), before);
      GraftAgrees(region, Delete(a, ToLower(key)), Delete(b, ToLower(key)), ToLower(key), after);
    case CreateValue(key, name, value) =>
      SetAgrees(region, a, b, key, value);
      UnsetAgrees(region, a, b, key, name);
    case DeleteValue(key, was) =>
      SetAgrees(region, a, b, key, was);
      UnsetAgrees(region, a, b, key, was.name);
    case ModifyValue(key, was, now) =>
      SetAgrees(region, a, b, key, was);
      SetAgrees(region, a, b, key, now);
    case RenameValue(key, name, newName) =>
      MoveAgrees(region, a, b, key, name, newName);
      MoveAgrees(region, a, b, key, newName, name);
  }

  // ----- what a step that fails may touch

  /** A name used while only the case of a name changes: the name, a tilde and a number. */
  predicate IsAside(name: wstring, aside: wstring) {
    |name| + 1 < |aside| && aside[..|name| + 1] == name + [TILDE]
      && forall i :: |name| < i < |aside| ==> IsDigit(aside[i])
  }

  predicate ChangesCase(name: wstring, newName: wstring) {
    name != newName && ToLower(name) == ToLower(newName)
  }

  /** Deleting, restoring and replacing a key can end half-way, anywhere below it; a rename can leave both names, or the
      name put aside; a single value is written or not. */
  ghost predicate Touches(step: Step, place: Place) {
    match step
    case CreateKey(parent, name, _) => Under(Child(parent, name), place.path)
    case DeleteKey(parent, name, _) => Under(Child(parent, name), place.path)
    case ReplaceKey(key, _, _) => Under(ToLower(key), place.path) && place != KeyAt(ToLower(key))
    case RenameKey(parent, name, newName) =>
      && ChangesCase(name, newName)
      && (|| Under(Child(parent, newName), place.path)
          || exists aside :: IsAside(ToLower(newName), aside) && Under(Child(parent, aside), place.path))
    case RenameValue(key, name, newName) =>
      && place.ValueAt? && place.path == ToLower(key)
      && (|| place.name == ToLower(name) || place.name == ToLower(newName)
          || (ChangesCase(name, newName) && IsAside(ToLower(newName), place.name)))
    case _ => false
  }

  /** What a step that fails may leave of the registry it was tried on. */
  ghost predicate MayLeave(step: Step, leftBoth: bool, reached: Registry, residue: Registry) {
    (leftBoth ==> step.RenameValue?) && AgreeOutside(place => Touches(step, place), reached, residue)
  }

  // ----- runs

  type Command = Sessions.Command<Step, Registry>
  type State = Sessions.State<Step, Registry>

  ghost function Reached(s: State, command: Command): Registry {
    Sessions.Reached(Forward, Backward, s, command)
  }

  ghost function SessionAfter(base: Registry, commands: seq<Command>): State {
    Sessions.After(Forward, Backward, Sessions.State([], [], base), commands)
  }

  /** A change is recorded as it is made, and a step that stops a replay leaves what such a step may leave. */
  ghost predicate HappensAt(s: State, command: Command) {
    if command.Do? then AllRecorded(command.steps, s.store)
    else Sessions.StopsAt(s, command) ==>
      MayLeave(Sessions.StoppedAt(s, command), command.fate.leftBoth, Reached(s, command), command.fate.residue)
  }

  ghost predicate Happens(base: Registry, commands: seq<Command>) {
    forall i :: 0 <= i < |commands| ==> HappensAt(SessionAfter(base, commands[..i]), commands[i])
  }

  /** The step that stops a replay, if any, leaves nothing of its own. */
  ghost predicate LeavesNothing(s: State, command: Command) {
    !command.Do? && Sessions.StopsAt(s, command) ==>
      !command.fate.leftBoth && command.fate.residue == Reached(s, command)
  }

  /** Steps that leave something are about the region, and no step moves things across its border. */
  ghost predicate StaysWithin(region: Place -> bool, s: State, command: Command) {
    if command.Do? then forall i :: 0 <= i < |command.steps| ==> Respects(region, command.steps[i])
    else LeavesNothing(s, command) || Covers(region, Sessions.StoppedAt(s, command))
  }

  ghost predicate Covers(region: Place -> bool, step: Step) {
    forall place :: Touches(step, place) ==> region(place)
  }

  ghost predicate AllStayWithin(region: Place -> bool, base: Registry, commands: seq<Command>) {
    forall i :: 0 <= i < |commands| ==> StaysWithin(region, SessionAfter(base, commands[..i]), commands[i])
  }

  ghost function Ideal(base: Registry, steps: seq<Step>): Registry {
    Sessions.Replay(Forward, base, steps)
  }

  /** Undoing step i of a timeline gives back what was before it, outside the region. */
  ghost predicate UndoneAt(region: Place -> bool, base: Registry, line: seq<Step>, i: nat)
    requires i < |line|
  {
    AgreeOutside(region, Backward(line[i], Ideal(base, line[..i + 1])), Ideal(base, line[..i]))
  }

  ghost predicate Undone(region: Place -> bool, base: Registry, line: seq<Step>) {
    forall i :: 0 <= i < |line| ==> Respects(region, line[i]) && UndoneAt(region, base, line, i)
  }

  /** Outside the region the store is what the undo side makes of the base, and the timeline can be taken back. */
  ghost predicate Holds(region: Place -> bool, base: Registry, s: State) {
    AgreeOutside(region, s.store, Ideal(base, s.Past())) && Undone(region, base, s.Line())
  }

  lemma IdealMore(base: Registry, steps: seq<Step>, i: nat)
    requires i < |steps|
    ensures Ideal(base, steps[..i + 1]) == Forward(steps[i], Ideal(base, steps[..i]))
  {
    hide Forward;
    Sessions.ReplayMore(Forward, base, steps, i);
  }

  ghost predicate RespectAll(region: Place -> bool, steps: seq<Step>) {
    forall i :: 0 <= i < |steps| ==> Respects(region, steps[i])
  }

  /** The same steps on two registries. */
  lemma {:induction false} StepsAgree(region: Place -> bool, a: Registry, b: Registry, steps: seq<Step>, n: nat)
    requires IsRegion(region) && AgreeOutside(region, a, b) && RespectAll(region, steps) && n <= |steps|
    ensures AgreeOutside(region, Ideal(a, steps[..n]), Ideal(b, steps[..n]))
    decreases n
  {
    hide IsRegion, AgreeOutside, Respects, Forward, Backward;
    if n > 0 {
      StepsAgree(region, a, b, steps, n - 1);
      IdealMore(a, steps, n - 1);
      IdealMore(b, steps, n - 1);
      StepAgrees(region, Ideal(a, steps[..n - 1]), Ideal(b, steps[..n - 1]), steps[n - 1]);
    }
  }

  /** A recorded step is undone, outside the region, on a registry that agrees with the one it was recorded on. */
  lemma RecordedIsUndone(region: Place -> bool, store: Registry, ideal: Registry, step: Step)
    requires IsRegion(region) && AgreeOutside(region, store, ideal) && Respects(region, step) && Recorded(step, store)
    ensures AgreeOutside(region, Backward(step, Forward(step, ideal)), ideal)
  {
    hide IsRegion, AgreeOutside, Respects, Forward, Backward, Recorded;
    StepIsUndone(step, store);
    AgreeBack(region, store, ideal);
    StepAgrees(region, ideal, store, step);
    StepAgrees(region, Forward(step, ideal), Forward(step, store), step);
    AgreeVia(region, Backward(step, Forward(step, ideal)), store, ideal);
  }

  lemma IdealConcat(base: Registry, a: seq<Step>, b: seq<Step>)
    ensures Ideal(base, a + b) == Ideal(Ideal(base, a), b)
  {
    hide Forward;
    Sessions.ReplayConcat(Forward, base, a, b);
  }

  lemma UndoneIs(region: Place -> bool, base: Registry, line: seq<Step>, i: nat)
    requires Undone(region, base, line) && i < |line|
    ensures Respects(region, line[i]) && UndoneAt(region, base, line, i)
  {}

  lemma {:induction false} ChangeIsUndone(region: Place -> bool, base: Registry, store: Registry, past: seq<Step>,
      steps: seq<Step>, future: seq<Step>)
    requires IsRegion(region) && Undone(region, base, past + future) && AgreeOutside(region, store, Ideal(base, past))
    requires AllRecorded(steps, store) && RespectAll(region, steps)
    ensures Undone(region, base, past + steps)
  {
    hide IsRegion, AgreeOutside, Respects, Forward, Backward, Recorded, Sessions.Replay, UndoneAt, Ideal;
    var line := past + steps;
    forall i | 0 <= i < |line| ensures Respects(region, line[i]) && UndoneAt(region, base, line, i) {
      if i < |past| {
        UndoneIs(region, base, past + future, i);
        SameUndone(region, base, past + future, line, i);
      } else {
        NewIsUndone(region, base, store, past, steps, i - |past|);
      }
    }
  }

  /** Whether a step is undone is said by the timeline up to it. */
  lemma SameUndone(region: Place -> bool, base: Registry, a: seq<Step>, b: seq<Step>, i: nat)
    requires i < |a| && i < |b| && a[..i + 1] == b[..i + 1]
    ensures a[i] == b[i] && (UndoneAt(region, base, a, i) <==> UndoneAt(region, base, b, i))
  {
    hide AgreeOutside, Backward, Ideal;
    assert a[i] == a[..i + 1][i] && b[i] == b[..i + 1][i];
    assert a[..i] == a[..i + 1][..i] && b[..i] == b[..i + 1][..i];
  }

  lemma NewIsUndone(region: Place -> bool, base: Registry, store: Registry, past: seq<Step>, steps: seq<Step>, j: nat)
    requires IsRegion(region) && AgreeOutside(region, store, Ideal(base, past)) && j < |steps|
    requires AllRecorded(steps, store) && RespectAll(region, steps)
    ensures UndoneAt(region, base, past + steps, |past| + j)
  {
    hide IsRegion, AgreeOutside, Respects, Forward, Backward, Recorded, Sessions.Replay;
    var line, i := past + steps, |past| + j;
    assert line[..i] == past + steps[..j] && line[i] == steps[j];
    IdealConcat(base, past, steps[..j]);
    StepsAgree(region, store, Ideal(base, past), steps, j);
    IdealMore(base, line, i);
    RecordedIsUndone(region, Ideal(store, steps[..j]), Ideal(base, line[..i]), steps[j]);
  }

  lemma ChangeHolds(region: Place -> bool, base: Registry, s: State, steps: seq<Step>)
    requires IsRegion(region) && Holds(region, base, s) && AllRecorded(steps, s.store) && RespectAll(region, steps)
    ensures Holds(region, base, Sessions.AfterChange(Forward, s, steps))
  {
    hide IsRegion, AgreeOutside, Respects, Forward, Backward, Recorded, AllRecorded, RespectAll, Undone;
    var after := Sessions.AfterChange(Forward, s, steps);
    assert after.store == Ideal(s.store, steps);
    Sessions.ChangeMoves(Forward, s, steps);
    hide Sessions.AfterChange, Ideal;
    Sessions.LineIsSides(s);
    IdealConcat(base, s.Past(), steps);
    StepsAgree(region, s.store, Ideal(base, s.Past()), steps, |steps|);
    assert steps[..|steps|] == steps;
    ChangeIsUndone(region, base, s.store, s.Past(), steps, s.Future());
    Sessions.CursorIsInside(s);
    if steps != [] {
      assert after.Line() == s.Past() + steps;
    }
  }

  /** Steps taken back from where a timeline left the store. */
  lemma {:induction false} UnwoundAgrees(region: Place -> bool, base: Registry, line: seq<Step>, store: Registry,
      past: seq<Step>, steps: seq<Step>)
    requires IsRegion(region) && Undone(region, base, line) && past + steps <= line
             && AgreeOutside(region, store, Ideal(base, past + steps))
    ensures AgreeOutside(region, Sessions.Unwound(Backward, store, steps), Ideal(base, past))
    decreases |steps|
  {
    hide IsRegion, AgreeOutside, Respects, Forward, Backward, Undone, Ideal;
    if steps == [] {
      assert past + steps == past;
    } else {
      var i, next := |past|, past + [steps[0]];
      assert next + steps[1..] == past + steps;
      UnwoundAgrees(region, base, line, store, next, steps[1..]);
      UndoneIs(region, base, line, i);
      assert line[..i] == (past + steps)[..i] == past && line[i] == (past + steps)[i] == steps[0]
        && line[..i + 1] == next;
      StepAgrees(region, Sessions.Unwound(Backward, store, steps[1..]), Ideal(base, next), steps[0]);
      AgreeVia(region, Sessions.Unwound(Backward, store, steps), Backward(steps[0], Ideal(base, next)),
               Ideal(base, past));
    }
  }

  lemma UndoneBefore(region: Place -> bool, base: Registry, line: seq<Step>, n: nat)
    requires Undone(region, base, line) && n <= |line|
    ensures RespectAll(region, line) && RespectAll(region, line[n..])
  {
    hide Respects, UndoneAt;
  }

  /** The steps that go through leave, outside the region, what the timeline makes of the base up to where they got. */
  lemma ReachedAgrees(region: Place -> bool, base: Registry, s: State, command: Command)
    requires IsRegion(region) && Holds(region, base, s) && !command.Do?
    ensures var reach := Sessions.ReachOf(s, command);
            var cursor := if command.Undo? then |s.Past()| - reach else |s.Past()| + reach;
            && 0 <= cursor <= |s.Line()|
            && AgreeOutside(region, Reached(s, command), Ideal(base, s.Line()[..cursor]))
  {
    hide IsRegion, AgreeOutside, Undone, Ideal, Forward, Backward, Sessions.Unwound, Sessions.Replay, Sessions.TopSteps;
    Sessions.CursorIsInside(s);
    var past, future, reach := s.Past(), s.Future(), Sessions.ReachOf(s, command);
    if command.Undo? {
      Sessions.TopIsLast(s, reach);
      UndoneAgrees(region, base, s.Line(), s.store, past, reach);
    } else {
      Sessions.TopIsNext(s, reach);
      RedoneAgrees(region, base, s.Line(), s.store, past, future, reach);
    }
  }

  lemma UndoneAgrees(region: Place -> bool, base: Registry, line: seq<Step>, store: Registry, past: seq<Step>,
      reach: nat)
    requires IsRegion(region) && Undone(region, base, line) && past <= line
             && AgreeOutside(region, store, Ideal(base, past))
    requires reach <= |past|
    ensures AgreeOutside(region, Sessions.Unwound(Backward, store, past[|past| - reach..]),
                         Ideal(base, line[..|past| - reach]))
  {
    hide IsRegion, AgreeOutside, Undone, Ideal, Forward, Backward, Sessions.Unwound;
    var cut := |past| - reach;
    assert past[..cut] + past[cut..] == past;
    assert line[..cut] == past[..cut];
    UnwoundAgrees(region, base, line, store, past[..cut], past[cut..]);
  }

  lemma RedoneAgrees(region: Place -> bool, base: Registry, line: seq<Step>, store: Registry, past: seq<Step>,
      future: seq<Step>, reach: nat)
    requires IsRegion(region) && Undone(region, base, line) && line == past + future
             && AgreeOutside(region, store, Ideal(base, past))
    requires reach <= |future|
    ensures AgreeOutside(region, Sessions.Replay(Forward, store, future[..reach]), Ideal(base, line[..|past| + reach]))
  {
    IdealIs(store, future[..reach]);
    hide IsRegion, AgreeOutside, Undone, Ideal, Forward, Sessions.Replay, RespectAll;
    assert line[..|past| + reach] == past + future[..reach];
    assert line[|past|..] == future;
    IdealConcat(base, past, future[..reach]);
    UndoneBefore(region, base, line, |past|);
    StepsAgree(region, store, Ideal(base, past), future, reach);
  }

  lemma IdealIs(base: Registry, steps: seq<Step>)
    ensures Ideal(base, steps) == Sessions.Replay(Forward, base, steps)
  {}

  /** What a replay leaves agrees, outside the region, with what its steps reached. */
  lemma LeftAgrees(region: Place -> bool, s: State, command: Command)
    requires !command.Do? && HappensAt(s, command) && StaysWithin(region, s, command)
    ensures AgreeOutside(region, Sessions.AfterOne(Forward, Backward, s, command).store, Reached(s, command))
    ensures Sessions.DropsAt(s, command) ==>
              Sessions.StopsAt(s, command) && Sessions.StoppedAt(s, command).RenameValue?
                && Covers(region, Sessions.StoppedAt(s, command))
  {
    Sessions.StoreAfter(Forward, Backward, s, command);
    hide Forward, Backward, Sessions.AfterOne, Sessions.StoppedAt, Touches;
    var store, reached := Sessions.AfterOne(Forward, Backward, s, command).store, Reached(s, command);
    assert reached == Sessions.Reached(Forward, Backward, s, command);
    hide Reached;
    if Sessions.StopsAt(s, command) && !LeavesNothing(s, command) {
      var step := Sessions.StoppedAt(s, command);
      forall place | !region(place) ensures SameAt(store, reached, place) {
        assert !Touches(step, place);
        assert SameAt(reached, store, place);
      }
      AgreeIs(region, store, reached);
    } else {
      assert store == reached;
      AgreeIs(region, store, reached);
    }
  }

  /** A dropped rename of a value has done nothing outside the region. */
  lemma DroppedIsWithin(region: Place -> bool, reg: Registry, step: Step)
    requires step.RenameValue? && Covers(region, step)
    ensures AgreeOutside(region, Forward(step, reg), reg)
  {
    hide ToLower, IsAside, ChangesCase;
    forall place | !region(place) ensures SameAt(Forward(step, reg), reg, place) {
      assert !Touches(step, place);
    }
  }

  /** A timeline without a step that does nothing outside the region. */
  lemma DropIsUndone(region: Place -> bool, base: Registry, line: seq<Step>, at: nat)
    requires IsRegion(region) && Undone(region, base, line) && at < |line|
    requires AgreeOutside(region, Forward(line[at], Ideal(base, line[..at])), Ideal(base, line[..at]))
    ensures Undone(region, base, line[..at] + line[at + 1..])
  {
    hide IsRegion, AgreeOutside, Respects, Forward, Backward, UndoneAt, Ideal;
    var rest := line[..at] + line[at + 1..];
    forall i | 0 <= i < |rest| ensures Respects(region, rest[i]) && UndoneAt(region, base, rest, i) {
      if i < at {
        UndoneIs(region, base, line, i);
        assert rest[..i + 1] == line[..i + 1];
        SameUndone(region, base, line, rest, i);
      } else {
        LaterIsUndone(region, base, line, at, i);
      }
    }
  }

  /** The same steps with and without the dropped one. */
  lemma WithoutAgrees(region: Place -> bool, base: Registry, line: seq<Step>, at: nat, i: nat)
    requires IsRegion(region) && Undone(region, base, line) && at <= i < |line|
    requires AgreeOutside(region, Forward(line[at], Ideal(base, line[..at])), Ideal(base, line[..at]))
    ensures AgreeOutside(region, Ideal(base, line[..i + 1]), Ideal(base, (line[..at] + line[at + 1..])[..i]))
  {
    hide IsRegion, AgreeOutside, Respects, Forward, Undone, Ideal;
    var n, later := i - at, line[at + 1..];
    IdealMore(base, line, at);
    UndoneBefore(region, base, line, at + 1);
    assert line[..i + 1] == line[..at + 1] + later[..n];
    assert (line[..at] + later)[..i] == line[..at] + later[..n];
    IdealConcat(base, line[..at + 1], later[..n]);
    IdealConcat(base, line[..at], later[..n]);
    StepsAgree(region, Ideal(base, line[..at + 1]), Ideal(base, line[..at]), later, n);
  }

  lemma LaterIsUndone(region: Place -> bool, base: Registry, line: seq<Step>, at: nat, i: nat)
    requires IsRegion(region) && Undone(region, base, line) && at <= i < |line| - 1
    requires AgreeOutside(region, Forward(line[at], Ideal(base, line[..at])), Ideal(base, line[..at]))
    ensures var rest := line[..at] + line[at + 1..]; Respects(region, rest[i]) && UndoneAt(region, base, rest, i)
  {
    hide IsRegion, AgreeOutside, Respects, Forward, Backward, Undone, Ideal;
    var rest := line[..at] + line[at + 1..];
    var step := line[i + 1];
    assert rest[i] == step;
    UndoneIs(region, base, line, i + 1);
    WithoutAgrees(region, base, line, at, i);
    WithoutAgrees(region, base, line, at, i + 1);
    var a, b := Ideal(base, rest[..i]), Ideal(base, rest[..i + 1]);
    AgreeBack(region, Ideal(base, line[..i + 2]), b);
    StepAgrees(region, b, Ideal(base, line[..i + 2]), step);
    AgreeVia(region, Backward(step, b), Backward(step, Ideal(base, line[..i + 2])), Ideal(base, line[..i + 1]));
    AgreeVia(region, Backward(step, b), Ideal(base, line[..i + 1]), a);
  }

  lemma ReplayHolds(region: Place -> bool, base: Registry, s: State, command: Command)
    requires IsRegion(region) && Holds(region, base, s) && !command.Do?
    requires HappensAt(s, command) && StaysWithin(region, s, command)
    ensures Holds(region, base, Sessions.AfterOne(Forward, Backward, s, command))
  {
    hide IsRegion, AgreeOutside, Respects, Forward, Backward, Undone, Ideal, Reached, HappensAt, StaysWithin, Covers;
    hide Sessions.AfterOne, Sessions.StoppedAt, Sessions.StopsAt;
    var after := Sessions.AfterOne(Forward, Backward, s, command);
    ReachedAgrees(region, base, s, command);
    LeftAgrees(region, s, command);
    if Sessions.DropsAt(s, command) {
      Sessions.DroppedIs(Forward, Backward, s, command);
      DropHolds(region, base, s, command);
    } else {
      Sessions.ReplayStands(Forward, Backward, s, command);
      var reach := Sessions.ReachOf(s, command);
      var cursor := if command.Undo? then |s.Past()| - reach else |s.Past()| + reach;
      AgreeVia(region, after.store, Reached(s, command), Ideal(base, s.Line()[..cursor]));
    }
  }

  lemma DropHolds(region: Place -> bool, base: Registry, s: State, command: Command)
    requires IsRegion(region) && Holds(region, base, s) && !command.Do? && Sessions.DropsAt(s, command)
    requires HappensAt(s, command) && StaysWithin(region, s, command)
    ensures Holds(region, base, Sessions.AfterOne(Forward, Backward, s, command))
  {
    hide IsRegion, AgreeOutside, Respects, Forward, Backward, Undone, Ideal, Reached, HappensAt, StaysWithin, Covers;
    hide Sessions.AfterOne, Sessions.StoppedAt;
    var after := Sessions.AfterOne(Forward, Backward, s, command);
    ReachedAgrees(region, base, s, command);
    LeftAgrees(region, s, command);
    Sessions.DroppedIs(Forward, Backward, s, command);
    Sessions.LineIsSides(after);
    var line, reach := s.Line(), Sessions.ReachOf(s, command);
    var at := if command.Undo? then |s.Past()| - 1 - reach else |s.Past()| + reach;
    DroppedIsWithin(region, Ideal(base, line[..at]), line[at]);
    DropIsUndone(region, base, line, at);
    if command.Undo? {
      IdealMore(base, line, at);
      AgreeVia(region, after.store, Reached(s, command), Ideal(base, line[..at + 1]));
      AgreeVia(region, after.store, Ideal(base, line[..at + 1]), Ideal(base, line[..at]));
    } else {
      AgreeVia(region, after.store, Reached(s, command), Ideal(base, line[..at]));
    }
  }

  lemma {:induction false} SessionHolds(region: Place -> bool, base: Registry, commands: seq<Command>)
    requires IsRegion(region) && Happens(base, commands) && AllStayWithin(region, base, commands)
    ensures Holds(region, base, SessionAfter(base, commands))
    decreases |commands|
  {
    hide IsRegion, AgreeOutside, Undone, HappensAt, StaysWithin, Sessions.AfterOne;
    if commands == [] {
      StartHolds(region, base);
    } else {
      var n := |commands| - 1;
      forall i | 0 <= i < n ensures HappensAt(SessionAfter(base, commands[..n][..i]), commands[..n][i])
                                    && StaysWithin(region, SessionAfter(base, commands[..n][..i]), commands[..n][i])
      {
        assert commands[..n][..i] == commands[..i] && commands[..n][i] == commands[i];
      }
      SessionHolds(region, base, commands[..n]);
      OneHolds(region, base, SessionAfter(base, commands[..n]), commands[n]);
    }
  }

  lemma StartHolds(region: Place -> bool, base: Registry)
    ensures Holds(region, base, Sessions.State([], [], base))
  {}

  lemma OneHolds(region: Place -> bool, base: Registry, s: State, command: Command)
    requires IsRegion(region) && Holds(region, base, s) && HappensAt(s, command) && StaysWithin(region, s, command)
    ensures Holds(region, base, Sessions.AfterOne(Forward, Backward, s, command))
  {
    hide IsRegion, Holds, AllRecorded, Sessions.AfterChange, Sessions.AfterUndo, Sessions.AfterRedo, Respects;
    if command.Do? {
      ChangeHolds(region, base, s, command.steps);
    } else {
      ReplayHolds(region, base, s, command);
    }
  }

  /** However changes, undos and redos are mixed and whatever fails in them: outside any region that holds what failures
      left and that no step moves things into or out of,
        the registry is what the changes on the undo side make of the one
      at the start; with nothing left to undo it is that one. */
  lemma SessionIsRightOutside(region: Place -> bool, base: Registry, commands: seq<Command>)
    requires IsRegion(region) && Happens(base, commands) && AllStayWithin(region, base, commands)
    ensures var after := SessionAfter(base, commands);
            && AgreeOutside(region, after.store, Ideal(base, after.Past()))
            && (after.Past() == [] ==> AgreeOutside(region, after.store, base))
  {
    hide IsRegion, AgreeOutside, Undone, Happens, AllStayWithin, SessionAfter, Forward;
    SessionHolds(region, base, commands);
  }

  ghost predicate NothingIsLeft(base: Registry, commands: seq<Command>) {
    forall i :: 0 <= i < |commands| ==> LeavesNothing(SessionAfter(base, commands[..i]), commands[i])
  }

  /** If no step that stops a replay leaves anything of its own, the whole registry is that. */
  lemma SessionKeepsRegistry(base: Registry, commands: seq<Command>)
    requires Happens(base, commands) && NothingIsLeft(base, commands)
    ensures var after := SessionAfter(base, commands);
            after.store == Ideal(base, after.Past()) && (after.Past() == [] ==> after.store == base)
  {
    hide AgreeOutside, HappensAt, SessionAfter, LeavesNothing, Forward;
    var nowhere := (place: Place) => false;
    forall i | 0 <= i < |commands| ensures StaysWithin(nowhere, SessionAfter(base, commands[..i]), commands[i]) {
      assert LeavesNothing(SessionAfter(base, commands[..i]), commands[i]);
    }
    SessionIsRightOutside(nowhere, base, commands);
    AgreeEverywhere(nowhere, SessionAfter(base, commands).store, Ideal(base, SessionAfter(base, commands).Past()));
  }

  /** The first step that leaves something puts the registry off only where that step may touch it. */
  lemma OneFailureIsLocal(base: Registry, commands: seq<Command>, command: Command)
    requires Happens(base, commands) && NothingIsLeft(base, commands) && !command.Do?
    requires var s := SessionAfter(base, commands); HappensAt(s, command) && Sessions.StopsAt(s, command)
    ensures var s := SessionAfter(base, commands);
            var after := Sessions.AfterOne(Forward, Backward, s, command);
            MayLeave(Sessions.StoppedAt(s, command), command.fate.leftBoth, Ideal(base, after.Past()), after.store)
  {
    hide AgreeOutside, Undone, Ideal, HappensAt, SessionAfter, LeavesNothing, Reached, Forward, Backward, Touches;
    hide Sessions.StopsAt, Sessions.AfterOne;
    hide Sessions.StoppedAt;
    var s := SessionAfter(base, commands);
    var after, step := Sessions.AfterOne(Forward, Backward, s, command), Sessions.StoppedAt(s, command);
    var nowhere, touched := (place: Place) => false, (place: Place) => Touches(step, place);
    forall i | 0 <= i < |commands| ensures StaysWithin(nowhere, SessionAfter(base, commands[..i]), commands[i]) {
      assert LeavesNothing(SessionAfter(base, commands[..i]), commands[i]);
    }
    SessionHolds(nowhere, base, commands);
    ReachedAgrees(nowhere, base, s, command);
    LeftAgrees(touched, s, command);
    StoppedMayLeave(s, command);
    var line, reach := s.Line(), Sessions.ReachOf(s, command);
    var cursor := if command.Undo? then |s.Past()| - reach else |s.Past()| + reach;
    AgreeWidely(nowhere, touched, Reached(s, command), Ideal(base, line[..cursor]));
    AgreeVia(touched, after.store, Reached(s, command), Ideal(base, line[..cursor]));
    if Sessions.DropsAt(s, command) {
      Sessions.DroppedIs(Forward, Backward, s, command);
      if command.Undo? {
        IdealMore(base, line, cursor - 1);
        DroppedIsWithin(touched, Ideal(base, line[..cursor - 1]), step);
        AgreeVia(touched, after.store, Ideal(base, line[..cursor]), Ideal(base, line[..cursor - 1]));
      }
    } else {
      Sessions.ReplayStands(Forward, Backward, s, command);
    }
    AgreeBack(touched, after.store, Ideal(base, after.Past()));
  }

  lemma StoppedMayLeave(s: State, command: Command)
    requires HappensAt(s, command) && !command.Do? && Sessions.StopsAt(s, command)
    ensures command.fate.leftBoth ==> Sessions.StoppedAt(s, command).RenameValue?
  {}

  lemma AgreeWidely(region: Place -> bool, wider: Place -> bool, a: Registry, b: Registry)
    requires AgreeOutside(region, a, b) && forall place :: region(place) ==> wider(place)
    ensures AgreeOutside(wider, a, b)
  {
    hide SameAt;
    forall place | !wider(place) ensures SameAt(a, b, place) { Agreeing(region, a, b, place); }
  }

  // ----- a failure that leaves something

  /** A change of one step, and an undo that stops at it. */
  function ChangeThenStop(step: Step, residue: Registry): seq<Command> {
    [Sessions.Do([step]), Sessions.Undo(Sessions.Fate(0, false, residue))]
  }

  lemma StatesOfStop(base: Registry, step: Step, residue: Registry)
    ensures var commands := ChangeThenStop(step, residue);
            && SessionAfter(base, commands[..0]) == Sessions.State([], [], base)
            && SessionAfter(base, commands[..1]) == Sessions.State([UndoStacks.Single(step)], [], Forward(step, base))
            && SessionAfter(base, commands) == Sessions.State([UndoStacks.Single(step)], [], residue)
  {
    hide Forward, Backward, Sessions.After, Sessions.AfterOne;
    var commands := ChangeThenStop(step, residue);
    var start, s := Sessions.State([], [], base), Sessions.State([UndoStacks.Single(step)], [], Forward(step, base));
    assert SessionAfter(base, commands[..0]) == start by { Sessions.AfterNone(Forward, Backward, start); }
    Sessions.AfterMore(Forward, Backward, start, commands, 0);
    Sessions.AfterMore(Forward, Backward, start, commands, 1);
    assert commands[..2] == commands;
    OneChange(base, step);
    OneStop(s, step, residue);
  }

  lemma OneChange(base: Registry, step: Step)
    ensures Sessions.AfterOne(Forward, Backward, Sessions.State([], [], base), Sessions.Do([step]))
            == Sessions.State([UndoStacks.Single(step)], [], Forward(step, base))
  {
    hide Forward, Backward, Sessions.AfterUndo, Sessions.AfterRedo;
    assert [step][..0] == [];
    assert [] + UndoStacks.Recorded([step]) == [UndoStacks.Single(step)];
    IdealMore(base, [step], 0);
    IdealIs(base, [step]);
    assert [step][..1] == [step];
  }

  lemma OneStop(s: State, step: Step, residue: Registry)
    requires s.undo == [UndoStacks.Single(step)]
    ensures var command := Sessions.Undo(Sessions.Fate(0, false, residue));
            && Sessions.AfterOne(Forward, Backward, s, command) == Sessions.State(s.undo, s.redo, residue)
            && Sessions.StopsAt(s, command) && Sessions.StoppedAt(s, command) == step && Reached(s, command) == s.store
  {
    hide Forward, Backward, Sessions.AfterChange, Sessions.AfterRedo;
    assert s.undo[0].Flat() == [step] && [step][1..] == [];
  }

  lemma StopHappens(base: Registry, step: Step, residue: Registry)
    requires Recorded(step, base) && MayLeave(step, false, Forward(step, base), residue)
    ensures Happens(base, ChangeThenStop(step, residue))
  {
    hide Forward, Backward, MayLeave, SessionAfter, Recorded;
    StatesOfStop(base, step, residue);
    OneStop(Sessions.State([UndoStacks.Single(step)], [], Forward(step, base)), step, residue);
    hide Reached, Sessions.StopsAt, Sessions.StoppedAt;
    assert [step][..0] == [];
  }

  const KEY: wstring := [0x41]
  const PATH: wstring := [0x61]

  /** The key, with one value of that name. */
  function WithOne(name: wstring): Registry {
    map[PATH := map[name := (REG_SZ, [])]]
  }

  const REPLACEMENT := ReplaceKey(KEY, map[[] := map[[0x6E] := (REG_SZ, [])]], map[[] := map[[0x6D] := (REG_SZ, [])]])
  const ORIGINAL := WithOne([0x6E])
  const EMPTIED: Registry := map[PATH := map[]]

  lemma CapturedOne(p: wstring, values: Values)
    ensures Captured(map[p := values], p) == map[[] := values]
  {
    var captured := Captured(map[p := values], p);
    assert p + [] == p;
    forall c ensures c in captured <==> c == [] {
      if p + c == p { assert |p + c| == |p|; }
    }
  }

  lemma ReplacedOne(p: wstring, values: Values, more: Values)
    ensures Replaced(map[p := values], p, map[[] := more]) == map[p := more]
  {
    var emptied := Delete(map[p := values], p);
    assert emptied == map[];
    var filled := Grafted(emptied, p, map[[] := more]);
    assert p[|p|..] == [];
    forall k ensures k in filled <==> k == p {
      if p <= k && k[|p|..] == [] { assert k == p + k[|p|..]; }
    }
  }

  lemma ReplacementFacts()
    ensures ToLower(KEY) == PATH
    ensures Recorded(REPLACEMENT, ORIGINAL)
    ensures Forward(REPLACEMENT, ORIGINAL) == WithOne([0x6D])
  {
    hide Captured, Replaced;
    assert ToLower(KEY) == PATH;
    CapturedOne(PATH, ORIGINAL[PATH]);
    ReplacedOne(PATH, ORIGINAL[PATH], WithOne([0x6D])[PATH]);
  }

  /** The content of a key is replaced; in the undo the key is emptied, but writing its old value is refused. The
      program
      keeps the replacement on the undo side, although the key is what it was neither before nor after. */
  lemma RefusedReplaceIsOff()
    ensures Happens(ORIGINAL, ChangeThenStop(REPLACEMENT, EMPTIED))
    ensures var s := SessionAfter(ORIGINAL, ChangeThenStop(REPLACEMENT, EMPTIED));
            && s.Past() == s.Line() == [REPLACEMENT]
            && s.store != Ideal(ORIGINAL, []) && s.store != Ideal(ORIGINAL, [REPLACEMENT])
  {
    ReplacementFacts();
    EmptiedMayBeLeft();
    hide SessionAfter, Forward, MayLeave, Recorded, Happens, ChangeThenStop;
    StopHappens(ORIGINAL, REPLACEMENT, EMPTIED);
    StatesOfStop(ORIGINAL, REPLACEMENT, EMPTIED);
    var undo := [UndoStacks.Single(REPLACEMENT)];
    assert undo[..0] == [] && UndoStacks.FlatUp(undo) == [REPLACEMENT];
    IdealMore(ORIGINAL, [REPLACEMENT], 0);
    assert [REPLACEMENT][..1] == [REPLACEMENT] && [REPLACEMENT][..0] == [];
    assert [0x6E] in ORIGINAL[PATH] && [0x6D] in WithOne([0x6D])[PATH];
  }

  lemma EmptiedMayBeLeft()
    ensures MayLeave(REPLACEMENT, false, WithOne([0x6D]), EMPTIED)
  {
    assert ToLower(KEY) == PATH;
  }
}
