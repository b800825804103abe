/** Undo and redo commands replayed on a store: what the stacks remember is always what the store went through. */
module UndoSessions {
  import opened UndoStacks

  /** The store after doing `steps` in order from `base`. */
  ghost function Replay<S(!new), St(!new)>(forward: (S, St) -> St, base: St, steps: seq<S>): St {
    if steps == [] then base else forward(steps[|steps| - 1], Replay(forward, base, steps[..|steps| - 1]))
  }

  /** Step i, where the timeline does it, is undone by its inverse. */
  ghost predicate InvertibleAt<S(!new), St(!new)>(forward: (S, St) -> St, backward: (S, St) -> St, base: St,
      line: seq<S>, i: nat)
    requires i < |line|
  {
    var before := Replay(forward, base, line[..i]);
    backward(line[i], forward(line[i], before)) == before
  }

  ghost predicate Invertible<S(!new), St(!new)>(forward: (S, St) -> St, backward: (S, St) -> St, base: St, line: seq<S>)
  {
    forall i :: 0 <= i < |line| ==> InvertibleAt(forward, backward, base, line, i)
  }

  lemma {:induction false} ReplayConcat<S(!new), St(!new)>(forward: (S, St) -> St, base: St, a: seq<S>, b: seq<S>)
    ensures Replay(forward, base, a + b) == Replay(forward, Replay(forward, base, a), b)
    decreases |b|
  {
    if b == [] {
      assert a + b == a;
    } else {
      assert (a + b)[..|a + b| - 1] == a + b[..|b| - 1];
      ReplayConcat(forward, base, a, b[..|b| - 1]);
    }
  }

  /** The store after taking `steps` back from `from`, the last one first. */
  ghost function Unwound<S(!new), St(!new)>(backward: (S, St) -> St, from: St, steps: seq<S>): St {
    if steps == [] then from else backward(steps[0], Unwound(backward, from, steps[1..]))
  }

  /** Steps of an invertible timeline, taken back from where they left the store, leave it where they started. */
  lemma {:induction false} UnwoundIsReplay<S(!new), St(!new)>(forward: (S, St) -> St, backward: (S, St) -> St, base: St,
      line: seq<S>, past: seq<S>, steps: seq<S>)
    requires Invertible(forward, backward, base, line) && past + steps <= line
    ensures Unwound(backward, Replay(forward, base, past + steps), steps) == Replay(forward, base, past)
    decreases |steps|
  {
    if steps == [] {
      assert past + steps == past;
    } else {
      var i, next := |past|, past + [steps[0]];
      assert next + steps[1..] == past + steps;
      UnwoundIsReplay(forward, backward, base, line, next, steps[1..]);
      assert InvertibleAt(forward, backward, base, line, i);
      assert line[..i] == (past + steps)[..i] == past && line[i] == (past + steps)[i] == steps[0];
      assert next[..|next| - 1] == past;
    }
  }

  // ----- commands

  /** What happens to one replay: at most `limit` steps go through, and the step it stops at leaves the store as
      `residue`; `leftBoth` marks a rename that leaves the old and the new name behind. */
  datatype Fate<St> = Fate(limit: nat, leftBoth: bool, residue: St)

  datatype Command<S, St> = Do(steps: seq<S>) | Undo(fate: Fate<St>) | Redo(fate: Fate<St>)

  /** What a session remembers, and its store. */
  datatype State<S, St> = State(undo: seq<Operation<S>>, redo: seq<Operation<S>>, store: St)
  {
    function Past(): seq<S> { FlatUp(undo) }

    function Future(): seq<S> { FlatDown(redo) }

    function Line(): seq<S> { Timeline(undo, redo) }
  }

  /** The steps of the operation on top of a stack. */
  function TopSteps<S>(side: seq<Operation<S>>): seq<S> {
    if side == [] then [] else side[|side| - 1].Flat()
  }

  function Top<S>(side: seq<Operation<S>>): nat {
    |TopSteps(side)|
  }

  /** How many steps of the operation on top a replay gets through. */
  function Reach<S, St>(side: seq<Operation<S>>, fate: Fate<St>): (r: nat)
    ensures r <= Top(side)
  {
    if fate.limit < Top(side) then fate.limit else Top(side)
  }

  /** The replay stops before the end. */
  predicate Stops<S, St>(side: seq<Operation<S>>, fate: Fate<St>) {
    Reach(side, fate) < Top(side)
  }

  /** The step the replay stopped at is dropped. */
  predicate Drops<S, St>(side: seq<Operation<S>>, fate: Fate<St>) {
    fate.leftBoth && Stops(side, fate)
  }

  /** A change as the stacks record it. */
  ghost function AfterChange<S(!new), St(!new)>(forward: (S, St) -> St, s: State<S, St>, steps: seq<S>): State<S, St> {
    State(s.undo + Recorded(steps), if steps == [] then s.redo else [], Replay(forward, s.store, steps))
  }

  /** The operation on top goes back as far as it can: all of it changes sides, or none, or its replayed part. */
  ghost function AfterUndo<S(!new), St(!new)>(backward: (S, St) -> St, s: State<S, St>, fate: Fate<St>): State<S, St> {
    if s.undo == [] then s
    else
      var below, top, drops := s.undo[..|s.undo| - 1], s.undo[|s.undo| - 1], Drops(s.undo, fate);
      var cut := Top(s.undo) - Reach(s.undo, fate);
      var rest, done := top.Flat()[..cut], top.Flat()[cut..];
      var store := if Stops(s.undo, fate) then fate.residue else Unwound(backward, s.store, done);
      if cut == 0 then State(below, s.redo + [top], store)
      else if done == [] && !drops then State(s.undo, s.redo, store)
      else State(below + Filed(if drops then WithoutLast(rest) else rest), s.redo + Filed(done), store)
  }

  ghost function AfterRedo<S(!new), St(!new)>(forward: (S, St) -> St, s: State<S, St>, fate: Fate<St>): State<S, St> {
    if s.redo == [] then s
    else
      var below, top, drops := s.redo[..|s.redo| - 1], s.redo[|s.redo| - 1], Drops(s.redo, fate);
      var cut := Reach(s.redo, fate);
      var rest, done := top.Flat()[cut..], top.Flat()[..cut];
      var store := if Stops(s.redo, fate) then fate.residue else Replay(forward, s.store, done);
      if rest == [] then State(s.undo + [top], below, store)
      else if done == [] && !drops then State(s.undo, s.redo, store)
      else State(s.undo + Filed(done), below + Filed(if drops then WithoutFirst(rest) else rest), store)
  }

  ghost function AfterOne<S(!new), St(!new)>(forward: (S, St) -> St, backward: (S, St) -> St, s: State<S, St>,
      command: Command<S, St>): State<S, St>
  {
    match command
    case Do(steps) => AfterChange(forward, s, steps)
    case Undo(fate) => AfterUndo(backward, s, fate)
    case Redo(fate) => AfterRedo(forward, s, fate)
  }

  ghost function After<S(!new), St(!new)>(forward: (S, St) -> St, backward: (S, St) -> St, s: State<S, St>,
      commands: seq<Command<S, St>>): State<S, St>
  {
    if commands == [] then s
    else AfterOne(forward, backward, After(forward, backward, s, commands[..|commands| - 1]), commands[|commands| - 1])
  }

  // ----- the timeline

  /** A timeline and how many of its steps are done. */
  datatype Track<S> = Track(line: seq<S>, cursor: int)

  function TrackOf<S, St>(s: State<S, St>): Track<S> {
    Track(s.Line(), |s.Past()|)
  }

  /** The line without its step i. */
  function Without<S>(line: seq<S>, i: int): seq<S> {
    if 0 <= i < |line| then line[..i] + line[i + 1..] else line
  }

  /** A change replaces what comes after the cursor. */
  function Extended<S>(t: Track<S>, steps: seq<S>): Track<S> {
    if steps == [] || !(0 <= t.cursor <= |t.line|) then t else Track(t.line[..t.cursor] + steps, t.cursor + |steps|)
  }

  /** A replay that gets `reach` steps far moves the cursor, and only the step it stopped at ever disappears. */
  function Moved<S, St>(t: Track<S>, command: Command<S, St>, reach: nat, drops: bool): Track<S> {
    match command
    case Do(steps) => Extended(t, steps)
    case Undo(_) =>
      var next := t.cursor - reach - 1;
      if drops then Track(Without(t.line, next), next) else Track(t.line, next + 1)
    case Redo(_) =>
      var next := t.cursor + reach;
      Track(if drops then Without(t.line, next) else t.line, next)
  }

  /** The stack a command replays from. */
  function Side<S, St>(s: State<S, St>, command: Command<S, St>): seq<Operation<S>> {
    if command.Undo? then s.undo else if command.Redo? then s.redo else []
  }

  function ReachOf<S, St>(s: State<S, St>, command: Command<S, St>): nat {
    if command.Do? then 0 else Reach(Side(s, command), command.fate)
  }

  predicate StopsAt<S, St>(s: State<S, St>, command: Command<S, St>) {
    !command.Do? && Stops(Side(s, command), command.fate)
  }

  predicate DropsAt<S, St>(s: State<S, St>, command: Command<S, St>) {
    !command.Do? && Drops(Side(s, command), command.fate)
  }

  /** The step a replay stops at. */
  function StoppedAt<S, St>(s: State<S, St>, command: Command<S, St>): S
    requires StopsAt(s, command)
  {
    var steps, reach := TopSteps(Side(s, command)), ReachOf(s, command);
    if command.Undo? then steps[|steps| - 1 - reach] else steps[reach]
  }

  lemma CursorIsInside<S, St>(s: State<S, St>)
    ensures 0 <= TrackOf(s).cursor <= |s.Line()|
    ensures s.Line()[..|s.Past()|] == s.Past() && s.Line()[|s.Past()|..] == s.Future()
  {}

  lemma ChangeMoves<S(!new), St(!new)>(forward: (S, St) -> St, s: State<S, St>, steps: seq<S>)
    ensures TrackOf(AfterChange(forward, s, steps)) == Extended(TrackOf(s), steps)
    ensures AfterChange(forward, s, steps).Past() == s.Past() + steps
  {
    hide FlatUp, FlatDown, Filed, Replay;
    if |steps| == 1 { FlatUpPush(s.undo, Single(steps[0])); } else { FlatFiled(s.undo, steps); }
    CursorIsInside(s);
    NothingAhead<S>();
    assert (s.Past() + steps) + [] == s.Past() + steps;
    if steps == [] { assert s.Past() + steps == s.Past(); }
  }

  lemma NothingAhead<S>()
    ensures FlatDown<S>([]) == []
  {}

  /** Where the cursor stands when the last `done` of `steps` change sides, and the one before them goes away. */
  lemma CutBack<S>(before: seq<S>, steps: seq<S>, after: seq<S>, cut: nat, drops: bool)
    requires cut <= |steps| && (drops ==> cut > 0)
    ensures var rest, line := steps[..cut], before + steps + after;
            && (before + rest) + (steps[cut..] + after) == line == before + (steps + after)
            && (drops ==>
                  |WithoutLast(rest)| == cut - 1
                    && (before + WithoutLast(rest)) + (steps[cut..] + after) == Without(line, |before| + cut - 1))
  {}

  lemma CutForward<S>(before: seq<S>, steps: seq<S>, after: seq<S>, cut: nat, drops: bool)
    requires cut <= |steps| && (drops ==> cut < |steps|)
    ensures var rest, line := steps[cut..], before + (steps + after);
            && (before + steps[..cut]) + (rest + after) == line
            && (drops ==> (before + steps[..cut]) + (WithoutFirst(rest) + after) == Without(line, |before| + cut))
  {}

  lemma Ends<S>(before: seq<S>, steps: seq<S>, after: seq<S>, cut: nat)
    requires cut <= |steps|
    ensures steps[..cut] == [] ==> before + steps[..cut] == before && steps[cut..] == steps
    ensures steps[cut..] == [] ==> steps[..cut] == steps && steps[cut..] + after == after
  {}

  /** What both sides hold after an undo. */
  lemma UndoneSides<S(!new), St(!new)>(backward: (S, St) -> St, s: State<S, St>, fate: Fate<St>)
    requires s.undo != []
    ensures var after, below, steps :=
      AfterUndo(backward, s, fate), FlatUp(s.undo[..|s.undo| - 1]), s.undo[|s.undo| - 1].Flat();
            var cut := Top(s.undo) - Reach(s.undo, fate);
            && s.Past() == below + steps
            && after.Past() == below + (if Drops(s.undo, fate) then WithoutLast(steps[..cut]) else steps[..cut])
            && after.Future() == steps[cut..] + s.Future()
  {
    hide FlatUp, FlatDown, Filed, Reach, Unwound, WithoutLast;
    var below, top, drops := s.undo[..|s.undo| - 1], s.undo[|s.undo| - 1], Drops(s.undo, fate);
    var cut := Top(s.undo) - Reach(s.undo, fate);
    var rest, done := top.Flat()[..cut], top.Flat()[cut..];
    FlatUpTop(s.undo);
    Ends(FlatUp(below), top.Flat(), s.Future(), cut);
    if cut == 0 {
      FlatUpPush(s.redo, top);
    } else if done != [] || drops {
      FlatFiled(s.redo, done);
      FlatFiled(below, if drops then WithoutLast(rest) else rest);
    }
  }

  /** What both sides hold after a redo. */
  lemma RedoneSides<S(!new), St(!new)>(forward: (S, St) -> St, s: State<S, St>, fate: Fate<St>)
    requires s.redo != []
    ensures var after, below, steps :=
      AfterRedo(forward, s, fate), FlatDown(s.redo[..|s.redo| - 1]), s.redo[|s.redo| - 1].Flat();
            var cut := Reach(s.redo, fate);
            && s.Future() == steps + below
            && after.Past() == s.Past() + steps[..cut]
            && after.Future() == (if Drops(s.redo, fate) then WithoutFirst(steps[cut..]) else steps[cut..]) + below
  {
    hide FlatUp, FlatDown, Filed, Reach, Replay, WithoutFirst;
    var below, top, drops := s.redo[..|s.redo| - 1], s.redo[|s.redo| - 1], Drops(s.redo, fate);
    var cut := Reach(s.redo, fate);
    var rest, done := top.Flat()[cut..], top.Flat()[..cut];
    FlatUpTop(s.redo);
    Ends(s.Past(), top.Flat(), FlatDown(below), cut);
    if rest == [] {
      FlatUpPush(s.undo, top);
    } else if done != [] || drops {
      FlatFiled(s.undo, done);
      FlatFiled(below, if drops then WithoutFirst(rest) else rest);
    }
  }

  lemma UndoMoves<S(!new), St(!new)>(backward: (S, St) -> St, s: State<S, St>, fate: Fate<St>)
    ensures TrackOf(AfterUndo(backward, s, fate))
            == Moved(TrackOf(s), Undo(fate), Reach(s.undo, fate), Drops(s.undo, fate))
  {
    hide FlatUp, FlatDown, Reach, WithoutLast, Without;
    if s.undo != [] {
      UndoneSides(backward, s, fate);
      hide AfterUndo;
      CutBack(FlatUp(s.undo[..|s.undo| - 1]), s.undo[|s.undo| - 1].Flat(), s.Future(), Top(s.undo)
              - Reach(s.undo, fate), Drops(s.undo, fate));
    }
  }

  lemma RedoMoves<S(!new), St(!new)>(forward: (S, St) -> St, s: State<S, St>, fate: Fate<St>)
    ensures TrackOf(AfterRedo(forward, s, fate))
            == Moved(TrackOf(s), Redo(fate), Reach(s.redo, fate), Drops(s.redo, fate))
  {
    hide FlatUp, FlatDown, Reach, WithoutFirst, Without;
    if s.redo != [] {
      RedoneSides(forward, s, fate);
      hide AfterRedo;
      CutForward(s.Past(), s.redo[|s.redo| - 1].Flat(), FlatDown(s.redo[..|s.redo| - 1]), Reach(s.redo, fate),
                 Drops(s.redo, fate));
    }
  }

  /** The timeline and the cursor after a run, each command taken by itself. */
  ghost function TrackAfter<S(!new), St(!new)>(forward: (S, St) -> St, backward: (S, St) -> St, s: State<S, St>,
      commands: seq<Command<S, St>>): Track<S>
  {
    if commands == [] then TrackOf(s)
    else
      var before, command := commands[..|commands| - 1], commands[|commands| - 1];
      var prior := After(forward, backward, s, before);
      Moved(TrackAfter(forward, backward, s, before), command, ReachOf(prior, command), DropsAt(prior, command))
  }

  /** Over any run, whatever fails in it: the two stacks together are one timeline and a cursor on it, which
      replays move, changes cut off and extend, and a dropped step leaves otherwise as it was. */
  lemma {:induction false} RunMovesCursor<S(!new), St(!new)>(forward: (S, St) -> St, backward: (S, St) -> St,
      s: State<S, St>, commands: seq<Command<S, St>>)
    ensures var after, track := After(forward, backward, s, commands), TrackAfter(forward, backward, s, commands);
            && TrackOf(after) == track && 0 <= track.cursor <= |track.line|
            && after.Past() == track.line[..track.cursor] && after.Future() == track.line[track.cursor..]
    decreases |commands|
  {
    var after := After(forward, backward, s, commands);
    CursorIsInside(after);
    if commands != [] {
      var before, command := commands[..|commands| - 1], commands[|commands| - 1];
      var prior := After(forward, backward, s, before);
      RunMovesCursor(forward, backward, s, before);
      OneMoves(forward, backward, prior, command);
    }
    hide AfterOne, Moved, TrackOf, Reach, Drops;
  }

  lemma OneMoves<S(!new), St(!new)>(forward: (S, St) -> St, backward: (S, St) -> St, s: State<S, St>,
      command: Command<S, St>)
    ensures TrackOf(AfterOne(forward, backward, s, command))
            == Moved(TrackOf(s), command, ReachOf(s, command), DropsAt(s, command))
  {
    hide AfterChange, AfterUndo, AfterRedo, TrackOf, Moved, Reach, Drops;
    match command
    case Do(steps) =>
      ChangeMoves(forward, s, steps);
      MovedByChange<S, St>(TrackOf(s), steps, command);
    case Undo(fate) => UndoMoves(backward, s, fate);
    case Redo(fate) => RedoMoves(forward, s, fate);
  }

  lemma MovedByChange<S, St>(t: Track<S>, steps: seq<S>, command: Command<S, St>)
    requires command == Do(steps)
    ensures Moved(t, command, 0, false) == Extended(t, steps)
  {}

  /** No command of the run changes anything new or drops a step. */
  ghost predicate OnlyReplays<S(!new), St(!new)>(forward: (S, St) -> St, backward: (S, St) -> St, s: State<S, St>,
      commands: seq<Command<S, St>>)
  {
    forall i :: 0 <= i < |commands| ==>
      !DropsAt(After(forward, backward, s, commands[..i]), commands[i]) && (commands[i].Do? ==> commands[i].steps == [])
  }

  /** Undos and redos alone, complete or stopped anywhere, never change the timeline. */
  lemma {:induction false} ReplaysKeepTimeline<S(!new), St(!new)>(forward: (S, St) -> St, backward: (S, St) -> St,
      s: State<S, St>, commands: seq<Command<S, St>>)
    requires OnlyReplays(forward, backward, s, commands)
    ensures After(forward, backward, s, commands).Line() == s.Line()
    decreases |commands|
  {
    hide AfterOne, Reach, Drops, DropsAt;
    if commands != [] {
      var n := |commands| - 1;
      var before, command := commands[..n], commands[n];
      forall i | 0 <= i < n
        ensures !DropsAt(After(forward, backward, s, before[..i]), before[i])
                && (before[i].Do? ==> before[i].steps == [])
      {
        assert before[..i] == commands[..i] && before[i] == commands[i];
      }
      ReplaysKeepTimeline(forward, backward, s, before);
      OneMoves(forward, backward, After(forward, backward, s, before), command);
    }
  }

  // ----- the store

  /** The store is what the steps before the cursor made of the base, and every step of the timeline can be taken
      back. */
  ghost predicate Consistent<S(!new), St(!new)>(forward: (S, St) -> St, backward: (S, St) -> St, base: St,
      s: State<S, St>)
  {
    s.store == Replay(forward, base, s.Past()) && Invertible(forward, backward, base, s.Line())
  }

  /** The store as the steps that go through leave it. */
  ghost function Reached<S(!new), St(!new)>(forward: (S, St) -> St, backward: (S, St) -> St, s: State<S, St>,
      command: Command<S, St>): St
  {
    var top, reach := TopSteps(Side(s, command)), ReachOf(s, command);
    match command
    case Do(steps) => Replay(forward, s.store, steps)
    case Undo(_) => Unwound(backward, s.store, top[|top| - reach..])
    case Redo(_) => Replay(forward, s.store, top[..reach])
  }

  /** What a step that stops a replay must leave so that the stacks account for the store: nothing of its own; or, when
      it is dropped, the store without it, on which the steps behind it can be taken back. */
  ghost predicate LeavesStore<S(!new), St(!new)>(forward: (S, St) -> St, backward: (S, St) -> St, s: State<S, St>,
      command: Command<S, St>)
    requires StopsAt(s, command)
  {
    var reached, residue := Reached(forward, backward, s, command), command.fate.residue;
    if !command.fate.leftBoth then residue == reached
    else
      && residue == (if command.Undo? then backward(StoppedAt(s, command), reached) else reached)
      && Invertible(forward, backward, residue, AfterOne(forward, backward, s, command).Future())
  }

  /** A change whose steps can be taken back where they are done, and a replay that goes through or leaves nothing. */
  ghost predicate SoundAt<S(!new), St(!new)>(forward: (S, St) -> St, backward: (S, St) -> St, s: State<S, St>,
      command: Command<S, St>)
  {
    if command.Do? then Invertible(forward, backward, s.store, command.steps)
    else StopsAt(s, command) ==> LeavesStore(forward, backward, s, command)
  }

  ghost predicate Sound<S(!new), St(!new)>(forward: (S, St) -> St, backward: (S, St) -> St, s: State<S, St>,
      commands: seq<Command<S, St>>)
  {
    forall i :: 0 <= i < |commands| ==>
      SoundAt(forward, backward, After(forward, backward, s, commands[..i]), commands[i])
  }

  /** A timeline can be taken back exactly when both its parts can. */
  lemma InvertibleSplit<S(!new), St(!new)>(forward: (S, St) -> St, backward: (S, St) -> St, base: St, a: seq<S>,
      b: seq<S>)
    ensures Invertible(forward, backward, base, a + b)
            <==> Invertible(forward, backward, base, a) && Invertible(forward, backward, Replay(forward, base, a), b)
  {
    hide Replay;
    forall i | 0 <= i < |a|
      ensures InvertibleAt(forward, backward, base, a + b, i) <==> InvertibleAt(forward, backward, base, a, i)
    {
      assert (a + b)[..i] == a[..i] && (a + b)[i] == a[i];
    }
    forall i | 0 <= i < |b|
      ensures InvertibleAt(forward, backward, base, a + b, |a| + i)
              <==> InvertibleAt(forward, backward, Replay(forward, base, a), b, i)
    {
      assert (a + b)[..|a| + i] == a + b[..i] && (a + b)[|a| + i] == b[i];
      ReplayConcat(forward, base, a, b[..i]);
    }
    hide InvertibleAt;
    if Invertible(forward, backward, base, a + b) {
      forall i | 0 <= i < |b| ensures InvertibleAt(forward, backward, Replay(forward, base, a), b, i) {
        assert InvertibleAt(forward, backward, base, a + b, |a| + i);
      }
    }
    if Invertible(forward, backward, base, a) && Invertible(forward, backward, Replay(forward, base, a), b) {
      forall i | 0 <= i < |a + b| ensures InvertibleAt(forward, backward, base, a + b, i) {
        if i >= |a| { assert InvertibleAt(forward, backward, Replay(forward, base, a), b, i - |a|); }
      }
    }
  }

  lemma ChangeIsKept<S(!new), St(!new)>(forward: (S, St) -> St, backward: (S, St) -> St, base: St, s: State<S, St>,
      steps: seq<S>)
    requires Consistent(forward, backward, base, s)
    ensures Consistent(forward, backward, base, AfterChange(forward, s, steps))
            <==> Invertible(forward, backward, s.store, steps)
  {
    var after := AfterChange(forward, s, steps);
    ChangeMoves(forward, s, steps);
    ReplayConcat(forward, base, s.Past(), steps);
    CursorIsInside(s);
    InvertibleSplit(forward, backward, base, s.Past(), s.Future());
    InvertibleSplit(forward, backward, base, s.Past(), steps);
    if steps == [] { assert s.Past() + steps == s.Past(); }
    NothingAhead<S>();
    assert (s.Past() + steps) + [] == s.Past() + steps;
    hide FlatUp, FlatDown, InvertibleAt, Replay, Recorded;
  }

  lemma StoreAfter<S(!new), St(!new)>(forward: (S, St) -> St, backward: (S, St) -> St, s: State<S, St>,
      command: Command<S, St>)
    ensures AfterOne(forward, backward, s, command).store
            == if StopsAt(s, command) then command.fate.residue else Reached(forward, backward, s, command)
  {
    hide FlatUp, FlatDown, Filed;
    var top := TopSteps(Side(s, command));
    assert top[|top| - |top|..] == top && top[..|top|] == top;
  }

  /** The last steps before the cursor are the last of the operation on top. */
  lemma TopIsLast<S, St>(s: State<S, St>, reach: nat)
    requires reach <= Top(s.undo)
    ensures reach <= |s.Past()| && s.Past()[|s.Past()| - reach..] == TopSteps(s.undo)[Top(s.undo) - reach..]
    ensures reach < Top(s.undo) ==>
              reach < |s.Past()| && s.Past()[|s.Past()| - 1 - reach] == TopSteps(s.undo)[Top(s.undo) - 1 - reach]
  {
    hide FlatUp, FlatDown;
    if s.undo != [] {
      FlatUpTop(s.undo);
    }
  }

  lemma TopIsNext<S, St>(s: State<S, St>, reach: nat)
    requires reach <= Top(s.redo)
    ensures reach <= |s.Future()| && s.Future()[..reach] == TopSteps(s.redo)[..reach]
  {
    hide FlatUp, FlatDown;
    if s.redo != [] {
      FlatUpTop(s.redo);
      assert s.Future()[..reach] == TopSteps(s.redo)[..reach];
    }
  }

  /** What the steps that go through leave is what the timeline makes of the base up to where the replay got. */
  lemma ReachedIsReplay<S(!new), St(!new)>(forward: (S, St) -> St, backward: (S, St) -> St, base: St, s: State<S, St>,
      command: Command<S, St>)
    requires Consistent(forward, backward, base, s) && !command.Do?
    ensures var cursor := if command.Undo? then |s.Past()| - ReachOf(s, command) else |s.Past()| + ReachOf(s, command);
            && 0 <= cursor <= |s.Line()|
            && Reached(forward, backward, s, command) == Replay(forward, base, s.Line()[..cursor])
  {
    hide FlatUp, FlatDown, Timeline, Invertible, Replay, Unwound, TopSteps;
    CursorIsInside(s);
    var past, reach := s.Past(), ReachOf(s, command);
    if command.Undo? {
      TopIsLast(s, reach);
      var cut := |past| - reach;
      assert past[..cut] + past[cut..] == past;
      assert s.Line()[..cut] == past[..cut];
      UnwoundIsReplay(forward, backward, base, s.Line(), past[..cut], past[cut..]);
    } else {
      TopIsNext(s, reach);
      assert s.Line()[..|past| + reach] == past + s.Future()[..reach];
      ReplayConcat(forward, base, past, s.Future()[..reach]);
    }
  }

  /** Where a dropped step stood, and the two sides without it. */
  lemma DroppedIs<S(!new), St(!new)>(forward: (S, St) -> St, backward: (S, St) -> St, s: State<S, St>,
      command: Command<S, St>)
    requires DropsAt(s, command)
    ensures var after, cursor, reach := AfterOne(forward, backward, s, command), |s.Past()|, ReachOf(s, command);
            && StopsAt(s, command)
            && (var at := if command.Undo? then cursor - 1 - reach else cursor + reach;
                && 0 <= at < |s.Line()| && s.Line()[at] == StoppedAt(s, command)
                && after.Past() == s.Line()[..at] && after.Future() == s.Line()[at + 1..])
  {
    hide FlatUp, FlatDown, Timeline, AfterOne, Reach, TopSteps;
    var after, cursor, reach := AfterOne(forward, backward, s, command), |s.Past()|, ReachOf(s, command);
    var at := if command.Undo? then cursor - 1 - reach else cursor + reach;
    OneMoves(forward, backward, s, command);
    CursorIsInside(s);
    CursorIsInside(after);
    var line, past := s.Line(), s.Past();
    if command.Undo? {
      TopIsLast(s, reach);
      assert past == line[..cursor];
      assert line[at] == past[at];
    } else {
      TopIsNext(s, reach + 1);
      assert s.Future()[..reach + 1][reach] == s.Future()[reach] == line[cursor + reach];
    }
    assert Without(line, at)[..at] == line[..at] && Without(line, at)[at..] == line[at + 1..];
  }

  /** A replay that drops nothing leaves the timeline and stands where it got to. */
  lemma ReplayStands<S(!new), St(!new)>(forward: (S, St) -> St, backward: (S, St) -> St, s: State<S, St>,
      command: Command<S, St>)
    requires !command.Do? && !DropsAt(s, command)
    ensures var after := AfterOne(forward, backward, s, command);
            var cursor := if command.Undo? then |s.Past()| - ReachOf(s, command) else |s.Past()| + ReachOf(s, command);
            && after.Line() == s.Line() && 0 <= cursor <= |s.Line()| && after.Past() == s.Line()[..cursor]
  {
    hide FlatUp, FlatDown, Timeline, AfterOne, Reach, TopSteps, Without;
    OneMoves(forward, backward, s, command);
    CursorIsInside(AfterOne(forward, backward, s, command));
  }

  /** An invertible timeline around one of its steps. */
  lemma InvertibleAround<S(!new), St(!new)>(forward: (S, St) -> St, backward: (S, St) -> St, base: St, line: seq<S>,
      at: nat)
    requires Invertible(forward, backward, base, line) && at < |line|
    ensures backward(line[at], Replay(forward, base, line[..at + 1])) == Replay(forward, base, line[..at])
    ensures Invertible(forward, backward, base, line[..at] + line[at + 1..])
            <==> Invertible(forward, backward, Replay(forward, base, line[..at]), line[at + 1..])
  {
    assert InvertibleAt(forward, backward, base, line, at);
    ReplayMore(forward, base, line, at);
    assert line[..at] + line[at..] == line;
    hide Replay, InvertibleAt, Invertible;
    InvertibleSplit(forward, backward, base, line[..at], line[at..]);
    InvertibleSplit(forward, backward, base, line[..at], line[at + 1..]);
  }

  lemma DropIsKept<S(!new), St(!new)>(forward: (S, St) -> St, backward: (S, St) -> St, base: St, s: State<S, St>,
      command: Command<S, St>)
    requires Consistent(forward, backward, base, s) && DropsAt(s, command)
    ensures Consistent(forward, backward, base, AfterOne(forward, backward, s, command))
            <==> StopsAt(s, command) && LeavesStore(forward, backward, s, command)
  {
    hide FlatUp, FlatDown, Timeline, Invertible, Replay, Reach, TopSteps, AfterOne, Reached, StoppedAt;
    StoreAfter(forward, backward, s, command);
    ReachedIsReplay(forward, backward, base, s, command);
    DroppedIs(forward, backward, s, command);
    var at := if command.Undo? then |s.Past()| - 1 - ReachOf(s, command) else |s.Past()| + ReachOf(s, command);
    InvertibleAround(forward, backward, base, s.Line(), at);
    LineIsSides(AfterOne(forward, backward, s, command));
  }

  lemma LineIsSides<S, St>(s: State<S, St>)
    ensures s.Line() == s.Past() + s.Future()
  {}

  /** Exactly the sound commands keep the store accounted for. */
  lemma KeptExactlyWhenSound<S(!new), St(!new)>(forward: (S, St) -> St, backward: (S, St) -> St, base: St,
      s: State<S, St>, command: Command<S, St>)
    requires Consistent(forward, backward, base, s)
    ensures Consistent(forward, backward, base, AfterOne(forward, backward, s, command))
            <==> SoundAt(forward, backward, s, command)
  {
    hide FlatUp, FlatDown, Timeline, Invertible, Replay, Unwound, AfterUndo, AfterRedo, AfterChange, Reach, TopSteps;
    hide StoppedAt, Reached;
    if command.Do? {
      ChangeIsKept(forward, backward, base, s, command.steps);
    } else if DropsAt(s, command) {
      DropIsKept(forward, backward, base, s, command);
    } else {
      StoreAfter(forward, backward, s, command);
      ReachedIsReplay(forward, backward, base, s, command);
      ReplayStands(forward, backward, s, command);
    }
  }

  /** Over any run the store is the undo side replayed from the start, if the commands are sound. */
  lemma {:induction false} RunKeepsStore<S(!new), St(!new)>(forward: (S, St) -> St, backward: (S, St) -> St, base: St,
      s: State<S, St>, commands: seq<Command<S, St>>)
    requires Consistent(forward, backward, base, s) && Sound(forward, backward, s, commands)
    ensures Consistent(forward, backward, base, After(forward, backward, s, commands))
    decreases |commands|
  {
    hide Consistent, AfterOne, SoundAt;
    if commands != [] {
      var n := |commands| - 1;
      var before, command := commands[..n], commands[n];
      SoundBefore(forward, backward, s, commands, n);
      RunKeepsStore(forward, backward, base, s, before);
      KeptExactlyWhenSound(forward, backward, base, After(forward, backward, s, before), command);
    }
  }

  lemma SoundBefore<S(!new), St(!new)>(forward: (S, St) -> St, backward: (S, St) -> St, s: State<S, St>,
      commands: seq<Command<S, St>>, n: nat)
    requires n <= |commands| && Sound(forward, backward, s, commands)
    ensures Sound(forward, backward, s, commands[..n])
  {
    hide SoundAt, After;
    forall i | 0 <= i < n
      ensures SoundAt(forward, backward, After(forward, backward, s, commands[..n][..i]), commands[..n][i])
    {
      assert commands[..n][..i] == commands[..i] && commands[..n][i] == commands[i];
    }
  }

  lemma AfterNone<S(!new), St(!new)>(forward: (S, St) -> St, backward: (S, St) -> St, s: State<S, St>)
    ensures After(forward, backward, s, []) == s
  {}

  lemma AfterMore<S(!new), St(!new)>(forward: (S, St) -> St, backward: (S, St) -> St, s: State<S, St>,
      commands: seq<Command<S, St>>, i: nat)
    requires i < |commands|
    ensures After(forward, backward, s, commands[..i + 1])
            == AfterOne(forward, backward, After(forward, backward, s, commands[..i]), commands[i])
  {
    hide AfterOne;
    assert commands[..i + 1][..i] == commands[..i];
  }

  /** The store is accounted for all along a run exactly when it is at the start and every command is sound where it
      comes. */
  lemma RunKeepsStoreExactly<S(!new), St(!new)>(forward: (S, St) -> St, backward: (S, St) -> St, base: St,
      s: State<S, St>, commands: seq<Command<S, St>>)
    ensures (forall i :: 0 <= i <= |commands| ==>
               Consistent(forward, backward, base, After(forward, backward, s, commands[..i])))
            <==> Consistent(forward, backward, base, s) && Sound(forward, backward, s, commands)
  {
    assert After(forward, backward, s, commands[..0]) == s;
    hide Consistent, After, AfterOne, SoundAt;
    if Consistent(forward, backward, base, s) && Sound(forward, backward, s, commands) {
      forall i | 0 <= i <= |commands|
        ensures Consistent(forward, backward, base, After(forward, backward, s, commands[..i]))
      {
        SoundBefore(forward, backward, s, commands, i);
        RunKeepsStore(forward, backward, base, s, commands[..i]);
      }
    }
    if forall i :: 0 <= i <= |commands| ==>
      Consistent(forward, backward, base, After(forward, backward, s, commands[..i])) {
      assert Consistent(forward, backward, base, After(forward, backward, s, commands[..0]));
      forall i | 0 <= i < |commands|
        ensures SoundAt(forward, backward, After(forward, backward, s, commands[..i]), commands[i])
      {
        assert Consistent(forward, backward, base, After(forward, backward, s, commands[..i]));
        assert Consistent(forward, backward, base, After(forward, backward, s, commands[..i + 1]));
        AfterMore(forward, backward, s, commands, i);
        KeptExactlyWhenSound(forward, backward, base, After(forward, backward, s, commands[..i]), commands[i]);
      }
    }
  }

  lemma ReplayMore<S(!new), St(!new)>(forward: (S, St) -> St, from: St, steps: seq<S>, i: nat)
    requires i < |steps|
    ensures Replay(forward, from, steps[..i + 1]) == forward(steps[i], Replay(forward, from, steps[..i]))
  {
    assert steps[..i + 1][..i] == steps[..i];
  }

  lemma UnwoundMore<S(!new), St(!new)>(backward: (S, St) -> St, from: St, steps: seq<S>, i: nat)
    requires i < |steps|
    ensures Unwound(backward, from, steps[i..]) == backward(steps[i], Unwound(backward, from, steps[i + 1..]))
  {
    assert steps[i..][1..] == steps[i + 1..];
  }

  // ----- the session

  class Session<S(!new), St(!new)> {
    const stack: UndoStack<S>
    const forward: (S, St) -> St
    const backward: (S, St) -> St
    var store: St

    ghost function View(): State<S, St>
      reads this, stack
    {
      State(stack.undo, stack.redo, store)
    }

    constructor (forward: (S, St) -> St, backward: (S, St) -> St, store: St)
      ensures fresh(stack) && View() == State([], [], store)
      ensures this.forward == forward && this.backward == backward
      ensures Consistent(forward, backward, store, View())
    {
      this.forward, this.backward, this.store := forward, backward, store;
      stack := new UndoStack();
    }

    /** Does the steps and records them. */
    method Change(steps: seq<S>)
      modifies this, stack
      ensures View() == AfterChange(forward, old(View()), steps)
      ensures TrackOf(View()) == Extended(TrackOf(old(View())), steps)
    {
      ChangeMoves(forward, View(), steps);
      for i := 0 to |steps|
        invariant store == Replay(forward, old(store), steps[..i])
        invariant stack.undo == old(stack.undo) && stack.redo == old(stack.redo)
      {
        assert steps[..i + 1][..i] == steps[..i];
        store := forward(steps[i], store);
      }
      assert steps[..|steps|] == steps;
      stack.PushSteps(steps);
    }

    /** Replays an operation until it is done or a step fails; undo goes from the back, redo from the front. */
    method ReplayStep(operation: Operation<S>, isRedo: bool, fate: Fate<St>)
      returns (replayed: nat, leftBothNames: bool)
      modifies this
      ensures replayed == if fate.limit < |operation.Flat()| then fate.limit else |operation.Flat()|
      ensures leftBothNames == (replayed < |operation.Flat()| && fate.leftBoth)
      ensures var steps := operation.Flat();
              store == if replayed < |steps| then fate.residue
                       else if isRedo then Replay(forward, old(store), steps[..replayed])
                       else Unwound(backward, old(store), steps[|steps| - replayed..])
    {
      hide Replay, Unwound;
      var steps := operation.Flat();
      replayed := 0;
      NothingReplayed(forward, store, steps);
      NothingUnwound(backward, store, steps);
      while replayed < |steps| && replayed < fate.limit
        invariant replayed <= |steps| && replayed <= fate.limit
        invariant isRedo ==> store == Replay(forward, old(store), steps[..replayed])
        invariant !isRedo ==> store == Unwound(backward, old(store), steps[|steps| - replayed..])
      {
        if isRedo {
          ReplayMore(forward, old(store), steps, replayed);
          store := forward(steps[replayed], store);
        } else {
          UnwoundMore(backward, old(store), steps, |steps| - 1 - replayed);
          store := backward(steps[|steps| - 1 - replayed], store);
        }
        replayed := replayed + 1;
      }
      leftBothNames := replayed < |steps| && fate.leftBoth;
      if replayed < |steps| {
        store := fate.residue;
      }
    }

    /** The last operation goes back as far as it can, and the stacks file what became of it. */
    method EditUndo(fate: Fate<St>)
      modifies this, stack
      ensures View() == AfterUndo(backward, old(View()), fate)
      ensures TrackOf(View()) == Moved(TrackOf(old(View())), Undo(fate), Reach(old(stack.undo), fate),
                                       Drops(old(stack.undo), fate))
    {
      UndoMoves(backward, View(), fate);
      hide TrackOf, Moved;
      hide FlatUp, FlatDown, Replay, Unwound, WithoutLast, Filed;
      var operation := stack.TakeUndo();
      if operation.None? {
        return;
      }
      var replayed, leftBoth := ReplayStep(operation.value, false, fate);
      ghost var steps, cut := operation.value.Flat(), |operation.value.Flat()| - replayed;
      assert replayed == Reach(old(stack.undo), fate) && leftBoth == Drops(old(stack.undo), fate);
      assert old(stack.undo)[..|old(stack.undo)| - 1] == stack.undo;
      hide Reach, Drops;
      if replayed == |operation.value.Flat()| {
        stack.CompleteUndo(operation.value);
      } else if leftBoth || (operation.value.Group? && replayed > 0) {
        if operation.value.Group? {
          stack.CompletePartial(operation.value, replayed, false, leftBoth);
        } else {
          NothingFiled(operation.value, cut);
          NothingAdded(stack.undo);
          NothingAdded(stack.redo);
        }
      } else {
        NothingUnwound(backward, old(store), steps);
        stack.CompleteRedo(operation.value);
      }
    }

    method EditRedo(fate: Fate<St>)
      modifies this, stack
      ensures View() == AfterRedo(forward, old(View()), fate)
      ensures TrackOf(View()) == Moved(TrackOf(old(View())), Redo(fate), Reach(old(stack.redo), fate),
                                       Drops(old(stack.redo), fate))
    {
      RedoMoves(forward, View(), fate);
      hide TrackOf, Moved;
      hide FlatUp, FlatDown, Replay, Unwound, WithoutFirst, Filed;
      var operation := stack.TakeRedo();
      if operation.None? {
        return;
      }
      var replayed, leftBoth := ReplayStep(operation.value, true, fate);
      ghost var steps := operation.value.Flat();
      assert replayed == Reach(old(stack.redo), fate) && leftBoth == Drops(old(stack.redo), fate);
      assert old(stack.redo)[..|old(stack.redo)| - 1] == stack.redo;
      hide Reach, Drops;
      if replayed == |operation.value.Flat()| {
        stack.CompleteRedo(operation.value);
      } else if leftBoth || (operation.value.Group? && replayed > 0) {
        if operation.value.Group? {
          stack.CompletePartial(operation.value, replayed, true, leftBoth);
        } else {
          NothingFiled(operation.value, replayed);
          NothingAdded(stack.undo);
          NothingAdded(stack.redo);
        }
      } else {
        NothingReplayed(forward, old(store), steps);
        stack.CompleteUndo(operation.value);
      }
    }
  }

  lemma NothingAdded<T>(s: seq<T>)
    ensures s + [] == s
  {}

  /** A single step that left both names is gone from both sides. */
  lemma NothingFiled<S>(operation: Operation<S>, cut: nat)
    requires operation.Single? && cut <= 1
    ensures var steps := operation.Flat();
            && Filed(WithoutLast(steps[..cut])) == [] && Filed(WithoutFirst(steps[cut..])) == []
            && (cut == 0 ==> Filed(steps[..cut]) == []) && (cut == 1 ==> Filed(steps[cut..]) == [])
  {}

  lemma NothingUnwound<S(!new), St(!new)>(backward: (S, St) -> St, from: St, steps: seq<S>)
    ensures Unwound(backward, from, steps[|steps|..]) == from
  {}

  lemma NothingReplayed<S(!new), St(!new)>(forward: (S, St) -> St, from: St, steps: seq<S>)
    ensures Replay(forward, from, steps[..0]) == from
  {}

  /** Whole runs: however changes, undos and redos are mixed and wherever replays stop, the session is where the
      commands lead, on the timeline and in the store. */
  method Run<S(!new), St(!new)>(session: Session<S, St>, commands: seq<Command<S, St>>, ghost base: St)
    modifies session, session.stack
    ensures session.View() == After(session.forward, session.backward, old(session.View()), commands)
    ensures TrackOf(session.View()) == TrackAfter(session.forward, session.backward, old(session.View()), commands)
    ensures OnlyReplays(session.forward, session.backward, old(session.View()), commands) ==>
              session.View().Line() == old(session.View()).Line()
    ensures Consistent(session.forward, session.backward, base, old(session.View()))
            && Sound(session.forward, session.backward, old(session.View()), commands)
            ==> session.store == Replay(session.forward, base, session.stack.Past())
  {
    ghost var start := session.View();
    hide AfterChange, AfterUndo, AfterRedo, TrackOf, Invertible;
    for i := 0 to |commands|
      invariant session.View() == After(session.forward, session.backward, start, commands[..i])
    {
      assert commands[..i + 1][..i] == commands[..i];
      match commands[i]
      case Do(steps) => session.Change(steps);
      case Undo(fate) => session.EditUndo(fate);
      case Redo(fate) => session.EditRedo(fate);
    }
    assert commands[..|commands|] == commands;
    RunMovesCursor(session.forward, session.backward, start, commands);
    if OnlyReplays(session.forward, session.backward, start, commands) {
      ReplaysKeepTimeline(session.forward, session.backward, start, commands);
    }
    if Consistent(session.forward, session.backward, base, start)
      && Sound(session.forward, session.backward, start, commands) {
      RunKeepsStore(session.forward, session.backward, base, start, commands);
    }
  }
}
