/** The undo and redo stacks, and the replay of their operations on a store. */
module UndoStacks {
  import opened ValueFormat

  /** A change is one step or, for a mass change, a group of steps in original order. */
  datatype Operation<S> = Single(step: S) | Group(steps: seq<S>)
  {
    function Flat(): seq<S> {
      match this
      case Single(s) => [s]
      case Group(ss) => ss
    }
  }

  /** Steps of a stack from bottom to top. */
  function FlatUp<S>(stack: seq<Operation<S>>): seq<S> {
    if stack == [] then [] else FlatUp(stack[..|stack| - 1]) + stack[|stack| - 1].Flat()
  }

  /** Steps of a stack from top to bottom. */
  function FlatDown<S>(stack: seq<Operation<S>>): seq<S> {
    if stack == [] then [] else stack[|stack| - 1].Flat() + FlatDown(stack[..|stack| - 1])
  }

  /** Everything the stacks remember, oldest step first; the cursor sits after the undo side. */
  function Timeline<S>(undo: seq<Operation<S>>, redo: seq<Operation<S>>): seq<S> {
    FlatUp(undo) + FlatDown(redo)
  }

  /** The operation a change is recorded as: nothing, one step, or a group. */
  function Recorded<S>(steps: seq<S>): seq<Operation<S>> {
    if |steps| == 1 then [Single(steps[0])] else Filed(steps)
  }

  /** Steps as they are pushed back: a group, or nothing when none are left. */
  function Filed<S>(steps: seq<S>): seq<Operation<S>> {
    if steps == [] then [] else [Group(steps)]
  }

  function WithoutLast<T>(s: seq<T>): seq<T> {
    if s == [] then s else s[..|s| - 1]
  }

  function WithoutFirst<T>(s: seq<T>): seq<T> {
    if s == [] then s else s[1..]
  }

  lemma FlatUpPush<S>(stack: seq<Operation<S>>, op: Operation<S>)
    ensures FlatUp(stack + [op]) == FlatUp(stack) + op.Flat()
    ensures FlatDown(stack + [op]) == op.Flat() + FlatDown(stack)
  {
    assert (stack + [op])[..|stack|] == stack;
  }

  lemma FlatFiled<S>(stack: seq<Operation<S>>, steps: seq<S>)
    ensures FlatUp(stack + Filed(steps)) == FlatUp(stack) + steps
    ensures FlatDown(stack + Filed(steps)) == steps + FlatDown(stack)
    ensures steps == [] ==> stack + Filed(steps) == stack
  {
    if steps == [] {
      assert stack + Filed(steps) == stack;
    } else {
      FlatUpPush(stack, Group(steps));
    }
  }

  lemma FlatUpTop<S>(stack: seq<Operation<S>>)
    requires stack != []
    ensures FlatUp(stack) == FlatUp(stack[..|stack| - 1]) + stack[|stack| - 1].Flat()
    ensures FlatDown(stack) == stack[|stack| - 1].Flat() + FlatDown(stack[..|stack| - 1])
  {}

  class UndoStack<S> {
    var undo: seq<Operation<S>>
    var redo: seq<Operation<S>>

    ghost function Past(): seq<S> reads this { FlatUp(undo) }

    ghost function Future(): seq<S> reads this { FlatDown(redo) }

    constructor ()
      ensures undo == [] && redo == []
    {
      undo, redo := [], [];
    }

    method Push(operation: Operation<S>)
      modifies this
      ensures Past() == old(Past()) + operation.Flat() && Future() == []
      ensures undo == old(undo) + [operation] && redo == []
    {
      FlatUpPush(undo, operation);
      undo := undo + [operation];
      redo := [];
    }

    /** A mass change: nothing for no step, the step itself for one, a group otherwise. */
    method PushSteps(steps: seq<S>)
      modifies this
      ensures Past() == old(Past()) + steps
      ensures Future() == if steps == [] then old(Future()) else []
      ensures undo == old(undo) + Recorded(steps)
      ensures redo == if steps == [] then old(redo) else []
    {
      if |steps| == 1 {
        Push(Single(steps[0]));
        return;
      }
      if steps != [] {
        Push(Group(steps));
      }
    }

    /** Splits a group whose first `replayed` steps (in replay order) went through: they change sides,
        the rest stays, and the step that failed is dropped on request. */
    method CompletePartial(group: Operation<S>, replayed: nat, isRedo: bool, dropFailed: bool)
      requires group.Group? && replayed <= |group.steps|
      modifies this
      ensures !isRedo ==>
                var rest := group.steps[..|group.steps| - replayed];
                && Future() == group.steps[|group.steps| - replayed..] + old(Future())
                && Past() == old(Past()) + (if dropFailed then WithoutLast(rest) else rest)
                && redo == old(redo) + Filed(group.steps[|group.steps| - replayed..])
                && undo == old(undo) + Filed(if dropFailed then WithoutLast(rest) else rest)
      ensures isRedo ==>
                var rest := group.steps[replayed..];
                && Past() == old(Past()) + group.steps[..replayed]
                && Future() == (if dropFailed then WithoutFirst(rest) else rest) + old(Future())
                && undo == old(undo) + Filed(group.steps[..replayed])
                && redo == old(redo) + Filed(if dropFailed then WithoutFirst(rest) else rest)
    {
      hide FlatUp, FlatDown, WithoutLast, WithoutFirst;
      var done, steps := CutReplayed(group.steps, replayed, isRedo, dropFailed);
      FlatFiled(undo, if isRedo then done else steps);
      FlatFiled(redo, if isRedo then steps else done);
      if done != [] {
        PushGroup(done, isRedo);
      }
      if steps != [] {
        PushGroup(steps, !isRedo);
      }
    }

    static method CutReplayed(all: seq<S>, replayed: nat, isRedo: bool, dropFailed: bool)
      returns (done: seq<S>, steps: seq<S>)
      requires replayed <= |all|
      ensures !isRedo ==> done == all[|all| - replayed..]
                          && steps == if dropFailed then WithoutLast(all[..|all| - replayed])
                                      else all[..|all| - replayed]
      ensures isRedo ==>
                done == all[..replayed] && steps == if dropFailed then WithoutFirst(all[replayed..])
                                                    else all[replayed..]
    {
      var first := if isRedo then 0 else |all| - replayed;
      var last := first + replayed;
      done := all[first..last];
      steps := all[..first] + all[last..];
      if dropFailed && steps != [] {
        steps := if isRedo then steps[1..] else steps[..|steps| - 1];
      }
    }

    /** Pushes a group on one of the two sides, leaving the other alone. */
    method PushGroup(steps: seq<S>, onUndo: bool)
      modifies this
      ensures undo == if onUndo then old(undo) + [Group(steps)] else old(undo)
      ensures redo == if onUndo then old(redo) else old(redo) + [Group(steps)]
    {
      if onUndo {
        undo := undo + [Group(steps)];
      } else {
        redo := redo + [Group(steps)];
      }
    }

    method TakeUndo() returns (operation: Option<Operation<S>>)
      modifies this
      ensures operation.None? <==> old(undo) == []
      ensures operation.None? ==> undo == old(undo)
      ensures operation.Some? ==>
                old(undo) == undo + [operation.value] && old(Past()) == Past() + operation.value.Flat()
      ensures redo == old(redo) && Future() == old(Future())
    {
      if undo == [] {
        return None;
      }
      FlatUpTop(undo);
      operation := Some(undo[|undo| - 1]);
      undo := undo[..|undo| - 1];
    }

    method TakeRedo() returns (operation: Option<Operation<S>>)
      modifies this
      ensures operation.None? <==> old(redo) == []
      ensures operation.None? ==> redo == old(redo)
      ensures operation.Some? ==>
                old(redo) == redo + [operation.value] && old(Future()) == operation.value.Flat() + Future()
      ensures undo == old(undo) && Past() == old(Past())
    {
      if redo == [] {
        return None;
      }
      FlatUpTop(redo);
      operation := Some(redo[|redo| - 1]);
      redo := redo[..|redo| - 1];
    }

    method CompleteUndo(operation: Operation<S>)
      modifies this
      ensures redo == old(redo) + [operation] && undo == old(undo)
      ensures Past() == old(Past()) && Future() == operation.Flat() + old(Future())
    {
      FlatUpPush(redo, operation);
      redo := redo + [operation];
    }

    method CompleteRedo(operation: Operation<S>)
      modifies this
      ensures undo == old(undo) + [operation] && redo == old(redo)
      ensures Past() == old(Past()) + operation.Flat() && Future() == old(Future())
    {
      FlatUpPush(undo, operation);
      undo := undo + [operation];
    }
  }
}
