/** What a rendered batch script does: the effect of the operations that were not skipped. */
module BatchMeaning {
  import opened Text
  import opened ValueFormat
  import opened Operations
  import opened RegistryEffect
  import opened OpenedKeys
  import opened KeyPaths
  import opened BatchReader
  import opened BatchWriter
  import opened BatchRoundTrip

  // ----- the script is read back

  predicate PlanIsSound(plan: Plan) {
    AreWritable(plan.emitted) && AreWritable(plan.pending)
  }

  lemma FaultlessIsWritable(op: Operation)
    requires Normalized(op.path)
    ensures Fault(op).None? ==> IsWritable(op)
    ensures op.Key? && NameFault(op).None? ==> IsWritable(op)
  {
    hide Normalized, NameFault, BatchData, LineOf, IsWellFormedUtf16;
  }

  lemma {:induction false} PlannedIsSound(ops: seq<Operation>, i: nat)
    requires AreNormalized(ops) && i <= |ops|
    ensures PlanIsSound(Planned(ops, i))
    decreases i
  {
    hide Fault, NameFault, IsWritable, Normalized, IsUnderKey;
    if i > 0 {
      PlannedIsSound(ops, i - 1);
      assert Normalized(ops[i - 1].path);
      FaultlessIsWritable(ops[i - 1]);
    }
  }

  /** The reader accepts every rendered script and returns exactly the operations it holds. */
  lemma BatchIsReadBack(ops: seq<Operation>, adminCheck: bool)
    requires AreNormalized(ops)
    ensures BatchOperations(Rendered(ops, adminCheck)) == Some(Emitted(ops))
  {
    hide BatchOperations, Script, LinesText, NeedsAdmin, AreWritable, Planned;
    PlannedIsSound(ops, |ops|);
    ScriptIsReadBack(Emitted(ops), adminCheck && NeedsAdmin(ops));
  }

  // ----- its effect

  /** The first `i` operations without the skipped ones. */
  function KeptUpTo(ops: seq<Operation>, i: nat): seq<Operation>
    requires i <= |ops|
  {
    if i == 0 then []
    else
      var before := KeptUpTo(ops, i - 1);
      if IsDeferred(ops, i - 1) || Fault(ops[i - 1]).None? then before + [ops[i - 1]] else before
  }

  function Kept(ops: seq<Operation>): seq<Operation> {
    KeptUpTo(ops, |ops|)
  }

  /** A key operation is redundant before an operation that creates the key as well. */
  lemma KeyIsCovered(key: Operation, next: Operation, reg: Registry)
    requires key.Key? && (next.Key? || next.SetValue?) && IsUnderKey(next.path, key.path)
    ensures Apply(next, Apply(key, reg)) == Apply(next, reg)
  {
    UnderKeyIsUnder(next.path, key.path);
    CreateTwice(reg, ToLower(key.path), ToLower(next.path));
    hide Create, Alter, IsUnderKey, Under;
  }

  lemma ReplayOne(ops: seq<Operation>, op: Operation, reg: Registry)
    ensures Replay(ops + [op], reg) == Apply(op, Replay(ops, reg))
  {
    hide Apply;
    assert (ops + [op])[..|ops|] == ops;
  }

  /** Dropping the waiting key before the operation that covers it. */
  lemma DropWaiting(emitted: seq<Operation>, pending: seq<Operation>, op: Operation, reg: Registry)
    requires pending == [] || (|pending| == 1 && pending[0].Key? && (op.Key? || op.SetValue?)
                               && IsUnderKey(op.path, pending[0].path))
    ensures Replay(emitted + pending + [op], reg) == Replay(emitted + [op], reg)
  {
    hide Apply, Replay, IsUnderKey;
    if pending == [] {
      assert emitted + pending == emitted;
    } else {
      assert pending == [pending[0]];
      ReplayOne(emitted, pending[0], reg);
      ReplayOne(emitted + pending, op, reg);
      ReplayOne(emitted, op, reg);
      KeyIsCovered(pending[0], op, Replay(emitted, reg));
    }
  }

  /** The operation that waits is covered by the next one. */
  lemma WaitingIsCovered(ops: seq<Operation>, i: nat)
    requires i <= |ops|
    ensures var pending := Planned(ops, i).pending;
            pending == [] || (i > 0 && pending == [ops[i - 1]] && IsDeferred(ops, i - 1))
  {
    hide Fault, IsDeferred;
  }

  lemma {:induction false} PlannedEffect(ops: seq<Operation>, i: nat, reg: Registry)
    requires i <= |ops|
    ensures Replay(Planned(ops, i).emitted + Planned(ops, i).pending, reg) == Replay(KeptUpTo(ops, i), reg)
    decreases i
  {
    hide Replay, PlanStep, Fault, IsDeferred;
    if i == 0 {
      NothingPlanned(ops);
    } else {
      PlannedEffect(ops, i - 1, reg);
      PlannedStepEffect(ops, i - 1, Planned(ops, i - 1), KeptUpTo(ops, i - 1), reg);
    }
  }

  lemma NothingPlanned(ops: seq<Operation>)
    ensures Planned(ops, 0).emitted + Planned(ops, 0).pending == KeptUpTo(ops, 0)
  {}

  lemma PlannedStepEffect(ops: seq<Operation>, i: nat, plan: Plan, kept: seq<Operation>, reg: Registry)
    requires i < |ops| && plan == Planned(ops, i)
    requires Replay(plan.emitted + plan.pending, reg) == Replay(kept, reg)
    ensures var after := PlanStep(ops, i, plan);
            Replay(after.emitted + after.pending, reg)
            == Replay(if IsDeferred(ops, i) || Fault(ops[i]).None? then kept + [ops[i]] else kept, reg)
  {
    WaitingIsCovered(ops, i);
    var op := ops[i];
    ReplayOne(kept, op, reg);
    ReplayOne(plan.emitted + plan.pending, op, reg);
    var none: seq<Operation> := [];
    assert plan.emitted + plan.pending + none == plan.emitted + plan.pending;
    assert plan.emitted + [op] + none == plan.emitted + [op];
    hide Fault, NameFault, Apply, Replay, IsUnderKey, Planned;
    if IsDeferred(ops, i) || Fault(op).None? {
      if plan.pending == [] || (op.Key? || op.SetValue?) { DropWaiting(plan.emitted, plan.pending, op, reg); }
    }
  }

  /** The script has the effect of the operations without the skipped ones, on every registry. */
  lemma BatchKeepsMeaning(ops: seq<Operation>, adminCheck: bool, reg: Registry)
    requires AreNormalized(ops)
    ensures BatchOperations(Rendered(ops, adminCheck)).Some?
    ensures Replay(BatchOperations(Rendered(ops, adminCheck)).value, reg) == Replay(Kept(ops), reg)
  {
    hide *;
    BatchIsReadBack(ops, adminCheck);
    PlannedEffect(ops, |ops|, reg);
    NothingPending(ops);
    EmittedIs(ops);
  }

  lemma EmittedIs(ops: seq<Operation>)
    ensures Emitted(ops) == Planned(ops, |ops|).emitted && Kept(ops) == KeptUpTo(ops, |ops|)
    ensures Planned(ops, |ops|).pending == [] ==>
              Planned(ops, |ops|).emitted + Planned(ops, |ops|).pending == Planned(ops, |ops|).emitted
  {
    hide PlanStep;
  }

  /** A kept operation has a line, or is a key that a later line creates. */
  predicate HasLine(ops: seq<Operation>, i: nat, j: nat, emitted: seq<Operation>)
    requires i < |ops|
  {
    && i <= j < |ops| && ops[j] in emitted
    && (i == j || (ops[i].Key? && (ops[j].Key? || ops[j].SetValue?)
                   && Under(ToLower(ops[i].path), ToLower(ops[j].path))))
  }

  lemma {:induction false} EmittedGrows(ops: seq<Operation>, i: nat, j: nat)
    requires i <= j <= |ops|
    ensures Planned(ops, i).emitted <= Planned(ops, j).emitted
    decreases j - i
  {
    hide Fault, IsDeferred;
    if i < j { EmittedGrows(ops, i, j - 1); }
  }

  /** A key line is dropped only when a later line creates that key; every other kept operation has its own line. */
  lemma {:induction false} KeptHasLine(ops: seq<Operation>, i: nat) returns (j: nat)
    requires i < |ops| && (IsDeferred(ops, i) || Fault(ops[i]).None?)
    ensures HasLine(ops, i, j, Emitted(ops))
    decreases |ops| - i
  {
    hide Fault, NameFault, IsUnderKey, Under;
    j := i;
    if !IsDeferred(ops, i) {
      assert ops[i] in Planned(ops, i + 1).emitted;
      EmittedGrows(ops, i + 1, |ops|);
    } else {
      UnderKeyIsUnder(ops[i + 1].path, ops[i].path);
      if IsDeferred(ops, i + 1) || Fault(ops[i + 1]).None? {
        j := KeptHasLine(ops, i + 1);
        if j > i + 1 { UnderTransitive(ToLower(ops[i].path), ToLower(ops[i + 1].path), ToLower(ops[j].path)); }
      } else {
        assert Planned(ops, i + 1).pending == [ops[i]];
        assert ops[i] in Planned(ops, i + 2).emitted by { LastIsEmitted(ops, i); }
        EmittedGrows(ops, i + 2, |ops|);
      }
    }
  }

  lemma LastIsEmitted(ops: seq<Operation>, i: nat)
    requires i + 1 < |ops| && Planned(ops, i + 1).pending == [ops[i]] && !IsDeferred(ops, i + 1)
             && Fault(ops[i + 1]).Some?
    ensures ops[i] in Planned(ops, i + 2).emitted
  {
    hide Fault, IsDeferred;
    var plan := Planned(ops, i + 1);
    assert Planned(ops, i + 2).emitted == plan.emitted + plan.pending;
    assert plan.pending[0] == ops[i];
  }
}
