/** The three script formats mean the same. */
module FormatsAgree {
  import opened ValueFormat
  import opened Operations
  import opened RegistryEffect
  import opened OpenedKeys
  import opened KeyPaths
  import RegReader
  import RegWriter
  import RegRoundTrip
  import RegMeaning
  import BatchReader
  import BatchWriter
  import BatchMeaning
  import PowerShellWriter
  import PowerShellInterpreter
  import PowerShellMeaning

  /** No format skips an operation or changes a name. */
  predicate IsPortable(op: Operation) {
    RegRoundTrip.Storable(op) && Normalized(op.path) && BatchWriter.Fault(op).None? && PowerShellWriter.Fault(op).None?
  }

  predicate ArePortable(ops: seq<Operation>) {
    (forall i :: 0 <= i < |ops| ==> IsPortable(ops[i])) && RegRoundTrip.NamesCrlfFree(ops)
  }

  lemma {:induction false} BatchKeepsAll(ops: seq<Operation>, i: nat)
    requires i <= |ops| && ArePortable(ops)
    ensures BatchMeaning.KeptUpTo(ops, i) == ops[..i]
    decreases i
  {
    hide BatchWriter.Fault, BatchWriter.IsDeferred, ArePortable;
    if i > 0 {
      BatchKeepsAll(ops, i - 1);
      BatchHoldsOne(ops, i - 1);
      assert ops[..i - 1] + [ops[i - 1]] == ops[..i];
    }
  }

  lemma BatchHoldsOne(ops: seq<Operation>, i: nat)
    requires i < |ops| && ArePortable(ops)
    ensures BatchWriter.Fault(ops[i]).None?
  {
    hide BatchWriter.Fault, PowerShellWriter.Fault, RegRoundTrip.Storable, Normalized, RegRoundTrip.NamesCrlfFree;
    assert IsPortable(ops[i]);
  }

  lemma {:induction false} PowerShellKeepsAll(ops: seq<Operation>)
    requires forall i :: 0 <= i < |ops| ==> PowerShellWriter.Fault(ops[i]).None?
    ensures PowerShellMeaning.KeptOps(ops) == ops
    decreases |ops|
  {
    hide PowerShellWriter.Fault;
    if ops != [] {
      assert forall i :: 0 <= i < |ops| - 1 ==> ops[1..][i] == ops[i + 1];
      PowerShellKeepsAll(ops[1..]);
    }
  }

  lemma PortableParts(ops: seq<Operation>)
    requires ArePortable(ops)
    ensures AreNormalized(ops) && RegRoundTrip.NamesCrlfFree(ops)
            && forall i :: 0 <= i < |ops| ==> RegRoundTrip.Storable(ops[i])
    ensures forall i :: 0 <= i < |ops| ==> PowerShellWriter.Fault(ops[i]).None?
  {
    hide RegRoundTrip.Storable, Normalized, BatchWriter.Fault, PowerShellWriter.Fault, RegRoundTrip.NamesCrlfFree;
    forall i | 0 <= i < |ops|
      ensures Normalized(ops[i].path) && RegRoundTrip.Storable(ops[i]) && PowerShellWriter.Fault(ops[i]).None?
    {
      assert IsPortable(ops[i]);
    }
  }

  /** What was read does what the operations do. */
  predicate Means(read: Option<seq<Operation>>, ops: seq<Operation>, reg: Registry) {
    read.Some? && Replay(read.value, reg) == Replay(ops, reg)
  }

  /** Written as a batch script and read back, operations that every format can hold do what they do themselves;
      written as a .reg file or a PowerShell script, exactly when they leave the keys that these open. */
  lemma FormatsAgree(cp: RegReader.CodePage, ops: seq<Operation>, adminCheck: bool, reg: Registry)
    requires ArePortable(ops) && PowerShellMeaning.HasRoots(reg)
    ensures Means(BatchReader.BatchOperations(BatchWriter.Rendered(ops, adminCheck)), ops, reg)
    ensures Means(RegReader.Parsed(cp, RegWriter.RegText(ops)), ops, reg) <==> Extra(ops) <= Replay(ops, reg).Keys
    ensures Means(PowerShellInterpreter.PowerShellOperations(PowerShellWriter.Rendered(ops, adminCheck)), ops, reg)
            <==> Extra(ops) <= Replay(ops, reg).Keys
  {
    hide *;
    PortableParts(ops);
    OpeningIsExact(ops, reg);
    RegMeaning.RegKeepsMeaning(cp, ops, reg);
    BatchMeaning.BatchKeepsMeaning(ops, adminCheck, reg);
    BatchKeepsAll(ops, |ops|);
    KeptIs(ops);
    PowerShellKeepsAll(ops);
    PowerShellMeaning.PowerShellKeepsMeaning(ops, adminCheck, reg);
    MeansIs(RegReader.Parsed(cp, RegWriter.RegText(ops)), ops, reg);
    MeansIs(BatchReader.BatchOperations(BatchWriter.Rendered(ops, adminCheck)), ops, reg);
    MeansIs(PowerShellInterpreter.PowerShellOperations(PowerShellWriter.Rendered(ops, adminCheck)), ops, reg);
  }

  lemma MeansIs(read: Option<seq<Operation>>, ops: seq<Operation>, reg: Registry)
    requires read.Some?
    ensures Means(read, ops, reg) <==> Replay(read.value, reg) == Replay(ops, reg)
  {
    hide Replay;
  }

  lemma KeptIs(ops: seq<Operation>)
    ensures BatchMeaning.Kept(ops) == BatchMeaning.KeptUpTo(ops, |ops|) && ops[..|ops|] == ops
  {}
}
