/** What a .reg file written from operations does to a registry. */
module RegMeaning {
  import opened Text
  import opened ValueFormat
  import opened Operations
  import opened RegistryEffect
  import opened OpenedKeys
  import opened RegReader
  import opened RegWriter
  import opened RegRoundTrip

  lemma UnfoldLists(ops: seq<Operation>, current: Option<wstring>)
    requires ops != []
    ensures var op := ops[0];
            && Sectioned(ops, current) ==
                 (if op.RemoveKey? then [op] + Sectioned(ops[1..], None)
                  else
                    (if current == Some(op.path) then []
                     else [Key(op.path)]) + (Own(op) + Sectioned(ops[1..], Some(op.path))))
            && Opening(ops) == OpeningOne(op) + Opening(ops[1..])
            && (op.RemoveKey? ==> OpeningOne(op) == [op])
    ensures Sectioned([], current) == [] && Opening([]) == []
  {}

  /** The key of an operation, its section open or not. */
  lemma SectionOpens(op: Operation, current: Option<wstring>, reg: Registry)
    requires current.Some? ==> Exists(reg, current.value)
    ensures Replay(if current == Some(op.path) then [] else [Key(op.path)], reg) == Create(reg, ToLower(op.path))
  {
    var key := Key(op.path);
    ReplayFew(key, key, reg);
    if current == Some(op.path) { CreateExisting(reg, op.path); }
    hide Exists, Create, ToLower;
  }

  /** Sections mean the operations, each removal of a value after creating its key. */
  lemma {:induction false} SectionsMean(ops: seq<Operation>, current: Option<wstring>, reg: Registry)
    requires current.Some? ==> Exists(reg, current.value)
    ensures Replay(Sectioned(ops, current), reg) == Replay(Opening(ops), reg)
    decreases |ops|
  {
    hide Exists, Replay, Apply, Opening, OpeningOne, Own, Sectioned, Create;
    if ops == [] {
      UnfoldLists([Key([])], current);
    } else {
      var op, rest := ops[0], ops[1..];
      UnfoldLists(ops, current);
      if op.RemoveKey? {
        ReplayConcat([op], Sectioned(rest, None), reg);
        ReplayConcat([op], Opening(rest), reg);
        SectionsMean(rest, None, Replay([op], reg));
      } else {
        var opens := if current == Some(op.path) then [] else [Key(op.path)];
        SectionOpens(op, current, reg);
        OpenThenOwn(op, opens, reg);
        ConcatAssoc(opens, Own(op), Sectioned(rest, Some(op.path)));
        ReplayConcat(opens + Own(op), Sectioned(rest, Some(op.path)), reg);
        ReplayConcat(OpeningOne(op), Opening(rest), reg);
        SectionsMean(rest, Some(op.path), Replay(opens + Own(op), reg));
      }
    }
  }

  /** A written file does what the operations do, each removal of a value after creating its key. */
  lemma RegKeepsMeaning(cp: CodePage, ops: seq<Operation>, reg: Registry)
    requires (forall i :: 0 <= i < |ops| ==> Storable(ops[i])) && NamesCrlfFree(ops)
    ensures Parsed(cp, RegText(ops)).Some? && Replay(Parsed(cp, RegText(ops)).value, reg) == Replay(Opening(ops), reg)
  {
    hide Storable, NamesCrlfFree, Parsed, RegText, Exists, Replay, Opening, Sectioned;
    RegRoundTripExact(cp, ops);
    SectionsMean(ops, None, reg);
  }
}
