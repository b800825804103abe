/** A registry seen one key at a time: what operations do to a single key. */
module KeyViews {
  import opened Text
  import opened ValueFormat
  import opened Operations
  import opened RegistryEffect

  /** A key's values, or None when it is missing. */
  function At(reg: Registry, k: wstring): Option<Values> {
    if k in reg then Some(reg[k]) else None
  }

  function Made(s: Option<Values>): Option<Values> {
    if s.None? then Some(map[]) else s
  }

  /** What one operation does to the key k. */
  function OpAt(op: Operation, k: wstring, s: Option<Values>): Option<Values> {
    match op
    case Key(p) => if Under(k, ToLower(p)) then Made(s) else s
    case RemoveKey(p) => if Under(ToLower(p), k) then None else s
    case SetValue(p, v) =>
      if k == ToLower(p) then Some(Made(s).value[ToLower(v.name) := (v.kind, v.data)])
      else if Under(k, ToLower(p)) then Made(s)
      else s
    case RemoveValue(p, n) => if k == ToLower(p) && s.Some? then Some(s.value - {ToLower(n)}) else s
  }

  lemma ApplyAt(op: Operation, reg: Registry, k: wstring)
    ensures At(Apply(op, reg), k) == OpAt(op, k, At(reg, k))
  {}

  function OpsAt(ops: seq<Operation>, k: wstring, s: Option<Values>): Option<Values> {
    if ops == [] then s else OpAt(ops[|ops| - 1], k, OpsAt(ops[..|ops| - 1], k, s))
  }

  lemma {:induction false} ReplayAt(ops: seq<Operation>, reg: Registry, k: wstring)
    ensures At(Replay(ops, reg), k) == OpsAt(ops, k, At(reg, k))
    decreases |ops|
  {
    hide Apply, OpAt, At;
    if ops != [] {
      ReplayAt(ops[..|ops| - 1], reg, k);
      ApplyAt(ops[|ops| - 1], Replay(ops[..|ops| - 1], reg), k);
    }
  }

  /** A key that may exist without values. */
  function WithEmpty(s: Option<Values>, more: bool): Option<Values> {
    if more then Made(s) else s
  }

  lemma WithEmptyAt(reg: Registry, keys: set<wstring>, k: wstring)
    ensures At(AddEmpty(reg, keys), k) == WithEmpty(At(reg, k), k in keys)
  {}

  lemma SameEverywhere(a: Registry, b: Registry)
    requires forall k :: At(a, k) == At(b, k)
    ensures a == b
  {
    assert forall k :: k in a <==> k in b by {
      forall k ensures k in a <==> k in b { assert At(a, k) == At(b, k); }
    }
    forall k | k in a ensures a[k] == b[k] { assert At(a, k) == At(b, k); }
  }
}
