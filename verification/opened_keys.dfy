/** Scripts that open a key before every value on it: what the opening adds to the effect of the operations. */
module OpenedKeys {
  import opened Text
  import opened ValueFormat
  import opened Operations
  import opened RegistryEffect
  import opened KeyViews

  /** A key and every key above it exist. */
  predicate Exists(reg: Registry, path: wstring) {
    forall a :: a in Ancestors(ToLower(path)) ==> a in reg
  }

  /** The operation, the key of a value to remove opened first. */
  function OpeningOne(op: Operation): seq<Operation> {
    if op.RemoveValue? then [Key(op.path), op] else [op]
  }

  function Opening(ops: seq<Operation>): seq<Operation> {
    if ops == [] then [] else OpeningOne(ops[0]) + Opening(ops[1..])
  }

  lemma CreateExisting(reg: Registry, path: wstring)
    requires Exists(reg, path)
    ensures Create(reg, ToLower(path)) == reg
  {
    hide Ancestors;
    var p := ToLower(path);
    assert Create(reg, p).Keys == reg.Keys;
  }

  /** Creating a key and then one at or below it is creating the second. */
  lemma CreateTwice(reg: Registry, p: wstring, q: wstring)
    requires Under(p, q)
    ensures Create(Create(reg, p), q) == Create(reg, q)
  {
    forall a | a in Ancestors(p) ensures a in Ancestors(q) { UnderTransitive(a, p, q); }
    hide Under;
  }

  lemma SetAfterCreate(reg: Registry, path: wstring, value: RegistryValue)
    ensures Apply(SetValue(path, value), Create(reg, ToLower(path))) == Apply(SetValue(path, value), reg)
  {
    CreateTwice(reg, ToLower(path), ToLower(path));
    hide Create, Alter;
  }

  lemma ReplayFew(op: Operation, next: Operation, reg: Registry)
    ensures Replay([], reg) == reg && Replay([op], reg) == Apply(op, reg)
            && Replay([op, next], reg) == Apply(next, Apply(op, reg))
  {
    assert [op][..0] == [] && [op, next][..1] == [op];
    hide Apply;
  }

  /** Opening the key of an operation, by whatever creates it, and then running the operation. */
  lemma OpenThenOwn(op: Operation, opens: seq<Operation>, reg: Registry)
    requires !op.RemoveKey? && Replay(opens, reg) == Create(reg, ToLower(op.path))
    ensures var held := opens + Own(op);
            && Replay(held, reg) == Replay(OpeningOne(op), reg) && Exists(Replay(held, reg), op.path)
            && reg.Keys <= Replay(held, reg).Keys
  {
    var p, key := ToLower(op.path), Key(op.path);
    var created := Create(reg, p);
    assert reg.Keys <= created.Keys;
    ReplayFew(op, op, created);
    ReplayFew(op, op, reg);
    ReplayFew(key, op, reg);
    ReplayConcat(opens, Own(op), reg);
    if op.SetValue? { SetAfterCreate(reg, op.path, op.value); }
    assert Apply(key, reg) == created;
    hide Apply, Replay, Create, Exists, ToLower;
  }

  // ----- what the opening adds

  /** The keys that are opened for removals of values and that no later deletion reaches. */
  function Extra(ops: seq<Operation>): set<wstring> {
    if ops == [] then {}
    else
      var before := Extra(ops[..|ops| - 1]);
      match ops[|ops| - 1]
      case RemoveValue(path, _) => before + Ancestors(ToLower(path))
      case RemoveKey(path) => set k | k in before && !Under(ToLower(path), k)
      case _ => before
  }

  lemma {:induction false} OpeningAppends(ops: seq<Operation>, op: Operation)
    ensures Opening(ops + [op]) == Opening(ops) + OpeningOne(op)
    decreases |ops|
  {
    hide OpeningOne;
    if ops == [] {
      assert [] + [op] == [op] && [op][1..] == [];
      assert OpeningOne(op) + [] == [] + OpeningOne(op);
    } else {
      OpeningAppends(ops[1..], op);
      assert (ops + [op])[1..] == ops[1..] + [op] && (ops + [op])[0] == ops[0];
      ConcatAssoc(OpeningOne(ops[0]), Opening(ops[1..]), OpeningOne(op));
    }
  }

  /** One operation, its key opened first, at a key that may stand without values. */
  lemma OpenedAt(op: Operation, extra: bool, k: wstring, s: Option<Values>)
    ensures OpsAt(OpeningOne(op), k, WithEmpty(s, extra))
            == WithEmpty(OpAt(op, k, s),
                         if op.RemoveValue? then extra || Under(k, ToLower(op.path))
                         else extra && !(op.RemoveKey? && Under(ToLower(op.path), k)))
  {
    var was := WithEmpty(s, extra);
    OpsFew(Key(op.path), op, k, was);
    OpsFew(op, op, k, was);
    hide ToLower, OpsAt;
    if op.RemoveValue? && k == ToLower(op.path) && s.None? {
      var none: Values := map[];
      assert none - {ToLower(op.name)} == none;
    }
  }

  lemma OpsFew(op: Operation, next: Operation, k: wstring, s: Option<Values>)
    ensures OpsAt([op], k, s) == OpAt(op, k, s) && OpsAt([op, next], k, s) == OpAt(next, k, OpAt(op, k, s))
  {
    hide OpAt;
    assert [op][..0] == [] && [op, next][..1] == [op];
    assert OpsAt([], k, s) == s;
  }

  lemma {:induction false} OpsAtConcat(a: seq<Operation>, b: seq<Operation>, k: wstring, s: Option<Values>)
    ensures OpsAt(a + b, k, s) == OpsAt(b, k, OpsAt(a, k, s))
    decreases |b|
  {
    hide OpAt;
    if b == [] {
      assert a + b == a;
    } else {
      assert (a + b)[..|a + b| - 1] == a + b[..|b| - 1];
      OpsAtConcat(a, b[..|b| - 1], k, s);
    }
  }

  lemma {:induction false} OpeningAt(ops: seq<Operation>, k: wstring, s: Option<Values>)
    ensures OpsAt(Opening(ops), k, s) == WithEmpty(OpsAt(ops, k, s), k in Extra(ops))
    decreases |ops|
  {
    hide OpAt, OpeningOne, Under, Opening;
    if ops == [] {
      assert Opening([]) == [] by { OpeningNothing(); }
    } else {
      var before, op := ops[..|ops| - 1], ops[|ops| - 1];
      OpeningAt(before, k, s);
      assert before + [op] == ops;
      OpeningAppends(before, op);
      OpsAtConcat(Opening(before), OpeningOne(op), k, s);
      OpenedAt(op, k in Extra(before), k, OpsAt(before, k, s));
      hide WithEmpty, OpsAt;
    }
  }

  lemma OpeningNothing()
    ensures Opening([]) == []
  {}

  /** On every registry, opening keys first does what the operations do, and leaves the keys opened besides. */
  lemma OpeningKeepsMeaning(ops: seq<Operation>, reg: Registry)
    ensures Replay(Opening(ops), reg) == AddEmpty(Replay(ops, reg), Extra(ops))
  {
    hide *;
    forall k ensures At(Replay(Opening(ops), reg), k) == At(AddEmpty(Replay(ops, reg), Extra(ops)), k) {
      ReplayAt(Opening(ops), reg, k);
      ReplayAt(ops, reg, k);
      OpeningAt(ops, k, At(reg, k));
      WithEmptyAt(Replay(ops, reg), Extra(ops), k);
    }
    SameEverywhere(Replay(Opening(ops), reg), AddEmpty(Replay(ops, reg), Extra(ops)));
  }

  /** Opening keys first changes nothing exactly when the operations leave every one of them. */
  lemma OpeningIsExact(ops: seq<Operation>, reg: Registry)
    ensures Replay(Opening(ops), reg) == Replay(ops, reg) <==> Extra(ops) <= Replay(ops, reg).Keys
  {
    hide Replay, Opening, Extra;
    OpeningKeepsMeaning(ops, reg);
    var after := Replay(ops, reg);
    if Extra(ops) <= after.Keys {
      assert after.Keys + Extra(ops) == after.Keys;
    }
  }

  lemma {:induction false} KeysGrow(ops: seq<Operation>, reg: Registry, k: wstring)
    requires k in Replay(ops, map[])
    ensures k in Replay(ops, reg)
    decreases |ops|
  {
    ReplayAt(ops, map[], k);
    ReplayAt(ops, reg, k);
    OpsAtGrows(ops, k, At(map[], k), At(reg, k));
    hide OpsAt, Replay;
  }

  lemma {:induction false} OpsAtGrows(ops: seq<Operation>, k: wstring, s: Option<Values>, more: Option<Values>)
    requires OpsAt(ops, k, s).Some? && s.None?
    ensures OpsAt(ops, k, more).Some?
    decreases |ops|
  {
    hide Under, ToLower;
    if OpsAt(ops[..|ops| - 1], k, s).Some? { OpsAtGrows(ops[..|ops| - 1], k, s, more); }
  }

  /** On all registries: exactly when the operations leave those keys even where there was nothing before. */
  lemma OpeningIsExactEverywhere(ops: seq<Operation>)
    ensures (forall reg: Registry :: Replay(Opening(ops), reg) == Replay(ops, reg))
            <==> Extra(ops) <= Replay(ops, map[]).Keys
  {
    hide Replay, Opening, Extra;
    OpeningIsExact(ops, map[]);
    if Extra(ops) <= Replay(ops, map[]).Keys {
      forall reg: Registry ensures Replay(Opening(ops), reg) == Replay(ops, reg) {
        OpeningIsExact(ops, reg);
        forall k | k in Extra(ops) ensures k in Replay(ops, reg) { KeysGrow(ops, reg, k); }
      }
    }
  }
}
