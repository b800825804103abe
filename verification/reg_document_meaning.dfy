/** What a document does to a registry, compared with the operations it was folded from. */
module RegDocumentMeaning {
  import opened Text
  import opened ValueFormat
  import opened Operations
  import opened RegistryEffect
  import opened KeyViews
  import opened RegDocument
  import opened RegReader

  // ----- replaying a document

  predicate IsCreating(key: DocKey) {
    !key.removed || key.recreated
  }

  function Lowered(names: seq<wstring>): set<wstring> {
    set i | 0 <= i < |names| :: ToLower(names[i])
  }

  function Stored(values: map<wstring, RegistryValue>): Values {
    map n | n in values :: (values[n].kind, values[n].data)
  }

  /** The values of a key after its removed values are dropped and its values set. */
  function Edited(key: DocKey, vs: Values): Values {
    (vs - Lowered(key.removedValues)) + Stored(key.values)
  }

  /** One entry of the document: delete if removed, create unless it stays removed, drop values, set values. */
  function ReplayKey(key: DocKey, reg: Registry): Registry {
    var p := ToLower(key.path);
    var cleared := if key.removed then Delete(reg, p) else reg;
    var created := if IsCreating(key) then Create(cleared, p) else cleared;
    Alter(created, p, vs => Edited(key, vs))
  }

  function ReplayOrder(order: seq<wstring>, keys: map<wstring, DocKey>, reg: Registry): Registry {
    if order == [] then reg
    else
      var last := ToLower(order[|order| - 1]);
      var before := ReplayOrder(order[..|order| - 1], keys, reg);
      if last in keys then ReplayKey(keys[last], before) else before
  }

  /** The document's entries in their order. */
  function ReplayDocument(doc: Document, reg: Registry): Registry {
    ReplayOrder(doc.keyOrder, doc.keys, reg)
  }

  // ----- the view of a single key

  /** What one entry of a document does to the key k. */
  function KeyAt(key: DocKey, k: wstring, s: Option<Values>): Option<Values> {
    var p := ToLower(key.path);
    var cleared := if key.removed && Under(p, k) then None else s;
    var created := if IsCreating(key) && Under(k, p) then Made(cleared) else cleared;
    if k == p && created.Some? then Some(Edited(key, created.value)) else created
  }

  lemma ReplayKeyAt(key: DocKey, reg: Registry, k: wstring)
    ensures At(ReplayKey(key, reg), k) == KeyAt(key, k, At(reg, k))
  {
    hide Edited;
  }

  function OrderAt(order: seq<wstring>, keys: map<wstring, DocKey>, k: wstring, s: Option<Values>): Option<Values> {
    if order == [] then s
    else
      var last := ToLower(order[|order| - 1]);
      var before := OrderAt(order[..|order| - 1], keys, k, s);
      if last in keys then KeyAt(keys[last], k, before) else before
  }

  lemma {:induction false} ReplayOrderAt(order: seq<wstring>, keys: map<wstring, DocKey>, reg: Registry, k: wstring)
    ensures At(ReplayOrder(order, keys, reg), k) == OrderAt(order, keys, k, At(reg, k))
    decreases |order|
  {
    hide ReplayKey, KeyAt, At;
    if order != [] {
      ReplayOrderAt(order[..|order| - 1], keys, reg, k);
      var last := ToLower(order[|order| - 1]);
      if last in keys { ReplayKeyAt(keys[last], ReplayOrder(order[..|order| - 1], keys, reg), k); }
    }
  }

  // ----- the same without an order

  predicate Deletes(paths: set<wstring>, keys: map<wstring, DocKey>, k: wstring) {
    exists p :: p in paths && p in keys && keys[p].removed && Under(p, k)
  }

  predicate Creates(paths: set<wstring>, keys: map<wstring, DocKey>, k: wstring) {
    exists p :: p in paths && p in keys && IsCreating(keys[p]) && Under(k, p)
  }

  /** The entries of `paths` at the key k, whatever their order: deleted first, then created, then edited. */
  function SettledAt(paths: set<wstring>, keys: map<wstring, DocKey>, k: wstring, s: Option<Values>): Option<Values> {
    var cleared := if Deletes(paths, keys, k) then None else s;
    var created := if Creates(paths, keys, k) then Made(cleared) else cleared;
    if k in paths && k in keys && created.Some? then Some(Edited(keys[k], created.value)) else created
  }

  function Lowers(order: seq<wstring>): set<wstring> {
    if order == [] then {} else Lowers(order[..|order| - 1]) + {ToLower(order[|order| - 1])}
  }

  /** Every path of the order names a key of its own, no key that is removed comes after one below it,
      and a key that stays removed edits nothing. */
  predicate WellOrdered(order: seq<wstring>, keys: map<wstring, DocKey>) {
    order == [] ||
    (var last, before := ToLower(order[|order| - 1]), order[..|order| - 1];
     && WellOrdered(before, keys)
     && last in keys && last !in Lowers(before)
     && (keys[last].removed ==> forall q :: q in Lowers(before) ==> !Under(last, q)))
  }

  predicate WellFormedKey(p: wstring, key: DocKey) {
    && ToLower(key.path) == p
    && (key.recreated ==> key.removed)
    && (!IsCreating(key) ==> key.values == map[] && key.removedValues == [])
  }

  predicate WellFormedKeys(keys: map<wstring, DocKey>) {
    forall p :: p in keys ==> WellFormedKey(p, keys[p])
  }

  predicate WellFormed(doc: Document) {
    && WellOrdered(doc.keyOrder, doc.keys)
    && Lowers(doc.keyOrder) == doc.keys.Keys
    && WellFormedKeys(doc.keys)
  }

  lemma NothingEdited(key: DocKey, vs: Values)
    requires key.values == map[] && key.removedValues == []
    ensures Edited(key, vs) == vs
  {
    assert Lowered([]) == {};
    assert Stored(map[]) == map[];
    assert vs - {} == vs;
  }

  lemma SettledStep(paths: set<wstring>, last: wstring, keys: map<wstring, DocKey>, k: wstring, s: Option<Values>)
    requires WellFormedKeys(keys) && last in keys && last !in paths
    requires keys[last].removed ==> forall q :: q in paths ==> !Under(last, q)
    ensures SettledAt(paths + {last}, keys, k, s) == KeyAt(keys[last], k, SettledAt(paths, keys, k, s))
  {
    hide Edited, Under;
    var all := paths + {last};
    var key := keys[last];
    assert WellFormedKey(last, key);
    UnderReflexive(k);
    assert Deletes(all, keys, k) <==> Deletes(paths, keys, k) || (key.removed && Under(last, k));
    assert Creates(all, keys, k) <==> Creates(paths, keys, k) || (IsCreating(key) && Under(k, last));
    if key.removed && Under(last, k) {
      if Creates(paths, keys, k) {
        var q :| q in paths && q in keys && IsCreating(keys[q]) && Under(k, q);
        UnderTransitive(last, k, q);
        assert false;
      }
      assert k !in paths;
    }
    if k == last && !IsCreating(key) { NothingEditedAnywhere(key); }
    if k in paths && k in keys {
      assert WellFormedKey(k, keys[k]);
      if !IsCreating(keys[k]) { NothingEditedAnywhere(keys[k]); }
      if IsCreating(keys[k]) { assert Creates(paths, keys, k); }
    }
  }

  lemma NothingEditedAnywhere(key: DocKey)
    requires key.values == map[] && key.removedValues == []
    ensures forall vs: Values :: Edited(key, vs) == vs
  {
    forall vs: Values ensures Edited(key, vs) == vs { NothingEdited(key, vs); }
  }

  lemma UnderReflexive(k: wstring)
    ensures Under(k, k)
  {}

  lemma NothingSettled(keys: map<wstring, DocKey>, k: wstring, s: Option<Values>)
    ensures SettledAt({}, keys, k, s) == s
  {}

  lemma {:induction false} OrderIsSettled(order: seq<wstring>, keys: map<wstring, DocKey>, k: wstring,
      s: Option<Values>)
    requires WellOrdered(order, keys) && WellFormedKeys(keys)
    ensures OrderAt(order, keys, k, s) == SettledAt(Lowers(order), keys, k, s)
    decreases |order|
  {
    hide KeyAt, SettledAt, WellFormedKeys;
    if order == [] {
      NothingSettled(keys, k, s);
    } else {
      OrderIsSettled(order[..|order| - 1], keys, k, s);
      SettledStep(Lowers(order[..|order| - 1]), ToLower(order[|order| - 1]), keys, k, s);
    }
  }

  // ----- what the document loses

  /** Values follow the section of their key: what the reader produces. */
  predicate Sectional(ops: seq<Operation>) {
    ops == [] ||
    (var before, last := ops[..|ops| - 1], ops[|ops| - 1];
     && Sectional(before)
     && (last.SetValue? || last.RemoveValue? ==> SectionOf(before) == Some(ToLower(last.path))))
  }

  /** The key of the section that values go to. */
  function SectionOf(ops: seq<Operation>): Option<wstring> {
    if ops == [] then None
    else
      match ops[|ops| - 1]
      case Key(p) => Some(ToLower(p))
      case RemoveKey(p) => None
      case _ => SectionOf(ops[..|ops| - 1])
  }

  /** The document creates the key p or one below it. */
  predicate CreatesWithin(keys: map<wstring, DocKey>, p: wstring) {
    exists q :: q in keys && IsCreating(keys[q]) && Under(p, q)
  }

  /** The keys that a section opens and no later deletion reaches. */
  function Standing(ops: seq<Operation>): set<wstring> {
    if ops == [] then {}
    else
      var before := Standing(ops[..|ops| - 1]);
      match ops[|ops| - 1]
      case Key(path) => before + {ToLower(path)}
      case RemoveKey(path) => set k | k in before && !Under(ToLower(path), k)
      case _ => before
  }

  /** One of the keys is p or lies below it. */
  predicate StandsWithin(standing: set<wstring>, p: wstring) {
    exists q :: q in standing && Under(p, q)
  }

  /** Empty keys that the operations leave above a key they created and deleted again; the document forgets them. */
  function Surplus(ops: seq<Operation>): set<wstring> {
    if ops == [] then {}
    else
      var before := Surplus(ops[..|ops| - 1]);
      match ops[|ops| - 1]
      case RemoveKey(path) =>
        var p := ToLower(path);
        var left := set k | k in before && !Under(p, k);
        if StandsWithin(Standing(ops[..|ops| - 1]), p) then left + (Ancestors(p) - {p}) else left
      case _ => before
  }

  function DocAt(keys: map<wstring, DocKey>, k: wstring, s: Option<Values>): Option<Values> {
    SettledAt(keys.Keys, keys, k, s)
  }

  /** The section that is open creates its key. */
  predicate Open(keys: map<wstring, DocKey>, section: Option<wstring>) {
    section.Some? ==> section.value in keys && IsCreating(keys[section.value])
  }

  // ----- one folded operation at the key k

  lemma EnteredKeepsOrder(doc: Document, path: wstring)
    requires WellFormed(doc)
    ensures var e := Entered(doc, path);
            && WellOrdered(e.keyOrder, e.keys) && Lowers(e.keyOrder) == e.keys.Keys
            && ToLower(path) in e.keys && ToLower(e.keys[ToLower(path)].path) == ToLower(path)
  {
    hide Under;
    var e, p := Entered(doc, path), ToLower(path);
    if p in doc.keys {
      assert WellFormedKey(p, doc.keys[p]);
    } else {
      OrderFrame(doc.keyOrder, doc.keys, e.keys);
      assert e.keyOrder[..|e.keyOrder| - 1] == doc.keyOrder;
    }
  }

  /** The order only looks at the removed marks of its own keys. */
  lemma {:induction false} OrderFrame(order: seq<wstring>, keys: map<wstring, DocKey>, others: map<wstring, DocKey>)
    requires WellOrdered(order, keys)
    requires forall p :: p in Lowers(order) ==> p in others
    requires forall p :: p in Lowers(order) && p in keys ==> (others[p].removed ==> keys[p].removed)
    ensures WellOrdered(order, others)
    decreases |order|
  {
    hide Under;
    if order != [] { OrderFrame(order[..|order| - 1], keys, others); }
  }

  lemma {:induction false} SurvivingAll(order: seq<wstring>, keys: map<wstring, DocKey>)
    requires Lowers(order) <= keys.Keys
    ensures Surviving(order, keys) == order
    decreases |order|
  {
    if order != [] { SurvivingAll(order[..|order| - 1], keys); }
  }

  lemma UnfoldSurviving(order: seq<wstring>, kept: map<wstring, DocKey>)
    ensures order == [] ==> Surviving(order, kept) == []
    ensures order != [] ==>
              var before, last := Surviving(order[..|order| - 1], kept), order[|order| - 1];
              Surviving(order, kept) == if ToLower(last) in kept then before + [last] else before
  {}

  lemma UnfoldOrder(order: seq<wstring>, keys: map<wstring, DocKey>)
    ensures order == [] ==> Lowers(order) == {} && WellOrdered(order, keys)
    ensures order != [] ==>
              var before, last := order[..|order| - 1], ToLower(order[|order| - 1]);
              && Lowers(order) == Lowers(before) + {last}
              && (WellOrdered(order, keys) <==>
                    WellOrdered(before, keys) && last in keys && last !in Lowers(before)
                    && (keys[last].removed ==> forall q :: q in Lowers(before) ==> !Under(last, q)))
  {
    hide Under, ToLower;
  }

  /** Erasing what lies below p leaves an order in which p may be removed. */
  lemma {:induction false} SurvivingOrdered(order: seq<wstring>, keys: map<wstring, DocKey>, kept: map<wstring, DocKey>,
      p: wstring)
    requires WellOrdered(order, keys)
    requires forall k :: k in kept ==> k in keys && (k == p || !Under(p, k))
    requires forall k :: k in kept && k != p && kept[k].removed ==> keys[k].removed
    ensures WellOrdered(Surviving(order, kept), kept)
    ensures Lowers(Surviving(order, kept)) == Lowers(order) * kept.Keys
    decreases |order|
  {
    hide Under, ToLower, Lowers, WellOrdered, Surviving;
    UnfoldSurviving(order, kept);
    UnfoldOrder(order, keys);
    UnfoldOrder([], kept);
    if order != [] {
      var before, last := order[..|order| - 1], order[|order| - 1];
      SurvivingOrdered(before, keys, kept, p);
      var shorter := Surviving(before, kept);
      if ToLower(last) in kept {
        assert (shorter + [last])[..|shorter|] == shorter;
        UnfoldOrder(shorter + [last], kept);
      }
    }
  }

  lemma UnderIsBelow(p: wstring, q: wstring)
    ensures Under(p, q) <==> q == p || p + [BACKSLASH] <= q
  {
    if |p| < |q| && q[..|p|] == p && q[|p|] == BACKSLASH {
      assert q[..|p| + 1] == p + [BACKSLASH];
    }
    if p + [BACKSLASH] <= q {
      assert q[|p|] == (p + [BACKSLASH])[|p|];
      assert q[..|p|] == q[..|p| + 1][..|p|] == (p + [BACKSLASH])[..|p|] == p;
    }
  }

  /** The keys after a deletion of p: nothing below p, p itself cleared, the rest as before. */
  lemma RemovedKeys(doc: Document, path: wstring)
    requires WellFormed(doc)
    ensures var p, e := ToLower(path), Entered(doc, path);
            var after := Fold(doc, [], RemoveKey(path)).0;
            && (forall k :: k in after.keys <==> k in e.keys && (k == p || !Under(p, k)))
            && (forall k :: k in after.keys ==> after.keys[k] == if k == p then Cleared(e.keys[p]) else e.keys[k])
            && after.keyOrder == Surviving(e.keyOrder, after.keys)
  {
    var p, e := ToLower(path), Entered(doc, path);
    var marked := e.(keys := e.keys[p := Cleared(e.keys[p])]);
    EnteredKeepsOrder(doc, path);
    hide Entered, WellOrdered, Surviving, Under, WithoutBelow, Lowers;
    SurvivingAll(e.keyOrder, e.keys);
    SurvivingSame(e.keyOrder, e.keys, marked.keys);
    WithoutBelowKeys(marked, p);
  }

  lemma WithoutBelowKeys(doc: Document, p: wstring)
    requires Surviving(doc.keyOrder, doc.keys) == doc.keyOrder
    ensures var after := WithoutBelow(doc, p);
            && (forall k :: k in after.keys <==> k in doc.keys && (k == p || !Under(p, k)))
            && (forall k :: k in after.keys ==> after.keys[k] == doc.keys[k])
            && after.keyOrder == Surviving(doc.keyOrder, after.keys)
  {
    hide Surviving, Under;
    forall k ensures Under(p, k) <==> k == p || p + [BACKSLASH] <= k { UnderIsBelow(p, k); }
    assert !(p + [BACKSLASH] <= p);
    var keys := map k | k in doc.keys && !(p + [BACKSLASH] <= k) :: doc.keys[k];
    if keys.Keys == doc.keys.Keys {
      assert forall k :: k in doc.keys ==> k in keys by {
        forall k | k in doc.keys ensures k in keys { assert k in doc.keys.Keys; }
      }
    }
  }

  lemma {:induction false} SurvivingSame(order: seq<wstring>, keys: map<wstring, DocKey>, others: map<wstring, DocKey>)
    requires keys.Keys == others.Keys
    ensures Surviving(order, keys) == Surviving(order, others)
    decreases |order|
  {
    assert forall k :: k in keys <==> k in others by { assert forall k :: k in keys <==> k in keys.Keys; }
    if order != [] { SurvivingSame(order[..|order| - 1], keys, others); }
  }

  lemma FoldRemoveKeepsForm(doc: Document, path: wstring)
    requires WellFormed(doc)
    ensures WellFormed(Fold(doc, [], RemoveKey(path)).0)
  {
    var p, e := ToLower(path), Entered(doc, path);
    var after := Fold(doc, [], RemoveKey(path)).0;
    EnteredKeepsOrder(doc, path);
    RemovedKeys(doc, path);
    EnteredKeys(doc, path);
    hide Entered, WellOrdered, Surviving, Under, Fold;
    SurvivingOrdered(e.keyOrder, e.keys, after.keys, p);
    assert e.keys.Keys * after.keys.Keys == after.keys.Keys by { assert after.keys.Keys <= e.keys.Keys; }
    forall k | k in after.keys ensures WellFormedKey(k, after.keys[k]) { assert WellFormedKey(k, e.keys[k]); }
  }

  lemma EnteredKeys(doc: Document, path: wstring)
    requires WellFormedKeys(doc.keys)
    ensures WellFormedKeys(Entered(doc, path).keys)
    ensures forall k :: k in Entered(doc, path).keys <==> k in doc.keys || k == ToLower(path)
    ensures forall k :: k in doc.keys ==> Entered(doc, path).keys[k] == doc.keys[k]
    ensures ToLower(path) !in doc.keys ==>
              Entered(doc, path).keys[ToLower(path)] == DocKey(path, map[], [], false, false)
  {}

  /** Changing an entry without marking it removed keeps the form. */
  lemma ChangedKeepsForm(doc: Document, p: wstring, key: DocKey)
    requires WellOrdered(doc.keyOrder, doc.keys) && Lowers(doc.keyOrder) == doc.keys.Keys && WellFormedKeys(doc.keys)
    requires p in doc.keys && WellFormedKey(p, key) && (key.removed ==> doc.keys[p].removed)
    ensures WellFormed(doc.(keys := doc.keys[p := key]))
  {
    hide WellOrdered;
    OrderFrame(doc.keyOrder, doc.keys, doc.keys[p := key]);
  }

  /** The document of a sectional list is well formed and its open section creates its key. */
  lemma {:induction false} FoldedIsWellFormed(ops: seq<Operation>)
    requires Sectional(ops)
    ensures WellFormed(Folded(ops).0) && Open(Folded(ops).0.keys, SectionOf(ops))
    ensures SectionOf(ops).Some? ==> SectionOf(ops).value == Folded(ops).1
    decreases |ops|
  {
    if ops != [] {
      var before, op := ops[..|ops| - 1], ops[|ops| - 1];
      var (doc, current) := Folded(before);
      FoldedIsWellFormed(before);
      assert Folded(ops) == Fold(doc, current, op);
      FoldKeepsForm(doc, current, op, SectionOf(before));
    }
  }

  lemma FoldKeepsForm(doc: Document, current: wstring, op: Operation, section: Option<wstring>)
    requires WellFormed(doc) && Open(doc.keys, section) && (section.Some? ==> section.value == current)
    requires op.SetValue? || op.RemoveValue? ==> section == Some(ToLower(op.path))
    ensures var (after, now) := Fold(doc, current, op);
            && WellFormed(after)
            && (op.Key? ==> now == ToLower(op.path) && Open(after.keys, Some(ToLower(op.path))))
            && (op.SetValue? || op.RemoveValue? ==> now == current && Open(after.keys, section))
  {
    hide WellOrdered, Surviving, Lowers, WithoutBelow;
    match op
    case Key(path) =>
      EnteredKeepsOrder(doc, path);
      EnteredKeys(doc, path);
      var e, p := Entered(doc, path), ToLower(path);
      assert WellFormedKey(p, e.keys[p]);
      ChangedKeepsForm(e, p, e.keys[p].(recreated := e.keys[p].removed));
    case RemoveKey(path) =>
      FoldRemoveKeepsForm(doc, path);
    case SetValue(path, v) =>
      var key := doc.keys[current];
      assert WellFormedKey(current, key);
      ChangedKeepsForm(doc, current, key.(values := key.values[ToLower(v.name) := v]));
    case RemoveValue(path, name) =>
      var key := doc.keys[current];
      assert WellFormedKey(current, key);
      ChangedKeepsForm(doc, current,
                       key.(values := key.values - {ToLower(name)}, removedValues := key.removedValues + [name]));
  }

  /** An entry that creates its key at `p`: the key and those above it exist. */
  lemma OpenExists(keys: map<wstring, DocKey>, p: wstring, k: wstring, s: Option<Values>)
    requires p in keys && IsCreating(keys[p]) && Under(k, p)
    ensures DocAt(keys, k, s).Some?
  {
    assert Creates(keys.Keys, keys, k);
  }

  /** The entries after a section line: its key creates, the rest is as before. */
  lemma KeyKeys(doc: Document, current: wstring, path: wstring)
    requires WellFormedKeys(doc.keys)
    ensures var p, before, after := ToLower(path), doc.keys, Fold(doc, current, Key(path)).0.keys;
            && (forall k :: k in after <==> k in before || k == p)
            && (forall k :: k in before && k != p ==> after[k] == before[k])
            && IsCreating(after[p])
            && (after[p].removed <==> p in before && before[p].removed)
            && (p in before ==>
                  after[p].values == before[p].values && after[p].removedValues == before[p].removedValues)
            && (p !in before ==> after[p].values == map[] && after[p].removedValues == [])
  {
    hide WellOrdered, Lowers;
    EnteredKeys(doc, path);
    hide Entered;
    assert WellFormedKey(ToLower(path), Entered(doc, path).keys[ToLower(path)]);
  }

  lemma KeyMarks(before: map<wstring, DocKey>, after: map<wstring, DocKey>, p: wstring, k: wstring)
    requires forall q :: q in after <==> q in before || q == p
    requires forall q :: q in before && q != p ==> after[q] == before[q]
    requires IsCreating(after[p]) && (after[p].removed <==> p in before && before[p].removed)
    ensures Deletes(after.Keys, after, k) <==> Deletes(before.Keys, before, k)
    ensures Creates(after.Keys, after, k) <==> Creates(before.Keys, before, k) || Under(k, p)
  {
    hide Under;
    if Creates(before.Keys, before, k) {
      var q :| q in before && IsCreating(before[q]) && Under(k, q);
      assert q in after && IsCreating(after[q]);
    }
    if Deletes(before.Keys, before, k) {
      var q :| q in before && before[q].removed && Under(q, k);
      assert q in after && after[q].removed;
    }
  }

  lemma CreatesItself(keys: map<wstring, DocKey>, k: wstring)
    requires k in keys && IsCreating(keys[k])
    ensures Creates(keys.Keys, keys, k)
  {
    UnderReflexive(k);
  }

  lemma KeyStep(doc: Document, current: wstring, path: wstring, k: wstring, s: Option<Values>)
    requires WellFormed(doc)
    ensures DocAt(Fold(doc, current, Key(path)).0.keys, k, s) == OpAt(Key(path), k, DocAt(doc.keys, k, s))
  {
    var p := ToLower(path);
    var before, after := doc.keys, Fold(doc, current, Key(path)).0.keys;
    KeyKeys(doc, current, path);
    KeyMarks(before, after, p, k);
    hide Under, WellOrdered, Lowers, Fold, DocAt;
    UnderReflexive(k);
    if k in before { assert WellFormedKey(k, before[k]); }
    KeyCreated(before, after, Under(k, p), k, s);
    hide *;
  }

  lemma KeyCreated(before: map<wstring, DocKey>, after: map<wstring, DocKey>, within: bool, k: wstring,
      s: Option<Values>)
    requires Deletes(after.Keys, after, k) <==> Deletes(before.Keys, before, k)
    requires Creates(after.Keys, after, k) <==> Creates(before.Keys, before, k) || within
    requires k in before ==> k in after && WellFormedKey(k, before[k])
    requires k in before ==> after[k].values == before[k].values && after[k].removedValues == before[k].removedValues
    requires k !in before && k in after ==> after[k].values == map[] && after[k].removedValues == []
    ensures DocAt(after, k, s) == WithEmpty(DocAt(before, k, s), within)
  {
    hide Edited, Creates, Deletes;
    if k in before {
      SameEdits(before[k], after[k]);
      if IsCreating(before[k]) { CreatesItself(before, k); } else { NothingEditedAnywhere(before[k]); }
    } else if k in after {
      NothingEditedAnywhere(after[k]);
    }
  }

  lemma SameEdits(a: DocKey, b: DocKey)
    requires a.values == b.values && a.removedValues == b.removedValues
    ensures forall vs: Values :: Edited(a, vs) == Edited(b, vs)
  {}

  lemma RemoveStep(doc: Document, current: wstring, path: wstring, k: wstring, s: Option<Values>)
    requires WellFormed(doc)
    ensures var p, after := ToLower(path), DocAt(Fold(doc, current, RemoveKey(path)).0.keys, k, s);
            if Under(p, k) then after.None?
            else DocAt(doc.keys, k, s) == WithEmpty(after, Under(k, p) && CreatesWithin(doc.keys, p))
  {
    var p, e := ToLower(path), Entered(doc, path);
    var before, after := doc.keys, Fold(doc, [], RemoveKey(path)).0.keys;
    assert Fold(doc, current, RemoveKey(path)).0 == Fold(doc, [], RemoveKey(path)).0;
    EnteredKeys(doc, path);
    RemovedKeys(doc, path);
    hide Edited, Under, WellOrdered, Lowers, Fold, Entered;
    UnderReflexive(k);
    UnderReflexive(p);
    if Under(p, k) {
      RemovedInside(after, p, k, s);
    } else {
      RemovedOutside(before, after, p, k);
      RemovedOutsideStep(before, after, k, s, Under(k, p) && CreatesWithin(before, p));
    }
  }

  lemma RemovedOutsideStep(before: map<wstring, DocKey>, after: map<wstring, DocKey>, k: wstring, s: Option<Values>,
      more: bool)
    requires WellFormedKeys(before)
    requires k in before <==> k in after
    requires k in before ==> after[k] == before[k]
    requires Deletes(after.Keys, after, k) <==> Deletes(before.Keys, before, k)
    requires Creates(before.Keys, before, k) <==> Creates(after.Keys, after, k) || more
    ensures DocAt(before, k, s) == WithEmpty(DocAt(after, k, s), more)
  {
    hide Edited, Creates, Deletes;
    if k in before {
      assert WellFormedKey(k, before[k]);
      if IsCreating(before[k]) { CreatesItself(after, k); } else { NothingEditedAnywhere(before[k]); }
    }
  }

  lemma RemovedInside(after: map<wstring, DocKey>, p: wstring, k: wstring, s: Option<Values>)
    requires p in after && after[p].removed && !IsCreating(after[p]) && Under(p, k)
    requires forall q :: q in after ==> q == p || !Under(p, q)
    ensures DocAt(after, k, s).None?
  {
    hide Edited, Under;
    assert Deletes(after.Keys, after, k);
    if Creates(after.Keys, after, k) {
      var q :| q in after && IsCreating(after[q]) && Under(k, q);
      UnderTransitive(p, k, q);
      assert false;
    }
  }

  /** Keys outside the deleted one: who deletes them stays, who creates them may go. */
  lemma RemovedOutside(before: map<wstring, DocKey>, after: map<wstring, DocKey>, p: wstring, k: wstring)
    requires !Under(p, k)
    requires p in after && !IsCreating(after[p])
    requires forall q :: q in after && q != p ==> q in before && after[q] == before[q]
    requires forall q :: q in before && !Under(p, q) ==> q in after
    ensures Deletes(after.Keys, after, k) <==> Deletes(before.Keys, before, k)
    ensures Creates(before.Keys, before, k)
            <==> Creates(after.Keys, after, k) || (Under(k, p) && CreatesWithin(before, p))
  {
    hide Under;
    if Deletes(before.Keys, before, k) {
      var q :| q in before && before[q].removed && Under(q, k);
      if Under(p, q) {
        UnderTransitive(p, q, k);
        assert false;
      }
      UnderReflexive(p);
      assert q in after && after[q] == before[q];
    }
    if Creates(before.Keys, before, k) {
      var q :| q in before && IsCreating(before[q]) && Under(k, q);
      if Under(p, q) {
        UnderChain(k, p, q);
      } else {
        UnderReflexive(p);
        assert q in after && after[q] == before[q];
      }
    }
    if Under(k, p) && CreatesWithin(before, p) {
      var q :| q in before && IsCreating(before[q]) && Under(p, q);
      UnderTransitive(k, p, q);
    }
  }

  /** A change to the values of an entry deletes and creates the same keys. */
  lemma SameMarks(before: map<wstring, DocKey>, p: wstring, key: DocKey, k: wstring)
    requires p in before && key.removed == before[p].removed && key.recreated == before[p].recreated
    ensures var after := before[p := key];
            && after.Keys == before.Keys
            && (Deletes(after.Keys, after, k) <==> Deletes(before.Keys, before, k))
            && (Creates(after.Keys, after, k) <==> Creates(before.Keys, before, k))
  {
    hide Under;
    var after := before[p := key];
    assert forall q :: q in after ==>
      q in before && after[q].removed == before[q].removed && after[q].recreated == before[q].recreated;
    assert after.Keys == before.Keys;
  }

  /** A change to the values of an entry that creates its key. */
  lemma EditSettled(before: map<wstring, DocKey>, p: wstring, key: DocKey, k: wstring, s: Option<Values>)
    requires p in before && IsCreating(before[p])
    requires key.removed == before[p].removed && key.recreated == before[p].recreated
    ensures DocAt(before, p, s).Some? && DocAt(before[p := key], p, s).Some?
    ensures k != p ==> DocAt(before[p := key], k, s) == DocAt(before, k, s)
    ensures exists vs ::
              && DocAt(before, p, s) == Some(Edited(before[p], vs))
              && DocAt(before[p := key], p, s) == Some(Edited(key, vs))
  {
    hide Edited, Under, Deletes, Creates;
    var after := before[p := key];
    SameMarks(before, p, key, k);
    SameMarks(before, p, key, p);
    CreatesItself(before, p);
  }

  lemma SetStep(doc: Document, path: wstring, v: RegistryValue, k: wstring, s: Option<Values>)
    requires var p := ToLower(path); p in doc.keys && IsCreating(doc.keys[p])
    ensures DocAt(Fold(doc, ToLower(path), SetValue(path, v)).0.keys, k, s)
            == OpAt(SetValue(path, v), k, DocAt(doc.keys, k, s))
  {
    var p := ToLower(path);
    var key := doc.keys[p].(values := doc.keys[p].values[ToLower(v.name) := v]);
    assert Fold(doc, p, SetValue(path, v)).0.keys == doc.keys[p := key];
    SetEdits(doc.keys[p], v);
    EditSettled(doc.keys, p, key, k, s);
    hide Edited, Under, DocAt, Fold, IsCreating;
    if Under(k, p) && k != p { OpenExists(doc.keys, p, k, s); }
  }

  lemma SetEdits(key: DocKey, v: RegistryValue)
    ensures forall vs: Values ::
              Edited(key.(values := key.values[ToLower(v.name) := v]), vs)
                == Edited(key, vs)[ToLower(v.name) := (v.kind, v.data)]
  {}

  lemma RemoveValueStep(doc: Document, path: wstring, name: wstring, k: wstring, s: Option<Values>)
    requires var p := ToLower(path); p in doc.keys && IsCreating(doc.keys[p])
    ensures DocAt(Fold(doc, ToLower(path), RemoveValue(path, name)).0.keys, k, s)
            == OpAt(RemoveValue(path, name), k, DocAt(doc.keys, k, s))
  {
    var p, was := ToLower(path), doc.keys[ToLower(path)];
    var key := was.(values := was.values - {ToLower(name)}, removedValues := was.removedValues + [name]);
    assert Fold(doc, p, RemoveValue(path, name)).0.keys == doc.keys[p := key];
    RemoveEdits(was, name);
    EditSettled(doc.keys, p, key, k, s);
    hide Edited, Under, DocAt, Fold, IsCreating;
  }

  lemma RemoveEdits(key: DocKey, name: wstring)
    ensures forall vs: Values ::
              Edited(key.(values := key.values - {ToLower(name)}, removedValues := key.removedValues + [name]), vs)
              == Edited(key, vs) - {ToLower(name)}
  {
    LoweredGrows(key.removedValues, name);
    hide Lowered;
  }

  lemma LoweredGrows(names: seq<wstring>, name: wstring)
    ensures Lowered(names + [name]) == Lowered(names) + {ToLower(name)}
  {
    var more := names + [name];
    forall n | n in Lowered(names) + {ToLower(name)} ensures n in Lowered(more) {
      if n in Lowered(names) {
        var i :| 0 <= i < |names| && n == ToLower(names[i]);
        assert more[i] == names[i];
      } else {
        assert more[|names|] == name;
      }
    }
  }

  // ----- the keys that stand are those the document creates

  lemma {:induction false} StandingIsCreating(ops: seq<Operation>)
    requires Sectional(ops)
    ensures forall k :: k in Standing(ops) <==> k in Folded(ops).0.keys && IsCreating(Folded(ops).0.keys[k])
    decreases |ops|
  {
    if ops != [] {
      var before, op := ops[..|ops| - 1], ops[|ops| - 1];
      var (doc, current) := Folded(before);
      StandingIsCreating(before);
      FoldedIsWellFormed(before);
      assert Folded(ops) == Fold(doc, current, op);
      hide Fold, WellOrdered, Surviving, Lowers, Under, IsCreating;
      forall k ensures k in Standing(ops) <==> k in Folded(ops).0.keys && IsCreating(Folded(ops).0.keys[k]) {
        CreatingAfter(doc, current, op, SectionOf(before), k);
      }
    }
  }

  /** Which keys a document creates after one more operation. */
  lemma CreatingAfter(doc: Document, current: wstring, op: Operation, section: Option<wstring>, k: wstring)
    requires WellFormed(doc) && Open(doc.keys, section) && (section.Some? ==> section.value == current)
    requires op.SetValue? || op.RemoveValue? ==> section == Some(ToLower(op.path))
    ensures var before, after := doc.keys, Fold(doc, current, op).0.keys;
            k in after && IsCreating(after[k]) <==>
              if op.Key? && k == ToLower(op.path) then true
              else k in before && IsCreating(before[k]) && (op.RemoveKey? ==> !Under(ToLower(op.path), k))
  {
    hide WellOrdered, Surviving, Lowers, WithoutBelow;
    if op.Key? { KeyKeys(doc, current, op.path); }
    if op.RemoveKey? {
      assert Fold(doc, current, op).0 == Fold(doc, [], op).0;
      RemovedKeys(doc, op.path);
      EnteredKeys(doc, op.path);
      UnderReflexive(ToLower(op.path));
    }
    hide Under, Entered;
  }

  lemma StandsIsCreates(ops: seq<Operation>, p: wstring)
    requires Sectional(ops)
    ensures StandsWithin(Standing(ops), p) <==> CreatesWithin(Folded(ops).0.keys, p)
  {
    StandingIsCreating(ops);
    hide Under, Folded, Standing, IsCreating;
  }

  // ----- the meaning of the fold

  /** At every key the operations leave what the document leaves, apart from surplus empty keys. */
  lemma {:induction false} FoldAt(ops: seq<Operation>, k: wstring, s: Option<Values>)
    requires Sectional(ops)
    ensures OpsAt(ops, k, s) == WithEmpty(DocAt(Folded(ops).0.keys, k, s), k in Surplus(ops))
    decreases |ops|
  {
    if ops == [] {
      NothingSettled(map[], k, s);
    } else {
      var before, op := ops[..|ops| - 1], ops[|ops| - 1];
      FoldAt(before, k, s);
      FoldedIsWellFormed(before);
      FoldAtStep(before, op, k, s);
    }
  }

  lemma FoldAtStep(before: seq<Operation>, op: Operation, k: wstring, s: Option<Values>)
    requires Sectional(before + [op])
    requires Sectional(before)
    requires WellFormed(Folded(before).0) && Open(Folded(before).0.keys, SectionOf(before))
    requires SectionOf(before).Some? ==> SectionOf(before).value == Folded(before).1
    requires OpsAt(before, k, s) == WithEmpty(DocAt(Folded(before).0.keys, k, s), k in Surplus(before))
    ensures var ops := before + [op]; OpsAt(ops, k, s) == WithEmpty(DocAt(Folded(ops).0.keys, k, s), k in Surplus(ops))
  {
    var ops := before + [op];
    assert ops[..|ops| - 1] == before;
    var (doc, current) := Folded(before);
    assert Folded(ops) == Fold(doc, current, op);
    assert OpsAt(ops, k, s) == OpAt(op, k, OpsAt(before, k, s));
    hide Fold, DocAt, WellFormed, Under, CreatesWithin, StandsWithin, Standing;
    match op
    case Key(path) =>
      KeyStep(doc, current, path, k, s);
    case RemoveKey(path) =>
      RemoveStep(doc, current, path, k, s);
      StandsIsCreates(before, ToLower(path));
      UnderReflexive(k);
    case SetValue(path, v) =>
      SetStep(doc, path, v, k, s);
      if Under(k, ToLower(path)) { OpenExists(doc.keys, ToLower(path), k, s); }
      UnderReflexive(k);
    case RemoveValue(path, name) =>
      RemoveValueStep(doc, path, name, k, s);
      UnderReflexive(k);
      if k == ToLower(path) { OpenExists(doc.keys, ToLower(path), k, s); }
  }

  /** On every registry the operations do what the document does, and leave the surplus empty keys besides. */
  lemma FoldKeepsMeaning(ops: seq<Operation>, reg: Registry)
    requires Sectional(ops)
    ensures Replay(ops, reg) == AddEmpty(ReplayDocument(Folded(ops).0, reg), Surplus(ops))
  {
    var doc := Folded(ops).0;
    FoldedIsWellFormed(ops);
    hide At, Replay, ReplayOrder, OpsAt, OrderAt, SettledAt, AddEmpty, Folded, WithEmpty, Surplus;
    forall k ensures At(Replay(ops, reg), k) == At(AddEmpty(ReplayDocument(doc, reg), Surplus(ops)), k) {
      ReplayAt(ops, reg, k);
      ReplayOrderAt(doc.keyOrder, doc.keys, reg, k);
      OrderIsSettled(doc.keyOrder, doc.keys, k, At(reg, k));
      FoldAt(ops, k, At(reg, k));
      WithEmptyAt(ReplayDocument(doc, reg), Surplus(ops), k);
    }
    SameEverywhere(Replay(ops, reg), AddEmpty(ReplayDocument(doc, reg), Surplus(ops)));
  }

  /** Every key that was emptied out stands after all, for one that stands at or below it. */
  predicate Covered(surplus: set<wstring>, standing: set<wstring>) {
    forall k :: k in surplus ==> StandsWithin(standing, k)
  }

  lemma CreatedIsThere(doc: Document, k: wstring, reg: Registry)
    requires WellFormed(doc)
    ensures CreatesWithin(doc.keys, k) ==> k in ReplayDocument(doc, reg)
    ensures !CreatesWithin(doc.keys, k) && k !in reg ==> k !in ReplayDocument(doc, reg)
  {
    ReplayOrderAt(doc.keyOrder, doc.keys, reg, k);
    OrderIsSettled(doc.keyOrder, doc.keys, k, At(reg, k));
    assert CreatesWithin(doc.keys, k) <==> Creates(doc.keys.Keys, doc.keys, k);
    hide Edited, WellOrdered, ReplayOrder, OrderAt, Deletes, Creates, CreatesWithin;
  }

  /** On every registry the document does what the operations do. */
  ghost predicate IsExact(ops: seq<Operation>) {
    forall reg :: Replay(ops, reg) == ReplayDocument(Folded(ops).0, reg)
  }

  /** The fold loses nothing exactly when every surplus key is above a key that stands. */
  lemma FoldIsExactWhenCovered(ops: seq<Operation>)
    requires Sectional(ops)
    ensures IsExact(ops) <==> Covered(Surplus(ops), Standing(ops))
  {
    hide Folded, Surplus, Standing, StandsWithin, Replay, ReplayDocument;
    if Covered(Surplus(ops), Standing(ops)) {
      forall reg ensures Replay(ops, reg) == ReplayDocument(Folded(ops).0, reg) { CoveredLosesNothing(ops, reg); }
    }
    if IsExact(ops) {
      var none: Registry := map[];
      assert Replay(ops, none) == ReplayDocument(Folded(ops).0, none);
      forall k | k in Surplus(ops) ensures StandsWithin(Standing(ops), k) { KeptIsCovered(ops, k); }
    }
  }

  lemma CoveredLosesNothing(ops: seq<Operation>, reg: Registry)
    requires Sectional(ops) && Covered(Surplus(ops), Standing(ops))
    ensures Replay(ops, reg) == ReplayDocument(Folded(ops).0, reg)
  {
    hide WellFormed, Folded, Surplus, Standing, StandsWithin, CreatesWithin, Replay, ReplayDocument;
    var doc := Folded(ops).0;
    FoldedIsWellFormed(ops);
    FoldKeepsMeaning(ops, reg);
    forall k | k in Surplus(ops) ensures k in ReplayDocument(doc, reg) {
      StandsIsCreates(ops, k);
      CreatedIsThere(doc, k, reg);
    }
  }

  /** Only a key above one that stands is there when the document is replayed on nothing. */
  lemma KeptIsCovered(ops: seq<Operation>, k: wstring)
    requires Sectional(ops) && Replay(ops, map[]) == ReplayDocument(Folded(ops).0, map[]) && k in Surplus(ops)
    ensures StandsWithin(Standing(ops), k)
  {
    hide WellFormed, Folded, Surplus, Standing, StandsWithin, CreatesWithin, Replay, ReplayDocument;
    var none: Registry := map[];
    FoldedIsWellFormed(ops);
    FoldKeepsMeaning(ops, none);
    assert k in AddEmpty(ReplayDocument(Folded(ops).0, none), Surplus(ops));
    CreatedIsThere(Folded(ops).0, k, none);
    StandsIsCreates(ops, k);
  }

  /** No deletion reaches a key that an earlier line created. */
  predicate DeletesNothingCreated(ops: seq<Operation>) {
    forall i, j :: 0 <= i < j < |ops| && ops[j].RemoveKey? && (ops[i].Key? || ops[i].SetValue?)
      ==> !Under(ToLower(ops[j].path), ToLower(ops[i].path))
  }

  lemma {:induction false} StandingIsOperation(ops: seq<Operation>, p: wstring)
    requires p in Standing(ops)
    ensures exists i :: 0 <= i < |ops| && ops[i].Key? && ToLower(ops[i].path) == p
    decreases |ops|
  {
    hide Under;
    var before, op := ops[..|ops| - 1], ops[|ops| - 1];
    if op.Key? && ToLower(op.path) == p {
      assert ops[|ops| - 1].Key?;
    } else {
      StandingIsOperation(before, p);
      var i :| 0 <= i < |before| && before[i].Key? && ToLower(before[i].path) == p;
      assert ops[i] == before[i];
    }
  }

  /** Lists in which deletions come first lose nothing. */
  lemma {:induction false} NoSurplusWithoutLateDeletion(ops: seq<Operation>)
    requires DeletesNothingCreated(ops)
    ensures Surplus(ops) == {}
    decreases |ops|
  {
    hide Under, Standing;
    if ops != [] {
      var before, op := ops[..|ops| - 1], ops[|ops| - 1];
      assert forall i :: 0 <= i < |before| ==> before[i] == ops[i];
      NoSurplusWithoutLateDeletion(before);
      if op.RemoveKey? && StandsWithin(Standing(before), ToLower(op.path)) {
        var q :| q in Standing(before) && Under(ToLower(op.path), q);
        StandingIsOperation(before, q);
        assert false;
      }
    }
  }

  lemma TwoLines(path: wstring)
    ensures Sectional([Key(path)]) && Sectional([Key(path), RemoveKey(path)])
    ensures Folded([Key(path)]).0.keys.Keys == {ToLower(path)}
  {
    var first, ops := [Key(path)], [Key(path), RemoveKey(path)];
    assert ops[..1] == first && first[..0] == [];
    assert Sectional([]) && Sectional(first);
    assert Folded([]) == (Document([], map[]), []);
  }

  lemma LeavesAbove(path: wstring, above: wstring, ops: seq<Operation>, first: seq<Operation>)
    requires Under(above, ToLower(path)) && above != ToLower(path)
    requires ops == [Key(path), RemoveKey(path)] && first == [Key(path)]
    ensures above in Replay(ops, map[])
  {
    if Under(ToLower(path), above) { UnderAntisymmetric(above, ToLower(path)); }
    hide Under;
    assert ops[..1] == first && first[..0] == [];
    ReplayAt(ops, map[], above);
    assert OpsAt([], above, None) == None;
    assert OpsAt(first, above, None) == OpAt(Key(path), above, OpsAt(first[..0], above, None));
    assert OpsAt(ops, above, None) == OpAt(RemoveKey(path), above, OpsAt(first, above, None));
  }

  /** A key created and deleted again leaves the keys above it; the document does not. */
  lemma FoldForgetsEmptyParents(path: wstring, above: wstring)
    requires Under(above, ToLower(path)) && above != ToLower(path)
    ensures var ops := [Key(path), RemoveKey(path)];
            Sectional(ops) && above in Replay(ops, map[]) && above !in ReplayDocument(Folded(ops).0, map[])
  {
    var p, first, ops := ToLower(path), [Key(path)], [Key(path), RemoveKey(path)];
    TwoLines(path);
    FoldedStep(ops, 1);
    assert ops[..1] == first && ops[..2] == ops;
    FoldedIsWellFormed(first);
    FoldedIsWellFormed(ops);
    LastKeys(Folded(first).0, Folded(first).1, path, above);
    hide *;
    CreatedIsThere(Folded(ops).0, above, map[]);
    LeavesAbove(path, above, ops, first);
  }

  lemma LastKeys(doc: Document, current: wstring, path: wstring, above: wstring)
    requires WellFormed(doc) && doc.keys.Keys == {ToLower(path)} && above != ToLower(path)
    ensures !CreatesWithin(Fold(doc, current, RemoveKey(path)).0.keys, above)
  {
    assert Fold(doc, current, RemoveKey(path)).0 == Fold(doc, [], RemoveKey(path)).0;
    RemovedKeys(doc, path);
    EnteredKeys(doc, path);
    hide WellOrdered, Lowers, Fold, Entered, Surviving, Under;
  }

  // ----- files

  /** Where values of the handler go is the section that was opened last. */
  predicate InSection(h: Handler) {
    Sectional(h.output) && (h.inKey ==> SectionOf(h.output) == Some(ToLower(h.path)))
  }

  lemma AppendedIsSectional(ops: seq<Operation>, op: Operation)
    requires Sectional(ops)
    requires op.SetValue? || op.RemoveValue? ==> SectionOf(ops) == Some(ToLower(op.path))
    ensures Sectional(ops + [op])
    ensures SectionOf(ops + [op]) == if op.Key? then Some(ToLower(op.path))
                                     else if op.RemoveKey? then None else SectionOf(ops)
  {
    assert (ops + [op])[..|ops|] == ops;
  }

  lemma HandleKeepsSection(cp: CodePage, h: Handler, line: wstring)
    requires InSection(h)
    ensures Handle(cp, h, line).Some? ==> InSection(Handle(cp, h, line).value)
  {
    hide TrimWhitespace, StartsWithInsensitive, Sectional, SectionOf, DataOf, RegSyntax.AssignmentAt, RegSyntax.Quoted;
    forall op: Operation | op.SetValue? || op.RemoveValue? ==> SectionOf(h.output) == Some(ToLower(op.path))
      ensures Sectional(h.output + [op])
      ensures SectionOf(h.output + [op]) == if op.Key? then Some(ToLower(op.path))
                                            else if op.RemoveKey? then None else SectionOf(h.output)
    {
      AppendedIsSectional(h.output, op);
    }
  }

  lemma SettleKeepsSection(cp: CodePage, st: Reader, hasNewline: bool, tail: wstring)
    requires InSection(st.handler)
    ensures Settle(cp, st, hasNewline, tail).Some? ==> InSection(Settle(cp, st, hasNewline, tail).value.0.handler)
  {
    hide InSection, Handle, DropBlanks;
    HandleKeepsSection(cp, st.handler, DropBlanks(st.logical));
  }

  lemma {:induction false} ReadIsSectional(cp: CodePage, content: wstring, st: Reader)
    requires InSection(st.handler)
    ensures ReadFrom(cp, content, st).Some? ==> Sectional(ReadFrom(cp, content, st).value)
    decreases |content|
  {
    hide Settle, Joined, StripCr, Find, Handle, Sectional, SectionOf;
    if content == [] {
      HandleKeepsSection(cp, st.handler, st.logical);
    } else {
      var end := Find(content, LF, 0);
      var physical := if end == -1 then content else content[..end];
      var tail := if end == -1 then [] else content[end + 1..];
      var joined := Joined(st, StripCr(physical));
      JoinedHandler(st, StripCr(physical));
      SettleKeepsSection(cp, joined, end != -1, tail);
      var settled := Settle(cp, joined, end != -1, tail);
      if settled.Some? {
        SettledTail(cp, joined, end != -1, tail);
        ReadIsSectional(cp, settled.value.1, settled.value.0);
      }
    }
  }

  lemma JoinedHandler(st: Reader, physical: wstring)
    ensures Joined(st, physical).handler == st.handler
  {}

  lemma SettledTail(cp: CodePage, st: Reader, hasNewline: bool, tail: wstring)
    ensures Settle(cp, st, hasNewline, tail).Some? ==> |Settle(cp, st, hasNewline, tail).value.1| <= |tail|
  {}

  /** Loading a file as a document and replaying it does what replaying its operations does, apart from surplus keys. */
  lemma DocumentOfFileKeepsMeaning(cp: CodePage, content: wstring, reg: Registry)
    requires Parsed(cp, content).Some?
    ensures var ops := Parsed(cp, content).value;
            && Sectional(ops)
            && Replay(ops, reg) == AddEmpty(ReplayDocument(Folded(ops).0, reg), Surplus(ops))
  {
    hide *;
    SectionAtStart();
    ReadIsSectional(cp, content, Idle(START));
    ParsedIsRead(cp, content);
    FoldKeepsMeaning(Parsed(cp, content).value, reg);
  }

  lemma SectionAtStart()
    ensures InSection(Idle(START).handler)
  {}

  lemma ParsedIsRead(cp: CodePage, content: wstring)
    ensures Parsed(cp, content) == ReadFrom(cp, content, Idle(START))
  {}

  /** key_order names every key once, and no removed key comes after a key below it. */
  lemma KeyOrderIsSound(ops: seq<Operation>)
    requires Sectional(ops)
    ensures var doc := Folded(ops).0;
            && (forall k :: k in doc.keys <==> exists i :: 0 <= i < |doc.keyOrder| && ToLower(doc.keyOrder[i]) == k)
            && (forall i, j :: 0 <= i < j < |doc.keyOrder| ==> ToLower(doc.keyOrder[i]) != ToLower(doc.keyOrder[j]))
            && (forall i, j ::
                  && 0 <= i < j < |doc.keyOrder| && ToLower(doc.keyOrder[j]) in doc.keys
                  && doc.keys[ToLower(doc.keyOrder[j])].removed
                  ==> !Under(ToLower(doc.keyOrder[j]), ToLower(doc.keyOrder[i])))
  {
    FoldedIsWellFormed(ops);
    var doc := Folded(ops).0;
    hide Under, Folded, Sectional, SectionOf;
    OrderIsSound(doc.keyOrder, doc.keys);
    hide *;
    assert forall k :: k in doc.keys <==> k in doc.keys.Keys;
  }

  lemma {:induction false} OrderIsSound(order: seq<wstring>, keys: map<wstring, DocKey>)
    requires WellOrdered(order, keys)
    ensures forall k :: k in Lowers(order) <==> exists i :: 0 <= i < |order| && ToLower(order[i]) == k
    ensures forall i, j :: 0 <= i < j < |order| ==> ToLower(order[i]) != ToLower(order[j])
    ensures forall i, j :: 0 <= i < j < |order| && ToLower(order[j]) in keys && keys[ToLower(order[j])].removed
              ==> !Under(ToLower(order[j]), ToLower(order[i]))
    decreases |order|
  {
    hide Under;
    if order != [] {
      var before, last := order[..|order| - 1], order[|order| - 1];
      OrderIsSound(before, keys);
      forall k ensures k in Lowers(order) <==> exists i :: 0 <= i < |order| && ToLower(order[i]) == k {
        if k in Lowers(before) {
          var i :| 0 <= i < |before| && ToLower(before[i]) == k;
          assert ToLower(order[i]) == k;
        }
        if k == ToLower(last) { assert ToLower(order[|order| - 1]) == k; }
        if i :| 0 <= i < |order| && ToLower(order[i]) == k {
          if i < |before| { assert ToLower(before[i]) == k; }
        }
      }
      forall i, j | 0 <= i < j < |order|
        ensures ToLower(order[i]) != ToLower(order[j])
        ensures ToLower(order[j]) in keys && keys[ToLower(order[j])].removed ==>
                  !Under(ToLower(order[j]), ToLower(order[i]))
      {
        assert order[i] == before[i];
        assert ToLower(before[i]) in Lowers(before);
        if j < |before| { assert order[j] == before[j]; }
      }
    }
  }
}
