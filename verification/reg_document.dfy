/** Folding the operations of a .reg file into a document of keys. */
module RegDocument {
  import opened Text
  import opened ValueFormat
  import opened Operations
  import opened RegReader

  datatype DocKey = DocKey(
    path: wstring, values: map<wstring, RegistryValue>, removedValues: seq<wstring>, removed: bool, recreated: bool)

  datatype Document = Document(keyOrder: seq<wstring>, keys: map<wstring, DocKey>)

  // ----- the fold

  /** Paths whose key is still there. */
  function Surviving(order: seq<wstring>, keys: map<wstring, DocKey>): seq<wstring> {
    if order == [] then []
    else
      var last := order[|order| - 1];
      var before := Surviving(order[..|order| - 1], keys);
      if ToLower(last) in keys then before + [last] else before
  }

  /** The key of a section, entered at the end if it is new. */
  function Entered(doc: Document, path: wstring): Document {
    if ToLower(path) in doc.keys then doc
    else Document(doc.keyOrder + [path], doc.keys[ToLower(path) := DocKey(path, map[], [], false, false)])
  }

  function Cleared(key: DocKey): DocKey {
    key.(values := map[], removedValues := [], removed := true, recreated := false)
  }

  /** Everything that lies below p leaves the document. */
  function WithoutBelow(doc: Document, p: wstring): Document {
    var keys := map k | k in doc.keys && !(p + [BACKSLASH] <= k) :: doc.keys[k];
    if keys.Keys == doc.keys.Keys then doc else Document(Surviving(doc.keyOrder, keys), keys)
  }

  /** One operation; values go to the current key. */
  function Fold(doc: Document, current: wstring, op: Operation): (Document, wstring) {
    match op
    case Key(path) =>
      var lower, entered := ToLower(path), Entered(doc, path);
      var key := entered.keys[lower];
      (entered.(keys := entered.keys[lower := key.(recreated := key.removed)]), lower)
    case RemoveKey(path) =>
      var lower, entered := ToLower(path), Entered(doc, path);
      (WithoutBelow(entered.(keys := entered.keys[lower := Cleared(entered.keys[lower])]), lower), lower)
    case RemoveValue(_, name) =>
      if current !in doc.keys then (doc, current)
      else
        var key := doc.keys[current];
        (doc.(keys := doc.keys[current :=
          key.(values := key.values - {ToLower(name)}, removedValues := key.removedValues + [name])]), current)
    case SetValue(_, v) =>
      if current !in doc.keys then (doc, current)
      else
        var key := doc.keys[current];
        (doc.(keys := doc.keys[current := key.(values := key.values[ToLower(v.name) := v])]), current)
  }

  function Folded(ops: seq<Operation>): (Document, wstring) {
    if ops == [] then (Document([], map[]), [])
    else
      var (doc, current) := Folded(ops[..|ops| - 1]);
      Fold(doc, current, ops[|ops| - 1])
  }

  // ----- the loop

  lemma FoldedStep(ops: seq<Operation>, i: nat)
    requires i < |ops|
    ensures Folded(ops[..i + 1]) == Fold(Folded(ops[..i]).0, Folded(ops[..i]).1, ops[i])
  {
    hide Fold;
    assert ops[..i + 1][..i] == ops[..i];
  }

  /** Erases the entries below a deleted key, and their paths only if there were any. */
  method EraseBelow(doc: Document, lower: wstring) returns (output: Document)
    ensures output == WithoutBelow(doc, lower)
  {
    hide Surviving;
    output := doc;
    var prefix := lower + [BACKSLASH];
    var kept := map k | k in doc.keys && !(prefix <= k) :: doc.keys[k];
    if kept.Keys != doc.keys.Keys {
      output := Document(Surviving(doc.keyOrder, kept), kept);
    }
  }

  method FoldSection(doc: Document, operation: Operation) returns (output: Document, current: wstring)
    requires operation.Key? || operation.RemoveKey?
    ensures forall before :: (output, current) == Fold(doc, before, operation)
  {
    hide WithoutBelow;
    output := doc;
    var lower := ToLower(operation.path);
    if lower !in output.keys {
      output := Document(output.keyOrder
                         + [operation.path], output.keys[lower := DocKey(operation.path, map[], [], false, false)]);
    }
    current := lower;
    var key := output.keys[lower];
    if operation.Key? {
      output := output.(keys := output.keys[lower := key.(recreated := key.removed)]);
      return;
    }
    output := output.(keys := output.keys[lower :=
      key.(values := map[], removedValues := [], removed := true, recreated := false)]);
    output := EraseBelow(output, lower);
  }

  method Parse(cp: CodePage, content: wstring) returns (output: Option<Document>)
    ensures Parsed(cp, content).None? ==> output.None?
    ensures Parsed(cp, content).Some? ==> output == Some(Folded(Parsed(cp, content).value).0)
  {
    hide Fold, Folded, Parsed;
    var parsed := ParseOperations(cp, content);
    if parsed.None? {
      return None;
    }
    var operations := parsed.value;
    var doc := Document([], map[]);
    var current: wstring := [];
    assert (doc, current) == Folded(operations[..0]) by { FoldedEmpty(); }
    for i := 0 to |operations|
      invariant (doc, current) == Folded(operations[..i])
    {
      FoldedStep(operations, i);
      doc, current := FoldStep(doc, current, operations[i]);
    }
    assert operations[..|operations|] == operations;
    output := Some(doc);
  }

  lemma FoldedEmpty()
    ensures Folded([]) == (Document([], map[]), [])
  {}

  method FoldStep(doc: Document, key: wstring, operation: Operation) returns (output: Document, current: wstring)
    ensures (output, current) == Fold(doc, key, operation)
  {
    hide WithoutBelow, Entered;
    output, current := doc, key;
    if operation.Key? || operation.RemoveKey? {
      output, current := FoldSection(doc, operation);
    } else if current in doc.keys {
      var target := doc.keys[current];
      if operation.RemoveValue? {
        target := target.(values := target.values - {ToLower(operation.name)}, removedValues :=
          target.removedValues + [operation.name]);
      } else {
        target := target.(values := target.values[ToLower(operation.value.name) := operation.value]);
      }
      output := doc.(keys := doc.keys[current := target]);
    }
  }
}
