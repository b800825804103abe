/** A registry key with its values and subkeys. */
module RegistryKeys {
  import opened Text
  import opened ValueFormat

  datatype Key = Key(
    name: wstring, className: wstring, linkTarget: wstring, isVolatile: bool, values: seq<RegistryValue>,
      children: seq<Key>)

  /** Index of the first child of that name, or -1. */
  function IndexOf(children: seq<Key>, name: wstring): (r: int)
    ensures -1 <= r < |children|
    ensures r >= 0 ==> EqualsInsensitive(children[r].name, name)
    ensures forall i :: 0 <= i < (if r == -1 then |children| else r) ==> !EqualsInsensitive(children[i].name, name)
  {
    if children == [] then -1
    else if EqualsInsensitive(children[0].name, name) then 0
    else
      var r := IndexOf(children[1..], name);
      if r == -1 then -1 else r + 1
  }

  /** Index of the first value of that name, or -1. */
  function ValueIndex(values: seq<RegistryValue>, name: wstring): (r: int)
    ensures -1 <= r < |values|
    ensures r >= 0 ==> EqualsInsensitive(values[r].name, name)
    ensures forall i :: 0 <= i < (if r == -1 then |values| else r) ==> !EqualsInsensitive(values[i].name, name)
  {
    if values == [] then -1
    else if EqualsInsensitive(values[0].name, name) then 0
    else
      var r := ValueIndex(values[1..], name);
      if r == -1 then -1 else r + 1
  }

  /** Names tell the values apart. */
  predicate HasDistinctValues(values: seq<RegistryValue>) {
    forall i, j :: 0 <= i < j < |values| ==> !EqualsInsensitive(values[i].name, values[j].name)
  }

  /** Names tell the subkeys apart. */
  predicate HasDistinctChildren(children: seq<Key>) {
    forall i, j :: 0 <= i < j < |children| ==> !EqualsInsensitive(children[i].name, children[j].name)
  }
}
