/** The properties of Microsoft.Win32.Registry that stand for root keys. */
module PowerShellRoots {
  import opened Text
  import opened ValueFormat
  import opened KeyPaths

  /** In the order of the root names. */
  const PROPERTIES: seq<wstring> :=
    [W("ClassesRoot"), W("CurrentUser"), W("LocalMachine"), W("Users"), W("CurrentConfig")]

  /** The property of a root, empty when it has none. */
  function PropertyFrom(root: wstring, i: nat): wstring
    requires i <= BROWSABLE_ROOTS
    decreases BROWSABLE_ROOTS - i
  {
    if i == BROWSABLE_ROOTS then []
    else (if root == ROOTS[i].name then PROPERTIES[i] else []) + PropertyFrom(root, i + 1)
  }

  /** The root of the first property from `i` on that has the name. */
  function RootFrom(property: wstring, i: nat): Option<wstring>
    requires i <= BROWSABLE_ROOTS
    decreases BROWSABLE_ROOTS - i
  {
    if i == BROWSABLE_ROOTS then None
    else if EqualsInsensitive(property, PROPERTIES[i]) then Some(ROOTS[i].name)
    else RootFrom(property, i + 1)
  }

  /** Every root is read back from its property, in any case. */
  lemma RootOfProperty(i: nat)
    requires i < BROWSABLE_ROOTS
    ensures PropertyFrom(ROOTS[i].name, 0) == PROPERTIES[i]
    ensures RootFrom(ToLower(PROPERTIES[i]), 0) == Some(ROOTS[i].name)
  {
    forall j: nat | j < BROWSABLE_ROOTS ensures ROOTS[j].name == ROOTS[i].name <==> j == i {
      if j != i { RootsDiffer(j, i); RootIsItself(j); }
    }
    forall j: nat | j < BROWSABLE_ROOTS ensures EqualsInsensitive(ToLower(PROPERTIES[i]), PROPERTIES[j]) <==> j == i {
      PropertiesDiffer(i, j);
    }
    hide ROOTS, PROPERTIES, EqualsInsensitive, IsNameOf, ToLower;
    RootIs(ToLower(PROPERTIES[i]), i, 0);
  }

  lemma RootIsItself(j: nat)
    requires j < BROWSABLE_ROOTS
    ensures IsNameOf(ROOTS[j].name, ROOTS[j])
  {}

  lemma PropertiesDiffer(i: nat, j: nat)
    requires i < BROWSABLE_ROOTS && j < BROWSABLE_ROOTS
    ensures EqualsInsensitive(ToLower(PROPERTIES[i]), PROPERTIES[j]) <==> j == i
  {
    var a, b := PROPERTIES[i], PROPERTIES[j];
    if i != j && |a| == |b| { assert UpperUnit(ToLower(a)[1]) != UpperUnit(b[1]); }
  }

  lemma {:induction false} RootIs(property: wstring, i: nat, at: nat)
    requires at <= i < BROWSABLE_ROOTS
    requires forall j: nat :: j < BROWSABLE_ROOTS ==> (EqualsInsensitive(property, PROPERTIES[j]) <==> j == i)
    ensures RootFrom(property, at) == Some(ROOTS[i].name)
    decreases BROWSABLE_ROOTS - at
  {
    hide ROOTS, PROPERTIES, EqualsInsensitive;
    if at < i { RootIs(property, i, at + 1); }
  }
}
