/** What operations do to a registry: keys by lower-case path, values by lower-case name. */
module RegistryEffect {
  import opened Text
  import opened ValueFormat
  import opened Operations

  type Values = map<wstring, (uint32, seq<byte>)>
  type Registry = map<wstring, Values>

  /** q is p or lies below it. */
  predicate Under(p: wstring, q: wstring) {
    q == p || (|p| < |q| && q[..|p|] == p && q[|p|] == BACKSLASH)
  }

  /** p and the keys above it. */
  function Ancestors(p: wstring): (r: set<wstring>)
    ensures forall a :: a in r <==> Under(a, p)
  {
    var r := set i | 0 <= i <= |p| && (i == |p| || p[i] == BACKSLASH) :: p[..i];
    assert forall a :: Under(a, p) ==> a in r by {
      forall a | Under(a, p) ensures a in r {
        assert p[..|a|] == a;
      }
    }
    r
  }

  lemma UnderTransitive(a: wstring, b: wstring, c: wstring)
    requires Under(a, b) && Under(b, c)
    ensures Under(a, c)
  {
    if a != b && b != c {
      assert c[..|a|] == b[..|a|];
    }
  }

  /** The keys above one key form a chain. */
  lemma UnderChain(a: wstring, b: wstring, c: wstring)
    requires Under(a, c) && Under(b, c)
    ensures Under(a, b) || Under(b, a)
  {
    if |a| <= |b| {
      assert b[..|a|] == c[..|b|][..|a|] == c[..|a|];
      if |a| == |b| { assert a == b; }
    } else {
      assert a[..|b|] == c[..|a|][..|b|] == c[..|b|];
    }
  }

  lemma UnderAntisymmetric(a: wstring, b: wstring)
    requires Under(a, b) && Under(b, a)
    ensures a == b
  {}

  /** Keys that are missing are added without values. */
  function AddEmpty(reg: Registry, keys: set<wstring>): (r: Registry)
    ensures r.Keys == reg.Keys + keys
    ensures forall k :: k in r ==> r[k] == if k in reg then reg[k] else map[]
  {
    map k | k in reg.Keys + keys :: if k in reg then reg[k] else map[]
  }

  /** Creating a key creates the keys above it. */
  function Create(reg: Registry, p: wstring): Registry {
    AddEmpty(reg, Ancestors(p))
  }

  /** Deleting a key deletes everything below it. */
  function Delete(reg: Registry, p: wstring): (r: Registry)
    ensures forall k :: k in r <==> k in reg && !Under(p, k)
    ensures forall k :: k in r ==> r[k] == reg[k]
  {
    map k | k in reg && !Under(p, k) :: reg[k]
  }

  /** Replaces the values of a key that exists. */
  function Alter(reg: Registry, p: wstring, f: Values -> Values): (r: Registry)
    ensures r.Keys == reg.Keys
    ensures forall k :: k in r ==> r[k] == if k == p then f(reg[k]) else reg[k]
  {
    map k | k in reg :: if k == p then f(reg[k]) else reg[k]
  }

  function Apply(op: Operation, reg: Registry): Registry {
    match op
    case Key(p) => Create(reg, ToLower(p))
    case RemoveKey(p) => Delete(reg, ToLower(p))
    case SetValue(p, v) => Alter(Create(reg, ToLower(p)), ToLower(p),
                                 (vs: Values) => vs[ToLower(v.name) := (v.kind, v.data)])
    case RemoveValue(p, n) => Alter(reg, ToLower(p), (vs: Values) => vs - {ToLower(n)})
  }

  /** The operations one after the other. */
  function Replay(ops: seq<Operation>, reg: Registry): Registry
    decreases |ops|
  {
    if ops == [] then reg else Apply(ops[|ops| - 1], Replay(ops[..|ops| - 1], reg))
  }

  lemma {:induction false} ReplayConcat(a: seq<Operation>, b: seq<Operation>, reg: Registry)
    ensures Replay(a + b, reg) == Replay(b, Replay(a, reg))
    decreases |b|
  {
    if b == [] {
      assert a + b == a;
    } else {
      assert (a + b)[..|a + b| - 1] == a + b[..|b| - 1];
      ReplayConcat(a, b[..|b| - 1], reg);
    }
  }
}
