/** Fields of bits in a 64-bit value: taking a field out and putting it back. */
module BitFields {
  import opened Text
  import opened ValueFormat

  // ----- words

  function Pow2(n: nat): (p: nat)
    ensures p > 0
  {
    if n == 0 then 1 else 2 * Pow2(n - 1)
  }

  /** Bit i of a number. */
  predicate Bit(v: nat, i: nat)
    decreases i
  {
    if i == 0 then v % 2 == 1 else Bit(v / 2, i - 1)
  }

  /** Bitwise or. */
  function BitOr(a: nat, b: nat): nat {
    if a == 0 then b
    else (if a % 2 == 1 || b % 2 == 1 then 1 else 0) + 2 * BitOr(a / 2, b / 2)
  }

  /** Bitwise and with the complement. */
  function AndNot(a: nat, b: nat): nat {
    if a == 0 then 0
    else (if a % 2 == 1 && b % 2 == 0 then 1 else 0) + 2 * AndNot(a / 2, b / 2)
  }

  lemma {:induction false} NoBits(i: nat)
    ensures !Bit(0, i)
  {
    if i > 0 { NoBits(i - 1); }
  }

  lemma {:induction false} OrBits(a: nat, b: nat, i: nat)
    ensures Bit(BitOr(a, b), i) <==> Bit(a, i) || Bit(b, i)
    decreases i
  {
    NoBits(i);
    if a != 0 && i > 0 {
      OrBits(a / 2, b / 2, i - 1);
      assert BitOr(a, b) / 2 == BitOr(a / 2, b / 2);
    }
  }

  lemma {:induction false} AndNotBits(a: nat, b: nat, i: nat)
    ensures Bit(AndNot(a, b), i) <==> Bit(a, i) && !Bit(b, i)
    decreases i
  {
    NoBits(i);
    if a != 0 && i > 0 {
      AndNotBits(a / 2, b / 2, i - 1);
      assert AndNot(a, b) / 2 == AndNot(a / 2, b / 2);
    }
  }

  lemma {:induction false} PowerBits(n: nat, i: nat)
    ensures Bit(Pow2(n), i) <==> i == n
    decreases n
  {
    if n == 0 {
      if i > 0 { NoBits(i - 1); }
    } else if i > 0 {
      PowerBits(n - 1, i - 1);
    }
  }

  /** Numbers below 2^n with the same bits are the same. */
  lemma {:induction false} SameBits(a: nat, b: nat, n: nat)
    requires a < Pow2(n) && b < Pow2(n) && forall i :: 0 <= i < n ==> Bit(a, i) == Bit(b, i)
    ensures a == b
    decreases n
  {
    if n > 0 {
      assert Bit(a, 0) == Bit(b, 0);
      forall i | 0 <= i < n - 1 ensures Bit(a / 2, i) == Bit(b / 2, i) {
        assert Bit(a, i + 1) == Bit(b, i + 1);
      }
      SameBits(a / 2, b / 2, n - 1);
    }
  }

  lemma {:induction false} OrIsBounded(a: nat, b: nat, n: nat)
    requires a < Pow2(n) && b < Pow2(n)
    ensures BitOr(a, b) < Pow2(n)
    decreases n
  {
    if n > 0 && a != 0 { OrIsBounded(a / 2, b / 2, n - 1); }
  }

  lemma {:induction false} AndNotIsBounded(a: nat, b: nat)
    ensures AndNot(a, b) <= a
    decreases a
  {
    if a != 0 { AndNotIsBounded(a / 2, b / 2); }
  }

  lemma {:induction false} PowerGrows(m: nat, n: nat)
    requires m < n
    ensures 2 * Pow2(m) <= Pow2(n)
    decreases n
  {
    if m < n - 1 { PowerGrows(m, n - 1); }
  }

  /** The remainder keeps the low bits. */
  lemma {:induction false} ModBits(v: nat, n: nat, i: nat)
    ensures v % Pow2(n) < Pow2(n)
    ensures Bit(v % Pow2(n), i) <==> i < n && Bit(v, i)
    decreases n
  {
    if n == 0 {
      NoBits(i);
    } else {
      HalfMod(v, n);
      if i > 0 { ModBits(v / 2, n - 1, i - 1); }
    }
  }

  lemma HalfMod(v: nat, n: nat)
    requires n > 0
    ensures (v % Pow2(n)) / 2 == (v / 2) % Pow2(n - 1) && (v % Pow2(n)) % 2 == v % 2
  {
    HalfOfRest(v, Pow2(n - 1), v % Pow2(n));
    hide Pow2;
  }

  /** The rest of a number behind twice p, halved. */
  lemma HalfOfRest(v: nat, p: nat, r: nat)
    requires p > 0 && r == v % (2 * p)
    ensures r / 2 == (v / 2) % p && r % 2 == v % 2
  {
    DivideTwice(v, p);
    var q := v / (2 * p);
    HalfParts(v, p, q, q * p, r);
  }

  lemma HalfParts(v: nat, p: nat, q: nat, m: nat, r: nat)
    requires p > 0 && m == q * p && v == 2 * m + r && r < 2 * p
    ensures r / 2 == (v / 2) % p && r % 2 == v % 2
  {
    ModIs(v / 2, p, q, r / 2);
  }

  lemma DivideTwice(v: nat, p: nat)
    requires p > 0
    ensures v == 2 * ((v / (2 * p)) * p) + v % (2 * p) && 0 <= v % (2 * p) < 2 * p
  {
    var q := v / (2 * p);
    assert v == q * (2 * p) + v % (2 * p);
    assert q * (2 * p) == 2 * (q * p);
  }

  lemma {:induction false} NextMultiple(q: nat, d: nat, p: nat)
    requires q < d
    ensures d * p >= q * p + p
    decreases d
  {
    assert d * p == (d - 1) * p + p;
    if q < d - 1 { NextMultiple(q, d - 1, p); }
  }

  lemma QuotientIsUnique(q: nat, r: nat, d: nat, s: nat, p: nat)
    requires r < p && s < p && q * p + r == d * p + s
    ensures q == d && r == s
  {
    if q < d { NextMultiple(q, d, p); }
    if d < q { NextMultiple(d, q, p); }
  }

  lemma ModIs(h: nat, p: nat, q: nat, r: nat)
    requires p > 0 && r < p && h == q * p + r
    ensures h % p == r
  {
    assert h == (h / p) * p + h % p;
    QuotientIsUnique(q, r, h / p, h % p, p);
  }

  // ----- fields

  datatype State = State(value: nat, name: wstring, meaning: wstring)

  datatype Field = Field(name: wstring, bits: seq<nat>, meaning: wstring, states: seq<State>, mask: nat)

  /** Strictly ascending and below 64: what a definition guarantees of its fields. */
  predicate AreBits(bits: seq<nat>) {
    && (forall i, j :: 0 <= i < j < |bits| ==> bits[i] < bits[j])
    && (forall i :: 0 <= i < |bits| ==> bits[i] < 64)
  }

  function ExtractedUpTo(bits: seq<nat>, value: nat, n: nat): nat
    requires n <= |bits|
  {
    if n == 0 then 0
    else
      var out := ExtractedUpTo(bits, value, n - 1);
      if Bit(value, bits[n - 1]) then BitOr(out, Pow2(n - 1)) else out
  }

  /** The bits of a field, pushed together. */
  function Extracted(bits: seq<nat>, value: nat): nat {
    ExtractedUpTo(bits, value, |bits|)
  }

  function AppliedUpTo(bits: seq<nat>, value: nat, fieldValue: nat, n: nat): nat
    requires n <= |bits|
  {
    if n == 0 then value
    else
      var before := AppliedUpTo(bits, value, fieldValue, n - 1);
      if Bit(fieldValue, n - 1) then BitOr(before, Pow2(bits[n - 1])) else AndNot(before, Pow2(bits[n - 1]))
  }

  /** The value with the bits of a field spread into their places. */
  function Applied(bits: seq<nat>, value: nat, fieldValue: nat): nat {
    AppliedUpTo(bits, value, fieldValue, |bits|)
  }

  method Extract(field: Field, value: nat) returns (out: nat)
    ensures out == Extracted(field.bits, value)
  {
    hide Bit, BitOr, Pow2;
    out := 0;
    for i := 0 to |field.bits|
      invariant out == ExtractedUpTo(field.bits, value, i)
    {
      if Bit(value, field.bits[i]) {
        out := BitOr(out, Pow2(i));
      }
    }
  }

  method Apply(field: Field, value: nat, fieldValue: nat) returns (out: nat)
    ensures out == Applied(field.bits, value, fieldValue)
  {
    hide Bit, BitOr, AndNot, Pow2;
    out := value;
    for i := 0 to |field.bits|
      invariant out == AppliedUpTo(field.bits, value, fieldValue, i)
    {
      var bit := Pow2(field.bits[i]);
      if Bit(fieldValue, i) {
        out := BitOr(out, bit);
      } else {
        out := AndNot(out, bit);
      }
    }
  }

  // ----- what the bits of the results are

  lemma {:induction false} ExtractedBits(bits: seq<nat>, value: nat, n: nat, i: nat)
    requires n <= |bits|
    ensures Bit(ExtractedUpTo(bits, value, n), i) <==> i < n && Bit(value, bits[i])
    ensures ExtractedUpTo(bits, value, n) < Pow2(n)
    decreases n
  {
    hide Bit, BitOr;
    if n == 0 {
      NoBits(i);
    } else {
      ExtractedBits(bits, value, n - 1, i);
      OrBits(ExtractedUpTo(bits, value, n - 1), Pow2(n - 1), i);
      PowerBits(n - 1, i);
      OrIsBounded(ExtractedUpTo(bits, value, n - 1), Pow2(n - 1), n);
    }
  }

  lemma {:induction false} AppliedBits(bits: seq<nat>, value: nat, fieldValue: nat, n: nat)
    requires n <= |bits| && AreBits(bits)
    ensures forall i :: 0 <= i < n ==> Bit(AppliedUpTo(bits, value, fieldValue, n), bits[i]) == Bit(fieldValue, i)
    ensures forall b: nat :: b !in bits[..n] ==> Bit(AppliedUpTo(bits, value, fieldValue, n), b) == Bit(value, b)
    ensures value < Pow2(64) ==> AppliedUpTo(bits, value, fieldValue, n) < Pow2(64)
    decreases n
  {
    hide Bit, BitOr, AndNot, Pow2;
    if n > 0 {
      AppliedBits(bits, value, fieldValue, n - 1);
      var before, at := AppliedUpTo(bits, value, fieldValue, n - 1), bits[n - 1];
      forall b: nat
        ensures Bit(AppliedUpTo(bits, value, fieldValue, n), b) == if b == at then Bit(fieldValue, n - 1)
                                                                   else Bit(before, b)
      {
        OrBits(before, Pow2(at), b);
        AndNotBits(before, Pow2(at), b);
        PowerBits(at, b);
      }
      assert bits[..n] == bits[..n - 1] + [at];
      PowerFits(at);
      if value < Pow2(64) { OrIsBounded(before, Pow2(at), 64); }
      AndNotIsBounded(before, Pow2(at));
    }
  }

  lemma PowerFits(b: nat)
    requires b < 64
    ensures Pow2(b) < Pow2(64)
  {
    PowerGrows(b, 64);
    hide Pow2;
  }

  /** Taking out what was put in gives its low bits. */
  lemma ExtractOfApply(bits: seq<nat>, value: nat, fieldValue: nat)
    requires AreBits(bits)
    ensures Extracted(bits, Applied(bits, value, fieldValue)) == fieldValue % Pow2(|bits|)
  {
    hide Bit, Pow2, ExtractedUpTo, AppliedUpTo;
    var n := |bits|;
    var out := Applied(bits, value, fieldValue);
    AppliedBits(bits, value, fieldValue, n);
    forall i | 0 <= i < n ensures Bit(Extracted(bits, out), i) == Bit(fieldValue % Pow2(n), i) {
      ExtractedBits(bits, out, n, i);
      ModBits(fieldValue, n, i);
    }
    ExtractedBits(bits, out, n, 0);
    ModBits(fieldValue, n, 0);
    SameBits(Extracted(bits, out), fieldValue % Pow2(n), n);
  }

  /** Putting back what was taken out changes nothing. */
  lemma ApplyOfExtract(bits: seq<nat>, value: nat)
    requires AreBits(bits) && value < Pow2(64)
    ensures Applied(bits, value, Extracted(bits, value)) == value
  {
    hide Bit, Pow2, ExtractedUpTo, AppliedUpTo;
    var n, f := |bits|, Extracted(bits, value);
    AppliedBits(bits, value, f, n);
    assert bits[..n] == bits;
    forall b | 0 <= b < 64 ensures Bit(Applied(bits, value, f), b) == Bit(value, b) {
      if b in bits {
        var i :| 0 <= i < n && bits[i] == b;
        ExtractedBits(bits, value, n, i);
      }
    }
    SameBits(Applied(bits, value, f), value, 64);
  }

  /** Bits outside a field never change. */
  lemma ApplyIsLocal(bits: seq<nat>, value: nat, fieldValue: nat, b: nat)
    requires AreBits(bits) && b !in bits
    ensures Bit(Applied(bits, value, fieldValue), b) == Bit(value, b)
  {
    hide Bit, AppliedUpTo;
    AppliedBits(bits, value, fieldValue, |bits|);
    assert bits[..|bits|] == bits;
  }

  /** Fields without a common bit can be put in either order, and do not disturb each other. */
  lemma DisjointFieldsCommute(a: seq<nat>, b: seq<nat>, value: nat, x: nat, y: nat)
    requires AreBits(a) && AreBits(b) && value < Pow2(64) && forall i :: 0 <= i < |a| ==> a[i] !in b
    ensures Applied(a, Applied(b, value, y), x) == Applied(b, Applied(a, value, x), y)
    ensures Extracted(b, Applied(a, value, x)) == Extracted(b, value)
  {
    hide Bit, Pow2, ExtractedUpTo, AppliedUpTo;
    var l, r := Applied(a, Applied(b, value, y), x), Applied(b, Applied(a, value, x), y);
    AppliedBits(b, value, y, |b|);
    AppliedBits(a, value, x, |a|);
    AppliedBits(a, Applied(b, value, y), x, |a|);
    AppliedBits(b, Applied(a, value, x), y, |b|);
    assert a[..|a|] == a && b[..|b|] == b;
    forall k | 0 <= k < 64 ensures Bit(l, k) == Bit(r, k) {
      if k in a {
        var i :| 0 <= i < |a| && a[i] == k;
        assert k !in b;
      } else if k in b {
        var j :| 0 <= j < |b| && b[j] == k;
      }
    }
    SameBits(l, r, 64);
    forall j | 0 <= j < |b| ensures Bit(Extracted(b, Applied(a, value, x)), j) == Bit(Extracted(b, value), j) {
      ExtractedBits(b, Applied(a, value, x), |b|, j);
      ExtractedBits(b, value, |b|, j);
      assert b[j] !in a;
    }
    ExtractedBits(b, Applied(a, value, x), |b|, 0);
    ExtractedBits(b, value, |b|, 0);
    SameBits(Extracted(b, Applied(a, value, x)), Extracted(b, value), |b|);
  }

  /** The low bits of a field alone. */
  lemma ExtractOfPrefix(bits: seq<nat>, value: nat, kept: nat)
    requires kept <= |bits|
    ensures Extracted(bits[..kept], value) == Extracted(bits, value) % Pow2(kept)
  {
    hide Bit, Pow2, ExtractedUpTo;
    var low := bits[..kept];
    forall i | 0 <= i < kept ensures Bit(Extracted(low, value), i) == Bit(Extracted(bits, value) % Pow2(kept), i) {
      ExtractedBits(low, value, kept, i);
      ModBits(Extracted(bits, value), kept, i);
      ExtractedBits(bits, value, |bits|, i);
    }
    ExtractedBits(low, value, kept, 0);
    ModBits(Extracted(bits, value), kept, 0);
    SameBits(Extracted(low, value), Extracted(bits, value) % Pow2(kept), kept);
  }

  // ----- states

  /** The first state of a value, or -1. */
  function StateIndex(states: seq<State>, fieldValue: nat): (r: int)
    ensures -1 <= r < |states| && (r >= 0 ==> states[r].value == fieldValue)
    ensures r == -1 ==> forall i :: 0 <= i < |states| ==> states[i].value != fieldValue
  {
    if states == [] then -1
    else if states[0].value == fieldValue then 0
    else
      var r := StateIndex(states[1..], fieldValue);
      if r == -1 then -1 else r + 1
  }

  method StateFor(field: Field, fieldValue: nat) returns (state: Option<State>)
    ensures state == if StateIndex(field.states, fieldValue) == -1 then None
                     else Some(field.states[StateIndex(field.states, fieldValue)])
  {
    var states := field.states;
    for i := 0 to |states|
      invariant StateIndex(states, fieldValue) == if StateIndex(states[i..], fieldValue) == -1 then -1
                                                  else i + StateIndex(states[i..], fieldValue)
    {
      assert states[i..][0] == states[i] && states[i..][1..] == states[i + 1..];
      if states[i].value == fieldValue {
        return Some(states[i]);
      }
    }
    state := None;
  }

  function WidthMask(width: nat): nat {
    if width >= 64 then 0xFFFF_FFFF_FFFF_FFFF else Pow2(width) - 1
  }

  lemma WidthMaskIsPower(width: nat)
    requires width <= 64
    ensures WidthMask(width) == Pow2(width) - 1
  {
    if width == 64 { Power64(); }
  }

  lemma Power4()
    ensures Pow2(4) == 16
  {}

  lemma Power64()
    ensures Pow2(64) == 0x1_0000_0000_0000_0000
  {
    hide Pow2;
    assert Pow2(4) == 16 by { Power4(); }
    PowerSplit(4, 4);
    PowerSplit(8, 8);
    PowerSplit(16, 16);
    PowerSplit(32, 32);
  }

  lemma {:induction false} PowerSplit(m: nat, n: nat)
    ensures Pow2(m + n) == Pow2(m) * Pow2(n)
    decreases n
  {
    if n > 0 {
      PowerSplit(m, n - 1);
    }
  }

  predicate HasDistinctValues(states: seq<State>) {
    forall i, j :: 0 <= i < j < |states| ==> states[i].value != states[j].value
  }

  /** Applying the value of a state makes it the state of the field. */
  lemma AppliedStateIsFound(field: Field, value: nat, i: nat)
    requires AreBits(field.bits) && |field.bits| <= 64 && HasDistinctValues(field.states)
    requires i < |field.states| && field.states[i].value <= WidthMask(|field.bits|)
    ensures StateIndex(field.states, Extracted(field.bits, Applied(field.bits, value, field.states[i].value))) == i
  {
    hide ExtractedUpTo, AppliedUpTo;
    ExtractOfApply(field.bits, value, field.states[i].value);
    WidthMaskIsPower(|field.bits|);
    SmallMod(field.states[i].value, Pow2(|field.bits|));
    var r := StateIndex(field.states, field.states[i].value);
    assert r != -1;
  }

  lemma SmallMod(v: nat, p: nat)
    requires v < p
    ensures v % p == v
  {}
}
