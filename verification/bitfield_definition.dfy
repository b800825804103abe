/** Definitions of bit fields: what is accepted, the order and the lookup it gets, and a change of its width. */
module BitFieldDefinitions {
  import opened Text
  import opened BitFields

  const MAX_NAME_LENGTH := 256
  const MAX_STATES := 256
  const MAX_MEANING_LENGTH := 4096
  const MAX_COMMENT_LENGTH := 16384
  const MAX_PATH_LENGTH := 512
  const MAX_PATHS := 16
  const MAX_BYTE_OFFSET := 65536
  const MAX_FIELDS := 64

  // ----- what is accepted

  predicate ValidWidth(width: nat) {
    width == 8 || width == 16 || width == 32 || width == 64
  }

  predicate IsState(state: State, limit: nat) {
    0 < |state.name| <= MAX_NAME_LENGTH && |state.meaning| <= MAX_MEANING_LENGTH && state.value <= limit
  }

  predicate AreStates(states: seq<State>, limit: nat) {
    |states| <= MAX_STATES && HasDistinctValues(states) && forall i :: 0 <= i < |states| ==> IsState(states[i], limit)
  }

  predicate Ascending(bits: seq<nat>) {
    forall i, j :: 0 <= i < j < |bits| ==> bits[i] < bits[j]
  }

  predicate IsField(field: Field, width: nat) {
    && 0 < |field.name| <= MAX_NAME_LENGTH && |field.meaning| <= MAX_MEANING_LENGTH
    && field.bits != [] && Ascending(field.bits) && (forall b :: b in field.bits ==> b < width)
    && AreStates(field.states, WidthMask(|field.bits|))
  }

  /** Two fields of one definition share neither a bit nor a name. */
  predicate Apart(a: Field, b: Field) {
    (forall bit :: bit in a.bits ==> bit !in b.bits) && !EqualsInsensitive(a.name, b.name)
  }

  predicate AreFields(fields: seq<Field>, width: nat) {
    && |fields| <= MAX_FIELDS
    && (forall i :: 0 <= i < |fields| ==> IsField(fields[i], width))
    && (forall i, j :: 0 <= i < j < |fields| ==> Apart(fields[i], fields[j]))
  }

  predicate IsHead(name: wstring, valueName: wstring, keyPaths: seq<wstring>, byteOffset: nat, comment: wstring) {
    && byteOffset <= MAX_BYTE_OFFSET && |name| <= MAX_NAME_LENGTH && |valueName| <= MAX_NAME_LENGTH
    && |comment| <= MAX_COMMENT_LENGTH && |keyPaths| <= MAX_PATHS
    && forall i :: 0 <= i < |keyPaths| ==> 0 < |keyPaths[i]| <= MAX_PATH_LENGTH
  }

  lemma ApartIsSymmetric(a: Field, b: Field)
    requires Apart(a, b)
    ensures Apart(b, a)
  {
    EqualsInsensitiveIsEqualLower(a.name, b.name);
    EqualsInsensitiveIsEqualLower(b.name, a.name);
    hide EqualsInsensitive;
  }

  // ----- the order

  /** Stable: behind everything that is not larger. */
  function InsertState(state: State, sorted: seq<State>): seq<State> {
    if sorted == [] then [state]
    else if sorted[|sorted| - 1].value <= state.value then sorted + [state]
    else InsertState(state, sorted[..|sorted| - 1]) + [sorted[|sorted| - 1]]
  }

  function SortedStates(states: seq<State>): seq<State> {
    if states == [] then [] else InsertState(states[|states| - 1], SortedStates(states[..|states| - 1]))
  }

  function Front(field: Field): nat {
    if field.bits == [] then 0 else field.bits[0]
  }

  function InsertField(field: Field, sorted: seq<Field>): seq<Field> {
    if sorted == [] then [field]
    else if Front(sorted[|sorted| - 1]) <= Front(field) then sorted + [field]
    else InsertField(field, sorted[..|sorted| - 1]) + [sorted[|sorted| - 1]]
  }

  function SortedFields(fields: seq<Field>): seq<Field> {
    if fields == [] then [] else InsertField(fields[|fields| - 1], SortedFields(fields[..|fields| - 1]))
  }

  predicate StatesAreSorted(states: seq<State>) {
    forall i, j :: 0 <= i < j < |states| ==> states[i].value <= states[j].value
  }

  predicate FieldsAreSorted(fields: seq<Field>) {
    forall i, j :: 0 <= i < j < |fields| ==> Front(fields[i]) <= Front(fields[j])
  }

  lemma {:induction false} InsertStateMembers(state: State, sorted: seq<State>)
    ensures var r := InsertState(state, sorted);
            && |r| == |sorted| + 1 && multiset(r) == multiset(sorted) + multiset{state}
            && (forall i :: 0 <= i < |r| ==> r[i] == state || r[i] in sorted)
    decreases |sorted|
  {
    if sorted != [] && sorted[|sorted| - 1].value > state.value {
      var before, last := sorted[..|sorted| - 1], sorted[|sorted| - 1];
      InsertStateMembers(state, before);
      assert sorted == before + [last];
    }
  }

  lemma AppendState(states: seq<State>, last: State)
    requires StatesAreSorted(states) && HasDistinctValues(states)
    requires forall i :: 0 <= i < |states| ==> states[i].value < last.value
    ensures StatesAreSorted(states + [last]) && HasDistinctValues(states + [last])
  {}

  lemma {:induction false} InsertStateKeeps(state: State, sorted: seq<State>)
    requires StatesAreSorted(sorted) && HasDistinctValues(sorted)
    requires forall i :: 0 <= i < |sorted| ==> sorted[i].value != state.value
    ensures StatesAreSorted(InsertState(state, sorted)) && HasDistinctValues(InsertState(state, sorted))
    decreases |sorted|
  {
    if sorted != [] {
      var before, last := sorted[..|sorted| - 1], sorted[|sorted| - 1];
      assert forall i :: 0 <= i < |before| ==> before[i] == sorted[i] && before[i].value < last.value;
      if last.value > state.value {
        InsertStateKeeps(state, before);
        InsertStateMembers(state, before);
        AppendState(InsertState(state, before), last);
      } else {
        AppendState(sorted, state);
      }
    }
  }

  lemma UnfoldSortedStates(states: seq<State>)
    requires states != []
    ensures SortedStates(states) == InsertState(states[|states| - 1], SortedStates(states[..|states| - 1]))
    ensures SortedStates([]) == []
  {
    hide InsertState;
  }

  lemma DistinctBefore(before: seq<State>, last: State)
    requires HasDistinctValues(before + [last])
    ensures HasDistinctValues(before) && forall s :: s in before ==> s.value != last.value
  {
    var all := before + [last];
    assert forall i :: 0 <= i < |before| ==> before[i] == all[i];
    assert all[|before|] == last;
  }

  lemma {:induction false} SortKeepsStates(states: seq<State>, limit: nat)
    requires HasDistinctValues(states) && forall i :: 0 <= i < |states| ==> IsState(states[i], limit)
    ensures var r := SortedStates(states);
            && |r| == |states| && StatesAreSorted(r) && HasDistinctValues(r) && multiset(r) == multiset(states)
            && (forall i :: 0 <= i < |r| ==> IsState(r[i], limit) && r[i] in states)
    decreases |states|
  {
    hide IsState, InsertState, SortedStates, StatesAreSorted, HasDistinctValues;
    if states == [] {
      NoStates();
    } else {
      var before, last := states[..|states| - 1], states[|states| - 1];
      assert states == before + [last];
      DistinctBefore(before, last);
      assert forall i :: 0 <= i < |before| ==> before[i] == states[i];
      SortKeepsStates(before, limit);
      UnfoldSortedStates(states);
      InsertStateKeeps(last, SortedStates(before));
      InsertStateMembers(last, SortedStates(before));
    }
  }

  lemma NoStates()
    ensures SortedStates([]) == [] && StatesAreSorted([]) && HasDistinctValues([])
  {}

  lemma {:induction false} SortedStatesStay(states: seq<State>)
    requires StatesAreSorted(states)
    ensures SortedStates(states) == states
    decreases |states|
  {
    if states != [] {
      SortedStatesStay(states[..|states| - 1]);
      assert states == states[..|states| - 1] + [states[|states| - 1]];
    }
  }

  predicate ApartFrom(field: Field, fields: seq<Field>) {
    forall i :: 0 <= i < |fields| ==> Apart(fields[i], field)
  }

  predicate PairwiseApart(fields: seq<Field>) {
    forall i, j :: 0 <= i < j < |fields| ==> Apart(fields[i], fields[j])
  }

  lemma {:induction false} InsertFieldMembers(field: Field, sorted: seq<Field>)
    ensures var r := InsertField(field, sorted);
            && |r| == |sorted| + 1 && multiset(r) == multiset(sorted) + multiset{field}
            && (forall i :: 0 <= i < |r| ==> r[i] == field || r[i] in sorted)
    decreases |sorted|
  {
    hide Front;
    if sorted != [] && Front(sorted[|sorted| - 1]) > Front(field) {
      var before, last := sorted[..|sorted| - 1], sorted[|sorted| - 1];
      InsertFieldMembers(field, before);
      assert sorted == before + [last];
    }
  }

  lemma {:induction false} InsertFieldKeeps(field: Field, sorted: seq<Field>)
    requires FieldsAreSorted(sorted) && PairwiseApart(sorted) && ApartFrom(field, sorted)
    ensures FieldsAreSorted(InsertField(field, sorted)) && PairwiseApart(InsertField(field, sorted))
    decreases |sorted|
  {
    hide Apart, Front;
    if sorted != [] {
      var before, last := sorted[..|sorted| - 1], sorted[|sorted| - 1];
      assert forall i :: 0 <= i < |before| ==> before[i] == sorted[i] && Front(before[i]) <= Front(last);
      if Front(last) > Front(field) {
        InsertFieldKeeps(field, before);
        InsertFieldMembers(field, before);
        ApartIsSymmetric(last, field);
      } else {
      }
    }
  }

  lemma {:induction false} SortKeepsFields(fields: seq<Field>)
    requires PairwiseApart(fields)
    ensures var r := SortedFields(fields);
            && |r| == |fields| && FieldsAreSorted(r) && PairwiseApart(r) && multiset(r) == multiset(fields)
            && (forall i :: 0 <= i < |r| ==> r[i] in fields)
    decreases |fields|
  {
    hide Apart, InsertField;
    if fields != [] {
      var before, last := fields[..|fields| - 1], fields[|fields| - 1];
      SortKeepsFields(before);
      assert forall i :: 0 <= i < |before| ==> before[i] == fields[i];
      forall i | 0 <= i < |SortedFields(before)| ensures Apart(SortedFields(before)[i], last) {
        assert SortedFields(before)[i] in before;
      }
      InsertFieldKeeps(last, SortedFields(before));
      InsertFieldMembers(last, SortedFields(before));
      assert fields == before + [last];
    }
  }

  lemma {:induction false} SortedFieldsStay(fields: seq<Field>)
    requires FieldsAreSorted(fields)
    ensures SortedFields(fields) == fields
    decreases |fields|
  {
    hide Front;
    if fields != [] {
      SortedFieldsStay(fields[..|fields| - 1]);
      assert fields == fields[..|fields| - 1] + [fields[|fields| - 1]];
    }
  }

  // ----- the lookup

  /** The mask of the first `n` bits. */
  function MaskUpTo(bits: seq<nat>, n: nat): nat
    requires n <= |bits|
  {
    if n == 0 then 0
    else if bits[n - 1] < 64 then BitOr(MaskUpTo(bits, n - 1), Pow2(bits[n - 1]))
    else MaskUpTo(bits, n - 1)
  }

  function Masked(field: Field): Field {
    field.(mask := MaskUpTo(field.bits, |field.bits|))
  }

  function AllMasked(fields: seq<Field>): (r: seq<Field>)
    ensures |r| == |fields| && forall i :: 0 <= i < |r| ==> r[i] == Masked(fields[i])
  {
    seq(|fields|, i requires 0 <= i < |fields| => Masked(fields[i]))
  }

  function SignedChar(i: nat): int {
    if i % 256 < 128 then i % 256 else i % 256 - 256
  }

  /** The last of the first `n` fields that has the bit, as a signed char; -1 if none has it. */
  function OwnerOf(fields: seq<Field>, n: nat, bit: nat): int
    requires n <= |fields|
  {
    if n == 0 then -1 else if bit in fields[n - 1].bits then SignedChar(n - 1) else OwnerOf(fields, n - 1, bit)
  }

  lemma {:induction false} MaskBits(bits: seq<nat>, n: nat, b: nat)
    requires n <= |bits|
    ensures Bit(MaskUpTo(bits, n), b) <==> b < 64 && b in bits[..n]
    decreases n
  {
    hide Bit, BitOr, Pow2;
    if n == 0 {
      NoBits(b);
    } else {
      MaskBits(bits, n - 1, b);
      OrBits(MaskUpTo(bits, n - 1), Pow2(bits[n - 1]), b);
      PowerBits(bits[n - 1], b);
      assert bits[..n] == bits[..n - 1] + [bits[n - 1]];
    }
  }

  /** The mask of every field has exactly its bits. */
  ghost predicate MasksHoldBits(fields: seq<Field>) {
    forall i, b: nat :: 0 <= i < |fields| ==> (Bit(fields[i].mask, b) <==> b < 64 && b in fields[i].bits)
  }

  lemma MaskedHoldsBits(fields: seq<Field>)
    requires forall i :: 0 <= i < |fields| ==> Masked(fields[i]) == fields[i]
    ensures MasksHoldBits(fields)
  {
    hide Bit, MaskUpTo;
    forall i, b: nat | 0 <= i < |fields| ensures Bit(fields[i].mask, b) <==> b < 64 && b in fields[i].bits {
      var bits := fields[i].bits;
      assert fields[i] == Masked(fields[i]);
      MaskBits(bits, |bits|, b);
      assert bits[..|bits|] == bits;
    }
  }

  /** With at most 64 fields that share no bit, the owner of a bit is the field that has it. */
  lemma {:induction false} OwnerIsField(fields: seq<Field>, n: nat, bit: nat, i: nat)
    requires n <= |fields| <= MAX_FIELDS && PairwiseApart(fields) && i < n
    ensures OwnerOf(fields, n, bit) == i <==> bit in fields[i].bits
    ensures OwnerOf(fields, n, bit) == -1 <==> forall k :: 0 <= k < n ==> bit !in fields[k].bits
    decreases n
  {
    hide EqualsInsensitive;
    if bit in fields[n - 1].bits {
      if i < n - 1 { assert Apart(fields[i], fields[n - 1]); }
    } else if i < n - 1 {
      OwnerIsField(fields, n - 1, bit, i);
    } else if n > 1 {
      OwnerIsField(fields, n - 1, bit, 0);
      OwnerIsSmall(fields, n - 1, bit);
    }
  }

  lemma {:induction false} OwnerIsSmall(fields: seq<Field>, n: nat, bit: nat)
    requires n <= |fields| <= MAX_FIELDS
    ensures -1 <= OwnerOf(fields, n, bit) < n || n == 0
    decreases n
  {
    if n > 0 { OwnerIsSmall(fields, n - 1, bit); }
  }

  // ----- results

  function WithSortedStates(fields: seq<Field>): (r: seq<Field>)
    ensures |r| == |fields| && forall i :: 0 <= i < |r| ==> r[i] == fields[i].(states := SortedStates(fields[i].states))
  {
    seq(|fields|, i requires 0 <= i < |fields| => fields[i].(states := SortedStates(fields[i].states)))
  }

  /** The fields of a definition that was accepted. */
  function Validated(fields: seq<Field>): seq<Field> {
    AllMasked(WithSortedStates(SortedFields(fields)))
  }

  /** Fields and states in order, masks set. */
  predicate AreSettled(fields: seq<Field>) {
    && FieldsAreSorted(fields)
    && forall i :: 0 <= i < |fields| ==> StatesAreSorted(fields[i].states) && Masked(fields[i]) == fields[i]
  }

  function KeptBits(bits: seq<nat>, width: nat): seq<nat> {
    if bits == [] then []
    else if bits[|bits| - 1] < width then KeptBits(bits[..|bits| - 1], width) + [bits[|bits| - 1]]
    else KeptBits(bits[..|bits| - 1], width)
  }

  function KeptStates(states: seq<State>, limit: nat): seq<State> {
    if states == [] then []
    else if states[|states| - 1].value <= limit then KeptStates(states[..|states| - 1], limit) + [states[|states| - 1]]
    else KeptStates(states[..|states| - 1], limit)
  }

  function NarrowedField(field: Field, width: nat): Field {
    var bits := KeptBits(field.bits, width);
    field.(bits := bits, states := KeptStates(field.states, WidthMask(|bits|)))
  }

  /** Bits outside the width go, then states that no longer fit, then fields without bits. */
  function NarrowedFields(fields: seq<Field>, width: nat): seq<Field> {
    if fields == [] then []
    else
      var before, field := NarrowedFields(fields[..|fields| - 1], width), NarrowedField(fields[|fields| - 1], width);
      if field.bits == [] then before else before + [field]
  }

  predicate IsAffected(fields: seq<Field>, width: nat) {
    exists i :: 0 <= i < |fields| && fields[i].bits != [] && fields[i].bits[|fields[i].bits| - 1] >= width
  }

  class Definition {
    var name: wstring
    var valueName: wstring
    var keyPaths: seq<wstring>
    var bitWidth: nat
    var byteOffset: nat
    var comment: wstring
    var fields: seq<Field>
    const owner: array<int>

    constructor (name: wstring, valueName: wstring, keyPaths: seq<wstring>, bitWidth: nat, byteOffset: nat,
        comment: wstring, fields: seq<Field>)
      ensures this.bitWidth == bitWidth && this.fields == fields && owner.Length == 64 && fresh(owner)
    {
      this.name, this.valueName, this.keyPaths := name, valueName, keyPaths;
      this.bitWidth, this.byteOffset, this.comment, this.fields := bitWidth, byteOffset, comment, fields;
      owner := new int[64];
    }

    /** The definition is one that Validate accepts. */
    predicate IsAccepted()
      reads this
    {
      ValidWidth(bitWidth) && IsHead(name, valueName, keyPaths, byteOffset, comment) && AreFields(fields, bitWidth)
    }

    predicate LookupAgrees()
      reads this, owner
    {
      owner.Length == 64 && forall b :: 0 <= b < 64 ==> owner[b] == OwnerOf(fields, |fields|, b)
    }

    /** What Validate leaves behind. */
    predicate IsReady()
      reads this, owner
    {
      IsAccepted() && AreSettled(fields) && LookupAgrees()
    }

    method BuildLookup()
      requires owner.Length == 64
      modifies this`fields, owner
      ensures fields == AllMasked(old(fields)) && LookupAgrees() && MasksHoldBits(fields)
    {
      hide MaskUpTo;
      var before := fields;
      for b := 0 to 64
        invariant forall k :: 0 <= k < b ==> owner[k] == -1
        invariant fields == before
      {
        owner[b] := -1;
      }
      for i := 0 to |before|
        invariant |fields| == |before|
        invariant forall k :: 0 <= k < |fields| ==> fields[k] == if k < i then Masked(before[k]) else before[k]
        invariant forall b :: 0 <= b < 64 ==> owner[b] == OwnerOf(before, i, b)
      {
        var mask := OwnBits(before, i);
        fields := fields[i := fields[i].(mask := mask)];
      }
      assert fields == AllMasked(before);
      MaskedHoldsBits(fields);
      forall b | 0 <= b < 64 ensures OwnerOf(fields, |fields|, b) == OwnerOf(before, |before|, b) {
        SameOwner(before, fields, |fields|, b);
      }
    }

    /** Claims the bits of one field and returns their mask. */
    method OwnBits(before: seq<Field>, i: nat) returns (mask: nat)
      requires owner.Length == 64 && i < |before|
      requires forall b :: 0 <= b < 64 ==> owner[b] == OwnerOf(before, i, b)
      modifies owner
      ensures mask == MaskUpTo(before[i].bits, |before[i].bits|)
      ensures forall b :: 0 <= b < 64 ==> owner[b] == OwnerOf(before, i + 1, b)
    {
      hide BitOr, Pow2;
      var bits := before[i].bits;
      mask := 0;
      for j := 0 to |bits|
        invariant mask == MaskUpTo(bits, j)
        invariant forall b :: 0 <= b < 64 ==>
                    owner[b] == if b in bits[..j] then SignedChar(i) else OwnerOf(before, i, b)
      {
        assert bits[..j + 1] == bits[..j] + [bits[j]];
        if bits[j] < 64 {
          mask := BitOr(mask, Pow2(bits[j]));
          owner[bits[j]] := SignedChar(i);
        }
      }
      assert bits[..|bits|] == bits;
    }

    method FieldIndexForBit(bit: nat) returns (index: int)
      requires LookupAgrees()
      ensures -1 <= index < |fields|
      ensures IsAccepted() ==> forall i :: 0 <= i < |fields| ==> (index == i <==> bit in fields[i].bits)
      ensures IsAccepted() ==> (index == -1 <==> forall i :: 0 <= i < |fields| ==> bit !in fields[i].bits)
    {
      hide EqualsInsensitive, AreStates, OwnerOf;
      if bit >= 64 {
        return -1;
      }
      index := owner[bit];
      if index < 0 || index >= |fields| {
        index := -1;
      }
      if IsAccepted() {
        forall i | 0 <= i < |fields|
          ensures owner[bit] == i <==> bit in fields[i].bits
          ensures owner[bit] == -1 <==> forall k :: 0 <= k < |fields| ==> bit !in fields[k].bits
        {
          OwnerIsField(fields, |fields|, bit, i);
        }
        OwnerIsSmall(fields, |fields|, bit);
        assert OwnerOf(fields, |fields|, bit) == owner[bit];
        if index >= 0 {
          assert bit in fields[index].bits;
        } else if |fields| > 0 {
          assert bit !in fields[0].bits;
        }
      }
    }

    /** Accepts exactly the well-formed definitions; an accepted one gets its order and its lookup, a refused one
        stays. */
    method Validate() returns (ok: bool)
      requires owner.Length == 64
      modifies this`fields, owner
      ensures ok <==> old(IsAccepted())
      ensures !ok ==> fields == old(fields) && owner[..] == old(owner[..])
      ensures ok ==> fields == Validated(old(fields)) && IsReady() && MasksHoldBits(fields)
    {
      hide IsField, Apart, SortedFields, MaskUpTo, OwnerOf, MasksHoldBits;
      if !ValidWidth(bitWidth) || !IsHead(name, valueName, keyPaths, byteOffset, comment) || |fields| > MAX_FIELDS {
        return false;
      }
      ok := CheckFields(fields, bitWidth);
      if !ok {
        return;
      }
      ValidatedIsSettled(fields, bitWidth);
      fields := WithSortedStates(SortedFields(fields));
      BuildLookup();
    }

    /** Narrows or widens a definition; narrowing removes only with consent. */
    method ChangeWidth(width: nat, consent: bool) returns (changed: bool)
      requires IsReady() && ValidWidth(width)
      modifies this`fields, this`bitWidth, owner
      ensures changed <==> (old(IsAffected(fields, width)) ==> consent)
      ensures !changed ==> fields == old(fields) && bitWidth == old(bitWidth) && LookupAgrees()
      ensures changed ==>
                bitWidth == width && fields == AllMasked(NarrowedFields(old(fields), width)) && IsReady()
                  && MasksHoldBits(fields)
    {
      hide IsField, Apart, NarrowedFields, MaskUpTo, OwnerOf, IsAffected, MasksHoldBits;
      if IsAffected(fields, width) {
        if !consent {
          return false;
        }
        NarrowedIsSettled(fields, bitWidth, width);
        fields := NarrowedFields(fields, width);
      } else {
        NothingToNarrow(fields, bitWidth, width);
        NarrowedIsSettled(fields, bitWidth, width);
      }
      bitWidth := width;
      BuildLookup();
      changed := true;
    }
  }

  // ----- the checks of a validation

  predicate FieldsUpTo(fields: seq<Field>, width: nat, n: nat)
    requires n <= |fields|
  {
    && (forall i :: 0 <= i < n ==> IsField(fields[i], width))
    && (forall i, j :: 0 <= i < j < n ==> Apart(fields[i], fields[j]))
  }

  /** Bits ascending, inside the width and not claimed; `claimed` then holds the field's number for them. */
  method ClaimBits(bits: seq<nat>, width: nat, claimed: array<int>, i: nat) returns (ok: bool)
    requires claimed.Length == 64 && width <= 64
    modifies claimed
    ensures ok <==> Ascending(bits) && (forall b :: b in bits ==> b < width && old(claimed[..])[b] < 0)
    ensures ok ==> forall b :: 0 <= b < 64 ==> claimed[b] == if b in bits then i else old(claimed[b])
  {
    ghost var before := claimed[..];
    for j := 0 to |bits|
      invariant Ascending(bits[..j])
      invariant forall b :: b in bits[..j] ==> b < width && before[b] < 0
      invariant forall b :: 0 <= b < 64 ==> claimed[b] == if b in bits[..j] then i else before[b]
    {
      assert bits[..j + 1] == bits[..j] + [bits[j]];
      assert bits[j] in bits;
      assert j > 0 ==> bits[j - 1] == bits[..j][j - 1];
      if bits[j] >= width {
        return false;
      }
      if j > 0 && bits[j] <= bits[j - 1] {
        return false;
      }
      if claimed[bits[j]] >= 0 {
        assert bits[j] !in bits[..j];
        return false;
      }
      claimed[bits[j]] := i;
    }
    assert bits[..|bits|] == bits;
    ok := true;
  }

  method CheckStates(states: seq<State>, limit: nat) returns (ok: bool)
    ensures ok <==> AreStates(states, limit)
  {
    hide IsState;
    if |states| > MAX_STATES {
      return false;
    }
    for j := 0 to |states|
      invariant forall i :: 0 <= i < j ==> IsState(states[i], limit)
      invariant forall i, k :: 0 <= i < k < j ==> states[i].value != states[k].value
    {
      if !IsState(states[j], limit) {
        return false;
      }
      for k := 0 to j
        invariant forall i :: 0 <= i < k ==> states[i].value != states[j].value
      {
        if states[k].value == states[j].value {
          return false;
        }
      }
    }
    ok := true;
  }

  /** The bits claimed by the first `n` fields. */
  predicate Claims(claimed: seq<int>, fields: seq<Field>, n: nat)
    requires |claimed| == 64 && n <= |fields|
  {
    forall b :: 0 <= b < 64 ==> (claimed[b] >= 0 <==> exists k :: 0 <= k < n && b in fields[k].bits)
  }

  method CheckFields(fields: seq<Field>, width: nat) returns (ok: bool)
    requires ValidWidth(width)
    ensures ok <==> FieldsUpTo(fields, width, |fields|)
  {
    hide AreStates, EqualsInsensitive;
    var claimed := new int[64](_ => -1);
    for i := 0 to |fields|
      invariant FieldsUpTo(fields, width, i) && Claims(claimed[..], fields, i)
    {
      var field := fields[i];
      if field.name == [] || |field.name| > MAX_NAME_LENGTH || |field.meaning| > MAX_MEANING_LENGTH
        || field.bits == [] {
        return false;
      }
      ghost var before := claimed[..];
      var claims := ClaimBits(field.bits, width, claimed, i);
      if !claims {
        return false;
      }
      var states := CheckStates(field.states, WidthMask(|field.bits|));
      if !states {
        return false;
      }
      for j := 0 to i
        invariant forall k :: 0 <= k < j ==> !EqualsInsensitive(fields[k].name, field.name)
      {
        if EqualsInsensitive(fields[j].name, field.name) {
          assert !Apart(fields[j], fields[i]);
          return false;
        }
      }
      FieldAccepted(fields, width, i, before, claimed[..]);
    }
    ok := true;
  }

  lemma FieldAccepted(fields: seq<Field>, width: nat, i: nat, before: seq<int>, claimed: seq<int>)
    requires i < |fields| && |before| == |claimed| == 64 && width <= 64
    requires FieldsUpTo(fields, width, i) && Claims(before, fields, i) && IsField(fields[i], width)
    requires forall b :: b in fields[i].bits ==> b < width && before[b] < 0
    requires forall b :: 0 <= b < 64 ==> claimed[b] == if b in fields[i].bits then i else before[b]
    requires forall k :: 0 <= k < i ==> !EqualsInsensitive(fields[k].name, fields[i].name)
    ensures FieldsUpTo(fields, width, i + 1) && Claims(claimed, fields, i + 1)
  {
    hide IsField, EqualsInsensitive;
    forall k | 0 <= k < i ensures Apart(fields[k], fields[i]) {
      forall bit | bit in fields[i].bits ensures bit !in fields[k].bits {
        assert before[bit] < 0;
      }
    }
    forall b | 0 <= b < 64 ensures claimed[b] >= 0 <==> exists k :: 0 <= k < i + 1 && b in fields[k].bits {
      if b in fields[i].bits { assert claimed[b] == i; }
    }
  }

  // ----- accepted definitions are settled, and stay what they are

  lemma SettledField(field: Field, width: nat)
    requires IsField(field, width)
    ensures var r := Masked(field.(states := SortedStates(field.states)));
            IsField(r, width) && StatesAreSorted(r.states) && Masked(r) == r && r.name == field.name
              && r.bits == field.bits
  {
    SortKeepsStates(field.states, WidthMask(|field.bits|));
    hide SortedStates, MaskUpTo, IsState;
  }

  lemma ValidatedIsSettled(fields: seq<Field>, width: nat)
    requires AreFields(fields, width)
    ensures AreFields(Validated(fields), width) && AreSettled(Validated(fields))
  {
    hide Apart, SortedFields, SortedStates, Masked;
    SortKeepsFields(fields);
    var sorted, r := SortedFields(fields), Validated(fields);
    forall i | 0 <= i < |r|
      ensures IsField(r[i], width) && StatesAreSorted(r[i].states) && Masked(r[i]) == r[i]
              && r[i].name == sorted[i].name && r[i].bits == sorted[i].bits
    {
      assert sorted[i] in fields;
      SettledField(sorted[i], width);
    }
    hide IsField;
    forall i, j | 0 <= i < j < |r| ensures Apart(r[i], r[j]) && Front(r[i]) <= Front(r[j]) {
      assert Apart(sorted[i], sorted[j]);
      SameApart(sorted[i], sorted[j], r[i], r[j]);
    }
  }

  lemma SameApart(a: Field, b: Field, c: Field, d: Field)
    requires Apart(a, b) && c.name == a.name && d.name == b.name && c.bits == a.bits && d.bits == b.bits
    ensures Apart(c, d)
  {}

  /** Validating twice is validating once. */
  lemma ValidatedIsIdempotent(fields: seq<Field>, width: nat)
    requires AreFields(fields, width)
    ensures Validated(Validated(fields)) == Validated(fields)
  {
    hide IsField, Apart, SortedFields, MaskUpTo;
    ValidatedIsSettled(fields, width);
    SettledStays(Validated(fields));
  }

  lemma SettledStays(fields: seq<Field>)
    requires AreSettled(fields)
    ensures Validated(fields) == fields
  {
    hide MaskUpTo, SortedFields, SortedStates, Front;
    SortedFieldsStay(fields);
    forall i | 0 <= i < |fields| ensures Validated(fields)[i] == fields[i] {
      SortedStatesStay(fields[i].states);
    }
  }

  // ----- a change of the width

  lemma {:induction false} KeptBitsArePrefix(bits: seq<nat>, width: nat)
    requires Ascending(bits)
    ensures KeptBits(bits, width) <= bits && (forall b :: b in KeptBits(bits, width) ==> b < width)
    ensures forall b :: b in bits && b < width ==> b in KeptBits(bits, width)
    decreases |bits|
  {
    if bits != [] {
      var before, last := bits[..|bits| - 1], bits[|bits| - 1];
      KeptBitsArePrefix(before, width);
      if last < width { AllKept(before, width); }
      assert bits == before + [last];
    }
  }

  lemma {:induction false} AllKept(bits: seq<nat>, width: nat)
    requires forall i :: 0 <= i < |bits| ==> bits[i] < width
    ensures KeptBits(bits, width) == bits
    decreases |bits|
  {
    if bits != [] { AllKept(bits[..|bits| - 1], width); }
  }

  lemma {:induction false} KeptStatesFit(states: seq<State>, old_limit: nat, limit: nat)
    requires AreStates(states, old_limit)
    ensures AreStates(KeptStates(states, limit), limit)
    ensures StatesAreSorted(states) ==> StatesAreSorted(KeptStates(states, limit))
    ensures forall i :: 0 <= i < |KeptStates(states, limit)| ==> KeptStates(states, limit)[i] in states
    ensures |KeptStates(states, limit)| <= |states|
    decreases |states|
  {
    if states != [] {
      var before, last := states[..|states| - 1], states[|states| - 1];
      assert states == before + [last];
      KeptStatesFit(before, old_limit, limit);
      var kept := KeptStates(before, limit);
      assert KeptStates(states, limit) == if last.value <= limit then kept + [last] else kept;
      hide AreStates, StatesAreSorted, KeptStates;
      forall i | 0 <= i < |kept| ensures kept[i] in states { assert kept[i] in before; }
      if last.value <= limit { StateFits(before, kept, last, old_limit, limit); }
    }
  }

  /** A state that fits joins those kept of the ones before it. */
  lemma StateFits(before: seq<State>, kept: seq<State>, last: State, old_limit: nat, limit: nat)
    requires AreStates(before + [last], old_limit) && AreStates(kept, limit) && |kept| <= |before|
             && last.value <= limit
    requires forall i :: 0 <= i < |kept| ==> kept[i] in before
    ensures AreStates(kept + [last], limit)
    ensures StatesAreSorted(before + [last]) && StatesAreSorted(kept) ==> StatesAreSorted(kept + [last])
  {
    var states := before + [last];
    assert states[|before|] == last;
    forall i | 0 <= i < |kept| ensures exists j :: 0 <= j < |before| && states[j] == kept[i] {
      var j :| 0 <= j < |before| && before[j] == kept[i];
      assert states[j] == kept[i];
    }
  }

  lemma {:induction false} StatesStay(states: seq<State>, limit: nat)
    requires forall i :: 0 <= i < |states| ==> states[i].value <= limit
    ensures KeptStates(states, limit) == states
    decreases |states|
  {
    if states != [] { StatesStay(states[..|states| - 1], limit); }
  }

  /** One field narrowed: its low bits, the states that fit them, and a value taken modulo what is left. */
  lemma NarrowedFieldKeeps(field: Field, width: nat, narrower: nat)
    requires IsField(field, width) && StatesAreSorted(field.states)
    ensures var r := NarrowedField(field, narrower);
            && r.bits <= field.bits && r.name == field.name
            && (r.bits != [] ==> IsField(Masked(r), narrower) && StatesAreSorted(r.states) && Front(r) == Front(field))
            && (forall value: nat :: Extracted(r.bits, value) == Extracted(field.bits, value) % Pow2(|r.bits|))
  {
    KeptBitsArePrefix(field.bits, narrower);
    var bits := KeptBits(field.bits, narrower);
    KeptStatesFit(field.states, WidthMask(|field.bits|), WidthMask(|bits|));
    hide KeptBits, KeptStates, Extracted, MaskUpTo, AreStates;
    assert bits == field.bits[..|bits|];
    forall value: nat ensures Extracted(bits, value) == Extracted(field.bits, value) % Pow2(|bits|) {
      ExtractOfPrefix(field.bits, value, |bits|);
    }
    if bits != [] { assert bits[0] == field.bits[0]; }
  }

  /** Where each narrowed field comes from. */
  predicate ComesFrom(r: Field, field: Field) {
    && r.name == field.name && r.bits <= field.bits && Front(r) == Front(field)
  }

  predicate Selects(from: seq<nat>, fields: seq<Field>, narrower: nat, r: seq<Field>) {
    && |from| == |r| && (forall i, j :: 0 <= i < j < |from| ==> from[i] < from[j])
    && (forall i :: 0 <= i < |from| ==>
          from[i] < |fields| && r[i] == NarrowedField(fields[from[i]], narrower) && r[i].bits != [])
  }

  lemma SelectsMore(from: seq<nat>, before: seq<Field>, field: Field, narrower: nat, r: seq<Field>)
    requires Selects(from, before, narrower, r)
    ensures Selects(from, before + [field], narrower, r)
    ensures NarrowedField(field, narrower).bits != [] ==>
              Selects(from + [|before|], before + [field], narrower, r + [NarrowedField(field, narrower)])
  {
    hide NarrowedField;
  }

  /** The surviving fields are those that keep a bit, in their order. */
  lemma {:induction false} NarrowedFieldsKeep(fields: seq<Field>, narrower: nat) returns (from: seq<nat>)
    ensures Selects(from, fields, narrower, NarrowedFields(fields, narrower))
    decreases |fields|
  {
    hide NarrowedField, Selects;
    if fields == [] {
      from := [];
      SelectsNone(narrower);
    } else {
      var before, field := fields[..|fields| - 1], fields[|fields| - 1];
      from := NarrowedFieldsKeep(before, narrower);
      SelectsMore(from, before, field, narrower, NarrowedFields(before, narrower));
      assert fields == before + [field];
      if NarrowedField(field, narrower).bits != [] { from := from + [|before|]; }
    }
  }

  lemma SelectsNone(narrower: nat)
    ensures Selects([], [], narrower, [])
  {}

  /** A narrowed definition is accepted at its new width and needs no more sorting. */
  lemma NarrowedIsSettled(fields: seq<Field>, width: nat, narrower: nat)
    requires AreFields(fields, width) && AreSettled(fields)
    ensures AreFields(AllMasked(NarrowedFields(fields, narrower)), narrower)
            && AreSettled(AllMasked(NarrowedFields(fields, narrower)))
  {
    hide Apart, NarrowedFields, NarrowedField, MaskUpTo, IsField, StatesAreSorted;
    var from := NarrowedFieldsKeep(fields, narrower);
    var r := NarrowedFields(fields, narrower);
    var m := AllMasked(r);
    assert |from| <= |fields| by { DistinctIndices(from, |fields|); }
    forall i | 0 <= i < |r|
      ensures IsField(m[i], narrower) && StatesAreSorted(m[i].states) && Masked(m[i]) == m[i]
              && ComesFrom(m[i], fields[from[i]])
    {
      NarrowedFieldKeeps(fields[from[i]], width, narrower);
    }
    forall i, j | 0 <= i < j < |r| ensures Apart(m[i], m[j]) && Front(m[i]) <= Front(m[j]) {
      assert Apart(fields[from[i]], fields[from[j]]);
      PrefixesAreApart(fields[from[i]], fields[from[j]], m[i], m[j]);
    }
  }

  lemma PrefixesAreApart(a: Field, b: Field, c: Field, d: Field)
    requires Apart(a, b) && ComesFrom(c, a) && ComesFrom(d, b)
    ensures Apart(c, d)
  {
    hide EqualsInsensitive;
    assert forall bit :: bit in c.bits ==> bit in a.bits;
    assert forall bit :: bit in d.bits ==> bit in b.bits;
  }

  lemma {:induction false} DistinctIndices(from: seq<nat>, n: nat)
    requires (forall i, j :: 0 <= i < j < |from| ==> from[i] < from[j]) && (forall i :: 0 <= i < |from| ==> from[i] < n)
    ensures |from| <= n
    decreases n
  {
    if from != [] {
      var last := from[|from| - 1];
      assert forall i :: 0 <= i < |from| - 1 ==> from[i] < last <= n - 1;
      DistinctIndices(from[..|from| - 1], n - 1);
    }
  }

  /** A field inside the new width stays as it is. */
  lemma FieldStays(field: Field, width: nat, narrower: nat)
    requires IsField(field, width) && field.bits[|field.bits| - 1] < narrower
    ensures NarrowedField(field, narrower) == field
  {
    assert forall i :: 0 <= i < |field.bits| ==> field.bits[i] <= field.bits[|field.bits| - 1];
    hide AreStates, WidthMask;
    AllKept(field.bits, narrower);
    StatesStay(field.states, WidthMask(|field.bits|));
  }

  lemma {:induction false} FieldsStay(fields: seq<Field>, narrower: nat)
    requires forall i :: 0 <= i < |fields| ==> NarrowedField(fields[i], narrower) == fields[i] && fields[i].bits != []
    ensures NarrowedFields(fields, narrower) == fields
    decreases |fields|
  {
    hide NarrowedField;
    if fields != [] {
      var before, field := fields[..|fields| - 1], fields[|fields| - 1];
      assert forall i :: 0 <= i < |before| ==> before[i] == fields[i];
      FieldsStay(before, narrower);
      assert fields == before + [field];
    }
  }

  /** When no field reaches beyond the width, narrowing changes nothing. */
  lemma NothingToNarrow(fields: seq<Field>, width: nat, narrower: nat)
    requires AreFields(fields, width) && !IsAffected(fields, narrower)
    ensures NarrowedFields(fields, narrower) == fields
  {
    hide Apart, AreStates, NarrowedField, NarrowedFields;
    forall i | 0 <= i < |fields| ensures NarrowedField(fields[i], narrower) == fields[i] && fields[i].bits != [] {
      assert IsField(fields[i], width);
      FieldStays(fields[i], width, narrower);
    }
    FieldsStay(fields, narrower);
  }

  /** A field that survives a change of the width holds its old value modulo what its bits can hold. */
  lemma SurvivorKeepsLowBits(fields: seq<Field>, width: nat, narrower: nat, i: nat, value: nat) returns (k: nat)
    requires AreFields(fields, width) && AreSettled(fields) && i < |NarrowedFields(fields, narrower)|
    ensures k < |fields| && NarrowedFields(fields, narrower)[i].name == fields[k].name
    ensures var r := NarrowedFields(fields, narrower)[i];
            r.bits <= fields[k].bits && Extracted(r.bits, value) == Extracted(fields[k].bits, value) % Pow2(|r.bits|)
  {
    hide NarrowedFields, NarrowedField, Extracted, Pow2, IsField, StatesAreSorted;
    var from := NarrowedFieldsKeep(fields, narrower);
    k := from[i];
    NarrowedFieldKeeps(fields[k], width, narrower);
  }

  lemma {:induction false} SameOwner(a: seq<Field>, b: seq<Field>, n: nat, bit: nat)
    requires n <= |a| == |b| && forall k :: 0 <= k < |a| ==> a[k].bits == b[k].bits
    ensures OwnerOf(b, n, bit) == OwnerOf(a, n, bit)
    decreases n
  {
    if n > 0 { SameOwner(a, b, n - 1, bit); }
  }
}
