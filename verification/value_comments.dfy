/** Comment rules for values and keys: a list with two indexes, merged so that the last rule of a condition wins. */
module ValueComments {
  import opened Text
  import opened ValueFormat
  import opened KeyPaths

  datatype KeyScope = Any | Exact | Recursive

  datatype CommentRule = CommentRule(
    name: wstring, kind: Option<uint32>, dataSize: Option<uint64>, scope: KeyScope, keyPath: wstring, text: wstring,
      key: bool)

  datatype CommentTarget = CommentTarget(path: wstring, name: wstring, kind: uint32, dataSize: uint64, key: bool)

  // ----- conditions

  function ScopeNumber(scope: KeyScope): nat {
    match scope case Any => 0 case Exact => 1 case Recursive => 2
  }

  /** A number, or a star where there is none. */
  function NumberOrStar(number: Option<nat>): wstring {
    if number.Some? then ToDecimal(number.value) else [STAR]
  }

  function KindNumber(kind: Option<uint32>): Option<nat> {
    if kind.Some? then Some(kind.value as nat) else None
  }

  function SizeNumber(size: Option<uint64>): Option<nat> {
    if size.Some? then Some(size.value as nat) else None
  }

  function PathPart(rule: CommentRule): wstring {
    ToLower(StripSeparators(rule.keyPath))
  }

  function ScopePart(rule: CommentRule): wstring {
    ToDecimal(ScopeNumber(rule.scope)) + ([TAB] + PathPart(rule))
  }

  function SizePart(rule: CommentRule): wstring {
    NumberOrStar(SizeNumber(rule.dataSize)) + ([TAB] + ScopePart(rule))
  }

  function KindPart(rule: CommentRule): wstring {
    NumberOrStar(KindNumber(rule.kind)) + ([TAB] + SizePart(rule))
  }

  function NamePart(rule: CommentRule): wstring {
    ToDecimal(|rule.name|) + ([COLON] + (ToLower(rule.name) + ([TAB] + KindPart(rule))))
  }

  /** What a rule applies to, as a text: the length of the name stands in front of the name. */
  function ConditionKey(rule: CommentRule): wstring {
    W(if rule.key then "k\t" else "v\t") + NamePart(rule)
  }

  /** The same conditions, apart from letter case and closing backslashes. */
  predicate SameCondition(a: CommentRule, b: CommentRule) {
    && a.key == b.key && ToLower(a.name) == ToLower(b.name) && a.kind == b.kind && a.dataSize == b.dataSize
    && a.scope == b.scope && ToLower(StripSeparators(a.keyPath)) == ToLower(StripSeparators(b.keyPath))
  }

  /** Texts without a unit before that unit are told apart. */
  lemma {:induction false} CutAt(a: wstring, x: wstring, b: wstring, y: wstring, c: wchar)
    requires c !in a && c !in b && a + ([c] + x) == b + ([c] + y)
    ensures a == b && x == y
    decreases |a|
  {
    var u, v := a + ([c] + x), b + ([c] + y);
    if a == [] || b == [] {
      assert u[0] == v[0];
      assert a == [] ==> u[0] == c;
      assert b == [] ==> v[0] == c;
      assert a == [] <==> b == [];
      assert ([c] + x)[1..] == x && ([c] + y)[1..] == y;
      assert u == [c] + x && v == [c] + y;
    } else {
      assert u[0] == a[0] && v[0] == b[0];
      assert u[1..] == a[1..] + ([c] + x) && v[1..] == b[1..] + ([c] + y);
      CutAt(a[1..], x, b[1..], y, c);
      assert a == [a[0]] + a[1..] && b == [b[0]] + b[1..];
    }
  }

  lemma DecimalIsInjective(m: nat, n: nat)
    requires ToDecimal(m) == ToDecimal(n)
    ensures m == n
  {
    DecimalRoundTrip(m);
    DecimalRoundTrip(n);
  }

  lemma DigitsAreNoMarks(text: wstring)
    requires AllDigits(text)
    ensures TAB !in text && COLON !in text && STAR !in text
  {}

  lemma NumberOrStarIsInjective(a: Option<nat>, b: Option<nat>)
    ensures TAB !in NumberOrStar(a)
    ensures NumberOrStar(a) == NumberOrStar(b) ==> a == b
  {
    if a.Some? { DigitsAreNoMarks(ToDecimal(a.value)); }
    if b.Some? { DigitsAreNoMarks(ToDecimal(b.value)); }
    assert [STAR as wchar][0] == STAR;
    if NumberOrStar(a) == NumberOrStar(b) {
      if a.Some? && b.Some? { DecimalIsInjective(a.value, b.value); }
    }
  }

  lemma SplitAt(a: wstring, x: wstring, b: wstring, y: wstring)
    requires |a| == |b| && a + x == b + y
    ensures a == b && x == y
  {
    assert (a + x)[..|a|] == a && (b + y)[..|b|] == b;
    assert (a + x)[|a|..] == x && (b + y)[|b|..] == y;
  }

  lemma FirstMark(a: bool, x: wstring, b: bool, y: wstring)
    requires W(if a then "k\t" else "v\t") + x == W(if b then "k\t" else "v\t") + y
    ensures a == b && x == y
  {
    SplitAt(W(if a then "k\t" else "v\t"), x, W(if b then "k\t" else "v\t"), y);
    assert W("k\t")[0] != W("v\t")[0];
  }

  lemma TailIsInjective(a: CommentRule, b: CommentRule)
    requires KindPart(a) == KindPart(b)
    ensures a.kind == b.kind && a.dataSize == b.dataSize && a.scope == b.scope && PathPart(a) == PathPart(b)
  {
    NumberOrStarIsInjective(KindNumber(a.kind), KindNumber(b.kind));
    NumberOrStarIsInjective(KindNumber(b.kind), KindNumber(a.kind));
    NumberOrStarIsInjective(SizeNumber(a.dataSize), SizeNumber(b.dataSize));
    NumberOrStarIsInjective(SizeNumber(b.dataSize), SizeNumber(a.dataSize));
    DigitsAreNoMarks(ToDecimal(ScopeNumber(a.scope)));
    DigitsAreNoMarks(ToDecimal(ScopeNumber(b.scope)));
    hide NumberOrStar, ToDecimal, PathPart;
    CutAt(NumberOrStar(KindNumber(a.kind)), SizePart(a), NumberOrStar(KindNumber(b.kind)), SizePart(b), TAB);
    CutAt(NumberOrStar(SizeNumber(a.dataSize)), ScopePart(a), NumberOrStar(SizeNumber(b.dataSize)), ScopePart(b), TAB);
    CutAt(ToDecimal(ScopeNumber(a.scope)), PathPart(a), ToDecimal(ScopeNumber(b.scope)), PathPart(b), TAB);
    DecimalIsInjective(ScopeNumber(a.scope), ScopeNumber(b.scope));
  }

  /** The length in front of the name makes the text tell all conditions apart, whatever the name holds. */
  lemma ConditionKeyIsInjective(a: CommentRule, b: CommentRule)
    ensures ConditionKey(a) == ConditionKey(b) <==> SameCondition(a, b)
  {
    if ConditionKey(a) == ConditionKey(b) {
      FirstMark(a.key, NamePart(a), b.key, NamePart(b));
      DigitsAreNoMarks(ToDecimal(|a.name|));
      DigitsAreNoMarks(ToDecimal(|b.name|));
      hide ToDecimal, KindPart, W;
      CutAt(ToDecimal(|a.name|), ToLower(a.name) + ([TAB] + KindPart(a)), ToDecimal(|b.name|), ToLower(b.name)
            + ([TAB] + KindPart(b)), COLON);
      DecimalIsInjective(|a.name|, |b.name|);
      SplitAt(ToLower(a.name), [TAB] + KindPart(a), ToLower(b.name), [TAB] + KindPart(b));
      SplitAt([TAB], KindPart(a), [TAB], KindPart(b));
      TailIsInjective(a, b);
    }
    if SameCondition(a, b) { assert |a.name| == |ToLower(a.name)| == |b.name|; }
  }

  // ----- matching

  predicate KeyMatches(rule: CommentRule, path: wstring) {
    match rule.scope
    case Exact => EqualsInsensitive(path, rule.keyPath)
    case Recursive => IsUnderKey(path, rule.keyPath)
    case Any => true
  }

  predicate Matches(rule: CommentRule, target: CommentTarget) {
    && (rule.kind.Some? ==> rule.kind.value == target.kind)
       && (rule.dataSize.Some? ==> rule.dataSize.value == target.dataSize)
    && KeyMatches(rule, target.path)
  }

  datatype Rank = Rank(scope: nat, depth: nat, exactness: nat)

  function Specificity(rule: CommentRule): Rank {
    Rank(match rule.scope case Exact => 3 case Recursive => 2 case Any => 1,
         if rule.scope == Recursive then |rule.keyPath| else 0,
         (if rule.kind.Some? then 1 else 0) + (if rule.dataSize.Some? then 1 else 0))
  }

  /** The tuples' order. */
  predicate AtLeast(a: Rank, b: Rank) {
    a.scope > b.scope || (a.scope == b.scope
                          && (a.depth > b.depth || (a.depth == b.depth && a.exactness >= b.exactness)))
  }

  /** Whether a rule says something about the target at all. */
  predicate Applies(rule: CommentRule, target: CommentTarget) {
    if target.key then rule.key && ToLower(rule.keyPath) == ToLower(StripSeparators(target.path))
    else !rule.key && ToLower(rule.name) == ToLower(target.name) && Matches(rule, target)
  }

  /** The index of the winner among the first `n` rules, or -1: the latest for a key,
      the latest of the most specific for a value. */
  function Winner(rules: seq<CommentRule>, target: CommentTarget, n: nat): (r: int)
    requires n <= |rules|
    ensures -1 <= r < n
    ensures r >= 0 ==> Applies(rules[r], target)
  {
    if n == 0 then -1
    else
      var best := Winner(rules, target, n - 1);
      if Applies(rules[n - 1], target)
         && (best == -1 || target.key || AtLeast(Specificity(rules[n - 1]), Specificity(rules[best]))) then
      n - 1 else best
  }

  /** What winning means. */
  lemma {:induction false} WinnerIsBest(rules: seq<CommentRule>, target: CommentTarget, n: nat)
    requires n <= |rules|
    ensures var r := Winner(rules, target, n);
            && (r == -1 ==> forall i :: 0 <= i < n ==> !Applies(rules[i], target))
            && (r >= 0 && !target.key ==> forall i :: 0 <= i < n && Applies(rules[i], target) ==>
                  AtLeast(Specificity(rules[r]), Specificity(rules[i]))
                  && (i > r ==> !AtLeast(Specificity(rules[i]), Specificity(rules[r]))))
            && (r >= 0 && target.key ==> forall i :: r < i < n ==> !Applies(rules[i], target))
    decreases n
  {
    hide Applies, Specificity;
    if n > 0 { WinnerIsBest(rules, target, n - 1); }
  }

  // ----- catalogs

  predicate IsBlank(text: wstring) {
    forall i :: 0 <= i < |text| ==> IsSpace(text[i])
  }

  /** Two rules that a catalog must not hold together. */
  predicate Conflict(rule: CommentRule, other: CommentRule) {
    && rule.key == other.key && EqualsInsensitive(rule.name, other.name) && Specificity(rule) == Specificity(other)
    && (rule.kind.None? || other.kind.None? || rule.kind == other.kind)
    && (rule.dataSize.None? || other.dataSize.None? || rule.dataSize == other.dataSize)
    && (rule.scope == Any || EqualsInsensitive(rule.keyPath, other.keyPath))
  }

  predicate IsCatalog(rules: seq<CommentRule>) {
    && (forall i :: 0 <= i < |rules| ==> !IsBlank(rules[i].text))
    && (forall i, j :: 0 <= i < j < |rules| ==> !Conflict(rules[i], rules[j]))
  }

  method ValidateCatalog(rules: seq<CommentRule>) returns (ok: bool)
    ensures ok <==> IsCatalog(rules)
  {
    hide Conflict, IsBlank;
    for left := 0 to |rules|
      invariant forall i :: 0 <= i < left ==> !IsBlank(rules[i].text)
      invariant forall i, j :: 0 <= i < left && i < j < |rules| ==> !Conflict(rules[i], rules[j])
    {
      if IsBlank(rules[left].text) {
        return false;
      }
      for right := left + 1 to |rules|
        invariant forall j :: left < j < right ==> !Conflict(rules[left], rules[j])
      {
        if Conflict(rules[left], rules[right]) {
          return false;
        }
      }
    }
    return true;
  }

  /** What the reader guarantees of key rules: a key and nothing else. */
  predicate IsReadRule(rule: CommentRule) {
    rule.key ==> rule.name == [] && rule.kind.None? && rule.dataSize.None? && rule.scope == Exact
  }

  /** Recursive rules of one depth that reach the same path are about the same key. */
  lemma SameDepthSameKey(a: wstring, b: wstring, path: wstring)
    requires IsUnderKey(path, a) && IsUnderKey(path, b) && |a| == |b|
    ensures EqualsInsensitive(a, b)
  {
    EqualsInsensitiveIsEqualLower(path[..|a|], a);
    EqualsInsensitiveIsEqualLower(path[..|b|], b);
    EqualsInsensitiveIsEqualLower(a, b);
  }

  /** Two rules for one target that are equally specific conflict. */
  lemma EquallySpecificConflict(a: CommentRule, b: CommentRule, target: CommentTarget)
    requires Applies(a, target) && Applies(b, target) && Specificity(a) == Specificity(b)
    requires IsReadRule(a) && IsReadRule(b)
    ensures Conflict(a, b)
  {
    EqualsInsensitiveIsEqualLower(a.name, b.name);
    EqualsInsensitiveIsEqualLower(a.keyPath, b.keyPath);
    EqualsInsensitiveIsEqualLower(target.path, a.keyPath);
    EqualsInsensitiveIsEqualLower(target.path, b.keyPath);
    if !target.key && a.scope == Recursive { SameDepthSameKey(a.keyPath, b.keyPath, target.path); }
    hide EqualsInsensitive, IsUnderKey;
  }

  /** In an accepted catalog no two rules for a target are equally specific. */
  lemma CatalogIsUnambiguous(rules: seq<CommentRule>, target: CommentTarget, i: nat, j: nat)
    requires IsCatalog(rules) && forall k :: 0 <= k < |rules| ==> IsReadRule(rules[k])
    requires i < j < |rules| && Applies(rules[i], target) && Applies(rules[j], target)
    ensures Specificity(rules[i]) != Specificity(rules[j])
  {
    if Specificity(rules[i]) == Specificity(rules[j]) { EquallySpecificConflict(rules[i], rules[j], target); }
  }

  lemma Antisymmetric(a: Rank, b: Rank)
    requires AtLeast(a, b) && AtLeast(b, a)
    ensures a == b
  {}

  predicate AreReadRules(rules: seq<CommentRule>) {
    forall k :: 0 <= k < |rules| ==> IsReadRule(rules[k])
  }

  lemma ConflictIsSymmetric(a: CommentRule, b: CommentRule)
    requires Conflict(a, b)
    ensures Conflict(b, a)
  {
    EqualsInsensitiveIsEqualLower(a.name, b.name);
    EqualsInsensitiveIsEqualLower(b.name, a.name);
    EqualsInsensitiveIsEqualLower(a.keyPath, b.keyPath);
    EqualsInsensitiveIsEqualLower(b.keyPath, a.keyPath);
    hide EqualsInsensitive;
  }

  /** Two places of one list have two places in a permutation. */
  lemma TwoPlaces<T>(items: seq<T>, other: seq<T>, i: nat, j: nat) returns (a: nat, b: nat)
    requires multiset(items) == multiset(other) && i < j < |other|
    ensures a < |items| && b < |items| && a != b && items[a] == other[i] && items[b] == other[j]
  {
    assert other[i] in multiset(items);
    a :| 0 <= a < |items| && items[a] == other[i];
    var rest := items[..a] + items[a + 1..];
    WithoutOne(items, a);
    WithoutOne(other, i);
    var rest2 := other[..i] + other[i + 1..];
    assert rest2[j - 1] == other[j];
    assert other[j] in multiset(rest2);
    assert other[j] in rest;
    var k :| 0 <= k < |rest| && rest[k] == other[j];
    b := if k < a then k else k + 1;
  }

  lemma WithoutOne<T>(items: seq<T>, a: nat)
    requires a < |items|
    ensures multiset(items[..a] + items[a + 1..]) == multiset(items) - multiset{items[a]}
  {
    assert items == items[..a] + [items[a]] + items[a + 1..];
  }

  lemma CatalogPermutes(rules: seq<CommentRule>, other: seq<CommentRule>)
    requires IsCatalog(rules) && multiset(rules) == multiset(other)
    ensures IsCatalog(other)
  {
    hide Conflict, IsBlank;
    forall i | 0 <= i < |other| ensures !IsBlank(other[i].text) {
      assert other[i] in multiset(rules);
    }
    forall i, j | 0 <= i < j < |other| ensures !Conflict(other[i], other[j]) {
      var a, b := TwoPlaces(rules, other, i, j);
      if Conflict(other[i], other[j]) { ConflictIsSymmetric(other[i], other[j]); }
    }
  }

  /** In an accepted catalog the order of the rules is irrelevant: every permutation answers a target the same. */
  lemma CatalogOrderIsIrrelevant(rules: seq<CommentRule>, other: seq<CommentRule>, target: CommentTarget)
    requires IsCatalog(rules) && AreReadRules(rules) && multiset(rules) == multiset(other)
    ensures var r, s := Winner(rules, target, |rules|), Winner(other, target, |other|);
            (r == -1 <==> s == -1) && (r >= 0 ==> rules[r] == other[s])
  {
    WinnerIsBest(rules, target, |rules|);
    WinnerIsBest(other, target, |other|);
    var r, s := Winner(rules, target, |rules|), Winner(other, target, |other|);
    hide Winner, IsCatalog, Applies, Specificity, AtLeast;
    assert forall x :: x in multiset(rules) <==> x in multiset(other);
    if r >= 0 { assert rules[r] in multiset(rules); }
    if s >= 0 { assert other[s] in multiset(other); }
    if r >= 0 && s >= 0 {
      var j :| 0 <= j < |rules| && rules[j] == other[s];
      var i :| 0 <= i < |other| && other[i] == rules[r];
      SameWinner(rules, target, r, j, other, s, i);
    }
  }

  lemma SameWinner(rules: seq<CommentRule>, target: CommentTarget, r: nat, j: nat, other: seq<CommentRule>, s: nat,
      i: nat)
    requires IsCatalog(rules) && AreReadRules(rules) && r < |rules| && j < |rules| && s < |other| && i < |other|
    requires rules[j] == other[s] && other[i] == rules[r] && Applies(rules[r], target) && Applies(other[s], target)
    requires !target.key ==>
               AtLeast(Specificity(rules[r]), Specificity(rules[j]))
                 && AtLeast(Specificity(other[s]), Specificity(other[i]))
    ensures rules[r] == other[s]
  {
    if r != j {
      if !target.key { Antisymmetric(Specificity(rules[r]), Specificity(rules[j])); }
      if target.key { KeyRulesRank(rules[r], rules[j], target); }
      CatalogIsUnambiguous(rules, target, if r < j then r else j, if r < j then j else r);
    }
  }

  lemma KeyRulesRank(a: CommentRule, b: CommentRule, target: CommentTarget)
    requires target.key && Applies(a, target) && Applies(b, target) && IsReadRule(a) && IsReadRule(b)
    ensures Specificity(a) == Specificity(b)
  {}
}
