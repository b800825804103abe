/** The store of comment rules, edited in place, with an index by value name and one by key. */
module ValueCommentStore {
  import opened Text
  import opened ValueFormat
  import opened KeyPaths
  import opened ValueComments

  // ----- the last rule of a condition

  function Normal(rule: CommentRule): CommentRule {
    rule.(keyPath := StripSeparators(rule.keyPath))
  }

  /** The rule a list gives last for a condition. */
  function LastGiven(rules: seq<CommentRule>, condition: wstring): Option<CommentRule> {
    if rules == [] then None
    else
      var later := LastGiven(rules[1..], condition);
      if later.Some? then later else if ConditionKey(rules[0]) == condition then Some(Normal(rules[0])) else None
  }

  /** The list without the rules that a later one of the same condition replaces. */
  function Deduped(rules: seq<CommentRule>): seq<CommentRule> {
    if rules == [] then []
    else
      var rest := Deduped(rules[1..]);
      if LastGiven(rules[1..], ConditionKey(rules[0])).Some? then rest else [Normal(rules[0])] + rest
  }

  function Without(rules: seq<CommentRule>, condition: wstring): seq<CommentRule> {
    if rules == [] then []
    else if ConditionKey(rules[0]) == condition then Without(rules[1..], condition)
    else [rules[0]] + Without(rules[1..], condition)
  }

  predicate HasDistinctConditions(rules: seq<CommentRule>) {
    forall i, j :: 0 <= i < j < |rules| ==> ConditionKey(rules[i]) != ConditionKey(rules[j])
  }

  predicate AreNormal(rules: seq<CommentRule>) {
    forall i :: 0 <= i < |rules| ==> Normal(rules[i]) == rules[i]
  }

  lemma {:induction false} StripTwice(path: wstring)
    ensures StripSeparators(StripSeparators(path)) == StripSeparators(path)
  {}

  lemma NormalKeepsCondition(rule: CommentRule)
    ensures ConditionKey(Normal(rule)) == ConditionKey(rule) && Normal(Normal(rule)) == Normal(rule)
  {
    StripTwice(rule.keyPath);
    ConditionKeyIsInjective(Normal(rule), rule);
    hide ConditionKey, StripSeparators;
  }

  lemma {:induction false} LastGivenConcat(a: seq<CommentRule>, b: seq<CommentRule>, condition: wstring)
    ensures LastGiven(a + b, condition) == if LastGiven(b, condition).Some? then LastGiven(b, condition)
                                           else LastGiven(a, condition)
    decreases |a|
  {
    hide ConditionKey, Normal;
    if a == [] {
      assert a + b == b;
    } else {
      assert (a + b)[1..] == a[1..] + b;
      LastGivenConcat(a[1..], b, condition);
    }
  }

  lemma {:induction false} DedupedKeepsLast(rules: seq<CommentRule>, condition: wstring)
    ensures LastGiven(Deduped(rules), condition) == LastGiven(rules, condition)
    decreases |rules|
  {
    hide ConditionKey, Normal;
    if rules != [] {
      DedupedKeepsLast(rules[1..], condition);
      NormalKeepsCondition(rules[0]);
    }
  }

  lemma {:induction false} GivenIffPresent(rules: seq<CommentRule>, condition: wstring)
    ensures LastGiven(rules, condition).Some? <==> exists i :: 0 <= i < |rules| && ConditionKey(rules[i]) == condition
    decreases |rules|
  {
    hide ConditionKey, Normal;
    if rules != [] {
      GivenIffPresent(rules[1..], condition);
      if i :| 0 <= i < |rules| && ConditionKey(rules[i]) == condition {
        if i > 0 { assert rules[1..][i - 1] == rules[i]; }
      }
      if i :| 0 <= i < |rules| - 1 && ConditionKey(rules[1..][i]) == condition { assert rules[i + 1] == rules[1..][i]; }
    }
  }

  lemma {:induction false} DedupedIsDistinct(rules: seq<CommentRule>)
    ensures HasDistinctConditions(Deduped(rules)) && AreNormal(Deduped(rules))
    decreases |rules|
  {
    hide ConditionKey, Normal;
    if rules != [] {
      var rest := Deduped(rules[1..]);
      DedupedIsDistinct(rules[1..]);
      NormalKeepsCondition(rules[0]);
      DedupedKeepsLast(rules[1..], ConditionKey(rules[0]));
      GivenIffPresent(rest, ConditionKey(rules[0]));
    }
  }

  lemma UnfoldWithout(rules: seq<CommentRule>, i: nat, condition: wstring)
    requires i < |rules|
    ensures Without(rules[i..], condition) ==
              if ConditionKey(rules[i]) == condition then Without(rules[i + 1..], condition)
              else [rules[i]] + Without(rules[i + 1..], condition)
  {
    hide ConditionKey;
    assert rules[i..][0] == rules[i] && rules[i..][1..] == rules[i + 1..];
  }

  lemma NothingWithout(rules: seq<CommentRule>, condition: wstring)
    ensures Without(rules[|rules|..], condition) == []
  {}

  lemma {:induction false} WithoutForgets(rules: seq<CommentRule>, erased: wstring, condition: wstring)
    ensures LastGiven(Without(rules, erased), condition) == if condition == erased then None
                                                            else LastGiven(rules, condition)
    decreases |rules|
  {
    hide ConditionKey, Normal;
    if rules != [] {
      WithoutForgets(rules[1..], erased, condition);
    }
  }

  lemma {:induction false} WithoutKeepsForm(rules: seq<CommentRule>, erased: wstring)
    requires HasDistinctConditions(rules) && AreNormal(rules)
    ensures HasDistinctConditions(Without(rules, erased)) && AreNormal(Without(rules, erased))
    ensures forall r :: r in Without(rules, erased) ==> r in rules
    decreases |rules|
  {
    hide ConditionKey, Normal;
    if rules != [] {
      var tail, rest := rules[1..], Without(rules[1..], erased);
      assert forall i :: 0 <= i < |tail| ==> tail[i] == rules[i + 1];
      WithoutKeepsForm(tail, erased);
      forall j | 0 <= j < |rest| ensures ConditionKey(rest[j]) != ConditionKey(rules[0]) {
        assert rest[j] in tail;
      }
    }
  }

  // ----- the indexes

  /** Positions of the value rules of a name among the first `n`. */
  function NameIndices(rules: seq<CommentRule>, name: wstring, n: nat): (r: seq<nat>)
    requires n <= |rules|
    ensures forall i :: 0 <= i < |r| ==> r[i] < n
  {
    if n == 0 then []
    else
      var before := NameIndices(rules, name, n - 1);
      if !rules[n - 1].key && ToLower(rules[n - 1].name) == name then before + [n - 1] else before
  }

  /** Position of the last key rule of a path among the first `n`, or -1. */
  function KeyPosition(rules: seq<CommentRule>, path: wstring, n: nat): (r: int)
    requires n <= |rules|
    ensures -1 <= r < n
  {
    if n == 0 then -1
    else if rules[n - 1].key && ToLower(rules[n - 1].keyPath) == path then n - 1
    else KeyPosition(rules, path, n - 1)
  }

  predicate IndexAgrees(rules: seq<CommentRule>, n: nat, index: map<wstring, seq<nat>>)
    requires n <= |rules|
  {
    && (forall name :: name in index ==> index[name] == NameIndices(rules, name, n) && index[name] != [])
    && (forall i :: 0 <= i < n && !rules[i].key ==> ToLower(rules[i].name) in index)
  }

  predicate KeyIndexAgrees(rules: seq<CommentRule>, n: nat, keyIndex: map<wstring, nat>)
    requires n <= |rules|
  {
    && (forall path :: path in keyIndex ==> keyIndex[path] == KeyPosition(rules, path, n))
    && (forall i :: 0 <= i < n && rules[i].key ==> ToLower(rules[i].keyPath) in keyIndex)
  }

  lemma {:induction false} NoIndices(rules: seq<CommentRule>, name: wstring, n: nat)
    requires n <= |rules| && forall i :: 0 <= i < n && !rules[i].key ==> ToLower(rules[i].name) != name
    ensures NameIndices(rules, name, n) == []
    decreases n
  {
    if n > 0 { NoIndices(rules, name, n - 1); }
  }

  lemma {:induction false} NoPosition(rules: seq<CommentRule>, path: wstring, n: nat)
    requires n <= |rules| && forall i :: 0 <= i < n && rules[i].key ==> ToLower(rules[i].keyPath) != path
    ensures KeyPosition(rules, path, n) == -1
    decreases n
  {
    if n > 0 { NoPosition(rules, path, n - 1); }
  }

  lemma NameIndexGrows(rules: seq<CommentRule>, i: nat, index: map<wstring, seq<nat>>)
    requires i < |rules| && IndexAgrees(rules, i, index)
    ensures var name := ToLower(rules[i].name);
            IndexAgrees(rules, i + 1, if rules[i].key then index
                                      else index[name := (if name in index then index[name] else []) + [i]])
  {
    hide ToLower;
    var name := ToLower(rules[i].name);
    if name !in index { NoIndices(rules, name, i); }
  }

  lemma KeyIndexGrows(rules: seq<CommentRule>, i: nat, keyIndex: map<wstring, nat>)
    requires i < |rules| && KeyIndexAgrees(rules, i, keyIndex)
    ensures KeyIndexAgrees(rules, i + 1, if rules[i].key then keyIndex[ToLower(rules[i].keyPath) := i] else keyIndex)
  {
    hide ToLower;
  }

  lemma NothingIndexed(rules: seq<CommentRule>)
    ensures IndexAgrees(rules, 0, map[]) && KeyIndexAgrees(rules, 0, map[])
  {}

  // ----- matching over candidates

  /** The winner among candidate positions, by the loop's own test. */
  function Best(rules: seq<CommentRule>, target: CommentTarget, candidates: seq<nat>): (r: int)
    requires forall i :: 0 <= i < |candidates| ==> candidates[i] < |rules|
    ensures -1 <= r < |rules|
  {
    if candidates == [] then -1
    else
      var best, c := Best(rules, target, candidates[..|candidates| - 1]), candidates[|candidates| - 1];
      if Matches(rules[c], target) && (best == -1 || AtLeast(Specificity(rules[c]), Specificity(rules[best]))) then c
      else best
  }

  /** Looking at the rules of the target's name only is looking at all of them. */
  lemma {:induction false} BestIsWinner(rules: seq<CommentRule>, target: CommentTarget, n: nat)
    requires n <= |rules| && !target.key
    ensures Best(rules, target, NameIndices(rules, ToLower(target.name), n)) == Winner(rules, target, n)
    decreases n
  {
    hide Matches, Specificity, ToLower;
    if n > 0 {
      BestIsWinner(rules, target, n - 1);
      var before := NameIndices(rules, ToLower(target.name), n - 1);
      assert (before + [n - 1])[..|before|] == before;
    }
  }

  lemma {:induction false} KeyPositionIsWinner(rules: seq<CommentRule>, target: CommentTarget, n: nat)
    requires n <= |rules| && target.key
    ensures KeyPosition(rules, ToLower(StripSeparators(target.path)), n) == Winner(rules, target, n)
    decreases n
  {
    hide Specificity, ToLower, StripSeparators;
    if n > 0 { KeyPositionIsWinner(rules, target, n - 1); }
  }

  // ----- an accepted catalog in the store

  /** The rule that answers a target. */
  function Answer(rules: seq<CommentRule>, target: CommentTarget): Option<CommentRule> {
    var r := Winner(rules, target, |rules|);
    if r == -1 then None else Some(rules[r])
  }

  /** What wins over an answer that was found further in front. */
  predicate Takes(rule: CommentRule, target: CommentTarget, best: Option<CommentRule>) {
    best.None? || target.key || AtLeast(Specificity(rule), Specificity(best.value))
  }

  lemma {:induction false} WinnerFrame(rules: seq<CommentRule>, others: seq<CommentRule>, target: CommentTarget, n: nat)
    requires n <= |rules| && n <= |others| && rules[..n] == others[..n]
    ensures Winner(rules, target, n) == Winner(others, target, n)
    decreases n
  {
    hide Applies, Specificity;
    if n > 0 {
      assert forall i :: 0 <= i < n ==> rules[i] == rules[..n][i] == others[i];
      assert rules[..n - 1] == rules[..n][..n - 1] == others[..n - 1];
      WinnerFrame(rules, others, target, n - 1);
    }
  }

  lemma AnswerOfLast(rules: seq<CommentRule>, rule: CommentRule, target: CommentTarget)
    ensures Answer(rules + [rule], target) ==
              if Applies(rule, target) && Takes(rule, target, Answer(rules, target)) then Some(rule)
              else Answer(rules, target)
  {
    hide Applies, Specificity;
    var all := rules + [rule];
    assert all[..|rules|] == rules[..|rules|] == rules;
    WinnerFrame(all, rules, target, |rules|);
  }

  /** The answer of two lists, one behind the other. */
  lemma {:induction false} AnswerOfBoth(a: seq<CommentRule>, b: seq<CommentRule>, target: CommentTarget)
    ensures Answer(a + b, target) ==
              var late := Answer(b, target);
              if late.Some? && Takes(late.value, target, Answer(a, target)) then late else Answer(a, target)
    decreases |b|
  {
    hide Applies, Specificity, Answer;
    if b == [] {
      assert a + b == a;
      NoAnswer(target);
    } else {
      var before, last := b[..|b| - 1], b[|b| - 1];
      assert b == before + [last] && a + b == (a + before) + [last];
      AnswerOfBoth(a, before, target);
      AnswerOfLast(before, last, target);
      AnswerOfLast(a + before, last, target);
    }
  }

  lemma NoAnswer(target: CommentTarget)
    ensures Answer([], target) == None
  {}

  /** Rules of one condition can't stand together in a catalog. */
  lemma SameConditionConflicts(a: CommentRule, b: CommentRule)
    requires Normal(a) == a && Normal(b) == b && ConditionKey(a) == ConditionKey(b)
    ensures Conflict(a, b)
  {
    ConditionKeyIsInjective(a, b);
    EqualsInsensitiveIsEqualLower(a.name, b.name);
    EqualsInsensitiveIsEqualLower(a.keyPath, b.keyPath);
    assert |a.keyPath| == |ToLower(a.keyPath)| == |b.keyPath|;
    hide ConditionKey, EqualsInsensitive, StripSeparators, ToLower;
  }

  lemma CatalogIsDistinct(rules: seq<CommentRule>)
    requires IsCatalog(rules) && AreNormal(rules)
    ensures HasDistinctConditions(rules)
  {
    hide Conflict, ConditionKey, Normal, IsBlank;
    forall i, j | 0 <= i < j < |rules| ensures ConditionKey(rules[i]) != ConditionKey(rules[j]) {
      if ConditionKey(rules[i]) == ConditionKey(rules[j]) { SameConditionConflicts(rules[i], rules[j]); }
    }
  }

  /** What is left of earlier rules when later ones replace theirs. */
  function Left(rules: seq<CommentRule>, later: seq<CommentRule>): seq<CommentRule> {
    if rules == [] then []
    else
      var rest := Left(rules[1..], later);
      if LastGiven(rules[1..], ConditionKey(rules[0])).Some? || LastGiven(later, ConditionKey(rules[0])).Some? then rest
      else [Normal(rules[0])] + rest
  }

  lemma {:induction false} DistinctStay(rules: seq<CommentRule>)
    requires HasDistinctConditions(rules) && AreNormal(rules)
    ensures Deduped(rules) == rules
    decreases |rules|
  {
    hide ConditionKey, Normal;
    if rules != [] {
      assert forall i :: 0 <= i < |rules| - 1 ==> rules[1..][i] == rules[i + 1];
      DistinctStay(rules[1..]);
      GivenIffPresent(rules[1..], ConditionKey(rules[0]));
    }
  }

  lemma {:induction false} DedupedBoth(rules: seq<CommentRule>, later: seq<CommentRule>)
    ensures Deduped(rules + later) == Left(rules, later) + Deduped(later)
    decreases |rules|
  {
    hide ConditionKey, Normal;
    if rules == [] {
      assert rules + later == later && Left(rules, later) + Deduped(later) == Deduped(later);
    } else {
      assert (rules + later)[0] == rules[0] && (rules + later)[1..] == rules[1..] + later;
      DedupedBoth(rules[1..], later);
      LastGivenConcat(rules[1..], later, ConditionKey(rules[0]));
      assert ([Normal(rules[0])] + Left(rules[1..], later)) + Deduped(later)
        == [Normal(rules[0])] + (Left(rules[1..], later) + Deduped(later));
    }
  }

  lemma SameConditionsGiven(a: seq<CommentRule>, b: seq<CommentRule>, condition: wstring)
    requires multiset(a) == multiset(b)
    ensures LastGiven(a, condition).Some? ==> LastGiven(b, condition).Some?
  {
    hide ConditionKey;
    GivenIffPresent(a, condition);
    GivenIffPresent(b, condition);
    if LastGiven(a, condition).Some? {
      var i :| 0 <= i < |a| && ConditionKey(a[i]) == condition;
      assert a[i] in multiset(b);
    }
  }

  lemma {:induction false} LeftIsTheSame(rules: seq<CommentRule>, a: seq<CommentRule>, b: seq<CommentRule>)
    requires multiset(a) == multiset(b)
    ensures Left(rules, a) == Left(rules, b)
    decreases |rules|
  {
    hide ConditionKey, Normal, LastGiven;
    if rules != [] {
      LeftIsTheSame(rules[1..], a, b);
      SameConditionsGiven(a, b, ConditionKey(rules[0]));
      SameConditionsGiven(b, a, ConditionKey(rules[0]));
    }
  }

  /** Whatever the store held, merging an accepted catalog in another order answers every target the same. */
  lemma MergedOrderIsIrrelevant(before: seq<CommentRule>, rules: seq<CommentRule>, other: seq<CommentRule>,
      target: CommentTarget)
    requires IsCatalog(rules) && AreReadRules(rules) && AreNormal(rules) && multiset(rules) == multiset(other)
    ensures Answer(Deduped(before + rules), target) == Answer(Deduped(before + other), target)
  {
    hide *;
    CatalogPermutes(rules, other);
    NormalPermutes(rules, other);
    CatalogIsDistinct(rules);
    CatalogIsDistinct(other);
    DistinctStay(rules);
    DistinctStay(other);
    DedupedBoth(before, rules);
    DedupedBoth(before, other);
    LeftIsTheSame(before, rules, other);
    AnswerOfBoth(Left(before, rules), rules, target);
    AnswerOfBoth(Left(before, rules), other, target);
    AnswerPermutes(rules, other, target);
  }

  lemma AnswerPermutes(rules: seq<CommentRule>, other: seq<CommentRule>, target: CommentTarget)
    requires IsCatalog(rules) && AreReadRules(rules) && multiset(rules) == multiset(other)
    ensures Answer(rules, target) == Answer(other, target)
  {
    CatalogOrderIsIrrelevant(rules, other, target);
    hide Winner, IsCatalog, AreReadRules;
  }

  lemma NormalPermutes(rules: seq<CommentRule>, other: seq<CommentRule>)
    requires AreNormal(rules) && multiset(rules) == multiset(other)
    ensures AreNormal(other)
  {
    hide Normal;
    forall i | 0 <= i < |other| ensures Normal(other[i]) == other[i] { assert other[i] in multiset(rules); }
  }

  // ----- the store

  class Comments {
    var rules: seq<CommentRule>
    var index: map<wstring, seq<nat>>
    var keyIndex: map<wstring, nat>

    /** One rule a condition, closing backslashes gone, and both indexes up to date. */
    predicate Valid()
      reads this
    {
      && HasDistinctConditions(rules) && AreNormal(rules)
      && IndexAgrees(rules, |rules|, index) && KeyIndexAgrees(rules, |rules|, keyIndex)
    }

    constructor ()
      ensures Valid() && rules == []
    {
      rules, index, keyIndex := [], map[], map[];
    }

    method Reindex()
      modifies this`index, this`keyIndex
      ensures IndexAgrees(rules, |rules|, index) && KeyIndexAgrees(rules, |rules|, keyIndex)
    {
      hide IndexAgrees, KeyIndexAgrees, ToLower;
      index, keyIndex := map[], map[];
      NothingIndexed(rules);
      for i := 0 to |rules|
        invariant IndexAgrees(rules, i, index) && KeyIndexAgrees(rules, i, keyIndex)
        modifies this`index, this`keyIndex
      {
        NameIndexGrows(rules, i, index);
        KeyIndexGrows(rules, i, keyIndex);
        if rules[i].key {
          keyIndex := keyIndex[ToLower(rules[i].keyPath) := i];
        } else {
          var name := ToLower(rules[i].name);
          index := index[name := (if name in index then index[name] else []) + [i]];
        }
      }
    }

    method Clear()
      modifies this
      ensures Valid() && rules == []
    {
      rules := [];
      Reindex();
    }

    /** Adds rules; of each condition the last one given stays. */
    method Merge(more: seq<CommentRule>)
      modifies this
      ensures Valid() && rules == Deduped(old(rules) + more)
      ensures forall condition :: LastGiven(rules, condition)
                == if LastGiven(more, condition).Some? then LastGiven(more, condition)
                   else LastGiven(old(rules), condition)
    {
      hide ConditionKey, Normal, StripSeparators;
      var all := rules + more;
      var seen: set<wstring> := {};
      var unique: seq<CommentRule> := [];
      var i := |all|;
      assert all[|all|..] == [];
      while i > 0
        invariant 0 <= i <= |all|
        invariant Reversed(unique) == Deduped(all[i..])
        invariant forall condition :: condition in seen <==> LastGiven(all[i..], condition).Some?
      {
        i := i - 1;
        assert all[i..][0] == all[i] && all[i..][1..] == all[i + 1..];
        var rule := Normal(all[i]);
        NormalKeepsCondition(all[i]);
        if ConditionKey(rule) !in seen {
          seen := seen + {ConditionKey(rule)};
          unique := unique + [rule];
        }
      }
      assert all[0..] == all;
      rules := Reversed(unique);
      DedupedIsDistinct(all);
      forall condition ensures LastGiven(rules, condition)
                == if LastGiven(more, condition).Some? then LastGiven(more, condition)
                   else LastGiven(old(rules), condition)
      {
        DedupedKeepsLast(all, condition);
        LastGivenConcat(old(rules), more, condition);
      }
      Reindex();
    }

    method Set(rule: CommentRule)
      modifies this
      ensures Valid() && LastGiven(rules, ConditionKey(rule)) == Some(Normal(rule))
      ensures forall condition :: condition != ConditionKey(rule) ==>
                LastGiven(rules, condition) == LastGiven(old(rules), condition)
    {
      hide ConditionKey, Normal;
      forall condition
        ensures LastGiven([rule], condition) == if ConditionKey(rule) == condition then Some(Normal(rule)) else None
      {
        assert [rule][1..] == [];
      }
      Merge([rule]);
    }

    method Erase(rule: CommentRule)
      requires Valid()
      modifies this
      ensures Valid() && rules == Without(old(rules), ConditionKey(rule))
      ensures forall condition :: LastGiven(rules, condition)
                == if condition == ConditionKey(rule) then None else LastGiven(old(rules), condition)
    {
      hide ConditionKey, Normal, Without, LastGiven, HasDistinctConditions, AreNormal, IndexAgrees, KeyIndexAgrees;
      var key := ConditionKey(rule);
      var before := rules;
      assert before[0..] == before && [] + Without(before, key) == Without(before, key);
      var kept: seq<CommentRule> := [];
      for i := 0 to |before|
        invariant kept + Without(before[i..], key) == Without(before, key)
      {
        UnfoldWithout(before, i, key);
        if ConditionKey(before[i]) != key {
          kept := kept + [before[i]];
        }
      }
      NothingWithout(before, key);
      assert kept == Without(before, key);
      WithoutKeepsForm(before, key);
      forall condition
        ensures LastGiven(kept, condition) == if condition == key then None else LastGiven(before, condition)
      {
        WithoutForgets(before, key, condition);
      }
      rules := kept;
      Reindex();
    }

    /** The rule for a target, found through the indexes: the winner of a scan over all rules. */
    method Match(target: CommentTarget) returns (rule: Option<CommentRule>)
      requires Valid()
      ensures rule == Answer(rules, target)
    {
      hide Matches, Specificity, Winner, IndexAgrees, KeyIndexAgrees, NameIndices, KeyPosition, ToLower;
      hide StripSeparators,
        HasDistinctConditions, AreNormal, Best, Applies;
      if target.key {
        var path := ToLower(StripSeparators(target.path));
        KeyPositionIsWinner(rules, target, |rules|);
        if path !in keyIndex {
          NotInKeyIndex(rules, keyIndex, path);
          return None;
        }
        InKeyIndex(rules, keyIndex, path);
        return Some(rules[keyIndex[path]]);
      }
      var name := ToLower(target.name);
      BestIsWinner(rules, target, |rules|);
      if name !in index {
        NotInIndex(rules, index, name);
        NoCandidates(rules, target);
        return None;
      }
      InIndex(rules, index, name);
      var best := FindBest(rules, target, index[name]);
      rule := if best == -1 then None else Some(rules[best]);
    }
  }

  lemma NotInKeyIndex(rules: seq<CommentRule>, keyIndex: map<wstring, nat>, path: wstring)
    requires KeyIndexAgrees(rules, |rules|, keyIndex) && path !in keyIndex
    ensures KeyPosition(rules, path, |rules|) == -1
  {
    hide ToLower;
    NoPosition(rules, path, |rules|);
  }

  lemma InKeyIndex(rules: seq<CommentRule>, keyIndex: map<wstring, nat>, path: wstring)
    requires KeyIndexAgrees(rules, |rules|, keyIndex) && path in keyIndex
    ensures KeyPosition(rules, path, |rules|) == keyIndex[path]
  {}

  lemma NotInIndex(rules: seq<CommentRule>, index: map<wstring, seq<nat>>, name: wstring)
    requires IndexAgrees(rules, |rules|, index) && name !in index
    ensures NameIndices(rules, name, |rules|) == []
  {
    hide ToLower;
    NoIndices(rules, name, |rules|);
  }

  lemma InIndex(rules: seq<CommentRule>, index: map<wstring, seq<nat>>, name: wstring)
    requires IndexAgrees(rules, |rules|, index) && name in index
    ensures NameIndices(rules, name, |rules|) == index[name]
  {}

  lemma NoCandidates(rules: seq<CommentRule>, target: CommentTarget)
    ensures Best(rules, target, []) == -1
  {}

  /** The loop over the candidates. */
  method FindBest(rules: seq<CommentRule>, target: CommentTarget, candidates: seq<nat>) returns (best: int)
    requires forall i :: 0 <= i < |candidates| ==> candidates[i] < |rules|
    ensures best == Best(rules, target, candidates)
  {
    hide Matches, Specificity;
    best := -1;
    for k := 0 to |candidates|
      invariant best == Best(rules, target, candidates[..k])
    {
      assert candidates[..k + 1][..k] == candidates[..k];
      var at := candidates[k];
      if Matches(rules[at], target) && (best == -1 || AtLeast(Specificity(rules[at]), Specificity(rules[best]))) {
        best := at;
      }
    }
    assert candidates[..|candidates|] == candidates;
  }

  function Reversed(rules: seq<CommentRule>): seq<CommentRule> {
    if rules == [] then [] else [rules[|rules| - 1]] + Reversed(rules[..|rules| - 1])
  }

  // ----- runs

  datatype Edit = Merging(rules: seq<CommentRule>) | Setting(rule: CommentRule) | Erasing(rule: CommentRule) | Clearing

  /** The rule of a condition after one edit: what is given last counts. */
  function AfterEdit(edit: Edit, before: Option<CommentRule>, condition: wstring): Option<CommentRule> {
    match edit
    case Merging(rules) => if LastGiven(rules, condition).Some? then LastGiven(rules, condition) else before
    case Setting(rule) => if ConditionKey(rule) == condition then Some(Normal(rule)) else before
    case Erasing(rule) => if ConditionKey(rule) == condition then None else before
    case Clearing => None
  }

  function AfterEdits(edits: seq<Edit>, condition: wstring): Option<CommentRule> {
    if edits == [] then None else AfterEdit(edits[|edits| - 1], AfterEdits(edits[..|edits| - 1], condition), condition)
  }

  /** Any run of edits on an empty store. */
  method Run(edits: seq<Edit>) returns (comments: Comments)
    ensures fresh(comments) && comments.Valid()
    ensures forall condition :: LastGiven(comments.rules, condition) == AfterEdits(edits, condition)
  {
    hide ConditionKey, Normal, LastGiven;
    comments := new Comments();
    forall condition ensures LastGiven([], condition) == None { NothingGiven(condition); }
    for i := 0 to |edits|
      invariant fresh(comments) && comments.Valid()
      invariant forall condition :: LastGiven(comments.rules, condition) == AfterEdits(edits[..i], condition)
    {
      assert edits[..i + 1][..i] == edits[..i];
      ghost var was := comments.rules;
      match edits[i] {
        case Merging(rules) => comments.Merge(rules);
        case Setting(rule) => comments.Set(rule);
        case Erasing(rule) => comments.Erase(rule);
        case Clearing => comments.Clear();
      }
      forall condition ensures LastGiven(comments.rules, condition) == AfterEdits(edits[..i + 1], condition) {
        assert LastGiven(was, condition) == AfterEdits(edits[..i], condition);
      }
    }
    assert edits[..|edits|] == edits;
  }

  lemma NothingGiven(condition: wstring)
    ensures LastGiven([], condition) == None
  {}
}
