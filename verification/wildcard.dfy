/** The wildcard matcher behind `reg query /f`: `?` is any one unit, `*` any run of units. */
module Wildcard {
  import opened Text

  predicate Same(caseSensitive: bool, a: wchar, b: wchar) {
    if caseSensitive then a == b else UpperUnit(a) == UpperUnit(b)
  }

  predicate UnitMatches(cs: bool, p: wchar, t: wchar) {
    p == QUESTION || Same(cs, p, t)
  }

  /** What a glob pattern means. */
  ghost predicate Glob(text: wstring, pattern: wstring, cs: bool)
    decreases |pattern|
  {
    if pattern == [] then text == []
    else if pattern[0] == STAR then exists k :: 0 <= k <= |text| && Glob(text[k..], pattern[1..], cs)
    else text != [] && UnitMatches(cs, pattern[0], text[0]) && Glob(text[1..], pattern[1..], cs)
  }

  ghost predicate StarFree(s: wstring) {
    forall i :: 0 <= i < |s| ==> s[i] != STAR
  }

  /** The matcher's transitions, started at text position t and pattern position p; star is -1 until one is seen. */
  function Scan(text: wstring, pattern: wstring, cs: bool, t: nat, p: nat, star: int, resume: nat): bool
    requires t <= |text| && p <= |pattern| && -1 <= star < p + (if star == -1 then 1 else 0) && resume <= t
    decreases |pattern| - star, |text| - resume, |text| - t, |pattern| - p
  {
    if t < |text| then
      if p < |pattern| && UnitMatches(cs, pattern[p], text[t]) then Scan(text, pattern, cs, t + 1, p + 1, star, resume)
      else if p < |pattern| && pattern[p] == STAR then Scan(text, pattern, cs, t, p + 1, p, t)
      else if star != -1 then Scan(text, pattern, cs, resume + 1, star + 1, star, resume + 1)
      else false
    else if p < |pattern| && pattern[p] == STAR then Scan(text, pattern, cs, t, p + 1, star, resume)
    else p == |pattern|
  }

  function Matches(text: wstring, pattern: wstring, cs: bool): bool {
    Scan(text, pattern, cs, 0, 0, -1, 0)
  }

  method WildcardMatch(text: wstring, pattern: wstring, caseSensitive: bool) returns (r: bool)
    ensures r == Matches(text, pattern, caseSensitive)
  {
    var t, p, star, resume := 0, 0, -1, 0;
    while t < |text|
      invariant t <= |text| && p <= |pattern| && -1 <= star < p + (if star == -1 then 1 else 0) && resume <= t
      invariant Scan(text, pattern, caseSensitive, t, p, star, resume) == Matches(text, pattern, caseSensitive)
      decreases |pattern| - star, |text| - resume, |text| - t
    {
      if p < |pattern| && (pattern[p] == QUESTION || Same(caseSensitive, pattern[p], text[t])) {
        t := t + 1;
        p := p + 1;
      } else if p < |pattern| && pattern[p] == STAR {
        star := p;
        p := p + 1;
        resume := t;
      } else if star != -1 {
        p := star + 1;
        resume := resume + 1;
        t := resume;
      } else {
        return false;
      }
    }
    while p < |pattern| && pattern[p] == STAR
      invariant t == |text| && p <= |pattern| && -1 <= star < p + (if star == -1 then 1 else 0) && resume <= t
      invariant Scan(text, pattern, caseSensitive, t, p, star, resume) == Matches(text, pattern, caseSensitive)
    {
      p := p + 1;
    }
    return p == |pattern|;
  }

  // ----- the glob relation on suffixes

  /** A star-free stretch of pattern consumes exactly its own length. */
  lemma {:induction false} SkipStarFree(text: wstring, pattern: wstring, cs: bool, n: nat)
    requires n <= |pattern| && StarFree(pattern[..n]) && Glob(text, pattern, cs)
    ensures n <= |text| && Glob(text[n..], pattern[n..], cs)
    decreases n
  {
    if n == 0 {
      assert text[0..] == text && pattern[0..] == pattern;
    } else {
      assert pattern[0] == pattern[..n][0];
      assert pattern[1..][..n - 1] == pattern[..n][1..];
      SkipStarFree(text[1..], pattern[1..], cs, n - 1);
      assert text[1..][n - 1..] == text[n..] && pattern[1..][n - 1..] == pattern[n..];
    }
  }

  /** A later restart of the remembered star is still open. */
  ghost predicate Restart(text: wstring, pattern: wstring, cs: bool, star: int, resume: nat)
    requires -1 <= star < |pattern| && resume <= |text|
  {
    star != -1 && exists k :: resume < k <= |text| && Glob(text[k..], pattern[star + 1..], cs)
  }

  /** Matches found from here on are real ones, because every restart of the remembered star is one. */
  lemma {:induction false} ScanIsSound(text: wstring, pattern: wstring, cs: bool, t: nat, p: nat, star: int,
      resume: nat)
    requires t <= |text| && p <= |pattern| && -1 <= star < p + (if star == -1 then 1 else 0) && resume <= t
    requires Scan(text, pattern, cs, t, p, star, resume)
    ensures Glob(text[t..], pattern[p..], cs) || Restart(text, pattern, cs, star, resume)
    decreases |pattern| - star, |text| - resume, |text| - t, |pattern| - p
  {
    if t < |text| {
      if p < |pattern| && UnitMatches(cs, pattern[p], text[t]) {
        ScanIsSound(text, pattern, cs, t + 1, p + 1, star, resume);
        if !Restart(text, pattern, cs, star, resume) {
          assert text[t..][1..] == text[t + 1..] && pattern[p..][1..] == pattern[p + 1..];
          if pattern[p] == STAR {
            assert Glob(text[t..][1..], pattern[p..][1..], cs);
          }
        }
      } else if p < |pattern| && pattern[p] == STAR {
        ScanIsSound(text, pattern, cs, t, p + 1, p, t);
        var k :| t <= k <= |text| && Glob(text[k..], pattern[p + 1..], cs);
        assert text[t..][k - t..] == text[k..] && pattern[p..][1..] == pattern[p + 1..];
      } else {
        ScanIsSound(text, pattern, cs, resume + 1, star + 1, star, resume + 1);
      }
    } else if p < |pattern| && pattern[p] == STAR {
      ScanIsSound(text, pattern, cs, t, p + 1, star, resume);
      if Glob(text[t..], pattern[p + 1..], cs) {
        assert text[t..][0..] == text[t..] && pattern[p..][1..] == pattern[p + 1..];
      }
    }
  }

  /** The scan at (t, p) has lost nothing: the rest matches here, or after a later restart of the latest star,
      and since that star only star-free pattern was consumed. */
  ghost predicate Alive(text: wstring, pattern: wstring, cs: bool, t: nat, p: nat, star: int, resume: nat)
  {
    && t <= |text| && p <= |pattern| && -1 <= star < p + (if star == -1 then 1 else 0) && resume <= t
    && (star != -1 ==> t - resume == p - (star + 1) && StarFree(pattern[star + 1..p]))
    && (Glob(text[t..], pattern[p..], cs) || Restart(text, pattern, cs, star, resume))
  }

  lemma LiteralStepStaysAlive(text: wstring, pattern: wstring, cs: bool, t: nat, p: nat, star: int, resume: nat)
    requires Alive(text, pattern, cs, t, p, star, resume)
    requires t < |text| && p < |pattern| && pattern[p] != STAR && UnitMatches(cs, pattern[p], text[t])
    ensures Alive(text, pattern, cs, t + 1, p + 1, star, resume)
  {
    if star != -1 {
      assert pattern[star + 1..p + 1] == pattern[star + 1..p] + [pattern[p]];
    }
    assert text[t..][1..] == text[t + 1..] && pattern[p..][1..] == pattern[p + 1..];
  }

  lemma StarStepStaysAlive(text: wstring, pattern: wstring, cs: bool, t: nat, p: nat, star: int, resume: nat)
    requires Alive(text, pattern, cs, t, p, star, resume)
    requires t < |text| && p < |pattern| && pattern[p] == STAR
    ensures Alive(text, pattern, cs, t, p + 1, p, t)
  {
    if Restart(text, pattern, cs, star, resume) {
      RestartReachesStar(text, pattern, cs, t, p, star, resume);
    }
    var k :| 0 <= k <= |text[t..]| && Glob(text[t..][k..], pattern[p..][1..], cs);
    assert text[t..][k..] == text[t + k..] && pattern[p..][1..] == pattern[p + 1..];
    assert pattern[p + 1..p + 1] == [];
  }

  lemma RestartStepStaysAlive(text: wstring, pattern: wstring, cs: bool, t: nat, p: nat, star: int, resume: nat)
    requires Alive(text, pattern, cs, t, p, star, resume) && t < |text|
    requires p == |pattern| || (pattern[p] != STAR && !UnitMatches(cs, pattern[p], text[t]))
    ensures star != -1 && Alive(text, pattern, cs, resume + 1, star + 1, star, resume + 1)
  {
    assert text[t..][0] == text[t];
    if p < |pattern| { assert pattern[p..][0] == pattern[p]; }
    assert !Glob(text[t..], pattern[p..], cs);
    assert pattern[star + 1..star + 1] == [];
  }

  lemma {:induction false} EndIsDecided(text: wstring, pattern: wstring, cs: bool, p: nat, star: int, resume: nat)
    requires Alive(text, pattern, cs, |text|, p, star, resume)
    ensures Scan(text, pattern, cs, |text|, p, star, resume)
  {
    if Restart(text, pattern, cs, star, resume) {
      var k :| resume < k <= |text| && Glob(text[k..], pattern[star + 1..], cs);
      assert pattern[star + 1..][..p - (star + 1)] == pattern[star + 1..p];
      SkipStarFree(text[k..], pattern[star + 1..], cs, p - (star + 1));
      assert false;
    }
    assert text[|text|..] == [];
    TailStars(text, pattern, cs, p, star, resume);
  }

  lemma StarFreeUnit(text: wstring, t: nat)
    requires StarFree(text)
    ensures t < |text| ==> text[t] != STAR
  {}

  /** With no star in the text the latest star is enough: any earlier restart is subsumed by it. */
  lemma {:induction false} ScanIsComplete(text: wstring, pattern: wstring, cs: bool, t: nat, p: nat, star: int,
      resume: nat)
    requires StarFree(text) && Alive(text, pattern, cs, t, p, star, resume)
    ensures Scan(text, pattern, cs, t, p, star, resume)
    decreases |pattern| - star, |text| - resume, |text| - t, |pattern| - p
  {
    hide Glob, Restart;
    StarFreeUnit(text, t);
    hide StarFree;
    if t == |text| {
      EndIsDecided(text, pattern, cs, p, star, resume);
    } else if p < |pattern| && UnitMatches(cs, pattern[p], text[t]) {
      LiteralStepStaysAlive(text, pattern, cs, t, p, star, resume);
      ScanIsComplete(text, pattern, cs, t + 1, p + 1, star, resume);
    } else if p < |pattern| && pattern[p] == STAR {
      StarStepStaysAlive(text, pattern, cs, t, p, star, resume);
      ScanIsComplete(text, pattern, cs, t, p + 1, p, t);
    } else {
      RestartStepStaysAlive(text, pattern, cs, t, p, star, resume);
      ScanIsComplete(text, pattern, cs, resume + 1, star + 1, star, resume + 1);
    }
  }

  lemma {:induction false} RestartReachesStar(text: wstring, pattern: wstring, cs: bool, t: nat, p: nat, star: int,
      resume: nat)
    requires t <= |text| && p < |pattern| && 0 <= star < p && resume <= t && pattern[p] == STAR
    requires t - resume == p - (star + 1) && StarFree(pattern[star + 1..p])
    requires Restart(text, pattern, cs, star, resume)
    ensures Glob(text[t..], pattern[p..], cs)
  {
    var k :| resume < k <= |text| && Glob(text[k..], pattern[star + 1..], cs);
    var n := p - (star + 1);
    assert pattern[star + 1..][..n] == pattern[star + 1..p];
    SkipStarFree(text[k..], pattern[star + 1..], cs, n);
    assert text[k..][n..] == text[k + n..] && pattern[star + 1..][n..] == pattern[p..];
    assert text[t..][k + n - t..] == text[k + n..];
  }

  lemma {:induction false} TailStars(text: wstring, pattern: wstring, cs: bool, p: nat, star: int, resume: nat)
    requires p <= |pattern| && -1 <= star < p + (if star == -1 then 1 else 0) && resume <= |text|
    requires Glob([], pattern[p..], cs)
    ensures Scan(text, pattern, cs, |text|, p, star, resume)
    decreases |pattern| - p
  {
    if p < |pattern| {
      assert pattern[p..][0] == pattern[p] && pattern[p..][1..] == pattern[p + 1..];
      var none: wstring := [];
      assert pattern[p] == STAR;
      var k :| 0 <= k <= |none| && Glob(none[k..], pattern[p..][1..], cs);
      assert none[k..] == [];
      TailStars(text, pattern, cs, p + 1, star, resume);
    }
  }

  // ----- main results

  /** A reported match is a match, for every text and pattern. */
  lemma MatchIsGlob(text: wstring, pattern: wstring, cs: bool)
    requires Matches(text, pattern, cs)
    ensures Glob(text, pattern, cs)
  {
    ScanIsSound(text, pattern, cs, 0, 0, -1, 0);
    assert text[0..] == text && pattern[0..] == pattern;
  }

  lemma GlobIsMatch(text: wstring, pattern: wstring, cs: bool)
    requires StarFree(text) && Glob(text, pattern, cs)
    ensures Matches(text, pattern, cs)
  {
    assert text[0..] == text && pattern[0..] == pattern;
    ScanIsComplete(text, pattern, cs, 0, 0, -1, 0);
  }

  function Questions(n: nat): (s: wstring)
    ensures |s| == n
    ensures forall i :: 0 <= i < n ==> s[i] == QUESTION
  {
    seq(n, _ => QUESTION)
  }

  lemma {:induction false} QuestionsMatch(text: wstring, cs: bool)
    ensures Glob(text, Questions(|text|), cs)
    decreases |text|
  {
    if text != [] {
      QuestionsMatch(text[1..], cs);
      assert Questions(|text|)[1..] == Questions(|text| - 1);
    }
  }

  /** The pattern a text with a star at `at` defeats: units before it, the star, then every unit from it on. */
  function Defeating(text: wstring, at: nat): wstring
    requires at < |text|
  {
    Questions(at) + [STAR] + Questions(|text| - at)
  }

  lemma {:induction false} DefeatingIsGlob(text: wstring, at: nat, cs: bool)
    requires at < |text|
    ensures Glob(text, Defeating(text, at), cs)
    decreases at
  {
    var pattern := Defeating(text, at);
    if at == 0 {
      assert pattern[1..] == Questions(|text|) && text[0..] == text;
      QuestionsMatch(text, cs);
      assert Glob(text[0..], pattern[1..], cs);
    } else {
      assert pattern[1..] == Defeating(text[1..], at - 1) by {
        assert Questions(at)[1..] == Questions(at - 1);
      }
      DefeatingIsGlob(text[1..], at - 1, cs);
    }
  }

  lemma {:induction false} DefeatingScanFails(text: wstring, at: nat, cs: bool, t: nat)
    requires at < |text| && text[at] == STAR && t <= |text|
    ensures !Scan(text, Defeating(text, at), cs, t, t, -1, 0)
    decreases |text| - t
  {
    if t < |text| {
      DefeatingScanFails(text, at, cs, t + 1);
    }
  }

  /** The matcher decides the glob relation for every pattern exactly when the text has no star unit:
      a star in the text can be taken for the pattern's own. */
  lemma MatchIsGlobExactlyOnStarFreeTexts(text: wstring, cs: bool)
    ensures StarFree(text) <==> (forall pattern :: Matches(text, pattern, cs) <==> Glob(text, pattern, cs))
  {
    if StarFree(text) {
      forall pattern ensures Matches(text, pattern, cs) <==> Glob(text, pattern, cs) {
        if Matches(text, pattern, cs) { MatchIsGlob(text, pattern, cs); }
        if Glob(text, pattern, cs) { GlobIsMatch(text, pattern, cs); }
      }
    } else {
      var at :| 0 <= at < |text| && text[at] == STAR;
      DefeatingIsGlob(text, at, cs);
      DefeatingScanFails(text, at, cs, 0);
      assert !(Matches(text, Defeating(text, at), cs) <==> Glob(text, Defeating(text, at), cs));
    }
  }
}
