/** What the layers of a batch line do to quoted texts and to the words between them. */
module BatchLayers {
  import opened Text
  import opened ValueFormat
  import opened BatchSyntax

  // ----- percent expansion

  lemma {:induction false} ExpandPlain(line: wstring, i: nat, p: wstring, variables: Variables, output: wstring)
    requires HasAt(line, i, p) && PERCENT !in p
    ensures ExpandFrom(line, i, variables, output) == ExpandFrom(line, i + |p|, variables, output + p)
    decreases |p|
  {
    if p == [] {
      assert output + p == output;
    } else {
      HasAtUnit(line, i, p);
      ExpandPlain(line, i + 1, p[1..], variables, output + [p[0]]);
      assert output + [p[0]] + p[1..] == output + p;
    }
  }

  lemma ExpandDoubled(line: wstring, i: nat, c: wchar, variables: Variables, output: wstring)
    requires HasAt(line, i, Doubled(c, true))
    ensures ExpandFrom(line, i, variables, output)
            == ExpandFrom(line, i + |Doubled(c, true)|, variables, output + Doubled(c, false))
  {
    var d := Doubled(c, true);
    HasAtUnit(line, i, d);
    if |d| == 2 { HasAtUnit(line, i + 1, d[1..]); }
    if c == DQUOTE { assert output + [c] + [c] == output + [c, c]; }
  }

  /** Doubled percents halve, everything else in a quoted text stays. */
  lemma {:induction false} ExpandQuotedRest(
    line: wstring, i: nat, text: wstring, index: nat, slashes: nat, variables: Variables, output: wstring)
    requires index <= |text| && HasAt(line, i, QuotedRest(text, index, slashes, true))
    ensures ExpandFrom(line, i, variables, output)
            == ExpandFrom(line, i + |QuotedRest(text, index, slashes, true)|, variables, output
                          + QuotedRest(text, index, slashes, false))
    decreases |text| - index
  {
    hide ExpandFrom, HasAt, Backslashes, Doubled;
    if index == |text| {
      ExpandPlain(line, i, Backslashes(2 * slashes) + [DQUOTE], variables, output);
    } else if text[index] == BACKSLASH {
      ExpandQuotedRest(line, i, text, index + 1, slashes + 1, variables, output);
    } else {
      var c := text[index];
      var run := Backslashes(if c == DQUOTE then 2 * slashes else slashes);
      var d, rest := Doubled(c, true), QuotedRest(text, index + 1, 0, true);
      assert |run| == if c == DQUOTE then 2 * slashes else slashes;
      HasAtSplit(line, i, run, d + rest);
      HasAtSplit(line, i + |run|, d, rest);
      ExpandPlain(line, i, run, variables, output);
      ExpandDoubled(line, i + |run|, c, variables, output + run);
      ExpandQuotedRest(line, i + |run| + |d|, text, index + 1, 0, variables, output + run + Doubled(c, false));
      Regroup(output, run, Doubled(c, false), QuotedRest(text, index + 1, 0, false));
    }
  }

  lemma Regroup(a: wstring, b: wstring, c: wstring, d: wstring)
    ensures a + b + c + d == a + (b + (c + d))
  {}

  // ----- command splitting

  predicate IsActive(c: wchar) {
    c == CARET || c == AMP || c == BAR || c == LPAREN || c == RPAREN || c == GREATER || c == LESS
  }

  /** Whether the quotes of a text hide all its active units, and whether it ends inside quotes. */
  function Passes(p: wstring, quoted: bool): Option<bool> {
    if p == [] then Some(quoted)
    else if !quoted && IsActive(p[0]) then None
    else Passes(p[1..], quoted != (p[0] == DQUOTE))
  }

  lemma {:induction false} PassesConcat(a: wstring, b: wstring, quoted: bool)
    ensures Passes(a + b, quoted) == if Passes(a, quoted).None? then None else Passes(b, Passes(a, quoted).value)
    decreases |a|
  {
    if a == [] {
      assert a + b == b;
    } else {
      assert (a + b)[1..] == a[1..] + b;
      PassesConcat(a[1..], b, quoted != (a[0] == DQUOTE));
    }
  }

  /** A text that passes is taken over unchanged. */
  lemma {:induction false} SplitPassing(line: wstring, i: nat, p: wstring, quoted: bool, done: seq<Command>,
      last: Command)
    requires HasAt(line, i, p) && Passes(p, quoted).Some?
    ensures CommandsFrom(line, i, quoted, done, last)
            == CommandsFrom(line, i + |p|, Passes(p, quoted).value, done, Command(last.text + p, last.separator))
    decreases |p|
  {
    if p == [] {
      assert last.text + p == last.text;
    } else {
      HasAtUnit(line, i, p);
      SplitPassing(line, i + 1, p[1..], quoted != (p[0] == DQUOTE), done, Pushed(last, p[0]));
      assert last.text + [p[0]] + p[1..] == last.text + p;
    }
  }

  lemma {:induction false} RunPasses(p: wstring)
    requires DQUOTE !in p
    ensures Passes(p, true) == Some(true)
    decreases |p|
  {
    if p != [] { RunPasses(p[1..]); }
  }

  lemma {:induction false} QuotedRestPasses(text: wstring, index: nat, slashes: nat)
    requires index <= |text|
    ensures Passes(QuotedRest(text, index, slashes, false), true) == Some(false)
    decreases |text| - index
  {
    hide Passes, Backslashes, Doubled;
    if index == |text| {
      RunPasses(Backslashes(2 * slashes)) by { NoQuote(2 * slashes); }
      PassesConcat(Backslashes(2 * slashes), [DQUOTE], true);
      UnitPasses(DQUOTE);
    } else if text[index] == BACKSLASH {
      QuotedRestPasses(text, index + 1, slashes + 1);
    } else {
      var c := text[index];
      var n := if c == DQUOTE then 2 * slashes else slashes;
      RunPasses(Backslashes(n)) by { NoQuote(n); }
      UnitPasses(c);
      QuotedRestPasses(text, index + 1, 0);
      PassesConcat(Doubled(c, false), QuotedRest(text, index + 1, 0, false), true);
      PassesConcat(Backslashes(n), Doubled(c, false) + QuotedRest(text, index + 1, 0, false), true);
    }
  }

  lemma NoQuote(n: nat)
    ensures DQUOTE !in Backslashes(n)
  {}

  lemma UnitPasses(c: wchar)
    ensures Passes(Doubled(c, false), true) == Some(true) && Passes([DQUOTE], true) == Some(false)
  {
    var d := Doubled(c, false);
    assert Passes([], true) == Some(true) && Passes([], false) == Some(false);
    assert [DQUOTE][1..] == [] && [c][1..] == [];
    assert Passes([DQUOTE], false) == Some(true);
    if |d| == 2 { assert d[1..] == [DQUOTE]; }
  }

  /** Whatever a quoted text holds, the command splitter leaves it alone. */
  lemma QuotedPasses(text: wstring)
    ensures Passes(Quoted(text, false), false) == Some(false)
  {
    QuotedRestPasses(text, 0, 0);
    assert Quoted(text, false)[1..] == QuotedRest(text, 0, 0, false);
  }

  // ----- argument splitting

  lemma {:induction false} SlashesEnd(text: wstring, i: nat, n: nat)
    requires HasAt(text, i, Backslashes(n))
    requires i + n < |text| ==> text[i + n] != BACKSLASH
    ensures SlashEnd(text, i) == i + n
    decreases n
  {
    if n > 0 {
      HasAtUnit(text, i, Backslashes(n));
      assert Backslashes(n)[1..] == Backslashes(n - 1);
      SlashesEnd(text, i + 1, n - 1);
    }
  }

  /** What follows an argument: a blank or nothing. */
  predicate ArgumentEnds(text: wstring, i: nat) {
    i >= |text| || IsBlank(text[i])
  }

  /** A quote inside quotes: a doubled run of backslashes and a doubled quote. */
  lemma ArgumentQuote(text: wstring, i: nat, slashes: nat, arg: wstring)
    requires HasAt(text, i, Backslashes(2 * slashes) + [DQUOTE, DQUOTE])
    ensures i + 2 * slashes + 2 <= |text|
    ensures ArgumentFrom(text, i, true, arg)
            == ArgumentFrom(text, i + 2 * slashes + 2, true, arg + Backslashes(slashes) + [DQUOTE])
  {
    hide ArgumentFrom, SlashEnd, HasAt, IsBlank, Backslashes;
    HasAtSplit(text, i, Backslashes(2 * slashes), [DQUOTE, DQUOTE]);
    HasAtUnit(text, i + 2 * slashes, [DQUOTE, DQUOTE]);
    HasAtUnit(text, i + 2 * slashes + 1, [DQUOTE, DQUOTE][1..]);
    SlashesEnd(text, i, 2 * slashes);
    UnfoldArgument(text, i, true, arg);
  }

  /** Any other unit inside quotes, behind its backslashes. */
  lemma ArgumentPlain(text: wstring, i: nat, slashes: nat, c: wchar, arg: wstring)
    requires c != BACKSLASH && c != DQUOTE && HasAt(text, i, Backslashes(slashes) + [c])
    ensures i + slashes + 1 <= |text|
    ensures ArgumentFrom(text, i, true, arg)
            == ArgumentFrom(text, i + slashes + 1, true, arg + Backslashes(slashes) + [c])
  {
    hide ArgumentFrom, SlashEnd, HasAt, IsBlank, Backslashes;
    HasAtSplit(text, i, Backslashes(slashes), [c]);
    HasAtUnit(text, i + slashes, [c]);
    SlashesEnd(text, i, slashes);
    UnfoldArgument(text, i, true, arg);
  }

  /** Backslashes and the unit behind them, inside quotes. */
  lemma ArgumentUnit(text: wstring, i: nat, slashes: nat, c: wchar, arg: wstring)
    requires c != BACKSLASH
    requires HasAt(text, i, Backslashes(if c == DQUOTE then 2 * slashes else slashes) + Doubled(c, false))
    ensures i + (if c == DQUOTE then 2 * slashes + 2 else slashes + 1) <= |text|
    ensures ArgumentFrom(text, i, true, arg)
            == ArgumentFrom(text, i + (if c == DQUOTE then 2 * slashes + 2
                                       else slashes + 1), true, arg + Backslashes(slashes) + [c])
  {
    hide ArgumentFrom, HasAt, Backslashes;
    if c == DQUOTE { ArgumentQuote(text, i, slashes, arg); } else { ArgumentPlain(text, i, slashes, c, arg); }
  }

  /** The closing quote, behind a doubled run of backslashes. */
  lemma ArgumentClose(text: wstring, i: nat, slashes: nat, arg: wstring)
    requires HasAt(text, i, Backslashes(2 * slashes) + [DQUOTE]) && ArgumentEnds(text, i + 2 * slashes + 1)
    ensures ArgumentFrom(text, i, true, arg) == (arg + Backslashes(slashes), i + 2 * slashes + 1)
  {
    HasAtSplit(text, i, Backslashes(2 * slashes), [DQUOTE]);
    HasAtUnit(text, i + 2 * slashes, [DQUOTE]);
    SlashesEnd(text, i, 2 * slashes);
    hide Backslashes, HasAt, SlashEnd;
  }

  /** A quoted text is read back: the pending backslashes, then the rest of the text. */
  lemma {:induction false} ArgumentQuotedRest(line: wstring, i: nat, text: wstring, index: nat, slashes: nat,
      arg: wstring)
    requires index <= |text|
    requires HasAt(line, i, QuotedRest(text, index, slashes, false))
    requires ArgumentEnds(line, i + |QuotedRest(text, index, slashes, false)|)
    ensures ArgumentFrom(line, i, true, arg)
            == (arg + Backslashes(slashes) + text[index..], i + |QuotedRest(text, index, slashes, false)|)
    decreases |text| - index
  {
    hide ArgumentFrom, HasAt, Backslashes, ArgumentEnds;
    if index == |text| {
      ArgumentClose(line, i, slashes, arg) by { assert |Backslashes(2 * slashes)| == 2 * slashes; }
      assert text[index..] == [];
      assert arg + Backslashes(slashes) + [] == arg + Backslashes(slashes);
      assert |QuotedRest(text, index, slashes, false)| == 2 * slashes + 1;
    } else if text[index] == BACKSLASH {
      ArgumentQuotedRest(line, i, text, index + 1, slashes + 1, arg);
      OneMore(arg, slashes, text, index);
    } else {
      var c := text[index];
      var n := if c == DQUOTE then 2 * slashes else slashes;
      var run, d, rest := Backslashes(n), Doubled(c, false), QuotedRest(text, index + 1, 0, false);
      assert |run| == n;
      ConcatAssoc(run, d, rest);
      HasAtSplit(line, i, run + d, rest);
      ArgumentUnit(line, i, slashes, c, arg);
      ArgumentQuotedRest(line, i + |run + d|, text, index + 1, 0, arg + Backslashes(slashes) + [c]);
      UnitTaken(arg + Backslashes(slashes), text, index);
    }
  }

  lemma OneMore(arg: wstring, slashes: nat, text: wstring, index: nat)
    requires index < |text| && text[index] == BACKSLASH
    ensures arg + Backslashes(slashes + 1) + text[index + 1..] == arg + Backslashes(slashes) + text[index..]
  {
    assert Backslashes(slashes + 1) == Backslashes(slashes) + [BACKSLASH];
    assert text[index..] == [BACKSLASH] + text[index + 1..];
  }

  lemma UnitTaken(arg: wstring, text: wstring, index: nat)
    requires index < |text|
    ensures arg + [text[index]] + Backslashes(0) + text[index + 1..] == arg + text[index..]
  {}

  /** Quoting survives the argument splitter. */
  lemma ArgumentQuoted(line: wstring, i: nat, text: wstring)
    requires HasAt(line, i, Quoted(text, false)) && ArgumentEnds(line, i + |Quoted(text, false)|)
    ensures ArgumentFrom(line, i, false, []) == (text, i + |Quoted(text, false)|)
  {
    var q := Quoted(text, false);
    assert q[1..] == QuotedRest(text, 0, 0, false);
    HasAtUnit(line, i, q);
    ArgumentQuotedRest(line, i + 1, text, 0, 0, []);
    assert [] + Backslashes(0) + text[0..] == text;
  }

  /** A word without blanks, quotes and backslashes. */
  predicate IsWordText(w: wstring) {
    w != [] && forall i :: 0 <= i < |w| ==> !IsBlank(w[i]) && w[i] != DQUOTE && w[i] != BACKSLASH
  }

  lemma {:induction false} ArgumentWord(line: wstring, i: nat, w: wstring, arg: wstring)
    requires w == [] || IsWordText(w)
    requires HasAt(line, i, w) && ArgumentEnds(line, i + |w|)
    ensures ArgumentFrom(line, i, false, arg) == (arg + w, i + |w|)
    decreases |w|
  {
    if w == [] {
      assert arg + w == arg;
    } else {
      HasAtUnit(line, i, w);
      assert SlashEnd(line, i) == i;
      ArgumentWord(line, i + 1, w[1..], arg + Backslashes(0) + [w[0]]);
      assert arg + Backslashes(0) + [w[0]] + w[1..] == arg + w;
    }
  }
}
