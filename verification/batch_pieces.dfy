/** Batch lines piece by piece: what expansion, command splitting and argument splitting do to a concatenation. */
module BatchPieces {
  import opened Text
  import opened ValueFormat
  import opened BatchSyntax
  import opened BatchLayers

  // ----- expansion

  ghost predicate ExpandsAt(p: wstring, q: wstring, line: wstring, i: nat, output: wstring) {
    HasAt(line, i, p) ==> ExpandFrom(line, i, map[], output) == ExpandFrom(line, i + |p|, map[], output + q)
  }

  /** Wherever p stands, it expands to q. */
  ghost predicate Expands(p: wstring, q: wstring) {
    forall line, i: nat, output :: ExpandsAt(p, q, line, i, output)
  }

  lemma ExpandsPlain(p: wstring)
    requires PERCENT !in p
    ensures Expands(p, p)
  {
    forall line, i: nat, output ensures ExpandsAt(p, p, line, i, output) {
      if HasAt(line, i, p) { ExpandPlain(line, i, p, map[], output); }
    }
  }

  lemma ExpandsQuoted(text: wstring)
    ensures Expands(Quoted(text, true), Quoted(text, false))
  {
    hide ExpandFrom, HasAt, QuotedRest;
    var p, q := Quoted(text, true), Quoted(text, false);
    forall line, i: nat, output ensures ExpandsAt(p, q, line, i, output) {
      if HasAt(line, i, p) {
        var rest := QuotedRest(text, 0, 0, true);
        HasAtSplit(line, i, [DQUOTE], rest);
        ExpandPlain(line, i, [DQUOTE], map[], output);
        ExpandQuotedRest(line, i + 1, text, 0, 0, map[], output + [DQUOTE]);
        ConcatAssoc(output, [DQUOTE], QuotedRest(text, 0, 0, false));
      }
    }
  }

  lemma ExpandsConcat(p0: wstring, q0: wstring, p1: wstring, q1: wstring)
    requires Expands(p0, q0) && Expands(p1, q1)
    ensures Expands(p0 + p1, q0 + q1)
  {
    hide ExpandFrom, HasAt;
    forall line, i: nat, output ensures ExpandsAt(p0 + p1, q0 + q1, line, i, output) {
      if HasAt(line, i, p0 + p1) {
        HasAtSplit(line, i, p0, p1);
        assert ExpandsAt(p0, q0, line, i, output);
        assert ExpandsAt(p1, q1, line, i + |p0|, output + q0);
        ConcatAssoc(output, q0, q1);
      }
    }
  }

  lemma ExpandsWhole(p: wstring, q: wstring)
    requires Expands(p, q)
    ensures Expanded(p, map[]) == Some(q)
  {
    HasAtAll(p);
    assert ExpandsAt(p, q, p, 0, []);
    assert [] + q == q;
  }

  // ----- command splitting

  /** A text that the splitter takes over, quotes closed. */
  predicate IsInert(p: wstring) {
    Passes(p, false) == Some(false)
  }

  lemma InertConcat(a: wstring, b: wstring)
    requires IsInert(a) && IsInert(b)
    ensures IsInert(a + b)
  {
    PassesConcat(a, b, false);
  }

  lemma {:induction false} InertPlain(p: wstring)
    requires forall i :: 0 <= i < |p| ==> p[i] != DQUOTE && !IsActive(p[i])
    ensures IsInert(p)
    decreases |p|
  {
    if p != [] { InertPlain(p[1..]); }
  }

  lemma SplitInert(line: wstring, i: nat, p: wstring, done: seq<Command>, last: Command)
    requires HasAt(line, i, p) && IsInert(p)
    ensures CommandsFrom(line, i, false, done, last)
            == CommandsFrom(line, i + |p|, false, done, Command(last.text + p, last.separator))
  {
    SplitPassing(line, i, p, false, done, last);
  }

  predicate EndsInSpace(text: wstring) {
    text != [] && text[|text| - 1] == SPACE
  }

  predicate TargetStops(line: wstring, i: nat) {
    i >= |line| || line[i] in REDIRECT_STOPS
  }

  const TO_NUL := W(">nul")
  const ERR_TO_OUT := W("2>&1")

  /** `>nul` leaves no trace. */
  lemma SplitNul(line: wstring, i: nat, done: seq<Command>, last: Command)
    requires HasAt(line, i, TO_NUL) && TargetStops(line, i + 4) && EndsInSpace(last.text)
    ensures CommandsFrom(line, i, false, done, last) == CommandsFrom(line, i + 4, false, done, last)
  {
    NulUnits(line, i);
    assert TargetEnd(line, i + 4) == i + 4;
    assert TargetEnd(line, i + 3) == i + 4;
    assert TargetEnd(line, i + 2) == i + 4;
    assert TargetEnd(line, i + 1) == i + 4;
    assert SpaceEnd(line, i + 1) == i + 1;
    assert RedirectEnd(line, i) == i + 4;
    assert WithoutHandle(last.text) == last.text;
  }

  lemma NulUnits(line: wstring, i: nat)
    requires HasAt(line, i, TO_NUL)
    ensures i + 4 <= |line| && line[i] == GREATER
    ensures forall k :: i < k < i + 4 ==>
              line[k] !in REDIRECT_STOPS && line[k] != GREATER && line[k] != AMP && line[k] != SPACE
  {
    assert line[i..i + 4] == TO_NUL;
    assert line[i] == line[i..i + 4][0];
    assert line[i + 1] == line[i..i + 4][1] && line[i + 2] == line[i..i + 4][2] && line[i + 3] == line[i..i + 4][3];
  }

  /** `2>&1` behind a space leaves no trace. */
  lemma SplitErr(line: wstring, i: nat, done: seq<Command>, last: Command)
    requires HasAt(line, i, ERR_TO_OUT) && EndsInSpace(last.text)
    ensures CommandsFrom(line, i, false, done, last) == CommandsFrom(line, i + 4, false, done, last)
  {
    assert line[i..i + 4] == ERR_TO_OUT;
    assert line[i] == line[i..i + 4][0] && line[i + 1] == line[i..i + 4][1] && line[i + 2] == line[i..i + 4][2];
    var handled := Pushed(last, line[i]);
    assert CommandsFrom(line, i, false, done, last) == CommandsFrom(line, i + 1, false, done, handled);
    assert RedirectEnd(line, i + 1) == i + 4;
    assert WithoutHandle(handled.text) == last.text;
  }

  lemma SplitDouble(line: wstring, i: nat, c: wchar, done: seq<Command>, last: Command)
    requires HasAt(line, i, [c, c]) && (c == AMP || c == BAR)
    ensures CommandsFrom(line, i, false, done, last)
            == CommandsFrom(line, i + 2, false, done + [last], Command([], [c, c]))
  {
    HasAtUnit(line, i, [c, c]);
    HasAtUnit(line, i + 1, [c, c][1..]);
  }

  lemma SplitParen(line: wstring, i: nat, c: wchar, done: seq<Command>, last: Command)
    requires HasAt(line, i, [c]) && (c == LPAREN || c == RPAREN)
    ensures CommandsFrom(line, i, false, done, last) == CommandsFrom(line, i + 1, false, done, last)
  {
    HasAtUnit(line, i, [c]);
  }

  lemma SplitEnd(line: wstring, done: seq<Command>, last: Command)
    ensures CommandsFrom(line, |line|, false, done, last) == Some(done + [last])
  {}

  // ----- argument splitting

  predicate EndsBlank(p: wstring) {
    p != [] && IsBlank(p[|p| - 1])
  }

  predicate StartsBlank(p: wstring) {
    p != [] && IsBlank(p[0])
  }

  ghost predicate YieldsAt(p: wstring, args: seq<wstring>, line: wstring, i: nat) {
    (HasAt(line, i, p) && (EndsBlank(p) || ArgumentEnds(line, i + |p|)))
    ==> ArgumentsFrom(line, i) == args + ArgumentsFrom(line, i + |p|)
  }

  /** Wherever p stands, and unless its last argument goes on behind it, it adds the arguments. */
  ghost predicate Yields(p: wstring, args: seq<wstring>) {
    forall line, i: nat :: YieldsAt(p, args, line, i)
  }

  lemma YieldsBlank()
    ensures Yields([SPACE], [])
  {
    forall line, i: nat ensures YieldsAt([SPACE], [], line, i) {
      if HasAt(line, i, [SPACE]) {
        HasAtUnit(line, i, [SPACE]);
        assert BlankEnd(line, i) == BlankEnd(line, i + 1);
        assert [] + ArgumentsFrom(line, i + 1) == ArgumentsFrom(line, i + 1);
      }
    }
  }

  lemma YieldsWord(w: wstring)
    requires IsWordText(w)
    ensures Yields(w, [w])
  {
    hide ArgumentFrom, ArgumentEnds;
    forall line, i: nat ensures YieldsAt(w, [w], line, i) {
      if HasAt(line, i, w) && ArgumentEnds(line, i + |w|) {
        HasAtUnit(line, i, w);
        ArgumentWord(line, i, w, []);
        assert [] + w == w;
        assert BlankEnd(line, i) == i;
      }
    }
  }

  lemma YieldsQuoted(text: wstring)
    ensures Yields(Quoted(text, false), [text])
  {
    hide ArgumentFrom, ArgumentEnds, QuotedRest;
    var q := Quoted(text, false);
    QuotedEndsInQuote(text);
    forall line, i: nat ensures YieldsAt(q, [text], line, i) {
      if HasAt(line, i, q) && ArgumentEnds(line, i + |q|) {
        HasAtUnit(line, i, q);
        ArgumentQuoted(line, i, text);
        assert BlankEnd(line, i) == i;
      }
    }
  }

  lemma {:induction false} RestEndsInQuote(text: wstring, index: nat, slashes: nat)
    requires index <= |text|
    ensures var r := QuotedRest(text, index, slashes, false); r != [] && r[|r| - 1] == DQUOTE
    decreases |text| - index
  {
    hide Backslashes, Doubled;
    if index < |text| { RestEndsInQuote(text, index + 1, if text[index] == BACKSLASH then slashes + 1 else 0); }
  }

  lemma QuotedEndsInQuote(text: wstring)
    ensures var q := Quoted(text, false); q != [] && q[0] == DQUOTE && q[|q| - 1] == DQUOTE && !EndsBlank(q)
  {
    RestEndsInQuote(text, 0, 0);
  }

  lemma YieldsConcat(p0: wstring, a0: seq<wstring>, p1: wstring, a1: seq<wstring>)
    requires Yields(p0, a0) && Yields(p1, a1)
    requires p1 != [] && (EndsBlank(p0) || StartsBlank(p1))
    ensures Yields(p0 + p1, a0 + a1)
  {
    hide ArgumentsFrom, HasAt;
    forall line, i: nat ensures YieldsAt(p0 + p1, a0 + a1, line, i) {
      if HasAt(line, i, p0 + p1) && (EndsBlank(p0 + p1) || ArgumentEnds(line, i + |p0 + p1|)) {
        HasAtSplit(line, i, p0, p1);
        if StartsBlank(p1) { HasAtUnit(line, i + |p0|, p1); }
        assert (p0 + p1)[|p0 + p1| - 1] == p1[|p1| - 1];
        assert YieldsAt(p0, a0, line, i);
        assert YieldsAt(p1, a1, line, i + |p0|);
        ConcatAssoc(a0, a1, ArgumentsFrom(line, i + |p0| + |p1|));
      }
    }
  }

  lemma YieldsWhole(p: wstring, args: seq<wstring>)
    requires Yields(p, args)
    ensures Arguments(p) == args
  {
    HasAtAll(p);
    assert YieldsAt(p, args, p, 0);
    assert args + [] == args;
  }

  // ----- the rest of a command behind its verb

  predicate IsTail(tail: wstring, text: wstring, n: nat) {
    |tail| + n == |text| && forall k :: 0 <= k < |tail| ==> tail[k] == text[k + n]
  }

  lemma {:induction false} SlashEndShift(text: wstring, tail: wstring, n: nat, i: nat)
    requires IsTail(tail, text, n) && i <= |tail|
    ensures SlashEnd(tail, i) + n == SlashEnd(text, i + n)
    decreases |tail| - i
  {
    if i < |tail| && tail[i] == BACKSLASH { SlashEndShift(text, tail, n, i + 1); }
  }

  lemma {:induction false} BlankEndShift(text: wstring, tail: wstring, n: nat, i: nat)
    requires IsTail(tail, text, n) && i <= |tail|
    ensures BlankEnd(tail, i) + n == BlankEnd(text, i + n)
    decreases |tail| - i
  {
    if i < |tail| && IsBlank(tail[i]) { BlankEndShift(text, tail, n, i + 1); }
  }

  /** One round of the argument splitter: where it goes on, whether inside quotes, and the argument so far. */
  function Round(text: wstring, index: nat, quoted: bool, arg: wstring): (r: (nat, bool, wstring))
    requires index < |text| && (quoted || !IsBlank(text[index]))
    ensures index < r.0 <= |text|
  {
    var end := SlashEnd(text, index);
    var slashes: nat := end - index;
    if end < |text| && text[end] == DQUOTE then
      if slashes % 2 != 0 then (end + 1, quoted, arg + Backslashes(slashes / 2) + [DQUOTE])
      else if quoted && end + 1 < |text|
        && text[end + 1] == DQUOTE then (end + 2, quoted, arg + Backslashes(slashes / 2) + [DQUOTE])
      else (end + 1, !quoted, arg + Backslashes(slashes / 2))
    else if end < |text| && (quoted || !IsBlank(text[end])) then
      (end + 1, quoted, arg + Backslashes(slashes) + [text[end]])
    else (end, quoted, arg + Backslashes(slashes))
  }

  lemma ArgumentIsRounds(text: wstring, index: nat, quoted: bool, arg: wstring)
    requires index < |text| && (quoted || !IsBlank(text[index]))
    ensures var (next, q, a) := Round(text, index, quoted, arg);
            ArgumentFrom(text, index, quoted, arg) == ArgumentFrom(text, next, q, a)
  {
    hide ArgumentFrom, SlashEnd, Backslashes, IsBlank;
    UnfoldArgument(text, index, quoted, arg);
  }

  lemma RoundShift(text: wstring, tail: wstring, n: nat, i: nat, quoted: bool, arg: wstring)
    requires IsTail(tail, text, n) && i < |tail| && (quoted || !IsBlank(tail[i]))
    ensures var (next, q, a) := Round(tail, i, quoted, arg); Round(text, i + n, quoted, arg) == (next + n, q, a)
  {
    hide Backslashes, SlashEnd;
    SlashEndShift(text, tail, n, i);
    var end := SlashEnd(tail, i);
    assert end < |tail| ==> tail[end] == text[end + n];
    assert end + 1 < |tail| ==> tail[end + 1] == text[end + 1 + n];
  }

  lemma {:induction false} ArgumentShift(text: wstring, tail: wstring, n: nat, i: nat, quoted: bool, arg: wstring)
    requires IsTail(tail, text, n) && i <= |tail|
    ensures ArgumentFrom(text, i + n, quoted, arg)
            == (ArgumentFrom(tail, i, quoted, arg).0, ArgumentFrom(tail, i, quoted, arg).1 + n)
    decreases |tail| - i
  {
    hide ArgumentFrom, Round;
    if i == |tail| || (!quoted && IsBlank(tail[i])) {
      EndOfArgument(tail, i, quoted, arg);
      EndOfArgument(text, i + n, quoted, arg);
    } else {
      ArgumentIsRounds(tail, i, quoted, arg);
      ArgumentIsRounds(text, i + n, quoted, arg);
      RoundShift(text, tail, n, i, quoted, arg);
      var (next, q, a) := Round(tail, i, quoted, arg);
      ArgumentShift(text, tail, n, next, q, a);
    }
  }

  lemma {:induction false} ArgumentsShift(text: wstring, tail: wstring, n: nat, i: nat)
    requires IsTail(tail, text, n) && i <= |tail|
    ensures ArgumentsFrom(tail, i) == ArgumentsFrom(text, i + n)
    decreases |tail| - i
  {
    hide ArgumentFrom;
    BlankEndShift(text, tail, n, i);
    var start := BlankEnd(tail, i);
    if start < |tail| {
      ArgumentShift(text, tail, n, start, false, []);
      ArgumentsShift(text, tail, n, ArgumentFrom(tail, start, false, []).1);
    }
  }

  /** The arguments behind the first word. */
  lemma ArgumentsBehindVerb(command: wstring, verb: wstring, args: seq<wstring>)
    requires IsWordText(verb) && |verb| < |command| && command[..|verb|] == verb && IsBlank(command[|verb|])
    requires Arguments(command) == [verb] + args
    ensures Arguments(command[|verb| + 1..]) == args
  {
    hide ArgumentFrom;
    var n := |verb|;
    assert HasAt(command, 0, verb);
    ArgumentWord(command, 0, verb, []);
    assert [] + verb == verb;
    assert command[0] == verb[0];
    assert BlankEnd(command, 0) == 0;
    assert Arguments(command) == [verb] + ArgumentsFrom(command, n);
    assert ([verb] + args)[1..] == args && ([verb] + ArgumentsFrom(command, n))[1..] == ArgumentsFrom(command, n);
    assert BlankEnd(command, n) == BlankEnd(command, n + 1);
    ArgumentsShift(command, command[n + 1..], n + 1, 0);
  }
}
