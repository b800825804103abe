/** What the .reg writer writes, the reader reads back. */
module RegRoundTrip {
  import opened Text
  import opened ValueFormat
  import opened Operations
  import opened RegSyntax
  import opened RegReader
  import opened RegWriter

  // ----- what comes back

  /** A name after the reader took every CRLF in it for a single line feed. */
  function Collapsed(name: wstring): wstring
    decreases |name|
  {
    var i := Find(name, LF, 0);
    if i == -1 then name else StripCr(name[..i]) + ([LF] + Collapsed(name[i + 1..]))
  }

  /** No line break in the name looks like the wrap of another exporter: a backslash before it and two spaces behind
      it. */
  predicate WrapFree(name: wstring)
    decreases |name|
  {
    var i := Find(name, LF, 0);
    i == -1 || (!IsWrap(StripCr(name[..i]), name[i + 1..]) && WrapFree(name[i + 1..]))
  }

  /** Operations whose text the format can hold: trimmed one-line paths, not starting with the mark of removed
      keys, and names free of wraps. */
  predicate Storable(op: Operation) {
    && op.path != [] && IsTrimmed(op.path) && LF !in op.path
    && (op.RemoveKey? || op.path[0] != MINUS)
    && (op.SetValue? ==> WrapFree(op.value.name))
    && (op.RemoveValue? ==> WrapFree(op.name))
  }

  /** The operations a file holds: a section is opened where a path is not the open one, and a key operation
      that repeats the open section leaves nothing. */
  function Sectioned(ops: seq<Operation>, current: Option<wstring>): seq<Operation>
    decreases |ops|
  {
    if ops == [] then []
    else if ops[0].RemoveKey? then [ops[0]] + Sectioned(ops[1..], None)
    else
      (if current == Some(ops[0].path) then [] else [Key(ops[0].path)])
      + ((if ops[0].Key? then [] else [ops[0]]) + Sectioned(ops[1..], Some(ops[0].path)))
  }

  function CollapsedOp(op: Operation): Operation {
    match op
    case SetValue(p, v) => SetValue(p, v.(name := Collapsed(v.name)))
    case RemoveValue(p, n) => RemoveValue(p, Collapsed(n))
    case _ => op
  }

  function CollapsedOps(ops: seq<Operation>): (r: seq<Operation>)
    ensures |r| == |ops| && forall i :: 0 <= i < |ops| ==> r[i] == CollapsedOp(ops[i])
  {
    seq(|ops|, i requires 0 <= i < |ops| => CollapsedOp(ops[i]))
  }

  // ----- one physical line

  /** The reader after a logical line. */
  function After(cp: CodePage, h: Handler, raw: wstring, rest: wstring): Option<seq<Operation>> {
    var handled := Handle(cp, h, raw);
    if handled.None? then None else ReadFrom(cp, rest, Idle(handled.value))
  }

  lemma CutAt(line: wstring, rest: wstring)
    requires LF !in line
    ensures var content := line + ([LF] + rest);
            content != [] && Find(content, LF, 0) == |line| && content[..|line|] == line
              && content[|line| + 1..] == rest
  {
    var content := line + ([LF] + rest);
    assert content[|line|] == LF;
    assert forall i :: 0 <= i < |line| ==> content[i] == line[i];
  }

  lemma CutCrlf(line: wstring, rest: wstring)
    requires LF !in line
    ensures line + (CRLF + rest) == (line + [CR]) + ([LF] + rest)
    ensures LF !in line + [CR] && StripCr(line + [CR]) == line
  {}

  /** A physical line, cut out and joined. */
  lemma LineRead(cp: CodePage, st: Reader, line: wstring, rest: wstring)
    requires LF !in line
    ensures var settled := Settle(cp, Joined(st, line), true, rest);
            ReadFrom(cp, line + (CRLF + rest), st) == if settled.None? then None
                                                      else ReadFrom(cp, settled.value.1, settled.value.0)
  {
    hide *;
    CutCrlf(line, rest);
    CutAt(line + [CR], rest);
    UnfoldReadStep(cp, line + (CRLF + rest), st);
  }

  lemma SolidStays(text: wstring)
    requires text == [] || !IsBlankUnit(text[|text| - 1])
    ensures DropBlanks(text) == text
  {}

  /** The physical line that ends a logical one. */
  lemma FinalLine(cp: CodePage, st: Reader, line: wstring, rest: wstring)
    requires LF !in line
    requires var j := Joined(st, line);
             !j.quoted && (j.logical == []
                           || (!IsBlankUnit(j.logical[|j.logical| - 1]) && j.logical[|j.logical| - 1] != BACKSLASH))
    ensures ReadFrom(cp, line + (CRLF + rest), st) == After(cp, st.handler, Joined(st, line).logical, rest)
  {
    hide ReadFrom, Handle, DropBlanks, ScanQuotes, CountsQuotes, StripBlanks;
    LineRead(cp, st, line, rest);
    SolidStays(Joined(st, line).logical);
  }

  /** A physical line that a backslash continues. */
  lemma ContinuedLine(cp: CodePage, st: Reader, line: wstring, logical: wstring, rest: wstring)
    requires LF !in line
    requires var j := Joined(st, line); !j.quoted && j.logical == logical + [BACKSLASH]
    ensures ReadFrom(cp, line + (CRLF + rest), st)
            == ReadFrom(cp, rest, Reader(logical, true, false, Joined(st, line).escaped, st.handler))
  {
    hide ReadFrom, Handle, DropBlanks, ScanQuotes, CountsQuotes, StripBlanks;
    LineRead(cp, st, line, rest);
    assert !IsBlankUnit(BACKSLASH);
    SolidStays(logical + [BACKSLASH]);
    assert (logical + [BACKSLASH])[..|logical|] == logical;
  }

  /** A line break inside a quoted name. */
  lemma BreakInName(cp: CodePage, st: Reader, line: wstring, rest: wstring)
    requires LF !in line
    requires var j := Joined(st, StripCr(line)); j.quoted && !IsWrap(j.logical, rest)
    ensures var j := Joined(st, StripCr(line));
            ReadFrom(cp, line + ([LF] + rest), st)
              == ReadFrom(cp, rest, Reader(j.logical + [LF], false, true, j.escaped, st.handler))
  {
    hide ReadFrom, Handle, DropBlanks, ScanQuotes, CountsQuotes, StripBlanks, Find, StripCr;
    CutAt(line, rest);
    UnfoldReadStep(cp, line + ([LF] + rest), st);
  }

  // ----- quotes

  lemma {:induction false} ScanConcat(a: wstring, b: wstring, quoted: bool, escaped: bool)
    ensures var (q, e) := ScanQuotes(a, quoted, escaped); ScanQuotes(a + b, quoted, escaped) == ScanQuotes(b, q, e)
    decreases |a|
  {
    if a == [] {
      assert a + b == b;
    } else {
      assert (a + b)[1..] == a[1..] + b;
      ScanConcat(a[1..], b, if !escaped && a[0] == DQUOTE then !quoted
                            else quoted, !escaped && quoted && a[0] == BACKSLASH);
    }
  }

  /** Escaped text neither opens nor closes a quote. */
  lemma {:induction false} ScanEscape(text: wstring)
    ensures ScanQuotes(Escape(text), true, false) == (true, false)
  {
    if text != [] {
      var unit := if text[0] == BACKSLASH || text[0] == DQUOTE then [BACKSLASH, text[0]] else [text[0]];
      if |unit| == 2 { assert unit[1..] == [text[0]] && unit[1..][1..] == []; }
      ScanConcat(unit, Escape(text[1..]), true, false);
      ScanEscape(text[1..]);
    }
  }

  predicate NoQuote(text: wstring) {
    forall i :: 0 <= i < |text| ==> text[i] != DQUOTE
  }

  lemma {:induction false} ScanPlain(text: wstring)
    requires NoQuote(text)
    ensures ScanQuotes(text, false, false) == (false, false)
  {
    if text != [] { ScanPlain(text[1..]); }
  }

  lemma {:induction false} EscapeHasNoBreak(text: wstring)
    ensures LF in Escape(text) <==> LF in text
    ensures CR in Escape(text) <==> CR in text
  {
    if text != [] { EscapeHasNoBreak(text[1..]); }
  }

  lemma {:induction false} EscapeConcat(a: wstring, b: wstring)
    ensures Escape(a + b) == Escape(a) + Escape(b)
  {
    if a == [] {
      assert a + b == b;
    } else {
      assert (a + b)[1..] == a[1..] + b;
      EscapeConcat(a[1..], b);
    }
  }

  // ----- growing a logical line

  /** Text that leaves the quotes as it found them, outside of any. */
  predicate Balanced(u: wstring) {
    ScanQuotes(u, false, false) == (false, false) && (u != [] ==> !IsBlankUnit(u[0]))
  }

  /** Behind `cur` on the current physical line the logical line is `acc`, and grows by what follows. */
  ghost predicate Carries(st: Reader, cur: wstring, acc: wstring) {
    forall u :: Balanced(u) ==>
      var j := Joined(st, cur + u);
      j.logical == acc + u && !j.quoted && !j.escaped && j.handler == st.handler
  }

  lemma BalancedConcat(a: wstring, b: wstring)
    requires Balanced(a) && Balanced(b)
    ensures Balanced(a + b)
  {
    ScanConcat(a, b, false, false);
    if a == [] { assert a + b == b; }
  }

  lemma PlainIsBalanced(u: wstring)
    requires NoQuote(u) && (u != [] ==> !IsBlankUnit(u[0]))
    ensures Balanced(u)
  {
    ScanPlain(u);
  }

  lemma CarriesMore(st: Reader, cur: wstring, acc: wstring, v: wstring)
    requires Carries(st, cur, acc) && Balanced(v)
    ensures Carries(st, cur + v, acc + v)
  {
    hide Joined, Balanced;
    forall u | Balanced(u)
      ensures var j := Joined(st, (cur + v) + u);
              j.logical == (acc + v) + u && !j.quoted && !j.escaped && j.handler == st.handler
    {
      BalancedConcat(v, u);
      ConcatAssoc(cur, v, u);
      ConcatAssoc(acc, v, u);
    }
  }

  lemma CarriesNow(st: Reader, cur: wstring, acc: wstring)
    requires Carries(st, cur, acc)
    ensures var j := Joined(st, cur); j.logical == acc && !j.quoted && !j.escaped && j.handler == st.handler
  {
    assert Balanced([]);
    assert cur + [] == cur && acc + [] == acc;
  }

  /** The first unit of a line that assigns a value. */
  predicate StartsAssignment(logical: wstring) {
    logical != [] && (logical[0] == DQUOTE || logical[0] == AT)
  }

  lemma AssignmentCounts(logical: wstring)
    requires StartsAssignment(logical)
    ensures CountsQuotes(logical, false)
  {
    assert StripBlanks(logical) == logical;
  }

  lemma CarriesContinued(acc: wstring, h: Handler)
    requires StartsAssignment(acc)
    ensures Carries(Reader(acc, true, false, false, h), [SPACE, SPACE], acc)
  {
    var st := Reader(acc, true, false, false, h);
    forall u | Balanced(u)
      ensures var j := Joined(st, [SPACE, SPACE] + u); j.logical == acc + u && !j.quoted && !j.escaped && j.handler == h
    {
      var text := [SPACE, SPACE] + u;
      assert text[1..] == [SPACE] + u && text[1..][1..] == u;
      assert StripBlanks(text) == StripBlanks(u) == u;
      AssignmentCounts(acc + u);
    }
  }

  lemma CarriesFirst(st: Reader, cur: wstring)
    requires !st.continuing && !st.escaped && ScanQuotes(cur, st.quoted, false) == (false, false)
    requires st.quoted || StartsAssignment(st.logical + cur)
    ensures Carries(st, cur, st.logical + cur)
  {
    forall u | Balanced(u)
      ensures var j := Joined(st, cur + u);
              j.logical == (st.logical + cur) + u && !j.quoted && !j.escaped && j.handler == st.handler
    {
      ConcatAssoc(st.logical, cur, u);
      ScanConcat(cur, u, st.quoted, false);
      if !st.quoted { AssignmentCounts(st.logical + (cur + u)); }
    }
  }

  // ----- hexadecimal data over several lines

  predicate EndsSolid(text: wstring) {
    text != [] && !IsBlankUnit(text[|text| - 1]) && text[|text| - 1] != BACKSLASH
  }

  lemma CarriedEnd(cp: CodePage, st: Reader, cur: wstring, acc: wstring, rest: wstring)
    requires Carries(st, cur, acc) && LF !in cur && EndsSolid(acc)
    ensures ReadFrom(cp, cur + (CRLF + rest), st) == After(cp, st.handler, acc, rest)
  {
    CarriesNow(st, cur, acc);
    hide ReadFrom, Joined, Carries, After;
    FinalLine(cp, st, cur, rest);
  }

  lemma PairFacts(b: byte)
    ensures var u := HexPair(b); Balanced(u) && LF !in u && EndsSolid(u)
    ensures var u := HexPair(b) + [COMMA]; Balanced(u) && LF !in u && EndsSolid(u)
    ensures var u := HexPair(b) + [COMMA, BACKSLASH]; Balanced(u) && LF !in u
  {
    HexDigitsRead(b as int / 16);
    HexDigitsRead(b as int % 16);
    PlainIsBalanced(HexPair(b));
    PlainIsBalanced(HexPair(b) + [COMMA]);
    PlainIsBalanced(HexPair(b) + [COMMA, BACKSLASH]);
  }

  lemma SolidGrows(a: wstring, b: wstring)
    requires EndsSolid(b)
    ensures EndsSolid(a + b)
  {}

  lemma {:induction false} HexRead(cp: CodePage, st: Reader, cur: wstring, acc: wstring, data: seq<byte>, line: nat,
      rest: wstring)
    requires Carries(st, cur, acc) && LF !in cur && EndsSolid(acc) && StartsAssignment(acc)
    ensures ReadFrom(cp, cur + (HexBody(data, line) + (CRLF + rest)), st)
            == After(cp, st.handler, acc + ToHex(data, [COMMA]), rest)
    decreases |data|
  {
    hide *;
    if data == [] {
      NoBytes(line);
      assert acc + [] == acc && [] + (CRLF + rest) == CRLF + rest;
      CarriedEnd(cp, st, cur, acc, rest);
    } else {
      var pair := HexPair(data[0]);
      PairFacts(data[0]);
      UnfoldHexBody(data, line);
      UnfoldToHex(data);
      if |data| == 1 {
        Grow(st, cur, acc, pair);
        ConcatAssoc(cur, pair, CRLF + rest);
        CarriedEnd(cp, st, cur + pair, acc + pair, rest);
      } else {
        var bytes := ToHex(data[1..], [COMMA]);
        var more := pair + [COMMA];
        ConcatThree(acc, pair, [COMMA], bytes);
        ConcatAssoc(acc, pair, [COMMA]);
        SolidGrows(acc, more);
        StartGrows(acc, more);
        if line + 3 >= HEX_LINE_LIMIT {
          var text := HexBody(data[1..], 2);
          WrapParts(cur, pair, text, CRLF + rest);
          var next := Reader(acc + more, true, false, false, st.handler);
          WrappedLine(cp, st, cur, acc, pair, [SPACE, SPACE] + (text + (CRLF + rest)));
          CarriesContinued(acc + more, st.handler);
          SpacesHaveNoBreak();
          HexRead(cp, next, [SPACE, SPACE], acc + more, data[1..], 2, rest);
        } else {
          var text := HexBody(data[1..], line + 3);
          CommaParts(cur, pair, text, CRLF + rest);
          Grow(st, cur, acc, more);
          HexRead(cp, st, cur + more, acc + more, data[1..], line + 3, rest);
        }
      }
    }
  }

  lemma NoBytes(line: nat)
    ensures HexBody([], line) == [] && ToHex([], [COMMA]) == []
  {}

  lemma SpacesHaveNoBreak()
    ensures LF !in [SPACE, SPACE]
  {}

  lemma UnfoldToHex(data: seq<byte>)
    requires data != []
    ensures ToHex(data, [COMMA]) == if |data| == 1 then HexPair(data[0])
                                    else HexPair(data[0]) + [COMMA] + ToHex(data[1..], [COMMA])
  {
    hide HexPair;
  }

  lemma Grow(st: Reader, cur: wstring, acc: wstring, v: wstring)
    requires Carries(st, cur, acc) && LF !in cur && Balanced(v) && LF !in v && EndsSolid(v)
    ensures Carries(st, cur + v, acc + v) && LF !in cur + v && EndsSolid(acc + v)
  {
    CarriesMore(st, cur, acc, v);
    SolidGrows(acc, v);
  }

  lemma StartGrows(a: wstring, b: wstring)
    requires StartsAssignment(a)
    ensures StartsAssignment(a + b)
  {}

  lemma ConcatThree(a: wstring, b: wstring, c: wstring, d: wstring)
    ensures a + (b + c + d) == (a + (b + c)) + d
  {}

  lemma WrapParts(cur: wstring, pair: wstring, text: wstring, end: wstring)
    ensures cur + ((pair + ([COMMA, BACKSLASH] + (CRLF + ([SPACE, SPACE] + text)))) + end)
            == (cur + (pair + [COMMA, BACKSLASH])) + (CRLF + ([SPACE, SPACE] + (text + end)))
  {}

  lemma CommaParts(cur: wstring, pair: wstring, text: wstring, end: wstring)
    ensures cur + ((pair + ([COMMA] + text)) + end) == (cur + (pair + [COMMA])) + (text + end)
  {}

  lemma WrappedLine(cp: CodePage, st: Reader, cur: wstring, acc: wstring, pair: wstring, rest: wstring)
    requires Carries(st, cur, acc) && LF !in cur && Balanced(pair + [COMMA, BACKSLASH])
             && LF !in pair + [COMMA, BACKSLASH]
    ensures ReadFrom(cp, (cur + (pair + [COMMA, BACKSLASH])) + (CRLF + rest), st)
            == ReadFrom(cp, rest, Reader(acc + (pair + [COMMA]), true, false, false, st.handler))
  {
    hide ReadFrom, Joined, Balanced;
    assert acc + (pair + [COMMA, BACKSLASH]) == (acc + (pair + [COMMA])) + [BACKSLASH];
    ContinuedLine(cp, st, cur + (pair + [COMMA, BACKSLASH]), acc + (pair + [COMMA]), rest);
  }

  // ----- what follows a name

  /** The text behind the assignment sign: a value's, or the mark of a removed value. */
  function TailText(v: Option<RegistryValue>): wstring {
    if v.None? then [MINUS] else ValueTail(v.value)
  }

  function TailData(v: Option<RegistryValue>): wstring {
    if v.None? then [MINUS] else DataText(v.value)
  }

  lemma HexPrefixFacts(kind: uint32)
    ensures Balanced(HexPrefix(kind)) && LF !in HexPrefix(kind) && EndsSolid(HexPrefix(kind))
  {
    PlainIsBalanced(HexPrefix(kind));
  }

  lemma StringFacts(text: wstring)
    requires LF !in text
    ensures var u := [DQUOTE] + Escape(text) + [DQUOTE]; Balanced(u) && LF !in u && EndsSolid(u)
  {
    EscapeHasNoBreak(text);
    var e := Escape(text);
    ScanEscape(text);
    ScanConcat([DQUOTE] + e, [DQUOTE], false, false);
    ScanConcat([DQUOTE], e, false, false);
    assert [DQUOTE][1..] == [];
  }

  lemma DwordFacts(n: nat)
    ensures var u := W("dword:") + PaddedHex(n, 8); Balanced(u) && LF !in u && EndsSolid(u)
  {
    var x := PaddedHex(n, 8);
    assert HexDigitValue(x[|x| - 1]) >= 0;
    PlainIsBalanced(W("dword:") + x);
  }

  /** One-line data keeps quotes balanced and ends solidly. */
  lemma ShortTailFacts(v: Option<RegistryValue>)
    requires v.None? || !IsHex(v.value)
    ensures TailText(v) == TailData(v) && Balanced(TailData(v)) && LF !in TailData(v) && EndsSolid(TailData(v))
  {
    hide Balanced, EndsSolid, Escape, W, PaddedHex, StringData, DecodeString;
    if v.None? {
      MinusFacts();
    } else if IsQuotable(v.value) {
      StringFacts(DecodeString(v.value.data).value);
    } else {
      DwordFacts(ReadUnsigned(v.value.data, 4));
    }
  }

  lemma MinusFacts()
    ensures Balanced([MINUS]) && LF !in [MINUS] && EndsSolid([MINUS])
  {
    assert [MINUS][1..] == [];
  }

  /** Whatever the data, the logical line is the one-line form of it. */
  lemma TailRead(cp: CodePage, st: Reader, cur: wstring, acc: wstring, v: Option<RegistryValue>, rest: wstring)
    requires Carries(st, cur, acc) && LF !in cur && EndsSolid(acc) && StartsAssignment(acc)
    ensures ReadFrom(cp, cur + (TailText(v) + (CRLF + rest)), st) == After(cp, st.handler, acc + TailData(v), rest)
  {
    if v.Some? && IsHex(v.value) {
      hide *;
      var prefix := HexPrefix(v.value.kind);
      var line: nat :| TailText(v) == prefix + HexBody(v.value.data, line);
      HexPrefixFacts(v.value.kind);
      Grow(st, cur, acc, prefix);
      StartGrows(acc, prefix);
      HexRead(cp, st, cur + prefix, acc + prefix, v.value.data, line, rest);
      ConcatAssoc(acc, prefix, ToHex(v.value.data, [COMMA]));
      PrefixParts(cur, prefix, HexBody(v.value.data, line), CRLF + rest);
    } else {
      hide *;
      ShortTailFacts(v);
      Grow(st, cur, acc, TailData(v));
      ConcatAssoc(cur, TailData(v), CRLF + rest);
      CarriedEnd(cp, st, cur + TailData(v), acc + TailData(v), rest);
    }
  }

  lemma PrefixParts(cur: wstring, prefix: wstring, text: wstring, end: wstring)
    ensures cur + ((prefix + text) + end) == (cur + prefix) + (text + end)
  {}

  // ----- names, over as many physical lines as they have line feeds

  /** The inside of a quoted name is being read: `pre` is the opening quote, or nothing behind a line feed. */
  predicate InName(st: Reader, pre: wstring) {
    !st.continuing && !st.escaped
      && ((pre == [DQUOTE] && !st.quoted && st.logical == [])
          || (pre == [] && st.quoted && st.logical != [] && st.logical[0] == DQUOTE
              && st.logical[|st.logical| - 1] == LF))
  }

  lemma OpenName(st: Reader, pre: wstring)
    requires InName(st, pre)
    ensures ScanQuotes(pre, st.quoted, false) == (true, false) && LF !in pre
    ensures st.logical + pre != [] && (st.logical + pre)[0] == DQUOTE
            && (st.logical + pre)[|st.logical + pre| - 1] != BACKSLASH
    ensures pre == [] || pre[|pre| - 1] != CR
  {
    assert [DQUOTE][1..] == [];
    assert st.logical + [] == st.logical;
  }

  /** Behind the closing quote and the assignment sign. */
  lemma NameCloses(st: Reader, pre: wstring, name: wstring)
    requires InName(st, pre) && LF !in name
    ensures var cur := pre + Escape(name) + [DQUOTE, EQUALS];
            var acc := st.logical + cur;
            Carries(st, cur, acc) && LF !in cur && EndsSolid(acc) && StartsAssignment(acc)
  {
    var e, close := Escape(name), [DQUOTE, EQUALS];
    OpenName(st, pre);
    ScanEscape(name);
    EscapeHasNoBreak(name);
    ScanConcat(pre, e, st.quoted, false);
    ScanConcat(pre + e, close, st.quoted, false);
    CloseScans();
    hide ScanQuotes, Escape;
    assert (st.logical + (pre + e + close))[0] == (st.logical + pre)[0];
    CarriesFirst(st, pre + e + close);
  }

  lemma CloseScans()
    ensures ScanQuotes([DQUOTE, EQUALS], true, false) == (false, false)
  {
    assert [DQUOTE][1..] == [] && [EQUALS][1..] == [];
    assert ScanQuotes([DQUOTE], true, false) == (false, false) && ScanQuotes([EQUALS], false, false) == (false, false);
    assert [DQUOTE] + [EQUALS] == [DQUOTE, EQUALS];
    ScanConcat([DQUOTE], [EQUALS], true, false);
  }

  lemma EscapeEnds(text: wstring)
    requires text != []
    ensures Escape(text) != [] && Escape(text)[|Escape(text)| - 1] == text[|text| - 1]
    decreases |text|
  {
    var head := text[..|text| - 1];
    assert text == head + [text[|text| - 1]];
    EscapeConcat(head, [text[|text| - 1]]);
  }

  /** A line feed in the name: the part before it, without a carriage return at its end, joins the logical line. */
  lemma NameBreaks(cp: CodePage, st: Reader, pre: wstring, a: wstring, b: wstring, after: wstring)
    requires InName(st, pre) && LF !in a && after != [] && after[0] == DQUOTE && !IsWrap(StripCr(a), b)
    ensures ReadFrom(cp, (pre + Escape(a)) + ([LF] + (Escape(b) + after)), st)
            == ReadFrom(cp, Escape(b) + after,
                        Reader((st.logical + (pre + Escape(StripCr(a)))) + [LF], false, true, false, st.handler))
  {
    var line, kept := pre + Escape(a), pre + Escape(StripCr(a));
    OpenName(st, pre);
    StripEscaped(pre, a);
    EscapeHasNoBreak(a);
    JoinedName(st, pre, StripCr(a));
    NoWrapJoined(st, pre, StripCr(a), b, after);
    hide *;
    NoBreakConcat(pre, Escape(a));
    BreakInName(cp, st, line, Escape(b) + after);
  }

  lemma NoBreakConcat(a: wstring, b: wstring)
    requires LF !in a && LF !in b
    ensures LF !in a + b
  {}

  lemma StripEscaped(pre: wstring, a: wstring)
    requires pre == [] || pre[|pre| - 1] != CR
    ensures StripCr(pre + Escape(a)) == pre + Escape(StripCr(a))
  {
    hide Escape, StripCr;
    if a == [] {
      NothingStripped(pre);
    } else {
      EscapeEnds(a);
      var head, last := a[..|a| - 1], a[|a| - 1];
      assert a == head + [last];
      if last == CR {
        EscapeConcat(head, [CR]);
        EscapeCr();
        LastDropped(pre, Escape(head));
        LastDropped([], head);
        NothingBefore(head + [CR]);
        NothingBefore(head);
      } else {
        SolidEnd(a);
        SolidEnd(pre + Escape(a));
      }
    }
  }

  lemma NothingStripped(pre: wstring)
    requires pre == [] || pre[|pre| - 1] != CR
    ensures StripCr(pre + Escape([])) == pre + Escape(StripCr([]))
  {
    assert pre + [] == pre;
  }

  lemma SolidEnd(text: wstring)
    requires text != [] && text[|text| - 1] != CR
    ensures StripCr(text) == text
  {}

  lemma EscapeCr()
    ensures Escape([CR]) == [CR]
  {}

  lemma LastDropped(pre: wstring, head: wstring)
    ensures StripCr(pre + (head + [CR])) == pre + head
  {}

  lemma JoinedName(st: Reader, pre: wstring, a: wstring)
    requires InName(st, pre)
    ensures Joined(st, pre + Escape(a)) == Reader(st.logical + (pre + Escape(a)), false, true, false, st.handler)
  {
    OpenName(st, pre);
    ScanEscape(a);
    ScanConcat(pre, Escape(a), st.quoted, false);
    if !st.quoted {
      assert (st.logical + (pre + Escape(a)))[0] == DQUOTE;
      AssignmentCounts(st.logical + (pre + Escape(a)));
    }
  }

  lemma NoWrapJoined(st: Reader, pre: wstring, a: wstring, b: wstring, after: wstring)
    requires InName(st, pre) && after != [] && after[0] == DQUOTE && !IsWrap(a, b)
    ensures !IsWrap(st.logical + (pre + Escape(a)), Escape(b) + after)
  {
    OpenName(st, pre);
    var logical := st.logical + (pre + Escape(a));
    if a == [] {
      assert logical == st.logical + pre;
    } else {
      EscapeEnds(a);
      assert logical[|logical| - 1] == a[|a| - 1];
    }
  }

  lemma UnfoldCollapsed(name: wstring)
    ensures var i := Find(name, LF, 0);
            && Collapsed(name) == (if i == -1 then name else StripCr(name[..i]) + ([LF] + Collapsed(name[i + 1..])))
            && WrapFree(name) == (i == -1 || (!IsWrap(StripCr(name[..i]), name[i + 1..]) && WrapFree(name[i + 1..])))
  {
    hide IsWrap, StripCr;
  }

  lemma CutName(name: wstring)
    ensures var i := Find(name, LF, 0);
            && (i == -1 ==> LF !in name)
            && (i != -1 ==> LF !in name[..i] && name == name[..i] + ([LF] + name[i + 1..]))
  {}

  lemma EscapeParts(a: wstring, b: wstring)
    ensures Escape(a + ([LF] + b)) == Escape(a) + ([LF] + Escape(b))
  {
    EscapeConcat(a, [LF] + b);
    assert ([LF] + b)[1..] == b;
  }

  /** A quoted name is read as its collapsed form, and then the data. */
  lemma {:induction false} NameRead(cp: CodePage, st: Reader, pre: wstring, name: wstring, v: Option<RegistryValue>,
      rest: wstring)
    requires InName(st, pre) && WrapFree(name)
    ensures ReadFrom(cp, pre + (Escape(name) + ([DQUOTE, EQUALS] + (TailText(v) + (CRLF + rest)))), st)
            == After(cp, st.handler, (st.logical + (pre + Escape(Collapsed(name)) + [DQUOTE, EQUALS]))
                     + TailData(v), rest)
    decreases |name|
  {
    hide *;
    UnfoldCollapsed(name);
    CutName(name);
    var i := Find(name, LF, 0);
    var tail := TailText(v) + (CRLF + rest);
    if i == -1 {
      NameCloses(st, pre, name);
      var cur := pre + Escape(name) + [DQUOTE, EQUALS];
      FourParts(pre, Escape(name), [DQUOTE, EQUALS], tail);
      TailRead(cp, st, cur, st.logical + cur, v, rest);
    } else {
      var a, b, kept := name[..i], name[i + 1..], StripCr(name[..i]);
      var after := [DQUOTE, EQUALS] + tail;
      EscapeParts(a, b);
      EscapeParts(kept, Collapsed(b));
      NameBreaks(cp, st, pre, a, b, after);
      BreakParts(pre, Escape(a), Escape(b), after);
      var next := Reader((st.logical + (pre + Escape(kept))) + [LF], false, true, false, st.handler);
      InNameAgain(st, pre, Escape(kept));
      NameRead(cp, next, [], b, v, rest);
      NothingBefore(Escape(b) + after);
      GatherParts(st.logical, pre, Escape(kept), Escape(Collapsed(b)));
    }
  }

  lemma FourParts(a: wstring, b: wstring, c: wstring, d: wstring)
    ensures a + (b + (c + d)) == (a + b + c) + d
  {}

  lemma BreakParts(pre: wstring, a: wstring, b: wstring, after: wstring)
    ensures pre + ((a + ([LF] + b)) + after) == (pre + a) + ([LF] + (b + after))
  {}

  lemma NothingBefore(text: wstring)
    ensures [] + text == text
  {}

  lemma InNameAgain(st: Reader, pre: wstring, kept: wstring)
    requires InName(st, pre)
    ensures InName(Reader((st.logical + (pre + kept)) + [LF], false, true, false, st.handler), [])
  {
    OpenName(st, pre);
    assert ((st.logical + (pre + kept)) + [LF])[0] == (st.logical + pre)[0];
  }

  lemma GatherParts(logical: wstring, pre: wstring, kept: wstring, b: wstring)
    ensures ((logical + (pre + kept)) + [LF]) + ([] + b + [DQUOTE, EQUALS])
            == logical + (pre + (kept + ([LF] + b)) + [DQUOTE, EQUALS])
  {}

  // ----- logical lines

  lemma HeaderWords()
    ensures |EDITOR| > 0 && EDITOR[0] == 0x57 && |REGEDIT4| > 0 && REGEDIT4[0] == 0x52
  {}

  lemma NoHeader(line: wstring)
    requires line != [] && (line[0] == LBRACKET || line[0] == DQUOTE || line[0] == AT)
    ensures !IsIgnored(line) && !StartsWithInsensitive(line, REGEDIT4)
  {
    HeaderWords();
  }

  lemma UnfoldSection(cp: CodePage, h: Handler, line: wstring)
    requires TrimWhitespace(line) == line && |line| >= 2 && IsSection(line)
    ensures Handle(cp, h, line) == Section(h, line[1..|line| - 1])
  {
    NoHeader(line);
    hide TrimWhitespace, StartsWithInsensitive, IsIgnored, Section, AssignmentAt, Assignment, EDITOR, REGEDIT4;
    hide IsTrimmed;
  }

  lemma UnfoldKey(h: Handler, path: wstring, inside: wstring)
    requires path != [] && TrimWhitespace(path) == path
    ensures path[0] != MINUS ==>
              Section(h, path) == Some(h.(inKey := true, path := path, output := h.output + [Key(path)]))
    ensures inside == [MINUS] + path && TrimWhitespace(inside) == inside ==>
              Section(h, inside) == Some(h.(inKey := false, path := path, output := h.output + [RemoveKey(path)]))
  {
    hide TrimWhitespace;
    assert ([MINUS] + path)[1..] == path;
  }

  lemma SectionFacts(path: wstring, line: wstring, mark: wstring)
    requires path != [] && IsTrimmed(path) && (mark == [] || mark == [MINUS])
             && line == [LBRACKET] + (mark + path) + [RBRACKET]
    ensures TrimWhitespace(path) == path && TrimWhitespace(mark + path) == mark + path && TrimWhitespace(line) == line
    ensures IsSection(line) && line[1..|line| - 1] == mark + path
  {
    TrimmedIsUnchanged(line);
    TrimmedIsUnchanged(mark + path);
    TrimmedIsUnchanged(path);
  }

  lemma HandleSection(cp: CodePage, h: Handler, path: wstring)
    requires path != [] && IsTrimmed(path) && path[0] != MINUS
    ensures Handle(cp, h, [LBRACKET] + path + [RBRACKET])
            == Some(h.(inKey := true, path := path, output := h.output + [Key(path)]))
  {
    hide *;
    var line := [LBRACKET] + path + [RBRACKET];
    assert [] + path == path;
    SectionFacts(path, line, []);
    UnfoldSection(cp, h, line);
    UnfoldKey(h, path, []);
  }

  lemma HandleRemoved(cp: CodePage, h: Handler, path: wstring)
    requires path != [] && IsTrimmed(path)
    ensures Handle(cp, h, [LBRACKET, MINUS] + path + [RBRACKET])
            == Some(h.(inKey := false, path := path, output := h.output + [RemoveKey(path)]))
  {
    hide *;
    var line := [LBRACKET, MINUS] + path + [RBRACKET];
    assert line == [LBRACKET] + ([MINUS] + path) + [RBRACKET];
    SectionFacts(path, line, [MINUS]);
    UnfoldSection(cp, h, line);
    UnfoldKey(h, path, [MINUS] + path);
  }

  /** The operation an assignment stands for. */
  function Assigned(path: wstring, name: wstring, v: Option<RegistryValue>): Operation {
    if v.None? then RemoveValue(path, name) else SetValue(path, v.value.(name := name))
  }

  predicate NoSpaceAtEnds(text: wstring) {
    text != [] && !IsSpace(text[0]) && !IsSpace(text[|text| - 1])
  }

  lemma TailEnds(v: Option<RegistryValue>)
    ensures NoSpaceAtEnds(TailData(v))
  {
    hide Escape, W, PaddedHex, StringData, DecodeString, HexText, ToHex;
    if v.Some? && !IsQuotable(v.value) {
      if v.value.kind == REG_DWORD && |v.value.data| == 4 {
      } else {
        HexEnds(v.value.kind, v.value.data);
      }
    }
  }

  lemma HexEnds(kind: uint32, data: seq<byte>)
    ensures NoSpaceAtEnds(HexPrefix(kind) + ToHex(data, [COMMA]))
  {
    HexDataUnits(data);
    var h := ToHex(data, [COMMA]);
    hide ToHex, HexText;
    assert h != [] ==> IsHexDataUnit(h[|h| - 1]);
    assert W("hex:")[0] == 0x68 && W("hex(")[0] == 0x68;
    assert W("hex:")[3] == COLON && W("):")[1] == COLON;
  }

  /** Where the assignment sign of a rendered line is. */
  lemma AssignmentSplits(name: wstring, data: wstring)
    ensures var prefix := NamePrefix(name);
            var line := prefix + data;
            && AssignmentAt(line) == |prefix| - 1 && |prefix| >= 2
            && line[..|prefix| - 1] == prefix[..|prefix| - 1] && line[|prefix|..] == data
  {
    var prefix := NamePrefix(name);
    var line := prefix + data;
    if name != [] {
      ClosingQuoteOfEscape([DQUOTE], name, [EQUALS] + data);
      assert line == [DQUOTE] + Escape(name) + ([DQUOTE] + ([EQUALS] + data));
      hide ClosingQuote, Escape;
      assert line[|prefix| - 1] == EQUALS;
    } else {
      assert line[1] == EQUALS && line[0] == AT;
    }
  }

  lemma NameReadsBack(name: wstring)
    ensures var text := NamePrefix(name)[..|NamePrefix(name)| - 1];
            && NoSpaceAtEnds(text)
            && (if name == [] then text == [AT] else text != [AT] && Quoted(text) == Some(name))
  {
    if name != [] {
      QuotedRoundTrip(name);
      hide Quoted, Escape;
      var text := [DQUOTE] + Escape(name) + [DQUOTE];
      assert NamePrefix(name)[..|NamePrefix(name)| - 1] == text;
    } else {
      assert [AT, EQUALS][..1] == [AT];
    }
  }

  lemma DataReads(cp: CodePage, path: wstring, v: Option<RegistryValue>, h: Handler, name: wstring, nameText: wstring)
    requires !h.ansi && h.path == path && nameText != []
    requires if name == [] then nameText == [AT] else nameText != [AT] && Quoted(nameText) == Some(name)
    ensures Assignment(cp, h, nameText, TailData(v)) == Some(h.(output := h.output + [Assigned(path, name, v)]))
  {
    hide Quoted, DataText;
    if v.Some? {
      DataRoundTrip(v.value);
      hide ParsedData, StartsWithInsensitive, W;
    }
  }

  lemma HandleAssignment(cp: CodePage, h: Handler, name: wstring, v: Option<RegistryValue>)
    requires h.inKey && !h.ansi
    ensures Handle(cp, h, NamePrefix(name) + TailData(v)) == Some(h.(output := h.output + [Assigned(h.path, name, v)]))
  {
    hide *;
    var prefix, data := NamePrefix(name), TailData(v);
    var line := prefix + data;
    TailEnds(v);
    NameReadsBack(name);
    AssignmentSplits(name, data);
    DataReads(cp, h.path, v, h, name, prefix[..|prefix| - 1]);
    LineEnds(prefix, data);
    EndsAreTrimmed(prefix[..|prefix| - 1]);
    EndsAreTrimmed(data);
    EndsAreTrimmed(line);
    FirstUnit(name, data);
    UnfoldAssignment(cp, h, line);
  }

  lemma LineEnds(prefix: wstring, data: wstring)
    requires |prefix| >= 2 && NoSpaceAtEnds(prefix[..|prefix| - 1]) && NoSpaceAtEnds(data)
    ensures NoSpaceAtEnds(prefix + data)
  {
    assert (prefix + data)[0] == prefix[..|prefix| - 1][0];
  }

  lemma EndsAreTrimmed(text: wstring)
    requires NoSpaceAtEnds(text)
    ensures TrimWhitespace(text) == text
  {}

  lemma FirstUnit(name: wstring, data: wstring)
    ensures var line := NamePrefix(name) + data; line != [] && (line[0] == DQUOTE || line[0] == AT)
  {}

  lemma UnfoldAssignment(cp: CodePage, h: Handler, line: wstring)
    requires h.inKey && TrimWhitespace(line) == line && line != [] && (line[0] == DQUOTE || line[0] == AT)
    ensures var equals := AssignmentAt(line);
            equals != -1 ==>
              Handle(cp, h, line) == Assignment(cp, h, TrimWhitespace(line[..equals]),
                                                TrimWhitespace(line[equals + 1..]))
  {
    NoHeader(line);
    NoSection(line);
    hide TrimWhitespace, StartsWithInsensitive, IsIgnored, IsSection, Section, AssignmentAt, Assignment, EDITOR;
    hide REGEDIT4;
  }

  lemma NoSection(line: wstring)
    requires line != [] && (line[0] == DQUOTE || line[0] == AT)
    ensures !IsSection(line)
  {}

  // ----- whole files

  /** The rendered line of a value or of a removed one. */
  lemma AssignmentRead(cp: CodePage, h: Handler, name: wstring, v: Option<RegistryValue>, rest: wstring)
    requires h.inKey && !h.ansi && WrapFree(name)
    ensures ReadFrom(cp, NamePrefix(name) + (TailText(v) + (CRLF + rest)), Idle(h))
            == ReadFrom(cp, rest, Idle(h.(output := h.output + [Assigned(h.path, Collapsed(name), v)])))
  {
    hide *;
    CollapsedEmpty(name);
    HandleAssignment(cp, h, Collapsed(name), v);
    if name == [] {
      DefaultCarries(h);
      PrefixOfName(name);
      TailRead(cp, Idle(h), [AT, EQUALS], [AT, EQUALS], v, rest);
      UnfoldAfter(cp, h, NamePrefix(name) + TailData(v), rest);
    } else {
      IdleInName(h);
      NameRead(cp, Idle(h), [DQUOTE], name, v, rest);
      PrefixOfName(name);
      PrefixOfName(Collapsed(name));
      IdleLogical(h);
      QuoteParts(Escape(name), TailText(v) + (CRLF + rest));
      NothingBefore([DQUOTE] + Escape(Collapsed(name)) + [DQUOTE, EQUALS]);
      UnfoldAfter(cp, h, NamePrefix(Collapsed(name)) + TailData(v), rest);
    }
  }

  lemma CollapsedEmpty(name: wstring)
    ensures Collapsed(name) == [] <==> name == []
  {}

  lemma DefaultCarries(h: Handler)
    ensures Carries(Idle(h), [AT, EQUALS], [AT, EQUALS]) && LF !in [AT, EQUALS] && EndsSolid([AT, EQUALS])
            && StartsAssignment([AT, EQUALS])
    ensures Idle(h).handler == h
  {
    ScanPlain([AT, EQUALS]);
    assert [] + [AT, EQUALS] == [AT, EQUALS];
    CarriesFirst(Idle(h), [AT, EQUALS]);
  }

  lemma PrefixOfName(name: wstring)
    ensures NamePrefix(name) == if name == [] then [AT, EQUALS] else [DQUOTE] + Escape(name) + [DQUOTE, EQUALS]
  {}

  lemma IdleInName(h: Handler)
    ensures InName(Idle(h), [DQUOTE])
  {}

  lemma IdleLogical(h: Handler)
    ensures Idle(h).logical == [] && Idle(h).handler == h
  {}

  lemma QuoteParts(e: wstring, tail: wstring)
    ensures ([DQUOTE] + e + [DQUOTE, EQUALS]) + tail == [DQUOTE] + (e + ([DQUOTE, EQUALS] + tail))
  {}

  lemma UnfoldAfter(cp: CodePage, h: Handler, raw: wstring, rest: wstring)
    ensures Handle(cp, h, raw).Some? ==> After(cp, h, raw, rest) == ReadFrom(cp, rest, Idle(Handle(cp, h, raw).value))
  {}

  /** A line that is no value: its quotes don't count, or it is blank. */
  lemma BareLine(cp: CodePage, h: Handler, line: wstring, rest: wstring)
    requires LF !in line && (line == [] || (line[0] == LBRACKET && EndsSolid(line)))
    ensures ReadFrom(cp, line + (CRLF + rest), Idle(h)) == After(cp, h, line, rest)
  {
    var st := Idle(h);
    assert [] + line == line;
    assert StripBlanks(line) == line;
    assert Joined(st, line) == Reader(line, false, false, false, h);
    hide ReadFrom, Joined, After;
    FinalLine(cp, st, line, rest);
  }

  lemma BlankRead(cp: CodePage, h: Handler, rest: wstring)
    ensures ReadFrom(cp, CRLF + rest, Idle(h)) == ReadFrom(cp, rest, Idle(h))
  {
    assert Handle(cp, h, []) == Some(h) by { assert TrimWhitespace([]) == []; }
    hide *;
    BareLine(cp, h, [], rest);
    NothingBefore(CRLF + rest);
    UnfoldAfter(cp, h, [], rest);
  }

  lemma GapRead(cp: CodePage, h: Handler, written: bool, rest: wstring)
    ensures ReadFrom(cp, Gap(written) + rest, Idle(h)) == ReadFrom(cp, rest, Idle(h))
  {
    hide ReadFrom;
    if written {
      BlankRead(cp, h, rest);
    } else {
      NothingBefore(rest);
    }
  }

  lemma BracketFacts(open: wstring, path: wstring, rest: wstring)
    requires open == [LBRACKET] || open == [LBRACKET, MINUS]
    requires LF !in path
    ensures var line := open + path + [RBRACKET];
            && LF !in line && line != [] && line[0] == LBRACKET && EndsSolid(line)
            && (open + path + ([RBRACKET] + CRLF)) + rest == line + (CRLF + rest)
  {
    var line := open + path + [RBRACKET];
    assert forall i :: 0 <= i < |line| ==>
      line[i] == if i < |open| then open[i] else if i < |open| + |path| then path[i - |open|] else RBRACKET;
  }

  lemma SectionRead(cp: CodePage, h: Handler, path: wstring, rest: wstring)
    requires path != [] && IsTrimmed(path) && LF !in path && path[0] != MINUS
    ensures ReadFrom(cp, SectionText(path) + rest, Idle(h))
            == ReadFrom(cp, rest, Idle(h.(inKey := true, path := path, output := h.output + [Key(path)])))
  {
    var line := [LBRACKET] + path + [RBRACKET];
    HandleSection(cp, h, path);
    BracketFacts([LBRACKET], path, rest);
    assert SectionText(path) == [LBRACKET] + path + ([RBRACKET] + CRLF);
    hide *;
    BareLine(cp, h, line, rest);
    UnfoldAfter(cp, h, line, rest);
  }

  lemma RemovedRead(cp: CodePage, h: Handler, path: wstring, rest: wstring)
    requires path != [] && IsTrimmed(path) && LF !in path
    ensures ReadFrom(cp, RemovedText(path) + rest, Idle(h))
            == ReadFrom(cp, rest, Idle(h.(inKey := false, path := path, output := h.output + [RemoveKey(path)])))
  {
    var line := [LBRACKET, MINUS] + path + [RBRACKET];
    HandleRemoved(cp, h, path);
    BracketFacts([LBRACKET, MINUS], path, rest);
    assert RemovedText(path) == [LBRACKET, MINUS] + path + ([RBRACKET] + CRLF);
    hide *;
    BareLine(cp, h, line, rest);
    UnfoldAfter(cp, h, line, rest);
  }

  /** What an operation adds inside its open section. */
  function Line(op: Operation): seq<Operation> {
    if op.SetValue? || op.RemoveValue? then [CollapsedOp(op)] else []
  }

  lemma OperationRead(cp: CodePage, h: Handler, op: Operation, rest: wstring)
    requires h.inKey && !h.ansi && h.path == op.path && Storable(op) && !op.RemoveKey?
    ensures ReadFrom(cp, OperationText(op) + rest, Idle(h))
            == ReadFrom(cp, rest, Idle(h.(output := h.output + Line(op))))
  {
    match op
    case Key(_) =>
      hide ReadFrom, Storable;
      NothingBefore(rest);
      assert h.output + [] == h.output;
    case SetValue(p, v) =>
      hide ReadFrom, NamePrefix, ValueTail, Collapsed, WrapFree;
      ValueParts(NamePrefix(v.name), ValueTail(v), CRLF, rest);
      AssignmentRead(cp, h, v.name, Some(v), rest);
    case RemoveValue(p, n) =>
      hide ReadFrom, NamePrefix, Collapsed, WrapFree;
      MarkParts(NamePrefix(n), [MINUS], CRLF, rest);
      AssignmentRead(cp, h, n, None, rest);
  }

  lemma ValueParts(a: wstring, b: wstring, c: wstring, d: wstring)
    ensures (a + b + c) + d == a + (b + (c + d))
  {}

  lemma MarkParts(a: wstring, b: wstring, c: wstring, d: wstring)
    ensures (a + (b + c)) + d == a + (b + (c + d))
  {}

  lemma OutputParts(a: seq<Operation>, b: seq<Operation>, c: seq<Operation>, d: seq<Operation>)
    ensures ((a + b) + c) + d == a + (b + (c + d))
    ensures (a + b) + d == a + (b + d)
  {}

  lemma CollapsedConcat(a: seq<Operation>, b: seq<Operation>)
    ensures CollapsedOps(a + b) == CollapsedOps(a) + CollapsedOps(b)
  {
    hide CollapsedOp;
  }

  lemma CollapsedOne(op: Operation)
    ensures CollapsedOps([op]) == [CollapsedOp(op)]
    ensures CollapsedOps(if op.Key? then [] else [op]) == if op.RemoveKey? then [op] else Line(op)
    ensures CollapsedOps([Key(op.path)]) == [Key(op.path)]
  {
    hide Collapsed;
  }

  /** What operation 0 adds to the file: its section unless it is open, and its line. */
  function Opened(op: Operation, current: Option<wstring>): seq<Operation> {
    if op.RemoveKey? || current == Some(op.path) then [] else [Key(op.path)]
  }

  lemma SectionedParts(ops: seq<Operation>, current: Option<wstring>)
    requires ops != []
    ensures var op := ops[0];
            Sectioned(ops, current) ==
              Opened(op, current) + ((if op.Key? then []
                                      else [op]) + Sectioned(ops[1..], if op.RemoveKey? then None else Some(op.path)))
  {}

  lemma UnfoldSectioned(ops: seq<Operation>, current: Option<wstring>)
    requires ops != []
    ensures var op := ops[0];
            && (op.RemoveKey? ==>
                  CollapsedOps(Sectioned(ops, current)) == [op] + CollapsedOps(Sectioned(ops[1..], None)))
            && (!op.RemoveKey? && current == Some(op.path) ==>
                  CollapsedOps(Sectioned(ops, current)) == Line(op) + CollapsedOps(Sectioned(ops[1..], current)))
            && (!op.RemoveKey? && current != Some(op.path) ==>
                  CollapsedOps(Sectioned(ops, current))
                    == [Key(op.path)] + (Line(op) + CollapsedOps(Sectioned(ops[1..], Some(op.path)))))
  {
    var op := ops[0];
    var own := if op.Key? then [] else [op];
    var rest := Sectioned(ops[1..], if op.RemoveKey? then None else Some(op.path));
    SectionedParts(ops, current);
    CollapsedConcat(Opened(op, current), own + rest);
    CollapsedConcat(own, rest);
    CollapsedOne(op);
    hide Sectioned, CollapsedOps, Line, Collapsed;
    NothingAdded(Line(op) + CollapsedOps(rest));
    NothingAdded([op] + CollapsedOps(rest));
  }

  lemma NothingAdded(a: seq<Operation>)
    ensures [] + a == a
  {}

  lemma EndRead(cp: CodePage, h: Handler)
    ensures ReadFrom(cp, [], Idle(h)) == Some(h.output)
  {}

  lemma {:induction false} BodyRead(cp: CodePage, h: Handler, ops: seq<Operation>, current: Option<wstring>,
      written: bool)
    requires !h.ansi && (current.Some? ==> h.inKey && h.path == current.value)
    requires forall i :: 0 <= i < |ops| ==> Storable(ops[i])
    ensures ReadFrom(cp, Body(ops, current, written), Idle(h)) == Some(h.output + CollapsedOps(Sectioned(ops, current)))
    decreases |ops|
  {
    hide ReadFrom, Body, Sectioned, CollapsedOps, OperationText, SectionText, RemovedText, Gap, Line, IsTrimmed;
    hide WrapFree;
    if ops == [] {
      NoBody(current, written);
      GapRead(cp, h, written, []);
      EndRead(cp, h);
      assert h.output + [] == h.output;
    } else {
      var op, rest := ops[0], ops[1..];
      UnfoldBody(ops, current, written);
      UnfoldSectioned(ops, current);
      if op.RemoveKey? {
        var next := h.(inKey := false, path := op.path, output := h.output + [op]);
        GapRead(cp, h, written, RemovedText(op.path) + Body(rest, None, true));
        RemovedRead(cp, h, op.path, Body(rest, None, true));
        BodyRead(cp, next, rest, None, true);
        OutputParts(h.output, [op], [], CollapsedOps(Sectioned(rest, None)));
      } else if current == Some(op.path) {
        OperationRead(cp, h, op, Body(rest, current, written));
        BodyRead(cp, h.(output := h.output + Line(op)), rest, current, written);
        OutputParts(h.output, Line(op), [], CollapsedOps(Sectioned(rest, current)));
      } else {
        var open := h.(inKey := true, path := op.path, output := h.output + [Key(op.path)]);
        var after := Body(rest, Some(op.path), true);
        GapRead(cp, h, written, SectionText(op.path) + (OperationText(op) + after));
        SectionRead(cp, h, op.path, OperationText(op) + after);
        OperationRead(cp, open, op, after);
        BodyRead(cp, open.(output := open.output + Line(op)), rest, Some(op.path), true);
        OutputParts(h.output, [Key(op.path)], Line(op), CollapsedOps(Sectioned(rest, Some(op.path))));
      }
    }
  }

  lemma NoBody(current: Option<wstring>, written: bool)
    ensures Body([], current, written) == Gap(written) + []
    ensures CollapsedOps(Sectioned([], current)) == []
  {}

  lemma HeaderRead(cp: CodePage, rest: wstring)
    ensures ReadFrom(cp, REG_HEADER + rest, Idle(START)) == ReadFrom(cp, rest, Idle(START))
  {
    var line := W("Windows Registry Editor Version 5.00");
    HeaderLine(cp);
    HeaderJoins();
    hide *;
    MarkHeader(line, rest);
    SolidLine(cp, Idle(START), line, CRLF + rest);
    IdleLogical(START);
    UnfoldAfter(cp, START, line, CRLF + rest);
    BlankRead(cp, START, rest);
  }

  lemma SolidLine(cp: CodePage, st: Reader, line: wstring, rest: wstring)
    requires LF !in line && !Joined(st, line).quoted && EndsSolid(Joined(st, line).logical)
    ensures ReadFrom(cp, line + (CRLF + rest), st) == After(cp, st.handler, Joined(st, line).logical, rest)
  {
    hide ReadFrom, Joined, After;
    FinalLine(cp, st, line, rest);
  }

  lemma MarkHeader(line: wstring, rest: wstring)
    requires line == W("Windows Registry Editor Version 5.00")
    ensures REG_HEADER + rest == line + (CRLF + (CRLF + rest))
  {
    hide W;
  }

  lemma LiteralHasNoQuote(s: string)
    requires forall i :: 0 <= i < |s| ==> ' ' <= s[i] <= 'z' && s[i] != '"'
    ensures NoQuote(W(s)) && LF !in W(s)
  {
    var line := W(s);
    assert forall i :: 0 <= i < |line| ==> line[i] != DQUOTE && line[i] != LF;
  }

  /** A line that is no comment and no section, without quotes, joined to nothing. */
  lemma PlainLineJoins(h: Handler, line: wstring)
    requires NoQuote(line) && line != [] && !IsBlankUnit(line[0]) && line[0] != LBRACKET && line[0] != SEMICOLON
    ensures Joined(Idle(h), line) == Reader(line, false, false, false, h)
  {
    ScanPlain(line);
    hide ScanQuotes, NoQuote;
    assert [] + line == line;
  }

  lemma HeaderUnits()
    ensures var line := W("Windows Registry Editor Version 5.00"); |line| == 36 && line[0] == 0x57 && line[35] == 0x30
  {}

  lemma HeaderJoins()
    ensures var line := W("Windows Registry Editor Version 5.00");
            LF !in line && Joined(Idle(START), line) == Reader(line, false, false, false, START) && EndsSolid(line)
  {
    HeaderUnits();
    LiteralHasNoQuote("Windows Registry Editor Version 5.00");
    hide W, Joined, NoQuote;
    PlainLineJoins(START, W("Windows Registry Editor Version 5.00"));
  }

  lemma HeaderLine(cp: CodePage)
    ensures Handle(cp, START, W("Windows Registry Editor Version 5.00")) == Some(START)
  {
    var line := W("Windows Registry Editor Version 5.00");
    assert line[..|EDITOR|] == EDITOR;
    assert line[0] == 0x57 && line[|line| - 1] == 0x30;
    TrimmedIsUnchanged(line);
    hide TrimWhitespace, AssignmentAt, Assignment, Section;
  }

  /** Rendering a list of operations and reading the file gives the list back, under its open sections,
      with every CRLF in a name collapsed. */
  lemma RegRoundTrip(cp: CodePage, ops: seq<Operation>)
    requires forall i :: 0 <= i < |ops| ==> Storable(ops[i])
    ensures Parsed(cp, RegText(ops)) == Some(CollapsedOps(Sectioned(ops, None)))
  {
    hide Storable, Body, ReadFrom, REG_HEADER, CollapsedOps, Sectioned;
    HeaderRead(cp, Body(ops, None, false));
    BodyRead(cp, START, ops, None, false);
    NothingAdded(CollapsedOps(Sectioned(ops, None)));
  }

  // ----- when nothing collapses

  /** No carriage return stands in front of a line feed. */
  predicate CrlfFree(name: wstring) {
    forall i :: 0 <= i < |name| - 1 ==> !CrlfAt(name, i)
  }

  predicate CrlfAt(name: wstring, i: nat)
    requires i + 1 < |name|
  {
    name[i] == CR && name[i + 1] == LF
  }

  lemma CrlfFreeParts(a: wstring, b: wstring)
    requires LF !in a
    ensures CrlfFree(a + ([LF] + b)) <==> StripCr(a) == a && CrlfFree(b)
  {
    var name := a + ([LF] + b);
    if CrlfFree(name) {
      if a != [] { assert !CrlfAt(name, |a| - 1); }
      forall i | 0 <= i < |b| - 1 ensures !CrlfAt(b, i) {
        assert !CrlfAt(name, |a| + 1 + i);
      }
    } else {
      var k :| 0 <= k < |name| - 1 && CrlfAt(name, k);
      forall j | 0 <= j < |a| ensures name[j] != LF {
        assert a[j] in a;
      }
      if k > |a| { assert CrlfAt(b, k - |a| - 1); }
    }
  }

  lemma {:induction false} CollapsedIsSame(name: wstring)
    ensures |Collapsed(name)| <= |name|
    ensures CrlfFree(name) ==> Collapsed(name) == name
    ensures !CrlfFree(name) ==> |Collapsed(name)| < |name|
    decreases |name|
  {
    UnfoldCollapsed(name);
    CutName(name);
    var i := Find(name, LF, 0);
    if i != -1 {
      var a, b := name[..i], name[i + 1..];
      CrlfFreeParts(a, b);
      CollapsedIsSame(b);
      hide Collapsed, Find, CrlfFree;
    } else {
      hide Collapsed, Find, CrlfFree;
    }
  }

  predicate NamesCrlfFree(ops: seq<Operation>) {
    forall i :: 0 <= i < |ops| ==>
      (ops[i].SetValue? ==> CrlfFree(ops[i].value.name)) && (ops[i].RemoveValue? ==> CrlfFree(ops[i].name))
  }

  lemma {:induction false} SectionedNames(ops: seq<Operation>, current: Option<wstring>)
    ensures NamesCrlfFree(Sectioned(ops, current)) <==> NamesCrlfFree(ops)
    decreases |ops|
  {
    if ops == [] {
      assert Sectioned(ops, current) == [];
    } else {
      hide *;
      var op := ops[0];
      var next := if op.RemoveKey? then None else Some(op.path);
      var own := if op.Key? then [] else [op];
      SectionedNames(ops[1..], next);
      SectionedParts(ops, current);
      NamesConcat(Opened(op, current), own + Sectioned(ops[1..], next));
      NamesConcat(own, Sectioned(ops[1..], next));
      NamesConcat([op], ops[1..]);
      assert [op] + ops[1..] == ops;
      OwnNames(op, current);
    }
  }

  lemma OwnNames(op: Operation, current: Option<wstring>)
    ensures NamesCrlfFree(Opened(op, current))
    ensures NamesCrlfFree(if op.Key? then [] else [op]) <==> NamesCrlfFree([op])
  {
    hide CrlfFree;
  }

  lemma NamesConcat(a: seq<Operation>, b: seq<Operation>)
    ensures NamesCrlfFree(a + b) <==> NamesCrlfFree(a) && NamesCrlfFree(b)
  {
    hide CrlfFree;
    assert forall i :: 0 <= i < |a| ==> (a + b)[i] == a[i];
    assert forall i :: 0 <= i < |b| ==> (a + b)[|a| + i] == b[i];
  }

  /** The file holds the operations themselves exactly when no name has a CRLF in it. */
  lemma RegRoundTripExact(cp: CodePage, ops: seq<Operation>)
    requires forall i :: 0 <= i < |ops| ==> Storable(ops[i])
    ensures Parsed(cp, RegText(ops)) == Some(Sectioned(ops, None)) <==> NamesCrlfFree(ops)
  {
    RegRoundTrip(cp, ops);
    SectionedNames(ops, None);
    hide *;
    CollapsedOpsSame(Sectioned(ops, None));
  }

  lemma CollapsedOpsSame(ops: seq<Operation>)
    ensures CollapsedOps(ops) == ops <==> NamesCrlfFree(ops)
  {
    hide Collapsed, CrlfFree;
    forall i | 0 <= i < |ops|
      ensures CollapsedOps(ops)[i] == ops[i] <==>
              (ops[i].SetValue? ==> CrlfFree(ops[i].value.name)) && (ops[i].RemoveValue? ==> CrlfFree(ops[i].name))
    {
      if ops[i].SetValue? { CollapsedIsSame(ops[i].value.name); }
      if ops[i].RemoveValue? { CollapsedIsSame(ops[i].name); }
    }
  }
}
