/** Which names a .reg file gives back: those without a CRLF and without what looks like another exporter's wrap. */
module RegNames {
  import opened Text
  import opened ValueFormat
  import opened Operations
  import opened RegSyntax
  import opened RegReader
  import opened RegWriter
  import opened RegRoundTrip

  // ----- the name a quoted text spells

  /** What a quoted text spells, up to its closing quote or its end. */
  datatype Decoded = Decoded(out: wstring, escaped: bool, closed: bool)

  function Decode(text: wstring, escaped: bool, out: wstring): Decoded
    decreases |text|
  {
    if text == [] then Decoded(out, escaped, false)
    else if escaped then Decode(text[1..], false, out + [Unescaped(text[0])])
    else if text[0] == BACKSLASH then Decode(text[1..], true, out)
    else if text[0] == DQUOTE then Decoded(out, false, true)
    else Decode(text[1..], false, out + [text[0]])
  }

  lemma {:induction false} DecodeConcat(a: wstring, b: wstring, escaped: bool, out: wstring)
    ensures var d := Decode(a, escaped, out);
            Decode(a + b, escaped, out) == if d.closed then d else Decode(b, d.escaped, d.out)
    decreases |a|
  {
    hide Unescaped;
    if a == [] {
      assert a + b == b;
    } else {
      assert (a + b)[0] == a[0] && (a + b)[1..] == a[1..] + b;
      if escaped {
        DecodeConcat(a[1..], b, false, out + [Unescaped(a[0])]);
      } else if a[0] == BACKSLASH {
        DecodeConcat(a[1..], b, true, out);
      } else if a[0] != DQUOTE {
        DecodeConcat(a[1..], b, false, out + [a[0]]);
      }
    }
  }

  lemma {:induction false} DecodeGrows(text: wstring, escaped: bool, out: wstring)
    ensures out <= Decode(text, escaped, out).out
    decreases |text|
  {
    hide Unescaped;
    if text != [] {
      if escaped {
        DecodeGrows(text[1..], false, out + [Unescaped(text[0])]);
      } else if text[0] == BACKSLASH {
        DecodeGrows(text[1..], true, out);
      } else if text[0] != DQUOTE {
        DecodeGrows(text[1..], false, out + [text[0]]);
      }
    }
  }

  lemma {:induction false} QuotedIsDecoded(text: wstring, escaped: bool, out: wstring)
    requires QuotedRest(text, escaped, out).Some?
    ensures var d := Decode(text, escaped, out); d.closed && QuotedRest(text, escaped, out) == Some(d.out)
    decreases |text|
  {
    hide Unescaped, AllBlank;
    if escaped {
      QuotedIsDecoded(text[1..], false, out + [Unescaped(text[0])]);
    } else if text[0] == BACKSLASH {
      QuotedIsDecoded(text[1..], true, out);
    } else if text[0] != DQUOTE {
      QuotedIsDecoded(text[1..], false, out + [text[0]]);
    }
  }

  /** What a logical line spells behind its opening quote. */
  function Inside(logical: wstring): Decoded
    requires logical != []
  {
    Decode(logical[1..], false, [])
  }

  /** A logical line that starts with a quoted name which is not closed yet. */
  predicate IsOpen(logical: wstring) {
    logical != [] && logical[0] == DQUOTE && !Inside(logical).closed
  }

  lemma InsideConcat(logical: wstring, more: wstring)
    requires logical != []
    ensures (logical + more)[0] == logical[0]
    ensures var d := Inside(logical); Inside(logical + more) == if d.closed then d else Decode(more, d.escaped, d.out)
  {
    DecodeConcat(logical[1..], more, false, []);
    assert (logical + more)[1..] == logical[1..] + more;
    hide Decode;
  }

  /** An operation at a place of a list, if there is one, has another name. */
  predicate IsOtherAt(out: seq<Operation>, i: nat, name: wstring) {
    i < |out| && NameOf(out[i]) != name
  }

  lemma TrimmedIsPrefix(text: wstring)
    requires text != [] && !IsSpace(text[0])
    ensures TrimWhitespace(text) != [] && TrimWhitespace(text) <= text
  {}

  lemma QuoteIsSolid()
    ensures !IsSpace(DQUOTE) && !IsBlankUnit(DQUOTE)
  {}

  /** A line that starts with a quote adds one operation with the name it spells. */
  lemma NameIsInside(cp: CodePage, h: Handler, line: wstring)
    requires line != [] && line[0] == DQUOTE && Handle(cp, h, line).Some?
    ensures var after := Handle(cp, h, line).value.output;
            Inside(line).closed && h.output <= after && |h.output| < |after|
              && NameOf(after[|h.output|]) == Inside(line).out
  {
    hide TrimWhitespace, Handle, AssignmentAt, Assignment, Quoted, ClosingQuote, QuotedRest, IsSpace, NameOf, IsIgnored;
    hide StartsWithInsensitive, Decode;
    var t := TrimWhitespace(line);
    QuoteIsSolid();
    TrimmedIsPrefix(line);
    NoHeader(t);
    NoSection(t);
    var equals := AssignmentAt(t);
    UnfoldQuoted(cp, h, line);
    var head := t[..equals];
    TrimmedIsPrefix(head);
    var nameText := TrimWhitespace(head);
    assert nameText[0] == DQUOTE && nameText != [AT];
    AssignmentAdds(cp, h, nameText, TrimWhitespace(t[equals + 1..]));
    QuotedIsDecoded(nameText[1..], false, []);
    assert nameText <= t && t <= line;
    InsideConcat(nameText, line[|nameText|..]);
    assert nameText + line[|nameText|..] == line;
  }

  lemma UnfoldQuoted(cp: CodePage, h: Handler, line: wstring)
    requires var t := TrimWhitespace(line);
             t != [] && t[0] == DQUOTE && !IsIgnored(t) && !StartsWithInsensitive(t, REGEDIT4) && !IsSection(t)
    requires Handle(cp, h, line).Some?
    ensures var t := TrimWhitespace(line);
            var equals := AssignmentAt(t);
            && equals > 0 && ClosingQuote(t, 1, false) >= 0
            && Handle(cp, h, line) == Assignment(cp, h, TrimWhitespace(t[..equals]), TrimWhitespace(t[equals + 1..]))
  {
    hide TrimWhitespace, StartsWithInsensitive, IsIgnored, IsSection, Section, Assignment, EDITOR, REGEDIT4;
    hide ClosingQuote;
  }

  lemma AssignmentAdds(cp: CodePage, h: Handler, nameText: wstring, dataText: wstring)
    requires nameText != [] && nameText[0] == DQUOTE && Assignment(cp, h, nameText, dataText).Some?
    ensures QuotedRest(nameText[1..], false, []).Some?
    ensures var after := Assignment(cp, h, nameText, dataText).value.output;
            && |after| == |h.output| + 1 && h.output <= after
            && NameOf(after[|h.output|]) == QuotedRest(nameText[1..], false, []).value
  {
    hide QuotedRest, DataOf;
  }

  // ----- the output only grows

  lemma HandleGrows(cp: CodePage, h: Handler, line: wstring)
    requires Handle(cp, h, line).Some?
    ensures h.output <= Handle(cp, h, line).value.output
  {
    hide TrimWhitespace, StartsWithInsensitive, IsIgnored, IsSection, AssignmentAt, Quoted, DataOf, EDITOR, REGEDIT4;
  }

  lemma {:induction false} OutputGrows(cp: CodePage, content: wstring, st: Reader)
    requires ReadFrom(cp, content, st).Some?
    ensures st.handler.output <= ReadFrom(cp, content, st).value
    decreases |content|
  {
    hide Handle, Joined, StripCr, Find, DropBlanks, IsWrap;
    if content == [] {
      if st.logical != [] { HandleGrows(cp, st.handler, st.logical); }
    } else {
      var end := Find(content, LF, 0);
      var joined := Joined(st, StripCr(if end == -1 then content else content[..end]));
      var tail := if end == -1 then [] else content[end + 1..];
      JoinedKeeps(st, StripCr(if end == -1 then content else content[..end]));
      var settled := Settle(cp, joined, end != -1, tail);
      if settled.Some? {
        SettleGrows(cp, joined, end != -1, tail);
        OutputGrows(cp, settled.value.1, settled.value.0);
      }
    }
  }

  lemma JoinedKeeps(st: Reader, physical: wstring)
    ensures var j := Joined(st, physical);
            j.handler == st.handler && j.logical == st.logical + if st.continuing then StripBlanks(physical)
                                                                 else physical
  {}

  lemma SettleGrows(cp: CodePage, st: Reader, hasNewline: bool, tail: wstring)
    requires Settle(cp, st, hasNewline, tail).Some?
    ensures var (next, rest) := Settle(cp, st, hasNewline, tail).value;
            st.handler.output <= next.handler.output && |rest| <= |tail|
  {
    hide Handle, DropBlanks;
    var logical := DropBlanks(st.logical);
    if Handle(cp, st.handler, logical).Some? { HandleGrows(cp, st.handler, logical); }
  }

  lemma OtherStays(out: seq<Operation>, more: seq<Operation>, i: nat, name: wstring)
    requires IsOtherAt(out, i, name) && out <= more
    ensures IsOtherAt(more, i, name)
  {}

  // ----- once the name can only be another one

  /** A quoted text that ends in a quote: the closing one of another name, or one that the name does not have there. */
  predicate Bars(front: wstring, name: wstring) {
    && |front| >= 2 && front[0] == DQUOTE && front[|front| - 1] == DQUOTE
    && var d := Inside(front); if d.closed then d.out != name else !(d.out <= name)
  }

  lemma BarredName(front: wstring, line: wstring, name: wstring)
    requires Bars(front, name) && front <= line
    ensures line != [] && line[0] == DQUOTE && (Inside(line).closed ==> Inside(line).out != name)
  {
    var d, rest := Inside(front), line[|front|..];
    assert front + rest == line;
    InsideConcat(front, rest);
    DecodeGrows(rest, d.escaped, d.out);
    hide Decode;
  }

  lemma {:induction false} DropBlanksDrops(text: wstring)
    ensures var r := DropBlanks(text); r <= text && forall i :: |r| <= i < |text| ==> text[i] != DQUOTE
    decreases |text|
  {
    if text != [] && IsBlankUnit(text[|text| - 1]) { DropBlanksDrops(text[..|text| - 1]); }
  }

  /** What is read behind a settled line. */
  function Continued(cp: CodePage, st: Reader, hasNewline: bool, tail: wstring): Option<seq<Operation>> {
    var settled := Settle(cp, st, hasNewline, tail);
    if settled.None? then None else ReadFrom(cp, settled.value.1, settled.value.0)
  }

  lemma SettledIs(cp: CodePage, st: Reader, hasNewline: bool, tail: wstring)
    ensures var logical, solid, r := st.logical, DropBlanks(st.logical), Continued(cp, st, hasNewline, tail);
            if st.quoted && hasNewline then
              if IsWrap(logical, tail) then
                logical != [] && |tail| >= 2
                  && r == ReadFrom(cp, tail[2..],
                                   Reader(logical[..|logical| - 1], false, true, !st.escaped, st.handler))
              else r == ReadFrom(cp, tail, Reader(logical + [LF], false, true, st.escaped, st.handler))
            else if !st.quoted && solid != [] && solid[|solid| - 1] == BACKSLASH then
              r == ReadFrom(cp, tail, Reader(solid[..|solid| - 1], true, st.quoted, st.escaped, st.handler))
            else r == After(cp, st.handler, solid, tail)
  {
    hide ReadFrom, Handle, DropBlanks;
  }

  lemma WrapEnds(logical: wstring, tail: wstring)
    requires IsWrap(logical, tail)
    ensures logical != [] && logical[|logical| - 1] == BACKSLASH && |tail| >= 2 && tail[0] == SPACE && tail[1] == SPACE
  {}

  lemma LastIsNoQuote(logical: wstring)
    requires logical != [] && logical[|logical| - 1] == BACKSLASH
    ensures var kept := logical[..|logical| - 1];
            kept <= logical && forall i :: |kept| <= i < |logical| ==> logical[i] != DQUOTE
  {}

  /** The logical line that ends adds the operation; the rest only adds more. */
  lemma BarredEnds(cp: CodePage, h: Handler, line: wstring, tail: wstring, front: wstring, name: wstring)
    requires Bars(front, name) && front <= line
    ensures var r := After(cp, h, line, tail); r.Some? ==> IsOtherAt(r.value, |h.output|, name)
  {
    hide *;
    BarredName(front, line, name);
    if Handle(cp, h, line).Some? {
      NameIsInside(cp, h, line);
      UnfoldAfter(cp, h, line, tail);
      var after := Handle(cp, h, line).value;
      IdleLogical(after);
      OtherIs(after.output, |h.output|, name);
      if ReadFrom(cp, tail, Idle(after)).Some? {
        OutputGrows(cp, tail, Idle(after));
        OtherStays(after.output, ReadFrom(cp, tail, Idle(after)).value, |h.output|, name);
      }
    } else {
      NoAfter(cp, h, line, tail);
    }
  }

  lemma OtherIs(out: seq<Operation>, i: nat, name: wstring)
    requires i < |out| && NameOf(out[i]) != name
    ensures IsOtherAt(out, i, name)
  {}

  lemma BarsEnds(front: wstring, name: wstring)
    requires Bars(front, name)
    ensures front != [] && front[|front| - 1] == DQUOTE
  {
    hide Inside;
  }

  lemma {:induction false} BarredSettles(cp: CodePage, st: Reader, hasNewline: bool, tail: wstring, front: wstring,
      name: wstring)
    requires Bars(front, name) && front <= st.logical
    ensures var r := Continued(cp, st, hasNewline, tail); r.Some? ==> IsOtherAt(r.value, |st.handler.output|, name)
    decreases |tail|, 1
  {
    hide *;
    var logical := st.logical;
    SettledIs(cp, st, hasNewline, tail);
    BarsEnds(front, name);
    if st.quoted && hasNewline {
      if IsWrap(logical, tail) {
        WrapEnds(logical, tail);
        LastIsNoQuote(logical);
        BarredRead(cp, tail[2..], Reader(logical[..|logical| - 1], false, true, !st.escaped, st.handler), front, name);
      } else {
        BarredRead(cp, tail, Reader(logical + [LF], false, true, st.escaped, st.handler), front, name);
      }
    } else {
      DropBlanksDrops(logical);
      var solid := DropBlanks(logical);
      if !st.quoted && solid != [] && solid[|solid| - 1] == BACKSLASH {
        LastIsNoQuote(solid);
        BarredRead(cp, tail, Reader(solid[..|solid| - 1], true, st.quoted, st.escaped, st.handler), front, name);
      } else {
        BarredEnds(cp, st.handler, solid, tail, front, name);
      }
    }
  }

  lemma NoAfter(cp: CodePage, h: Handler, line: wstring, tail: wstring)
    requires Handle(cp, h, line).None?
    ensures After(cp, h, line, tail).None?
  {
    hide ReadFrom, Handle;
  }

  lemma ReadNothing(cp: CodePage, st: Reader)
    requires st.logical != []
    ensures ReadFrom(cp, [], st) == if Handle(cp, st.handler, st.logical).None? then None
                                    else Some(Handle(cp, st.handler, st.logical).value.output)
  {
    hide Handle;
  }

  lemma {:induction false} BarredRead(cp: CodePage, content: wstring, st: Reader, front: wstring, name: wstring)
    requires Bars(front, name) && front <= st.logical
    ensures var r := ReadFrom(cp, content, st); r.Some? ==> IsOtherAt(r.value, |st.handler.output|, name)
    decreases |content|, 0
  {
    hide ReadFrom, Handle, IsOtherAt, Joined, StripCr, Find, Settle, Inside, Bars;
    BarsEnds(front, name);
    if content == [] {
      ReadNothing(cp, st);
      BarredName(front, st.logical, name);
      if Handle(cp, st.handler, st.logical).Some? {
        NameIsInside(cp, st.handler, st.logical);
        OtherIs(Handle(cp, st.handler, st.logical).value.output, |st.handler.output|, name);
      }
    } else {
      UnfoldReadStep(cp, content, st);
      var end := Find(content, LF, 0);
      var physical := if end == -1 then content else content[..end];
      var tail := if end == -1 then [] else content[end + 1..];
      JoinedKeeps(st, StripCr(physical));
      BarredSettles(cp, Joined(st, StripCr(physical)), end != -1, tail, front, name);
    }
  }

  // ----- while the name that is read lags behind the one that was written

  /** The read part `p` and the written part `c` of a name agree up to i, where c goes on otherwise, with no quote. */
  predicate LagsAt(p: wstring, c: wstring, i: nat) {
    i <= |p| && i < |c| && p[..i] == c[..i] && (i < |p| ==> p[i] != c[i]) && DQUOTE !in c[i..]
  }

  predicate Lags(p: wstring, c: wstring) {
    exists i :: 0 <= i <= |p| && LagsAt(p, c, i)
  }

  lemma LagsSkip(p: wstring, c: wstring, more: wstring)
    requires Lags(p, c) && DQUOTE !in more
    ensures Lags(p, c + more)
  {
    var i :| 0 <= i <= |p| && LagsAt(p, c, i);
    assert (c + more)[i..] == c[i..] + more && (c + more)[..i] == c[..i];
    assert LagsAt(p, c + more, i);
  }

  lemma LagsLess(p: wstring, q: wstring, c: wstring)
    requires Lags(p, c) && q <= p && DQUOTE !in p[|q|..]
    ensures Lags(q, c)
  {
    var i :| 0 <= i <= |p| && LagsAt(p, c, i);
    if i <= |q| {
      assert q[..i] == p[..i];
      assert LagsAt(q, c, i);
    } else {
      forall k | |q| <= k < |c| ensures c[k] != DQUOTE {
        if k < i {
          assert c[k] == c[..i][k] == p[..i][k] == p[k] == p[|q|..][k - |q|];
        } else {
          assert c[k] == c[i..][k - i];
        }
      }
      assert q[..|q|] == p[..i][..|q|] == c[..i][..|q|] == c[..|q|];
      assert LagsAt(q, c, |q|);
    }
  }

  lemma LagsStep(p: wstring, c: wstring, read: wchar, written: wchar)
    requires Lags(p, c) && written != DQUOTE
    ensures Lags(p + [read], c + [written])
  {
    var i :| 0 <= i <= |p| && LagsAt(p, c, i);
    var q, d := p + [read], c + [written];
    var j := if i == |p| && read == c[i] then i + 1 else i;
    assert forall k :: j <= k < |d| ==> d[k] != DQUOTE by {
      forall k | j <= k < |d| ensures d[k] != DQUOTE { if k < |c| { assert c[k] == c[i..][k - i]; } }
    }
    assert q[..j] == d[..j] by {
      assert q[..i] == p[..i] == c[..i] == d[..i];
      if j == i + 1 { assert q[..j] == q[..i] + [read] && d[..j] == d[..i] + [read]; }
    }
    assert LagsAt(q, d, j);
  }

  /** A quote where the name has none. */
  lemma LagsQuote(p: wstring, c: wstring, name: wstring)
    requires Lags(p, c) && c <= name
    ensures !(p + [DQUOTE] <= name)
  {
    var i :| 0 <= i <= |p| && LagsAt(p, c, i);
    assert c[i] == c[i..][0] && c[i] == name[i];
  }

  /** The name ends too early. */
  lemma LagsEnds(p: wstring, c: wstring, name: wstring)
    requires Lags(p, c) && c <= name
    ensures p != name
    ensures c + [DQUOTE] <= name ==> p + [BACKSLASH] != name
  {
    var i :| 0 <= i <= |p| && LagsAt(p, c, i);
    assert c[i] == name[i];
  }

  /** After a stretch of the name: barred by the front, if there is one, or still open and lagging. */
  predicate Goes(logical: wstring, c: wstring, front: wstring, name: wstring) {
    if front != [] then Bars(front, name) && front <= logical else IsOpen(logical) && Lags(Inside(logical).out, c)
  }

  lemma GoesOpen(logical: wstring, c: wstring, name: wstring)
    requires IsOpen(logical) && Lags(Inside(logical).out, c)
    ensures Goes(logical, c, [], name)
  {
    hide Inside, Lags;
  }

  lemma GoesBarred(logical: wstring, c: wstring, name: wstring)
    requires logical != [] && logical[0] == DQUOTE && |logical| >= 2 && logical[|logical| - 1] == DQUOTE
    requires var d := Inside(logical); if d.closed then d.out != name else !(d.out <= name)
    ensures Goes(logical, c, logical, name)
  {
    hide Inside, Lags;
  }

  lemma EscapeOne(b: wchar)
    ensures Escape([b]) == if b == BACKSLASH || b == DQUOTE then [BACKSLASH, b] else [b]
  {
    assert [b][1..] == [];
  }

  lemma DecodeOne(b: wchar, escaped: bool, out: wstring)
    ensures Decode([b], escaped, out)
            == if escaped then Decoded(out + [Unescaped(b)], false, false)
               else if b == BACKSLASH then Decoded(out, true, false)
               else if b == DQUOTE then Decoded(out, false, true)
               else Decoded(out + [b], false, false)
  {
    assert [b][1..] == [];
    hide Unescaped;
  }

  /** The reader goes over one escaped unit of the name. */
  lemma FeedUnit(logical: wstring, c: wstring, b: wchar, name: wstring) returns (front: wstring)
    requires IsOpen(logical) && Lags(Inside(logical).out, c) && c + [b] <= name
    ensures Goes(logical + Escape([b]), c + [b], front, name)
  {
    hide Decode, Inside, Lags, Bars, Goes, Escape, Unescaped;
    OpenFacts(logical);
    EscapeOne(b);
    var d := Inside(logical);
    InsideConcat(logical, Escape([b]));
    front := [];
    if b != BACKSLASH && b != DQUOTE {
      DecodeOne(b, d.escaped, d.out);
      LagsStep(d.out, c, if d.escaped then Unescaped(b) else b, b);
      GoesOpen(logical + [b], c + [b], name);
    } else {
      DecodeTwo(b, d.escaped, d.out);
      var next := logical + [BACKSLASH, b];
      if b == BACKSLASH {
        LagsStep(d.out, c, b, b);
        GoesOpen(next, c + [b], name);
      } else {
        LagsQuote(d.out, c, name);
        LagsEnds(d.out, c, name);
        GoesBarred(next, c + [b], name);
        front := next;
      }
    }
  }

  lemma OpenFacts(logical: wstring)
    requires IsOpen(logical)
    ensures logical != [] && logical[0] == DQUOTE && !Inside(logical).closed
  {}

  lemma DecodeTwo(b: wchar, escaped: bool, out: wstring)
    requires b == BACKSLASH || b == DQUOTE
    ensures var d := Decode([BACKSLASH, b], escaped, out);
            if !escaped then d == Decoded(out + [b], false, false)
            else if b == BACKSLASH then d == Decoded(out + [BACKSLASH], true, false)
            else d == Decoded(out + [BACKSLASH], false, true)
  {
    assert [BACKSLASH] + [b] == [BACKSLASH, b];
    DecodeConcat([BACKSLASH], [b], escaped, out);
    DecodeOne(BACKSLASH, escaped, out);
    hide Unescaped, Decode;
    var d := Decode([BACKSLASH], escaped, out);
    DecodeOne(b, d.escaped, d.out);
  }

  /** The reader goes over a stretch of the name. */
  lemma {:induction false} Feed(logical: wstring, c: wstring, b: wstring, name: wstring) returns (front: wstring)
    requires IsOpen(logical) && Lags(Inside(logical).out, c) && c + b <= name
    ensures Goes(logical + Escape(b), c + b, front, name)
    decreases |b|
  {
    hide *;
    if b == [] {
      NothingEscapes();
      assert logical + [] == logical && c + [] == c;
      front := [];
      GoesOpen(logical, c, name);
    } else {
      SplitFeed(logical, c, b, name);
      front := FeedUnit(logical, c, b[0], name);
      var next := logical + Escape([b[0]]);
      if front == [] {
        GoesIs(next, c + [b[0]], front, name);
        front := Feed(next, c + [b[0]], b[1..], name);
      } else {
        GoesIs(next, c + [b[0]], front, name);
        BarredGoes(next + Escape(b[1..]), c + b, front, name);
      }
    }
  }

  lemma NothingEscapes()
    ensures Escape([]) == []
  {}

  lemma GoesIs(logical: wstring, c: wstring, front: wstring, name: wstring)
    requires Goes(logical, c, front, name)
    ensures if front == [] then IsOpen(logical) && Lags(Inside(logical).out, c)
            else Bars(front, name) && front <= logical
    ensures front == [] ==> logical != []
  {
    hide Inside, Lags, Bars;
  }

  lemma BarredGoes(logical: wstring, c: wstring, front: wstring, name: wstring)
    requires front != [] && Bars(front, name) && front <= logical
    ensures Goes(logical, c, front, name)
  {
    hide Bars;
  }

  lemma SplitFeed(logical: wstring, c: wstring, b: wstring, name: wstring)
    requires b != [] && c + b <= name
    ensures c + [b[0]] <= name && (c + [b[0]]) + b[1..] == c + b
    ensures logical + Escape(b) == (logical + Escape([b[0]])) + Escape(b[1..])
  {
    hide Escape;
    Continues(c + [b[0]], b[1..], name);
    EscapeConcat([b[0]], b[1..]);
    assert [b[0]] + b[1..] == b;
    ConcatAssoc(logical, Escape([b[0]]), Escape(b[1..]));
  }

  lemma Continues(a: wstring, b: wstring, name: wstring)
    requires a + b <= name
    ensures a <= name
  {}

  // ----- physical lines of such a name

  /** What goes from the end of a logical line. */
  predicate IsErodible(text: wstring) {
    forall i :: 0 <= i < |text| ==> text[i] == BACKSLASH || IsBlankUnit(text[i])
  }

  lemma {:induction false} DecodeErodible(text: wstring, escaped: bool, out: wstring)
    requires IsErodible(text)
    ensures var d := Decode(text, escaped, out); !d.closed && out <= d.out && DQUOTE !in d.out[|out|..]
    decreases |text|
  {
    if text != [] {
      var unit := if escaped then Unescaped(text[0]) else text[0];
      if !escaped && text[0] == BACKSLASH {
        DecodeErodible(text[1..], true, out);
      } else {
        DecodeErodible(text[1..], false, out + [unit]);
        var d := Decode(text[1..], false, out + [unit]);
        assert d.out[|out|] == unit && d.out[|out|..] == [unit] + d.out[|out| + 1..];
      }
    }
  }

  /** A line that loses some of its end still lags. */
  lemma ErodeOpen(logical: wstring, kept: wstring, c: wstring)
    requires IsOpen(logical) && Lags(Inside(logical).out, c) && kept <= logical && IsErodible(logical[|kept|..])
    ensures IsOpen(kept) && Lags(Inside(kept).out, c)
  {
    QuoteIsSolid();
    var gone := logical[|kept|..];
    assert gone != [] ==> gone[0] == logical[|kept|];
    var d := Inside(kept);
    assert kept + gone == logical;
    InsideConcat(kept, gone);
    DecodeErodible(gone, d.escaped, d.out);
    LagsLess(Inside(logical).out, d.out, c);
    hide Decode, Lags;
  }

  lemma {:induction false} DropBlanksErodes(text: wstring)
    ensures var r := DropBlanks(text); r <= text && IsErodible(text[|r|..])
    decreases |text|
  {
    if text != [] && IsBlankUnit(text[|text| - 1]) {
      var head := text[..|text| - 1];
      DropBlanksErodes(head);
      var r := DropBlanks(head);
      assert text[|r|..] == head[|r|..] + [text[|text| - 1]];
    }
  }

  /** What is kept of an escaped stretch of a name at the start and the end of a physical line. */
  lemma {:induction false} StripBlanksEscaped(text: wstring, rest: wstring) returns (n: nat)
    requires rest == [] || rest[0] == DQUOTE
    ensures n <= |text| && DQUOTE !in text[..n] && StripBlanks(Escape(text) + rest) == Escape(text[n..]) + rest
    decreases |text|
  {
    hide *;
    n := 0;
    if text == [] {
      NothingEscapes();
      NoBlankStripped(rest);
      assert [] + rest == rest;
    } else {
      FrontStripped(text, rest);
      if IsBlankUnit(text[0]) {
        var m := StripBlanksEscaped(text[1..], rest);
        QuoteIsSolid();
        n := m + 1;
        assert text[..n] == [text[0]] + text[1..][..m] && text[1..][m..] == text[n..];
      } else {
        assert text[0..] == text;
      }
    }
  }

  lemma FrontStripped(text: wstring, rest: wstring)
    requires text != []
    ensures StripBlanks(Escape(text) + rest)
            == if IsBlankUnit(text[0]) then StripBlanks(Escape(text[1..]) + rest) else Escape(text) + rest
  {
    hide Escape, StripBlanks, IsBlankUnit;
    EscapeFront(text);
    var e := Escape(text) + rest;
    assert e[0] == Escape(text)[0];
    StripBlanksStep(e);
    if IsBlankUnit(text[0]) { assert e[1..] == Escape(text[1..]) + rest; }
  }

  lemma NoBlankStripped(rest: wstring)
    requires rest == [] || rest[0] == DQUOTE
    ensures StripBlanks(rest) == rest
  {}

  lemma StripBlanksStep(text: wstring)
    requires text != []
    ensures StripBlanks(text) == if IsBlankUnit(text[0]) then StripBlanks(text[1..]) else text
  {}

  lemma EscapeFront(text: wstring)
    requires text != []
    ensures Escape(text) != []
    ensures if IsBlankUnit(text[0]) then Escape(text) == [text[0]] + Escape(text[1..])
            else !IsBlankUnit(Escape(text)[0])
  {}

  /** A physical line inside the name, joined. */
  lemma StretchJoined(st: Reader, c: wstring, a: wstring, name: wstring) returns (front: wstring)
    requires IsOpen(st.logical) && Lags(Inside(st.logical).out, c) && c + a <= name
    ensures var j := Joined(st, StripCr(Escape(a))); j.handler == st.handler && Goes(j.logical, c + a, front, name)
  {
    hide *;
    OpenFacts(st.logical);
    var kept := StripCr(a);
    CrIsGone(a);
    JoinedKeeps(st, Escape(kept));
    assert Escape(kept) + [] == Escape(kept);
    var n := 0;
    if st.continuing { n := StripBlanksEscaped(kept, []); }
    var skipped, middle := kept[..n], kept[n..];
    assert skipped == [] ==> DQUOTE !in skipped;
    assert kept == skipped + middle && a == kept + a[|kept|..];
    var before := c + skipped;
    LagsSkip(Inside(st.logical).out, c, skipped);
    StretchParts(c, skipped, middle, a[|kept|..], name);
    assert Escape(middle) + [] == Escape(middle);
    front := Feed(st.logical, before, middle, name);
    GoesOn(st.logical + Escape(middle), before + middle, a[|kept|..], front, name);
  }

  lemma CrIsGone(a: wstring)
    ensures StripCr(Escape(a)) == Escape(StripCr(a)) && StripCr(a) <= a && DQUOTE !in a[|StripCr(a)|..]
  {
    StripEscaped([], a);
    assert [] + Escape(a) == Escape(a) && [] + Escape(StripCr(a)) == Escape(StripCr(a));
    hide Escape;
  }

  lemma StretchParts(c: wstring, skipped: wstring, middle: wstring, end: wstring, name: wstring)
    requires c + ((skipped + middle) + end) <= name
    ensures (c + skipped) + middle <= name && ((c + skipped) + middle) + end == c + ((skipped + middle) + end)
  {
    assert ((c + skipped) + middle) + end == c + ((skipped + middle) + end);
    assert (c + skipped) + middle <= ((c + skipped) + middle) + end;
  }

  /** More of the name is left out. */
  lemma GoesOn(logical: wstring, c: wstring, more: wstring, front: wstring, name: wstring)
    requires Goes(logical, c, front, name) && DQUOTE !in more
    ensures Goes(logical, c + more, front, name)
  {
    hide Inside, Lags, Bars;
    if front == [] { LagsSkip(Inside(logical).out, c, more); }
  }

  /** The rest of a name, its closing quote, and all behind it. */
  function RestOf(b: wstring, w: wstring): wstring {
    Escape(b) + ([DQUOTE, EQUALS] + w)
  }

  lemma FirstBreak(cp: CodePage, st: Reader, line: wstring, rest: wstring)
    requires LF !in line
    ensures ReadFrom(cp, line + ([LF] + rest), st) == Continued(cp, Joined(st, StripCr(line)), true, rest)
  {
    hide ReadFrom, Joined, StripCr, Find, Settle;
    CutAt(line, rest);
    UnfoldReadStep(cp, line + ([LF] + rest), st);
  }

  /** The physical line that a name ends on. */
  lemma LastPhysical(cp: CodePage, st: Reader, e: wstring, w: wstring)
    returns (first: wstring, tail: wstring, hasNewline: bool)
    requires LF !in e
    ensures ReadFrom(cp, e + ([DQUOTE, EQUALS] + w), st)
            == Continued(cp, Joined(st, StripCr(e + ([DQUOTE, EQUALS] + first))), hasNewline, tail)
  {
    hide ReadFrom, Joined, StripCr, Find, Settle;
    var content := e + ([DQUOTE, EQUALS] + w);
    var i := Find(w, LF, 0);
    UnfoldReadStep(cp, content, st);
    if i == -1 {
      assert LF !in content;
      first, tail, hasNewline := w, [], false;
    } else {
      first, tail, hasNewline := w[..i], w[i + 1..], true;
      var line := e + ([DQUOTE, EQUALS] + first);
      assert w == first + ([LF] + tail);
      assert content == line + ([LF] + tail);
      CutAt(line, tail);
    }
  }

  /** What is left of a name is never read so that the whole name comes back. */
  lemma {:induction false} OpenRead(cp: CodePage, st: Reader, c: wstring, b: wstring, w: wstring)
    requires IsOpen(st.logical) && Lags(Inside(st.logical).out, c)
    ensures var r := ReadFrom(cp, RestOf(b, w), st); r.Some? ==> IsOtherAt(r.value, |st.handler.output|, c + b)
    decreases |b|, 0
  {
    hide *;
    var name, i := c + b, Find(b, LF, 0);
    CutName(b);
    RestIs(b, w);
    if i == -1 {
      EscapeHasNoBreak(b);
      var first, tail, hasNewline := LastPhysical(cp, st, Escape(b), w);
      LastLine(cp, st, c, b, first, tail, hasNewline);
    } else {
      var line, rest := b[..i], b[i + 1..];
      EscapeHasNoBreak(line);
      EscapeParts(line, rest);
      BreakParts([], Escape(line), Escape(rest), [DQUOTE, EQUALS] + w);
      NothingBefore(Escape(line));
      NothingBefore(Escape(b) + ([DQUOTE, EQUALS] + w));
      RestIs(rest, w);
      FirstBreak(cp, st, Escape(line), RestOf(rest, w));
      LineParts(c, line, rest, b);
      var front := StretchJoined(st, c, line, name);
      var joined := Joined(st, StripCr(Escape(line)));
      GoesIs(joined.logical, c + line, front, name);
      if front != [] {
        BarredSettles(cp, joined, true, RestOf(rest, w), front, name);
      } else {
        OpenSettles(cp, joined, c + line, rest, w);
      }
    }
  }

  lemma RestIs(b: wstring, w: wstring)
    ensures RestOf(b, w) == Escape(b) + ([DQUOTE, EQUALS] + w)
  {}

  lemma LineParts(c: wstring, line: wstring, rest: wstring, b: wstring)
    requires b == line + ([LF] + rest)
    ensures c + line <= c + b && c + b == ((c + line) + [LF]) + rest && |rest| < |b|
  {
    assert c + b == ((c + line) + [LF]) + rest;
    assert c + b == (c + line) + ([LF] + rest);
  }

  /** The end of a physical line inside the name, however the reader takes it. */
  lemma {:induction false} OpenSettles(cp: CodePage, st: Reader, c: wstring, b: wstring, w: wstring)
    requires IsOpen(st.logical) && Lags(Inside(st.logical).out, c)
    ensures var r := Continued(cp, st, true, RestOf(b, w));
            r.Some? ==> IsOtherAt(r.value, |st.handler.output|, (c + [LF]) + b)
    decreases |b|, 1
  {
    hide *;
    var tail, logical, name := RestOf(b, w), st.logical, (c + [LF]) + b;
    SettledIs(cp, st, true, tail);
    OpenFacts(logical);
    WrapUnits();
    LagsSkip(Inside(logical).out, c, [LF]);
    if st.quoted {
      if IsWrap(logical, tail) {
        WrapEnds(logical, tail);
        var kept := logical[..|logical| - 1];
        assert logical[|kept|..] == [BACKSLASH] && kept <= logical;
        ErodeOpen(logical, kept, c);
        SpacesOf(b, w);
        OpenFacts(kept);
        LagsSkip(Inside(kept).out, c, [LF, SPACE, SPACE]);
        OpenRead(cp, Reader(kept, false, true, !st.escaped, st.handler), c + [LF, SPACE, SPACE], b[2..], w);
        assert (c + [LF, SPACE, SPACE]) + b[2..] == name by { assert b == [SPACE, SPACE] + b[2..]; }
      } else {
        BreakFed(logical, c);
        OpenRead(cp, Reader(logical + [LF], false, true, st.escaped, st.handler), c + [LF], b, w);
      }
    } else {
      DropBlanksErodes(logical);
      var solid := DropBlanks(logical);
      ErodeOpen(logical, solid, c + [LF]);
      OpenFacts(solid);
      if solid[|solid| - 1] == BACKSLASH {
        var kept := solid[..|solid| - 1];
        assert solid[|kept|..] == [BACKSLASH] && kept <= solid;
        ErodeOpen(solid, kept, c + [LF]);
        OpenRead(cp, Reader(kept, true, st.quoted, st.escaped, st.handler), c + [LF], b, w);
      } else {
        OpenEnds(cp, st.handler, solid, tail);
      }
    }
  }

  lemma WrapUnits()
    ensures DQUOTE !in [LF] && DQUOTE !in [LF, SPACE, SPACE] && IsErodible([BACKSLASH])
  {}

  /** The spaces of a wrap are the name's. */
  lemma SpacesOf(b: wstring, w: wstring)
    requires var tail := RestOf(b, w); |tail| >= 2 && tail[0] == SPACE && tail[1] == SPACE
    ensures |b| >= 2 && b == [SPACE, SPACE] + b[2..] && RestOf(b, w)[2..] == RestOf(b[2..], w)
  {
    var tail, behind := RestOf(b, w), [DQUOTE, EQUALS] + w;
    if b != [] {
      assert tail[0] == Escape(b)[0];
      if |b| > 1 {
        assert Escape(b) == [SPACE] + Escape(b[1..]) && tail[1] == Escape(b)[1];
      }
    }
  }

  /** A line break that stays in the name. */
  lemma BreakFed(logical: wstring, c: wstring)
    requires IsOpen(logical) && Lags(Inside(logical).out, c)
    ensures IsOpen(logical + [LF]) && Lags(Inside(logical + [LF]).out, c + [LF])
  {
    var d := Inside(logical);
    InsideConcat(logical, [LF]);
    DecodeOne(LF, d.escaped, d.out);
    LagsStep(d.out, c, if d.escaped then Unescaped(LF) else LF, LF);
    hide Decode, Lags, Unescaped;
  }

  /** A logical line may not end inside its name. */
  lemma OpenEnds(cp: CodePage, h: Handler, line: wstring, tail: wstring)
    requires IsOpen(line)
    ensures After(cp, h, line, tail).None?
  {
    hide *;
    OpenFacts(line);
    if Handle(cp, h, line).Some? { NameIsInside(cp, h, line); }
    NoAfter(cp, h, line, tail);
  }

  /** The line the name ends on: its quote closes another name, or stands where the name has none. */
  lemma LastLine(cp: CodePage, st: Reader, c: wstring, b: wstring, first: wstring, tail: wstring, hasNewline: bool)
    requires IsOpen(st.logical) && Lags(Inside(st.logical).out, c)
    ensures var r := Continued(cp, Joined(st, StripCr(Escape(b) + ([DQUOTE, EQUALS] + first))), hasNewline, tail);
            r.Some? ==> IsOtherAt(r.value, |st.handler.output|, c + b)
  {
    hide *;
    OpenFacts(st.logical);
    var name, line := c + b, StripCr(first);
    var behind := [DQUOTE, EQUALS] + line;
    SignEnds(Escape(b), first);
    var joined := Joined(st, Escape(b) + behind);
    JoinedKeeps(st, Escape(b) + behind);
    QuoteIsFirst(line);
    var n := 0;
    if st.continuing { n := StripBlanksEscaped(b, behind); }
    SkippedParts(c, b, n);
    var skipped, middle := b[..n], b[n..];
    LagsSkip(Inside(st.logical).out, c, skipped);
    var front := Feed(st.logical, c + skipped, middle, name);
    var fed := st.logical + Escape(middle);
    GoesIs(fed, name, front, name);
    if front == [] { front := QuoteBars(fed, name); }
    BarredSettles(cp, joined, hasNewline, tail, front, name);
  }

  lemma SkippedParts(c: wstring, b: wstring, n: nat)
    requires n <= |b|
    ensures (c + b[..n]) + b[n..] == c + b
    ensures n == 0 ==> DQUOTE !in b[..n] && b[n..] == b
  {}

  /** The closing quote of a name that lags. */
  lemma QuoteBars(logical: wstring, name: wstring) returns (front: wstring)
    requires IsOpen(logical) && Lags(Inside(logical).out, name)
    ensures front == logical + [DQUOTE] && Bars(front, name)
  {
    front := logical + [DQUOTE];
    var d := Inside(logical);
    InsideConcat(logical, [DQUOTE]);
    DecodeOne(DQUOTE, d.escaped, d.out);
    LagsQuote(d.out, name, name);
    LagsEnds(d.out, name, name);
    hide Decode, Lags, Unescaped;
  }

  lemma SignEnds(e: wstring, first: wstring)
    ensures StripCr(e + ([DQUOTE, EQUALS] + first)) == e + ([DQUOTE, EQUALS] + StripCr(first))
  {
    var all := e + ([DQUOTE, EQUALS] + first);
    if first == [] {
      assert all[|all| - 1] == EQUALS;
    } else {
      assert all[|all| - 1] == first[|first| - 1];
      assert all[..|all| - 1] == e + ([DQUOTE, EQUALS] + first[..|first| - 1]);
    }
  }

  // ----- a name with a wrap in it

  lemma BreakAtWrap(cp: CodePage, st: Reader, line: wstring, rest: wstring)
    requires LF !in line
    requires var j := Joined(st, StripCr(line)); j.quoted && IsWrap(j.logical, rest)
    ensures var j := Joined(st, StripCr(line));
            ReadFrom(cp, line + ([LF] + rest), st)
            == ReadFrom(cp, rest[2..], Reader(j.logical[..|j.logical| - 1], false, true, !j.escaped, st.handler))
  {
    hide ReadFrom, Handle, DropBlanks, ScanQuotes, CountsQuotes, StripBlanks, Find, StripCr;
    CutAt(line, rest);
    UnfoldReadStep(cp, line + ([LF] + rest), st);
  }

  lemma WrapJoined(logical: wstring, pre: wstring, a: wstring, b: wstring, after: wstring)
    requires IsWrap(a, b)
    ensures IsWrap(logical + (pre + Escape(a)), Escape(b) + after)
    ensures (Escape(b) + after)[2..] == Escape(b[2..]) + after && |Escape(b)| == |Escape(b[2..])| + 2
  {
    EscapeEnds(a);
    hide Escape;
    var e := logical + (pre + Escape(a));
    assert e[|e| - 1] == Escape(a)[|Escape(a)| - 1];
  }

  /** The reader behind a wrap. */
  function BehindWrap(st: Reader, pre: wstring, kept: wstring): Reader
    requires st.logical + (pre + kept) != []
  {
    var logical := st.logical + (pre + kept);
    Reader(logical[..|logical| - 1], false, true, true, st.handler)
  }

  /** A line break that is a wrap is taken out of the name, with the backslash before it and the spaces behind it. */
  lemma WrapBreaks(cp: CodePage, st: Reader, pre: wstring, a: wstring, b: wstring, after: wstring)
    requires InName(st, pre) && LF !in a && IsWrap(StripCr(a), b)
    ensures st.logical + (pre + Escape(StripCr(a))) != []
    ensures ReadFrom(cp, (pre + Escape(a)) + ([LF] + (Escape(b) + after)), st)
            == ReadFrom(cp, Escape(b[2..]) + after, BehindWrap(st, pre, Escape(StripCr(a))))
  {
    hide *;
    OpenName(st, pre);
    StripEscaped(pre, a);
    EscapeHasNoBreak(a);
    JoinedName(st, pre, StripCr(a));
    WrapJoined(st.logical, pre, StripCr(a), b, after);
    NoBreakConcat(pre, Escape(a));
    BreakAtWrap(cp, st, pre + Escape(a), Escape(b) + after);
    BehindIs(st, pre, Escape(StripCr(a)));
  }

  lemma BehindIs(st: Reader, pre: wstring, kept: wstring)
    requires st.logical + (pre + kept) != []
    ensures var logical := st.logical + (pre + kept);
            BehindWrap(st, pre, kept) == Reader(logical[..|logical| - 1], false, true, true, st.handler)
  {}

  lemma {:induction false} DecodeEscaped(text: wstring, out: wstring)
    ensures Decode(Escape(text), false, out) == Decoded(out + text, false, false)
    decreases |text|
  {
    hide Decode, Escape, Unescaped;
    if text == [] {
      NothingEscapes();
      NothingDecoded(out);
      assert out + [] == out;
    } else {
      var b, e := text[0], Escape([text[0]]);
      assert [b] + text[1..] == text;
      EscapeConcat([b], text[1..]);
      EscapeOne(b);
      DecodeConcat(e, Escape(text[1..]), false, out);
      if b == BACKSLASH || b == DQUOTE { DecodeTwo(b, false, out); } else { DecodeOne(b, false, out); }
      DecodeEscaped(text[1..], out + [b]);
      assert (out + [b]) + text[1..] == out + text;
    }
  }

  lemma NothingDecoded(out: wstring)
    ensures Decode([], false, out) == Decoded(out, false, false)
  {}

  /** The logical line spells `read` so far. */
  predicate Spells(logical: wstring, read: wstring) {
    logical != [] && logical[0] == DQUOTE && Inside(logical) == Decoded(read, false, false)
  }

  lemma SpellsMore(logical: wstring, read: wstring, more: wstring)
    requires Spells(logical, read)
    ensures Spells(logical + Escape(more), read + more)
  {
    InsideConcat(logical, Escape(more));
    DecodeEscaped(more, read);
    hide Decode, Escape;
  }

  lemma SpellsBreak(logical: wstring, read: wstring)
    requires Spells(logical, read)
    ensures Spells(logical + [LF], read + [LF])
  {
    InsideConcat(logical, [LF]);
    DecodeOne(LF, false, read);
    hide Decode;
  }

  lemma SpellsIsOpen(logical: wstring, read: wstring)
    requires Spells(logical, read)
    ensures IsOpen(logical) && Inside(logical).out == read && logical != []
  {
    hide Inside;
  }

  /** Behind a wrap the backslash before it is not read yet. */
  lemma SpellsLess(logical: wstring, read: wstring, kept: wstring)
    requires Spells(logical, read) && kept != [] && kept[|kept| - 1] == BACKSLASH
    ensures var e := logical + Escape(kept);
            e != [] && IsOpen(e[..|e| - 1]) && Inside(e[..|e| - 1]).out == read + kept[..|kept| - 1]
  {
    hide Decode, Escape, Inside;
    var front := kept[..|kept| - 1];
    EscapedBackslash(logical, kept);
    SpellsMore(logical, read, front);
    var f := logical + Escape(front);
    SpellsIsOpen(f, read + front);
    InsideConcat(f, [BACKSLASH]);
    DecodeOne(BACKSLASH, false, read + front);
  }

  lemma EscapedBackslash(logical: wstring, kept: wstring)
    requires kept != [] && kept[|kept| - 1] == BACKSLASH
    ensures var e := logical + Escape(kept);
            e != [] && e[..|e| - 1] == (logical + Escape(kept[..|kept| - 1])) + [BACKSLASH]
  {
    hide Escape;
    var front := kept[..|kept| - 1];
    assert kept == front + [BACKSLASH];
    EscapeConcat(front, [BACKSLASH]);
    EscapeOne(BACKSLASH);
  }

  lemma LagsBehind(p: wstring, more: wstring)
    requires more != [] && DQUOTE !in more
    ensures Lags(p, p + more)
  {
    assert (p + more)[|p|..] == more && (p + more)[..|p|] == p;
    assert p[..|p|] == p;
    assert LagsAt(p, p + more, |p|);
  }

  lemma LagsByCr(p: wstring)
    ensures Lags(p + [LF], p + [CR, LF])
  {
    var q, c := p + [LF], p + [CR, LF];
    assert q[..|p|] == c[..|p|] == p && c[|p|..] == [CR, LF];
    assert LagsAt(q, c, |p|);
  }

  lemma CrParts(a: wstring)
    ensures a == StripCr(a) || a == StripCr(a) + [CR]
  {}

  /** A name with a wrap in it is read as another one, whatever stands behind it, or the file is refused. */
  lemma {:induction false} WrapIsLost(cp: CodePage, st: Reader, pre: wstring, read: wstring, name: wstring, w: wstring)
    requires InName(st, pre) && Spells(st.logical + pre, read) && !WrapFree(name)
    ensures var r := ReadFrom(cp, pre + RestOf(name, w), st);
            r.Some? ==> IsOtherAt(r.value, |st.handler.output|, read + name)
    decreases |name|
  {
    hide *;
    UnfoldCollapsed(name);
    CutName(name);
    RestIs(name, w);
    var i := Find(name, LF, 0);
    var a, b, after := name[..i], name[i + 1..], [DQUOTE, EQUALS] + w;
    var kept := StripCr(a);
    EscapeParts(a, b);
    BreakParts(pre, Escape(a), Escape(b), after);
    CrParts(a);
    QuoteIsFirst(w);
    ConcatAssoc(st.logical, pre, Escape(kept));
    SpellsMore(st.logical + pre, read, kept);
    NameParts(read, a, b, name);
    if IsWrap(kept, b) {
      WrapRead(cp, st, pre, read, a, b, w);
    } else {
      NameBreaks(cp, st, pre, a, b, after);
      var line := (st.logical + (pre + Escape(kept))) + [LF];
      var next := Reader(line, false, true, false, st.handler);
      SpellsBreak(st.logical + (pre + Escape(kept)), read + kept);
      RestIs(b, w);
      if kept == a {
        InNameAgain(st, pre, Escape(kept));
        assert line + [] == line;
        NothingBefore(RestOf(b, w));
        WrapIsLost(cp, next, [], (read + a) + [LF], b, w);
      } else {
        SpellsIsOpen(line, (read + kept) + [LF]);
        LagsByCr(read + kept);
        assert (read + kept) + [CR, LF] == (read + a) + [LF];
        OpenRead(cp, next, (read + a) + [LF], b, w);
      }
    }
  }

  lemma QuoteIsFirst(w: wstring)
    ensures [DQUOTE, EQUALS] + w != [] && ([DQUOTE, EQUALS] + w)[0] == DQUOTE
  {}

  lemma NameParts(read: wstring, a: wstring, b: wstring, name: wstring)
    requires name == a + ([LF] + b)
    ensures ((read + a) + [LF]) + b == read + name && |b| < |name|
  {}

  /** The first wrap: from here on the name lags. */
  lemma WrapRead(cp: CodePage, st: Reader, pre: wstring, read: wstring, a: wstring, b: wstring, w: wstring)
    requires InName(st, pre) && Spells(st.logical + pre, read) && LF !in a && IsWrap(StripCr(a), b)
    ensures var r := ReadFrom(cp, (pre + Escape(a)) + ([LF] + (Escape(b) + ([DQUOTE, EQUALS] + w))), st);
            r.Some? ==> IsOtherAt(r.value, |st.handler.output|, ((read + a) + [LF]) + b)
  {
    hide *;
    var kept := StripCr(a);
    CrParts(a);
    WrapBreaks(cp, st, pre, a, b, [DQUOTE, EQUALS] + w);
    WrapEnds(kept, b);
    RestIs(b[2..], w);
    ConcatAssoc(st.logical, pre, Escape(kept));
    SpellsLess(st.logical + pre, read, kept);
    BehindIs(st, pre, Escape(kept));
    var front := kept[..|kept| - 1];
    var gone := a[|front|..] + [LF, SPACE, SPACE];
    GoneHasNoQuote(a);
    LagsBehind(read + front, gone);
    assert a == front + a[|front|..] && b == [SPACE, SPACE] + b[2..];
    assert ((read + front) + gone) + b[2..] == ((read + a) + [LF]) + b;
    OpenRead(cp, BehindWrap(st, pre, Escape(kept)), (read + front) + gone, b[2..], w);
  }

  lemma GoneHasNoQuote(a: wstring)
    requires var kept := StripCr(a); kept != [] && kept[|kept| - 1] == BACKSLASH
    ensures var front := StripCr(a)[..|StripCr(a)| - 1]; front <= a && DQUOTE !in a[|front|..] + [LF, SPACE, SPACE]
  {}

  // ----- whole files

  lemma NoNameIsFree()
    ensures WrapFree([])
  {}

  /** The line of a value whose name has a wrap in it. */
  lemma NamedFails(cp: CodePage, h: Handler, name: wstring, v: Option<RegistryValue>, rest: wstring)
    requires !WrapFree(name)
    ensures var r := ReadFrom(cp, NamePrefix(name) + (TailText(v) + (CRLF + rest)), Idle(h));
            r.Some? ==> IsOtherAt(r.value, |h.output|, name)
  {
    hide *;
    NoNameIsFree();
    IdleInName(h);
    IdleLogical(h);
    PrefixOfName(name);
    var w := TailText(v) + (CRLF + rest);
    QuoteParts(Escape(name), w);
    RestIs(name, w);
    QuoteSpells(h);
    WrapIsLost(cp, Idle(h), [DQUOTE], [], name, w);
    NothingBefore(name);
  }

  lemma QuoteSpells(h: Handler)
    ensures Spells(Idle(h).logical + [DQUOTE], [])
  {
    assert [] + [DQUOTE] == [DQUOTE] && [DQUOTE][1..] == [];
  }

  /** The paths a file can hold. */
  predicate IsPlaced(op: Operation) {
    op.path != [] && IsTrimmed(op.path) && LF !in op.path && (op.RemoveKey? || op.path[0] != MINUS)
  }

  predicate HasFreeName(op: Operation) {
    WrapFree(NameOf(op))
  }

  lemma StorableParts(op: Operation)
    ensures Storable(op) <==> IsPlaced(op) && HasFreeName(op)
  {
    NoNameIsFree();
    hide WrapFree, IsTrimmed;
  }

  lemma OperationFails(cp: CodePage, h: Handler, op: Operation, rest: wstring)
    requires !HasFreeName(op)
    ensures var r := ReadFrom(cp, OperationText(op) + rest, Idle(h));
            r.Some? ==> IsOtherAt(r.value, |h.output|, NameOf(op))
    ensures op.SetValue? || op.RemoveValue?
  {
    NoNameIsFree();
    hide ReadFrom, NamePrefix, ValueTail, WrapFree, IsOtherAt;
    match op
    case SetValue(p, v) =>
      ValueParts(NamePrefix(v.name), ValueTail(v), CRLF, rest);
      NamedFails(cp, h, v.name, Some(v), rest);
    case RemoveValue(p, n) =>
      MarkParts(NamePrefix(n), [MINUS], CRLF, rest);
      NamedFails(cp, h, n, None, rest);
    case _ =>
  }

  predicate HaveFreeNames(ops: seq<Operation>) {
    forall i :: 0 <= i < |ops| ==> HasFreeName(ops[i])
  }

  predicate ArePlaced(ops: seq<Operation>) {
    forall i :: 0 <= i < |ops| ==> IsPlaced(ops[i])
  }

  lemma TailParts(ops: seq<Operation>)
    requires ops != [] && ArePlaced(ops)
    ensures ArePlaced(ops[1..]) && IsPlaced(ops[0])
    ensures HasFreeName(ops[0]) && HaveFreeNames(ops[1..]) ==> HaveFreeNames(ops)
  {
    hide IsPlaced, HasFreeName;
    assert forall i :: 0 <= i < |ops| - 1 ==> ops[1..][i] == ops[i + 1];
  }

  /** A prefix of the same size tells the parts. */
  lemma SplitOutput(a: seq<Operation>, o: seq<Operation>, line: seq<Operation>, own: seq<Operation>,
      rest: seq<Operation>)
    requires |line| == |own| && (a + o) + line <= a + (o + (own + rest))
    ensures line == own && a + (o + (own + rest)) == ((a + o) + line) + rest
  {
    var all := a + (o + (own + rest));
    assert all == ((a + o) + own) + rest;
    assert all[..|(a + o) + line|] == (a + o) + line;
    assert all[..|(a + o) + own|] == (a + o) + own;
    assert ((a + o) + line)[|a + o|..] == line && ((a + o) + own)[|a + o|..] == own;
  }

  /** What reading one good operation leaves to do, compared with what is expected. */
  lemma StillDiffers(cp: CodePage, h: Handler, head: seq<Operation>, line: seq<Operation>, own: seq<Operation>,
      rest: seq<Operation>, text: wstring, next: Handler)
    requires next.output == (h.output + head) + line && |line| == |own|
    requires ReadFrom(cp, text, Idle(next)) != Some(next.output + rest)
    ensures ReadFrom(cp, text, Idle(next)) != Some(h.output + (head + (own + rest)))
  {
    hide ReadFrom;
    var r := ReadFrom(cp, text, Idle(next));
    IdleLogical(next);
    if r == Some(h.output + (head + (own + rest))) {
      OutputGrows(cp, text, Idle(next));
      SplitOutput(h.output, head, line, own, rest);
    }
  }

  lemma OtherDiffers(out: seq<Operation>, a: seq<Operation>, op: Operation, rest: seq<Operation>)
    requires IsOtherAt(out, |a|, NameOf(op))
    ensures out != a + ([op] + rest)
  {
    assert (a + ([op] + rest))[|a|] == op;
  }

  lemma SectionedOwn(ops: seq<Operation>, current: Option<wstring>)
    requires ops != []
    ensures var op := ops[0];
            Sectioned(ops, current) == Opened(op, current)
              + (Own(op) + Sectioned(ops[1..], if op.RemoveKey? then None else Some(op.path)))
    ensures Opened(ops[0], current) == if ops[0].RemoveKey? || current == Some(ops[0].path) then []
                                       else [Key(ops[0].path)]
    ensures |Line(ops[0])| == if ops[0].RemoveKey? then 0 else |Own(ops[0])|
  {
    SectionedParts(ops, current);
  }

  /** With a wrap in some name, the body is not read as it was written. */
  lemma {:induction false} BodyFails(cp: CodePage, h: Handler, ops: seq<Operation>, current: Option<wstring>,
      written: bool)
    requires !h.ansi && (current.Some? ==> h.inKey && h.path == current.value)
    requires ArePlaced(ops) && !HaveFreeNames(ops)
    ensures ReadFrom(cp, Body(ops, current, written), Idle(h)) != Some(h.output + Sectioned(ops, current))
    decreases |ops|
  {
    hide *;
    SomeOperation(ops);
    var op, rest := ops[0], ops[1..];
    UnfoldBody(ops, current, written);
    SectionedOwn(ops, current);
    TailParts(ops);
    StorableParts(op);
    PlacedFacts(op);
    OwnIs(op);
    if op.RemoveKey? {
      var next := h.(inKey := false, path := op.path, output := h.output + [op]);
      GapRead(cp, h, written, RemovedText(op.path) + Body(rest, None, true));
      RemovedRead(cp, h, op.path, Body(rest, None, true));
      BodyFails(cp, next, rest, None, true);
      StillDiffers(cp, h, [], [op], [op], Sectioned(rest, None), Body(rest, None, true), next);
    } else if current == Some(op.path) {
      FailsHere(cp, h, h, ops, [], Body(rest, current, written));
      if HasFreeName(op) {
        var next := h.(output := h.output + Line(op));
        BodyFails(cp, next, rest, current, written);
        StillDiffers(cp, h, [], Line(op), Own(op), Sectioned(rest, current), Body(rest, current, written), next);
      }
    } else {
      var open := h.(inKey := true, path := op.path, output := h.output + [Key(op.path)]);
      var after := Body(rest, Some(op.path), true);
      GapRead(cp, h, written, SectionText(op.path) + (OperationText(op) + after));
      SectionRead(cp, h, op.path, OperationText(op) + after);
      FailsHere(cp, h, open, ops, [Key(op.path)], after);
      if HasFreeName(op) {
        var next := open.(output := open.output + Line(op));
        BodyFails(cp, next, rest, Some(op.path), true);
        StillDiffers(cp, h, [Key(op.path)], Line(op), Own(op), Sectioned(rest, Some(op.path)), after, next);
      }
    }
  }

  /** The first operation inside its open section: read, or told from what was written. */
  lemma FailsHere(cp: CodePage, h: Handler, open: Handler, ops: seq<Operation>, head: seq<Operation>, text: wstring)
    requires ops != [] && open.inKey && !open.ansi && open.path == ops[0].path && !ops[0].RemoveKey? && IsPlaced(ops[0])
    requires open.output == h.output + head
    ensures HasFreeName(ops[0]) ==>
              ReadFrom(cp, OperationText(ops[0]) + text, Idle(open))
                == ReadFrom(cp, text, Idle(open.(output := open.output + Line(ops[0]))))
    ensures !HasFreeName(ops[0]) ==>
              forall rest :: ReadFrom(cp, OperationText(ops[0]) + text, Idle(open))
                != Some(h.output + (head + (Own(ops[0]) + rest)))
  {
    hide *;
    var op := ops[0];
    StorableParts(op);
    if HasFreeName(op) {
      OperationRead(cp, open, op, text);
    } else {
      OperationFails(cp, open, op, text);
      OwnIs(op);
      var r := ReadFrom(cp, OperationText(op) + text, Idle(open));
      forall rest ensures r != Some(h.output + (head + (Own(op) + rest))) {
        if r.Some? {
          OtherDiffers(r.value, open.output, op, rest);
        }
      }
    }
  }

  lemma OwnIs(op: Operation)
    ensures Own(op) == if op.Key? then [] else [op]
  {}

  lemma SomeOperation(ops: seq<Operation>)
    requires !HaveFreeNames(ops)
    ensures ops != []
  {}

  lemma PlacedFacts(op: Operation)
    requires IsPlaced(op)
    ensures op.path != [] && IsTrimmed(op.path) && LF !in op.path && (op.RemoveKey? || op.path[0] != MINUS)
    ensures op.RemoveKey? ==> HasFreeName(op)
  {
    NoNameIsFree();
    hide IsTrimmed, WrapFree;
  }

  /** A file gives its operations back exactly when no name has a CRLF or a wrap in it. */
  lemma NamesComeBackExactly(cp: CodePage, ops: seq<Operation>)
    requires ArePlaced(ops)
    ensures Parsed(cp, RegText(ops)) == Some(Sectioned(ops, None)) <==> HaveFreeNames(ops) && NamesCrlfFree(ops)
  {
    hide *;
    if HaveFreeNames(ops) {
      AllStorable(ops);
      RegRoundTripExact(cp, ops);
    } else {
      HeaderRead(cp, Body(ops, None, false));
      StartFacts();
      BodyFails(cp, START, ops, None, false);
      NothingAdded(Sectioned(ops, None));
      FileIs(cp, ops);
    }
  }

  lemma AllStorable(ops: seq<Operation>)
    requires ArePlaced(ops) && HaveFreeNames(ops)
    ensures forall i :: 0 <= i < |ops| ==> Storable(ops[i])
  {
    hide Storable, IsPlaced, HasFreeName;
    forall i | 0 <= i < |ops| ensures Storable(ops[i]) { StorableParts(ops[i]); }
  }

  lemma StartFacts()
    ensures !START.ansi && START.output == []
  {}

  lemma FileIs(cp: CodePage, ops: seq<Operation>)
    ensures Parsed(cp, RegText(ops)) == ReadFrom(cp, REG_HEADER + Body(ops, None, false), Idle(START))
  {
    hide ReadFrom, Body, REG_HEADER;
  }
}
