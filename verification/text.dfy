/** UTF-16 text as the program handles it: sequences of 16-bit code units, lone surrogates included.
    Case folding covers the ASCII letters. */
module Text {

  newtype wchar = c: int | 0 <= c < 0x1_0000
  newtype byte = b: int | 0 <= b < 0x100

  type wstring = seq<wchar>

  const NUL: wchar := 0x00
  const TAB: wchar := 0x09
  const LF: wchar := 0x0A
  const CR: wchar := 0x0D
  const SPACE: wchar := 0x20
  const BANG: wchar := 0x21
  const DQUOTE: wchar := 0x22
  const HASH: wchar := 0x23
  const DOLLAR: wchar := 0x24
  const PERCENT: wchar := 0x25
  const AMP: wchar := 0x26
  const SQUOTE: wchar := 0x27
  const LPAREN: wchar := 0x28
  const RPAREN: wchar := 0x29
  const STAR: wchar := 0x2A
  const PLUS: wchar := 0x2B
  const COMMA: wchar := 0x2C
  const MINUS: wchar := 0x2D
  const DOT: wchar := 0x2E
  const SLASH: wchar := 0x2F
  const COLON: wchar := 0x3A
  const SEMICOLON: wchar := 0x3B
  const LESS: wchar := 0x3C
  const EQUALS: wchar := 0x3D
  const GREATER: wchar := 0x3E
  const QUESTION: wchar := 0x3F
  const AT: wchar := 0x40
  const LBRACKET: wchar := 0x5B
  const BACKSLASH: wchar := 0x5C
  const RBRACKET: wchar := 0x5D
  const CARET: wchar := 0x5E
  const UNDERSCORE: wchar := 0x5F
  const BACKTICK: wchar := 0x60
  const LBRACE: wchar := 0x7B
  const BAR: wchar := 0x7C
  const RBRACE: wchar := 0x7D
  const TILDE: wchar := 0x7E

  function Unit(c: char): wchar {
    if c as int < 0x1_0000 then c as int as wchar else 0
  }

  /** A literal of the program as code units. */
  function W(s: string): (w: wstring)
    ensures |w| == |s|
    ensures forall i :: 0 <= i < |s| ==> w[i] == Unit(s[i])
  {
    seq(|s|, i requires 0 <= i < |s| => Unit(s[i]))
  }

  predicate IsDigit(c: wchar) {
    0x30 <= c <= 0x39
  }

  predicate IsLetter(c: wchar) {
    0x41 <= c <= 0x5A || 0x61 <= c <= 0x7A
  }

  /** iswspace of the C runtime. */
  predicate IsSpace(c: wchar) {
    || 0x09 <= c <= 0x0D || c == SPACE || c == 0x85 || c == 0xA0 || c == 0x1680
    || 0x2000 <= c <= 0x200A || c == 0x2028 || c == 0x2029 || c == 0x202F || c == 0x205F || c == 0x3000
  }

  function LowerUnit(c: wchar): wchar {
    if 0x41 <= c <= 0x5A then c + 32 else c
  }

  function UpperUnit(c: wchar): wchar {
    if 0x61 <= c <= 0x7A then c - 32 else c
  }

  function ToLower(s: wstring): (r: wstring)
    ensures |r| == |s|
    ensures forall i :: 0 <= i < |s| ==> r[i] == LowerUnit(s[i])
  {
    seq(|s|, i requires 0 <= i < |s| => LowerUnit(s[i]))
  }

  /** CompareStringOrdinal with case ignored: negative, zero or positive. */
  function CompareInsensitive(a: wstring, b: wstring): int
    decreases |a|
  {
    if a == [] || b == [] then (if a != [] then 1 else 0) - (if b != [] then 1 else 0)
    else if UpperUnit(a[0]) != UpperUnit(b[0]) then UpperUnit(a[0]) as int - UpperUnit(b[0]) as int
    else CompareInsensitive(a[1..], b[1..])
  }

  predicate EqualsInsensitive(a: wstring, b: wstring) {
    |a| == |b| && forall i :: 0 <= i < |a| ==> UpperUnit(a[i]) == UpperUnit(b[i])
  }

  predicate StartsWithInsensitive(text: wstring, prefix: wstring) {
    |prefix| <= |text| && EqualsInsensitive(text[..|prefix|], prefix)
  }

  predicate EndsWithInsensitive(text: wstring, suffix: wstring) {
    |suffix| <= |text| && EqualsInsensitive(text[|text| - |suffix|..], suffix)
  }

  lemma EqualsInsensitiveIsEqualLower(a: wstring, b: wstring)
    ensures EqualsInsensitive(a, b) <==> ToLower(a) == ToLower(b)
  {
    if EqualsInsensitive(a, b) {
      forall i | 0 <= i < |a| ensures ToLower(a)[i] == ToLower(b)[i] {
        assert UpperUnit(a[i]) == UpperUnit(b[i]);
      }
    } else if |a| == |b| {
      var i :| 0 <= i < |a| && UpperUnit(a[i]) != UpperUnit(b[i]);
      assert ToLower(a)[i] != ToLower(b)[i];
    }
  }

  lemma {:induction false} CompareZeroIsEquals(a: wstring, b: wstring)
    ensures CompareInsensitive(a, b) == 0 <==> EqualsInsensitive(a, b)
    decreases |a|
  {
    if a != [] && b != [] {
      CompareZeroIsEquals(a[1..], b[1..]);
      if UpperUnit(a[0]) == UpperUnit(b[0]) {
        if EqualsInsensitive(a, b) {
          forall i | 0 <= i < |a| - 1 ensures UpperUnit(a[1..][i]) == UpperUnit(b[1..][i]) {
            assert UpperUnit(a[i + 1]) == UpperUnit(b[i + 1]);
          }
        } else if EqualsInsensitive(a[1..], b[1..]) {
          forall i | 0 <= i < |a| ensures UpperUnit(a[i]) == UpperUnit(b[i]) {
            if i > 0 { assert UpperUnit(a[1..][i - 1]) == UpperUnit(b[1..][i - 1]); }
          }
        }
      }
    }
  }

  lemma {:induction false} CompareAntisymmetric(a: wstring, b: wstring)
    ensures CompareInsensitive(a, b) < 0 <==> CompareInsensitive(b, a) > 0
    decreases |a|
  {
    if a != [] && b != [] { CompareAntisymmetric(a[1..], b[1..]); }
  }

  lemma {:induction false} CompareTransitive(a: wstring, b: wstring, c: wstring)
    ensures CompareInsensitive(a, b) < 0 && CompareInsensitive(b, c) <= 0 ==> CompareInsensitive(a, c) < 0
    ensures CompareInsensitive(a, b) <= 0 && CompareInsensitive(b, c) < 0 ==> CompareInsensitive(a, c) < 0
    ensures CompareInsensitive(a, b) == 0 && CompareInsensitive(b, c) == 0 ==> CompareInsensitive(a, c) == 0
    decreases |a|
  {
    if a != [] && b != [] && c != [] { CompareTransitive(a[1..], b[1..], c[1..]); }
  }

  /** Position of the first `c` at or after `start`, or -1. */
  function Find(text: wstring, c: wchar, start: nat): (r: int)
    ensures r == -1 || (start <= r < |text| && text[r] == c)
    ensures r == -1 ==> forall i :: start <= i < |text| ==> text[i] != c
    ensures r >= 0 ==> forall i :: start <= i < r ==> text[i] != c
    decreases |text| - start
  {
    if start >= |text| then -1
    else if text[start] == c then start
    else Find(text, c, start + 1)
  }

  /** Position of the first unit from `i` on that is no space, or the length. */
  function SolidStart(text: wstring, i: nat): (r: nat)
    requires i <= |text|
    ensures i <= r <= |text| && (r < |text| ==> !IsSpace(text[r]))
    ensures forall k :: i <= k < r ==> IsSpace(text[k])
    decreases |text| - i
  {
    if i < |text| && IsSpace(text[i]) then SolidStart(text, i + 1) else i
  }

  /** Position behind the last unit before `end` that is no space, or `start`. */
  function SolidEnd(text: wstring, start: nat, end: nat): (r: nat)
    requires start <= end <= |text|
    ensures start <= r <= end && (r > start ==> !IsSpace(text[r - 1]))
    ensures forall k :: r <= k < end ==> IsSpace(text[k])
    decreases end - start
  {
    if end > start && IsSpace(text[end - 1]) then SolidEnd(text, start, end - 1) else end
  }

  function TrimWhitespace(text: wstring): wstring {
    var first := SolidStart(text, 0);
    text[first..SolidEnd(text, first, |text|)]
  }

  predicate IsTrimmed(text: wstring) {
    text == [] || (!IsSpace(text[0]) && !IsSpace(text[|text| - 1]))
  }

  lemma TrimmedIsUnchanged(text: wstring)
    requires IsTrimmed(text)
    ensures TrimWhitespace(text) == text
  {}

  /** A line without the CR of its line break. */
  function StripCr(line: wstring): wstring {
    if line != [] && line[|line| - 1] == CR then line[..|line| - 1] else line
  }

  predicate IsHighSurrogate(c: wchar) {
    0xD800 <= c <= 0xDBFF
  }

  predicate IsLowSurrogate(c: wchar) {
    0xDC00 <= c <= 0xDFFF
  }

  /** Well-formed UTF-16: every surrogate belongs to a high-low pair (D91, section 3.9 of the Unicode Standard). */
  predicate IsWellFormedUtf16(text: wstring) {
    if text == [] then true
    else if IsHighSurrogate(text[0]) then |text| > 1 && IsLowSurrogate(text[1]) && IsWellFormedUtf16(text[2..])
    else !IsLowSurrogate(text[0]) && IsWellFormedUtf16(text[1..])
  }

  // ----- sequence facts the loops over text use

  lemma ConcatAssoc<T>(a: seq<T>, b: seq<T>, c: seq<T>)
    ensures (a + b) + c == a + (b + c)
  {}

  lemma NothingAround<T>(s: seq<T>)
    ensures [] + s == s && s + [] == s
  {}

  lemma PendingGrows<T>(out: seq<T>, s: seq<T>, start: nat, index: nat)
    requires start <= index < |s|
    ensures out + s[start..index + 1] == (out + s[start..index]) + [s[index]]
  {}

  lemma SliceShift<T>(s: seq<T>, start: nat, at: nat)
    requires start <= at <= |s|
    ensures s[start..][..at - start] == s[start..at]
    ensures s[start..][at - start..] == s[at..]
  {}

  lemma FindShift(text: wstring, c: wchar, start: nat)
    requires start <= |text|
    ensures Find(text[start..], c, 0) == if Find(text, c, start) == -1 then -1 else Find(text, c, start) - start
  {
    hide Find;
    var r, q := Find(text, c, start), Find(text[start..], c, 0);
    if q >= 0 { assert text[start..][q] == text[start + q]; }
    if r >= 0 { assert text[start..][r - start] == text[r]; }
  }

  // ----- texts inside texts

  predicate HasAt(text: wstring, i: nat, piece: wstring) {
    i + |piece| <= |text| && text[i..i + |piece|] == piece
  }

  lemma HasAtSplit(text: wstring, i: nat, a: wstring, b: wstring)
    requires HasAt(text, i, a + b)
    ensures HasAt(text, i, a) && HasAt(text, i + |a|, b)
  {
    var all := text[i..i + |a + b|];
    assert text[i..i + |a|] == all[..|a|] == a;
    assert text[i + |a|..i + |a| + |b|] == all[|a|..] == b;
  }

  lemma HasAtUnit(text: wstring, i: nat, piece: wstring)
    requires HasAt(text, i, piece) && piece != []
    ensures i < |text| && text[i] == piece[0] && HasAt(text, i + 1, piece[1..])
  {
    assert text[i..i + |piece|][0] == text[i];
    assert text[i + 1..i + |piece|] == text[i..i + |piece|][1..];
  }

  lemma HasAtAll(text: wstring)
    ensures HasAt(text, 0, text)
  {}
}
