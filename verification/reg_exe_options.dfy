/** How the options of the commands that a batch script holds are read. */
module RegExeOptions {
  import opened Text
  import opened ValueFormat
  import opened RegExe

  const VE := W("/ve")

  // ----- which switch an argument is

  lemma OneLetterIs(c: wchar, name: wstring)
    ensures IsSwitch([SLASH, c], name) <==> |name| == 1 && UpperUnit(name[0]) == UpperUnit(c)
  {
    assert [SLASH, c][1..] == [c];
    if |name| == 1 { assert [c][0] == c; }
  }

  lemma TwoLettersAre(c: wchar, d: wchar, name: wstring)
    ensures IsSwitch([SLASH, c, d], name)
            <==> |name| == 2 && UpperUnit(name[0]) == UpperUnit(c) && UpperUnit(name[1]) == UpperUnit(d)
  {
    var rest := [c, d];
    assert [SLASH, c, d][1..] == rest;
    if |name| == 2 { assert rest[0] == c && rest[1] == d; }
  }

  /** Every switch name against a one-letter switch. */
  lemma OneLetter(c: wchar)
    ensures IsSwitch([SLASH, c], W("v")) <==> UpperUnit(c) == 0x56
    ensures !IsSwitch([SLASH, c], W("ve")) && !IsSwitch([SLASH, c], W("va")) && !IsSwitch([SLASH, c], W("se"))
    ensures IsSwitch([SLASH, c], W("t")) <==> UpperUnit(c) == 0x54
    ensures IsSwitch([SLASH, c], W("d")) <==> UpperUnit(c) == 0x44
    ensures IsSwitch([SLASH, c], W("s")) <==> UpperUnit(c) == 0x53
    ensures IsSwitch([SLASH, c], W("f")) <==> UpperUnit(c) == 0x46
  {
    hide IsSwitch;
    OneLetterIs(c, W("v"));
    OneLetterIs(c, W("ve"));
    OneLetterIs(c, W("va"));
    OneLetterIs(c, W("se"));
    OneLetterIs(c, W("t"));
    OneLetterIs(c, W("d"));
    OneLetterIs(c, W("s"));
    OneLetterIs(c, W("f"));
  }

  lemma DefaultSwitch()
    ensures !IsSwitch(VE, W("v")) && IsSwitch(VE, W("ve"))
  {
    hide IsSwitch;
    assert VE == [SLASH, 0x76, 0x65];
    TwoLettersAre(0x76, 0x65, W("v"));
    TwoLettersAre(0x76, 0x65, W("ve"));
  }

  // ----- first uses

  predicate IsFirst(p: Parsing, name: wstring) {
    name !in p.options.switches && p.selectors == 0 && p.views == 0 && p.outputs == 0
  }

  function Counted(p: Parsing, name: wstring, selectors: nat): Parsing {
    Parsing(p.options.(switches := p.options.switches + [name]), p.positional, p.selectors
            + selectors, p.views, p.outputs)
  }

  lemma FirstLetterDiffers(name: wstring, other: wstring)
    requires name != [] && other != [] && name[0] != other[0]
    ensures name != other && !(other <= name)
  {}

  lemma EnteredOneLetter(p: Parsing, c: wchar)
    requires c == 0x76 || c == 0x74 || c == 0x73 || c == 0x64 || c == 0x66
    requires [c] !in p.options.switches && p.views == 0 && p.outputs == 0 && (c == 0x76 ==> p.selectors == 0)
             && p.selectors <= 1
    ensures Entered(p, [SLASH, c]) == Some(Counted(p, [c], if c == 0x76 then 1 else 0))
  {
    var name := ToLower([SLASH, c][1..]);
    assert name == [c];
    if c != 0x76 { FirstLetterDiffers([c], W("v")); } else { assert [c] == W("v"); }
  }

  lemma EnteredDefault(p: Parsing)
    requires IsFirst(p, W("ve"))
    ensures Entered(p, VE) == Some(Counted(p, W("ve"), 1))
  {
    var name := ToLower(VE[1..]);
    assert name == W("ve");
    FirstLetterDiffers(name, W("reg:"));
    FirstLetterDiffers(name, W("oa"));
    FirstLetterDiffers(name, W("od"));
    FirstLetterDiffers(name, W("os"));
    FirstLetterDiffers(name, W("on"));
  }

  /** One letter, given once. */
  predicate IsNew(p: Parsing, c: wchar) {
    [c] !in p.options.switches && p.views == 0 && p.outputs == 0 && (c == 0x76 ==> p.selectors == 0) && p.selectors <= 1
  }

  /** A switch that takes the next argument. */
  lemma StepTaking(args: seq<wstring>, i: nat, p: Parsing, verb: Verb, c: wchar)
    requires verb != Query && i + 1 < |args| && args[i] == [SLASH, c] && IsNew(p, c)
    requires c == 0x76 || c == 0x74 || c == 0x64 || (c == 0x73 && verb == Add)
    ensures var q, next := Counted(p, [c], if c == 0x76 then 1 else 0), args[i + 1];
            var o := q.options;
            ParseFrom(args, i, p, verb) ==
              ParseFrom(args, i + 2, q.(options :=
                if c == 0x76 then o.(valueName := next, hasValue := true)
                else if c == 0x74 then o.(typeText := next)
                else if c == 0x64 then o.(data := next, hasData := true)
                else o.(separator := next)), verb)
  {
    OneLetter(c);
    EnteredOneLetter(p, c);
    hide IsSwitch, Entered, W;
  }

  lemma StepDefault(args: seq<wstring>, i: nat, p: Parsing, verb: Verb)
    requires verb != Query && i < |args| && args[i] == VE && IsFirst(p, W("ve"))
    ensures var q := Counted(p, W("ve"), 1);
            ParseFrom(args, i, p, verb)
              == ParseFrom(args, i + 1, q.(options := q.options.(defaultValue := true, hasValue := true)), verb)
  {
    DefaultSwitch();
    EnteredDefault(p);
    assert LooksLikeSwitch(VE);
    hide IsSwitch, Entered, W;
  }

  lemma StepForce(args: seq<wstring>, i: nat, p: Parsing, verb: Verb)
    requires verb != Query && i < |args| && args[i] == [SLASH, 0x66] && IsNew(p, 0x66)
    ensures var q := Counted(p, [0x66], 0);
            ParseFrom(args, i, p, verb) == ParseFrom(args, i + 1, q.(options := q.options.(force := true)), verb)
  {
    OneLetter(0x66);
    EnteredOneLetter(p, 0x66);
    hide IsSwitch, Entered, W;
  }

  /** An argument that is no switch is positional. */
  lemma NoSwitch(text: wstring)
    requires !LooksLikeSwitch(text)
    ensures forall name: wstring :: !IsSwitch(text, name)
  {}

  lemma StepPositional(args: seq<wstring>, i: nat, p: Parsing, verb: Verb)
    requires i < |args| && !LooksLikeSwitch(args[i])
    ensures ParseFrom(args, i, p, verb) == ParseFrom(args, i + 1, p.(positional := p.positional + [args[i]]), verb)
  {
    hide W, IsSwitch, Entered, LooksLikeSwitch;
    NoSwitch(args[i]);
  }
}
