/**
 * File names derived from note titles. Creating a note (`new`, `/new`) and renaming one
 * (`/mv`) use two different regular-expression pipelines; the rename one does not collapse
 * runs of hyphens and whitespace.
 */
module Slug {
  import opened Text

  /** What `[^\w\s-]` does not match: the characters kept by the first substitution */
  predicate IsKept(c: char) { IsWord(c) || IsSpace(c) || c == '-' }

  /** What a note slug is made of */
  predicate IsSlugChar(c: char) { IsWord(c) || c == '-' }

  const DashSpaces: set<char> := Spaces + {'-'}

  /** `re.sub(r'[^\w\s-]', '', s)` */
  function KeepSlugChars(s: string): string {
    if s == [] then []
    else (if IsKept(s[0]) then [s[0]] else []) + KeepSlugChars(s[1..])
  }

  /** `re.sub(r'[-\s]+', '-', s)`: every maximal run of hyphens and whitespace becomes one hyphen */
  function CollapseDashes(s: string): string
    decreases |s|
  {
    if s == [] then []
    else if s[0] in DashSpaces then "-" + CollapseDashes(TrimLeft(s, DashSpaces))
    else [s[0]] + CollapseDashes(s[1..])
  }

  /** The file stem `new` and `/new` give a note titled `title` */
  function NoteSlug(title: string): string {
    Lower(CollapseDashes(ReplaceAll(Strip(KeepSlugChars(title)), " ", "-")))
  }

  /** The file stem `/mv` gives a note renamed to `name` */
  function RenameSlug(name: string): string {
    Lower(ReplaceAll(Strip(KeepSlugChars(name)), " ", "-"))
  }

  ghost predicate AllKept(s: string) { forall i :: 0 <= i < |s| ==> IsKept(s[i]) }

  /** The shape of a note slug: word characters and single hyphens, nothing upper-case */
  ghost predicate Slugged(s: string) {
    && (forall i :: 0 <= i < |s| ==> IsSlugChar(s[i]) && !IsUpper(s[i]))
    && (forall i :: 0 <= i < |s| - 1 ==> !(s[i] == '-' && s[i + 1] == '-'))
  }

  /** A note slug holds only word characters and '-', no whitespace, no "--", and no upper-case letter */
  lemma NoteSlugShape(title: string)
    ensures Slugged(NoteSlug(title))
    ensures forall i :: 0 <= i < |NoteSlug(title)| ==> !IsSpace(NoteSlug(title)[i])
  {
    var a := KeepSlugChars(title);
    KeepSlugCharsKept(title);
    var b := Strip(a);
    var c := ReplaceAll(b, " ", "-");
    ReplaceKeeps(b, " ", "-");
    var d := CollapseDashes(c);
    CollapseShape(c);
    LowerShape(d);
  }

  /** Slugging a slug changes nothing */
  lemma NoteSlugIdempotent(title: string)
    ensures NoteSlug(NoteSlug(title)) == NoteSlug(title)
  {
    NoteSlugShape(title);
    SluggedFixed(NoteSlug(title));
  }

  /** The rename slug is the note slug before runs of hyphens and whitespace are collapsed */
  lemma RenameSlugUncollapsed(name: string)
    ensures NoteSlug(name) == CollapseDashes(RenameSlug(name))
  {
    CollapseLower(ReplaceAll(Strip(KeepSlugChars(name)), " ", "-"));
  }

  /** Some character of `s` is a word character or a hyphen */
  predicate HasSlugChar(s: string) {
    exists i :: 0 <= i < |s| && IsSlugChar(s[i])
  }

  /** The note slug is empty exactly when the title holds no word character and no hyphen */
  lemma EmptySlug(title: string)
    ensures NoteSlug(title) == [] <==> !HasSlugChar(title)
  {
    var a := KeepSlugChars(title);
    KeepSlugCharsKept(title);
    KeepHasSlugChar(title);
    var b := Strip(a);
    StripEmpty(a);
    var c := ReplaceAll(b, " ", "-");
    assert c == [] <==> b == [];
    assert CollapseDashes(c) == [] <==> c == [];
  }

  lemma {:induction false} KeepHasSlugChar(s: string)
    ensures HasSlugChar(KeepSlugChars(s)) <==> HasSlugChar(s)
    decreases |s|
  {
    if s != [] {
      var head := if IsKept(s[0]) then [s[0]] else [];
      KeepHasSlugChar(s[1..]);
      HasSlugCharJoin(head, KeepSlugChars(s[1..]));
      HasSlugCharJoin([s[0]], s[1..]);
      assert s == [s[0]] + s[1..];
    }
  }

  lemma HasSlugCharJoin(x: string, y: string)
    ensures HasSlugChar(x + y) <==> HasSlugChar(x) || HasSlugChar(y)
  {
    if HasSlugChar(y) {
      var i :| 0 <= i < |y| && IsSlugChar(y[i]);
      assert (x + y)[|x| + i] == y[i];
    }
    if HasSlugChar(x) {
      var i :| 0 <= i < |x| && IsSlugChar(x[i]);
      assert (x + y)[i] == x[i];
    }
    if HasSlugChar(x + y) {
      var i :| 0 <= i < |x + y| && IsSlugChar((x + y)[i]);
      if i < |x| {
        assert x[i] == (x + y)[i];
      } else {
        assert y[i - |x|] == (x + y)[i];
      }
    }
  }

  /** Kept characters strip to nothing exactly when none is a word character or a hyphen */
  lemma StripEmpty(a: string)
    requires AllKept(a)
    ensures Strip(a) == [] <==> !HasSlugChar(a)
  {
    var r := TrimLeft(a, Spaces);
    if HasSlugChar(a) {
      var i :| 0 <= i < |a| && IsSlugChar(a[i]);
      SlugCharNotSpace(a[i]);
      assert r != [];
      assert TrimRight(r, Spaces) != [];
    } else {
      forall j | 0 <= j < |a| ensures a[j] in Spaces {
        assert IsKept(a[j]) && !IsSlugChar(a[j]);
      }
      TrimLeftAll(a, Spaces);
    }
  }

  lemma {:induction false} TrimLeftAll(s: string, cs: set<char>)
    requires forall j :: 0 <= j < |s| ==> s[j] in cs
    ensures TrimLeft(s, cs) == []
    decreases |s|
  {
    if s != [] {
      TrimLeftAll(s[1..], cs);
    }
  }

  /** The two pipelines part ways on a doubled space */
  lemma DoubleSpaceDiffers()
    ensures NoteSlug("a  b") == "a-b"
    ensures RenameSlug("a  b") == "a--b"
  {
    KeepSample();
    StripSample();
    ReplaceSample();
    CollapseSample("a--b");
    LowerSample();
  }

  lemma LowerSample()
    ensures Lower("a-b") == "a-b" && Lower("a--b") == "a--b"
  {
  }

  lemma KeepSample()
    ensures KeepSlugChars("a  b") == "a  b"
  {
    assert KeepSlugChars("b") == "b";
    assert KeepSlugChars(" b") == " b";
    assert KeepSlugChars("  b") == "  b";
  }

  lemma StripSample()
    ensures Strip("a  b") == "a  b"
  {
    assert "a  b"[0] !in Spaces && "a  b"[3] !in Spaces;
    TrimLeftStops("a  b", Spaces);
    TrimRightOver("a  b", [], Spaces);
    assert "a  b" + [] == "a  b";
  }

  lemma ReplaceSample()
    ensures ReplaceAll("a  b", " ", "-") == "a--b"
  {
    assert ReplaceAll("b", " ", "-") == "b";
    assert ReplaceAll(" b", " ", "-") == "-b";
    assert ReplaceAll("  b", " ", "-") == "--b";
  }

  lemma CollapseSample(s: string)
    requires |s| == 4 && s[0] == 'a' && s[1] == '-' && s[2] == '-' && s[3] == 'b'
    ensures CollapseDashes(s) == "a-b"
  {
    LetterA();
    var t := s[1..];
    CollapseTwoDashes(t);
    CollapseCons(s[0], t);
    HeadTail(s);
    assert [s[0]] + ['-', 'b'] == "a-b";
  }

  lemma CollapseTwoDashes(t: string)
    requires |t| == 3 && t[0] == '-' && t[1] == '-' && t[2] == 'b'
    ensures CollapseDashes(t) == ['-', 'b']
  {
    RunStart(t);
    DashesSkipped(t);
    LetterB(t[2..]);
    assert "-" + t[2..] == ['-', 'b'];
  }

  /** A run starts at a hyphen */
  lemma RunStart(t: string)
    requires t != [] && t[0] == '-'
    ensures CollapseDashes(t) == "-" + CollapseDashes(TrimLeft(t, DashSpaces))
  {
    assert '-' in DashSpaces;
  }

  lemma DashesSkipped(t: string)
    requires |t| == 3 && t[0] == '-' && t[1] == '-' && t[2] == 'b'
    ensures TrimLeft(t, DashSpaces) == t[2..]
  {
    assert '-' in DashSpaces && 'b' !in DashSpaces;
    assert t[1..][1..] == t[2..];
    TrimLeftStops(t[2..], DashSpaces);
  }

  lemma LetterB(b: string)
    requires |b| == 1 && b[0] == 'b'
    ensures CollapseDashes(b) == b
  {
    assert 'b' !in DashSpaces;
    assert b[1..] == [];
  }

  lemma LetterA()
    ensures 'a' !in DashSpaces
  {
  }

  /** A character outside a run stays as it is */
  lemma CollapseCons(c: char, rest: string)
    requires c !in DashSpaces
    ensures CollapseDashes([c] + rest) == [c] + CollapseDashes(rest)
  {
    assert ([c] + rest)[1..] == rest;
  }

  lemma {:induction false} KeepSlugCharsKept(s: string)
    ensures AllKept(KeepSlugChars(s))
    decreases |s|
  {
    if s != [] {
      KeepSlugCharsKept(s[1..]);
    }
  }

  lemma {:induction false} ReplaceKeeps(s: string, pat: string, rep: string)
    requires pat != [] && AllKept(s) && AllKept(rep)
    ensures AllKept(ReplaceAll(s, pat, rep))
    decreases |s|
  {
    if |s| >= |pat| {
      if pat <= s {
        ReplaceKeeps(s[|pat|..], pat, rep);
      } else {
        ReplaceKeeps(s[1..], pat, rep);
      }
    }
  }

  lemma {:induction false} CollapseShape(s: string)
    requires AllKept(s)
    ensures forall i :: 0 <= i < |CollapseDashes(s)| ==> IsSlugChar(CollapseDashes(s)[i])
    ensures forall i :: 0 <= i < |CollapseDashes(s)| - 1 ==>
      !(CollapseDashes(s)[i] == '-' && CollapseDashes(s)[i + 1] == '-')
    ensures s != [] ==> CollapseDashes(s) != [] && (CollapseDashes(s)[0] == '-' <==> s[0] in DashSpaces)
    decreases |s|
  {
    if s != [] {
      if s[0] in DashSpaces {
        CollapseShape(TrimLeft(s, DashSpaces));
      } else {
        CollapseShape(s[1..]);
      }
    }
  }

  lemma LowerShape(s: string)
    requires forall i :: 0 <= i < |s| ==> IsSlugChar(s[i])
    requires forall i :: 0 <= i < |s| - 1 ==> !(s[i] == '-' && s[i + 1] == '-')
    ensures Slugged(Lower(s))
    ensures forall i :: 0 <= i < |s| ==> !IsSpace(Lower(s)[i])
  {
  }

  lemma SluggedFixed(s: string)
    requires Slugged(s)
    ensures NoteSlug(s) == s
  {
    KeepSluggedFixed(s);
    StripSlugged(s);
    NoSpaceAbsent(s);
    ReplaceAbsent(s, " ", "-");
    CollapseSluggedFixed(s);
    LowerFixed(s);
  }

  lemma LowerFixed(s: string)
    requires forall i :: 0 <= i < |s| ==> !IsUpper(s[i])
    ensures Lower(s) == s
  {
  }

  lemma SlugCharNotSpace(c: char)
    requires IsSlugChar(c)
    ensures c !in Spaces && c != ' '
  {
  }

  lemma StripSlugged(s: string)
    requires forall i :: 0 <= i < |s| ==> IsSlugChar(s[i])
    ensures Strip(s) == s
  {
    if s != [] {
      SlugCharNotSpace(s[0]);
      SlugCharNotSpace(s[|s| - 1]);
    }
    TrimLeftStops(s, Spaces);
    TrimRightOver(s, [], Spaces);
    assert s + [] == s;
  }

  lemma NoSpaceAbsent(s: string)
    requires forall i :: 0 <= i < |s| ==> IsSlugChar(s[i])
    ensures !Contains(s, " ")
  {
    if Contains(s, " ") {
      var i := ContainsWitness(s, " ");
      assert s[i] == ' ';
      SlugCharNotSpace(s[i]);
      assert false;
    }
  }

  lemma {:induction false} KeepSluggedFixed(s: string)
    requires forall i :: 0 <= i < |s| ==> IsSlugChar(s[i])
    ensures KeepSlugChars(s) == s
    decreases |s|
  {
    if s != [] {
      KeepSluggedFixed(s[1..]);
      assert s == [s[0]] + s[1..];
    }
  }

  lemma {:induction false} CollapseSluggedFixed(s: string)
    requires Slugged(s)
    ensures CollapseDashes(s) == s
    decreases |s|
  {
    if s != [] {
      SluggedStep(s);
      CollapseSluggedFixed(s[1..]);
      HeadTail(s);
    }
  }

  /** A slug's first character is a run of its own, and the rest is a slug */
  lemma SluggedStep(s: string)
    requires Slugged(s) && s != []
    ensures Slugged(s[1..])
    ensures s[0] in DashSpaces <==> s[0] == '-'
    ensures s[0] == '-' ==> TrimLeft(s, DashSpaces) == s[1..]
  {
    SlugCharNotSpace(s[0]);
    if s[0] == '-' {
      if s[1..] != [] {
        assert s[1] == s[1..][0];
        SlugCharNotSpace(s[1]);
      }
      TrimLeftStops(s[1..], DashSpaces);
    }
  }

  /** Lower-casing and collapsing commute: lower-casing never turns a character into, or out of, a hyphen or space */
  lemma {:induction false} CollapseLower(s: string)
    ensures CollapseDashes(Lower(s)) == Lower(CollapseDashes(s))
    decreases |s|
  {
    if s != [] {
      var l := Lower(s);
      LowerClass(s[0]);
      if s[0] in DashSpaces {
        var t := TrimLeft(s, DashSpaces);
        TrimLeftLower(s);
        CollapseLower(t);
        LowerAppend("-", CollapseDashes(t));
        assert Lower("-") == "-";
      } else {
        assert l[1..] == Lower(s[1..]);
        CollapseLower(s[1..]);
        LowerAppend([s[0]], CollapseDashes(s[1..]));
        assert Lower([s[0]]) == [LowerChar(s[0])];
      }
    }
  }

  lemma LowerAppend(a: string, b: string)
    ensures Lower(a + b) == Lower(a) + Lower(b)
  {
  }

  lemma {:induction false} TrimLeftLower(s: string)
    ensures TrimLeft(Lower(s), DashSpaces) == Lower(TrimLeft(s, DashSpaces))
    decreases |s|
  {
    if s != [] {
      LowerClass(s[0]);
      assert Lower(s)[1..] == Lower(s[1..]);
      TrimLeftLower(s[1..]);
    }
  }

  lemma LowerClass(c: char)
    ensures (LowerChar(c) in DashSpaces) == (c in DashSpaces)
  {
  }
}
