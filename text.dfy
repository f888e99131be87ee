/**
 * The parts of Python's `str` that the note store relies on, over ASCII:
 * character classes, `lower`, `title`, `strip`, `split`, `join`, `replace`,
 * the substring test `in` and the ordering `<`.
 */
module Text {

  /** What `str.isspace()` and the regex class `\s` accept, restricted to ASCII */
  const Spaces: set<char> :=
    {'\t', '\n', '\U{B}', '\U{C}', '\r', '\U{1C}', '\U{1D}', '\U{1E}', '\U{1F}', ' '}

  predicate IsSpace(c: char) { c in Spaces }
  predicate IsLetter(c: char) { 'a' <= c <= 'z' || 'A' <= c <= 'Z' }
  predicate IsDigit(c: char) { '0' <= c <= '9' }
  predicate IsUpper(c: char) { 'A' <= c <= 'Z' }

  /** The regex class `\w` */
  predicate IsWord(c: char) { IsLetter(c) || IsDigit(c) || c == '_' }

  function LowerChar(c: char): char { if IsUpper(c) then (c as int + 32) as char else c }
  function UpperChar(c: char): char { if 'a' <= c <= 'z' then (c as int - 32) as char else c }

  /** `s.lower()` */
  function Lower(s: string): (r: string)
    ensures |r| == |s| && forall i :: 0 <= i < |s| ==> r[i] == LowerChar(s[i])
  {
    seq(|s|, i requires 0 <= i < |s| => LowerChar(s[i]))
  }

  /** `s.title()`: a letter is upper-cased when the character before it is not a letter, lower-cased otherwise */
  function Title(s: string): string {
    TitleAfter(s, false)
  }

  function TitleAfter(s: string, afterLetter: bool): (r: string)
    ensures |r| == |s|
  {
    if s == [] then []
    else
      var c := s[0];
      [if !IsLetter(c) then c else if afterLetter then LowerChar(c) else UpperChar(c)]
        + TitleAfter(s[1..], IsLetter(c))
  }

  /** `sub` occurs in `s` at position `i` */
  predicate At(s: string, sub: string, i: nat) {
    i + |sub| <= |s| && s[i..i + |sub|] == sub
  }

  /** `sub in s` */
  predicate Contains(s: string, sub: string)
    decreases |s|
  {
    sub <= s || (s != [] && Contains(s[1..], sub))
  }

  lemma {:induction false} ContainsAt(s: string, sub: string, i: nat)
    requires At(s, sub, i)
    ensures Contains(s, sub)
    decreases i
  {
    if i > 0 {
      assert s[1..][i - 1..i - 1 + |sub|] == sub;
      ContainsAt(s[1..], sub, i - 1);
    }
  }

  lemma {:induction false} ContainsWitness(s: string, sub: string) returns (i: nat)
    requires Contains(s, sub)
    ensures At(s, sub, i)
    decreases |s|
  {
    if sub <= s {
      i := 0;
    } else {
      var j := ContainsWitness(s[1..], sub);
      i := j + 1;
      assert s[i..i + |sub|] == s[1..][j..j + |sub|];
    }
  }

  /** A text in which `sub` occurs at no position does not contain it */
  lemma {:induction false} NotContains(s: string, sub: string)
    requires forall i :: !At(s, sub, i)
    ensures !Contains(s, sub)
    decreases |s|
  {
    assert !At(s, sub, 0);
    if s != [] {
      forall i: nat ensures !At(s[1..], sub, i) {
        assert !At(s, sub, i + 1);
        if i + |sub| <= |s| - 1 {
          assert s[1..][i..i + |sub|] == s[i + 1..i + 1 + |sub|];
        }
      }
      NotContains(s[1..], sub);
    }
  }

  /** `s.lstrip(chars)` */
  function TrimLeft(s: string, cs: set<char>): (r: string)
    ensures |r| <= |s| && r == s[|s| - |r|..]
    ensures r != [] ==> r[0] !in cs
    ensures forall i :: 0 <= i < |s| - |r| ==> s[i] in cs
    decreases |s|
  {
    if s != [] && s[0] in cs then TrimLeft(s[1..], cs) else s
  }

  /** `s.rstrip(chars)` */
  function TrimRight(s: string, cs: set<char>): (r: string)
    ensures |r| <= |s| && r == s[..|r|]
    ensures r != [] ==> r[|r| - 1] !in cs
    ensures forall i :: |r| <= i < |s| ==> s[i] in cs
    decreases |s|
  {
    if s != [] && s[|s| - 1] in cs then TrimRight(s[..|s| - 1], cs) else s
  }

  /** `s.strip(chars)` */
  function Trim(s: string, cs: set<char>): string {
    TrimRight(TrimLeft(s, cs), cs)
  }

  /** `s.strip()` */
  function Strip(s: string): string {
    Trim(s, Spaces)
  }

  /** Trimming removes exactly a run of `cs` characters around a core that neither starts nor ends with one */
  lemma {:induction false} TrimAround(pre: string, core: string, post: string, cs: set<char>)
    requires forall i :: 0 <= i < |pre| ==> pre[i] in cs
    requires forall i :: 0 <= i < |post| ==> post[i] in cs
    requires core != [] ==> core[0] !in cs && core[|core| - 1] !in cs
    ensures Trim(pre + core + post, cs) == core
    decreases |pre| + |post|
  {
    var s := pre + core + post;
    if pre != [] {
      assert s[0] in cs && s[1..] == pre[1..] + core + post;
      TrimAround(pre[1..], core, post, cs);
    } else if core == [] {
      assert s == post;
    } else {
      assert s == core + post;
      TrimLeftStops(s, cs);
      TrimRightOver(core, post, cs);
    }
  }

  lemma TrimLeftStops(s: string, cs: set<char>)
    requires s == [] || s[0] !in cs
    ensures TrimLeft(s, cs) == s
  {
  }

  lemma {:induction false} TrimRightOver(core: string, post: string, cs: set<char>)
    requires forall i :: 0 <= i < |post| ==> post[i] in cs
    requires core != [] ==> core[|core| - 1] !in cs
    ensures TrimRight(core + post, cs) == core
    decreases |post|
  {
    var s := core + post;
    if post != [] {
      assert s[|s| - 1] in cs && s[..|s| - 1] == core + post[..|post| - 1];
      TrimRightOver(core, post[..|post| - 1], cs);
    } else {
      assert s == core;
    }
  }

  /** The longest prefix of `s` holding no whitespace */
  function Token(s: string): (w: string)
    ensures w <= s
    ensures forall i :: 0 <= i < |w| ==> !IsSpace(w[i])
    ensures |w| < |s| ==> IsSpace(s[|w|])
    ensures s != [] && !IsSpace(s[0]) ==> w != []
  {
    if s == [] || IsSpace(s[0]) then [] else [s[0]] + Token(s[1..])
  }

  /** `s.split()`: the maximal runs of non-whitespace characters */
  function Words(s: string): seq<string>
    decreases |s|
  {
    var t := TrimLeft(s, Spaces);
    if t == [] then [] else var w := Token(t); [w] + Words(t[|w|..])
  }

  /** `s.split(maxsplit=1)`: the first word and, if anything follows, the rest after the whitespace */
  function SplitOnce(s: string): seq<string> {
    var t := TrimLeft(s, Spaces);
    if t == [] then []
    else
      var w := Token(t);
      var rest := TrimLeft(t[|w|..], Spaces);
      if rest == [] then [w] else [w, rest]
  }

  /** What `s.split(maxsplit=1)` keeps after the first word, "" when nothing follows it */
  function SplitRest(s: string): string {
    var parts := SplitOnce(s);
    if |parts| > 1 then parts[1] else []
  }

  /**
   * `rest` is the tail of `s` from its second word on: it starts with no whitespace and
   * splits into the words of `s` after the first
   */
  predicate RestAfterFirst(s: string, rest: string) {
    && Words(s) != [] && Words(rest) == Words(s)[1..]
    && Suffix(rest, s)
    && (rest != [] ==> !IsSpace(rest[0]))
  }

  /** `s.split(maxsplit=1)` keeps the first word and the tail of the text from the second word on */
  lemma SplitOnceRest(s: string)
    requires SplitOnce(s) != []
    ensures Words(s) != [] && SplitOnce(s)[0] == Words(s)[0]
    ensures RestAfterFirst(s, SplitRest(s))
  {
    var t := TrimLeft(s, Spaces);
    var w := Token(t);
    var after := t[|w|..];
    SplitOnceParts(s, t, w, after);
    WordsParts(s, t, w, after);
    SuffixParts(s, t, w, after);
    WordsTrimmed(after);
    SuffixOfSuffix(s, t, after, TrimLeft(after, Spaces));
  }

  lemma SplitOnceParts(s: string, t: string, w: string, after: string)
    requires t == TrimLeft(s, Spaces) && t != [] && w == Token(t) && after == t[|w|..]
    ensures SplitOnce(s) != [] && SplitOnce(s)[0] == w
    ensures SplitRest(s) == TrimLeft(after, Spaces)
  {
    var rest := TrimLeft(after, Spaces);
    assert SplitOnce(s) == if rest == [] then [w] else [w, rest];
  }

  lemma WordsParts(s: string, t: string, w: string, after: string)
    requires t == TrimLeft(s, Spaces) && t != [] && w == Token(t) && after == t[|w|..]
    ensures Words(s) == [w] + Words(after)
  {
  }

  lemma SuffixParts(s: string, t: string, w: string, after: string)
    requires t == TrimLeft(s, Spaces) && w <= t && after == t[|w|..]
    ensures Suffix(t, s) && Suffix(after, t)
  {
  }

  /** `t` is a tail of `s`: `s.endswith(t)` */
  predicate Suffix(t: string, s: string) {
    |t| <= |s| && t == s[|s| - |t|..]
  }

  /** A tail of a tail of `s` is a tail of `s` */
  lemma SuffixOfSuffix(s: string, t: string, u: string, v: string)
    requires Suffix(t, s) && Suffix(u, t) && Suffix(v, u)
    ensures Suffix(v, s)
  {
  }

  /** Leading whitespace does not change the words */
  lemma WordsTrimmed(s: string)
    ensures Words(TrimLeft(s, Spaces)) == Words(s)
  {
    TrimLeftStops(TrimLeft(s, Spaces), Spaces);
  }

  /** `s.split(c)` for a single-character separator */
  function SplitOn(s: string, c: char): (parts: seq<string>)
    ensures |parts| >= 1
  {
    if s == [] then [""]
    else
      var rest := SplitOn(s[1..], c);
      if s[0] == c then [""] + rest else [[s[0]] + rest[0]] + rest[1..]
  }

  /** Concatenation regroups freely */
  lemma AppendAssoc<T>(a: seq<T>, b: seq<T>, c: seq<T>)
    ensures a + b + c == a + (b + c)
  {
  }

  /** A non-empty sequence is its prefix followed by its last element */
  lemma InitLast<T>(s: seq<T>)
    requires s != []
    ensures s == s[..|s| - 1] + [s[|s| - 1]]
    ensures forall x :: x in s <==> x in s[..|s| - 1] || x == s[|s| - 1]
  {
  }

  /** A sequence is its head followed by its tail */
  lemma HeadTail<T>(s: seq<T>)
    requires s != []
    ensures [s[0]] + s[1..] == s
  {
  }

  /** `sep.join(parts)` */
  function Join(parts: seq<string>, sep: string): string {
    if parts == [] then ""
    else if |parts| == 1 then parts[0]
    else parts[0] + sep + Join(parts[1..], sep)
  }

  /** `s.index(x)` when present, `|s|` when not */
  function IndexOf<T(==)>(s: seq<T>, x: T): (k: nat)
    ensures k <= |s| && (k < |s| <==> x in s)
    ensures k < |s| ==> s[k] == x
    ensures forall i :: 0 <= i < k ==> s[i] != x
  {
    if s == [] then 0 else if s[0] == x then 0 else 1 + IndexOf(s[1..], x)
  }

  /** `s.rfind(c)`: the last index holding `c`, or -1 */
  function RFind(s: string, c: char): (i: int)
    ensures -1 <= i < |s|
    ensures i >= 0 ==> s[i] == c
    ensures forall k :: i < k < |s| ==> s[k] != c
  {
    if s == [] then -1 else if s[|s| - 1] == c then |s| - 1 else RFind(s[..|s| - 1], c)
  }

  /** `s.replace(pat, rep)`: every occurrence, left to right, without overlaps */
  function ReplaceAll(s: string, pat: string, rep: string): string
    requires pat != []
    decreases |s|
  {
    if |s| < |pat| then s
    else if pat <= s then rep + ReplaceAll(s[|pat|..], pat, rep)
    else [s[0]] + ReplaceAll(s[1..], pat, rep)
  }

  /** Replacing a pattern that does not occur leaves the text as it was */
  lemma {:induction false} ReplaceAbsent(s: string, pat: string, rep: string)
    requires pat != [] && !Contains(s, pat)
    ensures ReplaceAll(s, pat, rep) == s
    decreases |s|
  {
    if |s| >= |pat| {
      ReplaceAbsent(s[1..], pat, rep);
      assert s == [s[0]] + s[1..];
    }
  }
}
