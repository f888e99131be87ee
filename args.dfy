/**
 * How the shell reads its input: the command word and its argument text, the options of
 * `/new`, the query and tag of `/list`, and the number of `/recent` as Python's `int()` reads it.
 */
module Args {
  import opened Text
  import opened Wrappers

  /** The handlers of the shell's dispatch table */
  datatype Command =
    | Help | Exit | NewNote | Daily | ListNotes | Recent | RandomNote | SearchNotes
    | Show | Edit | Backlinks | Move | Archive | TagCounts | Info

  /** The dispatch table: a command word to its handler */
  function Route(word: string): (r: Option<Command>)
    ensures r.Some? ==> word != [] && word[0] == '/'
  {
    if word == "/help" then Some(Help)
    else if word == "/exit" || word == "/quit" then Some(Exit)
    else if word == "/new" then Some(NewNote)
    else if word == "/daily" then Some(Daily)
    else if word == "/list" then Some(ListNotes)
    else if word == "/recent" then Some(Recent)
    else if word == "/random" then Some(RandomNote)
    else if word == "/search" then Some(SearchNotes)
    else if word == "/show" then Some(Show)
    else if word == "/edit" then Some(Edit)
    else if word == "/backlinks" then Some(Backlinks)
    else if word == "/mv" then Some(Move)
    else if word == "/archive" then Some(Archive)
    else if word == "/tags" then Some(TagCounts)
    else if word == "/info" then Some(Info)
    else None
  }

  /** The command words the completer offers */
  const Completed: seq<string> := [
    "/new", "/daily", "/list", "/recent", "/random", "/find",
    "/search", "/show", "/edit", "/backlinks", "/mv", "/archive",
    "/tags", "/info", "/help", "/exit", "/quit"]

  /** Every command word the completer offers has a handler, except `/find` */
  lemma CompletedRouted()
    ensures forall w :: w in Completed && w != "/find" ==> Route(w).Some?
    ensures Route("/find") == None
  {
  }

  /** The command line split into its command word and argument text */
  datatype Line = Line(word: string, args: string)

  /**
   * `parts = text.split(maxsplit=1)`: the command word, and the rest after the whitespace that
   * follows it, or "" when nothing follows
   */
  function SplitCommand(text: string): (r: Option<Line>)
    ensures r.Some? <==> Words(text) != []
    ensures r.Some? ==> r.value.word == Words(text)[0]
    ensures r.Some? ==> RestAfterFirst(text, r.value.args)
  {
    if SplitOnce(text) == [] then None
    else
      SplitOnceRest(text);
      Some(Line(SplitOnce(text)[0], SplitRest(text)))
  }

  /** A line starting with `/` has a command word */
  lemma CommandLineSplits(text: string)
    requires text != [] && text[0] == '/'
    ensures SplitCommand(text).Some?
  {
    assert TrimLeft(text, Spaces) == text;
  }

  /** The options `/new` collects */
  datatype Options = Options(tags: seq<string>, aliases: seq<string>)

  /**
   * What the option loop collects from `parts[i..]`: `-t X` adds a tag, `-a X` an alias, and
   * any other token, or a flag with nothing after it, is passed over
   */
  function OptionsFrom(parts: seq<string>, i: nat): Options
    decreases |parts| - i
  {
    if i >= |parts| then Options([], [])
    else if parts[i] == "-t" && i + 1 < |parts| then
      var rest := OptionsFrom(parts, i + 2);
      Options([parts[i + 1]] + rest.tags, rest.aliases)
    else if parts[i] == "-a" && i + 1 < |parts| then
      var rest := OptionsFrom(parts, i + 2);
      Options(rest.tags, [parts[i + 1]] + rest.aliases)
    else OptionsFrom(parts, i + 1)
  }

  /** The option loop of `/new`, over the tokens after the title */
  method ParseOptions(parts: seq<string>) returns (tags: seq<string>, aliases: seq<string>)
    ensures Options(tags, aliases) == OptionsFrom(parts, 1)
  {
    tags, aliases := [], [];
    var i := 1;
    while i < |parts|
      invariant i == 1 || i <= |parts|
      invariant tags + OptionsFrom(parts, i).tags == OptionsFrom(parts, 1).tags
      invariant aliases + OptionsFrom(parts, i).aliases == OptionsFrom(parts, 1).aliases
      decreases |parts| - i
    {
      if parts[i] == "-t" && i + 1 < |parts| {
        tags := tags + [parts[i + 1]];
        i := i + 2;
      } else if parts[i] == "-a" && i + 1 < |parts| {
        aliases := aliases + [parts[i + 1]];
        i := i + 2;
      } else {
        i := i + 1;
      }
    }
  }

  /** Every tag follows a `-t` and every alias an `-a`, and each takes two tokens */
  lemma {:induction false} OptionsSound(parts: seq<string>, i: nat)
    ensures forall t :: t in OptionsFrom(parts, i).tags ==>
      exists j :: i <= j && j + 1 < |parts| && parts[j] == "-t" && parts[j + 1] == t
    ensures forall a :: a in OptionsFrom(parts, i).aliases ==>
      exists j :: i <= j && j + 1 < |parts| && parts[j] == "-a" && parts[j + 1] == a
    ensures i <= |parts| ==> 2 * (|OptionsFrom(parts, i).tags| + |OptionsFrom(parts, i).aliases|) <= |parts| - i
    decreases |parts| - i
  {
    if i < |parts| {
      if (parts[i] == "-t" || parts[i] == "-a") && i + 1 < |parts| {
        OptionsSound(parts, i + 2);
      } else {
        OptionsSound(parts, i + 1);
      }
    }
  }

  /** Flag-value pairs: `true` for `-t`, `false` for `-a` */
  function Spell(pairs: seq<(bool, string)>): seq<string> {
    if pairs == [] then []
    else [if pairs[0].0 then "-t" else "-a", pairs[0].1] + Spell(pairs[1..])
  }

  function TagsOf(pairs: seq<(bool, string)>): seq<string> {
    if pairs == [] then [] else (if pairs[0].0 then [pairs[0].1] else []) + TagsOf(pairs[1..])
  }

  function AliasesOf(pairs: seq<(bool, string)>): seq<string> {
    if pairs == [] then [] else (if pairs[0].0 then [] else [pairs[0].1]) + AliasesOf(pairs[1..])
  }

  /** Spelled-out flags come back in order, whatever their values, even a value that looks like a flag */
  lemma {:induction false} OptionsOfPairs(prefix: seq<string>, pairs: seq<(bool, string)>)
    ensures OptionsFrom(prefix + Spell(pairs), |prefix|) == Options(TagsOf(pairs), AliasesOf(pairs))
    decreases |pairs|
  {
    if pairs != [] {
      var head := [if pairs[0].0 then "-t" else "-a", pairs[0].1];
      var s := prefix + Spell(pairs);
      assert s == (prefix + head) + Spell(pairs[1..]);
      assert s[|prefix|] == head[0] && s[|prefix| + 1] == pairs[0].1;
      OptionsOfPairs(prefix + head, pairs[1..]);
    }
  }

  /**
   * The arguments of `/list`: after a `-t` with a word behind it, that word is the tag and the
   * words before the `-t` joined by single spaces are the query; a `-t` at the end drops both;
   * without `-t` the whole text is the query. "" stands for no filter.
   */
  function ListArgs(args: string): (r: (string, string))
  {
    if args == [] then ("", "")
    else
      var parts := Words(args);
      if "-t" in parts then
        var k := IndexOf(parts, "-t");
        if k + 1 < |parts| then (Join(parts[..k], " "), parts[k + 1]) else ("", "")
      else (args, "")
  }

  /** A word: not empty, no whitespace */
  predicate Plain(w: string) {
    w != [] && forall i :: 0 <= i < |w| ==> !IsSpace(w[i])
  }

  /** Typing the words of a query, then `-t` and a tag, gives back the query and the tag */
  lemma ListArgsTyped(words: seq<string>, tag: string)
    requires forall w :: w in words ==> Plain(w) && w != "-t"
    requires Plain(tag)
    ensures ListArgs(Join(words + ["-t", tag], " ")) == (Join(words, " "), tag)
  {
    var all := words + ["-t", tag];
    assert forall w :: w in all ==> Plain(w) by {
      assert Plain("-t");
    }
    WordsJoin(all);
    assert all[|words|] == "-t";
    assert IndexOf(all, "-t") == |words|;
    assert all[..|words|] == words;
  }

  /** Splitting words joined by single spaces gives the words back */
  lemma {:induction false} WordsJoin(words: seq<string>)
    requires forall w :: w in words ==> Plain(w)
    ensures Words(Join(words, " ")) == words
    decreases |words|
  {
    if words == [] {
    } else if |words| == 1 {
      assert Plain(words[0]) by { assert words[0] in words; }
      WordsOne(words[0]);
    } else {
      assert Plain(words[0]) by { assert words[0] in words; }
      WordsJoin(words[1..]);
      WordsCons(words[0], Join(words[1..], " "));
    }
  }

  lemma WordsOne(w: string)
    requires Plain(w)
    ensures Words(w) == [w]
  {
    TokenOf(w, "");
    assert w + "" == w;
    TrimLeftStops(w, Spaces);
    assert w[|w|..] == [];
  }

  lemma WordsCons(w: string, rest: string)
    requires Plain(w)
    ensures Words(w + " " + rest) == [w] + Words(rest)
  {
    var s := w + " " + rest;
    assert s[0] == w[0];
    TrimLeftStops(s, Spaces);
    TokenOf(w, " " + rest);
    assert s == w + (" " + rest);
    assert s[|w|..] == " " + rest;
    WordsAfterSpace(rest);
  }

  lemma {:induction false} TokenOf(w: string, rest: string)
    requires forall i :: 0 <= i < |w| ==> !IsSpace(w[i])
    requires rest == [] || IsSpace(rest[0])
    ensures Token(w + rest) == w
    decreases |w|
  {
    if w != [] {
      assert (w + rest)[1..] == w[1..] + rest;
      TokenOf(w[1..], rest);
    }
  }

  lemma WordsAfterSpace(s: string)
    ensures Words(" " + s) == Words(s)
  {
    assert (" " + s)[1..] == s;
  }

  /** `int(s)` for a decimal text: surrounding whitespace, an optional sign, digits with single underscores between them */
  function ParseInt(s: string): (r: Option<int>)
  {
    ParseCore(Strip(s))
  }

  /** `int()` on the stripped text: an optional sign, then the digits */
  function ParseCore(t: string): Option<int> {
    if t == [] then None
    else if t[0] == '-' then Signed(t[1..], true)
    else if t[0] == '+' then Signed(t[1..], false)
    else Signed(t, false)
  }

  /**
   * The default of `sys.get_int_max_str_digits()`: `int()` refuses a decimal text with more
   * digits than this, underscores not counted
   */
  const MaxStrDigits := 4300

  function Signed(digits: string, negative: bool): Option<int> {
    if !DigitsOk(digits) || DigitCount(digits) > MaxStrDigits then None
    else if negative then Some(0 - Value(digits))
    else Some(Value(digits))
  }

  /** What `int()` accepts after the sign */
  predicate DigitsOk(d: string) {
    d != [] && IsDigit(d[0]) && IsDigit(d[|d| - 1]) && DigitChars(d) && NoDoubleUnderscore(d)
  }

  /** Only digits and underscores */
  predicate DigitChars(d: string) {
    forall i :: 0 <= i < |d| ==> IsDigit(d[i]) || d[i] == '_'
  }

  /** No underscore right after another */
  predicate NoDoubleUnderscore(d: string) {
    forall i :: 0 <= i < |d| - 1 ==> d[i] == '_' ==> d[i + 1] != '_'
  }

  /** The number the digits spell, underscores ignored */
  function Value(d: string): nat
    decreases |d|
  {
    if d == [] then 0
    else if IsDigit(d[|d| - 1]) then 10 * Value(d[..|d| - 1]) + (d[|d| - 1] as int - '0' as int)
    else Value(d[..|d| - 1])
  }

  /** The number of digits, underscores not counted */
  function DigitCount(d: string): nat
    decreases |d|
  {
    if d == [] then 0
    else DigitCount(d[..|d| - 1]) + (if IsDigit(d[|d| - 1]) then 1 else 0)
  }

  /** A text of digits only counts each of its characters */
  lemma {:induction false} CountAllDigits(d: string)
    requires forall i :: 0 <= i < |d| ==> IsDigit(d[i])
    ensures DigitCount(d) == |d|
    decreases |d|
  {
    if d != [] {
      CountAllDigits(d[..|d| - 1]);
    }
  }

  /** The decimal spelling of a natural number */
  function Digits(n: nat): (d: string)
    ensures d != [] && forall i :: 0 <= i < |d| ==> IsDigit(d[i])
  {
    var c := ('0' as int + n % 10) as char;
    if n < 10 then [c] else Digits(n / 10) + [c]
  }

  /** The decimal spelling of an integer: `str(n)` */
  function Decimal(n: int): string {
    if n < 0 then "-" + Digits(-n) else Digits(n)
  }

  lemma {:induction false} ValueDigits(n: nat)
    ensures Value(Digits(n)) == n
    decreases n
  {
    var d := Digits(n);
    if n >= 10 {
      ValueDigits(n / 10);
      assert d[..|d| - 1] == Digits(n / 10);
    }
  }

  /** `int(str(n)) == n` for every `n` of at most `MaxStrDigits` digits */
  lemma ParseDecimal(n: int)
    requires |Digits(if n < 0 then -n else n)| <= MaxStrDigits
    ensures ParseInt(Decimal(n)) == Some(n)
  {
    var s := Decimal(n);
    var m := if n < 0 then -n else n;
    var d := Digits(m);
    ValueDigits(m);
    CountAllDigits(d);
    assert s[0] == '-' || IsDigit(s[0]);
    StripPlain(s);
    if n < 0 {
      assert s[1..] == d;
    }
  }

  /** A text that neither starts nor ends with whitespace strips to itself */
  lemma StripPlain(s: string)
    requires s != [] && !IsSpace(s[0]) && !IsSpace(s[|s| - 1])
    ensures Strip(s) == s
  {
    TrimLeftStops(s, Spaces);
    TrimRightOver(s, [], Spaces);
    assert s + [] == s;
  }

  /** `int()` takes a single underscore between two digits and reads the number as if it were not there */
  lemma UnderscoreAccepted(a: string, b: string)
    requires a != [] && IsDigit(a[|a| - 1]) && b != [] && IsDigit(b[0])
    ensures ParseInt(a + "_" + b) == ParseInt(a + b)
  {
    DigitNotSpace(a[|a| - 1]);
    DigitNotSpace(b[0]);
    TrimLeftKeepsLast(a, Spaces);
    TrimRightKeepsFirst(b, Spaces);
    StripJoin(a, "_", b);
    StripMeet(a, b);
    CoreUnderscore(TrimLeft(a, Spaces), TrimRight(b, Spaces));
  }

  lemma DigitNotSpace(c: char)
    requires IsDigit(c)
    ensures c !in Spaces
  {
  }

  /** Stripping a text whose outer parts keep something after trimming strips the outer parts only */
  lemma StripJoin(a: string, m: string, b: string)
    requires TrimLeft(a, Spaces) != [] && TrimRight(b, Spaces) != []
    ensures Strip(a + m + b) == TrimLeft(a, Spaces) + m + TrimRight(b, Spaces)
  {
    TrimRightJoin(m, b, Spaces);
    StripMeet(a, m + b);
    Regroup(a, m, b);
    Regroup(TrimLeft(a, Spaces), m, TrimRight(b, Spaces));
  }

  lemma Regroup(x: string, y: string, z: string)
    ensures x + y + z == x + (y + z)
  {
  }

  /** The same, with nothing between the two parts */
  lemma StripMeet(a: string, b: string)
    requires TrimLeft(a, Spaces) != [] && TrimRight(b, Spaces) != []
    ensures Strip(a + b) == TrimLeft(a, Spaces) + TrimRight(b, Spaces)
  {
    TrimLeftJoin(a, b, Spaces);
    TrimRightJoin(TrimLeft(a, Spaces), b, Spaces);
  }

  lemma {:induction false} TrimLeftJoin(a: string, rest: string, cs: set<char>)
    requires TrimLeft(a, cs) != []
    ensures TrimLeft(a + rest, cs) == TrimLeft(a, cs) + rest
    decreases |a|
  {
    assert a != [];
    if a[0] in cs {
      assert (a + rest)[1..] == a[1..] + rest;
      TrimLeftJoin(a[1..], rest, cs);
    }
  }

  lemma {:induction false} TrimRightJoin(x: string, b: string, cs: set<char>)
    requires TrimRight(b, cs) != []
    ensures TrimRight(x + b, cs) == x + TrimRight(b, cs)
    decreases |b|
  {
    assert b != [];
    if b[|b| - 1] in cs {
      assert (x + b)[..|x + b| - 1] == x + b[..|b| - 1];
      TrimRightJoin(x, b[..|b| - 1], cs);
    }
  }

  lemma TrimLeftKeepsLast(s: string, cs: set<char>)
    requires s != [] && s[|s| - 1] !in cs
    ensures TrimLeft(s, cs) != [] && TrimLeft(s, cs)[|TrimLeft(s, cs)| - 1] == s[|s| - 1]
  {
  }

  lemma TrimRightKeepsFirst(s: string, cs: set<char>)
    requires s != [] && s[0] !in cs
    ensures TrimRight(s, cs) != [] && TrimRight(s, cs)[0] == s[0]
  {
  }

  lemma CoreUnderscore(a: string, b: string)
    requires a != [] && IsDigit(a[|a| - 1]) && b != [] && IsDigit(b[0])
    ensures ParseCore(a + "_" + b) == ParseCore(a + b)
  {
    assert (a + "_" + b)[0] == a[0] && (a + b)[0] == a[0];
    if a[0] == '-' || a[0] == '+' {
      var x := a[1..];
      assert (a + "_" + b)[1..] == x + "_" + b;
      assert (a + b)[1..] == x + b;
      DigitsUnderscore(x, b);
    } else {
      DigitsUnderscore(a, b);
    }
  }

  /** An underscore between two digits changes neither whether the digits are accepted nor their value */
  lemma DigitsUnderscore(x: string, y: string)
    requires x != [] && IsDigit(x[|x| - 1]) && y != [] && IsDigit(y[0])
    ensures DigitsOk(x + "_" + y) == DigitsOk(x + y)
    ensures Value(x + "_" + y) == Value(x + y)
    ensures DigitCount(x + "_" + y) == DigitCount(x + y)
  {
    var u := x + ("_" + y);
    assert x + "_" + y == u;
    DigitCharsJoin(x, "_" + y);
    DigitCharsJoin("_", y);
    DigitCharsJoin(x, y);
    NoDoubleJoin(x, "_" + y);
    NoDoubleJoin("_", y);
    NoDoubleJoin(x, y);
    assert u[0] == x[0] && u[|u| - 1] == y[|y| - 1];
    assert (x + y)[0] == x[0] && (x + y)[|x + y| - 1] == y[|y| - 1];
    ValueUnderscore(x, y);
    CountUnderscore(x, y);
  }

  lemma DigitCharsJoin(x: string, y: string)
    ensures DigitChars(x + y) <==> DigitChars(x) && DigitChars(y)
  {
    if DigitChars(x) && DigitChars(y) {
      forall i | 0 <= i < |x + y| ensures IsDigit((x + y)[i]) || (x + y)[i] == '_' {
        if i >= |x| {
          assert (x + y)[i] == y[i - |x|];
        }
      }
    }
    if DigitChars(x + y) {
      forall i | 0 <= i < |y| ensures IsDigit(y[i]) || y[i] == '_' {
        assert (x + y)[|x| + i] == y[i];
      }
      forall i | 0 <= i < |x| ensures IsDigit(x[i]) || x[i] == '_' {
        assert (x + y)[i] == x[i];
      }
    }
  }

  /** Joining at a point where one side is not an underscore makes no new double underscore */
  lemma NoDoubleJoin(x: string, y: string)
    requires x != [] && y != [] && (x[|x| - 1] != '_' || y[0] != '_')
    ensures NoDoubleUnderscore(x + y) <==> NoDoubleUnderscore(x) && NoDoubleUnderscore(y)
  {
    var u := x + y;
    if NoDoubleUnderscore(x) && NoDoubleUnderscore(y) {
      forall i | 0 <= i < |u| - 1 && u[i] == '_' ensures u[i + 1] != '_' {
        if i >= |x| {
          assert u[i] == y[i - |x|] && u[i + 1] == y[i + 1 - |x|];
        }
      }
    }
    if NoDoubleUnderscore(u) {
      forall i | 0 <= i < |y| - 1 && y[i] == '_' ensures y[i + 1] != '_' {
        assert u[|x| + i] == y[i] && u[|x| + i + 1] == y[i + 1];
      }
      forall i | 0 <= i < |x| - 1 && x[i] == '_' ensures x[i + 1] != '_' {
        assert u[i] == x[i] && u[i + 1] == x[i + 1];
      }
    }
  }

  lemma {:induction false} ValueUnderscore(x: string, y: string)
    ensures Value(x + "_" + y) == Value(x + y)
    decreases |y|
  {
    if y == [] {
      assert x + "_" + y == x + "_" && (x + "_")[..|x|] == x && x + y == x;
    } else {
      var init := y[..|y| - 1];
      assert (x + "_" + y)[..|x| + |y|] == x + "_" + init;
      assert (x + y)[..|x| + |y| - 1] == x + init;
      ValueUnderscore(x, init);
    }
  }

  lemma {:induction false} CountUnderscore(x: string, y: string)
    ensures DigitCount(x + "_" + y) == DigitCount(x + y)
    decreases |y|
  {
    if y == [] {
      assert x + "_" + y == x + "_" && (x + "_")[..|x|] == x && x + y == x;
    } else {
      var init := y[..|y| - 1];
      assert (x + "_" + y)[..|x| + |y|] == x + "_" + init;
      assert (x + y)[..|x| + |y| - 1] == x + init;
      CountUnderscore(x, init);
    }
  }

  /** `int()` refuses the decimal text of every number with more than `MaxStrDigits` digits */
  lemma TooManyDigitsRefused(n: int)
    requires |Digits(if n < 0 then -n else n)| > MaxStrDigits
    ensures ParseInt(Decimal(n)) == None
  {
    var s := Decimal(n);
    var d := Digits(if n < 0 then -n else n);
    CountAllDigits(d);
    assert s[0] == '-' || IsDigit(s[0]);
    StripPlain(s);
    if n < 0 {
      assert s[1..] == d;
    }
  }

  /** `int()` refuses a text whose stripped form holds two underscores in a row */
  lemma DoubleUnderscoreRefused(s: string, i: nat)
    requires i + 1 < |Strip(s)| && Strip(s)[i] == '_' && Strip(s)[i + 1] == '_'
    ensures ParseInt(s) == None
  {
    var t := Strip(s);
    if t[0] == '-' || t[0] == '+' {
      assert t[1..][i - 1] == '_' && t[1..][i] == '_';
      assert !DigitsOk(t[1..]);
    } else {
      assert !DigitsOk(t);
    }
  }

  /** `int()` refuses a text whose stripped form ends in an underscore */
  lemma TrailingUnderscoreRefused(s: string)
    requires Strip(s) != [] && Strip(s)[|Strip(s)| - 1] == '_'
    ensures ParseInt(s) == None
  {
    var t := Strip(s);
    if t[0] == '-' || t[0] == '+' {
      assert t[1..] == [] || t[1..][|t[1..]| - 1] == '_';
      assert !DigitsOk(t[1..]);
    } else {
      assert !DigitsOk(t);
    }
  }

  /** `int()` refuses a sign with no digits, whatever whitespace surrounds it */
  lemma SignAloneRefused(s: string)
    requires |Strip(s)| == 1 && (Strip(s)[0] == '-' || Strip(s)[0] == '+')
    ensures ParseInt(s) == None
  {
    assert Strip(s)[1..] == [];
  }

  /** `int()` reads a non-negative number of at most `MaxStrDigits` digits back with whitespace around it and a leading `+` */
  lemma PlusAccepted(pre: string, n: nat, post: string)
    requires forall i :: 0 <= i < |pre| ==> IsSpace(pre[i])
    requires forall i :: 0 <= i < |post| ==> IsSpace(post[i])
    requires |Digits(n)| <= MaxStrDigits
    ensures ParseInt(pre + "+" + Decimal(n) + post) == Some(n)
  {
    var d := Digits(n);
    CountAllDigits(d);
    var core := "+" + d;
    assert pre + "+" + Decimal(n) + post == pre + core + post;
    TrimAround(pre, core, post, Spaces);
    assert core[1..] == d;
    ValueDigits(n);
  }
}
