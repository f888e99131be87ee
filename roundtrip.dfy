/**
 * What the header reader of `list` makes of a note that `new` wrote: the title, the tags and
 * the creation time come back as written, as long as each is a single line without
 * surrounding whitespace (and, for the tags, without a leading or trailing '-').
 */
module RoundTrip {
  import opened Text
  import opened Wrappers
  import opened Frontmatter
  import opened Reader

  /** A header value that survives the reader: not empty, on one line, no whitespace at either end */
  predicate Clean(s: string) {
    && s != []
    && !IsSpace(s[0]) && !IsSpace(s[|s| - 1])
    && forall k :: 0 <= k < |s| ==> s[k] != '\n'
  }

  /** A tag that survives the reader: clean, and no '-' at either end */
  predicate CleanTag(t: string) {
    Clean(t) && t[0] != '-' && t[|t| - 1] != '-'
  }

  /** The item lines without their newlines */
  function Bullets(tags: seq<string>): (b: seq<string>)
    ensures |b| == |tags| && forall i :: 0 <= i < |tags| ==> b[i] == "  - " + tags[i]
  {
    seq(|tags|, i requires 0 <= i < |tags| => "  - " + tags[i])
  }

  /** What follows `tags:` up to the closing marker */
  function TagBlock(tags: seq<string>): string {
    if tags == [] then "" else "\n" + Join(Bullets(tags), "\n")
  }

  /** The header text the reader sees in a note `new` wrote */
  function WrittenHeader(title: string, created: string, tags: seq<string>): string {
    Lines(title, created, TagBlock(tags))
  }

  lemma TagBlockCons(tags: seq<string>)
    requires tags != []
    ensures TagBlock(tags) == "\n" + "  - " + tags[0] + TagBlock(tags[1..])
  {
    var b := Bullets(tags);
    var x := "  - " + tags[0];
    assert b[0] == x;
    AppendAssoc("\n", "  - ", tags[0]);
    if |tags| == 1 {
      assert TagBlock(tags[1..]) == "";
      assert TagBlock(tags) == "\n" + x;
    } else {
      assert b[1..] == Bullets(tags[1..]);
      var j := Join(b[1..], "\n");
      assert TagBlock(tags) == "\n" + (x + "\n" + j);
      assert TagBlock(tags[1..]) == "\n" + j;
      AppendAssoc(x, "\n", j);
      AppendAssoc("\n", x, "\n" + j);
    }
  }

  lemma {:induction false} ItemLinesBlock(tags: seq<string>)
    ensures "\n" + ItemLines(tags) == TagBlock(tags) + "\n"
    decreases |tags|
  {
    if tags != [] {
      ItemLinesBlock(tags[1..]);
      TagBlockCons(tags);
      BlockStep(tags[0], ItemLines(tags[1..]), TagBlock(tags[1..]));
    }
  }

  lemma BlockStep(t: string, lines: string, block: string)
    requires "\n" + lines == block + "\n"
    ensures "\n" + ("  - " + t + "\n" + lines) == "\n" + "  - " + t + block + "\n"
  {
    calc {
      "\n" + ("  - " + t + "\n" + lines);
      "\n" + "  - " + t + ("\n" + lines);
      "\n" + "  - " + t + (block + "\n");
    }
  }

  /** A note written by `new` is its header text between the two markers, then the heading */
  lemma NoteShape(title: string, created: string, tags: seq<string>)
    ensures CliNote(title, created, tags)
      == "---\n" + WrittenHeader(title, created, tags) + "\n---\n\n# " + title + "\n\n"
  {
    CliLayout(title, created, tags);
    ItemLinesBlock(tags);
    NoteStep(title, created, ItemLines(tags), TagBlock(tags));
  }

  lemma NoteStep(title: string, created: string, lines: string, block: string)
    requires "\n" + lines == block + "\n"
    ensures "---\n" + ("title: " + title + "\ncreated: " + created + "\ntags:\n" + lines) + "---\n\n# " + title + "\n\n"
      == "---\n" + ("title: " + title + "\ncreated: " + created + "\ntags:" + block) + "\n---\n\n# " + title + "\n\n"
  {
    var pre := "---\n" + "title: " + title + "\ncreated: " + created + "\ntags:";
    calc {
      "---\n" + ("title: " + title + "\ncreated: " + created + "\ntags:\n" + lines) + "---\n\n# " + title + "\n\n";
      pre + ("\n" + lines) + "---\n\n# " + title + "\n\n";
      pre + (block + "\n") + "---\n\n# " + title + "\n\n";
      "---\n" + ("title: " + title + "\ncreated: " + created + "\ntags:" + block) + "\n---\n\n# " + title + "\n\n";
    }
  }

  /** No line but the first starts with '-', and the text does not end with a newline */
  predicate NoDashLine(s: string) {
    && (forall i :: 0 <= i < |s| - 1 && s[i] == '\n' ==> s[i + 1] != '-')
    && (s == [] || s[|s| - 1] != '\n')
  }

  lemma NoDashLineAppend(a: string, b: string)
    requires NoDashLine(a) && NoDashLine(b)
    ensures NoDashLine(a + b)
  {
    var s := a + b;
    forall i | 0 <= i < |s| - 1 ensures s[i] == '\n' ==> s[i + 1] != '-' {
      if i < |a| - 1 {
        assert s[i] == a[i] && s[i + 1] == a[i + 1];
      } else if i >= |a| {
        assert s[i] == b[i - |a|] && s[i + 1] == b[i - |a| + 1];
      } else {
        assert s[i] == a[|a| - 1];
      }
    }
    if b == [] {
      assert s == a;
    } else {
      assert s[|s| - 1] == b[|b| - 1];
    }
  }

  lemma NotAt(s: string, sub: string, i: nat)
    requires !Contains(s, sub)
    ensures !At(s, sub, i)
  {
    if At(s, sub, i) {
      ContainsAt(s, sub, i);
    }
  }

  /** A text without newlines */
  lemma NoDashLineFlat(x: string)
    requires forall k :: 0 <= k < |x| ==> x[k] != '\n'
    ensures NoDashLine(x)
  {
  }

  /** A newline, then a line that does not start with '-' */
  lemma NoDashLineOne(x: string)
    requires x != [] && x[0] != '-' && forall k :: 0 <= k < |x| ==> x[k] != '\n'
    ensures NoDashLine("\n" + x)
  {
    var s := "\n" + x;
    forall i | 0 <= i < |s| - 1 ensures s[i] == '\n' ==> s[i + 1] != '-' {
      if i > 0 {
        assert s[i] == x[i - 1];
      }
    }
    assert s[|s| - 1] == x[|x| - 1];
  }

  lemma {:induction false} TagBlockNoDash(tags: seq<string>)
    requires forall t :: t in tags ==> CleanTag(t)
    ensures NoDashLine(TagBlock(tags))
    decreases |tags|
  {
    if tags != [] {
      TagBlockCons(tags);
      assert CleanTag(tags[0]);
      TagLineNoDash(tags[0]);
      assert forall t :: t in tags[1..] ==> t in tags;
      TagBlockNoDash(tags[1..]);
      NoDashLineAppend("\n" + "  - " + tags[0], TagBlock(tags[1..]));
    }
  }

  /** One item line, with the newline before it */
  lemma TagLineNoDash(t: string)
    requires CleanTag(t)
    ensures NoDashLine("\n" + "  - " + t)
  {
    KeyLineFlat("  - ", t);
    NoDashLineOne("  - " + t);
    AppendAssoc("\n", "  - ", t);
  }

  lemma HeaderNoDash(title: string, created: string, tags: seq<string>)
    requires Clean(title) && Clean(created)
    requires forall t :: t in tags ==> CleanTag(t)
    ensures NoDashLine(WrittenHeader(title, created, tags))
  {
    TagBlockNoDash(tags);
    LinesNoDash(title, created, TagBlock(tags));
  }

  /** A key, then a value on the same line */
  lemma KeyLineFlat(key: string, value: string)
    requires forall k :: 0 <= k < |key| ==> key[k] != '\n'
    requires forall k :: 0 <= k < |value| ==> value[k] != '\n'
    ensures forall k :: 0 <= k < |key + value| ==> (key + value)[k] != '\n'
  {
    forall k | 0 <= k < |key + value| ensures (key + value)[k] != '\n' {
      if k >= |key| {
        assert (key + value)[k] == value[k - |key|];
      }
    }
  }

  lemma LinesNoDash(title: string, created: string, block: string)
    requires Clean(title) && Clean(created) && NoDashLine(block)
    ensures NoDashLine("title: " + title + "\ncreated: " + created + "\ntags:" + block)
  {
    var a := "title: " + title;
    var b := "created: " + created;
    KeyLineFlat("title: ", title);
    KeyLineFlat("created: ", created);
    NoDashLineFlat(a);
    NoDashLineOne(b);
    NoDashLineOne("tags:");
    NoDashLineAppend(a, "\n" + b);
    NoDashLineAppend(a + ("\n" + b), "\n" + "tags:");
    NoDashLineAppend(a + ("\n" + b) + ("\n" + "tags:"), block);
    LinesRegroup(title, created, block);
  }

  lemma LinesRegroup(title: string, created: string, block: string)
    ensures "title: " + title + "\ncreated: " + created + "\ntags:" + block
      == ("title: " + title) + ("\n" + ("created: " + created)) + ("\n" + "tags:") + block
  {
    assert "\n" + "created: " == "\ncreated: ";
    assert "\n" + "tags:" == "\ntags:";
    Regroup5("title: ", title, "\n", "created: ", created, "tags:", block);
  }

  lemma Regroup5(p: string, x: string, n: string, q: string, y: string, r: string, z: string)
    ensures p + x + (n + q) + y + (n + r) + z == (p + x) + (n + (q + y)) + (n + r) + z
  {
  }

  /** No "\n---" starts inside a header whose lines never start with '-' */
  lemma NoMarkerInside(c: string, fm: string, k: nat)
    requires NoDashLine(fm) && fm != []
    requires 4 + |fm| <= |c| && c[4..4 + |fm|] == fm
    requires 4 <= k < 4 + |fm|
    ensures !MarkerAt(c, k)
  {
    assert c[k] == fm[k - 4];
    if k + 4 <= |c| {
      var w := c[k..k + 4];
      assert w[0] == c[k] && w[1] == c[k + 1];
      if k < 3 + |fm| {
        assert c[k + 1] == fm[k - 3];
      }
    }
  }

  /** A header whose lines never start with '-' ends at the marker written after it */
  lemma MarkerAfter(fm: string, tail: string)
    requires NoDashLine(fm)
    ensures HeaderOf("---\n" + fm + "\n---" + tail) == Some(fm)
  {
    var c := "---\n" + fm + "\n---" + tail;
    assert c[..4] == "---\n";
    assert c[4..4 + |fm|] == fm;
    assert MarkerAt(c, 4 + |fm|) by {
      assert c[4 + |fm|..8 + |fm|] == "\n---";
    }
    forall k | 4 <= k < 4 + |fm| ensures !MarkerAt(c, k) {
      NoMarkerInside(c, fm, k);
    }
    assert MarkerFrom(c, 4) == Some(4 + |fm|);
  }

  /** The reader finds the header `new` wrote: the first "\n---" is the closing marker */
  lemma HeaderFound(title: string, created: string, tags: seq<string>)
    requires Clean(title) && Clean(created)
    requires forall t :: t in tags ==> CleanTag(t)
    ensures HeaderOf(CliNote(title, created, tags)) == Some(WrittenHeader(title, created, tags))
  {
    NoteShape(title, created, tags);
    HeaderNoDash(title, created, tags);
    HeaderSplit(WrittenHeader(title, created, tags), title);
  }

  lemma HeaderSplit(fm: string, title: string)
    requires NoDashLine(fm)
    ensures HeaderOf("---\n" + fm + "\n---\n\n# " + title + "\n\n") == Some(fm)
  {
    var tail := "\n\n# " + title + "\n\n";
    MarkerAfter(fm, tail);
    assert "---\n" + fm + "\n---\n\n# " + title + "\n\n" == "---\n" + fm + "\n---" + tail;
  }

  /** Searching from `i` finds what searching from `j` finds when no match of the key starts in between */
  lemma {:induction false} FieldFromSkip(s: string, key: string, i: nat, j: nat)
    requires key != [] && i <= j <= |s|
    requires forall k :: i <= k < j ==> !At(s, key, k)
    ensures FieldFrom(s, key, i) == FieldFrom(s, key, j)
    decreases j - i
  {
    if i < j {
      assert !At(s, key, i);
      FieldFromSkip(s, key, i + 1, j);
    }
  }

  /** A line `key value` with a clean value: the search at the key yields the value */
  lemma FieldLine(s: string, key: string, i: nat, v: string)
    requires Clean(v) && key != []
    requires At(s, key, i)
    requires i + |key| + 1 + |v| <= |s| && s[i + |key|] == ' '
    requires s[i + |key| + 1..i + |key| + 1 + |v|] == v
    requires i + |key| + 1 + |v| < |s| ==> s[i + |key| + 1 + |v|] == '\n'
    ensures FieldFrom(s, key, i) == Some(v)
  {
    var m := i + |key| + 1;
    assert s[m] == v[0];
    assert SkipSpaces(s, m) == m;
    assert SkipSpaces(s, i + |key|) == m;
    forall k | m <= k < m + |v| ensures s[k] != '\n' {
      assert s[k] == v[k - m];
    }
    assert LineEnd(s, m) == m + |v|;
  }

  /** The three header lines with the tag block after `tags:` */
  function Lines(title: string, created: string, block: string): string {
    "title: " + title + "\ncreated: " + created + "\ntags:" + block
  }

  /** The title comes back from the header `new` wrote */
  lemma TitleRead(title: string, created: string, block: string)
    requires Clean(title)
    ensures FieldFrom(Lines(title, created, block), "title:", 0) == Some(title)
  {
    var s := Lines(title, created, block);
    assert s[..7] == "title: " && s[7..7 + |title|] == title && s[7 + |title|] == '\n';
    FieldLine(s, "title:", 0, title);
  }

  /** The creation time comes back too, when the title does not itself hold `created:` */
  lemma CreatedRead(title: string, created: string, block: string)
    requires Clean(title) && Clean(created) && !Contains(title, "created:")
    ensures FieldFrom(Lines(title, created, block), "created:", 0) == Some(created)
  {
    var line := "title: " + title;
    var post := "\ntags:" + block;
    TitleLineFree(title);
    LinesAround(title, created, block);
    FieldAfterLine(line, "created:" + " " + created + post, "created:");
    FieldLineAt(line + "\n", "created:", created, post);
  }

  /** The header text as the title line, then the `created:` line and what follows it */
  lemma LinesAround(title: string, created: string, block: string)
    ensures var line, rest := "title: " + title, "created:" + " " + created + ("\ntags:" + block);
      && Lines(title, created, block) == line + "\n" + rest
      && line + "\n" + rest == (line + "\n") + "created:" + " " + created + ("\ntags:" + block)
  {
    assert "\ncreated: " == "\n" + "created:" + " ";
    RegroupAround("title: ", title, "\n", "created:", " ", created, "\ntags:", block);
  }

  lemma RegroupAround(p: string, t: string, n: string, k: string, sp: string, c: string, q: string, b: string)
    ensures p + t + (n + k + sp) + c + q + b == (p + t) + n + (k + sp + c + (q + b))
    ensures (p + t) + n + (k + sp + c + (q + b)) == ((p + t) + n) + k + sp + c + (q + b)
  {
  }

  /** A line `key value` after `pre`, followed by the end or a newline: the search at the key yields the value */
  lemma FieldLineAt(pre: string, key: string, v: string, post: string)
    requires Clean(v) && key != [] && (post == [] || post[0] == '\n')
    ensures FieldFrom(pre + key + " " + v + post, key, |pre|) == Some(v)
  {
    var s := pre + key + " " + v + post;
    var i := |pre|;
    assert s[i..i + |key|] == key;
    assert s[i + |key|] == ' ';
    assert s[i + |key| + 1..i + |key| + 1 + |v|] == v;
    if i + |key| + 1 + |v| < |s| {
      assert s[i + |key| + 1 + |v|] == post[0];
    }
    FieldLine(s, key, i, v);
  }

  /** `created:` holds no space, so it cannot straddle the space after `title:` */
  lemma TitleLineFree(title: string)
    requires !Contains(title, "created:")
    ensures !Contains("title: " + title, "created:")
  {
    forall k: nat ensures !At("title: " + title, "created:", k) {
      TitleNotAt(title, k);
    }
    NotContains("title: " + title, "created:");
  }

  lemma TitleNotAt(title: string, k: nat)
    requires !Contains(title, "created:")
    ensures !At("title: " + title, "created:", k)
  {
    var x := "title: " + title;
    if k + 8 <= |x| {
      if k < 7 {
        assert x[k..k + 8][6 - k] == ' ';
      } else {
        assert x[k..k + 8] == title[k - 7..k + 1];
        NotAt(title, "created:", k - 7);
      }
    }
  }

  /** A search starting at a line that does not hold the key goes on at the next line */
  lemma FieldAfterLine(line: string, rest: string, key: string)
    requires key != [] && '\n' !in key && !Contains(line, key)
    ensures FieldFrom(line + "\n" + rest, key, 0) == FieldFrom(line + "\n" + rest, key, |line| + 1)
  {
    var s := line + "\n" + rest;
    forall k | 0 <= k < |line| + 1 ensures !At(s, key, k) {
      if k + |key| <= |s| {
        if k + |key| <= |line| {
          assert s[k..k + |key|] == line[k..k + |key|];
          NotAt(line, key, k);
        } else {
          assert s[k..k + |key|][|line| - k] == '\n';
          assert key[|line| - k] in key;
        }
      }
    }
    FieldFromSkip(s, key, 0, |line| + 1);
  }

  /** The tag search skips a line whose successor starts with neither whitespace nor '-' */
  lemma TagsSkipLine(s: string, a: nat, n: nat)
    requires a <= n && n + 1 < |s| && s[n] == '\n'
    requires forall x :: a <= x < n ==> s[x] != '\n'
    requires !IsSpace(s[n + 1]) && s[n + 1] != '-'
    ensures TagsFrom(s, a) == TagsFrom(s, n + 1)
  {
    forall k | a <= k < n + 1 && At(s, "tags:", k) ensures TagsAt(s, k).None? {
      if k + 5 > n {
        assert s[k..k + 5][n - k] == '\n';
      } else {
        TagsFailInLine(s, k, n);
      }
    }
    TagsFromSkip(s, a, n + 1);
  }

  /** `tags:` followed, past its line end, by a line that does not start an item: no match there */
  lemma TagsFailInLine(s: string, k: nat, n: nat)
    requires At(s, "tags:", k) && k + 5 <= n && n + 1 < |s| && s[n] == '\n'
    requires forall x :: k + 5 <= x < n ==> s[x] != '\n'
    requires !IsSpace(s[n + 1]) && s[n + 1] != '-'
    ensures TagsAt(s, k).None?
  {
    var e := SkipSpaces(s, k + 5);
    if e > n {
      assert IsSpace(s[n]);
      assert e == n + 1;
      assert LastNewline(s, k + 5, e) == Some(n);
      assert SkipSpaces(s, n + 1) == n + 1;
    }
  }

  lemma {:induction false} TagsFromSkip(s: string, i: nat, j: nat)
    requires i <= j <= |s|
    requires forall k :: i <= k < j && At(s, "tags:", k) ==> TagsAt(s, k).None?
    ensures TagsFrom(s, i) == TagsFrom(s, j)
    decreases j - i
  {
    if i < j {
      TagsFromSkip(s, i + 1, j);
    }
  }

  /** The item lines `new` wrote, read from `q` on: each is an item, and together they run to the end */
  lemma {:induction false} ItemsTail(s: string, q: nat, ts: seq<string>)
    requires ts != [] && forall t :: t in ts ==> CleanTag(t)
    requires q <= |s| && s[q..] == Join(Bullets(ts), "\n")
    ensures ItemAt(s, q).Some? && ItemsFrom(s, q) == |s|
    decreases |ts|
  {
    var next := ItemHead(s, q, ts);
    ItemsFromStep(s, q, next);
    if |ts| == 1 {
      ItemsFromEnd(s);
    } else {
      assert forall u :: u in ts[1..] ==> u in ts;
      ItemsTail(s, next, ts[1..]);
    }
  }

  /** The first item line of joined bullets, and where the next one starts */
  lemma ItemHead(s: string, q: nat, ts: seq<string>) returns (next: nat)
    requires ts != [] && CleanTag(ts[0])
    requires q <= |s| && s[q..] == Join(Bullets(ts), "\n")
    ensures next <= |s| && ItemAt(s, q) == Some(next)
    ensures |ts| == 1 ==> next == |s|
    ensures |ts| > 1 ==> s[next..] == Join(Bullets(ts[1..]), "\n")
  {
    if |ts| == 1 {
      next := |s|;
      BulletsOne(s, q, ts);
      ItemLast(s, q, ts[0]);
    } else {
      next := q + 5 + |ts[0]|;
      BulletsMore(s, q, ts);
      ItemCons(s, q, ts[0], Join(Bullets(ts[1..]), "\n"));
    }
  }

  lemma BulletsOne(s: string, q: nat, ts: seq<string>)
    requires |ts| == 1 && q <= |s| && s[q..] == Join(Bullets(ts), "\n")
    ensures s[q..] == "  - " + ts[0] + []
  {
    BulletsCons(ts);
  }

  lemma BulletsMore(s: string, q: nat, ts: seq<string>)
    requires |ts| > 1 && q <= |s| && s[q..] == Join(Bullets(ts), "\n")
    ensures s[q..] == "  - " + ts[0] + ("\n" + Join(Bullets(ts[1..]), "\n"))
  {
    BulletsCons(ts);
  }

  lemma ItemLast(s: string, q: nat, t: string)
    requires CleanTag(t) && q <= |s| && s[q..] == "  - " + t + []
    ensures ItemAt(s, q) == Some(|s|)
  {
    ItemStep(s, q, t, []);
  }

  lemma ItemCons(s: string, q: nat, t: string, rest: string)
    requires CleanTag(t) && q <= |s| && s[q..] == "  - " + t + ("\n" + rest)
    ensures q + 5 + |t| <= |s| && ItemAt(s, q) == Some(q + 5 + |t|) && s[q + 5 + |t|..] == rest
  {
    ItemStep(s, q, t, "\n" + rest);
    ItemNext(s, q, t, rest);
  }

  lemma ItemsFromStep(s: string, q: nat, next: nat)
    requires q <= |s| && ItemAt(s, q) == Some(next)
    ensures ItemsFrom(s, q) == ItemsFrom(s, next)
  {
  }

  lemma ItemsFromEnd(s: string)
    ensures ItemsFrom(s, |s|) == |s|
  {
    assert SkipSpaces(s, |s|) == |s|;
  }

  lemma ItemNext(s: string, q: nat, t: string, rest: string)
    requires q <= |s| && s[q..] == "  - " + t + ("\n" + rest)
    ensures q + 5 + |t| <= |s| && s[q + 5 + |t|..] == rest
  {
    assert s[q..][5 + |t|..] == rest;
  }

  lemma BulletsCons(ts: seq<string>)
    requires ts != []
    ensures Join(Bullets(ts), "\n") == "  - " + ts[0] + TagBlock(ts[1..])
  {
    var b := Bullets(ts);
    assert b[1..] == Bullets(ts[1..]);
  }

  /** One item line: `  - t` followed by a newline and more, or by the end */
  lemma ItemStep(s: string, q: nat, t: string, rest: string)
    requires CleanTag(t) && (rest == [] || rest[0] == '\n')
    requires q <= |s| && s[q..] == "  - " + t + rest
    ensures ItemAt(s, q) == Some(if rest == [] then |s| else q + 5 + |t|)
  {
    assert s[q] == ' ' && s[q + 1] == ' ' && s[q + 2] == '-' && s[q + 3] == ' ' && s[q + 4] == t[0];
    assert SkipSpaces(s, q) == q + 2;
    assert SkipSpaces(s, q + 3) == q + 4;
    forall x | q + 4 <= x < q + 4 + |t| ensures s[x] != '\n' {
      assert s[x] == t[x - q - 4];
    }
    assert q + 4 + |t| < |s| ==> s[q + 4 + |t|] == '\n';
    assert LineEnd(s, q + 4) == q + 4 + |t|;
  }

  /** Splitting joined lines gives the lines back */
  lemma {:induction false} SplitJoin(lines: seq<string>)
    requires lines != [] && forall l :: l in lines ==> '\n' !in l
    ensures SplitOn(Join(lines, "\n"), '\n') == lines
    decreases |lines|
  {
    if |lines| == 1 {
      SplitPlain(lines[0]);
    } else {
      var rest := Join(lines[1..], "\n");
      assert Join(lines, "\n") == lines[0] + "\n" + rest;
      assert forall l :: l in lines[1..] ==> l in lines;
      SplitJoin(lines[1..]);
      assert lines[0] in lines;
      SplitCons(lines[0], rest);
      HeadTail(lines);
    }
  }

  lemma {:induction false} SplitPlain(a: string)
    requires '\n' !in a
    ensures SplitOn(a, '\n') == [a]
    decreases |a|
  {
    if a != [] {
      SplitPlain(a[1..]);
      assert a == [a[0]] + a[1..];
    }
  }

  lemma {:induction false} SplitCons(a: string, b: string)
    requires '\n' !in a
    ensures SplitOn(a + "\n" + b, '\n') == [a] + SplitOn(b, '\n')
    decreases |a|
  {
    var s := a + "\n" + b;
    if a == [] {
      assert s[1..] == b;
    } else {
      assert s[1..] == a[1..] + "\n" + b;
      SplitCons(a[1..], b);
      assert a == [a[0]] + a[1..];
    }
  }

  /** Each item line gives back its tag */
  lemma {:induction false} TagLinesBullets(ts: seq<string>)
    requires forall t :: t in ts ==> CleanTag(t)
    ensures TagLines(Bullets(ts)) == ts
    decreases |ts|
  {
    if ts != [] {
      var b := Bullets(ts);
      assert b[1..] == Bullets(ts[1..]);
      TagLinesBullets(ts[1..]);
      BulletTag(ts[0]);
      TagLinesCons(b);
      HeadTail(ts);
    }
  }

  /** A line that is not blank contributes its stripped tag */
  lemma TagLinesCons(lines: seq<string>)
    requires lines != [] && Strip(lines[0]) != ""
    ensures TagLines(lines) == [Strip(Trim(lines[0], TagTrim))] + TagLines(lines[1..])
  {
  }

  lemma BulletTag(t: string)
    requires CleanTag(t)
    ensures Strip("  - " + t) != ""
    ensures Strip(Trim("  - " + t, TagTrim)) == t
  {
    BulletStrip(t);
    BulletTrim(t);
    CleanStrip(t);
  }

  lemma BulletStrip(t: string)
    requires CleanTag(t)
    ensures Strip("  - " + t) == "- " + t
  {
    assert "  - " + t == "  " + ("- " + t) + [];
    TrimAround("  ", "- " + t, [], Spaces);
  }

  lemma BulletTrim(t: string)
    requires CleanTag(t)
    ensures Trim("  - " + t, TagTrim) == t
  {
    assert "  - " + t == "  - " + t + [];
    TrimAround("  - ", t, [], TagTrim);
  }

  lemma CleanStrip(t: string)
    requires Clean(t)
    ensures Strip(t) == t
  {
    assert t == [] + t + [];
    TrimAround([], t, [], Spaces);
  }

  /** The tags come back from the header `new` wrote; with no tags the search finds nothing */
  lemma TagsRead(title: string, created: string, tags: seq<string>)
    requires Clean(title) && Clean(created) && forall t :: t in tags ==> CleanTag(t)
    ensures TagsFrom(Lines(title, created, TagBlock(tags)), 0)
      == if tags == [] then None else Some(Join(Bullets(tags), "\n"))
  {
    var block := TagBlock(tags);
    var s := Lines(title, created, block);
    var it := LinesSkip(title, created, block);
    if tags == [] {
      TagsEmptyEnd(s, it);
    } else {
      TagsFound(s, it, tags);
    }
  }

  /** `tags:` followed by the item lines: the search at that line captures them */
  lemma TagsFound(s: string, it: nat, tags: seq<string>)
    requires tags != [] && forall t :: t in tags ==> CleanTag(t)
    requires it <= |s| && s[it..] == "tags:" + TagBlock(tags)
    ensures TagsFrom(s, it) == Some(Join(Bullets(tags), "\n"))
  {
    var j := Join(Bullets(tags), "\n");
    TagsShape(s, it, tags);
    DropFrom(s, it, "tags:\n", j);
    ItemsTail(s, it + 6, tags);
    BulletsStart(tags);
    TagsBlockAt(s, it, j);
  }

  lemma TagsShape(s: string, it: nat, tags: seq<string>)
    requires tags != []
    requires it <= |s| && s[it..] == "tags:" + TagBlock(tags)
    ensures s[it..] == "tags:\n" + Join(Bullets(tags), "\n")
  {
    var j := Join(Bullets(tags), "\n");
    assert TagBlock(tags) == "\n" + j;
    AppendAssoc("tags:", "\n", j);
  }

  lemma BulletsStart(tags: seq<string>)
    requires tags != []
    ensures |Join(Bullets(tags), "\n")| >= 4 && Join(Bullets(tags), "\n")[..4] == "  - "
  {
    BulletsCons(tags);
  }

  /** The tag search passes over the title and creation lines */
  lemma LinesSkip(title: string, created: string, block: string) returns (it: nat)
    requires Clean(title) && Clean(created)
    ensures it + 5 <= |Lines(title, created, block)|
    ensures Lines(title, created, block)[it..] == "tags:" + block
    ensures TagsFrom(Lines(title, created, block), 0) == TagsFrom(Lines(title, created, block), it)
  {
    var line1 := "title: " + title;
    var line2 := "created: " + created;
    LinesSplit(title, created, block);
    OneLine("title: ", title);
    OneLine("created: ", created);
    var s := Lines(title, created, block);
    var n1, n2 := |line1|, |line1| + 1 + |line2|;
    it := n2 + 1;
    LinesShape(s, line1, line2, "tags:" + block);
    TwoLinesSkip(s, n1, n2);
  }

  /** Two lines, then the rest: where the newlines are and what follows each */
  lemma LinesShape(s: string, line1: string, line2: string, tail: string)
    requires '\n' !in line1 && '\n' !in line2 && line2 != [] && tail != []
    requires s == line1 + "\n" + (line2 + "\n" + tail)
    ensures var n1, n2 := |line1|, |line1| + 1 + |line2|;
      && n2 + 1 < |s| && s[n1] == '\n' && s[n2] == '\n'
      && s[n1 + 1] == line2[0] && s[n2 + 1] == tail[0] && s[n2 + 1..] == tail
      && (forall x :: 0 <= x < n1 ==> s[x] != '\n')
      && (forall x :: n1 < x < n2 ==> s[x] != '\n')
  {
    var n1, n2 := |line1|, |line1| + 1 + |line2|;
    forall x | 0 <= x < n1 ensures s[x] != '\n' {
      assert s[x] == line1[x];
    }
    forall x | n1 < x < n2 ensures s[x] != '\n' {
      assert s[x] == line2[x - n1 - 1];
    }
    assert s[n2 + 1..] == tail;
  }

  /** The tag search passes over two lines each followed by one that starts with neither whitespace nor '-' */
  lemma TwoLinesSkip(s: string, n1: nat, n2: nat)
    requires n1 < n2 && n2 + 1 < |s| && s[n1] == '\n' && s[n2] == '\n'
    requires forall x :: 0 <= x < n1 ==> s[x] != '\n'
    requires forall x :: n1 < x < n2 ==> s[x] != '\n'
    requires !IsSpace(s[n1 + 1]) && s[n1 + 1] != '-' && !IsSpace(s[n2 + 1]) && s[n2 + 1] != '-'
    ensures TagsFrom(s, 0) == TagsFrom(s, n2 + 1)
  {
    TagsSkipLine(s, 0, n1);
    TagsSkipLine(s, n1 + 1, n2);
  }

  /** The header text as its three lines */
  lemma LinesSplit(title: string, created: string, block: string)
    ensures Lines(title, created, block) == ("title: " + title) + "\n" + (("created: " + created) + "\n" + ("tags:" + block))
  {
    assert "\ncreated: " == "\n" + "created: ";
    assert "\ntags:" == "\n" + "tags:";
    RegroupLines("title: ", title, "\n", "created: ", created, "tags:", block);
  }

  lemma RegroupLines(p: string, t: string, n: string, k: string, c: string, g: string, b: string)
    ensures p + t + (n + k) + c + (n + g) + b == (p + t) + n + ((k + c) + n + (g + b))
  {
  }

  lemma DropFrom(s: string, k: nat, a: string, b: string)
    requires k <= |s| && s[k..] == a + b
    ensures k + |a| <= |s| && s[k + |a|..] == b
  {
    assert s[k..][|a|..] == b;
  }

  lemma OneLine(key: string, v: string)
    requires Clean(v) && '\n' !in key
    ensures '\n' !in key + v
  {
  }

  lemma TagsEmptyEnd(s: string, i: nat)
    requires i + 5 <= |s| && s[i..] == "tags:" + ""
    ensures TagsFrom(s, i).None?
  {
    assert At(s, "tags:", i);
    assert SkipSpaces(s, |s|) == |s|;
  }

  lemma TagsBlockAt(s: string, i: nat, j: string)
    requires i + 6 <= |s| && s[i..] == "tags:\n" + j
    requires |j| >= 4 && j[..4] == "  - "
    requires ItemAt(s, i + 6).Some? && ItemsFrom(s, i + 6) == |s|
    ensures TagsFrom(s, i) == Some(j)
  {
    TagsHead(s, i, j);
    DropFrom(s, i, "tags:\n", j);
    TagsAtItems(s, i, j);
  }

  /** The characters of `tags:` and of the first item's indent */
  lemma TagsHead(s: string, i: nat, j: string)
    requires i + 6 <= |s| && s[i..] == "tags:\n" + j
    requires |j| >= 4 && j[..4] == "  - "
    ensures At(s, "tags:", i) && i + 8 < |s|
    ensures SkipSpaces(s, i + 5) == i + 8 && LastNewline(s, i + 5, i + 8) == Some(i + 5)
  {
    assert s[i..i + 5] == "tags:";
    assert s[i + 5] == '\n' && s[i + 6] == ' ' && s[i + 7] == ' ' && s[i + 8] == '-';
    assert SkipSpaces(s, i + 5) == i + 8;
  }

  /** The search matches at `i`, and the items run to the end */
  lemma TagsAtItems(s: string, i: nat, j: string)
    requires At(s, "tags:", i) && i + 8 < |s|
    requires SkipSpaces(s, i + 5) == i + 8 && LastNewline(s, i + 5, i + 8) == Some(i + 5)
    requires ItemAt(s, i + 6).Some? && ItemsFrom(s, i + 6) == |s|
    requires s[i + 6..] == j
    ensures TagsFrom(s, i) == Some(j)
  {
    assert s[i + 6..ItemsFrom(s, i + 6)] == j;
    assert TagsAt(s, i) == Some(j);
  }

  /**
   * `list` reads back what `new` wrote: the title and the tags always, the creation time
   * whenever the title does not itself hold `created:`
   */
  lemma ReadBack(stem: string, title: string, created: string, tags: seq<string>)
    requires Clean(title) && Clean(created) && forall t :: t in tags ==> CleanTag(t)
    ensures Summarize(stem, CliNote(title, created, tags)).title == title
    ensures Summarize(stem, CliNote(title, created, tags)).tags == tags
    ensures !Contains(title, "created:") ==> Summarize(stem, CliNote(title, created, tags)).created == Some(created)
  {
    HeaderFound(title, created, tags);
    TitleRead(title, created, TagBlock(tags));
    CleanStrip(title);
    TagsRead(title, created, tags);
    if tags != [] {
      TagListBullets(tags);
    }
    if !Contains(title, "created:") {
      CreatedRead(title, created, TagBlock(tags));
      CleanStrip(created);
    }
  }

  /** The tag list read from the item lines is the tags they were written from */
  lemma TagListBullets(tags: seq<string>)
    requires tags != [] && forall t :: t in tags ==> CleanTag(t)
    ensures TagList(Join(Bullets(tags), "\n")) == tags
  {
    var b := Bullets(tags);
    forall l | l in b ensures '\n' !in l {
      var i :| 0 <= i < |b| && b[i] == l;
      assert CleanTag(tags[i]);
      assert l == "  - " + tags[i];
    }
    SplitJoin(b);
    TagLinesBullets(tags);
  }
}
