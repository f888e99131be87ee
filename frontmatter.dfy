/**
 * A note's header as the writers see it: an ordered dictionary of fields whose values are
 * scalars or lists, and the renderer the three writers share (`new` on the command line,
 * `/new` and `/mv` in the shell).
 */
module Frontmatter {
  import opened Wrappers
  import opened Text

  /** A header value: a scalar, by the text `str()` gives it, or a list of items */
  datatype Value = Scalar(text: string) | Items(items: seq<string>)

  datatype Field = Field(key: string, value: Value)

  /** A dictionary in insertion order */
  type Header = seq<Field>

  function Keys(h: Header): (ks: seq<string>)
    ensures |ks| == |h| && forall i :: 0 <= i < |h| ==> ks[i] == h[i].key
  {
    if h == [] then [] else [h[0].key] + Keys(h[1..])
  }

  ghost predicate UniqueKeys(h: Header) {
    forall i, j :: 0 <= i < j < |h| ==> h[i].key != h[j].key
  }

  /** `fm.get(key)` */
  function Get(h: Header, key: string): (r: Option<Value>)
    ensures r.None? <==> key !in Keys(h)
    ensures r.Some? ==> Field(key, r.value) in h
  {
    if h == [] then None
    else if h[0].key == key then Some(h[0].value)
    else Get(h[1..], key)
  }

  /** `fm[key] = v`: an existing key keeps its place, a new one goes last */
  function Put(h: Header, key: string, v: Value): (r: Header)
    ensures |r| == if key in Keys(h) then |h| else |h| + 1
  {
    if h == [] then [Field(key, v)]
    else if h[0].key == key then [Field(key, v)] + h[1..]
    else [h[0]] + Put(h[1..], key, v)
  }

  /** After `fm[key] = v` the key holds `v` and every other key what it held */
  lemma {:induction false} PutGet(h: Header, key: string, v: Value, k: string)
    ensures Get(Put(h, key, v), k) == if k == key then Some(v) else Get(h, k)
    decreases |h|
  {
    if h != [] && h[0].key != key {
      PutGet(h[1..], key, v, k);
    }
  }

  /** `fm[key] = v` keeps the order of the keys and puts a new key last */
  lemma {:induction false} PutKeyOrder(h: Header, key: string, v: Value)
    ensures Keys(Put(h, key, v)) == if key in Keys(h) then Keys(h) else Keys(h) + [key]
    decreases |h|
  {
    if h != [] {
      var rest := Keys(h[1..]);
      var r := Put(h, key, v);
      assert Keys(h) == [h[0].key] + rest;
      assert Keys(r) == [r[0].key] + Keys(r[1..]);
      if h[0].key == key {
        assert r[1..] == h[1..];
      } else {
        PutKeyOrder(h[1..], key, v);
        assert r[1..] == Put(h[1..], key, v);
        AppendAssoc([h[0].key], rest, [key]);
      }
    }
  }

  /** `fm[key] = v` keeps the order of the keys, and so their uniqueness */
  lemma PutKeys(h: Header, key: string, v: Value)
    ensures Keys(Put(h, key, v)) == if key in Keys(h) then Keys(h) else Keys(h) + [key]
    ensures UniqueKeys(h) ==> UniqueKeys(Put(h, key, v))
  {
    PutKeyOrder(h, key, v);
    var r := Put(h, key, v);
    if UniqueKeys(h) {
      forall i, j | 0 <= i < j < |r| ensures r[i].key != r[j].key {
        assert r[i].key == Keys(r)[i] && r[j].key == Keys(r)[j];
        if j < |h| {
          assert Keys(r)[i] == h[i].key && Keys(r)[j] == h[j].key;
        } else {
          assert Keys(r)[i] == Keys(h)[i] && Keys(h)[i] in Keys(h);
        }
      }
    }
  }

  /** One item line */
  function ItemLine(item: string): string {
    "  - " + item + "\n"
  }

  function ItemLines(items: seq<string>): string {
    if items == [] then "" else ItemLine(items[0]) + ItemLines(items[1..])
  }

  /**
   * One field as the writers render it: `key: value` for a scalar, `key:` and one item line
   * per element for a list; an empty list renders nothing unless `keepEmpty`.
   */
  function FieldText(f: Field, keepEmpty: bool): string {
    match f.value
    case Scalar(t) => f.key + ": " + t + "\n"
    case Items(xs) => if xs == [] && !keepEmpty then "" else f.key + ":\n" + ItemLines(xs)
  }

  function FieldsText(h: Header, keepEmpty: bool): string {
    if h == [] then "" else FieldText(h[0], keepEmpty) + FieldsText(h[1..], keepEmpty)
  }

  lemma {:induction false} ItemLinesSnoc(items: seq<string>, x: string)
    ensures ItemLines(items + [x]) == ItemLines(items) + ItemLine(x)
    decreases |items|
  {
    if items != [] {
      assert (items + [x])[1..] == items[1..] + [x];
      ItemLinesSnoc(items[1..], x);
    }
  }

  lemma {:induction false} FieldsTextSnoc(h: Header, f: Field, keepEmpty: bool)
    ensures FieldsText(h + [f], keepEmpty) == FieldsText(h, keepEmpty) + FieldText(f, keepEmpty)
    decreases |h|
  {
    if h != [] {
      assert (h + [f])[1..] == h[1..] + [f];
      FieldsTextSnoc(h[1..], f, keepEmpty);
    }
  }

  /** The writers' loop: `"---\n"`, then each field in dictionary order */
  method Render(h: Header, keepEmpty: bool) returns (content: string)
    ensures content == "---\n" + FieldsText(h, keepEmpty)
  {
    content := "---\n";
    var i := 0;
    while i < |h|
      invariant 0 <= i <= |h|
      invariant content == "---\n" + FieldsText(h[..i], keepEmpty)
    {
      var f := h[i];
      var text := RenderField(f, keepEmpty);
      assert h[..i + 1] == h[..i] + [f];
      FieldsTextSnoc(h[..i], f, keepEmpty);
      AppendAssoc("---\n", FieldsText(h[..i], keepEmpty), text);
      content := content + text;
      i := i + 1;
    }
    assert h[..i] == h;
  }

  /** The body of the writers' loop for one field */
  method RenderField(f: Field, keepEmpty: bool) returns (text: string)
    ensures text == FieldText(f, keepEmpty)
  {
    text := "";
    match f.value {
      case Items(xs) =>
        if xs != [] || keepEmpty {
          var head := f.key + ":\n";
          text := head;
          var j := 0;
          while j < |xs|
            invariant 0 <= j <= |xs|
            invariant text == head + ItemLines(xs[..j])
          {
            assert xs[..j + 1] == xs[..j] + [xs[j]];
            ItemLinesSnoc(xs[..j], xs[j]);
            AppendAssoc(head, ItemLines(xs[..j]), ItemLine(xs[j]));
            text := text + ItemLine(xs[j]);
            j := j + 1;
          }
          assert xs[..j] == xs;
        }
      case Scalar(t) =>
        text := f.key + ": " + t + "\n";
    }
  }

  /** The fields that the shell's writers render: all but the empty lists */
  function NonEmpty(h: Header): (r: Header)
    ensures forall i :: 0 <= i < |r| ==> r[i] in h && r[i].value != Items([])
    ensures forall f :: f in h && f.value != Items([]) ==> f in r
  {
    if h == [] then []
    else if h[0].value == Items([]) then NonEmpty(h[1..])
    else [h[0]] + NonEmpty(h[1..])
  }

  /** The shell's writer is the command line's writer applied to the fields that are not empty lists */
  lemma {:induction false} DropEmptyLists(h: Header)
    ensures FieldsText(h, false) == FieldsText(NonEmpty(h), true)
    decreases |h|
  {
    if h != [] {
      DropEmptyLists(h[1..]);
    }
  }

  /** The `new` command's header: `title`, `created`, then `tags:` even without tags */
  function CliHeader(title: string, created: string, tags: seq<string>): Header {
    [Field("title", Scalar(title)), Field("created", Scalar(created)), Field("tags", Items(tags))]
  }

  /** The whole text `new` writes for a note: header, closing marker, a blank line and the title as a heading */
  function CliNote(title: string, created: string, tags: seq<string>): string {
    "---\n" + FieldsText(CliHeader(title, created, tags), true) + "---\n\n# " + title + "\n\n"
  }

  /** The header `new` writes: title and creation time, then `tags:` and one item line per tag, even with no tags */
  lemma CliLayout(title: string, created: string, tags: seq<string>)
    ensures FieldsText(CliHeader(title, created, tags), true)
      == "title: " + title + "\ncreated: " + created + "\ntags:\n" + ItemLines(tags)
  {
    var h := CliHeader(title, created, tags);
    Fields3(h, true);
    KeyLiterals();
    Regroup3("title: ", title, "created: ", created, "tags:\n", ItemLines(tags), "\n");
  }

  /** The key texts the writers build, as one literal each */
  lemma KeyLiterals()
    ensures "title" + ": " == "title: " && "created" + ": " == "created: "
    ensures "tags" + ":\n" == "tags:\n" && "aliases" + ":\n" == "aliases:\n"
    ensures "\n" + "created: " == "\ncreated: " && "\n" + "tags:\n" == "\ntags:\n"
  {
  }

  lemma Regroup3(p: string, x: string, q: string, y: string, r: string, z: string, n: string)
    ensures (p + x + n) + ((q + y + n) + (r + z)) == p + x + (n + q) + y + (n + r) + z
  {
  }

  lemma Fields3(h: Header, keepEmpty: bool)
    requires |h| == 3
    ensures FieldsText(h, keepEmpty) == FieldText(h[0], keepEmpty) + (FieldText(h[1], keepEmpty) + FieldText(h[2], keepEmpty))
  {
    var t0, t1, t2 := FieldText(h[0], keepEmpty), FieldText(h[1], keepEmpty), FieldText(h[2], keepEmpty);
    assert h[2..][1..] == [];
    assert FieldsText(h[2..], keepEmpty) == t2 + "" == t2;
    assert h[1..][1..] == h[2..];
    assert FieldsText(h[1..], keepEmpty) == t1 + t2;
    assert FieldsText(h, keepEmpty) == t0 + (t1 + t2);
  }

  lemma Fields4(h: Header, keepEmpty: bool)
    requires |h| == 4
    ensures FieldsText(h, keepEmpty)
      == FieldText(h[0], keepEmpty) + (FieldText(h[1], keepEmpty) + (FieldText(h[2], keepEmpty) + FieldText(h[3], keepEmpty)))
  {
    var t0, t1 := FieldText(h[0], keepEmpty), FieldText(h[1], keepEmpty);
    var t2, t3 := FieldText(h[2], keepEmpty), FieldText(h[3], keepEmpty);
    assert h[3..][1..] == [];
    assert FieldsText(h[3..], keepEmpty) == t3 + "" == t3;
    assert h[2..][1..] == h[3..];
    assert FieldsText(h[2..], keepEmpty) == t2 + t3;
    assert h[1..][1..] == h[2..];
    assert FieldsText(h[1..], keepEmpty) == t1 + (t2 + t3);
    assert FieldsText(h, keepEmpty) == t0 + (t1 + (t2 + t3));
  }

  /** The `/new` command's header: `tags` and `aliases` follow the title and creation time, each only when not empty */
  function ShellHeader(title: string, created: string, tags: seq<string>, aliases: seq<string>): Header {
    [Field("title", Scalar(title)), Field("created", Scalar(created)), Field("tags", Items(tags)), Field("aliases", Items(aliases))]
  }

  /** The whole text `/new` writes: header without empty lists, closing marker, a blank line and the title as a heading */
  function ShellNote(title: string, created: string, tags: seq<string>, aliases: seq<string>): string {
    "---\n" + FieldsText(ShellHeader(title, created, tags, aliases), false) + "---\n\n# " + title + "\n\n"
  }

  /** The header `/new` writes: title and creation time, then tags and aliases only when there are any */
  lemma ShellLayout(title: string, created: string, tags: seq<string>, aliases: seq<string>)
    ensures FieldsText(ShellHeader(title, created, tags, aliases), false)
      == "title: " + title + "\ncreated: " + created + "\n"
         + (if tags == [] then "" else "tags:\n" + ItemLines(tags))
         + (if aliases == [] then "" else "aliases:\n" + ItemLines(aliases))
  {
    var h := ShellHeader(title, created, tags, aliases);
    Fields4(h, false);
    KeyLiterals();
    Regroup4("title: ", title, "created: ", created, FieldText(h[2], false), FieldText(h[3], false), "\n");
  }

  lemma Regroup4(p: string, x: string, q: string, y: string, c: string, d: string, n: string)
    ensures (p + x + n) + ((q + y + n) + (c + d)) == p + x + (n + q) + y + n + c + d
  {
  }
}
