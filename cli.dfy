/**
 * The one-shot commands: `new`, `list`, `search`, `show`/`edit` (their lookup) and `tags`.
 * Each scan visits the markdown files in the order the directory walk yields them and skips
 * hidden files only.
 */
module Cli {
  import opened Text
  import opened Wrappers
  import opened Sorting
  import opened Slug
  import opened Store
  import opened Frontmatter
  import opened Reader
  import opened Search
  import opened Counting

  /** The file `new` writes for a note titled `title` */
  function NotePath(title: string): (p: Path)
    ensures |p| == 1 && IsMarkdown(p) && Stem(Name(p)) == (if NoteSlug(title) == [] then ".md" else NoteSlug(title))
  {
    var p := [NoteSlug(title) + ".md"];
    if NoteSlug(title) == [] then EmptySlugHidden(); p
    else StemOfMarkdown(NoteSlug(title)); p
  }

  /** The new note is hidden exactly when its title holds no word character and no hyphen, and it is then `.md` */
  lemma HiddenNotePath(title: string)
    ensures IsHidden(NotePath(title)) <==> !HasSlugChar(title)
    ensures !HasSlugChar(title) ==> NotePath(title) == [".md"]
  {
    EmptySlug(title);
    if NoteSlug(title) != [] {
      SlugNotDotted(title);
      NamedBySlug(NoteSlug(title));
    }
  }

  /** A non-empty slug never starts with a dot */
  lemma SlugNotDotted(title: string)
    requires NoteSlug(title) != []
    ensures NoteSlug(title)[0] != '.'
  {
    NoteSlugShape(title);
  }

  /** The file of a non-empty slug is named by the slug's first character */
  lemma NamedBySlug(slug: string)
    requires slug != [] && slug[0] != '.'
    ensures !IsHidden([slug + ".md"])
  {
    assert Name([slug + ".md"])[0] == slug[0];
  }

  datatype NewOutcome = Created(path: Path) | AlreadyExists(path: Path)

  /**
   * `new`: writes the note under its slug unless a file or a directory is already there. The
   * creation time is given by the caller.
   */
  method New(vault: Vault, title: string, created: string, tags: seq<string>) returns (r: NewOutcome)
    modifies vault
    ensures r.path == NotePath(title)
    ensures Exists(old(vault.files), NotePath(title)) ==>
      r.AlreadyExists? && vault.files == old(vault.files) && vault.journal == old(vault.journal)
    ensures !Exists(old(vault.files), NotePath(title)) ==>
      && r.Created?
      && vault.files == old(vault.files)[NotePath(title) := CliNote(title, created, tags)]
      && vault.journal == old(vault.journal) + [Wrote(NotePath(title))]
  {
    var path := [NoteSlug(title) + ".md"];
    if Exists(vault.files, path) {
      return AlreadyExists(path);
    }
    var content := Render(CliHeader(title, created, tags), true);
    content := content + "---\n\n";
    content := content + "# " + title + "\n\n";
    NoteTail("---\n" + FieldsText(CliHeader(title, created, tags), true), title);
    vault.Write(path, content);
    r := Created(path);
  }

  lemma NoteTail(head: string, title: string)
    ensures head + "---\n\n" + "# " + title + "\n\n" == head + "---\n\n# " + title + "\n\n"
  {
  }

  /** A row of `list` */
  datatype Note = Note(path: Path, title: string, tags: seq<string>, created: Option<string>)

  function TitleOf(n: Note): string { n.title }

  /** The two filters of `list`; an empty query or tag (or none given) filters nothing */
  predicate Keep(query: string, tag: string, s: Summary, content: string) {
    && (query == [] || Contains(Lower(s.title), Lower(query)) || Contains(Lower(content), Lower(query)))
    && (tag == [] || tag in s.tags)
  }

  /** The row `list` makes of the note at `p` */
  function NoteAt(p: Path, content: string): Note {
    var s := Summarize(Stem(Name(p)), content);
    Note(p, s.title, s.tags, s.created)
  }

  /** The rows of `list` in walk order, before sorting */
  function Scan(files: Files, order: seq<Path>, query: string, tag: string): seq<Note>
    requires forall p :: p in order ==> p in files
    decreases |order|
  {
    if order == [] then []
    else
      var p := order[|order| - 1];
      var keep := !IsHidden(p) && Keep(query, tag, Summarize(Stem(Name(p)), files[p]), files[p]);
      Scan(files, order[..|order| - 1], query, tag) + (if keep then [NoteAt(p, files[p])] else [])
  }

  /** `list`: reads each note's header, applies the filters, and sorts the rows by title */
  method List(vault: Vault, order: seq<Path>, query: string, tag: string) returns (notes: seq<Note>)
    requires IsWalk(order, vault.files.Keys)
    ensures notes == SortBy(Scan(vault.files, order, query, tag), TitleOf, Less)
  {
    var found := ScanNotes(vault.files, order, query, tag);
    notes := SortBy(found, TitleOf, Less);
  }

  /** The loop of `list`: the rows of the kept notes in walk order */
  method ScanNotes(files: Files, order: seq<Path>, query: string, tag: string) returns (found: seq<Note>)
    requires forall p :: p in order ==> p in files
    ensures found == Scan(files, order, query, tag)
  {
    found := [];
    for k := 0 to |order|
      invariant found == Scan(files, order[..k], query, tag)
    {
      var p := order[k];
      ScanStep(files, order, query, tag, k);
      if !IsHidden(p) {
        var content := files[p];
        var summary := ReadHeader(Stem(Name(p)), content);
        var title, tags := summary.title, summary.tags;
        if (query == [] || Contains(Lower(title), Lower(query)) || Contains(Lower(content), Lower(query)))
          && (tag == [] || tag in tags)
        {
          found := found + [Note(p, title, tags, summary.created)];
        }
      }
    }
    assert order[..|order|] == order;
  }

  lemma ScanStep(files: Files, order: seq<Path>, query: string, tag: string, k: nat)
    requires forall p :: p in order ==> p in files
    requires k < |order|
    ensures var p := order[k];
      Scan(files, order[..k + 1], query, tag)
        == Scan(files, order[..k], query, tag)
          + (if !IsHidden(p) && Keep(query, tag, Summarize(Stem(Name(p)), files[p]), files[p])
             then [NoteAt(p, files[p])] else [])
  {
    assert order[..k + 1][..k] == order[..k];
  }

  /** The header reader of `list`: defaults first, then each field its search finds */
  method ReadHeader(stem: string, content: string) returns (s: Summary)
    ensures s == Summarize(stem, content)
  {
    var title := DefaultTitle(stem);
    var tags: seq<string> := [];
    var created: Option<string> := None;
    var header := HeaderOf(content);
    if header.Some? {
      var fm := header.value;
      var t := FieldFrom(fm, "title:", 0);
      if t.Some? {
        title := Strip(t.value);
      }
      var g := TagsFrom(fm, 0);
      if g.Some? {
        tags := TagList(g.value);
      }
      var c := FieldFrom(fm, "created:", 0);
      if c.Some? {
        created := Some(Strip(c.value));
      }
    }
    s := Summary(title, tags, created);
  }

  /** A note is listed exactly when it is not hidden and passes both filters */
  lemma {:induction false} ScanExactly(files: Files, order: seq<Path>, query: string, tag: string, n: Note)
    requires forall p :: p in order ==> p in files
    ensures n in Scan(files, order, query, tag) <==>
      exists p :: p in order && !IsHidden(p) && Keep(query, tag, Summarize(Stem(Name(p)), files[p]), files[p])
        && n == NoteAt(p, files[p])
    decreases |order|
  {
    if order != [] {
      var init := order[..|order| - 1];
      var last := order[|order| - 1];
      ScanExactly(files, init, query, tag, n);
      InitLast(order);
      var keep := !IsHidden(last) && Keep(query, tag, Summarize(Stem(Name(last)), files[last]), files[last]);
      assert n in Scan(files, order, query, tag) <==>
        n in Scan(files, init, query, tag) || (keep && n == NoteAt(last, files[last]));
      if n in Scan(files, order, query, tag) {
        if n in Scan(files, init, query, tag) {
          var p :| p in init && !IsHidden(p) && Keep(query, tag, Summarize(Stem(Name(p)), files[p]), files[p])
            && n == NoteAt(p, files[p]);
          assert p in order;
        } else {
          assert last in order;
        }
      }
    }
  }

  /** The rows of `list` are the kept notes, each once, in title order */
  lemma ListSorted(files: Files, order: seq<Path>, query: string, tag: string)
    requires forall p :: p in order ==> p in files
    ensures SortedBy(SortBy(Scan(files, order, query, tag), TitleOf, Less), TitleOf, Less)
    ensures multiset(SortBy(Scan(files, order, query, tag), TitleOf, Less)) == multiset(Scan(files, order, query, tag))
  {
    LessOrder();
    SortBySorted(Scan(files, order, query, tag), TitleOf, Less);
  }

  /** `search`: the results of every note that is not hidden, with `context` lines around each */
  method SearchNotes(vault: Vault, order: seq<Path>, query: string, context: int) returns (hits: seq<Hit>)
    requires IsWalk(order, vault.files.Keys)
    ensures hits == VaultHits(vault.files, order, p => IsHidden(p), query, context)
  {
    hits := SearchVault(vault.files, order, p => IsHidden(p), query, context);
  }

  /** The vault-relative path a command-line argument names: empty and `.` components drop out */
  function PathOf(arg: string): Path {
    Components(SplitOn(arg, '/'))
  }

  function Components(parts: seq<string>): (p: Path)
    ensures forall c :: c in p ==> c in parts && c != "" && c != "."
  {
    if parts == [] then []
    else (if parts[0] == "" || parts[0] == "." then [] else [parts[0]]) + Components(parts[1..])
  }

  /** Something exists at `p`: a file, or a directory holding one */
  predicate Exists(files: Files, p: Path) {
    p in files || IsDir(files, p)
  }

  predicate IsDir(files: Files, p: Path) {
    exists q :: q in files && |p| < |q| && q[..|p|] == p
  }

  datatype Located = File(path: Path) | Directory(path: Path) | Missing

  /**
   * The lookup of `show` and `edit`: the argument as a path if anything exists there, else the
   * argument with `.md` appended
   */
  function Locate(files: Files, note: string): (r: Located)
    ensures r.File? ==> r.path in files
    ensures r.File? || r.Directory? ==>
      (r.path == PathOf(note) && Exists(files, PathOf(note)))
      || (r.path == PathOf(note + ".md") && !Exists(files, PathOf(note)) && Exists(files, PathOf(note + ".md")))
    ensures r.Missing? <==> !Exists(files, PathOf(note)) && !Exists(files, PathOf(note + ".md"))
  {
    var first := PathOf(note);
    var path := if Exists(files, first) then first else PathOf(note + ".md");
    if path in files then File(path)
    else if IsDir(files, path) then Directory(path)
    else Missing
  }

  /** The tags of the notes that are not hidden, in walk order, repeats kept */
  function Occurrences(files: Files, order: seq<Path>): seq<string>
    requires forall p :: p in order ==> p in files
    decreases |order|
  {
    if order == [] then []
    else
      var p := order[|order| - 1];
      Occurrences(files, order[..|order| - 1]) + (if IsHidden(p) then [] else NoteTags(files[p]))
  }

  /** `tags`: counts every tag of every note that is not hidden, then lists them by count */
  method Tags(vault: Vault, order: seq<Path>) returns (rows: seq<(string, nat)>)
    requires IsWalk(order, vault.files.Keys)
    ensures rows == Rows(Occurrences(vault.files, order))
  {
    var counts := TallyNotes(vault, order);
    rows := SortBy(counts, Count, Greater);
  }

  /** The loop of `tags`: the dictionary of counts after every visited note */
  method TallyNotes(vault: Vault, order: seq<Path>) returns (counts: Counts)
    requires forall p :: p in order ==> p in vault.files
    ensures counts == TallyOf(Occurrences(vault.files, order))
  {
    counts := [];
    for k := 0 to |order|
      invariant counts == TallyOf(Occurrences(vault.files, order[..k]))
    {
      var p := order[k];
      OccurrencesStep(vault.files, order, k);
      if !IsHidden(p) {
        counts := CountAll(counts, Occurrences(vault.files, order[..k]), NoteTags(vault.files[p]));
      }
    }
    assert order[..|order|] == order;
  }

  /** `for tag in tags: counts[tag] = counts.get(tag, 0) + 1` */
  method CountAll(counts: Counts, ghost seen: seq<string>, tags: seq<string>) returns (r: Counts)
    requires counts == TallyOf(seen)
    ensures r == TallyOf(seen + tags)
  {
    r := counts;
    assert seen + tags[..0] == seen;
    for j := 0 to |tags|
      invariant r == TallyOf(seen + tags[..j])
    {
      assert (seen + tags[..j + 1])[..|seen + tags[..j]|] == seen + tags[..j];
      r := Bump(r, tags[j]);
    }
    assert tags[..|tags|] == tags;
  }

  lemma OccurrencesStep(files: Files, order: seq<Path>, k: nat)
    requires forall p :: p in order ==> p in files
    requires k < |order|
    ensures Occurrences(files, order[..k + 1])
      == Occurrences(files, order[..k]) + (if IsHidden(order[k]) then [] else NoteTags(files[order[k]]))
    ensures IsHidden(order[k]) ==> Occurrences(files, order[..k + 1]) == Occurrences(files, order[..k])
  {
    assert order[..k + 1][..k] == order[..k];
  }
}
