/**
 * The interactive shell: the dispatch of a command line to its handler, and the handlers that
 * read and change the vault. Every scan of the shell skips hidden files and every path whose
 * full path string mentions the archive directory.
 */
module Shell {
  import opened Text
  import opened Wrappers
  import opened Sorting
  import opened Slug
  import opened Store
  import opened Frontmatter
  import opened Reader
  import opened Search
  import Counting
  import opened Rename
  import Args
  import Cli

  /**
   * What the shell relies on and that is not modelled here: the note lookup, the header parser,
   * the wikilink extractor, `shlex.split` (None when it raises) and the order of the directory walk
   */
  datatype Library = Library(
    findNote: (Files, string) -> Option<Path>,
    frontmatter: string -> (Header, string),
    wikilinks: string -> set<string>,
    shlexSplit: string -> Option<seq<string>>,
    walk: Files -> seq<Path>)

  /** What the handlers rely on in the library: the walk visits every markdown file once, and a found note exists */
  ghost predicate Sound(lib: Library) {
    && (forall files: Files {:trigger lib.walk(files)} :: Walks(lib, files))
    && (forall files: Files, name: string {:trigger lib.findNote(files, name)} :: Finds(lib, files, name))
  }

  /** The walk of `files` visits every markdown file once */
  ghost predicate Walks(lib: Library, files: Files) {
    IsWalk(lib.walk(files), files.Keys)
  }

  /** A note found by `name` is a file of the vault */
  predicate Finds(lib: Library, files: Files, name: string) {
    lib.findNote(files, name).Some? ==> lib.findNote(files, name).value in files
  }

  /** The scans' filter as a function on paths */
  function Skip(root: string, archive: string): Path -> bool {
    p => Excluded(root, archive, p)
  }

  /**
   * `fm.get('title', md_file.stem.replace('-', ' ').title())`; a list under `title`, which
   * Python would keep and then fail on, is read as no title
   */
  function NoteTitle(lib: Library, p: Path, content: string): string {
    match Get(lib.frontmatter(content).0, "title")
    case Some(Scalar(t)) => t
    case _ => DefaultTitle(Stem(Name(p)))
  }

  /** `fm.get('title', path.stem)`: the title `/backlinks` matches links against */
  function TargetTitle(lib: Library, p: Path, content: string): string {
    match Get(lib.frontmatter(content).0, "title")
    case Some(Scalar(t)) => t
    case _ => Stem(Name(p))
  }

  /** `fm.get('tags', [])` */
  function TagsValue(h: Header): Value {
    Get(h, "tags").GetOr(Items([]))
  }

  // ----- /new

  /** `shlex.split(args)`, or `args.split()` when that raises */
  function Tokens(lib: Library, args: string): seq<string> {
    match lib.shlexSplit(args)
    case Some(parts) => parts
    case None => Words(args)
  }

  datatype NewReply = NewUsage | NoTitle | NoteExists(path: Path) | NoteCreated(path: Path, title: string)

  // ----- /daily

  /** The note `/daily` writes for the day `today` */
  function DailyNote(today: string, created: string): string {
    "---\n" + "title: " + today + "\ncreated: " + created + "\ntags:\n" + "  - daily\n" + "---\n\n# " + today + "\n\n"
      + "## Notes\n\n## Tasks\n\n- [ ] \n\n## Links\n\n"
  }

  /** The body under a daily note's heading */
  const DailyBody := "## Notes\n\n## Tasks\n\n- [ ] \n\n## Links\n\n"

  /** A daily note is what `new` writes for a note titled by the date and tagged `daily`, followed by three sections */
  lemma DailyIsNewNote(today: string, created: string)
    ensures DailyNote(today, created) == CliNote(today, created, ["daily"]) + DailyBody
  {
    DailyTags();
    CliLayout(today, created, ["daily"]);
    Regroup("---\n", "title: ", today, "\ncreated: ", created, "\ntags:\n", "  - daily\n", "---\n\n# ", "\n\n", DailyBody);
  }

  lemma DailyTags()
    ensures ItemLines(["daily"]) == "  - daily\n"
  {
    assert ItemLines(["daily"]) == ItemLine("daily") + ItemLines([]);
  }

  lemma Regroup(a: string, b: string, t: string, c: string, cr: string, d: string, e: string, f: string, g: string, h: string)
    ensures a + b + t + c + cr + d + e + f + t + g + h == (a + (b + t + c + cr + d + e) + f + t + g) + h
  {
  }

  /**
   * What `/daily` does: creates or opens today's note, or stops with `FileExistsError` when
   * `mkdir` finds a plain file where the `daily` directory should be
   */
  datatype DailyReply = DailyCreated(path: Path) | DailyOpened(path: Path) | DailyDirTaken(dir: Path)

  /** Where the daily note of `today` lives */
  function DailyPath(today: string): Path {
    ["daily", today + ".md"]
  }

  // ----- /list

  /** A row of `/list`: the tags are whatever the header holds under `tags` */
  datatype Listed = Listed(path: Path, title: string, tags: Value)

  function ListedTitle(n: Listed): string { n.title }

  /** `tag_filter in tags_list`: a substring test on a scalar, membership on a list */
  predicate HasTag(v: Value, tag: string) {
    match v
    case Scalar(t) => Contains(t, tag)
    case Items(ts) => tag in ts
  }

  /** The row of the note at `p` */
  function ListedAt(lib: Library, p: Path, content: string): Listed {
    Listed(p, NoteTitle(lib, p, content), TagsValue(lib.frontmatter(content).0))
  }

  /** The two filters of `/list`; an empty query or tag filters nothing */
  predicate Wanted(query: string, tag: string, n: Listed, content: string) {
    && (query == [] || Contains(Lower(n.title), Lower(query)) || Contains(Lower(content), Lower(query)))
    && (tag == [] || HasTag(n.tags, tag))
  }

  /** The rows of `/list` in walk order */
  function ListScan(lib: Library, files: Files, order: seq<Path>, skip: Path -> bool, query: string, tag: string): seq<Listed>
    requires forall p :: p in order ==> p in files
    decreases |order|
  {
    if order == [] then []
    else
      var p := order[|order| - 1];
      var keep := !skip(p) && Wanted(query, tag, ListedAt(lib, p, files[p]), files[p]);
      ListScan(lib, files, order[..|order| - 1], skip, query, tag) + (if keep then [ListedAt(lib, p, files[p])] else [])
  }

  /** The loop of `/list` over the walk */
  method ScanList(lib: Library, files: Files, order: seq<Path>, skip: Path -> bool, query: string, tag: string)
    returns (found: seq<Listed>)
    requires forall p :: p in order ==> p in files
    ensures found == ListScan(lib, files, order, skip, query, tag)
  {
    found := [];
    for k := 0 to |order|
      invariant found == ListScan(lib, files, order[..k], skip, query, tag)
    {
      var p := order[k];
      ListScanStep(lib, files, order, skip, query, tag, k);
      if !skip(p) {
        var content := files[p];
        var (fm, _) := lib.frontmatter(content);
        var title := NoteTitle(lib, p, content);
        var tags := TagsValue(fm);
        if (query == [] || Contains(Lower(title), Lower(query)) || Contains(Lower(content), Lower(query)))
          && (tag == [] || HasTag(tags, tag))
        {
          found := found + [Listed(p, title, tags)];
        }
      }
    }
    assert order[..|order|] == order;
  }

  lemma ListScanStep(lib: Library, files: Files, order: seq<Path>, skip: Path -> bool, query: string, tag: string, k: nat)
    requires forall p :: p in order ==> p in files
    requires k < |order|
    ensures var p := order[k];
      ListScan(lib, files, order[..k + 1], skip, query, tag)
        == ListScan(lib, files, order[..k], skip, query, tag)
          + (if !skip(p) && Wanted(query, tag, ListedAt(lib, p, files[p]), files[p]) then [ListedAt(lib, p, files[p])] else [])
  {
    assert order[..k + 1][..k] == order[..k];
  }

  /** A note is listed exactly when the scan does not skip it and it passes both filters */
  lemma {:induction false} ListScanExactly(lib: Library, files: Files, order: seq<Path>, skip: Path -> bool,
                                           query: string, tag: string, n: Listed)
    requires forall p :: p in order ==> p in files
    ensures n in ListScan(lib, files, order, skip, query, tag) <==>
      exists p :: p in order && !skip(p) && n == ListedAt(lib, p, files[p]) && Wanted(query, tag, n, files[p])
    decreases |order|
  {
    if order != [] {
      var init := order[..|order| - 1];
      var last := order[|order| - 1];
      ListScanExactly(lib, files, init, skip, query, tag, n);
      InitLast(order);
      var row := ListedAt(lib, last, files[last]);
      var keep := !skip(last) && Wanted(query, tag, row, files[last]);
      assert n in ListScan(lib, files, order, skip, query, tag) <==>
        n in ListScan(lib, files, init, skip, query, tag) || (keep && n == row);
      if n in ListScan(lib, files, order, skip, query, tag) {
        if n in ListScan(lib, files, init, skip, query, tag) {
          var p :| p in init && !skip(p) && n == ListedAt(lib, p, files[p]) && Wanted(query, tag, n, files[p]);
          assert p in order;
        } else {
          assert last in order;
        }
      }
    }
  }

  /** `/list` shows the listed notes, each once, in title order */
  lemma ListSorted(notes: seq<Listed>)
    ensures SortedBy(SortBy(notes, ListedTitle, Less), ListedTitle, Less)
    ensures multiset(SortBy(notes, ListedTitle, Less)) == multiset(notes)
  {
    LessOrder();
    SortBySorted(notes, ListedTitle, Less);
  }

  // ----- /recent

  datatype RecentNote = RecentNote(path: Path, title: string, modified: int)

  function Modified(n: RecentNote): int { n.modified }

  /** The notes of `/recent` in walk order, with the modification times `mtime` gives */
  function RecentScan(lib: Library, files: Files, order: seq<Path>, skip: Path -> bool, mtime: Path -> int): seq<RecentNote>
    requires forall p :: p in order ==> p in files
    decreases |order|
  {
    if order == [] then []
    else
      var p := order[|order| - 1];
      RecentScan(lib, files, order[..|order| - 1], skip, mtime)
        + (if skip(p) then [] else [RecentNote(p, NoteTitle(lib, p, files[p]), mtime(p))])
  }

  /** The loop of `/recent` over the walk */
  method ScanRecent(lib: Library, files: Files, order: seq<Path>, skip: Path -> bool, mtime: Path -> int)
    returns (found: seq<RecentNote>)
    requires forall p :: p in order ==> p in files
    ensures found == RecentScan(lib, files, order, skip, mtime)
  {
    found := [];
    for k := 0 to |order|
      invariant found == RecentScan(lib, files, order[..k], skip, mtime)
    {
      var p := order[k];
      assert order[..k + 1][..k] == order[..k];
      if !skip(p) {
        found := found + [RecentNote(p, NoteTitle(lib, p, files[p]), mtime(p))];
      }
    }
    assert order[..|order|] == order;
  }

  /** The number of notes `/recent` shows: 10, or the argument when `int()` accepts it */
  function Limit(args: string): int {
    if args == [] then 10 else Args.ParseInt(args).GetOr(10)
  }

  /**
   * `/recent` shows the newest notes first; with a limit of `n >= 0` it shows the `n` newest
   * (all when there are fewer), and a negative limit drops that many of the oldest
   */
  lemma RecentNewestFirst(notes: seq<RecentNote>, limit: int)
    ensures var shown := PySlice(SortBy(notes, Modified, Greater), 0, limit);
      && SortedBy(shown, Modified, Greater)
      && multiset(shown) <= multiset(notes)
      && (0 <= limit ==> |shown| == Min(limit, |notes|))
      && (limit < 0 ==> |shown| == Max(0, |notes| + limit))
      && (forall x, y :: x in shown && y in multiset(notes) - multiset(shown) ==> Modified(y) <= Modified(x))
  {
    var sorted := SortBy(notes, Modified, Greater);
    GreaterOrder();
    SortBySorted(notes, Modified, Greater);
    assert |sorted| == |notes| by {
      assert |multiset(sorted)| == |multiset(notes)|;
    }
    var b := SliceBound(limit, |sorted|);
    assert PySlice(sorted, 0, limit) == sorted[..b];
    SortedPrefix(sorted, b, Modified, Greater);
    SortedRest(sorted, b, Modified, Greater);
  }

  /** A prefix of a sorted sequence is sorted and holds no element the sequence does not */
  lemma SortedPrefix<T, K>(s: seq<T>, b: nat, key: T -> K, lt: (K, K) -> bool)
    requires b <= |s| && SortedBy(s, key, lt)
    ensures SortedBy(s[..b], key, lt) && multiset(s[..b]) <= multiset(s)
  {
    assert s == s[..b] + s[b..];
    assert multiset(s) == multiset(s[..b]) + multiset(s[b..]);
  }

  /** What a sorted sequence leaves after a prefix is nothing the prefix is strictly before */
  lemma SortedRest<T, K>(s: seq<T>, b: nat, key: T -> K, lt: (K, K) -> bool)
    requires b <= |s| && SortedBy(s, key, lt)
    ensures multiset(s) - multiset(s[..b]) == multiset(s[b..])
    ensures forall x, y :: x in s[..b] && y in multiset(s[b..]) ==> !lt(key(y), key(x))
  {
    assert s == s[..b] + s[b..];
    assert multiset(s) == multiset(s[..b]) + multiset(s[b..]);
    forall x, y | x in s[..b] && y in multiset(s[b..]) ensures !lt(key(y), key(x)) {
      var i :| 0 <= i < b && s[..b][i] == x;
      assert y in s[b..];
      var j :| 0 <= j < |s| - b && s[b..][j] == y;
      assert s[i] == x && s[b + j] == y;
    }
  }

  // ----- /search

  datatype SearchReply = SearchUsage | Results(hits: seq<Hit>)

  // ----- /backlinks

  datatype Backlink = Backlink(title: string, path: Path)

  /** The links of `content` name the target by its slug or its title */
  predicate LinksTo(lib: Library, content: string, slug: string, title: string) {
    slug in lib.wikilinks(content) || title in lib.wikilinks(content)
  }

  /** The backlinks of the note at `target`, in walk order */
  function BacklinkScan(lib: Library, files: Files, order: seq<Path>, skip: Path -> bool,
                        target: Path, slug: string, title: string): seq<Backlink>
    requires forall p :: p in order ==> p in files
    decreases |order|
  {
    if order == [] then []
    else
      var p := order[|order| - 1];
      var keep := p != target && !skip(p) && LinksTo(lib, files[p], slug, title);
      BacklinkScan(lib, files, order[..|order| - 1], skip, target, slug, title)
        + (if keep then [Backlink(NoteTitle(lib, p, files[p]), p)] else [])
  }

  /** The loop of `/backlinks` over the walk */
  method ScanBacklinks(lib: Library, files: Files, order: seq<Path>, skip: Path -> bool,
                       target: Path, slug: string, title: string) returns (links: seq<Backlink>)
    requires forall p :: p in order ==> p in files
    ensures links == BacklinkScan(lib, files, order, skip, target, slug, title)
  {
    links := [];
    for k := 0 to |order|
      invariant links == BacklinkScan(lib, files, order[..k], skip, target, slug, title)
    {
      var p := order[k];
      assert order[..k + 1][..k] == order[..k];
      if !(p == target || skip(p)) {
        var ls := lib.wikilinks(files[p]);
        if slug in ls || title in ls {
          links := links + [Backlink(NoteTitle(lib, p, files[p]), p)];
        }
      }
    }
    assert order[..|order|] == order;
  }

  /** A note is a backlink exactly when it is not the target, is not skipped, and links to the target */
  lemma {:induction false} BacklinksExactly(lib: Library, files: Files, order: seq<Path>, skip: Path -> bool,
                                            target: Path, slug: string, title: string, b: Backlink)
    requires forall p :: p in order ==> p in files
    ensures b in BacklinkScan(lib, files, order, skip, target, slug, title) <==>
      exists p :: p in order && p != target && !skip(p) && LinksTo(lib, files[p], slug, title)
        && b == Backlink(NoteTitle(lib, p, files[p]), p)
    decreases |order|
  {
    if order != [] {
      var init := order[..|order| - 1];
      var last := order[|order| - 1];
      BacklinksExactly(lib, files, init, skip, target, slug, title, b);
      InitLast(order);
      var keep := last != target && !skip(last) && LinksTo(lib, files[last], slug, title);
      assert b in BacklinkScan(lib, files, order, skip, target, slug, title) <==>
        b in BacklinkScan(lib, files, init, skip, target, slug, title)
          || (keep && b == Backlink(NoteTitle(lib, last, files[last]), last));
    }
  }

  datatype BacklinksReply = BacklinksUsage | TargetMissing(name: string) | Linked(target: string, links: seq<Backlink>)

  // ----- /mv

  datatype MvReply = MvUsage | NamesMissing | OldMissing(name: string) | TargetTaken(path: Path)
    | Renamed(from: Path, to: Path, updated: nat)

  /** The file `/mv` moves a note renamed to `name` to */
  function RenamePath(name: string): Path {
    [RenameSlug(name) + ".md"]
  }

  /** The renamed note: its header with the new title, the other fields as they were, then its body */
  function RenamedNote(lib: Library, content: string, newName: string): string {
    var (fm, body) := lib.frontmatter(content);
    "---\n" + FieldsText(Put(fm, "title", Scalar(newName)), false) + "---\n" + body
  }

  /** The filter of the link loop: the new note itself and every path the scans skip */
  function MvSkip(root: string, archive: string, newPath: Path): Path -> bool {
    p => p == newPath || Excluded(root, archive, p)
  }

  /** What `/mv` leaves behind once its checks pass: the files and the rewritten paths in visit order */
  datatype Outcome = Outcome(files: Files, rewritten: seq<Path>)

  /** The vault's files with the record of the writes, unlinks and moves done to them */
  datatype Snapshot = Snapshot(files: Files, journal: seq<Effect>)

  /**
   * The rename of the note at `oldPath` to `newName`: the renamed note is written first, the
   * walk then runs over the vault that holds it, and the old file goes last
   */
  function Renaming(lib: Library, files: Files, root: string, archive: string, oldName: string, newName: string): (r: Outcome)
    requires Sound(lib) && lib.findNote(files, oldName).Some?
    ensures var oldPath := lib.findNote(files, oldName).value;
      && oldPath in files
      && r.files.Keys == (files.Keys + {RenamePath(newName)}) - {oldPath}
      && (RenamePath(newName) != oldPath ==> r.files[RenamePath(newName)] == RenamedNote(lib, files[oldPath], newName))
  {
    assert Finds(lib, files, oldName);
    var oldPath := lib.findNote(files, oldName).value;
    var newPath := RenamePath(newName);
    var f := files[newPath := RenamedNote(lib, files[oldPath], newName)];
    assert Walks(lib, f);
    var names := Names(Stem(Name(oldPath)), Stem(Name(newPath)), oldName, newName);
    var skip := MvSkip(root, archive, newPath);
    RenameKeepsNewNote(f, lib.walk(f), root, archive, newPath, names);
    NewNoteKept(files, lib.walk(f), skip, names, oldPath, newPath, RenamedNote(lib, files[oldPath], newName));
    Outcome(Relink(f, lib.walk(f), skip, names) - {oldPath}, Rewrites(f, lib.walk(f), skip, names))
  }

  /**
   * After `/mv`, every other file that is a scanned markdown file mentioning the old note holds
   * its relinked text, and every other file, the new note among them, is as it was
   */
  lemma RenameOutcome(f: Files, order: seq<Path>, skip: Path -> bool, names: Names, oldPath: Path, q: Path)
    requires IsWalk(order, f.Keys)
    requires q in f && q != oldPath
    ensures q in Relink(f, order, skip, names) - {oldPath}
    ensures (Relink(f, order, skip, names) - {oldPath})[q]
      == if IsMarkdown(q) && !skip(q) && Mentions(f[q], names) then Relinked(f[q], names) else f[q]
  {
    RelinkEffect(f, order, skip, names, q);
    RewritesExactly(f, order, skip, names, q);
  }

  /** The link loop never rewrites the new note */
  lemma RenameKeepsNewNote(f: Files, order: seq<Path>, root: string, archive: string, newPath: Path, names: Names)
    requires forall p :: p in order ==> p in f
    ensures newPath !in Rewrites(f, order, MvSkip(root, archive, newPath), names)
  {
    RewritesExactly(f, order, MvSkip(root, archive, newPath), names, newPath);
  }

  /** The new note survives the link loop and the unlink as it was written */
  lemma NewNoteKept(files: Files, order: seq<Path>, skip: Path -> bool, names: Names, oldPath: Path, newPath: Path, note: string)
    requires forall p :: p in order ==> p in files[newPath := note]
    requires newPath !in Rewrites(files[newPath := note], order, skip, names)
    ensures (Relink(files[newPath := note], order, skip, names) - {oldPath}).Keys == (files.Keys + {newPath}) - {oldPath}
    ensures newPath != oldPath ==> (Relink(files[newPath := note], order, skip, names) - {oldPath})[newPath] == note
  {
    var f := files[newPath := note];
    RelinkEffect(f, order, skip, names, newPath);
    assert f.Keys == files.Keys + {newPath};
  }

  /** The count `/mv` reports is the number of files it rewrote, each counted once */
  lemma RenameCount(f: Files, order: seq<Path>, skip: Path -> bool, names: Names)
    requires IsWalk(order, f.Keys)
    ensures var ps := Rewrites(f, order, skip, names);
      && (forall i, j :: 0 <= i < j < |ps| ==> ps[i] != ps[j])
      && (forall q :: q in ps <==> q in f && IsMarkdown(q) && !skip(q) && Mentions(f[q], names))
  {
    RewritesOnce(f, order, skip, names);
    forall q ensures q in Rewrites(f, order, skip, names) <==> q in f && IsMarkdown(q) && !skip(q) && Mentions(f[q], names) {
      RewritesExactly(f, order, skip, names, q);
    }
  }

  /**
   * After `/mv` every other file holds its relinked text exactly when it is a scanned markdown
   * file that mentions the old note, and is as it was otherwise
   */
  lemma RenamingFiles(lib: Library, files: Files, root: string, archive: string, oldName: string, newName: string, q: Path)
    requires Sound(lib) && lib.findNote(files, oldName).Some?
    requires !Cli.Exists(files, RenamePath(newName))
    requires q in files && q != lib.findNote(files, oldName).value
    ensures var oldPath := lib.findNote(files, oldName).value;
      var out := Renaming(lib, files, root, archive, oldName, newName);
      var names := Names(Stem(Name(oldPath)), Stem(Name(RenamePath(newName))), oldName, newName);
      && q in out.files
      && out.files[q] == if IsMarkdown(q) && !Excluded(root, archive, q) && Mentions(files[q], names)
                         then Relinked(files[q], names) else files[q]
  {
    assert Finds(lib, files, oldName);
    var oldPath := lib.findNote(files, oldName).value;
    var newPath := RenamePath(newName);
    var f := files[newPath := RenamedNote(lib, files[oldPath], newName)];
    assert Walks(lib, f);
    var names := Names(Stem(Name(oldPath)), Stem(Name(newPath)), oldName, newName);
    var skip := MvSkip(root, archive, newPath);
    assert newPath !in files;
    assert Renaming(lib, files, root, archive, oldName, newName).files == Relink(f, lib.walk(f), skip, names) - {oldPath};
    RenameOutcome(f, lib.walk(f), skip, names, oldPath, q);
  }

  /**
   * The count `/mv` reports: the rewritten files are each counted once, and they are exactly the
   * scanned markdown files that mention the old note, the old note itself among them when it
   * links to itself
   */
  lemma RenamingRewrites(lib: Library, files: Files, root: string, archive: string, oldName: string, newName: string, q: Path)
    requires Sound(lib) && lib.findNote(files, oldName).Some?
    requires !Cli.Exists(files, RenamePath(newName))
    ensures var oldPath := lib.findNote(files, oldName).value;
      var ps := Renaming(lib, files, root, archive, oldName, newName).rewritten;
      var names := Names(Stem(Name(oldPath)), Stem(Name(RenamePath(newName))), oldName, newName);
      && (forall i, j :: 0 <= i < j < |ps| ==> ps[i] != ps[j])
      && (q in ps <==> q in files && IsMarkdown(q) && !Excluded(root, archive, q) && Mentions(files[q], names))
  {
    assert Finds(lib, files, oldName);
    var oldPath := lib.findNote(files, oldName).value;
    var newPath := RenamePath(newName);
    var f := files[newPath := RenamedNote(lib, files[oldPath], newName)];
    assert Walks(lib, f);
    var names := Names(Stem(Name(oldPath)), Stem(Name(newPath)), oldName, newName);
    var skip := MvSkip(root, archive, newPath);
    assert newPath !in files;
    assert Renaming(lib, files, root, archive, oldName, newName).rewritten == Rewrites(f, lib.walk(f), skip, names);
    RenameCount(f, lib.walk(f), skip, names);
  }

  // ----- /archive

  /** What `/archive` does; `ArchiveDirTaken` is the `FileExistsError` of `mkdir` on a plain file */
  datatype ArchiveReply =
    | ArchiveUsage | ArchiveMissing(name: string) | ArchiveDirTaken(dir: Path) | Archived(from: Path, to: Path)

  // ----- /tags

  /** `for tag in fm.get('tags', [])`: a list gives its items, a scalar its characters */
  function TagItems(v: Value): (ts: seq<string>)
    ensures v.Items? ==> ts == v.items
    ensures v.Scalar? ==> |ts| == |v.text| && forall i :: 0 <= i < |ts| ==> ts[i] == [v.text[i]]
  {
    match v
    case Items(ts) => ts
    case Scalar(t) => seq(|t|, i requires 0 <= i < |t| => [t[i]])
  }

  /** The tags of the scanned notes in walk order, repeats kept */
  function ShellOccurrences(lib: Library, files: Files, order: seq<Path>, skip: Path -> bool): seq<string>
    requires forall p :: p in order ==> p in files
    decreases |order|
  {
    if order == [] then []
    else
      var p := order[|order| - 1];
      ShellOccurrences(lib, files, order[..|order| - 1], skip)
        + (if skip(p) then [] else TagItems(TagsValue(lib.frontmatter(files[p]).0)))
  }

  /** The loop of `/tags` over the walk: `tag_counts[tag] = tag_counts.get(tag, 0) + 1` for each tag */
  method CountTags(lib: Library, files: Files, order: seq<Path>, skip: Path -> bool) returns (counts: Counting.Counts)
    requires forall p :: p in order ==> p in files
    ensures counts == Counting.TallyOf(ShellOccurrences(lib, files, order, skip))
  {
    counts := [];
    for k := 0 to |order|
      invariant counts == Counting.TallyOf(ShellOccurrences(lib, files, order[..k], skip))
    {
      var p := order[k];
      ShellOccurrencesStep(lib, files, order, skip, k);
      if !skip(p) {
        var tags := TagItems(TagsValue(lib.frontmatter(files[p]).0));
        counts := Cli.CountAll(counts, ShellOccurrences(lib, files, order[..k], skip), tags);
      }
    }
    assert order[..|order|] == order;
  }

  lemma ShellOccurrencesStep(lib: Library, files: Files, order: seq<Path>, skip: Path -> bool, k: nat)
    requires forall p :: p in order ==> p in files
    requires k < |order|
    ensures ShellOccurrences(lib, files, order[..k + 1], skip) == ShellOccurrences(lib, files, order[..k], skip)
      + (if skip(order[k]) then [] else TagItems(TagsValue(lib.frontmatter(files[order[k]]).0)))
    ensures skip(order[k]) ==> ShellOccurrences(lib, files, order[..k + 1], skip) == ShellOccurrences(lib, files, order[..k], skip)
  {
    assert order[..k + 1][..k] == order[..k];
  }

  // ----- dispatch

  /** What a command line led to */
  datatype Reply =
    | NotACommand
    | Unknown(word: string)
    | Exited
    | NewDone(newReply: NewReply)
    | DailyDone(dailyReply: DailyReply)
    | ListDone(notes: seq<Listed>)
    | RecentDone(recent: seq<RecentNote>)
    | SearchDone(searchReply: SearchReply)
    | BacklinksDone(backlinksReply: BacklinksReply)
    | MvDone(mvReply: MvReply)
    | ArchiveDone(archiveReply: ArchiveReply)
    | TagsDone(rows: seq<(string, nat)>)
    | Unmodelled(command: Args.Command)

  /** The handler a reply comes from */
  function HandlerOf(r: Reply): Option<Args.Command> {
    match r
    case NotACommand => None
    case Unknown(_) => None
    case Exited => Some(Args.Exit)
    case NewDone(_) => Some(Args.NewNote)
    case DailyDone(_) => Some(Args.Daily)
    case ListDone(_) => Some(Args.ListNotes)
    case RecentDone(_) => Some(Args.Recent)
    case SearchDone(_) => Some(Args.SearchNotes)
    case BacklinksDone(_) => Some(Args.Backlinks)
    case MvDone(_) => Some(Args.Move)
    case ArchiveDone(_) => Some(Args.Archive)
    case TagsDone(_) => Some(Args.TagCounts)
    case Unmodelled(c) => Some(c)
  }

  /** Replies of handlers that only read the vault */
  predicate ReadOnly(r: Reply) {
    r.NotACommand? || r.Unknown? || r.Exited? || r.ListDone? || r.RecentDone? || r.SearchDone?
      || r.BacklinksDone? || r.TagsDone? || r.Unmodelled?
  }

  /** The link loop of `/mv`: every visited note that is not skipped and mentions the old note is relinked */
  method RelinkAll(vault: Vault, order: seq<Path>, skip: Path -> bool, names: Names) returns (updated: nat)
    requires IsWalk(order, vault.files.Keys)
    modifies vault
    ensures vault.files == Relink(old(vault.files), order, skip, names)
    ensures updated == |Rewrites(old(vault.files), order, skip, names)|
    ensures vault.journal == old(vault.journal) + Writes(Rewrites(old(vault.files), order, skip, names))
  {
    ghost var f := vault.files;
    ghost var journal := vault.journal;
    ghost var rewritten: seq<Path> := [];
    updated := 0;
    for k := 0 to |order|
      invariant vault.files == Relink(f, order[..k], skip, names)
      invariant rewritten == Rewrites(f, order[..k], skip, names)
      invariant updated == |rewritten|
      invariant vault.journal == journal + Writes(rewritten)
    {
      var p := order[k];
      RelinkStep(f, order, skip, names, k);
      if !skip(p) {
        Unvisited(f, order, skip, names, k);
        var wrote := RelinkNote(vault, p, names);
        if wrote {
          WritesSnoc(rewritten, p);
          rewritten := rewritten + [p];
          updated := updated + 1;
        }
      }
    }
    assert order[..|order|] == order;
  }

  /** One note of the loop: both kinds of link replaced and the note written back, if it mentions the old note */
  method RelinkNote(vault: Vault, p: Path, names: Names) returns (wrote: bool)
    requires p in vault.files
    modifies vault
    ensures wrote == Mentions(old(vault.files)[p], names)
    ensures wrote ==> vault.files == old(vault.files)[p := Relinked(old(vault.files)[p], names)]
    ensures wrote ==> vault.journal == old(vault.journal) + [Wrote(p)]
    ensures !wrote ==> vault.files == old(vault.files) && vault.journal == old(vault.journal)
  {
    var content := vault.files[p];
    wrote := Contains(content, Link(names.oldSlug)) || Contains(content, Link(names.oldName));
    if wrote {
      content := ReplaceAll(content, Link(names.oldSlug), Link(names.newSlug));
      content := ReplaceAll(content, Link(names.oldName), Link(names.newName));
      vault.Write(p, content);
    }
  }

  /** The shell over one vault */
  class VaultShell {
    const vault: Vault
    const lib: Library
    /** The name of the archive directory */
    const archive: string
    var running: bool

    constructor (vault: Vault, lib: Library, archive: string)
      ensures this.vault == vault && this.lib == lib && this.archive == archive && running
    {
      this.vault := vault;
      this.lib := lib;
      this.archive := archive;
      running := true;
    }

    /** `/list`'s answer: the scanned notes that pass the filters read from `args`, by title */
    function Listing(files: Files, args: string): seq<Listed>
      requires Walks(lib, files)
    {
      var (query, tag) := Args.ListArgs(args);
      SortBy(ListScan(lib, files, lib.walk(files), Skip(vault.root, archive), query, tag), ListedTitle, Less)
    }

    /** `/recent`'s answer: the scanned notes, newest first, sliced to the limit read from `args` */
    function Newest(files: Files, args: string, mtime: Path -> int): seq<RecentNote>
      requires Walks(lib, files)
    {
      PySlice(SortBy(RecentScan(lib, files, lib.walk(files), Skip(vault.root, archive), mtime), Modified, Greater), 0, Limit(args))
    }

    /** `/search`'s answer: usage without a query, else the hits with two lines of context */
    function Searched(files: Files, args: string): SearchReply
      requires Walks(lib, files)
    {
      if args == [] then SearchUsage else Results(VaultHits(files, lib.walk(files), Skip(vault.root, archive), args, 2))
    }

    /** `/backlinks`'s answer: usage, a missing target, or the target's title and the notes linking to it */
    function Linking(files: Files, args: string): BacklinksReply
      requires Walks(lib, files) && Finds(lib, files, args)
    {
      if args == [] then BacklinksUsage
      else match lib.findNote(files, args)
        case None => TargetMissing(args)
        case Some(target) =>
          var title := TargetTitle(lib, target, files[target]);
          Linked(title, BacklinkScan(lib, files, lib.walk(files), Skip(vault.root, archive), target, Stem(Name(target)), title))
    }

    /** `/tags`'s answer: the tag rows of the scanned notes */
    function Tally(files: Files): seq<(string, nat)>
      requires Walks(lib, files)
    {
      Counting.Rows(ShellOccurrences(lib, files, lib.walk(files), Skip(vault.root, archive)))
    }

    /** The reply of a handler that leaves the vault alone, on the argument text `args` */
    ghost function Answer(c: Args.Command, files: Files, args: string, mtime: Path -> int): Reply
      requires Walks(lib, files) && Finds(lib, files, args)
      requires !(c.NewNote? || c.Daily? || c.Move? || c.Archive? || c.Exit?)
    {
      match c
      case ListNotes => ListDone(Listing(files, args))
      case Recent => RecentDone(Newest(files, args, mtime))
      case SearchNotes => SearchDone(Searched(files, args))
      case Backlinks => BacklinksDone(Linking(files, args))
      case TagCounts => TagsDone(Tally(files))
      case _ => Unmodelled(c)
    }

    /** The vault's files and the record of what was done to them */
    ghost function State(): Snapshot
      reads vault
    {
      Snapshot(vault.files, vault.journal)
    }

    /**
     * What `/new` does on `args`, from state `s` to state `t`: usage without arguments, no title
     * without tokens, otherwise the note is written under the title's slug unless something
     * exists there
     */
    ghost predicate NewEffect(args: string, created: string, s: Snapshot, t: Snapshot, r: NewReply) {
      && (args == [] ==> r == NewUsage)
      && (args != [] && Tokens(lib, args) == [] ==> r == NoTitle)
      && (args != [] && Tokens(lib, args) != [] ==>
           var title := Tokens(lib, args)[0];
           var options := Args.OptionsFrom(Tokens(lib, args), 1);
           var path := Cli.NotePath(title);
           && (Cli.Exists(s.files, path) ==> r == NoteExists(path))
           && (!Cli.Exists(s.files, path) ==>
                && r == NoteCreated(path, title)
                && t.files == s.files[path := ShellNote(title, created, options.tags, options.aliases)]
                && t.journal == s.journal + [Wrote(path)]))
      && (!r.NoteCreated? ==> t == s)
    }

    /**
     * What `/daily` does: refused when `daily` is a file, otherwise today's note is opened when
     * it exists and written when it does not
     */
    ghost predicate DailyEffect(today: string, created: string, s: Snapshot, t: Snapshot, r: DailyReply) {
      && (["daily"] in s.files ==> r == DailyDirTaken(["daily"]) && t == s)
      && (["daily"] !in s.files ==> !r.DailyDirTaken? && r.path == DailyPath(today))
      && (["daily"] !in s.files && Cli.Exists(s.files, DailyPath(today)) ==> r.DailyOpened? && t == s)
      && (["daily"] !in s.files && !Cli.Exists(s.files, DailyPath(today)) ==>
           && r.DailyCreated?
           && t.files == s.files[DailyPath(today) := DailyNote(today, created)]
           && t.journal == s.journal + [Wrote(DailyPath(today))])
    }

    /**
     * What `/mv` does on `args`: each refusal changes nothing; otherwise the new note is written,
     * the other notes relinked in walk order and the old note unlinked
     */
    ghost predicate MvEffect(args: string, s: Snapshot, t: Snapshot, r: MvReply)
      requires Sound(lib)
    {
      && (args == [] ==> r == MvUsage)
      && (args != [] && |SplitOnce(args)| < 2 ==> r == NamesMissing)
      && (!r.Renamed? ==> t == s)
      && (args != [] && |SplitOnce(args)| >= 2 ==>
           var oldName, newName := SplitOnce(args)[0], SplitOnce(args)[1];
           match lib.findNote(s.files, oldName)
           case None => r == OldMissing(oldName)
           case Some(oldPath) =>
             if Cli.Exists(s.files, RenamePath(newName)) then r == TargetTaken(RenamePath(newName))
             else
               var out := Renaming(lib, s.files, vault.root, archive, oldName, newName);
               && r == Renamed(oldPath, RenamePath(newName), |out.rewritten|)
               && t.files == out.files
               && t.journal == s.journal + [Wrote(RenamePath(newName))] + Writes(out.rewritten) + [Unlinked(oldPath)])
    }

    /**
     * What `/archive` does on `args`: usage, a missing note or a file in the archive directory's
     * place change nothing; otherwise the note moves into the archive directory
     */
    ghost predicate ArchiveEffect(args: string, s: Snapshot, t: Snapshot, r: ArchiveReply)
      requires Finds(lib, s.files, args)
    {
      && (args == [] ==> r == ArchiveUsage)
      && (args != [] && lib.findNote(s.files, args).None? ==> r == ArchiveMissing(args))
      && (!r.Archived? ==> t == s)
      && (args != [] && lib.findNote(s.files, args).Some? && [archive] in s.files ==> r == ArchiveDirTaken([archive]))
      && (args != [] && lib.findNote(s.files, args).Some? && [archive] !in s.files ==>
           var p := lib.findNote(s.files, args).value;
           && r == Archived(p, [archive, Name(p)])
           && t.files == (s.files - {p})[[archive, Name(p)] := s.files[p]]
           && t.journal == s.journal + [Moved(p, [archive, Name(p)])])
    }

    /** What the handler of `c` does on the argument text `args`: its reply and the state after it */
    ghost predicate Handled(c: Args.Command, args: string, created: string, today: string, mtime: Path -> int,
                            s: Snapshot, t: Snapshot, r: Reply)
      requires Sound(lib)
    {
      assert Walks(lib, s.files) && Finds(lib, s.files, args);
      match c
      case NewNote => r.NewDone? && NewEffect(args, created, s, t, r.newReply)
      case Daily => r.DailyDone? && DailyEffect(today, created, s, t, r.dailyReply)
      case Move => r.MvDone? && MvEffect(args, s, t, r.mvReply)
      case Archive => r.ArchiveDone? && ArchiveEffect(args, s, t, r.archiveReply)
      case Exit => r == Exited && t == s
      case _ => r == Answer(c, s.files, args, mtime) && t == s
    }

    /** `handle_command`: a line not starting with `/` is refused; the first word picks the handler */
    method HandleCommand(text: string, created: string, today: string, mtime: Path -> int) returns (r: Reply)
      requires Sound(lib)
      modifies this, vault
      ensures r.NotACommand? <==> text == [] || text[0] != '/'
      ensures !r.NotACommand? ==>
        Args.SplitCommand(text).Some? && HandlerOf(r) == Args.Route(Args.SplitCommand(text).value.word)
      ensures r.Unknown? ==> r.word == Args.SplitCommand(text).value.word
      ensures r.Exited? ==> !running
      ensures !r.Exited? ==> running == old(running)
      ensures ReadOnly(r) ==> vault.files == old(vault.files) && vault.journal == old(vault.journal)
      ensures !r.NotACommand? ==> Routed(Args.SplitCommand(text).value, created, today, mtime, old(State()), State(), r)
    {
      if text == [] || text[0] != '/' {
        return NotACommand;
      }
      Args.CommandLineSplits(text);
      var line := Args.SplitCommand(text).value;
      r := Dispatch(line, created, today, mtime);
    }

    /**
     * The command word of `line` picks the handler, which runs on the line's argument text; an
     * unknown word is reported
     */
    ghost predicate Routed(line: Args.Line, created: string, today: string, mtime: Path -> int, s: Snapshot, t: Snapshot, r: Reply)
      requires Sound(lib)
    {
      && HandlerOf(r) == Args.Route(line.word)
      && (Args.Route(line.word).None? ==> r == Unknown(line.word) && t == s)
      && (Args.Route(line.word).Some? ==> Handled(Args.Route(line.word).value, line.args, created, today, mtime, s, t, r))
    }

    /** `handlers.get(cmd)`: the handler the command word names runs on the rest of the line */
    method Dispatch(line: Args.Line, created: string, today: string, mtime: Path -> int) returns (r: Reply)
      requires Sound(lib)
      modifies this, vault
      ensures Routed(line, created, today, mtime, old(State()), State(), r)
      ensures r.Exited? ==> !running
      ensures !r.Exited? ==> running == old(running)
      ensures ReadOnly(r) ==> vault.files == old(vault.files) && vault.journal == old(vault.journal)
    {
      ghost var before := State();
      var word, args := line.word, line.args;
      match Args.Route(word) {
        case None =>
          r := Unknown(word);
        case Some(c) =>
          if c.NewNote? || c.Daily? || c.Move? || c.Archive? {
            r := Change(c, args, created, today);
            ChangeHandled(c, args, created, today, mtime, before, State(), r);
          } else {
            r := Look(c, args, mtime);
            LookHandled(c, args, created, today, mtime, before, State(), r);
          }
      }
    }

    /** A handler that changes the vault and keeps to its own effect does what `Handled` says */
    lemma ChangeHandled(c: Args.Command, args: string, created: string, today: string, mtime: Path -> int,
                        s: Snapshot, t: Snapshot, r: Reply)
      requires Sound(lib)
      requires c.NewNote? ==> r.NewDone? && NewEffect(args, created, s, t, r.newReply)
      requires c.Daily? ==> r.DailyDone? && DailyEffect(today, created, s, t, r.dailyReply)
      requires c.Move? ==> r.MvDone? && MvEffect(args, s, t, r.mvReply)
      requires c.Archive? ==> r.ArchiveDone? && Finds(lib, s.files, args) && ArchiveEffect(args, s, t, r.archiveReply)
      requires c.NewNote? || c.Daily? || c.Move? || c.Archive?
      ensures Handled(c, args, created, today, mtime, s, t, r)
    {
    }

    /** A handler that leaves the vault alone and gives its answer does what `Handled` says */
    lemma LookHandled(c: Args.Command, args: string, created: string, today: string, mtime: Path -> int,
                      s: Snapshot, t: Snapshot, r: Reply)
      requires Sound(lib)
      requires !(c.NewNote? || c.Daily? || c.Move? || c.Archive?)
      requires c.Exit? ==> r == Exited
      requires !c.Exit? ==> r == Answer(c, s.files, args, mtime)
      requires t == s
      ensures Handled(c, args, created, today, mtime, s, t, r)
    {
    }

    /** The handlers that change the vault */
    method Change(c: Args.Command, args: string, created: string, today: string) returns (r: Reply)
      requires Sound(lib)
      requires c.NewNote? || c.Daily? || c.Move? || c.Archive?
      modifies vault
      ensures HandlerOf(r) == Some(c) && !ReadOnly(r)
      ensures c.NewNote? ==> r.NewDone? && NewEffect(args, created, old(State()), State(), r.newReply)
      ensures c.Daily? ==> r.DailyDone? && DailyEffect(today, created, old(State()), State(), r.dailyReply)
      ensures c.Move? ==> r.MvDone? && MvEffect(args, old(State()), State(), r.mvReply)
      ensures c.Archive? ==> r.ArchiveDone? && Finds(lib, old(vault.files), args) && ArchiveEffect(args, old(State()), State(), r.archiveReply)
    {
      if c.NewNote? || c.Daily? {
        r := Create(c, args, created, today);
      } else {
        r := Relocate(c, args);
      }
    }

    /** `/new` and `/daily` */
    method Create(c: Args.Command, args: string, created: string, today: string) returns (r: Reply)
      requires c.NewNote? || c.Daily?
      modifies vault
      ensures HandlerOf(r) == Some(c) && !ReadOnly(r)
      ensures c.NewNote? ==> r.NewDone? && NewEffect(args, created, old(State()), State(), r.newReply)
      ensures c.Daily? ==> r.DailyDone? && DailyEffect(today, created, old(State()), State(), r.dailyReply)
    {
      if c.NewNote? {
        var reply := New(args, created);
        r := NewDone(reply);
      } else {
        var reply := Daily(today, created);
        r := DailyDone(reply);
      }
    }

    /** `/mv` and `/archive` */
    method Relocate(c: Args.Command, args: string) returns (r: Reply)
      requires Sound(lib)
      requires c.Move? || c.Archive?
      modifies vault
      ensures HandlerOf(r) == Some(c) && !ReadOnly(r)
      ensures c.Move? ==> r.MvDone? && MvEffect(args, old(State()), State(), r.mvReply)
      ensures c.Archive? ==> r.ArchiveDone? && Finds(lib, old(vault.files), args) && ArchiveEffect(args, old(State()), State(), r.archiveReply)
    {
      if c.Move? {
        var reply := Mv(args);
        r := MvDone(reply);
      } else {
        var reply := Archive(args);
        r := ArchiveDone(reply);
      }
    }

    /** `/exit`, and the handlers that only read the vault */
    method Look(c: Args.Command, args: string, mtime: Path -> int) returns (r: Reply)
      requires Sound(lib)
      requires !(c.NewNote? || c.Daily? || c.Move? || c.Archive?)
      modifies this
      ensures HandlerOf(r) == Some(c) && ReadOnly(r)
      ensures c.Exit? ==> r == Exited
      ensures !c.Exit? ==> r == Answer(c, vault.files, args, mtime)
      ensures r.Exited? ==> !running
      ensures !r.Exited? ==> running == old(running)
    {
      if c.Exit? {
        Exit();
        r := Exited;
      } else if c.ListNotes? || c.Recent? || c.SearchNotes? || c.Backlinks? || c.TagCounts? {
        r := Read(c, args, mtime);
      } else {
        r := Unmodelled(c);
      }
    }

    /** The handlers that only read the vault */
    method Read(c: Args.Command, args: string, mtime: Path -> int) returns (r: Reply)
      requires Sound(lib)
      requires c.ListNotes? || c.Recent? || c.SearchNotes? || c.Backlinks? || c.TagCounts?
      ensures HandlerOf(r) == Some(c) && ReadOnly(r) && !r.Exited?
      ensures r == Answer(c, vault.files, args, mtime)
    {
      if c.ListNotes? || c.Recent? {
        r := Browse(c, args, mtime);
      } else {
        r := Find(c, args);
      }
      ReadAnswer(c, vault.files, args, mtime, r);
    }

    /** The read-only handlers' replies, each by its own specification, make up `Answer` */
    lemma ReadAnswer(c: Args.Command, files: Files, args: string, mtime: Path -> int, r: Reply)
      requires Walks(lib, files) && Finds(lib, files, args)
      requires c.ListNotes? || c.Recent? || c.SearchNotes? || c.Backlinks? || c.TagCounts?
      requires c.ListNotes? ==> r == ListDone(Listing(files, args))
      requires c.Recent? ==> r == RecentDone(Newest(files, args, mtime))
      requires c.SearchNotes? ==> r == SearchDone(Searched(files, args))
      requires c.Backlinks? ==> r == BacklinksDone(Linking(files, args))
      requires c.TagCounts? ==> r == TagsDone(Tally(files))
      ensures r == Answer(c, files, args, mtime)
    {
    }

    /** `/list` and `/recent` */
    method Browse(c: Args.Command, args: string, mtime: Path -> int) returns (r: Reply)
      requires Walks(lib, vault.files)
      requires c.ListNotes? || c.Recent?
      ensures c.ListNotes? ==> r == ListDone(Listing(vault.files, args))
      ensures c.Recent? ==> r == RecentDone(Newest(vault.files, args, mtime))
    {
      if c.ListNotes? {
        var notes := List(args);
        r := ListDone(notes);
      } else {
        var notes := Recent(args, mtime);
        r := RecentDone(notes);
      }
    }

    /** `/search`, `/backlinks` and `/tags` */
    method Find(c: Args.Command, args: string) returns (r: Reply)
      requires Walks(lib, vault.files) && Finds(lib, vault.files, args)
      requires c.SearchNotes? || c.Backlinks? || c.TagCounts?
      ensures c.SearchNotes? ==> r == SearchDone(Searched(vault.files, args))
      ensures c.Backlinks? ==> r == BacklinksDone(Linking(vault.files, args))
      ensures c.TagCounts? ==> r == TagsDone(Tally(vault.files))
    {
      if c.SearchNotes? {
        var reply := Search(args);
        r := SearchDone(reply);
      } else if c.Backlinks? {
        var reply := Backlinks(args);
        r := BacklinksDone(reply);
      } else {
        var rows := Tags();
        r := TagsDone(rows);
      }
    }

    /** `/exit` and `/quit` */
    method Exit()
      modifies this
      ensures !running
    {
      running := false;
    }

    /**
     * `/new <title> [-t tag] [-a alias]`: the first token is the title, the options follow; the
     * note is written under its slug unless something exists there already
     */
    method New(args: string, created: string) returns (r: NewReply)
      modifies vault
      ensures NewEffect(args, created, old(State()), State(), r)
    {
      if args == [] {
        return NewUsage;
      }
      var parts: seq<string>;
      var split := lib.shlexSplit(args);
      if split.Some? {
        parts := split.value;
      } else {
        parts := Words(args);
      }
      if parts == [] {
        return NoTitle;
      }
      var title := parts[0];
      var tags, aliases := Args.ParseOptions(parts);
      var path := [NoteSlug(title) + ".md"];
      if Cli.Exists(vault.files, path) {
        return NoteExists(path);
      }
      var header := ShellHeader(title, created, tags, aliases);
      var content := Render(header, false);
      content := content + "---\n\n";
      content := content + "# " + title + "\n\n";
      Cli.NoteTail("---\n" + FieldsText(header, false), title);
      vault.Write(path, content);
      r := NoteCreated(path, title);
    }

    /** `/daily`: writes today's note from the daily template unless it exists already */
    method Daily(today: string, created: string) returns (r: DailyReply)
      modifies vault
      ensures DailyEffect(today, created, old(State()), State(), r)
    {
      if ["daily"] in vault.files {
        return DailyDirTaken(["daily"]);
      }
      var path := ["daily", today + ".md"];
      if Cli.Exists(vault.files, path) {
        return DailyOpened(path);
      }
      vault.Write(path, DailyNote(today, created));
      r := DailyCreated(path);
    }

    /** `/list [query] [-t tag]`: the scanned notes that pass both filters, by title */
    method List(args: string) returns (notes: seq<Listed>)
      requires Walks(lib, vault.files)
      ensures notes == Listing(vault.files, args)
    {
      var (query, tag) := Args.ListArgs(args);
      var order := lib.walk(vault.files);
      var found := ScanList(lib, vault.files, order, Skip(vault.root, archive), query, tag);
      notes := SortBy(found, ListedTitle, Less);
    }

    /** `/recent [n]`: the scanned notes, newest first, as many as the limit says */
    method Recent(args: string, mtime: Path -> int) returns (notes: seq<RecentNote>)
      requires Walks(lib, vault.files)
      ensures notes == Newest(vault.files, args, mtime)
    {
      var limit := 10;
      if args != [] {
        var n := Args.ParseInt(args);
        if n.Some? {
          limit := n.value;
        }
      }
      var order := lib.walk(vault.files);
      var found := ScanRecent(lib, vault.files, order, Skip(vault.root, archive), mtime);
      notes := SortBy(found, Modified, Greater);
      notes := PySlice(notes, 0, limit);
    }

    /** `/search <query>`: the matching lines of the scanned notes, two lines of context on each side */
    method Search(args: string) returns (r: SearchReply)
      requires Walks(lib, vault.files)
      ensures r == Searched(vault.files, args)
    {
      if args == [] {
        return SearchUsage;
      }
      var hits := SearchVault(vault.files, lib.walk(vault.files), Skip(vault.root, archive), args, 2);
      r := Results(hits);
    }

    /** `/backlinks <note>`: the scanned notes other than the target whose links name it */
    method Backlinks(args: string) returns (r: BacklinksReply)
      requires Walks(lib, vault.files) && Finds(lib, vault.files, args)
      ensures r == Linking(vault.files, args)
    {
      if args == [] {
        return BacklinksUsage;
      }
      var found := lib.findNote(vault.files, args);
      if found.None? {
        return TargetMissing(args);
      }
      var target := found.value;
      var title := TargetTitle(lib, target, vault.files[target]);
      var slug := Stem(Name(target));
      var order := lib.walk(vault.files);
      var links := ScanBacklinks(lib, vault.files, order, Skip(vault.root, archive), target, slug, title);
      r := Linked(title, links);
    }

    /**
     * `/mv <old> <new>`: writes the note under its new name with the new title, rewrites the
     * links in the other notes, and unlinks the old file last; nothing is written when the old
     * note is missing or the new path is taken
     */
    method Mv(args: string) returns (r: MvReply)
      requires Sound(lib)
      modifies vault
      ensures MvEffect(args, old(State()), State(), r)
    {
      if args == [] {
        return MvUsage;
      }
      var parts := SplitOnce(args);
      if |parts| < 2 {
        return NamesMissing;
      }
      var oldName, newName := parts[0], parts[1];
      var found := lib.findNote(vault.files, oldName);
      if found.None? {
        return OldMissing(oldName);
      }
      var oldPath := found.value;
      var newPath := [RenameSlug(newName) + ".md"];
      if Cli.Exists(vault.files, newPath) {
        return TargetTaken(newPath);
      }
      var updated := Commit(oldName, newName);
      r := Renamed(oldPath, newPath, updated);
    }

    /** The writes of `/mv`: the renamed note, the relinked notes, then the unlink of the old file */
    method Commit(oldName: string, newName: string) returns (updated: nat)
      requires Sound(lib) && lib.findNote(vault.files, oldName).Some?
      modifies vault
      ensures var out := Renaming(lib, old(vault.files), vault.root, archive, oldName, newName);
        var oldPath := lib.findNote(old(vault.files), oldName).value;
        && updated == |out.rewritten|
        && vault.files == out.files
        && vault.journal == old(vault.journal) + [Wrote(RenamePath(newName))] + Writes(out.rewritten) + [Unlinked(oldPath)]
    {
      assert Finds(lib, vault.files, oldName);
      var oldPath := lib.findNote(vault.files, oldName).value;
      var newPath := [RenameSlug(newName) + ".md"];
      var (fm, body) := lib.frontmatter(vault.files[oldPath]);
      var content := Render(Put(fm, "title", Scalar(newName)), false);
      content := content + "---\n" + body;
      vault.Write(newPath, content);
      assert Walks(lib, vault.files);
      var names := Names(Stem(Name(oldPath)), Stem(Name(newPath)), oldName, newName);
      var order := lib.walk(vault.files);
      updated := RelinkAll(vault, order, MvSkip(vault.root, archive, newPath), names);
      vault.Unlink(oldPath);
    }

    /** `/archive <note>`: moves the note into the archive directory under its own name */
    method Archive(args: string) returns (r: ArchiveReply)
      requires Finds(lib, vault.files, args)
      modifies vault
      ensures ArchiveEffect(args, old(State()), State(), r)
    {
      if args == [] {
        return ArchiveUsage;
      }
      var found := lib.findNote(vault.files, args);
      if found.None? {
        return ArchiveMissing(args);
      }
      if [archive] in vault.files {
        return ArchiveDirTaken([archive]);
      }
      var p := found.value;
      var to := [archive, Name(p)];
      vault.Move(p, to);
      r := Archived(p, to);
    }

    /** `/tags`: every tag of every scanned note counted, listed by count */
    method Tags() returns (rows: seq<(string, nat)>)
      requires Walks(lib, vault.files)
      ensures rows == Tally(vault.files)
    {
      var order := lib.walk(vault.files);
      var counts := CountTags(lib, vault.files, order, Skip(vault.root, archive));
      rows := SortBy(counts, Counting.Count, Greater);
    }
  }
}
