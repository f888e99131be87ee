/**
 * The vault on disk: the markdown files below the vault root, addressed by their path
 * relative to the root, and the three file operations the commands perform on them.
 */
module Store {
  import opened Text

  /** A path below the vault root, one name per directory level */
  type Path = seq<string>

  /** The files of the vault and their text */
  type Files = map<Path, string>

  /** `Path.name` */
  function Name(p: Path): string {
    if p == [] then "" else p[|p| - 1]
  }

  /** `PurePath.stem`: the name without its last suffix; a dot in first or last place starts none */
  function Stem(name: string): (stem: string)
    ensures stem <= name
  {
    var i := RFind(name, '.');
    if 0 < i < |name| - 1 then name[..i] else name
  }

  /** What `rglob("*.md")` yields: files whose name ends in `.md` */
  predicate IsMarkdown(p: Path) {
    var n := Name(p);
    |n| >= 3 && n[|n| - 3..] == ".md"
  }

  /** `md_file.name.startswith('.')` */
  predicate IsHidden(p: Path) {
    Name(p) != [] && Name(p)[0] == '.'
  }

  /** `str(md_file)`: the full path string under the vault root */
  function PathString(root: string, p: Path): string {
    root + "/" + Join(p, "/")
  }

  /** The shell's scan filter: a hidden name, or the archive directory's name anywhere in the path string */
  predicate Excluded(root: string, archiveDir: string, p: Path) {
    IsHidden(p) || Contains(PathString(root, p), archiveDir)
  }

  /** `order` is an order in which `rglob("*.md")` may visit `keys`: each markdown path exactly once */
  ghost predicate IsWalk(order: seq<Path>, keys: set<Path>) {
    && (forall i, j :: 0 <= i < j < |order| ==> order[i] != order[j])
    && (forall p :: p in order <==> p in keys && IsMarkdown(p))
  }

  /** The stem of `base.md` is `base` whenever `base` is not empty */
  lemma StemOfMarkdown(base: string)
    requires base != []
    ensures Stem(base + ".md") == base
  {
    var name := base + ".md";
    assert name[|base|] == '.' && name[|base| + 1] == 'm' && name[|base| + 2] == 'd';
    assert RFind(name, '.') == |base|;
    assert name[..|base|] == base;
  }

  /** A note named `.md`, what an empty slug produces, is hidden and keeps its whole name as stem */
  lemma EmptySlugHidden()
    ensures IsHidden([".md"]) && IsMarkdown([".md"]) && Stem(".md") == ".md"
  {
    assert RFind(".md", '.') == 0;
  }

  /** Everything below the archive directory is excluded from the shell's scans */
  lemma ArchivedExcluded(root: string, archiveDir: string, name: string)
    ensures Excluded(root, archiveDir, [archiveDir, name])
  {
    var s := PathString(root, [archiveDir, name]);
    assert Join([archiveDir, name], "/") == archiveDir + "/" + name;
    assert s[|root| + 1..|root| + 1 + |archiveDir|] == archiveDir;
    ContainsAt(s, archiveDir, |root| + 1);
  }

  /** The archive test is a substring test: a note whose own name contains the archive name is excluded too */
  lemma NameMentioningArchiveExcluded(root: string, archiveDir: string, base: string)
    ensures Excluded(root, archiveDir, [archiveDir + base])
  {
    var s := PathString(root, [archiveDir + base]);
    assert s[|root| + 1..|root| + 1 + |archiveDir|] == archiveDir;
    ContainsAt(s, archiveDir, |root| + 1);
  }

  /** When the vault root's own path contains the archive name, the shell sees no note at all */
  lemma RootMentioningArchiveExcludesAll(root: string, archiveDir: string, p: Path)
    requires Contains(root, archiveDir)
    ensures Excluded(root, archiveDir, p)
  {
    var i := ContainsWitness(root, archiveDir);
    var s := PathString(root, p);
    assert s[i..i + |archiveDir|] == root[i..i + |archiveDir|];
    ContainsAt(s, archiveDir, i);
  }

  /** What a file operation did, in the order the commands perform them */
  datatype Effect = Wrote(path: Path) | Unlinked(path: Path) | Moved(from: Path, to: Path)

  /** The vault directory: its root path, its files, and a record of the operations performed */
  class Vault {
    const root: string
    var files: Files
    ghost var journal: seq<Effect>

    constructor (root: string, files: Files)
      ensures this.root == root && this.files == files && journal == []
    {
      this.root := root;
      this.files := files;
      journal := [];
    }

    /** `path.write_text(content)`: creates the file or replaces its text */
    method Write(p: Path, content: string)
      modifies this
      ensures files == old(files)[p := content]
      ensures journal == old(journal) + [Wrote(p)]
    {
      files := files[p := content];
      journal := journal + [Wrote(p)];
    }

    /** `path.unlink()` of an existing file */
    method Unlink(p: Path)
      requires p in files
      modifies this
      ensures files == old(files) - {p}
      ensures journal == old(journal) + [Unlinked(p)]
    {
      files := files - {p};
      journal := journal + [Unlinked(p)];
    }

    /** `path.rename(target)` of an existing file; a file already at `target` is replaced */
    method Move(from: Path, to: Path)
      requires from in files
      modifies this
      ensures files == (old(files) - {from})[to := old(files)[from]]
      ensures journal == old(journal) + [Moved(from, to)]
    {
      files := (files - {from})[to := files[from]];
      journal := journal + [Moved(from, to)];
    }
  }
}
