# mdvault note store, modelled in Dafny

mdvault keeps Markdown notes in a directory (the vault). Each note may open with a YAML
header between `---` lines holding `title`, `created`, `tags` and, from the shell,
`aliases`. Two front ends work on the vault:

- the one-shot commands of `mdvault/cli.py`: `new`, `list`, `search`, `show`/`edit` and `tags`;
- the interactive shell of `mdvault/shell.py`: `/new`, `/daily`, `/list`, `/recent`,
  `/search`, `/backlinks`, `/mv`, `/archive` and `/tags`, the command dispatch, and the
  tab completer.

This project models those operations and proves what they promise.

The vault is the class `Store.Vault`. It holds a map from a path (its components relative
to the vault root) to the file's text. It also keeps a ghost journal of every write,
unlink and move, so the order of effects can be stated: `/mv` unlinks the old note last,
and no command writes anything on its error paths.

Each shell handler's promise is stated once over a `Shell.Snapshot` of the files and the
journal before and after it: `NewEffect`, `DailyEffect`, `MvEffect` and `ArchiveEffect` for the
handlers that write, and `Answer` (built from `Listing`, `Newest`, `Searched`, `Linking` and
`Tally`) for those that only read. The dispatch (`HandleCommand`, `Dispatch`) ensures
`Routed`: the handler the command word names ran on the line's argument text, with exactly
that handler's reply and effect.

The directory walk (`rglob("*.md")`) is modelled as an order in which every Markdown file is
visited exactly once (`Store.IsWalk`). It visits files only: a directory whose name ends in
`.md`, which `rglob` also yields, is not visited (see "## Left out"). Each command that scans the vault is:

- a loop method proved equal to a snoc-recursive specification function over that order;
- with lemmas saying exactly which notes the specification keeps.

`shell.py` imports `find_note`, `extract_frontmatter` and `extract_wikilinks` from
`mdvault.cli`, but this `cli.py` does not define them. Those three, `shlex.split` and the
walk order are fields of the datatype `Shell.Library`. `Shell.Sound` states what is assumed
of them:

- the walk visits every Markdown file once;
- a found note exists.

A header whose `title` is a list is not assumed away. The model reads it as no title (see
"## Left out").

The modules follow the program:

- `Text`: the Python string operations used, on ASCII.
- `Slug`: the two file-name pipelines.
- `Frontmatter`: the header writers.
- `Reader`: the regex-based header reader of `list`.
- `RoundTrip`: reading back what `new` wrote.
- `Search`: line search with context windows.
- `Counting`: the tag tally.
- `Cli`: the one-shot commands.
- `Args`: the shell's argument parsing.
- `Rename`: link propagation.
- `Shell`: the handlers and the `VaultShell` class.
- `Completion`: the `VaultCompleter` class.

Times (`datetime.now()`, file mtimes) are parameters of the operations that use them.

## Model

| member | source | states |
|---|---|---|
| Slug.NoteSlugShape | mdvault/cli.py:98-99 | the file stem `new` derives from a title holds only word characters and `-`, no whitespace, never two hyphens in a row, and no upper-case letter |
| Slug.NoteSlugIdempotent | mdvault/cli.py:98-99 | slugging a slug gives it back unchanged |
| Slug.RenameSlugUncollapsed | mdvault/shell.py:556 | the `/mv` stem is the `/new` stem before runs of hyphens and whitespace are collapsed |
| Slug.DoubleSpaceDiffers | mdvault/shell.py:556 | the two pipelines part ways: "a  b" gives "a-b" for a new note but "a--b" for a rename target |
| Store.StemOfMarkdown | mdvault/shell.py:581-582 | the stem of `<base>.md` is `<base>` |
| Store.EmptySlugHidden | mdvault/cli.py:100 | the file `.md`, which an empty slug names, is a hidden Markdown file whose stem is its whole name |
| Slug.EmptySlug | mdvault/cli.py:98-99 | the slug is empty exactly when the title holds no word character and no `-` |
| Cli.HiddenNotePath | mdvault/cli.py:98-100 | the new note's file is hidden exactly when the title holds no word character and no `-`, and it is then `.md` |
| Store.ArchivedExcluded | mdvault/shell.py:324 | a note under the archive directory is skipped by every shell scan |
| Store.NameMentioningArchiveExcluded | mdvault/shell.py:324 | a note whose own file name contains the archive name is skipped as if archived |
| Store.RootMentioningArchiveExcludesAll | mdvault/shell.py:324 | the skip test looks at the whole path string, so a vault whose own path holds the archive name skips every note |
| Store.Vault.Write | mdvault/shell.py:578 | a write replaces or adds exactly one file and journals it |
| Store.Vault.Unlink | mdvault/shell.py:596 | an unlink removes exactly one existing file and journals it |
| Store.Vault.Move | mdvault/shell.py:618 | a rename moves one file's text to the new path, replacing what was there, and journals it |
| Sorting.SortBySorted | mdvault/cli.py:192 | `sorted` by a key yields an ordered permutation of its input |
| Frontmatter.Get | mdvault/shell.py:330 | a key's lookup fails exactly when the header has no such key, and a found value is the header's |
| Frontmatter.PutGet | mdvault/shell.py:566 | after `fm['title'] = new_name` the title reads as the new name and every other key reads as before |
| Frontmatter.PutKeys | mdvault/shell.py:566 | assigning a key keeps the order of the keys, puts a new key last, and keeps keys unique |
| Frontmatter.Render | mdvault/cli.py:113-120 | the header text built by repeated `+=` is the opening marker and then each field's text in header order |
| Frontmatter.RenderField | mdvault/shell.py:257-263 | one field renders as `key:` plus one `  - item` line per list entry, or `key: value`; with empty lists dropped, an empty list renders as nothing |
| Frontmatter.NonEmpty | mdvault/shell.py:258-262 | the fields kept are exactly the header's fields that are not empty lists |
| Frontmatter.DropEmptyLists | mdvault/shell.py:569-575 | rendering while dropping empty lists equals rendering the header with its empty lists removed |
| Frontmatter.CliLayout | mdvault/cli.py:107-122 | `new` writes `title`, `created`, then `tags:` with one item line per tag, `tags:` even when there are none |
| Frontmatter.ShellLayout | mdvault/shell.py:249-265 | `/new` writes `title` and `created`, then `tags` and `aliases` only when not empty, in that order |
| Reader.HeaderOf | mdvault/cli.py:148 | a header is found exactly when the text starts with `---\n` and a later `\n---` exists; it ends at the first such marker |
| Reader.MarkerFrom | mdvault/cli.py:148 | the search for `\n---` finds the first marker at or after its start, or reports that there is none |
| Cli.ReadHeader | mdvault/cli.py:147-165 | the reader of `list` assigns the titleized stem, no tags and no creation time, then overrides each from its own search of the header; the result is `Reader.Summarize` |
| RoundTrip.HeaderFound | mdvault/cli.py:148 | the header of a note written by `new` is found and is exactly the field text written |
| RoundTrip.TagListBullets | mdvault/cli.py:159-161 | the tags read from the item lines are the tags they were written from, in order |
| RoundTrip.ReadBack | mdvault/cli.py:107-165 | `list` reads back the title and tags `new` wrote, and the creation time when the title does not itself hold `created:` |
| Cli.NotePath | mdvault/cli.py:97-99 | the new note is one Markdown file in the vault root whose stem is the slug; an empty slug names the hidden file `.md` |
| Cli.New | mdvault/cli.py:102-124 | with anything already at the path nothing is written; otherwise exactly the note text is written there |
| Cli.List | mdvault/cli.py:140-192 | the rows are the scanned notes that pass both filters, sorted by title |
| Cli.ScanNotes | mdvault/cli.py:140-180 | the scan loop of `list` gives the specification's rows, note by note in walk order |
| Cli.ScanExactly | mdvault/cli.py:141-180 | a row is listed exactly when its note is not hidden and passes the query and tag filters |
| Cli.ListSorted | mdvault/cli.py:192 | the rows are in title order and are a permutation of the kept notes |
| Cli.SearchNotes | mdvault/cli.py:210-228 | the results are those of every note that is not hidden, in walk order |
| Cli.Locate | mdvault/cli.py:247-255 | the note is the argument as a path when anything exists there, else the argument with `.md`; it is missing exactly when neither exists |
| Cli.Tags | mdvault/cli.py:287-311 | the rows are the tally of every tag occurrence of every note that is not hidden, by descending count |
| Cli.TallyNotes | mdvault/cli.py:287-301 | the tally loop of `tags` ends with the tally of every tag occurrence of the visited notes |
| Cli.CountAll | mdvault/cli.py:300-301 | counting one more note's tags gives the tally of all occurrences seen so far |
| Counting.BumpGet | mdvault/cli.py:301 | `counts[tag] = counts.get(tag, 0) + 1` adds one to that tag and changes no other count |
| Counting.TallyCounts | mdvault/cli.py:300-301 | each tag's count is its number of occurrences; every tag is held once, exactly the tags that occur, none with count zero |
| Counting.RowsCount | mdvault/cli.py:311 | every row carries its tag's number of occurrences, every tag has a row, and the rows run from most to least frequent |
| Search.PySlice | mdvault/shell.py:399 | a Python slice clamps both bounds into the sequence and is empty when they cross |
| Search.SearchFile | mdvault/cli.py:215-228 | the results of one note are those of its lines split at `\n` |
| Search.SearchVault | mdvault/cli.py:211-228 | the loop's results are the specification's, note by note in walk order |
| Search.LineHitsExactly | mdvault/cli.py:218-228 | there is a result exactly for each line holding the query case-insensitively, numbered from 1, with its context window |
| Search.LineHitsOrdered | mdvault/cli.py:218-228 | results come in increasing line order, one per line |
| Search.WindowHoldsLine | mdvault/cli.py:220-222 | with a context of c >= 0 the window holds the matched line and at most 2c+1 lines |
| Search.NegativeContextMisses | mdvault/cli.py:220-222 | with a negative context the window's end counts from the last line and can leave out the matched line |
| Search.VaultHitsExactly | mdvault/cli.py:211-213 | the scan reports exactly the results of the notes it does not skip |
| Args.CompletedRouted | mdvault/shell.py:124-141 | every word the completer offers has a handler except `/find`, which has none |
| Args.SplitCommand | mdvault/shell.py:120-122 | a command line has a word exactly when it is not blank; the command is its first word, and the argument text is the tail of the line from the second word on, holding exactly the remaining words, or "" when there are none |
| Args.ParseOptions | mdvault/shell.py:229-238 | the option loop collects exactly the tags and aliases the recursive reading of the tokens does |
| Args.OptionsSound | mdvault/shell.py:229-238 | every tag follows a `-t` and every alias an `-a`; each consumes two tokens |
| Args.OptionsOfPairs | mdvault/shell.py:229-238 | tokens spelled as `-t X` and `-a Y` pairs give back exactly those tags and aliases, in order |
| Args.ListArgsTyped | mdvault/shell.py:313-321 | `/list words -t tag` gives back the words, joined by single spaces, as the query, and the tag |
| Args.ParseDecimal | mdvault/shell.py:369 | `int()` reads back every integer of at most 4300 digits written in decimal |
| Args.TooManyDigitsRefused | mdvault/shell.py:369 | `int()` refuses the decimal text of every integer of more than 4300 digits, so `/recent` keeps its limit of 10 |
| Args.UnderscoreAccepted | mdvault/shell.py:369 | for every text, one underscore between two digits changes nothing: `int()` accepts and refuses the same texts with and without it and reads the same number |
| Args.DoubleUnderscoreRefused | mdvault/shell.py:369 | `int()` refuses every text whose stripped form holds two underscores in a row |
| Args.TrailingUnderscoreRefused | mdvault/shell.py:369 | `int()` refuses every text whose stripped form ends in an underscore |
| Args.PlusAccepted | mdvault/shell.py:369 | `int()` reads every non-negative number of at most 4300 digits back from its decimal text with a leading `+` and any whitespace around it |
| Args.SignAloneRefused | mdvault/shell.py:369 | `int()` refuses a `+` or `-` with no digits, whatever whitespace surrounds it |
| Rename.RewritesExactly | mdvault/shell.py:585-594 | the link loop rewrites a file exactly when it visits it, does not skip it, and the file mentions the old note by slug or name |
| Rename.RewritesOnce | mdvault/shell.py:585-594 | visiting each file once, the loop rewrites each file at most once |
| Rename.RelinkEffect | mdvault/shell.py:589-593 | a rewritten file holds its text with slug links then name links replaced; every other file is byte-identical |
| Shell.DailyIsNewNote | mdvault/shell.py:280-296 | the daily note is the note `new` would write for today with the tag `daily`, followed by the Notes, Tasks and Links sections |
| Shell.VaultShell.Daily | mdvault/shell.py:271-298 | a plain file named `daily` makes `mkdir` fail and nothing is written; otherwise today's note is written only when nothing exists at `daily/<today>.md` |
| Shell.ScanList | mdvault/shell.py:323-343 | the loop of `/list` gives the specification's rows in walk order |
| Shell.ListScanExactly | mdvault/shell.py:323-343 | a note is listed exactly when the scan does not skip it and it passes both filters; a tag filter on a scalar `tags` is a substring test |
| Shell.ListSorted | mdvault/shell.py:354 | `/list` shows its rows in title order, as a permutation of the kept notes |
| Shell.VaultShell.List | mdvault/shell.py:306-354 | `/list` shows the scanned notes that pass the filters parsed from its arguments, sorted by title |
| Shell.ScanRecent | mdvault/shell.py:373-386 | the loop of `/recent` gives every scanned note with its title and modification time, in walk order |
| Shell.RecentNewestFirst | mdvault/shell.py:392-399 | `/recent` shows notes newest first, a sub-multiset of the notes of length min(n, count) for a limit n >= 0 and max(0, count - n) for a limit -n, and no note left out is newer than a note shown: the n newest, or all but the n oldest |
| Shell.VaultShell.Recent | mdvault/shell.py:364-399 | the limit is 10 unless `int()` accepts the argument; the shown notes are the sorted scan sliced to the limit |
| Shell.VaultShell.Search | mdvault/shell.py:423-447 | without a query only the usage is shown; otherwise the results of the scanned notes, with two lines of context |
| Shell.ScanBacklinks | mdvault/shell.py:506-520 | the loop of `/backlinks` gives the specification's links in walk order |
| Shell.BacklinksExactly | mdvault/shell.py:507-520 | a note is a backlink exactly when it is not the target, is not skipped, and links to the target's stem or title |
| Shell.VaultShell.Backlinks | mdvault/shell.py:490-520 | no argument gives the usage, an unknown note gives not-found, else the target's title (its stem when it has none) and its backlinks |
| Shell.Renaming | mdvault/shell.py:563-596 | after a rename the vault holds exactly the old files less the old note plus the new one, and the new note holds the renamed text |
| Shell.RenamingFiles | mdvault/shell.py:584-596 | after `/mv` every other file holds its relinked text exactly when it is a scanned Markdown file mentioning the old note, and is unchanged otherwise |
| Shell.RenamingRewrites | mdvault/shell.py:584-594 | the count reported is the number of rewritten files, each counted once; they are the scanned Markdown files mentioning the old note, the old note itself among them when it links to itself |
| Shell.RenameOutcome | mdvault/shell.py:584-596 | over any walk, a file other than the old note ends relinked exactly when it is a Markdown file the loop does not skip and it mentions the old note |
| Shell.RenameKeepsNewNote | mdvault/shell.py:586 | the link loop never rewrites the new note |
| Shell.NewNoteKept | mdvault/shell.py:578-596 | the new note survives the link loop and the unlink as written |
| Shell.RenameCount | mdvault/shell.py:584-594 | the rewritten files are distinct and are exactly the Markdown files not skipped that mention the old note |
| Shell.VaultShell.Mv | mdvault/shell.py:538-596 | usage and missing names write nothing; an unknown old note or a taken target writes nothing; otherwise the new note is written, then the relinked notes, then the old note is unlinked |
| Shell.VaultShell.Commit | mdvault/shell.py:563-596 | the writes of a rename: the renamed note, each relinked note in walk order, and the unlink last |
| Shell.RelinkAll | mdvault/shell.py:584-594 | the link loop leaves the files the specification gives, journals one write per rewritten file in visit order, and counts them |
| Shell.RelinkNote | mdvault/shell.py:589-593 | a note is written back exactly when it holds `[[old-slug]]` or `[[old name]]`, and then holds its text with slug links and then name links replaced; otherwise nothing changes |
| Shell.VaultShell.Archive | mdvault/shell.py:603-618 | no argument, an unknown note, or a plain file where the archive directory should be moves nothing; otherwise the note moves to the archive directory under its own file name |
| Shell.TagItems | mdvault/shell.py:633 | iterating a list header value gives its items; iterating a scalar gives its characters |
| Shell.CountTags | mdvault/shell.py:625-634 | the tally loop of `/tags` counts every tag occurrence of every scanned note |
| Shell.VaultShell.Tags | mdvault/shell.py:623-644 | `/tags` lists the tally of the scanned notes by descending count |
| Shell.VaultShell.New | mdvault/shell.py:208-267 | `/new` with no arguments or no title writes nothing; the first token is the title and the options follow; nothing is written when the path exists; otherwise the note is written under its slug |
| Shell.VaultShell.Exit | mdvault/shell.py:204-206 | `/exit` and `/quit` stop the shell |
| Shell.VaultShell.HandleCommand | mdvault/shell.py:114-148 | a line not starting with `/` is refused; otherwise `split(maxsplit=1)` gives the command word and the argument text, the word picks the handler, an unknown word is reported with the vault untouched, and the handler's reply and the new files and journal are exactly what that handler does on the argument text (`Routed`); only `/exit` stops the shell |
| Shell.VaultShell.Dispatch | mdvault/shell.py:124-148 | the handler named by the command word runs on the argument text: its reply and the new files and journal are its effect, an unknown word is reported and changes nothing, only `/exit` stops the shell, and read-only replies leave the vault as it was |
| Shell.VaultShell.Change | mdvault/shell.py:143-145 | `/new`, `/daily`, `/mv` and `/archive` run their own handler on the argument text: the reply and the new files and journal are that handler's effect (`NewEffect`, `DailyEffect`, `MvEffect`, `ArchiveEffect`) |
| Shell.VaultShell.Create | mdvault/shell.py:143-145 | `/new` writes by `NewEffect` on the argument text, `/daily` by `DailyEffect` for today |
| Shell.VaultShell.Relocate | mdvault/shell.py:143-145 | `/mv` renames by `MvEffect` and `/archive` moves by `ArchiveEffect`, each on the argument text |
| Shell.VaultShell.Look | mdvault/shell.py:143-145 | `/exit` answers `Exited` and stops the shell; every other known command that does not write answers `Answer` on the argument text and leaves the vault and the shell running as they were |
| Shell.VaultShell.Read | mdvault/shell.py:143-145 | `/list`, `/recent`, `/search`, `/backlinks` and `/tags` answer `Answer` on the argument text: each handler's own specification over the vault's files |
| Shell.VaultShell.Browse | mdvault/shell.py:143-145 | `/list` answers the listing `Listing` of the argument text and `/recent` the newest notes `Newest` under the limit read from it |
| Shell.VaultShell.Find | mdvault/shell.py:143-145 | `/search` answers `Searched`, `/backlinks` answers `Linking`, each on the argument text, and `/tags` answers the tally `Tally` |
| Completion.SplitFirst | mdvault/shell.py:65 | `text.split(' ', 1)` gives the text before the first space and the text after it, or the whole text when there is no space |
| Completion.CommandMatchesExactly | mdvault/shell.py:57-60 | a command is offered exactly when the line is a prefix of it, replacing the whole line |
| Completion.MatchCommands | mdvault/shell.py:58-60 | the matching loop offers the specification's command candidates, in command order |
| Completion.NoteMatchesExactly | mdvault/shell.py:66-70 | a title is offered exactly when it holds the partial name, ignoring case, replacing the partial name |
| Completion.MatchNotes | mdvault/shell.py:68-70 | the matching loop offers the specification's note candidates, in the order of the titles |
| Completion.NoteNamesExactly | mdvault/shell.py:41-51 | the titles gathered are those of the scanned notes: the header title, else the titleized stem |
| Completion.VaultCompleter.GetNoteNames | mdvault/shell.py:41-51 | the loop gathers the titles of the scanned notes in walk order |
| Completion.CollectNames | mdvault/shell.py:43-51 | the gathering loop gives the specification's titles in walk order |
| Completion.VaultCompleter.GetCompletions | mdvault/shell.py:53-70 | the completions, with the note branch tried before the command branch |
| Completion.NoteBranchUnreachable | mdvault/shell.py:57-63 | as written, every line after a note command starts with `/`, so it only ever gets command completions |
| Completion.FixedNotes | mdvault/shell.py:63-70 | with the note branch first, a line after a note command is offered the titles holding the rest of the line |
| Completion.FixedCommandsUnchanged | mdvault/shell.py:57-60 | on a line without a space, the corrected completer offers what the written one does |
| Completion.ShowCompletesNothing | mdvault/shell.py:57-70 | `/show ab` with a note titled `Abc`: the written completer offers nothing, the corrected one offers `Abc` |

## Left out

- The prompt session, the run loop, `/help`, `/info` and the rich tables: this is terminal
  UI. The line the run loop strips is the input of `HandleCommand`.
- `/random`, `/show` and `/edit` in the shell are dispatched but not modelled: they print a
  note or start an editor. The lookup of `show`/`edit` in `cli.py` is `Cli.Locate`.
- Starting an editor (`os.system`), `git_commit` and `init`/`info` in `cli.py`: these are
  external processes and configuration I/O.
- `datetime.now()` and file modification times are parameters. Modification times are
  integers, not floats.
- `find_note`, `extract_frontmatter`, `extract_wikilinks` and `shlex.split` are not defined in
  the modelled files. They are abstract fields of `Shell.Library`, constrained only by
  `Shell.Sound`.
- Shell.NoteTitle: a header whose `title` is a list gets the titleized stem, as if it had
  no title; Python keeps the list, so `List`, `Recent`, `Backlinks` and
  `Completion.VaultCompleter.GetNoteNames` state a title Python never produces for such a
  note. In Python:
  - `/list` with a query raises `AttributeError` at `title.lower()` (shell.py:333);
  - `/list` without a query fails when `sorted` compares a list with a string title
    (shell.py:354), or when rich's `table.add_row` refuses the list (shell.py:355-356);
  - `/recent` fails in `table.add_row` (shell.py:401), only when such a note is among the
    first `limit`;
  - `/backlinks` raises `TypeError` at `target_title in links` when the target's title is
    a list, a scanned note's link set lacks the target's stem, and `extract_wikilinks`
    returns a set, as `Shell.Library.wikilinks` assumes (shell.py:514); it fails
    in `table.add_row` when a linking note's title is a list (shell.py:533);
  - the completer as written never reads titles (see "## Findings");
  - `/search`, `/tags`, `/new`, `/daily`, `/mv` and `/archive` work on such a vault.
  The failures themselves, an uncaught exception in the run loop, are not modelled.
- YAML typing: header values are strings or lists of strings. Numbers, dates, `null` and
  nested maps, and the way Python prints them, are not modelled.
- Text is ASCII. Unicode `\w`, `\s`, case mapping, `str.title()` and the Unicode digits
  `int()` accepts are not modelled.
- Directories exist only through the files under them. `mkdir` of `daily/` and of the
  archive directory has no effect on the map. When a plain file already has that name,
  `mkdir` raises `FileExistsError`, which the run loop does not catch; the model answers
  `DailyDirTaken` or `ArchiveDirTaken` and writes nothing, but does not model the shell
  ending on the uncaught exception.
- Shell.VaultShell.Mv: the walk is the order of the vault after the new note is written.
  `rglob` is lazy in Python, so a walk that meets files written during the loop is not
  modelled.
- Args.ParseInt: the limit on the digits `int()` reads is the default, 4300
  (`Args.MaxStrDigits`). It can be changed with `PYTHONINTMAXSTRDIGITS` or
  `sys.set_int_max_str_digits`, and Python 3.8 before 3.8.14, 3.9 before 3.9.14 and 3.10
  before 3.10.7 have no limit.
- Store.IsWalk: directories whose name ends in `.md` are not modelled. `rglob("*.md")`
  yields them, and Python then fails where the model answers normally:
  - every scan calls `read_text()` on such a directory and raises `IsADirectoryError`
    (shell.py:47, 327, 378, 434, 511, 589 and 630; cli.py:145, 215 and 292), while the
    model's walk holds only files, so `/list`, `/recent`, `/search`, `/backlinks`, `/mv`,
    `/tags` and the completer answer as if it were absent;
  - `/daily` when `daily/<today>.md` is a directory: `Shell.DailyEffect` answers
    `DailyOpened`, while shell.py:302 raises on reading it;
  - `/archive` when `<archive>/<name>` is a directory: `Store.Vault.Move` overwrites, while
    `rename` onto an existing directory raises.
- Shell.VaultShell.Archive: a note whose file name clashes with one already in the archive
  overwrites it, as POSIX `rename` does; other platforms raise there.
- Completion.VaultCompleter.GetCompletions: tries the note branch before the command
  branch, the corrected order of the finding below. The order as written is the function
  `Completion.Completions`, characterised by `Completion.NoteBranchUnreachable`.
- Cli.Locate: an absolute argument, which makes the vault path drop out of the join, and
  `..` components are not modelled.
- Sorting.SortBySorted: stability of Python's sort is not stated, only order and
  permutation.

## Findings

| source | as written | input that shows it | evidently intended | confidence | as-written member | corrected member |
|---|---|---|---|---|---|---|
| mdvault/shell.py:57-70 | the note-name branch is an `elif` after `text.startswith('/')`, and every line it handles starts with a note command, so it never runs | typing `/show ab` in a vault holding a note titled `Abc` | offer `Abc` for the partial name `ab` | not executed; high, the branch order makes the second test unreachable | Completion.NoteBranchUnreachable | Completion.FixedNotes |

`Completion.ShowCompletesNothing` works through that input for both versions. The
completer of the model, `Completion.VaultCompleter.GetCompletions`, follows the corrected
order.
