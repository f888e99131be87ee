/**
 * The completer of the interactive shell: command words while the line starts with `/`, and
 * note titles after a command that takes a note. As written, the note branch sits behind the
 * command branch and never runs; the completer the shell uses here tries it first.
 */
module Completion {
  import opened Text
  import opened Store
  import Args
  import Shell

  /** A suggestion: the text offered and where it starts, counted back from the cursor */
  datatype Candidate = Candidate(text: string, start: int)

  /** The commands whose argument is a note */
  const NoteCommands: seq<string> := ["/show", "/edit", "/backlinks", "/mv", "/archive"]

  /** The line starts with one of the note commands and a space */
  predicate NoteContext(text: string) {
    exists i :: 0 <= i < |NoteCommands| && NoteCommands[i] + " " <= text
  }

  /** `text.split(' ', 1)`: the text before the first space and the text after it */
  function SplitFirst(text: string): (parts: seq<string>)
    ensures 1 <= |parts| <= 2
    ensures |parts| == 2 <==> ' ' in text
    ensures |parts| == 1 ==> parts[0] == text
    ensures |parts| == 2 ==> text == parts[0] + " " + parts[1] && ' ' !in parts[0]
  {
    var i := IndexOf(text, ' ');
    if i == |text| then [text]
    else
      assert text == text[..i] + " " + text[i + 1..];
      [text[..i], text[i + 1..]]
  }

  /** The commands `text` is a prefix of, in the completer's order, each replacing all of `text` */
  function CommandMatches(commands: seq<string>, text: string): seq<Candidate>
    decreases |commands|
  {
    if commands == [] then []
    else
      var last := commands[|commands| - 1];
      CommandMatches(commands[..|commands| - 1], text) + (if text <= last then [Candidate(last, -|text|)] else [])
  }

  /** The titles holding `partial`, case folded, each replacing `partial` */
  function NoteMatches(names: seq<string>, partial: string): seq<Candidate>
    decreases |names|
  {
    if names == [] then []
    else
      var last := names[|names| - 1];
      NoteMatches(names[..|names| - 1], partial)
        + (if Contains(Lower(last), Lower(partial)) then [Candidate(last, -|partial|)] else [])
  }

  /** The titles of the scanned notes, in walk order, repeats kept */
  function NoteNames(lib: Shell.Library, files: Files, order: seq<Path>, root: string, archive: string): seq<string>
    requires forall p :: p in order ==> p in files
    decreases |order|
  {
    if order == [] then []
    else
      var p := order[|order| - 1];
      NoteNames(lib, files, order[..|order| - 1], root, archive)
        + (if Excluded(root, archive, p) then [] else [Shell.NoteTitle(lib, p, files[p])])
  }

  /** The completions as written: commands for any line starting with `/`, note titles otherwise */
  function Completions(commands: seq<string>, text: string, names: seq<string>): seq<Candidate> {
    if |text| > 0 && text[0] == '/' then CommandMatches(commands, text)
    else if NoteContext(text) then
      var parts := SplitFirst(text);
      if |parts| > 1 then NoteMatches(names, parts[1]) else []
    else []
  }

  /** The completions with the note branch first */
  function FixedCompletions(commands: seq<string>, text: string, names: seq<string>): seq<Candidate> {
    if NoteContext(text) then
      var parts := SplitFirst(text);
      if |parts| > 1 then NoteMatches(names, parts[1]) else []
    else if |text| > 0 && text[0] == '/' then CommandMatches(commands, text)
    else []
  }

  /** A command is offered exactly when the line is a prefix of it, and it replaces the whole line */
  lemma {:induction false} CommandMatchesExactly(commands: seq<string>, text: string, c: Candidate)
    ensures c in CommandMatches(commands, text) <==> c.text in commands && text <= c.text && c.start == -|text|
    decreases |commands|
  {
    if commands != [] {
      var init := commands[..|commands| - 1];
      CommandMatchesExactly(init, text, c);
      InitLast(commands);
    }
  }

  /** A title is offered exactly when it holds the partial name, ignoring case, and it replaces the partial name */
  lemma {:induction false} NoteMatchesExactly(names: seq<string>, partial: string, c: Candidate)
    ensures c in NoteMatches(names, partial) <==>
      c.text in names && Contains(Lower(c.text), Lower(partial)) && c.start == -|partial|
    decreases |names|
  {
    if names != [] {
      var init := names[..|names| - 1];
      var last := names[|names| - 1];
      NoteMatchesExactly(init, partial, c);
      InitLast(names);
      assert c in NoteMatches(names, partial) <==>
        c in NoteMatches(init, partial) || (Contains(Lower(last), Lower(partial)) && c == Candidate(last, -|partial|));
    }
  }

  lemma NoteNamesStep(lib: Shell.Library, files: Files, order: seq<Path>, root: string, archive: string, k: nat)
    requires forall p :: p in order ==> p in files
    requires k < |order|
    ensures NoteNames(lib, files, order[..k + 1], root, archive)
      == NoteNames(lib, files, order[..k], root, archive)
        + (if IsHidden(order[k]) || Contains(PathString(root, order[k]), archive) then []
           else [Shell.NoteTitle(lib, order[k], files[order[k]])])
  {
    assert order[..k + 1][..k] == order[..k];
  }

  /** The titles gathered are those of the scanned notes: the header title, else the title made from the stem */
  lemma {:induction false} NoteNamesExactly(lib: Shell.Library, files: Files, order: seq<Path>, root: string, archive: string, t: string)
    requires forall p :: p in order ==> p in files
    ensures t in NoteNames(lib, files, order, root, archive) <==>
      exists p :: p in order && !Excluded(root, archive, p) && t == Shell.NoteTitle(lib, p, files[p])
    decreases |order|
  {
    if order != [] {
      var init := order[..|order| - 1];
      var last := order[|order| - 1];
      NoteNamesExactly(lib, files, init, root, archive, t);
      InitLast(order);
      assert t in NoteNames(lib, files, order, root, archive) <==>
        t in NoteNames(lib, files, init, root, archive)
          || (!Excluded(root, archive, last) && t == Shell.NoteTitle(lib, last, files[last]));
    }
  }

  /** A line that starts with a note command starts with `/` */
  lemma NoteContextSlash(text: string)
    requires NoteContext(text)
    ensures |text| > 0 && text[0] == '/'
  {
    var i :| 0 <= i < |NoteCommands| && NoteCommands[i] + " " <= text;
    assert (NoteCommands[i] + " ")[0] == '/';
  }

  /** As written, a line after a note command gets command completions only, never a note title */
  lemma NoteBranchUnreachable(commands: seq<string>, text: string, names: seq<string>)
    ensures Completions(commands, text, names) == if |text| > 0 && text[0] == '/' then CommandMatches(commands, text) else []
  {
    if NoteContext(text) {
      NoteContextSlash(text);
    }
  }

  /** No command holds a space, so a line that does gets no command completion */
  lemma {:induction false} NoCommandWithSpace(commands: seq<string>, text: string)
    requires forall w :: w in commands ==> ' ' !in w
    requires ' ' in text
    ensures CommandMatches(commands, text) == []
    decreases |commands|
  {
    if commands != [] {
      var last := commands[|commands| - 1];
      NoCommandWithSpace(commands[..|commands| - 1], text);
      var k := IndexOf(text, ' ');
      if |text| <= |last| {
        assert last in commands;
        assert last[k] != ' ';
        assert text[k] != last[..|text|][k];
      }
      assert !(text <= last);
    }
  }

  /** After a note command and a space, the partial name is the rest of the line */
  lemma PartialAfterCommand(text: string)
    requires NoteContext(text)
    ensures var parts := SplitFirst(text);
      |parts| == 2 && parts[0] in NoteCommands && text == parts[0] + " " + parts[1]
  {
    var i :| 0 <= i < |NoteCommands| && NoteCommands[i] + " " <= text;
    var cmd := NoteCommands[i];
    assert ' ' !in cmd;
    assert text[|cmd|] == ' ';
    forall m | 0 <= m < |cmd| ensures text[m] != ' ' {
      assert text[m] == cmd[m];
    }
    assert IndexOf(text, ' ') == |cmd|;
    assert SplitFirst(text)[0] == text[..|cmd|] == cmd;
  }

  /** The corrected completer offers, after a note command, the titles holding the rest of the line */
  lemma FixedNotes(commands: seq<string>, text: string, names: seq<string>)
    requires NoteContext(text)
    ensures var parts := SplitFirst(text);
      |parts| == 2 && parts[0] in NoteCommands && FixedCompletions(commands, text, names) == NoteMatches(names, parts[1])
  {
    PartialAfterCommand(text);
  }

  /** On a line without a space, the corrected completer offers what the written one does */
  lemma FixedCommandsUnchanged(commands: seq<string>, text: string, names: seq<string>)
    requires ' ' !in text
    ensures FixedCompletions(commands, text, names) == Completions(commands, text, names)
  {
    forall i | 0 <= i < |NoteCommands| ensures !(NoteCommands[i] + " " <= text) {
      var n := |NoteCommands[i]|;
      if n < |text| {
        assert text[n] != ' ';
        assert (NoteCommands[i] + " ")[n] == ' ';
      }
    }
    assert !NoteContext(text);
  }

  /** The command words the completer offers hold no space */
  lemma CompletedWithoutSpace(commands: seq<string>)
    requires commands == Args.Completed
    ensures forall w :: w in commands ==> ' ' !in w
  {
  }

  /** `/show ab` is a line after a note command, with `ab` as the partial name */
  lemma ShowContext(text: string)
    requires text == "/show ab"
    ensures NoteContext(text) && ' ' in text && SplitFirst(text) == ["/show", "ab"]
  {
    assert NoteCommands[0] + " " <= text;
    assert text[5] == ' ';
    PartialAfterCommand(text);
    assert SplitFirst(text)[0] == text[..5] == "/show";
    assert SplitFirst(text)[1] == text[6..] == "ab";
  }

  /** The title `Abc` holds `ab`, ignoring case */
  lemma AbcMatches(names: seq<string>, partial: string)
    requires names == ["Abc"] && partial == "ab"
    ensures NoteMatches(names, partial) == [Candidate("Abc", -2)]
  {
    assert names[..0] == [];
    assert Lower(names[0]) == "abc";
    assert Lower(partial) == "ab";
    assert At("abc", "ab", 0);
  }

  /** `/show ab` with a note titled `Abc`: the written completer offers nothing, the corrected one offers the title */
  lemma ShowCompletesNothing(text: string, names: seq<string>)
    requires text == "/show ab" && names == ["Abc"]
    ensures Completions(Args.Completed, text, names) == []
    ensures FixedCompletions(Args.Completed, text, names) == [Candidate("Abc", -2)]
  {
    ShowContext(text);
    NoteBranchUnreachable(Args.Completed, text, names);
    CompletedWithoutSpace(Args.Completed);
    NoCommandWithSpace(Args.Completed, text);
    AbcMatches(names, "ab");
  }

  /** The completer: the command words, and the titles of the notes in the vault */
  class VaultCompleter {
    const vault: Vault
    const lib: Shell.Library
    const archive: string
    const commands: seq<string>

    constructor (vault: Vault, lib: Shell.Library, archive: string)
      ensures this.vault == vault && this.lib == lib && this.archive == archive && commands == Args.Completed
    {
      this.vault := vault;
      this.lib := lib;
      this.archive := archive;
      commands := Args.Completed;
    }

    /** `get_note_names`: the title of every scanned note, in walk order */
    method GetNoteNames() returns (names: seq<string>)
      requires Shell.Walks(lib, vault.files)
      ensures names == NoteNames(lib, vault.files, lib.walk(vault.files), vault.root, archive)
    {
      names := CollectNames(lib, vault.files, lib.walk(vault.files), vault.root, archive);
    }

    /** `get_completions`, with the note branch tried before the command branch */
    method GetCompletions(text: string) returns (cs: seq<Candidate>)
      requires Shell.Walks(lib, vault.files)
      ensures cs == FixedCompletions(commands, text, NoteNames(lib, vault.files, lib.walk(vault.files), vault.root, archive))
    {
      cs := [];
      if NoteContext(text) {
        var parts := SplitFirst(text);
        if |parts| > 1 {
          var names := GetNoteNames();
          cs := MatchNotes(names, parts[1]);
        }
      } else if |text| > 0 && text[0] == '/' {
        cs := MatchCommands(commands, text);
      }
    }
  }

  /** The loop of `get_note_names` over the walk */
  method CollectNames(lib: Shell.Library, files: Files, order: seq<Path>, root: string, archive: string)
    returns (names: seq<string>)
    requires forall p :: p in order ==> p in files
    ensures names == NoteNames(lib, files, order, root, archive)
  {
    names := [];
    for k := 0 to |order|
      invariant names == NoteNames(lib, files, order[..k], root, archive)
    {
      var p := order[k];
      NoteNamesStep(lib, files, order, root, archive, k);
      if !(IsHidden(p) || Contains(PathString(root, p), archive)) {
        names := names + [Shell.NoteTitle(lib, p, files[p])];
      }
    }
    assert order[..|order|] == order;
  }

  /** The note branch's loop: every title holding the partial word, ignoring case */
  method MatchNotes(names: seq<string>, partial: string) returns (cs: seq<Candidate>)
    ensures cs == NoteMatches(names, partial)
  {
    cs := [];
    for j := 0 to |names|
      invariant cs == NoteMatches(names[..j], partial)
    {
      assert names[..j + 1][..j] == names[..j];
      if Contains(Lower(names[j]), Lower(partial)) {
        cs := cs + [Candidate(names[j], -|partial|)];
      }
    }
    assert names[..|names|] == names;
  }

  /** The command branch's loop: every command the typed text starts */
  method MatchCommands(commands: seq<string>, text: string) returns (cs: seq<Candidate>)
    ensures cs == CommandMatches(commands, text)
  {
    cs := [];
    for j := 0 to |commands|
      invariant cs == CommandMatches(commands[..j], text)
    {
      assert commands[..j + 1][..j] == commands[..j];
      if text <= commands[j] {
        cs := cs + [Candidate(commands[j], -|text|)];
      }
    }
    assert commands[..|commands|] == commands;
  }
}
