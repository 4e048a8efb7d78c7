/**
 * The repository handle: where the worktrees live (`<root>/.rsworktree`)
 * and the `.gitignore` entry that keeps them out of the repository's own
 * status.  The `.gitignore` file is a field holding its text, `None` while
 * the file does not exist.
 */
module Repository {
  import opened Wrappers
  import opened Text
  import opened Paths

  const WORKTREE_IGNORE_ENTRY := ".rsworktree/"
  const WORKTREE_IGNORE_ALT_ENTRY := ".rsworktree"
  const WORKTREES_DIR_NAME := ".rsworktree"
  const GITIGNORE_NAME := ".gitignore"

  /** `worktrees_dir`: the `.rsworktree` directory directly inside the root. */
  function WorktreesDir(root: Path): (r: Path)
    ensures Parent(r) == Some(root) && FileName(r) == Some(WORKTREES_DIR_NAME)
    ensures r.absolute == root.absolute
  {
    JoinComponent(root, WORKTREES_DIR_NAME);
    JoinPath(root, Path(false, [WORKTREES_DIR_NAME]))
  }

  function GitignorePath(root: Path): Path
  {
    JoinPath(root, Path(false, [GITIGNORE_NAME]))
  }

  // ----- gitignore_has_entry -----

  /** A line that, trimmed, ignores the worktrees directory. */
  predicate IsIgnoreLine(line: string)
  {
    Trim(line) == WORKTREE_IGNORE_ENTRY || Trim(line) == WORKTREE_IGNORE_ALT_ENTRY
  }

  /** `gitignore_has_entry`: some line of the file is an ignore line. */
  predicate GitignoreHasEntry(contents: string)
  {
    exists i :: 0 <= i < |Lines(contents)| && IsIgnoreLine(Lines(contents)[i])
  }

  /** The number of ignore lines among `lines`. */
  function CountIgnoreLines(lines: seq<string>): nat
  {
    if lines == [] then 0
    else CountIgnoreLines(lines[..|lines| - 1]) + (if IsIgnoreLine(lines[|lines| - 1]) then 1 else 0)
  }

  /** The count is zero exactly when no line is an ignore line. */
  lemma {:induction false} CountIgnoreLinesZero(lines: seq<string>)
    ensures CountIgnoreLines(lines) == 0 <==> forall i :: 0 <= i < |lines| ==> !IsIgnoreLine(lines[i])
  {
    if lines != [] {
      var init := lines[..|lines| - 1];
      CountIgnoreLinesZero(init);
      assert forall i :: 0 <= i < |init| ==> init[i] == lines[i];
    }
  }

  // ----- ensure_gitignore_entry -----

  /** The newline written first when the old text does not end a line. */
  function Separator(contents: string): string
  {
    if contents != [] && contents[|contents| - 1] != '\n' then "\n" else ""
  }

  /** What can go wrong with the file: reading, opening for append, or the `n`-th write (counting from 0). */
  datatype GitignoreFault = NoFault | ReadFails | OpenFails | WriteFails(n: nat)

  function Failure(context: string, path: Path): Outcome
  {
    Fail(context + " `" + Display(path) + "`")
  }

  /**
   * Appending to an existing file without the entry: the separator (when
   * needed), the entry, then a newline, each a separate write; a failed
   * write leaves what the earlier writes appended.
   */
  function AppendEntry(contents: string, fault: GitignoreFault, path: Path): (Outcome, string)
  {
    var sep := Separator(contents);
    var before := |sep|;
    if sep != [] && fault == WriteFails(0) then (Failure("failed to update", path), contents)
    else if fault == WriteFails(before) then (Failure("failed to append to", path), contents + sep)
    else if fault == WriteFails(before + 1) then (Failure("failed to append newline to", path), contents + sep + WORKTREE_IGNORE_ENTRY)
    else (Pass, contents + sep + WORKTREE_IGNORE_ENTRY + "\n")
  }

  /** `ensure_gitignore_entry`: its result and the file afterwards. */
  function EnsureGitignore(file: Option<string>, fault: GitignoreFault, path: Path): (Outcome, Option<string>)
  {
    match file
    case None =>
      if fault.WriteFails? then (Failure("failed to write", path), None)
      else (Pass, Some(WORKTREE_IGNORE_ENTRY + "\n"))
    case Some(contents) =>
      if fault == ReadFails then (Failure("failed to read", path), file)
      else if GitignoreHasEntry(contents) then (Pass, file)
      else if fault == OpenFails then (Failure("failed to open", path), file)
      else
        var (o, after) := AppendEntry(contents, fault, path);
        (o, Some(after))
  }

  /** The entry itself, trimmed, is the entry. */
  lemma EntryIsIgnoreLine()
    ensures IsIgnoreLine(WORKTREE_IGNORE_ENTRY)
    ensures NoNewline(WORKTREE_IGNORE_ENTRY)
  {
    TrimOfTrimmed(WORKTREE_IGNORE_ENTRY);
  }

  /** A text that does not end a line has the same lines once a newline is added. */
  lemma {:induction false} LinesOfTerminated(s: string)
    requires s != [] && s[|s| - 1] != '\n'
    ensures Lines(s + "\n") == Lines(s)
    decreases |s|
  {
    var i := NewlineIndex(s, 0);
    if i == |s| {
      SingleLine(s);
    } else {
      LinesStep(s, "\n");
      LinesStep(s, []);
      assert s + [] == s;
      var rest := s[i + 1..];
      assert rest + [] == rest;
      assert rest[|rest| - 1] == s[|s| - 1];
      LinesOfTerminated(rest);
    }
  }

  /** The lines after a successful append: the old ones, then the entry. */
  lemma AppendedLines(contents: string)
    ensures Lines(contents + Separator(contents) + WORKTREE_IGNORE_ENTRY + "\n") == Lines(contents) + [WORKTREE_IGNORE_ENTRY]
  {
    EntryIsIgnoreLine();
    var p := contents + Separator(contents);
    LinesAppendLine(p, WORKTREE_IGNORE_ENTRY);
    if Separator(contents) != [] {
      LinesOfTerminated(contents);
    } else {
      assert p == contents;
    }
  }

  /** A missing file is created holding exactly the entry line. */
  lemma CreatedHasEntry()
    ensures GitignoreHasEntry(WORKTREE_IGNORE_ENTRY + "\n")
    ensures CountIgnoreLines(Lines(WORKTREE_IGNORE_ENTRY + "\n")) == 1
  {
    EntryIsIgnoreLine();
    SingleLine(WORKTREE_IGNORE_ENTRY);
    var lines := Lines(WORKTREE_IGNORE_ENTRY + "\n");
    assert lines[0] == WORKTREE_IGNORE_ENTRY;
    assert lines[..0] == [];
  }

  /** Appending to a file without the entry leaves exactly one ignore line. */
  lemma AppendedHasEntryOnce(contents: string)
    requires !GitignoreHasEntry(contents)
    ensures var after := contents + Separator(contents) + WORKTREE_IGNORE_ENTRY + "\n";
      GitignoreHasEntry(after) && CountIgnoreLines(Lines(after)) == 1
  {
    EntryIsIgnoreLine();
    AppendedLines(contents);
    var lines := Lines(contents + Separator(contents) + WORKTREE_IGNORE_ENTRY + "\n");
    assert lines[|lines| - 1] == WORKTREE_IGNORE_ENTRY;
    assert lines[..|lines| - 1] == Lines(contents);
    CountIgnoreLinesZero(Lines(contents));
  }

  /** The outcome and file when ensuring the entry cannot fail. */
  predicate AddsEntry(file: Option<string>, o: Outcome, after: Option<string>)
  {
    && o.Pass? && after.Some? && GitignoreHasEntry(after.value)
    && (file.None? ==> after.value == WORKTREE_IGNORE_ENTRY + "\n")
    && (file.Some? ==> Text.StartsWith(after.value, file.value))
    && (file.Some? && !GitignoreHasEntry(file.value) ==> CountIgnoreLines(Lines(after.value)) == 1)
  }

  lemma EnsureCreates(path: Path)
    ensures var (o, after) := EnsureGitignore(None, NoFault, path);
      AddsEntry(None, o, after)
  {
    CreatedHasEntry();
  }

  lemma EnsureAppends(contents: string, path: Path)
    requires !GitignoreHasEntry(contents)
    ensures var (o, after) := EnsureGitignore(Some(contents), NoFault, path);
      AddsEntry(Some(contents), o, after)
  {
    var after := contents + Separator(contents) + WORKTREE_IGNORE_ENTRY + "\n";
    assert AppendEntry(contents, NoFault, path) == (Pass, after);
    AppendedHasEntryOnce(contents);
    assert after[..|contents|] == contents;
  }

  lemma EnsureKeeps(contents: string, path: Path)
    requires GitignoreHasEntry(contents)
    ensures var (o, after) := EnsureGitignore(Some(contents), NoFault, path);
      AddsEntry(Some(contents), o, after)
  {
    assert contents[..|contents|] == contents;
  }

  /**
   * Without a fault the file ends up holding the entry, and only once when
   * it had none: a missing file is created as exactly the entry and a
   * newline, and an existing file keeps its old text as a prefix.
   */
  lemma EnsureAddsEntry(file: Option<string>, path: Path)
    ensures var (o, after) := EnsureGitignore(file, NoFault, path);
      AddsEntry(file, o, after)
  {
    match file
    case None => EnsureCreates(path);
    case Some(contents) =>
      if GitignoreHasEntry(contents) {
        EnsureKeeps(contents, path);
      } else {
        EnsureAppends(contents, path);
      }
  }

  /** Once the entry is there, ensuring it again passes and leaves the file as it is. */
  lemma EnsureIdempotent(file: Option<string>, fault: GitignoreFault, path: Path)
    requires fault != ReadFails
    ensures var (_, once) := EnsureGitignore(file, NoFault, path);
      EnsureGitignore(once, fault, path) == (Pass, once)
  {
    EnsureAddsEntry(file, path);
  }

  /** Whatever fails, the old text is kept as a prefix and what was added is a prefix of the full entry line. */
  lemma AppendOnlyGrows(contents: string, fault: GitignoreFault, path: Path)
    ensures var (o, after) := AppendEntry(contents, fault, path);
      && Text.StartsWith(after, contents)
      && Text.StartsWith(contents + Separator(contents) + WORKTREE_IGNORE_ENTRY + "\n", after)
      && (o.Pass? <==> !fault.WriteFails? || fault.n > |Separator(contents)| + 1)
  {
    var sep := Separator(contents);
    var full := contents + sep + WORKTREE_IGNORE_ENTRY + "\n";
    assert full[..|contents|] == contents;
    assert full[..|contents + sep|] == contents + sep;
    assert full[..|contents + sep + WORKTREE_IGNORE_ENTRY|] == contents + sep + WORKTREE_IGNORE_ENTRY;
    assert (contents + sep)[..|contents|] == contents;
    assert (contents + sep + WORKTREE_IGNORE_ENTRY)[..|contents|] == contents;
    assert full[..|full|] == full;
  }

  /** The repository: its root and the text of its `.gitignore`. */
  class Repo {
    const root: Path
    var gitignore: Option<string>

    constructor (root: Path, gitignore: Option<string>)
      ensures this.root == root && this.gitignore == gitignore
    {
      this.root := root;
      this.gitignore := gitignore;
    }

    /** One `write_all` on the open file: appends `chunk` unless it is the write that fails. */
    method WriteAll(chunk: string, context: string, fault: GitignoreFault, n: nat) returns (o: Outcome)
      requires gitignore.Some?
      modifies this
      ensures o == (if fault == WriteFails(n) then Failure(context, GitignorePath(root)) else Pass)
      ensures gitignore == (if o.Pass? then Some(old(gitignore).value + chunk) else old(gitignore))
    {
      if fault == WriteFails(n) {
        return Failure(context, GitignorePath(root));
      }
      gitignore := Some(gitignore.value + chunk);
      o := Pass;
    }

    /** `ensure_gitignore_entry`. */
    method EnsureGitignoreEntry(fault: GitignoreFault) returns (o: Outcome)
      modifies this
      ensures var (p, file) := EnsureGitignore(old(gitignore), fault, GitignorePath(root));
        o == p && gitignore == file
    {
      var path := GitignorePath(root);
      if gitignore.None? {
        if fault.WriteFails? {
          return Failure("failed to write", path);
        }
        gitignore := Some(WORKTREE_IGNORE_ENTRY + "\n");
        return Pass;
      }
      if fault == ReadFails {
        return Failure("failed to read", path);
      }
      var contents := gitignore.value;
      if GitignoreHasEntry(contents) {
        return Pass;
      }
      if fault == OpenFails {
        return Failure("failed to open", path);
      }
      var n := 0;
      if contents != [] && contents[|contents| - 1] != '\n' {
        o := WriteAll("\n", "failed to update", fault, 0);
        if o.Fail? {
          return;
        }
        n := 1;
      }
      assert gitignore.value == contents + Separator(contents);
      o := WriteAll(WORKTREE_IGNORE_ENTRY, "failed to append to", fault, n);
      if o.Fail? {
        return;
      }
      o := WriteAll("\n", "failed to append newline to", fault, n + 1);
    }

    /** `ensure_worktrees_dir`: the entry, then the directory; `createFails` says whether creating it fails. */
    method EnsureWorktreesDir(fault: GitignoreFault, createFails: bool) returns (r: Result<Path>)
      modifies this
      ensures var (o, file) := EnsureGitignore(old(gitignore), fault, GitignorePath(root));
        && gitignore == file
        && r == (if o.Fail? then Err(o.error)
                 else if createFails then Err("failed to create `" + Display(WorktreesDir(root)) + "`")
                 else Ok(WorktreesDir(root)))
    {
      var o := EnsureGitignoreEntry(fault);
      if o.Fail? {
        return Err(o.error);
      }
      var dir := WorktreesDir(root);
      if createFails {
        return Err("failed to create `" + Display(dir) + "`");
      }
      r := Ok(dir);
    }
  }
}
