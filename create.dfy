/**
 * `rsworktree create <name> [--base <ref>]`: adds a worktree under the
 * worktrees directory on the branch `<name>`, creating that branch from the
 * base (HEAD by default) when it does not exist yet, and names git's
 * metadata for it after a sanitised form of the name and its hash.
 */
module Create {
  import opened Wrappers
  import opened Text
  import opened Numbers
  import opened Paths
  import Cd

  // ----- worktree_metadata_name -----

  /** The characters kept as they are: ASCII letters and digits, '-', '_' and '.'. */
  predicate IsMetadataChar(c: char)
  {
    ('a' <= c <= 'z') || ('A' <= c <= 'Z') || ('0' <= c <= '9') || c == '-' || c == '_' || c == '.'
  }

  /** One character of the sanitised name: separators and every other character become '-'. */
  function SanitizeChar(c: char): (r: char)
    ensures IsMetadataChar(r)
    ensures IsMetadataChar(c) <==> r == c
  {
    if c == '/' || c == '\\' then '-'
    else if IsMetadataChar(c) then c
    else '-'
  }

  /** The name with every character sanitised. */
  function Sanitize(s: string): (r: string)
    ensures |r| == |s|
  {
    if s == [] then [] else [SanitizeChar(s[0])] + Sanitize(s[1..])
  }

  /** Each character of the sanitised name is the sanitised character at the same place. */
  lemma {:induction false} SanitizePointwise(s: string)
    ensures forall i :: 0 <= i < |s| ==> Sanitize(s)[i] == SanitizeChar(s[i])
  {
    if s != [] {
      SanitizePointwise(s[1..]);
    }
  }

  /** Sanitising keeps names made of allowed characters as they are, so it is idempotent. */
  lemma SanitizeKeepsAllowed(s: string)
    ensures (forall i :: 0 <= i < |s| ==> IsMetadataChar(s[i])) <==> Sanitize(s) == s
    ensures Sanitize(Sanitize(s)) == Sanitize(s)
  {
    SanitizePointwise(s);
    SanitizePointwise(Sanitize(s));
    if Sanitize(s) == s {
      assert forall i :: 0 <= i < |s| ==> IsMetadataChar(Sanitize(s)[i]);
    }
  }

  /** `str::trim_matches(ch)`: `s` without the copies of `ch` at either end. */
  function TrimMatches(s: string, ch: char): (r: string)
    ensures |r| <= |s|
    decreases |s|
  {
    if s != [] && s[0] == ch then TrimMatches(s[1..], ch)
    else if s != [] && s[|s| - 1] == ch then TrimMatches(s[..|s| - 1], ch)
    else s
  }

  /** Every character of `s` is `ch`. */
  predicate Only(s: string, ch: char)
  {
    forall i :: 0 <= i < |s| ==> s[i] == ch
  }

  /** Trimming `ch` leaves nothing exactly when every character is `ch`. */
  lemma {:induction false} TrimMatchesEmptyIff(s: string, ch: char)
    ensures TrimMatches(s, ch) == [] <==> Only(s, ch)
    decreases |s|
  {
    if s != [] && s[0] == ch {
      TrimMatchesEmptyIff(s[1..], ch);
      assert forall i :: 1 <= i < |s| ==> s[i] == s[1..][i - 1];
    } else if s != [] && s[|s| - 1] == ch {
      TrimMatchesEmptyIff(s[..|s| - 1], ch);
      assert forall i :: 0 <= i < |s| - 1 ==> s[i] == s[..|s| - 1][i];
    }
  }

  const METADATA_PREFIX := "rsworktree-"
  const DEFAULT_MIDDLE := "worktree"
  /** How many characters of the sanitised name are kept. */
  const MIDDLE_LIMIT := 48
  /** 16^16 = 2^64: `DefaultHasher::finish` returns a `u64`. */
  const HASH_BOUND: nat := Pow16(16)

  /** The middle of the metadata name: "worktree" when nothing but dashes is left, else at most 48 sanitised characters. */
  function MetadataMiddle(name: string): string
  {
    var sanitized := Sanitize(name);
    if TrimMatches(sanitized, '-') == [] then DEFAULT_MIDDLE
    else sanitized[..if |sanitized| < MIDDLE_LIMIT then |sanitized| else MIDDLE_LIMIT]
  }

  /**
   * `worktree_metadata_name`: "rsworktree-<middle>-<hash>", the hash of the
   * name (computed by the standard library's hasher, a parameter here)
   * written as 16 lower-case hexadecimal digits.
   */
  function MetadataName(name: string, hash: nat): string
    requires hash < HASH_BOUND
  {
    METADATA_PREFIX + MetadataMiddle(name) + "-" + HexPadded(hash, 16)
  }

  /**
   * The middle is "worktree" when the sanitised name holds only dashes, and
   * otherwise the first (at most 48) characters of the sanitised name; it
   * is never empty and every character of it is allowed.
   */
  lemma MiddleShape(name: string)
    ensures var m := MetadataMiddle(name);
      var sanitized := Sanitize(name);
      && 1 <= |m| <= MIDDLE_LIMIT
      && (forall i :: 0 <= i < |m| ==> IsMetadataChar(m[i]))
      && (Only(sanitized, '-') ==> m == DEFAULT_MIDDLE)
      && (!Only(sanitized, '-') ==>
            |m| == (if |name| < MIDDLE_LIMIT then |name| else MIDDLE_LIMIT) && m == sanitized[..|m|])
  {
    TrimMatchesEmptyIff(Sanitize(name), '-');
    SanitizePointwise(name);
    var m := MetadataMiddle(name);
    if m == DEFAULT_MIDDLE {
      assert forall i :: 0 <= i < |m| ==> 'a' <= m[i] <= 'z';
    }
  }

  /** Every character of `s` is allowed in a metadata name. */
  predicate Allowed(s: string)
  {
    forall i :: 0 <= i < |s| ==> IsMetadataChar(s[i])
  }

  lemma AllowedAppend(a: string, b: string)
    requires Allowed(a) && Allowed(b)
    ensures Allowed(a + b)
  {
    assert forall i :: |a| <= i < |a + b| ==> (a + b)[i] == b[i - |a|];
  }

  /**
   * The metadata name starts with "rsworktree-", ends with '-' and the 16
   * hexadecimal digits that read back as the hash, has the middle in
   * between, and holds no character outside the allowed set (in particular
   * no path separator).
   */
  lemma MetadataNameShape(name: string, hash: nat)
    requires hash < HASH_BOUND
    ensures var r := MetadataName(name, hash);
      var m := MetadataMiddle(name);
      && |r| == |METADATA_PREFIX| + |m| + 17
      && r[..|METADATA_PREFIX|] == METADATA_PREFIX
      && r[|METADATA_PREFIX|..|METADATA_PREFIX| + |m|] == m
      && r[|r| - 17] == '-'
      && (forall i :: |r| - 16 <= i < |r| ==> IsHexDigit(r[i]) && r[i] != '-')
      && DigitsValue(r[|r| - 16..], 16) == hash
      && Allowed(r)
  {
    var m := MetadataMiddle(name);
    var h := HexPadded(hash, 16);
    NameLayout(METADATA_PREFIX, m, h);
    HexRoundTrip(hash, 16);
    MetadataNameAllowed(name, hash);
  }

  /** Where the prefix, the middle, the dash and the 16 digits sit in a metadata name. */
  lemma NameLayout(pre: string, m: string, h: string)
    requires |h| == 16
    ensures var r := pre + m + "-" + h;
      && |r| == |pre| + |m| + 17
      && r[..|pre|] == pre
      && r[|pre|..|pre| + |m|] == m
      && r[|r| - 17] == '-'
      && r[|r| - 16..] == h
      && (forall i :: |r| - 16 <= i < |r| ==> r[i] == h[i - (|r| - 16)])
  {
    var r := pre + m + "-" + h;
    assert r == (pre + m) + ("-" + h);
    assert r[..|pre|] == pre;
    assert r[|pre|..|pre| + |m|] == m;
  }

  /** No character of a metadata name falls outside the allowed set. */
  lemma MetadataNameAllowed(name: string, hash: nat)
    requires hash < HASH_BOUND
    ensures Allowed(MetadataName(name, hash))
  {
    var m := MetadataMiddle(name);
    var h := HexPadded(hash, 16);
    MiddleShape(name);
    PrefixAllowed();
    DashDigitsAllowed(h);
    AllowedAppend(METADATA_PREFIX, m);
    AllowedAppend(METADATA_PREFIX + m, "-" + h);
    assert MetadataName(name, hash) == (METADATA_PREFIX + m) + ("-" + h);
  }

  lemma PrefixAllowed()
    ensures Allowed(METADATA_PREFIX)
  {
  }

  lemma DashDigitsAllowed(h: string)
    requires forall i :: 0 <= i < |h| ==> IsHexDigit(h[i])
    ensures Allowed("-" + h)
  {
    assert forall i :: 1 <= i < |"-" + h| ==> ("-" + h)[i] == h[i - 1];
  }

  /** Names made only of allowed characters keep their first 48 characters unchanged (unless they are all dashes). */
  lemma AllowedNameKept(name: string)
    requires forall i :: 0 <= i < |name| ==> IsMetadataChar(name[i])
    requires !Only(name, '-')
    ensures MetadataMiddle(name) == name[..if |name| < MIDDLE_LIMIT then |name| else MIDDLE_LIMIT]
  {
    SanitizeKeepsAllowed(name);
    TrimMatchesEmptyIff(Sanitize(name), '-');
  }

  /** Sanitising works character by character, so it distributes over concatenation. */
  lemma {:induction false} SanitizeAppend(a: string, b: string)
    ensures Sanitize(a + b) == Sanitize(a) + Sanitize(b)
  {
    if a == [] {
      assert a + b == b;
    } else {
      assert (a + b)[1..] == a[1..] + b;
      SanitizeAppend(a[1..], b);
    }
  }

  /** Words of allowed characters keep their characters; the '/' and the spaces between them become dashes. */
  lemma SanitizeWords(a: string, b: string, c: string, d: string)
    requires Allowed(a) && Allowed(b) && Allowed(c) && Allowed(d)
    ensures Sanitize(a + "/" + b + " " + c + " " + d) == a + "-" + b + "-" + c + "-" + d
  {
    assert Sanitize("/") == "-" && Sanitize(" ") == "-";
    SanitizeKeepsAllowed(a);
    SanitizeKeepsAllowed(b);
    SanitizeKeepsAllowed(c);
    SanitizeKeepsAllowed(d);
    var x1 := a + "/";
    SanitizeAppend(a, "/");
    assert Sanitize(x1) == a + "-";
    var x2 := x1 + b;
    SanitizeAppend(x1, b);
    assert Sanitize(x2) == a + "-" + b;
    var x3 := x2 + " ";
    SanitizeAppend(x2, " ");
    assert Sanitize(x3) == a + "-" + b + "-";
    var x4 := x3 + c;
    SanitizeAppend(x3, c);
    assert Sanitize(x4) == a + "-" + b + "-" + c;
    var x5 := x4 + " ";
    SanitizeAppend(x4, " ");
    assert Sanitize(x5) == a + "-" + b + "-" + c + "-";
    SanitizeAppend(x5, d);
  }

  /** For a short name of such words, the middle is the whole sanitised name. */
  lemma MiddleOfWords(a: string, b: string, c: string, d: string)
    requires Allowed(a) && Allowed(b) && Allowed(c) && Allowed(d)
    requires a != [] && a[0] != '-'
    requires |a| + |b| + |c| + |d| + 3 <= MIDDLE_LIMIT
    ensures MetadataMiddle(a + "/" + b + " " + c + " " + d) == a + "-" + b + "-" + c + "-" + d
  {
    var name := a + "/" + b + " " + c + " " + d;
    var t := a + "-" + b + "-" + c + "-" + d;
    SanitizeWords(a, b, c, d);
    assert t[0] == a[0];
    TrimMatchesEmptyIff(t, '-');
    assert t[..|t|] == t;
  }

  /** The words of the example below. */
  lemma ExampleWords()
    ensures "feat/branch with spaces" == "feat" + "/" + "branch" + " " + "with" + " " + "spaces"
    ensures "feat-branch-with-spaces" == "feat" + "-" + "branch" + "-" + "with" + "-" + "spaces"
    ensures Allowed("feat") && Allowed("branch") && Allowed("with") && Allowed("spaces")
  {
  }

  /** Separators and spaces become dashes: "feat/branch with spaces" gives "feat-branch-with-spaces". */
  lemma SanitizeExample(name: string)
    requires name == "feat/branch with spaces"
    ensures MetadataMiddle(name) == "feat-branch-with-spaces"
  {
    ExampleWords();
    MiddleOfWords("feat", "branch", "with", "spaces");
  }

  /** A name with nothing but separators gives the middle "worktree". */
  lemma SeparatorsOnlyExample()
    ensures MetadataMiddle("///") == DEFAULT_MIDDLE
  {
    assert Sanitize("///") == "---";
    TrimMatchesEmptyIff("---", '-');
  }

  // ----- create_internal and prepare_branch -----

  datatype CreateCommand = CreateCommand(name: string, base: Option<string>)

  datatype CreateOutcome = AlreadyExists | Created

  /** What git answers when asked for `refs/heads/<name>`. */
  datatype BranchRef = Existing | Absent | LookupError(reason: string)

  /** The answers of git and the file system to the questions `create_internal` asks. */
  datatype CreateEnv = CreateEnv(
    worktreesDir: Result<Path>,   // `Repo::ensure_worktrees_dir`
    present: bool,                // whether the worktree's path exists
    prepareParent: Outcome,       // `create_dir_all` of its parent
    branchRef: BranchRef,
    resolveBase: Outcome,         // `revparse_single(base)`
    peel: Outcome,                // `peel_to_commit`
    createBranch: Outcome,        // `Repository::branch`
    hash: nat,                    // the hash of the name
    addWorktree: Outcome)         // `Repository::worktree`

  /** A change the command attempts, in order. */
  datatype CreateEffect =
    | MakeDirs(dir: Path)
    | CreateBranch(branch: string, base: string)
    | AddWorktree(metadataName: string, path: Path, branch: string)

  const DEFAULT_BASE := "HEAD"

  /** `prepare_branch`: reuse an existing branch, or create it from the base (HEAD when none is given). */
  function PrepareBranch(branch: string, base: Option<string>, env: CreateEnv): (Outcome, seq<CreateEffect>)
  {
    match env.branchRef
    case Existing => (Pass, [])
    case LookupError(e) => (Fail("failed to look up branch `" + branch + "`: " + e), [])
    case Absent =>
      var baseName := if base.Some? then base.value else DEFAULT_BASE;
      if env.resolveBase.Fail? then (Fail("failed to resolve base reference `" + baseName + "`"), [])
      else if env.peel.Fail? then (Fail("base reference `" + baseName + "` does not point to a commit"), [])
      else if env.createBranch.Fail? then
        (Fail("failed to create branch `" + branch + "` from `" + baseName + "`"), [CreateBranch(branch, baseName)])
      else (Pass, [CreateBranch(branch, baseName)])
  }

  /** An existing branch is reused as it is; a new one is created from the given base, or from HEAD. */
  lemma PrepareBranchRule(branch: string, base: Option<string>, env: CreateEnv)
    ensures var (o, effects) := PrepareBranch(branch, base, env);
      && (env.branchRef.Existing? ==> o.Pass? && effects == [])
      && (env.branchRef.LookupError? ==> o.Fail? && effects == [])
      && (effects != [] ==> env.branchRef.Absent? && effects == [CreateBranch(branch, if base.Some? then base.value else DEFAULT_BASE)])
      && (env.branchRef.Absent? ==> (o.Pass? <==> env.resolveBase.Pass? && env.peel.Pass? && env.createBranch.Pass?))
  {
  }

  /** `create_internal` once the worktree's path is known and free. */
  function CreateAt(c: CreateCommand, env: CreateEnv, path: Path): (Result<CreateOutcome>, seq<CreateEffect>)
    requires env.hash < HASH_BOUND
  {
    var (prepared, dirs) :=
      match Parent(path)
      case None => (Pass, [])
      case Some(parent) =>
        (if env.prepareParent.Pass? then Pass else Fail("failed to prepare directory `" + Display(parent) + "`"), [MakeDirs(parent)]);
    if prepared.Fail? then (Err(prepared.error), dirs)
    else
      var (branch, branchEffects) := PrepareBranch(c.name, c.base, env);
      if branch.Fail? then (Err(branch.error), dirs + branchEffects)
      else
        var effects := dirs + branchEffects + [AddWorktree(MetadataName(c.name, env.hash), path, c.name)];
        if env.addWorktree.Fail? then (Err("failed to add worktree `" + c.name + "` at `" + Display(path) + "`"), effects)
        else (Ok(Created), effects)
  }

  /** `create_internal`: the outcome and the changes made, in order. */
  function CreateInternal(c: CreateCommand, env: CreateEnv): (Result<CreateOutcome>, seq<CreateEffect>)
    requires env.hash < HASH_BOUND
  {
    match env.worktreesDir
    case Err(e) => (Err(e), [])
    case Ok(dir) =>
      var path := JoinStr(dir, c.name);
      if env.present then (Ok(AlreadyExists), []) else CreateAt(c, env, path)
  }

  /** An existing worktree path is reported as such, and no branch or worktree is created. */
  lemma ExistingPathUntouched(c: CreateCommand, env: CreateEnv)
    requires env.hash < HASH_BOUND && env.worktreesDir.Ok? && env.present
    ensures CreateInternal(c, env) == (Ok(AlreadyExists), [])
  {
  }

  /** Some change in `effects` creates a branch. */
  predicate CreatesBranch(effects: seq<CreateEffect>)
  {
    exists i :: 0 <= i < |effects| && effects[i].CreateBranch?
  }

  /** The part of `CreatedWorktree` about a free path. */
  lemma CreatedAt(c: CreateCommand, env: CreateEnv, path: Path)
    requires env.hash < HASH_BOUND
    ensures var (r, effects) := CreateAt(c, env, path);
      r == Ok(Created) ==>
        && effects != []
        && effects[|effects| - 1] == AddWorktree(MetadataName(c.name, env.hash), path, c.name)
        && (env.branchRef.Absent? <==> CreatesBranch(effects))
  {
    var (r, effects) := CreateAt(c, env, path);
    if r == Ok(Created) {
      var dirs := if Parent(path).Some? then [MakeDirs(Parent(path).value)] else [];
      var branchEffects := PrepareBranch(c.name, c.base, env).1;
      var add := AddWorktree(MetadataName(c.name, env.hash), path, c.name);
      assert effects == dirs + branchEffects + [add];
      EffectsLayout(dirs, branchEffects, add);
      assert CreatesBranch(branchEffects) <==> env.branchRef.Absent? by {
        if env.branchRef.Absent? {
          assert branchEffects[0].CreateBranch?;
        }
      }
    }
  }

  /** The directories made, then the branch work, then the worktree added: only the branch work can create a branch. */
  lemma EffectsLayout(dirs: seq<CreateEffect>, branchEffects: seq<CreateEffect>, add: CreateEffect)
    requires forall i :: 0 <= i < |dirs| ==> !dirs[i].CreateBranch?
    requires !add.CreateBranch?
    ensures var effects := dirs + branchEffects + [add];
      && effects != [] && effects[|effects| - 1] == add
      && (CreatesBranch(effects) <==> CreatesBranch(branchEffects))
  {
    var effects := dirs + branchEffects + [add];
    if CreatesBranch(effects) {
      var i :| 0 <= i < |effects| && effects[i].CreateBranch?;
      assert |dirs| <= i < |dirs| + |branchEffects|;
      assert branchEffects[i - |dirs|].CreateBranch?;
    }
    if CreatesBranch(branchEffects) {
      var j :| 0 <= j < |branchEffects| && branchEffects[j].CreateBranch?;
      assert effects[|dirs| + j] == branchEffects[j];
    }
  }

  /**
   * A created worktree is added last, under its metadata name, at
   * `<worktrees dir>/<name>` on the branch `<name>`; the branch was created
   * first exactly when it did not exist.
   */
  lemma CreatedWorktree(c: CreateCommand, env: CreateEnv)
    requires env.hash < HASH_BOUND
    ensures var (r, effects) := CreateInternal(c, env);
      r == Ok(Created) ==>
        && env.worktreesDir.Ok? && !env.present
        && effects != []
        && effects[|effects| - 1] == AddWorktree(MetadataName(c.name, env.hash), JoinStr(env.worktreesDir.value, c.name), c.name)
        && (env.branchRef.Absent? <==> CreatesBranch(effects))
  {
    if env.worktreesDir.Ok? && !env.present {
      CreatedAt(c, env, JoinStr(env.worktreesDir.value, c.name));
    }
  }

  /** `CreateCommand::execute`: create (or find) the worktree, then enter it as `cd` does. */
  function CreateExecute(c: CreateCommand, env: CreateEnv, cd: Cd.CdEnv): (Outcome, seq<CreateEffect>, Cd.CdEffect)
    requires env.hash < HASH_BOUND
  {
    var (r, effects) := CreateInternal(c, env);
    if r.Err? then (Fail(r.error), effects, Cd.NoEffect)
    else
      var (o, entered) := Cd.CdRun(Cd.CdCommand(c.name, false), cd);
      (o, effects, entered)
  }

  /** Whether the worktree was created or already there, `execute` goes on to open a shell in it. */
  lemma ExecuteEntersEitherWay(c: CreateCommand, env: CreateEnv, cd: Cd.CdEnv)
    requires env.hash < HASH_BOUND
    ensures var (o, _, entered) := CreateExecute(c, env, cd);
      CreateInternal(c, env).0.Ok? ==> (o, entered) == Cd.CdRun(Cd.CdCommand(c.name, false), cd)
  {
  }
}
