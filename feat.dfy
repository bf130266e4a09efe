/** `zamm feat start`: a branch name asked of the language model is
    sanitised, a git worktree for it is made beside the repository (asking
    for another name when git reports a clash, at most three tries), and a
    spec file describing the feature is written into the new worktree. */
module Feat {
  import opened Wrappers
  import opened Strings
  import opened Paths
  import opened FileSystem
  import opened Types
  import opened Envelope
  import opened FileUtils
  import opened Normalize
  import opened Templates

  /** The answers of the language model: a branch name for a description, a
      different one for a description and the name that clashed, and a
      title for the spec. */
  datatype Llm = Llm(
    suggestBranchName: string -> string,
    suggestAlternativeBranchName: (string, string) -> string,
    suggestSpecTitle: string -> string)

  /** `git worktree add "<path>" -b "<branch>"` run in the repository at the
      first path: the tree afterwards, or what git wrote to its error output
      when it failed. */
  type WorktreeAdd = (Tree, Path, Path, string) -> Result<Tree>

  const BranchPrefix := "zamm/"
  const MaxRetries := 3

  /** The class `[a-z0-9\-/]` a branch name is reduced to. */
  predicate BranchChar(x: char) {
    ('a' <= x <= 'z') || ('0' <= x <= '9') || x == '-' || x == '/'
  }

  /** A branch, the name of its worktree's directory and that directory. */
  datatype Names = Names(branch: string, dirName: string, path: Path)

  /** Lower case, runs of white space to `-`, anything outside the class
      dropped. */
  function Sanitize(raw: string): (r: string)
    ensures forall i :: 0 <= i < |r| ==> BranchChar(r[i])
  {
    Filter(Collapse(ToLower(raw), Space(), '-'), x => BranchChar(x))
  }

  /** `replace(/\//g, '-')`. */
  function SlashesToHyphens(s: string): (r: string)
    ensures |r| == |s| && NoSlash(r)
    ensures forall i :: 0 <= i < |s| ==> r[i] == (if s[i] == '/' then '-' else s[i])
  {
    seq(|s|, i requires 0 <= i < |s| => if s[i] == '/' then '-' else s[i])
  }

  /** `processBranchName`: the sanitised name with `zamm/` put in front
      unless it is already there; the directory name is the branch without
      that prefix and with every `/` turned into `-`, and the directory sits
      beside the repository. */
  function ProcessBranchName(raw: string, gitRoot: Path): (n: Names)
    ensures StartsWith(n.branch, BranchPrefix)
    ensures forall i :: 0 <= i < |n.branch| ==> BranchChar(n.branch[i])
    ensures n.dirName == SlashesToHyphens(n.branch[|BranchPrefix|..])
    ensures StartsWith(Sanitize(raw), BranchPrefix) ==> n.branch == Sanitize(raw)
    ensures !StartsWith(Sanitize(raw), BranchPrefix) ==> n.branch == BranchPrefix + Sanitize(raw)
  {
    var s := Sanitize(raw);
    var branch := if StartsWith(s, BranchPrefix) then s else BranchPrefix + s;
    var unprefixed := if StartsWith(branch, BranchPrefix) then branch[|BranchPrefix|..] else branch;
    var dirName := SlashesToHyphens(unprefixed);
    Names(branch, dirName, JoinPath(Dirname(gitRoot), dirName))
  }

  /** The directory name is made of `[a-z0-9-]` only, and the worktree is
      that name inside the repository's parent; an empty name (a branch of
      just `zamm/`) joins to the parent itself. */
  lemma {:induction false} SiblingPlace(raw: string, gitRoot: Path)
    ensures var n := ProcessBranchName(raw, gitRoot);
      && (forall i :: 0 <= i < |n.dirName| ==> BranchChar(n.dirName[i]) && n.dirName[i] != '/')
      && (n.dirName != "" ==> IsSegment(n.dirName) && n.path == Dirname(gitRoot) + [n.dirName])
      && (n.dirName == "" ==> n.path == Dirname(gitRoot))
  {
    var n := ProcessBranchName(raw, gitRoot);
    var d := n.dirName;
    assert forall i :: 0 <= i < |d| ==> BranchChar(d[i]) by {
      forall i | 0 <= i < |d| ensures BranchChar(d[i]) {
        assert BranchChar(n.branch[|BranchPrefix| + i]);
      }
    }
    NoSlashSplit(d);
    if d != "" {
      assert d[0] != '.';
      PlainName(d);
      JoinName(Dirname(gitRoot), d);
    } else {
      assert Strings.Split(d, "/") == [""];
      assert Walk(Dirname(gitRoot), [""]) == Walk(Dirname(gitRoot), [""][1..]);
    }
  }

  /** Processing a processed name changes nothing. */
  lemma {:induction false} ProcessIdempotent(raw: string, gitRoot: Path)
    ensures var n := ProcessBranchName(raw, gitRoot);
      ProcessBranchName(n.branch, gitRoot) == n
  {
    var n := ProcessBranchName(raw, gitRoot);
    SanitizeKeeps(n.branch);
    assert StartsWith(Sanitize(n.branch), BranchPrefix);
  }

  /** A name made of branch characters only is its own sanitised form. */
  lemma SanitizeKeeps(b: string)
    requires forall i :: 0 <= i < |b| ==> BranchChar(b[i])
    ensures Sanitize(b) == b
  {
    LowerKeeps(b);
    CollapseNone(b, Space(), '-', false);
    FilterAll(b, x => BranchChar(x));
  }

  /** The command `featStart` runs for the names `n`. */
  function CommandLine(n: Names): string {
    "git worktree add \"" + ToString(n.path) + "\" -b \"" + n.branch + "\""
  }

  /** The message of the error `execSync` throws for a failed command:
      `Command failed: ` and the command, then, after a newline, what the
      command wrote to its error output, where that output was captured.
      With `stdio: 'inherit'`, as `featStart` runs git, it is not. */
  function FailureMessage(n: Names, stderr: string, captured: bool): string {
    "Command failed: " + CommandLine(n) + (if captured && stderr != "" then "\n" + stderr else "")
  }

  /** The messages `featStart` treats as a clash worth another name. */
  predicate Conflict(msg: string) {
    Contains(msg, "already exists") || Contains(msg, "not a valid branch name")
  }

  function Exhausted(msg: string): string {
    "Failed to create unique branch/directory after 3 attempts: " + msg
  }

  /** The names a run of the retry loop tried, and the tree it made or the
      error it ended with. */
  datatype Outcome = Outcome(tried: seq<Names>, result: Result<Tree>)

  /** After a clash: another name asked for, passing the one that clashed,
      and processed like the first. */
  function Renamer(llm: Llm, description: string, gitRoot: Path): string -> Names {
    clashed => ProcessBranchName(llm.suggestAlternativeBranchName(description, clashed), gitRoot)
  }

  /** The retry loop from the try numbered `count`, with `n` to try and
      `rename` giving the names to try after a clash; `captured` says whether
      git's error output reaches the message the clash test reads. */
  function Attempts(t: Tree, add: WorktreeAdd, gitRoot: Path, rename: string -> Names, n: Names, count: nat, captured: bool): (o: Outcome)
    requires count < MaxRetries
    ensures o.tried != []
    decreases MaxRetries - count
  {
    match add(t, gitRoot, n.path, n.branch)
    case Ok(t') => Outcome([n], Ok(t'))
    case Err(e) =>
      var m := FailureMessage(n, e, captured);
      if !Conflict(m) then Outcome([n], Err(m))
      else if count + 1 >= MaxRetries then Outcome([n], Err(Exhausted(m)))
      else
        var next := rename(n.branch);
        var o := Attempts(t, add, gitRoot, rename, next, count + 1, captured);
        Outcome([n] + o.tried, o.result)
  }

  /** The retry loop tries at most the tries left; every try but the last
      clashed, and the next name is `rename` of the branch that clashed.
      The last try decides: a worktree made is the result, a failure that is
      not a clash is passed on as git put it, and a clash means the tries ran
      out, reported by `Exhausted`. */
  lemma {:induction false} AttemptsMeaning(t: Tree, add: WorktreeAdd, gitRoot: Path, rename: string -> Names, n: Names, count: nat, captured: bool)
    requires count < MaxRetries
    ensures var o := Attempts(t, add, gitRoot, rename, n, count, captured);
      && 1 <= |o.tried| <= MaxRetries - count && o.tried[0] == n
      && (forall i :: 0 <= i < |o.tried| - 1 ==>
        && add(t, gitRoot, o.tried[i].path, o.tried[i].branch).Err?
        && Conflict(FailureMessage(o.tried[i], add(t, gitRoot, o.tried[i].path, o.tried[i].branch).msg, captured))
        && o.tried[i + 1] == rename(o.tried[i].branch))
      && var last := o.tried[|o.tried| - 1];
        match add(t, gitRoot, last.path, last.branch)
        case Ok(t') => o.result == Ok(t')
        case Err(e) =>
          var m := FailureMessage(last, e, captured);
          && (!Conflict(m) ==> o.result == Err(m))
          && (Conflict(m) ==> |o.tried| == MaxRetries - count && o.result == Err(Exhausted(m)))
    decreases MaxRetries - count
  {
    var o := Attempts(t, add, gitRoot, rename, n, count, captured);
    var a := add(t, gitRoot, n.path, n.branch);
    if a.Err? && Conflict(FailureMessage(n, a.msg, captured)) && count + 1 < MaxRetries {
      var next := rename(n.branch);
      AttemptsMeaning(t, add, gitRoot, rename, next, count + 1, captured);
      var o' := Attempts(t, add, gitRoot, rename, next, count + 1, captured);
      assert o.tried == [n] + o'.tried;
      forall i | 0 <= i < |o.tried| - 1
        ensures o.tried[i + 1] == rename(o.tried[i].branch)
      {
        if i > 0 {
          assert o.tried[i] == o'.tried[i - 1] && o.tried[i + 1] == o'.tried[i];
        }
      }
    }
  }

  /** As written, git's error output is not captured, so a failure's
      message is the command alone: unless the command itself holds a clash
      phrase, the first failure, a clash included, ends the loop. */
  lemma InheritedSingleTry(t: Tree, add: WorktreeAdd, gitRoot: Path, rename: string -> Names, n: Names, count: nat)
    requires count < MaxRetries
    requires !Conflict(FailureMessage(n, "", false))
    ensures var o := Attempts(t, add, gitRoot, rename, n, count, false);
      && o.tried == [n]
      && match add(t, gitRoot, n.path, n.branch)
        case Ok(t') => o.result == Ok(t')
        case Err(_) => o.result == Err(FailureMessage(n, "", false))
  {
    var a := add(t, gitRoot, n.path, n.branch);
    if a.Err? {
      assert FailureMessage(n, a.msg, false) == FailureMessage(n, "", false);
    }
  }

  /** A phrase found in the end of a text is found in the text. */
  lemma ContainsInSuffix(a: string, s: string, p: string)
    requires Contains(s, p)
    ensures Contains(a + s, p)
  {
    var j :| 0 <= j <= |s| - |p| && OccursAt(s, p, j);
    assert (a + s)[|a| + j..|a| + j + |p|] == s[j..j + |p|];
    assert OccursAt(a + s, p, |a| + j);
  }

  /** A phrase put after a text occurs right after it. */
  lemma OccursAtEnd(a: string, p: string)
    ensures OccursAt(a + p, p, |a|)
  {
    assert (a + p)[|a|..|a| + |p|] == p;
  }

  /** A text lacking one of the phrase's characters does not contain it. */
  lemma LacksChar(s: string, p: string, c: char)
    requires c in p && c !in s
    ensures !Contains(s, p)
  {
    var k :| 0 <= k < |p| && p[k] == c;
    forall j | 0 <= j <= |s| - |p| ensures !OccursAt(s, p, j) {
      assert s[j..j + |p|][k] == s[j + k];
    }
  }

  /** With git's error output captured, a try whose output reports a clash
      is followed, while tries are left, by one for `rename` of its branch. */
  lemma ClashRenamed(t: Tree, add: WorktreeAdd, gitRoot: Path, rename: string -> Names, n: Names, count: nat)
    requires count + 1 < MaxRetries
    requires add(t, gitRoot, n.path, n.branch).Err? && Conflict(add(t, gitRoot, n.path, n.branch).msg)
    ensures var o := Attempts(t, add, gitRoot, rename, n, count, true);
      |o.tried| >= 2 && o.tried[0] == n && o.tried[1] == rename(n.branch)
  {
    var e := add(t, gitRoot, n.path, n.branch).msg;
    var head := "Command failed: " + CommandLine(n) + "\n";
    if Contains(e, "already exists") {
      ContainsInSuffix(head, e, "already exists");
    } else {
      ContainsInSuffix(head, e, "not a valid branch name");
    }
    assert e != "";
    assert FailureMessage(n, e, true) == head + e;
  }

  /** The names of the clash the feature tests stage: `zamm/x` is taken, and
      the alternative asked for is `zamm/x-feature`. */
  const Taken := Names("zamm/x", "x", ["r", "x"])
  const Alternative := Names("zamm/x-feature", "x-feature", ["r", "x-feature"])

  function ClashingAdd(): WorktreeAdd {
    (t0: Tree, root: Path, p: Path, b: string) =>
      if b == "zamm/x" then Err("fatal: a branch named 'zamm/x' already exists") else Ok(t0)
  }

  /** As written, that clash is rethrown on the first try: the message holds
      only the command, which has no clash phrase. */
  lemma ClashRethrown(t: Tree)
    ensures var o := Attempts(t, ClashingAdd(), ["r", "a"], _ => Alternative, Taken, 0, false);
      o.tried == [Taken] && o.result == Err("Command failed: git worktree add \"/r/x\" -b \"zamm/x\"")
  {
    TakenMessage();
    InheritedSingleTry(t, ClashingAdd(), ["r", "a"], _ => Alternative, Taken, 0);
  }

  lemma TakenPath()
    ensures ToString(Taken.path) == "/r/x"
  {
    assert Join(["r", "x"], "/") == "r" + "/" + Join(["x"], "/");
  }

  /** The as-written message for `Taken`, piece by piece. */
  lemma TakenPieces()
    ensures FailureMessage(Taken, "", false)
      == "Command failed: " + "git worktree add \"" + "/r/x" + "\" -b \"" + "zamm/x" + "\""
  {
    TakenPath();
  }

  lemma PiecesLackYV(m: string)
    requires m == "Command failed: " + "git worktree add \"" + "/r/x" + "\" -b \"" + "zamm/x" + "\""
    ensures 'y' !in m && 'v' !in m
  {
  }

  lemma PiecesJoined()
    ensures "Command failed: " + "git worktree add \"" + "/r/x" + "\" -b \"" + "zamm/x" + "\""
      == "Command failed: git worktree add \"/r/x\" -b \"zamm/x\""
  {
  }

  /** The as-written message for `Taken`, which holds no clash phrase. */
  lemma TakenMessage()
    ensures FailureMessage(Taken, "", false) == "Command failed: git worktree add \"/r/x\" -b \"zamm/x\""
    ensures !Conflict(FailureMessage(Taken, "", false))
  {
    TakenPieces();
    PiecesJoined();
    var m := FailureMessage(Taken, "", false);
    PiecesLackYV(m);
    LacksChar(m, "already exists", 'y');
    LacksChar(m, "not a valid branch name", 'v');
  }

  /** With git's output captured, the same clash leads to a second try with
      the alternative name, which makes the worktree. */
  lemma ClashRetried(t: Tree)
    ensures var o := Attempts(t, ClashingAdd(), ["r", "a"], _ => Alternative, Taken, 0, true);
      o.tried == [Taken, Alternative] && o.result == Ok(t)
  {
    var head := "fatal: a branch named 'zamm/x' ";
    OccursAtEnd(head, "already exists");
    assert head + "already exists" == "fatal: a branch named 'zamm/x' already exists";
    ClashRenamed(t, ClashingAdd(), ["r", "a"], _ => Alternative, Taken, 0);
  }

  /** `path.join(siblingPath, 'docs', 'spec-history', '<dirName>.md')`. */
  function SpecFilePath(n: Names): Path {
    JoinPath(JoinPath(JoinPath(n.path, "docs"), "spec-history"), n.dirName + ".md")
  }

  lemma SpecFolderSegments()
    ensures IsSegment("docs") && IsSegment("spec-history")
  {
    PlainName("docs");
    PlainName("spec-history");
  }

  /** The spec file lies in the worktree's `docs/spec-history` folder and is
      named after the worktree's directory. */
  lemma SpecFilePlace(n: Names)
    requires NoSlash(n.dirName)
    ensures SpecFilePath(n) == n.path + ["docs", "spec-history", n.dirName + ".md"]
    ensures Normal(n.path) ==> Normal(SpecFilePath(n))
  {
    SpecFolderSegments();
    MdSegment(n.dirName);
    var f := n.dirName + ".md";
    JoinName(n.path, "docs");
    JoinName(n.path + ["docs"], "spec-history");
    JoinName(n.path + ["docs"] + ["spec-history"], f);
    assert n.path + ["docs"] + ["spec-history"] + [f] == n.path + ["docs", "spec-history", f];
  }

  /** The spec file's text: an id and the `spec` type in the envelope, then
      the title as a heading and the description. */
  function SpecContent(id: string, title: string, description: string): string {
    Document(id, "spec", title, description)
  }

  /** After the worktree is made: the spec folder is made if missing, one id
      is taken and the spec file written. A failure keeps what was done
      before it. */
  function SpecWritten(t: Tree, n: Names, title: string, description: string, ids: IdSource): (Result<Names>, Tree, IdSource) {
    var file := SpecFilePath(n);
    match MakeDirsIfMissing(t, Dirname(file))
    case Err(e) => (Err(e), t, ids)
    case Ok(t1) =>
      var (id, ids1) := ids.Take();
      match WriteFile(t1, file, SpecContent(id, title, description))
      case Err(e) => (Err(e), t1, ids1)
      case Ok(t2) => (Ok(n), t2, ids1)
  }

  /** Writing the spec takes one id, adds the spec folder where it is
      missing and the spec file (placed as `SpecFilePlace` says), which holds
      the template, and changes nothing else. */
  lemma SpecWrittenEffect(t: Tree, n: Names, title: string, description: string, ids: IdSource)
    requires WellFormed(t) && Normal(n.path) && NoSlash(n.dirName)
    ensures var w := SpecWritten(t, n, title, description, ids);
      var file := SpecFilePath(n);
      && w.2.stream == ids.stream && w.2.used <= ids.used + 1
      && (w.0.Ok? ==>
        && WellFormed(w.1) && w.2.used == ids.used + 1
        && w.1[file] == File(SpecContent(ids.stream(ids.used), title, description))
        && w.1.Keys == t.Keys + Missing(t, Dirname(file)) + {file}
        && (forall q :: q in t && q != file ==> w.1[q] == t[q]))
  {
    SpecFilePlace(n);
    var file := SpecFilePath(n);
    var r1 := MakeDirsIfMissing(t, Dirname(file));
    if r1.Ok? {
      MakeDirsIfMissingEffect(t, Dirname(file));
      var t1 := r1.value;
      var id := ids.stream(ids.used);
      var w := WriteFile(t1, file, SpecContent(id, title, description));
      if w.Ok? {
        WriteFileEffect(t1, file, SpecContent(id, title, description));
      }
    }
  }

  /** What the retry loop hands on: the worktree made and the names it was
      made for, or the error it ended with. Git's error output is captured,
      so that its clash messages reach the test (see `InheritedSingleTry`). */
  function Created(t: Tree, add: WorktreeAdd, gitRoot: Path, rename: string -> Names, n: Names, count: nat): Result<(Tree, Names)>
    requires count < MaxRetries
  {
    var o := Attempts(t, add, gitRoot, rename, n, count, true);
    match o.result
    case Ok(made) => Ok((made, o.tried[|o.tried| - 1]))
    case Err(m) => Err(m)
  }

  /** `featStart`: the git root, a name asked for, the retry loop, then the
      spec file. Nothing is written and no id taken unless a worktree was
      made. */
  method FeatStart(t: Tree, cwd: Path, add: WorktreeAdd, llm: Llm, ids: IdSource, description: string)
    returns (r: Result<Names>, t': Tree, ids': IdSource)
    ensures GitRoot(t, cwd).None? ==> r == Err("Not in a git repository") && t' == t && ids' == ids
    ensures GitRoot(t, cwd).Some? ==>
      var root := GitRoot(t, cwd).value;
      var c := Created(t, add, root, Renamer(llm, description, root), ProcessBranchName(llm.suggestBranchName(description), root), 0);
      && (c.Err? ==> r == Err(c.msg) && t' == t && ids' == ids)
      && (c.Ok? ==> (r, t', ids') == SpecWritten(c.value.0, c.value.1, llm.suggestSpecTitle(description), description, ids))
  {
    var root := FindGitRoot(t, cwd);
    if root.None? {
      return Err("Not in a git repository"), t, ids;
    }
    var names := ProcessBranchName(llm.suggestBranchName(description), root.value);
    var made := CreateWorktree(t, add, root.value, Renamer(llm, description, root.value), names);
    if made.Err? {
      return Err(made.msg), t, ids;
    }
    var title := llm.suggestSpecTitle(description);
    r, t', ids' := WriteSpec(made.value.0, made.value.1, title, description, ids);
  }

  /** How one pass of the retry loop ends: a worktree made, an error, or
      the next name to try. */
  datatype Try = Made(tree: Tree) | Failed(msg: string) | Retry(next: Names)

  /** The retry loop of `featStart`, from the first name; `rename` asks for
      and processes the name to try after a clash. */
  method CreateWorktree(t: Tree, add: WorktreeAdd, gitRoot: Path, rename: string -> Names, first: Names)
    returns (r: Result<(Tree, Names)>)
    ensures r == Created(t, add, gitRoot, rename, first, 0)
  {
    var names := first;
    var retryCount := 0;
    while retryCount < MaxRetries
      invariant retryCount < MaxRetries
      invariant Created(t, add, gitRoot, rename, names, retryCount) == Created(t, add, gitRoot, rename, first, 0)
      decreases MaxRetries - retryCount
    {
      var step := TryOnce(t, add, gitRoot, rename, names, retryCount);
      match step
      case Made(made) =>
        return Ok((made, names));
      case Failed(msg) =>
        return Err(msg);
      case Retry(next) =>
        names := next;
        retryCount := retryCount + 1;
    }
    assert false;
  }

  /** One pass of the retry loop, try number `count`: the worktree is
      made, or the error is not a clash, or it is the third clash, or the
      next name is asked for, passing the one that clashed. */
  method TryOnce(t: Tree, add: WorktreeAdd, gitRoot: Path, rename: string -> Names, names: Names, count: nat)
    returns (step: Try)
    requires count < MaxRetries
    ensures var c := Created(t, add, gitRoot, rename, names, count);
      match step
      case Made(made) => c == Ok((made, names))
      case Failed(msg) => c == Err(msg)
      case Retry(next) =>
        && count + 1 < MaxRetries && next == rename(names.branch)
        && c == Created(t, add, gitRoot, rename, next, count + 1)
  {
    var attempt := add(t, gitRoot, names.path, names.branch);
    if attempt.Ok? {
      return Made(attempt.value);
    }
    var msg := FailureMessage(names, attempt.msg, true);
    if !Conflict(msg) {
      return Failed(msg);
    }
    var retryCount := count + 1;
    if retryCount >= MaxRetries {
      return Failed(Exhausted(msg));
    }
    return Retry(rename(names.branch));
  }

  /** The spec-writing tail of `featStart`. */
  method WriteSpec(t: Tree, n: Names, title: string, description: string, ids: IdSource)
    returns (r: Result<Names>, t': Tree, ids': IdSource)
    ensures (r, t', ids') == SpecWritten(t, n, title, description, ids)
  {
    var file := SpecFilePath(n);
    var dir := Dirname(file);
    var t1 := t;
    if dir !in t {
      var made := MakeDirs(t, dir);
      if made.Err? {
        return Err(made.msg), t, ids;
      }
      t1 := made.value;
    }
    var (id, ids1) := ids.Take();
    var written := WriteFile(t1, file, SpecContent(id, title, description));
    if written.Err? {
      return Err(written.msg), t1, ids1;
    }
    return Ok(n), written.value, ids1;
  }
}
