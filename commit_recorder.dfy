/** `recordCommitsToFile`: the shared routine behind `spec record-commits` and
    `impl record-commits`. Every check runs before the one write. The git
    subprocesses are given as their answers: whether the working directory is
    in a repository, and what `git log` printed or failed with. */
module CommitRecorder {
  import opened Wrappers
  import opened Paths
  import opened FileSystem
  import opened Values
  import opened Types
  import opened Envelope
  import opened FileResolver
  import opened GitUtils

  /** The validation hook: `Some(message)` where it throws. */
  type Validator = FileInfo -> Option<string>

  method RecordCommitsToFile(
    t: Tree, cwd: Path, yaml: Yaml, h: Helpers, isGitRepo: bool, gitLog: Result<string>,
    idOrPath: string, validate: Validator)
    returns (r: Result<()>, t': Tree)
    requires WellFormed(t) && Normal(cwd)
    ensures r.Err? ==> t' == t
    ensures !isGitRepo ==> r == Err("Not in a git repository")
    ensures var res := Resolution(t, cwd, yaml, idOrPath);
      isGitRepo && res.Err? ==> r == Err(res.msg)
    ensures var res := Resolution(t, cwd, yaml, idOrPath);
      isGitRepo && res.Ok? && validate(res.value).Some? ==> r == Err(validate(res.value).value)
    ensures var res := Resolution(t, cwd, yaml, idOrPath);
      isGitRepo && res.Ok? && validate(res.value).None? && IsFile(t, res.value.absolutePath)
      && !TruthyOpt(Get(Parse(yaml, t[res.value.absolutePath].content).frontmatter, "id")) ==>
        r == Err("File does not have proper YAML frontmatter with an id field: " + ToString(res.value.absolutePath))
    ensures var res := Resolution(t, cwd, yaml, idOrPath);
      isGitRepo && res.Ok? && validate(res.value).None? && IsFile(t, res.value.absolutePath)
      && TruthyOpt(Get(Parse(yaml, t[res.value.absolutePath].content).frontmatter, "id")) && gitLog.Err? ==>
        r == Err("Failed to get git commit history: " + gitLog.msg)
    ensures var res := Resolution(t, cwd, yaml, idOrPath);
      r.Ok? <==>
        && isGitRepo && res.Ok? && validate(res.value).None? && IsFile(t, res.value.absolutePath)
        && TruthyOpt(Get(Parse(yaml, t[res.value.absolutePath].content).frontmatter, "id")) && gitLog.Ok?
    ensures var res := Resolution(t, cwd, yaml, idOrPath);
      r.Ok? ==>
        var abs := res.value.absolutePath;
        var parsed := Parse(yaml, t[abs].content);
        t' == t[abs := File(h.serialize(h.addCommits(parsed.frontmatter, ParseGitLog(gitLog.value)), parsed.body))]
    ensures var res := Resolution(t, cwd, yaml, idOrPath);
      r.Ok? && Prepends(h) ==>
        var parsed := Parse(yaml, t[res.value.absolutePath].content);
        CommitsPrepended(parsed.frontmatter, ParseGitLog(gitLog.value),
                         h.addCommits(parsed.frontmatter, ParseGitLog(gitLog.value)))
  {
    t' := t;
    if !isGitRepo {
      return Err("Not in a git repository"), t';
    }
    var resolved := ResolveFileInfo(t, cwd, yaml, idOrPath);
    if resolved.Err? {
      return Err(resolved.msg), t';
    }
    var info := resolved.value;
    if info.absolutePath !in t {
      return Err("File not found: " + ToString(info.absolutePath)), t';
    }
    var failure := validate(info);
    if failure.Some? {
      return Err(failure.value), t';
    }
    var content := ReadFile(t, info.absolutePath).value;
    var parsed := Parse(yaml, content);
    if !TruthyOpt(Get(parsed.frontmatter, "id")) {
      return Err("File does not have proper YAML frontmatter with an id field: " + ToString(info.absolutePath)), t';
    }
    var commits := GetLastNCommits(gitLog);
    if commits.Err? {
      return Err(commits.msg), t';
    }
    var updatedContent := h.serialize(h.addCommits(parsed.frontmatter, commits.value), parsed.body);
    t' := WriteFile(t, info.absolutePath, updatedContent).value;
    return Ok(()), t';
  }

  /** Under the law, the commits a recording leaves are the new ones and then
      the old ones. */
  lemma CommitsAfter(h: Helpers, fm: Frontmatter, cs: seq<Commit>)
    requires Prepends(h)
    ensures OldCommits(h.addCommits(fm, cs)) == CommitValues(cs) + OldCommits(fm)
  {
    assert CommitsPrepended(fm, cs, h.addCommits(fm, cs));
  }

  /** Recording twice puts the second run's commits before the first's, and
      both before what was there. */
  lemma RecordTwice(h: Helpers, fm: Frontmatter, first: seq<Commit>, second: seq<Commit>)
    requires Prepends(h)
    ensures OldCommits(h.addCommits(h.addCommits(fm, first), second))
      == CommitValues(second) + CommitValues(first) + OldCommits(fm)
  {
    var once := h.addCommits(fm, first);
    CommitsAfter(h, fm, first);
    CommitsAfter(h, once, second);
    SeqAssoc(CommitValues(second), CommitValues(first), OldCommits(fm));
  }

  lemma SeqAssoc<T>(a: seq<T>, b: seq<T>, c: seq<T>)
    ensures a + (b + c) == a + b + c
  {
  }
}
