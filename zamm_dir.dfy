/** The `.zamm` directory the workflow and redirect services keep their state
    in, and the `.gitignore` inside it that keeps that state out of git. */
module ZammDir {
  import opened Wrappers
  import opened Paths
  import opened FileSystem

  const GitignoreContent := "*\n"

  function ZammPath(dir: Path): Path {
    dir + [".zamm"]
  }

  function GitignorePath(dir: Path): Path {
    ZammPath(dir) + [".gitignore"]
  }

  /** `.zamm` is a directory and something is at `.zamm/.gitignore`. */
  predicate ZammReady(t: Tree, dir: Path) {
    IsDir(t, ZammPath(dir)) && GitignorePath(dir) in t
  }

  /** The tree `ensureZammDirectory(dir)` leaves: `mkdir -p <dir>/.zamm`,
      then `.gitignore` with `*` in it where nothing is there yet. */
  function Prepared(t: Tree, dir: Path): Result<Tree> {
    match MakeDirs(t, ZammPath(dir))
    case Err(e) => Err(e)
    case Ok(t1) =>
      if GitignorePath(dir) in t1 then Ok(t1)
      else Ok(t1[GitignorePath(dir) := File(GitignoreContent)])
  }

  /** Preparing fails exactly where `mkdir -p` does, and otherwise makes
      `.zamm` ready, keeps the tree well formed, keeps an existing
      `.gitignore`, and changes nothing else that was there; on a ready
      directory it changes nothing at all. */
  lemma PreparedEffect(t: Tree, dir: Path)
    requires WellFormed(t) && Normal(dir)
    ensures Prepared(t, dir).Ok? <==> MakeDirs(t, ZammPath(dir)).Ok?
    ensures Prepared(t, dir).Err? ==> Prepared(t, dir).msg == MakeDirs(t, ZammPath(dir)).msg
    ensures var r := Prepared(t, dir);
      r.Ok? ==> ZammReady(r.value, dir) && WellFormed(r.value)
    ensures ZammReady(t, dir) ==> Prepared(t, dir) == Ok(t)
    ensures var r := Prepared(t, dir);
      r.Ok? && GitignorePath(dir) in t ==> r.value[GitignorePath(dir)] == t[GitignorePath(dir)]
    ensures var r := Prepared(t, dir);
      r.Ok? && GitignorePath(dir) !in t ==> r.value[GitignorePath(dir)] == File(GitignoreContent)
    ensures var r := Prepared(t, dir);
      r.Ok? ==> forall q :: q in t && q != GitignorePath(dir) ==> q in r.value && r.value[q] == t[q]
    ensures var r := Prepared(t, dir);
      r.Ok? ==> r.value.Keys <= t.Keys + Missing(t, ZammPath(dir)) + {GitignorePath(dir)}
  {
    var zamm := ZammPath(dir);
    PlainName(".zamm");
    Extend(dir, ".zamm");
    var made := MakeDirs(t, zamm);
    if made.Ok? {
      MakeDirsWellFormed(t, zamm);
      var t1 := made.value;
      var gitignore := GitignorePath(dir);
      if gitignore !in t1 {
        assert Dirname(gitignore) == zamm;
        PlainName(".gitignore");
        Extend(zamm, ".gitignore");
        WriteFileEffect(t1, gitignore, GitignoreContent);
      } else {
        assert gitignore in t by {
          forall q | q in Missing(t, zamm) ensures q != gitignore {
          }
        }
      }
    }
  }

  /** `ensureZammDirectory(dir)`: the directory, then the `.gitignore` file
      where none exists. */
  method EnsureZammDirectory(t: Tree, dir: Path) returns (r: Result<()>, t': Tree)
    requires WellFormed(t) && Normal(dir)
    ensures Prepared(t, dir).Err? ==> r == Err(Prepared(t, dir).msg) && t' == t
    ensures Prepared(t, dir).Ok? ==> r == Ok(()) && t' == Prepared(t, dir).value
  {
    var zamm := ZammPath(dir);
    var made := MakeDirs(t, zamm);
    if made.Err? {
      return Err(made.msg), t;
    }
    t' := made.value;
    var gitignore := GitignorePath(dir);
    if gitignore !in t' {
      PreparedEffect(t, dir);
      assert Dirname(gitignore) == zamm;
      t' := WriteFile(t', gitignore, GitignoreContent).value;
    }
    return Ok(()), t';
  }
}
