/** `RedirectService`: the docs directory a repository is redirected to, kept
    in `.zamm/redirect.json` under the git root. JSON text is left abstract, and
    so is the `fs.access` read/write permission test, which is given as a
    predicate on paths. */
module RedirectService {
  import opened Wrappers
  import opened Paths
  import opened FileSystem
  import opened ZammDir

  /** `JSON.stringify({directory}, null, 2)` and reading `directory` back out
      of `JSON.parse`; the decoder gives `None` where parsing fails. */
  datatype RedirectCodec = RedirectCodec(encode: string -> string, decode: string -> Option<string>)

  /** What was written, newline included, parses back to the same directory. */
  ghost predicate RoundTrips(codec: RedirectCodec) {
    forall d :: codec.decode(codec.encode(d) + "\n") == Some(d)
  }

  function RedirectPath(gitRoot: Path): Path {
    ZammPath(gitRoot) + ["redirect.json"]
  }

  /** `getRedirectDirectory`: the stored directory, or `None` where the file
      is missing or cannot be parsed. */
  function GetRedirectDirectory(t: Tree, gitRoot: Path, codec: RedirectCodec): (r: Option<string>)
    ensures !IsFile(t, RedirectPath(gitRoot)) ==> r == None
    ensures IsFile(t, RedirectPath(gitRoot)) ==> r == codec.decode(t[RedirectPath(gitRoot)].content)
  {
    match ReadFile(t, RedirectPath(gitRoot))
    case Err(_) => None
    case Ok(content) => codec.decode(content)
  }

  /** `setRedirectDirectory`: `.zamm` is prepared first, so it stays
      prepared even when the target is then refused; the target must exist
      and be accessible, and its absolute path is what gets stored. A later
      call stores its own target in place of an earlier one. */
  method SetRedirectDirectory(
    t: Tree, cwd: Path, gitRoot: Path, redirectDir: string,
    accessible: Path -> bool, codec: RedirectCodec)
    returns (r: Result<()>, t': Tree)
    requires WellFormed(t) && Normal(gitRoot)
    ensures Prepared(t, gitRoot).Err? ==> r == Err(Prepared(t, gitRoot).msg) && t' == t
    ensures var p := Prepared(t, gitRoot); var abs := Resolve(cwd, redirectDir);
      p.Ok? && abs !in p.value ==> r == Err("Directory does not exist: " + redirectDir) && t' == p.value
    ensures var p := Prepared(t, gitRoot); var abs := Resolve(cwd, redirectDir);
      p.Ok? && abs in p.value && !accessible(abs) ==>
        r == Err("Directory is not accessible: " + redirectDir) && t' == p.value
    ensures var p := Prepared(t, gitRoot); var abs := Resolve(cwd, redirectDir);
      r.Ok? <==> p.Ok? && abs in p.value && accessible(abs) && !IsDir(p.value, RedirectPath(gitRoot))
    ensures var p := Prepared(t, gitRoot);
      r.Err? && p.Ok? ==> t' == p.value
    ensures r.Ok? ==>
      t' == Prepared(t, gitRoot).value[RedirectPath(gitRoot) :=
        File(codec.encode(ToString(Resolve(cwd, redirectDir))) + "\n")]
    ensures r.Ok? && RoundTrips(codec) ==>
      GetRedirectDirectory(t', gitRoot, codec) == Some(ToString(Resolve(cwd, redirectDir)))
  {
    r, t' := EnsureZammDirectory(t, gitRoot);
    if r.Err? {
      return;
    }
    var redirectPath := RedirectPath(gitRoot);
    var abs := Resolve(cwd, redirectDir);
    if abs !in t' {
      return Err("Directory does not exist: " + redirectDir), t';
    }
    if !accessible(abs) {
      return Err("Directory is not accessible: " + redirectDir), t';
    }
    PreparedEffect(t, gitRoot);
    assert Dirname(redirectPath) == ZammPath(gitRoot);
    var written := WriteFile(t', redirectPath, codec.encode(ToString(abs)) + "\n");
    if written.Err? {
      return Err(written.msg), t';
    }
    t' := written.value;
  }
}
