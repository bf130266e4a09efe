/** `implement`: creating the reference-implementation note that ties a spec
    to an implementation, and the `impl record-commits` validation hook. The
    id generator is a stream of ids; `realpath` is the identity, as symbolic
    links are not modelled. */
module Implement {
  import opened Wrappers
  import opened Strings
  import opened Paths
  import opened FileSystem
  import opened Values
  import opened Types
  import opened Envelope
  import opened FileTypes
  import opened FileUtils
  import opened FileResolver
  import opened Organize
  import opened CommitRecorder
  import opened GitUtils

  /** The body of a new note. */
  const Todo := "TODO: " + "LLM agent, please put implementation plan details here and rename this file as appropriate."

  /** The index of the last `/` in `s` after its first character. */
  function LastSlash(s: string): (r: Option<nat>)
    ensures r.Some? ==> 1 <= r.value < |s| && s[r.value] == '/'
    ensures r.Some? ==> forall k :: r.value < k < |s| ==> s[k] != '/'
    ensures r.None? ==> forall k :: 1 <= k < |s| ==> s[k] != '/'
    decreases |s|
  {
    if |s| <= 1 then None
    else if s[|s| - 1] == '/' then Some(|s| - 1)
    else LastSlash(s[..|s| - 1])
  }

  /** `path.dirname` of a path in text: what comes before its last `/`;
      `.` when there is none, `/` for a name right below the root. */
  function DirnameText(s: string): (r: string)
    ensures LastSlash(s).Some? ==> r + s[LastSlash(s).value..] == s
  {
    match LastSlash(s)
    case None => if s != "" && s[0] == '/' then "/" else "."
    case Some(i) => s[..i]
  }

  /** The directory of the spec below `docs/specs/` or `docs/spec-history/`,
      or below the git root for a spec anywhere else. */
  function SpecSubPath(rel: string): string {
    match Below(rel, "docs", "specs")
    case Some(rest) => DirnameText(rest)
    case None =>
      match Below(rel, "docs", "spec-history")
      case Some(rest) => DirnameText(rest)
      case None => DirnameText(rel)
  }

  /** What follows the prefix `<top>/<folder>/`, if `rel` starts with it. */
  function Below(rel: string, top: string, folder: string): (r: Option<string>)
    ensures r.Some? <==> StartsWith(rel, top + "/" + folder + "/")
    ensures r.Some? ==> rel == top + "/" + folder + "/" + r.value
  {
    var p := top + "/" + folder + "/";
    if StartsWith(rel, p) then
      assert rel == p + rel[|p|..];
      Some(rel[|p|..])
    else None
  }

  /** `path.join(gitRoot, 'docs', 'impl-history', <impl name>, <spec
      directory>)`. */
  function NoteDir(root: Path, implAbs: Path, specAbs: Path): Path {
    JoinPath(root, Join(["docs", "impl-history", BasenameWithoutMd(implAbs), SpecSubPath(Relative(root, specAbs))], "/"))
  }

  function NoteName(specId: string): string {
    "new-" + specId + "-impl.md"
  }

  /** `getNewImplementationNotePath` without its `mkdir`. */
  function NotePath(root: Path, implAbs: Path, specAbs: Path, specId: string): Path {
    JoinPath(NoteDir(root, implAbs, specAbs), NoteName(specId))
  }

  /** A spec below `docs/specs/` gets its note below
      `docs/impl-history/<impl name>` in the same sub-directories. */
  lemma NotePathInSpecs(root: Path, implAbs: Path, sub: seq<string>, name: string, specId: string)
    requires Normal(root) && Normal(sub) && IsSegment(name)
    requires IsSegment(BasenameWithoutMd(implAbs)) && IsSegment(NoteName(specId))
    ensures NotePath(root, implAbs, root + ["docs", "specs"] + sub + [name], specId)
      == root + ["docs", "impl-history", BasenameWithoutMd(implAbs)] + sub + [NoteName(specId)]
  {
    NotePathBelow(root, implAbs, "specs", sub, name, specId);
  }

  /** The same for a spec below `docs/spec-history/`. */
  lemma NotePathInSpecHistory(root: Path, implAbs: Path, sub: seq<string>, name: string, specId: string)
    requires Normal(root) && Normal(sub) && IsSegment(name)
    requires IsSegment(BasenameWithoutMd(implAbs)) && IsSegment(NoteName(specId))
    ensures NotePath(root, implAbs, root + ["docs", "spec-history"] + sub + [name], specId)
      == root + ["docs", "impl-history", BasenameWithoutMd(implAbs)] + sub + [NoteName(specId)]
  {
    NotePathBelow(root, implAbs, "spec-history", sub, name, specId);
  }

  /** A spec anywhere else keeps its whole directory below the git root. */
  lemma NotePathElsewhere(root: Path, implAbs: Path, dir: seq<string>, name: string, specId: string)
    requires Normal(root) && Normal(dir) && IsSegment(name)
    requires IsSegment(BasenameWithoutMd(implAbs)) && IsSegment(NoteName(specId))
    requires !(|dir| >= 2 && dir[0] == "docs" && (dir[1] == "specs" || dir[1] == "spec-history"))
    ensures NotePath(root, implAbs, root + dir + [name], specId)
      == root + ["docs", "impl-history", BasenameWithoutMd(implAbs)] + dir + [NoteName(specId)]
  {
    var segs := dir + [name];
    assert Normal(segs);
    var rel := Relative(root, root + segs);
    assert rel == Join(segs, "/") by {
      RelativeJoin(root, segs);
    }
    ElsewhereKept(dir, name);
    assert root + dir + [name] == root + segs;
    assert NoteDir(root, implAbs, root + segs) == root + ["docs", "impl-history", BasenameWithoutMd(implAbs)] + dir by {
      NoteDirOf(root, implAbs, dir, name, rel);
    }
    JoinName(NoteDir(root, implAbs, root + segs), NoteName(specId));
  }

  /** Neither prefix is stripped from a spec outside both folders. */
  lemma ElsewhereKept(dir: seq<string>, name: string)
    requires Normal(dir) && IsSegment(name)
    requires !(|dir| >= 2 && dir[0] == "docs" && (dir[1] == "specs" || dir[1] == "spec-history"))
    ensures var rel := Join(dir + [name], "/"); SpecSubPath(rel) == DirnameText(rel)
  {
    var segs := dir + [name];
    assert Normal(segs);
    assert |dir| >= 2 ==> segs[..2] == dir[..2];
    FolderNames();
    BelowJoin(segs, "docs", "specs");
    BelowJoin(segs, "docs", "spec-history");
  }

  /** The shared step of the first two: the relative path starts with
      `docs/<folder>/`, and what follows is the path below it. */
  lemma NotePathBelow(root: Path, implAbs: Path, folder: string, sub: seq<string>, name: string, specId: string)
    requires folder == "specs" || folder == "spec-history"
    requires Normal(root) && Normal(sub) && IsSegment(name)
    requires IsSegment(BasenameWithoutMd(implAbs)) && IsSegment(NoteName(specId))
    ensures NotePath(root, implAbs, root + ["docs", folder] + sub + [name], specId)
      == root + ["docs", "impl-history", BasenameWithoutMd(implAbs)] + sub + [NoteName(specId)]
  {
    var below := sub + [name];
    var pre := ["docs", folder];
    var segs := pre + below;
    var specAbs := root + ["docs", folder] + sub + [name];
    assert specAbs == root + segs;
    var rel := Relative(root, specAbs);
    assert rel == Join(segs, "/") by {
      RelativeJoin(root, segs);
    }
    FolderNames();
    assert Normal(segs);
    assert segs[..2] == pre && segs[2..] == below;
    BelowJoin(segs, "docs", "specs");
    BelowJoin(segs, "docs", "spec-history");
    assert SpecSubPath(rel) == DirnameText(Join(below, "/"));
    NoteDirOf(root, implAbs, sub, name, Join(below, "/"));
    JoinName(NoteDir(root, implAbs, specAbs), NoteName(specId));
  }

  /** The folder names are segments. */
  lemma FolderNames()
    ensures IsSegment("docs") && IsSegment("specs") && IsSegment("spec-history")
  {
    PlainName("docs");
    PlainName("specs");
    PlainName("spec-history");
  }

  /** Joined segments have the prefix `<top>/<folder>/` exactly when the
      segments start with those two and go on, and then what follows is the
      join of the rest. */
  lemma BelowJoin(segs: seq<string>, top: string, folder: string)
    requires Normal(segs) && IsSegment(top) && IsSegment(folder)
    ensures var r := Below(Join(segs, "/"), top, folder);
      && (r.Some? <==> |segs| > 2 && segs[0] == top && segs[1] == folder)
      && (r.Some? ==> r.value == Join(segs[2..], "/"))
  {
    var pre := [top, folder];
    JoinCons(top, [folder]);
    assert Join(pre, "/") + "/" == top + "/" + folder + "/";
    JoinStartsWith(segs, pre);
    var r := Below(Join(segs, "/"), top, folder);
    if r.Some? {
      assert |segs| > 2 && segs[..2] == pre;
      assert segs[0] == top && segs[1] == folder;
    }
    if |segs| > 2 && segs[0] == top && segs[1] == folder {
      assert segs[..2] == pre;
    }
  }

  /** Below the root, the relative path is the joined segments. */
  lemma RelativeJoin(root: Path, segs: seq<string>)
    ensures Relative(root, root + segs) == Join(segs, "/")
  {
    assert (root + segs)[..|root|] == root;
    RelativeBelow(root, root + segs);
    assert (root + segs)[|root|..] == segs;
  }

  /** Joined segments start with other joined segments and a `/` exactly
      when the segments start with the others and go on, and then the rest
      is the join of what follows. */
  lemma {:induction false} JoinStartsWith(segs: seq<string>, pre: seq<string>)
    requires Normal(segs) && Normal(pre) && pre != []
    ensures StartsWith(Join(segs, "/"), Join(pre, "/") + "/") <==> |segs| > |pre| && segs[..|pre|] == pre
    ensures |segs| > |pre| && segs[..|pre|] == pre ==>
      Join(segs, "/") == Join(pre, "/") + "/" + Join(segs[|pre|..], "/")
    decreases |pre|
  {
    if |segs| > |pre| && segs[..|pre|] == pre {
      assert segs == pre + segs[|pre|..];
      JoinAppend(pre, segs[|pre|..]);
      PrefixOfConcat(Join(pre, "/") + "/", Join(segs[|pre|..], "/"));
    }
    if StartsWith(Join(segs, "/"), Join(pre, "/") + "/") {
      JoinStarts(segs, pre);
    }
  }

  /** The forward half of `JoinStartsWith`. */
  lemma {:induction false} JoinStarts(segs: seq<string>, pre: seq<string>)
    requires Normal(segs) && Normal(pre) && pre != []
    requires StartsWith(Join(segs, "/"), Join(pre, "/") + "/")
    ensures |segs| > |pre| && segs[..|pre|] == pre
    decreases |pre|
  {
    var p := Join(pre, "/") + "/";
    SegmentNoSlash(pre[0]);
    ShortNoPrefix(segs, p);
    SegmentNoSlash(segs[0]);
    JoinCons(segs[0], segs[1..]);
    assert segs == [segs[0]] + segs[1..];
    var rest := Join(segs[1..], "/");
    if |pre| == 1 {
      assert p == pre[0] + "/" + "";
      SlashPrefix(segs[0], rest, pre[0], "");
    } else {
      JoinCons(pre[0], pre[1..]);
      assert pre == [pre[0]] + pre[1..];
      assert p == pre[0] + "/" + (Join(pre[1..], "/") + "/");
      SlashPrefix(segs[0], rest, pre[0], Join(pre[1..], "/") + "/");
      JoinStarts(segs[1..], pre[1..]);
      assert segs[..|pre|] == [segs[0]] + segs[1..][..|pre| - 1];
    }
  }

  /** A single segment, or none, has no `/` to match a prefix ending in
      one. */
  lemma ShortNoPrefix(segs: seq<string>, p: string)
    requires Normal(segs) && p != [] && p[|p| - 1] == '/'
    ensures |segs| <= 1 ==> !StartsWith(Join(segs, "/"), p)
  {
    if |segs| <= 1 {
      var j := Join(segs, "/");
      assert NoSlash(j) by {
        if segs != [] {
          SegmentNoSlash(segs[0]);
        }
      }
      NoSlashNotStarts(j, p, |p| - 1);
    }
  }

  /** The note directory for a spec at `dir + [name]` below the root, from
      the text that follows the stripped prefix. */
  lemma NoteDirOf(root: Path, implAbs: Path, dir: seq<string>, name: string, below: string)
    requires Normal(root) && Normal(dir) && IsSegment(name) && IsSegment(BasenameWithoutMd(implAbs))
    requires below == Join(dir + [name], "/")
    ensures JoinPath(root, Join(["docs", "impl-history", BasenameWithoutMd(implAbs), DirnameText(below)], "/"))
      == root + ["docs", "impl-history", BasenameWithoutMd(implAbs)] + dir
  {
    var lead := ["docs", "impl-history", BasenameWithoutMd(implAbs)];
    assert Normal(lead) by {
      PlainName("docs");
      PlainName("impl-history");
    }
    assert ["docs", "impl-history", BasenameWithoutMd(implAbs), DirnameText(below)] == lead + [DirnameText(below)];
    LeadDirOf(root, lead, dir, name, below);
  }

  /** Walking from the root down the leading segments and then the directory
      of a path below ends in that directory. */
  lemma LeadDirOf(root: Path, lead: seq<string>, dir: seq<string>, name: string, below: string)
    requires Normal(root) && Normal(lead) && lead != [] && Normal(dir) && IsSegment(name)
    requires below == Join(dir + [name], "/")
    ensures JoinPath(root, Join(lead + [DirnameText(below)], "/")) == root + lead + dir
  {
    SegmentNoSlash(name);
    if dir == [] {
      assert below == name;
      DirnameOfName(name);
      DotWalk(root, lead);
    } else {
      DirnameOfJoin(dir, name);
      LeadJoinWalk(root, lead, dir);
    }
  }

  /** Walking the join of the leading segments and a directory's join. */
  lemma LeadJoinWalk(root: Path, lead: seq<string>, dir: seq<string>)
    requires Normal(root) && Normal(lead) && lead != [] && Normal(dir) && dir != []
    ensures JoinPath(root, Join(lead + [Join(dir, "/")], "/")) == root + lead + dir
  {
    var all := lead + dir;
    assert Join(lead + [Join(dir, "/")], "/") == Join(all, "/") by {
      JoinSnoc(lead, Join(dir, "/"), "/");
      JoinAppend(lead, dir);
    }
    assert JoinPath(root, Join(all, "/")) == root + all by {
      assert Normal(all);
      SegmentsWalk(root, all);
    }
    assert root + all == root + lead + dir;
  }

  /** A trailing `.` leaves the walk where it was. */
  lemma DotWalk(root: Path, lead: seq<string>)
    requires Normal(lead) && lead != []
    ensures JoinPath(root, Join(lead + ["."], "/")) == root + lead
  {
    assert !Contains(".", "/") by {
      NoSlashContains(".");
    }
    var all := lead + ["."];
    assert forall i :: 0 <= i < |all| ==> !Contains(all[i], "/");
    JoinSplit(all, "/");
    WalkConcat(root, lead, ["."]);
    WalkNormal(root, lead);
  }

  /** Two texts that start with a `/`-free name and a `/` agree in their
      start only with the same name. */
  lemma SlashPrefix(a: string, x: string, b: string, y: string)
    requires NoSlash(a) && NoSlash(b)
    requires StartsWith(a + "/" + x, b + "/" + y)
    ensures a == b && StartsWith(x, y)
  {
    var s, p := a + "/" + x, b + "/" + y;
    var m := if |a| < |b| then |a| else |b|;
    assert s[m] == p[m] by {
      assert s[..|p|][m] == p[m];
    }
    assert |a| == |b|;
    assert a == b by {
      assert a == s[..|a|];
      assert b == p[..|b|];
      assert s[..|a|] == s[..|p|][..|a|];
    }
    assert x[..|y|] == y by {
      assert x[..|y|] == s[|a| + 1..|p|];
      assert y == p[|b| + 1..];
    }
  }

  /** A lone name has `.` as its directory. */
  lemma DirnameOfName(name: string)
    requires NoSlash(name) && name != ""
    ensures DirnameText(name) == "."
  {
  }

  /** The directory of joined names is the join of all but the last. */
  lemma DirnameOfJoin(dir: seq<string>, name: string)
    requires dir != [] && Normal(dir) && NoSlash(name)
    ensures DirnameText(Join(dir + [name], "/")) == Join(dir, "/")
  {
    JoinSnoc(dir, name, "/");
    var a := Join(dir, "/");
    assert a != "" by {
      JoinFirst(dir);
    }
    LastSlashAfter(a, name);
  }

  /** A join of segments starts with the first segment. */
  lemma JoinFirst(dir: seq<string>)
    requires dir != [] && Normal(dir)
    ensures |Join(dir, "/")| >= |dir[0]| > 0
  {
    if |dir| > 1 {
      JoinCons(dir[0], dir[1..]);
      assert dir == [dir[0]] + dir[1..];
    }
  }

  /** The last `/` of `a + "/" + x` with a `/`-free `x` is the one after
      `a`. */
  lemma {:induction false} LastSlashAfter(a: string, x: string)
    requires a != "" && NoSlash(x)
    ensures LastSlash(a + "/" + x) == Some(|a|)
    decreases |x|
  {
    var s := a + "/" + x;
    if x != "" {
      var x' := x[..|x| - 1];
      assert s[..|s| - 1] == a + "/" + x';
      assert s[|s| - 1] == x[|x| - 1];
      LastSlashAfter(a, x');
    }
  }

  /** The frontmatter of a new note: its own id, the type `ref-impl`, the one
      spec it implements and the implementation, each by id and path. */
  function NoteFrontmatter(newId: string, spec: FileInfo, impl: FileInfo): (fm: Frontmatter)
    ensures Keys(fm) == ["id", "type", "specs", "impl"] && UniqueKeys(fm)
    ensures Get(fm, "id") == Some(Str(newId)) && Get(fm, "type") == Some(Str("ref-impl"))
    ensures Get(fm, "specs") == Some(Seq([Ref(spec)])) && Get(fm, "impl") == Some(Ref(impl))
  {
    var fm := [("id", Str(newId)), ("type", Str("ref-impl")), ("specs", Seq([Ref(spec)])), ("impl", Ref(impl))];
    UniqueKeysIff(fm);
    assert fm[2].0 == "specs" && fm[3].0 == "impl";
    fm
  }

  /** `{id, path}` naming a document by its id and its path from the git
      root. */
  function Ref(info: FileInfo): (v: Value)
    ensures v.Map? && Get(v.entries, "id") == Some(info.id) && Get(v.entries, "path") == Some(Str(info.filePath))
    ensures Keys(v.entries) == ["id", "path"]
  {
    Map([("id", info.id), ("path", Str(info.filePath))])
  }

  /** The checks `generateImplementationNote` makes before it takes an id, in
      their order: a git root, the spec and the implementation resolved, the
      spec a `spec` or `test` document, the implementation an
      `implementation` document. */
  ghost function Checked(t: Tree, cwd: Path, yaml: Yaml, specArg: string, implArg: string)
    : Result<(Path, FileInfo, FileInfo)>
  {
    match GitRoot(t, cwd)
    case None => Err("Not in a git repository")
    case Some(root) =>
      match Resolution(t, cwd, yaml, specArg)
      case Err(e) => Err(e)
      case Ok(spec) =>
        match Resolution(t, cwd, yaml, implArg)
        case Err(e) => Err(e)
        case Ok(impl) =>
          if spec.fileType != "spec" && spec.fileType != "test" then
            Err("Spec file must be of type 'spec' or 'test', got '" + spec.fileType + "'")
          else if impl.fileType != "implementation" then
            Err("Implementation file must be of type 'implementation', got '" + impl.fileType + "'")
          else Ok((root, spec, impl))
  }

  /** The outcome of `generateImplementationNote` once the checks pass: the
      directory made, then the note written; each step can fail with what
      the file system reports, and what was made before stays. */
  function Generated(t: Tree, yaml: Yaml, newId: string, root: Path, spec: FileInfo, impl: FileInfo)
    : (Result<string>, Tree)
  {
    GeneratedIn(t, yaml, newId, NoteDir(root, impl.absolutePath, spec.absolutePath), spec, impl)
  }

  /** The same with the note's directory given: `dir` made where it is
      missing, then `new-<spec id>-impl.md` written in it. */
  function GeneratedIn(t: Tree, yaml: Yaml, newId: string, dir: Path, spec: FileInfo, impl: FileInfo)
    : (Result<string>, Tree)
  {
    var note := JoinPath(dir, NoteName(ToText(spec.id)));
    match MakeDirsIfMissing(t, dir)
    case Err(e) => (Err(e), t)
    case Ok(t1) =>
      match WriteFile(t1, note, Render(yaml, NoteFrontmatter(newId, spec, impl), Todo))
      case Err(e) => (Err(e), t1)
      case Ok(t2) => (Ok(ToString(note)), t2)
  }

  /** `generateImplementationNote`: every check comes before anything is
      taken or written; then one id is taken, the directory made and the
      note written. */
  method GenerateImplementationNote(t: Tree, cwd: Path, yaml: Yaml, ids: IdSource, specArg: string, implArg: string)
    returns (r: Result<string>, t': Tree, ids': IdSource)
    requires WellFormed(t) && Normal(cwd)
    ensures var c := Checked(t, cwd, yaml, specArg, implArg);
      c.Err? ==> r == Err(c.msg) && t' == t && ids' == ids
    ensures var c := Checked(t, cwd, yaml, specArg, implArg);
      c.Ok? ==> ids' == ids.Take().1 && (r, t') == Generated(t, yaml, ids.Take().0, c.value.0, c.value.1, c.value.2)
  {
    t', ids' := t, ids;
    var gitRoot := FindGitRoot(t, cwd);
    if gitRoot.None? {
      return Err("Not in a git repository"), t', ids';
    }
    var specInfo := ResolveFileInfo(t, cwd, yaml, specArg);
    if specInfo.Err? {
      return Err(specInfo.msg), t', ids';
    }
    var implInfo := ResolveFileInfo(t, cwd, yaml, implArg);
    if implInfo.Err? {
      return Err(implInfo.msg), t', ids';
    }
    var spec, impl := specInfo.value, implInfo.value;
    if spec.fileType != "spec" && spec.fileType != "test" {
      return Err("Spec file must be of type 'spec' or 'test', got '" + spec.fileType + "'"), t', ids';
    }
    if impl.fileType != "implementation" {
      return Err("Implementation file must be of type 'implementation', got '" + impl.fileType + "'"), t', ids';
    }
    var newId;
    newId, ids' := ids.Take().0, ids.Take().1;
    r, t' := WriteNote(t, yaml, newId, NoteDir(gitRoot.value, impl.absolutePath, spec.absolutePath), spec, impl);
  }

  /** The second half of `generateImplementationNote`: the directory made
      where it is missing, then the note written. */
  method WriteNote(t: Tree, yaml: Yaml, newId: string, dir: Path, spec: FileInfo, impl: FileInfo)
    returns (r: Result<string>, t': Tree)
    ensures (r, t') == GeneratedIn(t, yaml, newId, dir, spec, impl)
  {
    t' := t;
    var frontmatter := NoteFrontmatter(newId, spec, impl);
    if dir !in t' {
      var made := MakeDirs(t', dir);
      if made.Err? {
        return Err(made.msg), t';
      }
      t' := made.value;
    }
    var newFilePath := JoinPath(dir, NoteName(ToText(spec.id)));
    var content := Render(yaml, frontmatter, Todo);
    var written := WriteFile(t', newFilePath, content);
    if written.Err? {
      return Err(written.msg), t';
    }
    t' := written.value;
    return Ok(ToString(newFilePath)), t';
  }

  /** A successful run leaves a well-formed tree with the note at the
      returned path, whose frontmatter reads back as written, with the new id
      and the type `ref-impl`; besides the note only the directories made for
      it are new, and nothing that was there changes. */
  lemma GeneratedNote(t: Tree, yaml: Yaml, newId: string, root: Path, spec: FileInfo, impl: FileInfo)
    requires WellFormed(t) && Normal(root)
    requires DumpLoads(yaml, NoteFrontmatter(newId, spec, impl))
    ensures var (r, t') := Generated(t, yaml, newId, root, spec, impl);
      var note := NotePath(root, impl.absolutePath, spec.absolutePath, ToText(spec.id));
      r.Ok? ==>
        && r.value == ToString(note)
        && WellFormed(t')
        && IsFile(t', note)
        && Parse(yaml, t'[note].content) == Parsed(NoteFrontmatter(newId, spec, impl), Todo)
        && Get(Parse(yaml, t'[note].content).frontmatter, "id") == Some(Str(newId))
        && t'.Keys == t.Keys + Missing(t, NoteDir(root, impl.absolutePath, spec.absolutePath)) + {note}
        && (forall q :: q in t && q != note ==> t'[q] == t[q])
  {
    GeneratedInNote(t, yaml, newId, NoteDir(root, impl.absolutePath, spec.absolutePath), spec, impl);
  }

  /** The same for any normalised directory of the note. */
  lemma GeneratedInNote(t: Tree, yaml: Yaml, newId: string, dir: Path, spec: FileInfo, impl: FileInfo)
    requires WellFormed(t) && Normal(dir)
    requires DumpLoads(yaml, NoteFrontmatter(newId, spec, impl))
    ensures var (r, t') := GeneratedIn(t, yaml, newId, dir, spec, impl);
      var note := JoinPath(dir, NoteName(ToText(spec.id)));
      r.Ok? ==>
        && r.value == ToString(note)
        && WellFormed(t')
        && IsFile(t', note)
        && Parse(yaml, t'[note].content) == Parsed(NoteFrontmatter(newId, spec, impl), Todo)
        && Get(Parse(yaml, t'[note].content).frontmatter, "id") == Some(Str(newId))
        && t'.Keys == t.Keys + Missing(t, dir) + {note}
        && (forall q :: q in t && q != note ==> t'[q] == t[q])
  {
    var note := JoinPath(dir, NoteName(ToText(spec.id)));
    var fm := NoteFrontmatter(newId, spec, impl);
    if MakeDirsIfMissing(t, dir).Ok? {
      var t1 := MakeDirsIfMissing(t, dir).value;
      MakeDirsIfMissingEffect(t, dir);
      var content := Render(yaml, fm, Todo);
      if WriteFile(t1, note, content).Ok? {
        WriteFileEffect(t1, note, content);
        TodoTrimmed();
        ParseRendered(yaml, fm, Todo);
      }
    }
  }

  /** Before anything is written only the checks can fail, and each at the
      step that finds it. */
  lemma CheckedCases(t: Tree, cwd: Path, yaml: Yaml, specArg: string, implArg: string)
    ensures var c := Checked(t, cwd, yaml, specArg, implArg);
      && (GitRoot(t, cwd).None? ==> c == Err("Not in a git repository"))
      && (GitRoot(t, cwd).Some? && Resolution(t, cwd, yaml, specArg).Err? ==>
            c == Err(Resolution(t, cwd, yaml, specArg).msg))
      && (c.Ok? ==>
            && c.value.0 == GitRoot(t, cwd).value
            && Resolution(t, cwd, yaml, specArg) == Ok(c.value.1)
            && Resolution(t, cwd, yaml, implArg) == Ok(c.value.2)
            && c.value.1.fileType in {"spec", "test"}
            && c.value.2.fileType == "implementation")
  {
  }

  lemma TodoTrimmed()
    ensures IsTrimmed(Todo)
  {
    assert Todo[0] == "TODO: "[0] == 'T';
    assert Todo[|Todo| - 1] == '.';
  }

  /** A note at `docs/impl-history/<name>/...` below the git root is itself
      classified as a reference implementation. */
  lemma NoteIsRefImpl(name: string, rest: seq<string>)
    requires rest != []
    ensures Classify(Join(["docs", "impl-history", name] + rest, "/")) == "ref-impl"
  {
    var rel := Join(["docs", "impl-history", name] + rest, "/");
    var h := "impl-history";
    assert ["docs", "impl-history", name] + rest == ["docs", h] + ([name] + rest);
    assert Contains(rel, "/impl-history/") by {
      TwoFolders("docs", h, [name] + rest);
      HistorySlashes();
    }
    assert rel != "docs/README.md" by {
      TwoFolders("docs", h, [name] + rest);
      assert rel[5] == h[0] == 'i';
      assert "docs/README.md"[5] == 'R';
    }
    assert !StartsWith(rel, "docs/impls/") by {
      TwoFolders("docs", h, [name] + rest);
      assert rel[9] == h[4] == '-';
      assert "docs/impls/"[9] == 's';
      if |rel| >= 11 {
        assert rel[..11][9] == rel[9];
      }
    }
  }

  lemma HistorySlashes()
    ensures "/" + "impl-history" + "/" == "/impl-history/"
  {
  }

  /** The join of two folders and more names shows the second folder between
      slashes, right after the first. */
  lemma TwoFolders(a: string, b: string, ys: seq<string>)
    requires ys != []
    ensures var s := Join([a, b] + ys, "/");
      && Contains(s, "/" + b + "/")
      && |s| > |a| + 1 + |b|
      && s[|a| + 1..|a| + 1 + |b|] == b
  {
    var tail := Join(ys, "/");
    JoinCons(b, ys);
    JoinCons(a, [b] + ys);
    assert [a, b] + ys == [a] + ([b] + ys);
    var s := Join([a, b] + ys, "/");
    assert s == a + ("/" + b + "/") + tail;
    assert s[|a|..|a| + |b| + 2] == "/" + b + "/";
    assert OccursAt(s, "/" + b + "/", |a|);
  }

  /** The validation hook of `impl record-commits`: only reference
      implementation notes take implementation commits. */
  function RefImplOnly(info: FileInfo): (r: Option<string>)
    ensures r.None? <==> info.fileType == "ref-impl"
    ensures r.Some? ==> r.value == RefImplMessage(info)
  {
    if info.fileType != "ref-impl" then Some(RefImplMessage(info)) else None
  }

  /** Why `impl record-commits` refuses a document: its label, id and path
      from the git root, and the kind of document it is. */
  function RefImplMessage(info: FileInfo): string {
    "Error: Implementation commits have to be added to implementation files. The file you entered, "
      + Label(info.fileType) + " " + ToText(info.id) + " at " + Drop1(info.filePath) + ", is a "
      + Description(info.fileType) + " file."
  }

  /** `s.substring(1)`: everything after the first character; empty for an
      empty text. */
  function Drop1(s: string): (r: string)
    ensures s != "" ==> [s[0]] + r == s
    ensures s == "" ==> r == ""
  {
    if s == "" then "" else s[1..]
  }

  /** `impl record-commits`: the shared recording routine with the
      reference-implementation check. A document of another type is refused
      before git is asked, and nothing is written. */
  method RecordCommits(t: Tree, cwd: Path, yaml: Yaml, h: Helpers, isGitRepo: bool, gitLog: Result<string>, idOrPath: string)
    returns (r: Result<()>, t': Tree)
    requires WellFormed(t) && Normal(cwd)
    ensures r.Err? ==> t' == t
    ensures r.Ok? ==>
      isGitRepo && Resolution(t, cwd, yaml, idOrPath).Ok? && gitLog.Ok?
      && Resolution(t, cwd, yaml, idOrPath).value.fileType == "ref-impl"
      && IsFile(t, Resolution(t, cwd, yaml, idOrPath).value.absolutePath)
    ensures var res := Resolution(t, cwd, yaml, idOrPath);
      isGitRepo && res.Ok? && res.value.fileType != "ref-impl" ==> r == Err(RefImplOnly(res.value).value)
    ensures var res := Resolution(t, cwd, yaml, idOrPath);
      r.Ok? ==>
        var abs := res.value.absolutePath;
        var parsed := Parse(yaml, t[abs].content);
        t' == t[abs := File(h.serialize(h.addCommits(parsed.frontmatter, ParseGitLog(gitLog.value)), parsed.body))]
    ensures var res := Resolution(t, cwd, yaml, idOrPath);
      r.Ok? && Prepends(h) ==>
        var parsed := Parse(yaml, t[res.value.absolutePath].content);
        CommitsPrepended(parsed.frontmatter, ParseGitLog(gitLog.value),
                         h.addCommits(parsed.frontmatter, ParseGitLog(gitLog.value)))
  {
    r, t' := RecordCommitsToFile(t, cwd, yaml, h, isGitRepo, gitLog, idOrPath, RefImplOnly);
  }
}
