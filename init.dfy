/** `zamm init scripts`: the implementation file is resolved and checked to
    be an implementation inside the docs directory, the language model turns
    it into setup and build commands, and the two worktree scripts and the
    agent command files are written from their templates below the git root
    with the placeholders filled in. The docs directory is given as what
    `getDocsDirectory` answers, the templates as their text, and the two
    command generators of the language model as functions. */
module InitScripts {
  import opened Wrappers
  import opened Strings
  import opened Paths
  import opened FileSystem
  import opened Types
  import opened Envelope
  import opened FileResolver
  import opened FileUtils

  const SetupPlaceholder := "{{WORKTREE_SETUP_COMMANDS}}"
  const BuildPlaceholder := "{{WORKTREE_BUILD_COMMANDS}}"
  const ImplPlaceholder := "{{IMPL_PATH}}"
  const DefaultSetup := "# No implementation-specific setup required"
  const DefaultBuild := "# No implementation-specific post-worktree steps required"

  /** `replacePlaceholder`: `content.split(placeholder).join(replacement)`. */
  function ReplacePlaceholder(content: string, placeholder: string, replacement: string): string
    requires placeholder != []
  {
    ReplaceAll(content, placeholder, replacement)
  }

  /** Every occurrence is replaced: the text is its placeholder-free pieces
      joined by the placeholder, and the result is the same pieces joined by
      the replacement. */
  lemma ReplaceEvery(content: string, placeholder: string, replacement: string)
    requires placeholder != []
    ensures var pieces := Strings.Split(content, placeholder);
      && (forall i :: 0 <= i < |pieces| ==> !Contains(pieces[i], placeholder))
      && Join(pieces, placeholder) == content
      && ReplacePlaceholder(content, placeholder, replacement) == Join(pieces, replacement)
  {
    SplitJoin(content, placeholder);
  }

  /** Text without the placeholder is left as it is. */
  lemma ReplaceAbsent(content: string, placeholder: string, replacement: string)
    requires placeholder != [] && !Contains(content, placeholder)
    ensures ReplacePlaceholder(content, placeholder, replacement) == content
  {
    ReplaceAllAbsent(content, placeholder, replacement);
  }

  /** `path.isAbsolute` of a relative path's text. */
  predicate IsAbsolute(rel: string) {
    StartsWith(rel, "/")
  }

  /** The containment test of `ensureInsideDirectory` as written: a relative
      path that starts with `..` or is absolute is outside. */
  predicate OutsideAsWritten(rel: string) {
    StartsWith(rel, "..") || IsAbsolute(rel)
  }

  /** The containment test as intended: the relative path climbs out, that
      is its first segment is `..`, or it is absolute. */
  predicate Outside(rel: string) {
    rel == ".." || StartsWith(rel, "../") || IsAbsolute(rel)
  }

  function OutsideMessage(directory: Path): string {
    "Implementation file must reside within the docs directory (" + ToString(directory) + ")"
  }

  /** `ensureInsideDirectory` as written. */
  function EnsureInsideAsWritten(file: Path, directory: Path): Result<()> {
    if OutsideAsWritten(Relative(directory, file)) then Err(OutsideMessage(directory)) else Ok(())
  }

  /** `ensureInsideDirectory` with the intended test. */
  function EnsureInside(file: Path, directory: Path): Result<()> {
    if Outside(Relative(directory, file)) then Err(OutsideMessage(directory)) else Ok(())
  }

  /** A file below the docs directory whose first folder begins with `..`
      (here `..drafts`) is refused by the test as written. */
  lemma InsideRefused(directory: Path)
    ensures var file := directory + ["..drafts", "impl.md"];
      IsPrefix(directory, file) && EnsureInsideAsWritten(file, directory).Err?
  {
    var file := directory + ["..drafts", "impl.md"];
    assert file[..|directory|] == directory;
    RelativeBelow(directory, file);
    assert file[|directory|..] == ["..drafts", "impl.md"];
    var rel := Join(["..drafts", "impl.md"], "/");
    assert ["..drafts", "impl.md"][1..] == ["impl.md"];
    assert rel == "..drafts" + "/" + "impl.md";
    assert rel[..2] == "..";
  }

  /** The intended test accepts exactly the files below the directory. */
  lemma EnsureInsideIff(file: Path, directory: Path)
    requires Normal(file)
    ensures EnsureInside(file, directory).Ok? <==> IsPrefix(directory, file)
  {
    var c := CommonPrefixLength(directory, file);
    var segs := Ups(|directory| - c) + file[c..];
    CommonIsPrefix(directory, file);
    if IsPrefix(directory, file) {
      assert segs == file[|directory|..];
      NormalNotOutside(segs);
    } else {
      assert segs[0] == "..";
      UpOutside(segs);
    }
  }

  /** The common part of two paths is all of the first exactly when the
      first is a prefix of the second. */
  lemma {:induction false} CommonIsPrefix(a: Path, b: Path)
    ensures CommonPrefixLength(a, b) == |a| <==> IsPrefix(a, b)
    decreases |a|
  {
    if CommonPrefixLength(a, b) == |a| {
      assert a[..|a|] == a;
    }
    if IsPrefix(a, b) && a != [] {
      assert a[0] == b[0];
      assert IsPrefix(a[1..], b[1..]) by {
        assert b[1..][..|a[1..]|] == b[..|a|][1..];
      }
      CommonIsPrefix(a[1..], b[1..]);
    }
  }

  /** Segments joined with `/` do not climb out and are not absolute. */
  lemma NormalNotOutside(segs: seq<string>)
    requires Normal(segs)
    ensures !Outside(Join(segs, "/"))
  {
    if segs != [] {
      var s0 := segs[0];
      SegmentNoSlash(s0);
      var j := Join(segs, "/");
      if |segs| == 1 {
        NoSlashNotStarts(s0, "../", 2);
        NoSlashNotStarts(s0, "/", 0);
      } else {
        assert j == s0 + "/" + Join(segs[1..], "/");
        assert j[0] == s0[0] && j[|s0|] == '/';
        if |s0| >= 3 {
          assert j[..3][2] == s0[2];
        } else if |s0| == 2 {
          assert j[..3][..2] == s0;
        } else {
          assert j[..3][1] == '/';
        }
      }
    }
  }

  /** Segments that begin with `..` climb out. */
  lemma UpOutside(segs: seq<string>)
    requires segs != [] && segs[0] == ".."
    ensures Outside(Join(segs, "/"))
  {
    if |segs| > 1 {
      var j := Join(segs, "/");
      assert j == ".." + "/" + Join(segs[1..], "/");
      assert j[..3] == "../";
    }
  }

  /** `toPosixRelativePath`: the relative path with its segments joined by
      `/` (on POSIX the separator already is `/`). */
  function ToPosixRelativePath(root: Path, target: Path): string {
    Join(Strings.Split(Relative(root, target), "/"), "/")
  }

  /** Below the root, it is the segments below the root joined with `/`. */
  lemma PosixBelow(root: Path, segs: seq<string>)
    ensures ToPosixRelativePath(root, root + segs) == Join(segs, "/")
  {
    assert (root + segs)[..|root|] == root;
    RelativeBelow(root, root + segs);
    assert (root + segs)[|root|..] == segs;
    SplitJoin(Relative(root, root + segs), "/");
  }

  /** The commands the language model answered, trimmed, or the default
      comment when the answer is blank. */
  function Commands(response: string, default: string): string {
    var normalized := Trim(response);
    if normalized != "" then normalized else default
  }

  /** A trimmed text is empty exactly when the text is white space. */
  lemma TrimBlank(s: string)
    ensures Trim(s) == "" <==> AllSpace(s)
  {
    TrimShape(s);
    if Trim(s) == "" {
      var k :| 0 <= k <= |s| && AllSpace(s[..k]) && AllSpace(s[k..]);
      assert AllSpace(s) by {
        forall i | 0 <= i < |s| ensures IsSpace(s[i]) {
          if i < k {
            assert s[i] == s[..k][i];
          } else {
            assert s[i] == s[k..][i - k];
          }
        }
      }
    }
    if AllSpace(s) {
      AllSpaceTrimStart(s);
    }
  }

  /** A non-blank answer is used without the white space around it (what
      `Trim` removes is stated by `TrimShape`); a blank one is replaced by the
      default. */
  lemma CommandsMeaning(response: string, default: string)
    ensures var c := Commands(response, default);
      && (AllSpace(response) ==> c == default)
      && (!AllSpace(response) ==> c == Trim(response) && c != "" && IsTrimmed(c))
  {
    TrimShape(response);
    TrimBlank(response);
  }

  /** The two command generators of the language model, each given the
      implementation file's text. */
  datatype Llm = Llm(setup: string -> string, build: string -> string)

  /** A command template shipped with the package: its file name and text. */
  datatype Template = Template(name: string, content: string)

  /** The shipped templates: the two worktree scripts and the command files
      the template directory lists, in the order it lists them. */
  datatype Resources = Resources(start: string, end: string, commands: seq<Template>)

  /** `writeFileEnsuringDir`: make the parent folder, then write. Folders
      made before a failed write stay made. */
  function WriteEnsuringDir(t: Tree, p: Path, content: string): (Result<()>, Tree) {
    match MakeDirs(t, Dirname(p))
    case Err(e) => (Err(e), t)
    case Ok(t1) =>
      match WriteFile(t1, p, content)
      case Err(e) => (Err(e), t1)
      case Ok(t2) => (Ok(()), t2)
  }

  /** On success the file holds the text, the folders on the way that were
      missing are made, and nothing else changes. */
  lemma WriteEnsuringDirEffect(t: Tree, p: Path, content: string)
    requires WriteEnsuringDir(t, p, content).0.Ok?
    ensures var t' := WriteEnsuringDir(t, p, content).1;
      && t' == MakeDirs(t, Dirname(p)).value[p := File(content)]
      && t'.Keys == t.Keys + Missing(t, Dirname(p)) + {p}
      && (forall q :: q in t && q != p ==> t'[q] == t[q])
  {
  }

  /** `installDevScripts`: both scripts are filled in and checked before
      either is written. */
  function DevScripts(t: Tree, dev: Path, start: string, end: string, setup: string, build: string): (Result<()>, Tree) {
    var startText := ReplacePlaceholder(start, SetupPlaceholder, setup);
    var endText := ReplacePlaceholder(end, BuildPlaceholder, build);
    if Contains(startText, SetupPlaceholder) then
      (Err("Failed to replace worktree setup placeholder in template"), t)
    else if Contains(endText, BuildPlaceholder) then
      (Err("Failed to replace post-worktree placeholder in template"), t)
    else
      var (r1, t1) := WriteEnsuringDir(t, dev + ["start-worktree.sh"], startText);
      if r1.Err? then (r1, t1)
      else WriteEnsuringDir(t1, dev + ["end-worktree.sh"], endText)
  }

  function CommandResidue(name: string): string {
    "Failed to replace implementation path placeholder in template " + name
  }

  /** One pass of the loop of `installClaudeCommands`: the template is
      filled in, checked and written below the commands folder. */
  function CommandStep(t: Tree, dir: Path, implPath: string, e: Template): (Result<()>, Tree) {
    var text := ReplacePlaceholder(e.content, ImplPlaceholder, implPath);
    if Contains(text, ImplPlaceholder) then (Err(CommandResidue(e.name)), t)
    else WriteEnsuringDir(t, JoinPath(dir, e.name), text)
  }

  /** `installClaudeCommands`: the templates in turn; the first failure
      stops the loop with the earlier files written. */
  function CommandsInstalled(t: Tree, dir: Path, implPath: string, entries: seq<Template>): (Result<()>, Tree)
    decreases |entries|
  {
    if entries == [] then (Ok(()), t)
    else
      var (r1, t1) := CommandStep(t, dir, implPath, entries[0]);
      if r1.Err? then (r1, t1)
      else CommandsInstalled(t1, dir, implPath, entries[1..])
  }

  /** A file that `t'` holds and `t` did not hold with the same text. */
  predicate Written(t: Tree, t': Tree, p: Path) {
    p in t' && t'[p].File? && (p !in t || t[p] != t'[p])
  }

  /** What is written across two steps is written by the second, or by the
      first and kept by the second. */
  lemma WrittenThrough(t: Tree, t1: Tree, t2: Tree, p: Path)
    requires Written(t, t2, p)
    ensures Written(t1, t2, p) || (Written(t, t1, p) && t1[p] == t2[p])
  {
  }

  /** Writing with its folders writes the one file only. */
  lemma WriteEnsuringDirWrites(t: Tree, p: Path, content: string)
    ensures var (r, t') := WriteEnsuringDir(t, p, content);
      forall q :: Written(t, t', q) ==> q == p && r.Ok? && t'[q] == File(content)
  {
    var (r, t') := WriteEnsuringDir(t, p, content);
    forall q | Written(t, t', q) ensures q == p && r.Ok? && t'[q] == File(content) {
      if MakeDirs(t, Dirname(p)).Ok? {
        var t1 := MakeDirs(t, Dirname(p)).value;
        assert !Written(t, t1, q) by {
          if q in t1 && q !in t {
            assert q in Missing(t, Dirname(p));
          }
        }
      }
    }
  }

  /** `content` at `p` is one of the worktree scripts below `dev`, free of
      its placeholder. */
  predicate DevClean(dev: Path, p: Path, content: string) {
    || (p == dev + ["start-worktree.sh"] && !Contains(content, SetupPlaceholder))
    || (p == dev + ["end-worktree.sh"] && !Contains(content, BuildPlaceholder))
  }

  /** The worktree scripts hold no placeholder: what `installDevScripts`
      writes is the start script without the setup placeholder or the end
      script without the build placeholder. */
  lemma DevScriptsClean(t: Tree, dev: Path, start: string, end: string, setup: string, build: string, p: Path)
    requires Written(t, DevScripts(t, dev, start, end, setup, build).1, p)
    ensures DevClean(dev, p, DevScripts(t, dev, start, end, setup, build).1[p].content)
  {
    var startText := ReplacePlaceholder(start, SetupPlaceholder, setup);
    var endText := ReplacePlaceholder(end, BuildPlaceholder, build);
    var sp := dev + ["start-worktree.sh"];
    var ep := dev + ["end-worktree.sh"];
    var (r1, t1) := WriteEnsuringDir(t, sp, startText);
    WriteEnsuringDirWrites(t, sp, startText);
    if !Contains(startText, SetupPlaceholder) && !Contains(endText, BuildPlaceholder) && r1.Ok? {
      var (r2, t2) := WriteEnsuringDir(t1, ep, endText);
      WriteEnsuringDirWrites(t1, ep, endText);
      assert DevScripts(t, dev, start, end, setup, build).1 == t2;
      WrittenThrough(t, t1, t2, p);
    }
  }

  /** A residue in either script stops `installDevScripts` before anything
      is written. */
  lemma DevResidue(t: Tree, dev: Path, start: string, end: string, setup: string, build: string)
    requires Contains(ReplacePlaceholder(start, SetupPlaceholder, setup), SetupPlaceholder)
             || Contains(ReplacePlaceholder(end, BuildPlaceholder, build), BuildPlaceholder)
    ensures DevScripts(t, dev, start, end, setup, build).0.Err?
    ensures DevScripts(t, dev, start, end, setup, build).1 == t
  {
  }

  /** Where the command templates are written. */
  function Targets(dir: Path, entries: seq<Template>): set<Path> {
    set e | e in entries :: JoinPath(dir, e.name)
  }

  /** One pass writes only its target, free of the placeholder. */
  lemma StepWrites(t: Tree, dir: Path, implPath: string, e: Template, p: Path)
    requires Written(t, CommandStep(t, dir, implPath, e).1, p)
    ensures p == JoinPath(dir, e.name)
    ensures !Contains(CommandStep(t, dir, implPath, e).1[p].content, ImplPlaceholder)
  {
    var text := ReplacePlaceholder(e.content, ImplPlaceholder, implPath);
    WriteEnsuringDirWrites(t, JoinPath(dir, e.name), text);
  }

  /** One pass keeps every other entry. */
  lemma StepKeeps(t: Tree, dir: Path, implPath: string, e: Template, q: Path)
    requires q in t && q != JoinPath(dir, e.name)
    ensures q in CommandStep(t, dir, implPath, e).1 && CommandStep(t, dir, implPath, e).1[q] == t[q]
  {
  }

  /** The command files hold no placeholder: whatever the loop writes is
      the target of one of the templates and is free of the placeholder. */
  lemma {:induction false} CommandsClean(t: Tree, dir: Path, implPath: string, entries: seq<Template>, p: Path)
    requires Written(t, CommandsInstalled(t, dir, implPath, entries).1, p)
    ensures p in Targets(dir, entries)
    ensures !Contains(CommandsInstalled(t, dir, implPath, entries).1[p].content, ImplPlaceholder)
    decreases |entries|
  {
    var e := entries[0];
    var rest := entries[1..];
    var (r1, t1) := CommandStep(t, dir, implPath, e);
    assert JoinPath(dir, e.name) in Targets(dir, entries);
    if r1.Ok? {
      var t' := CommandsInstalled(t1, dir, implPath, rest).1;
      assert CommandsInstalled(t, dir, implPath, entries).1 == t';
      WrittenThrough(t, t1, t', p);
      if Written(t1, t', p) {
        CommandsClean(t1, dir, implPath, rest, p);
        assert forall f :: f in rest ==> f in entries;
      } else {
        StepWrites(t, dir, implPath, e, p);
      }
    } else {
      StepWrites(t, dir, implPath, e, p);
    }
  }

  /** The loop leaves alone every entry that is not one of its targets. */
  lemma {:induction false} CommandsFrame(t: Tree, dir: Path, implPath: string, entries: seq<Template>, q: Path)
    requires q in t && q !in Targets(dir, entries)
    ensures var t' := CommandsInstalled(t, dir, implPath, entries).1;
      q in t' && t'[q] == t[q]
    decreases |entries|
  {
    if entries != [] {
      var e := entries[0];
      var rest := entries[1..];
      assert JoinPath(dir, e.name) in Targets(dir, entries);
      var (r1, t1) := CommandStep(t, dir, implPath, e);
      StepKeeps(t, dir, implPath, e, q);
      if r1.Ok? {
        assert q !in Targets(dir, rest) by {
          assert forall f :: f in rest ==> f in entries;
        }
        CommandsFrame(t1, dir, implPath, rest, q);
      }
    }
  }

  /** Names that are plain file names, none of them twice. */
  predicate DistinctNames(entries: seq<Template>) {
    && (forall k :: 0 <= k < |entries| ==> IsSegment(entries[k].name))
    && (forall i, j :: 0 <= i < j < |entries| ==> entries[i].name != entries[j].name)
  }

  /** After a complete run every template's file holds that template with
      the implementation path filled in. */
  lemma {:induction false} CommandsWritten(t: Tree, dir: Path, implPath: string, entries: seq<Template>)
    requires CommandsInstalled(t, dir, implPath, entries).0.Ok?
    requires DistinctNames(entries)
    ensures var t' := CommandsInstalled(t, dir, implPath, entries).1;
      forall k :: 0 <= k < |entries| ==>
        dir + [entries[k].name] in t'
        && t'[dir + [entries[k].name]] == File(ReplacePlaceholder(entries[k].content, ImplPlaceholder, implPath))
    decreases |entries|
  {
    if entries != [] {
      var e := entries[0];
      var rest := entries[1..];
      var text := ReplacePlaceholder(e.content, ImplPlaceholder, implPath);
      JoinName(dir, e.name);
      var target := dir + [e.name];
      var (r1, t1) := CommandStep(t, dir, implPath, e);
      assert t1 == WriteEnsuringDir(t, target, text).1;
      WriteEnsuringDirEffect(t, target, text);
      var t' := CommandsInstalled(t1, dir, implPath, rest).1;
      assert DistinctNames(rest) by {
        forall i, j | 0 <= i < j < |rest| ensures rest[i].name != rest[j].name {
          assert rest[i] == entries[i + 1] && rest[j] == entries[j + 1];
        }
      }
      CommandsWritten(t1, dir, implPath, rest);
      assert target !in Targets(dir, rest) by {
        forall f | f in rest ensures JoinPath(dir, f.name) != target {
          var j :| 0 <= j < |rest| && rest[j] == f;
          assert f == entries[j + 1];
          JoinName(dir, f.name);
        }
      }
      CommandsFrame(t1, dir, implPath, rest, target);
      forall k | 0 <= k < |entries|
        ensures dir + [entries[k].name] in t'
          && t'[dir + [entries[k].name]] == File(ReplacePlaceholder(entries[k].content, ImplPlaceholder, implPath))
      {
        if k > 0 {
          assert entries[k] == rest[k - 1];
        }
      }
    }
  }

  /** The loop runs to the end when the path shares no character with the
      placeholder, the folder can be made and no folder stands where a file
      goes. */
  lemma {:induction false} CommandsSucceed(t: Tree, dir: Path, implPath: string, entries: seq<Template>)
    requires MakeDirs(t, dir).Ok?
    requires implPath != [] && CharsDisjoint(ImplPlaceholder, implPath)
    requires forall k :: 0 <= k < |entries| ==> IsSegment(entries[k].name) && !IsDir(t, dir + [entries[k].name])
    ensures CommandsInstalled(t, dir, implPath, entries).0.Ok?
    decreases |entries|
  {
    if entries != [] {
      var e := entries[0];
      var rest := entries[1..];
      var text := ReplacePlaceholder(e.content, ImplPlaceholder, implPath);
      ReplaceAllRemoves(e.content, ImplPlaceholder, implPath);
      JoinName(dir, e.name);
      var target := dir + [e.name];
      assert Dirname(target) == dir;
      var t0 := MakeDirs(t, dir).value;
      assert target !in Missing(t, dir);
      var t1 := t0[target := File(text)];
      assert WriteEnsuringDir(t, target, text) == (Ok(()), t1);
      assert CommandStep(t, dir, implPath, e) == (Ok(()), t1);
      forall k | 0 <= k < |rest| ensures IsSegment(rest[k].name) && !IsDir(t1, dir + [rest[k].name]) {
        assert rest[k] == entries[k + 1];
        assert dir + [rest[k].name] !in Missing(t, dir);
      }
      CommandsSucceed(t1, dir, implPath, rest);
    }
  }

  const MissingImpl := "Missing required option: --impl <IMPL_ID_OR_PATH>"

  function TypeMessage(fileType: string): string {
    "Implementation file must be of type 'implementation', got '" + fileType + "'"
  }

  /** What `fs.realpathSync` fails with on a missing folder. */
  function RealpathError(p: Path): string {
    "ENOENT: no such file or directory, lstat '" + ToString(p) + "'"
  }

  /** The checks before anything is generated, in their order: the option,
      the git root, the docs folder, the resolution of the file (`resolved`,
      what `resolveFileInfo` answers), its type and then its place. On
      success: the git root, the docs folder and the file. */
  function Checked(t: Tree, cwd: Path, docs: Result<Path>, idOrPath: string, resolved: Result<FileInfo>)
    : Result<(Path, Path, FileInfo)>
  {
    if idOrPath == "" then Err(MissingImpl)
    else match GitRoot(t, cwd)
      case None => Err("Not in a git repository")
      case Some(root) =>
        if docs.Err? then Err(docs.msg)
        else if docs.value !in t then Err(RealpathError(docs.value))
        else
          match resolved
          case Err(e) => Err(e)
          case Ok(info) =>
            if info.fileType != "implementation" then Err(TypeMessage(info.fileType))
            else
              match EnsureInside(info.absolutePath, docs.value)
              case Err(e) => Err(e)
              case Ok(_) => Ok((root, docs.value, info))
  }

  /** The checks pass exactly when an id or path is given, there is a git
      root and a docs folder, and the file resolves to an implementation
      below the docs folder. */
  lemma CheckedMeaning(t: Tree, cwd: Path, docs: Result<Path>, idOrPath: string, resolved: Result<FileInfo>)
    requires resolved.Ok? ==> Normal(resolved.value.absolutePath)
    ensures var r := Checked(t, cwd, docs, idOrPath, resolved);
      r.Ok? <==>
        && idOrPath != ""
        && GitRoot(t, cwd).Some?
        && docs.Ok? && docs.value in t
        && resolved.Ok? && resolved.value.fileType == "implementation"
        && IsPrefix(docs.value, resolved.value.absolutePath)
  {
    if resolved.Ok? && docs.Ok? {
      EnsureInsideIff(resolved.value.absolutePath, docs.value);
    }
  }

  /** A missing option is reported before the git root is looked for, and a
      file of another type is reported as such wherever it lies. */
  lemma CheckOrder(t: Tree, cwd: Path, docs: Result<Path>, idOrPath: string, resolved: Result<FileInfo>)
    ensures idOrPath == "" ==> Checked(t, cwd, docs, idOrPath, resolved) == Err(MissingImpl)
    ensures (idOrPath != "" && GitRoot(t, cwd).Some? && docs.Ok? && docs.value in t
             && resolved.Ok? && resolved.value.fileType != "implementation") ==>
        Checked(t, cwd, docs, idOrPath, resolved) == Err(TypeMessage(resolved.value.fileType))
  {
  }

  function DevDir(root: Path): Path {
    root + ["dev"]
  }

  function CommandsDir(root: Path): Path {
    root + [".claude", "commands"]
  }

  /** `installInitScripts`, given what `resolveFileInfo` answers: the checks,
      then the generated commands, the worktree scripts and the command
      files. On success: the dev folder and the commands folder. */
  function Installed(t: Tree, cwd: Path, docs: Result<Path>, idOrPath: string, resolved: Result<FileInfo>,
                     llm: Llm, res: Resources): (Result<(Path, Path)>, Tree)
  {
    match Checked(t, cwd, docs, idOrPath, resolved)
    case Err(e) => (Err(e), t)
    case Ok((root, _, info)) =>
      match ReadFile(t, info.absolutePath)
      case Err(e) => (Err(e), t)
      case Ok(content) => Deployed(t, root, info.absolutePath, content, llm, res)
  }

  /** What follows the checks: the commands generated from the text of the
      implementation file at `abs`, the worktree scripts below the git root
      `root`, and the command files. */
  function Deployed(t: Tree, root: Path, abs: Path, content: string, llm: Llm, res: Resources)
    : (Result<(Path, Path)>, Tree)
  {
    var setup := Commands(llm.setup(content), DefaultSetup);
    var build := Commands(llm.build(content), DefaultBuild);
    var (r1, t1) := DevScripts(t, DevDir(root), res.start, res.end, setup, build);
    if r1.Err? then (Err(r1.msg), t1)
    else
      var (r2, t2) := CommandsInstalled(t1, CommandsDir(root), ToPosixRelativePath(root, abs), res.commands);
      if r2.Err? then (Err(r2.msg), t2)
      else (Ok((DevDir(root), CommandsDir(root))), t2)
  }

  /** A failed check leaves the tree as it was. */
  lemma ChecksFirst(t: Tree, cwd: Path, docs: Result<Path>, idOrPath: string, resolved: Result<FileInfo>,
                    llm: Llm, res: Resources)
    requires Checked(t, cwd, docs, idOrPath, resolved).Err?
    ensures Installed(t, cwd, docs, idOrPath, resolved, llm, res)
      == (Err(Checked(t, cwd, docs, idOrPath, resolved).msg), t)
  {
  }

  /** `content` at `p` is a worktree script or a command file below the git
      root `root`, free of its placeholder. */
  predicate CleanFile(root: Path, commands: seq<Template>, p: Path, content: string) {
    || DevClean(DevDir(root), p, content)
    || (p in Targets(CommandsDir(root), commands) && !Contains(content, ImplPlaceholder))
  }

  /** No file written by the command holds the placeholder meant for it:
      what it writes is the start script without the setup placeholder, the
      end script without the build placeholder, or a command file without
      the implementation path placeholder. */
  lemma InstalledClean(t: Tree, cwd: Path, docs: Result<Path>, idOrPath: string, resolved: Result<FileInfo>,
                       llm: Llm, res: Resources, p: Path)
    requires Written(t, Installed(t, cwd, docs, idOrPath, resolved, llm, res).1, p)
    ensures GitRoot(t, cwd).Some?
    ensures CleanFile(GitRoot(t, cwd).value, res.commands, p,
                      Installed(t, cwd, docs, idOrPath, resolved, llm, res).1[p].content)
  {
    var c := Checked(t, cwd, docs, idOrPath, resolved);
    if c.Ok? && ReadFile(t, c.value.2.absolutePath).Ok? {
      var (root, _, info) := c.value;
      assert root == GitRoot(t, cwd).value;
      DeployedClean(t, root, info.absolutePath, ReadFile(t, info.absolutePath).value, llm, res, p);
    }
  }

  /** `InstalledClean` for the steps after the checks. */
  lemma DeployedClean(t: Tree, root: Path, abs: Path, content: string, llm: Llm, res: Resources, p: Path)
    requires Written(t, Deployed(t, root, abs, content, llm, res).1, p)
    ensures CleanFile(root, res.commands, p, Deployed(t, root, abs, content, llm, res).1[p].content)
  {
    var setup := Commands(llm.setup(content), DefaultSetup);
    var build := Commands(llm.build(content), DefaultBuild);
    var (r1, t1) := DevScripts(t, DevDir(root), res.start, res.end, setup, build);
    if r1.Ok? {
      var implPath := ToPosixRelativePath(root, abs);
      var t2 := CommandsInstalled(t1, CommandsDir(root), implPath, res.commands).1;
      assert Deployed(t, root, abs, content, llm, res).1 == t2;
      WrittenThrough(t, t1, t2, p);
      if Written(t1, t2, p) {
        CommandsClean(t1, CommandsDir(root), implPath, res.commands, p);
      } else {
        DevScriptsClean(t, DevDir(root), res.start, res.end, setup, build, p);
      }
    } else {
      DevScriptsClean(t, DevDir(root), res.start, res.end, setup, build, p);
    }
  }

  /** A complete run of `installDevScripts` leaves each script holding its
      filled-in template. */
  lemma DevScriptsWritten(t: Tree, dev: Path, start: string, end: string, setup: string, build: string)
    requires DevScripts(t, dev, start, end, setup, build).0.Ok?
    ensures var t' := DevScripts(t, dev, start, end, setup, build).1;
      && dev + ["start-worktree.sh"] in t'
      && t'[dev + ["start-worktree.sh"]] == File(ReplacePlaceholder(start, SetupPlaceholder, setup))
      && dev + ["end-worktree.sh"] in t'
      && t'[dev + ["end-worktree.sh"]] == File(ReplacePlaceholder(end, BuildPlaceholder, build))
  {
    var sp := dev + ["start-worktree.sh"];
    var ep := dev + ["end-worktree.sh"];
    var startText := ReplacePlaceholder(start, SetupPlaceholder, setup);
    var endText := ReplacePlaceholder(end, BuildPlaceholder, build);
    var (r1, t1) := WriteEnsuringDir(t, sp, startText);
    WriteEnsuringDirEffect(t, sp, startText);
    WriteEnsuringDirEffect(t1, ep, endText);
  }

  /** After a complete run the two scripts hold their templates with the
      generated commands (or the default comments), every command file holds
      its template with the implementation's path relative to the git root,
      and the dev and commands folders are reported. */
  lemma DeployedFiles(t: Tree, root: Path, abs: Path, content: string, llm: Llm, res: Resources)
    requires Deployed(t, root, abs, content, llm, res).0.Ok?
    requires DistinctNames(res.commands)
    ensures var (r, t') := Deployed(t, root, abs, content, llm, res);
      var implPath := ToPosixRelativePath(root, abs);
      && r.value == (DevDir(root), CommandsDir(root))
      && DevDir(root) + ["start-worktree.sh"] in t'
      && t'[DevDir(root) + ["start-worktree.sh"]]
         == File(ReplacePlaceholder(res.start, SetupPlaceholder, Commands(llm.setup(content), DefaultSetup)))
      && DevDir(root) + ["end-worktree.sh"] in t'
      && t'[DevDir(root) + ["end-worktree.sh"]]
         == File(ReplacePlaceholder(res.end, BuildPlaceholder, Commands(llm.build(content), DefaultBuild)))
      && forall k :: 0 <= k < |res.commands| ==>
           CommandsDir(root) + [res.commands[k].name] in t'
           && t'[CommandsDir(root) + [res.commands[k].name]]
              == File(ReplacePlaceholder(res.commands[k].content, ImplPlaceholder, implPath))
  {
    var setup := Commands(llm.setup(content), DefaultSetup);
    var build := Commands(llm.build(content), DefaultBuild);
    var (r1, t1) := DevScripts(t, DevDir(root), res.start, res.end, setup, build);
    DevScriptsWritten(t, DevDir(root), res.start, res.end, setup, build);
    var dir := CommandsDir(root);
    var implPath := ToPosixRelativePath(root, abs);
    CommandsWritten(t1, dir, implPath, res.commands);
    var sp := DevDir(root) + ["start-worktree.sh"];
    var ep := DevDir(root) + ["end-worktree.sh"];
    assert sp !in Targets(dir, res.commands) && ep !in Targets(dir, res.commands) by {
      forall e | e in res.commands ensures JoinPath(dir, e.name) != sp && JoinPath(dir, e.name) != ep {
        var k :| 0 <= k < |res.commands| && res.commands[k] == e;
        JoinName(dir, e.name);
        assert JoinPath(dir, e.name)[|root|] == ".claude";
      }
    }
    CommandsFrame(t1, dir, implPath, res.commands, sp);
    CommandsFrame(t1, dir, implPath, res.commands, ep);
  }

  /** A complete run has passed the checks and read the implementation
      file, and then did what `Deployed` describes. */
  lemma InstalledDeployed(t: Tree, cwd: Path, docs: Result<Path>, idOrPath: string, resolved: Result<FileInfo>,
                          llm: Llm, res: Resources)
    requires Installed(t, cwd, docs, idOrPath, resolved, llm, res).0.Ok?
    ensures Checked(t, cwd, docs, idOrPath, resolved).Ok?
    ensures var (root, _, info) := Checked(t, cwd, docs, idOrPath, resolved).value;
      && root == GitRoot(t, cwd).value && info == resolved.value
      && IsFile(t, info.absolutePath)
      && Installed(t, cwd, docs, idOrPath, resolved, llm, res)
         == Deployed(t, root, info.absolutePath, t[info.absolutePath].content, llm, res)
  {
  }

  /** `installInitScripts`. */
  method InstallInitScripts(t: Tree, cwd: Path, yaml: Yaml, docs: Result<Path>, idOrPath: string,
                            llm: Llm, res: Resources) returns (r: Result<(Path, Path)>, t': Tree)
    requires WellFormed(t) && Normal(cwd)
    ensures (r, t') == Installed(t, cwd, docs, idOrPath, Resolution(t, cwd, yaml, idOrPath), llm, res)
  {
    if idOrPath == "" {
      return Err(MissingImpl), t;
    }
    var gitRoot := FindGitRoot(t, cwd);
    if gitRoot.None? {
      return Err("Not in a git repository"), t;
    }
    var root := gitRoot.value;
    if docs.Err? {
      return Err(docs.msg), t;
    }
    if docs.value !in t {
      return Err(RealpathError(docs.value)), t;
    }
    var resolved := ResolveFileInfo(t, cwd, yaml, idOrPath);
    if resolved.Err? {
      return Err(resolved.msg), t;
    }
    var info := resolved.value;
    if info.fileType != "implementation" {
      return Err(TypeMessage(info.fileType)), t;
    }
    var inside := EnsureInside(info.absolutePath, docs.value);
    if inside.Err? {
      return Err(inside.msg), t;
    }
    // The resolved document is a file, so reading it succeeds.
    var implContent := t[info.absolutePath].content;
    var setupCommands := Commands(llm.setup(implContent), DefaultSetup);
    var buildCommands := Commands(llm.build(implContent), DefaultBuild);
    var devDir := DevDir(root);
    var claudeCommandsDir := CommandsDir(root);
    var (devResult, t1) := DevScripts(t, devDir, res.start, res.end, setupCommands, buildCommands);
    t' := t1;
    if devResult.Err? {
      return Err(devResult.msg), t';
    }
    var commandsResult;
    commandsResult, t' := InstallClaudeCommands(t', claudeCommandsDir,
                                                ToPosixRelativePath(root, info.absolutePath), res.commands);
    if commandsResult.Err? {
      return Err(commandsResult.msg), t';
    }
    return Ok((devDir, claudeCommandsDir)), t';
  }

  /** `installClaudeCommands`: the loop over the template files. */
  method InstallClaudeCommands(t: Tree, dir: Path, implPath: string, entries: seq<Template>)
    returns (r: Result<()>, t': Tree)
    ensures (r, t') == CommandsInstalled(t, dir, implPath, entries)
  {
    t' := t;
    var i := 0;
    while i < |entries|
      invariant 0 <= i <= |entries|
      invariant CommandsInstalled(t, dir, implPath, entries) == CommandsInstalled(t', dir, implPath, entries[i..])
    {
      var entry := entries[i];
      assert entries[i..][0] == entry && entries[i..][1..] == entries[i + 1..];
      var replaced := ReplacePlaceholder(entry.content, ImplPlaceholder, implPath);
      if Contains(replaced, ImplPlaceholder) {
        return Err(CommandResidue(entry.name)), t';
      }
      var (written, next) := WriteEnsuringDir(t', JoinPath(dir, entry.name), replaced);
      t' := next;
      if written.Err? {
        return written, t';
      }
      i := i + 1;
    }
    return Ok(()), t';
  }
}
