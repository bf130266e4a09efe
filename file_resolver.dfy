/** Classifying a document by its place in the repository, finding a document
    by its ID, and resolving "an ID or a path" to what the commands need to
    know about the document. */
module FileResolver {
  import opened Wrappers
  import opened Strings
  import opened Paths
  import opened FileSystem
  import opened Values
  import opened Types
  import opened Envelope
  import opened Sorting
  import opened FileUtils

  /** The ordered rule table of `detectFileType`, applied to the path relative
      to the git root; the first rule that matches wins. */
  function Classify(rel: string): string {
    if rel == "docs/README.md" then "project"
    else if StartsWith(rel, "docs/impls/") then "implementation"
    else if Contains(rel, "/impl-history/") then "ref-impl"
    else if Contains(rel, "/tests/") then "test"
    else if StartsWith(rel, "docs/specs/") then "spec"
    else "spec"
  }

  /** `detectFileType(filePath, gitRoot)`. */
  function DetectFileType(abs: Path, root: Path): string {
    Classify(Relative(root, abs))
  }

  /** Each type in closed form: every path gets one of the five types, `project`
      is exactly `docs/README.md`, the `docs/impls/` prefix beats the
      `/impl-history/` and `/tests/` substrings, `/impl-history/` beats
      `/tests/`, and everything else, `docs/specs/` included, is a spec. */
  lemma ClassifyTable(rel: string)
    ensures Classify(rel) in {"project", "implementation", "ref-impl", "test", "spec"}
    ensures Classify(rel) == "project" <==> rel == "docs/README.md"
    ensures Classify(rel) == "implementation" <==> StartsWith(rel, "docs/impls/")
    ensures Classify(rel) == "ref-impl" <==>
      !StartsWith(rel, "docs/impls/") && Contains(rel, "/impl-history/")
    ensures Classify(rel) == "test" <==>
      !StartsWith(rel, "docs/impls/") && !Contains(rel, "/impl-history/") && Contains(rel, "/tests/")
    ensures Classify(rel) == "spec" <==>
      rel != "docs/README.md" && !StartsWith(rel, "docs/impls/")
      && !Contains(rel, "/impl-history/") && !Contains(rel, "/tests/")
  {
    if StartsWith(rel, "docs/impls/") {
      assert rel[..5] == "docs/";
      assert rel[5] == 'i';
      assert rel != "docs/README.md";
    }
    var readme := "docs/README.md";
    forall j ensures !OccursAt(readme, "/impl-history/", j) && !OccursAt(readme, "/tests/", j) {
      Edges(readme, "/impl-history/", j);
      Edges(readme, "/tests/", j);
    }
  }

  /** `impl-history` and `tests` count only after a `/`: as the first folder
      of the relative path, with a plain file name below, they leave the
      document a spec. */
  lemma LeadingFolderIsSpec(head: string, name: string)
    requires head == "impl-history/" || head == "tests/"
    requires !Contains(name, "/")
    ensures Classify(head + name) == "spec"
  {
    var s := head + name;
    forall i | 0 <= i < |s| ensures s[i] == '/' ==> i == |head| - 1 {
      if i >= |head| {
        var k := i - |head|;
        assert s[i] == name[k] && name[k..k + 1] == [name[k]];
        assert !OccursAt(name, "/", k);
      }
    }
    forall j ensures !OccursAt(s, "/impl-history/", j) && !OccursAt(s, "/tests/", j) {
      Edges(s, "/impl-history/", j);
      Edges(s, "/tests/", j);
    }
    assert s[0] == head[0];
    assert !StartsWith(s, "docs/impls/") && s != "docs/README.md";
  }

  /** An occurrence of `p` shows `p`'s first and last characters. */
  lemma Edges(s: string, p: string, j: int)
    requires p != []
    ensures OccursAt(s, p, j) ==> s[j] == p[0] && s[j + |p| - 1] == p[|p| - 1]
  {
    if OccursAt(s, p, j) {
      assert s[j..j + |p|] == p;
    }
  }

  /** The file's parsed frontmatter has exactly the string `id` as its id. */
  predicate HasId(t: Tree, yaml: Yaml, p: Path, id: string) {
    IsFile(t, p) && IdOf(yaml, t[p].content) == Some(Str(id))
  }

  /** The `id` property of a document's parsed frontmatter. */
  function IdOf(yaml: Yaml, content: string): Option<Value> {
    Get(Parse(yaml, content).frontmatter, "id")
  }

  /** `p` is the first markdown file below `docs`, in sorted path order, whose
      id is `id`. */
  predicate FirstWithId(t: Tree, yaml: Yaml, docs: Path, id: string, p: Path) {
    && p in MdUnder(t, docs) && HasId(t, yaml, p, id)
    && forall q :: q in MdUnder(t, docs) && Less(ToString(q), ToString(p)) ==> !HasId(t, yaml, q, id)
  }

  /** At most one file is the first with a given id. */
  lemma FirstWithIdUnique(t: Tree, yaml: Yaml, docs: Path, id: string, p: Path, q: Path)
    requires WellFormed(t)
    requires FirstWithId(t, yaml, docs, id, p) && FirstWithId(t, yaml, docs, id, q)
    ensures p == q
  {
    LessTotal(ToString(p), ToString(q));
    ResolveToString([], p);
    ResolveToString([], q);
  }

  /** `findFileById`, run from the working directory `cwd`: the first file
      under `<git root>/docs` in sorted order whose id is `id`, or `None`. A
      file that cannot be read is skipped. */
  method FindFileById(t: Tree, cwd: Path, yaml: Yaml, id: string) returns (r: Result<Option<Path>>)
    requires WellFormed(t)
    ensures GitRoot(t, cwd).None? ==> r == Err("Not in a git repository")
    ensures GitRoot(t, cwd).Some? && GitRoot(t, cwd).value + ["docs"] !in t ==>
      r == Err("docs/ directory not found")
    ensures GitRoot(t, cwd).Some? && IsFile(t, GitRoot(t, cwd).value + ["docs"]) ==>
      r == Err(ScandirError(GitRoot(t, cwd).value + ["docs"]))
    ensures r.Ok? <==> GitRoot(t, cwd).Some? && IsDir(t, GitRoot(t, cwd).value + ["docs"])
    ensures r.Ok? && r.value.Some? ==> FirstWithId(t, yaml, GitRoot(t, cwd).value + ["docs"], id, r.value.value)
    ensures r.Ok? && r.value.None? ==>
      forall q :: q in MdUnder(t, GitRoot(t, cwd).value + ["docs"]) ==> !HasId(t, yaml, q, id)
  {
    var root := FindGitRoot(t, cwd);
    if root.None? {
      return Err("Not in a git repository");
    }
    var docs := root.value + ["docs"];
    if docs !in t {
      return Err("docs/ directory not found");
    }
    var found := FindMarkdownFiles(t, docs);
    if found.Err? {
      return Err(found.msg);
    }
    var files := found.value;
    var i := ScanForId(t, yaml, files, id);
    if i.Some? {
      FirstInOrder(t, yaml, docs, id, files, i.value);
      return Ok(Some(files[i.value]));
    }
    NoneInOrder(t, yaml, docs, id, files);
    return Ok(None);
  }

  /** The loop of `findFileById`: the index of the first of `files` whose id
      is `id`. A file that cannot be read is skipped. */
  method ScanForId(t: Tree, yaml: Yaml, files: seq<Path>, id: string) returns (r: Option<nat>)
    ensures r.Some? ==> r.value < |files| && HasId(t, yaml, files[r.value], id)
    ensures r.Some? ==> forall k :: 0 <= k < r.value ==> !HasId(t, yaml, files[k], id)
    ensures r.None? ==> forall k :: 0 <= k < |files| ==> !HasId(t, yaml, files[k], id)
  {
    for i := 0 to |files|
      invariant forall k :: 0 <= k < i ==> !HasId(t, yaml, files[k], id)
    {
      var content := ReadFile(t, files[i]);
      if content.Err? {
        continue;
      }
      if IdOf(yaml, content.value) == Some(Str(id)) {
        return Some(i);
      }
    }
    return None;
  }

  lemma FirstInOrder(t: Tree, yaml: Yaml, docs: Path, id: string, files: seq<Path>, i: nat)
    requires SortedBy(files, ToString) && AsSet(files) == MdUnder(t, docs)
    requires i < |files| && HasId(t, yaml, files[i], id)
    requires forall k :: 0 <= k < i ==> !HasId(t, yaml, files[k], id)
    ensures FirstWithId(t, yaml, docs, id, files[i])
  {
    assert files[i] in AsSet(files);
    forall q | q in MdUnder(t, docs) && Less(ToString(q), ToString(files[i]))
      ensures !HasId(t, yaml, q, id)
    {
      var k :| 0 <= k < |files| && files[k] == q;
      LessIrreflexive(ToString(q));
      assert k < i;
    }
  }

  lemma NoneInOrder(t: Tree, yaml: Yaml, docs: Path, id: string, files: seq<Path>)
    requires AsSet(files) == MdUnder(t, docs)
    requires forall k :: 0 <= k < |files| ==> !HasId(t, yaml, files[k], id)
    ensures forall q :: q in MdUnder(t, docs) ==> !HasId(t, yaml, q, id)
  {
    forall q | q in MdUnder(t, docs) ensures !HasId(t, yaml, q, id) {
      assert q in AsSet(files);
    }
  }

  /** What `getFileInfo` reports for the existing path `abs`, shown to the
      user as `shown`. */
  function InfoAt(t: Tree, cwd: Path, yaml: Yaml, abs: Path, shown: string): Result<FileInfo> {
    if abs !in t then Err("File not found: " + shown)
    else
      match GitRoot(t, abs)
      case None => Err("Not in a git repository")
      case Some(root) =>
        match ReadFile(t, abs)
        case Err(e) => Err(e)
        case Ok(content) =>
          var id := IdOf(yaml, content);
          if !TruthyOpt(id) then Err("File does not have proper YAML frontmatter with an id field")
          else Ok(FileInfo(id.value, DetectFileType(abs, root), "/" + Relative(root, abs),
                           Relative(cwd, abs), abs, root))
  }

  /** The checks come in order (the path exists, it is in a git repository,
      it has an id), and a success describes a regular file: its id is the
      frontmatter's `id` value as loaded, its git root is
      the nearest enclosing one, `filePath` is `/` and the segments below that
      root, and the type comes from the path alone. */
  lemma InfoAtMeaning(t: Tree, cwd: Path, yaml: Yaml, abs: Path, shown: string)
    ensures var r := InfoAt(t, cwd, yaml, abs, shown);
      && (abs !in t ==> r == Err("File not found: " + shown))
      && (abs in t && GitRoot(t, abs).None? ==> r == Err("Not in a git repository"))
      && (IsFile(t, abs) && GitRoot(t, abs).Some? && !TruthyOpt(IdOf(yaml, t[abs].content)) ==>
            r == Err("File does not have proper YAML frontmatter with an id field"))
      && (r.Ok? ==>
            && IsFile(t, abs) && TruthyOpt(IdOf(yaml, t[abs].content))
            && r.value.id == IdOf(yaml, t[abs].content).value
            && GitRoot(t, abs) == Some(r.value.gitRoot)
            && r.value.absolutePath == abs
            && r.value.filePath == "/" + Join(abs[|r.value.gitRoot|..], "/")
            && r.value.fileType == Classify(Join(abs[|r.value.gitRoot|..], "/")))
  {
    var r := InfoAt(t, cwd, yaml, abs, shown);
    if r.Ok? {
      RelativeBelow(r.value.gitRoot, abs);
    }
  }

  /** `getFileInfo(filePath)`. */
  method GetFileInfo(t: Tree, cwd: Path, yaml: Yaml, filePath: string) returns (r: Result<FileInfo>)
    ensures r == InfoAt(t, cwd, yaml, Resolve(cwd, filePath), filePath)
  {
    var abs := Resolve(cwd, filePath);
    if abs !in t {
      return Err("File not found: " + filePath);
    }
    var root := FindGitRoot(t, abs);
    if root.None? {
      return Err("Not in a git repository");
    }
    var content := ReadFile(t, abs);
    if content.Err? {
      return Err(content.msg);
    }
    var id := IdOf(yaml, content.value);
    if !TruthyOpt(id) {
      return Err("File does not have proper YAML frontmatter with an id field");
    }
    var relativePath := Relative(root.value, abs);
    var fileType := DetectFileType(abs, root.value);
    return Ok(FileInfo(id.value, fileType, "/" + relativePath, Relative(cwd, abs), abs, root.value));
  }

  /** What `resolveFileInfo(arg)` reports: the document at the path `arg`
      names if there is one, else the first document whose id is `arg`. */
  ghost function Resolution(t: Tree, cwd: Path, yaml: Yaml, arg: string): Result<FileInfo> {
    var abs := Resolve(cwd, arg);
    if abs in t then InfoAt(t, cwd, yaml, abs, ToString(abs))
    else
      match GitRoot(t, cwd)
      case None => Err("Not in a git repository")
      case Some(root) =>
        var docs := root + ["docs"];
        if docs !in t then Err("docs/ directory not found")
        else if IsFile(t, docs) then Err(ScandirError(docs))
        else ById(t, cwd, yaml, docs, arg)
  }

  /** The id lookup under `docs`: the first document with the id, if any. */
  ghost function ById(t: Tree, cwd: Path, yaml: Yaml, docs: Path, arg: string): Result<FileInfo> {
    if exists p :: FirstWithId(t, yaml, docs, arg, p) then
      var p :| FirstWithId(t, yaml, docs, arg, p);
      InfoAt(t, cwd, yaml, p, ToString(p))
    else Err("No file found matching the given ID or path: " + arg)
  }

  /** `resolveFileInfo(idOrPath)`: an existing path wins; otherwise the
      argument is looked up as an id under the git root's `docs`. */
  method ResolveFileInfo(t: Tree, cwd: Path, yaml: Yaml, idOrPath: string) returns (r: Result<FileInfo>)
    requires WellFormed(t) && Normal(cwd)
    ensures r == Resolution(t, cwd, yaml, idOrPath)
    ensures r.Ok? ==> var abs := r.value.absolutePath; IsFile(t, abs) && abs != [] && IsDir(t, Dirname(abs))
  {
    var abs := Resolve(cwd, idOrPath);
    if abs in t {
      r := GetFileInfo(t, cwd, yaml, ToString(abs));
      assert r == InfoAt(t, cwd, yaml, abs, ToString(abs)) by {
        ResolveToString(cwd, abs);
      }
      InfoAtFile(t, cwd, yaml, abs, ToString(abs));
      return;
    }
    var found := FindFileById(t, cwd, yaml, idOrPath);
    ghost var docs := if GitRoot(t, cwd).Some? then GitRoot(t, cwd).value + ["docs"] else [];
    if found.Err? {
      return Err(found.msg);
    }
    if found.value.None? {
      return Err("No file found matching the given ID or path: " + idOrPath);
    }
    var p := found.value.value;
    r := GetFileInfo(t, cwd, yaml, ToString(p));
    assert r == InfoAt(t, cwd, yaml, p, ToString(p)) by {
      assert p in t;
      ResolveToString(cwd, p);
    }
    InfoAtFile(t, cwd, yaml, p, ToString(p));
    ResolutionFirst(t, cwd, yaml, idOrPath, p);
  }

  /** A file whose information can be read is a file in a directory. */
  lemma InfoAtFile(t: Tree, cwd: Path, yaml: Yaml, abs: Path, shown: string)
    requires WellFormed(t)
    ensures var r := InfoAt(t, cwd, yaml, abs, shown);
      r.Ok? ==> r.value.absolutePath == abs && IsFile(t, abs) && abs != [] && IsDir(t, Dirname(abs))
  {
    InfoAtMeaning(t, cwd, yaml, abs, shown);
  }

  /** The outcomes of `resolveFileInfo` in order: a path that exists wins;
      otherwise the id lookup needs a git root and a `docs` directory, and
      fails when no document there has the id; else it describes the first
      document, in sorted order, that has it. */
  lemma ResolutionCases(t: Tree, cwd: Path, yaml: Yaml, arg: string)
    ensures var abs := Resolve(cwd, arg);
      abs in t ==> Resolution(t, cwd, yaml, arg) == InfoAt(t, cwd, yaml, abs, ToString(abs))
    ensures var abs := Resolve(cwd, arg);
      abs !in t && GitRoot(t, cwd).None? ==> Resolution(t, cwd, yaml, arg) == Err("Not in a git repository")
    ensures var abs := Resolve(cwd, arg);
      abs !in t && GitRoot(t, cwd).Some? && GitRoot(t, cwd).value + ["docs"] !in t ==>
        Resolution(t, cwd, yaml, arg) == Err("docs/ directory not found")
    ensures var abs := Resolve(cwd, arg);
      var docs := if GitRoot(t, cwd).Some? then GitRoot(t, cwd).value + ["docs"] else [];
      abs !in t && GitRoot(t, cwd).Some? && IsDir(t, docs)
      && (forall q :: q in MdUnder(t, docs) ==> !HasId(t, yaml, q, arg)) ==>
        Resolution(t, cwd, yaml, arg) == Err("No file found matching the given ID or path: " + arg)
  {
  }

  /** When the id lookup runs, the first document with the id is the one
      described. */
  lemma ResolutionFirst(t: Tree, cwd: Path, yaml: Yaml, arg: string, p: Path)
    requires WellFormed(t)
    requires Resolve(cwd, arg) !in t && GitRoot(t, cwd).Some?
    requires FirstWithId(t, yaml, GitRoot(t, cwd).value + ["docs"], arg, p)
    ensures Resolution(t, cwd, yaml, arg) == InfoAt(t, cwd, yaml, p, ToString(p))
  {
    var docs := GitRoot(t, cwd).value + ["docs"];
    assert IsDir(t, docs) by {
      Ancestor(t, p, |docs|);
      assert p[..|docs|] == docs;
    }
    assert ById(t, cwd, yaml, docs, arg) == InfoAt(t, cwd, yaml, p, ToString(p)) by {
      forall q | FirstWithId(t, yaml, docs, arg, q) ensures q == p {
        FirstWithIdUnique(t, yaml, docs, arg, p, q);
      }
    }
  }

  /** A resolved document is a file of the tree. */
  lemma ResolutionFile(t: Tree, cwd: Path, yaml: Yaml, arg: string)
    requires WellFormed(t) && Resolution(t, cwd, yaml, arg).Ok?
    ensures IsFile(t, Resolution(t, cwd, yaml, arg).value.absolutePath)
  {
    var abs := Resolve(cwd, arg);
    if abs in t {
      InfoAtFile(t, cwd, yaml, abs, ToString(abs));
    } else {
      var docs := GitRoot(t, cwd).value + ["docs"];
      var p :| FirstWithId(t, yaml, docs, arg, p);
      ResolutionFirst(t, cwd, yaml, arg, p);
      InfoAtFile(t, cwd, yaml, p, ToString(p));
    }
  }

  /** The `filePath` of a described file is `/` and its segments below its
      git root. */
  lemma InfoAtFilePath(t: Tree, cwd: Path, yaml: Yaml, abs: Path, shown: string)
    requires InfoAt(t, cwd, yaml, abs, shown).Ok?
    ensures var info := InfoAt(t, cwd, yaml, abs, shown).value;
      info.absolutePath == abs && IsPrefix(info.gitRoot, abs)
      && info.filePath == "/" + Join(abs[|info.gitRoot|..], "/")
  {
    var root := GitRoot(t, abs).value;
    RelativeBelow(root, abs);
  }
}
