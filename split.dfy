/** `splitFile`: a new document is split off a main document. A main file
    called `README.md` gets the new file beside it; any other main file is
    first moved into a folder named after it, as that folder's `README.md`,
    and the new file goes into the folder. The new file holds only a
    frontmatter envelope with a fresh id and the main file's type. */
module SplitCommand {
  import opened Wrappers
  import opened Strings
  import opened Paths
  import opened FileSystem
  import opened Values
  import opened Types
  import opened Envelope
  import opened FileUtils
  import opened FileResolver
  import opened Organize

  const Readme := "README.md"

  const HistoryRefusal := "Split command does not apply to reference implementation files or spec changelog files"

  datatype SplitOptions = SplitOptions(mainFilePath: string, newFileName: string)

  /** Where the new file goes: beside a `README.md` main file, or into the
      folder `dir` that the main file moves into as `newMain`. */
  datatype Layout =
    | Beside(newPath: Path)
    | Folder(dir: Path, newMain: Path, newPath: Path)

  /** What the checks learn: the main file, its git root, its frontmatter
      and the layout. */
  datatype Plan = Plan(abs: Path, gitRoot: Path, frontmatter: Frontmatter, layout: Layout)

  /** The layout for the main file `abs` and the new file name `name`, which
      already ends in `.md`. */
  function LayoutOf(abs: Path, name: string): Layout {
    var mainDir := Dirname(abs);
    if Basename(abs) == Readme then Beside(JoinPath(mainDir, name))
    else
      var dir := JoinPath(mainDir, BasenameWithoutMd(abs));
      Folder(dir, JoinPath(dir, Readme), JoinPath(dir, name))
  }

  lemma ReadmeSegment()
    ensures IsSegment(Readme)
  {
    PlainName(Readme);
  }

  /** With plain names, the new file is a sibling of a `README.md` main
      file; otherwise the folder is the main file's name without `.md`,
      beside the main file, and holds the moved main file as `README.md` and
      the new file under its own name. */
  lemma LayoutPlaces(abs: Path, name: string)
    requires IsSegment(name)
    ensures Basename(abs) == Readme ==> LayoutOf(abs, name) == Beside(Dirname(abs) + [name])
    ensures Basename(abs) != Readme && IsSegment(BasenameWithoutMd(abs)) ==>
      var dir := Dirname(abs) + [BasenameWithoutMd(abs)];
      LayoutOf(abs, name) == Folder(dir, dir + [Readme], dir + [name])
  {
    JoinName(Dirname(abs), name);
    if Basename(abs) != Readme && IsSegment(BasenameWithoutMd(abs)) {
      var dir := Dirname(abs) + [BasenameWithoutMd(abs)];
      JoinName(Dirname(abs), BasenameWithoutMd(abs));
      ReadmeSegment();
      JoinName(dir, Readme);
      JoinName(dir, name);
    }
  }

  /** The checks of `splitFile` in the order the source makes them, all
      before anything is changed. The layout check is the one the source
      makes: for a `README.md` main file the new file must not exist, for
      any other main file the folder must not exist. */
  function PlanAsWritten(t: Tree, cwd: Path, yaml: Yaml, opts: SplitOptions): Result<Plan> {
    var abs := Resolve(cwd, opts.mainFilePath);
    if abs !in t then Err("File not found: " + opts.mainFilePath)
    else
      match GitRoot(t, abs)
      case None => Err("Not in a git repository")
      case Some(gitRoot) =>
        var rel := Relative(gitRoot, abs);
        if Contains(rel, "impl-history/") || Contains(rel, "spec-history/") then Err(HistoryRefusal)
        else
          match ReadFile(t, abs)
          case Err(e) => Err(e)
          case Ok(content) =>
            var layout := LayoutOf(abs, WithMd(opts.newFileName));
            match layout
            case Beside(newPath) =>
              if newPath in t then Err("File already exists: " + ToString(newPath))
              else Ok(Plan(abs, gitRoot, Parse(yaml, content).frontmatter, layout))
            case Folder(dir, _, _) =>
              if dir in t then Err("Directory already exists: " + ToString(dir))
              else Ok(Plan(abs, gitRoot, Parse(yaml, content).frontmatter, layout))
  }

  /** The new file would land on the moved main file or on an existing
      entry. */
  predicate Clobbers(t: Tree, layout: Layout) {
    layout.Folder? && (layout.newPath == layout.newMain || layout.newPath in t)
  }

  /** The checks with the missing one added: in the folder case the new
      file must be neither the moved main file nor an existing entry. */
  function Planned(t: Tree, cwd: Path, yaml: Yaml, opts: SplitOptions): (r: Result<Plan>)
    ensures r.Ok? ==> PlanAsWritten(t, cwd, yaml, opts) == r && !Clobbers(t, r.value.layout)
    ensures PlanAsWritten(t, cwd, yaml, opts).Err? ==> r == PlanAsWritten(t, cwd, yaml, opts)
    ensures PlanAsWritten(t, cwd, yaml, opts).Ok? && Clobbers(t, PlanAsWritten(t, cwd, yaml, opts).value.layout) ==>
      r == Err("File already exists: " + ToString(PlanAsWritten(t, cwd, yaml, opts).value.layout.newPath))
  {
    match PlanAsWritten(t, cwd, yaml, opts)
    case Err(e) => Err(e)
    case Ok(p) =>
      if Clobbers(t, p.layout) then Err("File already exists: " + ToString(p.layout.newPath))
      else Ok(p)
  }

  /** `mainFrontmatter.type || detectFileType(newFilePath, gitRoot)`. */
  function InheritedType(fm: Frontmatter, newPath: Path, gitRoot: Path): (v: Value)
    ensures TruthyOpt(Get(fm, "type")) ==> v == Get(fm, "type").value
    ensures !TruthyOpt(Get(fm, "type")) ==> v == Str(DetectFileType(newPath, gitRoot))
  {
    match Get(fm, "type")
    case Some(ty) => if Truthy(ty) then ty else Str(DetectFileType(newPath, gitRoot))
    case None => Str(DetectFileType(newPath, gitRoot))
  }

  function StubFrontmatter(id: string, fileType: Value): (fm: Frontmatter)
    ensures Keys(fm) == ["id", "type"] && UniqueKeys(fm)
    ensures Get(fm, "id") == Some(Str(id)) && Get(fm, "type") == Some(fileType)
  {
    var fm := [("id", Str(id)), ("type", fileType)];
    assert fm[0].0 == "id" && fm[1].0 == "type";
    fm
  }

  /** The new file: the envelope around the dumped frontmatter, and no
      body. */
  function Stub(yaml: Yaml, id: string, fileType: Value): string {
    "---\n" + Trim(yaml.dump(Map(StubFrontmatter(id, fileType)))) + Fence
  }

  /** The new file reads back as its id and type with an empty body. */
  lemma StubReadsBack(yaml: Yaml, id: string, fileType: Value)
    requires DumpLoads(yaml, StubFrontmatter(id, fileType))
    ensures Parse(yaml, Stub(yaml, id, fileType)) == Parsed(StubFrontmatter(id, fileType), "")
  {
    var block := Trim(yaml.dump(Map(StubFrontmatter(id, fileType))));
    assert Stub(yaml, id, fileType) == "---\n" + block + Fence + "";
    SplitOfWritten(block, "");
  }

  /** One id is taken and the new file written with it. */
  function Written(t: Tree, yaml: Yaml, ids: IdSource, p: Plan, newPath: Path): (Result<()>, Tree, IdSource) {
    var fileType := InheritedType(p.frontmatter, newPath, p.gitRoot);
    var (id, ids') := ids.Take();
    match WriteFile(t, newPath, Stub(yaml, id, fileType))
    case Err(e) => (Err(e), t, ids')
    case Ok(t') => (Ok(()), t', ids')
  }

  /** The effects once the checks pass: in the folder case the folder is
      made and the main file moved into it; then one id is taken and the
      new file written. Each step can fail with what the file system
      reports, and what was done before stays. */
  function Done(t: Tree, yaml: Yaml, ids: IdSource, p: Plan): (Result<()>, Tree, IdSource)
    requires IsFile(t, p.abs)
  {
    match p.layout
    case Beside(newPath) => Written(t, yaml, ids, p, newPath)
    case Folder(dir, newMain, newPath) =>
      match MakeDirs(t, dir)
      case Err(e) => (Err(e), t, ids)
      case Ok(t1) =>
        match RenameFile(t1, p.abs, newMain)
        case Err(e) => (Err(e), t1, ids)
        case Ok(t2) => Written(t2, yaml, ids, p, newPath)
  }

  /** The checks in order: a missing main file, then a missing git
      repository, then a note in a history folder; a plan that passes has
      read the main file and found its target free. */
  lemma PlanOrder(t: Tree, cwd: Path, yaml: Yaml, opts: SplitOptions)
    ensures var abs := Resolve(cwd, opts.mainFilePath);
      var r := PlanAsWritten(t, cwd, yaml, opts);
      && (abs !in t ==> r == Err("File not found: " + opts.mainFilePath))
      && (abs in t && GitRoot(t, abs).None? ==> r == Err("Not in a git repository"))
      && (abs in t && GitRoot(t, abs).Some? ==>
        var rel := Relative(GitRoot(t, abs).value, abs);
        Contains(rel, "impl-history/") || Contains(rel, "spec-history/") ==> r == Err(HistoryRefusal))
      && (r.Ok? ==>
        && r.value.abs == abs && IsFile(t, abs) && GitRoot(t, abs) == Some(r.value.gitRoot)
        && !Contains(Relative(r.value.gitRoot, abs), "impl-history/")
        && !Contains(Relative(r.value.gitRoot, abs), "spec-history/")
        && r.value.frontmatter == Parse(yaml, t[abs].content).frontmatter
        && r.value.layout == LayoutOf(abs, WithMd(opts.newFileName))
        && (r.value.layout.Beside? ==> r.value.layout.newPath !in t)
        && (r.value.layout.Folder? ==> r.value.layout.dir !in t))
  {
  }

  /** What a plan that passed the checks of the source guarantees about
      the tree: the main file is a file, and the target is free and a
      normalised path. */
  predicate Fits(t: Tree, p: Plan) {
    && IsFile(t, p.abs)
    && Normal(p.layout.newPath)
    && (p.layout.Beside? ==> p.layout.newPath !in t)
    && (p.layout.Folder? ==>
      && Normal(p.layout.dir) && p.layout.dir !in t
      && p.layout.newMain == p.layout.dir + [Readme] && p.layout.newMain !in t)
  }

  lemma PlanFits(t: Tree, cwd: Path, yaml: Yaml, opts: SplitOptions)
    requires WellFormed(t) && PlanAsWritten(t, cwd, yaml, opts).Ok?
    ensures Fits(t, PlanAsWritten(t, cwd, yaml, opts).value)
  {
    PlanOrder(t, cwd, yaml, opts);
    var p := PlanAsWritten(t, cwd, yaml, opts).value;
    assert Normal(Dirname(p.abs));
    if p.layout.Folder? {
      MovedMain(t, p.abs, p.layout.dir);
    }
  }

  /** Splitting beside a `README.md` main file takes one id and adds the new
      file, where its directory exists, and changes nothing else: the main
      file stays as it was. */
  lemma ReadmeSplit(t: Tree, yaml: Yaml, ids: IdSource, p: Plan)
    requires WellFormed(t) && Fits(t, p) && p.layout.Beside?
    ensures var newPath := p.layout.newPath;
      var d := Done(t, yaml, ids, p);
      && d.2 == ids.Take().1
      && (d.0.Ok? <==> newPath != [] && IsDir(t, Dirname(newPath)))
      && (d.0.Err? ==> d.1 == t)
      && (d.0.Ok? ==>
        && WellFormed(d.1) && d.1.Keys == t.Keys + {newPath}
        && d.1[newPath] == File(Stub(yaml, ids.Take().0, InheritedType(p.frontmatter, newPath, p.gitRoot)))
        && (forall q :: q in t ==> d.1[q] == t[q]))
  {
    var newPath := p.layout.newPath;
    var stub := Stub(yaml, ids.Take().0, InheritedType(p.frontmatter, newPath, p.gitRoot));
    if WriteFile(t, newPath, stub).Ok? {
      WriteFileEffect(t, newPath, stub);
    }
  }

  /** Splitting a main file not called `README.md`, with the added check:
      the folder is made, the main file moves into it unchanged as
      `README.md` and leaves its old path, the new file is added, and every
      other entry is kept. */
  lemma FolderSplit(t: Tree, yaml: Yaml, ids: IdSource, p: Plan)
    requires WellFormed(t) && Fits(t, p) && p.layout.Folder? && !Clobbers(t, p.layout)
    ensures var l := p.layout;
      var d := Done(t, yaml, ids, p);
      d.0.Ok? ==>
        && WellFormed(d.1) && d.2 == ids.Take().1
        && p.abs !in d.1
        && d.1[l.newMain] == t[p.abs]
        && d.1[l.newPath] == File(Stub(yaml, ids.Take().0, InheritedType(p.frontmatter, l.newPath, p.gitRoot)))
        && d.1.Keys == t.Keys - {p.abs} + Missing(t, l.dir) + {l.newMain, l.newPath}
        && (forall q :: q in t && q != p.abs ==> d.1[q] == t[q])
  {
    var l := p.layout;
    var d := Done(t, yaml, ids, p);
    if d.0.Ok? {
      MoveEffect(t, p.abs, l.dir);
      var t2 := RenameFile(MakeDirs(t, l.dir).value, p.abs, l.newMain).value;
      var stub := Stub(yaml, ids.Take().0, InheritedType(p.frontmatter, l.newPath, p.gitRoot));
      assert d == Written(t2, yaml, ids, p, l.newPath);
      WriteFileEffect(t2, l.newPath, stub);
    }
  }

  /** Making the new folder and moving the main file into it as
      `README.md`. */
  lemma MoveEffect(t: Tree, abs: Path, dir: Path)
    requires WellFormed(t) && IsFile(t, abs) && Normal(dir) && dir !in t && MakeDirs(t, dir).Ok?
    ensures var t1 := MakeDirs(t, dir).value;
      && IsFile(t1, abs) && RenameFile(t1, abs, dir + [Readme]).Ok?
      && var t2 := RenameFile(t1, abs, dir + [Readme]).value;
      && WellFormed(t2) && abs !in t2 && t2[dir + [Readme]] == t[abs]
      && t2.Keys == t.Keys - {abs} + Missing(t, dir) + {dir + [Readme]}
      && (forall q :: q in t && q != abs ==> t2[q] == t[q])
  {
    var t1 := MakeDirs(t, dir).value;
    MakeDirsWellFormed(t, dir);
    ReadmeSegment();
    MovedMain(t, abs, dir);
    assert Dirname(dir + [Readme]) == dir;
    assert dir + [Readme] !in t1;
    RenameFileEffect(t1, abs, dir + [Readme]);
  }

  /** The folder is new, so nothing is below it: the moved main file's path
      is not in the tree, and so differs from the main file. */
  lemma MovedMain(t: Tree, abs: Path, dir: Path)
    requires WellFormed(t) && abs in t && dir !in t
    ensures dir + [Readme] !in t && JoinPath(dir, Readme) == dir + [Readme] && abs != dir + [Readme]
  {
    ReadmeSegment();
    JoinName(dir, Readme);
    assert Dirname(dir + [Readme]) == dir;
  }

  /** The new names `README` and `README.md` make, for a main file not called
      `README.md`, a new file at the moved main file's path, which the checks
      of the source let through and the added check refuses. */
  lemma ReadmeNameClobbers(t: Tree, cwd: Path, yaml: Yaml, opts: SplitOptions)
    requires opts.newFileName == "README" || opts.newFileName == "README.md"
    requires PlanAsWritten(t, cwd, yaml, opts).Ok? && PlanAsWritten(t, cwd, yaml, opts).value.layout.Folder?
    ensures var l := PlanAsWritten(t, cwd, yaml, opts).value.layout;
      && l.newPath == l.newMain
      && Planned(t, cwd, yaml, opts) == Err("File already exists: " + ToString(l.newMain))
  {
    ReadmeWithMd(opts.newFileName);
    PlanOrder(t, cwd, yaml, opts);
  }

  lemma ReadmeWithMd(name: string)
    requires name == "README" || name == "README.md"
    ensures WithMd(name) == Readme
  {
    if name == "README" {
      assert !EndsWith(name, ".md") by {
        assert name[3] == 'D';
      }
      assert name + ".md" == Readme;
    }
  }

  /** As written, a split whose new file is the moved main file loses the
      main file: the new file is written over it at its new path, and its
      old path is gone. */
  lemma ClobberOverwrites(t: Tree, yaml: Yaml, ids: IdSource, p: Plan)
    requires WellFormed(t) && Fits(t, p) && p.layout.Folder? && p.layout.newPath == p.layout.newMain
    requires MakeDirs(t, p.layout.dir).Ok?
    ensures var d := Done(t, yaml, ids, p);
      && d.0 == Ok(()) && p.abs !in d.1
      && d.1[p.layout.newMain] == File(Stub(yaml, ids.Take().0, InheritedType(p.frontmatter, p.layout.newPath, p.gitRoot)))
  {
    MoveEffect(t, p.abs, p.layout.dir);
  }

  /** `splitFile`: every check comes before anything is made, moved, taken
      or written. */
  method SplitFile(t: Tree, cwd: Path, yaml: Yaml, ids: IdSource, opts: SplitOptions)
    returns (r: Result<()>, t': Tree, ids': IdSource)
    ensures Planned(t, cwd, yaml, opts).Err? ==> r == Err(Planned(t, cwd, yaml, opts).msg) && t' == t && ids' == ids
    ensures Planned(t, cwd, yaml, opts).Ok? ==> IsFile(t, Planned(t, cwd, yaml, opts).value.abs)
    ensures Planned(t, cwd, yaml, opts).Ok? ==> (r, t', ids') == Done(t, yaml, ids, Planned(t, cwd, yaml, opts).value)
  {
    var plan := Check(t, cwd, yaml, opts);
    if plan.Err? {
      return Err(plan.msg), t, ids;
    }
    PlanOrder(t, cwd, yaml, opts);
    r, t', ids' := Apply(t, yaml, ids, plan.value);
  }

  /** The checks of `splitFile`, one after the other. */
  method Check(t: Tree, cwd: Path, yaml: Yaml, opts: SplitOptions) returns (r: Result<Plan>)
    ensures r == Planned(t, cwd, yaml, opts)
  {
    var abs := Resolve(cwd, opts.mainFilePath);
    if abs !in t {
      return Err("File not found: " + opts.mainFilePath);
    }
    var gitRoot := FindGitRoot(t, abs);
    if gitRoot.None? {
      return Err("Not in a git repository");
    }
    var rel := Relative(gitRoot.value, abs);
    if Contains(rel, "impl-history/") || Contains(rel, "spec-history/") {
      return Err(HistoryRefusal);
    }
    var read := ReadFile(t, abs);
    if read.Err? {
      return Err(read.msg);
    }
    var mainFrontmatter := Parse(yaml, read.value).frontmatter;
    var layout := LayoutOf(abs, WithMd(opts.newFileName));
    if layout.Beside? {
      if layout.newPath in t {
        return Err("File already exists: " + ToString(layout.newPath));
      }
    } else {
      if layout.dir in t {
        return Err("Directory already exists: " + ToString(layout.dir));
      }
      if layout.newPath == layout.newMain || layout.newPath in t {
        return Err("File already exists: " + ToString(layout.newPath));
      }
    }
    return Ok(Plan(abs, gitRoot.value, mainFrontmatter, layout));
  }

  /** What `splitFile` does once the checks pass. */
  method Apply(t: Tree, yaml: Yaml, ids: IdSource, p: Plan) returns (r: Result<()>, t': Tree, ids': IdSource)
    requires IsFile(t, p.abs)
    ensures (r, t', ids') == Done(t, yaml, ids, p)
  {
    t', ids' := t, ids;
    if p.layout.Beside? {
      r, t', ids' := Write(t, yaml, ids, p, p.layout.newPath);
      return;
    }
    var made := MakeDirs(t', p.layout.dir);
    if made.Err? {
      return Err(made.msg), t', ids';
    }
    t' := made.value;
    var moved := RenameFile(t', p.abs, p.layout.newMain);
    if moved.Err? {
      return Err(moved.msg), t', ids';
    }
    t' := moved.value;
    r, t', ids' := Write(t', yaml, ids, p, p.layout.newPath);
  }

  /** The last step of `splitFile`: the type inherited, one id taken, the
      new file written. */
  method Write(t: Tree, yaml: Yaml, ids: IdSource, p: Plan, newPath: Path)
    returns (r: Result<()>, t': Tree, ids': IdSource)
    ensures (r, t', ids') == Written(t, yaml, ids, p, newPath)
  {
    var parentType := InheritedType(p.frontmatter, newPath, p.gitRoot);
    var newId;
    newId, ids' := ids.Take().0, ids.Take().1;
    var written := WriteFile(t, newPath, Stub(yaml, newId, parentType));
    if written.Err? {
      return Err(written.msg), t, ids';
    }
    return Ok(()), written.value, ids';
  }
}
