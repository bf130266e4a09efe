/** `zamm init project`: the title, description and initial stack are taken
    from the options or asked for, a project folder named after the title is
    laid out as `<name>/base/docs/impls`, a git repository is made in `base`,
    and the project README, the first implementation file and the project
    setup guide are written and committed. */
module InitProject {
  import opened Wrappers
  import opened Strings
  import opened Paths
  import opened FileSystem
  import opened Types
  import opened Normalize
  import opened Templates

  /** A command run in a directory (`git init`, `git add -A`, `git commit`):
      the tree afterwards, or the message it failed with. */
  type Exec = (Tree, Path, string) -> Result<Tree>

  /** What the user answers to a prompt. */
  type Ask = string -> string

  datatype InitProjectOptions = InitProjectOptions(
    projectTitle: Option<string>,
    projectDescription: Option<string>,
    initialStack: Option<string>)

  /** The three prompts, in the order they can be asked. */
  datatype Question = TitleQuestion | DescriptionQuestion | StackQuestion

  function Prompt(q: Question): string {
    match q
    case TitleQuestion => "What is the project title? "
    case DescriptionQuestion => "What is this project about? "
    case StackQuestion => "What is the initial stack/implementation? "
  }

  /** `[a-z0-9\s-]`: what the first step of slugging keeps. */
  predicate SlugSource(x: char) {
    ('a' <= x <= 'z') || ('0' <= x <= '9') || IsSpace(x) || x == '-'
  }

  /** `[a-z0-9-]`: what a slug is made of. */
  predicate SlugChar(x: char) {
    ('a' <= x <= 'z') || ('0' <= x <= '9') || x == '-'
  }

  /** The class `[a-z0-9\s-]`. */
  function Source(): char -> bool {
    x => SlugSource(x)
  }

  /** The chain before the ends are trimmed: lower case, drop what is
      outside `[a-z0-9\s-]`, runs of white space to `-`, runs of `-` to one. */
  function Squeezed(s: string): string {
    Collapse(Collapse(Filter(ToLower(s), Source()), Space(), '-'), Hyphen(), '-')
  }

  /** `titleToDirectoryName` and `stackToFilename`, which are the same chain:
      `Squeezed`, then a `-` at either end dropped. */
  function Slug(s: string): string {
    DropLast(DropFirst(Squeezed(s), '-'), '-')
  }

  /** What a slug looks like. */
  predicate IsSlug(r: string) {
    && (forall i :: 0 <= i < |r| ==> SlugChar(r[i]))
    && NoDouble(r, '-')
    && (r != [] ==> r[0] != '-' && r[|r| - 1] != '-')
  }

  /** Before trimming, the text holds only `[a-z0-9-]` and never `--`. */
  lemma SqueezedShape(s: string)
    ensures forall x :: x in Squeezed(s) ==> SlugChar(x)
    ensures NoDouble(Squeezed(s), '-')
  {
    var kept := Filter(ToLower(s), Source());
    var hyphenated := Collapse(kept, Space(), '-');
    CollapseChars(kept, Space(), '-', false);
    assert forall x :: x in hyphenated ==> SlugChar(x);
    CollapseChars(hyphenated, Hyphen(), '-', false);
    CollapseSingle(hyphenated, Hyphen(), '-', false);
  }

  /** Dropping a `-` at either end of such text leaves a slug. */
  lemma TrimEnds(x: string)
    requires forall c :: c in x ==> SlugChar(c)
    requires NoDouble(x, '-')
    ensures IsSlug(DropLast(DropFirst(x, '-'), '-'))
  {
    var d := DropFirst(x, '-');
    assert NoDouble(d, '-') && (d != [] ==> d[0] != '-') by {
      if x != [] && x[0] == '-' {
        forall i | 0 <= i < |d| - 1 ensures !(d[i] == '-' && d[i + 1] == '-') {
          assert d[i] == x[i + 1] && d[i + 1] == x[i + 2];
        }
        if d != [] {
          assert d[0] == x[1];
        }
      }
    }
    assert forall c :: c in d ==> SlugChar(c);
    var r := DropLast(d, '-');
    if d != [] && d[|d| - 1] == '-' {
      forall i | 0 <= i < |r| - 1 ensures !(r[i] == '-' && r[i + 1] == '-') {
        assert r[i] == d[i] && r[i + 1] == d[i + 1];
      }
      if r != [] {
        assert r[0] == d[0];
        assert r[|r| - 1] == d[|d| - 2];
      }
    }
    assert forall i :: 0 <= i < |r| ==> r[i] in d;
  }

  /** A slug holds only `[a-z0-9-]`, never `--`, and no `-` at either end. */
  lemma SlugShape(s: string)
    ensures IsSlug(Slug(s))
  {
    SqueezedShape(s);
    TrimEnds(Squeezed(s));
  }

  /** A slug goes through the chain before trimming unchanged. */
  lemma SqueezedSlug(r: string)
    requires IsSlug(r)
    ensures Squeezed(r) == r
  {
    KeptSlug(r);
    SpacelessSlug(r);
    CollapseKeeps(r, Hyphen(), '-', false);
  }

  lemma KeptSlug(r: string)
    requires forall i :: 0 <= i < |r| ==> SlugChar(r[i])
    ensures Filter(ToLower(r), Source()) == r
  {
    LowerKeeps(r);
    assert forall i :: 0 <= i < |r| ==> Source()(r[i]);
    FilterAll(r, Source());
  }

  lemma SpacelessSlug(r: string)
    requires forall i :: 0 <= i < |r| ==> SlugChar(r[i])
    ensures Collapse(r, Space(), '-') == r
  {
    CollapseNone(r, Space(), '-', false);
  }

  /** Slugging a slug changes nothing. */
  lemma SlugIdempotent(s: string)
    ensures Slug(Slug(s)) == Slug(s)
  {
    var r := Slug(s);
    SlugShape(s);
    SqueezedSlug(r);
  }

  /** `[a-z0-9]`. */
  predicate WordChar(x: char) {
    ('a' <= x <= 'z') || ('0' <= x <= '9')
  }

  /** A word of `[a-z0-9]`. */
  predicate Word(w: string) {
    w != [] && forall i :: 0 <= i < |w| ==> WordChar(w[i])
  }

  /** Joined words hold word characters and the separator only. */
  lemma {:induction false} JoinWordChars(ws: seq<string>, sep: char)
    requires forall k :: 0 <= k < |ws| ==> Word(ws[k])
    ensures forall i :: 0 <= i < |Join(ws, [sep])| ==> Join(ws, [sep])[i] == sep || WordChar(Join(ws, [sep])[i])
    decreases |ws|
  {
    if |ws| == 1 {
      assert Word(ws[0]);
    } else if |ws| > 1 {
      assert Word(ws[0]);
      JoinWordChars(ws[1..], sep);
      var rest := Join(ws[1..], [sep]);
      var j := Join(ws, [sep]);
      assert j == ws[0] + [sep] + rest;
      forall i | 0 <= i < |j| ensures j[i] == sep || WordChar(j[i]) {
        if i < |ws[0]| {
          assert j[i] == ws[0][i];
        } else if i == |ws[0]| {
          assert j[i] == sep;
        } else {
          assert j[i] == rest[i - |ws[0]| - 1];
        }
      }
    }
  }

  /** Joined words begin with the first word's first character and end with
      the last word's last one. */
  lemma {:induction false} JoinWordEnds(ws: seq<string>, sep: char)
    requires ws != [] && forall k :: 0 <= k < |ws| ==> Word(ws[k])
    ensures Word(ws[0]) && Word(ws[|ws| - 1])
    ensures var j := Join(ws, [sep]);
      j != [] && j[0] == ws[0][0] && j[|j| - 1] == ws[|ws| - 1][|ws[|ws| - 1]| - 1]
    decreases |ws|
  {
    if |ws| > 1 {
      JoinWordEnds(ws[1..], sep);
      var rest := Join(ws[1..], [sep]);
      assert Join(ws, [sep]) == ws[0] + [sep] + rest;
    }
  }

  /** Lower-casing and filtering leave words and spaces alone. */
  lemma KeptWords(ws: seq<string>)
    requires forall k :: 0 <= k < |ws| ==> Word(ws[k])
    ensures ToLower(Join(ws, [' '])) == Join(ws, [' '])
    ensures Filter(Join(ws, [' ']), Source()) == Join(ws, [' '])
  {
    var x := Join(ws, [' ']);
    JoinWordChars(ws, ' ');
    LowerKeeps(x);
    assert forall i :: 0 <= i < |x| ==> Source()(x[i]);
    FilterAll(x, Source());
  }

  /** Words of `[a-z0-9]` separated by single spaces come out separated by
      single hyphens, as in the source's examples "task management
      application" and "nodejs with typescript" once lower-cased. */
  lemma SlugWords(ws: seq<string>)
    requires ws != [] && forall k :: 0 <= k < |ws| ==> Word(ws[k])
    ensures Slug(Join(ws, " ")) == Join(ws, "-")
  {
    var x := Join(ws, [' ']);
    var y := Join(ws, ['-']);
    SqueezedWords(ws);
    JoinWordEnds(ws, '-');
    assert DropFirst(y, '-') == y;
    assert Slug(x) == y;
  }

  /** Before trimming, the spaces between words have become hyphens. */
  lemma SqueezedWords(ws: seq<string>)
    requires forall k :: 0 <= k < |ws| ==> Word(ws[k])
    ensures Squeezed(Join(ws, [' '])) == Join(ws, ['-'])
  {
    var x := Join(ws, [' ']);
    var y := Join(ws, ['-']);
    KeptWords(ws);
    assert forall k, i :: 0 <= k < |ws| && 0 <= i < |ws[k]| ==> WordChar(ws[k][i]);
    CollapseWords(ws, ' ', Space(), '-', false);
    assert Collapse(x, Space(), '-') == y;
    CollapseWords(ws, '-', Hyphen(), '-', false);
  }

  /** `option || ask(question)`: the option when it is given and not empty,
      otherwise the answer; and the questions asked. */
  function Answer(option: Option<string>, ask: Ask, question: Question): (string, seq<Question>) {
    if option.Some? && option.value != "" then (option.value, []) else (ask(Prompt(question)), [question])
  }

  /** The title, description and stack, each checked right after it is
      gathered; and every question asked on the way. */
  function Gathered(opts: InitProjectOptions, ask: Ask): (Result<(string, string, string)>, seq<Question>) {
    var title := Answer(opts.projectTitle, ask, TitleQuestion);
    if Trim(title.0) == "" then (Err("Project title cannot be empty"), title.1)
    else
      var description := Answer(opts.projectDescription, ask, DescriptionQuestion);
      if Trim(description.0) == "" then (Err("Project description cannot be empty"), title.1 + description.1)
      else
        var stack := Answer(opts.initialStack, ask, StackQuestion);
        if Trim(stack.0) == "" then (Err("Initial stack cannot be empty"), title.1 + description.1 + stack.1)
        else (Ok((title.0, description.0, stack.0)), title.1 + description.1 + stack.1)
  }

  /** A value is asked for only when its option is missing or empty. */
  lemma AskedWhenMissing(opts: InitProjectOptions, ask: Ask)
    ensures var asked := Gathered(opts, ask).1;
      && (TitleQuestion in asked <==> opts.projectTitle.None? || opts.projectTitle.value == "")
      && (DescriptionQuestion in asked ==> opts.projectDescription.None? || opts.projectDescription.value == "")
      && (StackQuestion in asked ==> opts.initialStack.None? || opts.initialStack.value == "")
  {
    var asked := Gathered(opts, ask).1;
    var q1 := Answer(opts.projectTitle, ask, TitleQuestion).1;
    var q2 := Answer(opts.projectDescription, ask, DescriptionQuestion).1;
    var q3 := Answer(opts.initialStack, ask, StackQuestion).1;
    AnswerAsks(opts.projectTitle, ask, TitleQuestion);
    AnswerAsks(opts.projectDescription, ask, DescriptionQuestion);
    AnswerAsks(opts.initialStack, ask, StackQuestion);
    assert asked == q1 || asked == q1 + q2 || asked == q1 + q2 + q3;
  }

  /** One answer asks its own question, and only when the option is missing
      or empty. */
  lemma AnswerAsks(option: Option<string>, ask: Ask, question: Question)
    ensures var asked := Answer(option, ask, question).1;
      && (asked == [] || asked == [question])
      && (asked == [question] <==> option.None? || option.value == "")
  {
  }

  /** Gathering stops at the first value that is blank: nothing after it is
      asked. */
  lemma AskedUntilBlank(opts: InitProjectOptions, ask: Ask)
    ensures var asked := Gathered(opts, ask).1;
      var title := Answer(opts.projectTitle, ask, TitleQuestion).0;
      var description := Answer(opts.projectDescription, ask, DescriptionQuestion).0;
      && (Trim(title) == "" ==> DescriptionQuestion !in asked && StackQuestion !in asked)
      && (Trim(description) == "" ==> StackQuestion !in asked)
  {
    var asked := Gathered(opts, ask).1;
    var (title, q1) := Answer(opts.projectTitle, ask, TitleQuestion);
    var (description, q2) := Answer(opts.projectDescription, ask, DescriptionQuestion);
    if Trim(title) == "" {
      assert asked == q1;
    } else if Trim(description) == "" {
      assert asked == q1 + q2;
    }
  }

  /** The values are checked in the order title, description, stack, and the
      first blank one decides the error; with none blank the gathered values
      are the result. */
  lemma GatherErrors(opts: InitProjectOptions, ask: Ask)
    ensures var r := Gathered(opts, ask).0;
      var title := Answer(opts.projectTitle, ask, TitleQuestion).0;
      var description := Answer(opts.projectDescription, ask, DescriptionQuestion).0;
      var stack := Answer(opts.initialStack, ask, StackQuestion).0;
      && (r == Err("Project title cannot be empty") <==> Trim(title) == "")
      && (r == Err("Project description cannot be empty") <==> Trim(title) != "" && Trim(description) == "")
      && (r == Err("Initial stack cannot be empty") <==> Trim(title) != "" && Trim(description) != "" && Trim(stack) == "")
      && (r.Ok? <==> Trim(title) != "" && Trim(description) != "" && Trim(stack) != "")
      && (r.Ok? ==> r.value == (title, description, stack))
  {
  }

  /** The folders of a project named `name` below `cwd`. */
  datatype Layout = Layout(meta: Path, base: Path, docs: Path, impls: Path)

  /** `path.join` of the working directory and the folder names. */
  function LayoutOf(cwd: Path, name: string): Layout {
    var meta := JoinPath(cwd, name);
    var base := JoinPath(meta, "base");
    var docs := JoinPath(base, "docs");
    Layout(meta, base, docs, JoinPath(docs, "impls"))
  }

  lemma FolderSegments()
    ensures IsSegment("base") && IsSegment("docs") && IsSegment("impls")
    ensures IsSegment("README.md") && IsSegment("project-setup.md")
  {
    PlainName("base");
    PlainName("docs");
    PlainName("impls");
    PlainName("README.md");
    PlainName("project-setup.md");
  }

  /** The project folder is the slug inside the working directory (the
      working directory itself for an empty slug), and `base`, `docs` and
      `impls` are nested below it. */
  lemma LayoutPlaces(cwd: Path, title: string)
    ensures var name := Slug(title);
      var l := LayoutOf(cwd, name);
      && (name != "" ==> l.meta == cwd + [name])
      && (name == "" ==> l.meta == cwd)
      && l.base == l.meta + ["base"] && l.docs == l.base + ["docs"] && l.impls == l.docs + ["impls"]
  {
    var name := Slug(title);
    SlugShape(title);
    assert NoSlash(name);
    NoSlashSplit(name);
    if name != "" {
      assert name[0] != '.';
      PlainName(name);
      JoinName(cwd, name);
    } else {
      assert Walk(cwd, [""]) == Walk(cwd, [""][1..]);
    }
    var l := LayoutOf(cwd, name);
    FolderSegments();
    JoinName(l.meta, "base");
    JoinName(l.base, "docs");
    JoinName(l.docs, "impls");
  }

  function ReadmePath(l: Layout): Path {
    JoinPath(l.docs, "README.md")
  }

  function ImplementationPath(l: Layout, stackFile: string): Path {
    JoinPath(l.impls, stackFile + ".md")
  }

  function SetupPath(l: Layout): Path {
    JoinPath(l.docs, "project-setup.md")
  }

  /** The README and the setup guide sit in `docs`, the implementation file
      in `impls`. */
  lemma DocumentPlaces(l: Layout, stackFile: string)
    requires NoSlash(stackFile)
    ensures ReadmePath(l) == l.docs + ["README.md"]
    ensures ImplementationPath(l, stackFile) == l.impls + [stackFile + ".md"]
    ensures SetupPath(l) == l.docs + ["project-setup.md"]
  {
    FolderSegments();
    MdSegment(stackFile);
    JoinName(l.docs, "README.md");
    JoinName(l.impls, stackFile + ".md");
    JoinName(l.docs, "project-setup.md");
  }

  /** The project README. */
  function ReadmeContent(id: string, title: string, description: string): string {
    Document(id, "project", title, description)
  }

  /** The first implementation file; the stack is both its name and its
      description. */
  function ImplementationContent(id: string, title: string, stack: string): string {
    Document(id, "implementation", stack + " Implementation of " + title, stack)
  }

  /** `mkdir -p base`, `mkdir -p impls`, then `git init` in `base`. */
  function Scaffold(t: Tree, exec: Exec, l: Layout): Result<Tree> {
    match MakeDirs(t, l.base)
    case Err(e) => Err(e)
    case Ok(t1) =>
      match MakeDirs(t1, l.impls)
      case Err(e) => Err(e)
      case Ok(t2) => exec(t2, l.base, "git init")
  }

  /** The README with the first id, the implementation file with the next,
      then the setup guide copied in. */
  function Documents(t: Tree, l: Layout, stackFile: string, ids: IdSource, guide: Result<string>,
                     title: string, description: string, stack: string): (Result<()>, Tree, IdSource) {
    var (readmeId, ids1) := ids.Take();
    match WriteFile(t, ReadmePath(l), ReadmeContent(readmeId, title, description))
    case Err(e) => (Err(e), t, ids1)
    case Ok(t1) =>
      var (implId, ids2) := ids1.Take();
      match WriteFile(t1, ImplementationPath(l, stackFile), ImplementationContent(implId, title, stack))
      case Err(e) => (Err(e), t1, ids2)
      case Ok(t2) =>
        match guide
        case Err(e) => (Err(e), t2, ids2)
        case Ok(text) =>
          match WriteFile(t2, SetupPath(l), text)
          case Err(e) => (Err(e), t2, ids2)
          case Ok(t3) => (Ok(()), t3, ids2)
  }

  /** Both documents and the guide are written where the layout says, the
      README with the first id and the implementation file with the second,
      and nothing else changes; a failed step keeps the writes before it. */
  lemma DocumentsEffect(t: Tree, l: Layout, stackFile: string, ids: IdSource, guide: Result<string>,
                        title: string, description: string, stack: string)
    ensures var d := Documents(t, l, stackFile, ids, guide, title, description, stack);
      && d.2.stream == ids.stream && ids.used + 1 <= d.2.used <= ids.used + 2
      && (d.0.Ok? <==>
        && WriteFile(t, ReadmePath(l), ReadmeContent(ids.stream(ids.used), title, description)).Ok?
        && WriteFile(t[ReadmePath(l) := File(ReadmeContent(ids.stream(ids.used), title, description))],
                     ImplementationPath(l, stackFile), ImplementationContent(ids.stream(ids.used + 1), title, stack)).Ok?
        && guide.Ok?
        && WriteFile(t[ReadmePath(l) := File(ReadmeContent(ids.stream(ids.used), title, description))]
                      [ImplementationPath(l, stackFile) := File(ImplementationContent(ids.stream(ids.used + 1), title, stack))],
                     SetupPath(l), guide.value).Ok?)
      && (d.0.Ok? ==>
        && d.2.used == ids.used + 2
        && d.1 == t[ReadmePath(l) := File(ReadmeContent(ids.stream(ids.used), title, description))]
                   [ImplementationPath(l, stackFile) := File(ImplementationContent(ids.stream(ids.used + 1), title, stack))]
                   [SetupPath(l) := File(guide.value)])
  {
  }

  /** `git add -A`, then `git commit -m "Initial project setup"`, in `base`. */
  function Commit(t: Tree, exec: Exec, l: Layout): Result<Tree> {
    match exec(t, l.base, "git add -A")
    case Err(e) => Err(e)
    case Ok(t1) => exec(t1, l.base, "git commit -m \"Initial project setup\"")
  }

  /** Everything after the values are gathered. A project folder that is
      already there is an error before anything is made; each later step
      can fail, keeping what was done before it. */
  function Initialized(t: Tree, l: Layout, stackFile: string, exec: Exec, ids: IdSource, guide: Result<string>,
                       title: string, description: string, stack: string): (Result<()>, Tree, IdSource) {
    if l.meta in t then (Err("Project directory already exists: " + ToString(l.meta)), t, ids)
    else
      match Scaffold(t, exec, l)
      case Err(e) => (Err(e), t, ids)
      case Ok(t1) =>
        var (r, t2, ids') := Documents(t1, l, stackFile, ids, guide, title, description, stack);
        if r.Err? then (r, t2, ids')
        else
          match Commit(t2, exec, l)
          case Err(e) => (Err(e), t2, ids')
          case Ok(t3) => (Ok(()), t3, ids')
  }

  /** An existing project folder stops the command with nothing made and no
      id taken. */
  lemma ExistingProject(t: Tree, cwd: Path, exec: Exec, ids: IdSource, guide: Result<string>,
                        title: string, description: string, stack: string)
    requires LayoutOf(cwd, Slug(title)).meta in t
    ensures Initialized(t, LayoutOf(cwd, Slug(title)), Slug(stack), exec, ids, guide, title, description, stack)
      == (Err("Project directory already exists: " + ToString(LayoutOf(cwd, Slug(title)).meta)), t, ids)
  {
  }

  /** `initProject`: gather and check the values, then lay the project out. */
  method InitProject(t: Tree, cwd: Path, opts: InitProjectOptions, ask: Ask, exec: Exec, ids: IdSource, guide: Result<string>)
    returns (r: Result<()>, t': Tree, ids': IdSource, asked: seq<Question>)
    ensures asked == Gathered(opts, ask).1
    ensures var g := Gathered(opts, ask).0;
      && (g.Err? ==> r == Err(g.msg) && t' == t && ids' == ids)
      && (g.Ok? ==> (r, t', ids') == Initialized(t, LayoutOf(cwd, Slug(g.value.0)), Slug(g.value.2), exec, ids, guide,
                                                 g.value.0, g.value.1, g.value.2))
  {
    var values;
    values, asked := Gather(opts, ask);
    if values.Err? {
      return Err(values.msg), t, ids, asked;
    }
    var (title, description, stack) := values.value;
    r, t', ids' := Create(t, LayoutOf(cwd, Slug(title)), Slug(stack), exec, ids, guide, title, description, stack);
  }

  /** The prompts and checks of `initProject`. */
  method Gather(opts: InitProjectOptions, ask: Ask) returns (r: Result<(string, string, string)>, asked: seq<Question>)
    ensures (r, asked) == Gathered(opts, ask)
  {
    var title, q1 := Request(opts.projectTitle, ask, TitleQuestion);
    asked := q1;
    if Trim(title) == "" {
      return Err("Project title cannot be empty"), asked;
    }
    var description, q2 := Request(opts.projectDescription, ask, DescriptionQuestion);
    asked := asked + q2;
    if Trim(description) == "" {
      return Err("Project description cannot be empty"), asked;
    }
    var stack, q3 := Request(opts.initialStack, ask, StackQuestion);
    asked := asked + q3;
    if Trim(stack) == "" {
      return Err("Initial stack cannot be empty"), asked;
    }
    return Ok((title, description, stack)), asked;
  }

  /** `option || await question(q)`. */
  method Request(option: Option<string>, ask: Ask, question: Question) returns (value: string, asked: seq<Question>)
    ensures (value, asked) == Answer(option, ask, question)
  {
    value := if option.Some? then option.value else "";
    asked := [];
    if value == "" {
      value := ask(Prompt(question));
      asked := [question];
    }
  }

  /** The file-system part of `initProject`. */
  method Create(t: Tree, l: Layout, stackFile: string, exec: Exec, ids: IdSource, guide: Result<string>,
                title: string, description: string, stack: string)
    returns (r: Result<()>, t': Tree, ids': IdSource)
    ensures (r, t', ids') == Initialized(t, l, stackFile, exec, ids, guide, title, description, stack)
  {
    if l.meta in t {
      return Err("Project directory already exists: " + ToString(l.meta)), t, ids;
    }
    var made := MakeLayout(t, exec, l);
    if made.Err? {
      return Err(made.msg), t, ids;
    }
    r, t', ids' := WriteDocuments(made.value, l, stackFile, ids, guide, title, description, stack);
    if r.Err? {
      return;
    }
    var committed := CommitAll(t', exec, l);
    if committed.Err? {
      return Err(committed.msg), t', ids';
    }
    t' := committed.value;
  }

  /** The folders and `git init`. */
  method MakeLayout(t: Tree, exec: Exec, l: Layout) returns (r: Result<Tree>)
    ensures r == Scaffold(t, exec, l)
  {
    r := MakeDirs(t, l.base);
    if r.Err? {
      return;
    }
    r := MakeDirs(r.value, l.impls);
    if r.Err? {
      return;
    }
    r := exec(r.value, l.base, "git init");
  }

  /** The initial commit. */
  method CommitAll(t: Tree, exec: Exec, l: Layout) returns (r: Result<Tree>)
    ensures r == Commit(t, exec, l)
  {
    r := exec(t, l.base, "git add -A");
    if r.Ok? {
      r := exec(r.value, l.base, "git commit -m \"Initial project setup\"");
    }
  }

  /** The three writes of `initProject`. */
  method WriteDocuments(t: Tree, l: Layout, stackFile: string, ids: IdSource, guide: Result<string>,
                        title: string, description: string, stack: string)
    returns (r: Result<()>, t': Tree, ids': IdSource)
    ensures (r, t', ids') == Documents(t, l, stackFile, ids, guide, title, description, stack)
  {
    var (readmeId, ids1) := ids.Take();
    ids' := ids1;
    var written := WriteFile(t, ReadmePath(l), ReadmeContent(readmeId, title, description));
    if written.Err? {
      return Err(written.msg), t, ids';
    }
    t' := written.value;
    var (implId, ids2) := ids'.Take();
    ids' := ids2;
    written := WriteFile(t', ImplementationPath(l, stackFile), ImplementationContent(implId, title, stack));
    if written.Err? {
      return Err(written.msg), t', ids';
    }
    t' := written.value;
    if guide.Err? {
      return Err(guide.msg), t', ids';
    }
    written := WriteFile(t', SetupPath(l), guide.value);
    if written.Err? {
      return Err(written.msg), t', ids';
    }
    return Ok(()), written.value, ids';
  }

  /** Only what survives lower-casing and filtering matters to a slug. */
  lemma SlugKept(s: string)
    ensures Slug(s) == Slug(Filter(ToLower(s), Source()))
  {
    var k := Filter(ToLower(s), Source());
    assert forall i :: 0 <= i < |k| ==> SlugSource(k[i]);
    LowerKeeps(k);
    FilterAll(k, Source());
  }

  /** The source's test examples: "My Cool Project!!! 2024" and "Ruby on
      Rails". */
  lemma SlugExamples()
    ensures Slug("My Cool Project!!! 2024") == "my-cool-project-2024"
    ensures Slug("Ruby on Rails") == "ruby-on-rails"
  {
    ProjectExample("My Cool Project!!! 2024");
    RubyExample("Ruby on Rails");
  }

  lemma ProjectExample(p: string)
    requires p == "My Cool Project!!! 2024"
    ensures Slug(p) == "my-cool-project-2024"
  {
    var ws := ["my", "cool", "project", "2024"];
    ProjectWords(ws);
    ProjectJoins(ws);
    ProjectKept(p, ws);
    SlugKept(p);
    SlugWords(ws);
  }

  lemma ProjectKept(p: string, ws: seq<string>)
    requires p == "My Cool Project!!! 2024" && ws == ["my", "cool", "project", "2024"]
    ensures Filter(ToLower(p), Source()) == Join(ws, " ")
  {
    var a, b := "my cool project", " 2024";
    ProjectLower(p, a, b);
    DropBangs(a, b);
    ProjectWords(ws);
    ProjectJoins(ws);
    assert a + b == Join(ws, " ");
    KeptWords(ws);
  }

  /** The three `!` are dropped by the filter. */
  lemma DropBangs(a: string, b: string)
    ensures Filter(a + "!!!" + b, Source()) == Filter(a + b, Source())
  {
    var bangs := "!!!";
    FilterAppend(a + bangs, b, Source());
    FilterAppend(a, bangs, Source());
    assert forall i :: 0 <= i < |bangs| ==> !Source()(bangs[i]);
    FilterNone(bangs, Source());
    FilterAppend(a, b, Source());
  }

  lemma ProjectLower(p: string, a: string, b: string)
    requires p == "My Cool Project!!! 2024" && a == "my cool project" && b == " 2024"
    ensures ToLower(p) == a + "!!!" + b
  {
  }

  lemma RubyExample(p: string)
    requires p == "Ruby on Rails"
    ensures Slug(p) == "ruby-on-rails"
  {
    var vs := ["ruby", "on", "rails"];
    RubyWords(vs);
    RubyJoins(vs);
    RubyLower(p);
    KeptWords(vs);
    SlugKept(p);
    SlugWords(vs);
  }

  lemma RubyLower(p: string)
    requires p == "Ruby on Rails"
    ensures ToLower(p) == "ruby on rails"
  {
  }

  lemma ProjectWords(ws: seq<string>)
    requires ws == ["my", "cool", "project", "2024"]
    ensures forall k :: 0 <= k < |ws| ==> Word(ws[k])
  {
    assert Word(ws[0]) && Word(ws[1]) && Word(ws[2]) && Word(ws[3]);
  }

  lemma ProjectJoins(ws: seq<string>)
    requires ws == ["my", "cool", "project", "2024"]
    ensures Join(ws, " ") == "my cool project 2024" && Join(ws, "-") == "my-cool-project-2024"
  {
    JoinFour("my", "cool", "project", "2024", " ");
    JoinFour("my", "cool", "project", "2024", "-");
  }

  lemma JoinFour(a: string, b: string, c: string, d: string, sep: string)
    ensures Join([a, b, c, d], sep) == a + sep + b + sep + c + sep + d
  {
    var ws := [a, b, c, d];
    assert ws[1..] == [b, c, d] && ws[2..] == [c, d] && ws[3..] == [d];
    assert Join(ws[2..], sep) == c + sep + d;
    assert Join(ws[1..], sep) == b + sep + (c + sep + d);
  }

  lemma RubyWords(ws: seq<string>)
    requires ws == ["ruby", "on", "rails"]
    ensures forall k :: 0 <= k < |ws| ==> Word(ws[k])
  {
    assert Word(ws[0]) && Word(ws[1]) && Word(ws[2]);
  }

  lemma RubyJoins(ws: seq<string>)
    requires ws == ["ruby", "on", "rails"]
    ensures Join(ws, " ") == "ruby on rails" && Join(ws, "-") == "ruby-on-rails"
  {
    assert ws[1..] == ["on", "rails"] && ws[2..] == ["rails"];
    assert Join(ws[2..], " ") == "rails";
    assert Join(ws[1..], " ") == "on" + " " + "rails";
    assert Join(ws[2..], "-") == "rails";
    assert Join(ws[1..], "-") == "on" + "-" + "rails";
  }
}
