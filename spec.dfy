/** `spec`: the `spec record-commits` validation hook and `spec changelog`,
    which creates a new document below `spec-history/` in the docs
    directory. The title suggestion of the language model is a function; the
    docs directory is given as what `getDocsDirectory` answers. */
module Spec {
  import opened Wrappers
  import opened Strings
  import opened Paths
  import opened FileSystem
  import opened Values
  import opened Types
  import opened Envelope
  import opened FileTypes
  import opened FileResolver
  import opened CommitRecorder
  import opened GitUtils

  const History := "spec-history/"

  /** `spec-history/` is the folder name and a slash. */
  lemma HistoryFolder()
    ensures History == "spec-history" + "/" && !Contains("spec-history", "/")
  {
    PlainName("spec-history");
  }

  /** `s.replace(/^\/+/, '')`: every leading `/` removed. */
  function StripSlashes(s: string): (r: string)
    ensures |r| <= |s| && s[|s| - |r|..] == r
    ensures forall i :: 0 <= i < |s| - |r| ==> s[i] == '/'
    ensures r != "" ==> r[0] != '/'
    decreases |s|
  {
    if s != "" && s[0] == '/' then StripSlashes(s[1..]) else s
  }

  /** Why a document that is not a spec is refused. */
  function NotSpecMessage(info: FileInfo): string {
    "Error: Spec commits have to be added to spec files. The file you entered, "
      + Label(info.fileType) + " " + ToText(info.id) + " at " + info.displayPath + ", is a "
      + Description(info.fileType) + " file."
  }

  /** Why a spec outside the changelog folder is refused. */
  function NotInHistoryMessage(info: FileInfo): string {
    "Error: Spec commit recording only applies to files in docs/spec-history/. The file you entered, "
      + Label(info.fileType) + " " + ToText(info.id) + " at " + info.displayPath
      + ", is not in the spec-history directory."
  }

  /** The validation hook of `recordSpecCommits` as written: a spec, whose
      `filePath` without its leading slashes starts with `spec-history/`. */
  function SpecHistoryOnlyAsWritten(info: FileInfo): (r: Option<string>)
    ensures info.fileType != "spec" ==> r == Some(NotSpecMessage(info))
    ensures info.fileType == "spec" && !StartsWith(StripSlashes(info.filePath), History) ==>
      r == Some(NotInHistoryMessage(info))
    ensures r.None? <==> info.fileType == "spec" && StartsWith(StripSlashes(info.filePath), History)
  {
    if info.fileType != "spec" then Some(NotSpecMessage(info))
    else if !StartsWith(StripSlashes(info.filePath), History) then Some(NotInHistoryMessage(info))
    else None
  }

  /** `filePath` is relative to the git root, so a spec that resolves below
      `docs/spec-history/` has a `filePath` starting with `/docs/`, and the
      hook as written refuses it. */
  lemma HistorySpecRefused(t: Tree, cwd: Path, yaml: Yaml, abs: Path, shown: string, rest: seq<string>)
    requires var r := InfoAt(t, cwd, yaml, abs, shown);
      r.Ok? && abs == r.value.gitRoot + ["docs", "spec-history"] + rest
    ensures var info := InfoAt(t, cwd, yaml, abs, shown).value;
      SpecHistoryOnlyAsWritten(info) == Some(if info.fileType == "spec" then NotInHistoryMessage(info) else NotSpecMessage(info))
  {
    HistoryFilePath(t, cwd, yaml, abs, shown, rest);
    DocsPathRefused(InfoAt(t, cwd, yaml, abs, shown).value, ["docs", "spec-history"] + rest);
  }

  /** The `filePath` of such a spec is `/docs/spec-history/...`. */
  lemma HistoryFilePath(t: Tree, cwd: Path, yaml: Yaml, abs: Path, shown: string, rest: seq<string>)
    requires var r := InfoAt(t, cwd, yaml, abs, shown);
      r.Ok? && abs == r.value.gitRoot + ["docs", "spec-history"] + rest
    ensures InfoAt(t, cwd, yaml, abs, shown).value.filePath == "/" + Join(["docs", "spec-history"] + rest, "/")
  {
    var info := InfoAt(t, cwd, yaml, abs, shown).value;
    InfoAtFilePath(t, cwd, yaml, abs, shown);
    assert abs[|info.gitRoot|..] == ["docs", "spec-history"] + rest;
  }

  /** A `filePath` of `/docs/...` never passes the hook as written. */
  lemma DocsPathRefused(info: FileInfo, segs: seq<string>)
    requires segs != [] && segs[0] == "docs" && info.filePath == "/" + Join(segs, "/")
    ensures SpecHistoryOnlyAsWritten(info) == Some(if info.fileType == "spec" then NotInHistoryMessage(info) else NotSpecMessage(info))
  {
    var rel := Join(segs, "/");
    LeadingD(segs);
    assert ("/" + rel)[1..] == rel;
    assert StripSlashes(info.filePath) == rel;
    assert rel[0] != History[0];
  }

  /** The join of segments whose first is `docs` starts with `d`. */
  lemma LeadingD(segs: seq<string>)
    requires segs != [] && segs[0] == "docs"
    ensures Join(segs, "/") != "" && Join(segs, "/")[0] == 'd'
  {
    if |segs| > 1 {
      assert Join(segs, "/") == "docs" + "/" + Join(segs[1..], "/");
    }
  }

  /** The path is below `<docs>/spec-history`. */
  predicate InSpecHistory(docs: Path, abs: Path) {
    |abs| > |docs| + 1 && abs[..|docs| + 1] == docs + ["spec-history"]
  }

  /** The hook as evidently intended: a spec below `spec-history` in the
      docs directory. */
  function SpecHistoryOnly(docs: Path, info: FileInfo): (r: Option<string>)
    ensures info.fileType != "spec" ==> r == Some(NotSpecMessage(info))
    ensures info.fileType == "spec" && !InSpecHistory(docs, info.absolutePath) ==> r == Some(NotInHistoryMessage(info))
    ensures r.None? <==> info.fileType == "spec" && InSpecHistory(docs, info.absolutePath)
  {
    if info.fileType != "spec" then Some(NotSpecMessage(info))
    else if !InSpecHistory(docs, info.absolutePath) then Some(NotInHistoryMessage(info))
    else None
  }

  /** The corrected hook takes every spec below `<docs>/spec-history`, and
      refuses those below `<docs>/specs`. */
  lemma SpecHistoryOnlyPlaces(docs: Path, info: FileInfo, rest: seq<string>)
    requires info.fileType == "spec" && rest != []
    ensures info.absolutePath == docs + ["spec-history"] + rest ==> SpecHistoryOnly(docs, info).None?
    ensures info.absolutePath == docs + ["specs"] + rest ==> SpecHistoryOnly(docs, info) == Some(NotInHistoryMessage(info))
  {
    var abs := info.absolutePath;
    if abs == docs + ["specs"] + rest {
      assert abs[..|docs| + 1][|docs|] == "specs";
      assert (docs + ["spec-history"])[|docs|] == "spec-history";
      assert !InSpecHistory(docs, abs);
    }
    if abs == docs + ["spec-history"] + rest {
      assert abs[..|docs| + 1] == docs + ["spec-history"];
    }
  }

  /** `recordSpecCommits`, with the corrected hook: the shared recording
      routine, refusing anything but a spec below `spec-history` in the docs
      directory before git is asked, and writing nothing then. */
  method RecordSpecCommits(
    t: Tree, cwd: Path, yaml: Yaml, h: Helpers, isGitRepo: bool, gitLog: Result<string>, docs: Path, idOrPath: string)
    returns (r: Result<()>, t': Tree)
    requires WellFormed(t) && Normal(cwd)
    ensures r.Err? ==> t' == t
    ensures r.Ok? ==>
      isGitRepo && Resolution(t, cwd, yaml, idOrPath).Ok? && gitLog.Ok?
      && Resolution(t, cwd, yaml, idOrPath).value.fileType == "spec"
      && InSpecHistory(docs, Resolution(t, cwd, yaml, idOrPath).value.absolutePath)
      && IsFile(t, Resolution(t, cwd, yaml, idOrPath).value.absolutePath)
    ensures var res := Resolution(t, cwd, yaml, idOrPath);
      isGitRepo && res.Ok? && SpecHistoryOnly(docs, res.value).Some? ==>
        r == Err(SpecHistoryOnly(docs, res.value).value)
    ensures var res := Resolution(t, cwd, yaml, idOrPath);
      r.Ok? ==>
        var abs := res.value.absolutePath;
        var parsed := Parse(yaml, t[abs].content);
        t' == t[abs := File(h.serialize(h.addCommits(parsed.frontmatter, ParseGitLog(gitLog.value)), parsed.body))]
    ensures var res := Resolution(t, cwd, yaml, idOrPath);
      r.Ok? && Prepends(h) ==>
        var parsed := Parse(yaml, t[res.value.absolutePath].content);
        CommitsPrepended(parsed.frontmatter, ParseGitLog(gitLog.value),
                         h.addCommits(parsed.frontmatter, ParseGitLog(gitLog.value)))
  {
    r, t' := RecordCommitsToFile(t, cwd, yaml, h, isGitRepo, gitLog, idOrPath, info => SpecHistoryOnly(docs, info));
  }

  /** `spec-history/` put in front unless it is there. */
  function WithHistory(p: string): (r: string)
    ensures StartsWith(r, History)
    ensures StartsWith(p, History) ==> r == p
    ensures !StartsWith(p, History) ==> r == History + p
  {
    if StartsWith(p, History) then p
    else
      PrefixOfConcat(History, p);
      History + p
  }

  /** The normalised changelog path of `createSpecChangelog`. */
  function ChangelogPath(filepath: string): (r: string)
    ensures StartsWith(r, History) && EndsWith(r, ".md")
  {
    var p := WithHistory(filepath);
    assert (p + ".md")[..|History|] == p[..|History|];
    WithMd(p)
  }

  /** Normalising adds each part only where it is missing: a path that has
      both is kept, and normalising twice is normalising once. */
  lemma ChangelogPathIdempotent(filepath: string)
    ensures ChangelogPath(ChangelogPath(filepath)) == ChangelogPath(filepath)
    ensures ChangelogPath(filepath) == filepath <==> StartsWith(filepath, History) && EndsWith(filepath, ".md")
  {
  }

  /** The path the user gave is kept inside the normalised one, between
      what is added. */
  lemma ChangelogPathKeeps(filepath: string)
    ensures var r := ChangelogPath(filepath);
      var pre := if StartsWith(filepath, History) then "" else History;
      var suf := if EndsWith(WithHistory(filepath), ".md") then "" else ".md";
      r == pre + filepath + suf
  {
  }

  /** JavaScript truthiness of an optional text: present and not empty. */
  predicate Given(s: Option<string>) {
    s.Some? && s.value != ""
  }

  /** The language model is asked for a title exactly when a description is
      given and a title is not. */
  predicate TitleRequested(description: Option<string>, title: Option<string>) {
    Given(description) && !Given(title)
  }

  /** The changelog body: a `# <title>` heading and a blank line where a
      title is given or suggested, then the description where given. */
  function ChangelogBody(description: Option<string>, title: Option<string>, suggestTitle: string -> string): string {
    if Given(description) || Given(title) then
      var actual := if TitleRequested(description, title) then Some(suggestTitle(description.value)) else title;
      (if Given(actual) then "# " + actual.value + "\n\n" else "") + (if Given(description) then description.value else "")
    else ""
  }

  /** The body in each case: empty with neither; the given title's heading
      and then the description; or, for a description alone, the suggested
      title's heading, if it is not empty, then the description. */
  lemma ChangelogBodyCases(description: Option<string>, title: Option<string>, suggestTitle: string -> string)
    ensures !Given(description) && !Given(title) ==> ChangelogBody(description, title, suggestTitle) == ""
    ensures Given(title) ==>
      ChangelogBody(description, title, suggestTitle)
        == "# " + title.value + "\n\n" + (if Given(description) then description.value else "")
    ensures TitleRequested(description, title) ==>
      var suggested := suggestTitle(description.value);
      ChangelogBody(description, title, suggestTitle)
        == (if suggested != "" then "# " + suggested + "\n\n" else "") + description.value
    ensures Given(description) ==> EndsWith(ChangelogBody(description, title, suggestTitle), description.value)
  {
    var body := ChangelogBody(description, title, suggestTitle);
    if Given(description) {
      var head := body[..|body| - |description.value|];
      assert body == head + description.value;
    }
  }

  function SpecFrontmatter(id: string): (fm: Frontmatter)
    ensures Keys(fm) == ["id", "type"] && UniqueKeys(fm)
    ensures Get(fm, "id") == Some(Str(id)) && Get(fm, "type") == Some(Str("spec"))
  {
    var fm := [("id", Str(id)), ("type", Str("spec"))];
    assert fm[1].0 == "type";
    fm
  }

  /** The options of `createSpecChangelog`; the old string form is a path
      with neither description nor title. */
  datatype ChangelogOptions = ChangelogOptions(filepath: string, description: Option<string>, title: Option<string>)

  /** `createSpecChangelog`: the path normalised and checked to be free, its
      directory made, then one id taken, the title suggested where needed,
      and the document written. */
  method CreateSpecChangelog(
    t: Tree, docs: Path, h: Helpers, suggestTitle: string -> string, ids: IdSource, options: ChangelogOptions)
    returns (r: Result<string>, t': Tree, ids': IdSource, asked: Option<string>)
    ensures var full := JoinPath(docs, ChangelogPath(options.filepath));
      full in t ==> r == Err("File already exists: " + ChangelogPath(options.filepath)) && t' == t && ids' == ids && asked.None?
    ensures var full := JoinPath(docs, ChangelogPath(options.filepath));
      full !in t && MakeDirsIfMissing(t, Dirname(full)).Err? ==>
        r == Err(MakeDirsIfMissing(t, Dirname(full)).msg) && t' == t && ids' == ids && asked.None?
    ensures var full := JoinPath(docs, ChangelogPath(options.filepath));
      full !in t && MakeDirsIfMissing(t, Dirname(full)).Ok? ==>
        && ids' == ids.Take().1
        && (asked.Some? <==> TitleRequested(options.description, options.title))
        && (asked.Some? ==> asked.value == options.description.value)
    ensures var full := JoinPath(docs, ChangelogPath(options.filepath));
      full !in t && MakeDirsIfMissing(t, Dirname(full)).Ok? ==>
        var t1 := MakeDirsIfMissing(t, Dirname(full)).value;
        var content := h.serialize(SpecFrontmatter(ids.Take().0), ChangelogBody(options.description, options.title, suggestTitle));
        match WriteFile(t1, full, content)
        case Err(e) => r == Err(e) && t' == t1
        case Ok(t2) => r == Ok(ToString(full)) && t' == t2
  {
    t', ids', asked := t, ids, None;
    var normalizedPath := ChangelogPath(options.filepath);
    var fullFilePath := JoinPath(docs, normalizedPath);
    if fullFilePath in t {
      return Err("File already exists: " + normalizedPath), t', ids', asked;
    }
    var dirPath := Dirname(fullFilePath);
    if dirPath !in t {
      var made := MakeDirs(t, dirPath);
      if made.Err? {
        return Err(made.msg), t', ids', asked;
      }
      t' := made.value;
    }
    var id;
    id, ids' := ids.Take().0, ids.Take().1;
    var description, title := options.description, options.title;
    if TitleRequested(description, title) {
      asked := Some(description.value);
    }
    var body := ChangelogBody(description, title, suggestTitle);
    var written := WriteFile(t', fullFilePath, h.serialize(SpecFrontmatter(id), body));
    if written.Err? {
      return Err(written.msg), t', ids', asked;
    }
    t' := written.value;
    return Ok(ToString(fullFilePath)), t', ids', asked;
  }

  /** A changelog path whose segments are plain names lands below
      `<docs>/spec-history`. */
  lemma ChangelogInHistory(docs: Path, filepath: string)
    requires Normal(Strings.Split(ChangelogPath(filepath), "/"))
    ensures InSpecHistory(docs, JoinPath(docs, ChangelogPath(filepath)))
  {
    var p := ChangelogPath(filepath);
    var rest := p[|History|..];
    HistoryFolder();
    assert p == History + rest;
    FindSeparator("spec-history", rest, "/");
    assert p[..12] == "spec-history" && p[13..] == rest;
    var segs := Strings.Split(p, "/");
    assert segs == ["spec-history"] + Strings.Split(rest, "/");
    WalkNormal(docs, segs);
    assert JoinPath(docs, p) == docs + segs;
  }
}
