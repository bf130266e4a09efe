/** The oldest version of `organize` (`src/organizer.ts`): notes under
    `impl-history` are classified `implementation-note`, there is no
    `docs/specs/` rule, and the rewritten file has no newline after the
    body. */
module LegacyOrganizer {
  import opened Wrappers
  import opened Strings
  import opened Paths
  import opened FileSystem
  import opened Values
  import opened Types
  import opened Envelope
  import opened FileUtils
  import FileResolver
  import Organize
  import LegacyCore

  /** The rule table of this version's `detectFileType`; the first rule that
      matches wins. */
  function Classify(rel: string): string {
    if rel == "docs/README.md" then "project"
    else if StartsWith(rel, "docs/impls/") then "implementation"
    else if Contains(rel, "/impl-history/") then "implementation-note"
    else if Contains(rel, "/tests/") then "test"
    else "spec"
  }

  /** `detectFileType(filePath, gitRoot)`. */
  function DetectFileType(abs: Path, root: Path): string {
    Classify(Relative(root, abs))
  }

  /** The table agrees with the later one on every path but those the later
      one calls `ref-impl`, which this one calls `implementation-note`: the
      later `docs/specs/` rule changes nothing. */
  lemma ClassifyShared(rel: string)
    ensures FileResolver.Classify(rel) == "ref-impl" ==> Classify(rel) == "implementation-note"
    ensures FileResolver.Classify(rel) != "ref-impl" ==> Classify(rel) == FileResolver.Classify(rel)
  {
  }

  /** Each type in closed form: `project` is exactly `docs/README.md`, the
      `docs/impls/` prefix beats both substrings, `/impl-history/` beats
      `/tests/`, and everything else is a spec. */
  lemma ClassifyTable(rel: string)
    ensures Classify(rel) in {"project", "implementation", "implementation-note", "test", "spec"}
    ensures Classify(rel) == "project" <==> rel == "docs/README.md"
    ensures Classify(rel) == "implementation" <==> StartsWith(rel, "docs/impls/")
    ensures Classify(rel) == "implementation-note" <==>
      !StartsWith(rel, "docs/impls/") && Contains(rel, "/impl-history/")
    ensures Classify(rel) == "test" <==>
      !StartsWith(rel, "docs/impls/") && !Contains(rel, "/impl-history/") && Contains(rel, "/tests/")
    ensures Classify(rel) == "spec" <==>
      rel != "docs/README.md" && !StartsWith(rel, "docs/impls/")
      && !Contains(rel, "/impl-history/") && !Contains(rel, "/tests/")
  {
    FileResolver.ClassifyTable(rel);
    ClassifyShared(rel);
  }

  /** The envelope layout this version writes: no newline after the body. */
  function Render(yaml: Yaml, fm: Frontmatter, body: string): string {
    "---\n" + Trim(yaml.dump(Map(fm))) + "\n---\n\n" + body
  }

  /** The later layout is this one and a final newline. */
  lemma RenderShared(yaml: Yaml, fm: Frontmatter, body: string)
    ensures Organize.Render(yaml, fm, body) == Render(yaml, fm, body) + "\n"
  {
  }

  /** Reading a rendered document back gives the frontmatter and body it was
      rendered from. */
  lemma ParseRendered(yaml: Yaml, fm: Frontmatter, body: string)
    requires IsTrimmed(body) && Organize.DumpLoads(yaml, fm)
    ensures Parse(yaml, Render(yaml, fm, body)) == Parsed(fm, body)
  {
    var block := Trim(yaml.dump(Map(fm)));
    var rest := "\n" + body;
    assert Render(yaml, fm, body) == "---\n" + block + Fence + rest;
    SplitOfWritten(block, rest);
    assert rest == "\n" + body + "";
    TrimPadded("\n", body, "");
  }

  /** A non-empty trimmed body ends the text, so the text does not end in
      white space. */
  lemma RenderedEnd(yaml: Yaml, fm: Frontmatter, body: string)
    requires IsTrimmed(body) && body != []
    ensures var s := Render(yaml, fm, body); s[|s| - 1] == body[|body| - 1] && !IsSpace(s[|s| - 1])
  {
  }

  /** The new content of a document and what is left of the id stream. */
  function Organized(yaml: Yaml, content: string, fileType: string, ids: IdSource): (string, IdSource) {
    var p := Parse(yaml, content);
    var m := Organize.Merge(p.frontmatter, fileType, ids);
    (Render(yaml, m.0, p.body), m.1)
  }

  /** For the same type, the later single-file version writes this text and
      one more newline, and takes ids alike. */
  lemma OrganizedVersusCore(yaml: Yaml, content: string, fileType: string, ids: IdSource)
    ensures LegacyCore.Organized(yaml, content, fileType, ids).0 == Organized(yaml, content, fileType, ids).0 + "\n"
    ensures LegacyCore.Organized(yaml, content, fileType, ids).1 == Organized(yaml, content, fileType, ids).1
  {
    var p := Parse(yaml, content);
    RenderShared(yaml, Organize.Merge(p.frontmatter, fileType, ids).0, p.body);
  }

  /** The text reads back as the merged frontmatter and the old body, which
      ends the text when there is one: the id kept where there was one and
      taken from the stream where there was none, the type filled in only
      where missing, and every other key kept with its value. */
  lemma OrganizedReadsBack(yaml: Yaml, content: string, fileType: string, ids: IdSource)
    requires UniqueKeys(Parse(yaml, content).frontmatter)
    requires Organize.DumpLoads(yaml, Organize.Merge(Parse(yaml, content).frontmatter, fileType, ids).0)
    ensures var p := Parse(yaml, content);
      var once := Organized(yaml, content, fileType, ids).0;
      var fm := Parse(yaml, once).frontmatter;
      && Parse(yaml, once).body == p.body
      && (p.body != [] ==> once[|once| - 1] != '\n')
      && Get(fm, "id") == (if HasKey(p.frontmatter, "id") then Get(p.frontmatter, "id") else Some(Str(ids.stream(ids.used))))
      && Get(fm, "type") == (if HasKey(p.frontmatter, "type") then Get(p.frontmatter, "type") else Some(Str(fileType)))
      && (forall k :: k != "id" && k != "type" ==> Get(fm, k) == Get(p.frontmatter, k))
  {
    var p := Parse(yaml, content);
    var m := Organize.Merge(p.frontmatter, fileType, ids).0;
    ParseRendered(yaml, m, p.body);
    if p.body != [] {
      RenderedEnd(yaml, m, p.body);
    }
    Organize.MergeValues(p.frontmatter, fileType, ids);
  }

  /** Organizing an organized document again writes the same text. */
  lemma OrganizedIdempotent(yaml: Yaml, content: string, fileType: string, ids: IdSource, ids2: IdSource)
    requires UniqueKeys(Parse(yaml, content).frontmatter)
    requires Organize.DumpLoads(yaml, Organize.Merge(Parse(yaml, content).frontmatter, fileType, ids).0)
    ensures var once := Organized(yaml, content, fileType, ids).0;
      Organized(yaml, once, fileType, ids2).0 == once
  {
    var p := Parse(yaml, content);
    var m := Organize.Merge(p.frontmatter, fileType, ids).0;
    ParseRendered(yaml, m, p.body);
    Organize.MergeKeys(p.frontmatter, fileType, ids);
    Organize.MergeAgain(m, fileType, ids2);
  }

  /** `organizeFile(filePath)`: a missing path, then a missing git
      repository, both before anything is read; on success the one file is
      replaced by its organized text. */
  method OrganizeFile(t: Tree, cwd: Path, yaml: Yaml, ids: IdSource, filePath: string)
    returns (r: Result<()>, t': Tree, ids': IdSource)
    requires WellFormed(t)
    ensures var abs := Resolve(cwd, filePath);
      abs !in t ==> r == Err("File not found: " + filePath)
    ensures var abs := Resolve(cwd, filePath);
      abs in t && GitRoot(t, abs).None? ==> r == Err("Not in a git repository")
    ensures var abs := Resolve(cwd, filePath);
      r.Ok? <==> IsFile(t, abs) && GitRoot(t, abs).Some?
    ensures r.Err? ==> t' == t && ids' == ids
    ensures var abs := Resolve(cwd, filePath);
      r.Ok? ==>
        var o := Organized(yaml, t[abs].content, DetectFileType(abs, GitRoot(t, abs).value), ids);
        t' == t[abs := File(o.0)] && ids' == o.1
  {
    var abs := Resolve(cwd, filePath);
    if abs !in t {
      return Err("File not found: " + filePath), t, ids;
    }
    var gitRoot := FindGitRoot(t, abs);
    if gitRoot.None? {
      return Err("Not in a git repository"), t, ids;
    }
    var read := ReadFile(t, abs);
    if read.Err? {
      return Err(read.msg), t, ids;
    }
    var fileType := DetectFileType(abs, gitRoot.value);
    var o := Organized(yaml, read.value, fileType, ids);
    assert abs != [] && IsDir(t, Dirname(abs));
    t' := WriteFile(t, abs, o.0).value;
    return Ok(()), t', o.1;
  }
}
