/** The first, single-file version of the commands (`src/core.ts`). Its
    `detectFileType`, `findFileById`, `getFileInfo` and `resolveFileInfo` are
    the ones `FileResolver` models; what differs is that `organizeFile` has no
    refresh step for reference-implementation notes, `formatFileInfo` shows
    `filePath` and raw `id: path` lines, and a new note goes next to its
    spec. */
module LegacyCore {
  import opened Wrappers
  import opened Strings
  import opened Paths
  import opened FileSystem
  import opened Values
  import opened Types
  import opened Envelope
  import opened FileUtils
  import opened FileResolver
  import Organize
  import Info
  import Implement

  // organizeFile

  /** The new content of a document and what is left of the id stream: the
      merged frontmatter in the envelope layout, body after a blank line and
      a final newline. */
  function Organized(yaml: Yaml, content: string, fileType: string, ids: IdSource): (string, IdSource) {
    var p := Parse(yaml, content);
    var m := Organize.Merge(p.frontmatter, fileType, ids);
    (Organize.Render(yaml, m.0, p.body), m.1)
  }

  /** For every type but `ref-impl` the first version writes what the later
      one writes, whatever refresh the later one applies to notes. */
  lemma OrganizedShared(yaml: Yaml, h: Helpers, content: string, fileType: string, ids: IdSource)
    requires fileType != "ref-impl"
    ensures Organized(yaml, content, fileType, ids) == Organize.Organized(yaml, h, content, fileType, ids)
  {
  }

  /** The text ends with a newline and reads back as the merged frontmatter
      and the old body: the id kept where there was one and taken from the
      stream where there was none, the type filled in only where missing,
      and every other key kept with its value. */
  lemma OrganizedReadsBack(yaml: Yaml, content: string, fileType: string, ids: IdSource)
    requires UniqueKeys(Parse(yaml, content).frontmatter)
    requires Organize.DumpLoads(yaml, Organize.Merge(Parse(yaml, content).frontmatter, fileType, ids).0)
    ensures var p := Parse(yaml, content);
      var once := Organized(yaml, content, fileType, ids).0;
      var fm := Parse(yaml, once).frontmatter;
      && once != [] && once[|once| - 1] == '\n'
      && Parse(yaml, once).body == p.body
      && Get(fm, "id") == (if HasKey(p.frontmatter, "id") then Get(p.frontmatter, "id") else Some(Str(ids.stream(ids.used))))
      && Get(fm, "type") == (if HasKey(p.frontmatter, "type") then Get(p.frontmatter, "type") else Some(Str(fileType)))
      && (forall k :: k != "id" && k != "type" ==> Get(fm, k) == Get(p.frontmatter, k))
  {
    var p := Parse(yaml, content);
    var m := Organize.Merge(p.frontmatter, fileType, ids).0;
    Organize.ParseRendered(yaml, m, p.body);
    Organize.MergeValues(p.frontmatter, fileType, ids);
  }

  /** Organizing an organized document again writes the same text, for every
      type: without a refresh step `ref-impl` notes are no exception. */
  lemma OrganizedIdempotent(yaml: Yaml, content: string, fileType: string, ids: IdSource, ids2: IdSource)
    requires UniqueKeys(Parse(yaml, content).frontmatter)
    requires Organize.DumpLoads(yaml, Organize.Merge(Parse(yaml, content).frontmatter, fileType, ids).0)
    ensures var once := Organized(yaml, content, fileType, ids).0;
      Organized(yaml, once, fileType, ids2).0 == once
  {
    var p := Parse(yaml, content);
    var m := Organize.Merge(p.frontmatter, fileType, ids).0;
    Organize.ParseRendered(yaml, m, p.body);
    Organize.MergeKeys(p.frontmatter, fileType, ids);
    Organize.MergeAgain(m, fileType, ids2);
  }

  /** `organizeFile(filePath)`: a missing path, then a missing git
      repository, both before anything is read; on success the one file is
      replaced by its organized text, and an id is taken from the stream only
      for a document without one. */
  method OrganizeFile(t: Tree, cwd: Path, yaml: Yaml, ids: IdSource, filePath: string)
    returns (r: Result<()>, t': Tree, ids': IdSource)
    requires WellFormed(t)
    ensures var abs := Resolve(cwd, filePath);
      abs !in t ==> r == Err("File not found: " + filePath)
    ensures var abs := Resolve(cwd, filePath);
      abs in t && GitRoot(t, abs).None? ==> r == Err("Not in a git repository")
    ensures var abs := Resolve(cwd, filePath);
      r.Ok? <==> IsFile(t, abs) && GitRoot(t, abs).Some?
    ensures r.Err? ==> t' == t && ids' == ids
    ensures var abs := Resolve(cwd, filePath);
      r.Ok? ==>
        var o := Organized(yaml, t[abs].content, DetectFileType(abs, GitRoot(t, abs).value), ids);
        t' == t[abs := File(o.0)] && ids' == o.1
  {
    var abs := Resolve(cwd, filePath);
    if abs !in t {
      return Err("File not found: " + filePath), t, ids;
    }
    var gitRoot := FindGitRoot(t, abs);
    if gitRoot.None? {
      return Err("Not in a git repository"), t, ids;
    }
    var read := ReadFile(t, abs);
    if read.Err? {
      return Err(read.msg), t, ids;
    }
    var fileType := DetectFileType(abs, gitRoot.value);
    var o := Organized(yaml, read.value, fileType, ids);
    assert abs != [] && IsDir(t, Dirname(abs));
    t' := WriteFile(t, abs, o.0).value;
    return Ok(()), t', o.1;
  }

  // formatFileInfo

  /** The three lines every answer starts with; the path shown is the one
      from the git root. */
  function Header(info: FileInfo): string {
    "ID: " + ToText(info.id) + "\nType: " + Info.FormatFileType(info.fileType) + "\nFile Path: " + info.filePath
  }

  /** A reference's line: its `id` and its `path` as a template literal
      shows them. */
  function RefLine(v: Value): string {
    match v
    case Map(e) =>
      (match (Get(e, "id"), Get(e, "path"))
       case (Some(id), Some(path)) => Info.ItemText(id, ToText(path))
       case _ => "")
    case _ => ""
  }

  /** An entry with `id` and `path` shows both; the lines are raw, with no
      title lookup. */
  lemma RefLineOfRef(v: Value)
    requires Info.IsRef(v)
    ensures RefLine(v) == Info.ItemText(Get(v.entries, "id").value, ToText(Get(v.entries, "path").value))
  {
  }

  function RefLines(vs: seq<Value>): (r: seq<string>)
    ensures |r| == |vs| && forall i :: 0 <= i < |vs| ==> r[i] == RefLine(vs[i])
  {
    seq(|vs|, i requires 0 <= i < |vs| => RefLine(vs[i]))
  }

  /** The entries of `specs` that are shown: those with `id` and `path`,
      when `specs` is an array. */
  function ValidSpecs(fm: Frontmatter): (r: seq<Value>)
    ensures forall v :: v in r ==> Info.IsRef(v)
  {
    match Get(fm, "specs")
    case Some(Seq(items)) => Info.Filter(items, Info.IsRef)
    case _ => []
  }

  /** The `Specifications Implemented:` section, present only when some
      entry is shown. */
  function SpecsText(fm: Frontmatter): string {
    var valid := ValidSpecs(fm);
    if |valid| == 0 then "" else "\nSpecifications Implemented:" + Info.Lines(RefLines(valid))
  }

  /** The `Implementation:` section, present only when `impl` has `id` and
      `path`. */
  function ImplText(fm: Frontmatter): string {
    match Get(fm, "impl")
    case Some(v) => if Info.IsRef(v) then "\nImplementation:" + ("\n" + RefLine(v)) else ""
    case None => ""
  }

  /** What a reference-implementation note adds; nothing where the file
      cannot be read. Nothing here can throw once the file is read. */
  function Extras(t: Tree, yaml: Yaml, info: FileInfo): string {
    if info.fileType != "ref-impl" then ""
    else
      match ReadFile(t, info.absolutePath)
      case Err(_) => ""
      case Ok(content) =>
        var fm := Parse(yaml, content).frontmatter;
        SpecsText(fm) + ImplText(fm)
  }

  /** The whole answer of `formatFileInfo`. */
  function FileInfoText(t: Tree, yaml: Yaml, info: FileInfo, impls: Option<seq<Implementation>>): string {
    Header(info) + Info.ImplSection(impls) + Extras(t, yaml, info)
  }

  /** The answer starts with the header and the implementations; only a
      readable reference implementation gets more. */
  lemma FileInfoTextMeaning(t: Tree, yaml: Yaml, info: FileInfo, impls: Option<seq<Implementation>>)
    ensures StartsWith(FileInfoText(t, yaml, info, impls), Header(info))
    ensures StartsWith(FileInfoText(t, yaml, info, impls), Header(info) + Info.ImplSection(impls))
    ensures info.fileType != "ref-impl" || ReadFile(t, info.absolutePath).Err? ==>
      FileInfoText(t, yaml, info, impls) == Header(info) + Info.ImplSection(impls)
  {
    var h, i, e := Header(info), Info.ImplSection(impls), Extras(t, yaml, info);
    PrefixOfConcat(h + i, e);
    PrefixOfConcat(h, i + e);
    ConcatAssoc(h, i, e);
  }

  /** Every entry of `specs` with `id` and `path` gets a line, in order,
      after the heading, and no other entry does. */
  lemma SpecsTextLines(fm: Frontmatter, items: seq<Value>)
    requires Get(fm, "specs") == Some(Seq(items))
    ensures var valid := Info.Filter(items, Info.IsRef);
      && (|valid| == 0 <==> SpecsText(fm) == "")
      && (|valid| > 0 ==> SpecsText(fm) == "\nSpecifications Implemented:" + "\n" + Join(RefLines(valid), "\n"))
      && (forall v :: v in items && Info.IsRef(v) <==> v in valid)
  {
    var valid := Info.Filter(items, Info.IsRef);
    assert ValidSpecs(fm) == valid;
    if |valid| > 0 {
      var ls := RefLines(valid);
      Info.LinesJoin(ls);
      ConcatAssoc("\nSpecifications Implemented:", "\n", Join(ls, "\n"));
    }
  }

  /** The spec of a new note is shown as its id and its path. */
  lemma NoteSpecsText(newId: string, spec: FileInfo, impl: FileInfo)
    ensures SpecsText(Implement.NoteFrontmatter(newId, spec, impl))
      == "\nSpecifications Implemented:" + "\n" + Info.ItemText(spec.id, spec.filePath)
  {
    var s := Implement.Ref(spec);
    RefLineOfRef(s);
    OneSpecText(Implement.NoteFrontmatter(newId, spec, impl), s);
  }

  /** A `specs` array of one shown entry gives one line. */
  lemma OneSpecText(fm: Frontmatter, s: Value)
    requires Get(fm, "specs") == Some(Seq([s])) && Info.IsRef(s)
    ensures SpecsText(fm) == "\nSpecifications Implemented:" + "\n" + RefLine(s)
  {
    FilterOne(s);
    assert ValidSpecs(fm) == [s];
    assert RefLines([s]) == [RefLine(s)];
    LinesOne(RefLine(s));
  }

  /** The implementation of a new note is shown as its id and its path. */
  lemma NoteImplText(newId: string, spec: FileInfo, impl: FileInfo)
    ensures ImplText(Implement.NoteFrontmatter(newId, spec, impl))
      == "\nImplementation:" + ("\n" + Info.ItemText(impl.id, impl.filePath))
  {
    var v := Implement.Ref(impl);
    RefLineOfRef(v);
    OneImplText(Implement.NoteFrontmatter(newId, spec, impl), v);
  }

  lemma OneImplText(fm: Frontmatter, v: Value)
    requires Get(fm, "impl") == Some(v) && Info.IsRef(v)
    ensures ImplText(fm) == "\nImplementation:" + ("\n" + RefLine(v))
  {
  }

  lemma FilterOne(s: Value)
    requires Info.IsRef(s)
    ensures Info.Filter([s], Info.IsRef) == [s]
  {
    assert [s][1..] == [];
  }

  lemma LinesOne(x: string)
    ensures Info.Lines([x]) == "\n" + x
  {
    assert [x][..0] == [];
  }

  lemma RefLinesSnoc(vs: seq<Value>, i: nat)
    requires i < |vs|
    ensures RefLines(vs[..i + 1]) == RefLines(vs[..i]) + [RefLine(vs[i])]
  {
    assert vs[..i + 1][i] == vs[i];
  }

  /** The loop over the shown specs: one `"\n" + line` per entry. */
  method AppendRefs(output: string, vs: seq<Value>) returns (out: string)
    ensures out == output + Info.Lines(RefLines(vs))
  {
    out := output;
    var i := 0;
    while i < |vs|
      invariant 0 <= i <= |vs|
      invariant out == output + Info.Lines(RefLines(vs[..i]))
    {
      ghost var done := Info.Lines(RefLines(vs[..i]));
      var line := RefLine(vs[i]);
      RefLinesSnoc(vs, i);
      Info.LinesSnoc(RefLines(vs[..i]), line);
      out := out + ("\n" + line);
      ConcatAssoc(output, done, "\n" + line);
      ConcatAssoc(done, "\n", line);
      i := i + 1;
    }
    assert vs[..i] == vs;
  }

  /** The specs part of the try block, appended to `output`. */
  method AppendSpecs(output: string, fm: Frontmatter) returns (out: string)
    ensures out == output + SpecsText(fm)
  {
    var valid := ValidSpecs(fm);
    if |valid| > 0 {
      out := AppendRefs(output + "\nSpecifications Implemented:", valid);
      ConcatAssoc(output, "\nSpecifications Implemented:", Info.Lines(RefLines(valid)));
    } else {
      out := output;
      ConcatEmpty(output);
    }
  }

  /** The implementation part of the try block, appended to `output`. */
  method AppendImpl(output: string, fm: Frontmatter) returns (out: string)
    ensures out == output + ImplText(fm)
  {
    out := output;
    match Get(fm, "impl")
    case Some(v) => {
      if Info.IsRef(v) {
        var line := RefLine(v);
        out := out + "\nImplementation:";
        out := out + ("\n" + line);
        ConcatAssoc(output, "\nImplementation:", "\n" + line);
      } else {
        ConcatEmpty(output);
      }
    }
    case None => {
      ConcatEmpty(output);
    }
  }

  /** The reference-implementation part, appended to `output`. */
  method AppendExtras(output: string, t: Tree, yaml: Yaml, info: FileInfo) returns (out: string)
    ensures out == output + Extras(t, yaml, info)
  {
    out := output;
    if info.fileType != "ref-impl" {
      ConcatEmpty(output);
      return;
    }
    var read := ReadFile(t, info.absolutePath);
    if read.Err? {
      ConcatEmpty(output);
      return;
    }
    var fm := Parse(yaml, read.value).frontmatter;
    assert Extras(t, yaml, info) == SpecsText(fm) + ImplText(fm);
    out := AppendSpecs(out, fm);
    out := AppendImpl(out, fm);
    ConcatAssoc(output, SpecsText(fm), ImplText(fm));
  }

  /** `formatFileInfo`, building the text line by line. */
  method FormatFileInfo(t: Tree, yaml: Yaml, info: FileInfo, impls: Option<seq<Implementation>>)
    returns (out: string)
    ensures out == FileInfoText(t, yaml, info, impls)
  {
    var head := Header(info);
    out := head;
    if impls.Some? && |impls.value| > 0 {
      out := Info.AppendImpls(out + ("\n" + "Implementations:"), impls.value);
      ConcatAssoc(head, "\n" + "Implementations:", Info.Lines(Info.ImplLines(impls.value)));
    } else {
      ConcatEmpty(head);
    }
    assert out == head + Info.ImplSection(impls);
    out := AppendExtras(out, t, yaml, info);
  }

  // generateImplementationNote

  /** Where the first version puts a new note: `impl-history` next to the
      spec. */
  function NoteDir(specAbs: Path): (r: Path)
    ensures Normal(specAbs) ==> Normal(r)
  {
    PlainName("impl-history");
    Dirname(specAbs) + ["impl-history"]
  }

  /** `generateImplementationNote`: the same checks as the later version, in
      the same order; then the spec's own `impl-history` directory is made
      where missing, and only once that has worked is an id taken and the
      note written into it. */
  method GenerateImplementationNote(t: Tree, cwd: Path, yaml: Yaml, ids: IdSource, specArg: string, implArg: string)
    returns (r: Result<string>, t': Tree, ids': IdSource)
    requires WellFormed(t) && Normal(cwd)
    ensures var c := Implement.Checked(t, cwd, yaml, specArg, implArg);
      c.Err? ==> r == Err(c.msg) && t' == t && ids' == ids
    ensures var c := Implement.Checked(t, cwd, yaml, specArg, implArg);
      c.Ok? && MakeDirsIfMissing(t, NoteDir(c.value.1.absolutePath)).Err? ==>
        && r == Err(MakeDirsIfMissing(t, NoteDir(c.value.1.absolutePath)).msg)
        && t' == t && ids' == ids
    ensures var c := Implement.Checked(t, cwd, yaml, specArg, implArg);
      c.Ok? && MakeDirsIfMissing(t, NoteDir(c.value.1.absolutePath)).Ok? ==>
        && ids' == ids.Take().1
        && r == Implement.GeneratedIn(t, yaml, ids.Take().0, NoteDir(c.value.1.absolutePath), c.value.1, c.value.2).0
        && t' == Implement.GeneratedIn(t, yaml, ids.Take().0, NoteDir(c.value.1.absolutePath), c.value.1, c.value.2).1
  {
    t', ids' := t, ids;
    var gitRoot := FindGitRoot(t, cwd);
    if gitRoot.None? {
      return Err("Not in a git repository"), t', ids';
    }
    var specInfo := ResolveFileInfo(t, cwd, yaml, specArg);
    if specInfo.Err? {
      return Err(specInfo.msg), t', ids';
    }
    var implInfo := ResolveFileInfo(t, cwd, yaml, implArg);
    if implInfo.Err? {
      return Err(implInfo.msg), t', ids';
    }
    var spec, impl := specInfo.value, implInfo.value;
    if spec.fileType != "spec" && spec.fileType != "test" {
      return Err("Spec file must be of type 'spec' or 'test', got '" + spec.fileType + "'"), t', ids';
    }
    if impl.fileType != "implementation" {
      return Err("Implementation file must be of type 'implementation', got '" + impl.fileType + "'"), t', ids';
    }
    r, t', ids' := NoteInDir(t, yaml, ids, NoteDir(spec.absolutePath), spec, impl);
  }

  /** The directory `dir` made where missing; once that has worked, one id
      taken and the note written in `dir`. */
  method NoteInDir(t: Tree, yaml: Yaml, ids: IdSource, dir: Path, spec: FileInfo, impl: FileInfo)
    returns (r: Result<string>, t': Tree, ids': IdSource)
    ensures MakeDirsIfMissing(t, dir).Err? ==>
      r == Err(MakeDirsIfMissing(t, dir).msg) && t' == t && ids' == ids
    ensures MakeDirsIfMissing(t, dir).Ok? ==>
      && ids' == ids.Take().1
      && r == Implement.GeneratedIn(t, yaml, ids.Take().0, dir, spec, impl).0
      && t' == Implement.GeneratedIn(t, yaml, ids.Take().0, dir, spec, impl).1
  {
    t', ids' := t, ids;
    var t1 := t;
    if dir !in t {
      var made := MakeDirs(t, dir);
      if made.Err? {
        return Err(made.msg), t', ids';
      }
      t1 := made.value;
    }
    var newId;
    newId, ids' := ids.Take().0, ids.Take().1;
    r, t' := Implement.WriteNote(t1, yaml, newId, dir, spec, impl);
    MadeDirStays(t, t1, yaml, newId, dir, spec, impl);
  }

  /** Writing the note into a tree where `dir` has just been made does what
      writing it into the tree before would have done. */
  lemma MadeDirStays(t: Tree, t1: Tree, yaml: Yaml, newId: string, dir: Path, spec: FileInfo, impl: FileInfo)
    requires MakeDirsIfMissing(t, dir) == Ok(t1)
    ensures Implement.GeneratedIn(t1, yaml, newId, dir, spec, impl) == Implement.GeneratedIn(t, yaml, newId, dir, spec, impl)
  {
    assert MakeDirsIfMissing(t1, dir) == Ok(t1);
  }

  /** A successful run leaves the note at
      `<spec dir>/impl-history/new-<spec id>-impl.md`, reading back as written;
      besides it only the directories made for it are new, and nothing that
      was there changes. */
  lemma NoteBesideSpec(t: Tree, yaml: Yaml, newId: string, spec: FileInfo, impl: FileInfo)
    requires WellFormed(t) && Normal(spec.absolutePath) && IsSegment(Implement.NoteName(ToText(spec.id)))
    requires Organize.DumpLoads(yaml, Implement.NoteFrontmatter(newId, spec, impl))
    ensures var (r, t') := Implement.GeneratedIn(t, yaml, newId, NoteDir(spec.absolutePath), spec, impl);
      var note := NoteDir(spec.absolutePath) + [Implement.NoteName(ToText(spec.id))];
      r.Ok? ==>
        && r.value == ToString(note)
        && WellFormed(t')
        && IsFile(t', note)
        && Parse(yaml, t'[note].content) == Parsed(Implement.NoteFrontmatter(newId, spec, impl), Implement.Todo)
        && t'.Keys == t.Keys + Missing(t, NoteDir(spec.absolutePath)) + {note}
        && (forall q :: q in t && q != note ==> t'[q] == t[q])
  {
    var dir := NoteDir(spec.absolutePath);
    JoinName(dir, Implement.NoteName(ToText(spec.id)));
    Implement.GeneratedInNote(t, yaml, newId, dir, spec, impl);
  }

  /** Shown with `info`, such a note lists its one spec and its
      implementation after the header. */
  lemma NoteInfo(t: Tree, yaml: Yaml, info: FileInfo, impls: Option<seq<Implementation>>, newId: string, spec: FileInfo, impl: FileInfo)
    requires info.fileType == "ref-impl" && IsFile(t, info.absolutePath)
    requires Parse(yaml, t[info.absolutePath].content).frontmatter == Implement.NoteFrontmatter(newId, spec, impl)
    ensures FileInfoText(t, yaml, info, impls)
      == Header(info) + Info.ImplSection(impls)
      + ("\nSpecifications Implemented:" + "\n" + Info.ItemText(spec.id, spec.filePath))
      + ("\nImplementation:" + ("\n" + Info.ItemText(impl.id, impl.filePath)))
  {
    var fm := Implement.NoteFrontmatter(newId, spec, impl);
    assert Extras(t, yaml, info) == SpecsText(fm) + ImplText(fm) by {
      assert ReadFile(t, info.absolutePath) == Ok(t[info.absolutePath].content);
    }
    NoteSpecsText(newId, spec, impl);
    NoteImplText(newId, spec, impl);
    ConcatAssoc(Header(info) + Info.ImplSection(impls), SpecsText(fm), ImplText(fm));
  }
}
