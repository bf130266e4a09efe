/** `organize`: rewriting a document so its frontmatter carries an id and a
    type, in the fixed envelope layout. The id generator is a stream of ids;
    the reference-implementation refreshers are given helpers. */
module Organize {
  import opened Wrappers
  import opened Strings
  import opened Paths
  import opened FileSystem
  import opened Values
  import opened Types
  import opened Envelope
  import opened Sorting
  import opened FileUtils
  import opened FileResolver

  /** `{id: frontmatter.id || generateId(), type: fileType, ...frontmatter}`,
      with what is left of the id stream. */
  function Merge(fm: Frontmatter, fileType: string, ids: IdSource): (r: (Frontmatter, IdSource))
    ensures TruthyOpt(Get(fm, "id")) ==> r.1 == ids
    ensures !TruthyOpt(Get(fm, "id")) ==> r.1 == ids.Take().1
  {
    var (id, rest) := if TruthyOpt(Get(fm, "id")) then (Get(fm, "id").value, ids) else (Str(ids.Take().0), ids.Take().1);
    (Spread([("id", id), ("type", Str(fileType))], fm), rest)
  }

  /** The object a merge starts from. */
  function MergeBase(fm: Frontmatter, fileType: string, ids: IdSource): Frontmatter {
    var id := if TruthyOpt(Get(fm, "id")) then Get(fm, "id").value else Str(ids.Take().0);
    [("id", id), ("type", Str(fileType))]
  }

  /** The merge puts `id` and `type` first and the other keys after them in
      their original order, each once. */
  lemma MergeKeys(fm: Frontmatter, fileType: string, ids: IdSource)
    requires UniqueKeys(fm)
    ensures var m := Merge(fm, fileType, ids).0;
      Keys(m) == ["id", "type"] + Fresh(Keys(fm), ["id", "type"]) && UniqueKeys(m)
  {
    var base := MergeBase(fm, fileType, ids);
    var m := Spread(base, fm);
    assert Merge(fm, fileType, ids).0 == m;
    SpreadKeys(base, fm);
    assert Keys(base) == ["id", "type"];
    UniqueKeysIff(fm);
    var added := Fresh(Keys(fm), ["id", "type"]);
    FreshDistinct(Keys(fm), ["id", "type"]);
    forall i | 0 <= i < |added| ensures added[i] !in ["id", "type"] {
      assert added[i] in added;
    }
    DistinctConcat(["id", "type"], added);
    UniqueKeysIff(m);
  }

  /** Every key already present keeps its value, even a falsy `id`: the
      generated id and the classified type only fill keys that are
      missing. */
  lemma MergeValues(fm: Frontmatter, fileType: string, ids: IdSource)
    requires UniqueKeys(fm)
    ensures var m := Merge(fm, fileType, ids).0;
      && Get(m, "id") == (if HasKey(fm, "id") then Get(fm, "id") else Some(Str(ids.stream(ids.used))))
      && Get(m, "type") == (if HasKey(fm, "type") then Get(fm, "type") else Some(Str(fileType)))
      && (forall k :: k != "id" && k != "type" ==> Get(m, k) == Get(fm, k))
  {
    var id := if TruthyOpt(Get(fm, "id")) then Get(fm, "id").value else Str(ids.Take().0);
    var base := [("id", id), ("type", Str(fileType))];
    var m := Spread(base, fm);
    assert Merge(fm, fileType, ids).0 == m;
    assert Get(m, "id") == (if HasKey(fm, "id") then Get(fm, "id") else Some(Str(ids.stream(ids.used)))) by {
      SpreadGet(base, fm, "id");
      BaseGet(id, fileType, "id");
      if !HasKey(fm, "id") {
        assert !TruthyOpt(Get(fm, "id"));
      }
    }
    assert Get(m, "type") == (if HasKey(fm, "type") then Get(fm, "type") else Some(Str(fileType))) by {
      SpreadGet(base, fm, "type");
      BaseGet(id, fileType, "type");
    }
    forall k | k != "id" && k != "type" ensures Get(m, k) == Get(fm, k) {
      SpreadGet(base, fm, k);
      BaseGet(id, fileType, k);
    }
  }

  /** The base object has exactly `id` and `type`. */
  lemma BaseGet(id: Value, fileType: string, k: string)
    ensures Get([("id", id), ("type", Str(fileType))], k)
      == if k == "id" then Some(id) else if k == "type" then Some(Str(fileType)) else None
  {
    var base := [("id", id), ("type", Str(fileType))];
    assert base[1..] == [("type", Str(fileType))];
    assert base[1..][1..] == [];
  }

  /** The refresh that only reference-implementation notes get. */
  function Derive(h: Helpers, fm: Frontmatter, fileType: string): (r: Frontmatter)
    ensures fileType != "ref-impl" ==> r == fm
    ensures fileType == "ref-impl" ==> r == h.updateCommitMessages(h.updateReferenceImplPaths(fm))
  {
    if fileType == "ref-impl" then h.updateCommitMessages(h.updateReferenceImplPaths(fm)) else fm
  }

  /** The envelope layout organize writes. */
  function Render(yaml: Yaml, fm: Frontmatter, body: string): string {
    "---\n" + Trim(yaml.dump(Map(fm))) + "\n---\n\n" + body + "\n"
  }

  /** The YAML library dumps `fm` to text that loads back to `fm` and that
      does not close the envelope early. */
  predicate DumpLoads(yaml: Yaml, fm: Frontmatter) {
    var block := Trim(yaml.dump(Map(fm)));
    yaml.load(block) == Some(Map(fm)) && Find(block + Fence, Fence) == Some(|block|)
  }

  /** Reading a rendered document back gives the frontmatter and body it was
      rendered from. */
  lemma ParseRendered(yaml: Yaml, fm: Frontmatter, body: string)
    requires IsTrimmed(body) && DumpLoads(yaml, fm)
    ensures Parse(yaml, Render(yaml, fm, body)) == Parsed(fm, body)
  {
    var block := Trim(yaml.dump(Map(fm)));
    var rest := "\n" + body + "\n";
    assert Render(yaml, fm, body) == "---\n" + block + Fence + rest;
    SplitOfWritten(block, rest);
    TrimPadded("\n", body, "\n");
  }

  /** The new content of a document and what is left of the id stream. */
  function Organized(yaml: Yaml, h: Helpers, content: string, fileType: string, ids: IdSource): (string, IdSource) {
    var p := Parse(yaml, content);
    var m := Merge(p.frontmatter, fileType, ids);
    (Render(yaml, Derive(h, m.0, fileType), p.body), m.1)
  }

  /** Organizing an organized document again writes the same text, for every
      type but `ref-impl`, whose refresh helpers are not part of this model. */
  lemma OrganizeIdempotent(yaml: Yaml, h: Helpers, content: string, fileType: string, ids: IdSource, ids2: IdSource)
    requires fileType != "ref-impl"
    requires UniqueKeys(Parse(yaml, content).frontmatter)
    requires DumpLoads(yaml, Merge(Parse(yaml, content).frontmatter, fileType, ids).0)
    ensures var once := Organized(yaml, h, content, fileType, ids).0;
      Organized(yaml, h, once, fileType, ids2).0 == once
  {
    var p := Parse(yaml, content);
    var m := Merge(p.frontmatter, fileType, ids).0;
    var once := Organized(yaml, h, content, fileType, ids).0;
    assert once == Render(yaml, m, p.body);
    ParseRendered(yaml, m, p.body);
    MergeKeys(p.frontmatter, fileType, ids);
    MergeAgain(m, fileType, ids2);
  }

  /** Merging a merged object changes nothing: it already has `id` and `type`
      first. */
  lemma MergeAgain(m: Frontmatter, fileType: string, ids: IdSource)
    requires UniqueKeys(m) && |m| >= 2 && m[0].0 == "id" && m[1].0 == "type"
    ensures Merge(m, fileType, ids).0 == m
  {
    var id := if TruthyOpt(Get(m, "id")) then Get(m, "id").value else Str(ids.Take().0);
    var base := [("id", id), ("type", Str(fileType))];
    var m2 := Spread(base, m);
    assert Merge(m, fileType, ids).0 == m2;
    assert Keys(m2) == Keys(m) by {
      MergeAgainKeys(m, base);
    }
    forall k ensures Get(m2, k) == Get(m, k) {
      SpreadGet(base, m, k);
      BaseGet(id, fileType, k);
      assert HasKey(m, "id") && HasKey(m, "type");
    }
    SameEntries(m, m2);
  }

  /** Spreading an object that starts with `id` and `type` over a base with
      just those keys keeps its key order. */
  lemma MergeAgainKeys(m: Frontmatter, base: Frontmatter)
    requires UniqueKeys(m) && |m| >= 2 && m[0].0 == "id" && m[1].0 == "type"
    requires Keys(base) == ["id", "type"]
    ensures Keys(Spread(base, m)) == Keys(m)
  {
    SpreadKeys(base, m);
    var ks := Keys(m);
    assert ks == ["id", "type"] + ks[2..];
    UniqueKeysIff(m);
    assert forall i :: 0 <= i < |ks[2..]| ==> ks[2..][i] !in ["id", "type"];
    FreshAll(ks[2..], ["id", "type"]);
    assert Fresh(ks, ["id", "type"]) == Fresh(ks[2..], ["id", "type"]) by {
      assert ks[1..] == ["type"] + ks[2..];
      assert ks[1..][1..] == ks[2..];
    }
  }

  /** `organizeFile` on the absolute path `abs`, shown in errors as `shown`:
      the result, the tree after and what is left of the id stream. */
  function OrganizeAt(t: Tree, yaml: Yaml, h: Helpers, ids: IdSource, abs: Path, shown: string)
    : (Result<()>, Tree, IdSource)
  {
    if abs !in t then (Err("File not found: " + shown), t, ids)
    else
      match GitRoot(t, abs)
      case None => (Err("Not in a git repository"), t, ids)
      case Some(root) =>
        match ReadFile(t, abs)
        case Err(e) => (Err(e), t, ids)
        case Ok(content) =>
          var o := Organized(yaml, h, content, DetectFileType(abs, root), ids);
          (Ok(()), t[abs := File(o.0)], o.1)
  }

  /** The error order of `organizeFile`: a missing file, then a missing git
      repository, both before anything is read; on success exactly the one
      file is replaced by its organized text, and ids are taken from the
      stream only there. */
  lemma OrganizeAtMeaning(t: Tree, yaml: Yaml, h: Helpers, ids: IdSource, abs: Path, shown: string)
    ensures var r := OrganizeAt(t, yaml, h, ids, abs, shown);
      && (abs !in t ==> r == (Err("File not found: " + shown), t, ids))
      && (abs in t && GitRoot(t, abs).None? ==> r == (Err("Not in a git repository"), t, ids))
      && (r.0.Err? ==> r.1 == t && r.2 == ids)
      && (r.0.Ok? <==> IsFile(t, abs) && GitRoot(t, abs).Some?)
      && (r.0.Ok? ==>
        var o := Organized(yaml, h, t[abs].content, DetectFileType(abs, GitRoot(t, abs).value), ids);
        r.1 == t[abs := File(o.0)] && r.2 == o.1)
  {
  }

  /** Organizing rewrites one file in place: no entry appears or goes, and
      every other entry is kept. */
  lemma OrganizeKeepsWellFormed(t: Tree, yaml: Yaml, h: Helpers, ids: IdSource, abs: Path, shown: string)
    requires WellFormed(t)
    ensures var t' := OrganizeAt(t, yaml, h, ids, abs, shown).1;
      && WellFormed(t') && t'.Keys == t.Keys
      && (forall q :: q in t && q != abs ==> t'[q] == t[q])
  {
    OrganizeAtMeaning(t, yaml, h, ids, abs, shown);
    var r := OrganizeAt(t, yaml, h, ids, abs, shown);
    if r.0.Ok? {
      var c := Organized(yaml, h, t[abs].content, DetectFileType(abs, GitRoot(t, abs).value), ids).0;
      ReplaceFile(t, abs, c);
    }
  }

  /** `organizeFile(filePath)`: both checks come before any read or write,
      and the one write replaces the file. */
  method OrganizeFile(t: Tree, cwd: Path, yaml: Yaml, h: Helpers, ids: IdSource, filePath: string)
    returns (r: Result<()>, t': Tree, ids': IdSource)
    requires WellFormed(t)
    ensures (r, t', ids') == OrganizeAt(t, yaml, h, ids, Resolve(cwd, filePath), filePath)
  {
    var abs := Resolve(cwd, filePath);
    if abs !in t {
      return Err("File not found: " + filePath), t, ids;
    }
    var gitRoot := FindGitRoot(t, abs);
    if gitRoot.None? {
      return Err("Not in a git repository"), t, ids;
    }
    var read := ReadFile(t, abs);
    if read.Err? {
      return Err(read.msg), t, ids;
    }
    var fileType := DetectFileType(abs, gitRoot.value);
    var o := Organized(yaml, h, read.value, fileType, ids);
    assert abs != [] && IsDir(t, Dirname(abs));
    t' := WriteFile(t, abs, o.0).value;
    return Ok(()), t', o.1;
  }

  /** `step` applied to each of `xs` in turn, until the state has `failed`. */
  function Steps<S>(s: S, xs: seq<Path>, failed: S -> bool, step: (S, Path) -> S): S
    decreases |xs|
  {
    if xs == [] then s
    else
      var prev := Steps(s, xs[..|xs| - 1], failed, step);
      if failed(prev) then prev else step(prev, xs[|xs| - 1])
  }

  lemma StepsSnoc<S>(s: S, xs: seq<Path>, failed: S -> bool, step: (S, Path) -> S, x: Path)
    ensures var prev := Steps(s, xs, failed, step);
      Steps(s, xs + [x], failed, step) == if failed(prev) then prev else step(prev, x)
  {
    assert (xs + [x])[..|xs|] == xs;
  }

  lemma {:induction false} StepsStop<S>(s: S, xs: seq<Path>, failed: S -> bool, step: (S, Path) -> S, n: nat)
    requires n <= |xs| && failed(Steps(s, xs[..n], failed, step))
    ensures Steps(s, xs, failed, step) == Steps(s, xs[..n], failed, step)
    decreases |xs| - n
  {
    if n < |xs| {
      var prefix := xs[..n];
      assert xs[..n + 1] == prefix + [xs[n]];
      StepsSnoc(s, prefix, failed, step, xs[n]);
      StepsStop(s, xs, failed, step, n + 1);
    } else {
      assert xs[..n] == xs;
    }
  }

  /** The state of the organizing loop: the last result, the tree and the
      id stream. */
  type Run = (Result<()>, Tree, IdSource)

  predicate Failed(r: Run) {
    r.0.Err?
  }

  function OrganizeStep(yaml: Yaml, h: Helpers): (Run, Path) -> Run {
    (r: Run, x: Path) => OrganizeAt(r.1, yaml, h, r.2, x, ToString(x))
  }

  /** Organizing `files` one after the other, stopping at the first
      failure. */
  function OrganizeSeq(t: Tree, yaml: Yaml, h: Helpers, ids: IdSource, files: seq<Path>): Run {
    Steps((Ok(()), t, ids), files, Failed, OrganizeStep(yaml, h))
  }

  /** One more file is one more step, taken only when the earlier ones
      succeeded. */
  lemma OrganizeSeqStep(t: Tree, yaml: Yaml, h: Helpers, ids: IdSource, files: seq<Path>, x: Path)
    ensures var prev := OrganizeSeq(t, yaml, h, ids, files);
      OrganizeSeq(t, yaml, h, ids, files + [x])
        == if prev.0.Err? then prev else OrganizeAt(prev.1, yaml, h, prev.2, x, ToString(x))
  {
    StepsSnoc((Ok(()), t, ids), files, Failed, OrganizeStep(yaml, h), x);
  }

  /** The same, for a list's prefixes. */
  lemma OrganizeSeqPrefix(t: Tree, yaml: Yaml, h: Helpers, ids: IdSource, files: seq<Path>, i: nat)
    requires i < |files|
    ensures var prev := OrganizeSeq(t, yaml, h, ids, files[..i]);
      OrganizeSeq(t, yaml, h, ids, files[..i + 1])
        == if prev.0.Err? then prev else OrganizeAt(prev.1, yaml, h, prev.2, files[i], ToString(files[i]))
  {
    assert files[..i + 1] == files[..i] + [files[i]];
    OrganizeSeqStep(t, yaml, h, ids, files[..i], files[i]);
  }

  /** After the first failure nothing more happens. */
  lemma OrganizeSeqStops(t: Tree, yaml: Yaml, h: Helpers, ids: IdSource, files: seq<Path>, n: nat)
    requires n <= |files| && OrganizeSeq(t, yaml, h, ids, files[..n]).0.Err?
    ensures OrganizeSeq(t, yaml, h, ids, files) == OrganizeSeq(t, yaml, h, ids, files[..n])
  {
    StepsStop((Ok(()), t, ids), files, Failed, OrganizeStep(yaml, h), n);
  }

  /** Organizing a list touches only the files in it. */
  lemma {:induction false} OrganizeSeqFrame(t: Tree, yaml: Yaml, h: Helpers, ids: IdSource, files: seq<Path>)
    requires WellFormed(t)
    ensures var t' := OrganizeSeq(t, yaml, h, ids, files).1;
      && WellFormed(t') && t'.Keys == t.Keys
      && (forall q :: q in t && q !in files ==> t'[q] == t[q])
    decreases |files|
  {
    if files != [] {
      var init, x := files[..|files| - 1], files[|files| - 1];
      assert files == init + [x];
      OrganizeSeqFrame(t, yaml, h, ids, init);
      OrganizeSeqStep(t, yaml, h, ids, init, x);
      var prev := OrganizeSeq(t, yaml, h, ids, init);
      if prev.0.Ok? {
        OrganizeKeepsWellFormed(prev.1, yaml, h, prev.2, x, ToString(x));
      }
    }
  }

  /** How many of `files` lack a truthy id in `t`. */
  function Unnamed(t: Tree, yaml: Yaml, files: seq<Path>): (n: nat)
    ensures n <= |files|
    decreases |files|
  {
    if files == [] then 0
    else
      var x := files[|files| - 1];
      Unnamed(t, yaml, files[..|files| - 1]) + if IsFile(t, x) && !TruthyOpt(IdOf(yaml, t[x].content)) then 1 else 0
  }

  /** One file organized takes one id from the stream exactly when it lacks a
      truthy id. */
  lemma OrganizeAtIds(t: Tree, yaml: Yaml, h: Helpers, ids: IdSource, abs: Path, shown: string)
    ensures var r := OrganizeAt(t, yaml, h, ids, abs, shown);
      r.0.Ok? ==> r.2 == IdSource(ids.stream, ids.used + if IsFile(t, abs) && !TruthyOpt(IdOf(yaml, t[abs].content)) then 1 else 0)
  {
    OrganizeAtMeaning(t, yaml, h, ids, abs, shown);
  }

  /** Organizing a list of distinct files takes exactly one id from the
      stream for each file that lacks a truthy id, handing them out in the
      list's order, and none for the others. */
  lemma {:induction false} OrganizeSeqIds(t: Tree, yaml: Yaml, h: Helpers, ids: IdSource, files: seq<Path>)
    requires WellFormed(t) && Distinct(files)
    ensures var r := OrganizeSeq(t, yaml, h, ids, files);
      r.0.Ok? ==> r.2 == IdSource(ids.stream, ids.used + Unnamed(t, yaml, files))
    decreases |files|
  {
    if files != [] {
      var n := |files| - 1;
      var init, x := files[..n], files[n];
      assert Distinct(init) && x !in init by {
        DistinctInit(files);
      }
      OrganizeSeqIds(t, yaml, h, ids, init);
      OrganizeSeqFrame(t, yaml, h, ids, init);
      var prev := OrganizeSeq(t, yaml, h, ids, init);
      assert OrganizeSeq(t, yaml, h, ids, files) == if prev.0.Err? then prev else OrganizeAt(prev.1, yaml, h, prev.2, x, ToString(x)) by {
        OrganizeSeqPrefix(t, yaml, h, ids, files, n);
        assert files[..n + 1] == files;
      }
      if prev.0.Ok? {
        assert x in t ==> prev.1[x] == t[x];
        OrganizeAtIds(prev.1, yaml, h, prev.2, x, ToString(x));
      }
    }
  }

  /** Dropping the last of distinct paths leaves distinct paths without it. */
  lemma DistinctInit(files: seq<Path>)
    requires files != [] && Distinct(files)
    ensures Distinct(files[..|files| - 1]) && files[|files| - 1] !in files[..|files| - 1]
  {
  }

  /** `organizeAllFiles`: the git check, then every markdown file under the
      docs directory in sorted path order. The docs directory is what
      `getDocsDirectory` answered. `files` is the walk's result. */
  method OrganizeAllFiles(t: Tree, cwd: Path, yaml: Yaml, h: Helpers, ids: IdSource, docs: Path)
    returns (r: Result<()>, t': Tree, ids': IdSource, ghost files: seq<Path>)
    requires WellFormed(t)
    ensures GitRoot(t, cwd).None? ==> r == Err("Not in a git repository") && t' == t && ids' == ids
    ensures GitRoot(t, cwd).Some? && IsFile(t, docs) ==> r == Err(ScandirError(docs)) && t' == t && ids' == ids
    ensures GitRoot(t, cwd).Some? && !IsFile(t, docs) ==>
      && SortedBy(files, ToString) && Distinct(files) && AsSet(files) == MdUnder(t, docs)
      && (r, t', ids') == OrganizeSeq(t, yaml, h, ids, files)
  {
    files := [];
    var root := FindGitRoot(t, cwd);
    if root.None? {
      return Err("Not in a git repository"), t, ids, files;
    }
    var found := FindMarkdownFiles(t, docs);
    if found.Err? {
      return Err(found.msg), t, ids, files;
    }
    var list := found.value;
    files := list;
    forall j | 0 <= j < |list| ensures Normal(list[j]) {
      assert list[j] in AsSet(list);
    }
    r, t', ids' := OrganizeList(t, cwd, yaml, h, ids, list);
  }

  /** The loop of `organizeAllFiles`: each file in turn, until one fails. */
  method OrganizeList(t: Tree, cwd: Path, yaml: Yaml, h: Helpers, ids: IdSource, list: seq<Path>)
    returns (r: Result<()>, t': Tree, ids': IdSource)
    requires WellFormed(t)
    requires forall j :: 0 <= j < |list| ==> Normal(list[j])
    ensures (r, t', ids') == OrganizeSeq(t, yaml, h, ids, list)
  {
    t', ids' := t, ids;
    var i := 0;
    while i < |list|
      invariant 0 <= i <= |list|
      invariant OrganizeSeq(t, yaml, h, ids, list[..i]) == (Ok(()), t', ids')
      invariant WellFormed(t')
    {
      var shown := ToString(list[i]);
      var step, t1, ids1 := OrganizeFile(t', cwd, yaml, h, ids', shown);
      assert (step, t1, ids1) == OrganizeAt(t', yaml, h, ids', list[i], shown) by {
        ResolveToString(cwd, list[i]);
      }
      assert OrganizeSeq(t, yaml, h, ids, list[..i + 1]) == (step, t1, ids1) by {
        OrganizeSeqPrefix(t, yaml, h, ids, list, i);
      }
      if step.Err? {
        OrganizeSeqStops(t, yaml, h, ids, list, i + 1);
        return step, t1, ids1;
      }
      assert WellFormed(t1) by {
        OrganizeKeepsWellFormed(t', yaml, h, ids', list[i], shown);
      }
      t', ids' := t1, ids1;
      i := i + 1;
    }
    assert list[..i] == list;
    return Ok(()), t', ids';
  }
}
