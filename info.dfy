/** `info`: the text shown for one document. A header, then the project's
    implementations, then for reference-implementation notes the specs,
    implementation and commits their frontmatter records. `getDocsDirectory`
    and `resolveTitleFromFile` are not part of this model: the docs directory
    is given (`Err` where it throws) and the title lookup is a function that
    answers with the path itself where it finds no title. */
module Info {
  import opened Wrappers
  import opened Strings
  import opened Paths
  import opened FileSystem
  import opened Values
  import opened Types
  import opened Envelope
  import opened Sorting
  import opened FileTypes
  import opened FileUtils
  import opened FileResolver

  /** `formatFileType`: the display name of a type. */
  function FormatFileType(fileType: string): string {
    match fileType
    case "project" => "Project"
    case "implementation" => "Implementation"
    case "ref-impl" => "Reference Implementation"
    case "test" => "Test"
    case "spec" => "Specification"
    case _ => fileType
  }

  /** The five types have five different display names, none of them a type
      name, and any other type is shown as it is. */
  lemma FormatFileTypeTable(a: string, b: string)
    ensures !IsKnownType(a) ==> FormatFileType(a) == a
    ensures IsKnownType(a) ==> !IsKnownType(FormatFileType(a))
    ensures IsKnownType(a) && IsKnownType(b) && FormatFileType(a) == FormatFileType(b) ==> a == b
  {
  }

  /** The three lines every answer starts with. */
  function Header(info: FileInfo): string {
    "ID: " + ToText(info.id) + "\nType: " + FormatFileType(info.fileType) + "\nFile Path: " + info.displayPath
  }

  /** The text `output += "\n" + line` builds, one line after the other. */
  function Lines(xs: seq<string>): string
    decreases |xs|
  {
    if xs == [] then "" else Lines(xs[..|xs| - 1]) + "\n" + xs[|xs| - 1]
  }

  /** The appended lines are the lines joined by newlines, after one. */
  lemma {:induction false} LinesJoin(xs: seq<string>)
    requires xs != []
    ensures Lines(xs) == "\n" + Join(xs, "\n")
    decreases |xs|
  {
    var init, x := xs[..|xs| - 1], xs[|xs| - 1];
    if init == [] {
      assert xs == [x];
    } else {
      LinesJoin(init);
      JoinSnoc(init, x, "\n");
      assert init + [x] == xs;
    }
  }

  /** A section's lines read back, one per entry and in order, when no entry
      holds a newline. */
  lemma LinesSplit(xs: seq<string>)
    requires xs != [] && forall i :: 0 <= i < |xs| ==> !Contains(xs[i], "\n")
    ensures Strings.Split(Lines(xs)[1..], "\n") == xs
  {
    LinesJoin(xs);
    JoinSplit(xs, "\n");
  }

  function ImplLine(x: Implementation): string {
    "  - " + ToText(x.id) + ": " + x.name
  }

  function ImplLines(impls: seq<Implementation>): (r: seq<string>)
    ensures |r| == |impls| && forall i :: 0 <= i < |impls| ==> r[i] == ImplLine(impls[i])
  {
    if impls == [] then [] else [ImplLine(impls[0])] + ImplLines(impls[1..])
  }

  /** The `Implementations:` section, present only for a non-empty list. */
  function ImplSection(impls: Option<seq<Implementation>>): string {
    if impls.Some? && |impls.value| > 0 then Section("Implementations:", ImplLines(impls.value)) else ""
  }

  /** A heading on a line of its own and the lines under it. */
  function Section(heading: string, lines: seq<string>): string {
    "\n" + heading + Lines(lines)
  }

  /** An entry of `specs` or `impl` that is shown: an object with `id` and
      `path`. */
  predicate IsRef(v: Value) {
    v.Map? && HasKey(v.entries, "id") && HasKey(v.entries, "path")
  }

  /** An entry of `commits` that is shown: an object with `sha` and
      `message`. */
  predicate IsCommitEntry(v: Value) {
    v.Map? && HasKey(v.entries, "sha") && HasKey(v.entries, "message")
  }

  /** `items.filter(keep)`. */
  function Filter(items: seq<Value>, keep: Value -> bool): (r: seq<Value>)
    ensures |r| <= |items|
    ensures forall v :: v in r <==> v in items && keep(v)
  {
    if items == [] then []
    else if keep(items[0]) then [items[0]] + Filter(items[1..], keep)
    else Filter(items[1..], keep)
  }

  /** One more line in front: a newline and the line. */
  lemma LinesCons(h: string, xs: seq<string>)
    ensures Lines([h] + xs) == "\n" + h + Lines(xs)
  {
    LinesJoin([h] + xs);
    if xs != [] {
      LinesJoin(xs);
      assert ([h] + xs)[1..] == xs;
    } else {
      assert [h] + xs == [h];
    }
  }

  /** A section reads back as its heading and then its lines, in order,
      when none of them holds a newline. */
  lemma SectionLines(heading: string, ls: seq<string>)
    requires NoNewline(heading) && forall i :: 0 <= i < |ls| ==> !Contains(ls[i], "\n")
    ensures Strings.Split(Section(heading, ls)[1..], "\n") == [heading] + ls
  {
    var xs := [heading] + ls;
    NoNewlineIn(heading);
    LinesCons(heading, ls);
    assert forall i :: 0 <= i < |xs| ==> !Contains(xs[i], "\n") by {
      forall i | 0 <= i < |xs| ensures !Contains(xs[i], "\n") {
        if i > 0 {
          assert xs[i] == ls[i - 1];
        }
      }
    }
    LinesSplit(xs);
  }

  /** A line built from an id and a name without newlines has none. */
  lemma ImplLinePlain(x: Implementation)
    requires NoNewline(ToText(x.id)) && NoNewline(x.name)
    ensures !Contains(ImplLine(x), "\n")
  {
    var l := ImplLine(x);
    assert NoNewline(l) by {
      assert l == "  - " + ToText(x.id) + ": " + x.name;
    }
    NoNewlineIn(l);
  }

  const Red := "\U{001B}[31m"
  const Reset := "\U{001B}[0m"

  /** A list line: `  - <id>: <text>`. */
  function ItemText(id: Value, text: string): string {
    "  - " + ToText(id) + ": " + text
  }

  /** What a reference shows: the title found for the full path, or the path
      as written, in red, where the lookup fell back to the full path. */
  function Shown(path: string, full: string, found: string): string {
    if found == full then Red + path + Reset else found
  }

  /** A referenced document's line: its title, or its path in red where the
      title lookup gave the full path back. A `path` that is not a string
      makes `path.join` throw. */
  function RefLine(docs: Path, v: Value, title: string -> string): (r: Result<string>)
    ensures r.Ok? <==> v.Map? && Get(v.entries, "id").Some? && GetString(v.entries, "path").Some?
    ensures r.Ok? ==> r.value == ItemText(Get(v.entries, "id").value,
      var path := GetString(v.entries, "path").value;
      (Shown(path, ToString(JoinPath(docs, path)), title(ToString(JoinPath(docs, path))))))
  {
    if !v.Map? then Err("TypeError")
    else
      match (Get(v.entries, "id"), GetString(v.entries, "path"))
      case (Some(id), Some(path)) =>
        var full := ToString(JoinPath(docs, path));
        Ok(ItemText(id, Shown(path, full, title(full))))
      case _ => Err("TypeError: The \"path\" argument must be of type string")
  }

  /** The line function the specs loop applies. */
  function RefLines(docs: Path, title: string -> string): Value -> Result<string> {
    v => RefLine(docs, v, title)
  }

  /** `sha.substring(0, 7)`. */
  function ShortSha(sha: string): (r: string)
    ensures |r| == if |sha| < 7 then |sha| else 7
    ensures StartsWith(sha, r)
  {
    if |sha| < 7 then sha else sha[..7]
  }

  /** A commit's line: the short sha and the message. A `sha` that is not a
      string has no `substring` and throws. */
  function CommitLine(v: Value): (r: Result<string>)
    ensures r.Ok? <==> v.Map? && GetString(v.entries, "sha").Some? && Get(v.entries, "message").Some?
    ensures r.Ok? ==> r.value == ItemText(Str(ShortSha(GetString(v.entries, "sha").value)), ToText(Get(v.entries, "message").value))
  {
    if !v.Map? then Err("TypeError")
    else
      match (GetString(v.entries, "sha"), Get(v.entries, "message"))
      case (Some(sha), Some(message)) => Ok(ItemText(Str(ShortSha(sha)), ToText(message)))
      case _ => Err("TypeError: commitTyped.sha.substring is not a function")
  }

  /** The lines appended one by one until one of them throws: the text so far
      and whether every line went in. */
  function Attempt(items: seq<Value>, line: Value -> Result<string>): (r: (string, bool))
    decreases |items|
  {
    if items == [] then ("", true)
    else
      var prev := Attempt(items[..|items| - 1], line);
      if !prev.1 then prev
      else
        match line(items[|items| - 1])
        case Err(_) => (prev.0, false)
        case Ok(l) => (prev.0 + "\n" + l, true)
  }

  /** When no line throws, every item contributes its line, in order. */
  lemma {:induction false} AttemptAll(items: seq<Value>, line: Value -> Result<string>, ls: seq<string>)
    requires |ls| == |items| && forall i :: 0 <= i < |items| ==> line(items[i]) == Ok(ls[i])
    ensures Attempt(items, line) == (Lines(ls), true)
    decreases |items|
  {
    if items != [] {
      AttemptAll(items[..|items| - 1], line, ls[..|ls| - 1]);
    }
  }

  /** Once a line has thrown, later items change nothing. */
  lemma {:induction false} AttemptFailed(items: seq<Value>, line: Value -> Result<string>, k: nat)
    requires k <= |items| && !Attempt(items[..k], line).1
    ensures Attempt(items, line) == Attempt(items[..k], line)
    decreases |items|
  {
    if k < |items| {
      var init := items[..|items| - 1];
      assert init[..k] == items[..k];
      AttemptFailed(init, line, k);
    } else {
      assert items[..k] == items;
    }
  }

  /** The lines of the items before the first one that throws, and nothing
      from it or after it. */
  lemma AttemptStops(items: seq<Value>, line: Value -> Result<string>, k: nat, ls: seq<string>)
    requires k < |items| && line(items[k]).Err?
    requires |ls| == k && forall i :: 0 <= i < k ==> line(items[i]) == Ok(ls[i])
    ensures Attempt(items, line) == (Lines(ls), false)
  {
    AttemptAll(items[..k], line, ls);
    assert items[..k + 1][..k] == items[..k];
    AttemptFailed(items, line, k + 1);
  }

  /** The `Specifications Implemented:` section. */
  function SpecsSection(docs: Path, fm: Frontmatter, title: string -> string): (string, bool) {
    match Get(fm, "specs")
    case Some(Seq(items)) =>
      var valid := Filter(items, IsRef);
      if |valid| == 0 then ("", true)
      else
        var a := Attempt(valid, RefLines(docs, title));
        ("\nSpecifications Implemented:" + a.0, a.1)
    case _ => ("", true)
  }

  /** The `Implementation:` section, appended whole or not at all. */
  function ImplRefSection(docs: Path, fm: Frontmatter, title: string -> string): (string, bool) {
    match Get(fm, "impl")
    case Some(v) =>
      if !IsRef(v) then ("", true)
      else
        (match RefLine(docs, v, title)
         case Err(_) => ("", false)
         case Ok(l) => ("\nImplementation:" + ("\n" + l), true))
    case None => ("", true)
  }

  /** The `Commits:` section. */
  function CommitsSection(fm: Frontmatter): (string, bool) {
    match Get(fm, "commits")
    case Some(Seq(items)) =>
      var valid := Filter(items, IsCommitEntry);
      if |valid| == 0 then ("", true)
      else
        var a := Attempt(valid, CommitLine);
        ("\nCommits:" + a.0, a.1)
    case _ => ("", true)
  }

  /** What a reference-implementation note adds: the three sections in
      order, cut short where something throws, and nothing where the file
      cannot be read or the docs directory is unknown. */
  function Extras(t: Tree, yaml: Yaml, info: FileInfo, docs: Result<Path>, title: string -> string): string {
    if info.fileType != "ref-impl" then ""
    else
      match ReadFile(t, info.absolutePath)
      case Err(_) => ""
      case Ok(content) =>
        match docs
        case Err(_) => ""
        case Ok(d) => ExtrasOf(Parse(yaml, content).frontmatter, d, title)
  }

  /** The three sections for a parsed frontmatter, stopping after the first
      that throws. */
  function ExtrasOf(fm: Frontmatter, d: Path, title: string -> string): string {
    var s := SpecsSection(d, fm, title);
    if !s.1 then s.0
    else
      var i := ImplRefSection(d, fm, title);
      if !i.1 then s.0 else s.0 + i.0 + CommitsSection(fm).0
  }

  /** The whole answer of `formatFileInfo`. */
  function FileInfoText(
    t: Tree, yaml: Yaml, info: FileInfo, impls: Option<seq<Implementation>>,
    docs: Result<Path>, title: string -> string): string
  {
    Header(info) + ImplSection(impls) + Extras(t, yaml, info, docs, title)
  }

  /** Whatever the extras do, the answer starts with the header and the
      implementations; only a readable reference implementation gets more,
      and never when the docs directory is unknown. */
  lemma FileInfoTextMeaning(
    t: Tree, yaml: Yaml, info: FileInfo, impls: Option<seq<Implementation>>,
    docs: Result<Path>, title: string -> string)
    ensures StartsWith(FileInfoText(t, yaml, info, impls, docs, title), Header(info))
    ensures StartsWith(FileInfoText(t, yaml, info, impls, docs, title), Header(info) + ImplSection(impls))
    ensures info.fileType != "ref-impl" || ReadFile(t, info.absolutePath).Err? || docs.Err? ==>
      FileInfoText(t, yaml, info, impls, docs, title) == Header(info) + ImplSection(impls)
  {
    var h, i, e := Header(info), ImplSection(impls), Extras(t, yaml, info, docs, title);
    PrefixOfConcat(h + i, e);
    PrefixOfConcat(h, i + e);
    ConcatAssoc(h, i, e);
  }

  /** Only entries with both `id` and `path` are listed, and the heading
      appears exactly when there is one. */
  lemma SpecsSectionMeaning(docs: Path, fm: Frontmatter, title: string -> string, items: seq<Value>)
    requires Get(fm, "specs") == Some(Seq(items))
    ensures (exists i :: 0 <= i < |items| && IsRef(items[i])) ==>
      StartsWith(SpecsSection(docs, fm, title).0, "\nSpecifications Implemented:")
    ensures (forall i :: 0 <= i < |items| ==> !IsRef(items[i])) ==> SpecsSection(docs, fm, title) == ("", true)
  {
    var valid := Filter(items, IsRef);
    if exists i :: 0 <= i < |items| && IsRef(items[i]) {
      var i :| 0 <= i < |items| && IsRef(items[i]);
      assert items[i] in valid;
      var a := Attempt(valid, RefLines(docs, title));
      PrefixOfConcat("\nSpecifications Implemented:", a.0);
    }
    if |valid| > 0 {
      assert valid[0] in items;
      var j :| 0 <= j < |items| && items[j] == valid[0];
      assert IsRef(items[j]);
    }
  }

  /** Nothing is shown for a `specs` that is missing or not an array. */
  lemma SpecsSectionAbsent(docs: Path, fm: Frontmatter, title: string -> string)
    requires !(Get(fm, "specs").Some? && Get(fm, "specs").value.Seq?)
    ensures SpecsSection(docs, fm, title) == ("", true)
  {
  }

  /** When every listed commit has a string sha, there is one line per listed
      entry, in order, each that entry's short sha and message. */
  lemma CommitsSectionLines(fm: Frontmatter, items: seq<Value>)
    requires Get(fm, "commits") == Some(Seq(items))
    requires forall v :: v in items && IsCommitEntry(v) ==> GetString(v.entries, "sha").Some?
    ensures var valid := Filter(items, IsCommitEntry);
      && (forall i :: 0 <= i < |valid| ==> CommitLine(valid[i]) == Ok(CommitTexts(valid)[i]))
      && CommitsSection(fm) == (if valid == [] then "" else "\nCommits:" + Lines(CommitTexts(valid)), true)
  {
    var valid := Filter(items, IsCommitEntry);
    assert forall i :: 0 <= i < |valid| ==> CommitLine(valid[i]) == Ok(CommitTexts(valid)[i]) by {
      CommitLinesOk(valid);
    }
    if valid != [] {
      assert Attempt(valid, CommitLine) == (Lines(CommitTexts(valid)), true) by {
        CommitLinesOk(valid);
        AttemptAll(valid, CommitLine, CommitTexts(valid));
      }
    }
  }

  /** Entries with a string `sha` and a `message` all have lines. */
  lemma CommitLinesOk(valid: seq<Value>)
    requires forall v :: v in valid ==> IsCommitEntry(v) && GetString(v.entries, "sha").Some?
    ensures forall i :: 0 <= i < |valid| ==> CommitLine(valid[i]) == Ok(CommitTexts(valid)[i])
  {
    forall i | 0 <= i < |valid| ensures CommitLine(valid[i]) == Ok(CommitTexts(valid)[i]) {
      assert valid[i] in valid;
    }
  }

  /** The line of each entry, or nothing for one that throws. */
  function CommitTexts(vs: seq<Value>): (r: seq<string>)
    ensures |r| == |vs|
    ensures forall i :: 0 <= i < |vs| && CommitLine(vs[i]).Ok? ==> r[i] == CommitLine(vs[i]).value
  {
    if vs == [] then []
    else [match CommitLine(vs[0]) case Ok(l) => l case Err(_) => ""] + CommitTexts(vs[1..])
  }

  /** Appending `"\n" + line` for each item, stopping at the first one that
      throws. */
  method AppendAttempts(output: string, items: seq<Value>, line: Value -> Result<string>)
    returns (out: string, complete: bool)
    ensures out == output + Attempt(items, line).0 && complete == Attempt(items, line).1
  {
    out := output;
    var i := 0;
    while i < |items|
      invariant 0 <= i <= |items|
      invariant |output| <= |out| && out == output + out[|output|..]
      invariant Attempt(items[..i], line) == (out[|output|..], true)
    {
      var prefix := items[..i + 1];
      assert prefix[..|prefix| - 1] == items[..i];
      match line(items[i])
      case Err(_) => {
        AttemptFailed(items, line, i + 1);
        return out, false;
      }
      case Ok(l) => {
        var before := out;
        out := out + "\n" + l;
        assert out[|output|..] == before[|output|..] + "\n" + l;
      }
      i := i + 1;
    }
    assert items[..i] == items;
    complete := true;
  }

  lemma LinesSnoc(xs: seq<string>, x: string)
    ensures Lines(xs + [x]) == Lines(xs) + "\n" + x
  {
    assert (xs + [x])[..|xs|] == xs;
  }

  lemma ImplLinesSnoc(list: seq<Implementation>, i: nat)
    requires i < |list|
    ensures ImplLines(list[..i + 1]) == ImplLines(list[..i]) + [ImplLine(list[i])]
  {
    assert list[..i + 1][i] == list[i];
  }

  /** The implementations loop: one `"\n" + line` per entry. */
  method AppendImpls(output: string, list: seq<Implementation>) returns (out: string)
    ensures out == output + Lines(ImplLines(list))
  {
    out := output;
    var i := 0;
    while i < |list|
      invariant 0 <= i <= |list|
      invariant out == output + Lines(ImplLines(list[..i]))
    {
      ImplLinesSnoc(list, i);
      LinesSnoc(ImplLines(list[..i]), ImplLine(list[i]));
      out := out + "\n" + ImplLine(list[i]);
      i := i + 1;
    }
    assert list[..i] == list;
  }

  /** The specs loop. */
  method AppendSpecs(output: string, d: Path, fm: Frontmatter, title: string -> string)
    returns (out: string, complete: bool)
    ensures out == output + SpecsSection(d, fm, title).0 && complete == SpecsSection(d, fm, title).1
  {
    out, complete := output, true;
    match Get(fm, "specs")
    case Some(Seq(items)) => {
      var valid := Filter(items, IsRef);
      if |valid| > 0 {
        out, complete := AppendAttempts(output + "\nSpecifications Implemented:", valid, RefLines(d, title));
      }
    }
    case _ =>
  }

  /** The commits loop. */
  method AppendCommits(output: string, fm: Frontmatter) returns (out: string)
    ensures out == output + CommitsSection(fm).0
  {
    out := output;
    match Get(fm, "commits")
    case Some(Seq(items)) => {
      var valid := Filter(items, IsCommitEntry);
      if |valid| > 0 {
        var complete;
        out, complete := AppendAttempts(output + "\nCommits:", valid, CommitLine);
      }
    }
    case _ =>
  }

  /** The `Implementation:` part of `formatFileInfo`, appended to `output`;
      `complete` is false where resolving the reference threw. */
  method AppendImplRef(output: string, d: Path, fm: Frontmatter, title: string -> string)
    returns (out: string, complete: bool)
    ensures out == output + ImplRefSection(d, fm, title).0
    ensures complete == ImplRefSection(d, fm, title).1
  {
    out := output;
    complete := true;
    match Get(fm, "impl")
    case Some(v) => {
      if IsRef(v) {
        var l := RefLine(d, v, title);
        if l.Err? {
          ConcatEmpty(output);
          return output, false;
        }
        out := out + "\nImplementation:";
        out := out + ("\n" + l.value);
        ConcatAssoc(output, "\nImplementation:", "\n" + l.value);
      } else {
        ConcatEmpty(output);
      }
    }
    case None => {
      ConcatEmpty(output);
    }
  }

  /** The reference-implementation part of `formatFileInfo`: the try block,
      whose output so far stays when it throws. */
  method AppendExtras(output: string, t: Tree, yaml: Yaml, info: FileInfo, docs: Result<Path>, title: string -> string)
    returns (out: string)
    ensures out == output + Extras(t, yaml, info, docs, title)
  {
    out := output;
    if info.fileType != "ref-impl" {
      ConcatEmpty(output);
      return;
    }
    var read := ReadFile(t, info.absolutePath);
    if read.Err? || docs.Err? {
      ConcatEmpty(output);
      return;
    }
    var fm := Parse(yaml, read.value).frontmatter;
    var d := docs.value;
    assert Extras(t, yaml, info, docs, title) == ExtrasOf(fm, d, title);
    ghost var specs := SpecsSection(d, fm, title).0;
    var complete;
    out, complete := AppendSpecs(out, d, fm, title);
    if !complete {
      return;
    }
    ghost var afterSpecs := out;
    ghost var impl := ImplRefSection(d, fm, title).0;
    out, complete := AppendImplRef(out, d, fm, title);
    if !complete {
      assert impl == "";
      ConcatEmpty(afterSpecs);
      return;
    }
    out := AppendCommits(out, fm);
    ghost var commits := CommitsSection(fm).0;
    ConcatAssoc(output, specs, impl);
    ConcatAssoc(output, specs + impl, commits);
  }

  /** `formatFileInfo`, building the text line by line. */
  method FormatFileInfo(
    t: Tree, yaml: Yaml, info: FileInfo, impls: Option<seq<Implementation>>,
    docs: Result<Path>, title: string -> string)
    returns (out: string)
    ensures out == FileInfoText(t, yaml, info, impls, docs, title)
  {
    var head := Header(info);
    out := head;
    if impls.Some? && |impls.value| > 0 {
      out := AppendImpls(out + ("\n" + "Implementations:"), impls.value);
      ConcatAssoc(head, "\n" + "Implementations:", Lines(ImplLines(impls.value)));
    } else {
      ConcatEmpty(head);
    }
    assert out == head + ImplSection(impls);
    out := AppendExtras(out, t, yaml, info, docs, title);
  }

  /** A body line that counts as the title: once trimmed, it starts with
      `# `. */
  predicate IsTitleLine(line: string) {
    HashSpace(Trim(line))
  }

  /** `s.startsWith('# ')`, by its first two characters. */
  predicate HashSpace(s: string) {
    |s| >= 2 && s[0] == '#' && s[1] == ' '
  }

  lemma HashSpaceIff(s: string)
    ensures HashSpace(s) <==> StartsWith(s, "# ")
  {
    if |s| >= 2 {
      assert s[..2] == [s[0], s[1]];
    }
  }

  /** `xs.findIndex(p)`: the index of the first element that satisfies `p`. */
  function First<T>(xs: seq<T>, p: T -> bool): (r: Option<nat>)
    ensures r.Some? ==> r.value < |xs| && p(xs[r.value])
    ensures r.Some? ==> forall i :: 0 <= i < r.value ==> !p(xs[i])
    ensures r.None? ==> forall i :: 0 <= i < |xs| ==> !p(xs[i])
    decreases |xs|
  {
    if xs == [] then None
    else if p(xs[0]) then Some(0)
    else
      var tail := xs[1..];
      assert forall i :: 1 <= i < |xs| ==> xs[i] == tail[i - 1];
      match First(tail, p)
      case None => None
      case Some(k) => Some(k + 1)
  }

  /** The replace in `getProjectImplementations`: one leading `#` and the
      white space after it. A line indented before its `#` keeps everything. */
  function StripHash(line: string): (r: string)
    ensures |r| <= |line| && r == line[|line| - |r|..]
    ensures line != [] && line[0] == '#' ==>
      && |r| < |line|
      && line == "#" + line[1..|line| - |r|] + r
      && AllSpace(line[1..|line| - |r|])
      && (r == [] || !IsSpace(r[0]))
    ensures (line == [] || line[0] != '#') ==> r == line
  {
    if line != [] && line[0] == '#' then
      var r := TrimStart(line[1..]);
      assert forall i :: 1 <= i < |line| - |r| ==> line[i] == line[1..][i - 1];
      assert line == "#" + line[1..|line| - |r|] + r;
      r
    else line
  }

  /** An implementation's name: its first title line without the `#`, and
      trimmed; `Unknown Implementation` when the body has no title line. */
  function TitleName(body: string): string {
    var lines := Strings.Split(body, "\n");
    match First(lines, IsTitleLine)
    case None => "Unknown Implementation"
    case Some(i) => Trim(StripHash(lines[i]))
  }

  /** The name is always trimmed; it is the fallback exactly where no line
      is a title line, and otherwise comes from the first that is. */
  lemma TitleNameMeaning(body: string)
    ensures IsTrimmed(TitleName(body))
    ensures var k := First(Strings.Split(body, "\n"), IsTitleLine);
      && (k.None? ==> TitleName(body) == "Unknown Implementation")
      && (k.Some? ==> TitleName(body) == Trim(StripHash(Strings.Split(body, "\n")[k.value])))
  {
    var lines := Strings.Split(body, "\n");
    match First(lines, IsTitleLine)
    case None =>
      assert IsTrimmed("Unknown Implementation");
    case Some(k) =>
      TrimShape(StripHash(lines[k]));
  }

  /** A body opening with `# <title>` is named by that title. */
  lemma HeadingTitle(title: string, rest: string)
    requires title != [] && IsTrimmed(title)
    requires NoNewline(title)
    ensures TitleName("# " + title + "\n" + rest) == title
  {
    var line := "# " + title;
    assert NoNewline(line) && IsTitleLine(line) by {
      assert forall i :: 2 <= i < |line| ==> line[i] == title[i - 2];
      TrimTrimmed(line);
    }
    TitleLineFirst(line, rest);
    assert Trim(StripHash(line)) == title by {
      StripHeading(title);
      TrimTrimmed(title);
    }
  }

  /** A title line followed by a newline is the first title line. */
  lemma TitleLineFirst(line: string, rest: string)
    requires NoNewline(line) && IsTitleLine(line)
    ensures var lines := Strings.Split(line + "\n" + rest, "\n");
      First(lines, IsTitleLine) == Some(0) && lines[0] == line
  {
    FirstLine(line, rest);
  }

  lemma StripHeading(title: string)
    requires title != [] && !IsSpace(title[0])
    ensures StripHash("# " + title) == title
  {
    var line := "# " + title;
    assert line[1..] == " " + title;
    TrimStartOfPadded(" ", title);
  }

  /** The first line of `line + "\n" + rest`, for a line without a newline. */
  lemma FirstLine(line: string, rest: string)
    requires NoNewline(line)
    ensures Strings.Split(line + "\n" + rest, "\n")[0] == line
  {
    NoNewlineIn(line);
    FindSeparator(line, rest, "\n");
    var body := line + "\n" + rest;
    assert body[..|line|] == line;
  }

  /** The implementation a file under `impls/` contributes: one whose
      frontmatter has a truthy `id` and the type `implementation`. */
  function ImplEntry(yaml: Yaml, content: string): Option<Implementation> {
    var parsed := Parse(yaml, content);
    var id := Get(parsed.frontmatter, "id");
    if TruthyOpt(id) && Get(parsed.frontmatter, "type") == Some(Str("implementation")) then
      Some(Implementation(id.value, TitleName(parsed.body)))
    else None
  }

  /** The entry of the file at `p`, where it can be read and qualifies. */
  function EntryAt(t: Tree, yaml: Yaml, p: Path): Option<Implementation> {
    match ReadFile(t, p)
    case Err(_) => None
    case Ok(content) => ImplEntry(yaml, content)
  }

  /** A file qualifies when its frontmatter has a truthy `id` and the type
      `implementation`; its id is shown as text and its name is its title. */
  lemma EntryAtMeaning(t: Tree, yaml: Yaml, p: Path)
    ensures EntryAt(t, yaml, p).Some? ==> IsFile(t, p)
    ensures IsFile(t, p) ==>
      var e := EntryAt(t, yaml, p);
      var parsed := Parse(yaml, t[p].content);
      && (e.Some? <==> TruthyOpt(Get(parsed.frontmatter, "id")) && Get(parsed.frontmatter, "type") == Some(Str("implementation")))
      && (e.Some? ==> e.value == Implementation(Get(parsed.frontmatter, "id").value, TitleName(parsed.body)))
  {
  }

  function Entries(t: Tree, yaml: Yaml): Path -> Option<Implementation> {
    p => EntryAt(t, yaml, p)
  }

  /** What the loop collects from `files`, in their order; a file that cannot
      be read or does not qualify adds nothing. */
  function ImplsOf(t: Tree, yaml: Yaml, files: seq<Path>): seq<Implementation> {
    Collect(files, Entries(t, yaml))
  }

  /** The values `f` gives for `ps`, in order, skipping `None`. */
  function Collect<P, T>(ps: seq<P>, f: P -> Option<T>): seq<T>
    decreases |ps|
  {
    if ps == [] then []
    else
      var e := f(ps[|ps| - 1]);
      Collect(ps[..|ps| - 1], f) + (if e.Some? then [e.value] else [])
  }

  /** Exactly the values `f` gives for some element are collected. */
  lemma {:induction false} CollectMembers<P, T>(ps: seq<P>, f: P -> Option<T>, x: T)
    ensures x in Collect(ps, f) <==> exists i :: 0 <= i < |ps| && f(ps[i]) == Some(x)
    decreases |ps|
  {
    if ps != [] {
      var init := ps[..|ps| - 1];
      CollectMembers(init, f, x);
      if exists i :: 0 <= i < |init| && f(init[i]) == Some(x) {
        var i :| 0 <= i < |init| && f(init[i]) == Some(x);
        assert ps[i] == init[i];
      }
      if exists i :: 0 <= i < |ps| && f(ps[i]) == Some(x) {
        var i :| 0 <= i < |ps| && f(ps[i]) == Some(x);
        if i < |init| {
          assert init[i] == ps[i];
        }
      }
    }
  }

  /** The collected implementations are exactly the entries of the files that
      qualify. */
  lemma ImplsOfMembers(t: Tree, yaml: Yaml, files: seq<Path>, x: Implementation)
    ensures x in ImplsOf(t, yaml, files) <==> exists i :: 0 <= i < |files| && EntryAt(t, yaml, files[i]) == Some(x)
  {
    CollectMembers(files, Entries(t, yaml), x);
  }

  function ById(x: Implementation): string {
    ToText(x.id)
  }

  /** How many of `impls` have an id that is not a string. */
  function NonStringIds(impls: seq<Implementation>): (n: nat)
    ensures n <= |impls|
    ensures n == 0 <==> forall i :: 0 <= i < |impls| ==> impls[i].id.Str?
  {
    if impls == [] then 0
    else (if impls[0].id.Str? then 0 else 1) + NonStringIds(impls[1..])
  }

  /** Whether an entry after the first has an id that is not a string. */
  predicate LaterNonString(impls: seq<Implementation>) {
    exists i :: 1 <= i < |impls| && !impls[i].id.Str?
  }

  /** Two ids that are not strings always put one after the first; one such
      id throws only when it is not first. */
  lemma LaterNonStringCases(impls: seq<Implementation>)
    ensures NonStringIds(impls) >= 2 ==> LaterNonString(impls)
    ensures NonStringIds(impls) == 0 ==> !LaterNonString(impls)
    ensures impls != [] && !impls[0].id.Str? && NonStringIds(impls) == 1 ==> !LaterNonString(impls)
  {
    if impls != [] {
      var tail := impls[1..];
      assert NonStringIds(impls) == (if impls[0].id.Str? then 0 else 1) + NonStringIds(tail);
      assert forall i :: 1 <= i < |impls| ==> impls[i] == tail[i - 1];
      if NonStringIds(impls) >= 2 || (!impls[0].id.Str? && NonStringIds(impls) == 1) {
        assert NonStringIds(tail) >= 1 <==> exists j :: 0 <= j < |tail| && !tail[j].id.Str?;
      }
    }
  }

  /** A numeric id collected after a string id throws; collected first, it
      does not. */
  lemma NumericIdPlace(x: string, y: string)
    ensures LaterNonString([Implementation(Str("IMP-1"), x), Implementation(Num(7), y)])
    ensures !LaterNonString([Implementation(Num(7), y), Implementation(Str("IMP-1"), x)])
  {
    var later := [Implementation(Str("IMP-1"), x), Implementation(Num(7), y)];
    assert !later[1].id.Str?;
  }

  /** What the sort throws when it calls `localeCompare` on an id that is not
      a string, which has no such method. */
  const CompareError := "a.id.localeCompare is not a function"

  /** `getProjectImplementations`: every qualifying file under
      `<docs>/impls`, sorted by id, or nothing where that directory is
      missing. The files come in the sorted order the search gives. The
      comparison calls `localeCompare` on its first argument's id, and the
      engine passes every entry but the first as a first argument at least
      once, and never the first; so the sort throws exactly when an entry
      after the first has an id that is not a string. */
  method GetProjectImplementations(t: Tree, yaml: Yaml, docs: Result<Path>)
    returns (r: Result<seq<Implementation>>, ghost files: seq<Path>)
    requires WellFormed(t)
    ensures docs.Err? ==> r == Err(docs.msg)
    ensures docs.Ok? && docs.value + ["impls"] !in t ==> r == Ok([])
    ensures docs.Ok? && IsFile(t, docs.value + ["impls"]) ==> r == Err(ScandirError(docs.value + ["impls"]))
    ensures docs.Ok? && IsDir(t, docs.value + ["impls"]) ==>
      && Distinct(files) && AsSet(files) == MdUnder(t, docs.value + ["impls"])
      && SortedBy(files, ToString)
      && (r.Err? <==> LaterNonString(ImplsOf(t, yaml, files)))
      && (r.Err? ==> r == Err(CompareError))
    ensures r.Ok? ==> SortedBy(r.value, ById) && multiset(r.value) == multiset(ImplsOf(t, yaml, files))
  {
    files := [];
    if docs.Err? {
      return Err(docs.msg), files;
    }
    var implsPath := docs.value + ["impls"];
    if implsPath !in t {
      return Ok([]), files;
    }
    var found := FindMarkdownFiles(t, implsPath);
    if found.Err? {
      return Err(found.msg), files;
    }
    var list := found.value;
    files := list;
    var impls := CollectImpls(t, yaml, list);
    if exists i :: 1 <= i < |impls| && !impls[i].id.Str? {
      return Err(CompareError), files;
    }
    r := Ok(SortBy(impls, ById));
  }

  /** The loop of `getProjectImplementations`: every file read and parsed, in
      order, keeping the entries that qualify. */
  method CollectImpls(t: Tree, yaml: Yaml, list: seq<Path>) returns (impls: seq<Implementation>)
    ensures impls == ImplsOf(t, yaml, list)
  {
    impls := [];
    var i := 0;
    while i < |list|
      invariant 0 <= i <= |list|
      invariant impls == ImplsOf(t, yaml, list[..i])
    {
      assert list[..i + 1][..i] == list[..i];
      var read := ReadFile(t, list[i]);
      if read.Ok? {
        var entry := ImplEntry(yaml, read.value);
        if entry.Some? {
          impls := impls + [entry.value];
        }
      }
      assert Entries(t, yaml)(list[i]) == EntryAt(t, yaml, list[i]);
      i := i + 1;
    }
    assert list[..i] == list;
  }

  /** `getInfoByIdOrPath`: the resolved document's text, with the project's
      implementations listed on a project page. */
  method GetInfoByIdOrPath(t: Tree, cwd: Path, yaml: Yaml, docs: Result<Path>, title: string -> string, idOrPath: string)
    returns (r: Result<string>, ghost files: seq<Path>)
    requires WellFormed(t) && Normal(cwd)
    ensures Resolution(t, cwd, yaml, idOrPath).Err? ==> r == Err(Resolution(t, cwd, yaml, idOrPath).msg)
    ensures var res := Resolution(t, cwd, yaml, idOrPath);
      res.Ok? && res.value.fileType != "project" ==> r == Ok(FileInfoText(t, yaml, res.value, None, docs, title))
    ensures var res := Resolution(t, cwd, yaml, idOrPath);
      res.Ok? && res.value.fileType == "project" && docs.Err? ==> r == Err(docs.msg)
    ensures var res := Resolution(t, cwd, yaml, idOrPath);
      r.Ok? ==> res.Ok? && StartsWith(r.value, Header(res.value))
    ensures var res := Resolution(t, cwd, yaml, idOrPath);
      r.Ok? && res.value.fileType == "project" ==>
        exists impls :: SortedBy(impls, ById) && multiset(impls) == multiset(ImplsOf(t, yaml, files))
          && r.value == FileInfoText(t, yaml, res.value, Some(impls), docs, title)
  {
    files := [];
    var resolved := ResolveFileInfo(t, cwd, yaml, idOrPath);
    if resolved.Err? {
      return Err(resolved.msg), files;
    }
    var info := resolved.value;
    var impls: Option<seq<Implementation>> := None;
    if info.fileType == "project" {
      var listed;
      listed, files := GetProjectImplementations(t, yaml, docs);
      if listed.Err? {
        return Err(listed.msg), files;
      }
      impls := Some(listed.value);
    }
    var text := FormatFileInfo(t, yaml, info, impls, docs, title);
    FileInfoTextMeaning(t, yaml, info, impls, docs, title);
    return Ok(text), files;
  }
}
