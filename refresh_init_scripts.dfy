/** `scripts/refresh-init-scripts.ts`: the maintainer's script that turns the
    repository's own agent files and worktree scripts back into the templates
    `zamm init scripts` installs. The `.claude` directory is copied into the
    template directory without `settings.local.json`, the implementation path
    in its markdown files is put back to `{{IMPL_PATH}}`, and the two worktree
    scripts are copied and their implementation-specific commands replaced by
    their placeholders. The two `git rev-parse` answers are a parameter. */
module RefreshInitScripts {
  import opened Wrappers
  import opened Strings
  import opened Paths
  import opened FileSystem
  import opened FileUtils
  import InitScripts

  const SetupMarker := "##### Setup worktree environment"
  const Heading := "#####"
  const Step5 := "# Step 5:"
  const Step6 := "# Step 6:"
  const Step5Comment := "# Step 5: Run implementation-specific build or verification commands"
  const BuildEcho := "echo \"Running implementation-specific post-worktree commands...\""
  const StartMissing := "Error: Could not find \"##### Setup worktree environment\" marker in start-worktree.sh"
  const EndMissing := "Error: Could not find \"# Step 5:\" and/or \"# Step 6:\" markers in end-worktree.sh"

  /* ---------- start-worktree.sh ---------- */

  /** The lines `restoreStartWorktreePlaceholder` pushes for `lines` when it
      meets them with `skipMode` equal to `skip`: the marker line is kept and
      followed by the placeholder and a blank line and starts skipping; a
      skipped line starting with `#####` ends the skipping and is kept. */
  function StartFrom(lines: seq<string>, skip: bool): seq<string>
    decreases |lines|
  {
    if lines == [] then []
    else StartHead(lines[0], skip) + StartFrom(lines[1..], StartNext(lines[0], skip))
  }

  /** What one line of the loop pushes. */
  function StartHead(line: string, skip: bool): seq<string> {
    if line == SetupMarker then [SetupMarker, InitScripts.SetupPlaceholder, ""]
    else if skip && !StartsWith(line, Heading) then []
    else [line]
  }

  /** `skipMode` after one line. */
  function StartNext(line: string, skip: bool): bool {
    if line == SetupMarker then true else skip && !StartsWith(line, Heading)
  }

  /** `skipMode` after the loop has read `lines` from state `skip`. */
  function SkipAfter(lines: seq<string>, skip: bool): bool
    decreases |lines|
  {
    if lines == [] then skip else SkipAfter(lines[1..], StartNext(lines[0], skip))
  }

  /** The loop reads the lines left to right: two stretches of lines are
      transformed one after the other, the second in the state the first
      left. */
  lemma {:induction false} StartAppend(a: seq<string>, b: seq<string>, skip: bool)
    ensures StartFrom(a + b, skip) == StartFrom(a, skip) + StartFrom(b, SkipAfter(a, skip))
    decreases |a|
  {
    if a == [] {
      assert a + b == b;
    } else {
      assert (a + b)[1..] == a[1..] + b;
      StartAppend(a[1..], b, StartNext(a[0], skip));
    }
  }

  /** Outside skipping, lines before any marker are kept as they are and
      leave skipping off. */
  lemma {:induction false} StartPlain(lines: seq<string>)
    requires SetupMarker !in lines
    ensures StartFrom(lines, false) == lines
    ensures !SkipAfter(lines, false)
    decreases |lines|
  {
    if lines != [] {
      StartPlain(lines[1..]);
    }
  }

  /** The lines before the first marker are unchanged, and the marker is
      followed at once by the placeholder and a blank line; skipping then
      starts. */
  lemma StartAtMarker(pre: seq<string>, post: seq<string>)
    requires SetupMarker !in pre
    ensures StartFrom(pre + [SetupMarker] + post, false)
      == pre + [SetupMarker, InitScripts.SetupPlaceholder, ""] + StartFrom(post, true)
  {
    StartAppend(pre, [SetupMarker] + post, false);
    StartPlain(pre);
    assert ([SetupMarker] + post)[1..] == post;
    assert pre + [SetupMarker] + post == pre + ([SetupMarker] + post);
  }

  /** The marker begins with `#####`. */
  lemma MarkerIsHeading()
    ensures StartsWith(SetupMarker, Heading)
  {
    assert SetupMarker[..|Heading|] == Heading;
  }

  /** While skipping, every line up to the next one starting with `#####` is
      dropped, and from that line on the text is transformed as if skipping
      had never begun. */
  lemma {:induction false} StartSkips(lines: seq<string>, k: nat)
    requires k <= |lines|
    requires forall j :: 0 <= j < k ==> !StartsWith(lines[j], Heading)
    requires k < |lines| ==> StartsWith(lines[k], Heading)
    ensures StartFrom(lines, true) == StartFrom(lines[k..], false)
    decreases k
  {
    MarkerIsHeading();
    if k > 0 {
      assert lines[0] != SetupMarker;
      assert lines[1..][k - 1..] == lines[k..];
      StartSkips(lines[1..], k - 1);
    }
  }

  /** `restoreStartWorktreePlaceholder`'s loop over the lines, with its two
      flags. */
  method RestoreStartLines(lines: seq<string>) returns (output: seq<string>, found: bool)
    ensures output == StartFrom(lines, false)
    ensures found <==> SetupMarker in lines
  {
    output := [];
    var skip := false;
    found := false;
    var i := 0;
    while i < |lines|
      invariant 0 <= i <= |lines|
      invariant output + StartFrom(lines[i..], skip) == StartFrom(lines, false)
      invariant found <==> SetupMarker in lines[..i]
    {
      var line := lines[i];
      assert lines[i..][1..] == lines[i + 1..];
      assert lines[..i + 1] == lines[..i] + [line];
      ghost var done, before := output, skip;
      assert StartFrom(lines[i..], skip) == StartHead(line, skip) + StartFrom(lines[i + 1..], StartNext(line, skip));
      if line == SetupMarker {
        output := output + [line, InitScripts.SetupPlaceholder, ""];
        skip := true;
        found := true;
        i := i + 1;
        StartStep(done, output, before, skip, line, lines[i..]);
        continue;
      }
      if skip && StartsWith(line, Heading) {
        skip := false;
      }
      if !skip {
        output := output + [line];
      }
      i := i + 1;
      StartStep(done, output, before, skip, line, lines[i..]);
    }
    assert lines[..i] == lines;
  }

  /** One pass of the loop body keeps the invariant. */
  lemma StartStep(done: seq<string>, output: seq<string>, skip: bool, skip': bool, line: string, rest: seq<string>)
    requires output == done + StartHead(line, skip) && skip' == StartNext(line, skip)
    ensures output + StartFrom(rest, skip') == done + (StartHead(line, skip) + StartFrom(rest, StartNext(line, skip)))
  {
  }

  /** The new text of `start-worktree.sh`, or the failure when the marker
      line is missing. */
  function RestoredStart(content: string): Result<string> {
    var lines := Strings.Split(content, "\n");
    if SetupMarker in lines then Ok(Join(StartFrom(lines, false), "\n"))
    else Err(StartMissing)
  }

  /** What the transform emits holds no newline when its input lines hold
      none, so the new text splits back into exactly those lines. */
  lemma {:induction false} StartNoNewline(lines: seq<string>, skip: bool)
    requires SingleLines(lines)
    ensures SingleLines(StartFrom(lines, skip))
    decreases |lines|
  {
    if lines != [] {
      var head := StartHead(lines[0], skip);
      var rest := StartFrom(lines[1..], StartNext(lines[0], skip));
      StartNoNewline(lines[1..], StartNext(lines[0], skip));
      NoNewlineIn(SetupMarker);
      NoNewlineIn(InitScripts.SetupPlaceholder);
      NoNewlineIn("");
      assert SingleLines(head);
      LinesAppend(head, rest);
    }
  }

  /** Lines that hold no newline. */
  predicate SingleLines(lines: seq<string>) {
    forall i :: 0 <= i < |lines| ==> !Contains(lines[i], "\n")
  }

  /** Two newline-free runs of lines make one. */
  lemma LinesAppend(a: seq<string>, b: seq<string>)
    requires SingleLines(a) && SingleLines(b)
    ensures SingleLines(a + b)
  {
    forall i | |a| <= i < |a + b| ensures !Contains((a + b)[i], "\n") {
      assert (a + b)[i] == b[i - |a|];
    }
  }

  /** The script is refreshed exactly when one of its lines is the marker.
      Then the lines before the first marker are unchanged, the marker is
      kept and directly followed by the placeholder and a blank line, and
      splitting the new text gives these lines. */
  lemma StartMeaning(content: string, pre: seq<string>, post: seq<string>)
    requires Strings.Split(content, "\n") == pre + [SetupMarker] + post
    requires SetupMarker !in pre
    ensures var lines := pre + [SetupMarker, InitScripts.SetupPlaceholder, ""] + StartFrom(post, true);
      && RestoredStart(content) == Ok(Join(lines, "\n"))
      && Strings.Split(RestoredStart(content).value, "\n") == lines
  {
    var all := Strings.Split(content, "\n");
    assert all[|pre|] == SetupMarker;
    StartAtMarker(pre, post);
    StartNoNewline(all, false);
    JoinSplit(StartFrom(all, false), "\n");
  }

  /* ---------- end-worktree.sh ---------- */

  predicate IsStepLine(line: string) {
    StartsWith(line, Step5) || StartsWith(line, Step6)
  }

  /** Lines neither transform reacts to. */
  predicate NoStepLine(lines: seq<string>) {
    forall i :: 0 <= i < |lines| ==> !IsStepLine(lines[i])
  }

  /** Some line starts with `prefix`. */
  predicate AnyStartsWith(lines: seq<string>, prefix: string) {
    exists i :: 0 <= i < |lines| && StartsWith(lines[i], prefix)
  }

  /** The lines `restoreEndWorktreePlaceholder` pushes for `lines` when it
      meets them with `inStep5` equal to `inStep5`: a `# Step 5:` line becomes
      the fixed comment and starts dropping lines; a `# Step 6:` line is
      preceded by the echo line, the placeholder and a blank line, ends the
      dropping and is kept. */
  function EndFrom(lines: seq<string>, inStep5: bool): seq<string>
    decreases |lines|
  {
    if lines == [] then []
    else EndHead(lines[0], inStep5) + EndFrom(lines[1..], EndNext(lines[0], inStep5))
  }

  /** What one line of the loop pushes. */
  function EndHead(line: string, inStep5: bool): seq<string> {
    if StartsWith(line, Step5) then [Step5Comment]
    else if StartsWith(line, Step6) then [BuildEcho, InitScripts.BuildPlaceholder, "", line]
    else if inStep5 then []
    else [line]
  }

  /** `inStep5` after one line. */
  function EndNext(line: string, inStep5: bool): bool {
    if StartsWith(line, Step5) then true
    else if StartsWith(line, Step6) then false
    else inStep5
  }

  /** `inStep5` after the loop has read `lines` from state `inStep5`. */
  function InStep5After(lines: seq<string>, inStep5: bool): bool
    decreases |lines|
  {
    if lines == [] then inStep5 else InStep5After(lines[1..], EndNext(lines[0], inStep5))
  }

  /** As for the start script, the lines are read left to right. */
  lemma {:induction false} EndAppend(a: seq<string>, b: seq<string>, inStep5: bool)
    ensures EndFrom(a + b, inStep5) == EndFrom(a, inStep5) + EndFrom(b, InStep5After(a, inStep5))
    decreases |a|
  {
    if a == [] {
      assert a + b == b;
    } else {
      assert (a + b)[1..] == a[1..] + b;
      EndAppend(a[1..], b, EndNext(a[0], inStep5));
    }
  }

  /** Lines without a step marker are kept outside step 5, dropped inside
      it, and do not change the state. */
  lemma {:induction false} EndPlain(lines: seq<string>, inStep5: bool)
    requires NoStepLine(lines)
    ensures EndFrom(lines, inStep5) == if inStep5 then [] else lines
    ensures InStep5After(lines, inStep5) == inStep5
    decreases |lines|
  {
    if lines != [] {
      assert !IsStepLine(lines[0]);
      assert EndHead(lines[0], inStep5) == if inStep5 then [] else [lines[0]];
      assert EndNext(lines[0], inStep5) == inStep5;
      EndPlain(lines[1..], inStep5);
      assert NoStepLine(lines[1..]);
      assert lines == [lines[0]] + lines[1..];
    }
  }

  /** Between a `# Step 5:` line and the next `# Step 6:` line: the lines
      before stay as they are, the step 5 line becomes the fixed comment,
      the lines between are dropped, and the echo line, the placeholder and
      a blank line come right before the kept step 6 line. */
  lemma EndAtMarkers(pre: seq<string>, l5: string, mid: seq<string>, l6: string, post: seq<string>)
    requires NoStepLine(pre) && NoStepLine(mid)
    requires StartsWith(l5, Step5) && StartsWith(l6, Step6)
    ensures EndFrom(pre + [l5] + mid + [l6] + post, false)
      == pre + [Step5Comment, BuildEcho, InitScripts.BuildPlaceholder, "", l6] + EndFrom(post, false)
  {
    var tail := [l6] + post;
    var from5 := [l5] + (mid + tail);
    var block := [BuildEcho, InitScripts.BuildPlaceholder, "", l6];
    assert pre + [l5] + mid + [l6] + post == pre + from5;
    EndThroughPlain(pre, from5);
    EndStep5(l5, mid + tail);
    EndDrop(mid, tail);
    EndStep6(l6, post, true);
    assert [Step5Comment] + block == [Step5Comment, BuildEcho, InitScripts.BuildPlaceholder, "", l6];
    assert pre + ([Step5Comment] + (block + EndFrom(post, false))) == pre + ([Step5Comment] + block) + EndFrom(post, false);
  }

  lemma EndThroughPlain(pre: seq<string>, rest: seq<string>)
    requires NoStepLine(pre)
    ensures EndFrom(pre + rest, false) == pre + EndFrom(rest, false)
  {
    EndPlain(pre, false);
    EndAppend(pre, rest, false);
  }

  lemma EndStep5(l5: string, rest: seq<string>)
    requires StartsWith(l5, Step5)
    ensures EndFrom([l5] + rest, false) == [Step5Comment] + EndFrom(rest, true)
  {
    assert ([l5] + rest)[1..] == rest;
  }

  lemma EndDrop(mid: seq<string>, rest: seq<string>)
    requires NoStepLine(mid)
    ensures EndFrom(mid + rest, true) == EndFrom(rest, true)
  {
    EndPlain(mid, true);
    EndAppend(mid, rest, true);
  }

  lemma EndStep6(l6: string, post: seq<string>, inStep5: bool)
    requires StartsWith(l6, Step6)
    ensures EndFrom([l6] + post, inStep5) == [BuildEcho, InitScripts.BuildPlaceholder, "", l6] + EndFrom(post, false)
  {
    StepLinesDiffer(l6);
    assert ([l6] + post)[1..] == post;
  }

  /** No line starts with both step markers. */
  lemma StepLinesDiffer(line: string)
    ensures !(StartsWith(line, Step5) && StartsWith(line, Step6))
  {
  }

  /** `restoreEndWorktreePlaceholder`'s loop over the lines, with its three
      flags. */
  method RestoreEndLines(lines: seq<string>) returns (output: seq<string>, found5: bool, found6: bool)
    ensures output == EndFrom(lines, false)
    ensures found5 <==> AnyStartsWith(lines, Step5)
    ensures found6 <==> AnyStartsWith(lines, Step6)
  {
    output := [];
    var inStep5 := false;
    found5 := false;
    found6 := false;
    var i := 0;
    while i < |lines|
      invariant 0 <= i <= |lines|
      invariant output + EndFrom(lines[i..], inStep5) == EndFrom(lines, false)
      invariant found5 <==> AnyStartsWith(lines[..i], Step5)
      invariant found6 <==> AnyStartsWith(lines[..i], Step6)
    {
      var line := lines[i];
      assert lines[i..][1..] == lines[i + 1..];
      assert lines[..i + 1] == lines[..i] + [line];
      AnyStartsWithSnoc(lines[..i], line, Step5);
      AnyStartsWithSnoc(lines[..i], line, Step6);
      ghost var done, before := output, inStep5;
      assert EndFrom(lines[i..], inStep5) == EndHead(line, inStep5) + EndFrom(lines[i + 1..], EndNext(line, inStep5));
      if StartsWith(line, Step5) {
        output := output + [Step5Comment];
        inStep5 := true;
        found5 := true;
        i := i + 1;
        EndStep(done, output, before, inStep5, line, lines[i..]);
        continue;
      }
      if StartsWith(line, Step6) {
        output := output + [BuildEcho, InitScripts.BuildPlaceholder, ""];
        inStep5 := false;
        found6 := true;
      }
      if !inStep5 {
        output := output + [line];
      }
      i := i + 1;
      EndStep(done, output, before, inStep5, line, lines[i..]);
    }
    assert lines[..i] == lines;
  }

  /** One pass of the loop body keeps the invariant. */
  lemma EndStep(done: seq<string>, output: seq<string>, inStep5: bool, inStep5': bool, line: string, rest: seq<string>)
    requires output == done + EndHead(line, inStep5) && inStep5' == EndNext(line, inStep5)
    ensures output + EndFrom(rest, inStep5') == done + (EndHead(line, inStep5) + EndFrom(rest, EndNext(line, inStep5)))
  {
  }

  lemma AnyStartsWithSnoc(lines: seq<string>, line: string, prefix: string)
    ensures AnyStartsWith(lines + [line], prefix) <==> AnyStartsWith(lines, prefix) || StartsWith(line, prefix)
  {
    if StartsWith(line, prefix) {
      assert (lines + [line])[|lines|] == line;
    }
    if AnyStartsWith(lines, prefix) {
      var i :| 0 <= i < |lines| && StartsWith(lines[i], prefix);
      assert (lines + [line])[i] == lines[i];
    }
  }

  /** The new text of `end-worktree.sh`, with its trailing newline, or the
      failure when either step line is missing. */
  function RestoredEnd(content: string): Result<string> {
    var lines := Strings.Split(content, "\n");
    if AnyStartsWith(lines, Step5) && AnyStartsWith(lines, Step6) then
      Ok(Join(EndFrom(lines, false), "\n") + "\n")
    else Err(EndMissing)
  }

  /** A script whose step 5 line comes before its step 6 line is refreshed
      into the lines of `EndAtMarkers` and one newline more. */
  lemma EndMeaning(content: string, pre: seq<string>, l5: string, mid: seq<string>, l6: string, post: seq<string>)
    requires Strings.Split(content, "\n") == pre + [l5] + mid + [l6] + post
    requires NoStepLine(pre) && NoStepLine(mid)
    requires StartsWith(l5, Step5) && StartsWith(l6, Step6)
    ensures RestoredEnd(content)
      == Ok(Join(pre + [Step5Comment, BuildEcho, InitScripts.BuildPlaceholder, "", l6] + EndFrom(post, false), "\n") + "\n")
  {
    var lines := Strings.Split(content, "\n");
    assert lines[|pre|] == l5 && lines[|pre| + 1 + |mid|] == l6;
    EndAtMarkers(pre, l5, mid, l6, post);
  }

  /* ---------- restoreImplPathPlaceholders ---------- */

  const ImplExample := "docs/impls/nodejs.md"

  /** `content.replace(/docs\/impls\/nodejs\.md/g, '{{IMPL_PATH}}')`. */
  function WithImplPlaceholder(content: string): string {
    ReplaceAll(content, ImplExample, InitScripts.ImplPlaceholder)
  }

  /** The placeholder shares no character with the path it replaces, so no
      occurrence of the path is left. */
  lemma ImplPathGone(content: string)
    ensures !Contains(WithImplPlaceholder(content), ImplExample)
  {
    assert forall i :: 0 <= i < |ImplExample| ==> 'a' <= ImplExample[i] <= 'z' || ImplExample[i] in "/.";
    assert forall j :: 0 <= j < |InitScripts.ImplPlaceholder| ==>
      'A' <= InitScripts.ImplPlaceholder[j] <= 'Z' || InitScripts.ImplPlaceholder[j] in "{}_";
    ReplaceAllRemoves(content, ImplExample, InitScripts.ImplPlaceholder);
  }

  /** The tree with the files of `files` rewritten. */
  function Rewritten(t: Tree, files: set<Path>): Tree {
    map p | p in t :: if p in files && t[p].File? then File(WithImplPlaceholder(t[p].content)) else t[p]
  }

  /** The same entries, each a file or a directory as before. */
  predicate SameShape(t: Tree, u: Tree) {
    t.Keys == u.Keys && forall p :: p in t ==> (t[p].Dir? <==> u[p].Dir?)
  }

  /** A rewrite changes no entry's kind, so it finds the same markdown files
      and directories again. */
  lemma RewrittenShape(t: Tree, files: set<Path>, d: Path)
    ensures SameShape(t, Rewritten(t, files))
    ensures MdUnder(Rewritten(t, files), d) == MdUnder(t, d)
    ensures Under(Rewritten(t, files), d) == Under(t, d)
    ensures Closed(t) ==> Closed(Rewritten(t, files))
    ensures WellFormed(t) ==> WellFormed(Rewritten(t, files))
  {
  }

  /** Rewriting two disjoint sets of files one after the other rewrites
      their union. */
  lemma RewrittenTwice(t: Tree, a: set<Path>, b: set<Path>)
    requires a !! b
    ensures Rewritten(Rewritten(t, a), b) == Rewritten(t, a + b)
  {
  }

  /** A directory entry: the walk below it rewrites what it contributes. */
  lemma RestoreDirStep(t: Tree, d: Path, names: seq<string>, i: nat, next: Tree)
    requires Closed(t) && Distinct(names) && i < |names|
    requires var before := Rewritten(t, MdVia(t, d, names[..i]));
      IsDir(before, d + [names[i]]) && next == Rewritten(before, MdUnder(before, d + [names[i]]))
    ensures next == Rewritten(t, MdVia(t, d, names[..i + 1]))
  {
    var c := d + [names[i]];
    var done := MdVia(t, d, names[..i]);
    RewrittenShape(t, done, c);
    assert Contribution(t, d, names[i]) == MdUnder(t, c);
    ViaNext(t, d, names, i);
    RewrittenTwice(t, done, MdUnder(t, c));
  }

  /** A markdown file entry: its content is rewritten. */
  lemma RestoreFileStep(t: Tree, d: Path, names: seq<string>, i: nat, before: Tree, after: Tree)
    requires Closed(t) && Distinct(names) && i < |names|
    requires before == Rewritten(t, MdVia(t, d, names[..i]))
    requires var c := d + [names[i]];
      && IsFile(before, c) && EndsWith(names[i], ".md")
      && after == before[c := File(WithImplPlaceholder(before[c].content))]
    ensures after == Rewritten(t, MdVia(t, d, names[..i + 1]))
  {
    var c := d + [names[i]];
    var done := MdVia(t, d, names[..i]);
    RewrittenShape(t, done, c);
    assert Contribution(t, d, names[i]) == {c};
    ViaNext(t, d, names, i);
    RewriteOne(before, c);
    RewrittenTwice(t, done, {c});
  }

  /** Any other entry: nothing is rewritten. */
  lemma RestoreOtherStep(t: Tree, d: Path, names: seq<string>, i: nat, before: Tree)
    requires Closed(t) && Distinct(names) && i < |names|
    requires before == Rewritten(t, MdVia(t, d, names[..i]))
    requires var c := d + [names[i]];
      !IsDir(before, c) && !(IsFile(before, c) && EndsWith(names[i], ".md"))
    ensures before == Rewritten(t, MdVia(t, d, names[..i + 1]))
  {
    var c := d + [names[i]];
    var done := MdVia(t, d, names[..i]);
    RewrittenShape(t, done, c);
    assert Contribution(t, d, names[i]) == {};
    ViaNext(t, d, names, i);
    assert done + {} == done;
  }

  /** One more entry adds what it contributes, which is disjoint from the rest. */
  lemma ViaNext(t: Tree, d: Path, names: seq<string>, i: nat)
    requires Closed(t) && Distinct(names) && i < |names|
    ensures MdVia(t, d, names[..i + 1]) == MdVia(t, d, names[..i]) + Contribution(t, d, names[i])
    ensures MdVia(t, d, names[..i]) !! Contribution(t, d, names[i])
  {
    assert names[..i + 1] == names[..i] + [names[i]];
    MdViaStep(t, d, names[..i], names[i]);
    ViaDisjoint(t, d, names, i);
  }

  /** Rewriting one file is replacing its content. */
  lemma RewriteOne(t: Tree, c: Path)
    requires IsFile(t, c)
    ensures t[c := File(WithImplPlaceholder(t[c].content))] == Rewritten(t, {c})
  {
    var u := t[c := File(WithImplPlaceholder(t[c].content))];
    assert u.Keys == Rewritten(t, {c}).Keys;
    forall p | p in u ensures u[p] == Rewritten(t, {c})[p] {
    }
  }

  /** The files reached through the entries seen so far and those reached
      through the next entry are disjoint. */
  lemma ViaDisjoint(t: Tree, d: Path, names: seq<string>, i: nat)
    requires Distinct(names) && i < |names|
    ensures MdVia(t, d, names[..i]) !! Contribution(t, d, names[i])
  {
    forall p | p in Contribution(t, d, names[i]) ensures p !in MdVia(t, d, names[..i]) {
      FromContribution(t, d, names[i], p);
      assert names[i] !in names[..i];
    }
  }

  /** `restoreImplPathPlaceholders(dir)`: walks `dir` as `readdirSync`
      lists it, descending into directories, and rewrites every regular
      file whose name ends in `.md`; nothing else changes. */
  method RestoreImplPaths(t: Tree, d: Path) returns (r: Result<()>, t': Tree)
    requires Closed(t)
    ensures !IsDir(t, d) ==> r.Err? && t' == t
    ensures IsDir(t, d) ==> r.Ok? && t' == Rewritten(t, MdUnder(t, d))
    decreases Under(t, d)
  {
    if !IsDir(t, d) {
      return Err(ScandirError(d)), t;
    }
    var names := ReadDir(t, d);
    t' := t;
    var i := 0;
    while i < |names|
      invariant 0 <= i <= |names|
      invariant t' == Rewritten(t, MdVia(t, d, names[..i]))
    {
      var c := d + [names[i]];
      if IsDir(t', c) {
        RewrittenShape(t, MdVia(t, d, names[..i]), c);
        UnderShrinks(t, d, c);
        var _, next := RestoreImplPaths(t', c);
        RestoreDirStep(t, d, names, i, next);
        t' := next;
      } else if IsFile(t', c) && EndsWith(names[i], ".md") {
        ghost var before := t';
        t' := t'[c := File(WithImplPlaceholder(t'[c].content))];
        RestoreFileStep(t, d, names, i, before, t');
      } else {
        RestoreOtherStep(t, d, names, i, t');
      }
      i := i + 1;
    }
    WalkDone(t, d, names);
    r := Ok(());
  }

  /** After the walk no markdown file below `dir` holds the implementation
      path, and every other entry is as it was. */
  lemma RestoredNoImplPath(t: Tree, d: Path, p: Path)
    requires p in t
    ensures var u := Rewritten(t, MdUnder(t, d));
      && p in u
      && (p in MdUnder(t, d) ==> t[p].File? && u[p] == File(WithImplPlaceholder(t[p].content)) && !Contains(u[p].content, ImplExample))
      && (p !in MdUnder(t, d) ==> u[p] == t[p])
  {
    if t[p].File? {
      ImplPathGone(t[p].content);
    }
  }

  /* ---------- copyDirectory ---------- */

  /** `p` lies strictly below `a`. */
  predicate Below(a: Path, p: Path) {
    |a| < |p| && p[..|a|] == a
  }

  /** No segment of `rel` is one of the excluded names. */
  predicate Kept(rel: seq<string>, exclude: seq<string>) {
    forall i :: 0 <= i < |rel| ==> rel[i] !in exclude
  }

  /** Neither path lies at or below the other. */
  predicate Apart(a: Path, b: Path) {
    !IsPrefix(a, b) && !IsPrefix(b, a)
  }

  /** A new entry a copy from `src` to `dest` may make: a missing ancestor
      of `dest` that `mkdir -p` creates, or the counterpart below `dest` of
      an entry below `src` none of whose names below `src` is excluded. */
  predicate MayCreate(t: Tree, src: Path, dest: Path, exclude: seq<string>, p: Path) {
    || p in Missing(t, dest)
    || (Below(dest, p) && src + p[|dest|..] in t && Kept(p[|dest|..], exclude))
  }

  /** No entry is removed, and the entries not at or below `dest` are
      unchanged. */
  predicate Keeps(t: Tree, u: Tree, dest: Path) {
    forall p :: p in t ==> p in u && (!IsPrefix(dest, p) ==> u[p] == t[p])
  }

  /** Every new entry is one the copy may make. */
  predicate OnlyCopies(t: Tree, u: Tree, src: Path, dest: Path, exclude: seq<string>) {
    forall p :: p in u && p !in t ==> MayCreate(t, src, dest, exclude, p)
  }

  /** The counterpart of `p` below `dest` is there, and holds what `p` holds
      when `p` is a file. */
  predicate Delivered(t: Tree, u: Tree, src: Path, dest: Path, p: Path)
    requires p in t && Below(src, p)
  {
    var q := dest + p[|src|..];
    q in u && (t[p].File? ==> u[q] == t[p])
  }

  /** Every kept entry below `src` reached through one of `names` is
      delivered. */
  predicate CopiedVia(t: Tree, u: Tree, src: Path, dest: Path, exclude: seq<string>, names: seq<string>) {
    forall p :: p in t && Below(src, p) && p[|src|] in names && Kept(p[|src|..], exclude) ==> Delivered(t, u, src, dest, p)
  }

  /** Every kept entry below `src` is delivered. */
  predicate Copied(t: Tree, u: Tree, src: Path, dest: Path, exclude: seq<string>) {
    forall p :: p in t && Below(src, p) && Kept(p[|src|..], exclude) ==> Delivered(t, u, src, dest, p)
  }

  lemma Comparable(a: Path, b: Path, p: Path)
    requires IsPrefix(a, p) && IsPrefix(b, p)
    ensures IsPrefix(a, b) || IsPrefix(b, a)
  {
    if |a| <= |b| {
      assert b[..|a|] == p[..|b|][..|a|];
    } else {
      assert a[..|b|] == p[..|a|][..|b|];
    }
  }

  lemma PrefixTrans(a: Path, b: Path, c: Path)
    requires IsPrefix(a, b) && IsPrefix(b, c)
    ensures IsPrefix(a, c)
  {
    assert c[..|a|] == c[..|b|][..|a|];
  }

  /** A copy into a `dest` apart from `src` leaves everything at or below
      `src` as it was. */
  lemma SourceUntouched(t: Tree, u: Tree, src: Path, dest: Path, exclude: seq<string>, p: Path)
    requires Apart(src, dest) && Keeps(t, u, dest) && OnlyCopies(t, u, src, dest, exclude)
    requires IsPrefix(src, p)
    ensures p in u <==> p in t
    ensures p in t ==> u[p] == t[p]
  {
    if IsPrefix(dest, p) {
      Comparable(src, dest, p);
    }
    if p in u && p !in t {
      assert MayCreate(t, src, dest, exclude, p);
      if p in Missing(t, dest) {
        PrefixTrans(src, p, dest);
      }
    }
  }

  /** Nor does it touch an entry that is neither at or below `dest` nor an
      ancestor of it. */
  lemma OutsideUntouched(t: Tree, u: Tree, src: Path, dest: Path, exclude: seq<string>, p: Path)
    requires Keeps(t, u, dest) && OnlyCopies(t, u, src, dest, exclude)
    requires !IsPrefix(dest, p) && !IsPrefix(p, dest)
    ensures p in u <==> p in t
    ensures p in t ==> u[p] == t[p]
  {
    assert p in u && p !in t ==> MayCreate(t, src, dest, exclude, p);
  }

  /** `mkdir -p dest` makes only what a copy may make. */
  lemma MadeKeeps(t: Tree, t1: Tree, src: Path, dest: Path, exclude: seq<string>)
    requires WellFormed(t) && Normal(dest) && MakeDirsIfMissing(t, dest) == Ok(t1)
    ensures WellFormed(t1) && dest in t1
    ensures Keeps(t, t1, dest) && OnlyCopies(t, t1, src, dest, exclude)
  {
    MakeDirsIfMissingEffect(t, dest);
  }

  /** While a copy is under way, the source directory lists the same
      names. */
  lemma SameChildren(t: Tree, u: Tree, src: Path, dest: Path, exclude: seq<string>)
    requires Apart(src, dest) && Keeps(t, u, dest) && OnlyCopies(t, u, src, dest, exclude)
    ensures Children(u, src) == Children(t, src)
    ensures IsDir(u, src) ==> IsDir(t, src)
  {
    SourceUntouched(t, u, src, dest, exclude, src);
    forall n | n in Children(u, src) ensures n in Children(t, src) {
      var p :| p in u && |p| == |src| + 1 && p[..|src|] == src && p[|src|] == n;
      SourceUntouched(t, u, src, dest, exclude, p);
    }
    forall n | n in Children(t, src) ensures n in Children(u, src) {
      var p :| p in t && |p| == |src| + 1 && p[..|src|] == src && p[|src|] == n;
      SourceUntouched(t, u, src, dest, exclude, p);
    }
  }

  /** A listed name is a normalised segment whose entry is present. */
  lemma ChildOf(t: Tree, d: Path, n: string)
    requires WellFormed(t) && n in Children(t, d)
    ensures d + [n] in t && IsSegment(n)
  {
    var p :| p in t && |p| == |d| + 1 && p[..|d|] == d && p[|d|] == n;
    assert p == p[..|d|] + [p[|d|]];
    assert IsSegment(p[|d|]);
  }

  /** The entries below a directory of the source are the same during the
      copy. */
  lemma UnderSame(t: Tree, u: Tree, src: Path, dest: Path, exclude: seq<string>, c: Path)
    requires Apart(src, dest) && Keeps(t, u, dest) && OnlyCopies(t, u, src, dest, exclude)
    requires IsPrefix(src, c)
    ensures Under(u, c) == Under(t, c)
  {
    forall p | |c| < |p| && p[..|c|] == c ensures p in u <==> p in t {
      PrefixTrans(src, c, p);
      SourceUntouched(t, u, src, dest, exclude, p);
    }
  }

  /** The copy of a child goes to the child of `dest`, apart from it. */
  lemma ApartChild(src: Path, dest: Path, n: string)
    requires Apart(src, dest)
    ensures Apart(src + [n], dest + [n])
  {
    ChildPrefix(src, dest, n);
    ChildPrefix(dest, src, n);
  }

  lemma ChildPrefix(a: Path, b: Path, n: string)
    ensures IsPrefix(a + [n], b + [n]) ==> IsPrefix(a, b)
  {
    var c, cb := a + [n], b + [n];
    if IsPrefix(c, cb) {
      assert cb[..|a|] == c[..|a|];
      assert c[..|a|] == a;
    }
  }

  /** An excluded name adds nothing to deliver. */
  lemma ExcludedStep(t: Tree, u: Tree, src: Path, dest: Path, exclude: seq<string>, names: seq<string>, i: nat)
    requires i < |names| && names[i] in exclude
    requires CopiedVia(t, u, src, dest, exclude, names[..i])
    ensures CopiedVia(t, u, src, dest, exclude, names[..i + 1])
  {
    assert names[..i + 1] == names[..i] + [names[i]];
    forall p | p in t && Below(src, p) && p[|src|] in names[..i + 1] && Kept(p[|src|..], exclude)
      ensures Delivered(t, u, src, dest, p)
    {
      assert p[|src|..][0] == p[|src|];
    }
  }

  /** The one entry a nested copy's `mkdir -p` can make is the child of
      `dest` itself. */
  lemma MissingChild(t: Tree, dest: Path, n: string)
    requires dest in t
    ensures Missing(t, dest + [n]) <= {dest + [n]}
  {
    assert Dirname(dest + [n]) == dest;
  }

  /** What a nested copy into `dest + [n]` makes, the copy into `dest` may
      make. */
  lemma DirNew(t: Tree, t1: Tree, t2: Tree, src: Path, dest: Path, exclude: seq<string>, n: string, p: Path)
    requires Apart(src, dest) && Keeps(t, t1, dest) && OnlyCopies(t, t1, src, dest, exclude) && dest in t1
    requires n !in exclude && src + [n] in t
    requires OnlyCopies(t1, t2, src + [n], dest + [n], exclude)
    requires p in t2 && p !in t1
    ensures MayCreate(t, src, dest, exclude, p)
  {
    var c, cd := src + [n], dest + [n];
    assert MayCreate(t1, c, cd, exclude, p);
    MissingChild(t1, dest, n);
    if p in Missing(t1, cd) {
      assert p == cd && cd[|dest|..] == [n];
    } else {
      var rel := p[|cd|..];
      assert p[..|dest|] == p[..|cd|][..|dest|];
      assert p[|dest|..] == [n] + rel;
      assert src + p[|dest|..] == c + rel;
      PrefixTrans(src, c, c + rel);
      SourceUntouched(t, t1, src, dest, exclude, c + rel);
      assert Kept(p[|dest|..], exclude) by {
        forall j | 0 <= j < |p[|dest|..]| ensures p[|dest|..][j] !in exclude {
          if j > 0 {
            assert p[|dest|..][j] == rel[j - 1];
          }
        }
      }
    }
  }

  /** After a nested copy into a child of `dest`, the copy into `dest`
      still keeps what it must and makes only what it may. */
  lemma DirKeeps(t: Tree, t1: Tree, t2: Tree, src: Path, dest: Path, exclude: seq<string>, n: string)
    requires Apart(src, dest) && Keeps(t, t1, dest) && OnlyCopies(t, t1, src, dest, exclude) && dest in t1
    requires n !in exclude && src + [n] in t
    requires Keeps(t1, t2, dest + [n]) && OnlyCopies(t1, t2, src + [n], dest + [n], exclude)
    ensures Keeps(t, t2, dest) && OnlyCopies(t, t2, src, dest, exclude) && dest in t2
  {
    var cd := dest + [n];
    forall p | p in t ensures p in t2 && (!IsPrefix(dest, p) ==> t2[p] == t[p]) {
      if IsPrefix(cd, p) {
        PrefixTrans(dest, cd, p);
      }
    }
    forall p | p in t2 && p !in t ensures MayCreate(t, src, dest, exclude, p) {
      if p !in t1 {
        DirNew(t, t1, t2, src, dest, exclude, n, p);
      }
    }
  }

  /** The counterpart below `dest` of an entry below `src` starts with the
      same first name. */
  lemma CounterpartHead(src: Path, dest: Path, p: Path, n: string)
    requires Below(src, p) && p[|src|] != n
    ensures !IsPrefix(dest + [n], dest + p[|src|..])
  {
    var q := dest + p[|src|..];
    assert q[|dest|] == p[|src|];
  }

  /** After the nested copy of the child directory `n`, everything reached
      through the names up to `n` is delivered. */
  lemma DirCopied(t: Tree, t1: Tree, t2: Tree, src: Path, dest: Path, exclude: seq<string>, names: seq<string>, i: nat)
    requires Apart(src, dest) && Keeps(t, t1, dest) && OnlyCopies(t, t1, src, dest, exclude)
    requires Distinct(names) && i < |names| && names[i] !in exclude
    requires IsDir(t1, src + [names[i]])
    requires CopiedVia(t, t1, src, dest, exclude, names[..i])
    requires Keeps(t1, t2, dest + [names[i]]) && dest + [names[i]] in t2
    requires Copied(t1, t2, src + [names[i]], dest + [names[i]], exclude)
    ensures CopiedVia(t, t2, src, dest, exclude, names[..i + 1])
  {
    var n := names[i];
    var c, cd := src + [n], dest + [n];
    assert names[..i + 1] == names[..i] + [n];
    assert n !in names[..i];
    forall p | p in t && Below(src, p) && p[|src|] in names[..i + 1] && Kept(p[|src|..], exclude)
      ensures Delivered(t, t2, src, dest, p)
    {
      if p[|src|] in names[..i] {
        assert Delivered(t, t1, src, dest, p);
        CounterpartHead(src, dest, p, n);
      } else {
        DirDelivered(t, t1, t2, src, dest, exclude, n, p);
      }
    }
  }

  lemma DirDelivered(t: Tree, t1: Tree, t2: Tree, src: Path, dest: Path, exclude: seq<string>, n: string, p: Path)
    requires Apart(src, dest) && Keeps(t, t1, dest) && OnlyCopies(t, t1, src, dest, exclude)
    requires IsDir(t1, src + [n]) && dest + [n] in t2
    requires Copied(t1, t2, src + [n], dest + [n], exclude)
    requires p in t && Below(src, p) && p[|src|] == n && Kept(p[|src|..], exclude)
    ensures Delivered(t, t2, src, dest, p)
  {
    var c, cd := src + [n], dest + [n];
    assert p[..|c|] == c by {
      assert p[..|c|] == p[..|src|] + [p[|src|]];
    }
    PrefixTrans(src, c, p);
    SourceUntouched(t, t1, src, dest, exclude, p);
    if |p| == |c| {
      assert p == c;
      assert dest + p[|src|..] == cd;
    } else {
      var rel := p[|c|..];
      assert p[|src|..] == [n] + rel;
      assert Kept(rel, exclude) by {
        forall j | 0 <= j < |rel| ensures rel[j] !in exclude {
          assert rel[j] == p[|src|..][j + 1];
        }
      }
      assert Delivered(t1, t2, c, cd, p);
      assert cd + rel == dest + p[|src|..];
    }
  }

  /** Nothing lies below a file. */
  lemma NothingBelowFile(t: Tree, c: Path, p: Path)
    requires Closed(t) && IsFile(t, c) && Below(c, p)
    ensures p !in t
  {
    if p in t {
      Ancestor(t, p, |c|);
    }
  }

  /** Copying the child file `n` keeps what it must and makes only what it
      may. */
  lemma FileKeeps(t: Tree, t1: Tree, t2: Tree, src: Path, dest: Path, exclude: seq<string>, n: string)
    requires Keeps(t, t1, dest) && OnlyCopies(t, t1, src, dest, exclude)
    requires n !in exclude && src + [n] in t && dest in t1
    requires t2 == t1[dest + [n] := t[src + [n]]]
    ensures Keeps(t, t2, dest) && OnlyCopies(t, t2, src, dest, exclude) && dest in t2
  {
    var cd := dest + [n];
    assert cd[..|dest|] == dest && cd[|dest|..] == [n];
    assert MayCreate(t, src, dest, exclude, cd);
  }

  /** Copying the child file `n` delivers it; what was delivered stays. */
  lemma FileCopied(t: Tree, t1: Tree, t2: Tree, src: Path, dest: Path, exclude: seq<string>, names: seq<string>, i: nat)
    requires Closed(t) && Distinct(names) && i < |names|
    requires IsFile(t, src + [names[i]])
    requires CopiedVia(t, t1, src, dest, exclude, names[..i])
    requires t2 == t1[dest + [names[i]] := t[src + [names[i]]]]
    ensures CopiedVia(t, t2, src, dest, exclude, names[..i + 1])
  {
    var n := names[i];
    assert names[..i + 1] == names[..i] + [n];
    assert n !in names[..i];
    forall p | p in t && Below(src, p) && p[|src|] in names[..i + 1] && Kept(p[|src|..], exclude)
      ensures Delivered(t, t2, src, dest, p)
    {
      if p[|src|] in names[..i] {
        assert Delivered(t, t1, src, dest, p);
        CounterpartHead(src, dest, p, n);
      } else {
        FileDelivered(t, t1, t2, src, dest, n, p);
      }
    }
  }

  lemma FileDelivered(t: Tree, t1: Tree, t2: Tree, src: Path, dest: Path, n: string, p: Path)
    requires Closed(t) && IsFile(t, src + [n])
    requires p in t && Below(src, p) && p[|src|] == n
    requires t2 == t1[dest + [n] := t[src + [n]]]
    ensures Delivered(t, t2, src, dest, p)
  {
    var c := src + [n];
    assert p[..|c|] == c by {
      assert p[..|src| + 1] == p[..|src|] + [p[|src|]];
    }
    if |p| > |c| {
      NothingBelowFile(t, c, p);
    }
    assert p == c;
  }

  /** Once every listed name is done, every kept entry below `src` is
      delivered. */
  lemma CopiedAll(t: Tree, u: Tree, src: Path, dest: Path, exclude: seq<string>, names: seq<string>)
    requires Closed(t) && AsSet(names) == Children(t, src)
    requires CopiedVia(t, u, src, dest, exclude, names[..|names|])
    ensures Copied(t, u, src, dest, exclude)
  {
    assert names[..|names|] == names;
    forall p | p in t && Below(src, p) && Kept(p[|src|..], exclude) ensures Delivered(t, u, src, dest, p) {
      var k := |src| + 1;
      var c := p[..k];
      if |p| > k {
        Ancestor(t, p, k);
      } else {
        assert c == p;
      }
      assert c[..|src|] == src && c[|src|] == p[|src|];
      assert p[|src|] in Children(t, src);
      assert p[|src|] in AsSet(names);
    }
  }

  /** `copyDirectory(src, dest, exclude)`: makes `dest` when nothing is
      there, then copies each entry of `src` that is not excluded, a
      directory by a nested copy and anything else by `copyFileSync`,
      stopping at the first failure. The copy keeps every entry outside
      `dest`, makes nothing but the missing ancestors of `dest` and the
      counterparts of kept entries below `src` (so an excluded name is
      skipped at every depth), and when it succeeds every kept entry has
      its counterpart and every kept file its content there. */
  method CopyDirectory(t: Tree, src: Path, dest: Path, exclude: seq<string>) returns (r: Result<()>, t': Tree)
    requires WellFormed(t) && Normal(dest) && Apart(src, dest)
    ensures WellFormed(t')
    ensures Keeps(t, t', dest) && OnlyCopies(t, t', src, dest, exclude)
    ensures r.Ok? ==> dest in t' && Copied(t, t', src, dest, exclude)
    decreases Under(t, src)
  {
    var made := MakeDirsIfMissing(t, dest);
    if made.Err? {
      return Err(made.msg), t;
    }
    t' := made.value;
    MadeKeeps(t, t', src, dest, exclude);
    SameChildren(t, t', src, dest, exclude);
    if !IsDir(t', src) {
      return Err(ScandirError(src)), t';
    }
    var names := ReadDir(t', src);
    var i := 0;
    while i < |names|
      invariant 0 <= i <= |names|
      invariant WellFormed(t') && dest in t'
      invariant Keeps(t, t', dest) && OnlyCopies(t, t', src, dest, exclude)
      invariant CopiedVia(t, t', src, dest, exclude, names[..i])
    {
      var name := names[i];
      var c, cd := src + [name], dest + [name];
      ChildOf(t, src, name);
      SourceUntouched(t, t', src, dest, exclude, c);
      if name in exclude {
        ExcludedStep(t, t', src, dest, exclude, names, i);
      } else if IsDir(t', c) {
        UnderSame(t, t', src, dest, exclude, c);
        UnderShrinks(t, src, c);
        ApartChild(src, dest, name);
        var r1, t2 := CopyDirectory(t', c, cd, exclude);
        DirKeeps(t, t', t2, src, dest, exclude, name);
        if r1.Err? {
          return r1, t2;
        }
        DirCopied(t, t', t2, src, dest, exclude, names, i);
        t' := t2;
      } else {
        var w := WriteFile(t', cd, t'[c].content);
        if w.Err? {
          return Err(w.msg), t';
        }
        WriteFileEffect(t', cd, t'[c].content);
        assert w.value == t'[cd := t[c]];
        FileKeeps(t, t', w.value, src, dest, exclude, name);
        FileCopied(t, t', w.value, src, dest, exclude, names, i);
        t' := w.value;
      }
      i := i + 1;
    }
    CopiedAll(t, t', src, dest, exclude, names);
    r := Ok(());
  }

  /* ---------- the two scripts as files ---------- */

  /** `fs.copyFileSync(from, to)`. */
  function CopyFile(t: Tree, from: Path, to: Path): Result<Tree> {
    match ReadFile(t, from)
    case Err(e) => Err(e)
    case Ok(content) => WriteFile(t, to, content)
  }

  /** What `restoreStartWorktreePlaceholder(p)` leaves: the file read, its
      lines transformed and written back; a missing marker ends the script
      before anything is written. */
  function StartScriptRefreshed(t: Tree, p: Path): (Result<()>, Tree) {
    match ReadFile(t, p)
    case Err(e) => (Err(e), t)
    case Ok(content) =>
      match RestoredStart(content)
      case Err(e) => (Err(e), t)
      case Ok(text) =>
        match WriteFile(t, p, text)
        case Err(e) => (Err(e), t)
        case Ok(u) => (Ok(()), u)
  }

  /** The same for `restoreEndWorktreePlaceholder(p)`. */
  function EndScriptRefreshed(t: Tree, p: Path): (Result<()>, Tree) {
    match ReadFile(t, p)
    case Err(e) => (Err(e), t)
    case Ok(content) =>
      match RestoredEnd(content)
      case Err(e) => (Err(e), t)
      case Ok(text) =>
        match WriteFile(t, p, text)
        case Err(e) => (Err(e), t)
        case Ok(u) => (Ok(()), u)
  }

  /** In a well-formed tree a script that exists is refreshed in place
      exactly when its text is accepted; otherwise nothing is written. */
  lemma ScriptRefreshedEffect(t: Tree, p: Path)
    requires WellFormed(t) && IsFile(t, p)
    ensures var (r, u) := StartScriptRefreshed(t, p);
      && (r.Ok? <==> RestoredStart(t[p].content).Ok?)
      && (r.Ok? ==> u == t[p := File(RestoredStart(t[p].content).value)])
      && (r.Err? ==> u == t)
    ensures var (r, u) := EndScriptRefreshed(t, p);
      && (r.Ok? <==> RestoredEnd(t[p].content).Ok?)
      && (r.Ok? ==> u == t[p := File(RestoredEnd(t[p].content).value)])
      && (r.Err? ==> u == t)
  {
    assert p != [] && IsDir(t, Dirname(p));
  }

  /** `restoreStartWorktreePlaceholder(p)`. */
  method RestoreStartScript(t: Tree, p: Path) returns (r: Result<()>, t': Tree)
    ensures r == StartScriptRefreshed(t, p).0 && t' == StartScriptRefreshed(t, p).1
  {
    var read := ReadFile(t, p);
    if read.Err? {
      return Err(read.msg), t;
    }
    var output, found := RestoreStartLines(Strings.Split(read.value, "\n"));
    if !found {
      return Err(StartMissing), t;
    }
    match WriteFile(t, p, Join(output, "\n"))
    case Err(e) =>
      return Err(e), t;
    case Ok(u) =>
      return Ok(()), u;
  }

  /** `restoreEndWorktreePlaceholder(p)`. */
  method RestoreEndScript(t: Tree, p: Path) returns (r: Result<()>, t': Tree)
    ensures r == EndScriptRefreshed(t, p).0 && t' == EndScriptRefreshed(t, p).1
  {
    var read := ReadFile(t, p);
    if read.Err? {
      return Err(read.msg), t;
    }
    var output, found5, found6 := RestoreEndLines(Strings.Split(read.value, "\n"));
    if !found5 || !found6 {
      return Err(EndMissing), t;
    }
    match WriteFile(t, p, Join(output, "\n") + "\n")
    case Err(e) =>
      return Err(e), t;
    case Ok(u) =>
      return Ok(()), u;
  }

  /* ---------- refreshInitScripts ---------- */

  const NotInRepo := "Error: must run inside a git repository"
  const Excluded := ["settings.local.json"]

  function NotAtRoot(root: Path): string {
    "Error: run from the git root (" + ToString(root) + ")"
  }

  /** `src/resources/init-scripts`, resolved against the working directory. */
  function TemplateDir(cwd: Path): Path {
    cwd + ["src", "resources", "init-scripts"]
  }

  function ClaudeTemplate(cwd: Path): Path {
    TemplateDir(cwd) + [".claude"]
  }

  function DevTemplate(cwd: Path): Path {
    TemplateDir(cwd) + ["dev"]
  }

  function StartScript(dir: Path): Path {
    dir + ["start-worktree.sh"]
  }

  function EndScript(dir: Path): Path {
    dir + ["end-worktree.sh"]
  }

  /** `fs.rmSync(d, { recursive: true })`. */
  function Removed(t: Tree, d: Path): Tree {
    map p | p in t && !IsPrefix(d, p) :: t[p]
  }

  /** Removing an entry other than the root, with all below it, keeps the
      tree well formed and leaves nothing at or below it. */
  lemma RemovedWellFormed(t: Tree, d: Path)
    requires WellFormed(t) && d != []
    ensures WellFormed(Removed(t, d))
    ensures forall p :: IsPrefix(d, p) ==> p !in Removed(t, d)
  {
    var u := Removed(t, d);
    forall p | p in u && p != [] ensures Dirname(p) in u && u[Dirname(p)].Dir? {
      if IsPrefix(d, Dirname(p)) {
        PrefixTrans(d, Dirname(p), p);
      }
    }
  }

  /** `u` differs from `t` only at or below `d`, and what it adds elsewhere
      are ancestors of `d`. */
  predicate Touches(t: Tree, u: Tree, d: Path) {
    && (forall p :: p in t && !IsPrefix(d, p) ==> p in u && u[p] == t[p])
    && (forall p :: p in u && p !in t ==> IsPrefix(d, p) || IsPrefix(p, d))
  }

  lemma TouchesTrans(t: Tree, u: Tree, v: Tree, d: Path)
    requires Touches(t, u, d) && Touches(u, v, d)
    ensures Touches(t, v, d)
  {
  }

  /** Changes at or below `d'` are changes at or below any ancestor `d` of
      it. */
  lemma TouchesWiden(t: Tree, u: Tree, d: Path, d': Path)
    requires Touches(t, u, d') && IsPrefix(d, d')
    ensures Touches(t, u, d)
  {
    forall p | p in t && !IsPrefix(d, p) ensures p in u && u[p] == t[p] {
      if IsPrefix(d', p) {
        PrefixTrans(d, d', p);
      }
    }
    forall p | p in u && p !in t ensures IsPrefix(d, p) || IsPrefix(p, d) {
      if IsPrefix(d', p) {
        PrefixTrans(d, d', p);
      } else {
        Comparable(p, d, d');
      }
    }
  }

  lemma RemovedTouches(t: Tree, d: Path)
    ensures Touches(t, Removed(t, d), d)
  {
  }

  lemma CopyTouches(t: Tree, u: Tree, src: Path, dest: Path, exclude: seq<string>)
    requires Keeps(t, u, dest) && OnlyCopies(t, u, src, dest, exclude)
    ensures Touches(t, u, dest)
  {
    forall p | p in u && p !in t ensures IsPrefix(dest, p) || IsPrefix(p, dest) {
      assert MayCreate(t, src, dest, exclude, p);
    }
  }

  lemma RewrittenTouches(t: Tree, d: Path)
    ensures Touches(t, Rewritten(t, MdUnder(t, d)), d)
  {
  }

  lemma MadeTouches(t: Tree, d: Path)
    requires WellFormed(t) && Normal(d) && MakeDirsIfMissing(t, d).Ok?
    ensures WellFormed(MakeDirsIfMissing(t, d).value)
    ensures Touches(t, MakeDirsIfMissing(t, d).value, d)
  {
    MakeDirsIfMissingEffect(t, d);
  }

  lemma WriteTouches(t: Tree, p: Path, content: string)
    requires WellFormed(t) && Normal(p) && WriteFile(t, p, content).Ok?
    ensures WellFormed(WriteFile(t, p, content).value)
    ensures Touches(t, WriteFile(t, p, content).value, p)
    ensures WriteFile(t, p, content).value == t[p := File(content)]
  {
    WriteFileEffect(t, p, content);
  }

  lemma ReplaceTouches(t: Tree, p: Path, content: string)
    requires WellFormed(t) && IsFile(t, p)
    ensures WellFormed(t[p := File(content)]) && Touches(t, t[p := File(content)], p)
  {
    ReplaceFile(t, p, content);
  }

  lemma StartTouches(t: Tree, p: Path)
    requires WellFormed(t)
    ensures WellFormed(StartScriptRefreshed(t, p).1) && Touches(t, StartScriptRefreshed(t, p).1, p)
  {
    if IsFile(t, p) {
      ScriptRefreshedEffect(t, p);
      var r := RestoredStart(t[p].content);
      if r.Ok? {
        ReplaceTouches(t, p, r.value);
      }
    }
  }

  lemma EndTouches(t: Tree, p: Path)
    requires WellFormed(t)
    ensures WellFormed(EndScriptRefreshed(t, p).1) && Touches(t, EndScriptRefreshed(t, p).1, p)
  {
    if IsFile(t, p) {
      ScriptRefreshedEffect(t, p);
      var r := RestoredEnd(t[p].content);
      if r.Ok? {
        ReplaceTouches(t, p, r.value);
      }
    }
  }

  /** The two scripts of `dev/` reach the template directory with their
      placeholders back. */
  predicate ScriptsRefreshed(t: Tree, u: Tree, cwd: Path) {
    var start, end := StartScript(cwd + ["dev"]), EndScript(cwd + ["dev"]);
    var start', end' := StartScript(DevTemplate(cwd)), EndScript(DevTemplate(cwd));
    && IsFile(t, start) && RestoredStart(t[start].content).Ok?
    && IsFile(u, start') && u[start'].content == RestoredStart(t[start].content).value
    && IsFile(t, end) && RestoredEnd(t[end].content).Ok?
    && IsFile(u, end') && u[end'].content == RestoredEnd(t[end].content).value
  }

  /** The entry `p` of `src` has its counterpart below `dest`, a file with
      the implementation path put back to the placeholder when it is a
      markdown file. */
  predicate Installed(t: Tree, u: Tree, src: Path, dest: Path, p: Path)
    requires p in t && Below(src, p)
  {
    var q := dest + p[|src|..];
    && q in u
    && (t[p].File? ==> u[q] == File(if EndsWith(Basename(p), ".md") then WithImplPlaceholder(t[p].content) else t[p].content))
  }

  /** The template `.claude` holds exactly the copies of what `.claude` holds
      outside the excluded names, with no implementation path left in its
      markdown files. */
  predicate ClaudeRefreshed(t: Tree, u: Tree, cwd: Path) {
    var src, dest := cwd + [".claude"], ClaudeTemplate(cwd);
    && (forall p :: p in u && Below(dest, p) ==> Kept(p[|dest|..], Excluded) && src + p[|dest|..] in t)
    && (forall p :: p in t && Below(src, p) && Kept(p[|src|..], Excluded) ==> Installed(t, u, src, dest, p))
    && (forall p :: p in u && IsMarkdown(u, p) && Below(dest, p) ==> !Contains(u[p].content, ImplExample))
  }

  /** Where the paths the refresh uses lie relative to one another. */
  lemma Layout(cwd: Path)
    requires Normal(cwd)
    ensures var td, src, ct, dd := TemplateDir(cwd), cwd + [".claude"], ClaudeTemplate(cwd), DevTemplate(cwd);
      && Normal(src) && Normal(ct) && Normal(dd) && Normal(StartScript(dd)) && Normal(EndScript(dd))
      && IsPrefix(td, ct) && IsPrefix(td, dd) && IsPrefix(td, StartScript(dd)) && IsPrefix(td, EndScript(dd))
      && IsPrefix(dd, StartScript(dd)) && IsPrefix(dd, EndScript(dd)) && StartScript(dd) != EndScript(dd)
      && Apart(src, ct) && ct != []
  {
    PlainName("src");
    PlainName("resources");
    PlainName("init-scripts");
    PlainName(".claude");
    PlainName("dev");
    PlainName("start-worktree.sh");
    PlainName("end-worktree.sh");
    var td, src, ct, dd := TemplateDir(cwd), cwd + [".claude"], ClaudeTemplate(cwd), DevTemplate(cwd);
    assert ct[..|td|] == td && dd[..|td|] == td;
    assert StartScript(dd)[..|td|] == td && EndScript(dd)[..|td|] == td;
    assert StartScript(dd)[..|dd|] == dd && EndScript(dd)[..|dd|] == dd;
    assert StartScript(dd)[|dd|] != EndScript(dd)[|dd|];
    assert ct[|cwd|] == "src" && src[|cwd|] == ".claude";
  }

  /** The segment right below the working directory tells the template
      directory apart from the `.claude` and `dev` folders beside it. */
  lemma FirstSegment(cwd: Path, q: Path, p: Path)
    requires IsPrefix(q, p) && |cwd| < |q| && q[..|cwd|] == cwd
    ensures p[|cwd|] == q[|cwd|]
  {
    assert p[..|q|][|cwd|] == p[|cwd|];
  }

  /** Outside the template directory: the sources of the copy. */
  lemma SourceOutside(cwd: Path, q: Path, p: Path)
    requires IsPrefix(q, p) && q in {cwd + [".claude"], StartScript(cwd + ["dev"]), EndScript(cwd + ["dev"])}
    ensures !IsPrefix(TemplateDir(cwd), p)
    ensures q != cwd + [".claude"] ==> !IsPrefix(p, TemplateDir(cwd))
  {
    assert q[..|cwd|] == cwd && q[|cwd|] != "src";
    FirstSegment(cwd, q, p);
    if IsPrefix(TemplateDir(cwd), p) {
      FirstSegment(cwd, TemplateDir(cwd), p);
    }
    if IsPrefix(p, TemplateDir(cwd)) && |p| > |cwd| {
      FirstSegment(cwd, p, TemplateDir(cwd));
    }
  }

  /** Below the template `.claude`: apart from the template `dev`. */
  lemma ClaudeApartDev(cwd: Path, p: Path)
    requires Below(ClaudeTemplate(cwd), p)
    ensures !IsPrefix(DevTemplate(cwd), p) && !IsPrefix(p, DevTemplate(cwd))
  {
    var td := TemplateDir(cwd);
    assert p[..|td| + 1][|td|] == p[|td|];
    assert p[|td|] == ".claude";
  }

  /** `t1` is the tree once the old template `.claude` is gone. */
  predicate Cleared(t: Tree, t1: Tree, ct: Path) {
    t1 == if ct in t then Removed(t, ct) else t
  }

  /** What the template `.claude` ends up holding once the copy, the rewrite
      and the later steps have run. */
  predicate ClaudeSteps(t: Tree, t1: Tree, t2: Tree, t3: Tree, t8: Tree, cwd: Path) {
    var src, ct := cwd + [".claude"], ClaudeTemplate(cwd);
    && Cleared(t, t1, ct)
    && Keeps(t1, t2, ct) && OnlyCopies(t1, t2, src, ct, Excluded)
    && t3 == Rewritten(t2, MdUnder(t2, ct))
    && Touches(t3, t8, DevTemplate(cwd))
  }

  /** The later steps leave the template `.claude` alone. */
  lemma LaterKeepClaude(t3: Tree, t8: Tree, cwd: Path, p: Path)
    requires Touches(t3, t8, DevTemplate(cwd)) && Below(ClaudeTemplate(cwd), p)
    ensures p in t8 <==> p in t3
    ensures p in t3 ==> t8[p] == t3[p]
  {
    ClaudeApartDev(cwd, p);
  }

  /** Every entry below the template `.claude` is a copy of a kept entry. */
  lemma ClaudeCreated(t: Tree, t1: Tree, t2: Tree, t3: Tree, t8: Tree, cwd: Path, p: Path)
    requires WellFormed(t) && ClaudeSteps(t, t1, t2, t3, t8, cwd)
    requires p in t8 && Below(ClaudeTemplate(cwd), p)
    ensures var ct := ClaudeTemplate(cwd);
      Kept(p[|ct|..], Excluded) && cwd + [".claude"] + p[|ct|..] in t
  {
    var ct := ClaudeTemplate(cwd);
    LaterKeepClaude(t3, t8, cwd, p);
    assert p in t2;
    if ct in t {
      RemovedWellFormed(t, ct);
    } else if p in t {
      Ancestor(t, p, |ct|);
    }
    assert p !in t1;
    assert MayCreate(t1, cwd + [".claude"], ct, Excluded, p);
  }

  /** The copy delivers every kept entry of `.claude` below the template
      `.claude`. */
  lemma ClaudeDelivered(t: Tree, t1: Tree, t2: Tree, cwd: Path, p: Path)
    requires Cleared(t, t1, ClaudeTemplate(cwd))
    requires Copied(t1, t2, cwd + [".claude"], ClaudeTemplate(cwd), Excluded)
    requires p in t && Below(cwd + [".claude"], p) && Kept(p[|cwd| + 1..], Excluded)
    ensures var q := ClaudeTemplate(cwd) + p[|cwd| + 1..];
      && Below(ClaudeTemplate(cwd), q) && Basename(q) == Basename(p)
      && q in t2 && (t[p].File? ==> t2[q] == t[p])
  {
    var src, ct := cwd + [".claude"], ClaudeTemplate(cwd);
    SourceOutside(cwd, src, p);
    assert !IsPrefix(ct, p) by {
      if IsPrefix(ct, p) {
        PrefixTrans(TemplateDir(cwd), ct, p);
      }
    }
    assert p in t1 && t1[p] == t[p];
    assert Delivered(t1, t2, src, ct, p);
    var q := ct + p[|src|..];
    assert q[..|ct|] == ct;
  }

  /** Every kept entry of `.claude` reaches the template, markdown files
      rewritten. */
  lemma ClaudeInstalled(t: Tree, t1: Tree, t2: Tree, t3: Tree, t8: Tree, cwd: Path, p: Path)
    requires ClaudeSteps(t, t1, t2, t3, t8, cwd)
    requires Copied(t1, t2, cwd + [".claude"], ClaudeTemplate(cwd), Excluded)
    requires p in t && Below(cwd + [".claude"], p) && Kept(p[|cwd| + 1..], Excluded)
    ensures Installed(t, t8, cwd + [".claude"], ClaudeTemplate(cwd), p)
  {
    var ct := ClaudeTemplate(cwd);
    var q := ct + p[|cwd| + 1..];
    ClaudeDelivered(t, t1, t2, cwd, p);
    LaterKeepClaude(t3, t8, cwd, q);
    assert t8[q] == t3[q];
  }

  /** No markdown file below the template `.claude` holds the
      implementation path. */
  lemma ClaudeClean(t2: Tree, t3: Tree, t8: Tree, cwd: Path, p: Path)
    requires t3 == Rewritten(t2, MdUnder(t2, ClaudeTemplate(cwd))) && Touches(t3, t8, DevTemplate(cwd))
    requires p in t8 && IsMarkdown(t8, p) && Below(ClaudeTemplate(cwd), p)
    ensures !Contains(t8[p].content, ImplExample)
  {
    var ct := ClaudeTemplate(cwd);
    LaterKeepClaude(t3, t8, cwd, p);
    RewrittenShape(t2, MdUnder(t2, ct), ct);
    assert p in MdUnder(t3, ct);
    RestoredNoImplPath(t2, ct, p);
  }

  lemma ClaudeAll(t: Tree, t1: Tree, t2: Tree, t3: Tree, t8: Tree, cwd: Path)
    requires WellFormed(t) && ClaudeSteps(t, t1, t2, t3, t8, cwd)
    requires Copied(t1, t2, cwd + [".claude"], ClaudeTemplate(cwd), Excluded)
    ensures ClaudeRefreshed(t, t8, cwd)
  {
    var src, ct := cwd + [".claude"], ClaudeTemplate(cwd);
    forall p | p in t8 && Below(ct, p) ensures Kept(p[|ct|..], Excluded) && src + p[|ct|..] in t {
      ClaudeCreated(t, t1, t2, t3, t8, cwd, p);
    }
    forall p | p in t && Below(src, p) && Kept(p[|src|..], Excluded) ensures Installed(t, t8, src, ct, p) {
      ClaudeInstalled(t, t1, t2, t3, t8, cwd, p);
    }
    forall p | p in t8 && IsMarkdown(t8, p) && Below(ct, p) ensures !Contains(t8[p].content, ImplExample) {
      ClaudeClean(t2, t3, t8, cwd, p);
    }
  }

  /** Both scripts are copied from `dev/`. */
  lemma ScriptsCopied(t: Tree, t4: Tree, t5: Tree, t6: Tree, cwd: Path)
    requires Normal(cwd) && Touches(t, t4, TemplateDir(cwd))
    requires CopyFile(t4, StartScript(cwd + ["dev"]), StartScript(DevTemplate(cwd))) == Ok(t5)
    requires CopyFile(t5, EndScript(cwd + ["dev"]), EndScript(DevTemplate(cwd))) == Ok(t6)
    ensures var start, end := StartScript(cwd + ["dev"]), EndScript(cwd + ["dev"]);
      && IsFile(t, start) && IsFile(t, end)
      && t6[StartScript(DevTemplate(cwd))] == t[start]
      && t6[EndScript(DevTemplate(cwd))] == t[end]
  {
    var start, end := StartScript(cwd + ["dev"]), EndScript(cwd + ["dev"]);
    var start', end' := StartScript(DevTemplate(cwd)), EndScript(DevTemplate(cwd));
    Layout(cwd);
    SourceOutside(cwd, start, start);
    SourceOutside(cwd, end, end);
    assert start != start' && end != start';
    assert IsFile(t, start) && t4[start] == t[start];
    assert t5 == t4[start' := t[start]];
    assert IsFile(t, end) && t5[end] == t[end];
    assert t6 == t5[end' := t[end]];
  }

  /** A refresh that succeeds rewrites the script and nothing else. */
  lemma StartRewritten(t: Tree, u: Tree, p: Path)
    requires IsFile(t, p) && StartScriptRefreshed(t, p).0.Ok? && StartScriptRefreshed(t, p).1 == u
    ensures RestoredStart(t[p].content).Ok? && u == t[p := File(RestoredStart(t[p].content).value)]
  {
  }

  lemma EndRewritten(t: Tree, u: Tree, p: Path)
    requires IsFile(t, p) && EndScriptRefreshed(t, p).0.Ok? && EndScriptRefreshed(t, p).1 == u
    ensures RestoredEnd(t[p].content).Ok? && u == t[p := File(RestoredEnd(t[p].content).value)]
  {
  }

  /** The two copies are then rewritten in place. */
  lemma ScriptsRewritten(t6: Tree, t7: Tree, t8: Tree, start: Path, end: Path)
    requires start != end && IsFile(t6, start) && IsFile(t6, end)
    requires StartScriptRefreshed(t6, start).0.Ok? && StartScriptRefreshed(t6, start).1 == t7
    requires EndScriptRefreshed(t7, end).0.Ok? && EndScriptRefreshed(t7, end).1 == t8
    ensures RestoredStart(t6[start].content).Ok? && RestoredEnd(t6[end].content).Ok?
    ensures IsFile(t8, start) && t8[start].content == RestoredStart(t6[start].content).value
    ensures IsFile(t8, end) && t8[end].content == RestoredEnd(t6[end].content).value
  {
    StartRewritten(t6, t7, start);
    assert t7[end] == t6[end];
    EndRewritten(t7, t8, end);
  }

  /** The scripts are copied from `dev/` and then rewritten in place. */
  lemma ScriptsChain(t: Tree, t4: Tree, t5: Tree, t6: Tree, t7: Tree, t8: Tree, cwd: Path)
    requires Normal(cwd) && Touches(t, t4, TemplateDir(cwd))
    requires CopyFile(t4, StartScript(cwd + ["dev"]), StartScript(DevTemplate(cwd))) == Ok(t5)
    requires CopyFile(t5, EndScript(cwd + ["dev"]), EndScript(DevTemplate(cwd))) == Ok(t6)
    requires StartScriptRefreshed(t6, StartScript(DevTemplate(cwd))).0.Ok?
    requires StartScriptRefreshed(t6, StartScript(DevTemplate(cwd))).1 == t7
    requires EndScriptRefreshed(t7, EndScript(DevTemplate(cwd))).0.Ok?
    requires EndScriptRefreshed(t7, EndScript(DevTemplate(cwd))).1 == t8
    ensures ScriptsRefreshed(t, t8, cwd)
  {
    Layout(cwd);
    ScriptsCopied(t, t4, t5, t6, cwd);
    ScriptsRewritten(t6, t7, t8, StartScript(DevTemplate(cwd)), EndScript(DevTemplate(cwd)));
  }

  /** One more step inside the template `dev` keeps the frame. */
  lemma DevStep(t: Tree, u: Tree, v: Tree, dd: Path, d: Path)
    requires Touches(t, u, dd) && Touches(u, v, d) && IsPrefix(dd, d)
    ensures Touches(t, v, dd)
  {
    TouchesWiden(u, v, dd, d);
    TouchesTrans(t, u, v, dd);
  }

  /** The first half of `refreshInitScripts()`: the old template `.claude`
      is removed, `.claude` is copied in without `settings.local.json`, and
      the implementation path in its markdown files is put back to the
      placeholder. */
  method RefreshClaude(t: Tree, cwd: Path) returns (r: Result<()>, t': Tree)
    requires WellFormed(t) && Normal(cwd)
    ensures WellFormed(t') && Touches(t, t', ClaudeTemplate(cwd))
    ensures r.Ok? ==> ClaudeRefreshed(t, t', cwd)
  {
    Layout(cwd);
    var src, ct := cwd + [".claude"], ClaudeTemplate(cwd);
    var t1 := t;
    if ct in t {
      RemovedWellFormed(t, ct);
      RemovedTouches(t, ct);
      t1 := Removed(t, ct);
    }
    var r2, t2 := CopyDirectory(t1, src, ct, Excluded);
    CopyTouches(t1, t2, src, ct, Excluded);
    TouchesTrans(t, t1, t2, ct);
    if r2.Err? {
      return r2, t2;
    }
    r, t' := RestoreImplPaths(t2, ct);
    RewrittenShape(t2, MdUnder(t2, ct), ct);
    RewrittenTouches(t2, ct);
    TouchesTrans(t, t2, t', ct);
    if r.Ok? {
      ClaudeAll(t, t1, t2, t', t', cwd);
    }
  }

  /** The second half: both scripts of `dev/` are copied into the template
      `dev` and have their placeholders put back. */
  method RefreshDevScripts(t: Tree, cwd: Path) returns (r: Result<()>, t': Tree)
    requires WellFormed(t) && Normal(cwd)
    ensures WellFormed(t') && Touches(t, t', DevTemplate(cwd))
    ensures r.Ok? ==> ScriptsRefreshed(t, t', cwd)
  {
    Layout(cwd);
    var dd := DevTemplate(cwd);
    var start, end := StartScript(cwd + ["dev"]), EndScript(cwd + ["dev"]);
    var made := MakeDirsIfMissing(t, dd);
    if made.Err? {
      return Err(made.msg), t;
    }
    var t4 := made.value;
    MadeTouches(t, dd);
    var copied := CopyFile(t4, start, StartScript(dd));
    if copied.Err? {
      return Err(copied.msg), t4;
    }
    var t5 := copied.value;
    WriteTouches(t4, StartScript(dd), t4[start].content);
    DevStep(t, t4, t5, dd, StartScript(dd));
    copied := CopyFile(t5, end, EndScript(dd));
    if copied.Err? {
      return Err(copied.msg), t5;
    }
    var t6 := copied.value;
    WriteTouches(t5, EndScript(dd), t5[end].content);
    DevStep(t, t5, t6, dd, EndScript(dd));
    var r7, t7 := RestoreStartScript(t6, StartScript(dd));
    StartTouches(t6, StartScript(dd));
    DevStep(t, t6, t7, dd, StartScript(dd));
    if r7.Err? {
      return r7, t7;
    }
    r, t' := RestoreEndScript(t7, EndScript(dd));
    EndTouches(t7, EndScript(dd));
    DevStep(t, t7, t', dd, EndScript(dd));
    if r.Ok? {
      TouchesWiden(t, t4, TemplateDir(cwd), dd);
      ScriptsChain(t, t4, t5, t6, t7, t', cwd);
    }
  }

  /** The later half leaves what the first half made below the template
      `.claude` alone. */
  lemma ClaudeStays(t: Tree, t3: Tree, t8: Tree, cwd: Path)
    requires ClaudeRefreshed(t, t3, cwd) && Touches(t3, t8, DevTemplate(cwd))
    ensures ClaudeRefreshed(t, t8, cwd)
  {
    var src, ct := cwd + [".claude"], ClaudeTemplate(cwd);
    forall p | p in t8 && Below(ct, p) ensures Kept(p[|ct|..], Excluded) && src + p[|ct|..] in t {
      LaterKeepClaude(t3, t8, cwd, p);
    }
    forall p | p in t && Below(src, p) && Kept(p[|src|..], Excluded) ensures Installed(t, t8, src, ct, p) {
      var q := ct + p[|src|..];
      assert Installed(t, t3, src, ct, p);
      assert q[..|ct|] == ct;
      LaterKeepClaude(t3, t8, cwd, q);
    }
    forall p | p in t8 && IsMarkdown(t8, p) && Below(ct, p) ensures !Contains(t8[p].content, ImplExample) {
      LaterKeepClaude(t3, t8, cwd, p);
    }
  }

  /** The first half leaves a script of `dev/` alone. */
  lemma ScriptSourceStays(t: Tree, t3: Tree, cwd: Path, q: Path)
    requires Touches(t, t3, TemplateDir(cwd))
    requires q == StartScript(cwd + ["dev"]) || q == EndScript(cwd + ["dev"])
    ensures IsFile(t3, q) ==> IsFile(t, q) && t3[q] == t[q]
  {
    SourceOutside(cwd, q, q);
  }

  lemma ScriptSourcesStay(t: Tree, t3: Tree, t8: Tree, cwd: Path)
    requires Touches(t, t3, TemplateDir(cwd)) && ScriptsRefreshed(t3, t8, cwd)
    ensures ScriptsRefreshed(t, t8, cwd)
  {
    ScriptSourceStays(t, t3, cwd, StartScript(cwd + ["dev"]));
    ScriptSourceStays(t, t3, cwd, EndScript(cwd + ["dev"]));
  }

  /** `refreshInitScripts()` run in `cwd`; `gitRoot` is what git reports:
      `None` outside a work tree, otherwise its top-level directory. On every
      path the tree stays well formed and nothing outside the template
      directory changes except that its missing ancestors may be made. */
  method RefreshTemplates(t: Tree, cwd: Path, gitRoot: Option<Path>) returns (r: Result<()>, t': Tree)
    requires WellFormed(t) && Normal(cwd)
    ensures gitRoot.None? ==> r == Err(NotInRepo) && t' == t
    ensures gitRoot.Some? && gitRoot.value != cwd ==> r == Err(NotAtRoot(gitRoot.value)) && t' == t
    ensures WellFormed(t') && Touches(t, t', TemplateDir(cwd))
    ensures r.Ok? ==> ScriptsRefreshed(t, t', cwd) && ClaudeRefreshed(t, t', cwd)
  {
    if gitRoot.None? {
      return Err(NotInRepo), t;
    }
    if gitRoot.value != cwd {
      return Err(NotAtRoot(gitRoot.value)), t;
    }
    Layout(cwd);
    var r1, t1 := RefreshClaude(t, cwd);
    TouchesWiden(t, t1, TemplateDir(cwd), ClaudeTemplate(cwd));
    if r1.Err? {
      return r1, t1;
    }
    r, t' := RefreshDevScripts(t1, cwd);
    TouchesWiden(t1, t', TemplateDir(cwd), DevTemplate(cwd));
    TouchesTrans(t, t1, t', TemplateDir(cwd));
    if r.Ok? {
      ClaudeStays(t, t1, t', cwd);
      ScriptSourcesStay(t, t1, t', cwd);
    }
  }
}
