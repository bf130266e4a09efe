/** The upward search for the git root and the recursive walk that collects
    markdown files. */
module FileUtils {
  import opened Wrappers
  import opened Strings
  import opened Paths
  import opened FileSystem
  import opened Sorting

  predicate HasGit(t: Tree, p: Path) {
    p + [".git"] in t
  }

  /** The directory `findGitRoot` reports when started at `p`: the nearest of
      `p` and its ancestors, the root excluded, that holds a `.git` entry. */
  function GitRoot(t: Tree, p: Path): (r: Option<Path>)
    ensures r.Some? ==> r.value != [] && IsPrefix(r.value, p) && HasGit(t, r.value)
    decreases |p|
  {
    if p == [] then None
    else if HasGit(t, p) then Some(p)
    else GitRoot(t, Dirname(p))
  }

  /** No directory between the reported root and the start holds `.git`. */
  lemma {:induction false} GitRootNearest(t: Tree, p: Path)
    requires GitRoot(t, p).Some?
    ensures forall k :: |GitRoot(t, p).value| < k <= |p| ==> !HasGit(t, p[..k])
    decreases |p|
  {
    if !HasGit(t, p) {
      var d := Dirname(p);
      GitRootNearest(t, d);
      forall k | |GitRoot(t, p).value| < k <= |p| ensures !HasGit(t, p[..k]) {
        if k < |p| {
          assert p[..k] == d[..k];
        } else {
          assert p[..k] == p;
        }
      }
    }
  }

  /** The search fails exactly when no directory on the way up, the root
      excluded, holds `.git`; a `.git` at the root alone is never found. */
  lemma {:induction false} GitRootNone(t: Tree, p: Path)
    ensures GitRoot(t, p).None? <==> forall k :: 1 <= k <= |p| ==> !HasGit(t, p[..k])
    decreases |p|
  {
    if p != [] {
      var d := Dirname(p);
      GitRootNone(t, d);
      assert p[..|p|] == p;
      assert forall k :: 1 <= k < |p| ==> p[..k] == d[..k];
    }
  }

  /** `findGitRoot`: climbs from `start` until the parent of the current
      directory is itself. */
  method FindGitRoot(t: Tree, start: Path) returns (r: Option<Path>)
    ensures r == GitRoot(t, start)
  {
    var current := start;
    while current != Dirname(current)
      invariant GitRoot(t, current) == GitRoot(t, start)
      decreases |current|
    {
      if current + [".git"] in t {
        return Some(current);
      }
      current := Dirname(current);
    }
    return None;
  }

  predicate Distinct<T(==)>(s: seq<T>) {
    forall i, j :: 0 <= i < j < |s| ==> s[i] != s[j]
  }

  function AsSet<T>(s: seq<T>): set<T> {
    set x | x in s
  }

  predicate IsMarkdown(t: Tree, p: Path) {
    IsFile(t, p) && EndsWith(Basename(p), ".md")
  }

  /** Every regular file below `d` whose name ends in `.md`. */
  function MdUnder(t: Tree, d: Path): set<Path> {
    set p | p in t && |d| < |p| && p[..|d|] == d && IsMarkdown(t, p)
  }

  /** The entries below `d`, at any depth. */
  function Under(t: Tree, d: Path): set<Path> {
    set p | p in t && |d| < |p| && p[..|d|] == d
  }

  /** The names of the entries directly in `d`. */
  function Children(t: Tree, d: Path): set<string> {
    set p | p in t && |p| == |d| + 1 && p[..|d|] == d :: p[|d|]
  }

  /** Every proper ancestor of an entry is a directory. */
  lemma {:induction false} Ancestor(t: Tree, p: Path, k: nat)
    requires Closed(t) && p in t && k < |p|
    ensures IsDir(t, p[..k])
    decreases |p|
  {
    var d := Dirname(p);
    if k < |d| {
      Ancestor(t, d, k);
      assert d[..k] == p[..k];
    }
  }

  /** `readdirSync`: the entry names of `d`, once each, in an order the model
      leaves open. */
  method ReadDir(t: Tree, d: Path) returns (names: seq<string>)
    ensures Distinct(names) && AsSet(names) == Children(t, d)
  {
    var rest := Children(t, d);
    names := [];
    while rest != {}
      invariant Distinct(names)
      invariant AsSet(names) + rest == Children(t, d)
      invariant AsSet(names) !! rest
      decreases rest
    {
      var n :| n in rest;
      names := names + [n];
      rest := rest - {n};
    }
  }

  /** The markdown files below `d` whose first segment below `d` is one of
      `names`. */
  function MdVia(t: Tree, d: Path, names: seq<string>): set<Path> {
    set p | p in t && |d| < |p| && p[..|d|] == d && IsMarkdown(t, p) && p[|d|] in names
  }

  /** What the walk of the entry `name` of `d` contributes. */
  function Contribution(t: Tree, d: Path, name: string): set<Path> {
    var c := d + [name];
    if IsDir(t, c) then MdUnder(t, c) else if IsMarkdown(t, c) then {c} else {}
  }

  lemma IntoContribution(t: Tree, d: Path, name: string, p: Path)
    requires Closed(t) && p in t && |d| < |p| && p[..|d|] == d && IsMarkdown(t, p) && p[|d|] == name
    ensures p in Contribution(t, d, name)
  {
    var c := d + [name];
    assert p[..|d| + 1] == c;
    if |p| > |d| + 1 {
      Ancestor(t, p, |d| + 1);
      assert p[..|c|] == c;
    } else {
      assert p == c;
    }
  }

  lemma FromContribution(t: Tree, d: Path, name: string, p: Path)
    requires p in Contribution(t, d, name)
    ensures p in t && |d| < |p| && p[..|d|] == d && IsMarkdown(t, p) && p[|d|] == name
  {
    var c := d + [name];
    if IsDir(t, c) {
      assert p[..|c|] == c;
      assert p[..|d|] == c[..|d|];
    }
  }

  lemma MdViaStep(t: Tree, d: Path, names: seq<string>, name: string)
    requires Closed(t)
    ensures MdVia(t, d, names + [name]) == MdVia(t, d, names) + Contribution(t, d, name)
  {
    forall p | p in MdVia(t, d, names + [name])
      ensures p in MdVia(t, d, names) + Contribution(t, d, name)
    {
      if p[|d|] !in names {
        IntoContribution(t, d, name, p);
      }
    }
    forall p | p in Contribution(t, d, name) ensures p in MdVia(t, d, names + [name]) {
      FromContribution(t, d, name, p);
    }
  }

  /** `walkDir`: appends to `files` every markdown file below `d`, each once. */
  method WalkDir(t: Tree, d: Path, files: seq<Path>) returns (files': seq<Path>)
    requires Closed(t) && IsDir(t, d)
    ensures |files| <= |files'| && files'[..|files|] == files
    ensures Distinct(files'[|files|..]) && AsSet(files'[|files|..]) == MdUnder(t, d)
    ensures forall p :: p in files'[|files|..] ==> |d| < |p| && p[..|d|] == d
    decreases Under(t, d)
  {
    var names := ReadDir(t, d);
    files' := files;
    ghost var found: seq<Path> := [];
    var i := 0;
    while i < |names|
      invariant 0 <= i <= |names|
      invariant files' == files + found
      invariant Distinct(found) && AsSet(found) == MdVia(t, d, names[..i])
      invariant forall p :: p in found ==> |d| < |p| && p[..|d|] == d
    {
      var c := d + [names[i]];
      ghost var added: seq<Path> := [];
      if IsDir(t, c) {
        UnderShrinks(t, d, c);
        var next := WalkDir(t, c, files');
        added := next[|files'|..];
        assert next == files' + added;
        files' := next;
      } else if IsFile(t, c) && EndsWith(names[i], ".md") {
        added := [c];
        files' := files' + [c];
      }
      WalkStep(t, d, names, i, found, added);
      found := found + added;
      i := i + 1;
    }
    WalkDone(t, d, names);
    assert files'[..|files|] == files && files'[|files|..] == found;
  }

  lemma UnderShrinks(t: Tree, d: Path, c: Path)
    requires |c| == |d| + 1 && c[..|d|] == d && c in t
    ensures Under(t, c) < Under(t, d)
  {
    assert c in Under(t, d) - Under(t, c);
    forall p | p in Under(t, c) ensures p in Under(t, d) {
      assert p[..|d|] == p[..|c|][..|d|];
    }
  }

  /** One entry of the walk keeps the collected files distinct and equal to
      the markdown files reached through the entries seen so far. */
  lemma WalkStep(t: Tree, d: Path, names: seq<string>, i: nat, before: seq<Path>, added: seq<Path>)
    requires Closed(t) && Distinct(names) && i < |names|
    requires Distinct(before) && AsSet(before) == MdVia(t, d, names[..i])
    requires forall p :: p in before ==> |d| < |p| && p[..|d|] == d
    requires Distinct(added) && AsSet(added) == Contribution(t, d, names[i])
    requires forall p :: p in added ==> |d| + 1 <= |p| && p[..|d| + 1] == d + [names[i]]
    ensures Distinct(before + added) && AsSet(before + added) == MdVia(t, d, names[..i + 1])
    ensures forall p :: p in before + added ==> |d| < |p| && p[..|d|] == d
  {
    var c := d + [names[i]];
    forall p | p in added ensures p[..|d|] == d && p[|d|] == names[i] {
      assert p[..|d| + 1][..|d|] == p[..|d|];
      assert p[..|d| + 1][|d|] == p[|d|];
    }
    forall p | p in before ensures p[|d|] in names[..i] {
      assert p in AsSet(before);
    }
    assert names[i] !in names[..i];
    Concat(before, added);
    MdViaStep(t, d, names[..i], names[i]);
    assert names[..i + 1] == names[..i] + [names[i]];
  }

  /** Once every entry is seen, the walk has reached every markdown file below
      `d`. */
  lemma WalkDone(t: Tree, d: Path, names: seq<string>)
    requires Closed(t) && AsSet(names) == Children(t, d)
    ensures MdVia(t, d, names[..|names|]) == MdUnder(t, d)
  {
    assert names[..|names|] == names;
    forall p | p in MdUnder(t, d) ensures p in MdVia(t, d, names) {
      var c := p[..|d| + 1];
      if |p| > |d| + 1 {
        Ancestor(t, p, |d| + 1);
      } else {
        assert c == p;
      }
      assert c in t;
      assert c[..|d|] == d;
      assert p[|d|] == c[|d|];
      assert p[|d|] in Children(t, d);
    }
  }

  lemma Concat<T>(a: seq<T>, b: seq<T>)
    requires Distinct(a) && Distinct(b) && AsSet(a) !! AsSet(b)
    ensures Distinct(a + b) && AsSet(a + b) == AsSet(a) + AsSet(b)
  {
    forall i, j | 0 <= i < j < |a + b| ensures (a + b)[i] != (a + b)[j] {
      if i < |a| && j >= |a| {
        assert (a + b)[i] in AsSet(a) && (a + b)[j] in AsSet(b);
      }
    }
  }

  /** Only an existing directory has files below it. */
  lemma NothingBelowMissing(t: Tree, d: Path)
    requires Closed(t)
    ensures MdUnder(t, d) != {} ==> IsDir(t, d)
  {
    if MdUnder(t, d) != {} {
      var p :| p in MdUnder(t, d);
      Ancestor(t, p, |d|);
      assert p[..|d|] == d;
    }
  }

  /** A reordering of a sequence without repeats has no repeats and the same
      elements. */
  lemma Reordered<T>(a: seq<T>, b: seq<T>)
    requires Distinct(a) && multiset(a) == multiset(b)
    ensures Distinct(b) && AsSet(b) == AsSet(a)
  {
    forall x ensures x in a <==> x in b {
      assert x in a <==> x in multiset(a);
      assert x in b <==> x in multiset(b);
    }
    forall i, j | 0 <= i < j < |b| ensures b[i] != b[j] {
      if b[i] == b[j] {
        var x := b[i];
        assert b == b[..i] + [x] + b[i + 1..j] + [x] + b[j + 1..];
        assert multiset(b)[x] >= 2;
        Once(a, x);
        assert false;
      }
    }
  }

  /** An element of a sequence without repeats occurs in it once. */
  lemma {:induction false} Once<T>(a: seq<T>, x: T)
    requires Distinct(a)
    ensures multiset(a)[x] <= 1
  {
    if a != [] {
      assert a == [a[0]] + a[1..];
      Once(a[1..], x);
      if a[0] == x {
        assert x !in a[1..];
      }
    }
  }

  /** `findMarkdownFiles`: every markdown file below `d`, each once, sorted by
      its path text. A missing `d` gives no files; a `d` that is a file fails
      as `readdirSync` does. */
  method FindMarkdownFiles(t: Tree, d: Path) returns (r: Result<seq<Path>>)
    requires WellFormed(t)
    ensures d !in t ==> r == Ok([])
    ensures r.Err? <==> IsFile(t, d)
    ensures IsFile(t, d) ==> r == Err(ScandirError(d))
    ensures r.Ok? ==> SortedBy(r.value, ToString)
    ensures r.Ok? ==> Distinct(r.value) && AsSet(r.value) == MdUnder(t, d)
  {
    if d !in t {
      NothingBelowMissing(t, d);
      return Ok([]);
    }
    if IsFile(t, d) {
      return Err(ScandirError(d));
    }
    var files := WalkDir(t, d, []);
    assert files[0..] == files;
    var sorted := SortBy(files, ToString);
    Reordered(files, sorted);
    return Ok(sorted);
  }
}
