/** POSIX paths as Node's `path` module handles them. A path is the sequence of
    its segments below the root, so `/repo/docs/a.md` is `["repo", "docs", "a.md"]`
    and the root `/` is `[]`. Symbolic links are not modelled, so `realpath` is the
    identity on the paths this model produces. */
module Paths {
  import opened Wrappers
  import opened Strings

  type Path = seq<string>

  /** A segment as `path.resolve` and `path.join` leave it. */
  predicate IsSegment(s: string) {
    s != "" && s != "." && s != ".." && !Contains(s, "/")
  }

  /** A name without `/` that is not `.` or `..` is a segment. */
  lemma PlainName(s: string)
    requires s != "" && s != "." && s != ".."
    requires forall i :: 0 <= i < |s| ==> s[i] != '/'
    ensures IsSegment(s)
  {
    forall j ensures !OccursAt(s, "/", j) {
      if 0 <= j < |s| {
        assert s[j..j + 1][0] == s[j];
      }
    }
  }

  /** A segment below a normalised path gives a normalised path. */
  lemma Extend(p: Path, s: string)
    requires Normal(p) && IsSegment(s)
    ensures Normal(p + [s])
  {
  }

  /** A normalised absolute path. */
  predicate Normal(p: Path) {
    forall i :: 0 <= i < |p| ==> IsSegment(p[i])
  }

  predicate IsPrefix(a: Path, b: Path) {
    |a| <= |b| && b[..|a|] == a
  }

  /** `path.dirname`; the root is its own parent. */
  function Dirname(p: Path): (r: Path)
    ensures p != [] ==> |r| == |p| - 1 && IsPrefix(r, p)
    ensures p == [] ==> r == []
  {
    if p == [] then [] else p[..|p| - 1]
  }

  /** `path.basename`. */
  function Basename(p: Path): string {
    if p == [] then "" else p[|p| - 1]
  }

  /** `path.basename(p, '.md')`: the `.md` suffix is dropped unless it is the
      whole name. */
  function BasenameWithoutMd(p: Path): (r: string)
    ensures EndsWith(Basename(p), ".md") && Basename(p) != ".md" ==> r + ".md" == Basename(p)
    ensures !EndsWith(Basename(p), ".md") || Basename(p) == ".md" ==> r == Basename(p)
  {
    var name := Basename(p);
    if EndsWith(name, ".md") && name != ".md" then name[..|name| - 3] else name
  }

  /** One segment of a relative path applied to `base`: empty segments and `.`
      are skipped and `..` climbs one level. */
  function Step(base: Path, seg: string): (r: Path)
    ensures Normal(base) && !Contains(seg, "/") ==> Normal(r)
  {
    if seg == "" || seg == "." then base
    else if seg == ".." then Dirname(base)
    else base + [seg]
  }

  /** Applies the segments of a relative path to `base`, left to right. */
  function Walk(base: Path, segs: seq<string>): (r: Path)
    requires forall i :: 0 <= i < |segs| ==> !Contains(segs[i], "/")
    ensures Normal(base) ==> Normal(r)
    decreases |segs|
  {
    if segs == [] then base else Walk(Step(base, segs[0]), segs[1..])
  }

  /** `path.join(base, rel)` for an absolute `base`. */
  function JoinPath(base: Path, rel: string): (r: Path)
    ensures Normal(base) ==> Normal(r)
  {
    Walk(base, Split(rel, "/"))
  }

  /** `path.resolve(arg)` run from the working directory `cwd`. */
  function Resolve(cwd: Path, arg: string): (r: Path)
    ensures Normal(cwd) ==> Normal(r)
  {
    Walk(if StartsWith(arg, "/") then [] else cwd, Split(arg, "/"))
  }

  /** A path as text: `/` followed by its segments joined with `/`. */
  function ToString(p: Path): string {
    "/" + Join(p, "/")
  }

  function CommonPrefixLength(a: Path, b: Path): (n: nat)
    ensures n <= |a| && n <= |b| && a[..n] == b[..n]
    ensures n < |a| && n < |b| ==> a[n] != b[n]
    decreases |a|
  {
    if a == [] || b == [] || a[0] != b[0] then 0
    else
      var n := CommonPrefixLength(a[1..], b[1..]);
      assert a[..n + 1] == [a[0]] + a[1..][..n];
      assert b[..n + 1] == [b[0]] + b[1..][..n];
      n + 1
  }

  function Ups(n: nat): (r: seq<string>)
    ensures |r| == n && forall i :: 0 <= i < n ==> r[i] == ".."
  {
    if n == 0 then [] else Ups(n - 1) + [".."]
  }

  /** `path.relative(from, to)`: climb out of `from` to the common ancestor,
      then descend to `to`. */
  function Relative(from: Path, to: Path): string {
    var c := CommonPrefixLength(from, to);
    Join(Ups(|from| - c) + to[c..], "/")
  }

  /** Below an ancestor, the relative path is the remaining segments. */
  lemma RelativeBelow(root: Path, p: Path)
    requires IsPrefix(root, p)
    ensures Relative(root, p) == Join(p[|root|..], "/")
  {
    assert Ups(0) + p[|root|..] == p[|root|..];
  }

  /** `path.resolve` of a normalised path's text is that path. */
  lemma ResolveToString(cwd: Path, p: Path)
    requires Normal(p)
    ensures Resolve(cwd, ToString(p)) == p
  {
    var s := ToString(p);
    FindSeparator("", Join(p, "/"), "/");
    assert s == "" + "/" + Join(p, "/");
    assert Split(s, "/") == [""] + Split(Join(p, "/"), "/") by {
      assert s[..0] == "" && s[1..] == Join(p, "/");
    }
    if p == [] {
      assert Split("", "/") == [""];
      var segs := [""] + [""];
      assert segs[1..] == [""];
      assert Walk([], segs[1..]) == [];
    } else {
      JoinSplit(p, "/");
      WalkNormal([], p);
    }
  }

  lemma {:induction false} WalkNormal(base: Path, segs: seq<string>)
    requires Normal(segs)
    ensures Walk(base, segs) == base + segs
    decreases |segs|
  {
    if segs != [] {
      WalkNormal(base + [segs[0]], segs[1..]);
      assert base + [segs[0]] + segs[1..] == base + segs;
    }
  }

  /** No character of `s` is a `/`. */
  predicate NoSlash(s: string) {
    forall i :: 0 <= i < |s| ==> s[i] != '/'
  }

  /** Joined segments walk down to those segments. */
  lemma SegmentsWalk(root: Path, segs: seq<string>)
    requires Normal(segs) && segs != []
    ensures JoinPath(root, Join(segs, "/")) == root + segs
  {
    JoinSplit(segs, "/");
    WalkNormal(root, segs);
  }

  /** Joining a segment to a path puts it below the path. */
  lemma JoinName(dir: Path, name: string)
    requires IsSegment(name)
    ensures JoinPath(dir, name) == dir + [name]
  {
    SegmentNoSlash(name);
    NoSlashSplit(name);
    assert Walk(dir, [name]) == Walk(dir + [name], []);
  }

  lemma SegmentNoSlash(s: string)
    requires IsSegment(s)
    ensures NoSlash(s)
  {
    forall i | 0 <= i < |s| ensures s[i] != '/' {
      assert !OccursAt(s, "/", i);
      assert s[i..i + 1] == [s[i]];
    }
  }

  lemma NoSlashContains(s: string)
    requires NoSlash(s)
    ensures !Contains(s, "/")
  {
    forall j ensures !OccursAt(s, "/", j) {
      if 0 <= j < |s| {
        assert s[j..j + 1][0] == s[j];
      }
    }
  }

  lemma NoSlashSplit(s: string)
    requires NoSlash(s)
    ensures Strings.Split(s, "/") == [s]
  {
    NoSlashContains(s);
    ContainsIff(s, "/");
  }

  lemma NormalNoSlash(segs: seq<string>)
    requires Normal(segs)
    ensures forall i :: 0 <= i < |segs| ==> !Contains(segs[i], "/")
  {
  }

  /** A text without `/` does not start with one that has a `/`. */
  lemma NoSlashNotStarts(a: string, p: string, k: nat)
    requires NoSlash(a) && k < |p| && p[k] == '/'
    ensures !StartsWith(a, p)
  {
    if |p| <= |a| {
      assert a[..|p|][k] == a[k];
    }
  }

  lemma JoinCons(a: string, rest: seq<string>)
    requires rest != []
    ensures Join([a] + rest, "/") == a + "/" + Join(rest, "/")
  {
    assert ([a] + rest)[1..] == rest;
  }

  /** Joining two non-empty lists puts one separator between their joins. */
  lemma {:induction false} JoinAppend(a: seq<string>, b: seq<string>)
    requires a != [] && b != []
    ensures Join(a + b, "/") == Join(a, "/") + "/" + Join(b, "/")
    decreases |a|
  {
    if |a| == 1 {
      assert a + b == [a[0]] + b;
      JoinCons(a[0], b);
    } else {
      assert a + b == [a[0]] + (a[1..] + b);
      JoinCons(a[0], a[1..] + b);
      JoinAppend(a[1..], b);
      JoinCons(a[0], a[1..]);
      assert a == [a[0]] + a[1..];
    }
  }

  /** Walking two lists is walking their concatenation. */
  lemma {:induction false} WalkConcat(base: Path, a: seq<string>, b: seq<string>)
    requires forall i :: 0 <= i < |a| ==> !Contains(a[i], "/")
    requires forall i :: 0 <= i < |b| ==> !Contains(b[i], "/")
    ensures Walk(base, a + b) == Walk(Walk(base, a), b)
    decreases |a|
  {
    if a != [] {
      assert (a + b)[1..] == a[1..] + b;
      WalkConcat(Step(base, a[0]), a[1..], b);
    } else {
      assert a + b == b;
    }
  }

  /** `.md` put at the end of a name unless it is there. */
  function WithMd(p: string): (r: string)
    ensures EndsWith(r, ".md")
    ensures EndsWith(p, ".md") ==> r == p
    ensures !EndsWith(p, ".md") ==> r == p + ".md"
  {
    if EndsWith(p, ".md") then p
    else
      assert (p + ".md")[|p| + 3 - 3..] == ".md";
      p + ".md"
  }

  /** A name without `/`, with `.md` after it, is a segment. */
  lemma MdSegment(d: string)
    requires NoSlash(d)
    ensures IsSegment(d + ".md")
  {
    var f := d + ".md";
    assert f[|f| - 1] == 'd';
    assert forall i :: 0 <= i < |f| ==> f[i] != '/' by {
      forall i | 0 <= i < |f| ensures f[i] != '/' {
        if i < |d| {
          assert f[i] == d[i];
        }
      }
    }
    PlainName(f);
  }
}
