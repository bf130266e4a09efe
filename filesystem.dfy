/** The part of the file system the commands touch, as a value: a map from
    absolute paths to nodes. Commands take the tree before they run and return
    the tree after, so "nothing is written" is `t' == t`. Error texts of the
    operating system are written in Node's style but are not part of any
    property. */
module FileSystem {
  import opened Wrappers
  import opened Strings
  import opened Paths

  datatype Node = File(content: string) | Dir

  type Tree = map<Path, Node>

  /** The root is a directory, every key is normalised, and every other entry
      sits in a directory. */
  predicate WellFormed(t: Tree) {
    && [] in t && t[[]].Dir?
    && (forall p :: p in t ==> Normal(p))
    && Closed(t)
  }

  /** Every entry but the root sits in a directory. */
  predicate Closed(t: Tree) {
    forall p {:trigger Dirname(p)} :: p in t && p != [] ==> Dirname(p) in t && t[Dirname(p)].Dir?
  }

  predicate IsFile(t: Tree, p: Path) {
    p in t && t[p].File?
  }

  predicate IsDir(t: Tree, p: Path) {
    p in t && t[p].Dir?
  }

  /** `fs.readFileSync(p, 'utf8')`. */
  function ReadFile(t: Tree, p: Path): (r: Result<string>)
    ensures r.Ok? <==> IsFile(t, p)
    ensures r.Ok? ==> r.value == t[p].content
  {
    if p !in t then Err("ENOENT: no such file or directory, open '" + ToString(p) + "'")
    else if t[p].Dir? then Err("EISDIR: illegal operation on a directory, read")
    else Ok(t[p].content)
  }

  /** What `fs.readdirSync` fails with on a file. */
  function ScandirError(p: Path): string {
    "ENOTDIR: not a directory, scandir '" + ToString(p) + "'"
  }

  /** `fs.writeFileSync(p, content)`: creates or replaces a file in an
      existing directory. */
  function WriteFile(t: Tree, p: Path, content: string): (r: Result<Tree>)
    ensures r.Ok? <==> p != [] && IsDir(t, Dirname(p)) && !IsDir(t, p)
  {
    if p == [] || Dirname(p) !in t then Err("ENOENT: no such file or directory, open '" + ToString(p) + "'")
    else if t[Dirname(p)].File? then Err("ENOTDIR: not a directory, open '" + ToString(p) + "'")
    else if p in t && t[p].Dir? then Err("EISDIR: illegal operation on a directory, open '" + ToString(p) + "'")
    else Ok(t[p := File(content)])
  }

  /** A write changes exactly the written path, which then reads back the
      written text, and keeps the tree well formed. */
  lemma WriteFileEffect(t: Tree, p: Path, content: string)
    requires WellFormed(t) && Normal(p) && WriteFile(t, p, content).Ok?
    ensures var t' := WriteFile(t, p, content).value;
      && WellFormed(t')
      && ReadFile(t', p) == Ok(content)
      && t'.Keys == t.Keys + {p}
      && (forall q :: q in t && q != p ==> t'[q] == t[q])
  {
    var t' := WriteFile(t, p, content).value;
    forall q | q in t' && q != [] ensures Dirname(q) in t' && t'[Dirname(q)].Dir? {
      if q == p {
        assert Dirname(p) != p;
      } else {
        assert Dirname(q) in t && t[Dirname(q)].Dir?;
      }
    }
  }

  /** Replacing what a file holds keeps the tree well formed and every
      entry in place. */
  lemma ReplaceFile(t: Tree, p: Path, content: string)
    requires WellFormed(t) && IsFile(t, p)
    ensures WellFormed(t[p := File(content)]) && t[p := File(content)].Keys == t.Keys
  {
    var t' := t[p := File(content)];
    forall q | q in t' && q != [] ensures Dirname(q) in t' && t'[Dirname(q)].Dir? {
      assert Dirname(q) in t && t[Dirname(q)].Dir?;
    }
  }

  /** The ancestors of `p`, `p` included, that `mkdir -p` has to create: those
      below the nearest existing one. */
  function Missing(t: Tree, p: Path): (m: set<Path>)
    ensures forall q :: q in m ==> q !in t && IsPrefix(q, p)
    decreases |p|
  {
    if p in t then {}
    else if p == [] then {[]}
    else Missing(t, Dirname(p)) + {p}
  }

  /** `fs.mkdirSync(p, { recursive: true })`: succeeds when `p` is or can be
      made a directory; fails when a file is in the way. */
  function MakeDirs(t: Tree, p: Path): (r: Result<Tree>)
    ensures r.Ok? ==> IsDir(r.value, p)
    ensures r.Ok? ==> r.value.Keys == t.Keys + Missing(t, p)
    ensures r.Ok? ==> forall q :: q in t ==> r.value[q] == t[q]
    ensures r.Ok? ==> forall q :: q in Missing(t, p) ==> r.value[q] == Dir
    ensures IsDir(t, p) ==> r == Ok(t)
    decreases |p|
  {
    if p in t then
      if t[p].Dir? then Ok(t)
      else Err("EEXIST: file already exists, mkdir '" + ToString(p) + "'")
    else if p == [] then Ok(t[[] := Dir])
    else
      match MakeDirs(t, Dirname(p))
      case Err(e) => Err(e)
      case Ok(t1) => Ok(t1[p := Dir])
  }

  /** `mkdir -p` keeps the tree well formed. */
  lemma {:induction false} MakeDirsWellFormed(t: Tree, p: Path)
    requires WellFormed(t) && Normal(p) && MakeDirs(t, p).Ok?
    ensures WellFormed(MakeDirs(t, p).value)
    decreases |p|
  {
    if p !in t {
      var d := Dirname(p);
      assert Normal(d);
      MakeDirsWellFormed(t, d);
      var t1 := MakeDirs(t, d).value;
      assert MakeDirs(t, p).value == t1[p := Dir];
    }
  }

  /** `if (!fs.existsSync(p)) fs.mkdirSync(p, { recursive: true })`: nothing
      happens where something, even a file, is already at `p`. */
  function MakeDirsIfMissing(t: Tree, p: Path): (r: Result<Tree>)
    ensures p in t ==> r == Ok(t)
    ensures p !in t ==> r == MakeDirs(t, p)
  {
    if p in t then Ok(t) else MakeDirs(t, p)
  }

  /** Making a missing directory keeps the tree well formed, adds just the
      missing directories and changes nothing that was there. */
  lemma MakeDirsIfMissingEffect(t: Tree, p: Path)
    requires WellFormed(t) && Normal(p) && MakeDirsIfMissing(t, p).Ok?
    ensures var t1 := MakeDirsIfMissing(t, p).value;
      && WellFormed(t1) && t1.Keys == t.Keys + Missing(t, p)
      && (forall q :: q in t ==> t1[q] == t[q])
  {
    if p !in t {
      MakeDirsWellFormed(t, p);
    }
  }

  /** `fs.renameSync(from, to)` for a regular file: the file leaves `from`
      and appears, unchanged, at `to`, replacing a file there. */
  function RenameFile(t: Tree, from: Path, to: Path): (r: Result<Tree>)
    requires IsFile(t, from)
    ensures r.Ok? <==> to != [] && IsDir(t, Dirname(to)) && !IsDir(t, to)
    ensures r.Ok? ==> r.value == (t - {from})[to := t[from]]
  {
    if to == [] || Dirname(to) !in t || t[Dirname(to)].File? then
      Err("ENOENT: no such file or directory, rename '" + ToString(from) + "' -> '" + ToString(to) + "'")
    else if IsDir(t, to) then
      Err("EISDIR: illegal operation on a directory, rename '" + ToString(from) + "' -> '" + ToString(to) + "'")
    else Ok((t - {from})[to := t[from]])
  }

  /** A rename keeps the tree well formed: a file has nothing below it, so
      taking it away leaves every other entry in a directory. */
  lemma RenameFileEffect(t: Tree, from: Path, to: Path)
    requires WellFormed(t) && IsFile(t, from) && Normal(to) && RenameFile(t, from, to).Ok?
    ensures var t' := RenameFile(t, from, to).value;
      && WellFormed(t')
      && t'.Keys == t.Keys - {from} + {to}
      && t'[to] == t[from]
      && (from != to ==> from !in t')
      && (forall q :: q in t && q != from && q != to ==> t'[q] == t[q])
  {
    var t' := RenameFile(t, from, to).value;
    forall q | q in t' && q != [] ensures Dirname(q) in t' && t'[Dirname(q)].Dir? {
      if q != to {
        assert q in t && Dirname(q) in t && t[Dirname(q)].Dir?;
        assert Dirname(q) != from;
      }
    }
  }
}
