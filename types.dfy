/** The records the commands pass around. */
module Types {
  import opened Wrappers
  import opened Paths
  import opened Values

  /** What the resolver learns about a document. `fileType` is the type the
      path classifies as; `filePath` is `/` followed by the path relative to
      the git root; `displayPath` is the path relative to the working
      directory. */
  datatype FileInfo = FileInfo(
    id: Value,
    fileType: string,
    filePath: string,
    displayPath: string,
    absolutePath: Path,
    gitRoot: Path)

  /** A commit as `git log` reports it, and as frontmatter stores it. */
  datatype Commit = Commit(sha: string, message: Option<string>)

  /** An implementation listed on the project page. */
  datatype Implementation = Implementation(id: Value, name: string)

  /** The frontmatter object for a commit: `{sha}` or `{sha, message}`. */
  function CommitValue(c: Commit): (v: Value)
    ensures v.Map? && Get(v.entries, "sha") == Some(Str(c.sha))
    ensures HasKey(v.entries, "message") <==> c.message.Some?
  {
    var entries := [("sha", Str(c.sha))] + if c.message.Some? then [("message", Str(c.message.value))] else [];
    assert entries[0].0 == "sha";
    assert c.message.Some? ==> entries[1].0 == "message";
    Map(entries)
  }

  function CommitValues(cs: seq<Commit>): (vs: seq<Value>)
    ensures |vs| == |cs| && forall i :: 0 <= i < |cs| ==> vs[i] == CommitValue(cs[i])
  {
    if cs == [] then [] else [CommitValue(cs[0])] + CommitValues(cs[1..])
  }

  /** The supply of fresh document IDs: the ID generator's successive answers,
      and how many have been used. */
  datatype IdSource = IdSource(stream: nat -> string, used: nat) {
    /** The next ID, and the supply without it. */
    function Take(): (r: (string, IdSource))
      ensures r.0 == stream(used) && r.1.stream == stream && r.1.used == used + 1
    {
      (stream(used), IdSource(stream, used + 1))
    }
  }
}
