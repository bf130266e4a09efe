/** Reading the commit list from `git log`. The git subprocess itself is not
    modelled: its output, or the error it fails with, is given. */
module GitUtils {
  import opened Wrappers
  import opened Strings
  import opened Types

  /** The lines that are not empty, in their order. */
  function NonEmpty(lines: seq<string>): (r: seq<string>)
    ensures forall i :: 0 <= i < |r| ==> r[i] != ""
    ensures forall x :: x in r <==> x in lines && x != ""
    ensures (forall i :: 0 <= i < |lines| ==> lines[i] != "") ==> r == lines
    decreases |lines|
  {
    if lines == [] then []
    else if lines[0] == "" then NonEmpty(lines[1..])
    else [lines[0]] + NonEmpty(lines[1..])
  }

  function ShaCommits(shas: seq<string>): (cs: seq<Commit>)
    ensures |cs| == |shas|
    ensures forall i :: 0 <= i < |shas| ==> cs[i] == Commit(shas[i], None)
  {
    if shas == [] then [] else [Commit(shas[0], None)] + ShaCommits(shas[1..])
  }

  function Shas(cs: seq<Commit>): (shas: seq<string>)
    ensures |shas| == |cs| && forall i :: 0 <= i < |cs| ==> shas[i] == cs[i].sha
  {
    if cs == [] then [] else [cs[0].sha] + Shas(cs[1..])
  }

  /** The parsing inside `getLastNCommits`: the output trimmed, split into
      lines, empty lines dropped, and each line a commit with a sha and no
      message, newest first as git prints them. */
  function ParseGitLog(output: string): (cs: seq<Commit>)
    ensures forall i :: 0 <= i < |cs| ==> cs[i].sha != "" && cs[i].message.None?
    ensures forall i :: 0 <= i < |cs| ==> cs[i].sha in Split(Trim(output), "\n")
  {
    ShaCommits(NonEmpty(Split(Trim(output), "\n")))
  }

  /** A hash is a run of characters none of which is white space. */
  predicate IsHash(s: string) {
    s != "" && forall i :: 0 <= i < |s| ==> !IsSpace(s[i])
  }

  /** Hashes printed one per line are read back as the same commits, in the
      same order. */
  lemma ParseGitLogRoundTrip(shas: seq<string>)
    requires forall i :: 0 <= i < |shas| ==> IsHash(shas[i])
    ensures Shas(ParseGitLog(Join(shas, "\n"))) == shas
  {
    NonEmptyOfJoin(shas);
    ShasOfShaCommits(NonEmpty(Split(Trim(Join(shas, "\n")), "\n")));
  }

  lemma NonEmptyOfJoin(shas: seq<string>)
    requires forall i :: 0 <= i < |shas| ==> IsHash(shas[i])
    ensures NonEmpty(Split(Trim(Join(shas, "\n")), "\n")) == shas
  {
    var s := Join(shas, "\n");
    var lines := Split(Trim(s), "\n");
    if shas == [] {
      assert Trim(s) == "";
      assert lines == [""];
    } else {
      LinesOfJoin(shas);
    }
  }

  lemma ShasOfShaCommits(shas: seq<string>)
    ensures Shas(ShaCommits(shas)) == shas
  {
    var cs := ShaCommits(shas);
    assert |Shas(cs)| == |shas|;
    forall i | 0 <= i < |shas| ensures Shas(cs)[i] == shas[i] {
      assert cs[i] == Commit(shas[i], None);
    }
  }

  lemma LinesOfJoin(shas: seq<string>)
    requires shas != [] && forall i :: 0 <= i < |shas| ==> IsHash(shas[i])
    ensures Split(Trim(Join(shas, "\n")), "\n") == shas
  {
    var s := Join(shas, "\n");
    assert Trim(s) == s by {
      JoinEnds(shas, "\n");
      TrimTrimmed(s);
    }
    assert forall i :: 0 <= i < |shas| ==> !Contains(shas[i], "\n") by {
      forall i | 0 <= i < |shas| ensures !Contains(shas[i], "\n") {
        HashHasNoNewline(shas[i]);
      }
    }
    JoinSplit(shas, "\n");
  }

  lemma HashHasNoNewline(h: string)
    requires IsHash(h)
    ensures !Contains(h, "\n")
  {
    forall j ensures !OccursAt(h, "\n", j) {
      if 0 <= j < |h| {
        assert h[j..j + 1][0] == h[j];
      }
    }
  }

  /** A join starts with the first part's first character and ends with the
      last part's last character. */
  lemma {:induction false} JoinEnds(parts: seq<string>, sep: string)
    requires parts != [] && parts[0] != "" && parts[|parts| - 1] != ""
    ensures var s := Join(parts, sep);
      s != "" && s[0] == parts[0][0] && s[|s| - 1] == parts[|parts| - 1][|parts[|parts| - 1]| - 1]
    decreases |parts|
  {
    if |parts| > 1 {
      var rest := parts[1..];
      if rest[0] != "" {
        JoinEnds(rest, sep);
      } else {
        JoinLast(rest, sep);
      }
    }
  }

  lemma {:induction false} JoinLast(parts: seq<string>, sep: string)
    requires parts != [] && parts[|parts| - 1] != ""
    ensures var s := Join(parts, sep);
      s != "" && s[|s| - 1] == parts[|parts| - 1][|parts[|parts| - 1]| - 1]
    decreases |parts|
  {
    if |parts| > 1 {
      JoinLast(parts[1..], sep);
    }
  }

  /** `getLastNCommits(n)` given what `git log -n <n> --pretty=format:%H`
      printed or the error it failed with. */
  function GetLastNCommits(gitLog: Result<string>): (r: Result<seq<Commit>>)
    ensures gitLog.Err? ==> r == Err("Failed to get git commit history: " + gitLog.msg)
    ensures gitLog.Ok? ==> r == Ok(ParseGitLog(gitLog.value))
  {
    match gitLog
    case Err(e) => Err("Failed to get git commit history: " + e)
    case Ok(output) => Ok(ParseGitLog(output))
  }

  /** For a log of hashes, one per line, the commits are exactly those
      hashes, newest first as printed, and have no message; a failed call
      gives its message behind the command's own words. */
  lemma GetLastNCommitsOfHashes(shas: seq<string>, e: string)
    requires forall i :: 0 <= i < |shas| ==> IsHash(shas[i])
    ensures GetLastNCommits(Ok(Join(shas, "\n"))) == Ok(ShaCommits(shas))
    ensures Shas(GetLastNCommits(Ok(Join(shas, "\n"))).value) == shas
    ensures GetLastNCommits(Err(e)) == Err("Failed to get git commit history: " + e)
  {
    NonEmptyOfJoin(shas);
    ShasOfShaCommits(shas);
  }
}
