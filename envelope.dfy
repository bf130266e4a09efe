/** The frontmatter envelope of a markdown document: a `---` line, a YAML
    block, a `---` line, then the body. YAML itself is left abstract: `load`
    answers `None` where the YAML library throws. */
module Envelope {
  import opened Wrappers
  import opened Strings
  import opened Values
  import opened Types

  datatype Yaml = Yaml(load: string -> Option<Value>, dump: Value -> string)

  /** The frontmatter helpers the commands call but whose code is not part of
      this model. */
  datatype Helpers = Helpers(
    serialize: (Frontmatter, string) -> string,
    addCommits: (Frontmatter, seq<Commit>) -> Frontmatter,
    updateReferenceImplPaths: Frontmatter -> Frontmatter,
    updateCommitMessages: Frontmatter -> Frontmatter)

  /** The `commits` list a frontmatter already holds, or none. */
  function OldCommits(fm: Frontmatter): seq<Value> {
    match Get(fm, "commits")
    case Some(Seq(items)) => items
    case _ => []
  }

  /** `fm'` is `fm` with the commits `cs` put in front of its existing
      `commits` list, every other key as it was. */
  ghost predicate CommitsPrepended(fm: Frontmatter, cs: seq<Commit>, fm': Frontmatter) {
    && Get(fm', "commits") == Some(Seq(CommitValues(cs) + OldCommits(fm)))
    && forall k :: k != "commits" ==> Get(fm', k) == Get(fm, k)
  }

  /** What the record-commits tests ask of `addCommitsToFrontmatter`: new
      commits go before the ones already recorded. */
  ghost predicate Prepends(h: Helpers) {
    forall fm: Frontmatter, cs: seq<Commit> :: CommitsPrepended(fm, cs, h.addCommits(fm, cs))
  }

  const Fence := "\n---\n"

  datatype Parsed = Parsed(frontmatter: Frontmatter, body: string)

  /** The envelope's YAML block and everything after the closing fence, when
      `content` starts with `---\n` and has a later `\n---\n`. The YAML block
      ends at the first such fence. */
  function Split(content: string): (r: Option<(string, string)>)
    ensures r.Some? ==> content == "---\n" + r.value.0 + Fence + r.value.1
  {
    if !StartsWith(content, "---\n") then None
    else
      var rest := content[4..];
      match Find(rest, Fence)
      case None => None
      case Some(i) =>
        assert rest == rest[..i] + Fence + rest[i + 5..];
        Some((rest[..i], rest[i + 5..]))
  }

  /** The object a loaded value stands for: a mapping is itself, anything
      falsy is `{}`. */
  function AsObject(v: Value): Frontmatter {
    if v.Map? then v.entries else []
  }

  /** `parseFrontmatter`. */
  function Parse(yaml: Yaml, content: string): (r: Parsed)
    ensures IsTrimmed(r.body)
  {
    TrimShape(content);
    match Split(content)
    case None => Parsed([], Trim(content))
    case Some((block, rest)) =>
      match yaml.load(block)
      case None => Parsed([], Trim(content))
      case Some(v) =>
        TrimShape(rest);
        Parsed(AsObject(v), Trim(rest))
  }

  /** Without an opening `---\n` and a later `\n---\n` there is no frontmatter,
      and the body is the whole text trimmed. */
  lemma NoEnvelope(yaml: Yaml, content: string)
    requires !StartsWith(content, "---\n") || !Contains(content[4..], Fence)
    ensures Parse(yaml, content) == Parsed([], Trim(content))
  {
  }

  /** The envelope is only seen at offset 0: text starting with white space
      has no frontmatter. */
  lemma LeadingSpace(yaml: Yaml, content: string)
    requires content != [] && IsSpace(content[0])
    ensures Parse(yaml, content) == Parsed([], Trim(content))
  {
    assert !StartsWith(content, "---\n");
  }

  /** YAML that fails to load never makes the parse fail: no frontmatter, and
      the body is the whole text trimmed. */
  lemma LoadFailure(yaml: Yaml, content: string)
    requires Split(content).Some? && yaml.load(Split(content).value.0).None?
    ensures Parse(yaml, content) == Parsed([], Trim(content))
  {
  }

  /** YAML that loads to a falsy value (an empty block loads as `null`) gives
      `{}`, and the body is the text after the fence, trimmed. */
  lemma LoadFalsy(yaml: Yaml, content: string)
    requires Split(content).Some?
    requires yaml.load(Split(content).value.0).Some? && !Truthy(yaml.load(Split(content).value.0).value)
    ensures Parse(yaml, content) == Parsed([], Trim(Split(content).value.1))
  {
    var (block, rest) := Split(content).value;
    var v := yaml.load(block).value;
    assert !v.Map?;
    assert AsObject(v) == [];
  }

  /** The block is the shortest possible: it never contains the fence. */
  lemma BlockHasNoFence(content: string)
    requires Split(content).Some?
    ensures !Contains(Split(content).value.0, Fence)
  {
    var (block, rest) := Split(content).value;
    var s := block + Fence + rest;
    Layout(block, rest);
    assert Find(s, Fence) == Some(|block|);
    forall j ensures !OccursAt(block, Fence, j) {
      OccursInPrefix(s, |block|, Fence, j);
      assert s[..|block|] == block;
    }
  }

  /** An envelope written around a block and a body splits back into them,
      provided the block followed by the fence has its first fence at the
      end. */
  lemma SplitOfWritten(block: string, rest: string)
    requires Find(block + Fence, Fence) == Some(|block|)
    ensures Split("---\n" + block + Fence + rest) == Some((block, rest))
  {
    Layout(block, rest);
    FenceAfterBlock(block, rest);
  }

  lemma Layout(block: string, rest: string)
    ensures var s := block + Fence + rest;
      && StartsWith("---\n" + block + Fence + rest, "---\n")
      && ("---\n" + block + Fence + rest)[4..] == s
      && s[..|block|] == block
      && s[|block| + 5..] == rest
  {
    var s := block + Fence + rest;
    var content := "---\n" + s;
    assert content == "---\n" + block + Fence + rest;
    assert content[4..] == s;
  }

  lemma FenceAfterBlock(block: string, rest: string)
    requires Find(block + Fence, Fence) == Some(|block|)
    ensures Find(block + Fence + rest, Fence) == Some(|block|)
  {
    var bf := block + Fence;
    var s := bf + rest;
    forall j | 0 <= j < |block| ensures !OccursAt(s, Fence, j) {
      assert !OccursAt(bf, Fence, j);
      assert bf[j..j + 5] == s[j..j + 5];
    }
    assert OccursAt(s, Fence, |block|) by {
      assert s[|block|..|block| + 5] == Fence;
    }
    FindFirst(s, Fence, |block|);
  }
}
