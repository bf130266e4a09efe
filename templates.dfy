/** The documents the scaffolding commands write from a fixed template: an
    envelope of two lines, `id` and `type`, then a heading and a paragraph. */
module Templates {
  import opened Wrappers
  import opened Strings
  import opened Envelope

  /** `---\nid: <id>\ntype: <type>\n---\n\n# <heading>\n\n<text>\n`. */
  function Document(id: string, fileType: string, heading: string, text: string): string {
    "---\nid: " + id + "\ntype: " + fileType + "\n---\n\n# " + heading + "\n\n" + text + "\n"
  }

  /** The envelope of a templated document holds exactly the two lines
      `id: <id>` and `type: <type>`, and the text after it is the heading and
      the paragraph, as long as neither the id nor the type holds a newline. */
  lemma DocumentEnvelope(id: string, fileType: string, heading: string, text: string)
    requires NoNewline(id) && NoNewline(fileType)
    ensures Envelope.Split(Document(id, fileType, heading, text))
      == Some(("id: " + id + "\ntype: " + fileType, "\n# " + heading + "\n\n" + text + "\n"))
  {
    var block := "id: " + id + "\ntype: " + fileType;
    var rest := "\n# " + heading + "\n\n" + text + "\n";
    assert Document(id, fileType, heading, text) == "---\n" + block + Fence + rest;
    var s := block + Fence;
    assert s[|block|..|block| + 5] == Fence;
    var k := 11 + |id|;
    forall j | 0 <= j < |block| ensures !OccursAt(s, Fence, j) {
      FenceStart(s, j);
      if j < 4 + |id| {
        if j >= 4 {
          assert s[j] == id[j - 4];
        }
        assert s[j] != '\n';
      } else if j == 4 + |id| {
        assert s[j + 1] == 't';
      } else if j < k {
        assert s[j] == "\ntype: "[j - 4 - |id|];
      } else {
        assert s[j] == fileType[j - k];
      }
    }
    FindFirst(s, Fence, |block|);
    SplitOfWritten(block, rest);
  }

  /** A fence begins with a new line and a dash. */
  lemma FenceStart(s: string, j: int)
    ensures OccursAt(s, Fence, j) ==> s[j] == '\n' && s[j + 1] == '-'
  {
    if OccursAt(s, Fence, j) {
      assert s[j..j + 5][0] == s[j] && s[j..j + 5][1] == s[j + 1];
    }
  }
}
