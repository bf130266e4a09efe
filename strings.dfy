/** The JavaScript string operations the tool relies on (`trim`, `startsWith`,
    `endsWith`, `includes`, `split`, `join`, `toLowerCase`, `sort` order), written
    out over `seq<char>` with the properties the rest of the model uses. */
module Strings {
  import opened Wrappers

  /** The characters that `\s` and `String.prototype.trim` treat as white space
      (ECMAScript WhiteSpace and LineTerminator). */
  predicate IsSpace(c: char) {
    || c == ' ' || c == '\t' || c == '\n' || c == '\r'
    || c == '\U{000B}' || c == '\U{000C}' || c == '\U{00A0}' || c == '\U{1680}'
    || ('\U{2000}' <= c <= '\U{200A}')
    || c == '\U{2028}' || c == '\U{2029}' || c == '\U{202F}' || c == '\U{205F}'
    || c == '\U{3000}' || c == '\U{FEFF}'
  }

  predicate AllSpace(s: string) {
    forall i :: 0 <= i < |s| ==> IsSpace(s[i])
  }

  /** No white space at either end: what `trim` returns. */
  predicate IsTrimmed(s: string) {
    s == [] || (!IsSpace(s[0]) && !IsSpace(s[|s| - 1]))
  }

  /** How many white-space characters `s` starts with. */
  function LeadingSpaces(s: string): (n: nat)
    ensures n <= |s| && (n < |s| ==> !IsSpace(s[n]))
    ensures forall i :: 0 <= i < n ==> IsSpace(s[i])
    decreases |s|
  {
    if s != [] && IsSpace(s[0]) then
      var n := 1 + LeadingSpaces(s[1..]);
      assert forall i :: 1 <= i < |s| ==> s[i] == s[1..][i - 1];
      n
    else 0
  }

  /** How many white-space characters `s` ends with. */
  function TrailingSpaces(s: string): (n: nat)
    ensures n <= |s| && (n < |s| ==> !IsSpace(s[|s| - 1 - n]))
    ensures forall i :: |s| - n <= i < |s| ==> IsSpace(s[i])
    decreases |s|
  {
    if s != [] && IsSpace(s[|s| - 1]) then
      var n := 1 + TrailingSpaces(s[..|s| - 1]);
      assert forall i :: 0 <= i < |s| - 1 ==> s[i] == s[..|s| - 1][i];
      n
    else 0
  }

  function TrimStart(s: string): (r: string)
    ensures |r| <= |s| && r == s[|s| - |r|..]
    ensures forall i :: 0 <= i < |s| - |r| ==> IsSpace(s[i])
    ensures r == [] || !IsSpace(r[0])
  {
    s[LeadingSpaces(s)..]
  }

  function TrimEnd(s: string): (r: string)
    ensures |r| <= |s| && r == s[..|r|]
    ensures forall i :: |r| <= i < |s| ==> IsSpace(s[i])
    ensures r == [] || !IsSpace(r[|r| - 1])
  {
    s[..|s| - TrailingSpaces(s)]
  }

  /** `String.prototype.trim`. */
  function Trim(s: string): (r: string)
  {
    TrimEnd(TrimStart(s))
  }

  /** Trim removes exactly the white space at both ends: the result is an
      infix of the input, trimmed, and everything around it is white space. */
  lemma TrimShape(s: string)
    ensures IsTrimmed(Trim(s))
    ensures exists k :: 0 <= k <= |s| - |Trim(s)| && Trim(s) == s[k..k + |Trim(s)|]
                        && AllSpace(s[..k]) && AllSpace(s[k + |Trim(s)|..])
  {
    var a := TrimStart(s);
    var r := TrimEnd(a);
    var k := |s| - |a|;
    assert a == s[k..];
    assert r == s[k..k + |r|];
    if r != [] {
      assert r[0] == a[0];
    }
    assert AllSpace(s[..k]);
    assert s[k + |r|..] == a[|r|..];
    assert AllSpace(s[k + |r|..]) by {
      var tail := s[k + |r|..];
      forall i | 0 <= i < |tail| ensures IsSpace(tail[i]) {
        assert tail[i] == a[|r| + i];
      }
    }
    assert Trim(s) == r;
  }

  lemma {:induction false} TrimStartOfPadded(a: string, s: string)
    requires AllSpace(a)
    requires s == [] || !IsSpace(s[0])
    ensures TrimStart(a + s) == s
    decreases |a|
  {
    if a != [] {
      assert (a + s)[1..] == a[1..] + s;
      TrimStartOfPadded(a[1..], s);
    } else {
      assert a + s == s;
    }
  }

  lemma {:induction false} TrimEndOfPadded(s: string, b: string)
    requires AllSpace(b)
    requires s == [] || !IsSpace(s[|s| - 1])
    ensures TrimEnd(s + b) == s
    decreases |b|
  {
    if b != [] {
      assert (s + b)[..|s + b| - 1] == s + b[..|b| - 1];
      TrimEndOfPadded(s, b[..|b| - 1]);
    } else {
      assert s + b == s;
    }
  }

  /** Trimming white space off a trimmed text gives that text back: the
      basis of "the body survives a rewrite unchanged". */
  lemma TrimPadded(a: string, s: string, b: string)
    requires AllSpace(a) && AllSpace(b) && IsTrimmed(s)
    ensures Trim(a + s + b) == s
  {
    if s == [] {
      assert a + s + b == a + b;
      assert AllSpace(a + b);
      AllSpaceTrimStart(a + b);
      assert Trim(a + b) == TrimEnd([]);
    } else {
      assert a + s + b == a + (s + b);
      TrimStartOfPadded(a, s + b);
      TrimEndOfPadded(s, b);
    }
  }

  lemma AllSpaceTrimStart(s: string)
    requires AllSpace(s)
    ensures TrimStart(s) == []
  {
  }

  /** A trimmed text is its own trim. */
  lemma TrimTrimmed(s: string)
    requires IsTrimmed(s)
    ensures Trim(s) == s
  {
    if s != [] {
      assert LeadingSpaces(s) == 0;
      assert TrimStart(s) == s;
      assert TrailingSpaces(s) == 0;
    }
  }

  lemma TrimIdempotent(s: string)
    ensures Trim(Trim(s)) == Trim(s)
  {
    TrimShape(s);
    TrimTrimmed(Trim(s));
  }

  predicate StartsWith(s: string, p: string) {
    |p| <= |s| && s[..|p|] == p
  }

  lemma ConcatAssoc(a: string, b: string, c: string)
    ensures (a + b) + c == a + (b + c)
  {
  }

  lemma ConcatEmpty(a: string)
    ensures a + "" == a
  {
  }

  lemma PrefixOfConcat(a: string, b: string)
    ensures StartsWith(a + b, a)
  {
    assert (a + b)[..|a|] == a;
  }

  predicate EndsWith(s: string, p: string) {
    |p| <= |s| && s[|s| - |p|..] == p
  }

  /** `p` occurs in `s` starting at index `i`. */
  predicate OccursAt(s: string, p: string, i: int) {
    0 <= i && i + |p| <= |s| && s[i..i + |p|] == p
  }

  /** `indexOf`: the first index at which `p` occurs in `s`. */
  function Find(s: string, p: string): (r: Option<nat>)
    ensures r.Some? ==> OccursAt(s, p, r.value)
    ensures r.Some? ==> forall j :: 0 <= j < r.value ==> !OccursAt(s, p, j)
    ensures r.None? ==> forall j :: !OccursAt(s, p, j)
    decreases |s|
  {
    if |s| < |p| then None
    else if s[..|p|] == p then Some(0)
    else
      var rest := Find(s[1..], p);
      assert forall j {:trigger OccursAt(s, p, j)} :: 1 <= j ==> (OccursAt(s, p, j) <==> OccursAt(s[1..], p, j - 1)) by {
        forall j | 1 <= j ensures OccursAt(s, p, j) <==> OccursAt(s[1..], p, j - 1) {
          ShiftOccurs(s, p, j - 1);
        }
      }
      match rest
      case None => None
      case Some(k) => Some(k + 1)
  }

  /** An occurrence with none before it is what `Find` reports. */
  lemma FindFirst(s: string, p: string, i: nat)
    requires OccursAt(s, p, i)
    requires forall j :: 0 <= j < i ==> !OccursAt(s, p, j)
    ensures Find(s, p) == Some(i)
  {
  }

  lemma ShiftOccurs(s: string, p: string, j: nat)
    requires s != []
    ensures OccursAt(s, p, j + 1) <==> OccursAt(s[1..], p, j)
  {
    if j + 1 + |p| <= |s| {
      assert s[1..][j..j + |p|] == s[j + 1..j + 1 + |p|];
    }
  }

  /** `String.prototype.includes`. */
  predicate Contains(s: string, p: string) {
    exists j :: 0 <= j <= |s| - |p| && OccursAt(s, p, j)
  }

  /** `includes` holds exactly where `indexOf` finds an occurrence. */
  lemma ContainsIff(s: string, p: string)
    ensures Contains(s, p) <==> Find(s, p).Some?
  {
  }

  lemma OccursInPrefix(s: string, n: nat, p: string, j: int)
    requires n <= |s|
    ensures OccursAt(s[..n], p, j) ==> OccursAt(s, p, j)
  {
    if OccursAt(s[..n], p, j) {
      assert s[..n][j..j + |p|] == s[j..j + |p|];
    }
  }

  lemma OccursInSuffix(s: string, n: nat, p: string, j: int)
    requires n <= |s|
    ensures OccursAt(s[n..], p, j) ==> OccursAt(s, p, j + n)
  {
    if OccursAt(s[n..], p, j) {
      assert s[n..][j..j + |p|] == s[j + n..j + n + |p|];
    }
  }

  /** `s.split(sep)` for a non-empty literal separator. */
  function Split(s: string, sep: string): (parts: seq<string>)
    requires sep != []
    ensures parts != []
    ensures forall i :: 0 <= i < |parts| ==> !Contains(parts[i], sep)
    decreases |s|
  {
    match Find(s, sep)
    case None => [s]
    case Some(i) =>
      var rest := Split(s[i + |sep|..], sep);
      assert !Contains(s[..i], sep) by {
        forall j ensures !OccursAt(s[..i], sep, j) {
          OccursInPrefix(s, i, sep, j);
        }
      }
      [s[..i]] + rest
  }

  /** `parts.join(sep)`. */
  function Join(parts: seq<string>, sep: string): string
    decreases |parts|
  {
    if parts == [] then ""
    else if |parts| == 1 then parts[0]
    else parts[0] + sep + Join(parts[1..], sep)
  }

  /** Splitting on a separator and joining with it again restores the text. */
  lemma {:induction false} SplitJoin(s: string, sep: string)
    requires sep != []
    ensures Join(Split(s, sep), sep) == s
    decreases |s|
  {
    match Find(s, sep)
    case None =>
    case Some(i) =>
      var rest := s[i + |sep|..];
      SplitJoin(rest, sep);
      var parts := Split(s, sep);
      assert parts == [s[..i]] + Split(rest, sep);
      assert parts[1..] == Split(rest, sep);
      assert s == s[..i] + sep + rest;
  }

  /** A single-character separator not in `a` is first found right after
      `a`. */
  lemma FindSeparator(a: string, rest: string, sep: string)
    requires |sep| == 1 && !Contains(a, sep)
    ensures Find(a + sep + rest, sep) == Some(|a|)
  {
    var s := a + sep + rest;
    assert OccursAt(s, sep, |a|) by {
      assert s[|a|..|a| + 1] == sep;
    }
    forall j | 0 <= j < |a| ensures !OccursAt(s, sep, j) {
      assert !OccursAt(a, sep, j);
      assert s[j..j + 1] == a[j..j + 1];
    }
  }

  /** Joining one more part puts one more separator before it. */
  lemma {:induction false} JoinSnoc(parts: seq<string>, x: string, sep: string)
    requires parts != []
    ensures Join(parts + [x], sep) == Join(parts, sep) + sep + x
    decreases |parts|
  {
    if |parts| == 1 {
      assert (parts + [x])[1..] == [x];
    } else {
      JoinSnoc(parts[1..], x, sep);
      assert (parts + [x])[1..] == parts[1..] + [x];
    }
  }

  /** Joining parts that hold no single-character separator and splitting
      again gives the parts back. */
  lemma {:induction false} JoinSplit(p: seq<string>, sep: string)
    requires p != [] && |sep| == 1
    requires forall i :: 0 <= i < |p| ==> !Contains(p[i], sep)
    ensures Split(Join(p, sep), sep) == p
    decreases |p|
  {
    if |p| == 1 {
      assert Join(p, sep) == p[0];
    } else {
      var rest := Join(p[1..], sep);
      FindSeparator(p[0], rest, sep);
      var s := p[0] + sep + rest;
      assert s[..|p[0]|] == p[0];
      assert s[|p[0]| + 1..] == rest;
      JoinSplit(p[1..], sep);
      assert Split(s, sep) == [p[0]] + Split(rest, sep);
    }
  }

  /** No newline character anywhere in `s`. */
  predicate NoNewline(s: string) {
    forall i :: 0 <= i < |s| ==> s[i] != '\n'
  }

  /** Text without a newline character has no newline in it. */
  lemma NoNewlineIn(s: string)
    requires NoNewline(s)
    ensures !Contains(s, "\n")
  {
    forall j ensures !OccursAt(s, "\n", j) {
      if 0 <= j && j + 1 <= |s| {
        assert s[j..j + 1][0] == s[j];
      }
    }
  }

  /** `content.split(p).join(r)`: every non-overlapping occurrence of `p`,
      left to right, replaced by `r`. */
  function ReplaceAll(s: string, p: string, r: string): string
    requires p != []
  {
    Join(Split(s, p), r)
  }

  lemma ReplaceAllAbsent(s: string, p: string, r: string)
    requires p != [] && !Contains(s, p)
    ensures ReplaceAll(s, p, r) == s
  {
  }

  /** No character of `r` appears in `p`. */
  predicate CharsDisjoint(p: string, r: string) {
    forall i, j :: 0 <= i < |p| && 0 <= j < |r| ==> p[i] != r[j]
  }

  lemma NotAcross(a: string, r: string, b: string, p: string)
    requires p != [] && r != [] && CharsDisjoint(p, r)
    requires !Contains(a, p) && !Contains(b, p)
    ensures !Contains(a + r + b, p)
  {
    var s := a + r + b;
    forall j ensures !OccursAt(s, p, j) {
      if j + |p| <= |a| {
        assert !OccursAt(a, p, j);
        if 0 <= j {
          assert s[j..j + |p|] == a[j..j + |p|];
        }
      } else if j >= |a| + |r| {
        var j' := j - |a| - |r|;
        assert !OccursAt(b, p, j');
        if j + |p| <= |s| {
          assert s[j..j + |p|] == b[j'..j' + |p|];
        }
      } else if 0 <= j && j + |p| <= |s| {
        var k := if j >= |a| then j else |a|;
        assert |a| <= k < |a| + |r| && j <= k < j + |p|;
        assert s[k] == r[k - |a|];
        assert s[j..j + |p|][k - j] == s[k];
      }
    }
  }

  /** When the replacement shares no character with the pattern, no
      occurrence of the pattern survives a replace-all. */
  lemma {:induction false} ReplaceAllRemoves(s: string, p: string, r: string)
    requires p != [] && r != [] && CharsDisjoint(p, r)
    ensures !Contains(ReplaceAll(s, p, r), p)
  {
    JoinAvoids(Split(s, p), p, r);
  }

  lemma {:induction false} JoinAvoids(parts: seq<string>, p: string, r: string)
    requires p != [] && r != [] && CharsDisjoint(p, r)
    requires forall i :: 0 <= i < |parts| ==> !Contains(parts[i], p)
    ensures !Contains(Join(parts, r), p)
    decreases |parts|
  {
    if parts == [] {
    } else if |parts| == 1 {
    } else {
      JoinAvoids(parts[1..], p, r);
      NotAcross(parts[0], r, Join(parts[1..], r), p);
    }
  }

  /** `toLowerCase` as far as it can land on an ASCII letter: the capitals
      `A`-`Z`, the Kelvin sign (U+212A, to `k`) and the dotted capital I
      (U+0130, to `i`; JavaScript follows that `i` with U+0307, a combining
      mark). Every other character is kept: those `toLowerCase` changes stay
      outside ASCII. */
  function LowerChar(c: char): char {
    if 'A' <= c <= 'Z' then (c as int + 32) as char
    else if c == '\U{212A}' then 'k'
    else if c == '\U{0130}' then 'i'
    else c
  }

  function ToLower(s: string): (r: string)
    ensures |r| == |s|
    ensures forall i :: 0 <= i < |s| ==> r[i] == LowerChar(s[i])
  {
    seq(|s|, i requires 0 <= i < |s| => LowerChar(s[i]))
  }

  /** Code-point order. The default `Array.prototype.sort` compares UTF-16
      code units, which agrees with it except between characters above
      U+FFFF and those in U+E000-U+FFFF. */
  predicate Less(a: string, b: string)
    decreases |a|
  {
    if a == [] then b != []
    else if b == [] then false
    else if a[0] != b[0] then a[0] < b[0]
    else Less(a[1..], b[1..])
  }

  lemma {:induction false} LessIrreflexive(a: string)
    ensures !Less(a, a)
    decreases |a|
  {
    if a != [] {
      LessIrreflexive(a[1..]);
    }
  }

  lemma {:induction false} LessTransitive(a: string, b: string, c: string)
    requires Less(a, b) && Less(b, c)
    ensures Less(a, c)
    decreases |a|
  {
    if a != [] && b != [] && c != [] && a[0] == b[0] && b[0] == c[0] {
      LessTransitive(a[1..], b[1..], c[1..]);
    }
  }

  lemma {:induction false} LessTotal(a: string, b: string)
    ensures a == b || Less(a, b) || Less(b, a)
    decreases |a|
  {
    if a != [] && b != [] && a[0] == b[0] {
      LessTotal(a[1..], b[1..]);
      if a[1..] == b[1..] {
        assert a == [a[0]] + a[1..] && b == [b[0]] + b[1..];
      }
    }
  }
}
