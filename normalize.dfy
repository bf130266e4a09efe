/** The regular-expression rewrites the name normalisers chain together:
    `replace(/[^…]/g, '')` is `Filter`, `replace(/X+/g, c)` is `Collapse` and
    `replace(/^-/, '')` / `replace(/-$/, '')` are `DropFirst` / `DropLast`. */
module Normalize {
  import opened Strings

  /** The characters of `s` that satisfy `keep`, in their order. */
  function Filter(s: string, keep: char -> bool): (r: string)
    ensures |r| <= |s|
    ensures forall i :: 0 <= i < |r| ==> keep(r[i])
    decreases |s|
  {
    if s == [] then []
    else if keep(s[0]) then [s[0]] + Filter(s[1..], keep)
    else Filter(s[1..], keep)
  }

  /** Filtering works character by character, so it distributes over
      concatenation. */
  lemma {:induction false} FilterAppend(a: string, b: string, keep: char -> bool)
    ensures Filter(a + b, keep) == Filter(a, keep) + Filter(b, keep)
    decreases |a|
  {
    if a == [] {
      assert a + b == b;
    } else {
      assert (a + b)[1..] == a[1..] + b;
      FilterAppend(a[1..], b, keep);
    }
  }

  /** A character survives the filter exactly when it occurs and is kept. */
  lemma {:induction false} FilterMembers(s: string, keep: char -> bool)
    ensures forall x :: x in Filter(s, keep) <==> x in s && keep(x)
    decreases |s|
  {
    if s != [] {
      FilterMembers(s[1..], keep);
      assert s == [s[0]] + s[1..];
    }
  }

  /** Text the filter keeps entirely. */
  lemma {:induction false} FilterAll(s: string, keep: char -> bool)
    requires forall i :: 0 <= i < |s| ==> keep(s[i])
    ensures Filter(s, keep) == s
    decreases |s|
  {
    if s != [] {
      FilterAll(s[1..], keep);
    }
  }

  /** Text the filter drops entirely. */
  lemma FilterNone(s: string, keep: char -> bool)
    requires forall i :: 0 <= i < |s| ==> !keep(s[i])
    ensures Filter(s, keep) == []
  {
    FilterMembers(s, keep);
  }

  /** Every maximal run of characters satisfying `run` replaced by one `c`;
      `inRun` says whether the text before `s` ended inside such a run. */
  function CollapseFrom(s: string, run: char -> bool, c: char, inRun: bool): (r: string)
    decreases |s|
  {
    if s == [] then []
    else if run(s[0]) then (if inRun then [] else [c]) + CollapseFrom(s[1..], run, c, true)
    else [s[0]] + CollapseFrom(s[1..], run, c, false)
  }

  /** `s.replace(/X+/g, c)` where `X` is the class `run`. */
  function Collapse(s: string, run: char -> bool, c: char): (r: string)
  {
    CollapseFrom(s, run, c, false)
  }

  /** What a collapse emits is `c` or a character of the input outside the
      class. */
  lemma {:induction false} CollapseChars(s: string, run: char -> bool, c: char, inRun: bool)
    ensures forall x :: x in CollapseFrom(s, run, c, inRun) ==> x == c || (x in s && !run(x))
    decreases |s|
  {
    if s != [] {
      CollapseChars(s[1..], run, c, run(s[0]));
    }
  }

  /** Without a character of the class, a collapse changes nothing. */
  lemma {:induction false} CollapseNone(s: string, run: char -> bool, c: char, inRun: bool)
    requires forall i :: 0 <= i < |s| ==> !run(s[i])
    ensures CollapseFrom(s, run, c, inRun) == s
    decreases |s|
  {
    if s != [] {
      CollapseNone(s[1..], run, c, false);
    }
  }

  /** `c` never follows `c`. */
  predicate NoDouble(s: string, c: char) {
    forall i :: 0 <= i < |s| - 1 ==> !(s[i] == c && s[i + 1] == c)
  }

  /** When `c` is itself in the class, the runs collapse to single `c`s: no
      `c` follows another, and none follows a run already begun. */
  lemma {:induction false} CollapseSingle(s: string, run: char -> bool, c: char, inRun: bool)
    requires run(c)
    ensures var r := CollapseFrom(s, run, c, inRun);
      NoDouble(r, c) && (inRun && r != [] ==> r[0] != c)
    decreases |s|
  {
    if s != [] {
      var rest := CollapseFrom(s[1..], run, c, run(s[0]));
      CollapseSingle(s[1..], run, c, run(s[0]));
      var r := CollapseFrom(s, run, c, inRun);
      if run(s[0]) {
        assert r == (if inRun then [] else [c]) + rest;
      } else {
        assert r == [s[0]] + rest;
      }
      forall i | 0 <= i < |r| - 1 ensures !(r[i] == c && r[i + 1] == c) {
        if i > 0 || (run(s[0]) && inRun) {
          var k := if run(s[0]) && inRun then i else i - 1;
          assert r[i] == rest[k] && r[i + 1] == rest[k + 1];
        }
      }
    }
  }

  /** Text with single `c`s and no other character of the class is left as
      it is by a collapse whose class holds `c`. */
  lemma {:induction false} CollapseKeeps(s: string, run: char -> bool, c: char, inRun: bool)
    requires run(c) && NoDouble(s, c)
    requires forall i :: 0 <= i < |s| ==> run(s[i]) ==> s[i] == c
    requires inRun ==> s == [] || s[0] != c
    ensures CollapseFrom(s, run, c, inRun) == s
    decreases |s|
  {
    if s != [] {
      assert NoDouble(s[1..], c) by {
        forall i | 0 <= i < |s[1..]| - 1 ensures !(s[1..][i] == c && s[1..][i + 1] == c) {
          assert s[1..][i] == s[i + 1] && s[1..][i + 1] == s[i + 2];
        }
      }
      if |s| > 1 && run(s[0]) {
        assert !(s[0] == c && s[1] == c);
      }
      CollapseKeeps(s[1..], run, c, run(s[0]));
    }
  }

  /** Whether a collapse that has read `a`, starting in state `inRun`, ends
      inside a run. */
  function EndsInRun(a: string, run: char -> bool, inRun: bool): bool {
    if a == [] then inRun else run(a[|a| - 1])
  }

  /** A collapse works left to right: the two halves of a text collapse
      separately, the second starting in the state the first ended in. */
  lemma {:induction false} CollapseAppend(a: string, b: string, run: char -> bool, c: char, inRun: bool)
    ensures CollapseFrom(a + b, run, c, inRun)
      == CollapseFrom(a, run, c, inRun) + CollapseFrom(b, run, c, EndsInRun(a, run, inRun))
    decreases |a|
  {
    if a != [] {
      assert (a + b)[1..] == a[1..] + b;
      CollapseAppend(a[1..], b, run, c, run(a[0]));
      if |a| > 1 {
        assert a[1..][|a[1..]| - 1] == a[|a| - 1];
      }
    } else {
      assert a + b == b;
    }
  }

  /** Words free of the class, joined by a single character of the class,
      come out joined by `c`. */
  lemma {:induction false} CollapseWords(ws: seq<string>, sep: char, run: char -> bool, c: char, inRun: bool)
    requires run(sep)
    requires forall k :: 0 <= k < |ws| ==> ws[k] != []
    requires forall k, i :: 0 <= k < |ws| && 0 <= i < |ws[k]| ==> !run(ws[k][i])
    ensures CollapseFrom(Join(ws, [sep]), run, c, inRun) == Join(ws, [c])
    decreases |ws|
  {
    if |ws| == 1 {
      CollapseNone(ws[0], run, c, inRun);
    } else if |ws| > 1 {
      var w := ws[0];
      var rest := Join(ws[1..], [sep]);
      CollapseNone(w, run, c, inRun);
      CollapseAppend(w, [sep] + rest, run, c, inRun);
      assert [sep] + rest == [sep] + rest;
      assert CollapseFrom([sep] + rest, run, c, false) == [c] + CollapseFrom(rest, run, c, true) by {
        assert ([sep] + rest)[1..] == rest;
      }
      CollapseWords(ws[1..], sep, run, c, true);
      assert w + [sep] + rest == w + ([sep] + rest);
    }
  }

  /** `s.replace(/^-/, '')`. */
  function DropFirst(s: string, c: char): (r: string)
    ensures s != [] && s[0] == c ==> r == s[1..]
    ensures s == [] || s[0] != c ==> r == s
  {
    if s != [] && s[0] == c then s[1..] else s
  }

  /** `s.replace(/-$/, '')`. */
  function DropLast(s: string, c: char): (r: string)
    ensures s != [] && s[|s| - 1] == c ==> r == s[..|s| - 1]
    ensures s == [] || s[|s| - 1] != c ==> r == s
  {
    if s != [] && s[|s| - 1] == c then s[..|s| - 1] else s
  }

  /** The white-space class `\s`. */
  function Space(): char -> bool {
    x => IsSpace(x)
  }

  /** The class holding just `-`. */
  function Hyphen(): char -> bool {
    x => x == '-'
  }

  /** `toLowerCase` leaves text without capital letters alone. */
  lemma LowerKeeps(s: string)
    requires forall i :: 0 <= i < |s| ==> !('A' <= s[i] <= 'Z') && s[i] != '\U{212A}' && s[i] != '\U{0130}'
    ensures ToLower(s) == s
  {
  }
}
