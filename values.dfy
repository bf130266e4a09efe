/** The JavaScript values that YAML frontmatter loads into, and the few object
    operations the commands apply to them: property lookup, truthiness,
    `String(v)` and object spread. An object is its list of entries in
    property-creation order. */
module Values {
  import opened Wrappers
  import opened Strings

  datatype Value =
    | Null
    | Bool(b: bool)
    | Num(n: int)
    | Str(s: string)
    | Seq(items: seq<Value>)
    | Map(entries: seq<(string, Value)>)

  /** A loaded frontmatter object. */
  type Frontmatter = seq<(string, Value)>

  /** JavaScript truthiness: `null`, `false`, `0` and `""` are falsy, every
      array and object is truthy. */
  predicate Truthy(v: Value) {
    match v
    case Null => false
    case Bool(b) => b
    case Num(n) => n != 0
    case Str(s) => s != ""
    case Seq(_) => true
    case Map(_) => true
  }

  /** `undefined` is modelled as `None`, and is falsy too. */
  predicate TruthyOpt(v: Option<Value>) {
    v.Some? && Truthy(v.value)
  }

  function Keys(fm: Frontmatter): (ks: seq<string>)
    ensures |ks| == |fm| && forall i :: 0 <= i < |fm| ==> ks[i] == fm[i].0
  {
    if fm == [] then [] else [fm[0].0] + Keys(fm[1..])
  }

  /** No key occurs twice, as in every JavaScript object. */
  predicate UniqueKeys(fm: Frontmatter) {
    forall i, j :: 0 <= i < j < |fm| ==> fm[i].0 != fm[j].0
  }

  predicate HasKey(fm: Frontmatter, k: string) {
    exists i :: 0 <= i < |fm| && fm[i].0 == k
  }

  /** `obj[k]`: the value of the first entry named `k`. */
  function Get(fm: Frontmatter, k: string): (r: Option<Value>)
    ensures r.Some? <==> HasKey(fm, k)
    ensures r.Some? ==> exists i :: 0 <= i < |fm| && fm[i] == (k, r.value)
    ensures forall i :: 0 <= i < |fm| && fm[i].0 == k && UniqueKeys(fm) ==> r == Some(fm[i].1)
  {
    if fm == [] then None
    else if fm[0].0 == k then Some(fm[0].1)
    else
      var r := Get(fm[1..], k);
      assert forall i :: 1 <= i < |fm| ==> fm[i] == fm[1..][i - 1];
      r
  }

  /** `obj[k] = v`: an existing property keeps its position, a new one is
      appended. */
  function Set(fm: Frontmatter, k: string, v: Value): (r: Frontmatter)
    ensures HasKey(fm, k) ==> Keys(r) == Keys(fm)
    ensures !HasKey(fm, k) ==> Keys(r) == Keys(fm) + [k]
  {
    if fm == [] then [(k, v)]
    else if fm[0].0 == k then [(k, v)] + fm[1..]
    else
      var rest := Set(fm[1..], k, v);
      HasKeyTail(fm, k);
      assert ([fm[0]] + rest)[1..] == rest;
      [fm[0]] + rest
  }

  /** Past a first entry of another name, the key is in the rest. */
  lemma HasKeyTail(fm: Frontmatter, k: string)
    requires fm != [] && fm[0].0 != k
    ensures HasKey(fm, k) <==> HasKey(fm[1..], k)
  {
    if HasKey(fm, k) {
      var i :| 0 <= i < |fm| && fm[i].0 == k;
      assert fm[1..][i - 1].0 == k;
    }
    if HasKey(fm[1..], k) {
      var i :| 0 <= i < |fm[1..]| && fm[1..][i].0 == k;
      assert fm[i + 1].0 == k;
    }
  }

  /** `{...base, ...fm}` read as "copy every property of `fm` onto `base`, in
      order". */
  function Spread(base: Frontmatter, fm: Frontmatter): Frontmatter
    decreases |fm|
  {
    if fm == [] then base else Spread(Set(base, fm[0].0, fm[0].1), fm[1..])
  }

  /** The keys of `ks` that `prior` lacks, in order. */
  function Fresh(ks: seq<string>, prior: seq<string>): (r: seq<string>)
    ensures forall k :: k in r <==> k in ks && k !in prior
  {
    if ks == [] then []
    else if ks[0] in prior then Fresh(ks[1..], prior)
    else [ks[0]] + Fresh(ks[1..], prior)
  }

  lemma HasKeyIff(fm: Frontmatter, k: string)
    ensures HasKey(fm, k) <==> k in Keys(fm)
  {
    if k in Keys(fm) {
      var i :| 0 <= i < |Keys(fm)| && Keys(fm)[i] == k;
      assert fm[i].0 == k;
    }
  }

  lemma {:induction false} GetSet(fm: Frontmatter, k: string, v: Value, k': string)
    ensures Get(Set(fm, k, v), k') == if k' == k then Some(v) else Get(fm, k')
    decreases |fm|
  {
    if fm != [] && fm[0].0 != k {
      GetSet(fm[1..], k, v, k');
      assert Set(fm, k, v)[1..] == Set(fm[1..], k, v);
    } else if fm != [] {
      assert Set(fm, k, v)[1..] == fm[1..];
    }
  }

  lemma {:induction false} FreshSkip(ks: seq<string>, prior: seq<string>, k: string)
    requires k !in ks
    ensures Fresh(ks, prior + [k]) == Fresh(ks, prior)
    decreases |ks|
  {
    if ks != [] {
      FreshSkip(ks[1..], prior, k);
    }
  }

  lemma UniqueHead(fm: Frontmatter)
    requires fm != [] && UniqueKeys(fm)
    ensures fm[0].0 !in Keys(fm[1..])
  {
    var ks := Keys(fm[1..]);
    forall j | 0 <= j < |ks| ensures ks[j] != fm[0].0 {
      assert ks[j] == fm[j + 1].0;
    }
  }

  /** Spreading an object with distinct keys keeps the keys of `base` in place
      and appends the new ones in their original order. */
  lemma {:induction false} SpreadKeys(base: Frontmatter, fm: Frontmatter)
    requires UniqueKeys(fm)
    ensures Keys(Spread(base, fm)) == Keys(base) + Fresh(Keys(fm), Keys(base))
    decreases |fm|
  {
    if fm != [] {
      var k := fm[0].0;
      var base' := Set(base, k, fm[0].1);
      var ks := Keys(fm);
      assert ks == [k] + Keys(fm[1..]);
      assert UniqueKeys(fm[1..]);
      SpreadKeys(base', fm[1..]);
      HasKeyIff(base, k);
      if k !in Keys(base) {
        UniqueHead(fm);
        FreshSkip(Keys(fm[1..]), Keys(base), k);
      }
      FreshStep(Keys(base), k, Keys(fm[1..]), Keys(base'));
    }
  }

  lemma FreshStep(prior: seq<string>, k: string, rest: seq<string>, prior': seq<string>)
    requires k in prior ==> prior' == prior
    requires k !in prior ==> prior' == prior + [k] && Fresh(rest, prior') == Fresh(rest, prior)
    ensures prior' + Fresh(rest, prior') == prior + Fresh([k] + rest, prior)
  {
    assert ([k] + rest)[1..] == rest;
  }

  /** After the spread, a key of `fm` has its value from `fm`, and any other key
      keeps its value in `base`. */
  lemma {:induction false} SpreadGet(base: Frontmatter, fm: Frontmatter, k: string)
    requires UniqueKeys(fm)
    ensures Get(Spread(base, fm), k) == if HasKey(fm, k) then Get(fm, k) else Get(base, k)
    decreases |fm|
  {
    if fm != [] {
      var base' := Set(base, fm[0].0, fm[0].1);
      assert UniqueKeys(fm[1..]);
      SpreadGet(base', fm[1..], k);
      GetSet(base, fm[0].0, fm[0].1, k);
      if fm[0].0 == k {
        assert !HasKey(fm[1..], k);
      } else {
        assert HasKey(fm, k) <==> HasKey(fm[1..], k) by {
          if HasKey(fm, k) {
            var i :| 0 <= i < |fm| && fm[i].0 == k;
            assert fm[1..][i - 1].0 == k;
          }
          if HasKey(fm[1..], k) {
            var i :| 0 <= i < |fm[1..]| && fm[1..][i].0 == k;
            assert fm[i + 1].0 == k;
          }
        }
      }
    }
  }

  /** No string occurs twice. */
  predicate DistinctKeys(ks: seq<string>) {
    forall i, j :: 0 <= i < j < |ks| ==> ks[i] != ks[j]
  }

  lemma UniqueKeysIff(fm: Frontmatter)
    ensures UniqueKeys(fm) <==> DistinctKeys(Keys(fm))
  {
  }

  /** Dropping keys keeps the rest distinct. */
  lemma {:induction false} FreshDistinct(ks: seq<string>, prior: seq<string>)
    requires DistinctKeys(ks)
    ensures DistinctKeys(Fresh(ks, prior))
    decreases |ks|
  {
    if ks != [] {
      assert DistinctKeys(ks[1..]);
      FreshDistinct(ks[1..], prior);
      if ks[0] !in prior {
        assert ks[0] !in ks[1..];
        assert ks[0] !in Fresh(ks[1..], prior);
      }
    }
  }

  /** Two distinct lists with no key in common join to a distinct list. */
  lemma DistinctConcat(a: seq<string>, b: seq<string>)
    requires DistinctKeys(a) && DistinctKeys(b)
    requires forall i :: 0 <= i < |b| ==> b[i] !in a
    ensures DistinctKeys(a + b)
  {
    var c := a + b;
    forall i, j | 0 <= i < j < |c| ensures c[i] != c[j] {
      if j >= |a| && i < |a| {
        assert c[j] == b[j - |a|] && c[i] == a[i];
      } else if i >= |a| {
        assert c[j] == b[j - |a|] && c[i] == b[i - |a|];
      }
    }
  }

  /** Keys none of which `prior` has are all kept. */
  lemma {:induction false} FreshAll(ks: seq<string>, prior: seq<string>)
    requires forall i :: 0 <= i < |ks| ==> ks[i] !in prior
    ensures Fresh(ks, prior) == ks
    decreases |ks|
  {
    if ks != [] {
      FreshAll(ks[1..], prior);
    }
  }

  /** Two objects with the same keys in the same order and the same value
      under every key are the same list of entries. */
  lemma SameEntries(a: Frontmatter, b: Frontmatter)
    requires UniqueKeys(a) && Keys(a) == Keys(b)
    requires forall k :: Get(a, k) == Get(b, k)
    ensures a == b
  {
    assert |a| == |b|;
    assert UniqueKeys(b) by {
      forall i, j | 0 <= i < j < |b| ensures b[i].0 != b[j].0 {
        assert b[i].0 == Keys(b)[i] && a[i].0 == Keys(a)[i];
        assert b[j].0 == Keys(b)[j] && a[j].0 == Keys(a)[j];
      }
    }
    forall i | 0 <= i < |a| ensures a[i] == b[i] {
      assert a[i].0 == Keys(a)[i] == Keys(b)[i] == b[i].0;
      assert Get(a, a[i].0) == Some(a[i].1);
      assert Get(b, b[i].0) == Some(b[i].1);
    }
  }

  /** The integer as decimal digits, with a leading `-` when negative. */
  function IntToString(n: int): (r: string)
    ensures r != []
    decreases if n < 0 then 1 - n else n
  {
    if n < 0 then "-" + IntToString(-n)
    else if n < 10 then [(48 + n) as char]
    else IntToString(n / 10) + [(48 + n % 10) as char]
  }

  /** `String(v)`, the text a template literal shows for `v`. An array shows its
      items joined with commas, where `null` items show as nothing. */
  function ToText(v: Value): string {
    match v
    case Null => "null"
    case Bool(b) => if b then "true" else "false"
    case Num(n) => IntToString(n)
    case Str(s) => s
    case Seq(items) => ItemsText(items)
    case Map(_) => "[object Object]"
  }

  function ItemsText(items: seq<Value>): string
    decreases items
  {
    if items == [] then ""
    else
      var first := if items[0].Null? then "" else ToText(items[0]);
      if |items| == 1 then first else first + "," + ItemsText(items[1..])
  }

  /** The text of a string property, when the property is a string. */
  function GetString(fm: Frontmatter, k: string): (r: Option<string>)
    ensures r.Some? <==> Get(fm, k).Some? && Get(fm, k).value.Str?
  {
    match Get(fm, k)
    case Some(Str(s)) => Some(s)
    case _ => None
  }
}
