/** Text of a JSON document: every object key and every string value, in document
    order, joined by single spaces. */
module JsonText {
  import opened Bytes
  import opened Wrappers
  import opened Strings
  import opened Sources

  const Space: byte := 32

  /** The strings `extractJSONStrings` appends for `v`: a string is itself, an array
      gives its elements' strings in element order, an object gives each key followed
      by its value's strings, and null, booleans and numbers give nothing. */
  function Parts(v: Json): seq<seq<byte>>
    decreases v, 1
  {
    match v
    case Str(s) => [s]
    case Array(es) => ElemParts(es)
    case Object(ms) => MemberParts(ms)
    case _ => []
  }

  function ElemParts(es: seq<Json>): seq<seq<byte>>
    decreases es, 0
  {
    if es == [] then [] else ElemParts(es[..|es| - 1]) + Parts(es[|es| - 1])
  }

  function MemberParts(ms: seq<Member>): seq<seq<byte>>
    decreases ms, 0
  {
    if ms == [] then [] else MemberParts(ms[..|ms| - 1]) + ([ms[|ms| - 1].key] + Parts(ms[|ms| - 1].value))
  }

  /** `extractJSONStrings(v, out)`: appends the strings of `v` to `out`, leaving
      what `out` already holds in place. */
  method ExtractJsonStrings(v: Json, out: seq<seq<byte>>) returns (result: seq<seq<byte>>)
    ensures result == out + Parts(v)
    decreases v, 1
  {
    match v {
      case Str(s) =>
        result := out + [s];
      case Array(es) =>
        result := out;
        for i := 0 to |es|
          invariant result == out + ElemParts(es[..i])
        {
          assert es[..i + 1][..i] == es[..i];
          result := ExtractJsonStrings(es[i], result);
        }
        assert es[..|es|] == es;
      case Object(ms) =>
        result := out;
        for i := 0 to |ms|
          invariant result == out + MemberParts(ms[..i])
        {
          assert ms[..i + 1][..i] == ms[..i];
          result := result + [ms[i].key];
          result := ExtractJsonStrings(ms[i].value, result);
        }
        assert ms[..|ms|] == ms;
      case _ =>
        result := out;
    }
  }

  /** The text of the JSON file at `path`: its strings joined by spaces, or the read
      or parse error. */
  function JsonFileText(fs: FileSystem, path: seq<byte>): Result<seq<byte>> {
    match fs.readFile(path)
    case Err(e) => Err(e)
    case Ok(b) =>
      match fs.parseJson(b)
      case Err(e) => Err(e)
      case Ok(v) => Ok(Join(Parts(v), [Space]))
  }

  /** A read or parse error is the result, unchanged; otherwise the strings of the
      document joined by single spaces. */
  lemma {:induction false} JsonOutcome(fs: FileSystem, path: seq<byte>)
    ensures JsonFileText(fs, path).Err? <==>
              fs.readFile(path).Err? || fs.parseJson(fs.readFile(path).value).Err?
    ensures fs.readFile(path).Err? ==> JsonFileText(fs, path) == Err(fs.readFile(path).error)
    ensures fs.readFile(path).Ok? && fs.parseJson(fs.readFile(path).value).Err? ==>
              JsonFileText(fs, path) == Err(fs.parseJson(fs.readFile(path).value).error)
    ensures fs.readFile(path).Ok? && fs.parseJson(fs.readFile(path).value).Ok? ==>
              JsonFileText(fs, path) == Ok(Join(Parts(fs.parseJson(fs.readFile(path).value).value), [Space]))
  {
  }

  /** `jsonExt.Extract`. */
  method Extract(fs: FileSystem, path: seq<byte>) returns (r: Result<seq<byte>>)
    ensures r == JsonFileText(fs, path)
  {
    var b := fs.readFile(path);
    if b.Err? {
      return Err(b.error);
    }
    var v := fs.parseJson(b.value);
    if v.Err? {
      return Err(v.error);
    }
    var parts := ExtractJsonStrings(v.value, []);
    assert parts == Parts(v.value);
    r := Ok(Join(parts, [Space]));
  }

  // ---- How many strings a document gives ----

  /** The string values of a document. */
  function StringLeaves(v: Json): nat
    decreases v, 1
  {
    match v
    case Str(_) => 1
    case Array(es) => ElemLeaves(es)
    case Object(ms) => MemberLeaves(ms)
    case _ => 0
  }

  function ElemLeaves(es: seq<Json>): nat
    decreases es, 0
  {
    if es == [] then 0 else ElemLeaves(es[1..]) + StringLeaves(es[0])
  }

  function MemberLeaves(ms: seq<Member>): nat
    decreases ms, 0
  {
    if ms == [] then 0 else MemberLeaves(ms[1..]) + StringLeaves(ms[0].value)
  }

  /** The object keys of a document. */
  function Keys(v: Json): nat
    decreases v, 1
  {
    match v
    case Array(es) => ElemKeys(es)
    case Object(ms) => |ms| + MemberKeys(ms)
    case _ => 0
  }

  function ElemKeys(es: seq<Json>): nat
    decreases es, 0
  {
    if es == [] then 0 else ElemKeys(es[1..]) + Keys(es[0])
  }

  function MemberKeys(ms: seq<Member>): nat
    decreases ms, 0
  {
    if ms == [] then 0 else MemberKeys(ms[1..]) + Keys(ms[0].value)
  }

  /** Element and member strings split over a sequence split in two. */
  lemma {:induction false} ElemPartsAppend(a: seq<Json>, b: seq<Json>)
    ensures ElemParts(a + b) == ElemParts(a) + ElemParts(b)
    decreases |b|
  {
    if b == [] {
      assert a + b == a;
    } else {
      var b' := b[..|b| - 1];
      assert (a + b)[..|a + b| - 1] == a + b';
      assert (a + b)[|a + b| - 1] == b[|b| - 1];
      ElemPartsAppend(a, b');
    }
  }

  lemma {:induction false} MemberPartsAppend(a: seq<Member>, b: seq<Member>)
    ensures MemberParts(a + b) == MemberParts(a) + MemberParts(b)
    decreases |b|
  {
    if b == [] {
      assert a + b == a;
    } else {
      var b' := b[..|b| - 1];
      assert (a + b)[..|a + b| - 1] == a + b';
      assert (a + b)[|a + b| - 1] == b[|b| - 1];
      MemberPartsAppend(a, b');
    }
  }

  /** One string per string value and one per object key of the document. */
  lemma {:induction false} PartsCount(v: Json)
    ensures |Parts(v)| == StringLeaves(v) + Keys(v)
    decreases v, 1
  {
    match v
    case Array(es) => ElemPartsCount(es);
    case Object(ms) => MemberPartsCount(ms);
    case _ =>
  }

  lemma {:induction false} ElemPartsCount(es: seq<Json>)
    ensures |ElemParts(es)| == ElemLeaves(es) + ElemKeys(es)
    decreases es, 0
  {
    if es != [] {
      assert es == [es[0]] + es[1..];
      ElemPartsAppend([es[0]], es[1..]);
      assert [es[0]][..0] == [];
      assert ElemParts([es[0]]) == Parts(es[0]);
      PartsCount(es[0]);
      ElemPartsCount(es[1..]);
    }
  }

  lemma {:induction false} MemberPartsCount(ms: seq<Member>)
    ensures |MemberParts(ms)| == MemberLeaves(ms) + |ms| + MemberKeys(ms)
    decreases ms, 0
  {
    if ms != [] {
      assert ms == [ms[0]] + ms[1..];
      MemberPartsAppend([ms[0]], ms[1..]);
      assert [ms[0]][..0] == [];
      assert MemberParts([ms[0]]) == [ms[0].key] + Parts(ms[0].value);
      PartsCount(ms[0].value);
      MemberPartsCount(ms[1..]);
    }
  }

  /** The strings of members with one member taken out of the middle. */
  lemma {:induction false} MemberPartsWithout(before: seq<Member>, m: Member, after: seq<Member>)
    ensures multiset(MemberParts(before + [m] + after))
            == multiset(MemberParts(before + after)) + multiset([m.key] + Parts(m.value))
  {
    var one := MemberParts([m]);
    assert [m][..0] == [] && [m][0] == m;
    assert one == MemberParts([]) + ([m.key] + Parts(m.value));
    MemberPartsAppend(before + [m], after);
    MemberPartsAppend(before, [m]);
    MemberPartsAppend(before, after);
    assert MemberParts(before + [m] + after) == MemberParts(before) + one + MemberParts(after);
  }

  lemma {:induction false} MultisetWithout(init: seq<Member>, m: Member, before: seq<Member>, after: seq<Member>)
    requires multiset(init + [m]) == multiset(before + [m] + after)
    ensures multiset(init) == multiset(before + after)
  {
    var a, b := multiset(init), multiset(before + after);
    assert multiset(init + [m]) == a + multiset{m};
    assert multiset(before + [m] + after) == multiset(before) + multiset{m} + multiset(after);
    assert a + multiset{m} == b + multiset{m};
    assert forall x :: a[x] == (a + multiset{m})[x] - multiset{m}[x];
    assert forall x :: b[x] == (b + multiset{m})[x] - multiset{m}[x];
  }

  lemma {:induction false} MemberOrderStep(init: seq<Member>, m: Member, before: seq<Member>, after: seq<Member>)
    requires multiset(MemberParts(init)) == multiset(MemberParts(before + after))
    ensures multiset(MemberParts(init + [m])) == multiset(MemberParts(before + [m] + after))
  {
    MemberPartsWithout(before, m, after);
    var ms := init + [m];
    assert ms[..|ms| - 1] == init && ms[|ms| - 1] == m;
    assert MemberParts(ms) == MemberParts(init) + ([m.key] + Parts(m.value));
  }

  lemma {:induction false} MemberPartsPermutation(ms: seq<Member>, ms': seq<Member>)
    requires multiset(ms) == multiset(ms')
    ensures multiset(MemberParts(ms)) == multiset(MemberParts(ms'))
    decreases |ms|
  {
    if ms == [] {
      assert |ms'| == |multiset(ms')| == 0;
      assert ms' == [];
    } else {
      var init, m := ms[..|ms| - 1], ms[|ms| - 1];
      assert ms == init + [m];
      assert m in multiset(ms');
      var j :| 0 <= j < |ms'| && ms'[j] == m;
      var before, after := ms'[..j], ms'[j + 1..];
      assert ms' == before + [m] + after;
      MultisetWithout(init, m, before, after);
      MemberPartsPermutation(init, before + after);
      MemberOrderStep(init, m, before, after);
    }
  }

  /** The order in which a `range` visits an object's members changes the order of
      the strings, never which strings there are: for two iteration orders of the same
      members the strings agree as multisets. */
  lemma {:induction false} MemberOrderIrrelevant(ms: seq<Member>, ms': seq<Member>)
    requires multiset(ms) == multiset(ms')
    ensures multiset(Parts(Object(ms))) == multiset(Parts(Object(ms')))
  {
    MemberPartsPermutation(ms, ms');
  }
}
