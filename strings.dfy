/** The byte-level behaviour of the parts of Go's `strings` package that the core
    uses: TrimSpace, TrimPrefix, ToLower, Index, IndexAny, Split and Join. */
module Strings {
  import opened Bytes
  import opened Wrappers

  /** The ASCII white space that `strings.TrimSpace` removes: tab, newline, vertical
      tab, form feed, carriage return and space. */
  predicate IsSpace(b: byte) {
    b == 9 || b == 10 || b == 11 || b == 12 || b == 13 || b == 32
  }

  predicate AllSpace(s: seq<byte>) {
    forall i :: 0 <= i < |s| ==> IsSpace(s[i])
  }

  /** The number of white-space bytes at the front of `s`. */
  function LeadingSpaces(s: seq<byte>): (n: nat)
    ensures n <= |s|
    ensures AllSpace(s[..n])
    ensures n < |s| ==> !IsSpace(s[n])
  {
    if s == [] || !IsSpace(s[0]) then 0
    else
      var m := LeadingSpaces(s[1..]);
      assert s[1..][..m] == s[1..m + 1];
      m + 1
  }

  /** The number of white-space bytes at the end of `s`. */
  function TrailingSpaces(s: seq<byte>): (n: nat)
    ensures n <= |s|
    ensures AllSpace(s[|s| - n..])
    ensures n < |s| ==> !IsSpace(s[|s| - n - 1])
  {
    if s == [] || !IsSpace(s[|s| - 1]) then 0
    else
      var m := TrailingSpaces(s[..|s| - 1]);
      TrailingStep(s, m);
      m + 1
  }

  lemma {:induction false} TrailingStep(s: seq<byte>, m: nat)
    requires s != [] && IsSpace(s[|s| - 1])
    requires m <= |s| - 1 && AllSpace(s[..|s| - 1][|s| - 1 - m..])
    requires m < |s| - 1 ==> !IsSpace(s[..|s| - 1][|s| - 1 - m - 1])
    ensures AllSpace(s[|s| - (m + 1)..])
    ensures m + 1 < |s| ==> !IsSpace(s[|s| - (m + 1) - 1])
  {
    var init := s[..|s| - 1];
    forall i | |s| - (m + 1) <= i < |s|
      ensures IsSpace(s[i])
    {
      if i < |s| - 1 {
        assert s[i] == init[|s| - 1 - m..][i - (|s| - 1 - m)];
      }
    }
    if m + 1 < |s| {
      assert s[|s| - (m + 1) - 1] == init[|s| - 1 - m - 1];
    }
  }

  /** `s` without its leading white space. */
  function TrimLeft(s: seq<byte>): seq<byte>
  {
    if s != [] && IsSpace(s[0]) then TrimLeft(s[1..]) else s
  }

  /** `s` without its trailing white space. */
  function TrimRight(s: seq<byte>): seq<byte>
  {
    if s != [] && IsSpace(s[|s| - 1]) then TrimRight(s[..|s| - 1]) else s
  }

  /** `strings.TrimSpace`: `s` without its leading and trailing white space. */
  function TrimSpace(s: seq<byte>): (r: seq<byte>)
    ensures |r| <= |s|
  {
    TrimLeftIsSuffix(s);
    TrimRightIsPrefix(TrimLeft(s));
    TrimRight(TrimLeft(s))
  }

  lemma {:induction false} TrimLeftIsSuffix(s: seq<byte>)
    ensures TrimLeft(s) == s[LeadingSpaces(s)..]
  {
    if s != [] && IsSpace(s[0]) {
      TrimLeftIsSuffix(s[1..]);
    }
  }

  lemma {:induction false} TrimRightIsPrefix(s: seq<byte>)
    ensures TrimRight(s) == s[..|s| - TrailingSpaces(s)]
  {
    if s != [] && IsSpace(s[|s| - 1]) {
      TrimRightIsPrefix(s[..|s| - 1]);
    }
  }

  /** What TrimSpace keeps: the slice that starts at the first non-space byte and ends
      after the last one, with nothing but white space around it; empty exactly when
      the input is all white space. */
  lemma {:induction false} TrimSpaceSlice(s: seq<byte>)
    ensures LeadingSpaces(s) + |TrimSpace(s)| <= |s|
    ensures TrimSpace(s) == s[LeadingSpaces(s)..LeadingSpaces(s) + |TrimSpace(s)|]
    ensures AllSpace(s[..LeadingSpaces(s)]) && AllSpace(s[LeadingSpaces(s) + |TrimSpace(s)|..])
    ensures TrimSpace(s) == [] <==> AllSpace(s)
    ensures TrimSpace(s) != [] ==> !IsSpace(TrimSpace(s)[0]) && !IsSpace(TrimSpace(s)[|TrimSpace(s)| - 1])
  {
    TrimSpaceKept(s);
    TrimSpaceEmpty(s);
    TrimSpaceEnds(s);
  }

  /** TrimSpace keeps the bytes between the leading and the trailing white space. */
  lemma {:induction false} TrimSpaceKept(s: seq<byte>)
    ensures LeadingSpaces(s) + |TrimSpace(s)| <= |s|
    ensures TrimSpace(s) == s[LeadingSpaces(s)..LeadingSpaces(s) + |TrimSpace(s)|]
    ensures AllSpace(s[LeadingSpaces(s) + |TrimSpace(s)|..])
  {
    TrimSpaceCut(s);
    var a := LeadingSpaces(s);
    var rest := s[a..];
    SuffixSlices(s, a, |rest| - TrailingSpaces(rest));
  }

  /** The trimmed text is what TrimRight leaves of what TrimLeft leaves. */
  lemma {:induction false} TrimSpaceCut(s: seq<byte>)
    ensures TrimSpace(s) == s[LeadingSpaces(s)..][..|s[LeadingSpaces(s)..]| - TrailingSpaces(s[LeadingSpaces(s)..])]
  {
    TrimLeftIsSuffix(s);
    TrimRightIsPrefix(s[LeadingSpaces(s)..]);
  }

  lemma {:induction false} SuffixSlices(s: seq<byte>, a: nat, k: nat)
    requires a + k <= |s|
    ensures s[a..][..k] == s[a..a + k] && s[a..][k..] == s[a + k..]
  {
  }

  lemma {:induction false} TrimSpaceEmpty(s: seq<byte>)
    ensures TrimSpace(s) == [] <==> AllSpace(s)
  {
    var a := LeadingSpaces(s);
    TrimSpaceKept(s);
    if TrimSpace(s) == [] {
      AllSpaceConcat(s[..a], s[a..]);
      assert s[..a] + s[a..] == s;
    }
    if AllSpace(s) {
      assert a == |s|;
    }
  }

  lemma {:induction false} AllSpaceConcat(a: seq<byte>, b: seq<byte>)
    requires AllSpace(a) && AllSpace(b)
    ensures AllSpace(a + b)
  {
    assert forall i :: 0 <= i < |a + b| ==> (a + b)[i] == if i < |a| then a[i] else b[i - |a|];
  }

  lemma {:induction false} TrimSpaceEnds(s: seq<byte>)
    ensures TrimSpace(s) != [] ==> !IsSpace(TrimSpace(s)[0]) && !IsSpace(TrimSpace(s)[|TrimSpace(s)| - 1])
  {
    var a := LeadingSpaces(s);
    var rest := s[a..];
    var m := |rest| - TrailingSpaces(rest);
    TrimSpaceCut(s);
    if TrimSpace(s) != [] {
      assert TrimSpace(s) == rest[..m];
      assert TrimSpace(s)[0] == rest[0] == s[a];
      assert TrimSpace(s)[m - 1] == rest[m - 1];
    }
  }

  /** Trimming twice is trimming once. */
  lemma {:induction false} TrimSpaceIdempotent(s: seq<byte>)
    ensures TrimSpace(TrimSpace(s)) == TrimSpace(s)
  {
    var r := TrimSpace(s);
    TrimSpaceSlice(s);
    if r != [] {
      assert LeadingSpaces(r) == 0;
      assert TrailingSpaces(r) == 0;
    }
  }

  /** A trimmed byte string keeps only bytes of its input, in order, and drops only white space. */
  lemma {:induction false} TrimSpaceKeepsNonSpace(s: seq<byte>, i: nat)
    requires i < |s| && !IsSpace(s[i])
    ensures LeadingSpaces(s) <= i < LeadingSpaces(s) + |TrimSpace(s)|
    ensures TrimSpace(s)[i - LeadingSpaces(s)] == s[i]
  {
    var a, r := LeadingSpaces(s), TrimSpace(s);
    TrimSpaceSlice(s);
    assert forall j :: 0 <= j < a ==> s[..a][j] == s[j];
    assert forall j :: a + |r| <= j < |s| ==> s[a + |r|..][j - a - |r|] == s[j];
  }

  /** Trimming adds no byte. */
  lemma {:induction false} TrimSpaceAvoids(s: seq<byte>, b: byte)
    requires b !in s
    ensures b !in TrimSpace(s)
  {
    TrimSpaceSlice(s);
  }

  predicate HasPrefix(s: seq<byte>, prefix: seq<byte>) {
    |prefix| <= |s| && s[..|prefix|] == prefix
  }

  /** `strings.TrimPrefix`: `s` without `prefix` if it starts with it, else `s`. */
  function TrimPrefix(s: seq<byte>, prefix: seq<byte>): (r: seq<byte>)
    ensures HasPrefix(s, prefix) ==> prefix + r == s
    ensures !HasPrefix(s, prefix) ==> r == s
  {
    if HasPrefix(s, prefix) then
      assert s == s[..|prefix|] + s[|prefix|..];
      s[|prefix|..]
    else s
  }

  /** `strings.ToLower` on ASCII letters; other bytes are kept. */
  function ToLowerByte(b: byte): byte {
    if 65 <= b <= 90 then b + 32 else b
  }

  function ToLower(s: seq<byte>): (r: seq<byte>)
    ensures |r| == |s|
    ensures forall i :: 0 <= i < |s| ==> r[i] == ToLowerByte(s[i])
  {
    if s == [] then [] else [ToLowerByte(s[0])] + ToLower(s[1..])
  }

  /** A sequence without upper-case ASCII letters is its own lowercase. */
  lemma {:induction false} LowercaseFixed(s: seq<byte>)
    requires forall i :: 0 <= i < |s| ==> !(65 <= s[i] <= 90)
    ensures ToLower(s) == s
  {
  }

  predicate OccursAt(s: seq<byte>, sub: seq<byte>, i: int) {
    0 <= i && i + |sub| <= |s| && s[i..i + |sub|] == sub
  }

  /** `sub` occurs somewhere in `s`. */
  predicate Contains(s: seq<byte>, sub: seq<byte>) {
    exists i :: 0 <= i <= |s| && OccursAt(s, sub, i)
  }

  function IndexFrom(s: seq<byte>, sub: seq<byte>, from: nat): (r: Option<nat>)
    requires from <= |s| + 1
    ensures r.Some? ==> from <= r.value && OccursAt(s, sub, r.value)
    ensures r.Some? ==> forall j :: from <= j < r.value ==> !OccursAt(s, sub, j)
    ensures r.None? ==> forall j :: from <= j ==> !OccursAt(s, sub, j)
    decreases |s| + 1 - from
  {
    if from + |sub| > |s| then None
    else if s[from..from + |sub|] == sub then Some(from)
    else IndexFrom(s, sub, from + 1)
  }

  /** `strings.Index`: the first position at which `sub` occurs in `s`, if any. */
  function Index(s: seq<byte>, sub: seq<byte>): (r: Option<nat>)
    ensures r.Some? ==> OccursAt(s, sub, r.value)
    ensures r.Some? ==> forall j :: 0 <= j < r.value ==> !OccursAt(s, sub, j)
    ensures r.None? <==> !Contains(s, sub)
  {
    IndexFrom(s, sub, 0)
  }

  /** `strings.IndexAny`: the first position of a byte of `chars` in `s`, if any. */
  function IndexAny(s: seq<byte>, chars: set<byte>): (r: Option<nat>)
    ensures r.Some? ==> r.value < |s| && s[r.value] in chars
    ensures r.Some? ==> forall j :: 0 <= j < r.value ==> s[j] !in chars
    ensures r.None? ==> forall j :: 0 <= j < |s| ==> s[j] !in chars
  {
    if s == [] then None
    else if s[0] in chars then Some(0)
    else match IndexAny(s[1..], chars)
      case None => None
      case Some(k) => Some(k + 1)
  }

  lemma {:induction false} IndexAnyAt(s: seq<byte>, chars: set<byte>, i: nat)
    requires i < |s| && s[i] in chars
    requires forall j :: 0 <= j < i ==> s[j] !in chars
    ensures IndexAny(s, chars) == Some(i)
  {
  }

  /** `strings.Split` with a one-byte separator: the pieces between separators. */
  function Split(s: seq<byte>, sep: byte): (parts: seq<seq<byte>>)
    ensures |parts| > 0
    ensures forall k :: 0 <= k < |parts| ==> sep !in parts[k]
    decreases |s|
  {
    match IndexAny(s, {sep})
    case None => [s]
    case Some(i) => [s[..i]] + Split(s[i + 1..], sep)
  }

  /** `strings.Join`: the parts with `sep` between consecutive ones. */
  function Join(parts: seq<seq<byte>>, sep: seq<byte>): seq<byte>
  {
    if |parts| == 0 then []
    else if |parts| == 1 then parts[0]
    else parts[0] + sep + Join(parts[1..], sep)
  }

  /** Joining one more part adds the separator and that part. */
  lemma {:induction false} JoinSnoc(parts: seq<seq<byte>>, last: seq<byte>, sep: seq<byte>)
    requires parts != []
    ensures Join(parts + [last], sep) == Join(parts, sep) + sep + last
    decreases |parts|
  {
    var ps := parts + [last];
    if |parts| == 1 {
      assert ps[1..] == [last];
    } else {
      assert ps[1..] == parts[1..] + [last];
      JoinSnoc(parts[1..], last, sep);
    }
  }

  /** Joining the pieces of a split with the separator gives back the input. */
  lemma {:induction false} JoinSplit(s: seq<byte>, sep: byte)
    ensures Join(Split(s, sep), [sep]) == s
    decreases |s|
  {
    match IndexAny(s, {sep})
    case None =>
    case Some(i) =>
      JoinSplit(s[i + 1..], sep);
      assert s == s[..i] + [sep] + s[i + 1..];
  }

  /** Splitting a join of separator-free parts gives back the parts. */
  lemma {:induction false} SplitJoin(parts: seq<seq<byte>>, sep: byte)
    requires |parts| > 0
    requires forall k :: 0 <= k < |parts| ==> sep !in parts[k]
    ensures Split(Join(parts, [sep]), sep) == parts
  {
    if |parts| == 1 {
      assert sep !in parts[0];
    } else {
      var head, tail := parts[0], Join(parts[1..], [sep]);
      var s := head + [sep] + tail;
      assert Join(parts, [sep]) == s;
      SplitJoin(parts[1..], sep);
      assert forall j :: 0 <= j < |head| ==> s[j] == head[j];
      IndexAnyAt(s, {sep}, |head|);
      assert s[..|head|] == head;
      assert s[|head| + 1..] == tail;
    }
  }

  /** `b` occurs in `a + b + c` right after `a`. */
  lemma {:induction false} Occurs(a: seq<byte>, b: seq<byte>, c: seq<byte>)
    ensures OccursAt(a + b + c, b, |a|)
  {
    assert (a + b + c)[|a|..|a| + |b|] == b;
  }

  /** A join of two or more texts starts with the first one. */
  lemma {:induction false} JoinHead(parts: seq<seq<byte>>, sep: seq<byte>)
    requires parts != []
    ensures |Join(parts, sep)| >= |parts[0]|
    ensures Join(parts, sep)[..|parts[0]|] == parts[0]
  {
  }

  /** A join splits at any part boundary into the join before it, the separator and
      the join from there on. */
  lemma {:induction false} JoinAt(parts: seq<seq<byte>>, sep: seq<byte>, k: nat)
    requires 0 < k < |parts|
    ensures Join(parts, sep) == Join(parts[..k], sep) + sep + Join(parts[k..], sep)
    decreases k
  {
    if k == 1 {
      assert parts[..1] == [parts[0]] && parts[1..] == parts[k..];
    } else {
      var tail := parts[1..];
      JoinAt(tail, sep, k - 1);
      assert tail[..k - 1] == parts[..k][1..] && tail[k - 1..] == parts[k..];
      assert parts[..k][0] == parts[0];
    }
  }

  /** Where part `k` starts in a join. */
  function JoinOffset(parts: seq<seq<byte>>, sep: seq<byte>, k: nat): nat
    requires k <= |parts|
  {
    if k == 0 then 0 else |Join(parts[..k], sep)| + |sep|
  }

  /** An occurrence in `s` is an occurrence in `a + s + c`, shifted by `|a|`. */
  lemma {:induction false} OccursWithin(a: seq<byte>, s: seq<byte>, c: seq<byte>, sub: seq<byte>, i: int)
    requires OccursAt(s, sub, i)
    ensures OccursAt(a + s + c, sub, |a| + i)
  {
    assert (a + s + c)[|a| + i..|a| + i + |sub|] == s[i..i + |sub|];
  }

  /** Part `k` of a join sits at its offset. */
  lemma {:induction false} JoinPart(parts: seq<seq<byte>>, sep: seq<byte>, k: nat)
    requires k < |parts|
    ensures OccursAt(Join(parts, sep), parts[k], JoinOffset(parts, sep, k))
  {
    var rest := parts[k..];
    JoinHead(rest, sep);
    assert rest[0] == parts[k];
    if k == 0 {
      assert rest == parts;
    } else {
      JoinAt(parts, sep, k);
      var a := Join(parts[..k], sep) + sep;
      assert Join(parts, sep) == a + Join(rest, sep) + [];
      OccursWithin(a, Join(rest, sep), [], parts[k], 0);
    }
  }

  /** The separator follows every part but the last, and the next part starts right
      after it. */
  lemma {:induction false} JoinSeparator(parts: seq<seq<byte>>, sep: seq<byte>, k: nat)
    requires k + 1 < |parts|
    ensures JoinOffset(parts, sep, k + 1) == JoinOffset(parts, sep, k) + |parts[k]| + |sep|
    ensures OccursAt(Join(parts, sep), sep, JoinOffset(parts, sep, k) + |parts[k]|)
  {
    var upto := parts[..k + 1];
    assert upto[..k] == parts[..k] && upto[k] == parts[k];
    if k == 0 {
      assert Join(upto, sep) == parts[0];
    } else {
      assert parts[..k] + [parts[k]] == upto;
      JoinSnoc(parts[..k], parts[k], sep);
    }
    JoinAt(parts, sep, k + 1);
    Occurs(Join(upto, sep), sep, Join(parts[k + 1..], sep));
  }

  /** The layout of `head + Join(parts, sep) + middle + q`, for template text `head`
      and `middle` around the joined parts. */
  lemma {:induction false} Filled(head: seq<byte>, parts: seq<seq<byte>>, sep: seq<byte>, middle: seq<byte>, q: seq<byte>, k: nat)
    requires k < |parts|
    ensures var p := head + Join(parts, sep) + middle + q;
            OccursAt(p, parts[k], |head| + JoinOffset(parts, sep, k)) &&
            (k + 1 < |parts| ==>
               OccursAt(p, sep, |head| + JoinOffset(parts, sep, k) + |parts[k]|) &&
               JoinOffset(parts, sep, k + 1) == JoinOffset(parts, sep, k) + |parts[k]| + |sep|) &&
            OccursAt(p, q, |p| - |q|)
  {
    FilledPart(head, parts, sep, middle, q, k);
    if k + 1 < |parts| {
      FilledSeparator(head, parts, sep, middle, q, k);
    }
    OccursLast(head + Join(parts, sep) + middle, q);
  }

  lemma {:induction false} FilledPart(head: seq<byte>, parts: seq<seq<byte>>, sep: seq<byte>, middle: seq<byte>, q: seq<byte>, k: nat)
    requires k < |parts|
    ensures OccursAt(head + Join(parts, sep) + middle + q, parts[k], |head| + JoinOffset(parts, sep, k))
  {
    JoinPart(parts, sep, k);
    Regroup(head, Join(parts, sep), middle, q);
    OccursWithin(head, Join(parts, sep), middle + q, parts[k], JoinOffset(parts, sep, k));
  }

  lemma {:induction false} FilledSeparator(head: seq<byte>, parts: seq<seq<byte>>, sep: seq<byte>, middle: seq<byte>, q: seq<byte>, k: nat)
    requires k + 1 < |parts|
    ensures OccursAt(head + Join(parts, sep) + middle + q, sep, |head| + JoinOffset(parts, sep, k) + |parts[k]|)
    ensures JoinOffset(parts, sep, k + 1) == JoinOffset(parts, sep, k) + |parts[k]| + |sep|
  {
    JoinSeparator(parts, sep, k);
    Regroup(head, Join(parts, sep), middle, q);
    OccursWithin(head, Join(parts, sep), middle + q, sep, JoinOffset(parts, sep, k) + |parts[k]|);
  }

  lemma {:induction false} Regroup(a: seq<byte>, b: seq<byte>, c: seq<byte>, d: seq<byte>)
    ensures a + b + c + d == a + b + (c + d)
  {
  }

  lemma {:induction false} OccursLast(a: seq<byte>, q: seq<byte>)
    ensures OccursAt(a + q, q, |a + q| - |q|)
  {
    assert (a + q)[|a|..|a| + |q|] == q;
  }
}
