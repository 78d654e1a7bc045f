/** The parts of Go's `path/filepath` package that the core uses, for slash-separated
    paths: Ext, Base and Dir. */
module FilePath {
  import opened Bytes
  import opened Strings

  const Slash: byte := 47
  const Dot: byte := 46

  /** `filepath.Ext`: the suffix of the last path element that starts at its last dot,
      or empty when that element has no dot. */
  function Ext(path: seq<byte>): (e: seq<byte>)
    ensures |e| <= |path| && e == path[|path| - |e|..]
    ensures e != [] ==> e[0] == Dot
    ensures forall i :: 0 < i < |e| ==> e[i] != Dot && e[i] != Slash
  {
    if path == [] then []
    else
      var c := path[|path| - 1];
      if c == Slash then []
      else if c == Dot then [c]
      else
        var e := Ext(path[..|path| - 1]);
        if e == [] then [] else e + [c]
  }

  /** Ext is empty exactly when the last element holds no dot. */
  lemma {:induction false} ExtEmpty(path: seq<byte>)
    ensures Ext(path) == [] <==> forall i :: LastSlashEnd(path) <= i < |path| ==> path[i] != Dot
  {
    if path != [] {
      var c := path[|path| - 1];
      if c != Slash && c != Dot {
        var p := path[..|path| - 1];
        ExtEmpty(p);
        LastSlashEndPrefix(path);
        assert forall i :: LastSlashEnd(path) <= i < |p| ==> p[i] == path[i];
      }
    }
  }

  /** The position just after the last slash of `path`, or 0 without one. */
  function LastSlashEnd(path: seq<byte>): (n: nat)
    ensures n <= |path|
    ensures n > 0 ==> path[n - 1] == Slash
    ensures forall i :: n <= i < |path| ==> path[i] != Slash
  {
    if path == [] then 0
    else if path[|path| - 1] == Slash then |path|
    else LastSlashEnd(path[..|path| - 1])
  }

  lemma {:induction false} LastSlashEndPrefix(path: seq<byte>)
    requires path != [] && path[|path| - 1] != Slash
    ensures LastSlashEnd(path) == LastSlashEnd(path[..|path| - 1])
  {
  }

  /** `path` with its trailing slashes removed. */
  function StripTrailingSlashes(path: seq<byte>): (r: seq<byte>)
    ensures |r| <= |path| && r == path[..|r|]
    ensures r != [] ==> r[|r| - 1] != Slash
    ensures forall i :: |r| <= i < |path| ==> path[i] == Slash
  {
    if path == [] || path[|path| - 1] != Slash then path
    else StripTrailingSlashes(path[..|path| - 1])
  }

  /** `filepath.Base`: the last element of `path` after trailing slashes are removed;
      "." for the empty path and "/" for a path of slashes. */
  function Base(path: seq<byte>): (b: seq<byte>)
    ensures b != []
    ensures path != [] && path[|path| - 1] != Slash && LastSlashEnd(path) < |path| ==>
              b == path[LastSlashEnd(path)..]
  {
    if path == [] then [Dot]
    else
      var p := StripTrailingSlashes(path);
      var b := p[LastSlashEnd(p)..];
      if b == [] then [Slash] else b
  }

  /** `filepath.Dir` for clean slash-separated paths: everything before the last slash,
      without trailing slashes; "." without a slash and "/" for a top-level entry. */
  function Dir(path: seq<byte>): (d: seq<byte>)
    ensures d != []
  {
    var n := LastSlashEnd(path);
    if n == 0 then [Dot]
    else
      var d := StripTrailingSlashes(path[..n]);
      if d == [] then [Slash] else d
  }

  /** A final element that ends in `e`, a dot followed by neither dots nor slashes,
      has extension `e`. */
  lemma {:induction false} ExtOfSuffix(prefix: seq<byte>, e: seq<byte>)
    requires e != [] && e[0] == Dot
    requires forall i :: 0 < i < |e| ==> e[i] != Dot && e[i] != Slash
    ensures Ext(prefix + e) == e
    decreases |e|
  {
    var p := prefix + e;
    assert p[|p| - 1] == e[|e| - 1];
    if |e| > 1 {
      var e' := e[..|e| - 1];
      assert p[..|p| - 1] == prefix + e';
      ExtOfSuffix(prefix, e');
    }
  }

  /** The position after the last slash does not move when slash-free bytes are
      appended. */
  lemma {:induction false} LastSlashEndAppend(x: seq<byte>, name: seq<byte>)
    requires Slash !in name
    ensures LastSlashEnd(x + name) == LastSlashEnd(x)
    decreases |name|
  {
    if name == [] {
      assert x + name == x;
    } else {
      var n' := name[..|name| - 1];
      assert (x + name)[|x + name| - 1] == name[|name| - 1];
      assert (x + name)[..|x + name| - 1] == x + n';
      LastSlashEndAppend(x, n');
    }
  }

  /** The directory of `dir/name` is `dir`. */
  lemma {:induction false} DirOfChild(dir: seq<byte>, name: seq<byte>)
    requires dir != [] && dir[|dir| - 1] != Slash
    requires Slash !in name
    ensures Dir(dir + [Slash] + name) == dir
  {
    var x := dir + [Slash];
    LastSlashEndAppend(x, name);
    assert (x + name)[..|x|] == x;
    assert x[..|x| - 1] == dir;
  }
}
