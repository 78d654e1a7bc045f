/** Text of a Python, R or MATLAB script: every line loses what follows its first `#`
    or `%` and is trimmed. */
module Script {
  import opened Bytes
  import opened Wrappers
  import opened Strings
  import opened Sources

  const Newline: byte := 10
  const Hash: byte := 35
  const Percent: byte := 37

  /** The bytes that start a comment. */
  const CommentStart: set<byte> := {Hash, Percent}

  /** A line after the rewrite: cut at the first comment byte, then trimmed. */
  function CodeLine(l: seq<byte>): seq<byte> {
    match IndexAny(l, CommentStart)
    case None => TrimSpace(l)
    case Some(idx) => TrimSpace(l[..idx])
  }

  /** A rewritten line is the trimmed code before the first comment byte: no comment
      byte, no white space at either end, and nothing but bytes of the line. */
  lemma {:induction false} CodeLineShape(l: seq<byte>)
    ensures Hash !in CodeLine(l) && Percent !in CodeLine(l)
    ensures CodeLine(l) == [] || (!IsSpace(CodeLine(l)[0]) && !IsSpace(CodeLine(l)[|CodeLine(l)| - 1]))
    ensures forall b :: b !in l ==> b !in CodeLine(l)
  {
    var code := match IndexAny(l, CommentStart) case None => l case Some(idx) => l[..idx];
    assert CodeLine(l) == TrimSpace(code);
    assert Hash !in code && Percent !in code;
    TrimSpaceAvoids(code, Hash);
    TrimSpaceAvoids(code, Percent);
    TrimSpaceSlice(code);
    forall b | b !in l
      ensures b !in CodeLine(l)
    {
      TrimSpaceAvoids(code, b);
    }
  }

  /** A line without a comment byte is only trimmed. */
  lemma {:induction false} CodeWithoutComment(l: seq<byte>)
    requires Hash !in l && Percent !in l
    ensures CodeLine(l) == TrimSpace(l)
  {
  }

  function CodeLines(lines: seq<seq<byte>>): (r: seq<seq<byte>>)
    ensures |r| == |lines|
  {
    seq(|lines|, k requires 0 <= k < |lines| => CodeLine(lines[k]))
  }

  /** The text of a script. */
  function ScriptText(src: seq<byte>): seq<byte> {
    Join(CodeLines(Split(src, Newline)), [Newline])
  }

  /** The rewrite keeps the lines: line `k` of the text is line `k` of the source,
      rewritten, and the text carries no comment byte. */
  lemma {:induction false} ScriptLines(src: seq<byte>)
    ensures |Split(ScriptText(src), Newline)| == |Split(src, Newline)|
    ensures forall k :: 0 <= k < |Split(src, Newline)| ==>
              Split(ScriptText(src), Newline)[k] == CodeLine(Split(src, Newline)[k])
    ensures Hash !in ScriptText(src) && Percent !in ScriptText(src)
  {
    var code := CodeLines(Split(src, Newline));
    forall k | 0 <= k < |code|
      ensures Newline !in code[k] && Hash !in code[k] && Percent !in code[k]
    {
      CodeLineShape(Split(src, Newline)[k]);
    }
    SplitJoin(code, Newline);
    JoinAvoids(code, Newline, Hash);
    JoinAvoids(code, Newline, Percent);
  }

  /** Parts and a separator without `b` join into a text without `b`. */
  lemma {:induction false} JoinAvoids(parts: seq<seq<byte>>, sep: byte, b: byte)
    requires sep != b
    requires forall k :: 0 <= k < |parts| ==> b !in parts[k]
    ensures b !in Join(parts, [sep])
    decreases |parts|
  {
    if |parts| > 1 {
      JoinAvoids(parts[1..], sep, b);
      assert b !in parts[0] + [sep];
    }
  }

  /** The text of the script at `path`, or the read error. */
  function ScriptFileText(fs: FileSystem, path: seq<byte>): Result<seq<byte>> {
    match fs.readFile(path)
    case Err(e) => Err(e)
    case Ok(b) => Ok(ScriptText(b))
  }

  /** A read error is the result, unchanged; otherwise the rewritten text. */
  lemma {:induction false} ScriptOutcome(fs: FileSystem, path: seq<byte>)
    ensures ScriptFileText(fs, path).Err? <==> fs.readFile(path).Err?
    ensures fs.readFile(path).Err? ==> ScriptFileText(fs, path) == Err(fs.readFile(path).error)
    ensures fs.readFile(path).Ok? ==> ScriptFileText(fs, path) == Ok(ScriptText(fs.readFile(path).value))
  {
  }

  /** The loop of `codeExt.Extract`: every line is rewritten in place. */
  method RewriteLines(lines: array<seq<byte>>)
    modifies lines
    ensures forall k :: 0 <= k < lines.Length ==> lines[k] == CodeLine(old(lines[k]))
  {
    for i := 0 to lines.Length
      invariant forall k :: 0 <= k < i ==> lines[k] == CodeLine(old(lines[k]))
      invariant forall k :: i <= k < lines.Length ==> lines[k] == old(lines[k])
    {
      var l := lines[i];
      var idx := IndexAny(l, CommentStart);
      if idx.Some? {
        l := l[..idx.value];
      }
      lines[i] := TrimSpace(l);
    }
  }

  /** `codeExt.Extract`. */
  method Extract(fs: FileSystem, path: seq<byte>) returns (r: Result<seq<byte>>)
    ensures r == ScriptFileText(fs, path)
  {
    var b := fs.readFile(path);
    if b.Err? {
      return Err(b.error);
    }
    var parts := Split(b.value, Newline);
    var lines := new seq<byte>[|parts|](k requires 0 <= k < |parts| => parts[k]);
    RewriteLines(lines);
    assert lines[..] == CodeLines(parts);
    r := Ok(Join(lines[..], [Newline]));
  }
}
