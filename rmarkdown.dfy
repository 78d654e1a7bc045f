/** Text of an R markdown file: executable R chunks are cut out, then every line is
    trimmed and loses one leading `#`. */
module RMarkdown {
  import opened Bytes
  import opened Wrappers
  import opened Strings
  import opened Sources

  const Newline: byte := 10
  const Backtick: byte := 96

  /** The opening of an R chunk and the fence that closes it. */
  /** "```{r" */
  const ChunkOpen: seq<byte> := [Backtick, Backtick, Backtick, 123, 114]
  /** "```" */
  const Fence: seq<byte> := [Backtick, Backtick, Backtick]
  const Hash: seq<byte> := Ascii("#")

  /** What one turn of the removal loop finds: no chunk opening, an opening at
      `start` with no fence after it, or a chunk that spans `start` to `stop`, its
      closing fence included. The fence is searched for from the byte after the
      opening. */
  datatype Turn = NoChunk | Unterminated(start: nat) | Chunk(start: nat, stop: nat)

  function NextTurn(src: seq<byte>): (t: Turn)
    ensures t.Unterminated? ==> t.start <= |src|
    ensures t.Chunk? ==> t.start < t.stop <= |src|
  {
    match Index(src, ChunkOpen)
    case None => NoChunk
    case Some(start) =>
      match Index(src[start + 1..], Fence)
      case None => Unterminated(start)
      case Some(end) => Chunk(start, start + end + 4)
  }

  /** `src` with its R chunks removed one at a time from the front; an unterminated
      chunk cuts off the rest of the text. */
  function StripChunks(src: seq<byte>): (r: seq<byte>)
    ensures |r| <= |src|
    decreases |src|
  {
    match NextTurn(src)
    case NoChunk => src
    case Unterminated(start) => src[..start]
    case Chunk(start, stop) => StripChunks(src[..start] + src[stop..])
  }

  /** The two `strings.Index` calls at the head of the loop body. */
  method FindChunk(src: seq<byte>) returns (turn: Turn)
    ensures turn == NextTurn(src)
  {
    var start := Index(src, ChunkOpen);
    if start.None? {
      return NoChunk;
    }
    var end := Index(src[start.value + 1..], Fence);
    if end.None? {
      return Unterminated(start.value);
    }
    return Chunk(start.value, start.value + end.value + 4);
  }

  lemma {:induction false} StripTurn(src: seq<byte>, start: nat, stop: nat)
    requires NextTurn(src) == Chunk(start, stop)
    ensures StripChunks(src) == StripChunks(src[..start] + src[stop..])
  {
  }

  /** The chunk-removal loop of `rmdExt.Extract`; each turn makes `src` strictly
      shorter. */
  method StripLoop(text: seq<byte>) returns (src: seq<byte>)
    ensures src == StripChunks(text)
  {
    src := text;
    while true
      invariant StripChunks(src) == StripChunks(text)
      decreases |src|
    {
      var turn := FindChunk(src);
      match turn {
        case NoChunk =>
          break;
        case Unterminated(start) =>
          src := src[..start];
          break;
        case Chunk(start, stop) =>
          StripTurn(src, start, stop);
          src := src[..start] + src[stop..];
      }
    }
  }

  /** A turn finds the first opening; a chunk ends with the first fence after it, and
      that fence lies wholly after the opening; an unterminated chunk has no fence
      after its opening at all. */
  lemma {:induction false} TurnFacts(src: seq<byte>)
    ensures NextTurn(src).NoChunk? <==> !Contains(src, ChunkOpen)
    ensures !NextTurn(src).NoChunk? ==>
              OccursAt(src, ChunkOpen, NextTurn(src).start) &&
              forall j :: 0 <= j < NextTurn(src).start ==> !OccursAt(src, ChunkOpen, j)
    ensures NextTurn(src).Unterminated? ==>
              forall j :: NextTurn(src).start < j ==> !OccursAt(src, Fence, j)
    ensures NextTurn(src).Chunk? ==>
              NextTurn(src).start + 5 <= NextTurn(src).stop - 3 &&
              OccursAt(src, Fence, NextTurn(src).stop - 3) &&
              forall j :: NextTurn(src).start < j < NextTurn(src).stop - 3 ==> !OccursAt(src, Fence, j)
  {
    match Index(src, ChunkOpen)
    case None =>
    case Some(start) =>
      var rest := src[start + 1..];
      match Index(rest, Fence)
      case None =>
        forall j | start < j
          ensures !OccursAt(src, Fence, j)
        {
          FenceInRest(src, start, j);
        }
      case Some(end) =>
        ChunkEnd(src, start, end);
        forall j | start < j < start + 1 + end
          ensures !OccursAt(src, Fence, j)
        {
          FenceInRest(src, start, j);
        }
  }

  /** A fence at `j` in `src` is a fence at `j - start - 1` in the text after the
      opening byte. */
  lemma {:induction false} FenceInRest(src: seq<byte>, start: nat, j: nat)
    requires start < j && start < |src|
    ensures OccursAt(src, Fence, j) ==> OccursAt(src[start + 1..], Fence, j - start - 1)
  {
    if OccursAt(src, Fence, j) {
      assert src[j..j + 3] == src[start + 1..][j - start - 1..j - start + 2];
    }
  }

  lemma {:induction false} ChunkEnd(src: seq<byte>, start: nat, end: nat)
    requires Index(src, ChunkOpen) == Some(start)
    requires Index(src[start + 1..], Fence) == Some(end)
    ensures start + 5 <= start + 1 + end && start + end + 4 <= |src|
    ensures OccursAt(src, Fence, start + 1 + end)
  {
    var rest := src[start + 1..];
    var open := src[start..start + 5];
    assert open == ChunkOpen;
    assert rest[2] == open[3] && rest[3] == open[4];
    NotFenceAt(rest, 0, 2);
    NotFenceAt(rest, 1, 3);
    NotFenceAt(rest, 2, 2);
    NotFenceAt(rest, 3, 3);
    SliceOfSuffix(src, start + 1, end, end + 3);
  }

  /** No fence starts within three bytes before a byte that is not a backtick. */
  lemma {:induction false} NotFenceAt(s: seq<byte>, j: nat, p: nat)
    requires j <= p < j + 3 && p < |s| && s[p] != Backtick
    ensures !OccursAt(s, Fence, j)
  {
    if j + 3 <= |s| {
      assert s[j..j + 3][p - j] == s[p];
    }
  }

  lemma {:induction false} SliceOfSuffix(s: seq<byte>, a: nat, i: nat, j: nat)
    requires a <= |s| && i <= j <= |s| - a
    ensures s[a..][i..j] == s[a + i..a + j]
  {
  }

  /** Text without an R chunk is kept as it is. */
  lemma {:induction false} NoChunkKept(src: seq<byte>)
    requires !Contains(src, ChunkOpen)
    ensures StripChunks(src) == src
  {
    TurnFacts(src);
  }

  /** An unterminated chunk cuts the text at its opening. */
  lemma {:induction false} UnterminatedChunk(src: seq<byte>, start: nat)
    requires OccursAt(src, ChunkOpen, start)
    requires forall j :: 0 <= j < start ==> !OccursAt(src, ChunkOpen, j)
    requires forall j :: start < j ==> !OccursAt(src, Fence, j)
    ensures StripChunks(src) == src[..start]
  {
    TurnFacts(src);
    assert Contains(src, ChunkOpen);
    var t := NextTurn(src);
    assert t.start == start;
  }

  /** One turn of the loop: the first opening at `start` and the first fence after it
      ending at `stop` remove the bytes from `start` to `stop`, and the loop goes on
      with what is left. */
  lemma {:induction false} ChunkRemoved(src: seq<byte>, start: nat, stop: nat)
    requires OccursAt(src, ChunkOpen, start)
    requires forall j :: 0 <= j < start ==> !OccursAt(src, ChunkOpen, j)
    requires start + 3 < stop && OccursAt(src, Fence, stop - 3)
    requires forall j :: start < j < stop - 3 ==> !OccursAt(src, Fence, j)
    ensures StripChunks(src) == StripChunks(src[..start] + src[stop..])
  {
    TurnFacts(src);
    assert Contains(src, ChunkOpen);
    var t := NextTurn(src);
    assert t.start == start;
    assert t.Chunk?;
    assert t.stop == stop;
  }

  /** No "```{r" is left after stripping. */
  lemma {:induction false} NoChunkLeft(src: seq<byte>)
    ensures !Contains(StripChunks(src), ChunkOpen)
    decreases |src|
  {
    TurnFacts(src);
    match NextTurn(src)
    case NoChunk =>
    case Unterminated(start) =>
      var p := src[..start];
      forall i | 0 <= i <= |p|
        ensures !OccursAt(p, ChunkOpen, i)
      {
        if OccursAt(p, ChunkOpen, i) {
          assert src[i..i + |ChunkOpen|] == p[i..i + |ChunkOpen|];
          assert OccursAt(src, ChunkOpen, i);
          assert false;
        }
      }
    case Chunk(start, stop) =>
      NoChunkLeft(src[..start] + src[stop..]);
  }

  /** The text kept before a chunk and the text after it can together form a new
      opening: when the kept text ends in "``" and the rest starts with "`{r", the next
      turn removes a chunk that starts two bytes inside the kept text. */
  lemma {:induction false} JunctionCanOpenChunk(before: seq<byte>, after: seq<byte>)
    requires |before| >= 2 && before[|before| - 2..] == [Backtick, Backtick]
    requires |after| >= 3 && after[..3] == [Backtick, 123, 114]
    ensures OccursAt(before + after, ChunkOpen, |before| - 2)
  {
    var s := before + after;
    var i := |before| - 2;
    assert s[i] == before[i] && s[i + 1] == before[i + 1];
    assert s[i + 2] == after[0] && s[i + 3] == after[1] && s[i + 4] == after[2];
  }

  /** A line after the rewrite: trimmed, then without one leading `#`. */
  function CleanLine(l: seq<byte>): seq<byte> {
    TrimPrefix(TrimSpace(l), Hash)
  }

  /** A rewritten line holds only bytes of the line it came from. */
  lemma {:induction false} CleanLineWithin(l: seq<byte>, b: byte)
    requires b !in l
    ensures b !in CleanLine(l)
  {
    TrimSpaceAvoids(l, b);
    var t := TrimSpace(l);
    if HasPrefix(t, Hash) {
      assert CleanLine(l) == t[1..];
    }
  }

  /** "## x" is rewritten to "# x": only the first `#` goes. */
  lemma {:induction false} CleanLineExample()
    ensures CleanLine(Ascii("## x")) == Ascii("# x")
  {
    var l := Ascii("## x");
    assert LeadingSpaces(l) == 0 && TrailingSpaces(l) == 0;
    TrimSpaceSlice(l);
    assert TrimSpace(l) == l;
    assert HasPrefix(l, Hash);
  }

  function CleanLines(lines: seq<seq<byte>>): (r: seq<seq<byte>>)
    ensures |r| == |lines|
  {
    seq(|lines|, k requires 0 <= k < |lines| => CleanLine(lines[k]))
  }

  /** The text of an R markdown source. */
  function RmdText(src: seq<byte>): seq<byte> {
    Join(CleanLines(Split(StripChunks(src), Newline)), [Newline])
  }

  /** The rewrite keeps the lines: the text has as many lines as the stripped source,
      and line `k` of it is line `k` of the stripped source, rewritten. */
  lemma {:induction false} LinesPreserved(src: seq<byte>)
    ensures |Split(RmdText(src), Newline)| == |Split(StripChunks(src), Newline)|
    ensures forall k :: 0 <= k < |Split(RmdText(src), Newline)| ==>
              Split(RmdText(src), Newline)[k] == CleanLine(Split(StripChunks(src), Newline)[k])
  {
    var lines := Split(StripChunks(src), Newline);
    var cleaned := CleanLines(lines);
    forall k | 0 <= k < |cleaned|
      ensures Newline !in cleaned[k]
    {
      CleanLineWithin(lines[k], Newline);
    }
    SplitJoin(cleaned, Newline);
  }

  /** The text of the R markdown file at `path`, or the read error. */
  function RmdFileText(fs: FileSystem, path: seq<byte>): Result<seq<byte>> {
    match fs.readFile(path)
    case Err(e) => Err(e)
    case Ok(b) => Ok(RmdText(b))
  }

  /** A read error is the result, unchanged; otherwise the rewritten text. */
  lemma {:induction false} RmdOutcome(fs: FileSystem, path: seq<byte>)
    ensures RmdFileText(fs, path).Err? <==> fs.readFile(path).Err?
    ensures fs.readFile(path).Err? ==> RmdFileText(fs, path) == Err(fs.readFile(path).error)
    ensures fs.readFile(path).Ok? ==> RmdFileText(fs, path) == Ok(RmdText(fs.readFile(path).value))
  {
  }

  /** The line loop of `rmdExt.Extract`: every line is rewritten in place. */
  method RewriteLines(lines: array<seq<byte>>)
    modifies lines
    ensures forall k :: 0 <= k < lines.Length ==> lines[k] == CleanLine(old(lines[k]))
  {
    for i := 0 to lines.Length
      invariant forall k :: 0 <= k < i ==> lines[k] == CleanLine(old(lines[k]))
      invariant forall k :: i <= k < lines.Length ==> lines[k] == old(lines[k])
    {
      lines[i] := TrimPrefix(TrimSpace(lines[i]), Hash);
    }
  }

  /** `rmdExt.Extract`: chunk removal, then the line rewrite. */
  method Extract(fs: FileSystem, path: seq<byte>) returns (r: Result<seq<byte>>)
    ensures r == RmdFileText(fs, path)
  {
    var b := fs.readFile(path);
    if b.Err? {
      return Err(b.error);
    }
    var src := StripLoop(b.value);
    var parts := Split(src, Newline);
    var lines := new seq<byte>[|parts|](k requires 0 <= k < |parts| => parts[k]);
    RewriteLines(lines);
    assert lines[..] == CleanLines(parts);
    r := Ok(Join(lines[..], [Newline]));
  }
}
