/** The chunker of the ingestion pipeline: a byte-offset sliding window of `size`
    bytes that advances by `size - overlap`, trims each window, and stops at the first
    window that reaches the end of the text. */
module Chunker {
  import opened Bytes
  import opened Strings

  /** The end of the window that starts at `start`: `start + size`, clamped to `n`. */
  function WindowEnd(n: nat, size: nat, start: nat): (end: nat)
    ensures end <= n || end == start + size
    ensures end == if start + size > n then n else start + size
  {
    if start + size > n then n else start + size
  }

  /** The untrimmed windows from offset `start` on, as the loop visits them. */
  function WindowsFrom(text: seq<byte>, size: nat, step: nat, start: nat): (ws: seq<seq<byte>>)
    requires 0 < step <= size
    requires start < |text|
    ensures |ws| > 0
    decreases |text| - start
  {
    var end := WindowEnd(|text|, size, start);
    [text[start..end]] + (if end == |text| then [] else WindowsFrom(text, size, step, start + step))
  }

  /** The untrimmed windows of `text`. */
  function Windows(text: seq<byte>, size: int, overlap: int): seq<seq<byte>>
    requires 0 <= overlap < size
  {
    if |text| == 0 then [] else WindowsFrom(text, size, size - overlap, 0)
  }

  function TrimAll(ws: seq<seq<byte>>): (cs: seq<seq<byte>>)
    ensures |cs| == |ws|
  {
    if ws == [] then [] else [TrimSpace(ws[0])] + TrimAll(ws[1..])
  }

  lemma {:induction false} TrimAllAt(ws: seq<seq<byte>>, k: nat)
    requires k < |ws|
    ensures TrimAll(ws)[k] == TrimSpace(ws[k])
  {
    if k > 0 {
      TrimAllAt(ws[1..], k - 1);
    }
  }

  /** The chunks of `text`: its windows, each trimmed of surrounding white space. */
  function Chunks(text: seq<byte>, size: int, overlap: int): seq<seq<byte>>
    requires 0 <= overlap < size
  {
    TrimAll(Windows(text, size, overlap))
  }

  /** The chunk the loop cuts at its `k`-th turn: the trimmed window that starts `k`
      steps into the text (none once the start is past the end). */
  function NthChunk(text: seq<byte>, size: nat, step: nat, k: nat): seq<byte> {
    var start := WindowStart(step, k);
    if start < |text| then TrimSpace(text[start..WindowEnd(|text|, size, start)]) else []
  }

  /** `chunkText`. The configuration loader never checks the relation between the
      two settings, so `0 <= overlap < size` is the caller's obligation: with
      `overlap >= size` the loop of the source never ends on a long text. */
  method ChunkText(text: seq<byte>, size: int, overlap: int) returns (chunks: seq<seq<byte>>)
    requires 0 <= overlap < size
    ensures chunks == Chunks(text, size, overlap)
    ensures forall k :: 0 <= k < |chunks| ==> |chunks[k]| <= size
  {
    var step := size - overlap;
    ghost var n := |Windows(text, size, overlap)|;
    ChunksNonEmpty(text, size, overlap);
    chunks := [];
    var start := 0;
    while start < |text|
      invariant start == WindowStart(step, |chunks|)
      invariant n > 0 ==> start < |text| && |chunks| < n
      invariant n == 0 ==> chunks == []
      invariant forall k :: 0 <= k < |chunks| ==> chunks[k] == NthChunk(text, size, step, k)
      invariant forall k :: 0 <= k < |chunks| ==> |chunks[k]| <= size
      decreases |text| - start
    {
      var end := start + size;
      if end > |text| {
        end := |text|;
      }
      var chunk := TrimSpace(text[start..end]);
      WindowTurn(text, size, overlap, |chunks|);
      assert chunk == NthChunk(text, size, step, |chunks|);
      AppendChunk(text, size, step, chunks);
      chunks := chunks + [chunk];
      if end == |text| {
        break;
      }
      start := start + step;
    }
    ChunksByIndex(text, size, overlap, chunks);
  }

  /** The facts one turn of the loop needs about window `k`: it starts inside the
      text, the next window starts one step later, and a next window exists exactly
      when this one stops short of the end of the text. */
  lemma {:induction false} WindowTurn(text: seq<byte>, size: int, overlap: int, k: nat)
    requires 0 <= overlap < size && k < |Windows(text, size, overlap)|
    ensures WindowStart(size - overlap, k) < |text|
    ensures WindowStart(size - overlap, k + 1) == WindowStart(size - overlap, k) + (size - overlap)
    ensures k + 1 < |Windows(text, size, overlap)| <==> WindowStart(size - overlap, k) + size < |text|
  {
    WindowFromAt(text, size, size - overlap, 0, k);
  }

  /** Appending the next turn's chunk keeps the list in step with the loop. */
  lemma {:induction false} AppendChunk(text: seq<byte>, size: nat, step: nat, chunks: seq<seq<byte>>)
    requires forall k :: 0 <= k < |chunks| ==> chunks[k] == NthChunk(text, size, step, k)
    requires forall k :: 0 <= k < |chunks| ==> |chunks[k]| <= size
    ensures var more := chunks + [NthChunk(text, size, step, |chunks|)];
            (forall k :: 0 <= k < |more| ==> more[k] == NthChunk(text, size, step, k)) &&
            (forall k :: 0 <= k < |more| ==> |more[k]| <= size)
  {
  }

  /** A list of chunks that agrees with the loop's chunk at every turn, and has one per
      window, is the chunk list. */
  lemma {:induction false} ChunksByIndex(text: seq<byte>, size: int, overlap: int, cs: seq<seq<byte>>)
    requires 0 <= overlap < size && |cs| == |Windows(text, size, overlap)|
    requires forall k :: 0 <= k < |cs| ==> cs[k] == NthChunk(text, size, size - overlap, k)
    ensures cs == Chunks(text, size, overlap)
  {
    forall k | 0 <= k < |cs|
      ensures cs[k] == Chunks(text, size, overlap)[k]
    {
      ChunkAt(text, size, overlap, k);
    }
  }

  /** The last window: the rest of the text. */
  lemma {:induction false} LastWindow(text: seq<byte>, size: nat, step: nat, start: nat)
    requires 0 < step <= size && start < |text| && start + size >= |text|
    ensures WindowsFrom(text, size, step, start) == [text[start..]]
  {
    assert text[start..|text|] == text[start..];
  }

  /** A window before the last one: `size` bytes, then the windows one step later. */
  lemma {:induction false} InnerWindow(text: seq<byte>, size: nat, step: nat, start: nat)
    requires 0 < step <= size && start + size < |text|
    ensures WindowsFrom(text, size, step, start) ==
              [text[start..start + size]] + WindowsFrom(text, size, step, start + step)
  {
  }

  // ---- Properties of the windows and chunks ----

  function Max0(x: int): nat {
    if x < 0 then 0 else x
  }

  /** Rounded-up division of a natural number by a positive one. */
  function CeilDiv(a: nat, b: nat): nat
    requires b > 0
    decreases a
  {
    if a == 0 then 0 else if a <= b then 1 else 1 + CeilDiv(a - b, b)
  }

  /** `CeilDiv(a, b)` is the least `c` with `a <= c * b`. */
  lemma {:induction false} CeilDivBounds(a: nat, b: nat)
    requires b > 0
    ensures a <= CeilDiv(a, b) * b
    ensures CeilDiv(a, b) > 0 ==> (CeilDiv(a, b) - 1) * b < a
    decreases a
  {
    if a > b {
      var c := CeilDiv(a - b, b);
      CeilDivBounds(a - b, b);
      assert (c + 1) * b == c * b + b;
      assert c > 0;
      assert (c - 1) * b + b == c * b;
    }
  }

  /** The number of windows from `start` on: one, plus one per further step needed
      before the window end reaches the end of the text. */
  lemma {:induction false} CountFrom(text: seq<byte>, size: nat, step: nat, start: nat)
    requires 0 < step <= size && start < |text|
    ensures |WindowsFrom(text, size, step, start)| == 1 + CeilDiv(Max0(|text| - start - size), step)
    decreases |text| - start
  {
    var x := |text| - start - size;
    if x > 0 {
      CountFrom(text, size, step, start + step);
      assert Max0(x - step) == Max0(|text| - (start + step) - size);
    }
  }

  /** The offset of window `k`: `k` steps of `step` bytes. */
  function WindowStart(step: nat, k: nat): nat
  {
    if k == 0 then 0 else WindowStart(step, k - 1) + step
  }

  lemma {:induction false} WindowStartIsProduct(step: nat, k: nat)
    ensures WindowStart(step, k) == k * step
  {
    if k > 0 {
      WindowStartIsProduct(step, k - 1);
      assert (k - 1) * step + step == k * step;
    }
  }

  /** Window `k` from `start` on begins `k` steps after `start` and ends `size` bytes
      later, clamped to the end of the text; a later window exists exactly when this
      one stops short of the end. */
  lemma {:induction false} WindowFromAt(text: seq<byte>, size: nat, step: nat, start: nat, k: nat)
    requires 0 < step <= size && start < |text|
    requires k < |WindowsFrom(text, size, step, start)|
    ensures start + WindowStart(step, k) < |text|
    ensures WindowsFrom(text, size, step, start)[k] ==
              text[start + WindowStart(step, k)..WindowEnd(|text|, size, start + WindowStart(step, k))]
    ensures k + 1 < |WindowsFrom(text, size, step, start)| <==> start + WindowStart(step, k) + size < |text|
    decreases k
  {
    if start + size >= |text| {
      WindowAtLast(text, size, step, start, k);
    } else if k == 0 {
      WindowAtFirst(text, size, step, start);
    } else {
      InnerWindow(text, size, step, start);
      WindowFromAt(text, size, step, start + step, k - 1);
      WindowAtNext(text, size, step, start, k);
    }
  }

  lemma {:induction false} WindowAtLast(text: seq<byte>, size: nat, step: nat, start: nat, k: nat)
    requires 0 < step <= size && start < |text| && start + size >= |text|
    requires k < |WindowsFrom(text, size, step, start)|
    ensures k == 0 && |WindowsFrom(text, size, step, start)| == 1
    ensures WindowsFrom(text, size, step, start)[0] == text[start..WindowEnd(|text|, size, start)]
  {
    LastWindow(text, size, step, start);
  }

  lemma {:induction false} WindowAtFirst(text: seq<byte>, size: nat, step: nat, start: nat)
    requires 0 < step <= size && start + size < |text|
    ensures 1 < |WindowsFrom(text, size, step, start)|
    ensures WindowsFrom(text, size, step, start)[0] == text[start..WindowEnd(|text|, size, start)]
  {
    InnerWindow(text, size, step, start);
  }

  lemma {:induction false} WindowAtNext(text: seq<byte>, size: nat, step: nat, start: nat, k: nat)
    requires 0 < step <= size && start + size < |text| && 0 < k
    requires WindowsFrom(text, size, step, start) ==
               [text[start..start + size]] + WindowsFrom(text, size, step, start + step)
    requires k - 1 < |WindowsFrom(text, size, step, start + step)|
    requires start + step + WindowStart(step, k - 1) < |text|
    requires WindowsFrom(text, size, step, start + step)[k - 1] ==
               text[start + step + WindowStart(step, k - 1)..WindowEnd(|text|, size, start + step + WindowStart(step, k - 1))]
    requires k - 1 + 1 < |WindowsFrom(text, size, step, start + step)| <==>
               start + step + WindowStart(step, k - 1) + size < |text|
    ensures start + WindowStart(step, k) < |text|
    ensures WindowsFrom(text, size, step, start)[k] ==
              text[start + WindowStart(step, k)..WindowEnd(|text|, size, start + WindowStart(step, k))]
    ensures k + 1 < |WindowsFrom(text, size, step, start)| <==> start + WindowStart(step, k) + size < |text|
  {
    WindowStartShift(step, k);
    ConsAt(text[start..start + size], WindowsFrom(text, size, step, start + step), k);
  }

  lemma {:induction false} ConsAt<T>(x: T, ys: seq<T>, k: nat)
    requires 0 < k <= |ys|
    ensures ([x] + ys)[k] == ys[k - 1] && |[x] + ys| == |ys| + 1
  {
  }

  lemma {:induction false} WindowStartShift(step: nat, k: nat)
    requires k > 0
    ensures WindowStart(step, k) == step + WindowStart(step, k - 1)
  {
  }

  /** The number of chunks: none for empty text, otherwise one plus
      `ceil(max(0, len - size) / (size - overlap))`. */
  lemma {:induction false} ChunkCount(text: seq<byte>, size: int, overlap: int)
    requires 0 <= overlap < size
    ensures |Chunks(text, size, overlap)| ==
              if |text| == 0 then 0 else 1 + CeilDiv(Max0(|text| - size), size - overlap)
  {
    if |text| > 0 {
      CountFrom(text, size, size - overlap, 0);
    }
  }

  /** Empty text has no chunks; any other text has at least one. */
  lemma {:induction false} ChunksNonEmpty(text: seq<byte>, size: int, overlap: int)
    requires 0 <= overlap < size
    ensures |Chunks(text, size, overlap)| == 0 <==> |text| == 0
  {
    ChunkCount(text, size, overlap);
  }

  /** The formula `ceil((len - overlap) / (size - overlap))` holds whenever the text
      is longer than the overlap; a shorter, non-empty text gives one chunk. */
  lemma {:induction false} ChunkCountByOverlap(text: seq<byte>, size: int, overlap: int)
    requires 0 <= overlap < size
    ensures |text| > overlap ==>
              |Chunks(text, size, overlap)| == CeilDiv(|text| - overlap, size - overlap)
    ensures 0 < |text| <= overlap ==> |Chunks(text, size, overlap)| == 1
  {
    ChunkCount(text, size, overlap);
    var n, step := |text|, size - overlap;
    if n > size {
      assert n - overlap - step == n - size;
    }
  }

  /** Chunk `k` is the trimmed slice `text[k * step .. min(k * step + size, len)]` with
      `step = size - overlap`, so it is at most `size` bytes long. */
  lemma {:induction false} ChunkAt(text: seq<byte>, size: int, overlap: int, k: nat)
    requires 0 <= overlap < size
    requires k < |Chunks(text, size, overlap)|
    ensures WindowStart(size - overlap, k) == k * (size - overlap)
    ensures WindowStart(size - overlap, k) < |text|
    ensures Windows(text, size, overlap)[k] ==
              text[WindowStart(size - overlap, k)..WindowEnd(|text|, size, WindowStart(size - overlap, k))]
    ensures Chunks(text, size, overlap)[k] == TrimSpace(Windows(text, size, overlap)[k])
    ensures |Chunks(text, size, overlap)[k]| <= size
  {
    var step := size - overlap;
    WindowFromAt(text, size, step, 0, k);
    WindowStartIsProduct(step, k);
    TrimAllAt(Windows(text, size, overlap), k);
  }

  /** A non-empty text that fits in one window gives exactly one chunk: the trimmed text. */
  lemma {:induction false} ShortText(text: seq<byte>, size: int, overlap: int)
    requires 0 <= overlap < size
    requires 0 < |text| <= size
    ensures Chunks(text, size, overlap) == [TrimSpace(text)]
  {
    assert text[0..|text|] == text;
  }

  /** The documented example: 1200 bytes with size 500 and overlap 50 give three chunks,
      from windows [0, 500), [450, 950) and [900, 1200). */
  lemma {:induction false} Example1200(text: seq<byte>)
    requires |text| == 1200
    ensures |Chunks(text, 500, 50)| == 3
    ensures Windows(text, 500, 50) == [text[0..500], text[450..950], text[900..1200]]
  {
    ChunkCount(text, 500, 50);
    assert CeilDiv(700, 450) == 2;
    var ws := Windows(text, 500, 50);
    WindowFromAt(text, 500, 450, 0, 0);
    WindowFromAt(text, 500, 450, 0, 1);
    WindowFromAt(text, 500, 450, 0, 2);
    assert WindowStart(450, 2) == 900;
  }

  /** Every window but the last is full, and consecutive windows share exactly
      `overlap` bytes: the last `overlap` bytes of window `k` open window `k + 1`. */
  lemma {:induction false} WindowsOverlap(text: seq<byte>, size: int, overlap: int, k: nat)
    requires 0 <= overlap < size
    requires k + 1 < |Windows(text, size, overlap)|
    ensures |Windows(text, size, overlap)[k]| == size
    ensures |Windows(text, size, overlap)[k + 1]| > overlap
    ensures Windows(text, size, overlap)[k][size - overlap..] == Windows(text, size, overlap)[k + 1][..overlap]
  {
    var step := size - overlap;
    var ws := WindowsFrom(text, size, step, 0);
    WindowFromAt(text, size, step, 0, k);
    WindowFromAt(text, size, step, 0, k + 1);
    var s := WindowStart(step, k);
    assert WindowStart(step, k + 1) == s + step;
    SharedBytes(text, ws[k], ws[k + 1], s, size, step);
  }

  /** Two windows `step` apart share the `size - step` bytes where they overlap. */
  lemma {:induction false} SharedBytes(text: seq<byte>, w1: seq<byte>, w2: seq<byte>, s: nat, size: nat, step: nat)
    requires 0 < step <= size && s + size < |text|
    requires w1 == text[s..s + size]
    requires w2 == text[s + step..WindowEnd(|text|, size, s + step)]
    ensures |w2| > size - step
    ensures w1[step..] == w2[..size - step]
  {
    assert forall i :: 0 <= i < size - step ==> w1[step..][i] == text[s + step + i] == w2[..size - step][i];
  }

  /** A window without its first `overlap` bytes. */
  function DropOverlap(w: seq<byte>, overlap: nat): seq<byte> {
    if |w| >= overlap then w[overlap..] else []
  }

  function ConcatDropped(ws: seq<seq<byte>>, overlap: nat): seq<byte> {
    if ws == [] then [] else DropOverlap(ws[0], overlap) + ConcatDropped(ws[1..], overlap)
  }

  /** The first window followed by every later window without its first `overlap` bytes. */
  function Stitch(ws: seq<seq<byte>>, overlap: nat): seq<byte> {
    if ws == [] then [] else ws[0] + ConcatDropped(ws[1..], overlap)
  }

  /** The windows from `start` on, each without its first `overlap` bytes, make up the
      text after `start + overlap`. */
  lemma {:induction false} ConcatDroppedFrom(text: seq<byte>, size: nat, overlap: nat, start: nat)
    requires overlap < size && start < |text| && start + overlap <= |text|
    ensures ConcatDropped(WindowsFrom(text, size, size - overlap, start), overlap) == text[start + overlap..]
    decreases |text| - start
  {
    if start + size >= |text| {
      DroppedLast(text, size, overlap, start);
    } else {
      ConcatDroppedFrom(text, size, overlap, start + (size - overlap));
      DroppedInner(text, size, overlap, start);
    }
  }

  lemma {:induction false} DroppedLast(text: seq<byte>, size: nat, overlap: nat, start: nat)
    requires overlap < size && start < |text| && start + overlap <= |text| && start + size >= |text|
    ensures ConcatDropped(WindowsFrom(text, size, size - overlap, start), overlap) == text[start + overlap..]
  {
    LastWindow(text, size, size - overlap, start);
    assert [text[start..]][1..] == [];
  }

  lemma {:induction false} DroppedInner(text: seq<byte>, size: nat, overlap: nat, start: nat)
    requires overlap < size && start + size < |text|
    requires ConcatDropped(WindowsFrom(text, size, size - overlap, start + (size - overlap)), overlap) ==
             text[start + (size - overlap) + overlap..]
    ensures ConcatDropped(WindowsFrom(text, size, size - overlap, start), overlap) == text[start + overlap..]
  {
    var step := size - overlap;
    var rest := WindowsFrom(text, size, step, start + step);
    InnerWindow(text, size, step, start);
    DroppedCons(text[start..start + size], rest, overlap);
    DropInner(text, start, overlap, start + size, ConcatDropped(rest, overlap));
  }

  lemma {:induction false} DroppedCons(w: seq<byte>, ws: seq<seq<byte>>, overlap: nat)
    ensures ConcatDropped([w] + ws, overlap) == DropOverlap(w, overlap) + ConcatDropped(ws, overlap)
  {
    assert ([w] + ws)[1..] == ws;
  }

  lemma {:induction false} DropInner(text: seq<byte>, start: nat, overlap: nat, end: nat, rest: seq<byte>)
    requires start + overlap <= end <= |text| && rest == text[end..]
    ensures DropOverlap(text[start..end], overlap) + rest == text[start + overlap..]
  {
  }

  /** The windows cover the text with no gap and no repetition beyond the overlap:
      stitching them back together gives the text. (The trimmed chunks need not.) */
  lemma {:induction false} Reconstruct(text: seq<byte>, size: int, overlap: int)
    requires 0 <= overlap < size
    ensures Stitch(Windows(text, size, overlap), overlap) == text
  {
    if |text| > 0 {
      if size >= |text| {
        StitchShort(text, size, overlap);
      } else {
        ConcatDroppedFrom(text, size, overlap, 0 + (size - overlap));
        StitchInner(text, size, overlap);
      }
    }
  }

  lemma {:induction false} StitchShort(text: seq<byte>, size: nat, overlap: nat)
    requires overlap < size && 0 < |text| <= size
    ensures Stitch(WindowsFrom(text, size, size - overlap, 0), overlap) == text
  {
    LastWindow(text, size, size - overlap, 0);
    assert [text[0..]][1..] == [];
    assert text[0..] == text;
  }

  lemma {:induction false} StitchInner(text: seq<byte>, size: nat, overlap: nat)
    requires overlap < size < |text|
    requires ConcatDropped(WindowsFrom(text, size, size - overlap, 0 + (size - overlap)), overlap) ==
             text[0 + (size - overlap) + overlap..]
    ensures Stitch(WindowsFrom(text, size, size - overlap, 0), overlap) == text
  {
    var step := size - overlap;
    InnerWindow(text, size, step, 0);
    var ws := WindowsFrom(text, size, step, 0);
    assert ws[1..] == WindowsFrom(text, size, step, step);
    assert text[0..size] + text[size..] == text;
  }

  /** Trimming can empty a chunk: a window of white space only becomes an empty chunk,
      which the source keeps. */
  lemma {:induction false} BlankWindowGivesEmptyChunk(text: seq<byte>, size: int, overlap: int, k: nat)
    requires 0 <= overlap < size
    requires k < |Windows(text, size, overlap)| && AllSpace(Windows(text, size, overlap)[k])
    ensures Chunks(text, size, overlap)[k] == []
  {
    TrimAllAt(Windows(text, size, overlap), k);
    TrimSpaceSlice(Windows(text, size, overlap)[k]);
  }
}
