/** The sliding-window chunker of `utils/text_chunker.py`: the text is split
    into whitespace-separated words, and windows of `chunkSize` words are
    taken every `chunkSize - overlap` words until a window reaches the end. */
module TextChunker {
  import opened Wrappers
  import opened PyStr

  /** The error Python's `range` raises when the step `chunk_size - overlap` is zero. */
  datatype ChunkError = ZeroStep

  /** Python's `words[start:start + size]` for a start inside the list: a
      negative end counts from the back, and the end is clipped to the list. */
  function Window(words: seq<string>, start: nat, size: int): (w: seq<string>)
    requires start <= |words|
    ensures 0 <= size ==> w == words[start..Min(start + size, |words|)]
  {
    var end := start + size;
    var stop := if end >= 0 then Min(end, |words|) else if end + |words| >= 0 then end + |words| else 0;
    if stop <= start then [] else words[start..stop]
  }

  /** `k * step`, written as repeated addition so that proofs about window
      starts stay linear. */
  function Offset(step: nat, k: nat): nat {
    if k == 0 then 0 else Offset(step, k - 1) + step
  }

  lemma {:induction false} OffsetIsProduct(step: nat, k: nat)
    ensures Offset(step, k) == k * step
  {
    if k > 0 {
      OffsetIsProduct(step, k - 1);
    }
  }

  /** The windows the loop emits from start `i` on: one window per start
      `i, i + step, ...` below the word count, stopping after the first
      window that reaches the end. */
  function WindowsFrom(words: seq<string>, size: int, step: nat, i: nat): (ws: seq<seq<string>>)
    requires step >= 1
    ensures |ws| == 0 <==> i >= |words|
    decreases |words| - i
  {
    if i >= |words| then []
    else if i + size >= |words| then [Window(words, i, size)]
    else [Window(words, i, size)] + WindowsFrom(words, size, step, i + step)
  }

  /** Window `k` of the loop started at `i` is the window starting `k` steps after `i`. */
  lemma {:induction false} WindowsFromAt(words: seq<string>, size: int, step: nat, i: nat, k: nat)
    requires step >= 1
    requires k < |WindowsFrom(words, size, step, i)|
    ensures i + Offset(step, k) < |words|
    ensures WindowsFrom(words, size, step, i)[k] == Window(words, i + Offset(step, k), size)
    decreases k
  {
    if k > 0 {
      WindowsFromNext(words, size, step, i, k);
      WindowsFromAt(words, size, step, i + step, k - 1);
      OffsetShift(step, k);
      assert i + step + Offset(step, k - 1) == i + Offset(step, k);
    }
  }

  /** Window `k > 0` of the loop started at `i` is window `k - 1` of the loop started a step later. */
  lemma {:induction false} WindowsFromNext(words: seq<string>, size: int, step: nat, i: nat, k: nat)
    requires step >= 1
    requires 0 < k < |WindowsFrom(words, size, step, i)|
    ensures k - 1 < |WindowsFrom(words, size, step, i + step)|
    ensures WindowsFrom(words, size, step, i)[k] == WindowsFrom(words, size, step, i + step)[k - 1]
  {
    var rest := WindowsFrom(words, size, step, i + step);
    assert WindowsFrom(words, size, step, i) == [Window(words, i, size)] + rest;
  }


  /** Every window but the last is full: it stops short of the end. */
  lemma {:induction false} WindowsFromFull(words: seq<string>, size: int, step: nat, i: nat)
    requires step >= 1
    ensures var ws := WindowsFrom(words, size, step, i);
      forall k | 0 <= k < |ws| - 1 :: i + Offset(step, k) + size < |words|
    decreases |words| - i
  {
    var ws := WindowsFrom(words, size, step, i);
    if i < |words| && i + size < |words| {
      WindowsFromFull(words, size, step, i + step);
      forall k | 0 <= k < |ws| - 1 ensures i + Offset(step, k) + size < |words| {
        if k > 0 {
          OffsetShift(step, k);
        }
      }
    }
  }

  /** With a step no larger than the window, the last window reaches the end. */
  lemma {:induction false} WindowsFromLast(words: seq<string>, size: nat, step: nat, i: nat)
    requires 1 <= step <= size
    ensures var ws := WindowsFrom(words, size, step, i);
      |ws| > 0 ==> i + Offset(step, |ws| - 1) + size >= |words|
    decreases |words| - i
  {
    var ws := WindowsFrom(words, size, step, i);
    if i < |words| && i + size < |words| {
      var rest := WindowsFrom(words, size, step, i + step);
      WindowsFromLast(words, size, step, i + step);
      assert |rest| > 0;
      assert |ws| == |rest| + 1;
      OffsetShift(step, |ws| - 1);
    }
  }

  /** The loop stops only when it must: after the last window, either that
      window reached the end (the early break) or the next start is past the
      last word (the end of `range`). */
  lemma {:induction false} WindowsFromStop(words: seq<string>, size: int, step: nat, i: nat)
    requires step >= 1
    ensures var ws := WindowsFrom(words, size, step, i);
      |ws| > 0 ==> i + Offset(step, |ws| - 1) + size >= |words| || i + Offset(step, |ws|) >= |words|
    decreases |words| - i
  {
    var ws := WindowsFrom(words, size, step, i);
    if i < |words| && i + size < |words| {
      var rest := WindowsFrom(words, size, step, i + step);
      assert |ws| == |rest| + 1;
      OffsetShift(step, |ws|);
      if |rest| > 0 {
        WindowsFromStop(words, size, step, i + step);
        OffsetShift(step, |ws| - 1);
      }
    }
  }

  /** How many windows there are: every window but the last stops short of
      the end, and after the last one the loop had to stop. Together with the
      window starts this fixes the number of windows. */
  lemma {:induction false} WindowsCount(words: seq<string>, size: int, step: nat)
    requires step >= 1
    ensures var ws := Windows(words, size, step);
      && (forall k | 0 <= k < |ws| - 1 :: k * step + size < |words|)
      && (|ws| > 0 ==> (|ws| - 1) * step + size >= |words| || |ws| * step >= |words|)
  {
    var ws := Windows(words, size, step);
    WindowsFromFull(words, size, step, 0);
    forall k | 0 <= k < |ws| - 1 ensures k * step + size < |words| {
      OffsetIsProduct(step, k);
    }
    if |ws| > 0 {
      WindowsFromStop(words, size, step, 0);
      OffsetIsProduct(step, |ws| - 1);
      OffsetIsProduct(step, |ws|);
    }
  }

  lemma {:induction false} OffsetShift(step: nat, k: nat)
    requires k >= 1
    ensures Offset(step, k) == step + Offset(step, k - 1)
  {
  }

  /** The windows of `words` for a positive size and step. */
  function Windows(words: seq<string>, size: int, step: nat): seq<seq<string>>
    requires step >= 1
  {
    WindowsFrom(words, size, step, 0)
  }

  /** Window `k` starts at word `k * step`. */
  lemma {:induction false} WindowsAt(words: seq<string>, size: int, step: nat)
    requires step >= 1
    ensures var ws := Windows(words, size, step);
      forall k | 0 <= k < |ws| :: k * step < |words| && ws[k] == Window(words, k * step, size)
  {
    var ws := Windows(words, size, step);
    forall k | 0 <= k < |ws| ensures k * step < |words| && ws[k] == Window(words, k * step, size) {
      WindowsFromAt(words, size, step, 0, k);
      OffsetIsProduct(step, k);
    }
  }

  /** `chunk_text(text, chunk_size, overlap)`: the windows of the text's words,
      each joined with single spaces. A zero step is the error `range` raises;
      a negative step makes `range` empty. For a positive step, window `k`
      starts at word `k * step`; every window but the last stops short of the
      end, and the last one either reaches the end (the early break) or is the
      last start `range` yields, which fixes the number of chunks. */
  function ChunkText(text: string, chunkSize: int, overlap: int): (r: Result<seq<string>, ChunkError>)
    ensures r.Failure? <==> overlap == chunkSize
    ensures overlap > chunkSize ==> r == Success([])
    ensures overlap < chunkSize ==>
      var words := SplitWhitespace(text);
      var step := chunkSize - overlap;
      && r.Success?
      && (forall k | 0 <= k < |r.value| ::
            k * step < |words| && r.value[k] == Join(" ", Window(words, k * step, chunkSize)))
      && (|r.value| == 0 <==> |words| == 0)
      && (forall k | 0 <= k < |r.value| - 1 :: k * step + chunkSize < |words|)
      && (|r.value| > 0 ==> (|r.value| - 1) * step + chunkSize >= |words| || |r.value| * step >= |words|)
  {
    var words := SplitWhitespace(text);
    var step := chunkSize - overlap;
    if step == 0 then Failure(ZeroStep)
    else if step < 0 then Success([])
    else
      var ws := Windows(words, chunkSize, step);
      WindowsAt(words, chunkSize, step);
      WindowsCount(words, chunkSize, step);
      Success(JoinEach(ws))
  }

  /** Each window joined with single spaces. */
  function JoinEach(ws: seq<seq<string>>): (cs: seq<string>)
    ensures |cs| == |ws|
    ensures forall k | 0 <= k < |ws| :: cs[k] == Join(" ", ws[k])
  {
    seq(|ws|, k requires 0 <= k < |ws| => Join(" ", ws[k]))
  }

  // ------------------------------------------------------------ properties

  /** The words of each chunk, read back with `str.split()`. */
  function ChunkWords(chunks: seq<string>): (ws: seq<seq<string>>)
    ensures |ws| == |chunks|
  {
    seq(|chunks|, k requires 0 <= k < |chunks| => SplitWhitespace(chunks[k]))
  }

  /** Every element is a whitespace-free, non-empty word. */
  predicate AllWords(w: seq<string>) {
    forall j | 0 <= j < |w| :: IsWord(w[j])
  }

  /** Every window of a list of words is a list of words. */
  lemma {:induction false} WindowsAllWords(words: seq<string>, size: int, step: nat)
    requires step >= 1
    requires AllWords(words)
    ensures var ws := Windows(words, size, step);
      forall k | 0 <= k < |ws| :: AllWords(ws[k])
  {
    var ws := Windows(words, size, step);
    forall k | 0 <= k < |ws| ensures AllWords(ws[k]) {
      WindowsFromAt(words, size, step, 0, k);
      var start := Offset(step, k);
      forall j | 0 <= j < |ws[k]| ensures IsWord(ws[k][j]) {
        assert ws[k][j] == words[start + j];
      }
    }
  }

  /** Lists of words joined with single spaces and split again are the lists themselves. */
  lemma {:induction false} JoinEachReadBack(ws: seq<seq<string>>)
    requires forall k | 0 <= k < |ws| :: AllWords(ws[k])
    ensures ChunkWords(JoinEach(ws)) == ws
  {
    var cw := ChunkWords(JoinEach(ws));
    forall k | 0 <= k < |ws| ensures cw[k] == ws[k] {
      SplitJoinWords(ws[k]);
    }
  }

  /** Splitting each chunk again gives back exactly its window of words. */
  lemma {:induction false} ChunkTextWords(text: string, chunkSize: int, overlap: int)
    requires 1 <= chunkSize && overlap < chunkSize
    ensures var words := SplitWhitespace(text);
      ChunkWords(ChunkText(text, chunkSize, overlap).value) == Windows(words, chunkSize, chunkSize - overlap)
  {
    var words := SplitWhitespace(text);
    var step := chunkSize - overlap;
    var ws := Windows(words, chunkSize, step);
    assert ChunkText(text, chunkSize, overlap).value == JoinEach(ws);
    WindowsAllWords(words, chunkSize, step);
    JoinEachReadBack(ws);
  }

  /** Blank text, and only blank text, gives no chunks. */
  lemma {:induction false} ChunkTextBlank(text: string, chunkSize: int, overlap: int)
    requires 1 <= chunkSize && overlap < chunkSize
    ensures ChunkText(text, chunkSize, overlap).value == [] <==>
      forall i | 0 <= i < |text| :: IsSpace(text[i])
  {
    var words := SplitWhitespace(text);
    var step := chunkSize - overlap;
    assert |WindowsFrom(words, chunkSize, step, 0)| == 0 <==> |words| == 0;
  }

  /** Text of at most `chunkSize` words is one chunk: its words joined by single spaces. */
  lemma {:induction false} ChunkTextSingle(text: string, chunkSize: int, overlap: int)
    requires 1 <= chunkSize && overlap < chunkSize
    requires 1 <= |SplitWhitespace(text)| <= chunkSize
    ensures ChunkText(text, chunkSize, overlap) == Success([Join(" ", SplitWhitespace(text))])
  {
    var words := SplitWhitespace(text);
    var step := chunkSize - overlap;
    assert Window(words, 0, chunkSize) == words;
    assert Windows(words, chunkSize, step) == [words];
    var chunks := ChunkText(text, chunkSize, overlap).value;
    assert |chunks| == 1;
    assert chunks[0] == Join(" ", words);
    assert chunks == [Join(" ", words)];
  }

  /** Every window holds between one and `size` words, and all but the last exactly `size`. */
  lemma {:induction false} WindowsSizes(words: seq<string>, size: nat, step: nat)
    requires size >= 1 && step >= 1
    ensures var ws := Windows(words, size, step);
      && (forall k | 0 <= k < |ws| :: 1 <= |ws[k]| <= size)
      && (forall k | 0 <= k < |ws| - 1 :: |ws[k]| == size)
  {
    var ws := Windows(words, size, step);
    WindowsFromFull(words, size, step, 0);
    forall k | 0 <= k < |ws| ensures 1 <= |ws[k]| <= size && (k < |ws| - 1 ==> |ws[k]| == size) {
      WindowsFromAt(words, size, step, 0, k);
    }
  }

  /** Every chunk has at most `chunkSize` words, and all but the last exactly `chunkSize`. */
  lemma {:induction false} ChunkTextSizes(text: string, chunkSize: int, overlap: int)
    requires 1 <= chunkSize && overlap < chunkSize
    ensures var cw := ChunkWords(ChunkText(text, chunkSize, overlap).value);
      && (forall k | 0 <= k < |cw| :: 1 <= |cw[k]| <= chunkSize)
      && (forall k | 0 <= k < |cw| - 1 :: |cw[k]| == chunkSize)
  {
    ChunkTextWords(text, chunkSize, overlap);
    WindowsSizes(SplitWhitespace(text), chunkSize, chunkSize - overlap);
  }

  /** The last of `ws`, if any, is a suffix of `words`. */
  predicate LastIsSuffix(ws: seq<seq<string>>, words: seq<string>) {
    |ws| > 0 ==> |ws[|ws| - 1]| <= |words| && ws[|ws| - 1] == words[|words| - |ws[|ws| - 1]|..]
  }

  /** With a step no larger than the window, the last window is the rest of the words. */
  lemma {:induction false} WindowsLast(words: seq<string>, size: nat, step: nat)
    requires 1 <= step <= size
    ensures LastIsSuffix(Windows(words, size, step), words)
  {
    var ws := Windows(words, size, step);
    if |ws| > 0 {
      var last := ws[|ws| - 1];
      WindowsFromAt(words, size, step, 0, |ws| - 1);
      WindowsFromLast(words, size, step, 0);
      var start := Offset(step, |ws| - 1);
      assert last == words[start..];
      assert |words| - |last| == start;
    }
  }

  /** With `0 <= overlap`, the last chunk ends at the last word: its words are a
      suffix of the text's words, so there is no gap at the end. */
  lemma {:induction false} ChunkTextReachesEnd(text: string, chunkSize: int, overlap: int)
    requires 0 <= overlap < chunkSize
    ensures LastIsSuffix(ChunkWords(ChunkText(text, chunkSize, overlap).value), SplitWhitespace(text))
  {
    ChunkTextWords(text, chunkSize, overlap);
    WindowsLast(SplitWhitespace(text), chunkSize, chunkSize - overlap);
  }

  /** Window `k + 1` of `ws` begins with the `n` words of window `k` that
      follow its first `step` words. */
  predicate SharesWithNext(ws: seq<seq<string>>, k: nat, step: nat, n: nat)
    requires k + 1 < |ws|
  {
    step <= |ws[k]| && n <= |ws[k + 1]| && |ws[k][step..]| == n && ws[k][step..] == ws[k + 1][..n]
  }

  /** Consecutive windows share `size - step` words: the tail of window `k`
      after its first `step` words is the head of window `k + 1`. */
  lemma {:induction false} WindowsOverlap(words: seq<string>, size: nat, step: nat)
    requires 1 <= step <= size
    ensures var ws := Windows(words, size, step);
      var n: nat := size - step;
      forall k | 0 <= k < |ws| - 1 :: SharesWithNext(ws, k, step, n)
  {
    var ws := Windows(words, size, step);
    WindowsFromFull(words, size, step, 0);
    var n: nat := size - step;
    forall k | 0 <= k < |ws| - 1
      ensures SharesWithNext(ws, k, step, n)
    {
      WindowsFromAt(words, size, step, 0, k);
      WindowsFromAt(words, size, step, 0, k + 1);
      OffsetShift(step, k + 1);
      var s := Offset(step, k);
      assert ws[k] == words[s..s + size];
      assert ws[k][step..] == words[s + step..s + size];
      assert ws[k + 1][..n] == words[s + step..s + size];
    }
  }

  /** With `0 <= overlap`, consecutive chunks share exactly `overlap` words: the
      words of chunk `k` after its first `chunkSize - overlap` are the first words of chunk `k + 1`. */
  lemma {:induction false} ChunkTextOverlap(text: string, chunkSize: int, overlap: int)
    requires 0 <= overlap < chunkSize
    ensures var step := chunkSize - overlap;
      var cw := ChunkWords(ChunkText(text, chunkSize, overlap).value);
      forall k | 0 <= k < |cw| - 1 :: SharesWithNext(cw, k, step, overlap)
  {
    ChunkTextWords(text, chunkSize, overlap);
    WindowsOverlap(SplitWhitespace(text), chunkSize, chunkSize - overlap);
  }

  /** The chunks with their overlaps removed: the first `step` words of every
      chunk but the last, then the whole last chunk. */
  function Stitch(ws: seq<seq<string>>, step: nat): seq<string>
    decreases |ws|
  {
    if |ws| == 0 then []
    else if |ws| == 1 then ws[0]
    else ws[0][..Min(step, |ws[0]|)] + Stitch(ws[1..], step)
  }

  lemma {:induction false} StitchCons(w: seq<string>, rest: seq<seq<string>>, step: nat)
    requires |rest| > 0 && step <= |w|
    ensures Stitch([w] + rest, step) == w[..step] + Stitch(rest, step)
  {
    assert ([w] + rest)[1..] == rest;
  }

  lemma {:induction false} StitchWindowsFrom(words: seq<string>, size: nat, step: nat, i: nat)
    requires 1 <= step <= size && i <= |words|
    ensures Stitch(WindowsFrom(words, size, step, i), step) == words[i..]
    decreases |words| - i
  {
    if i == |words| {
      assert WindowsFrom(words, size, step, i) == [];
    } else if i + size >= |words| {
      assert Window(words, i, size) == words[i..];
      assert WindowsFrom(words, size, step, i) == [Window(words, i, size)];
    } else {
      var ws := WindowsFrom(words, size, step, i);
      var rest := WindowsFrom(words, size, step, i + step);
      StitchWindowsFrom(words, size, step, i + step);
      var w := words[i..i + size];
      assert Min(i + size, |words|) == i + size;
      assert |w| == size;
      assert ws == [w] + rest;
      StitchCons(w, rest, step);
      assert w[..step] == words[i..i + step];
      assert words[i..] == words[i..i + step] + words[i + step..];
    }
  }

  /** With `0 <= overlap`, dropping each chunk's overlap with its successor and
      concatenating gives back every word of the text exactly once, in order. */
  lemma {:induction false} ChunkTextReconstructs(text: string, chunkSize: int, overlap: int)
    requires 0 <= overlap < chunkSize
    ensures Stitch(ChunkWords(ChunkText(text, chunkSize, overlap).value), chunkSize - overlap)
      == SplitWhitespace(text)
  {
    var words := SplitWhitespace(text);
    ChunkTextWords(text, chunkSize, overlap);
    StitchWindowsFrom(words, chunkSize, chunkSize - overlap, 0);
  }
}
