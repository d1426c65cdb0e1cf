/** Splitting a document into overlapping chunks of words, and joining the words of a
    chunk into text. */
module Splitter {
  import opened Text

  function Min(m: int, n: int): int {
    if m <= n then m else n
  }

  /** Where chunk `k` starts. */
  function Start(k: nat, step: nat): nat {
    if k == 0 then 0 else Start(k - 1, step) + step
  }

  lemma {:induction false} StartIs(k: nat, step: nat)
    ensures Start(k, step) == k * step
  {
    if k > 0 {
      StartIs(k - 1, step);
      assert (k - 1) * step + step == k * step;
    }
  }

  /** The words of chunk `k` when each chunk starts `step` words after the one before. */
  function Chunk(words: seq<string>, size: nat, step: nat, k: nat): seq<string> {
    var start := Start(k, step);
    if start <= |words| then words[start..Min(start + size, |words|)] else []
  }

  /** Chunk `k` ends before the words do. */
  predicate EndsInside(words: seq<string>, size: nat, step: nat, k: nat) {
    Start(k, step) + size < |words|
  }

  ghost predicate AllInside(words: seq<string>, size: nat, step: nat, n: int) {
    forall k | 0 <= k < n :: EndsInside(words, size, step, k)
  }

  ghost predicate AreChunks(words: seq<string>, chunks: seq<seq<string>>, size: nat, step: nat) {
    forall k | 0 <= k < |chunks| :: chunks[k] == Chunk(words, size, step, k)
  }

  /** The first chunks; all but the last end before the words do. */
  ghost predicate Chunked(words: seq<string>, chunks: seq<seq<string>>, size: nat, step: nat) {
    AreChunks(words, chunks, size, step) && AllInside(words, size, step, |chunks| - 1)
  }

  /** One chunk, and one more for every started step of what is left after it. */
  function ChunkCount(n: nat, size: nat, step: nat): nat
    requires 0 < step
  {
    if n <= size then 1 else (n - size + step - 1) / step + 1
  }

  /** Each chunk of text is the words of its part with single blanks between them. */
  ghost predicate Joined(chunks: seq<string>, parts: seq<seq<string>>) {
    |chunks| == |parts| && forall k | 0 <= k < |chunks| :: chunks[k] == Join(parts[k])
  }

  lemma JoinedAppend(chunks: seq<string>, parts: seq<seq<string>>, part: seq<string>)
    requires Joined(chunks, parts)
    ensures Joined(chunks + [Join(part)], parts + [part])
  {
  }

  lemma AreChunksAppend(words: seq<string>, parts: seq<seq<string>>, size: nat, step: nat, part: seq<string>)
    requires AreChunks(words, parts, size, step) && part == Chunk(words, size, step, |parts|)
    ensures AreChunks(words, parts + [part], size, step)
  {
  }

  /** A text of at most `size` words is one chunk, a longer one is cut into the parts that
      `Complete` describes. An overlap larger than the size makes a longer text panic on a
      slice from a negative index; an equal one would go on for ever. */
  method SplitText(text: string, size: nat, overlap: nat)
    returns (chunks: seq<string>, ghost parts: seq<seq<string>>, panicked: bool)
    requires 0 < size && (overlap != size || |Fields(text)| <= size)
    ensures panicked <==> |Fields(text)| > size && overlap > size
    ensures Joined(chunks, parts)
    ensures Fields(text) == [] ==> chunks == []
    ensures 0 < |Fields(text)| <= size ==> parts == [Fields(text)]
    ensures |Fields(text)| > size && overlap < size ==> Complete(Fields(text), parts, size, size - overlap)
  {
    var words := Fields(text);
    chunks, parts, panicked := [], [], false;
    if |words| == 0 {
      return;
    }
    if |words| <= size {
      return [Join(words)], [words], false;
    }
    var i := 0;
    while i < |words|
      invariant Joined(chunks, parts)
      invariant overlap < size ==> SplitSoFar(words, parts, size, size - overlap, i)
      invariant overlap > size ==> i == 0 || i == size - overlap
      decreases if overlap < size then |words| - i else if i == 0 then 1 else 0
    {
      if i < 0 {
        panicked := true;
        return;
      }
      var end := i + size;
      if end > |words| {
        end := |words|;
      }
      if overlap < size {
        SplitMore(words, parts, size, size - overlap, i);
      }
      JoinedAppend(chunks, parts, words[i..end]);
      chunks := chunks + [Join(words[i..end])];
      parts := parts + [words[i..end]];
      if end == |words| {
        break;
      }
      i := i + (size - overlap);
    }
  }

  /** The loop stands at `i`, with everything before it cut and more than an overlap left. */
  ghost predicate SplitSoFar(words: seq<string>, parts: seq<seq<string>>, size: nat, step: nat, i: int) {
    && 0 < step <= size < |words|
    && i == Start(|parts|, step) && i + (size - step) < |words|
    && AreChunks(words, parts, size, step) && AllInside(words, size, step, |parts|)
  }

  lemma SplitMore(words: seq<string>, parts: seq<seq<string>>, size: nat, step: nat, i: nat)
    requires SplitSoFar(words, parts, size, step, i)
    ensures var end := Min(i + size, |words|);
            var more := parts + [words[i..end]];
            if end == |words| then Complete(words, more, size, step) else SplitSoFar(words, more, size, step, i + step)
  {
    var end := Min(i + size, |words|);
    AreChunksAppend(words, parts, size, step, words[i..end]);
  }

  /** The words of a chunk of text are the words it was made of. */
  lemma ChunkWords(text: string, chunks: seq<string>, parts: seq<seq<string>>, size: nat, step: nat, k: nat)
    requires Joined(chunks, parts) && AreChunks(Fields(text), parts, size, step) && k < |chunks|
    ensures Fields(chunks[k]) == parts[k]
  {
    FieldsAreWords(text);
    assert parts[k] == Chunk(Fields(text), size, step, k);
    FieldsOfJoin(parts[k]);
  }

  // ----- What the chunks amount to -----

  /** The chunks of a sequence of words that is too long for one. */
  ghost predicate Complete(words: seq<string>, chunks: seq<seq<string>>, size: nat, step: nat) {
    && 0 < step <= size < |words| && chunks != [] && Chunked(words, chunks, size, step)
    && Start(|chunks| - 1, step) <= |words| <= Start(|chunks| - 1, step) + size
  }

  lemma Apart(step: nat, p: nat, q: nat)
    requires p < q
    ensures p * step + step <= q * step
  {
    assert (q - p) * step == q * step - p * step;
    assert (q - p - 1) * step == (q - p) * step - step;
  }

  lemma SameQuotient(step: nat, p: nat, r: nat, q: nat, t: nat)
    requires r < step && t < step && p * step + r == q * step + t
    ensures p == q
  {
    if p < q {
      Apart(step, p, q);
    } else if q < p {
      Apart(step, q, p);
    }
  }

  lemma CeilingDivision(n: nat, step: nat, c: nat)
    requires 0 < step && 0 < c && (c - 1) * step < n <= c * step
    ensures (n + step - 1) / step == c
  {
    var m: nat := n + step - 1;
    assert (c - 1) * step == c * step - step;
    assert m == (m / step) * step + m % step;
    SameQuotient(step, c, m - c * step, m / step, m % step);
  }

  /** Exactly ceil((n - size) / step) + 1 chunks. */
  lemma HowManyChunks(words: seq<string>, chunks: seq<seq<string>>, size: nat, step: nat)
    requires Complete(words, chunks, size, step)
    ensures |chunks| == ChunkCount(|words|, size, step)
  {
    var c := |chunks| - 1;
    assert Start(0, step) == 0;
    assert EndsInside(words, size, step, c - 1);
    StartIs(c, step);
    StartIs(c - 1, step);
    CeilingDivision(|words| - size, step, c);
  }

  /** Every chunk has at most `size` words, all but the last exactly `size`, and two
      neighbours share exactly `size - step` words: the end of one is the beginning of
      the next, which goes on beyond it. */
  lemma Neighbours(words: seq<string>, chunks: seq<seq<string>>, size: nat, step: nat, k: nat)
    requires Complete(words, chunks, size, step) && k < |chunks|
    ensures |chunks[k]| <= size && (k < |chunks| - 1 ==> |chunks[k]| == size)
    ensures k > 0 ==>
              var overlap := size - step;
              && overlap < |chunks[k]|
              && chunks[k - 1][step..] == chunks[k][..overlap]
  {
    assert k < |chunks| - 1 ==> EndsInside(words, size, step, k);
    if k > 0 {
      assert EndsInside(words, size, step, k - 1);
      ChunksShare(words, size, step, k);
      assert chunks[k - 1] == Chunk(words, size, step, k - 1);
    }
  }

  lemma ChunksShare(words: seq<string>, size: nat, step: nat, k: nat)
    requires 0 < step <= size && k > 0 && EndsInside(words, size, step, k - 1)
    ensures var overlap, before, after := size - step, Chunk(words, size, step, k - 1), Chunk(words, size, step, k);
            |before| == size && overlap < |after| && before[step..] == after[..overlap]
  {
    var s := Start(k - 1, step);
    assert Start(k, step) == s + step;
  }

  /** The first chunk followed by every other chunk without its first `overlap` words. */
  function Rebuilt(chunks: seq<seq<string>>, overlap: nat): seq<string> {
    if chunks == [] then []
    else if |chunks| == 1 then chunks[0]
    else
      var last := chunks[|chunks| - 1];
      Rebuilt(chunks[..|chunks| - 1], overlap) + (if overlap <= |last| then last[overlap..] else [])
  }

  lemma SlicesJoin(words: seq<string>, s: nat, mid: nat, end: nat)
    requires s <= mid <= end <= |words|
    ensures words[..mid] + words[s..end][mid - s..] == words[..end]
  {
  }

  /** Where the words end that the first `n` chunks hold. */
  function Reach(words: seq<string>, size: nat, step: nat, n: nat): nat
    requires n > 0
  {
    Min(Start(n - 1, step) + size, |words|)
  }

  lemma ChunkAdds(words: seq<string>, size: nat, step: nat, n: nat)
    requires 0 < step <= size && n > 0 && Start(n - 1, step) + size < |words|
    ensures var chunk := Chunk(words, size, step, n);
            && size - step <= |chunk|
            && words[..Reach(words, size, step, n)] + chunk[size - step..] == words[..Reach(words, size, step, n + 1)]
  {
    var s := Start(n, step);
    SlicesJoin(words, s, s + (size - step), Min(s + size, |words|));
  }

  lemma AllButLast(words: seq<string>, chunks: seq<seq<string>>, size: nat, step: nat)
    requires |chunks| > 1 && Chunked(words, chunks, size, step)
    ensures Chunked(words, chunks[..|chunks| - 1], size, step)
    ensures Start(|chunks| - 2, step) + size < |words|
  {
    assert EndsInside(words, size, step, |chunks| - 2);
  }

  lemma {:induction false} RebuiltSoFar(words: seq<string>, chunks: seq<seq<string>>, size: nat, step: nat)
    requires 0 < step <= size < |words| && chunks != [] && Chunked(words, chunks, size, step)
    ensures Rebuilt(chunks, size - step) == words[..Reach(words, size, step, |chunks|)]
  {
    var n := |chunks| - 1;
    assert chunks[n] == Chunk(words, size, step, n);
    if n == 0 {
      assert Start(0, step) == 0;
    } else {
      AllButLast(words, chunks, size, step);
      RebuiltSoFar(words, chunks[..n], size, step);
      ChunkAdds(words, size, step, n);
    }
  }

  /** Removing the overlaps gives back the words of the document. */
  lemma ChunksRebuild(words: seq<string>, chunks: seq<seq<string>>, size: nat, step: nat)
    requires Complete(words, chunks, size, step)
    ensures Rebuilt(chunks, size - step) == words
  {
    RebuiltSoFar(words, chunks, size, step);
  }

  // ----- When the splitter does not finish -----

  /** Where the loop stands after `k` turns that did not end it. */
  function Position(size: int, overlap: int, k: nat): int {
    if k == 0 then 0 else Position(size, overlap, k - 1) + (size - overlap)
  }

  /** The loop ends on its next turn: the chunk there reaches the end of the words, or the
      position has left them. */
  predicate Ends(n: nat, size: int, overlap: int, k: nat) {
    var i := Position(size, overlap, k);
    i >= n || i + size >= n
  }

  lemma {:induction false} PositionSign(size: int, overlap: int, k: nat)
    ensures overlap >= size ==> Position(size, overlap, k) <= 0
    ensures overlap == size ==> Position(size, overlap, k) == 0
    ensures overlap < size ==> Position(size, overlap, k) >= k
  {
    if k > 0 {
      PositionSign(size, overlap, k - 1);
    }
  }

  /** The loop ends on turn `k` and every slice it took up to there lies in the words. */
  ghost predicate Finishes(n: nat, size: int, overlap: int, k: nat) {
    Ends(n, size, overlap, k) && forall j: nat | j <= k :: Position(size, overlap, j) >= 0
  }

  /** On more than `size` words the loop finishes exactly when the overlap is smaller than
      the chunk size. An equal overlap makes it append the first chunk for ever, a larger
      one makes it slice from a negative index on its second turn. */
  lemma FinishesIffOverlapSmaller(n: nat, size: nat, overlap: nat)
    requires 0 < size < n
    ensures (exists k: nat :: Finishes(n, size, overlap, k)) <==> overlap < size
    ensures overlap == size ==> forall k: nat :: Position(size, overlap, k) == 0 && !Ends(n, size, overlap, k)
    ensures overlap > size ==> !Ends(n, size, overlap, 0) && Position(size, overlap, 1) < 0
  {
    assert Position(size, overlap, 1) == size - overlap;
    forall k: nat
      ensures overlap >= size ==> !Ends(n, size, overlap, k)
      ensures overlap == size ==> Position(size, overlap, k) == 0
      ensures overlap < size ==> Position(size, overlap, k) >= k
    {
      PositionSign(size, overlap, k);
    }
    if overlap < size {
      assert Finishes(n, size, overlap, n);
    }
  }

  datatype Config = Config(size: int, overlap: int)

  function NewTokenSplitter(chunkSize: int, chunkOverlap: int): Config {
    Config(if chunkSize <= 0 then 1000 else chunkSize, if chunkOverlap < 0 then 100 else chunkOverlap)
  }

  /** Without sizes of its own a splitter cuts chunks of 1000 words, each with 100 words of
      the one before. */
  lemma DefaultsCutThousands(n: nat)
    ensures var c := NewTokenSplitter(0, -1);
            ChunkCount(n, c.size, c.size - c.overlap) == if n <= 1000 then 1 else (n - 1000 + 899) / 900 + 1
  {
  }

  /** Asking for the default overlap and at most 100 words a chunk gives a splitter that
      finishes on no text longer than a chunk; other chunk sizes always finish. */
  lemma DefaultOverlapNeedsLargeChunks(chunkSize: int, n: nat)
    requires NewTokenSplitter(chunkSize, -1).size < n
    ensures var c := NewTokenSplitter(chunkSize, -1);
            (exists k: nat :: Finishes(n, c.size, c.overlap, k)) <==> (chunkSize <= 0 || chunkSize > 100)
  {
    var c := NewTokenSplitter(chunkSize, -1);
    FinishesIffOverlapSmaller(n, c.size, c.overlap);
  }
}
