/** Where the chunks of a document end, and how much of one the next one repeats. */
module ChunkOverlaps {
  import opened Wrappers
  import opened Text
  import opened Chunker

  /** A sentence of more than `size` tokens starts in front of token `at`, ends in front of it, or holds both spans. */
  ghost predicate LongStarts(sentences: seq<Tokens>, size: nat, at: nat) {
    exists k :: 0 <= k < |sentences| && |sentences[k]| > size && Start(sentences, k) == at
  }

  ghost predicate LongEnds(sentences: seq<Tokens>, size: nat, at: nat) {
    exists k :: 0 <= k < |sentences| && |sentences[k]| > size && Start(sentences, k) + |sentences[k]| == at
  }

  ghost predicate LongHolds(sentences: seq<Tokens>, size: nat, a: Span, b: Span) {
    exists k :: 0 <= k < |sentences| && |sentences[k]| > size
                && Start(sentences, k) <= a.lo <= b.lo && a.hi <= b.hi <= Start(sentences, k) + |sentences[k]|
  }

  /** Behind chunk `a` the next chunk starts at token `lo`: it repeats the last `overlap` tokens, or all of a chunk that
      has fewer; behind an oversized sentence, the last `overlap` tokens of the sentence. */
  ghost predicate Resumes(sentences: seq<Tokens>, a: Span, lo: int, size: nat, overlap: nat) {
    lo == a.hi - (if LongEnds(sentences, size, a.hi) then overlap else Min(overlap, a.hi - a.lo))
  }

  /** One chunk after the other: nothing is repeated where an oversized sentence starts, inside it a window starts
      `size - overlap` tokens behind the one before, and elsewhere the overlap is repeated. */
  ghost predicate Joined(sentences: seq<Tokens>, a: Span, b: Span, size: nat, overlap: nat) {
    || (b.lo == a.hi && LongStarts(sentences, size, b.lo))
    || (LongHolds(sentences, size, a, b) && b.lo == a.lo + size - overlap)
    || Resumes(sentences, a, b.lo, size, overlap)
  }

  /** A chunk is a full window of an oversized sentence or its last one, or ends in front of a sentence that would not
      fit any more, or ends the document. */
  ghost predicate Cut(sentences: seq<Tokens>, a: Span, size: nat) {
    || a.hi == Start(sentences, |sentences|)
    || exists k :: 0 <= k < |sentences| && CutAt(sentences, a, size, k)
  }

  predicate CutAt(sentences: seq<Tokens>, a: Span, size: nat, k: nat)
    requires k < |sentences|
  {
    var base, length := Start(sentences, k), |sentences[k]|;
    || (length > size && base <= a.lo < base + length && a.hi == Min(a.lo + size, base + length))
    || (a.hi == base && length > 0 && (a.hi - a.lo) + length > size)
  }

  ghost predicate AllJoined(sentences: seq<Tokens>, spans: seq<Span>, size: nat, overlap: nat) {
    forall i, j :: 0 <= i < |spans| && 0 <= j < |spans| && j == i + 1 ==>
      Joined(sentences, spans[i], spans[j], size, overlap)
  }

  ghost predicate AllCut(sentences: seq<Tokens>, spans: seq<Span>, size: nat) {
    forall i :: 0 <= i < |spans| ==> Cut(sentences, spans[i], size)
  }

  /** The chunks made so far are joined and cut in this way, and the waiting tokens go on where they should. */
  ghost predicate JoinedSoFar(
      sentences: seq<Tokens>, spans: seq<Span>, end: nat, waiting: nat, size: nat, overlap: nat)
  {
    && AllJoined(sentences, spans, size, overlap) && AllCut(sentences, spans, size)
    && (waiting == 0 ==> end == 0) && (end == 0 ==> spans == [])
    && (if spans == [] then waiting == end
        else Resumes(sentences, spans[|spans| - 1], end - waiting, size, overlap))
    && (LongEnds(sentences, size, end) ==> waiting >= overlap)
  }

  lemma JoinOne(sentences: seq<Tokens>, spans: seq<Span>, next: Span, size: nat, overlap: nat)
    requires AllJoined(sentences, spans, size, overlap) && AllCut(sentences, spans, size)
    requires spans == [] || Joined(sentences, spans[|spans| - 1], next, size, overlap)
    requires Cut(sentences, next, size)
    ensures AllJoined(sentences, spans + [next], size, overlap) && AllCut(sentences, spans + [next], size)
  {
    var all := spans + [next];
    forall i, j | 0 <= i < |all| && 0 <= j < |all| && j == i + 1
      ensures Joined(sentences, all[i], all[j], size, overlap)
    {
      if j < |spans| { assert Joined(sentences, spans[i], spans[j], size, overlap); }
    }
  }

  /** The waiting tokens in front of sentence `k` become a chunk, because the sentence does not fit. */
  lemma FlushJoins(sentences: seq<Tokens>, spans: seq<Span>, k: nat, waiting: nat, size: nat, overlap: nat)
    requires k < |sentences| && 0 < overlap < size && |sentences[k]| > 0 && waiting + |sentences[k]| > size
    requires waiting <= Start(sentences, k)
    requires JoinedSoFar(sentences, spans, Start(sentences, k), waiting, size, overlap)
    ensures var all := spans + Flushed(Start(sentences, k), waiting);
            && AllJoined(sentences, all, size, overlap) && AllCut(sentences, all, size)
            && (waiting > 0 ==> all != [] && all[|all| - 1] == Span(Start(sentences, k) - waiting, Start(sentences, k)))
            && (waiting == 0 ==> all == [])
  {
    var end := Start(sentences, k);
    if waiting > 0 {
      var flushed := Span(end - waiting, end);
      assert CutAt(sentences, flushed, size, k);
      JoinOne(sentences, spans, flushed, size, overlap);
    }
  }

  lemma {:induction false} WindowsJoin(
      sentences: seq<Tokens>, spans: seq<Span>, k: nat, base: nat, length: nat, size: nat, overlap: nat, pos: nat,
      all: seq<Span>)
    requires k < |sentences| && base == Start(sentences, k) && length == |sentences[k]|
    requires 0 < overlap < size < length && pos < length
    requires AllJoined(sentences, spans, size, overlap) && AllCut(sentences, spans, size)
    requires spans == []
          || Joined(sentences, spans[|spans| - 1], Span(base + pos, base + Min(pos + size, length)), size, overlap)
    requires all == spans + Windows(base, length, size, overlap, pos)
    ensures AllJoined(sentences, all, size, overlap) && AllCut(sentences, all, size)
    ensures all != [] && all[|all| - 1].hi == base + length
    decreases length - pos
  {
    var first, next := Span(base + pos, base + Min(pos + size, length)), pos + size - overlap;
    assert CutAt(sentences, first, size, k);
    JoinOne(sentences, spans, first, size, overlap);
    WindowsNext(spans, base, length, size, overlap, pos);
    if next < length {
      var second := Span(base + next, base + Min(next + size, length));
      assert LongHolds(sentences, size, first, second);
      WindowsJoin(sentences, spans + [first], k, base, length, size, overlap, next, all);
    } else {
      assert all == spans + [first];
    }
  }

  lemma {:induction false} StartGrows(sentences: seq<Tokens>, j: nat, k: nat)
    requires j < k <= |sentences|
    ensures Start(sentences, j) + |sentences[j]| <= Start(sentences, k)
  {
    if j + 1 < k { StartGrows(sentences, j, k - 1); }
  }

  lemma SameEnd(sentences: seq<Tokens>, j: nat, k: nat)
    requires j < |sentences| && k < |sentences| && |sentences[j]| > 0 && |sentences[k]| > 0
    requires Start(sentences, j) + |sentences[j]| == Start(sentences, k) + |sentences[k]|
    ensures j == k
  {
    if j < k { StartGrows(sentences, j, k); }
    if k < j { StartGrows(sentences, k, j); }
  }

  /** Only one non-empty sentence ends at a token. */
  lemma LongEndsAt(sentences: seq<Tokens>, k: nat, size: nat, end: nat)
    requires k < |sentences| && 0 < |sentences[k]| <= size && end == Start(sentences, k) + |sentences[k]|
    ensures !LongEnds(sentences, size, end)
  {
    if LongEnds(sentences, size, end) {
      var j: nat :| j < |sentences| && |sentences[j]| > size && Start(sentences, j) + |sentences[j]| == end;
      SameEnd(sentences, j, k);
    }
  }

  lemma FirstWindowJoins(
      sentences: seq<Tokens>, last: Span, k: nat, base: nat, first: Span, size: nat, overlap: nat)
    requires k < |sentences| && size < |sentences[k]| && base == Start(sentences, k)
    requires last.hi == base == first.lo
    ensures Joined(sentences, last, first, size, overlap)
  {
    assert LongStarts(sentences, size, base);
  }

  lemma BehindLong(sentences: seq<Tokens>, last: Span, k: nat, end: nat, size: nat, overlap: nat)
    requires k < |sentences| && size < |sentences[k]| && end == Start(sentences, k) + |sentences[k]| == last.hi
    requires 0 < overlap < size
    ensures LongEnds(sentences, size, end) && Resumes(sentences, last, end - overlap, size, overlap)
  {
  }

  lemma LongJoins(
      sentences: seq<Tokens>, spans: seq<Span>, k: nat, base: nat, length: nat, waiting: nat, size: nat, overlap: nat,
      all: seq<Span>)
    requires k < |sentences| && base == Start(sentences, k) && length == |sentences[k]|
    requires 0 < overlap < size < length && waiting <= base
    requires JoinedSoFar(sentences, spans, base, waiting, size, overlap)
    requires all == spans + Made(base, length, waiting, size, overlap)
    ensures JoinedSoFar(sentences, all, base + length, overlap, size, overlap)
  {
    var flushed, first := spans + Flushed(base, waiting), Span(base + 0, base + Min(0 + size, length));
    FlushJoins(sentences, spans, k, waiting, size, overlap);
    MadeLong(spans, base, length, waiting, size, overlap);
    if flushed != [] { FirstWindowJoins(sentences, flushed[|flushed| - 1], k, base, first, size, overlap); }
    WindowsJoin(sentences, flushed, k, base, length, size, overlap, 0, all);
    BehindLong(sentences, all[|all| - 1], k, base + length, size, overlap);
  }

  lemma MadeLong(spans: seq<Span>, base: nat, length: nat, waiting: nat, size: nat, overlap: nat)
    requires overlap < size < length && waiting <= base
    ensures spans + Made(base, length, waiting, size, overlap)
         == spans + Flushed(base, waiting) + Windows(base, length, size, overlap, 0)
  {
  }

  /** Behind a flush in front of a sentence that is no oversized one. */
  lemma BehindFlush(sentences: seq<Tokens>, last: Span, base: nat, waiting: nat, size: nat, overlap: nat)
    requires 0 < waiting <= base && last == Span(base - waiting, base)
    requires LongEnds(sentences, size, base) ==> waiting >= overlap
    ensures Resumes(sentences, last, base - Min(waiting, overlap), size, overlap)
  {
  }

  lemma ShortJoins(
      sentences: seq<Tokens>, spans: seq<Span>, k: nat, base: nat, length: nat, waiting: nat, size: nat, overlap: nat,
      all: seq<Span>, after: nat)
    requires k < |sentences| && base == Start(sentences, k) && length == |sentences[k]|
    requires 0 < overlap < size && 0 < length <= size && waiting <= base
    requires JoinedSoFar(sentences, spans, base, waiting, size, overlap)
    requires all == spans + Made(base, length, waiting, size, overlap)
    requires after == NextWaiting(waiting, length, size, overlap)
    ensures JoinedSoFar(sentences, all, base + length, after, size, overlap)
  {
    LongEndsAt(sentences, k, size, base + length);
    if waiting > 0 && waiting + length > size {
      FlushShort(sentences, spans, k, base, length, waiting, size, overlap, all, after, base + length);
    } else {
      assert all == spans && base + length - after == base - waiting;
    }
  }

  lemma FlushShort(
      sentences: seq<Tokens>, spans: seq<Span>, k: nat, base: nat, length: nat, waiting: nat, size: nat, overlap: nat,
      all: seq<Span>, after: nat, end: nat)
    requires k < |sentences| && base == Start(sentences, k) && length == |sentences[k]| && end == base + length
    requires 0 < overlap < size && 0 < length <= size && 0 < waiting <= base && waiting + length > size
    requires JoinedSoFar(sentences, spans, base, waiting, size, overlap) && !LongEnds(sentences, size, end)
    requires all == spans + Made(base, length, waiting, size, overlap)
    requires after == NextWaiting(waiting, length, size, overlap)
    ensures JoinedSoFar(sentences, all, end, after, size, overlap)
  {
    assert all == spans + Flushed(base, waiting);
    FlushJoins(sentences, spans, k, waiting, size, overlap);
    BehindFlush(sentences, all[|all| - 1], base, waiting, size, overlap);
    assert end - after == base - Min(waiting, overlap);
  }

  lemma SentenceJoins(
      sentences: seq<Tokens>, spans: seq<Span>, k: nat, base: nat, length: nat, waiting: nat, size: nat, overlap: nat,
      all: seq<Span>, after: nat, end: nat)
    requires k < |sentences| && base == Start(sentences, k) && length == |sentences[k]| && end == base + length
    requires 0 < overlap < size && waiting <= base
    requires JoinedSoFar(sentences, spans, base, waiting, size, overlap)
    requires all == spans + Made(base, length, waiting, size, overlap)
    requires after == NextWaiting(waiting, length, size, overlap)
    ensures JoinedSoFar(sentences, all, end, after, size, overlap)
  {
    if length > size {
      LongJoins(sentences, spans, k, base, length, waiting, size, overlap, all);
    } else if length > 0 {
      ShortJoins(sentences, spans, k, base, length, waiting, size, overlap, all, after);
    } else {
      EmptyAdds(spans, base, length, waiting, size, overlap, all, after);
    }
  }

  lemma EmptyAdds(
      spans: seq<Span>, base: nat, length: nat, waiting: nat, size: nat, overlap: nat, all: seq<Span>, after: nat)
    requires overlap < size && waiting <= base && length == 0
    requires all == spans + Made(base, length, waiting, size, overlap)
    requires after == NextWaiting(waiting, length, size, overlap)
    ensures all == spans && after == waiting
  {
  }

  lemma NothingYet(sentences: seq<Tokens>, size: nat, overlap: nat)
    ensures JoinedSoFar(sentences, [], 0, 0, size, overlap)
  {
  }

  lemma {:induction false} SpansJoin(
      sentences: seq<Tokens>, k: nat, size: nat, overlap: nat, spans: seq<Span>, end: nat, waiting: nat)
    requires k <= |sentences| && 0 < overlap < size
    requires spans == SpansUpTo(sentences, k, size, overlap)
    requires end == Start(sentences, k) && waiting == Waiting(sentences, k, size, overlap)
    ensures JoinedSoFar(sentences, spans, end, waiting, size, overlap)
  {
    if k == 0 {
      NothingYet(sentences, size, overlap);
    } else {
      var j := k - 1;
      var before, carried := SpansUpTo(sentences, j, size, overlap), Waiting(sentences, j, size, overlap);
      var base, length := Start(sentences, j), |sentences[j]|;
      SpansJoin(sentences, j, size, overlap, before, base, carried);
      SpansNext(sentences, j, k, size, overlap);
      SentenceJoins(sentences, before, j, base, length, carried, size, overlap, spans, waiting, end);
    }
  }

  lemma LastJoins(
      sentences: seq<Tokens>, spans: seq<Span>, end: nat, waiting: nat, size: nat, overlap: nat, all: seq<Span>)
    requires end == Start(sentences, |sentences|) && waiting <= end && all == spans + Flushed(end, waiting)
    requires JoinedSoFar(sentences, spans, end, waiting, size, overlap)
    ensures AllJoined(sentences, all, size, overlap) && AllCut(sentences, all, size)
  {
    if waiting > 0 {
      var last := Span(end - waiting, end);
      LastIsCut(sentences, last, end, size);
      if spans != [] { ResumesJoined(sentences, spans[|spans| - 1], last, size, overlap); }
      JoinOne(sentences, spans, last, size, overlap);
    } else {
      assert all == spans;
    }
  }

  lemma LastIsCut(sentences: seq<Tokens>, last: Span, end: nat, size: nat)
    requires end == Start(sentences, |sentences|) && last.hi == end
    ensures Cut(sentences, last, size)
  {
  }

  lemma ResumesJoined(sentences: seq<Tokens>, a: Span, b: Span, size: nat, overlap: nat)
    requires Resumes(sentences, a, b.lo, size, overlap)
    ensures Joined(sentences, a, b, size, overlap)
  {
  }

  /** How the chunks of a document overlap, and that none of them stops while the next sentence would still fit. */
  lemma ChunksOverlap(sentences: seq<Tokens>, size: nat, overlap: nat)
    requires 0 < overlap < size
    ensures AllJoined(sentences, AllSpans(sentences, size, overlap), size, overlap)
    ensures AllCut(sentences, AllSpans(sentences, size, overlap), size)
  {
    AllJoin(sentences, size, overlap, AllSpans(sentences, size, overlap));
  }

  lemma AllJoin(sentences: seq<Tokens>, size: nat, overlap: nat, all: seq<Span>)
    requires 0 < overlap < size && all == AllSpans(sentences, size, overlap)
    ensures AllJoined(sentences, all, size, overlap) && AllCut(sentences, all, size)
  {
    var n := |sentences|;
    var spans, end := SpansUpTo(sentences, n, size, overlap), Start(sentences, n);
    var waiting := Waiting(sentences, n, size, overlap);
    SpansJoin(sentences, n, size, overlap, spans, end, waiting);
    LastJoins(sentences, spans, end, waiting, size, overlap, all);
  }
}
