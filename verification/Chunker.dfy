/** Splitting a document into overlapping chunks of whole tokens, from its sentences on. */
module Chunker {
  import opened Wrappers
  import opened Text

  type Token = string
  type Tokens = seq<Token>

  datatype Metadata = Metadata(department: string, classification: int, sourceTrust: string, effectiveDate: string)

  datatype Chunk = Chunk(index: nat, documentId: string, text: string, pageNumber: int, metadata: Option<Metadata>)

  /** The tokens of the document, sentence after sentence. */
  function Flatten(sentences: seq<Tokens>): Tokens {
    if sentences == [] then [] else Flatten(sentences[..|sentences| - 1]) + sentences[|sentences| - 1]
  }

  lemma FlattenNext(sentences: seq<Tokens>, k: nat)
    requires k < |sentences|
    ensures Flatten(sentences[..k + 1]) == Flatten(sentences[..k]) + sentences[k]
  {
    assert sentences[..k + 1][..k] == sentences[..k];
  }

  lemma {:induction false} FlattenPrefix(sentences: seq<Tokens>, k: nat)
    requires k <= |sentences|
    ensures Flatten(sentences[..k]) <= Flatten(sentences)
    decreases |sentences| - k
  {
    if k < |sentences| {
      FlattenNext(sentences, k);
      FlattenPrefix(sentences, k + 1);
    } else {
      assert sentences[..k] == sentences;
    }
  }

  /** `s[-n:]` for n > 0. */
  function LastOf(s: Tokens, n: nat): Tokens { if |s| <= n then s else s[|s| - n..] }

  function Min(a: int, b: int): int { if a <= b then a else b }

  /** Which tokens of the document a chunk holds. */
  datatype Span = Span(lo: nat, hi: nat)

  function MakeChunk(tokens: Tokens, span: Span, index: nat, documentId: string, page: int, meta: Option<Metadata>)
    : Chunk
    requires span.lo <= span.hi <= |tokens|
  {
    Chunk(index, documentId, Join(" ", tokens[span.lo..span.hi]), page, meta)
  }

  predicate Within(spans: seq<Span>, end: nat) {
    forall i :: 0 <= i < |spans| ==> spans[i].lo < spans[i].hi <= end
  }

  /** Each chunk is the joined text of its span; the chunks are numbered from 0. */
  function Render(tokens: Tokens, spans: seq<Span>, documentId: string, page: int, meta: Option<Metadata>)
    : (r: seq<Chunk>)
    requires Within(spans, |tokens|)
    ensures |r| == |spans|
  {
    seq(|spans|, i requires 0 <= i < |spans| => MakeChunk(tokens, spans[i], i, documentId, page, meta))
  }

  // ---- The spans that the algorithm makes ------------------------------------------------------

  /** The number of tokens in the first `k` sentences. */
  function Start(sentences: seq<Tokens>, k: nat): nat
    requires k <= |sentences|
  {
    if k == 0 then 0 else Start(sentences, k - 1) + |sentences[k - 1]|
  }

  /** How many tokens wait after a sentence of `length` tokens, if `carried` tokens waited before it. */
  function NextWaiting(carried: nat, length: nat, size: nat, overlap: nat): nat {
    if length == 0 then carried
    else if length > size then overlap
    else if carried > 0 && carried + length > size then Min(carried, overlap) + length
    else carried + length
  }

  function Waiting(sentences: seq<Tokens>, k: nat, size: nat, overlap: nat): (r: nat)
    requires k <= |sentences| && overlap <= size
    ensures r <= Start(sentences, k)
  {
    if k == 0 then 0
    else NextWaiting(Waiting(sentences, k - 1, size, overlap), |sentences[k - 1]|, size, overlap)
  }

  /** The windows over one oversized sentence of `length` tokens that starts at `base`, from `pos` on. */
  function Windows(base: nat, length: nat, size: nat, overlap: nat, pos: nat): seq<Span>
    requires overlap < size
    decreases length - pos
  {
    if pos >= length then []
    else [Span(base + pos, base + Min(pos + size, length))]
         + Windows(base, length, size, overlap, pos + size - overlap)
  }

  function Flushed(end: nat, count: nat): seq<Span>
    requires count <= end
  {
    if count > 0 then [Span(end - count, end)] else []
  }

  /** The spans made while reading a sentence of `length` tokens that starts at `base`. */
  function Made(base: nat, length: nat, carried: nat, size: nat, overlap: nat): seq<Span>
    requires carried <= base && overlap < size
  {
    if length > size then Flushed(base, carried) + Windows(base, length, size, overlap, 0)
    else if length > 0 && carried > 0 && carried + length > size then Flushed(base, carried)
    else []
  }

  function SpansUpTo(sentences: seq<Tokens>, k: nat, size: nat, overlap: nat): seq<Span>
    requires k <= |sentences| && overlap < size
  {
    if k == 0 then []
    else SpansUpTo(sentences, k - 1, size, overlap)
         + Made(Start(sentences, k - 1), |sentences[k - 1]|, Waiting(sentences, k - 1, size, overlap), size, overlap)
  }

  function AllSpans(sentences: seq<Tokens>, size: nat, overlap: nat): seq<Span>
    requires overlap < size
  {
    var n := |sentences|;
    SpansUpTo(sentences, n, size, overlap) + Flushed(Start(sentences, n), Waiting(sentences, n, size, overlap))
  }

  lemma {:induction false} FlattenLength(sentences: seq<Tokens>, k: nat)
    requires k <= |sentences|
    ensures |Flatten(sentences[..k])| == Start(sentences, k)
  {
    if k > 0 {
      FlattenNext(sentences, k - 1);
      FlattenLength(sentences, k - 1);
    }
  }

  // ---- Coverage ------------------------------------------------------------------------------------

  /** Where the spans end, provided that each of them starts no later than the spans before it end, so that
      no token is skipped, ends no earlier than they do, and holds between one and `limit` tokens. */
  function CoveredTo(spans: seq<Span>, limit: nat): Option<nat> {
    if spans == [] then Some(0)
    else
      var last, before := spans[|spans| - 1], CoveredTo(spans[..|spans| - 1], limit);
      if before.Some? && last.lo <= before.value <= last.hi && last.lo < last.hi && last.hi - last.lo <= limit
      then Some(last.hi) else None
  }

  lemma Extend(spans: seq<Span>, next: Span, limit: nat)
    requires CoveredTo(spans, limit).Some?
    requires next.lo < next.hi && next.hi - next.lo <= limit && next.lo <= CoveredTo(spans, limit).value <= next.hi
    ensures CoveredTo(spans + [next], limit) == Some(next.hi)
  {
    assert (spans + [next])[..|spans|] == spans;
  }

  /** Each span starts no later than the one before it ends, and ends no earlier. */
  predicate Linked(spans: seq<Span>) {
    forall i, j :: 0 <= i < |spans| && 0 <= j < |spans| && j == i + 1 ==> spans[j].lo <= spans[i].hi <= spans[j].hi
  }

  /** Non-empty slices of `end` tokens, from the first to the last without a gap, their ends non-decreasing. */
  predicate DocumentCovered(spans: seq<Span>, end: nat, limit: nat) {
    && Within(spans, end) && AllFit(spans, limit) && Linked(spans)
    && (spans == [] <==> end == 0)
    && (spans != [] ==> spans[0].lo == 0 && spans[|spans| - 1].hi == end)
  }

  /** The same, span by span. */
  lemma {:induction false} CoversUpTo(spans: seq<Span>, limit: nat)
    requires CoveredTo(spans, limit).Some?
    ensures DocumentCovered(spans, CoveredTo(spans, limit).value, limit)
  {
    if spans != [] {
      var last, rest := spans[|spans| - 1], spans[..|spans| - 1];
      CoversUpTo(rest, limit);
      forall i | 0 <= i < |spans|
        ensures spans[i].lo < spans[i].hi <= last.hi && spans[i].hi - spans[i].lo <= limit
      {
        if i < |rest| { assert rest[i].lo < rest[i].hi && rest[i].hi - rest[i].lo <= limit; }
      }
      forall i, j | 0 <= i < |spans| && 0 <= j < |spans| && j == i + 1
        ensures spans[j].lo <= spans[i].hi <= spans[j].hi
      {
        if j < |rest| { assert rest[j].lo <= rest[i].hi <= rest[j].hi; } else { assert rest[i] == spans[i]; }
      }
    }
  }

  predicate AllFit(spans: seq<Span>, size: nat) {
    forall i :: 0 <= i < |spans| ==> spans[i].hi - spans[i].lo <= size
  }

  lemma FirstWindow(spans: seq<Span>, base: nat, length: nat, size: nat, overlap: nat, pos: nat, limit: nat)
    requires overlap < size <= limit && pos < length && CoveredTo(spans, limit).Some?
    requires base + pos <= CoveredTo(spans, limit).value <= base + Min(pos + overlap, length)
    ensures var first, next := Span(base + pos, base + Min(pos + size, length)), pos + size - overlap;
            && CoveredTo(spans + [first], limit) == Some(first.hi)
            && (next < length ==> base + next <= first.hi <= base + Min(next + overlap, length))
            && (next >= length ==> first.hi == base + length)
  {
    Extend(spans, Span(base + pos, base + Min(pos + size, length)), limit);
  }

  lemma {:induction false} WindowsCover(
      spans: seq<Span>, base: nat, length: nat, size: nat, overlap: nat, pos: nat, limit: nat, all: seq<Span>)
    requires overlap < size <= limit && pos < length && CoveredTo(spans, limit).Some?
    requires base + pos <= CoveredTo(spans, limit).value <= base + Min(pos + overlap, length)
    requires all == spans + Windows(base, length, size, overlap, pos)
    ensures CoveredTo(all, limit) == Some(base + length)
    decreases length - pos
  {
    var next := pos + size - overlap;
    var longer := spans + [Span(base + pos, base + Min(pos + size, length))];
    FirstWindow(spans, base, length, size, overlap, pos, limit);
    WindowsNext(spans, base, length, size, overlap, pos);
    if next < length {
      WindowsCover(longer, base, length, size, overlap, next, limit, all);
    } else {
      assert all == longer;
    }
  }

  lemma FlushCovers(spans: seq<Span>, base: nat, carried: nat, limit: nat)
    requires CoveredTo(spans, limit).Some? && carried <= limit && carried <= base
    requires base - carried <= CoveredTo(spans, limit).value <= base
    ensures CoveredTo(spans + Flushed(base, carried), limit) == Some(base)
  {
    if carried > 0 { Extend(spans, Span(base - carried, base), limit); } else { assert spans + [] == spans; }
  }

  /** What is made so far ends where `waiting` tokens before `end` start, or later. */
  predicate Reaches(spans: seq<Span>, end: nat, waiting: nat, limit: nat) {
    && CoveredTo(spans, limit).Some? && end - waiting <= CoveredTo(spans, limit).value <= end
    && waiting <= limit && (waiting == 0 <==> end == 0)
  }

  lemma OversizedCovers(spans: seq<Span>, base: nat, length: nat, carried: nat, size: nat, overlap: nat)
    requires 0 < overlap < size < length && carried <= base && Reaches(spans, base, carried, size + overlap)
    ensures Reaches(spans + Made(base, length, carried, size, overlap), base + length, overlap, size + overlap)
  {
    var flushed, windows := Flushed(base, carried), Windows(base, length, size, overlap, 0);
    FlushCovers(spans, base, carried, size + overlap);
    WindowsCover(spans + flushed, base, length, size, overlap, 0, size + overlap, spans + flushed + windows);
    assert spans + (flushed + windows) == spans + flushed + windows;
  }

  lemma FlushedCovers(spans: seq<Span>, base: nat, length: nat, carried: nat, size: nat, overlap: nat)
    requires 0 < overlap < size && 0 < length <= size && 0 < carried <= base && carried + length > size
    requires Reaches(spans, base, carried, size + overlap)
    ensures Reaches(spans + Made(base, length, carried, size, overlap), base + length,
                    Min(carried, overlap) + length, size + overlap)
  {
    FlushCovers(spans, base, carried, size + overlap);
  }

  /** What sentence `j`, the last of the first `k`, adds. */
  lemma SpansNext(sentences: seq<Tokens>, j: nat, k: nat, size: nat, overlap: nat)
    requires j + 1 == k <= |sentences| && overlap < size
    ensures Start(sentences, k) == Start(sentences, j) + |sentences[j]|
    ensures Waiting(sentences, k, size, overlap)
         == NextWaiting(Waiting(sentences, j, size, overlap), |sentences[j]|, size, overlap)
    ensures SpansUpTo(sentences, k, size, overlap)
         == SpansUpTo(sentences, j, size, overlap)
            + Made(Start(sentences, j), |sentences[j]|, Waiting(sentences, j, size, overlap), size, overlap)
  {
  }

  lemma MadeCovers(
      spans: seq<Span>, base: nat, length: nat, carried: nat, size: nat, overlap: nat, all: seq<Span>, waiting: nat)
    requires 0 < overlap < size && carried <= base && Reaches(spans, base, carried, size + overlap)
    requires all == spans + Made(base, length, carried, size, overlap)
    requires waiting == NextWaiting(carried, length, size, overlap)
    ensures Reaches(all, base + length, waiting, size + overlap)
  {
    if length > size {
      OversizedCovers(spans, base, length, carried, size, overlap);
    } else if length > 0 && carried > 0 && carried + length > size {
      FlushedCovers(spans, base, length, carried, size, overlap);
    } else {
      assert all == spans;
    }
  }

  /** The spans made after `k` sentences cover all tokens but some of those that are still waiting. */
  lemma {:induction false} SpansCover(
      sentences: seq<Tokens>, k: nat, size: nat, overlap: nat, spans: seq<Span>, end: nat, waiting: nat)
    requires k <= |sentences| && 0 < overlap < size
    requires spans == SpansUpTo(sentences, k, size, overlap)
    requires end == Start(sentences, k) && waiting == Waiting(sentences, k, size, overlap)
    ensures Reaches(spans, end, waiting, size + overlap)
  {
    if k > 0 {
      var j := k - 1;
      var before, base := SpansUpTo(sentences, j, size, overlap), Start(sentences, j);
      var carried := Waiting(sentences, j, size, overlap);
      SpansCover(sentences, j, size, overlap, before, base, carried);
      SpansNext(sentences, j, k, size, overlap);
      MadeCovers(before, base, |sentences[j]|, carried, size, overlap, spans, waiting);
    }
  }

  lemma AllSpansCover(sentences: seq<Tokens>, size: nat, overlap: nat)
    requires 0 < overlap < size
    ensures CoveredTo(AllSpans(sentences, size, overlap), size + overlap) == Some(Start(sentences, |sentences|))
  {
    var n := |sentences|;
    var spans, end := SpansUpTo(sentences, n, size, overlap), Start(sentences, n);
    var waiting := Waiting(sentences, n, size, overlap);
    SpansCover(sentences, n, size, overlap, spans, end, waiting);
    FlushCovers(spans, end, waiting, size + overlap);
  }

  /** The chunks are contiguous slices of the tokens, start at the first token, end at the last, leave
      no gap, have non-decreasing ends and at most chunk_size + chunk_overlap tokens each. */
  lemma ChunksCoverDocument(sentences: seq<Tokens>, size: nat, overlap: nat)
    requires 0 < overlap < size
    ensures DocumentCovered(AllSpans(sentences, size, overlap), |Flatten(sentences)|, size + overlap)
  {
    CoversAll(sentences, size, overlap, AllSpans(sentences, size, overlap), |Flatten(sentences)|);
  }

  lemma CoversAll(sentences: seq<Tokens>, size: nat, overlap: nat, spans: seq<Span>, end: nat)
    requires 0 < overlap < size && spans == AllSpans(sentences, size, overlap) && end == |Flatten(sentences)|
    ensures DocumentCovered(spans, end, size + overlap)
  {
    WholeLength(sentences);
    AllSpansCover(sentences, size, overlap);
    CoversUpTo(spans, size + overlap);
  }

  lemma WholeLength(sentences: seq<Tokens>)
    ensures |Flatten(sentences)| == Start(sentences, |sentences|)
  {
    assert sentences[..|sentences|] == sentences;
    FlattenLength(sentences, |sentences|);
  }

  // ---- When a chunk outgrows the chunk size --------------------------------------------------------

  /** A sentence fits a chunk alone but not together with the overlap that is carried over to it. */
  predicate Overflows(carried: nat, length: nat, size: nat, overlap: nat) {
    0 < length <= size && 0 < carried && carried + length > size && Min(carried, overlap) + length > size
  }

  predicate NoneOverflows(sentences: seq<Tokens>, n: nat, size: nat, overlap: nat)
    requires n <= |sentences| && overlap <= size
  {
    n == 0 ||
    (NoneOverflows(sentences, n - 1, size, overlap) &&
     !Overflows(Waiting(sentences, n - 1, size, overlap), |sentences[n - 1]|, size, overlap))
  }

  lemma FlushedFits(end: nat, count: nat, size: nat)
    requires count <= end
    ensures AllFit(Flushed(end, count), size) <==> count <= size
  {
    if count > 0 { assert Flushed(end, count)[0] == Span(end - count, end); }
  }

  lemma FitAppend(a: seq<Span>, b: seq<Span>, size: nat)
    ensures AllFit(a + b, size) <==> AllFit(a, size) && AllFit(b, size)
  {
    var all := a + b;
    assert forall i :: 0 <= i < |a| ==> all[i] == a[i];
    assert forall i :: 0 <= i < |b| ==> all[|a| + i] == b[i];
  }

  lemma {:induction false} WindowsFit(base: nat, length: nat, size: nat, overlap: nat, pos: nat)
    requires overlap < size
    ensures AllFit(Windows(base, length, size, overlap, pos), size)
    decreases length - pos
  {
    if pos < length {
      var next := pos + size - overlap;
      WindowsFit(base, length, size, overlap, next);
      FitAppend([Span(base + pos, base + Min(pos + size, length))], Windows(base, length, size, overlap, next), size);
    }
  }

  lemma MadeFits(base: nat, length: nat, carried: nat, size: nat, overlap: nat)
    requires 0 < overlap < size && carried <= base
    ensures var fits := AllFit(Made(base, length, carried, size, overlap), size);
            && (carried <= size ==> fits)
            && (carried > size ==> !fits || (length == 0 && NextWaiting(carried, length, size, overlap) > size))
  {
    var flushed := Flushed(base, carried);
    FlushedFits(base, carried, size);
    if length > size {
      WindowsFit(base, length, size, overlap, 0);
      FitAppend(flushed, Windows(base, length, size, overlap, 0), size);
    }
  }

  /** An oversized waiting list shows up as an oversized span, or goes on waiting. */
  lemma NextFits(
      spans: seq<Span>, base: nat, length: nat, carried: nat, size: nat, overlap: nat, all: seq<Span>, waiting: nat)
    requires 0 < overlap < size && carried <= base
    requires all == spans + Made(base, length, carried, size, overlap)
    requires waiting == NextWaiting(carried, length, size, overlap)
    ensures AllFit(all, size) && waiting <= size
        <==> AllFit(spans, size) && carried <= size && !Overflows(carried, length, size, overlap)
  {
    FitAppend(spans, Made(base, length, carried, size, overlap), size);
    MadeFits(base, length, carried, size, overlap);
  }

  lemma NoneNext(sentences: seq<Tokens>, j: nat, k: nat, size: nat, overlap: nat)
    requires j + 1 == k <= |sentences| && overlap <= size
    ensures NoneOverflows(sentences, k, size, overlap)
        <==> NoneOverflows(sentences, j, size, overlap)
             && !Overflows(Waiting(sentences, j, size, overlap), |sentences[j]|, size, overlap)
  {
  }

  lemma {:induction false} FitUpTo(
      sentences: seq<Tokens>, k: nat, size: nat, overlap: nat, none: bool, spans: seq<Span>, waiting: nat)
    requires k <= |sentences| && 0 < overlap < size && none == NoneOverflows(sentences, k, size, overlap)
    requires spans == SpansUpTo(sentences, k, size, overlap) && waiting == Waiting(sentences, k, size, overlap)
    ensures none <==> AllFit(spans, size) && waiting <= size
  {
    if k > 0 {
      var j := k - 1;
      var before, base := SpansUpTo(sentences, j, size, overlap), Start(sentences, j);
      var carried := Waiting(sentences, j, size, overlap);
      FitUpTo(sentences, j, size, overlap, NoneOverflows(sentences, j, size, overlap), before, carried);
      NoneNext(sentences, j, k, size, overlap);
      SpansNext(sentences, j, k, size, overlap);
      NextFits(before, base, |sentences[j]|, carried, size, overlap, spans, waiting);
    }
  }

  /** The documented bound of chunk_size tokens holds exactly when no sentence overflows, because the
      overlap that is carried over is not checked against the bound again. */
  lemma SizeBoundExactly(sentences: seq<Tokens>, size: nat, overlap: nat)
    requires 0 < overlap < size
    ensures AllFit(AllSpans(sentences, size, overlap), size)
        <==> NoneOverflows(sentences, |sentences|, size, overlap)
  {
    var n := |sentences|;
    FitUpTo(sentences, n, size, overlap, NoneOverflows(sentences, n, size, overlap),
            SpansUpTo(sentences, n, size, overlap), Waiting(sentences, n, size, overlap));
    var last := Flushed(Start(sentences, n), Waiting(sentences, n, size, overlap));
    FitAppend(SpansUpTo(sentences, n, size, overlap), last, size);
    FlushedFits(Start(sentences, n), Waiting(sentences, n, size, overlap), size);
  }

  /** The example: with chunks of three tokens and an overlap of one, two sentences of three tokens give
      a chunk of four. */
  lemma SizeBoundFails(t: Token)
    ensures !AllFit(AllSpans([[t, t, t], [t, t, t]], 3, 1), 3)
  {
    var sentences := [[t, t, t], [t, t, t]];
    assert Waiting(sentences, 0, 3, 1) == 0;
    assert Waiting(sentences, 1, 3, 1) == 3;
    assert !NoneOverflows(sentences, 2, 3, 1);
    SizeBoundExactly(sentences, 3, 1);
  }

  // ---- The algorithm ---------------------------------------------------------------------------------

  lemma RenderAppend(tokens: Tokens, a: seq<Span>, b: Span, documentId: string, page: int, meta: Option<Metadata>)
    requires Within(a, |tokens|) && b.lo < b.hi <= |tokens|
    ensures Within(a + [b], |tokens|)
    ensures Render(tokens, a + [b], documentId, page, meta)
         == Render(tokens, a, documentId, page, meta) + [MakeChunk(tokens, b, |a|, documentId, page, meta)]
  {
  }

  /** The inner loop: slides a window through the oversized sentence that starts at token `base`. */
  method WindowSentence(sentence: Tokens, size: nat, overlap: nat, documentId: string, page: int,
                        meta: Option<Metadata>, made: seq<Chunk>, ghost spans: seq<Span>, ghost tokens: Tokens,
                        ghost base: nat)
    returns (chunks: seq<Chunk>)
    requires 0 < overlap < size < |sentence|
    requires base + |sentence| <= |tokens| && tokens[base..base + |sentence|] == sentence
    requires Within(spans, |tokens|) && made == Render(tokens, spans, documentId, page, meta)
    ensures Within(spans + Windows(base, |sentence|, size, overlap, 0), |tokens|)
    ensures chunks == Render(tokens, spans + Windows(base, |sentence|, size, overlap, 0), documentId, page, meta)
  {
    chunks := made;
    ghost var all := spans;
    var pos := 0;
    while pos < |sentence|
      invariant Within(all, |tokens|)
      invariant spans + Windows(base, |sentence|, size, overlap, 0)
             == all + Windows(base, |sentence|, size, overlap, pos)
      invariant chunks == Render(tokens, all, documentId, page, meta)
      decreases |sentence| - pos
    {
      var end := Min(pos + size, |sentence|);
      ghost var span := Span(base + pos, base + end);
      WindowSlice(sentence, tokens, base, pos, end);
      RenderAppend(tokens, all, span, documentId, page, meta);
      WindowsNext(all, base, |sentence|, size, overlap, pos);
      all := all + [span];
      chunks := chunks + [Chunk(|chunks|, documentId, Join(" ", sentence[pos..end]), page, meta)];
      pos := pos + size - overlap;
    }
  }

  lemma WindowSlice(sentence: Tokens, tokens: Tokens, base: nat, pos: nat, end: nat)
    requires base + |sentence| <= |tokens| && tokens[base..base + |sentence|] == sentence
    requires pos <= end <= |sentence|
    ensures sentence[pos..end] == tokens[base + pos..base + end]
  {
    forall i | 0 <= i < end - pos
      ensures sentence[pos..end][i] == tokens[base + pos..base + end][i]
    {
      assert tokens[base..base + |sentence|][pos + i] == tokens[base + (pos + i)];
    }
  }

  lemma WindowsNext(all: seq<Span>, base: nat, length: nat, size: nat, overlap: nat, pos: nat)
    requires overlap < size && pos < length
    ensures all + Windows(base, length, size, overlap, pos)
         == all + [Span(base + pos, base + Min(pos + size, length))]
            + Windows(base, length, size, overlap, pos + size - overlap)
  {
  }

  /** Appends the waiting tokens as a chunk. */
  method Flush(current: Tokens, documentId: string, page: int, meta: Option<Metadata>, made: seq<Chunk>,
               ghost spans: seq<Span>, ghost tokens: Tokens, ghost end: nat)
    returns (chunks: seq<Chunk>)
    requires Within(spans, |tokens|) && made == Render(tokens, spans, documentId, page, meta)
    requires Holds(current, tokens, end, |current|)
    ensures Within(spans + Flushed(end, |current|), |tokens|)
    ensures chunks == Render(tokens, spans + Flushed(end, |current|), documentId, page, meta)
  {
    chunks := made;
    if current != [] {
      RenderAppend(tokens, spans, Span(end - |current|, end), documentId, page, meta);
      chunks := chunks + [Chunk(|chunks|, documentId, Join(" ", current), page, meta)];
    } else {
      assert spans + [] == spans;
    }
  }

  /** `tokens` holds the sentences one after the other. */
  ghost predicate Spells(sentences: seq<Tokens>, tokens: Tokens) {
    && |tokens| == Start(sentences, |sentences|)
    && forall k :: 0 <= k < |sentences| ==> SpelledAt(sentences, tokens, k)
  }

  ghost predicate SpelledAt(sentences: seq<Tokens>, tokens: Tokens, k: nat)
    requires k < |sentences|
  {
    var base := Start(sentences, k);
    base + |sentences[k]| <= |tokens| && tokens[base..base + |sentences[k]|] == sentences[k]
  }

  /** `DocumentChunker.chunk_text` on the token lists of the sentences. */
  method ChunkText(sentences: seq<Tokens>, size: nat, overlap: nat, documentId: string, page: int,
                   meta: Option<Metadata>)
    returns (chunks: seq<Chunk>)
    requires 0 < overlap < size
    ensures Within(AllSpans(sentences, size, overlap), |Flatten(sentences)|)
    ensures chunks == Render(Flatten(sentences), AllSpans(sentences, size, overlap), documentId, page, meta)
    ensures var spans, tokens := AllSpans(sentences, size, overlap), Flatten(sentences);
            && |chunks| == |spans|
            && forall i :: 0 <= i < |chunks| ==>
                 chunks[i] == Chunk(i, documentId, Join(" ", tokens[spans[i].lo..spans[i].hi]), page, meta)
  {
    FlattenSpells(sentences);
    chunks := ChunkSpelled(sentences, size, overlap, documentId, page, meta, Flatten(sentences));
  }

  lemma FlattenSpells(sentences: seq<Tokens>)
    ensures Spells(sentences, Flatten(sentences))
  {
    assert sentences[..|sentences|] == sentences;
    FlattenLength(sentences, |sentences|);
    forall k | 0 <= k < |sentences|
      ensures SpelledAt(sentences, Flatten(sentences), k)
    {
      SentenceSlice(sentences, k);
    }
  }

  /** The loop over the sentences. */
  method ChunkSpelled(sentences: seq<Tokens>, size: nat, overlap: nat, documentId: string, page: int,
                      meta: Option<Metadata>, ghost tokens: Tokens)
    returns (chunks: seq<Chunk>)
    requires 0 < overlap < size && Spells(sentences, tokens)
    ensures Within(AllSpans(sentences, size, overlap), |tokens|)
    ensures chunks == Render(tokens, AllSpans(sentences, size, overlap), documentId, page, meta)
  {
    chunks := [];
    var current: Tokens := [];
    for k := 0 to |sentences|
      invariant ReadSoFar(chunks, current, sentences, k, size, overlap, documentId, page, meta, tokens)
    {
      chunks, current := ReadAt(sentences, k, current, size, overlap, documentId, page, meta, chunks, tokens);
    }
    chunks := FlushLast(current, documentId, page, meta, chunks, sentences, size, overlap, tokens);
  }

  /** One turn of it. */
  method ReadAt(sentences: seq<Tokens>, k: nat, waiting: Tokens, size: nat, overlap: nat, documentId: string, page: int,
                meta: Option<Metadata>, made: seq<Chunk>, ghost tokens: Tokens)
    returns (chunks: seq<Chunk>, current: Tokens)
    requires 0 < overlap < size && k < |sentences| && SpelledAt(sentences, tokens, k)
    requires ReadSoFar(made, waiting, sentences, k, size, overlap, documentId, page, meta, tokens)
    ensures ReadSoFar(chunks, current, sentences, k + 1, size, overlap, documentId, page, meta, tokens)
  {
    chunks, current := ReadSentence(sentences[k], waiting, size, overlap, documentId, page, meta, made,
                                    SpansUpTo(sentences, k, size, overlap), tokens, Start(sentences, k));
    ReadNext(chunks, current, sentences, k, size, overlap, documentId, page, meta, tokens);
  }

  /** The flush after the loop. */
  method FlushLast(current: Tokens, documentId: string, page: int, meta: Option<Metadata>, made: seq<Chunk>,
                   ghost sentences: seq<Tokens>, ghost size: nat, ghost overlap: nat, ghost tokens: Tokens)
    returns (chunks: seq<Chunk>)
    requires overlap < size
    requires ReadSoFar(made, current, sentences, |sentences|, size, overlap, documentId, page, meta, tokens)
    ensures Within(AllSpans(sentences, size, overlap), |tokens|)
    ensures chunks == Render(tokens, AllSpans(sentences, size, overlap), documentId, page, meta)
  {
    ghost var n := |sentences|;
    ghost var spans, end := SpansUpTo(sentences, n, size, overlap), Start(sentences, n);
    chunks := Flush(current, documentId, page, meta, made, spans, tokens, end);
    assert AllSpans(sentences, size, overlap) == spans + Flushed(end, |current|);
  }

  /** The state of the loop after `k` sentences. */
  ghost predicate ReadSoFar(chunks: seq<Chunk>, current: Tokens, sentences: seq<Tokens>, k: nat, size: nat,
                            overlap: nat, documentId: string, page: int, meta: Option<Metadata>, tokens: Tokens)
    requires k <= |sentences| && overlap < size
  {
    && Within(SpansUpTo(sentences, k, size, overlap), |tokens|)
    && chunks == Render(tokens, SpansUpTo(sentences, k, size, overlap), documentId, page, meta)
    && |current| == Waiting(sentences, k, size, overlap)
    && Holds(current, tokens, Start(sentences, k), |current|)
  }

  lemma ReadNext(chunks: seq<Chunk>, current: Tokens, sentences: seq<Tokens>, k: nat, size: nat, overlap: nat,
                 documentId: string, page: int, meta: Option<Metadata>, tokens: Tokens)
    requires k < |sentences| && overlap < size
    requires var spans := SpansUpTo(sentences, k, size, overlap)
               + Made(Start(sentences, k), |sentences[k]|, Waiting(sentences, k, size, overlap), size, overlap);
             Within(spans, |tokens|) && chunks == Render(tokens, spans, documentId, page, meta)
    requires |current| == NextWaiting(Waiting(sentences, k, size, overlap), |sentences[k]|, size, overlap)
    requires Holds(current, tokens, Start(sentences, k) + |sentences[k]|, |current|)
    ensures ReadSoFar(chunks, current, sentences, k + 1, size, overlap, documentId, page, meta, tokens)
  {
    SpansNext(sentences, k, k + 1, size, overlap);
  }

  /** One turn of the loop over the sentences. */
  method ReadSentence(sentence: Tokens, waiting: Tokens, size: nat, overlap: nat, documentId: string, page: int,
                      meta: Option<Metadata>, made: seq<Chunk>, ghost spans: seq<Span>, ghost tokens: Tokens,
                      ghost base: nat)
    returns (chunks: seq<Chunk>, current: Tokens)
    requires 0 < overlap < size
    requires base + |sentence| <= |tokens| && tokens[base..base + |sentence|] == sentence
    requires Within(spans, |tokens|) && made == Render(tokens, spans, documentId, page, meta)
    requires Holds(waiting, tokens, base, |waiting|)
    ensures Within(spans + Made(base, |sentence|, |waiting|, size, overlap), |tokens|)
    ensures chunks
         == Render(tokens, spans + Made(base, |sentence|, |waiting|, size, overlap), documentId, page, meta)
    ensures |current| == NextWaiting(|waiting|, |sentence|, size, overlap)
    ensures Holds(current, tokens, base + |sentence|, |current|)
  {
    chunks, current := made, waiting;
    if sentence == [] {
      assert spans + [] == spans;
      return;
    }
    if |sentence| > size {
      chunks := Flush(current, documentId, page, meta, chunks, spans, tokens, base);
      chunks := WindowSentence(sentence, size, overlap, documentId, page, meta, chunks,
                               spans + Flushed(base, |waiting|), tokens, base);
      assert spans + Made(base, |sentence|, |waiting|, size, overlap)
          == spans + Flushed(base, |waiting|) + Windows(base, |sentence|, size, overlap, 0);
      current := LastOf(sentence, overlap);
      WindowSlice(sentence, tokens, base, |sentence| - overlap, |sentence|);
      return;
    }
    if current != [] && |current| + |sentence| > size {
      chunks := Flush(current, documentId, page, meta, chunks, spans, tokens, base);
      current := LastOf(current, overlap);
    } else {
      assert spans + [] == spans;
    }
    HoldsMore(current, sentence, tokens, base);
    current := current + sentence;
  }

  lemma HoldsMore(current: Tokens, sentence: Tokens, tokens: Tokens, base: nat)
    requires Holds(current, tokens, base, |current|)
    requires base + |sentence| <= |tokens| && tokens[base..base + |sentence|] == sentence
    ensures Holds(current + sentence, tokens, base + |sentence|, |current| + |sentence|)
  {
  }

  /** `current` is the last `count` of the first `end` tokens. */
  predicate Holds(current: Tokens, tokens: Tokens, end: nat, count: nat) {
    count <= end <= |tokens| && current == tokens[end - count..end]
  }

  lemma SentenceSlice(sentences: seq<Tokens>, k: nat)
    requires k < |sentences|
    ensures var tokens, base := Flatten(sentences), Start(sentences, k);
            && Start(sentences, k + 1) == base + |sentences[k]| <= |tokens|
            && tokens[base..base + |sentences[k]|] == sentences[k]
  {
    FlattenNext(sentences, k);
    FlattenPrefix(sentences, k + 1);
    FlattenLength(sentences, k);
    FlattenLength(sentences, k + 1);
    var tokens, base := Flatten(sentences), Start(sentences, k);
    assert tokens[..base + |sentences[k]|] == Flatten(sentences[..k]) + sentences[k];
    assert tokens[base..base + |sentences[k]|] == tokens[..base + |sentences[k]|][base..];
  }
}
