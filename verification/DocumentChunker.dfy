/** The chunking loop of the ingestion pipeline: overlapping windows that back off
    to a sentence boundary. */
module DocumentChunker {
  import opened PythonStrings

  datatype Document = Document(content: string, source: string, filename: string)

  datatype Chunk = Chunk(chunkId: nat, source: string, filename: string, text: string, startChar: nat, endChar: nat)

  /** In order of preference. */
  const DELIMITERS: seq<string> := [". ", "\n\n", "\n", " "]

  // ---------- String operations ----------

  predicate OccursAt(s: string, d: string, i: int) {
    0 <= i && i + |d| <= |s| && s[i..i + |d|] == d
  }

  /** `s.rfind(d)`: the last occurrence, or -1. */
  function RFind(s: string, d: string): (i: int)
    ensures i == -1 || OccursAt(s, d, i)
    ensures forall k :: OccursAt(s, d, k) ==> k <= i
  {
    RFindUpTo(s, d, |s| - |d|)
  }

  function RFindUpTo(s: string, d: string, from: int): (i: int)
    ensures -1 <= i && (i == -1 || OccursAt(s, d, i))
    ensures forall k :: OccursAt(s, d, k) && k <= from ==> k <= i
    decreases from + 1
  {
    if from < 0 then -1 else if OccursAt(s, d, from) then from else RFindUpTo(s, d, from - 1)
  }

  // ---------- One chunk ----------

  function Min(a: int, b: int): int { if a < b then a else b }

  function Max(a: int, b: int): int { if a > b then a else b }

  /** Cut `text` after the last occurrence of the first delimiter found beyond the middle. */
  function CutLength(text: string, half: nat, delimiters: seq<string>): (r: nat)
    ensures r == |text| || half < r <= |text|
  {
    if delimiters == [] then |text|
    else
      var i := RFind(text, delimiters[0]);
      if i > half then i + |delimiters[0]| else CutLength(text, half, delimiters[1..])
  }

  function ChunkEnd(content: string, start: nat, size: nat): nat
    requires start < |content|
  {
    var end := Min(start + size, |content|);
    if end < |content| then start + CutLength(content[start..end], size / 2, DELIMITERS) else end
  }

  function NextStart(start: nat, end: nat, overlap: nat): nat {
    Max(end - overlap, start + 1)
  }

  lemma ChunkEndBounds(content: string, start: nat, size: nat)
    requires start < |content|
    ensures var end := ChunkEnd(content, start, size);
      && start <= end <= Min(start + size, |content|) && (size >= 1 ==> start < end)
      && (end < |content| ==> end == start + size || end > start + size / 2)
      && (start + size >= |content| ==> end == |content|)
  {
  }

  /** `d` occurs in `text` beyond the middle. */
  ghost predicate Cuts(text: string, half: nat, d: string) {
    exists i :: i > half && OccursAt(text, d, i)
  }

  /** `end` is right after the last occurrence of `d`. */
  ghost predicate AfterLastOf(text: string, d: string, end: int) {
    OccursAt(text, d, end - |d|) && forall j :: OccursAt(text, d, j) ==> j <= end - |d|
  }

  lemma CutsIffFound(text: string, half: nat, d: string)
    ensures Cuts(text, half, d) <==> RFind(text, d) > half
    ensures RFind(text, d) > half ==> AfterLastOf(text, d, RFind(text, d) + |d|)
  {
  }

  /** The text is cut right after the last occurrence of the most preferred delimiter that
      occurs beyond the middle. */
  lemma {:induction false} CutsAtPreferredDelimiter(text: string, half: nat, delimiters: seq<string>, k: nat)
    requires k < |delimiters| && Cuts(text, half, delimiters[k]) && forall m :: 0 <= m < k ==>
        !Cuts(text, half, delimiters[m])
    ensures AfterLastOf(text, delimiters[k], CutLength(text, half, delimiters))
  {
    CutsIffFound(text, half, delimiters[0]);
    hide Cuts, AfterLastOf, RFind;
    if k > 0 {
      var rest := delimiters[1..];
      assert rest[k - 1] == delimiters[k];
      forall m | 0 <= m < k - 1 ensures !Cuts(text, half, rest[m]) {
        assert !Cuts(text, half, delimiters[m + 1]);
      }
      CutsAtPreferredDelimiter(text, half, rest, k - 1);
    }
  }

  lemma {:induction false} NoDelimiterNoCut(text: string, half: nat, delimiters: seq<string>)
    requires forall m :: 0 <= m < |delimiters| ==> !Cuts(text, half, delimiters[m])
    ensures CutLength(text, half, delimiters) == |text|
  {
    if delimiters != [] {
      CutsIffFound(text, half, delimiters[0]);
      hide Cuts, AfterLastOf, RFind;
      var rest := delimiters[1..];
      forall m | 0 <= m < |rest| ensures !Cuts(text, half, rest[m]) {
        assert !Cuts(text, half, delimiters[m + 1]);
      }
      NoDelimiterNoCut(text, half, rest);
    }
  }

  // ---------- The loop ----------

  datatype Span = Span(start: nat, end: nat)

  /** The windows the loop visits from `start` on. */
  function Spans(content: string, start: nat, size: nat, overlap: nat): seq<Span>
    decreases |content| - start
  {
    if start >= |content| then []
    else
      var end := ChunkEnd(content, start, size);
      [Span(start, end)] + Spans(content, NextStart(start, end, overlap), size, overlap)
  }

  function MakeChunk(doc: Document, id: nat, span: Span): Chunk
    requires span.start <= span.end <= |doc.content|
  {
    Chunk(id, doc.source, doc.filename, Strip(doc.content[span.start..span.end]), span.start, span.end)
  }

  /** The chunks of one document from `start` on, numbered from `id`. */
  function ChunksFrom(doc: Document, start: nat, size: nat, overlap: nat, id: nat): seq<Chunk>
    decreases |doc.content| - start
  {
    if start >= |doc.content| then []
    else
      var end := ChunkEnd(doc.content, start, size);
      ChunkEndBounds(doc.content, start, size);
      [MakeChunk(doc, id, Span(start, end))] + ChunksFrom(doc, NextStart(start, end, overlap), size, overlap, id + 1)
  }

  function AllChunks(docs: seq<Document>, size: nat, overlap: nat): seq<Chunk>
  {
    if docs == [] then []
    else
      var before := AllChunks(docs[..|docs| - 1], size, overlap);
      before + ChunksFrom(docs[|docs| - 1], 0, size, overlap, |before|)
  }

  function TextLength(chunks: seq<Chunk>): nat {
    if chunks == [] then 0 else TextLength(chunks[..|chunks| - 1]) + |chunks[|chunks| - 1].text|
  }

  /** The body of the inner loop that finds where the chunk at `start` ends. */
  method FindEnd(content: string, start: nat, size: nat) returns (end: nat)
    requires start < |content|
    ensures end == ChunkEnd(content, start, size)
  {
    end := Min(start + size, |content|);
    if end < |content| {
      var text := content[start..end];
      var k := 0;
      while k < |DELIMITERS|
        invariant 0 <= k <= |DELIMITERS| && end == start + |text|
        invariant CutLength(text, size / 2, DELIMITERS) == CutLength(text, size / 2, DELIMITERS[k..])
      {
        var lastDelim := RFind(text, DELIMITERS[k]);
        if lastDelim > size / 2 {
          end := start + lastDelim + |DELIMITERS[k]|;
          break;
        }
        assert DELIMITERS[k..][1..] == DELIMITERS[k + 1..];
        k := k + 1;
      }
    }
  }

  /** The inner loop: the chunks of one document, numbered from `firstId`. */
  method ChunkDocument(doc: Document, size: nat, overlap: nat, firstId: nat)
      returns (docChunks: seq<Chunk>, chunkId: nat, chars: nat)
    ensures docChunks == ChunksFrom(doc, 0, size, overlap, firstId)
    ensures chunkId == firstId + |docChunks| && chars == TextLength(docChunks)
  {
    hide *;
    docChunks, chunkId, chars := [], firstId, 0;
    var start: nat := 0;
    SoFarStart(doc, size, overlap, firstId);
    while start < |doc.content|
      invariant SoFar(doc, size, overlap, firstId, docChunks, start, chunkId, chars)
      decreases |doc.content| - start
    {
      SoFarStep(doc, size, overlap, firstId, docChunks, start, chunkId, chars);
      var end := FindEnd(doc.content, start, size);
      var chunk := MakeChunk(doc, chunkId, Span(start, end));
      docChunks := docChunks + [chunk];
      chars := chars + |chunk.text|;
      chunkId := chunkId + 1;
      start := NextStart(start, end, overlap);
    }
    SoFarEnd(doc, size, overlap, firstId, docChunks, start, chunkId, chars);
  }

  /** The chunks made so far, then those from `start` on, are those of the document. */
  ghost predicate SoFar(doc: Document, size: nat, overlap: nat, firstId: nat, docChunks: seq<Chunk>, start: nat,
      chunkId: nat, chars: nat)
  {
    && docChunks + ChunksFrom(doc, start, size, overlap, chunkId) == ChunksFrom(doc, 0, size, overlap, firstId)
    && chunkId == firstId + |docChunks| && chars == TextLength(docChunks)
  }

  lemma SoFarStep(doc: Document, size: nat, overlap: nat, firstId: nat, docChunks: seq<Chunk>, start: nat,
      chunkId: nat, chars: nat)
    requires start < |doc.content| && SoFar(doc, size, overlap, firstId, docChunks, start, chunkId, chars)
    ensures var end := ChunkEnd(doc.content, start, size);
      && start <= end <= |doc.content| && start < NextStart(start, end, overlap)
      && var chunk := MakeChunk(doc, chunkId, Span(start, end));
         SoFar(doc, size, overlap, firstId, docChunks + [chunk], NextStart(start, end, overlap), chunkId + 1,
               chars + |chunk.text|)
  {
    OneMoreChunk(docChunks, doc, start, size, overlap, chunkId);
    TextLengthSnoc(docChunks, MakeChunk(doc, chunkId, Span(start, ChunkEnd(doc.content, start, size))));
    hide ChunkEnd, MakeChunk, TextLength, ChunksFrom;
  }

  lemma SoFarStart(doc: Document, size: nat, overlap: nat, firstId: nat)
    ensures SoFar(doc, size, overlap, firstId, [], 0, firstId, 0)
  {
    hide ChunksFrom;
  }

  lemma SoFarEnd(doc: Document, size: nat, overlap: nat, firstId: nat, docChunks: seq<Chunk>, start: nat,
      chunkId: nat, chars: nat)
    requires start >= |doc.content| && SoFar(doc, size, overlap, firstId, docChunks, start, chunkId, chars)
    ensures docChunks == ChunksFrom(doc, 0, size, overlap, firstId)
    ensures chunkId == firstId + |docChunks| && chars == TextLength(docChunks)
  {
    assert ChunksFrom(doc, start, size, overlap, chunkId) == [];
    assert docChunks + [] == docChunks;
  }

  lemma TextLengthSnoc(chunks: seq<Chunk>, chunk: Chunk)
    ensures TextLength(chunks + [chunk]) == TextLength(chunks) + |chunk.text|
  {
    assert (chunks + [chunk])[..|chunks|] == chunks;
  }

  /** `chunk_documents`: the chunks, their number, and the characters kept. */
  method ChunkDocuments(docs: seq<Document>, size: nat, overlap: nat)
      returns (chunks: seq<Chunk>, chunkId: nat, totalChars: nat)
    ensures chunks == AllChunks(docs, size, overlap) && chunkId == |chunks| && totalChars == TextLength(chunks)
  {
    chunks, chunkId, totalChars := [], 0, 0;
    var idx := 0;
    while idx < |docs|
      invariant 0 <= idx <= |docs|
      invariant chunks == AllChunks(docs[..idx], size, overlap) && chunkId == |chunks| &&
          totalChars == TextLength(chunks)
    {
      var docChunks, nextId, chars := ChunkDocument(docs[idx], size, overlap, chunkId);
      assert docs[..idx + 1][..idx] == docs[..idx];
      TextLengthAppend(chunks, docChunks);
      chunks, chunkId, totalChars := chunks + docChunks, nextId, totalChars + chars;
      idx := idx + 1;
    }
    assert docs[..idx] == docs;
  }

  lemma {:induction false} TextLengthAppend(a: seq<Chunk>, b: seq<Chunk>)
    ensures TextLength(a + b) == TextLength(a) + TextLength(b)
  {
    if b == [] {
      assert a + b == a;
    } else {
      assert (a + b)[..|a + b| - 1] == a + b[..|b| - 1];
      TextLengthAppend(a, b[..|b| - 1]);
    }
  }

  lemma OneMoreChunk(before: seq<Chunk>, doc: Document, start: nat, size: nat, overlap: nat, id: nat)
    requires start < |doc.content|
    ensures var end := ChunkEnd(doc.content, start, size);
      && start <= end <= |doc.content|
      && before + ChunksFrom(doc, start, size, overlap, id)
      == before + [MakeChunk(doc, id, Span(start, end))] +
          ChunksFrom(doc, NextStart(start, end, overlap), size, overlap, id + 1)
  {
    ChunkEndBounds(doc.content, start, size);
  }

  // ---------- What the chunks are ----------

  /** The chunks are those of the spans, in order, numbered from `id`. */
  ghost predicate ChunksOfSpans(doc: Document, id: nat, spans: seq<Span>, chunks: seq<Chunk>) {
    && |chunks| == |spans|
    && forall i: nat :: i < |spans| ==> IsChunkOf(doc, id + i, spans[i], chunks[i])
  }

  predicate IsChunkOf(doc: Document, id: nat, span: Span, chunk: Chunk) {
    span.start <= span.end <= |doc.content| && chunk == MakeChunk(doc, id, span)
  }

  lemma {:induction false} ChunksAreSpans(doc: Document, start: nat, size: nat, overlap: nat, id: nat)
    ensures ChunksOfSpans(doc, id, Spans(doc.content, start, size, overlap), ChunksFrom(doc, start, size, overlap, id))
    decreases |doc.content| - start
  {
    if start < |doc.content| {
      ChunkEndBounds(doc.content, start, size);
      var span := Span(start, ChunkEnd(doc.content, start, size));
      var next := NextStart(start, span.end, overlap);
      ChunksAreSpans(doc, next, size, overlap, id + 1);
      ChunksOfSpansCons(doc, id, span, Spans(doc.content, next, size, overlap),
          ChunksFrom(doc, next, size, overlap, id + 1));
      hide ChunkEnd, ChunksOfSpans, MakeChunk;
    }
  }

  lemma ChunksOfSpansCons(doc: Document, id: nat, span: Span, spans: seq<Span>, chunks: seq<Chunk>)
    requires span.start <= span.end <= |doc.content| && ChunksOfSpans(doc, id + 1, spans, chunks)
    ensures ChunksOfSpans(doc, id, [span] + spans, [MakeChunk(doc, id, span)] + chunks)
  {
    hide MakeChunk;
    var spans', chunks' := [span] + spans, [MakeChunk(doc, id, span)] + chunks;
    forall i: nat | i < |spans'|
      ensures IsChunkOf(doc, id + i, spans'[i], chunks'[i])
    {
      if i > 0 {
        assert spans'[i] == spans[i - 1] && chunks'[i] == chunks[i - 1];
        assert IsChunkOf(doc, id + 1 + (i - 1), spans[i - 1], chunks[i - 1]);
      }
    }
  }

  /** What a chunk is, whatever makes it: the window's text without the white space at its ends,
      under the document's source and file name and the window's bounds. */
  ghost predicate IsWindowOf(doc: Document, id: nat, span: Span, chunk: Chunk) {
    && span.start <= span.end <= |doc.content|
    && chunk.chunkId == id && chunk.source == doc.source && chunk.filename == doc.filename
    && chunk.startChar == span.start && chunk.endChar == span.end
    && exists a: nat, b: nat :: IsCutFrom(doc.content, span, a, b, chunk.text)
  }

  /** `text` is the content from `a` to `b`, within the window; the rest of the window is white
      space, and `text` neither starts nor ends with any. */
  ghost predicate IsCutFrom(content: string, span: Span, a: nat, b: nat, text: string) {
    && span.start <= a <= b <= span.end <= |content| && text == content[a..b]
    && (forall i :: span.start <= i < a || b <= i < span.end ==> IsSpace(content[i]))
    && (text == "" || (!IsSpace(text[0]) && !IsSpace(text[|text| - 1])))
  }

  lemma SliceOfSlice(s: string, i: nat, j: nat, x: nat, y: nat)
    requires i <= j <= |s| && x <= y <= j - i
    ensures s[i..j][x..y] == s[i + x..i + y]
  {
    var l, r := s[i..j][x..y], s[i + x..i + y];
    assert |l| == |r|;
    assert forall k :: 0 <= k < |l| ==> l[k] == r[k];
  }

  lemma TrimmedIsCut(content: string, span: Span, x: nat, y: nat, text: string)
    requires span.start <= span.end <= |content| && IsTrimmed(content[span.start..span.end], x, y, text)
    ensures IsCutFrom(content, span, span.start + x, span.start + y, text)
  {
    var s := content[span.start..span.end];
    var a, b := span.start + x, span.start + y;
    hide IsSpace;
    SliceOfSlice(content, span.start, span.end, x, y);
    forall i | span.start <= i < a || b <= i < span.end
      ensures IsSpace(content[i])
    {
      if i < a {
        assert content[i] == s[..x][i - span.start];
      } else {
        assert content[i] == s[y..][i - b];
      }
    }
  }

  lemma ChunkIsWindow(doc: Document, id: nat, span: Span)
    requires span.start <= span.end <= |doc.content|
    ensures IsWindowOf(doc, id, span, MakeChunk(doc, id, span))
  {
    var s := doc.content[span.start..span.end];
    StripIsTrimmed(s);
    var x: nat, y: nat :| IsTrimmed(s, x, y, Strip(s));
    TrimmedIsCut(doc.content, span, x, y, Strip(s));
    hide Strip, IsCutFrom, IsTrimmed;
  }

  /** The chunks of a document, window by window. */
  lemma ChunksAreWindows(doc: Document, start: nat, size: nat, overlap: nat, id: nat, i: nat)
    requires i < |Spans(doc.content, start, size, overlap)|
    ensures |ChunksFrom(doc, start, size, overlap, id)| == |Spans(doc.content, start, size, overlap)|
    ensures IsWindowOf(doc, id + i, Spans(doc.content, start, size, overlap)[i],
        ChunksFrom(doc, start, size, overlap, id)[i])
  {
    ChunksAreSpans(doc, start, size, overlap, id);
    var spans, chunks := Spans(doc.content, start, size, overlap), ChunksFrom(doc, start, size, overlap, id);
    hide Spans, ChunksFrom, MakeChunk, IsWindowOf;
    assert IsChunkOf(doc, id + i, spans[i], chunks[i]);
    ChunkIsWindow(doc, id + i, spans[i]);
  }

  /** The windows, step by step: each ends where `ChunkEnd` says, and the next one starts `overlap`
      characters before that, or one after the last start if that is later. */
  lemma {:induction false} SpansFollowTheLoop(content: string, start: nat, size: nat, overlap: nat, i: nat)
    requires i < |Spans(content, start, size, overlap)|
    ensures var spans := Spans(content, start, size, overlap);
      && spans[i].start < |content| && spans[i].end == ChunkEnd(content, spans[i].start, size)
      && spans[0].start == start
      && (i + 1 < |spans| ==>
            spans[i + 1].start ==
              if spans[i].end - overlap > spans[i].start + 1 then spans[i].end - overlap else spans[i].start + 1)
    decreases |content| - start, i
  {
    SpansStart(content, start, size, overlap);
    var end := ChunkEnd(content, start, size);
    var next := NextStart(start, end, overlap);
    var rest := Spans(content, next, size, overlap);
    assert Spans(content, start, size, overlap) == [Span(start, end)] + rest;
    if i > 0 {
      SpansFollowTheLoop(content, next, size, overlap, i - 1);
    } else if rest != [] {
      SpansStart(content, next, size, overlap);
    }
    hide ChunkEnd, Spans;
  }

  lemma CutAtFirstOfFour(text: string, half: nat, d: seq<string>)
    requires |d| == 4
    ensures var end := CutLength(text, half, d);
      if Cuts(text, half, d[0]) then AfterLastOf(text, d[0], end)
      else if Cuts(text, half, d[1]) then AfterLastOf(text, d[1], end)
      else if Cuts(text, half, d[2]) then AfterLastOf(text, d[2], end)
      else if Cuts(text, half, d[3]) then AfterLastOf(text, d[3], end)
      else end == |text|
  {
    hide Cuts, AfterLastOf, CutLength;
    if k: nat :| k < 4 && Cuts(text, half, d[k]) && forall m :: 0 <= m < k ==> !Cuts(text, half, d[m]) {
      CutsAtPreferredDelimiter(text, half, d, k);
    } else {
      assert !Cuts(text, half, d[0]);
      assert !Cuts(text, half, d[1]);
      assert !Cuts(text, half, d[2]);
      assert !Cuts(text, half, d[3]);
      NoDelimiterNoCut(text, half, d);
    }
  }

  /** Where a window ends: at the end of the document if it reaches it; else right after the last
      ". " if that starts beyond half the size, or failing that the last blank line, newline or
      space that does; else after the whole size. */
  lemma WindowEnd(content: string, start: nat, size: nat)
    requires start < |content|
    ensures start + size >= |content| ==> ChunkEnd(content, start, size) == |content|
    ensures start + size < |content| ==>
      var text, half, end := content[start..start + size], size / 2, ChunkEnd(content, start, size) - start;
      if Cuts(text, half, ". ") then AfterLastOf(text, ". ", end)
      else if Cuts(text, half, "\n\n") then AfterLastOf(text, "\n\n", end)
      else if Cuts(text, half, "\n") then AfterLastOf(text, "\n", end)
      else if Cuts(text, half, " ") then AfterLastOf(text, " ", end)
      else end == size
  {
    if start + size < |content| {
      var text := content[start..start + size];
      assert ChunkEnd(content, start, size) - start == CutLength(text, size / 2, DELIMITERS);
      hide Cuts, AfterLastOf, CutLength, ChunkEnd;
      assert DELIMITERS == [". ", "\n\n", "\n", " "];
      CutAtFirstOfFour(text, size / 2, DELIMITERS);
    }
  }

  function AllText(chunks: seq<Chunk>): string {
    if chunks == [] then [] else chunks[0].text + AllText(chunks[1..])
  }

  /** The characters counted are those of all the chunks' texts. */
  lemma {:induction false} TextLengthIsAllText(chunks: seq<Chunk>)
    ensures TextLength(chunks) == |AllText(chunks)|
  {
    if chunks != [] {
      TextLengthIsAllText(chunks[1..]);
      assert chunks == [chunks[0]] + chunks[1..];
      TextLengthAppend([chunks[0]], chunks[1..]);
      assert [chunks[0]][..0] == [];
    }
  }

  /** The chunks of document `d` begin at `at`, and are those of its own windows. */
  ghost predicate ChunkedAt(docs: seq<Document>, size: nat, overlap: nat, d: nat, at: nat)
    requires d < |docs|
  {
    var n, all := |Spans(docs[d].content, 0, size, overlap)|, AllChunks(docs, size, overlap);
    at + n <= |all| && all[at..at + n] == ChunksFrom(docs[d], 0, size, overlap, at)
  }

  lemma AllChunksSnoc(docs: seq<Document>, size: nat, overlap: nat)
    requires docs != []
    ensures var before := AllChunks(docs[..|docs| - 1], size, overlap);
      AllChunks(docs, size, overlap) == before + ChunksFrom(docs[|docs| - 1], 0, size, overlap, |before|)
  {
    hide ChunksFrom;
  }

  lemma MiddlePart<T>(a: seq<T>, b: seq<T>, at: nat, n: nat)
    requires at + n <= |a|
    ensures (a + b)[at..at + n] == a[at..at + n]
  {
  }

  lemma LastPart<T>(a: seq<T>, b: seq<T>)
    ensures (a + b)[|a|..|a| + |b|] == b
  {
  }

  lemma LastIsChunked(docs: seq<Document>, size: nat, overlap: nat)
    requires docs != []
    ensures ChunkedAt(docs, size, overlap, |docs| - 1, |AllChunks(docs[..|docs| - 1], size, overlap)|)
  {
    var last := docs[|docs| - 1];
    var before := AllChunks(docs[..|docs| - 1], size, overlap);
    AllChunksSnoc(docs, size, overlap);
    ChunksAreSpans(last, 0, size, overlap, |before|);
    LastPart(before, ChunksFrom(last, 0, size, overlap, |before|));
    hide ChunksFrom, Spans, AllChunks, IsChunkOf;
  }

  lemma EarlierIsChunked(docs: seq<Document>, size: nat, overlap: nat, d: nat, at: nat)
    requires d < |docs| - 1 && ChunkedAt(docs[..|docs| - 1], size, overlap, d, at)
    ensures ChunkedAt(docs, size, overlap, d, at)
  {
    AllChunksSnoc(docs, size, overlap);
    hide ChunksFrom, Spans, AllChunks;
    var before := AllChunks(docs[..|docs| - 1], size, overlap);
    var more := ChunksFrom(docs[|docs| - 1], 0, size, overlap, |before|);
    assert docs[..|docs| - 1][d] == docs[d];
    MiddlePart(before, more, at, |Spans(docs[d].content, 0, size, overlap)|);
  }

  /** Every document contributes the chunks of its own windows, numbered on from those before. */
  lemma {:induction false} EveryDocumentIsChunked(docs: seq<Document>, size: nat, overlap: nat, d: nat)
    requires d < |docs|
    ensures exists at: nat :: ChunkedAt(docs, size, overlap, d, at)
  {
    hide *;
    var init := docs[..|docs| - 1];
    if d == |docs| - 1 {
      LastIsChunked(docs, size, overlap);
    } else {
      EveryDocumentIsChunked(init, size, overlap, d);
      var at: nat :| ChunkedAt(init, size, overlap, d, at);
      EarlierIsChunked(docs, size, overlap, d, at);
    }
  }

  /** And there are no others. */
  lemma {:induction false} ChunksAddUp(docs: seq<Document>, size: nat, overlap: nat)
    ensures |AllChunks(docs, size, overlap)| == WindowCount(docs, size, overlap)
  {
    if docs != [] {
      var init, last := docs[..|docs| - 1], docs[|docs| - 1];
      ChunksAddUp(init, size, overlap);
      ChunksAreSpans(last, 0, size, overlap, |AllChunks(init, size, overlap)|);
      hide ChunksFrom, Spans;
    }
  }

  function WindowCount(docs: seq<Document>, size: nat, overlap: nat): nat {
    if docs == [] then 0
    else WindowCount(docs[..|docs| - 1], size, overlap) + |Spans(docs[|docs| - 1].content, 0, size, overlap)|
  }

  ghost predicate NumberedFrom(chunks: seq<Chunk>, id: nat) {
    forall i :: 0 <= i < |chunks| ==> chunks[i].chunkId == id + i
  }

  lemma ChunksAreNumbered(doc: Document, size: nat, overlap: nat, id: nat)
    ensures NumberedFrom(ChunksFrom(doc, 0, size, overlap, id), id)
  {
    ChunksAreSpans(doc, 0, size, overlap, id);
    var spans, chunks := Spans(doc.content, 0, size, overlap), ChunksFrom(doc, 0, size, overlap, id);
    hide Spans, ChunksFrom;
    forall i | 0 <= i < |chunks|
      ensures chunks[i].chunkId == id + i
    {
      assert IsChunkOf(doc, id + i, spans[i], chunks[i]);
    }
  }

  /** Ids run 0..N-1 across all documents. */
  lemma {:induction false} IdsAreConsecutive(docs: seq<Document>, size: nat, overlap: nat)
    ensures NumberedFrom(AllChunks(docs, size, overlap), 0)
  {
    if docs != [] {
      var before := AllChunks(docs[..|docs| - 1], size, overlap);
      IdsAreConsecutive(docs[..|docs| - 1], size, overlap);
      ChunksAreNumbered(docs[|docs| - 1], size, overlap, |before|);
      hide ChunksFrom;
    }
  }

  /** Windows over `n` characters are non-empty and no longer than the size; each starts after
      the one before, at or before its end; the last one reaches the end of the document. */
  ghost predicate Covers(n: nat, start: nat, size: nat, spans: seq<Span>) {
    && spans != [] && spans[0].start == start && spans[|spans| - 1].end == n
    && (forall i :: 0 <= i < |spans| ==> spans[i].start < spans[i].end <= Min(spans[i].start + size, n))
    && (forall i :: 0 <= i < |spans| - 1 ==> spans[i].start < spans[i + 1].start <= spans[i].end)
  }

  lemma CoversCons(n: nat, start: nat, end: nat, next: nat, size: nat, rest: seq<Span>)
    requires start < end <= Min(start + size, n) && start < next <= end && Covers(n, next, size, rest)
    ensures Covers(n, start, size, [Span(start, end)] + rest)
  {
    var spans := [Span(start, end)] + rest;
    forall i | 0 <= i < |spans| - 1
      ensures spans[i].start < spans[i + 1].start <= spans[i].end
    {
      assert spans[i + 1] == rest[i] && (i > 0 ==> spans[i] == rest[i - 1]);
    }
    forall i | 0 <= i < |spans|
      ensures spans[i].start < spans[i].end <= Min(spans[i].start + size, n)
    {
      assert i > 0 ==> spans[i] == rest[i - 1];
    }
  }

  lemma {:induction false} SpansCover(content: string, start: nat, size: nat, overlap: nat)
    requires size >= 1 && start < |content|
    ensures Covers(|content|, start, size, Spans(content, start, size, overlap))
    decreases |content| - start
  {
    ChunkEndBounds(content, start, size);
    var end := ChunkEnd(content, start, size);
    var next := NextStart(start, end, overlap);
    if next < |content| {
      SpansCover(content, next, size, overlap);
      CoversCons(|content|, start, end, next, size, Spans(content, next, size, overlap));
      hide ChunkEnd, Covers;
    } else {
      NoSpansBeyond(content, next, size, overlap);
      assert Spans(content, start, size, overlap) == [Span(start, |content|)];
      hide ChunkEnd, Spans;
    }
  }

  lemma NoSpansBeyond(content: string, start: nat, size: nat, overlap: nat)
    requires start >= |content|
    ensures Spans(content, start, size, overlap) == []
  {
  }

  /** Spans that can be joined: within the content, starts in order. */
  ghost predicate Joinable(content: string, spans: seq<Span>) {
    && (forall s :: s in spans ==> s.start <= s.end <= |content|)
    && (forall i :: 0 <= i < |spans| - 1 ==> spans[i].start <= spans[i + 1].start)
  }

  /** What each window adds before the next one starts, and the whole of the last. */
  function Joined(content: string, spans: seq<Span>): string
    requires Joinable(content, spans)
  {
    if spans == [] then []
    else if |spans| == 1 then content[spans[0].start..spans[0].end]
    else content[spans[0].start..spans[1].start] + Joined(content, spans[1..])
  }

  lemma JoinableCons(content: string, start: nat, end: nat, next: nat, rest: seq<Span>)
    requires start < end <= |content| && start < next && Joinable(content, rest)
    requires rest != [] && rest[0].start == next
    ensures Joinable(content, [Span(start, end)] + rest)
  {
    var spans := [Span(start, end)] + rest;
    forall i | 0 <= i < |spans| - 1
      ensures spans[i].start <= spans[i + 1].start
    {
      assert spans[i + 1] == rest[i] && (i > 0 ==> spans[i] == rest[i - 1]);
    }
  }

  lemma JoinedCons(content: string, start: nat, end: nat, next: nat, rest: seq<Span>)
    requires start < next < |content| && rest != [] && rest[0].start == next
    requires Joinable(content, rest) && Joinable(content, [Span(start, end)] + rest)
    requires Joined(content, rest) == content[next..]
    ensures Joined(content, [Span(start, end)] + rest) == content[start..]
  {
    hide *;
    var spans := [Span(start, end)] + rest;
    assert spans[1..] == rest && spans[1] == rest[0];
    JoinedUnfold(content, spans);
    SliceAppend(content, start, next);
  }

  lemma JoinedUnfold(content: string, spans: seq<Span>)
    requires |spans| >= 2 && Joinable(content, spans) && Joinable(content, spans[1..])
    ensures spans[0].start <= spans[1].start <= |content|
    ensures Joined(content, spans) == content[spans[0].start..spans[1].start] + Joined(content, spans[1..])
  {
  }

  lemma SliceAppend(s: string, i: nat, j: nat)
    requires i <= j <= |s|
    ensures s[i..j] + s[j..] == s[i..]
  {
  }

  /** No character is lost: the windows rebuild the document. */
  lemma {:induction false} SpansRebuild(content: string, start: nat, size: nat, overlap: nat)
    requires size >= 1 && start < |content|
    ensures Joinable(content, Spans(content, start, size, overlap))
    ensures Joined(content, Spans(content, start, size, overlap)) == content[start..]
    decreases |content| - start
  {
    ChunkEndBounds(content, start, size);
    var end := ChunkEnd(content, start, size);
    var next := NextStart(start, end, overlap);
    if next < |content| {
      SpansRebuild(content, next, size, overlap);
      SpansStart(content, next, size, overlap);
      JoinableCons(content, start, end, next, Spans(content, next, size, overlap));
      JoinedCons(content, start, end, next, Spans(content, next, size, overlap));
      hide ChunkEnd, Joinable, Joined;
    } else {
      NoSpansBeyond(content, next, size, overlap);
      assert Spans(content, start, size, overlap) == [Span(start, |content|)];
      hide ChunkEnd, Spans;
    }
  }

  lemma SpansStart(content: string, start: nat, size: nat, overlap: nat)
    requires start < |content|
    ensures var spans := Spans(content, start, size, overlap);
      spans != [] && spans[0] == Span(start, ChunkEnd(content, start, size))
  {
  }

  /** The window `i` ends before the document; the next one starts `overlap` characters before that,
      and ends further on. */
  predicate SharesOverlap(spans: seq<Span>, i: nat, overlap: nat) {
    i + 1 < |spans| && spans[i].end - spans[i + 1].start == overlap && spans[i].end < spans[i + 1].end
  }

  /** Every window that ends before the document shares exactly `overlap` characters with the next. */
  ghost predicate ExactOverlaps(n: nat, spans: seq<Span>, overlap: nat) {
    forall i: nat :: i < |spans| && spans[i].end < n ==> SharesOverlap(spans, i, overlap)
  }

  lemma ExactOverlapsCons(n: nat, span: Span, rest: seq<Span>, overlap: nat)
    requires ExactOverlaps(n, rest, overlap)
    requires span.end < n ==> rest != [] && span.end - rest[0].start == overlap && span.end < rest[0].end
    ensures ExactOverlaps(n, [span] + rest, overlap)
  {
    var spans := [span] + rest;
    forall i: nat | i < |spans| && spans[i].end < n
      ensures SharesOverlap(spans, i, overlap)
    {
      if i == 0 {
        assert spans[1] == rest[0];
      } else {
        assert spans[i] == rest[i - 1];
        assert SharesOverlap(rest, i - 1, overlap);
        assert spans[i + 1] == rest[i];
      }
    }
  }

  /** With an overlap of at most half the size, a window that ends before the document
      shares exactly `overlap` characters with the next one, which ends further on. */
  lemma {:induction false} OverlapIsExact(content: string, start: nat, size: nat, overlap: nat)
    requires size >= 1 && overlap <= size / 2
    ensures ExactOverlaps(|content|, Spans(content, start, size, overlap), overlap)
    decreases |content| - start
  {
    if start < |content| {
      ChunkEndBounds(content, start, size);
      var end := ChunkEnd(content, start, size);
      var next := NextStart(start, end, overlap);
      OverlapIsExact(content, next, size, overlap);
      if end < |content| {
        ChunkEndBounds(content, next, size);
        SpansStart(content, next, size, overlap);
      }
      ExactOverlapsCons(|content|, Span(start, end), Spans(content, next, size, overlap), overlap);
      hide ChunkEnd, ExactOverlaps;
    }
  }

  /** Once a window at `start` reaches the end, exactly min(overlap, n - start - 1) more follow,
      each a suffix of the document that starts one later than the one before. */
  lemma {:induction false} TailIsExact(content: string, start: nat, size: nat, overlap: nat)
    requires size >= 1 && start < |content| && ChunkEnd(content, start, size) == |content|
    ensures var spans := Spans(content, start, size, overlap);
      var first := Max(|content| - overlap, start + 1);
      && |spans| == 1 + Min(overlap, |content| - start - 1)
      && forall i :: 1 <= i < |spans| ==> spans[i] == Span(first + i - 1, |content|)
    decreases |content| - start
  {
    var next := NextStart(start, |content|, overlap);
    var spans, rest := Spans(content, start, size, overlap), Spans(content, next, size, overlap);
    assert spans == [Span(start, |content|)] + rest;
    if next < |content| {
      ReachesEndToo(content, start, next, size);
      TailIsExact(content, next, size, overlap);
      assert rest[0] == Span(next, |content|);
    }
    hide ChunkEnd, Spans;
  }

  lemma ReachesEndToo(content: string, start: nat, next: nat, size: nat)
    requires size >= 1 && start < next < |content| && ChunkEnd(content, start, size) == |content|
    ensures ChunkEnd(content, next, size) == |content|
  {
    ChunkEndBounds(content, start, size);
    ChunkEndBounds(content, next, size);
  }
}
