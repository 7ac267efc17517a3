/** The paragraph chunker. */
module Chunker {
  import opened Paragraphs

  datatype Chunk = Chunk(text: string, characterCount: nat, tokenCount: nat)

  function MakeChunk(ps: seq<string>): Chunk {
    var text := Join(ps);
    Chunk(text, |text|, |text| / 4)
  }

  /** Where chunks end, counted in paragraphs, newest last. A chunk starts with the last
      paragraph of the chunk before it. */
  datatype Cuts = First(end: nat) | Then(front: Cuts, end: nat)

  function Start(c: Cuts): int {
    if c.First? then 0 else c.front.end - 1
  }

  /** The end a chunk reaches whatever its size: one paragraph for the first chunk, the overlap
      and one new paragraph for a later one. */
  function LeastEnd(c: Cuts): int {
    if c.First? then 1 else c.front.end + 1
  }

  ghost predicate Spans(ps: seq<string>, c: Cuts) {
    0 <= Start(c) < LeastEnd(c) <= c.end <= |ps|
  }

  /** Beyond its least end the chunk is within the chunk size. */
  ghost predicate Within(ps: seq<string>, size: int, c: Cuts)
    requires Spans(ps, c)
  {
    LeastEnd(c) < c.end ==> Size(ps, Start(c), c.end) <= size
  }

  /** There is a next paragraph and it does not fit. */
  ghost predicate Full(ps: seq<string>, size: int, c: Cuts)
    requires Spans(ps, c)
  {
    c.end < |ps| && Size(ps, Start(c), c.end + 1) > size
  }

  /** Chunks are consecutive, each later one repeats exactly its predecessor's last paragraph
      and adds at least one; each grows no further than the size allows, and is closed only
      when the next paragraph does not fit. */
  ghost predicate Greedy(ps: seq<string>, size: int, c: Cuts) {
    && Spans(ps, c) && Within(ps, size, c)
    && (c.Then? ==> Greedy(ps, size, c.front) && Full(ps, size, c.front))
  }

  function Slice(ps: seq<string>, c: Cuts): seq<string> {
    if 0 <= Start(c) <= c.end <= |ps| then ps[Start(c)..c.end] else []
  }

  function Chunks(ps: seq<string>, c: Cuts): (r: seq<Chunk>)
    ensures r != [] && r[|r| - 1] == MakeChunk(Slice(ps, c))
  {
    (if c.First? then [] else Chunks(ps, c.front)) + [MakeChunk(Slice(ps, c))]
  }

  // ---- there is only one greedy chunking ----

  function Depth(c: Cuts): nat {
    if c.First? then 0 else Depth(c.front) + 1
  }

  lemma {:induction false} SameEnd(ps: seq<string>, size: int, c: Cuts, d: Cuts)
    requires Spans(ps, c) && Spans(ps, d) && Start(c) == Start(d) && LeastEnd(c) == LeastEnd(d)
    requires Full(ps, size, c) && Within(ps, size, d)
    ensures d.end <= c.end
  {
    if c.end < d.end {
      SizeGrows(ps, Start(c), c.end + 1, d.end);
    }
  }

  lemma {:induction false} FullUnique(ps: seq<string>, size: int, c: Cuts, d: Cuts)
    requires Greedy(ps, size, c) && Greedy(ps, size, d) && Depth(c) == Depth(d)
    requires Full(ps, size, c) && Full(ps, size, d)
    ensures c == d
  {
    if c.Then? {
      FullUnique(ps, size, c.front, d.front);
    }
    SameEnd(ps, size, c, d);
    SameEnd(ps, size, d, c);
  }

  function Ancestor(c: Cuts, depth: nat): Cuts {
    if c.First? || Depth(c) <= depth then c else Ancestor(c.front, depth)
  }

  lemma {:induction false} AncestorGreedy(ps: seq<string>, size: int, c: Cuts, depth: nat)
    requires Greedy(ps, size, c) && depth < Depth(c)
    ensures var e := Ancestor(c, depth); Depth(e) == depth && Greedy(ps, size, e) && Full(ps, size, e)
  {
    if depth < Depth(c.front) {
      AncestorGreedy(ps, size, c.front, depth);
    }
  }

  lemma {:induction false} NotDeeper(ps: seq<string>, size: int, c: Cuts, d: Cuts)
    requires Greedy(ps, size, c) && Greedy(ps, size, d) && c.end == |ps|
    ensures Depth(d) <= Depth(c)
  {
    if Depth(c) < Depth(d) {
      AncestorGreedy(ps, size, d, Depth(c));
      var e := Ancestor(d, Depth(c));
      if c.Then? {
        FullUnique(ps, size, c.front, e.front);
      }
      SameEnd(ps, size, e, c);
    }
  }

  /** The description determines the chunks. */
  lemma {:induction false} GreedyUnique(ps: seq<string>, size: int, c: Cuts, d: Cuts)
    requires Greedy(ps, size, c) && Greedy(ps, size, d) && c.end == |ps| == d.end
    ensures c == d
  {
    NotDeeper(ps, size, c, d);
    NotDeeper(ps, size, d, c);
    if c.Then? {
      FullUnique(ps, size, c.front, d.front);
    }
  }

  // ---- putting the text back together ----

  /** Split every chunk text again and drop the first paragraph of every chunk but the first. */
  function Gather(chunks: seq<Chunk>): seq<string> {
    if chunks == [] then []
    else
      var last := |chunks| - 1;
      if last == 0 then Split(chunks[0].text) else Gather(chunks[..last]) + Split(chunks[last].text)[1..]
  }

  function Reassemble(chunks: seq<Chunk>): string {
    Join(Gather(chunks))
  }

  lemma {:induction false} SplitSlice(ps: seq<string>, c: Cuts)
    requires Canonical(ps) && Spans(ps, c)
    ensures Slice(ps, c) != [] && Split(MakeChunk(Slice(ps, c)).text) == Slice(ps, c)
  {
    SliceCanonical(ps, Start(c), c.end);
    SplitJoin(ps[Start(c)..c.end]);
  }

  lemma {:induction false} GatherChunks(ps: seq<string>, size: int, c: Cuts)
    requires Canonical(ps) && Greedy(ps, size, c)
    ensures Gather(Chunks(ps, c)) == ps[..c.end]
  {
    SplitSlice(ps, c);
    var chunks := Chunks(ps, c);
    if c.First? {
      assert chunks == [MakeChunk(Slice(ps, c))];
      assert ps[0..c.end] == ps[..c.end];
    } else {
      GatherChunks(ps, size, c.front);
      assert chunks[..|chunks| - 1] == Chunks(ps, c.front);
      SliceOverlap(ps, c.front.end, c.end);
    }
  }

  lemma {:induction false} ChunkCount(ps: seq<string>, size: int, c: Cuts)
    requires Greedy(ps, size, c)
    ensures |Chunks(ps, c)| <= c.end
  {
    if c.Then? {
      ChunkCount(ps, size, c.front);
    }
  }

  // ---- the chunker ----

  /** What the chunks of a text are. */
  ghost predicate IsChunking(text: string, size: int, chunks: seq<Chunk>) {
    exists c: Cuts :: Greedy(Split(text), size, c) && c.end == |Split(text)| && chunks == Chunks(Split(text), c)
  }

  function ClosedChunks(ps: seq<string>, c: Cuts): seq<Chunk> {
    if c.First? then [] else Chunks(ps, c.front)
  }

  lemma {:induction false} GrowGreedy(ps: seq<string>, size: int, c: Cuts)
    requires Greedy(ps, size, c) && c.end < |ps| && Size(ps, Start(c), c.end + 1) <= size
    ensures Greedy(ps, size, c.(end := c.end + 1))
  {
  }

  lemma {:induction false} CloseGreedy(ps: seq<string>, size: int, c: Cuts)
    requires Greedy(ps, size, c) && c.end < |ps| && Size(ps, Start(c), c.end + 1) > size
    ensures Greedy(ps, size, Then(c, c.end + 1))
  {
  }

  /** The paragraphs carried over: `current[-1:] if len(current) > 1 else current`. */
  function Carried(current: seq<string>): seq<string> {
    if |current| > 1 then current[|current| - 1..] else current
  }

  /** The three variables of the loop. */
  datatype Packing = Packing(chunks: seq<Chunk>, current: seq<string>, currentSize: int)

  /** The open chunk holds the paragraphs from `a` up to `b`. */
  ghost predicate Open(ps: seq<string>, a: int, b: int, p: Packing) {
    0 <= a < b <= |ps| && p.current == ps[a..b] && p.currentSize == Size(ps, a, b)
  }

  /** The variables after the first `c.end` paragraphs. */
  ghost predicate Packed(ps: seq<string>, c: Cuts, p: Packing) {
    Open(ps, Start(c), c.end, p) && p.chunks == ClosedChunks(ps, c)
  }

  /** One turn of the loop. */
  function Take(p: Packing, size: int, para: string): Packing {
    if p.currentSize + |para| > size && p.current != [] then
      var kept := Carried(p.current);
      Packing(p.chunks + [MakeChunk(p.current)], kept + [para], Total(kept) + |para|)
    else Packing(p.chunks, p.current + [para], p.currentSize + |para|)
  }

  lemma {:induction false} TakeFirst(ps: seq<string>, size: int)
    requires ps != []
    ensures Packed(ps, First(1), Take(Packing([], [], 0), size, ps[0]))
  {
  }

  lemma {:induction false} GrowOpen(ps: seq<string>, size: int, a: int, b: int, p: Packing)
    requires Open(ps, a, b, p) && b < |ps| && p.currentSize + |ps[b]| <= size
    ensures Open(ps, a, b + 1, Take(p, size, ps[b])) && Take(p, size, ps[b]).chunks == p.chunks
  {
    SliceSnoc(ps, a, b);
  }

  lemma {:induction false} TakeGrow(ps: seq<string>, size: int, c: Cuts, p: Packing)
    requires Packed(ps, c, p) && c.end < |ps| && p.currentSize + |ps[c.end]| <= size
    ensures Packed(ps, c.(end := c.end + 1), Take(p, size, ps[c.end]))
  {
    GrowOpen(ps, size, Start(c), c.end, p);
  }

  lemma {:induction false} CarriedIsLast(ps: seq<string>, a: int, b: int)
    requires 0 <= a < b < |ps|
    ensures Carried(ps[a..b]) == [ps[b - 1]]
  {
    SliceEnd(ps, a, b);
  }

  lemma {:induction false} TotalOfOne(ps: seq<string>, b: int)
    requires 0 < b <= |ps|
    ensures Total([ps[b - 1]]) == Size(ps, b - 1, b)
  {
    var p := ps[b - 1];
    assert Size([p], 0, 0) == 0 && Size(ps, b - 1, b - 1) == 0;
  }

  lemma {:induction false} CloseOpen(ps: seq<string>, size: int, a: int, b: int, p: Packing)
    requires Open(ps, a, b, p) && b < |ps| && p.currentSize + |ps[b]| > size
    ensures Open(ps, b - 1, b + 1, Take(p, size, ps[b]))
    ensures Take(p, size, ps[b]).chunks == p.chunks + [MakeChunk(p.current)]
  {
    CarriedIsLast(ps, a, b);
    TotalOfOne(ps, b);
    SliceEnd(ps, a, b);
    assert [ps[b - 1]] + [ps[b]] == [ps[b - 1], ps[b]];
  }

  lemma {:induction false} TakeClose(ps: seq<string>, size: int, c: Cuts, p: Packing)
    requires Packed(ps, c, p) && c.end < |ps| && p.currentSize + |ps[c.end]| > size
    ensures Packed(ps, Then(c, c.end + 1), Take(p, size, ps[c.end]))
  {
    CloseOpen(ps, size, Start(c), c.end, p);
    AllChunks(ps, c, p);
  }

  lemma {:induction false} AllChunks(ps: seq<string>, c: Cuts, p: Packing)
    requires Packed(ps, c, p)
    ensures Chunks(ps, c) == p.chunks + [MakeChunk(p.current)]
  {
    assert Slice(ps, c) == p.current;
  }

  lemma {:induction false} Complete(text: string, size: int, c: Cuts, p: Packing)
    requires Greedy(Split(text), size, c) && Packed(Split(text), c, p) && c.end == |Split(text)|
    ensures p.current != [] && IsChunking(text, size, p.chunks + [MakeChunk(p.current)])
  {
    AllChunks(Split(text), c, p);
  }

  /** `chunkOverlap` has no effect in the code: the overlap is always exactly one paragraph. */
  method ChunkText(text: string, chunkSize: int, chunkOverlap: int) returns (chunks: seq<Chunk>)
    ensures IsChunking(text, chunkSize, chunks)
  {
    var paragraphs := Split(text);
    ghost var cuts := First(1);
    chunks := [];
    var current, currentSize := [], 0;
    for i := 0 to |paragraphs|
      invariant i == 0 ==> Packing(chunks, current, currentSize) == Packing([], [], 0)
      invariant i > 0 ==> Packed(paragraphs, cuts, Packing(chunks, current, currentSize))
      invariant i > 0 ==> Greedy(paragraphs, chunkSize, cuts) && cuts.end == i
    {
      var para := paragraphs[i];
      ghost var before := Packing(chunks, current, currentSize);
      if currentSize + |para| > chunkSize && current != [] {
        chunks := chunks + [MakeChunk(current)];
        current := Carried(current);
        currentSize := Total(current);
      }
      current := current + [para];
      currentSize := currentSize + |para|;
      cuts := TakeOne(paragraphs, chunkSize, i, cuts, before);
    }
    Complete(text, chunkSize, cuts, Packing(chunks, current, currentSize));
    if current != [] {
      chunks := chunks + [MakeChunk(current)];
    }
  }

  /** The cuts after one more paragraph. */
  lemma {:induction false} TakeOne(ps: seq<string>, size: int, i: nat, c: Cuts, p: Packing) returns (d: Cuts)
    requires i < |ps|
    requires if i == 0 then p == Packing([], [], 0) else Packed(ps, c, p) && Greedy(ps, size, c) && c.end == i
    ensures Packed(ps, d, Take(p, size, ps[i])) && Greedy(ps, size, d) && d.end == i + 1
  {
    if i == 0 {
      TakeFirst(ps, size);
      d := First(1);
    } else {
      d := TakeLater(ps, size, c, p);
    }
  }

  lemma {:induction false} TakeLater(ps: seq<string>, size: int, c: Cuts, p: Packing) returns (d: Cuts)
    requires Packed(ps, c, p) && Greedy(ps, size, c) && c.end < |ps|
    ensures Packed(ps, d, Take(p, size, ps[c.end])) && Greedy(ps, size, d) && d.end == c.end + 1
  {
    GreedyStep(ps, size, c, p);
    if p.currentSize + |ps[c.end]| > size {
      TakeClose(ps, size, c, p);
      d := Then(c, c.end + 1);
    } else {
      TakeGrow(ps, size, c, p);
      d := c.(end := c.end + 1);
    }
  }

  lemma {:induction false} GreedyStep(ps: seq<string>, size: int, c: Cuts, p: Packing)
    requires Packed(ps, c, p) && Greedy(ps, size, c) && c.end < |ps|
    ensures Greedy(ps, size, if p.currentSize + |ps[c.end]| > size then Then(c, c.end + 1) else c.(end := c.end + 1))
  {
  }

  /** The greedy cuts that continue `c` to the end of the list. */
  function Pack(ps: seq<string>, size: int, c: Cuts): Cuts
    decreases |ps| - c.end
  {
    if c.end >= |ps| || Start(c) < 0 then c
    else if Size(ps, Start(c), c.end + 1) > size then Pack(ps, size, Then(c, c.end + 1))
    else Pack(ps, size, c.(end := c.end + 1))
  }

  lemma {:induction false} PackGreedy(ps: seq<string>, size: int, c: Cuts)
    requires Greedy(ps, size, c)
    ensures Greedy(ps, size, Pack(ps, size, c)) && Pack(ps, size, c).end == |ps|
    decreases |ps| - c.end
  {
    if c.end < |ps| {
      if Size(ps, Start(c), c.end + 1) > size {
        CloseGreedy(ps, size, c);
        PackGreedy(ps, size, Then(c, c.end + 1));
      } else {
        GrowGreedy(ps, size, c);
        PackGreedy(ps, size, c.(end := c.end + 1));
      }
    }
  }

  function ChunkList(text: string, size: int): seq<Chunk> {
    Chunks(Split(text), Pack(Split(text), size, First(1)))
  }

  /** Every text has a chunking, and only the one. */
  lemma {:induction false} ChunkListCorrect(text: string, size: int, chunks: seq<Chunk>)
    ensures IsChunking(text, size, chunks) <==> chunks == ChunkList(text, size)
  {
    PackGreedy(Split(text), size, First(1));
    assert IsChunking(text, size, ChunkList(text, size));
    if IsChunking(text, size, chunks) {
      ChunkingUnique(text, size, chunks, ChunkList(text, size));
    }
  }

  /** The chunks of a text are determined by the text and the chunk size. */
  lemma {:induction false} ChunkingUnique(text: string, size: int, x: seq<Chunk>, y: seq<Chunk>)
    requires IsChunking(text, size, x) && IsChunking(text, size, y)
    ensures x == y
  {
    var ps := Split(text);
    var c: Cuts :| Greedy(ps, size, c) && c.end == |ps| && x == Chunks(ps, c);
    var d: Cuts :| Greedy(ps, size, d) && d.end == |ps| && y == Chunks(ps, d);
    GreedyUnique(ps, size, c, d);
  }

  /** From the chunk texts alone the original text comes back exactly. */
  lemma {:induction false} ChunkRoundTrip(text: string, size: int, chunks: seq<Chunk>)
    requires IsChunking(text, size, chunks)
    ensures Reassemble(chunks) == text
  {
    var ps := Split(text);
    var c: Cuts :| Greedy(ps, size, c) && c.end == |ps| && chunks == Chunks(ps, c);
    RoundTripOf(text, size, c);
  }

  lemma {:induction false} RoundTripOf(text: string, size: int, c: Cuts)
    requires Greedy(Split(text), size, c) && c.end == |Split(text)|
    ensures Reassemble(Chunks(Split(text), c)) == text
  {
    var ps := Split(text);
    SplitCanonical(text);
    GatherChunks(ps, size, c);
    assert ps[..|ps|] == ps;
    JoinSplit(text);
  }

  ghost predicate Bounded(size: int, c: Chunk) {
    var n := |Split(c.text)|;
    && c.characterCount == |c.text| && c.tokenCount == c.characterCount / 4
    && (n >= 3 ==> c.characterCount <= size + 2 * (n - 1))
  }

  lemma {:induction false} BoundedText(ps: seq<string>, size: int)
    requires Canonical(ps) && (|ps| >= 3 ==> Total(ps) <= size)
    ensures Bounded(size, MakeChunk(ps))
  {
    SplitJoin(ps);
    JoinLength(ps);
  }

  lemma {:induction false} SliceBounded(ps: seq<string>, size: int, c: Cuts)
    requires Canonical(ps) && Greedy(ps, size, c)
    ensures Bounded(size, MakeChunk(Slice(ps, c)))
  {
    SliceCanonical(ps, Start(c), c.end);
    SizeOfSlice(ps, Start(c), c.end, c.end);
    BoundedText(ps[Start(c)..c.end], size);
  }

  lemma {:induction false} ChunksBounded(ps: seq<string>, size: int, c: Cuts)
    requires Canonical(ps) && Greedy(ps, size, c)
    ensures forall k :: 0 <= k < |Chunks(ps, c)| ==> Bounded(size, Chunks(ps, c)[k])
  {
    SliceBounded(ps, size, c);
    if c.Then? {
      ChunksBounded(ps, size, c.front);
    }
  }

  /** There are no more chunks than paragraphs, and a chunk of three or more paragraphs is
      within the chunk size but for its separators. */
  lemma {:induction false} ChunkBounds(text: string, size: int, chunks: seq<Chunk>)
    requires IsChunking(text, size, chunks)
    ensures 1 <= |chunks| <= |Split(text)|
    ensures forall k :: 0 <= k < |chunks| ==> Bounded(size, chunks[k])
  {
    var ps := Split(text);
    var c: Cuts :| Greedy(ps, size, c) && c.end == |ps| && chunks == Chunks(ps, c);
    SplitCanonical(text);
    ChunkCount(ps, size, c);
    ChunksBounded(ps, size, c);
  }

  // ---- neighbouring chunks ----

  /** The second chunk starts with the last paragraph of the first and adds at least one, which
      would have made the first too long. */
  ghost predicate Neighbours(size: int, x: Chunk, y: Chunk) {
    var p, q := Split(x.text), Split(y.text);
    |q| >= 2 && q[0] == p[|p| - 1] && |x.text| - 2 * (|p| - 1) + |q[1]| > size
  }

  lemma {:induction false} SliceLength(ps: seq<string>, a: int, b: int)
    requires 0 <= a < b <= |ps|
    ensures |Join(ps[a..b])| == Size(ps, a, b) + 2 * (b - a - 1)
  {
    JoinLength(ps[a..b]);
    SizeOfSlice(ps, a, b, b);
  }

  lemma {:induction false} SliceText(ps: seq<string>, c: Cuts)
    requires Canonical(ps) && Spans(ps, c)
    ensures var text := MakeChunk(Slice(ps, c)).text;
            && Split(text) == Slice(ps, c) && |Slice(ps, c)| == c.end - Start(c)
            && |text| - 2 * (|Split(text)| - 1) == Size(ps, Start(c), c.end)
  {
    SplitSlice(ps, c);
    SliceLength(ps, Start(c), c.end);
  }

  lemma {:induction false} SlicesMeet<T>(s: seq<T>, a: int, b: int, c: int)
    requires 0 <= a < b < c <= |s|
    ensures |s[b - 1..c]| >= 2 && s[b - 1..c][0] == s[a..b][|s[a..b]| - 1] && s[b - 1..c][1] == s[b]
  {
  }

  lemma {:induction false} SpansBoth(ps: seq<string>, size: int, c: Cuts)
    requires Greedy(ps, size, c) && c.Then?
    ensures Spans(ps, c) && Spans(ps, c.front) && Start(c) == c.front.end - 1 && c.front.end < c.end
    ensures Size(ps, Start(c.front), c.front.end) + |ps[c.front.end]| > size
  {
  }

  lemma {:induction false} LastNeighbours(ps: seq<string>, size: int, c: Cuts)
    requires Canonical(ps) && Greedy(ps, size, c) && c.Then?
    ensures Neighbours(size, MakeChunk(Slice(ps, c.front)), MakeChunk(Slice(ps, c)))
  {
    SpansBoth(ps, size, c);
    SliceText(ps, c);
    SliceText(ps, c.front);
    SlicesMeet(ps, Start(c.front), c.front.end, c.end);
  }

  lemma {:induction false} CutsNeighbours(ps: seq<string>, size: int, c: Cuts, k: nat)
    requires Canonical(ps) && Greedy(ps, size, c) && k + 1 < |Chunks(ps, c)|
    ensures Neighbours(size, Chunks(ps, c)[k], Chunks(ps, c)[k + 1])
  {
    if k + 2 == |Chunks(ps, c)| {
      LastNeighbours(ps, size, c);
    } else {
      CutsNeighbours(ps, size, c.front, k);
    }
  }

  /** From the chunk texts alone: the overlap is exactly one paragraph, every later chunk adds
      one, and no chunk but the last could have taken the next paragraph as well. */
  lemma {:induction false} ChunkNeighbours(text: string, size: int, chunks: seq<Chunk>)
    requires IsChunking(text, size, chunks)
    ensures forall k :: 0 <= k < |chunks| - 1 ==> Neighbours(size, chunks[k], chunks[k + 1])
  {
    var ps := Split(text);
    var c: Cuts :| Greedy(ps, size, c) && c.end == |ps| && chunks == Chunks(ps, c);
    SplitCanonical(text);
    forall k | 0 <= k < |chunks| - 1 ensures Neighbours(size, chunks[k], chunks[k + 1]) {
      CutsNeighbours(ps, size, c, k);
    }
  }

  lemma {:induction false} FirstChunk(ps: seq<string>, size: int, c: Cuts)
    requires Canonical(ps) && Greedy(ps, size, c)
    ensures var first := Chunks(ps, c)[0];
            var n := |Split(first.text)|;
            n >= 2 ==> |first.text| <= size + 2 * (n - 1)
  {
    if c.First? {
      SliceText(ps, c);
    } else {
      FirstChunk(ps, size, c.front);
    }
  }

  /** The first chunk carries nothing over, so from two paragraphs on it is within the size. */
  lemma {:induction false} FirstChunkBound(text: string, size: int, chunks: seq<Chunk>)
    requires IsChunking(text, size, chunks) && chunks != []
    ensures var n := |Split(chunks[0].text)|; n >= 2 ==> |chunks[0].text| <= size + 2 * (n - 1)
  {
    var ps := Split(text);
    var c: Cuts :| Greedy(ps, size, c) && c.end == |ps| && chunks == Chunks(ps, c);
    SplitCanonical(text);
    FirstChunk(ps, size, c);
  }
}
