/**
 * The chunker of `RAGEngine._create_chunks`: every document is cut into
 * sections at "\n## ", short sections become one trimmed chunk, and long
 * sections are cut into word windows that overlap by `overlap` words.
 *
 * The word loop is specified by a left fold (`Step`, `Fold`); the method
 * `SplitLongSection` runs the loop itself and is proved equal to the fold.
 */
module Chunker {
  import opened Text

  /** A loaded file, as `load_documents` records it. */
  datatype Document = Document(path: string, filename: string, content: string)

  /** A retrievable unit: its text and the file name it came from. */
  datatype Chunk = Chunk(source: string, content: string)

  const SectionSeparator: string := "\n## "
  const HeadingMarker: string := "## "
  const DefaultChunkSize: int := 500
  const DefaultOverlap: int := 50

  // ------------------------------------------------------------------ sections

  /** `content.split("\n## ")`, with "## " put back in front of every piece but the first. */
  function Sections(content: string): seq<string> {
    var pieces := SplitOn(content, SectionSeparator);
    seq(|pieces|, i requires 0 <= i < |pieces| => if i == 0 then pieces[0] else HeadingMarker + pieces[i])
  }

  function Prefixed(ps: seq<string>): seq<string> {
    seq(|ps|, i requires 0 <= i < |ps| => HeadingMarker + ps[i])
  }

  lemma {:induction false} JoinPrefixed(first: string, ps: seq<string>)
    ensures Join("\n", [first] + Prefixed(ps)) == Join(SectionSeparator, [first] + ps)
    decreases |ps|
  {
    if ps != [] {
      var head := HeadingMarker + ps[0];
      assert Prefixed(ps) == [head] + Prefixed(ps[1..]);
      assert ([first] + Prefixed(ps))[1..] == Prefixed(ps);
      assert ([first] + ps)[1..] == ps;
      JoinPrefixed(head, ps[1..]);
      JoinConsPrefix(SectionSeparator, HeadingMarker, ps);
      calc {
        Join("\n", [first] + Prefixed(ps));
        first + "\n" + Join("\n", [head] + Prefixed(ps[1..]));
        first + "\n" + Join(SectionSeparator, [head] + ps[1..]);
        first + "\n" + (HeadingMarker + Join(SectionSeparator, ps));
        { assert "\n" + HeadingMarker == SectionSeparator; }
        first + SectionSeparator + Join(SectionSeparator, ps);
        Join(SectionSeparator, [first] + ps);
      }
    }
  }

  /** Sections lose nothing: joined back with "\n" they are the document's content. */
  lemma SectionsRestore(content: string)
    ensures Join("\n", Sections(content)) == content
  {
    var pieces := SplitOn(content, SectionSeparator);
    assert Sections(content) == [pieces[0]] + Prefixed(pieces[1..]);
    assert pieces == [pieces[0]] + pieces[1..];
    JoinPrefixed(pieces[0], pieces[1..]);
    JoinSplitOn(content, SectionSeparator);
  }

  // ------------------------------------------------------------------ the word loop

  /** `sum(len(w) + 1 for w in ws)`: the counter `current_length` of the loop. */
  function WordsLength(ws: seq<string>): nat {
    if ws == [] then 0 else WordsLength(ws[..|ws| - 1]) + |ws[|ws| - 1]| + 1
  }

  /** `ws[-overlap:]` with Python's slice rules (so `ws[-0:]` is all of `ws`). */
  function KeepOverlap(ws: seq<string>, overlap: int): (r: seq<string>)
    ensures |r| <= |ws| && r == ws[|ws| - |r|..]
    ensures overlap > 0 ==> |r| == if overlap < |ws| then overlap else |ws|
    ensures overlap == 0 ==> r == ws
    ensures overlap < 0 ==> |r| == if |ws| + overlap > 0 then |ws| + overlap else 0
  {
    if overlap > 0 then
      (if overlap >= |ws| then ws else ws[|ws| - overlap..])
    else if -overlap >= |ws| then []
    else ws[-overlap..]
  }

  /** The state of the loop: chunks flushed so far (as word lists) and `current_chunk`. */
  datatype Acc = Acc(emitted: seq<seq<string>>, current: seq<string>)

  /** One iteration: append the word; once the counter reaches `chunkSize`, flush and keep the overlap. */
  function Step(acc: Acc, w: string, chunkSize: int, overlap: int): Acc {
    var cur := acc.current + [w];
    if WordsLength(cur) >= chunkSize then Acc(acc.emitted + [cur], KeepOverlap(cur, overlap))
    else Acc(acc.emitted, cur)
  }

  function Fold(words: seq<string>, chunkSize: int, overlap: int): Acc {
    if words == [] then Acc([], [])
    else Step(Fold(words[..|words| - 1], chunkSize, overlap), words[|words| - 1], chunkSize, overlap)
  }

  /** The word lists of the chunks a long section yields: every flush, then the non-empty leftover. */
  function WordChunks(words: seq<string>, chunkSize: int, overlap: int): seq<seq<string>> {
    var a := Fold(words, chunkSize, overlap);
    if a.current != [] then a.emitted + [a.current] else a.emitted
  }

  function Render(source: string, wcs: seq<seq<string>>): seq<Chunk> {
    seq(|wcs|, k requires 0 <= k < |wcs| => Chunk(source, Join(" ", wcs[k])))
  }

  function LongSectionChunks(source: string, section: string, chunkSize: int, overlap: int): seq<Chunk> {
    Render(source, WordChunks(Words(section), chunkSize, overlap))
  }

  /** The chunks one section yields. */
  function SectionChunks(source: string, section: string, chunkSize: int, overlap: int): seq<Chunk> {
    if |section| > chunkSize then LongSectionChunks(source, section, chunkSize, overlap)
    else if Strip(section) != [] then [Chunk(source, Strip(section))]
    else []
  }

  function ChunksOfSections(source: string, sections: seq<string>, chunkSize: int, overlap: int): seq<Chunk> {
    if sections == [] then []
    else ChunksOfSections(source, sections[..|sections| - 1], chunkSize, overlap)
         + SectionChunks(source, sections[|sections| - 1], chunkSize, overlap)
  }

  function DocumentChunks(doc: Document, chunkSize: int, overlap: int): seq<Chunk> {
    ChunksOfSections(doc.filename, Sections(doc.content), chunkSize, overlap)
  }

  /** What one run of `_create_chunks` appends for the given documents. */
  function AllChunks(docs: seq<Document>, chunkSize: int, overlap: int): seq<Chunk> {
    if docs == [] then []
    else AllChunks(docs[..|docs| - 1], chunkSize, overlap) + DocumentChunks(docs[|docs| - 1], chunkSize, overlap)
  }

  /** One more section processed: its chunks follow those of the sections before it. */
  lemma ChunksOfSectionsPrefix(source: string, sections: seq<string>, i: nat, chunkSize: int, overlap: int)
    requires i < |sections|
    ensures ChunksOfSections(source, sections[..i + 1], chunkSize, overlap) ==
      ChunksOfSections(source, sections[..i], chunkSize, overlap) + SectionChunks(source, sections[i], chunkSize, overlap)
  {
    var prefix := sections[..i + 1];
    assert prefix[..|prefix| - 1] == sections[..i];
    assert prefix[|prefix| - 1] == sections[i];
  }

  lemma AllChunksPrefix(docs: seq<Document>, d: nat, chunkSize: int, overlap: int)
    requires d < |docs|
    ensures AllChunks(docs[..d + 1], chunkSize, overlap) ==
      AllChunks(docs[..d], chunkSize, overlap) + DocumentChunks(docs[d], chunkSize, overlap)
  {
    assert docs[..d + 1][..d] == docs[..d];
  }

  /**
   * The long-section branch of `_create_chunks`: the loop over the words of
   * the section with `current_chunk` and `current_length`.
   */
  method SplitLongSection(source: string, section: string, chunkSize: int, overlap: int) returns (out: seq<Chunk>)
    ensures out == LongSectionChunks(source, section, chunkSize, overlap)
  {
    var words := Words(section);
    var currentChunk: seq<string> := [];
    var currentLength: int := 0;
    ghost var flushed: seq<seq<string>> := [];
    out := [];
    for i := 0 to |words|
      invariant currentLength == WordsLength(currentChunk)
      invariant Fold(words[..i], chunkSize, overlap) == Acc(flushed, currentChunk)
      invariant out == Render(source, flushed)
    {
      FoldSnoc(words, i, chunkSize, overlap);
      var word := words[i];
      WordsLengthSnoc(currentChunk, word);
      currentChunk := currentChunk + [word];
      currentLength := currentLength + |word| + 1;
      if currentLength >= chunkSize {
        RenderSnoc(source, flushed, currentChunk);
        out := out + [Chunk(source, Join(" ", currentChunk))];
        flushed := flushed + [currentChunk];
        currentChunk := KeepOverlap(currentChunk, overlap);
        currentLength := WordsLength(currentChunk);
      }
    }
    assert words[..|words|] == words;
    if currentChunk != [] {
      RenderSnoc(source, flushed, currentChunk);
      out := out + [Chunk(source, Join(" ", currentChunk))];
    }
  }

  lemma FoldSnoc(words: seq<string>, i: nat, chunkSize: int, overlap: int)
    requires i < |words|
    ensures Fold(words[..i + 1], chunkSize, overlap) == Step(Fold(words[..i], chunkSize, overlap), words[i], chunkSize, overlap)
  {
    var prefix := words[..i + 1];
    assert prefix[..|prefix| - 1] == words[..i];
  }

  lemma RenderSnoc(source: string, wcs: seq<seq<string>>, x: seq<string>)
    ensures Render(source, wcs + [x]) == Render(source, wcs) + [Chunk(source, Join(" ", x))]
  {
  }

  /** One section of `_create_chunks`: split when long, otherwise one stripped chunk unless blank. */
  method ChunkSection(source: string, section: string, chunkSize: int, overlap: int) returns (out: seq<Chunk>)
    ensures out == SectionChunks(source, section, chunkSize, overlap)
  {
    if |section| > chunkSize {
      out := SplitLongSection(source, section, chunkSize, overlap);
    } else {
      var stripped := Strip(section);
      if stripped != [] {
        out := [Chunk(source, stripped)];
      } else {
        out := [];
      }
    }
  }

  /**
   * The body of the document loop of `_create_chunks`: split the content on
   * `"\n## "`, restore the heading marker of every piece but the first and
   * chunk each section in order.
   */
  method ChunkDocument(doc: Document, chunkSize: int, overlap: int) returns (out: seq<Chunk>)
    ensures out == DocumentChunks(doc, chunkSize, overlap)
  {
    var pieces := SplitOn(doc.content, SectionSeparator);
    ghost var sections := Sections(doc.content);
    out := [];
    for i := 0 to |pieces|
      invariant |sections| == |pieces|
      invariant out == ChunksOfSections(doc.filename, sections[..i], chunkSize, overlap)
    {
      var section := pieces[i];
      if i > 0 {
        section := HeadingMarker + section;
      }
      assert section == sections[i];
      var more := ChunkSection(doc.filename, section, chunkSize, overlap);
      ChunksOfSectionsPrefix(doc.filename, sections, i, chunkSize, overlap);
      out := out + more;
    }
    assert sections[..|pieces|] == sections;
  }

  /** The document loop of `_create_chunks`: the chunks of every document, in order. */
  method ChunkDocuments(docs: seq<Document>, chunkSize: int, overlap: int) returns (out: seq<Chunk>)
    ensures out == AllChunks(docs, chunkSize, overlap)
  {
    out := [];
    for d := 0 to |docs|
      invariant out == AllChunks(docs[..d], chunkSize, overlap)
    {
      var more := ChunkDocument(docs[d], chunkSize, overlap);
      AllChunksPrefix(docs, d, chunkSize, overlap);
      out := out + more;
    }
    assert docs[..|docs|] == docs;
  }

  // ------------------------------------------------------------------ properties of the word loop

  predicate IsPrefix(p: seq<string>, xs: seq<string>) {
    |p| <= |xs| && xs[..|p|] == p
  }

  /** The words the loop starts chunk `k` with: the overlap kept from chunk `k - 1`. */
  function Seed(chunks: seq<seq<string>>, k: nat, overlap: int): seq<string>
    requires k <= |chunks|
  {
    if k == 0 then [] else KeepOverlap(chunks[k - 1], overlap)
  }

  function Drop(xs: seq<string>, n: nat): seq<string> {
    if n <= |xs| then xs[n..] else []
  }

  /** Chunk `k` without its seed: the words first added to chunk `k`. */
  function FreshPart(chunks: seq<seq<string>>, k: nat, overlap: int): seq<string>
    requires k < |chunks|
  {
    Drop(chunks[k], |Seed(chunks, k, overlap)|)
  }

  /** The chunks with their overlap seeds dropped, concatenated. */
  function Reassemble(chunks: seq<seq<string>>, overlap: int): seq<string> {
    if chunks == [] then []
    else Reassemble(chunks[..|chunks| - 1], overlap) + FreshPart(chunks, |chunks| - 1, overlap)
  }

  /** The counter once the first `j` words of the chunk are in. */
  function Counter(chunk: seq<string>, j: nat): nat
    requires j <= |chunk|
  {
    WordsLength(chunk[..j])
  }

  /** The counter first reached `chunkSize` on the chunk's last word, and not before (counting from the seed). */
  predicate FlushedAtThreshold(chunk: seq<string>, seedLength: nat, chunkSize: int) {
    seedLength < |chunk| && WordsLength(chunk) >= chunkSize &&
    forall j :: seedLength < j < |chunk| ==> Counter(chunk, j) < chunkSize
  }

  /** No word added after the seed took the counter to `chunkSize`. */
  predicate BelowThreshold(chunk: seq<string>, seedLength: nat, chunkSize: int) {
    forall j :: seedLength < j <= |chunk| ==> Counter(chunk, j) < chunkSize
  }

  predicate ElementsIn(xs: seq<string>, words: seq<string>) {
    forall i :: 0 <= i < |xs| ==> xs[i] in words
  }

  predicate SeedsChain(chunks: seq<seq<string>>, overlap: int) {
    forall k :: 0 <= k < |chunks| ==> IsPrefix(Seed(chunks, k, overlap), chunks[k])
  }

  predicate AllElementsIn(chunks: seq<seq<string>>, words: seq<string>) {
    forall k :: 0 <= k < |chunks| ==> ElementsIn(chunks[k], words)
  }

  /** Every chunk of `emitted` was flushed on the word that first took the counter to `chunkSize`. */
  predicate AllFlushed(emitted: seq<seq<string>>, chunkSize: int, overlap: int) {
    forall k {:trigger Seed(emitted, k, overlap)} :: 0 <= k < |emitted| ==> FlushedAtThreshold(emitted[k], |Seed(emitted, k, overlap)|, chunkSize)
  }

  /** What holds of the loop state after the words `words` have been processed. */
  predicate FoldInvariant(words: seq<string>, a: Acc, chunkSize: int, overlap: int) {
    SeedsChain(a.emitted + [a.current], overlap) &&
    AllElementsIn(a.emitted + [a.current], words) &&
    Reassemble(a.emitted + [a.current], overlap) == words &&
    AllFlushed(a.emitted, chunkSize, overlap) &&
    BelowThreshold(a.current, |Seed(a.emitted, |a.emitted|, overlap)|, chunkSize)
  }

  lemma SeedSnoc(chunks: seq<seq<string>>, x: seq<string>, k: nat, overlap: int)
    requires k <= |chunks|
    ensures Seed(chunks + [x], k, overlap) == Seed(chunks, k, overlap)
  {
  }

  lemma ReassembleSnoc(chunks: seq<seq<string>>, x: seq<string>, overlap: int)
    ensures Reassemble(chunks + [x], overlap) == Reassemble(chunks, overlap) + Drop(x, |Seed(chunks, |chunks|, overlap)|)
  {
    assert (chunks + [x])[..|chunks|] == chunks;
    SeedSnoc(chunks, x, |chunks|, overlap);
  }

  lemma WordsLengthSnoc(ws: seq<string>, w: string)
    ensures WordsLength(ws + [w]) == WordsLength(ws) + |w| + 1
  {
    assert (ws + [w])[..|ws|] == ws;
  }

  /** Replacing the last chunk by a longer one with the same start keeps the seed chain. */
  lemma SeedsChainExtendLast(e: seq<seq<string>>, c: seq<string>, c1: seq<string>, overlap: int)
    requires SeedsChain(e + [c], overlap)
    requires IsPrefix(c, c1)
    ensures SeedsChain(e + [c1], overlap)
  {
    forall k | 0 <= k < |e| + 1
      ensures IsPrefix(Seed(e + [c1], k, overlap), (e + [c1])[k])
    {
      SeedSnoc(e, c1, k, overlap);
      SeedSnoc(e, c, k, overlap);
      assert IsPrefix(Seed(e + [c], k, overlap), (e + [c])[k]);
    }
  }

  lemma SeedsChainFlush(e: seq<seq<string>>, c1: seq<string>, overlap: int)
    requires SeedsChain(e + [c1], overlap)
    ensures SeedsChain(e + [c1] + [KeepOverlap(c1, overlap)], overlap)
  {
    var e1 := e + [c1];
    forall k | 0 <= k < |e1| + 1
      ensures IsPrefix(Seed(e1 + [KeepOverlap(c1, overlap)], k, overlap), (e1 + [KeepOverlap(c1, overlap)])[k])
    {
      SeedSnoc(e1, KeepOverlap(c1, overlap), k, overlap);
      if k < |e1| {
        assert IsPrefix(Seed(e1, k, overlap), e1[k]);
      }
    }
  }

  lemma ElementsExtend(chunks: seq<seq<string>>, words: seq<string>, w: string)
    requires AllElementsIn(chunks, words)
    ensures AllElementsIn(chunks, words + [w])
  {
    forall k | 0 <= k < |chunks|
      ensures ElementsIn(chunks[k], words + [w])
    {
      assert ElementsIn(chunks[k], words);
    }
  }

  lemma ElementsSuffix(xs: seq<string>, ys: seq<string>, words: seq<string>)
    requires ElementsIn(xs, words)
    requires |ys| <= |xs| && ys == xs[|xs| - |ys|..]
    ensures ElementsIn(ys, words)
  {
    forall i | 0 <= i < |ys|
      ensures ys[i] in words
    {
      assert ys[i] == xs[|xs| - |ys| + i];
    }
  }

  /** An earlier chunk keeps its flush record when another chunk is appended. */
  lemma FlushedKept(e: seq<seq<string>>, c1: seq<string>, k: nat, chunkSize: int, overlap: int)
    requires k < |e|
    requires FlushedAtThreshold(e[k], |Seed(e, k, overlap)|, chunkSize)
    ensures FlushedAtThreshold((e + [c1])[k], |Seed(e + [c1], k, overlap)|, chunkSize)
  {
    SeedSnoc(e, c1, k, overlap);
    assert (e + [c1])[k] == e[k];
  }

  /** The appended chunk keeps its flush record at its new position. */
  lemma FlushedLast(e: seq<seq<string>>, c1: seq<string>, chunkSize: int, overlap: int)
    requires FlushedAtThreshold(c1, |Seed(e, |e|, overlap)|, chunkSize)
    ensures FlushedAtThreshold((e + [c1])[|e|], |Seed(e + [c1], |e|, overlap)|, chunkSize)
  {
    SeedSnoc(e, c1, |e|, overlap);
    assert (e + [c1])[|e|] == c1;
  }

  lemma FlushedExtend(e: seq<seq<string>>, c1: seq<string>, chunkSize: int, overlap: int)
    requires AllFlushed(e, chunkSize, overlap)
    requires FlushedAtThreshold(c1, |Seed(e, |e|, overlap)|, chunkSize)
    ensures AllFlushed(e + [c1], chunkSize, overlap)
  {
    FlushedLast(e, c1, chunkSize, overlap);
    forall k | 0 <= k < |e|
      ensures FlushedAtThreshold((e + [c1])[k], |Seed(e + [c1], k, overlap)|, chunkSize)
    {
      FlushedKept(e, c1, k, chunkSize, overlap);
    }
  }

  lemma DropSnoc(c: seq<string>, w: string, n: nat)
    requires n <= |c|
    ensures Drop(c + [w], n) == Drop(c, n) + [w]
  {
  }

  lemma AppendReassemble(words: seq<string>, e: seq<seq<string>>, c: seq<string>, w: string, overlap: int)
    requires SeedsChain(e + [c], overlap)
    requires Reassemble(e + [c], overlap) == words
    ensures Reassemble(e + [c + [w]], overlap) == words + [w]
  {
    var s := |Seed(e, |e|, overlap)|;
    SeedSnoc(e, c, |e|, overlap);
    assert IsPrefix(Seed(e + [c], |e|, overlap), (e + [c])[|e|]);
    ReassembleSnoc(e, c, overlap);
    ReassembleSnoc(e, c + [w], overlap);
    DropSnoc(c, w, s);
  }

  lemma AppendElements(words: seq<string>, e: seq<seq<string>>, c: seq<string>, w: string)
    requires AllElementsIn(e + [c], words)
    ensures AllElementsIn(e + [c + [w]], words + [w])
  {
    ElementsExtend(e + [c], words, w);
    forall k | 0 <= k < |e| + 1
      ensures ElementsIn((e + [c + [w]])[k], words + [w])
    {
      if k < |e| {
        assert (e + [c + [w]])[k] == (e + [c])[k];
      } else {
        assert ElementsIn((e + [c])[k], words + [w]);
      }
    }
  }

  /** Appending a word to `current_chunk` (before any flush) keeps the invariant for the longer list. */
  lemma AppendInvariant(words: seq<string>, e: seq<seq<string>>, c: seq<string>, w: string, overlap: int)
    requires SeedsChain(e + [c], overlap)
    requires AllElementsIn(e + [c], words)
    requires Reassemble(e + [c], overlap) == words
    ensures SeedsChain(e + [c + [w]], overlap)
    ensures AllElementsIn(e + [c + [w]], words + [w])
    ensures Reassemble(e + [c + [w]], overlap) == words + [w]
  {
    SeedsChainExtendLast(e, c, c + [w], overlap);
    AppendElements(words, e, c, w);
    AppendReassemble(words, e, c, w, overlap);
  }

  /** A flush keeps the invariant: the full chunk joins `emitted` and its overlap becomes `current_chunk`. */
  lemma FlushInvariant(words: seq<string>, e: seq<seq<string>>, c1: seq<string>, chunkSize: int, overlap: int)
    requires SeedsChain(e + [c1], overlap)
    requires AllElementsIn(e + [c1], words)
    requires Reassemble(e + [c1], overlap) == words
    requires AllFlushed(e, chunkSize, overlap)
    requires FlushedAtThreshold(c1, |Seed(e, |e|, overlap)|, chunkSize)
    ensures FoldInvariant(words, Acc(e + [c1], KeepOverlap(c1, overlap)), chunkSize, overlap)
  {
    var e1 := e + [c1];
    var c2 := KeepOverlap(c1, overlap);
    ReassembleSnoc(e1, c2, overlap);
    assert Seed(e1, |e1|, overlap) == c2;
    assert Drop(c2, |c2|) == [];
    SeedsChainFlush(e, c1, overlap);
    assert e1 + [c2] == e + [c1] + [c2];
    assert ElementsIn(c1, words) by { assert (e + [c1])[|e|] == c1; }
    ElementsSuffix(c1, c2, words);
    forall k | 0 <= k < |e1| + 1
      ensures ElementsIn((e1 + [c2])[k], words)
    {
      if k < |e1| { assert (e1 + [c2])[k] == (e + [c1])[k]; }
    }
    FlushedExtend(e, c1, chunkSize, overlap);
    assert BelowThreshold(c2, |Seed(e1, |e1|, overlap)|, chunkSize);
  }

  /** A word that leaves the counter below `chunkSize` is not flushed on. */
  lemma AppendStaysBelow(c: seq<string>, w: string, s: nat, chunkSize: int)
    requires s <= |c|
    requires BelowThreshold(c, s, chunkSize)
    requires WordsLength(c + [w]) < chunkSize
    ensures BelowThreshold(c + [w], s, chunkSize)
  {
    forall j | s < j <= |c + [w]|
      ensures Counter(c + [w], j) < chunkSize
    {
      if j <= |c| {
        assert (c + [w])[..j] == c[..j];
        assert Counter(c, j) < chunkSize;
      } else {
        assert (c + [w])[..j] == c + [w];
      }
    }
  }

  /** A word that takes the counter to `chunkSize` is the first to do so since the seed. */
  lemma AppendReaches(c: seq<string>, w: string, s: nat, chunkSize: int)
    requires s <= |c|
    requires BelowThreshold(c, s, chunkSize)
    requires WordsLength(c + [w]) >= chunkSize
    ensures FlushedAtThreshold(c + [w], s, chunkSize)
  {
    forall j | s < j < |c + [w]|
      ensures Counter(c + [w], j) < chunkSize
    {
      assert (c + [w])[..j] == c[..j];
      assert Counter(c, j) < chunkSize;
    }
  }

  lemma {:induction false} StepInvariant(words: seq<string>, a: Acc, w: string, chunkSize: int, overlap: int)
    requires FoldInvariant(words, a, chunkSize, overlap)
    ensures FoldInvariant(words + [w], Step(a, w, chunkSize, overlap), chunkSize, overlap)
  {
    var e, c := a.emitted, a.current;
    var c1 := c + [w];
    var s := |Seed(e, |e|, overlap)|;
    AppendInvariant(words, e, c, w, overlap);
    SeedSnoc(e, c, |e|, overlap);
    assert IsPrefix(Seed(e + [c], |e|, overlap), (e + [c])[|e|]);
    if WordsLength(c1) >= chunkSize {
      AppendReaches(c, w, s, chunkSize);
      FlushInvariant(words + [w], e, c1, chunkSize, overlap);
    } else {
      AppendStaysBelow(c, w, s, chunkSize);
    }
  }

  lemma {:induction false} FoldKeepsInvariant(words: seq<string>, chunkSize: int, overlap: int)
    ensures FoldInvariant(words, Fold(words, chunkSize, overlap), chunkSize, overlap)
    decreases |words|
  {
    if words == [] {
      var all: seq<seq<string>> := [[]];
      assert Reassemble(all, overlap) == Reassemble([], overlap) + FreshPart(all, 0, overlap);
    } else {
      var init, last := words[..|words| - 1], words[|words| - 1];
      assert init + [last] == words;
      FoldKeepsInvariant(init, chunkSize, overlap);
      StepInvariant(init, Fold(init, chunkSize, overlap), last, chunkSize, overlap);
    }
  }

  // ------------------------------------------------------------------ what the chunker guarantees

  lemma WordChunksSeeds(words: seq<string>, chunkSize: int, overlap: int, k: nat)
    requires k < |WordChunks(words, chunkSize, overlap)|
    ensures var a := Fold(words, chunkSize, overlap);
      Seed(WordChunks(words, chunkSize, overlap), k, overlap) == Seed(a.emitted, k, overlap) &&
      Seed(a.emitted + [a.current], k, overlap) == Seed(a.emitted, k, overlap)
  {
    var a := Fold(words, chunkSize, overlap);
    SeedSnoc(a.emitted, a.current, k, overlap);
  }

  /** Overlap: every chunk after the first starts with `prev[-overlap:]` of the chunk before it. */
  lemma WordChunksOverlap(words: seq<string>, chunkSize: int, overlap: int)
    ensures var wc := WordChunks(words, chunkSize, overlap);
      forall k :: 0 < k < |wc| ==> IsPrefix(KeepOverlap(wc[k - 1], overlap), wc[k])
  {
    var a := Fold(words, chunkSize, overlap);
    var wc := WordChunks(words, chunkSize, overlap);
    FoldKeepsInvariant(words, chunkSize, overlap);
    forall k | 0 < k < |wc|
      ensures IsPrefix(KeepOverlap(wc[k - 1], overlap), wc[k])
    {
      WordChunksSeeds(words, chunkSize, overlap, k);
      assert IsPrefix(Seed(a.emitted + [a.current], k, overlap), (a.emitted + [a.current])[k]);
    }
  }

  /** Nothing is lost or reordered: the chunks without their overlap seeds concatenate to the section's words. */
  lemma WordChunksReassemble(words: seq<string>, chunkSize: int, overlap: int)
    ensures Reassemble(WordChunks(words, chunkSize, overlap), overlap) == words
  {
    var a := Fold(words, chunkSize, overlap);
    FoldKeepsInvariant(words, chunkSize, overlap);
    if a.current == [] {
      ReassembleSnoc(a.emitted, a.current, overlap);
    }
  }

  /**
   * Flushing: every chunk but the last was flushed on the first word that took
   * the counter (counted from its seed) to `chunkSize`; the last one was
   * either flushed the same way or got no word once the counter (from its
   * seed) reached `chunkSize`.
   */
  lemma WordChunksThreshold(words: seq<string>, chunkSize: int, overlap: int)
    ensures var wc := WordChunks(words, chunkSize, overlap);
      (forall k :: 0 <= k < |wc| - 1 ==> FlushedAtThreshold(wc[k], |Seed(wc, k, overlap)|, chunkSize)) &&
      (wc != [] ==> FlushedAtThreshold(wc[|wc| - 1], |Seed(wc, |wc| - 1, overlap)|, chunkSize) ||
                    BelowThreshold(wc[|wc| - 1], |Seed(wc, |wc| - 1, overlap)|, chunkSize))
  {
    var a := Fold(words, chunkSize, overlap);
    var wc := WordChunks(words, chunkSize, overlap);
    FoldKeepsInvariant(words, chunkSize, overlap);
    forall k | 0 <= k < |wc|
      ensures k < |a.emitted| ==> FlushedAtThreshold(wc[k], |Seed(wc, k, overlap)|, chunkSize)
      ensures k == |a.emitted| ==> BelowThreshold(wc[k], |Seed(wc, k, overlap)|, chunkSize)
    {
      WordChunksSeeds(words, chunkSize, overlap, k);
      if k < |a.emitted| {
        assert FlushedAtThreshold(a.emitted[k], |Seed(a.emitted, k, overlap)|, chunkSize);
      }
    }
  }

  /** Every chunk is a non-empty list of words of the section. */
  lemma WordChunksNonEmpty(words: seq<string>, chunkSize: int, overlap: int)
    ensures var wc := WordChunks(words, chunkSize, overlap);
      forall k :: 0 <= k < |wc| ==> wc[k] != [] && ElementsIn(wc[k], words)
  {
    var a := Fold(words, chunkSize, overlap);
    var wc := WordChunks(words, chunkSize, overlap);
    FoldKeepsInvariant(words, chunkSize, overlap);
    forall k | 0 <= k < |wc|
      ensures wc[k] != [] && ElementsIn(wc[k], words)
    {
      assert ElementsIn((a.emitted + [a.current])[k], words);
      if k < |a.emitted| {
        assert FlushedAtThreshold(a.emitted[k], |Seed(a.emitted, k, overlap)|, chunkSize);
      }
    }
  }

  lemma {:induction false} ReassembleCovers(chunks: seq<seq<string>>, overlap: int, j: nat)
    requires j < |Reassemble(chunks, overlap)|
    ensures exists k :: 0 <= k < |chunks| && Reassemble(chunks, overlap)[j] in chunks[k]
  {
    var whole := Reassemble(chunks, overlap);
    assert chunks != [];
    var n := |chunks| - 1;
    var init := Reassemble(chunks[..n], overlap);
    var added := FreshPart(chunks, n, overlap);
    assert whole == init + added;
    if j < |init| {
      ReassembleCovers(chunks[..n], overlap, j);
      var k :| 0 <= k < n && init[j] in chunks[..n][k];
      assert chunks[..n][k] == chunks[k];
      assert whole[j] == init[j];
      assert whole[j] in chunks[k];
    } else {
      var m := |Seed(chunks, n, overlap)|;
      var i := j - |init|;
      assert added == chunks[n][m..];
      assert whole[j] == added[i] == chunks[n][m + i];
      assert whole[j] in chunks[n];
    }
  }

  /** Coverage: every word of a long section lands in at least one chunk. */
  lemma WordChunksCover(words: seq<string>, chunkSize: int, overlap: int)
    ensures var wc := WordChunks(words, chunkSize, overlap);
      forall j :: 0 <= j < |words| ==> exists k :: 0 <= k < |wc| && words[j] in wc[k]
  {
    WordChunksReassemble(words, chunkSize, overlap);
    forall j | 0 <= j < |words|
      ensures exists k :: 0 <= k < |WordChunks(words, chunkSize, overlap)| && words[j] in WordChunks(words, chunkSize, overlap)[k]
    {
      ReassembleCovers(WordChunks(words, chunkSize, overlap), overlap, j);
    }
  }

  /**
   * The chunks of one section: all carry `source`, none is empty, none has
   * whitespace at either end; a long section's chunks re-split into their
   * word windows, a short section yields at most its stripped self.
   */
  lemma SectionChunksShape(source: string, section: string, chunkSize: int, overlap: int)
    ensures var r := SectionChunks(source, section, chunkSize, overlap);
      (forall k :: 0 <= k < |r| ==> r[k].source == source && r[k].content != [] && Strip(r[k].content) == r[k].content) &&
      (|section| > chunkSize ==>
        var wc := WordChunks(Words(section), chunkSize, overlap);
        |r| == |wc| && forall k :: 0 <= k < |r| ==> Words(r[k].content) == wc[k]) &&
      (|section| <= chunkSize ==>
        |r| <= 1 && (r == [] <==> forall i :: 0 <= i < |section| ==> IsSpace(section[i])) &&
        (r != [] ==> r[0].content == Strip(section)))
  {
    var r := SectionChunks(source, section, chunkSize, overlap);
    if |section| > chunkSize {
      var words := Words(section);
      var wc := WordChunks(words, chunkSize, overlap);
      WordChunksNonEmpty(words, chunkSize, overlap);
      forall k | 0 <= k < |r|
        ensures r[k].source == source && r[k].content != [] && Strip(r[k].content) == r[k].content
        ensures Words(r[k].content) == wc[k]
      {
        assert ElementsIn(wc[k], words);
        forall i | 0 <= i < |wc[k]|
          ensures IsWord(wc[k][i])
        {
          assert wc[k][i] in words;
        }
        JoinWordsEnds(wc[k]);
        StripFixed(Join(" ", wc[k]));
        WordsOfJoin(wc[k]);
      }
    } else if Strip(section) != [] {
      StripIdempotent(section);
    }
  }

  /** Non-empty, with no whitespace at either end. */
  predicate Trimmed(s: string) {
    s != [] && Strip(s) == s
  }

  lemma {:induction false} ChunksOfSectionsShape(source: string, sections: seq<string>, chunkSize: int, overlap: int)
    ensures forall c :: c in ChunksOfSections(source, sections, chunkSize, overlap) ==> c.source == source && Trimmed(c.content)
    decreases |sections|
  {
    if sections != [] {
      var init, last := sections[..|sections| - 1], sections[|sections| - 1];
      ChunksOfSectionsShape(source, init, chunkSize, overlap);
      SectionChunksShape(source, last, chunkSize, overlap);
      var r0 := ChunksOfSections(source, init, chunkSize, overlap);
      var r1 := SectionChunks(source, last, chunkSize, overlap);
      assert ChunksOfSections(source, sections, chunkSize, overlap) == r0 + r1;
      forall c: Chunk | c in r1
        ensures c.source == source && Trimmed(c.content)
      {
        var k :| 0 <= k < |r1| && r1[k] == c;
      }
    }
  }

  /**
   * Attribution and shape of everything `_create_chunks` appends: each chunk's
   * source is the file name of one of the documents, and its content is
   * non-empty with no whitespace at either end.
   */
  lemma {:induction false} AllChunksShape(docs: seq<Document>, chunkSize: int, overlap: int)
    ensures forall c :: c in AllChunks(docs, chunkSize, overlap) ==>
      (exists d :: d in docs && c.source == d.filename) && Trimmed(c.content)
    decreases |docs|
  {
    if docs != [] {
      var init, last := docs[..|docs| - 1], docs[|docs| - 1];
      AllChunksShape(init, chunkSize, overlap);
      ChunksOfSectionsShape(last.filename, Sections(last.content), chunkSize, overlap);
      var r0 := AllChunks(init, chunkSize, overlap);
      var r1 := DocumentChunks(last, chunkSize, overlap);
      assert AllChunks(docs, chunkSize, overlap) == r0 + r1;
      forall c: Chunk | c in r0 + r1
        ensures (exists d :: d in docs && c.source == d.filename) && Trimmed(c.content)
      {
        if c in r0 {
          var d :| d in init && c.source == d.filename;
          assert d in docs;
        } else {
          assert last in docs;
        }
      }
    }
  }

  /**
   * The tail the leftover flush repeats: when the last word triggers a flush
   * and the overlap kept from that chunk is non-empty, `if current_chunk:`
   * emits the kept overlap once more as the final chunk, which holds no word
   * of its own (its part after the seed is empty).
   */
  lemma FlushOnLastWordRepeatsSeed(words: seq<string>, chunkSize: int, overlap: int)
    requires words != []
    requires var cur := Fold(words[..|words| - 1], chunkSize, overlap).current + [words[|words| - 1]];
      WordsLength(cur) >= chunkSize && KeepOverlap(cur, overlap) != []
    ensures var wc := WordChunks(words, chunkSize, overlap);
      |wc| >= 2 && wc[|wc| - 1] == KeepOverlap(wc[|wc| - 2], overlap) &&
      FreshPart(wc, |wc| - 1, overlap) == []
  {
    var n := |words| - 1;
    var a0 := Fold(words[..n], chunkSize, overlap);
    var cur := a0.current + [words[n]];
    var kept := KeepOverlap(cur, overlap);
    FoldSnoc(words, n, chunkSize, overlap);
    assert words[..n + 1] == words;
    assert Fold(words, chunkSize, overlap) == Acc(a0.emitted + [cur], kept);
    RepeatedSeedShape(a0.emitted, cur, overlap);
  }

  /** A chunk list ending in a chunk and then that chunk's kept overlap. */
  lemma RepeatedSeedShape(e: seq<seq<string>>, cur: seq<string>, overlap: int)
    ensures var wc := e + [cur] + [KeepOverlap(cur, overlap)];
      |wc| >= 2 && wc[|wc| - 1] == KeepOverlap(wc[|wc| - 2], overlap) &&
      FreshPart(wc, |wc| - 1, overlap) == []
  {
    var kept := KeepOverlap(cur, overlap);
    var wc := e + [cur] + [kept];
    assert wc[|wc| - 2] == cur;
    assert wc[|wc| - 1] == kept;
    assert Seed(wc, |wc| - 1, overlap) == kept;
  }

  /** A single word at the target yields itself twice with a large overlap. */
  lemma SingleWordRepeated()
    ensures WordChunks(["aaaa"], 5, 50) == [["aaaa"], ["aaaa"]]
  {
    var w: seq<string> := ["aaaa"];
    assert w[..0] == [];
    assert [] + ["aaaa"] == w;
    assert WordsLength(w) == 5;
    assert Fold(w, 5, 50) == Step(Acc([], []), "aaaa", 5, 50) == Acc([w], w);
  }

  /**
   * The counter is checked only after a word is appended, and the overlap seed
   * may already be at or above `chunkSize`, so a chunk can exceed the target
   * by more than one word: target 4, overlap 2, words "aaa bbb c" give the
   * chunk "aaa bbb c" of 9 characters.
   */
  lemma SizeCanExceedTargetPlusOneWord()
    ensures var wc := WordChunks(["aaa", "bbb", "c"], 4, 2);
      |wc| == 4 && wc[2] == ["aaa", "bbb", "c"] && |Join(" ", wc[2])| == 9
  {
    var w1, w2, w3: seq<string> := ["aaa"], ["aaa", "bbb"], ["aaa", "bbb", "c"];
    assert w1[..0] == [] && w2[..1] == w1 && w3[..2] == w2;
    assert [] + ["aaa"] == w1 && w1 + ["bbb"] == w2 && w2 + ["c"] == w3;
    assert WordsLength(w1) == 4;
    assert WordsLength(w2) == 8;
    assert WordsLength(w3) == 10;
    assert KeepOverlap(w1, 2) == w1 && KeepOverlap(w2, 2) == w2;
    assert KeepOverlap(w3, 2) == ["bbb", "c"];
    assert Fold(w1, 4, 2) == Step(Acc([], []), "aaa", 4, 2) == Acc([w1], w1);
    assert Fold(w2, 4, 2) == Step(Acc([w1], w1), "bbb", 4, 2) == Acc([w1, w2], w2);
    assert Fold(w3, 4, 2) == Step(Acc([w1, w2], w2), "c", 4, 2) == Acc([w1, w2, w3], ["bbb", "c"]);
  }
}
