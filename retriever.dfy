/**
 * The keyword fallback of `RAGEngine._retrieve_relevant_chunks`: every chunk
 * is scored by the number of distinct lower-cased words it shares with the
 * query, the chunks are sorted by descending score with a stable sort, and
 * the first `top_k` are returned.
 *
 * Python's `list.sort(key=..., reverse=True)` is specified by `Ranking`: the
 * chunk positions ordered by descending score, equal scores in their original
 * order (Python keeps sort stability under `reverse=True`).
 */
module Retriever {
  import opened Text
  import opened Chunker

  /** `set(s.lower().split())`. */
  function WordSet(s: string): set<string> {
    set w | w in Words(Lower(s))
  }

  /** The word set holds exactly the lower-cased words of `s`. */
  lemma WordSetMembers(s: string)
    ensures forall w :: w in WordSet(s) <==> exists k :: 0 <= k < |Words(s)| && w == Lower(Words(s)[k])
  {
    WordsOfLower(s);
    var ws := Words(s);
    forall w
      ensures w in WordSet(s) <==> exists k :: 0 <= k < |ws| && w == Lower(ws[k])
    {
      if w in WordSet(s) {
        var k :| 0 <= k < |Words(Lower(s))| && Words(Lower(s))[k] == w;
        assert w == Lower(ws[k]);
      }
      if exists k :: 0 <= k < |ws| && w == Lower(ws[k]) {
        var k :| 0 <= k < |ws| && w == Lower(ws[k]);
        assert Words(Lower(s))[k] == w;
      }
    }
  }

  /** The number of distinct words the query and the content have in common. */
  function Score(query: string, content: string): (n: nat)
    ensures n <= |WordSet(query)| && n <= |WordSet(content)|
  {
    var both := WordSet(query) * WordSet(content);
    SubsetCardinality(both, WordSet(query));
    SubsetCardinality(both, WordSet(content));
    |both|
  }

  lemma SubsetCardinality<T>(a: set<T>, b: set<T>)
    requires a <= b
    ensures |a| <= |b|
  {
    assert b == a + (b - a);
  }

  /** The score of every chunk, in chunk order. */
  function Scores(query: string, chunks: seq<Chunk>): (keys: seq<int>)
    ensures |keys| == |chunks|
  {
    seq(|chunks|, i requires 0 <= i < |chunks| => Score(query, chunks[i].content))
  }

  // ------------------------------------------------------------------ the stable ranking

  /** Position `a` comes before position `b`: higher score, or equal score and earlier. */
  predicate Before(keys: seq<int>, a: nat, b: nat)
    requires a < |keys| && b < |keys|
  {
    keys[a] > keys[b] || (keys[a] == keys[b] && a < b)
  }

  predicate InRange(r: seq<nat>, n: nat) {
    forall k :: 0 <= k < |r| ==> r[k] < n
  }

  lemma InRangeByMembership(r: seq<nat>, n: nat)
    requires forall x :: x in r ==> x < n
    ensures InRange(r, n)
  {
    forall k | 0 <= k < |r|
      ensures r[k] < n
    {
      assert r[k] in r;
    }
  }

  /** Every earlier entry of `r` comes before every later one. */
  predicate RankedBy(keys: seq<int>, r: seq<nat>)
    requires InRange(r, |keys|)
  {
    forall p, q :: 0 <= p < q < |r| ==> Before(keys, r[p], r[q])
  }

  /** Insert position `i` in front of the first entry it comes before. */
  function Insert(keys: seq<int>, r: seq<nat>, i: nat): (r': seq<nat>)
    requires InRange(r, |keys|) && i < |keys|
    ensures InRange(r', |keys|) && |r'| == |r| + 1
    ensures forall x :: x in r' <==> x in r || x == i
  {
    if r == [] then [i]
    else if Before(keys, i, r[0]) then [i] + r
    else [r[0]] + Insert(keys, r[1..], i)
  }

  /** The first `n` positions, ordered as the stable descending sort leaves them. */
  function RankPrefix(keys: seq<int>, n: nat): (r: seq<nat>)
    requires n <= |keys|
    ensures InRange(r, n) && InRange(r, |keys|) && |r| == n
    ensures forall i :: 0 <= i < n ==> i in r
  {
    if n == 0 then []
    else
      var r0 := RankPrefix(keys, n - 1);
      var r := Insert(keys, r0, n - 1);
      assert forall x :: x in r0 ==> x < n - 1 by {
        forall x | x in r0 ensures x < n - 1 { var k :| 0 <= k < |r0| && r0[k] == x; }
      }
      InRangeByMembership(r, n);
      r
  }

  function Ranking(keys: seq<int>): (r: seq<nat>)
    ensures InRange(r, |keys|) && |r| == |keys|
  {
    RankPrefix(keys, |keys|)
  }

  lemma {:induction false} InsertRanked(keys: seq<int>, r: seq<nat>, i: nat)
    requires InRange(r, |keys|) && i < |keys|
    requires RankedBy(keys, r) && i !in r
    ensures RankedBy(keys, Insert(keys, r, i))
    decreases |r|
  {
    if r == [] {
    } else if Before(keys, i, r[0]) {
      var r' := [i] + r;
      forall p, q | 0 <= p < q < |r'|
        ensures Before(keys, r'[p], r'[q])
      {
        if p == 0 && q > 1 {
          assert Before(keys, r[0], r[q - 1]);
        }
      }
    } else {
      assert i != r[0];
      var tail := Insert(keys, r[1..], i);
      forall p, q | 0 <= p < q < |r| - 1
        ensures Before(keys, r[1..][p], r[1..][q])
      {
        assert Before(keys, r[p + 1], r[q + 1]);
      }
      InsertRanked(keys, r[1..], i);
      var r' := [r[0]] + tail;
      forall p, q | 0 <= p < q < |r'|
        ensures Before(keys, r'[p], r'[q])
      {
        if p == 0 {
          var x := tail[q - 1];
          assert x in tail;
          if x != i {
            var m :| 0 <= m < |r[1..]| && r[1..][m] == x;
            assert Before(keys, r[0], r[m + 1]);
          }
        }
      }
    }
  }

  lemma {:induction false} RankPrefixRanked(keys: seq<int>, n: nat)
    requires n <= |keys|
    ensures RankedBy(keys, RankPrefix(keys, n))
  {
    if n > 0 {
      RankPrefixRanked(keys, n - 1);
      InsertRanked(keys, RankPrefix(keys, n - 1), n - 1);
    }
  }

  /**
   * The ranking is a permutation of the positions, ordered by descending
   * score with ties in original order.
   */
  lemma RankingIsStableSort(keys: seq<int>)
    ensures var r := Ranking(keys);
      |r| == |keys| &&
      (forall i :: 0 <= i < |keys| ==> i in r) &&
      (forall p, q :: 0 <= p < q < |r| ==> r[p] != r[q]) &&
      (forall p, q :: 0 <= p < q < |r| ==> keys[r[p]] >= keys[r[q]]) &&
      (forall p, q :: 0 <= p < q < |r| && keys[r[p]] == keys[r[q]] ==> r[p] < r[q])
  {
    RankPrefixRanked(keys, |keys|);
  }

  /** When every score is the same, the stable sort leaves the positions in order. */
  lemma {:induction false} EqualKeysRankInOrder(keys: seq<int>, n: nat)
    requires n <= |keys|
    requires forall i :: 0 <= i < |keys| ==> keys[i] == keys[0]
    ensures RankPrefix(keys, n) == seq(n, i => i)
  {
    if n > 0 {
      EqualKeysRankInOrder(keys, n - 1);
      var r := RankPrefix(keys, n - 1);
      AppendLast(keys, r, n - 1);
      assert seq(n - 1, i => i) + [n - 1] == seq(n, i => i);
    }
  }

  lemma {:induction false} AppendLast(keys: seq<int>, r: seq<nat>, i: nat)
    requires InRange(r, i) && i < |keys|
    requires forall x :: 0 <= x < |keys| ==> keys[x] == keys[0]
    ensures Insert(keys, r, i) == r + [i]
    decreases |r|
  {
    if r != [] {
      assert !Before(keys, i, r[0]);
      AppendLast(keys, r[1..], i);
      assert r == [r[0]] + r[1..];
    }
  }

  // ------------------------------------------------------------------ selection

  /** The length of Python's `xs[:k]` for a list of length `n`. */
  function PrefixLength(n: nat, k: int): (m: nat)
    ensures m <= n
  {
    if k >= 0 then (if k <= n then k else n)
    else if n + k >= 0 then n + k
    else 0
  }

  /** The positions of the chunks the fallback returns, best first. */
  function FallbackIndices(query: string, chunks: seq<Chunk>, topK: int): (idx: seq<nat>)
    ensures InRange(idx, |chunks|)
  {
    var r := Ranking(Scores(query, chunks));
    r[..PrefixLength(|r|, topK)]
  }

  /** What the keyword fallback returns for `query`. */
  function FallbackRetrieval(query: string, chunks: seq<Chunk>, topK: int): seq<Chunk> {
    var idx := FallbackIndices(query, chunks, topK);
    seq(|idx|, k requires 0 <= k < |idx| => chunks[idx[k]])
  }

  /** A chunk paired with its score, as in the list `scored_chunks`. */
  datatype Scored = Scored(score: nat, chunk: Chunk)

  /** `scored.sort(key=lambda x: x[0], reverse=True)`. */
  function SortByScoreDescending(scored: seq<Scored>): seq<Scored> {
    var r := Ranking(seq(|scored|, i requires 0 <= i < |scored| => scored[i].score as int));
    seq(|r|, k requires 0 <= k < |r| => scored[r[k]])
  }

  /** The scoring loop of the keyword fallback: `scored_chunks`, one pair per chunk in chunk order. */
  method ScoreChunks(query: string, chunks: seq<Chunk>) returns (scored: seq<Scored>)
    ensures |scored| == |chunks|
    ensures forall j :: 0 <= j < |chunks| ==> scored[j] == Scored(Score(query, chunks[j].content), chunks[j])
  {
    var queryWords := WordSet(query);
    scored := [];
    for i := 0 to |chunks|
      invariant |scored| == i
      invariant forall j :: 0 <= j < i ==> scored[j] == Scored(Score(query, chunks[j].content), chunks[j])
    {
      var chunkWords := WordSet(chunks[i].content);
      var score := |queryWords * chunkWords|;
      scored := scored + [Scored(score, chunks[i])];
    }
  }

  /** The keyword fallback: score every chunk, sort, keep the first `topK`. */
  method RetrieveFallback(query: string, chunks: seq<Chunk>, topK: int) returns (result: seq<Chunk>)
    ensures result == FallbackRetrieval(query, chunks, topK)
  {
    var scored := ScoreChunks(query, chunks);
    assert seq(|scored|, i requires 0 <= i < |scored| => scored[i].score as int) == Scores(query, chunks);
    var sorted := SortByScoreDescending(scored);
    var top := sorted[..PrefixLength(|sorted|, topK)];
    result := seq(|top|, k requires 0 <= k < |top| => top[k].chunk);
  }

  // ------------------------------------------------------------------ what the fallback guarantees

  /** `min(top_k, len(chunks))` results for a non-negative `top_k` (Python slice rules otherwise). */
  lemma RetrievalLength(query: string, chunks: seq<Chunk>, topK: int)
    ensures var r := FallbackRetrieval(query, chunks, topK);
      (topK >= 0 ==> |r| == if topK < |chunks| then topK else |chunks|) &&
      (topK < 0 ==> |r| == if |chunks| + topK > 0 then |chunks| + topK else 0)
  {
  }

  /**
   * The result is drawn from the chunk list, each position at most once,
   * ordered by non-increasing score, ties in chunk-list order.
   */
  lemma RetrievalSelection(query: string, chunks: seq<Chunk>, topK: int)
    ensures var idx := FallbackIndices(query, chunks, topK);
      var r := FallbackRetrieval(query, chunks, topK);
      |r| == |idx| &&
      (forall k :: 0 <= k < |r| ==> r[k] == chunks[idx[k]]) &&
      (forall p, q :: 0 <= p < q < |idx| ==> idx[p] != idx[q]) &&
      (forall p, q :: 0 <= p < q < |r| ==> Score(query, r[p].content) >= Score(query, r[q].content)) &&
      (forall p, q :: 0 <= p < q < |r| && Score(query, r[p].content) == Score(query, r[q].content) ==> idx[p] < idx[q])
  {
    var keys := Scores(query, chunks);
    RankingIsStableSort(keys);
  }

  /**
   * Top-k: every chunk left out scores at most what every returned chunk
   * scores, and when it ties it comes later in the chunk list.
   */
  lemma RetrievalIsTopK(query: string, chunks: seq<Chunk>, topK: int)
    ensures var idx := FallbackIndices(query, chunks, topK);
      forall k, j :: 0 <= k < |idx| && 0 <= j < |chunks| && j !in idx ==>
        Score(query, chunks[j].content) < Score(query, chunks[idx[k]].content) ||
        (Score(query, chunks[j].content) == Score(query, chunks[idx[k]].content) && idx[k] < j)
  {
    var keys := Scores(query, chunks);
    var r := Ranking(keys);
    var idx := FallbackIndices(query, chunks, topK);
    RankPrefixRanked(keys, |keys|);
    forall k, j | 0 <= k < |idx| && 0 <= j < |chunks| && j !in idx
      ensures Before(keys, idx[k], j)
    {
      assert j in r;
      var q :| 0 <= q < |r| && r[q] == j;
      assert forall m :: 0 <= m < |idx| ==> idx[m] == r[m];
      assert q >= |idx|;
      assert idx[k] == r[k];
    }
  }

  /**
   * Zero-score chunks are still returned: when no chunk shares a word with
   * the query, the result is the first `topK` chunks in their original order.
   */
  lemma ZeroScoresKeepOrder(query: string, chunks: seq<Chunk>, topK: int)
    requires forall i :: 0 <= i < |chunks| ==> Score(query, chunks[i].content) == 0
    ensures FallbackRetrieval(query, chunks, topK) == chunks[..PrefixLength(|chunks|, topK)]
  {
    var keys := Scores(query, chunks);
    if |keys| > 0 {
      EqualKeysRankInOrder(keys, |keys|);
    }
  }

  /** A chunk sharing more query words always comes first: it is returned whenever the other one is, and ahead of it. */
  lemma HigherScoreComesFirst(query: string, chunks: seq<Chunk>, topK: int, i: nat, j: nat)
    requires i < |chunks| && j < |chunks|
    requires Score(query, chunks[i].content) > Score(query, chunks[j].content)
    ensures var idx := FallbackIndices(query, chunks, topK);
      forall q :: 0 <= q < |idx| && idx[q] == j ==> exists p :: 0 <= p < q && idx[p] == i
  {
    var idx := FallbackIndices(query, chunks, topK);
    RetrievalIsTopK(query, chunks, topK);
    RetrievalSelection(query, chunks, topK);
    forall q | 0 <= q < |idx| && idx[q] == j
      ensures exists p :: 0 <= p < q && idx[p] == i
    {
      assert i in idx;
      var p :| 0 <= p < |idx| && idx[p] == i;
      assert p < q;
    }
  }
}
