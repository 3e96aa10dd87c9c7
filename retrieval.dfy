/**
  `QueryEngine.search`: restrict the chunks to one product, rank them by
  similarity with a stable descending sort, keep the first `top_k` and drop
  those whose score is not above the relevance floor.
 */
module Retrieval {
  import opened Wrappers
  import opened Text
  import opened Normalize
  import opened Records

  /**
    The loaded index. `similarity(q, i)` is the score of chunk `i` against the
    preprocessed query `q`: the TF-IDF projection and dot product
    (`np.dot(chunk_vectors, vectorizer.transform([q]).T)`), which are given
    here rather than computed. One score per chunk: rows and records are aligned.
   */
  datatype Index = Index(chunks: seq<Chunk>, similarity: (string, nat) -> real)

  /** Scores must be strictly above this to be returned. */
  const RELEVANCE_FLOOR: real := 0.1

  /** A ranked candidate: its position in the corpus and its score (`(i, similarities[i])`). */
  datatype Hit = Hit(index: nat, score: real)

  /** `search`'s candidate test: no filter (None or empty), or the sources agree case-insensitively. */
  predicate Admits(filter: Option<string>, chunk: Chunk) {
    !Truthy(filter) || Lower(chunk.source) == Lower(filter.value)
  }

  /** The positions below `n` of the chunks the filter admits, ascending. */
  function CandidateIndices(chunks: seq<Chunk>, filter: Option<string>, n: nat): (r: seq<nat>)
    requires n <= |chunks|
    ensures forall k | 0 <= k < |r| :: r[k] < n && Admits(filter, chunks[r[k]])
    ensures forall i | 0 <= i < n && Admits(filter, chunks[i]) :: i in r
    ensures forall a, b | 0 <= a < b < |r| :: r[a] < r[b]
    decreases n
  {
    if n == 0 then []
    else CandidateIndices(chunks, filter, n - 1) + (if Admits(filter, chunks[n - 1]) then [n - 1] else [])
  }

  /** The `(i, similarities[i])` pairs `search` ranks, in corpus order. */
  function Candidates(ix: Index, processed: string, filter: Option<string>): seq<Hit> {
    var ids := CandidateIndices(ix.chunks, filter, |ix.chunks|);
    seq(|ids|, k requires 0 <= k < |ids| => Hit(ids[k], ix.similarity(processed, ids[k])))
  }

  predicate SortedDesc(s: seq<Hit>) {
    forall a, b | 0 <= a < b < |s| :: s[a].score >= s[b].score
  }

  /** Equal scores keep ascending corpus order. */
  predicate TiesByIndex(s: seq<Hit>) {
    forall a, b | 0 <= a < b < |s| :: s[a].score == s[b].score ==> s[a].index < s[b].index
  }

  predicate IndicesAscending(s: seq<Hit>) {
    forall a, b | 0 <= a < b < |s| :: s[a].index < s[b].index
  }

  predicate IndicesBelow(s: seq<Hit>, n: nat) {
    forall k | 0 <= k < |s| :: s[k].index < n
  }

  /** Where a stable descending insertion puts `x` into `t`: after every strictly higher score. */
  function InsertPos(t: seq<Hit>, x: Hit): (p: nat)
    ensures p <= |t|
    ensures forall k | 0 <= k < p :: t[k].score > x.score
    ensures p < |t| ==> t[p].score <= x.score
    decreases |t|
  {
    if t == [] || t[0].score <= x.score then 0 else 1 + InsertPos(t[1..], x)
  }

  function Insert(x: Hit, t: seq<Hit>): seq<Hit> {
    var p := InsertPos(t, x);
    t[..p] + [x] + t[p..]
  }

  /** Where each element of `t` and `x` lands in `Insert(x, t)`. */
  lemma InsertAt(x: Hit, t: seq<Hit>)
    ensures var p := InsertPos(t, x); var r := Insert(x, t);
      && |r| == |t| + 1 && r[p] == x
      && (forall k | 0 <= k < p :: r[k] == t[k])
      && (forall k | p < k < |r| :: r[k] == t[k - 1])
  {
  }

  lemma InsertSorted(x: Hit, t: seq<Hit>)
    requires SortedDesc(t)
    ensures SortedDesc(Insert(x, t))
    ensures multiset(Insert(x, t)) == multiset(t) + multiset{x}
  {
    InsertOrdered(x, t);
    InsertKeeps(x, t);
  }

  /** Inserting adds exactly `x`. */
  lemma InsertKeeps(x: Hit, t: seq<Hit>)
    ensures multiset(Insert(x, t)) == multiset(t) + multiset{x}
  {
    var p := InsertPos(t, x);
    assert t == t[..p] + t[p..];
  }

  /** Inserting at `InsertPos` keeps the scores non-increasing. */
  lemma InsertOrdered(x: Hit, t: seq<Hit>)
    requires SortedDesc(t)
    ensures SortedDesc(Insert(x, t))
  {
    var p := InsertPos(t, x);
    var r := Insert(x, t);
    InsertAt(x, t);
    forall a, b | 0 <= a < b < |r|
      ensures r[a].score >= r[b].score
    {
      if a == p {
        assert r[b] == t[b - 1];
      } else if b == p {
        assert r[a] == t[a];
      } else {
        var ta := if a < p then a else a - 1;
        var tb := if b < p then b else b - 1;
        assert r[a] == t[ta] && r[b] == t[tb] && ta < tb;
      }
    }
  }

  /**
    `sorted(candidates, key=score, reverse=True)`: a stable insertion sort. Its
    result is a permutation of its input, in non-increasing score order.
   */
  function SortByScore(hits: seq<Hit>): (r: seq<Hit>)
    ensures |r| == |hits| && multiset(r) == multiset(hits)
    ensures SortedDesc(r)
    decreases |hits|
  {
    if hits == [] then []
    else
      var rest := SortByScore(hits[1..]);
      InsertSorted(hits[0], rest);
      assert hits == [hits[0]] + hits[1..];
      Insert(hits[0], rest)
  }

  lemma InsertStable(x: Hit, t: seq<Hit>)
    requires TiesByIndex(t)
    requires forall k | 0 <= k < |t| :: x.index < t[k].index
    ensures TiesByIndex(Insert(x, t))
  {
    var p := InsertPos(t, x);
    var r := Insert(x, t);
    InsertAt(x, t);
    forall a, b | 0 <= a < b < |r| && r[a].score == r[b].score
      ensures r[a].index < r[b].index
    {
      if a == p {
        assert r[b] == t[b - 1];
      } else if b != p {
        var ta := if a < p then a else a - 1;
        var tb := if b < p then b else b - 1;
        assert r[a] == t[ta] && r[b] == t[tb] && ta < tb;
      }
    }
  }

  /** Python's `sorted` is stable even with `reverse=True`: equal scores keep corpus order. */
  lemma {:induction false} SortByScoreStable(hits: seq<Hit>)
    requires IndicesAscending(hits)
    ensures TiesByIndex(SortByScore(hits))
    decreases |hits|
  {
    if hits != [] {
      var rest := SortByScore(hits[1..]);
      SortByScoreStable(hits[1..]);
      forall k | 0 <= k < |rest|
        ensures hits[0].index < rest[k].index
      {
        assert rest[k] in multiset(hits[1..]);
        var j :| 0 <= j < |hits[1..]| && hits[1..][j] == rest[k];
        assert hits[1..][j] == hits[j + 1];
      }
      InsertStable(hits[0], rest);
    }
  }


  /** The `score > 0.1` test of `search`'s result loop, applied to every hit in order. */
  function KeepRelevant(s: seq<Hit>): (r: seq<Hit>)
    ensures forall k | 0 <= k < |r| :: r[k].score > RELEVANCE_FLOOR
    ensures |r| <= |s|
    decreases |s|
  {
    if s == [] then []
    else
      var last := s[|s| - 1];
      KeepRelevant(s[..|s| - 1]) + (if last.score > RELEVANCE_FLOOR then [last] else [])
  }

  /** The ranked hits `search` returns, as positions and scores. */
  function RankedHits(ix: Index, query: string, topK: nat, filter: Option<string>): seq<Hit> {
    KeepRelevant(Take(SortByScore(Candidates(ix, Preprocess(query), filter)), topK))
  }

  /** Copy-and-annotate: each hit becomes a copy of its chunk record with its score. */
  function ToResults(ix: Index, hits: seq<Hit>): (r: seq<ScoredChunk>)
    requires IndicesBelow(hits, |ix.chunks|)
    ensures |r| == |hits|
    ensures forall k | 0 <= k < |r| :: r[k] == ScoredChunk(ix.chunks[hits[k].index], hits[k].score)
    decreases |hits|
  {
    if hits == [] then []
    else ToResults(ix, hits[..|hits| - 1]) + [ScoredChunk(ix.chunks[hits[|hits| - 1].index], hits[|hits| - 1].score)]
  }

  // ---------------------------------------------------------------------------
  // What the ranking promises
  // ---------------------------------------------------------------------------

  lemma CandidatesShape(ix: Index, processed: string, filter: Option<string>)
    ensures var c := Candidates(ix, processed, filter);
      IndicesAscending(c) && IndicesBelow(c, |ix.chunks|)
  {
  }

  lemma {:induction false} KeepRelevantOfRelevant(s: seq<Hit>)
    requires forall k | 0 <= k < |s| :: s[k].score > RELEVANCE_FLOOR
    ensures KeepRelevant(s) == s
    decreases |s|
  {
    if s != [] {
      var init := s[..|s| - 1];
      assert forall k | 0 <= k < |init| :: init[k] == s[k];
      KeepRelevantOfRelevant(init);
      assert s == init + [s[|s| - 1]];
    }
  }

  /**
    On a list in descending score order the relevance filter keeps a prefix:
    exactly the hits above the floor, and it stops at the first one that is not.
   */
  lemma {:induction false} KeepRelevantIsPrefix(s: seq<Hit>)
    requires SortedDesc(s)
    ensures var r := KeepRelevant(s);
      r == s[..|r|] && forall k | |r| <= k < |s| :: s[k].score <= RELEVANCE_FLOOR
    decreases |s|
  {
    if s != [] {
      var init := s[..|s| - 1];
      var last := s[|s| - 1];
      if last.score > RELEVANCE_FLOOR {
        KeepRelevantOfRelevant(s);
      } else {
        KeepRelevantIsPrefix(init);
        assert KeepRelevant(s) == KeepRelevant(init);
      }
    }
  }

  lemma SortedPrefix(s: seq<Hit>, n: nat)
    requires SortedDesc(s) && TiesByIndex(s) && n <= |s|
    ensures SortedDesc(s[..n]) && TiesByIndex(s[..n])
  {
  }

  /** Every hit that `search` returns, and the order of them. */
  lemma RankedHitsProperties(ix: Index, query: string, topK: nat, filter: Option<string>)
    ensures var r := RankedHits(ix, query, topK, filter);
      && |r| <= topK
      && IndicesBelow(r, |ix.chunks|)
      && (forall k | 0 <= k < |r| :: r[k].score > RELEVANCE_FLOOR && Admits(filter, ix.chunks[r[k].index]))
      && SortedDesc(r)
      && TiesByIndex(r)
  {
    RankedHitsAdmitted(ix, query, topK, filter);
    RankedHitsOrdered(ix, query, topK, filter);
  }

  /** Each returned hit is an admitted chunk scoring above the floor. */
  lemma RankedHitsAdmitted(ix: Index, query: string, topK: nat, filter: Option<string>)
    ensures var r := RankedHits(ix, query, topK, filter);
      && IndicesBelow(r, |ix.chunks|)
      && (forall k | 0 <= k < |r| :: r[k].score > RELEVANCE_FLOOR && Admits(filter, ix.chunks[r[k].index]))
  {
    var c := Candidates(ix, Preprocess(query), filter);
    CandidatesAdmitted(ix, Preprocess(query), filter);
    RankedAmongCandidates(c, topK);
    var r := RankedHits(ix, query, topK, filter);
    forall k | 0 <= k < |r|
      ensures r[k].index < |ix.chunks| && Admits(filter, ix.chunks[r[k].index])
    {
      assert r[k] in r;
    }
  }

  /** Every candidate is an admitted chunk. */
  lemma CandidatesAdmitted(ix: Index, processed: string, filter: Option<string>)
    ensures forall h | h in Candidates(ix, processed, filter) ::
      h.index < |ix.chunks| && Admits(filter, ix.chunks[h.index])
  {
    var c := Candidates(ix, processed, filter);
    forall h | h in c ensures h.index < |ix.chunks| && Admits(filter, ix.chunks[h.index]) {
      var k :| 0 <= k < |c| && c[k] == h;
    }
  }

  /** Sorting, truncating and the floor only ever drop hits. */
  lemma RankedAmongCandidates(c: seq<Hit>, topK: nat)
    ensures forall h | h in KeepRelevant(Take(SortByScore(c), topK)) :: h in c
  {
    var sorted := SortByScore(c);
    var top := Take(sorted, topK);
    SortedPrefix2(sorted, |top|);
    KeepRelevantIsPrefix(top);
    var r := KeepRelevant(top);
    forall h | h in r ensures h in c {
      var k :| 0 <= k < |r| && r[k] == h;
      assert r[k] == sorted[k];
      assert sorted[k] in multiset(c);
    }
  }

  /** The returned hits descend in score, with ties in corpus order. */
  lemma RankedHitsOrdered(ix: Index, query: string, topK: nat, filter: Option<string>)
    ensures var r := RankedHits(ix, query, topK, filter);
      SortedDesc(r) && TiesByIndex(r)
  {
    var c := Candidates(ix, Preprocess(query), filter);
    var sorted := SortByScore(c);
    CandidatesShape(ix, Preprocess(query), filter);
    SortByScoreStable(c);
    var top := Take(sorted, topK);
    SortedPrefix(sorted, |top|);
    KeepRelevantIsPrefix(top);
    var r := KeepRelevant(top);
    SortedPrefix(top, |r|);
  }

  /**
    The result is exactly the prefix of the sorted, truncated candidates whose
    scores exceed the floor; every later one is at or below it.
   */
  lemma RankedHitsIsPrefix(ix: Index, query: string, topK: nat, filter: Option<string>)
    ensures var top := Take(SortByScore(Candidates(ix, Preprocess(query), filter)), topK);
      var r := RankedHits(ix, query, topK, filter);
      r == top[..|r|] && forall k | |r| <= k < |top| :: top[k].score <= RELEVANCE_FLOOR
  {
    var sorted := SortByScore(Candidates(ix, Preprocess(query), filter));
    var top := Take(sorted, topK);
    assert SortedDesc(top) by {
      SortedPrefix2(sorted, |top|);
    }
    KeepRelevantIsPrefix(top);
  }

  lemma SortedPrefix2(s: seq<Hit>, n: nat)
    requires SortedDesc(s) && n <= |s|
    ensures SortedDesc(s[..n])
  {
  }

  /** The chunk at position `i` is among the candidates with its similarity as score. */
  lemma CandidateOf(ix: Index, processed: string, filter: Option<string>, i: nat)
    requires i < |ix.chunks| && Admits(filter, ix.chunks[i])
    ensures Hit(i, ix.similarity(processed, i)) in Candidates(ix, processed, filter)
  {
    var ids := CandidateIndices(ix.chunks, filter, |ix.chunks|);
    var k :| 0 <= k < |ids| && ids[k] == i;
    assert Candidates(ix, processed, filter)[k] == Hit(i, ix.similarity(processed, i));
  }

  /**
    The first result is the best candidate, and whenever some candidate scores
    above the floor and `top_k` is positive there is a first result.
   */
  lemma RankedHitsBestFirst(ix: Index, query: string, topK: nat, filter: Option<string>, i: nat)
    requires i < |ix.chunks| && Admits(filter, ix.chunks[i])
    ensures var r := RankedHits(ix, query, topK, filter);
      && (r != [] ==> r[0].score >= ix.similarity(Preprocess(query), i))
      && (topK > 0 && ix.similarity(Preprocess(query), i) > RELEVANCE_FLOOR ==> r != [])
  {
    var processed := Preprocess(query);
    var c := Candidates(ix, processed, filter);
    var h := Hit(i, ix.similarity(processed, i));
    CandidateOf(ix, processed, filter, i);
    assert h in multiset(c);
    RelevantHead(SortByScore(c), topK, h);
  }

  /** On a sorted list, the first hit kept is the best one, and one is kept when any hit is above the floor. */
  lemma RelevantHead(sorted: seq<Hit>, topK: nat, h: Hit)
    requires SortedDesc(sorted) && h in multiset(sorted)
    ensures var r := KeepRelevant(Take(sorted, topK));
      && (r != [] ==> r[0].score >= h.score)
      && (topK > 0 && h.score > RELEVANCE_FLOOR ==> r != [])
  {
    var j :| 0 <= j < |sorted| && sorted[j] == h;
    assert sorted[0].score >= h.score;
    var top := Take(sorted, topK);
    SortedPrefix2(sorted, |top|);
    KeepRelevantIsPrefix(top);
    var r := KeepRelevant(top);
    if r != [] {
      assert r[0] == top[0] == sorted[0];
    }
    if topK > 0 && h.score > RELEVANCE_FLOOR {
      assert top[0] == sorted[0];
      assert top[0].score > RELEVANCE_FLOOR;
    }
  }

  /** With no candidate at all (an empty corpus, or nothing from the filtered product) the result is empty. */
  lemma NoCandidatesNoResults(ix: Index, query: string, topK: nat, filter: Option<string>)
    requires forall i | 0 <= i < |ix.chunks| :: !Admits(filter, ix.chunks[i])
    ensures RankedHits(ix, query, topK, filter) == []
  {
  }

  /** What `search` returns. */
  function SearchResults(ix: Index, query: string, topK: nat, filter: Option<string>): seq<ScoredChunk> {
    RankedHitsProperties(ix, query, topK, filter);
    ToResults(ix, RankedHits(ix, query, topK, filter))
  }

  lemma {:induction false} KeepRelevantBelow(s: seq<Hit>, n: nat)
    requires IndicesBelow(s, n)
    ensures IndicesBelow(KeepRelevant(s), n)
    decreases |s|
  {
    if s != [] {
      KeepRelevantBelow(s[..|s| - 1], n);
    }
  }

  /** The scored copies of the hits above the floor, for any hits that point into the corpus. */
  function CopyRelevant(ix: Index, hits: seq<Hit>): seq<ScoredChunk> {
    if IndicesBelow(hits, |ix.chunks|) then
      KeepRelevantBelow(hits, |ix.chunks|);
      ToResults(ix, KeepRelevant(hits))
    else []
  }

  /** One more hit extends the copies by that hit's copy when it is above the floor. */
  lemma CopyRelevantSnoc(ix: Index, hits: seq<Hit>, h: Hit)
    requires IndicesBelow(hits, |ix.chunks|) && h.index < |ix.chunks|
    ensures CopyRelevant(ix, hits + [h]) ==
      CopyRelevant(ix, hits) + (if h.score > RELEVANCE_FLOOR then [ScoredChunk(ix.chunks[h.index], h.score)] else [])
  {
    var s := hits + [h];
    assert s[..|s| - 1] == hits;
    assert IndicesBelow(s, |ix.chunks|) by {
      forall k | 0 <= k < |s| ensures s[k].index < |ix.chunks| {
        if k < |hits| {
          assert s[k] == hits[k];
        }
      }
    }
    KeepRelevantBelow(hits, |ix.chunks|);
    KeepRelevantBelow(s, |ix.chunks|);
    var kept := KeepRelevant(hits);
    if h.score > RELEVANCE_FLOOR {
      assert KeepRelevant(s) == kept + [h];
      var t := kept + [h];
      assert t[..|t| - 1] == kept;
    } else {
      assert KeepRelevant(s) == kept;
    }
  }

  lemma SearchIsCopy(ix: Index, query: string, topK: nat, filter: Option<string>)
    ensures SearchResults(ix, query, topK, filter)
      == CopyRelevant(ix, Take(SortByScore(Candidates(ix, Preprocess(query), filter)), topK))
  {
    TopIndicesBelow(ix, Preprocess(query), filter, topK);
  }

  lemma TopIndicesBelow(ix: Index, processed: string, filter: Option<string>, topK: nat)
    ensures IndicesBelow(Take(SortByScore(Candidates(ix, processed, filter)), topK), |ix.chunks|)
  {
    var candidates := Candidates(ix, processed, filter);
    var sorted := SortByScore(candidates);
    var top := Take(sorted, topK);
    CandidatesShape(ix, processed, filter);
    forall k | 0 <= k < |top| ensures top[k].index < |ix.chunks| {
      assert top[k] == sorted[k] && sorted[k] in multiset(candidates);
    }
  }

  /**
    What `search` promises of each result list: every entry is a chunk of the
    corpus from the requested product, scored above the floor, best first.
   */
  predicate RelevantResults(ix: Index, filter: Option<string>, results: seq<ScoredChunk>) {
    && (forall k | 0 <= k < |results| ::
          && results[k].score > RELEVANCE_FLOOR
          && results[k].chunk in ix.chunks
          && Admits(filter, results[k].chunk))
    && (forall a, b | 0 <= a < b < |results| :: results[a].score >= results[b].score)
  }

  /** The promises of `search`, stated on its results. */
  lemma SearchResultsProperties(ix: Index, query: string, topK: nat, filter: Option<string>)
    ensures |SearchResults(ix, query, topK, filter)| <= topK
    ensures RelevantResults(ix, filter, SearchResults(ix, query, topK, filter))
  {
    var r := RankedHits(ix, query, topK, filter);
    RankedHitsProperties(ix, query, topK, filter);
    assert SearchResults(ix, query, topK, filter) == ToResults(ix, r);
    ResultsOfHits(ix, r, filter);
  }

  /** The copies of hits that point into the corpus, are admitted, above the floor and sorted. */
  lemma ResultsOfHits(ix: Index, r: seq<Hit>, filter: Option<string>)
    requires IndicesBelow(r, |ix.chunks|)
    requires forall k | 0 <= k < |r| :: r[k].score > RELEVANCE_FLOOR && Admits(filter, ix.chunks[r[k].index])
    requires SortedDesc(r)
    ensures RelevantResults(ix, filter, ToResults(ix, r))
  {
    var results := ToResults(ix, r);
    forall k | 0 <= k < |results|
      ensures results[k].chunk in ix.chunks
    {
      var j := r[k].index;
      assert results[k].chunk == ix.chunks[j];
    }
  }

  /**
    `QueryEngine.search`. The candidates are ranked as the list comprehensions
    and `sorted(...)[:top_k]` do; the loop then copies and annotates each hit
    above the floor. Nothing in the index is changed: results are new values.
   */
  method Search(ix: Index, query: string, topK: nat, cdpFilter: Option<string>) returns (results: seq<ScoredChunk>)
    ensures results == SearchResults(ix, query, topK, cdpFilter)
    ensures |results| <= topK
    ensures RelevantResults(ix, cdpFilter, results)
  {
    var processed := Preprocess(query);
    var candidates := Candidates(ix, processed, cdpFilter);
    var topIndices := Take(SortByScore(candidates), topK);
    TopIndicesBelow(ix, processed, cdpFilter, topK);
    results := CopyRelevantHits(ix, topIndices);
    SearchIsCopy(ix, query, topK, cdpFilter);
    SearchResultsProperties(ix, query, topK, cdpFilter);
  }

  /** `search`'s result loop: copy each hit above the floor, with its score, in order. */
  method CopyRelevantHits(ix: Index, hits: seq<Hit>) returns (results: seq<ScoredChunk>)
    requires IndicesBelow(hits, |ix.chunks|)
    ensures results == CopyRelevant(ix, hits)
  {
    results := [];
    for i := 0 to |hits|
      invariant results == CopyRelevant(ix, hits[..i])
    {
      assert hits[..i + 1] == hits[..i] + [hits[i]];
      CopyRelevantSnoc(ix, hits[..i], hits[i]);
      var hit := hits[i];
      if hit.score > RELEVANCE_FLOOR {
        var chunk := ix.chunks[hit.index];
        results := results + [ScoredChunk(chunk, hit.score)];
      }
    }
    assert hits[..|hits|] == hits;
  }
}
