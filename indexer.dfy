/**
  `DocumentProcessor` of the indexer: each document's text is normalised,
  split into sentences, and the sentences are packed greedily into chunks of
  about `chunk_size` characters, each new chunk starting with the longest tail
  of the previous one that fits in `overlap` characters.

  Sentence splitting (NLTK's `sent_tokenize`) is a parameter: a function from
  the normalised text to its sentences.
 */
module Indexer {
  import opened Text
  import opened Normalize
  import opened Records

  /** The defaults `process_all_documents` uses. */
  const CHUNK_SIZE: nat := 500
  const OVERLAP: nat := 100

  /** The summed lengths of `s`: what `current_size` and `overlap_size` count. */
  function SumLens(s: seq<string>): nat
    decreases |s|
  {
    if s == [] then 0 else SumLens(s[..|s| - 1]) + |s[|s| - 1]|
  }

  lemma {:induction false} SumLensAppend(a: seq<string>, b: seq<string>)
    ensures SumLens(a + b) == SumLens(a) + SumLens(b)
    decreases |b|
  {
    if b == [] {
      assert a + b == a;
    } else {
      var init := b[..|b| - 1];
      assert (a + b)[..|a + b| - 1] == a + init;
      SumLensAppend(a, init);
    }
  }

  /**
    The overlap loop of `chunk_document`: walking `current` from its end, take
    sentences while their summed length stays within `budget`, and stop at the
    first that does not fit.
   */
  function OverlapSuffix(current: seq<string>, budget: nat): seq<string>
    decreases |current|
  {
    if current == [] then []
    else
      var last := current[|current| - 1];
      if |last| <= budget then OverlapSuffix(current[..|current| - 1], budget - |last|) + [last]
      else []
  }

  lemma SumLensSnoc(s: seq<string>, x: string)
    ensures SumLens(s + [x]) == SumLens(s) + |x|
  {
    assert (s + [x])[..|s|] == s;
  }

  lemma SuffixOfSnoc(init: seq<string>, last: string, i: nat)
    requires i <= |init|
    ensures (init + [last])[i..] == init[i..] + [last]
  {
  }

  /** The carried-over sentences are a suffix of the closed chunk, within the budget. */
  lemma {:induction false} OverlapSuffixShape(current: seq<string>, budget: nat)
    ensures var r := OverlapSuffix(current, budget);
      |r| <= |current| && r == current[|current| - |r|..] && SumLens(r) <= budget
    decreases |current|
  {
    if current != [] {
      var init := current[..|current| - 1];
      var last := current[|current| - 1];
      assert current == init + [last];
      if |last| <= budget {
        var rest := OverlapSuffix(init, budget - |last|);
        OverlapSuffixShape(init, budget - |last|);
        SumLensSnoc(rest, last);
        SuffixOfSnoc(init, last, |init| - |rest|);
      }
    }
  }

  /** One sentence more than the carried-over ones would exceed the budget. */
  lemma {:induction false} OverlapSuffixMaximal(current: seq<string>, budget: nat)
    requires |OverlapSuffix(current, budget)| < |current|
    ensures SumLens(current[|current| - |OverlapSuffix(current, budget)| - 1..]) > budget
    decreases |current|
  {
    var init := current[..|current| - 1];
    var last := current[|current| - 1];
    assert current == init + [last];
    if |last| <= budget {
      var rest := OverlapSuffix(init, budget - |last|);
      OverlapSuffixMaximal(init, budget - |last|);
      SuffixOfSnoc(init, last, |init| - |rest| - 1);
      SumLensSnoc(init[|init| - |rest| - 1..], last);
    } else {
      assert current[|current| - 1..] == [] + [last];
      SumLensSnoc([], last);
    }
  }

  /** A longer suffix never sums to less. */
  lemma SumLensSuffixes(s: seq<string>, m: nat, n: nat)
    requires m <= n <= |s|
    ensures SumLens(s[|s| - m..]) <= SumLens(s[|s| - n..])
  {
    assert s[|s| - n..] == s[|s| - n..|s| - m] + s[|s| - m..];
    SumLensAppend(s[|s| - n..|s| - m], s[|s| - m..]);
  }

  /** The carried-over sentences are the LONGEST suffix of the closed chunk within the overlap budget. */
  lemma OverlapIsLongest(current: seq<string>, budget: nat, m: nat)
    requires |OverlapSuffix(current, budget)| < m <= |current|
    ensures SumLens(current[|current| - m..]) > budget
  {
    var r := OverlapSuffix(current, budget);
    OverlapSuffixShape(current, budget);
    OverlapSuffixMaximal(current, budget);
    SumLensSuffixes(current, |r| + 1, m);
  }

  /** The packing state between two sentences: the closed chunks and `current_chunk`. */
  datatype ChunkState = ChunkState(closed: seq<seq<string>>, current: seq<string>)

  /**
    One iteration of the sentence loop: close the current chunk when it is not
    empty and the sentence would push it past `chunkSize`, carrying over its
    overlap; then append the sentence.
   */
  function Step(st: ChunkState, sentence: string, chunkSize: nat, overlap: nat): ChunkState {
    if SumLens(st.current) + |sentence| > chunkSize && st.current != [] then
      ChunkState(st.closed + [st.current], OverlapSuffix(st.current, overlap) + [sentence])
    else ChunkState(st.closed, st.current + [sentence])
  }

  /** The state after the loop has consumed `sentences`. */
  function Run(sentences: seq<string>, chunkSize: nat, overlap: nat): ChunkState
    decreases |sentences|
  {
    if sentences == [] then ChunkState([], [])
    else Step(Run(sentences[..|sentences| - 1], chunkSize, overlap), sentences[|sentences| - 1], chunkSize, overlap)
  }

  /** The sentence groups of the chunks `chunk_document` emits: the closed ones, then the last if not empty. */
  function Groups(sentences: seq<string>, chunkSize: nat, overlap: nat): seq<seq<string>> {
    var st := Run(sentences, chunkSize, overlap);
    if st.current != [] then st.closed + [st.current] else st.closed
  }

  /** The chunk records for `groups` of `doc`: the k-th gets `chunk_id` k and its sentences joined by spaces. */
  function MakeChunks(doc: Document, groups: seq<seq<string>>): seq<Chunk> {
    seq(|groups|, k requires 0 <= k < |groups| => Chunk(doc.source, doc.url, doc.title, Join(" ", groups[k]), k))
  }

  /** What `chunk_document` returns for `doc` once its text has been split into `sentences`. */
  function DocumentChunks(doc: Document, sentences: seq<string>, chunkSize: nat, overlap: nat): seq<Chunk> {
    MakeChunks(doc, Groups(sentences, chunkSize, overlap))
  }

  // ---------------------------------------------------------------------------
  // What the packing promises
  // ---------------------------------------------------------------------------

  /** The close rule: a chunk closes exactly when it is non-empty and the sentence would overflow it. */
  lemma StepCloses(st: ChunkState, sentence: string, chunkSize: nat, overlap: nat)
    ensures var r := Step(st, sentence, chunkSize, overlap);
      && (|r.closed| == |st.closed| + 1 <==> st.current != [] && SumLens(st.current) + |sentence| > chunkSize)
      && (|r.closed| == |st.closed| + 1 ==> r.closed == st.closed + [st.current] && r.current == OverlapSuffix(st.current, overlap) + [sentence])
      && (|r.closed| == |st.closed| ==> r.closed == st.closed && r.current == st.current + [sentence])
      && (st.current != [] && r.closed == st.closed ==> SumLens(r.current) <= chunkSize)
      && r.current != [] && r.current[|r.current| - 1] == sentence
  {
    SumLensAppend(st.current, [sentence]);
    assert [sentence][..0] == [];
  }

  /** A group fits `chunkSize`, or is a carried-over overlap plus one sentence. */
  predicate Fits(g: seq<string>, chunkSize: nat, overlap: nat) {
    g != [] && (SumLens(g) <= chunkSize || SumLens(g[..|g| - 1]) <= overlap)
  }

  /** Every closed chunk, and the open one once a sentence has been read, fits. */
  lemma {:induction false} RunFits(sentences: seq<string>, chunkSize: nat, overlap: nat)
    ensures var st := Run(sentences, chunkSize, overlap);
      && (forall g | g in st.closed :: Fits(g, chunkSize, overlap))
      && (st.current == [] <==> sentences == [])
      && (sentences != [] ==> Fits(st.current, chunkSize, overlap) && st.current[|st.current| - 1] == sentences[|sentences| - 1])
    decreases |sentences|
  {
    if sentences != [] {
      var init := sentences[..|sentences| - 1];
      var x := sentences[|sentences| - 1];
      var prev := Run(init, chunkSize, overlap);
      RunFits(init, chunkSize, overlap);
      StepCloses(prev, x, chunkSize, overlap);
      var st := Step(prev, x, chunkSize, overlap);
      var c := st.current;
      if |st.closed| == |prev.closed| + 1 {
        var o := OverlapSuffix(prev.current, overlap);
        OverlapSuffixShape(prev.current, overlap);
        assert c[..|c| - 1] == o;
      } else if prev.current == [] {
        assert c == [x] && c[..|c| - 1] == [];
      }
    }
  }

  /** A sentence is in one of `groups`. */
  predicate InSomeGroup(groups: seq<seq<string>>, s: string) {
    exists g | g in groups :: s in g
  }

  /** No sentence is lost: each one read lies in a closed chunk or in the open one. */
  lemma {:induction false} RunCovers(sentences: seq<string>, chunkSize: nat, overlap: nat)
    ensures var st := Run(sentences, chunkSize, overlap);
      forall k | 0 <= k < |sentences| :: InSomeGroup(st.closed + [st.current], sentences[k])
    decreases |sentences|
  {
    if sentences != [] {
      var init := sentences[..|sentences| - 1];
      var x := sentences[|sentences| - 1];
      var prev := Run(init, chunkSize, overlap);
      RunCovers(init, chunkSize, overlap);
      StepCloses(prev, x, chunkSize, overlap);
      var st := Step(prev, x, chunkSize, overlap);
      var groups := st.closed + [st.current];
      forall k | 0 <= k < |sentences|
        ensures InSomeGroup(groups, sentences[k])
      {
        if k == |sentences| - 1 {
          assert st.current in groups && x in st.current;
        } else {
          assert sentences[k] == init[k];
          var g :| g in prev.closed + [prev.current] && sentences[k] in g;
          if |st.closed| == |prev.closed| + 1 {
            assert g in groups;
          } else if g == prev.current {
            assert sentences[k] in st.current && st.current in groups;
          } else {
            assert g in groups;
          }
        }
      }
    }
  }

  /**
    The promises of `chunk_document` on its sentence groups: none without
    sentences; otherwise every sentence is in some group, the last group ends
    with the last sentence, and every group fits.
   */
  lemma GroupsProperties(sentences: seq<string>, chunkSize: nat, overlap: nat)
    ensures var gs := Groups(sentences, chunkSize, overlap);
      && (sentences == [] <==> gs == [])
      && (forall g | g in gs :: Fits(g, chunkSize, overlap))
      && (sentences != [] ==> gs[|gs| - 1][|gs[|gs| - 1]| - 1] == sentences[|sentences| - 1])
      && (forall k | 0 <= k < |sentences| :: InSomeGroup(gs, sentences[k]))
  {
    RunFits(sentences, chunkSize, overlap);
    RunCovers(sentences, chunkSize, overlap);
  }

  /** The chunk records: k-th has `chunk_id` k, the document's `source`, `url` and `title`, and its group joined by spaces. */
  lemma ChunkRecords(doc: Document, sentences: seq<string>, chunkSize: nat, overlap: nat)
    ensures var cs := DocumentChunks(doc, sentences, chunkSize, overlap);
      var gs := Groups(sentences, chunkSize, overlap);
      && |cs| == |gs|
      && (sentences == [] <==> cs == [])
      && forall k | 0 <= k < |cs| ::
           && cs[k].chunkId == k
           && cs[k].source == doc.source && cs[k].url == doc.url && cs[k].title == doc.title
           && cs[k].text == Join(" ", gs[k])
  {
    GroupsProperties(sentences, chunkSize, overlap);
  }

  // ---------------------------------------------------------------------------
  // The imperative chunker
  // ---------------------------------------------------------------------------

  /** One step of the overlap loop: the sentence before the carried tail joins it. */
  lemma CarryStep(current: seq<string>, overlap: nat, i: nat, size: nat, chunks: seq<string>)
    requires 0 < i <= |current| && size + |current[i - 1]| <= overlap
    requires chunks == current[i..] && size == SumLens(chunks)
    requires OverlapSuffix(current, overlap) == OverlapSuffix(current[..i], overlap - size) + chunks
    ensures [current[i - 1]] + chunks == current[i - 1..]
    ensures SumLens([current[i - 1]] + chunks) == size + |current[i - 1]|
    ensures OverlapSuffix(current, overlap) ==
      OverlapSuffix(current[..i - 1], overlap - (size + |current[i - 1]|)) + ([current[i - 1]] + chunks)
  {
    var sent := current[i - 1];
    assert current[..i][..i - 1] == current[..i - 1];
    SumLensAppend([sent], chunks);
    assert SumLens([sent]) == |sent| by {
      assert [sent][..0] == [];
    }
    AppendAssoc(OverlapSuffix(current[..i - 1], overlap - (size + |sent|)), [sent], chunks);
  }

  /** The overlap loop: `for i in range(len(current_chunk) - 1, -1, -1)` with its `break`. */
  method CarryOverlap(current: seq<string>, overlap: nat) returns (overlapChunks: seq<string>, overlapSize: nat)
    ensures overlapChunks == OverlapSuffix(current, overlap)
    ensures overlapSize == SumLens(overlapChunks)
  {
    overlapSize := 0;
    overlapChunks := [];
    var i := |current|;
    assert current[..i] == current;
    while i > 0
      invariant 0 <= i <= |current|
      invariant overlapSize <= overlap
      invariant overlapChunks == current[i..]
      invariant overlapSize == SumLens(overlapChunks)
      invariant OverlapSuffix(current, overlap) == OverlapSuffix(current[..i], overlap - overlapSize) + overlapChunks
      decreases i
    {
      var sent := current[i - 1];
      if overlapSize + |sent| <= overlap {
        CarryStep(current, overlap, i, overlapSize, overlapChunks);
        overlapChunks := [sent] + overlapChunks;
        overlapSize := overlapSize + |sent|;
        i := i - 1;
      } else {
        break;
      }
    }
  }

  lemma MakeChunksSnoc(doc: Document, groups: seq<seq<string>>, g: seq<string>)
    ensures MakeChunks(doc, groups + [g]) == MakeChunks(doc, groups) + [Chunk(doc.source, doc.url, doc.title, Join(" ", g), |groups|)]
  {
  }

  lemma RunPrefix(sentences: seq<string>, j: nat, chunkSize: nat, overlap: nat)
    requires j < |sentences|
    ensures Run(sentences[..j + 1], chunkSize, overlap) == Step(Run(sentences[..j], chunkSize, overlap), sentences[j], chunkSize, overlap)
  {
    assert sentences[..j + 1][..j] == sentences[..j];
  }

  /** The sentence loop of `chunk_document` and its final flush. */
  method ChunkSentences(doc: Document, sentences: seq<string>, chunkSize: nat, overlap: nat) returns (chunks: seq<Chunk>)
    ensures chunks == DocumentChunks(doc, sentences, chunkSize, overlap)
  {
    chunks := [];
    var currentChunk: seq<string> := [];
    var currentSize: nat := 0;
    ghost var closed: seq<seq<string>> := [];
    for j := 0 to |sentences|
      invariant ChunkState(closed, currentChunk) == Run(sentences[..j], chunkSize, overlap)
      invariant currentSize == SumLens(currentChunk)
      invariant chunks == MakeChunks(doc, closed)
    {
      RunPrefix(sentences, j, chunkSize, overlap);
      var sentence := sentences[j];
      var sentenceLen := |sentence|;
      if currentSize + sentenceLen > chunkSize && currentChunk != [] {
        var chunkText := Join(" ", currentChunk);
        MakeChunksSnoc(doc, closed, currentChunk);
        chunks := chunks + [Chunk(doc.source, doc.url, doc.title, chunkText, |chunks|)];
        closed := closed + [currentChunk];
        var overlapChunks, overlapSize := CarryOverlap(currentChunk, overlap);
        currentChunk := overlapChunks;
        currentSize := overlapSize;
      }
      SumLensAppend(currentChunk, [sentence]);
      assert SumLens([sentence]) == sentenceLen by {
        assert [sentence][..0] == [];
      }
      currentChunk := currentChunk + [sentence];
      currentSize := currentSize + sentenceLen;
    }
    assert sentences[..|sentences|] == sentences;
    if currentChunk != [] {
      var chunkText := Join(" ", currentChunk);
      MakeChunksSnoc(doc, closed, currentChunk);
      chunks := chunks + [Chunk(doc.source, doc.url, doc.title, chunkText, |chunks|)];
    }
  }

  /** The chunks of one document, as `chunk_document` makes them. */
  function ChunksOf(doc: Document, sentTokenize: string -> seq<string>, chunkSize: nat, overlap: nat): seq<Chunk> {
    DocumentChunks(doc, sentTokenize(Preprocess(doc.content)), chunkSize, overlap)
  }

  /** `DocumentProcessor.chunk_document`: normalise the content, split it into sentences, pack them. */
  method ChunkDocument(doc: Document, sentTokenize: string -> seq<string>, chunkSize: nat, overlap: nat) returns (chunks: seq<Chunk>)
    ensures chunks == ChunksOf(doc, sentTokenize, chunkSize, overlap)
  {
    var text := doc.content;
    var preprocessedText := Preprocess(text);
    var sentences := sentTokenize(preprocessedText);
    chunks := ChunkSentences(doc, sentences, chunkSize, overlap);
  }

  /** The chunks of all `docs` with the default sizes, document after document. */
  function CorpusChunks(docs: seq<Document>, sentTokenize: string -> seq<string>): seq<Chunk>
    decreases |docs|
  {
    if docs == [] then []
    else CorpusChunks(docs[..|docs| - 1], sentTokenize) + ChunksOf(docs[|docs| - 1], sentTokenize, CHUNK_SIZE, OVERLAP)
  }

  /** Every chunk of the corpus carries the `source`, `url` and `title` of one of the documents. */
  lemma {:induction false} CorpusChunksFromDocuments(docs: seq<Document>, sentTokenize: string -> seq<string>)
    ensures forall c | c in CorpusChunks(docs, sentTokenize) ::
      exists d | d in docs :: c.source == d.source && c.url == d.url && c.title == d.title
    decreases |docs|
  {
    if docs != [] {
      var init := docs[..|docs| - 1];
      var d := docs[|docs| - 1];
      CorpusChunksFromDocuments(init, sentTokenize);
      var tail := ChunksOf(d, sentTokenize, CHUNK_SIZE, OVERLAP);
      ChunkRecords(d, sentTokenize(Preprocess(d.content)), CHUNK_SIZE, OVERLAP);
      forall c | c in CorpusChunks(docs, sentTokenize)
        ensures exists e | e in docs :: c.source == e.source && c.url == e.url && c.title == e.title
      {
        if c in tail {
          var k :| 0 <= k < |tail| && tail[k] == c;
          assert d in docs;
        } else {
          assert c in CorpusChunks(init, sentTokenize);
          var e :| e in init && c.source == e.source && c.url == e.url && c.title == e.title;
          assert e in docs;
        }
      }
    }
  }

  /** `chunk_id` restarts at 0 for every document: the block of a document's chunks is numbered 0, 1, ... */
  lemma CorpusChunkIdsRestart(docs: seq<Document>, d: Document, sentTokenize: string -> seq<string>)
    ensures var before := CorpusChunks(docs, sentTokenize);
      var all := CorpusChunks(docs + [d], sentTokenize);
      && all[..|before|] == before
      && forall k | |before| <= k < |all| :: all[k].chunkId == k - |before| && all[k].source == d.source
  {
    assert (docs + [d])[..|docs|] == docs;
    ChunkRecords(d, sentTokenize(Preprocess(d.content)), CHUNK_SIZE, OVERLAP);
  }

  lemma CorpusChunksStep(docs: seq<Document>, i: nat, sentTokenize: string -> seq<string>)
    requires i < |docs|
    ensures CorpusChunks(docs[..i + 1], sentTokenize) == CorpusChunks(docs[..i], sentTokenize) + ChunksOf(docs[i], sentTokenize, CHUNK_SIZE, OVERLAP)
  {
    assert docs[..i + 1][..i] == docs[..i];
  }

  /** Appending the next document's chunks extends the corpus prefix by one document. */
  lemma CorpusChunksExtend(start: seq<Chunk>, docs: seq<Document>, i: nat, sentTokenize: string -> seq<string>,
                           chunks: seq<Chunk>, docChunks: seq<Chunk>)
    requires i < |docs|
    requires chunks == start + CorpusChunks(docs[..i], sentTokenize)
    requires docChunks == ChunksOf(docs[i], sentTokenize, CHUNK_SIZE, OVERLAP)
    ensures chunks + docChunks == start + CorpusChunks(docs[..i + 1], sentTokenize)
  {
    CorpusChunksStep(docs, i, sentTokenize);
    AppendAssoc(start, CorpusChunks(docs[..i], sentTokenize), docChunks);
  }

  /** The indexer's document store: the loaded documents and the chunks made from them. */
  class DocumentProcessor {
    var documents: seq<Document>
    var chunks: seq<Chunk>

    /** A processor holding `documents`, the documents `load_documents` would have read; no chunks yet. */
    constructor(documents: seq<Document>)
      ensures this.documents == documents && chunks == []
    {
      this.documents := documents;
      chunks := [];
    }

    /** `process_all_documents`: extend `chunks` by each document's chunks, in document order. */
    method ProcessAllDocuments(sentTokenize: string -> seq<string>)
      modifies this`chunks
      ensures chunks == old(chunks) + CorpusChunks(documents, sentTokenize)
    {
      for i := 0 to |documents|
        invariant chunks == old(chunks) + CorpusChunks(documents[..i], sentTokenize)
      {
        var docChunks := ChunkDocument(documents[i], sentTokenize, CHUNK_SIZE, OVERLAP);
        CorpusChunksExtend(old(chunks), documents, i, sentTokenize, chunks, docChunks);
        chunks := chunks + docChunks;
      }
      assert documents[..|documents|] == documents;
    }
  }
}
