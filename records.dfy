/** The records the indexer writes and the query engine reads. */
module Records {

  /** A scraped documentation page, as `chunk_document` reads it. */
  datatype Document = Document(source: string, url: string, title: string, content: string)

  /**
    A chunk record of `chunks_metadata.json`: `source`, `url`, `title`,
    `chunk_text` and `chunk_id` (the position of the chunk within its document).
   */
  datatype Chunk = Chunk(source: string, url: string, title: string, text: string, chunkId: nat)

  /** A search result: a copy of a chunk record with the `score` key added. */
  datatype ScoredChunk = ScoredChunk(chunk: Chunk, score: real)
}
