/**
 * The chunk dicts the retriever hands around. They are Python objects held by
 * reference: `retrieve` writes `h["rerank_score"]` into them in place, and the
 * direct matches are the very dicts of the in-memory corpus, so such a write
 * is still visible on the next query.
 */
module Hits {
  import opened Wrappers
  import opened Chunks

  class Hit {
    /** The chunk fields `id`, `text` and `meta`, which nothing writes after loading. */
    const chunk: Chunk
    /** The `"score"` key a semantic search hit carries; corpus dicts have none. */
    const score: Option<real>
    /** The `"rerank_score"` key, absent until a rerank writes it. */
    var rerankScore: Option<real>

    constructor (chunk: Chunk, score: Option<real>)
      ensures this.chunk == chunk && this.score == score && rerankScore == None
    {
      this.chunk := chunk;
      this.score := score;
      rerankScore := None;
    }
  }

  /** `h["id"]`, the key the retriever deduplicates by. */
  function Id(h: Hit): string {
    h.chunk.id
  }
}
