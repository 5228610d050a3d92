/** The records that flow between ingestion, retrieval, the guardrails and the
    answer generator. In the source these are plain dicts; here each dict shape
    is a datatype with named fields. */
module Records {

  datatype Option<T> = None | Some(value: T)

  /** One indexed unit of text, as `_chunk_text` in app/ingest.py builds it and
      as the search backend returns it (`content`, `filename`, `drive_url`,
      `chunk_id`). */
  datatype Chunk = Chunk(content: string, filename: string, driveUrl: string, chunkId: string)

  /** One strategy's result: the stored chunk plus the backend's `score` and the
      1-based `rank` the adapter assigns. */
  datatype Hit = Hit(chunk: Chunk, score: real, rank: int)

  /** A fused result: a copy of the hit dict plus its `rrf_score`. */
  datatype Fused = Fused(hit: Hit, rrfScore: real)

  /** What `search` hands to its caller: a hit dict, with an `rrf_score` key
      exactly when it came out of fusion. */
  datatype Doc = Doc(hit: Hit, rrfScore: Option<real>)

  function ChunkIdOf(h: Hit): string {
    h.chunk.chunkId
  }

  function Content(d: Doc): string {
    d.hit.chunk.content
  }

  /** The `content` fields of a list of results, in order. */
  function Contents(chunks: seq<Doc>): (cs: seq<string>)
    ensures |cs| == |chunks|
    ensures forall i :: 0 <= i < |chunks| ==> cs[i] == Content(chunks[i])
  {
    seq(|chunks|, i requires 0 <= i < |chunks| => Content(chunks[i]))
  }
}
