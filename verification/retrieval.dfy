/** `HybridRetriever` in app/retrieval.py, with Elasticsearch abstracted away:
    the three search adapters, `search` (mode dispatch, candidate sizes, fusion
    and truncation) and `health_check`.

    A search backend is a total function from the request the adapter would
    send (strategy, query text, `size`) to either the hits the backend returns
    or `Raised`, which stands for any exception on the way (the network, the
    ELSER model, the embedding model of the dense strategy). */
module Retrieval {
  import opened Records
  import opened Strings
  import opened Fusion

  /** `settings.RRF_K`. */
  const RrfK: nat := 60

  datatype Strategy = Elser | Bm25 | Dense

  /** What an adapter asks the backend for: `size` is the adapter's `top_k`. */
  datatype Request = Request(strategy: Strategy, query: string, size: int)

  /** One entry of `response["hits"]["hits"]`: its `_source` and `_score`. */
  datatype BackendHit = BackendHit(source: Chunk, score: real)

  datatype Response = Hits(hits: seq<BackendHit>) | Raised

  /** The adapters' loop: each backend hit is appended to `results` with
      `rank = len(results) + 1`. `acc` holds the results built so far. */
  function AppendRanked(acc: seq<Hit>, hits: seq<BackendHit>): (r: seq<Hit>)
    ensures |r| == |acc| + |hits|
    ensures r[..|acc|] == acc
    ensures forall j :: 0 <= j < |hits| ==>
              r[|acc| + j] == Hit(hits[j].source, hits[j].score, |acc| + j + 1)
    decreases |hits|
  {
    if |hits| == 0 then acc
    else AppendRanked(acc + [Hit(hits[0].source, hits[0].score, |acc| + 1)], hits[1..])
  }

  /** `_search_elser`, `_search_bm25` and `_search_dense`: the backend's hits in
      its order, ranked 1..n; any exception gives the empty list. */
  function Adapter(strategy: Strategy, query: string, size: int, backend: Request -> Response): (r: seq<Hit>)
    ensures backend(Request(strategy, query, size)).Raised? ==> r == []
    ensures backend(Request(strategy, query, size)).Hits? ==>
              var hits := backend(Request(strategy, query, size)).hits;
              && |r| == |hits|
              && forall j :: 0 <= j < |hits| ==>
                   r[j].chunk == hits[j].source && r[j].score == hits[j].score && r[j].rank == j + 1
  {
    match backend(Request(strategy, query, size))
    case Hits(hits) => AppendRanked([], hits)
    case Raised => []
  }

  /** Python's slice `s[:n]`: a negative `n` counts from the end. */
  function PyPrefix<T>(s: seq<T>, n: int): (r: seq<T>)
    ensures |r| <= |s|
    ensures r == s[..|r|]
    ensures n >= 0 ==> |r| == Min(n, |s|)
    ensures n < 0 ==> |r| == Max(0, |s| + n)
  {
    if n >= 0 then s[..Min(n, |s|)] else s[..Max(0, |s| + n)]
  }

  /** A plain adapter result as `search` returns it: no `rrf_score` key. */
  function Plain(l: seq<Hit>): (r: seq<Doc>)
    ensures |r| == |l|
    ensures forall j :: 0 <= j < |l| ==> r[j] == Doc(l[j], None)
  {
    seq(|l|, j requires 0 <= j < |l| => Doc(l[j], None))
  }

  /** A fused result as `search` returns it: the payload plus `rrf_score`. */
  function Scored(l: seq<Fused>): (r: seq<Doc>)
    ensures |r| == |l|
    ensures forall j :: 0 <= j < |l| ==> r[j] == Doc(l[j].hit, Some(l[j].rrfScore))
  {
    seq(|l|, j requires 0 <= j < |l| => Doc(l[j].hit, Some(l[j].rrfScore)))
  }

  /** What one `search` call returns, together with the backend requests it issued. */
  datatype Outcome = Outcome(docs: seq<Doc>, requests: seq<Request>)

  /** The three hybrid candidate lists, each asked for `2 * top_k` hits. */
  function HybridFused(query: string, topK: int, backend: Request -> Response): seq<Fused> {
    Rrf(Adapter(Elser, query, topK * 2, backend),
        Adapter(Bm25, query, topK * 2, backend),
        Adapter(Dense, query, topK * 2, backend),
        RrfK)
  }

  /** `search(query, mode, top_k)`. An unknown mode raises `ValueError`, which
      the method's own handler turns into `[]`. */
  function Search(query: string, mode: string, topK: int, backend: Request -> Response): (o: Outcome)
    ensures mode != "elser" && mode != "hybrid" ==> o == Outcome([], [])
    ensures mode == "elser" ==> o.requests == [Request(Elser, query, topK)]
    ensures mode == "hybrid" ==>
              o.requests == [Request(Elser, query, topK * 2), Request(Bm25, query, topK * 2),
                             Request(Dense, query, topK * 2)]
    ensures topK >= 0 ==> |o.docs| <= topK
  {
    if mode == "elser" then
      Outcome(PyPrefix(Plain(Adapter(Elser, query, topK, backend)), topK), [Request(Elser, query, topK)])
    else if mode == "hybrid" then
      Outcome(PyPrefix(Scored(HybridFused(query, topK, backend)), topK),
              [Request(Elser, query, topK * 2), Request(Bm25, query, topK * 2), Request(Dense, query, topK * 2)])
    else
      Outcome([], [])
  }

  /** ELSER mode returns the ELSER adapter's hits, ranked 1..n in backend
      order, without an `rrf_score`, cut to `top_k`. */
  lemma SearchElser(query: string, topK: nat, backend: Request -> Response)
    ensures var o := Search(query, "elser", topK, backend);
            var hits := Adapter(Elser, query, topK, backend);
            && |o.docs| == Min(topK, |hits|)
            && forall j :: 0 <= j < |o.docs| ==> o.docs[j] == Doc(hits[j], None) && o.docs[j].hit.rank == j + 1
  {
  }

  /** Hybrid mode returns the first `min(top_k, |fused|)` fused results, each
      with its RRF score over the three candidate lists. */
  lemma SearchHybrid(query: string, topK: nat, backend: Request -> Response)
    ensures var o := Search(query, "hybrid", topK, backend);
            var fused := HybridFused(query, topK, backend);
            && |o.docs| == Min(topK, |fused|)
            && forall j :: 0 <= j < |o.docs| ==> o.docs[j] == Doc(fused[j].hit, Some(fused[j].rrfScore))
  {
  }

  /** Hybrid results are ordered by RRF score, highest first, and never name
      a chunk twice. */
  lemma SearchHybridRanked(query: string, topK: nat, backend: Request -> Response)
    ensures var docs := Search(query, "hybrid", topK, backend).docs;
            && (forall i, j :: 0 <= i < j < |docs| ==>
                  docs[i].rrfScore.Some? && docs[j].rrfScore.Some? &&
                  docs[i].rrfScore.value >= docs[j].rrfScore.value)
            && (forall i, j :: 0 <= i < j < |docs| ==> docs[i].hit.chunk.chunkId != docs[j].hit.chunk.chunkId)
  {
    var e := Adapter(Elser, query, topK * 2, backend);
    var b := Adapter(Bm25, query, topK * 2, backend);
    var d := Adapter(Dense, query, topK * 2, backend);
    RrfSortedStable(e, b, d, RrfK);
    RrfIdsDistinct(e, b, d, RrfK);
    var fused := HybridFused(query, topK, backend);
    assert forall i, j :: 0 <= i < j < |fused| ==> FusedIds(fused)[i] != FusedIds(fused)[j];
  }

  /** When every backend finds nothing, or fails, hybrid search returns nothing. */
  lemma SearchHybridNoResults(query: string, topK: int, backend: Request -> Response)
    requires forall s: Strategy :: backend(Request(s, query, topK * 2)) in {Hits([]), Raised}
    ensures Search(query, "hybrid", topK, backend).docs == []
  {
    assert Adapter(Elser, query, topK * 2, backend) == [];
    assert Adapter(Bm25, query, topK * 2, backend) == [];
    assert Adapter(Dense, query, topK * 2, backend) == [];
    RrfEmpty(RrfK);
  }

  /** What `es.cluster.health()` gave: a status string, or an exception. */
  datatype Health = Status(status: string) | Unreachable

  /** `health_check`: healthy exactly for status green or yellow; an exception means unhealthy. */
  function HealthCheck(h: Health): (ok: bool)
    ensures ok ==> h.Status?
    ensures h.Status? ==> (ok <==> h.status == "green" || h.status == "yellow")
  {
    h.Status? && h.status in ["green", "yellow"]
  }
}
