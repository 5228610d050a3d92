# RAG system core, modelled in Dafny

This project models the pure logic inside a retrieval-augmented question-answering service. That service indexes documents into Elasticsearch, retrieves chunks by hybrid search and asks a local LLM to answer from them. Four pieces are modelled.

- **Hybrid retrieval** (`app/retrieval.py`), modules `Fusion` and `Retrieval`.
  - Reciprocal Rank Fusion over the ELSER, BM25 and dense result lists.
  - The three search adapters, with the backend as a parameter.
  - `search` mode dispatch and truncation.
  - `health_check`.
- **Token-window chunking** (`app/ingest.py` `_chunk_text`), module `Ingest`.
  - The overlap clamp, the window loop with its advance rule and safety fallback, and the chunk cap.
  - Chunk metadata and the chunk id shape.
  - The tokenizer and MD5 are parameters.
- **Guardrails** (`app/guardrails.py`), module `Guardrails`. It covers:
  - query length;
  - Jaccard word similarity and the pairwise diversity check;
  - evidence sufficiency;
  - the profanity and spam heuristics;
  - the refusal order;
  - response validation.
- **Answer generation** (`app/llm.py`), module `Llm`.
  - Prompt assembly.
  - The control flow of `generate_answer`, with the model server as a parameter.
  - `answer:` prefix removal and the word-overlap hallucination heuristic.

Two shared modules support these. `Strings` holds the Python `str` operations the code relies on: `isspace`, `strip`, `split()`, `lower`, `in`, `join` and `str(n)`. `Records` holds the chunk and hit records.

Each operation is a pure function or method. Where the code's loop is itself the point, it is modelled as the loop and proved equal to a reference definition:
- the fusion fold against `RrfScore`, `Payload` and `FirstSeen`;
- the chunking loop against `Windows` and `WindowChunks`.

Scores and ratios are exact `real`s. Each float threshold is also stated as an integer cross-multiplication. For example, similarity above 0.8 holds exactly when `5·len(I) > 4·len(U)`.

## Model

| member | source | states |
|---|---|---|
| `Fusion.AccumulateSpec` | app/retrieval.py:184-204 | After the three accumulation loops, the dict keys are the chunk ids in first-encounter order over ELSER, BM25, dense. Each score is the sum of `1/(k+i+1)` over every position `i` where the id occurs in any list. Each payload is the hit at the id's last occurrence in the last list holding it. |
| `Fusion.SortDescTieOrdered` | app/retrieval.py:206-207 | The stable descending sort of pairs already in first-encounter order puts higher scores first and breaks ties by first encounter. |
| `Fusion.RrfScoresAndPayloads` | app/retrieval.py:185-214 | Every fused result names an id from the inputs. It carries that id's summed RRF score and the payload from the last list containing it, with the score added. |
| `Fusion.RrfSortedStable` | app/retrieval.py:206-214 | The fused output is non-increasing in `rrf_score`. Equal scores keep first-encounter order across ELSER, BM25, dense. |
| `Fusion.RrfIdsDistinct` | app/retrieval.py:185-214 | No chunk id appears twice in the fused output. |
| `Fusion.RrfIdsComplete` | app/retrieval.py:185-214 | The set of fused ids is exactly the union of the ids of the three inputs. |
| `Fusion.RrfLength` | app/retrieval.py:185-214 | There is one fused result per distinct id. |
| `Fusion.RrfEmpty` | app/retrieval.py:185-216 | Three empty lists fuse to the empty list. |
| `Fusion.RrfLoneHead` | app/retrieval.py:188-214 | A lone hit at the head of one list comes back unchanged with score `1/(k+1)`. Any `k` below 60 gives it a larger score than `k = 60` does. |
| `Fusion.RrfSharedOutranks` | app/retrieval.py:188-214 | A chunk at the head of all three lists comes first, with a strictly greater score, ahead of a chunk found only at position 2 of one list. |
| `Retrieval.AppendRanked` | app/retrieval.py:88-96 | Each backend hit is appended in order with `rank = len(results) + 1`, and earlier results are untouched. |
| `Retrieval.Adapter` | app/retrieval.py:68-103 | An adapter returns the backend's hits in backend order, ranked 1..n, with their source fields and score. Any exception yields `[]`. The same shape holds at lines 105-138 and 140-176. |
| `Retrieval.PyPrefix` | app/retrieval.py:228 | Python's `results[:top_k]` keeps the first `min(top_k, n)` elements, and counts from the end for a negative `top_k`. |
| `Retrieval.Search` | app/retrieval.py:218-258 | In ELSER mode, only the ELSER adapter is asked, with `top_k`. In hybrid mode, all three adapters are asked, each with `2*top_k`. Any other mode returns `[]` with no request. For `top_k >= 0`, at most `top_k` results come back. |
| `Retrieval.SearchElser` | app/retrieval.py:224-228 | ELSER mode returns the first `min(top_k, n)` ELSER hits, ranked 1..n, without an `rrf_score`. |
| `Retrieval.SearchHybrid` | app/retrieval.py:230-251 | Hybrid mode returns the first `min(top_k, len(fused))` results of the RRF fusion with `k = RRF_K` of the three `2*top_k` candidate lists. Each result has its `rrf_score`. |
| `Retrieval.SearchHybridRanked` | app/retrieval.py:246-251 | Hybrid results are ordered by `rrf_score`, highest first, and never repeat a chunk id. |
| `Retrieval.SearchHybridNoResults` | app/retrieval.py:235-251 | When every backend returns nothing or fails, hybrid search returns nothing. |
| `Retrieval.HealthCheck` | app/retrieval.py:39-45 | The check is healthy exactly when the cluster answers with status green or yellow. Any exception means unhealthy. |
| `Ingest.Overlap` | app/ingest.py:303-309 | The effective overlap is `int(chunk_size * ratio)`. When that is not below `chunk_size`, it is clamped to `chunk_size // 2`, so it is always below a positive chunk size. |
| `Ingest.OverlapSetting` | app/ingest.py:303-304 | With a chunk size of 300 and an overlap ratio of 0.2, the overlap is 60 tokens. |
| `Ingest.Advance` | app/ingest.py:332-337 | The next start is `end - overlap`, with the safety fallback `start + max(1, chunk_size - overlap)`. It is always past the current start, so the loop terminates. |
| `Ingest.WindowsFrom` | app/ingest.py:315-337 | The visited windows start inside the tokens at strictly increasing positions. Each ends at `min(start + chunk_size, n)`. There is a window exactly when tokens remain. |
| `Ingest.WindowsCover` | app/ingest.py:315-317 | Every window is non-empty, lies inside the tokens and holds at most `chunk_size` tokens. The last window ends at the last token. |
| `Ingest.WindowsOverlap` | app/ingest.py:316-337 | Each window after the first starts `overlap` tokens before the previous one ends, so consecutive windows share exactly `overlap` tokens. |
| `Ingest.WindowsShort` | app/ingest.py:311-337 | A token sequence no longer than the overlap is a single window. |
| `Ingest.WindowsTwiceOverShortText` | app/ingest.py:315-337 | A sequence longer than the overlap but within one window is visited twice: whole, then its last `overlap` tokens again. |
| `Ingest.ChunkTokens` | app/ingest.py:311-343 | The loop yields exactly the reference chunks. These are the non-blank decoded window texts in window order, numbered consecutively from 0 and cut at the cap of 100. Blank windows are skipped without consuming an index. |
| `Ingest.ChunkText` | app/ingest.py:284-351 | Blank text yields `[]`. At most 100 chunks are emitted. Every chunk carries the filename and URL and non-empty stripped content. The i-th chunk's id starts with `filename_i_`. |
| `Ingest.ChunkTextShape` | app/ingest.py:318-330 | There are at most 100 chunks, and each carries the document's name and URL. Each chunk's content is non-empty and already stripped. Its id is `filename_idx_digest` for some text whose stripped form is the content. |
| `Ingest.ChunkTextWindows` | app/ingest.py:315-330 | Each chunk comes from one of the token windows. Its content is that window's decoded text, stripped, and its id is `filename_idx_digest` with the digest taken over the same decoded text unstripped. |
| `Ingest.ChunkIdsDistinct` | app/ingest.py:321 | Two chunk ids of one document with different indices differ, whatever the digests. |
| `Ingest.ChunkTextNothing` | app/ingest.py:286-287 | Whitespace-only text gives no chunks, and so does a tokenizer exception (lines 349-351). |
| `Ingest.ChunkTextTruncates` | app/ingest.py:286-294 | For a text over 100000 characters whose first 100000 characters are not all whitespace, only those first 100000 characters affect the chunks. |
| `Ingest.ChunkTextShort` | app/ingest.py:311-330 | A text of 1 to 60 tokens that decodes back to itself becomes exactly one chunk, with the stripped text and id `filename_0_digest`. |
| `Ingest.ChunkTextRepeatsTail` | app/ingest.py:315-337 | With the shipped settings, 61 to 300 tokens are covered by two windows, `[0, n)` and then `[n-60, n)`. |
| `Guardrails.ValidateQueryLength` | app/guardrails.py:201-216 | A query is valid exactly when its stripped length is between 3 and 1000. |
| `Guardrails.Similarity` | app/guardrails.py:184-199 | Similarity is the Jaccard index of the lowered word sets. It lies in [0, 1] and is 0 when either set is empty. |
| `Guardrails.SimilaritySymmetric` | app/guardrails.py:184-196 | Similarity is symmetric in its two texts. |
| `Guardrails.TooSimilarPairCross` | app/guardrails.py:176 | Similarity above 0.8 holds exactly when both word sets are non-empty and `5·len(intersection) > 4·len(union)`. |
| `Guardrails.PairFrom` | app/guardrails.py:167-182 | The nested loop, run with any pair test, stops with true exactly when some pair `i < j` passes the test. `_chunks_too_similar` runs it with similarity above 0.8. |
| `Guardrails.JaccardAbove` | app/guardrails.py:186-196 | An index above 0.8 holds exactly when both word sets are non-empty and `5·len(intersection) > 4·len(union)`. |
| `Guardrails.QualityNone` | app/guardrails.py:130-146 | The quality loop counts no valid chunk exactly when no chunk has at least 50 characters after stripping. |
| `Guardrails.QualityTotal` | app/guardrails.py:133-152 | Every counted chunk adds at least 50 characters to the total, so the average-length check can never fail. |
| `Guardrails.EvidenceExactly` | app/guardrails.py:118-160 | Evidence is sufficient exactly when there is at least one chunk, some chunk has at least 50 stripped characters, and no two chunks are too similar. |
| `Guardrails.DuplicateChunksInsufficient` | app/guardrails.py:155-157 | Two copies of one non-blank chunk are never sufficient evidence. |
| `Guardrails.Matched` | app/guardrails.py:84-89 | The matches are exactly the listed words that occur as substrings of the lowered text, and there are at most as many as list entries. A list without repeats gives matches without repeats. |
| `Guardrails.MatchedCount` | app/guardrails.py:84-89 | For a list without repeats, the match count is the number of distinct listed words that occur in the text. |
| `Guardrails.ExcessiveProfanity` | app/guardrails.py:81-93 | With count the number of the eight listed words that occur in the lowered text, profanity is excessive exactly when the count exceeds 3, or the text has words and `5·count > word_count`. |
| `Guardrails.SpamLike` | app/guardrails.py:95-116 | Text is spam-like exactly when one of three conditions holds: more than 10 words with `words > 3·unique`; more than 20 characters with `10·uppercase > 7·length`; or `10·count('!?.') > 3·length`. |
| `Guardrails.IsSafeQuery` | app/guardrails.py:56-79 | A safe query matches no unsafe pattern, names at most 3 listed words, and is not punctuation-heavy. |
| `Guardrails.ShouldRefuseAnswer` | app/guardrails.py:242-256 | A question is refused exactly when it is unsafe, badly sized or lacks evidence. An unsafe question gets the safety message. A safe question of bad length gets the length message. A safe, well-sized question without enough evidence gets the evidence message. Otherwise the result is `(False, "")`. |
| `Guardrails.RefusalOrder` | app/guardrails.py:242-256 | A pattern hit is refused for safety whatever the evidence. A safe, well-sized question with no chunks is refused for lack of evidence. |
| `Guardrails.ValidateResponse` | app/guardrails.py:258-306 | A response passes exactly when it is safe, is not flagged, and has at least 10 stripped characters. Flagged means a hallucination indicator without a grounding phrase. A passing response is returned unchanged. An unsafe one gets the unsafe-content message. A safe, flagged one gets the documents-only message. A safe, unflagged, short one gets the short-response message. |
| `Guardrails.GroundingWins` | app/guardrails.py:278-302 | A safe, long-enough response containing "i don't know" passes, whatever indicators it contains. |
| `Llm.CreatePrompt` | app/llm.py:94-119 | The prompt begins with the fixed instructions and ends with `\n\nQUESTION: {question}\n\nANSWER:`. |
| `Llm.PromptHasEveryDocument` | app/llm.py:97-101 | For every i, the block `Document {i+1} ({filename}):\n{content}` of the i-th chunk appears in the prompt. |
| `Llm.PromptBlocksInOrder` | app/llm.py:97-101 | The blocks appear in chunk order. Each block is followed by a blank line, then the next block. |
| `Llm.PromptDeterminesQuestion` | app/llm.py:103-117 | For the same chunks, two prompts are equal only if the questions are. |
| `Llm.Unprefixed` | app/llm.py:169-170 | An answer whose lowered form does not start with `answer:` is untouched, and removing the label never lengthens the answer. |
| `Llm.UnprefixedDropsLabel` | app/llm.py:169-170 | `answer:` in any letter case, followed by a body, leaves exactly the stripped body. |
| `Llm.IsLikelyHallucination` | app/llm.py:178-208 | An answer is a likely hallucination exactly in three cases: it has fewer than 10 stripped characters; its lowered form contains a listed phrase; or `10·overlap < max(20, len(answer words))`. |
| `Llm.JoinedWords` | app/llm.py:199-201 | Joining chunk contents with spaces neither merges nor splits words. The joined word set is the union of the per-chunk word sets. |
| `Llm.OverlapWords` | app/llm.py:199-204 | An answer word counts toward the overlap exactly when it is a word of some chunk. |
| `Llm.OverlapThreshold` | app/llm.py:205-206 | An answer with at most 20 distinct words needs 2 of them in the chunks. A longer one needs a tenth of them. |
| `Llm.PostProcess` | app/llm.py:166-176 | A likely hallucination becomes the fixed refusal. Any other answer comes back label-stripped, with at least 10 characters. |
| `Llm.GenerateAnswer` | app/llm.py:121-164 | With no chunks, the fixed "No relevant documents" answer comes back and no prompt is sent. Otherwise the prompt is sent. A failure, a non-200 status or an empty reply gives its fixed message. A non-empty status-200 reply is stripped and post-processed against the chunks. |
| `Llm.GeneratedAnswerGrounded` | app/llm.py:121-176 | Every answer is one of the fixed "I don't know" messages, or the stripped, label-removed status-200 reply of the model to the prompt, which passed the hallucination heuristic against the given chunks. |

## Left out

- Backend calls: Elasticsearch search, index, mapping and model-deployment requests, and SentenceTransformer encoding, are not modelled. They are network and foreign-library wrappers. Each adapter sees a backend function from its request to its hits or a failure. `app/indexer.py` is not part of this model.
- Concurrency: the `asyncio.gather` fan-out of the three adapters is not modelled. The three results are independent inputs. Retrieval has no timeout or cache. The LLM client's 30-second timeout (app/llm.py:18) raises inside `generate_answer`'s `try`, so it is one of the failures `LlmReply.Failed` stands for.
- Ingestion I/O is not modelled: Drive listing, downloads, PDF extraction, OCR and local-file scanning.
  - The tokenizer and MD5 are parameters: `encode` may fail, while `decode` and `digest` are arbitrary functions.
  - An exception from `decode` or from MD5 inside the loop, which the code also turns into `[]`, is not modelled separately.
- Regular-expression safety patterns (app/guardrails.py:14-50) are a parameter predicate `patternHit`. `sanitize_query` (app/guardrails.py:218-240) is not modelled.
- Exception fallbacks in the guardrails are not modelled, because no modelled input raises. These are `is_safe_query` defaulting to safe, `has_sufficient_evidence` defaulting to `len(chunks) > 0`, and `validate_response` defaulting to pass. One input would raise: a `None` relevance score in the logging-only score check. Modelled results always carry a score.
- The low-relevance-score check of `has_sufficient_evidence` (app/guardrails.py:140-142) only logs, so it has no counterpart.
- `lower()` and `isupper()` are modelled for ASCII letters only. Other Unicode case mappings are not modelled.
- Floats are exact reals. IEEE rounding at threshold boundaries and float ties between RRF scores are not modelled. Examples are `len(words) * 0.1`, `len(text) * 0.3` and `300 * 0.2`.
- `Ingest.ChunkTextTruncates`: it is stated only when the first 100000 characters are not all whitespace. The blank check at app/ingest.py:286 reads the whole text. A longer text whose first 100000 characters are whitespace passes that check, while its prefix alone does not. The tokenizer's decoding is a free parameter, so the chunks of the truncated text need not be empty.
- `Guardrails.IsSafeQuery`: its contract states only the consequences of passing that matter to callers. The exact if-and-only-if forms are on `Guardrails.ExcessiveProfanity` and `Guardrails.SpamLike`.
- `Llm.GenerateAnswer`: the request options are not modelled, namely temperature, top-p, max tokens and stop strings. They only shape what the model server returns, and that server is a parameter.
- The FastAPI endpoints, the Streamlit UI and the HTTP CLI are not modelled. Nor are logging and the model-pulling start-up code of the LLM client.
- Unknown search mode: the code raises `ValueError` (app/retrieval.py:254), but its own handler (lines 256-258) turns that into `[]`. The model follows the code. The test at tests/test_retrieval.py:257-260 expects the error to propagate.
- Fusion payload: the code overwrites `doc_info` on every sighting (app/retrieval.py:192, 198, 204), so the last list containing a chunk supplies its payload (`Fusion.Payload`).

## Notes on behaviour the model reproduces

- With the shipped settings, a text of 61 to 300 tokens yields its whole window and then its last 60 tokens again (`Ingest.ChunkTextRepeatsTail`). The second chunk repeats the end of the first. Only texts of at most 60 tokens give a single chunk (`Ingest.ChunkTextShort`).
- The average-length check of `has_sufficient_evidence` can never reject (`Guardrails.QualityTotal`). Every counted chunk has at least 50 stripped characters, and its unstripped length is added to the total.
