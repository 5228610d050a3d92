/** `GuardrailsFilter` in app/guardrails.py: query safety heuristics, query
    length, evidence sufficiency with its word-overlap diversity check, the
    refusal decision and response validation.

    The regular-expression table is a parameter `patternHit` (true when some
    unsafe pattern matches). The float thresholds are computed with exact
    reals, as the source writes them, and each contract states the
    equivalent integer cross-multiplication. */
module Guardrails {
  import opened Records
  import opened Strings

  /** `self.min_chunk_length`. */
  const MinChunkLength: nat := 50
  /** `self.min_chunks`. */
  const MinChunks: nat := 1
  const MinQueryLength: nat := 3
  const MaxQueryLength: nat := 1000
  /** Shortest acceptable stripped response. */
  const MinResponseLength: nat := 10

  // ---------------------------------------------------------------------------
  // Ratios

  /** For a positive denominator, `a / b > c` is `a > c * b`. */
  lemma DivAbove(a: real, b: real, c: real)
    ensures b > 0.0 ==> (a / b > c <==> a > c * b)
  {
    if b <= 0.0 {
    } else if a / b > c {
      assert (a / b) * b == a;
      assert (a / b) * b > c * b;
    } else {
      assert (a / b) * b == a;
      assert (a / b) * b <= c * b;
    }
  }

  lemma DivBelow(a: real, b: real, c: real)
    requires b > 0.0
    ensures a / b < c <==> a < c * b
  {
    assert (a / b) * b == a;
    if a / b < c {
      assert (a / b) * b < c * b;
    } else {
      assert (a / b) * b >= c * b;
    }
  }

  /** The float test `a / b > c` on two counts, `b` positive. */
  function RatioAbove(a: nat, b: nat, c: real): (r: bool)
    requires b > 0
    ensures r <==> a as real > c * b as real
  {
    DivAbove(a as real, b as real, c);
    (a as real) / (b as real) > c
  }

  /** The float test `a / b < c` on two counts, `b` positive. */
  function RatioBelow(a: nat, b: nat, c: real): (r: bool)
    requires b > 0
    ensures r <==> a as real < c * b as real
  {
    DivBelow(a as real, b as real, c);
    (a as real) / (b as real) < c
  }

  lemma SubsetCard<T>(a: set<T>, b: set<T>)
    requires a <= b
    ensures |a| <= |b|
  {
    assert |b| == |a| + |b - a|;
  }

  lemma SetOfNonEmpty<T>(s: seq<T>)
    ensures |s| > 0 ==> |SetOf(s)| > 0
  {
    if |s| > 0 {
      assert s[0] in SetOf(s);
    }
  }

  // ---------------------------------------------------------------------------
  // Query length

  /** `validate_query_length`: the stripped query holds 3 to 1000 characters. */
  function ValidateQueryLength(query: string): (ok: bool)
    ensures ok <==> MinQueryLength <= |Strip(query)| <= MaxQueryLength
    ensures ok ==> !AllSpace(query)
  {
    var n := |Strip(query)|;
    if n < MinQueryLength then false
    else if n > MaxQueryLength then false
    else true
  }

  // ---------------------------------------------------------------------------
  // Word-overlap similarity

  /** The Jaccard index of two word sets, 0 when either is empty. */
  function Jaccard(w1: set<string>, w2: set<string>): (r: real)
    ensures 0.0 <= r <= 1.0
    ensures w1 == {} || w2 == {} ==> r == 0.0
  {
    if w1 == {} || w2 == {} then 0.0
    else
      SubsetCard(w1 * w2, w1 + w2);
      SubsetCard(w1, w1 + w2);
      DivAbove(|w1 * w2| as real, |w1 + w2| as real, 1.0);
      (|w1 * w2| as real) / (|w1 + w2| as real)
  }

  /** An index above 0.8 means five shared words for every four in the union. */
  lemma JaccardAbove(w1: set<string>, w2: set<string>)
    ensures Jaccard(w1, w2) > 0.8 <==> w1 != {} && w2 != {} && 5 * |w1 * w2| > 4 * |w1 + w2|
  {
    if w1 != {} && w2 != {} {
      SubsetCard(w1, w1 + w2);
      DivAbove(|w1 * w2| as real, |w1 + w2| as real, 0.8);
    }
  }

  /** `_calculate_text_similarity`: the Jaccard index of the two texts' lowered word sets. */
  function Similarity(a: string, b: string): (r: real)
    ensures 0.0 <= r <= 1.0
    ensures WordSet(a) == {} || WordSet(b) == {} ==> r == 0.0
  {
    Jaccard(WordSet(a), WordSet(b))
  }

  lemma SimilaritySymmetric(a: string, b: string)
    ensures Similarity(a, b) == Similarity(b, a)
  {
    var w1, w2 := WordSet(a), WordSet(b);
    assert w1 * w2 == w2 * w1 && w1 + w2 == w2 + w1;
  }

  /** Similarity above 0.8, the threshold of `_chunks_too_similar`. */
  predicate TooSimilarPair(a: string, b: string) {
    Similarity(a, b) > 0.8
  }

  lemma TooSimilarPairCross(a: string, b: string)
    ensures TooSimilarPair(a, b) <==>
              var w1, w2 := WordSet(a), WordSet(b);
              w1 != {} && w2 != {} && 5 * |w1 * w2| > 4 * |w1 + w2|
  {
    JaccardAbove(WordSet(a), WordSet(b));
  }

  /** An identical non-blank pair is always too similar. */
  lemma SelfTooSimilar(a: string)
    requires WordSet(a) != {}
    ensures TooSimilarPair(a, a)
  {
    var w := WordSet(a);
    assert w * w == w && w + w == w;
    TooSimilarPairCross(a, a);
  }

  /** The inner loop of `_chunks_too_similar`, for any pair test `close`:
      some later content from j on is close to contents[i]. */
  function SimilarFrom(cs: seq<string>, i: nat, j: nat, close: (string, string) -> bool): (r: bool)
    requires i < |cs|
    ensures r <==> exists q :: j <= q < |cs| && close(cs[i], cs[q])
    decreases |cs| - j
  {
    if j >= |cs| then false
    else if close(cs[i], cs[j]) then true
    else SimilarFrom(cs, i, j + 1, close)
  }

  /** The outer loop, from i on. */
  function PairFrom(cs: seq<string>, i: nat, close: (string, string) -> bool): (r: bool)
    ensures r <==> exists p, q :: i <= p < q < |cs| && close(cs[p], cs[q])
    decreases |cs| - i
  {
    if i >= |cs| then false
    else if SimilarFrom(cs, i, i + 1, close) then true
    else PairFrom(cs, i + 1, close)
  }

  /** `_chunks_too_similar` over the chunk contents. */
  function TooSimilar(cs: seq<string>): bool {
    PairFrom(cs, 0, TooSimilarPair)
  }

  // ---------------------------------------------------------------------------
  // Evidence

  predicate ValidChunk(d: Doc) {
    |Strip(Content(d))| >= MinChunkLength
  }

  /** The quality loop: the number of valid chunks and the sum of their
      (unstripped) content lengths. */
  function Quality(chunks: seq<Doc>): (vt: (nat, nat))
    ensures vt.0 <= |chunks|
  {
    if |chunks| == 0 then (0, 0)
    else
      var rest := Quality(chunks[1..]);
      if ValidChunk(chunks[0]) then (rest.0 + 1, rest.1 + |Content(chunks[0])|)
      else rest
  }

  /** The loop counts no valid chunk exactly when there is none. */
  lemma {:induction false} QualityNone(chunks: seq<Doc>)
    ensures Quality(chunks).0 == 0 <==> forall i :: 0 <= i < |chunks| ==> !ValidChunk(chunks[i])
  {
    if |chunks| > 0 {
      QualityNone(chunks[1..]);
      NoneCons(chunks, ValidChunk);
    }
  }

  /** No element of a non-empty sequence passes `p` exactly when neither its
      head nor any element of its tail does. */
  lemma NoneCons<T>(s: seq<T>, p: T -> bool)
    requires |s| > 0
    ensures (forall i :: 0 <= i < |s| ==> !p(s[i])) <==>
              !p(s[0]) && forall i :: 0 <= i < |s[1..]| ==> !p(s[1..][i])
  {
    assert forall i :: 1 <= i < |s| ==> s[1..][i - 1] == s[i];
  }

  /** Each valid chunk adds at least 50 characters, so the average over valid
      chunks is never below the minimum. */
  lemma {:induction false} QualityTotal(chunks: seq<Doc>)
    ensures Quality(chunks).1 >= MinChunkLength * Quality(chunks).0
  {
    if |chunks| > 0 {
      QualityTotal(chunks[1..]);
      if ValidChunk(chunks[0]) {
        assert |Content(chunks[0])| >= |Strip(Content(chunks[0]))|;
      }
    }
  }

  /** `has_sufficient_evidence`. The relevance-score check inside the loop
      only logs, so it has no counterpart here. */
  function HasSufficientEvidence(chunks: seq<Doc>): bool {
    if |chunks| == 0 then false
    else if |chunks| < MinChunks then false
    else
      var q := Quality(chunks);
      if q.0 == 0 then false
      else if RatioBelow(q.1, q.0, MinChunkLength as real) then false
      else if |chunks| > 1 && TooSimilar(Contents(chunks)) then false
      else true
  }

  predicate SomePairTooSimilar(chunks: seq<Doc>) {
    exists p, q :: 0 <= p < q < |chunks| && TooSimilarPair(Content(chunks[p]), Content(chunks[q]))
  }

  /** The average-length check can never reject: the evidence is sufficient
      exactly when there is a chunk, some chunk has at least 50 non-blank
      characters, and no two chunks are too similar. */
  lemma EvidenceExactly(chunks: seq<Doc>)
    ensures HasSufficientEvidence(chunks) <==>
              && |chunks| > 0
              && (exists i :: 0 <= i < |chunks| && ValidChunk(chunks[i]))
              && !(|chunks| > 1 && SomePairTooSimilar(chunks))
  {
    var q := Quality(chunks);
    QualityNone(chunks);
    if |chunks| > 0 && q.0 > 0 {
      QualityTotal(chunks);
      assert !RatioBelow(q.1, q.0, MinChunkLength as real);
    }
    TooSimilarContents(chunks);
  }

  /** The diversity loop over the contents finds a pair exactly when some two chunks are too similar. */
  lemma TooSimilarContents(chunks: seq<Doc>)
    ensures TooSimilar(Contents(chunks)) <==> SomePairTooSimilar(chunks)
  {
    var cs := Contents(chunks);
    assert TooSimilar(cs) <==> exists p, q :: 0 <= p < q < |cs| && TooSimilarPair(cs[p], cs[q]);
  }

  /** Two copies of the same non-blank chunk are never sufficient evidence. */
  lemma DuplicateChunksInsufficient(d: Doc)
    requires WordSet(Content(d)) != {}
    ensures !HasSufficientEvidence([d, d])
  {
    SelfTooSimilar(Content(d));
    EvidenceExactly([d, d]);
  }

  // ---------------------------------------------------------------------------
  // Safety heuristics

  /** The profanity list of `_contains_excessive_profanity`. */
  const ProfanityWords: seq<string> := ["damn", "hell", "shit", "fuck", "bitch", "ass", "bastard", "crap"]

  /** The listed words that occur (as substrings) in `hay`. */
  function Occurring(hay: string, words: seq<string>): set<string> {
    set w | w in words && Contains(hay, w)
  }

  /** The listed words that occur (as substrings) in `hay`, in list order:
      one entry per list entry that occurs, as the generator in
      `_contains_excessive_profanity` counts them. */
  function Matched(hay: string, words: seq<string>): (r: seq<string>)
    ensures |r| <= |words|
    ensures forall w :: w in r <==> w in words && Contains(hay, w)
    ensures Distinct(words) ==> Distinct(r)
  {
    if |words| == 0 then []
    else if Contains(hay, words[0]) then
      var rest := Matched(hay, words[1..]);
      assert Distinct(words) ==> words[0] !in words[1..];
      [words[0]] + rest
    else Matched(hay, words[1..])
  }

  /** For a list without repeats, the count is the number of distinct listed words that occur. */
  lemma {:induction false} MatchedCount(hay: string, words: seq<string>)
    requires Distinct(words)
    ensures |Matched(hay, words)| == |Occurring(hay, words)|
  {
    if |words| > 0 {
      var tail := words[1..];
      MatchedCount(hay, tail);
      if Contains(hay, words[0]) {
        assert words[0] !in tail;
        assert Occurring(hay, words) == {words[0]} + Occurring(hay, tail);
      } else {
        assert Occurring(hay, words) == Occurring(hay, tail);
      }
    }
  }

  lemma ProfanityWordsDistinct()
    ensures Distinct(ProfanityWords)
  {
  }

  /** `_contains_excessive_profanity`: more than three listed words occur in
      the lowered text, or they make up more than a fifth of its word count. */
  function ExcessiveProfanity(text: string): (r: bool)
    ensures var count := |Occurring(Lower(text), ProfanityWords)|;
            var wc := |Split(text)|;
            r <==> count > 3 || (wc > 0 && 5 * count > wc)
  {
    ProfanityWordsDistinct();
    MatchedCount(Lower(text), ProfanityWords);
    var count := |Matched(Lower(text), ProfanityWords)|;
    var wc := |Split(text)|;
    count > 3 || (wc > 0 && RatioAbove(count, wc, 0.2))
  }

  /** The number of characters of `s` that satisfy `p`. */
  function CountWhere(s: string, p: char -> bool): (r: nat)
    ensures r <= |s|
  {
    if |s| == 0 then 0 else (if p(s[0]) then 1 else 0) + CountWhere(s[1..], p)
  }

  lemma {:induction false} CountWhereConcat(a: string, b: string, p: char -> bool)
    ensures CountWhere(a + b, p) == CountWhere(a, p) + CountWhere(b, p)
  {
    if |a| > 0 {
      assert (a + b)[1..] == a[1..] + b;
      CountWhereConcat(a[1..], b, p);
    } else {
      assert a + b == b;
    }
  }

  /** The characters `'!?.'`. */
  predicate IsPunct(c: char) {
    c == '!' || c == '?' || c == '.'
  }

  /** `_is_spam_like`: heavy word repetition, mostly capitals, or heavy
      `!?.` punctuation. */
  function SpamLike(text: string): (r: bool)
    ensures var words := Split(Lower(text));
            var n := |text|;
            r <==> || (|words| > 10 && |words| > 3 * |SetOf(words)|)
                   || (n > 20 && 10 * CountWhere(text, IsUpper) > 7 * n)
                   || 10 * CountWhere(text, IsPunct) > 3 * n
  {
    var words := Split(Lower(text));
    var n := |text|;
    var caps := CountWhere(text, IsUpper);
    var punct := CountWhere(text, IsPunct);
    SetOfNonEmpty(words);
    if |words| > 10 && RatioAbove(|words|, |SetOf(words)|, 3.0) then true
    else if n > 20 && RatioAbove(caps, n, 0.7) then true
    else punct as real > (n as real) * 0.3
  }

  /** `is_safe_query`: no unsafe pattern matches, no excessive profanity, not spam-like. */
  function IsSafeQuery(query: string, patternHit: string -> bool): (safe: bool)
    ensures safe ==> !patternHit(query) && |Occurring(Lower(query), ProfanityWords)| <= 3
    ensures safe ==> 10 * CountWhere(query, IsPunct) <= 3 * |query|
  {
    !patternHit(query) && !ExcessiveProfanity(query) && !SpamLike(query)
  }

  // ---------------------------------------------------------------------------
  // Refusal and response validation

  const UnsafeQueryReason := "I cannot answer that question as it may involve unsafe, harmful, or inappropriate content."
  const LengthReason := "Please provide a question that is between 3 and 1000 characters."
  const EvidenceReason := "I don't know. I couldn't find sufficient information in the documents to answer your question."

  /** `should_refuse_answer`: safety, then length, then evidence; the first
      failing check gives the reason. */
  function ShouldRefuseAnswer(question: string, chunks: seq<Doc>, patternHit: string -> bool): (r: (bool, string))
    ensures r.0 <==> !IsSafeQuery(question, patternHit) || !ValidateQueryLength(question)
                     || !HasSufficientEvidence(chunks)
    ensures !r.0 ==> r.1 == ""
    ensures !IsSafeQuery(question, patternHit) ==> r == (true, UnsafeQueryReason)
    ensures IsSafeQuery(question, patternHit) && !ValidateQueryLength(question) ==> r == (true, LengthReason)
    ensures IsSafeQuery(question, patternHit) && ValidateQueryLength(question) && !HasSufficientEvidence(chunks) ==>
              r == (true, EvidenceReason)
  {
    if !IsSafeQuery(question, patternHit) then (true, UnsafeQueryReason)
    else if !ValidateQueryLength(question) then (true, LengthReason)
    else if !HasSufficientEvidence(chunks) then (true, EvidenceReason)
    else (false, "")
  }

  /** An unsafe question is refused for safety whatever the evidence, and a
      safe, well-sized question with no chunks is refused for lack of evidence. */
  lemma RefusalOrder(question: string, chunks: seq<Doc>, patternHit: string -> bool)
    ensures patternHit(question) ==> ShouldRefuseAnswer(question, chunks, patternHit) == (true, UnsafeQueryReason)
    ensures IsSafeQuery(question, patternHit) && ValidateQueryLength(question) && chunks == [] ==>
              ShouldRefuseAnswer(question, chunks, patternHit) == (true, EvidenceReason)
  {
  }

  const GroundedPhrases: seq<string> := [
    "according to the documents", "based on the provided information", "the document states",
    "as mentioned in", "from the documents", "i don't know", "i couldn't find", "not enough information"]

  const HallucinationIndicators: seq<string> := [
    "i know that", "it is well known", "generally speaking", "in my experience",
    "based on my knowledge", "i believe", "i think"]

  const UnsafeResponseReason := "I cannot provide that response as it may contain unsafe content."
  const UngroundedReason := "I can only answer based on the information provided in the documents."
  const ShortResponseReason := "I don't know. I couldn't generate a proper response based on the provided documents."

  /** A hallucination indicator without any grounding phrase, in the lowered response. */
  predicate Flagged(response: string) {
    var lower := Lower(response);
    ContainsAny(lower, HallucinationIndicators) && !ContainsAny(lower, GroundedPhrases)
  }

  /** `validate_response`: an unsafe response, an ungrounded one that shows a
      hallucination indicator, or one shorter than 10 stripped characters is
      replaced by a fixed message; otherwise it passes unchanged. */
  function ValidateResponse(response: string, question: string, patternHit: string -> bool): (r: (bool, string))
    ensures r.0 <==> IsSafeQuery(response, patternHit) && !Flagged(response) && |Strip(response)| >= MinResponseLength
    ensures r.0 ==> r.1 == response
    ensures !IsSafeQuery(response, patternHit) ==> r == (false, UnsafeResponseReason)
    ensures IsSafeQuery(response, patternHit) && Flagged(response) ==> r == (false, UngroundedReason)
    ensures IsSafeQuery(response, patternHit) && !Flagged(response) && |Strip(response)| < MinResponseLength ==>
              r == (false, ShortResponseReason)
  {
    var lower := Lower(response);
    if !IsSafeQuery(response, patternHit) then (false, UnsafeResponseReason)
    else
      var grounded := ContainsAny(lower, GroundedPhrases);
      var hallucinated := ContainsAny(lower, HallucinationIndicators);
      if hallucinated && !grounded then (false, UngroundedReason)
      else if |Strip(response)| < MinResponseLength then (false, ShortResponseReason)
      else (true, response)
  }

  /** A grounding phrase outweighs any hallucination indicator. */
  lemma GroundingWins(response: string, question: string, patternHit: string -> bool)
    requires IsSafeQuery(response, patternHit) && |Strip(response)| >= MinResponseLength
    requires Contains(Lower(response), "i don't know")
    ensures ValidateResponse(response, question, patternHit) == (true, response)
  {
    assert GroundedPhrases[5] == "i don't know";
  }
}
