/** `OllamaLLM` in app/llm.py, with the HTTP call abstracted away: prompt
    assembly, `generate_answer`'s control flow, the `answer:` prefix removal
    and the word-overlap hallucination heuristic.

    The model server is a parameter `llm` from the prompt sent to its reply:
    a status code with the JSON body's `response` field (absent when the body
    has none), or `Failed` for any exception on the way. */
module Llm {
  import opened Records
  import opened Strings

  /** The fixed text of the prompt template up to the documents. */
  const Preamble: string :=
    "You are a helpful assistant that answers questions based on the provided documents. \n\n"
    + "IMPORTANT RULES:\n"
    + "1. Only answer based on the information provided in the documents below\n"
    + "2. If the documents don't contain enough information to answer the question, say \"I don't know\"\n"
    + "3. Always cite which documents you used in your answer\n"
    + "4. Be concise and accurate\n"
    + "5. Do not make up information not present in the documents\n\n"
    + "DOCUMENTS:\n"

  const QuestionMarker: string := "\n\nQUESTION: "
  const AnswerMarker: string := "\n\nANSWER:"
  const DocumentSeparator: string := "\n\n"

  /** One document block: `Document {i} ({filename}):\n{content}`. */
  function RenderDoc(i: nat, d: Doc): string {
    "Document " + Decimal(i) + " (" + d.hit.chunk.filename + "):\n" + Content(d)
  }

  /** The blocks, numbered from 1 as `enumerate(chunks, 1)` does. */
  function Blocks(chunks: seq<Doc>): (r: seq<string>)
    ensures |r| == |chunks|
    ensures forall i :: 0 <= i < |chunks| ==> r[i] == RenderDoc(i + 1, chunks[i])
  {
    seq(|chunks|, i requires 0 <= i < |chunks| => RenderDoc(i + 1, chunks[i]))
  }

  /** `_create_prompt`: the preamble, the blocks joined by a blank line, then
      the question and the answer cue. */
  function CreatePrompt(question: string, chunks: seq<Doc>): (p: string)
    ensures StartsWith(p, Preamble)
    ensures var tail := QuestionMarker + question + AnswerMarker;
            |tail| <= |p| && p[|p| - |tail|..] == tail
  {
    var context := Join(Blocks(chunks), DocumentSeparator);
    var tail := QuestionMarker + question + AnswerMarker;
    Framed(Preamble, context, tail);
    Preamble + context + tail
  }

  /** The first and last parts of a three-part concatenation are its prefix and suffix. */
  lemma Framed(x: string, y: string, z: string)
    ensures |x| + |z| <= |x + y + z|
    ensures (x + y + z)[..|x|] == x && (x + y + z)[|x + y + z| - |z|..] == z
  {
    var s := x + y + z;
    assert forall i :: 0 <= i < |z| ==> s[|s| - |z|..][i] == z[i];
  }

  /** Every document block, numbered from 1, appears in the prompt. */
  lemma PromptHasEveryDocument(question: string, chunks: seq<Doc>, i: nat)
    requires i < |chunks|
    ensures Contains(CreatePrompt(question, chunks), RenderDoc(i + 1, chunks[i]))
  {
    var blocks := Blocks(chunks);
    var context := Join(blocks, DocumentSeparator);
    JoinContainsParts(blocks, DocumentSeparator, i);
    ContainsInfix(Preamble, context, QuestionMarker + question + AnswerMarker, blocks[i]);
    assert CreatePrompt(question, chunks) == Preamble + context + (QuestionMarker + question + AnswerMarker);
  }

  /** The blocks appear in chunk order: each block is followed, after one
      blank line, by the next. */
  lemma PromptBlocksInOrder(question: string, chunks: seq<Doc>, i: nat)
    requires i + 1 < |chunks|
    ensures Contains(CreatePrompt(question, chunks),
                     RenderDoc(i + 1, chunks[i]) + DocumentSeparator + RenderDoc(i + 2, chunks[i + 1]))
  {
    var blocks := Blocks(chunks);
    var context := Join(blocks, DocumentSeparator);
    JoinAdjacent(blocks, DocumentSeparator, i);
    ContainsInfix(Preamble, context, QuestionMarker + question + AnswerMarker,
                  blocks[i] + DocumentSeparator + blocks[i + 1]);
  }

  /** For the same documents, different questions give different prompts. */
  lemma PromptDeterminesQuestion(q1: string, q2: string, chunks: seq<Doc>)
    requires CreatePrompt(q1, chunks) == CreatePrompt(q2, chunks)
    ensures q1 == q2
  {
    var p := CreatePrompt(q1, chunks);
    var t1 := QuestionMarker + q1 + AnswerMarker;
    var t2 := QuestionMarker + q2 + AnswerMarker;
    var head := Preamble + Join(Blocks(chunks), DocumentSeparator);
    assert |p| == |head| + |t1| == |head| + |t2|;
    assert t1 == p[|p| - |t1|..] == t2;
    assert q1 == t1[|QuestionMarker|..|QuestionMarker| + |q1|];
    assert q2 == t2[|QuestionMarker|..|QuestionMarker| + |q2|];
  }

  // ---------------------------------------------------------------------------
  // Post-processing

  const AnswerLabel: string := "answer:"

  /** The first step of `_post_process_answer`: an answer whose lowered form
      starts with `answer:` loses its first 7 characters and is stripped. */
  function Unprefixed(answer: string): (r: string)
    ensures |r| <= |answer|
    ensures !StartsWith(Lower(answer), AnswerLabel) ==> r == answer
  {
    if StartsWith(Lower(answer), AnswerLabel) then Strip(answer[7..]) else answer
  }

  /** Whatever the case of the label, `Answer:` followed by a body leaves the stripped body. */
  lemma UnprefixedDropsLabel(tag: string, body: string)
    requires |tag| == |AnswerLabel| && Lower(tag) == AnswerLabel
    ensures Unprefixed(tag + body) == Strip(body)
  {
    LowerConcat(tag, body);
    assert Lower(tag + body)[..|AnswerLabel|] == Lower(tag);
    assert (tag + body)[7..] == body;
  }

  /** The phrases `_is_likely_hallucination` treats as a sign of an ungrounded answer. */
  const HallucinationPhrases: seq<string> := [
    "i don't have access", "i cannot access", "based on my training", "as an ai",
    "i'm not able to browse", "i don't have the ability"]

  /** Minimum number of stripped characters. */
  const MinAnswerLength: nat := 10

  /** The distinct lowered words of all chunk contents joined by a space. */
  function ChunkWords(chunks: seq<Doc>): set<string> {
    WordSet(Join(Contents(chunks), " "))
  }

  /** Python's `max(a, b)` on numbers. */
  function PyMax(a: real, b: real): real {
    if b > a then b else a
  }

  /** `_is_likely_hallucination`: the answer is too short, contains a listed
      phrase, or shares fewer than `max(2, 0.1 * |answer words|)` words with
      the chunks. */
  function IsLikelyHallucination(answer: string, chunks: seq<Doc>): (r: bool)
    ensures var words := WordSet(answer);
            var overlap := |words * ChunkWords(chunks)|;
            r <==> || |Strip(answer)| < MinAnswerLength
                   || ContainsAny(Lower(answer), HallucinationPhrases)
                   || 10 * overlap < Max(20, |words|)
  {
    var words := WordSet(answer);
    var overlap := |words * ChunkWords(chunks)|;
    if |Strip(answer)| < MinAnswerLength then true
    else if ContainsAny(Lower(answer), HallucinationPhrases) then true
    else (overlap as real) < PyMax(2.0, (|words| as real) * 0.1)
  }

  /** The words of the joined chunk text, taken one chunk at a time. */
  function AllWords(contents: seq<string>): set<string> {
    if |contents| == 0 then {} else WordSet(contents[0]) + AllWords(contents[1..])
  }

  lemma {:induction false} AllWordsMember(contents: seq<string>, w: string)
    ensures w in AllWords(contents) <==> exists i :: 0 <= i < |contents| && w in WordSet(contents[i])
  {
    if |contents| > 0 {
      AllWordsMember(contents[1..], w);
      assert forall i :: 1 <= i < |contents| ==> contents[1..][i - 1] == contents[i];
      if w in AllWords(contents[1..]) {
        var i :| 0 <= i < |contents[1..]| && w in WordSet(contents[1..][i]);
        assert w in WordSet(contents[i + 1]);
      }
    }
  }

  /** Joining with a space neither merges nor splits words: the words of the
      joined text are the words of the parts. */
  lemma {:induction false} JoinedWords(contents: seq<string>)
    ensures WordSet(Join(contents, " ")) == AllWords(contents)
  {
    if |contents| == 1 {
      assert AllWords(contents[1..]) == {};
    } else if |contents| > 1 {
      var rest := Join(contents[1..], " ");
      JoinedWords(contents[1..]);
      assert Join(contents, " ") == contents[0] + [' '] + rest;
      LowerConcat(contents[0] + [' '], rest);
      LowerConcat(contents[0], [' ']);
      assert Lower([' ']) == [' '];
      SplitAroundSpace(Lower(contents[0]), ' ', Lower(rest));
      SetOfConcat(Split(Lower(contents[0])), Split(Lower(rest)));
    }
  }

  /** An answer word counts towards the overlap exactly when it is a word of some chunk. */
  lemma OverlapWords(answer: string, chunks: seq<Doc>, w: string)
    ensures w in WordSet(answer) * ChunkWords(chunks) <==>
              w in WordSet(answer) && exists i :: 0 <= i < |chunks| && w in WordSet(Content(chunks[i]))
  {
    var cs := Contents(chunks);
    JoinedWords(cs);
    AllWordsMember(cs, w);
  }

  /** Answers with at most 20 distinct words need two of them in the chunks;
      longer ones need a tenth of them. */
  lemma OverlapThreshold(answer: string, chunks: seq<Doc>)
    requires |Strip(answer)| >= MinAnswerLength && !ContainsAny(Lower(answer), HallucinationPhrases)
    ensures var words := WordSet(answer);
            var overlap := |words * ChunkWords(chunks)|;
            && (|words| <= 20 ==> (IsLikelyHallucination(answer, chunks) <==> overlap < 2))
            && (|words| > 20 ==> (IsLikelyHallucination(answer, chunks) <==> 10 * overlap < |words|))
  {
  }

  const HallucinationAnswer: string :=
    "I don't know. I couldn't find sufficient information in the documents to provide a confident answer."

  /** `_post_process_answer`: remove the label, then refuse a likely hallucination. */
  function PostProcess(answer: string, chunks: seq<Doc>): (r: string)
    ensures IsLikelyHallucination(Unprefixed(answer), chunks) ==> r == HallucinationAnswer
    ensures !IsLikelyHallucination(Unprefixed(answer), chunks) ==> r == Unprefixed(answer)
    ensures r != HallucinationAnswer ==> r == Unprefixed(answer) && |r| >= MinAnswerLength
  {
    var a := Unprefixed(answer);
    if IsLikelyHallucination(a, chunks) then HallucinationAnswer else a
  }

  // ---------------------------------------------------------------------------
  // generate_answer

  datatype LlmReply = Reply(statusCode: int, response: Option<string>) | Failed

  /** What `generate_answer` returned, and the prompt it sent, if any. */
  datatype Generation = Generation(answer: string, sent: Option<string>)

  const NoDocumentsAnswer: string := "I don't know. No relevant documents were found to answer your question."
  const EmptyReplyAnswer: string := "I don't know. I couldn't generate a proper response based on the provided documents."
  const ServerErrorAnswer: string := "I don't know. There was an error generating the response."
  const FailureAnswer: string := "I don't know. There was an error processing your question."

  /** `result.get("response", "").strip()`. */
  function ReplyText(reply: LlmReply): string
    requires reply.Reply?
  {
    match reply.response
    case Some(t) => Strip(t)
    case None => ""
  }

  /** `generate_answer`. */
  function GenerateAnswer(question: string, chunks: seq<Doc>, llm: string -> LlmReply): (g: Generation)
    ensures chunks == [] <==> g.sent == None
    ensures chunks == [] ==> g.answer == NoDocumentsAnswer
    ensures g.sent.Some? ==> g.sent.value == CreatePrompt(question, chunks)
    ensures chunks != [] ==>
              var reply := llm(CreatePrompt(question, chunks));
              && (reply.Failed? ==> g.answer == FailureAnswer)
              && (reply.Reply? && reply.statusCode != 200 ==> g.answer == ServerErrorAnswer)
              && (reply.Reply? && reply.statusCode == 200 && ReplyText(reply) == [] ==> g.answer == EmptyReplyAnswer)
              && (reply.Reply? && reply.statusCode == 200 && ReplyText(reply) != [] ==>
                    g.answer == PostProcess(ReplyText(reply), chunks))
  {
    if chunks == [] then Generation(NoDocumentsAnswer, None)
    else
      var prompt := CreatePrompt(question, chunks);
      var answer :=
        match llm(prompt)
        case Failed => FailureAnswer
        case Reply(status, _) =>
          if status != 200 then ServerErrorAnswer
          else
            var text := ReplyText(llm(prompt));
            if text == [] then EmptyReplyAnswer else PostProcess(text, chunks);
      Generation(answer, Some(prompt))
  }

  /** Every answer is one of the fixed "I don't know" messages, or the
      model's stripped reply to the prompt, label removed, that passed the
      hallucination heuristic against the chunks it was given. */
  lemma GeneratedAnswerGrounded(question: string, chunks: seq<Doc>, llm: string -> LlmReply)
    ensures var a := GenerateAnswer(question, chunks, llm).answer;
            var reply := llm(CreatePrompt(question, chunks));
            || a in {NoDocumentsAnswer, EmptyReplyAnswer, ServerErrorAnswer, FailureAnswer, HallucinationAnswer}
            || (&& chunks != [] && reply.Reply? && reply.statusCode == 200
                && a == Unprefixed(ReplyText(reply))
                && !IsLikelyHallucination(a, chunks) && |a| >= MinAnswerLength)
  {
  }
}
