/** `_chunk_text` in app/ingest.py: token-window chunking of a document's text.

    The tokenizer (tiktoken's cl100k_base) and the digest (the first eight hex
    digits of the MD5 of the window's text) are parameters: `encode` may fail
    (`None` stands for an exception, which the source turns into `[]`), `decode`
    and `digest` are arbitrary functions.

    The windowing is stated once as a reference (`Windows`: the list of
    `[start, end)` token ranges the loop visits), and `ChunkText` is the loop
    itself, proved to produce the reference chunks. */
module Ingest {
  import opened Records
  import opened Strings

  /** `settings.CHUNK_SIZE`, in tokens. */
  const ChunkSize: nat := 300
  /** `settings.CHUNK_OVERLAP` = 0.2, as the exact fraction 1/5. */
  const OverlapNum: nat := 1
  const OverlapDen: nat := 5
  /** `settings.MAX_CHUNKS_PER_DOC`. */
  const MaxChunks: nat := 100
  /** Texts longer than this are cut to their first this-many characters. */
  const MaxTextChars: nat := 100000

  /** `int(chunk_size * CHUNK_OVERLAP)`, clamped to `chunk_size // 2` when it
      would reach `chunk_size`. */
  function Overlap(cs: nat, num: nat, den: nat): (ov: nat)
    requires den > 0
    ensures cs > 0 ==> ov < cs
    ensures cs * num / den < cs ==> ov == cs * num / den
    ensures cs * num / den >= cs ==> ov == cs / 2
  {
    var ov := cs * num / den;
    if ov >= cs then cs / 2 else ov
  }

  lemma OverlapSetting()
    ensures Overlap(ChunkSize, OverlapNum, OverlapDen) == 60
  {
  }

  /** The token range `tokens[start:end]` of one iteration. */
  datatype Window = Window(start: nat, end: nat)

  /** `end = min(start + chunk_size, len(tokens))`. */
  function WindowEnd(start: nat, n: nat, cs: nat): nat {
    Min(start + cs, n)
  }

  /** The next `start`: `end - overlap`, or, when that would not advance,
      `start + max(1, chunk_size - overlap)`. */
  function Advance(start: nat, end: nat, cs: nat, ov: nat): (next: nat)
    ensures next > start
  {
    var next := end - ov;
    if next <= start then start + Max(1, cs - ov) else next
  }

  /** The windows the loop visits from `start` on (ignoring the chunk cap). */
  function WindowsFrom(start: nat, n: nat, cs: nat, ov: nat): (ws: seq<Window>)
    ensures forall j :: 0 <= j < |ws| ==>
              start <= ws[j].start < n && ws[j].end == Min(ws[j].start + cs, n)
    ensures forall i, j :: 0 <= i < j < |ws| ==> ws[i].start < ws[j].start
    ensures start < n <==> |ws| > 0
    ensures |ws| > 0 ==> ws[0].start == start
    decreases n - start
  {
    if start >= n then []
    else
      var end := WindowEnd(start, n, cs);
      [Window(start, end)] + WindowsFrom(Advance(start, end, cs, ov), n, cs, ov)
  }

  function Windows(n: nat, cs: nat, ov: nat): seq<Window> {
    WindowsFrom(0, n, cs, ov)
  }

  /** Every window lies inside the tokens, is non-empty and holds at most
      `chunk_size` tokens; the first starts at 0 and the last ends at `n`. */
  lemma WindowsCover(start: nat, n: nat, cs: nat, ov: nat)
    requires cs > 0
    ensures var ws := WindowsFrom(start, n, cs, ov);
            && (forall j :: 0 <= j < |ws| ==> ws[j].start < ws[j].end <= n && ws[j].end - ws[j].start <= cs)
            && (|ws| > 0 ==> ws[|ws| - 1].end == n)
  {
    WindowsLastEnd(start, n, cs, ov);
  }

  /** The last window ends at the last token: the loop never stops early. */
  lemma {:induction false} WindowsLastEnd(start: nat, n: nat, cs: nat, ov: nat)
    requires cs > 0
    ensures var ws := WindowsFrom(start, n, cs, ov);
            |ws| > 0 ==> ws[|ws| - 1].end == n
    decreases n - start
  {
    if start < n {
      var end := WindowEnd(start, n, cs);
      var next := Advance(start, end, cs, ov);
      WindowsLastEnd(next, n, cs, ov);
      var ws := WindowsFrom(start, n, cs, ov);
      var rest := WindowsFrom(next, n, cs, ov);
      assert ws == [Window(start, end)] + rest;
      if |rest| == 0 {
        assert next >= n;
        assert end == n;
      } else {
        assert ws[|ws| - 1] == rest[|rest| - 1];
      }
    }
  }

  /** With an overlap of at most half the window, the j-th window starts
      `overlap` tokens before the previous one ends. */
  lemma {:induction false} OverlapAt(start: nat, n: nat, cs: nat, ov: nat, j: nat)
    requires cs > 0 && 2 * ov <= cs
    requires 1 <= j < |WindowsFrom(start, n, cs, ov)|
    ensures WindowsFrom(start, n, cs, ov)[j].start == WindowsFrom(start, n, cs, ov)[j - 1].end - ov
    decreases n - start
  {
    var end := WindowEnd(start, n, cs);
    var next := Advance(start, end, cs, ov);
    var ws := WindowsFrom(start, n, cs, ov);
    var rest := WindowsFrom(next, n, cs, ov);
    assert ws == [Window(start, end)] + rest;
    if j == 1 {
      assert rest[0].start == next;
      assert next == end - ov;
    } else {
      OverlapAt(next, n, cs, ov, j - 1);
      assert ws[j] == rest[j - 1] && ws[j - 1] == rest[j - 2];
    }
  }

  /** Consecutive windows share exactly `overlap` tokens. */
  lemma WindowsOverlap(n: nat, cs: nat, ov: nat)
    requires cs > 0 && 2 * ov <= cs
    ensures var ws := Windows(n, cs, ov);
            forall j :: 1 <= j < |ws| ==> ws[j].start == ws[j - 1].end - ov
  {
    forall j | 1 <= j < |Windows(n, cs, ov)|
      ensures Windows(n, cs, ov)[j].start == Windows(n, cs, ov)[j - 1].end - ov
    {
      OverlapAt(0, n, cs, ov, j);
    }
  }

  /** A text of at most `overlap` tokens gives a single window. */
  lemma WindowsShort(n: nat, cs: nat, ov: nat)
    requires 0 < n <= ov && 2 * ov <= cs
    ensures Windows(n, cs, ov) == [Window(0, n)]
  {
    assert WindowsFrom(Advance(0, n, cs, ov), n, cs, ov) == [];
  }

  /** A text longer than the overlap but within one window gives two windows:
      all of it, then its last `overlap` tokens again. */
  lemma WindowsTwiceOverShortText(n: nat, cs: nat, ov: nat)
    requires 0 < ov < n <= cs && 2 * ov <= cs
    ensures Windows(n, cs, ov) == [Window(0, n), Window(n - ov, n)]
  {
    var s1: nat := n - ov;
    assert Advance(0, WindowEnd(0, n, cs), cs, ov) == s1;
    assert WindowEnd(s1, n, cs) == n;
    var s2 := Advance(s1, n, cs, ov);
    assert s2 >= n;
    assert WindowsFrom(s2, n, cs, ov) == [];
    assert WindowsFrom(s1, n, cs, ov) == [Window(s1, n)] + WindowsFrom(s2, n, cs, ov);
  }

  // ---------------------------------------------------------------------------
  // Texts, blank windows, numbering

  predicate InTokens(ws: seq<Window>, n: nat) {
    forall j :: 0 <= j < |ws| ==> ws[j].start <= ws[j].end <= n
  }

  /** The decoded text of each window. */
  function Texts(tokens: seq<int>, ws: seq<Window>, decode: seq<int> -> string): (ts: seq<string>)
    requires InTokens(ws, |tokens|)
    ensures |ts| == |ws|
    ensures forall j :: 0 <= j < |ws| ==> ts[j] == decode(tokens[ws[j].start..ws[j].end])
  {
    seq(|ws|, j requires 0 <= j < |ws| => decode(tokens[ws[j].start..ws[j].end]))
  }

  /** The texts `if chunk_text.strip()` keeps, in order. */
  function NonBlank(ts: seq<string>): (r: seq<string>)
    ensures |r| <= |ts|
    ensures forall j :: 0 <= j < |r| ==> Strip(r[j]) != [] && r[j] in ts
    ensures (forall j :: 0 <= j < |ts| ==> AllSpace(ts[j])) <==> r == []
  {
    if |ts| == 0 then []
    else
      var p := NonBlank(ts[..|ts| - 1]);
      var t := ts[|ts| - 1];
      assert forall j :: 0 <= j < |ts| - 1 ==> ts[..|ts| - 1][j] == ts[j];
      assert forall x :: x in ts[..|ts| - 1] ==> x in ts;
      if Strip(t) != [] then p + [t] else p
  }

  lemma {:induction false} NonBlankConcat(a: seq<string>, b: seq<string>)
    ensures NonBlank(a + b) == NonBlank(a) + NonBlank(b)
    decreases |b|
  {
    if |b| > 0 {
      var b' := b[..|b| - 1];
      assert (a + b)[..|a + b| - 1] == a + b';
      assert b[..|b| - 1] == b';
      NonBlankConcat(a, b');
    } else {
      assert a + b == a;
    }
  }

  /** `f"{filename}_{chunk_idx}_{digest}"`. */
  function ChunkId(filename: string, idx: nat, dig: string): string {
    filename + "_" + Decimal(idx) + "_" + dig
  }

  /** The chunk built from the `idx`-th kept text. */
  function MakeChunk(t: string, idx: nat, filename: string, driveUrl: string, digest: string -> string): Chunk {
    Chunk(Strip(t), filename, driveUrl, ChunkId(filename, idx, digest(t)))
  }

  /** The kept texts, numbered from 0 on. */
  function Number(kept: seq<string>, filename: string, driveUrl: string, digest: string -> string): (cs: seq<Chunk>)
    ensures |cs| == |kept|
    ensures forall i :: 0 <= i < |kept| ==> cs[i] == MakeChunk(kept[i], i, filename, driveUrl, digest)
  {
    seq(|kept|, i requires 0 <= i < |kept| => MakeChunk(kept[i], i, filename, driveUrl, digest))
  }

  function Take<T>(s: seq<T>, n: nat): (r: seq<T>)
    ensures |r| == Min(n, |s|)
    ensures r == s[..|r|]
  {
    s[..Min(n, |s|)]
  }

  /** The text that is tokenised: at most the first 100000 characters. */
  function Truncated(text: string): (t: string)
    ensures |t| == Min(|text|, MaxTextChars)
    ensures t == text[..|t|]
  {
    if |text| > MaxTextChars then text[..MaxTextChars] else text
  }

  /** The chunks cut from a token sequence: every window's decoded text that
      is not blank, numbered, up to the cap. */
  function WindowChunks(tokens: seq<int>, filename: string, driveUrl: string,
                        decode: seq<int> -> string, digest: string -> string): seq<Chunk>
  {
    var ov := Overlap(ChunkSize, OverlapNum, OverlapDen);
    WindowsCover(0, |tokens|, ChunkSize, ov);
    Number(Take(NonBlank(Texts(tokens, Windows(|tokens|, ChunkSize, ov), decode)), MaxChunks),
           filename, driveUrl, digest)
  }

  /** The reference result of `_chunk_text`. */
  function ChunkTextSpec(text: string, filename: string, driveUrl: string,
                         encode: string -> Option<seq<int>>, decode: seq<int> -> string,
                         digest: string -> string): seq<Chunk>
  {
    if Strip(text) == [] then []
    else
      match encode(Truncated(text))
      case None => []
      case Some(tokens) => WindowChunks(tokens, filename, driveUrl, decode, digest)
  }

  /** `_chunk_text(text, filename, drive_url)`: the blank check, the
      truncation, tokenising, then the window loop. */
  method ChunkText(text: string, filename: string, driveUrl: string,
                   encode: string -> Option<seq<int>>, decode: seq<int> -> string,
                   digest: string -> string)
    returns (chunks: seq<Chunk>)
    ensures chunks == ChunkTextSpec(text, filename, driveUrl, encode, decode, digest)
    ensures |chunks| <= MaxChunks
    ensures Strip(text) == [] ==> chunks == []
    ensures forall i :: 0 <= i < |chunks| ==>
              && chunks[i].filename == filename && chunks[i].driveUrl == driveUrl
              && chunks[i].content != [] && Strip(chunks[i].content) == chunks[i].content
              && StartsWith(chunks[i].chunkId, filename + "_" + Decimal(i) + "_")
  {
    if Strip(text) == [] {
      return [];
    }
    var enc := encode(Truncated(text));
    if enc.None? {
      return [];
    }
    chunks := ChunkTokens(enc.value, filename, driveUrl, decode, digest);
    ChunkTextShape(text, filename, driveUrl, encode, decode, digest);
    forall i | 0 <= i < |chunks|
      ensures StartsWith(chunks[i].chunkId, filename + "_" + Decimal(i) + "_")
    {
      var t :| chunks[i].content == Strip(t) && chunks[i].chunkId == ChunkId(filename, i, digest(t));
      assert chunks[i].chunkId == (filename + "_" + Decimal(i) + "_") + digest(t);
    }
  }

  /** The window loop of `_chunk_text` over the tokens. */
  method ChunkTokens(tokens: seq<int>, filename: string, driveUrl: string,
                     decode: seq<int> -> string, digest: string -> string)
    returns (chunks: seq<Chunk>)
    ensures chunks == WindowChunks(tokens, filename, driveUrl, decode, digest)
  {
    var n := |tokens|;
    var cs := ChunkSize;
    var ov := Overlap(cs, OverlapNum, OverlapDen);
    ghost var ws := Windows(n, cs, ov);
    ghost var m: nat := 0;
    var start: nat := 0;
    var idx: nat := 0;
    chunks := [];
    LoopEntry(tokens, cs, ov, filename, driveUrl, decode, digest);
    while start < n && idx < MaxChunks
      invariant LoopState(tokens, ws, m, start, cs, ov, chunks, filename, driveUrl, decode, digest)
      invariant idx == |chunks| <= MaxChunks
      decreases n - start
    {
      var end: nat := Min(start + cs, n);
      var piece := decode(tokens[start..end]);
      LoopStep(tokens, ws, m, start, cs, ov, chunks, filename, driveUrl, decode, digest);
      chunks := Visit(chunks, piece, filename, driveUrl, digest);
      idx := |chunks|;
      start := Advance(start, end, cs, ov);
      m := m + 1;
    }
    LoopExit(tokens, ws, m, start, chunks, filename, driveUrl, decode, digest);
  }

  /** The loop invariant: the windows from the m-th on are those still to
      visit from `start`, and `chunks` holds the chunks of the first m. */
  predicate LoopState(tokens: seq<int>, ws: seq<Window>, m: nat, start: nat, cs: nat, ov: nat, chunks: seq<Chunk>,
                      filename: string, driveUrl: string, decode: seq<int> -> string, digest: string -> string)
  {
    && Remaining(ws, m, start, |tokens|, cs, ov)
    && Visited(tokens, ws, m, chunks, filename, driveUrl, decode, digest)
  }

  lemma LoopEntry(tokens: seq<int>, cs: nat, ov: nat, filename: string, driveUrl: string,
                  decode: seq<int> -> string, digest: string -> string)
    ensures LoopState(tokens, Windows(|tokens|, cs, ov), 0, 0, cs, ov, [], filename, driveUrl, decode, digest)
  {
    var ws := Windows(|tokens|, cs, ov);
    assert ws[0..] == ws;
    assert ws[..0] == [];
  }

  /** The body of the loop for one decoded window: a text that is not blank
      becomes the next chunk, numbered by the chunks emitted so far
      (`chunk_idx`); a blank one is skipped. */
  function Visit(chunks: seq<Chunk>, piece: string, filename: string, driveUrl: string,
                 digest: string -> string): seq<Chunk>
  {
    if Strip(piece) != [] then chunks + [MakeChunk(piece, |chunks|, filename, driveUrl, digest)] else chunks
  }

  /** One iteration: the window at `start` is the m-th, and visiting it keeps
      both invariants. */
  lemma LoopStep(tokens: seq<int>, ws: seq<Window>, m: nat, start: nat, cs: nat, ov: nat, chunks: seq<Chunk>,
                 filename: string, driveUrl: string, decode: seq<int> -> string, digest: string -> string)
    requires LoopState(tokens, ws, m, start, cs, ov, chunks, filename, driveUrl, decode, digest) && start < |tokens|
    ensures var end := Min(start + cs, |tokens|);
            LoopState(tokens, ws, m + 1, Advance(start, end, cs, ov), cs, ov,
                      Visit(chunks, decode(tokens[start..end]), filename, driveUrl, digest),
                      filename, driveUrl, decode, digest)
  {
    WindowsStep(ws, m, start, |tokens|, cs, ov);
    VisitStep(tokens, ws, m, chunks, filename, driveUrl, decode, digest);
  }

  /** When the loop stops, the chunks it holds are the reference chunks. */
  lemma LoopExit(tokens: seq<int>, ws: seq<Window>, m: nat, start: nat, chunks: seq<Chunk>,
                 filename: string, driveUrl: string, decode: seq<int> -> string, digest: string -> string)
    requires ws == Windows(|tokens|, ChunkSize, Overlap(ChunkSize, OverlapNum, OverlapDen))
    requires LoopState(tokens, ws, m, start, ChunkSize, Overlap(ChunkSize, OverlapNum, OverlapDen), chunks,
                       filename, driveUrl, decode, digest)
    requires |chunks| <= MaxChunks && (start >= |tokens| || |chunks| >= MaxChunks)
    ensures chunks == WindowChunks(tokens, filename, driveUrl, decode, digest)
  {
    if start >= |tokens| {
      WindowsDone(ws, m, start, |tokens|, ChunkSize, Overlap(ChunkSize, OverlapNum, OverlapDen));
    }
    ExitTexts(tokens, ws, m, decode);
  }

  /** The windows from the m-th on are the ones the loop visits from `start`. */
  predicate Remaining(ws: seq<Window>, m: nat, start: nat, n: nat, cs: nat, ov: nat) {
    m <= |ws| && ws[m..] == WindowsFrom(start, n, cs, ov)
  }

  /** The window at `start` and the windows after it. */
  lemma WindowsStep(ws: seq<Window>, m: nat, start: nat, n: nat, cs: nat, ov: nat)
    requires Remaining(ws, m, start, n, cs, ov) && start < n
    ensures m < |ws| && ws[m] == Window(start, WindowEnd(start, n, cs))
    ensures Remaining(ws, m + 1, Advance(start, WindowEnd(start, n, cs), cs, ov), n, cs, ov)
  {
    assert ws[m + 1..] == ws[m..][1..];
  }

  /** Once the loop runs out of windows it has visited all of them. */
  lemma WindowsDone(ws: seq<Window>, m: nat, start: nat, n: nat, cs: nat, ov: nat)
    requires Remaining(ws, m, start, n, cs, ov) && start >= n
    ensures m == |ws|
  {
  }

  /** The loop has visited the first `m` windows and holds their chunks. */
  predicate Visited(tokens: seq<int>, ws: seq<Window>, m: nat, chunks: seq<Chunk>, filename: string,
                    driveUrl: string, decode: seq<int> -> string, digest: string -> string)
  {
    && InTokens(ws, |tokens|) && m <= |ws|
    && chunks == Number(NonBlank(Texts(tokens, ws[..m], decode)), filename, driveUrl, digest)
  }

  /** Visiting window m appends its chunk when its text is not blank. */
  lemma VisitStep(tokens: seq<int>, ws: seq<Window>, m: nat, chunks: seq<Chunk>, filename: string,
                  driveUrl: string, decode: seq<int> -> string, digest: string -> string)
    requires Visited(tokens, ws, m, chunks, filename, driveUrl, decode, digest) && m < |ws|
    ensures Visited(tokens, ws, m + 1, Visit(chunks, decode(tokens[ws[m].start..ws[m].end]), filename, driveUrl, digest),
                    filename, driveUrl, decode, digest)
  {
    var kept := NonBlank(Texts(tokens, ws[..m], decode));
    StepTexts(tokens, ws, m, decode);
    NumberAppend(kept, decode(tokens[ws[m].start..ws[m].end]), filename, driveUrl, digest);
  }

  /** One more window adds its text, if not blank, to the kept texts. */
  lemma StepTexts(tokens: seq<int>, ws: seq<Window>, m: nat, decode: seq<int> -> string)
    requires InTokens(ws, |tokens|) && m < |ws|
    ensures var piece := decode(tokens[ws[m].start..ws[m].end]);
            var kept := NonBlank(Texts(tokens, ws[..m], decode));
            NonBlank(Texts(tokens, ws[..m + 1], decode)) == if Strip(piece) != [] then kept + [piece] else kept
  {
    var piece := decode(tokens[ws[m].start..ws[m].end]);
    assert ws[..m + 1] == ws[..m] + [ws[m]];
    assert Texts(tokens, ws[..m + 1], decode) == Texts(tokens, ws[..m], decode) + [piece];
    NonBlankConcat(Texts(tokens, ws[..m], decode), [piece]);
    assert NonBlank([piece]) == if Strip(piece) != [] then [piece] else [] by {
      assert [piece][..0] == [];
    }
  }

  lemma NumberAppend(kept: seq<string>, t: string, filename: string, driveUrl: string, digest: string -> string)
    ensures Number(kept + [t], filename, driveUrl, digest)
         == Number(kept, filename, driveUrl, digest) + [MakeChunk(t, |kept|, filename, driveUrl, digest)]
  {
    var l := Number(kept + [t], filename, driveUrl, digest);
    var r := Number(kept, filename, driveUrl, digest) + [MakeChunk(t, |kept|, filename, driveUrl, digest)];
    assert forall i :: 0 <= i < |l| ==> l[i] == r[i];
  }

  /** When the loop stops, either every window was visited, or the cap was
      reached and the remaining windows cannot contribute. */
  lemma ExitTexts(tokens: seq<int>, ws: seq<Window>, m: nat, decode: seq<int> -> string)
    requires InTokens(ws, |tokens|) && m <= |ws|
    requires m == |ws| || |NonBlank(Texts(tokens, ws[..m], decode))| == MaxChunks
    requires |NonBlank(Texts(tokens, ws[..m], decode))| <= MaxChunks
    ensures Take(NonBlank(Texts(tokens, ws, decode)), MaxChunks) == NonBlank(Texts(tokens, ws[..m], decode))
  {
    InTokensSlices(ws, m, |tokens|);
    var a := Texts(tokens, ws[..m], decode);
    var b := Texts(tokens, ws[m..], decode);
    TextsSplit(tokens, ws, m, decode);
    NonBlankConcat(a, b);
    if m == |ws| {
      assert b == [];
    }
    TakeConcat(NonBlank(a), NonBlank(b), MaxChunks);
  }

  lemma InTokensSlices(ws: seq<Window>, m: nat, n: nat)
    requires InTokens(ws, n) && m <= |ws|
    ensures InTokens(ws[..m], n) && InTokens(ws[m..], n)
  {
    assert forall j :: 0 <= j < m ==> ws[..m][j] == ws[j];
    assert forall j :: 0 <= j < |ws| - m ==> ws[m..][j] == ws[m + j];
  }

  /** Taking as many as the front part holds, when the front part fills the
      cap or nothing follows, gives the front part. */
  lemma TakeConcat<T>(a: seq<T>, b: seq<T>, cap: nat)
    requires |a| <= cap && (b == [] || |a| == cap)
    ensures Take(a + b, cap) == a
  {
    assert (a + b)[..|a|] == a;
  }

  lemma TextsSplit(tokens: seq<int>, ws: seq<Window>, m: nat, decode: seq<int> -> string)
    requires InTokens(ws, |tokens|) && m <= |ws|
    requires InTokens(ws[..m], |tokens|) && InTokens(ws[m..], |tokens|)
    ensures Texts(tokens, ws, decode) == Texts(tokens, ws[..m], decode) + Texts(tokens, ws[m..], decode)
  {
  }

  // ---------------------------------------------------------------------------
  // Properties of the chunks

  /** Every chunk carries the document's name and URL, a non-empty stripped
      content, and the id `filename_idx_digest` with idx counting 0, 1, 2, ... */
  lemma ChunkTextShape(text: string, filename: string, driveUrl: string,
                       encode: string -> Option<seq<int>>, decode: seq<int> -> string,
                       digest: string -> string)
    ensures var cs := ChunkTextSpec(text, filename, driveUrl, encode, decode, digest);
            && |cs| <= MaxChunks
            && forall i :: 0 <= i < |cs| ==>
                 && cs[i].filename == filename && cs[i].driveUrl == driveUrl
                 && cs[i].content != [] && Strip(cs[i].content) == cs[i].content
                 && exists t :: cs[i].content == Strip(t) && cs[i].chunkId == ChunkId(filename, i, digest(t))
  {
    var cs := ChunkTextSpec(text, filename, driveUrl, encode, decode, digest);
    if Strip(text) != [] && encode(Truncated(text)).Some? {
      var tokens := encode(Truncated(text)).value;
      var ov := Overlap(ChunkSize, OverlapNum, OverlapDen);
      WindowsCover(0, |tokens|, ChunkSize, ov);
      var kept := Take(NonBlank(Texts(tokens, Windows(|tokens|, ChunkSize, ov), decode)), MaxChunks);
      forall i | 0 <= i < |cs|
        ensures Strip(cs[i].content) == cs[i].content && cs[i].content != []
      {
        StripIdempotent(kept[i]);
      }
    }
  }

  /** Each chunk was cut from one of the token windows: its content is that
      window's decoded text, stripped, and its id digests the same text unstripped. */
  lemma ChunkTextWindows(text: string, filename: string, driveUrl: string,
                         encode: string -> Option<seq<int>>, decode: seq<int> -> string,
                         digest: string -> string, i: nat)
    requires Strip(text) != [] && encode(Truncated(text)).Some?
    requires i < |ChunkTextSpec(text, filename, driveUrl, encode, decode, digest)|
    ensures var tokens := encode(Truncated(text)).value;
            var ws := Windows(|tokens|, ChunkSize, Overlap(ChunkSize, OverlapNum, OverlapDen));
            exists j :: 0 <= j < |ws|
                        && WindowDecodes(tokens, ws, j, ChunkTextSpec(text, filename, driveUrl, encode, decode, digest)[i],
                                         i, filename, digest, decode)
  {
    var tokens := encode(Truncated(text)).value;
    assert ChunkTextSpec(text, filename, driveUrl, encode, decode, digest)
        == WindowChunks(tokens, filename, driveUrl, decode, digest);
    WindowChunkSource(tokens, filename, driveUrl, decode, digest, i);
  }

  /** Chunk `c`, numbered `i`, was cut from window `j`: its content is that
      window's stripped decoded text, and its id digests the unstripped text. */
  predicate WindowDecodes(tokens: seq<int>, ws: seq<Window>, j: nat, c: Chunk, i: nat, filename: string,
                          digest: string -> string, decode: seq<int> -> string)
    requires j < |ws|
  {
    && ws[j].start <= ws[j].end <= |tokens|
    && var t := decode(tokens[ws[j].start..ws[j].end]);
       c.content == Strip(t) && c.chunkId == ChunkId(filename, i, digest(t))
  }

  /** Each chunk of the window loop comes from one of the windows. */
  lemma WindowChunkSource(tokens: seq<int>, filename: string, driveUrl: string,
                          decode: seq<int> -> string, digest: string -> string, i: nat)
    requires i < |WindowChunks(tokens, filename, driveUrl, decode, digest)|
    ensures var ws := Windows(|tokens|, ChunkSize, Overlap(ChunkSize, OverlapNum, OverlapDen));
            exists j :: 0 <= j < |ws|
                        && WindowDecodes(tokens, ws, j, WindowChunks(tokens, filename, driveUrl, decode, digest)[i],
                                         i, filename, digest, decode)
  {
    var ov := Overlap(ChunkSize, OverlapNum, OverlapDen);
    var ws := Windows(|tokens|, ChunkSize, ov);
    WindowsCover(0, |tokens|, ChunkSize, ov);
    var ts := Texts(tokens, ws, decode);
    var kept := Take(NonBlank(ts), MaxChunks);
    assert kept[i] == NonBlank(ts)[i];
    assert kept[i] in ts;
    var j :| 0 <= j < |ts| && ts[j] == kept[i];
    assert WindowDecodes(tokens, ws, j, WindowChunks(tokens, filename, driveUrl, decode, digest)[i],
                         i, filename, digest, decode);
  }

  /** No two chunks of one document share an id. */
  lemma ChunkIdsDistinct(filename: string, i: nat, j: nat, x: string, y: string)
    requires ChunkId(filename, i, x) == ChunkId(filename, j, y)
    ensures i == j
  {
    var p := filename + "_";
    var a := ChunkId(filename, i, x);
    assert a == p + (Decimal(i) + ['_'] + x);
    assert ChunkId(filename, j, y) == p + (Decimal(j) + ['_'] + y);
    assert a[|p|..] == Decimal(i) + ['_'] + x;
    assert a[|p|..] == Decimal(j) + ['_'] + y;
    DecimalThenSeparator(i, j, '_', x, y);
  }

  /** Text that is empty or all whitespace gives no chunks; so does a failing tokenizer. */
  lemma ChunkTextNothing(text: string, filename: string, driveUrl: string,
                         encode: string -> Option<seq<int>>, decode: seq<int> -> string,
                         digest: string -> string)
    ensures AllSpace(text) ==> ChunkTextSpec(text, filename, driveUrl, encode, decode, digest) == []
    ensures encode(Truncated(text)).None? ==> ChunkTextSpec(text, filename, driveUrl, encode, decode, digest) == []
  {
  }

  /** Only the first 100000 characters of a long text matter. */
  lemma ChunkTextTruncates(text: string, filename: string, driveUrl: string,
                           encode: string -> Option<seq<int>>, decode: seq<int> -> string,
                           digest: string -> string)
    requires |text| > MaxTextChars && Strip(text[..MaxTextChars]) != []
    ensures ChunkTextSpec(text, filename, driveUrl, encode, decode, digest)
         == ChunkTextSpec(text[..MaxTextChars], filename, driveUrl, encode, decode, digest)
  {
    var p := text[..MaxTextChars];
    assert Strip(text) != [] by {
      assert !AllSpace(p);
      var i :| 0 <= i < |p| && !IsSpace(p[i]);
      assert text[i] == p[i];
    }
    assert Truncated(p) == p;
  }

  /** A short text whose tokens decode back to it, within the overlap size,
      becomes exactly one chunk with id `filename_0_digest`. */
  lemma ChunkTextShort(text: string, filename: string, driveUrl: string,
                       encode: string -> Option<seq<int>>, decode: seq<int> -> string,
                       digest: string -> string)
    requires |text| <= MaxTextChars && Strip(text) != []
    requires encode(text).Some? && 0 < |encode(text).value| <= 60
    requires decode(encode(text).value) == text
    ensures ChunkTextSpec(text, filename, driveUrl, encode, decode, digest)
         == [Chunk(Strip(text), filename, driveUrl, filename + "_0_" + digest(text))]
  {
    var tokens := encode(text).value;
    assert Truncated(text) == text;
    OneWindowChunk(tokens, filename, driveUrl, decode, digest, text);
    FirstChunkId(filename, digest(text));
  }

  lemma FirstChunkId(filename: string, dig: string)
    ensures ChunkId(filename, 0, dig) == filename + "_0_" + dig
  {
    assert Decimal(0) == "0";
  }

  /** Tokens that fit in the overlap form one chunk. */
  lemma OneWindowChunk(tokens: seq<int>, filename: string, driveUrl: string,
                       decode: seq<int> -> string, digest: string -> string, text: string)
    requires 0 < |tokens| <= 60 && decode(tokens) == text && Strip(text) != []
    ensures WindowChunks(tokens, filename, driveUrl, decode, digest) == [MakeChunk(text, 0, filename, driveUrl, digest)]
  {
    OverlapSetting();
    WindowsShort(|tokens|, ChunkSize, 60);
    SingleText(tokens, decode, text);
    assert Take([text], MaxChunks) == [text];
  }

  lemma SingleText(tokens: seq<int>, decode: seq<int> -> string, text: string)
    requires decode(tokens) == text && Strip(text) != []
    ensures NonBlank(Texts(tokens, [Window(0, |tokens|)], decode)) == [text]
  {
    assert tokens[0..|tokens|] == tokens;
    var ts := Texts(tokens, [Window(0, |tokens|)], decode);
    assert ts == [text];
    assert ts[..0] == [];
  }

  /** A text of 61 to 300 tokens is covered twice: the whole window, then a
      second window holding its last 60 tokens. */
  lemma ChunkTextRepeatsTail(n: nat)
    requires 60 < n <= ChunkSize
    ensures Windows(n, ChunkSize, Overlap(ChunkSize, OverlapNum, OverlapDen)) == [Window(0, n), Window(n - 60, n)]
  {
    OverlapSetting();
    WindowsTwiceOverShortText(n, ChunkSize, 60);
  }
}
