/** Reciprocal Rank Fusion as `_reciprocal_rank_fusion` in app/retrieval.py
    does it: three loops (ELSER, then BM25, then dense) add 1/(k+i+1) for the
    0-based position i to a per-`chunk_id` score and overwrite that id's payload,
    then the ids are sorted by score, descending and stably, over their
    first-encounter order.

    The three loops are modelled as a fold over a `Tally` (the insertion order
    of `doc_scores`, `doc_scores` itself and `doc_info`); the sort as a stable
    insertion sort. Both are related to reference definitions: `ListScore`
    (the sum over positions), `LastIndex` (the payload), and `FirstSeen` /
    `FirstIndex` (first-encounter order). */
module Fusion {
  import opened Records
  import opened Strings

  /** The chunk ids of a ranked list, in list order. */
  function Ids(l: seq<Hit>): (ids: seq<string>)
    ensures |ids| == |l|
    ensures forall j :: 0 <= j < |l| ==> ids[j] == ChunkIdOf(l[j])
  {
    seq(|l|, j requires 0 <= j < |l| => ChunkIdOf(l[j]))
  }

  /** Every id of the three lists, in the order the three loops visit them. */
  function AllIds(e: seq<Hit>, b: seq<Hit>, d: seq<Hit>): seq<string> {
    Ids(e) + Ids(b) + Ids(d)
  }

  function FusedId(f: Fused): string {
    ChunkIdOf(f.hit)
  }

  function FusedIds(out: seq<Fused>): (ids: seq<string>)
    ensures |ids| == |out|
    ensures forall j :: 0 <= j < |out| ==> ids[j] == FusedId(out[j])
  {
    seq(|out|, j requires 0 <= j < |out| => FusedId(out[j]))
  }

  /** What the hit at 0-based position i adds: 1/(k + i + 1). */
  function Contribution(k: nat, i: nat): (c: real)
    ensures c > 0.0
  {
    1.0 / ((k + i + 1) as real)
  }

  // ---------------------------------------------------------------------------
  // Reference definitions

  /** The sum of 1/(k+i+1) over the positions i >= from of `l` that hold `id`. */
  function ListScoreFrom(l: seq<Hit>, id: string, k: nat, from: nat): real
    decreases |l| - from
  {
    if from >= |l| then 0.0
    else (if ChunkIdOf(l[from]) == id then Contribution(k, from) else 0.0) + ListScoreFrom(l, id, k, from + 1)
  }

  /** The RRF score one list gives `id`: the sum over every position holding it. */
  function ListScore(l: seq<Hit>, id: string, k: nat): real {
    ListScoreFrom(l, id, k, 0)
  }

  /** The RRF score of `id` over the three lists. */
  function RrfScore(e: seq<Hit>, b: seq<Hit>, d: seq<Hit>, id: string, k: nat): real {
    ListScore(e, id, k) + ListScore(b, id, k) + ListScore(d, id, k)
  }

  /** The position of the last hit of `l` that carries `id`. */
  function LastIndex(l: seq<Hit>, id: string): (j: nat)
    requires id in Ids(l)
    ensures j < |l| && ChunkIdOf(l[j]) == id
    ensures forall m :: j < m < |l| ==> ChunkIdOf(l[m]) != id
  {
    if ChunkIdOf(l[|l| - 1]) == id then |l| - 1
    else
      assert Ids(l) == Ids(l[..|l| - 1]) + [ChunkIdOf(l[|l| - 1])];
      LastIndex(l[..|l| - 1], id)
  }

  predicate InAny(e: seq<Hit>, b: seq<Hit>, d: seq<Hit>, id: string) {
    id in Ids(e) || id in Ids(b) || id in Ids(d)
  }

  /** The hit whose fields a fused result carries: the last occurrence in the
      last list (in the order ELSER, BM25, dense) that contains the id. */
  function Payload(e: seq<Hit>, b: seq<Hit>, d: seq<Hit>, id: string): Hit
    requires InAny(e, b, d, id)
  {
    if id in Ids(d) then d[LastIndex(d, id)]
    else if id in Ids(b) then b[LastIndex(b, id)]
    else e[LastIndex(e, id)]
  }

  /** The distinct elements of `s`, each at the place it first occurs. */
  function FirstSeen(s: seq<string>): (r: seq<string>)
    ensures Distinct(r)
    ensures SetOf(r) == SetOf(s)
  {
    if |s| == 0 then []
    else
      var s', x := s[..|s| - 1], s[|s| - 1];
      var p := FirstSeen(s');
      assert s == s' + [x];
      SetOfAppend(s', x);
      SetOfAppend(p, x);
      assert x in p <==> x in SetOf(p);
      if x in p then p else p + [x]
  }

  /** The first position of `x` in `s`, or |s| if it does not occur. */
  function FirstIndex(s: seq<string>, x: string): (i: nat)
    ensures i <= |s|
    ensures i < |s| <==> x in s
    ensures i < |s| ==> s[i] == x
    ensures forall m :: 0 <= m < i ==> s[m] != x
  {
    if |s| == 0 then 0 else if s[0] == x then 0 else 1 + FirstIndex(s[1..], x)
  }

  lemma FirstIndexExtend(s: seq<string>, x: string, y: string)
    requires y in s
    ensures FirstIndex(s + [x], y) == FirstIndex(s, y)
  {
    var i1, i2 := FirstIndex(s + [x], y), FirstIndex(s, y);
    assert (s + [x])[i2] == y;
    assert i1 < |s| ==> (s + [x])[i1] == s[i1];
  }

  /** `FirstSeen(s)` lists ids in the order of their first occurrence in `s`. */
  lemma {:induction false} FirstSeenOrdered(s: seq<string>)
    ensures forall p, q :: 0 <= p < q < |FirstSeen(s)| ==>
              FirstIndex(s, FirstSeen(s)[p]) < FirstIndex(s, FirstSeen(s)[q])
  {
    if |s| > 0 {
      var s', x := s[..|s| - 1], s[|s| - 1];
      assert s == s' + [x];
      FirstSeenOrdered(s');
      var f' := FirstSeen(s');
      forall y | y in f' ensures FirstIndex(s, y) == FirstIndex(s', y) < |s'| {
        assert y in SetOf(f');
        FirstIndexExtend(s', x, y);
      }
      if x !in f' {
        assert x !in SetOf(s');
        assert FirstIndex(s, x) == |s'|;
      }
    }
  }

  // ---------------------------------------------------------------------------
  // The three accumulation loops

  /** The fusion loops' state: insertion order of `doc_scores`, `doc_scores`, and `doc_info`. */
  datatype Tally = Tally(order: seq<string>, scores: map<string, real>, info: map<string, Hit>)

  /** One loop iteration: `doc_scores[id] += c` (a missing id starts at 0.0 and
      joins the insertion order) and `doc_info[id] = h`. */
  function Absorb(t: Tally, h: Hit, c: real): Tally {
    var id := ChunkIdOf(h);
    if id in t.scores then Tally(t.order, t.scores[id := t.scores[id] + c], t.info[id := h])
    else Tally(t.order + [id], t.scores[id := 0.0 + c], t.info[id := h])
  }

  /** One `for i, doc in enumerate(l)` loop, from position i on. */
  function AbsorbFrom(t: Tally, l: seq<Hit>, k: nat, i: nat): Tally
    decreases |l| - i
  {
    if i >= |l| then t else AbsorbFrom(Absorb(t, l[i], Contribution(k, i)), l, k, i + 1)
  }

  /** The three loops in their fixed order: ELSER, BM25, dense. */
  function Accumulate(e: seq<Hit>, b: seq<Hit>, d: seq<Hit>, k: nat): Tally {
    AbsorbFrom(AbsorbFrom(AbsorbFrom(Tally([], map[], map[]), e, k, 0), b, k, 0), d, k, 0)
  }

  lemma AbsorbKeys(t: Tally, h: Hit, c: real, p: seq<string>)
    requires t.scores.Keys == SetOf(p) && t.info.Keys == SetOf(p)
    ensures var r := Absorb(t, h, c);
            r.scores.Keys == SetOf(p + [ChunkIdOf(h)]) && r.info.Keys == SetOf(p + [ChunkIdOf(h)])
  {
    SetOfAppend(p, ChunkIdOf(h));
  }

  lemma AbsorbInsertionOrder(t: Tally, h: Hit, c: real, p: seq<string>)
    requires t.order == FirstSeen(p) && t.scores.Keys == SetOf(p)
    ensures Absorb(t, h, c).order == FirstSeen(p + [ChunkIdOf(h)])
  {
    var id := ChunkIdOf(h);
    var q := p + [id];
    var f := FirstSeen(p);
    assert q[..|q| - 1] == p;
    assert id in SetOf(p) <==> id in SetOf(f);
    assert id in SetOf(f) <==> id in f;
  }

  /** One iteration extends the seen ids by the hit's id. */
  lemma AbsorbOrder(t: Tally, h: Hit, c: real, p: seq<string>)
    requires Seen(t, p)
    ensures Seen(Absorb(t, h, c), p + [ChunkIdOf(h)])
  {
    AbsorbKeys(t, h, c, p);
    AbsorbInsertionOrder(t, h, c, p);
  }

  /** The loop state after the ids `p` have been visited: the insertion order
      lists the distinct ids of `p` by first occurrence, and both dicts have
      exactly those keys. */
  predicate Seen(t: Tally, p: seq<string>) {
    t.order == FirstSeen(p) && t.scores.Keys == SetOf(p) && t.info.Keys == SetOf(p)
  }

  /** One more loop extends the visited ids by the ids of its list. */
  lemma {:induction false} AbsorbFromOrder(t: Tally, l: seq<Hit>, k: nat, i: nat, p: seq<string>)
    requires i <= |l|
    requires Seen(t, p)
    ensures Seen(AbsorbFrom(t, l, k, i), p + Ids(l)[i..])
    decreases |l| - i
  {
    if i == |l| {
      assert p + Ids(l)[i..] == p;
    } else {
      var q := p + [ChunkIdOf(l[i])];
      var t1 := Absorb(t, l[i], Contribution(k, i));
      AbsorbOrder(t, l[i], Contribution(k, i), p);
      AbsorbFromOrder(t1, l, k, i + 1, q);
      IdsStep(l, i, p);
    }
  }

  /** Visiting position i and then the rest is visiting the suffix from i. */
  lemma IdsStep(l: seq<Hit>, i: nat, p: seq<string>)
    requires i < |l|
    ensures (p + [ChunkIdOf(l[i])]) + Ids(l)[i + 1..] == p + Ids(l)[i..]
  {
    assert Ids(l)[i..] == [ChunkIdOf(l[i])] + Ids(l)[i + 1..];
  }

  function ScoreOr0(t: Tally, id: string): real {
    if id in t.scores then t.scores[id] else 0.0
  }

  /** One loop adds to every id exactly its positional contributions from that list. */
  lemma {:induction false} AbsorbFromScores(t: Tally, l: seq<Hit>, k: nat, i: nat)
    ensures forall id :: ScoreOr0(AbsorbFrom(t, l, k, i), id) == ScoreOr0(t, id) + ListScoreFrom(l, id, k, i)
    decreases |l| - i
  {
    if i < |l| {
      AbsorbFromScores(Absorb(t, l[i], Contribution(k, i)), l, k, i + 1);
    }
  }

  /** One loop leaves every id it visits with the payload of its last
      occurrence in that list, and every other id's payload untouched. */
  lemma {:induction false} AbsorbFromInfo(t: Tally, l: seq<Hit>, k: nat, i: nat)
    requires i <= |l|
    ensures var r := AbsorbFrom(t, l, k, i);
            forall id :: id in r.info ==>
              if id in Ids(l)[i..] then r.info[id] == l[LastIndex(l, id)]
              else id in t.info && r.info[id] == t.info[id]
    decreases |l| - i
  {
    if i < |l| {
      var t1 := Absorb(t, l[i], Contribution(k, i));
      AbsorbFromInfo(t1, l, k, i + 1);
      assert Ids(l)[i..] == [ChunkIdOf(l[i])] + Ids(l)[i + 1..];
      if ChunkIdOf(l[i]) !in Ids(l)[i + 1..] {
        LastAt(l, i);
      }
    }
  }

  /** A hit whose id does not occur later in the list is that id's last occurrence. */
  lemma LastAt(l: seq<Hit>, i: nat)
    requires i < |l| && ChunkIdOf(l[i]) !in Ids(l)[i + 1..]
    ensures ChunkIdOf(l[i]) in Ids(l) && LastIndex(l, ChunkIdOf(l[i])) == i
  {
    assert Ids(l)[i] == ChunkIdOf(l[i]);
    assert forall m :: i < m < |l| ==> Ids(l)[m] == Ids(l)[i + 1..][m - i - 1];
  }

  /** What the three loops must leave behind: first-encounter key order over
      ELSER, BM25, dense; the summed positional score of every id; and the
      payload of the id's last occurrence in the last list holding it. */
  predicate Represents(t: Tally, e: seq<Hit>, b: seq<Hit>, d: seq<Hit>, k: nat) {
    && Seen(t, AllIds(e, b, d))
    && (forall id :: id in t.scores ==> t.scores[id] == RrfScore(e, b, d, id, k))
    && (forall id :: id in t.info ==> InAny(e, b, d, id) && t.info[id] == Payload(e, b, d, id))
  }

  lemma AccumulateOrder(e: seq<Hit>, b: seq<Hit>, d: seq<Hit>, k: nat)
    ensures Seen(Accumulate(e, b, d, k), AllIds(e, b, d))
  {
    var t0 := Tally([], map[], map[]);
    var t1 := AbsorbFrom(t0, e, k, 0);
    var t2 := AbsorbFrom(t1, b, k, 0);
    assert Ids(e)[0..] == Ids(e) && Ids(b)[0..] == Ids(b) && Ids(d)[0..] == Ids(d);
    assert [] + Ids(e) == Ids(e);
    AbsorbFromOrder(t0, e, k, 0, []);
    AbsorbFromOrder(t1, b, k, 0, Ids(e));
    AbsorbFromOrder(t2, d, k, 0, Ids(e) + Ids(b));
  }

  lemma AccumulateScores(e: seq<Hit>, b: seq<Hit>, d: seq<Hit>, k: nat)
    ensures var t := Accumulate(e, b, d, k);
            forall id :: id in t.scores ==> t.scores[id] == RrfScore(e, b, d, id, k)
  {
    var t0 := Tally([], map[], map[]);
    var t1 := AbsorbFrom(t0, e, k, 0);
    var t2 := AbsorbFrom(t1, b, k, 0);
    var t3 := AbsorbFrom(t2, d, k, 0);
    AbsorbFromScores(t0, e, k, 0);
    AbsorbFromScores(t1, b, k, 0);
    AbsorbFromScores(t2, d, k, 0);
    forall id | id in t3.scores ensures t3.scores[id] == RrfScore(e, b, d, id, k) {
      assert ScoreOr0(t3, id) == t3.scores[id];
    }
  }

  lemma AccumulateInfo(e: seq<Hit>, b: seq<Hit>, d: seq<Hit>, k: nat)
    ensures var t := Accumulate(e, b, d, k);
            forall id :: id in t.info ==> InAny(e, b, d, id) && t.info[id] == Payload(e, b, d, id)
  {
    var t0 := Tally([], map[], map[]);
    var t1 := AbsorbFrom(t0, e, k, 0);
    var t2 := AbsorbFrom(t1, b, k, 0);
    var t3 := AbsorbFrom(t2, d, k, 0);
    assert Ids(e)[0..] == Ids(e) && Ids(b)[0..] == Ids(b) && Ids(d)[0..] == Ids(d);
    AbsorbFromInfo(t0, e, k, 0);
    AbsorbFromInfo(t1, b, k, 0);
    AbsorbFromInfo(t2, d, k, 0);
  }

  /** The state after the three loops is the one `Represents` describes. */
  lemma AccumulateSpec(e: seq<Hit>, b: seq<Hit>, d: seq<Hit>, k: nat)
    ensures Represents(Accumulate(e, b, d, k), e, b, d, k)
  {
    AccumulateOrder(e, b, d, k);
    AccumulateScores(e, b, d, k);
    AccumulateInfo(e, b, d, k);
  }

  // ---------------------------------------------------------------------------
  // The stable descending sort

  /** `x` comes before `y` in the fused output: a higher score, or an equal
      score and an earlier first encounter across ELSER, BM25, dense. */
  predicate Before(x: Fused, y: Fused, all: seq<string>) {
    || x.rrfScore > y.rrfScore
    || (x.rrfScore == y.rrfScore && FirstIndex(all, FusedId(x)) < FirstIndex(all, FusedId(y)))
  }

  predicate TieOrdered(s: seq<Fused>, all: seq<string>) {
    forall i, j :: 0 <= i < j < |s| ==> Before(s[i], s[j], all)
  }

  /** Inserts `x` in front of the first element whose score is not above its own. */
  function Insert(x: Fused, s: seq<Fused>): (r: seq<Fused>)
    ensures multiset(r) == multiset{x} + multiset(s)
  {
    if |s| == 0 || x.rrfScore >= s[0].rrfScore then [x] + s
    else
      assert s == [s[0]] + s[1..];
      [s[0]] + Insert(x, s[1..])
  }

  /** `sorted(..., key=score, reverse=True)`: descending, equal keys in input order. */
  function SortDesc(s: seq<Fused>): (r: seq<Fused>)
    ensures multiset(r) == multiset(s)
  {
    if |s| == 0 then []
    else
      assert s == [s[0]] + s[1..];
      Insert(s[0], SortDesc(s[1..]))
  }

  lemma {:induction false} InsertTieOrdered(x: Fused, s: seq<Fused>, all: seq<string>)
    requires TieOrdered(s, all)
    requires forall y :: y in s ==> FirstIndex(all, FusedId(x)) < FirstIndex(all, FusedId(y))
    ensures TieOrdered(Insert(x, s), all)
  {
    if |s| > 0 && x.rrfScore < s[0].rrfScore {
      InsertTieOrdered(x, s[1..], all);
      var r := Insert(x, s[1..]);
      forall j | 0 <= j < |r| ensures Before(s[0], r[j], all) {
        assert r[j] in multiset(r);
        assert r[j] == x || r[j] in s[1..];
      }
    }
  }

  /** Sorting a list whose first encounters increase yields the fused order. */
  lemma {:induction false} SortDescTieOrdered(s: seq<Fused>, all: seq<string>)
    requires forall i, j :: 0 <= i < j < |s| ==> FirstIndex(all, FusedId(s[i])) < FirstIndex(all, FusedId(s[j]))
    ensures TieOrdered(SortDesc(s), all)
  {
    if |s| > 0 {
      SortDescTieOrdered(s[1..], all);
      forall y | y in SortDesc(s[1..])
        ensures FirstIndex(all, FusedId(s[0])) < FirstIndex(all, FusedId(y))
      {
        assert y in multiset(SortDesc(s[1..]));
        assert y in s[1..];
      }
      InsertTieOrdered(s[0], SortDesc(s[1..]), all);
    }
  }

  // ---------------------------------------------------------------------------
  // The fused ranking

  /** Every id in the insertion order has a score and a payload. */
  predicate Keyed(t: Tally) {
    forall id :: id in t.order ==> id in t.scores && id in t.info
  }

  lemma SeenKeyed(t: Tally, p: seq<string>)
    requires Seen(t, p)
    ensures Keyed(t)
  {
    assert forall id :: id in t.order ==> id in SetOf(t.order);
  }

  /** The unsorted `(doc_id, rrf_score)` pairs in dict order, each joined with a copy of its payload. */
  function Collect(t: Tally): (r: seq<Fused>)
    requires Keyed(t)
    ensures |r| == |t.order|
    ensures forall j :: 0 <= j < |r| ==> r[j] == Fused(t.info[t.order[j]], t.scores[t.order[j]])
  {
    seq(|t.order|, j requires 0 <= j < |t.order| => Fused(t.info[t.order[j]], t.scores[t.order[j]]))
  }

  /** `_reciprocal_rank_fusion(elser, bm25, dense, k)`. */
  function Rrf(e: seq<Hit>, b: seq<Hit>, d: seq<Hit>, k: nat): seq<Fused> {
    var t := Accumulate(e, b, d, k);
    AccumulateOrder(e, b, d, k);
    SeenKeyed(t, AllIds(e, b, d));
    SortDesc(Collect(t))
  }

  /** The fused results are the collected pairs, reordered. */
  lemma RrfFromCollect(e: seq<Hit>, b: seq<Hit>, d: seq<Hit>, k: nat)
    ensures var t := Accumulate(e, b, d, k);
            && Represents(t, e, b, d, k)
            && Keyed(t)
            && multiset(Rrf(e, b, d, k)) == multiset(Collect(t))
  {
    var t := Accumulate(e, b, d, k);
    AccumulateSpec(e, b, d, k);
    SeenKeyed(t, AllIds(e, b, d));
  }

  /** The collected pairs follow first-encounter order, so the stable sort
      breaks score ties by first encounter. */
  lemma RrfTieOrdered(e: seq<Hit>, b: seq<Hit>, d: seq<Hit>, k: nat)
    ensures TieOrdered(Rrf(e, b, d, k), AllIds(e, b, d))
  {
    var t := Accumulate(e, b, d, k);
    var all := AllIds(e, b, d);
    RrfFromCollect(e, b, d, k);
    var c := Collect(t);
    FirstSeenOrdered(all);
    forall i | 0 <= i < |c| ensures FusedId(c[i]) == t.order[i] {
      PayloadId(e, b, d, t.order[i]);
    }
    SortDescTieOrdered(c, all);
  }

  /** The payload of an id is a hit carrying that id. */
  lemma PayloadId(e: seq<Hit>, b: seq<Hit>, d: seq<Hit>, id: string)
    requires InAny(e, b, d, id)
    ensures ChunkIdOf(Payload(e, b, d, id)) == id
  {
  }

  lemma CollectMember(t: Tally, e: seq<Hit>, b: seq<Hit>, d: seq<Hit>, k: nat, x: Fused)
    requires Represents(t, e, b, d, k)
    requires Keyed(t)
    requires x in Collect(t)
    ensures FusedId(x) in t.order
    ensures InAny(e, b, d, FusedId(x))
    ensures x == Fused(Payload(e, b, d, FusedId(x)), RrfScore(e, b, d, FusedId(x), k))
  {
    var c := Collect(t);
    var j :| 0 <= j < |c| && c[j] == x;
    var id := t.order[j];
    assert id in SetOf(t.order);
    PayloadId(e, b, d, id);
  }

  /** Each fused result carries the RRF score of its id, summed over every
      position where the id occurs in any of the three lists, and the payload
      of the id's last occurrence in the last list holding it. */
  lemma RrfScoresAndPayloads(e: seq<Hit>, b: seq<Hit>, d: seq<Hit>, k: nat)
    ensures var out := Rrf(e, b, d, k);
            forall j :: 0 <= j < |out| ==>
              && InAny(e, b, d, FusedId(out[j]))
              && out[j].rrfScore == RrfScore(e, b, d, FusedId(out[j]), k)
              && out[j].hit == Payload(e, b, d, FusedId(out[j]))
  {
    var t := Accumulate(e, b, d, k);
    var out := Rrf(e, b, d, k);
    RrfFromCollect(e, b, d, k);
    forall j | 0 <= j < |out|
      ensures && InAny(e, b, d, FusedId(out[j]))
              && out[j].rrfScore == RrfScore(e, b, d, FusedId(out[j]), k)
              && out[j].hit == Payload(e, b, d, FusedId(out[j]))
    {
      assert out[j] in multiset(Collect(t));
      CollectMember(t, e, b, d, k, out[j]);
    }
  }

  /** The fused output is sorted by RRF score, highest first, and equal scores
      keep the order in which the ids were first met across ELSER, BM25, dense. */
  lemma RrfSortedStable(e: seq<Hit>, b: seq<Hit>, d: seq<Hit>, k: nat)
    ensures var out := Rrf(e, b, d, k);
            var all := AllIds(e, b, d);
            && (forall i, j :: 0 <= i < j < |out| ==> out[i].rrfScore >= out[j].rrfScore)
            && (forall i, j :: 0 <= i < j < |out| && out[i].rrfScore == out[j].rrfScore ==>
                  FirstIndex(all, FusedId(out[i])) < FirstIndex(all, FusedId(out[j])))
  {
    RrfTieOrdered(e, b, d, k);
  }

  /** No chunk id appears twice in the fused output. */
  lemma RrfIdsDistinct(e: seq<Hit>, b: seq<Hit>, d: seq<Hit>, k: nat)
    ensures Distinct(FusedIds(Rrf(e, b, d, k)))
  {
    var out := Rrf(e, b, d, k);
    var all := AllIds(e, b, d);
    RrfTieOrdered(e, b, d, k);
    RrfScoresAndPayloads(e, b, d, k);
    forall i, j | 0 <= i < j < |out| ensures FusedIds(out)[i] != FusedIds(out)[j] {
      assert Before(out[i], out[j], all);
    }
  }

  /** The fused output has one entry per distinct id of the three lists. */
  lemma RrfLength(e: seq<Hit>, b: seq<Hit>, d: seq<Hit>, k: nat)
    ensures |Rrf(e, b, d, k)| == |FirstSeen(AllIds(e, b, d))|
  {
    var t := Accumulate(e, b, d, k);
    RrfFromCollect(e, b, d, k);
    var out, c := Rrf(e, b, d, k), Collect(t);
    assert |multiset(out)| == |multiset(c)|;
  }

  /** The ids of the three lists, as a set. */
  function InputIds(e: seq<Hit>, b: seq<Hit>, d: seq<Hit>): set<string> {
    SetOf(Ids(e)) + SetOf(Ids(b)) + SetOf(Ids(d))
  }

  /** The fused output names exactly the ids of the three lists. */
  lemma RrfIdsComplete(e: seq<Hit>, b: seq<Hit>, d: seq<Hit>, k: nat)
    ensures SetOf(FusedIds(Rrf(e, b, d, k))) == SetOf(Ids(e)) + SetOf(Ids(b)) + SetOf(Ids(d))
  {
    RrfIdsWithin(e, b, d, k);
    RrfIdsCover(e, b, d, k);
    assert SetOf(FusedIds(Rrf(e, b, d, k))) == InputIds(e, b, d);
  }

  lemma RrfIdsWithin(e: seq<Hit>, b: seq<Hit>, d: seq<Hit>, k: nat)
    ensures SetOf(FusedIds(Rrf(e, b, d, k))) <= InputIds(e, b, d)
  {
    var out := Rrf(e, b, d, k);
    RrfScoresAndPayloads(e, b, d, k);
    forall id | id in SetOf(FusedIds(out))
      ensures id in InputIds(e, b, d)
    {
      var j :| 0 <= j < |out| && FusedIds(out)[j] == id;
      assert InAny(e, b, d, id);
    }
  }

  lemma RrfIdsCover(e: seq<Hit>, b: seq<Hit>, d: seq<Hit>, k: nat)
    ensures InputIds(e, b, d) <= SetOf(FusedIds(Rrf(e, b, d, k)))
  {
    forall id | id in InputIds(e, b, d)
      ensures id in SetOf(FusedIds(Rrf(e, b, d, k)))
    {
      RrfIdCovered(e, b, d, k, id);
    }
  }

  lemma RrfIdCovered(e: seq<Hit>, b: seq<Hit>, d: seq<Hit>, k: nat, id: string)
    requires id in InputIds(e, b, d)
    ensures id in SetOf(FusedIds(Rrf(e, b, d, k)))
  {
    var t := Accumulate(e, b, d, k);
    var out := Rrf(e, b, d, k);
    RrfFromCollect(e, b, d, k);
    var c := Collect(t);
    assert id in SetOf(t.order) by {
      SetOfConcat(Ids(e), Ids(b));
      SetOfConcat(Ids(e) + Ids(b), Ids(d));
      assert SetOf(t.order) == SetOf(AllIds(e, b, d));
    }
    var p :| 0 <= p < |t.order| && t.order[p] == id;
    PayloadId(e, b, d, id);
    assert c[p] in multiset(out);
    var j :| 0 <= j < |out| && out[j] == c[p];
    assert FusedIds(out)[j] == id;
  }

  // ---------------------------------------------------------------------------
  // Scenarios

  /** Three empty lists fuse to nothing. */
  lemma RrfEmpty(k: nat)
    ensures Rrf([], [], [], k) == []
  {
    RrfLength([], [], [], k);
    assert AllIds([], [], []) == [];
  }

  /** A lone hit at the head of one list is returned with score 1/(k+1), its
      own fields unchanged; a smaller k gives it a larger score. */
  lemma RrfLoneHead(h: Hit, k: nat)
    ensures Rrf([h], [], [], k) == [Fused(h, 1.0 / ((k + 1) as real))]
    ensures k < 60 ==> 1.0 / ((k + 1) as real) > 1.0 / 61.0
  {
    var out := Rrf([h], [], [], k);
    var id := ChunkIdOf(h);
    assert |out| == 1 by {
      assert AllIds([h], [], []) == [id];
      assert FirstSeen([id]) == [id] by {
        assert [id][..0] == [];
      }
      RrfLength([h], [], [], k);
    }
    var x := out[0];
    assert InAny([h], [], [], FusedId(x)) && x.rrfScore == RrfScore([h], [], [], FusedId(x), k)
           && x.hit == Payload([h], [], [], FusedId(x)) by {
      RrfScoresAndPayloads([h], [], [], k);
    }
    assert Ids([h]) == [id];
    assert FusedId(x) == id;
    assert LastIndex([h], id) == 0;
    assert ListScoreFrom([h], id, k, 1) == 0.0;
    assert ListScore([h], id, k) == Contribution(k, 0);
    assert ListScore([], id, k) == 0.0;
    assert out == [x];
  }

  /** A chunk at the head of all three lists outranks, with a strictly
      greater score, a chunk found only at position 2 of one list. */
  lemma RrfSharedOutranks(s: Hit, u: Hit, k: nat)
    requires ChunkIdOf(s) != ChunkIdOf(u)
    ensures var out := Rrf([s, u], [s], [s], k);
            && |out| == 2
            && FusedId(out[0]) == ChunkIdOf(s)
            && FusedId(out[1]) == ChunkIdOf(u)
            && out[0].rrfScore > out[1].rrfScore
  {
    var e, b, d := [s, u], [s], [s];
    var si, ui := ChunkIdOf(s), ChunkIdOf(u);
    assert InputIds(e, b, d) == {si, ui} by {
      assert Ids(e) == [si, ui] && Ids(b) == [si] && Ids(d) == [si];
    }
    PairOutput(e, b, d, k, si, ui);
    var out := Rrf(e, b, d, k);
    SharedScores(s, u, k);
    assert out[0].rrfScore == RrfScore(e, b, d, FusedId(out[0]), k)
        && out[1].rrfScore == RrfScore(e, b, d, FusedId(out[1]), k) by {
      RrfScoresAndPayloads(e, b, d, k);
    }
    assert out[0].rrfScore >= out[1].rrfScore by {
      RrfSortedStable(e, b, d, k);
    }
  }

  /** Two distinct input ids fuse to exactly two results, one per id. */
  lemma PairOutput(e: seq<Hit>, b: seq<Hit>, d: seq<Hit>, k: nat, x: string, y: string)
    requires x != y && InputIds(e, b, d) == {x, y}
    ensures var out := Rrf(e, b, d, k);
            && |out| == 2
            && ((FusedId(out[0]) == x && FusedId(out[1]) == y) || (FusedId(out[0]) == y && FusedId(out[1]) == x))
  {
    var ids := FusedIds(Rrf(e, b, d, k));
    RrfIdsComplete(e, b, d, k);
    RrfIdsDistinct(e, b, d, k);
    assert SetOf(ids) == {x, y};
    DistinctCard(ids);
    assert ids[0] in {x, y} && ids[1] in {x, y};
  }

  lemma SharedScores(s: Hit, u: Hit, k: nat)
    requires ChunkIdOf(s) != ChunkIdOf(u)
    ensures RrfScore([s, u], [s], [s], ChunkIdOf(s), k) == 3.0 * Contribution(k, 0)
    ensures RrfScore([s, u], [s], [s], ChunkIdOf(u), k) == Contribution(k, 1)
    ensures Contribution(k, 0) > Contribution(k, 1)
  {
    var si, ui := ChunkIdOf(s), ChunkIdOf(u);
    assert ListScoreFrom([s, u], si, k, 1) == 0.0;
    assert ListScoreFrom([s, u], ui, k, 1) == Contribution(k, 1);
    assert ListScoreFrom([s], si, k, 1) == 0.0;
    assert ListScoreFrom([s], ui, k, 1) == 0.0;
  }

  /** A list without repeats has as many elements as its set. */
  lemma {:induction false} DistinctCard<T>(s: seq<T>)
    requires Distinct(s)
    ensures |SetOf(s)| == |s|
  {
    if |s| > 0 {
      var s' := s[..|s| - 1];
      assert s == s' + [s[|s| - 1]];
      assert Distinct(s');
      DistinctCard(s');
      SetOfAppend(s', s[|s| - 1]);
      assert s[|s| - 1] !in SetOf(s');
    }
  }
}
