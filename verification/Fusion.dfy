/** Reciprocal-rank fusion of ranked streams (crates/tracedb-query/src/lib.rs), over the reals. */
module Fusion {
  import opened Ordering

  datatype Candidate = Candidate(recordId: string, score: real, freshnessPenalty: real)

  datatype RankedStream = RankedStream(name: string, candidates: seq<Candidate>)

  datatype FusedCandidate = FusedCandidate(recordId: string, vector: Option<real>, lexical: Option<real>,
                                           relational: Option<real>, freshnessPenalty: real, finalScore: real)

  type Fused = map<string, FusedCandidate>

  function Reciprocal(rank: nat): real
  {
    1.0 / (60.0 + rank as real)
  }

  function Max(a: real, b: real): real { if a < b then b else a }

  /** One candidate of one stream, with its rank counted from 1. */
  datatype Hit = Hit(stream: string, candidate: Candidate, rank: nat)

  function HitsOf(stream: RankedStream, n: nat): (hits: seq<Hit>)
    requires n <= |stream.candidates|
    ensures |hits| == n
  {
    if n == 0 then [] else HitsOf(stream, n - 1) + [Hit(stream.name, stream.candidates[n - 1], n)]
  }

  function Hits(streams: seq<RankedStream>): seq<Hit>
  {
    if streams == [] then []
    else
      var last := streams[|streams| - 1];
      Hits(streams[..|streams| - 1]) + HitsOf(last, |last.candidates|)
  }

  function Bump(fused: Fused, h: Hit): Fused
  {
    var id := h.candidate.recordId;
    var e := if id in fused then fused[id] else FusedCandidate(id, None, None, None, 0.0, 0.0);
    var scored := e.(finalScore := e.finalScore + Reciprocal(h.rank),
                     freshnessPenalty := Max(e.freshnessPenalty, h.candidate.freshnessPenalty));
    fused[id := if h.stream == "text" then scored.(lexical := Some(h.candidate.score))
                else if h.stream == "vector" then scored.(vector := Some(h.candidate.score))
                else scored.(relational := Some(h.candidate.score))]
  }

  function Accumulate(hits: seq<Hit>): Fused
  {
    if hits == [] then map[] else Bump(Accumulate(hits[..|hits| - 1]), hits[|hits| - 1])
  }

  function Finish(e: FusedCandidate): FusedCandidate
  {
    e.(finalScore := e.finalScore - e.freshnessPenalty)
  }

  function Finished(fused: Fused): (out: Fused)
  {
    map id | id in fused :: Finish(fused[id])
  }

  /** Higher final score first, then record id. */
  predicate Before(fused: Fused, a: string, b: string)
  {
    a in fused && b in fused &&
    (fused[a].finalScore > fused[b].finalScore || (fused[a].finalScore == fused[b].finalScore && Less(a, b)))
  }

  lemma BeforeIsTotal(fused: Fused)
    ensures TotalOn((a, b) => Before(fused, a, b), fused.Keys)
  {
    LessIsTotal(fused.Keys);
  }

  function Sorted(fused: Fused): (out: seq<FusedCandidate>)
    ensures |out| == |fused|
  {
    BeforeIsTotal(fused);
    var ids := SortedBy((a, b) => Before(fused, a, b), fused.Keys);
    seq(|ids|, i requires 0 <= i < |ids| => assert ids[i] in Elements(ids); fused[ids[i]])
  }

  function FuseRrf(streams: seq<RankedStream>): (out: seq<FusedCandidate>)
  {
    Sorted(Finished(Accumulate(Hits(streams))))
  }

  method FuseRanked(streams: seq<RankedStream>) returns (values: seq<FusedCandidate>)
    ensures values == FuseRrf(streams)
  {
    var fused: Fused := map[];
    for s := 0 to |streams|
      invariant fused == Accumulate(Hits(streams[..s]))
    {
      var stream := streams[s];
      assert Hits(streams[..s]) + [] == Hits(streams[..s]);
      for idx := 0 to |stream.candidates|
        invariant fused == Accumulate(Hits(streams[..s]) + HitsOf(stream, idx))
      {
        var hit := Hit(stream.name, stream.candidates[idx], idx + 1);
        ghost var before := Hits(streams[..s]) + HitsOf(stream, idx);
        assert Hits(streams[..s]) + HitsOf(stream, idx + 1) == before + [hit];
        assert (before + [hit])[..|before|] == before;
        fused := Bump(fused, hit);
      }
      assert streams[..s + 1][..s] == streams[..s];
    }
    assert streams[..|streams|] == streams;
    values := Sorted(Finished(fused));
  }

  // ---------------------------------------------------------------- what fusion means

  function Ids(hits: seq<Hit>): set<string>
  {
    set i | 0 <= i < |hits| :: hits[i].candidate.recordId
  }

  /** The sum of reciprocal ranks of one record. */
  function Score(hits: seq<Hit>, id: string): real
  {
    if hits == [] then 0.0
    else (if hits[0].candidate.recordId == id then Reciprocal(hits[0].rank) else 0.0) + Score(hits[1..], id)
  }

  /** The largest penalty of one record, at least zero. */
  function Penalty(hits: seq<Hit>, id: string): real
  {
    if hits == [] then 0.0
    else if hits[0].candidate.recordId == id then Max(hits[0].candidate.freshnessPenalty, Penalty(hits[1..], id))
    else Penalty(hits[1..], id)
  }

  datatype Channel = Text | Vector | Other

  function ChannelOf(stream: string): Channel
  {
    if stream == "text" then Text else if stream == "vector" then Vector else Other
  }

  /** The score a record has in the last stream of a channel that lists it. */
  function Latest(hits: seq<Hit>, id: string, channel: Channel): Option<real>
  {
    if hits == [] then None
    else
      var last := hits[|hits| - 1];
      if last.candidate.recordId == id && ChannelOf(last.stream) == channel then Some(last.candidate.score)
      else Latest(hits[..|hits| - 1], id, channel)
  }

  ghost predicate ScoresKept(e: FusedCandidate, hits: seq<Hit>, id: string)
  {
    e.lexical == Latest(hits, id, Text) && e.vector == Latest(hits, id, Vector) &&
        e.relational == Latest(hits, id, Other)
  }

  lemma {:induction false} AbsentLatest(hits: seq<Hit>, id: string, channel: Channel)
    requires id !in Ids(hits)
    ensures Latest(hits, id, channel) == None
  {
    if hits != [] {
      var before, h := hits[..|hits| - 1], hits[|hits| - 1];
      assert h.candidate.recordId in Ids(hits);
      assert hits == before + [h];
      IdsSplit(before, [h]);
      AbsentLatest(before, id, channel);
    }
  }

  lemma BumpKeepsScores(fused: Fused, before: seq<Hit>, h: Hit, id: string)
    requires fused.Keys == Ids(before) && id in Bump(fused, h) && (id in fused ==> ScoresKept(fused[id], before, id))
    ensures ScoresKept(Bump(fused, h)[id], before + [h], id)
  {
    hide Ids;
    assert (before + [h])[..|before|] == before;
    if id !in Ids(before) {
      AbsentLatest(before, id, Text);
      AbsentLatest(before, id, Vector);
      AbsentLatest(before, id, Other);
    }
  }

  lemma {:induction false} SumsSplit(a: seq<Hit>, b: seq<Hit>, id: string)
    ensures Score(a + b, id) == Score(a, id) + Score(b, id)
    ensures Penalty(a + b, id) == Max(Penalty(a, id), Penalty(b, id))
    ensures Penalty(a, id) >= 0.0 && Penalty(b, id) >= 0.0
    decreases |a|, |b|
  {
    if a == [] {
      assert a + b == b;
      if b != [] { SumsSplit([], b[1..], id); assert [] + b[1..] == b[1..]; }
    } else {
      assert (a + b)[1..] == a[1..] + b && (a + b)[0] == a[0];
      SumsSplit(a[1..], b, id);
    }
  }

  lemma OneSum(h: Hit, id: string)
    ensures Score([h], id) == if h.candidate.recordId == id then Reciprocal(h.rank) else 0.0
    ensures Penalty([h], id) == if h.candidate.recordId == id then Max(h.candidate.freshnessPenalty, 0.0) else 0.0
  {
    assert [h][1..] == [];
  }

  lemma IdsSplit(a: seq<Hit>, b: seq<Hit>)
    ensures Ids(a + b) == Ids(a) + Ids(b)
  {
    forall id | id in Ids(b) ensures id in Ids(a + b) {
      var i :| 0 <= i < |b| && b[i].candidate.recordId == id;
      assert (a + b)[|a| + i] == b[i];
    }
    forall id | id in Ids(a) ensures id in Ids(a + b) {
      var i :| 0 <= i < |a| && a[i].candidate.recordId == id;
      assert (a + b)[i] == a[i];
    }
  }

  ghost predicate Tallied(e: FusedCandidate, hits: seq<Hit>, id: string)
  {
    && e.recordId == id && e.finalScore == Score(hits, id) && e.freshnessPenalty == Penalty(hits, id)
    && ScoresKept(e, hits, id)
  }

  lemma BumpTallies(fused: Fused, before: seq<Hit>, h: Hit, id: string)
    requires fused.Keys == Ids(before) && id in Bump(fused, h) && (id in fused ==> Tallied(fused[id], before, id))
    ensures Tallied(Bump(fused, h)[id], before + [h], id)
  {
    hide Ids, Score, Penalty, ScoresKept;
    SumsSplit(before, [h], id);
    OneSum(h, id);
    BumpKeepsScores(fused, before, h, id);
    if id !in Ids(before) { AbsentSum(before, id); }
  }

  /** The map holds each record met once, with its sum and its penalty. */
  lemma {:induction false} AccumulateTallies(hits: seq<Hit>)
    ensures Accumulate(hits).Keys == Ids(hits)
    ensures forall id | id in Accumulate(hits) :: Tallied(Accumulate(hits)[id], hits, id)
  {
    hide Tallied;
    if hits != [] {
      var before, h := hits[..|hits| - 1], hits[|hits| - 1];
      assert hits == before + [h];
      AccumulateTallies(before);
      IdsSplit(before, [h]);
      assert Ids([h]) == {h.candidate.recordId} by { assert [h][0].candidate.recordId in Ids([h]); }
      hide Bump;
      forall id | id in Accumulate(hits) ensures Tallied(Accumulate(hits)[id], hits, id) {
        BumpTallies(Accumulate(before), before, h, id);
      }
      assert Bump(Accumulate(before), h).Keys == Ids(hits) by { BumpKeys(Accumulate(before), h); }
    }
  }

  lemma BumpKeys(fused: Fused, h: Hit)
    ensures Bump(fused, h).Keys == fused.Keys + {h.candidate.recordId}
  {
  }

  lemma {:induction false} AbsentSum(hits: seq<Hit>, id: string)
    requires id !in Ids(hits)
    ensures Score(hits, id) == 0.0 && Penalty(hits, id) == 0.0
  {
    if hits != [] {
      assert hits[0].candidate.recordId in Ids(hits);
      assert hits == [hits[0]] + hits[1..];
      IdsSplit([hits[0]], hits[1..]);
      AbsentSum(hits[1..], id);
    }
  }

  /** A row of the result against the hits it came from. */
  ghost predicate RowOk(c: FusedCandidate, hits: seq<Hit>)
  {
    && c.recordId in Ids(hits) && c.freshnessPenalty == Penalty(hits, c.recordId)
    && c.finalScore == Score(hits, c.recordId) - Penalty(hits, c.recordId) && ScoresKept(c, hits, c.recordId)
  }

  predicate Precedes(a: FusedCandidate, b: FusedCandidate)
  {
    a.finalScore > b.finalScore || (a.finalScore == b.finalScore && Less(a.recordId, b.recordId))
  }

  function RowId(row: FusedCandidate): string { row.recordId }

  lemma SortedRows(fused: Fused)
    requires forall id | id in fused :: fused[id].recordId == id
    ensures var out := Sorted(fused);
            && NoDuplicates(Mapped(RowId, out)) && Elements(Mapped(RowId, out)) == fused.Keys
            && (forall i | 0 <= i < |out| :: out[i].recordId in fused && out[i] == fused[out[i].recordId])
            && (forall i, j | 0 <= i < j < |out| :: Precedes(out[i], out[j]))
  {
    hide Less, TotalOn;
    BeforeIsTotal(fused);
    var lt := (a, b) => Before(fused, a, b);
    var ids := SortedBy(lt, fused.Keys);
    SortedByAscends(lt, fused.Keys);
    var out := Sorted(fused);
    forall i | 0 <= i < |out| ensures ids[i] in fused && out[i] == fused[ids[i]] && out[i].recordId == ids[i] {
      assert ids[i] in Elements(ids);
    }
    assert Mapped(RowId, out) == ids;
    forall i, j | 0 <= i < j < |out| ensures Precedes(out[i], out[j]) { assert lt(ids[i], ids[j]); }
  }

  /** Fusion returns every candidate id exactly once, each with its sum less its penalty,
      strictly ordered by final score and then by id. */
  lemma FusionRanks(streams: seq<RankedStream>)
    ensures var out := FuseRrf(streams); var hits := Hits(streams);
            && NoDuplicates(Mapped(RowId, out)) && Elements(Mapped(RowId, out)) == Ids(hits)
            && (forall i | 0 <= i < |out| :: RowOk(out[i], hits))
            && (forall i, j | 0 <= i < j < |out| :: Precedes(out[i], out[j]))
  {
    hide Less, Accumulate, Sorted, Precedes, Score, Penalty;
    var hits := Hits(streams);
    var fused := Accumulate(hits);
    AccumulateTallies(hits);
    SortedRows(Finished(fused));
    var out := FuseRrf(streams);
    forall i | 0 <= i < |out| ensures RowOk(out[i], hits) {
      assert Tallied(fused[out[i].recordId], hits, out[i].recordId);
    }
  }

  // ---------------------------------------------------------------- conservation

  function Weight(hits: seq<Hit>): real
  {
    if hits == [] then 0.0 else Reciprocal(hits[0].rank) + Weight(hits[1..])
  }

  /** The scores of a list of records, added up. */
  function Scores(hits: seq<Hit>, ids: seq<string>): real
  {
    if ids == [] then 0.0 else Score(hits, ids[0]) + Scores(hits, ids[1..])
  }

  lemma {:induction false} ScoresOfNone(ids: seq<string>)
    ensures Scores([], ids) == 0.0
  {
    if ids != [] { ScoresOfNone(ids[1..]); }
  }

  lemma {:induction false} ScoresOfOne(h: Hit, rest: seq<Hit>, ids: seq<string>)
    requires NoDuplicates(ids)
    ensures Scores([h] + rest, ids) == Scores(rest, ids) + if h.candidate.recordId in ids then Reciprocal(h.rank)
            else 0.0
    decreases |ids|
  {
    if ids != [] {
      ScoresOfOne(h, rest, ids[1..]);
      SumsSplit([h], rest, ids[0]);
      OneSum(h, ids[0]);
      assert h.candidate.recordId in ids <==> h.candidate.recordId == ids[0] || h.candidate.recordId in ids[1..];
    }
  }

  lemma {:induction false} ScoresAddUp(hits: seq<Hit>, ids: seq<string>)
    requires NoDuplicates(ids) && Ids(hits) <= Elements(ids)
    ensures Scores(hits, ids) == Weight(hits)
    decreases |hits|
  {
    if hits == [] {
      ScoresOfNone(ids);
    } else {
      assert hits == [hits[0]] + hits[1..];
      assert hits[0].candidate.recordId in Ids(hits);
      IdsSplit([hits[0]], hits[1..]);
      ScoresOfOne(hits[0], hits[1..], ids);
      ScoresAddUp(hits[1..], ids);
    }
  }

  /** The scores of the rows before penalties, added up. */
  function TotalBeforePenalties(rows: seq<FusedCandidate>): real
  {
    if rows == [] then 0.0 else rows[0].finalScore + rows[0].freshnessPenalty + TotalBeforePenalties(rows[1..])
  }

  lemma {:induction false} RowsTotal(rows: seq<FusedCandidate>, hits: seq<Hit>)
    requires forall i | 0 <= i < |rows| :: RowOk(rows[i], hits)
    ensures TotalBeforePenalties(rows) == Scores(hits, Mapped(RowId, rows))
    decreases |rows|
  {
    hide Score, Penalty;
    if rows != [] {
      RowsTotal(rows[1..], hits);
      assert Mapped(RowId, rows)[1..] == Mapped(RowId, rows[1..]);
      assert RowOk(rows[0], hits);
    }
  }

  /** Fusion neither creates nor loses weight: before penalties the rows add up to
      1 / (60 + rank) over all candidates of all streams. */
  lemma FusionConserves(streams: seq<RankedStream>)
    ensures TotalBeforePenalties(FuseRrf(streams)) == Weight(Hits(streams))
  {
    hide FuseRrf, Score, Penalty, Precedes;
    FusionRanks(streams);
    RowsTotal(FuseRrf(streams), Hits(streams));
    ScoresAddUp(Hits(streams), Mapped(RowId, FuseRrf(streams)));
  }

  // ---------------------------------------------------------------- stream order

  ghost predicate SameRanking(a: seq<FusedCandidate>, b: seq<FusedCandidate>)
  {
    |a| == |b| && forall i | 0 <= i < |a| ::
      a[i].recordId == b[i].recordId && a[i].finalScore == b[i].finalScore &&
          a[i].freshnessPenalty == b[i].freshnessPenalty
  }

  lemma {:induction false} HitsSplit(a: seq<RankedStream>, b: seq<RankedStream>)
    ensures Hits(a + b) == Hits(a) + Hits(b)
    decreases |b|
  {
    hide HitsOf;
    if b == [] {
      assert a + b == a && Hits(a) + [] == Hits(a);
    } else {
      var n := |b| - 1;
      assert (a + b)[..|a| + n] == a + b[..n] && (a + b)[|a| + n] == b[n];
      HitsSplit(a, b[..n]);
      var last := HitsOf(b[n], |b[n].candidates|);
      assert Hits(a) + (Hits(b[..n]) + last) == (Hits(a) + Hits(b[..n])) + last;
    }
  }

  /** Sums, penalties and ids do not depend on the order of the streams. */
  lemma {:induction false} TalliesIgnoreOrder(a: seq<RankedStream>, b: seq<RankedStream>, id: string)
    requires multiset(a) == multiset(b)
    ensures Score(Hits(a), id) == Score(Hits(b), id) && Penalty(Hits(a), id) == Penalty(Hits(b), id)
    ensures Ids(Hits(a)) == Ids(Hits(b))
    decreases |a|
  {
    hide Score, Penalty, HitsOf, Ids;
    if a == [] {
      assert |multiset(b)| == 0;
      assert b == [];
    } else {
      var s := a[0];
      assert s in multiset(b);
      var j :| 0 <= j < |b| && b[j] == s;
      var p, q := b[..j], b[j + 1..];
      assert a == [s] + a[1..] && b == p + ([s] + q);
      SameRest(s, a[1..], p, q);
      TalliesIgnoreOrder(a[1..], p + q, id);
      MoveFirst(s, a[1..], id);
      HitsSplit(p, [s] + q);
      HitsSplit([s], q);
      HitsSplit(p, q);
      SumsSplit(Hits(p), Hits([s] + q), id);
      SumsSplit(Hits([s]), Hits(q), id);
      SumsSplit(Hits(p), Hits(q), id);
      IdsSplit(Hits(p), Hits([s] + q));
      IdsSplit(Hits([s]), Hits(q));
      IdsSplit(Hits(p), Hits(q));
    }
  }

  lemma SameRest(s: RankedStream, rest: seq<RankedStream>, p: seq<RankedStream>, q: seq<RankedStream>)
    requires multiset([s] + rest) == multiset(p + ([s] + q))
    ensures multiset(rest) == multiset(p + q)
  {
    assert multiset([s] + rest) == multiset{s} + multiset(rest);
    assert multiset(p + ([s] + q)) == multiset(p) + (multiset{s} + multiset(q));
    assert multiset(rest) == multiset([s] + rest) - multiset{s};
  }

  lemma MoveFirst(s: RankedStream, rest: seq<RankedStream>, id: string)
    ensures Score(Hits([s] + rest), id) == Score(Hits([s]), id) + Score(Hits(rest), id)
    ensures Penalty(Hits([s] + rest), id) == Max(Penalty(Hits([s]), id), Penalty(Hits(rest), id))
    ensures Ids(Hits([s] + rest)) == Ids(Hits([s])) + Ids(Hits(rest))
  {
    HitsSplit([s], rest);
    SumsSplit(Hits([s]), Hits(rest), id);
    IdsSplit(Hits([s]), Hits(rest));
  }

  /** The ranking is the same in whatever order the streams are given. */
  lemma FusionIgnoresOrder(a: seq<RankedStream>, b: seq<RankedStream>)
    requires multiset(a) == multiset(b)
    ensures SameRanking(FuseRrf(a), FuseRrf(b))
  {
    hide FuseRrf, Score, Penalty, Hits, Less;
    FusionRanks(a);
    FusionRanks(b);
    TalliesIgnoreOrder(a, b, "");
    forall id ensures Score(Hits(a), id) == Score(Hits(b), id) && Penalty(Hits(a), id) == Penalty(Hits(b), id) {
      TalliesIgnoreOrder(a, b, id);
    }
    RankingIsDetermined(FuseRrf(a), FuseRrf(b), Hits(a), Hits(b));
  }

  predicate Ranks(hits: seq<Hit>, a: string, b: string)
  {
    var x, y := Score(hits, a) - Penalty(hits, a), Score(hits, b) - Penalty(hits, b);
    x > y || (x == y && Less(a, b))
  }

  lemma RanksIsTotal(hits: seq<Hit>, ids: set<string>)
    ensures TotalOn((x, y) => Ranks(hits, x, y), ids)
  {
    LessIsTotal(ids);
  }

  lemma RankingIsDetermined(a: seq<FusedCandidate>, b: seq<FusedCandidate>, ha: seq<Hit>, hb: seq<Hit>)
    requires Elements(Mapped(RowId, a)) == Elements(Mapped(RowId, b))
    requires forall i | 0 <= i < |a| :: RowOk(a[i], ha)
    requires forall i | 0 <= i < |b| :: RowOk(b[i], hb)
    requires forall i, j | 0 <= i < j < |a| :: Precedes(a[i], a[j])
    requires forall i, j | 0 <= i < j < |b| :: Precedes(b[i], b[j])
    requires forall id :: Score(ha, id) == Score(hb, id) && Penalty(ha, id) == Penalty(hb, id)
    ensures SameRanking(a, b)
  {
    hide Less, Score, Penalty, TotalOn;
    var lt := (x, y) => Ranks(ha, x, y);
    RanksIsTotal(ha, Elements(Mapped(RowId, a)));
    forall i, j | 0 <= i < j < |a| ensures lt(Mapped(RowId, a)[i], Mapped(RowId, a)[j]) {
      assert RowOk(a[i], ha) && RowOk(a[j], ha) && Precedes(a[i], a[j]);
    }
    forall i, j | 0 <= i < j < |b| ensures lt(Mapped(RowId, b)[i], Mapped(RowId, b)[j]) {
      assert RowOk(b[i], hb) && RowOk(b[j], hb) && Precedes(b[i], b[j]);
    }
    AscendingIsUnique(lt, Mapped(RowId, a), Mapped(RowId, b));
    forall i | 0 <= i < |a|
      ensures a[i].recordId == b[i].recordId && a[i].finalScore == b[i].finalScore &&
              a[i].freshnessPenalty == b[i].freshnessPenalty
    {
      assert Mapped(RowId, a)[i] == Mapped(RowId, b)[i];
      assert RowOk(a[i], ha) && RowOk(b[i], hb);
    }
  }

  // ---------------------------------------------------------------- evidence and fallback

  predicate IsEvidence(name: string)
  {
    name == "text" || name == "vector" || name == "graph" || name == "temporal"
  }

  /** The non-empty streams that are, or are not, evidence. */
  function Pick(streams: seq<RankedStream>, evidence: bool): seq<RankedStream>
  {
    if streams == [] then []
    else
      var last := streams[|streams| - 1];
      Pick(streams[..|streams| - 1], evidence) +
      (if IsEvidence(last.name) == evidence && last.candidates != [] then [last] else [])
  }

  /** The rows whose id is not yet seen, the first of each. */
  function Unseen(rows: seq<FusedCandidate>, seen: set<string>): seq<FusedCandidate>
  {
    if rows == [] then []
    else if rows[0].recordId in seen then Unseen(rows[1..], seen)
    else [rows[0]] + Unseen(rows[1..], seen + {rows[0].recordId})
  }

  function FuseQuery(streams: seq<RankedStream>): seq<FusedCandidate>
  {
    var evidence := Pick(streams, true);
    if evidence == [] then FuseRrf(streams)
    else FuseRrf(evidence) + Unseen(FuseRrf(Pick(streams, false)), Elements(Mapped(RowId, FuseRrf(evidence))))
  }

  method PickStreams(streams: seq<RankedStream>, evidence: bool) returns (picked: seq<RankedStream>)
    ensures picked == Pick(streams, evidence)
  {
    picked := [];
    for i := 0 to |streams|
      invariant picked == Pick(streams[..i], evidence)
    {
      assert streams[..i + 1][..i] == streams[..i];
      if IsEvidence(streams[i].name) == evidence && streams[i].candidates != [] { picked := picked + [streams[i]]; }
    }
    assert streams[..|streams|] == streams;
  }

  method FuseQueryStreams(streams: seq<RankedStream>) returns (fused: seq<FusedCandidate>)
    ensures fused == FuseQuery(streams)
  {
    hide FuseRrf, Pick, Unseen;
    var evidence := PickStreams(streams, true);
    if evidence == [] {
      fused := FuseRanked(streams);
      return;
    }
    fused := FuseRanked(evidence);
    var seen := Elements(Mapped(RowId, fused));
    var fallback := PickStreams(streams, false);
    var extra := FuseRanked(fallback);
    ghost var all := fused + Unseen(extra, seen);
    for i := 0 to |extra|
      invariant all == fused + Unseen(extra[i..], seen)
    {
      assert extra[i..] == [extra[i]] + extra[i + 1..];
      UnseenCons(extra[i], extra[i + 1..], seen);
      if extra[i].recordId !in seen {
        seen := seen + {extra[i].recordId};
        assert fused + ([extra[i]] + Unseen(extra[i + 1..], seen)) == (fused + [extra[i]]) +
            Unseen(extra[i + 1..], seen);
        fused := fused + [extra[i]];
      }
    }
    assert extra[|extra|..] == [];
    UnseenNil(seen);
    assert fused + [] == fused;
  }

  lemma {:induction false} PickIsPick(streams: seq<RankedStream>, evidence: bool, s: RankedStream)
    ensures s in Pick(streams, evidence) <==> s in streams && IsEvidence(s.name) == evidence && s.candidates != []
  {
    if streams != [] {
      var init, last := streams[..|streams| - 1], streams[|streams| - 1];
      PickIsPick(init, evidence, s);
      assert streams == init + [last];
    }
  }

  /** What is left of a ranking keeps its order. */
  ghost predicate Ordered(rows: seq<FusedCandidate>)
  {
    forall i, j | 0 <= i < j < |rows| :: Precedes(rows[i], rows[j])
  }

  /** `a` is `b` with rows left out. */
  predicate Subsequence(a: seq<FusedCandidate>, b: seq<FusedCandidate>)
  {
    a == [] || (b != [] && (if a[0] == b[0] then Subsequence(a[1..], b[1..]) else Subsequence(a, b[1..])))
  }

  lemma {:induction false} UnseenIsSubsequence(rows: seq<FusedCandidate>, seen: set<string>)
    requires NoDuplicates(Mapped(RowId, rows))
    ensures Subsequence(Unseen(rows, seen), rows)
    decreases |rows|
  {
    if rows != [] {
      var row, rest := rows[0], rows[1..];
      assert rows == [row] + rest;
      RestDistinct(row, rest);
      if row.recordId in seen {
        UnseenIsSubsequence(rest, seen);
        UnseenOmits(row, rest, seen);
      } else {
        UnseenIsSubsequence(rest, seen + {row.recordId});
        assert Unseen(rows, seen)[1..] == Unseen(rest, seen + {row.recordId});
      }
    }
  }

  lemma UnseenOmits(row: FusedCandidate, rest: seq<FusedCandidate>, seen: set<string>)
    requires NoDuplicates(Mapped(RowId, [row] + rest)) && row.recordId in seen
    ensures var u := Unseen(rest, seen); u != [] ==> u[0] != row
  {
    RestDistinct(row, rest);
    UnseenRows(rest, seen);
    var u := Unseen(rest, seen);
    if u != [] { assert Mapped(RowId, u)[0] in Elements(Mapped(RowId, u)); }
  }

  lemma OrderedOn(row: FusedCandidate, rest: seq<FusedCandidate>)
    requires Ordered(rest) && forall i | 0 <= i < |rest| :: Precedes(row, rest[i])
    ensures Ordered([row] + rest)
  {
    hide Precedes;
  }

  lemma {:induction false} SubsequenceIsOrdered(a: seq<FusedCandidate>, b: seq<FusedCandidate>)
    requires Subsequence(a, b) && Ordered(b)
    ensures Ordered(a) && Elements(a) <= Elements(b)
    decreases |b|
  {
    hide Precedes;
    if a != [] {
      var rest := b[1..];
      assert b == [b[0]] + rest && Ordered(rest);
      ElementsOf(b[0], rest);
      if a[0] == b[0] {
        SubsequenceIsOrdered(a[1..], rest);
        forall i | 0 <= i < |a[1..]| ensures Precedes(a[0], a[1..][i]) {
          assert a[1..][i] in Elements(a[1..]);
          var k :| 0 <= k < |rest| && rest[k] == a[1..][i];
          assert Precedes(b[0], b[k + 1]);
        }
        OrderedOn(a[0], a[1..]);
        ElementsOf(a[0], a[1..]);
        assert a == [a[0]] + a[1..];
      } else {
        SubsequenceIsOrdered(a, rest);
      }
    }
  }

  ghost predicate UnseenOk(rows: seq<FusedCandidate>, seen: set<string>, u: seq<FusedCandidate>)
  {
    && Elements(Mapped(RowId, u)) == Elements(Mapped(RowId, rows)) - seen && NoDuplicates(Mapped(RowId, u))
    && Elements(u) <= Elements(rows)
  }

  lemma ConsOk(row: FusedCandidate, rest: seq<FusedCandidate>, seen: set<string>, v: seq<FusedCandidate>)
    requires NoDuplicates(Mapped(RowId, [row] + rest))
    requires UnseenOk(rest, if row.recordId in seen then seen else seen + {row.recordId}, v)
    ensures UnseenOk([row] + rest, seen, if row.recordId in seen then v else [row] + v)
  {
    hide NoDuplicates, Elements;
    var id := row.recordId;
    assert Mapped(RowId, [row] + rest) == [id] + Mapped(RowId, rest);
    SplitDistinct(id, Mapped(RowId, rest));
    ElementsOf(row, rest);
    if id !in seen {
      assert Mapped(RowId, [row] + v) == [id] + Mapped(RowId, v);
      PrependDistinct(id, Mapped(RowId, v));
      ElementsOf(row, v);
    }
  }

  lemma {:induction false} UnseenRows(rows: seq<FusedCandidate>, seen: set<string>)
    requires NoDuplicates(Mapped(RowId, rows))
    ensures UnseenOk(rows, seen, Unseen(rows, seen))
    decreases |rows|
  {
    hide UnseenOk, NoDuplicates, Unseen;
    if rows == [] {
      NothingUnseen(seen);
    } else {
      var row, rest := rows[0], rows[1..];
      var next := if row.recordId in seen then seen else seen + {row.recordId};
      assert rows == [row] + rest;
      RestDistinct(row, rest);
      UnseenRows(rest, next);
      ConsOk(row, rest, seen, Unseen(rest, next));
      UnseenCons(row, rest, seen);
    }
  }

  lemma NothingUnseen(seen: set<string>)
    ensures UnseenOk([], seen, Unseen([], seen))
  {
    assert Mapped(RowId, []) == [];
  }

  lemma RestDistinct(row: FusedCandidate, rest: seq<FusedCandidate>)
    requires NoDuplicates(Mapped(RowId, [row] + rest))
    ensures NoDuplicates(Mapped(RowId, rest))
  {
    assert Mapped(RowId, [row] + rest) == [row.recordId] + Mapped(RowId, rest);
    SplitDistinct(row.recordId, Mapped(RowId, rest));
  }

  lemma UnseenNil(seen: set<string>)
    ensures Unseen([], seen) == []
  {
  }

  lemma UnseenCons(row: FusedCandidate, rest: seq<FusedCandidate>, seen: set<string>)
    ensures Unseen([row] + rest, seen) ==
            if row.recordId in seen then Unseen(rest, seen) else [row] + Unseen(rest, seen + {row.recordId})
  {
    assert ([row] + rest)[1..] == rest;
  }

  lemma ElementsOf<T>(x: T, rest: seq<T>)
    ensures Elements([x] + rest) == {x} + Elements(rest)
  {
  }

  lemma SplitDistinct(id: string, ids: seq<string>)
    requires NoDuplicates([id] + ids)
    ensures NoDuplicates(ids) && id !in Elements(ids) && Elements([id] + ids) == {id} + Elements(ids)
  {
    var all := [id] + ids;
    forall i | 0 <= i < |ids| ensures ids[i] != id { assert all[0] != all[i + 1]; }
    forall i, j | 0 <= i < j < |ids| ensures ids[i] != ids[j] { assert all[i + 1] != all[j + 1]; }
  }

  lemma PrependDistinct(id: string, ids: seq<string>)
    requires NoDuplicates(ids) && id !in Elements(ids)
    ensures NoDuplicates([id] + ids) && Elements([id] + ids) == {id} + Elements(ids)
  {
    forall j | 0 <= j < |ids| ensures ids[j] != id { assert ids[j] in Elements(ids); }
  }

  /** With evidence, the rows the evidence supports come first, exactly as if there were no
      other streams; after them come rows of the fallback ranking, exactly those whose id
      the evidence lacks, in the order of that ranking. Each id comes once. */
  lemma FallbackOnlyAppends(streams: seq<RankedStream>)
    requires Pick(streams, true) != []
    ensures var out := FuseQuery(streams); var lead := FuseRrf(Pick(streams, true));
            && lead <= out
            && Elements(Mapped(RowId, lead)) == Ids(Hits(Pick(streams, true)))
            && Elements(Mapped(RowId, out[|lead|..])) ==
                 Ids(Hits(Pick(streams, false))) - Ids(Hits(Pick(streams, true)))
            && NoDuplicates(Mapped(RowId, lead)) && NoDuplicates(Mapped(RowId, out[|lead|..]))
            && Subsequence(out[|lead|..], FuseRrf(Pick(streams, false))) && Ordered(out[|lead|..])
  {
    hide FuseRrf, Pick, Hits, Unseen, RowOk, Precedes, Subsequence;
    FusionRanks(Pick(streams, true));
    FusionRanks(Pick(streams, false));
    var lead := FuseRrf(Pick(streams, true));
    UnseenRows(FuseRrf(Pick(streams, false)), Elements(Mapped(RowId, lead)));
    var tail := Unseen(FuseRrf(Pick(streams, false)), Elements(Mapped(RowId, lead)));
    assert (lead + tail)[|lead|..] == tail;
    UnseenIsSubsequence(FuseRrf(Pick(streams, false)), Elements(Mapped(RowId, lead)));
    SubsequenceIsOrdered(tail, FuseRrf(Pick(streams, false)));
  }

  lemma {:induction false} PickSplit(a: seq<RankedStream>, b: seq<RankedStream>, evidence: bool)
    ensures Pick(a + b, evidence) == Pick(a, evidence) + Pick(b, evidence)
    decreases |b|
  {
    hide IsEvidence;
    if b == [] {
      assert a + b == a && Pick(a, evidence) + [] == Pick(a, evidence);
    } else {
      var n := |b| - 1;
      assert (a + b)[..|a| + n] == a + b[..n] && (a + b)[|a| + n] == b[n];
      PickSplit(a, b[..n], evidence);
      var last := if IsEvidence(b[n].name) == evidence && b[n].candidates != [] then [b[n]] else [];
      assert Pick(b, evidence) == Pick(b[..n], evidence) + last;
      assert Pick(a, evidence) + (Pick(b[..n], evidence) + last) == (Pick(a, evidence) + Pick(b[..n], evidence)) + last;
    }
  }

  lemma {:induction false} NoneToPick(streams: seq<RankedStream>)
    requires forall s | s in streams :: !IsEvidence(s.name)
    ensures Pick(streams, true) == []
  {
    if streams != [] {
      assert streams[|streams| - 1] in streams;
      NoneToPick(streams[..|streams| - 1]);
    }
  }

  /** Adding fallback streams anywhere leaves the evidence-backed rows, their scores and
      their order as they were. */
  lemma AddingFallbackKeepsEvidence(a: seq<RankedStream>, extra: seq<RankedStream>, b: seq<RankedStream>)
    requires Pick(a + b, true) != [] && forall s | s in extra :: !IsEvidence(s.name)
    ensures var lead := FuseRrf(Pick(a + b, true));
            lead <= FuseQuery(a + b) && lead <= FuseQuery(a + extra + b)
  {
    hide FuseRrf, Pick, Unseen;
    PickSplit(a, b, true);
    PickSplit(a + extra, b, true);
    PickSplit(a, extra, true);
    NoneToPick(extra);
    assert Pick(a, true) + [] == Pick(a, true);
  }
}
