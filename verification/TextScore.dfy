/** Scoring a query against one field or all fields of the inverted text index
    (crates/tracedb-index/src/lib.rs), over the reals; `ln` stands for the logarithm. */
module TextScore {
  import opened Ordering
  import opened TextIndex

  datatype Scored = Scored(recordId: string, score: real)

  // ---------------------------------------------------------------- BM25

  ghost predicate Logarithm(ln: real -> real)
  {
    forall x: real | x > 1.0 :: ln(x) > 0.0
  }

  function Denominator(freq: nat, docLen: nat, avgLen: real): (d: real)
    ensures d >= freq as real && d > 0.0
  {
    var norm := if avgLen < 1.0 then 1.0 else avgLen;
    assert docLen as real / norm >= 0.0 && 0.75 * docLen as real / norm == 0.75 * (docLen as real / norm);
    freq as real + 1.5 * (1.0 - 0.75 + 0.75 * docLen as real / norm)
  }

  function Idf(ln: real -> real, docCount: nat, docFreq: nat): real
  {
    ln((docCount as real - docFreq as real + 0.5) / (docFreq as real + 0.5) + 1.0)
  }

  function Gain(ln: real -> real, freq: nat, docLen: nat, docCount: nat, avgLen: real, docFreq: nat): real
  {
    if freq == 0 then 0.0
    else Idf(ln, docCount, docFreq) * (freq as real * (1.5 + 1.0)) / Denominator(freq, docLen, avgLen)
  }

  function Count(m: map<string, nat>, t: string): nat
  {
    if t in m then m[t] else 0
  }

  function Bm25(ln: real -> real, terms: seq<string>, tf: map<string, nat>, docLen: nat, docCount: nat, avgLen: real,
                df: map<string, nat>): real
  {
    if terms == [] then 0.0 else
    var init, t := terms[..|terms| - 1], terms[|terms| - 1];
    Bm25(ln, init, tf, docLen, docCount, avgLen, df) + Gain(ln, Count(tf, t), docLen, docCount, avgLen, Count(df, t))
  }

  method Bm25FromTermFrequency(ln: real -> real, terms: seq<string>, tf: map<string, nat>, docLen: nat, docCount: nat,
                               avgLen: real, df: map<string, nat>) returns (score: real)
    ensures score == Bm25(ln, terms, tf, docLen, docCount, avgLen, df)
  {
    hide Gain;
    score := 0.0;
    for i := 0 to |terms|
      invariant score == Bm25(ln, terms[..i], tf, docLen, docCount, avgLen, df)
    {
      assert terms[..i + 1][..i] == terms[..i];
      var freq := Count(tf, terms[i]);
      var docFreq := Count(df, terms[i]);
      NoGain(ln, docLen, docCount, avgLen, docFreq);
      if freq == 0 { continue; }
      score := score + Gain(ln, freq, docLen, docCount, avgLen, docFreq);
    }
    assert terms[..|terms|] == terms;
  }

  lemma Quotient(a: real, b: real)
    requires a >= 0.0 && b > 0.0
    ensures a / b >= 0.0 && (a > 0.0 ==> a / b > 0.0)
  {
  }

  lemma Product(a: real, b: real)
    requires a > 0.0 && b > 0.0
    ensures a * b > 0.0
  {
  }

  lemma GainIsPositive(ln: real -> real, freq: nat, docLen: nat, docCount: nat, avgLen: real, docFreq: nat)
    requires Logarithm(ln) && docFreq <= docCount && freq > 0
    ensures Gain(ln, freq, docLen, docCount, avgLen, docFreq) > 0.0
  {
    Quotient(docCount as real - docFreq as real + 0.5, docFreq as real + 0.5);
    var idf := Idf(ln, docCount, docFreq);
    assert idf > 0.0;
    Product(idf, freq as real * (1.5 + 1.0));
    Quotient(idf * (freq as real * (1.5 + 1.0)), Denominator(freq, docLen, avgLen));
  }

  lemma {:induction false} Bm25IsPositive(ln: real -> real, terms: seq<string>, tf: map<string, nat>, docLen: nat,
                                          docCount: nat, avgLen: real, df: map<string, nat>)
    requires Logarithm(ln) && forall t | t in terms :: Count(df, t) <= docCount
    ensures Bm25(ln, terms, tf, docLen, docCount, avgLen, df) >= 0.0
    ensures (exists t :: t in terms && Count(tf, t) > 0) ==> Bm25(ln, terms, tf, docLen, docCount, avgLen, df) > 0.0
    decreases |terms|
  {
    hide Logarithm, Gain;
    if terms != [] {
      var init, t := terms[..|terms| - 1], terms[|terms| - 1];
      assert terms == init + [t];
      Bm25IsPositive(ln, init, tf, docLen, docCount, avgLen, df);
      if Count(tf, t) > 0 {
        GainIsPositive(ln, Count(tf, t), docLen, docCount, avgLen, Count(df, t));
      } else {
        NoGain(ln, docLen, docCount, avgLen, Count(df, t));
      }
    }
  }

  lemma NoGain(ln: real -> real, docLen: nat, docCount: nat, avgLen: real, docFreq: nat)
    ensures Gain(ln, 0, docLen, docCount, avgLen, docFreq) == 0.0
  {
  }

  // ---------------------------------------------------------------- the reference

  function Frequency(r: IndexRecord, field: string, t: string): nat
  {
    multiset(Tokens(r, field))[t]
  }

  /** The number of records whose field has the term. */
  function DocFreq(records: seq<IndexRecord>, field: string, t: string): nat
  {
    if records == [] then 0
    else DocFreq(records[..|records| - 1], field, t) + if t in Tokens(records[|records| - 1], field) then 1 else 0
  }

  /** The relevance of one record, from the records alone. */
  function Relevance(ln: real -> real, records: seq<IndexRecord>, field: string, terms: seq<string>,
                     r: IndexRecord): real
  {
    if terms == [] then 0.0 else
    var init, t := terms[..|terms| - 1], terms[|terms| - 1];
    Relevance(ln, records, field, init, r) +
    Gain(ln, Frequency(r, field, t), |Tokens(r, field)|, |records|, Average(TotalLength(records), |records|),
         DocFreq(records, field, t))
  }

  predicate Matches(r: IndexRecord, field: string, terms: seq<string>)
  {
    exists t :: t in terms && t in Tokens(r, field)
  }

  /** The fields a query looks at: the one it names, or all. */
  function FieldsOf(records: seq<IndexRecord>, field: Option<string>): set<string>
  {
    if field.Some? then {field.value} else set i, f | 0 <= i < |records| && f in records[i].text :: f
  }

  predicate MatchesAny(r: IndexRecord, fields: set<string>, terms: seq<string>)
  {
    exists f :: f in fields && Matches(r, f, terms)
  }

  /** The ids of the records that hold a query term in one of the fields. */
  ghost function Matching(records: seq<IndexRecord>, fields: set<string>, terms: seq<string>): set<string>
  {
    set i | 0 <= i < |records| && MatchesAny(records[i], fields, terms) :: records[i].recordId
  }

  // ---------------------------------------------------------------- postings of one term

  function List(postings: Postings, field: string, t: string): seq<Posting>
  {
    Lookup(postings, PostingKey(field, t))
  }

  lemma {:induction false} PostingsCount(records: seq<IndexRecord>, field: string, t: string)
    requires NulFree(t)
    ensures |PostingsFor(records, PostingKey(field, t))| == DocFreq(records, field, t) <= |records|
  {
    hide PostingKey, IsKey, FieldOf, TermOf, NulFree, Tokens;
    if records != [] {
      KeyDecodes(field, t);
      PostingsCount(records[..|records| - 1], field, t);
    }
  }

  /** Some record with this id has the term this often in a field of this length. */
  ghost predicate HeldIn(records: seq<IndexRecord>, field: string, id: string, t: string, freq: nat, len: nat)
  {
    exists i :: 0 <= i < |records| && HeldAt(records[i], field, id, t, freq, len)
  }

  /** The same for one of these fields. */
  ghost predicate Held(records: seq<IndexRecord>, fields: seq<string>, id: string, t: string, freq: nat, len: nat)
  {
    exists f :: f in fields && HeldIn(records, f, id, t, freq, len)
  }

  predicate HeldAt(r: IndexRecord, field: string, id: string, t: string, freq: nat, len: nat)
  {
    r.recordId == id && t in Tokens(r, field) && Frequency(r, field, t) == freq && |Tokens(r, field)| == len
  }

  lemma PostingForIs(r: IndexRecord, field: string, t: string)
    requires NulFree(t)
    ensures PostingFor(r, PostingKey(field, t)) ==
            if t in Tokens(r, field) then [Posting(r.recordId, Frequency(r, field, t), |Tokens(r, field)|)] else []
  {
    hide PostingKey, IsKey, FieldOf, TermOf, NulFree, Tokens;
    KeyDecodes(field, t);
  }

  lemma {:induction false} PostingsAreHeld(records: seq<IndexRecord>, field: string, t: string, p: Posting)
    requires NulFree(t) && p in PostingsFor(records, PostingKey(field, t))
    ensures HeldIn(records, field, p.recordId, t, p.termFrequency, p.docLen)
    decreases |records|
  {
    hide PostingKey, PostingFor, Tokens, NulFree, HeldAt;
    var init, r := records[..|records| - 1], records[|records| - 1];
    PostingForIs(r, field, t);
    if p in PostingsFor(init, PostingKey(field, t)) {
      PostingsAreHeld(init, field, t, p);
      var i :| 0 <= i < |init| && HeldAt(init[i], field, p.recordId, t, p.termFrequency, p.docLen);
      assert records[i] == init[i];
    } else {
      assert HeldAt(r, field, p.recordId, t, p.termFrequency, p.docLen) by { RowHeld(r, field, t); }
    }
  }

  lemma RowHeld(r: IndexRecord, field: string, t: string)
    ensures t in Tokens(r, field) ==> HeldAt(r, field, r.recordId, t, Frequency(r, field, t), |Tokens(r, field)|)
  {
  }

  lemma {:induction false} HeldHasPosting(records: seq<IndexRecord>, field: string, t: string, i: nat)
    requires NulFree(t) && i < |records| && t in Tokens(records[i], field)
    ensures exists p :: p in PostingsFor(records, PostingKey(field, t)) && p.recordId == records[i].recordId
    decreases |records|
  {
    hide PostingKey, PostingFor, Tokens, NulFree;
    var n := |records| - 1;
    PostingForIs(records[n], field, t);
    if i < n {
      HeldHasPosting(records[..n], field, t, i);
      var p :| p in PostingsFor(records[..n], PostingKey(field, t)) && p.recordId == records[i].recordId;
      assert p in PostingsFor(records, PostingKey(field, t));
    } else {
      var p := PostingFor(records[n], PostingKey(field, t))[0];
      assert p in PostingsFor(records, PostingKey(field, t));
    }
  }

  // ---------------------------------------------------------------- gathering frequencies

  datatype Gathered = Gathered(tf: map<string, map<string, nat>>, len: map<string, nat>, df: map<string, nat>)

  function Note(g: Gathered, t: string, p: Posting): Gathered
  {
    var seen := if p.recordId in g.tf then g.tf[p.recordId] else map[];
    g.(tf := g.tf[p.recordId := seen[t := p.termFrequency]], len := g.len[p.recordId := p.docLen])
  }

  /** Everything gathered comes from a record. */
  ghost predicate DocSound(counts: map<string, nat>, len: nat, records: seq<IndexRecord>, fields: seq<string>,
                           terms: seq<string>, id: string)
  {
    && counts != map[]
    && (forall t | t in counts :: t in terms && exists n :: Held(records, fields, id, t, counts[t], n))
    && (exists t, n :: Held(records, fields, id, t, n, len))
  }

  ghost predicate Sound(g: Gathered, records: seq<IndexRecord>, fields: seq<string>, terms: seq<string>)
  {
    g.tf.Keys == g.len.Keys && forall id | id in g.tf :: DocSound(g.tf[id], g.len[id], records, fields, terms, id)
  }

  ghost predicate Noted(g: Gathered, t: string, p: Posting)
  {
    p.recordId in g.tf && t in g.tf[p.recordId]
  }

  ghost predicate Covers(g: Gathered, t: string, ps: seq<Posting>)
  {
    forall i | 0 <= i < |ps| :: Noted(g, t, ps[i])
  }

  /** What was noted stays noted. */
  ghost predicate Grew(g: Gathered, h: Gathered)
  {
    forall id | id in g.tf :: id in h.tf && g.tf[id].Keys <= h.tf[id].Keys
  }

  lemma GrewCovers(g: Gathered, h: Gathered, t: string, ps: seq<Posting>)
    requires Grew(g, h) && Covers(g, t, ps)
    ensures Covers(h, t, ps)
  {
    forall i | 0 <= i < |ps| ensures Noted(h, t, ps[i]) { assert Noted(g, t, ps[i]); }
  }

  lemma GrewOn(a: Gathered, b: Gathered, c: Gathered)
    requires Grew(a, b) && Grew(b, c)
    ensures Grew(a, c)
  {
  }

  lemma NoteGrows(g: Gathered, t: string, p: Posting)
    ensures Grew(g, Note(g, t, p)) && Noted(Note(g, t, p), t, p) && Note(g, t, p).df == g.df
  {
  }

  lemma NoteIsSound(g: Gathered, t: string, p: Posting, records: seq<IndexRecord>, fields: seq<string>,
                    terms: seq<string>)
    requires Sound(g, records, fields, terms) && t in terms
    requires Held(records, fields, p.recordId, t, p.termFrequency, p.docLen)
    ensures Sound(Note(g, t, p), records, fields, terms)
  {
    hide Held;
    var h, id := Note(g, t, p), p.recordId;
    assert id in g.tf ==> DocSound(g.tf[id], g.len[id], records, fields, terms, id);
    forall u | u in h.tf[id] ensures u in terms && exists n :: Held(records, fields, id, u, h.tf[id][u], n) {
      if u == t { assert Held(records, fields, id, u, h.tf[id][u], p.docLen); }
    }
    assert t in h.tf[id];
    assert DocSound(h.tf[id], h.len[id], records, fields, terms, id);
    forall x | x in h.tf ensures DocSound(h.tf[x], h.len[x], records, fields, terms, x) {
      if x != id { assert DocSound(g.tf[x], g.len[x], records, fields, terms, x); }
    }
  }

  function Counted(df: map<string, nat>, t: string, list: seq<Posting>): map<string, nat>
  {
    if list == [] then df else df[t := |list|]
  }

  /** One term in one field: its document frequency, and its frequency in each record. */
  method GatherTerm(g: Gathered, ghost records: seq<IndexRecord>, postings: Postings, ghost fields: seq<string>,
                    field: string, terms: seq<string>, t: string) returns (h: Gathered)
    requires Sound(g, records, fields, terms) && Exact(postings, records)
    requires t in terms && NulFree(t) && field in fields
    ensures Sound(h, records, fields, terms) && Grew(g, h) && Covers(h, t, List(postings, field, t))
    ensures h.df == Counted(g.df, t, List(postings, field, t))
  {
    hide Sound, Covers, NulFree, PostingKey, Note, PostingsFor, Held, HeldIn, Grew, Noted;
    var key := PostingKey(field, t);
    ListIs(records, postings, field, t);
    GrewNot(g, g);
    if key !in postings {
      h := g;
      NothingCovered(h, t, List(postings, field, t));
      return;
    }
    var list := postings[key];
    assert list != [];
    hide Exact;
    h := g.(df := g.df[t := |list|]);
    SameSound(g, h, records, fields, terms);
    GrewNot(g, h);
    NothingCovered(h, t, list[..0]);
    for i := 0 to |list|
      invariant Sound(h, records, fields, terms) && Grew(g, h)
      invariant Covers(h, t, list[..i]) && h.df == g.df[t := |list|]
    {
      var p := list[i];
      PostingsAreHeld(records, field, t, p);
      HeldWiden(records, fields, field, p.recordId, t, p.termFrequency, p.docLen);
      NoteIsSound(h, t, p, records, fields, terms);
      NoteGrows(h, t, p);
      GrewOn(g, h, Note(h, t, p));
      GrewCovers(h, Note(h, t, p), t, list[..i]);
      CoverOneMore(Note(h, t, p), t, list, i);
      h := Note(h, t, p);
    }
    assert list[..|list|] == list;
  }

  lemma HeldWiden(records: seq<IndexRecord>, fields: seq<string>, field: string, id: string, t: string, freq: nat,
                  len: nat)
    requires HeldIn(records, field, id, t, freq, len) && field in fields
    ensures Held(records, fields, id, t, freq, len)
  {
    hide HeldIn;
  }

  lemma GrewNot(g: Gathered, h: Gathered)
    requires h.tf == g.tf
    ensures Grew(g, h)
  {
  }

  lemma ListIs(records: seq<IndexRecord>, postings: Postings, field: string, t: string)
    requires Exact(postings, records)
    ensures List(postings, field, t) == PostingsFor(records, PostingKey(field, t))
  {
    assert Lookup(postings, PostingKey(field, t)) == PostingsFor(records, PostingKey(field, t));
  }

  lemma NothingCovered(g: Gathered, t: string, ps: seq<Posting>)
    ensures ps == [] ==> Covers(g, t, ps)
  {
  }

  lemma SameSound(g: Gathered, h: Gathered, records: seq<IndexRecord>, fields: seq<string>, terms: seq<string>)
    requires Sound(g, records, fields, terms) && h.tf == g.tf && h.len == g.len
    ensures Sound(h, records, fields, terms)
  {
  }

  lemma CoverOneMore(g: Gathered, t: string, ps: seq<Posting>, i: nat)
    requires i < |ps| && Covers(g, t, ps[..i]) && Noted(g, t, ps[i])
    ensures Covers(g, t, ps[..i + 1])
  {
    var longer := ps[..i + 1];
    forall j | 0 <= j < |longer| ensures Noted(g, t, longer[j]) {
      if j < i { assert Noted(g, t, ps[..i][j]); }
    }
  }

  /** Every posting of these terms in the field is noted. */
  ghost predicate AllCovered(g: Gathered, postings: Postings, field: string, done: set<string>)
  {
    forall t | t in done :: Covers(g, t, List(postings, field, t))
  }

  /** The document frequencies are those of one field. */
  ghost predicate DfExact(df: map<string, nat>, postings: Postings, field: string, done: set<string>)
  {
    df.Keys <= done && forall t | t in done :: Count(df, t) == |List(postings, field, t)|
  }

  ghost predicate DfBounded(df: map<string, nat>, n: nat)
  {
    forall t | t in df :: df[t] <= n
  }

  lemma CoverMore(g: Gathered, h: Gathered, postings: Postings, field: string, done: set<string>, t: string)
    requires AllCovered(g, postings, field, done) && Grew(g, h) && Covers(h, t, List(postings, field, t))
    ensures AllCovered(h, postings, field, done + {t})
  {
    hide Covers, List, Grew;
    forall u | u in done + {t} ensures Covers(h, u, List(postings, field, u)) {
      if u in done { GrewCovers(g, h, u, List(postings, field, u)); }
    }
  }

  lemma CoverStays(g: Gathered, h: Gathered, postings: Postings, field: string, done: set<string>)
    requires AllCovered(g, postings, field, done) && Grew(g, h)
    ensures AllCovered(h, postings, field, done)
  {
    hide Covers, List, Grew;
    forall u | u in done ensures Covers(h, u, List(postings, field, u)) {
      GrewCovers(g, h, u, List(postings, field, u));
    }
  }

  lemma CountMore(df: map<string, nat>, records: seq<IndexRecord>, postings: Postings, field: string,
                  done: set<string>, t: string)
    requires Exact(postings, records) && NulFree(t) && DfBounded(df, |records|) && t !in done
    ensures var more := Counted(df, t, List(postings, field, t));
            DfBounded(more, |records|) &&
                (DfExact(df, postings, field, done) ==> DfExact(more, postings, field, done + {t}))
  {
    hide NulFree, PostingKey, PostingsFor, Exact;
    ListIs(records, postings, field, t);
    PostingsCount(records, field, t);
  }

  /** All terms in one field. */
  method GatherField(g: Gathered, ghost records: seq<IndexRecord>, postings: Postings, ghost fields: seq<string>,
                     field: string, terms: seq<string>) returns (h: Gathered)
    requires Sound(g, records, fields, terms) && Exact(postings, records) && DfBounded(g.df, |records|)
    requires field in fields && forall t | t in terms :: NulFree(t)
    ensures Sound(h, records, fields, terms) && Grew(g, h) && AllCovered(h, postings, field, Elements(terms))
    ensures DfBounded(h.df, |records|) && (g.df == map[] ==> DfExact(h.df, postings, field, Elements(terms)))
  {
    hide Sound, Exact, NulFree, Elements, NoDuplicates, InOrder, AllCovered, Grew, Counted, List;
    var distinct := InOrder(Elements(terms));
    InOrderAscends(Elements(terms));
    NoElements(distinct[..0]);
    NothingYet(g, postings, field);
    hide DfExact, DfBounded, Covers;
    h := g;
    for i := 0 to |distinct|
      invariant Sound(h, records, fields, terms) && Grew(g, h) &&
                AllCovered(h, postings, field, Elements(distinct[..i]))
      invariant DfBounded(h.df, |records|) &&
                (g.df == map[] ==> DfExact(h.df, postings, field, Elements(distinct[..i])))
    {
      TakeOne(distinct, i);
      ElementIn(terms, distinct[i]);
      var next := GatherTerm(h, records, postings, fields, field, terms, distinct[i]);
      GrewOn(g, h, next);
      CoverMore(h, next, postings, field, Elements(distinct[..i]), distinct[i]);
      CountMore(h.df, records, postings, field, Elements(distinct[..i]), distinct[i]);
      h := next;
    }
    assert distinct[..|distinct|] == distinct;
  }

  lemma NothingYet(g: Gathered, postings: Postings, field: string)
    ensures AllCovered(g, postings, field, {}) && Grew(g, g) && (g.df == map[] ==> DfExact(g.df, postings, field, {}))
  {
  }

  ghost predicate FieldsCovered(g: Gathered, postings: Postings, fields: seq<string>, terms: seq<string>)
  {
    forall i | 0 <= i < |fields| :: AllCovered(g, postings, fields[i], Elements(terms))
  }

  /** All terms in all fields. */
  method Gather(ghost records: seq<IndexRecord>, postings: Postings, fields: seq<string>, terms: seq<string>)
    returns (g: Gathered)
    requires Exact(postings, records) && forall t | t in terms :: NulFree(t)
    ensures Sound(g, records, fields, terms) && FieldsCovered(g, postings, fields, terms) && DfBounded(g.df, |records|)
    ensures |fields| == 1 ==> DfExact(g.df, postings, fields[0], Elements(terms))
  {
    hide Exact, NulFree, Elements, AllCovered, Grew, DfExact;
    g := Gathered(map[], map[], map[]);
    NothingGathered(g, records, fields, terms);
    hide Sound;
    for i := 0 to |fields|
      invariant Sound(g, records, fields, terms) && FieldsCovered(g, postings, fields[..i], terms) &&
                DfBounded(g.df, |records|)
      invariant i == 0 ==> g.df == map[]
      invariant i == 1 ==> DfExact(g.df, postings, fields[0], Elements(terms))
    {
      var next := GatherField(g, records, postings, fields, fields[i], terms);
      var longer := fields[..i + 1];
      forall k | 0 <= k < |longer| ensures AllCovered(next, postings, longer[k], Elements(terms)) {
        if k < i {
          assert AllCovered(g, postings, fields[..i][k], Elements(terms));
          CoverStays(g, next, postings, fields[..i][k], Elements(terms));
        }
      }
      g := next;
    }
    assert fields[..|fields|] == fields;
  }

  lemma ElementIn(q: seq<string>, x: string)
    ensures x in Elements(q) <==> x in q
  {
  }

  lemma NothingGathered(g: Gathered, records: seq<IndexRecord>, fields: seq<string>, terms: seq<string>)
    requires g == Gathered(map[], map[], map[])
    ensures Sound(g, records, fields, terms)
  {
  }

  // ---------------------------------------------------------------- the ranking

  predicate Higher(scores: map<string, real>, a: string, b: string)
  {
    a in scores && b in scores && (scores[a] > scores[b] || (scores[a] == scores[b] && Less(a, b)))
  }

  lemma HigherIsTotal(scores: map<string, real>)
    ensures TotalOn((a, b) => Higher(scores, a, b), scores.Keys)
  {
    LessIsTotal(scores.Keys);
  }

  function RowId(row: Scored): string { row.recordId }

  predicate Above(a: Scored, b: Scored)
  {
    a.score > b.score || (a.score == b.score && Less(a.recordId, b.recordId))
  }

  /** Collected in id order and sorted by score with a stable sort: score, then id. */
  function Ranking(scores: map<string, real>): (out: seq<Scored>)
    ensures |out| == |scores|
  {
    HigherIsTotal(scores);
    var ids := SortedBy((a, b) => Higher(scores, a, b), scores.Keys);
    seq(|ids|, i requires 0 <= i < |ids| => assert ids[i] in Elements(ids); Scored(ids[i], scores[ids[i]]))
  }

  lemma RankingRanks(scores: map<string, real>)
    ensures var out := Ranking(scores);
            && NoDuplicates(Mapped(RowId, out)) && Elements(Mapped(RowId, out)) == scores.Keys
            && (forall i | 0 <= i < |out| :: out[i].recordId in scores && out[i].score == scores[out[i].recordId])
            && (forall i, j | 0 <= i < j < |out| :: Above(out[i], out[j]))
  {
    hide Less, TotalOn;
    HigherIsTotal(scores);
    var lt := (a, b) => Higher(scores, a, b);
    var ids := SortedBy(lt, scores.Keys);
    SortedByAscends(lt, scores.Keys);
    var out := Ranking(scores);
    forall i | 0 <= i < |out| ensures ids[i] in scores && out[i] == Scored(ids[i], scores[ids[i]]) {
      assert ids[i] in Elements(ids);
    }
    assert Mapped(RowId, out) == ids;
    forall i, j | 0 <= i < j < |out| ensures Above(out[i], out[j]) { assert lt(ids[i], ids[j]); }
  }

  ghost predicate DistinctIds(records: seq<IndexRecord>)
  {
    forall i, j | 0 <= i < j < |records| :: records[i].recordId != records[j].recordId
  }

  /** A row carries the relevance of the record with its id. */
  ghost predicate RowIsRelevance(ln: real -> real, records: seq<IndexRecord>, field: string, terms: seq<string>,
                                 id: string, score: real)
  {
    forall i | 0 <= i < |records| && records[i].recordId == id :: score ==
        Relevance(ln, records, field, terms, records[i])
  }

  ghost predicate GatheredAll(g: Gathered, a: Artifact, records: seq<IndexRecord>, fields: seq<string>,
                              terms: seq<string>)
  {
    && Indexes(a, records) && (forall t | t in terms :: NulFree(t)) && Sound(g, records, fields, terms)
    && FieldsCovered(g, a.postings, fields, terms) && DfBounded(g.df, |records|)
  }

  lemma PostingsCovered(g: Gathered, a: Artifact, records: seq<IndexRecord>, fields: seq<string>, terms: seq<string>,
                        field: string, t: string)
    requires GatheredAll(g, a, records, fields, terms) && t in terms && field in fields
    ensures Covers(g, t, PostingsFor(records, PostingKey(field, t)))
  {
    hide Sound, Covers, NulFree, PostingKey, PostingsFor;
    assert t in Elements(terms);
    ListIs(records, a.postings, field, t);
    var i :| 0 <= i < |fields| && fields[i] == field;
    assert AllCovered(g, a.postings, fields[i], Elements(terms));
  }

  lemma DocFreqs(g: Gathered, a: Artifact, records: seq<IndexRecord>, field: string, terms: seq<string>, t: string)
    requires GatheredAll(g, a, records, [field], terms) && t in terms &&
             DfExact(g.df, a.postings, field, Elements(terms))
    ensures Count(g.df, t) == DocFreq(records, field, t)
  {
    hide Sound, NulFree, PostingKey, PostingsFor, DocFreq, FieldsCovered;
    assert t in Elements(terms);
    ListIs(records, a.postings, field, t);
    PostingsCount(records, field, t);
  }

  predicate HeldOnce(r: IndexRecord, field: string, id: string, t: string, freq: nat)
  {
    r.recordId == id && t in Tokens(r, field) && Frequency(r, field, t) == freq
  }

  /** A gathered count is some record's own, in one of the fields. */
  lemma HeldCounts(counts: map<string, nat>, len: nat, records: seq<IndexRecord>, fields: seq<string>,
                   terms: seq<string>, id: string, t: string) returns (i: nat, f: string)
    requires DocSound(counts, len, records, fields, terms, id) && t in counts
    ensures t in terms && counts[t] > 0
    ensures i < |records| && f in fields && HeldOnce(records[i], f, id, t, counts[t])
  {
    hide Tokens;
    var n :| Held(records, fields, id, t, counts[t], n);
    f :| f in fields && HeldIn(records, f, id, t, counts[t], n);
    i :| 0 <= i < |records| && HeldAt(records[i], f, id, t, counts[t], n);
  }

  lemma SomeCount(counts: map<string, nat>, len: nat, records: seq<IndexRecord>, fields: seq<string>,
                  terms: seq<string>, id: string)
    returns (t: string)
    requires DocSound(counts, len, records, fields, terms, id)
    ensures t in terms && Count(counts, t) > 0
  {
    t :| t in counts;
    hide DocSound;
    var i, f := HeldCounts(counts, len, records, fields, terms, id, t);
  }

  lemma GatheredHasTerm(g: Gathered, records: seq<IndexRecord>, fields: seq<string>, terms: seq<string>, id: string)
    requires Sound(g, records, fields, terms) && id in g.tf
    ensures id in g.len && exists t :: t in terms && Count(g.tf[id], t) > 0
  {
    hide DocSound, Count;
    assert id in g.len.Keys;
    var t := SomeCount(g.tf[id], g.len[id], records, fields, terms, id);
  }

  /** Every gathered record scores above zero. */
  lemma GatheredScores(ln: real -> real, g: Gathered, a: Artifact, records: seq<IndexRecord>, fields: seq<string>,
                       terms: seq<string>, id: string)
    requires GatheredAll(g, a, records, fields, terms) && Logarithm(ln) && id in g.tf
    ensures id in g.len && Bm25(ln, terms, g.tf[id], g.len[id], a.docCount, a.avgLen, g.df) > 0.0
  {
    hide Logarithm, Bm25, FieldsCovered, NulFree, Sound, Exact;
    assert forall t | t in terms :: Count(g.df, t) <= a.docCount;
    GatheredHasTerm(g, records, fields, terms, id);
    Bm25IsPositive(ln, terms, g.tf[id], g.len[id], a.docCount, a.avgLen, g.df);
  }

  /** The gathered ids are those of the matching records. */
  lemma GatheredMatches(g: Gathered, a: Artifact, records: seq<IndexRecord>, fields: seq<string>, terms: seq<string>)
    requires GatheredAll(g, a, records, fields, terms)
    ensures g.tf.Keys == Matching(records, Elements(fields), terms)
  {
    hide Indexes, FieldsCovered, Tokens, NulFree, DocSound, DfBounded;
    forall id | id in g.tf ensures id in Matching(records, Elements(fields), terms) {
      assert DocSound(g.tf[id], g.len[id], records, fields, terms, id);
      DocMatches(g.tf[id], g.len[id], records, fields, terms, id);
    }
    hide Sound;
    forall id | id in Matching(records, Elements(fields), terms) ensures id in g.tf {
      var i :| 0 <= i < |records| && MatchesAny(records[i], Elements(fields), terms) && records[i].recordId == id;
      var f :| f in Elements(fields) && Matches(records[i], f, terms);
      var t :| t in terms && t in Tokens(records[i], f);
      GatheredTerm(g, a, records, fields, terms, f, t, i);
    }
  }

  lemma DocMatches(counts: map<string, nat>, len: nat, records: seq<IndexRecord>, fields: seq<string>,
                   terms: seq<string>, id: string)
    requires DocSound(counts, len, records, fields, terms, id)
    ensures id in Matching(records, Elements(fields), terms)
  {
    hide Tokens;
    var t :| t in counts;
    hide DocSound;
    var i, f := HeldCounts(counts, len, records, fields, terms, id, t);
    assert Matches(records[i], f, terms);
    assert f in Elements(fields);
    assert MatchesAny(records[i], Elements(fields), terms);
  }

  lemma GatheredTerm(g: Gathered, a: Artifact, records: seq<IndexRecord>, fields: seq<string>, terms: seq<string>,
                     field: string, t: string, i: nat)
    requires GatheredAll(g, a, records, fields, terms) && t in terms && field in fields
    requires i < |records| && t in Tokens(records[i], field)
    ensures records[i].recordId in g.tf && t in g.tf[records[i].recordId]
  {
    hide Sound, Indexes, FieldsCovered, Tokens, PostingsFor, PostingKey, NulFree, DfBounded;
    PostingsCovered(g, a, records, fields, terms, field, t);
    HeldHasPosting(records, field, t, i);
    var ps := PostingsFor(records, PostingKey(field, t));
    var p :| p in ps && p.recordId == records[i].recordId;
    var k :| 0 <= k < |ps| && ps[k] == p;
    assert Noted(g, t, ps[k]);
  }

  lemma SameRecord(records: seq<IndexRecord>, i: nat, j: nat)
    requires DistinctIds(records) && i < |records| && j < |records| && records[i].recordId == records[j].recordId
    ensures i == j
  {
  }

  lemma HeldLength(counts: map<string, nat>, len: nat, records: seq<IndexRecord>, field: string, terms: seq<string>,
                   id: string)
    returns (i: nat)
    requires DocSound(counts, len, records, [field], terms, id)
    ensures i < |records| && records[i].recordId == id && |Tokens(records[i], field)| == len
  {
    hide Tokens, Frequency;
    var t, n :| Held(records, [field], id, t, n, len);
    hide DocSound;
    var f :| f in [field] && HeldIn(records, f, id, t, n, len);
    i :| 0 <= i < |records| && HeldAt(records[i], f, id, t, n, len);
  }

  lemma GatheredLength(g: Gathered, records: seq<IndexRecord>, field: string, terms: seq<string>, i: nat)
    requires Sound(g, records, [field], terms) && DistinctIds(records) && i < |records| && records[i].recordId in g.tf
    ensures var id := records[i].recordId;
            && id in g.len && g.len[id] == |Tokens(records[i], field)|
            && DocSound(g.tf[id], g.len[id], records, [field], terms, id)
  {
    hide Tokens, DistinctIds, DocSound;
    var id := records[i].recordId;
    assert id in g.len.Keys;
    var j := HeldLength(g.tf[id], g.len[id], records, field, terms, id);
    SameRecord(records, i, j);
  }

  /** In one field, with distinct ids, a gathered record has its own counts and length. */
  lemma GatheredCounts(g: Gathered, a: Artifact, records: seq<IndexRecord>, field: string, terms: seq<string>, i: nat)
    requires GatheredAll(g, a, records, [field], terms) && DistinctIds(records) && i < |records| &&
             records[i].recordId in g.tf
    ensures var id := records[i].recordId;
            && id in g.len && g.len[id] == |Tokens(records[i], field)|
            && forall t | t in terms :: Count(g.tf[id], t) == Frequency(records[i], field, t)
  {
    hide Indexes, FieldsCovered, Tokens, NulFree, Sound, DistinctIds, DocSound, DfBounded;
    var id := records[i].recordId;
    GatheredLength(g, records, field, terms, i);
    forall t | t in terms ensures Count(g.tf[id], t) == Frequency(records[i], field, t) {
      if t in g.tf[id] {
        var k, f := HeldCounts(g.tf[id], g.len[id], records, [field], terms, id, t);
        SameRecord(records, i, k);
      } else if t in Tokens(records[i], field) {
        GatheredTerm(g, a, records, [field], terms, field, t, i);
      }
    }
  }

  lemma {:induction false} SameRelevance(ln: real -> real, records: seq<IndexRecord>, field: string,
                                         terms: seq<string>, r: IndexRecord, tf: map<string, nat>, df: map<string, nat>)
    requires forall t | t in terms :: Count(tf, t) == Frequency(r, field, t)
    requires forall t | t in terms :: Count(df, t) == DocFreq(records, field, t)
    ensures Bm25(ln, terms, tf, |Tokens(r, field)|, |records|, Average(TotalLength(records), |records|), df) ==
            Relevance(ln, records, field, terms, r)
    decreases |terms|
  {
    hide Gain, DocFreq, Tokens, TotalLength;
    if terms != [] {
      var init := terms[..|terms| - 1];
      assert forall t | t in init :: t in terms;
      SameRelevance(ln, records, field, init, r, tf, df);
    }
  }

  lemma GatheredRelevance(ln: real -> real, g: Gathered, a: Artifact, records: seq<IndexRecord>, field: string,
                          terms: seq<string>, id: string)
    requires GatheredAll(g, a, records, [field], terms) && DfExact(g.df, a.postings, field, Elements(terms))
    requires DistinctIds(records) && id in g.tf && id in g.len
    ensures RowIsRelevance(ln, records, field, terms, id,
                           Bm25(ln, terms, g.tf[id], g.len[id], a.docCount, a.avgLen, g.df))
  {
    hide Bm25, Relevance, Sound, FieldsCovered, NulFree, DistinctIds, DfExact, DfBounded;
    forall i | 0 <= i < |records| && records[i].recordId == id
      ensures Bm25(ln, terms, g.tf[id], g.len[id], a.docCount, a.avgLen, g.df) ==
              Relevance(ln, records, field, terms, records[i])
    {
      GatheredCounts(g, a, records, field, terms, i);
      forall t | t in terms ensures Count(g.df, t) == DocFreq(records, field, t) {
        DocFreqs(g, a, records, field, terms, t);
      }
      SameRelevance(ln, records, field, terms, records[i], g.tf[id], g.df);
    }
  }

  /** The loop over the gathered records; those that score zero would be left out. */
  method ScoreGathered(ln: real -> real, a: Artifact, ghost records: seq<IndexRecord>, ghost fields: seq<string>,
                       terms: seq<string>, g: Gathered) returns (scores: map<string, real>)
    requires Logarithm(ln) && GatheredAll(g, a, records, fields, terms)
    ensures scores.Keys == g.tf.Keys
    ensures forall id | id in scores :: ScoreOk(ln, a, terms, g, id, scores[id])
  {
    hide GatheredAll, Logarithm, NoDuplicates, Elements, InOrder, ScoreOk, Bm25;
    var ids := InOrder(g.tf.Keys);
    scores := map[];
    NoElements(ids[..0]);
    InOrderAscends(g.tf.Keys);
    for i := 0 to |ids|
      invariant scores.Keys == Elements(ids[..i])
      invariant forall id | id in scores :: ScoreOk(ln, a, terms, g, id, scores[id])
    {
      TakeOne(ids, i);
      GatheredScores(ln, g, a, records, fields, terms, ids[i]);
      var docLen := if ids[i] in g.len then g.len[ids[i]] else 0;
      var score := Bm25FromTermFrequency(ln, terms, g.tf[ids[i]], docLen, a.docCount, a.avgLen, g.df);
      if score > 0.0 { scores := scores[ids[i] := score]; }
      ScoreIsOk(ln, a, terms, g, ids[i], score);
    }
    assert ids[..|ids|] == ids;
  }

  ghost predicate ScoreOk(ln: real -> real, a: Artifact, terms: seq<string>, g: Gathered, id: string, score: real)
  {
    && id in g.tf && id in g.len && score > 0.0
    && score == Bm25(ln, terms, g.tf[id], g.len[id], a.docCount, a.avgLen, g.df)
  }

  lemma ScoreIsOk(ln: real -> real, a: Artifact, terms: seq<string>, g: Gathered, id: string, score: real)
    requires id in g.tf && id in g.len && score > 0.0
    requires score == Bm25(ln, terms, g.tf[id], g.len[id], a.docCount, a.avgLen, g.df)
    ensures ScoreOk(ln, a, terms, g, id, score)
  {
  }

  /** The fields of the query as the artifact's documents give them. */
  function QueryFields(a: Artifact, field: Option<string>): seq<string>
  {
    if field.Some? then [field.value]
    else InOrder(set i, f | 0 <= i < |a.documents| && f in a.documents[i].fields :: f)
  }

  lemma QueryFieldsAre(a: Artifact, records: seq<IndexRecord>, field: Option<string>)
    requires Indexes(a, records)
    ensures Elements(QueryFields(a, field)) == FieldsOf(records, field)
  {
    hide Exact, TotalLength, InOrder;
    assert forall i | 0 <= i < |records| :: a.documents[i].fields == records[i].text;
    if field.Some? { assert [field.value][0] in Elements([field.value]); }
  }

  /** The rows: the ids of the records that hold a query term in a field the query looks at,
      each once and no others, strictly ordered by score and then id. For one field and
      distinct record ids the score is the relevance computed from the records themselves. */
  method ScoreText(ln: real -> real, a: Artifact, ghost records: seq<IndexRecord>, query: string, field: Option<string>)
    returns (rows: seq<Scored>)
    requires Logarithm(ln) && Indexes(a, records)
    ensures NoDuplicates(Mapped(RowId, rows))
    ensures Elements(Mapped(RowId, rows)) == Matching(records, FieldsOf(records, field), Tokenize(query))
    ensures forall i | 0 <= i < |rows| :: rows[i].score > 0.0
    ensures forall i, j | 0 <= i < j < |rows| :: Above(rows[i], rows[j])
    ensures field.Some? && DistinctIds(records) ==>
              forall i | 0 <= i < |rows| ::
                RowIsRelevance(ln, records, field.value, Tokenize(query), rows[i].recordId, rows[i].score)
  {
    hide Tokenize, Sound, FieldsCovered, NulFree, Exact, Logarithm, Matching, Bm25, DistinctIds, RowIsRelevance, Above,
         NoDuplicates, Elements, Ranking, DfExact, DfBounded, FieldsOf, InOrder;
    var terms := Tokenize(query);
    if terms == [] || a.docCount == 0 {
      NothingMatches(records, FieldsOf(records, field), terms);
      NoElements(Mapped(RowId, []));
      OneRow(Mapped(RowId, []));
      return [];
    }
    NulFreeTokens(query);
    var fields := QueryFields(a, field);
    QueryFieldsAre(a, records, field);
    var g := Gather(records, a.postings, fields, terms);
    GatheredMatches(g, a, records, fields, terms);
    var scores := ScoreGathered(ln, a, records, fields, terms, g);
    rows := Ranking(scores);
    RankingRanks(scores);
    if field.Some? && DistinctIds(records) {
      forall i | 0 <= i < |rows|
        ensures RowIsRelevance(ln, records, field.value, terms, rows[i].recordId, rows[i].score)
      {
        GatheredRelevance(ln, g, a, records, field.value, terms, rows[i].recordId);
      }
    }
  }

  lemma NothingMatches(records: seq<IndexRecord>, fields: set<string>, terms: seq<string>)
    requires terms == [] || records == []
    ensures Matching(records, fields, terms) == {}
  {
  }

  lemma OneRow(ids: seq<string>)
    requires |ids| <= 1
    ensures NoDuplicates(ids)
  {
  }
}
