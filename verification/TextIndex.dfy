/** The inverted text index of a segment (crates/tracedb-index/src/lib.rs): what it is and how
    it is built. `TextScore` scores queries against it. */
module TextIndex {
  import opened Ordering

  datatype IndexRecord = IndexRecord(recordId: string, text: map<string, string>)

  datatype Posting = Posting(recordId: string, termFrequency: nat, docLen: nat)

  datatype Document = Document(recordId: string, fields: map<string, string>, lengths: map<string, nat>)

  type Postings = map<string, seq<Posting>>

  datatype Artifact = Artifact(docCount: nat, avgLen: real, documents: seq<Document>, postings: Postings)

  // ---------------------------------------------------------------- tokens

  predicate Alphanumeric(c: char)
  {
    '0' <= c <= '9' || 'A' <= c <= 'Z' || 'a' <= c <= 'z'
  }

  function Lower(c: char): char
  {
    if 'A' <= c <= 'Z' then c - 'A' + 'a' else c
  }

  function Flush(token: string): seq<string>
  {
    if token == "" then [] else [token]
  }

  function TokensFrom(s: string, token: string): seq<string>
  {
    if s == "" then Flush(token)
    else if Alphanumeric(s[0]) then TokensFrom(s[1..], token + [Lower(s[0])])
    else Flush(token) + TokensFrom(s[1..], "")
  }

  /** Maximal runs of ASCII letters and digits, in lower case. */
  function Tokenize(s: string): seq<string>
  {
    TokensFrom(s, "")
  }

  predicate NulFree(s: string)
  {
    forall i | 0 <= i < |s| :: s[i] != '\0'
  }

  lemma {:induction false} TokensAreNulFree(s: string, token: string)
    requires NulFree(token)
    ensures forall t | t in TokensFrom(s, token) :: NulFree(t)
    decreases |s|
  {
    if s != "" {
      if Alphanumeric(s[0]) {
        TokensAreNulFree(s[1..], token + [Lower(s[0])]);
      } else {
        TokensAreNulFree(s[1..], "");
      }
    }
  }

  // ---------------------------------------------------------------- posting keys

  function PostingKey(field: string, term: string): string
  {
    field + "\0" + term
  }

  /** What follows the last NUL. */
  function TermOf(k: string): (t: string)
    ensures |t| <= |k| && k[|k| - |t|..] == t
  {
    if k == "" || k[|k| - 1] == '\0' then ""
    else TermOf(k[..|k| - 1]) + [k[|k| - 1]]
  }

  predicate IsKey(k: string) { |TermOf(k)| < |k| }

  function FieldOf(k: string): string
    requires IsKey(k)
  {
    k[..|k| - |TermOf(k)| - 1]
  }

  lemma {:induction false} TermDecodes(prefix: string, term: string)
    requires NulFree(term)
    ensures TermOf(prefix + "\0" + term) == term
    decreases |term|
  {
    var k := prefix + "\0" + term;
    if term != "" {
      var n := |term| - 1;
      TermDecodes(prefix, term[..n]);
      assert k[..|k| - 1] == prefix + "\0" + term[..n];
    }
  }

  lemma KeyDecodes(field: string, term: string)
    requires NulFree(term)
    ensures var k := PostingKey(field, term); IsKey(k) && FieldOf(k) == field && TermOf(k) == term
  {
    hide TermOf;
    TermDecodes(field, term);
  }

  lemma {:induction false} BeforeTermIsNul(k: string)
    requires IsKey(k)
    ensures k[|k| - |TermOf(k)| - 1] == '\0'
    decreases |k|
  {
    if k[|k| - 1] != '\0' { BeforeTermIsNul(k[..|k| - 1]); }
  }

  lemma KeyEncodes(k: string)
    requires IsKey(k)
    ensures k == PostingKey(FieldOf(k), TermOf(k))
  {
    BeforeTermIsNul(k);
  }

  // ---------------------------------------------------------------- the exact inverted index

  function Tokens(r: IndexRecord, field: string): seq<string>
  {
    if field in r.text then Tokenize(r.text[field]) else []
  }

  /** The posting of one record under a key, if it has one. */
  function PostingFor(r: IndexRecord, k: string): seq<Posting>
  {
    if !IsKey(k) then [] else
    var tokens := Tokens(r, FieldOf(k));
    if TermOf(k) in tokens then [Posting(r.recordId, multiset(tokens)[TermOf(k)], |tokens|)] else []
  }

  function PostingsFor(records: seq<IndexRecord>, k: string): seq<Posting>
  {
    if records == [] then []
    else PostingsFor(records[..|records| - 1], k) + PostingFor(records[|records| - 1], k)
  }

  function Lookup(postings: Postings, k: string): seq<Posting>
  {
    if k in postings then postings[k] else []
  }

  /** Every key has exactly the postings of the records, in record order, and there are no
      keys without postings. */
  ghost predicate Exact(postings: Postings, records: seq<IndexRecord>)
  {
    (forall k :: Lookup(postings, k) == PostingsFor(records, k)) && NonEmpty(postings)
  }

  function LengthSum(text: map<string, string>, fields: seq<string>): nat
    requires forall f | f in fields :: f in text
  {
    if fields == [] then 0
    else LengthSum(text, fields[..|fields| - 1]) + |Tokenize(text[fields[|fields| - 1]])|
  }

  function Length(r: IndexRecord): nat
  {
    assert forall f | f in InOrder(r.text.Keys) :: f in Elements(InOrder(r.text.Keys));
    LengthSum(r.text, InOrder(r.text.Keys))
  }

  function TotalLength(records: seq<IndexRecord>): nat
  {
    if records == [] then 0 else TotalLength(records[..|records| - 1]) + Length(records[|records| - 1])
  }

  function DocumentOf(r: IndexRecord): Document
  {
    Document(r.recordId, r.text, map f | f in r.text :: |Tokenize(r.text[f])|)
  }

  function Average(total: nat, count: nat): real
  {
    if count == 0 then 0.0 else total as real / count as real
  }

  ghost predicate Indexes(a: Artifact, records: seq<IndexRecord>)
  {
    && a.docCount == |records| && a.avgLen == Average(TotalLength(records), |records|)
    && a.documents == seq(|records|, i requires 0 <= i < |records| => DocumentOf(records[i]))
    && Exact(a.postings, records)
  }

  // ---------------------------------------------------------------- building

  function TermCounts(tokens: seq<string>): map<string, nat>
  {
    map t | t in tokens :: multiset(tokens)[t]
  }

  method CountTerms(tokens: seq<string>) returns (tf: map<string, nat>)
    ensures tf == TermCounts(tokens)
  {
    tf := map[];
    for i := 0 to |tokens|
      invariant tf == TermCounts(tokens[..i])
    {
      assert tokens[..i + 1] == tokens[..i] + [tokens[i]];
      tf := tf[tokens[i] := (if tokens[i] in tf then tf[tokens[i]] else 0) + 1];
    }
    assert tokens[..|tokens|] == tokens;
  }

  /** The posting that one field of a record adds under a key, for the terms done so far. */
  function Addition(field: string, id: string, tokens: seq<string>, done: set<string>, k: string): seq<Posting>
  {
    if IsKey(k) && FieldOf(k) == field && TermOf(k) in done
    then [Posting(id, multiset(tokens)[TermOf(k)], |tokens|)] else []
  }

  ghost predicate AddedAt(before: Postings, after: Postings, field: string, id: string, tokens: seq<string>,
                          done: set<string>, k: string)
  {
    Lookup(after, k) == Lookup(before, k) + Addition(field, id, tokens, done, k)
  }

  ghost predicate NonEmpty(postings: Postings)
  {
    forall k | k in postings :: postings[k] != []
  }

  ghost predicate Added(before: Postings, after: Postings, field: string, id: string, tokens: seq<string>,
                        done: set<string>)
  {
    (forall k :: AddedAt(before, after, field, id, tokens, done, k)) && NonEmpty(after)
  }

  function Push(now: Postings, field: string, id: string, tokens: seq<string>, term: string): Postings
  {
    var key := PostingKey(field, term);
    now[key := Lookup(now, key) + [Posting(id, multiset(tokens)[term], |tokens|)]]
  }

  lemma PushedAt(before: Postings, now: Postings, field: string, id: string, tokens: seq<string>, done: set<string>,
                 term: string, k: string)
    requires AddedAt(before, now, field, id, tokens, done, k) && term !in done && NulFree(term)
    ensures AddedAt(before, Push(now, field, id, tokens, term), field, id, tokens, done + {term}, k)
  {
    hide TermOf, PostingKey, IsKey, FieldOf, NulFree;
    KeyDecodes(field, term);
    if k != PostingKey(field, term) && IsKey(k) {
      KeyEncodes(k);
      assert Addition(field, id, tokens, done + {term}, k) == Addition(field, id, tokens, done, k);
    }
  }

  lemma PushedOne(before: Postings, now: Postings, field: string, id: string, tokens: seq<string>, done: set<string>,
                  term: string)
    requires Added(before, now, field, id, tokens, done) && term !in done && NulFree(term)
    ensures Added(before, Push(now, field, id, tokens, term), field, id, tokens, done + {term})
  {
    var after := Push(now, field, id, tokens, term);
    assert NonEmpty(after);
    hide AddedAt, NulFree, Push, NonEmpty;
    forall k ensures AddedAt(before, after, field, id, tokens, done + {term}, k) {
      assert AddedAt(before, now, field, id, tokens, done, k);
      PushedAt(before, now, field, id, tokens, done, term, k);
    }
  }

  lemma TakeOne(q: seq<string>, i: nat)
    requires i < |q| && NoDuplicates(q)
    ensures Elements(q[..i + 1]) == Elements(q[..i]) + {q[i]} && q[i] !in Elements(q[..i]) && q[i] in Elements(q)
  {
    assert q[..i + 1] == q[..i] + [q[i]];
  }

  method AddField(before: Postings, field: string, id: string, tokens: seq<string>) returns (postings: Postings)
    requires NonEmpty(before) && forall t | t in tokens :: NulFree(t)
    ensures Added(before, postings, field, id, tokens, Elements(tokens))
  {
    hide Added, NulFree, NonEmpty, Elements, PostingKey, NoDuplicates, InOrder;
    postings := before;
    var tf := CountTerms(tokens);
    var terms := InOrder(tf.Keys);
    InOrderAscends(tf.Keys);
    NothingAdded(before, field, id, tokens);
    NoElements(terms[..0]);
    ElementsOfTokens(tokens);
    for i := 0 to |terms|
      invariant Added(before, postings, field, id, tokens, Elements(terms[..i]))
    {
      var term := terms[i];
      TakeOne(terms, i);
      PushedOne(before, postings, field, id, tokens, Elements(terms[..i]), term);
      var key := PostingKey(field, term);
      postings := postings[key := Lookup(postings, key) + [Posting(id, tf[term], |tokens|)]];
    }
    assert terms[..|terms|] == terms;
  }

  lemma ElementsOfTokens(tokens: seq<string>)
    ensures TermCounts(tokens).Keys == Elements(tokens)
  {
  }

  lemma NothingAdded(before: Postings, field: string, id: string, tokens: seq<string>)
    requires NonEmpty(before)
    ensures Added(before, before, field, id, tokens, {})
  {
  }

  /** The record with only some of its fields. */
  function Only(r: IndexRecord, fields: set<string>): IndexRecord
  {
    r.(text := map f | f in r.text && f in fields :: r.text[f])
  }

  ghost predicate PartlyAt(postings: Postings, records: seq<IndexRecord>, r: IndexRecord, k: string)
  {
    Lookup(postings, k) == PostingsFor(records, k) + PostingFor(r, k)
  }

  ghost predicate Partly(postings: Postings, records: seq<IndexRecord>, r: IndexRecord)
  {
    (forall k :: PartlyAt(postings, records, r, k)) && NonEmpty(postings)
  }

  lemma FieldDone(before: Postings, after: Postings, records: seq<IndexRecord>, r: IndexRecord, fields: set<string>,
                  field: string)
    requires field in r.text && field !in fields
    requires Partly(before, records, Only(r, fields))
    requires Added(before, after, field, r.recordId, Tokenize(r.text[field]), Elements(Tokenize(r.text[field])))
    ensures Partly(after, records, Only(r, fields + {field}))
  {
    hide Only, Tokenize, PostingsFor, PostingFor, Addition, Lookup, NonEmpty;
    var tokens := Tokenize(r.text[field]);
    forall k ensures PartlyAt(after, records, Only(r, fields + {field}), k) {
      assert PartlyAt(before, records, Only(r, fields), k);
      assert AddedAt(before, after, field, r.recordId, tokens, Elements(tokens), k);
      OneField(r, fields, field, k);
    }
  }

  lemma OneField(r: IndexRecord, fields: set<string>, field: string, k: string)
    requires field in r.text && field !in fields
    ensures var tokens := Tokenize(r.text[field]);
            PostingFor(Only(r, fields + {field}), k) ==
            PostingFor(Only(r, fields), k) + Addition(field, r.recordId, tokens, Elements(tokens), k)
  {
    hide TermOf, Tokenize, IsKey, FieldOf;
    if IsKey(k) {
      var f := FieldOf(k);
      assert f != field ==> Tokens(Only(r, fields + {field}), f) == Tokens(Only(r, fields), f);
      assert Tokens(Only(r, fields), field) == [];
    }
  }

  lemma RecordDone(postings: Postings, records: seq<IndexRecord>, r: IndexRecord, next: seq<IndexRecord>)
    requires Partly(postings, records, r) && next == records + [r]
    ensures Exact(postings, next)
  {
    assert next[..|records|] == records;
    forall k ensures Lookup(postings, k) == PostingsFor(next, k) { assert PartlyAt(postings, records, r, k); }
  }

  lemma RecordBegins(postings: Postings, records: seq<IndexRecord>, r: IndexRecord)
    requires Exact(postings, records)
    ensures Partly(postings, records, Only(r, {}))
  {
    forall k ensures PartlyAt(postings, records, Only(r, {}), k) {
      assert Lookup(postings, k) == PostingsFor(records, k);
    }
  }

  /** One record: its postings, and the number of its tokens. */
  method AddRecord(before: Postings, ghost records: seq<IndexRecord>, r: IndexRecord)
    returns (postings: Postings, doc: Document, length: nat)
    requires Exact(before, records)
    ensures Exact(postings, records + [r]) && length == Length(r) && doc == DocumentOf(r)
  {
    hide Tokenize, InOrder, Exact, Partly, Added, Only, NoDuplicates, Elements, NonEmpty;
    postings, length := before, 0;
    var fields := InOrder(r.text.Keys);
    var lengths: map<string, nat> := map[];
    InOrderAscends(r.text.Keys);
    RecordBegins(postings, records, r);
    NoElements(fields[..0]);
    AllFields(r, fields);
    for j := 0 to |fields|
      invariant Partly(postings, records, Only(r, Elements(fields[..j])))
      invariant length == LengthSum(r.text, fields[..j])
      invariant lengths == LengthsOf(r.text, Elements(fields[..j]))
    {
      var field := fields[j];
      var tokens := Tokenize(r.text[field]);
      NulFreeTokens(r.text[field]);
      PartlyNonEmpty(postings, records, Only(r, Elements(fields[..j])));
      ghost var was := postings;
      postings := AddField(postings, field, r.recordId, tokens);
      TakeOne(fields, j);
      FieldDone(was, postings, records, r, Elements(fields[..j]), field);
      assert fields[..j + 1][..j] == fields[..j];
      LengthsGrow(r.text, Elements(fields[..j]), field);
      length := length + |tokens|;
      lengths := lengths[field := |tokens|];
    }
    assert fields[..|fields|] == fields;
    doc := Document(r.recordId, r.text, lengths);
    RecordDone(postings, records, r, records + [r]);
  }

  function LengthsOf(text: map<string, string>, fields: set<string>): map<string, nat>
  {
    map f | f in text && f in fields :: |Tokenize(text[f])|
  }

  lemma LengthsGrow(text: map<string, string>, fields: set<string>, field: string)
    requires field in text
    ensures LengthsOf(text, fields + {field}) == LengthsOf(text, fields)[field := |Tokenize(text[field])|]
  {
  }

  lemma AllFields(r: IndexRecord, fields: seq<string>)
    requires Elements(fields) == r.text.Keys
    ensures (forall f | f in fields :: f in r.text) && Only(r, Elements(fields)) == r
    ensures DocumentOf(r) == Document(r.recordId, r.text, LengthsOf(r.text, Elements(fields)))
    ensures LengthsOf(r.text, {}) == map[]
  {
    forall f | f in fields ensures f in r.text { assert f in Elements(fields); }
    assert Only(r, Elements(fields)).text == r.text;
  }

  lemma NulFreeTokens(body: string)
    ensures forall t | t in Tokenize(body) :: NulFree(t)
  {
    TokensAreNulFree(body, "");
  }

  lemma PartlyNonEmpty(postings: Postings, records: seq<IndexRecord>, r: IndexRecord)
    requires Partly(postings, records, r)
    ensures NonEmpty(postings)
  {
  }

  /** The artifact is the exact inverted index of the records. */
  method BuildTextIndex(records: seq<IndexRecord>) returns (a: Artifact)
    ensures Indexes(a, records)
  {
    hide Exact, Length, DocumentOf;
    var documents, total := [], 0;
    var postings: Postings := map[];
    NothingIndexed();
    for i := 0 to |records|
      invariant |documents| == i && forall j | 0 <= j < i :: documents[j] == DocumentOf(records[j])
      invariant total == TotalLength(records[..i]) && Exact(postings, records[..i])
    {
      var doc, length;
      postings, doc, length := AddRecord(postings, records[..i], records[i]);
      assert records[..i + 1] == records[..i] + [records[i]];
      documents, total := documents + [doc], total + length;
    }
    assert records[..|records|] == records;
    a := Artifact(|documents|, Average(total, |documents|), documents, postings);
  }

  lemma NothingIndexed()
    ensures Exact(map[], [])
  {
  }
}
