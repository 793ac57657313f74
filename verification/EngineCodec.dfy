/** What the byte-level theorems ask of a codec can be met for the engine's commits: they are
    finite trees of numbers, and trees can be written into bytes and read back. The encodings here
    are for that purpose only; the log's is JSON (crates/tracedb-log/src/lib.rs). */
module EngineCodec {
  import opened Ordering
  import opened Bytes
  import opened WalFrame
  import opened Wal
  import opened Schemas
  import opened Records
  import opened WalTails
  import opened EngineLog
  import Jobs
  import Engine
  import EngineClones

  datatype Tree = Leaf(n: nat) | Pair(first: Tree, second: Tree)

  // ---------------------------------------------------------------- trees as bytes

  function Unary(n: nat): seq<Byte>
  {
    if n == 0 then [0] else [1] + Unary(n - 1)
  }

  function Written(t: Tree): seq<Byte>
  {
    match t
    case Leaf(n) => [0] + Unary(n)
    case Pair(a, b) => [1] + (Written(a) + Written(b))
  }

  lemma {:induction false} UnaryTells(m: nat, n: nat, r: seq<Byte>, s: seq<Byte>)
    requires Unary(m) + r == Unary(n) + s
    ensures m == n && r == s
  {
    var x, y := Unary(m) + r, Unary(n) + s;
    assert x[0] == (if m == 0 then 0 else 1) && y[0] == (if n == 0 then 0 else 1);
    assert x[1..] == (if m == 0 then r else Unary(m - 1) + r);
    assert y[1..] == (if n == 0 then s else Unary(n - 1) + s);
    if m > 0 { UnaryTells(m - 1, n - 1, r, s); }
  }

  lemma FirstByte(t: Tree, r: seq<Byte>)
    ensures var x := Written(t) + r;
            && x != [] && x[0] == (if t.Leaf? then 0 else 1)
            && x[1..] == if t.Leaf? then Unary(t.n) + r else Written(t.first) + (Written(t.second) + r)
  {
    hide Unary;
    var x := Written(t) + r;
    if t.Leaf? {
      assert x == [0] + (Unary(t.n) + r);
    } else {
      var a, b := Written(t.first), Written(t.second);
      assert x == [1] + (a + (b + r));
    }
  }

  /** Whatever follows them, the bytes tell the tree and where it ends. */
  lemma {:induction false} WrittenTells(a: Tree, b: Tree, r: seq<Byte>, s: seq<Byte>)
    requires Written(a) + r == Written(b) + s
    ensures a == b && r == s
  {
    hide Unary, Written;
    FirstByte(a, r);
    FirstByte(b, s);
    if a.Leaf? {
      UnaryTells(a.n, b.n, r, s);
    } else {
      WrittenTells(a.first, b.first, Written(a.second) + r, Written(b.second) + s);
      WrittenTells(a.second, b.second, r, s);
    }
  }

  // ---------------------------------------------------------------- commits as trees

  ghost predicate Injective<T(!new)>(f: T -> Tree)
  {
    forall x, y | f(x) == f(y) :: x == y
  }

  function ListTree<T>(f: T -> Tree, q: seq<T>): Tree
  {
    if q == [] then Leaf(0) else Pair(f(q[0]), ListTree(f, q[1..]))
  }

  lemma {:induction false} ListTells<T(!new)>(f: T -> Tree, p: seq<T>, q: seq<T>)
    requires Injective(f) && ListTree(f, p) == ListTree(f, q)
    ensures p == q
  {
    if p != [] {
      ListTells(f, p[1..], q[1..]);
      assert p == [p[0]] + p[1..] && q == [q[0]] + q[1..];
    }
  }

  function CharTree(c: char): Tree { Leaf(c as nat) }
  function ByteTree(b: Byte): Tree { Leaf(b) }
  function TextTree(s: string): Tree { ListTree(CharTree, s) }
  function TextsTree(q: seq<string>): Tree { ListTree(TextTree, q) }

  lemma TextTells()
    ensures Injective(TextTree)
  {
    forall s, t | TextTree(s) == TextTree(t) ensures s == t {
      assert Injective(CharTree);
      ListTells(CharTree, s, t);
    }
  }

  lemma TextsTell()
    ensures Injective(TextsTree)
  {
    forall p, q | TextsTree(p) == TextsTree(q) ensures p == q {
      TextTells();
      ListTells(TextTree, p, q);
    }
  }

  function ColumnTree(v: VectorColumn): Tree
  {
    Pair(TextTree(v.name), Pair(Leaf(v.dimensions), TextsTree(v.sources)))
  }

  function SchemaTree(s: TableSchema): Tree
  {
    Pair(Pair(TextTree(s.name), Pair(TextTree(s.primaryId), TextTree(s.tenant))),
         Pair(TextsTree(s.scalars), Pair(TextsTree(s.texts), ListTree(ColumnTree, s.vectors))))
  }

  lemma SchemaTells()
    ensures Injective(SchemaTree)
  {
    TextTells();
    TextsTell();
    assert Injective(ColumnTree);
    forall s, t | SchemaTree(s) == SchemaTree(t) ensures s == t {
      ListTells(ColumnTree, s.vectors, t.vectors);
    }
  }

  function ValueTree(v: Value): Tree
  {
    match v
    case Text(text) => Pair(Leaf(0), TextTree(text))
    case Numbers(items) => Pair(Leaf(1), TextsTree(items))
    case OtherJson(json) => Pair(Leaf(2), TextTree(json))
  }

  function FieldTree(m: Fields, k: string): Tree
  {
    Pair(TextTree(k), if k in m then ValueTree(m[k]) else Leaf(0))
  }

  /** The fields in the order of their names. */
  function FieldsTree(m: Fields): Tree
  {
    Pair(TextsTree(InOrder(m.Keys)), ListTree(k => FieldTree(m, k), InOrder(m.Keys)))
  }

  lemma ValueTells()
    ensures Injective(ValueTree)
  {
    TextTells();
    TextsTell();
  }

  lemma {:induction false} SameValues(m: Fields, n: Fields, keys: seq<string>, i: nat)
    requires ListTree(k => FieldTree(m, k), keys) == ListTree(k => FieldTree(n, k), keys) && i < |keys|
    ensures FieldTree(m, keys[i]) == FieldTree(n, keys[i])
    decreases |keys|
  {
    if i > 0 { SameValues(m, n, keys[1..], i - 1); }
  }

  lemma FieldsTell()
    ensures Injective(FieldsTree)
  {
    hide InOrder, ValueTree;
    TextsTell();
    ValueTells();
    forall m, n | FieldsTree(m) == FieldsTree(n) ensures m == n {
      var keys := InOrder(m.Keys);
      assert Elements(keys) == m.Keys == n.Keys;
      forall k | k in m ensures m[k] == n[k] {
        assert k in Elements(keys);
        var i :| 0 <= i < |keys| && keys[i] == k;
        SameValues(m, n, keys, i);
      }
    }
  }

  function InputTree(x: RecordInput): Tree
  {
    Pair(Pair(TextTree(x.table), TextTree(x.tenantId)), Pair(TextTree(x.id), FieldsTree(x.fields)))
  }

  function DeletionTree(d: RecordDeletion): Tree
  {
    Pair(Pair(TextTree(d.table), TextTree(d.tenantId)), Pair(TextTree(d.id), TextTree(d.tombstone)))
  }

  function InvalidationTree(x: Invalidation): Tree
  {
    Pair(Pair(TextTree(x.table), TextTree(x.tenantId)),
         Pair(TextTree(x.recordId), Pair(TextTree(x.feature), TextTree(x.status))))
  }

  function WritesTree(w: Writes): Tree
  {
    Pair(Pair(ListTree(InputTree, w.replacements), ListTree(InputTree, w.mutations)),
         Pair(ListTree(DeletionTree, w.deletions), ListTree(InvalidationTree, w.invalidations)))
  }

  lemma WritesTell()
    ensures Injective(WritesTree)
  {
    hide TextTree, FieldsTree, ListTree;
    TextTells();
    FieldsTell();
    assert Injective(InputTree) && Injective(DeletionTree) && Injective(InvalidationTree);
    forall v, w | WritesTree(v) == WritesTree(w) ensures v == w {
      ListTells(InputTree, v.replacements, w.replacements);
      ListTells(InputTree, v.mutations, w.mutations);
      ListTells(DeletionTree, v.deletions, w.deletions);
      ListTells(InvalidationTree, v.invalidations, w.invalidations);
    }
  }

  function MaybeText(o: Option<string>): Tree
  {
    if o.None? then Leaf(0) else Pair(Leaf(0), TextTree(o.value))
  }

  function MaybeNumber(o: Option<nat>): Tree
  {
    if o.None? then Leaf(0) else Pair(Leaf(0), Leaf(o.value))
  }

  function StatusTree(s: Jobs.JobStatus): Tree
  {
    match s
    case Queued => Leaf(0)
    case Leased => Leaf(1)
    case Running => Leaf(2)
    case CommittingResult => Leaf(3)
    case Succeeded => Leaf(4)
    case FailedRetryable => Leaf(5)
    case FailedPermanent => Leaf(6)
    case Canceled => Leaf(7)
    case DeadLettered => Leaf(8)
  }

  function KindTree(k: Jobs.JobKind): Tree
  {
    match k
    case GenerateEmbedding => Leaf(0)
    case RegenerateEmbedding => Leaf(1)
    case BuildTextIndex => Leaf(2)
    case BuildVectorIndex => Leaf(3)
    case CompactSegment => Leaf(4)
    case VacuumArtifacts => Leaf(5)
    case ReindexTable => Leaf(6)
    case ValidatePolicy => Leaf(7)
    case RefreshSummary => Leaf(8)
    case FeatureRefresh => Leaf(9)
    case ExportSubject => Leaf(10)
    case PurgeSubject => Leaf(11)
    case BackupDatabase => Leaf(12)
    case RestoreVerification => Leaf(13)
    case VerifyDatabase => Leaf(14)
  }

  function JobTree(j: Jobs.TraceJob): Tree
  {
    Pair(Pair(Pair(TextTree(j.jobId), KindTree(j.kind)), Pair(TextTree(j.target), TextTree(j.idempotencyKey))),
         Pair(Pair(MaybeText(j.leaseOwner), Pair(Leaf(j.attempts), Leaf(j.maxAttempts))),
              Pair(Pair(StatusTree(j.status), MaybeText(j.lastError)),
                   Pair(MaybeText(j.leaseToken),
                        Pair(MaybeNumber(j.leaseExpiresAtMs), MaybeNumber(j.nextAttemptAfterMs))))))
  }

  lemma JobTells()
    ensures Injective(JobTree)
  {
    hide TextTree, StatusTree, KindTree;
    TextTells();
    assert Injective(MaybeText) && Injective(MaybeNumber);
    EnumsTell();
    hide MaybeText, MaybeNumber;
  }

  lemma EnumsTell()
    ensures Injective(StatusTree) && Injective(KindTree)
  {
  }

  function EventTree(e: Jobs.JobEvent): Tree
  {
    match e
    case Enqueued(job) => Pair(Leaf(0), JobTree(job))
    case LeasedEvent(id, worker, token, at) =>
      Pair(Leaf(1), Pair(Pair(TextTree(id), TextTree(worker)), Pair(TextTree(token), Leaf(at))))
    case Heartbeat(id, token, at) => Pair(Leaf(2), Pair(TextTree(id), Pair(TextTree(token), Leaf(at))))
    case Completed(id, token) => Pair(Leaf(3), Pair(TextTree(id), TextTree(token)))
    case Failed(id, token, error, permanent, at) =>
      Pair(Leaf(if permanent then 4 else 5),
           Pair(Pair(TextTree(id), MaybeText(token)), Pair(TextTree(error), Leaf(at))))
  }

  lemma EventTells()
    ensures Injective(EventTree)
  {
    hide TextTree, JobTree;
    TextTells();
    JobTells();
    assert Injective(MaybeText);
    hide MaybeText;
  }

  function ReceiptTree(r: Engine.IdempotencyReceipt): Tree { Pair(TextTree(r.key), TextTree(r.response)) }

  function ChangesTree(c: Engine.Changes): Tree
  {
    Pair(Pair(ListTree(SchemaTree, c.schemas), ListTree(ReceiptTree, c.receipts)),
         Pair(ListTree(EventTree, c.jobEvents), WritesTree(c.writes)))
  }

  lemma ChangesTell()
    ensures Injective(ChangesTree)
  {
    hide TextTree, SchemaTree, EventTree, WritesTree, ListTree;
    TextTells();
    SchemaTells();
    EventTells();
    WritesTell();
    assert Injective(ReceiptTree);
    forall c, d | ChangesTree(c) == ChangesTree(d) ensures c == d {
      ListTells(SchemaTree, c.schemas, d.schemas);
      ListTells(ReceiptTree, c.receipts, d.receipts);
      ListTells(EventTree, c.jobEvents, d.jobEvents);
    }
  }

  function CommitTree(c: Commit<Engine.Changes>): Tree
  {
    Pair(Pair(Leaf(c.epoch), Leaf(c.parentEpoch)),
         Pair(ListTree(ByteTree, c.previousCommitHash), Pair(TextTree(c.commitMarker), ChangesTree(c.changes))))
  }

  lemma CommitTells()
    ensures Injective(CommitTree)
  {
    hide TextTree, ChangesTree, ListTree;
    TextTells();
    ChangesTell();
    assert Injective(ByteTree);
    forall c, d | CommitTree(c) == CommitTree(d) ensures c == d {
      ListTells(ByteTree, c.previousCommitHash, d.previousCommitHash);
    }
  }

  // ---------------------------------------------------------------- codecs

  ghost predicate Tells(encode: Commit<Engine.Changes> -> seq<Byte>)
  {
    forall c, d | encode(c) == encode(d) :: c == d
  }

  ghost function Decode(encode: Commit<Engine.Changes> -> seq<Byte>, bytes: seq<Byte>): Option<Commit<Engine.Changes>>
  {
    if exists c :: encode(c) == bytes then
      var c :| encode(c) == bytes;
      Some(c)
    else None
  }

  /** An encoding that tells the commits apart is half of a lawful codec. */
  ghost function CodecOf(encode: Commit<Engine.Changes> -> seq<Byte>, checksum: seq<Byte> -> Hash):
    (codec: Codec<Engine.Changes>)
    requires Tells(encode) && forall b :: |checksum(b)| == 32
    ensures Lawful(codec) && codec.encode == encode && codec.checksum == checksum
  {
    var codec := Codec(encode, bytes => Decode(encode, bytes), checksum);
    assert forall c :: codec.decode(codec.encode(c)) == Some(c);
    codec
  }

  function Encode(c: Commit<Engine.Changes>): seq<Byte> { Written(CommitTree(c)) }

  lemma EncodeTells()
    ensures Tells(Encode)
  {
    hide Written, CommitTree;
    CommitTells();
    forall c, d | Encode(c) == Encode(d) ensures c == d {
      assert Written(CommitTree(c)) + [] == Written(CommitTree(d)) + [];
      WrittenTells(CommitTree(c), CommitTree(d), [], []);
    }
  }

  /** Some codec for the engine's commits meets all that the log relies on. */
  lemma LawfulCodecExists()
    ensures exists codec: Codec<Engine.Changes> :: Lawful(codec)
  {
    hide Encode;
    EncodeTells();
    var codec := CodecOf(Encode, b => NoHash);
    assert Lawful(codec);
  }

  // ---------------------------------------------------------------- the run that ends the log

  const OneHash: Hash := [1] + NoHash[1..]

  const Receipt := Engine.IdempotencyReceipt("k", "r")

  function Noted(epoch: nat, prev: Hash): Commit<Engine.Changes>
  {
    ToLog(EngineClones.Noting(epoch, Receipt)).(previousCommitHash := prev)
  }

  /** One byte for each of three commits. */
  function Code<T(==)>(x: T, y: T, z: T, c: T): Byte
  {
    if c == x then 0 else if c == y then 1 else if c == z then 2 else 3
  }

  lemma CodeTells<T>(x: T, y: T, z: T, c: T, d: T)
    requires Code(x, y, z, c) == Code(x, y, z, d) != 3
    ensures c == d
  {
  }

  lemma Codes<T>(x: T, y: T, z: T)
    requires x != y && y != z && x != z
    ensures Code(x, y, z, x) == 0 && Code(x, y, z, y) == 1 && Code(x, y, z, z) == 2
  {
  }

  function Special(c: Commit<Engine.Changes>): Byte
  {
    Code(Noted(1, NoHash), Noted(2, NoHash), Noted(3, OneHash), c)
  }

  function Short(c: Commit<Engine.Changes>): seq<Byte>
  {
    [Special(c)] + if Special(c) == 3 then Encode(c) else []
  }

  lemma ShortTells()
    ensures Tells(Short)
  {
    hide Encode, Noted, Code, Tells, Special;
    EncodeTells();
    forall c, d | Short(c) == Short(d) ensures c == d {
      assert Short(c)[0] == Special(c) && Short(d)[0] == Special(d);
      assert Short(c)[1..] == if Special(c) == 3 then Encode(c) else [];
      assert Short(d)[1..] == if Special(d) == 3 then Encode(d) else [];
      if Special(c) == 3 { Apart(Encode, c, d); } else { SpecialTells(c, d); }
    }
    Together(Short);
  }

  lemma SpecialTells(c: Commit<Engine.Changes>, d: Commit<Engine.Changes>)
    requires Special(c) == Special(d) != 3
    ensures c == d
  {
    hide Noted, Code;
    CodeTells(Noted(1, NoHash), Noted(2, NoHash), Noted(3, OneHash), c, d);
  }

  lemma Apart(encode: Commit<Engine.Changes> -> seq<Byte>, c: Commit<Engine.Changes>, d: Commit<Engine.Changes>)
    requires Tells(encode) && encode(c) == encode(d)
    ensures c == d
  {
  }

  lemma Together(encode: Commit<Engine.Changes> -> seq<Byte>)
    requires forall c, d | encode(c) == encode(d) :: c == d
    ensures Tells(encode)
  {
  }

  lemma ThreeSpecial()
    ensures Short(Noted(1, NoHash)) == [0] && Short(Noted(2, NoHash)) == [1] && Short(Noted(3, OneHash)) == [2]
  {
    NotedEpoch(1, NoHash);
    NotedEpoch(2, NoHash);
    NotedEpoch(3, OneHash);
    hide Encode, Noted, Code;
    Codes(Noted(1, NoHash), Noted(2, NoHash), Noted(3, OneHash));
  }

  lemma NotedEpoch(epoch: nat, prev: Hash)
    ensures Noted(epoch, prev).epoch == epoch
  {
  }

  lemma PayloadIs(codec: Codec<Engine.Changes>, epoch: nat, prev: Hash)
    requires codec.encode == Short
    ensures Payload(codec, ToLog(EngineClones.Noting(epoch, Receipt)), prev) == Short(Noted(epoch, prev))
  {
    hide Short, ToLog, EngineClones.Noting;
  }

  /** Some codec and receipts are as `EngineClones.MisledAppendEndsLog` asks. */
  lemma MisledRunExists()
    ensures exists codec, a, b, c :: Lawful(codec) && EngineClones.Mistakable(codec, a, b, c)
  {
    hide Short, Noted, Tells, ToLog, Lawful, Payload, EngineClones.Mistakable, EngineClones.Noting;
    ShortTells();
    ThreeSpecial();
    var sum: seq<Byte> -> Hash := b => if b == [0] then OneHash else NoHash;
    var codec := CodecOf(Short, sum);
    PayloadIs(codec, 1, NoHash);
    PayloadIs(codec, 2, NoHash);
    PayloadIs(codec, 3, OneHash);
    assert OneHash[0] != NoHash[0];
    assert [0] != [1];
    ShortRun(codec, OneHash);
    assert Lawful(codec) && EngineClones.Mistakable(codec, Receipt, Receipt, Receipt);
  }

  lemma ShortRun(codec: Codec<Engine.Changes>, one: Hash)
    requires Payload(codec, ToLog(EngineClones.Noting(1, Receipt)), NoHash) == [0]
    requires Payload(codec, ToLog(EngineClones.Noting(2, Receipt)), NoHash) == [1]
    requires Payload(codec, ToLog(EngineClones.Noting(3, Receipt)), one) == [2]
    requires codec.checksum([0]) == one && codec.checksum([1]) == NoHash && |one| == 32 && one != NoHash
    ensures EngineClones.Mistakable(codec, Receipt, Receipt, Receipt)
  {
    hide Payload, ToLog, EngineClones.Noting, EngineClones.FrameThrough, EngineClones.ChecksumThrough,
         EngineClones.Fitting;
    Through(codec, 1, NoTail);
    Through(codec, 2, NoTail);
    Through(codec, 3, EngineClones.StaleTail(codec, Receipt));
  }

  /** What an append through this tail takes to be. */
  lemma Through(codec: Codec<Engine.Changes>, epoch: nat, t: WalTail)
    ensures var p, f := Payload(codec, ToLog(EngineClones.Noting(epoch, Receipt)), t.lastChecksum),
                        EngineClones.FrameThrough(codec, epoch, Receipt, t);
            && EngineClones.ChecksumThrough(codec, epoch, Receipt, t) == codec.checksum(p)
            && |f| == 28 + |t.lastChecksum| + |codec.checksum(p)| + |p|
            && (|p| == 1 && NextLsn(t) <= 2 ==> EngineClones.Fitting(codec, epoch, Receipt, t))
  {
    hide Payload, ToLog, EngineClones.Noting, Assemble;
  }
}
