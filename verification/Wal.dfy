/** The write-ahead log file: scanning, torn-tail truncation and appending through a cached
    tail (crates/tracedb-log/src/lib.rs). `WalRuns` puts them together into runs. */
module Wal {
  import opened Ordering
  import opened Bytes
  import opened WalFrame

  datatype WalScan<C> =
    | Scanned(entries: seq<WalEntry<C>>, tornTail: Option<TornWalTail>)
    | Failed(error: WalError)

  /** What a scan makes of `bytes`, which start at `offset` after an entry of checksum `prev`. */
  function Scan<C>(codec: Codec<C>, bytes: seq<Byte>, offset: nat, prev: Hash): WalScan<C>
    decreases |bytes|
  {
    match ReadFrame(codec, bytes, offset, prev)
    case EndOfLog => Scanned([], None)
    case Torn(tail) => Scanned([], Some(tail))
    case Corrupt(error) => Failed(error)
    case Frame(entry, size) => After([entry], Scan(codec, bytes[size..], offset + size, entry.checksum))
  }

  /** Entries already read, followed by what the rest of the scan gives. */
  function After<C>(entries: seq<WalEntry<C>>, rest: WalScan<C>): WalScan<C>
  {
    match rest
    case Scanned(more, torn) => Scanned(entries + more, torn)
    case Failed(error) => Failed(error)
  }

  // ---------------------------------------------------------------- well-formed logs

  /** The checksum the next frame is chained to. */
  function LastHash<C>(codec: Codec<C>, commits: seq<Commit<C>>, prev: Hash): Hash
  {
    if commits == [] then prev
    else LastHash(codec, commits[1..], codec.checksum(Payload(codec, commits[0], prev)))
  }

  /** The frames of `commits`, numbered from `lsn` and chained from `prev`. */
  function Log<C>(codec: Codec<C>, commits: seq<Commit<C>>, lsn: nat, prev: Hash): seq<Byte>
  {
    if commits == [] then []
    else FrameOf(codec, commits[0], lsn, prev) +
         Log(codec, commits[1..], lsn + 1, codec.checksum(Payload(codec, commits[0], prev)))
  }

  function Entries<C>(codec: Codec<C>, commits: seq<Commit<C>>, lsn: nat, prev: Hash): (r: seq<WalEntry<C>>)
    ensures |r| == |commits|
  {
    if commits == [] then []
    else [EntryOf(codec, commits[0], lsn, prev)] +
         Entries(codec, commits[1..], lsn + 1, codec.checksum(Payload(codec, commits[0], prev)))
  }

  /** Every commit fits a frame and has an LSN of 64 bits: all that the writer checks. */
  ghost predicate Fitting<C>(codec: Codec<C>, commits: seq<Commit<C>>, lsn: nat, prev: Hash)
  {
    commits != [] ==>
      && Fits(codec, commits[0], prev) && lsn < LSN_LIMIT
      && Fitting(codec, commits[1..], lsn + 1, codec.checksum(Payload(codec, commits[0], prev)))
  }

  /** Every commit is one the reader accepts. */
  ghost predicate AllCommitted<C>(commits: seq<Commit<C>>)
  {
    forall i | 0 <= i < |commits| :: Committed(commits[i])
  }

  ghost predicate Writable<C>(codec: Codec<C>, commits: seq<Commit<C>>, lsn: nat, prev: Hash)
  {
    Fitting(codec, commits, lsn, prev) && AllCommitted(commits)
  }

  lemma WritableParts<C>(codec: Codec<C>, commits: seq<Commit<C>>, lsn: nat, prev: Hash)
    requires Writable(codec, commits, lsn, prev) && commits != []
    ensures Committed(commits[0]) && Fits(codec, commits[0], prev) && lsn < LSN_LIMIT
    ensures Writable(codec, commits[1..], lsn + 1, codec.checksum(Payload(codec, commits[0], prev)))
  {
    hide Committed, Fits, Payload;
  }

  lemma WritableSplits<C>(codec: Codec<C>, a: seq<Commit<C>>, b: seq<Commit<C>>, lsn: nat, prev: Hash)
    ensures Writable(codec, a + b, lsn, prev) <==>
            Writable(codec, a, lsn, prev) && Writable(codec, b, lsn + |a|, LastHash(codec, a, prev))
  {
    hide Committed, Fitting, LastHash;
    LogSplits(codec, a, b, lsn, prev);
    if AllCommitted(a + b) {
      assert forall i | 0 <= i < |a| :: a[i] == (a + b)[i];
      assert forall i | 0 <= i < |b| :: b[i] == (a + b)[|a| + i];
    }
  }

  /** A scan reads a well-formed log entry by entry and carries on with what follows it. */
  lemma {:induction false} ScanThroughLog<C(!new)>(codec: Codec<C>, commits: seq<Commit<C>>, lsn: nat, prev: Hash,
                                                   tail: seq<Byte>, offset: nat)
    requires Lawful(codec) && |prev| == 32 && Writable(codec, commits, lsn, prev)
    ensures var log := Log(codec, commits, lsn, prev);
            Scan(codec, log + tail, offset, prev) ==
            After(Entries(codec, commits, lsn, prev), Scan(codec, tail, offset + |log|, LastHash(codec, commits, prev)))
    decreases |commits|
  {
    hide ReadFrame, FrameOf, Payload, Committed, Fits, Writable;
    var log := Log(codec, commits, lsn, prev);
    if commits == [] {
      assert log + tail == tail;
    } else {
      WritableParts(codec, commits, lsn, prev);
      var f := FrameOf(codec, commits[0], lsn, prev);
      var hash := codec.checksum(Payload(codec, commits[0], prev));
      var rest := Log(codec, commits[1..], lsn + 1, hash);
      assert log + tail == f + (rest + tail);
      ReadWholeFrame(codec, commits[0], lsn, prev, rest + tail, offset);
      assert (f + (rest + tail))[|f|..] == rest + tail;
      ScanThroughLog(codec, commits[1..], lsn + 1, hash, tail, offset + |f|);
      AfterAfter(EntryOf(codec, commits[0], lsn, prev), Entries(codec, commits[1..], lsn + 1, hash),
                 Scan(codec, tail, offset + |log|, LastHash(codec, commits, prev)));
    }
  }

  lemma AfterAfter<C>(first: WalEntry<C>, entries: seq<WalEntry<C>>, rest: WalScan<C>)
    ensures After([first], After(entries, rest)) == After([first] + entries, rest)
  {
    if rest.Scanned? {
      assert [first] + (entries + rest.entries) == [first] + entries + rest.entries;
    }
  }

  lemma {:induction false} LastHashLength<C(!new)>(codec: Codec<C>, commits: seq<Commit<C>>, prev: Hash)
    requires Lawful(codec) && |prev| == 32
    ensures |LastHash(codec, commits, prev)| == 32
    decreases |commits|
  {
    if commits != [] {
      LastHashLength(codec, commits[1..], codec.checksum(Payload(codec, commits[0], prev)));
    }
  }

  lemma {:induction false} FramesSplit<C>(codec: Codec<C>, a: seq<Commit<C>>, b: seq<Commit<C>>, lsn: nat, prev: Hash)
    ensures var hash := LastHash(codec, a, prev);
            && Log(codec, a + b, lsn, prev) == Log(codec, a, lsn, prev) + Log(codec, b, lsn + |a|, hash)
            && LastHash(codec, a + b, prev) == LastHash(codec, b, hash)
    decreases |a|
  {
    hide FrameOf, EntryOf, Payload, Fits;
    if a == [] {
      assert a + b == b;
    } else {
      var rest, next := a[1..], codec.checksum(Payload(codec, a[0], prev));
      assert (a + b)[1..] == rest + b && (a + b)[0] == a[0];
      FramesSplit(codec, rest, b, lsn + 1, next);
      var f, x := FrameOf(codec, a[0], lsn, prev), Log(codec, rest, lsn + 1, next);
      var y := Log(codec, b, lsn + 1 + |rest|, LastHash(codec, rest, next));
      assert f + (x + y) == f + x + y;
    }
  }

  lemma {:induction false} EntriesSplit<C>(codec: Codec<C>, a: seq<Commit<C>>, b: seq<Commit<C>>, lsn: nat, prev: Hash)
    ensures var hash := LastHash(codec, a, prev);
            Entries(codec, a + b, lsn, prev) == Entries(codec, a, lsn, prev) + Entries(codec, b, lsn + |a|, hash)
    decreases |a|
  {
    hide FrameOf, EntryOf, Payload, Fits;
    if a == [] {
      assert a + b == b;
    } else {
      var rest, next := a[1..], codec.checksum(Payload(codec, a[0], prev));
      assert (a + b)[1..] == rest + b && (a + b)[0] == a[0];
      EntriesSplit(codec, rest, b, lsn + 1, next);
      var e, x := EntryOf(codec, a[0], lsn, prev), Entries(codec, rest, lsn + 1, next);
      var y := Entries(codec, b, lsn + 1 + |rest|, LastHash(codec, rest, next));
      assert [e] + (x + y) == [e] + x + y;
    }
  }

  lemma {:induction false} FittingSplits<C>(codec: Codec<C>, a: seq<Commit<C>>, b: seq<Commit<C>>, lsn: nat, prev: Hash)
    ensures var hash := LastHash(codec, a, prev);
            Fitting(codec, a + b, lsn, prev) <==>
            Fitting(codec, a, lsn, prev) && Fitting(codec, b, lsn + |a|, hash)
    decreases |a|
  {
    hide FrameOf, EntryOf, Payload, Fits;
    if a == [] {
      assert a + b == b;
    } else {
      var rest, next := a[1..], codec.checksum(Payload(codec, a[0], prev));
      assert (a + b)[1..] == rest + b && (a + b)[0] == a[0];
      FittingSplits(codec, rest, b, lsn + 1, next);
    }
  }

  lemma LogSplits<C>(codec: Codec<C>, a: seq<Commit<C>>, b: seq<Commit<C>>, lsn: nat, prev: Hash)
    ensures var hash := LastHash(codec, a, prev);
            && Log(codec, a + b, lsn, prev) == Log(codec, a, lsn, prev) + Log(codec, b, lsn + |a|, hash)
            && Entries(codec, a + b, lsn, prev) == Entries(codec, a, lsn, prev) + Entries(codec, b, lsn + |a|, hash)
            && LastHash(codec, a + b, prev) == LastHash(codec, b, hash)
            && (Fitting(codec, a + b, lsn, prev) <==>
                  Fitting(codec, a, lsn, prev) && Fitting(codec, b, lsn + |a|, hash))
  {
    hide Log, Entries, LastHash, Fitting;
    FramesSplit(codec, a, b, lsn, prev);
    EntriesSplit(codec, a, b, lsn, prev);
    FittingSplits(codec, a, b, lsn, prev);
  }

  /** A log in which some commit is not one the reader accepts cannot be scanned, whatever
      follows it. */
  lemma {:induction false} UnreadableLog<C(!new)>(codec: Codec<C>, commits: seq<Commit<C>>, lsn: nat, prev: Hash,
                                                  tail: seq<Byte>, offset: nat)
    requires Lawful(codec) && |prev| == 32 && Fitting(codec, commits, lsn, prev) && !AllCommitted(commits)
    ensures Scan(codec, Log(codec, commits, lsn, prev) + tail, offset, prev).Failed?
    decreases |commits|
  {
    hide ReadFrame, FrameOf, Payload, Committed, Fits;
    var f := FrameOf(codec, commits[0], lsn, prev);
    var hash := codec.checksum(Payload(codec, commits[0], prev));
    var rest := Log(codec, commits[1..], lsn + 1, hash);
    assert Log(codec, commits, lsn, prev) + tail == f + (rest + tail);
    ReadWholeFrame(codec, commits[0], lsn, prev, rest + tail, offset);
    if Committed(commits[0]) {
      assert (f + (rest + tail))[|f|..] == rest + tail;
      UnreadableLog(codec, commits[1..], lsn + 1, hash, tail, offset + |f|);
    }
  }

  /** How many whole frames lie in the first `k` bytes. */
  function WholeFrames<C>(codec: Codec<C>, commits: seq<Commit<C>>, lsn: nat, prev: Hash, k: nat): (j: nat)
    ensures j <= |commits|
  {
    if commits == [] || k < |FrameOf(codec, commits[0], lsn, prev)| then 0
    else 1 + WholeFrames(codec, commits[1..], lsn + 1, codec.checksum(Payload(codec, commits[0], prev)),
                         k - |FrameOf(codec, commits[0], lsn, prev)|)
  }

  /** The first `k` bytes are the whole frames among them and a piece of the next frame. */
  lemma {:induction false} CutSplits<C>(codec: Codec<C>, commits: seq<Commit<C>>, lsn: nat, prev: Hash, k: nat)
    requires k <= |Log(codec, commits, lsn, prev)|
    ensures var j := WholeFrames(codec, commits, lsn, prev, k);
            var whole := Log(codec, commits[..j], lsn, prev);
            && |whole| <= k && (j == |commits| ==> k == |whole|)
            && (j < |commits| ==>
                  var f := FrameOf(codec, commits[j], lsn + j, LastHash(codec, commits[..j], prev));
                  k - |whole| < |f| && Log(codec, commits, lsn, prev)[..k] == whole + f[..k - |whole|])
            && (j == |commits| ==> Log(codec, commits, lsn, prev)[..k] == whole)
    decreases |commits|
  {
    hide FrameOf, Payload;
    if commits != [] {
      var f := FrameOf(codec, commits[0], lsn, prev);
      var hash := codec.checksum(Payload(codec, commits[0], prev));
      var log, rest := Log(codec, commits, lsn, prev), Log(codec, commits[1..], lsn + 1, hash);
      assert log == f + rest;
      if k < |f| {
        assert log[..k] == f[..k];
      } else {
        CutSplits(codec, commits[1..], lsn + 1, hash, k - |f|);
        var j := WholeFrames(codec, commits, lsn, prev, k);
        assert commits[..j][1..] == commits[1..][..j - 1];
        assert log[..k] == f + rest[..k - |f|];
      }
    }
  }

  /** A well-formed log cut at any byte scans to exactly the whole frames before the cut;
      a torn tail is reported exactly when the cut is inside a frame, at the end of the
      last whole frame; and truncating there gives a file that scans cleanly to the same
      entries. */
  lemma ScanOfCutLog<C(!new)>(codec: Codec<C>, commits: seq<Commit<C>>, k: nat)
    requires Lawful(codec) && Writable(codec, commits, 1, NoHash) && k <= |Log(codec, commits, 1, NoHash)|
    ensures var log := Log(codec, commits, 1, NoHash);
            var j := WholeFrames(codec, commits, 1, NoHash, k);
            var whole := Log(codec, commits[..j], 1, NoHash);
            var scan := Scan(codec, log[..k], 0, NoHash);
            && |whole| <= k && scan.Scanned? && scan.entries == Entries(codec, commits, 1, NoHash)[..j]
            && (scan.tornTail.None? <==> k == |whole|)
            && (scan.tornTail.Some? ==> scan.tornTail.value.offset == |whole|)
            && whole == log[..|whole|]
            && Scan(codec, log[..|whole|], 0, NoHash) == Scanned(scan.entries, None)
  {
    hide Log, Entries, Writable, LastHash, FrameOf, ReadFrame;
    var log := Log(codec, commits, 1, NoHash);
    var j := WholeFrames(codec, commits, 1, NoHash, k);
    var front := commits[..j];
    var whole, hash := Log(codec, front, 1, NoHash), LastHash(codec, front, NoHash);
    assert commits == front + commits[j..];
    LogSplits(codec, front, commits[j..], 1, NoHash);
    WritableSplits(codec, front, commits[j..], 1, NoHash);
    CutSplits(codec, commits, 1, NoHash, k);
    LastHashLength(codec, front, NoHash);
    assert Entries(codec, commits, 1, NoHash)[..j] == Entries(codec, front, 1, NoHash);
    ScanThroughLog(codec, front, 1, NoHash, [], 0);
    assert whole + [] == whole;
    assert log[..|whole|] == whole;
    EmptyScan(codec, |whole|, hash);
    if k > |whole| {
      NextIsWritable(codec, commits, j);
      ScanThroughLog(codec, front, 1, NoHash, log[..k][|whole|..], 0);
      ReadCutFrame(codec, commits[j], 1 + j, hash, k - |whole|, |whole|);
      TornScan(codec, FrameOf(codec, commits[j], 1 + j, hash)[..k - |whole|], |whole|, hash);
    }
  }

  lemma EmptyScan<C>(codec: Codec<C>, offset: nat, prev: Hash)
    ensures Scan(codec, [], offset, prev) == Scanned([], None)
  {
  }

  lemma TornScan<C>(codec: Codec<C>, bytes: seq<Byte>, offset: nat, prev: Hash)
    requires ReadFrame(codec, bytes, offset, prev).Torn?
    ensures Scan(codec, bytes, offset, prev) == Scanned([], Some(ReadFrame(codec, bytes, offset, prev).tail))
  {
  }

  lemma NextIsWritable<C>(codec: Codec<C>, commits: seq<Commit<C>>, j: nat)
    requires Writable(codec, commits, 1, NoHash) && j < |commits|
    ensures var hash := LastHash(codec, commits[..j], NoHash);
            Committed(commits[j]) && Fits(codec, commits[j], hash) && 1 + j < LSN_LIMIT
  {
    hide Fits, Committed, Writable;
    assert commits == commits[..j] + commits[j..];
    WritableSplits(codec, commits[..j], commits[j..], 1, NoHash);
    WritableParts(codec, commits[j..], 1 + j, LastHash(codec, commits[..j], NoHash));
    assert commits[j..][0] == commits[j];
  }

  /** Appending any commit whose frame fits leaves a well-formed log readable exactly when
      the reader accepts that commit: the writer itself does not check it. */
  lemma AppendStaysReadable<C(!new)>(codec: Codec<C>, commits: seq<Commit<C>>, commit: Commit<C>)
    requires Lawful(codec) && Writable(codec, commits, 1, NoHash) && |commits| + 1 < LSN_LIMIT
    requires Fits(codec, commit, LastHash(codec, commits, NoHash))
    ensures var hash := LastHash(codec, commits, NoHash);
            var bytes := Log(codec, commits, 1, NoHash) + FrameOf(codec, commit, |commits| + 1, hash);
            Scan(codec, bytes, 0, NoHash).Scanned? <==> Committed(commit)
  {
    hide Log, Entries, Writable, LastHash, FrameOf, ReadFrame, Committed;
    var hash := LastHash(codec, commits, NoHash);
    var f, n := FrameOf(codec, commit, |commits| + 1, hash), |Log(codec, commits, 1, NoHash)|;
    LastHashLength(codec, commits, NoHash);
    ScanThroughLog(codec, commits, 1, NoHash, f, 0);
    ReadWholeFrame(codec, commit, |commits| + 1, hash, [], n);
    assert f + [] == f;
    if Committed(commit) {
      assert f[|f|..] == [];
      EmptyScan(codec, n + |f|, codec.checksum(Payload(codec, commit, hash)));
    }
  }

  /** A commit without the marker is appended like any other, and ends the log's readability. */
  lemma UnmarkedCommitEndsLog<C(!new)>(codec: Codec<C>, changes: C)
    requires Lawful(codec) && Fits(codec, Commit(1, 0, NoHash, "PENDING", changes), NoHash)
    ensures var c := Commit(1, 0, NoHash, "PENDING", changes);
            var out := Append(codec, [], WalTail(None, None, NoHash, 0), c);
            out.result == Acked(1) && Scan(codec, out.bytes, 0, NoHash).Failed?
  {
    hide FrameOf, Payload, Fits, Scan;
    var c := Commit(1, 0, NoHash, "PENDING", changes);
    AppendStaysReadable(codec, [], c);
    assert [] + FrameOf(codec, c, 1, NoHash) == FrameOf(codec, c, 1, NoHash);
  }

  // ---------------------------------------------------------------- any file and what is appended

  /** The checksum of the last entry. */
  function EndHash<C>(entries: seq<WalEntry<C>>, prev: Hash): Hash
  {
    if entries == [] then prev else entries[|entries| - 1].checksum
  }

  /** Bytes that scan whole are read the same way with others behind them. */
  lemma {:induction false} ScanGoesOn<C>(codec: Codec<C>, bytes: seq<Byte>, more: seq<Byte>, offset: nat, prev: Hash)
    requires Scan(codec, bytes, offset, prev).Scanned? && Scan(codec, bytes, offset, prev).tornTail.None?
    ensures var es := Scan(codec, bytes, offset, prev).entries;
            Scan(codec, bytes + more, offset, prev) ==
            After(es, Scan(codec, more, offset + |bytes|, EndHash(es, prev)))
    decreases |bytes|
  {
    hide ReadFrame;
    var r := ReadFrame(codec, bytes, offset, prev);
    if r.Frame? {
      ReadIsLocal(codec, bytes, more, offset, prev);
      assert (bytes + more)[r.size..] == bytes[r.size..] + more;
      ScanGoesOn(codec, bytes[r.size..], more, offset + r.size, r.entry.checksum);
      var es := Scan(codec, bytes[r.size..], offset + r.size, r.entry.checksum).entries;
      AfterAfter(r.entry, es, Scan(codec, more, offset + |bytes|, EndHash(es, r.entry.checksum)));
    } else {
      NothingToRead(codec, bytes, offset, prev);
      assert bytes + more == more;
      AfterNothing(Scan(codec, more, offset, prev));
    }
  }

  lemma NothingToRead<C>(codec: Codec<C>, bytes: seq<Byte>, offset: nat, prev: Hash)
    requires ReadFrame(codec, bytes, offset, prev).EndOfLog?
    ensures bytes == []
  {
  }

  lemma AfterNothing<C>(rest: WalScan<C>)
    ensures After([], rest) == rest
  {
    if rest.Scanned? { assert [] + rest.entries == rest.entries; }
  }

  lemma {:induction false} ScanStaysFailed<C>(codec: Codec<C>, bytes: seq<Byte>, more: seq<Byte>, offset: nat,
                                              prev: Hash)
    requires Scan(codec, bytes, offset, prev).Failed?
    ensures Scan(codec, bytes + more, offset, prev).Failed?
    decreases |bytes|
  {
    hide ReadFrame;
    ReadIsLocal(codec, bytes, more, offset, prev);
    var r := ReadFrame(codec, bytes, offset, prev);
    if r.Frame? {
      assert (bytes + more)[r.size..] == bytes[r.size..] + more;
      ScanStaysFailed(codec, bytes[r.size..], more, offset + r.size, r.entry.checksum);
    }
  }

  lemma {:induction false} EndHashLength<C(!new)>(codec: Codec<C>, bytes: seq<Byte>, offset: nat, prev: Hash)
    requires Lawful(codec) && |prev| == 32 && Scan(codec, bytes, offset, prev).Scanned?
    ensures |EndHash(Scan(codec, bytes, offset, prev).entries, prev)| == 32
    decreases |bytes|
  {
    hide ReadFrame;
    var r := ReadFrame(codec, bytes, offset, prev);
    if r.Frame? {
      ReadAcceptsOnlyFrames(codec, bytes, offset, prev);
      EndHashLength(codec, bytes[r.size..], offset + r.size, r.entry.checksum);
    }
  }

  /** A frame appended to a file that scans whole keeps it readable if and only if it is chained
      to the file's last frame: then it is one entry more. */
  lemma FrameAppended<C(!new)>(codec: Codec<C>, file: seq<Byte>, c: Commit<C>, lsn: nat, prev: Hash)
    requires Lawful(codec) && Committed(c) && |prev| == 32 && lsn < LSN_LIMIT && Fits(codec, c, prev)
    requires Scan(codec, file, 0, NoHash).Scanned? && Scan(codec, file, 0, NoHash).tornTail.None?
    ensures var es := Scan(codec, file, 0, NoHash).entries;
            var scan := Scan(codec, file + FrameOf(codec, c, lsn, prev), 0, NoHash);
            if prev == EndHash(es, NoHash) then scan == Scanned(es + [EntryOf(codec, c, lsn, prev)], None)
            else scan.Failed?
  {
    hide ReadFrame, FrameOf, Committed, Fits;
    var es, f := Scan(codec, file, 0, NoHash).entries, FrameOf(codec, c, lsn, prev);
    var end := EndHash(es, NoHash);
    ScanGoesOn(codec, file, f, 0, NoHash);
    if prev == end {
      ReadWholeFrame(codec, c, lsn, prev, [], |file|);
      assert f + [] == f && f[|f|..] == [];
      EmptyScan(codec, |file| + |f|, codec.checksum(Payload(codec, c, prev)));
    } else {
      ReadMischained(codec, c, lsn, prev, end, |file|);
    }
  }

  // ---------------------------------------------------------------- the cached tail

  datatype WalTail = WalTail(lastLsn: Option<nat>, lastEpoch: Option<nat>, lastChecksum: Hash, fileLen: nat)

  function TailFromScan<C>(entries: seq<WalEntry<C>>, fileLen: nat): WalTail
  {
    if entries == [] then WalTail(None, None, NoHash, fileLen)
    else var last := entries[|entries| - 1]; WalTail(Some(last.lsn), Some(last.commit.epoch), last.checksum, fileLen)
  }

  datatype Opened =
    | Opened(bytes: seq<Byte>, tail: WalTail, recovered: Option<TornWalTail>)
    | OpenFailed(error: WalError)

  /** Opening scans the file and truncates a torn tail. */
  function OpenLog<C>(codec: Codec<C>, bytes: seq<Byte>): Opened
  {
    match Scan(codec, bytes, 0, NoHash)
    case Failed(error) => OpenFailed(error)
    case Scanned(entries, torn) =>
      var kept := if torn.Some? && torn.value.offset <= |bytes| then bytes[..torn.value.offset] else bytes;
      Opened(kept, TailFromScan(entries, |kept|), torn)
  }

  /** The tail to append at: rescanned when the file has changed length behind the cache. */
  function Refresh<C>(codec: Codec<C>, bytes: seq<Byte>, tail: WalTail): Option<WalTail>
  {
    if tail.fileLen == |bytes| then Some(tail) else
    match Scan(codec, bytes, 0, NoHash)
    case Failed(_) => None
    case Scanned(entries, _) => Some(TailFromScan(entries, |bytes|))
  }

  datatype AppendResult = Acked(lsn: nat) | Refused

  datatype Appended = Appended(bytes: seq<Byte>, tail: WalTail, result: AppendResult)

  function NextLsn(tail: WalTail): nat
  {
    if tail.lastLsn.Some? then tail.lastLsn.value + 1 else 1
  }

  /** A 64-bit LSN that overflows ends the process before anything is written; it reads
      as a refusal here. */
  function Append<C>(codec: Codec<C>, bytes: seq<Byte>, cached: WalTail, commit: Commit<C>): Appended
  {
    match Refresh(codec, bytes, cached)
    case None => Appended(bytes, cached, Refused)
    case Some(tail) =>
      var lsn, prev := NextLsn(tail), tail.lastChecksum;
      if lsn >= LSN_LIMIT || !Fits(codec, commit, prev) then Appended(bytes, tail, Refused)
      else
        var f := FrameOf(codec, commit, lsn, prev);
        Appended(bytes + f,
                 WalTail(Some(lsn), Some(commit.epoch), codec.checksum(Payload(codec, commit, prev)),
                         tail.fileLen + |f|),
                 Acked(lsn))
  }

  lemma AfterOne<C>(entries: seq<WalEntry<C>>, next: WalEntry<C>, rest: WalScan<C>)
    ensures After(entries, After([next], rest)) == After(entries + [next], rest)
  {
    if rest.Scanned? {
      assert entries + ([next] + rest.entries) == entries + [next] + rest.entries;
    }
  }

  /** One turn of the scan loop. */
  lemma ScanStep<C>(codec: Codec<C>, bytes: seq<Byte>, offset: nat, prev: Hash, entries: seq<WalEntry<C>>)
    requires offset <= |bytes|
    ensures var whole := After(entries, Scan(codec, bytes[offset..], offset, prev));
            match ReadFrame(codec, bytes[offset..], offset, prev)
            case EndOfLog => whole == Scanned(entries, None)
            case Torn(tail) => whole == Scanned(entries, Some(tail))
            case Corrupt(error) => whole == Failed(error)
            case Frame(entry, size) =>
              && 0 < size <= |bytes| - offset
              && whole == After(entries + [entry], Scan(codec, bytes[offset + size..], offset + size, entry.checksum))
  {
    hide ReadFrame;
    var r := ReadFrame(codec, bytes[offset..], offset, prev);
    if r.Frame? {
      assert bytes[offset..][r.size..] == bytes[offset + r.size..];
      AfterOne(entries, r.entry, Scan(codec, bytes[offset + r.size..], offset + r.size, r.entry.checksum));
    }
  }

  /** The scan loop. */
  method ScanFile<C>(codec: Codec<C>, bytes: seq<Byte>) returns (r: WalScan<C>)
    ensures r == Scan(codec, bytes, 0, NoHash)
  {
    hide ReadFrame;
    var entries: seq<WalEntry<C>> := [];
    var offset := 0;
    var prev := NoHash;
    assert bytes[0..] == bytes;
    while true
      invariant 0 <= offset <= |bytes|
      invariant After(entries, Scan(codec, bytes[offset..], offset, prev)) == Scan(codec, bytes, 0, NoHash)
      decreases |bytes| - offset
    {
      ScanStep(codec, bytes, offset, prev, entries);
      match ReadFrame(codec, bytes[offset..], offset, prev) {
        case EndOfLog => return Scanned(entries, None);
        case Torn(tail) => return Scanned(entries, Some(tail));
        case Corrupt(error) => return Failed(error);
        case Frame(entry, size) => entries, offset, prev := entries + [entry], offset + size, entry.checksum;
      }
    }
  }

  class LogFile {
    var bytes: seq<Byte>
    constructor ()
      ensures bytes == []
    {
      bytes := [];
    }
  }

  /** A handle on the log file: the path is `file`, the cached tail is its own. */
  class WalHandle<C> {
    const codec: Codec<C>
    const file: LogFile
    var tail: WalTail
    const recoveryTornTail: Option<TornWalTail>

    constructor (codec: Codec<C>, file: LogFile, tail: WalTail, torn: Option<TornWalTail>)
      ensures this.codec == codec && this.file == file && this.tail == tail && recoveryTornTail == torn
    {
      this.codec, this.file, this.tail, this.recoveryTornTail := codec, file, tail, torn;
    }

    method AppendCommit(commit: Commit<C>) returns (r: AppendResult)
      modifies this, file
      ensures Appended(file.bytes, tail, r) == Append(codec, old(file.bytes), old(tail), commit)
    {
      hide Scan, FrameOf, Fits;
      if |file.bytes| != tail.fileLen {
        var scan := ScanFile(codec, file.bytes);
        if scan.Failed? { return Refused; }
        tail := TailFromScan(scan.entries, |file.bytes|);
      }
      var lsn, prev := NextLsn(tail), tail.lastChecksum;
      if lsn >= LSN_LIMIT || !Fits(codec, commit, prev) { return Refused; }
      var frame := FrameOf(codec, commit, lsn, prev);
      file.bytes := file.bytes + frame;
      tail := WalTail(Some(lsn), Some(commit.epoch), codec.checksum(Payload(codec, commit, prev)),
                      tail.fileLen + |frame|);
      return Acked(lsn);
    }
  }

  method Open<C>(codec: Codec<C>, file: LogFile) returns (r: Option<WalHandle<C>>)
    modifies file
    ensures match OpenLog(codec, old(file.bytes))
            case OpenFailed(_) => r.None? && file.bytes == old(file.bytes)
            case Opened(bytes, tail, torn) =>
              && file.bytes == bytes && r.Some? && fresh(r.value)
              && r.value.codec == codec && r.value.file == file && r.value.tail == tail
              && r.value.recoveryTornTail == torn
  {
    hide Scan;
    var scan := ScanFile(codec, file.bytes);
    if scan.Failed? { return None; }
    if scan.tornTail.Some? && scan.tornTail.value.offset <= |file.bytes| {
      file.bytes := file.bytes[..scan.tornTail.value.offset];
    }
    var h := new WalHandle(codec, file, TailFromScan(scan.entries, |file.bytes|), scan.tornTail);
    return Some(h);
  }
}
