/** Runs of the log: any number of handles of one process open, append and crash over one
    file. A crash ends all of them: a handle of another process that outlived a crash inside an
    append would go on behind the torn piece, which only opening truncates. */
module WalRuns {
  import opened Ordering
  import opened Bytes
  import opened WalFrame
  import opened Wal

  datatype Ack<C> = Ack(lsn: nat, commit: Commit<C>)

  /** `file` and the cached tails of the live handles are the system. `written` is the
      history of commits whose frame reached the file whole; `acks` those whose append
      returned; `interrupted` the LSNs of those whose append never returned. */
  datatype State<C> = State(file: seq<Byte>, handles: map<nat, WalTail>,
                            written: seq<Commit<C>>, acks: seq<Ack<C>>, interrupted: seq<nat>)

  datatype Event<C> =
    | OpenHandle(h: nat)
    | AppendThrough(h: nat, commit: Commit<C>)
    | CrashInAppend(h: nat, commit: Commit<C>, k: nat)  // after `k` bytes of the frame
    | Crash

  function Initial<C>(): State<C>
  {
    State([], map[], [], [], [])
  }

  function Next<C>(codec: Codec<C>, s: State<C>, e: Event<C>): State<C>
  {
    match e
    case OpenHandle(h) =>
      (match OpenLog(codec, s.file)
       case OpenFailed(_) => s
       case Opened(bytes, tail, _) => s.(file := bytes, handles := s.handles[h := tail]))
    case AppendThrough(h, commit) =>
      if h !in s.handles then s else
      var out := Append(codec, s.file, s.handles[h], commit);
      var t := s.(file := out.bytes, handles := s.handles[h := out.tail]);
      if !out.result.Acked? then t
      else t.(written := s.written + [commit], acks := s.acks + [Ack(out.result.lsn, commit)])
    case CrashInAppend(h, commit, k) =>
      if h !in s.handles then s else
      var out := Append(codec, s.file, s.handles[h], commit);
      if !out.result.Acked? || |s.file| + k > |out.bytes| then s else
      var t := s.(file := out.bytes[..|s.file| + k], handles := map[]);
      if |s.file| + k < |out.bytes| then t
      else t.(written := s.written + [commit], interrupted := s.interrupted + [out.result.lsn])
    case Crash => s.(handles := map[])
  }

  function Run<C>(codec: Codec<C>, s: State<C>, events: seq<Event<C>>): State<C>
    decreases |events|
  {
    if events == [] then s else Run(codec, Next(codec, s, events[0]), events[1..])
  }

  /** The tail of a handle that last looked when the first `n` commits were in the file. */
  function TailAt<C>(codec: Codec<C>, written: seq<Commit<C>>, n: nat): WalTail
    requires n <= |written|
  {
    TailFromScan(Entries(codec, written[..n], 1, NoHash), |Log(codec, written[..n], 1, NoHash)|)
  }

  ghost predicate KnownTail<C>(codec: Codec<C>, written: seq<Commit<C>>, t: WalTail)
  {
    exists n | 0 <= n <= |written| :: t == TailAt(codec, written, n)
  }

  /** `piece` is a proper beginning of some frame that could come next. */
  ghost predicate TornPiece<C(!new)>(codec: Codec<C>, written: seq<Commit<C>>, piece: seq<Byte>)
  {
    piece == [] ||
    exists c: Commit<C> ::
      && NextFits(codec, written, c)
      && piece < FrameOf(codec, c, |written| + 1, LastHash(codec, written, NoHash))
  }

  predicate NextFits<C>(codec: Codec<C>, written: seq<Commit<C>>, c: Commit<C>)
  {
    Fits(codec, c, LastHash(codec, written, NoHash)) && |written| + 1 < LSN_LIMIT
  }

  /** The LSNs acknowledged and the LSNs interrupted split 1..n between them, each
      acknowledgement naming the commit written at its LSN. */
  ghost predicate Accounted<C>(s: State<C>)
  {
    && (forall i | 0 <= i < |s.acks| :: 1 <= s.acks[i].lsn <= |s.written| &&
         s.acks[i].commit == s.written[s.acks[i].lsn - 1])
    && (forall i, j | 0 <= i < j < |s.acks| :: s.acks[i].lsn < s.acks[j].lsn)
    && (forall i | 0 <= i < |s.interrupted| :: 1 <= s.interrupted[i] <= |s.written|)
    && (forall n | 1 <= n <= |s.written| :: n in s.interrupted <==> !AckedAt(s, n))
  }

  ghost predicate AckedAt<C>(s: State<C>, n: nat)
  {
    exists i | 0 <= i < |s.acks| :: s.acks[i].lsn == n
  }

  ghost predicate Inv<C(!new)>(codec: Codec<C>, s: State<C>)
  {
    var log := Log(codec, s.written, 1, NoHash);
    && Fitting(codec, s.written, 1, NoHash)
    && log <= s.file && TornPiece(codec, s.written, s.file[|log|..])
    && (s.handles != map[] ==> s.file == log)
    && (forall h | h in s.handles :: KnownTail(codec, s.written, s.handles[h]))
    && Accounted(s)
  }

  /** In a state that keeps the invariant, the file scans to the history if and only if the
      reader accepts every commit of it. */
  lemma ScanOfState<C(!new)>(codec: Codec<C>, s: State<C>)
    requires Lawful(codec) && Inv(codec, s)
    ensures var scan, log := Scan(codec, s.file, 0, NoHash), Log(codec, s.written, 1, NoHash);
            && (scan.Scanned? <==> AllCommitted(s.written))
            && (scan.Scanned? ==>
                  && scan.entries == Entries(codec, s.written, 1, NoHash)
                  && scan.tornTail.None? == (s.file == log)
                  && (scan.tornTail.Some? ==> scan.tornTail.value.offset == |log|))
  {
    hide Log, Entries, Fitting, LastHash, FrameOf, ReadFrame, Accounted, KnownTail, Fits, AllCommitted;
    var log, hash := Log(codec, s.written, 1, NoHash), LastHash(codec, s.written, NoHash);
    var piece := s.file[|log|..];
    assert s.file == log + piece;
    if !AllCommitted(s.written) {
      UnreadableLog(codec, s.written, 1, NoHash, piece, 0);
      return;
    }
    ScanThroughLog(codec, s.written, 1, NoHash, piece, 0);
    LastHashLength(codec, s.written, NoHash);
    if piece == [] {
      EmptyScan(codec, |log|, hash);
    } else {
      var c :| NextFits(codec, s.written, c) && piece < FrameOf(codec, c, |s.written| + 1, hash);
      var f := FrameOf(codec, c, |s.written| + 1, hash);
      assert piece == f[..|piece|];
      ReadCutFrame(codec, c, |s.written| + 1, hash, |piece|, |log|);
      TornScan(codec, piece, |log|, hash);
    }
  }

  lemma {:induction false} EntryAt<C>(codec: Codec<C>, commits: seq<Commit<C>>, lsn: nat, prev: Hash, i: nat)
    requires i < |commits|
    ensures var e := Entries(codec, commits, lsn, prev)[i];
            var hash := LastHash(codec, commits[..i], prev);
            && e == EntryOf(codec, commits[i], lsn + i, hash)
            && e.checksum == LastHash(codec, commits[..i + 1], prev)
    decreases |commits|
  {
    hide Payload;
    var next := codec.checksum(Payload(codec, commits[0], prev));
    if i > 0 {
      EntryAt(codec, commits[1..], lsn + 1, next, i - 1);
      assert commits[..i][1..] == commits[1..][..i - 1];
      assert commits[..i + 1][1..] == commits[1..][..i];
    } else {
      assert commits[..1][1..] == [];
    }
  }

  /** The tail kept from a scan names the next LSN and the hash to chain to. */
  lemma TailNamesNext<C>(codec: Codec<C>, written: seq<Commit<C>>)
    ensures var t := TailAt(codec, written, |written|);
            && NextLsn(t) == |written| + 1 && t.lastChecksum == LastHash(codec, written, NoHash)
            && t.fileLen == |Log(codec, written, 1, NoHash)|
  {
    hide Log, Payload;
    assert written[..|written|] == written;
    if written != [] {
      EntryAt(codec, written, 1, NoHash, |written| - 1);
    }
  }

  /** Every frame takes room, so a cached length tells how much of the log was seen. */
  lemma LengthTellsCount<C>(codec: Codec<C>, written: seq<Commit<C>>, n: nat)
    requires n <= |written| && |Log(codec, written[..n], 1, NoHash)| == |Log(codec, written, 1, NoHash)|
    ensures n == |written|
  {
    hide FrameOf;
    assert written == written[..n] + written[n..];
    LogSplits(codec, written[..n], written[n..], 1, NoHash);
    if n < |written| {
      FrameHasLength(codec, written[n], 1 + n, LastHash(codec, written[..n], NoHash));
    }
  }

  lemma FrameHasLength<C>(codec: Codec<C>, c: Commit<C>, lsn: nat, prev: Hash)
    ensures |FrameOf(codec, c, lsn, prev)| >= 28
  {
  }

  /** However stale a handle's cache, it appends at the tail of the whole history, or, when
      it would have to rescan a history the reader refuses, not at all. */
  lemma RefreshedTail<C(!new)>(codec: Codec<C>, s: State<C>, h: nat)
    requires Lawful(codec) && Inv(codec, s) && h in s.handles
    ensures var t := Refresh(codec, s.file, s.handles[h]);
            && (t.Some? <==> AllCommitted(s.written) || s.handles[h].fileLen == |s.file|)
            && (t.Some? ==> t.value == TailAt(codec, s.written, |s.written|))
  {
    hide Log, Entries, Scan, Fitting, TornPiece, Accounted, AllCommitted;
    assert s.written[..|s.written|] == s.written;
    var n :| 0 <= n <= |s.written| && s.handles[h] == TailAt(codec, s.written, n);
    ScanOfState(codec, s);
    TailLength(codec, s.written, n);
    if s.handles[h].fileLen == |s.file| { LengthTellsCount(codec, s.written, n); }
  }

  lemma TailLength<C>(codec: Codec<C>, written: seq<Commit<C>>, n: nat)
    requires n <= |written|
    ensures TailAt(codec, written, n).fileLen == |Log(codec, written[..n], 1, NoHash)|
  {
    hide Log, Entries;
  }

  /** What an append through a live handle does. */
  lemma AppendShape<C(!new)>(codec: Codec<C>, s: State<C>, h: nat, c: Commit<C>)
    requires Lawful(codec) && Inv(codec, s) && h in s.handles
    ensures var out, hash := Append(codec, s.file, s.handles[h], c), LastHash(codec, s.written, NoHash);
            var f := FrameOf(codec, c, |s.written| + 1, hash);
            if NextFits(codec, s.written, c) && (AllCommitted(s.written) || s.handles[h].fileLen == |s.file|)
            then out.bytes == s.file + f && out.result == Acked(|s.written| + 1)
              && out.tail == WalTail(Some(|s.written| + 1), Some(c.epoch), codec.checksum(Payload(codec, c, hash)),
                                     |s.file + f|)
            else
              && out.bytes == s.file && out.result == Refused
              && out.tail in {TailAt(codec, s.written, |s.written|), s.handles[h]}
  {
    hide Log, Entries, Scan, Refresh, Fitting, AllCommitted, TornPiece, Accounted, KnownTail, FrameOf, Payload, Fits,
        TailAt;
    RefreshedTail(codec, s, h);
    TailNamesNext(codec, s.written);
  }

  lemma ExtendWritten<C>(codec: Codec<C>, written: seq<Commit<C>>, c: Commit<C>)
    requires Fitting(codec, written, 1, NoHash) && NextFits(codec, written, c)
    ensures var hash, more := LastHash(codec, written, NoHash), written + [c];
            && Fitting(codec, more, 1, NoHash)
            && Log(codec, more, 1, NoHash) == Log(codec, written, 1, NoHash) + FrameOf(codec, c, |written| + 1, hash)
            && LastHash(codec, more, NoHash) == codec.checksum(Payload(codec, c, hash))
            && Entries(codec, more, 1, NoHash) == Entries(codec, written, 1, NoHash) +
                 [EntryOf(codec, c, |written| + 1, hash)]
  {
    hide Payload, FrameOf, Fits, Committed;
    LogSplits(codec, written, [c], 1, NoHash);
    var hash := LastHash(codec, written, NoHash);
    assert [c][1..] == [];
    assert Log(codec, [c], |written| + 1, hash) == FrameOf(codec, c, |written| + 1, hash) + [];
    assert Entries(codec, [c], |written| + 1, hash) == [EntryOf(codec, c, |written| + 1, hash)];
  }

  lemma TailsStayKnown<C>(codec: Codec<C>, written: seq<Commit<C>>, c: Commit<C>, t: WalTail)
    requires KnownTail(codec, written, t)
    ensures KnownTail(codec, written + [c], t)
  {
    hide Log, Entries, TailFromScan;
    var n :| 0 <= n <= |written| && t == TailAt(codec, written, n);
    assert (written + [c])[..n] == written[..n];
    assert t == TailAt(codec, written + [c], n);
  }

  lemma NewTailIsKnown<C>(codec: Codec<C>, written: seq<Commit<C>>, c: Commit<C>)
    requires Fitting(codec, written, 1, NoHash) && NextFits(codec, written, c)
    ensures var hash := LastHash(codec, written, NoHash);
            var f := FrameOf(codec, c, |written| + 1, hash);
            KnownTail(codec, written + [c],
                      WalTail(Some(|written| + 1), Some(c.epoch), codec.checksum(Payload(codec, c, hash)),
                              |Log(codec, written, 1, NoHash) + f|))
  {
    hide Log, Entries, Fitting, LastHash, Payload, FrameOf, Fits, Committed;
    ExtendWritten(codec, written, c);
    var more := written + [c];
    assert more[..|more|] == more;
    assert TailAt(codec, more, |more|) ==
           WalTail(Some(|written| + 1), Some(c.epoch),
                   codec.checksum(Payload(codec, c, LastHash(codec, written, NoHash))), |Log(codec, more, 1, NoHash)|);
  }

  lemma AccountOne<C>(s: State<C>, t: State<C>, c: Commit<C>)
    requires Accounted(s) && t.written == s.written + [c]
    requires (t.acks == s.acks + [Ack(|s.written| + 1, c)] && t.interrupted == s.interrupted)
          || (t.acks == s.acks && t.interrupted == s.interrupted + [|s.written| + 1])
    ensures Accounted(t)
  {
    var last := |s.written| + 1;
    forall n | 1 <= n <= |t.written| ensures n in t.interrupted <==> !AckedAt(t, n) {
      if n < last {
        assert AckedAt(s, n) ==> AckedAt(t, n) by {
          if AckedAt(s, n) {
            var i :| 0 <= i < |s.acks| && s.acks[i].lsn == n;
            assert t.acks[i].lsn == n;
          }
        }
        assert AckedAt(t, n) ==> AckedAt(s, n);
      } else if t.acks != s.acks {
        assert t.acks[|s.acks|].lsn == n;
        assert n !in s.interrupted;
      } else {
        assert t.interrupted[|s.interrupted|] == n;
      }
    }
  }

  lemma NextKeepsInv<C(!new)>(codec: Codec<C>, s: State<C>, e: Event<C>)
    requires Lawful(codec) && Inv(codec, s)
    ensures Inv(codec, Next(codec, s, e))
  {
    hide Accounted;
    match e {
      case OpenHandle(h) => OpenKeepsInv(codec, s, h);
      case AppendThrough(h, c) => if h in s.handles { AppendKeepsInv(codec, s, h, c); }
      case CrashInAppend(h, c, k) => if h in s.handles { CrashKeepsInv(codec, s, h, c, k); }
      case Crash =>
        hide Log, Fitting, TornPiece;
        SameAccount(s, s.(handles := map[]));
    }
  }

  lemma SameAccount<C>(s: State<C>, t: State<C>)
    requires Accounted(s) && t.written == s.written && t.acks == s.acks && t.interrupted == s.interrupted
    ensures Accounted(t)
  {
    assert forall n: nat :: AckedAt(t, n) == AckedAt(s, n);
  }

  lemma OpenKeepsInv<C(!new)>(codec: Codec<C>, s: State<C>, h: nat)
    requires Lawful(codec) && Inv(codec, s)
    ensures Inv(codec, Next(codec, s, OpenHandle(h)))
  {
    hide Log, Entries, Fitting, Scan, Accounted, FrameOf;
    ScanOfState(codec, s);
    var t := Next(codec, s, OpenHandle(h));
    if t == s { return; }
    var log := Log(codec, s.written, 1, NoHash);
    assert t.file == log && t.file[|log|..] == [];
    assert s.written[..|s.written|] == s.written;
    assert t.handles[h] == TailAt(codec, s.written, |s.written|);
    SameAccount(s, t);
  }

  lemma AppendKeepsInv<C(!new)>(codec: Codec<C>, s: State<C>, h: nat, c: Commit<C>)
    requires Lawful(codec) && Inv(codec, s) && h in s.handles
    ensures Inv(codec, Next(codec, s, AppendThrough(h, c)))
  {
    hide Log, Entries, Fitting, LastHash, Append, Accounted, FrameOf, Payload, Fits, AllCommitted, KnownTail, TailAt;
    AppendShape(codec, s, h, c);
    var t := Next(codec, s, AppendThrough(h, c));
    if Append(codec, s.file, s.handles[h], c).result.Acked? {
      ExtendWritten(codec, s.written, c);
      NewTailIsKnown(codec, s.written, c);
      forall g | g in t.handles ensures KnownTail(codec, t.written, t.handles[g]) {
        if g != h { TailsStayKnown(codec, s.written, c, s.handles[g]); }
      }
      assert t.file[|t.file|..] == [];
      AccountOne(s, t, c);
    } else {
      WholeTailIsKnown(codec, s.written);
      SameAccount(s, t);
    }
  }

  lemma WholeTailIsKnown<C>(codec: Codec<C>, written: seq<Commit<C>>)
    ensures KnownTail(codec, written, TailAt(codec, written, |written|))
  {
  }

  lemma CrashKeepsInv<C(!new)>(codec: Codec<C>, s: State<C>, h: nat, c: Commit<C>, k: nat)
    requires Lawful(codec) && Inv(codec, s) && h in s.handles
    ensures Inv(codec, Next(codec, s, CrashInAppend(h, c, k)))
  {
    hide Log, Entries, Fitting, LastHash, Append, Accounted, FrameOf, Payload, Fits, AllCommitted, KnownTail, TailAt;
    AppendShape(codec, s, h, c);
    var t := Next(codec, s, CrashInAppend(h, c, k));
    if Append(codec, s.file, s.handles[h], c).result.Acked? {
      var hash := LastHash(codec, s.written, NoHash);
      var f := FrameOf(codec, c, |s.written| + 1, hash);
      if k < |f| {
        assert t.file[|s.file|..] == f[..k];
        assert f[..k] < f;
        SameAccount(s, t);
      } else if k == |f| {
        ExtendWritten(codec, s.written, c);
        assert t.file == s.file + f;
        assert t.file[|t.file|..] == [];
        AccountOne(s, t, c);
      }
    }
  }

  lemma {:induction false} RunKeepsInv<C(!new)>(codec: Codec<C>, s: State<C>, events: seq<Event<C>>)
    requires Lawful(codec) && Inv(codec, s)
    ensures Inv(codec, Run(codec, s, events))
    decreases |events|
  {
    hide Inv, Next;
    if events != [] {
      NextKeepsInv(codec, s, events[0]);
      RunKeepsInv(codec, Next(codec, s, events[0]), events[1..]);
    }
  }

  ghost predicate LinkAt<C>(entries: seq<WalEntry<C>>, written: seq<Commit<C>>, i: nat)
    requires i < |entries| == |written|
  {
    && entries[i].lsn == i + 1
    && entries[i].commit == written[i].(previousCommitHash := if i == 0 then NoHash else entries[i - 1].checksum)
  }

  /** The entries carry LSNs 1..n and the written commits, each naming the checksum of the
      entry before it. */
  ghost predicate Chained<C>(entries: seq<WalEntry<C>>, written: seq<Commit<C>>)
  {
    |entries| == |written| && forall i | 0 <= i < |entries| :: LinkAt(entries, written, i)
  }

  /** Over every run of open, append and crash from an empty file: the log scans if and only
      if the reader accepts every commit that was appended, which the writer does not check.
      Then its LSNs are 1..n, its checksum chain is unbroken, and what any handle appends at
      is the tail of a fresh scan. Every acknowledged commit is in the history once, at its
      LSN, in order, and every other commit of it was interrupted after its last byte. */
  lemma EveryRun<C(!new)>(codec: Codec<C>, events: seq<Event<C>>)
    requires Lawful(codec)
    ensures var s := Run(codec, Initial(), events);
            var scan := Scan(codec, s.file, 0, NoHash);
            && (scan.Scanned? <==> AllCommitted(s.written))
            && (scan.Scanned? ==> Chained(scan.entries, s.written) && TailsAreFresh(codec, s, scan.entries))
            && Accounted(s)
  {
    hide Inv, Log, Entries, Accounted, TailsAreFresh, Scan, Chained, Run, AllCommitted;
    InitialInv(codec);
    RunKeepsInv(codec, Initial(), events);
    var s := Run(codec, Initial(), events);
    ScanOfState(codec, s);
    AccountHolds(codec, s);
    HistoryIsChained(codec, s.written);
    if AllCommitted(s.written) { FreshTails(codec, s); }
  }

  /** Every live handle appends at the tail of a fresh scan. */
  ghost predicate TailsAreFresh<C>(codec: Codec<C>, s: State<C>, entries: seq<WalEntry<C>>)
  {
    forall h | h in s.handles :: Refresh(codec, s.file, s.handles[h]) == Some(TailFromScan(entries, |s.file|))
  }

  lemma FreshTails<C(!new)>(codec: Codec<C>, s: State<C>)
    requires Lawful(codec) && Inv(codec, s) && AllCommitted(s.written)
    ensures TailsAreFresh(codec, s, Entries(codec, s.written, 1, NoHash))
  {
    hide Fitting, Log, Entries, Accounted, Refresh, TornPiece, KnownTail, TailFromScan;
    assert s.written[..|s.written|] == s.written;
    forall h | h in s.handles
      ensures Refresh(codec, s.file, s.handles[h]) == Some(TailFromScan(Entries(codec, s.written, 1, NoHash), |s.file|))
    {
      RefreshedTail(codec, s, h);
    }
  }

  lemma HistoryIsChained<C>(codec: Codec<C>, written: seq<Commit<C>>)
    ensures Chained(Entries(codec, written, 1, NoHash), written)
  {
    hide Entries, LastHash, Payload;
    var e := Entries(codec, written, 1, NoHash);
    assert written[..0] == [];
    assert LastHash(codec, [], NoHash) == NoHash by { NoCommits(codec); }
    forall i | 0 <= i < |written|
      ensures LinkAt(e, written, i)
    {
      EntryAt(codec, written, 1, NoHash, i);
      if i > 0 {
        EntryAt(codec, written, 1, NoHash, i - 1);
        assert written[..i - 1 + 1] == written[..i];
      }
    }
  }

  lemma NoCommits<C>(codec: Codec<C>)
    ensures LastHash(codec, [], NoHash) == NoHash
  {
  }

  lemma AccountHolds<C(!new)>(codec: Codec<C>, s: State<C>)
    requires Inv(codec, s)
    ensures Accounted(s)
  {
  }

  lemma InitialInv<C(!new)>(codec: Codec<C>)
    ensures Inv(codec, Initial())
  {
  }
}
