/** The cached tails of several handles over one log file (crates/tracedb-log/src/lib.rs). A cloned
    handle shares the cell its tail is kept in; a checkpoint truncates the file and gives a new
    cell to the handle that takes it, to no other. A cell is rescanned only when the file has
    another length than it has cached. */
module WalTails {
  import opened Ordering
  import opened Bytes
  import opened WalFrame
  import opened Wal

  /** `file`, `cells` and `cellOf` are the system. `current` are the cells that looked since the
      file was last truncated; `misled` says that since then a frame was chained to something
      other than the last frame of the file. */
  datatype Shared = Shared(file: seq<Byte>, cells: seq<WalTail>, cellOf: map<nat, nat>, current: set<nat>,
                           misled: bool)

  const NoTail := WalTail(None, None, NoHash, 0)

  const NewLog := Shared([], [], map[], {}, false)

  function CellOf(s: Shared, h: nat): nat
  {
    if h in s.cellOf then s.cellOf[h] else |s.cells|
  }

  function TailOf(s: Shared, h: nat): WalTail
  {
    if CellOf(s, h) < |s.cells| then s.cells[CellOf(s, h)] else NoTail
  }

  function SetTail(s: Shared, h: nat, t: WalTail): Shared
  {
    if CellOf(s, h) < |s.cells| then s.(cells := s.cells[CellOf(s, h) := t]) else s
  }

  /** A clone takes the cell along. */
  function Share(s: Shared, h: nat, copy: nat): Shared
  {
    s.(cellOf := s.cellOf[copy := CellOf(s, h)])
  }

  /** The handle asks for the last epoch in the log, and rescans if the length has changed; `None` is
      the error of a scan that fails. */
  function Look<C>(codec: Codec<C>, s: Shared, h: nat): Option<Shared>
  {
    match Refresh(codec, s.file, TailOf(s, h))
    case None => None
    case Some(t) =>
      Some(SetTail(s, h, t).(current := if TailOf(s, h).fileLen == |s.file| then s.current
                                        else s.current + {CellOf(s, h)}))
  }

  /** The cached length is right and the cached checksum is not that of the last frame. */
  predicate Misleads<C>(codec: Codec<C>, s: Shared, h: nat)
  {
    var scan := Scan(codec, s.file, 0, NoHash);
    && TailOf(s, h).fileLen == |s.file|
    && scan.Scanned? && TailOf(s, h).lastChecksum != EndHash(scan.entries, NoHash)
  }

  /** An append by a handle that has just looked; `None` is a refusal. */
  function AppendVia<C>(codec: Codec<C>, s: Shared, h: nat, c: Commit<C>): Option<Shared>
  {
    var out := Append(codec, s.file, TailOf(s, h), c);
    if out.result.Refused? then None
    else Some(SetTail(s, h, out.tail).(file := out.bytes, current := s.current + {CellOf(s, h)},
                                       misled := s.misled || Misleads(codec, s, h)))
  }

  /** A checkpoint by `h` empties the file. */
  function Truncate(s: Shared, h: nat): Shared
  {
    Shared([], s.cells + [NoTail], s.cellOf[h := |s.cells|], {|s.cells|}, false)
  }

  /** The first handle of a process. */
  function OpenedBy(s: Shared, h: nat, file: seq<Byte>, t: WalTail): Shared
  {
    Shared(file, [t], map[h := 0], {0}, s.misled)
  }

  function Closed(s: Shared): Shared
  {
    s.(cells := [], cellOf := map[], current := {})
  }

  // ---------------------------------------------------------------- invariant

  ghost predicate SameCommits<C>(entries: seq<WalEntry<C>>, written: seq<Commit<C>>)
  {
    && |entries| == |written|
    && forall i | 0 <= i < |written| ::
         written[i].(previousCommitHash := entries[i].commit.previousCommitHash) == entries[i].commit
  }

  ghost predicate ReadsAs<C>(codec: Codec<C>, file: seq<Byte>, written: seq<Commit<C>>)
  {
    var scan := Scan(codec, file, 0, NoHash);
    scan.Scanned? && scan.tornTail.None? && SameCommits(scan.entries, written)
  }

  /** A current cell is right about the last frame if it is about the length. */
  ghost predicate CellOk<C>(codec: Codec<C>, s: Shared, i: nat, top: nat)
    requires i < |s.cells|
  {
    var t, scan := s.cells[i], Scan(codec, s.file, 0, NoHash);
    && |t.lastChecksum| == 32 && (t.lastEpoch.Some? ==> t.lastEpoch.value <= top)
    && (t.fileLen == 0 ==> t.lastChecksum == NoHash)
    && (i in s.current ==> t.fileLen <= |s.file|)
    && (i in s.current && t.fileLen == |s.file| && scan.Scanned? ==>
          t.lastChecksum == EndHash(scan.entries, NoHash))
  }

  ghost predicate UpTo<C>(written: seq<Commit<C>>, top: nat)
  {
    forall i | 0 <= i < |written| :: written[i].epoch <= top
  }

  /** The file scans if and only if no frame was chained wrongly since it was last truncated; then
      to the commits written since. */
  ghost predicate SharedOk<C>(codec: Codec<C>, s: Shared, written: seq<Commit<C>>, top: nat)
  {
    && (if s.misled then Scan(codec, s.file, 0, NoHash).Failed? else ReadsAs(codec, s.file, written))
    && UpTo(written, top)
    && (forall i | 0 <= i < |s.cells| :: CellOk(codec, s, i, top))
    && (forall h | h in s.cellOf :: s.cellOf[h] < |s.cells|)
  }

  lemma NewLogOk<C(!new)>(codec: Codec<C>, top: nat)
    ensures SharedOk(codec, NewLog, [], top)
  {
    EmptyScan(codec, 0, NoHash);
  }

  lemma CloseKeepsOk<C>(codec: Codec<C>, s: Shared, written: seq<Commit<C>>, top: nat)
    requires SharedOk(codec, s, written, top)
    ensures SharedOk(codec, Closed(s), written, top)
  {
    hide Scan;
  }

  lemma ShareKeepsOk<C>(codec: Codec<C>, s: Shared, written: seq<Commit<C>>, top: nat, h: nat, copy: nat)
    requires SharedOk(codec, s, written, top) && h in s.cellOf
    ensures SharedOk(codec, Share(s, h, copy), written, top)
  {
    hide Scan, ReadsAs, UpTo;
    forall i | 0 <= i < |s.cells| ensures CellOk(codec, Share(s, h, copy), i, top) {
      assert CellOk(codec, s, i, top);
    }
  }

  lemma TruncateKeepsOk<C>(codec: Codec<C>, s: Shared, written: seq<Commit<C>>, top: nat, h: nat)
    requires SharedOk(codec, s, written, top)
    ensures SharedOk(codec, Truncate(s, h), [], top)
  {
    hide Scan;
    var t := Truncate(s, h);
    EmptyScan(codec, 0, NoHash);
    forall i | 0 <= i < |t.cells| ensures CellOk(codec, t, i, top) {
      if i < |s.cells| { assert CellOk(codec, s, i, top); }
    }
  }

  /** What a scan leaves in a cell. */
  lemma ScannedTail<C(!new)>(codec: Codec<C>, file: seq<Byte>, written: seq<Commit<C>>, top: nat)
    requires Lawful(codec) && Scan(codec, file, 0, NoHash).Scanned? && ReadsAs(codec, file, written)
    requires UpTo(written, top)
    ensures var es := Scan(codec, file, 0, NoHash).entries; var t := TailFromScan(es, |file|);
            && t.fileLen == |file| && t.lastChecksum == EndHash(es, NoHash) && |t.lastChecksum| == 32
            && (t.lastEpoch.Some? ==> t.lastEpoch.value <= top) && (t.fileLen == 0 ==> t.lastChecksum == NoHash)
  {
    hide Scan;
    EndHashLength(codec, file, 0, NoHash);
    EmptyScan(codec, 0, NoHash);
    var es := Scan(codec, file, 0, NoHash).entries;
    if es != [] { assert es[|es| - 1].commit.epoch == written[|es| - 1].epoch; }
  }

  /** Looking fails exactly when the log is unreadable and the cached length is wrong, and then
      leaves the handle at the length of the file. */
  lemma LookKeepsOk<C(!new)>(codec: Codec<C>, s: Shared, written: seq<Commit<C>>, top: nat, h: nat)
    requires Lawful(codec) && SharedOk(codec, s, written, top) && h in s.cellOf
    ensures var t := Look(codec, s, h);
            && (t.None? <==> s.misled && TailOf(s, h).fileLen != |s.file|)
            && (t.Some? ==>
                  && SharedOk(codec, t.value, written, top) && TailOf(t.value, h).fileLen == |s.file|
                  && t.value.file == s.file && t.value.misled == s.misled && t.value.cellOf == s.cellOf
                  && s.current <= t.value.current)
  {
    hide Scan, UpTo, ReadsAs, CellOk, EndHash, TailFromScan;
    var t := Look(codec, s, h);
    ReadsScanned(codec, s, written);
    if t.Some? {
      var looks := TailOf(s, h).fileLen != |s.file|;
      if looks { ScannedTail(codec, s.file, written, top); }
      var u := t.value;
      forall i | 0 <= i < |u.cells| ensures CellOk(codec, u, i, top) {
        assert CellOk(codec, s, i, top);
        OneCell(codec, s, u, i, top, i == s.cellOf[h] && looks);
      }
    }
  }

  lemma ReadsScanned<C>(codec: Codec<C>, s: Shared, written: seq<Commit<C>>)
    requires if s.misled then Scan(codec, s.file, 0, NoHash).Failed? else ReadsAs(codec, s.file, written)
    ensures s.misled <==> Scan(codec, s.file, 0, NoHash).Failed?
    ensures !s.misled ==> Scan(codec, s.file, 0, NoHash).tornTail.None?
  {
  }

  lemma OneCell<C>(codec: Codec<C>, s: Shared, t: Shared, i: nat, top: nat, looked: bool)
    requires i < |s.cells| == |t.cells| && t.file == s.file && CellOk(codec, s, i, top)
    requires looked ==>
               var scan := Scan(codec, s.file, 0, NoHash);
               && scan.Scanned? && t.cells[i].lastChecksum == EndHash(scan.entries, NoHash)
               && |t.cells[i].lastChecksum| == 32 && t.cells[i].fileLen == |s.file|
               && (t.cells[i].lastEpoch.Some? ==> t.cells[i].lastEpoch.value <= top)
               && (t.cells[i].fileLen == 0 ==> t.cells[i].lastChecksum == NoHash)
    requires !looked ==> t.cells[i] == s.cells[i] && (i in t.current ==> i in s.current)
    ensures CellOk(codec, t, i, top)
  {
    hide Scan, EndHash;
  }

  /** An append through a handle that has looked leaves the file readable if and only if it was and
      the handle's cell does not mislead; then with one commit more. */
  lemma AppendKeepsOk<C(!new)>(codec: Codec<C>, s: Shared, written: seq<Commit<C>>, top: nat, h: nat, c: Commit<C>)
    requires Lawful(codec) && SharedOk(codec, s, written, top) && h in s.cellOf && TailOf(s, h).fileLen == |s.file|
    requires Committed(c) && c.epoch == top + 1
    ensures var t := AppendVia(codec, s, h, c);
            t.Some? ==>
              && SharedOk(codec, t.value, written + [c], top + 1) && t.value.cellOf == s.cellOf
              && t.value.misled == (s.misled || Misleads(codec, s, h)) && |t.value.file| > |s.file|
              && t.value.current == s.current + {CellOf(s, h)}
  {
    hide Scan, UpTo, ReadsAs, CellOk, EndHash, FrameOf, Payload, Committed, Fits;
    var out := AppendVia(codec, s, h, c);
    if out.Some? {
      var t, tail, i, next := out.value, TailOf(s, h), s.cellOf[h], top + 1;
      assert CellOk(codec, s, i, top);
      CellLength(codec, s, i, top);
      FrameGrows(codec, s.file, c, NextLsn(tail), tail.lastChecksum);
      FileAppended(codec, s, written, top, h, c);
      OneMoreUpTo(written, c, top);
      forall j | 0 <= j < |t.cells| ensures CellOk(codec, t, j, next) {
        if j != i { assert CellOk(codec, s, j, top); OtherCell(codec, s, t, j, top); }
        else { OwnCell(codec, t, i, next); }
      }
    }
  }

  lemma CellLength<C>(codec: Codec<C>, s: Shared, i: nat, top: nat)
    requires i < |s.cells| && CellOk(codec, s, i, top)
    ensures |s.cells[i].lastChecksum| == 32
  {
  }

  lemma FrameGrows<C>(codec: Codec<C>, file: seq<Byte>, c: Commit<C>, lsn: nat, prev: Hash)
    ensures |file + FrameOf(codec, c, lsn, prev)| > |file|
  {
  }

  lemma OneMoreUpTo<C>(written: seq<Commit<C>>, c: Commit<C>, top: nat)
    requires UpTo(written, top) && c.epoch == top + 1
    ensures UpTo(written + [c], top + 1)
  {
  }

  /** A cell that looked before the append is behind the file now. */
  lemma OtherCell<C>(codec: Codec<C>, s: Shared, t: Shared, j: nat, top: nat)
    requires j < |s.cells| == |t.cells| && CellOk(codec, s, j, top) && t.cells[j] == s.cells[j]
    requires |t.file| > |s.file| && (j in t.current ==> j in s.current)
    ensures CellOk(codec, t, j, top + 1)
  {
    hide Scan, EndHash;
  }

  lemma OwnCell<C>(codec: Codec<C>, t: Shared, i: nat, top: nat)
    requires i < |t.cells| && t.cells[i].fileLen == |t.file| > 0 && |t.cells[i].lastChecksum| == 32
    requires t.cells[i].lastEpoch == Some(top)
    requires var scan := Scan(codec, t.file, 0, NoHash);
             scan.Scanned? ==> t.cells[i].lastChecksum == EndHash(scan.entries, NoHash)
    ensures CellOk(codec, t, i, top)
  {
    hide Scan, EndHash;
  }

  /** The file after the append, and its new last checksum. */
  lemma FileAppended<C(!new)>(codec: Codec<C>, s: Shared, written: seq<Commit<C>>, top: nat, h: nat, c: Commit<C>)
    requires Lawful(codec) && SharedOk(codec, s, written, top) && h in s.cellOf && TailOf(s, h).fileLen == |s.file|
    requires Committed(c) && |TailOf(s, h).lastChecksum| == 32 && AppendVia(codec, s, h, c).Some?
    ensures var t := AppendVia(codec, s, h, c).value; var scan := Scan(codec, t.file, 0, NoHash);
            && (if t.misled then scan.Failed? else ReadsAs(codec, t.file, written + [c]))
            && |TailOf(t, h).lastChecksum| == 32
            && (scan.Scanned? ==> TailOf(t, h).lastChecksum == EndHash(scan.entries, NoHash))
  {
    hide Scan, FrameOf, Payload, Committed, Fits, CellOk, UpTo;
    var tail := TailOf(s, h);
    var lsn, prev := NextLsn(tail), tail.lastChecksum;
    ReadsScanned(codec, s, written);
    if s.misled {
      ScanStaysFailed(codec, s.file, FrameOf(codec, c, lsn, prev), 0, NoHash);
    } else {
      FrameAppended(codec, s.file, c, lsn, prev);
      var es := Scan(codec, s.file, 0, NoHash).entries;
      if prev == EndHash(es, NoHash) { OneMoreCommit(es, written, EntryOf(codec, c, lsn, prev), c); }
    }
  }

  lemma OneMoreCommit<C>(entries: seq<WalEntry<C>>, written: seq<Commit<C>>, e: WalEntry<C>, c: Commit<C>)
    requires SameCommits(entries, written) && c.(previousCommitHash := e.commit.previousCommitHash) == e.commit
    ensures SameCommits(entries + [e], written + [c])
  {
  }

  /** The first handle opens a readable log as it is. */
  lemma OpenKeepsOk<C(!new)>(codec: Codec<C>, s: Shared, written: seq<Commit<C>>, top: nat, h: nat)
    requires Lawful(codec) && SharedOk(codec, s, written, top)
    ensures var r := OpenLog(codec, s.file);
            && (r.OpenFailed? <==> s.misled)
            && (r.Opened? ==>
                  r.bytes == s.file && SharedOk(codec, OpenedBy(s, h, s.file, r.tail), written, top))
  {
    hide Scan, UpTo, ReadsAs, CellOk, EndHash, TailFromScan;
    ReadsScanned(codec, s, written);
    if !s.misled {
      ScannedTail(codec, s.file, written, top);
      var tail := OpenLog(codec, s.file).tail;
      FirstCell(codec, OpenedBy(s, h, s.file, tail), top);
    }
  }

  lemma FirstCell<C>(codec: Codec<C>, s: Shared, top: nat)
    requires |s.cells| == 1 && s.cells[0].fileLen == |s.file| && |s.cells[0].lastChecksum| == 32
    requires s.cells[0].lastEpoch.Some? ==> s.cells[0].lastEpoch.value <= top
    requires s.cells[0].fileLen == 0 ==> s.cells[0].lastChecksum == NoHash
    requires var scan := Scan(codec, s.file, 0, NoHash);
             scan.Scanned? ==> s.cells[0].lastChecksum == EndHash(scan.entries, NoHash)
    ensures CellOk(codec, s, 0, top)
  {
    hide Scan, EndHash;
  }

  /** A current cell never misleads, and none does over an empty file. */
  lemma CurrentCellsAreRight<C>(codec: Codec<C>, s: Shared, written: seq<Commit<C>>, top: nat, h: nat)
    requires SharedOk(codec, s, written, top) && h in s.cellOf && Misleads(codec, s, h)
    ensures CellOf(s, h) !in s.current && s.file != []
  {
    hide Scan, ReadsAs, UpTo;
    assert CellOk(codec, s, s.cellOf[h], top);
    EmptyScan(codec, 0, NoHash);
  }

  lemma CellEpoch<C>(codec: Codec<C>, s: Shared, written: seq<Commit<C>>, top: nat, h: nat)
    requires SharedOk(codec, s, written, top)
    ensures TailOf(s, h).lastEpoch.Some? ==> TailOf(s, h).lastEpoch.value <= top
  {
    hide Scan, ReadsAs, UpTo;
    if CellOf(s, h) < |s.cells| { assert CellOk(codec, s, CellOf(s, h), top); }
  }
}
