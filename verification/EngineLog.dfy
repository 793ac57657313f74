/** The engine's commits as frames of the log: what `Engine` calls the log, a sequence of
    commits and perhaps a torn piece, is what a scan makes of the bytes. */
module EngineLog {
  import opened Ordering
  import opened WalFrame
  import opened Wal
  import Engine

  /** The log record of an engine commit. */
  function ToLog(c: Engine.Commit): Commit<Engine.Changes>
  {
    Commit(c.epoch, if c.epoch > 0 then c.epoch - 1 else 0, NoHash, "COMMITTED", c.changes)
  }

  function ToLogs(cs: seq<Engine.Commit>): (r: seq<Commit<Engine.Changes>>)
    ensures |r| == |cs| && forall i | 0 <= i < |cs| :: r[i] == ToLog(cs[i])
  {
    seq(|cs|, i requires 0 <= i < |cs| => ToLog(cs[i]))
  }

  function FromEntry(e: WalEntry<Engine.Changes>): Engine.Commit
  {
    Engine.Commit(e.commit.epoch, e.commit.changes)
  }

  /** Every commit the engine makes is one the log's reader accepts. */
  lemma EngineCommitsAreCommitted(m: Engine.Memory, changes: Engine.Changes)
    ensures Committed(ToLog(Engine.NextCommit(m, changes)))
  {
  }

  lemma {:induction false} EntriesReadBack(codec: Codec<Engine.Changes>, cs: seq<Commit<Engine.Changes>>, lsn: nat,
                                           prev: Hash, i: nat)
    requires i < |cs|
    ensures var e := Entries(codec, cs, lsn, prev)[i];
            e.lsn == lsn + i && e.commit.epoch == cs[i].epoch && e.commit.changes == cs[i].changes
    decreases |cs|
  {
    if i > 0 {
      EntriesReadBack(codec, cs[1..], lsn + 1, codec.checksum(Payload(codec, cs[0], prev)), i - 1);
    }
  }

  /** Cut the bytes of a log of engine commits anywhere: scanning gives back a prefix of
      those very commits, the whole of them when nothing is cut off. */
  lemma LogHoldsCommits(codec: Codec<Engine.Changes>, cs: seq<Engine.Commit>, k: nat)
    requires Lawful(codec) && Writable(codec, ToLogs(cs), 1, NoHash) && k <= |Log(codec, ToLogs(cs), 1, NoHash)|
    ensures var scan := Scan(codec, Log(codec, ToLogs(cs), 1, NoHash)[..k], 0, NoHash);
            && scan.Scanned? && |scan.entries| <= |cs|
            && (forall i | 0 <= i < |scan.entries| :: FromEntry(scan.entries[i]) == cs[i])
            && (k == |Log(codec, ToLogs(cs), 1, NoHash)| ==> |scan.entries| == |cs| && scan.tornTail.None?)
  {
    hide Log, Entries, Writable, Scan;
    var logs := ToLogs(cs);
    ScanOfCutLog(codec, logs, k);
    var scan := Scan(codec, Log(codec, logs, 1, NoHash)[..k], 0, NoHash);
    forall i | 0 <= i < |scan.entries| ensures FromEntry(scan.entries[i]) == cs[i] {
      EntriesReadBack(codec, logs, 1, NoHash, i);
    }
    if k == |Log(codec, logs, 1, NoHash)| { WholeLog(codec, logs); }
  }

  lemma WholeLog(codec: Codec<Engine.Changes>, logs: seq<Commit<Engine.Changes>>)
    requires Lawful(codec) && Writable(codec, logs, 1, NoHash)
    ensures var log := Log(codec, logs, 1, NoHash);
            Scan(codec, log[..|log|], 0, NoHash) == Scanned(Entries(codec, logs, 1, NoHash), None)
  {
    hide Log, Entries, Writable, Scan, LastHash;
    var log := Log(codec, logs, 1, NoHash);
    ScanThroughLog(codec, logs, 1, NoHash, [], 0);
    assert log + [] == log[..|log|];
    EmptyScan(codec, |log|, LastHash(codec, logs, NoHash));
  }
}
