/** Frames of the write-ahead log: how a commit becomes bytes and how bytes are read
    back (crates/tracedb-log/src/lib.rs). */
module WalFrame {
  import opened Ordering
  import opened Bytes

  const MAGIC: nat := 0x5444_574c
  const VERSION: nat := 2
  const KIND: nat := 1
  const HEADER_LEN: nat := 88
  const FOOTER_LEN: nat := 4
  const MAX_PAYLOAD_LEN: nat := 16 * 1024 * 1024
  const FOOTER: nat := 0x5444_434d
  const LSN_LIMIT: nat := 0x1_0000_0000_0000_0000

  /** A checksum: 32 bytes. */
  type Hash = seq<Byte>

  const NoHash: Hash :=
    [0, 0, 0, 0, 0, 0, 0, 0, 0, 0, 0, 0, 0, 0, 0, 0, 0, 0, 0, 0, 0, 0, 0, 0, 0, 0, 0, 0, 0, 0, 0, 0]

  /** The fields of a commit that the log looks at; `changes` is everything else. */
  datatype Commit<C> = Commit(epoch: nat, parentEpoch: nat, previousCommitHash: Hash, commitMarker: string, changes: C)

  /** Serialisation and checksum, left abstract. */
  datatype Codec<!C> = Codec(encode: Commit<C> -> seq<Byte>, decode: seq<Byte> -> Option<Commit<C>>,
                             checksum: seq<Byte> -> Hash)

  /** What the log relies on: a serialised commit parses back, a checksum has 32 bytes. */
  ghost predicate Lawful<C(!new)>(codec: Codec<C>)
  {
    && (forall c :: codec.decode(codec.encode(c)) == Some(c))
    && (forall b :: |codec.checksum(b)| == 32)
  }

  datatype TornReason = ShortHeader | ShortPayload | MissingCommitFooter

  datatype TornWalTail = TornWalTail(offset: nat, lsn: Option<nat>, reason: TornReason, expectedLen: nat,
                                     actualLen: nat)

  datatype WalError =
    | InvalidMagic
    | UnsupportedVersion(version: nat)
    | UnsupportedKind(kind: nat)
    | PrevChecksumMismatch(lsn: nat)
    | PayloadTooLong(len: nat, lsn: nat)
    | PayloadChecksumMismatch(lsn: nat)
    | FooterMismatch(lsn: nat)
    | Unparsable
    | MissingCommitMarker(lsn: nat)
    | InvalidParentEpoch(lsn: nat)
    | PreviousHashMismatch(lsn: nat)

  datatype WalEntry<C> = WalEntry(lsn: nat, checksum: Hash, commit: Commit<C>)

  datatype FrameRead<C> =
    | EndOfLog
    | Torn(tail: TornWalTail)
    | Corrupt(error: WalError)
    | Frame(entry: WalEntry<C>, size: nat)

  // ---------------------------------------------------------------- writing

  function Assemble(lsn: nat, prev: Hash, sum: Hash, payload: seq<Byte>): (f: seq<Byte>)
    ensures |f| == 28 + |prev| + |sum| + |payload|
  {
    ToLE(MAGIC, 4) + ToLE(VERSION, 4) + ToLE(lsn, 8) + prev + ToLE(KIND, 4) + ToLE(|payload|, 4) + sum + payload +
        ToLE(FOOTER, 4)
  }

  function Payload<C>(codec: Codec<C>, commit: Commit<C>, prev: Hash): seq<Byte>
  {
    codec.encode(commit.(previousCommitHash := prev))
  }

  /** The frame of a commit at `lsn`, chained to `prev`. */
  function FrameOf<C>(codec: Codec<C>, commit: Commit<C>, lsn: nat, prev: Hash): seq<Byte>
  {
    var payload := Payload(codec, commit, prev);
    Assemble(lsn, prev, codec.checksum(payload), payload)
  }

  function EntryOf<C>(codec: Codec<C>, commit: Commit<C>, lsn: nat, prev: Hash): WalEntry<C>
  {
    WalEntry(lsn, codec.checksum(Payload(codec, commit, prev)), commit.(previousCommitHash := prev))
  }

  /** The writer refuses longer payloads. */
  predicate Fits<C>(codec: Codec<C>, commit: Commit<C>, prev: Hash)
  {
    |Payload(codec, commit, prev)| <= MAX_PAYLOAD_LEN
  }

  /** The reader refuses other commits. */
  predicate Committed<C>(commit: Commit<C>)
  {
    commit.commitMarker == "COMMITTED" && commit.epoch > 0 && commit.parentEpoch < commit.epoch
  }

  // ---------------------------------------------------------------- reading

  datatype Header = Header(magic: nat, version: nat, lsn: nat, prev: Hash, kind: nat, payloadLen: nat, sum: Hash)

  function ParseHeader(h: seq<Byte>): Header
    requires |h| == HEADER_LEN
  {
    Header(FromLE(h[0..4]), FromLE(h[4..8]), FromLE(h[8..16]), h[16..48], FromLE(h[48..52]), FromLE(h[52..56]),
           h[56..88])
  }

  function HeaderError(h: Header, prev: Hash): Option<WalError>
  {
    if h.magic != MAGIC then Some(InvalidMagic)
    else if h.version != VERSION then Some(UnsupportedVersion(h.version))
    else if h.kind != KIND then Some(UnsupportedKind(h.kind))
    else if h.prev != prev then Some(PrevChecksumMismatch(h.lsn))
    else if h.payloadLen > MAX_PAYLOAD_LEN then Some(PayloadTooLong(h.payloadLen, h.lsn))
    else None
  }

  function ReadCommit<C>(codec: Codec<C>, h: Header, payload: seq<Byte>): FrameRead<C>
  {
    match codec.decode(payload)
    case None => Corrupt(Unparsable)
    case Some(commit) =>
      if commit.commitMarker != "COMMITTED" then Corrupt(MissingCommitMarker(h.lsn))
      else if commit.epoch == 0 || commit.parentEpoch >= commit.epoch then Corrupt(InvalidParentEpoch(h.lsn))
      else if commit.previousCommitHash != h.prev then Corrupt(PreviousHashMismatch(h.lsn))
      else Frame(WalEntry(h.lsn, h.sum, commit), HEADER_LEN + |payload| + FOOTER_LEN)
  }

  /** What one turn of the scan makes of the bytes from `offset` on. */
  function ReadFrame<C>(codec: Codec<C>, bytes: seq<Byte>, offset: nat, prev: Hash): (r: FrameRead<C>)
    ensures r.Frame? ==> HEADER_LEN + FOOTER_LEN <= r.size <= |bytes|
  {
    if bytes == [] then EndOfLog
    else if |bytes| < HEADER_LEN then Torn(TornWalTail(offset, None, ShortHeader, HEADER_LEN, |bytes|))
    else
      var h := ParseHeader(bytes[..HEADER_LEN]);
      var bad := HeaderError(h, prev);
      if bad.Some? then Corrupt(bad.value) else
      var rest := bytes[HEADER_LEN..];
      if |rest| < h.payloadLen then
        Torn(TornWalTail(offset, Some(h.lsn), ShortPayload, h.payloadLen + FOOTER_LEN, |rest|))
      else
      var payload := rest[..h.payloadLen];
      if codec.checksum(payload) != h.sum then Corrupt(PayloadChecksumMismatch(h.lsn)) else
      var end := rest[h.payloadLen..];
      if |end| < FOOTER_LEN then Torn(TornWalTail(offset, Some(h.lsn), MissingCommitFooter, FOOTER_LEN, |end|)) else
      if FromLE(end[..FOOTER_LEN]) != FOOTER then Corrupt(FooterMismatch(h.lsn)) else
      ReadCommit(codec, h, payload)
  }

  // ---------------------------------------------------------------- one frame

  lemma AssembledParts(lsn: nat, prev: Hash, sum: Hash, payload: seq<Byte>)
    requires |prev| == 32 && |sum| == 32
    ensures var f := Assemble(lsn, prev, sum, payload);
            && f[0..4] == ToLE(MAGIC, 4) && f[4..8] == ToLE(VERSION, 4) && f[8..16] == ToLE(lsn, 8)
            && f[16..48] == prev && f[48..52] == ToLE(KIND, 4) && f[52..56] == ToLE(|payload|, 4) && f[56..88] == sum
            && f[88..88 + |payload|] == payload && f[88 + |payload|..] == ToLE(FOOTER, 4)
  {
    hide ToLE;
  }

  lemma HeaderOfFrame(lsn: nat, prev: Hash, sum: Hash, payload: seq<Byte>)
    requires |prev| == 32 && |sum| == 32 && lsn < LSN_LIMIT && |payload| <= MAX_PAYLOAD_LEN
    ensures ParseHeader(Assemble(lsn, prev, sum, payload)[..HEADER_LEN]) ==
            Header(MAGIC, VERSION, lsn, prev, KIND, |payload|, sum)
  {
    hide Assemble, ToLE, FromLE, Pow256;
    AssembledParts(lsn, prev, sum, payload);
    Widths();
    ReadBack(MAGIC, 4); ReadBack(VERSION, 4); ReadBack(lsn, 8); ReadBack(KIND, 4); ReadBack(|payload|, 4);
    var f := Assemble(lsn, prev, sum, payload);
    var h := f[..HEADER_LEN];
    assert h[0..4] == f[0..4] && h[4..8] == f[4..8] && h[8..16] == f[8..16] && h[16..48] == f[16..48]
        && h[48..52] == f[48..52] && h[52..56] == f[52..56] && h[56..88] == f[56..88];
  }

  /** Reading any bytes that start with a frame's header and payload. */
  lemma ReadAfterPayload<C>(codec: Codec<C>, bytes: seq<Byte>, offset: nat, prev: Hash, lsn: nat, payload: seq<Byte>)
    requires |prev| == 32 && |codec.checksum(payload)| == 32 && lsn < LSN_LIMIT && |payload| <= MAX_PAYLOAD_LEN
    requires |bytes| >= HEADER_LEN + |payload|
    requires bytes[..HEADER_LEN + |payload|] ==
             Assemble(lsn, prev, codec.checksum(payload), payload)[..HEADER_LEN + |payload|]
    ensures var end := bytes[HEADER_LEN + |payload|..];
            ReadFrame(codec, bytes, offset, prev) ==
            if |end| < FOOTER_LEN then Torn(TornWalTail(offset, Some(lsn), MissingCommitFooter, FOOTER_LEN, |end|))
            else if FromLE(end[..FOOTER_LEN]) != FOOTER then Corrupt(FooterMismatch(lsn))
            else ReadCommit(codec, Header(MAGIC, VERSION, lsn, prev, KIND, |payload|, codec.checksum(payload)), payload)
  {
    hide ToLE, FromLE, ReadCommit, ParseHeader;
    var sum := codec.checksum(payload);
    var f := Assemble(lsn, prev, sum, payload);
    HeaderOfFrame(lsn, prev, sum, payload);
    AssembledParts(lsn, prev, sum, payload);
    hide Assemble;
    var n := HEADER_LEN + |payload|;
    assert bytes[..HEADER_LEN] == bytes[..n][..HEADER_LEN] == f[..n][..HEADER_LEN] == f[..HEADER_LEN];
    var rest := bytes[HEADER_LEN..];
    assert rest[..|payload|] == bytes[..n][HEADER_LEN..] == f[..n][HEADER_LEN..] == payload;
    assert rest[|payload|..] == bytes[n..];
  }

  /** A whole frame is read back as the entry it was written for, whatever follows,
      exactly when the reader accepts its commit. */
  lemma ReadWholeFrame<C(!new)>(codec: Codec<C>, commit: Commit<C>, lsn: nat, prev: Hash, tail: seq<Byte>, offset: nat)
    requires Lawful(codec) && |prev| == 32 && lsn < LSN_LIMIT && Fits(codec, commit, prev)
    ensures var f := FrameOf(codec, commit, lsn, prev);
            var r := ReadFrame(codec, f + tail, offset, prev);
            && (Committed(commit) ==> r == Frame(EntryOf(codec, commit, lsn, prev), |f|))
            && (!Committed(commit) ==> r.Corrupt?)
  {
    hide ReadFrame, FromLE, ToLE;
    var payload := Payload(codec, commit, prev);
    var f := FrameOf(codec, commit, lsn, prev);
    var bytes, n := f + tail, HEADER_LEN + |payload|;
    AssembledParts(lsn, prev, codec.checksum(payload), payload);
    hide Assemble;
    assert bytes[..n] == f[..n];
    ReadAfterPayload(codec, bytes, offset, prev, lsn, payload);
    assert bytes[n..][..FOOTER_LEN] == f[n..];
    Widths();
    ReadBack(FOOTER, 4);
  }

  /** A frame cut anywhere short of its end is torn at its start, never corrupt. */
  lemma ReadCutFrame<C(!new)>(codec: Codec<C>, commit: Commit<C>, lsn: nat, prev: Hash, k: nat, offset: nat)
    requires Lawful(codec) && |prev| == 32 && lsn < LSN_LIMIT && Fits(codec, commit, prev)
    requires 0 < k < |FrameOf(codec, commit, lsn, prev)|
    ensures var r := ReadFrame(codec, FrameOf(codec, commit, lsn, prev)[..k], offset, prev);
            r.Torn? && r.tail.offset == offset
  {
    hide FromLE, ToLE;
    var payload := Payload(codec, commit, prev);
    var f := FrameOf(codec, commit, lsn, prev);
    var bytes, n := f[..k], HEADER_LEN + |payload|;
    hide Assemble;
    if n <= k {
      assert bytes[..n] == f[..n];
      ReadAfterPayload(codec, bytes, offset, prev, lsn, payload);
    } else if HEADER_LEN <= k {
      HeaderOfFrame(lsn, prev, codec.checksum(payload), payload);
      assert bytes[..HEADER_LEN] == f[..HEADER_LEN];
    }
  }

  /** A frame chained to another checksum than the one expected is refused. */
  lemma ReadMischained<C(!new)>(codec: Codec<C>, commit: Commit<C>, lsn: nat, prev: Hash, expected: Hash, offset: nat)
    requires Lawful(codec) && |prev| == 32 && lsn < LSN_LIMIT && Fits(codec, commit, prev) && prev != expected
    ensures ReadFrame(codec, FrameOf(codec, commit, lsn, prev), offset, expected).Corrupt?
  {
    hide ParseHeader, ToLE, FromLE;
    var payload := Payload(codec, commit, prev);
    HeaderOfFrame(lsn, prev, codec.checksum(payload), payload);
  }

  /** A frame, or a fault that is not a cut, is read as such whatever follows. */
  lemma ReadIsLocal<C>(codec: Codec<C>, bytes: seq<Byte>, more: seq<Byte>, offset: nat, prev: Hash)
    requires ReadFrame(codec, bytes, offset, prev).Frame? || ReadFrame(codec, bytes, offset, prev).Corrupt?
    ensures ReadFrame(codec, bytes + more, offset, prev) == ReadFrame(codec, bytes, offset, prev)
  {
    hide ParseHeader, FromLE, ReadCommit;
    var all := bytes + more;
    assert all[..HEADER_LEN] == bytes[..HEADER_LEN];
    var len := ParseHeader(bytes[..HEADER_LEN]).payloadLen;
    var rest := bytes[HEADER_LEN..];
    assert all[HEADER_LEN..] == rest + more;
    if len <= |rest| {
      assert (rest + more)[..len] == rest[..len] && (rest + more)[len..] == rest[len..] + more;
      var end := rest[len..];
      if FOOTER_LEN <= |end| { assert (end + more)[..FOOTER_LEN] == end[..FOOTER_LEN]; }
    }
  }

  /** Whatever bytes the reader takes for a frame are the frame it would assemble from
      the fields it read, with the checksum, the chain and the commit all checked. */
  lemma ReadAcceptsOnlyFrames<C>(codec: Codec<C>, bytes: seq<Byte>, offset: nat, prev: Hash)
    requires ReadFrame(codec, bytes, offset, prev).Frame? && |prev| == 32
    ensures var r := ReadFrame(codec, bytes, offset, prev);
            exists payload: seq<Byte> ::
              && bytes[..r.size] == Assemble(r.entry.lsn, prev, r.entry.checksum, payload)
              && codec.checksum(payload) == r.entry.checksum && codec.decode(payload) == Some(r.entry.commit)
              && Committed(r.entry.commit) && r.entry.commit.previousCommitHash == prev
  {
    hide FromLE, ToLE;
    var h := bytes[..HEADER_LEN];
    var len := ParseHeader(h).payloadLen;
    var n := HEADER_LEN + len;
    var payload := bytes[HEADER_LEN..][..len];
    WriteBack(h[0..4]); WriteBack(h[4..8]); WriteBack(h[8..16]); WriteBack(h[48..52]); WriteBack(h[52..56]);
    WriteBack(bytes[HEADER_LEN..][len..][..FOOTER_LEN]);
    HeaderJoins(h);
    var r := ReadFrame(codec, bytes, offset, prev);
    assert bytes[..r.size] == h + payload + bytes[HEADER_LEN..][len..][..FOOTER_LEN];
    JoinedFrame(h, r.entry.lsn, prev, r.entry.checksum, payload);
  }

  lemma HeaderJoins(h: seq<Byte>)
    requires |h| == HEADER_LEN
    ensures h == h[0..4] + h[4..8] + h[8..16] + h[16..48] + h[48..52] + h[52..56] + h[56..88]
  {
  }

  lemma JoinedFrame(h: seq<Byte>, lsn: nat, prev: Hash, sum: Hash, payload: seq<Byte>)
    requires h == ToLE(MAGIC, 4) + ToLE(VERSION, 4) + ToLE(lsn, 8) + prev + ToLE(KIND, 4) + ToLE(|payload|, 4) + sum
    ensures h + payload + ToLE(FOOTER, 4) == Assemble(lsn, prev, sum, payload)
  {
  }
}
