/** The sender's poll-and-resend loop against a network that loses, repeats, reorders and damages chunks. */
module Retransmission {
  import opened Base
  import opened Manifests
  import opened Files
  import opened Receiver
  import opened TransferRuns
  import opened TransferFrames
  import opened Wire

  /** `NoReply` stands for a call that waits for ever, `Rejected` for an error the receiver reports. */
  datatype SendError = TooLarge | NoReply | Rejected(error: FileError)

  /** What a status request gets: an error while no state is saved, nothing when the state is too large to arrive. */
  function StatusReply(state: Option<TransferState>): Result<TransferState, SendError> {
    if state.None? then Err(Rejected(NoState))
    else if SendOver(StatusSize(state.value)) != Arrives then Err(NoReply)
    else Ok(state.value)
  }

  /** The chunks whose index is in `need`, in file order. */
  function Wanted(chunks: seq<Chunk>, need: set<U32>): seq<Chunk>
    decreases |chunks|
  {
    if chunks == [] then []
    else if chunks[0].index in need then [chunks[0]] + Wanted(chunks[1..], need)
    else Wanted(chunks[1..], need)
  }

  function Indices(chunks: seq<Chunk>): seq<U32> {
    seq(|chunks|, i requires 0 <= i < |chunks| => chunks[i].index)
  }

  /** A round resends exactly what the receiver reports missing, once each, in file order. */
  lemma {:induction false} ResendsExactlyMissing(hash: Bytes -> Digest, s: TransferState, chunks: seq<Chunk>, i: nat)
    requires Authentic(hash, s.manifest, chunks) && i <= |chunks|
    ensures Indices(Wanted(chunks[i..], Elements(Missing(s)))) == MissingFrom(s, i)
    decreases |chunks| - i
  {
    var need := Elements(Missing(s));
    if i < |chunks| {
      ResendsExactlyMissing(hash, s, chunks, i + 1);
      MissingIsComplement(s, 0);
      assert chunks[i..][1..] == chunks[i + 1..];
      assert chunks[i].index in need <==> i !in s.verified;
    }
  }

  /** Something the receiver was still missing got through, or nothing was missing. */
  ghost predicate Productive(d: Disk, chunks: seq<Chunk>, arrivals: seq<Chunk>)
    requires d.state.Some?
  {
    Complete(d.state.value) || exists c :: c in arrivals && c in chunks && c.index !in d.state.value.verified
  }

  /** One arrival never forgets: a saved state stays saved, keeps its manifest, and only records more. */
  lemma {:induction false} ArrivalKeepsRecorded(hash: Bytes -> Digest, d: Disk, c: Chunk)
    requires ValidDisk(hash, d) && d.state.Some?
    ensures var d' := Received(hash, d, c);
      && d'.state.Some? && d'.state.value.manifest == d.state.value.manifest
      && d.state.value.verified <= d'.state.value.verified
      && (VerifyChunk(hash, d.manifest.value, c).Ok? ==> c.index in d'.state.value.verified)
  {
    var ws := ReceiveWrites(hash, d, c);
    var m := d.manifest.value;
    if VerifyChunk(hash, m, c).Ok? && c.index !in d.state.value.verified {
      var saved := Saved(d, m, c);
      SavedIsValid(hash, d, m, c);
      if Complete(saved.state.value) {
        var created := saved.(output := Some([]));
        var rest := RebuildWrites(hash, m, created, SortIndices(saved.state.value.verified));
        RebuildKeepsRest(hash, m, created, SortIndices(saved.state.value.verified));
        var stored := d.(parts := d.parts[c.index := c.data]);
        assert ws == [stored, saved, created] + rest;
        assert rest != [] ==> rest[|rest| - 1] in rest;
      }
    }
  }

  lemma {:induction false} ArrivalsKeepRecorded(hash: Bytes -> Digest, d: Disk, arrivals: seq<Chunk>)
    requires ValidDisk(hash, d) && d.state.Some?
    ensures var d' := Run(hash, d, arrivals);
      && d'.state.Some? && d'.state.value.manifest == d.state.value.manifest
      && d.state.value.verified <= d'.state.value.verified
      && forall c :: c in arrivals && VerifyChunk(hash, d.manifest.value, c).Ok? ==> c.index in d'.state.value.verified
  {
    if arrivals != [] {
      var n := |arrivals| - 1;
      ArrivalsKeepRecorded(hash, d, arrivals[..n]);
      ArrivalKeepsRecorded(hash, Run(hash, d, arrivals[..n]), arrivals[n]);
      LastSplit(arrivals);
    }
  }

  /** Through any round the missing set never grows, and a productive round shrinks it. */
  lemma {:induction false} RoundProgress(hash: Bytes -> Digest, d: Disk, chunks: seq<Chunk>, arrivals: seq<Chunk>)
    requires ValidDisk(hash, d) && d.state.Some? && Authentic(hash, d.manifest.value, chunks)
    ensures var d' := Run(hash, d, arrivals);
      && d'.state.Some?
      && (forall i :: i in Missing(d'.state.value) ==> i in Missing(d.state.value))
      && |Missing(d'.state.value)| <= |Missing(d.state.value)|
      && (Productive(d, chunks, arrivals) && !Complete(d.state.value) ==>
        |Missing(d'.state.value)| < |Missing(d.state.value)|)
  {
    hide Run, MissingFrom;
    ArrivalsKeepRecorded(hash, d, arrivals);
    var s, s' := d.state.value, Run(hash, d, arrivals).state.value;
    MissingIsComplement(s, 0);
    MissingIsComplement(s', 0);
    CompleteIffNothingMissing(s);
    CompleteIffNothingMissing(s');
    if Productive(d, chunks, arrivals) && !Complete(s) {
      var c :| c in arrivals && c in chunks && c.index !in s.verified;
      assert VerifyChunk(hash, s.manifest, c).Ok?;
    }
  }

  /** The disk after whole rounds, round i delivering `rounds[i]`. */
  function Rounds(hash: Bytes -> Digest, d: Disk, rounds: seq<seq<Chunk>>): (r: Disk)
    requires ValidDisk(hash, d)
    ensures ValidDisk(hash, r) && r.manifest == d.manifest
    decreases |rounds|
  {
    if rounds == [] then d else Rounds(hash, Run(hash, d, rounds[0]), rounds[1..])
  }

  ghost predicate AllProductive(hash: Bytes -> Digest, d: Disk, chunks: seq<Chunk>, rounds: seq<seq<Chunk>>)
    requires ValidDisk(hash, d) && d.state.Some?
    decreases |rounds|
  {
    rounds == [] ||
    (&& Productive(d, chunks, rounds[0])
     && Run(hash, d, rounds[0]).state.Some?
     && AllProductive(hash, Run(hash, d, rounds[0]), chunks, rounds[1..]))
  }

  /** As many productive rounds as there are missing chunks complete the transfer. */
  lemma {:induction false} ProductiveRoundsSuffice(hash: Bytes -> Digest, d: Disk, chunks: seq<Chunk>,
      rounds: seq<seq<Chunk>>)
    requires ValidDisk(hash, d) && d.state.Some? && Authentic(hash, d.manifest.value, chunks)
    requires AllProductive(hash, d, chunks, rounds)
    ensures var d' := Rounds(hash, d, rounds);
      && d'.state.Some?
      && (|rounds| >= |Missing(d.state.value)| ==> Complete(d'.state.value))
    decreases |rounds|
  {
    CompleteIffNothingMissing(d.state.value);
    if rounds != [] {
      RoundProgress(hash, d, chunks, rounds[0]);
      ProductiveRoundsSuffice(hash, Run(hash, d, rounds[0]), chunks, rounds[1..]);
      CompleteIffNothingMissing(Run(hash, d, rounds[0]).state.value);
    }
  }

  /** Streaming loop: the chunks of the file that the receiver needs. */
  method Stream(chunks: seq<Chunk>, need: set<U32>) returns (sent: seq<Chunk>)
    ensures sent == Wanted(chunks, need)
  {
    sent := [];
    for k := 0 to |chunks|
      invariant sent + Wanted(chunks[k..], need) == Wanted(chunks, need)
    {
      SuffixStep(chunks, k);
      if chunks[k].index in need {
        sent := sent + [chunks[k]];
      }
    }
    assert chunks[|chunks|..] == [];
  }

  /** Handing a round's arrivals to the receiver, in whatever order the network chose. */
  method DeliverAll(receiver: TransferReceiver, arrivals: seq<Chunk>)
    requires receiver.Valid()
    modifies receiver
    ensures receiver.Valid() && receiver.disk == Run(receiver.hash, old(receiver.disk), arrivals)
  {
    for k := 0 to |arrivals|
      invariant receiver.Valid()
      invariant receiver.disk == Run(receiver.hash, old(receiver.disk), arrivals[..k])
    {
      var r, trail := receiver.ReceiveChunk(arrivals[k]);
      assert arrivals[..k + 1][..k] == arrivals[..k];
    }
    assert arrivals[..|arrivals|] == arrivals;
  }

  /** `resent` lists, for each round played, the indices missing when it started. */
  ghost predicate ResentMissing(hash: Bytes -> Digest, d: Disk, network: seq<seq<Chunk>>, resent: seq<seq<U32>>)
    requires ValidDisk(hash, d)
    decreases |network|
  {
    if network == [] then resent == []
    else
      && resent != []
      && d.state.Some? && resent[0] == Missing(d.state.value)
      && ResentMissing(hash, Run(hash, d, network[0]), network[1..], resent[1..])
  }

  lemma {:induction false} ResentSnoc(hash: Bytes -> Digest, d: Disk, network: seq<seq<Chunk>>, k: nat,
      resent: seq<seq<U32>>, last: seq<U32>)
    requires ValidDisk(hash, d) && k < |network| && ResentMissing(hash, d, network[..k], resent)
    requires var s := Rounds(hash, d, network[..k]).state; s.Some? && last == Missing(s.value)
    ensures ResentMissing(hash, d, network[..k + 1], resent + [last])
    decreases k
  {
    if k == 0 {
      assert network[..1] == [network[0]];
      assert resent + [last] == [last];
    } else {
      TailOfPrefix(network, k);
      TailOfPrefix(network, k + 1);
      ResentSnoc(hash, Run(hash, d, network[0]), network[1..], k - 1, resent[1..], last);
      assert (resent + [last])[1..] == resent[1..] + [last];
    }
  }

  lemma {:induction false} NoRounds(hash: Bytes -> Digest, d: Disk, network: seq<seq<Chunk>>)
    requires ValidDisk(hash, d)
    ensures Rounds(hash, d, network[..0]) == d && ResentMissing(hash, d, network[..0], [])
  {
  }

  /** The loop of `send_file_and_wait`. `network[i]` is what reaches the receiver in round i, and the deadline
      passes after the last round listed. Each round streams exactly what the polled status misses. */
  method PollAndResend(receiver: TransferReceiver, chunks: seq<Chunk>, network: seq<seq<Chunk>>)
    returns (r: Result<TransferState, SendError>, ghost resent: seq<seq<U32>>)
    requires receiver.Valid()
    requires receiver.disk.manifest.Some? && Authentic(receiver.hash, receiver.disk.manifest.value, chunks)
    modifies receiver
    ensures receiver.Valid() && |resent| <= |network|
    ensures receiver.disk == Rounds(receiver.hash, old(receiver.disk), network[..|resent|])
    ensures ResentMissing(receiver.hash, old(receiver.disk), network[..|resent|], resent)
    ensures r == StatusReply(receiver.disk.state)
    ensures receiver.disk.state.None? ==> r == Err(Rejected(NoState))
    ensures receiver.disk.state.Some? ==> var s := receiver.disk.state.value;
      r == if SendOver(StatusSize(s)) == Arrives then Ok(s) else Err(NoReply)
    ensures r.Ok? ==> Complete(r.value) || |resent| == |network|
    ensures old(receiver.disk).state.None? ==> resent == []
    ensures old(receiver.disk).state.Some? ==> receiver.disk.state.Some?
  {
    hide Rounds, ResentMissing, Run, Wanted, SendOver, StatusSize;
    resent := [];
    ghost var d0 := receiver.disk;
    NoRounds(receiver.hash, d0, network);
    var round := 0;
    while true
      invariant receiver.Valid() && receiver.disk.manifest == d0.manifest
      invariant round == |resent| <= |network|
      invariant receiver.disk == Rounds(receiver.hash, d0, network[..round])
      invariant d0.state.Some? <==> receiver.disk.state.Some?
      invariant d0.state.None? ==> round == 0
      invariant ResentMissing(receiver.hash, d0, network[..round], resent)
      decreases |network| - round
    {
      var status := receiver.Status();
      if status.Err? {
        return Err(Rejected(status.error)), resent;
      }
      var state := status.value;
      if SendOver(StatusSize(state)) != Arrives {
        return Err(NoReply), resent;
      }
      if Complete(state) || round == |network| {
        return Ok(state), resent;
      }
      var sent := Stream(chunks, Elements(Missing(state)));
      RoundPlayed(receiver.hash, d0, receiver.disk, chunks, network, round, resent, sent);
      resent := resent + [Indices(sent)];
      DeliverAll(receiver, network[round]);
      round := round + 1;
    }
  }

  /** One turn of the loop: what was streamed extends the record, and what arrives extends the rounds. */
  lemma {:induction false} RoundPlayed(hash: Bytes -> Digest, d0: Disk, d: Disk, chunks: seq<Chunk>,
      network: seq<seq<Chunk>>, round: nat, resent: seq<seq<U32>>, sent: seq<Chunk>)
    requires ValidDisk(hash, d0) && round < |network| && d == Rounds(hash, d0, network[..round]) && d.state.Some?
    requires Authentic(hash, d.state.value.manifest, chunks) && sent == Wanted(chunks, Elements(Missing(d.state.value)))
    requires ResentMissing(hash, d0, network[..round], resent)
    ensures ResentMissing(hash, d0, network[..round + 1], resent + [Indices(sent)])
    ensures Run(hash, d, network[round]) == Rounds(hash, d0, network[..round + 1])
    ensures Run(hash, d, network[round]).state.Some?
  {
    ResendsExactlyMissing(hash, d.state.value, chunks, 0);
    SuffixEnds(chunks);
    ResentSnoc(hash, d0, network, round, resent, Indices(sent));
    ArrivalsKeepRecorded(hash, d, network[round]);
    RoundsSnoc(hash, d0, network, round);
  }

  lemma {:induction false} RoundsSnoc(hash: Bytes -> Digest, d: Disk, rounds: seq<seq<Chunk>>, k: nat)
    requires ValidDisk(hash, d) && k < |rounds|
    ensures Rounds(hash, d, rounds[..k + 1]) == Run(hash, Rounds(hash, d, rounds[..k]), rounds[k])
    decreases k
  {
    if k == 0 {
      assert rounds[..1] == [rounds[0]];
    } else {
      var d' := Run(hash, d, rounds[0]);
      TailOfPrefix(rounds, k);
      TailOfPrefix(rounds, k + 1);
      RoundsSnoc(hash, d', rounds[1..], k - 1);
    }
  }

  lemma {:induction false} TailOfPrefix<T>(s: seq<T>, k: nat)
    requires 1 <= k <= |s|
    ensures s[..k][0] == s[0] && s[..k][1..] == s[1..][..k - 1]
  {
  }

  /** The receiver's disk once this manifest was announced to it, for the first time or again. */
  function AfterAnnounce(hash: Bytes -> Digest, d: Disk, m: FileManifest): (r: Disk)
    requires ValidDisk(hash, d) && |m.chunks| < 0x1_0000_0000
    requires d.manifest.None? || d.manifest == Some(m)
    ensures ValidDisk(hash, r)
  {
    d.(manifest := Some(m))
  }

  lemma {:induction false} NothingListed(s: seq<U32>)
    ensures Elements(s) == {} <==> s == []
  {
    if s != [] { assert s[0] in Elements(s); }
  }

  /** `send_file`: announce, then stream once what the answer lists as missing, or the whole file when it lists
      nothing. `arrivals` is what of it reaches the receiver. Chunks are cut at the default size, so none is refused
      (`TransferFrames.ChunkArrives`). */
  method SendFile(receiver: TransferReceiver, m: FileManifest, chunks: seq<Chunk>, arrivals: seq<Chunk>)
    returns (r: Result<(), SendError>, sent: seq<Chunk>)
    requires receiver.Valid() && Authentic(receiver.hash, m, chunks)
    requires receiver.disk.manifest.None? || receiver.disk.manifest == Some(m)
    requires forall c :: c in chunks ==> |c.data| <= DEFAULT_CHUNK_SIZE
    modifies receiver
    ensures receiver.Valid()
    ensures var announced := SendOver(AnnounceSize(m));
      r == if announced == Refused then Err(TooLarge) else if announced == Lost then Err(NoReply)
           else if VerifyManifest(m).Err? then Err(Rejected(VerifyManifest(m).error)) else Ok(())
    ensures r.Ok? <==> SendOver(AnnounceSize(m)) == Arrives && m.authentic && m.chunks != []
    ensures SendOver(AnnounceSize(m)) == Arrives && !m.authentic ==> r == Err(Rejected(InvalidSignature))
    ensures SendOver(AnnounceSize(m)) == Arrives && m.authentic && m.chunks == [] ==> r == Err(Rejected(InvalidIndex))
    ensures r.Err? ==> receiver.disk == old(receiver.disk) && sent == []
    ensures r.Ok? ==> receiver.disk == Run(receiver.hash, AfterAnnounce(receiver.hash, old(receiver.disk), m), arrivals)
    ensures r.Ok? ==> var missing := Missing(Resume(old(receiver.disk), m));
      Indices(sent) == if missing == [] then Upto(0, |chunks|) else missing
  {
    hide SendOver, AnnounceSize, AcceptSize;
    var announced := SendOver(AnnounceSize(m));
    if announced != Arrives {
      return Err(if announced == Refused then TooLarge else NoReply), [];
    }
    var answer := receiver.Announce(m);
    if answer.Err? {
      return Err(Rejected(answer.error)), [];
    }
    ghost var s := Resume(receiver.disk, m);
    AnswerArrives(s, m, answer.value);
    var need := Elements(answer.value);
    NothingListed(answer.value);
    if need == {} {
      sent := chunks;
    } else {
      sent := Stream(chunks, need);
      ResendsExactlyMissing(receiver.hash, s, chunks, 0);
      SuffixEnds(chunks);
    }
    DeliverAll(receiver, arrivals);
    return Ok(()), sent;
  }

  lemma {:induction false} AnswerArrives(s: TransferState, m: FileManifest, missing: seq<U32>)
    requires SendOver(AnnounceSize(m)) == Arrives && s.manifest == m && WellFormed(s) && missing == Missing(s)
    ensures SendOver(AcceptSize(missing)) == Arrives
  {
    MissingIsComplement(s, 0);
    CompleteIffNothingMissing(s);
    assert forall k :: 0 <= k < |missing| ==> missing[k] in missing;
    AcceptArrives(m, missing);
  }

  /** How the polls of a transfer with a saved state end. If the state of the finished transfer could be sent back,
      every poll is answered; else completion is never reported. With a productive round for every chunk still missing
      the outcome is certain: completion, or no reply. */
  ghost predicate PollEnds(hash: Bytes -> Digest, d: Disk, m: FileManifest, chunks: seq<Chunk>,
      network: seq<seq<Chunk>>, r: Result<TransferState, SendError>)
    requires ValidDisk(hash, d) && d.state.Some? && |m.chunks| < 0x1_0000_0000
  {
    && (StatusFits(m) ==> r.Ok?)
    && (r.Ok? && Complete(r.value) ==> StatusFits(m))
    && (AllProductive(hash, d, chunks, network) && |network| >= |Missing(d.state.value)| ==>
          if StatusFits(m) then r.Ok? && Complete(r.value) else r == Err(NoReply))
  }

  lemma {:induction false} PollOutcome(hash: Bytes -> Digest, d: Disk, m: FileManifest, chunks: seq<Chunk>,
      network: seq<seq<Chunk>>, k: nat, r: Result<TransferState, SendError>)
    requires ValidDisk(hash, d) && d.state.Some? && d.manifest == Some(m) && Authentic(hash, m, chunks)
    requires k <= |network| && r == StatusReply(Rounds(hash, d, network[..k]).state)
    requires Rounds(hash, d, network[..k]).state.Some? && (r.Ok? ==> Complete(r.value) || k == |network|)
    ensures PollEnds(hash, d, m, chunks, network, r)
  {
    hide SendOver, StatusSize, Rounds, MissingFrom, AllProductive;
    var s := Rounds(hash, d, network[..k]).state.value;
    StatusArrivesIf(s);
    if AllProductive(hash, d, chunks, network) && |network| >= |Missing(d.state.value)| && k == |network| {
      assert network[..k] == network;
      ProductiveRoundsSuffice(hash, d, chunks, network);
    }
  }

  /** `send_file_and_wait`: the transfer from announcement to the last poll. `first` is what of the first streaming
      reaches the receiver, `network[i]` what reaches it in round i. */
  method SendFileAndWait(receiver: TransferReceiver, m: FileManifest, chunks: seq<Chunk>, first: seq<Chunk>,
      network: seq<seq<Chunk>>)
    returns (r: Result<TransferState, SendError>, ghost resent: seq<seq<U32>>)
    requires receiver.Valid() && Authentic(receiver.hash, m, chunks)
    requires receiver.disk.manifest.None? || receiver.disk.manifest == Some(m)
    requires forall c :: c in chunks ==> |c.data| <= DEFAULT_CHUNK_SIZE
    modifies receiver
    ensures receiver.Valid() && |resent| <= |network|
    ensures SendOver(AnnounceSize(m)) != Arrives || !m.authentic || m.chunks == [] ==>
      r.Err? && receiver.disk == old(receiver.disk)
    ensures SendOver(AnnounceSize(m)) == Refused ==> r == Err(TooLarge)
    ensures SendOver(AnnounceSize(m)) == Lost ==> r == Err(NoReply)
    ensures SendOver(AnnounceSize(m)) == Arrives && !m.authentic ==> r == Err(Rejected(InvalidSignature))
    ensures SendOver(AnnounceSize(m)) == Arrives && m.authentic && m.chunks == [] ==> r == Err(Rejected(InvalidIndex))
    ensures SendOver(AnnounceSize(m)) == Arrives && m.authentic && m.chunks != [] ==>
      var d := Run(receiver.hash, AfterAnnounce(receiver.hash, old(receiver.disk), m), first);
      && receiver.disk == Rounds(receiver.hash, d, network[..|resent|])
      && ResentMissing(receiver.hash, d, network[..|resent|], resent)
      && r == StatusReply(receiver.disk.state)
      && (r.Ok? ==> receiver.disk.state == Some(r.value) && (Complete(r.value) || |resent| == |network|))
      && (receiver.disk.state.None? ==> r == Err(Rejected(NoState)))
      && (d.state.None? ==> resent == [])
      && (d.state.Some? ==> PollEnds(receiver.hash, d, m, chunks, network, r))
  {
    hide SendOver, AnnounceSize, StatusReply, Rounds, ResentMissing, Run, PollEnds;
    resent := [];
    var announced, sent := SendFile(receiver, m, chunks, first);
    if announced.Err? {
      return Err(announced.error), resent;
    }
    ghost var d := receiver.disk;
    r, resent := PollAndResend(receiver, chunks, network);
    if d.state.Some? { PollOutcome(receiver.hash, d, m, chunks, network, |resent|, r); }
  }

  /** Failing input: a transfer of 30424 chunks or more can be announced (`TransferFrames.AnnouncedNeverReported`) and
      every chunk of it received, and the poll that would report completion gets no reply. */
  lemma {:induction false} LargeTransferNeverReported(hash: Bytes -> Digest, d: Disk)
    requires ValidDisk(hash, d) && d.state.Some? && Complete(d.state.value)
    requires |d.state.value.manifest.chunks| >= 30424
    ensures StatusReply(d.state) == Err(NoReply)
  {
    hide SendOver, StatusSize;
    LargeStatusNeverFits(d.state.value.manifest);
    StatusArrivesIf(d.state.value);
  }
}
