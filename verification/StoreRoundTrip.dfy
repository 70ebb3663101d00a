/** The end-to-end claim of encrypted storage: when a pull returns exactly what was pushed, and when not. */
module StoreRoundTrip {
  import opened Base
  import opened Manifests
  import opened Packing
  import opened BlobStore
  import opened Wire
  import opened StoreFrames
  import opened StoreClient
  import opened StoreRuns

  /** Chunk i of the file carries index i. */
  ghost predicate Numbered(encrypted: seq<EncryptedChunk>) {
    forall i :: 0 <= i < |encrypted| ==> encrypted[i].index == i
  }

  /** However far a push got, at any batch or at any blob within one, a directory that held nothing but chunks of this
      file still does: interruptions and re-pushes of the same ciphertexts compose. */
  lemma {:induction false} InterruptedPushLeavesOwnChunks(hash: Bytes -> Digest, blobs: Blobs,
      encrypted: seq<EncryptedChunk>, k: nat)
    requires Injective(hash) && WellAddressed(hash, blobs) && k <= |encrypted|
    requires blobs.Values <= Elements(encrypted)
    ensures WellAddressed(hash, PutAll(hash, blobs, encrypted[..k]))
    ensures PutAll(hash, blobs, encrypted[..k]).Values <= Elements(encrypted)
  {
    PutAllContents(hash, blobs, encrypted[..k]);
  }

  /** A full push leaves one blob per index, in the order of the file, exactly over leftovers of the same
      ciphertexts. */
  lemma {:induction false} PushedRepresents(hash: Bytes -> Digest, d: BlobDir, manifest: FileManifest,
      encrypted: seq<EncryptedChunk>, me: Fingerprint)
    requires Injective(hash) && WellAddressed(hash, d.blobs) && Numbered(encrypted)
    ensures var blobs := Stored(hash, d, manifest, encrypted, me).blobs;
      WellAddressed(hash, blobs) && (Represents(encrypted, blobs) <==> d.blobs.Values <= Elements(encrypted))
  {
    PutAllContents(hash, d.blobs, encrypted);
  }

  /** What push then pull comes to: the file, if every greedy batch can be sent back; else, if some batch cannot even be
      sent out, what its sender is told of the first such batch; else no reply to the fetch of some batch. */
  function ExpectedOutcome(fileId: FileId, m: FileManifest, encrypted: seq<EncryptedChunk>): Pulled {
    var bs := Batches(encrypted);
    var k := SendableCount(fileId, m, bs);
    if AllAnswerable(fileId, m, encrypted) then Ok((m, encrypted))
    else if k < |bs| then Err(Undelivered(SendOver(StoreSize(fileId, m, bs[k]))))
    else Err(NoReply)
  }

  /** Push, then pull, by an unrevoked client, over whatever interrupted pushes of the same ciphertexts left behind:
      exactly the pushed chunks come back, in index order and in as few pages as the cap allows, if and only if every
      greedy batch can be sent back. Otherwise the push fails as its first oversized batch does, or the pull waits for
      ever. An empty file is never stored, so it cannot be pulled either. */
  method PushThenPull(core: Core, me: Fingerprint, fileId: FileId, manifest: FileManifest,
      encrypted: seq<EncryptedChunk>)
    returns (r: Pulled, ghost pages: seq<seq<EncryptedChunk>>)
    requires core.Valid() && me !in core.Barred() && manifest.authentic
    requires Numbered(encrypted) && |encrypted| == |manifest.chunks|
    requires DirOf(core.dirs, fileId).blobs.Values <= Elements(encrypted)
    modifies core`dirs
    ensures core.Valid()
    ensures encrypted != [] ==> r == ExpectedOutcome(fileId, manifest, encrypted)
    ensures encrypted != [] && r.Ok? ==> forall p :: AllFit(p) && Flatten(p) == encrypted ==> |pages| <= |p|
    ensures encrypted == [] ==> core.dirs == old(core.dirs)
    ensures encrypted == [] && me !in DirOf(core.dirs, fileId).acl && SendOver(FetchSize(fileId, 0)) == Arrives ==>
      r == Err(PermissionDenied)
    ensures forall f :: f in old(core.dirs) && f != fileId ==> f in core.dirs && core.dirs[f] == old(core.dirs)[f]
  {
    hide SendOver, FetchSize, StoreSize, PutAll, Batches, FetchRun, PullStops;
    hide Represents, Leads, LastBatchFull, AllAnswerable, Greedy, Flatten;
    ghost var d := DirOf(core.dirs, fileId);
    DirIsValid(core.hash, core.dirs, fileId);
    PushedRepresents(core.hash, d, manifest, encrypted, me);
    BatchesAreGreedy(encrypted);
    SentBack(fileId, manifest, encrypted);
    pages := [];
    var pushed := PushChunks(core, me, fileId, manifest, encrypted);
    if pushed.Err? {
      return Err(pushed.error), pages;
    }
    ghost var d' := DirOf(core.dirs, fileId);
    ghost var bs := Batches(encrypted);
    assert bs[..|bs|] == bs;
    if encrypted == [] {
      ValuesCardinality(d.blobs, core.hash);
      assert d.blobs.Values == {};
    } else {
      assert d' == Stored(core.hash, d, manifest, encrypted, me);
    }
    r, pages := PullChunks(core, me, fileId);
    if encrypted != [] {
      RepresentsLeads(encrypted, d'.blobs);
      PullOutcome(pages, manifest, d'.blobs, fileId, encrypted, r);
      forall p | AllFit(p) && Flatten(p) == encrypted && r.Ok? ensures |pages| <= |p| {
        GreedyOptimal(pages, p);
      }
    }
  }

  /** What can all be sent back could all be sent out, and that is when every batch is accepted. */
  lemma {:induction false} SentBack(fileId: FileId, m: FileManifest, all: seq<EncryptedChunk>)
    ensures AllAnswerable(fileId, m, all) ==> SendableCount(fileId, m, Batches(all)) == |Batches(all)|
    ensures AllSendable(fileId, m, all) <==> SendableCount(fileId, m, Batches(all)) == |Batches(all)|
    ensures Batches(all) == [] <==> all == []
  {
    hide SendOver, StoreSize, Batches;
    var bs := Batches(all);
    var k := SendableCount(fileId, m, bs);
    if AllAnswerable(fileId, m, all) && k < |bs| {
      AnswerableIsSmall(fileId, m, bs[k]);
    }
    BatchesAreGreedy(all);
    GreedyOfNothing(bs);
  }

  /** A file with one chunk too large beside the manifest's digests, such as a single chunk of 1.1 MiB, cannot be
      pushed. */
  lemma {:induction false} OversizedPushFails(fileId: FileId, m: FileManifest, all: seq<EncryptedChunk>,
      c: EncryptedChunk, revoked: bool)
    requires c in all && DIGEST_SIZE * |m.chunks| + |c.ciphertext| > MAX_DELIVERED + 1
    ensures PushResult(fileId, m, Batches(all), revoked).Err? && !AllAnswerable(fileId, m, all)
  {
    hide SendOver, StoreSize, Batches;
    var j := OversizedIsRefused(fileId, m, all, c);
    SentBack(fileId, m, all);
  }

  /** A file of 8190 chunks or more, cut at the default 768 KiB, about 6 GiB, fails at its first batch and stores
      nothing. Only the last chunk may be shorter. */
  lemma {:induction false} LargePushFails(fileId: FileId, m: FileManifest, all: seq<EncryptedChunk>, revoked: bool)
    requires |m.chunks| == |all| >= 8190 && |all[0].ciphertext| >= 768 * 1024
    ensures SendableCount(fileId, m, Batches(all)) == 0
    ensures PushResult(fileId, m, Batches(all), revoked) == Err(FrameTooLarge)
  {
    hide SendOver, StoreSize, Batches;
    LargeFileIsRefused(fileId, m, all);
  }

  /** The chunk of a one-chunk file for which the frame of the only batch is exactly as large as a frame may be. */
  function FullFrameChunk(fileId: FileId, m: FileManifest): (c: EncryptedChunk)
    requires HeadSize(fileId) + ManifestSize(m) <= 1_000_000
    ensures c.index == 0 && StoreSize(fileId, m, [c]) == MAX_DELIVERED
  {
    var length := MAX_DELIVERED - HeadSize(fileId) - ManifestSize(m) - 29;
    var c := EncryptedChunk(0, seq(24, _ => 0), seq(length, _ => 0));
    VarintOfThree(length);
    assert Total([c]) == Size(c) + Total([]);
    c
  }

  /** Failing input: this file is pushed with success, and no pull of it is ever answered. */
  lemma {:induction false} StoredNeverFetched(hash: Bytes -> Digest, fileId: FileId, m: FileManifest,
      me: Fingerprint, r: Pulled)
    requires Injective(hash) && m.authentic && |m.chunks| == 1
    requires HeadSize(fileId) + ManifestSize(m) <= 1_000_000
    ensures var file := [FullFrameChunk(fileId, m)];
      && PushResult(fileId, m, Batches(file), false) == Ok(())
      && (MayPull(m, Stored(hash, EMPTY_DIR, m, file, me).blobs, fileId, r) ==> r == Err(NoReply))
  {
    hide SendOver, StoreSize, ReplySize, PutAll, FetchRun, PullStops;
    var file := [FullFrameChunk(fileId, m)];
    var blobs := Stored(hash, EMPTY_DIR, m, file, me).blobs;
    OneBatch(file[0]);
    TransitBounds(StoreSize(fileId, m, file));
    StoredButUnanswerable(fileId, m, file);
    PushedRepresents(hash, EMPTY_DIR, m, file, me);
    assert EMPTY_DIR.blobs.Values == {};
    if MayPull(m, blobs, fileId, r) {
      var pages :| FetchRun(pages, m, blobs, fileId) && PullStops(pages, m, blobs, fileId, r);
      RepresentsLeads(file, blobs);
      PullOutcome(pages, m, blobs, fileId, file, r);
    }
  }

  lemma {:induction false} OneBatch(c: EncryptedChunk)
    ensures Batches([c]) == [[c]]
  {
    assert [c][..0] == [];
    assert Batches([c][..0]) == [];
  }
}
