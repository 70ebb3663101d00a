/** The client side of encrypted storage: pushing in batches and pulling page by page, over calls that can be
    refused, or go unanswered, for their size. */
module StoreClient {
  import opened Base
  import opened Manifests
  import opened Packing
  import opened BlobStore
  import opened Wire
  import opened StoreFrames

  /** `NoReply` stands for a call that waits for ever. */
  datatype ClientError = FrameTooLarge | NoReply | Denied(error: StoreError) | PermissionDenied | NotFound
                       | Incomplete(got: nat, expected: nat)

  type Pulled = Result<(FileManifest, seq<EncryptedChunk>), ClientError>

  /** What the caller gets for a request that does not arrive. */
  function Undelivered(t: Transit): ClientError
    requires t != Arrives
  {
    if t == Refused then FrameTooLarge else NoReply
  }

  /** The number of leading batches whose frames arrive. */
  function SendableCount(fileId: FileId, m: FileManifest, bs: seq<seq<EncryptedChunk>>): (k: nat)
    ensures k <= |bs|
    ensures forall j :: 0 <= j < k ==> SendOver(StoreSize(fileId, m, bs[j])) == Arrives
    ensures k < |bs| ==> SendOver(StoreSize(fileId, m, bs[k])) != Arrives
  {
    if bs == [] || SendOver(StoreSize(fileId, m, bs[0])) != Arrives then 0
    else 1 + SendableCount(fileId, m, bs[1..])
  }

  /** What a push over batches `bs` returns: the size of its first batch, then the core's answer, then the size of
      the first batch that does not arrive. */
  function PushResult(fileId: FileId, m: FileManifest, bs: seq<seq<EncryptedChunk>>,
      revoked: bool): Result<(), ClientError> {
    var k := SendableCount(fileId, m, bs);
    if k > 0 && !m.authentic then Err(Denied(InvalidSignature))
    else if k > 0 && revoked then Err(Denied(Revoked))
    else if k < |bs| then Err(Undelivered(SendOver(StoreSize(fileId, m, bs[k]))))
    else Ok(())
  }

  /** What the client of a push is told, case by case. Nothing to push is a success. An oversized first batch is
      reported as such, or waits for ever, before the core is asked; an unsigned manifest is denied before a revoked
      client is; and success means that every batch arrived at a core that accepts them. */
  lemma {:induction false} PushAnswers(fileId: FileId, m: FileManifest, bs: seq<seq<EncryptedChunk>>, revoked: bool)
    ensures bs == [] ==> PushResult(fileId, m, bs, revoked) == Ok(())
    ensures bs != [] ==>
      var first := SendOver(StoreSize(fileId, m, bs[0]));
      var r := PushResult(fileId, m, bs, revoked);
      && (first == Refused ==> r == Err(FrameTooLarge))
      && (first == Lost ==> r == Err(NoReply))
      && (first == Arrives && !m.authentic ==> r == Err(Denied(InvalidSignature)))
      && (first == Arrives && m.authentic && revoked ==> r == Err(Denied(Revoked)))
      && (first == Arrives && m.authentic && !revoked ==> r.Ok? || r == Err(FrameTooLarge) || r == Err(NoReply))
      && (r.Ok? <==>
            && m.authentic && !revoked
            && forall j :: 0 <= j < |bs| ==> SendOver(StoreSize(fileId, m, bs[j])) == Arrives)
  {
    hide SendOver, StoreSize;
  }

  /** Push every chunk, one acknowledged batch at a time. Success leaves the directory as one store of all the chunks
      would. A push that stops for the size of batch k leaves exactly the batches before it; a push that the core
      denies leaves nothing. */
  method PushChunks(core: Core, me: Fingerprint, fileId: FileId, manifest: FileManifest, encrypted: seq<EncryptedChunk>)
    returns (r: Result<(), ClientError>)
    requires core.Valid()
    modifies core`dirs
    ensures core.Valid()
    ensures r == PushResult(fileId, manifest, Batches(encrypted), me in core.Barred())
    ensures var bs := Batches(encrypted); var k := SendableCount(fileId, manifest, bs);
      core.dirs == if k == 0 || !manifest.authentic || me in core.Barred() then old(core.dirs)
                   else var d := DirOf(old(core.dirs), fileId);
                     old(core.dirs)[fileId := Stored(core.hash, d, manifest, Flatten(bs[..k]), me)]
  {
    hide SendOver, StoreSize, Stored, Batches, Flatten, ValidDir;
    var batches := Batch(encrypted);
    ghost var d0 := DirOf(core.dirs, fileId);
    ghost var k := SendableCount(fileId, manifest, batches);
    for i := 0 to |batches|
      invariant core.Valid()
      invariant i <= k
      invariant i > 0 ==> manifest.authentic && me !in core.Barred()
      invariant i == 0 ==> core.dirs == old(core.dirs)
      invariant i > 0 ==> core.dirs == old(core.dirs)[fileId := DirOf(core.dirs, fileId)]
      invariant i > 0 ==> DirOf(core.dirs, fileId) == Stored(core.hash, d0, manifest, Flatten(batches[..i]), me)
    {
      var sent := SendOver(StoreSize(fileId, manifest, batches[i]));
      if sent != Arrives {
        return Err(Undelivered(sent));
      }
      PushStep(core.hash, d0, DirOf(core.dirs, fileId), manifest, batches, i, me);
      var reply := core.StoreChunks(me, fileId, manifest, batches[i]);
      AckArrives(fileId, manifest, batches[i]);
      if reply.Err? {
        return Err(Denied(reply.error));
      }
    }
    return Ok(());
  }

  lemma {:induction false} PushStep(hash: Bytes -> Digest, d0: BlobDir, d: BlobDir, manifest: FileManifest,
      batches: seq<seq<EncryptedChunk>>, i: nat, me: Fingerprint)
    requires i < |batches|
    requires d == if i == 0 then d0 else Stored(hash, d0, manifest, Flatten(batches[..i]), me)
    ensures Stored(hash, d, manifest, batches[i], me) == Stored(hash, d0, manifest, Flatten(batches[..i + 1]), me)
  {
    var soFar := Flatten(batches[..i]);
    FlattenSnoc(batches[..i], batches[i]);
    PrefixSnoc(batches, i);
    if i == 0 {
      assert soFar + batches[i] == batches[i];
    } else {
      StoredTwice(hash, d0, manifest, soFar, batches[i], me);
    }
  }

  lemma {:induction false} StoredTwice(hash: Bytes -> Digest, d: BlobDir, manifest: FileManifest,
      a: seq<EncryptedChunk>, b: seq<EncryptedChunk>, fp: Fingerprint)
    ensures Stored(hash, Stored(hash, d, manifest, a, fp), manifest, b, fp) == Stored(hash, d, manifest, a + b, fp)
  {
    PutAllAppend(hash, d.blobs, a, b);
  }

  /** The client asks on while it has fewer chunks than the manifest counts, or while the manifest counts none. */
  predicate Unfinished(m: FileManifest, n: nat) {
    m.chunks == [] || n < |m.chunks|
  }

  /** Some reading of the directory answers a fetch at `n` with `page`, and both frames arrive. */
  ghost predicate Answered(m: FileManifest, blobs: Blobs, fileId: FileId, n: nat, page: seq<EncryptedChunk>) {
    && SendOver(FetchSize(fileId, n)) == Arrives
    && IsFetched(page, blobs, n)
    && Answerable(fileId, m, page)
  }

  /** Some reading of the directory makes a reply that is too large to arrive. */
  ghost predicate Unanswered(m: FileManifest, blobs: Blobs, fileId: FileId, n: nat) {
    exists page :: IsFetched(page, blobs, n) && !Answerable(fileId, m, page)
  }

  /** The pages a client may have received: each asked for where the ones before it ended, as long as it asked. */
  ghost predicate FetchRun(pages: seq<seq<EncryptedChunk>>, m: FileManifest, blobs: Blobs, fileId: FileId) {
    pages == [] ||
    var n := |pages| - 1;
    var collected := |Flatten(pages[..n])|;
    && FetchRun(pages[..n], m, blobs, fileId)
    && Unfinished(m, collected) && Answered(m, blobs, fileId, collected, pages[n]) && pages[n] != []
  }

  /** The client's verdict on what it collected, against the manifest's chunk count. */
  function Verdict(collected: seq<EncryptedChunk>, m: FileManifest): Pulled {
    if |collected| != |m.chunks| then Err(Incomplete(|collected|, |m.chunks|))
    else Ok((m, SortChunks(collected)))
  }

  /** How a pull may end after these pages: everything is there, a request or a reply does not arrive, or a page is
      empty. */
  ghost predicate PullStops(pages: seq<seq<EncryptedChunk>>, m: FileManifest, blobs: Blobs, fileId: FileId,
      r: Pulled) {
    var collected := Flatten(pages);
    var sent := SendOver(FetchSize(fileId, |collected|));
    if !Unfinished(m, |collected|) then r == Verdict(collected, m)
    else if sent != Arrives then r == Err(Undelivered(sent))
    else
      || (r == Err(NoReply) && Unanswered(m, blobs, fileId, |collected|))
      || (r == Verdict(collected, m) && Answered(m, blobs, fileId, |collected|, []))
  }

  /** A pull by a permitted reader may end with `r`. */
  ghost predicate MayPull(m: FileManifest, blobs: Blobs, fileId: FileId, r: Pulled) {
    exists pages :: FetchRun(pages, m, blobs, fileId) && PullStops(pages, m, blobs, fileId, r)
  }

  /** One more page: it stays within the directory, and within 32 bits while the client goes on asking. */
  lemma {:induction false} FetchRunStep(pages: seq<seq<EncryptedChunk>>, page: seq<EncryptedChunk>, m: FileManifest,
      blobs: Blobs, fileId: FileId, hash: Bytes -> Digest)
    requires WellAddressed(hash, blobs) && FetchRun(pages, m, blobs, fileId) && |Flatten(pages)| <= |blobs|
    requires Unfinished(m, |Flatten(pages)|) && Answered(m, blobs, fileId, |Flatten(pages)|, page)
    ensures |page| <= MAX_BATCH_PAYLOAD && |Flatten(pages)| + |page| <= |blobs|
    ensures |m.chunks| < 0x8000
    ensures page != [] ==>
      FetchRun(pages + [page], m, blobs, fileId) && Flatten(pages + [page]) == Flatten(pages) + page
  {
    FetchedPage(page, blobs, |Flatten(pages)|, hash);
    AnswerableIsSmall(fileId, m, page);
    FlattenSnoc(pages, page);
    DropLast(pages, page);
  }

  lemma {:induction false} FetchedNothing(m: FileManifest, blobs: Blobs, fileId: FileId)
    ensures FetchRun([], m, blobs, fileId) && Unfinished(m, |Flatten<EncryptedChunk>([])|)
  {
  }

  /** `pull_chunks`. Only a permitted reader gets past the first call. A directory of 2^32 blobs or more would pin
      the saturating offset, but only a manifest that counts no chunks could make the client ask that long. */
  method PullChunks(core: Core, me: Fingerprint, fileId: FileId)
    returns (r: Pulled, ghost pages: seq<seq<EncryptedChunk>>)
    requires core.Valid()
    requires var d := DirOf(core.dirs, fileId);
      |d.blobs| < 0x1_0000_0000 || (d.manifest.Some? && d.manifest.value.chunks != [])
    ensures me in core.Barred() || me !in DirOf(core.dirs, fileId).acl ==>
      var sent := SendOver(FetchSize(fileId, 0));
      r == Err(if sent != Arrives then Undelivered(sent) else PermissionDenied)
    ensures me !in core.Barred() && me in DirOf(core.dirs, fileId).acl ==>
      var d := DirOf(core.dirs, fileId);
      && d.manifest.Some?
      && FetchRun(pages, d.manifest.value, d.blobs, fileId)
      && PullStops(pages, d.manifest.value, d.blobs, fileId, r)
      && (r.Err? && r.error.Incomplete? ==> r.error == Incomplete(|Flatten(pages)|, |d.manifest.value.chunks|))
  {
    hide SendOver, FetchSize, ReplySize, IsFetched, WellAddressed, ValidDir, FetchRun;
    hide SaturatingAddU32, TruncateU32, SortChunks;
    var manifest: Option<FileManifest> := None;
    var collected: seq<EncryptedChunk> := [];
    var offset: U32 := 0;
    pages := [];
    ghost var d := DirOf(core.dirs, fileId);
    ghost var permitted := me !in core.Barred() && me in d.acl;
    DirIsValid(core.hash, core.dirs, fileId);
    if permitted { FetchedNothing(d.manifest.value, d.blobs, fileId); }
    while true
      invariant permitted ==>
        FetchRun(pages, d.manifest.value, d.blobs, fileId) && Unfinished(d.manifest.value, |collected|)
      invariant collected == Flatten(pages)
      invariant offset == |collected| <= |d.blobs|
      invariant manifest.Some? ==> manifest == d.manifest
      invariant !permitted ==> collected == []
      decreases |d.blobs| - |collected|
    {
      var sent := SendOver(FetchSize(fileId, offset));
      if sent != Arrives {
        return Err(Undelivered(sent)), pages;
      }
      var reply := core.FetchChunks(me, fileId, offset);
      if reply.Err? {
        return Err(PermissionDenied), pages;
      }
      var (pageManifest, page) := reply.value;
      if SendOver(ReplySize(fileId, pageManifest, page)) != Arrives {
        return Err(NoReply), pages;
      }
      if manifest.None? {
        manifest := pageManifest;
      }
      FetchRunStep(pages, page, d.manifest.value, d.blobs, fileId, core.hash);
      var pageLen := |page|;
      offset := SaturatingAddU32(offset, TruncateU32(pageLen));
      collected := collected + page;
      if page != [] {
        pages := pages + [page];
      }

      var expected := if manifest.Some? then |manifest.value.chunks| else 0;
      if expected > 0 && |collected| >= expected {
        break;
      }
      if pageLen == 0 {
        break;
      }
    }
    if manifest.None? {
      return Err(NotFound), pages;
    }
    if |collected| != |manifest.value.chunks| {
      return Err(Incomplete(|collected|, |manifest.value.chunks|)), pages;
    }
    return Ok((manifest.value, SortChunks(collected))), pages;
  }
}
