/** How large the storage frames are, and which batches and pages get through. */
module StoreFrames {
  import opened Base
  import opened Manifests
  import opened Packing
  import opened BlobStore
  import opened Wire
  import Postcard

  /** Two tags, then the file id. */
  function HeadSize(fileId: FileId): (n: nat)
    ensures n >= 3
  {
    2 + |Postcard.Block(fileId)|
  }

  /** `StoreChunks`: every batch travels with the whole manifest. */
  function StoreSize(fileId: FileId, m: FileManifest, batch: seq<EncryptedChunk>): nat {
    HeadSize(fileId) + ManifestSize(m) + |Postcard.Varint(|batch|)| + Total(batch)
  }

  /** `FetchChunks`. */
  function FetchSize(fileId: FileId, offset: nat): nat {
    HeadSize(fileId) + |Postcard.Varint(offset)|
  }

  /** `StoredChunks`: every page travels with the manifest, which is optional here and so has a tag. */
  function ReplySize(fileId: FileId, m: Option<FileManifest>, page: seq<EncryptedChunk>): nat {
    HeadSize(fileId) + 1 + (if m.Some? then ManifestSize(m.value) else 0) + |Postcard.Varint(|page|)| + Total(page)
  }

  /** The reply that returns these chunks reaches the client. */
  predicate Answerable(fileId: FileId, m: FileManifest, page: seq<EncryptedChunk>) {
    SendOver(ReplySize(fileId, Some(m), page)) == Arrives
  }

  /** Every greedy batch of `all` could be sent back. */
  predicate AllAnswerable(fileId: FileId, m: FileManifest, all: seq<EncryptedChunk>) {
    var bs := Batches(all);
    forall j :: 0 <= j < |bs| ==> Answerable(fileId, m, bs[j])
  }

  /** Every greedy batch of `all` could be sent out. */
  predicate AllSendable(fileId: FileId, m: FileManifest, all: seq<EncryptedChunk>) {
    var bs := Batches(all);
    forall j :: 0 <= j < |bs| ==> SendOver(StoreSize(fileId, m, bs[j])) == Arrives
  }

  /** An accepted store request can be acknowledged with `StoreAck`. */
  lemma {:induction false} AckArrives(fileId: FileId, m: FileManifest, batch: seq<EncryptedChunk>)
    requires SendOver(StoreSize(fileId, m, batch)) == Arrives
    ensures SendOver(HeadSize(fileId)) == Arrives
  {
    TransitBounds(HeadSize(fileId));
    TransitBounds(StoreSize(fileId, m, batch));
  }

  /** A batch that can be sent back could be sent out. */
  lemma {:induction false} AnswerableIsSmall(fileId: FileId, m: FileManifest, page: seq<EncryptedChunk>)
    requires Answerable(fileId, m, page)
    ensures SendOver(StoreSize(fileId, m, page)) == Arrives
    ensures |m.chunks| < 0x8000
    ensures forall n :: 0 <= n <= |m.chunks| ==> SendOver(FetchSize(fileId, n)) == Arrives
  {
    TransitBounds(ReplySize(fileId, Some(m), page));
    TransitBounds(StoreSize(fileId, m, page));
    SentIsSmall(fileId, m, page);
  }

  /** The manifest of a batch that can be sent out is small enough to page through. */
  lemma {:induction false} SentIsSmall(fileId: FileId, m: FileManifest, batch: seq<EncryptedChunk>)
    requires SendOver(StoreSize(fileId, m, batch)) == Arrives
    ensures |m.chunks| < 0x8000
    ensures forall n :: 0 <= n <= |m.chunks| ==> SendOver(FetchSize(fileId, n)) == Arrives
  {
    TransitBounds(StoreSize(fileId, m, batch));
    forall n | 0 <= n <= |m.chunks| ensures SendOver(FetchSize(fileId, n)) == Arrives {
      ShortVarint(n);
      TransitBounds(FetchSize(fileId, n));
    }
  }

  /** A batch is accepted and stored but can never be fetched back exactly when its frame is as large as a frame
      may be: the reply is one byte longer. */
  lemma {:induction false} StoredButUnanswerable(fileId: FileId, m: FileManifest, batch: seq<EncryptedChunk>)
    ensures SendOver(StoreSize(fileId, m, batch)) == Arrives && !Answerable(fileId, m, batch) <==>
      StoreSize(fileId, m, batch) == MAX_DELIVERED
  {
    TransitBounds(StoreSize(fileId, m, batch));
    TransitBounds(ReplySize(fileId, Some(m), batch));
  }

  lemma {:induction false} TotalOfMember(s: seq<EncryptedChunk>, c: EncryptedChunk)
    requires c in s
    ensures Total(s) >= Size(c)
  {
    if s[0] != c { TotalOfMember(s[1..], c); }
  }

  lemma {:induction false} BatchOf(bs: seq<seq<EncryptedChunk>>, c: EncryptedChunk) returns (j: nat)
    requires c in Flatten(bs)
    ensures j < |bs| && c in bs[j]
  {
    assert c in bs[0] || c in Flatten(bs[1..]);
    if c in bs[0] {
      j := 0;
    } else {
      j := BatchOf(bs[1..], c);
      j := j + 1;
    }
  }

  /** What a caller can check beforehand: no chunk above the cap, and a manifest and file id that fit beside it. */
  lemma {:induction false} SmallFilesFit(fileId: FileId, m: FileManifest, all: seq<EncryptedChunk>)
    requires forall c :: c in all ==> Size(c) <= MAX_BATCH_PAYLOAD
    requires HeadSize(fileId) + ManifestSize(m) <= MAX_DELIVERED - MAX_BATCH_PAYLOAD - 4
    ensures AllAnswerable(fileId, m, all)
  {
    BatchesAreGreedy(all);
    var bs := Batches(all);
    forall j | 0 <= j < |bs| ensures Answerable(fileId, m, bs[j]) {
      BatchWithinCap(bs, j);
      PageIsShort(bs[j]);
      ShortVarint(|bs[j]|);
      TransitBounds(ReplySize(fileId, Some(m), bs[j]));
    }
  }

  lemma {:induction false} BatchWithinCap(bs: seq<seq<EncryptedChunk>>, j: nat)
    requires Greedy(bs) && j < |bs|
    requires forall c :: c in Flatten(bs) ==> Size(c) <= MAX_BATCH_PAYLOAD
    ensures Total(bs[j]) <= MAX_BATCH_PAYLOAD
  {
    var b := bs[j];
    MemberOfFlatten(bs, j, b[0]);
    assert |b| == 1 ==> Total(b) == Size(b[0]) + Total(b[1..]);
  }

  lemma {:induction false} MemberOfFlatten<T>(ss: seq<seq<T>>, j: nat, x: T)
    requires j < |ss| && x in ss[j]
    ensures x in Flatten(ss)
  {
    if j > 0 {
      assert ss[j] == ss[1..][j - 1];
      MemberOfFlatten(ss[1..], j - 1, x);
    }
  }

  /** Failing files: a chunk too large beside the manifest's digests. Some batch is refused. */
  lemma {:induction false} OversizedIsRefused(fileId: FileId, m: FileManifest, all: seq<EncryptedChunk>,
      c: EncryptedChunk) returns (j: nat)
    requires c in all && DIGEST_SIZE * |m.chunks| + |c.ciphertext| > MAX_DELIVERED + 1
    ensures j < |Batches(all)| && SendOver(StoreSize(fileId, m, Batches(all)[j])) == Refused
  {
    BatchesAreGreedy(all);
    j := BatchOf(Batches(all), c);
    TotalOfMember(Batches(all)[j], c);
    TransitBounds(StoreSize(fileId, m, Batches(all)[j]));
  }

  /** With the default chunk size of 768 KiB a file of 8190 chunks, about 6 GiB, is refused at its first batch. */
  lemma {:induction false} LargeFileIsRefused(fileId: FileId, m: FileManifest, all: seq<EncryptedChunk>)
    requires |m.chunks| == |all| >= 8190 && |all[0].ciphertext| >= 768 * 1024
    ensures Batches(all) != [] && SendOver(StoreSize(fileId, m, Batches(all)[0])) == Refused
  {
    BatchesAreGreedy(all);
    var bs := Batches(all);
    GreedyOfNothing(bs);
    assert all == bs[0] + Flatten(bs[1..]);
    TotalOfMember(bs[0], all[0]);
    TransitBounds(StoreSize(fileId, m, bs[0]));
  }
}
