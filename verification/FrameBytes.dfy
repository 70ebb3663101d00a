/** The frames themselves, byte by byte, and that they are as long as the size rules say. Digests, keys, signatures and
    ids have fixed lengths; `hex` is a digest in hexadecimal. */
module FrameBytes {
  import opened Base
  import opened Manifests
  import opened Packing
  import opened BlobStore
  import opened Files
  import opened Wire
  import opened StoreFrames
  import opened TransferFrames
  import opened Postcard

  ghost predicate AllOfLength(bs: seq<Bytes>, n: nat) {
    forall i :: 0 <= i < |bs| ==> |bs[i]| == n
  }

  lemma {:induction false} FlattenLength(bs: seq<Bytes>, n: nat)
    requires AllOfLength(bs, n)
    ensures |Flatten(bs)| == n * |bs|
  {
    if bs == [] {
    } else {
      assert |bs[0]| == n;
      FlattenLength(bs[1..], n);
      assert n * |bs| == n + n * |bs[1..]|;
    }
  }

  /** Version, name, size, chunk size, digests, signer and signature, in this order. */
  function ManifestBytes(m: FileManifest, signer: Bytes, signature: Bytes): Bytes {
    Varint(m.version) + Block(m.name) + Varint(m.totalSize) + Varint(m.chunkSize) +
    Varint(|m.chunks|) + Flatten(m.chunks) + signer + signature
  }

  lemma {:induction false} ManifestLength(m: FileManifest, signer: Bytes, signature: Bytes)
    requires AllOfLength(m.chunks, 32) && |signer| == 32 && |signature| == 64
    ensures |ManifestBytes(m, signer, signature)| == ManifestSize(m)
  {
    hide Varint, Flatten;
    FlattenLength(m.chunks, 32);
  }

  function ChunksBytes(chunks: seq<EncryptedChunk>): Bytes {
    if chunks == [] then [] else Encode(chunks[0]) + ChunksBytes(chunks[1..])
  }

  lemma {:induction false} ChunksLength(chunks: seq<EncryptedChunk>)
    ensures |ChunksBytes(chunks)| == Total(chunks)
  {
    if chunks == [] {
    } else {
      ChunksLength(chunks[1..]);
    }
  }

  /** `AppFrame::Storage(StoreChunks)`: variants 3 and 0. */
  function StoreBytes(fileId: FileId, manifest: Bytes, batch: seq<EncryptedChunk>): Bytes {
    [3, 0] + Block(fileId) + manifest + Varint(|batch|) + ChunksBytes(batch)
  }

  function AckBytes(fileId: FileId): Bytes {
    [3, 1] + Block(fileId)
  }

  function FetchBytes(fileId: FileId, offset: U32): Bytes {
    [3, 2] + Block(fileId) + Varint(offset)
  }

  /** `StoredChunks`: an optional manifest is a tag, and the manifest after it. */
  function ReplyBytes(fileId: FileId, manifest: Option<Bytes>, page: seq<EncryptedChunk>): Bytes {
    [3, 3] + Block(fileId) + (if manifest.Some? then [1] + manifest.value else [0]) + Varint(|page|) + ChunksBytes(page)
  }

  /** The size rules of encrypted storage. */
  lemma {:induction false} StorageFrameLengths(fileId: FileId, m: FileManifest, signer: Bytes, signature: Bytes,
      chunks: seq<EncryptedChunk>, offset: U32)
    requires AllOfLength(m.chunks, 32) && |signer| == 32 && |signature| == 64
    ensures var manifest := ManifestBytes(m, signer, signature);
      && |StoreBytes(fileId, manifest, chunks)| == StoreSize(fileId, m, chunks)
      && |ReplyBytes(fileId, Some(manifest), chunks)| == ReplySize(fileId, Some(m), chunks)
      && |ReplyBytes(fileId, None, chunks)| == ReplySize(fileId, None, chunks)
      && |AckBytes(fileId)| == HeadSize(fileId)
      && |FetchBytes(fileId, offset)| == FetchSize(fileId, offset)
  {
    hide ManifestBytes, Varint, ManifestSize;
    ManifestLength(m, signer, signature);
    ChunksLength(chunks);
  }

  function IndicesBytes(s: seq<U32>): Bytes {
    if s == [] then [] else Varint(s[0]) + IndicesBytes(s[1..])
  }

  function ListBytes(s: seq<U32>): Bytes {
    Varint(|s|) + IndicesBytes(s)
  }

  lemma {:induction false} IndicesLength(s: seq<U32>)
    ensures |IndicesBytes(s)| == IndicesSize(s)
  {
    if s == [] {
    } else {
      IndicesLength(s[1..]);
    }
  }

  /** `AppFrame::Files`: variant 1, then the frame's own variant. */
  function AnnounceBytes(hex: Bytes, manifest: Bytes, senderName: Bytes): Bytes {
    [1, 0] + Block(hex) + manifest + Block(senderName)
  }

  function AcceptBytes(hex: Bytes, missing: seq<U32>): Bytes {
    [1, 1] + Block(hex) + ListBytes(missing)
  }

  function ChunkBytes(hex: Bytes, c: Chunk): Bytes {
    [1, 2] + Block(hex) + Varint(c.index) + c.hash + Block(c.data)
  }

  /** Manifest, recorded indices, and an empty list of lost ones. */
  function StatusBytes(hex: Bytes, manifest: Bytes, verified: seq<U32>): Bytes {
    [1, 6] + Block(hex) + manifest + ListBytes(verified) + ListBytes([])
  }

  /** The size rules of file transfer. */
  lemma {:induction false} TransferFrameLengths(hex: Bytes, name: Bytes, s: TransferState, signer: Bytes,
      signature: Bytes, c: Chunk)
    requires AllOfLength(s.manifest.chunks, 32) && |signer| == 32 && |signature| == 64
    requires |hex| == |name| == 64 && |c.hash| == 32
    ensures var manifest := ManifestBytes(s.manifest, signer, signature);
      && |AnnounceBytes(hex, manifest, name)| == AnnounceSize(s.manifest)
      && |StatusBytes(hex, manifest, s.verified)| == StatusSize(s)
      && |AcceptBytes(hex, s.verified)| == AcceptSize(s.verified)
      && |ChunkBytes(hex, c)| == ChunkSize(c)
  {
    hide ManifestBytes, ManifestSize;
    assert |Varint(64)| == 1 && |Varint(0)| == 1;
    ManifestLength(s.manifest, signer, signature);
    IndicesLength(s.verified);
  }

  /** A message: its id, the two keys, and the payload. */
  function MessageBytes(id: Bytes, sender: Bytes, recipient: Bytes, payload: Bytes): Bytes {
    id + sender + recipient + Block(payload)
  }

  /** The size rules of messages: the frame a link writes is the message behind the tag of its only variant. */
  lemma {:induction false} MessageLengths(id: Bytes, sender: Bytes, recipient: Bytes, payload: Bytes)
    requires |id| == 16 && |sender| == |recipient| == 32
    ensures |MessageBytes(id, sender, recipient, payload)| == MessageSize(|payload|)
    ensures |[0] + MessageBytes(id, sender, recipient, payload)| == FrameSize(|payload|)
  {
    hide Varint;
  }
}
