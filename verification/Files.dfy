/** Manifests, chunks and the receiver's resume state of a file transfer. */
module Files {
  import opened Base
  import opened Manifests

  datatype Chunk = Chunk(index: U32, hash: Digest, data: Bytes)

  /** `Panic` stands for an index past the end of a list: it ends the call and everything it was about to do. */
  datatype FileError = NoManifest | NoState | MissingPart | InvalidSignature | InvalidIndex
                     | HashMismatch(index: U32) | SizeMismatch | Panic

  datatype TransferState = TransferState(manifest: FileManifest, verified: seq<U32>)

  function Datas(chunks: seq<Chunk>): (r: seq<Bytes>)
    ensures |r| == |chunks|
    ensures forall i :: 0 <= i < |chunks| ==> r[i] == chunks[i].data
  {
    seq(|chunks|, i requires 0 <= i < |chunks| => chunks[i].data)
  }

  /** Chunk i of the list carries index i and hashes to entry i of the manifest. */
  ghost predicate Authentic(hash: Bytes -> Digest, m: FileManifest, chunks: seq<Chunk>) {
    && |chunks| == |m.chunks| < 0x1_0000_0000
    && forall i :: 0 <= i < |chunks| ==>
         chunks[i].index == i && chunks[i].hash == m.chunks[i] == hash(chunks[i].data)
  }

  /** `m` and `chunks` describe `content`: nonempty chunks no longer than the chunk size, cut anywhere. */
  ghost predicate Describes(hash: Bytes -> Digest, m: FileManifest, chunks: seq<Chunk>, content: Bytes) {
    && Authentic(hash, m, chunks)
    && Flatten(Datas(chunks)) == content
    && m.totalSize == |content|
    && forall i :: 0 <= i < |chunks| ==> 1 <= |chunks[i].data| <= m.chunkSize
  }

  /** `File::read`: some nonempty prefix of what is left, unless nothing is. */
  method ReadSome(rest: Bytes, limit: nat) returns (data: Bytes)
    requires limit > 0
    ensures data <= rest && |data| <= limit && (data == [] <==> rest == [])
  {
    var most := if |rest| < limit then |rest| else limit;
    var n: nat :| n <= most && (n == 0 <==> most == 0);
    data := rest[..n];
  }

  lemma {:induction false} DatasSnoc(chunks: seq<Chunk>, c: Chunk)
    ensures Flatten(Datas(chunks + [c])) == Flatten(Datas(chunks)) + c.data
  {
    assert Datas(chunks + [c]) == Datas(chunks) + [c.data];
    FlattenSnoc(Datas(chunks), c.data);
  }

  /** `build_manifest`: read to the end, hashing every read as one chunk. Fails on a bad chunk size, or when
      there would be more chunks than a 32-bit index can count past. */
  method BuildManifest(hash: Bytes -> Digest, name: Bytes, content: Bytes, chunkSize: nat)
    returns (r: Result<(FileManifest, seq<Chunk>), FileError>)
    ensures r.Ok? ==> Describes(hash, r.value.0, r.value.1, content) && r.value.0.authentic && r.value.0.name == name
    ensures r.Ok? ==> r.value.0.version == 1
    ensures chunkSize == 0 || chunkSize >= 0x1_0000_0000 ==> r.Err?
    ensures r.Err? ==> r.error == InvalidIndex
    ensures r.Err? ==> chunkSize == 0 || chunkSize >= 0x1_0000_0000 || |content| >= 0x1_0000_0000
    ensures r.Ok? ==> 0 < chunkSize == r.value.0.chunkSize
  {
    if chunkSize == 0 || chunkSize > 0xFFFF_FFFF {
      return Err(InvalidIndex);
    }
    var chunks: seq<Chunk> := [];
    var hashes: seq<Digest> := [];
    var index: U32 := 0;
    var pos := 0;
    while true
      invariant 0 <= pos <= |content|
      invariant index == |chunks| == |hashes| <= pos
      invariant Flatten(Datas(chunks)) == content[..pos]
      invariant forall i :: 0 <= i < |chunks| ==>
        && chunks[i].index == i && chunks[i].hash == hashes[i] == hash(chunks[i].data)
        && 1 <= |chunks[i].data| <= chunkSize
      decreases |content| - pos
    {
      var data := ReadSome(content[pos..], chunkSize);
      if data == [] {
        break;
      }
      var chunk := Chunk(index, hash(data), data);
      DatasSnoc(chunks, chunk);
      assert content[..pos + |data|] == content[..pos] + data;
      hashes := hashes + [hash(data)];
      chunks := chunks + [chunk];
      pos := pos + |data|;
      if index == 0xFFFF_FFFF {
        return Err(InvalidIndex);
      }
      index := index + 1;
    }
    assert content[..pos] == content;
    return Ok((FileManifest(1, name, |content|, chunkSize, hashes, true), chunks));
  }

  /** `verify_chunk`. */
  function VerifyChunk(hash: Bytes -> Digest, m: FileManifest, c: Chunk): Result<(), FileError> {
    if c.index >= |m.chunks| then Err(InvalidIndex)
    else if m.chunks[c.index] != c.hash || hash(c.data) != m.chunks[c.index] then Err(HashMismatch(c.index))
    else Ok(())
  }

  /** The only chunks that verify against a manifest are the ones it was built from. */
  lemma {:induction false} VerifiedIsOriginal(hash: Bytes -> Digest, m: FileManifest, chunks: seq<Chunk>, c: Chunk)
    requires Injective(hash) && Authentic(hash, m, chunks)
    ensures VerifyChunk(hash, m, c).Ok? <==> c in chunks
  {
    if VerifyChunk(hash, m, c).Ok? {
      assert c == chunks[c.index];
    }
  }

  /** `verify_manifest`. */
  function VerifyManifest(m: FileManifest): Result<(), FileError> {
    if !m.authentic then Err(InvalidSignature) else if m.chunks == [] then Err(InvalidIndex) else Ok(())
  }

  /** `TransferState::mark_verified`. */
  function MarkVerified(s: TransferState, index: U32): TransferState {
    if index in s.verified then s else s.(verified := s.verified + [index])
  }

  /** `TransferState::missing`, from position i on. */
  function MissingFrom(s: TransferState, i: nat): seq<U32>
    requires |s.manifest.chunks| < 0x1_0000_0000
    decreases |s.manifest.chunks| - i
  {
    if i >= |s.manifest.chunks| then []
    else if i in s.verified then MissingFrom(s, i + 1)
    else [i] + MissingFrom(s, i + 1)
  }

  function Missing(s: TransferState): seq<U32>
    requires |s.manifest.chunks| < 0x1_0000_0000
  {
    MissingFrom(s, 0)
  }

  /** `TransferState::complete`: only the lengths are compared. */
  predicate Complete(s: TransferState) {
    |s.verified| == |s.manifest.chunks|
  }

  ghost predicate AllBelow(s: seq<U32>, n: nat) {
    forall k :: 0 <= k < |s| ==> s[k] < n
  }

  /** Recorded indices are distinct and name chunks of the manifest. */
  ghost predicate WellFormed(s: TransferState) {
    && |s.manifest.chunks| < 0x1_0000_0000
    && NoDuplicates(s.verified)
    && AllBelow(s.verified, |s.manifest.chunks|)
  }

  lemma {:induction false} MissingIsComplement(s: TransferState, i: nat)
    requires |s.manifest.chunks| < 0x1_0000_0000
    ensures forall x :: x in MissingFrom(s, i) <==> i <= x < |s.manifest.chunks| && x !in s.verified
    ensures NoDuplicates(MissingFrom(s, i))
    decreases |s.manifest.chunks| - i
  {
    if i < |s.manifest.chunks| {
      MissingIsComplement(s, i + 1);
    }
  }

  /** The indices from k on, counting. */
  function Upto(k: nat, n: nat): (r: seq<U32>)
    requires k <= n < 0x1_0000_0000
    ensures |r| == n - k && forall i :: 0 <= i < n - k ==> r[i] == k + i
    decreases n - k
  {
    if k == n then [] else [k] + Upto(k + 1, n)
  }

  function Range(n: nat): (r: set<int>)
    ensures forall i :: i in r <==> 0 <= i < n
    ensures |r| == n
  {
    if n == 0 then {} else Range(n - 1) + {n - 1}
  }

  /** Pigeonhole: a well-formed state is complete exactly when nothing is missing; the recorded and the missing
      indices always add up to the whole manifest. */
  lemma {:induction false} CompleteIffNothingMissing(s: TransferState)
    requires WellFormed(s)
    ensures |s.verified| + |Missing(s)| == |s.manifest.chunks|
    ensures Complete(s) <==> Missing(s) == []
    ensures Complete(s) <==> forall i :: 0 <= i < |s.manifest.chunks| ==> i in s.verified
  {
    var n := |s.manifest.chunks|;
    var missing := Missing(s);
    MissingIsComplement(s, 0);
    NoDuplicatesCardinality<int>(s.verified);
    NoDuplicatesCardinality<int>(missing);
    var have, lack := Elements<int>(s.verified), Elements<int>(missing);
    assert have !! lack;
    assert have + lack == Range(n);
    assert |have + lack| == |have| + |lack|;
    if forall i :: 0 <= i < n ==> i in s.verified {
      assert lack == {};
    } else {
      var i :| 0 <= i < n && i !in s.verified;
      assert i in missing;
    }
  }
}
