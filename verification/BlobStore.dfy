/** A core's encrypted blob store, and the client that pushes to it and pulls from it. */
module BlobStore {
  import opened Base
  import opened Manifests
  import opened Packing
  import opened Revocation
  import opened Sorting

  /** The UTF-8 bytes of a file id. */
  type FileId = Bytes

  type Blobs = map<Digest, EncryptedChunk>

  /** `blobs/<file id>`: the content-addressed chunks, `manifest.json` and `acl.json`. */
  datatype BlobDir = BlobDir(blobs: Blobs, manifest: Option<FileManifest>, acl: set<Fingerprint>)

  const EMPTY_DIR := BlobDir(map[], None, {})

  datatype StoreError = InvalidSignature | Revoked | NotReader

  predicate IndexAtMost(c: EncryptedChunk, d: EncryptedChunk) {
    c.index <= d.index
  }

  function BlobId(hash: Bytes -> Digest, c: EncryptedChunk): Digest {
    hash(Encode(c))
  }

  function DirOf(dirs: map<FileId, BlobDir>, fileId: FileId): BlobDir {
    if fileId in dirs then dirs[fileId] else EMPTY_DIR
  }

  function PutAll(hash: Bytes -> Digest, blobs: Blobs, chunks: seq<EncryptedChunk>): Blobs
    decreases |chunks|
  {
    if chunks == [] then blobs
    else PutAll(hash, blobs[BlobId(hash, chunks[0]) := chunks[0]], chunks[1..])
  }

  /** A directory after one accepted store request. */
  function Stored(hash: Bytes -> Digest, d: BlobDir, manifest: FileManifest, chunks: seq<EncryptedChunk>,
      reader: Fingerprint): BlobDir {
    BlobDir(PutAll(hash, d.blobs, chunks), Some(manifest), d.acl + {reader})
  }

  ghost predicate WellAddressed(hash: Bytes -> Digest, blobs: Blobs) {
    forall id {:trigger BlobId(hash, blobs[id])} :: id in blobs ==> BlobId(hash, blobs[id]) == id
  }

  /** The manifest is written before the reader list, so a directory with readers has one. */
  ghost predicate ValidDir(hash: Bytes -> Digest, d: BlobDir) {
    WellAddressed(hash, d.blobs) && (d.acl != {} ==> d.manifest.Some?)
  }

  /** `held` lists every blob once, in whatever order the directory was read. */
  ghost predicate IsListing(held: seq<EncryptedChunk>, blobs: Blobs) {
    NoDuplicates(held) && Elements(held) == blobs.Values
  }

  ghost predicate InOrder(s: seq<EncryptedChunk>) {
    forall i, j :: 0 <= i < j < |s| ==> s[i].index <= s[j].index
  }

  ghost predicate StrictlyInOrder(s: seq<EncryptedChunk>) {
    forall i, j :: 0 <= i < j < |s| ==> s[i].index < s[j].index
  }

  /** `sort_by_key(|chunk| chunk.index)`. */
  function SortChunks(s: seq<EncryptedChunk>): (r: seq<EncryptedChunk>)
    ensures InOrder(r) && |r| == |s|
    ensures Elements(r) == Elements(s)
    ensures InOrder(s) ==> r == s
  {
    SortSorts(IndexAtMost, s);
    SortElements(IndexAtMost, s);
    assert InOrder(s) ==> Sort(IndexAtMost, s) == s by {
      if InOrder(s) { SortOfSorted(IndexAtMost, s); }
    }
    Sort(IndexAtMost, s)
  }

  /** With distinct indices there is one sorted listing, whatever order the chunks came in. */
  lemma {:induction false} SortCanonicalChunks(held: seq<EncryptedChunk>, all: seq<EncryptedChunk>)
    requires NoDuplicates(held) && StrictlyInOrder(all) && Elements(held) == Elements(all)
    ensures SortChunks(held) == all
  {
    assert forall x :: (x in held <==> x in Elements(held)) && (x in all <==> x in Elements(all));
    SortCanonical(IndexAtMost, held, all);
  }

  /** `all` lists every blob in strictly increasing index order. */
  ghost predicate Represents(all: seq<EncryptedChunk>, blobs: Blobs) {
    StrictlyInOrder(all) && Elements(all) == blobs.Values
  }

  /** A page of some sorted reading of the directory, from `offset` on. */
  ghost predicate IsFetched(page: seq<EncryptedChunk>, blobs: Blobs, offset: nat) {
    exists held :: IsListing(held, blobs) && IsPage(page, Skip(SortChunks(held), offset))
  }

  ghost predicate OneBlobPerIndex(blobs: Blobs) {
    forall i, j :: i in blobs && j in blobs && blobs[i].index == blobs[j].index ==> i == j
  }

  lemma {:induction false} PutAllAppend(hash: Bytes -> Digest, blobs: Blobs, a: seq<EncryptedChunk>,
      b: seq<EncryptedChunk>)
    ensures PutAll(hash, blobs, a + b) == PutAll(hash, PutAll(hash, blobs, a), b)
    decreases |a|
  {
    if a == [] {
      assert a + b == b;
    } else {
      assert (a + b)[1..] == a[1..] + b;
      PutAllAppend(hash, blobs[BlobId(hash, a[0]) := a[0]], a[1..], b);
    }
  }

  lemma {:induction false} PutAllSnoc(hash: Bytes -> Digest, blobs: Blobs, chunks: seq<EncryptedChunk>, i: nat)
    requires i < |chunks|
    ensures var before := PutAll(hash, blobs, chunks[..i]);
      PutAll(hash, blobs, chunks[..i + 1]) == before[BlobId(hash, chunks[i]) := chunks[i]]
  {
    PrefixSnoc(chunks, i);
    PutAllAppend(hash, blobs, chunks[..i], [chunks[i]]);
  }

  /** Storing adds exactly the given chunks: nothing is overwritten, nothing else appears. */
  lemma {:induction false} PutAllContents(hash: Bytes -> Digest, blobs: Blobs, chunks: seq<EncryptedChunk>)
    requires Injective(hash) && WellAddressed(hash, blobs)
    ensures WellAddressed(hash, PutAll(hash, blobs, chunks))
    ensures PutAll(hash, blobs, chunks).Values == blobs.Values + Elements(chunks)
    decreases |chunks|
  {
    if chunks == [] {
      assert Elements(chunks) == {};
    } else {
      var c := chunks[0];
      var next := blobs[BlobId(hash, c) := c];
      PutOneContents(hash, blobs, c);
      PutAllContents(hash, next, chunks[1..]);
      assert Elements(chunks) == {c} + Elements(chunks[1..]);
    }
  }

  lemma {:induction false} PutOneContents(hash: Bytes -> Digest, blobs: Blobs, c: EncryptedChunk)
    requires Injective(hash) && WellAddressed(hash, blobs)
    ensures WellAddressed(hash, blobs[BlobId(hash, c) := c])
    ensures blobs[BlobId(hash, c) := c].Values == blobs.Values + {c}
  {
    var id := BlobId(hash, c);
    var next := blobs[id := c];
    if id in blobs {
      assert BlobId(hash, blobs[id]) == id;
      EncodeInjective(blobs[id], c);
    }
    assert next[id] == c;
    forall x | x in blobs.Values ensures x in next.Values {
      var k :| k in blobs && blobs[k] == x;
      assert next[k] == x;
    }
  }

  lemma {:induction false} ReadOne(blobs: Blobs, remaining: set<Digest>, id: Digest, held: seq<EncryptedChunk>)
    requires id in remaining && remaining <= blobs.Keys
    requires Elements(held) == set k | k in blobs && k !in remaining :: blobs[k]
    ensures Elements(held + [blobs[id]]) == set k | k in blobs && k !in remaining - {id} :: blobs[k]
  {
    assert Elements(held + [blobs[id]]) == Elements(held) + {blobs[id]};
  }

  lemma {:induction false} DirIsValid(hash: Bytes -> Digest, dirs: map<FileId, BlobDir>, fileId: FileId)
    requires forall f :: f in dirs ==> ValidDir(hash, dirs[f])
    ensures var d := DirOf(dirs, fileId); WellAddressed(hash, d.blobs) && (d.acl != {} ==> d.manifest.Some?)
  {
    assert fileId in dirs ==> ValidDir(hash, DirOf(dirs, fileId));
  }

  /** A directory holds what it held and the given chunks, each under the hash of its serialized form. */
  ghost predicate Holds(hash: Bytes -> Digest, before: Blobs, chunks: seq<EncryptedChunk>, after: Blobs) {
    && after.Values == before.Values + Elements(chunks)
    && forall c :: c in chunks ==> hash(Encode(c)) in after && after[hash(Encode(c))] == c
  }

  lemma {:induction false} StoredHolds(hash: Bytes -> Digest, d: BlobDir, manifest: FileManifest,
      chunks: seq<EncryptedChunk>, reader: Fingerprint)
    requires Injective(hash) && WellAddressed(hash, d.blobs)
    ensures Holds(hash, d.blobs, chunks, Stored(hash, d, manifest, chunks, reader).blobs)
  {
    var blobs := PutAll(hash, d.blobs, chunks);
    PutAllContents(hash, d.blobs, chunks);
    forall c | c in chunks ensures hash(Encode(c)) in blobs && blobs[hash(Encode(c))] == c {
      assert c in Elements(chunks);
      var id :| id in blobs && blobs[id] == c;
      assert BlobId(hash, blobs[id]) == id;
    }
  }

  lemma {:induction false} LastUpdateCounts<K, V>(m: map<K, V>, k: K, first: V, second: V)
    ensures m[k := first][k := second] == m[k := second]
  {
  }

  /** Serving core. `hash` is the content hash; directories and revocations are changed in place. */
  class Core {
    const hash: Bytes -> Digest
    var dirs: map<FileId, BlobDir>
    var revocations: RevocationFile

    ghost predicate Valid()
      reads this
    {
      Injective(hash) && forall f :: f in dirs ==> ValidDir(hash, dirs[f])
    }

    constructor (hash: Bytes -> Digest)
      requires Injective(hash)
      ensures Valid() && this.hash == hash && dirs == map[] && revocations == NO_FILE
    {
      this.hash := hash;
      dirs := map[];
      revocations := NO_FILE;
    }

    /** Whom the core refuses to serve. */
    function Barred(): set<Fingerprint>
      reads this`revocations
    {
      RevokedSet(revocations)
    }

    /** Read the set, add to it, and replace the file. */
    method RevokeIdentity(fp: Fingerprint)
      requires Valid()
      modifies this`revocations
      ensures Valid() && Barred() == old(Barred()) + {fp}
      ensures revocations == Next(old(revocations), Revoke(fp))
    {
      var listed := RevokedSet(revocations);
      revocations := RevocationFile(listed + {fp}, true);
    }

    method StoreChunks(requester: Fingerprint, fileId: FileId, manifest: FileManifest, chunks: seq<EncryptedChunk>)
      returns (r: Result<(), StoreError>)
      requires Valid()
      modifies this`dirs
      ensures Valid()
      ensures r == if !manifest.authentic then Err(InvalidSignature)
                   else if requester in Barred() then Err(Revoked) else Ok(())
      ensures dirs == if r.Err? then old(dirs)
                      else old(dirs)[fileId := Stored(hash, DirOf(old(dirs), fileId), manifest, chunks, requester)]
      ensures r.Ok? ==> fileId in dirs && dirs[fileId].manifest == Some(manifest)
      ensures r.Ok? ==> dirs[fileId].acl == (if fileId in old(dirs) then old(dirs)[fileId].acl else {}) + {requester}
      ensures r.Ok? ==> Holds(hash, if fileId in old(dirs) then old(dirs)[fileId].blobs else map[], chunks,
                              dirs[fileId].blobs)
      ensures forall f :: f != fileId ==> (f in dirs <==> f in old(dirs)) && (f in dirs ==> dirs[f] == old(dirs)[f])
    {
      if !manifest.authentic {
        return Err(InvalidSignature);
      }
      if requester in Barred() {
        return Err(Revoked);
      }
      hide WellAddressed, PutAll, BlobId, Holds;
      ghost var before, d0 := dirs, DirOf(dirs, fileId);
      DirIsValid(hash, dirs, fileId);
      dirs := dirs[fileId := DirOf(dirs, fileId)];
      for i := 0 to |chunks|
        invariant dirs == before[fileId := d0.(blobs := PutAll(hash, d0.blobs, chunks[..i]))]
      {
        var d := dirs[fileId];
        PutAllSnoc(hash, d0.blobs, chunks, i);
        dirs := dirs[fileId := d.(blobs := d.blobs[BlobId(hash, chunks[i]) := chunks[i]])];
        LastUpdateCounts(before, fileId, d, dirs[fileId]);
      }
      assert chunks[..|chunks|] == chunks;
      PutAllContents(hash, d0.blobs, chunks);
      StoredHolds(hash, d0, manifest, chunks, requester);
      ghost var written := dirs[fileId];
      dirs := dirs[fileId := dirs[fileId].(manifest := Some(manifest))];
      LastUpdateCounts(before, fileId, written, dirs[fileId]);
      ghost var described := dirs[fileId];
      dirs := dirs[fileId := dirs[fileId].(acl := dirs[fileId].acl + {requester})];
      LastUpdateCounts(before, fileId, described, dirs[fileId]);
      return Ok(());
    }

    /** `read_dir`: every blob once, in an arbitrary order. */
    method ReadBlobs(fileId: FileId) returns (held: seq<EncryptedChunk>)
      requires Valid() && fileId in dirs
      ensures IsListing(held, dirs[fileId].blobs)
    {
      var blobs := dirs[fileId].blobs;
      var remaining := blobs.Keys;
      held := [];
      while remaining != {}
        invariant remaining <= blobs.Keys
        invariant NoDuplicates(held)
        invariant Elements(held) == set id | id in blobs && id !in remaining :: blobs[id]
        decreases remaining
      {
        var id :| id in remaining;
        assert ValidDir(hash, dirs[fileId]);
        assert blobs[id] !in held by {
          assert BlobId(hash, blobs[id]) == id;
          forall k | k in blobs && blobs[k] == blobs[id] ensures k == id {
            assert BlobId(hash, blobs[k]) == k;
          }
          assert blobs[id] !in Elements(held);
        }
        ReadOne(blobs, remaining, id, held);
        held := held + [blobs[id]];
        remaining := remaining - {id};
      }
    }

    method FetchChunks(requester: Fingerprint, fileId: FileId, offset: U32)
      returns (r: Result<(Option<FileManifest>, seq<EncryptedChunk>), StoreError>)
      requires Valid()
      ensures requester in Barred() ==> r == Err(Revoked)
      ensures requester !in Barred() && (fileId !in dirs || requester !in dirs[fileId].acl) ==> r == Err(NotReader)
      ensures requester !in Barred() && fileId in dirs && requester in dirs[fileId].acl ==>
        && r.Ok? && r.value.0 == dirs[fileId].manifest
        && IsFetched(r.value.1, dirs[fileId].blobs, offset)
        && (offset >= |dirs[fileId].blobs| ==> r.value.1 == [])
    {
      if requester in Barred() {
        return Err(Revoked);
      }
      if requester !in DirOf(dirs, fileId).acl {
        return Err(NotReader);
      }
      var held := ReadBlobs(fileId);
      NothingBeyond(hash, dirs[fileId].blobs, held);
      var page := Page(Skip(SortChunks(held), offset));
      return Ok((dirs[fileId].manifest, page));
    }
  }

  lemma {:induction false} NothingBeyond(hash: Bytes -> Digest, blobs: Blobs, held: seq<EncryptedChunk>)
    requires WellAddressed(hash, blobs) && IsListing(held, blobs)
    ensures |SortChunks(held)| == |blobs|
  {
    NoDuplicatesCardinality(held);
    ValuesCardinality(blobs, hash);
  }

  /** `into_iter().skip(n)`. */
  function Skip<T>(s: seq<T>, n: nat): seq<T> {
    if n <= |s| then s[n..] else []
  }

  /** Whatever order the directory was read in, a page holds stored chunks only, stops at the end, makes
      progress before it, and continues the one sorted list there is if indices are distinct. */
  lemma {:induction false} FetchedPage(page: seq<EncryptedChunk>, blobs: Blobs, offset: nat, hash: Bytes -> Digest)
    requires IsFetched(page, blobs, offset) && WellAddressed(hash, blobs) && offset <= |blobs|
    ensures offset + |page| <= |blobs| && |page| <= MAX_BATCH_PAYLOAD
    ensures offset < |blobs| ==> page != []
    ensures Elements(page) <= blobs.Values
    ensures forall all :: Represents(all, blobs) ==> |all| == |blobs| && IsPage(page, all[offset..])
  {
    var held :| IsListing(held, blobs) && IsPage(page, Skip(SortChunks(held), offset));
    var sorted := SortChunks(held);
    NoDuplicatesCardinality(held);
    assert Elements(held) == blobs.Values;
    ValuesCardinality(blobs, hash);
    PageIsShort(page);
    forall c | c in page ensures c in Elements(sorted) {
      assert c in sorted[offset..];
    }
    forall all | Represents(all, blobs) ensures |all| == |blobs| && IsPage(page, all[offset..]) {
      SortCanonicalChunks(held, all);
    }
  }

  /** Taking one file out of the directory takes exactly its chunk out of the contents. */
  lemma {:induction false} RemoveOneBlob(hash: Bytes -> Digest, blobs: Blobs, id: Digest)
    requires WellAddressed(hash, blobs) && id in blobs
    ensures blobs[id] !in (blobs - {id}).Values
    ensures blobs.Values == (blobs - {id}).Values + {blobs[id]}
  {
    var rest := blobs - {id};
    assert BlobId(hash, blobs[id]) == id;
    forall k | k in rest ensures rest[k] != blobs[id] {
      assert BlobId(hash, blobs[k]) == k;
    }
    forall x | x in blobs.Values ensures x in rest.Values + {blobs[id]} {
      var k :| k in blobs && blobs[k] == x;
      assert k != id ==> k in rest && rest[k] == x;
    }
  }

  lemma {:induction false} ValuesCardinality(blobs: Blobs, hash: Bytes -> Digest)
    requires WellAddressed(hash, blobs)
    ensures |blobs.Values| == |blobs|
  {
    if blobs == map[] {
      assert blobs.Values == {};
    } else {
      var id :| id in blobs;
      ValuesCardinality(blobs - {id}, hash);
      RemoveOneBlob(hash, blobs, id);
      assert blobs.Keys == (blobs - {id}).Keys + {id};
    }
  }
}
