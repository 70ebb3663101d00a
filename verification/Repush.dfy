/** Re-pushing a file over what an earlier push left: exactly when every pull gives the file back, and what a pull
    returns when the chunks were encrypted again in between. */
module Repush {
  import opened Base
  import opened Manifests
  import opened Packing
  import opened BlobStore
  import opened Wire
  import opened StoreFrames
  import opened StoreClient
  import opened StoreRuns
  import opened StoreRoundTrip

  lemma {:induction false} ListingExists(hash: Bytes -> Digest, blobs: Blobs) returns (held: seq<EncryptedChunk>)
    requires WellAddressed(hash, blobs)
    ensures IsListing(held, blobs)
  {
    if blobs == map[] {
      held := [];
      assert blobs.Values == {};
    } else {
      var id :| id in blobs;
      var rest := blobs - {id};
      var tail := ListingExists(hash, rest);
      held := [blobs[id]] + tail;
      RemoveOneBlob(hash, blobs, id);
      assert Elements(held) == {blobs[id]} + Elements(tail);
    }
  }

  lemma {:induction false} SortedListing(held: seq<EncryptedChunk>, blobs: Blobs)
    requires IsListing(held, blobs)
    ensures IsListing(SortChunks(held), blobs)
  {
    NoDuplicatesCardinality(held);
    DuplicateLosesElement(SortChunks(held));
  }

  /** A store can be listed in strictly increasing index order exactly when no two of its blobs carry the same
      index. */
  lemma {:induction false} RepresentableIffOneBlobPerIndex(hash: Bytes -> Digest, blobs: Blobs)
    requires WellAddressed(hash, blobs)
    ensures (exists all :: Represents(all, blobs)) <==> OneBlobPerIndex(blobs)
  {
    if OneBlobPerIndex(blobs) {
      var held := ListingExists(hash, blobs);
      var all := SortChunks(held);
      SortedListing(held, blobs);
      forall i, j | 0 <= i < j < |all| ensures all[i].index < all[j].index {
        assert all[i] in Elements(all) && all[j] in Elements(all);
      }
      assert Represents(all, blobs);
    }
    if all :| Represents(all, blobs) {
      forall i, j | i in blobs && j in blobs && blobs[i].index == blobs[j].index ensures i == j {
        assert blobs[i] in Elements(all) && blobs[j] in Elements(all);
        assert BlobId(hash, blobs[i]) == i && BlobId(hash, blobs[j]) == j;
      }
    }
  }

  /** A directory read in an order whose first chunks are not the file gives something else, or nothing. */
  lemma {:induction false} SpoiledAlong(m: FileManifest, blobs: Blobs, fileId: FileId, encrypted: seq<EncryptedChunk>,
      list: seq<EncryptedChunk>) returns (r: Pulled)
    requires IsListing(list, blobs) && InOrder(list) && |encrypted| == |m.chunks| <= |list|
    requires list[..|encrypted|] != encrypted
    ensures MayPull(m, blobs, fileId, r) && r != Ok((m, encrypted))
  {
    hide FetchRun, PullStops, Flatten, IsListing;
    var pages;
    pages, r := PullAlong(m, blobs, fileId, list);
    var collected := Flatten(pages);
    assert |collected| == |encrypted| ==> collected == list[..|encrypted|] && InOrder(collected);
  }

  lemma {:induction false} EqualIndices(list: seq<EncryptedChunk>, i: nat, j: nat, x: EncryptedChunk,
      encrypted: seq<EncryptedChunk>, blobs: Blobs)
    requires InOrder(list) && i < j < |list| && list[j] == x
    requires Follows(x, encrypted, blobs) && Follows(list[i], encrypted, blobs)
    ensures list[i].index == list[j].index
  {
  }

  lemma {:induction false} SwapPermutes<T>(s: seq<T>, i: nat, j: nat)
    requires i < j < |s|
    ensures var t := s[i := s[j]][j := s[i]];
      |t| == |s| && multiset(t) == multiset(s) && t[..i] == s[..i] && t[i] == s[j] && Elements(t) == Elements(s)
  {
    var t := s[i := s[j]][j := s[i]];
    assert multiset(t) == multiset(s);
    forall x ensures x in s <==> x in t {
      assert x in s <==> x in multiset(s);
      assert x in t <==> x in multiset(t);
    }
  }

  /** Two blobs with one index can as well be read the other way round. */
  lemma {:induction false} SwapEqual(list: seq<EncryptedChunk>, blobs: Blobs, i: nat, j: nat)
    returns (swapped: seq<EncryptedChunk>)
    requires IsListing(list, blobs) && InOrder(list)
    requires i < j < |list| && list[i].index == list[j].index
    ensures |swapped| == |list| && IsListing(swapped, blobs) && InOrder(swapped)
    ensures swapped[..i] == list[..i] && swapped[i] == list[j] != list[i]
  {
    SwapPermutes(list, i, j);
    swapped := list[i := list[j]][j := list[i]];
  }

  lemma {:induction false} FileIsShorter(encrypted: seq<EncryptedChunk>, list: seq<EncryptedChunk>, blobs: Blobs)
    requires Numbered(encrypted) && IsListing(list, blobs) && Elements(encrypted) <= blobs.Values
    ensures |encrypted| <= |list|
    ensures Elements(encrypted) != blobs.Values ==> |encrypted| < |list|
  {
    NoDuplicatesCardinality(list);
    NoDuplicatesCardinality(encrypted);
    SubsetIsSmaller(Elements(encrypted), blobs.Values);
  }

  lemma {:induction false} SubsetIsSmaller<T>(a: set<T>, b: set<T>)
    requires a <= b
    ensures |a| <= |b| && (a != b ==> |a| < |b|)
  {
    assert b == a + (b - a);
    assert a != b ==> b - a != {};
  }

  /** A blob `x` that is no chunk of the file, under an index of the file, is enough to spoil some pull. */
  lemma {:induction false} ForeignBlobSpoils(m: FileManifest, blobs: Blobs, fileId: FileId, hash: Bytes -> Digest,
      encrypted: seq<EncryptedChunk>, x: EncryptedChunk) returns (r: Pulled)
    requires WellAddressed(hash, blobs) && Elements(encrypted) <= blobs.Values
    requires Numbered(encrypted) && |encrypted| == |m.chunks| > 0
    requires x in blobs.Values && x !in encrypted && x.index < |encrypted|
    ensures MayPull(m, blobs, fileId, r) && r != Ok((m, encrypted))
  {
    hide MayPull, WellAddressed;
    var n := |encrypted|;
    var held := ListingExists(hash, blobs);
    var list := SortChunks(held);
    SortedListing(held, blobs);
    FileIsShorter(encrypted, list, blobs);
    if list[..n] != encrypted {
      r := SpoiledAlong(m, blobs, fileId, encrypted, list);
    } else {
      var j := PositionBehind(list, encrypted, x);
      assert list[n - 1] == encrypted[n - 1];
      var swapped := SwapEqual(list, blobs, n - 1, j);
      assert swapped[..n][n - 1] != encrypted[n - 1];
      r := SpoiledAlong(m, blobs, fileId, encrypted, swapped);
    }
  }

  lemma {:induction false} PositionBehind(list: seq<EncryptedChunk>, encrypted: seq<EncryptedChunk>, x: EncryptedChunk)
    returns (j: nat)
    requires InOrder(list) && encrypted <= list && encrypted != [] && Numbered(encrypted)
    requires x in Elements(list) && x !in encrypted && x.index < |encrypted|
    ensures |encrypted| - 1 < j < |list| && list[j] == x && x.index == list[|encrypted| - 1].index
  {
    j :| j < |list| && list[j] == x;
    assert encrypted == list[..|encrypted|];
    assert list[|encrypted| - 1] == encrypted[|encrypted| - 1];
  }

  /** So is a blob `x` that may follow the file and for which its last batch has room: the last page then overshoots. */
  lemma {:induction false} FollowerSpoils(m: FileManifest, blobs: Blobs, fileId: FileId, hash: Bytes -> Digest,
      encrypted: seq<EncryptedChunk>, x: EncryptedChunk) returns (r: Pulled)
    requires WellAddressed(hash, blobs) && Leads(encrypted, blobs) && encrypted != [] && |encrypted| == |m.chunks|
    requires Follows(x, encrypted, blobs)
    requires var bs := Batches(encrypted); bs != [] && Total(bs[|bs| - 1]) + Size(x) <= MAX_BATCH_PAYLOAD
    ensures MayPull(m, blobs, fileId, r) && r != Ok((m, encrypted))
  {
    hide WellAddressed, Batches, Total, Size, FetchRun, PullStops, Flatten, Greedy;
    var held := ListingExists(hash, blobs);
    var list := ListedNext(held, blobs, encrypted, x);
    var pages;
    pages, r := PullAlong(m, blobs, fileId, list);
    if r == Ok((m, encrypted)) {
      StoppedAt(pages, list, encrypted, m);
    }
  }

  /** A pull along `list` that returned the file fetched its batches, so the last of them had no room for the next. */
  lemma {:induction false} StoppedAt(pages: seq<seq<EncryptedChunk>>, list: seq<EncryptedChunk>,
      encrypted: seq<EncryptedChunk>, m: FileManifest)
    requires InOrder(list) && encrypted <= list && |encrypted| < |list| && encrypted != []
    requires PagesOf(pages, Flatten(pages), list) && Verdict(Flatten(pages), m) == Ok((m, encrypted))
    ensures var bs := Batches(encrypted);
      bs != [] && Total(bs[|bs| - 1]) + Size(list[|encrypted|]) > MAX_BATCH_PAYLOAD
  {
    hide Batches, Total, Size, Flatten;
    var collected := Flatten(pages);
    assert collected == list[..|collected|] && InOrder(collected);
    assert collected == encrypted;
    BatchesAreGreedy(encrypted);
    GreedyUnique(pages, Batches(encrypted));
    GreedyOfNothing(pages);
  }

  lemma {:induction false} ListingHolds(list: seq<EncryptedChunk>, blobs: Blobs, x: EncryptedChunk)
    requires IsListing(list, blobs)
    ensures x in blobs.Values <==> x in list
  {
    assert x in list <==> x in Elements(list);
  }

  /** Any blob that may follow the file can be read right after it. */
  lemma {:induction false} ListedNext(held: seq<EncryptedChunk>, blobs: Blobs, encrypted: seq<EncryptedChunk>,
      x: EncryptedChunk) returns (list: seq<EncryptedChunk>)
    requires IsListing(held, blobs) && Leads(encrypted, blobs) && Follows(x, encrypted, blobs)
    ensures IsListing(list, blobs) && InOrder(list)
    ensures encrypted <= list && |encrypted| < |list| && list[|encrypted|] == x
  {
    hide SortChunks, IsListing, InOrder, Leads;
    list := SortChunks(held);
    var n := |encrypted|;
    SortedListing(held, blobs);
    LeadersFirst(held, encrypted, blobs);
    ListingHolds(list, blobs, x);
    var j: nat :| j < |list| && list[j] == x;
    assert encrypted == list[..n];
    if j != n {
      ListingHolds(list, blobs, list[n]);
      EqualIndices(list, n, j, x, encrypted, blobs);
      list := SwapEqual(list, blobs, n, j);
    }
  }

  /** Nothing left over carries an index of the file, except chunks of the file. */
  ghost predicate OnlyOwnBelow(blobs: Blobs, encrypted: seq<EncryptedChunk>) {
    forall c :: c in blobs.Values && c.index < |encrypted| ==> c in encrypted
  }

  /** Exactly when a push over leftovers of any kind is safe. Every pull gives back the chunks just pushed if and only
      if all leftovers under indices of the file are blobs of these same ciphertexts, the last batch has no room for a
      leftover that may follow it, and every greedy batch can be sent back. */
  lemma {:induction false} RepushSafeIff(hash: Bytes -> Digest, d: BlobDir, m: FileManifest, fileId: FileId,
      encrypted: seq<EncryptedChunk>, me: Fingerprint)
    requires Injective(hash) && WellAddressed(hash, d.blobs)
    requires Numbered(encrypted) && |encrypted| == |m.chunks| > 0
    ensures (forall r :: MayPull(m, Stored(hash, d, m, encrypted, me).blobs, fileId, r) ==> r == Ok((m, encrypted)))
      <==> OnlyOwnBelow(d.blobs, encrypted) && LastBatchFull(encrypted, d.blobs) && AllAnswerable(fileId, m, encrypted)
  {
    hide PutAll, WellAddressed, LastBatchFull, AllAnswerable, MayPull;
    var blobs := Stored(hash, d, m, encrypted, me).blobs;
    PutAllContents(hash, d.blobs, encrypted);
    if !OnlyOwnBelow(d.blobs, encrypted) {
      var x :| x in d.blobs.Values && x.index < |encrypted| && x !in encrypted;
      var r := ForeignBlobSpoils(m, blobs, fileId, hash, encrypted, x);
    } else {
      assert Leads(encrypted, blobs);
      SameFollowers(d.blobs, blobs, encrypted);
      LedPullsIff(m, blobs, fileId, hash, encrypted);
    }
  }

  lemma {:induction false} SameFollowers(before: Blobs, after: Blobs, encrypted: seq<EncryptedChunk>)
    requires after.Values == before.Values + Elements(encrypted)
    ensures LastBatchFull(encrypted, before) <==> LastBatchFull(encrypted, after)
  {
    hide Batches, Total, Size;
    assert forall c :: c !in encrypted ==> (c in before.Values <==> c in after.Values);
    assert forall c :: Follows(c, encrypted, before) <==> Follows(c, encrypted, after);
  }

  lemma {:induction false} LedPullsIff(m: FileManifest, blobs: Blobs, fileId: FileId, hash: Bytes -> Digest,
      encrypted: seq<EncryptedChunk>)
    requires WellAddressed(hash, blobs) && Leads(encrypted, blobs) && |encrypted| == |m.chunks| > 0
    ensures (forall r :: MayPull(m, blobs, fileId, r) ==> r == Ok((m, encrypted))) <==>
      LastBatchFull(encrypted, blobs) && AllAnswerable(fileId, m, encrypted)
  {
    hide WellAddressed, Leads, AllAnswerable, FetchRun, PullStops, Batches, Follows, Total, Size, Greedy;
    if LastBatchFull(encrypted, blobs) {
      forall r | MayPull(m, blobs, fileId, r)
        ensures r == Ok((m, encrypted)) <==> AllAnswerable(fileId, m, encrypted)
      {
        var pages :| FetchRun(pages, m, blobs, fileId) && PullStops(pages, m, blobs, fileId, r);
        PullOutcome(pages, m, blobs, fileId, encrypted, r);
      }
      var held := ListingExists(hash, blobs);
      SortedListing(held, blobs);
      var pages, r := PullAlong(m, blobs, fileId, SortChunks(held));
      assert MayPull(m, blobs, fileId, r);
    } else {
      var bs := Batches(encrypted);
      var x :| bs != [] && Follows(x, encrypted, blobs) && Total(bs[|bs| - 1]) + Size(x) <= MAX_BATCH_PAYLOAD;
      var r := FollowerSpoils(m, blobs, fileId, hash, encrypted, x);
    }
  }

  lemma {:induction false} NoFollowers(encrypted: seq<EncryptedChunk>, blobs: Blobs)
    requires forall c :: c in blobs.Values ==> c in encrypted
    ensures LastBatchFull(encrypted, blobs)
  {
  }

  /** The case of the command line, where a file id stands for one manifest and leftovers carry indices of the file: a
      push is safe if and only if all leftovers are blobs of the same ciphertexts and every batch can be sent back. */
  lemma {:induction false} SameFileRepushSafeIff(hash: Bytes -> Digest, d: BlobDir, m: FileManifest, fileId: FileId,
      encrypted: seq<EncryptedChunk>, me: Fingerprint)
    requires Injective(hash) && WellAddressed(hash, d.blobs)
    requires Numbered(encrypted) && |encrypted| == |m.chunks| > 0
    requires forall c :: c in d.blobs.Values ==> c.index < |encrypted|
    ensures (forall r :: MayPull(m, Stored(hash, d, m, encrypted, me).blobs, fileId, r) ==> r == Ok((m, encrypted)))
      <==> d.blobs.Values <= Elements(encrypted) && AllAnswerable(fileId, m, encrypted)
  {
    hide PutAll, WellAddressed, AllAnswerable, MayPull, LastBatchFull;
    RepushSafeIff(hash, d, m, fileId, encrypted, me);
    PushedRepresents(hash, d, m, encrypted, me);
    if d.blobs.Values <= Elements(encrypted) {
      assert forall c :: c in d.blobs.Values ==> c in encrypted;
      NoFollowers(encrypted, d.blobs);
    }
  }

  lemma {:induction false} SingleIsAnswerable(fileId: FileId, m: FileManifest, c: EncryptedChunk)
    requires Size(c) <= MAX_BATCH_PAYLOAD
    requires HeadSize(fileId) + ManifestSize(m) <= MAX_DELIVERED - MAX_BATCH_PAYLOAD - 4
    ensures Answerable(fileId, m, [c])
  {
    assert Total([c]) == Size(c) + Total([]);
    TransitBounds(ReplySize(fileId, Some(m), [c]));
  }

  /** What the command line does on every run: encrypt again, and push over an earlier push. A file of two ordinary
      chunks, each over half the cap, can then come back as its first chunk twice, without its second, and the pull
      reports success. */
  lemma {:induction false} RepushReturnsWrongList(hash: Bytes -> Digest, m: FileManifest, fileId: FileId,
      a: seq<EncryptedChunk>, b: seq<EncryptedChunk>, me: Fingerprint)
    requires Injective(hash) && |a| == |b| == |m.chunks| == 2 && Numbered(a) && Numbered(b)
    requires a[0] != b[0] && a[1] != b[1]
    requires forall c :: c in a + b ==> MAX_BATCH_PAYLOAD / 2 < Size(c) <= MAX_BATCH_PAYLOAD
    requires HeadSize(fileId) + ManifestSize(m) <= MAX_DELIVERED - MAX_BATCH_PAYLOAD - 4
    ensures var d := Stored(hash, Stored(hash, EMPTY_DIR, m, a, me), m, b, me);
      MayPull(m, d.blobs, fileId, Ok((m, [a[0], b[0]])))
  {
    StoredTwice(hash, EMPTY_DIR, m, a, b, me);
    var blobs := Stored(hash, EMPTY_DIR, m, a + b, me).blobs;
    PutAllContents(hash, EMPTY_DIR.blobs, a + b);
    var list := [a[0], b[0], a[1], b[1]];
    assert a + b == [a[0], a[1], b[0], b[1]];
    assert Elements(list) == Elements(a + b) == blobs.Values by { assert EMPTY_DIR.blobs.Values == {}; }
    TwoPages(m, blobs, fileId, list);
  }

  lemma {:induction false} TwoPages(m: FileManifest, blobs: Blobs, fileId: FileId, list: seq<EncryptedChunk>)
    requires IsListing(list, blobs) && InOrder(list) && |list| > 2 == |m.chunks|
    requires forall c :: c in list ==> MAX_BATCH_PAYLOAD / 2 < Size(c) <= MAX_BATCH_PAYLOAD
    requires HeadSize(fileId) + ManifestSize(m) <= MAX_DELIVERED - MAX_BATCH_PAYLOAD - 4
    ensures MayPull(m, blobs, fileId, Ok((m, [list[0], list[1]])))
  {
    hide SendOver, HeadSize, ManifestSize, Answerable, IsFetched;
    var p, q := [list[0]], [list[1]];
    FetchedNothing(m, blobs, fileId);
    SinglePage(m, blobs, fileId, list, 0);
    RunGrows([], m, blobs, fileId, p);
    assert Flatten([p]) == p + Flatten([]);
    SinglePage(m, blobs, fileId, list, 1);
    RunGrows([p], m, blobs, fileId, q);
    assert [] + [p] == [p] && [p] + [q] == [p, q];
    assert Flatten([p, q]) == p + Flatten([q]) && Flatten([q]) == q + Flatten([]);
    var both := [list[0], list[1]];
    assert Flatten([p, q]) == both && InOrder(both);
    assert PullStops([p, q], m, blobs, fileId, Ok((m, both)));
  }

  lemma {:induction false} SinglePage(m: FileManifest, blobs: Blobs, fileId: FileId, list: seq<EncryptedChunk>, i: nat)
    requires IsListing(list, blobs) && InOrder(list) && i < |list| && i <= |m.chunks|
    requires forall c :: c in list ==> MAX_BATCH_PAYLOAD / 2 < Size(c) <= MAX_BATCH_PAYLOAD
    requires HeadSize(fileId) + ManifestSize(m) <= MAX_DELIVERED - MAX_BATCH_PAYLOAD - 4
    ensures Answered(m, blobs, fileId, i, [list[i]])
  {
    var page := [list[i]];
    assert Total(page) == Size(list[i]) + Total([]);
    assert IsPage(page, list[i..]);
    ReadInOrder(blobs, list, i, page);
    SingleIsAnswerable(fileId, m, list[i]);
    AnswerableIsSmall(fileId, m, page);
  }
}
