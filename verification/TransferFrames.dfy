/** How large the frames of a file transfer are, and which of them get through. */
module TransferFrames {
  import opened Base
  import opened Manifests
  import opened Files
  import opened Sorting
  import opened Wire
  import Postcard

  const DEFAULT_CHUNK_SIZE: nat := 768 * 1024

  /** A digest or fingerprint in hexadecimal, as a length-prefixed string. */
  const HEX_SIZE: nat := 65

  function IndicesSize(s: seq<U32>): nat {
    if s == [] then 0 else |Postcard.Varint(s[0])| + IndicesSize(s[1..])
  }

  function ListSize(s: seq<U32>): nat {
    |Postcard.Varint(|s|)| + IndicesSize(s)
  }

  function AnnounceSize(m: FileManifest): nat {
    2 + HEX_SIZE + ManifestSize(m) + HEX_SIZE
  }

  function AcceptSize(missing: seq<U32>): nat {
    2 + HEX_SIZE + ListSize(missing)
  }

  function ChunkSize(c: Chunk): nat {
    2 + HEX_SIZE + |Postcard.Varint(c.index)| + DIGEST_SIZE + |Postcard.Block(c.data)|
  }

  /** `Status` carries the saved state: the manifest, the recorded indices, and an empty list of lost ones. */
  function StatusSize(s: TransferState): nat {
    2 + HEX_SIZE + ManifestSize(s.manifest) + ListSize(s.verified) + 1
  }

  lemma {:induction false} IndicesSizeBounds(s: seq<U32>, n: nat)
    requires AllBelow(s, n) && n <= 0x8000
    ensures |s| <= IndicesSize(s) <= 3 * |s|
  {
    if s == [] {
    } else {
      ShortVarint(s[0]);
      assert AllBelow(s[1..], n);
      IndicesSizeBounds(s[1..], n);
    }
  }

  /** An announced manifest is small enough for the answer to arrive, whatever is missing. */
  lemma {:induction false} AcceptArrives(m: FileManifest, missing: seq<U32>)
    requires SendOver(AnnounceSize(m)) == Arrives
    requires AllBelow(missing, |m.chunks|) && |missing| <= |m.chunks|
    ensures SendOver(AcceptSize(missing)) == Arrives
  {
    TransitBounds(AnnounceSize(m));
    TransitBounds(AcceptSize(missing));
    IndicesSizeBounds(missing, |m.chunks|);
    ShortVarint(|missing|);
  }

  /** No chunk of the default size is refused. */
  lemma {:induction false} ChunkArrives(c: Chunk)
    requires |c.data| <= DEFAULT_CHUNK_SIZE
    ensures SendOver(ChunkSize(c)) == Arrives
  {
    FiveBytes(c.index);
    ShortVarint(|c.data|);
    TransitBounds(ChunkSize(c));
  }

  lemma {:induction false} FiveBytes(n: nat)
    requires n < 0x8_0000_0000
    ensures |Postcard.Varint(n)| <= 5
  {
    if n >= 0x20_0000 {
      var m := n / 0x80;
      assert |Postcard.Varint(n)| == 1 + |Postcard.Varint(m)|;
      assert |Postcard.Varint(m)| <= 1 + |Postcard.Varint(m / 0x80)|;
      ShortVarint(m / 0x80);
    } else {
      ShortVarint(n);
    }
  }

  lemma {:induction false} IndicesSizeAppend(a: seq<U32>, b: seq<U32>)
    ensures IndicesSize(a + b) == IndicesSize(a) + IndicesSize(b)
  {
    if a == [] {
      assert a + b == b;
    } else {
      assert (a + b)[1..] == a[1..] + b;
      IndicesSizeAppend(a[1..], b);
    }
  }

  lemma {:induction false} TakenOut<T>(s: seq<T>, i: nat)
    requires i < |s|
    ensures s == s[..i] + ([s[i]] + s[i + 1..])
    ensures multiset(s[..i] + s[i + 1..]) == multiset(s) - multiset{s[i]}
  {
    assert s == s[..i] + ([s[i]] + s[i + 1..]);
  }

  /** The order in which chunks were recorded does not matter for the size. */
  lemma {:induction false} IndicesSizePermutes(a: seq<U32>, b: seq<U32>)
    requires multiset(a) == multiset(b)
    ensures IndicesSize(a) == IndicesSize(b)
  {
    hide Postcard.Varint;
    if a == [] {
      assert |multiset(a)| == 0 && |multiset(b)| == |b|;
    } else {
      assert a[0] in multiset(b);
      var i: nat :| i < |b| && b[i] == a[0];
      TailMultiset(a);
      TakenOut(b, i);
      var front, back := b[..i], b[i + 1..];
      IndicesSizePermutes(a[1..], front + back);
      IndicesSizeAppend(front, back);
      IndicesSizeAppend(front, [b[i]] + back);
      IndicesSizeAppend([b[i]], back);
      SingleSize(b[i]);
    }
  }

  lemma {:induction false} SingleSize(i: U32)
    ensures IndicesSize([i]) == |Postcard.Varint(i)|
  {
    assert IndicesSize([i]) == |Postcard.Varint(i)| + IndicesSize([]);
  }

  /** Recorded and missing indices are together those of the whole file, so their sizes add up to its size. */
  lemma {:induction false} RecordedAndMissing(s: TransferState)
    requires WellFormed(s)
    ensures IndicesSize(s.verified) + IndicesSize(Missing(s)) == IndicesSize(Upto(0, |s.manifest.chunks|))
    ensures Complete(s) ==> Missing(s) == []
  {
    var missing, all := Missing(s), Upto(0, |s.manifest.chunks|);
    var both := s.verified + missing;
    MissingIsComplement(s, 0);
    CompleteIffNothingMissing(s);
    forall i, j | 0 <= i < j < |both| ensures both[i] != both[j] {
      if i < |s.verified| <= j { assert both[i] in s.verified && both[j] in missing; }
    }
    forall x ensures x in both <==> x in all {
      assert x in both <==> x in s.verified || x in missing;
      if x in s.verified {
        var k :| 0 <= k < |s.verified| && s.verified[k] == x;
      }
      if 0 <= x < |all| { assert all[x] == x; }
    }
    SameMultiset(both, all);
    IndicesSizePermutes(both, all);
    IndicesSizeAppend(s.verified, missing);
  }

  /** The state of a finished transfer, chunks recorded in file order. */
  function FullState(m: FileManifest): TransferState
    requires |m.chunks| < 0x1_0000_0000
  {
    TransferState(m, Upto(0, |m.chunks|))
  }

  /** What a sender can check beforehand: the state of the finished transfer could be sent back. */
  predicate StatusFits(m: FileManifest)
    requires |m.chunks| < 0x1_0000_0000
  {
    SendOver(StatusSize(FullState(m))) == Arrives
  }

  /** A saved state is never larger than that of the finished transfer, and as large once it is complete. */
  lemma {:induction false} FullIsLargest(s: TransferState)
    requires WellFormed(s)
    ensures StatusSize(s) <= StatusSize(FullState(s.manifest))
    ensures Complete(s) ==> StatusSize(s) == StatusSize(FullState(s.manifest))
  {
    hide MissingFrom, NoDuplicates;
    RecordedAndMissing(s);
    CompleteIffNothingMissing(s);
    VarintGrows(|s.verified|, |s.manifest.chunks|);
  }

  lemma {:induction false} VarintGrows(m: nat, n: nat)
    requires m <= n
    ensures |Postcard.Varint(m)| <= |Postcard.Varint(n)|
  {
    if m >= 0x80 { VarintGrows(m / 0x80, n / 0x80); }
  }

  /** Exactly when a state's status reply arrives while the transfer runs, and when it has finished. */
  lemma {:induction false} StatusArrivesIf(s: TransferState)
    requires WellFormed(s)
    ensures StatusFits(s.manifest) ==> SendOver(StatusSize(s)) == Arrives
    ensures Complete(s) ==> (SendOver(StatusSize(s)) == Arrives <==> StatusFits(s.manifest))
  {
    FullIsLargest(s);
    TransitBounds(StatusSize(s));
    TransitBounds(StatusSize(FullState(s.manifest)));
  }

  /** Every status reply of a transfer arrives, in whatever order its chunks come in, exactly when the last one does:
      a condition on the manifest alone. */
  lemma {:induction false} AllStatusesArriveIff(m: FileManifest)
    requires |m.chunks| < 0x1_0000_0000
    ensures (forall s :: WellFormed(s) && s.manifest == m ==> SendOver(StatusSize(s)) == Arrives) <==> StatusFits(m)
  {
    hide SendOver, StatusSize;
    forall s | WellFormed(s) && s.manifest == m && StatusFits(m) ensures SendOver(StatusSize(s)) == Arrives {
      StatusArrivesIf(s);
    }
    assert WellFormed(FullState(m)) && FullState(m).manifest == m;
  }

  /** One, two or three bytes an index. */
  lemma {:induction false} UptoSize(n: nat)
    requires n <= 0x20_0000
    ensures IndicesSize(Upto(0, n)) == if n <= 0x80 then n else if n <= 0x4000 then 2 * n - 0x80 else 3 * n - 0x4080
  {
    hide Postcard.Varint;
    if n == 0 {
    } else {
      UptoSize(n - 1);
      UptoSnoc(n);
      IndicesSizeAppend(Upto(0, n - 1), [n - 1]);
      SingleSize(n - 1);
      VarintLength(n - 1);
    }
  }

  lemma {:induction false} UptoSnoc(n: nat)
    requires 0 < n < 0x1_0000_0000
    ensures Upto(0, n) == Upto(0, n - 1) + [n - 1]
  {
  }

  lemma {:induction false} VarintLength(n: nat)
    requires n < 0x20_0000
    ensures |Postcard.Varint(n)| == if n < 0x80 then 1 else if n < 0x4000 then 2 else 3
  {
    if n >= 0x4000 {
      VarintOfThree(n);
    } else if n >= 0x80 {
      assert |Postcard.Varint(n)| == 1 + |Postcard.Varint(n / 0x80)|;
    }
  }

  /** The condition in numbers, for files of 16384 chunks and more. */
  lemma {:induction false} StatusFitsIff(m: FileManifest)
    requires 0x4000 <= |m.chunks| < 0x20_0000
    ensures StatusFits(m) <==> ManifestSize(m) + 3 * |m.chunks| <= MAX_DELIVERED + 0x4080 - HEX_SIZE - 6
  {
    UptoSize(|m.chunks|);
    VarintLength(|m.chunks|);
    TransitBounds(StatusSize(FullState(m)));
  }

  /** Failing files: no finished transfer of 30424 chunks or more, about 22 GiB, can be reported. */
  lemma {:induction false} LargeStatusNeverFits(m: FileManifest)
    requires 30424 <= |m.chunks| < 0x1_0000_0000
    ensures !StatusFits(m)
  {
    if |m.chunks| < 0x20_0000 {
      StatusFitsIff(m);
      VarintLength(|m.chunks|);
    } else {
      TransitBounds(StatusSize(FullState(m)));
    }
  }

  /** Such files can be announced, up to 32749 chunks under any file name of 255 bytes. */
  lemma {:induction false} AnnouncedNeverReported(m: FileManifest)
    requires 30424 <= |m.chunks| <= 32749 && |m.name| <= 255 && m.totalSize < 0x8_0000_0000
    ensures SendOver(AnnounceSize(m)) == Arrives && !StatusFits(m)
  {
    LargeStatusNeverFits(m);
    VarintLength(|m.chunks|);
    VarintLength(|m.name|);
    FiveBytes(m.version);
    FiveBytes(m.chunkSize);
    FiveBytes(m.totalSize);
    TransitBounds(AnnounceSize(m));
  }
}
