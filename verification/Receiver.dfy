/** The receiving side of a transfer: what is on disk, and every state a crash can leave there. */
module Receiver {
  import opened Base
  import opened Manifests
  import opened Files
  import opened Sorting

  /** `incoming/<id>`: manifest.json, the chunk files, state.json and the rebuilt output file. */
  datatype Disk = Disk(manifest: Option<FileManifest>, parts: map<U32, Bytes>, state: Option<TransferState>,
      output: Option<Bytes>)

  const FRESH_DISK := Disk(None, map[], None, None)

  predicate NoGreater(i: U32, j: U32) {
    i <= j
  }

  /** `sort_unstable` on chunk indices. */
  function SortIndices(s: seq<U32>): (r: seq<U32>)
    ensures |r| == |s| && Elements(r) == Elements(s)
    ensures forall n :: AllBelow(s, n) ==> AllBelow(r, n)
  {
    SortElements(NoGreater, s);
    var r := Sort(NoGreater, s);
    assert forall n, k :: AllBelow(s, n) && 0 <= k < |r| ==> r[k] in s;
    r
  }

  /** `resume_for`: the saved state, or a new one. */
  function Resume(d: Disk, m: FileManifest): TransferState {
    if d.state.Some? then d.state.value else TransferState(m, [])
  }

  /** The disk after each append while the output is being rebuilt from the given chunk files, up to the first
      chunk file that is absent or fails verification. */
  function RebuildWrites(hash: Bytes -> Digest, m: FileManifest, d: Disk, indices: seq<U32>): seq<Disk>
    requires d.output.Some?
    decreases |indices|
  {
    if indices == [] then []
    else
      var i := indices[0];
      if i !in d.parts || i >= |m.chunks| || VerifyChunk(hash, m, Chunk(i, m.chunks[i], d.parts[i])).Err? then []
      else
        var next := d.(output := Some(d.output.value + d.parts[i]));
        [next] + RebuildWrites(hash, m, next, indices[1..])
  }

  function LastOr<T>(s: seq<T>, default: T): T {
    if s == [] then default else s[|s| - 1]
  }

  function RebuildResult(hash: Bytes -> Digest, m: FileManifest, d: Disk, indices: seq<U32>): Result<(), FileError>
    requires d.output.Some?
    decreases |indices|
  {
    if indices == [] then
      if |d.output.value| != m.totalSize then Err(SizeMismatch) else Ok(())
    else
      var i := indices[0];
      if i !in d.parts then Err(MissingPart)
      else if i >= |m.chunks| then Err(Panic)
      else if VerifyChunk(hash, m, Chunk(i, m.chunks[i], d.parts[i])).Err? then Err(HashMismatch(i))
      else RebuildResult(hash, m, d.(output := Some(d.output.value + d.parts[i])), indices[1..])
  }

  /** Chunk files verify, the saved state is well-formed, and every index it lists has its chunk file. */
  ghost predicate ValidDisk(hash: Bytes -> Digest, d: Disk) {
    && (d.manifest.None? ==> d.parts == map[] && d.state.None?)
    && (d.manifest.Some? ==>
          && |d.manifest.value.chunks| < 0x1_0000_0000
          && forall i :: i in d.parts ==>
               i < |d.manifest.value.chunks| && hash(d.parts[i]) == d.manifest.value.chunks[i])
    && (d.state.Some? ==>
          && d.state.value.manifest == d.manifest.value
          && WellFormed(d.state.value)
          && forall i :: i in d.state.value.verified ==> i in d.parts)
  }

  /** The disk after each write of `receive_chunk`, in order: the chunk file, the state, then, when the set is
      complete, the created output and each append to it. A crash leaves the disk before or after one of them. */
  function ReceiveWrites(hash: Bytes -> Digest, d: Disk, c: Chunk): seq<Disk> {
    if d.manifest.None? || VerifyChunk(hash, d.manifest.value, c).Err? then []
    else
      var m := d.manifest.value;
      var stored := d.(parts := d.parts[c.index := c.data]);
      var state := Resume(stored, m);
      if c.index in state.verified then [stored]
      else
        var saved := stored.(state := Some(MarkVerified(state, c.index)));
        if |saved.state.value.verified| != |m.chunks| then [stored, saved]
        else
          var created := saved.(output := Some([]));
          [stored, saved, created] + RebuildWrites(hash, m, created, SortIndices(saved.state.value.verified))
  }

  /** What `receive_chunk` reports: completeness, or the failure. */
  function ReceiveResult(hash: Bytes -> Digest, d: Disk, c: Chunk): Result<bool, FileError> {
    if d.manifest.None? then Err(NoManifest)
    else
      var m := d.manifest.value;
      var v := VerifyChunk(hash, m, c);
      if v.Err? then Err(v.error)
      else
        var stored := d.(parts := d.parts[c.index := c.data]);
        var state := Resume(stored, m);
        if c.index in state.verified then Ok(|state.verified| == |m.chunks|)
        else
          var saved := stored.(state := Some(MarkVerified(state, c.index)));
          if |saved.state.value.verified| != |m.chunks| then Ok(false)
          else
            var rebuilt := RebuildResult(hash, m, saved.(output := Some([])), SortIndices(saved.state.value.verified));
            if rebuilt.Err? then Err(rebuilt.error) else Ok(true)
  }

  /** One turn of the rebuilding loop. */
  lemma {:induction false} RebuildNext(hash: Bytes -> Digest, m: FileManifest, d: Disk, indices: seq<U32>,
      k: nat, trail: seq<Disk>)
    requires k < |indices| && d.output.Some? && AllBelow(indices[k..], |m.chunks|)
    ensures indices[k] < |m.chunks| && AllBelow(indices[k + 1..], |m.chunks|)
    ensures var i := indices[k];
      if i !in d.parts then
        && trail + RebuildWrites(hash, m, d, indices[k..]) == trail
        && RebuildResult(hash, m, d, indices[k..]) == Err(MissingPart)
      else if VerifyChunk(hash, m, Chunk(i, m.chunks[i], d.parts[i])).Err? then
        && trail + RebuildWrites(hash, m, d, indices[k..]) == trail
        && RebuildResult(hash, m, d, indices[k..]) == Err(HashMismatch(i))
      else
        var next := d.(output := Some(d.output.value + d.parts[i]));
        && trail + RebuildWrites(hash, m, d, indices[k..]) ==
             trail + [next] + RebuildWrites(hash, m, next, indices[k + 1..])
        && RebuildResult(hash, m, d, indices[k..]) == RebuildResult(hash, m, next, indices[k + 1..])
  {
    var rest := indices[k..];
    assert rest[0] == indices[k] && rest[1..] == indices[k + 1..];
    var tail := indices[k + 1..];
    assert forall j :: 0 <= j < |tail| ==> tail[j] == rest[j + 1];
  }

  /** The chunk file is there and hashes to its manifest entry. */
  ghost predicate GoodPart(hash: Bytes -> Digest, m: FileManifest, d: Disk, i: U32) {
    i in d.parts && i < |m.chunks| && hash(d.parts[i]) == m.chunks[i]
  }

  /** Rebuilding fails at the first chunk file that is not good, and says why. */
  lemma {:induction false} RebuildFailsAt(hash: Bytes -> Digest, m: FileManifest, d: Disk, indices: seq<U32>, k: nat)
    requires d.output.Some? && k < |indices|
    requires forall j :: 0 <= j < k ==> GoodPart(hash, m, d, indices[j])
    requires !GoodPart(hash, m, d, indices[k])
    ensures var i := indices[k];
      RebuildResult(hash, m, d, indices) ==
        Err(if i !in d.parts then MissingPart else if i >= |m.chunks| then Panic else HashMismatch(i))
    decreases k
  {
    if k == 0 {
    } else {
      assert GoodPart(hash, m, d, indices[0]);
      var next := d.(output := Some(d.output.value + d.parts[indices[0]]));
      RebuildFailsAt(hash, m, next, indices[1..], k - 1);
    }
  }

  /** Every append keeps everything but the output. */
  lemma {:induction false} RebuildKeepsRest(hash: Bytes -> Digest, m: FileManifest, d: Disk, indices: seq<U32>)
    requires d.output.Some?
    ensures forall w :: w in RebuildWrites(hash, m, d, indices) ==> w.output.Some? && w == d.(output := w.output)
    decreases |indices|
  {
    if indices != [] {
      var i := indices[0];
      if i in d.parts && i < |m.chunks| && VerifyChunk(hash, m, Chunk(i, m.chunks[i], d.parts[i])).Ok? {
        RebuildKeepsRest(hash, m, d.(output := Some(d.output.value + d.parts[i])), indices[1..]);
      }
    }
  }

  /** The disk stays valid at every crash point, for every hash function. */
  lemma {:induction false} EveryCrashPointValid(hash: Bytes -> Digest, d: Disk, c: Chunk)
    requires ValidDisk(hash, d)
    ensures forall w :: w in ReceiveWrites(hash, d, c) ==> ValidDisk(hash, w) && w.manifest == d.manifest
    ensures var last := LastOr(ReceiveWrites(hash, d, c), d); ValidDisk(hash, last) && last.manifest == d.manifest
  {
    if d.manifest.Some? && VerifyChunk(hash, d.manifest.value, c).Ok? {
      var m := d.manifest.value;
      var stored := d.(parts := d.parts[c.index := c.data]);
      assert ValidDisk(hash, stored);
      var state := Resume(stored, m);
      if c.index !in state.verified {
        var saved := stored.(state := Some(MarkVerified(state, c.index)));
        assert ValidDisk(hash, saved);
        if |saved.state.value.verified| == |m.chunks| {
          var indices := SortIndices(saved.state.value.verified);
          RebuildKeepsRest(hash, m, saved.(output := Some([])), indices);
        }
      }
    }
    var ws := ReceiveWrites(hash, d, c);
    if ws != [] { assert ws[|ws| - 1] in ws; }
  }

  /** No arrival touches the manifest, on any disk, and without a manifest none writes anything. */
  lemma {:induction false} ManifestStays(hash: Bytes -> Digest, d: Disk, c: Chunk)
    ensures forall w :: w in ReceiveWrites(hash, d, c) ==> w.manifest == d.manifest
    ensures LastOr(ReceiveWrites(hash, d, c), d).manifest == d.manifest
    ensures d.manifest == None ==> ReceiveWrites(hash, d, c) == []
  {
    if d.manifest.Some? && VerifyChunk(hash, d.manifest.value, c).Ok? {
      var m := d.manifest.value;
      var stored := d.(parts := d.parts[c.index := c.data]);
      var saved := stored.(state := Some(MarkVerified(Resume(stored, m), c.index)));
      RebuildKeepsRest(hash, m, saved.(output := Some([])), SortIndices(saved.state.value.verified));
    }
    var ws := ReceiveWrites(hash, d, c);
    if ws != [] { assert ws[|ws| - 1] in ws; }
  }

  /** The disk after `receive_chunk` ran to its end. */
  function Received(hash: Bytes -> Digest, d: Disk, c: Chunk): (r: Disk)
    ensures r.manifest == d.manifest
    ensures ValidDisk(hash, d) ==> ValidDisk(hash, r)
  {
    ManifestStays(hash, d, c);
    assert ValidDisk(hash, d) ==> ValidDisk(hash, LastOr(ReceiveWrites(hash, d, c), d)) by {
      if ValidDisk(hash, d) { EveryCrashPointValid(hash, d, c); }
    }
    LastOr(ReceiveWrites(hash, d, c), d)
  }

  /** The receiver of one transfer. */
  class TransferReceiver {
    const hash: Bytes -> Digest
    var disk: Disk

    ghost predicate Valid()
      reads this
    {
      ValidDisk(hash, disk)
    }

    constructor (hash: Bytes -> Digest)
      ensures Valid() && this.hash == hash && disk == FRESH_DISK
    {
      this.hash := hash;
      disk := FRESH_DISK;
    }

    /** The Announce arm: check the manifest, record it under the id the frame names, and answer with what the saved
        state, or a new one, is missing. Announcing a different manifest under an id in use leaves chunk files and
        state of the old one behind. */
    method Announce(m: FileManifest) returns (r: Result<seq<U32>, FileError>)
      requires Valid() && |m.chunks| < 0x1_0000_0000
      modifies this
      ensures r.Err? || old(disk).manifest.None? || old(disk).manifest == Some(m) ==> Valid()
      ensures r == if VerifyManifest(m).Err? then Err(VerifyManifest(m).error) else Ok(Missing(Resume(old(disk), m)))
      ensures r.Ok? <==> m.authentic && m.chunks != []
      ensures !m.authentic ==> r == Err(InvalidSignature)
      ensures m.authentic && m.chunks == [] ==> r == Err(InvalidIndex)
      ensures disk == if r.Err? then old(disk) else old(disk).(manifest := Some(m))
    {
      var v := VerifyManifest(m);
      if v.Err? {
        return Err(v.error);
      }
      disk := disk.(manifest := Some(m));
      return Ok(Missing(Resume(disk, m)));
    }

    /** The StatusRequest arm: an error until some state has been saved. */
    method Status() returns (r: Result<TransferState, FileError>)
      ensures r == if disk.state.Some? then Ok(disk.state.value) else Err(NoState)
    {
      if disk.state.None? {
        return Err(NoState);
      }
      return Ok(disk.state.value);
    }

    /** `receive_chunk`. `trail` lists the disk after each write. */
    method ReceiveChunk(c: Chunk) returns (r: Result<bool, FileError>, ghost trail: seq<Disk>)
      requires Valid()
      modifies this
      ensures Valid()
      ensures r == ReceiveResult(hash, old(disk), c)
      ensures trail == ReceiveWrites(hash, old(disk), c)
      ensures disk == Received(hash, old(disk), c)
    {
      hide RebuildWrites, RebuildResult;
      trail := [];
      ghost var final := Received(hash, disk, c);
      if disk.manifest.None? {
        return Err(NoManifest), trail;
      }
      var m := disk.manifest.value;
      var v := VerifyChunk(hash, m, c);
      if v.Err? {
        return Err(v.error), trail;
      }
      disk := disk.(parts := disk.parts[c.index := c.data]);
      trail := [disk];
      var state := Resume(disk, m);
      if c.index in state.verified {
        return Ok(|state.verified| == |m.chunks|), trail;
      }
      state := state.(verified := state.verified + [c.index]);
      disk := disk.(state := Some(state));
      trail := trail + [disk];
      var complete := |state.verified| == |m.chunks|;
      r := Ok(complete);
      if complete {
        var rebuilt;
        rebuilt, trail := Rebuild(m, SortIndices(state.verified), trail);
        r := if rebuilt.Err? then Err(rebuilt.error) else Ok(true);
      }
    }

    /** `reconstruct_from_verified`, over the sorted recorded indices. */
    method Rebuild(m: FileManifest, indices: seq<U32>, ghost before: seq<Disk>)
      returns (r: Result<(), FileError>, ghost trail: seq<Disk>)
      requires AllBelow(indices, |m.chunks|)
      modifies this
      ensures var created := old(disk).(output := Some([]));
        && r == RebuildResult(hash, m, created, indices)
        && trail == before + [created] + RebuildWrites(hash, m, created, indices)
        && disk == LastOr(trail, created)
    {
      disk := disk.(output := Some([]));
      trail := before + [disk];
      ghost var created := disk;
      var k := 0;
      while k < |indices|
        invariant 0 <= k <= |indices|
        invariant disk.output.Some? && trail != [] && disk == trail[|trail| - 1]
        invariant AllBelow(indices[k..], |m.chunks|)
        invariant RebuildResult(hash, m, created, indices) == RebuildResult(hash, m, disk, indices[k..])
        invariant before + [created] + RebuildWrites(hash, m, created, indices) ==
          trail + RebuildWrites(hash, m, disk, indices[k..])
      {
        var i := indices[k];
        RebuildNext(hash, m, disk, indices, k, trail);
        if i !in disk.parts {
          return Err(MissingPart), trail;
        }
        var part := Chunk(i, m.chunks[i], disk.parts[i]);
        if VerifyChunk(hash, m, part).Err? {
          return Err(HashMismatch(i)), trail;
        }
        disk := disk.(output := Some(disk.output.value + part.data));
        trail := trail + [disk];
        k := k + 1;
      }
      if |disk.output.value| != m.totalSize {
        return Err(SizeMismatch), trail;
      }
      return Ok(()), trail;
    }
  }
}
