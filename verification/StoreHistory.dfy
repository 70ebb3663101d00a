/** A core's store over whole histories of requests and revocations: who may read a file, which manifest describes it,
    and which chunks it holds. */
module StoreHistory {
  import opened Base
  import opened Manifests
  import opened Packing
  import opened Revocation
  import opened BlobStore

  /** A store request, or an event of the revocation file. */
  datatype CoreEvent =
    | Request(requester: Fingerprint, fileId: FileId, manifest: FileManifest, chunks: seq<EncryptedChunk>)
    | Revoking(e: FileEvent)

  datatype CoreState = CoreState(dirs: map<FileId, BlobDir>, revocations: RevocationFile)

  const NEW_CORE := CoreState(map[], NO_FILE)

  predicate Accepts(s: CoreState, e: CoreEvent) {
    e.Request? && e.manifest.authentic && e.requester !in RevokedSet(s.revocations)
  }

  function After(hash: Bytes -> Digest, s: CoreState, e: CoreEvent): CoreState {
    match e
    case Request(requester, fileId, manifest, chunks) =>
      if Accepts(s, e) then
        s.(dirs := s.dirs[fileId := Stored(hash, DirOf(s.dirs, fileId), manifest, chunks, requester)])
      else s
    case Revoking(f) => s.(revocations := Next(s.revocations, f))
  }

  function History(hash: Bytes -> Digest, events: seq<CoreEvent>): CoreState {
    if events == [] then NEW_CORE
    else After(hash, History(hash, events[..|events| - 1]), events[|events| - 1])
  }

  /** A store request is one step of the history. */
  method Serve(core: Core, requester: Fingerprint, fileId: FileId, manifest: FileManifest,
      chunks: seq<EncryptedChunk>) returns (r: Result<(), StoreError>)
    requires core.Valid()
    modifies core`dirs
    ensures core.Valid()
    ensures var e := Request(requester, fileId, manifest, chunks);
      && (r.Ok? <==> Accepts(CoreState(old(core.dirs), core.revocations), e))
      && CoreState(core.dirs, core.revocations) ==
           After(core.hash, CoreState(old(core.dirs), core.revocations), e)
  {
    r := core.StoreChunks(requester, fileId, manifest, chunks);
  }

  /** Event j is a store request for this file that was accepted: its manifest was signed, and its requester was not
      among those the revocation file, as it then was, told the core to refuse. */
  ghost predicate AcceptedAt(hash: Bytes -> Digest, events: seq<CoreEvent>, j: nat, fileId: FileId) {
    && j < |events| && events[j].Request? && events[j].fileId == fileId && events[j].manifest.authentic
    && events[j].requester !in RevokedSet(History(hash, events[..j]).revocations)
  }

  ghost predicate AcceptedFrom(hash: Bytes -> Digest, events: seq<CoreEvent>, j: nat, fileId: FileId,
      fp: Fingerprint) {
    AcceptedAt(hash, events, j, fileId) && events[j].requester == fp
  }

  ghost predicate AcceptedWith(hash: Bytes -> Digest, events: seq<CoreEvent>, j: nat, fileId: FileId,
      c: EncryptedChunk) {
    AcceptedAt(hash, events, j, fileId) && c in events[j].chunks
  }

  lemma {:induction false} AcceptedEarlier(hash: Bytes -> Digest, events: seq<CoreEvent>, j: nat, fileId: FileId)
    requires j < |events| - 1
    ensures AcceptedAt(hash, events, j, fileId) <==> AcceptedAt(hash, events[..|events| - 1], j, fileId)
  {
    assert events[..|events| - 1][..j] == events[..j];
  }

  /** Acceptances of a longer history are those of the shorter one and perhaps its last event. */
  lemma {:induction false} AcceptedSnoc(hash: Bytes -> Digest, events: seq<CoreEvent>, fileId: FileId,
      fp: Fingerprint, c: EncryptedChunk)
    requires events != []
    ensures var n := |events| - 1; var front := events[..n];
      && ((exists j :: AcceptedAt(hash, events, j, fileId)) <==>
            AcceptedAt(hash, events, n, fileId) || exists j :: AcceptedAt(hash, front, j, fileId))
      && ((exists j :: AcceptedFrom(hash, events, j, fileId, fp)) <==>
            AcceptedFrom(hash, events, n, fileId, fp) || exists j :: AcceptedFrom(hash, front, j, fileId, fp))
      && ((exists j :: AcceptedWith(hash, events, j, fileId, c)) <==>
            AcceptedWith(hash, events, n, fileId, c) || exists j :: AcceptedWith(hash, front, j, fileId, c))
  {
    hide History;
    var n := |events| - 1;
    var front := events[..n];
    forall j: nat | j < n
      ensures AcceptedAt(hash, events, j, fileId) <==> AcceptedAt(hash, front, j, fileId)
      ensures AcceptedFrom(hash, events, j, fileId, fp) <==> AcceptedFrom(hash, front, j, fileId, fp)
      ensures AcceptedWith(hash, events, j, fileId, c) <==> AcceptedWith(hash, front, j, fileId, c)
    {
      AcceptedEarlier(hash, events, j, fileId);
    }
  }

  /** What one event does to the directory of one file. */
  lemma {:induction false} AfterOne(hash: Bytes -> Digest, events: seq<CoreEvent>, fileId: FileId)
    requires events != [] && Injective(hash)
    ensures var n := |events| - 1; var before, after := History(hash, events[..n]).dirs, History(hash, events).dirs;
      if AcceptedAt(hash, events, n, fileId) then
        && fileId in after && after[fileId].manifest == Some(events[n].manifest)
        && after[fileId].acl == DirOf(before, fileId).acl + {events[n].requester}
        && after[fileId].blobs == PutAll(hash, DirOf(before, fileId).blobs, events[n].chunks)
      else (fileId in after <==> fileId in before) && (fileId in after ==> after[fileId] == before[fileId])
  {
  }

  /** An identity is a reader of a file exactly when one of its own store requests for the file was accepted. Nobody
      else's requests, before or after, and no revocation change that. */
  lemma {:induction false} ReaderIff(hash: Bytes -> Digest, events: seq<CoreEvent>, fileId: FileId, fp: Fingerprint)
    requires Injective(hash)
    ensures var dirs := History(hash, events).dirs;
      (fileId in dirs && fp in dirs[fileId].acl) <==> exists j :: AcceptedFrom(hash, events, j, fileId, fp)
  {
    if events == [] {
    } else {
      hide History, PutAll;
      var n := |events| - 1;
      ReaderIff(hash, events[..n], fileId, fp);
      AfterOne(hash, events, fileId);
      AcceptedSnoc(hash, events, fileId, fp, EncryptedChunk(0, seq(24, _ => 0), []));
    }
  }

  /** The manifest of a file is that of the last accepted request for it, and there is none without one. */
  lemma {:induction false} ManifestIsLast(hash: Bytes -> Digest, events: seq<CoreEvent>, fileId: FileId, j: nat)
    requires Injective(hash) && AcceptedAt(hash, events, j, fileId)
    requires forall k :: j < k < |events| ==> !AcceptedAt(hash, events, k, fileId)
    ensures var dirs := History(hash, events).dirs;
      fileId in dirs && dirs[fileId].manifest == Some(events[j].manifest)
  {
    var n := |events| - 1;
    AfterOne(hash, events, fileId);
    if j < n {
      AcceptedEarlier(hash, events, j, fileId);
      forall k | j < k < n ensures !AcceptedAt(hash, events[..n], k, fileId) {
        AcceptedEarlier(hash, events, k, fileId);
      }
      ManifestIsLast(hash, events[..n], fileId, j);
    }
  }

  /** A file that is there has been stored, and it holds exactly the chunks of all accepted requests for it. */
  lemma {:induction false} ContentsAreStored(hash: Bytes -> Digest, events: seq<CoreEvent>, fileId: FileId,
      c: EncryptedChunk)
    requires Injective(hash)
    ensures var dirs := History(hash, events).dirs;
      && (fileId in dirs <==> exists j :: AcceptedAt(hash, events, j, fileId))
      && (fileId in dirs ==> WellAddressed(hash, dirs[fileId].blobs))
      && ((fileId in dirs && c in dirs[fileId].blobs.Values) <==> exists j :: AcceptedWith(hash, events, j, fileId, c))
  {
    if events == [] {
    } else {
      hide History, PutAll, WellAddressed;
      var n := |events| - 1;
      ContentsAreStored(hash, events[..n], fileId, c);
      AfterOne(hash, events, fileId);
      NothingHeld(hash);
      if AcceptedAt(hash, events, n, fileId) {
        PutAllContents(hash, DirOf(History(hash, events[..n]).dirs, fileId).blobs, events[n].chunks);
      }
      AcceptedSnoc(hash, events, fileId, "", c);
    }
  }

  lemma {:induction false} NothingHeld(hash: Bytes -> Digest)
    ensures WellAddressed(hash, EMPTY_DIR.blobs) && EMPTY_DIR.blobs.Values == {}
  {
  }
}
