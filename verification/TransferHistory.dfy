/** A receiver over whole histories: announcements of any manifests, arrivals, and crashes. */
module TransferHistory {
  import opened Base
  import opened Manifests
  import opened Files
  import opened Receiver
  import opened TransferRuns

  datatype TransferEvent = Announce(m: FileManifest) | Arrive(e: Event)

  /** The Announce arm on the disk. */
  function AfterAnnouncement(d: Disk, m: FileManifest): Disk {
    if VerifyManifest(m).Err? then d else d.(manifest := Some(m))
  }

  function History(hash: Bytes -> Digest, events: seq<TransferEvent>): Disk {
    if events == [] then FRESH_DISK
    else
      var before := History(hash, events[..|events| - 1]);
      match events[|events| - 1]
      case Announce(m) => AfterAnnouncement(before, m)
      case Arrive(e) => AfterEvent(hash, before, e)
  }

  /** An announcement is one step of the history. */
  method AnnounceTo(receiver: TransferReceiver, m: FileManifest) returns (r: Result<seq<U32>, FileError>)
    requires receiver.Valid() && |m.chunks| < 0x1_0000_0000
    modifies receiver
    ensures receiver.disk == AfterAnnouncement(old(receiver.disk), m)
    ensures r.Ok? <==> m.authentic && m.chunks != []
  {
    r := receiver.Announce(m);
  }

  /** Event j announced this manifest, signed and not empty. */
  ghost predicate ProperlyAnnounced(events: seq<TransferEvent>, j: nat, m: FileManifest) {
    j < |events| && events[j] == Announce(m) && m.authentic && m.chunks != []
  }

  /** Whatever was announced, arrived or crashed, in any order: a recorded manifest is signed, not empty, and the last
      such manifest announced; and until one has been announced nothing at all is on the disk. */
  lemma {:induction false} OnlySignedManifests(hash: Bytes -> Digest, events: seq<TransferEvent>)
    ensures var d := History(hash, events);
      if exists j, m :: ProperlyAnnounced(events, j, m) then
        exists j, m :: ProperlyAnnounced(events, j, m) && d.manifest == Some(m)
          && forall k, n :: ProperlyAnnounced(events, k, n) ==> k <= j
      else d == FRESH_DISK
  {
    if events == [] {
    } else {
      var n := |events| - 1;
      var front, e := events[..n], events[n];
      OnlySignedManifests(hash, front);
      EarlierAnnouncements(events);
      if e.Announce? && e.m.authentic && e.m.chunks != [] {
        assert ProperlyAnnounced(events, n, e.m);
      } else if exists j, m :: ProperlyAnnounced(front, j, m) {
        var j, m :| ProperlyAnnounced(front, j, m) && History(hash, front).manifest == Some(m)
          && forall k, n :: ProperlyAnnounced(front, k, n) ==> k <= j;
        assert ProperlyAnnounced(events, j, m);
      } else if e.Arrive? {
        ManifestStays(hash, FRESH_DISK, e.e.c);
      }
    }
  }

  lemma {:induction false} EarlierAnnouncements(events: seq<TransferEvent>)
    requires events != []
    ensures var n := |events| - 1; var front := events[..n];
      forall j, m :: ProperlyAnnounced(events, j, m) <==>
        ProperlyAnnounced(front, j, m) || (j == n && events[n] == Announce(m) && m.authentic && m.chunks != [])
  {
  }
}
