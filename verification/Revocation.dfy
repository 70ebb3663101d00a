/** The revocation file: what a core takes it to say, and what becomes of revocations while it cannot be read. */
module Revocation {
  import opened Base

  /** `revocations.json`: the set last written to it, and whether it can be read and decoded now. */
  datatype RevocationFile = RevocationFile(listed: set<Fingerprint>, legible: bool)

  /** No file yet. */
  const NO_FILE := RevocationFile({}, true)

  /** `revoked_set`: a file that cannot be read or decoded is taken for an empty set. */
  function RevokedSet(f: RevocationFile): set<Fingerprint> {
    if f.legible then f.listed else {}
  }

  /** A revocation rewrites the whole file from what it reads. In between, the file may become unreadable,
      undecodable or absent, and may come back. */
  datatype FileEvent = Revoke(fp: Fingerprint) | Damage | Restore

  function Next(f: RevocationFile, e: FileEvent): RevocationFile {
    match e
    case Revoke(fp) => RevocationFile(RevokedSet(f) + {fp}, true)
    case Damage => f.(legible := false)
    case Restore => f.(legible := true)
  }

  function Run(events: seq<FileEvent>): RevocationFile {
    if events == [] then NO_FILE else Next(Run(events[..|events| - 1]), events[|events| - 1])
  }

  /** Event j revoked `fp`, and no later revocation was made while the file could not be read. */
  ghost predicate Survives(events: seq<FileEvent>, j: nat, fp: Fingerprint) {
    && j < |events| && events[j] == Revoke(fp)
    && forall k :: j < k < |events| && events[k].Revoke? ==> Run(events[..k]).legible
  }

  lemma {:induction false} SurvivesStep(events: seq<FileEvent>, fp: Fingerprint)
    requires events != []
    ensures var n := |events| - 1; var front, e := events[..n], events[n];
      (exists j :: Survives(events, j, fp)) <==>
        e == Revoke(fp) || ((e.Revoke? ==> Run(front).legible) && exists j :: Survives(front, j, fp))
  {
    var n := |events| - 1;
    var front, e := events[..n], events[n];
    if e == Revoke(fp) { assert Survives(events, n, fp); }
    forall j: nat | j < n
      ensures Survives(events, j, fp) <==> (e.Revoke? ==> Run(front).legible) && Survives(front, j, fp)
    {
      forall k | 0 <= k < n ensures front[..k] == events[..k] {}
      if Survives(events, j, fp) {
        forall k | j < k < |front| && front[k].Revoke? ensures Run(front[..k]).legible {
          assert events[k].Revoke?;
        }
      }
    }
  }

  lemma {:induction false} ListedIff(events: seq<FileEvent>, fp: Fingerprint)
    ensures fp in Run(events).listed <==> exists j :: Survives(events, j, fp)
  {
    if events == [] {
    } else {
      ListedIff(events[..|events| - 1], fp);
      SurvivesStep(events, fp);
    }
  }

  /** The file can be read unless the last thing that happened to it was damage. */
  lemma {:induction false} LegibleIff(events: seq<FileEvent>)
    ensures Run(events).legible <==> events == [] || events[|events| - 1] != Damage
  {
  }

  /** Exactly when a revoked identity is refused: the file can be read now, and no revocation was made while it could
      not be read, since one of this identity. */
  lemma {:induction false} RefusedIff(events: seq<FileEvent>, fp: Fingerprint)
    ensures fp in RevokedSet(Run(events)) <==> Run(events).legible && exists j :: Survives(events, j, fp)
  {
    ListedIff(events, fp);
  }

  /** Failing input: a revocation is void while its file cannot be read, and the next one made in that state voids it
      for good, although the file can then be read again. */
  lemma {:induction false} RevocationsLost(a: Fingerprint, b: Fingerprint, later: seq<FileEvent>)
    requires a != b && forall e :: e in later ==> e != Revoke(a)
    ensures RevokedSet(Run([Revoke(a), Damage])) == {}
    ensures Run([Revoke(a), Damage, Revoke(b)]).legible
    ensures a !in RevokedSet(Run([Revoke(a), Damage, Revoke(b)] + later))
  {
    var lost := [Revoke(a), Damage, Revoke(b)];
    assert lost[..2] == [Revoke(a), Damage] && lost[..2][..1] == [Revoke(a)];
    assert !Run(lost[..2]).legible;
    var events := lost + later;
    assert events[..2] == lost[..2];
    RefusedIff(events, a);
    assert events[1] == Damage && events[2] == Revoke(b) && !Run(events[..2]).legible;
    forall j: nat ensures !Survives(events, j, a) {
      if 2 < j < |events| {
        assert later[j - 3] in later && events[j] == later[j - 3];
      } else if j < 2 {
        assert events[2].Revoke? && !Run(events[..2]).legible;
      }
    }
  }
}
