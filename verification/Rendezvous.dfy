/** The rendezvous service: a pruned map of endpoint records, against the log of all registrations. */
module Rendezvous {
  import opened Base
  import opened Sorting

  const MIN_TTL: nat := 60
  const MAX_TTL: nat := 24 * 3600

  datatype EndpointRecord = EndpointRecord(identity: Identity, address: string, lastSeen: nat, expiresAt: nat)

  type Records = map<Fingerprint, EndpointRecord>

  /** One accepted registration, as it was made. */
  datatype Registration = Registration(identity: Identity, address: string, ttl: U32, time: nat)

  datatype RegisterError = InvalidSignature

  function Clamp(ttl: U32): (r: nat)
    ensures MIN_TTL <= r <= MAX_TTL
  {
    if ttl < MIN_TTL then MIN_TTL else if ttl > MAX_TTL then MAX_TTL else ttl
  }

  function Expiry(g: Registration): nat {
    g.time + Clamp(g.ttl)
  }

  function RecordOf(g: Registration): EndpointRecord {
    EndpointRecord(g.identity, g.address, g.time, Expiry(g))
  }

  /** `prune`: what has not expired at `now`. */
  function Prune(records: Records, now: nat): Records {
    map fp | fp in records && records[fp].expiresAt > now :: records[fp]
  }

  /** The stored map after a log of registrations, each of which prunes at its own time. */
  function Stored(fingerprint: Identity -> Fingerprint, log: seq<Registration>): Records {
    if log == [] then map[]
    else
      var g := log[|log| - 1];
      Prune(Stored(fingerprint, log[..|log| - 1])[fingerprint(g.identity) := RecordOf(g)], g.time)
  }

  /** The position of the latest registration of `fp`, or -1. */
  function Latest(fingerprint: Identity -> Fingerprint, log: seq<Registration>, fp: Fingerprint): (i: int)
    ensures -1 <= i < |log|
    ensures i >= 0 ==> fingerprint(log[i].identity) == fp
    ensures forall k :: i < k < |log| ==> fingerprint(log[k].identity) != fp
  {
    if log == [] then -1
    else if fingerprint(log[|log| - 1].identity) == fp then |log| - 1
    else Latest(fingerprint, log[..|log| - 1], fp)
  }

  /** What the whole log says about `fp` at `now`: its latest registration, if that one is still live. */
  function LogAnswer(fingerprint: Identity -> Fingerprint, log: seq<Registration>, fp: Fingerprint,
      now: nat): Option<EndpointRecord> {
    var i := Latest(fingerprint, log, fp);
    if i >= 0 && now < Expiry(log[i]) then Some(RecordOf(log[i])) else None
  }

  /** What the stored map answers at `now`. */
  function StoreAnswer(records: Records, fp: Fingerprint, now: nat): Option<EndpointRecord> {
    var live := Prune(records, now);
    if fp in live then Some(live[fp]) else None
  }

  /** A registration after the latest one of `fp` was made when that one had expired. */
  ghost predicate PrunedMeanwhile(fingerprint: Identity -> Fingerprint, log: seq<Registration>, fp: Fingerprint) {
    var i := Latest(fingerprint, log, fp);
    i >= 0 && exists k :: i < k < |log| && log[k].time >= Expiry(log[i])
  }

  lemma {:induction false} StoredIsLatest(fingerprint: Identity -> Fingerprint, log: seq<Registration>, fp: Fingerprint)
    ensures var i := Latest(fingerprint, log, fp); var s := Stored(fingerprint, log);
      && (fp in s <==> i >= 0 && !PrunedMeanwhile(fingerprint, log, fp))
      && (fp in s ==> s[fp] == RecordOf(log[i]))
  {
    if log != [] {
      var n := |log| - 1;
      var front, g := log[..n], log[n];
      StoredIsLatest(fingerprint, front, fp);
      if fingerprint(g.identity) != fp {
        var i := Latest(fingerprint, front, fp);
        assert Latest(fingerprint, log, fp) == i;
        if i >= 0 {
          if PrunedMeanwhile(fingerprint, front, fp) {
            var k :| i < k < |front| && front[k].time >= Expiry(front[i]);
            assert log[k].time >= Expiry(log[i]);
          }
          if k :| i < k < |log| && log[k].time >= Expiry(log[i]) {
            assert k < n ==> front[k].time >= Expiry(front[i]);
          }
        }
      }
    }
  }

  /** Exactly when the map agrees with the log: unless the record in question is live now although some later
      registration already saw it expired. */
  lemma {:induction false} AnswerAgreesIff(fingerprint: Identity -> Fingerprint, log: seq<Registration>,
      fp: Fingerprint, now: nat)
    ensures StoreAnswer(Stored(fingerprint, log), fp, now) == LogAnswer(fingerprint, log, fp, now) <==>
      !(PrunedMeanwhile(fingerprint, log, fp) && now < Expiry(log[Latest(fingerprint, log, fp)]))
  {
    StoredIsLatest(fingerprint, log, fp);
  }

  /** A lifetime within the limits is kept; others are brought to the nearer limit. */
  lemma {:induction false} ClampKeeps(ttl: U32)
    ensures 60 <= ttl <= 86400 ==> Clamp(ttl) == ttl
    ensures ttl < 60 ==> Clamp(ttl) == 60
    ensures ttl > 86400 ==> Clamp(ttl) == 86400
  {
  }

  /** A registration is found, as it was made, until its lifetime is over and not a second longer, unless the identity
      registers again, and whatever others register in the meantime. */
  lemma {:induction false} RegisteredIsFound(fingerprint: Identity -> Fingerprint, log: seq<Registration>,
      g: Registration, later: seq<Registration>, now: nat)
    requires 60 <= g.ttl <= 86400
    requires forall k :: 0 <= k < |later| ==> fingerprint(later[k].identity) != fingerprint(g.identity)
    requires forall k :: 0 <= k < |later| ==> later[k].time < g.time + g.ttl
    ensures StoreAnswer(Stored(fingerprint, log + [g] + later), fingerprint(g.identity), now) ==
      if now < g.time + g.ttl then Some(EndpointRecord(g.identity, g.address, g.time, g.time + g.ttl)) else None
  {
    var all, fp := log + [g] + later, fingerprint(g.identity);
    ClampKeeps(g.ttl);
    LatestIs(fingerprint, all, |log|);
    StoredIsLatest(fingerprint, all, fp);
    assert forall k :: |log| < k < |all| ==> all[k] == later[k - |log| - 1];
  }

  lemma {:induction false} LatestIs(fingerprint: Identity -> Fingerprint, log: seq<Registration>, i: nat)
    requires i < |log|
    requires forall k :: i < k < |log| ==> fingerprint(log[k].identity) != fingerprint(log[i].identity)
    ensures Latest(fingerprint, log, fingerprint(log[i].identity)) == i
  {
  }

  /** An identity that never registered is not found. */
  lemma {:induction false} UnregisteredIsNotFound(fingerprint: Identity -> Fingerprint, log: seq<Registration>,
      fp: Fingerprint, now: nat)
    requires forall k :: 0 <= k < |log| ==> fingerprint(log[k].identity) != fp
    ensures StoreAnswer(Stored(fingerprint, log), fp, now) == None
  {
    StoredIsLatest(fingerprint, log, fp);
  }

  /** What the log says, except of identities whose record some later registration already saw expired. */
  ghost function RetainedAnswer(fingerprint: Identity -> Fingerprint, log: seq<Registration>, fp: Fingerprint,
      now: nat): Option<EndpointRecord> {
    if PrunedMeanwhile(fingerprint, log, fp) then None else LogAnswer(fingerprint, log, fp, now)
  }

  /** For any clock, the map answers with what is retained. */
  lemma {:induction false} MapAnswersRetained(fingerprint: Identity -> Fingerprint, log: seq<Registration>,
      fp: Fingerprint, now: nat)
    ensures StoreAnswer(Stored(fingerprint, log), fp, now) == RetainedAnswer(fingerprint, log, fp, now)
  {
    StoredIsLatest(fingerprint, log, fp);
  }

  ghost predicate MonotoneClock(log: seq<Registration>, now: nat) {
    forall k :: 0 <= k < |log| ==> log[k].time <= now
  }

  /** Under a clock that has not gone back, the pruned map answers as the full log does. */
  lemma {:induction false} MapRefinesLog(fingerprint: Identity -> Fingerprint, log: seq<Registration>,
      fp: Fingerprint, now: nat)
    requires MonotoneClock(log, now)
    ensures StoreAnswer(Stored(fingerprint, log), fp, now) == LogAnswer(fingerprint, log, fp, now)
  {
    AnswerAgreesIff(fingerprint, log, fp, now);
  }

  predicate SeenNoLater(a: EndpointRecord, b: EndpointRecord) {
    a.lastSeen <= b.lastSeen
  }

  class Service {
    const fingerprint: Identity -> Fingerprint
    var records: Records
    ghost var log: seq<Registration>

    ghost predicate Valid()
      reads this
    {
      Injective(fingerprint) && records == Stored(fingerprint, log)
    }

    constructor (fingerprint: Identity -> Fingerprint)
      requires Injective(fingerprint)
      ensures Valid() && this.fingerprint == fingerprint && log == []
    {
      this.fingerprint := fingerprint;
      records := map[];
      log := [];
    }

    /** The Register arm; `signed` is whether the caller signed the address. */
    method Register(now: nat, identity: Identity, address: string, ttl: U32,
        signed: bool) returns (r: Result<(), RegisterError>)
      requires Valid()
      modifies this
      ensures Valid()
      ensures r == if signed then Ok(()) else Err(InvalidSignature)
      ensures log == if signed then old(log) + [Registration(identity, address, ttl, now)] else old(log)
      ensures !signed ==> records == old(records)
    {
      if !signed {
        return Err(InvalidSignature);
      }
      var expiresAt := now + Clamp(ttl);
      records := records[fingerprint(identity) := EndpointRecord(identity, address, now, expiresAt)];
      records := Prune(records, now);
      log := log + [Registration(identity, address, ttl, now)];
      assert log[..|log| - 1] == old(log);
      return Ok(());
    }

    /** The live record of a fingerprint, as far as it is retained; under a clock that has not gone back, what the
        whole log says. */
    method Lookup(now: nat, fp: Fingerprint) returns (candidates: seq<EndpointRecord>)
      requires Valid()
      ensures var answer := RetainedAnswer(fingerprint, log, fp, now);
        candidates == if answer.Some? then [answer.value] else []
      ensures MonotoneClock(log, now) ==> var answer := LogAnswer(fingerprint, log, fp, now);
        candidates == if answer.Some? then [answer.value] else []
    {
      MapAnswersRetained(fingerprint, log, fp, now);
      if MonotoneClock(log, now) { MapRefinesLog(fingerprint, log, fp, now); }
      var live := Prune(records, now);
      return if fp in live then [live[fp]] else [];
    }

    /** Every live retained record once, oldest registration first, whatever order the map is iterated in; under a
        clock that has not gone back, every live record of the log. */
    method List(now: nat) returns (r: seq<EndpointRecord>)
      requires Valid()
      ensures forall i, j :: 0 <= i < j < |r| ==> r[i].lastSeen <= r[j].lastSeen
      ensures NoDuplicates(r)
      ensures forall x :: x in r <==> exists fp :: RetainedAnswer(fingerprint, log, fp, now) == Some(x)
      ensures MonotoneClock(log, now) ==>
        forall x :: x in r <==> exists fp :: LogAnswer(fingerprint, log, fp, now) == Some(x)
    {
      var live := Prune(records, now);
      var values: seq<EndpointRecord> := [];
      var remaining := live.Keys;
      while remaining != {}
        invariant remaining <= live.Keys
        invariant NoDuplicates(values)
        invariant forall x :: x in values <==> exists fp :: fp in live && fp !in remaining && live[fp] == x
        decreases remaining
      {
        var fp :| fp in remaining;
        NextValueIsNew(live, remaining, fp, values);
        values := values + [live[fp]];
        remaining := remaining - {fp};
      }
      r := Sort(SeenNoLater, values);
      SortSorts(SeenNoLater, values);
      SortElements(SeenNoLater, values);
      NoDuplicatesCardinality(values);
      assert Elements(r) == Elements(values);
      DuplicateLosesElement(r);
      assert forall x :: x in r <==> exists fp :: fp in live && live[fp] == x;
      ListedIsRetained(live, now, r);
    }

    lemma {:induction false} ListedIsRetained(live: Records, now: nat, r: seq<EndpointRecord>)
      requires Valid() && live == Prune(records, now)
      requires forall x :: x in r <==> exists fp :: fp in live && live[fp] == x
      ensures forall x :: x in r <==> exists fp :: RetainedAnswer(fingerprint, log, fp, now) == Some(x)
      ensures MonotoneClock(log, now) ==>
        forall x :: x in r <==> exists fp :: LogAnswer(fingerprint, log, fp, now) == Some(x)
    {
      forall fp
        ensures RetainedAnswer(fingerprint, log, fp, now) == StoreAnswer(records, fp, now)
        ensures MonotoneClock(log, now) ==> LogAnswer(fingerprint, log, fp, now) == StoreAnswer(records, fp, now)
      {
        MapAnswersRetained(fingerprint, log, fp, now);
        if MonotoneClock(log, now) { MapRefinesLog(fingerprint, log, fp, now); }
      }
      forall x ensures x in r <==> exists fp :: StoreAnswer(records, fp, now) == Some(x) {
        if fp :| fp in live && live[fp] == x {
          assert StoreAnswer(records, fp, now) == Some(x);
        }
        if fp :| StoreAnswer(records, fp, now) == Some(x) {
          assert fp in live && live[fp] == x;
        }
      }
    }

    lemma {:induction false} NextValueIsNew(live: Records, remaining: set<Fingerprint>, fp: Fingerprint,
        values: seq<EndpointRecord>)
      requires Valid() && forall k :: k in live ==> k in records && live[k] == records[k]
      requires fp in remaining && fp in live
      requires forall x :: x in values <==> exists k :: k in live && k !in remaining && live[k] == x
      ensures live[fp] !in values
    {
      StoredIsLatest(fingerprint, log, fp);
      forall k | k in live && k !in remaining ensures live[k] != live[fp] {
        StoredIsLatest(fingerprint, log, k);
      }
    }
  }
}
