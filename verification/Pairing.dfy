/** Single-use pairing tokens and the ledger of paired devices. */
module Pairing {
  import opened Base

  const DEFAULT_TTL: nat := 120
  const MAX_TTL: nat := 600

  datatype PairedDevice = PairedDevice(fingerprint: Fingerprint, key: Identity, pairedAt: nat)

  datatype PendingToken = PendingToken(token: string, expiresAt: nat, used: bool)

  /** `pair.json` and `paired.json`. */
  datatype Store = Store(pending: Option<PendingToken>, ledger: seq<PairedDevice>)

  /** The token file and the ledger are written one after the other, each with its own reading of the clock. Without
      a second reading the program stopped between the two writes. */
  datatype Event =
    | Issue(token: string, ttl: Option<nat>, now: nat)
    | Redeem(token: string, who: Identity, now: nat, recordedAt: Option<nat>)

  function Lifetime(ttl: Option<nat>): (r: nat)
    ensures 1 <= r <= MAX_TTL
  {
    var t := if ttl.Some? then ttl.value else DEFAULT_TTL;
    if t < 1 then 1 else if t > MAX_TTL then MAX_TTL else t
  }

  /** A lifetime of 1 to 600 seconds is kept, no lifetime means 120, and others are brought to the nearer limit. */
  lemma {:induction false} LifetimeKeeps(t: nat)
    ensures 1 <= t <= 600 ==> Lifetime(Some(t)) == t
    ensures t > 600 ==> Lifetime(Some(t)) == 600
    ensures Lifetime(Some(0)) == 1 && Lifetime(None) == 120
  {
  }

  predicate Usable(s: Store, token: string, now: nat) {
    s.pending.Some? && !s.pending.value.used && now < s.pending.value.expiresAt && s.pending.value.token == token
  }

  predicate InLedger(ledger: seq<PairedDevice>, fp: Fingerprint) {
    exists i :: 0 <= i < |ledger| && ledger[i].fingerprint == fp
  }

  function Record(fingerprint: Identity -> Fingerprint, ledger: seq<PairedDevice>, who: Identity,
      now: nat): seq<PairedDevice> {
    if InLedger(ledger, fingerprint(who)) then ledger else ledger + [PairedDevice(fingerprint(who), who, now)]
  }

  predicate Accepts(s: Store, e: Event) {
    e.Redeem? && Usable(s, e.token, e.now)
  }

  function Next(fingerprint: Identity -> Fingerprint, s: Store, e: Event): Store {
    match e
    case Issue(token, ttl, now) => s.(pending := Some(PendingToken(token, now + Lifetime(ttl), false)))
    case Redeem(token, who, now, recordedAt) =>
      if Usable(s, token, now) then
        Store(Some(s.pending.value.(used := true)),
              if recordedAt.Some? then Record(fingerprint, s.ledger, who, recordedAt.value) else s.ledger)
      else s
  }

  function Run(fingerprint: Identity -> Fingerprint, events: seq<Event>): Store {
    if events == [] then Store(None, [])
    else Next(fingerprint, Run(fingerprint, events[..|events| - 1]), events[|events| - 1])
  }

  /** Event j of the trace is an accepted redemption. */
  predicate Accepted(fingerprint: Identity -> Fingerprint, events: seq<Event>, j: nat) {
    j < |events| && Accepts(Run(fingerprint, events[..j]), events[j])
  }

  /** The last issue before position j, or -1. */
  function LastIssue(events: seq<Event>, j: nat): (i: int)
    requires j <= |events|
    ensures -1 <= i < j
    ensures i >= 0 ==> events[i].Issue?
    ensures forall k :: i < k < j ==> !events[k].Issue?
  {
    if j == 0 then -1 else if events[j - 1].Issue? then j - 1 else LastIssue(events, j - 1)
  }

  function IssueCount(events: seq<Event>): nat {
    if events == [] then 0 else IssueCount(events[..|events| - 1]) + if events[|events| - 1].Issue? then 1 else 0
  }

  function AcceptedCount(fingerprint: Identity -> Fingerprint, events: seq<Event>): nat {
    if events == [] then 0
    else
      AcceptedCount(fingerprint, events[..|events| - 1]) +
      if Accepted(fingerprint, events, |events| - 1) then 1 else 0
  }

  /** The pending token is the last one issued, and it is used exactly when a redemption was accepted since. */
  lemma {:induction false} PendingIsLastIssue(fingerprint: Identity -> Fingerprint, events: seq<Event>, j: nat)
    requires j <= |events|
    ensures var s, i := Run(fingerprint, events[..j]), LastIssue(events, j);
      && (s.pending.Some? <==> i >= 0)
      && (i >= 0 ==>
            && s.pending.value.token == events[i].token
            && s.pending.value.expiresAt == events[i].now + Lifetime(events[i].ttl)
            && (s.pending.value.used <==> exists k :: i < k < j && Accepted(fingerprint, events, k)))
    decreases j
  {
    if j > 0 {
      PendingIsLastIssue(fingerprint, events, j - 1);
      assert events[..j][..j - 1] == events[..j - 1];
      var i := LastIssue(events, j);
      if i >= 0 && i < j - 1 {
        assert LastIssue(events, j - 1) == i;
        if k :| i < k < j && Accepted(fingerprint, events, k) {
          assert k < j - 1 || k == j - 1;
        }
        if Accepted(fingerprint, events, j - 1) {
          assert Run(fingerprint, events[..j]).pending.value.used;
        }
      }
    }
  }

  /** A redemption is accepted exactly when it presents the token of the last issue before it, within that token's
      clamped lifetime, and no redemption was accepted since that issue. */
  lemma {:induction false} AcceptedIff(fingerprint: Identity -> Fingerprint, events: seq<Event>, j: nat)
    requires j < |events|
    ensures Accepted(fingerprint, events, j) <==>
      && events[j].Redeem?
      && (var i := LastIssue(events, j);
          && i >= 0
          && events[j].token == events[i].token
          && events[j].now < events[i].now + Lifetime(events[i].ttl)
          && forall k :: i < k < j ==> !Accepted(fingerprint, events, k))
  {
    PendingIsLastIssue(fingerprint, events, j);
  }

  /** Distinct acceptances are matched to distinct issues. */
  lemma {:induction false} AcceptancesMatchDistinctIssues(fingerprint: Identity -> Fingerprint,
      events: seq<Event>, j: nat, k: nat)
    requires j < k < |events| && Accepted(fingerprint, events, j) && Accepted(fingerprint, events, k)
    ensures LastIssue(events, j) < j < LastIssue(events, k) < k
    ensures events[k].now - events[LastIssue(events, k)].now < MAX_TTL
  {
    AcceptedIff(fingerprint, events, k);
    AcceptedIff(fingerprint, events, j);
  }

  /** Accepted redemptions never outnumber issued tokens; an unused pending token is one still to spend. */
  lemma {:induction false} NoMoreAcceptancesThanIssues(fingerprint: Identity -> Fingerprint, events: seq<Event>)
    ensures AcceptedCount(fingerprint, events)
      + (var p := Run(fingerprint, events).pending; if p.Some? && !p.value.used then 1 else 0) <= IssueCount(events)
  {
    if events != [] {
      NoMoreAcceptancesThanIssues(fingerprint, events[..|events| - 1]);
    }
  }

  ghost predicate LedgerDistinct(ledger: seq<PairedDevice>) {
    forall i, j :: 0 <= i < j < |ledger| ==> ledger[i].fingerprint != ledger[j].fingerprint
  }

  /** The ledger stays duplicate-free and only ever grows at its end, and only by an acceptance. */
  lemma {:induction false} LedgerGrowsByAcceptance(fingerprint: Identity -> Fingerprint, events: seq<Event>)
    requires events != []
    ensures var before, after := Run(fingerprint, events[..|events| - 1]).ledger, Run(fingerprint, events).ledger;
      && LedgerDistinct(before) && LedgerDistinct(after)
      && before <= after && |after| <= |before| + 1
      && (before != after ==> Accepted(fingerprint, events, |events| - 1))
  {
    var front := events[..|events| - 1];
    if front != [] { LedgerGrowsByAcceptance(fingerprint, front); }
  }

  /** Event j paired the device with this fingerprint: accepted, and not cut short before the ledger was written. */
  ghost predicate Paired(fingerprint: Identity -> Fingerprint, events: seq<Event>, j: nat, fp: Fingerprint) {
    Accepted(fingerprint, events, j) && events[j].recordedAt.Some? && fingerprint(events[j].who) == fp
  }

  lemma {:induction false} RecordListed(fingerprint: Identity -> Fingerprint, ledger: seq<PairedDevice>, who: Identity,
      now: nat, fp: Fingerprint)
    ensures InLedger(Record(fingerprint, ledger, who, now), fp) <==> InLedger(ledger, fp) || fingerprint(who) == fp
  {
    var after := Record(fingerprint, ledger, who, now);
    if i: int :| 0 <= i < |ledger| && ledger[i].fingerprint == fp {
      assert after[i].fingerprint == fp;
    }
    if |after| > |ledger| {
      assert after[|ledger|].fingerprint == fingerprint(who);
    }
  }

  /** A device is in the ledger exactly when one of its redemptions was accepted and recorded. A redemption that was
      cut short has spent the token and paired nobody. */
  lemma {:induction false} LedgerIsPaired(fingerprint: Identity -> Fingerprint, events: seq<Event>, fp: Fingerprint)
    ensures InLedger(Run(fingerprint, events).ledger, fp) <==> exists j :: Paired(fingerprint, events, j, fp)
  {
    if events == [] {
    } else {
      var n := |events| - 1;
      var front, e := events[..n], events[n];
      LedgerIsPaired(fingerprint, front, fp);
      var before := Run(fingerprint, front);
      if e.Redeem? && e.recordedAt.Some? {
        RecordListed(fingerprint, before.ledger, e.who, e.recordedAt.value, fp);
      }
      PairedSoFar(fingerprint, events, fp);
    }
  }

  lemma {:induction false} PairedSoFar(fingerprint: Identity -> Fingerprint, events: seq<Event>, fp: Fingerprint)
    requires events != []
    ensures var n := |events| - 1;
      (exists j :: Paired(fingerprint, events, j, fp)) <==>
        Paired(fingerprint, events, n, fp) || exists j :: Paired(fingerprint, events[..n], j, fp)
  {
    hide Accepts, Run;
    var n := |events| - 1;
    forall j: nat | j < n ensures Paired(fingerprint, events, j, fp) <==> Paired(fingerprint, events[..n], j, fp) {
      assert events[..n][..j] == events[..j];
    }
  }

  /** Event j is the first that paired this device, and `entry` records it: the device's own key, and the time at which
      the ledger was written. */
  ghost predicate EntryOf(fingerprint: Identity -> Fingerprint, events: seq<Event>, j: nat, entry: PairedDevice) {
    && Paired(fingerprint, events, j, entry.fingerprint)
    && entry.key == events[j].who && events[j].recordedAt == Some(entry.pairedAt)
    && forall k :: Paired(fingerprint, events, k, entry.fingerprint) ==> j <= k
  }

  /** Every ledger entry says which device was paired first under its fingerprint, with what key, and when. */
  lemma {:induction false} LedgerEntries(fingerprint: Identity -> Fingerprint, events: seq<Event>, i: nat)
    returns (j: nat)
    requires i < |Run(fingerprint, events).ledger|
    ensures EntryOf(fingerprint, events, j, Run(fingerprint, events).ledger[i])
  {
    var n := |events| - 1;
    var front, e := events[..n], events[n];
    var before, after := Run(fingerprint, front).ledger, Run(fingerprint, events).ledger;
    LedgerGrowsByAcceptance(fingerprint, events);
    if i < |before| {
      j := LedgerEntries(fingerprint, front, i);
      EntryLasts(fingerprint, events, j, before[i]);
    } else {
      j := n;
      LedgerIsPaired(fingerprint, front, after[i].fingerprint);
      FirstEntry(fingerprint, events, after[i]);
    }
  }

  lemma {:induction false} PairedEarlier(fingerprint: Identity -> Fingerprint, events: seq<Event>, k: nat,
      fp: Fingerprint)
    requires k < |events| - 1
    ensures Paired(fingerprint, events, k, fp) <==> Paired(fingerprint, events[..|events| - 1], k, fp)
  {
    assert events[..|events| - 1][..k] == events[..k];
  }

  lemma {:induction false} EntryLasts(fingerprint: Identity -> Fingerprint, events: seq<Event>, j: nat,
      entry: PairedDevice)
    requires events != [] && EntryOf(fingerprint, events[..|events| - 1], j, entry)
    ensures EntryOf(fingerprint, events, j, entry)
  {
    PairedEarlier(fingerprint, events, j, entry.fingerprint);
    forall k: nat | Paired(fingerprint, events, k, entry.fingerprint) ensures j <= k {
      if k < |events| - 1 { PairedEarlier(fingerprint, events, k, entry.fingerprint); }
    }
  }

  lemma {:induction false} FirstEntry(fingerprint: Identity -> Fingerprint, events: seq<Event>, entry: PairedDevice)
    requires events != []
    requires var n := |events| - 1; var before := Run(fingerprint, events[..n]).ledger;
      Run(fingerprint, events).ledger == before + [entry] && !InLedger(before, entry.fingerprint)
    requires var front := events[..|events| - 1]; !exists k :: Paired(fingerprint, front, k, entry.fingerprint)
    ensures EntryOf(fingerprint, events, |events| - 1, entry)
  {
    var n := |events| - 1;
    var before := Run(fingerprint, events[..n]);
    assert Run(fingerprint, events).ledger[|before.ledger|] == entry;
    forall k: nat | Paired(fingerprint, events, k, entry.fingerprint) ensures n <= k {
      if k < n { PairedEarlier(fingerprint, events, k, entry.fingerprint); }
    }
  }

  /** The acceptor's persisted pairing state. */
  class Acceptor {
    const fingerprint: Identity -> Fingerprint
    var pending: Option<PendingToken>
    var ledger: seq<PairedDevice>

    ghost function View(): Store
      reads this
    {
      Store(pending, ledger)
    }

    constructor (fingerprint: Identity -> Fingerprint)
      ensures this.fingerprint == fingerprint && View() == Run(fingerprint, [])
    {
      this.fingerprint := fingerprint;
      pending := None;
      ledger := [];
    }

    /** `issue_token`, with the token drawn by the caller's random source. */
    method IssueToken(token: string, ttl: Option<nat>, now: nat)
      modifies this
      ensures View() == Next(fingerprint, old(View()), Issue(token, ttl, now))
    {
      var lifetime := Lifetime(ttl);
      pending := Some(PendingToken(token, now + lifetime, false));
    }

    method ConsumeToken(token: string, now: nat) returns (valid: bool)
      modifies this`pending
      ensures valid == Usable(old(View()), token, now)
      ensures pending == if valid then Some(old(pending).value.(used := true)) else old(pending)
    {
      if pending.None? {
        return false;
      }
      var p := pending.value;
      if p.used || p.expiresAt <= now || p.token != token {
        return false;
      }
      pending := Some(p.(used := true));
      return true;
    }

    method RecordPairing(who: Identity, now: nat)
      modifies this`ledger
      ensures ledger == Record(fingerprint, old(ledger), who, now)
    {
      var fp := fingerprint(who);
      for i := 0 to |ledger|
        invariant forall k :: 0 <= k < i ==> ledger[k].fingerprint != fp
        invariant ledger == old(ledger)
      {
        if ledger[i].fingerprint == fp {
          return;
        }
      }
      ledger := ledger + [PairedDevice(fp, who, now)];
    }

    /** The Redeem arm: consume the token, then record the pairing, unless the program stops in between. */
    method RedeemToken(token: string, who: Identity, now: nat, recordedAt: Option<nat>) returns (paired: bool)
      modifies this
      ensures paired == (Usable(old(View()), token, now) && recordedAt.Some?)
      ensures View() == Next(fingerprint, old(View()), Redeem(token, who, now, recordedAt))
    {
      var valid := ConsumeToken(token, now);
      if valid && recordedAt.Some? {
        RecordPairing(who, recordedAt.value);
      }
      return valid && recordedAt.Some?;
    }
  }
}
