/** Inboxes, relays and queues over whole runs of the router: who has an inbox, who is a relay, and what a message just
    sent finds. */
module InboxRuns {
  import opened Base
  import opened Routing
  import opened RouterRuns
  import opened Wire

  /** A send to r, of accepted size, that finds r's inbox closed. */
  ghost predicate FindsInboxClosed(s: State, a: Action, r: Identity) {
    && a.Sending? && a.m.recipient == r && EncodedSize(a.m) <= MAX_MESSAGE_SIZE && ListsRelays(s, a.order)
    && r in s.peers && s.peers[r] !in s.open
  }

  lemma {:induction false} RelaysKeepPeers(s: State, m: Message, order: seq<Identity>)
    ensures TryRelays(s, m, order).peers == s.peers
    decreases |order|
  {
    if order == [] {
    } else {
      RelaysKeepPeers(s, m, order[1..]);
      RelaysKeepPeers(s.(nextHops := s.nextHops - {order[0]}), m, order[1..]);
    }
  }

  /** A send changes the inboxes only by dropping its recipient's when that is closed. */
  lemma {:induction false} SendPeers(s: State, m: Message, order: seq<Identity>)
    ensures Send(s, m, order).peers ==
      if m.recipient in s.peers && s.peers[m.recipient] !in s.open then s.peers - {m.recipient} else s.peers
  {
    var a := s.(accepted := s.accepted + [m]);
    var b := if m.recipient in a.peers then a.(peers := a.peers - {m.recipient}) else a;
    RelaysKeepPeers(b, m, order);
    RelaysKeepPeers(b.(nextHops := b.nextHops - {m.recipient}), m, order);
  }

  /** What one action does to r's inbox. */
  lemma {:induction false} InboxStep(s: State, a: Action, r: Identity)
    ensures var s' := Next(s, a);
      if a == Registering(r) then r in s'.peers && s'.peers[r] == |s.owners| && |s.owners| in s'.open
      else if a == Unregistering(r) || FindsInboxClosed(s, a, r) then r !in s'.peers
      else (r in s'.peers <==> r in s.peers) && (r in s.peers ==> s'.peers[r] == s.peers[r])
  {
    if a.Sending? { SendPeers(s, a.m, a.order); }
  }

  /** Step i registered r with the then next channel `ch`, and since then r was not registered again, not unregistered,
      and no send to r found its inbox closed. */
  ghost predicate RegisteredAndKept(capacity: nat, actions: seq<Action>, r: Identity, ch: ChannelId, i: int) {
    && 0 <= i < |actions| && actions[i] == Registering(r) && |Run(capacity, actions[..i]).owners| == ch
    && forall k :: i < k < |actions| ==> InboxKeptAt(capacity, actions, r, k)
  }

  ghost predicate InboxKeptAt(capacity: nat, actions: seq<Action>, r: Identity, k: int)
    requires 0 <= k < |actions|
  {
    && actions[k] != Registering(r) && actions[k] != Unregistering(r)
    && !FindsInboxClosed(Run(capacity, actions[..k]), actions[k], r)
  }

  /** In every reachable state r's inbox is `ch` exactly when `ch` was the last one registered for r, and since then r
      was neither unregistered nor found closed by a send. */
  lemma {:induction false} InboxOwnership(capacity: nat, actions: seq<Action>, r: Identity, ch: ChannelId)
    ensures var s := Run(capacity, actions);
      (r in s.peers && s.peers[r] == ch) <==> exists i :: RegisteredAndKept(capacity, actions, r, ch, i)
  {
    if actions == [] {
    } else {
      hide Next, FindsInboxClosed;
      var n := |actions| - 1;
      var front := actions[..n];
      var before, after := Run(capacity, front), Run(capacity, actions);
      InboxOwnership(capacity, front, r, ch);
      InboxStep(before, actions[n], r);
      if r in after.peers && after.peers[r] == ch {
        if actions[n] == Registering(r) {
          assert RegisteredAndKept(capacity, actions, r, ch, n);
        } else {
          var i :| RegisteredAndKept(capacity, front, r, ch, i);
          InboxKeptLonger(capacity, actions, r, ch, i);
        }
      }
      if i :| RegisteredAndKept(capacity, actions, r, ch, i) {
        if i < n {
          InboxKeptShorter(capacity, actions, r, ch, i);
          assert InboxKeptAt(capacity, actions, r, n);
        }
      }
    }
  }

  lemma {:induction false} InboxKeptLonger(capacity: nat, actions: seq<Action>, r: Identity, ch: ChannelId, i: int)
    requires actions != [] && RegisteredAndKept(capacity, actions[..|actions| - 1], r, ch, i)
    requires InboxKeptAt(capacity, actions, r, |actions| - 1)
    ensures RegisteredAndKept(capacity, actions, r, ch, i)
  {
    hide FindsInboxClosed, Run;
    var front := actions[..|actions| - 1];
    assert forall k :: 0 <= k < |front| ==> front[..k] == actions[..k];
    forall k | i < k < |actions| ensures InboxKeptAt(capacity, actions, r, k) {
      if k < |front| { assert InboxKeptAt(capacity, front, r, k); }
    }
  }

  lemma {:induction false} InboxKeptShorter(capacity: nat, actions: seq<Action>, r: Identity, ch: ChannelId, i: int)
    requires actions != [] && RegisteredAndKept(capacity, actions, r, ch, i) && i < |actions| - 1
    ensures RegisteredAndKept(capacity, actions[..|actions| - 1], r, ch, i)
  {
    hide FindsInboxClosed, Run;
    var front := actions[..|actions| - 1];
    assert forall k :: 0 <= k < |front| ==> front[..k] == actions[..k];
    forall k | i < k < |front| ensures InboxKeptAt(capacity, front, r, k) {
      assert InboxKeptAt(capacity, actions, r, k);
    }
  }

  /** Step i made r a relay, and no later one removed it. */
  ghost predicate MadeRelay(actions: seq<Action>, r: Identity, i: int) {
    && 0 <= i < |actions| && actions[i] == SetRelay(r)
    && forall k :: i < k < |actions| ==> actions[k] != RemoveRelay(r)
  }

  lemma {:induction false} MadeRelayStep(actions: seq<Action>, r: Identity)
    requires actions != []
    ensures var n := |actions| - 1; var front := actions[..n];
      (exists i :: MadeRelay(actions, r, i)) <==>
        actions[n] == SetRelay(r) || (actions[n] != RemoveRelay(r) && exists i :: MadeRelay(front, r, i))
  {
    var n := |actions| - 1;
    var front := actions[..n];
    if actions[n] == SetRelay(r) { assert MadeRelay(actions, r, n); }
    forall i | i < n ensures MadeRelay(actions, r, i) <==> actions[n] != RemoveRelay(r) && MadeRelay(front, r, i) {
      if MadeRelay(actions, r, i) {
        forall k | i < k < n ensures front[k] != RemoveRelay(r) {
          assert actions[k] != RemoveRelay(r);
        }
      }
    }
  }

  /** In every reachable state r is a relay exactly when it was made one and not removed since. */
  lemma {:induction false} RelayIff(capacity: nat, actions: seq<Action>, r: Identity)
    ensures r in Run(capacity, actions).relays <==> exists i :: MadeRelay(actions, r, i)
  {
    if actions == [] {
    } else {
      hide MadeRelay, Next;
      var n := |actions| - 1;
      RelayIff(capacity, actions[..n], r);
      RelayStep(Run(capacity, actions[..n]), actions[n], r);
      MadeRelayStep(actions, r);
    }
  }

  lemma {:induction false} RelayStep(s: State, a: Action, r: Identity)
    ensures r in Next(s, a).relays <==> a == SetRelay(r) || (r in s.relays && a != RemoveRelay(r))
  {
    if a.Sending? && ListsRelays(s, a.order) {
      OrderListsRelays(s, a.order);
      SendOutcome(s, a.m, a.order);
    }
  }

  /** Whoever registers and is then sent a message gets exactly that message, after what was queued, in that inbox. */
  lemma {:induction false} RegisteredReceives(s: State, r: Identity, m: Message, order: seq<Identity>)
    requires Sound(s) && m.recipient == r && EncodedSize(m) <= MAX_MESSAGE_SIZE && ListsRelays(s, order)
    ensures var inbox := |s.owners|; var registered := Next(s, Registering(r));
      var s' := Next(registered, Sending(m, order));
      && s'.handed == registered.handed + [Handoff(inbox, m)]
      && s'.queues == registered.queues && s'.evicted == s.evicted && s'.peers == registered.peers
      && InboxOf(registered, r, registered.handed) == InboxOf(s, r, s.handed) + QueueOf(s, r)
  {
    RegisterHandsOver(s, r, r);
  }

  /** The step of a send: refused without a trace over the size limit; else accepted, and the first open way is taken.
      Ways found closed on the way there are forgotten. */
  lemma {:induction false} SendingStep(s: State, m: Message, order: seq<Identity>)
    requires ListsRelays(s, order)
    ensures var s' := Next(s, Sending(m, order)); var to := m.recipient;
      if EncodedSize(m) > MAX_MESSAGE_SIZE then s' == s
      else
        && s'.accepted == s.accepted + [m]
        && (to in s.peers && s.peers[to] in s.open ==> s'.handed == s.handed + [Handoff(s.peers[to], m)])
        && (to in s.peers && s.peers[to] !in s.open ==> to !in s'.peers)
        && ((to in s.peers ==> s.peers[to] !in s.open) ==>
              && (to in s.nextHops && s.nextHops[to] in s.open ==>
                    s'.handed == s.handed + [Handoff(s.nextHops[to], m)])
              && (to in s.nextHops && s.nextHops[to] !in s.open ==> to !in s'.nextHops))
  {
    SendPeers(s, m, order);
    DeliveryPriority(s, m, order);
    var a := s.(accepted := s.accepted + [m]);
    var b := if m.recipient in a.peers then a.(peers := a.peers - {m.recipient}) else a;
    RelaysOnlyForget(b.(nextHops := b.nextHops - {m.recipient}), m, order);
    OrderListsRelays(s, order);
    SendOutcome(s, m, order);
  }

  lemma {:induction false} RelaysOnlyForget(s: State, m: Message, order: seq<Identity>)
    ensures TryRelays(s, m, order).nextHops.Keys <= s.nextHops.Keys
    decreases |order|
  {
    if order == [] {
    } else {
      RelaysOnlyForget(s, m, order[1..]);
      RelaysOnlyForget(s.(nextHops := s.nextHops - {order[0]}), m, order[1..]);
    }
  }

  /** With no way open the message is queued: it is the newest, nothing is dropped before the queue is full, and then
      exactly the oldest is. */
  lemma {:induction false} QueuedWhenUnreachable(s: State, m: Message, order: seq<Identity>)
    requires Sound(s) && ListsRelays(s, order) && EncodedSize(m) <= MAX_MESSAGE_SIZE
    requires m.recipient in s.peers ==> s.peers[m.recipient] !in s.open
    requires forall r :: r in s.nextHops && (r == m.recipient || r in s.relays) ==> s.nextHops[r] !in s.open
    ensures var s' := Next(s, Sending(m, order)); var q, q' := QueueOf(s, m.recipient), QueueOf(s', m.recipient);
      && s'.handed == s.handed
      && (|q| < s.capacity ==> q' == q + [m] && s'.evicted == s.evicted)
      && (|q| == s.capacity ==> q' == q[1..] + [m] && s'.evicted == s.evicted + [q[0]])
      && forall r :: r != m.recipient ==> QueueOf(s', r) == QueueOf(s, r)
  {
    OrderListsRelays(s, order);
    SendOutcome(s, m, order);
    var s' := Next(s, Sending(m, order));
    if ch: nat :| Delivered(s, s', m, ch) {
      assert false;
    }
  }
}
