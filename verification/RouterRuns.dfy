/** Conservation, order and route ownership over whole runs of the router. */
module RouterRuns {
  import opened Base
  import opened Routing
  import opened Wire
  import Postcard

  /** `a` is obtained from `b` by leaving elements out. */
  ghost predicate Subsequence<T>(a: seq<T>, b: seq<T>)
    decreases |b|
  {
    a == [] ||
    (b != [] &&
      ((a[|a| - 1] == b[|b| - 1] && Subsequence(a[..|a| - 1], b[..|b| - 1]))
       || Subsequence(a, b[..|b| - 1])))
  }

  lemma {:induction false} SubsequenceSnoc<T>(a: seq<T>, b: seq<T>, x: T)
    requires Subsequence(a, b)
    ensures Subsequence(a, b + [x]) && Subsequence(a + [x], b + [x])
  {
    assert (b + [x])[..|b|] == b && (a + [x])[..|a|] == a;
  }

  lemma {:induction false} SubsequenceDrop<T>(a: seq<T>, c: seq<T>, x: T, b: seq<T>)
    requires Subsequence(a + [x] + c, b)
    ensures Subsequence(a + c, b)
    decreases |b|
  {
    var s := a + [x] + c;
    if a + c != [] {
      var b' := b[..|b| - 1];
      if s[|s| - 1] == b[|b| - 1] && Subsequence(s[..|s| - 1], b') {
        if c == [] {
          assert s[..|s| - 1] == a && a + c == a;
        } else {
          var c' := c[..|c| - 1];
          assert s[..|s| - 1] == a + [x] + c';
          SubsequenceDrop(a, c', x, b');
          assert (a + c)[..|a + c| - 1] == a + c';
        }
      } else {
        SubsequenceDrop(a, c, x, b');
      }
    }
  }

  /** What a send does: it hands the message to an open channel, or queues it when its recipient has no inbox. */
  ghost predicate Delivered(s: State, s': State, m: Message, ch: ChannelId) {
    && ch in s.open
    && s'.handed == s.handed + [Handoff(ch, m)] && s'.queues == s.queues && s'.evicted == s.evicted
    && ((m.recipient in s.peers && ch == s.peers[m.recipient])
        || (exists r :: r in s.nextHops && s.nextHops[r] == ch && (r == m.recipient || r in s.relays)))
  }

  ghost predicate Queued(s: State, s': State, m: Message) {
    && m.recipient !in s'.peers
    && s'.handed == s.handed
    && s'.queues == Push(s, m).queues && s'.evicted == Push(s, m).evicted
  }

  ghost predicate Shrinks(s: State, s': State) {
    && s'.capacity == s.capacity && s'.relays == s.relays && s'.owners == s.owners && s'.open == s.open
    && (forall r :: r in s'.peers ==> r in s.peers && s'.peers[r] == s.peers[r])
    && (forall r :: r in s.peers && r !in s'.peers ==> s.peers[r] !in s.open)
    && (forall r :: r in s'.nextHops ==> r in s.nextHops && s'.nextHops[r] == s.nextHops[r])
    && (forall r :: r in s.nextHops && r !in s'.nextHops ==> s.nextHops[r] !in s.open)
  }

  lemma {:induction false} RelaysOutcome(s: State, m: Message, order: seq<Identity>)
    requires m.recipient !in s.peers && forall i :: 0 <= i < |order| ==> order[i] in s.relays
    ensures var s' := TryRelays(s, m, order);
      && Shrinks(s, s') && s'.peers == s.peers && s'.accepted == s.accepted
      && ((exists ch :: Delivered(s, s', m, ch)) || Queued(s, s', m))
    decreases |order|
  {
    if order == [] {
    } else if order[0] in s.nextHops && s.nextHops[order[0]] in s.open {
      assert order[0] in s.relays;
      assert Delivered(s, TryRelays(s, m, order), m, s.nextHops[order[0]]);
    } else {
      var next := if order[0] in s.nextHops then s.(nextHops := s.nextHops - {order[0]}) else s;
      RelaysOutcome(next, m, order[1..]);
      var s' := TryRelays(next, m, order[1..]);
      if ch :| Delivered(next, s', m, ch) {
        assert Delivered(s, s', m, ch);
      }
    }
  }

  lemma {:induction false} NextHopOutcome(s: State, m: Message, order: seq<Identity>)
    requires m.recipient !in s.peers && forall i :: 0 <= i < |order| ==> order[i] in s.relays
    ensures var s' := TryNextHop(s, m, order);
      && Shrinks(s, s') && s'.peers == s.peers && s'.accepted == s.accepted
      && ((exists ch :: Delivered(s, s', m, ch)) || Queued(s, s', m))
  {
    var s' := TryNextHop(s, m, order);
    if m.recipient in s.nextHops && s.nextHops[m.recipient] in s.open {
      assert Delivered(s, s', m, s.nextHops[m.recipient]);
    } else {
      var next := if m.recipient in s.nextHops then s.(nextHops := s.nextHops - {m.recipient}) else s;
      RelaysOutcome(next, m, order);
      if ch :| Delivered(next, s', m, ch) {
        assert Delivered(s, s', m, ch);
      }
    }
  }

  lemma {:induction false} SendOutcome(s: State, m: Message, order: seq<Identity>)
    requires forall i :: 0 <= i < |order| ==> order[i] in s.relays
    ensures var s' := Send(s, m, order);
      && Shrinks(s, s') && s'.accepted == s.accepted + [m]
      && ((exists ch :: Delivered(s, s', m, ch)) || Queued(s, s', m))
  {
    var s' := Send(s, m, order);
    if m.recipient in s.peers && s.peers[m.recipient] in s.open {
      assert Delivered(s, s', m, s.peers[m.recipient]);
    } else {
      var a := s.(accepted := s.accepted + [m]);
      var next := if m.recipient in s.peers then a.(peers := s.peers - {m.recipient}) else a;
      NextHopOutcome(next, m, order);
      if ch :| Delivered(next, s', m, ch) {
        assert Delivered(s, s', m, ch);
      }
    }
  }

  lemma {:induction false} NextSound(s: State, a: Action)
    requires Sound(s)
    ensures Sound(Next(s, a)) && Next(s, a).capacity == s.capacity
  {
    if a.Sending? && Next(s, a) != s {
      OrderListsRelays(s, a.order);
      SendOutcome(s, a.m, a.order);
      SendKeepsSound(s, Next(s, a), a.m);
    }
  }

  lemma {:induction false} OrderListsRelays(s: State, order: seq<Identity>)
    requires ListsRelays(s, order)
    ensures forall i :: 0 <= i < |order| ==> order[i] in s.relays
  {
    assert forall i :: 0 <= i < |order| ==> order[i] in Elements(order);
  }

  lemma {:induction false} SendKeepsSound(s: State, s': State, m: Message)
    requires Sound(s) && Shrinks(s, s')
    requires (exists ch :: Delivered(s, s', m, ch)) || Queued(s, s', m)
    ensures Sound(s')
  {
    if Queued(s, s', m) {
      var q := QueueOf(s, m.recipient) + [m];
      assert forall i :: 0 <= i < |q| ==> q[i].recipient == m.recipient;
    }
  }

  lemma {:induction false} RunSound(capacity: nat, actions: seq<Action>)
    requires capacity > 0
    ensures Sound(Run(capacity, actions)) && Run(capacity, actions).capacity == capacity
  {
    if actions != [] {
      var n := |actions| - 1;
      RunSound(capacity, actions[..n]);
      NextSound(Run(capacity, actions[..n]), actions[n]);
    }
  }

  /** Every message accepted for r was handed over, is queued, or was evicted: as multisets, so each one once. */
  ghost predicate Conserved(s: State, r: Identity) {
    multiset(To(r, s.accepted)) ==
    multiset(HandedTo(r, s.handed)) + multiset(QueueOf(s, r)) + multiset(To(r, s.evicted))
  }

  /** What r's inboxes got, followed by r's queue, is in the order in which it was accepted. */
  ghost predicate InAcceptanceOrder(s: State, r: Identity) {
    Subsequence(InboxOf(s, r, s.handed) + QueueOf(s, r), To(r, s.accepted))
  }

  /** Eviction takes the oldest: what was evicted, followed by what is still queued, is in the order of acceptance. */
  ghost predicate OldestEvicted(s: State, r: Identity) {
    Subsequence(To(r, s.evicted) + QueueOf(s, r), To(r, s.accepted))
  }

  lemma {:induction false} ToSnoc(r: Identity, ms: seq<Message>, m: Message)
    ensures To(r, ms + [m]) == To(r, ms) + if m.recipient == r then [m] else []
  {
    assert (ms + [m])[..|ms|] == ms;
  }

  lemma {:induction false} HandedToSnoc(r: Identity, hs: seq<Handoff>, h: Handoff)
    ensures HandedTo(r, hs + [h]) == HandedTo(r, hs) + if h.message.recipient == r then [h.message] else []
  {
    assert (hs + [h])[..|hs|] == hs;
  }

  lemma {:induction false} InboxOfSnoc(s: State, r: Identity, hs: seq<Handoff>, h: Handoff)
    ensures InboxOf(s, r, hs + [h]) == InboxOf(s, r, hs) +
      if h.channel < |s.owners| && s.owners[h.channel] == Inbox(r) then [h.message] else []
  {
    assert (hs + [h])[..|hs|] == hs;
  }

  /** New channels change nothing about who read the old ones. */
  lemma {:induction false} InboxOfStable(s: State, s': State, r: Identity, hs: seq<Handoff>)
    requires s.owners <= s'.owners
    requires forall i :: 0 <= i < |hs| ==> hs[i].channel < |s.owners|
    ensures InboxOf(s', r, hs) == InboxOf(s, r, hs)
  {
    if hs != [] { InboxOfStable(s, s', r, hs[..|hs| - 1]); }
  }

  lemma {:induction false} HandOverConserves(s: State, s': State, m: Message, ch: ChannelId, r: Identity)
    requires Conserved(s, r) && s'.accepted == s.accepted + [m]
    requires s'.handed == s.handed + [Handoff(ch, m)] && s'.queues == s.queues && s'.evicted == s.evicted
    ensures Conserved(s', r)
  {
    ToSnoc(r, s.accepted, m);
    HandedToSnoc(r, s.handed, Handoff(ch, m));
    assert QueueOf(s', r) == QueueOf(s, r);
  }

  /** A bounded queue after one more message: the oldest makes room. */
  function Bounded(q: seq<Message>, m: Message, capacity: nat): seq<Message> {
    if |q + [m]| > capacity then (q + [m])[1..] else q + [m]
  }

  function Overflow(q: seq<Message>, m: Message, capacity: nat): seq<Message> {
    if |q + [m]| > capacity then [(q + [m])[0]] else []
  }

  lemma {:induction false} PushIsBounded(s: State, m: Message, r: Identity)
    ensures QueueOf(Push(s, m), r) == if m.recipient == r then Bounded(QueueOf(s, r), m, s.capacity) else QueueOf(s, r)
    ensures Push(s, m).evicted == s.evicted + Overflow(QueueOf(s, m.recipient), m, s.capacity)
  {
  }

  lemma {:induction false} BoundedBalances(q: seq<Message>, m: Message, capacity: nat)
    ensures multiset(Bounded(q, m, capacity)) + multiset(Overflow(q, m, capacity)) == multiset(q) + multiset{m}
  {
    var all := q + [m];
    assert all == [all[0]] + all[1..];
    assert multiset(all) == multiset{all[0]} + multiset(all[1..]) == multiset(q) + multiset{m};
  }

  lemma {:induction false} OverflowTo(r: Identity, evicted: seq<Message>, q: seq<Message>, m: Message, capacity: nat)
    requires forall i :: 0 <= i < |q| ==> q[i].recipient == m.recipient
    ensures To(r, evicted + Overflow(q, m, capacity)) ==
      To(r, evicted) + if m.recipient == r then Overflow(q, m, capacity) else []
  {
    if |q + [m]| > capacity {
      ToSnoc(r, evicted, (q + [m])[0]);
    } else {
      assert evicted + [] == evicted && To(r, evicted) + [] == To(r, evicted);
    }
  }

  lemma {:induction false} PushConserves(s: State, s': State, m: Message, r: Identity)
    requires Sound(s) && Conserved(s, r) && s'.accepted == s.accepted + [m] && s'.handed == s.handed
    requires QueueOf(s', r) == if m.recipient == r then Bounded(QueueOf(s, r), m, s.capacity) else QueueOf(s, r)
    requires s'.evicted == s.evicted + Overflow(QueueOf(s, m.recipient), m, s.capacity)
    ensures Conserved(s', r)
  {
    ToSnoc(r, s.accepted, m);
    var q := QueueOf(s, m.recipient);
    OverflowTo(r, s.evicted, q, m, s.capacity);
    BoundedBalances(q, m, s.capacity);
    if m.recipient == r {
      Balance(multiset(To(r, s.accepted)), multiset(HandedTo(r, s.handed)), multiset(q), multiset(To(r, s.evicted)),
              multiset(Overflow(q, m, s.capacity)), multiset{m}, multiset(QueueOf(s', r)));
    } else {
      assert To(r, s'.accepted) == To(r, s.accepted) && To(r, s'.evicted) == To(r, s.evicted);
    }
  }

  lemma {:induction false} Balance<T>(all: multiset<T>, h: multiset<T>, q: multiset<T>, e: multiset<T>,
      o: multiset<T>, x: multiset<T>, q': multiset<T>)
    requires all == h + q + e && q' + o == q + x
    ensures all + x == h + q' + (e + o)
  {
    forall k ensures (all + x)[k] == (h + q' + (e + o))[k] {
      assert (q' + o)[k] == (q + x)[k];
    }
  }

  lemma {:induction false} HandOverKeepsOrder(s: State, s': State, m: Message, ch: ChannelId, r: Identity)
    requires InAcceptanceOrder(s, r) && s'.accepted == s.accepted + [m] && s'.owners == s.owners
    requires s'.handed == s.handed + [Handoff(ch, m)] && s'.queues == s.queues
    requires forall i :: 0 <= i < |s.handed| ==> s.handed[i].channel < |s.owners|
    requires ch < |s.owners| && (s.owners[ch] == Inbox(r) ==> m.recipient == r && QueueOf(s, r) == [])
    ensures InAcceptanceOrder(s', r)
  {
    var got, q, sent := InboxOf(s, r, s.handed), QueueOf(s, r), To(r, s.accepted);
    ToSnoc(r, s.accepted, m);
    InboxOfStable(s, s', r, s.handed);
    InboxOfSnoc(s', r, s.handed, Handoff(ch, m));
    SubsequenceSnoc(got + q, sent, m);
    assert QueueOf(s', r) == q;
    var got', sent' := InboxOf(s', r, s'.handed), To(r, s'.accepted);
    if m.recipient == r {
      assert sent' == sent + [m];
      if s.owners[ch] == Inbox(r) {
        assert got' + q == got + q + [m];
      } else {
        assert got' + q == got + q;
      }
    } else {
      assert sent' == sent && got' + q == got + q;
    }
  }

  /** Appending keeps order, and so does making room at the front of the queue. */
  lemma {:induction false} PushSubsequence<T>(got: seq<T>, q: seq<T>, sent: seq<T>, m: T)
    requires Subsequence(got + q, sent)
    ensures Subsequence(got + (q + [m]), sent + [m])
    ensures Subsequence(got + (q + [m])[1..], sent + [m])
  {
    var q' := q + [m];
    SubsequenceSnoc(got + q, sent, m);
    assert got + q' == got + q + [m];
    assert got + q' == got + [q'[0]] + q'[1..];
    SubsequenceDrop(got, q'[1..], q'[0], sent + [m]);
  }

  lemma {:induction false} PushKeepsOrder(s: State, s': State, m: Message, r: Identity)
    requires InAcceptanceOrder(s, r) && s'.accepted == s.accepted + [m]
    requires s'.owners == s.owners && s'.handed == s.handed
    requires QueueOf(s', r) == if m.recipient == r then Bounded(QueueOf(s, r), m, s.capacity) else QueueOf(s, r)
    requires forall i :: 0 <= i < |s.handed| ==> s.handed[i].channel < |s.owners|
    ensures InAcceptanceOrder(s', r)
  {
    var sent := To(r, s.accepted);
    ToSnoc(r, s.accepted, m);
    InboxOfStable(s, s', r, s.handed);
    if m.recipient == r {
      PushSubsequence(InboxOf(s, r, s.handed), QueueOf(s, r), sent, m);
    } else {
      assert To(r, s'.accepted) == sent;
    }
  }

  lemma {:induction false} SubsequencePrefix<T>(a: seq<T>, c: seq<T>, b: seq<T>)
    requires Subsequence(a + c, b)
    ensures Subsequence(a, b)
    decreases |c|
  {
    if c == [] {
      assert a + c == a;
    } else {
      assert a + c == a + [c[0]] + c[1..];
      SubsequenceDrop(a, c[1..], c[0], b);
      SubsequencePrefix(a, c[1..], b);
    }
  }

  /** A send evicts at most the head of the queue it appends to. */
  lemma {:induction false} SendEvictsOldest(s: State, s': State, m: Message, r: Identity)
    requires Sound(s) && OldestEvicted(s, r) && s'.accepted == s.accepted + [m]
    requires (exists ch :: Delivered(s, s', m, ch)) || Queued(s, s', m)
    ensures OldestEvicted(s', r)
  {
    var e, q, sent := To(r, s.evicted), QueueOf(s, r), To(r, s.accepted);
    ToSnoc(r, s.accepted, m);
    SubsequenceSnoc(e + q, sent, m);
    if ch: nat :| Delivered(s, s', m, ch) {
      assert QueueOf(s', r) == q && To(r, s'.evicted) == e;
      assert To(r, s'.accepted) == sent || To(r, s'.accepted) == sent + [m];
    } else {
      PushIsBounded(s, m, r);
      assert QueueOf(s', r) == QueueOf(Push(s, m), r);
      OverflowTo(r, s.evicted, QueueOf(s, m.recipient), m, s.capacity);
      if m.recipient == r {
        BoundedRotates(e, q, m, s.capacity);
      } else {
        assert To(r, s'.accepted) == sent && To(r, s'.evicted) == e;
      }
    }
  }

  lemma {:induction false} BoundedRotates(e: seq<Message>, q: seq<Message>, m: Message, capacity: nat)
    ensures e + Overflow(q, m, capacity) + Bounded(q, m, capacity) == e + q + [m]
  {
    var all := q + [m];
    assert all == [all[0]] + all[1..];
  }

  lemma {:induction false} DroppedQueueEvictsNothing(s: State, s': State, r: Identity)
    requires OldestEvicted(s, r) && s'.accepted == s.accepted && s'.evicted == s.evicted
    requires QueueOf(s', r) == [] || QueueOf(s', r) == QueueOf(s, r)
    ensures OldestEvicted(s', r)
  {
    var e, q := To(r, s.evicted), QueueOf(s, r);
    SubsequencePrefix(e, q, To(r, s.accepted));
    assert e + [] == e;
  }

  lemma {:induction false} NextEvictsOldest(s: State, a: Action, r: Identity)
    requires Sound(s) && OldestEvicted(s, r)
    ensures OldestEvicted(Next(s, a), r)
  {
    if a.Sending? {
      if EncodedSize(a.m) <= MAX_MESSAGE_SIZE && ListsRelays(s, a.order) {
        OrderListsRelays(s, a.order);
        SendOutcome(s, a.m, a.order);
        SendEvictsOldest(s, Next(s, a), a.m, r);
      }
    } else {
      if !a.Registering? { OtherMovesNothing(s, a); }
      DroppedQueueEvictsNothing(s, Next(s, a), r);
    }
  }

  lemma {:induction false} DeliveredChannel(s: State, s': State, m: Message, ch: ChannelId, r: Identity)
    requires Sound(s) && Delivered(s, s', m, ch)
    ensures ch < |s.owners| && (s.owners[ch] == Inbox(r) ==> m.recipient == r && QueueOf(s, r) == [])
  {
  }

  lemma {:induction false} QueuedKeeps(s: State, s': State, m: Message, r: Identity)
    requires Sound(s) && Conserved(s, r) && InAcceptanceOrder(s, r) && Shrinks(s, s') && s'.accepted == s.accepted + [m]
    requires Queued(s, s', m)
    ensures Conserved(s', r) && InAcceptanceOrder(s', r)
  {
    PushIsBounded(s, m, r);
    assert QueueOf(s', r) == QueueOf(Push(s, m), r);
    PushConserves(s, s', m, r);
    PushKeepsOrder(s, s', m, r);
  }

  lemma {:induction false} SendKeeps(s: State, s': State, m: Message, r: Identity)
    requires Sound(s) && Conserved(s, r) && InAcceptanceOrder(s, r) && Shrinks(s, s') && s'.accepted == s.accepted + [m]
    requires (exists ch :: Delivered(s, s', m, ch)) || Queued(s, s', m)
    ensures Conserved(s', r) && InAcceptanceOrder(s', r)
  {
    if ch: nat :| Delivered(s, s', m, ch) {
      DeliveredChannel(s, s', m, ch, r);
      HandOverConserves(s, s', m, ch, r);
      HandOverKeepsOrder(s, s', m, ch, r);
    } else {
      QueuedKeeps(s, s', m, r);
    }
  }

  lemma {:induction false} HandoffsSnoc(hs: seq<Handoff>, ch: ChannelId, q: seq<Message>)
    requires q != []
    ensures hs + Handoffs(ch, q) == (hs + Handoffs(ch, q[..|q| - 1])) + [Handoff(ch, q[|q| - 1])]
  {
  }

  lemma {:induction false} HandoffsTo(r: Identity, hs: seq<Handoff>, ch: ChannelId, q: seq<Message>, owner: Identity)
    requires forall i :: 0 <= i < |q| ==> q[i].recipient == owner
    ensures HandedTo(r, hs + Handoffs(ch, q)) == HandedTo(r, hs) + if r == owner then q else []
    decreases |q|
  {
    if q == [] {
      assert hs + Handoffs(ch, q) == hs;
    } else {
      var n := |q| - 1;
      HandoffsTo(r, hs, ch, q[..n], owner);
      HandoffsSnoc(hs, ch, q);
      HandedToSnoc(r, hs + Handoffs(ch, q[..n]), Handoff(ch, q[n]));
      LastSplit(q);
    }
  }

  lemma {:induction false} HandoffsInbox(s: State, r: Identity, hs: seq<Handoff>, ch: ChannelId, q: seq<Message>)
    requires ch < |s.owners|
    ensures InboxOf(s, r, hs + Handoffs(ch, q)) == InboxOf(s, r, hs) + if s.owners[ch] == Inbox(r) then q else []
    decreases |q|
  {
    if q == [] {
      assert hs + Handoffs(ch, q) == hs;
    } else {
      var n := |q| - 1;
      HandoffsInbox(s, r, hs, ch, q[..n]);
      HandoffsSnoc(hs, ch, q);
      InboxOfSnoc(s, r, hs + Handoffs(ch, q[..n]), Handoff(ch, q[n]));
      LastSplit(q);
    }
  }

  lemma {:induction false} RegisterHanded(s: State, who: Identity)
    requires Sound(s)
    ensures Register(s, who).handed == s.handed + Handoffs(|s.owners|, QueueOf(s, who))
  {
  }

  /** Registering hands over the whole queue: it is never longer than the new inbox can hold. */
  lemma {:induction false} RegisterHandsOver(s: State, who: Identity, r: Identity)
    requires Sound(s)
    ensures var s', q := Register(s, who), QueueOf(s, who);
      && s'.handed == s.handed + Handoffs(|s.owners|, q)
      && QueueOf(s', r) == (if r == who then [] else QueueOf(s, r))
      && HandedTo(r, s'.handed) == HandedTo(r, s.handed) + (if r == who then q else [])
      && InboxOf(s', r, s'.handed) == InboxOf(s, r, s.handed) + (if r == who then q else [])
  {
    var s' := Register(s, who);
    assert forall i :: 0 <= i < |QueueOf(s, who)| ==> QueueOf(s, who)[i].recipient == who;
    HandoffsTo(r, s.handed, |s.owners|, QueueOf(s, who), who);
    HandoffsInbox(s', r, s.handed, |s.owners|, QueueOf(s, who));
    InboxOfStable(s, s', r, s.handed);
  }

  lemma {:induction false} RegisterKeeps(s: State, who: Identity, r: Identity)
    requires Sound(s) && Conserved(s, r) && InAcceptanceOrder(s, r)
    ensures Conserved(Register(s, who), r) && InAcceptanceOrder(Register(s, who), r)
  {
    RegisterHandsOver(s, who, r);
    QueueMoves(s, Register(s, who), r, r == who);
  }

  lemma {:induction false} QueueMoves(s: State, s': State, r: Identity, moved: bool)
    requires Conserved(s, r) && InAcceptanceOrder(s, r) && s'.accepted == s.accepted && s'.evicted == s.evicted
    requires QueueOf(s', r) == if moved then [] else QueueOf(s, r)
    requires HandedTo(r, s'.handed) == HandedTo(r, s.handed) + if moved then QueueOf(s, r) else []
    requires InboxOf(s', r, s'.handed) == InboxOf(s, r, s.handed) + if moved then QueueOf(s, r) else []
    ensures Conserved(s', r) && InAcceptanceOrder(s', r)
  {
    var got, q := InboxOf(s, r, s.handed), QueueOf(s, r);
    assert got + q + [] == got + q && got + [] == got;
    assert HandedTo(r, s.handed) + [] == HandedTo(r, s.handed);
  }

  lemma {:induction false} SendingKeeps(s: State, m: Message, order: seq<Identity>, r: Identity)
    requires Sound(s) && Conserved(s, r) && InAcceptanceOrder(s, r) && ListsRelays(s, order)
    ensures Conserved(Send(s, m, order), r) && InAcceptanceOrder(Send(s, m, order), r)
  {
    OrderListsRelays(s, order);
    SendOutcome(s, m, order);
    SendKeeps(s, Send(s, m, order), m, r);
  }

  lemma {:induction false} SameMessagesKeep(s: State, s': State, r: Identity)
    requires Sound(s) && Conserved(s, r) && InAcceptanceOrder(s, r)
    requires s'.accepted == s.accepted && s'.handed == s.handed && s'.queues == s.queues && s'.evicted == s.evicted
    requires s.owners <= s'.owners
    ensures Conserved(s', r) && InAcceptanceOrder(s', r)
  {
    InboxOfStable(s, s', r, s.handed);
    assert QueueOf(s', r) == QueueOf(s, r);
  }

  /** Operations other than sending and registering move no message. */
  lemma {:induction false} OtherMovesNothing(s: State, a: Action)
    requires !a.Sending? && !a.Registering?
    ensures var s' := Next(s, a);
      && s'.accepted == s.accepted && s'.handed == s.handed && s'.queues == s.queues && s'.evicted == s.evicted
      && s.owners <= s'.owners
  {
  }

  lemma {:induction false} OtherKeeps(s: State, a: Action, r: Identity)
    requires Sound(s) && Conserved(s, r) && InAcceptanceOrder(s, r) && !a.Sending? && !a.Registering?
    ensures Conserved(Next(s, a), r) && InAcceptanceOrder(Next(s, a), r)
  {
    OtherMovesNothing(s, a);
    SameMessagesKeep(s, Next(s, a), r);
  }

  /** Every step keeps both, for every identity. */
  lemma {:induction false} NextKeeps(s: State, a: Action, r: Identity)
    requires Sound(s) && Conserved(s, r) && InAcceptanceOrder(s, r)
    ensures Conserved(Next(s, a), r) && InAcceptanceOrder(Next(s, a), r)
  {
    if a.Sending? {
      if EncodedSize(a.m) <= MAX_MESSAGE_SIZE && ListsRelays(s, a.order) { SendingKeeps(s, a.m, a.order, r); }
    } else if a.Registering? {
      RegisterKeeps(s, a.r, r);
    } else {
      OtherKeeps(s, a, r);
    }
  }

  /** In every reachable state, for every identity: accepted messages are conserved, its inboxes and queue are in
      order, only older messages than the queued ones were evicted, an identity with an inbox has nothing queued,
      and no queue is over capacity. */
  lemma {:induction false} ConservationAndOrder(capacity: nat, actions: seq<Action>, r: Identity)
    requires capacity > 0
    ensures var s := Run(capacity, actions);
      && Conserved(s, r) && InAcceptanceOrder(s, r) && OldestEvicted(s, r)
      && (r in s.peers ==> QueueOf(s, r) == [])
      && |QueueOf(s, r)| <= capacity
  {
    RunSound(capacity, actions);
    if actions != [] {
      var n := |actions| - 1;
      ConservationAndOrder(capacity, actions[..n], r);
      RunSound(capacity, actions[..n]);
      NextKeeps(Run(capacity, actions[..n]), actions[n], r);
      NextEvictsOldest(Run(capacity, actions[..n]), actions[n], r);
    }
  }

  lemma {:induction false} AcceptedFit(capacity: nat, actions: seq<Action>)
    ensures forall m :: m in Run(capacity, actions).accepted ==> EncodedSize(m) <= MAX_MESSAGE_SIZE
  {
    if actions == [] {
    } else {
      var n := |actions| - 1;
      AcceptedFit(capacity, actions[..n]);
      var s, a := Run(capacity, actions[..n]), actions[n];
      if a.Sending? && EncodedSize(a.m) <= MAX_MESSAGE_SIZE && ListsRelays(s, a.order) {
        SendOutcome(s, a.m, a.order);
      }
    }
  }

  lemma {:induction false} HandedIsTo(r: Identity, hs: seq<Handoff>, i: nat)
    requires i < |hs| && hs[i].message.recipient == r
    ensures hs[i].message in HandedTo(r, hs)
  {
    var n := |hs| - 1;
    if i < n {
      HandedIsTo(r, hs[..n], i);
      assert hs[i] == hs[..n][i];
    }
  }

  lemma {:induction false} ToIsMember(r: Identity, ms: seq<Message>, m: Message)
    requires m in To(r, ms)
    ensures m in ms
  {
    var n := |ms| - 1;
    if m in To(r, ms[..n]) { ToIsMember(r, ms[..n], m); }
  }

  lemma {:induction false} HandedWasAccepted(s: State, i: nat)
    requires i < |s.handed| && Conserved(s, s.handed[i].message.recipient)
    ensures s.handed[i].message in s.accepted
  {
    var m := s.handed[i].message;
    var handed, sent := HandedTo(m.recipient, s.handed), To(m.recipient, s.accepted);
    HandedIsTo(m.recipient, s.handed, i);
    assert m in multiset(handed);
    assert m in multiset(sent);
    ToIsMember(m.recipient, s.accepted, m);
  }

  /** Handed to a link is not yet on the wire: its writer drops, without telling anyone, exactly the messages that are
      as large as the router accepts. One payload length makes such a message. */
  lemma {:induction false} HandedButNotWritten(capacity: nat, actions: seq<Action>, i: nat)
    requires capacity > 0 && i < |Run(capacity, actions).handed|
    ensures var m := Run(capacity, actions).handed[i].message;
      && (SendOver(|m.payload|) == Arrives <==> EncodedSize(m) != MAX_MESSAGE_SIZE)
      && (EncodedSize(m) == MAX_MESSAGE_SIZE <==> |m.payload| == MAX_DELIVERED + 1)
  {
    hide Conserved, InAcceptanceOrder, OldestEvicted, Run, Postcard.Varint;
    var s := Run(capacity, actions);
    var m := s.handed[i].message;
    ConservationAndOrder(capacity, actions, m.recipient);
    HandedWasAccepted(s, i);
    AcceptedFit(capacity, actions);
    TransitBounds(|m.payload|);
  }

  // Delivery priority.

  ghost predicate OpenRelay(s: State, r: Identity) {
    r in s.relays && r in s.nextHops && s.nextHops[r] in s.open
  }

  /** A send goes to the recipient's inbox if that is open; else to its own next hop if that is open; else over some
      relay if any relay's connection is open; and only else into the offline queue. */
  lemma {:induction false} DeliveryPriority(s: State, m: Message, order: seq<Identity>)
    requires ListsRelays(s, order)
    ensures var s' := Send(s, m, order);
      if m.recipient in s.peers && s.peers[m.recipient] in s.open then
        s'.handed == s.handed + [Handoff(s.peers[m.recipient], m)]
      else if m.recipient in s.nextHops && s.nextHops[m.recipient] in s.open then
        s'.handed == s.handed + [Handoff(s.nextHops[m.recipient], m)]
      else if exists r :: OpenRelay(s, r) then
        exists r :: OpenRelay(s, r) && s'.handed == s.handed + [Handoff(s.nextHops[r], m)]
      else s'.handed == s.handed && QueueOf(s', m.recipient) == Bounded(QueueOf(s, m.recipient), m, s.capacity)
  {
    var direct := m.recipient in s.peers && s.peers[m.recipient] in s.open;
    var linked := m.recipient in s.nextHops && s.nextHops[m.recipient] in s.open;
    if !direct && !linked {
      var a := s.(accepted := s.accepted + [m]);
      var b := if m.recipient in a.peers then a.(peers := a.peers - {m.recipient}) else a;
      var c := if m.recipient in b.nextHops then b.(nextHops := b.nextHops - {m.recipient}) else b;
      assert Send(s, m, order) == TryRelays(c, m, order);
      OrderListsRelays(s, order);
      RelayPriority(c, m, order);
      PushIsBounded(c, m, m.recipient);
      forall r ensures OpenRelay(c, r) <==> OpenRelay(s, r) {}
      forall r | r in s.relays ensures r in order { assert r in Elements(order); }
      if r :| OpenRelay(s, r) { assert r in order && OpenRelay(c, r); }
    }
  }

  lemma {:induction false} RelayPriority(s: State, m: Message, order: seq<Identity>)
    requires forall i :: 0 <= i < |order| ==> order[i] in s.relays
    ensures var s' := TryRelays(s, m, order);
      if exists r :: r in order && OpenRelay(s, r) then
        exists r :: OpenRelay(s, r) && s'.handed == s.handed + [Handoff(s.nextHops[r], m)]
      else s'.handed == s.handed && s'.queues == Push(s, m).queues
    decreases |order|
  {
    if order != [] {
      var first := order[0];
      assert first in order;
      if first in s.nextHops && s.nextHops[first] in s.open {
        assert OpenRelay(s, first);
      } else {
        var next := if first in s.nextHops then s.(nextHops := s.nextHops - {first}) else s;
        RelayPriority(next, m, order[1..]);
        forall r ensures OpenRelay(next, r) <==> OpenRelay(s, r) {}
        forall r | OpenRelay(s, r) ensures r in order <==> r in order[1..] {
          assert order == [first] + order[1..];
        }
      }
    }
  }

  // Route ownership.

  /** Action k of the run, a send, found the channel of r's next hop closed and dropped the entry. */
  ghost predicate FoundClosed(capacity: nat, actions: seq<Action>, k: nat, r: Identity)
    requires k < |actions|
  {
    var before := Run(capacity, actions[..k]);
    actions[k].Sending? && r in before.nextHops && before.nextHops[r] !in before.open
      && r !in Next(before, actions[k]).nextHops
  }

  /** The action makes some connection's channel r's next hop. */
  ghost predicate Sets(s: State, a: Action, r: Identity) {
    a.SetNextHop? && a.r == r && a.ch < |s.owners| && s.owners[a.ch] == Link(r)
  }

  /** Connection `ch` set r's route at step i, and since then no connection set it again, `ch` was not torn down and
      no send found it closed. Tearing down any other connection is not on this list. */
  ghost predicate SetAndKept(capacity: nat, actions: seq<Action>, r: Identity, ch: ChannelId, i: int) {
    && 0 <= i < |actions| && actions[i] == SetNextHop(r, ch) && Sets(Run(capacity, actions[..i]), actions[i], r)
    && forall k :: i < k < |actions| ==> KeptAt(capacity, actions, r, ch, k)
  }

  ghost predicate KeptAt(capacity: nat, actions: seq<Action>, r: Identity, ch: ChannelId, k: int)
    requires 0 <= k < |actions|
  {
    && !Sets(Run(capacity, actions[..k]), actions[k], r)
    && actions[k] != RemoveNextHopIfCurrent(r, ch)
    && !FoundClosed(capacity, actions, k, r)
  }

  /** What one action does to r's route: set it, drop it by the owner's tear-down or because it was found closed, or
      leave it alone. */
  lemma {:induction false} RouteStep(s: State, a: Action, r: Identity)
    requires Sound(s)
    ensures var s' := Next(s, a);
      if Sets(s, a, r) then r in s'.nextHops && s'.nextHops[r] == a.ch
      else if r !in s.nextHops then r !in s'.nextHops
      else if a == RemoveNextHopIfCurrent(r, s.nextHops[r]) then r !in s'.nextHops
      else if r in s'.nextHops then s'.nextHops[r] == s.nextHops[r]
      else a.Sending? && s.nextHops[r] !in s.open
  {
    if a.Sending? && EncodedSize(a.m) <= MAX_MESSAGE_SIZE && ListsRelays(s, a.order) {
      OrderListsRelays(s, a.order);
      SendOutcome(s, a.m, a.order);
    }
  }

  /** r's next hop is channel `ch` exactly when `ch` set it last and has been neither torn down nor found closed. */
  lemma {:induction false} RouteOwnership(capacity: nat, actions: seq<Action>, r: Identity, ch: ChannelId)
    requires capacity > 0
    ensures var s := Run(capacity, actions);
      (r in s.nextHops && s.nextHops[r] == ch) <==> exists i :: SetAndKept(capacity, actions, r, ch, i)
  {
    if actions != [] {
      var n := |actions| - 1;
      var front := actions[..n];
      var before, after := Run(capacity, front), Run(capacity, actions);
      RouteOwnership(capacity, front, r, ch);
      RunSound(capacity, front);
      RouteStep(before, actions[n], r);
      if r in after.nextHops && after.nextHops[r] == ch {
        if Sets(before, actions[n], r) {
          assert SetAndKept(capacity, actions, r, ch, n);
        } else {
          var i :| SetAndKept(capacity, front, r, ch, i);
          KeptLonger(capacity, actions, r, ch, i);
        }
      }
      if i :| SetAndKept(capacity, actions, r, ch, i) {
        if i < n {
          KeptShorter(capacity, actions, r, ch, i);
          assert KeptAt(capacity, actions, r, ch, n);
        }
      }
    }
  }

  lemma {:induction false} KeptLonger(capacity: nat, actions: seq<Action>, r: Identity, ch: ChannelId, i: int)
    requires actions != [] && SetAndKept(capacity, actions[..|actions| - 1], r, ch, i)
    requires KeptAt(capacity, actions, r, ch, |actions| - 1)
    ensures SetAndKept(capacity, actions, r, ch, i)
  {
    var front := actions[..|actions| - 1];
    assert forall k :: 0 <= k < |front| ==> front[..k] == actions[..k];
    forall k | i < k < |actions| ensures KeptAt(capacity, actions, r, ch, k) {
      if k < |front| { assert KeptAt(capacity, front, r, ch, k); }
    }
  }

  lemma {:induction false} KeptShorter(capacity: nat, actions: seq<Action>, r: Identity, ch: ChannelId, i: int)
    requires actions != [] && SetAndKept(capacity, actions, r, ch, i) && i < |actions| - 1
    ensures SetAndKept(capacity, actions[..|actions| - 1], r, ch, i)
  {
    var front := actions[..|actions| - 1];
    assert forall k :: 0 <= k < |front| ==> front[..k] == actions[..k];
    forall k | i < k < |front| ensures KeptAt(capacity, front, r, ch, k) {
      assert KeptAt(capacity, actions, r, ch, k);
    }
  }
}
