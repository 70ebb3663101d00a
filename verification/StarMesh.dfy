/** A core that dials nobody, with edges that may send any frame on their own connections. */
module StarMesh {
  import opened Base
  import opened Routing
  import opened Wire
  import opened RouterRuns

  /** What can happen at the core: its own router operations on messages made here, and frames read from edges. */
  datatype CoreEvent =
    | Own(a: Action)
    | FrameIn(link: ChannelId, m: Message, order: seq<Identity>)

  /** The router action an event amounts to, if any: the core sets no relays, sends its own messages as its own,
      and drops a frame whose sender is not the remote its connection authenticated. */
  function Routed(s: State, e: CoreEvent): Option<Action> {
    match e
    case Own(a) => if a.SetRelay? || (a.Sending? && a.m.origin != Local) then None else Some(a)
    case FrameIn(link, m, order) =>
      if link < |s.owners| && s.owners[link] == Link(m.sender) then Some(Sending(m.(origin := Frame(link)), order))
      else None
  }

  function CoreNext(s: State, e: CoreEvent): State {
    var a := Routed(s, e);
    if a.Some? then Next(s, a.value) else s
  }

  function CoreRun(capacity: nat, events: seq<CoreEvent>): State {
    if events == [] then Initial(capacity)
    else CoreNext(CoreRun(capacity, events[..|events| - 1]), events[|events| - 1])
  }

  /** What the reader of a connection to `remote` does with a frame is the mesh step for it. */
  lemma {:induction false} InboundIsFrameIn(s: State, remote: Identity, link: ChannelId, m: Message,
      order: seq<Identity>)
    requires link < |s.owners| && s.owners[link] == Link(remote)
    ensures Inbound(s, remote, link, false, m, order) == CoreNext(s, FrameIn(link, m, order))
  {
  }

  /** The core's own operations are the router's, but for relays and for messages that claim to come from a
      connection. */
  lemma {:induction false} OwnIsNext(s: State, a: Action)
    requires !a.SetRelay? && (a.Sending? ==> a.m.origin == Local)
    ensures CoreNext(s, Own(a)) == Next(s, a)
  {
  }

  /** The core forwards: a frame from one connected edge to another, with no inbox for it here, goes out on the other
      edge's connection and nowhere else; one that claims another sender changes nothing. */
  lemma {:induction false} FrameIsForwarded(s: State, link: ChannelId, m: Message, order: seq<Identity>)
    requires link < |s.owners| && s.owners[link].Link? && ListsRelays(s, order)
    requires EncodedSize(m) <= MAX_MESSAGE_SIZE
    requires m.recipient !in s.peers && m.recipient in s.nextHops && s.nextHops[m.recipient] in s.open
    ensures var s' := CoreNext(s, FrameIn(link, m, order));
      if m.sender == s.owners[link].id then
        s'.handed == s.handed + [Handoff(s.nextHops[m.recipient], m.(origin := Frame(link)))]
      else s' == s
  {
    DeliveryPriority(s, m.(origin := Frame(link)), order);
  }

  /** The sender of a frame-borne message is the identity of the connection it came in on. */
  ghost predicate Attributed(s: State, m: Message) {
    m.origin.Frame? ==> m.origin.link < |s.owners| && s.owners[m.origin.link] == Link(m.sender)
  }

  ghost predicate AllAttributed(s: State, ms: seq<Message>) {
    forall i :: 0 <= i < |ms| ==> Attributed(s, ms[i])
  }

  /** A message handed over is attributed and went to its recipient. */
  ghost predicate HandedRight(s: State, h: Handoff)
    requires h.channel < |s.owners|
  {
    Attributed(s, h.message) && s.owners[h.channel].id == h.message.recipient
  }

  ghost predicate MeshInvariant(s: State) {
    && Sound(s) && s.relays == {}
    && AllAttributed(s, s.accepted) && AllAttributed(s, s.evicted)
    && (forall r :: r in s.queues ==> AllAttributed(s, s.queues[r]))
    && (forall i :: 0 <= i < |s.handed| ==> HandedRight(s, s.handed[i]))
  }

  lemma {:induction false} HandOverKeepsMesh(s: State, s': State, m: Message, ch: ChannelId)
    requires MeshInvariant(s) && Sound(s') && Shrinks(s, s') && Attributed(s, m)
    requires s'.accepted == s.accepted + [m] && s'.handed == s.handed + [Handoff(ch, m)]
    requires s'.queues == s.queues && s'.evicted == s.evicted && ch < |s.owners| && s.owners[ch].id == m.recipient
    ensures MeshInvariant(s')
  {
  }

  lemma {:induction false} PushKeepsMesh(s: State, s': State, m: Message)
    requires MeshInvariant(s) && Sound(s') && Shrinks(s, s') && Attributed(s, m)
    requires s'.accepted == s.accepted + [m] && Queued(s, s', m)
    ensures MeshInvariant(s')
  {
    var q := QueueOf(s, m.recipient) + [m];
    assert AllAttributed(s', q);
    assert AllAttributed(s', s'.accepted);
    assert forall r :: r in s'.queues && r != m.recipient ==> r in s.queues && s'.queues[r] == s.queues[r];
  }

  lemma {:induction false} SendKeepsMesh(s: State, m: Message, order: seq<Identity>)
    requires MeshInvariant(s) && Attributed(s, m) && ListsRelays(s, order)
    ensures MeshInvariant(Send(s, m, order))
  {
    OrderListsRelays(s, order);
    SendOutcome(s, m, order);
    var s' := Send(s, m, order);
    SendKeepsSound(s, s', m);
    if ch: nat :| Delivered(s, s', m, ch) {
      HandOverKeepsMesh(s, s', m, ch);
    } else {
      PushKeepsMesh(s, s', m);
    }
  }

  lemma {:induction false} StillRight(s: State, s': State, h: Handoff)
    requires s.owners <= s'.owners && h.channel < |s.owners| && HandedRight(s, h)
    ensures HandedRight(s', h)
  {
  }

  lemma {:induction false} QueueHandsRight(s: State, r: Identity, k: nat)
    requires MeshInvariant(s) && k < |QueueOf(s, r)|
    ensures HandedRight(Register(s, r), Handoff(|s.owners|, QueueOf(s, r)[k]))
  {
    assert AllAttributed(s, s.queues[r]);
    assert Attributed(s, QueueOf(s, r)[k]) && QueueOf(s, r)[k].recipient == r;
  }

  lemma {:induction false} RegisterHandsRight(s: State, r: Identity)
    requires MeshInvariant(s)
    ensures var s' := Register(s, r);
      forall i :: 0 <= i < |s'.handed| ==> s'.handed[i].channel < |s'.owners| && HandedRight(s', s'.handed[i])
  {
    var s', q := Register(s, r), QueueOf(s, r);
    RegisterHanded(s, r);
    forall i | 0 <= i < |s'.handed| ensures s'.handed[i].channel < |s'.owners| && HandedRight(s', s'.handed[i]) {
      if i < |s.handed| {
        assert s'.handed[i] == s.handed[i];
        StillRight(s, s', s.handed[i]);
      } else {
        assert s'.handed[i] == Handoffs(|s.owners|, q)[i - |s.handed|];
        QueueHandsRight(s, r, i - |s.handed|);
      }
    }
  }

  lemma {:induction false} RegisterKeepsMesh(s: State, r: Identity)
    requires MeshInvariant(s)
    ensures MeshInvariant(Register(s, r))
  {
    NextSound(s, Registering(r));
    RegisterHandsRight(s, r);
  }

  lemma {:induction false} OtherKeepsMesh(s: State, a: Action)
    requires MeshInvariant(s) && !a.Sending? && !a.Registering? && !a.SetRelay?
    ensures MeshInvariant(Next(s, a))
  {
    NextSound(s, a);
    var s' := Next(s, a);
    assert s'.handed == s.handed && s'.queues == s.queues && s'.accepted == s.accepted && s'.evicted == s.evicted;
    assert s.owners <= s'.owners;
  }

  lemma {:induction false} CoreNextKeepsMesh(s: State, e: CoreEvent)
    requires MeshInvariant(s)
    ensures MeshInvariant(CoreNext(s, e))
  {
    var routed := Routed(s, e);
    if routed.Some? {
      var a := routed.value;
      if a.Sending? {
        if EncodedSize(a.m) <= MAX_MESSAGE_SIZE && ListsRelays(s, a.order) { SendKeepsMesh(s, a.m, a.order); }
      } else if a.Registering? {
        RegisterKeepsMesh(s, a.r);
      } else {
        OtherKeepsMesh(s, a);
      }
    }
  }

  /** In every reachable state of the core, every frame-borne message in a channel or queue carries as sender the
      identity of the connection that sent it in, and everything on the channel to an edge is addressed to it. */
  lemma {:induction false} AttributionAndAddressing(capacity: nat, events: seq<CoreEvent>)
    requires capacity > 0
    ensures var s := CoreRun(capacity, events);
      && (forall i :: 0 <= i < |s.handed| ==>
            && Attributed(s, s.handed[i].message)
            && s.handed[i].channel < |s.owners|
            && s.owners[s.handed[i].channel].id == s.handed[i].message.recipient)
      && (forall r, i :: r in s.queues && 0 <= i < |s.queues[r]| ==>
            Attributed(s, s.queues[r][i]) && s.queues[r][i].recipient == r)
  {
    MeshHolds(capacity, events);
  }

  lemma {:induction false} MeshHolds(capacity: nat, events: seq<CoreEvent>)
    requires capacity > 0
    ensures MeshInvariant(CoreRun(capacity, events))
  {
    if events != [] {
      var n := |events| - 1;
      MeshHolds(capacity, events[..n]);
      CoreNextKeepsMesh(CoreRun(capacity, events[..n]), events[n]);
    }
  }
}
