/** What the message router does, as a state with its history: every operation is a function on it. */
module Routing {
  import opened Base
  import opened Wire

  type ChannelId = nat

  /** Bookkeeping only, never read by the router: made on this node, or read from the connection whose outgoing
      channel is `link`. */
  datatype Origin = Local | Frame(link: ChannelId)

  datatype Message = Message(id: Bytes, sender: Identity, recipient: Identity, payload: Bytes, origin: Origin)

  function EncodedSize(m: Message): nat {
    MessageSize(|m.payload|)
  }

  /** Who reads a channel: the inbox of a local registration, or the connection to a remote. */
  datatype Owner = Inbox(id: Identity) | Link(id: Identity)

  datatype Handoff = Handoff(channel: ChannelId, message: Message)

  /** The router's fields, the channels that exist, and the history of what happened to messages. */
  datatype State = State(
    capacity: nat,
    peers: map<Identity, ChannelId>,
    nextHops: map<Identity, ChannelId>,
    relays: set<Identity>,
    queues: map<Identity, seq<Message>>,
    owners: seq<Owner>,
    open: set<ChannelId>,
    accepted: seq<Message>,
    handed: seq<Handoff>,
    evicted: seq<Message>)

  function Initial(capacity: nat): State {
    State(capacity, map[], map[], {}, map[], [], {}, [], [], [])
  }

  function QueueOf(s: State, r: Identity): seq<Message> {
    if r in s.queues then s.queues[r] else []
  }

  /** `OfflineQueue::push`. */
  function Push(s: State, m: Message): State {
    var q := QueueOf(s, m.recipient) + [m];
    if |q| > s.capacity then s.(queues := s.queues[m.recipient := q[1..]], evicted := s.evicted + [q[0]])
    else s.(queues := s.queues[m.recipient := q])
  }

  function HandOver(s: State, ch: ChannelId, m: Message): State {
    s.(handed := s.handed + [Handoff(ch, m)])
  }

  /** The relays, tried in the order the set yields them; then offline. */
  function TryRelays(s: State, m: Message, order: seq<Identity>): State
    decreases |order|
  {
    if order == [] then Push(s, m)
    else if order[0] in s.nextHops then
      if s.nextHops[order[0]] in s.open then HandOver(s, s.nextHops[order[0]], m)
      else TryRelays(s.(nextHops := s.nextHops - {order[0]}), m, order[1..])
    else TryRelays(s, m, order[1..])
  }

  function TryNextHop(s: State, m: Message, order: seq<Identity>): State {
    if m.recipient in s.nextHops then
      if s.nextHops[m.recipient] in s.open then HandOver(s, s.nextHops[m.recipient], m)
      else TryRelays(s.(nextHops := s.nextHops - {m.recipient}), m, order)
    else TryRelays(s, m, order)
  }

  /** `send` of a message within the size bound: local inbox, then next hop, then relays, then the offline queue. A
      channel found closed loses its entry. */
  function Send(s: State, m: Message, order: seq<Identity>): State {
    var a := s.(accepted := s.accepted + [m]);
    if m.recipient in a.peers then
      if a.peers[m.recipient] in a.open then HandOver(a, a.peers[m.recipient], m)
      else TryNextHop(a.(peers := a.peers - {m.recipient}), m, order)
    else TryNextHop(a, m, order)
  }

  function Handoffs(ch: ChannelId, ms: seq<Message>): seq<Handoff> {
    seq(|ms|, i requires 0 <= i < |ms| => Handoff(ch, ms[i]))
  }

  function Fitting(q: seq<Message>, capacity: nat): seq<Message> {
    if |q| <= capacity then q else q[..capacity]
  }

  /** `register`: a new inbox of the queue's capacity takes as much of the queue as fits; the queue is dropped. */
  function Register(s: State, r: Identity): State {
    var ch := |s.owners|;
    s.(owners := s.owners + [Inbox(r)], open := s.open + {ch},
       handed := s.handed + Handoffs(ch, Fitting(QueueOf(s, r), s.capacity)),
       queues := s.queues - {r}, peers := s.peers[r := ch])
  }

  /** One operation on the router, or a change outside it. Connections set only their own outgoing channel as a
      next hop, and only for their own remote. */
  datatype Action =
    | Sending(m: Message, order: seq<Identity>)
    | Registering(r: Identity)
    | Unregistering(r: Identity)
    | NewLink(r: Identity)
    | SetNextHop(r: Identity, ch: ChannelId)
    | RemoveNextHopIfCurrent(r: Identity, ch: ChannelId)
    | SetRelay(r: Identity)
    | RemoveRelay(r: Identity)
    | Close(ch: ChannelId)

  /** `order` is an order in which the relay set may be iterated. */
  predicate ListsRelays(s: State, order: seq<Identity>) {
    Elements(order) == s.relays && |order| == |s.relays|
  }

  /** The state after an action; an oversized message is refused. */
  function Next(s: State, a: Action): State {
    match a
    case Sending(m, order) =>
      if EncodedSize(m) <= MAX_MESSAGE_SIZE && ListsRelays(s, order) then Send(s, m, order) else s
    case Registering(r) => Register(s, r)
    case Unregistering(r) => s.(peers := s.peers - {r})
    case NewLink(r) => s.(owners := s.owners + [Link(r)], open := s.open + {|s.owners|})
    case SetNextHop(r, ch) =>
      if ch < |s.owners| && s.owners[ch] == Link(r) then s.(nextHops := s.nextHops[r := ch]) else s
    case RemoveNextHopIfCurrent(r, ch) =>
      if r in s.nextHops && s.nextHops[r] == ch then s.(nextHops := s.nextHops - {r}) else s
    case SetRelay(r) => s.(relays := s.relays + {r})
    case RemoveRelay(r) => s.(relays := s.relays - {r})
    case Close(ch) => s.(open := s.open - {ch})
  }

  /** A message read on the connection to `remote` whose outgoing channel is `link`. A relay may forward for others;
      anyone else sends for itself only. */
  function Inbound(s: State, remote: Identity, link: ChannelId, isRelay: bool, m: Message,
      order: seq<Identity>): State {
    if isRelay || m.sender == remote then Next(s, Sending(m.(origin := Frame(link)), order)) else s
  }

  function Run(capacity: nat, actions: seq<Action>): State {
    if actions == [] then Initial(capacity)
    else Next(Run(capacity, actions[..|actions| - 1]), actions[|actions| - 1])
  }

  /** Messages addressed to r. */
  function To(r: Identity, ms: seq<Message>): seq<Message> {
    if ms == [] then []
    else
      var last := ms[|ms| - 1];
      To(r, ms[..|ms| - 1]) + if last.recipient == r then [last] else []
  }

  function HandedTo(r: Identity, hs: seq<Handoff>): seq<Message> {
    if hs == [] then []
    else
      var last := hs[|hs| - 1];
      HandedTo(r, hs[..|hs| - 1]) + if last.message.recipient == r then [last.message] else []
  }

  /** Messages handed to the successive inboxes of r. */
  function InboxOf(s: State, r: Identity, hs: seq<Handoff>): seq<Message> {
    if hs == [] then []
    else
      var last := hs[|hs| - 1];
      InboxOf(s, r, hs[..|hs| - 1]) +
      if last.channel < |s.owners| && s.owners[last.channel] == Inbox(r) then [last.message] else []
  }

  /** What every reachable state satisfies. */
  ghost predicate Sound(s: State) {
    && s.capacity > 0
    && (forall r :: r in s.queues ==>
          && |s.queues[r]| <= s.capacity
          && forall i :: 0 <= i < |s.queues[r]| ==> s.queues[r][i].recipient == r)
    && (forall r :: r in s.peers ==> s.peers[r] < |s.owners| && s.owners[s.peers[r]] == Inbox(r) && r !in s.queues)
    && (forall r :: r in s.nextHops ==> s.nextHops[r] < |s.owners| && s.owners[s.nextHops[r]] == Link(r))
    && (forall i :: 0 <= i < |s.handed| ==> s.handed[i].channel < |s.owners|)
  }
}
